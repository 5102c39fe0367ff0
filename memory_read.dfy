/** store/memory/read.go: Store.Read converts a JSON store into the
    in-memory one. Planets and species go into arrays indexed by id
    (slot 0 stays nil), each system gets an array of its planets indexed
    by orbit, and every listed planet is pointed back at its system and
    given its position. The float-valued fields are left out. */
module MemoryRead {
  import opened Common
  import opened JsonDbTypes
  import opened JsonDbIo
  import opened MemoryCoords

  /** store/memory/species.go; NoRelation is the source's None. */
  datatype Relationship = NoRelation | Ally | Enemy | Neutral

  datatype Tech = Tech(level: int, init: int, knowledge: int, bankedXp: int)

  datatype ReadError =
    | Io(error: IoError)
    | InvalidPlanetIndex(index: int, system: int)
    | UnknownRelationship(relationship: string, species: string, id: int)

  class Planet {
    const id: int
    const diameter: int
    const gases: map<string, int>
    const message: int
    const pressureClass: int
    const temperatureClass: int
    var system: System?
    var coords: Coords

    constructor (id: int, diameter: int, gases: map<string, int>, message: int,
                 pressureClass: int, temperatureClass: int)
      ensures this.id == id && this.diameter == diameter && this.gases == gases
      ensures this.message == message && this.pressureClass == pressureClass
      ensures this.temperatureClass == temperatureClass
      ensures system == null && coords == Coords(0, 0, 0, 0)
    {
      this.id := id;
      this.diameter := diameter;
      this.gases := gases;
      this.message := message;
      this.pressureClass := pressureClass;
      this.temperatureClass := temperatureClass;
      system := null;
      coords := Coords(0, 0, 0, 0);
    }
  }

  class System {
    const id: string
    const coords: Coords
    const planets: array<Planet?>

    constructor (id: string, coords: Coords, n: nat)
      ensures this.id == id && this.coords == coords
      ensures fresh(planets) && planets.Length == n + 1
      ensures forall k | 0 <= k < planets.Length :: planets[k] == null
    {
      this.id := id;
      this.coords := coords;
      planets := new Planet?[n + 1](_ => null);
    }
  }

  class Species {
    const id: int
    const name: string
    const autoOrders: bool
    const bankedEconomicUnits: int
    const fleetCost: int
    const governmentName: string
    const governmentType: string
    const homeworldOriginalBase: int
    const relationships: map<int, Relationship>
    const tech: map<string, Tech>

    constructor (js: JSpecies, relationships: map<int, Relationship>, tech: map<string, Tech>)
      ensures id == js.id && name == js.name && autoOrders == js.autoOrders
      ensures bankedEconomicUnits == js.bankedEconUnits && fleetCost == js.fleetCost
      ensures governmentName == js.governmentName && governmentType == js.governmentType
      ensures homeworldOriginalBase == js.hpOriginalBase
      ensures this.relationships == relationships && this.tech == tech
    {
      id := js.id;
      name := js.name;
      autoOrders := js.autoOrders;
      bankedEconomicUnits := js.bankedEconUnits;
      fleetCost := js.fleetCost;
      governmentName := js.governmentName;
      governmentType := js.governmentType;
      homeworldOriginalBase := js.hpOriginalBase;
      this.relationships := relationships;
      this.tech := tech;
    }
  }

  // ---------------------------------------------------------------------
  // Planets by id

  ghost predicate IdsPositive(planets: seq<JPlanet>)
  {
    forall i | 0 <= i < |planets| :: planets[i].id >= 1
  }

  /** The largest planet id, or 0 for no planets. */
  function MaxPlanetId(planets: seq<JPlanet>): (r: int)
    ensures r >= 0 && forall i | 0 <= i < |planets| :: planets[i].id <= r
    ensures r == 0 || exists i | 0 <= i < |planets| :: planets[i].id == r
  {
    if |planets| == 0 then 0
    else
      var m := MaxPlanetId(planets[..|planets| - 1]);
      if m < planets[|planets| - 1].id then planets[|planets| - 1].id else m
  }

  /** The first planet of the list with an id below 1. */
  ghost predicate FirstBadId(planets: seq<JPlanet>, i: int)
  {
    0 <= i < |planets| && planets[i].id < 1 && forall j | 0 <= j < i :: planets[j].id >= 1
  }

  /** The first loop of read.go:35-42. */
  method CheckPlanetIds(planets: seq<JPlanet>) returns (err: Option<ReadError>, maxPlanetId: int)
    ensures err.None? <==> IdsPositive(planets)
    ensures err.None? ==> maxPlanetId == MaxPlanetId(planets)
    ensures err.Some? ==> exists i :: FirstBadId(planets, i) && err.value == Io(InvalidPlanetId(planets[i].id))
  {
    maxPlanetId := 0;
    for i := 0 to |planets|
      invariant forall j | 0 <= j < i :: planets[j].id >= 1
      invariant maxPlanetId == MaxPlanetId(planets[..i])
    {
      assert planets[..i + 1][..i] == planets[..i];
      var planet := planets[i];
      if planet.id < 1 {
        assert FirstBadId(planets, i);
        return Some(Io(InvalidPlanetId(planet.id))), maxPlanetId;
      } else if maxPlanetId < planet.id {
        maxPlanetId := planet.id;
      }
    }
    assert planets[..|planets|] == planets;
    return None, maxPlanetId;
  }

  /** The last planet of the list with id `id`: the one Read keeps. */
  function LastWithId(planets: seq<JPlanet>, id: int): (r: Option<nat>)
    ensures r.Some? ==> (r.value < |planets| && planets[r.value].id == id
      && forall j | r.value < j < |planets| :: planets[j].id != id)
    ensures r.None? ==> forall j | 0 <= j < |planets| :: planets[j].id != id
  {
    if |planets| == 0 then None
    else if planets[|planets| - 1].id == id then Some(|planets| - 1)
    else LastWithId(planets[..|planets| - 1], id)
  }

  /** A planet object holds the fields Read copies from `jp`. */
  ghost predicate PlanetFrom(p: Planet, jp: JPlanet)
  {
    && p.id == jp.id && p.diameter == jp.diameter && p.gases == jp.gases
    && p.message == jp.message && p.pressureClass == jp.pressureClass
    && p.temperatureClass == jp.temperatureClass
  }

  /** Slot `id` holds the planet built from the last entry with that id,
      and is nil when no entry has it. */
  ghost predicate PlacedAt(a: seq<Planet?>, planets: seq<JPlanet>, id: int)
    requires 0 <= id < |a|
  {
    match LastWithId(planets, id)
    case None => a[id] == null
    case Some(i) => a[id] != null && PlanetFrom(a[id], planets[i])
  }

  ghost predicate PlanetsPlaced(a: seq<Planet?>, planets: seq<JPlanet>)
  {
    forall id | 0 <= id < |a| :: PlacedAt(a, planets, id)
  }

  /** Every planet sits in the slot of its own id. */
  ghost predicate IdsMatch(a: seq<Planet?>)
  {
    forall k | 0 <= k < |a| && a[k] != null :: a[k].id == k
  }

  ghost function Objects(arr: array<Planet?>): set<Planet>
    reads arr
  {
    set p: Planet | p in arr[..]
  }

  /** Where a planet points: its system and its position. */
  datatype Link = Link(system: System?, coords: Coords)

  /** Slot by slot, the system and position each planet of the array holds. */
  ghost predicate LinksAre(arr: array<Planet?>, links: seq<Link>)
    reads arr, Objects(arr)
  {
    && |links| == arr.Length
    && forall pid | 0 <= pid < arr.Length && arr[pid] != null ::
         Link(arr[pid].system, arr[pid].coords) == links[pid]
  }

  /** No planet placed in a system yet. */
  ghost function NoLinks(n: nat): (r: seq<Link>)
    ensures |r| == n
  {
    seq(n, _ => Link(null, Coords(0, 0, 0, 0)))
  }

  /** The gas loop of read.go:57-96: the same checks as the JSON store's,
      copying each known gas as it goes. */
  method CopyGases(id: int, gases: map<string, int>) returns (err: Option<IoError>, copy: map<string, int>)
    ensures err.None? <==> GasesValid(gases)
    ensures err.Some? ==> GasErrorOf(id, gases, err.value)
    ensures err.None? ==> copy == gases
  {
    copy := map[];
    var totalGases := 0;
    var done: set<string> := {};
    var rest := gases.Keys;
    while rest != {}
      invariant rest <= gases.Keys && done == gases.Keys - rest
      invariant forall g | g in done :: KnownGas(g) && 1 <= gases[g] <= 100
      invariant copy == map g | g in done :: gases[g]
      invariant totalGases == SumOver(gases, done)
      decreases rest
    {
      var gas :| gas in rest;
      var percentage := gases[gas];
      if !KnownGas(gas) {
        return Some(UnknownGas(gas, id)), copy;
      }
      copy := copy[gas := percentage];
      if percentage < 1 || percentage > 100 {
        return Some(InvalidPercentage(percentage, gas, id)), copy;
      }
      SumOverAdd(gases, done, gas);
      totalGases := totalGases + percentage;
      done := done + {gas};
      rest := rest - {gas};
    }
    assert done == gases.Keys;
    if totalGases > 0 && totalGases != 100 {
      return Some(InvalidGasTotal(totalGases, id)), copy;
    }
    return None, copy;
  }

  /** The second loop of read.go:45-98: build each planet and store it at
      its id, a later entry replacing an earlier one with the same id. */
  method FillPlanets(arr: array<Planet?>, planets: seq<JPlanet>) returns (err: Option<ReadError>)
    requires IdsPositive(planets)
    requires forall i | 0 <= i < |planets| :: planets[i].id < arr.Length
    requires forall id | 0 <= id < arr.Length :: arr[id] == null
    modifies arr
    ensures err.None? <==> PlanetsValid(planets)
    ensures err.Some? ==> err.value.Io? && FirstPlanetError(planets, err.value.error)
    ensures err.None? ==> PlanetsPlaced(arr[..], planets) && IdsMatch(arr[..])
    ensures err.None? ==> LinksAre(arr, NoLinks(arr.Length))
    ensures err.None? ==> fresh(Objects(arr))
  {
    for i := 0 to |planets|
      invariant PlanetsValid(planets[..i])
      invariant PlanetsPlaced(arr[..], planets[..i]) && IdsMatch(arr[..])
      invariant LinksAre(arr, NoLinks(arr.Length))
      invariant forall id | 0 <= id < arr.Length && arr[id] != null :: fresh(arr[id])
    {
      var planet := planets[i];
      var gasErr, gases := CopyGases(planet.id, planet.gases);
      if gasErr.Some? {
        assert FirstPlanetError(planets, gasErr.value) by {
          assert PlanetsValid(planets[..i]) && !PlanetValid(planets[i]);
        }
        return Some(Io(gasErr.value));
      }
      var p := new Planet(planet.id, planet.diameter, gases, planet.message,
        planet.pressureClass, planet.temperatureClass);
      ghost var before := arr[..];
      arr[p.id] := p;
      PlacedStep(before, planets, i, p);
      assert arr[..] == before[p.id := p];
      assert planets[..i + 1] == planets[..i] + [planet];
    }
    assert planets[..|planets|] == planets;
    forall q | q in Objects(arr)
      ensures fresh(q)
    {
      var id :| 0 <= id < arr.Length && arr[id] == q;
    }
    return None;
  }

  lemma PlacedStep(a: seq<Planet?>, planets: seq<JPlanet>, i: int, p: Planet)
    requires 0 <= i < |planets| && 0 <= planets[i].id < |a|
    requires PlanetsPlaced(a, planets[..i]) && PlanetFrom(p, planets[i])
    ensures PlanetsPlaced(a[planets[i].id := p], planets[..i + 1])
  {
    var ps := planets[..i + 1];
    var b := a[planets[i].id := p];
    assert ps[..i] == planets[..i] && ps[i] == planets[i];
    forall id | 0 <= id < |b|
      ensures PlacedAt(b, ps, id)
    {
      if id != planets[i].id {
        assert LastWithId(ps, id) == LastWithId(planets[..i], id);
        assert PlacedAt(a, planets[..i], id);
      } else {
        assert LastWithId(ps, id) == Some(i);
      }
    }
  }

  // ---------------------------------------------------------------------
  // Systems

  /** Every planet index a system lists is inside the planet list. */
  ghost predicate IndexValid(js: JSystem, n: int)
  {
    forall o | 0 <= o < |js.planets| :: 0 <= js.planets[o] < n
  }

  ghost predicate IndicesValid(systems: seq<JSystem>, n: int)
  {
    forall i | 0 <= i < |systems| :: IndexValid(systems[i], n)
  }

  /** The last position of `ps` whose planet has id `pid`. */
  ghost function LastOrbit(ps: seq<int>, planets: seq<JPlanet>, pid: int): (r: Option<nat>)
    requires forall o | 0 <= o < |ps| :: 0 <= ps[o] < |planets|
    ensures r.Some? ==> (r.value < |ps| && planets[ps[r.value]].id == pid
      && forall o | r.value < o < |ps| :: planets[ps[o]].id != pid)
    ensures r.None? ==> forall o | 0 <= o < |ps| :: planets[ps[o]].id != pid
  {
    if |ps| == 0 then None
    else if planets[ps[|ps| - 1]].id == pid then Some(|ps| - 1)
    else LastOrbit(ps[..|ps| - 1], planets, pid)
  }

  /** The last (system, position) pair listing planet `pid`: the one whose
      assignment of System and Coords survives. */
  ghost function LastListing(systems: seq<JSystem>, planets: seq<JPlanet>, pid: int): Option<(nat, nat)>
    requires IndicesValid(systems, |planets|)
  {
    if |systems| == 0 then None
    else match LastOrbit(systems[|systems| - 1].planets, planets, pid)
      case Some(o) => Some((|systems| - 1, o))
      case None => LastListing(systems[..|systems| - 1], planets, pid)
  }

  /** "X Y Z": the id a system gets from its position. */
  function SystemId(js: JSystem): string
  {
    CoordsText(js.coords.x, js.coords.y, js.coords.z)
  }

  /** Every planet id is a slot of an array of length `n`. */
  ghost predicate IdsBelow(planets: seq<JPlanet>, n: int)
  {
    forall i | 0 <= i < |planets| :: 0 <= planets[i].id < n
  }

  /** A system object built from `js`: its id and position, nil at orbit
      0, and at orbit o + 1 the planet the o-th index names. */
  ghost predicate SystemMade(s: System, js: JSystem, planets: seq<JPlanet>, arr: array<Planet?>)
    reads s.planets, arr
  {
    && s.id == SystemId(js)
    && s.coords == Coords(js.coords.x, js.coords.y, js.coords.z, 0)
    && s.planets.Length == |js.planets| + 1
    && s.planets[0] == null
    && IndexValid(js, |planets|)
    && IdsBelow(planets, arr.Length)
    && forall o | 0 <= o < |js.planets| :: s.planets[o + 1] == arr[planets[js.planets[o]].id]
  }

  /** The links after one system's loop: each planet it lists points at it,
      at the orbit of its last position there. */
  ghost function Relinked(before: seq<Link>, ps: seq<int>, planets: seq<JPlanet>, s: System, c: JCoords): (r: seq<Link>)
    requires forall o | 0 <= o < |ps| :: 0 <= ps[o] < |planets|
    requires IdsBelow(planets, |before|)
    ensures |r| == |before|
  {
    if |ps| == 0 then before
    else
      Relinked(before, ps[..|ps| - 1], planets, s, c)[planets[ps[|ps| - 1]].id := Link(s, Coords(c.x, c.y, c.z, |ps|))]
  }

  /** A planet listed by the system points at it from its last position
      there; any other planet keeps its link. */
  lemma {:induction false} RelinkedAt(before: seq<Link>, ps: seq<int>, planets: seq<JPlanet>, s: System, c: JCoords, pid: int)
    requires forall o | 0 <= o < |ps| :: 0 <= ps[o] < |planets|
    requires IdsBelow(planets, |before|) && 0 <= pid < |before|
    ensures Relinked(before, ps, planets, s, c)[pid] ==
      match LastOrbit(ps, planets, pid)
      case Some(o) => Link(s, Coords(c.x, c.y, c.z, o + 1))
      case None => before[pid]
  {
    if |ps| > 0 {
      RelinkedAt(before, ps[..|ps| - 1], planets, s, c, pid);
    }
  }

  /** The first position of a system whose planet index is out of range. */
  ghost predicate FirstBadIndex(js: JSystem, n: int, o: int)
  {
    0 <= o < |js.planets| && !(0 <= js.planets[o] < n)
    && forall q | 0 <= q < o :: 0 <= js.planets[q] < n
  }

  /** The facts about the planet array the systems loop relies on. */
  ghost predicate PlanetArray(arr: array<Planet?>, planets: seq<JPlanet>)
    reads arr
  {
    && IdsPositive(planets)
    && IdsBelow(planets, arr.Length)
    && PlanetsPlaced(arr[..], planets)
    && IdsMatch(arr[..])
  }

  /** Every planet in the array sits in the slot of its id, and every
      planet of the list has an object there. */
  ghost predicate InSlots(arr: array<Planet?>, planets: seq<JPlanet>)
    reads arr
  {
    && (forall k | 0 <= k < arr.Length && arr[k] != null :: arr[k].id == k)
    && IdsBelow(planets, arr.Length)
    && (forall i | 0 <= i < |planets| :: arr[planets[i].id] != null)
  }

  lemma PlacedInSlots(arr: array<Planet?>, planets: seq<JPlanet>)
    requires PlanetArray(arr, planets)
    ensures InSlots(arr, planets)
  {
    forall i | 0 <= i < |planets|
      ensures arr[planets[i].id] != null
    {
      assert PlacedAt(arr[..], planets, planets[i].id);
    }
  }

  /** The state of a system's loop after its first `o` positions. */
  ghost predicate Building(js: JSystem, planets: seq<JPlanet>, arr: array<Planet?>, s: System, o: int, before: seq<Link>)
    reads arr, Objects(arr), s.planets
  {
    && 0 <= o <= |js.planets|
    && (forall q | 0 <= q < o :: 0 <= js.planets[q] < |planets|)
    && s.coords == Coords(js.coords.x, js.coords.y, js.coords.z, 0)
    && |before| == arr.Length
    && IdsBelow(planets, arr.Length)
    && s.planets.Length == |js.planets| + 1
    && s.planets[0] == null
    && (forall q | 0 <= q < o :: s.planets[q + 1] == arr[planets[js.planets[q]].id])
    && LinksAre(arr, Relinked(before, js.planets[..o], planets, s, js.coords))
  }

  /** One turn of the inner loop of read.go:107-115: check the index, then
      point the planet at the system, give it its position and put it in
      the system's orbit. */
  method PlaceAt(js: JSystem, planets: seq<JPlanet>, arr: array<Planet?>, s: System, o: int, ghost before: seq<Link>)
    returns (err: Option<ReadError>)
    requires Building(js, planets, arr, s, o, before) && o < |js.planets|
    requires InSlots(arr, planets) && s.planets != arr
    modifies Objects(arr), s.planets
    ensures err.None? <==> 0 <= js.planets[o] < |planets|
    ensures err.Some? ==> err.value == InvalidPlanetIndex(js.planets[o], js.id)
    ensures err.None? ==> Building(js, planets, arr, s, o + 1, before)
  {
    var pIndex := js.planets[o];
    if pIndex < 0 || !(pIndex < |planets|) {
      return Some(InvalidPlanetIndex(pIndex, js.id));
    }
    ghost var links := Relinked(before, js.planets[..o], planets, s, js.coords);
    var planet := arr[planets[pIndex].id];
    planet.system := s;
    planet.coords := Coords(s.coords.x, s.coords.y, s.coords.z, o + 1);
    s.planets[planet.coords.orbit] := planet;
    assert js.planets[..o + 1][..o] == js.planets[..o];
    assert Relinked(before, js.planets[..o + 1], planets, s, js.coords) == links[planet.id := Link(s, planet.coords)];
    assert LinksAre(arr, links[planet.id := Link(s, planet.coords)]);
    return None;
  }

  /** The inner loop of read.go:101-117 for one system. */
  method BuildSystem(js: JSystem, planets: seq<JPlanet>, arr: array<Planet?>, ghost before: seq<Link>)
    returns (err: Option<ReadError>, s: System)
    requires InSlots(arr, planets) && LinksAre(arr, before)
    modifies Objects(arr)
    ensures fresh(s) && fresh(s.planets)
    ensures err.None? <==> IndexValid(js, |planets|)
    ensures err.Some? ==> exists o :: (FirstBadIndex(js, |planets|, o)
      && err.value == InvalidPlanetIndex(js.planets[o], js.id))
    ensures err.None? ==> SystemMade(s, js, planets, arr)
    ensures err.None? ==> LinksAre(arr, Relinked(before, js.planets, planets, s, js.coords))
  {
    s := new System(SystemId(js), Coords(js.coords.x, js.coords.y, js.coords.z, 0), |js.planets|);
    for o := 0 to |js.planets|
      invariant Building(js, planets, arr, s, o, before)
    {
      err := PlaceAt(js, planets, arr, s, o, before);
      if err.Some? {
        assert FirstBadIndex(js, |planets|, o);
        return;
      }
    }
    assert js.planets[..|js.planets|] == js.planets;
    return None, s;
  }

  /** The links after a run of systems: each listed planet points at the
      system and orbit of its last listing. */
  ghost function AllLinks(systems: seq<JSystem>, objs: seq<System>, planets: seq<JPlanet>, n: nat): (r: seq<Link>)
    requires |objs| == |systems| && IndicesValid(systems, |planets|) && IdsBelow(planets, n)
    ensures |r| == n
  {
    if |systems| == 0 then NoLinks(n)
    else
      var k := |systems| - 1;
      Relinked(AllLinks(systems[..k], objs[..k], planets, n), systems[k].planets, planets, objs[k], systems[k].coords)
  }

  /** Where a planet ends up: in the system and at the orbit of its last
      listing, or nowhere. */
  ghost function LinkOf(listing: Option<(nat, nat)>, objs: seq<System>, systems: seq<JSystem>): Link
    requires |objs| == |systems|
    requires listing.Some? ==> listing.value.0 < |systems|
  {
    match listing
    case None => Link(null, Coords(0, 0, 0, 0))
    case Some((i, o)) =>
      Link(objs[i], Coords(systems[i].coords.x, systems[i].coords.y, systems[i].coords.z, o + 1))
  }

  lemma {:induction false} LastListingInRange(systems: seq<JSystem>, planets: seq<JPlanet>, pid: int)
    requires IndicesValid(systems, |planets|)
    ensures LastListing(systems, planets, pid).Some? ==> LastListing(systems, planets, pid).value.0 < |systems|
  {
    if |systems| > 0 {
      var k := |systems| - 1;
      assert IndicesValid(systems[..k], |planets|) by {
        assert forall i | 0 <= i < k :: systems[..k][i] == systems[i];
      }
      LastListingInRange(systems[..k], planets, pid);
    }
  }

  /** Every planet points at the system and orbit of its last listing,
      across all systems: a planet listed twice keeps the later listing. */
  lemma {:induction false} AllLinksAt(systems: seq<JSystem>, objs: seq<System>, planets: seq<JPlanet>, n: nat, pid: int)
    requires |objs| == |systems| && IndicesValid(systems, |planets|) && IdsBelow(planets, n)
    requires 0 <= pid < n
    ensures LastListing(systems, planets, pid).Some? ==> LastListing(systems, planets, pid).value.0 < |systems|
    ensures AllLinks(systems, objs, planets, n)[pid] == LinkOf(LastListing(systems, planets, pid), objs, systems)
  {
    LastListingInRange(systems, planets, pid);
    if |systems| > 0 {
      var k := |systems| - 1;
      assert IndicesValid(systems[..k], |planets|) by {
        assert forall i | 0 <= i < k :: systems[..k][i] == systems[i];
      }
      AllLinksAt(systems[..k], objs[..k], planets, n, pid);
      RelinkedAt(AllLinks(systems[..k], objs[..k], planets, n), systems[k].planets, planets, objs[k], systems[k].coords, pid);
      match LastListing(systems[..k], planets, pid)
      case None =>
      case Some((i, o)) =>
        assert objs[..k][i] == objs[i] && systems[..k][i] == systems[i];
    }
  }

  lemma AllLinksStep(systems: seq<JSystem>, objs: seq<System>, planets: seq<JPlanet>, n: nat, i: int, s: System)
    requires 0 <= i < |systems| && |objs| == i
    requires IndicesValid(systems[..i + 1], |planets|) && IdsBelow(planets, n)
    ensures IndicesValid(systems[..i], |planets|)
    ensures AllLinks(systems[..i + 1], objs + [s], planets, n) ==
      Relinked(AllLinks(systems[..i], objs, planets, n), systems[i].planets, planets, s, systems[i].coords)
  {
    assert systems[..i + 1][..i] == systems[..i];
    assert (objs + [s])[..i] == objs;
    assert forall k | 0 <= k < i :: systems[..i][k] == systems[..i + 1][k];
  }

  /** The state of the systems loop after its first `i` systems: `objs`
      are the systems built, `table` the map so far. */
  ghost predicate Loading(systems: seq<JSystem>, planets: seq<JPlanet>, arr: array<Planet?>,
                          objs: seq<System>, table: map<string, System>, i: int)
    reads arr, Objects(arr), set s | s in objs :: s.planets
  {
    && 0 <= i <= |systems|
    && IndicesValid(systems[..i], |planets|)
    && |objs| == i
    && table == SystemTable(objs)
    && (forall k | 0 <= k < i :: SystemMade(objs[k], systems[k], planets, arr))
    && IdsBelow(planets, arr.Length)
    && LinksAre(arr, AllLinks(systems[..i], objs, planets, arr.Length))
  }

  /** One turn of the systems loop of read.go:100-117: build the system,
      then store it under its id. */
  method LoadOne(systems: seq<JSystem>, planets: seq<JPlanet>, arr: array<Planet?>,
                 table: map<string, System>, i: int, ghost objs: seq<System>)
    returns (err: Option<ReadError>, table': map<string, System>, ghost objs': seq<System>)
    requires Loading(systems, planets, arr, objs, table, i) && i < |systems|
    requires InSlots(arr, planets)
    modifies Objects(arr)
    ensures err.None? <==> IndexValid(systems[i], |planets|)
    ensures err.Some? ==> exists o :: (FirstBadIndex(systems[i], |planets|, o)
      && err.value == InvalidPlanetIndex(systems[i].planets[o], systems[i].id))
    ensures err.None? ==> Loading(systems, planets, arr, objs', table', i + 1)
  {
    var s;
    err, s := BuildSystem(systems[i], planets, arr, AllLinks(systems[..i], objs, planets, arr.Length));
    if err.Some? {
      return err, table, objs;
    }
    assert IndicesValid(systems[..i + 1], |planets|) by {
      assert forall k | 0 <= k < i + 1 :: systems[..i + 1][k] == systems[k];
    }
    AllLinksStep(systems, objs, planets, arr.Length, i, s);
    table' := table[s.id := s];
    objs' := objs + [s];
    assert objs'[i] == s && forall k | 0 <= k < i :: objs'[k] == objs[k];
  }

  /** The systems loop of read.go:100-117. */
  method LoadSystems(systems: seq<JSystem>, planets: seq<JPlanet>, arr: array<Planet?>)
    returns (err: Option<ReadError>, table: map<string, System>, ghost objs: seq<System>)
    requires InSlots(arr, planets) && LinksAre(arr, NoLinks(arr.Length))
    modifies Objects(arr)
    ensures err.None? <==> IndicesValid(systems, |planets|)
    ensures err.Some? ==> exists i, o :: (0 <= i < |systems| && IndicesValid(systems[..i], |planets|)
      && FirstBadIndex(systems[i], |planets|, o)
      && err.value == InvalidPlanetIndex(systems[i].planets[o], systems[i].id))
    ensures err.None? ==> Loading(systems, planets, arr, objs, table, |systems|)
  {
    err, table, objs := None, map[], [];
    for i := 0 to |systems|
      invariant err.None? && Loading(systems, planets, arr, objs, table, i)
    {
      err, table, objs := LoadOne(systems, planets, arr, table, i, objs);
      if err.Some? {
        assert !IndexValid(systems[i], |planets|);
        return;
      }
    }
    assert systems[..|systems|] == systems;
  }

  /** The map a sequence of systems leaves behind: keyed by id, a later
      system replacing an earlier one with the same id. */
  ghost function SystemTable(objs: seq<System>): map<string, System>
  {
    if |objs| == 0 then map[]
    else SystemTable(objs[..|objs| - 1])[objs[|objs| - 1].id := objs[|objs| - 1]]
  }

  /** The table has one entry per distinct id, holding the last system
      with that id. */
  lemma {:induction false} SystemTableContents(objs: seq<System>, key: string)
    ensures key in SystemTable(objs) <==> exists i | 0 <= i < |objs| :: objs[i].id == key
    ensures key in SystemTable(objs) ==> exists i | 0 <= i < |objs| ::
      && objs[i].id == key && SystemTable(objs)[key] == objs[i]
      && forall j | i < j < |objs| :: objs[j].id != key
  {
    if |objs| > 0 {
      var init := objs[..|objs| - 1];
      SystemTableContents(init, key);
      if objs[|objs| - 1].id != key {
        if exists i | 0 <= i < |objs| :: objs[i].id == key {
          var i :| 0 <= i < |objs| && objs[i].id == key;
          assert init[i] == objs[i];
        }
        if key in SystemTable(init) {
          var i :| 0 <= i < |init| && init[i].id == key && SystemTable(init)[key] == init[i]
            && forall j | i < j < |init| :: init[j].id != key;
          assert objs[i] == init[i];
        }
      }
    }
  }

  /** Two systems share a map key exactly when they share a position. */
  lemma SystemIdsMatchPositions(a: JSystem, b: JSystem)
    ensures SystemId(a) == SystemId(b) <==> a.coords == b.coords
  {
    if SystemId(a) == SystemId(b) {
      CoordsTextInjective(a.coords.x, a.coords.y, a.coords.z, b.coords.x, b.coords.y, b.coords.z);
    }
  }

  // ---------------------------------------------------------------------
  // Species by id

  /** The relationship an Aliens entry names, if it is one of the three. */
  function RelationshipOf(r: string): Option<Relationship>
  {
    if r == "ally" then Some(Ally)
    else if r == "enemy" then Some(Enemy)
    else if r == "neutral" then Some(Neutral)
    else None
  }

  predicate RelationshipsKnown(aliens: map<int, string>)
  {
    forall id | id in aliens :: RelationshipOf(aliens[id]).Some?
  }

  /** The ids 1 to n. */
  function Upto(n: int): (r: set<int>)
    ensures forall j :: j in r <==> 1 <= j <= n
    decreases n
  {
    if n < 1 then {} else Upto(n - 1) + {n}
  }

  /** Every id of `ids` with no relationship. */
  function NoRelations(ids: set<int>): (r: map<int, Relationship>)
    ensures r.Keys == ids && forall j | j in r :: r[j] == NoRelation
  {
    map j | j in ids :: NoRelation
  }

  /** Every id from 1 to `maxSpeciesId` with no relationship, overridden by
      what Aliens names; Aliens ids outside that range are kept too. */
  function Relationships(aliens: map<int, string>, maxSpeciesId: int): map<int, Relationship>
    requires RelationshipsKnown(aliens)
  {
    map id | id in aliens.Keys + Upto(maxSpeciesId) ::
      if id in aliens then RelationshipOf(aliens[id]).value else NoRelation
  }

  /** The six tech fields under their two-letter codes. */
  function TechOf(t: JTech): (r: map<string, Tech>)
    ensures r.Keys == {"BI", "GV", "LS", "MA", "MI", "ML"}
  {
    map[
      "BI" := Tech(t.biology.level, t.biology.init, t.biology.knowledge, t.biology.xp),
      "GV" := Tech(t.gravitics.level, t.gravitics.init, t.gravitics.knowledge, t.gravitics.xp),
      "LS" := Tech(t.lifeSupport.level, t.lifeSupport.init, t.lifeSupport.knowledge, t.lifeSupport.xp),
      "MA" := Tech(t.manufacturing.level, t.manufacturing.init, t.manufacturing.knowledge, t.manufacturing.xp),
      "MI" := Tech(t.mining.level, t.mining.init, t.mining.knowledge, t.mining.xp),
      "ML" := Tech(t.military.level, t.military.init, t.military.knowledge, t.military.xp)]
  }

  /** A species object holds what Read copies from `js`. */
  ghost predicate SpeciesFrom(sp: Species, js: JSpecies, maxSpeciesId: int)
  {
    && sp.id == js.id && sp.name == js.name && sp.autoOrders == js.autoOrders
    && sp.bankedEconomicUnits == js.bankedEconUnits && sp.fleetCost == js.fleetCost
    && sp.governmentName == js.governmentName && sp.governmentType == js.governmentType
    && sp.homeworldOriginalBase == js.hpOriginalBase
    && RelationshipsKnown(js.aliens)
    && sp.relationships == Relationships(js.aliens, maxSpeciesId)
    && sp.tech == TechOf(js.tech)
  }

  ghost predicate SpeciesIdsPositive(species: map<string, JSpecies>)
  {
    forall key | key in species :: species[key].id >= 1
  }

  /** The first species loop of read.go:119-126, in map order. */
  method CheckSpeciesIds(species: map<string, JSpecies>) returns (err: Option<ReadError>, maxSpeciesId: int)
    ensures err.None? <==> SpeciesIdsPositive(species)
    ensures err.Some? ==> exists key | key in species ::
      species[key].id < 1 && err.value == Io(InvalidSpeciesId(species[key].id))
    ensures err.None? ==> maxSpeciesId >= 0 && forall key | key in species :: species[key].id <= maxSpeciesId
    ensures err.None? ==> maxSpeciesId == 0 || exists key | key in species :: species[key].id == maxSpeciesId
  {
    maxSpeciesId := 0;
    var rest := species.Keys;
    while rest != {}
      invariant rest <= species.Keys
      invariant maxSpeciesId >= 0
      invariant forall key | key in species.Keys - rest :: 1 <= species[key].id <= maxSpeciesId
      invariant maxSpeciesId == 0 || exists key | key in species.Keys - rest :: species[key].id == maxSpeciesId
      decreases rest
    {
      var key :| key in rest;
      var sp := species[key];
      if sp.id < 1 {
        return Some(Io(InvalidSpeciesId(sp.id))), maxSpeciesId;
      } else if maxSpeciesId < sp.id {
        maxSpeciesId := sp.id;
      }
      rest := rest - {key};
    }
    return None, maxSpeciesId;
  }

  /** The body of the second species loop of read.go:129-195 up to the
      store: relationships in two passes, then the copied fields and the
      tech map. */
  method NewSpecies(js: JSpecies, maxSpeciesId: int) returns (err: Option<ReadError>, sp: Species?)
    requires maxSpeciesId >= 0
    ensures err.None? <==> RelationshipsKnown(js.aliens)
    ensures err.Some? ==> exists id | id in js.aliens :: (RelationshipOf(js.aliens[id]).None?
      && err.value == UnknownRelationship(js.aliens[id], js.name, id))
    ensures err.None? ==> sp != null && fresh(sp) && SpeciesFrom(sp, js, maxSpeciesId)
  {
    var relationships: map<int, Relationship> := map[];
    for id := 1 to maxSpeciesId + 1
      invariant relationships == NoRelations(Upto(id - 1))
    {
      relationships := relationships[id := NoRelation];
    }
    var done: set<int> := {};
    var rest := js.aliens.Keys;
    while rest != {}
      invariant rest <= js.aliens.Keys && done == js.aliens.Keys - rest
      invariant forall id | id in done :: RelationshipOf(js.aliens[id]).Some?
      invariant relationships == map j | j in done + Upto(maxSpeciesId) ::
        if j in done then RelationshipOf(js.aliens[j]).value else NoRelation
      decreases rest
    {
      var id :| id in rest;
      var r := js.aliens[id];
      if r == "ally" {
        relationships := relationships[id := Ally];
      } else if r == "enemy" {
        relationships := relationships[id := Enemy];
      } else if r == "neutral" {
        relationships := relationships[id := Neutral];
      } else {
        return Some(UnknownRelationship(r, js.name, id)), null;
      }
      done := done + {id};
      rest := rest - {id};
    }
    assert done == js.aliens.Keys;
    var tech: map<string, Tech> := map[];
    tech := tech["BI" := Tech(js.tech.biology.level, js.tech.biology.init, js.tech.biology.knowledge, js.tech.biology.xp)];
    tech := tech["GV" := Tech(js.tech.gravitics.level, js.tech.gravitics.init, js.tech.gravitics.knowledge, js.tech.gravitics.xp)];
    tech := tech["LS" := Tech(js.tech.lifeSupport.level, js.tech.lifeSupport.init, js.tech.lifeSupport.knowledge, js.tech.lifeSupport.xp)];
    tech := tech["MA" := Tech(js.tech.manufacturing.level, js.tech.manufacturing.init, js.tech.manufacturing.knowledge, js.tech.manufacturing.xp)];
    tech := tech["MI" := Tech(js.tech.mining.level, js.tech.mining.init, js.tech.mining.knowledge, js.tech.mining.xp)];
    tech := tech["ML" := Tech(js.tech.military.level, js.tech.military.init, js.tech.military.knowledge, js.tech.military.xp)];
    sp := new Species(js, relationships, tech);
    return None, sp;
  }

  /** Slot `id` holds a species built from some entry with that id (which
      one, when several share it, depends on map order), and is nil when
      no entry has it. */
  ghost predicate SpeciesPlacedAt(a: seq<Species?>, species: map<string, JSpecies>, keys: set<string>, id: int)
    requires 0 <= id < |a| && keys <= species.Keys
  {
    && (a[id] == null <==> forall key | key in keys :: species[key].id != id)
    && (a[id] != null ==> exists key | key in keys ::
          species[key].id == id && SpeciesFrom(a[id], species[key], |a| - 1))
  }

  ghost predicate SpeciesPlaced(a: seq<Species?>, species: map<string, JSpecies>)
  {
    forall id | 0 <= id < |a| :: SpeciesPlacedAt(a, species, species.Keys, id)
  }

  /** The facts about a species array sized from the largest id. */
  ghost predicate SpeciesArray(n: int, species: map<string, JSpecies>)
  {
    && n >= 1
    && SpeciesIdsPositive(species)
    && (forall key | key in species :: species[key].id < n)
  }

  /** The second species loop of read.go:129-195, in map order. */
  method FillSpecies(arr: array<Species?>, species: map<string, JSpecies>) returns (err: Option<ReadError>)
    requires SpeciesArray(arr.Length, species)
    requires forall id | 0 <= id < arr.Length :: arr[id] == null
    modifies arr
    ensures err.None? <==> forall key | key in species :: RelationshipsKnown(species[key].aliens)
    ensures err.Some? ==> (exists key, id | key in species && id in species[key].aliens ::
      RelationshipOf(species[key].aliens[id]).None?
      && err.value == UnknownRelationship(species[key].aliens[id], species[key].name, id))
    ensures err.None? ==> SpeciesPlaced(arr[..], species)
  {
    var done: set<string> := {};
    var rest := species.Keys;
    while rest != {}
      invariant rest <= species.Keys && done == species.Keys - rest
      invariant forall key | key in done :: RelationshipsKnown(species[key].aliens)
      invariant forall id | 0 <= id < arr.Length :: SpeciesPlacedAt(arr[..], species, done, id)
      decreases rest
    {
      var key :| key in rest;
      var err', sp := NewSpecies(species[key], arr.Length - 1);
      if err'.Some? {
        return err';
      }
      ghost var before := arr[..];
      arr[sp.id] := sp;
      SpeciesStep(before, arr[..], species, done, done + {key}, key, sp);
      done := done + {key};
      rest := rest - {key};
    }
    assert done == species.Keys;
    return None;
  }

  lemma SpeciesStep(a: seq<Species?>, b: seq<Species?>, species: map<string, JSpecies>,
                    done: set<string>, done': set<string>, key: string, sp: Species)
    requires done <= species.Keys && key in species && 0 <= species[key].id < |a|
    requires forall id | 0 <= id < |a| :: SpeciesPlacedAt(a, species, done, id)
    requires SpeciesFrom(sp, species[key], |a| - 1)
    requires b == a[species[key].id := sp] && done' == done + {key}
    ensures forall id | 0 <= id < |b| :: SpeciesPlacedAt(b, species, done', id)
  {
    forall id | 0 <= id < |b|
      ensures SpeciesPlacedAt(b, species, done', id)
    {
      if id != species[key].id {
        assert SpeciesPlacedAt(a, species, done, id);
        if b[id] != null {
          var k :| k in done && species[k].id == id && SpeciesFrom(a[id], species[k], |a| - 1);
          assert k in done + {key};
        }
      } else {
        assert key in done + {key};
      }
    }
  }

  // ---------------------------------------------------------------------
  // The whole conversion

  /** The error the planet phase reports: the first id below 1, else the
      first planet whose gases are wrong. */
  ghost predicate PlanetPhaseError(planets: seq<JPlanet>, e: ReadError)
  {
    if !IdsPositive(planets) then
      exists i :: FirstBadId(planets, i) && e == Io(InvalidPlanetId(planets[i].id))
    else
      e.Io? && FirstPlanetError(planets, e.error)
  }

  /** The error the systems phase reports: the first bad index of the
      first system that has one. */
  ghost predicate SystemPhaseError(systems: seq<JSystem>, n: int, e: ReadError)
  {
    exists i, o :: (0 <= i < |systems| && IndicesValid(systems[..i], n)
      && FirstBadIndex(systems[i], n, o)
      && e == InvalidPlanetIndex(systems[i].planets[o], systems[i].id))
  }

  /** The error the species phase reports: a species with an id below 1,
      else an unknown relationship of some species (map order decides
      which). */
  ghost predicate SpeciesPhaseError(species: map<string, JSpecies>, e: ReadError)
  {
    if !SpeciesIdsPositive(species) then
      exists key | key in species :: species[key].id < 1 && e == Io(InvalidSpeciesId(species[key].id))
    else
      exists key, id | key in species && id in species[key].aliens ::
        (RelationshipOf(species[key].aliens[id]).None?
        && e == UnknownRelationship(species[key].aliens[id], species[key].name, id))
  }

  /** What the planet phase checks. */
  ghost predicate PlanetsOk(planets: seq<JPlanet>)
  {
    IdsPositive(planets) && PlanetsValid(planets)
  }

  /** What the species phase checks. */
  ghost predicate SpeciesOk(species: map<string, JSpecies>)
  {
    && SpeciesIdsPositive(species)
    && forall key | key in species :: RelationshipsKnown(species[key].aliens)
  }

  /** Everything Read checks, in the order it checks it. */
  ghost predicate ReadValid(jdb: JStore)
  {
    && PlanetsOk(jdb.planets)
    && IndicesValid(jdb.systems, |jdb.planets|)
    && SpeciesOk(jdb.species)
  }

  /** The error Read reports: from the first phase that fails. */
  ghost predicate ReadErrorOf(jdb: JStore, e: ReadError)
  {
    if !PlanetsOk(jdb.planets) then
      PlanetPhaseError(jdb.planets, e)
    else if !IndicesValid(jdb.systems, |jdb.planets|) then
      SystemPhaseError(jdb.systems, |jdb.planets|, e)
    else
      SpeciesPhaseError(jdb.species, e)
  }

  class Store {
    var version: string
    var turnNumber: int
    var systems: map<string, System>
    var planets: array<Planet?>
    var species: array<Species?>

    /** An empty store. */
    constructor ()
      ensures version == "" && turnNumber == 0 && systems == map[]
      ensures planets.Length == 0 && species.Length == 0
    {
      version := "";
      turnNumber := 0;
      systems := map[];
      planets := new Planet?[0];
      species := new Species?[0];
    }

    /** The planets part of a successful Read. */
    ghost predicate PlanetsRead(jdb: JStore)
      reads this`planets, planets
    {
      planets.Length == MaxPlanetId(jdb.planets) + 1 && PlanetArray(planets, jdb.planets)
    }

    /** The systems part of a successful Read: `objs` are the systems
        built, one per entry; the map holds the last one per position; and
        the planets point where AllLinks says (see AllLinksAt). */
    ghost predicate SystemsRead(jdb: JStore, objs: seq<System>)
      reads this`systems, this`planets, planets, Objects(planets), set s | s in objs :: s.planets
    {
      Loading(jdb.systems, jdb.planets, planets, objs, systems, |jdb.systems|)
    }

    /** The species part of a successful Read. */
    ghost predicate SpeciesRead(jdb: JStore)
      reads this`species, species
    {
      && SpeciesArray(species.Length, jdb.species)
      && (species.Length == 1 || exists key | key in jdb.species :: jdb.species[key].id == species.Length - 1)
      && SpeciesPlaced(species[..], jdb.species)
    }

    /** read.go:31-198. What an error leaves behind is not stated. */
    method Read(jdb: JStore) returns (err: Option<ReadError>, ghost objs: seq<System>)
      modifies this
      ensures version == jdb.version && turnNumber == old(turnNumber)
      ensures err.None? <==> ReadValid(jdb)
      ensures err.Some? ==> ReadErrorOf(jdb, err.value)
      ensures err.None? ==> PlanetsRead(jdb)
      ensures err.None? ==> SystemsRead(jdb, objs)
      ensures err.None? ==> SpeciesRead(jdb)
    {
      objs := [];
      version := jdb.version;
      err := LoadPlanets(jdb);
      if err.Some? {
        return;
      }
      err, objs := LoadSystemTable(jdb);
      if err.Some? {
        return;
      }
      err := LoadSpecies(jdb);
    }

    /** The planet loops of read.go:35-98: size the array from the largest
        id, then fill it. */
    method LoadPlanets(jdb: JStore) returns (err: Option<ReadError>)
      modifies this`planets
      ensures err.None? <==> PlanetsOk(jdb.planets)
      ensures err.Some? ==> PlanetPhaseError(jdb.planets, err.value)
      ensures err.None? ==> PlanetsRead(jdb) && LinksAre(planets, NoLinks(planets.Length))
      ensures err.None? ==> fresh(Objects(planets))
    {
      var maxPlanetId;
      err, maxPlanetId := CheckPlanetIds(jdb.planets);
      if err.Some? {
        return;
      }
      planets := new Planet?[maxPlanetId + 1](_ => null);
      err := FillPlanets(planets, jdb.planets);
    }

    /** The systems loop of read.go:100-117, storing the map. */
    method LoadSystemTable(jdb: JStore) returns (err: Option<ReadError>, ghost objs: seq<System>)
      requires PlanetsRead(jdb) && LinksAre(planets, NoLinks(planets.Length))
      modifies this`systems, Objects(planets)
      ensures err.None? <==> IndicesValid(jdb.systems, |jdb.planets|)
      ensures err.Some? ==> SystemPhaseError(jdb.systems, |jdb.planets|, err.value)
      ensures err.None? ==> SystemsRead(jdb, objs)
    {
      PlacedInSlots(planets, jdb.planets);
      var table;
      err, table, objs := LoadSystems(jdb.systems, jdb.planets, planets);
      systems := table;
    }

    /** The species loops of read.go:119-195: size the array from the
        largest id, then fill it. */
    method LoadSpecies(jdb: JStore) returns (err: Option<ReadError>)
      modifies this`species
      ensures err.None? <==> SpeciesOk(jdb.species)
      ensures err.Some? ==> SpeciesPhaseError(jdb.species, err.value)
      ensures err.None? ==> SpeciesRead(jdb)
    {
      var maxSpeciesId;
      err, maxSpeciesId := CheckSpeciesIds(jdb.species);
      if err.Some? {
        return;
      }
      species := new Species?[maxSpeciesId + 1](_ => null);
      err := FillSpecies(species, jdb.species);
    }
  }
}
