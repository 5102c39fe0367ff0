/** What Store.Read of package store (store/read.go) does, once the JSON
    file has been decoded, stated as values: the decoded records, how
    system ids are parsed and normalised, which duplicates are rejected,
    and what the copying pass leaves in a Store. */
module StoreReadSpec {
  import opened Common
  import opened Sorting
  import opened StoreTypes

  // ---------------------------------------------------------------------
  // The decoded records of store.json

  datatype RItem = RItem(quantity: int, location: string)

  datatype RShip = RShip(
    id: string, age: int, location: string, capacity: int, maintenanceCost: int,
    subLight: bool, inventory: map<string, RItem>)

  datatype RPlanet = RPlanet(
    id: string, orbit: int, name: string, homeWorld: bool,
    availablePopulationUnits: int, economicEfficiency: int, inventory: map<string, RItem>,
    lsn: int, miningDifficulty: real, productionPenalty: int,
    ships: map<string, RShip>, shipyards: int)

  datatype RSystem = RSystem(
    id: string, empty: bool, inventory: seq<RItem>, planets: seq<RPlanet>,
    scanned: int, ships: seq<RShip>, visited: bool)

  datatype RTechLevel = RTechLevel(value: int)

  datatype RSpecies = RSpecies(id: int, economicUnits: int, techLevels: map<string, RTechLevel>)

  /** The errors Read returns, one constructor per fmt.Errorf. Those marked
      "never returned" guard conditions that cannot arise. */
  datatype ReadError =
    | InvalidSystemId(system: string)
    | InvalidX(system: string)
    | InvalidY(system: string)
    | InvalidZ(system: string)
    | SameSpeciesId(species: string, id: int)            // never returned
    | InvalidTech(species: string, tech: string)
    | SameCoordinates(system: string)
    | SameOrbit(planet: string)
    | SameName(planet: string, name: string)              // never returned
    | DuplicateSystem(system: string)                     // never returned
    | IdIsName(system: string, planet: string)
    | DuplicateLocation(system: string, planet: string)   // never returned
    | DuplicateName(system: string, planet: string, name: string)
    | DuplicateOrbit(system: string, planet: string, orbit: int)  // never returned
    | InvalidOrbit(system: string, planet: string, ship: string, text: string)

  // ---------------------------------------------------------------------
  // System and planet ids

  type Coord = (int, int, int)

  /** A system id is three space separated integers. */
  function ParseSystemId(id: string): Result<Coord, ReadError>
  {
    var f := Split(id, ' ');
    if |f| != 3 then Err(InvalidSystemId(id))
    else match Atoi(f[0])
      case None => Err(InvalidX(id))
      case Some(x) => match Atoi(f[1])
        case None => Err(InvalidY(id))
        case Some(y) => match Atoi(f[2])
          case None => Err(InvalidZ(id))
          case Some(z) => Ok((x, y, z))
  }

  /** fmt.Sprintf("%d %d %d", x, y, z): the normalised system id. */
  function SystemKey(c: Coord): string
  {
    Join([Itoa(c.0), Itoa(c.1), Itoa(c.2)], ' ')
  }

  /** fmt.Sprintf("%d %d %d %d", x, y, z, orbit): the id of a planet. */
  function PlanetKey(c: Coord, orbit: int): (r: string)
    ensures |r| > 0
  {
    Join([Itoa(c.0), Itoa(c.1), Itoa(c.2), Itoa(orbit)], ' ')
  }

  predicate InInt64(c: Coord)
  {
    MinInt64 <= c.0 <= MaxInt64 && MinInt64 <= c.1 <= MaxInt64 && MinInt64 <= c.2 <= MaxInt64
  }

  /** Parsing reads back any 64-bit position from its normalised id, and
      parsed positions are 64-bit, so a parsed id normalises to an id that
      parses to the same position. */
  lemma {:induction false} ParseSystemKey(c: Coord)
    requires InInt64(c)
    ensures ParseSystemId(SystemKey(c)) == Ok(c)
  {
    var parts := [Itoa(c.0), Itoa(c.1), Itoa(c.2)];
    SplitJoin(parts, ' ');
    AtoiItoa(c.0);
    AtoiItoa(c.1);
    AtoiItoa(c.2);
  }

  lemma ParsedIsInt64(id: string)
    requires ParseSystemId(id).Ok?
    ensures InInt64(ParseSystemId(id).value)
  {
  }

  /** Two positions with the same normalised id are the same position. */
  lemma SystemKeyInjective(c: Coord, d: Coord)
    requires InInt64(c) && InInt64(d) && SystemKey(c) == SystemKey(d)
    ensures c == d
  {
    ParseSystemKey(c);
    ParseSystemKey(d);
  }

  // ---------------------------------------------------------------------
  // Tech levels

  /** The six tech level names the file may use, and the codes Read stores
      them under. */
  function TechCode(name: string): (r: Option<string>)
    ensures r.Some? ==> r.value in {"BI", "GV", "LS", "MA", "ML", "MI"}
  {
    match name
    case "biology" => Some("BI")
    case "gravitics" => Some("GV")
    case "life_support" => Some("LS")
    case "manufacturing" => Some("MA")
    case "military" => Some("ML")
    case "mining" => Some("MI")
    case _ => None
  }

  /** Different names get different codes. */
  lemma TechCodeInjective(a: string, b: string)
    requires TechCode(a).Some? && TechCode(a) == TechCode(b)
    ensures a == b
  {
  }

  /** The tech levels of a species renamed to their codes. */
  function TechLevelsOf(m: map<string, RTechLevel>): map<string, TechLevel>
  {
    var r := CopyLevel(m, "biology", "BI", map[]);
    var r := CopyLevel(m, "gravitics", "GV", r);
    var r := CopyLevel(m, "life_support", "LS", r);
    var r := CopyLevel(m, "manufacturing", "MA", r);
    var r := CopyLevel(m, "military", "ML", r);
    CopyLevel(m, "mining", "MI", r)
  }

  /** Stores the level named `name`, when there is one, under `code`. */
  function CopyLevel(m: map<string, RTechLevel>, name: string, code: string, r: map<string, TechLevel>): map<string, TechLevel>
  {
    if name in m then r[code := TechLevel(m[name].value)] else r
  }

  /** The stored tech levels are keyed by exactly the codes of the known
      names in the file and carry their values. */
  lemma TechLevelsOfKeys(m: map<string, RTechLevel>)
    ensures forall name | name in m && TechCode(name).Some? ::
      TechCode(name).value in TechLevelsOf(m) && TechLevelsOf(m)[TechCode(name).value] == TechLevel(m[name].value)
    ensures forall code | code in TechLevelsOf(m) ::
      exists name :: name in m && TechCode(name) == Some(code)
  {
  }

  /** Every tech level name of every species is one of the six. */
  ghost predicate TechNamesValid(species: map<string, RSpecies>)
  {
    forall name, tech | name in species && tech in species[name].techLevels :: TechCode(tech).Some?
  }

  function SpeciesOf(name: string, sp: RSpecies): Species
  {
    Species(sp.id, name, sp.economicUnits, TechLevelsOf(sp.techLevels))
  }

  // ---------------------------------------------------------------------
  // Ship locations

  datatype LocationFlags = LocationFlags(
    deepSpace: bool, forcedJump: bool, landed: bool, orbiting: bool, withdrewFromCombat: bool)

  const NoFlags := LocationFlags(false, false, false, false, false)

  /** The flags a ship location sets. "(C)" means landed (colony); any
      other non-empty location ends in one character that must be the
      planet's orbit written in decimal, and the rest selects the flags.
      An unknown rest sets no flag. On a mismatch the bad character is
      the error. */
  function ParseLocation(location: string, orbit: int): Result<LocationFlags, string>
  {
    if location == "(C)" then Ok(NoFlags.(landed := true))
    else if location == "" then Ok(NoFlags)
    else
      var loc := location[..|location| - 1];
      var orb := location[|location| - 1..];
      if orb != Itoa(orbit) then Err(orb)
      else if loc == "D" then Ok(NoFlags.(deepSpace := true))
      else if loc == "FJ" then Ok(NoFlags.(deepSpace := true, forcedJump := true))
      else if loc == "L" then Ok(NoFlags.(landed := true))
      else if loc == "O" then Ok(NoFlags.(orbiting := true))
      else if loc == "WD" then Ok(NoFlags.(deepSpace := true, withdrewFromCombat := true))
      else Ok(NoFlags)
  }

  /** A parsed location sets at most one of landed, orbiting and deep
      space; forced jump and withdrawal both imply deep space and exclude
      each other. */
  lemma LocationFlagsConsistent(location: string, orbit: int)
    requires ParseLocation(location, orbit).Ok?
    ensures var f := ParseLocation(location, orbit).value;
      && !(f.landed && f.orbiting) && !(f.landed && f.deepSpace) && !(f.orbiting && f.deepSpace)
      && (f.forcedJump ==> f.deepSpace) && (f.withdrewFromCombat ==> f.deepSpace)
      && !(f.forcedJump && f.withdrewFromCombat)
  {
  }

  /** "(C)" is landed whatever the orbit; each prefix followed by the
      single digit of the orbit sets its flags. */
  lemma LocationPrefixes(orbit: int)
    requires 0 <= orbit < 10
    ensures ParseLocation("(C)", orbit) == Ok(NoFlags.(landed := true))
    ensures ParseLocation("D" + Itoa(orbit), orbit) == Ok(NoFlags.(deepSpace := true))
    ensures ParseLocation("FJ" + Itoa(orbit), orbit) == Ok(NoFlags.(deepSpace := true, forcedJump := true))
    ensures ParseLocation("L" + Itoa(orbit), orbit) == Ok(NoFlags.(landed := true))
    ensures ParseLocation("O" + Itoa(orbit), orbit) == Ok(NoFlags.(orbiting := true))
    ensures ParseLocation("WD" + Itoa(orbit), orbit) == Ok(NoFlags.(deepSpace := true, withdrewFromCombat := true))
  {
    assert |Itoa(orbit)| == 1;
    assert ("D" + Itoa(orbit))[..1] == "D";
    assert ("FJ" + Itoa(orbit))[..2] == "FJ";
    assert ("L" + Itoa(orbit))[..1] == "L";
    assert ("O" + Itoa(orbit))[..1] == "O";
    assert ("WD" + Itoa(orbit))[..2] == "WD";
  }

  /** Only one character is compared with the orbit, so for an orbit of
      ten or more every location other than "" and "(C)" is rejected. */
  lemma TwoDigitOrbitRejected(location: string, orbit: int)
    requires orbit >= 10 && location != "" && location != "(C)"
    ensures ParseLocation(location, orbit).Err?
  {
    assert NatDigits(orbit) == NatDigits(orbit / 10) + [DigitChar(orbit % 10)];
  }

  /** The ship Read stores for the file's ship `name`: FTL is the negation
      of SubLight, and the location flags come from ParseLocation. */
  function ShipOf(name: string, rs: RShip, orbit: int): Result<Ship, string>
  {
    match ParseLocation(rs.location, orbit)
    case Err(orb) => Err(orb)
    case Ok(f) => Ok(Ship(name, "", rs.age, rs.location, rs.capacity,
                          f.deepSpace, f.forcedJump, !rs.subLight, false, f.landed,
                          rs.maintenanceCost, f.orbiting, 0, f.withdrewFromCombat, map[]))
  }

  /** Every ship of the planet has a location that parses. */
  ghost predicate ShipsValid(p: RPlanet)
  {
    forall name | name in p.ships :: ParseLocation(p.ships[name].location, p.orbit).Ok?
  }

  /** The ships Read stores for the planet: every ship whose location
      parses, which is every ship when ShipsValid holds. */
  function ShipsOf(p: RPlanet): (r: map<string, Ship>)
    ensures ShipsValid(p) ==> r.Keys == p.ships.Keys
  {
    map name | name in p.ships && ShipOf(name, p.ships[name], p.orbit).Ok? :: ShipOf(name, p.ships[name], p.orbit).value
  }

  function InventoryOf(m: map<string, RItem>): map<string, Item>
  {
    map code | code in m :: Item(code, m[code].location, m[code].quantity)
  }

  /** The planet Read builds for `p` in system `sys` under id `key`. */
  function PlanetOf(sys: System, key: string, p: RPlanet): Planet
  {
    Planet(key, sys, p.orbit, p.name, p.homeWorld, p.availablePopulationUnits,
           p.economicEfficiency, InventoryOf(p.inventory), p.lsn, p.miningDifficulty,
           p.productionPenalty, p.shipyards, ShipsOf(p))
  }

  // ---------------------------------------------------------------------
  // Phase 1: every system id parses

  predicate IdsParse(systems: seq<RSystem>)
  {
    forall i :: 0 <= i < |systems| ==> ParseSystemId(systems[i].id).Ok?
  }

  /** The positions of all systems, in file order. */
  function Positions(systems: seq<RSystem>): (r: seq<Coord>)
    requires IdsParse(systems)
    ensures |r| == |systems|
    ensures forall i :: 0 <= i < |systems| ==> Ok(r[i]) == ParseSystemId(systems[i].id)
  {
    seq(|systems|, i requires 0 <= i < |systems| => ParseSystemId(systems[i].id).value)
  }

  /** The positions of the first i systems have been parsed into `coords`. */
  ghost predicate ParsedUpTo(systems: seq<RSystem>, i: nat, coords: seq<Coord>)
  {
    && i <= |systems| && |coords| == i
    && forall m :: 0 <= m < i ==> Ok(coords[m]) == ParseSystemId(systems[m].id)
  }

  /** The error of the first system whose id does not parse, if any. */
  function IdError(systems: seq<RSystem>): (r: Option<ReadError>)
    ensures r.None? <==> IdsParse(systems)
  {
    if |systems| == 0 then None
    else
      assert forall m :: 0 <= m < |systems| - 1 ==> systems[1..][m] == systems[m + 1];
      match ParseSystemId(systems[0].id)
      case Err(e) => Some(e)
      case Ok(_) => IdError(systems[1..])
  }

  /** Past systems whose ids parse, the first error is that of the rest. */
  lemma IdErrorFrom(systems: seq<RSystem>, i: nat)
    requires i < |systems| && ParseSystemId(systems[i].id).Ok?
    ensures IdError(systems[i..]) == IdError(systems[i + 1..])
  {
    assert systems[i..][0] == systems[i];
    assert systems[i..][1..] == systems[i + 1..];
  }

  // ---------------------------------------------------------------------
  // Phase 2: tech level names

  // ---------------------------------------------------------------------
  // Phase 3: duplicate positions and planet ids

  /** A planet of the file together with where it sits: its system's
      index, its own index in that system, and its id. */
  datatype Entry = Entry(sys: nat, index: nat, key: string, planet: RPlanet)

  /** The planets of system `i` at position `c`, in file order. */
  function PlacedIn(s: RSystem, i: nat, c: Coord): (r: seq<Entry>)
    ensures |r| == |s.planets|
    ensures forall k :: 0 <= k < |r| ==> r[k] == Entry(i, k, PlanetKey(c, s.planets[k].orbit), s.planets[k])
  {
    seq(|s.planets|, k requires 0 <= k < |s.planets| => Entry(i, k, PlanetKey(c, s.planets[k].orbit), s.planets[k]))
  }

  /** The planets of the first `n` systems, in the order Read visits them. */
  function Placed(systems: seq<RSystem>, coords: seq<Coord>, n: nat): seq<Entry>
    requires n <= |systems| == |coords|
  {
    if n == 0 then [] else Placed(systems, coords, n - 1) + PlacedIn(systems[n - 1], n - 1, coords[n - 1])
  }

  /** The keys a planet index holds after the entries `ps`: every id, and
      every non-empty name. */
  function IndexKeys(ps: seq<Entry>): set<string>
  {
    if |ps| == 0 then {}
    else
      var e := ps[|ps| - 1];
      IndexKeys(ps[..|ps| - 1]) + {e.key} + (if e.planet.name != "" then {e.planet.name} else {})
  }

  /** Every entry is acceptable given the keys indexed before it. */
  ghost predicate EachEntry(ps: seq<Entry>, ok: (Entry, set<string>) -> bool)
  {
    |ps| == 0 || (EachEntry(ps[..|ps| - 1], ok) && ok(ps[|ps| - 1], IndexKeys(ps[..|ps| - 1])))
  }

  /** No planet id repeats an earlier id or an earlier name. */
  ghost function FreshKey(e: Entry, before: set<string>): bool
  {
    e.key !in before
  }

  /** No planet is named by its own id or by an earlier id or name. */
  ghost function FreshName(e: Entry, before: set<string>): bool
  {
    e.key != e.planet.name && e.planet.name !in before
  }

  /** Every ship of the planet has a valid location. */
  ghost function ShipsOk(e: Entry, before: set<string>): bool
  {
    ShipsValid(e.planet)
  }

  /** The normalised ids of all systems, in file order. */
  function SystemKeys(coords: seq<Coord>): (r: seq<string>)
    ensures |r| == |coords|
  {
    seq(|coords|, i requires 0 <= i < |coords| => SystemKey(coords[i]))
  }

  ghost predicate Distinct(keys: seq<string>)
  {
    forall i, j :: 0 <= i < j < |keys| ==> keys[i] != keys[j]
  }

  /** No two systems share a normalised id. */
  ghost predicate DistinctSystems(coords: seq<Coord>)
  {
    Distinct(SystemKeys(coords))
  }

  lemma IndexKeysSnoc(ps: seq<Entry>, e: Entry)
    ensures IndexKeys(ps + [e]) == IndexKeys(ps) + {e.key} + (if e.planet.name != "" then {e.planet.name} else {})
  {
    assert (ps + [e])[..|ps|] == ps;
  }

  /** The planet index never holds the empty string: ids are non-empty and
      empty names are not indexed. */
  lemma {:induction false} EmptyNeverIndexed(ps: seq<Entry>)
    requires forall j :: 0 <= j < |ps| ==> |ps[j].key| > 0
    ensures "" !in IndexKeys(ps)
  {
    if |ps| > 0 {
      EmptyNeverIndexed(ps[..|ps| - 1]);
    }
  }

  /** The id of the first entry of `here`, from index `k` on, that
      repeats a key indexed before it: by `before`, or by the entries of
      `here` ahead of it. */
  function FirstStale(here: seq<Entry>, before: seq<Entry>, k: nat): Option<string>
    requires k <= |here|
    decreases |here| - k
  {
    if k == |here| then None
    else if here[k].key in IndexKeys(before + here[..k]) then Some(here[k].key)
    else FirstStale(here, before, k + 1)
  }

  /** The first `n` systems pass the duplicate pass: their positions are
      distinct and no planet id repeats an earlier id or name. */
  ghost predicate DuplicatesPassed(systems: seq<RSystem>, coords: seq<Coord>, n: nat)
    requires n <= |systems| == |coords|
  {
    Distinct(SystemKeys(coords)[..n]) && EachEntry(Placed(systems, coords, n), FreshKey)
  }

  /** The error of system `i` in the duplicate pass, the systems before it
      having passed: its position repeats an earlier one, or one of its
      planet ids is already indexed. */
  function DuplicateIn(systems: seq<RSystem>, coords: seq<Coord>, i: nat): Option<ReadError>
    requires i < |systems| == |coords|
  {
    var key := SystemKey(coords[i]);
    if key in SystemKeys(coords)[..i] then Some(SameCoordinates(key))
    else match FirstStale(PlacedIn(systems[i], i, coords[i]), Placed(systems, coords, i), 0)
      case Some(k) => Some(SameOrbit(k))
      case None => None
  }

  lemma SliceSnoc<T>(a: seq<T>, b: seq<T>, k: nat)
    requires k < |b|
    ensures a + b[..k + 1] == (a + b[..k]) + [b[k]]
    ensures a + b[..k + 1] <= a + b
  {
    assert b[..k + 1] == b[..k] + [b[k]];
  }

  lemma EachEntrySnoc(ps: seq<Entry>, e: Entry, ok: (Entry, set<string>) -> bool)
    ensures EachEntry(ps + [e], ok) <==> EachEntry(ps, ok) && ok(e, IndexKeys(ps))
  {
    assert (ps + [e])[..|ps|] == ps;
  }

  /** A run whose entries are all acceptable has acceptable prefixes. */
  lemma {:induction false} EachEntryPrefix(ps: seq<Entry>, qs: seq<Entry>, ok: (Entry, set<string>) -> bool)
    requires ps <= qs && EachEntry(qs, ok)
    ensures EachEntry(ps, ok)
    decreases |qs|
  {
    if |ps| < |qs| {
      assert ps <= qs[..|qs| - 1];
      EachEntryPrefix(ps, qs[..|qs| - 1], ok);
    } else {
      assert ps == qs;
    }
  }

  /** A failing entry stays failing in any longer run. */
  lemma {:induction false} EachEntryFailureExtends(ps: seq<Entry>, qs: seq<Entry>, ok: (Entry, set<string>) -> bool)
    requires ps <= qs && !EachEntry(ps, ok)
    ensures !EachEntry(qs, ok)
    decreases |qs|
  {
    if |ps| < |qs| {
      assert ps <= qs[..|qs| - 1];
      EachEntryFailureExtends(ps, qs[..|qs| - 1], ok);
    } else {
      assert ps == qs;
    }
  }

  lemma {:induction false} PlacedPrefix(systems: seq<RSystem>, coords: seq<Coord>, i: nat, n: nat)
    requires i <= n <= |systems| == |coords|
    ensures Placed(systems, coords, i) <= Placed(systems, coords, n)
    decreases n
  {
    if i < n {
      PlacedPrefix(systems, coords, i, n - 1);
    }
  }

  /** One planet of the duplicate pass: a key already seen makes every
      longer run of entries fail too; a new one extends the run. */
  lemma FreshKeyStep(before: seq<Entry>, here: seq<Entry>, k: nat, seen: set<string>)
    requires k < |here| && seen == IndexKeys(before + here[..k]) && EachEntry(before + here[..k], FreshKey)
    ensures here[k].key in seen ==> !EachEntry(before + here, FreshKey)
    ensures here[k].key !in seen ==> EachEntry(before + here[..k + 1], FreshKey)
    ensures IndexKeys(before + here[..k + 1]) == seen + {here[k].key}
      + (if here[k].planet.name != "" then {here[k].planet.name} else {})
  {
    SliceSnoc(before, here, k);
    EachEntrySnoc(before + here[..k], here[k], FreshKey);
    IndexKeysSnoc(before + here[..k], here[k]);
    if here[k].key in seen {
      EachEntryFailureExtends(before + here[..k + 1], before + here, FreshKey);
    }
  }

  /** One system of the duplicate pass: a key already seen breaks
      distinctness; a new one extends the distinct run. */
  lemma DistinctStep(keys: seq<string>, i: nat, seen: set<string>)
    requires i < |keys| && seen == (set m | 0 <= m < i :: keys[m]) && Distinct(keys[..i])
    ensures keys[i] in seen ==> !Distinct(keys)
    ensures keys[i] !in seen ==> Distinct(keys[..i + 1])
    ensures seen + {keys[i]} == set m | 0 <= m < i + 1 :: keys[m]
  {
    if keys[i] in seen {
      var m :| 0 <= m < i && keys[m] == keys[i];
    }
  }

  /** A failure among the planets of system i is a failure of the whole. */
  lemma SystemFailure(systems: seq<RSystem>, coords: seq<Coord>, i: nat, ok: (Entry, set<string>) -> bool)
    requires i < |systems| == |coords|
    requires !EachEntry(Placed(systems, coords, i + 1), ok)
    ensures !EachEntry(Placed(systems, coords, |systems|), ok)
  {
    PlacedPrefix(systems, coords, i + 1, |systems|);
    EachEntryFailureExtends(Placed(systems, coords, i + 1), Placed(systems, coords, |systems|), ok);
  }

  // ---------------------------------------------------------------------
  // What a successful Read leaves behind

  /** The species Read stores, keyed by their name in the file. */
  function SpeciesMap(species: map<string, RSpecies>): map<string, Species>
  {
    map name | name in species :: SpeciesOf(name, species[name])
  }

  /** Species are sorted by id. */
  predicate SpeciesLess(a: Species, b: Species)
  {
    a.id < b.id
  }

  lemma SpeciesLessIsStrictOrder(on: set<Species>)
    ensures StrictOrder(on, SpeciesLess)
  {
  }

  /** `sys` is the system Read made under id `key` for the file's
      system `rs` at position `c`, holding the planets `here` in file
      order. */
  ghost predicate LoadedSystem(sys: System, key: string, rs: RSystem, c: Coord, here: seq<Entry>)
    reads sys
  {
    SystemMade(sys, key, rs, c) && LoadedPlanets(sys, here)
  }

  /** The fields Read gives a new system: its id and position, the flags
      of the file's system, and no inventory, ships or shipyards. */
  ghost predicate SystemMade(sys: System, key: string, rs: RSystem, c: Coord)
  {
    && sys.id == key && sys.x == c.0 && sys.y == c.1 && sys.z == c.2
    && sys.empty == rs.empty && sys.scanned == rs.scanned && sys.visited == rs.visited
    && sys.inventory == map[] && sys.ships == map[] && sys.shipyards == 0
  }

  /** The planets of `sys` are those of the entries `here`, in order. */
  ghost predicate LoadedPlanets(sys: System, here: seq<Entry>)
    reads sys
  {
    PlanetsFor(sys.planets, sys, here)
  }

  /** `ps` are the planets Read builds in system `sys` for the entries
      `here`, in order. */
  ghost predicate PlanetsFor(ps: seq<Planet>, sys: System, here: seq<Entry>)
  {
    && |ps| == |here|
    && forall n :: 0 <= n < |here| ==>
         (ShipsValid(here[n].planet) && ps[n] == PlanetOf(sys, here[n].key, here[n].planet))
  }

  lemma PlanetsForSnoc(ps: seq<Planet>, sys: System, here: seq<Entry>, k: nat)
    requires k < |here| && PlanetsFor(ps, sys, here[..k]) && ShipsValid(here[k].planet)
    ensures PlanetsFor(ps + [PlanetOf(sys, here[k].key, here[k].planet)], sys, here[..k + 1])
  {
  }

  /** Every entry names one of the first `n` systems. */
  ghost predicate SystemsKnown(ps: seq<Entry>, n: nat)
  {
    forall j :: 0 <= j < |ps| ==> ps[j].sys < n
  }

  /** The planet index Read builds from the entries `ps`, whose systems
      are `objs`: each planet is stored under its id and, when it has
      one, under its name, later entries replacing earlier ones. It holds
      exactly the keys IndexKeys names. */
  function PlanetIndex(ps: seq<Entry>, objs: seq<System>): (r: map<string, Planet>)
    requires SystemsKnown(ps, |objs|)
    ensures r.Keys == IndexKeys(ps)
  {
    if |ps| == 0 then map[]
    else
      var e := ps[|ps| - 1];
      var p := PlanetOf(objs[e.sys], e.key, e.planet);
      var m := PlanetIndex(ps[..|ps| - 1], objs)[e.key := p];
      if e.planet.name != "" then m[e.planet.name := p] else m
  }

  /** Everything Read checks, stated over the whole file: what the
      checking passes test, and what the copying pass tests. */
  ghost predicate Acceptable(species: map<string, RSpecies>, systems: seq<RSystem>)
  {
    Checked(species, systems) && Copyable(systems)
  }

  /** What the checking passes test: ids parse, tech names are known,
      positions are distinct, and no planet id repeats an earlier id or
      name. */
  ghost predicate Checked(species: map<string, RSpecies>, systems: seq<RSystem>)
  {
    && IdsParse(systems)
    && TechNamesValid(species)
    && DistinctSystems(Positions(systems))
    && EachEntry(Placed(systems, Positions(systems), |systems|), FreshKey)
  }

  /** `e` is an error the checking passes of Read may report: that of the
      first system id that does not parse; otherwise an unknown tech name
      of some species (the species are visited in map order, so any of
      them); otherwise the error of the first system of the duplicate
      pass that fails it. */
  ghost predicate CheckFails(species: map<string, RSpecies>, systems: seq<RSystem>, e: ReadError)
  {
    if !IdsParse(systems) then IdError(systems) == Some(e)
    else if !TechNamesValid(species) then
      exists name, tech :: name in species && tech in species[name].techLevels
        && TechCode(tech).None? && e == InvalidTech(name, tech)
    else exists i :: (0 <= i < |systems| && DuplicatesPassed(systems, Positions(systems), i)
                      && DuplicateIn(systems, Positions(systems), i) == Some(e))
  }

  /** What the copying pass tests: no planet name is its own id or
      repeats an earlier id or name, and every ship location parses. */
  ghost predicate Copyable(systems: seq<RSystem>)
    requires IdsParse(systems)
  {
    var ps := Placed(systems, Positions(systems), |systems|);
    EachEntry(ps, FreshName) && EachEntry(ps, ShipsOk)
  }

  /** `r` is in order and holds exactly the entries `m`. */
  ghost predicate SortedWith<T>(r: seq<T>, m: multiset<T>, less: (T, T) -> bool)
  {
    Ordered(r, less) && multiset(r) == m
  }

  lemma PlanetIndexSnoc(ps: seq<Entry>, e: Entry, objs: seq<System>)
    requires SystemsKnown(ps + [e], |objs|) && e.sys < |objs|
    ensures SystemsKnown(ps, |objs|)
    ensures var p := PlanetOf(objs[e.sys], e.key, e.planet);
      PlanetIndex(ps + [e], objs)
        == (if e.planet.name != "" then PlanetIndex(ps, objs)[e.key := p][e.planet.name := p]
            else PlanetIndex(ps, objs)[e.key := p])
  {
    assert (ps + [e])[..|ps|] == ps;
    assert forall j :: 0 <= j < |ps| ==> (ps + [e])[j] == ps[j];
  }

  /** Systems appended later do not change the index. */
  lemma {:induction false} PlanetIndexMoreSystems(ps: seq<Entry>, objs: seq<System>, more: seq<System>)
    requires SystemsKnown(ps, |objs|)
    ensures PlanetIndex(ps, objs + more) == PlanetIndex(ps, objs)
    decreases |ps|
  {
    if |ps| > 0 {
      var e := ps[|ps| - 1];
      PlanetIndexMoreSystems(ps[..|ps| - 1], objs, more);
      assert (objs + more)[e.sys] == objs[e.sys];
    }
  }

  /** Every id, and every non-empty name, of an entry is indexed. */
  lemma {:induction false} KeyIndexed(ps: seq<Entry>, j: nat)
    requires j < |ps|
    ensures ps[j].key in IndexKeys(ps)
    ensures ps[j].planet.name != "" ==> ps[j].planet.name in IndexKeys(ps)
    decreases |ps|
  {
    if j < |ps| - 1 {
      KeyIndexed(ps[..|ps| - 1], j);
    }
  }

  /** When ids and names never repeat an earlier id or name, the index
      maps every entry's id, and its name when it has one, to that
      entry's planet: no later entry replaces it. */
  lemma {:induction false} PlanetIndexLookup(ps: seq<Entry>, objs: seq<System>, j: nat)
    requires SystemsKnown(ps, |objs|) && EachEntry(ps, FreshKey) && EachEntry(ps, FreshName) && j < |ps|
    ensures ps[j].key in PlanetIndex(ps, objs)
    ensures PlanetIndex(ps, objs)[ps[j].key] == PlanetOf(objs[ps[j].sys], ps[j].key, ps[j].planet)
    ensures ps[j].planet.name != "" ==>
      && ps[j].planet.name in PlanetIndex(ps, objs)
      && PlanetIndex(ps, objs)[ps[j].planet.name] == PlanetOf(objs[ps[j].sys], ps[j].key, ps[j].planet)
    decreases |ps|
  {
    var last := |ps| - 1;
    if j < last {
      var qs := ps[..last];
      assert ps == qs + [ps[last]];
      PlanetIndexSnoc(qs, ps[last], objs);
      PlanetIndexLookup(qs, objs, j);
      KeyIndexed(qs, j);
    }
  }

  /** Adding a species under a new name adds exactly one value, since
      each species is stored under its own name. */
  lemma NamedValueAdded(m: map<string, Species>, k: string, v: Species)
    requires k !in m && v.name == k
    requires forall n | n in m :: m[n].name == n
    ensures v !in m.Values
    ensures m[k := v].Values == m.Values + {v}
  {
    var m' := m[k := v];
    forall x | x in m'.Values
      ensures x in m.Values + {v}
    {
      var n :| n in m' && m'[n] == x;
      if n != k {
        assert m[n] == x;
      }
    }
    forall x | x in m.Values + {v}
      ensures x in m'.Values
    {
      if x == v {
        assert m'[k] == v;
      } else {
        var n :| n in m && m[n] == x;
        assert m'[n] == x;
      }
    }
  }

  /** `m` holds the species named in `done`, as Read stores them. */
  ghost predicate SpeciesSoFar(input: map<string, RSpecies>, done: set<string>, m: map<string, Species>)
  {
    && done <= input.Keys && m.Keys == done
    && forall n | n in m :: m[n] == SpeciesOf(n, input[n])
  }

  /** Storing one more species keeps SpeciesSoFar and adds exactly one
      value. */
  lemma SpeciesStep(input: map<string, RSpecies>, rest: set<string>, m: map<string, Species>, name: string)
    requires rest <= input.Keys && SpeciesSoFar(input, input.Keys - rest, m) && name in rest
    ensures SpeciesSoFar(input, input.Keys - (rest - {name}), m[name := SpeciesOf(name, input[name])])
    ensures multiset(m[name := SpeciesOf(name, input[name])].Values) == multiset(m.Values) + multiset{SpeciesOf(name, input[name])}
  {
    var sp := SpeciesOf(name, input[name]);
    NamedValueAdded(m, name, sp);
    assert input.Keys - (rest - {name}) == (input.Keys - rest) + {name};
  }

  /** Once every name is done, the map is SpeciesMap. */
  lemma SpeciesSoFarAll(input: map<string, RSpecies>, m: map<string, Species>)
    requires SpeciesSoFar(input, input.Keys, m)
    ensures m == SpeciesMap(input)
  {
  }

  /** Each entry of an acceptable run is acceptable. */
  lemma {:induction false} EachEntryAt(ps: seq<Entry>, j: nat, ok: (Entry, set<string>) -> bool)
    requires EachEntry(ps, ok) && j < |ps|
    ensures ok(ps[j], IndexKeys(ps[..j]))
    decreases |ps|
  {
    if j < |ps| - 1 {
      EachEntryAt(ps[..|ps| - 1], j, ok);
      assert ps[..|ps| - 1][..j] == ps[..j];
    }
  }

  /** Planets at the same orbit get the same id. */
  ghost predicate KeyedByOrbit(here: seq<Entry>)
  {
    forall k, l :: 0 <= k < |here| && 0 <= l < |here| && here[k].planet.orbit == here[l].planet.orbit ==>
      here[k].key == here[l].key
  }

  /** The entries of one system: ids are non-empty, follow the orbit, and
      all name the system's index. */
  lemma PlacedInShape(s: RSystem, i: nat, c: Coord)
    ensures KeyedByOrbit(PlacedIn(s, i, c))
    ensures forall k :: 0 <= k < |s.planets| ==> PlacedIn(s, i, c)[k].sys == i && PlacedIn(s, i, c)[k].key != ""
  {
  }

  /** One step along the entries `here` after `before`: the run grows by
      one entry, and a failure there is a failure of the whole run. */
  lemma EntryStep(before: seq<Entry>, here: seq<Entry>, k: nat, ok: (Entry, set<string>) -> bool)
    requires k < |here|
    ensures before + here[..k + 1] == (before + here[..k]) + [here[k]]
    ensures EachEntry(before + here[..k + 1], ok) <==>
      EachEntry(before + here[..k], ok) && ok(here[k], IndexKeys(before + here[..k]))
    ensures !EachEntry(before + here[..k + 1], ok) ==> !EachEntry(before + here, ok)
  {
    SliceSnoc(before, here, k);
    EachEntrySnoc(before + here[..k], here[k], ok);
    if !EachEntry(before + here[..k + 1], ok) {
      EachEntryFailureExtends(before + here[..k + 1], before + here, ok);
    }
  }

  /** In a run of fresh ids, entry k of `here` has an id not indexed
      before it. */
  lemma FreshKeyAt(before: seq<Entry>, here: seq<Entry>, k: nat)
    requires EachEntry(before + here, FreshKey) && k < |here|
    ensures here[k].key !in IndexKeys(before + here[..k])
  {
    EachEntryAt(before + here, |before| + k, FreshKey);
    assert (before + here)[..|before| + k] == before + here[..k];
  }

  /** Before entry k of `here` is loaded, every planet already in its
      system is indexed, and one at the same orbit has the same id. */
  lemma EarlierPlanets(keys: set<string>, before: seq<Entry>, here: seq<Entry>, k: nat, ps: seq<Planet>, sys: System)
    requires k < |here| && keys == IndexKeys(before + here[..k])
    requires PlanetsFor(ps, sys, here[..k]) && KeyedByOrbit(here)
    ensures forall n :: 0 <= n < |ps| ==>
      ps[n].id in keys && (ps[n].orbit == here[k].planet.orbit ==> ps[n].id == here[k].key)
  {
    forall n | 0 <= n < |ps|
      ensures ps[n].id in keys && (ps[n].orbit == here[k].planet.orbit ==> ps[n].id == here[k].key)
    {
      KeyIndexed(before + here[..k], |before| + n);
      assert (before + here[..k])[|before| + n] == here[n];
      assert ps[n].id == here[n].key && ps[n].orbit == here[n].planet.orbit;
    }
  }

  lemma SystemsKnownSnoc(ps: seq<Entry>, e: Entry, n: nat)
    requires SystemsKnown(ps, n) && e.sys < n
    ensures SystemsKnown(ps + [e], n)
  {
  }

  lemma AppendAssoc<T>(a: seq<T>, b: seq<T>, c: seq<T>)
    ensures a + (b + c) == (a + b) + c
  {
  }

  /** The state of the planet loop of the copying pass after the first k
      entries of `here` (the planets of `sys`, the last of `objs`): the
      index, the system's planets `ps` and the sorted list `sorted`
      (which started as `sorted0`) hold those entries, and none of them
      failed a test. */
  ghost predicate PlanetsLoaded(planets: map<string, Planet>, ps: seq<Planet>, sorted: seq<Planet>, sorted0: seq<Planet>,
                                sys: System, before: seq<Entry>, here: seq<Entry>, k: nat, objs: seq<System>)
  {
    && k <= |here|
    && SystemsKnown(before + here[..k], |objs|)
    && planets == PlanetIndex(before + here[..k], objs)
    && EachEntry(before + here[..k], FreshName) && EachEntry(before + here[..k], ShipsOk)
    && PlanetsFor(ps, sys, here[..k])
    && sorted == sorted0 + ps
    && "" !in planets
  }

  /** What LoadPlanet needs before entry k: a fresh non-empty id, and an
      id equal to that of any earlier planet of the system at the same
      orbit. */
  lemma PlanetReady(planets: map<string, Planet>, ps: seq<Planet>, sorted: seq<Planet>, sorted0: seq<Planet>,
                    sys: System, before: seq<Entry>, here: seq<Entry>, k: nat, objs: seq<System>)
    requires PlanetsLoaded(planets, ps, sorted, sorted0, sys, before, here, k, objs) && k < |here|
    requires EachEntry(before + here, FreshKey) && KeyedByOrbit(here) && here[k].key != ""
    ensures here[k].key != "" && here[k].key !in planets && "" !in planets
    ensures forall n :: 0 <= n < |ps| ==>
      ps[n].id in planets && (ps[n].orbit == here[k].planet.orbit ==> ps[n].id == here[k].key)
  {
    FreshKeyAt(before, here, k);
    EarlierPlanets(planets.Keys, before, here, k, ps, sys);
  }

  /** A planet LoadPlanet rejects is an entry that fails FreshName or
      ShipsOk. */
  lemma PlanetRejected(planets: map<string, Planet>, ps: seq<Planet>, sorted: seq<Planet>, sorted0: seq<Planet>,
                       sys: System, before: seq<Entry>, here: seq<Entry>, k: nat, objs: seq<System>)
    requires PlanetsLoaded(planets, ps, sorted, sorted0, sys, before, here, k, objs) && k < |here|
    requires !(here[k].key != here[k].planet.name && here[k].planet.name !in planets && ShipsValid(here[k].planet))
    ensures !(EachEntry(before + here, FreshName) && EachEntry(before + here, ShipsOk))
  {
    EntryStep(before, here, k, FreshName);
    EntryStep(before, here, k, ShipsOk);
  }

  /** A planet LoadPlanet accepts extends the loop state by one entry. */
  lemma PlanetAccepted(planets: map<string, Planet>, ps: seq<Planet>, sorted: seq<Planet>, sorted0: seq<Planet>,
                       sys: System, before: seq<Entry>, here: seq<Entry>, k: nat, objs: seq<System>)
    requires PlanetsLoaded(planets, ps, sorted, sorted0, sys, before, here, k, objs)
    requires k < |here| && |objs| > 0 && objs[|objs| - 1] == sys
    requires forall m :: 0 <= m < |here| ==> here[m].sys == |objs| - 1 && here[m].key != ""
    requires here[k].key != here[k].planet.name && here[k].planet.name !in planets && ShipsValid(here[k].planet)
    ensures var e := here[k];
      var p := PlanetOf(sys, e.key, e.planet);
      PlanetsLoaded(if e.planet.name != "" then planets[e.key := p][e.planet.name := p] else planets[e.key := p],
                    ps + [p], sorted + [p], sorted0, sys, before, here, k + 1, objs)
  {
    var e := here[k];
    var p := PlanetOf(sys, e.key, e.planet);
    EntryStep(before, here, k, FreshName);
    EntryStep(before, here, k, ShipsOk);
    PlanetsForSnoc(ps, sys, here, k);
    AppendAssoc(sorted0, ps, [p]);
    SystemsKnownSnoc(before + here[..k], e, |objs|);
    PlanetIndexSnoc(before + here[..k], e, objs);
  }

  /** Before system i is loaded: its entries follow the earlier systems'
      entries, have non-empty ids that follow the orbit, and keep ids
      fresh. */
  lemma SystemReady(systems: seq<RSystem>, coords: seq<Coord>, i: nat)
    requires i < |systems| == |coords| && EachEntry(Placed(systems, coords, |systems|), FreshKey)
    ensures Placed(systems, coords, i + 1) == Placed(systems, coords, i) + PlacedIn(systems[i], i, coords[i])
    ensures EachEntry(Placed(systems, coords, i + 1), FreshKey)
    ensures KeyedByOrbit(PlacedIn(systems[i], i, coords[i]))
    ensures forall k :: 0 <= k < |systems[i].planets| ==>
      PlacedIn(systems[i], i, coords[i])[k].sys == i && PlacedIn(systems[i], i, coords[i])[k].key != ""
  {
    FreshKeysBefore(systems, coords, i + 1);
    PlacedInShape(systems[i], i, coords[i]);
  }

  /** The duplicate pass's guarantee holds for every prefix of the systems. */
  lemma FreshKeysBefore(systems: seq<RSystem>, coords: seq<Coord>, n: nat)
    requires n <= |systems| == |coords| && EachEntry(Placed(systems, coords, |systems|), FreshKey)
    ensures EachEntry(Placed(systems, coords, n), FreshKey)
  {
    PlacedPrefix(systems, coords, n, |systems|);
    EachEntryPrefix(Placed(systems, coords, n), Placed(systems, coords, |systems|), FreshKey);
  }

  /** The entries of the first i systems name only those systems. */
  lemma {:induction false} PlacedSystemsKnown(systems: seq<RSystem>, coords: seq<Coord>, i: nat)
    requires i <= |systems| == |coords|
    ensures SystemsKnown(Placed(systems, coords, i), i)
    decreases i
  {
    if i > 0 {
      PlacedSystemsKnown(systems, coords, i - 1);
      var ps: seq<Entry> := Placed(systems, coords, i - 1);
      var here: seq<Entry> := PlacedIn(systems[i - 1], i - 1, coords[i - 1]);
      forall j | 0 <= j < |ps + here|
        ensures (ps + here)[j].sys < i
      {
        if j >= |ps| {
          assert (ps + here)[j] == here[j - |ps|];
        }
      }
    }
  }

  /** The system index Read builds: the first |objs| systems, each under
      its id. */
  function SystemIndex(keys: seq<string>, objs: seq<System>): map<string, System>
    requires |objs| <= |keys|
  {
    if |objs| == 0 then map[]
    else SystemIndex(keys, objs[..|objs| - 1])[keys[|objs| - 1] := objs[|objs| - 1]]
  }

  lemma SystemIndexSnoc(keys: seq<string>, objs: seq<System>, sys: System)
    requires |objs| < |keys|
    ensures SystemIndex(keys, objs + [sys]) == SystemIndex(keys, objs)[keys[|objs|] := sys]
  {
    assert (objs + [sys])[..|objs|] == objs;
  }

  /** The index holds exactly the ids of the systems made so far. */
  lemma {:induction false} SystemIndexKeys(keys: seq<string>, objs: seq<System>)
    requires |objs| <= |keys|
    ensures SystemIndex(keys, objs).Keys == set m | 0 <= m < |objs| :: keys[m]
    decreases |objs|
  {
    if |objs| > 0 {
      SystemIndexKeys(keys, objs[..|objs| - 1]);
      var n := |objs| - 1;
      assert (set m | 0 <= m < |objs| :: keys[m]) == (set m | 0 <= m < n :: keys[m]) + {keys[n]};
    }
  }

  /** With distinct ids, each system is found under its own id, and the
      next id is not yet taken. */
  lemma {:induction false} SystemIndexLookup(keys: seq<string>, objs: seq<System>, m: nat)
    requires |objs| <= |keys| && Distinct(keys) && m < |objs|
    ensures keys[m] in SystemIndex(keys, objs) && SystemIndex(keys, objs)[keys[m]] == objs[m]
    decreases |objs|
  {
    if m < |objs| - 1 {
      SystemIndexLookup(keys, objs[..|objs| - 1], m);
    }
  }

  lemma SystemIndexFresh(keys: seq<string>, objs: seq<System>)
    requires |objs| < |keys| && Distinct(keys)
    ensures keys[|objs|] !in SystemIndex(keys, objs)
  {
    SystemIndexKeys(keys, objs);
  }

  /** The planet lists `ls` one after the other. */
  function Flatten(ls: seq<seq<Planet>>): (r: seq<Planet>)
  {
    if |ls| == 0 then [] else Flatten(ls[..|ls| - 1]) + ls[|ls| - 1]
  }

  lemma FlattenSnoc(ls: seq<seq<Planet>>, ps: seq<Planet>)
    ensures Flatten(ls + [ps]) == Flatten(ls) + ps
  {
    assert (ls + [ps])[..|ls|] == ls;
  }

  /** The systems `objs` hold the planet lists `loaded`. */
  ghost predicate PlanetListsAre(objs: seq<System>, loaded: seq<seq<Planet>>)
    reads objs
  {
    |objs| == |loaded| && forall m :: 0 <= m < |objs| ==> objs[m].planets == loaded[m]
  }

  lemma PlanetListsSnoc(objs: seq<System>, loaded: seq<seq<Planet>>, sys: System)
    requires PlanetListsAre(objs, loaded)
    ensures PlanetListsAre(objs + [sys], loaded + [sys.planets])
  {
    var objs', loaded' := objs + [sys], loaded + [sys.planets];
    assert forall m :: 0 <= m < |objs| ==> objs'[m] == objs[m] && loaded'[m] == loaded[m];
  }

  /** The state of the system loop of the copying pass after the first i
      systems: `objs` are the systems made, `loaded` their planet lists,
      the indexes hold them, the sorted lists (which started as `s0` and
      `p0`) have them appended, and no planet failed a test. */
  ghost predicate SystemsLoaded(planets: map<string, Planet>, systems: map<string, System>,
                                sortedSystems: seq<System>, sortedPlanets: seq<Planet>, s0: seq<System>, p0: seq<Planet>,
                                input: seq<RSystem>, coords: seq<Coord>, keys: seq<string>, i: nat,
                                objs: seq<System>, loaded: seq<seq<Planet>>)
    requires |input| == |coords| == |keys|
  {
    && i <= |input| && |objs| == i && |loaded| == i
    && (forall m :: 0 <= m < i ==>
          SystemMade(objs[m], keys[m], input[m], coords[m]) && PlanetsFor(loaded[m], objs[m], PlacedIn(input[m], m, coords[m])))
    && systems == SystemIndex(keys, objs)
    && sortedSystems == s0 + objs && sortedPlanets == p0 + Flatten(loaded)
    && SystemsKnown(Placed(input, coords, i), i) && planets == PlanetIndex(Placed(input, coords, i), objs)
    && EachEntry(Placed(input, coords, i), FreshName) && EachEntry(Placed(input, coords, i), ShipsOk)
    && "" !in planets
  }

  /** A system LoadSystem accepted extends the loop state by one system. */
  lemma SystemAccepted(planets: map<string, Planet>, systems: map<string, System>,
                       sortedSystems: seq<System>, sortedPlanets: seq<Planet>, s0: seq<System>, p0: seq<Planet>,
                       input: seq<RSystem>, coords: seq<Coord>, keys: seq<string>, i: nat,
                       objs: seq<System>, loaded: seq<seq<Planet>>,
                       sys: System, ps: seq<Planet>, planets': map<string, Planet>, systems': map<string, System>,
                       sortedSystems': seq<System>, sortedPlanets': seq<Planet>, objs': seq<System>, loaded': seq<seq<Planet>>)
    requires |input| == |coords| == |keys| && i < |input|
    requires systems' == systems[keys[i] := sys] && sortedSystems' == sortedSystems + [sys]
    requires sortedPlanets' == sortedPlanets + ps && objs' == objs + [sys] && loaded' == loaded + [ps]
    requires SystemsLoaded(planets, systems, sortedSystems, sortedPlanets, s0, p0, input, coords, keys, i, objs, loaded)
    requires Placed(input, coords, i + 1) == Placed(input, coords, i) + PlacedIn(input[i], i, coords[i])
    requires SystemMade(sys, keys[i], input[i], coords[i]) && PlanetsFor(ps, sys, PlacedIn(input[i], i, coords[i]))
    requires SystemsKnown(Placed(input, coords, i + 1), i + 1)
    requires planets' == PlanetIndex(Placed(input, coords, i + 1), objs + [sys]) && "" !in planets'
    requires EachEntry(Placed(input, coords, i + 1), FreshName) && EachEntry(Placed(input, coords, i + 1), ShipsOk)
    ensures SystemsLoaded(planets', systems', sortedSystems', sortedPlanets', s0, p0,
                          input, coords, keys, i + 1, objs', loaded')
  {
    SystemAppended(planets, systems, sortedSystems, sortedPlanets, s0, p0, input, coords, keys, i, objs, loaded, sys, ps, planets');
  }

  lemma SystemAppended(planets: map<string, Planet>, systems: map<string, System>,
                       sortedSystems: seq<System>, sortedPlanets: seq<Planet>, s0: seq<System>, p0: seq<Planet>,
                       input: seq<RSystem>, coords: seq<Coord>, keys: seq<string>, i: nat,
                       objs: seq<System>, loaded: seq<seq<Planet>>,
                       sys: System, ps: seq<Planet>, planets': map<string, Planet>)
    requires |input| == |coords| == |keys| && i < |input|
    requires SystemsLoaded(planets, systems, sortedSystems, sortedPlanets, s0, p0, input, coords, keys, i, objs, loaded)
    requires Placed(input, coords, i + 1) == Placed(input, coords, i) + PlacedIn(input[i], i, coords[i])
    requires SystemMade(sys, keys[i], input[i], coords[i]) && PlanetsFor(ps, sys, PlacedIn(input[i], i, coords[i]))
    requires SystemsKnown(Placed(input, coords, i + 1), i + 1)
    requires planets' == PlanetIndex(Placed(input, coords, i + 1), objs + [sys]) && "" !in planets'
    requires EachEntry(Placed(input, coords, i + 1), FreshName) && EachEntry(Placed(input, coords, i + 1), ShipsOk)
    ensures SystemsLoaded(planets', systems[keys[i] := sys], sortedSystems + [sys], sortedPlanets + ps, s0, p0,
                          input, coords, keys, i + 1, objs + [sys], loaded + [ps])
  {
    SystemIndexSnoc(keys, objs, sys);
    FlattenSnoc(loaded, ps);
    AppendAssoc(p0, Flatten(loaded), ps);
    var objs', loaded' := objs + [sys], loaded + [ps];
    assert forall m :: 0 <= m < i ==> objs'[m] == objs[m] && loaded'[m] == loaded[m];
  }

  /** What a successful Read stores in its three maps: the species of
      the file under their names, and the systems `objs`, one per system
      of the file, in order, under their normalised ids and made from that
      system, with the planet lists `ls` made from the system's planets,
      each planet indexed by its id and name. */
  ghost predicate StoredAs(planets: map<string, Planet>, species: map<string, Species>, systems: map<string, System>,
                           speciesIn: map<string, RSpecies>, systemsIn: seq<RSystem>, objs: seq<System>, ls: seq<seq<Planet>>)
    requires IdsParse(systemsIn)
  {
    var coords := Positions(systemsIn);
    var keys := SystemKeys(coords);
    && species == SpeciesMap(speciesIn)
    && |objs| == |systemsIn| && |ls| == |systemsIn|
    && (forall i :: 0 <= i < |systemsIn| ==>
          SystemMade(objs[i], keys[i], systemsIn[i], coords[i]) && PlanetsFor(ls[i], objs[i], PlacedIn(systemsIn[i], i, coords[i])))
    && systems == SystemIndex(keys, objs)
    && SystemsKnown(Placed(systemsIn, coords, |systemsIn|), |objs|)
    && planets == PlanetIndex(Placed(systemsIn, coords, |systemsIn|), objs)
  }

  /** The state the copying pass leaves: StoredAs holds, and each sorted
      list is what it held (`sp0`, `s0`, `p0`) followed by the new records,
      not yet sorted. */
  ghost predicate Filled(planets: map<string, Planet>, species: map<string, Species>, systems: map<string, System>,
                         sortedSpecies: seq<Species>, sortedSystems: seq<System>, sortedPlanets: seq<Planet>,
                         sp0: seq<Species>, s0: seq<System>, p0: seq<Planet>,
                         speciesIn: map<string, RSpecies>, systemsIn: seq<RSystem>, objs: seq<System>, ls: seq<seq<Planet>>)
    requires IdsParse(systemsIn)
  {
    && StoredAs(planets, species, systems, speciesIn, systemsIn, objs, ls)
    && multiset(sortedSpecies) == multiset(sp0) + multiset(species.Values)
    && sortedSystems == s0 + objs
    && sortedPlanets == p0 + Flatten(ls)
  }

  lemma StoredAfterLoad(planets: map<string, Planet>, species: map<string, Species>, systems: map<string, System>,
                        sortedSpecies: seq<Species>, sortedSystems: seq<System>, sortedPlanets: seq<Planet>,
                        sp0: seq<Species>, s0: seq<System>, p0: seq<Planet>,
                        speciesIn: map<string, RSpecies>, systemsIn: seq<RSystem>, coords: seq<Coord>,
                        objs: seq<System>, ls: seq<seq<Planet>>)
    requires IdsParse(systemsIn) && coords == Positions(systemsIn) && species == SpeciesMap(speciesIn)
    requires multiset(sortedSpecies) == multiset(sp0) + multiset(species.Values)
    requires SystemsLoaded(planets, systems, sortedSystems, sortedPlanets, s0, p0,
                           systemsIn, coords, SystemKeys(coords), |systemsIn|, objs, ls)
    ensures Filled(planets, species, systems, sortedSpecies, sortedSystems, sortedPlanets, sp0, s0, p0,
                   speciesIn, systemsIn, objs, ls)
  {
  }

  /** What a successful Read leaves: StoredAs holds, and each sorted list
      holds what it held before (`sp0`, `s0`, `p0`) together with the new
      species, systems and planets, ordered by its own less-than. */
  ghost predicate ReadInto(planets: map<string, Planet>, species: map<string, Species>, systems: map<string, System>,
                           sortedSpecies: seq<Species>, sortedSystems: seq<System>, sortedPlanets: seq<Planet>,
                           sp0: seq<Species>, s0: seq<System>, p0: seq<Planet>,
                           speciesIn: map<string, RSpecies>, systemsIn: seq<RSystem>, objs: seq<System>, ls: seq<seq<Planet>>)
    requires IdsParse(systemsIn)
  {
    && StoredAs(planets, species, systems, speciesIn, systemsIn, objs, ls)
    && SortedWith(sortedSpecies, multiset(sp0) + multiset(species.Values), SpeciesLess)
    && SortedWith(sortedSystems, multiset(s0 + objs), SystemLess)
    && SortedWith(sortedPlanets, multiset(p0 + Flatten(ls)), PlanetLess)
  }

  /** Sorting the three lists after the copying pass gives ReadInto. */
  lemma SortedAfterFill(planets: map<string, Planet>, species: map<string, Species>, systems: map<string, System>,
                        sortedSpecies: seq<Species>, sortedSystems: seq<System>, sortedPlanets: seq<Planet>,
                        unsortedSpecies: seq<Species>, unsortedSystems: seq<System>, unsortedPlanets: seq<Planet>,
                        sp0: seq<Species>, s0: seq<System>, p0: seq<Planet>,
                        speciesIn: map<string, RSpecies>, systemsIn: seq<RSystem>, objs: seq<System>, ls: seq<seq<Planet>>)
    requires IdsParse(systemsIn)
    requires Filled(planets, species, systems, unsortedSpecies, unsortedSystems, unsortedPlanets, sp0, s0, p0,
                    speciesIn, systemsIn, objs, ls)
    requires SortedWith(sortedSpecies, multiset(unsortedSpecies), SpeciesLess)
    requires SortedWith(sortedSystems, multiset(unsortedSystems), SystemLess)
    requires SortedWith(sortedPlanets, multiset(unsortedPlanets), PlanetLess)
    ensures ReadInto(planets, species, systems, sortedSpecies, sortedSystems, sortedPlanets, sp0, s0, p0,
                     speciesIn, systemsIn, objs, ls)
  {
  }

  /** With their planet lists in place, the stored systems are the ones
      Read makes from the file. */
  lemma StoredSystems(planets: map<string, Planet>, species: map<string, Species>, systems: map<string, System>,
                      speciesIn: map<string, RSpecies>, systemsIn: seq<RSystem>, objs: seq<System>, ls: seq<seq<Planet>>)
    requires IdsParse(systemsIn) && StoredAs(planets, species, systems, speciesIn, systemsIn, objs, ls)
    requires PlanetListsAre(objs, ls)
    ensures forall i :: 0 <= i < |systemsIn| ==>
      LoadedSystem(objs[i], SystemKeys(Positions(systemsIn))[i], systemsIn[i], Positions(systemsIn)[i],
                   PlacedIn(systemsIn[i], i, Positions(systemsIn)[i]))
  {
  }
}
