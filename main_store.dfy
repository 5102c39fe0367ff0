/** Store.Load of the server's own store (store.go at the repository
    root), from the point where store.json has been decoded: systems are
    registered by numeric id, planets get a default id and a sort key, and
    are indexed by id and name; every system's planets are put in orbit
    order, and the two sorted lists are sorted by the exchange loops. */
module MainStore {
  import opened Common
  import opened Sorting

  // ---------------------------------------------------------------------
  // The decoded file

  /** A planet record of store.json. Its inventory and ships are decoded
      but never copied, so they are left out. */
  datatype PlanetIn = PlanetIn(
    id: string, orbit: int, name: string, homeWorld: bool,
    availablePopulationUnits: int, economicEfficiency: int, lsn: int,
    productionPenalty: int)

  /** A system record of store.json, without the inventory and ships that
      Load does not copy either. */
  datatype SystemIn = SystemIn(
    id: int, x: int, y: int, z: int, planets: seq<PlanetIn>,
    scanned: int, shipyards: int, visited: bool)

  /** The errors Load reports after decoding, one per check. */
  datatype LoadError =
    | DuplicateSystem(systemId: int)
    | IdIsName(systemId: int, planetId: string)
    | DuplicateLocation(systemId: int, planetId: string)
    | DuplicateName(systemId: int, planetId: string, name: string)
    | DuplicateOrbit(systemId: int, planetId: string, orbit: int)

  // ---------------------------------------------------------------------
  // The in-memory records

  /** A system. Its planet list is the only thing that changes after it is
      created: planets are appended while the system is loaded and then
      put in orbit order. */
  class System {
    const id: int
    const x: int
    const y: int
    const z: int
    const scanned: int
    const shipyards: int
    const visited: bool
    var planets: seq<Planet>

    /** The system Load creates for a record: its fields copied, no
        planets yet. */
    constructor (v: SystemIn)
      ensures Matches(this, v) && planets == []
    {
      id := v.id;
      x := v.x;
      y := v.y;
      z := v.z;
      scanned := v.scanned;
      shipyards := v.shipyards;
      visited := v.visited;
      planets := [];
    }

    /** System.Less: by numeric id. */
    predicate Less(ss: System)
    {
      id < ss.id
    }

    /** The player marked the system visited without having scanned it. */
    predicate TaggedAsVisited()
    {
      visited && scanned == 0
    }
  }

  /** Each system was created from the record at its position. */
  ghost predicate AllMatch(objs: seq<System>, vs: seq<SystemIn>)
  {
    |objs| <= |vs| && forall j :: 0 <= j < |objs| ==> Matches(objs[j], vs[j])
  }

  /** The fields of a system are those of its record. */
  predicate Matches(sys: System, v: SystemIn)
  {
    && sys.id == v.id && sys.x == v.x && sys.y == v.y && sys.z == v.z
    && sys.scanned == v.scanned && sys.shipyards == v.shipyards && sys.visited == v.visited
  }

  datatype Planet = Planet(
    id: string, system: System, orbit: int, name: string, homeWorld: bool,
    availablePopulationUnits: int, economicEfficiency: int, lsn: int,
    productionPenalty: int, sortKey: string)
  {
    /** Planet.Less: by sort key, as Go compares strings. */
    predicate Less(pp: Planet)
    {
      StrLess(sortKey, pp.sortKey)
    }
  }

  predicate SystemLess(s: System, t: System)
  {
    s.Less(t)
  }

  predicate PlanetLess(p: Planet, q: Planet)
  {
    p.Less(q)
  }

  /** The test of the orbit sort: p lies nearer the star than q. */
  predicate OrbitLess(p: Planet, q: Planet)
  {
    p.orbit < q.orbit
  }

  // ---------------------------------------------------------------------
  // Ids and sort keys

  /** `s` right-aligned in `width` columns, as fmt's %<width>d pads. */
  function PadLeft(s: string, width: nat): (r: string)
    ensures |r| == if |s| >= width then |s| else width
    ensures r[|r| - |s|..] == s
    ensures forall i :: 0 <= i < |r| - |s| ==> r[i] == ' '
  {
    if |s| >= width then s else Spaces(width - |s|) + s
  }

  function Spaces(n: nat): (r: string)
    ensures |r| == n && forall i :: 0 <= i < n ==> r[i] == ' '
  {
    if n == 0 then "" else " " + Spaces(n - 1)
  }

  /** fmt.Sprintf("%4d %4d %4d %2d", x, y, z, orbit). */
  function SortKey(x: int, y: int, z: int, orbit: int): string
  {
    PadLeft(Itoa(x), 4) + " " + PadLeft(Itoa(y), 4) + " " + PadLeft(Itoa(z), 4) + " "
      + PadLeft(Itoa(orbit), 2)
  }

  /** fmt.Sprintf("%d %d %d %d", x, y, z, orbit): the id of a planet whose
      record has none. */
  function DefaultId(x: int, y: int, z: int, orbit: int): string
  {
    Join([Itoa(x), Itoa(y), Itoa(z), Itoa(orbit)], ' ')
  }

  /** The planet Load builds from a record of system `sys`. */
  function MakePlanet(sys: System, p: PlanetIn): Planet
  {
    var pla := Planet(p.id, sys, p.orbit, p.name, p.homeWorld, p.availablePopulationUnits,
      p.economicEfficiency, p.lsn, p.productionPenalty, SortKey(sys.x, sys.y, sys.z, p.orbit));
    if p.id == "" then pla.(id := DefaultId(sys.x, sys.y, sys.z, p.orbit)) else pla
  }

  /** The planets built from a list of records, in order. */
  function Built(sys: System, ps: seq<PlanetIn>): (r: seq<Planet>)
    ensures |r| == |ps|
  {
    if |ps| == 0 then [] else Built(sys, ps[..|ps| - 1]) + [MakePlanet(sys, ps[|ps| - 1])]
  }

  /** The planets of the first |objs| systems, system after system. */
  function AllBuilt(objs: seq<System>, vs: seq<SystemIn>): seq<Planet>
    requires |objs| <= |vs|
  {
    if |objs| == 0 then []
    else AllBuilt(objs[..|objs| - 1], vs) + Built(objs[|objs| - 1], vs[|objs| - 1].planets)
  }

  /** The keys a planet is indexed under: its id and, when it has one,
      its name. */
  function KeysOf(q: Planet): set<string>
  {
    if q.name != "" then {q.id, q.name} else {q.id}
  }

  // ---------------------------------------------------------------------
  // The maps Load fills

  /** ds.Planets after planet q is indexed under its id and, if it has
      one, its name. */
  function IndexOne(m: map<string, Planet>, q: Planet): map<string, Planet>
  {
    if q.name != "" then m[q.id := q][q.name := q] else m[q.id := q]
  }

  /** ds.Planets after the planets `ps` are indexed one after the other. */
  function Index(m: map<string, Planet>, ps: seq<Planet>): map<string, Planet>
  {
    if |ps| == 0 then m else IndexOne(Index(m, ps[..|ps| - 1]), ps[|ps| - 1])
  }

  /** ds.Systems after the systems `objs` are registered by id. */
  function Register(m: map<int, System>, objs: seq<System>): map<int, System>
  {
    if |objs| == 0 then m else Register(m, objs[..|objs| - 1])[objs[|objs| - 1].id := objs[|objs| - 1]]
  }

  /** No system is registered under an id taken before it. */
  ghost predicate NewIds(m: map<int, System>, objs: seq<System>)
  {
    if |objs| == 0 then true
    else NewIds(m, objs[..|objs| - 1]) && objs[|objs| - 1].id !in Register(m, objs[..|objs| - 1])
  }

  /** Every planet's keys are new when it is indexed, and its id differs
      from its name, so indexing never overwrites an entry. */
  ghost predicate Unclashed(m: map<string, Planet>, ps: seq<Planet>)
  {
    if |ps| == 0 then true
    else
      var q := ps[|ps| - 1];
      && Unclashed(m, ps[..|ps| - 1])
      && q.id != q.name && q.id !in Index(m, ps[..|ps| - 1]) && q.name !in Index(m, ps[..|ps| - 1])
  }

  /** A system's planets, once loaded, are in orbit order and are the
      planets built from its records. */
  ghost predicate Arranged(sys: System, v: SystemIn)
    reads sys
  {
    Ordered(sys.planets, OrbitLess) && multiset(sys.planets) == multiset(Built(sys, v.planets))
  }

  /** The orbits of a list of planets. */
  function PlanetOrbits(ps: seq<Planet>): set<int>
  {
    if |ps| == 0 then {} else PlanetOrbits(ps[..|ps| - 1]) + {ps[|ps| - 1].orbit}
  }

  /** The orbits of a prefix are orbits of the whole list. */
  lemma {:induction false} PlanetOrbitsGrow(ps: seq<Planet>, n: nat)
    requires n <= |ps|
    ensures PlanetOrbits(ps[..n]) <= PlanetOrbits(ps)
    decreases |ps| - n
  {
    if n < |ps| {
      PlanetOrbitsGrow(ps, n + 1);
      assert ps[..n + 1][..n] == ps[..n];
    } else {
      assert ps[..n] == ps;
    }
  }

  /** Whether some planet of `ps` is at `orbit`: the scan of sys.Planets
      for a duplicate orbit. */
  method HasOrbit(ps: seq<Planet>, orbit: int) returns (found: bool)
    ensures found <==> orbit in PlanetOrbits(ps)
  {
    for j := 0 to |ps|
      invariant orbit !in PlanetOrbits(ps[..j])
    {
      assert ps[..j + 1][..j] == ps[..j];
      if ps[j].orbit == orbit {
        PlanetOrbitsGrow(ps, j + 1);
        return true;
      }
    }
    assert ps[..|ps|] == ps;
    return false;
  }

  // ---------------------------------------------------------------------
  // Orders

  /** The orbit test of the per-system sort is a strict order. */
  lemma OrbitLessIsStrictOrder(on: set<Planet>)
    ensures StrictOrder(on, OrbitLess)
  {
  }

  /** System.Less is a strict weak order on any set of systems: systems
      with the same id are tied. */
  lemma SystemLessIsStrictWeakOrder(on: set<System>)
    ensures StrictWeakOrder(on, SystemLess)
  {
  }

  /** Go's string order is a strict weak order on sort keys, so
      Planet.Less is a strict weak order on any set of planets; planets
      with the same sort key are tied. */
  lemma PlanetLessIsStrictWeakOrder(on: set<Planet>)
    ensures StrictWeakOrder(on, PlanetLess)
  {
    forall p | p in on
      ensures !PlanetLess(p, p)
    {
      StrLessIrreflexive(p.sortKey);
    }
    forall p, q, r | p in on && q in on && r in on && PlanetLess(p, q) && PlanetLess(q, r)
      ensures PlanetLess(p, r)
    {
      StrLessTransitive(p.sortKey, q.sortKey, r.sortKey);
    }
    forall p, q, r | p in on && q in on && r in on && !PlanetLess(q, p) && !PlanetLess(r, q)
      ensures !PlanetLess(r, p)
    {
      StrLessTiesTransitive(p.sortKey, q.sortKey, r.sortKey);
    }
  }

  /** Strings not below each other in turn are not below each other. */
  lemma StrLessTiesTransitive(a: string, b: string, c: string)
    requires !StrLess(b, a) && !StrLess(c, b)
    ensures !StrLess(c, a)
  {
    if StrLess(c, a) && a != b && b != c {
      StrLessTotal(a, b);
      StrLessTotal(b, c);
      StrLessTransitive(c, a, b);
    }
  }

  // ---------------------------------------------------------------------
  // The loops of Load, as functions

  /** The four fields of Store that Load fills. */
  datatype Tables = Tables(systems: map<int, System>, planets: map<string, Planet>,
                           sortedSystems: seq<System>, sortedPlanets: seq<Planet>)

  /** Where the planet loop of a system stands: the error that stopped it,
      if any, the tables, and the system's own planet list. */
  datatype PlanetRun = PlanetRun(err: Option<LoadError>, tables: Tables, own: seq<Planet>)

  /** Where the system loop stands: the error that stopped it, if any,
      and the tables. */
  datatype SystemRun = SystemRun(err: Option<LoadError>, tables: Tables)

  /** One pass of the planet loop: the planet built from record `p` of
      system `sys` is checked, in store.go's order, against the planet
      index and the system's planets so far; if it passes it is appended
      to the sorted list and to the system's list and indexed. */
  function AddPlanet(sys: System, t: Tables, own: seq<Planet>, p: PlanetIn): PlanetRun
  {
    var pla := MakePlanet(sys, p);
    if pla.id == pla.name then PlanetRun(Some(IdIsName(sys.id, pla.id)), t, own)
    else if pla.id in t.planets then PlanetRun(Some(DuplicateLocation(sys.id, pla.id)), t, own)
    else if pla.name in t.planets then PlanetRun(Some(DuplicateName(sys.id, pla.id, pla.name)), t, own)
    else if pla.orbit in PlanetOrbits(own) then PlanetRun(Some(DuplicateOrbit(sys.id, pla.id, pla.orbit)), t, own)
    else PlanetRun(None, t.(planets := IndexOne(t.planets, pla), sortedPlanets := t.sortedPlanets + [pla]), own + [pla])
  }

  /** The planet loop of system `sys` over the records `ps`, from an
      empty planet list: it stops at the first record that fails. */
  function PlanetsRun(sys: System, t: Tables, ps: seq<PlanetIn>): PlanetRun
  {
    if |ps| == 0 then PlanetRun(None, t, [])
    else
      var r := PlanetsRun(sys, t, ps[..|ps| - 1]);
      if r.err.Some? then r else AddPlanet(sys, r.tables, r.own, ps[|ps| - 1])
  }

  /** One pass of the system loop for the system `sys` created from
      record `v`: a taken id stops it; otherwise the system is registered
      and appended to the sorted list, and its planets are loaded. */
  function AddSystem(t: Tables, sys: System, v: SystemIn): SystemRun
  {
    if sys.id in t.systems then SystemRun(Some(DuplicateSystem(sys.id)), t)
    else
      var r := PlanetsRun(sys, t.(systems := t.systems[sys.id := sys], sortedSystems := t.sortedSystems + [sys]), v.planets);
      SystemRun(r.err, r.tables)
  }

  /** The system loop over the first |objs| records, `objs` being the
      systems created for them: it stops at the first one that fails. */
  function SystemsRun(t: Tables, objs: seq<System>, vs: seq<SystemIn>): SystemRun
    requires |objs| <= |vs|
  {
    if |objs| == 0 then SystemRun(None, t)
    else
      var r := SystemsRun(t, objs[..|objs| - 1], vs);
      if r.err.Some? then r else AddSystem(r.tables, objs[|objs| - 1], vs[|objs| - 1])
  }

  /** Every planet of a list is at an orbit none before it is at. */
  ghost predicate DistinctOrbits(ps: seq<Planet>)
  {
    if |ps| == 0 then true
    else DistinctOrbits(ps[..|ps| - 1]) && ps[|ps| - 1].orbit !in PlanetOrbits(ps[..|ps| - 1])
  }

  /** Indexing two lists in turn is indexing their concatenation. */
  lemma {:induction false} IndexAppend(m: map<string, Planet>, a: seq<Planet>, b: seq<Planet>)
    ensures Index(m, a + b) == Index(Index(m, a), b)
    decreases |b|
  {
    if |b| > 0 {
      assert (a + b)[..|a + b| - 1] == a + b[..|b| - 1];
      IndexAppend(m, a, b[..|b| - 1]);
    } else {
      assert a + b == a;
    }
  }

  /** A list whose planets all get new keys, followed by another such
      list, is such a list. */
  lemma {:induction false} UnclashedAppend(m: map<string, Planet>, a: seq<Planet>, b: seq<Planet>)
    requires Unclashed(m, a) && Unclashed(Index(m, a), b)
    ensures Unclashed(m, a + b)
    decreases |b|
  {
    if |b| == 0 {
      assert a + b == a;
    } else {
      var init := b[..|b| - 1];
      assert (a + b)[..|a + b| - 1] == a + init;
      UnclashedAppend(m, a, init);
      IndexAppend(m, a, init);
    }
  }

  /** Appending to a concatenation. */
  lemma AppendAssoc<T>(a: seq<T>, b: seq<T>, c: seq<T>)
    ensures (a + b) + c == a + (b + c)
  {
  }

  /** Indexing one more planet. */
  lemma IndexSnoc(m: map<string, Planet>, a: seq<Planet>, q: Planet)
    ensures Index(m, a + [q]) == IndexOne(Index(m, a), q)
  {
    assert (a + [q])[..|a|] == a;
  }

  /** One more planet whose id differs from its name and whose keys are
      not yet indexed keeps the list unclashed. */
  lemma UnclashedSnoc(m: map<string, Planet>, a: seq<Planet>, q: Planet)
    requires Unclashed(m, a) && q.id != q.name && q.id !in Index(m, a) && q.name !in Index(m, a)
    ensures Unclashed(m, a + [q])
  {
    assert (a + [q])[..|a|] == a;
  }

  /** Every loaded system has its planets in orbit order. */
  ghost predicate AllArranged(objs: seq<System>, vs: seq<SystemIn>)
    requires |objs| <= |vs|
    reads objs
  {
    forall j :: 0 <= j < |objs| ==> Arranged(objs[j], vs[j])
  }

  /** One more arranged system keeps the systems arranged. */
  lemma AllArrangedNext(objs: seq<System>, objs': seq<System>, vs: seq<SystemIn>)
    requires |objs| < |vs| && |objs'| == |objs| + 1 && objs'[..|objs|] == objs
    requires AllArranged(objs, vs) && Arranged(objs'[|objs|], vs[|objs|])
    ensures AllArranged(objs', vs)
  {
    assert forall j :: 0 <= j < |objs| ==> objs'[j] == objs[j];
  }

  /** The tables at the end of Load: the maps as loaded, the sorted lists
      holding what was loaded, in order. */
  ghost predicate Sorts(loaded: Tables, t: Tables)
  {
    && t.systems == loaded.systems && t.planets == loaded.planets
    && Ordered(t.sortedSystems, SystemLess) && multiset(t.sortedSystems) == multiset(loaded.sortedSystems)
    && Ordered(t.sortedPlanets, PlanetLess) && multiset(t.sortedPlanets) == multiset(loaded.sortedPlanets)
  }

  // ---------------------------------------------------------------------
  // What a successful load leaves behind

  /** A planet loop that gets through all its records has built one
      planet per record, in record order, at distinct orbits; it has
      appended them to the sorted list and indexed them without
      overwriting any entry, and left the systems alone. */
  lemma {:induction false} PlanetsRunLoads(sys: System, t: Tables, ps: seq<PlanetIn>)
    requires PlanetsRun(sys, t, ps).err.None?
    ensures PlanetsRun(sys, t, ps).own == Built(sys, ps)
    ensures PlanetsRun(sys, t, ps).tables
         == t.(planets := Index(t.planets, Built(sys, ps)), sortedPlanets := t.sortedPlanets + Built(sys, ps))
    ensures Unclashed(t.planets, Built(sys, ps)) && DistinctOrbits(Built(sys, ps))
  {
    if |ps| > 0 {
      var init := ps[..|ps| - 1];
      PlanetsRunLoads(sys, t, init);
      var a := Built(sys, init);
      var q := MakePlanet(sys, ps[|ps| - 1]);
      assert Built(sys, ps) == a + [q];
      assert (a + [q])[..|a|] == a;
      IndexSnoc(t.planets, a, q);
      UnclashedSnoc(t.planets, a, q);
      AppendAssoc(t.sortedPlanets, a, [q]);
    }
  }

  /** A system pass that gets through registers the system under a new
      id, appends it and its planets to the sorted lists and indexes its
      planets without overwriting any entry. */
  lemma AddSystemLoads(r: Tables, sys: System, v: SystemIn)
    requires AddSystem(r, sys, v).err.None?
    ensures sys.id !in r.systems
    ensures AddSystem(r, sys, v).tables
         == Tables(r.systems[sys.id := sys], Index(r.planets, Built(sys, v.planets)),
                   r.sortedSystems + [sys], r.sortedPlanets + Built(sys, v.planets))
    ensures Unclashed(r.planets, Built(sys, v.planets))
  {
    var t1 := r.(systems := r.systems[sys.id := sys], sortedSystems := r.sortedSystems + [sys]);
    PlanetsRunLoads(sys, t1, v.planets);
  }

  /** A system loop that gets through its records has registered every
      system, appended the systems and their planets to the sorted lists,
      and indexed the planets; whatever the tables held before is kept. */
  lemma {:induction false} SystemsRunLoads(t: Tables, objs: seq<System>, vs: seq<SystemIn>)
    requires |objs| <= |vs| && SystemsRun(t, objs, vs).err.None?
    ensures SystemsRun(t, objs, vs).tables
         == Tables(Register(t.systems, objs), Index(t.planets, AllBuilt(objs, vs)),
                   t.sortedSystems + objs, t.sortedPlanets + AllBuilt(objs, vs))
  {
    if |objs| > 0 {
      var init := objs[..|objs| - 1];
      var sys := objs[|objs| - 1];
      var v := vs[|objs| - 1];
      SystemsRunLoads(t, init, vs);
      var r := SystemsRun(t, init, vs).tables;
      var a := AllBuilt(init, vs);
      var b := Built(sys, v.planets);
      AddSystemLoads(r, sys, v);
      IndexAppend(t.planets, a, b);
      AppendAssoc(t.sortedPlanets, a, b);
      AppendAssoc(t.sortedSystems, init, [sys]);
      assert init + [sys] == objs;
    }
  }

  /** A system loop that gets through its records has registered every
      system under an id not taken before it and indexed the planets
      without overwriting any entry. */
  lemma {:induction false} SystemsRunFresh(t: Tables, objs: seq<System>, vs: seq<SystemIn>)
    requires |objs| <= |vs| && SystemsRun(t, objs, vs).err.None?
    ensures NewIds(t.systems, objs) && Unclashed(t.planets, AllBuilt(objs, vs))
  {
    if |objs| > 0 {
      var init := objs[..|objs| - 1];
      var sys := objs[|objs| - 1];
      var v := vs[|objs| - 1];
      SystemsRunFresh(t, init, vs);
      SystemsRunLoads(t, init, vs);
      var r := SystemsRun(t, init, vs).tables;
      AddSystemLoads(r, sys, v);
      UnclashedAppend(t.planets, AllBuilt(init, vs), Built(sys, v.planets));
    }
  }

  /** Once a planet loop stops at a record, the later records change
      nothing. */
  lemma {:induction false} PlanetsRunStops(sys: System, t: Tables, ps: seq<PlanetIn>, n: nat)
    requires n <= |ps| && PlanetsRun(sys, t, ps[..n]).err.Some?
    ensures PlanetsRun(sys, t, ps) == PlanetsRun(sys, t, ps[..n])
    decreases |ps| - n
  {
    if n < |ps| {
      assert ps[..n + 1][..n] == ps[..n];
      PlanetsRunStops(sys, t, ps, n + 1);
    } else {
      assert ps[..n] == ps;
    }
  }

  /** Orbits are distinct exactly when no two planets share one. */
  lemma {:induction false} DistinctOrbitsPairwise(ps: seq<Planet>)
    requires DistinctOrbits(ps)
    ensures forall i, j :: 0 <= i < j < |ps| ==> ps[i].orbit != ps[j].orbit
  {
    if |ps| > 0 {
      var init := ps[..|ps| - 1];
      DistinctOrbitsPairwise(init);
      forall i | 0 <= i < |init|
        ensures init[i].orbit in PlanetOrbits(init)
      {
        OrbitAt(init, i);
      }
    }
  }

  /** The orbit of each planet of a list is among the list's orbits. */
  lemma {:induction false} OrbitAt(ps: seq<Planet>, i: nat)
    requires i < |ps|
    ensures ps[i].orbit in PlanetOrbits(ps)
  {
    PlanetOrbitsGrow(ps, i + 1);
    assert ps[..i + 1][..i] == ps[..i];
  }

  // ---------------------------------------------------------------------
  // The loops of Load, as code

  /** One pass of the planet loop on the tables `t` and the system's
      planet list `own`. */
  method LoadPlanet(sys: System, p: PlanetIn, t: Tables, own: seq<Planet>)
      returns (err: Option<LoadError>, t': Tables, own': seq<Planet>)
    ensures PlanetRun(err, t', own') == AddPlanet(sys, t, own, p)
  {
    t', own' := t, own;
    var pla := MakePlanet(sys, p);
    if pla.id == pla.name {
      return Some(IdIsName(sys.id, pla.id)), t', own';
    } else if pla.id in t.planets {
      return Some(DuplicateLocation(sys.id, pla.id)), t', own';
    } else if pla.name in t.planets {
      return Some(DuplicateName(sys.id, pla.id, pla.name)), t', own';
    }
    var dup := HasOrbit(own, pla.orbit);
    if dup {
      return Some(DuplicateOrbit(sys.id, pla.id, pla.orbit)), t', own';
    }
    var index := t.planets[pla.id := pla];
    if pla.name != "" {
      index := index[pla.name := pla];
    }
    t' := t.(planets := index, sortedPlanets := t.sortedPlanets + [pla]);
    own' := own + [pla];
    err := None;
  }

  /** The planet loop of system `sys` created from record `v`. */
  method PlanetLoop(sys: System, v: SystemIn, t: Tables)
      returns (err: Option<LoadError>, t': Tables, own: seq<Planet>)
    ensures PlanetRun(err, t', own) == PlanetsRun(sys, t, v.planets)
  {
    t', own := t, [];
    for k := 0 to |v.planets|
      invariant PlanetsRun(sys, t, v.planets[..k]) == PlanetRun(None, t', own)
    {
      assert v.planets[..k + 1][..k] == v.planets[..k];
      err, t', own := LoadPlanet(sys, v.planets[k], t', own);
      if err.Some? {
        PlanetsRunStops(sys, t, v.planets, k + 1);
        return;
      }
    }
    assert v.planets[..|v.planets|] == v.planets;
    err := None;
  }

  /** One pass of the system loop for the system `sys` created from
      record `v`, on values: registers it, loads its planets and, when
      they all pass, puts them in orbit order. */
  method SystemValues(sys: System, v: SystemIn, t: Tables)
      returns (err: Option<LoadError>, t': Tables, own: seq<Planet>)
    ensures SystemRun(err, t') == AddSystem(t, sys, v)
    ensures err.None? ==> Ordered(own, OrbitLess) && multiset(own) == multiset(Built(sys, v.planets))
  {
    if sys.id in t.systems {
      return Some(DuplicateSystem(sys.id)), t, [];
    }
    t' := t.(systems := t.systems[sys.id := sys], sortedSystems := t.sortedSystems + [sys]);
    err, t', own := PlanetLoop(sys, v, t');
    if err.None? {
      PlanetsRunLoads(sys, t.(systems := t.systems[sys.id := sys], sortedSystems := t.sortedSystems + [sys]), v.planets);
      ghost var on := set q | q in own;
      OrbitLessIsStrictOrder(on);
      own := SortedByLess(own, on, OrbitLess);
    }
  }

  // ---------------------------------------------------------------------
  // The store

  class Store {
    var systems: map<int, System>
    var planets: map<string, Planet>
    var sortedSystems: seq<System>
    var sortedPlanets: seq<Planet>

    /** The zero Store. Its maps are nil in Go, which reads like an empty
        map; Load makes them before writing to them. */
    constructor ()
      ensures systems == map[] && planets == map[] && sortedSystems == [] && sortedPlanets == []
    {
      systems := map[];
      planets := map[];
      sortedSystems := [];
      sortedPlanets := [];
    }

    /** The four fields as a value. */
    function Fields(): Tables
      reads this
    {
      Tables(systems, planets, sortedSystems, sortedPlanets)
    }

    /** One pass of the system loop: creates the system for record `v`,
        registers it, loads its planets and puts them in orbit order.
        `objs` are the systems created for the records before `v`, which
        all loaded from the tables `t0`; the run then takes in one more. */
    method LoadSystem(v: SystemIn, ghost t0: Tables, ghost vs: seq<SystemIn>, ghost objs: seq<System>)
        returns (err: Option<LoadError>, ghost objs': seq<System>)
      requires |objs| < |vs| && vs[|objs|] == v && AllMatch(objs, vs)
      requires SystemsRun(t0, objs, vs) == SystemRun(None, Fields())
      modifies this
      ensures |objs'| == |objs| + 1 && objs'[..|objs|] == objs
      ensures fresh(objs'[|objs|]) && AllMatch(objs', vs)
      ensures SystemsRun(t0, objs', vs) == SystemRun(err, Fields())
      ensures err.None? ==> Arranged(objs'[|objs|], v)
    {
      var sys := new System(v);
      var t, own;
      err, t, own := SystemValues(sys, v, Fields());
      systems, planets, sortedSystems, sortedPlanets := t.systems, t.planets, t.sortedSystems, t.sortedPlanets;
      sys.planets := own;
      objs' := objs + [sys];
      assert objs'[..|objs|] == objs;
    }

    /** Load, once store.json is decoded: the systems are loaded in file
        order until one fails; then both sorted lists are sorted. `objs`
        are the systems created, the last one being the one that failed
        if any did. */
    method Load(vs: seq<SystemIn>) returns (err: Option<LoadError>, ghost objs: seq<System>)
      modifies this
      ensures AllMatch(objs, vs)
      ensures err.Some? ==> SystemsRun(old(Fields()), objs, vs) == SystemRun(err, Fields())
      ensures err.None? ==> |objs| == |vs| && SystemsRun(old(Fields()), objs, vs).err.None?
      ensures err.None? ==> Sorts(SystemsRun(old(Fields()), objs, vs).tables, Fields())
      ensures err.None? ==> AllArranged(objs, vs)
    {
      err, objs := LoadSystems(vs);
      if err.None? {
        SortBoth();
      }
    }

    /** The system loop of Load. */
    method LoadSystems(vs: seq<SystemIn>) returns (err: Option<LoadError>, ghost objs: seq<System>)
      modifies this
      ensures AllMatch(objs, vs)
      ensures SystemsRun(old(Fields()), objs, vs) == SystemRun(err, Fields())
      ensures err.None? ==> |objs| == |vs| && AllArranged(objs, vs)
    {
      objs := [];
      for i := 0 to |vs|
        invariant |objs| == i
        invariant AllMatch(objs, vs)
        invariant SystemsRun(old(Fields()), objs, vs) == SystemRun(None, Fields())
        invariant AllArranged(objs, vs)
      {
        ghost var loaded := objs;
        err, objs := LoadSystem(vs[i], old(Fields()), vs, objs);
        if err.Some? {
          return;
        }
        AllArrangedNext(loaded, objs, vs);
      }
      err := None;
    }

    /** The two exchange sorts at the end of Load. */
    method SortBoth()
      modifies this
      ensures Ordered(sortedSystems, SystemLess) && multiset(sortedSystems) == multiset(old(sortedSystems))
      ensures Ordered(sortedPlanets, PlanetLess) && multiset(sortedPlanets) == multiset(old(sortedPlanets))
      ensures systems == old(systems) && planets == old(planets)
    {
      ghost var onSystems := set s | s in sortedSystems;
      SystemLessIsStrictWeakOrder(onSystems);
      sortedSystems := SortedByNotLess(sortedSystems, onSystems, SystemLess);
      ghost var onPlanets := set q | q in sortedPlanets;
      PlanetLessIsStrictWeakOrder(onPlanets);
      sortedPlanets := SortedByNotLess(sortedPlanets, onPlanets, PlanetLess);
    }
  }
}
