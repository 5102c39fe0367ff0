/** Store.Read of package store (store/read.go) after the JSON file has been
    decoded: the checking passes, the copying pass into a Store, and the
    exchange sorts of module Sorting. Module StoreReadSpec states what
    each of them computes. */
module StoreRead {
  import opened Common
  import opened Sorting
  import opened StoreTypes
  import opened StoreReadSpec

  /** The loop copying a planet's inventory, in map order. */
  method CopyInventory(m: map<string, RItem>) returns (inv: map<string, Item>)
    ensures inv.Keys == m.Keys
    ensures forall code | code in inv :: inv[code] == Item(code, m[code].location, m[code].quantity)
  {
    inv := map[];
    var rest := m.Keys;
    while rest != {}
      invariant rest <= m.Keys && inv.Keys == m.Keys - rest
      invariant forall code | code in inv :: inv[code] == Item(code, m[code].location, m[code].quantity)
      decreases rest
    {
      var code :| code in rest;
      inv := inv[code := Item(code, m[code].location, m[code].quantity)];
      rest := rest - {code};
    }
  }

  /** The loop copying a planet's ships, in map order: it fails on the
      first ship met whose location does not parse. */
  method CopyShips(p: RPlanet) returns (r: Result<map<string, Ship>, (string, string)>)
    ensures r.Ok? <==> ShipsValid(p)
    ensures r.Ok? ==> r.value.Keys == p.ships.Keys
    ensures r.Ok? ==> forall name | name in r.value :: Ok(r.value[name]) == ShipOf(name, p.ships[name], p.orbit)
    ensures r.Err? ==> r.error.0 in p.ships && ShipOf(r.error.0, p.ships[r.error.0], p.orbit) == Err(r.error.1)
  {
    var ships: map<string, Ship> := map[];
    var rest := p.ships.Keys;
    while rest != {}
      invariant rest <= p.ships.Keys && ships.Keys == p.ships.Keys - rest
      invariant forall name | name in ships :: Ok(ships[name]) == ShipOf(name, p.ships[name], p.orbit)
      decreases rest
    {
      var name :| name in rest;
      match ShipOf(name, p.ships[name], p.orbit)
      case Err(orb) =>
        return Err((name, orb));
      case Ok(sh) =>
        ships := ships[name := sh];
      rest := rest - {name};
    }
    r := Ok(ships);
  }

  /** The first loop of Read: fails with the error of the first system
      whose id does not parse. */
  method ParseSystemIds(systems: seq<RSystem>) returns (r: Result<seq<Coord>, ReadError>)
    ensures r.Ok? <==> IdsParse(systems)
    ensures r.Ok? ==> r.value == Positions(systems)
    ensures r.Err? ==> exists i :: (0 <= i < |systems| && ParseSystemId(systems[i].id) == Err(r.error)
      && forall m :: 0 <= m < i ==> ParseSystemId(systems[m].id).Ok?)
    ensures r.Err? ==> IdError(systems) == Some(r.error)
  {
    var coords: seq<Coord> := [];
    for i := 0 to |systems|
      invariant ParsedUpTo(systems, i, coords)
      invariant IdError(systems) == IdError(systems[i..])
    {
      var next := ParseNextId(systems, i, coords);
      if next.Err? {
        assert systems[i..][0] == systems[i];
        return next;
      }
      IdErrorFrom(systems, i);
      coords := next.value;
    }
    r := Ok(coords);
  }

  /** One system of the first loop: its id is parsed and its position
      appended, or its error returned. */
  method ParseNextId(systems: seq<RSystem>, i: nat, coords: seq<Coord>) returns (r: Result<seq<Coord>, ReadError>)
    requires i < |systems| && ParsedUpTo(systems, i, coords)
    ensures r.Ok? ==> ParsedUpTo(systems, i + 1, r.value)
    ensures r.Err? ==> ParseSystemId(systems[i].id) == Err(r.error)
  {
    var parsed := ParseSystemId(systems[i].id);
    if parsed.Err? {
      r := Err(parsed.error);
    } else {
      var next := coords + [parsed.value];
      forall m | 0 <= m < i + 1
        ensures Ok(next[m]) == ParseSystemId(systems[m].id)
      {
        if m < i {
          assert next[m] == coords[m];
        }
      }
      r := Ok(next);
    }
  }

  /** The species loop of the duplicate pass. Its map of ids is never
      written, so the duplicate id test never succeeds; an unknown tech
      level name is an error. */
  method CheckSpecies(species: map<string, RSpecies>) returns (err: Option<ReadError>)
    ensures err.None? <==> TechNamesValid(species)
    ensures err.Some? ==> exists name, tech :: (name in species && tech in species[name].techLevels
      && TechCode(tech).None? && err.value == InvalidTech(name, tech))
  {
    var ids: map<int, RSpecies> := map[];
    var rest := species.Keys;
    while rest != {}
      invariant rest <= species.Keys
      invariant forall name, tech | name in species.Keys - rest && tech in species[name].techLevels :: TechCode(tech).Some?
      decreases rest
    {
      var name :| name in rest;
      var sp := species[name];
      if sp.id in ids {
        assert false;
        return Some(SameSpeciesId(name, sp.id));
      }
      var techs := sp.techLevels.Keys;
      while techs != {}
        invariant techs <= sp.techLevels.Keys
        invariant forall tech | tech in sp.techLevels.Keys - techs :: TechCode(tech).Some?
        decreases techs
      {
        var tech :| tech in techs;
        if TechCode(tech).None? {
          return Some(InvalidTech(name, tech));
        }
        techs := techs - {tech};
      }
      rest := rest - {name};
    }
    err := None;
  }

  /** The planet loop of the duplicate pass over the planets `here` of
      one system (PlacedIn gives each its id); `seen` holds the keys of
      the earlier planets. Its map of names is never written, so the name
      test never succeeds. */
  method CheckPlanetIds(here: seq<Entry>, ghost before: seq<Entry>, seen: set<string>)
    returns (err: Option<ReadError>, seen': set<string>)
    requires seen == IndexKeys(before) && EachEntry(before, FreshKey)
    ensures err.None? <==> EachEntry(before + here, FreshKey)
    ensures err.None? ==> seen' == IndexKeys(before + here)
    ensures err.Some? ==> err.value.SameOrbit?
    ensures err == (if FirstStale(here, before, 0).Some? then Some(SameOrbit(FirstStale(here, before, 0).value)) else None)
  {
    var names: set<string> := {};
    seen' := seen;
    assert before + here[..0] == before;
    for k := 0 to |here|
      invariant seen' == IndexKeys(before + here[..k])
      invariant EachEntry(before + here[..k], FreshKey)
      invariant FirstStale(here, before, 0) == FirstStale(here, before, k)
    {
      var pid := here[k].key;
      var name := here[k].planet.name;
      FreshKeyStep(before, here, k, seen');
      if pid in seen' {
        return Some(SameOrbit(pid)), seen';
      }
      seen' := seen' + {pid};
      if name != "" {
        if name in names {
          assert false;
          return Some(SameName(pid, name)), seen';
        }
        seen' := seen' + {name};
      }
    }
    assert here[..|here|] == here;
    err := None;
  }

  /** The duplicate pass of Read: a repeated position, or a planet id
      equal to an earlier planet's id or name, is an error. */
  method CheckDuplicates(systems: seq<RSystem>, coords: seq<Coord>) returns (err: Option<ReadError>)
    requires |coords| == |systems|
    ensures err.None? <==> DistinctSystems(coords) && EachEntry(Placed(systems, coords, |systems|), FreshKey)
    ensures err.Some? ==> err.value.SameCoordinates? || err.value.SameOrbit?
    ensures err.Some? ==> exists i :: (0 <= i < |systems| && DuplicatesPassed(systems, coords, i)
                                       && DuplicateIn(systems, coords, i) == err)
  {
    var keys := SystemKeys(coords);
    var seenSystems: set<string> := {};
    var seen: set<string> := {};
    for i := 0 to |systems|
      invariant seenSystems == set m | 0 <= m < i :: keys[m]
      invariant Distinct(keys[..i])
      invariant seen == IndexKeys(Placed(systems, coords, i))
      invariant EachEntry(Placed(systems, coords, i), FreshKey)
    {
      err, seenSystems, seen := CheckNextSystem(systems, coords, keys, i, seenSystems, seen);
      if err.Some? {
        assert DuplicatesPassed(systems, coords, i);
        return;
      }
    }
    assert keys[..|systems|] == keys;
    err := None;
  }

  /** System i of the duplicate pass: its position must be new, and so
      must each of its planet ids. */
  method CheckNextSystem(systems: seq<RSystem>, coords: seq<Coord>, keys: seq<string>, i: nat,
                         seenSystems: set<string>, seen: set<string>)
    returns (err: Option<ReadError>, seenSystems': set<string>, seen': set<string>)
    requires |coords| == |systems| && keys == SystemKeys(coords) && i < |systems|
    requires seenSystems == (set m | 0 <= m < i :: keys[m]) && Distinct(keys[..i])
    requires seen == IndexKeys(Placed(systems, coords, i)) && EachEntry(Placed(systems, coords, i), FreshKey)
    ensures err == DuplicateIn(systems, coords, i)
    ensures err.Some? ==> !(DistinctSystems(coords) && EachEntry(Placed(systems, coords, |systems|), FreshKey))
    ensures err.Some? ==> err.value.SameCoordinates? || err.value.SameOrbit?
    ensures err.None? ==> seenSystems' == (set m | 0 <= m < i + 1 :: keys[m]) && Distinct(keys[..i + 1])
    ensures err.None? ==> seen' == IndexKeys(Placed(systems, coords, i + 1))
    ensures err.None? ==> EachEntry(Placed(systems, coords, i + 1), FreshKey)
  {
    var key := keys[i];
    DistinctStep(keys, i, seenSystems);
    if key in seenSystems {
      var m :| 0 <= m < i && keys[m] == key;
      assert keys[..i][m] == key;
      return Some(SameCoordinates(key)), seenSystems, seen;
    }
    seenSystems' := seenSystems + {key};
    err, seen' := CheckPlanetIds(PlacedIn(systems[i], i, coords[i]), Placed(systems, coords, i), seen);
    if err.Some? {
      SystemFailure(systems, coords, i, FreshKey);
    }
  }

  /** The checking passes of Read, in their order: system ids, tech level
      names, then duplicate positions and planet ids. On success the
      result is the systems' positions. */
  method CheckInput(speciesIn: map<string, RSpecies>, systemsIn: seq<RSystem>) returns (r: Result<seq<Coord>, ReadError>)
    ensures r.Ok? <==> Checked(speciesIn, systemsIn)
    ensures r.Ok? ==> IdsParse(systemsIn) && r.value == Positions(systemsIn)
    ensures r.Err? ==> CheckFails(speciesIn, systemsIn, r.error)
  {
    var parsed := ParseSystemIds(systemsIn);
    if parsed.Err? {
      return Err(parsed.error);
    }
    var coords := parsed.value;
    var err := CheckSpecies(speciesIn);
    if err.Some? {
      return Err(err.value);
    }
    err := CheckDuplicates(systemsIn, coords);
    if err.Some? {
      return Err(err.value);
    }
    r := Ok(coords);
  }

  class Store {
    var planets: map<string, Planet>
    var species: map<string, Species>
    var systems: map<string, System>
    var sortedPlanets: seq<Planet>
    var sortedSpecies: seq<Species>
    var sortedSystems: seq<System>

    constructor ()
      ensures planets == map[] && species == map[] && systems == map[]
      ensures sortedPlanets == [] && sortedSpecies == [] && sortedSystems == []
    {
      planets, species, systems := map[], map[], map[];
      sortedPlanets, sortedSpecies, sortedSystems := [], [], [];
    }

    /** The species loop of the copying pass, in map order: each species
        is stored under its name and appended to the sorted list. */
    method LoadSpecies(input: map<string, RSpecies>)
      requires species == map[]
      modifies this`species, this`sortedSpecies
      ensures species == SpeciesMap(input)
      ensures multiset(sortedSpecies) == multiset(old(sortedSpecies)) + multiset(species.Values)
    {
      var m: map<string, Species> := map[];
      var added: seq<Species> := [];
      var rest := input.Keys;
      while rest != {}
        invariant rest <= input.Keys && SpeciesSoFar(input, input.Keys - rest, m)
        invariant multiset(added) == multiset(m.Values)
        modifies {}
        decreases rest
      {
        var name :| name in rest;
        var sp := SpeciesOf(name, input[name]);
        SpeciesStep(input, rest, m, name);
        m := m[name := sp];
        added := added + [sp];
        rest := rest - {name};
      }
      SpeciesSoFarAll(input, m);
      assert multiset(sortedSpecies + added) == multiset(sortedSpecies) + multiset(m.Values);
      species, sortedSpecies := m, sortedSpecies + added;
    }

    /** One planet of the copying pass: the planet `vp` of system `sys`,
        under the id `key` the duplicate pass gave it. The tests for a
        repeated id and a repeated orbit cannot succeed once the duplicate
        pass has passed, since the id is new and a planet of the same
        system at the same orbit has the same id. A failing test changes
        nothing. */
    method LoadPlanet(sys: System, key: string, vp: RPlanet) returns (err: Option<ReadError>)
      requires key != "" && key !in planets && "" !in planets
      requires forall n :: 0 <= n < |sys.planets| ==>
        sys.planets[n].id in planets && (sys.planets[n].orbit == vp.orbit ==> sys.planets[n].id == key)
      modifies this`planets, this`sortedPlanets, sys`planets
      ensures err.None? <==> key != vp.name && vp.name !in old(planets) && ShipsValid(vp)
      ensures err.Some? ==>
        planets == old(planets) && sortedPlanets == old(sortedPlanets) && sys.planets == old(sys.planets)
      ensures err.None? ==>
        var p := PlanetOf(sys, key, vp);
        && sys.planets == old(sys.planets) + [p]
        && sortedPlanets == old(sortedPlanets) + [p]
        && planets == (if vp.name != "" then old(planets)[key := p][vp.name := p] else old(planets)[key := p])
    {
      var sid := sys.id;
      if key == vp.name {
        return Some(IdIsName(sid, key));
      } else if key in planets {
        assert false;
        return Some(DuplicateLocation(sid, key));
      } else if vp.name in planets {
        return Some(DuplicateName(sid, key, vp.name));
      }
      var orbit := vp.orbit;
      for n := 0 to |sys.planets| {
        if sys.planets[n].orbit == orbit {
          assert false;
          return Some(DuplicateOrbit(sid, key, orbit));
        }
      }
      var inv := CopyInventory(vp.inventory);
      var ships := CopyShips(vp);
      if ships.Err? {
        return Some(InvalidOrbit(sid, key, ships.error.0, ships.error.1));
      }
      assert inv == InventoryOf(vp.inventory);
      assert ships.value == ShipsOf(vp);
      var p := Planet(key, sys, vp.orbit, vp.name, vp.homeWorld, vp.availablePopulationUnits,
                      vp.economicEfficiency, inv, vp.lsn, vp.miningDifficulty,
                      vp.productionPenalty, vp.shipyards, ships.value);
      sortedPlanets := sortedPlanets + [p];
      sys.planets := sys.planets + [p];
      planets := planets[key := p];
      if vp.name != "" {
        planets := planets[vp.name := p];
      }
      err := None;
    }

    /** One system of the copying pass: the system `rs` at position `c`,
        under the id `key` the duplicate pass gave it, with the planet
        entries `here`; `before` are the planets loaded so far and `objs`
        their systems. The test for a repeated system id cannot succeed
        once the duplicate pass has passed. The system is published before
        its planets are loaded. */
    method LoadSystem(rs: RSystem, key: string, c: Coord, here: seq<Entry>, ghost before: seq<Entry>, ghost objs: seq<System>)
      returns (err: Option<ReadError>, sys: System)
      requires key !in systems && "" !in planets
      requires KeyedByOrbit(here) && forall k :: 0 <= k < |here| ==> here[k].sys == |objs| && here[k].key != ""
      requires SystemsKnown(before, |objs|) && planets == PlanetIndex(before, objs)
      requires EachEntry(before + here, FreshKey)
      requires EachEntry(before, FreshName) && EachEntry(before, ShipsOk)
      modifies this`planets, this`systems, this`sortedPlanets, this`sortedSystems
      ensures fresh(sys)
      ensures SystemMade(sys, key, rs, c)
      ensures systems == old(systems)[key := sys] && sortedSystems == old(sortedSystems) + [sys]
      ensures err.None? <==> EachEntry(before + here, FreshName) && EachEntry(before + here, ShipsOk)
      ensures err.None? ==>
        && LoadedPlanets(sys, here)
        && SystemsKnown(before + here, |objs| + 1)
        && planets == PlanetIndex(before + here, objs + [sys])
        && sortedPlanets == old(sortedPlanets) + sys.planets
        && "" !in planets
    {
      sys := new System(key, c.0, c.1, c.2, rs.empty, rs.scanned, rs.visited);
      if key in systems {
        assert false;
        return Some(DuplicateSystem(key)), sys;
      }
      systems := systems[key := sys];
      sortedSystems := sortedSystems + [sys];
      PlanetIndexMoreSystems(before, objs, [sys]);
      err := LoadPlanets(sys, here, before, objs + [sys]);
    }

    /** The planet loop of the copying pass for the new system `sys`, the
        last of `objs`, over its entries `here`. */
    method LoadPlanets(sys: System, here: seq<Entry>, ghost before: seq<Entry>, ghost objs: seq<System>)
      returns (err: Option<ReadError>)
      requires |objs| > 0 && objs[|objs| - 1] == sys && sys.planets == [] && "" !in planets
      requires KeyedByOrbit(here) && forall k :: 0 <= k < |here| ==> here[k].sys == |objs| - 1 && here[k].key != ""
      requires SystemsKnown(before, |objs|) && planets == PlanetIndex(before, objs)
      requires EachEntry(before + here, FreshKey)
      requires EachEntry(before, FreshName) && EachEntry(before, ShipsOk)
      modifies this`planets, this`sortedPlanets, sys`planets
      ensures err.None? <==> EachEntry(before + here, FreshName) && EachEntry(before + here, ShipsOk)
      ensures err.None? ==>
        && PlanetsFor(sys.planets, sys, here)
        && SystemsKnown(before + here, |objs|)
        && planets == PlanetIndex(before + here, objs)
        && sortedPlanets == old(sortedPlanets) + sys.planets
        && "" !in planets
    {
      assert before + here[..0] == before;
      for k := 0 to |here|
        invariant PlanetsLoaded(planets, sys.planets, sortedPlanets, old(sortedPlanets), sys, before, here, k, objs)
      {
        var e := here[k];
        PlanetReady(planets, sys.planets, sortedPlanets, old(sortedPlanets), sys, before, here, k, objs);
        ghost var pl, ps, sp := planets, sys.planets, sortedPlanets;
        err := LoadPlanet(sys, e.key, e.planet);
        if err.Some? {
          PlanetRejected(pl, ps, sp, old(sortedPlanets), sys, before, here, k, objs);
          return;
        }
        PlanetAccepted(pl, ps, sp, old(sortedPlanets), sys, before, here, k, objs);
      }
      assert here[..|here|] == here;
      err := None;
    }

    /** The system loop of the copying pass over the file's systems
        `input`, at positions `coords`, under the ids `keys`; `objs` are
        the systems it makes. */
    method LoadSystems(input: seq<RSystem>, coords: seq<Coord>, keys: seq<string>)
      returns (err: Option<ReadError>, ghost objs: seq<System>, ghost loaded: seq<seq<Planet>>)
      requires |input| == |coords| == |keys| && Distinct(keys)
      requires EachEntry(Placed(input, coords, |input|), FreshKey)
      requires planets == map[] && systems == map[]
      modifies this`planets, this`systems, this`sortedPlanets, this`sortedSystems
      ensures err.None? <==>
        EachEntry(Placed(input, coords, |input|), FreshName) && EachEntry(Placed(input, coords, |input|), ShipsOk)
      ensures err.None? ==> PlanetListsAre(objs, loaded)
      ensures err.None? ==> SystemsLoaded(planets, systems, sortedSystems, sortedPlanets, old(sortedSystems), old(sortedPlanets),
                                          input, coords, keys, |input|, objs, loaded)
    {
      objs, loaded := [], [];
      for i := 0 to |input|
        invariant SystemsLoaded(planets, systems, sortedSystems, sortedPlanets, old(sortedSystems), old(sortedPlanets),
                                input, coords, keys, i, objs, loaded)
        invariant PlanetListsAre(objs, loaded)
      {
        ghost var objs', loaded';
        err, objs', loaded' := LoadNextSystem(input, coords, keys, i, objs, loaded, old(sortedSystems), old(sortedPlanets));
        if err.Some? {
          return;
        }
        objs, loaded := objs', loaded';
      }
      err := None;
    }

    /** One step of the system loop: loads the system at index `i`. */
    method LoadNextSystem(input: seq<RSystem>, coords: seq<Coord>, keys: seq<string>, i: nat,
                          ghost objs: seq<System>, ghost loaded: seq<seq<Planet>>, ghost s0: seq<System>, ghost p0: seq<Planet>)
      returns (err: Option<ReadError>, ghost objs': seq<System>, ghost loaded': seq<seq<Planet>>)
      requires |input| == |coords| == |keys| && Distinct(keys) && i < |input|
      requires EachEntry(Placed(input, coords, |input|), FreshKey)
      requires SystemsLoaded(planets, systems, sortedSystems, sortedPlanets, s0, p0, input, coords, keys, i, objs, loaded)
      requires PlanetListsAre(objs, loaded)
      modifies this`planets, this`systems, this`sortedPlanets, this`sortedSystems
      ensures err.Some? ==>
        !(EachEntry(Placed(input, coords, |input|), FreshName) && EachEntry(Placed(input, coords, |input|), ShipsOk))
      ensures err.None? ==>
        SystemsLoaded(planets, systems, sortedSystems, sortedPlanets, s0, p0, input, coords, keys, i + 1, objs', loaded')
      ensures err.None? ==> PlanetListsAre(objs', loaded')
    {
      var here := PlacedIn(input[i], i, coords[i]);
      SystemReady(input, coords, i);
      SystemIndexFresh(keys, objs);
      ghost var before := Placed(input, coords, i);
      ghost var pl, sy, ss, sp := planets, systems, sortedSystems, sortedPlanets;
      var sys;
      err, sys := LoadSystem(input[i], keys[i], coords[i], here, before, objs);
      objs', loaded' := objs + [sys], loaded + [sys.planets];
      if err.Some? {
        if !EachEntry(before + here, FreshName) {
          SystemFailure(input, coords, i, FreshName);
        } else {
          SystemFailure(input, coords, i, ShipsOk);
        }
        return;
      }
      SystemAccepted(pl, sy, ss, sp, s0, p0, input, coords, keys, i, objs, loaded, sys, sys.planets,
                     planets, systems, sortedSystems, sortedPlanets, objs', loaded');
      PlanetListsSnoc(objs, loaded, sys);
    }

    /** The exchange sorts at the end of Read: planets by Planet.Less,
        species by id, systems by System.Less, each in place. The systems
        `objs` keep their planet lists `ls`. */
    method SortAll(ghost objs: seq<System>, ghost ls: seq<seq<Planet>>)
      requires PlanetListsAre(objs, ls)
      modifies this`sortedPlanets, this`sortedSpecies, this`sortedSystems
      ensures SortedWith(sortedPlanets, multiset(old(sortedPlanets)), PlanetLess)
      ensures SortedWith(sortedSpecies, multiset(old(sortedSpecies)), SpeciesLess)
      ensures SortedWith(sortedSystems, multiset(old(sortedSystems)), SystemLess)
      ensures PlanetListsAre(objs, ls)
    {
      ghost var onPlanets := set p | p in sortedPlanets;
      PlanetLessIsStrictWeakOrder(onPlanets);
      sortedPlanets := SortedByLess(sortedPlanets, onPlanets, PlanetLess);
      ghost var onSpecies := set sp | sp in sortedSpecies;
      SpeciesLessIsStrictOrder(onSpecies);
      sortedSpecies := SortedByLess(sortedSpecies, onSpecies, SpeciesLess);
      ghost var onSystems := set sys | sys in sortedSystems;
      SystemLessIsStrictWeakOrder(onSystems);
      sortedSystems := SortedByLess(sortedSystems, onSystems, SystemLess);
    }

    /** Read, after the file is decoded into `speciesIn` and `systemsIn`.
        The three maps start empty; the sorted lists keep what they held.
        It fails exactly when the file breaks one of the rules Acceptable
        gathers. Otherwise the species and the new systems `objs`, holding
        the planet lists `ls`, are stored and indexed as StoredAs says, and
        each sorted list holds what it held plus the new records, in
        order. */
    method Read(speciesIn: map<string, RSpecies>, systemsIn: seq<RSystem>)
      returns (err: Option<ReadError>, ghost objs: seq<System>, ghost ls: seq<seq<Planet>>)
      modifies this
      ensures err.None? <==> Acceptable(speciesIn, systemsIn)
      ensures err.None? ==> IdsParse(systemsIn) && ReadInto(planets, species, systems, sortedSpecies, sortedSystems, sortedPlanets,
                                     old(sortedSpecies), old(sortedSystems), old(sortedPlanets), speciesIn, systemsIn, objs, ls)
      ensures err.None? ==> PlanetListsAre(objs, ls)
      ensures !Checked(speciesIn, systemsIn) ==> err.Some? && CheckFails(speciesIn, systemsIn, err.value)
      ensures !Checked(speciesIn, systemsIn) ==>
        && planets == map[] && species == map[] && systems == map[]
        && sortedPlanets == old(sortedPlanets) && sortedSpecies == old(sortedSpecies) && sortedSystems == old(sortedSystems)
    {
      objs, ls := [], [];
      var checked := Prepare(speciesIn, systemsIn);
      if checked.Err? {
        return Some(checked.error), objs, ls;
      }
      err, objs, ls := Load(speciesIn, systemsIn, checked.value);
    }

    /** The start of Read: the three maps are replaced by empty ones and
        the checking passes run. */
    method Prepare(speciesIn: map<string, RSpecies>, systemsIn: seq<RSystem>) returns (r: Result<seq<Coord>, ReadError>)
      modifies this`planets, this`species, this`systems
      ensures planets == map[] && species == map[] && systems == map[]
      ensures r.Ok? <==> Checked(speciesIn, systemsIn)
      ensures r.Ok? ==> IdsParse(systemsIn) && r.value == Positions(systemsIn)
      ensures r.Err? ==> CheckFails(speciesIn, systemsIn, r.error)
    {
      planets, species, systems := map[], map[], map[];
      r := CheckInput(speciesIn, systemsIn);
    }

    /** The copying pass of Read, once the checking passes have passed:
        species first, then systems with their planets, then the sorts. */
    method Load(speciesIn: map<string, RSpecies>, systemsIn: seq<RSystem>, coords: seq<Coord>)
      returns (err: Option<ReadError>, ghost objs: seq<System>, ghost ls: seq<seq<Planet>>)
      requires IdsParse(systemsIn) && coords == Positions(systemsIn)
      requires DistinctSystems(coords) && EachEntry(Placed(systemsIn, coords, |systemsIn|), FreshKey)
      requires planets == map[] && species == map[] && systems == map[]
      modifies this`planets, this`species, this`systems, this`sortedPlanets, this`sortedSpecies, this`sortedSystems
      ensures err.None? <==> Copyable(systemsIn)
      ensures err.None? ==> ReadInto(planets, species, systems, sortedSpecies, sortedSystems, sortedPlanets,
                                     old(sortedSpecies), old(sortedSystems), old(sortedPlanets), speciesIn, systemsIn, objs, ls)
      ensures err.None? ==> PlanetListsAre(objs, ls)
    {
      err, objs, ls := Fill(speciesIn, systemsIn, coords);
      if err.Some? {
        return;
      }
      ghost var unsortedSpecies, unsortedSystems, unsortedPlanets := sortedSpecies, sortedSystems, sortedPlanets;
      SortAll(objs, ls);
      SortedAfterFill(planets, species, systems, sortedSpecies, sortedSystems, sortedPlanets,
                      unsortedSpecies, unsortedSystems, unsortedPlanets, old(sortedSpecies), old(sortedSystems), old(sortedPlanets),
                      speciesIn, systemsIn, objs, ls);
    }

    /** The copying itself: species, then systems with their planets, each
        appended to its sorted list before the sorts run. */
    method Fill(speciesIn: map<string, RSpecies>, systemsIn: seq<RSystem>, coords: seq<Coord>)
      returns (err: Option<ReadError>, ghost objs: seq<System>, ghost ls: seq<seq<Planet>>)
      requires IdsParse(systemsIn) && coords == Positions(systemsIn)
      requires DistinctSystems(coords) && EachEntry(Placed(systemsIn, coords, |systemsIn|), FreshKey)
      requires planets == map[] && species == map[] && systems == map[]
      modifies this`planets, this`species, this`systems, this`sortedPlanets, this`sortedSpecies, this`sortedSystems
      ensures err.None? <==> Copyable(systemsIn)
      ensures err.None? ==> Filled(planets, species, systems, sortedSpecies, sortedSystems, sortedPlanets,
                                   old(sortedSpecies), old(sortedSystems), old(sortedPlanets), speciesIn, systemsIn, objs, ls)
      ensures err.None? ==> PlanetListsAre(objs, ls)
    {
      LoadSpecies(speciesIn);
      err, objs, ls := LoadSystems(systemsIn, coords, SystemKeys(coords));
      if err.Some? {
        return;
      }
      StoredAfterLoad(planets, species, systems, sortedSpecies, sortedSystems, sortedPlanets,
                      old(sortedSpecies), old(sortedSystems), old(sortedPlanets), speciesIn, systemsIn, coords, objs, ls);
    }
  }
}
