/** store/jsondb/io.go: Read's validation and normalisation of a decoded
    galaxy file. Every planet's id and atmosphere are checked; every
    species' map key must be the "SPnn" form of its id, and its Aliens map
    is rebuilt from its contact, ally and enemy lists. Reading and
    decoding the file are left out: Read is given the decoded store. */
module JsonDbIo {
  import opened Common
  import opened JsonDbTypes

  datatype IoError =
    | InvalidPlanetId(id: int)
    | UnknownGas(gas: string, planet: int)
    | InvalidPercentage(percentage: int, gas: string, planet: int)
    | InvalidGasTotal(total: int, planet: int)
    | InvalidSpeciesId(id: int)
    | InvalidSpeciesKey(key: string, id: int)

  // ---------------------------------------------------------------------
  // Atmospheres

  /** The thirteen gas formulas a planet's atmosphere may name. */
  predicate KnownGas(gas: string)
  {
    gas in {"NH3", "CO2", "Cl2", "F2", "He", "H2", "HCl", "H2S", "CH4", "N2", "O2", "SO2", "H2O"}
  }

  /** Sum of the percentages of the gases in `keys`. */
  ghost function SumOver(gases: map<string, int>, keys: set<string>): int
    requires keys <= gases.Keys
    decreases keys
  {
    if keys == {} then 0 else var k := Pick(keys); gases[k] + SumOver(gases, keys - {k})
  }

  /** The sum does not depend on which key is taken first. */
  lemma {:induction false} SumOverRemove(gases: map<string, int>, keys: set<string>, k: string)
    requires keys <= gases.Keys && k in keys
    ensures SumOver(gases, keys) == gases[k] + SumOver(gases, keys - {k})
    decreases keys
  {
    var p := Pick(keys);
    if p != k {
      SumOverRemove(gases, keys - {p}, k);
      SumOverRemove(gases, keys - {k}, p);
      assert keys - {p} - {k} == keys - {k} - {p};
    }
  }

  lemma SumOverAdd(gases: map<string, int>, keys: set<string>, k: string)
    requires keys <= gases.Keys && k in gases && k !in keys
    ensures SumOver(gases, keys + {k}) == SumOver(gases, keys) + gases[k]
  {
    SumOverRemove(gases, keys + {k}, k);
    assert keys + {k} - {k} == keys;
  }

  /** Every gas is known and has a percentage from 1 to 100. */
  predicate GasesInRange(gases: map<string, int>)
  {
    forall g | g in gases :: KnownGas(g) && 1 <= gases[g] <= 100
  }

  /** The atmosphere check of io.go:47-73: each gas in range, and a
      positive total is exactly 100. */
  ghost predicate GasesValid(gases: map<string, int>)
  {
    var total := SumOver(gases, gases.Keys);
    GasesInRange(gases) && !(total > 0 && total != 100)
  }

  /** A valid atmosphere is either empty or adds up to exactly 100. */
  lemma GasesValidMeans(gases: map<string, int>)
    requires GasesInRange(gases)
    ensures GasesValid(gases) <==> gases == map[] || SumOver(gases, gases.Keys) == 100
  {
    if gases != map[] {
      SumOverPositive(gases, gases.Keys);
    }
  }

  lemma {:induction false} SumOverPositive(gases: map<string, int>, keys: set<string>)
    requires keys <= gases.Keys && keys != {}
    requires forall g | g in keys :: gases[g] >= 1
    ensures SumOver(gases, keys) >= |keys|
    decreases keys
  {
    var k := Pick(keys);
    assert |keys - {k}| == |keys| - 1;
    if keys - {k} != {} {
      SumOverPositive(gases, keys - {k});
    }
  }

  /** The errors the atmosphere check of planet `id` may report: one
      failing gas, whichever the map iteration reaches first, or the
      total once every gas has passed. */
  ghost predicate GasErrorOf(id: int, gases: map<string, int>, e: IoError)
  {
    || (exists g | g in gases :: !KnownGas(g) && e == UnknownGas(g, id))
    || (exists g | g in gases :: KnownGas(g) && !(1 <= gases[g] <= 100)
          && e == InvalidPercentage(gases[g], g, id))
    || (GasesInRange(gases) && e == InvalidGasTotal(SumOver(gases, gases.Keys), id))
  }

  /** The inner loop of io.go:47-73 over one planet's gases, in map order. */
  method CheckGases(id: int, gases: map<string, int>) returns (err: Option<IoError>)
    ensures err.None? <==> GasesValid(gases)
    ensures err.Some? ==> GasErrorOf(id, gases, err.value)
  {
    var total := 0;
    var done: set<string> := {};
    var rest := gases.Keys;
    while rest != {}
      invariant rest <= gases.Keys && done == gases.Keys - rest
      invariant forall g | g in done :: KnownGas(g) && 1 <= gases[g] <= 100
      invariant total == SumOver(gases, done)
      decreases rest
    {
      var gas :| gas in rest;
      if !KnownGas(gas) {
        return Some(UnknownGas(gas, id));
      }
      var percentage := gases[gas];
      if percentage < 1 || percentage > 100 {
        return Some(InvalidPercentage(percentage, gas, id));
      }
      SumOverAdd(gases, done, gas);
      total := total + percentage;
      done := done + {gas};
      rest := rest - {gas};
    }
    assert done == gases.Keys;
    if total > 0 && total != 100 {
      return Some(InvalidGasTotal(total, id));
    }
    return None;
  }

  // ---------------------------------------------------------------------
  // Planets

  ghost predicate PlanetValid(p: JPlanet)
  {
    p.id >= 1 && GasesValid(p.gases)
  }

  ghost predicate PlanetsValid(planets: seq<JPlanet>)
  {
    forall i | 0 <= i < |planets| :: PlanetValid(planets[i])
  }

  /** What the check of an invalid planet reports: its id when that is
      below 1, otherwise an atmosphere error. */
  ghost predicate PlanetErrorOf(p: JPlanet, e: IoError)
  {
    if p.id < 1 then e == InvalidPlanetId(p.id) else GasErrorOf(p.id, p.gases, e)
  }

  /** The error reported for a planet list: that of its first invalid planet. */
  ghost predicate FirstPlanetError(planets: seq<JPlanet>, e: IoError)
  {
    exists i | 0 <= i < |planets| ::
      && PlanetsValid(planets[..i])
      && !PlanetValid(planets[i])
      && PlanetErrorOf(planets[i], e)
  }

  /** The planet loop of io.go:43-74. */
  method CheckPlanets(planets: seq<JPlanet>) returns (err: Option<IoError>)
    ensures err.None? <==> PlanetsValid(planets)
    ensures err.Some? ==> FirstPlanetError(planets, err.value)
  {
    for i := 0 to |planets|
      invariant PlanetsValid(planets[..i])
    {
      var planet := planets[i];
      if planet.id < 1 {
        return Some(InvalidPlanetId(planet.id));
      }
      err := CheckGases(planet.id, planet.gases);
      if err.Some? {
        return err;
      }
      assert planets[..i + 1] == planets[..i] + [planet];
    }
    assert planets[..|planets|] == planets;
    return None;
  }

  // ---------------------------------------------------------------------
  // Species

  /** The species id an entry of a contact, ally or enemy list names:
      "SP" followed by a number from 1 to `maxSpecies`; anything else is
      skipped. */
  function AlienId(a: string, maxSpecies: int): Option<int>
  {
    if !HasPrefix(a, "SP") then None
    else match Atoi(a[2..])
      case None => None
      case Some(id) => if id < 1 || maxSpecies < id then None else Some(id)
  }

  /** The "SPnn" key of a species in range is read back as its id. */
  lemma AlienIdOfSpeciesKey(id: int, maxSpecies: int)
    requires 1 <= id <= maxSpecies && id <= MaxInt64
    ensures AlienId(SpeciesKey(id), maxSpecies) == Some(id)
  {
    AtoiSpeciesKey(id);
  }

  /** AlienId yields only ids from 1 to `maxSpecies`. */
  lemma AlienIdInRange(a: string, maxSpecies: int)
    ensures AlienId(a, maxSpecies).Some? ==> 1 <= AlienId(a, maxSpecies).value <= maxSpecies
  {
  }

  ghost predicate Names(refs: seq<string>, id: int, maxSpecies: int)
  {
    exists j | 0 <= j < |refs| :: AlienId(refs[j], maxSpecies) == Some(id)
  }

  /** `m` after marking every species a list names with `tag`, entries
      taken in list order. */
  function Mark(m: map<int, string>, refs: seq<string>, tag: string, maxSpecies: int): map<int, string>
  {
    if |refs| == 0 then m
    else
      var m1 := Mark(m, refs[..|refs| - 1], tag, maxSpecies);
      match AlienId(refs[|refs| - 1], maxSpecies)
      case None => m1
      case Some(id) => m1[id := tag]
  }

  /** Marking adds exactly the named species, all with the tag, and
      leaves every other entry as it was. */
  lemma {:induction false} MarkContents(m: map<int, string>, refs: seq<string>, tag: string, maxSpecies: int, id: int)
    ensures id in Mark(m, refs, tag, maxSpecies) <==> id in m || Names(refs, id, maxSpecies)
    ensures Names(refs, id, maxSpecies) ==> Mark(m, refs, tag, maxSpecies)[id] == tag
    ensures !Names(refs, id, maxSpecies) && id in m ==> Mark(m, refs, tag, maxSpecies)[id] == m[id]
  {
    if |refs| > 0 {
      MarkContents(m, refs[..|refs| - 1], tag, maxSpecies, id);
      NamesLast(refs, id, maxSpecies);
    }
  }

  /** A list names a species when its front does or its last entry does. */
  lemma NamesLast(refs: seq<string>, id: int, maxSpecies: int)
    requires |refs| > 0
    ensures Names(refs, id, maxSpecies) <==>
      Names(refs[..|refs| - 1], id, maxSpecies) || AlienId(refs[|refs| - 1], maxSpecies) == Some(id)
  {
    var init := refs[..|refs| - 1];
    if Names(init, id, maxSpecies) {
      var j :| 0 <= j < |init| && AlienId(init[j], maxSpecies) == Some(id);
      assert refs[j] == init[j];
    }
    if Names(refs, id, maxSpecies) && AlienId(refs[|refs| - 1], maxSpecies) != Some(id) {
      var j :| 0 <= j < |refs| && AlienId(refs[j], maxSpecies) == Some(id);
      assert init[j] == refs[j];
    }
  }

  /** One of the three list loops of io.go:89-124. */
  method MarkAll(m: map<int, string>, refs: seq<string>, tag: string, maxSpecies: int)
    returns (m': map<int, string>)
    ensures m' == Mark(m, refs, tag, maxSpecies)
  {
    m' := m;
    for i := 0 to |refs|
      invariant m' == Mark(m, refs[..i], tag, maxSpecies)
    {
      var a := refs[i];
      assert refs[..i + 1][..i] == refs[..i];
      if !HasPrefix(a, "SP") {
        continue;
      }
      var id := Atoi(a[2..]);
      if id.None? {
        continue;
      } else if id.value < 1 || maxSpecies < id.value {
        continue;
      }
      m' := m'[id.value := tag];
    }
    assert refs[..|refs|] == refs;
  }

  /** The Aliens map Read builds: contacts are neutral, then allies and
      then enemies overwrite them. */
  function Aliens(sp: JSpecies, maxSpecies: int): map<int, string>
  {
    var contacts := Mark(map[], sp.contacts, "neutral", maxSpecies);
    var allies := Mark(contacts, sp.allies, "ally", maxSpecies);
    Mark(allies, sp.enemies, "enemy", maxSpecies)
  }

  /** A species is in Aliens exactly when one of the three lists names it,
      and an enemy entry beats an ally entry, which beats a contact. */
  lemma AliensContents(sp: JSpecies, maxSpecies: int, id: int)
    ensures id in Aliens(sp, maxSpecies) <==>
      Names(sp.contacts, id, maxSpecies) || Names(sp.allies, id, maxSpecies) || Names(sp.enemies, id, maxSpecies)
    ensures id in Aliens(sp, maxSpecies) ==> 1 <= id <= maxSpecies
    ensures id in Aliens(sp, maxSpecies) ==>
      Aliens(sp, maxSpecies)[id] == (if Names(sp.enemies, id, maxSpecies) then "enemy"
       else if Names(sp.allies, id, maxSpecies) then "ally"
       else "neutral")
  {
    var contacts := Mark(map[], sp.contacts, "neutral", maxSpecies);
    var allies := Mark(contacts, sp.allies, "ally", maxSpecies);
    MarkContents(map[], sp.contacts, "neutral", maxSpecies, id);
    MarkContents(contacts, sp.allies, "ally", maxSpecies, id);
    MarkContents(allies, sp.enemies, "enemy", maxSpecies, id);
    if Names(sp.contacts, id, maxSpecies) {
      var j :| 0 <= j < |sp.contacts| && AlienId(sp.contacts[j], maxSpecies) == Some(id);
      AlienIdInRange(sp.contacts[j], maxSpecies);
    }
    if Names(sp.allies, id, maxSpecies) {
      var j :| 0 <= j < |sp.allies| && AlienId(sp.allies[j], maxSpecies) == Some(id);
      AlienIdInRange(sp.allies[j], maxSpecies);
    }
    if Names(sp.enemies, id, maxSpecies) {
      var j :| 0 <= j < |sp.enemies| && AlienId(sp.enemies[j], maxSpecies) == Some(id);
      AlienIdInRange(sp.enemies[j], maxSpecies);
    }
  }

  predicate SpeciesEntryValid(key: string, sp: JSpecies)
  {
    sp.id >= 1 && key == SpeciesKey(sp.id)
  }

  predicate SpeciesValid(species: map<string, JSpecies>)
  {
    forall key | key in species :: SpeciesEntryValid(key, species[key])
  }

  /** What the check of an invalid species entry reports. */
  predicate SpeciesErrorOf(key: string, sp: JSpecies, e: IoError)
  {
    if sp.id < 1 then e == InvalidSpeciesId(sp.id) else e == InvalidSpeciesKey(key, sp.id)
  }

  /** A species entry once normalised: its key recorded and its Aliens
      map rebuilt. */
  function Normalised(key: string, sp: JSpecies, maxSpecies: int): JSpecies
  {
    sp.(key := key, aliens := Aliens(sp, maxSpecies))
  }

  /** The body of the species loop of io.go:77-125 for one entry. */
  method NormaliseSpecies(key: string, sp: JSpecies, maxSpecies: int) returns (r: Result<JSpecies, IoError>)
    ensures r.Ok? <==> SpeciesEntryValid(key, sp)
    ensures r.Ok? ==> r.value == Normalised(key, sp, maxSpecies)
    ensures r.Err? ==> SpeciesErrorOf(key, sp, r.error)
  {
    if sp.id < 1 {
      return Err(InvalidSpeciesId(sp.id));
    }
    if key != SpeciesKey(sp.id) {
      return Err(InvalidSpeciesKey(key, sp.id));
    }
    var aliens := MarkAll(map[], sp.contacts, "neutral", maxSpecies);
    aliens := MarkAll(aliens, sp.allies, "ally", maxSpecies);
    aliens := MarkAll(aliens, sp.enemies, "enemy", maxSpecies);
    return Ok(sp.(key := key, aliens := aliens));
  }

  /** The whole store once read: every species entry normalised. */
  function NormalisedStore(ds: JStore, maxSpecies: int): JStore
  {
    ds.(species := map key | key in ds.species :: Normalised(key, ds.species[key], maxSpecies))
  }

  /** io.go:33-128 after decoding: the planets are checked in list order,
      then the species in map order. */
  method Read(ds: JStore, maxSpecies: int) returns (r: Result<JStore, IoError>)
    ensures r.Ok? <==> PlanetsValid(ds.planets) && SpeciesValid(ds.species)
    ensures r.Ok? ==> r.value == NormalisedStore(ds, maxSpecies)
    ensures r.Err? && !PlanetsValid(ds.planets) ==> FirstPlanetError(ds.planets, r.error)
    ensures r.Err? && PlanetsValid(ds.planets) ==>
      exists key | key in ds.species :: !SpeciesEntryValid(key, ds.species[key])
        && SpeciesErrorOf(key, ds.species[key], r.error)
  {
    var err := CheckPlanets(ds.planets);
    if err.Some? {
      return Err(err.value);
    }
    var species := ds.species;
    var rest := ds.species.Keys;
    while rest != {}
      invariant rest <= ds.species.Keys && species.Keys == ds.species.Keys
      invariant forall key | key in ds.species.Keys - rest :: SpeciesEntryValid(key, ds.species[key])
      invariant forall key | key in species ::
        species[key] == if key in rest then ds.species[key] else Normalised(key, ds.species[key], maxSpecies)
      decreases rest
    {
      var key :| key in rest;
      var sp := NormaliseSpecies(key, ds.species[key], maxSpecies);
      if sp.Err? {
        return Err(sp.error);
      }
      species := species[key := sp.value];
      rest := rest - {key};
    }
    return Ok(ds.(species := species));
  }

  /** Each normalised entry's Aliens map lists the species its lists name,
      with enemy over ally over neutral. */
  lemma ReadAliens(ds: JStore, maxSpecies: int, key: string, id: int)
    requires key in ds.species
    ensures var sp := NormalisedStore(ds, maxSpecies).species[key];
      && sp.key == key
      && (id in sp.aliens <==>
            Names(sp.contacts, id, maxSpecies) || Names(sp.allies, id, maxSpecies) || Names(sp.enemies, id, maxSpecies))
      && (id in sp.aliens ==> 1 <= id <= maxSpecies)
  {
    AliensContents(ds.species[key], maxSpecies, id);
  }
}
