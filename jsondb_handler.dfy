/** store/jsondb/handler.go and store/jsondb/species.go: the queries the
    JSON store answers, and the species filter with its two role-gated
    selectors. A nil store is `None`. */
module JsonDbHandler {
  import opened Common
  import opened JsonDbTypes
  import opened Ports

  // ---------------------------------------------------------------------
  // Systems

  /** The inner loop of handler.go:41-46 and :65-70: whether `speciesId`
      is among the visitors, stopping at the first hit. */
  method VisitedBy(visitedBy: seq<string>, speciesId: string) returns (visited: bool)
    ensures visited <==> speciesId in visitedBy
  {
    visited := false;
    for k := 0 to |visitedBy|
      invariant !visited && speciesId !in visitedBy[..k]
    {
      if speciesId == visitedBy[k] {
        visited := true;
        break;
      }
      assert visitedBy[..k + 1] == visitedBy[..k] + [visitedBy[k]];
    }
    assert visited || visitedBy[..|visitedBy|] == visitedBy;
  }

  /** What GetSystems reports for one system to species `spId`. */
  function SystemEntry(s: JSystem, spId: int): (r: SystemResponse)
    ensures r.id == s.id && r.coords == Coords(s.coords.x, s.coords.y, s.coords.z)
    ensures r.visited <==> SpeciesKey(spId) in s.visitedBy
  {
    SystemResponse(s.id, Coords(s.coords.x, s.coords.y, s.coords.z),
      SpeciesKey(spId) in s.visitedBy, SystemLink(s.coords.x, s.coords.y, s.coords.z))
  }

  /** The link of a system entry names the system's position, so two
      entries with equal links are for the same place. */
  lemma SystemLinkIdentifies(s: JSystem, t: JSystem, spId: int)
    requires SystemEntry(s, spId).link == SystemEntry(t, spId).link
    ensures s.coords == t.coords
  {
    var a := CoordsText(s.coords.x, s.coords.y, s.coords.z);
    var b := CoordsText(t.coords.x, t.coords.y, t.coords.z);
    assert "/api/system/" + a == "/api/system/" + b;
    assert a == ("/api/system/" + a)[12..];
    assert b == ("/api/system/" + b)[12..];
    CoordsTextInjective(s.coords.x, s.coords.y, s.coords.z, t.coords.x, t.coords.y, t.coords.z);
  }

  /** The first system whose key is `key`. */
  ghost predicate FirstWithKey(systems: seq<JSystem>, key: string, i: int)
  {
    0 <= i < |systems| && systems[i].key == key && forall j | 0 <= j < i :: systems[j].key != key
  }

  /** handler.go:30-51: the first system with the key, whether species
      `spId` visited it, and no link. */
  method GetSystem(ds: Option<JStore>, id: string, spId: int) returns (r: Result<SystemResponse, StoreError>)
    ensures ds.None? ==> r == Err(InternalError)
    ensures ds.Some? ==> (r.Ok? <==> exists i | 0 <= i < |ds.value.systems| :: ds.value.systems[i].key == id)
    ensures ds.Some? && r.Err? ==> r.error == NotFound
    ensures r.Ok? ==> exists i :: (FirstWithKey(ds.value.systems, id, i)
      && r.value == SystemEntry(ds.value.systems[i], spId).(link := ""))
  {
    if ds.None? {
      return Err(InternalError);
    }
    var systems := ds.value.systems;
    var speciesId := SpeciesKey(spId);
    for i := 0 to |systems|
      invariant forall j | 0 <= j < i :: systems[j].key != id
    {
      var v := systems[i];
      if id == v.key {
        var visited := VisitedBy(v.visitedBy, speciesId);
        assert FirstWithKey(systems, id, i);
        return Ok(SystemResponse(v.id, Coords(v.coords.x, v.coords.y, v.coords.z), visited, ""));
      }
    }
    return Err(NotFound);
  }

  /** handler.go:53-77: one entry per system in list order; with no
      systems, a list holding a single nil. */
  method GetSystems(ds: Option<JStore>, spId: int) returns (r: Result<seq<Option<SystemResponse>>, StoreError>)
    ensures ds.None? ==> r == Err(InternalError)
    ensures ds.Some? ==> r.Ok?
    ensures ds.Some? && |ds.value.systems| == 0 ==> r.value == [None]
    ensures ds.Some? && |ds.value.systems| > 0 ==>
      |r.value| == |ds.value.systems|
      && forall i | 0 <= i < |r.value| :: r.value[i] == Some(SystemEntry(ds.value.systems[i], spId))
  {
    if ds.None? {
      return Err(InternalError);
    }
    var speciesId := SpeciesKey(spId);
    var all := ds.value.systems;
    var systems: seq<Option<SystemResponse>> := [];
    for i := 0 to |all|
      invariant |systems| == i
      invariant forall j | 0 <= j < i :: systems[j] == Some(SystemEntry(all[j], spId))
    {
      var v := all[i];
      var visited := VisitedBy(v.visitedBy, speciesId);
      var system := SystemResponse(v.id, Coords(v.coords.x, v.coords.y, v.coords.z), visited,
        SystemLink(v.coords.x, v.coords.y, v.coords.z));
      systems := systems + [Some(system)];
    }
    if |systems| == 0 {
      return Ok([None]);
    }
    return Ok(systems);
  }

  // ---------------------------------------------------------------------
  // Turn, user, version

  /** handler.go:79-86. */
  function GetTurnNumber(ds: Option<JStore>): (r: Result<TurnNumberResponse, StoreError>)
    ensures r.Err? <==> ds.None?
    ensures r.Err? ==> r.error == InternalError
    ensures r.Ok? ==> r.value.turnNumber == ds.value.turnNumber
  {
    if ds.None? then Err(InternalError) else Ok(TurnNumberResponse(ds.value.turnNumber))
  }

  /** handler.go:102-109. */
  function GetVersion(ds: Option<JStore>): (r: Result<VersionResponse, StoreError>)
    ensures r.Err? <==> ds.None?
    ensures r.Err? ==> r.error == InternalError
    ensures r.Ok? ==> r.value.version == ds.value.version
  {
    if ds.None? then Err(InternalError) else Ok(VersionResponse(ds.value.version))
  }

  /** handler.go:88-100: a search of the species map, in map order, for
      one with the id. */
  method GetUser(ds: Option<JStore>, spId: int) returns (r: Result<UserResponse, StoreError>)
    ensures ds.None? ==> r == Err(InternalError)
    ensures ds.Some? ==> (r.Ok? <==> exists key | key in ds.value.species :: ds.value.species[key].id == spId)
    ensures ds.Some? && r.Err? ==> r.error == NotFound
    ensures r.Ok? ==> r.value == UserResponse(spId)
  {
    if ds.None? {
      return Err(InternalError);
    }
    var species := ds.value.species;
    var rest := species.Keys;
    while rest != {}
      invariant rest <= species.Keys
      invariant forall key | key in species.Keys - rest :: species[key].id != spId
      decreases rest
    {
      var key :| key in rest;
      var sp := species[key];
      if spId == sp.id {
        return Ok(UserResponse(sp.id));
      }
      rest := rest - {key};
    }
    return Err(NotFound);
  }

  // ---------------------------------------------------------------------
  // species.go

  /** species.go:49-51: species are ordered by key. */
  predicate SpeciesLess(sp: JSpecies, sp2: JSpecies)
  {
    StrLess(sp.key, sp2.key)
  }

  /** SpeciesLess is a strict order, total on species with distinct keys. */
  lemma SpeciesLessIsStrictOrder(a: JSpecies, b: JSpecies, c: JSpecies)
    ensures !SpeciesLess(a, a)
    ensures SpeciesLess(a, b) && SpeciesLess(b, c) ==> SpeciesLess(a, c)
    ensures SpeciesLess(a, b) ==> !SpeciesLess(b, a)
    ensures a.key != b.key ==> SpeciesLess(a, b) || SpeciesLess(b, a)
  {
    StrLessIrreflexive(a.key);
    if SpeciesLess(a, b) && SpeciesLess(b, c) {
      StrLessTransitive(a.key, b.key, c.key);
    }
    if SpeciesLess(a, b) && SpeciesLess(b, a) {
      StrLessTransitive(a.key, b.key, a.key);
    }
    if a.key != b.key {
      StrLessTotal(a.key, b.key);
    }
  }

  /** Go's lookup of a missing role yields false. */
  function Role(roles: map<string, bool>, key: string): bool
  {
    key in roles && roles[key]
  }

  /** The closure xSpeciesById builds (species.go:53-62): the first listed
      id equal to the species' gives the species' own role. */
  function SpeciesById(roles: map<string, bool>, ids: seq<int>, sp: JSpecies): (r: bool)
    ensures r <==> sp.id in ids && Role(roles, sp.key)
  {
    if |ids| == 0 then false
    else if ids[0] == sp.id then Role(roles, sp.key)
    else
      var r := SpeciesById(roles, ids[1..], sp);
      assert sp.id in ids <==> sp.id in ids[1..] by {
        assert ids == [ids[0]] + ids[1..];
      }
      r
  }

  /** The closure xSpeciesByName builds (species.go:64-73): the role is
      looked up by the "SPnn" form of the id, not by the stored key. */
  function SpeciesByName(roles: map<string, bool>, names: seq<string>, sp: JSpecies): (r: bool)
    ensures r <==> sp.name in names && Role(roles, SpeciesKey(sp.id))
  {
    if |names| == 0 then false
    else if names[0] == sp.name then Role(roles, SpeciesKey(sp.id))
    else
      var r := SpeciesByName(roles, names[1..], sp);
      assert sp.name in names <==> sp.name in names[1..] by {
        assert names == [names[0]] + names[1..];
      }
      r
  }

  /** The species under `keys` that satisfy `fn`, counted with repetition. */
  ghost function Matching(species: map<string, JSpecies>, keys: set<string>, fn: JSpecies -> bool): multiset<JSpecies>
    requires keys <= species.Keys
    decreases keys
  {
    if keys == {} then multiset{}
    else
      var k := Pick(keys);
      (if fn(species[k]) then multiset{species[k]} else multiset{}) + Matching(species, keys - {k}, fn)
  }

  lemma {:induction false} MatchingRemove(species: map<string, JSpecies>, keys: set<string>, fn: JSpecies -> bool, k: string)
    requires keys <= species.Keys && k in keys
    ensures Matching(species, keys, fn) ==
      (if fn(species[k]) then multiset{species[k]} else multiset{}) + Matching(species, keys - {k}, fn)
    decreases keys
  {
    var p := Pick(keys);
    if p != k {
      MatchingRemove(species, keys - {p}, fn, k);
      MatchingRemove(species, keys - {k}, fn, p);
      assert keys - {p} - {k} == keys - {k} - {p};
    }
  }

  /** A species is among the matches exactly when some key holds it and
      it satisfies `fn`. */
  lemma {:induction false} MatchingMembers(species: map<string, JSpecies>, keys: set<string>, fn: JSpecies -> bool, sp: JSpecies)
    requires keys <= species.Keys
    ensures sp in Matching(species, keys, fn) <==> fn(sp) && exists k | k in keys :: species[k] == sp
    decreases keys
  {
    if keys != {} {
      var k := Pick(keys);
      MatchingMembers(species, keys - {k}, fn, sp);
      if fn(sp) && (exists j | j in keys :: species[j] == sp) && species[k] != sp {
        var j :| j in keys && species[j] == sp;
        assert j in keys - {k};
      }
    }
  }

  /** species.go:29-47: the species that satisfy `fn`, in map order. The
      nested loop that follows compares names and does nothing. */
  method FilterSpecies(ds: JStore, fn: JSpecies -> bool) returns (result: seq<JSpecies>)
    ensures multiset(result) == Matching(ds.species, ds.species.Keys, fn)
  {
    result := [];
    var done: set<string> := {};
    var rest := ds.species.Keys;
    while rest != {}
      invariant rest <= ds.species.Keys && done == ds.species.Keys - rest
      invariant multiset(result) == Matching(ds.species, done, fn)
      decreases rest
    {
      var key :| key in rest;
      var s := ds.species[key];
      MatchingRemove(ds.species, done + {key}, fn, key);
      assert done + {key} - {key} == done;
      if fn(s) {
        result := result + [s];
      }
      done := done + {key};
      rest := rest - {key};
    }
    assert done == ds.species.Keys;
    for i := 0 to |result| {
      for j := i + 1 to |result| {
        if StrLess(result[j].name, result[i].name) {
        }
      }
    }
  }

  /** Filtering by ids keeps exactly the listed species whose own key is
      a granted role. */
  lemma FilterByIdSelects(ds: JStore, roles: map<string, bool>, ids: seq<int>, sp: JSpecies)
    ensures sp in Matching(ds.species, ds.species.Keys, s => SpeciesById(roles, ids, s)) <==>
      sp.id in ids && Role(roles, sp.key) && sp in ds.species.Values
  {
    MatchingMembers(ds.species, ds.species.Keys, s => SpeciesById(roles, ids, s), sp);
  }

  /** Filtering by names keeps exactly the named species whose "SPnn"
      role is granted. */
  lemma FilterByNameSelects(ds: JStore, roles: map<string, bool>, names: seq<string>, sp: JSpecies)
    ensures sp in Matching(ds.species, ds.species.Keys, s => SpeciesByName(roles, names, s)) <==>
      sp.name in names && Role(roles, SpeciesKey(sp.id)) && sp in ds.species.Values
  {
    MatchingMembers(ds.species, ds.species.Keys, s => SpeciesByName(roles, names, s), sp);
  }
}
