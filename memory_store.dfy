/** The getters of store/memory/store.go over the store that Read
    (memory_read.dfy) fills. A nil *Store is `ds == null`. The species
    loops of GetKnownSpecies and GetUser read `v.Id` of every slot they
    reach, and slot 0 of the species array is always nil after a Read, so
    each is modelled twice: as written, where reaching a nil slot is a
    run-time panic, and with the nil slots skipped. */
module MemoryStore {
  import opened Common
  import opened JsonDbTypes
  import opened MemoryRead
  import opened Ports

  /** What a getter does as written: it returns, or it dereferences a nil
      species pointer, which panics. */
  datatype Outcome<T> = Returned(result: Result<T, StoreError>) | NilDereference

  /** ports.SystemResponse with the string id a memory-store system
      carries. store.go puts System.Id, a string, into the int Id field;
      the model keeps the string. */
  datatype KeyedSystemResponse = KeyedSystemResponse(id: string, coords: Coords, visited: bool, link: string)

  // ---------------------------------------------------------------------
  // The species array

  /** Every species in the array sits at the slot of its id. */
  ghost predicate Slotted(a: seq<Species?>)
  {
    forall k | 0 <= k < |a| && a[k] != null :: a[k].id == k
  }

  /** A Read leaves slot 0 empty and every species at the slot of its id;
      a slot is filled exactly when some entry of the file has its id. */
  lemma SpeciesSlots(ds: Store, jdb: JStore)
    requires ds.SpeciesRead(jdb)
    ensures ds.species.Length >= 1 && ds.species[0] == null
    ensures Slotted(ds.species[..])
    ensures forall k | 0 <= k < ds.species.Length ::
      ds.species[k] != null <==> exists key | key in jdb.species :: jdb.species[key].id == k
  {
    var a := ds.species[..];
    assert SpeciesPlacedAt(a, jdb.species, jdb.species.Keys, 0);
    forall k | 0 <= k < |a| && a[k] != null
      ensures a[k].id == k
    {
      assert SpeciesPlacedAt(a, jdb.species, jdb.species.Keys, k);
      var key :| key in jdb.species && jdb.species[key].id == k && SpeciesFrom(a[k], jdb.species[key], |a| - 1);
    }
    forall k | 0 <= k < ds.species.Length
      ensures ds.species[k] != null <==> exists key | key in jdb.species :: jdb.species[key].id == k
    {
      assert SpeciesPlacedAt(a, jdb.species, jdb.species.Keys, k);
    }
  }

  // ---------------------------------------------------------------------
  // GetKnownSpecies

  /** The guard of store.go:45-49: no roles, or a caller id outside the
      array. */
  predicate KnownSpeciesDenied(n: int, id: int, roles: map<string, bool>)
  {
    |roles| == 0 || id < 1 || id >= n
  }

  /** Whether store.go:51-62 reports slot value `v`: a species other
      than the caller whose "SPnn" key is among the roles (present,
      whatever its value). */
  predicate Reported(v: Species?, id: int, roles: map<string, bool>)
  {
    v != null && v.id != id && SpeciesKey(v.id) in roles
  }

  /** The species store.go:51-62 reports, in array order. */
  function Known(a: seq<Species?>, id: int, roles: map<string, bool>): seq<KnownSpeciesResponse>
  {
    if |a| == 0 then []
    else
      var v := a[|a| - 1];
      Known(a[..|a| - 1], id, roles) + (if Reported(v, id, roles) then [KnownSpeciesResponse(v.id)] else [])
  }

  /** An id is reported exactly when some filled slot has it, it is not
      the caller's and its role key is present. */
  lemma KnownMembers(a: seq<Species?>, id: int, roles: map<string, bool>, x: int)
    ensures KnownSpeciesResponse(x) in Known(a, id, roles) <==>
      x != id && SpeciesKey(x) in roles && exists k | 0 <= k < |a| :: a[k] != null && a[k].id == x
  {
    KnownReported(a, id, roles, x);
    if exists k | 0 <= k < |a| :: a[k] != null && a[k].id == x {
      var k :| 0 <= k < |a| && a[k] != null && a[k].id == x;
      assert x != id && SpeciesKey(x) in roles ==> Reported(a[k], id, roles);
    }
  }

  lemma {:induction false} KnownReported(a: seq<Species?>, id: int, roles: map<string, bool>, x: int)
    ensures KnownSpeciesResponse(x) in Known(a, id, roles) <==>
      exists k | 0 <= k < |a| :: Reported(a[k], id, roles) && a[k].id == x
  {
    if |a| > 0 {
      var init := a[..|a| - 1];
      var v := a[|a| - 1];
      KnownReported(init, id, roles, x);
      assert forall k | 0 <= k < |init| :: init[k] == a[k];
      if KnownSpeciesResponse(x) in Known(a, id, roles) && KnownSpeciesResponse(x) !in Known(init, id, roles) {
        assert Reported(a[|a| - 1], id, roles) && a[|a| - 1].id == x;
      }
    }
  }

  /** Over an array where each species sits at its id, the report is in
      strictly increasing id order, so no species is reported twice. */
  lemma {:induction false} KnownIncreasing(a: seq<Species?>, id: int, roles: map<string, bool>)
    requires Slotted(a)
    ensures forall i | 0 <= i < |Known(a, id, roles)| :: 0 <= Known(a, id, roles)[i].id < |a|
    ensures forall i, j | 0 <= i < j < |Known(a, id, roles)| :: Known(a, id, roles)[i].id < Known(a, id, roles)[j].id
  {
    if |a| > 0 {
      var init := a[..|a| - 1];
      assert Slotted(init) by {
        forall k | 0 <= k < |init| && init[k] != null
          ensures init[k].id == k
        {
          assert init[k] == a[k];
        }
      }
      KnownIncreasing(init, id, roles);
    }
  }

  /** store.go:42-66 as written: the loop reads v.Id of every slot. */
  method GetKnownSpeciesAsWritten(ds: Store?, id: int, roles: map<string, bool>)
    returns (o: Outcome<seq<KnownSpeciesResponse>>)
    ensures ds == null ==> o == Returned(Err(InternalError))
    ensures ds != null && KnownSpeciesDenied(ds.species.Length, id, roles) ==> o == Returned(Err(Unauthorized))
    ensures ds != null && !KnownSpeciesDenied(ds.species.Length, id, roles) ==>
      (o == NilDereference <==> exists k | 0 <= k < ds.species.Length :: ds.species[k] == null)
    ensures ds != null && !KnownSpeciesDenied(ds.species.Length, id, roles) && o.Returned? ==>
      o.result == Ok(Known(ds.species[..], id, roles))
  {
    if ds == null {
      return Returned(Err(InternalError));
    } else if KnownSpeciesDenied(ds.species.Length, id, roles) {
      return Returned(Err(Unauthorized));
    }
    var results: seq<KnownSpeciesResponse> := [];
    for k := 0 to ds.species.Length
      invariant forall j | 0 <= j < k :: ds.species[j] != null
      invariant results == Known(ds.species[..k], id, roles)
    {
      var v := ds.species[k];
      if v == null {
        return NilDereference;
      }
      assert ds.species[..k + 1][..k] == ds.species[..k];
      if id == v.id {
        continue;
      } else if SpeciesKey(v.id) !in roles {
        continue;
      }
      assert Reported(v, id, roles);
      results := results + [KnownSpeciesResponse(v.id)];
    }
    assert ds.species[..ds.species.Length] == ds.species[..];
    return Returned(Ok(results));
  }

  /** GetKnownSpecies with the nil slots skipped. After a Read the result
      lists, in increasing id order, every other species whose role key
      is present. */
  method GetKnownSpecies(ds: Store?, id: int, roles: map<string, bool>)
    returns (r: Result<seq<KnownSpeciesResponse>, StoreError>)
    ensures ds == null ==> r == Err(InternalError)
    ensures ds != null && KnownSpeciesDenied(ds.species.Length, id, roles) ==> r == Err(Unauthorized)
    ensures ds != null && !KnownSpeciesDenied(ds.species.Length, id, roles) ==>
      r == Ok(Known(ds.species[..], id, roles))
  {
    if ds == null {
      return Err(InternalError);
    } else if KnownSpeciesDenied(ds.species.Length, id, roles) {
      return Err(Unauthorized);
    }
    var results: seq<KnownSpeciesResponse> := [];
    for k := 0 to ds.species.Length
      invariant results == Known(ds.species[..k], id, roles)
    {
      var v := ds.species[k];
      assert ds.species[..k + 1][..k] == ds.species[..k];
      if v == null {
        continue;
      } else if id == v.id {
        continue;
      } else if SpeciesKey(v.id) !in roles {
        continue;
      }
      assert Reported(v, id, roles);
      results := results + [KnownSpeciesResponse(v.id)];
    }
    assert ds.species[..ds.species.Length] == ds.species[..];
    return Ok(results);
  }

  /** After a Read the as-written GetKnownSpecies panics on every call
      that passes its guard, because slot 0 is nil. */
  lemma KnownSpeciesAsWrittenPanics(ds: Store, jdb: JStore)
    requires ds.SpeciesRead(jdb)
    ensures exists k | 0 <= k < ds.species.Length :: ds.species[k] == null
  {
    SpeciesSlots(ds, jdb);
  }

  // ---------------------------------------------------------------------
  // GetSpecies

  /** The guards of store.go:71-77: no roles, no role for the id, or an id
      outside the array. */
  predicate SpeciesDenied(n: int, id: int, roles: map<string, bool>)
  {
    |roles| == 0 || SpeciesKey(id) !in roles || id < 1 || id >= n
  }

  /** store.go:68-86. */
  function GetSpecies(ds: Store?, id: int, roles: map<string, bool>): (r: Result<SpeciesResponse, StoreError>)
    reads ds, if ds == null then {} else {ds.species}
    ensures (r == Err(InternalError)) <==> ds == null
    ensures ds != null ==> (r == Err(Unauthorized) <==> SpeciesDenied(ds.species.Length, id, roles))
    ensures (r == Err(NotFound)) <==>
      ds != null && !SpeciesDenied(ds.species.Length, id, roles) && ds.species[id] == null
  {
    if ds == null then Err(InternalError)
    else if |roles| == 0 then Err(Unauthorized)
    else if SpeciesKey(id) !in roles then Err(Unauthorized)
    else if id < 1 || !(id < ds.species.Length) then Err(Unauthorized)
    else
      var sp := ds.species[id];
      if sp == null then Err(NotFound) else Ok(SpeciesResponse(sp.id))
  }

  /** After a Read, an authorised request finds the species exactly when
      the file has one with that id, and the answer carries the requested
      id. */
  lemma GetSpeciesAfterRead(ds: Store, jdb: JStore, id: int, roles: map<string, bool>)
    requires ds.SpeciesRead(jdb)
    requires !SpeciesDenied(ds.species.Length, id, roles)
    ensures GetSpecies(ds, id, roles).Ok? <==> exists key | key in jdb.species :: jdb.species[key].id == id
    ensures GetSpecies(ds, id, roles).Ok? ==> GetSpecies(ds, id, roles).value == SpeciesResponse(id)
  {
    SpeciesSlots(ds, jdb);
  }

  // ---------------------------------------------------------------------
  // GetSystem and GetSystems

  /** The response for one stored system: its id and position, with the
      link that names the position. */
  function Listing(s: System): KeyedSystemResponse
  {
    KeyedSystemResponse(s.id, Coords(s.coords.x, s.coords.y, s.coords.z), false,
                        SystemLink(s.coords.x, s.coords.y, s.coords.z))
  }

  /** store.go:88-101: the system stored under the key. Link and Visited
      are left unset. */
  function GetSystem(ds: Store?, id: string, spId: int): (r: Result<KeyedSystemResponse, StoreError>)
    reads ds
    ensures (r == Err(InternalError)) <==> ds == null
    ensures (r == Err(NotFound)) <==> ds != null && id !in ds.systems
    ensures r.Ok? ==> r.value.coords == Listing(ds.systems[id]).coords && r.value.id == ds.systems[id].id
  {
    if ds == null then Err(InternalError)
    else if id !in ds.systems then Err(NotFound)
    else
      var system := ds.systems[id];
      Ok(KeyedSystemResponse(system.id, Coords(system.coords.x, system.coords.y, system.coords.z), false, ""))
  }

  /** Each stored system is filed under its own id. */
  lemma {:induction false} TableKeyedById(objs: seq<System>)
    ensures forall key | key in SystemTable(objs) :: SystemTable(objs)[key].id == key
  {
    if |objs| > 0 {
      TableKeyedById(objs[..|objs| - 1]);
    }
  }

  /** After a Read, the id of a system listed in the file finds a system
      at that system's position (the last one listed there), and answers
      with that id. */
  lemma GetSystemAfterRead(ds: Store, jdb: JStore, objs: seq<System>, js: JSystem, spId: int)
    requires ds.SystemsRead(jdb, objs)
    requires js in jdb.systems
    ensures GetSystem(ds, SystemId(js), spId) ==
      Ok(KeyedSystemResponse(SystemId(js), Coords(js.coords.x, js.coords.y, js.coords.z), false, ""))
  {
    var key := SystemId(js);
    var n := |jdb.systems|;
    assert jdb.systems[..n] == jdb.systems;
    var i0 :| 0 <= i0 < n && jdb.systems[i0] == js;
    assert SystemMade(objs[i0], jdb.systems[i0], jdb.planets, ds.planets);
    SystemTableContents(objs, key);
    var i :| 0 <= i < |objs| && objs[i].id == key && SystemTable(objs)[key] == objs[i];
    assert SystemMade(objs[i], jdb.systems[i], jdb.planets, ds.planets);
    SystemIdsMatchPositions(jdb.systems[i], js);
  }

  /** After a Read, a key that is no system's id is not found. */
  lemma GetSystemMissAfterRead(ds: Store, jdb: JStore, objs: seq<System>, id: string, spId: int)
    requires ds.SystemsRead(jdb, objs)
    requires forall js | js in jdb.systems :: SystemId(js) != id
    ensures GetSystem(ds, id, spId) == Err(NotFound)
  {
    var n := |jdb.systems|;
    assert jdb.systems[..n] == jdb.systems;
    forall i | 0 <= i < |objs|
      ensures objs[i].id != id
    {
      assert SystemMade(objs[i], jdb.systems[i], jdb.planets, ds.planets);
      assert jdb.systems[i] in jdb.systems;
    }
    SystemTableContents(objs, id);
  }

  /** The listings of the systems under `keys`, as a multiset: the loop
      of store.go:109-122 adds them in map order. */
  ghost function Listed(m: map<string, System>, keys: set<string>): multiset<Option<KeyedSystemResponse>>
    requires keys <= m.Keys
    decreases keys
  {
    if keys == {} then multiset{}
    else
      var k := Pick(keys);
      multiset{Some(Listing(m[k]))} + Listed(m, keys - {k})
  }

  lemma {:induction false} ListedRemove(m: map<string, System>, keys: set<string>, k: string)
    requires keys <= m.Keys && k in keys
    ensures Listed(m, keys) == multiset{Some(Listing(m[k]))} + Listed(m, keys - {k})
    decreases keys
  {
    var p := Pick(keys);
    if p != k {
      ListedRemove(m, keys - {p}, k);
      assert keys - {p} - {k} == keys - {k} - {p};
      ListedRemove(m, keys - {k}, p);
    }
  }

  /** One listing per key, and every listing is one of a stored system. */
  lemma {:induction false} ListedMembers(m: map<string, System>, keys: set<string>)
    requires keys <= m.Keys
    ensures |Listed(m, keys)| == |keys|
    ensures forall x | x in Listed(m, keys) :: exists k | k in keys :: x == Some(Listing(m[k]))
    ensures forall k | k in keys :: Some(Listing(m[k])) in Listed(m, keys)
    decreases keys
  {
    if keys != {} {
      var p := Pick(keys);
      ListedMembers(m, keys - {p});
      forall k | k in keys
        ensures Some(Listing(m[k])) in Listed(m, keys)
      {
        ListedRemove(m, keys, k);
      }
    }
  }

  /** store.go:103-127: one listing per stored system, in map order; an
      empty map gives a list holding one nil. Visited is never set. */
  method GetSystems(ds: Store?, spId: int) returns (r: Result<seq<Option<KeyedSystemResponse>>, StoreError>)
    ensures ds == null ==> r == Err(InternalError)
    ensures ds != null ==> r.Ok?
    ensures ds != null && |ds.systems| == 0 ==> r.value == [None]
    ensures ds != null && |ds.systems| > 0 ==> multiset(r.value) == Listed(ds.systems, ds.systems.Keys)
  {
    if ds == null {
      return Err(InternalError);
    }
    var all := ds.systems;
    var systems: seq<Option<KeyedSystemResponse>> := [];
    var rest := all.Keys;
    while rest != {}
      invariant rest <= all.Keys
      invariant multiset(systems) + Listed(all, rest) == Listed(all, all.Keys)
      decreases rest
    {
      var k :| k in rest;
      var v := all[k];
      ListedRemove(all, rest, k);
      var system := KeyedSystemResponse(v.id, Coords(v.coords.x, v.coords.y, v.coords.z), false,
                                        SystemLink(v.coords.x, v.coords.y, v.coords.z));
      systems := systems + [Some(system)];
      rest := rest - {k};
    }
    if |systems| == 0 {
      ListedMembers(all, all.Keys);
      return Ok([None]);
    }
    return Ok(systems);
  }

  /** After a Read, GetSystems lists each stored system once, under the
      id it is filed by. */
  lemma GetSystemsListsTable(ds: Store, jdb: JStore, objs: seq<System>, x: KeyedSystemResponse)
    requires ds.SystemsRead(jdb, objs)
    ensures |Listed(ds.systems, ds.systems.Keys)| == |ds.systems|
    ensures Some(x) in Listed(ds.systems, ds.systems.Keys) <==> x.id in ds.systems && x == Listing(ds.systems[x.id])
  {
    ListedMembers(ds.systems, ds.systems.Keys);
    TableKeyedById(objs);
  }

  // ---------------------------------------------------------------------
  // GetTurnNumber, GetUser, GetVersion

  /** store.go:129-136. Read never sets the turn number, so after a Read
      this reports the value the store had before (0 for a new store). */
  function GetTurnNumber(ds: Store?): (r: Result<TurnNumberResponse, StoreError>)
    reads ds
    ensures r.Err? <==> ds == null
    ensures r.Err? ==> r.error == InternalError
    ensures r.Ok? ==> r.value.turnNumber == ds.turnNumber
  {
    if ds == null then Err(InternalError) else Ok(TurnNumberResponse(ds.turnNumber))
  }

  /** store.go:152-159. */
  function GetVersion(ds: Store?): (r: Result<VersionResponse, StoreError>)
    reads ds
    ensures r.Err? <==> ds == null
    ensures r.Err? ==> r.error == InternalError
    ensures r.Ok? ==> r.value.version == ds.version
  {
    if ds == null then Err(InternalError) else Ok(VersionResponse(ds.version))
  }

  /** The loop stops at slot k: it is nil, or holds the user, and no
      earlier slot did either. */
  ghost predicate StopsAt(a: seq<Species?>, spId: int, k: int)
  {
    && 0 <= k < |a|
    && (a[k] == null || a[k].id == spId)
    && forall j | 0 <= j < k :: a[j] != null && a[j].id != spId
  }

  /** store.go:138-150 as written: the loop reads sp.Id of every slot it
      reaches. */
  method GetUserAsWritten(ds: Store?, spId: int) returns (o: Outcome<UserResponse>)
    ensures ds == null ==> o == Returned(Err(InternalError))
    ensures ds != null ==>
      (o == NilDereference <==> exists k :: StopsAt(ds.species[..], spId, k) && ds.species[k] == null)
    ensures ds != null ==>
      (o == Returned(Ok(UserResponse(spId))) <==> exists k :: StopsAt(ds.species[..], spId, k) && ds.species[k] != null)
    ensures ds != null ==>
      (o == Returned(Err(NotFound)) <==> forall k | 0 <= k < ds.species.Length :: ds.species[k] != null && ds.species[k].id != spId)
  {
    if ds == null {
      return Returned(Err(InternalError));
    }
    for k := 0 to ds.species.Length
      invariant forall j | 0 <= j < k :: ds.species[j] != null && ds.species[j].id != spId
    {
      var sp := ds.species[k];
      if sp == null {
        assert StopsAt(ds.species[..], spId, k);
        return NilDereference;
      }
      if spId == sp.id {
        assert StopsAt(ds.species[..], spId, k);
        return Returned(Ok(UserResponse(sp.id)));
      }
    }
    return Returned(Err(NotFound));
  }

  /** After a Read the as-written GetUser panics on every call: the loop
      stops at slot 0, which is nil. */
  lemma UserAsWrittenPanics(ds: Store, jdb: JStore, spId: int)
    requires ds.SpeciesRead(jdb)
    ensures StopsAt(ds.species[..], spId, 0) && ds.species[0] == null
  {
    SpeciesSlots(ds, jdb);
  }

  /** GetUser with the nil slots skipped. */
  method GetUser(ds: Store?, spId: int) returns (r: Result<UserResponse, StoreError>)
    ensures ds == null ==> r == Err(InternalError)
    ensures ds != null ==>
      (r.Ok? <==> exists k | 0 <= k < ds.species.Length :: ds.species[k] != null && ds.species[k].id == spId)
    ensures ds != null && r.Err? ==> r.error == NotFound
    ensures r.Ok? ==> r.value == UserResponse(spId)
  {
    if ds == null {
      return Err(InternalError);
    }
    for k := 0 to ds.species.Length
      invariant forall j | 0 <= j < k :: ds.species[j] == null || ds.species[j].id != spId
    {
      var sp := ds.species[k];
      if sp != null && spId == sp.id {
        return Ok(UserResponse(sp.id));
      }
    }
    return Err(NotFound);
  }

  /** After a Read, a user is found exactly when the file has a species
      with that id. */
  lemma UserFoundAfterRead(ds: Store, jdb: JStore, spId: int)
    requires ds.SpeciesRead(jdb)
    ensures (exists k | 0 <= k < ds.species.Length :: ds.species[k] != null && ds.species[k].id == spId)
      <==> exists key | key in jdb.species :: jdb.species[key].id == spId
  {
    SpeciesSlots(ds, jdb);
    if exists key | key in jdb.species :: jdb.species[key].id == spId {
      var key :| key in jdb.species && jdb.species[key].id == spId;
      assert 1 <= spId < ds.species.Length;
      assert ds.species[spId] != null;
    }
  }
}
