/** The in-memory records of package store (store/store.go) and the two
    orderings it sorts them by. A System is an object because its planet
    list is appended to after the system is published; everything else is
    a value. */
module StoreTypes {
  import opened Sorting

  datatype Item = Item(code: string, location: string, quantity: int)

  datatype Ship = Ship(
    id: string, code: string, age: int, location: string, capacity: int,
    deepSpace: bool, forcedJump: bool, ftl: bool, hiding: bool, landed: bool,
    maintenanceCost: int, orbiting: bool, maLevel: int, withdrewFromCombat: bool,
    inventory: map<string, Item>)

  datatype TechLevel = TechLevel(value: int)

  datatype Species = Species(
    id: int, name: string, economicUnits: int, techLevels: map<string, TechLevel>)

  class System {
    const id: string
    const x: int
    const y: int
    const z: int
    const empty: bool
    const inventory: map<string, Item>
    var planets: seq<Planet>
    const scanned: int
    const shipyards: int
    const ships: map<string, Ship>
    const visited: bool

    /** A system as the loaders create it: no planets yet, and neither
        inventory nor ships of its own. */
    constructor (id: string, x: int, y: int, z: int, empty: bool, scanned: int, visited: bool)
      ensures this.id == id && this.x == x && this.y == y && this.z == z
      ensures this.empty == empty && this.scanned == scanned && this.visited == visited
      ensures planets == [] && inventory == map[] && ships == map[] && shipyards == 0
    {
      this.id := id;
      this.x := x;
      this.y := y;
      this.z := z;
      this.empty := empty;
      this.inventory := map[];
      this.planets := [];
      this.scanned := scanned;
      this.shipyards := 0;
      this.ships := map[];
      this.visited := visited;
    }

    /** System.Less: compares X, then Y, then Z. */
    predicate Less(s2: System)
    {
      if x < s2.x then true
      else if x == s2.x then
        if y < s2.y then true
        else if y == s2.y then z < s2.z
        else false
      else false
    }

    /** The player marked the system visited without having scanned it. */
    predicate TaggedAsVisited()
    {
      visited && scanned == 0
    }
  }

  datatype Planet = Planet(
    id: string, system: System, orbit: int, name: string, homeWorld: bool,
    availablePopulationUnits: int, economicEfficiency: int, inventory: map<string, Item>,
    lsn: int, miningDifficulty: real, productionPenalty: int, shipyards: int,
    ships: map<string, Ship>)
  {
    /** Planet.Less: compares the system's X, Y and Z, then the orbit. */
    predicate Less(p2: Planet)
    {
      if system.x < p2.system.x then true
      else if system.x == p2.system.x then
        if system.y < p2.system.y then true
        else if system.y == p2.system.y then
          if system.z < p2.system.z then true
          else if system.z == p2.system.z then orbit < p2.orbit
          else false
        else false
      else false
    }
  }

  /** System.Less and Planet.Less as two-argument predicates, the form
      the sorting loops take. */
  predicate SystemLess(s: System, t: System)
  {
    s.Less(t)
  }

  predicate PlanetLess(p: Planet, q: Planet)
  {
    p.Less(q)
  }

  /** The coordinates a system is placed at. */
  function Position(s: System): (int, int, int)
  {
    (s.x, s.y, s.z)
  }

  /** System.Less orders systems by position alone: systems at the same
      position are never Less than each other, and of two systems at
      different positions exactly one is Less than the other. */
  lemma SystemLessByPosition(s: System, t: System)
    ensures Position(s) == Position(t) ==> !s.Less(t) && !t.Less(s)
    ensures Position(s) != Position(t) ==> (s.Less(t) <==> !t.Less(s))
  {
  }

  /** System.Less is a strict weak order on any set of systems. */
  lemma SystemLessIsStrictWeakOrder(on: set<System>)
    ensures StrictWeakOrder(on, SystemLess)
  {
    forall s, t | s in on && t in on
      ensures Position(s) == Position(t) ==> !s.Less(t) && !t.Less(s)
      ensures Position(s) != Position(t) ==> (s.Less(t) <==> !t.Less(s))
    {
      SystemLessByPosition(s, t);
    }
  }

  /** Planet.Less refines System.Less: planets of systems in order are in
      the same order, and within one position the orbit decides. */
  lemma PlanetLessBySystemThenOrbit(p: Planet, q: Planet)
    ensures p.system.Less(q.system) ==> p.Less(q)
    ensures Position(p.system) == Position(q.system) ==> (p.Less(q) <==> p.orbit < q.orbit)
    ensures Position(p.system) != Position(q.system) ==> (p.Less(q) <==> p.system.Less(q.system))
  {
  }

  /** Planet.Less is a strict weak order on any set of planets; planets at
      the same position and orbit are tied. */
  lemma PlanetLessIsStrictWeakOrder(on: set<Planet>)
    ensures StrictWeakOrder(on, PlanetLess)
  {
    forall p, q | p in on && q in on
      ensures Position(p.system) != Position(q.system) ==> (p.Less(q) <==> p.system.Less(q.system))
      ensures Position(p.system) == Position(q.system) ==> (p.Less(q) <==> p.orbit < q.orbit)
    {
      PlanetLessBySystemThenOrbit(p, q);
    }
    forall s, t | s in on && t in on
      ensures Position(s.system) != Position(t.system) ==> (s.system.Less(t.system) <==> !t.system.Less(s.system))
    {
      SystemLessByPosition(s.system, t.system);
    }
  }
}
