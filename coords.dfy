/** The location record of package memory (store/memory/coords.go) and
    its sort comparison, whose X test compares c.X with itself. */
module MemoryCoords {
  import opened Sorting

  datatype Coords = Coords(x: int, y: int, z: int, orbit: int)
  {
    /** Coords.Less as written: after `c.X < t.X` fails, the next test is
        `c.X == c.X`, which always holds, so Y, Z and Orbit decide even
        when c.X > t.X. */
    predicate Less(t: Coords)
    {
      if x < t.x then true
      else if x == x then
        if y < t.y then true
        else if y == t.y then
          if z < t.z then true
          else if z == t.z then orbit < t.orbit
          else false
        else false
      else false
    }

    /** The comparison its comment describes: X, then Y, then Z, then
        Orbit. */
    predicate LessCorrected(t: Coords)
    {
      if x < t.x then true
      else if x == t.x then
        if y < t.y then true
        else if y == t.y then
          if z < t.z then true
          else if z == t.z then orbit < t.orbit
          else false
        else false
      else false
    }
  }

  /** Lexicographic comparison of the last three components. */
  predicate TailLess(c: Coords, t: Coords)
  {
    c.y < t.y || (c.y == t.y && (c.z < t.z || (c.z == t.z && c.orbit < t.orbit)))
  }

  /** What Less computes: a smaller X wins outright, and otherwise, whatever
      the X values, Y, Z and Orbit decide. A smaller X suffices, equal X
      falls through to the tail, and no coordinates are Less than
      themselves. */
  lemma LessAsWritten(c: Coords, t: Coords)
    ensures c.Less(t) <==> c.x < t.x || TailLess(c, t)
    ensures c.x < t.x ==> c.Less(t)
    ensures c.x == t.x ==> (c.Less(t) <==> TailLess(c, t))
    ensures !c.Less(c)
  {
  }

  /** coords.go:35 as written: each of (2,0,0,0) and (1,1,0,0) is Less than
      the other, so Less is not asymmetric and cannot sort. */
  lemma LessNotAsymmetric()
    ensures Coords(2, 0, 0, 0).Less(Coords(1, 1, 0, 0))
    ensures Coords(1, 1, 0, 0).Less(Coords(2, 0, 0, 0))
  {
  }

  /** The corrected comparison is lexicographic on all four components:
      two coordinates are tied exactly when they are equal, and of two
      different ones exactly one is Less than the other. */
  lemma LessCorrectedIsLexicographic(c: Coords, t: Coords)
    ensures c.LessCorrected(t) <==> c.x < t.x || (c.x == t.x && TailLess(c, t))
    ensures c == t ==> !c.LessCorrected(t)
    ensures c != t ==> (c.LessCorrected(t) <==> !t.LessCorrected(c))
  {
  }

  /** The corrected comparison is a strict total order, hence a strict weak
      order, on any set of coordinates. */
  lemma LessCorrectedIsStrictTotalOrder(on: set<Coords>)
    ensures StrictWeakOrder(on, (c: Coords, t: Coords) => c.LessCorrected(t))
    ensures Connected(on, (c: Coords, t: Coords) => c.LessCorrected(t))
  {
    forall c, t | c in on && t in on
      ensures c == t ==> !c.LessCorrected(t)
      ensures c != t ==> (c.LessCorrected(t) <==> !t.LessCorrected(c))
    {
      LessCorrectedIsLexicographic(c, t);
    }
  }

  /** The two comparisons agree whenever the first X is not larger; they
      differ only when c.X > t.X, where the corrected one says false. */
  lemma LessCorrectedAgrees(c: Coords, t: Coords)
    ensures c.x <= t.x ==> (c.Less(t) <==> c.LessCorrected(t))
    ensures c.x > t.x ==> !c.LessCorrected(t)
  {
  }
}
