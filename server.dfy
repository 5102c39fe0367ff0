/** The two pieces of server.go with logic of their own: the jump-mishap
    arithmetic of handleCalcMishap and the conversion of store systems
    into response records in helperGetSystems. Request parameters arrive
    as strings; response writing is a list of the writes performed. */
module Server {
  import opened Common
  import opened StoreTypes

  datatype Point = Point(x: int, y: int, z: int)

  /** The percentage is kept in hundredths: the source reports
      `chance / 100` as a float. */
  datatype MishapResponse = MishapResponse(from: Point, to: Point, age: int, gv: int, chance: int)

  /** A 400 answer, or the JSON answer. */
  datatype Write = BadRequest(message: string) | Json(body: MishapResponse)

  /** Everything the handler wrote, and whether it then panicked. */
  datatype Reply = Reply(writes: seq<Write>, panicked: bool)

  const MaxChance: int := 10000

  /** Squared distance between two points, in unbounded integers. */
  function SqDist(from: Point, to: Point): (d: int)
    ensures d >= 0
  {
    (from.x - to.x) * (from.x - to.x) + (from.y - to.y) * (from.y - to.y)
      + (from.z - to.z) * (from.z - to.z)
  }

  // ---------------------------------------------------------------------
  // The arithmetic as written, on Go's 64-bit int

  /** server.go:106-109, every `-`, `*` and `+` wrapping at 64 bits and
      `/` truncating. */
  function BaseChance(from: Point, to: Point, gv: int): int
    requires gv >= 1
  {
    var dx := Wrap64(from.x - to.x);
    var dy := Wrap64(from.y - to.y);
    var dz := Wrap64(from.z - to.z);
    var sum := Wrap64(Wrap64(Wrap64(dx * dx) + Wrap64(dy * dy)) + Wrap64(dz * dz));
    Quot(Wrap64(100 * sum), gv)
  }

  /** server.go:111-121: the cap, then the aging effect. */
  function AgedChance(base: int, age: int): int
  {
    if base > MaxChance then MaxChance
    else if age > 0 then
      var success := Wrap64(MaxChance - base);
      var success1 := Wrap64(success - Quot(Wrap64(Wrap64(2 * age) * success), 100));
      var success2 := if success1 < 0 then 0 else success1;
      Wrap64(MaxChance - success2)
    else base
  }

  /** The mishap chance handleCalcMishap computes once age >= 0 and
      gv >= 1 have been checked. */
  function MishapChance(from: Point, to: Point, age: int, gv: int): int
    requires gv >= 1
  {
    AgedChance(BaseChance(from, to, gv), age)
  }

  lemma Wrap64Square(a: int)
    ensures Wrap64(Wrap64(a) * Wrap64(a)) == Wrap64(a * a)
  {
    Wrap64Mul(a, Wrap64(a));
    Wrap64Mul(a, a);
  }

  lemma Wrap64Sum(a: int, b: int)
    ensures Wrap64(Wrap64(a) + Wrap64(b)) == Wrap64(a + b)
  {
    Wrap64Add(a, Wrap64(b));
    Wrap64Add(b, a);
  }

  /** The 64-bit base is the exact squared distance times 100, wrapped
      once, then divided. */
  /** The wrapped sum of wrapped squares of wrapped differences is the
      exact sum of squares, wrapped once. */
  lemma WrappedSumOfSquares(ex: int, ey: int, ez: int)
    ensures
      var dx, dy, dz := Wrap64(ex), Wrap64(ey), Wrap64(ez);
      Wrap64(Wrap64(Wrap64(dx * dx) + Wrap64(dy * dy)) + Wrap64(dz * dz))
        == Wrap64(ex * ex + ey * ey + ez * ez)
  {
    Wrap64Square(ex);
    Wrap64Square(ey);
    Wrap64Square(ez);
    Wrap64Sum(ex * ex, ey * ey);
    Wrap64Sum(ex * ex + ey * ey, ez * ez);
  }

  lemma {:induction false} BaseChanceWraps(from: Point, to: Point, gv: int)
    requires gv >= 1
    ensures BaseChance(from, to, gv) == Quot(Wrap64(100 * SqDist(from, to)), gv)
  {
    var ex, ey, ez := from.x - to.x, from.y - to.y, from.z - to.z;
    var dx, dy, dz := Wrap64(ex), Wrap64(ey), Wrap64(ez);
    var sum := Wrap64(Wrap64(Wrap64(dx * dx) + Wrap64(dy * dy)) + Wrap64(dz * dz));
    assert BaseChance(from, to, gv) == Quot(Wrap64(100 * sum), gv);
    var s := ex * ex + ey * ey + ez * ez;
    WrappedSumOfSquares(ex, ey, ez);
    assert Wrap64(100 * sum) == Wrap64(100 * s) by {
      Wrap64Mul(s, 100);
    }
    assert s == SqDist(from, to);
  }

  /** The chance of a jump from A to B is that of the jump from B to A,
      for every input, wrap-around included. */
  lemma MishapSymmetric(from: Point, to: Point, age: int, gv: int)
    requires gv >= 1
    ensures MishapChance(from, to, age, gv) == MishapChance(to, from, age, gv)
  {
    BaseChanceWraps(from, to, gv);
    BaseChanceWraps(to, from, gv);
    assert SqDist(from, to) == SqDist(to, from);
  }

  /** A base above 10000 gives exactly 10000, whatever the age. */
  lemma MishapCapped(from: Point, to: Point, age: int, gv: int)
    requires gv >= 1 && BaseChance(from, to, gv) > MaxChance
    ensures MishapChance(from, to, age, gv) == MaxChance
  {
  }

  /** Without aging the base is reported as it is, capped at 10000. */
  lemma MishapAgeZero(from: Point, to: Point, gv: int)
    requires gv >= 1
    ensures BaseChance(from, to, gv) <= MaxChance ==> MishapChance(from, to, 0, gv) == BaseChance(from, to, gv)
    ensures BaseChance(from, to, gv) > MaxChance ==> MishapChance(from, to, 0, gv) == MaxChance
  {
  }

  // ---------------------------------------------------------------------
  // The arithmetic on unbounded integers

  /** The aging step on unbounded integers; every intermediate value is
      non-negative, so truncating and flooring division agree. */
  function AgedChanceExact(base: int, age: int): int
  {
    if base > MaxChance then MaxChance
    else if age > 0 then
      var success := MaxChance - base;
      var success1 := success - 2 * age * success / 100;
      MaxChance - (if success1 < 0 then 0 else success1)
    else base
  }

  /** The whole formula with no wrap-around. */
  function MishapChanceExact(from: Point, to: Point, age: int, gv: int): int
    requires gv >= 1
  {
    AgedChanceExact(100 * SqDist(from, to) / gv, age)
  }

  function Min(a: int, b: int): int
  {
    if a <= b then a else b
  }

  lemma MulMonotone(a: int, b: int, c: int)
    requires a >= 0 && b <= c
    ensures a * b <= a * c
  {
  }

  /** Without overflow the chance lies in [0, 10000], never drops below the
      base, equals the base (capped) when age is 0, and is 10000 from age
      50 on. */
  lemma {:induction false} AgedChanceExactBounds(base: int, age: int)
    requires base >= 0 && age >= 0
    ensures 0 <= AgedChanceExact(base, age) <= MaxChance
    ensures AgedChanceExact(base, age) >= Min(base, MaxChance)
    ensures age == 0 ==> AgedChanceExact(base, age) == Min(base, MaxChance)
    ensures age >= 50 ==> AgedChanceExact(base, age) == MaxChance
  {
    if base <= MaxChance && age > 0 {
      var success := MaxChance - base;
      MulMonotone(2 * age, 0, success);
      if age >= 50 {
        MulMonotone(success, 100, 2 * age);
        assert 2 * age * success >= 100 * success;
      }
    }
  }

  /** The bounds for the whole formula. */
  lemma MishapExactBounds(from: Point, to: Point, age: int, gv: int)
    requires age >= 0 && gv >= 1
    ensures 0 <= MishapChanceExact(from, to, age, gv) <= MaxChance
    ensures MishapChanceExact(from, to, age, gv) >= Min(100 * SqDist(from, to) / gv, MaxChance)
    ensures age == 0 ==> MishapChanceExact(from, to, age, gv) == Min(100 * SqDist(from, to) / gv, MaxChance)
    ensures age >= 50 ==> MishapChanceExact(from, to, age, gv) == MaxChance
  {
    AgedChanceExactBounds(100 * SqDist(from, to) / gv, age);
  }

  /** While 100 times the squared distance fits in an int64, the 64-bit
      base is the unbounded one. */
  lemma BaseAgreesWithExact(from: Point, to: Point, gv: int)
    requires gv >= 1 && 100 * SqDist(from, to) <= MaxInt64
    ensures BaseChance(from, to, gv) == 100 * SqDist(from, to) / gv
  {
    BaseChanceWraps(from, to, gv);
  }

  /** While 2 * age * 10000 fits in an int64, the 64-bit aging step is the
      unbounded one. */
  lemma {:induction false} AgedAgreesWithExact(base: int, age: int)
    requires base >= 0 && 0 <= age <= MaxInt64 / 20000
    ensures AgedChance(base, age) == AgedChanceExact(base, age)
  {
    if base <= MaxChance && age > 0 {
      var success := MaxChance - base;
      MulMonotone(2 * age, 0, success);
      MulMonotone(2 * age, success, MaxChance);
      var loss := Quot(2 * age * success, 100);
      assert loss == 2 * age * success / 100;
      assert Wrap64(Wrap64(2 * age) * success) == 2 * age * success;
    }
  }

  /** While 100 times the squared distance fits in an int64 and the age is
      small enough for 2 * age * 10000 to fit, the 64-bit computation is
      the unbounded one. */
  lemma MishapAgreesWithExact(from: Point, to: Point, age: int, gv: int)
    requires age >= 0 && gv >= 1
    requires 100 * SqDist(from, to) <= MaxInt64
    requires age <= MaxInt64 / 20000
    ensures MishapChance(from, to, age, gv) == MishapChanceExact(from, to, age, gv)
  {
    var n := 100 * SqDist(from, to);
    var base := n / gv;
    BaseAgreesWithExact(from, to, gv);
    assert base >= 0;
    AgedAgreesWithExact(base, age);
    assert MishapChance(from, to, age, gv) == AgedChance(base, age);
  }

  /** server.go as written: a jump of 2^32 along one axis squares to 2^64,
      which wraps to 0, so the longest jumps are reported as safe. */
  lemma DistantJumpWrapsToZero()
    ensures MishapChance(Point(0, 0, 0), Point(0x1_0000_0000, 0, 0), 0, 1) == 0
    ensures MishapChanceExact(Point(0, 0, 0), Point(0x1_0000_0000, 0, 0), 0, 1) == MaxChance
  {
    var from, to := Point(0, 0, 0), Point(0x1_0000_0000, 0, 0);
    assert SqDist(from, to) == TwoTo64;
    BaseChanceWraps(from, to, 1);
    Wrap64Congruent(100 * TwoTo64, 0, 100);
    assert BaseChance(from, to, 1) == 0;
  }

  // ---------------------------------------------------------------------
  // The handler

  /** The message of a 400 answer about one parameter. */
  function Invalid(name: string): string
  {
    "invalid " + name
  }

  /** The outcome of reading one "X Y Z" parameter. */
  datatype PointParse = PointParse(writes: seq<Write>, point: Option<Point>, panicked: bool)

  /** Fields of a coordinate parameter, as strings.Split on a space. */
  function Fields(param: string): seq<string>
  {
    Split(param, ' ')
  }

  /** Three fields that all parse as integers. */
  function PointOf(param: string): (r: Option<Point>)
    ensures r.Some? ==> |Fields(param)| == 3
  {
    var f := Fields(param);
    if |f| != 3 then None
    else match (Atoi(f[0]), Atoi(f[1]), Atoi(f[2]))
      case (Some(x), Some(y), Some(z)) => Some(Point(x, y, z))
      case _ => None
  }

  /** server.go:52-70 as written: a wrong field count writes a 400 and
      carries on, so fields[1] or fields[2] may not exist. */
  function ParsePointAsWritten(param: string, name: string): (r: PointParse)
    ensures |Fields(param)| != 3 ==> |r.writes| >= 1 && r.writes[0] == BadRequest(Invalid(name))
    ensures |Fields(param)| == 3 ==> !r.panicked && r.point == PointOf(param)
    ensures r.point.Some? ==> !r.panicked && |r.writes| == (if |Fields(param)| == 3 then 0 else 1)
    ensures r.panicked ==> r.point.None? && |Fields(param)| < 3 && |r.writes| == 1
  {
    var f := Fields(param);
    var w := if |f| != 3 then [BadRequest(Invalid(name))] else [];
    match Atoi(f[0])
    case None => PointParse(w + [BadRequest(Invalid(name + ".x"))], None, false)
    case Some(x) =>
      if |f| < 2 then PointParse(w, None, true)
      else match Atoi(f[1])
        case None => PointParse(w + [BadRequest(Invalid(name + ".y"))], None, false)
        case Some(y) =>
          if |f| < 3 then PointParse(w, None, true)
          else match Atoi(f[2])
            case None => PointParse(w + [BadRequest(Invalid(name + ".z"))], None, false)
            case Some(z) => PointParse(w, Some(Point(x, y, z)), false)
  }

  /** The age and gv checks of server.go:90-105, which follow the
      coordinates and precede any arithmetic. */
  function CheckAgeAndGv(age: string, gv: string): (r: Result<(int, int), string>)
    ensures r.Ok? <==> Atoi(age).Some? && Atoi(age).value >= 0 && Atoi(gv).Some? && Atoi(gv).value >= 1
    ensures r.Ok? ==> r.value == (Atoi(age).value, Atoi(gv).value)
  {
    match Atoi(age)
    case None => Err("invalid age")
    case Some(a) =>
      if a < 0 then Err("age must be a non-negative integer")
      else match Atoi(gv)
        case None => Err("invalid gv")
        case Some(g) =>
          if g < 1 then Err("gv must be a positive integer")
          else Ok((a, g))
  }

  /** handleCalcMishap as written. */
  function HandleCalcMishapAsWritten(from: string, to: string, age: string, gv: string): (r: Reply)
    ensures |Fields(from)| == 3 && |Fields(to)| == 3 ==> |r.writes| == 1 && !r.panicked
  {
    var pf := ParsePointAsWritten(from, "from");
    if pf.point.None? then Reply(pf.writes, pf.panicked)
    else
      var pt := ParsePointAsWritten(to, "to");
      var w := pf.writes + pt.writes;
      if pt.point.None? then Reply(w, pt.panicked)
      else match CheckAgeAndGv(age, gv)
        case Err(msg) => Reply(w + [BadRequest(msg)], false)
        case Ok((a, g)) =>
          var chance := MishapChance(pf.point.value, pt.point.value, a, g);
          Reply(w + [Json(MishapResponse(pf.point.value, pt.point.value, a, g, chance))], false)
  }

  /** server.go:53-55 as written: a from value with fewer than three
      fields, all of them numbers, is answered with a 400 and then indexes
      a field that does not exist. */
  lemma ShortFromPanicsAfterAnswering(from: string, to: string, age: string, gv: string)
    requires |Fields(from)| < 3
    requires forall i :: 0 <= i < |Fields(from)| ==> Atoi(Fields(from)[i]).Some?
    ensures HandleCalcMishapAsWritten(from, to, age, gv) == Reply([BadRequest(Invalid("from"))], true)
  {
    var pf := ParsePointAsWritten(from, "from");
    assert pf.panicked;
  }

  /** server.go:53-55 as written: a from value with extra fields is
      answered twice, first with a 400 and then with a JSON result. */
  lemma ExtraFieldsAnsweredTwice(from: string, to: string, age: string, gv: string)
    requires |Fields(from)| > 3
    requires Atoi(Fields(from)[0]).Some? && Atoi(Fields(from)[1]).Some? && Atoi(Fields(from)[2]).Some?
    requires PointOf(to).Some? && CheckAgeAndGv(age, gv).Ok?
    ensures |HandleCalcMishapAsWritten(from, to, age, gv).writes| == 2
    ensures HandleCalcMishapAsWritten(from, to, age, gv).writes[0] == BadRequest(Invalid("from"))
    ensures HandleCalcMishapAsWritten(from, to, age, gv).writes[1].Json?
  {
    var pf := ParsePointAsWritten(from, "from");
    var pt := ParsePointAsWritten(to, "to");
    assert pf.point.Some?;
    assert |pf.writes| == 1 && pf.writes[0] == BadRequest(Invalid("from"));
    assert pt.point.Some?;
    assert pt.writes == [];
    var (a, g) := CheckAgeAndGv(age, gv).value;
    var chance := MishapChance(pf.point.value, pt.point.value, a, g);
    assert HandleCalcMishapAsWritten(from, to, age, gv)
      == Reply(pf.writes + pt.writes + [Json(MishapResponse(pf.point.value, pt.point.value, a, g, chance))], false);
  }

  /** The parameter check with the missing return added. */
  function ParsePoint(param: string, name: string): (r: Result<Point, string>)
    ensures r.Ok? <==> PointOf(param).Some?
    ensures r.Ok? ==> r.value == PointOf(param).value
    ensures |Fields(param)| != 3 ==> r == Err(Invalid(name))
  {
    var f := Fields(param);
    if |f| != 3 then Err(Invalid(name))
    else match Atoi(f[0])
      case None => Err(Invalid(name + ".x"))
      case Some(x) => match Atoi(f[1])
        case None => Err(Invalid(name + ".y"))
        case Some(y) => match Atoi(f[2])
          case None => Err(Invalid(name + ".z"))
          case Some(z) => Ok(Point(x, y, z))
  }

  /** handleCalcMishap with a return after each 400 and the arithmetic on
      unbounded integers: exactly one answer, never a panic, and a JSON
      answer exactly when every parameter is valid, holding a chance in
      [0, 10000]. */
  function HandleCalcMishap(from: string, to: string, age: string, gv: string): (r: Reply)
    ensures |r.writes| == 1 && !r.panicked
    ensures r.writes[0].Json? <==> PointOf(from).Some? && PointOf(to).Some? && CheckAgeAndGv(age, gv).Ok?
    ensures r.writes[0].Json? ==>
      && r.writes[0].body.from == PointOf(from).value && r.writes[0].body.to == PointOf(to).value
      && (r.writes[0].body.age, r.writes[0].body.gv) == CheckAgeAndGv(age, gv).value
      && 0 <= r.writes[0].body.chance <= MaxChance
  {
    match (ParsePoint(from, "from"), ParsePoint(to, "to"), CheckAgeAndGv(age, gv))
    case (Err(msg), _, _) => Reply([BadRequest(msg)], false)
    case (Ok(_), Err(msg), _) => Reply([BadRequest(msg)], false)
    case (Ok(_), Ok(_), Err(msg)) => Reply([BadRequest(msg)], false)
    case (Ok(p), Ok(q), Ok((a, g))) =>
      MishapExactBounds(p, q, a, g);
      Reply([Json(MishapResponse(p, q, a, g, MishapChanceExact(p, q, a, g)))], false)
  }

  /** On well-formed parameters whose arithmetic does not overflow, the
      corrected handler answers as the original does. */
  lemma CorrectedAgreesOnWellFormedInput(from: string, to: string, age: string, gv: string)
    requires |Fields(from)| == 3 && |Fields(to)| == 3
    requires PointOf(from).Some? && PointOf(to).Some? && CheckAgeAndGv(age, gv).Ok?
    requires 100 * SqDist(PointOf(from).value, PointOf(to).value) <= MaxInt64
    requires CheckAgeAndGv(age, gv).value.0 <= MaxInt64 / 20000
    ensures HandleCalcMishap(from, to, age, gv) == HandleCalcMishapAsWritten(from, to, age, gv)
  {
    var (a, g) := CheckAgeAndGv(age, gv).value;
    MishapAgreesWithExact(PointOf(from).value, PointOf(to).value, a, g);
  }

  // ---------------------------------------------------------------------
  // helperGetSystems

  datatype JItem = JItem(code: string, location: string, quantity: int)

  datatype JShip = JShip(id: string, inventory: seq<JItem>)

  datatype JPlanet = JPlanet(
    id: string, orbit: int, name: string, homeWorld: bool,
    availablePopulationUnits: int, economicEfficiency: int, inventory: seq<JItem>,
    lsn: int, miningDifficulty: real, productionPenalty: int, ships: seq<JShip>,
    shipyards: int)

  datatype JSystem = JSystem(
    id: string, x: int, y: int, z: int, planets: seq<JPlanet>, scanned: int,
    ships: seq<JShip>, visited: bool, self: string)

  function CodesOf(items: seq<JItem>): set<string>
  {
    set j | 0 <= j < |items| :: items[j].code
  }

  /** `items` lists every inventory entry with a nonzero quantity exactly
      once, under its map key, and nothing else. */
  ghost predicate ListsNonZero(items: seq<JItem>, inv: map<string, Item>)
  {
    && (forall j :: 0 <= j < |items| ==>
          && items[j].code in inv && inv[items[j].code].quantity != 0
          && items[j].location == inv[items[j].code].location
          && items[j].quantity == inv[items[j].code].quantity)
    && (forall j, k :: 0 <= j < k < |items| ==> items[j].code != items[k].code)
    && (forall c :: c in inv && inv[c].quantity != 0 ==> c in CodesOf(items))
  }

  /** One entry per ship, in some order of the ship map, carrying the
      ship's own Id and an empty inventory. */
  ghost predicate ListsShips(js: seq<JShip>, ships: map<string, Ship>)
  {
    exists order: seq<string> :: ShipsInOrder(js, ships, order)
  }

  ghost predicate ShipsInOrder(js: seq<JShip>, ships: map<string, Ship>, order: seq<string>)
  {
    && Enumerates(order, ships.Keys)
    && |js| == |order|
    && forall j :: 0 <= j < |js| ==> js[j] == JShip(ships[order[j]].id, [])
  }

  /** The inventory loop of helperGetSystems, over the map in whatever order
      it is visited, skipping quantity 0. */
  method InventoryJson(inv: map<string, Item>) returns (items: seq<JItem>)
    ensures ListsNonZero(items, inv)
  {
    items := [];
    var rest := inv.Keys;
    while rest != {}
      invariant rest <= inv.Keys
      invariant forall j :: 0 <= j < |items| ==>
        && items[j].code in inv.Keys - rest && inv[items[j].code].quantity != 0
        && items[j].location == inv[items[j].code].location
        && items[j].quantity == inv[items[j].code].quantity
      invariant forall j, k :: 0 <= j < k < |items| ==> items[j].code != items[k].code
      invariant forall c :: c in inv.Keys - rest && inv[c].quantity != 0 ==> c in CodesOf(items)
      decreases rest
    {
      var code :| code in rest;
      if inv[code].quantity != 0 {
        ghost var before := items;
        items := items + [JItem(code, inv[code].location, inv[code].quantity)];
        assert CodesOf(items) == CodesOf(before) + {code} by {
          assert forall j :: 0 <= j < |before| ==> items[j] == before[j];
          assert items[|before|].code == code;
        }
      }
      rest := rest - {code};
    }
  }

  /** The ship loop of helperGetSystems. */
  method ShipsJson(ships: map<string, Ship>) returns (js: seq<JShip>)
    ensures ListsShips(js, ships)
  {
    js := [];
    ghost var order: seq<string> := [];
    var rest := ships.Keys;
    while rest != {}
      invariant rest <= ships.Keys
      invariant |js| == |order|
      invariant forall j :: 0 <= j < |js| ==> order[j] in ships && js[j] == JShip(ships[order[j]].id, [])
      invariant forall i, j :: 0 <= i < j < |order| ==> order[i] != order[j]
      invariant forall k :: k in ships.Keys - rest <==> k in order
      decreases rest
    {
      var key :| key in rest;
      assert key !in order;
      js := js + [JShip(ships[key].id, [])];
      order := order + [key];
      rest := rest - {key};
    }
    assert ShipsInOrder(js, ships, order);
  }

  /** The response record of one planet. */
  ghost predicate PlanetShown(jp: JPlanet, p: Planet)
  {
    && jp.id == p.id && jp.orbit == p.orbit && jp.name == p.name && jp.homeWorld == p.homeWorld
    && jp.availablePopulationUnits == p.availablePopulationUnits
    && jp.economicEfficiency == p.economicEfficiency && jp.lsn == p.lsn
    && jp.miningDifficulty == p.miningDifficulty && jp.productionPenalty == p.productionPenalty
    && jp.shipyards == p.shipyards
    && ListsNonZero(jp.inventory, p.inventory)
    && ListsShips(jp.ships, p.ships)
  }

  /** The response record of one system: its own fields, the visited tag,
      the self link, and one planet record per planet in the same order. */
  ghost predicate SystemShown(d: JSystem, s: System)
    reads s
  {
    && d.id == s.id && d.x == s.x && d.y == s.y && d.z == s.z && d.scanned == s.scanned
    && d.ships == [] && d.visited == s.TaggedAsVisited()
    && d.self == "/api/systems/" + s.id
    && |d.planets| == |s.planets|
    && forall k :: 0 <= k < |d.planets| ==> PlanetShown(d.planets[k], s.planets[k])
  }

  method PlanetJson(p: Planet) returns (jp: JPlanet)
    ensures PlanetShown(jp, p)
  {
    var inventory := InventoryJson(p.inventory);
    var ships := ShipsJson(p.ships);
    jp := JPlanet(p.id, p.orbit, p.name, p.homeWorld, p.availablePopulationUnits,
      p.economicEfficiency, inventory, p.lsn, p.miningDifficulty, p.productionPenalty,
      ships, p.shipyards);
  }

  method SystemJson(s: System) returns (d: JSystem)
    ensures SystemShown(d, s)
  {
    var planets: seq<JPlanet> := [];
    for k := 0 to |s.planets|
      invariant |planets| == k
      invariant forall m :: 0 <= m < k ==> PlanetShown(planets[m], s.planets[m])
    {
      var jp := PlanetJson(s.planets[k]);
      planets := planets + [jp];
    }
    d := JSystem(s.id, s.x, s.y, s.z, planets, s.scanned, [], s.TaggedAsVisited(),
      "/api/systems/" + s.id);
  }

  /** helperGetSystems: one record per system, in the order given. */
  method GetSystems(all: seq<System>) returns (systems: seq<JSystem>)
    ensures |systems| == |all|
    ensures forall i :: 0 <= i < |all| ==> SystemShown(systems[i], all[i])
  {
    systems := [];
    for i := 0 to |all|
      invariant |systems| == i
      invariant forall m :: 0 <= m < i ==> SystemShown(systems[m], all[m])
    {
      var d := SystemJson(all[i]);
      systems := systems + [d];
    }
  }
}
