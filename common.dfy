/** Shared vocabulary: result types and the handful of Go library string
    functions (strings.Split/SplitN/TrimSpace/HasPrefix, strconv.Atoi,
    fmt's %d and %02d, and Go's byte-wise string ordering) that the
    modelled code calls. Strings are sequences of characters. */
module Common {

  type byte = x: int | 0 <= x < 256

  datatype Option<+T> = None | Some(value: T)

  datatype Result<+T, +E> = Ok(value: T) | Err(error: E)

  const MinInt64: int := -0x8000_0000_0000_0000
  const MaxInt64: int := 0x7fff_ffff_ffff_ffff

  const TwoTo64: int := 0x1_0000_0000_0000_0000

  /** Go's 64-bit `int` arithmetic: the value congruent to `x` modulo
      2^64 in the int64 range (two's-complement wrap-around). */
  function Wrap64(x: int): (r: int)
    ensures MinInt64 <= r <= MaxInt64
    ensures MinInt64 <= x <= MaxInt64 ==> r == x
  {
    (x - MinInt64) % TwoTo64 + MinInt64
  }

  lemma ModOfShift(a: int, m: int)
    ensures (a + m * TwoTo64) % TwoTo64 == a % TwoTo64
  {
    var q, r := a / TwoTo64, a % TwoTo64;
    assert a + m * TwoTo64 == (q + m) * TwoTo64 + r;
    ModUnique(a + m * TwoTo64, q + m, r);
  }

  lemma ModUnique(x: int, q: int, r: int)
    requires x == q * TwoTo64 + r && 0 <= r < TwoTo64
    ensures x % TwoTo64 == r
  {
    var q', r' := x / TwoTo64, x % TwoTo64;
    assert (q - q') * TwoTo64 == r' - r;
  }

  /** Values that differ by a multiple of 2^64 wrap to the same int64. */
  lemma Wrap64Congruent(x: int, y: int, m: int)
    requires x == y + m * TwoTo64
    ensures Wrap64(x) == Wrap64(y)
  {
    ModOfShift(y - MinInt64, m);
    assert x - MinInt64 == (y - MinInt64) + m * TwoTo64;
  }

  /** Wrapping an intermediate product does not change a wrapped result. */
  lemma Wrap64Mul(a: int, k: int)
    ensures Wrap64(Wrap64(a) * k) == Wrap64(a * k)
  {
    var w := Wrap64(a);
    var m := (a - MinInt64) / TwoTo64;
    assert a - MinInt64 == m * TwoTo64 + (a - MinInt64) % TwoTo64;
    assert w == a - m * TwoTo64;
    assert w * k == a * k + (-m * k) * TwoTo64;
    Wrap64Congruent(w * k, a * k, -m * k);
  }

  /** Wrapping an intermediate summand does not change a wrapped result. */
  lemma Wrap64Add(a: int, k: int)
    ensures Wrap64(Wrap64(a) + k) == Wrap64(a + k)
  {
    var w := Wrap64(a);
    var m := (a - MinInt64) / TwoTo64;
    assert a - MinInt64 == m * TwoTo64 + (a - MinInt64) % TwoTo64;
    assert w + k == a + k + (-m) * TwoTo64;
    Wrap64Congruent(w + k, a + k, -m);
  }

  /** Go's integer `/`: the quotient truncated toward zero (Dafny's `/` is
      Euclidean and differs for negative dividends). */
  function Quot(a: int, b: int): (q: int)
    requires b > 0
    ensures a >= 0 ==> 0 <= a - q * b < b
    ensures a < 0 ==> -b < a - q * b <= 0
  {
    if a >= 0 then a / b else -((-a) / b)
  }

  /** `order` lists every key of `keys` exactly once: one possible
      iteration order of a Go map whose key set is `keys`. */
  ghost predicate Enumerates<K(!new)>(order: seq<K>, keys: set<K>)
  {
    && (forall i, j :: 0 <= i < j < |order| ==> order[i] != order[j])
    && (forall k :: k in keys <==> k in order)
  }

  /** Some element of a non-empty set: the next key a map iteration visits. */
  ghost function Pick<K>(keys: set<K>): K
    requires keys != {}
  {
    var k :| k in keys; k
  }

  // ---------------------------------------------------------------------
  // Prefixes and searching

  predicate HasPrefix(s: string, prefix: string)
  {
    |prefix| <= |s| && s[..|prefix|] == prefix
  }

  /** Index of the first occurrence of `c` in `s`, if any. */
  function IndexOf(s: string, c: char): (r: Option<nat>)
    ensures r.None? <==> c !in s
    ensures r.Some? ==> r.value < |s| && s[r.value] == c && c !in s[..r.value]
  {
    if |s| == 0 then None
    else if s[0] == c then Some(0)
    else match IndexOf(s[1..], c)
      case None => None
      case Some(i) => assert s[1..][..i] == s[1..i + 1]; Some(i + 1)
  }

  // ---------------------------------------------------------------------
  // strings.Split and strings.SplitN with a one-character separator

  /** strings.Split(s, sep): the pieces between occurrences of `sep`;
      there is always at least one piece. */
  function Split(s: string, sep: char): (r: seq<string>)
    ensures |r| >= 1
    ensures forall i :: 0 <= i < |r| ==> sep !in r[i]
    ensures Join(r, sep) == s
    decreases |s|
  {
    match IndexOf(s, sep)
    case None => [s]
    case Some(i) =>
      assert s == s[..i] + [sep] + s[i + 1..];
      [s[..i]] + Split(s[i + 1..], sep)
  }

  /** The pieces glued back together with `sep` between them. */
  function Join(parts: seq<string>, sep: char): string
  {
    if |parts| == 0 then ""
    else if |parts| == 1 then parts[0]
    else parts[0] + [sep] + Join(parts[1..], sep)
  }

  /** Split undoes Join when no piece contains the separator. */
  lemma {:induction false} SplitJoin(parts: seq<string>, sep: char)
    requires |parts| >= 1
    requires forall i :: 0 <= i < |parts| ==> sep !in parts[i]
    ensures Split(Join(parts, sep), sep) == parts
    decreases |parts|
  {
    if |parts| > 1 {
      SplitAfterPrefix(parts[0], Join(parts[1..], sep), sep);
      SplitJoin(parts[1..], sep);
      assert parts == [parts[0]] + parts[1..];
    }
  }

  /** Split cuts at the first separator and carries on after it. */
  lemma SplitAfterPrefix(a: string, b: string, sep: char)
    requires sep !in a
    ensures Split(a + [sep] + b, sep) == [a] + Split(b, sep)
  {
    var s := a + [sep] + b;
    IndexOfAfterPrefix(a, b, sep);
    assert s[..|a|] == a;
    assert s[|a| + 1..] == b;
  }

  lemma IndexOfAfterPrefix(a: string, b: string, sep: char)
    requires sep !in a
    ensures IndexOf(a + [sep] + b, sep) == Some(|a|)
  {
    var s := a + [sep] + b;
    assert s[|a|] == sep;
    assert s[..|a|] == a;
  }

  /** strings.SplitN(s, sep, 2): at most two pieces, split at the first
      occurrence of `sep` only. */
  function SplitN2(s: string, sep: char): (r: seq<string>)
    ensures sep !in s ==> r == [s]
    ensures sep in s ==> |r| == 2 && sep !in r[0] && r[0] + [sep] + r[1] == s
  {
    match IndexOf(s, sep)
    case None => [s]
    case Some(i) =>
      assert s == s[..i] + [sep] + s[i + 1..];
      [s[..i], s[i + 1..]]
  }

  /** SplitN with limit 2 cuts at the first separator, so a first piece
      free of the separator comes back intact. */
  lemma SplitN2AfterPrefix(a: string, b: string, sep: char)
    requires sep !in a
    ensures SplitN2(a + [sep] + b, sep) == [a, b]
  {
    var s := a + [sep] + b;
    IndexOfAfterPrefix(a, b, sep);
    assert s[..|a|] == a;
    assert s[|a| + 1..] == b;
  }

  // ---------------------------------------------------------------------
  // strings.TrimSpace

  /** unicode.IsSpace: the ASCII white space characters, NEL, NBSP and the
      Unicode space separators. */
  predicate IsSpace(c: char)
  {
    || c == ' ' || c == '\t' || c == '\n' || c == '\r' || c == '\U{000B}' || c == '\U{000C}'
    || c == '\U{0085}' || c == '\U{00A0}' || c == '\U{1680}'
    || ('\U{2000}' <= c <= '\U{200A}')
    || c == '\U{2028}' || c == '\U{2029}' || c == '\U{202F}' || c == '\U{205F}' || c == '\U{3000}'
  }

  function TrimLeft(s: string): (r: string)
    ensures |r| <= |s| && r == s[|s| - |r|..]
    ensures forall i :: 0 <= i < |s| - |r| ==> IsSpace(s[i])
    ensures |r| > 0 ==> !IsSpace(r[0])
  {
    if |s| > 0 && IsSpace(s[0]) then TrimLeft(s[1..]) else s
  }

  function TrimRight(s: string): (r: string)
    ensures |r| <= |s| && r == s[..|r|]
    ensures forall i :: |r| <= i < |s| ==> IsSpace(s[i])
    ensures |r| > 0 ==> !IsSpace(r[|r| - 1])
  {
    if |s| > 0 && IsSpace(s[|s| - 1]) then TrimRight(s[..|s| - 1]) else s
  }

  /** strings.TrimSpace: drop leading and trailing white space. */
  function TrimSpace(s: string): (r: string)
    ensures |r| <= |s|
    ensures |r| > 0 ==> !IsSpace(r[0]) && !IsSpace(r[|r| - 1])
    ensures (|s| == 0 || (!IsSpace(s[0]) && !IsSpace(s[|s| - 1]))) ==> r == s
  {
    TrimRight(TrimLeft(s))
  }

  // ---------------------------------------------------------------------
  // Decimal formatting (fmt's %d and %02d)

  function DigitChar(d: int): char
    requires 0 <= d < 10
  {
    ('0' as int + d) as char
  }

  predicate IsDigit(c: char)
  {
    '0' <= c <= '9'
  }

  function DigitValue(c: char): int
    requires IsDigit(c)
  {
    c as int - '0' as int
  }

  /** Decimal digits of a natural number, no leading zeros. */
  function NatDigits(n: nat): (r: string)
    ensures |r| >= 1
    ensures forall i :: 0 <= i < |r| ==> IsDigit(r[i])
    ensures n >= 10 ==> r[0] != '0'
    decreases n
  {
    if n < 10 then [DigitChar(n)] else NatDigits(n / 10) + [DigitChar(n % 10)]
  }

  /** fmt.Sprintf("%d", n). */
  function Itoa(n: int): (r: string)
    ensures |r| >= 1
    ensures n >= 0 ==> forall i :: 0 <= i < |r| ==> IsDigit(r[i])
    ensures n < 0 ==> r[0] == '-'
    ensures ' ' !in r
  {
    if n < 0 then "-" + NatDigits(-n) else NatDigits(n)
  }

  /** fmt.Sprintf("%02d", n): zero padded to two characters. */
  function Pad2(n: int): (r: string)
    ensures |r| >= 2
  {
    if 0 <= n < 10 then "0" + Itoa(n) else
      assert n >= 10 ==> |NatDigits(n)| >= 2 by { if n >= 10 { assert NatDigits(n) == NatDigits(n / 10) + [DigitChar(n % 10)]; } }
      assert n < 0 ==> |Itoa(n)| >= 2;
      Itoa(n)
  }

  /** fmt.Sprintf("SP%02d", id): the role key and map key of a species. */
  function SpeciesKey(id: int): (r: string)
    ensures HasPrefix(r, "SP") && r[2..] == Pad2(id)
  {
    "SP" + Pad2(id)
  }

  /** fmt.Sprintf("%d %d %d", x, y, z): a position written out. */
  function CoordsText(x: int, y: int, z: int): string
  {
    Join([Itoa(x), Itoa(y), Itoa(z)], ' ')
  }

  /** The three numbers can be read back from the text. */
  lemma CoordsTextSplits(x: int, y: int, z: int)
    ensures Split(CoordsText(x, y, z), ' ') == [Itoa(x), Itoa(y), Itoa(z)]
  {
    SplitJoin([Itoa(x), Itoa(y), Itoa(z)], ' ');
  }

  /** Different positions are written differently. */
  lemma CoordsTextInjective(x: int, y: int, z: int, x': int, y': int, z': int)
    requires CoordsText(x, y, z) == CoordsText(x', y', z')
    ensures x == x' && y == y' && z == z'
  {
    CoordsTextSplits(x, y, z);
    CoordsTextSplits(x', y', z');
    assert [Itoa(x), Itoa(y), Itoa(z)] == [Itoa(x'), Itoa(y'), Itoa(z')];
    ItoaInjective(x, x');
    ItoaInjective(y, y');
    ItoaInjective(z, z');
  }

  /** Distinct numbers are written differently. */
  lemma ItoaInjective(a: int, b: int)
    requires Itoa(a) == Itoa(b)
    ensures a == b
  {
    if a >= 0 && b >= 0 {
      DigitsValueOfNatDigits(a);
      DigitsValueOfNatDigits(b);
    } else if a < 0 && b < 0 {
      assert NatDigits(-a) == Itoa(a)[1..] == Itoa(b)[1..] == NatDigits(-b);
      DigitsValueOfNatDigits(-a);
      DigitsValueOfNatDigits(-b);
    }
  }

  // ---------------------------------------------------------------------
  // strconv.Atoi

  /** Value of a non-empty run of decimal digits. */
  function DigitsValue(s: string): (v: nat)
    requires forall i :: 0 <= i < |s| ==> IsDigit(s[i])
  {
    if |s| == 0 then 0 else DigitsValue(s[..|s| - 1]) * 10 + DigitValue(s[|s| - 1])
  }

  predicate AllDigits(s: string)
  {
    |s| >= 1 && forall i :: 0 <= i < |s| ==> IsDigit(s[i])
  }

  /** strconv.Atoi: an optional sign followed by at least one decimal
      digit, whose value must fit in 64 bits. */
  function Atoi(s: string): (r: Option<int>)
    ensures r.Some? ==> MinInt64 <= r.value <= MaxInt64
    ensures r.Some? ==> |s| >= 1
  {
    var neg := |s| > 0 && s[0] == '-';
    var body := if |s| > 0 && (s[0] == '-' || s[0] == '+') then s[1..] else s;
    if !AllDigits(body) then None
    else
      var mag: int := DigitsValue(body); var v := if neg then -mag else mag;
      if MinInt64 <= v <= MaxInt64 then Some(v) else None
  }

  lemma {:induction false} DigitsValueOfNatDigits(n: nat)
    ensures DigitsValue(NatDigits(n)) == n
    decreases n
  {
    if n >= 10 {
      var d := NatDigits(n);
      assert d[..|d| - 1] == NatDigits(n / 10);
      DigitsValueOfNatDigits(n / 10);
    }
  }

  lemma DigitsValueOfZeroPrefixed(s: string)
    requires AllDigits(s)
    ensures AllDigits("0" + s) && DigitsValue("0" + s) == DigitsValue(s)
  {
    if |s| > 1 {
      assert ("0" + s)[..|"0" + s| - 1] == "0" + s[..|s| - 1];
      DigitsValueOfZeroPrefixed(s[..|s| - 1]);
    } else {
      assert ("0" + s)[..1] == "0";
      assert "0"[..0] == "";
    }
  }

  /** Atoi reads back what %d writes, for every 64-bit integer. */
  lemma AtoiItoa(n: int)
    requires MinInt64 <= n <= MaxInt64
    ensures Atoi(Itoa(n)) == Some(n)
  {
    if n < 0 {
      AtoiItoaNegative(n);
    } else {
      AtoiItoaNonNegative(n);
    }
  }

  lemma AtoiItoaNegative(n: int)
    requires MinInt64 <= n < 0
    ensures Atoi(Itoa(n)) == Some(n)
  {
    DigitsValueOfNatDigits(-n);
    AtoiMinusDigits(NatDigits(-n));
  }

  lemma AtoiItoaNonNegative(n: int)
    requires 0 <= n <= MaxInt64
    ensures Atoi(Itoa(n)) == Some(n)
  {
    DigitsValueOfNatDigits(n);
    AtoiDigits(NatDigits(n));
  }

  /** A minus sign and digits read as the negated digits' value. */
  lemma AtoiMinusDigits(d: string)
    requires AllDigits(d) && DigitsValue(d) <= -MinInt64
    ensures Atoi("-" + d) == Some(-(DigitsValue(d) as int))
  {
    var s := "-" + d;
    assert s[0] == '-' && s[1..] == d;
  }

  /** Unsigned digits read as their value. */
  lemma AtoiDigits(d: string)
    requires AllDigits(d) && DigitsValue(d) <= MaxInt64
    ensures Atoi(d) == Some(DigitsValue(d))
  {
    assert IsDigit(d[0]);
  }

  /** The numeric part of a species key reads back as the species id. */
  lemma AtoiSpeciesKey(id: int)
    requires 0 <= id <= MaxInt64
    ensures Atoi(SpeciesKey(id)[2..]) == Some(id)
  {
    DigitsValueOfNatDigits(id);
    if id < 10 {
      DigitsValueOfZeroPrefixed(NatDigits(id));
    }
  }

  // ---------------------------------------------------------------------
  // Go's `<` on strings: lexicographic by character code

  predicate StrLess(a: string, b: string)
    decreases |a|
  {
    if |a| == 0 then |b| > 0
    else if |b| == 0 then false
    else if a[0] != b[0] then a[0] < b[0]
    else StrLess(a[1..], b[1..])
  }

  lemma {:induction false} StrLessIrreflexive(a: string)
    ensures !StrLess(a, a)
    decreases |a|
  {
    if |a| > 0 { StrLessIrreflexive(a[1..]); }
  }

  lemma {:induction false} StrLessTransitive(a: string, b: string, c: string)
    requires StrLess(a, b) && StrLess(b, c)
    ensures StrLess(a, c)
    decreases |a|
  {
    if |a| > 0 && |b| > 0 && |c| > 0 && a[0] == b[0] && b[0] == c[0] {
      StrLessTransitive(a[1..], b[1..], c[1..]);
    }
  }

  lemma {:induction false} StrLessTotal(a: string, b: string)
    requires a != b
    ensures StrLess(a, b) || StrLess(b, a)
    decreases |a|
  {
    if |a| > 0 && |b| > 0 && a[0] == b[0] {
      assert a == [a[0]] + a[1..] && b == [b[0]] + b[1..];
      StrLessTotal(a[1..], b[1..]);
    }
  }
}
