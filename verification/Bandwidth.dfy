/** The bandwidth limit: a human-readable rate, read through a double, printed
    as whole bytes per second. */
module Bandwidth {
  import opened Wrappers
  import opened Machine
  import opened Arithmetic
  import opened Doubles
  import Text
  import RecentLimits

  predicate IsDigit(c: char) {
    '0' <= c <= '9'
  }

  /** Length of the leading run of digits and points. */
  function NumberEnd(s: string): (k: nat)
    ensures k <= |s| && forall i :: 0 <= i < k ==> IsDigit(s[i]) || s[i] == '.'
    ensures k < |s| ==> !IsDigit(s[k]) && s[k] != '.'
  {
    if s != "" && (IsDigit(s[0]) || s[0] == '.') then 1 + NumberEnd(s[1..]) else 0
  }

  function FirstPoint(s: string): (k: nat)
    ensures k <= |s| && (k < |s| ==> s[k] == '.') && forall i :: 0 <= i < k ==> s[i] != '.'
  {
    if s == "" || s[0] == '.' then 0 else 1 + FirstPoint(s[1..])
  }

  /** Digits with at most one point among them. */
  function ReadDecimal(s: string): (r: Option<real>)
    ensures r.Some? ==> r.value >= 0.0
  {
    var k := FirstPoint(s);
    var fraction := if k < |s| then s[k + 1..] else "";
    var digits := RecentLimits.ReadNat(s[..k] + fraction);
    if digits.None? then None else Some(digits.value as real / Pow10(|fraction|) as real)
  }

  /** Bytes per unit; the letter case of a unit does not matter. */
  function UnitOf(suffix: string): Option<nat> {
    match Text.Lower(Text.Trim(suffix))
    case "" => Some(1)
    case "b" => Some(1)
    case "k" => Some(1_000)
    case "kb" => Some(1_000)
    case "m" => Some(1_000_000)
    case "mb" => Some(1_000_000)
    case "g" => Some(1_000_000_000)
    case "gb" => Some(1_000_000_000)
    case "ki" => Some(1_024)
    case "kib" => Some(1_024)
    case "mi" => Some(1_048_576)
    case "mib" => Some(1_048_576)
    case "gi" => Some(1_073_741_824)
    case "gib" => Some(1_073_741_824)
    case _ => None
  }

  /** Scale a number already rounded to a double, round to whole bytes and
      saturate; nothing above 2^64 and nothing below one byte. */
  function ToBytes(f: Format, n: real, unit: nat): Result<nat>
    requires n >= 0.0
  {
    var total := Round(f, n * unit as real);
    if total.None? || total.value > TWO64 as real then Err
    else
      var rounded := (total.value + 0.5).Floor;
      if rounded < 1 then Err else Ok(Min(rounded, U64_MAX))
  }

  function ParseBandwidth(f: Format, s: string): Result<nat> {
    var trimmed := Text.Trim(s);
    var k := NumberEnd(trimmed);
    if k == 0 then Err
    else
      var decimal, unit := ReadDecimal(trimmed[..k]), UnitOf(trimmed[k..]);
      if decimal.None? || unit.None? then Err
      else
        var n := Round(f, decimal.value);
        if n.None? then Err
        else ToBytes(f, n.value, unit.value)
  }

  // ---- What is printed reads back ----------------------------------------

  lemma {:induction false} AllDigits(s: string)
    requires forall i :: 0 <= i < |s| ==> IsDigit(s[i])
    ensures NumberEnd(s) == |s| && FirstPoint(s) == |s|
    decreases |s|
  {
    if s != "" { AllDigits(s[1..]); }
  }

  /** A printed number is read as itself, then rounded. */
  lemma PrintedParses(f: Format, v: nat)
    ensures ParseBandwidth(f, RecentLimits.ShowNat(v)) ==
      var n := Round(f, v as real);
      if n.None? then Err else ToBytes(f, n.value, 1)
  {
    PrintedShape(v);
    PrintedDecimal(v);
    NoUnit();
  }

  lemma PrintedShape(v: nat)
    ensures var s := RecentLimits.ShowNat(v);
      Text.Trim(s) == s && NumberEnd(s) == |s| > 0 && s[..|s|] == s && s[|s|..] == ""
  {
    var s := RecentLimits.ShowNat(v);
    AllDigits(s);
    Text.TrimShape(s);
  }

  lemma PrintedDecimal(v: nat)
    ensures var r := ReadDecimal(RecentLimits.ShowNat(v));
      r.Some? && r.value == v as real
  {
    var s := RecentLimits.ShowNat(v);
    AllDigits(s);
    RecentLimits.ShowReadsBack(v);
    assert s[..|s|] + "" == s;
    NoFraction(v);
  }

  lemma NoFraction(v: nat)
    ensures v as real / Pow10(0) as real == v as real
  {}

  lemma NoUnit()
    ensures UnitOf("") == Some(1)
  {
    assert Text.Trim("") == "" && Text.Lower("") == "";
  }

  /** The numbers a double holds, and the largest 64-bit number, which rounds
      up to 2^64 and saturates back. */
  ghost predicate Exact(f: Format, v: nat) {
    v >= 1 && (v == U64_MAX || (v < U64_MAX && Representable(f, v as real)))
  }

  /** Whatever comes out of the parser is such a number. */
  lemma ToBytesExact(f: Format, n: real, unit: nat)
    requires ValidFormat(f) && n >= 0.0 && ToBytes(f, n, unit).Ok?
    ensures Exact(f, ToBytes(f, n, unit).value)
  {
    RoundIsIdempotent(f, n * unit as real);
    var total := Round(f, n * unit as real).value;
    if total < (BITS53 / 2) as real {
      SmallWhole(f, (total + 0.5).Floor);
    } else {
      var k := LargeIsWhole(f, total);
      assert (k as real + 0.5).Floor == k;
    }
  }

  lemma ExactToBytes(f: Format, v: nat)
    requires ValidFormat(f) && Exact(f, v)
    ensures Round(f, v as real).Some?
    ensures ToBytes(f, Round(f, v as real).value, 1) == Ok(v)
  {
    RoundIsIdempotent(f, v as real);
    if v == U64_MAX { TopRoundsUp(f); }
    var n := Round(f, v as real).value;
    assert n * 1.0 == n;
    var w: nat := if v == U64_MAX then TWO64 else v;
    assert n == w as real && (w as real + 0.5).Floor == w;
  }

  /** The 64-bit numbers a printed limit can carry: those a double holds, and
      the largest one. */
  lemma ReadsBackIff(f: Format, v: nat)
    requires ValidFormat(f)
    ensures ParseBandwidth(f, RecentLimits.ShowNat(v)) == Ok(v) <==> Exact(f, v)
  {
    PrintedParses(f, v);
    if Exact(f, v) {
      ExactToBytes(f, v);
    } else if ParseBandwidth(f, RecentLimits.ShowNat(v)) == Ok(v) {
      RoundIsIdempotent(f, v as real);
      ToBytesExact(f, Round(f, v as real).value, 1);
    }
  }

  /** Every limit the parser can yield survives being printed, whatever text
      and unit it came from. */
  lemma ParsedReadsBack(f: Format, s: string)
    requires ValidFormat(f)
    ensures var r := ParseBandwidth(f, s);
      r.Ok? ==> ParseBandwidth(f, RecentLimits.ShowNat(r.value)) == r
  {
    var r := ParseBandwidth(f, s);
    if r.Ok? {
      var trimmed := Text.Trim(s);
      var k := NumberEnd(trimmed);
      var decimal := ReadDecimal(trimmed[..k]).value;
      RoundIsIdempotent(f, decimal);
      ToBytesExact(f, Round(f, decimal).value, UnitOf(trimmed[k..]).value);
      ReadsBackIff(f, r.value);
    }
  }

  // ---- The number ---------------------------------------------------------

  /** Digits, or none at all; their value, or zero. */
  ghost predicate SomeDigits(s: string) {
    forall i :: 0 <= i < |s| ==> '0' <= s[i] <= '9'
  }

  ghost function ValueOf(s: string): nat
    requires SomeDigits(s)
  {
    if s == "" then 0 else RecentLimits.Value(s)
  }

  lemma {:induction false} ValueSplits(x: string, y: string)
    requires SomeDigits(x) && SomeDigits(y)
    ensures SomeDigits(x + y) && ValueOf(x + y) == ValueOf(x) * Pow10(|y|) + ValueOf(y)
    decreases |y|
  {
    if y == "" {
      assert x + y == x;
    } else {
      var n := |y| - 1;
      ValueSplits(x, y[..n]);
      LastApart(x, y);
      LastDigit(x + y[..n], y[n]);
      LastDigit(y[..n], y[n]);
      OneDigitMore(ValueOf(x), Pow10(n), ValueOf(y[..n]), (y[n] - '0') as nat, ValueOf(x + y[..n]));
    }
  }

  lemma LastApart(x: string, y: string)
    requires y != ""
    ensures x + y == (x + y[..|y| - 1]) + [y[|y| - 1]] && y == y[..|y| - 1] + [y[|y| - 1]]
  {}

  lemma OneDigitMore(a: nat, p: nat, b: nat, c: nat, w: nat)
    requires w == a * p + b
    ensures 10 * w + c == a * (10 * p) + (10 * b + c)
  {
    RecentLimits.Shifted(a, p);
  }

  lemma LastDigit(s: string, c: char)
    requires SomeDigits(s) && '0' <= c <= '9'
    ensures SomeDigits(s + [c]) && ValueOf(s + [c]) == 10 * ValueOf(s) + (c - '0') as nat
  {
    if s != "" { RecentLimits.ValueAppend(s, c); } else { assert s + [c] == [c]; }
  }

  lemma AroundPoint(x: string, y: string)
    ensures var s := x + ("." + y); |s| == |x| + 1 + |y| && s[..|x|] == x && s[|x| + 1..] == y
  {}

  /** The digits on both sides of the point, over a power of ten. */
  lemma PointedReads(x: string, y: string, n: nat)
    requires SomeDigits(x) && RecentLimits.ReadNat(x + y) == Some(n)
    ensures var r := ReadDecimal(x + ("." + y)); r.Some? && r.value == n as real / Pow10(|y|) as real
  {
    PointAt(x, "." + y);
    AroundPoint(x, y);
  }

  /** `x.y` is the whole number `x` and `y` after the point. */
  lemma DecimalMeaning(x: string, y: string)
    requires SomeDigits(x) && SomeDigits(y) && x + y != ""
    ensures var r := ReadDecimal(x + ("." + y));
      r.Some? && r.value == ValueOf(x) as real + ValueOf(y) as real / Pow10(|y|) as real
  {
    var n := WholeDigits(x, y);
    PointedReads(x, y, n);
    Parts(n, ValueOf(x), Pow10(|y|), ValueOf(y));
  }

  /** All the digits as one number. */
  lemma WholeDigits(x: string, y: string) returns (n: nat)
    requires SomeDigits(x) && SomeDigits(y) && x + y != ""
    ensures n == ValueOf(x) * Pow10(|y|) + ValueOf(y) && RecentLimits.ReadNat(x + y) == Some(n)
  {
    n := ValueOf(x) * Pow10(|y|) + ValueOf(y);
    ValueSplits(x, y);
    ReadsAsWhole(x + y);
  }

  lemma ReadsAsWhole(s: string)
    requires SomeDigits(s) && s != ""
    ensures RecentLimits.ReadNat(s) == Some(ValueOf(s))
  {
    RecentLimits.ReadNatMeaning(s);
  }

  /** Without a point it is the whole number. */
  lemma WholeMeaning(x: string)
    requires SomeDigits(x) && x != ""
    ensures var r := ReadDecimal(x); r.Some? && r.value == ValueOf(x) as real
  {
    PointAt(x, "");
    assert x + "" == x && x[..|x|] + "" == x;
    ReadsAsWhole(x);
    NoFraction(ValueOf(x));
  }

  lemma Parts(n: nat, a: nat, p: nat, b: nat)
    requires p > 0 && n == a * p + b
    ensures n as real / p as real == a as real + b as real / p as real
  {
    var q := p as real;
    assert n as real == a as real * q + b as real;
    assert (a as real * q) / q == a as real;
  }

  lemma {:induction false} PointAt(x: string, rest: string)
    requires SomeDigits(x) && (rest == "" || rest[0] == '.')
    ensures FirstPoint(x + rest) == |x|
    decreases |x|
  {
    if x == "" {
      assert x + rest == rest;
    } else {
      assert (x + rest)[1..] == x[1..] + rest;
      PointAt(x[1..], rest);
    }
  }

  lemma DigitsSplit(x: string, y: string)
    requires RecentLimits.Digits(x + y)
    ensures SomeDigits(x) && SomeDigits(y) && x + y != ""
  {
    forall i | 0 <= i < |x| ensures '0' <= x[i] <= '9' { assert x[i] == (x + y)[i]; }
    forall i | 0 <= i < |y| ensures '0' <= y[i] <= '9' { assert y[i] == (x + y)[|x| + i]; }
  }

  /** `s` is digits around one point, at least one of them. */
  ghost predicate Pointed(s: string, x: string, y: string) {
    SomeDigits(x) && SomeDigits(y) && x + y != "" && s == x + ("." + y)
  }

  lemma CutAtPoint(s: string, k: nat)
    requires k < |s| && s[k] == '.'
    ensures s == s[..k] + ("." + s[k + 1..])
  {}

  lemma NothingAdded(s: string)
    ensures s[..|s|] + "" == s && s + "" == s
  {}

  /** The digits behind a number that was read. */
  lemma DigitsRead(x: string, y: string)
    requires RecentLimits.ReadNat(x + y).Some?
    ensures SomeDigits(x) && SomeDigits(y) && x + y != ""
  {
    RecentLimits.ReadNatMeaning(x + y);
    DigitsSplit(x, y);
  }

  /** Nothing else is a number: no digit at all, a second point, or anything
      but digits and points. */
  lemma DecimalRefused(s: string)
    ensures ReadDecimal(s).Some? ==> (SomeDigits(s) && s != "") || exists x, y :: Pointed(s, x, y)
  {
    var k := FirstPoint(s);
    if ReadDecimal(s).Some? {
      if k < |s| {
        DigitsRead(s[..k], s[k + 1..]);
        CutAtPoint(s, k);
        assert Pointed(s, s[..k], s[k + 1..]);
      } else {
        NothingAdded(s);
        DigitsRead(s, "");
      }
    }
  }

  // ---- The unit -----------------------------------------------------------

  /** Decimal units are powers of 1000 and binary ones, spelled with an `i`,
      powers of 1024; a `b` for bytes changes nothing. */
  ghost predicate UnitWord(w: string, m: nat) {
    || ((w == "" || w == "b") && m == 1)
    || ((w == "k" || w == "kb") && m == 1000) || ((w == "ki" || w == "kib") && m == 1024)
    || ((w == "m" || w == "mb") && m == 1000 * 1000) || ((w == "mi" || w == "mib") && m == 1024 * 1024)
    || ((w == "g" || w == "gb") && m == 1000 * 1000 * 1000) || ((w == "gi" || w == "gib") && m == 1024 * 1024 * 1024)
  }

  lemma UnitSpelled(suffix: string, m: nat)
    ensures UnitOf(suffix) == Some(m) <==> UnitWord(Text.Lower(Text.Trim(suffix)), m)
  {}

  lemma UnitMeaning(suffix: string, m: nat)
    ensures UnitOf(suffix) == Some(m) <==>
      exists w :: UnitWord(w, m) && Text.LowerCase(w) && Text.SameWord(Text.Trim(suffix), w)
  {
    var t := Text.Trim(suffix);
    UnitSpelled(suffix, m);
    Text.LowerMeaning(t, "");
    forall w | Text.LowerCase(w) && Text.SameWord(t, w) ensures Text.Lower(t) == w {
      Text.LowerMeaning(t, w);
    }
  }

  // ---- The limit ----------------------------------------------------------

  /** Only digits and points come before the unit, which begins with neither. */
  ghost predicate NumberThenUnit(number: string, suffix: string) {
    && (forall i :: 0 <= i < |number| ==> '0' <= number[i] <= '9' || number[i] == '.')
    && (suffix != "" ==> !('0' <= suffix[0] <= '9') && suffix[0] != '.')
  }

  /** A number and a unit that doubles hold exactly give that many bytes,
      rounded to a whole number with halves up; less than half a byte and more
      than 2^64 are refused. */
  lemma LimitMeaning(f: Format, s: string, number: string, suffix: string, n: real, unit: nat)
    requires ValidFormat(f) && Text.Trim(s) == number + suffix
    requires ReadDecimal(number) == Some(n) && UnitOf(suffix) == Some(unit)
    requires NumberThenUnit(number, suffix)
    requires Representable(f, n) && Representable(f, n * unit as real)
    ensures ParseBandwidth(f, s) == HalfUp(n * unit as real)
  {
    ParsedParts(f, s, number, suffix);
    RoundIsIdempotent(f, n);
    ExactProduct(f, n, unit);
  }

  ghost function HalfUp(total: real): Result<nat> {
    if total > 0x1_0000_0000_0000_0000 as real || total < 0.5 then Err
    else if total >= U64_MAX as real then Ok(U64_MAX)
    else Ok((total + 0.5).Floor)
  }

  lemma ExactProduct(f: Format, n: real, unit: nat)
    requires ValidFormat(f) && n >= 0.0 && Representable(f, n * unit as real)
    ensures ToBytes(f, n, unit) == HalfUp(n * unit as real)
  {
    RoundIsIdempotent(f, n * unit as real);
  }

  /** The number ends where digits and points do; the rest is the unit. */
  lemma ParsedParts(f: Format, s: string, number: string, suffix: string)
    requires Text.Trim(s) == number + suffix
    requires NumberThenUnit(number, suffix)
    ensures number == "" || ReadDecimal(number).None? || UnitOf(suffix).None? ==> ParseBandwidth(f, s) == Err
    ensures number != "" && ReadDecimal(number).Some? && UnitOf(suffix).Some? ==>
      var n := Round(f, ReadDecimal(number).value);
      ParseBandwidth(f, s) == if n.None? then Err else ToBytes(f, n.value, UnitOf(suffix).value)
  {
    NumberEndsThere(number, suffix);
    var t := Text.Trim(s);
    assert t[..|number|] == number && t[|number|..] == suffix;
  }

  lemma {:induction false} NumberEndsThere(number: string, suffix: string)
    requires NumberThenUnit(number, suffix)
    ensures NumberEnd(number + suffix) == |number|
  {
    if number == "" {
      assert number + suffix == suffix;
    } else {
      assert (number + suffix)[1..] == number[1..] + suffix;
      NumberEndsThere(number[1..], suffix);
    }
  }
}
