/** Non-negative binary floating point: rounding a real number to the nearest
    representable one, ties to even. */
module Doubles {
  import opened Wrappers
  import opened Arithmetic

  /** Steps between neighbours run from 2^-low, doubling at most `range` times. */
  datatype Format = Format(low: nat, range: nat)

  const BINARY64 := Format(1074, 2045)

  /** The format holds 2^64. */
  predicate ValidFormat(f: Format) {
    f.range >= f.low + 12
  }

  lemma Binary64IsValid()
    ensures ValidFormat(BINARY64)
  {}

  /** A significand has 53 bits. */
  const BITS53: nat := 0x20_0000_0000_0000

  function NearestEven(q: real): int {
    var down := q.Floor;
    var rest := q - down as real;
    if rest < 0.5 || (rest == 0.5 && down % 2 == 0) then down else down + 1
  }

  function Limit(step: real): real {
    BITS53 as real * step
  }

  /** Round with the finest step that leaves at most 53 bits, from `step` up;
      beyond the coarsest the result is infinite. */
  function RoundFrom(x: real, step: real, left: nat): (r: Option<real>)
    requires x >= 0.0 && step > 0.0
    ensures r.Some? ==> r.value >= 0.0
    decreases left
  {
    if x < Limit(step) then
      assert x / step >= 0.0;
      var m := NearestEven(x / step);
      if m == BITS53 && left == 0 then None else Some(m as real * step)
    else if left == 0 then None
    else RoundFrom(x, 2.0 * step, left - 1)
  }

  function Finest(f: Format): (step: real)
    ensures step > 0.0
  {
    1.0 / Pow2(f.low) as real
  }

  function Round(f: Format, x: real): (r: Option<real>)
    requires x >= 0.0
    ensures r.Some? ==> r.value >= 0.0
  {
    RoundFrom(x, Finest(f), f.range)
  }

  // ---- The numbers of a format -------------------------------------------

  function Scale(step: real, j: nat): real
    decreases j
  {
    if j == 0 then step else Scale(2.0 * step, j - 1)
  }

  /** `x` has 53 bits at one of the steps from `step` up. */
  ghost predicate OnGrid(x: real, step: real, left: nat, m: nat, j: nat) {
    m < BITS53 && j <= left && x == m as real * Scale(step, j)
  }

  ghost predicate Representable(f: Format, x: real) {
    exists m: nat, j: nat :: OnGrid(x, Finest(f), f.range, m, j)
  }

  lemma {:induction false} ScaleIsPower(step: real, j: nat)
    ensures Scale(step, j) == Pow2(j) as real * step
    decreases j
  {
    if j > 0 { ScaleIsPower(2.0 * step, j - 1); }
  }

  lemma Quotient(k: int, step: real, x: real)
    requires step > 0.0 && x == k as real * step
    ensures x / step == k as real
  {}

  lemma Times(a: real, b: real, step: real)
    requires step > 0.0
    ensures a * step < b * step <==> a < b
  {}

  lemma Below(k: int, step: real)
    requires step > 0.0
    ensures k as real * step < Limit(step) <==> k < BITS53
  {
    Times(k as real, BITS53 as real, step);
  }

  lemma Regroup(m: nat, p: nat, step: real)
    ensures m as real * (p as real * step) == (m * p) as real * step
  {}

  lemma QuotientBounds(x: real, step: real)
    requires step > 0.0 && 0.0 <= x < Limit(step)
    ensures 0.0 <= x / step < BITS53 as real
  {
    assert (x / step) * step == x;
    Times(x / step, BITS53 as real, step);
  }

  lemma FixedHere(x: real, step: real, left: nat, k: nat)
    requires step > 0.0 && x >= 0.0 && x == k as real * step && k < BITS53
    ensures RoundFrom(x, step, left) == Some(x)
  {
    Below(k, step);
    Quotient(k, step, x);
    assert (k as real).Floor == k;
    assert NearestEven(x / step) == k;
    var r := RoundFrom(x, step, left);
    assert r.Some? && r.value == k as real * step;
  }

  lemma TooFine(x: real, step: real, left: nat, k: nat)
    requires step > 0.0 && x >= 0.0 && x == k as real * step && k >= BITS53 && left > 0
    ensures RoundFrom(x, step, left) == RoundFrom(x, 2.0 * step, left - 1)
  {
    Below(k, step);
  }

  lemma MultipleOf(x: real, m: nat, s: real, p: nat, step: real)
    requires x == m as real * s && s == p as real * step
    ensures x == (m * p) as real * step
  {
    Regroup(m, p, step);
  }

  lemma GridMultiple(x: real, step: real, left: nat, m: nat, j: nat)
    requires OnGrid(x, step, left, m, j)
    ensures x == (m * Pow2(j)) as real * step
  {
    ScaleIsPower(step, j);
    MultipleOf(x, m, Scale(step, j), Pow2(j), step);
  }

  /** Representable numbers are left alone. */
  lemma {:induction false} GridIsFixed(x: real, step: real, left: nat, m: nat, j: nat)
    requires x >= 0.0 && step > 0.0 && OnGrid(x, step, left, m, j)
    ensures RoundFrom(x, step, left) == Some(x)
    decreases j
  {
    GridMultiple(x, step, left, m, j);
    var k := m * Pow2(j);
    if k < BITS53 {
      FixedHere(x, step, left, k);
    } else {
      TooFine(x, step, left, k);
      GridIsFixed(x, 2.0 * step, left - 1, m, j - 1);
    }
  }

  lemma NearestInRange(q: real, n: nat)
    requires 0.0 <= q < n as real
    ensures 0 <= NearestEven(q) <= n
  {}

  lemma Halved(step: real)
    ensures Limit(step) == (BITS53 / 2) as real * Scale(step, 1)
  {
    assert Scale(step, 1) == Scale(2.0 * step, 0);
    assert Scale(2.0 * step, 0) == 2.0 * step;
    assert (BITS53 / 2) as real * 2.0 == BITS53 as real;
  }

  lemma RoundedHere(x: real, step: real, left: nat) returns (m: nat, j: nat)
    requires 0.0 <= x < Limit(step) && step > 0.0 && RoundFrom(x, step, left).Some?
    ensures OnGrid(RoundFrom(x, step, left).value, step, left, m, j)
  {
    QuotientBounds(x, step);
    NearestInRange(x / step, BITS53);
    m, j := NearestEven(x / step), 0;
    if m == BITS53 {
      Halved(step);
      m, j := BITS53 / 2, 1;
    }
  }

  /** Rounding yields representable numbers. */
  lemma {:induction false} RoundedOnGrid(x: real, step: real, left: nat) returns (m: nat, j: nat)
    requires x >= 0.0 && step > 0.0 && RoundFrom(x, step, left).Some?
    ensures OnGrid(RoundFrom(x, step, left).value, step, left, m, j)
    decreases left
  {
    if x < Limit(step) {
      m, j := RoundedHere(x, step, left);
    } else {
      m, j := RoundedOnGrid(x, 2.0 * step, left - 1);
      j := j + 1;
    }
  }

  /** What rounding can yield is exactly what it leaves alone. */
  lemma RoundIsIdempotent(f: Format, x: real)
    requires x >= 0.0
    ensures Representable(f, x) <==> Round(f, x) == Some(x)
    ensures Round(f, x).Some? ==>
      var y := Round(f, x).value;
      y >= 0.0 && Representable(f, y) && Round(f, y) == Some(y)
  {
    if Round(f, x).Some? {
      var y := Round(f, x).value;
      var m, j := RoundedOnGrid(x, Finest(f), f.range);
      ScaleIsPower(Finest(f), j);
      GridIsFixed(y, Finest(f), f.range, m, j);
    }
    if Representable(f, x) {
      var m: nat, j: nat :| OnGrid(x, Finest(f), f.range, m, j);
      GridIsFixed(x, Finest(f), f.range, m, j);
    }
  }

  // ---- Whole numbers ------------------------------------------------------

  lemma {:induction false} Pow2Adds(a: nat, b: nat)
    ensures Pow2(a + b) == Pow2(a) * Pow2(b)
    decreases b
  {
    if b > 0 { Pow2Adds(a, b - 1); }
  }

  lemma Cancel(p: nat, q: nat)
    requires q > 0
    ensures (p * q) as real * (1.0 / q as real) == p as real
  {
    var r := q as real;
    assert r * (1.0 / r) == 1.0;
    assert (p * q) as real == p as real * r;
    assert p as real * r * (1.0 / r) == p as real * (r * (1.0 / r));
  }

  lemma WholeSteps(f: Format, j: nat)
    requires j >= f.low
    ensures Scale(Finest(f), j) == Pow2(j - f.low) as real
  {
    ScaleIsPower(Finest(f), j);
    Pow2Adds(j - f.low, f.low);
    Cancel(Pow2(j - f.low), Pow2(f.low));
    assert Finest(f) == 1.0 / Pow2(f.low) as real;
  }

  lemma FineSteps(f: Format, j: nat)
    requires j < f.low
    ensures 2.0 * Scale(Finest(f), j) <= 1.0
  {
    ScaleIsPower(Finest(f), j);
    Pow2Grows(j + 1, f.low);
    Cancel(1, Pow2(f.low));
    AtMostHalf(Pow2(j), Pow2(f.low), Finest(f));
    assert Pow2(j + 1) == 2 * Pow2(j);
  }

  lemma AtMostHalf(p: nat, q: nat, step: real)
    requires 2 * p <= q && step > 0.0
    ensures 2.0 * (p as real * step) <= q as real * step
  {
    assert (2 * p) as real * step <= q as real * step;
  }

  /** Whole numbers of 53 bits are representable. */
  lemma SmallWhole(f: Format, r: nat)
    requires ValidFormat(f) && r < BITS53
    ensures Representable(f, r as real)
  {
    WholeSteps(f, f.low);
    assert OnGrid(r as real, Finest(f), f.range, r, f.low);
  }

  /** From 2^52 up there are only whole numbers. */
  lemma LargeIsWhole(f: Format, x: real) returns (k: nat)
    requires Representable(f, x) && x >= (BITS53 / 2) as real
    ensures x == k as real
  {
    var m: nat, j: nat :| OnGrid(x, Finest(f), f.range, m, j);
    if j < f.low {
      FineSteps(f, j);
      HalfAtMost(m, Scale(Finest(f), j));
    }
    WholeSteps(f, j);
    k := m * Pow2(j - f.low);
  }

  lemma HalfAtMost(m: nat, s: real)
    requires m < BITS53 && 2.0 * s <= 1.0
    ensures m as real * s < (BITS53 / 2) as real
  {
    TimesHalf(m, s);
  }

  lemma {:induction false} TimesHalf(m: nat, s: real)
    requires 2.0 * s <= 1.0
    ensures m as real * s <= m as real * 0.5
  {
    if m > 0 {
      TimesHalf(m - 1, s);
      assert m as real * s == (m - 1) as real * s + s;
    }
  }

  /** The search for the step skips every step too fine. */
  lemma {:induction false} StepReached(x: real, step: real, left: nat, j: nat)
    requires x >= 0.0 && step > 0.0 && j <= left && Scale(step, j) > 0.0
    requires j > 0 ==> x >= Limit(Scale(step, j - 1))
    ensures RoundFrom(x, step, left) == RoundFrom(x, Scale(step, j), left - j)
    decreases j
  {
    if j > 0 {
      ScaleIsPower(step, j - 1);
      assert Scale(step, j - 1) >= step;
      StepReached(x, 2.0 * step, left - 1, j - 1);
    }
  }

  const TWO64: nat := 0x1_0000_0000_0000_0000

  /** The largest 64-bit number rounds up to 2^64. */
  lemma TopRoundsUp(f: Format)
    requires ValidFormat(f)
    ensures Round(f, (TWO64 - 1) as real) == Some(TWO64 as real)
  {
    var x, j := (TWO64 - 1) as real, f.low + 11;
    WholeSteps(f, j);
    WholeSteps(f, j - 1);
    assert Pow2(10) == 1024 && Pow2(11) == 2048;
    StepReached(x, Finest(f), f.range, j);
    assert x / 2048.0 == BITS53 as real - 1.0 / 2048.0;
  }

  // ---- Rounding is to the nearest -----------------------------------------

  function Distance(x: real, y: real): real {
    if x < y then y - x else x - y
  }

  /** `x` lies halfway between `r` and `y`, and `r` is the even one: an even
      multiple of the gap between them. */
  ghost predicate EvenOfTwo(r: real, y: real) {
    exists e: int :: r == (2 * e) as real * Distance(r, y)
  }

  /** No other representable number is nearer, and of two that are equally
      near the even one is taken. */
  ghost predicate Nearest(x: real, r: real, y: real) {
    && Distance(x, r) <= Distance(x, y)
    && (Distance(x, r) == Distance(x, y) && r != y ==> EvenOfTwo(r, y))
  }

  lemma ScaledDistance(a: real, b: real, step: real)
    requires step > 0.0
    ensures Distance(a * step, b * step) == Distance(a, b) * step
  {
    assert a * step - b * step == (a - b) * step;
    Times(a, b, step);
  }

  lemma NearestInteger(q: real, k: int)
    ensures var m := NearestEven(q);
      && Distance(q, m as real) <= Distance(q, k as real)
      && (Distance(q, m as real) == Distance(q, k as real) && m != k ==>
            m % 2 == 0 && Distance(m as real, k as real) == 1.0)
  {
    var down, m := q.Floor, NearestEven(q);
    assert down as real <= q < down as real + 1.0;
    assert k <= down || k >= down + 1;
    if k <= down { assert k as real <= down as real; } else { assert k as real >= down as real + 1.0; }
  }

  lemma EvenMultiple(m: int, step: real, y: real)
    requires m % 2 == 0 && Distance(m as real * step, y) == step
    ensures EvenOfTwo(m as real * step, y)
  {
    var e := m / 2;
    assert 2 * e == m;
    assert (2 * e) as real * Distance(m as real * step, y) == m as real * step;
  }

  lemma TimesAtMost(a: real, b: real, step: real)
    requires step > 0.0
    ensures (a <= b <==> a * step <= b * step) && (a == b <==> a * step == b * step)
  {
    Times(a, b, step);
    Times(b, a, step);
  }

  lemma DistanceOrder(q: real, a: real, b: real, step: real)
    requires step > 0.0
    ensures Distance(q, a) <= Distance(q, b) <==> Distance(q * step, a * step) <= Distance(q * step, b * step)
    ensures Distance(q, a) == Distance(q, b) <==> Distance(q * step, a * step) == Distance(q * step, b * step)
  {
    ScaledDistance(q, a, step);
    ScaledDistance(q, b, step);
    SameOrder(Distance(q, a), Distance(q, b), step, Distance(q * step, a * step), Distance(q * step, b * step));
  }

  lemma SameOrder(a: real, b: real, step: real, x: real, y: real)
    requires step > 0.0 && x == a * step && y == b * step
    ensures (a <= b <==> x <= y) && (a == b <==> x == y)
  {
    TimesAtMost(a, b, step);
  }

  lemma UnitApart(m: int, b: real, step: real)
    requires step > 0.0 && m % 2 == 0 && Distance(m as real, b) == 1.0
    ensures EvenOfTwo(m as real * step, b * step)
  {
    ScaledDistance(m as real, b, step);
    EvenMultiple(m, step, b * step);
  }

  /** The nearest of the integers gives the nearest of the multiples. */
  lemma ScaledNearest(q: real, m: int, b: real, step: real)
    requires step > 0.0 && Distance(q, m as real) <= Distance(q, b)
    requires Distance(q, m as real) == Distance(q, b) && m as real != b ==>
      m % 2 == 0 && Distance(m as real, b) == 1.0
    ensures Nearest(q * step, m as real * step, b * step)
  {
    DistanceOrder(q, m as real, b, step);
    if Distance(q, m as real) == Distance(q, b) && m as real != b { UnitApart(m, b, step); }
  }

  lemma NearestMultiple(x: real, q: real, step: real, k: int)
    requires step > 0.0 && x == q * step
    ensures Nearest(x, NearestEven(q) as real * step, k as real * step)
  {
    NearestInteger(q, k);
    ScaledNearest(q, NearestEven(q), k as real, step);
  }

  lemma RoundsHere(x: real, step: real, left: nat) returns (q: real)
    requires 0.0 <= x < Limit(step) && step > 0.0 && RoundFrom(x, step, left).Some?
    ensures x == q * step && RoundFrom(x, step, left).value == NearestEven(q) as real * step
  {
    q := x / step;
  }

  lemma NearestHere(x: real, step: real, left: nat, y: real, k: int)
    requires 0.0 <= x < Limit(step) && step > 0.0 && y == k as real * step && RoundFrom(x, step, left).Some?
    ensures Nearest(x, RoundFrom(x, step, left).value, y)
  {
    var q := RoundsHere(x, step, left);
    NearestMultiple(x, q, step, k);
  }

  /** What lies below a number below `x` is farther from it. */
  lemma FartherBelow(x: real, r: real, y: real, y2: real)
    requires y < y2 <= x && Nearest(x, r, y2)
    ensures Nearest(x, r, y)
  {}

  /** The smallest number of the coarser half, as its own grid has it. */
  lemma CoarserStart(step: real, left: nat)
    requires step > 0.0
    ensures OnGrid(Limit(step), 2.0 * step, left, BITS53 / 2, 0)
  {
    Halved(step);
  }

  lemma MultipleOnGrid(y: real, step: real, left: nat, m: nat, j: nat) returns (k: int)
    requires OnGrid(y, step, left, m, j)
    ensures y == k as real * step
  {
    GridMultiple(y, step, left, m, j);
    k := m * Pow2(j);
  }

  lemma BelowLimit(y: real, step: real, left: nat, m: nat)
    requires step > 0.0 && OnGrid(y, step, left, m, 0)
    ensures y < Limit(step)
  {
    Below(m, step);
  }

  /** A number of the finer half is no competitor: the smallest of the coarser
      half lies between it and `x`. */
  lemma {:induction false} NearestFrom(x: real, step: real, left: nat, y: real, m: nat, j: nat)
    requires x >= 0.0 && step > 0.0 && OnGrid(y, step, left, m, j) && RoundFrom(x, step, left).Some?
    ensures Nearest(x, RoundFrom(x, step, left).value, y)
    decreases left
  {
    if x < Limit(step) {
      var k := MultipleOnGrid(y, step, left, m, j);
      NearestHere(x, step, left, y, k);
    } else if j > 0 {
      NearestFrom(x, 2.0 * step, left - 1, y, m, j - 1);
    } else {
      CoarserStart(step, left - 1);
      var start := Limit(step);
      NearestFrom(x, 2.0 * step, left - 1, start, BITS53 / 2, 0);
      BelowLimit(y, step, left, m);
      FartherBelow(x, RoundFrom(x, step, left).value, y, start);
    }
  }

  /** Rounding gives the nearest number of the format, ties to even. */
  lemma RoundIsNearest(f: Format, x: real, y: real)
    requires x >= 0.0 && Round(f, x).Some? && Representable(f, y)
    ensures Nearest(x, Round(f, x).value, y)
  {
    var m: nat, j: nat :| OnGrid(y, Finest(f), f.range, m, j);
    NearestFrom(x, Finest(f), f.range, y, m, j);
  }

  /** Binary64 has normal exponents from -1022 to 1023 and 52 bits after the
      first. */
  lemma Binary64Exponents()
    ensures -(BINARY64.low as int) == -1022 - 52 && BINARY64.range as int - BINARY64.low as int == 1023 - 52
    ensures BITS53 == 2 * Pow2(52)
  {
    Pow2Adds(26, 26);
    Pow2Adds(13, 13);
    assert Pow2(13) == 8192;
  }

  lemma NearestAtMost(q: real, m: nat)
    requires q <= m as real
    ensures NearestEven(q) <= m
  {}

  lemma FitsHere(x: real, step: real, left: nat, m: nat)
    requires 0.0 <= x <= m as real * step && step > 0.0 && m < BITS53
    ensures RoundFrom(x, step, left).Some?
  {
    var q := x / step;
    assert q * step == x;
    TimesAtMost(q, m as real, step);
    NearestAtMost(q, m);
    Below(m, step);
  }

  /** Nothing up to a number of the format rounds to infinity. */
  lemma {:induction false} FitsBelow(x: real, step: real, left: nat, y: real, m: nat, j: nat)
    requires 0.0 <= x <= y && step > 0.0 && OnGrid(y, step, left, m, j)
    ensures RoundFrom(x, step, left).Some?
    decreases j
  {
    if j == 0 {
      FitsHere(x, step, left, m);
    } else if x >= Limit(step) {
      FitsBelow(x, 2.0 * step, left - 1, y, m, j - 1);
    }
  }

  lemma TwoTo64(f: Format)
    requires ValidFormat(f)
    ensures OnGrid(TWO64 as real, Finest(f), f.range, BITS53 / 2, f.low + 12)
  {
    WholeSteps(f, f.low + 12);
    assert Pow2(12) == 4096;
  }

  lemma RoundFits(f: Format, x: real)
    requires ValidFormat(f) && 0.0 <= x <= TWO64 as real
    ensures Round(f, x).Some?
  {
    TwoTo64(f);
    FitsBelow(x, Finest(f), f.range, TWO64 as real, BITS53 / 2, f.low + 12);
  }
}
