/** Exponential backoff in 64-bit arithmetic, and the retry loop around it. */
module Retry {
  import opened Wrappers
  import opened Arithmetic
  import opened Machine

  const SECOND: nat := 1_000_000_000

  datatype RetryConfig = RetryConfig(maxRetries: nat, baseDelaySecs: nat, maxDelaySecs: nat) {
    /** The fields are a 32-bit and two 64-bit numbers. */
    ghost predicate InRange() {
      maxRetries <= U32_MAX && baseDelaySecs <= U64_MAX && maxDelaySecs <= U64_MAX
    }

    predicate Validates() {
      baseDelaySecs <= maxDelaySecs
    }

    function TotalAttempts(): nat {
      Min(maxRetries + 1, U32_MAX)
    }
  }

  // ---- The delay ---------------------------------------------------------

  function ShiftOne(retry: nat): Option<nat> {
    if retry < 64 then Some(Pow2(retry)) else None
  }

  function SaturatingMul(a: nat, b: nat): nat {
    Min(a * b, U64_MAX)
  }

  /** The delay before jitter, as computed. */
  function CappedDelay(c: RetryConfig, retry: nat): nat {
    var factor := ShiftOne(retry);
    Min(SaturatingMul(c.baseDelaySecs, if factor.Some? then factor.value else U64_MAX), c.maxDelaySecs)
  }

  lemma {:induction false} Pow2Sixteens(n: nat)
    ensures Pow2(n + 16) == 65536 * Pow2(n)
  {
    if n == 0 {
      assert Pow2(8) == 256;
      assert Pow2(12) == 4096;
      assert Pow2(16) == 65536;
    } else {
      Pow2Sixteens(n - 1);
    }
  }

  lemma Pow2At64(n: nat)
    requires n == 64
    ensures Pow2(n) == U64_MAX + 1
  {
    Pow2Sixteens(n - 64);
    Pow2Sixteens(n - 48);
    Pow2Sixteens(n - 32);
    Pow2Sixteens(n - 16);
  }

  lemma MulGrows(a: nat, x: nat, y: nat)
    requires x <= y
    ensures a * x <= a * y
  {}

  lemma AtLeastFactor(a: nat, b: nat)
    requires a > 0
    ensures a * b >= b
  {}

  /** Saturating before the cap changes nothing. */
  lemma SaturatedCap(a: nat, b: nat, cap: nat)
    requires cap <= U64_MAX
    ensures Min(SaturatingMul(a, b), cap) == Min(a * b, cap)
  {}

  lemma BigRetry(base: nat, retry: nat)
    requires base > 0 && retry >= 64
    ensures base * U64_MAX >= U64_MAX && base * Pow2(retry) > U64_MAX
  {
    Pow2At64(retry - (retry - 64));
    Pow2Grows(64, retry);
    AtLeastFactor(base, Pow2(retry));
    AtLeastFactor(base, U64_MAX);
  }

  lemma ExactBelow64(c: RetryConfig, retry: nat)
    requires c.InRange() && retry < 64
    ensures CappedDelay(c, retry) == Min(c.baseDelaySecs * Pow2(retry), c.maxDelaySecs)
  {
    SaturatedCap(c.baseDelaySecs, Pow2(retry), c.maxDelaySecs);
    assert CappedDelay(c, retry) == Min(SaturatingMul(c.baseDelaySecs, Pow2(retry)), c.maxDelaySecs);
  }

  /** Both products are past the saturation point, or both are zero. */
  lemma SameCap(base: nat, p: nat, cap: nat)
    requires cap <= U64_MAX && (base > 0 ==> base * U64_MAX >= U64_MAX && base * p > U64_MAX)
    ensures Min(SaturatingMul(base, U64_MAX), cap) == Min(base * p, cap)
  {
    SaturatedCap(base, U64_MAX, cap);
  }

  lemma ExactFrom64(c: RetryConfig, retry: nat)
    requires c.InRange() && retry >= 64
    ensures CappedDelay(c, retry) == Min(c.baseDelaySecs * Pow2(retry), c.maxDelaySecs)
  {
    if c.baseDelaySecs > 0 { BigRetry(c.baseDelaySecs, retry); }
    SameCap(c.baseDelaySecs, Pow2(retry), c.maxDelaySecs);
  }

  /** Shift, saturation and cap lose nothing: for every 64-bit base and limit
      and every retry the result is the mathematical one. */
  lemma CappedIsExact(c: RetryConfig, retry: nat)
    requires c.InRange()
    ensures CappedDelay(c, retry) == Min(c.baseDelaySecs * Pow2(retry), c.maxDelaySecs)
  {
    if retry < 64 { ExactBelow64(c, retry); } else { ExactFrom64(c, retry); }
  }

  lemma DelayIsMonotone(c: RetryConfig, a: nat, b: nat)
    requires c.InRange() && a <= b
    ensures CappedDelay(c, a) <= CappedDelay(c, b)
  {
    CappedIsExact(c, a);
    CappedIsExact(c, b);
    Pow2Grows(a, b);
    MulGrows(c.baseDelaySecs, Pow2(a), Pow2(b));
  }

  /** `validate` accepts a configuration exactly when the first retry waits the
      full base delay. */
  lemma ValidatesMeaning(c: RetryConfig)
    requires c.InRange()
    ensures c.Validates() <==> CappedDelay(c, 0) == c.baseDelaySecs
  {
    CappedIsExact(c, 0);
  }

  /** The jitter the generator may return: below the base, or nothing. */
  predicate Jitter(c: RetryConfig, jitter: nat) {
    if c.baseDelaySecs > 0 then jitter < c.baseDelaySecs else jitter == 0
  }

  function DelayForRetry(c: RetryConfig, retry: nat, jitter: nat): nat {
    CappedDelay(c, retry) + jitter
  }

  /** The sum never overflows 64 bits, whatever the jitter, exactly when the
      largest one does not; limit plus base up to 2^64 is enough. */
  lemma DelayFits(c: RetryConfig, retry: nat)
    requires c.InRange()
    ensures (forall jitter: nat :: Jitter(c, jitter) ==> DelayForRetry(c, retry, jitter) <= U64_MAX)
       <==> CappedDelay(c, retry) + c.baseDelaySecs <= U64_MAX + 1 || c.baseDelaySecs == 0
    ensures c.maxDelaySecs + c.baseDelaySecs <= U64_MAX + 1 ==>
      CappedDelay(c, retry) + c.baseDelaySecs <= U64_MAX + 1
  {
    if c.baseDelaySecs > 0 {
      var top := c.baseDelaySecs - 1;
      assert Jitter(c, top);
      assert DelayForRetry(c, retry, top) == CappedDelay(c, retry) + top;
    }
  }

  /** The largest sum over all retries of a run is the last one's. */
  lemma OverflowIff(c: RetryConfig)
    requires c.InRange()
    ensures (exists retry: nat, jitter: nat ::
               retry + 1 < c.TotalAttempts() && Jitter(c, jitter) && DelayForRetry(c, retry, jitter) > U64_MAX)
       <==> c.TotalAttempts() >= 2 && c.baseDelaySecs > 0
            && CappedDelay(c, c.TotalAttempts() - 2) + c.baseDelaySecs > U64_MAX + 1
  {
    if c.TotalAttempts() >= 2 {
      var last := c.TotalAttempts() - 2;
      forall retry: nat | retry + 1 < c.TotalAttempts() ensures CappedDelay(c, retry) <= CappedDelay(c, last) {
        DelayIsMonotone(c, retry, last);
      }
      if c.baseDelaySecs > 0 {
        var top := c.baseDelaySecs - 1;
        assert Jitter(c, top) && DelayForRetry(c, last, top) == CappedDelay(c, last) + top;
      }
    }
  }

  /** A configuration that validates and overflows on its first retry. */
  lemma ValidConfigOverflows()
    ensures var c := RetryConfig(1, U64_MAX, U64_MAX);
            c.InRange() && c.Validates() && Jitter(c, 1) && DelayForRetry(c, 0, 1) == U64_MAX + 1
  {
    CappedIsExact(RetryConfig(1, U64_MAX, U64_MAX), 0);
  }

  // ---- The loop ----------------------------------------------------------

  /** Durations are nanoseconds. */
  datatype RetryAction = Again | RetryAfter(wait: nat) | Abort

  datatype Attempt<T, E> = Success(value: T) | Failure(error: E, action: RetryAction)

  datatype Answer<T, E> = Answered(value: T) | Refused(error: E) | Panicked

  datatype Event = PauseLine(delay: nat) | Sleep(delay: nat) | BackOnTrack | GivingUp

  /** What a build does when a 64-bit sum overflows. */
  datatype Overflow = Panics | Wraps

  /** All that the loop does not control: the build, what each attempt would
      do and the jitter drawn after it. */
  datatype World<T, E> = World(overflow: Overflow, trace: nat -> Attempt<T, E>, jitter: nat -> nat) {
    ghost predicate JitterOk(c: RetryConfig) {
      forall i: nat :: Jitter(c, jitter(i))
    }
  }

  /** The seconds the program computes, if it gets that far. */
  function ComputedDelay(c: RetryConfig, overflow: Overflow, retry: nat, jitter: nat): Option<nat> {
    var d := DelayForRetry(c, retry, jitter);
    if d <= U64_MAX then Some(d)
    else if overflow.Panics? then None
    else Some(d % (U64_MAX + 1))
  }

  /** The pause after attempt `k` fails. */
  function PauseAfter<T, E>(c: RetryConfig, w: World<T, E>, k: nat): Option<nat> {
    var a := w.trace(k);
    if a.Failure? && a.action.RetryAfter? then Some(Min(a.action.wait, c.maxDelaySecs * SECOND))
    else
      var d := ComputedDelay(c, w.overflow, k, w.jitter(k));
      if d.None? then None else Some(d.value * SECOND)
  }

  /** No pause is longer: the limit and the base together. */
  function FullPause(c: RetryConfig): nat {
    (c.maxDelaySecs + c.baseDelaySecs) * SECOND
  }

  function OnePause(pause: Option<nat>): seq<Event> {
    if pause.None? then [] else [PauseLine(pause.value), Sleep(pause.value)]
  }

  /** The pauses before attempt `k`. */
  function Pauses<T, E>(c: RetryConfig, w: World<T, E>, k: nat): seq<Event> {
    if k == 0 then [] else Pauses(c, w, k - 1) + OnePause(PauseAfter(c, w, k - 1))
  }

  predicate Retryable<T, E>(a: Attempt<T, E>) {
    a.Failure? && !a.action.Abort?
  }

  // ---- What a run is, without the functions that compute it ---------------

  /** Seconds of the backoff after attempt `k`: base * 2^k, at most the limit,
      and the jitter on top. */
  ghost function BackoffSecs<T, E>(c: RetryConfig, w: World<T, E>, k: nat): nat {
    var full := c.baseDelaySecs * Pow2(k);
    (if full < c.maxDelaySecs then full else c.maxDelaySecs) + w.jitter(k)
  }

  /** After attempt `k` the loop pauses for `d` nanoseconds: what the server
      asked for up to the limit, or the backoff, modulo 2^64 in a build that
      wraps. */
  ghost predicate PausesFor<T, E>(c: RetryConfig, w: World<T, E>, k: nat, d: nat) {
    var a, limit := w.trace(k), c.maxDelaySecs * 1_000_000_000;
    && a.Failure?
    && (a.action.RetryAfter? ==> d == if a.action.wait < limit then a.action.wait else limit)
    && (a.action.Again? ==>
          var secs := BackoffSecs(c, w, k);
          if secs < 0x1_0000_0000_0000_0000 then d == secs * 1_000_000_000
          else w.overflow.Wraps? && d == (secs - 0x1_0000_0000_0000_0000) * 1_000_000_000)
    && !a.action.Abort?
  }

  /** The first `n` pauses, each announced and then slept. */
  ghost predicate Narrated<T, E>(c: RetryConfig, w: World<T, E>, log: seq<Event>, n: nat) {
    2 * n <= |log| && forall k :: 0 <= k < n ==> PausedAt(c, w, log, k)
  }

  ghost predicate PausedAt<T, E>(c: RetryConfig, w: World<T, E>, log: seq<Event>, k: nat) {
    && 2 * k + 1 < |log| && log[2 * k].PauseLine? && PausesFor(c, w, k, log[2 * k].delay)
    && log[2 * k + 1] == Sleep(log[2 * k].delay)
  }

  /** How a run of `done` attempts ends, and the line it ends with. */
  ghost predicate EndsWith<T, E>(
    c: RetryConfig, w: World<T, E>, r: Answer<T, E>, line: seq<Event>, done: nat)
    requires done >= 1
  {
    var last, allowed := w.trace(done - 1), if c.maxRetries < 0xFFFF_FFFF then c.maxRetries + 1 else 0xFFFF_FFFF;
    match last
    case Success(val) => r == Answered(val) && line == if done > 1 then [BackOnTrack] else []
    case Failure(e, action) =>
      if action.Abort? then r == Refused(e) && line == []
      else if done == allowed then r == Refused(e) && line == if done > 1 then [GivingUp] else []
      else
        && r == Panicked && line == [] && w.overflow.Panics? && action.Again?
        && BackoffSecs(c, w, done - 1) >= 0x1_0000_0000_0000_0000
  }

  lemma WrapsOnce(secs: nat)
    requires U64_MAX < secs <= 2 * U64_MAX
    ensures secs % (U64_MAX + 1) == secs - 0x1_0000_0000_0000_0000
  {
    var q := secs - (U64_MAX + 1);
    assert secs == 1 * (U64_MAX + 1) + q && q < U64_MAX + 1;
  }

  /** The computed delay is the backoff, as far as 64 bits go. */
  lemma DelayMeaning<T, E>(c: RetryConfig, w: World<T, E>, k: nat)
    requires c.InRange() && w.jitter(k) <= U64_MAX
    ensures var secs, d := BackoffSecs(c, w, k), ComputedDelay(c, w.overflow, k, w.jitter(k));
      && (secs <= U64_MAX ==> d == Some(secs))
      && (secs > U64_MAX ==> d == if w.overflow.Panics? then None else Some(secs - 0x1_0000_0000_0000_0000))
  {
    CappedIsExact(c, k);
    var secs := BackoffSecs(c, w, k);
    assert secs == DelayForRetry(c, k, w.jitter(k)) && secs <= 2 * U64_MAX;
    if secs > U64_MAX { WrapsOnce(secs); }
  }

  lemma PauseMeaning<T, E>(c: RetryConfig, w: World<T, E>, k: nat)
    requires c.InRange() && w.trace(k).Failure? && !w.trace(k).action.Abort? && w.jitter(k) <= U64_MAX
    ensures var d := PauseAfter(c, w, k);
      && (d.Some? ==> PausesFor(c, w, k, d.value))
      && (d.None? <==>
            w.overflow.Panics? && w.trace(k).action.Again? && BackoffSecs(c, w, k) >= 0x1_0000_0000_0000_0000)
  {
    DelayMeaning(c, w, k);
  }

  lemma {:induction false} PausesNarrated<T, E>(c: RetryConfig, w: World<T, E>, n: nat)
    requires c.InRange() && (forall k :: 0 <= k < n ==> w.jitter(k) <= U64_MAX)
    requires forall k :: 0 <= k < n ==> Retryable(w.trace(k)) && PauseAfter(c, w, k).Some?
    ensures |Pauses(c, w, n)| == 2 * n && Narrated(c, w, Pauses(c, w, n), n)
  {
    if n > 0 {
      PausesNarrated(c, w, n - 1);
      PauseMeaning(c, w, n - 1);
      var before, log := Pauses(c, w, n - 1), Pauses(c, w, n);
      forall k | 0 <= k < n - 1 ensures PausedAt(c, w, log, k) {
        assert PausedAt(c, w, before, k) && log[2 * k] == before[2 * k] && log[2 * k + 1] == before[2 * k + 1];
      }
    }
  }

  /** Attempts `0` to `n - 1` failed, were not to be given up, and the pause
      after each could be computed. */
  ghost predicate Repeats<T, E>(c: RetryConfig, w: World<T, E>, n: nat) {
    forall k :: 0 <= k < n ==> Retryable(w.trace(k)) && PauseAfter(c, w, k).Some?
  }

  /** A whole run of `done` attempts. */
  ghost predicate IsRun<T, E>(c: RetryConfig, w: World<T, E>, r: Answer<T, E>, log: seq<Event>, done: nat) {
    // Every attempt but the last failed and was not to be given up.
    && done >= 1 && (forall k :: 0 <= k < done - 1 ==> w.trace(k).Failure? && !w.trace(k).action.Abort?)
    && done <= c.maxRetries + 1 && done <= 0xFFFF_FFFF
    // One pause after each of them, announced and slept, and one line to close.
    && Narrated(c, w, log, done - 1) && EndsWith(c, w, r, log[2 * (done - 1)..], done)
    && Slept(log) <= (done - 1) * FullPause(c)
  }

  /** What has been narrated stays so when a line follows. */
  lemma LineFollows<T, E>(c: RetryConfig, w: World<T, E>, before: seq<Event>, n: nat, line: seq<Event>)
    requires |before| == 2 * n && Narrated(c, w, before, n)
    ensures Narrated(c, w, before + line, n) && (before + line)[2 * n..] == line
  {
    var log := before + line;
    forall k | 0 <= k < n ensures PausedAt(c, w, log, k) {
      assert PausedAt(c, w, before, k) && log[2 * k] == before[2 * k] && log[2 * k + 1] == before[2 * k + 1];
    }
  }

  lemma FittingLine<T, E>(c: RetryConfig, w: World<T, E>, r: Answer<T, E>, line: seq<Event>, done: nat)
    requires done >= 1 && EndsWith(c, w, r, line, done)
    ensures line == [] || line == [BackOnTrack] || line == [GivingUp]
  {}

  /** The pauses so far and a fitting line make a run. */
  lemma RunEnds<T, E>(c: RetryConfig, w: World<T, E>, n: nat, r: Answer<T, E>, line: seq<Event>)
    requires c.InRange() && w.JitterOk(c) && Repeats(c, w, n) && n < c.TotalAttempts()
    requires EndsWith(c, w, r, line, n + 1)
    ensures IsRun(c, w, r, Pauses(c, w, n) + line, n + 1)
  {
    JitterFits(c, w);
    PausesNarrated(c, w, n);
    LineFollows(c, w, Pauses(c, w, n), n, line);
    FittingLine(c, w, r, line, n + 1);
    SleptInRun(c, w, n, line);
  }

  lemma JitterFits<T, E>(c: RetryConfig, w: World<T, E>)
    requires c.InRange() && w.JitterOk(c)
    ensures forall k: nat :: w.jitter(k) <= U64_MAX
  {
    forall k: nat ensures w.jitter(k) <= U64_MAX { assert Jitter(c, w.jitter(k)); }
  }

  /** The loop ends on the first success, the first abort or the last allowed
      attempt, and reports exactly that attempt; it panics exactly where the
      delay overflows in a build that checks. `done` counts the attempts made. */
  method RetryWithBackoff<T, E>(c: RetryConfig, w: World<T, E>)
    returns (r: Answer<T, E>, log: seq<Event>, done: nat)
    requires c.InRange() && w.JitterOk(c)
    ensures IsRun(c, w, r, log, done)
  {
    var totalAttempts := c.TotalAttempts();
    var pausedAtLeastOnce := false;
    log := [];
    var attempt := 0;
    while true
      invariant attempt < totalAttempts
      invariant pausedAtLeastOnce <==> attempt > 0
      invariant Repeats(c, w, attempt) && log == Pauses(c, w, attempt)
      decreases totalAttempts - attempt
    {
      done := attempt + 1;
      var line := [];
      match w.trace(attempt) {
        case Success(val) =>
          if pausedAtLeastOnce { line := [BackOnTrack]; }
          r := Answered(val);
        case Failure(e, action) =>
          r := Refused(e);
          if !action.Abort? {
            if attempt + 1 < totalAttempts {
              PauseIsKnown(c, w, attempt);
              var delay := PauseAfter(c, w, attempt);
              if delay.Some? {
                log := log + OnePause(delay);
                pausedAtLeastOnce := true;
                attempt := attempt + 1;
                continue;
              }
              r := Panicked;
            } else if pausedAtLeastOnce {
              line := [GivingUp];
            }
          }
      }
      RunEnds(c, w, attempt, r, line);
      log := log + line;
      return;
    }
  }

  lemma PauseIsKnown<T, E>(c: RetryConfig, w: World<T, E>, k: nat)
    requires c.InRange() && w.JitterOk(c) && Retryable(w.trace(k))
    ensures PauseAfter(c, w, k).None? <==>
      w.overflow.Panics? && w.trace(k).action.Again? && BackoffSecs(c, w, k) >= 0x1_0000_0000_0000_0000
  {
    assert Jitter(c, w.jitter(k));
    PauseMeaning(c, w, k);
  }

  function Slept(log: seq<Event>): nat {
    if log == [] then 0
    else Slept(log[..|log| - 1]) + if log[|log| - 1].Sleep? then log[|log| - 1].delay else 0
  }

  lemma SleptAppend(log: seq<Event>, e: Event)
    ensures Slept(log + [e]) == Slept(log) + if e.Sleep? then e.delay else 0
  {
    assert (log + [e])[..|log|] == log;
  }

  lemma SleptPause(log: seq<Event>, pause: Option<nat>)
    ensures Slept(log + OnePause(pause)) == Slept(log) + if pause.Some? then pause.value else 0
  {
    if pause.Some? {
      SleptAppend(log, PauseLine(pause.value));
      SleptAppend(log + [PauseLine(pause.value)], Sleep(pause.value));
      assert log + OnePause(pause) == log + [PauseLine(pause.value)] + [Sleep(pause.value)];
    } else {
      assert log + OnePause(pause) == log;
    }
  }

  lemma PauseBounded<T, E>(c: RetryConfig, w: World<T, E>, k: nat)
    requires c.InRange() && Jitter(c, w.jitter(k)) && PauseAfter(c, w, k).Some?
    ensures PauseAfter(c, w, k).value <= FullPause(c)
  {
    var d := DelayForRetry(c, k, w.jitter(k));
    if d > U64_MAX { assert d % (U64_MAX + 1) <= d; }
  }

  /** The time slept is at most one full pause per retry, wrapped or not. */
  lemma {:induction false} TotalSleepBounded<T, E>(c: RetryConfig, w: World<T, E>, k: nat)
    requires c.InRange() && w.JitterOk(c)
    ensures Slept(Pauses(c, w, k)) <= k * FullPause(c)
  {
    if k > 0 {
      var pause := PauseAfter(c, w, k - 1);
      TotalSleepBounded(c, w, k - 1);
      OneMoreTime(k - 1, FullPause(c));
      SleptPause(Pauses(c, w, k - 1), pause);
      if pause.Some? { PauseBounded(c, w, k - 1); }
    }
  }

  /** The closing line takes no time. */
  lemma SleptInRun<T, E>(c: RetryConfig, w: World<T, E>, n: nat, line: seq<Event>)
    requires c.InRange() && w.JitterOk(c) && (line == [] || line == [BackOnTrack] || line == [GivingUp])
    ensures Slept(Pauses(c, w, n) + line) <= n * FullPause(c)
  {
    var log := Pauses(c, w, n);
    TotalSleepBounded(c, w, n);
    if line == [] { assert log + line == log; } else { SleptAppend(log, line[0]); }
  }

  lemma OneMoreTime(k: nat, full: nat)
    ensures (k + 1) * full == k * full + full
  {}

  /** Where no sum can overflow the run never panics, and both builds agree. */
  lemma NeverPanics<T, E>(c: RetryConfig, w: World<T, E>, k: nat)
    requires c.InRange() && w.JitterOk(c) && (c.baseDelaySecs == 0 || c.maxDelaySecs + c.baseDelaySecs <= U64_MAX + 1)
    ensures PauseAfter(c, w, k).Some?
    ensures PauseAfter(c, w.(overflow := Panics), k) == PauseAfter(c, w.(overflow := Wraps), k)
  {
    DelayFits(c, k);
    assert Jitter(c, w.jitter(k));
  }
}
