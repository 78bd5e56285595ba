/** Waiting for the password command: poll with growing naps, kill on timeout. */
module PollLoop {
  import opened Arithmetic

  const MS: nat := 1_000_000
  const CAP: nat := 50 * MS

  /** The poll interval before nap `k`, before clamping. */
  function Interval(k: nat): nat {
    Min(5 * MS * Pow2(k), CAP)
  }

  lemma IntervalStep(k: nat)
    ensures Interval(k + 1) == Min(Interval(k) * 2, CAP)
    ensures Interval(0) == 5_000_000 && (k >= 4 ==> Interval(k) == 50_000_000)
    ensures 5_000_000 <= Interval(k) <= 50_000_000
  {
    if k >= 4 { assert Pow2(4) == 16; Pow2Grows(4, k); }
  }

  /** The least time `k` unclamped naps take. */
  function Budget(k: nat): nat {
    if k == 0 then 0 else Budget(k - 1) + Interval(k - 1)
  }

  lemma {:induction false} BudgetShape(k: nat)
    ensures k >= 4 ==> Budget(k) == 75_000_000 + (k - 4) * 50_000_000
  {
    if k > 4 {
      BudgetShape(k - 1);
      IntervalStep(k - 1);
    } else if k == 4 {
      assert Interval(0) == 5 * MS && Interval(1) == 10 * MS && Interval(2) == 20 * MS && Interval(3) == 40 * MS;
      assert Budget(1) == 5 * MS && Budget(2) == 15 * MS && Budget(3) == 35 * MS && Budget(4) == 75 * MS;
    }
  }

  datatype Status = Exited | Running | WaitError

  datatype PollResult = Finished | TimedOut | Broken

  /** A nap: when it was asked for, and for how long. */
  datatype Nap = Nap(at: nat, length: nat)

  /** No nap asks for time beyond the deadline, and none is empty. */
  ghost predicate Clamped(timeout: nat, naps: seq<Nap>) {
    forall k :: 0 <= k < |naps| ==>
      naps[k].at < timeout && naps[k].length == Min(Interval(k), timeout - naps[k].at)
  }

  /** The clock has not been outrun: the naps so far took their budget, unless
      the deadline came first. */
  ghost predicate OnTime(timeout: nat, k: nat, now: nat) {
    now >= Min(Budget(k), timeout)
  }

  lemma ClampedAppend(timeout: nat, naps: seq<Nap>, at: nat)
    requires Clamped(timeout, naps) && at < timeout
    ensures Clamped(timeout, naps + [Nap(at, Min(Interval(|naps|), timeout - at))])
  {}

  /** How much of the time is left when the naps so far took theirs. */
  ghost function Left(timeout: nat, k: nat): nat {
    timeout - Min(Budget(k), timeout)
  }

  /** One more nap, taken at `at` for the clamped interval and then some. */
  lemma NapTaken(timeout: nat, k: nat, at: nat, oversleep: nat)
    requires OnTime(timeout, k, at) && at < timeout
    ensures OnTime(timeout, k + 1, at + Min(Interval(k), timeout - at) + oversleep)
    ensures Interval(k + 1) == Min(Interval(k) * 2, CAP)
    ensures Budget(k) < timeout && Left(timeout, k + 1) < Left(timeout, k)
  {
    IntervalStep(k);
  }

  /** `statuses` is what each poll would find. The clock is free to run ahead
      by any amount, but a nap takes at least as long as it was asked to. */
  method WaitWithTimeout(timeout: nat, statuses: nat -> Status)
    returns (r: PollResult, naps: seq<Nap>, killed: bool, elapsed: nat)
    ensures Clamped(timeout, naps)
    // Each poll but the last found the command running.
    ensures forall k :: 0 <= k < |naps| ==> statuses(k).Running?
    // It is killed only past the deadline, and only when still running.
    ensures r == match statuses(|naps|)
                 case Exited => Finished
                 case Running => TimedOut
                 case WaitError => Broken
    ensures killed <==> r.TimedOut?
    ensures r.TimedOut? ==> elapsed >= timeout
    // However the clock behaves, the naps before the last took their full budget.
    ensures |naps| > 0 ==> Budget(|naps| - 1) < timeout
  {
    var now: nat, poll: nat := 0, 5 * MS;
    naps, killed := [], false;
    while true
      invariant poll == Interval(|naps|)
      invariant Clamped(timeout, naps) && OnTime(timeout, |naps|, now)
      invariant forall k :: 0 <= k < |naps| ==> statuses(k).Running?
      invariant |naps| > 0 ==> Budget(|naps| - 1) < timeout
      decreases Left(timeout, |naps|)
    {
      var drift: nat :| true;
      elapsed := now + drift;
      match statuses(|naps|) {
        case Exited => r := Finished; return;
        case WaitError => r := Broken; return;
        case Running =>
      }
      var remaining := if timeout >= elapsed then timeout - elapsed else 0;
      if remaining == 0 {
        killed := true;
        r := TimedOut;
        return;
      }
      var oversleep: nat :| true;
      NapTaken(timeout, |naps|, elapsed, oversleep);
      ClampedAppend(timeout, naps, elapsed);
      var length := Min(poll, remaining);
      naps := naps + [Nap(elapsed, length)];
      now := elapsed + length + oversleep;
      poll := Min(poll * 2, CAP);
    }
  }

  /** A command that never exits is killed after at most
      4 + ceil((T - 75 ms) / 50 ms) naps, for a timeout T above 75 ms. */
  lemma NapsBounded(timeout: nat, n: nat)
    requires timeout > 75_000_000 && n > 0 && Budget(n - 1) < timeout
    ensures n <= 4 + (timeout - 75_000_000 + 50_000_000 - 1) / 50_000_000
  {
    BudgetShape(n - 1);
  }

  /** A shorter timeout allows as many naps as fit the first four intervals. */
  lemma ShortNaps(timeout: nat, n: nat)
    requires timeout <= 75_000_000 && n > 0 && Budget(n - 1) < timeout
    ensures n <= 4
  {
    if n > 4 { BudgetShape(n - 1); }
  }
}
