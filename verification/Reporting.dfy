/** What a run reports after each cycle: health, metrics and notifications,
    against the history of cycles. Times are seconds. */
module Reporting {
  import opened Wrappers
  import opened Machine

  const UNHEALTHY_CONSECUTIVE_FAILURES: nat := 5

  datatype SkipReason =
    | ByState | OnDisk | ByMediaType | ByDateRange | ByLivePhoto | ByFilename | ByExcludedAlbum
    | AmPmVariant | Duplicates | RetryExhausted | RetryOnly

  datatype Counter =
    | AssetsSeen | Downloaded | Failed | BytesDownloaded | DiskBytesWritten | ExifFailures | StateWriteFailures
    | EnumerationErrors | PaginationShortfallWarnings | PaginationShortfallAssets | TailProbes
    | CountUndercountAssets | SyncTokenBlockedCycles | RecoveryAttempts | RecoverySuccesses
    | FullEnumeration(reason: string) | InterruptedCycles | Skipped(why: SkipReason)

  datatype SyncStats = SyncStats(
    assetsSeen: nat, downloaded: nat, failed: nat, bytesDownloaded: nat, diskBytesWritten: nat, exifFailures: nat,
    stateWriteFailures: nat, enumerationErrors: nat, shortfallWarnings: nat, shortfallAssets: nat, tailProbes: nat,
    undercountAssets: nat, syncTokenBlocked: bool, recoveryAttempts: nat, recoverySuccesses: nat,
    fullEnumerationReason: Option<string>, interrupted: bool, skipped: SkipReason -> nat, elapsedSecs: nat)

  function One(b: bool): nat {
    if b then 1 else 0
  }

  /** What one completed cycle adds to each counter. */
  function Contribution(s: SyncStats, c: Counter): nat {
    match c
    case AssetsSeen => s.assetsSeen
    case Downloaded => s.downloaded
    case Failed => s.failed
    case BytesDownloaded => s.bytesDownloaded
    case DiskBytesWritten => s.diskBytesWritten
    case ExifFailures => s.exifFailures
    case StateWriteFailures => s.stateWriteFailures
    case EnumerationErrors => s.enumerationErrors
    case PaginationShortfallWarnings => s.shortfallWarnings
    case PaginationShortfallAssets => s.shortfallAssets
    case TailProbes => s.tailProbes
    case CountUndercountAssets => s.undercountAssets
    case SyncTokenBlockedCycles => One(s.syncTokenBlocked)
    case RecoveryAttempts => s.recoveryAttempts
    case RecoverySuccesses => s.recoverySuccesses
    case FullEnumeration(reason) => One(s.fullEnumerationReason == Some(reason))
    case InterruptedCycles => One(s.interrupted)
    case Skipped(why) => s.skipped(why)
  }

  /** The counters in the order `Update` visits them. */
  function Section(c: Counter): nat {
    match c
    case AssetsSeen | Downloaded | Failed | BytesDownloaded | DiskBytesWritten | ExifFailures => 0
    case StateWriteFailures | EnumerationErrors | PaginationShortfallWarnings | PaginationShortfallAssets
       | TailProbes | CountUndercountAssets => 1
    case SyncTokenBlockedCycles | RecoveryAttempts | RecoverySuccesses | FullEnumeration(_) | InterruptedCycles => 2
    case Skipped(why) =>
      match why
      case ByState | OnDisk | ByMediaType | ByDateRange | ByLivePhoto | ByFilename => 3
      case ByExcludedAlbum | AmPmVariant | Duplicates => 4
      case RetryExhausted | RetryOnly => 5
  }

  // ---- Cycles ------------------------------------------------------------

  datatype CycleStatus = Success | PartialFailure | SessionExpired | Interrupted

  /** Session expiry outranks interruption, which outranks partial failure. */
  function ClassifyCycle(s: SyncStats, failedCount: nat, sessionExpired: bool): CycleStatus {
    if sessionExpired then SessionExpired
    else if s.interrupted then Interrupted
    else if failedCount > 0 then PartialFailure
    else Success
  }

  datatype Failure = SyncFailures(count: nat) | Expired | WasInterrupted

  datatype Cycle =
    | Completed(stats: SyncStats, failedCount: nat, sessionExpired: bool, at: int)
    | SkippedCycle(at: int)
  {
    function Status(): CycleStatus {
      if SkippedCycle? then Success else ClassifyCycle(stats, failedCount, sessionExpired)
    }

    function Reason(): Option<Failure> {
      match Status()
      case Success => None
      case PartialFailure => Some(SyncFailures(if Completed? then failedCount else 0))
      case SessionExpired => Some(Expired)
      case Interrupted => Some(WasInterrupted)
    }
  }

  datatype Health = Health(
    lastSyncAt: Option<int>, lastSuccessAt: Option<int>, consecutiveFailures: nat, lastError: Option<Failure>)

  class HealthStatus {
    var lastSyncAt: Option<int>
    var lastSuccessAt: Option<int>
    var consecutiveFailures: nat
    var lastError: Option<Failure>

    function State(): Health
      reads this
    {
      Health(lastSyncAt, lastSuccessAt, consecutiveFailures, lastError)
    }

    constructor ()
      ensures State() == Health(None, None, 0, None)
    {
      lastSyncAt, lastSuccessAt, consecutiveFailures, lastError := None, None, 0, None;
    }

    method RecordSuccess(now: int)
      modifies this
      ensures State() == Health(Some(now), Some(now), 0, None)
    {
      lastSyncAt := Some(now);
      lastSuccessAt := Some(now);
      consecutiveFailures := 0;
      lastError := None;
    }

    method RecordFailure(now: int, error: Failure)
      requires consecutiveFailures < U32_MAX
      modifies this
      ensures State() == Health(Some(now), old(lastSuccessAt), old(consecutiveFailures) + 1, Some(error))
    {
      lastSyncAt := Some(now);
      consecutiveFailures := consecutiveFailures + 1;
      lastError := Some(error);
    }
  }

  // ---- The history as a whole --------------------------------------------

  /** Length of the run of unsuccessful cycles that ends the history. */
  function TrailingFailures(h: seq<Cycle>): nat {
    if h == [] || h[|h| - 1].Status().Success? then 0 else 1 + TrailingFailures(h[..|h| - 1])
  }

  function LastSuccess(h: seq<Cycle>): Option<int> {
    if h == [] then None
    else if h[|h| - 1].Status().Success? then Some(h[|h| - 1].at)
    else LastSuccess(h[..|h| - 1])
  }

  function HealthAfter(h: seq<Cycle>): Health {
    if h == [] then Health(None, None, 0, None)
    else Health(Some(h[|h| - 1].at), LastSuccess(h), TrailingFailures(h), h[|h| - 1].Reason())
  }

  /** Completed cycles only: a skipped one counts nothing. */
  function SumOf(h: seq<Cycle>, c: Counter): nat {
    if h == [] then 0
    else
      var last := h[|h| - 1];
      SumOf(h[..|h| - 1], c) + if last.Completed? then Contribution(last.stats, c) else 0
  }

  function Expirations(h: seq<Cycle>): nat {
    if h == [] then 0
    else Expirations(h[..|h| - 1]) + One(h[|h| - 1].Status().SessionExpired?)
  }

  datatype Notice = SyncComplete | SyncFailed(why: Failure)

  /** One notice per completed cycle, none when the session expired. */
  function Notices(h: seq<Cycle>): seq<Notice> {
    if h == [] then []
    else
      var last := h[|h| - 1];
      Notices(h[..|h| - 1]) +
        if last.SkippedCycle? || last.Status().SessionExpired? then []
        else if last.Status().Success? then [SyncComplete] else [SyncFailed(last.Reason().value)]
  }

  // ---- The same in the raw facts of the cycles ----------------------------

  /** A skipped cycle, or one whose session held, that ran to its end and lost
      no download. */
  predicate Succeeded(c: Cycle) {
    c.Completed? ==> !c.sessionExpired && !c.stats.interrupted && c.failedCount == 0
  }

  /** Why a cycle did not succeed: the expired session before the interruption,
      and that before the failed downloads. */
  ghost predicate FailedBecause(c: Cycle, why: Failure) {
    && c.Completed?
    && match why
       case Expired => c.sessionExpired
       case WasInterrupted => !c.sessionExpired && c.stats.interrupted
       case SyncFailures(n) => !c.sessionExpired && !c.stats.interrupted && c.failedCount == n && n > 0
  }

  lemma StatusMeaning(c: Cycle)
    ensures c.Status().Success? <==> Succeeded(c)
    ensures c.Status().SessionExpired? <==> c.Completed? && c.sessionExpired
    ensures forall why :: c.Reason() == Some(why) <==> FailedBecause(c, why)
    ensures c.Reason().None? <==> Succeeded(c)
  {}

  /** The failure count is at least `n` exactly when the last `n` cycles all
      failed. */
  lemma {:induction false} TrailingFailuresMeaning(h: seq<Cycle>, n: nat)
    ensures TrailingFailures(h) >= n <==>
      n <= |h| && forall i :: |h| - n <= i < |h| ==> !Succeeded(h[i])
    decreases |h|
  {
    if h != [] && n > 0 {
      var front, last := h[..|h| - 1], h[|h| - 1];
      StatusMeaning(last);
      TrailingFailuresMeaning(front, n - 1);
      if n <= |h| && !Succeeded(last) {
        assert forall i :: |front| - (n - 1) <= i < |front| ==> front[i] == h[i];
        if forall i :: |h| - n <= i < |h| ==> !Succeeded(h[i]) {
          assert TrailingFailures(h) >= n;
        } else {
          var i :| |h| - n <= i < |h| && Succeeded(h[i]);
          assert Succeeded(front[i]);
        }
      }
    }
  }

  /** The `i`-th cycle is the last that succeeded. */
  ghost predicate SuccessAt(h: seq<Cycle>, i: int) {
    0 <= i < |h| && Succeeded(h[i]) && forall j :: i < j < |h| ==> !Succeeded(h[j])
  }

  lemma {:induction false} LastSuccessFound(h: seq<Cycle>) returns (i: int)
    ensures LastSuccess(h).None? ==> forall j :: 0 <= j < |h| ==> !Succeeded(h[j])
    ensures LastSuccess(h).Some? ==> SuccessAt(h, i) && LastSuccess(h) == Some(h[i].at)
    decreases |h|
  {
    i := -1;
    if h != [] {
      var n := |h| - 1;
      StatusMeaning(h[n]);
      if Succeeded(h[n]) {
        i := n;
      } else {
        i := LastSuccessFound(h[..n]);
        assert forall j :: 0 <= j < n ==> h[..n][j] == h[j];
      }
    }
  }

  /** The time of the last success is that of a cycle that succeeded, with
      none after it. */
  lemma LastSuccessMeaning(h: seq<Cycle>)
    ensures LastSuccess(h).None? <==> forall i :: 0 <= i < |h| ==> !Succeeded(h[i])
    ensures forall i :: SuccessAt(h, i) ==> LastSuccess(h) == Some(h[i].at)
    ensures LastSuccess(h).Some? ==> exists i :: SuccessAt(h, i)
  {
    var last := LastSuccessFound(h);
  }

  /** The notice a cycle causes, if it causes one. */
  ghost predicate Announces(c: Cycle, n: Notice) {
    && c.Completed? && !c.sessionExpired
    && match n
       case SyncComplete => Succeeded(c)
       case SyncFailed(why) => FailedBecause(c, why)
  }

  /** One more cycle causes exactly the notice it announces, or none. */
  lemma NoticeMeaning(h: seq<Cycle>, c: Cycle)
    ensures c.SkippedCycle? || c.sessionExpired ==> Notices(h + [c]) == Notices(h)
    ensures c.Completed? && !c.sessionExpired ==>
      exists n :: Announces(c, n) && Notices(h + [c]) == Notices(h) + [n]
  {
    OneMoreCycle(h, c);
    StatusMeaning(c);
    if c.Completed? && !c.sessionExpired {
      var n := if Succeeded(c) then SyncComplete else SyncFailed(c.Reason().value);
      assert Announces(c, n);
    }
  }

  /** Every completed cycle whose session held is announced once. */
  lemma {:induction false} NoticesCounted(h: seq<Cycle>)
    ensures |Notices(h)| + Expirations(h) == |h| - SkippedCount(h)
  {
    if h != [] { NoticesCounted(h[..|h| - 1]); }
  }

  function SkippedCount(h: seq<Cycle>): nat {
    if h == [] then 0 else SkippedCount(h[..|h| - 1]) + One(h[|h| - 1].SkippedCycle?)
  }

  /** How each figure moves with one more cycle. */
  lemma OneMoreCycle(h: seq<Cycle>, c: Cycle)
    ensures var was, now := HealthAfter(h), HealthAfter(h + [c]);
            && now == (if c.Status().Success? then Health(Some(c.at), Some(c.at), 0, None)
                       else Health(Some(c.at), was.lastSuccessAt, was.consecutiveFailures + 1, c.Reason()))
    ensures forall d :: SumOf(h + [c], d) == SumOf(h, d) + if c.Completed? then Contribution(c.stats, d) else 0
    ensures Expirations(h + [c]) == Expirations(h) + One(c.Status().SessionExpired?)
    ensures Notices(h + [c]) == Notices(h) +
              if c.SkippedCycle? || c.Status().SessionExpired? then []
              else if c.Status().Success? then [SyncComplete] else [SyncFailed(c.Reason().value)]
  {
    assert (h + [c])[..|h|] == h && (h + [c])[|h|] == c;
  }

  // ---- Metrics -----------------------------------------------------------

  datatype HttpStatus = OK | ServiceUnavailable

  class MetricsHandle {
    var counters: map<Counter, nat>
    var sessionExpirations: nat
    var cycleDuration: nat
    var healthSnapshot: Option<Health>

    function Value(c: Counter): nat
      reads this
    {
      if c in counters then counters[c] else 0
    }

    constructor ()
      ensures counters == map[] && sessionExpirations == 0 && cycleDuration == 0 && healthSnapshot == None
    {
      counters, sessionExpirations, cycleDuration, healthSnapshot := map[], 0, 0, None;
    }

    method IncBy(c: Counter, n: nat)
      modifies this`counters
      ensures forall d :: Value(d) == old(Value(d)) + if d == c then n else 0
    {
      counters := counters[c := Value(c) + n];
    }

    /** A label with nothing to count is not created. */
    method IncSkip(why: SkipReason, n: nat)
      modifies this`counters
      ensures forall d :: Value(d) == old(Value(d)) + if d == Skipped(why) then n else 0
      ensures n == 0 ==> counters == old(counters)
    {
      if n > 0 { IncBy(Skipped(why), n); }
    }

    method IncTransfers(s: SyncStats)
      modifies this`counters
      ensures forall d :: Value(d) == old(Value(d)) + if Section(d) == 0 then Contribution(s, d) else 0
    {
      IncBy(AssetsSeen, s.assetsSeen);
      IncBy(Downloaded, s.downloaded);
      IncBy(Failed, s.failed);
      IncBy(BytesDownloaded, s.bytesDownloaded);
      IncBy(DiskBytesWritten, s.diskBytesWritten);
      IncBy(ExifFailures, s.exifFailures);
    }

    method IncEnumeration(s: SyncStats)
      modifies this`counters
      ensures forall d :: Value(d) == old(Value(d)) + if Section(d) == 1 then Contribution(s, d) else 0
    {
      IncBy(StateWriteFailures, s.stateWriteFailures);
      IncBy(EnumerationErrors, s.enumerationErrors);
      IncBy(PaginationShortfallWarnings, s.shortfallWarnings);
      IncBy(PaginationShortfallAssets, s.shortfallAssets);
      IncBy(TailProbes, s.tailProbes);
      IncBy(CountUndercountAssets, s.undercountAssets);
    }

    method IncRecovery(s: SyncStats)
      modifies this`counters
      ensures forall d :: Value(d) == old(Value(d)) + if Section(d) == 2 then Contribution(s, d) else 0
    {
      if s.syncTokenBlocked { IncBy(SyncTokenBlockedCycles, 1); }
      IncBy(RecoveryAttempts, s.recoveryAttempts);
      IncBy(RecoverySuccesses, s.recoverySuccesses);
      if s.fullEnumerationReason.Some? { IncBy(FullEnumeration(s.fullEnumerationReason.value), 1); }
      if s.interrupted { IncBy(InterruptedCycles, 1); }
    }

    method IncFilterSkips(s: SyncStats)
      modifies this`counters
      ensures forall d :: Value(d) == old(Value(d)) + if Section(d) == 3 then Contribution(s, d) else 0
    {
      IncSkip(ByState, s.skipped(ByState));
      IncSkip(OnDisk, s.skipped(OnDisk));
      IncSkip(ByMediaType, s.skipped(ByMediaType));
      IncSkip(ByDateRange, s.skipped(ByDateRange));
      IncSkip(ByLivePhoto, s.skipped(ByLivePhoto));
      IncSkip(ByFilename, s.skipped(ByFilename));
    }

    method IncOtherSkips(s: SyncStats)
      modifies this`counters
      ensures forall d :: Value(d) == old(Value(d)) + if Section(d) == 4 then Contribution(s, d) else 0
    {
      IncSkip(ByExcludedAlbum, s.skipped(ByExcludedAlbum));
      IncSkip(AmPmVariant, s.skipped(AmPmVariant));
      IncSkip(Duplicates, s.skipped(Duplicates));
    }

    method IncRetrySkips(s: SyncStats)
      modifies this`counters
      ensures forall d :: Value(d) == old(Value(d)) + if Section(d) == 5 then Contribution(s, d) else 0
    {
      IncSkip(RetryExhausted, s.skipped(RetryExhausted));
      IncSkip(RetryOnly, s.skipped(RetryOnly));
    }

    method Update(s: SyncStats, health: Health)
      modifies this
      ensures forall d :: Value(d) == old(Value(d)) + Contribution(s, d)
      ensures sessionExpirations == old(sessionExpirations)
      ensures cycleDuration == s.elapsedSecs && healthSnapshot == Some(health)
    {
      IncTransfers(s);
      IncEnumeration(s);
      IncRecovery(s);
      IncFilterSkips(s);
      IncOtherSkips(s);
      IncRetrySkips(s);
      cycleDuration := s.elapsedSecs;
      UpdateHealthOnly(health);
    }

    method UpdateHealthOnly(health: Health)
      modifies this`healthSnapshot
      ensures healthSnapshot == Some(health)
    {
      healthSnapshot := Some(health);
    }

    method RecordSessionExpiration()
      modifies this`sessionExpirations
      ensures sessionExpirations == old(sessionExpirations) + 1
    {
      sessionExpirations := sessionExpirations + 1;
    }

    /** The liveness endpoint: unhealthy after five failures in a row, or once
        the last success is older than the threshold, if there is one. */
    function Healthz(now: int, threshold: Option<int>): HttpStatus
      reads this
    {
      match healthSnapshot
      case None => OK
      case Some(h) =>
        var stale := threshold.Some? && h.lastSuccessAt.Some? && now - h.lastSuccessAt.value > threshold.value;
        if h.consecutiveFailures >= UNHEALTHY_CONSECUTIVE_FAILURES || stale then ServiceUnavailable else OK
    }
  }

  // ---- The reporter over a whole run -------------------------------------

  class CycleReporter {
    const health: HealthStatus
    const metrics: MetricsHandle
    var notices: seq<Notice>
    ghost var history: seq<Cycle>

    /** Every live figure is the corresponding figure of the history. */
    ghost predicate Valid()
      reads this, health, metrics
    {
      && health.State() == HealthAfter(history)
      && (forall c :: metrics.Value(c) == SumOf(history, c))
      && metrics.sessionExpirations == Expirations(history)
      && metrics.healthSnapshot == (if history == [] then None else Some(HealthAfter(history)))
      && notices == Notices(history)
    }

    constructor ()
      ensures Valid() && history == [] && fresh(health) && fresh(metrics)
    {
      health := new HealthStatus();
      metrics := new MetricsHandle();
      notices, history := [], [];
    }

    /** A watch cycle that found no changes refreshes health and nothing else. */
    method ReportSkippedWatchCycle(now: int)
      requires Valid()
      modifies this, health, metrics
      ensures Valid() && history == old(history) + [SkippedCycle(now)]
      ensures metrics.cycleDuration == old(metrics.cycleDuration)
    {
      ghost var c := SkippedCycle(now);
      OneMoreCycle(history, c);
      health.RecordSuccess(now);
      metrics.UpdateHealthOnly(health.State());
      history := history + [c];
    }

    method ReportCompletedCycle(stats: SyncStats, failedCount: nat, sessionExpired: bool, now: int)
      requires Valid() && health.consecutiveFailures < U32_MAX
      modifies this, health, metrics
      ensures Valid() && history == old(history) + [Completed(stats, failedCount, sessionExpired, now)]
      ensures metrics.cycleDuration == stats.elapsedSecs
    {
      ghost var c := Completed(stats, failedCount, sessionExpired, now);
      OneMoreCycle(history, c);
      var status := ClassifyCycle(stats, failedCount, sessionExpired);
      assert c.Status() == status;
      UpdateHealth(status, failedCount, now);
      assert health.State() == HealthAfter(history + [c]);
      UpdateMetrics(status, stats);
      Notify(status, failedCount);
      history := history + [c];
    }

    method UpdateHealth(status: CycleStatus, failedCount: nat, now: int)
      requires health.consecutiveFailures < U32_MAX
      modifies health
      ensures health.State() ==
        if status.Success? then Health(Some(now), Some(now), 0, None)
        else Health(Some(now), old(health.lastSuccessAt), old(health.consecutiveFailures) + 1,
                    Some(match status
                         case PartialFailure => SyncFailures(failedCount)
                         case SessionExpired => Expired
                         case _ => WasInterrupted))
    {
      match status {
        case Success => health.RecordSuccess(now);
        case PartialFailure => health.RecordFailure(now, SyncFailures(failedCount));
        case SessionExpired => health.RecordFailure(now, Expired);
        case Interrupted => health.RecordFailure(now, WasInterrupted);
      }
    }

    method UpdateMetrics(status: CycleStatus, stats: SyncStats)
      modifies metrics
      ensures forall d :: metrics.Value(d) == old(metrics.Value(d)) + Contribution(stats, d)
      ensures metrics.sessionExpirations == old(metrics.sessionExpirations) + One(status.SessionExpired?)
      ensures metrics.cycleDuration == stats.elapsedSecs && metrics.healthSnapshot == Some(health.State())
    {
      if status.SessionExpired? { metrics.RecordSessionExpiration(); }
      metrics.Update(stats, health.State());
    }

    method Notify(status: CycleStatus, failedCount: nat)
      modifies this`notices
      ensures notices == old(notices) +
        match status
        case Success => [SyncComplete]
        case PartialFailure => [SyncFailed(SyncFailures(failedCount))]
        case Interrupted => [SyncFailed(WasInterrupted)]
        case SessionExpired => []
    {
      match status {
        case Success => notices := notices + [SyncComplete];
        case PartialFailure => notices := notices + [SyncFailed(SyncFailures(failedCount))];
        case Interrupted => notices := notices + [SyncFailed(WasInterrupted)];
        case SessionExpired =>
      }
    }

    /** The endpoint's answer, read off the history: 503 exactly when the last
        five cycles all failed or the last success is too old. */
    lemma HealthzMeaning(now: int, threshold: Option<int>)
      requires Valid()
      ensures metrics.Healthz(now, threshold).ServiceUnavailable? <==>
        || (|history| >= 5 && forall i :: |history| - 5 <= i < |history| ==> !Succeeded(history[i]))
        || (threshold.Some? && exists i :: SuccessAt(history, i) && now - history[i].at > threshold.value)
    {
      TrailingFailuresMeaning(history, 5);
      LastSuccessMeaning(history);
    }

    /** The failures recorded and their reason, read off the history. */
    lemma HealthMeaning(n: nat)
      requires Valid() && history != []
      ensures health.consecutiveFailures >= n <==>
        n <= |history| && forall i :: |history| - n <= i < |history| ==> !Succeeded(history[i])
      ensures forall why :: health.lastError == Some(why) <==> FailedBecause(history[|history| - 1], why)
      ensures health.lastSyncAt == Some(history[|history| - 1].at)
    {
      TrailingFailuresMeaning(history, n);
      StatusMeaning(history[|history| - 1]);
      assert health.State() == HealthAfter(history);
    }
  }
}
