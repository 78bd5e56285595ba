/** The credential file is written through a temporary file in the same
    directory; the closing directory sync is only best effort. */
module CredentialWrite {
  import opened Wrappers
  import opened Machine
  import opened CrashFs
  import opened Crashes
  import opened Kernels

  function TempOf(path: Path): Path {
    path.(name := path.name + ".tmp")
  }

  /** The temporary left over from an earlier write is not a second name of
      the credential file, nor of anything it may turn out to be. */
  ghost predicate Apart(d: Disk, path: Path) {
    Separate(d, TempOf(path), path)
  }

  ghost predicate Safe(d0: Disk, trail: seq<Disk>, mark: nat, path: Path, data: Bytes) {
    SafeSince(d0, trail, mark, path, Some(data), TempOf(path))
  }

  /** Before the rename: the credential file is as it was, and exactly as
      durable as it was. */
  ghost predicate Drafting(d0: Disk, d: Disk, path: Path, data: Bytes) {
    && Guarded(d0, d, path, Some(data)) && Untouched(d0, d, path) && Apart(d, path)
    && (forall i :: i in d.synced && Some(i) in d0.Bindings(path) ==> i in d0.synced)
  }

  /** After the rename: programs read the new bytes from a synced file, and a
      crash can still bring back everything it could before. */
  ghost predicate Replaced(d0: Disk, d: Disk, path: Path, data: Bytes) {
    && Guarded(d0, d, path, Some(data)) && Apart(d, path)
    && d.Holds(path, data) && d.names[path] in d.synced
  }

  ghost predicate MayRevert(d0: Disk, d: Disk, path: Path) {
    forall c :: CanRecover(d0, path, c) ==> CanRecover(d, path, c)
  }

  /** Where the write stands before the rename; what it promises it promises
      for a temporary that stands apart. */
  ghost predicate Ready(d0: Disk, d: Disk, trail: seq<Disk>, mark: nat, path: Path, data: Bytes) {
    && d0.Valid() && d.Valid() && OthersKept(d0, d, {TempOf(path)}, TempOf(path))
    && (Apart(d0, path) ==> Drafting(d0, d, path, data) && Safe(d0, trail, mark, path, data))
  }

  /** Where it stands after. */
  ghost predicate Finished(d0: Disk, d: Disk, trail: seq<Disk>, mark: nat, path: Path, data: Bytes) {
    && d0.Valid() && d.Valid() && OthersKept(d0, d, {path, TempOf(path)}, TempOf(path))
    && (Apart(d0, path) ==>
          Replaced(d0, d, path, data) && MayRevert(d0, d, path) && Safe(d0, trail, mark, path, data))
  }

  /** The temporary is complete and synced. */
  ghost predicate Draft(d: Disk, path: Path, data: Bytes) {
    d.Holds(TempOf(path), data) && d.names[TempOf(path)] in d.synced
  }

  /** The `k`-th call of a credential write, and how it went. */
  function DraftCall(path: Path, data: Bytes, k: nat, ok: bool): Call {
    var tmp := TempOf(path);
    if k == 0 then WriteCall(tmp, data, ok)
    else if k == 1 then SyncCall(tmp, if ok then Done else Outcome.Failed)
    else if k == 2 then RestrictCall(tmp, ok)
    else RenameCall(tmp, path, ok)
  }

  /** The first `made` calls, all successful but perhaps the last. */
  function DraftCalls(path: Path, data: Bytes, made: nat, ok: bool): seq<Call> {
    if made == 0 then [] else DraftCalls(path, data, made - 1, true) + [DraftCall(path, data, made - 1, ok)]
  }

  /** The conversations in full: whatever the step that fails, it is the
      temporary that is written, synced and restricted, and then renamed. */
  lemma DraftSpelledOut(path: Path, data: Bytes, ok: bool)
    ensures var tmp := Path(path.dir, path.name + ".tmp");
      var sync := if ok then Done else Outcome.Failed;
      && DraftCalls(path, data, 1, ok) == [WriteCall(tmp, data, ok)]
      && DraftCalls(path, data, 2, ok) == [WriteCall(tmp, data, true), SyncCall(tmp, sync)]
      && DraftCalls(path, data, 3, ok) ==
           [WriteCall(tmp, data, true), SyncCall(tmp, Done), RestrictCall(tmp, ok)]
      && DraftCalls(path, data, 4, ok) ==
           [WriteCall(tmp, data, true), SyncCall(tmp, Done), RestrictCall(tmp, true), RenameCall(tmp, path, ok)]
  {
    assert DraftCalls(path, data, 1, true) == [DraftCall(path, data, 0, true)];
    assert DraftCalls(path, data, 2, true) == DraftCalls(path, data, 1, true) + [DraftCall(path, data, 1, true)];
    assert DraftCalls(path, data, 3, true) == DraftCalls(path, data, 2, true) + [DraftCall(path, data, 2, true)];
  }

  /** What a write that began in `d0` promises when it ends in `d`. */
  ghost predicate Kept(d0: Disk, d: Disk, path: Path, data: Bytes, ok: bool, warned: bool) {
    && (ok ==> Replaced(d0, d, path, data))
    // Success is durable exactly when no warning was logged.
    && (ok && !warned ==> Settled(d, path, Some(data)))
    && (ok && warned ==> MayRevert(d0, d, path))
    && (!ok ==> !warned && Untouched(d0, d, path))
  }

  method AtomicWriteSync(os: Kernel, path: Path, data: Bytes)
    returns (ok: bool, warned: bool, ghost made: nat)
    requires os.disk.Valid()
    modifies os
    ensures os.disk.Valid() && Extends(old(os.trail), os.trail, os.disk)
    // A crash after any step leaves the old credential or the complete new one.
    ensures Apart(old(os.disk), path) ==>
      && Safe(old(os.disk), os.trail, |old(os.trail)|, path, data)
      && Kept(old(os.disk), os.disk, path, data, ok, warned)
    ensures OthersKept(old(os.disk), os.disk, {path, TempOf(path)}, TempOf(path))
    // It gives up at the first call that fails, and warns of the last one only.
    ensures os.calls == old(os.calls) + DraftCalls(path, data, made, ok)
                        + if ok then [SyncDirCall(path.dir, !warned)] else []
    ensures 1 <= made <= 4 && (ok ==> made == 4) && (warned ==> ok)
  {
    ghost var d0, mark := os.disk, |os.trail|;
    ok, made := WriteDraft(os, path, data);
    if !ok { return false, false, made; }
    ok := RenameDraft(os, path, data, d0, mark);
    made := 4;
    if !ok { return false, false, made; }
    ReplacedSettles(d0, os.disk, os.trail, mark, path, data);
    var o := os.SyncDir(path.dir);
    return true, o != Done, made;
  }

  /** The bytes written, synced and restricted under the temporary name. */
  method WriteDraft(os: Kernel, path: Path, data: Bytes) returns (ok: bool, ghost made: nat)
    requires os.disk.Valid()
    modifies os
    ensures Extends(old(os.trail), os.trail, os.disk)
    ensures Ready(old(os.disk), os.disk, os.trail, |old(os.trail)|, path, data)
    ensures ok ==> Draft(os.disk, path, data)
    ensures os.calls == old(os.calls) + DraftCalls(path, data, made, ok)
    ensures 1 <= made <= 3 && (ok ==> made == 3)
  {
    ghost var d0, trail := os.disk, os.trail;
    var tmp := TempOf(path);
    var o := os.WriteFile(tmp, data);
    DraftWritten(d0, os.disk, trail, os.trail, path, data);
    if o != Done { return false, 1; }
    assert os.calls == old(os.calls) + DraftCalls(path, data, 1, true);
    DraftSynced(d0, os.disk, os.trail, |trail|, path, data);
    o := os.Fsync(tmp);
    assert os.calls == old(os.calls) + DraftCalls(path, data, 2, o.Done?);
    if o != Done { return false, 2; }
    ok := os.Restrict(tmp);
    return ok, 3;
  }

  method RenameDraft(os: Kernel, path: Path, data: Bytes, ghost d0: Disk, ghost mark: nat) returns (ok: bool)
    requires Ready(d0, os.disk, os.trail, mark, path, data) && Draft(os.disk, path, data)
    modifies os
    ensures Extends(old(os.trail), os.trail, os.disk)
    ensures if ok then Finished(d0, os.disk, os.trail, mark, path, data)
            else Ready(d0, os.disk, os.trail, mark, path, data)
    ensures os.calls == old(os.calls) + [RenameCall(TempOf(path), path, ok)]
  {
    DraftRenamed(d0, os.disk, os.trail, mark, path, data);
    var o := os.Rename(TempOf(path), path);
    ok := o == Done;
  }

  // ---- Write, crash, write again -----------------------------------------

  function Contents(datas: seq<Bytes>): (r: seq<Option<Bytes>>)
    ensures |r| == |datas| && forall k :: 0 <= k < |r| ==> r[k] == Some(datas[k])
  {
    seq(|datas|, k requires 0 <= k < |datas| => Some(datas[k]))
  }

  /** However often the credential is written and the power fails, what is left
      is the first credential or the complete bytes of one of the writes, and
      the temporary stands apart for the next. */
  method WriteCrashWrite(os: Kernel, path: Path, datas: seq<Bytes>, power: Power)
    requires os.disk.Valid() && Apart(os.disk, path) && LegalPower(power)
    modifies os
    ensures os.disk.Valid() && Apart(os.disk, path)
    ensures forall c :: CanRecover(os.disk, path, c) ==>
      CanRecover(old(os.disk), path, c) || (c.Some? && c.value in datas)
  {
    ghost var ds, writes := [os.disk], Contents(datas);
    for n := 0 to |datas|
      invariant os.disk.Valid() && Apart(os.disk, path)
      invariant |ds| == n + 1 && ds[0] == old(os.disk) && ds[n] == os.disk
      invariant forall k :: 0 <= k < n ==> Round(ds[k], ds[k + 1], path, writes[k], TempOf(path))
    {
      ghost var d0 := os.disk;
      WriteOnce(os, path, datas[n], n, power);
      RoundIsSafe(d0, os.disk, path, writes[n], TempOf(path));
      ds := ds + [os.disk];
    }
    RoundsAreSafe(ds, ds[..|datas|], path, writes, TempOf(path));
    assert forall c: Option<Bytes> :: c in writes ==> c.Some? && c.value in datas;
  }

  /** One write, stopped somewhere. */
  method WriteOnce(os: Kernel, path: Path, data: Bytes, n: nat, power: Power)
    requires os.disk.Valid() && LegalPower(power)
    modifies os
    ensures Round(old(os.disk), os.disk, path, Some(data), TempOf(path))
  {
    var d0, mark := os.disk, |os.trail|;
    var ok, warned, made := AtomicWriteSync(os, path, data);
    var left := power(n, [d0] + os.trail[mark..]);
    RunIsRound(d0, os.trail, mark, left, path, Some(data), TempOf(path));
    os.Restart(left);
  }

  lemma DraftWritten(d0: Disk, d: Disk, trail: seq<Disk>, trail': seq<Disk>, path: Path, data: Bytes)
    requires d0.Valid() && d.Valid() && Rewritten(d0, d, TempOf(path)) && trail <= trail'
    requires forall k :: |trail| <= k < |trail'| ==> Rewritten(d0, trail'[k], TempOf(path))
    ensures Ready(d0, d, trail', |trail|, path, data)
  {
    var tmp := TempOf(path);
    if Apart(d0, path) {
      RewriteGuards(d0, d0, d, tmp, path, Some(data));
      RewritesAreSafe(d0, d0, trail, trail', |trail|, path, Some(data), tmp);
    }
  }

  lemma DraftSynced(d0: Disk, d: Disk, trail: seq<Disk>, mark: nat, path: Path, data: Bytes)
    requires Ready(d0, d, trail, mark, path, data) && d.Holds(TempOf(path), data)
    ensures Ready(d0, d, trail + [d], mark, path, data)
    ensures var d' := FsyncEffect(d, TempOf(path));
      Ready(d0, d', trail + [d'], mark, path, data) && Draft(d', path, data)
  {
    var tmp := TempOf(path);
    var d' := FsyncEffect(d, tmp);
    FsyncKeepsValid(d, tmp);
    if Apart(d0, path) {
      FsyncGuards(d0, d, tmp, path, Some(data));
      OneMoreState(d0, trail, d, mark, path, Some(data), tmp);
      OneMoreState(d0, trail, d', mark, path, Some(data), tmp);
    }
  }

  lemma DraftRenamed(d0: Disk, d: Disk, trail: seq<Disk>, mark: nat, path: Path, data: Bytes)
    requires Ready(d0, d, trail, mark, path, data) && Draft(d, path, data)
    ensures Ready(d0, d, trail + [d], mark, path, data)
    ensures var d' := RenameEffect(d, TempOf(path), path); Finished(d0, d', trail + [d'], mark, path, data)
  {
    var tmp := TempOf(path);
    var d' := RenameEffect(d, tmp, path);
    RenameKeepsValid(d, tmp, path);
    BindChanges(d, path, d.Current(tmp));
    BindChanges(d.Bind(path, d.Current(tmp)), tmp, None);
    if Apart(d0, path) {
      assert d.Current(path) in d.Bindings(path);
      RenameGuards(d0, d, tmp, path, Some(data));
      OneMoreState(d0, trail, d, mark, path, Some(data), tmp);
      OneMoreState(d0, trail, d', mark, path, Some(data), tmp);
      StillRecoverable(d0, d, d', path, data);
    }
  }

  lemma StillRecoverable(d0: Disk, d: Disk, d': Disk, path: Path, data: Bytes)
    requires Drafting(d0, d, path, data) && d0.Valid()
    requires d.Bindings(path) <= d'.Bindings(path) && d'.data == d.data && d'.synced == d.synced
    ensures MayRevert(d0, d', path)
  {
    forall c | CanRecover(d0, path, c) ensures CanRecover(d', path, c) {
      var b :| b in d0.Bindings(path) && Recovers(d0, b, c);
      assert b in d'.Bindings(path) && Recovers(d', b, c);
    }
  }

  lemma ReplacedSettles(d0: Disk, d: Disk, trail: seq<Disk>, mark: nat, path: Path, data: Bytes)
    requires Finished(d0, d, trail, mark, path, data)
    ensures Apart(d0, path) ==> Safe(d0, trail + [d], mark, path, data)
    ensures var d' := SyncDirEffect(d, path.dir);
      && d'.Valid() && OthersKept(d0, d', {path, TempOf(path)}, TempOf(path))
      && (Apart(d0, path) ==>
            && Replaced(d0, d', path, data) && Settled(d', path, Some(data))
            && Safe(d0, trail + [d'], mark, path, data))
  {
    var d' := SyncDirEffect(d, path.dir);
    SyncDirKeepsValid(d, path.dir);
    if Apart(d0, path) {
      SyncDirGuards(d0, d, path.dir, path, Some(data));
      assert d'.Bindings(path) <= d.Bindings(path);
      OneMoreState(d0, trail, d, mark, path, Some(data), TempOf(path));
      OneMoreState(d0, trail, d', mark, path, Some(data), TempOf(path));
      SettledIsExact(d', path);
    }
  }
}
