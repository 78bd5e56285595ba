/** Installing a file so that a power loss at any moment leaves the destination
    old or new: the download installer with its cross-device fallback. */
module AtomicInstall {
  import opened Wrappers
  import opened Machine
  import opened CrashFs
  import opened Crashes
  import opened Kernels

  // ---- Temporary names ---------------------------------------------------

  /** Position of the dot that starts the extension, if there is one: the last
      dot, unless it is the first character. */
  function ExtensionDot(name: string): (r: Option<nat>)
    ensures r.Some? ==> 0 < r.value < |name| && name[r.value] == '.'
  {
    var i := LastDot(name, |name|);
    if i.Some? && i.value > 0 then i else None
  }

  function LastDot(name: string, n: nat): (r: Option<nat>)
    requires n <= |name|
    ensures r.Some? ==> r.value < n && name[r.value] == '.'
  {
    if n == 0 then None
    else if name[n - 1] == '.' then Some(n - 1)
    else LastDot(name, n - 1)
  }

  /** The cross-device sibling: the extension (or `tmp`) grows a suffix. */
  function SiblingOf(dst: Path, pid: string): Path {
    var dot := ExtensionDot(dst.name);
    var stem := if dot.Some? then dst.name[..dot.value] else dst.name;
    var ext := if dot.Some? then dst.name[dot.value + 1..] else "tmp";
    Path(dst.dir, stem + "." + ext + ".kei-xdev-tmp-" + pid)
  }

  /** An extension, if there is one, is kept and the suffix goes on the end;
      otherwise `tmp` stands in for it. */
  lemma SiblingName(dst: Path, pid: string)
    ensures var hasExtension := exists i :: 0 < i < |dst.name| && dst.name[i] == '.';
      SiblingOf(dst, pid).name == dst.name + (if hasExtension then "" else ".tmp") + ".kei-xdev-tmp-" + pid
  {
    var dot := ExtensionDot(dst.name);
    LastDotIsLast(dst.name, |dst.name|);
    if dot.Some? {
      assert dst.name[..dot.value] + "." + dst.name[dot.value + 1..] == dst.name;
    }
  }

  lemma {:induction false} LastDotIsLast(name: string, n: nat)
    requires n <= |name|
    ensures forall i :: (if LastDot(name, n).Some? then LastDot(name, n).value else -1) < i < n ==> name[i] != '.'
  {
    if n > 0 && name[n - 1] != '.' { LastDotIsLast(name, n - 1); }
  }

  /** The sibling is in the destination's directory and is never the destination. */
  lemma SiblingIsApart(dst: Path, pid: string)
    ensures SiblingOf(dst, pid).dir == dst.dir && SiblingOf(dst, pid) != dst
  {
    var dot := ExtensionDot(dst.name);
    if dot.Some? {
      assert |SiblingOf(dst, pid).name| > |dst.name|;
    }
  }

  // ---- The installer -----------------------------------------------------

  datatype Stage = SourceSync | RenameAndCopy | SiblingSync | FinalRename | DirectorySync

  datatype InstallResult = Installed | Refused(at: Stage)

  /** The three paths of one installation. */
  datatype Job = Job(src: Path, dst: Path, sibling: Path) {
    predicate Distinct() {
      src != dst && src != sibling && sibling != dst
    }

    /** A left-over sibling is not a second name of the destination or of the
        source. */
    ghost predicate Apart(d: Disk) {
      Separate(d, sibling, dst) && !Linked(d, sibling, src)
    }
  }

  /** The bytes to install. */
  ghost function New(j: Job, d0: Disk): Option<Bytes> {
    BytesAt(d0, j.src)
  }

  ghost predicate Safe(j: Job, d0: Disk, trail: seq<Disk>, mark: nat) {
    SafeSince(d0, trail, mark, j.dst, New(j, d0), j.sibling)
  }

  /** Between the steps before the final rename: the destination is untouched,
      and the source, while its name is there, still is its old file. */
  ghost predicate Preparing(j: Job, d0: Disk, d: Disk) {
    && Guarded(d0, d, j.dst, New(j, d0)) && Untouched(d0, d, j.dst) && Separate(d, j.sibling, j.dst)
    && (j.src in d.names ==> d.Current(j.src) == d0.Current(j.src))
  }

  /** After the final rename: the destination is a synced file with the bytes. */
  ghost predicate Placed(j: Job, d0: Disk, d: Disk) {
    && Guarded(d0, d, j.dst, New(j, d0))
    && New(j, d0).Some? && d.Holds(j.dst, New(j, d0).value) && d.names[j.dst] in d.synced
    && d.Current(j.sibling) in {None, d0.Current(j.sibling)}
  }

  /** Every state recorded since `mark` leaves old or new. */
  ghost predicate Covered(j: Job, d0: Disk, trail: seq<Disk>, mark: nat) {
    forall k :: mark <= k < |trail| ==> OldOrNew(d0, trail[k], j.dst, New(j, d0))
  }

  /** The bytes that arrive. A sibling that is a second name of the source is
      truncated together with it, and nothing arrives through the fallback. */
  ghost function Delivered(j: Job, d0: Disk, direct: bool): Option<Bytes> {
    if !direct && Linked(d0, j.src, j.sibling) then Some([]) else New(j, d0)
  }

  ghost predicate Arrived(j: Job, d0: Disk, d: Disk, direct: bool) {
    Delivered(j, d0, direct).Some? && d.Holds(j.dst, Delivered(j, d0, direct).value)
  }

  /** Where the protocol stands before the final rename. What it promises of
      the destination it promises for a sibling that stands apart. */
  ghost predicate Ready(j: Job, d0: Disk, d: Disk, trail: seq<Disk>, mark: nat) {
    && j.Distinct() && d0.Valid() && d.Valid() && OthersKept(d0, d, {j.src, j.sibling}, j.sibling)
    && (j.Apart(d0) ==> Preparing(j, d0, d) && Safe(j, d0, trail, mark))
  }

  /** Where it stands after. A direct rename never touches the sibling, and its
      promise does not depend on it. */
  ghost predicate Finished(j: Job, d0: Disk, d: Disk, trail: seq<Disk>, mark: nat, direct: bool) {
    && j.Distinct() && d0.Valid() && d.Valid() && OthersKept(d0, d, {j.src, j.dst, j.sibling}, j.sibling)
    && Arrived(j, d0, d, direct)
    && (direct || j.Apart(d0) ==> Placed(j, d0, d) && Covered(j, d0, trail, mark))
    && (j.Apart(d0) ==> Separate(d, j.sibling, j.dst) && Safe(j, d0, trail, mark))
  }

  /** A copy of the source waits under the sibling's own name. */
  ghost predicate Copied(j: Job, d0: Disk, d: Disk) {
    Delivered(j, d0, false).Some? && d.Holds(j.sibling, Delivered(j, d0, false).value)
  }

  /** A copy that has been synced too. */
  ghost predicate CopySynced(j: Job, d0: Disk, d: Disk) {
    Copied(j, d0, d) && d.names[j.sibling] in d.synced
  }

  // ---- The calls each result stands for ----------------------------------

  function PlaceCalls(j: Job, refused: Option<Stage>): seq<Call> {
    if refused == Some(SiblingSync) then [SyncCall(j.sibling, Outcome.Failed)]
    else [SyncCall(j.sibling, Done), RenameCall(j.sibling, j.dst, refused.None?)]
         + if refused.None? then [] else [UnlinkCall(j.sibling), UnlinkCall(j.src)]
  }

  function FallbackCalls(j: Job, refused: Option<Stage>): seq<Call> {
    if refused == Some(RenameAndCopy) then [CopyCall(j.src, j.sibling, false), UnlinkCall(j.src)]
    else [CopyCall(j.src, j.sibling, true)] + PlaceCalls(j, refused)
         + if refused.None? then [UnlinkCall(j.src)] else []
  }

  function PlacementCalls(j: Job, direct: bool, refused: Option<Stage>): seq<Call> {
    [RenameCall(j.src, j.dst, direct)] + if direct then [] else FallbackCalls(j, refused)
  }

  /** The stage before the directory sync at which `r` gave up, if it did. */
  function GaveUp(r: InstallResult): Option<Stage> {
    if r.Installed? || r.at.DirectorySync? then None else Some(r.at)
  }

  /** The whole conversation with the operating system that ends in `r`. */
  function InstallCalls(j: Job, sync: Outcome, direct: bool, r: InstallResult): seq<Call> {
    [SyncCall(j.src, sync)] +
    if sync == Outcome.Failed then []
    else PlacementCalls(j, direct, GaveUp(r)) + Closing(j, r)
  }

  /** Only a failed source sync ends the conversation at once, and a rename
      that worked leaves only the directory sync to fail. */
  ghost predicate Consistent(sync: Outcome, direct: bool, r: InstallResult) {
    && (sync == Outcome.Failed <==> r == Refused(SourceSync))
    && (direct ==> GaveUp(r).None?)
  }

  predicate WentWrong(c: Call) {
    match c
    case SyncCall(_, o) => o == Outcome.Failed
    case UnlinkCall(_) => false
    case _ => !c.ok
  }

  function Closing(j: Job, r: InstallResult): seq<Call> {
    if GaveUp(r).None? then [SyncDirCall(j.dst.dir, r.Installed?)] else []
  }

  lemma CallsInTurn(before: seq<Call>, j: Job, sync: Outcome, direct: bool, r: InstallResult)
    requires sync != Outcome.Failed
    ensures before + [SyncCall(j.src, sync)] + PlacementCalls(j, direct, GaveUp(r)) + Closing(j, r)
         == before + InstallCalls(j, sync, direct, r)
  {}

  /** The conversations in full, one for each way an installation can go. */
  lemma CallsSpelledOut(j: Job, sync: Outcome)
    requires sync != Outcome.Failed
    ensures InstallCalls(j, Outcome.Failed, false, Refused(SourceSync)) == [SyncCall(j.src, Outcome.Failed)]
    ensures forall r :: r in {Installed, Refused(DirectorySync)} ==>
      InstallCalls(j, sync, true, r) ==
        [SyncCall(j.src, sync), RenameCall(j.src, j.dst, true), SyncDirCall(j.dst.dir, r.Installed?)]
    ensures InstallCalls(j, sync, false, Refused(RenameAndCopy)) ==
      [SyncCall(j.src, sync), RenameCall(j.src, j.dst, false), CopyCall(j.src, j.sibling, false), UnlinkCall(j.src)]
    ensures InstallCalls(j, sync, false, Refused(SiblingSync)) ==
      [SyncCall(j.src, sync), RenameCall(j.src, j.dst, false), CopyCall(j.src, j.sibling, true),
       SyncCall(j.sibling, Outcome.Failed)]
    // A failed final rename removes both temporaries.
    ensures InstallCalls(j, sync, false, Refused(FinalRename)) ==
      [SyncCall(j.src, sync), RenameCall(j.src, j.dst, false), CopyCall(j.src, j.sibling, true),
       SyncCall(j.sibling, Done), RenameCall(j.sibling, j.dst, false), UnlinkCall(j.sibling), UnlinkCall(j.src)]
    // A copy in place makes the source superfluous.
    ensures forall r :: r in {Installed, Refused(DirectorySync)} ==>
      InstallCalls(j, sync, false, r) ==
        [SyncCall(j.src, sync), RenameCall(j.src, j.dst, false), CopyCall(j.src, j.sibling, true),
         SyncCall(j.sibling, Done), RenameCall(j.sibling, j.dst, true), UnlinkCall(j.src),
         SyncDirCall(j.dst.dir, r.Installed?)]
  {}

  ghost predicate Unforgiven(j: Job, c: Call) {
    WentWrong(c) && c != RenameCall(j.src, j.dst, false)
  }

  lemma FallbackFailsIffRefused(j: Job, refused: Option<Stage>)
    requires j.src != j.sibling && refused !in {Some(SourceSync), Some(DirectorySync)}
    ensures refused.Some? <==> exists c :: c in FallbackCalls(j, refused) && Unforgiven(j, c)
  {
    if refused.Some? {
      var c := match refused.value
        case SiblingSync => SyncCall(j.sibling, Outcome.Failed)
        case FinalRename => RenameCall(j.sibling, j.dst, false)
        case _ => CopyCall(j.src, j.sibling, false);
      var calls := FallbackCalls(j, refused);
      assert c in calls by {
        assert calls[if refused.value.FinalRename? then 2 else if refused.value.SiblingSync? then 1 else 0] == c;
      }
    }
  }

  /** No failure is swallowed and none is invented: the first rename is the one
      call that may fail without the installation being refused. */
  lemma RefusedIffCallFailed(j: Job, sync: Outcome, direct: bool, r: InstallResult)
    requires Consistent(sync, direct, r) && j.src != j.sibling
    ensures r.Refused? <==> exists c :: c in InstallCalls(j, sync, direct, r) && Unforgiven(j, c)
  {
    var calls, fallback, end := InstallCalls(j, sync, direct, r), FallbackCalls(j, GaveUp(r)), Closing(j, r);
    if sync == Outcome.Failed {
      assert calls[0] == SyncCall(j.src, sync) && calls[0] in calls && Unforgiven(j, calls[0]);
    } else {
      FallbackFailsIffRefused(j, GaveUp(r));
      assert calls == [SyncCall(j.src, sync), RenameCall(j.src, j.dst, direct)]
                      + (if direct then [] else fallback) + end;
      forall c ensures c in calls <==>
        || c in {SyncCall(j.src, sync), RenameCall(j.src, j.dst, direct)} || (!direct && c in fallback) || c in end
      {}
      var last := SyncDirCall(j.dst.dir, r.Installed?);
      if GaveUp(r).None? {
        assert forall c :: c in end <==> c == last;
        assert last in calls && (Unforgiven(j, last) <==> r.Refused?);
      } else {
        var c :| c in fallback && Unforgiven(j, c);
        assert c in calls;
      }
    }
  }

  // ---- The steps ---------------------------------------------------------

  /** Best-effort removal of the source or the sibling. */
  method DropTemp(os: Kernel, p: Path, j: Job, ghost d0: Disk, ghost mark: nat)
    requires p in {j.src, j.sibling} && Ready(j, d0, os.disk, os.trail, mark)
    modifies os
    ensures Ready(j, d0, os.disk, os.trail, mark) && Extends(old(os.trail), os.trail, os.disk)
    ensures os.calls == old(os.calls) + [UnlinkCall(p)]
  {
    Idle(j, d0, os.disk, os.trail, mark);
    UnlinkStep(j, d0, os.disk, os.trail, mark, p);
    os.Unlink(p);
  }

  method CopyToSibling(os: Kernel, j: Job, ghost d0: Disk, ghost mark: nat) returns (o: Outcome)
    requires Ready(j, d0, os.disk, os.trail, mark)
    requires os.disk.Current(j.src) == d0.Current(j.src) && os.disk.Current(j.sibling) == d0.Current(j.sibling)
    modifies os
    ensures Ready(j, d0, os.disk, os.trail, mark) && Extends(old(os.trail), os.trail, os.disk)
    ensures o.Done? ==> Copied(j, d0, os.disk)
    ensures os.calls == old(os.calls) + [CopyCall(j.src, j.sibling, o.Done?)]
  {
    ghost var d, trail := os.disk, os.trail;
    o := os.Copy(j.src, j.sibling);
    CopyStep(j, d0, d, os.disk, trail, os.trail, mark);
    if o == Done { SourceRead(j, d0, d, os.disk); }
  }

  /** Sync the copy and rename it into place; clean up when that fails. */
  method PlaceSibling(os: Kernel, j: Job, ghost d0: Disk, ghost mark: nat) returns (refused: Option<Stage>)
    requires Ready(j, d0, os.disk, os.trail, mark) && Copied(j, d0, os.disk)
    modifies os
    ensures refused.Some? ==> refused.value in {SiblingSync, FinalRename} && Ready(j, d0, os.disk, os.trail, mark)
    ensures refused.None? ==> Finished(j, d0, os.disk, os.trail, mark, false)
    ensures Extends(old(os.trail), os.trail, os.disk) && os.calls == old(os.calls) + PlaceCalls(j, refused)
  {
    Idle(j, d0, os.disk, os.trail, mark);
    FsyncStep(j, d0, os.disk, os.trail, mark, j.sibling);
    var o := os.Fsync(j.sibling);
    if o == Outcome.Failed { return Some(SiblingSync); }
    var placed := RenameSibling(os, j, d0, mark);
    if placed { return None; }
    DropTemp(os, j.sibling, j, d0, mark);
    DropTemp(os, j.src, j, d0, mark);
    return Some(FinalRename);
  }

  method RenameSibling(os: Kernel, j: Job, ghost d0: Disk, ghost mark: nat) returns (placed: bool)
    requires Ready(j, d0, os.disk, os.trail, mark) && CopySynced(j, d0, os.disk)
    modifies os
    ensures if placed then Finished(j, d0, os.disk, os.trail, mark, false)
            else Ready(j, d0, os.disk, os.trail, mark)
    ensures Extends(old(os.trail), os.trail, os.disk)
    ensures os.calls == old(os.calls) + [RenameCall(j.sibling, j.dst, placed)]
  {
    Idle(j, d0, os.disk, os.trail, mark);
    PlaceCopy(j, d0, os.disk, os.trail, mark);
    var o := os.Rename(j.sibling, j.dst);
    placed := o == Done;
  }

  /** The fallback of the installer: copy next to the destination, then rename
      the copy into place. */
  method InstallViaSibling(os: Kernel, j: Job, ghost d0: Disk, ghost mark: nat) returns (refused: Option<Stage>)
    requires Ready(j, d0, os.disk, os.trail, mark)
    requires os.disk.Current(j.src) == d0.Current(j.src) && os.disk.Current(j.sibling) == d0.Current(j.sibling)
    modifies os
    ensures refused.Some? ==>
      refused.value !in {SourceSync, DirectorySync} && Ready(j, d0, os.disk, os.trail, mark)
    ensures refused.None? ==> Finished(j, d0, os.disk, os.trail, mark, false)
    ensures Extends(old(os.trail), os.trail, os.disk) && os.calls == old(os.calls) + FallbackCalls(j, refused)
  {
    var o := CopyToSibling(os, j, d0, mark);
    if o != Done {
      DropTemp(os, j.src, j, d0, mark);
      return Some(RenameAndCopy);
    }
    refused := PlaceAndDrop(os, j, d0, mark);
  }

  /** Place the copy; the source has served once it is there. */
  method PlaceAndDrop(os: Kernel, j: Job, ghost d0: Disk, ghost mark: nat) returns (refused: Option<Stage>)
    requires Ready(j, d0, os.disk, os.trail, mark) && Copied(j, d0, os.disk)
    modifies os
    ensures refused.Some? ==> refused.value in {SiblingSync, FinalRename} && Ready(j, d0, os.disk, os.trail, mark)
    ensures refused.None? ==> Finished(j, d0, os.disk, os.trail, mark, false)
    ensures Extends(old(os.trail), os.trail, os.disk)
    ensures os.calls == old(os.calls) + PlaceCalls(j, refused)
                        + if refused.None? then [UnlinkCall(j.src)] else []
  {
    refused := PlaceSibling(os, j, d0, mark);
    if refused.None? { DropSource(os, j, d0, mark); }
  }

  method DropSource(os: Kernel, j: Job, ghost d0: Disk, ghost mark: nat)
    requires Finished(j, d0, os.disk, os.trail, mark, false)
    modifies os
    ensures Finished(j, d0, os.disk, os.trail, mark, false)
    ensures Extends(old(os.trail), os.trail, os.disk) && os.calls == old(os.calls) + [UnlinkCall(j.src)]
  {
    UnlinkKeepsPlaced(j, d0, os.disk, os.trail, mark);
    os.Unlink(j.src);
  }

  /** Rename the synced source into place, or fall back to the copy. */
  method RenameOrCopy(os: Kernel, j: Job, ghost d0: Disk, ghost mark: nat)
    returns (refused: Option<Stage>, ghost direct: bool)
    requires os.disk == FsyncEffect(d0, j.src) && Ready(j, d0, os.disk, os.trail, mark)
    requires Covered(j, d0, os.trail, mark)
    modifies os
    ensures refused.Some? ==>
      refused.value !in {SourceSync, DirectorySync} && Ready(j, d0, os.disk, os.trail, mark)
    ensures refused.None? ==> Finished(j, d0, os.disk, os.trail, mark, direct)
    ensures Extends(old(os.trail), os.trail, os.disk) && (direct ==> refused.None?)
    ensures os.calls == old(os.calls) + PlacementCalls(j, direct, refused)
  {
    Idle(j, d0, os.disk, os.trail, mark);
    if j.src in os.disk.names { PlaceSource(j, d0, os.trail, mark); }
    var o := os.Rename(j.src, j.dst);
    if o == Done { return None, true; }
    direct := false;
    refused := InstallViaSibling(os, j, d0, mark);
  }

  /** Make the placed file survive a crash. */
  method SyncDestination(os: Kernel, j: Job, ghost d0: Disk, ghost mark: nat, ghost direct: bool)
    returns (r: InstallResult)
    requires Finished(j, d0, os.disk, os.trail, mark, direct)
    modifies os
    ensures r in {Installed, Refused(DirectorySync)} && Finished(j, d0, os.disk, os.trail, mark, direct)
    ensures r.Installed? && (direct || j.Apart(d0)) ==> Settled(os.disk, j.dst, New(j, d0))
    ensures Extends(old(os.trail), os.trail, os.disk)
    ensures os.calls == old(os.calls) + [SyncDirCall(j.dst.dir, r.Installed?)]
  {
    SyncDirStep(j, d0, os.disk, os.trail, mark, direct);
    var o := os.SyncDir(j.dst.dir);
    r := if o == Done then Installed else Refused(DirectorySync);
  }

  /** What an installation that began in `d0` promises when it ends in `d`. */
  ghost predicate Kept(j: Job, d0: Disk, d: Disk, r: InstallResult) {
    // Success is durable, and no new sibling is left behind.
    && (r.Installed? ==>
          && New(j, d0).Some? && Settled(d, j.dst, New(j, d0))
          && d.Current(j.sibling) in {None, d0.Current(j.sibling)})
    // Failure changes the destination only when the directory sync failed.
    && (r.Refused? && !r.at.DirectorySync? ==> Untouched(d0, d, j.dst))
    && (r == Refused(DirectorySync) ==> New(j, d0).Some? && d.Holds(j.dst, New(j, d0).value))
    && (j.src !in d0.names ==> r.Refused? && Untouched(d0, d, j.dst))
  }

  method AtomicInstallWith(os: Kernel, src: Path, dst: Path, pid: string)
    returns (r: InstallResult, ghost sync: Outcome, ghost direct: bool)
    requires os.disk.Valid() && Job(src, dst, SiblingOf(dst, pid)).Distinct()
    modifies os
    ensures os.disk.Valid() && Extends(old(os.trail), os.trail, os.disk)
    // A crash after any step leaves the old file or the complete new one.
    ensures var j, d0 := Job(src, dst, SiblingOf(dst, pid)), old(os.disk);
      && (direct || j.Apart(d0) ==> Covered(j, d0, os.trail, |old(os.trail)|) && Kept(j, d0, os.disk, r))
      && (j.Apart(d0) ==> Safe(j, d0, os.trail, |old(os.trail)|))
    // What is in place afterwards, whatever the sibling was.
    ensures GaveUp(r).None? ==>
      Arrived(Job(src, dst, SiblingOf(dst, pid)), old(os.disk), os.disk, direct)
    // Every call was made in its turn, and the result follows from them.
    ensures Consistent(sync, direct, r) && (sync.Missing? <==> src !in old(os.disk).names)
    ensures os.calls == old(os.calls) + InstallCalls(Job(src, dst, SiblingOf(dst, pid)), sync, direct, r)
    // Nothing else changes.
    ensures OthersKept(old(os.disk), os.disk, {src, dst, SiblingOf(dst, pid)}, SiblingOf(dst, pid))
  {
    ghost var d0, mark := os.disk, |os.trail|;
    var j := Job(src, dst, SiblingOf(dst, pid));
    FsyncStep(j, d0, d0, os.trail, mark, src);
    Idle(j, d0, d0, os.trail, mark);
    var o := os.Fsync(src);
    sync := o;
    SourceSyncCovered(j, d0, os.trail, mark);
    if o == Outcome.Failed { return Refused(SourceSync), sync, false; }
    r, direct := InstallSynced(os, j, d0, mark);
    CallsInTurn(old(os.calls), j, sync, direct, r);
  }

  /** Everything after the source sync. */
  method InstallSynced(os: Kernel, j: Job, ghost d0: Disk, ghost mark: nat)
    returns (r: InstallResult, ghost direct: bool)
    requires os.disk == FsyncEffect(d0, j.src) && Ready(j, d0, os.disk, os.trail, mark)
    requires Covered(j, d0, os.trail, mark)
    modifies os
    ensures os.disk.Valid() && Extends(old(os.trail), os.trail, os.disk)
    ensures direct || j.Apart(d0) ==> Covered(j, d0, os.trail, mark) && Kept(j, d0, os.disk, r)
    ensures j.Apart(d0) ==> Safe(j, d0, os.trail, mark)
    ensures GaveUp(r).None? ==> Arrived(j, d0, os.disk, direct)
    ensures r != Refused(SourceSync) && (direct ==> GaveUp(r).None?)
    ensures os.calls == old(os.calls) + PlacementCalls(j, direct, GaveUp(r)) + Closing(j, r)
    ensures OthersKept(d0, os.disk, {j.src, j.dst, j.sibling}, j.sibling)
  {
    var refused;
    refused, direct := RenameOrCopy(os, j, d0, mark);
    if refused.Some? {
      r := Refused(refused.value);
    } else {
      r := SyncDestination(os, j, d0, mark, direct);
    }
  }

  // ---- The states between the steps --------------------------------------

  lemma CurrentBound(d: Disk, p: Path)
    requires d.Valid() && p in d.names
    ensures d.names[p] in d.data
  {
    assert d.Current(p) in d.Bindings(p);
  }

  /** A call that fails leaves the protocol where it was. */
  lemma Idle(j: Job, d0: Disk, d: Disk, trail: seq<Disk>, mark: nat)
    requires Ready(j, d0, d, trail, mark)
    ensures Ready(j, d0, d, trail + [d], mark)
  {
    if j.Apart(d0) { OneMoreState(d0, trail, d, mark, j.dst, New(j, d0), j.sibling); }
  }

  lemma OneMoreCovered(j: Job, d0: Disk, trail: seq<Disk>, d: Disk, mark: nat)
    requires Covered(j, d0, trail, mark) && Guarded(d0, d, j.dst, New(j, d0))
    ensures Covered(j, d0, trail + [d], mark)
  {
    GuardedIsOldOrNew(d0, d, j.dst, New(j, d0));
  }

  /** Syncing the source changes nothing a crash may leave. */
  lemma SourceSyncCovered(j: Job, d0: Disk, trail: seq<Disk>, mark: nat)
    requires d0.Valid() && |trail| == mark + 1 && trail[mark] in {d0, FsyncEffect(d0, j.src)}
    ensures Covered(j, d0, trail, mark)
  {
    assert Guarded(d0, d0, j.dst, New(j, d0));
    FsyncGuards(d0, d0, j.src, j.dst, New(j, d0));
    GuardedIsOldOrNew(d0, trail[mark], j.dst, New(j, d0));
  }

  lemma FsyncStep(j: Job, d0: Disk, d: Disk, trail: seq<Disk>, mark: nat, p: Path)
    requires Ready(j, d0, d, trail, mark)
    ensures var d' := FsyncEffect(d, p);
      Ready(j, d0, d', trail + [d'], mark) && (Copied(j, d0, d) ==> Copied(j, d0, d'))
  {
    var d' := FsyncEffect(d, p);
    FsyncKeepsValid(d, p);
    if j.Apart(d0) {
      FsyncGuards(d0, d, p, j.dst, New(j, d0));
      OneMoreState(d0, trail, d', mark, j.dst, New(j, d0), j.sibling);
    }
  }

  lemma UnlinkStep(j: Job, d0: Disk, d: Disk, trail: seq<Disk>, mark: nat, p: Path)
    requires Ready(j, d0, d, trail, mark) && p in {j.src, j.sibling}
    ensures var d' := UnlinkEffect(d, p); Ready(j, d0, d', trail + [d'], mark)
  {
    var d' := UnlinkEffect(d, p);
    BindKeepsValid(d, p, None);
    BindChanges(d, p, None);
    if j.Apart(d0) {
      UnlinkGuards(d0, d, p, j.dst, New(j, d0));
      OneMoreState(d0, trail, d', mark, j.dst, New(j, d0), j.sibling);
    }
  }

  lemma CopyStep(j: Job, d0: Disk, d: Disk, d': Disk, trail: seq<Disk>, trail': seq<Disk>, mark: nat)
    requires Ready(j, d0, d, trail, mark) && d.Current(j.sibling) == d0.Current(j.sibling)
    requires d'.Valid() && Rewritten(d, d', j.sibling) && trail <= trail'
    requires forall k :: |trail| <= k < |trail'| ==> Rewritten(d, trail'[k], j.sibling)
    ensures Ready(j, d0, d', trail', mark)
  {
    if j.Apart(d0) {
      RewriteGuards(d0, d, d', j.sibling, j.dst, New(j, d0));
      RewritesAreSafe(d0, d, trail, trail', mark, j.dst, New(j, d0), j.sibling);
      assert d.Bindings(j.dst) == d0.Bindings(j.dst);
    }
  }

  /** The bytes copied are those the source had to begin with. */
  lemma SourceRead(j: Job, d0: Disk, d: Disk, d': Disk)
    requires j.Distinct() && d0.Valid() && OthersKept(d0, d, {j.src, j.sibling}, j.sibling)
    requires d.Current(j.src) == d0.Current(j.src) && d.Current(j.sibling) == d0.Current(j.sibling)
    requires j.src in d.names && d.names[j.src] in d.data
    requires d'.Holds(j.sibling, if Linked(d, j.src, j.sibling) then [] else d.data[d.names[j.src]])
    ensures Copied(j, d0, d')
  {
    CurrentBound(d0, j.src);
  }

  /** The copy, once synced, can be renamed into place. */
  lemma PlaceCopy(j: Job, d0: Disk, d: Disk, trail: seq<Disk>, mark: nat)
    requires Ready(j, d0, d, trail, mark) && CopySynced(j, d0, d)
    ensures var d' := RenameEffect(d, j.sibling, j.dst); Finished(j, d0, d', trail + [d'], mark, false)
  {
    var d' := RenameEffect(d, j.sibling, j.dst);
    RenameKeepsValid(d, j.sibling, j.dst);
    BindChanges(d, j.dst, d.Current(j.sibling));
    BindChanges(d.Bind(j.dst, d.Current(j.sibling)), j.sibling, None);
    if j.Apart(d0) {
      assert d.Current(j.dst) in d.Bindings(j.dst);
      RenameGuards(d0, d, j.sibling, j.dst, New(j, d0));
      OneMoreState(d0, trail, d', mark, j.dst, New(j, d0), j.sibling);
    }
  }

  /** So can the synced source itself. */
  lemma PlaceSource(j: Job, d0: Disk, trail: seq<Disk>, mark: nat)
    requires Ready(j, d0, FsyncEffect(d0, j.src), trail, mark) && j.src in d0.names
    requires Covered(j, d0, trail, mark)
    ensures var d' := RenameEffect(FsyncEffect(d0, j.src), j.src, j.dst);
            Finished(j, d0, d', trail + [d'], mark, true)
  {
    var d := FsyncEffect(d0, j.src);
    var d' := RenameEffect(d, j.src, j.dst);
    CurrentBound(d0, j.src);
    RenameKeepsValid(d, j.src, j.dst);
    BindChanges(d, j.dst, d.Current(j.src));
    BindChanges(d.Bind(j.dst, d.Current(j.src)), j.src, None);
    assert Guarded(d0, d0, j.dst, New(j, d0));
    FsyncGuards(d0, d0, j.src, j.dst, New(j, d0));
    RenameGuards(d0, d, j.src, j.dst, New(j, d0));
    OneMoreCovered(j, d0, trail, d', mark);
    if j.Apart(d0) { OneMoreState(d0, trail, d', mark, j.dst, New(j, d0), j.sibling); }
  }

  lemma UnlinkKeepsPlaced(j: Job, d0: Disk, d: Disk, trail: seq<Disk>, mark: nat)
    requires Finished(j, d0, d, trail, mark, false)
    ensures Finished(j, d0, d, trail + [d], mark, false)
    ensures var d' := UnlinkEffect(d, j.src); Finished(j, d0, d', trail + [d'], mark, false)
  {
    var d' := UnlinkEffect(d, j.src);
    BindKeepsValid(d, j.src, None);
    BindChanges(d, j.src, None);
    if j.Apart(d0) {
      UnlinkGuards(d0, d, j.src, j.dst, New(j, d0));
      OneMoreState(d0, trail, d, mark, j.dst, New(j, d0), j.sibling);
      OneMoreState(d0, trail, d', mark, j.dst, New(j, d0), j.sibling);
    }
  }

  /** The closing directory sync makes the placed file the only possibility. */
  lemma SyncDirStep(j: Job, d0: Disk, d: Disk, trail: seq<Disk>, mark: nat, direct: bool)
    requires Finished(j, d0, d, trail, mark, direct)
    ensures Finished(j, d0, d, trail + [d], mark, direct)
    ensures var d' := SyncDirEffect(d, j.dst.dir);
      && Finished(j, d0, d', trail + [d'], mark, direct)
      && (direct || j.Apart(d0) ==> Settled(d', j.dst, New(j, d0)))
  {
    var d' := SyncDirEffect(d, j.dst.dir);
    SyncDirKeepsValid(d, j.dst.dir);
    if direct || j.Apart(d0) {
      SyncDirGuards(d0, d, j.dst.dir, j.dst, New(j, d0));
      OneMoreCovered(j, d0, trail, d, mark);
      OneMoreCovered(j, d0, trail, d', mark);
      SettledIsExact(d', j.dst);
    }
    if j.Apart(d0) {
      assert d'.Bindings(j.dst) <= d.Bindings(j.dst);
      OneMoreState(d0, trail, d, mark, j.dst, New(j, d0), j.sibling);
      OneMoreState(d0, trail, d', mark, j.dst, New(j, d0), j.sibling);
    }
  }

  // ---- Install, crash, install again -------------------------------------

  /** What others do before round `n`: they leave a file to install. */
  type Fetch = (nat, Disk) -> Disk

  /** They leave the destination alone, and the source is no second name of a
      left-over sibling. */
  ghost predicate LegalFetch(fetch: Fetch, srcs: seq<Path>, dst: Path, sibling: Path) {
    forall n: nat, d: Disk :: n < |srcs| && d.Valid() ==>
      && fetch(n, d).Valid() && Harmless(d, fetch(n, d), dst, sibling) && !Linked(fetch(n, d), sibling, srcs[n])
  }

  /** Finding nothing to install is legal. */
  lemma FetchingNothingIsLegal(srcs: seq<Path>, dst: Path, sibling: Path)
    requires dst !in srcs && sibling !in srcs
    ensures LegalFetch(
      (n: nat, d: Disk) => if n < |srcs| then UnlinkEffect(d, srcs[n]) else d, srcs, dst, sibling)
  {
    forall n: nat, d: Disk | n < |srcs| && d.Valid()
      ensures var e := UnlinkEffect(d, srcs[n]);
        e.Valid() && Harmless(d, e, dst, sibling) && !Linked(e, sibling, srcs[n])
    {
      var e := UnlinkEffect(d, srcs[n]);
      BindKeepsValid(d, srcs[n], None);
      BindChanges(d, srcs[n], None);
      forall c | CanRecover(e, dst, c) ensures CanRecover(d, dst, c) {
        var b :| b in e.Bindings(dst) && Recovers(e, b, c);
        assert b in d.Bindings(dst) && Recovers(d, b, c);
      }
    }
  }

  /** The bytes each round found to install. */
  ghost function Sources(found: seq<Disk>, srcs: seq<Path>): (r: seq<Option<Bytes>>)
    requires |found| == |srcs|
    ensures |r| == |srcs| && forall k :: 0 <= k < |r| ==> r[k] == BytesAt(found[k], srcs[k])
  {
    seq(|srcs|, k requires 0 <= k < |srcs| => BytesAt(found[k], srcs[k]))
  }

  /** However often a destination is installed to and the power fails, it is
      the first file or the complete bytes of one of the sources, and the
      sibling stands apart from it for the next. `found` are the disks the
      installations start from. */
  method InstallCrashInstall(os: Kernel, srcs: seq<Path>, dst: Path, pid: string, fetch: Fetch, power: Power)
    returns (ghost found: seq<Disk>)
    requires os.disk.Valid() && Separate(os.disk, SiblingOf(dst, pid), dst)
    requires forall k :: 0 <= k < |srcs| ==> Job(srcs[k], dst, SiblingOf(dst, pid)).Distinct()
    requires LegalFetch(fetch, srcs, dst, SiblingOf(dst, pid)) && LegalPower(power)
    modifies os
    ensures os.disk.Valid() && Separate(os.disk, SiblingOf(dst, pid), dst) && |found| == |srcs|
    ensures forall c :: CanRecover(os.disk, dst, c) ==>
      CanRecover(old(os.disk), dst, c) || (c.Some? && c in Sources(found, srcs))
  {
    var sibling := SiblingOf(dst, pid);
    SiblingIsApart(dst, pid);
    ghost var ds := [os.disk];
    found := [];
    for n := 0 to |srcs|
      invariant os.disk.Valid() && Separate(os.disk, sibling, dst)
      invariant |ds| == n + 1 && |found| == n && ds[0] == old(os.disk) && ds[n] == os.disk
      invariant forall k :: 0 <= k < n ==>
        && Harmless(ds[k], found[k], dst, sibling)
        && Round(found[k], ds[k + 1], dst, BytesAt(found[k], srcs[k]), sibling)
    {
      os.Restart(fetch(n, os.disk));
      ghost var d0 := os.disk;
      InstallOnce(os, srcs[n], dst, pid, n, power);
      RoundIsSafe(d0, os.disk, dst, BytesAt(d0, srcs[n]), sibling);
      found, ds := found + [d0], ds + [os.disk];
    }
    RoundsAreSafe(ds, found, dst, Sources(found, srcs), sibling);
  }

  /** One installation, stopped somewhere. */
  method InstallOnce(os: Kernel, src: Path, dst: Path, pid: string, n: nat, power: Power)
    requires os.disk.Valid() && Job(src, dst, SiblingOf(dst, pid)).Distinct() && LegalPower(power)
    requires !Linked(os.disk, SiblingOf(dst, pid), src)
    modifies os
    ensures Round(old(os.disk), os.disk, dst, BytesAt(old(os.disk), src), SiblingOf(dst, pid))
  {
    var d0, mark := os.disk, |os.trail|;
    var r, sync, direct := AtomicInstallWith(os, src, dst, pid);
    var left := power(n, [d0] + os.trail[mark..]);
    RunIsRound(d0, os.trail, mark, left, dst, BytesAt(d0, src), SiblingOf(dst, pid));
    os.Restart(left);
  }

  // ---- The sibling that does not stand apart -----------------------------

  /** A sibling that is a second name of the source: the copy truncates both,
      and what is renamed into place is empty. */
  lemma LinkedSourceIsLost(j: Job, d0: Disk, i: Ino)
    requires j.Distinct() && d0.Valid() && Linked(d0, j.sibling, j.src)
    ensures var copied := OpenEffect(FsyncEffect(d0, j.src), j.sibling, i);
            RenameEffect(FsyncEffect(copied, j.sibling), j.sibling, j.dst).Holds(j.dst, [])
  {}
}
