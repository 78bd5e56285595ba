/** The system calls the file writers make, and what they may leave behind. */
module Kernels {
  import opened Wrappers
  import opened Machine
  import opened CrashFs
  import opened Crashes

  datatype Outcome = Done | Missing | Failed

  /** A system call as the program saw it. */
  datatype Call =
    | SyncCall(p: Path, o: Outcome)
    | RenameCall(from: Path, to: Path, ok: bool)
    | UnlinkCall(p: Path)
    | SyncDirCall(dir: string, ok: bool)
    | WriteCall(p: Path, bytes: Bytes, ok: bool)
    | CopyCall(from: Path, to: Path, ok: bool)
    | RestrictCall(p: Path, ok: bool)

  /** The recorded states go on and end in the present one. */
  predicate Extends(before: seq<Disk>, after: seq<Disk>, d: Disk) {
    before < after && after[|after| - 1] == d
  }

  /** The operating system: every call may fail without effect. `trail` records
      each state in which the power could have gone, `calls` what was asked. */
  class Kernel {
    var disk: Disk
    var trail: seq<Disk>
    ghost var calls: seq<Call>

    constructor (disk: Disk)
      ensures this.disk == disk && trail == [] && calls == []
    {
      this.disk := disk;
      trail, calls := [], [];
    }

    method Fsync(p: Path) returns (r: Outcome)
      requires disk.Valid()
      modifies this
      ensures disk.Valid()
      ensures r.Missing? <==> p !in old(disk).names
      ensures disk == if r.Done? then FsyncEffect(old(disk), p) else old(disk)
      ensures trail == old(trail) + [disk]
      ensures calls == old(calls) + [SyncCall(p, r)]
    {
      var ok: bool := *;
      r := if p !in disk.names then Missing else if ok then Done else Outcome.Failed;
      if r.Done? {
        FsyncKeepsValid(disk, p);
        disk := FsyncEffect(disk, p);
      }
      trail, calls := trail + [disk], calls + [SyncCall(p, r)];
    }

    method Rename(from: Path, to: Path) returns (r: Outcome)
      requires disk.Valid()
      modifies this
      ensures disk.Valid()
      ensures r.Missing? <==> from !in old(disk).names
      ensures disk == if r.Done? then RenameEffect(old(disk), from, to) else old(disk)
      ensures trail == old(trail) + [disk]
      ensures calls == old(calls) + [RenameCall(from, to, r.Done?)]
    {
      var ok: bool := *;
      r := if from !in disk.names then Missing else if ok then Done else Outcome.Failed;
      if r.Done? {
        RenameKeepsValid(disk, from, to);
        disk := RenameEffect(disk, from, to);
      }
      trail, calls := trail + [disk], calls + [RenameCall(from, to, r.Done?)];
    }

    method Unlink(p: Path)
      requires disk.Valid()
      modifies this
      ensures disk.Valid()
      ensures disk == old(disk) || disk == UnlinkEffect(old(disk), p)
      ensures trail == old(trail) + [disk]
      ensures calls == old(calls) + [UnlinkCall(p)]
    {
      var ok: bool := *;
      if ok {
        BindKeepsValid(disk, p, None);
        disk := UnlinkEffect(disk, p);
      }
      trail, calls := trail + [disk], calls + [UnlinkCall(p)];
    }

    method SyncDir(dir: string) returns (r: Outcome)
      requires disk.Valid()
      modifies this
      ensures disk.Valid()
      ensures !r.Missing?
      ensures disk == if r.Done? then SyncDirEffect(old(disk), dir) else old(disk)
      ensures trail == old(trail) + [disk]
      ensures calls == old(calls) + [SyncDirCall(dir, r.Done?)]
    {
      var ok: bool := *;
      r := if ok then Done else Outcome.Failed;
      if ok {
        SyncDirKeepsValid(disk, dir);
        disk := SyncDirEffect(disk, dir);
      }
      trail, calls := trail + [disk], calls + [SyncDirCall(dir, r.Done?)];
    }

    /** Create or truncate `p`, then write `bytes` in pieces of any size; the
        power or the device may give out after each piece. */
    method WriteFile(p: Path, bytes: Bytes) returns (r: Outcome)
      requires disk.Valid()
      modifies this
      ensures !r.Missing? && disk.Valid()
      ensures calls == old(calls) + [WriteCall(p, bytes, r.Done?)]
      ensures Extends(old(trail), trail, disk)
      ensures Rewritten(old(disk), disk, p)
      ensures forall k :: |old(trail)| <= k < |trail| ==> Rewritten(old(disk), trail[k], p)
      ensures r.Done? ==> disk.Holds(p, bytes)
      ensures p in old(disk).names ==> p in disk.names
    {
      ghost var d0 := disk;
      var ok: bool := *;
      if !ok {
        trail, calls := trail + [disk], calls + [WriteCall(p, bytes, false)];
        return Outcome.Failed;
      }
      FreshExists(disk.data.Keys);
      ghost var top: Ino :| Above(disk.data.Keys, top);
      assert top !in disk.data;
      var i: Ino :| i !in disk.data;
      OpenRewrites(disk, p, i);
      disk := OpenEffect(disk, p, i);
      trail := trail + [disk];
      var done := 0;
      while done < |bytes|
        invariant done <= |bytes| && disk.Valid() && calls == old(calls)
        invariant Extends(old(trail), trail, disk)
        invariant disk.Holds(p, bytes[..done])
        invariant Rewritten(d0, disk, p)
        invariant forall k :: |old(trail)| <= k < |trail| ==> Rewritten(d0, trail[k], p)
        decreases |bytes| - done
      {
        ok := *;
        if !ok {
          trail, calls := trail + [disk], calls + [WriteCall(p, bytes, false)];
          return Outcome.Failed;
        }
        var next: nat :| done < next <= |bytes|;
        assert bytes[..done] + bytes[done..next] == bytes[..next];
        AppendRewrites(d0, disk, p, bytes[..done], bytes[done..next]);
        disk := AppendEffect(disk, p, bytes[done..next]);
        trail := trail + [disk];
        done := next;
      }
      calls := calls + [WriteCall(p, bytes, true)];
      r := Done;
    }

    /** Copy one file's bytes into another path; nothing happens without a
        source. The destination is truncated before the source is read, so a
        file copied onto another name of its own comes out empty. */
    method Copy(from: Path, to: Path) returns (r: Outcome)
      requires disk.Valid()
      modifies this
      ensures disk.Valid() && Extends(old(trail), trail, disk)
      ensures calls == old(calls) + [CopyCall(from, to, r.Done?)]
      ensures r.Missing? <==> from !in old(disk).names
      ensures r.Missing? ==> disk == old(disk)
      ensures Rewritten(old(disk), disk, to)
      ensures forall k :: |old(trail)| <= k < |trail| ==> Rewritten(old(disk), trail[k], to)
      ensures r.Done? ==> old(disk).names[from] in old(disk).data
      ensures r.Done? ==>
        disk.Holds(to, if Linked(old(disk), from, to) then [] else old(disk).data[old(disk).names[from]])
    {
      if from !in disk.names {
        trail, calls := trail + [disk], calls + [CopyCall(from, to, false)];
        return Missing;
      }
      assert disk.Current(from) in disk.Bindings(from);
      r := WriteFile(to, if Linked(disk, from, to) then [] else disk.data[disk.names[from]]);
      calls := old(calls) + [CopyCall(from, to, r.Done?)];
    }

    /** Narrow the permissions, which are not part of the disk. */
    method Restrict(p: Path) returns (ok: bool)
      modifies this`calls
      ensures calls == old(calls) + [RestrictCall(p, ok)]
    {
      ok := *;
      calls := calls + [RestrictCall(p, ok)];
    }

    /** The program starts again on the disk it finds. */
    method Restart(left: Disk)
      modifies this
      ensures disk == left && trail == old(trail) && calls == old(calls)
    {
      disk := left;
    }
  }

  /** What the power does in round `n`, given the states the disk went through. */
  type Power = (nat, seq<Disk>) -> Disk

  /** It stops the program in one of those states, or crashes the disk there. */
  ghost predicate LegalPower(power: Power) {
    forall n: nat, states: seq<Disk> :: states != [] ==> EndsInSome(states, power(n, states))
  }

  /** Power that stays on is legal. */
  lemma StayingOnIsLegal(dark: Disk)
    ensures LegalPower((n: nat, states: seq<Disk>) => if states == [] then dark else states[|states| - 1])
  {
    forall states: seq<Disk> | states != [] ensures EndsInSome(states, states[|states| - 1]) {
      assert EndsIn(states[|states| - 1], states[|states| - 1]);
    }
  }

  // ---- What changes and what does not -------------------------------------

  /** The destination, its possible pasts and its contents are as they were. */
  ghost predicate Untouched(d0: Disk, d: Disk, p: Path) {
    && d.Current(p) == d0.Current(p) && d.Stale(p) == d0.Stale(p)
    && forall i :: i in d0.data && Some(i) in d0.Bindings(p) ==>
         i in d.data && d.data[i] == d0.data[i] && (i in d0.synced ==> i in d.synced)
  }

  /** Only the given paths are rebound, and no file that existed changes its
      bytes or loses its sync, except the one `scratch` named. */
  ghost predicate OthersKept(d0: Disk, d: Disk, paths: set<Path>, scratch: Path) {
    && (forall q :: q !in paths ==> d.Current(q) == d0.Current(q))
    && (forall i :: i in d0.data && Some(i) != d0.Current(scratch) ==>
          i in d.data && d.data[i] == d0.data[i] && (i in d0.synced ==> i in d.synced))
  }

  /** After a crash the path holds exactly `content`. */
  ghost predicate Settled(d: Disk, p: Path, content: Option<Bytes>) {
    forall c :: CanRecover(d, p, c) <==> c == content
  }

  // ---- Unused file numbers ------------------------------------------------

  ghost predicate Above(used: set<Ino>, i: Ino) {
    forall j :: j in used ==> j < i
  }

  lemma {:induction false} FreshExists(used: set<Ino>)
    ensures exists i: Ino :: Above(used, i)
    decreases |used|
  {
    if used == {} {
      assert Above(used, 0);
    } else {
      var x :| x in used;
      FreshExists(used - {x});
      var i: Ino :| Above(used - {x}, i);
      var m := if x < i then i else x + 1;
      forall j | j in used ensures j < m {
        if j != x { assert j in used - {x}; }
      }
      assert Above(used, m);
    }
  }
}
