/** Whole disks after a crash, and writing again on what is left. */
module Crashes {
  import opened Wrappers
  import opened Machine
  import opened CrashFs

  /** Every path holds one of its possible bindings, chosen apart from the
      others; a synced file has its bytes, any other may have lost them. */
  ghost predicate AfterCrash(d: Disk, d': Disk) {
    && d'.Valid() && d'.stale == map[] && d'.data.Keys <= d'.synced
    && (forall p :: d'.Current(p) in d.Bindings(p))
    && (forall i :: i in d.synced && i in d.data && i in d'.data ==> d'.data[i] == d.data[i])
  }

  /** The crash did not tear a rename in two, leaving a file under both names. */
  ghost predicate KeepsRenames(d: Disk, d': Disk) {
    forall p, q :: p != q && Linked(d', p, q) ==> Linked(d, p, q)
  }

  // ---- The two views of a crash agree ------------------------------------

  lemma CrashShows(d: Disk, d': Disk, p: Path)
    requires d.Valid() && AfterCrash(d, d')
    ensures CanRecover(d, p, BytesAt(d', p))
    ensures forall c :: CanRecover(d', p, c) <==> c == BytesAt(d', p)
  {
    var b := d'.Current(p);
    assert b in d'.Bindings(p) && b in d.Bindings(p);
    assert Recovers(d, b, BytesAt(d', p));
    assert d'.Bindings(p) == {b};
    forall c ensures CanRecover(d', p, c) <==> c == BytesAt(d', p) {
      if c == BytesAt(d', p) { assert Recovers(d', b, c); }
    }
  }

  /** What one path alone may show, some crash of the whole disk does leave. */
  lemma CrashCanShow(d: Disk, p: Path, c: Option<Bytes>) returns (d': Disk)
    requires d.Valid() && CanRecover(d, p, c)
    ensures AfterCrash(d, d') && BytesAt(d', p) == c
  {
    var b :| b in d.Bindings(p) && Recovers(d, b, c);
    var data := if b.Some? then d.data[b.value := c.value] else d.data;
    var names := if b.Some? then d.names[p := b.value] else d.names - {p};
    d' := Disk(names, data, data.Keys, map[]);
    forall q ensures d'.Current(q) in d.Bindings(q) && d'.Bindings(q) == {d'.Current(q)} {
      assert q != p ==> d'.Current(q) == d.Current(q);
    }
  }

  lemma RecoverableIffShown(d: Disk, p: Path, c: Option<Bytes>)
    requires d.Valid()
    ensures CanRecover(d, p, c) <==> exists d' :: AfterCrash(d, d') && BytesAt(d', p) == c
  {
    if CanRecover(d, p, c) { var d' := CrashCanShow(d, p, c); }
    if d' :| AfterCrash(d, d') && BytesAt(d', p) == c { CrashShows(d, d', p); }
  }

  // ---- A torn rename breaks the next write -------------------------------

  /** Bindings chosen apart can leave a renamed file under both names. */
  lemma RenameMayLink(d: Disk, tmp: Path, p: Path) returns (d': Disk)
    requires d.Valid() && tmp in d.names && tmp != p && d.Current(tmp) != d.Current(p)
    ensures AfterCrash(RenameEffect(d, tmp, p), d') && Linked(d', tmp, p) && d'.data == d.data
  {
    var after := RenameEffect(d, tmp, p);
    RenameKeepsValid(d, tmp, p);
    BindChanges(d, p, d.Current(tmp));
    BindChanges(d.Bind(p, d.Current(tmp)), tmp, None);
    d' := Disk(after.names[tmp := d.names[tmp]], after.data, after.data.Keys, map[]);
    assert d.Current(tmp) in after.Bindings(tmp) && d.Current(tmp) in d.Bindings(tmp);
    forall q ensures d'.Current(q) in after.Bindings(q) && d'.Bindings(q) == {d'.Current(q)} {
      assert q != tmp ==> d'.Current(q) == after.Current(q);
    }
  }

  /** Whatever a crash may leave at `p` is on the disk in full. */
  ghost predicate Durable(d: Disk, p: Path) {
    forall i :: Some(i) in d.Bindings(p) ==> i in d.synced
  }

  ghost function Lengths(d: Disk, p: Path): set<nat>
    requires d.Valid()
  {
    set b | b in d.Bindings(p) && b.Some? :: |d.data[b.value]|
  }

  lemma LongerThanAll(used: set<nat>) returns (n: nat)
    ensures forall j :: j in used ==> j < n
    decreases |used|
  {
    n := 0;
    if used != {} {
      var x :| x in used;
      var m := LongerThanAll(used - {x});
      n := if x < m then m else x + 1;
      forall j | j in used ensures j < n { assert j == x || j in used - {x}; }
    }
  }

  /** Longer than anything a crash could show at `p` before. */
  lemma JunkIsNew(d: Disk, p: Path, bytes: Option<Bytes>) returns (junk: Bytes)
    requires d.Valid() && Durable(d, p)
    ensures !CanRecover(d, p, Some(junk)) && bytes != Some(junk)
  {
    var n := LongerThanAll(Lengths(d, p) + if bytes.Some? then {|bytes.value|} else {});
    junk := seq(n, _ => 0);
    forall b | b in d.Bindings(p) ensures !Recovers(d, b, Some(junk)) {
      if b.Some? { assert |d.data[b.value]| in Lengths(d, p); }
    }
  }

  /** Where something unsynced may show, anything may. */
  lemma AnythingMayShow(d: Disk, p: Path, c: Bytes)
    requires d.Valid() && !Durable(d, p)
    ensures CanRecover(d, p, Some(c))
  {
    var i :| Some(i) in d.Bindings(p) && i !in d.synced;
    assert Recovers(d, Some(i), Some(c));
  }

  /** Opening the temporary for writing is safe for `p` exactly when the two
      are not linked in any state a crash may leave, or nothing was safe at `p`
      to begin with: truncating a linked temporary destroys the file it was
      meant to protect. */
  lemma TruncationSafeIff(d: Disk, tmp: Path, p: Path, i: Ino, bytes: Option<Bytes>)
    requires d.Valid() && i !in d.data && tmp != p
    ensures OldOrNew(d, OpenEffect(d, tmp, i), p, bytes) <==> Separate(d, tmp, p) || !Durable(d, p)
  {
    var d' := OpenEffect(d, tmp, i);
    OpenEffectKeeps(d, tmp, i);
    if Separate(d, tmp, p) {
      RewriteGuards(d, d, d', tmp, p, bytes);
      GuardedIsOldOrNew(d, d', p, bytes);
    } else if Durable(d, p) {
      var junk := JunkIsNew(d, p, bytes);
      assert d.Current(tmp) in d'.Bindings(p) && Recovers(d', d.Current(tmp), Some(junk));
      assert CanRecover(d', p, Some(junk));
    } else {
      forall c | CanRecover(d', p, c) ensures CanRecover(d, p, c) {
        if c.Some? {
          AnythingMayShow(d, p, c.value);
        } else {
          assert None in d.Bindings(p) && Recovers(d, None, None);
        }
      }
    }
  }

  /** So where a crash may tear a rename, a write that followed the protocol
      can be undone by the first step of the next one. */
  lemma TornRenameBreaksNextWrite(d: Disk, tmp: Path, p: Path, i: Ino, bytes: Option<Bytes>) returns (d': Disk)
    requires d.Valid() && tmp in d.names && tmp != p && d.Current(tmp) != d.Current(p) && i !in d.data
    ensures AfterCrash(RenameEffect(d, tmp, p), d') && i !in d'.data
    ensures !OldOrNew(d', OpenEffect(d', tmp, i), p, bytes)
  {
    d' := RenameMayLink(d, tmp, p);
    assert d'.Current(p) in d'.Bindings(p);
    TruncationSafeIff(d', tmp, p, i, bytes);
  }

  // ---- Writing, crashing and writing again -------------------------------

  /** One round: some state of a safe write, then a crash or none. */
  ghost predicate Round(d0: Disk, d1: Disk, p: Path, bytes: Option<Bytes>, tmp: Path) {
    exists d: Disk :: RoundThrough(d0, d, d1, p, bytes, tmp)
  }

  ghost predicate RoundThrough(d0: Disk, d: Disk, d1: Disk, p: Path, bytes: Option<Bytes>, tmp: Path) {
    (Separate(d0, tmp, p) ==> SafeState(d0, d, p, bytes, tmp)) && EndsIn(d, d1)
  }

  /** The power stays on, or goes without tearing a rename. */
  ghost predicate EndsIn(d: Disk, d1: Disk) {
    d1 == d || (AfterCrash(d, d1) && KeepsRenames(d, d1))
  }

  lemma RoundIsSafe(d0: Disk, d1: Disk, p: Path, bytes: Option<Bytes>, tmp: Path)
    requires Round(d0, d1, p, bytes, tmp) && Separate(d0, tmp, p) && tmp != p
    ensures SafeState(d0, d1, p, bytes, tmp)
  {
    var d: Disk :| RoundThrough(d0, d, d1, p, bytes, tmp);
    if d1 != d {
      CrashShows(d, d1, p);
      assert d1.Bindings(p) == {d1.Current(p)};
      assert Linked(d1, tmp, p) ==> Linked(d, tmp, p);
      assert d.Current(p) in d.Bindings(p);
    }
  }

  ghost predicate EndsInSome(states: seq<Disk>, d1: Disk) {
    exists k :: 0 <= k < |states| && EndsIn(states[k], d1)
  }

  /** A safe run stopped in its first state or in any it recorded is a round. */
  lemma RunIsRound(
    d0: Disk, trail: seq<Disk>, mark: nat, d1: Disk, p: Path, bytes: Option<Bytes>, tmp: Path)
    requires d0.Valid() && mark <= |trail| && EndsInSome([d0] + trail[mark..], d1)
    requires Separate(d0, tmp, p) ==> SafeSince(d0, trail, mark, p, bytes, tmp)
    ensures Round(d0, d1, p, bytes, tmp)
  {
    var states := [d0] + trail[mark..];
    var k :| 0 <= k < |states| && EndsIn(states[k], d1);
    if k > 0 { assert states[k] == trail[mark + k - 1]; }
    assert RoundThrough(d0, states[k], d1, p, bytes, tmp);
  }

  /** What others do to the disk between two rounds, if they leave `p` alone. */
  ghost predicate Harmless(d: Disk, e: Disk, p: Path, tmp: Path) {
    && (Separate(d, tmp, p) ==> Separate(e, tmp, p))
    && forall c :: CanRecover(e, p, c) ==> CanRecover(d, p, c)
  }

  /** Over any number of rounds, from `es[k]` to `ds[k + 1]` and harmless steps
      in between, the path shows what it could show at first, or the complete
      bytes of one of the writes; never a mixture. */
  lemma {:induction false} RoundsAreSafe(
    ds: seq<Disk>, es: seq<Disk>, p: Path, writes: seq<Option<Bytes>>, tmp: Path)
    requires |ds| == |writes| + 1 && |es| == |writes| && Separate(ds[0], tmp, p) && tmp != p
    requires forall k :: 0 <= k < |writes| ==>
      Harmless(ds[k], es[k], p, tmp) && Round(es[k], ds[k + 1], p, writes[k], tmp)
    ensures Separate(ds[|writes|], tmp, p)
    ensures forall c :: CanRecover(ds[|writes|], p, c) ==>
      CanRecover(ds[0], p, c) || (c.Some? && c in writes)
    decreases |writes|
  {
    if writes != [] {
      var n := |writes| - 1;
      RoundsAreSafe(ds[..n + 1], es[..n], p, writes[..n], tmp);
      RoundIsSafe(es[n], ds[n + 1], p, writes[n], tmp);
      forall c | CanRecover(ds[n + 1], p, c) ensures CanRecover(ds[0], p, c) || (c.Some? && c in writes) {
        if CanRecover(ds[n], p, c) && c in writes[..n] { assert c in writes; }
      }
    }
  }
}
