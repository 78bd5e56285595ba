/** A file system that can lose power. Programs see the volatile state; a crash
    keeps, for each path on its own, any binding since its directory was last
    synced, and keeps a file's bytes only if that file was synced since it was
    last written. */
module CrashFs {
  import opened Wrappers
  import opened Machine

  datatype Path = Path(dir: string, name: string)

  datatype Disk = Disk(
    names: map<Path, Ino>,
    data: map<Ino, Bytes>,
    synced: set<Ino>,
    stale: map<Path, set<Option<Ino>>>)
  {
    function Current(p: Path): Option<Ino> {
      if p in names then Some(names[p]) else None
    }

    function Stale(p: Path): set<Option<Ino>> {
      if p in stale then stale[p] else {}
    }

    /** Every binding a crash may leave at `p`. */
    function Bindings(p: Path): set<Option<Ino>> {
      Stale(p) + {Current(p)}
    }

    /** Every binding, current or stale, is to a file that exists. */
    ghost predicate Valid() {
      forall p, i :: Some(i) in Bindings(p) ==> i in data
    }

    /** Programs reading `p` see exactly `bytes`. */
    ghost predicate Holds(p: Path, bytes: Bytes) {
      p in names && names[p] in data && data[names[p]] == bytes
    }

    function Bind(p: Path, b: Option<Ino>): Disk {
      this.(names := if b.Some? then names[p := b.value] else names - {p},
            stale := stale[p := Bindings(p)])
    }
  }

  /** After a crash the path `p` may hold exactly `content`. */
  ghost predicate CanRecover(d: Disk, p: Path, content: Option<Bytes>) {
    exists b :: b in d.Bindings(p) && Recovers(d, b, content)
  }

  ghost predicate Recovers(d: Disk, b: Option<Ino>, content: Option<Bytes>) {
    if b.None? then content.None?
    else content.Some? && (b.value in d.synced ==> b.value in d.data && d.data[b.value] == content.value)
  }

  /** What programs read at `p`. */
  function BytesAt(d: Disk, p: Path): Option<Bytes> {
    if p in d.names && d.names[p] in d.data then Some(d.data[d.names[p]]) else None
  }

  /** One file under two names. */
  predicate Linked(d: Disk, p: Path, q: Path) {
    p in d.names && q in d.names && d.names[p] == d.names[q]
  }

  // ---- System calls that succeed ----------------------------------------

  function FsyncEffect(d: Disk, p: Path): Disk {
    if p in d.names then d.(synced := d.synced + {d.names[p]}) else d
  }

  /** Two names of one file are left alone, as POSIX has it. */
  function RenameEffect(d: Disk, from: Path, to: Path): Disk
    requires from in d.names
  {
    if d.Current(from) == d.Current(to) then d
    else d.Bind(to, d.Current(from)).Bind(from, None)
  }

  function UnlinkEffect(d: Disk, p: Path): Disk {
    d.Bind(p, None)
  }

  /** Open for writing, creating or truncating. `i` is the inode a new file gets. */
  function OpenEffect(d: Disk, p: Path, i: Ino): Disk {
    if p in d.names then d.(data := d.data[d.names[p] := []], synced := d.synced - {d.names[p]})
    else d.(data := d.data[i := []], synced := d.synced - {i}).Bind(p, Some(i))
  }

  function AppendEffect(d: Disk, p: Path, chunk: Bytes): Disk
    requires p in d.names && d.names[p] in d.data
  {
    var i := d.names[p];
    d.(data := d.data[i := d.data[i] + chunk], synced := d.synced - {i})
  }

  function SyncDirEffect(d: Disk, dir: string): Disk {
    d.(stale := map p | p in d.stale && p.dir != dir :: d.stale[p])
  }

  lemma BindChanges(d: Disk, p: Path, b: Option<Ino>)
    ensures var d' := d.Bind(p, b);
            && d'.Current(p) == b && d'.Stale(p) == d.Bindings(p)
            && forall q :: q != p ==> d'.Current(q) == d.Current(q) && d'.Stale(q) == d.Stale(q)
  {}

  lemma OpenEffectKeeps(d: Disk, p: Path, i: Ino)
    requires d.Valid() && i !in d.data
    ensures var d' := OpenEffect(d, p, i);
            && d'.Valid() && SameBut(d, d', p) && d'.Holds(p, [])
            && d'.names[p] == if p in d.names then d.names[p] else i
  {
    var d' := OpenEffect(d, p, i);
    BindChanges(d.(data := d.data[i := []], synced := d.synced - {i}), p, Some(i));
    assert Some(i) !in d.Bindings(p);
    forall q, j | Some(j) in d'.Bindings(q) ensures j in d'.data {
      assert Some(j) in d.Bindings(q) || j == i;
    }
  }

  lemma AppendEffectKeeps(d: Disk, p: Path, chunk: Bytes)
    requires d.Valid() && p in d.names && d.names[p] in d.data
    ensures AppendEffect(d, p, chunk).Valid() && SameBut(d, AppendEffect(d, p, chunk), p)
  {
    var d' := AppendEffect(d, p, chunk);
    forall q ensures d'.Bindings(q) == d.Bindings(q) {}
  }

  lemma BindKeepsValid(d: Disk, p: Path, b: Option<Ino>)
    requires d.Valid() && (b.Some? ==> b.value in d.data)
    ensures d.Bind(p, b).Valid()
  {
    BindChanges(d, p, b);
    forall q ensures d.Bind(p, b).Bindings(q) <= d.Bindings(q) + {b} {}
  }

  lemma FsyncKeepsValid(d: Disk, p: Path)
    requires d.Valid()
    ensures FsyncEffect(d, p).Valid()
  {
    forall q ensures FsyncEffect(d, p).Bindings(q) == d.Bindings(q) {}
  }

  lemma RenameKeepsValid(d: Disk, from: Path, to: Path)
    requires d.Valid() && from in d.names
    ensures RenameEffect(d, from, to).Valid()
  {
    assert d.Current(from) in d.Bindings(from);
    BindKeepsValid(d, to, d.Current(from));
    BindKeepsValid(d.Bind(to, d.Current(from)), from, None);
  }

  lemma SyncDirKeepsValid(d: Disk, dir: string)
    requires d.Valid()
    ensures SyncDirEffect(d, dir).Valid()
  {
    forall q ensures SyncDirEffect(d, dir).Bindings(q) <= d.Bindings(q) {}
  }

  // ---- What keeps a path recoverable ------------------------------------

  /** `b` still means in `d` what it meant in `d0`, or something narrower. */
  ghost predicate Intact(d0: Disk, d: Disk, b: Option<Ino>) {
    b.Some? && b.value in d0.synced ==>
      b.value in d.synced && b.value in d0.data && b.value in d.data && d.data[b.value] == d0.data[b.value]
  }

  /** Every binding a crash may leave at `p` was already possible in `d0`, or
      is a synced file holding exactly `bytes`. */
  ghost predicate Guarded(d0: Disk, d: Disk, p: Path, bytes: Option<Bytes>) {
    forall b :: b in d.Bindings(p) ==>
      || (b in d0.Bindings(p) && Intact(d0, d, b))
      || (b.Some? && b.value in d.synced && b.value in d.data && bytes == Some(d.data[b.value]))
  }

  /** Old or new, never a mixture: whatever a crash in `d` leaves at `p` is what
      a crash in `d0` could have left, or the complete new bytes. */
  ghost predicate OldOrNew(d0: Disk, d: Disk, p: Path, bytes: Option<Bytes>) {
    forall content :: CanRecover(d, p, content) ==>
      CanRecover(d0, p, content) || (bytes.Some? && content == bytes)
  }

  lemma GuardedIsOldOrNew(d0: Disk, d: Disk, p: Path, bytes: Option<Bytes>)
    requires Guarded(d0, d, p, bytes)
    ensures OldOrNew(d0, d, p, bytes)
  {
    forall content | CanRecover(d, p, content)
      ensures CanRecover(d0, p, content) || (bytes.Some? && content == bytes)
    {
      var b :| b in d.Bindings(p) && Recovers(d, b, content);
      if b in d0.Bindings(p) && Intact(d0, d, b) {
        assert Recovers(d0, b, content);
      }
    }
  }

  /** A synced directory over a synced file leaves a crash no choice. */
  lemma SettledIsExact(d: Disk, p: Path)
    requires p in d.names && d.names[p] in d.data && d.names[p] in d.synced && d.Stale(p) == {}
    ensures forall content :: CanRecover(d, p, content) <==> content == Some(d.data[d.names[p]])
  {
    var b := d.Current(p);
    forall content ensures CanRecover(d, p, content) <==> Recovers(d, b, content) {
      if Recovers(d, b, content) { assert b in d.Bindings(p); }
    }
  }

  /** The temporary is not a second name of anything `p` may turn out to be. */
  ghost predicate Separate(d: Disk, tmp: Path, p: Path) {
    tmp in d.names ==> d.Current(tmp) !in d.Bindings(p)
  }

  /** A crash here leaves old or new, and the temporary can be used again. */
  ghost predicate SafeState(d0: Disk, d: Disk, p: Path, bytes: Option<Bytes>, tmp: Path) {
    d.Valid() && OldOrNew(d0, d, p, bytes) && Separate(d, tmp, p)
  }

  /** Every state recorded since `mark` is safe. */
  ghost predicate SafeSince(d0: Disk, trail: seq<Disk>, mark: nat, p: Path, bytes: Option<Bytes>, tmp: Path) {
    forall k :: mark <= k < |trail| ==> SafeState(d0, trail[k], p, bytes, tmp)
  }

  lemma OneMoreState(d0: Disk, trail: seq<Disk>, d: Disk, mark: nat, p: Path, bytes: Option<Bytes>, tmp: Path)
    requires SafeSince(d0, trail, mark, p, bytes, tmp)
    requires d.Valid() && Guarded(d0, d, p, bytes) && Separate(d, tmp, p)
    ensures SafeSince(d0, trail + [d], mark, p, bytes, tmp)
  {
    GuardedIsOldOrNew(d0, d, p, bytes);
  }

  // ---- How each step treats a guarded path ------------------------------

  /** `d'` differs from `d` at most in the path `p` and the file it names. */
  ghost predicate SameBut(d: Disk, d': Disk, p: Path) {
    && (forall q :: q != p ==> d'.Current(q) == d.Current(q) && d'.Stale(q) == d.Stale(q))
    && (forall i :: i in d.data && Some(i) != d.Current(p) ==>
          i in d'.data && d'.data[i] == d.data[i] && (i in d.synced <==> i in d'.synced))
  }

  lemma SameButGuards(d0: Disk, d: Disk, d': Disk, p: Path, q: Path, bytes: Option<Bytes>)
    requires d.Valid() && SameBut(d, d', p) && p != q && Separate(d, p, q)
    requires Guarded(d0, d, q, bytes)
    ensures Guarded(d0, d', q, bytes)
  {
    forall b | b in d'.Bindings(q) && b.Some? ensures b.value in d.data {
      assert b in d.Bindings(q);
    }
  }

  /** `d'` comes from `d` by writing under `p`, through its name or a new file. */
  ghost predicate Rewritten(d: Disk, d': Disk, p: Path) {
    && d'.Valid() && SameBut(d, d', p)
    && (p in d'.names ==> d'.Current(p) == d.Current(p) || d'.names[p] !in d.data)
  }

  lemma OpenRewrites(d: Disk, p: Path, i: Ino)
    requires d.Valid() && i !in d.data
    ensures var d' := OpenEffect(d, p, i); Rewritten(d, d', p) && d'.Holds(p, [])
  {
    OpenEffectKeeps(d, p, i);
  }

  lemma AppendRewrites(d0: Disk, d: Disk, p: Path, written: Bytes, chunk: Bytes)
    requires d.Valid() && Rewritten(d0, d, p) && d.Holds(p, written)
    ensures var d' := AppendEffect(d, p, chunk);
      Rewritten(d0, d', p) && d'.Holds(p, written + chunk)
  {
    AppendEffectKeeps(d, p, chunk);
  }

  /** Writing under a separate name leaves a guarded path guarded. */
  lemma RewriteGuards(d0: Disk, d: Disk, d': Disk, tmp: Path, q: Path, bytes: Option<Bytes>)
    requires d.Valid() && Rewritten(d, d', tmp) && tmp != q && Separate(d, tmp, q)
    requires Guarded(d0, d, q, bytes)
    ensures Guarded(d0, d', q, bytes) && Separate(d', tmp, q)
  {
    SameButGuards(d0, d, d', tmp, q, bytes);
    assert d'.Bindings(q) == d.Bindings(q);
    assert forall i :: Some(i) in d.Bindings(q) ==> i in d.data;
  }

  /** All the states of such writing, at once. */
  lemma RewritesAreSafe(
    d0: Disk, d: Disk, trail: seq<Disk>, trail': seq<Disk>, mark: nat, p: Path, bytes: Option<Bytes>, tmp: Path)
    requires d.Valid() && tmp != p && Separate(d, tmp, p) && Guarded(d0, d, p, bytes)
    requires trail <= trail' && SafeSince(d0, trail, mark, p, bytes, tmp)
    requires forall k :: |trail| <= k < |trail'| ==> Rewritten(d, trail'[k], tmp)
    ensures SafeSince(d0, trail', mark, p, bytes, tmp)
  {
    forall k | mark <= k < |trail'| ensures SafeState(d0, trail'[k], p, bytes, tmp) {
      if k < |trail| {
        assert trail'[k] == trail[k];
      } else {
        RewriteGuards(d0, d, trail'[k], tmp, p, bytes);
        GuardedIsOldOrNew(d0, trail'[k], p, bytes);
      }
    }
  }

  lemma FsyncGuards(d0: Disk, d: Disk, p: Path, q: Path, bytes: Option<Bytes>)
    requires Guarded(d0, d, q, bytes)
    ensures Guarded(d0, FsyncEffect(d, p), q, bytes)
  {
    var d' := FsyncEffect(d, p);
    assert d'.Bindings(q) == d.Bindings(q);
  }

  lemma UnlinkGuards(d0: Disk, d: Disk, p: Path, q: Path, bytes: Option<Bytes>)
    requires Guarded(d0, d, q, bytes) && p != q
    ensures Guarded(d0, UnlinkEffect(d, p), q, bytes)
  {
    assert UnlinkEffect(d, p).Bindings(q) == d.Bindings(q);
  }

  /** Renaming onto the guarded path is safe once the file is synced. */
  lemma RenameGuards(d0: Disk, d: Disk, from: Path, to: Path, bytes: Option<Bytes>)
    requires d.Valid() && Guarded(d0, d, to, bytes) && from in d.names && from != to
    requires bytes.Some? && d.Holds(from, bytes.value) && d.names[from] in d.synced
    ensures Guarded(d0, RenameEffect(d, from, to), to, bytes)
  {
    var d' := RenameEffect(d, from, to);
    BindChanges(d, to, d.Current(from));
    BindChanges(d.Bind(to, d.Current(from)), from, None);
    assert d'.Bindings(to) <= d.Bindings(to) + {d.Current(from)};
  }

  lemma SyncDirGuards(d0: Disk, d: Disk, dir: string, q: Path, bytes: Option<Bytes>)
    requires Guarded(d0, d, q, bytes)
    ensures Guarded(d0, SyncDirEffect(d, dir), q, bytes)
  {
    assert SyncDirEffect(d, dir).Bindings(q) <= d.Bindings(q);
  }
}
