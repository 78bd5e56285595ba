/** What redacting a log stream means: runs of writes, flushes and password
    changes, set against the one-shot replacement of the whole input. */
module Redaction {
  import opened Wrappers
  import opened Machine
  import opened Search
  import opened Streaming

  const STAR: Byte := 42
  const MASK: Bytes := [STAR, STAR, STAR, STAR, STAR, STAR, STAR, STAR]

  /** The one-shot reference: mask every leftmost non-overlapping occurrence. */
  function Redact(pw: Bytes, s: Bytes): Bytes
    requires pw != []
  {
    Replace(pw, MASK, s)
  }

  // ---- Whole runs --------------------------------------------------------

  datatype Event = Write(buf: Bytes) | Flush | SetPassword(secret: Option<Bytes>)

  /** Observable state of a writer: the shared secret, the bytes held back and
      everything sent to the inner writer so far. */
  datatype WriterState = WriterState(secret: Option<Bytes>, pending: Bytes, inner: Bytes)

  predicate Redacting(secret: Option<Bytes>) {
    secret.Some? && secret.value != []
  }

  function Step(w: WriterState, e: Event): WriterState {
    match e
    case Write(buf) =>
      if Redacting(w.secret) then
        var d := Drain(w.secret.value, MASK, w.pending + buf, |w.secret.value| - 1);
        w.(pending := d.held, inner := w.inner + d.output)
      else w.(pending := [], inner := w.inner + w.pending + buf)
    case Flush =>
      if Redacting(w.secret) then
        w.(pending := [], inner := w.inner + Drain(w.secret.value, MASK, w.pending, 0).output)
      else w.(pending := [], inner := w.inner + w.pending)
    case SetPassword(secret) => w.(secret := secret)
  }

  function Exec(w: WriterState, es: seq<Event>): WriterState
    decreases |es|
  {
    if es == [] then w else Exec(Step(w, es[0]), es[1..])
  }

  lemma {:induction false} ExecAppend(w: WriterState, a: seq<Event>, b: seq<Event>)
    ensures Exec(w, a + b) == Exec(Exec(w, a), b)
    decreases |a|
  {
    if a == [] {
      assert a + b == b;
    } else {
      assert (a + b)[1..] == a[1..] + b;
      ExecAppend(Step(w, a[0]), a[1..], b);
    }
  }

  predicate NoPasswordChange(es: seq<Event>) {
    forall i :: 0 <= i < |es| ==> !es[i].SetPassword?
  }

  predicate OnlyWrites(es: seq<Event>) {
    forall i :: 0 <= i < |es| ==> es[i].Write?
  }

  /** All the bytes written, in order. */
  function Written(es: seq<Event>): Bytes
    decreases |es|
  {
    if es == [] then []
    else (if es[0].Write? then es[0].buf else []) + Written(es[1..])
  }

  /** The reference for a run: cut the input at the flushes, redact each piece
      as one whole. `open` is the part of the current piece already written. */
  function OneShot(pw: Bytes, open: Bytes, es: seq<Event>): Bytes
    requires pw != []
    decreases |es|
  {
    if es == [] then Redact(pw, open)
    else match es[0]
      case Write(buf) => OneShot(pw, open + buf, es[1..])
      case Flush => Redact(pw, open) + OneShot(pw, [], es[1..])
      case SetPassword(_) => OneShot(pw, open, es[1..])
  }

  /** Draining early is invisible to the reference: releasing what `Drain` lets
      go of and carrying on with the held tail changes nothing downstream. */
  lemma {:induction false} OneShotResumes(pw: Bytes, p: Bytes, x: Bytes, es: seq<Event>)
    requires pw != []
    ensures var d := Drain(pw, MASK, p, |pw| - 1);
            OneShot(pw, p + x, es) == d.output + OneShot(pw, d.held + x, es)
    decreases |es|
  {
    var d := Drain(pw, MASK, p, |pw| - 1);
    if es == [] {
      DrainRefines(pw, MASK, p, x);
    } else if es[0].Flush? {
      DrainRefines(pw, MASK, p, x);
      Assoc(d.output, Redact(pw, d.held + x), OneShot(pw, [], es[1..]));
    } else if es[0].Write? {
      Assoc(p, x, es[0].buf);
      Assoc(d.held, x, es[0].buf);
      OneShotResumes(pw, p, x + es[0].buf, es[1..]);
    } else {
      OneShotResumes(pw, p, x, es[1..]);
    }
  }

  /** One event moves bytes from the reference's future into the output. */
  lemma StepConserves(pw: Bytes, w: WriterState, e: Event, rest: seq<Event>)
    requires pw != [] && w.secret == Some(pw) && !e.SetPassword?
    ensures var w' := Step(w, e);
            && w'.secret == Some(pw)
            && w.inner + OneShot(pw, w.pending, [e] + rest) == w'.inner + OneShot(pw, w'.pending, rest)
  {
    assert ([e] + rest)[1..] == rest;
    if e.Write? {
      var p := w.pending + e.buf;
      var d := Drain(pw, MASK, p, |pw| - 1);
      OneShotResumes(pw, p, [], rest);
      assert p + [] == p && d.held + [] == d.held;
      Assoc(w.inner, d.output, OneShot(pw, d.held, rest));
    } else {
      DrainAll(pw, MASK, w.pending);
      Assoc(w.inner, Redact(pw, w.pending), OneShot(pw, [], rest));
    }
  }

  /** Streaming refines the one-shot replacement: for every chunking and every
      placement of flushes, what reaches the inner writer by a closing flush is
      the concatenation of the redacted flush-delimited pieces, the first of
      which begins with the bytes already held back. */
  lemma {:induction false} StreamingRefinesOneShot(pw: Bytes, w: WriterState, es: seq<Event>)
    requires pw != [] && w.secret == Some(pw) && NoPasswordChange(es)
    ensures Exec(w, es + [Flush]) == WriterState(Some(pw), [], w.inner + OneShot(pw, w.pending, es))
    decreases |es|
  {
    if es == [] {
      DrainAll(pw, MASK, w.pending);
      assert Exec(w, [] + [Flush]) == Exec(Step(w, Flush), []);
    } else {
      assert (es + [Flush])[1..] == es[1..] + [Flush];
      assert es == [es[0]] + es[1..];
      StepConserves(pw, w, es[0], es[1..]);
      StreamingRefinesOneShot(pw, Step(w, es[0]), es[1..]);
    }
  }

  /** The whole life of a writer whose secret is filled in once: bytes written
      before the secret is known pass through raw, everything after it comes
      out as the one-shot redaction. */
  lemma RawThenRedacted(pw: Bytes, before: seq<Event>, after: seq<Event>)
    requires pw != [] && NoPasswordChange(before) && NoPasswordChange(after)
    ensures Exec(WriterState(None, [], []), before + ([SetPassword(Some(pw))] + (after + [Flush]))).inner
         == Written(before) + OneShot(pw, [], after)
  {
    var w0 := WriterState(None, [], []);
    var tail := [SetPassword(Some(pw))] + (after + [Flush]);
    ExecAppend(w0, before, tail);
    RawPassesThrough(w0, before);
    var w1 := WriterState(Some(pw), [], Written(before));
    assert tail[1..] == after + [Flush];
    assert Step(Exec(w0, before), tail[0]) == w1;
    StreamingRefinesOneShot(pw, w1, after);
  }

  lemma {:induction false} RawPassesThrough(w: WriterState, es: seq<Event>)
    requires !Redacting(w.secret) && w.pending == [] && NoPasswordChange(es)
    ensures Exec(w, es) == w.(inner := w.inner + Written(es))
    decreases |es|
  {
    if es != [] {
      RawPassesThrough(Step(w, es[0]), es[1..]);
    }
  }

  lemma {:induction false} OneShotOfWrites(pw: Bytes, open: Bytes, es: seq<Event>)
    requires pw != [] && OnlyWrites(es)
    ensures OneShot(pw, open, es) == Redact(pw, open + Written(es))
    decreases |es|
  {
    if es == [] {
      assert open + [] == open;
    } else {
      OneShotOfWrites(pw, open + es[0].buf, es[1..]);
      assert open + es[0].buf + Written(es[1..]) == open + Written(es);
    }
  }

  /** Chunking never matters: two ways of cutting the same bytes into writes
      give the same output, namely the redaction of the whole. */
  lemma ChunkingNeverMatters(pw: Bytes, a: seq<Event>, b: seq<Event>)
    requires pw != [] && OnlyWrites(a) && OnlyWrites(b) && Written(a) == Written(b)
    ensures var w := WriterState(Some(pw), [], []);
            Exec(w, a + [Flush]) == Exec(w, b + [Flush])
            && Exec(w, a + [Flush]).inner == Redact(pw, Written(a))
  {
    var w := WriterState(Some(pw), [], []);
    forall es | es in {a, b}
      ensures Exec(w, es + [Flush]) == WriterState(Some(pw), [], Redact(pw, Written(es)))
    {
      StreamingRefinesOneShot(pw, w, es);
      OneShotOfWrites(pw, [], es);
      assert [] + Written(es) == Written(es);
    }
  }

  lemma WriteResumes(pw: Bytes, w: WriterState, buf: Bytes, y: Bytes)
    requires pw != [] && w.secret == Some(pw)
    ensures var w' := Step(w, Write(buf));
            w.inner + Redact(pw, w.pending + (buf + y)) == w'.inner + Redact(pw, w'.pending + y)
  {
    var p := w.pending + buf;
    var d := Drain(pw, MASK, p, |pw| - 1);
    DrainRefines(pw, MASK, p, y);
    Assoc(w.pending, buf, y);
    Assoc(w.inner, d.output, Redact(pw, d.held + y));
  }

  /** After any run of writes and before any flush: whatever bytes `x` follow,
      the output so far continued with the redaction of the held tail is the
      redaction of the whole input. */
  lemma {:induction false} WritesAreResumable(pw: Bytes, w: WriterState, es: seq<Event>, x: Bytes)
    requires pw != [] && w.secret == Some(pw) && OnlyWrites(es)
    ensures var w' := Exec(w, es);
            w.inner + Redact(pw, w.pending + (Written(es) + x)) == w'.inner + Redact(pw, w'.pending + x)
    decreases |es|
  {
    if es == [] {
      assert Written(es) + x == x;
    } else {
      var y := Written(es[1..]) + x;
      WriteResumes(pw, w, es[0].buf, y);
      WritesAreResumable(pw, Step(w, es[0]), es[1..], x);
      Assoc(es[0].buf, Written(es[1..]), x);
    }
  }

  /** After every write of an n-byte password's run at most 2n - 2 bytes are
      held back, even when a complete match straddles the cutoff. */
  lemma {:induction false} HoldBackBounded(pw: Bytes, w: WriterState, es: seq<Event>)
    requires pw != [] && w.secret == Some(pw) && OnlyWrites(es)
    requires |w.pending| <= 2 * |pw| - 2
    ensures |Exec(w, es).pending| <= 2 * |pw| - 2
    decreases |es|
  {
    if es != [] {
      HeldBack(pw, MASK, w.pending + es[0].buf);
      HoldBackBounded(pw, Step(w, es[0]), es[1..]);
    }
  }

  // ---- Conservation of length -------------------------------------------

  /** How many masks one event sends to the inner writer. */
  function MasksSent(w: WriterState, e: Event): nat {
    if !Redacting(w.secret) || e.SetPassword? then 0
    else if e.Write? then Masked(w.secret.value, w.pending + e.buf, |w.secret.value| - 1)
    else Masked(w.secret.value, w.pending, 0)
  }

  /** How many a whole run sends. */
  function AllMasksSent(w: WriterState, es: seq<Event>): nat
    decreases |es|
  {
    if es == [] then 0 else MasksSent(w, es[0]) + AllMasksSent(Step(w, es[0]), es[1..])
  }

  lemma StepLength(pw: Bytes, w: WriterState, e: Event)
    requires pw != [] && w.secret == Some(pw) && !e.SetPassword?
    ensures var w', k := Step(w, e), MasksSent(w, e);
            |w'.inner| + |w'.pending| + k * |pw| ==
              |w.inner| + |w.pending| + (if e.Write? then |e.buf| else 0) + k * |MASK|
  {
    if e.Write? {
      DrainedLength(pw, MASK, w.pending + e.buf, |pw| - 1);
    } else {
      DrainedLength(pw, MASK, w.pending, 0);
      DrainAll(pw, MASK, w.pending);
    }
  }

  lemma Distribute(a: nat, b: nat, n: nat)
    ensures (a + b) * n == a * n + b * n
  {}

  /** Over any run of writes and flushes nothing but matches is lost and
      nothing but masks is added, one for one. */
  lemma {:induction false} LengthConserved(pw: Bytes, w: WriterState, es: seq<Event>)
    requires pw != [] && w.secret == Some(pw) && NoPasswordChange(es)
    ensures var w', k := Exec(w, es), AllMasksSent(w, es);
            |w'.inner| + |w'.pending| + k * |pw| == |w.inner| + |w.pending| + |Written(es)| + k * |MASK|
    decreases |es|
  {
    if es != [] {
      var now, later := MasksSent(w, es[0]), AllMasksSent(Step(w, es[0]), es[1..]);
      StepLength(pw, w, es[0]);
      LengthConserved(pw, Step(w, es[0]), es[1..]);
      Distribute(now, later, |pw|);
      Distribute(now, later, |MASK|);
    }
  }

  lemma WriteCounts(pw: Bytes, w: WriterState, buf: Bytes, y: Bytes)
    requires pw != [] && w.secret == Some(pw)
    ensures var w' := Step(w, Write(buf));
            Count(pw, w.pending + (buf + y)) == MasksSent(w, Write(buf)) + Count(pw, w'.pending + y)
  {
    MaskedCounts(pw, MASK, w.pending + buf, y);
    Assoc(w.pending, buf, y);
  }

  /** Between flushes the masks sent are the matches of the whole input, less
      those of what is still to be released. */
  lemma {:induction false} MasksAreMatches(pw: Bytes, w: WriterState, es: seq<Event>, x: Bytes)
    requires pw != [] && w.secret == Some(pw) && OnlyWrites(es)
    ensures Count(pw, w.pending + (Written(es) + x)) == AllMasksSent(w, es) + Count(pw, Exec(w, es).pending + x)
    decreases |es|
  {
    if es == [] {
      assert Written(es) + x == x;
    } else {
      WriteCounts(pw, w, es[0].buf, Written(es[1..]) + x);
      MasksAreMatches(pw, Step(w, es[0]), es[1..], x);
      Assoc(es[0].buf, Written(es[1..]), x);
    }
  }

  lemma EmittedIsPrefix(pw: Bytes, es: seq<Event>)
    requires pw != [] && OnlyWrites(es)
    ensures var w := Exec(WriterState(Some(pw), [], []), es);
            && Redact(pw, Written(es)) == w.inner + Redact(pw, w.pending)
            && |w.pending| <= 2 * |pw| - 2
  {
    var w0 := WriterState(Some(pw), [], []);
    WritesAreResumable(pw, w0, es, []);
    HoldBackBounded(pw, w0, es);
    var w := Exec(w0, es);
    assert w0.pending + (Written(es) + []) == Written(es) && w.pending + [] == w.pending;
  }

  /** The emitted length is the consumed input length with each n-byte match
      traded for an 8-byte mask, for the `k` masks sent so far: the matches of
      the whole input but for those still held back, at most 2n - 2 bytes. */
  lemma EmittedLength(pw: Bytes, es: seq<Event>)
    requires pw != [] && OnlyWrites(es)
    ensures var w0 := WriterState(Some(pw), [], []);
            var w, k := Exec(w0, es), AllMasksSent(w0, es);
            && |w.inner| == |Written(es)| - |w.pending| - k * |pw| + 8 * k
            && k == Count(pw, Written(es)) - Count(pw, w.pending)
            && |w.pending| <= 2 * |pw| - 2
  {
    var w0 := WriterState(Some(pw), [], []);
    LengthConserved(pw, w0, es);
    HoldBackBounded(pw, w0, es);
    MasksAreMatches(pw, w0, es, []);
    Units(Written(es));
    Units(Exec(w0, es).pending);
  }

  /** The mask is the eight bytes of `********`. */
  lemma MaskIsEightStars()
    ensures |MASK| == 8 && forall i :: 0 <= i < |MASK| ==> MASK[i] as int == '*' as int
  {}
}
