/** What flushing in the middle of a run costs: the password can be cut in two,
    and only there. */
module FlushSafety {
  import opened Wrappers
  import opened Machine
  import opened Search
  import opened Streaming
  import opened Redaction
  import opened MaskSafety

  function Start(pw: Bytes): WriterState {
    WriterState(Some(pw), [], [])
  }

  function Sent(pw: Bytes, es: seq<Event>): Bytes {
    Exec(Start(pw), es).inner
  }

  /** A flush between its bytes lets any password of two or more through. */
  lemma MidFlushLeaks(pw: Bytes)
    requires |pw| >= 2
    ensures Sent(pw, [Write(pw[..1]), Flush, Write(pw[1..]), Flush]) == pw
  {
    var a, b := [Write(pw[..1])], [Write(pw[1..])];
    PieceSent(pw, a);
    PieceSent(pw, b);
    Resume(pw, a + [Flush], b + [Flush]);
    assert a + [Flush] + (b + [Flush]) == [Write(pw[..1]), Flush, Write(pw[1..]), Flush];
    assert Written(a) == pw[..1] && Written(b) == pw[1..];
    assert pw == pw[..1] + pw[1..];
  }

  /** One piece: writes, then a flush. */
  lemma PieceSent(pw: Bytes, es: seq<Event>)
    requires pw != [] && OnlyWrites(es)
    ensures Exec(Start(pw), es + [Flush]) == WriterState(Some(pw), [], Redact(pw, Written(es)))
  {
    StreamingRefinesOneShot(pw, Start(pw), es);
    OneShotOfWrites(pw, [], es);
    Units(Written(es));
  }

  /** Bytes already sent never influence a run. */
  lemma {:induction false} SentIsAppended(a: Bytes, w: WriterState, es: seq<Event>)
    ensures Exec(w.(inner := a + w.inner), es) == Exec(w, es).(inner := a + Exec(w, es).inner)
    decreases |es|
  {
    if es != [] {
      var w' := Step(w, es[0]);
      StepAppends(a, w, es[0]);
      SentIsAppended(a, w', es[1..]);
    }
  }

  lemma StepAppends(a: Bytes, w: WriterState, e: Event)
    ensures Step(w.(inner := a + w.inner), e) == Step(w, e).(inner := a + Step(w, e).inner)
  {
    if Redacting(w.secret) && e.Write? {
      Assoc(a, w.inner, Drain(w.secret.value, MASK, w.pending + e.buf, |w.secret.value| - 1).output);
    } else if Redacting(w.secret) && e.Flush? {
      Assoc(a, w.inner, Drain(w.secret.value, MASK, w.pending, 0).output);
    } else if e.Write? {
      Assoc(a, w.inner, w.pending);
      Assoc(a, w.inner + w.pending, e.buf);
    } else if e.Flush? {
      Assoc(a, w.inner, w.pending);
    }
  }

  lemma {:induction false} SecretKept(w: WriterState, es: seq<Event>)
    requires NoPasswordChange(es)
    ensures Exec(w, es).secret == w.secret
    decreases |es|
  {
    if es != [] { SecretKept(Step(w, es[0]), es[1..]); }
  }

  /** Nothing is held back across a flush, so a run starts afresh there. */
  lemma Resume(pw: Bytes, es: seq<Event>, rest: seq<Event>)
    requires pw != [] && NoPasswordChange(es) && (es != [] ==> es[|es| - 1].Flush?)
    ensures Sent(pw, es + rest) == Sent(pw, es) + Sent(pw, rest)
  {
    var w := Exec(Start(pw), es);
    SecretKept(Start(pw), es);
    if es != [] {
      var n := |es| - 1;
      assert es == es[..n] + [es[n]];
      ExecAppend(Start(pw), es[..n], [es[n]]);
      assert w == Step(Exec(Start(pw), es[..n]), es[n]);
    }
    ExecAppend(Start(pw), es, rest);
    Units(w.inner);
    SentIsAppended(w.inner, Start(pw), rest);
  }

  /** How many events there are up to the last flush, that one included. */
  function LastFlush(es: seq<Event>): (k: nat)
    ensures k <= |es| && (k > 0 ==> es[k - 1].Flush?)
    ensures forall i :: k <= i < |es| ==> !es[i].Flush?
  {
    if es == [] then 0
    else if es[|es| - 1].Flush? then |es|
    else LastFlush(es[..|es| - 1])
  }

  lemma LastPieceHidden(pw: Bytes, es: seq<Event>)
    requires pw != [] && SafeToMask(pw) && OnlyWrites(es)
    ensures !Occurs(pw, Sent(pw, es)) && !Occurs(pw, Sent(pw, es + [Flush]))
  {
    EmittedNeverShowsPassword(pw, es);
    PieceSent(pw, es);
    forall i: nat ensures !MatchAt(pw, Redact(pw, Written(es)), i) {
      SafeIsHidden(pw, MASK, Written(es), i);
    }
  }

  /** Where the last piece of a run begins. */
  lemma LastPiece(pw: Bytes, es: seq<Event>) returns (k: nat)
    requires pw != [] && SafeToMask(pw) && NoPasswordChange(es) && es != []
    ensures k < |es| && (k > 0 ==> es[k - 1].Flush?) && !Occurs(pw, Sent(pw, es[k..]))
  {
    var n := |es| - 1;
    k := LastFlush(es[..n]);
    assert k > 0 ==> es[k - 1] == es[..n][k - 1];
    var writes := es[k..n];
    forall i | 0 <= i < |writes| ensures writes[i].Write? { assert es[..n][k + i] == es[k + i] == writes[i]; }
    assert es[k..] == writes + [es[n]];
    if es[n].Flush? { LastPieceHidden(pw, writes); } else { LastPieceHidden(pw, es[k..]); }
  }

  ghost predicate SpansFlush(pw: Bytes, es: seq<Event>, j: nat) {
    exists k :: 1 <= k <= |es| && es[k - 1].Flush? && j < |Sent(pw, es[..k])| < j + |pw|
  }

  /** Wherever a safe password shows in the output of a run, a flush took place
      between its first byte and its last. */
  lemma {:induction false} OccurrenceSpansFlush(pw: Bytes, es: seq<Event>, j: nat)
    requires pw != [] && SafeToMask(pw) && NoPasswordChange(es) && MatchAt(pw, Sent(pw, es), j)
    ensures SpansFlush(pw, es, j)
    decreases |es|
  {
    if es != [] {
      var k := LastPiece(pw, es);
      var front, tail := es[..k], es[k..];
      assert es == front + tail;
      assert front != [] ==> front[|front| - 1] == es[k - 1];
      Resume(pw, front, tail);
      var u, v := Sent(pw, front), Sent(pw, tail);
      if j + |pw| <= |u| {
        MatchInPrefix(pw, u, v, j);
        OccurrenceSpansFlush(pw, front, j);
        SpansInPrefix(pw, es, k, j);
      } else if j >= |u| {
        MatchShift(pw, u, v, j - |u|);
      }
    }
  }

  lemma SpansInPrefix(pw: Bytes, es: seq<Event>, k: nat, j: nat)
    requires k <= |es| && SpansFlush(pw, es[..k], j)
    ensures SpansFlush(pw, es, j)
  {
    var i :| 1 <= i <= k && es[..k][i - 1].Flush? && j < |Sent(pw, es[..k][..i])| < j + |pw|;
    assert es[..i] == es[..k][..i];
  }

  ghost predicate HiddenOnEveryRun(pw: Bytes) {
    forall es :: NoPasswordChange(es) ==> !Occurs(pw, Sent(pw, es))
  }

  /** A password is hidden on every run of writes and flushes exactly when it
      is safe to mask and a single byte long. */
  lemma HiddenOnEveryRunIff(pw: Bytes)
    requires pw != []
    ensures HiddenOnEveryRun(pw) <==> SafeToMask(pw) && |pw| == 1
  {
    if !SafeToMask(pw) {
      var es := [Write(Counterexample(pw))];
      UnsafeLeaks(pw);
      PieceSent(pw, es);
      assert Written(es) == Counterexample(pw);
      assert NoPasswordChange(es + [Flush]) && Occurs(pw, Sent(pw, es + [Flush]));
    } else if |pw| >= 2 {
      var es := [Write(pw[..1]), Flush, Write(pw[1..]), Flush];
      MidFlushLeaks(pw);
      assert MatchAt(pw, pw, 0);
      assert NoPasswordChange(es) && Occurs(pw, Sent(pw, es));
    } else {
      forall es, j: nat | NoPasswordChange(es) ensures !MatchAt(pw, Sent(pw, es), j) {
        if MatchAt(pw, Sent(pw, es), j) { OccurrenceSpansFlush(pw, es, j); }
      }
    }
  }
}
