/** The log writer that masks the password, with its in-place buffer. */
module LogWriter {
  import opened Wrappers
  import opened Machine
  import opened Search
  import opened Streaming
  import opened Redaction

  /** The slot shared by every writer and filled in once the password is known. */
  class PasswordSlot {
    var secret: Option<Bytes>

    constructor ()
      ensures secret == None
    {
      secret := None;
    }

    method Set(value: Option<Bytes>)
      modifies this
      ensures secret == value
    {
      secret := value;
    }
  }

  class RedactingWriter {
    const password: PasswordSlot
    /** Everything handed to the inner writer, in order. */
    var inner: Bytes
    var pending: Bytes

    ghost function State(): WriterState
      reads this, password
    {
      WriterState(password.secret, pending, inner)
    }

    constructor (password: PasswordSlot)
      ensures this.password == password
      ensures State() == WriterState(password.secret, [], [])
    {
      this.password := password;
      inner, pending := [], [];
    }

    method Write(buf: Bytes) returns (n: nat)
      modifies this
      ensures n == |buf|
      ensures State() == Step(old(State()), Event.Write(buf))
    {
      n := |buf|;
      match password.secret {
        case None =>
          FlushPendingWithoutRedaction();
          inner := inner + buf;
        case Some(pw) =>
          pending := pending + buf;
          FlushRedactedPending(pw, false);
      }
    }

    method Flush()
      modifies this
      ensures State() == Step(old(State()), Event.Flush)
    {
      match password.secret {
        case None => FlushPendingWithoutRedaction();
        case Some(pw) =>
          if pw != [] { DrainAll(pw, MASK, pending); }
          FlushRedactedPending(pw, true);
      }
    }

    /** Dropping a writer flushes it. */
    method Drop()
      modifies this
      ensures State() == Step(old(State()), Event.Flush)
    {
      Flush();
    }

    method FlushPendingWithoutRedaction()
      modifies this
      ensures pending == [] && inner == old(inner) + old(pending)
    {
      if pending != [] {
        inner := inner + pending;
        pending := [];
      }
    }

    method FlushRedactedPending(pw: Bytes, flushAll: bool)
      modifies this
      ensures pw == [] ==> pending == [] && inner == old(inner) + old(pending)
      ensures pw != [] ==>
        var d := Drain(pw, MASK, old(pending), if flushAll then 0 else |pw| - 1);
        inner == old(inner) + d.output && pending == d.held
    {
      if pw == [] {
        FlushPendingWithoutRedaction();
        return;
      }
      var holdBack := if flushAll then 0 else |pw| - 1;
      var emitCutoff, output := Scan(pw, pending, holdBack);
      if output != [] {
        inner := inner + output;
      }
      pending := pending[emitCutoff..];
    }

    /** The scanning half of `FlushRedactedPending`: the output to send and
        where the drained part of the buffer ends. */
    static method Scan(pw: Bytes, pending: Bytes, holdBack: nat) returns (emitCutoff: nat, output: Bytes)
      requires pw != []
      ensures emitCutoff <= |pending|
      ensures Drain(pw, MASK, pending, holdBack) == Drained(output, pending[emitCutoff..])
    {
      emitCutoff := if |pending| >= holdBack then |pending| - holdBack else 0;
      output := [];
      if emitCutoff == 0 { return; }

      var consumed, searchFrom := 0, 0;
      while searchFrom <= |pending|
        invariant consumed == searchFrom <= emitCutoff == |pending| - holdBack
        invariant Scanned(pw, MASK, pending, holdBack, output, consumed)
        decreases |pending| - searchFrom
      {
        var found := FirstMatch(pw, pending, searchFrom);
        if found.None? || found.value >= emitCutoff {
          ScanEnds(pw, MASK, pending, holdBack, output, consumed);
          break;
        }
        var matchStart := found.value;
        var matchEnd := matchStart + |pw|;
        ScanMatches(pw, MASK, pending, holdBack, output, consumed, matchStart);
        if matchEnd > emitCutoff {
          emitCutoff := matchStart;
          break;
        }
        output := output + pending[consumed..matchStart] + MASK;
        consumed := matchEnd;
        searchFrom := matchEnd;
      }
      output := output + pending[consumed..emitCutoff];
    }
  }
}
