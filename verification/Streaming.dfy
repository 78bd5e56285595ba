/** Replacing a pattern in a stream that arrives in pieces: the one-shot
    reference, and the incremental drain of the bytes held back so far. */
module Streaming {
  import opened Search

  // ---- The one-shot reference -------------------------------------------

  /** Replace every leftmost non-overlapping occurrence of `pat` by `mask`. */
  function Replace<T(==)>(pat: seq<T>, mask: seq<T>, s: seq<T>): seq<T>
    requires pat != []
    decreases |s|
  {
    if |s| < |pat| then s
    else if MatchAt(pat, s, 0) then mask + Replace(pat, mask, s[|pat|..])
    else [s[0]] + Replace(pat, mask, s[1..])
  }

  // ---- One incremental drain --------------------------------------------

  /** What one drain releases, and the tail kept back. */
  datatype Drained<T> = Drained(output: seq<T>, held: seq<T>)

  /** Release `p` up to the last `hold` elements, replacing matches; a match that
      begins before that cutoff but ends after it is kept back whole. */
  function Drain<T(==)>(pat: seq<T>, mask: seq<T>, p: seq<T>, hold: nat): Drained<T>
    requires pat != []
    decreases |p|
  {
    if |p| <= hold then Drained([], p)
    else if MatchAt(pat, p, 0) then
      if |p| - |pat| < hold then Drained([], p)
      else
        var d := Drain(pat, mask, p[|pat|..], hold);
        Drained(mask + d.output, d.held)
    else
      var d := Drain(pat, mask, p[1..], hold);
      Drained([p[0]] + d.output, d.held)
  }

  /** How many matches that drain masks. */
  function Masked<T(==)>(pat: seq<T>, p: seq<T>, hold: nat): nat
    requires pat != []
    decreases |p|
  {
    if |p| <= hold then 0
    else if MatchAt(pat, p, 0) then
      if |p| - |pat| < hold then 0 else 1 + Masked(pat, p[|pat|..], hold)
    else Masked(pat, p[1..], hold)
  }

  /** The unflushed hold-back never loses a match: whatever `x` follows,
      the released output continued with the held tail becomes the same
      stream as the undrained input. */
  lemma {:induction false} DrainRefines<T>(pat: seq<T>, mask: seq<T>, p: seq<T>, x: seq<T>)
    requires pat != []
    ensures var d := Drain(pat, mask, p, |pat| - 1);
            Replace(pat, mask, p + x) == d.output + Replace(pat, mask, d.held + x)
    decreases |p|
  {
    var n := |pat|;
    if |p| < n {
    } else {
      assert (p + x)[..n] == p[..n];
      if MatchAt(pat, p, 0) {
        if |p| - n >= n - 1 {
          assert (p + x)[n..] == p[n..] + x;
          DrainRefines(pat, mask, p[n..], x);
          var d := Drain(pat, mask, p[n..], n - 1);
          Assoc(mask, d.output, Replace(pat, mask, d.held + x));
        }
      } else {
        assert (p + x)[1..] == p[1..] + x;
        DrainRefines(pat, mask, p[1..], x);
        var d := Drain(pat, mask, p[1..], n - 1);
        Assoc([p[0]], d.output, Replace(pat, mask, d.held + x));
      }
    }
  }

  /** A flush releases everything, replaced as one whole. */
  lemma {:induction false} DrainAll<T>(pat: seq<T>, mask: seq<T>, p: seq<T>)
    requires pat != []
    ensures Drain(pat, mask, p, 0) == Drained(Replace(pat, mask, p), [])
    decreases |p|
  {
    if p == [] {
    } else if MatchAt(pat, p, 0) {
      DrainAll(pat, mask, p[|pat|..]);
    } else {
      DrainAll(pat, mask, p[1..]);
      if |p| < |pat| {
        assert p == [p[0]] + p[1..];
      }
    }
  }

  /** What stays behind is a suffix of the input: fewer bytes than the
      pattern, or a complete match straddling the cutoff, at most 2n - 2. */
  lemma {:induction false} HeldBack<T>(pat: seq<T>, mask: seq<T>, p: seq<T>)
    requires pat != []
    ensures var held := Drain(pat, mask, p, |pat| - 1).held;
            && |held| <= |p| && p[|p| - |held|..] == held
            && (|held| < |pat| || (pat <= held && |held| <= 2 * |pat| - 2))
    decreases |p|
  {
    if |p| < |pat| {
    } else if MatchAt(pat, p, 0) {
      if |p| - |pat| >= |pat| - 1 {
        HeldBack(pat, mask, p[|pat|..]);
      }
    } else {
      HeldBack(pat, mask, p[1..]);
    }
  }

  /** Elements before the first match pass through a drain unchanged. */
  lemma {:induction false} DrainPlain<T>(pat: seq<T>, mask: seq<T>, p: seq<T>, hold: nat, k: nat)
    requires pat != [] && hold + k <= |p|
    requires forall i: nat :: i < k ==> !MatchAt(pat, p, i)
    ensures Drain(pat, mask, p, hold) ==
            Drained(p[..k] + Drain(pat, mask, p[k..], hold).output, Drain(pat, mask, p[k..], hold).held)
    decreases k
  {
    if k == 0 {
      assert p[0..] == p;
    } else {
      assert !MatchAt(pat, p, 0);
      forall i: nat | i < k - 1 ensures !MatchAt(pat, p[1..], i) {
        MatchTail(pat, p, i);
      }
      DrainPlain(pat, mask, p[1..], hold, k - 1);
      assert p[1..][k - 1..] == p[k..];
      Assoc([p[0]], p[1..][..k - 1], Drain(pat, mask, p[k..], hold).output);
      assert [p[0]] + p[1..][..k - 1] == p[..k];
    }
  }

  // ---- The lead before the first match

  /** Length of the input before its first match; all of it when none. */
  function Lead<T(==)>(pat: seq<T>, s: seq<T>): (a: nat)
    requires pat != []
    ensures a <= |s| && (a < |s| ==> a + |pat| <= |s|)
    decreases |s|
  {
    if |s| < |pat| then |s|
    else if MatchAt(pat, s, 0) then 0
    else 1 + Lead(pat, s[1..])
  }

  /** What follows the first match. */
  function AfterMatch<T(==)>(pat: seq<T>, s: seq<T>): (r: seq<T>)
    requires pat != []
    ensures |r| <= |s| && (s != [] ==> |r| < |s|)
    decreases |s|
  {
    if |s| < |pat| then []
    else if MatchAt(pat, s, 0) then s[|pat|..]
    else AfterMatch(pat, s[1..])
  }

  lemma {:induction false} AfterMatchIsDrop<T>(pat: seq<T>, s: seq<T>)
    requires pat != [] && Lead(pat, s) < |s|
    ensures AfterMatch(pat, s) == s[Lead(pat, s) + |pat|..]
    decreases |s|
  {
    if !MatchAt(pat, s, 0) {
      AfterMatchIsDrop(pat, s[1..]);
      DropDrop(s, 1, Lead(pat, s[1..]) + |pat|);
    }
  }

  /** The replacement splits at the first match. */
  lemma {:induction false} ReplaceAtLead<T>(pat: seq<T>, mask: seq<T>, s: seq<T>)
    requires pat != []
    ensures var a := Lead(pat, s);
            Replace(pat, mask, s) ==
              if a == |s| then s else s[..a] + (mask + Replace(pat, mask, AfterMatch(pat, s)))
    decreases |s|
  {
    if |s| >= |pat| {
      if MatchAt(pat, s, 0) {
        Units(s);
        Units(mask + Replace(pat, mask, s[|pat|..]));
      } else {
        ReplaceAtLead(pat, mask, s[1..]);
        var a := Lead(pat, s[1..]);
        Assoc([s[0]], s[1..][..a], mask + Replace(pat, mask, AfterMatch(pat, s)));
        ConsTake(s, a);
      }
    }
  }

  /** No match starts before the lead ends. */
  lemma {:induction false} LeadIsFree<T>(pat: seq<T>, s: seq<T>, i: nat)
    requires pat != [] && i < Lead(pat, s)
    ensures !MatchAt(pat, s, i)
    decreases |s|
  {
    if |s| >= |pat| && i > 0 {
      LeadIsFree(pat, s[1..], i - 1);
      MatchTail(pat, s, i - 1);
    }
  }

  lemma {:induction false} LeadMatches<T>(pat: seq<T>, s: seq<T>)
    requires pat != [] && Lead(pat, s) < |s|
    ensures MatchAt(pat, s, Lead(pat, s))
    decreases |s|
  {
    if !MatchAt(pat, s, 0) {
      LeadMatches(pat, s[1..]);
      MatchTail(pat, s, Lead(pat, s[1..]));
    }
  }

  /** The lead is the position of the first match. */
  lemma LeadIsFirst<T>(pat: seq<T>, s: seq<T>, a: nat)
    requires pat != [] && MatchAt(pat, s, a)
    requires forall i: nat :: i < a ==> !MatchAt(pat, s, i)
    ensures Lead(pat, s) == a
  {
    var l := Lead(pat, s);
    if l > a { LeadIsFree(pat, s, a); }
    if l < a { LeadMatches(pat, s); }
  }

  // ---- One pass of the scanning loop

  ghost function Prepend<T>(output: seq<T>, d: Drained<T>): Drained<T> {
    Drained(output + d.output, d.held)
  }

  /** `out` is what draining the first `consumed` elements of `p` releases. */
  ghost predicate Scanned<T>(pat: seq<T>, mask: seq<T>, p: seq<T>, hold: nat, out: seq<T>, consumed: nat)
    requires pat != []
  {
    consumed <= |p| && Drain(pat, mask, p, hold) == Prepend(out, Drain(pat, mask, p[consumed..], hold))
  }

  lemma ScanEnds<T>(pat: seq<T>, mask: seq<T>, p: seq<T>, hold: nat, out: seq<T>, consumed: nat)
    requires pat != [] && Scanned(pat, mask, p, hold, out, consumed) && consumed + hold <= |p|
    requires forall i: nat :: consumed <= i < |p| - hold ==> !MatchAt(pat, p, i)
    ensures var cut := |p| - hold;
            Drain(pat, mask, p, hold) == Drained(out + p[consumed..cut], p[cut..])
  {
    var cut := |p| - hold;
    DrainTail(pat, mask, p, consumed, hold, cut);
    assert Drain(pat, mask, p[consumed..], hold) == Drained(p[consumed..cut] + [], p[cut..]);
    assert p[consumed..cut] + [] == p[consumed..cut];
  }

  lemma ScanMatches<T>(pat: seq<T>, mask: seq<T>, p: seq<T>, hold: nat, out: seq<T>, consumed: nat, start: nat)
    requires pat != [] && Scanned(pat, mask, p, hold, out, consumed)
    requires consumed <= start && start + hold < |p| && MatchAt(pat, p, start)
    requires forall i: nat :: consumed <= i < start ==> !MatchAt(pat, p, i)
    ensures var end, out' := start + |pat|, out + p[consumed..start];
            if end + hold > |p| then Drain(pat, mask, p, hold) == Drained(out', p[start..])
            else Scanned(pat, mask, p, hold, out' + mask, end)
  {
    DrainTail(pat, mask, p, consumed, hold, start);
    DrainMatch(pat, mask, p, start, hold);
    var plain, end := p[consumed..start], start + |pat|;
    if end + hold > |p| {
      assert Drain(pat, mask, p[consumed..], hold) == Drained(plain + [], p[start..]);
      assert plain + [] == plain;
    } else {
      var d := Drain(pat, mask, p[end..], hold);
      assert Drain(pat, mask, p[consumed..], hold) == Drained(plain + (mask + d.output), d.held);
      Assoc(plain, mask, d.output);
      Assoc(out, plain + mask, d.output);
      Assoc(out, plain, mask);
    }
  }

  /** At a match: mask it, or keep it back when it straddles the cutoff. */
  lemma DrainMatch<T>(pat: seq<T>, mask: seq<T>, p: seq<T>, start: nat, hold: nat)
    requires pat != [] && MatchAt(pat, p, start) && start + hold < |p|
    ensures var end := start + |pat|;
            Drain(pat, mask, p[start..], hold) ==
              if end + hold > |p| then Drained([], p[start..])
              else Prepend(mask, Drain(pat, mask, p[end..], hold))
  {
    var q := p[start..];
    assert q[..|pat|] == p[start..start + |pat|];
    assert q[|pat|..] == p[start + |pat|..];
  }

  /** Scanning on from `from`: nothing matches before `cut`. */
  lemma DrainTail<T>(pat: seq<T>, mask: seq<T>, p: seq<T>, from: nat, hold: nat, cut: nat)
    requires pat != [] && from <= cut && cut + hold <= |p|
    requires forall i: nat :: from <= i < cut ==> !MatchAt(pat, p, i)
    ensures Drain(pat, mask, p[from..], hold) == Prepend(p[from..cut], Drain(pat, mask, p[cut..], hold))
    ensures cut + hold == |p| ==> Drain(pat, mask, p[cut..], hold) == Drained([], p[cut..])
  {
    var q := p[from..];
    forall i: nat | i < cut - from ensures !MatchAt(pat, q, i) {
      assert p == p[..from] + q;
      MatchShift(pat, p[..from], q, i);
      assert !MatchAt(pat, p, from + i);
    }
    DrainPlain(pat, mask, q, hold, cut - from);
    assert q[cut - from..] == p[cut..] && q[..cut - from] == p[from..cut];
  }

  // ---- Conservation of length and of matches

  /** Each mask stands for one match: whatever `x` follows, the matches masked
      now and those still to come are the matches of the undrained input. */
  lemma {:induction false} MaskedCounts<T>(pat: seq<T>, mask: seq<T>, p: seq<T>, x: seq<T>)
    requires pat != []
    ensures var n := |pat|;
            Count(pat, p + x) == Masked(pat, p, n - 1) + Count(pat, Drain(pat, mask, p, n - 1).held + x)
    decreases |p|
  {
    var n := |pat|;
    if |p| >= n {
      assert (p + x)[..n] == p[..n];
      if MatchAt(pat, p, 0) {
        if |p| - n >= n - 1 {
          assert (p + x)[n..] == p[n..] + x;
          MaskedCounts(pat, mask, p[n..], x);
        }
      } else {
        assert (p + x)[1..] == p[1..] + x;
        MaskedCounts(pat, mask, p[1..], x);
      }
    }
  }

  /** A drain trades each match it masks for one mask and keeps all the rest. */
  lemma {:induction false} DrainedLength<T>(pat: seq<T>, mask: seq<T>, p: seq<T>, hold: nat)
    requires pat != []
    ensures var d, k := Drain(pat, mask, p, hold), Masked(pat, p, hold);
            |d.output| + |d.held| + k * |pat| == |p| + k * |mask|
    decreases |p|
  {
    if |p| > hold {
      if MatchAt(pat, p, 0) {
        if |p| - |pat| >= hold {
          DrainedLength(pat, mask, p[|pat|..], hold);
          var k := Masked(pat, p[|pat|..], hold);
          OneMore(k, |pat|);
          OneMore(k, |mask|);
        }
      } else {
        DrainedLength(pat, mask, p[1..], hold);
      }
    }
  }

  lemma OneMore(c: nat, n: nat)
    ensures (1 + c) * n == n + c * n
  {}
}
