/** Which passwords the mask really hides. The mask is made of stars, so a
    password built around stars can reappear out of it. */
module MaskSafety {
  import opened Wrappers
  import opened Machine
  import opened Search
  import opened Streaming
  import opened Redaction

  /** A full mask's worth of stars starts at `i`. */
  ghost predicate Starry(pw: Bytes, i: nat) {
    i + |MASK| <= |pw| && forall k :: i <= k < i + |MASK| ==> pw[k] == STAR
  }

  /** No star at either end and no full mask inside. */
  ghost predicate SafeToMask(pw: Bytes)
    requires pw != []
  {
    pw[0] != STAR && pw[|pw| - 1] != STAR && forall i: nat :: !Starry(pw, i)
  }

  ghost predicate Stars(mask: Bytes) {
    |mask| == |MASK| && forall k :: 0 <= k < |mask| ==> mask[k] == STAR
  }

  /** An occurrence in `u + mask + v` lies in `u`, lies in `v`, or touches the
      mask in one of the three ways a safe password excludes. */
  lemma AroundTheMask(pw: Bytes, mask: Bytes, u: Bytes, v: Bytes, j: nat)
    requires pw != [] && SafeToMask(pw) && Stars(mask) && MatchAt(pw, u + (mask + v), j)
    ensures j + |pw| <= |u| || j >= |u| + |mask|
  {
    var t := u + (mask + v);
    var m, n, w := |u|, |pw|, |mask|;
    assert forall k :: m <= k < m + w ==> t[k] == STAR;
    assert pw[0] == t[j..j + n][0] == t[j] && pw[n - 1] == t[j..j + n][n - 1] == t[j + n - 1];
    if j < m && j + n > m + w { StarsInside(pw, t, j, m); }
  }

  lemma StarsInside(pw: Bytes, t: Bytes, j: nat, m: nat)
    requires MatchAt(pw, t, j) && j < m && m + |MASK| <= j + |pw|
    requires forall k :: m <= k < m + |MASK| ==> t[k] == STAR
    ensures Starry(pw, m - j)
  {
    assert forall k :: m - j <= k < m - j + |MASK| ==> pw[k] == t[j..j + |pw|][k] == t[j + k];
  }

  lemma HiddenAround(pw: Bytes, mask: Bytes, u: Bytes, v: Bytes, j: nat)
    requires pw != [] && SafeToMask(pw) && Stars(mask) && !MatchAt(pw, u, j)
    requires j >= |u + mask| ==> !MatchAt(pw, v, j - |u + mask|)
    ensures !MatchAt(pw, u + (mask + v), j)
  {
    if MatchAt(pw, u + (mask + v), j) {
      AroundTheMask(pw, mask, u, v, j);
    }
    if j + |pw| <= |u| {
      MatchInPrefix(pw, u, mask + v, j);
    } else if j >= |u + mask| {
      Assoc(u, mask, v);
      MatchShift(pw, u + mask, v, j - |u + mask|);
    }
  }

  lemma {:induction false} SafeIsHidden(pw: Bytes, mask: Bytes, s: Bytes, j: nat)
    requires pw != [] && SafeToMask(pw) && Stars(mask)
    ensures !MatchAt(pw, Replace(pw, mask, s), j)
    decreases |s|
  {
    var a := Lead(pw, s);
    ReplaceAtLead(pw, mask, s);
    LeadHidden(pw, s, j);
    if a == |s| {
      Units(s);
    } else {
      var rest := AfterMatch(pw, s);
      if j >= a + |mask| { SafeIsHidden(pw, mask, rest, j - a - |mask|); }
      HiddenAround(pw, mask, s[..a], Replace(pw, mask, rest), j);
    }
  }

  lemma LeadHidden(pw: Bytes, s: Bytes, j: nat)
    requires pw != []
    ensures !MatchAt(pw, s[..Lead(pw, s)], j)
  {
    var a := Lead(pw, s);
    if j + |pw| <= a {
      LeadIsFree(pw, s, j);
      assert s == s[..a] + s[a..];
      MatchInPrefix(pw, s[..a], s[a..], j);
    }
  }

  // ---- Unsafe passwords come back ---------------------------------------

  /** First position of a full run of stars, if any. */
  function FirstStarry(pw: Bytes, from: nat): (r: Option<nat>)
    requires from <= |pw| && forall i: nat :: i < from ==> !Starry(pw, i)
    ensures r.Some? ==> Starry(pw, r.value) && forall i: nat :: i < r.value ==> !Starry(pw, i)
    ensures r.None? ==> forall i: nat :: !Starry(pw, i)
    decreases |pw| - from
  {
    if from + |MASK| > |pw| then None
    else if forall k :: from <= k < from + |MASK| ==> pw[k] == STAR then Some(from)
    else FirstStarry(pw, from + 1)
  }

  /** Start of the run of stars ending at `k`. */
  function StarRunStart(pw: Bytes, k: nat): (r: nat)
    requires k <= |pw|
    ensures r <= k && forall i :: r <= i < k ==> pw[i] == STAR
    ensures r > 0 ==> pw[r - 1] != STAR
  {
    if k > 0 && pw[k - 1] == STAR then StarRunStart(pw, k - 1) else k
  }

  /** For an unsafe password, an input whose redaction spells it out again. */
  function Counterexample(pw: Bytes): Bytes
    requires pw != []
  {
    var f := FirstStarry(pw, 0);
    if pw[0] == STAR then pw + pw[1..]
    else if f.Some? then pw[..f.value] + (pw + pw[f.value + |MASK|..])
    else pw[..StarRunStart(pw, |pw|)] + pw
  }

  /** Placing `u` before the password puts its only match there, when no shift
      of the password by less than |u| agrees with itself. */
  lemma MaskedOnce(pw: Bytes, mask: Bytes, u: Bytes, v: Bytes)
    requires pw != [] && |v| < |pw|
    requires forall i: nat :: i < |u| ==> !MatchAt(pw, u + (pw + v), i)
    ensures Replace(pw, mask, u + (pw + v)) == u + (mask + v)
  {
    var s := u + (pw + v);
    Cuts(u, pw, v);
    LeadIsFirst(pw, s, |u|);
    ReplaceAtLead(pw, mask, s);
    AfterMatchIsDrop(pw, s);
  }

  lemma StarsThenTail(pw: Bytes, mask: Bytes)
    requires pw != [] && Stars(mask) && pw[0] == STAR
    ensures MatchAt(pw, mask + pw[1..], |mask| - 1)
  {
    var out, m := mask + pw[1..], |mask| - 1;
    forall k | 0 <= k < |pw| ensures out[m..m + |pw|][k] == pw[k] {
      if k > 0 { assert out[m + k] == pw[1..][k - 1]; }
    }
    assert out[m..m + |pw|] == pw;
  }

  lemma LeakFromFront(pw: Bytes, mask: Bytes)
    requires pw != [] && Stars(mask) && pw[0] == STAR
    ensures Occurs(pw, Replace(pw, mask, pw + pw[1..]))
  {
    var v := pw[1..];
    MaskedOnce(pw, mask, [], v);
    Units(pw + v);
    Units(mask + v);
    StarsThenTail(pw, mask);
  }

  lemma EarlierStars(pw: Bytes, a: nat, v: Bytes, i: nat)
    requires i < a && Starry(pw, a) && MatchAt(pw, pw[..a] + (pw + v), i)
    ensures Starry(pw, i)
  {
    var s := pw[..a] + (pw + v);
    forall k | i <= k < i + |MASK| ensures pw[k] == STAR {
      var d := a - i;
      assert s[i..i + |pw|][k + d] == s[a + k] == pw[k];
    }
  }

  lemma LeakAroundStars(pw: Bytes, mask: Bytes, a: nat)
    requires Stars(mask) && Starry(pw, a) && forall i: nat :: i < a ==> !Starry(pw, i)
    ensures Occurs(pw, Replace(pw, mask, pw[..a] + (pw + pw[a + |MASK|..])))
  {
    var u, v := pw[..a], pw[a + |MASK|..];
    forall i: nat | i < a ensures !MatchAt(pw, u + (pw + v), i) {
      if MatchAt(pw, u + (pw + v), i) { EarlierStars(pw, a, v, i); }
    }
    MaskedOnce(pw, mask, u, v);
    assert u + (mask + v) == pw;
    assert MatchAt(pw, pw, 0);
  }

  lemma NoEarlierMatch(pw: Bytes, a: nat, i: nat)
    requires i < a < |pw| && pw[0] != STAR && pw[a] == STAR
    ensures !MatchAt(pw, pw[..a] + (pw + []), i)
  {
    var s := pw[..a] + (pw + []);
    var m := s[i..i + |pw|];
    assert m[0] == s[i] == pw[i] && m[a] == s[i + a] == pw[i];
  }

  lemma LeakAtEnd(pw: Bytes, mask: Bytes, a: nat)
    requires Stars(mask) && a < |pw| && pw[0] != STAR
    requires forall k :: a <= k < |pw| ==> pw[k] == STAR
    requires !Starry(pw, a)
    ensures Occurs(pw, Replace(pw, mask, pw[..a] + pw))
  {
    var u := pw[..a];
    forall i: nat | i < a ensures !MatchAt(pw, u + (pw + []), i) {
      NoEarlierMatch(pw, a, i);
    }
    MaskedOnce(pw, mask, u, []);
    assert pw + [] == pw && mask + [] == mask;
    assert (u + mask)[0..|pw|] == pw;
    assert MatchAt(pw, u + mask, 0);
  }

  lemma UnsafeLeaks(pw: Bytes)
    requires pw != [] && !SafeToMask(pw)
    ensures Occurs(pw, Redact(pw, Counterexample(pw)))
  {
    var f := FirstStarry(pw, 0);
    if pw[0] == STAR {
      LeakFromFront(pw, MASK);
    } else if f.Some? {
      LeakAroundStars(pw, MASK, f.value);
    } else {
      LeakAtEnd(pw, MASK, StarRunStart(pw, |pw|));
    }
  }

  // ---- The exact condition ----------------------------------------------

  ghost predicate ShownBy(pw: Bytes, s: Bytes)
    requires pw != []
  {
    Occurs(pw, Redact(pw, s))
  }

  /** Redaction hides a password on every input exactly when the password is
      safe to mask. */
  lemma HiddenIffSafe(pw: Bytes)
    requires pw != []
    ensures (forall s: Bytes :: !ShownBy(pw, s)) <==> SafeToMask(pw)
  {
    if SafeToMask(pw) {
      forall s: Bytes, j: nat ensures !MatchAt(pw, Redact(pw, s), j) {
        SafeIsHidden(pw, MASK, s, j);
      }
    } else {
      UnsafeLeaks(pw);
      assert ShownBy(pw, Counterexample(pw));
    }
  }

  lemma StarFreeIsSafe(pw: Bytes)
    requires pw != [] && STAR !in pw
    ensures SafeToMask(pw)
  {
    forall i: nat ensures !Starry(pw, i) {
      if i < |pw| { assert pw[i] in pw; }
    }
  }

  /** At every moment of a run of writes the output already emitted is free of
      a safe password, however the password was split across the writes. */
  lemma EmittedNeverShowsPassword(pw: Bytes, es: seq<Event>)
    requires pw != [] && SafeToMask(pw) && OnlyWrites(es)
    ensures !Occurs(pw, Exec(WriterState(Some(pw), [], []), es).inner)
  {
    var w := Exec(WriterState(Some(pw), [], []), es);
    EmittedIsPrefix(pw, es);
    forall i: nat ensures !MatchAt(pw, w.inner, i) {
      SafeIsHidden(pw, MASK, Written(es), i);
      if i + |pw| <= |w.inner| {
        MatchInPrefix(pw, w.inner, Redact(pw, w.pending), i);
      }
    }
  }
}
