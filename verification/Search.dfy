/** Substring search: the vocabulary shared by the log redactor and the
    folder-template validator. */
module Search {

  import opened Wrappers

  /** `pat` occurs in `s` at position `i`. */
  predicate MatchAt<T(==)>(pat: seq<T>, s: seq<T>, i: nat) {
    i + |pat| <= |s| && s[i..i + |pat|] == pat
  }

  ghost predicate Occurs<T>(pat: seq<T>, s: seq<T>) {
    exists i: nat :: MatchAt(pat, s, i)
  }

  /** Leftmost occurrence at or after `from`. */
  function FirstMatch<T(==)>(pat: seq<T>, s: seq<T>, from: nat): (r: Option<nat>)
    requires from <= |s|
    ensures r.Some? ==> from <= r.value && MatchAt(pat, s, r.value)
    ensures forall i: nat :: from <= i && (r.Some? ==> i < r.value) ==> !MatchAt(pat, s, i)
    decreases |s| - from
  {
    if MatchAt(pat, s, from) then Some(from)
    else if from == |s| then None
    else FirstMatch(pat, s, from + 1)
  }

  /** Number of leftmost non-overlapping occurrences. */
  function Count<T(==)>(pat: seq<T>, s: seq<T>): nat
    requires pat != []
    decreases |s|
  {
    if |s| < |pat| then 0
    else if MatchAt(pat, s, 0) then 1 + Count(pat, s[|pat|..])
    else Count(pat, s[1..])
  }

  lemma Assoc<T>(a: seq<T>, b: seq<T>, c: seq<T>)
    ensures a + (b + c) == (a + b) + c
  {}

  lemma DropDrop<T>(s: seq<T>, j: nat, k: nat)
    requires j + k <= |s|
    ensures s[j..][k..] == s[j + k..]
  {}

  lemma ConsTake<T>(s: seq<T>, k: nat)
    requires k < |s|
    ensures [s[0]] + s[1..][..k] == s[..1 + k]
  {}

  lemma Cuts<T>(u: seq<T>, p: seq<T>, v: seq<T>)
    ensures var s, m, n := u + (p + v), |u|, |u| + |p|;
            s[..m] == u && s[m..n] == p && s[n..] == v
  {}

  lemma Units<T>(a: seq<T>)
    ensures a + [] == a && [] + a == a && a[..0] == [] && a[..|a|] == a
  {}

  /** Shifting an occurrence by a dropped or added prefix. */
  lemma MatchShift<T>(pat: seq<T>, u: seq<T>, s: seq<T>, i: nat)
    ensures MatchAt(pat, u + s, |u| + i) <==> MatchAt(pat, s, i)
  {
    if i + |pat| <= |s| {
      assert (u + s)[|u| + i..|u| + i + |pat|] == s[i..i + |pat|];
    }
  }

  lemma MatchInPrefix<T>(pat: seq<T>, u: seq<T>, s: seq<T>, i: nat)
    requires i + |pat| <= |u|
    ensures MatchAt(pat, u + s, i) <==> MatchAt(pat, u, i)
  {
    assert (u + s)[i..i + |pat|] == u[i..i + |pat|];
  }

  lemma MatchTail<T>(pat: seq<T>, s: seq<T>, i: nat)
    requires s != []
    ensures MatchAt(pat, s, i + 1) <==> MatchAt(pat, s[1..], i)
  {
    assert s == s[..1] + s[1..];
    MatchShift(pat, s[..1], s[1..], i);
  }

  /** Counting finds an occurrence exactly when there is one. */
  lemma {:induction false} CountPositiveIffOccurs<T>(pat: seq<T>, s: seq<T>)
    requires pat != []
    ensures Count(pat, s) > 0 <==> Occurs(pat, s)
    decreases |s|
  {
    if |s| < |pat| {
    } else if MatchAt(pat, s, 0) {
      assert MatchAt(pat, s, 0);
    } else {
      CountPositiveIffOccurs(pat, s[1..]);
      if Occurs(pat, s) {
        var i: nat :| MatchAt(pat, s, i);
        assert i != 0;
        MatchTail(pat, s, i - 1);
      }
      if Occurs(pat, s[1..]) {
        var i: nat :| MatchAt(pat, s[1..], i);
        MatchTail(pat, s, i);
      }
    }
  }
}
