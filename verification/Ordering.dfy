/** Ordered sets of strings: the ascending listing every printer walks. */
module Ordering {

  /** Lexicographic order by code point. */
  predicate Leq(a: string, b: string) {
    a == [] || (b != [] && (a[0] < b[0] || (a[0] == b[0] && Leq(a[1..], b[1..]))))
  }

  lemma LeqTotal(a: string, b: string)
    ensures Leq(a, b) || Leq(b, a)
  {}

  lemma {:induction false} LeqAntisymmetric(a: string, b: string)
    requires Leq(a, b) && Leq(b, a)
    ensures a == b
  {
    if a != [] && b != [] {
      LeqAntisymmetric(a[1..], b[1..]);
      assert a == [a[0]] + a[1..] && b == [b[0]] + b[1..];
    }
  }

  lemma {:induction false} LeqTransitive(a: string, b: string, c: string)
    requires Leq(a, b) && Leq(b, c)
    ensures Leq(a, c)
  {
    if a != [] && a[0] == b[0] && b[0] == c[0] {
      LeqTransitive(a[1..], b[1..], c[1..]);
    }
  }

  predicate IsLeast(s: set<string>, m: string) {
    m in s && forall x :: x in s ==> Leq(m, x)
  }

  lemma {:induction false} LeastExists(s: set<string>)
    requires s != {}
    ensures exists m :: IsLeast(s, m)
    decreases |s|
  {
    var x :| x in s;
    LeqTotal(x, x);
    var rest := s - {x};
    if rest == {} {
      assert s == {x};
      assert IsLeast(s, x);
    } else {
      LeastExists(rest);
      var m :| IsLeast(rest, m);
      LeqTotal(x, m);
      var least := if Leq(x, m) then x else m;
      forall y | y in s ensures Leq(least, y) {
        if y != x && Leq(x, m) { LeqTransitive(x, m, y); }
      }
      assert IsLeast(s, least);
    }
  }

  /** The members of `s`, once each, in ascending order. */
  function Ascending(s: set<string>): (r: seq<string>)
    ensures forall x :: x in r <==> x in s
    ensures forall i, j :: 0 <= i < j < |r| ==> r[i] != r[j] && Leq(r[i], r[j])
  {
    if s == {} then []
    else
      LeastExists(s);
      assert forall m, n :: IsLeast(s, m) && IsLeast(s, n) ==> m == n by {
        forall m, n | IsLeast(s, m) && IsLeast(s, n) ensures m == n { LeqAntisymmetric(m, n); }
      }
      var m :| IsLeast(s, m);
      [m] + Ascending(s - {m})
  }
}
