/** Whole lists of selector entries, described without regard to order. */
module SelectorLists {
  import opened Wrappers
  import opened SelectorGrammar

  /** Every entry means something, and no name is given twice. Sentinels may repeat. */
  ghost predicate Sound(g: Grammar, raw: seq<string>) {
    && (forall i :: 0 <= i < |raw| ==> Classify(g, raw[i]).Ok?)
    && (forall i, j :: 0 <= i < j < |raw| && Classify(g, raw[i]) == Classify(g, raw[j]) ==>
          Classify(g, raw[i]).value.Sentinel?)
  }

  ghost predicate Says(g: Grammar, raw: seq<string>, m: Meaning) {
    exists e :: e in raw && Classify(g, e) == Ok(m)
  }

  ghost function WordsOf(g: Grammar, raw: seq<string>): (r: set<string>)
    ensures forall w :: w in r <==> Says(g, raw, Sentinel(w))
  {
    set e | e in raw && Classify(g, e).Ok? && Classify(g, e).value.Sentinel? :: Classify(g, e).value.word
  }

  ghost function IncludedOf(g: Grammar, raw: seq<string>): (r: set<string>)
    ensures forall n :: n in r <==> Says(g, raw, Include(n))
  {
    set e | e in raw && Classify(g, e).Ok? && Classify(g, e).value.Include? :: Classify(g, e).value.name
  }

  ghost function ExcludedOf(g: Grammar, raw: seq<string>): (r: set<string>)
    ensures forall n :: n in r <==> Says(g, raw, Exclude(n))
  {
    set e | e in raw && Classify(g, e).Ok? && Classify(g, e).value.Exclude? :: Classify(g, e).value.name
  }

  datatype Gathered = Gathered(words: set<string>, included: set<string>, excluded: set<string>)

  ghost function Gather(g: Grammar, raw: seq<string>): Result<Gathered> {
    if Sound(g, raw) then Ok(Gathered(WordsOf(g, raw), IncludedOf(g, raw), ExcludedOf(g, raw)))
    else Err
  }

  // ---- One more entry ----------------------------------------------------

  /** What a parser's loop does with the next entry. */
  ghost function Add(so: Gathered, m: Meaning): Result<Gathered> {
    match m
    case Sentinel(w) => Ok(so.(words := so.words + {w}))
    case Include(n) => if n in so.included then Err else Ok(so.(included := so.included + {n}))
    case Exclude(n) => if n in so.excluded then Err else Ok(so.(excluded := so.excluded + {n}))
  }

  lemma SaysAppend(g: Grammar, raw: seq<string>, e: string, m: Meaning)
    ensures Says(g, raw + [e], m) <==> Says(g, raw, m) || Classify(g, e) == Ok(m)
  {
    if Says(g, raw, m) {
      var x :| x in raw && Classify(g, x) == Ok(m);
      assert x in raw + [e];
    }
    if Classify(g, e) == Ok(m) { assert e in raw + [e]; }
  }

  lemma SoundAppend(g: Grammar, raw: seq<string>, e: string)
    ensures Sound(g, raw + [e]) <==>
      && Sound(g, raw) && Classify(g, e).Ok?
      && (Classify(g, e).value.Sentinel? || !Says(g, raw, Classify(g, e).value))
  {
    var all := raw + [e];
    if Sound(g, all) {
      forall i | 0 <= i < |raw| ensures Classify(g, raw[i]).Ok? { assert raw[i] == all[i]; }
      assert Sound(g, raw) by {
        forall i, j | 0 <= i < j < |raw| && Classify(g, raw[i]) == Classify(g, raw[j])
          ensures Classify(g, raw[i]).value.Sentinel?
        {
          assert raw[i] == all[i] && raw[j] == all[j];
        }
      }
      assert all[|raw|] == e;
      if Says(g, raw, Classify(g, e).value) {
        var x :| x in raw && Classify(g, x) == Classify(g, e);
        var i :| 0 <= i < |raw| && raw[i] == x;
        assert all[i] == x;
      }
    }
    if Sound(g, raw) && Classify(g, e).Ok?
       && (Classify(g, e).value.Sentinel? || !Says(g, raw, Classify(g, e).value)) {
      forall i, j | 0 <= i < j < |all| && Classify(g, all[i]) == Classify(g, all[j])
        ensures Classify(g, all[i]).value.Sentinel?
      {
        if j == |raw| { assert all[i] in raw; }
      }
    }
  }

  lemma GatherAppend(g: Grammar, raw: seq<string>, e: string)
    ensures Gather(g, raw).Err? || Classify(g, e).Err? ==> Gather(g, raw + [e]).Err?
    ensures Gather(g, raw).Ok? && Classify(g, e).Ok? ==>
      Gather(g, raw + [e]) == Add(Gather(g, raw).value, Classify(g, e).value)
  {
    SoundAppend(g, raw, e);
    forall m ensures Says(g, raw + [e], m) <==> Says(g, raw, m) || Classify(g, e) == Ok(m) {
      SaysAppend(g, raw, e, m);
    }
    if Gather(g, raw).Ok? && Gather(g, raw + [e]).Ok? {
      var so, now := Gather(g, raw).value, Gather(g, raw + [e]).value;
      var m := Classify(g, e).value;
      assert now.words == if m.Sentinel? then so.words + {m.word} else so.words;
      assert now.included == if m.Include? then so.included + {m.name} else so.included;
      assert now.excluded == if m.Exclude? then so.excluded + {m.name} else so.excluded;
    }
  }

  /** A parser may stop at the first bad entry. */
  lemma {:induction false} GatherPrefix(g: Grammar, raw: seq<string>, k: nat)
    requires k <= |raw| && Gather(g, raw[..k]).Err?
    ensures Gather(g, raw).Err?
    decreases |raw| - k
  {
    if k < |raw| {
      assert raw[..k + 1] == raw[..k] + [raw[k]];
      GatherAppend(g, raw[..k], raw[k]);
      GatherPrefix(g, raw, k + 1);
    } else {
      assert raw[..k] == raw;
    }
  }

  lemma GatherNothing(g: Grammar, raw: seq<string>)
    ensures Gather(g, raw[..0]) == Ok(Gathered({}, {}, {}))
  {
    assert raw[..0] == [];
    assert WordsOf(g, []) == {} && IncludedOf(g, []) == {} && ExcludedOf(g, []) == {};
  }

  lemma GatherOne(g: Grammar, e: string)
    requires Classify(g, e).Ok?
    ensures Gather(g, [e]) == Add(Gathered({}, {}, {}), Classify(g, e).value)
  {
    GatherNothing(g, []);
    GatherAppend(g, [], e);
    assert [] + [e] == [e];
  }

  /** All a parser's loop needs about entry `i`: how the prefix grows, and that
      a prefix that fails settles the whole list. */
  lemma NextEntry(g: Grammar, raw: seq<string>, i: nat)
    requires i < |raw| && Gather(g, raw[..i]).Ok?
    ensures Classify(g, raw[i]).Err? ==> Gather(g, raw).Err?
    ensures Classify(g, raw[i]).Ok? ==>
      var next := Add(Gather(g, raw[..i]).value, Classify(g, raw[i]).value);
      Gather(g, raw[..i + 1]) == next && (next.Err? ==> Gather(g, raw).Err?)
  {
    assert raw[..i] + [raw[i]] == raw[..i + 1];
    GatherAppend(g, raw[..i], raw[i]);
    if Gather(g, raw[..i + 1]).Err? { GatherPrefix(g, raw, i + 1); }
  }

  // ---- Order does not matter ---------------------------------------------

  ghost predicate Permutation(a: seq<string>, b: seq<string>) {
    multiset(a) == multiset(b)
  }

  lemma TwoPlaces(s: seq<string>, i: nat, j: nat)
    requires i < j < |s| && s[i] == s[j]
    ensures multiset(s)[s[i]] >= 2
  {
    assert s == s[..j] + s[j..];
    assert s[i] in multiset(s[..j]) by { assert s[..j][i] == s[i]; }
    assert s[i] in multiset(s[j..]) by { assert s[j..][0] == s[i]; }
  }

  lemma {:induction false} TwiceMeansTwoPlaces(s: seq<string>, e: string)
    requires multiset(s)[e] >= 2
    ensures exists i, j :: 0 <= i < j < |s| && s[i] == e && s[j] == e
    decreases |s|
  {
    var n := |s| - 1;
    assert s == s[..n] + [s[n]];
    if s[n] == e {
      assert e in multiset(s[..n]);
      var i :| 0 <= i < n && s[..n][i] == e;
      assert s[i] == e && s[n] == e;
    } else {
      TwiceMeansTwoPlaces(s[..n], e);
      var i, j :| 0 <= i < j < n && s[..n][i] == e && s[..n][j] == e;
      assert s[i] == e && s[j] == e;
    }
  }

  lemma SameMembers(a: seq<string>, b: seq<string>)
    requires Permutation(a, b)
    ensures forall e :: e in a <==> e in b
  {
    forall e ensures e in a <==> e in b {
      assert e in a <==> e in multiset(a);
      assert e in b <==> e in multiset(b);
    }
  }

  lemma SoundPermutes(g: Grammar, a: seq<string>, b: seq<string>)
    requires Permutation(a, b) && Sound(g, b)
    ensures Sound(g, a)
  {
    SameMembers(a, b);
    forall i | 0 <= i < |a| ensures Classify(g, a[i]).Ok? {
      assert a[i] in b;
    }
    forall i, j | 0 <= i < j < |a| && Classify(g, a[i]) == Classify(g, a[j])
      ensures Classify(g, a[i]).value.Sentinel?
    {
      if a[i] == a[j] {
        TwoPlaces(a, i, j);
        TwiceMeansTwoPlaces(b, a[i]);
      } else {
        assert a[i] in b && a[j] in b;
        var p :| 0 <= p < |b| && b[p] == a[i];
        var q :| 0 <= q < |b| && b[q] == a[j];
        assert p < q || q < p;
      }
    }
  }

  lemma GatherPermutes(g: Grammar, a: seq<string>, b: seq<string>)
    requires Permutation(a, b)
    ensures Gather(g, a) == Gather(g, b)
  {
    SameMembers(a, b);
    if Sound(g, a) { SoundPermutes(g, b, a); }
    if Sound(g, b) { SoundPermutes(g, a, b); }
    forall m ensures Says(g, a, m) <==> Says(g, b, m) {}
    assert WordsOf(g, a) == WordsOf(g, b);
    assert IncludedOf(g, a) == IncludedOf(g, b);
    assert ExcludedOf(g, a) == ExcludedOf(g, b);
  }
}
