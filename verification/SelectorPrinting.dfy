/** Printing a selection and reading it back. */
module SelectorPrinting {
  import opened Wrappers
  import opened Text
  import opened Ordering
  import opened SelectorGrammar
  import opened SelectorLists

  function Escaped(g: Grammar, names: seq<string>): (r: seq<string>)
    ensures |r| == |names| && forall i :: 0 <= i < |names| ==> r[i] == Escape(g, names[i])
  {
    if names == [] then [] else [Escape(g, names[0])] + Escaped(g, names[1..])
  }

  function Banged(names: seq<string>): (r: seq<string>)
    ensures |r| == |names| && forall i :: 0 <= i < |names| ==> r[i] == Bang(names[i])
  {
    if names == [] then [] else [Bang(names[0])] + Banged(names[1..])
  }

  /** Sentinels first, then the included names, then the exclusions. */
  function Printed(g: Grammar, words: seq<string>, included: set<string>, excluded: set<string>): seq<string> {
    words + Escaped(g, Ascending(included)) + Banged(Ascending(excluded))
  }

  function ToSet(words: seq<string>): set<string> {
    set w | w in words
  }

  ghost predicate Printable(g: Grammar, included: set<string>, excluded: set<string>) {
    && (forall n :: n in included ==> GoodInclude(g, n))
    && (forall n :: n in excluded ==> GoodExclude(g, n))
  }

  /** What the `i`-th printed entry is meant to say. */
  ghost function Meant(words: seq<string>, included: seq<string>, excluded: seq<string>, i: nat): Meaning
    requires i < |words| + |included| + |excluded|
  {
    if i < |words| then Sentinel(words[i])
    else if i < |words| + |included| then Include(included[i - |words|])
    else Exclude(excluded[i - |words| - |included|])
  }

  /** Which part of the printed list the `i`-th entry belongs to. */
  lemma EntryAt(g: Grammar, words: seq<string>, included: set<string>, excluded: set<string>, i: nat)
    requires i < |Printed(g, words, included, excluded)|
    ensures var inc, exc, e := Ascending(included), Ascending(excluded), Printed(g, words, included, excluded)[i];
      && |Printed(g, words, included, excluded)| == |words| + |inc| + |exc|
      && (i < |words| ==> e == words[i])
      && (|words| <= i < |words| + |inc| ==> e == Escape(g, inc[i - |words|]))
      && (|words| + |inc| <= i ==> e == Bang(exc[i - |words| - |inc|]))
  {}

  /** `e` is read as `m`. */
  ghost predicate ReadAs(g: Grammar, e: string, m: Meaning) {
    Classify(g, e) == Ok(m)
  }

  lemma ExclusionRead(g: Grammar, excluded: set<string>, k: nat) returns (e: string)
    requires ValidGrammar(g) && k < |Ascending(excluded)| && Printable(g, {}, excluded)
    ensures e == Bang(Ascending(excluded)[k]) && ReadAs(g, e, Exclude(Ascending(excluded)[k]))
  {
    var n := Ascending(excluded)[k];
    assert n in excluded;
    GoodExcludeReadsBack(g, n);
    e := Bang(n);
  }

  lemma InclusionRead(g: Grammar, included: set<string>, k: nat) returns (e: string)
    requires ValidGrammar(g) && k < |Ascending(included)| && Printable(g, included, {})
    ensures e == Escape(g, Ascending(included)[k]) && ReadAs(g, e, Include(Ascending(included)[k]))
  {
    var n := Ascending(included)[k];
    assert n in included;
    GoodIncludeReadsBack(g, n);
    e := Escape(g, n);
  }

  lemma EntryReadsBack(g: Grammar, words: seq<string>, included: set<string>, excluded: set<string>, i: nat)
    requires ValidGrammar(g) && forall w :: w in words ==> w in g.words
    requires Printable(g, included, excluded) && i < |Printed(g, words, included, excluded)|
    ensures ReadAs(g, Printed(g, words, included, excluded)[i],
                   Meant(words, Ascending(included), Ascending(excluded), i))
  {
    var inc, exc := Ascending(included), Ascending(excluded);
    EntryAt(g, words, included, excluded, i);
    if i < |words| {
      WordReadsBack(g, words[i]);
    } else if i < |words| + |inc| {
      var e := InclusionRead(g, included, i - |words|);
    } else {
      var e := ExclusionRead(g, excluded, i - |words| - |inc|);
    }
  }

  /** Everything the printed list says is something it was meant to say. */
  lemma SaysWhatWasMeant(g: Grammar, raw: seq<string>, words: seq<string>, inc: seq<string>, exc: seq<string>)
    requires |raw| == |words| + |inc| + |exc|
    requires forall i :: 0 <= i < |raw| ==> Classify(g, raw[i]) == Ok(Meant(words, inc, exc, i))
    ensures forall m :: Says(g, raw, m) <==> exists i :: 0 <= i < |raw| && Meant(words, inc, exc, i) == m
  {
    forall m ensures Says(g, raw, m) <==> exists i :: 0 <= i < |raw| && Meant(words, inc, exc, i) == m {
      if Says(g, raw, m) {
        var e :| e in raw && Classify(g, e) == Ok(m);
        var i :| 0 <= i < |raw| && raw[i] == e;
        assert Meant(words, inc, exc, i) == m;
      }
      if exists i :: 0 <= i < |raw| && Meant(words, inc, exc, i) == m {
        var i :| 0 <= i < |raw| && Meant(words, inc, exc, i) == m;
        assert raw[i] in raw;
      }
    }
  }

  /** Distinct things were meant, sentinels aside, and so distinct ones are said. */
  lemma MeantGathers(g: Grammar, raw: seq<string>, words: seq<string>, inc: seq<string>, exc: seq<string>)
    requires |raw| == |words| + |inc| + |exc|
    requires forall i :: 0 <= i < |raw| ==> Classify(g, raw[i]) == Ok(Meant(words, inc, exc, i))
    requires forall i, j :: 0 <= i < j < |inc| ==> inc[i] != inc[j]
    requires forall i, j :: 0 <= i < j < |exc| ==> exc[i] != exc[j]
    ensures Gather(g, raw) == Ok(Gathered(ToSet(words), ToSet(inc), ToSet(exc)))
  {
    assert Sound(g, raw);
    SaysWhatWasMeant(g, raw, words, inc, exc);
    MeantCovers(words, inc, exc);
    assert WordsOf(g, raw) == ToSet(words);
    assert IncludedOf(g, raw) == ToSet(inc);
    assert ExcludedOf(g, raw) == ToSet(exc);
  }

  /** Printable names come back, each as what it was. */
  lemma PrintedReadsBack(g: Grammar, words: seq<string>, included: set<string>, excluded: set<string>)
    requires ValidGrammar(g) && forall w :: w in words ==> w in g.words
    requires Printable(g, included, excluded)
    ensures Gather(g, Printed(g, words, included, excluded))
         == Ok(Gathered(ToSet(words), included, excluded))
  {
    var raw := Printed(g, words, included, excluded);
    var inc, exc := Ascending(included), Ascending(excluded);
    forall i | 0 <= i < |raw| ensures Classify(g, raw[i]) == Ok(Meant(words, inc, exc, i)) {
      EntryReadsBack(g, words, included, excluded, i);
    }
    MeantGathers(g, raw, words, inc, exc);
    assert ToSet(inc) == included && ToSet(exc) == excluded;
  }

  lemma MeantCovers(words: seq<string>, inc: seq<string>, exc: seq<string>)
    ensures var n := |words| + |inc| + |exc|;
            && (forall w :: w in words <==> exists i :: 0 <= i < n && Meant(words, inc, exc, i) == Sentinel(w))
            && (forall x :: x in inc <==> exists i :: 0 <= i < n && Meant(words, inc, exc, i) == Include(x))
            && (forall x :: x in exc <==> exists i :: 0 <= i < n && Meant(words, inc, exc, i) == Exclude(x))
  {
    forall w | w in words ensures exists i :: 0 <= i < |words| && Meant(words, inc, exc, i) == Sentinel(w) {
      var i :| 0 <= i < |words| && words[i] == w;
      assert Meant(words, inc, exc, i) == Sentinel(w);
    }
    forall x | x in inc
      ensures exists i :: 0 <= i < |words| + |inc| && Meant(words, inc, exc, i) == Include(x)
    {
      var i :| 0 <= i < |inc| && inc[i] == x;
      assert Meant(words, inc, exc, |words| + i) == Include(x);
    }
    forall x | x in exc
      ensures exists i :: 0 <= i < |words| + |inc| + |exc| && Meant(words, inc, exc, i) == Exclude(x)
    {
      var i :| 0 <= i < |exc| && exc[i] == x;
      assert Meant(words, inc, exc, |words| + |inc| + i) == Exclude(x);
    }
  }

  // ---- The converse ------------------------------------------------------

  lemma BangNeverIncludes(g: Grammar, x: string, name: string)
    ensures Classify(g, Bang(x)) != Ok(Include(name))
  {
    TrimKeepsHead(Bang(x));
  }

  /** The three kinds of printed entries. */
  lemma EntryKind(g: Grammar, words: seq<string>, included: set<string>, excluded: set<string>, e: string)
    requires e in Printed(g, words, included, excluded)
    ensures
      || e in words
      || (exists n :: n in included && e == Escape(g, n))
      || (exists n :: n in excluded && e == Bang(n))
  {
    var raw, inc, exc := Printed(g, words, included, excluded), Ascending(included), Ascending(excluded);
    var i :| 0 <= i < |raw| && raw[i] == e;
    if i < |words| {
      assert e == words[i];
    } else if i < |words| + |inc| {
      var n := inc[i - |words|];
      assert e == Escaped(g, inc)[i - |words|] == Escape(g, n);
      assert n in inc && n in included;
    } else {
      var n := exc[i - |words| - |inc|];
      assert e == Banged(exc)[i - |words| - |inc|] == Bang(n);
      assert n in exc && n in excluded;
    }
  }

  /** The included name behind an entry that reads as an inclusion. */
  lemma IncludedComesFromName(
    g: Grammar, words: seq<string>, included: set<string>, excluded: set<string>, name: string)
    requires ValidGrammar(g) && forall w :: w in words ==> w in g.words
    requires Says(g, Printed(g, words, included, excluded), Include(name))
    ensures exists n :: n in included && Classify(g, Escape(g, n)) == Ok(Include(name))
  {
    var e :| e in Printed(g, words, included, excluded) && Classify(g, e) == Ok(Include(name));
    EntryKind(g, words, included, excluded, e);
    if e in words {
      WordReadsBack(g, e);
    } else if exists n :: n in excluded && e == Bang(n) {
      var n :| n in excluded && e == Bang(n);
      BangNeverIncludes(g, n, name);
    }
  }

  /** If every included name is read back, none begins with white space: the
      longest that did would have to come from a longer one. */
  lemma {:induction false} NoLeadingSpace(
    g: Grammar, words: seq<string>, included: set<string>, excluded: set<string>, name: string)
    requires ValidGrammar(g) && forall w :: w in words ==> w in g.words
    requires forall n :: n in included ==> Says(g, Printed(g, words, included, excluded), Include(n))
    requires name in included
    ensures GoodInclude(g, name)
    decreases set x | x in included && |x| > |name|
  {
    IncludedComesFromName(g, words, included, excluded, name);
    var n :| n in included && Classify(g, Escape(g, n)) == Ok(Include(name));
    ProducedInclude(g, Escape(g, n), name);
    if IsSpace(name[0]) {
      EscapeGrows(g, n, name);
      var longer, longest := set x | x in included && |x| > |name|, set x | x in included && |x| > |n|;
      assert longest <= longer && n in longer && n !in longest;
      NoLeadingSpace(g, words, included, excluded, n);
      EscapeReadsBack(g, n);
    }
  }

  /** Printed names come back as they were only if they were printable. */
  lemma ReadBackMeansPrintable(g: Grammar, words: seq<string>, included: set<string>, excluded: set<string>)
    requires ValidGrammar(g) && forall w :: w in words ==> w in g.words
    requires Gather(g, Printed(g, words, included, excluded)).Ok?
    requires Gather(g, Printed(g, words, included, excluded)).value.included == included
    requires Gather(g, Printed(g, words, included, excluded)).value.excluded == excluded
    ensures Printable(g, included, excluded)
  {
    var raw := Printed(g, words, included, excluded);
    forall n | n in included ensures GoodInclude(g, n) {
      NoLeadingSpace(g, words, included, excluded, n);
    }
    forall n | n in excluded ensures GoodExclude(g, n) {
      assert Says(g, raw, Exclude(n));
      var e :| e in raw && Classify(g, e) == Ok(Exclude(n));
      ProducedExclude(g, e, n);
    }
  }

  /** The two directions together. */
  lemma PrintedIff(g: Grammar, words: seq<string>, included: set<string>, excluded: set<string>)
    requires ValidGrammar(g) && forall w :: w in words ==> w in g.words
    ensures var so := Gather(g, Printed(g, words, included, excluded));
            && (Printable(g, included, excluded) ==> so == Ok(Gathered(ToSet(words), included, excluded)))
            && (so.Ok? && so.value.included == included && so.value.excluded == excluded ==>
                  Printable(g, included, excluded))
    ensures Printed(g, words, included, excluded) == [] ==> words == [] && included == {} && excluded == {}
  {
    var so := Gather(g, Printed(g, words, included, excluded));
    if Printable(g, included, excluded) {
      PrintedReadsBack(g, words, included, excluded);
    } else if so.Ok? && so.value.included == included && so.value.excluded == excluded {
      ReadBackMeansPrintable(g, words, included, excluded);
    }
    if Printed(g, words, included, excluded) == [] {
      assert |Ascending(included)| == 0 && |Ascending(excluded)| == 0;
    }
  }

  /** What was read from any list is printable exactly when the list has no
      `=` literal that begins with white space. */
  lemma GatheredPrintable(g: Grammar, raw: seq<string>)
    requires ValidGrammar(g) && Gather(g, raw).Ok?
    ensures var so := Gather(g, raw).value;
            Printable(g, so.included, so.excluded) <==> forall e :: e in raw ==> !SpacedLiteral(e)
  {
    var so := Gather(g, raw).value;
    forall n | n in so.excluded ensures GoodExclude(g, n) {
      var e :| e in raw && Classify(g, e) == Ok(Exclude(n));
      ProducedExclude(g, e, n);
    }
    if forall e :: e in raw ==> !SpacedLiteral(e) {
      forall n | n in so.included ensures GoodInclude(g, n) {
        var e :| e in raw && Classify(g, e) == Ok(Include(n));
        ProducedInclude(g, e, n);
      }
    }
    if Printable(g, so.included, so.excluded) {
      forall e | e in raw ensures !SpacedLiteral(e) {
        if SpacedLiteral(e) {
          SpacedLiteralIncludes(g, e);
          assert Says(g, raw, Include(Trim(e)[1..]));
        }
      }
    }
  }

  lemma SpacedLiteralIncludes(g: Grammar, e: string)
    requires SpacedLiteral(e) && Classify(g, e).Ok?
    ensures Classify(g, e) == Ok(Include(Trim(e)[1..])) && IsSpace(Trim(e)[1..][0])
  {}
}
