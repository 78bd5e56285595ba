/** The album, smart-folder and library selectors: parsers and printers. The
    reserved words are a value `v`, so that everything here is about their
    roles; `SPELLINGS` gives the actual words. */
module Selection {
  import opened Wrappers
  import opened Text
  import opened Ordering
  import opened SelectorGrammar
  import opened SelectorLists
  import opened SelectorPrinting

  datatype Vocabulary = Vocabulary(
    all: string, allWithSensitive: string, none: string, primary: string, shared: string)

  const SPELLINGS := Vocabulary("all", "all-with-sensitive", "none", "primary", "shared")

  ghost predicate ValidVocabulary(v: Vocabulary) {
    && ValidWord(v.all) && ValidWord(v.allWithSensitive) && ValidWord(v.none)
    && ValidWord(v.primary) && ValidWord(v.shared)
    && v.all !in {v.allWithSensitive, v.none, v.primary, v.shared}
    && v.none !in {v.allWithSensitive, v.primary, v.shared}
    && v.primary != v.shared
  }

  lemma SpellingsAreValid()
    ensures ValidVocabulary(SPELLINGS)
    ensures SPELLINGS.all == "all" && SPELLINGS.allWithSensitive == "all-with-sensitive"
    ensures SPELLINGS.none == "none" && SPELLINGS.primary == "primary" && SPELLINGS.shared == "shared"
  {
    AllIsWord();
    SensitiveIsWord();
    NoneIsWord();
    PrimaryIsWord();
    SharedIsWord();
  }

  lemma AllIsWord()
    ensures ValidWord("all") && |"all"| == 3
  {
    PlainWord("all");
  }

  lemma SensitiveIsWord()
    ensures ValidWord("all-with-sensitive") && |"all-with-sensitive"| == 18
  {
    PlainWord("all-with-sensitive");
  }

  lemma NoneIsWord()
    ensures ValidWord("none") && |"none"| == 4
  {
    PlainWord("none");
  }

  lemma PrimaryIsWord()
    ensures ValidWord("primary") && |"primary"| == 7
  {
    PlainWord("primary");
  }

  lemma SharedIsWord()
    ensures ValidWord("shared") && |"shared"| == 6
  {
    PlainWord("shared");
  }

  function Flag(on: bool, word: string): set<string> {
    if on then {word} else {}
  }

  ghost predicate NoSpacedLiteral(raw: seq<string>) {
    forall e :: e in raw ==> !SpacedLiteral(e)
  }

  /** No name is both included and excluded. */
  ghost predicate Consistent(g: Grammar, raw: seq<string>) {
    forall n :: !(Says(g, raw, Include(n)) && Says(g, raw, Exclude(n)))
  }

  /** If `none` is said, nothing else is. */
  ghost predicate NoneAlone(g: Grammar, v: Vocabulary, raw: seq<string>) {
    Says(g, raw, Sentinel(v.none)) ==> forall m :: Says(g, raw, m) ==> m == Sentinel(v.none)
  }

  ghost predicate AllWithoutNames(g: Grammar, raw: seq<string>, word: string) {
    Says(g, raw, Sentinel(word)) ==> forall n :: !Says(g, raw, Include(n))
  }

  /** The sets gathered from a sound list, back in terms of its entries. */
  lemma ReadOffEntries(g: Grammar, v: Vocabulary, raw: seq<string>)
    requires Sound(g, raw)
    ensures var so := Gather(g, raw).value;
      && (so.included * so.excluded == {} <==> Consistent(g, raw))
      && (so.included == {} <==> forall n :: !Says(g, raw, Include(n)))
      && (so.excluded == {} <==> forall n :: !Says(g, raw, Exclude(n)))
      && (v.none in so.words ==>
            (NoneAlone(g, v, raw) <==> so.words == {v.none} && so.included == {} && so.excluded == {}))
  {
    var so := Gather(g, raw).value;
    if so.included * so.excluded == {} {
      forall n ensures !(Says(g, raw, Include(n)) && Says(g, raw, Exclude(n))) {
        assert n !in so.included * so.excluded;
      }
    }
    if v.none in so.words && NoneAlone(g, v, raw) {
      forall w | w in so.words ensures w == v.none { assert Says(g, raw, Sentinel(w)); }
    }
  }

  lemma SaidInGrammar(g: Grammar, raw: seq<string>)
    ensures forall w :: Says(g, raw, Sentinel(w)) ==> w in g.words
  {}

  lemma SentinelInGrammar(g: Grammar, entry: string)
    requires Classify(g, entry).Ok? && Classify(g, entry).value.Sentinel?
    ensures Classify(g, entry).value.word in g.words
  {}

  lemma FlagsGrow(a: bool, b: bool, x: string, y: string, word: string)
    requires word == x || word == y
    ensures Flag(a, x) + Flag(b, y) + {word} == Flag(a || word == x, x) + Flag(b || word == y, y)
  {}

  // ---- Albums ------------------------------------------------------------

  datatype AlbumSelector =
    | NoAlbums
    | AllAlbums(excluded: set<string>)
    | NamedAlbums(included: set<string>, excluded: set<string>)

  function AlbumGrammar(v: Vocabulary): Grammar {
    Grammar({v.all, v.none}, {}, false)
  }

  /** The rules that apply once all entries have been read. */
  function AlbumsFrom(v: Vocabulary, so: Gathered): Result<AlbumSelector> {
    if so.included * so.excluded != {} then Err
    else if v.none in so.words then
      if v.all !in so.words && so.included == {} && so.excluded == {} then Ok(NoAlbums) else Err
    else if v.all in so.words then
      if so.included == {} then Ok(AllAlbums(so.excluded)) else Err
    else if so.included != {} then Ok(NamedAlbums(so.included, so.excluded))
    else Ok(AllAlbums(so.excluded))
  }

  ghost function AlbumsOf(v: Vocabulary, raw: seq<string>, defaultToAll: bool): Result<AlbumSelector> {
    if raw == [] then Ok(if defaultToAll then AllAlbums({}) else NoAlbums)
    else
      var so := Gather(AlbumGrammar(v), raw);
      if so.Err? then Err else AlbumsFrom(v, so.value)
  }

  method ParseAlbumSelector(v: Vocabulary, raw: seq<string>, defaultToAll: bool) returns (r: Result<AlbumSelector>)
    requires ValidVocabulary(v)
    ensures r == AlbumsOf(v, raw, defaultToAll)
  {
    if raw == [] {
      return Ok(if defaultToAll then AllAlbums({}) else NoAlbums);
    }
    ghost var g := AlbumGrammar(v);
    var hasAll, hasNone := false, false;
    var included: set<string>, excluded: set<string> := {}, {};
    GatherNothing(g, raw);
    assert Flag(hasAll, v.all) + Flag(hasNone, v.none) == {};
    for i := 0 to |raw|
      invariant Gather(g, raw[..i]) == Ok(Gathered(Flag(hasAll, v.all) + Flag(hasNone, v.none), included, excluded))
    {
      NextEntry(g, raw, i);
      var meaning := Classify(AlbumGrammar(v), raw[i]);
      if meaning.Err? { return Err; }
      match meaning.value {
        case Sentinel(word) =>
          SentinelInGrammar(g, raw[i]);
          FlagsGrow(hasAll, hasNone, v.all, v.none, word);
          if word == v.all { hasAll := true; } else { hasNone := true; }
        case Exclude(name) =>
          if name in excluded { return Err; }
          excluded := excluded + {name};
        case Include(name) =>
          if name in included { return Err; }
          included := included + {name};
      }
    }
    assert raw[..|raw|] == raw;
    return AlbumsFrom(v, Gathered(Flag(hasAll, v.all) + Flag(hasNone, v.none), included, excluded));
  }

  function AlbumWords(v: Vocabulary, s: AlbumSelector): seq<string> {
    match s
    case NoAlbums => [v.none]
    case AllAlbums(_) => [v.all]
    case NamedAlbums(_, _) => []
  }

  function AlbumIncluded(s: AlbumSelector): set<string> {
    if s.NamedAlbums? then s.included else {}
  }

  function AlbumExcluded(s: AlbumSelector): set<string> {
    if s.NoAlbums? then {} else s.excluded
  }

  function AlbumsToRaw(v: Vocabulary, s: AlbumSelector): seq<string> {
    Printed(AlbumGrammar(v), AlbumWords(v, s), AlbumIncluded(s), AlbumExcluded(s))
  }

  ghost predicate WellFormedAlbums(v: Vocabulary, s: AlbumSelector) {
    && Printable(AlbumGrammar(v), AlbumIncluded(s), AlbumExcluded(s))
    && (s.NamedAlbums? ==> s.included != {} && s.included * s.excluded == {})
  }

  /** The rules bring a selector back from its own parts and from no others:
      `so` stands for what was read and `printable` for whether it can be. */
  lemma AlbumsDecide(v: Vocabulary, s: AlbumSelector, so: Result<Gathered>, printable: bool)
    requires ValidVocabulary(v)
    requires printable ==> so == Ok(Gathered(ToSet(AlbumWords(v, s)), AlbumIncluded(s), AlbumExcluded(s)))
    requires so.Ok? && so.value.included == AlbumIncluded(s) && so.value.excluded == AlbumExcluded(s) ==> printable
    requires s.NoAlbums? ==> printable
    ensures (so.Ok? && AlbumsFrom(v, so.value) == Ok(s)) <==>
      printable && (s.NamedAlbums? ==> s.included != {} && s.included * s.excluded == {})
  {
    assert ToSet([v.none]) == {v.none} && ToSet([v.all]) == {v.all} && ToSet([]) == {};
  }

  /** Printing and reading back restores a selector exactly when its names are
      printable, disjoint and, for named albums, present. */
  lemma AlbumsRoundTrip(v: Vocabulary, s: AlbumSelector)
    requires ValidVocabulary(v)
    ensures AlbumsOf(v, AlbumsToRaw(v, s), true) == Ok(s) <==> WellFormedAlbums(v, s)
  {
    var g := AlbumGrammar(v);
    PrintedIff(g, AlbumWords(v, s), AlbumIncluded(s), AlbumExcluded(s));
    AlbumsDecide(v, s, Gather(g, AlbumsToRaw(v, s)), Printable(g, AlbumIncluded(s), AlbumExcluded(s)));
  }

  lemma AlbumsKeepNames(v: Vocabulary, so: Gathered)
    requires AlbumsFrom(v, so).Ok?
    ensures var s := AlbumsFrom(v, so).value;
            && AlbumIncluded(s) == so.included && AlbumExcluded(s) == so.excluded
            && (s.NamedAlbums? ==> s.included != {} && s.included * s.excluded == {})
  {}

  /** What any accepted list yields is well formed unless a literal in it
      begins with white space. */
  lemma AcceptedAlbums(v: Vocabulary, raw: seq<string>, defaultToAll: bool)
    requires ValidVocabulary(v) && AlbumsOf(v, raw, defaultToAll).Ok?
    ensures WellFormedAlbums(v, AlbumsOf(v, raw, defaultToAll).value) <==> NoSpacedLiteral(raw)
  {
    if raw != [] {
      GatheredPrintable(AlbumGrammar(v), raw);
      AlbumsKeepNames(v, Gather(AlbumGrammar(v), raw).value);
    }
  }

  /** Reading, printing and reading again is a fixpoint exactly for such lists. */
  lemma AlbumsPrintFixpoint(v: Vocabulary, raw: seq<string>, defaultToAll: bool)
    requires ValidVocabulary(v) && AlbumsOf(v, raw, defaultToAll).Ok?
    ensures AlbumsOf(v, AlbumsToRaw(v, AlbumsOf(v, raw, defaultToAll).value), true) == AlbumsOf(v, raw, defaultToAll)
       <==> NoSpacedLiteral(raw)
  {
    AcceptedAlbums(v, raw, defaultToAll);
    AlbumsRoundTrip(v, AlbumsOf(v, raw, defaultToAll).value);
  }

  lemma AlbumsToRawInjective(v: Vocabulary, s: AlbumSelector, t: AlbumSelector)
    requires ValidVocabulary(v)
    ensures WellFormedAlbums(v, s) && WellFormedAlbums(v, t) && AlbumsToRaw(v, s) == AlbumsToRaw(v, t) ==> s == t
  {
    AlbumsRoundTrip(v, s);
    AlbumsRoundTrip(v, t);
  }

  lemma AlbumsFromSets(v: Vocabulary, so: Gathered)
    requires ValidVocabulary(v)
    ensures var r, alone := AlbumsFrom(v, so), so.words == {v.none} && so.included == {} && so.excluded == {};
      && (so.words <= {v.all, v.none} ==>
            (r.Ok? <==> so.included * so.excluded == {} && (v.none in so.words ==> alone)
                        && (v.all in so.words ==> so.included == {})))
      && (so.words <= {v.all, v.none} ==> (r == Ok(NoAlbums) <==> alone))
      && (r.Ok? ==>
            && AlbumIncluded(r.value) == so.included && AlbumExcluded(r.value) == so.excluded
            && (r.value.NamedAlbums? <==> so.included != {}))
  {
    if so.words <= {v.all, v.none} && v.none in so.words && v.all !in so.words {
      assert so.words == {v.none};
    }
  }

  /** Which lists are accepted and what they select, entry by entry. */
  lemma AlbumsMeaning(v: Vocabulary, raw: seq<string>, defaultToAll: bool)
    requires ValidVocabulary(v) && raw != []
    ensures var g, r := AlbumGrammar(v), AlbumsOf(v, raw, defaultToAll);
      && (r.Ok? <==> Sound(g, raw) && Consistent(g, raw) && NoneAlone(g, v, raw) && AllWithoutNames(g, raw, v.all))
      && (r == Ok(NoAlbums) <==> Sound(g, raw) && Says(g, raw, Sentinel(v.none)) && NoneAlone(g, v, raw))
      && (r.Ok? ==>
            && AlbumIncluded(r.value) == IncludedOf(g, raw) && AlbumExcluded(r.value) == ExcludedOf(g, raw)
            && (r.value.NamedAlbums? <==> exists n :: Says(g, raw, Include(n))))
  {
    var g := AlbumGrammar(v);
    if Sound(g, raw) {
      var so := Gather(g, raw).value;
      AlbumsFromSets(v, so);
      ReadOffEntries(g, v, raw);
      SaidInGrammar(g, raw);
    }
  }

  lemma AlbumsOrderIndependent(v: Vocabulary, a: seq<string>, b: seq<string>, defaultToAll: bool)
    requires Permutation(a, b)
    ensures AlbumsOf(v, a, defaultToAll) == AlbumsOf(v, b, defaultToAll)
  {
    GatherPermutes(AlbumGrammar(v), a, b);
    assert |a| == |multiset(a)| == |multiset(b)| == |b|;
  }

  lemma SpacedLiteralNames(v: Vocabulary)
    requires ValidVocabulary(v)
    ensures var name := [' '] + v.all;
            Classify(AlbumGrammar(v), ['='] + name) == Ok(Include(name))
  {
    MarkedName('=', [' '] + v.all);
  }

  lemma SpacedNameReadsAsWord(v: Vocabulary)
    requires ValidVocabulary(v)
    ensures var g, name := AlbumGrammar(v), [' '] + v.all;
            Escape(g, name) == name && Classify(g, name) == Ok(Sentinel(v.all))
  {
    var g, name := AlbumGrammar(v), [' '] + v.all;
    assert Lower(name)[0] == ' ';
    assert name[1..] == v.all && TrimStart(name) == TrimStart(v.all);
    WordReadsBack(g, v.all);
    assert Trim(name) == Trim(v.all);
  }

  /** The case the condition shuts out: the literal `= all` names an album with
      a leading space, which prints without its `=` and reads as the word. */
  lemma SpacedLiteralTrap(v: Vocabulary)
    requires ValidVocabulary(v)
    ensures var g, name := AlbumGrammar(v), [' '] + v.all;
            && AlbumsOf(v, [['='] + name], true) == Ok(NamedAlbums({name}, {}))
            && AlbumsOf(v, [Escape(g, name)], true) == Ok(AllAlbums({}))
  {
    var g, name := AlbumGrammar(v), [' '] + v.all;
    SpacedLiteralNames(v);
    SpacedNameReadsAsWord(v);
    GatherOne(g, ['='] + name);
    GatherOne(g, name);
    assert {} + {name} == {name} && {name} * {} == {} && {} + {v.all} == {v.all};
  }

  // ---- Smart folders -----------------------------------------------------

  datatype SmartFolderSelector =
    | NoFolders
    | AllFolders(includeSensitive: bool, excluded: set<string>)
    | NamedFolders(included: set<string>, excluded: set<string>)

  function SmartGrammar(v: Vocabulary): Grammar {
    Grammar({v.all, v.allWithSensitive, v.none}, {}, false)
  }

  function SmartFrom(v: Vocabulary, so: Gathered): Result<SmartFolderSelector> {
    var hasAll, hasAllSensitive, hasNone := v.all in so.words, v.allWithSensitive in so.words, v.none in so.words;
    if so.included * so.excluded != {} then Err
    else if hasNone then
      if !hasAll && !hasAllSensitive && so.included == {} && so.excluded == {} then Ok(NoFolders) else Err
    else if hasAll || hasAllSensitive then
      if (hasAll && hasAllSensitive) || so.included != {} then Err
      else Ok(AllFolders(hasAllSensitive, so.excluded))
    else if so.included != {} then Ok(NamedFolders(so.included, so.excluded))
    else Ok(AllFolders(false, so.excluded))
  }

  ghost function SmartFoldersOf(v: Vocabulary, raw: seq<string>): Result<SmartFolderSelector> {
    if raw == [] then Ok(NoFolders)
    else
      var so := Gather(SmartGrammar(v), raw);
      if so.Err? then Err else SmartFrom(v, so.value)
  }

  method ParseSmartFolderSelector(v: Vocabulary, raw: seq<string>) returns (r: Result<SmartFolderSelector>)
    requires ValidVocabulary(v)
    ensures r == SmartFoldersOf(v, raw)
  {
    if raw == [] { return Ok(NoFolders); }
    var g := SmartGrammar(v);
    var words: set<string>, included: set<string>, excluded: set<string> := {}, {}, {};
    GatherNothing(g, raw);
    for i := 0 to |raw|
      invariant Gather(g, raw[..i]) == Ok(Gathered(words, included, excluded))
    {
      NextEntry(g, raw, i);
      var meaning := Classify(g, raw[i]);
      if meaning.Err? { return Err; }
      match meaning.value {
        case Sentinel(word) => words := words + {word};
        case Exclude(name) =>
          if name in excluded { return Err; }
          excluded := excluded + {name};
        case Include(name) =>
          if name in included { return Err; }
          included := included + {name};
      }
    }
    assert raw[..|raw|] == raw;
    return SmartFrom(v, Gathered(words, included, excluded));
  }

  function SmartWords(v: Vocabulary, s: SmartFolderSelector): seq<string> {
    if s.AllFolders? then [if s.includeSensitive then v.allWithSensitive else v.all] else []
  }

  function SmartIncluded(s: SmartFolderSelector): set<string> {
    if s.NamedFolders? then s.included else {}
  }

  function SmartExcluded(s: SmartFolderSelector): set<string> {
    if s.NoFolders? then {} else s.excluded
  }

  function SmartFoldersToRaw(v: Vocabulary, s: SmartFolderSelector): seq<string> {
    if s.NoFolders? then []
    else Printed(SmartGrammar(v), SmartWords(v, s), SmartIncluded(s), SmartExcluded(s))
  }

  ghost predicate WellFormedFolders(v: Vocabulary, s: SmartFolderSelector) {
    && Printable(SmartGrammar(v), SmartIncluded(s), SmartExcluded(s))
    && (s.NamedFolders? ==> s.included != {} && s.included * s.excluded == {})
  }

  lemma SmartDecide(v: Vocabulary, s: SmartFolderSelector, so: Result<Gathered>, printable: bool)
    requires ValidVocabulary(v) && !s.NoFolders?
    requires printable ==> so == Ok(Gathered(ToSet(SmartWords(v, s)), SmartIncluded(s), SmartExcluded(s)))
    requires so.Ok? && so.value.included == SmartIncluded(s) && so.value.excluded == SmartExcluded(s) ==> printable
    ensures (so.Ok? && SmartFrom(v, so.value) == Ok(s)) <==>
      printable && (s.NamedFolders? ==> s.included != {} && s.included * s.excluded == {})
  {
    assert ToSet([v.all]) == {v.all} && ToSet([v.allWithSensitive]) == {v.allWithSensitive} && ToSet([]) == {};
  }

  lemma SmartFoldersRoundTrip(v: Vocabulary, s: SmartFolderSelector)
    requires ValidVocabulary(v)
    ensures SmartFoldersOf(v, SmartFoldersToRaw(v, s)) == Ok(s) <==> WellFormedFolders(v, s)
  {
    if !s.NoFolders? {
      var g := SmartGrammar(v);
      PrintedIff(g, SmartWords(v, s), SmartIncluded(s), SmartExcluded(s));
      SmartDecide(v, s, Gather(g, SmartFoldersToRaw(v, s)), Printable(g, SmartIncluded(s), SmartExcluded(s)));
    }
  }

  lemma SmartKeepsNames(v: Vocabulary, so: Gathered)
    requires SmartFrom(v, so).Ok?
    ensures var s := SmartFrom(v, so).value;
            && SmartIncluded(s) == so.included && SmartExcluded(s) == so.excluded
            && (s.NamedFolders? ==> s.included != {} && s.included * s.excluded == {})
  {}

  lemma AcceptedFolders(v: Vocabulary, raw: seq<string>)
    requires ValidVocabulary(v) && SmartFoldersOf(v, raw).Ok?
    ensures WellFormedFolders(v, SmartFoldersOf(v, raw).value) <==> NoSpacedLiteral(raw)
  {
    if raw != [] {
      GatheredPrintable(SmartGrammar(v), raw);
      SmartKeepsNames(v, Gather(SmartGrammar(v), raw).value);
    }
  }

  lemma SmartFoldersPrintFixpoint(v: Vocabulary, raw: seq<string>)
    requires ValidVocabulary(v) && SmartFoldersOf(v, raw).Ok?
    ensures SmartFoldersOf(v, SmartFoldersToRaw(v, SmartFoldersOf(v, raw).value)) == SmartFoldersOf(v, raw)
       <==> NoSpacedLiteral(raw)
  {
    AcceptedFolders(v, raw);
    SmartFoldersRoundTrip(v, SmartFoldersOf(v, raw).value);
  }

  lemma SmartFoldersToRawInjective(v: Vocabulary, s: SmartFolderSelector, t: SmartFolderSelector)
    requires ValidVocabulary(v)
    ensures WellFormedFolders(v, s) && WellFormedFolders(v, t) ==>
      SmartFoldersToRaw(v, s) == SmartFoldersToRaw(v, t) ==> s == t
  {
    SmartFoldersRoundTrip(v, s);
    SmartFoldersRoundTrip(v, t);
  }

  lemma SmartFromSets(v: Vocabulary, so: Gathered)
    requires ValidVocabulary(v)
    ensures var r, alone := SmartFrom(v, so), so.words == {v.none} && so.included == {} && so.excluded == {};
      && (so.words <= {v.all, v.allWithSensitive, v.none} ==>
            (r.Ok? <==> so.included * so.excluded == {} && (v.none in so.words ==> alone)
                        && (v.all in so.words || v.allWithSensitive in so.words ==> so.included == {})
                        && !(v.all in so.words && v.allWithSensitive in so.words)))
      && (so.words <= {v.all, v.allWithSensitive, v.none} ==> (r == Ok(NoFolders) <==> alone))
      && (r.Ok? ==>
            && SmartIncluded(r.value) == so.included && SmartExcluded(r.value) == so.excluded
            && (r.value.NamedFolders? <==> so.included != {})
            && (r.value.AllFolders? ==> (r.value.includeSensitive <==> v.allWithSensitive in so.words)))
  {
    if so.words <= {v.all, v.allWithSensitive, v.none} && v.none in so.words
       && v.all !in so.words && v.allWithSensitive !in so.words {
      assert so.words == {v.none};
    }
  }

  /** Which lists are accepted and what they select, entry by entry: the two
      `all` words exclude each other. */
  lemma SmartFoldersMeaning(v: Vocabulary, raw: seq<string>)
    requires ValidVocabulary(v) && raw != []
    ensures var g, r := SmartGrammar(v), SmartFoldersOf(v, raw);
      && (r.Ok? <==>
            && Sound(g, raw) && Consistent(g, raw) && NoneAlone(g, v, raw)
            && AllWithoutNames(g, raw, v.all) && AllWithoutNames(g, raw, v.allWithSensitive)
            && !(Says(g, raw, Sentinel(v.all)) && Says(g, raw, Sentinel(v.allWithSensitive))))
      && (r == Ok(NoFolders) <==> Sound(g, raw) && Says(g, raw, Sentinel(v.none)) && NoneAlone(g, v, raw))
      && (r.Ok? ==>
            && SmartIncluded(r.value) == IncludedOf(g, raw) && SmartExcluded(r.value) == ExcludedOf(g, raw)
            && (r.value.NamedFolders? <==> exists n :: Says(g, raw, Include(n)))
            && (r.value.AllFolders? ==> (r.value.includeSensitive <==> Says(g, raw, Sentinel(v.allWithSensitive)))))
  {
    var g := SmartGrammar(v);
    if Sound(g, raw) {
      SmartFromSets(v, Gather(g, raw).value);
      ReadOffEntries(g, v, raw);
      SaidInGrammar(g, raw);
    }
  }

  lemma SmartFoldersOrderIndependent(v: Vocabulary, a: seq<string>, b: seq<string>)
    requires Permutation(a, b)
    ensures SmartFoldersOf(v, a) == SmartFoldersOf(v, b)
  {
    GatherPermutes(SmartGrammar(v), a, b);
    assert |a| == |multiset(a)| == |multiset(b)| == |b|;
  }

  // ---- Libraries ---------------------------------------------------------

  datatype LibrarySelector = LibrarySelector(
    primary: bool, sharedAll: bool, named: set<string>, excluded: set<string>)
  {
    predicate IsEmpty() {
      !primary && !sharedAll && named == {}
    }
  }

  const DEFAULT_LIBRARIES := LibrarySelector(true, false, {}, {})

  function LibraryGrammar(v: Vocabulary): Grammar {
    Grammar({v.all, v.none, v.primary, v.shared}, {v.primary, v.shared}, true)
  }

  /** `none` is never allowed; exclusions alone imply the primary library. */
  function LibrariesFrom(v: Vocabulary, so: Gathered): Result<LibrarySelector> {
    if v.none in so.words then Err
    else
      var sel := LibrarySelector(
        v.primary in so.words || v.all in so.words,
        v.shared in so.words || v.all in so.words,
        so.included, so.excluded);
      var implied := if sel.IsEmpty() && sel.excluded != {} then sel.(primary := true) else sel;
      if so.included * so.excluded != {} || implied.IsEmpty() then Err else Ok(implied)
  }

  ghost function LibrariesOf(v: Vocabulary, raw: seq<string>): Result<LibrarySelector> {
    if raw == [] then Ok(DEFAULT_LIBRARIES)
    else
      var so := Gather(LibraryGrammar(v), raw);
      if so.Err? then Err else LibrariesFrom(v, so.value)
  }

  method ParseLibrarySelector(v: Vocabulary, raw: seq<string>) returns (r: Result<LibrarySelector>)
    requires ValidVocabulary(v)
    ensures r == LibrariesOf(v, raw)
  {
    if raw == [] { return Ok(DEFAULT_LIBRARIES); }
    var g := LibraryGrammar(v);
    var words: set<string> := {};
    var sel := LibrarySelector(false, false, {}, {});
    GatherNothing(g, raw);
    for i := 0 to |raw|
      invariant Gather(g, raw[..i]) == Ok(Gathered(words, sel.named, sel.excluded))
    {
      NextEntry(g, raw, i);
      var meaning := Classify(g, raw[i]);
      if meaning.Err? { return Err; }
      match meaning.value {
        case Sentinel(word) => words := words + {word};
        case Exclude(name) =>
          if name in sel.excluded { return Err; }
          sel := sel.(excluded := sel.excluded + {name});
        case Include(name) =>
          if name in sel.named { return Err; }
          sel := sel.(named := sel.named + {name});
      }
    }
    assert raw[..|raw|] == raw;
    return LibrariesFrom(v, Gathered(words, sel.named, sel.excluded));
  }

  /** Which lists are accepted, entry by entry, and what they select: a list of
      exclusions alone selects the primary library, and no accepted list
      selects nothing. */
  lemma LibrariesMeaning(v: Vocabulary, raw: seq<string>)
    requires ValidVocabulary(v) && raw != []
    ensures var g, r := LibraryGrammar(v), LibrariesOf(v, raw);
      && (r.Ok? <==> Sound(g, raw) && Consistent(g, raw) && !Says(g, raw, Sentinel(v.none)))
      && (r.Ok? ==>
            var all := Says(g, raw, Sentinel(v.all));
            && !r.value.IsEmpty()
            && r.value.named == IncludedOf(g, raw) && r.value.excluded == ExcludedOf(g, raw)
            && (r.value.sharedAll <==> all || Says(g, raw, Sentinel(v.shared)))
            && (r.value.primary <==>
                  all || Says(g, raw, Sentinel(v.primary)) || forall e :: e in raw ==> Classify(g, e).value.Exclude?))
  {
    var g := LibraryGrammar(v);
    if Sound(g, raw) {
      ReadOffEntries(g, v, raw);
      SaidInGrammar(g, raw);
      OnlyExclusions(g, raw);
      SomethingSaid(g, raw);
    }
  }

  lemma OnlyExclusions(g: Grammar, raw: seq<string>)
    requires Sound(g, raw)
    ensures (forall e :: e in raw ==> Classify(g, e).value.Exclude?) <==>
      IncludedOf(g, raw) == {} && WordsOf(g, raw) == {}
  {
    forall e | e in raw ensures Classify(g, e).Ok? && Says(g, raw, Classify(g, e).value) {}
    if IncludedOf(g, raw) == {} && WordsOf(g, raw) == {} {
      assert forall n :: !Says(g, raw, Include(n)) by {
        forall n ensures !Says(g, raw, Include(n)) { assert n !in IncludedOf(g, raw); }
      }
      assert forall w :: !Says(g, raw, Sentinel(w)) by {
        forall w ensures !Says(g, raw, Sentinel(w)) { assert w !in WordsOf(g, raw); }
      }
    }
  }

  lemma SomethingSaid(g: Grammar, raw: seq<string>)
    requires Sound(g, raw) && raw != []
    ensures WordsOf(g, raw) != {} || IncludedOf(g, raw) != {} || ExcludedOf(g, raw) != {}
  {
    var m := Classify(g, raw[0]).value;
    assert Says(g, raw, m);
    assert m.Include? ==> m.name in IncludedOf(g, raw);
    assert m.Sentinel? ==> m.word in WordsOf(g, raw);
    assert m.Exclude? ==> m.name in ExcludedOf(g, raw);
  }

  function LibraryWords(v: Vocabulary, s: LibrarySelector): seq<string> {
    if s.primary && s.sharedAll && s.named == {} then [v.all]
    else (if s.primary then [v.primary] else []) + (if s.sharedAll then [v.shared] else [])
  }

  function LibrariesToRaw(v: Vocabulary, s: LibrarySelector): seq<string> {
    Printed(LibraryGrammar(v), LibraryWords(v, s), s.named, s.excluded)
  }

  method PrintLibraries(v: Vocabulary, s: LibrarySelector) returns (out: seq<string>)
    ensures out == LibrariesToRaw(v, s)
  {
    out := [];
    if s.primary && s.sharedAll && s.named == {} {
      out := out + [v.all];
    } else {
      if s.primary { out := out + [v.primary]; }
      if s.sharedAll { out := out + [v.shared]; }
    }
    assert out == LibraryWords(v, s);
    out := PushNames(LibraryGrammar(v), out, Ascending(s.named));
    out := PushExclusions(out, Ascending(s.excluded));
  }

  method PushNames(g: Grammar, before: seq<string>, names: seq<string>) returns (out: seq<string>)
    ensures out == before + Escaped(g, names)
  {
    out := before;
    ghost var added := Escaped(g, names);
    TakeAll(before, added);
    for i := 0 to |names|
      invariant out == before + added[..i]
    {
      TakeNext(before, added, i);
      out := out + [Escape(g, names[i])];
    }
  }

  method PushExclusions(before: seq<string>, names: seq<string>) returns (out: seq<string>)
    ensures out == before + Banged(names)
  {
    out := before;
    ghost var added := Banged(names);
    TakeAll(before, added);
    for i := 0 to |names|
      invariant out == before + added[..i]
    {
      TakeNext(before, added, i);
      out := out + [Bang(names[i])];
    }
  }

  lemma TakeNext(a: seq<string>, b: seq<string>, i: nat)
    requires i < |b|
    ensures a + b[..i] + [b[i]] == a + b[..i + 1]
  {}

  lemma TakeAll(a: seq<string>, b: seq<string>)
    ensures b[..|b|] == b && a + b[..0] == a
  {}

  ghost predicate WellFormedLibraries(v: Vocabulary, s: LibrarySelector) {
    Printable(LibraryGrammar(v), s.named, s.excluded) && s.named * s.excluded == {} && !s.IsEmpty()
  }

  /** The printed words stand for the two switches and for nothing else. */
  lemma LibraryWordsRead(v: Vocabulary, s: LibrarySelector)
    requires ValidVocabulary(v)
    ensures var words := ToSet(LibraryWords(v, s));
      && v.none !in words && words <= LibraryGrammar(v).words
      && (v.primary in words || v.all in words <==> s.primary)
      && (v.shared in words || v.all in words <==> s.sharedAll)
  {
    forall w ensures w in LibraryWords(v, s) <==>
      if s.primary && s.sharedAll && s.named == {} then w == v.all
      else (s.primary && w == v.primary) || (s.sharedAll && w == v.shared)
    {}
  }

  lemma LibrariesDecide(v: Vocabulary, s: LibrarySelector, so: Result<Gathered>, printable: bool)
    requires ValidVocabulary(v)
    requires printable ==> so == Ok(Gathered(ToSet(LibraryWords(v, s)), s.named, s.excluded))
    requires so.Ok? && so.value.included == s.named && so.value.excluded == s.excluded ==> printable
    ensures (so.Ok? && LibrariesFrom(v, so.value) == Ok(s)) <==>
      printable && s.named * s.excluded == {} && !s.IsEmpty()
  {
    LibraryWordsRead(v, s);
  }

  lemma LibrariesRoundTrip(v: Vocabulary, s: LibrarySelector)
    requires ValidVocabulary(v)
    ensures LibrariesOf(v, LibrariesToRaw(v, s)) == Ok(s) <==> WellFormedLibraries(v, s)
  {
    var so, printable := LibrariesGathered(v, s);
    LibrariesDecide(v, s, so, printable);
  }

  lemma LibraryWordsKnown(v: Vocabulary, s: LibrarySelector)
    ensures forall w :: w in LibraryWords(v, s) ==> w in LibraryGrammar(v).words
  {}

  /** What is read back from a printed library selector, and whether its names
      can be printed. */
  lemma LibrariesGathered(v: Vocabulary, s: LibrarySelector) returns (so: Result<Gathered>, printable: bool)
    requires ValidVocabulary(v)
    ensures so == Gather(LibraryGrammar(v), LibrariesToRaw(v, s))
    ensures printable == Printable(LibraryGrammar(v), s.named, s.excluded)
    ensures printable ==> so == Ok(Gathered(ToSet(LibraryWords(v, s)), s.named, s.excluded))
    ensures so.Ok? && so.value.included == s.named && so.value.excluded == s.excluded ==> printable
    ensures LibrariesToRaw(v, s) == [] ==> s.IsEmpty() && s.excluded == {}
  {
    var g := LibraryGrammar(v);
    LibraryWordsKnown(v, s);
    PrintedIff(g, LibraryWords(v, s), s.named, s.excluded);
    so, printable := Gather(g, LibrariesToRaw(v, s)), Printable(g, s.named, s.excluded);
  }

  lemma AcceptedLibraries(v: Vocabulary, raw: seq<string>)
    requires ValidVocabulary(v) && LibrariesOf(v, raw).Ok?
    ensures WellFormedLibraries(v, LibrariesOf(v, raw).value) <==> NoSpacedLiteral(raw)
  {
    if raw != [] { GatheredPrintable(LibraryGrammar(v), raw); }
  }

  lemma LibrariesPrintFixpoint(v: Vocabulary, raw: seq<string>)
    requires ValidVocabulary(v) && LibrariesOf(v, raw).Ok?
    ensures LibrariesOf(v, LibrariesToRaw(v, LibrariesOf(v, raw).value)) == LibrariesOf(v, raw)
       <==> NoSpacedLiteral(raw)
  {
    AcceptedLibraries(v, raw);
    LibrariesRoundTrip(v, LibrariesOf(v, raw).value);
  }

  lemma LibrariesToRawInjective(v: Vocabulary, s: LibrarySelector, t: LibrarySelector)
    requires ValidVocabulary(v)
    ensures WellFormedLibraries(v, s) && WellFormedLibraries(v, t) ==>
      LibrariesToRaw(v, s) == LibrariesToRaw(v, t) ==> s == t
  {
    LibrariesRoundTrip(v, s);
    LibrariesRoundTrip(v, t);
  }

  lemma LibrariesOrderIndependent(v: Vocabulary, a: seq<string>, b: seq<string>)
    requires Permutation(a, b)
    ensures LibrariesOf(v, a) == LibrariesOf(v, b)
  {
    GatherPermutes(LibraryGrammar(v), a, b);
    assert |a| == |multiset(a)| == |multiset(b)| == |b|;
  }

  lemma GatherWord(g: Grammar, w: string)
    requires ValidGrammar(g) && w in g.words
    ensures Gather(g, [w]) == Ok(Gathered({w}, {}, {}))
  {
    WordReadsBack(g, w);
    GatherOne(g, w);
    assert {} + {w} == {w};
  }

  lemma PrimaryAlone(v: Vocabulary)
    requires ValidVocabulary(v)
    ensures LibrariesFrom(v, Gathered({v.primary}, {}, {})) == Ok(DEFAULT_LIBRARIES)
  {}

  /** An absent list and the list of the default word alone read the same. */
  lemma DefaultLibrariesReadAlike(v: Vocabulary)
    requires ValidVocabulary(v)
    ensures LibrariesOf(v, [v.primary]) == LibrariesOf(v, [])
  {
    GatherWord(LibraryGrammar(v), v.primary);
    PrimaryAlone(v);
  }

  lemma DefaultAlbumsReadAlike(v: Vocabulary)
    requires ValidVocabulary(v)
    ensures AlbumsOf(v, [v.all], true) == AlbumsOf(v, [], true)
  {
    GatherWord(AlbumGrammar(v), v.all);
  }
}
