/** The three selectors in terms of what a user writes: letters, markers and
    words, without the machinery that reads and prints them. */
module SelectionMeaning {
  import opened Wrappers
  import opened Text
  import opened Ordering
  import opened SelectorGrammar
  import opened SelectorLists
  import opened SelectorPrinting
  import opened Selection

  ghost predicate SpellsNone(name: string, words: set<string>) {
    forall w :: w in words ==> !SameWord(name, w)
  }

  /** What a selector with these reserved words makes of an entry, none of them
      excludable and colons allowed. */
  ghost predicate ReadsPlainly(entry: string, words: set<string>, r: Result<Meaning>) {
    var t := Trim(entry);
    if t == "" then r == Err
    else if t[0] == '=' then r == if t == "=" then Err else Ok(Include(t[1..]))
    else if t[0] == '!' then
      && (t == "!" || t[1] == '=' ==> r == Err)
      && (t != "!" && t[1] != '=' ==> r == if SpellsNone(t[1..], words) then Ok(Exclude(t[1..])) else Err)
    else
      && (forall w :: w in words && SameWord(t, w) ==> r == Ok(Sentinel(w)))
      && (SpellsNone(t, words) ==> r == Ok(Include(t)))
  }

  lemma NoneSpelled(g: Grammar, name: string)
    ensures SpellsNone(name, g.words) <==> forall w :: !Spells(g, name, w)
  {
    forall w ensures Spells(g, name, w) <==> w in g.words && SameWord(name, w) {}
    if SpellsNone(name, g.words) {
      forall w ensures !Spells(g, name, w) {}
    }
    if forall w :: !Spells(g, name, w) {
      forall w | w in g.words ensures !SameWord(name, w) { assert !Spells(g, name, w); }
    }
  }

  /** The four kinds of entries, for a grammar of that sort. */
  lemma PlainGrammarReads(g: Grammar, entry: string)
    requires ValidGrammar(g) && g.excludable == {} && !g.colonFree
    ensures ReadsPlainly(entry, g.words, Classify(g, entry))
  {
    var t := Trim(entry);
    if t == "" {
      BlankMeaning(g, entry);
    } else if t[0] == '=' {
      LiteralMeaning(g, entry);
    } else if t[0] == '!' {
      ExclusionMeaning(g, entry);
      NoneSpelled(g, t[1..]);
    } else {
      UnmarkedMeaning(g, entry);
      NoneSpelled(g, t);
      forall w | w in g.words && SameWord(t, w) ensures Classify(g, entry) == Ok(Sentinel(w)) {
        assert Spells(g, t, w);
      }
    }
  }

  lemma AlbumEntries(v: Vocabulary, entry: string)
    requires ValidVocabulary(v)
    ensures ReadsPlainly(entry, {v.all, v.none}, Classify(AlbumGrammar(v), entry))
  {
    PlainGrammarReads(AlbumGrammar(v), entry);
  }

  lemma SmartFolderEntries(v: Vocabulary, entry: string)
    requires ValidVocabulary(v)
    ensures ReadsPlainly(entry, {v.all, v.allWithSensitive, v.none}, Classify(SmartGrammar(v), entry))
  {
    PlainGrammarReads(SmartGrammar(v), entry);
  }

  /** Libraries: a colon is refused anywhere, and the primary and the shared
      library can be excluded, in any letter case and under their own names. */
  lemma LibraryEntries(v: Vocabulary, entry: string)
    requires ValidVocabulary(v)
    ensures var t, r, words := Trim(entry), Classify(LibraryGrammar(v), entry), {v.all, v.none, v.primary, v.shared};
      && (t == "" || t == "=" || t == "!" || ':' in t ==> r == Err)
      && (t != "" && t != "=" && t != "!" && ':' !in t ==>
            && (t[0] == '=' ==> r == Ok(Include(t[1..])))
            && (t[0] == '!' && t[1] == '=' ==> r == Err)
            && (t[0] == '!' && t[1] != '=' ==>
                  && (SameWord(t[1..], v.primary) ==> r == Ok(Exclude(v.primary)))
                  && (SameWord(t[1..], v.shared) ==> r == Ok(Exclude(v.shared)))
                  && (SameWord(t[1..], v.all) || SameWord(t[1..], v.none) ==> r == Err)
                  && (SpellsNone(t[1..], words) ==> r == Ok(Exclude(t[1..]))))
            && (t[0] != '=' && t[0] != '!' ==>
                  && (forall w :: w in words && SameWord(t, w) ==> r == Ok(Sentinel(w)))
                  && (SpellsNone(t, words) ==> r == Ok(Include(t)))))
  {
    var g, t := LibraryGrammar(v), Trim(entry);
    if t == "" {
      BlankMeaning(g, entry);
    } else {
      var name := if t[0] == '=' || t[0] == '!' then t[1..] else t;
      ColonInName(g, t, name);
      NoneSpelled(g, name);
      forall w | w in g.words && SameWord(name, w) ensures Spells(g, name, w) {}
      if t[0] == '=' { LiteralMeaning(g, entry); }
      else if t[0] == '!' { ExclusionMeaning(g, entry); }
      else { UnmarkedMeaning(g, entry); }
    }
  }

  lemma ColonInName(g: Grammar, t: string, name: string)
    requires t != "" && g.colonFree
    requires if t[0] == '=' || t[0] == '!' then name == t[1..] else name == t
    ensures ColonRefused(g, name) <==> ':' in t
  {
    if ':' in t {
      var i :| 0 <= i < |t| && t[i] == ':';
      assert name[i - (|t| - |name|)] == ':';
    }
  }

  // ---- Absent lists -------------------------------------------------------

  /** What each selector means when nothing is written. */
  lemma AbsentLists(v: Vocabulary)
    ensures AlbumsOf(v, [], true) == Ok(AllAlbums({})) && AlbumsOf(v, [], false) == Ok(NoAlbums)
    ensures SmartFoldersOf(v, []) == Ok(NoFolders)
    ensures LibrariesOf(v, []) == Ok(LibrarySelector(true, false, {}, {}))
  {}

  // ---- Printed lists ------------------------------------------------------

  /** `raw` is the given words, then the included names in order and escaped
      where needed, then the excluded names in order behind `!`. */
  ghost predicate Lists(
    g: Grammar, raw: seq<string>, words: seq<string>, included: set<string>, excluded: set<string>)
  {
    var a, b := Ascending(included), Ascending(excluded);
    && |raw| == |words| + |a| + |b|
    && (forall i :: 0 <= i < |words| ==> raw[i] == words[i])
    && (forall i :: 0 <= i < |a| ==> raw[|words| + i] == Escape(g, a[i]))
    && (forall i :: 0 <= i < |b| ==> raw[|words| + |a| + i] == "!" + b[i])
  }

  lemma PrintedLists(g: Grammar, words: seq<string>, included: set<string>, excluded: set<string>)
    ensures Lists(g, Printed(g, words, included, excluded), words, included, excluded)
  {
    var a, b := Ascending(included), Ascending(excluded);
    assert Printed(g, words, included, excluded) == words + Escaped(g, a) + Banged(b);
  }

  lemma AlbumsPrinted(v: Vocabulary, s: AlbumSelector)
    ensures var g, raw := AlbumGrammar(v), AlbumsToRaw(v, s);
      match s
      case NoAlbums => raw == [v.none]
      case AllAlbums(excluded) => Lists(g, raw, [v.all], {}, excluded)
      case NamedAlbums(included, excluded) => Lists(g, raw, [], included, excluded)
  {
    PrintedLists(AlbumGrammar(v), AlbumWords(v, s), AlbumIncluded(s), AlbumExcluded(s));
    assert Ascending({}) == [];
  }

  lemma SmartFoldersPrinted(v: Vocabulary, s: SmartFolderSelector)
    ensures var g, raw := SmartGrammar(v), SmartFoldersToRaw(v, s);
      match s
      case NoFolders => raw == []
      case AllFolders(sensitive, excluded) =>
        Lists(g, raw, [if sensitive then v.allWithSensitive else v.all], {}, excluded)
      case NamedFolders(included, excluded) => Lists(g, raw, [], included, excluded)
  {
    PrintedLists(SmartGrammar(v), SmartWords(v, s), SmartIncluded(s), SmartExcluded(s));
  }

  /** Both switches without names print as the one word for everything. */
  ghost function WordsPrinted(v: Vocabulary, s: LibrarySelector): seq<string> {
    if s.primary && s.sharedAll then if s.named == {} then [v.all] else [v.primary, v.shared]
    else if s.primary then [v.primary]
    else if s.sharedAll then [v.shared]
    else []
  }

  lemma LibrariesPrinted(v: Vocabulary, s: LibrarySelector)
    ensures Lists(LibraryGrammar(v), LibrariesToRaw(v, s), WordsPrinted(v, s), s.named, s.excluded)
  {
    var words := LibraryWords(v, s);
    assert words == WordsPrinted(v, s);
    PrintedLists(LibraryGrammar(v), words, s.named, s.excluded);
  }

  // ---- Words in any letter case -------------------------------------------

  lemma Unmarked(name: string, w: string)
    requires ValidWord(w) && SameWord(name, w)
    ensures name != "" && name[0] != '=' && name[0] != '!' && ':' !in name
  {
    assert SameLetter(name[0], w[0]);
    forall i | 0 <= i < |name| ensures name[i] != ':' {
      assert SameLetter(name[i], w[i]) && w[i] in w;
    }
  }

  lemma WordGathers(g: Grammar, entry: string, w: string)
    requires ValidGrammar(g) && w in g.words && SameWord(Trim(entry), w)
    ensures Gather(g, [entry]) == Ok(Gathered({w}, {}, {}))
  {
    Unmarked(Trim(entry), w);
    UnmarkedMeaning(g, entry);
    assert Spells(g, Trim(entry), w);
    GatherOne(g, entry);
    assert {} + {w} == {w};
  }

  /** The words alone, in any letter case and with white space around. */
  lemma AlbumWordAlone(v: Vocabulary, entry: string)
    requires ValidVocabulary(v)
    ensures SameWord(Trim(entry), v.all) ==> AlbumsOf(v, [entry], true) == Ok(AllAlbums({}))
    ensures SameWord(Trim(entry), v.none) ==> AlbumsOf(v, [entry], true) == Ok(NoAlbums)
  {
    var g := AlbumGrammar(v);
    if SameWord(Trim(entry), v.all) { WordGathers(g, entry, v.all); }
    if SameWord(Trim(entry), v.none) { WordGathers(g, entry, v.none); }
  }

  lemma SmartFolderWords(v: Vocabulary)
    requires ValidVocabulary(v)
    ensures SmartFrom(v, Gathered({v.all}, {}, {})) == Ok(AllFolders(false, {}))
    ensures SmartFrom(v, Gathered({v.allWithSensitive}, {}, {})) == Ok(AllFolders(true, {}))
    ensures SmartFrom(v, Gathered({v.none}, {}, {})) == Ok(NoFolders)
  {}

  lemma SmartFolderWordAlone(v: Vocabulary, entry: string, w: string)
    requires ValidVocabulary(v) && w in {v.all, v.allWithSensitive, v.none} && SameWord(Trim(entry), w)
    ensures SmartFoldersOf(v, [entry]) ==
      Ok(if w == v.none then NoFolders else AllFolders(w == v.allWithSensitive, {}))
  {
    WordGathers(SmartGrammar(v), entry, w);
    SmartFolderWords(v);
  }

  lemma LibraryWordsMean(v: Vocabulary, w: string)
    requires ValidVocabulary(v) && w in {v.all, v.primary, v.shared, v.none}
    ensures LibrariesFrom(v, Gathered({w}, {}, {})) ==
      if w == v.none then Err else Ok(LibrarySelector(w != v.shared, w != v.primary, {}, {}))
  {}

  lemma LibraryWordAlone(v: Vocabulary, entry: string, w: string)
    requires ValidVocabulary(v) && w in {v.all, v.primary, v.shared, v.none} && SameWord(Trim(entry), w)
    ensures LibrariesOf(v, [entry]) ==
      if w == v.none then Err else Ok(LibrarySelector(w != v.shared, w != v.primary, {}, {}))
  {
    WordGathers(LibraryGrammar(v), entry, w);
    LibraryWordsMean(v, w);
  }
}
