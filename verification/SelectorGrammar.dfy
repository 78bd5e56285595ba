/** The grammar the three selectors share: sentinel words, `!` exclusions and
    `=` literals, read one entry at a time. */
module SelectorGrammar {
  import opened Wrappers
  import opened Text

  // ---- One entry ---------------------------------------------------------

  datatype SelectorToken = SelectorToken(name: string, exclude: bool, escaped: bool)

  /** Split a trimmed entry into its marker and its name. */
  function ReadToken(raw: string): Result<SelectorToken> {
    if raw != "" && raw[0] == '=' then
      if raw[1..] == "" then Err else Ok(SelectorToken(raw[1..], false, true))
    else
      var exclude := raw != "" && raw[0] == '!';
      var name := if exclude then raw[1..] else raw;
      if name == "" || name[0] == '=' then Err
      else Ok(SelectorToken(name, exclude, false))
  }

  /** What distinguishes one selector's grammar: its reserved words, those of
      them that may be excluded, and whether names may hold a colon. */
  datatype Grammar = Grammar(words: set<string>, excludable: set<string>, colonFree: bool)

  /** `name` is one of the grammar's reserved words, letter case aside. */
  predicate Reserved(g: Grammar, name: string) {
    Lower(name) in g.words
  }

  /** Reserved words are lower case and free of the grammar's own characters. */
  ghost predicate ValidWord(w: string) {
    w != "" && Trimmed(w) && LowerCase(w) && w[0] != '=' && w[0] != '!' && ':' !in w
  }

  ghost predicate ValidGrammar(g: Grammar) {
    g.excludable <= g.words && forall w :: w in g.words ==> ValidWord(w)
  }

  datatype Meaning = Sentinel(word: string) | Include(name: string) | Exclude(name: string)

  /** The meaning of one raw entry, if it has one. */
  function Classify(g: Grammar, entry: string): Result<Meaning> {
    var trimmed := Trim(entry);
    if trimmed == "" then Err
    else
      var token := ReadToken(trimmed);
      if token.Err? then Err
      else
        var t := token.value;
        if g.colonFree && ':' in t.name then Err
        else if Reserved(g, t.name) && !t.escaped then
          var w := Lower(t.name);
          if !t.exclude then Ok(Sentinel(w))
          else if w in g.excludable then Ok(Exclude(w))
          else Err
        else if t.exclude then Ok(Exclude(t.name))
        else Ok(Include(t.name))
  }

  /** An included name as it is printed. */
  function Escape(g: Grammar, name: string): string {
    if (name != "" && (name[0] == '!' || name[0] == '=')) || Reserved(g, name) then "=" + name
    else name
  }

  function Bang(name: string): string {
    "!" + name
  }

  // ---- The grammar, letter by letter --------------------------------------

  /** `name` spells the reserved word `w` in some letter case. */
  ghost predicate Spells(g: Grammar, name: string, w: string) {
    w in g.words && SameWord(name, w)
  }

  lemma ReservedMeaning(g: Grammar, name: string)
    requires ValidGrammar(g)
    ensures Reserved(g, name) <==> exists w :: Spells(g, name, w)
    ensures forall w :: Spells(g, name, w) ==> Lower(name) == w
  {
    forall w | w in g.words ensures SameWord(name, w) <==> Lower(name) == w { LowerMeaning(name, w); }
    LowerMeaning(name, "");
    if Reserved(g, name) { assert Spells(g, name, Lower(name)); }
  }

  ghost predicate ColonRefused(g: Grammar, name: string) {
    g.colonFree && exists i :: 0 <= i < |name| && name[i] == ':'
  }

  /** An entry without a marker: a reserved word in any letter case, or a name
      with its letters unchanged. */
  lemma UnmarkedMeaning(g: Grammar, entry: string)
    requires ValidGrammar(g) && Trim(entry) != "" && Trim(entry)[0] != '=' && Trim(entry)[0] != '!'
    ensures var t, r := Trim(entry), Classify(g, entry);
      && (ColonRefused(g, t) ==> r == Err)
      && (!ColonRefused(g, t) ==> forall w :: Spells(g, t, w) ==> r == Ok(Sentinel(w)))
      && (!ColonRefused(g, t) && (forall w :: !Spells(g, t, w)) ==> r == Ok(Include(t)))
  {
    ReservedMeaning(g, Trim(entry));
  }

  /** An exclusion: `!` and an excludable word in any letter case, or a name. */
  lemma ExclusionMeaning(g: Grammar, entry: string)
    requires ValidGrammar(g) && Trim(entry) != "" && Trim(entry)[0] == '!'
    ensures var name, r := Trim(entry)[1..], Classify(g, entry);
      && (name == "" || name[0] == '=' || ColonRefused(g, name) ==> r == Err)
      && (name != "" && name[0] != '=' && !ColonRefused(g, name) ==>
            && (forall w :: Spells(g, name, w) ==> r == if w in g.excludable then Ok(Exclude(w)) else Err)
            && ((forall w :: !Spells(g, name, w)) ==> r == Ok(Exclude(name))))
  {
    ReservedMeaning(g, Trim(entry)[1..]);
  }

  /** A literal: whatever follows the `=` is the name, reserved or not. */
  lemma LiteralMeaning(g: Grammar, entry: string)
    requires Trim(entry) != "" && Trim(entry)[0] == '='
    ensures var name, r := Trim(entry)[1..], Classify(g, entry);
      r == if name == "" || ColonRefused(g, name) then Err else Ok(Include(name))
  {}

  lemma BlankMeaning(g: Grammar, entry: string)
    requires Trim(entry) == ""
    ensures Classify(g, entry) == Err
  {}

  /** A name is printed with `=` exactly when it begins with a marker or spells
      a reserved word, and otherwise as it is. */
  lemma EscapeMeaning(g: Grammar, name: string)
    requires ValidGrammar(g)
    ensures var marked := name != "" && (name[0] == '!' || name[0] == '=');
      Escape(g, name) == if marked || exists w :: Spells(g, name, w) then "=" + name else name
  {
    ReservedMeaning(g, name);
  }

  // ---- Names that survive printing ---------------------------------------

  predicate NameCharsOk(g: Grammar, name: string) {
    name != "" && !IsSpace(name[|name| - 1]) && (g.colonFree ==> ':' !in name)
  }

  predicate GoodInclude(g: Grammar, name: string) {
    NameCharsOk(g, name) && !IsSpace(name[0])
  }

  predicate GoodExclude(g: Grammar, name: string) {
    && NameCharsOk(g, name) && name[0] != '='
    && (Reserved(g, name) ==> name in g.excludable)
  }

  /** An `=` literal whose text begins with white space: the one spelling whose
      name cannot be printed back. */
  predicate SpacedLiteral(entry: string) {
    var t := Trim(entry);
    |t| > 1 && t[0] == '=' && IsSpace(t[1])
  }

  /** Any entry read as an exclusion gives a printable name. */
  lemma ProducedExclude(g: Grammar, entry: string, name: string)
    requires ValidGrammar(g) && Classify(g, entry) == Ok(Exclude(name))
    ensures GoodExclude(g, name)
  {
    var t := Trim(entry);
    TrimShape(entry);
    assert t[0] == '!' && t[1..][|t| - 2] == t[|t| - 1];
  }

  /** Any entry read as an inclusion gives a printable name, unless it is a
      spaced literal. */
  lemma ProducedInclude(g: Grammar, entry: string, name: string)
    requires Classify(g, entry) == Ok(Include(name))
    ensures NameCharsOk(g, name)
    ensures IsSpace(name[0]) <==> SpacedLiteral(entry)
  {
    var t := Trim(entry);
    TrimShape(entry);
    if t[0] == '=' { assert t[1..][|t| - 2] == t[|t| - 1]; }
  }

  lemma GoodExcludeReadsBack(g: Grammar, name: string)
    requires ValidGrammar(g) && GoodExclude(g, name)
    ensures Classify(g, Bang(name)) == Ok(Exclude(name))
  {
    MarkedName('!', name);
    ReservedMeaning(g, name);
    LowerMeaning(name, name);
    ExclusionMeaning(g, Bang(name));
    if Reserved(g, name) { assert Spells(g, name, name); }
  }

  /** A printed exclusion reads back exactly when its name is printable. */
  lemma BangReadsBack(g: Grammar, name: string)
    requires ValidGrammar(g)
    ensures Classify(g, Bang(name)) == Ok(Exclude(name)) <==> GoodExclude(g, name)
  {
    if GoodExclude(g, name) {
      GoodExcludeReadsBack(g, name);
    } else if Classify(g, Bang(name)) == Ok(Exclude(name)) {
      ProducedExclude(g, Bang(name), name);
    }
  }

  /** A marker in front of a name without trailing white space survives trimming. */
  lemma MarkedName(mark: char, name: string)
    requires !IsSpace(mark) && name != "" && !IsSpace(name[|name| - 1])
    ensures Trim([mark] + name) == [mark] + name && ([mark] + name)[1..] == name
  {
    TrimKeepsHead([mark] + name);
  }

  lemma GoodIncludeReadsBack(g: Grammar, name: string)
    requires GoodInclude(g, name)
    ensures Classify(g, Escape(g, name)) == Ok(Include(name))
  {
    if Escape(g, name) == name {
      TrimKeepsHead(name);
    } else {
      MarkedName('=', name);
    }
  }

  /** A printed inclusion reads back exactly when its name is printable. */
  lemma EscapeReadsBack(g: Grammar, name: string)
    requires ValidGrammar(g)
    ensures Classify(g, Escape(g, name)) == Ok(Include(name)) <==> GoodInclude(g, name)
  {
    if GoodInclude(g, name) {
      GoodIncludeReadsBack(g, name);
    } else if Classify(g, Escape(g, name)) == Ok(Include(name)) {
      ProducedInclude(g, Escape(g, name), name);
      EscapeGrows(g, name, name);
    }
  }

  /** A name with leading white space can only be read back from the printed
      form of a longer one. */
  lemma EscapeGrows(g: Grammar, name: string, read: string)
    requires ValidGrammar(g) && Classify(g, Escape(g, name)) == Ok(Include(read))
    requires read != "" && IsSpace(read[0])
    ensures |name| > |read|
  {
    var e := Escape(g, name);
    ProducedInclude(g, e, read);
    TrimShape(e);
    var t := Trim(e);
    assert t == "=" + read;
    if e != name {
      TrimKeepsHead(e);
      TrimEndShape(e);
      assert name[0] == e[1] == t[1] == read[0];
      if Reserved(g, name) { ReservedHead(g, name); }
    }
  }

  lemma ReservedHead(g: Grammar, name: string)
    requires ValidGrammar(g) && Reserved(g, name)
    ensures name != "" && !IsSpace(name[0])
  {
    assert Lower(name)[0] == LowerChar(name[0]);
  }

  /** Reserved words read back as themselves. */
  lemma WordReadsBack(g: Grammar, w: string)
    requires ValidGrammar(g) && w in g.words
    ensures Classify(g, w) == Ok(Sentinel(w))
  {
    LowerMeaning(w, w);
    TrimShape(w);
  }

  /** Words of lower-case letters and hyphens are fit to be reserved. */
  lemma PlainWord(w: string)
    requires w != "" && forall i :: 0 <= i < |w| ==> 'a' <= w[i] <= 'z' || w[i] == '-'
    ensures ValidWord(w)
  {
    assert Lower(w) == w;
  }
}
