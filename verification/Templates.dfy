/** Folder templates: the start-up validator against the shape it enforces. */
module Templates {
  import opened Wrappers
  import opened Search

  /** The three substitution tokens. */
  datatype Tokens = Tokens(album: string, smartFolder: string, library: string)

  const TOKENS := Tokens("{album}", "{smart-folder}", "{library}")

  datatype TemplateKind = Albums | SmartFolders | Unfiled

  function CategoryToken(t: Tokens, kind: TemplateKind): Option<string> {
    match kind
    case Albums => Some(t.album)
    case SmartFolders => Some(t.smartFolder)
    case Unfiled => None
  }

  /** A brace that occurs nowhere else opens the token; no slash in it. */
  predicate TokenShape(tok: string) {
    tok != "" && tok[0] == '{' && '{' !in tok[1..] && '/' !in tok
  }

  predicate ValidTokens(t: Tokens) {
    && TokenShape(t.album) && TokenShape(t.smartFolder) && TokenShape(t.library)
    && !(t.album <= t.smartFolder) && !(t.album <= t.library)
    && !(t.smartFolder <= t.album) && !(t.smartFolder <= t.library)
    && !(t.library <= t.album) && !(t.library <= t.smartFolder)
  }

  lemma TokensAreValid()
    ensures ValidTokens(TOKENS)
    ensures TOKENS.album == "{album}" && TOKENS.smartFolder == "{smart-folder}" && TOKENS.library == "{library}"
  {
    AlbumToken();
    SmartFolderToken();
    LibraryToken();
    PrefixSharesSecond(TOKENS.album, TOKENS.smartFolder);
    PrefixSharesSecond(TOKENS.album, TOKENS.library);
    PrefixSharesSecond(TOKENS.smartFolder, TOKENS.library);
  }

  lemma PrefixSharesSecond(a: string, b: string)
    requires |a| > 1 && |b| > 1 && a[1] != b[1]
    ensures !(a <= b) && !(b <= a)
  {}

  lemma AlbumToken()
    ensures TokenShape("{album}") && |"{album}"| > 1 && "{album}"[1] == 'a'
  {
    assert "{album}"[1..] == "album}";
  }

  lemma SmartFolderToken()
    ensures TokenShape("{smart-folder}") && |"{smart-folder}"| > 1 && "{smart-folder}"[1] == 's'
  {
    assert "{smart-folder}"[1..] == "smart-folder}";
  }

  lemma LibraryToken()
    ensures TokenShape("{library}") && |"{library}"| > 1 && "{library}"[1] == 'l'
  {
    assert "{library}"[1..] == "library}";
  }

  /** The legacy `{:…}` wrapper is dropped before anything else is checked. */
  function StripWrapper(s: string): string {
    if "{:" <= s && |s| > 2 && s[|s| - 1] == '}' then s[2..|s| - 1] else s
  }

  function Contains(s: string, tok: string): (r: bool)
    ensures r <==> Occurs(tok, s)
  {
    FirstMatch(tok, s, 0).Some?
  }

  function FirstSlash(s: string): (k: nat)
    ensures k <= |s| && '/' !in s[..k] && (k < |s| ==> s[k] == '/')
  {
    if s == "" || s[0] == '/' then 0
    else
      var k := FirstSlash(s[1..]);
      assert s[..k + 1] == [s[0]] + s[1..][..k];
      k + 1
  }

  /** The non-empty pieces between slashes. */
  function Segments(s: string): seq<string>
    decreases |s|
  {
    var k := FirstSlash(s);
    var head := if k == 0 then [] else [s[..k]];
    if k == |s| then head else head + Segments(s[k + 1..])
  }

  function Get(segments: seq<string>, i: nat): Option<string> {
    if i < |segments| then Some(segments[i]) else None
  }

  /** Whether a template, its wrapper already stripped, is accepted. */
  predicate Accepts(t: Tokens, s: string, kind: TemplateKind)
    requires ValidTokens(t)
  {
    var category := CategoryToken(t, kind);
    var segments := Segments(s);
    var hasLibrary := Contains(s, t.library);
    && (Some(t.album) == category || !Contains(s, t.album))
    && (Some(t.smartFolder) == category || !Contains(s, t.smartFolder))
    && Count(t.library, s) <= 1
    && (category.Some? ==> Count(category.value, s) <= 1)
    && (hasLibrary ==> Get(segments, 0) == Some(t.library))
    && (category.Some? && Contains(s, category.value) ==>
          Get(segments, if hasLibrary then 1 else 0) == category)
  }

  predicate ValidateTemplate(t: Tokens, template: string, kind: TemplateKind)
    requires ValidTokens(t)
  {
    Accepts(t, StripWrapper(template), kind)
  }

  // ---- The shape ---------------------------------------------------------

  ghost predicate Plain(t: Tokens, segments: seq<string>) {
    forall x :: x in segments ==> !Occurs(t.album, x) && !Occurs(t.smartFolder, x) && !Occurs(t.library, x)
  }

  /** Drop the leading segment if it is `tok`. */
  function Skip(tok: Option<string>, segments: seq<string>): seq<string> {
    if tok.Some? && segments != [] && segments[0] == tok.value then segments[1..] else segments
  }

  /** An optional `{library}`, then an optional token of the template's own
      category, then segments without any token. */
  ghost predicate NormalForm(t: Tokens, segments: seq<string>, kind: TemplateKind) {
    Plain(t, Skip(CategoryToken(t, kind), Skip(Some(t.library), segments)))
  }

  // ---- Counting across the split -----------------------------------------

  lemma NoMatchAcross(tok: string, left: string, right: string)
    requires '/' !in tok && |left| < |tok|
    ensures !MatchAt(tok, left + ("/" + right), 0)
  {
    var s := left + ("/" + right);
    if |tok| <= |s| {
      assert s[0..|tok|][|left|] == '/';
      assert tok[|left|] in tok;
    }
  }

  /** No occurrence spans a slash. */
  lemma {:induction false} CountAtSlash(tok: string, left: string, right: string)
    requires tok != "" && '/' !in tok
    ensures Count(tok, left + ("/" + right)) == Count(tok, left) + Count(tok, right)
    decreases |left|
  {
    var s, n := left + ("/" + right), |tok|;
    if |left| < n {
      NoMatchAcross(tok, left, right);
      if left == "" {
        assert s[1..] == right;
      } else {
        assert s[1..] == left[1..] + ("/" + right);
        CountAtSlash(tok, left[1..], right);
      }
    } else {
      assert s[0..n] == left[0..n];
      if MatchAt(tok, s, 0) {
        assert s[n..] == left[n..] + ("/" + right);
        CountAtSlash(tok, left[n..], right);
      } else {
        assert s[1..] == left[1..] + ("/" + right);
        CountAtSlash(tok, left[1..], right);
      }
    }
  }

  function Total(tok: string, segments: seq<string>): nat
    requires tok != ""
  {
    if segments == [] then 0 else Count(tok, segments[0]) + Total(tok, segments[1..])
  }

  lemma TotalCons(tok: string, head: string, rest: seq<string>)
    requires tok != ""
    ensures Total(tok, [head] + rest) == Count(tok, head) + Total(tok, rest)
    ensures Count(tok, "") == 0 && [] + rest == rest
  {
    assert ([head] + rest)[1..] == rest;
  }

  lemma {:induction false} CountIsTotal(tok: string, s: string)
    requires tok != "" && '/' !in tok
    ensures Count(tok, s) == Total(tok, Segments(s))
    decreases |s|
  {
    var k := FirstSlash(s);
    if k == |s| {
      assert s[..k] == s;
    } else {
      var rest := s[k + 1..];
      assert s == s[..k] + ("/" + rest);
      CountAtSlash(tok, s[..k], rest);
      CountIsTotal(tok, rest);
      TotalCons(tok, s[..k], Segments(rest));
    }
  }

  lemma {:induction false} TotalZero(tok: string, segments: seq<string>)
    requires tok != ""
    ensures Total(tok, segments) == 0 <==> forall x :: x in segments ==> !Occurs(tok, x)
  {
    if segments != [] {
      CountPositiveIffOccurs(tok, segments[0]);
      TotalZero(tok, segments[1..]);
      assert segments == [segments[0]] + segments[1..];
    }
  }

  lemma PlainIffZero(t: Tokens, segments: seq<string>)
    requires ValidTokens(t)
    ensures Plain(t, segments) <==>
      Total(t.album, segments) == 0 && Total(t.smartFolder, segments) == 0 && Total(t.library, segments) == 0
  {
    TotalZero(t.album, segments);
    TotalZero(t.smartFolder, segments);
    TotalZero(t.library, segments);
  }

  /** One token occurs in another only if it is that token, and then once. */
  lemma CountInToken(a: string, b: string)
    requires TokenShape(a) && TokenShape(b) && (a <= b ==> a == b)
    ensures Count(a, b) == if a == b then 1 else 0
  {
    if a == b {
      assert MatchAt(a, b, 0) && b[|a|..] == "";
    } else {
      forall i: nat ensures !MatchAt(a, b, i) {
        if i + |a| <= |b| {
          assert b[i..i + |a|][0] == b[i];
          if i > 0 { assert b[i] == b[1..][i - 1]; }
          assert b[0..|a|] == b[..|a|];
        }
      }
      CountPositiveIffOccurs(a, b);
    }
  }

  lemma ContainsIffCounted(s: string, tok: string)
    requires TokenShape(tok)
    ensures Contains(s, tok) <==> Total(tok, Segments(s)) > 0
    ensures Count(tok, s) == Total(tok, Segments(s))
  {
    CountIsTotal(tok, s);
    CountPositiveIffOccurs(tok, s);
  }

  /** Skipping a leading token takes exactly that token out of the totals. */
  lemma SkipTotals(t: Tokens, tok: string, skipped: Option<string>, segments: seq<string>)
    requires ValidTokens(t) && tok in {t.album, t.smartFolder, t.library}
    requires skipped.Some? ==> skipped.value in {t.album, t.smartFolder, t.library}
    ensures var hit := skipped.Some? && segments != [] && segments[0] == skipped.value && tok == skipped.value;
            Total(tok, segments) == Total(tok, Skip(skipped, segments)) + if hit then 1 else 0
    ensures segments != [] && segments[0] == tok ==> Total(tok, segments) >= 1
  {
    if segments != [] && segments[0] in {t.album, t.smartFolder, t.library} {
      CountInToken(tok, segments[0]);
    }
  }

  /** The validator accepts exactly the templates of the normal form. */
  lemma AcceptsIffNormalForm(t: Tokens, s: string, kind: TemplateKind)
    requires ValidTokens(t)
    ensures Accepts(t, s, kind) <==> NormalForm(t, Segments(s), kind)
  {
    var segments, library, own := Segments(s), Some(t.library), CategoryToken(t, kind);
    var rest := Skip(library, segments);
    PlainIffZero(t, Skip(own, rest));
    forall tok | tok in {t.album, t.smartFolder, t.library}
      ensures Contains(s, tok) <==> Total(tok, segments) > 0
      ensures Count(tok, s) == Total(tok, segments)
    {
      ContainsIffCounted(s, tok);
    }
    TotalsDecide(t, segments, kind);
  }

  /** The validator's conditions, on totals. */
  lemma TotalsDecide(t: Tokens, segments: seq<string>, kind: TemplateKind)
    requires ValidTokens(t)
    ensures var own := CategoryToken(t, kind);
      var left := Skip(own, Skip(Some(t.library), segments));
      var hasLibrary := Total(t.library, segments) > 0;
      (Total(t.album, left) == 0 && Total(t.smartFolder, left) == 0 && Total(t.library, left) == 0) <==>
        && (Some(t.album) == own || Total(t.album, segments) == 0)
        && (Some(t.smartFolder) == own || Total(t.smartFolder, segments) == 0)
        && Total(t.library, segments) <= 1
        && (own.Some? ==> Total(own.value, segments) <= 1)
        && (hasLibrary ==> Get(segments, 0) == Some(t.library))
        && (own.Some? && Total(own.value, segments) > 0 ==>
              Get(segments, if hasLibrary then 1 else 0) == own)
  {
    var own, rest := CategoryToken(t, kind), Skip(Some(t.library), segments);
    forall tok | tok in {t.album, t.smartFolder, t.library}
      ensures Total(tok, segments) == Total(tok, rest)
              + if segments != [] && segments[0] == t.library && tok == t.library then 1 else 0
      ensures Total(tok, rest) == Total(tok, Skip(own, rest))
              + if own.Some? && rest != [] && rest[0] == own.value && tok == own.value then 1 else 0
      ensures rest != [] && rest[0] == tok ==> Total(tok, rest) >= 1
      ensures segments != [] && segments[0] == tok ==> Total(tok, segments) >= 1
    {
      SkipTotals(t, tok, Some(t.library), segments);
      SkipTotals(t, tok, own, rest);
    }
  }

  // ---- The normal form, spelled out ---------------------------------------

  /** The segments are `first`, then `second`, then plain ones. */
  ghost predicate Composed(t: Tokens, segments: seq<string>, first: seq<string>, second: seq<string>) {
    var k := |first| + |second|;
    k <= |segments| && segments[..k] == first + second && Plain(t, segments[k..])
  }

  /** An optional `{library}` and an optional `own` lead the plain segments. */
  ghost predicate LedBy(t: Tokens, segments: seq<string>, own: string) {
    || Composed(t, segments, [], []) || Composed(t, segments, [t.library], [])
    || Composed(t, segments, [], [own]) || Composed(t, segments, [t.library], [own])
  }

  lemma TokenIsNotPlain(t: Tokens, segments: seq<string>, i: nat)
    requires ValidTokens(t) && i < |segments| && segments[i] in {t.album, t.smartFolder, t.library}
    ensures !Plain(t, segments)
  {
    assert segments[i] in segments && MatchAt(segments[i], segments[i], 0);
  }

  lemma ComposedCases(t: Tokens, s: seq<string>, a: string, b: string)
    ensures Composed(t, s, [], []) <==> Plain(t, s)
    ensures Composed(t, s, [a], []) <==> s != [] && s[0] == a && Plain(t, s[1..])
    ensures Composed(t, s, [], [a]) <==> s != [] && s[0] == a && Plain(t, s[1..])
    ensures Composed(t, s, [a], [b]) <==> |s| > 1 && s[0] == a && s[1] == b && Plain(t, s[1..][1..])
  {
    assert s[0..] == s;
    if s != [] { assert s[..1] == [s[0]]; }
    if |s| > 1 { assert s[..2] == [s[0], s[1]] && s[1..][1..] == s[2..]; }
  }

  /** Dropping a leading token leaves plain segments exactly when they were
      plain before, or the token led them. */
  lemma SkippedIsPlain(t: Tokens, s: seq<string>, tok: string)
    requires ValidTokens(t) && tok in {t.album, t.smartFolder, t.library}
    ensures Plain(t, Skip(Some(tok), s)) <==> Plain(t, s) || (s != [] && s[0] == tok && Plain(t, s[1..]))
  {
    if s != [] && s[0] == tok { TokenIsNotPlain(t, s, 0); }
  }

  lemma NormalFormLed(t: Tokens, s: seq<string>, own: string)
    requires ValidTokens(t) && own in {t.album, t.smartFolder}
    ensures Plain(t, Skip(Some(own), Skip(Some(t.library), s))) <==> LedBy(t, s, own)
  {
    var rest := Skip(Some(t.library), s);
    ComposedCases(t, s, t.library, own);
    ComposedCases(t, s, own, own);
    SkippedIsPlain(t, rest, own);
    SkippedIsPlain(t, s, t.library);
    if s != [] && s[0] == t.library { TokenIsNotPlain(t, s, 0); }
  }

  lemma AlbumTemplates(t: Tokens, s: string)
    requires ValidTokens(t)
    ensures Accepts(t, s, Albums) <==> LedBy(t, Segments(s), t.album)
  {
    AcceptsIffNormalForm(t, s, Albums);
    NormalFormLed(t, Segments(s), t.album);
  }

  lemma SmartFolderTemplates(t: Tokens, s: string)
    requires ValidTokens(t)
    ensures Accepts(t, s, SmartFolders) <==> LedBy(t, Segments(s), t.smartFolder)
  {
    AcceptsIffNormalForm(t, s, SmartFolders);
    NormalFormLed(t, Segments(s), t.smartFolder);
  }

  /** A template for unfiled photos has no token of its own. */
  lemma UnfiledTemplates(t: Tokens, s: string)
    requires ValidTokens(t)
    ensures Accepts(t, s, Unfiled) <==>
      Composed(t, Segments(s), [], []) || Composed(t, Segments(s), [t.library], [])
  {
    AcceptsIffNormalForm(t, s, Unfiled);
    SkippedIsPlain(t, Segments(s), t.library);
    ComposedCases(t, Segments(s), t.library, t.library);
  }

  // ---- Segments and the wrapper, by what they are for ---------------------

  /** Cutting at slashes, empty pieces dropped: these laws leave no choice. */
  lemma SegmentsLaws(piece: string, rest: string)
    requires '/' !in piece
    ensures Segments(piece) == if piece == "" then [] else [piece]
    ensures Segments(piece + ("/" + rest)) == Segments(piece) + Segments(rest)
  {
    SlashAt(piece, "");
    assert piece + "" == piece;
    var s := piece + ("/" + rest);
    SlashAt(piece, "/" + rest);
    assert s[..|piece|] == piece && s[|piece| + 1..] == rest;
  }

  lemma {:induction false} SlashAt(piece: string, rest: string)
    requires '/' !in piece && (rest == "" || rest[0] == '/')
    ensures FirstSlash(piece + rest) == |piece|
    decreases |piece|
  {
    if piece == "" {
      assert piece + rest == rest;
    } else {
      assert (piece + rest)[1..] == piece[1..] + rest && piece[0] in piece;
      SlashAt(piece[1..], rest);
    }
  }

  /** The wrapper comes off whole, and nothing else does. */
  lemma WrapperComesOff(s: string)
    ensures StripWrapper("{:" + s + "}") == s
    ensures !("{:" <= s) || s[|s| - 1] != '}' ==> StripWrapper(s) == s
  {}
}
