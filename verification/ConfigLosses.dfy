/** The three ways a configuration is lost by being printed, each as an edit
    that turns any configuration that builds into one that does not survive. */
module ConfigLosses {
  import opened Wrappers
  import opened Search
  import opened Text
  import opened Selection
  import opened Config
  import Templates

  /** Printing and resolving again gives back every effective setting. */
  ghost predicate Survives(env: Env, toml: TomlConfig)
    requires Templates.ValidTokens(env.tokens) && Build(env, toml).Ok?
  {
    var c := Build(env, toml).value;
    var r := Build(env, ToToml(env, c));
    r.Ok? && Effective(r.value) == Effective(c)
  }

  ghost predicate BuildsAndIsLost(env: Env, toml: TomlConfig)
    requires Templates.ValidTokens(env.tokens)
  {
    Build(env, toml).Ok? && !Survives(env, toml)
  }

  lemma DataDirBuilds(env: Env, toml: TomlConfig, dir: string)
    requires ValidEnv(env) && env.dataDir.None? && env.usableDirectory(ExpandTilde(env.home, dir))
    ensures Build(env, toml).Ok? ==>
      var r := Build(env, toml.(dataDir := Some(dir)));
      r.Ok? && r.value.auth.cookieDirectory == ExpandTilde(env.home, dir)
  {
    if Build(env, toml).Ok? { BuildParts(env, toml); }
  }

  /** A data directory in the file: the cookie directory falls back. */
  lemma DataDirIsLost(env: Env, toml: TomlConfig, dir: string)
    requires ValidEnv(env) && env.dataDir.None? && env.usableDirectory(ExpandTilde(env.home, dir))
    requires ExpandTilde(env.home, dir) != env.defaultCookieDir
    ensures Build(env, toml).Ok? ==> BuildsAndIsLost(env, toml.(dataDir := Some(dir)))
  {
    DataDirBuilds(env, toml, dir);
    ConfigRoundTrip(env, toml.(dataDir := Some(dir)));
  }

  function Silenced(w: Option<TomlWatch>): Option<TomlWatch> {
    Some(Or(w, NO_WATCH).(notifySystemd := Some(false)))
  }

  /** Notifications switched off under a systemd socket: they come back on. */
  lemma SilenceIsLost(env: Env, toml: TomlConfig)
    requires ValidEnv(env) && env.notifySocket
    ensures Build(env, toml).Ok? ==> BuildsAndIsLost(env, toml.(watch := Silenced(toml.watch)))
  {
    if Build(env, toml).Ok? {
      var edited := toml.(watch := Silenced(toml.watch));
      BuildParts(env, toml);
      BuildParts(env, edited);
      ConfigRoundTrip(env, edited);
    }
  }

  /** An album whose name is a reserved word behind a space. */
  function SpacedAlbum(env: Env, f: TomlFilters): TomlFilters {
    f.(albums := Some([['='] + ([' '] + env.words.all)]))
  }

  /** It is read as a name and printed as the word. */
  lemma SpacedAlbumIsLost(env: Env, toml: TomlConfig)
    requires ValidEnv(env)
    ensures Build(env, toml).Ok? ==> BuildsAndIsLost(env, toml.(filters := SpacedAlbum(env, toml.filters)))
  {
    if Build(env, toml).Ok? {
      var edited := toml.(filters := SpacedAlbum(env, toml.filters));
      BuildParts(env, toml);
      SpacedLiteralTrap(env.words);
      SpacedFiltersBuild(env, toml.filters);
      BuildParts(env, edited);
      ConfigRoundTrip(env, edited);
    }
  }

  lemma SpacedFiltersBuild(env: Env, f: TomlFilters)
    requires ValidEnv(env) && BuildFilters(env, f).Ok?
    ensures var r := BuildFilters(env, SpacedAlbum(env, f));
      && r.Ok? && r.value.media == BuildFilters(env, f).value.media
      && !WellFormedSelected(env, r.value.selected)
  {
    var name := [' '] + env.words.all;
    SpacedLiteralTrap(env.words);
    var r := BuildFilters(env, SpacedAlbum(env, f));
    assert r.Ok? && r.value.selected.albums == NamedAlbums({name}, {});
    assert name in AlbumIncluded(r.value.selected.albums) && IsSpace(name[0]);
  }

  // ---- There are configurations to edit ----------------------------------

  const EMPTY := TomlConfig(
    None, TomlAuth(None, None, None, None, None),
    TomlDownload(None, None, None, None, None, None, None, None, None),
    TomlFilters(None, None, None, None, None, None, None, None, None, None),
    TomlPhotos(None, None, None, None, None, None, None, None, None, None),
    None, None, TomlOther(None, None, TomlServer(None, None), None, None))

  lemma NoBraceNoToken(s: string, tok: string)
    requires Templates.TokenShape(tok) && '{' !in s
    ensures !Templates.Contains(s, tok) && Count(tok, s) == 0
  {
    forall i: nat ensures !MatchAt(tok, s, i) {
      assert i + |tok| <= |s| ==> s[i..i + |tok|][0] == s[i];
    }
    CountPositiveIffOccurs(tok, s);
  }

  lemma NoWrapper(s: string)
    requires '{' !in s
    ensures Templates.StripWrapper(s) == s
  {
    assert s != "" ==> s[0] != '{';
  }

  lemma PlainTemplateAccepted(t: Templates.Tokens, s: string)
    requires Templates.ValidTokens(t) && '{' !in s
    ensures Templates.ValidateTemplate(t, s, Templates.Unfiled)
  {
    NoWrapper(s);
    NoBraceNoToken(s, t.album);
    NoBraceNoToken(s, t.smartFolder);
    NoBraceNoToken(s, t.library);
  }

  /** A category token alone is a template of its own category. */
  lemma TokenAccepted(t: Templates.Tokens, kind: Templates.TemplateKind)
    requires Templates.ValidTokens(t) && Templates.CategoryToken(t, kind).Some?
    requires |Templates.CategoryToken(t, kind).value| > 1 && Templates.CategoryToken(t, kind).value[1] != ':'
    ensures Templates.ValidateTemplate(t, Templates.CategoryToken(t, kind).value, kind)
  {
    var tok := Templates.CategoryToken(t, kind).value;
    var k := Templates.FirstSlash(tok);
    assert k == |tok| && tok[..k] == tok;
    Templates.AcceptsIffNormalForm(t, tok, kind);
  }

  lemma DefaultTemplatesAccepted(t: Templates.Tokens)
    requires t == Templates.TOKENS
    ensures Templates.ValidTokens(t)
    ensures Templates.ValidateTemplate(t, "%Y/%m/%d", Templates.Unfiled)
    ensures Templates.ValidateTemplate(t, t.album, Templates.Albums)
    ensures Templates.ValidateTemplate(t, t.smartFolder, Templates.SmartFolders)
  {
    Templates.TokensAreValid();
    Templates.AlbumToken();
    Templates.SmartFolderToken();
    PlainTemplateAccepted(t, "%Y/%m/%d");
    TokenAccepted(t, Templates.Albums);
    TokenAccepted(t, Templates.SmartFolders);
  }

  lemma EmptyDownloadBuilds(env: Env)
    requires env.tokens == Templates.TOKENS && Templates.ValidTokens(env.tokens)
    ensures BuildDownload(env, EMPTY.download).Ok?
  {
    DefaultTemplatesAccepted(env.tokens);
    var s := ResolveDownload(env, EMPTY.download, None);
    assert AcceptsDownload(env, s);
  }

  lemma EmptyFiltersBuild(env: Env)
    ensures BuildFilters(env, EMPTY.filters).Ok?
    ensures BuildFilters(env, EMPTY.filters).value.media.IsAll()
  {}

  lemma EmptyRestBuilds(env: Env)
    ensures BuildPhotos(EMPTY.photos).Ok? && BuildWatch(env, EMPTY.watch).Ok? && BuildOther(env, EMPTY.other).Ok?
  {}

  lemma EmptyAuthBuilds(env: Env)
    requires env.username != Some("") && env.usableDirectory(CookieDirectory(env, None))
    ensures BuildAuth(env, EMPTY.auth, EMPTY.dataDir).Ok?
  {}

  lemma SectionsBuild(env: Env, toml: TomlConfig)
    requires Templates.ValidTokens(env.tokens)
    requires BuildAuth(env, toml.auth, toml.dataDir).Ok? && BuildDownload(env, toml.download).Ok?
    requires BuildFilters(env, toml.filters).Ok? && BuildFilters(env, toml.filters).value.media.IsAll()
    requires BuildPhotos(toml.photos).Ok? && BuildWatch(env, toml.watch).Ok? && BuildOther(env, toml.other).Ok?
    ensures Build(env, toml).Ok?
  {}

  /** The empty configuration builds. */
  lemma EmptyBuilds(env: Env)
    requires ValidEnv(env) && env.tokens == Templates.TOKENS && env.username != Some("")
    requires env.usableDirectory(CookieDirectory(env, None))
    ensures Build(env, EMPTY).Ok?
  {
    var toml := EMPTY;
    EmptyAuthBuilds(env);
    EmptyDownloadBuilds(env);
    EmptyFiltersBuild(env);
    EmptyRestBuilds(env);
    SectionsBuild(env, toml);
  }
}
