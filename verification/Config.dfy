/** The resolver (`Build`) and the printer (`ToToml`) of the durable
    configuration, section by section. Per-run flags are absent; whatever reads
    text the model does not look into (dates, addresses, bandwidth, glob
    patterns, directories) is a function of the environment. */
module Config {
  import opened Wrappers
  import opened Selection
  import opened Media
  import Bandwidth
  import Doubles
  import Templates
  import RecentLimits
  import DateWindow

  datatype Domain = Com | Cn
  datatype PhotoResolution = NoStill | Original | Medium | Thumb
  datatype LivePhotoResolution = LiveOriginal | LiveMedium | LiveThumb
  datatype LivePhotoMode = Both | ImageOnly | VideoOnly | SkipLive
  datatype MovPolicy = Suffix | SameName
  datatype RawPolicy = AsIs | PreferRaw | PreferJpeg
  datatype FileMatchPolicy = NameSizeDedupWithSuffix | NameId7
  datatype RecentScope = Global | PerFilter

  datatype Env = Env(
    username: Option<string>,
    dataDir: Option<string>,
    notifySocket: bool,
    home: Option<string>,
    defaultCookieDir: string,
    words: Vocabulary,
    tokens: Templates.Tokens,
    double: Doubles.Format,
    calendar: DateWindow.Calendar,
    parseDate: string -> Result<DateWindow.CreatedDateFilter>,
    parseIp: string -> Result<string>,
    allowedDirectory: string -> bool,
    usableDirectory: string -> bool,
    validGlob: string -> bool)

  /** The reserved words are sound, home is absolute and an address reads back
      from its own canonical text. */
  ghost predicate ValidEnv(env: Env) {
    && ValidVocabulary(env.words) && Templates.ValidTokens(env.tokens) && Doubles.ValidFormat(env.double)
    && (env.home.Some? ==> env.home.value != "" && env.home.value[0] == '/')
    && forall s :: env.parseIp(s).Ok? ==> env.parseIp(env.parseIp(s).value) == env.parseIp(s)
  }

  // ---- Small resolvers ---------------------------------------------------

  function Or<T>(o: Option<T>, default: T): T {
    if o.Some? then o.value else default
  }

  function First<T>(a: Option<T>, b: Option<T>): Option<T> {
    if a.Some? then a else b
  }

  function Unless<T(==)>(x: T, default: T): Option<T> {
    if x == default then None else Some(x)
  }

  function OnlyTrue(b: bool): Option<bool> {
    if b then Some(true) else None
  }

  function ExpandTilde(home: Option<string>, path: string): string {
    if "~/" <= path && home.Some? then
      var rest := path[2..];
      if rest != "" && rest[0] == '/' then rest
      else if home.value != "" && home.value[|home.value| - 1] == '/' then home.value + rest
      else home.value + "/" + rest
    else path
  }

  function ExpandAll(home: Option<string>, path: Option<string>): Option<string> {
    if path.Some? then Some(ExpandTilde(home, path.value)) else None
  }

  lemma ExpandTwice(home: Option<string>, path: string)
    requires home.Some? ==> home.value != "" && home.value[0] == '/'
    ensures ExpandTilde(home, ExpandTilde(home, path)) == ExpandTilde(home, path)
  {
    var p := ExpandTilde(home, path);
    if "~/" <= p && home.Some? { assert p[0] == '~'; }
  }

  // ---- [auth] and the data directory -------------------------------------

  datatype TomlAuth = TomlAuth(
    username: Option<string>, password: Option<string>, passwordFile: Option<string>,
    passwordCommand: Option<string>, domain: Option<Domain>)

  datatype AuthConfig = AuthConfig(
    username: string, passwordFile: Option<string>, passwordCommand: Option<string>,
    cookieDirectory: string, domain: Domain)

  function CookieDirectory(env: Env, dataDir: Option<string>): string {
    var dir := First(env.dataDir, dataDir);
    if dir.Some? then ExpandTilde(env.home, dir.value) else env.defaultCookieDir
  }

  function BuildAuth(env: Env, a: TomlAuth, dataDir: Option<string>): Result<AuthConfig> {
    var username := First(env.username, a.username);
    var cookies := CookieDirectory(env, dataDir);
    if a.password.Some? || username == Some("") then Err
    else if a.passwordFile.Some? && a.passwordCommand.Some? then Err
    else if !env.usableDirectory(cookies) then Err
    else Ok(AuthConfig(Or(username, ""), ExpandAll(env.home, a.passwordFile), a.passwordCommand, cookies,
                       Or(a.domain, Com)))
  }

  function AuthToToml(a: AuthConfig): TomlAuth {
    TomlAuth(Unless(a.username, ""), None, a.passwordFile, a.passwordCommand, Unless(a.domain, Com))
  }

  /** The data directory is never printed, so authentication settings come back
      exactly when their directory does not depend on it. */
  lemma AuthRoundTrip(env: Env, toml: TomlAuth, dataDir: Option<string>)
    requires ValidEnv(env) && BuildAuth(env, toml, dataDir).Ok?
    ensures var a := BuildAuth(env, toml, dataDir).value;
            BuildAuth(env, AuthToToml(a), None) == Ok(a) <==> a.cookieDirectory == CookieDirectory(env, None)
  {
    if toml.passwordFile.Some? { ExpandTwice(env.home, toml.passwordFile.value); }
  }

  // ---- [download] --------------------------------------------------------

  datatype TomlDownload = TomlDownload(
    directory: Option<string>, folderStructure: Option<string>, folderStructureAlbums: Option<string>,
    folderStructureSmartFolders: Option<string>, threads: Option<nat>, bandwidthLimit: Option<string>,
    tempSuffix: Option<string>, perTransfer: Option<nat>, perAsset: Option<nat>)

  datatype DownloadSettings = DownloadSettings(
    directory: string, folderStructure: string, folderStructureAlbums: string,
    folderStructureSmartFolders: string, threads: nat, bandwidthLimit: Option<nat>, tempSuffix: string,
    maxRetries: nat, retryDelaySecs: nat, maxDownloadAttempts: nat)

  function SmartRetryDelay(maxRetries: nat): nat {
    if maxRetries == 0 then 5 else if maxRetries <= 2 then 2 else if maxRetries == 3 then 5
    else if maxRetries <= 6 then 10 else 30
  }

  function BuildBandwidth(env: Env, text: Option<string>): Result<Option<nat>> {
    if text.None? then Ok(None)
    else
      var limit := Bandwidth.ParseBandwidth(env.double, text.value);
      if limit.Err? then Err else Ok(Some(limit.value))
  }

  /** Given values over defaults. A bandwidth limit alone means one thread. */
  function ResolveDownload(env: Env, d: TomlDownload, bandwidth: Option<nat>): DownloadSettings {
    var retries := Or(d.perTransfer, 3);
    DownloadSettings(
      Or(ExpandAll(env.home, d.directory), ""), Or(d.folderStructure, "%Y/%m/%d"),
      Or(d.folderStructureAlbums, env.tokens.album), Or(d.folderStructureSmartFolders, env.tokens.smartFolder),
      Or(d.threads, if bandwidth.Some? then 1 else 10), bandwidth, Or(d.tempSuffix, ".kei-tmp"),
      retries, SmartRetryDelay(retries), Or(d.perAsset, 10))
  }

  predicate AcceptsDownload(env: Env, s: DownloadSettings)
    requires Templates.ValidTokens(env.tokens)
  {
    && (s.directory == "" || env.allowedDirectory(s.directory))
    && 1 <= s.threads <= 64 && s.maxRetries <= 100
    && Templates.ValidateTemplate(env.tokens, s.folderStructure, Templates.Unfiled)
    && Templates.ValidateTemplate(env.tokens, s.folderStructureAlbums, Templates.Albums)
    && Templates.ValidateTemplate(env.tokens, s.folderStructureSmartFolders, Templates.SmartFolders)
  }

  function BuildDownload(env: Env, d: TomlDownload): Result<DownloadSettings>
    requires Templates.ValidTokens(env.tokens)
  {
    var bandwidth := BuildBandwidth(env, d.bandwidthLimit);
    if bandwidth.Err? || !AcceptsDownload(env, ResolveDownload(env, d, bandwidth.value)) then Err
    else Ok(ResolveDownload(env, d, bandwidth.value))
  }

  function BandwidthToToml(limit: Option<nat>): Option<string> {
    if limit.Some? then Some(RecentLimits.ShowNat(limit.value)) else None
  }

  function DownloadToToml(env: Env, d: DownloadSettings): TomlDownload {
    TomlDownload(Unless(d.directory, ""), Some(d.folderStructure), Unless(d.folderStructureAlbums, env.tokens.album),
                 Unless(d.folderStructureSmartFolders, env.tokens.smartFolder), Some(d.threads),
                 BandwidthToToml(d.bandwidthLimit),
                 Unless(d.tempSuffix, ".kei-tmp"), Some(d.maxRetries), Unless(d.maxDownloadAttempts, 10))
  }

  lemma DownloadResolvesBack(env: Env, toml: TomlDownload, bandwidth: Option<nat>)
    requires ValidEnv(env)
    ensures var d := ResolveDownload(env, toml, bandwidth);
            ResolveDownload(env, DownloadToToml(env, d), bandwidth) == d
  {
    if toml.directory.Some? { ExpandTwice(env.home, toml.directory.value); }
  }

  /** The bandwidth limit survives the detour through a double. */
  lemma BandwidthRoundTrip(env: Env, text: Option<string>)
    requires ValidEnv(env) && BuildBandwidth(env, text).Ok?
    ensures BuildBandwidth(env, BandwidthToToml(BuildBandwidth(env, text).value)) == BuildBandwidth(env, text)
  {
    if text.Some? { Bandwidth.ParsedReadsBack(env.double, text.value); }
  }

  /** Download settings always come back. */
  lemma DownloadRoundTrip(env: Env, toml: TomlDownload)
    requires ValidEnv(env) && BuildDownload(env, toml).Ok?
    ensures var d := BuildDownload(env, toml).value;
            BuildDownload(env, DownloadToToml(env, d)) == Ok(d)
  {
    var d := BuildDownload(env, toml).value;
    DownloadResolvesBack(env, toml, d.bandwidthLimit);
    BandwidthRoundTrip(env, toml.bandwidthLimit);
  }

  // ---- [filters] ---------------------------------------------------------

  datatype TomlFilters = TomlFilters(
    libraries: Option<seq<string>>, albums: Option<seq<string>>, smartFolders: Option<seq<string>>,
    unfiled: Option<bool>, media: Option<seq<MediaKind>>, filenameExclude: Option<seq<string>>,
    recent: Option<RecentLimits.RecentLimit>, recentScope: Option<RecentScope>,
    skipCreatedBefore: Option<string>, skipCreatedAfter: Option<string>)

  datatype Selected = Selected(
    libraries: LibrarySelector, albums: AlbumSelector, albumsExplicit: bool,
    smartFolders: SmartFolderSelector, smartFoldersExplicit: bool, unfiled: bool)

  datatype Dates = Dates(
    recent: Option<nat>, recentScope: RecentScope,
    skipBefore: Option<DateWindow.CreatedDateFilter>, skipAfter: Option<DateWindow.CreatedDateFilter>,
    persistentRecent: Option<RecentLimits.RecentLimit>, persistentScope: Option<RecentScope>,
    persistentBefore: Option<string>, persistentAfter: Option<string>)

  datatype FilterConfig = FilterConfig(
    selected: Selected, media: MediaSelection, filenameExclude: seq<string>, dates: Dates)

  ghost function BuildSelected(env: Env, f: TomlFilters): Result<Selected> {
    var rawLibraries, rawAlbums, rawFolders := Or(f.libraries, []), Or(f.albums, []), Or(f.smartFolders, []);
    var libraries, albums, folders :=
      LibrariesOf(env.words, rawLibraries), AlbumsOf(env.words, rawAlbums, true), SmartFoldersOf(env.words, rawFolders);
    Select(libraries, albums, rawAlbums != [], folders, rawFolders != [], Or(f.unfiled, true))
  }

  function Select(
    libraries: Result<LibrarySelector>, albums: Result<AlbumSelector>, albumsExplicit: bool,
    folders: Result<SmartFolderSelector>, foldersExplicit: bool, unfiled: bool): Result<Selected>
  {
    if libraries.Err? || albums.Err? || folders.Err? then Err
    else Ok(Selected(libraries.value, albums.value, albumsExplicit, folders.value, foldersExplicit, unfiled))
  }

  ghost predicate SameSelection(r: Result<Selected>, s: Selected) {
    && r.Ok? && r.value.libraries == s.libraries && r.value.albums == s.albums
    && r.value.smartFolders == s.smartFolders && r.value.unfiled == s.unfiled
  }

  lemma SelectDecides(
    libraries: Result<LibrarySelector>, albums: Result<AlbumSelector>, albumsExplicit: bool,
    folders: Result<SmartFolderSelector>, foldersExplicit: bool, s: Selected)
    ensures SameSelection(Select(libraries, albums, albumsExplicit, folders, foldersExplicit, s.unfiled), s)
       <==> libraries == Ok(s.libraries) && albums == Ok(s.albums) && folders == Ok(s.smartFolders)
  {}

  /** The default selections are left out. */
  function LibrariesToToml(env: Env, s: LibrarySelector): Option<seq<string>> {
    Unless(LibrariesToRaw(env.words, s), [env.words.primary])
  }

  function AlbumsToToml(env: Env, s: AlbumSelector): Option<seq<string>> {
    Unless(AlbumsToRaw(env.words, s), [env.words.all])
  }

  function SmartFoldersToToml(env: Env, s: SmartFolderSelector): Option<seq<string>> {
    if s.NoFolders? then None else Some(SmartFoldersToRaw(env.words, s))
  }

  ghost predicate WellFormedSelected(env: Env, s: Selected) {
    && WellFormedLibraries(env.words, s.libraries)
    && WellFormedAlbums(env.words, s.albums)
    && WellFormedFolders(env.words, s.smartFolders)
  }

  function ParseDate(env: Env, text: Option<string>): Result<Option<DateWindow.CreatedDateFilter>> {
    if text.None? then Ok(None)
    else if env.parseDate(text.value).Err? then Err
    else Ok(Some(env.parseDate(text.value).value))
  }

  /** The resolver only warns of a window that admits nothing, but the check
      itself panics where the decision has no answer. */
  predicate WindowChecked(
    env: Env, before: Option<DateWindow.CreatedDateFilter>, after: Option<DateWindow.CreatedDateFilter>)
  {
    before.Some? && after.Some? ==> DateWindow.IsStrictlyAfter(before.value, after.value, env.calendar).Some?
  }

  function BuildDates(env: Env, f: TomlFilters): Result<Dates> {
    var days := f.recent.Some? && f.recent.value.Days?;
    if days && f.skipCreatedBefore.Some? then Err
    else if f.recentScope.Some? && (f.recent.None? || days) then Err
    else
      var beforeText := if days then Some(RecentLimits.ShowNat(f.recent.value.n) + "d") else f.skipCreatedBefore;
      var before, after := ParseDate(env, beforeText), ParseDate(env, f.skipCreatedAfter);
      if before.Err? || after.Err? || !WindowChecked(env, before.value, after.value) then Err
      else Ok(Dates(if f.recent.Some? && f.recent.value.Count? then Some(f.recent.value.n) else None,
                    Or(f.recentScope, Global), before.value, after.value,
                    f.recent, f.recentScope, f.skipCreatedBefore, f.skipCreatedAfter))
  }

  ghost function BuildFilters(env: Env, f: TomlFilters): Result<FilterConfig> {
    var selected, media, dates := BuildSelected(env, f), MediaOf(f.media, None, None), BuildDates(env, f);
    Filter(env, selected, media, Or(f.filenameExclude, []), dates)
  }

  function Filter(
    env: Env, selected: Result<Selected>, media: Result<MediaSelection>, globs: seq<string>, dates: Result<Dates>)
    : Result<FilterConfig>
  {
    if selected.Err? || media.Err? || dates.Err? || !(forall p :: p in globs ==> env.validGlob(p)) then Err
    else Ok(FilterConfig(selected.value, media.value, globs, dates.value))
  }

  lemma FilterDecides(env: Env, c: FilterConfig, selected: Result<Selected>)
    requires forall p :: p in c.filenameExclude ==> env.validGlob(p)
    ensures var dates := c.dates.(persistentScope := ScopeToToml(c.dates.persistentScope));
            var r := Filter(env, selected, Ok(c.media), c.filenameExclude, Ok(dates));
            (r.Ok? && EffectiveFilters(r.value) == EffectiveFilters(c)) <==> SameSelection(selected, c.selected)
  {}

  function ScopeToToml(scope: Option<RecentScope>): Option<RecentScope> {
    if scope == Some(Global) then None else scope
  }

  function FiltersToToml(env: Env, c: FilterConfig): TomlFilters {
    TomlFilters(LibrariesToToml(env, c.selected.libraries), AlbumsToToml(env, c.selected.albums),
                SmartFoldersToToml(env, c.selected.smartFolders), if c.selected.unfiled then None else Some(false),
                MediaToToml(c.media), Unless(c.filenameExclude, []), c.dates.persistentRecent,
                ScopeToToml(c.dates.persistentScope), c.dates.persistentBefore, c.dates.persistentAfter)
  }

  /** Everything a run depends on: not whether a selector was written out, nor
      whether the default scope was. */
  function EffectiveFilters(c: FilterConfig): FilterConfig {
    c.(selected := c.selected.(albumsExplicit := false, smartFoldersExplicit := false),
       dates := c.dates.(persistentScope := ScopeToToml(c.dates.persistentScope)))
  }

  /** Leaving out the default selections reads back as printing them. */
  lemma OmittedLibrariesReadAlike(env: Env, s: LibrarySelector)
    requires ValidEnv(env)
    ensures LibrariesOf(env.words, Or(LibrariesToToml(env, s), []))
         == LibrariesOf(env.words, LibrariesToRaw(env.words, s))
  {
    if LibrariesToRaw(env.words, s) == [env.words.primary] { DefaultLibrariesReadAlike(env.words); }
  }

  lemma OmittedAlbumsReadAlike(env: Env, s: AlbumSelector)
    requires ValidEnv(env)
    ensures AlbumsOf(env.words, Or(AlbumsToToml(env, s), []), true)
         == AlbumsOf(env.words, AlbumsToRaw(env.words, s), true)
  {
    if AlbumsToRaw(env.words, s) == [env.words.all] { DefaultAlbumsReadAlike(env.words); }
  }

  /** Selections come back exactly when their names can be printed. */
  lemma SelectedRoundTrip(env: Env, c: FilterConfig)
    requires ValidEnv(env)
    ensures SameSelection(BuildSelected(env, FiltersToToml(env, c)), c.selected)
       <==> WellFormedSelected(env, c.selected)
  {
    var v, f, s := env.words, FiltersToToml(env, c), c.selected;
    OmittedLibrariesReadAlike(env, s.libraries);
    OmittedAlbumsReadAlike(env, s.albums);
    LibrariesRoundTrip(v, s.libraries);
    AlbumsRoundTrip(v, s.albums);
    SmartFoldersRoundTrip(v, s.smartFolders);
    SelectDecides(LibrariesOf(v, Or(f.libraries, [])), AlbumsOf(v, Or(f.albums, []), true), Or(f.albums, []) != [],
                  SmartFoldersOf(v, Or(f.smartFolders, [])), Or(f.smartFolders, []) != [], s);
  }

  lemma DatesRoundTrip(env: Env, f: TomlFilters, c: FilterConfig)
    requires BuildDates(env, f) == Ok(c.dates)
    ensures BuildDates(env, FiltersToToml(env, c))
         == Ok(c.dates.(persistentScope := ScopeToToml(c.dates.persistentScope)))
  {}

  lemma FiltersRoundTrip(env: Env, toml: TomlFilters)
    requires ValidEnv(env) && BuildFilters(env, toml).Ok?
    ensures var c := BuildFilters(env, toml).value;
            var r := BuildFilters(env, FiltersToToml(env, c));
            (r.Ok? && EffectiveFilters(r.value) == EffectiveFilters(c)) <==> WellFormedSelected(env, c.selected)
  {
    var c := BuildFilters(env, toml).value;
    SelectedRoundTrip(env, c);
    DatesRoundTrip(env, toml, c);
    MediaRoundTrip(c.media);
    FilterDecides(env, c, BuildSelected(env, FiltersToToml(env, c)));
  }

  // ---- [photos], [metadata], [import] ------------------------------------

  datatype TomlPhotos = TomlPhotos(
    resolution: Option<PhotoResolution>, liveResolution: Option<LivePhotoResolution>,
    livePhotoMode: Option<LivePhotoMode>, movPolicy: Option<MovPolicy>, edited: Option<bool>,
    alternative: Option<bool>, rawPolicy: Option<RawPolicy>, fileMatchPolicy: Option<FileMatchPolicy>,
    forceResolution: Option<bool>, keepUnicode: Option<bool>)

  datatype PhotoConfig = PhotoConfig(
    resolution: PhotoResolution, liveResolution: LivePhotoResolution, livePhotoMode: LivePhotoMode,
    movPolicy: MovPolicy, edited: bool, alternative: bool, rawPolicy: RawPolicy,
    fileMatchPolicy: FileMatchPolicy, forceResolution: bool, keepUnicode: bool)

  function BuildPhotos(p: TomlPhotos): Result<PhotoConfig> {
    var c := PhotoConfig(
      Or(p.resolution, Original), Or(p.liveResolution, LiveOriginal), Or(p.livePhotoMode, Both),
      Or(p.movPolicy, Suffix),
      Or(p.edited, false), Or(p.alternative, false), Or(p.rawPolicy, AsIs),
      Or(p.fileMatchPolicy, NameSizeDedupWithSuffix), Or(p.forceResolution, false), Or(p.keepUnicode, false));
    if c.resolution == NoStill && !c.edited && !c.alternative then Err else Ok(c)
  }

  function PhotosToToml(c: PhotoConfig): TomlPhotos {
    TomlPhotos(Unless(c.resolution, Original), Unless(c.liveResolution, LiveOriginal), Unless(c.livePhotoMode, Both),
               Unless(c.movPolicy, Suffix), OnlyTrue(c.edited), OnlyTrue(c.alternative), Unless(c.rawPolicy, AsIs),
               Unless(c.fileMatchPolicy, NameSizeDedupWithSuffix), OnlyTrue(c.forceResolution), OnlyTrue(c.keepUnicode))
  }

  datatype TomlMetadata = TomlMetadata(
    datetime: Option<bool>, rating: Option<bool>, gps: Option<bool>, description: Option<bool>,
    embedXmp: Option<bool>, xmpSidecar: Option<bool>)

  datatype MetadataConfig = MetadataConfig(
    datetime: bool, rating: bool, gps: bool, description: bool, embedXmp: bool, xmpSidecar: bool)

  function BuildMetadata(m: Option<TomlMetadata>): MetadataConfig {
    if m.None? then MetadataConfig(false, false, false, false, false, false)
    else MetadataConfig(Or(m.value.datetime, false), Or(m.value.rating, false), Or(m.value.gps, false),
                        Or(m.value.description, false), Or(m.value.embedXmp, false), Or(m.value.xmpSidecar, false))
  }

  function MetadataToToml(c: MetadataConfig): Option<TomlMetadata> {
    if c.datetime || c.rating || c.gps || c.description || c.embedXmp || c.xmpSidecar then
      Some(TomlMetadata(OnlyTrue(c.datetime), OnlyTrue(c.rating), OnlyTrue(c.gps), OnlyTrue(c.description),
                        OnlyTrue(c.embedXmp), OnlyTrue(c.xmpSidecar)))
    else None
  }

  // ---- [watch] and the rest ----------------------------------------------

  datatype TomlWatch = TomlWatch(
    interval: Option<nat>, notifySystemd: Option<bool>, pidFile: Option<string>, reconcileEvery: Option<nat>)

  datatype WatchConfig = WatchConfig(
    interval: Option<nat>, notifySystemd: bool, pidFile: Option<string>, reconcileEvery: Option<nat>)

  const NO_WATCH := TomlWatch(None, None, None, None)

  function BuildWatch(env: Env, section: Option<TomlWatch>): Result<WatchConfig> {
    var w := Or(section, NO_WATCH);
    if w.interval.Some? && !(60 <= w.interval.value <= 86400) then Err
    else Ok(WatchConfig(w.interval, Or(w.notifySystemd, env.notifySocket), w.pidFile,
                        if w.reconcileEvery == Some(0) then None else w.reconcileEvery))
  }

  function WatchToToml(c: WatchConfig): Option<TomlWatch> {
    if c.interval.Some? || c.notifySystemd || c.pidFile.Some? || c.reconcileEvery.Some? then
      Some(TomlWatch(c.interval, OnlyTrue(c.notifySystemd), c.pidFile, c.reconcileEvery))
    else None
  }

  /** Notifications switched off are not printed, so they come back exactly
      unless a systemd socket would switch them on. */
  lemma WatchRoundTrip(env: Env, toml: Option<TomlWatch>)
    requires BuildWatch(env, toml).Ok?
    ensures var w := BuildWatch(env, toml).value;
            BuildWatch(env, WatchToToml(w)) == Ok(w) <==> (env.notifySocket ==> w.notifySystemd)
  {}

  datatype TomlUi = TomlUi(friendly: Option<bool>, progressBar: Option<bool>)

  datatype TomlServer = TomlServer(port: Option<nat>, bind: Option<string>)

  datatype OtherConfig = OtherConfig(
    script: Option<string>, reportJson: Option<string>, port: nat, bind: string,
    friendlyRequest: Option<bool>, noProgressBar: bool, strictImport: bool)

  datatype TomlOther = TomlOther(
    script: Option<string>, reportJson: Option<string>, server: TomlServer, ui: Option<TomlUi>,
    strictImport: Option<bool>)

  function BuildOther(env: Env, t: TomlOther): Result<OtherConfig> {
    var bind := if t.server.bind.Some? then env.parseIp(t.server.bind.value) else Ok("0.0.0.0");
    var ui := Or(t.ui, TomlUi(None, None));
    if bind.Err? then Err
    else Ok(OtherConfig(ExpandAll(env.home, t.script), ExpandAll(env.home, t.reportJson), Or(t.server.port, 9090),
                        bind.value, ui.friendly, !Or(ui.progressBar, true), Or(t.strictImport, false)))
  }

  function OtherToToml(c: OtherConfig): TomlOther {
    TomlOther(c.script, c.reportJson, TomlServer(Some(c.port), Unless(c.bind, "0.0.0.0")),
              if c.friendlyRequest.Some? || c.noProgressBar
              then Some(TomlUi(c.friendlyRequest, if c.noProgressBar then Some(false) else None)) else None,
              OnlyTrue(c.strictImport))
  }

  lemma OtherRoundTrip(env: Env, toml: TomlOther)
    requires ValidEnv(env) && BuildOther(env, toml).Ok?
    ensures var c := BuildOther(env, toml).value;
            BuildOther(env, OtherToToml(c)) == Ok(c)
  {
    if toml.script.Some? { ExpandTwice(env.home, toml.script.value); }
    if toml.reportJson.Some? { ExpandTwice(env.home, toml.reportJson.value); }
  }

  // ---- The whole configuration -------------------------------------------

  datatype TomlConfig = TomlConfig(
    dataDir: Option<string>, auth: TomlAuth, download: TomlDownload, filters: TomlFilters, photos: TomlPhotos,
    metadata: Option<TomlMetadata>, watch: Option<TomlWatch>, other: TomlOther)

  datatype Config = Config(
    auth: AuthConfig, download: DownloadSettings, filters: FilterConfig, photos: PhotoConfig,
    metadata: MetadataConfig, watch: WatchConfig, other: OtherConfig)

  ghost function Build(env: Env, t: TomlConfig): Result<Config>
    requires Templates.ValidTokens(env.tokens)
  {
    Assemble(BuildAuth(env, t.auth, t.dataDir), BuildDownload(env, t.download), BuildFilters(env, t.filters),
             BuildPhotos(t.photos), BuildMetadata(t.metadata), BuildWatch(env, t.watch), BuildOther(env, t.other))
  }

  /** One failing section fails the whole; so does a selection of live photos
      alone when live photos are to be skipped. */
  function Assemble(
    auth: Result<AuthConfig>, download: Result<DownloadSettings>, filters: Result<FilterConfig>,
    photos: Result<PhotoConfig>, metadata: MetadataConfig, watch: Result<WatchConfig>, other: Result<OtherConfig>)
    : Result<Config>
  {
    if auth.Err? || download.Err? || filters.Err? || photos.Err? || watch.Err? || other.Err? then Err
    else if filters.value.media == MediaSelection(false, false, true) && photos.value.livePhotoMode == SkipLive then Err
    else Ok(Config(auth.value, download.value, filters.value, photos.value, metadata, watch.value, other.value))
  }

  lemma AssembleDecides(
    c: Config, auth: Result<AuthConfig>, download: Result<DownloadSettings>, filters: Result<FilterConfig>,
    watch: Result<WatchConfig>)
    requires !(c.filters.media == MediaSelection(false, false, true) && c.photos.livePhotoMode == SkipLive)
    ensures var r := Assemble(auth, download, filters, Ok(c.photos), c.metadata, watch, Ok(c.other));
            (r.Ok? && Effective(r.value) == Effective(c)) <==>
              && auth == Ok(c.auth) && download == Ok(c.download) && watch == Ok(c.watch)
              && filters.Ok? && EffectiveFilters(filters.value) == EffectiveFilters(c.filters)
  {}

  lemma PrintIgnoresTheRest(env: Env, a: Config, b: Config)
    requires Effective(a) == Effective(b)
    ensures ToToml(env, a) == ToToml(env, b)
  {
    FiltersPrintAlike(env, a.filters, b.filters);
  }

  lemma FiltersPrintAlike(env: Env, a: FilterConfig, b: FilterConfig)
    requires EffectiveFilters(a) == EffectiveFilters(b)
    ensures FiltersToToml(env, a) == FiltersToToml(env, b)
  {}

  function ToToml(env: Env, c: Config): TomlConfig {
    TomlConfig(None, AuthToToml(c.auth), DownloadToToml(env, c.download), FiltersToToml(env, c.filters),
               PhotosToToml(c.photos), MetadataToToml(c.metadata), WatchToToml(c.watch), OtherToToml(c.other))
  }

  function Effective(c: Config): Config {
    c.(filters := EffectiveFilters(c.filters))
  }

  /** What must hold for a configuration to survive being printed. */
  ghost predicate Restorable(env: Env, c: Config) {
    && c.auth.cookieDirectory == CookieDirectory(env, None)
    && WellFormedSelected(env, c.filters.selected)
    && (env.notifySocket ==> c.watch.notifySystemd)
  }

  lemma PhotosRoundTrip(toml: TomlPhotos)
    requires BuildPhotos(toml).Ok?
    ensures BuildPhotos(PhotosToToml(BuildPhotos(toml).value)) == BuildPhotos(toml)
  {}

  lemma MetadataRoundTrip(m: MetadataConfig)
    ensures BuildMetadata(MetadataToToml(m)) == m
  {}

  lemma BuildParts(env: Env, toml: TomlConfig)
    requires Templates.ValidTokens(env.tokens) && Build(env, toml).Ok?
    ensures var c := Build(env, toml).value;
            && BuildAuth(env, toml.auth, toml.dataDir) == Ok(c.auth)
            && BuildDownload(env, toml.download) == Ok(c.download)
            && BuildFilters(env, toml.filters) == Ok(c.filters) && BuildPhotos(toml.photos) == Ok(c.photos)
            && BuildWatch(env, toml.watch) == Ok(c.watch) && BuildOther(env, toml.other) == Ok(c.other)
            && !(c.filters.media == MediaSelection(false, false, true) && c.photos.livePhotoMode == SkipLive)
  {}

  /** The sections that always come back, taken out of the question. */
  lemma BuildPrinted(env: Env, toml: TomlConfig, c: Config)
    requires ValidEnv(env)
    ensures var t := ToToml(env, c);
            Build(env, toml) == Ok(c) ==>
            Build(env, t) == Assemble(BuildAuth(env, t.auth, None), BuildDownload(env, t.download),
                                      BuildFilters(env, t.filters), Ok(c.photos), c.metadata,
                                      BuildWatch(env, t.watch), Ok(c.other))
  {
    if Build(env, toml) == Ok(c) {
      BuildParts(env, toml);
      PhotosRoundTrip(toml.photos);
      MetadataRoundTrip(c.metadata);
      OtherRoundTrip(env, toml.other);
    }
  }

  lemma PartsDecide(env: Env, toml: TomlConfig, c: Config)
    requires ValidEnv(env)
    ensures var t := ToToml(env, c);
            var filters := BuildFilters(env, t.filters);
            Build(env, toml) == Ok(c) ==>
            (Restorable(env, c) <==>
              && BuildAuth(env, t.auth, None) == Ok(c.auth) && BuildDownload(env, t.download) == Ok(c.download)
              && BuildWatch(env, t.watch) == Ok(c.watch)
              && filters.Ok? && EffectiveFilters(filters.value) == EffectiveFilters(c.filters))
  {
    if Build(env, toml) == Ok(c) {
      BuildParts(env, toml);
      AuthRoundTrip(env, toml.auth, toml.dataDir);
      DownloadRoundTrip(env, toml.download);
      FiltersRoundTrip(env, toml.filters);
      WatchRoundTrip(env, toml.watch);
    }
  }

  /** Printing a resolved configuration and resolving the print restores every
      effective setting if and only if the configuration is restorable, and
      then printing again changes nothing. */
  lemma ConfigRoundTrip(env: Env, toml: TomlConfig)
    requires ValidEnv(env)
    ensures Build(env, toml).Ok? ==>
      var c := Build(env, toml).value;
      var r := Build(env, ToToml(env, c));
      && ((r.Ok? && Effective(r.value) == Effective(c)) <==> Restorable(env, c))
      && (Restorable(env, c) ==> ToToml(env, r.value) == ToToml(env, c))
  {
    if Build(env, toml).Ok? {
      var c := Build(env, toml).value;
      var t := ToToml(env, c);
      BuildParts(env, toml);
      BuildPrinted(env, toml, c);
      PartsDecide(env, toml, c);
      AssembleDecides(c, BuildAuth(env, t.auth, None), BuildDownload(env, t.download), BuildFilters(env, t.filters),
                      BuildWatch(env, t.watch));
      if Restorable(env, c) { PrintIgnoresTheRest(env, Build(env, t).value, c); }
    }
  }
}
