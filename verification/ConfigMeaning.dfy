/** What a resolved configuration holds, in terms of the file it came from: a
    value that is given wins, one that is not has its default, and what is
    refused is refused for a reason in the file. */
module ConfigMeaning {
  import opened Wrappers
  import opened Selection
  import opened Media
  import opened Config
  import Bandwidth
  import RecentLimits
  import DateWindow
  import Templates

  ghost predicate Settles<T(!new)>(given: Option<T>, default: T, v: T) {
    (given.Some? ==> v == given.value) && (given.None? ==> v == default)
  }

  // ---- Paths --------------------------------------------------------------

  /** Only a leading `~/` is expanded, and only when there is a home: what
      follows is joined to it, or stands alone when it is absolute itself. */
  lemma ExpandMeaning(home: string, path: string)
    requires home != ""
    ensures ExpandTilde(None, path) == path
    ensures |path| < 2 || path[0] != '~' || path[1] != '/' ==> ExpandTilde(Some(home), path) == path
    ensures path == "" || path[0] != '/' ==>
      ExpandTilde(Some(home), "~/" + path) == home + (if home[|home| - 1] == '/' then "" else "/") + path
    ensures path != "" && path[0] == '/' ==> ExpandTilde(Some(home), "~/" + path) == path
  {
    assert ("~/" + path)[2..] == path;
  }

  ghost predicate Expanded(env: Env, given: Option<string>, v: Option<string>) {
    (given.Some? ==> v == Some(ExpandTilde(env.home, given.value))) && (given.None? ==> v == None)
  }

  // ---- [auth] -------------------------------------------------------------

  /** The environment's directory, or the file's, or the default. */
  ghost predicate Cookies(env: Env, dataDir: Option<string>, dir: string) {
    && (env.dataDir.Some? ==> dir == ExpandTilde(env.home, env.dataDir.value))
    && (env.dataDir.None? && dataDir.Some? ==> dir == ExpandTilde(env.home, dataDir.value))
    && (env.dataDir.None? && dataDir.None? ==> dir == env.defaultCookieDir)
  }

  /** The environment's name, or the file's, or none. */
  ghost predicate Username(env: Env, a: TomlAuth, name: Option<string>) {
    if env.username.Some? then name == env.username else name == a.username
  }

  lemma AuthMeaning(env: Env, a: TomlAuth, dataDir: Option<string>, name: Option<string>, dir: string)
    requires Username(env, a, name) && Cookies(env, dataDir, dir)
    ensures var r := BuildAuth(env, a, dataDir);
      && (r.Err? <==>
            || a.password.Some? || name == Some("") || (a.passwordFile.Some? && a.passwordCommand.Some?)
            || !env.usableDirectory(dir))
      && (r.Ok? ==>
            && Settles(name, "", r.value.username) && Settles(a.domain, Com, r.value.domain)
            && Expanded(env, a.passwordFile, r.value.passwordFile)
            && r.value.passwordCommand == a.passwordCommand && r.value.cookieDirectory == dir)
  {}

  // ---- [download] ---------------------------------------------------------

  /** The first pause before a retry, from how many retries there may be. */
  ghost predicate PatientDelay(retries: nat, secs: nat) {
    && (retries == 0 ==> secs == 5) && (1 <= retries <= 2 ==> secs == 2) && (retries == 3 ==> secs == 5)
    && (4 <= retries <= 6 ==> secs == 10) && (retries >= 7 ==> secs == 30)
  }

  /** A bandwidth limit without a thread count means a single thread. */
  ghost predicate Threads(d: TomlDownload, threads: nat) {
    Settles(d.threads, if d.bandwidthLimit.Some? then 1 else 10, threads)
  }

  lemma DownloadMeaning(env: Env, d: TomlDownload)
    requires Templates.ValidTokens(env.tokens) && BuildDownload(env, d).Ok?
    ensures var s := BuildDownload(env, d).value;
      && Settles(if d.directory.Some? then Some(ExpandTilde(env.home, d.directory.value)) else None, "", s.directory)
      && Settles(d.folderStructure, "%Y/%m/%d", s.folderStructure)
      && Settles(d.folderStructureAlbums, env.tokens.album, s.folderStructureAlbums)
      && Settles(d.folderStructureSmartFolders, env.tokens.smartFolder, s.folderStructureSmartFolders)
      && Threads(d, s.threads) && Settles(d.tempSuffix, ".kei-tmp", s.tempSuffix)
      && Settles(d.perTransfer, 3, s.maxRetries) && PatientDelay(s.maxRetries, s.retryDelaySecs)
      && Settles(d.perAsset, 10, s.maxDownloadAttempts)
      && (d.bandwidthLimit.None? ==> s.bandwidthLimit == None)
      && (d.bandwidthLimit.Some? ==>
            var r := Bandwidth.ParseBandwidth(env.double, d.bandwidthLimit.value);
            r.Ok? && s.bandwidthLimit == Some(r.value))
  {}

  /** A download section that is refused: an unreadable limit, a number out of
      range, a directory that is not allowed or a template that is not valid. */
  lemma DownloadRefused(env: Env, d: TomlDownload, threads: nat, retries: nat, directory: string)
    requires Templates.ValidTokens(env.tokens)
    requires Threads(d, threads) && Settles(d.perTransfer, 3, retries)
    requires Settles(if d.directory.Some? then Some(ExpandTilde(env.home, d.directory.value)) else None, "", directory)
    ensures BuildDownload(env, d).Err? <==>
      || (d.bandwidthLimit.Some? && Bandwidth.ParseBandwidth(env.double, d.bandwidthLimit.value).Err?)
      || threads < 1 || threads > 64 || retries > 100
      || (directory != "" && !env.allowedDirectory(directory))
      || !TemplateAccepted(env, d.folderStructure, "%Y/%m/%d", Templates.Unfiled)
      || !TemplateAccepted(env, d.folderStructureAlbums, env.tokens.album, Templates.Albums)
      || !TemplateAccepted(env, d.folderStructureSmartFolders, env.tokens.smartFolder, Templates.SmartFolders)
  {}

  predicate TemplateAccepted(env: Env, given: Option<string>, default: string, kind: Templates.TemplateKind)
    requires Templates.ValidTokens(env.tokens)
  {
    match given
    case Some(s) => Templates.ValidateTemplate(env.tokens, s, kind)
    case None => Templates.ValidateTemplate(env.tokens, default, kind)
  }

  // ---- [filters]: dates ---------------------------------------------------

  /** The text of the lower bound: a window of days says it in its own way. */
  ghost predicate BeforeText(f: TomlFilters, text: Option<string>) {
    match f.recent
    case Some(Days(n)) => text == Some(RecentLimits.ShowNat(n) + "d")
    case _ => text == f.skipCreatedBefore
  }

  ghost predicate Reads(env: Env, text: Option<string>, bound: Option<DateWindow.CreatedDateFilter>) {
    match text
    case None => bound == None
    case Some(s) => bound.Some? && env.parseDate(s) == Ok(bound.value)
  }

  ghost predicate Unreadable(env: Env, text: Option<string>) {
    text.Some? && env.parseDate(text.value).Err?
  }

  /** Each bound is the reading of its own text, a count limits the number of
      assets and nothing else does, and the texts themselves are remembered. */
  lemma DatesMeaning(env: Env, f: TomlFilters, text: Option<string>)
    requires BuildDates(env, f).Ok? && BeforeText(f, text)
    ensures var d := BuildDates(env, f).value;
      && Reads(env, text, d.skipBefore) && Reads(env, f.skipCreatedAfter, d.skipAfter)
      && (forall n: nat :: d.recent == Some(n) <==> f.recent == Some(RecentLimits.Count(n)))
      && Settles(f.recentScope, Global, d.recentScope)
      && d.persistentRecent == f.recent && d.persistentScope == f.recentScope
      && d.persistentBefore == f.skipCreatedBefore && d.persistentAfter == f.skipCreatedAfter
  {}

  /** Refused: two lower bounds at once, a scope without a count, a date that
      cannot be read, and a window from the first day of the calendar to an
      instant. */
  lemma DatesRefused(env: Env, f: TomlFilters, text: Option<string>)
    requires BeforeText(f, text)
    ensures BuildDates(env, f).Err? <==>
      || (f.recent.Some? && f.recent.value.Days? && f.skipCreatedBefore.Some?)
      || (f.recentScope.Some? && (f.recent.None? || f.recent.value.Days?))
      || Unreadable(env, text) || Unreadable(env, f.skipCreatedAfter)
      || (text.Some? && f.skipCreatedAfter.Some?
          && var b, a := env.parseDate(text.value).value, env.parseDate(f.skipCreatedAfter.value).value;
             DateWindow.IsStrictlyAfter(b, a, env.calendar).None?)
  {}

  /** The asset is not older than the lower bound nor newer than the upper. */
  ghost predicate Passes(
    before: Option<DateWindow.CreatedDateFilter>, after: Option<DateWindow.CreatedDateFilter>,
    created: int, captureDate: int)
  {
    && (before.Some? ==> match before.value
                         case Instant(boundary) => created >= boundary
                         case CaptureDate(day) => captureDate >= day)
    && (after.Some? ==> match after.value
                        case Instant(boundary) => created <= boundary
                        case CaptureDate(day) => captureDate <= day)
  }

  ghost predicate PassesBuilt(d: Dates, created: int, captureDate: int) {
    && (d.skipBefore.Some? ==> !DateWindow.ExcludesBefore(d.skipBefore.value, created, captureDate))
    && (d.skipAfter.Some? ==> !DateWindow.ExcludesAfter(d.skipAfter.value, created, captureDate))
  }

  /** An asset passes the resolved window exactly when it passes the bounds as
      they were written. */
  lemma AssetPassesAsWritten(
    env: Env, f: TomlFilters, text: Option<string>, before: Option<DateWindow.CreatedDateFilter>,
    after: Option<DateWindow.CreatedDateFilter>, created: int, captureDate: int)
    requires BuildDates(env, f).Ok? && BeforeText(f, text)
    requires Reads(env, text, before) && Reads(env, f.skipCreatedAfter, after)
    ensures PassesBuilt(BuildDates(env, f).value, created, captureDate) <==> Passes(before, after, created, captureDate)
  {
    DatesMeaning(env, f, text);
  }

  // ---- [filters]: the rest ------------------------------------------------

  ghost predicate Listed(given: Option<seq<string>>, raw: seq<string>) {
    Settles(given, [], raw)
  }

  /** Each list is read by its own selector, an absent one as the empty list. */
  lemma SelectedMeaning(
    env: Env, f: TomlFilters, libraries: seq<string>, albums: seq<string>, folders: seq<string>)
    requires Listed(f.libraries, libraries) && Listed(f.albums, albums) && Listed(f.smartFolders, folders)
    ensures var r := BuildSelected(env, f);
      && (r.Err? <==>
            || LibrariesOf(env.words, libraries).Err? || AlbumsOf(env.words, albums, true).Err?
            || SmartFoldersOf(env.words, folders).Err?)
      && (r.Ok? ==>
            && LibrariesOf(env.words, libraries) == Ok(r.value.libraries)
            && AlbumsOf(env.words, albums, true) == Ok(r.value.albums)
            && SmartFoldersOf(env.words, folders) == Ok(r.value.smartFolders)
            && (r.value.albumsExplicit <==> albums != []) && (r.value.smartFoldersExplicit <==> folders != [])
            && Settles(f.unfiled, true, r.value.unfiled))
  {}

  lemma FiltersMeaning(env: Env, f: TomlFilters, globs: seq<string>)
    requires Listed(f.filenameExclude, globs)
    ensures var r := BuildFilters(env, f);
      && (r.Err? <==>
            || BuildSelected(env, f).Err? || MediaOf(f.media, None, None).Err? || BuildDates(env, f).Err?
            || exists p :: p in globs && !env.validGlob(p))
      && (r.Ok? ==>
            && Ok(r.value.selected) == BuildSelected(env, f) && Ok(r.value.media) == MediaOf(f.media, None, None)
            && Ok(r.value.dates) == BuildDates(env, f) && r.value.filenameExclude == globs)
  {}

  // ---- [photos], [metadata], [watch] and the rest -------------------------

  lemma PhotosMeaning(p: TomlPhotos, resolution: PhotoResolution, edited: bool, alternative: bool)
    requires Settles(p.resolution, Original, resolution) && Settles(p.edited, false, edited)
    requires Settles(p.alternative, false, alternative)
    ensures var r := BuildPhotos(p);
      && (r.Err? <==> resolution == NoStill && !edited && !alternative)
      && (r.Ok? ==>
            && r.value.resolution == resolution && r.value.edited == edited && r.value.alternative == alternative
            && Settles(p.liveResolution, LiveOriginal, r.value.liveResolution)
            && Settles(p.livePhotoMode, Both, r.value.livePhotoMode) && Settles(p.movPolicy, Suffix, r.value.movPolicy)
            && Settles(p.rawPolicy, AsIs, r.value.rawPolicy)
            && Settles(p.fileMatchPolicy, NameSizeDedupWithSuffix, r.value.fileMatchPolicy)
            && Settles(p.forceResolution, false, r.value.forceResolution)
            && Settles(p.keepUnicode, false, r.value.keepUnicode))
  {}

  lemma MetadataMeaning(m: Option<TomlMetadata>)
    ensures var c := BuildMetadata(m);
      if m.None? then !c.datetime && !c.rating && !c.gps && !c.description && !c.embedXmp && !c.xmpSidecar
      else
        && (c.datetime <==> m.value.datetime == Some(true)) && (c.rating <==> m.value.rating == Some(true))
        && (c.gps <==> m.value.gps == Some(true)) && (c.description <==> m.value.description == Some(true))
        && (c.embedXmp <==> m.value.embedXmp == Some(true)) && (c.xmpSidecar <==> m.value.xmpSidecar == Some(true))
  {}

  /** Without a word on notifications the systemd socket decides; reconciling
      every zero cycles is never. */
  lemma WatchMeaning(env: Env, section: Option<TomlWatch>)
    ensures var r, w := BuildWatch(env, section), if section.Some? then section.value else NO_WATCH;
      && (r.Err? <==> w.interval.Some? && (w.interval.value < 60 || w.interval.value > 86400))
      && (r.Ok? ==>
            && r.value.interval == w.interval && r.value.pidFile == w.pidFile
            && Settles(w.notifySystemd, env.notifySocket, r.value.notifySystemd)
            && (forall n: nat :: r.value.reconcileEvery == Some(n) <==> w.reconcileEvery == Some(n) && n > 0))
    ensures NO_WATCH.interval == NO_WATCH.reconcileEvery == None
    ensures NO_WATCH.notifySystemd == None && NO_WATCH.pidFile == None
  {}

  lemma OtherMeaning(env: Env, t: TomlOther)
    ensures var r := BuildOther(env, t);
      && (r.Err? <==> t.server.bind.Some? && env.parseIp(t.server.bind.value).Err?)
      && (r.Ok? ==>
            && Expanded(env, t.script, r.value.script) && Expanded(env, t.reportJson, r.value.reportJson)
            && Settles(t.server.port, 9090, r.value.port)
            && (t.server.bind.None? ==> r.value.bind == "0.0.0.0")
            && (t.server.bind.Some? ==> env.parseIp(t.server.bind.value) == Ok(r.value.bind))
            && (t.ui.None? ==> r.value.friendlyRequest == None && !r.value.noProgressBar)
            && (t.ui.Some? ==>
                  && r.value.friendlyRequest == t.ui.value.friendly
                  && (r.value.noProgressBar <==> t.ui.value.progressBar == Some(false)))
            && Settles(t.strictImport, false, r.value.strictImport))
  {}

  // ---- The whole file -----------------------------------------------------

  /** A file is refused when one of its sections is, or when it selects live
      photos alone and then skips them; otherwise each section is its own. */
  lemma BuildMeaning(env: Env, t: TomlConfig)
    requires Templates.ValidTokens(env.tokens)
    ensures var r := Build(env, t);
      && (r.Err? <==>
            || BuildAuth(env, t.auth, t.dataDir).Err? || BuildDownload(env, t.download).Err?
            || BuildFilters(env, t.filters).Err? || BuildPhotos(t.photos).Err?
            || BuildWatch(env, t.watch).Err? || BuildOther(env, t.other).Err?
            || (&& BuildFilters(env, t.filters).value.media == MediaSelection(false, false, true)
                && BuildPhotos(t.photos).value.livePhotoMode == SkipLive))
      && (r.Ok? ==>
            && BuildAuth(env, t.auth, t.dataDir) == Ok(r.value.auth)
            && BuildDownload(env, t.download) == Ok(r.value.download)
            && BuildFilters(env, t.filters) == Ok(r.value.filters) && BuildPhotos(t.photos) == Ok(r.value.photos)
            && BuildMetadata(t.metadata) == r.value.metadata
            && BuildWatch(env, t.watch) == Ok(r.value.watch) && BuildOther(env, t.other) == Ok(r.value.other))
  {}

  // ---- What is printed ----------------------------------------------------

  /** Printed as it is, or left out when it is the default. */
  ghost predicate Omits<T(!new)>(printed: Option<T>, v: T, default: T) {
    (v == default ==> printed == None) && (v != default ==> printed == Some(v))
  }

  lemma AuthPrinted(a: AuthConfig)
    ensures var t := AuthToToml(a);
      && Omits(t.username, a.username, "") && t.password == None && t.passwordFile == a.passwordFile
      && t.passwordCommand == a.passwordCommand && Omits(t.domain, a.domain, Com)
  {}

  lemma DownloadPrinted(env: Env, d: DownloadSettings)
    ensures var t := DownloadToToml(env, d);
      && Omits(t.directory, d.directory, "") && t.folderStructure == Some(d.folderStructure)
      && Omits(t.folderStructureAlbums, d.folderStructureAlbums, env.tokens.album)
      && Omits(t.folderStructureSmartFolders, d.folderStructureSmartFolders, env.tokens.smartFolder)
      && t.threads == Some(d.threads) && Omits(t.tempSuffix, d.tempSuffix, ".kei-tmp")
      && t.perTransfer == Some(d.maxRetries) && Omits(t.perAsset, d.maxDownloadAttempts, 10)
      && (t.bandwidthLimit.Some? <==> d.bandwidthLimit.Some?)
  {}

  /** The default lists, the default media and the default scope are left out. */
  lemma FiltersPrinted(env: Env, c: FilterConfig)
    ensures var t := FiltersToToml(env, c);
      && Omits(t.libraries, LibrariesToRaw(env.words, c.selected.libraries), [env.words.primary])
      && Omits(t.albums, AlbumsToRaw(env.words, c.selected.albums), [env.words.all])
      && (c.selected.smartFolders.NoFolders? ==> t.smartFolders == None)
      && (!c.selected.smartFolders.NoFolders? ==>
            t.smartFolders == Some(SmartFoldersToRaw(env.words, c.selected.smartFolders)))
      && Omits(t.unfiled, c.selected.unfiled, true)
      && (c.media == MediaSelection(true, true, true) ==> t.media == None)
      && (c.media != MediaSelection(true, true, true) ==> t.media == Some(ToKinds(c.media)))
      && Omits(t.filenameExclude, c.filenameExclude, [])
      && t.recent == c.dates.persistentRecent && t.skipCreatedBefore == c.dates.persistentBefore
      && t.skipCreatedAfter == c.dates.persistentAfter && t.recentScope != Some(Global)
      && (c.dates.persistentScope != Some(Global) ==> t.recentScope == c.dates.persistentScope)
  {}

  lemma PhotosPrinted(c: PhotoConfig)
    ensures var t := PhotosToToml(c);
      && Omits(t.resolution, c.resolution, Original) && Omits(t.liveResolution, c.liveResolution, LiveOriginal)
      && Omits(t.livePhotoMode, c.livePhotoMode, Both) && Omits(t.movPolicy, c.movPolicy, Suffix)
      && Omits(t.edited, c.edited, false) && Omits(t.alternative, c.alternative, false)
      && Omits(t.rawPolicy, c.rawPolicy, AsIs)
      && Omits(t.fileMatchPolicy, c.fileMatchPolicy, NameSizeDedupWithSuffix)
      && Omits(t.forceResolution, c.forceResolution, false) && Omits(t.keepUnicode, c.keepUnicode, false)
  {}

  /** A section with nothing in it is left out, and so is every switch that is
      off and the display section without a preference. */
  lemma SectionsPrinted(env: Env, c: Config)
    ensures var t := ToToml(env, c);
      && t.dataDir == None
      && (t.metadata.None? <==>
            && !c.metadata.datetime && !c.metadata.rating && !c.metadata.gps && !c.metadata.description
            && !c.metadata.embedXmp && !c.metadata.xmpSidecar)
      && (t.metadata.Some? ==> var m := t.metadata.value;
            && Omits(m.datetime, c.metadata.datetime, false) && Omits(m.rating, c.metadata.rating, false)
            && Omits(m.gps, c.metadata.gps, false) && Omits(m.description, c.metadata.description, false)
            && Omits(m.embedXmp, c.metadata.embedXmp, false) && Omits(m.xmpSidecar, c.metadata.xmpSidecar, false))
      && (t.watch.None? <==>
            && c.watch.interval.None? && !c.watch.notifySystemd && c.watch.pidFile.None?
            && c.watch.reconcileEvery.None?)
      && (t.watch.Some? ==> Omits(t.watch.value.notifySystemd, c.watch.notifySystemd, false))
      && t.other.server.port == Some(c.other.port) && Omits(t.other.server.bind, c.other.bind, "0.0.0.0")
      && (t.other.ui.None? <==> c.other.friendlyRequest.None? && !c.other.noProgressBar)
      && Omits(t.other.strictImport, c.other.strictImport, false)
  {}
}
