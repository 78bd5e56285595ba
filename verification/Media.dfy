/** The media filter: a list of kinds in the configuration, three switches in
    the program. */
module Media {
  import opened Wrappers

  datatype MediaKind = Photos | Videos | LivePhotos

  datatype MediaSelection = MediaSelection(photos: bool, videos: bool, livePhotos: bool) {
    predicate IsAll() { photos && videos && livePhotos }
    predicate IsNothing() { !photos && !videos && !livePhotos }
  }

  ghost predicate Distinct(kinds: seq<MediaKind>) {
    forall i, j :: 0 <= i < j < |kinds| ==> kinds[i] != kinds[j]
  }

  function Without(on: bool, skip: Option<bool>): bool {
    if skip.Some? then !skip.value else on
  }

  /** The listed kinds, everything when there is no list, then the two skip
      overrides; an empty list, a repeated kind or no media left is refused. */
  ghost function MediaOf(
    kinds: Option<seq<MediaKind>>, skipVideos: Option<bool>, skipPhotos: Option<bool>): Result<MediaSelection>
  {
    if kinds.Some? && (kinds.value == [] || !Distinct(kinds.value)) then Err
    else
      var listed := if kinds.None? then MediaSelection(true, true, true)
                    else MediaSelection(Photos in kinds.value, Videos in kinds.value, LivePhotos in kinds.value);
      var sel := MediaSelection(
        Without(listed.photos, skipPhotos), Without(listed.videos, skipVideos), listed.livePhotos);
      if sel.IsNothing() then Err else Ok(sel)
  }

  method ResolveMediaSelection(
    kinds: Option<seq<MediaKind>>, skipVideos: Option<bool>, skipPhotos: Option<bool>)
    returns (r: Result<MediaSelection>)
    ensures r == MediaOf(kinds, skipVideos, skipPhotos)
  {
    var selection := MediaSelection(true, true, true);
    if kinds.Some? {
      var list := kinds.value;
      if list == [] { return Err; }
      var seen: set<MediaKind> := {};
      selection := MediaSelection(false, false, false);
      for i := 0 to |list|
        invariant Distinct(list[..i])
        invariant forall k :: k in seen <==> k in list[..i]
        invariant selection == MediaSelection(Photos in list[..i], Videos in list[..i], LivePhotos in list[..i])
      {
        assert list[..i + 1] == list[..i] + [list[i]];
        if list[i] in seen {
          var j :| 0 <= j < i && list[..i][j] == list[i];
          return Err;
        }
        seen := seen + {list[i]};
        match list[i] {
          case Photos => selection := selection.(photos := true);
          case Videos => selection := selection.(videos := true);
          case LivePhotos => selection := selection.(livePhotos := true);
        }
      }
      assert list[..|list|] == list;
    }
    if skipVideos.Some? { selection := selection.(videos := !skipVideos.value); }
    if skipPhotos.Some? { selection := selection.(photos := !skipPhotos.value); }
    if selection.IsNothing() { return Err; }
    return Ok(selection);
  }

  function ToKinds(s: MediaSelection): seq<MediaKind> {
    (if s.photos then [Photos] else []) + (if s.videos then [Videos] else [])
    + (if s.livePhotos then [LivePhotos] else [])
  }

  /** As written to the configuration: the default is left out. */
  function MediaToToml(s: MediaSelection): Option<seq<MediaKind>> {
    if s.IsAll() then None else Some(ToKinds(s))
  }

  /** Every selection of something survives; the empty one never does. */
  lemma MediaRoundTrip(s: MediaSelection)
    ensures MediaOf(MediaToToml(s), None, None) == Ok(s) <==> !s.IsNothing()
  {
    var kinds := ToKinds(s);
    assert |kinds| <= 3;
    assert Photos in kinds <==> s.photos;
    assert Videos in kinds <==> s.videos;
    assert LivePhotos in kinds <==> s.livePhotos;
  }

  /** Which kind each override governs: it wins over the list, and a kind
      without one is wanted when it is listed or when there is no list. */
  lemma OverridesWin(kinds: Option<seq<MediaKind>>, skipVideos: Option<bool>, skipPhotos: Option<bool>)
    requires MediaOf(kinds, skipVideos, skipPhotos).Ok?
    ensures var s := MediaOf(kinds, skipVideos, skipPhotos).value;
      && (skipPhotos == Some(true) ==> !s.photos) && (skipPhotos == Some(false) ==> s.photos)
      && (skipVideos == Some(true) ==> !s.videos) && (skipVideos == Some(false) ==> s.videos)
      && (skipPhotos.None? ==> (s.photos <==> kinds.None? || Photos in kinds.value))
      && (skipVideos.None? ==> (s.videos <==> kinds.None? || Videos in kinds.value))
      && (s.livePhotos <==> kinds.None? || LivePhotos in kinds.value)
  {}

  /** What is refused: an empty list, a kind listed twice, and nothing left. */
  lemma MediaRefused(kinds: Option<seq<MediaKind>>, skipVideos: Option<bool>, skipPhotos: Option<bool>)
    ensures MediaOf(kinds, skipVideos, skipPhotos).Err? <==>
      || kinds == Some([])
      || (kinds.Some? && exists i, j :: 0 <= i < j < |kinds.value| && kinds.value[i] == kinds.value[j])
      || (&& (skipPhotos == Some(true) || (skipPhotos.None? && kinds.Some? && Photos !in kinds.value))
          && (skipVideos == Some(true) || (skipVideos.None? && kinds.Some? && Videos !in kinds.value))
          && kinds.Some? && LivePhotos !in kinds.value)
  {}

  /** Photos are printed first and live photos last. */
  lemma KindsInOrder(s: MediaSelection)
    ensures s.photos ==> ToKinds(s)[0] == Photos
    ensures s.livePhotos ==> ToKinds(s)[|ToKinds(s)| - 1] == LivePhotos
  {}
}
