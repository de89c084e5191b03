/**
  `download_library`: the checks made before the loop, the naming decisions,
  the per-track loop and the playlist written after it.
 */
module Library {
  import opened Wrappers
  import opened Model
  import opened Naming
  import opened Playlist
  import opened Pipeline

  /** Why the download stopped before creating the destination folder. */
  datatype AbortReason = NotLoggedIn | FetchFailed | NoTracks

  /** The result of one library download. */
  datatype Outcome =
    | Aborted(reason: AbortReason)
    | Crashed(folder: Folder, actions: seq<Action>, crash: Crash)
    | Finished(folder: Folder, actions: seq<Action>, playlist: seq<string>, playlistFile: FilePath, playlistText: string)

  /** The catalog response names a library. */
  predicate Fetched(fetch: Option<Response>) {
    fetch.Some? && fetch.value.library.Some?
  }

  /** The tracks of the fetched library; none when the fetch failed. */
  function TracksOf(fetch: Option<Response>): seq<Track> {
    if Fetched(fetch) then fetch.value.library.value.tracks else []
  }

  /** The destination folder for a library in a configuration. */
  function DestinationFolder(cfg: Config, libraryId: string, title: Option<string>): Folder {
    Folder(cfg.outputDirectory, FolderName(title, libraryId, cfg.outputFormat))
  }

  /** The settings the loop body reads, fixed before the loop starts. */
  function LoopContext(cfg: Config, quality: Option<string>, folder: Folder): Context {
    Context(cfg.outputFormat, ResolveQuality(quality, cfg.outputFormat), folder, cfg.keepCoverFile, cfg.deleteRawFiles)
  }

  /**
    One call of `download_library(library_id, quality)`. The login check, the
    catalog response and every collaborator result are inputs: `results[i]`
    is what the collaborators returned for the `i`-th track.
   */
  function DownloadLibrary(
    cfg: Config, libraryId: string, quality: Option<string>,
    loggedIn: bool, fetch: Option<Response>, results: seq<TrackResults>,
    basename: string -> string): (o: Outcome)
    requires |results| == |TracksOf(fetch)|
    ensures o.Aborted? <==> !loggedIn || !Fetched(fetch) || TracksOf(fetch) == []
    ensures !loggedIn ==> o == Aborted(NotLoggedIn)
    ensures loggedIn && !Fetched(fetch) ==> o == Aborted(FetchFailed)
    ensures loggedIn && Fetched(fetch) && TracksOf(fetch) == [] ==> o == Aborted(NoTracks)
    ensures !o.Aborted? ==>
      o.folder == Folder(cfg.outputDirectory, FolderName(fetch.value.library.value.title, libraryId, cfg.outputFormat))
    ensures o.Crashed? <==> !o.Aborted? && !AllKeysPresent(TracksOf(fetch))
    ensures o.Finished? ==> o.playlistFile == FileIn(o.folder, "library.m3u8") && o.playlistText == PlaylistText(o.playlist)
    ensures !o.Aborted? ==>
      var ctx := Context(cfg.outputFormat, ResolveQuality(quality, cfg.outputFormat), o.folder, cfg.keepCoverFile, cfg.deleteRawFiles);
      var progress := Process(ctx, TracksOf(fetch), results, basename);
      && o.actions == progress.actions
      && (o.Crashed? ==> progress.crash == Some(o.crash))
      && (o.Finished? ==> o.playlist == progress.playlist)
  {
    if !loggedIn then Aborted(NotLoggedIn)
    else if !Fetched(fetch) then Aborted(FetchFailed)
    else
      var library := fetch.value.library.value;
      if library.tracks == [] then Aborted(NoTracks)
      else
        var folder := DestinationFolder(cfg, libraryId, library.title);
        var progress := Process(LoopContext(cfg, quality, folder), library.tracks, results, basename);
        ProcessCrash(LoopContext(cfg, quality, folder), library.tracks, results, basename);
        match progress.crash
        case Some(crash) => Crashed(folder, progress.actions, crash)
        case None =>
          Finished(folder, progress.actions, progress.playlist, FileIn(folder, PlaylistFileName), PlaylistText(progress.playlist))
  }

  /**
    A finished download's playlist lists, in track order, the base names of
    the converted files of exactly the tracks whose download and conversion
    succeeded, and never has more entries than there are tracks.
   */
  lemma FinishedPlaylist(
    cfg: Config, libraryId: string, quality: Option<string>,
    loggedIn: bool, fetch: Option<Response>, results: seq<TrackResults>,
    basename: string -> string)
    requires |results| == |TracksOf(fetch)|
    requires DownloadLibrary(cfg, libraryId, quality, loggedIn, fetch, results, basename).Finished?
    ensures var p := DownloadLibrary(cfg, libraryId, quality, loggedIn, fetch, results, basename).playlist;
      && |p| <= |TracksOf(fetch)|
      && |p| == |SuccessIndices(results)|
      && forall j :: 0 <= j < |p| ==> p[j] == basename(results[SuccessIndices(results)[j]].converted.value)
  {
    var tracks := TracksOf(fetch);
    var folder := DestinationFolder(cfg, libraryId, fetch.value.library.value.title);
    var ctx := LoopContext(cfg, quality, folder);
    PlaylistIsSuccesses(ctx, tracks, results, basename);
    PlaylistBounded(ctx, tracks, results, basename);
  }

  /**
    When no playlist entry contains a line break, the written playlist file has one
    newline-terminated line per entry, and reading it back yields the playlist.
   */
  lemma FinishedPlaylistFile(
    cfg: Config, libraryId: string, quality: Option<string>,
    loggedIn: bool, fetch: Option<Response>, results: seq<TrackResults>,
    basename: string -> string)
    requires |results| == |TracksOf(fetch)|
    requires DownloadLibrary(cfg, libraryId, quality, loggedIn, fetch, results, basename).Finished?
    requires SingleLine(DownloadLibrary(cfg, libraryId, quality, loggedIn, fetch, results, basename).playlist)
    ensures var o := DownloadLibrary(cfg, libraryId, quality, loggedIn, fetch, results, basename);
      && Count(o.playlistText, '\n') == |o.playlist|
      && SplitLines(o.playlistText) == o.playlist
  {
    var o := DownloadLibrary(cfg, libraryId, quality, loggedIn, fetch, results, basename);
    PlaylistLines(o.playlist);
    PlaylistRoundTrip(o.playlist);
  }

  /**
    A download deletes a raw file only when raw files are to be deleted, for a
    track whose download and conversion succeeded and whose converted path
    differs from the raw one; it deletes a cover only when covers are not kept,
    for a converted track with a cover URL whose fetched cover exists.
   */
  lemma DownloadCleanup(
    cfg: Config, libraryId: string, quality: Option<string>,
    loggedIn: bool, fetch: Option<Response>, results: seq<TrackResults>,
    basename: string -> string, p: string)
    requires |results| == |TracksOf(fetch)|
    ensures var o := DownloadLibrary(cfg, libraryId, quality, loggedIn, fetch, results, basename);
      var tracks := TracksOf(fetch);
      && (!o.Aborted? && RemoveRaw(p) in o.actions ==>
            cfg.deleteRawFiles &&
            exists i :: (0 <= i < |tracks| && Succeeded(results[i]) &&
              results[i].raw.value != results[i].converted.value && p == results[i].raw.value))
      && (!o.Aborted? && RemoveCover(p) in o.actions ==>
            !cfg.keepCoverFile &&
            exists i :: (0 <= i < |tracks| && Succeeded(results[i]) && Truthy(tracks[i].albumCover) &&
              Truthy(results[i].cover) && results[i].coverExists && p == results[i].cover.value))
  {
    var o := DownloadLibrary(cfg, libraryId, quality, loggedIn, fetch, results, basename);
    if !o.Aborted? {
      var ctx := LoopContext(cfg, quality, o.folder);
      if RemoveRaw(p) in o.actions {
        RawRemovedOnlyWhenConverted(ctx, TracksOf(fetch), results, basename, p);
      }
      if RemoveCover(p) in o.actions {
        CoverRemovedOnlyWhenFetched(ctx, TracksOf(fetch), results, basename, p);
      }
    }
  }

  /** Every download request uses the resolved quality and the destination folder. */
  lemma DownloadsUseResolvedQuality(
    cfg: Config, libraryId: string, quality: Option<string>,
    loggedIn: bool, fetch: Option<Response>, results: seq<TrackResults>,
    basename: string -> string, a: Action)
    requires |results| == |TracksOf(fetch)|
    requires !DownloadLibrary(cfg, libraryId, quality, loggedIn, fetch, results, basename).Aborted?
    requires a in DownloadLibrary(cfg, libraryId, quality, loggedIn, fetch, results, basename).actions && a.Download?
    ensures a.quality == ResolveQuality(quality, cfg.outputFormat)
    ensures a.directory == DownloadLibrary(cfg, libraryId, quality, loggedIn, fetch, results, basename).folder
  {
    var tracks := TracksOf(fetch);
    var folder := DestinationFolder(cfg, libraryId, fetch.value.library.value.title);
    var ctx := LoopContext(cfg, quality, folder);
    ActionFromTrack(ctx, tracks, results, basename, a);
    var i :| 0 <= i < |tracks| && MissingKey(tracks[i]).None? && a in ProcessTrack(ctx, tracks[i], results[i], basename).actions;
    TrackEffects(ctx, tracks[i], results[i], basename);
  }

  /**
    Every conversion request asks for the configured output format, the one
    the folder name shows, and converts the raw file the downloader returned
    for one of the tracks.
   */
  lemma ConversionsUseOutputFormat(
    cfg: Config, libraryId: string, quality: Option<string>,
    loggedIn: bool, fetch: Option<Response>, results: seq<TrackResults>,
    basename: string -> string, a: Action)
    requires |results| == |TracksOf(fetch)|
    requires !DownloadLibrary(cfg, libraryId, quality, loggedIn, fetch, results, basename).Aborted?
    requires a in DownloadLibrary(cfg, libraryId, quality, loggedIn, fetch, results, basename).actions && a.Convert?
    ensures a.format == cfg.outputFormat
    ensures exists i :: 0 <= i < |results| && Truthy(results[i].raw) && a.raw == results[i].raw.value
  {
    var tracks := TracksOf(fetch);
    var folder := DestinationFolder(cfg, libraryId, fetch.value.library.value.title);
    var ctx := LoopContext(cfg, quality, folder);
    ActionFromTrack(ctx, tracks, results, basename, a);
    var i :| 0 <= i < |tracks| && MissingKey(tracks[i]).None? && a in ProcessTrack(ctx, tracks[i], results[i], basename).actions;
    TrackEffects(ctx, tracks[i], results[i], basename);
  }

  /**
    The scenario of a one-track library "My Mix!" converted to mp3: the folder
    is "My Mix [MP3]", the file is tagged with year "2020", and the playlist
    holds that file's base name.
   */
  lemma EndToEndExample(basename: string -> string)
    ensures var track := Track(Some("t1"), Some("Song"), Some("Artist"), Some("Alb"), Some("Pop"), Some("2020-01-01"), Some("http://x/c.jpg"));
      var fetch := Some(Response(Some(LibraryRecord(Some("My Mix!"), [track]))));
      var results := [TrackResults(Some("raw/t1.flac"), Some("out/t1.mp3"), Some("out/cover_t1.jpg"), true)];
      var o := DownloadLibrary(Config("mp3", "out", false, false), "L1", None, true, fetch, results, basename);
      && o.Finished?
      && o.folder == Folder("out", "My Mix [MP3]")
      && o.playlist == [basename("out/t1.mp3")]
      && Tag("out/t1.mp3", Metadata("Song", "Artist", "Alb", "Pop", "2020"), Some("out/cover_t1.jpg")) in o.actions
      && RemoveCover("out/cover_t1.jpg") in o.actions
  {
    var track := Track(Some("t1"), Some("Song"), Some("Artist"), Some("Alb"), Some("Pop"), Some("2020-01-01"), Some("http://x/c.jpg"));
    var fetch := Some(Response(Some(LibraryRecord(Some("My Mix!"), [track]))));
    var results := [TrackResults(Some("raw/t1.flac"), Some("out/t1.mp3"), Some("out/cover_t1.jpg"), true)];
    FolderNameExample();
    var cfg := Config("mp3", "out", false, false);
    var folder := DestinationFolder(cfg, "L1", Some("My Mix!"));
    var ctx := LoopContext(cfg, None, folder);
    assert [track][..0] == [] && results[..0] == [];
    var step := ProcessTrack(ctx, track, results[0], basename);
    var progress := Process(ctx, [track], results, basename);
    assert Process(ctx, [track][..0], results[..0], basename) == Progress([], [], None);
    assert MissingKey(track) == None;
    assert progress == Advance(ctx, Progress([], [], None), 0, track, results[0], basename);
    assert progress == Progress([] + EntrySeq(step.entry), [] + step.actions, None);
    TrackEffects(ctx, track, results[0], basename);
    assert YearTag(Some("2020-01-01")) == "2020";
    var o := DownloadLibrary(cfg, "L1", None, true, fetch, results, basename);
    assert o == Finished(folder, progress.actions, progress.playlist, FileIn(folder, PlaylistFileName), PlaylistText(progress.playlist));
  }
}
