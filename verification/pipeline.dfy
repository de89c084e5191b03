/**
  The per-track loop of the library download, as a fold over the track list.
  Each track is downloaded, converted, given a cover and tagged; a track
  whose download or conversion fails is skipped, and the others carry on.
 */
module Pipeline {
  import opened Wrappers
  import opened Model

  /** What the loop body needs besides the track: decided once before the loop. */
  datatype Context = Context(
    format: string,
    quality: string,
    folder: Folder,
    keepCoverFile: bool,
    deleteRawFiles: bool)

  /** The outcome of the loop body for one track: its playlist entry, if any, and its effects. */
  datatype TrackStep = TrackStep(entry: Option<string>, actions: seq<Action>)

  /** A `KeyError` raised while processing the track at `index`, for the key `key`. */
  datatype Crash = Crash(index: nat, key: string)

  /** The state of the loop: the playlist so far, the effects so far, and a crash that stopped it. */
  datatype Progress = Progress(playlist: seq<string>, actions: seq<Action>, crash: Option<Crash>)

  /**
    The key whose subscript raises first: the progress line reads `title`
    and `artist`, the download call reads `id`.
   */
  function MissingKey(t: Track): (r: Option<string>)
    ensures r.None? <==> t.title.Some? && t.artist.Some? && t.id.Some?
    ensures t.title.None? ==> r == Some("title")
    ensures t.title.Some? && t.artist.None? ==> r == Some("artist")
    ensures t.title.Some? && t.artist.Some? && t.id.None? ==> r == Some("id")
  {
    if t.title.None? then Some("title")
    else if t.artist.None? then Some("artist")
    else if t.id.None? then Some("id")
    else None
  }

  /** The release year tag: the first four characters of the release date, `""` when it is absent. */
  function YearTag(releaseDate: Option<string>): (r: string)
    ensures releaseDate.None? ==> r == ""
    ensures releaseDate.Some? ==> |r| == (if |releaseDate.value| < 4 then |releaseDate.value| else 4)
    ensures releaseDate.Some? ==> r == releaseDate.value[..|r|]
  {
    var d := releaseDate.ValueOr("");
    if |d| < 4 then d else d[..4]
  }

  lemma YearTagExamples()
    ensures YearTag(Some("2023-05-01")) == "2023"
    ensures YearTag(Some("99")) == "99"
    ensures YearTag(None) == ""
  {
  }

  /** The metadata written into the converted file; absent keys read as `""`. */
  function MetadataOf(t: Track): Metadata {
    Metadata(t.title.ValueOr(""), t.artist.ValueOr(""), t.albumTitle.ValueOr(""), t.genre.ValueOr(""), YearTag(t.releaseDate))
  }

  /** `cover_<id>.jpg` in the destination folder. */
  function CoverDest(folder: Folder, id: string): FilePath {
    FileIn(folder, "cover_" + id + ".jpg")
  }

  /** The cover path handed to the tagger: the fetcher's result when the track has a cover URL. */
  function CoverPath(t: Track, r: TrackResults): Option<string> {
    if Truthy(t.albumCover) then r.cover else None
  }

  /**
    The loop body for one track whose required keys are present. The entry is
    the base name of the converted file, recorded only when both the download
    and the conversion succeeded.
   */
  function ProcessTrack(ctx: Context, t: Track, r: TrackResults, basename: string -> string): (s: TrackStep)
    requires MissingKey(t).None?
    ensures s.entry.Some? <==> Succeeded(r)
    ensures s.entry.Some? ==> s.entry.value == basename(r.converted.value)
    ensures |s.actions| >= 1 && s.actions[0] == Download(t.id.value, ctx.quality, ctx.folder, t)
  {
    var id := t.id.value;
    var download := [Download(id, ctx.quality, ctx.folder, t)];
    if !Truthy(r.raw) then TrackStep(None, download)
    else
      var raw := r.raw.value;
      var convert := download + [Convert(raw, ctx.format)];
      if !Truthy(r.converted) then TrackStep(None, convert)
      else
        var converted := r.converted.value;
        var fetch := if Truthy(t.albumCover) then [FetchCover(t.albumCover.value, CoverDest(ctx.folder, id))] else [];
        var cover := CoverPath(t, r);
        var tag := [Tag(converted, MetadataOf(t), cover)];
        var removeCover := if Truthy(cover) && r.coverExists && !ctx.keepCoverFile then [RemoveCover(cover.value)] else [];
        var removeRaw := if ctx.deleteRawFiles && raw != converted then [RemoveRaw(raw)] else [];
        TrackStep(Some(basename(converted)), convert + fetch + tag + removeCover + removeRaw)
  }

  /**
    The effects of the loop body: the download is requested once, with the
    resolved quality and the destination folder; the conversion only after a
    successful download; the cover is fetched to `cover_<id>.jpg` in the
    destination folder, and tagging and cleanup happen, only after a successful
    conversion; the raw file is removed only when raw files are to be deleted
    and the converter wrote a different file; the cover only when it was
    fetched, exists and is not to be kept.
   */
  lemma TrackEffects(ctx: Context, t: Track, r: TrackResults, basename: string -> string)
    requires MissingKey(t).None?
    ensures var s := ProcessTrack(ctx, t, r, basename);
      && (forall a :: a in s.actions && a.Download? ==> a == Download(t.id.value, ctx.quality, ctx.folder, t))
      && (forall p, f :: Convert(p, f) in s.actions <==> Truthy(r.raw) && p == r.raw.value && f == ctx.format)
      && (forall u, d :: FetchCover(u, d) in s.actions <==>
            Succeeded(r) && Truthy(t.albumCover) && u == t.albumCover.value &&
            d == FileIn(ctx.folder, "cover_" + t.id.value + ".jpg"))
      && (forall p, m, c :: Tag(p, m, c) in s.actions <==>
            Succeeded(r) && p == r.converted.value && m == MetadataOf(t) && c == CoverPath(t, r))
      && (forall p :: RemoveRaw(p) in s.actions <==>
            ctx.deleteRawFiles && Succeeded(r) && r.raw.value != r.converted.value && p == r.raw.value)
      && (forall p :: RemoveCover(p) in s.actions <==>
            !ctx.keepCoverFile && Succeeded(r) && Truthy(CoverPath(t, r)) && r.coverExists && p == r.cover.value)
  {
  }

  /** The position of an effect in the loop body's fixed order. */
  function Stage(a: Action): nat {
    match a
    case Download(_, _, _, _) => 0
    case Convert(_, _) => 1
    case FetchCover(_, _) => 2
    case Tag(_, _, _) => 3
    case RemoveCover(_) => 4
    case RemoveRaw(_) => 5
  }

  /**
    The loop body's effects come in the order download, convert, fetch cover,
    tag, remove cover, remove raw file, each at most once: in particular the
    cover is removed only after the tagger has used it.
   */
  lemma TrackEffectOrder(ctx: Context, t: Track, r: TrackResults, basename: string -> string)
    requires MissingKey(t).None?
    ensures var s := ProcessTrack(ctx, t, r, basename);
      forall i, j :: 0 <= i < j < |s.actions| ==> Stage(s.actions[i]) < Stage(s.actions[j])
  {
  }

  /** The entry of a step as a sequence of zero or one names. */
  function EntrySeq(e: Option<string>): seq<string> {
    if e.Some? then [e.value] else []
  }

  /**
    One turn of the loop for the track at `index`: nothing happens once the
    loop has crashed; a missing required key crashes it; otherwise the loop
    body runs and its entry, if any, is appended to the playlist.
   */
  function Advance(ctx: Context, prev: Progress, index: nat, t: Track, r: TrackResults, basename: string -> string): Progress {
    if prev.crash.Some? then prev
    else match MissingKey(t)
      case Some(key) => Progress(prev.playlist, prev.actions, Some(Crash(index, key)))
      case None =>
        var step := ProcessTrack(ctx, t, r, basename);
        Progress(prev.playlist + EntrySeq(step.entry), prev.actions + step.actions, None)
  }

  /** The loop over all tracks, in order. A missing required key stops it; the effects of the earlier tracks remain. */
  function Process(ctx: Context, tracks: seq<Track>, results: seq<TrackResults>, basename: string -> string): Progress
    requires |results| == |tracks|
    decreases |tracks|
  {
    if tracks == [] then Progress([], [], None)
    else
      var n := |tracks| - 1;
      Advance(ctx, Process(ctx, tracks[..n], results[..n], basename), n, tracks[n], results[n], basename)
  }

  /** Every required key of every track is present. */
  predicate AllKeysPresent(tracks: seq<Track>) {
    forall i :: 0 <= i < |tracks| ==> MissingKey(tracks[i]).None?
  }

  /** The indices of the tracks whose download and conversion succeeded, in increasing order. */
  function SuccessIndices(results: seq<TrackResults>): (s: seq<nat>)
    ensures forall j :: 0 <= j < |s| ==> s[j] < |results| && Succeeded(results[s[j]])
    decreases |results|
  {
    if results == [] then []
    else
      var n := |results| - 1;
      SuccessIndices(results[..n]) + (if Succeeded(results[n]) then [n] else [])
  }

  /** `SuccessIndices` lists exactly the successful indices, each once, in increasing order. */
  lemma {:induction false} SuccessIndicesSpec(results: seq<TrackResults>)
    ensures |SuccessIndices(results)| <= |results|
    ensures forall j, k :: 0 <= j < k < |SuccessIndices(results)| ==> SuccessIndices(results)[j] < SuccessIndices(results)[k]
    ensures forall i :: 0 <= i < |results| ==> (i in SuccessIndices(results) <==> Succeeded(results[i]))
    decreases |results|
  {
    if results != [] {
      var n := |results| - 1;
      SuccessIndicesSpec(results[..n]);
      assert forall i :: 0 <= i < n ==> results[..n][i] == results[i];
    }
  }

  /**
    The crash, if any, is at the first track with a missing required key, and
    names that key; with no such track the loop runs to the end.
   */
  lemma {:induction false} ProcessCrash(ctx: Context, tracks: seq<Track>, results: seq<TrackResults>, basename: string -> string)
    requires |results| == |tracks|
    ensures Process(ctx, tracks, results, basename).crash.None? <==> AllKeysPresent(tracks)
    ensures Process(ctx, tracks, results, basename).crash.Some? ==>
      var c := Process(ctx, tracks, results, basename).crash.value;
      && c.index < |tracks|
      && MissingKey(tracks[c.index]) == Some(c.key)
      && AllKeysPresent(tracks[..c.index])
    decreases |tracks|
  {
    if tracks != [] {
      var n := |tracks| - 1;
      ProcessCrash(ctx, tracks[..n], results[..n], basename);
      var prev := Process(ctx, tracks[..n], results[..n], basename);
      if prev.crash.Some? {
        var c := prev.crash.value;
        assert tracks[..n][c.index] == tracks[c.index];
        assert tracks[..n][..c.index] == tracks[..c.index];
      } else {
        assert tracks[..n] == tracks[..n][..n];
        if MissingKey(tracks[n]).None? {
          assert forall i :: 0 <= i < n ==> tracks[..n][i] == tracks[i];
        }
      }
    }
  }

  /**
    When every track has its required keys, the playlist is exactly the base
    names of the converted files of the successful tracks, in track order.
   */
  lemma {:induction false} PlaylistIsSuccesses(ctx: Context, tracks: seq<Track>, results: seq<TrackResults>, basename: string -> string)
    requires |results| == |tracks| && AllKeysPresent(tracks)
    ensures var p := Process(ctx, tracks, results, basename);
      && p.crash.None?
      && |p.playlist| == |SuccessIndices(results)|
      && forall j :: 0 <= j < |p.playlist| ==>
           p.playlist[j] == basename(results[SuccessIndices(results)[j]].converted.value)
    decreases |tracks|
  {
    SuccessIndicesSpec(results);
    if tracks != [] {
      var n := |tracks| - 1;
      assert AllKeysPresent(tracks[..n]) by {
        assert forall i :: 0 <= i < n ==> tracks[..n][i] == tracks[i];
      }
      PlaylistIsSuccesses(ctx, tracks[..n], results[..n], basename);
      SuccessIndicesSpec(results[..n]);
      assert forall i :: 0 <= i < n ==> results[..n][i] == results[i];
    }
  }

  /** The playlist never has more entries than there are tracks. */
  lemma {:induction false} PlaylistBounded(ctx: Context, tracks: seq<Track>, results: seq<TrackResults>, basename: string -> string)
    requires |results| == |tracks|
    ensures |Process(ctx, tracks, results, basename).playlist| <= |tracks|
    decreases |tracks|
  {
    if tracks != [] {
      var n := |tracks| - 1;
      PlaylistBounded(ctx, tracks[..n], results[..n], basename);
    }
  }

  /** When every track succeeds, the playlist has one entry per track, in track order. */
  lemma PlaylistAllSucceed(ctx: Context, tracks: seq<Track>, results: seq<TrackResults>, basename: string -> string)
    requires |results| == |tracks| && AllKeysPresent(tracks)
    requires forall i :: 0 <= i < |results| ==> Succeeded(results[i])
    ensures var p := Process(ctx, tracks, results, basename).playlist;
      && |p| == |tracks|
      && forall i :: 0 <= i < |tracks| ==> Succeeded(results[i]) && p[i] == basename(results[i].converted.value)
  {
    PlaylistIsSuccesses(ctx, tracks, results, basename);
    AllSucceedIndices(results);
  }

  /** When every track succeeds, the successful indices are `0, 1, ..., n-1`. */
  lemma {:induction false} AllSucceedIndices(results: seq<TrackResults>)
    requires forall i :: 0 <= i < |results| ==> Succeeded(results[i])
    ensures |SuccessIndices(results)| == |results|
    ensures forall j :: 0 <= j < |results| ==> SuccessIndices(results)[j] == j
    decreases |results|
  {
    if results != [] {
      var n := |results| - 1;
      assert forall i :: 0 <= i < n ==> results[..n][i] == results[i];
      AllSucceedIndices(results[..n]);
    }
  }

  /**
    The loop over a prefix of the tracks is the start of the loop over all of
    them: later tracks never change the entries or effects of earlier ones.
   */
  lemma {:induction false} ProcessPrefix(ctx: Context, tracks: seq<Track>, results: seq<TrackResults>, basename: string -> string, m: nat)
    requires |results| == |tracks| && m <= |tracks|
    ensures var whole := Process(ctx, tracks, results, basename);
      var part := Process(ctx, tracks[..m], results[..m], basename);
      && part.playlist <= whole.playlist
      && part.actions <= whole.actions
      && (part.crash.Some? ==> whole == part)
    decreases |tracks|
  {
    if m == |tracks| {
      assert tracks[..m] == tracks && results[..m] == results;
    } else {
      var n := |tracks| - 1;
      assert tracks[..n][..m] == tracks[..m] && results[..n][..m] == results[..m];
      ProcessPrefix(ctx, tracks[..n], results[..n], basename, m);
    }
  }

  /** `s` with its element at index `k` removed. */
  function Without<T>(s: seq<T>, k: nat): seq<T>
    requires k < |s|
  {
    s[..k] + s[k + 1..]
  }

  /**
    A failed track leaves no trace in the playlist: the playlist equals the one
    obtained from the library with that track removed.
   */
  lemma FailedTrackDropped(ctx: Context, tracks: seq<Track>, results: seq<TrackResults>, basename: string -> string, k: nat)
    requires |results| == |tracks| && k < |tracks| && AllKeysPresent(tracks)
    requires !Succeeded(results[k])
    ensures Process(ctx, tracks, results, basename).playlist
      == Process(ctx, Without(tracks, k), Without(results, k), basename).playlist
  {
    DropUpTo(ctx, tracks, results, basename, k, |tracks|);
    assert tracks[..|tracks|] == tracks && results[..|results|] == results;
    var ts := tracks[..k] + tracks[k + 1..];
    var rs := results[..k] + results[k + 1..];
    assert ts[..|tracks| - 1] == ts && rs[..|tracks| - 1] == rs;
  }

  lemma {:induction false} DropUpTo(ctx: Context, tracks: seq<Track>, results: seq<TrackResults>, basename: string -> string, k: nat, m: nat)
    requires |results| == |tracks| && k < m <= |tracks| && AllKeysPresent(tracks)
    requires !Succeeded(results[k])
    ensures var ts := tracks[..k] + tracks[k + 1..];
      var rs := results[..k] + results[k + 1..];
      Process(ctx, tracks[..m], results[..m], basename).playlist
        == Process(ctx, ts[..m - 1], rs[..m - 1], basename).playlist
    decreases m
  {
    var ts := tracks[..k] + tracks[k + 1..];
    var rs := results[..k] + results[k + 1..];
    var n := m - 1;
    assert tracks[..m][..n] == tracks[..n] && results[..m][..n] == results[..n];
    assert tracks[..m][n] == tracks[n] && results[..m][n] == results[n];
    KeysPresentPrefix(tracks, n);
    NoCrash(ctx, tracks[..n], results[..n], basename);
    if m == k + 1 {
      assert ts[..n] == tracks[..k] && rs[..n] == results[..k];
    } else {
      DropUpTo(ctx, tracks, results, basename, k, n);
      assert ts[..n][..n - 1] == ts[..n - 1] && rs[..n][..n - 1] == rs[..n - 1];
      assert ts[..n][n - 1] == tracks[n] && rs[..n][n - 1] == results[n];
      DroppedKeysPresent(tracks, k);
      KeysPresentPrefix(ts, n - 1);
      NoCrash(ctx, ts[..n - 1], rs[..n - 1], basename);
    }
  }

  lemma KeysPresentPrefix(tracks: seq<Track>, n: nat)
    requires AllKeysPresent(tracks) && n <= |tracks|
    ensures AllKeysPresent(tracks[..n])
  {
    assert forall i :: 0 <= i < n ==> tracks[..n][i] == tracks[i];
  }

  lemma DroppedKeysPresent(tracks: seq<Track>, k: nat)
    requires AllKeysPresent(tracks) && k < |tracks|
    ensures AllKeysPresent(tracks[..k] + tracks[k + 1..])
  {
    var ts := tracks[..k] + tracks[k + 1..];
    assert forall i :: 0 <= i < |ts| ==> ts[i] == (if i < k then tracks[i] else tracks[i + 1]);
  }

  /** A loop over tracks that all have their required keys never crashes. */
  lemma {:induction false} NoCrash(ctx: Context, tracks: seq<Track>, results: seq<TrackResults>, basename: string -> string)
    requires |results| == |tracks| && AllKeysPresent(tracks)
    ensures Process(ctx, tracks, results, basename).crash.None?
    decreases |tracks|
  {
    if tracks != [] {
      var n := |tracks| - 1;
      KeysPresentPrefix(tracks, n);
      NoCrash(ctx, tracks[..n], results[..n], basename);
    }
  }

  /** Every effect of the loop is an effect of the loop body for one of the tracks. */
  lemma {:induction false} ActionFromTrack(ctx: Context, tracks: seq<Track>, results: seq<TrackResults>, basename: string -> string, a: Action)
    requires |results| == |tracks|
    requires a in Process(ctx, tracks, results, basename).actions
    ensures exists i :: (0 <= i < |tracks| && MissingKey(tracks[i]).None? &&
      a in ProcessTrack(ctx, tracks[i], results[i], basename).actions)
    decreases |tracks|
  {
    var n := |tracks| - 1;
    var prev := Process(ctx, tracks[..n], results[..n], basename);
    if a in prev.actions {
      ActionFromTrack(ctx, tracks[..n], results[..n], basename, a);
      var i :| 0 <= i < n && MissingKey(tracks[..n][i]).None? &&
        a in ProcessTrack(ctx, tracks[..n][i], results[..n][i], basename).actions;
      assert tracks[..n][i] == tracks[i] && results[..n][i] == results[i];
    } else {
      assert MissingKey(tracks[n]).None? && a in ProcessTrack(ctx, tracks[n], results[n], basename).actions;
    }
  }

  /** When the loop runs to the end, every track's effects are among the loop's effects. */
  // Automatic induction is off: its extra hypotheses only slow this direct proof down.
  lemma {:induction false} TrackActionsIncluded(ctx: Context, tracks: seq<Track>, results: seq<TrackResults>, basename: string -> string, i: nat)
    requires |results| == |tracks| && AllKeysPresent(tracks) && i < |tracks|
    ensures forall a :: a in ProcessTrack(ctx, tracks[i], results[i], basename).actions ==>
      a in Process(ctx, tracks, results, basename).actions
  {
    ProcessPrefix(ctx, tracks, results, basename, i + 1);
    assert tracks[..i + 1][..i] == tracks[..i] && results[..i + 1][..i] == results[..i];
    assert tracks[..i + 1][i] == tracks[i] && results[..i + 1][i] == results[i];
    KeysPresentPrefix(tracks, i);
    NoCrash(ctx, tracks[..i], results[..i], basename);
    var prev := Process(ctx, tracks[..i], results[..i], basename);
    var step := ProcessTrack(ctx, tracks[i], results[i], basename);
    var part := Process(ctx, tracks[..i + 1], results[..i + 1], basename);
    var whole := Process(ctx, tracks, results, basename);
    assert part.actions == prev.actions + step.actions;
    forall a | a in step.actions
      ensures a in whole.actions
    {
      var j :| 0 <= j < |step.actions| && step.actions[j] == a;
      assert part.actions[|prev.actions| + j] == a;
      assert whole.actions[|prev.actions| + j] == a;
    }
  }

  // The four cleanup lemmas below follow from the fold lemmas above; automatic
  // induction is switched off so that their proofs are the calls written here.

  /**
    A raw file is removed only on behalf of a track whose download and
    conversion succeeded, when raw files are to be deleted and the converter
    wrote a different file; in particular, a raw file whose conversion failed
    is left on disk.
   */
  lemma {:induction false} RawRemovedOnlyWhenConverted(ctx: Context, tracks: seq<Track>, results: seq<TrackResults>, basename: string -> string, p: string)
    requires |results| == |tracks|
    requires RemoveRaw(p) in Process(ctx, tracks, results, basename).actions
    ensures ctx.deleteRawFiles
    ensures exists i :: (0 <= i < |tracks| && Succeeded(results[i]) &&
      results[i].raw.value != results[i].converted.value && p == results[i].raw.value)
  {
    ActionFromTrack(ctx, tracks, results, basename, RemoveRaw(p));
  }

  /** Conversely, every such raw file is removed when the loop runs to the end. */
  lemma {:induction false} RawRemovedWhenConverted(ctx: Context, tracks: seq<Track>, results: seq<TrackResults>, basename: string -> string, i: nat)
    requires |results| == |tracks| && AllKeysPresent(tracks) && i < |tracks|
    requires ctx.deleteRawFiles && Succeeded(results[i]) && results[i].raw.value != results[i].converted.value
    ensures RemoveRaw(results[i].raw.value) in Process(ctx, tracks, results, basename).actions
  {
    TrackActionsIncluded(ctx, tracks, results, basename, i);
  }

  /**
    A cover file is removed only for a successful track with a cover URL whose
    fetched cover path is non-empty and exists, and only when covers are not kept.
   */
  lemma {:induction false} CoverRemovedOnlyWhenFetched(ctx: Context, tracks: seq<Track>, results: seq<TrackResults>, basename: string -> string, p: string)
    requires |results| == |tracks|
    requires RemoveCover(p) in Process(ctx, tracks, results, basename).actions
    ensures !ctx.keepCoverFile
    ensures exists i :: (0 <= i < |tracks| && Succeeded(results[i]) && Truthy(tracks[i].albumCover) &&
      Truthy(results[i].cover) && results[i].coverExists && p == results[i].cover.value)
  {
    ActionFromTrack(ctx, tracks, results, basename, RemoveCover(p));
  }

  /** Conversely, every such cover file is removed when the loop runs to the end. */
  lemma {:induction false} CoverRemovedWhenFetched(ctx: Context, tracks: seq<Track>, results: seq<TrackResults>, basename: string -> string, i: nat)
    requires |results| == |tracks| && AllKeysPresent(tracks) && i < |tracks|
    requires !ctx.keepCoverFile && Succeeded(results[i]) && Truthy(tracks[i].albumCover)
    requires Truthy(results[i].cover) && results[i].coverExists
    ensures RemoveCover(results[i].cover.value) in Process(ctx, tracks, results, basename).actions
  {
    TrackActionsIncluded(ctx, tracks, results, basename, i);
  }
}
