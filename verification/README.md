# Library download model

A Dafny model of `library.py` from the `dabcli` command-line client: the
function `download_library`, which fetches a remote library of audio tracks,
downloads and converts each track, tags it, cleans up intermediate files and
writes a `library.m3u8` playlist, and the filename sanitiser it uses for the
destination folder.

Everything that talks to the outside world is an input. The login check is a
boolean. The catalog response is an optional `Response`. Each track's
collaborator results are a `TrackResults` record:

- the downloader's raw path;
- the converter's output path;
- the cover fetcher's path;
- whether the cover file exists afterwards.

`os.path.basename` is a function parameter. The effects the Python code
performs become a list of planned `Action`s: download, convert, fetch cover,
tag, remove cover, remove raw file. Python's truthiness is kept: `None` and
`""` both count as failure (`Wrappers.Truthy`).

Modules:

- `Wrappers`: `Option` and `Truthy`.
- `Sanitize`: `sanitize_filename`, with `str.isalnum`, `str.isspace` and `str.rstrip` on ASCII.
- `Naming`: quality resolution, `str.upper` on ASCII, the library title and the folder name, and a parser that reads a folder name back.
- `Playlist`: the playlist text, and a line splitter that reads it back.
- `Model`: configuration, track, library, metadata, path and action records.
- `Pipeline`: the loop body (`ProcessTrack`) and the loop as a left fold (`Process`), including the `KeyError` that a track lacking `title`, `artist` or `id` raises.
- `Library`: `download_library` as a whole: abort checks, folder, loop, playlist file.

## Model

| member | source | states |
|---|---|---|
| Sanitize.SanitizeFilename | library.py:10-11 | the result holds only alphanumeric, space, `_` and `-` characters, never ends in whitespace, is never longer than the input, and is the filtered input minus a run of trailing spaces |
| Sanitize.SanitizeIsSubsequence | library.py:11 | the result is obtained from the input by deleting characters, order preserved |
| Sanitize.SanitizeKeepsNonSpace | library.py:11 | a character other than space occurs in the result exactly when it occurs in the input and passes the filter |
| Sanitize.SanitizeFixesSanitized | library.py:11 | a string made of kept characters with no trailing whitespace is returned unchanged |
| Sanitize.SanitizeIdempotent | library.py:11 | sanitising twice equals sanitising once |
| Sanitize.SanitizeExample | library.py:11 | `"My Mix!"` becomes `"My Mix"` and the empty string stays empty |
| Naming.ResolveQuality | library.py:30 | a non-empty caller quality is used as given; an absent or empty one becomes `"27"` for `flac` and `"5"` otherwise; the result is never empty |
| Naming.ResolveQualityIdempotent | library.py:30 | passing a resolved quality back in changes nothing |
| Naming.Upper | library.py:32 | the upper-cased format has the input's length and upper-cases each ASCII letter in place |
| Naming.UpperNormalises | library.py:32 | the upper-cased format has no lower-case letter, keeps every other character, and upper-casing again changes nothing |
| Naming.LibraryTitle | library.py:28 | the title is sanitised, taken from the library's title or, when it has none, from `library_<id>` |
| Naming.FallbackTitle | library.py:28 | a library without a title whose id is already clean gets exactly `library_<id>` |
| Naming.FolderNameRoundTrip | library.py:28-32 | parsing `"<title> [<FORMAT>]"` at its first `[` gives back the sanitised title and the upper-cased format; this row covers the folder-name builder `Naming.FolderName` |
| Naming.FolderNameInjective | library.py:28-32 | two libraries share a folder name exactly when their sanitised titles and upper-cased formats agree |
| Naming.FolderNameExample | library.py:28-32 | library `"My Mix!"` in format `mp3` goes to folder `"My Mix [MP3]"` |
| Playlist.PlaylistLines | library.py:87-90 | with single-line names, the text has exactly one newline per entry and ends in one |
| Playlist.PlaylistRoundTrip | library.py:87-90 | splitting the written text into lines gives back the entries in order; this row and the two beside it cover the text builder `Playlist.PlaylistText` |
| Playlist.PlaylistTextLength | library.py:87-90 | the text is empty exactly when there are no entries, and has at least one character per entry |
| Pipeline.MissingKey | library.py:39-42 | a track raises `KeyError` exactly when it lacks `title`, `artist` or `id`, and the key named is the first absent one in the order the code reads them: `title`, then `artist`, then `id` |
| Pipeline.YearTag | library.py:61 | the date tag is the first `min(4, n)` characters of a release date of length `n`, and `""` when the date is absent |
| Pipeline.YearTagExamples | library.py:61 | `"2023-05-01"` gives `"2023"`, `"99"` gives `"99"` |
| Pipeline.ProcessTrack | library.py:41-85 | a track yields a playlist entry exactly when download and conversion both succeeded, and the entry is the converted file's base name; the first effect is the download request |
| Pipeline.TrackEffects | library.py:41-83 | the download is requested once, with the resolved quality and the folder. Conversion is requested only after a successful download. The cover is fetched to `cover_<id>.jpg` in the folder exactly for a converted track with a cover URL. Tagging uses the converted path, the metadata and the cover path. The raw delete and the cover delete happen exactly under their conditions. This row covers `Pipeline.MetadataOf`, `Pipeline.CoverPath` and `Pipeline.CoverDest` |
| Pipeline.TrackEffectOrder | library.py:41-83 | the effects come in the order download, convert, fetch cover, tag, remove cover, remove raw file, each at most once, so the cover is removed only after tagging |
| Pipeline.SuccessIndicesSpec | library.py:47-54 | the reference list of successful tracks holds each successful index once, in increasing order, and nothing else |
| Pipeline.ProcessCrash | library.py:38-42 | the loop stops exactly at the first track lacking a required key, naming that key, and runs to the end when there is none |
| Pipeline.PlaylistIsSuccesses | library.py:37-85 | the playlist is the base names of the converted files of exactly the successful tracks, in track order; this row and the fold lemmas below cover the loop `Pipeline.Process` and its step `Pipeline.Advance` |
| Pipeline.PlaylistBounded | library.py:37-85 | the playlist never has more entries than there are tracks |
| Pipeline.PlaylistAllSucceed | library.py:37-85 | when every track succeeds, the playlist has one entry per track, in track order |
| Pipeline.ProcessPrefix | library.py:38-85 | later tracks never change the entries or effects of earlier ones |
| Pipeline.FailedTrackDropped | library.py:47-54 | a track whose download or conversion fails leaves the playlist equal to that of the library without it |
| Pipeline.ActionFromTrack | library.py:38-85 | every effect of the loop comes from the loop body of one track |
| Pipeline.RawRemovedOnlyWhenConverted | library.py:79-83 | a raw file is deleted only when raw deletion is configured, the track converted, and the raw path differs from the converted path |
| Pipeline.RawRemovedWhenConverted | library.py:79-83 | every such raw file is deleted when the loop runs to the end |
| Pipeline.CoverRemovedOnlyWhenFetched | library.py:64-77 | a cover is deleted only for a converted track with a cover URL whose fetched path is non-empty and exists, and only when covers are not kept |
| Pipeline.CoverRemovedWhenFetched | library.py:64-77 | every such cover is deleted when the loop runs to the end |
| Library.DownloadLibrary | library.py:13-93 | the download aborts exactly when not logged in, when the response is missing or lacks a library, or when there are no tracks, with that reason; otherwise it uses folder `"<title> [<FORMAT>]"` under the configured output directory, built from the library's title and the configured output format, crashes exactly when a track lacks a required key, and otherwise writes the playlist text to `library.m3u8` in that folder; its effects, its crash and its playlist are those of the per-track loop run with the configured format, the resolved quality, that folder and the two cleanup options |
| Library.FinishedPlaylist | library.py:37-90 | a finished download's playlist lists the successful tracks' base names in order, at most one per track |
| Library.FinishedPlaylistFile | library.py:87-90 | with single-line playlist entries, the playlist file has one line per entry and reads back as the playlist |
| Library.DownloadCleanup | library.py:73-83 | a download deletes a raw file only when raw deletion is configured, for a converted track whose raw path differs from its converted path; it deletes a cover only when covers are not kept, for a converted track with a cover URL whose fetched cover exists |
| Library.DownloadsUseResolvedQuality | library.py:30-46 | every download request carries the resolved quality and the destination folder |
| Library.ConversionsUseOutputFormat | library.py:29-51 | every conversion request asks for the configured output format, the same one the folder name shows, and converts a raw file the downloader returned for one of the tracks |
| Library.EndToEndExample | library.py:13-93 | the one-track library "My Mix!" in mp3 goes to "My Mix [MP3]", is tagged with year "2020", has its cover removed, and its base name is the playlist |

## Left out

- Network, catalog, downloader, converter, tagger and cover fetcher are not modelled; their results are inputs.
- Directory creation, file writing, `os.remove` and `os.path.exists` are not performed. Existence is an input flag, and deletions are planned actions.
- The exceptions swallowed or logged around `os.remove` (library.py:74-83) are not modelled; a planned deletion is a request, and whether it succeeds is outside the model.
- Exceptions raised by the collaborators or the filesystem are not modelled. This covers `require_login`, `get`, `download_track`, `convert_audio`, `download_cover_image`, `tag_audio`, `os.makedirs` and `open`. In Python such an exception escapes `download_library` and no playlist is written. The only crash the model represents is the `KeyError` from a missing track key.
- `os.path.join` is represented by the `Folder` and `FileIn` constructors, and `os.path.basename` by a function parameter; platform path rules are not modelled.
- `print` output (progress, skips, summary) is not modelled.
- Sanitize.IsAlnum, Sanitize.IsSpace and Naming.Upper cover ASCII only. Python's `str.isalnum`, `str.isspace` and `str.upper` are Unicode-aware: non-ASCII letters survive `sanitize_filename`, and `upper` can change a string's length (for example `ß`).
- Values of the wrong JSON type are not modelled: a library `title` or a track `releaseDate` present with value `null`, or a `library` value that is not an object. In Python these crash with a `TypeError` or `AttributeError`. An absent, `null` or empty `tracks` value all read as no tracks, which the model represents as the empty list.
- The global configuration object is replaced by an explicit `Config` record with the four options the function reads.
