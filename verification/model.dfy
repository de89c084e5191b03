/**
  The records the library download works on. Dictionary keys that the source
  reads with `.get` or `[...]` are `Option` fields: `None` means the key is absent.
 */
module Model {
  import opened Wrappers

  /** The four configuration options the download reads. */
  datatype Config = Config(
    outputFormat: string,
    outputDirectory: string,
    keepCoverFile: bool,
    deleteRawFiles: bool)

  /** One track record as returned by the catalog. */
  datatype Track = Track(
    id: Option<string>,
    title: Option<string>,
    artist: Option<string>,
    albumTitle: Option<string>,
    genre: Option<string>,
    releaseDate: Option<string>,
    albumCover: Option<string>)

  /** The `library` object of the catalog response; an absent track list reads as empty. */
  datatype LibraryRecord = LibraryRecord(title: Option<string>, tracks: seq<Track>)

  /** A non-empty catalog response; `library` is `None` when the key is missing. */
  datatype Response = Response(library: Option<LibraryRecord>)

  /** The tags written into a converted file. */
  datatype Metadata = Metadata(title: string, artist: string, album: string, genre: string, date: string)

  /** A directory `name` inside `parent` (`os.path.join(parent, name)`). */
  datatype Folder = Folder(parent: string, name: string)

  /** A file `name` inside a folder. */
  datatype FilePath = FileIn(folder: Folder, name: string)

  /**
    What the collaborators returned for one track: the downloader's raw path,
    the converter's output path, the cover fetcher's path, and whether that
    cover file exists on disk afterwards. A later field is only consulted when
    the earlier steps succeeded.
   */
  datatype TrackResults = TrackResults(
    raw: Option<string>,
    converted: Option<string>,
    cover: Option<string>,
    coverExists: bool)

  /** An effect the download asks a collaborator or the filesystem to perform. */
  datatype Action =
    | Download(trackId: string, quality: string, directory: Folder, track: Track)
    | Convert(raw: string, format: string)
    | FetchCover(url: string, dest: FilePath)
    | Tag(path: string, metadata: Metadata, cover: Option<string>)
    | RemoveCover(path: string)
    | RemoveRaw(path: string)

  /** Both the download and the conversion of a track produced a (non-empty) path. */
  predicate Succeeded(r: TrackResults) {
    Truthy(r.raw) && Truthy(r.converted)
  }
}
