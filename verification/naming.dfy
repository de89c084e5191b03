/**
  Decisions made once, before the per-track loop: the quality code handed to
  the downloader, and the name of the destination folder.
 */
module Naming {
  import opened Wrappers
  import opened Sanitize

  /** Quality code requested when the output format is FLAC and the caller gave none. */
  const FlacQuality: string := "27"
  /** Quality code requested for every other output format when the caller gave none. */
  const OtherQuality: string := "5"

  /** The default quality for an output format. */
  function DefaultQuality(format: string): string {
    if format == "flac" then FlacQuality else OtherQuality
  }

  /**
    The quality code for the downloader: a non-empty caller quality wins;
    otherwise the format's default. An absent quality and an empty one are
    treated alike.
   */
  function ResolveQuality(quality: Option<string>, format: string): (r: string)
    ensures r != ""
    ensures Truthy(quality) ==> r == quality.value
    ensures !Truthy(quality) && format == "flac" ==> r == "27"
    ensures !Truthy(quality) && format != "flac" ==> r == "5"
  {
    if Truthy(quality) then quality.value else DefaultQuality(format)
  }

  /** Resolving an already resolved quality leaves it unchanged. */
  lemma ResolveQualityIdempotent(quality: Option<string>, format: string)
    ensures ResolveQuality(Some(ResolveQuality(quality, format)), format) == ResolveQuality(quality, format)
  {
  }

  /** ASCII approximation of `str.upper` on one character. */
  function UpperChar(c: char): char {
    if 'a' <= c <= 'z' then (c as int - 'a' as int + 'A' as int) as char else c
  }

  /** ASCII approximation of `str.upper`. */
  function Upper(s: string): (r: string)
    ensures |r| == |s|
    ensures forall i :: 0 <= i < |s| ==> r[i] == UpperChar(s[i])
  {
    if s == [] then [] else [UpperChar(s[0])] + Upper(s[1..])
  }

  /** The upper-cased format holds no lower-case letter, and upper-casing it again changes nothing. */
  lemma UpperNormalises(s: string)
    ensures forall i :: 0 <= i < |Upper(s)| ==> !('a' <= Upper(s)[i] <= 'z')
    ensures Upper(Upper(s)) == Upper(s)
    ensures forall i :: 0 <= i < |s| && !('a' <= s[i] <= 'z') ==> Upper(s)[i] == s[i]
  {
  }

  /** The text the title is taken from: the library's title, or `library_<id>` when it has none. */
  function RawTitle(title: Option<string>, libraryId: string): string {
    title.ValueOr("library_" + libraryId)
  }

  /** The sanitised library title used in the folder name. */
  function LibraryTitle(title: Option<string>, libraryId: string): (r: string)
    ensures IsSanitized(r)
    ensures title.Some? ==> r == SanitizeFilename(title.value)
    ensures title.None? ==> r == SanitizeFilename("library_" + libraryId)
  {
    SanitizeFilename(RawTitle(title, libraryId))
  }

  /** A library whose id is made of kept characters gets `library_<id>` as its title when it has none. */
  lemma FallbackTitle(libraryId: string)
    requires IsSanitized(libraryId)
    ensures LibraryTitle(None, libraryId) == "library_" + libraryId
  {
    var t := "library_" + libraryId;
    assert forall i :: 0 <= i < |t| ==> IsKept(t[i]) by {
      forall i | 0 <= i < |t|
        ensures IsKept(t[i])
      {
        if i >= 8 {
          assert t[i] == libraryId[i - 8];
        }
      }
    }
    assert libraryId == [] ==> t[|t| - 1] == '_';
    assert libraryId != [] ==> t[|t| - 1] == libraryId[|libraryId| - 1];
    SanitizeFixesSanitized(t);
  }

  /** `"<title> [<FORMAT>]"`, the name of the destination folder. */
  function FolderName(title: Option<string>, libraryId: string, format: string): string {
    LibraryTitle(title, libraryId) + " [" + Upper(format) + "]"
  }

  /** The index of the first occurrence of `c` in `s`, if any. */
  function FirstIndex(s: string, c: char): (r: Option<nat>)
    ensures r.None? <==> c !in s
    ensures r.Some? ==> r.value < |s| && s[r.value] == c && c !in s[..r.value]
  {
    if s == [] then None
    else if s[0] == c then Some(0)
    else match FirstIndex(s[1..], c)
      case None => None
      case Some(k) => assert s[..k + 1] == [s[0]] + s[1..][..k]; Some(k + 1)
  }

  /**
    Splits a folder name of the form `"<title> [<FORMAT>]"` at its first `[`,
    returning the title and the format, or `None` when it has another shape.
   */
  function ParseFolderName(name: string): (r: Option<(string, string)>)
    ensures r.Some? ==> name == r.value.0 + " [" + r.value.1 + "]" && '[' !in r.value.0
  {
    match FirstIndex(name, '[')
    case None => None
    case Some(k) =>
      if 1 <= k && name[k - 1] == ' ' && |name| >= k + 2 && name[|name| - 1] == ']' then
        var title := name[..k - 1];
        var format := name[k + 1..|name| - 1];
        assert name == title + " [" + format + "]";
        assert title <= name[..k];
        Some((title, format))
      else None
  }

  /**
    The folder name determines the sanitised title and the upper-cased format:
    the title holds no `[`, so the first `[` is the separator.
   */
  lemma FolderNameRoundTrip(title: Option<string>, libraryId: string, format: string)
    ensures ParseFolderName(FolderName(title, libraryId, format))
      == Some((LibraryTitle(title, libraryId), Upper(format)))
  {
    var t := LibraryTitle(title, libraryId);
    var u := Upper(format);
    var name := FolderName(title, libraryId, format);
    forall i | 0 <= i < |t|
      ensures t[i] != '['
    {
      assert IsKept(t[i]);
    }
    assert name[|t| + 1] == '[';
    assert name[..|t| + 1] == t + " ";
    assert '[' !in name[..|t| + 1];
    FirstIndexAt(name, '[', |t| + 1);
    assert name[..|t|] == t;
    assert name[|t| + 2..|name| - 1] == u;
  }

  lemma FirstIndexAt(s: string, c: char, k: nat)
    requires k < |s| && s[k] == c && c !in s[..k]
    ensures FirstIndex(s, c) == Some(k)
  {
  }

  /** Two libraries share a folder exactly when their sanitised titles and upper-cased formats agree. */
  lemma FolderNameInjective(t1: Option<string>, id1: string, f1: string, t2: Option<string>, id2: string, f2: string)
    ensures FolderName(t1, id1, f1) == FolderName(t2, id2, f2)
      <==> LibraryTitle(t1, id1) == LibraryTitle(t2, id2) && Upper(f1) == Upper(f2)
  {
    FolderNameRoundTrip(t1, id1, f1);
    FolderNameRoundTrip(t2, id2, f2);
  }

  /** The folder name of the end-to-end scenario. */
  lemma FolderNameExample()
    ensures FolderName(Some("My Mix!"), "L1", "mp3") == "My Mix [MP3]"
  {
    SanitizeExample();
  }
}
