/**
  The playlist file `library.m3u8`: one file name per line, each line ended by
  a newline character.
 */
module Playlist {

  /** Name of the playlist file written into the destination folder. */
  const PlaylistFileName: string := "library.m3u8"

  /** The file body: `name + "\n"` for every entry, in order. */
  function PlaylistText(names: seq<string>): string {
    if names == [] then "" else names[0] + "\n" + PlaylistText(names[1..])
  }

  /** No entry contains a line break. */
  predicate SingleLine(names: seq<string>) {
    forall i :: 0 <= i < |names| ==> '\n' !in names[i]
  }

  /** The number of occurrences of `c` in `s`. */
  function Count(s: string, c: char): nat {
    if s == [] then 0 else (if s[0] == c then 1 else 0) + Count(s[1..], c)
  }

  /**
    Reads a newline-terminated text back into its lines. A final line that
    lacks its newline is still returned.
   */
  function SplitLines(text: string): (r: seq<string>)
    ensures forall i :: 0 <= i < |r| ==> '\n' !in r[i]
    decreases |text|
  {
    if text == [] then []
    else
      var k := NewlineIndex(text, 0);
      if k == |text| then [text]
      else [text[..k]] + SplitLines(text[k + 1..])
  }

  /** The index of the first newline of `text` at or after `from`, or `|text|` when there is none. */
  function NewlineIndex(text: string, from: nat): (k: nat)
    requires from <= |text|
    ensures from <= k <= |text|
    ensures k < |text| ==> text[k] == '\n'
    ensures forall j :: from <= j < k ==> text[j] != '\n'
    decreases |text| - from
  {
    if from == |text| || text[from] == '\n' then from else NewlineIndex(text, from + 1)
  }

  lemma {:induction false} CountAppend(a: string, b: string, c: char)
    ensures Count(a + b, c) == Count(a, c) + Count(b, c)
  {
    if a == [] {
      assert a + b == b;
    } else {
      CountAppend(a[1..], b, c);
      assert (a + b)[1..] == a[1..] + b;
    }
  }

  lemma {:induction false} CountAbsent(s: string, c: char)
    requires c !in s
    ensures Count(s, c) == 0
  {
    if s != [] {
      CountAbsent(s[1..], c);
    }
  }

  /** With single-line entries, the text has exactly one newline per entry, and it ends in one. */
  lemma {:induction false} PlaylistLines(names: seq<string>)
    requires SingleLine(names)
    ensures Count(PlaylistText(names), '\n') == |names|
    ensures names != [] ==> PlaylistText(names)[|PlaylistText(names)| - 1] == '\n'
  {
    if names != [] {
      PlaylistLines(names[1..]);
      var rest := PlaylistText(names[1..]);
      CountAppend(names[0] + "\n", rest, '\n');
      CountAppend(names[0], "\n", '\n');
      CountAbsent(names[0], '\n');
      assert Count("\n", '\n') == 1;
    }
  }

  /** The text holds at least one character per entry, and is empty exactly when there are no entries. */
  lemma {:induction false} PlaylistTextLength(names: seq<string>)
    ensures |PlaylistText(names)| >= |names|
    ensures names == [] <==> PlaylistText(names) == ""
  {
    if names != [] {
      PlaylistTextLength(names[1..]);
    }
  }

  /** Reading the written playlist back yields exactly its entries, in order. */
  lemma {:induction false} PlaylistRoundTrip(names: seq<string>)
    requires SingleLine(names)
    ensures SplitLines(PlaylistText(names)) == names
  {
    if names != [] {
      var head := names[0];
      var rest := PlaylistText(names[1..]);
      var text := PlaylistText(names);
      assert text == head + "\n" + rest;
      assert '\n' !in head;
      forall j | 0 <= j < |head|
        ensures text[j] != '\n'
      {
        assert text[j] == head[j];
      }
      assert text[|head|] == '\n';
      assert NewlineIndex(text, 0) == |head| by {
        NewlineAt(text, 0, |head|);
      }
      assert text[..|head|] == head;
      assert text[|head| + 1..] == rest;
      PlaylistRoundTrip(names[1..]);
    }
  }

  lemma {:induction false} NewlineAt(text: string, from: nat, k: nat)
    requires from <= k < |text| && text[k] == '\n'
    requires forall j :: from <= j < k ==> text[j] != '\n'
    ensures NewlineIndex(text, from) == k
    decreases k - from
  {
    if from < k {
      NewlineAt(text, from + 1, k);
    }
  }
}
