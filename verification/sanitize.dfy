/**
  The filename sanitiser: keep the characters that are alphanumeric or one of
  space, underscore and hyphen, then strip trailing whitespace.

  Python's `str.isalnum` and `str.isspace` are Unicode-aware; here they are
  approximated by their ASCII behaviour.
 */
module Sanitize {

  /** ASCII approximation of `str.isalnum` on one character. */
  predicate IsAlnum(c: char) {
    ('a' <= c <= 'z') || ('A' <= c <= 'Z') || ('0' <= c <= '9')
  }

  /** The ASCII characters for which `str.isspace` holds, which `str.rstrip()` removes. */
  predicate IsSpace(c: char) {
    // space, tab to carriage return (9..13), and the separators 28..31
    c == ' ' || (9 <= c as int <= 13) || (28 <= c as int <= 31)
  }

  /** A character that survives the filter. */
  predicate IsKept(c: char) {
    IsAlnum(c) || c == ' ' || c == '_' || c == '-'
  }

  /** The characters of `s` that survive the filter, in their original order. */
  function Keep(s: string): string {
    if s == [] then []
    else (if IsKept(s[0]) then [s[0]] else []) + Keep(s[1..])
  }

  /** `s` with all trailing whitespace removed. */
  function RStrip(s: string): string {
    if s != [] && IsSpace(s[|s| - 1]) then RStrip(s[..|s| - 1]) else s
  }

  /** `a` can be obtained from `b` by deleting characters. */
  ghost predicate IsSubsequence(a: string, b: string) {
    if a == [] then true
    else if b == [] then false
    else if a[0] == b[0] then IsSubsequence(a[1..], b[1..])
    else IsSubsequence(a, b[1..])
  }

  /** No trailing whitespace. */
  predicate NoTrailingSpace(s: string) {
    s == [] || !IsSpace(s[|s| - 1])
  }

  /** A string the sanitiser would leave as it is. */
  predicate IsSanitized(s: string) {
    (forall i :: 0 <= i < |s| ==> IsKept(s[i])) && NoTrailingSpace(s)
  }

  /** The only whitespace character that survives the filter is the plain space. */
  lemma KeptSpaceIsBlank(c: char)
    requires IsKept(c) && IsSpace(c)
    ensures c == ' '
  {
  }

  lemma {:induction false} KeepChars(s: string)
    ensures forall i :: 0 <= i < |Keep(s)| ==> IsKept(Keep(s)[i])
    ensures forall c :: c in Keep(s) <==> c in s && IsKept(c)
  {
    if s != [] {
      KeepChars(s[1..]);
      assert s == [s[0]] + s[1..];
    }
  }

  lemma {:induction false} KeepIsSubsequence(s: string)
    ensures IsSubsequence(Keep(s), s)
  {
    if s != [] {
      KeepIsSubsequence(s[1..]);
      KeepChars(s);
      var k := Keep(s);
      if IsKept(s[0]) {
        assert k[0] == s[0] && k[1..] == Keep(s[1..]);
      } else {
        assert k == Keep(s[1..]);
        assert k != [] ==> IsKept(k[0]) && k[0] != s[0];
      }
    }
  }

  /** A prefix of a subsequence is a subsequence. */
  lemma {:induction false} SubsequencePrefix(a: string, b: string, n: nat)
    requires n <= |a| && IsSubsequence(a, b)
    ensures IsSubsequence(a[..n], b)
    decreases |b|
  {
    if n > 0 && b != [] {
      if a[0] == b[0] {
        SubsequencePrefix(a[1..], b[1..], n - 1);
        assert a[..n][1..] == a[1..][..n - 1];
      } else {
        SubsequencePrefix(a, b[1..], n);
      }
    }
  }

  lemma {:induction false} SubsequenceLength(a: string, b: string)
    requires IsSubsequence(a, b)
    ensures |a| <= |b|
  {
    if a != [] && b != [] {
      if a[0] == b[0] {
        SubsequenceLength(a[1..], b[1..]);
      } else {
        SubsequenceLength(a, b[1..]);
      }
    }
  }

  /** `RStrip` removes exactly a run of trailing whitespace, and nothing before it. */
  lemma {:induction false} RStripSplit(s: string)
    ensures |RStrip(s)| <= |s| && RStrip(s) == s[..|RStrip(s)|]
    ensures forall i :: |RStrip(s)| <= i < |s| ==> IsSpace(s[i])
    ensures NoTrailingSpace(RStrip(s))
    decreases |s|
  {
    if s != [] && IsSpace(s[|s| - 1]) {
      RStripSplit(s[..|s| - 1]);
    }
  }

  lemma RStripNoOp(s: string)
    requires NoTrailingSpace(s)
    ensures RStrip(s) == s
  {
  }

  lemma {:induction false} KeepAllKept(s: string)
    requires forall i :: 0 <= i < |s| ==> IsKept(s[i])
    ensures Keep(s) == s
  {
    if s != [] {
      KeepAllKept(s[1..]);
      assert s == [s[0]] + s[1..];
    }
  }

  lemma StripOfKept(name: string)
    ensures IsSanitized(RStrip(Keep(name)))
    ensures |RStrip(Keep(name))| <= |Keep(name)| <= |name|
    ensures RStrip(Keep(name)) == Keep(name)[..|RStrip(Keep(name))|]
    ensures forall i :: |RStrip(Keep(name))| <= i < |Keep(name)| ==> Keep(name)[i] == ' '
  {
    var kept := Keep(name);
    KeepChars(name);
    RStripSplit(kept);
    KeepIsSubsequence(name);
    SubsequenceLength(kept, name);
    var r := RStrip(kept);
    forall i | |r| <= i < |kept|
      ensures kept[i] == ' '
    {
      KeptSpaceIsBlank(kept[i]);
    }
    assert forall i :: 0 <= i < |r| ==> r[i] == kept[i];
  }

  /**
    The filename sanitiser: keep letters, digits, space, `_` and `-`, then drop
    trailing whitespace. The result holds only kept characters and never ends
    in whitespace; it is the filtered input with a run of trailing spaces removed.
   */
  function SanitizeFilename(name: string): (r: string)
    ensures IsSanitized(r)
    ensures |r| <= |Keep(name)| <= |name|
    ensures r == Keep(name)[..|r|]
    ensures forall i :: |r| <= i < |Keep(name)| ==> Keep(name)[i] == ' '
  {
    StripOfKept(name);
    RStrip(Keep(name))
  }

  /** The output is obtained from the input by deleting characters. */
  lemma SanitizeIsSubsequence(name: string)
    ensures IsSubsequence(SanitizeFilename(name), name)
  {
    var kept := Keep(name);
    var r := SanitizeFilename(name);
    KeepIsSubsequence(name);
    SubsequencePrefix(kept, name, |r|);
  }

  /**
    Apart from spaces, a character occurs in the output exactly when it occurs
    in the input and passes the filter: only spaces are ever lost to the strip.
   */
  lemma SanitizeKeepsNonSpace(name: string, c: char)
    requires c != ' '
    ensures c in SanitizeFilename(name) <==> c in name && IsKept(c)
  {
    var kept := Keep(name);
    var r := SanitizeFilename(name);
    KeepChars(name);
    if c in kept {
      var i :| 0 <= i < |kept| && kept[i] == c;
      assert i < |r|;
      assert r[i] == c;
    }
    if c in r {
      var i :| 0 <= i < |r| && r[i] == c;
      assert kept[i] == c;
    }
  }

  /** Sanitising an already sanitised string changes nothing. */
  lemma SanitizeFixesSanitized(s: string)
    requires IsSanitized(s)
    ensures SanitizeFilename(s) == s
  {
    KeepAllKept(s);
    RStripNoOp(s);
  }

  /** Applying the sanitiser twice gives the same result as applying it once. */
  lemma SanitizeIdempotent(name: string)
    ensures SanitizeFilename(SanitizeFilename(name)) == SanitizeFilename(name)
  {
    SanitizeFixesSanitized(SanitizeFilename(name));
  }

  /** The folder title of the end-to-end scenario: `"My Mix!"` becomes `"My Mix"`. */
  lemma SanitizeExample()
    ensures SanitizeFilename("My Mix!") == "My Mix"
    ensures SanitizeFilename("") == ""
  {
    var s := "My Mix!";
    assert s[6..] == "!" && Keep(s[6..]) == "";
    assert s[5..] == "x!" && Keep(s[5..]) == "x";
  }
}
