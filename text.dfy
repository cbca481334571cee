/**
 * How `transcribe_audio` in app.py turns the recognition library's segments
 * into the response text: every segment's text followed by one space,
 * concatenated in order, and the result passed to Python's `str.strip()`.
 */
module Transcript {

  /**
   * The characters Python's `str.strip()` removes by default (those for which
   * `str.isspace()` holds).
   */
  predicate IsSpace(c: char)
  {
    c == ' ' || c == '\t' || c == '\n' || c == '\r' || c == '\U{000B}' || c == '\U{000C}' ||
    ('\U{001C}' <= c <= '\U{001F}') || c == '\U{0085}' || c == '\U{00A0}' || c == '\U{1680}' ||
    ('\U{2000}' <= c <= '\U{200A}') || c == '\U{2028}' || c == '\U{2029}' ||
    c == '\U{202F}' || c == '\U{205F}' || c == '\U{3000}'
  }

  /** Leading whitespace removed: the longest suffix that does not start with whitespace. */
  function StripStart(s: string): (r: string)
    ensures |r| <= |s| && r == s[|s| - |r|..]
    ensures r == [] || !IsSpace(r[0])
    ensures forall i :: 0 <= i < |s| - |r| ==> IsSpace(s[i])
  {
    if s == [] || !IsSpace(s[0]) then s else StripStart(s[1..])
  }

  /** Trailing whitespace removed: the longest prefix that does not end with whitespace. */
  function StripEnd(s: string): (r: string)
    ensures |r| <= |s| && r == s[..|r|]
    ensures r == [] || !IsSpace(r[|r| - 1])
    ensures forall i :: |r| <= i < |s| ==> IsSpace(s[i])
  {
    if s == [] || !IsSpace(s[|s| - 1]) then s else StripEnd(s[..|s| - 1])
  }

  /** The number of whitespace characters at the start of `s`. */
  function LeadingSpaces(s: string): (n: nat)
    ensures n <= |s|
    ensures forall i :: 0 <= i < n ==> IsSpace(s[i])
    ensures n < |s| ==> !IsSpace(s[n])
  {
    if s == [] || !IsSpace(s[0]) then 0 else 1 + LeadingSpaces(s[1..])
  }

  /**
   * Python's `str.strip()`: the leading whitespace dropped one character at a
   * time, then the trailing whitespace; the result is empty or starts and
   * ends with a character that is not whitespace.
   */
  function Strip(s: string): (r: string)
    ensures r == [] || (!IsSpace(r[0]) && !IsSpace(r[|r| - 1]))
  {
    if s != [] && IsSpace(s[0]) then Strip(s[1..]) else StripEnd(s)
  }

  /** `Strip` removes the whitespace at both ends: it is `StripEnd` after `StripStart`. */
  lemma {:induction false} StripIsBothEnds(s: string)
    ensures Strip(s) == StripEnd(StripStart(s))
  {
    if s != [] && IsSpace(s[0]) {
      StripIsBothEnds(s[1..]);
    }
  }

  /**
   * `Strip(s)` is the slice of `s` that starts after the leading whitespace,
   * and everything cut off after it is whitespace.
   */
  lemma {:induction false} StripSlice(s: string)
    ensures var k := LeadingSpaces(s); k + |Strip(s)| <= |s| && Strip(s) == s[k..k + |Strip(s)|]
    ensures var k := LeadingSpaces(s); forall i :: k + |Strip(s)| <= i < |s| ==> IsSpace(s[i])
  {
    if s != [] && IsSpace(s[0]) {
      StripSlice(s[1..]);
      var k := LeadingSpaces(s[1..]);
      var m := |Strip(s)|;
      assert s[1..][k..k + m] == s[k + 1..k + 1 + m];
      assert forall i :: k + 1 + m <= i < |s| ==> s[i] == s[1..][i - 1];
    }
  }

  /** `StripStart` drops exactly the leading whitespace that `LeadingSpaces` counts. */
  lemma {:induction false} StartIsLeadingSpaces(s: string)
    ensures |StripStart(s)| == |s| - LeadingSpaces(s)
  {
    if s != [] && IsSpace(s[0]) {
      StartIsLeadingSpaces(s[1..]);
    }
  }

  /** The text accumulated by the loop: each segment followed by one space. */
  function Joined(segments: seq<string>): (r: string)
    ensures r == [] <==> segments == []
    ensures segments != [] ==> r[|r| - 1] == ' '
  {
    if segments == [] then ""
    else Joined(segments[..|segments| - 1]) + segments[|segments| - 1] + " "
  }

  /** The segments separated by single spaces (Python's `" ".join`). */
  function SpaceJoin(segments: seq<string>): string
  {
    if |segments| <= 1 then (if segments == [] then "" else segments[0])
    else SpaceJoin(segments[..|segments| - 1]) + " " + segments[|segments| - 1]
  }

  /** A segment text that starts and ends with something other than whitespace. */
  predicate Trimmed(t: string)
  {
    t != [] && !IsSpace(t[0]) && !IsSpace(t[|t| - 1])
  }

  /**
   * The collecting loop of `transcribe_audio`: `transcription += text + " "`
   * for each segment, then `transcription.strip()`.
   */
  method CollectText(segments: seq<string>) returns (text: string)
    ensures text == Strip(Joined(segments))
  {
    var transcription := "";
    var i := 0;
    while i < |segments|
      invariant 0 <= i <= |segments|
      invariant transcription == Joined(segments[..i])
    {
      assert segments[..i + 1][..i] == segments[..i];
      transcription := transcription + segments[i] + " ";
      i := i + 1;
    }
    assert segments[..i] == segments;
    text := Strip(transcription);
  }

  /** No segments give the empty transcription. */
  lemma NoSegmentsEmptyText()
    ensures Strip(Joined([])) == ""
  {
  }

  /** The accumulated text is the single-space join plus one trailing space. */
  lemma {:induction false} JoinedIsSpaceJoinPlusSpace(segments: seq<string>)
    requires segments != []
    ensures Joined(segments) == SpaceJoin(segments) + " "
  {
    var n := |segments|;
    if n > 1 {
      var init := segments[..n - 1];
      JoinedIsSpaceJoinPlusSpace(init);
    }
  }

  /** The single-space join begins with the first segment and ends with the last. */
  lemma {:induction false} SpaceJoinEnds(segments: seq<string>)
    requires segments != []
    requires forall i :: 0 <= i < |segments| ==> segments[i] != []
    ensures SpaceJoin(segments) != []
    ensures SpaceJoin(segments)[0] == segments[0][0]
    ensures var j := SpaceJoin(segments); var l := segments[|segments| - 1];
            j[|j| - 1] == l[|l| - 1]
  {
    var n := |segments|;
    if n > 1 {
      var init := segments[..n - 1];
      SpaceJoinEnds(init);
      assert init[0] == segments[0];
    }
  }

  /**
   * When every segment text is non-empty and has no surrounding whitespace,
   * the transcription is the segments separated by single spaces: the
   * trailing space of the last segment is what `strip()` removes.
   */
  lemma TrimmedSegmentsSingleSpaced(segments: seq<string>)
    requires forall i :: 0 <= i < |segments| ==> Trimmed(segments[i])
    ensures Strip(Joined(segments)) == SpaceJoin(segments)
  {
    if segments != [] {
      JoinedIsSpaceJoinPlusSpace(segments);
      SpaceJoinEnds(segments);
      StripTrailingSpace(SpaceJoin(segments));
    }
  }

  /** Stripping a text without surrounding whitespace, followed by one space, gives the text back. */
  lemma StripTrailingSpace(t: string)
    requires Trimmed(t)
    ensures Strip(t + " ") == t
  {
    var s := t + " ";
    assert s[0] == t[0];
    assert s[..|s| - 1] == t;
    assert StripEnd(s) == StripEnd(t);
  }
}
