/** The parser in the AI-summary route that turns a free-text completion into
    a summary and a list of key points. The two regular expressions
      /Summary:\s*(.+?)(?=\n\nKey Points:|$)/is   and   /Key Points:\s*([\s\S]+)/is
    are written out as scans: a first case-insensitive occurrence of the
    marker, a greedy whitespace skip, then a lazy or a greedy capture. */
module Extraction {
  import opened Options
  import opened JsText

  const SummaryMarker := "Summary:"
  const KeyPointsMarker := "Key Points:"
  /** The lookahead that ends the lazy summary capture (besides the end of
      the string). */
  const SummaryEnd := "\n\nKey Points:"
  /** The separator of `response.split('\n\n')`. */
  const ParagraphBreak := "\n\n"
  /** The character class `[-â€¢]` exactly as the source spells it: a hyphen
      and the three characters U+00E2, U+20AC and U+00A2 (the UTF-8 bytes of
      a bullet read as Windows-1252), not the bullet U+2022 itself. */
  const BulletChars: set<char> := {'-', '\U{00E2}', '\U{20AC}', '\U{00A2}'}
  /** `keyPoints.slice(0, 5)`. */
  const MaxKeyPoints := 5

  datatype AISummary = AISummary(summary: string, keyPoints: seq<string>)

  /** Capture group 1 of the summary regex, or None when it does not match.
      If only whitespace follows the marker, the greedy `\s*` gives its last
      character back to `.+?`, which must take at least one. */
  function SummaryCapture(s: string): Option<string> {
    match IndexOf(s, SummaryMarker, 0, true)
    case None => None
    case Some(i) =>
      var p := i + |SummaryMarker|;
      if p == |s| then None
      else
        var w := SkipWhitespace(s, p);
        var start := if w < |s| then w else |s| - 1;
        var end := match IndexOf(s, SummaryEnd, start + 1, true)
                   case Some(e) => e
                   case None => |s|;
        Some(s[start..end])
  }

  /** Capture group 1 of the key-points regex, or None when it does not
      match; `[\s\S]+` takes everything to the end of the string. */
  function KeyPointsCapture(s: string): Option<string> {
    match IndexOf(s, KeyPointsMarker, 0, true)
    case None => None
    case Some(i) =>
      var p := i + |KeyPointsMarker|;
      if p == |s| then None
      else
        var w := SkipWhitespace(s, p);
        Some(s[if w < |s| then w else |s| - 1..])
  }

  /** `response.split('\n\n')[0]`: the text before the first blank line, or
      all of it. */
  function FirstParagraph(s: string): string {
    match IndexOf(s, ParagraphBreak, 0, false)
    case None => s
    case Some(i) => s[..i]
  }

  /** The bullet replace of the route: when column 0 holds one of
      BulletChars, that character and the whitespace after it go. */
  function StripBullet(line: string): string {
    if |line| > 0 && line[0] in BulletChars then line[SkipWhitespace(line, 1)..] else line
  }

  function CleanPoint(line: string): string {
    Trim(StripBullet(line))
  }

  /** `lines.map(CleanPoint).filter(p => p.length > 0)`. */
  function CleanPoints(lines: seq<string>): (points: seq<string>)
    ensures |points| <= |lines|
  {
    if lines == [] then []
    else
      var p := CleanPoint(lines[0]);
      (if p == [] then [] else [p]) + CleanPoints(lines[1..])
  }

  /** `summaryMatch?.[1]?.trim() || response.split('\n\n')[0]?.trim() || ''`. */
  function Summary(response: string): string {
    var captured := match SummaryCapture(response)
                    case Some(c) => Trim(c)
                    case None => "";
    if captured != "" then captured else Trim(FirstParagraph(response))
  }

  /** Every cleaned point is non-empty and trimmed. */
  lemma {:induction false} CleanPointsAreClean(lines: seq<string>)
    ensures forall k :: 0 <= k < |CleanPoints(lines)| ==>
              CleanPoints(lines)[k] != [] && IsTrimmed(CleanPoints(lines)[k])
  {
    if lines != [] {
      CleanPointsAreClean(lines[1..]);
    }
  }

  /** The key points, at most five, from the text after the marker. */
  function KeyPoints(response: string): (r: seq<string>)
    ensures |r| <= MaxKeyPoints
    ensures forall k :: 0 <= k < |r| ==> r[k] != [] && IsTrimmed(r[k])
  {
    var text := match KeyPointsCapture(response)
                case Some(c) => c
                case None => "";
    var points := CleanPoints(SplitLines(text));
    CleanPointsAreClean(SplitLines(text));
    if |points| <= MaxKeyPoints then points else points[..MaxKeyPoints]
  }

  /** The route's parse of a non-empty completion. It never fails: missing
      markers fall back to the first paragraph and to no key points. */
  function ExtractSummary(response: string): (r: AISummary)
    ensures IsTrimmed(r.summary)
    ensures |r.keyPoints| <= MaxKeyPoints
    ensures forall k :: 0 <= k < |r.keyPoints| ==> r.keyPoints[k] != [] && IsTrimmed(r.keyPoints[k])
  {
    AISummary(Summary(response), KeyPoints(response))
  }

  // ---------------------------------------------------------------------
  // What the scans mean, stated without them.

  /** `e` is where the lazy summary capture that starts at `w` stops: the
      first later position where `\n\nKey Points:` follows, or the end. */
  predicate SummaryStopsAt(s: string, w: nat, e: nat) {
    w < e <= |s|
    && (e == |s| || MatchesAt(s, e, SummaryEnd, true))
    && forall k :: w < k < e ==> !MatchesAt(s, k, SummaryEnd, true)
  }

  /** `b` is where the first paragraph ends: the first blank line, or the end. */
  predicate ParagraphEndsAt(s: string, b: nat) {
    b <= |s|
    && (b == |s| || MatchesAt(s, b, ParagraphBreak, false))
    && forall k :: 0 <= k < b ==> !MatchesAt(s, k, ParagraphBreak, false)
  }

  lemma FirstParagraphEnd(s: string, b: nat)
    requires ParagraphEndsAt(s, b)
    ensures FirstParagraph(s) == s[..b]
  {
    assert !MatchesAt(s, |s|, ParagraphBreak, false);
  }

  /** With a first `Summary:` at `i` followed by some non-whitespace, the
      summary is the trimmed text from the first non-whitespace character `w`
      after the marker up to the first `\n\nKey Points:` after `w` (or the
      end). Inner line breaks stay. */
  lemma SummaryAfterMarker(s: string, i: nat, w: nat, e: nat)
    requires FirstOccurrence(s, SummaryMarker, i, true)
    requires i + |SummaryMarker| <= w < |s|
    requires WhitespaceBetween(s, i + |SummaryMarker|, w) && !IsWhitespace(s[w])
    requires SummaryStopsAt(s, w, e)
    ensures Summary(s) == Trim(s[w..e]) != []
  {
    assert IndexOf(s, SummaryMarker, 0, true) == Some(i);
    assert SkipWhitespace(s, i + |SummaryMarker|) == w;
    assert !MatchesAt(s, |s|, SummaryEnd, true);
    assert SummaryCapture(s) == Some(s[w..e]);
    assert s[w..e][0] == s[w];
    TrimNonEmpty(s[w..e], 0);
  }

  /** Without any `Summary:`, the summary is the trimmed first paragraph. */
  lemma SummaryWithoutMarker(s: string, b: nat)
    requires Absent(s, SummaryMarker, true)
    requires ParagraphEndsAt(s, b)
    ensures Summary(s) == Trim(s[..b])
  {
    FirstParagraphEnd(s, b);
  }

  /** When only whitespace follows the first `Summary:`, the capture trims to
      nothing and the summary is again the trimmed first paragraph. */
  lemma SummaryBlankAfterMarker(s: string, i: nat, b: nat)
    requires FirstOccurrence(s, SummaryMarker, i, true)
    requires WhitespaceBetween(s, i + |SummaryMarker|, |s|)
    requires ParagraphEndsAt(s, b)
    ensures Summary(s) == Trim(s[..b])
  {
    assert IndexOf(s, SummaryMarker, 0, true) == Some(i);
    var p := i + |SummaryMarker|;
    if p < |s| {
      assert SkipWhitespace(s, p) == |s|;
      assert !MatchesAt(s, |s|, SummaryEnd, true);
      assert IndexOf(s, SummaryEnd, |s|, true) == None;
      assert SummaryCapture(s) == Some(s[|s| - 1..|s|]);
      TrimAllWhitespace(s[|s| - 1..|s|]);
    }
    FirstParagraphEnd(s, b);
  }

  /** Without any `Key Points:`, there are no key points. */
  lemma KeyPointsWithoutMarker(s: string)
    requires Absent(s, KeyPointsMarker, true)
    ensures KeyPoints(s) == []
  {
    assert KeyPointsCapture(s) == None;
    assert SplitLines("") == [""];
    TrimAllWhitespace("");
  }

  /** When only whitespace follows the first `Key Points:`, there are no key
      points either. */
  lemma KeyPointsBlankAfterMarker(s: string, i: nat)
    requires FirstOccurrence(s, KeyPointsMarker, i, true)
    requires WhitespaceBetween(s, i + |KeyPointsMarker|, |s|)
    ensures KeyPoints(s) == []
  {
    assert IndexOf(s, KeyPointsMarker, 0, true) == Some(i);
    var p := i + |KeyPointsMarker|;
    if p == |s| {
      assert SplitLines("") == [""];
      TrimAllWhitespace("");
    } else {
      assert SkipWhitespace(s, p) == |s|;
      var c := s[|s| - 1..];
      assert KeyPointsCapture(s) == Some(c);
      BlankLineHasNoPoints(c);
    }
  }

  /** A line made only of whitespace yields no key point. */
  lemma BlankLineCleansAway(line: string)
    requires AllWhitespace(line)
    ensures CleanPoint(line) == []
  {
    if |line| > 0 {
      assert line[0] !in BulletChars;
    }
    assert StripBullet(line) == line;
    TrimAllWhitespace(line);
  }

  /** A single whitespace character yields no key point. */
  lemma BlankLineHasNoPoints(c: string)
    requires |c| == 1 && IsWhitespace(c[0])
    ensures CleanPoints(SplitLines(c)) == []
  {
    assert c[1..] == [];
    assert SplitLines(c[1..]) == [[]];
    BlankLineCleansAway([]);
    if c[0] == '\n' {
      assert SplitLines(c) == [[], []];
      assert CleanPoints([[]]) == [];
    } else {
      assert SplitLines(c) == [[c[0]] + []] + [[]][1..];
      assert [c[0]] + [] == c;
      BlankLineCleansAway(c);
      assert CleanPoints([c]) == [];
    }
  }

  /** With a first `Key Points:` at `i` followed by some non-whitespace, the
      key points are the first five (at most) of the cleaned lines of the text
      that starts at the first non-whitespace character `w` after it, in
      order. */
  lemma KeyPointsAfterMarker(s: string, i: nat, w: nat)
    requires FirstOccurrence(s, KeyPointsMarker, i, true)
    requires i + |KeyPointsMarker| <= w < |s|
    requires WhitespaceBetween(s, i + |KeyPointsMarker|, w) && !IsWhitespace(s[w])
    ensures var points := CleanPoints(SplitLines(s[w..]));
            var r := KeyPoints(s);
            r <= points && |r| == if |points| < MaxKeyPoints then |points| else MaxKeyPoints
  {
    assert IndexOf(s, KeyPointsMarker, 0, true) == Some(i);
    assert SkipWhitespace(s, i + |KeyPointsMarker|) == w;
    assert KeyPointsCapture(s) == Some(s[w..]);
  }

  /** The whitespace the bullet replace removes after the bullet would go
      to the trim anyway: a line is cleaned by dropping one column-0 bullet
      character and trimming. Any other list marker stays. */
  lemma CleanPointCases(line: string)
    ensures CleanPoint(line) == if |line| > 0 && line[0] in BulletChars then Trim(line[1..]) else Trim(line)
  {
    if |line| > 0 && line[0] in BulletChars {
      var w := SkipWhitespace(line, 1);
      var tail := line[1..];
      assert WhitespaceBetween(tail, 0, w - 1) by {
        forall k | 0 <= k < w - 1 ensures IsWhitespace(tail[k]) { assert tail[k] == line[k + 1]; }
      }
      assert tail[w - 1..] == line[w..];
      TrimSkipsLeadingWhitespace(tail, w - 1);
    }
  }

  /** Regrouping a concatenation, stated apart so that the proof below
      meets it as one small fact. */
  lemma AppendAssociative(x: seq<string>, y: seq<string>, z: seq<string>)
    ensures x + (y + z) == (x + y) + z
  {
  }

  /** Cleaning works line by line: it distributes over concatenation. */
  lemma {:induction false} CleanPointsAppend(a: seq<string>, b: seq<string>)
    ensures CleanPoints(a + b) == CleanPoints(a) + CleanPoints(b)
  {
    if a == [] {
      assert a + b == b;
    } else {
      var p := CleanPoint(a[0]);
      var head: seq<string> := if p == [] then [] else [p];
      assert (a + b)[0] == a[0] && (a + b)[1..] == a[1..] + b;
      assert CleanPoints(a + b) == head + CleanPoints(a[1..] + b);
      CleanPointsAppend(a[1..], b);
      assert CleanPoints(a) == head + CleanPoints(a[1..]);
      AppendAssociative(head, CleanPoints(a[1..]), CleanPoints(b));
    }
  }

  /** A cleaned point is exactly the non-empty cleaning of some line. */
  lemma {:induction false} CleanPointsMembers(lines: seq<string>, p: string)
    ensures p in CleanPoints(lines) <==> p != [] && exists l :: l in lines && CleanPoint(l) == p
  {
    if lines != [] {
      CleanPointsMembers(lines[1..], p);
      assert forall l :: l in lines <==> l == lines[0] || l in lines[1..];
    }
  }

  /** A hyphen-bulleted line cleans to its text. */
  lemma HyphenPoint(text: string)
    requires text != [] && IsTrimmed(text)
    ensures CleanPoint("- " + text) == text
  {
    var line := "- " + text;
    var tail := " " + text;
    assert line[1..] == tail by { assert line == "-" + tail; }
    assert tail[1..] == text;
    assert CleanPoint(line) == Trim(tail) by { CleanPointCases(line); }
    assert Trim(tail) == Trim(text) by { TrimSkipsLeadingWhitespace(tail, 1); }
    TrimmedIsFixed(text);
  }

  /** Each point as a hyphen-bulleted line. */
  function Bulleted(points: seq<string>): (lines: seq<string>)
    ensures |lines| == |points|
    ensures forall k :: 0 <= k < |points| ==> lines[k] == "- " + points[k]
  {
    if points == [] then [] else ["- " + points[0]] + Bulleted(points[1..])
  }

  /** Cleaning hyphen-bulleted points gives the points back. */
  lemma {:induction false} CleanBulleted(points: seq<string>)
    requires forall k :: 0 <= k < |points| ==> points[k] != [] && IsTrimmed(points[k])
    ensures CleanPoints(Bulleted(points)) == points
  {
    if points != [] {
      var lines := Bulleted(points);
      assert lines[0] == "- " + points[0];
      assert lines[1..] == Bulleted(points[1..]);
      HyphenPoint(points[0]);
      CleanBulleted(points[1..]);
      assert points == [points[0]] + points[1..];
    }
  }

  /** The reply format the prompt asks the provider for. */
  function FormatReply(summary: string, points: seq<string>): string
    requires |points| >= 1
  {
    SummaryMarker + " " + summary + SummaryEnd + "\n" + JoinLines(Bulleted(points))
  }

  /** A match of `pat` inside a slice of `s` is a match inside the slice. */
  lemma MatchInSlice(s: string, a: nat, b: nat, k: nat, pat: string, ignoreCase: bool)
    requires a <= k && k + |pat| <= b <= |s|
    requires MatchesAt(s, k, pat, ignoreCase)
    ensures MatchesAt(s[a..b], k - a, pat, ignoreCase)
  {
    forall j | 0 <= j < |pat| ensures SameChar(s[a..b][k - a + j], pat[j], ignoreCase) {
      assert s[a..b][k - a + j] == s[k + j];
    }
  }

  /** No match of `pat` covers a position whose character matches no
      character of `pat`. */
  lemma NoMatchAcross(s: string, m: nat, pat: string, ignoreCase: bool)
    requires m < |s|
    requires forall j :: 0 <= j < |pat| ==> !SameChar(s[m], pat[j], ignoreCase)
    ensures forall k: nat :: k <= m < k + |pat| ==> !MatchesAt(s, k, pat, ignoreCase)
  {
    forall k: nat | k <= m < k + |pat| ensures !MatchesAt(s, k, pat, ignoreCase) {
      assert !SameChar(s[k + (m - k)], pat[m - k], ignoreCase);
    }
  }

  /** A line feed matches no character of `Key Points:`. */
  lemma LineFeedNotInMarker()
    ensures forall j :: 0 <= j < |KeyPointsMarker| ==> !SameChar('\n', KeyPointsMarker[j], true)
  {
  }

  lemma ReplySummary(s: string, summary: string, rest: string)
    requires s == SummaryMarker + " " + summary + SummaryEnd + rest
    requires summary != [] && IsTrimmed(summary) && '\n' !in summary
    ensures Summary(s) == summary
  {
    var n := |summary|;
    assert s[0..8] == SummaryMarker;
    MatchesItself(s, 0, SummaryMarker, true);
    assert s[9 + n..22 + n] == SummaryEnd;
    MatchesItself(s, 9 + n, SummaryEnd, true);
    assert s[9..9 + n] == summary;
    forall k | 10 <= k < 9 + n ensures !SameChar(s[k], SummaryEnd[0], true) {
      assert s[k] == summary[k - 9];
    }
    NoMatchWithoutFirstChar(s, SummaryEnd, 10, 9 + n, true);
    assert s[8] == ' ' && s[9] == summary[0];
    SummaryAfterMarker(s, 0, 9, 9 + n);
    TrimmedIsFixed(summary);
    assert Trim(s[9..9 + n]) == summary;
  }

  /** In a formatted reply the first `Key Points:` is the one after the summary. */
  lemma ReplyKeyPointsMarker(s: string, summary: string, rest: string)
    requires s == SummaryMarker + " " + summary + SummaryEnd + rest
    requires '\n' !in summary && Absent(summary, KeyPointsMarker, true)
    ensures FirstOccurrence(s, KeyPointsMarker, 11 + |summary|, true)
  {
    var n := |summary|;
    var i := 11 + n;
    assert s[i..i + 11] == KeyPointsMarker;
    MatchesItself(s, i, KeyPointsMarker, true);
    forall k | 0 <= k < 9 ensures !SameChar(s[k], KeyPointsMarker[0], true) {
      assert s[k] == "Summary: "[k];
    }
    NoMatchWithoutFirstChar(s, KeyPointsMarker, 0, 9, true);
    assert s[9 + n] == '\n' && s[10 + n] == '\n';
    LineFeedNotInMarker();
    NoMatchAcross(s, 9 + n, KeyPointsMarker, true);
    NoMatchAcross(s, 10 + n, KeyPointsMarker, true);
    assert s[9..9 + n] == summary;
    forall k | 9 <= k < i ensures !MatchesAt(s, k, KeyPointsMarker, true) {
      if k + 11 <= 9 + n && MatchesAt(s, k, KeyPointsMarker, true) {
        MatchInSlice(s, 9, 9 + n, k, KeyPointsMarker, true);
        assert false;
      }
    }
  }

  lemma ReplyKeyPoints(s: string, summary: string, points: seq<string>)
    requires |points| >= 1 && s == FormatReply(summary, points)
    requires '\n' !in summary && Absent(summary, KeyPointsMarker, true)
    requires forall k :: 0 <= k < |points| ==> points[k] != [] && IsTrimmed(points[k]) && '\n' !in points[k]
    ensures KeyPoints(s) == if |points| <= MaxKeyPoints then points else points[..MaxKeyPoints]
  {
    var n := |summary|;
    var lines := Bulleted(points);
    var list := JoinLines(lines);
    ReplyKeyPointsMarker(s, summary, "\n" + list);
    assert s[22 + n] == '\n' && s[23 + n..] == list;
    assert lines[0] == "- " + points[0];
    assert list[0] == '-' by {
      if |lines| > 1 { assert list == lines[0] + "\n" + JoinLines(lines[1..]); }
    }
    KeyPointsAfterMarker(s, 11 + n, 23 + n);
    SplitJoinLines(lines);
    CleanBulleted(points);
  }

  /** A reply in the requested format parses back to its summary and its
      first five points. */
  lemma FormatReplyRoundTrip(summary: string, points: seq<string>)
    requires summary != [] && IsTrimmed(summary) && '\n' !in summary
    requires Absent(summary, KeyPointsMarker, true)
    requires |points| >= 1
    requires forall k :: 0 <= k < |points| ==> points[k] != [] && IsTrimmed(points[k]) && '\n' !in points[k]
    ensures ExtractSummary(FormatReply(summary, points))
            == AISummary(summary, if |points| <= MaxKeyPoints then points else points[..MaxKeyPoints])
  {
    var s := FormatReply(summary, points);
    var rest := "\n" + JoinLines(Bulleted(points));
    assert s == SummaryMarker + " " + summary + SummaryEnd + rest;
    ReplySummary(s, summary, rest);
    ReplyKeyPoints(s, summary, points);
  }

  lemma ExampleSummaryFits(summary: string)
    requires summary == "Bees build hives."
    ensures summary != [] && IsTrimmed(summary) && '\n' !in summary
    ensures Absent(summary, KeyPointsMarker, true)
  {
    assert |summary| == 17;
    assert summary[0] == 'B' && summary[16] == '.';
    assert forall k :: 0 <= k < 17 ==> summary[k] != '\n' && summary[k] != 'k' && summary[k] != 'K';
    forall k | 0 <= k < |summary| ensures !SameChar(summary[k], KeyPointsMarker[0], true) {}
    NoMatchWithoutFirstChar(summary, KeyPointsMarker, 0, |summary|, true);
  }

  lemma ExamplePointsFit(points: seq<string>, firstFive: seq<string>)
    requires points == ["They fly", "They sting", "They make honey", "extra", "extra2", "extra3"]
    requires firstFive == ["They fly", "They sting", "They make honey", "extra", "extra2"]
    ensures |points| == 6 && points[..MaxKeyPoints] == firstFive
    ensures forall k :: 0 <= k < |points| ==> points[k] != [] && IsTrimmed(points[k]) && '\n' !in points[k]
  {
  }

  /** The reply "Summary: Bees build hives.\n\nKey Points:\n- They fly\n- They sting\n
      - They make honey\n- extra\n- extra2\n- extra3" (one string, written as FormatReply
      builds it) parses to its summary and its first five points. */
  lemma SixPointReply(summary: string, points: seq<string>, firstFive: seq<string>)
    requires summary == "Bees build hives."
    requires points == ["They fly", "They sting", "They make honey", "extra", "extra2", "extra3"]
    requires firstFive == ["They fly", "They sting", "They make honey", "extra", "extra2"]
    ensures ExtractSummary(FormatReply(summary, points)) == AISummary(summary, firstFive)
  {
    ExampleSummaryFits(summary);
    ExamplePointsFit(points, firstFive);
    FormatReplyRoundTrip(summary, points);
  }
}
