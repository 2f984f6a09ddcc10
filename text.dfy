/** String primitives with the semantics JavaScript gives them, as the route
    handlers and the page use them: the whitespace set shared by `\s` and
    `String.prototype.trim`, trimming, the ASCII case fold of a regex with the
    `i` flag, first-occurrence search and `split("\n")`. */
module JsText {
  import opened Options

  /** JavaScript's WhiteSpace and LineTerminator characters: exactly the
      characters `\s` matches and `trim` removes (tab, line feed, vertical
      tab, form feed, carriage return, space, no-break space, the Ogham space
      mark, the eleven spaces U+2000 to U+200A, the line and paragraph
      separators, the narrow no-break space, the medium mathematical space,
      the ideographic space and the byte order mark). */
  predicate IsWhitespace(c: char) {
    ('\t' <= c <= '\r') || c == ' ' || c == '\U{00A0}' || c == '\U{1680}'
    || ('\U{2000}' <= c <= '\U{200A}') || c == '\U{2028}' || c == '\U{2029}'
    || c == '\U{202F}' || c == '\U{205F}' || c == '\U{3000}' || c == '\U{FEFF}'
  }

  predicate AllWhitespace(s: string) {
    forall k :: 0 <= k < |s| ==> IsWhitespace(s[k])
  }

  /** No whitespace at either end. */
  predicate IsTrimmed(s: string) {
    s == [] || (!IsWhitespace(s[0]) && !IsWhitespace(s[|s| - 1]))
  }

  /** A greedy `\s*` started at position `i`: the first position at or after
      `i` that does not hold whitespace. */
  function SkipWhitespace(s: string, i: nat): (j: nat)
    requires i <= |s|
    ensures i <= j <= |s|
    ensures forall k :: i <= k < j ==> IsWhitespace(s[k])
    ensures j < |s| ==> !IsWhitespace(s[j])
    decreases |s| - i
  {
    if i < |s| && IsWhitespace(s[i]) then SkipWhitespace(s, i + 1) else i
  }

  /** Scanning backwards from `j`: the least position `k` with `s[k..j]`
      all whitespace. */
  function SkipWhitespaceBack(s: string, j: nat): (k: nat)
    requires j <= |s|
    ensures k <= j
    ensures forall m :: k <= m < j ==> IsWhitespace(s[m])
    ensures k > 0 ==> !IsWhitespace(s[k - 1])
  {
    if j > 0 && IsWhitespace(s[j - 1]) then SkipWhitespaceBack(s, j - 1) else j
  }

  /** Every character of `s` from position `lo` up to `hi` is whitespace. */
  predicate WhitespaceBetween(s: string, lo: nat, hi: nat)
    requires lo <= hi <= |s|
  {
    forall k :: lo <= k < hi ==> IsWhitespace(s[k])
  }

  /** `String.prototype.trim`: what is left of `s` once the whitespace at
      both ends is removed. It starts where a leading `\s*` stops. */
  function Trim(s: string): (r: string)
    ensures IsTrimmed(r)
    ensures var a := SkipWhitespace(s, 0);
            a + |r| <= |s| && r == s[a..a + |r|] && WhitespaceBetween(s, a + |r|, |s|)
  {
    var a := SkipWhitespace(s, 0);
    var b := SkipWhitespaceBack(s, |s|);
    if a < b then s[a..b] else []
  }

  /** A trimmed string is determined by the string it was cut from. */
  lemma TrimUnique(s: string, a: nat, b: nat)
    requires a <= b <= |s|
    requires WhitespaceBetween(s, 0, a) && WhitespaceBetween(s, b, |s|)
    requires IsTrimmed(s[a..b])
    ensures Trim(s) == s[a..b]
  {
    var r := Trim(s);
    var o := SkipWhitespace(s, 0);
    if a < b {
      assert s[a..b][0] == s[a] && s[a..b][b - a - 1] == s[b - 1];
      assert o == a;
      if |r| > 0 {
        assert r[|r| - 1] == s[o + |r| - 1];
      }
      assert o + |r| == b;
    } else {
      assert o == |s|;
    }
  }

  /** Trimming a trimmed string changes nothing; so Trim is idempotent. */
  lemma TrimmedIsFixed(s: string)
    requires IsTrimmed(s)
    ensures Trim(s) == s
  {
    assert s[0..|s|] == s;
    TrimUnique(s, 0, |s|);
  }

  /** A string with a character outside the whitespace set does not trim to
      the empty string. */
  lemma TrimNonEmpty(s: string, k: nat)
    requires k < |s| && !IsWhitespace(s[k])
    ensures Trim(s) != []
  {
  }

  /** A string made only of whitespace trims to the empty string. */
  lemma TrimAllWhitespace(s: string)
    requires AllWhitespace(s)
    ensures Trim(s) == []
  {
  }

  /** Whitespace in a suffix is whitespace in the whole string. */
  lemma WhitespaceInSuffix(s: string, w: nat, lo: nat, hi: nat)
    requires w <= |s| && lo <= hi <= |s| - w
    requires WhitespaceBetween(s[w..], lo, hi)
    ensures WhitespaceBetween(s, w + lo, w + hi)
  {
    forall k | w + lo <= k < w + hi ensures IsWhitespace(s[k]) {
      assert s[k] == s[w..][k - w];
    }
  }

  /** Whitespace in a prefix is whitespace in the whole string. */
  lemma WhitespaceInPrefix(s: string, w: nat, lo: nat, hi: nat)
    requires lo <= hi <= w <= |s|
    requires WhitespaceBetween(s[..w], lo, hi)
    ensures WhitespaceBetween(s, lo, hi)
  {
    forall k | lo <= k < hi ensures IsWhitespace(s[k]) {
      assert s[k] == s[..w][k];
    }
  }

  /** Two adjacent whitespace runs form one. */
  lemma WhitespaceJoin(s: string, a: nat, b: nat, c: nat)
    requires a <= b <= c <= |s|
    requires WhitespaceBetween(s, a, b) && WhitespaceBetween(s, b, c)
    ensures WhitespaceBetween(s, a, c)
  {
  }

  /** Whitespace in front of a string does not change what it trims to. */
  lemma TrimSkipsLeadingWhitespace(s: string, w: nat)
    requires w <= |s| && WhitespaceBetween(s, 0, w)
    ensures Trim(s[w..]) == Trim(s)
  {
    var t := s[w..];
    var r := Trim(t);
    var a := SkipWhitespace(t, 0);
    assert r == s[w + a..w + a + |r|];
    WhitespaceInSuffix(s, w, 0, a);
    WhitespaceJoin(s, 0, w, w + a);
    WhitespaceInSuffix(s, w, a + |r|, |t|);
    assert IsTrimmed(r);
    TrimUnique(s, w + a, w + a + |r|);
  }

  /** Whitespace behind a string does not change what it trims to. */
  lemma TrimSkipsTrailingWhitespace(s: string, w: nat)
    requires w <= |s| && WhitespaceBetween(s, w, |s|)
    ensures Trim(s[..w]) == Trim(s)
  {
    var t := s[..w];
    var r := Trim(t);
    var a := SkipWhitespace(t, 0);
    assert r == s[a..a + |r|];
    WhitespaceInPrefix(s, w, 0, a);
    WhitespaceInPrefix(s, w, a + |r|, w);
    WhitespaceJoin(s, a + |r|, w, |s|);
    TrimUnique(s, a, a + |r|);
  }

  /** Padding a string with whitespace on either side does not change what
      it trims to. */
  lemma TrimIgnoresPadding(before: string, s: string, after: string)
    requires AllWhitespace(before) && AllWhitespace(after)
    ensures Trim(before + s + after) == Trim(s)
  {
    var padded := before + s + after;
    var front := before + s;
    assert padded[..|front|] == front;
    assert WhitespaceBetween(padded, |front|, |padded|) by {
      forall k | |front| <= k < |padded| ensures IsWhitespace(padded[k]) {
        assert padded[k] == after[k - |front|];
      }
    }
    TrimSkipsTrailingWhitespace(padded, |front|);
    assert front[|before|..] == s;
    assert WhitespaceBetween(front, 0, |before|) by {
      forall k | 0 <= k < |before| ensures IsWhitespace(front[k]) {
        assert front[k] == before[k];
      }
    }
    TrimSkipsLeadingWhitespace(front, |before|);
  }

  /** ASCII upper-casing. Outside unicode mode a case-insensitive JavaScript
      regex never maps a non-ASCII character onto an ASCII one, so against a
      pattern written in ASCII this fold decides a match exactly. */
  function AsciiUpper(c: char): (u: char)
    ensures 'A' <= u <= 'Z' ==> c == u || c == (u as int + 32) as char
    ensures !('A' <= u <= 'Z') ==> c == u
    ensures 'a' <= c <= 'z' ==> u == (c as int - 32) as char
  {
    if 'a' <= c <= 'z' then (c as int - 32) as char else c
  }

  predicate SameChar(x: char, y: char, ignoreCase: bool) {
    if ignoreCase then AsciiUpper(x) == AsciiUpper(y) else x == y
  }

  /** `pat` occurs in `s` at position `i`. */
  predicate MatchesAt(s: string, i: nat, pat: string, ignoreCase: bool) {
    i + |pat| <= |s| && forall k :: 0 <= k < |pat| ==> SameChar(s[i + k], pat[k], ignoreCase)
  }

  /** `pat` occurs first at position `i`. */
  predicate FirstOccurrence(s: string, pat: string, i: nat, ignoreCase: bool) {
    MatchesAt(s, i, pat, ignoreCase) && forall k :: 0 <= k < i ==> !MatchesAt(s, k, pat, ignoreCase)
  }

  /** `pat` does not occur in `s` at all. */
  predicate Absent(s: string, pat: string, ignoreCase: bool) {
    forall k :: 0 <= k <= |s| ==> !MatchesAt(s, k, pat, ignoreCase)
  }

  /** A pattern cannot occur where its first character does not. */
  lemma NoMatchWithoutFirstChar(s: string, pat: string, lo: nat, hi: nat, ignoreCase: bool)
    requires |pat| > 0 && lo <= hi <= |s|
    requires forall k :: lo <= k < hi ==> !SameChar(s[k], pat[0], ignoreCase)
    ensures forall k :: lo <= k < hi ==> !MatchesAt(s, k, pat, ignoreCase)
  {
    forall k | lo <= k < hi ensures !MatchesAt(s, k, pat, ignoreCase) {
      assert !SameChar(s[k + 0], pat[0], ignoreCase);
    }
  }

  /** `pat` occurs at `i` when the text there is `pat` itself. */
  lemma MatchesItself(s: string, i: nat, pat: string, ignoreCase: bool)
    requires i + |pat| <= |s| && s[i..i + |pat|] == pat
    ensures MatchesAt(s, i, pat, ignoreCase)
  {
    forall k | 0 <= k < |pat| ensures SameChar(s[i + k], pat[k], ignoreCase) {
      assert s[i + k] == s[i..i + |pat|][k];
    }
  }

  /** The first position at or after `from` where `pat` occurs. */
  function IndexOf(s: string, pat: string, from: nat, ignoreCase: bool): (r: Option<nat>)
    requires from <= |s|
    ensures r.Some? ==> from <= r.value <= |s| && MatchesAt(s, r.value, pat, ignoreCase)
    ensures r.Some? ==> forall k :: from <= k < r.value ==> !MatchesAt(s, k, pat, ignoreCase)
    ensures r.None? ==> forall k: nat :: from <= k ==> !MatchesAt(s, k, pat, ignoreCase)
    decreases |s| - from
  {
    if MatchesAt(s, from, pat, ignoreCase) then Some(from)
    else if from == |s| then None
    else IndexOf(s, pat, from + 1, ignoreCase)
  }

  /** `s.split("\n")`: the pieces between line feeds, in order. */
  function SplitLines(s: string): (lines: seq<string>)
    ensures |lines| >= 1
    ensures forall k :: 0 <= k < |lines| ==> '\n' !in lines[k]
  {
    if s == [] then [[]]
    else
      var rest := SplitLines(s[1..]);
      if s[0] == '\n' then [[]] + rest
      else [[s[0]] + rest[0]] + rest[1..]
  }

  /** `lines.join("\n")`, the inverse of SplitLines. */
  function JoinLines(lines: seq<string>): (s: string)
    requires |lines| >= 1
    ensures |s| >= |lines| - 1
  {
    if |lines| == 1 then lines[0] else lines[0] + "\n" + JoinLines(lines[1..])
  }

  lemma {:induction false} JoinSplitLines(s: string)
    ensures JoinLines(SplitLines(s)) == s
  {
    if s != [] {
      var rest := SplitLines(s[1..]);
      JoinSplitLines(s[1..]);
      if s[0] != '\n' {
        var lines := [[s[0]] + rest[0]] + rest[1..];
        if |rest| > 1 {
          assert lines[1..] == rest[1..];
          assert JoinLines(rest) == rest[0] + "\n" + JoinLines(rest[1..]);
        }
        assert s == [s[0]] + s[1..];
      } else {
        assert ([[]] + rest)[1..] == rest;
        assert s == "\n" + s[1..];
      }
    }
  }

  /** A line without a line feed, followed by one, splits off as the first
      piece. */
  lemma {:induction false} SplitLinesCons(a: string, b: string)
    requires '\n' !in a
    ensures SplitLines(a + "\n" + b) == [a] + SplitLines(b)
    ensures SplitLines(a) == [a]
    decreases |a|
  {
    if a == [] {
      assert [] + "\n" + b == "\n" + b;
      assert ("\n" + b)[1..] == b;
    } else {
      assert (a + "\n" + b)[1..] == a[1..] + "\n" + b;
      assert '\n' !in a[1..] by { assert forall k :: 0 <= k < |a[1..]| ==> a[1..][k] == a[k + 1]; }
      SplitLinesCons(a[1..], b);
      assert [a[0]] + a[1..] == a;
    }
  }

  lemma {:induction false} SplitJoinLines(lines: seq<string>)
    requires |lines| >= 1
    requires forall k :: 0 <= k < |lines| ==> '\n' !in lines[k]
    ensures SplitLines(JoinLines(lines)) == lines
  {
    if |lines| == 1 {
      SplitLinesCons(lines[0], "");
    } else {
      SplitJoinLines(lines[1..]);
      SplitLinesCons(lines[0], JoinLines(lines[1..]));
    }
  }
}
