/**
 * The Python string methods the metafile loader relies on: `str.split(sep)`,
 * `sep.join(parts)`, `str.replace(old, new)` and `str.strip()`.
 */
module Text {

  /** `s.split(sep)` for a non-empty separator: cut at each leftmost, non-overlapping occurrence. */
  function SplitOn(s: string, sep: string): (parts: seq<string>)
    requires |sep| > 0
    ensures |parts| >= 1
    decreases |s|
  {
    if |s| < |sep| then [s]
    else if s[..|sep|] == sep then [""] + SplitOn(s[|sep|..], sep)
    else
      var rest := SplitOn(s[1..], sep);
      [[s[0]] + rest[0]] + rest[1..]
  }

  /** `sep.join(parts)` for a non-empty list of parts. */
  function Join(parts: seq<string>, sep: string): string
    requires |parts| >= 1
  {
    if |parts| == 1 then parts[0] else parts[0] + sep + Join(parts[1..], sep)
  }


  lemma JoinGlueHead(x: string, parts: seq<string>, sep: string)
    requires |parts| >= 1
    ensures Join([x + parts[0]] + parts[1..], sep) == x + Join(parts, sep)
  {
    var glued := [x + parts[0]] + parts[1..];
    if |parts| > 1 {
      assert glued[1..] == parts[1..];
    }
  }

  /** Splitting and joining back with the same separator gives the original string. */
  lemma {:induction false} JoinAfterSplit(s: string, sep: string)
    requires |sep| > 0
    ensures Join(SplitOn(s, sep), sep) == s
    decreases |s|
  {
    if |s| < |sep| {
    } else if s[..|sep|] == sep {
      var rest := SplitOn(s[|sep|..], sep);
      JoinAfterSplit(s[|sep|..], sep);
      assert ([""] + rest)[1..] == rest;
      assert s == sep + s[|sep|..];
    } else {
      var rest := SplitOn(s[1..], sep);
      JoinAfterSplit(s[1..], sep);
      JoinGlueHead([s[0]], rest, sep);
      assert s == [s[0]] + s[1..];
    }
  }

  /**
   * `s.replace(pat, rep)`: every leftmost, non-overlapping occurrence of `pat`,
   * scanning left to right. The result obeys Python's identity
   * `s.replace(pat, rep) == rep.join(s.split(pat))`.
   */
  function ReplaceAll(s: string, pat: string, rep: string): (r: string)
    requires |pat| > 0
    ensures r == Join(SplitOn(s, pat), rep)
    decreases |s|
  {
    if |s| < |pat| then s
    else if s[..|pat|] == pat then
      var rest := SplitOn(s[|pat|..], pat);
      assert ([""] + rest)[1..] == rest;
      rep + ReplaceAll(s[|pat|..], pat, rep)
    else
      JoinGlueHead([s[0]], SplitOn(s[1..], pat), rep);
      [s[0]] + ReplaceAll(s[1..], pat, rep)
  }

  /** `pat` appears in `s` starting at index `i`. */
  predicate OccursAt(s: string, pat: string, i: int) {
    0 <= i && i + |pat| <= |s| && s[i..i + |pat|] == pat
  }

  /** `pat in s`. */
  predicate Occurs(s: string, pat: string) {
    exists i :: 0 <= i <= |s| && OccursAt(s, pat, i)
  }

  /** No piece of `s.split(sep)` contains `sep`, and the first piece is a prefix of `s`. */
  lemma {:induction false} SplitPiecesAvoidSeparator(s: string, sep: string)
    requires |sep| > 0
    ensures SplitOn(s, sep)[0] <= s
    ensures forall k :: 0 <= k < |SplitOn(s, sep)| ==> !Occurs(SplitOn(s, sep)[k], sep)
    decreases |s|
  {
    var parts := SplitOn(s, sep);
    if |s| < |sep| {
    } else if s[..|sep|] == sep {
      SplitPiecesAvoidSeparator(s[|sep|..], sep);
      var rest := SplitOn(s[|sep|..], sep);
      assert parts == [""] + rest;
      forall k | 1 <= k < |parts|
        ensures !Occurs(parts[k], sep)
      {
        assert parts[k] == rest[k - 1];
      }
    } else {
      SplitPiecesAvoidSeparator(s[1..], sep);
      var rest := SplitOn(s[1..], sep);
      var head := [s[0]] + rest[0];
      assert parts == [head] + rest[1..];
      if Occurs(head, sep) {
        var i :| 0 <= i <= |head| && OccursAt(head, sep, i);
        assert i + |sep| <= |head| && head[i..i + |sep|] == sep;
        if i == 0 {
          assert false;
        } else {
          assert rest[0][i - 1..i - 1 + |sep|] == head[i..i + |sep|];
          assert OccursAt(rest[0], sep, i - 1);
          assert false;
        }
      }
      forall k | 1 <= k < |parts|
        ensures !Occurs(parts[k], sep)
      {
        assert parts[k] == rest[k];
      }
    }
  }

  /** Replacing a pattern by itself changes nothing. */
  lemma ReplaceAllBySelf(s: string, pat: string)
    requires |pat| > 0
    ensures ReplaceAll(s, pat, pat) == s
  {
    JoinAfterSplit(s, pat);
  }

  /** A string without the pattern's first character contains no occurrence, so it is returned unchanged. */
  lemma {:induction false} ReplaceAllUntouched(s: string, pat: string, rep: string)
    requires |pat| > 0
    requires pat[0] !in s
    ensures ReplaceAll(s, pat, rep) == s
    decreases |s|
  {
    if |s| >= |pat| {
      assert s[0] != pat[0];
      assert s[..|pat|] != pat;
      ReplaceAllUntouched(s[1..], pat, rep);
      assert s == [s[0]] + s[1..];
    }
  }

  /** Text before the first possible occurrence is copied through unchanged. */
  lemma {:induction false} ReplaceAllSkip(a: string, b: string, pat: string, rep: string)
    requires |pat| > 0
    requires pat[0] !in a
    ensures ReplaceAll(a + b, pat, rep) == a + ReplaceAll(b, pat, rep)
    decreases |a|
  {
    if a == [] {
      assert a + b == b;
    } else if |a + b| < |pat| {
      ReplaceAllUntouched(a, pat, rep);
    } else {
      assert (a + b)[0] == a[0] != pat[0];
      assert (a + b)[..|pat|] != pat;
      assert (a + b)[1..] == a[1..] + b;
      ReplaceAllSkip(a[1..], b, pat, rep);
      assert a == [a[0]] + a[1..];
    }
  }

  /** An occurrence at the front is replaced and scanning resumes after it. */
  lemma ReplaceAllAtFront(b: string, pat: string, rep: string)
    requires |pat| > 0
    ensures ReplaceAll(pat + b, pat, rep) == rep + ReplaceAll(b, pat, rep)
  {
    assert (pat + b)[..|pat|] == pat;
    assert (pat + b)[|pat|..] == b;
  }

  /** A pattern longer than the text it is looked for in leaves the text unchanged. */
  lemma ReplaceAllTooShort(s: string, pat: string, rep: string)
    requires 0 < |s| < |pat|
    ensures ReplaceAll(s, pat, rep) == s
  {
  }

  /** A placeholder is left alone by the replacement of a different placeholder of the same length. */
  lemma ReplaceOtherTag(tag: string, pat: string, rep: string)
    requires |tag| == |pat| > 0 && tag != pat
    ensures ReplaceAll(tag, pat, rep) == tag
  {
    assert tag[..|pat|] == tag;
    assert tag == [tag[0]] + tag[1..];
  }

  /** The first piece of `s.split(c)` is the longest prefix of `s` without `c`; the other pieces split the rest. */
  lemma {:induction false} SplitOnCharHead(s: string, c: char)
    ensures var parts := SplitOn(s, [c]);
      && c !in parts[0]
      && parts[0] <= s
      && (|parts| == 1 <==> |parts[0]| == |s|)
      && (|parts| > 1 ==> s[|parts[0]|] == c && parts[1..] == SplitOn(s[|parts[0]| + 1..], [c]))
    decreases |s|
  {
    if |s| >= 1 && s[..1] != [c] {
      assert s[0] != c;
      SplitOnCharHead(s[1..], c);
      var rest := SplitOn(s[1..], [c]);
      var parts := SplitOn(s, [c]);
      assert parts == [[s[0]] + rest[0]] + rest[1..];
      assert s == [s[0]] + s[1..];
      if |parts| > 1 {
        assert s[|parts[0]| + 1..] == s[1..][|rest[0]| + 1..];
      }
    } else if |s| >= 1 {
      assert s[0] == c;
      var parts := SplitOn(s, [c]);
      assert parts[1..] == SplitOn(s[1..], [c]);
    }
  }

  /** The characters Python 2's `str.strip()` removes: space, \t, \n, \v, \f, \r. */
  predicate IsSpace(c: char) {
    c == ' ' || c == '\t' || c == '\n' || c == '\r' || c as int == 11 || c as int == 12
  }

  /** `s.lstrip()`: drops leading whitespace only. */
  function StripLeading(s: string): (r: string)
    ensures |r| <= |s| && r == s[|s| - |r|..]
    ensures forall i :: 0 <= i < |s| - |r| ==> IsSpace(s[i])
    ensures r == [] || !IsSpace(r[0])
    decreases |s|
  {
    if |s| > 0 && IsSpace(s[0]) then StripLeading(s[1..]) else s
  }

  /** `s.rstrip()`: drops trailing whitespace only. */
  function StripTrailing(s: string): (r: string)
    ensures |r| <= |s| && r == s[..|r|]
    ensures forall i :: |r| <= i < |s| ==> IsSpace(s[i])
    ensures r == [] || !IsSpace(r[|r| - 1])
    decreases |s|
  {
    if |s| > 0 && IsSpace(s[|s| - 1]) then StripTrailing(s[..|s| - 1]) else s
  }

  /** `s.strip()`: neither end of the result is whitespace, and a string already in that form is kept. */
  function Strip(s: string): (r: string)
    ensures |r| <= |s|
    ensures r == [] || (!IsSpace(r[0]) && !IsSpace(r[|r| - 1]))
    ensures (s == [] || (!IsSpace(s[0]) && !IsSpace(s[|s| - 1]))) ==> r == s
    ensures r == [] <==> forall i :: 0 <= i < |s| ==> IsSpace(s[i])
  {
    var left := StripLeading(s);
    var r := StripTrailing(left);
    assert r != [] ==> r[0] == left[0];
    r
  }

  /** Stripping twice is stripping once. */
  lemma StripIdempotent(s: string)
    ensures Strip(Strip(s)) == Strip(s)
  {
  }
}
