/** The JavaScript string operations the components use: `trim`, `toLowerCase`,
    `startsWith`, `split` on a one-character separator and `join`. */
module Text {

  /** ECMAScript WhiteSpace and LineTerminator code points: what `\s` matches and `trim` strips. */
  predicate IsWhitespace(c: char)
  {
    || c == '\t' || c == '\n' || c == '\U{000B}' || c == '\U{000C}' || c == '\r' || c == ' '
    || c == '\U{00A0}' || c == '\U{1680}' || ('\U{2000}' <= c <= '\U{200A}')
    || c == '\U{2028}' || c == '\U{2029}' || c == '\U{202F}' || c == '\U{205F}'
    || c == '\U{3000}' || c == '\U{FEFF}'
  }

  /** Neither end of `s` is whitespace: `s` is what `trim` can return. */
  predicate IsTrimmed(s: string)
  {
    s == [] || (!IsWhitespace(s[0]) && !IsWhitespace(s[|s| - 1]))
  }

  /** The number of whitespace characters `s` starts with. */
  function LeadingWhitespace(s: string): (n: nat)
    ensures n <= |s|
    ensures forall k :: 0 <= k < n ==> IsWhitespace(s[k])
    ensures n == |s| || !IsWhitespace(s[n])
  {
    if s != [] && IsWhitespace(s[0]) then 1 + LeadingWhitespace(s[1..]) else 0
  }

  /** The number of whitespace characters `s` ends with. */
  function TrailingWhitespace(s: string): (n: nat)
    ensures n <= |s|
    ensures forall k :: |s| - n <= k < |s| ==> IsWhitespace(s[k])
    ensures n == |s| || !IsWhitespace(s[|s| - n - 1])
  {
    if s != [] && IsWhitespace(s[|s| - 1]) then 1 + TrailingWhitespace(s[..|s| - 1]) else 0
  }

  /** `String.prototype.trim`: the middle of `s` between its leading and trailing whitespace. */
  function Trim(s: string): (r: string)
    ensures IsTrimmed(r)
    ensures var start := LeadingWhitespace(s);
      && start + |r| <= |s|
      && r == s[start..start + |r|]
      && (forall k :: 0 <= k < start ==> IsWhitespace(s[k]))
      && (forall k :: start + |r| <= k < |s| ==> IsWhitespace(s[k]))
  {
    var start := LeadingWhitespace(s);
    var t := s[start..];
    var r := t[..|t| - TrailingWhitespace(t)];
    assert r == s[start..start + |r|];
    assert r == [] || r[0] == s[start];
    forall k | start + |r| <= k < |s|
      ensures IsWhitespace(s[k])
    {
      assert s[k] == t[k - start];
    }
    r
  }

  /** A string with nothing to trim is its own trim. */
  lemma TrimOfTrimmed(s: string)
    requires IsTrimmed(s)
    ensures Trim(s) == s
  {
    assert LeadingWhitespace(s) == 0;
    assert s[0..] == s;
    assert TrailingWhitespace(s) == 0;
  }

  /** Leading whitespace only adds to the count of leading whitespace. */
  lemma {:induction false} LeadingWhitespaceAfter(w: string, s: string)
    requires forall k :: 0 <= k < |w| ==> IsWhitespace(w[k])
    ensures LeadingWhitespace(w + s) == |w| + LeadingWhitespace(s)
  {
    if w != [] {
      assert (w + s)[0] == w[0];
      assert (w + s)[1..] == w[1..] + s;
      LeadingWhitespaceAfter(w[1..], s);
    } else {
      assert w + s == s;
    }
  }

  /** Leading whitespace does not change the trim. */
  lemma TrimAfterWhitespace(w: string, s: string)
    requires forall k :: 0 <= k < |w| ==> IsWhitespace(w[k])
    ensures Trim(w + s) == Trim(s)
  {
    LeadingWhitespaceAfter(w, s);
    assert (w + s)[|w| + LeadingWhitespace(s)..] == s[LeadingWhitespace(s)..];
  }

  /** ASCII lower-casing of one character. */
  function LowerChar(c: char): char
  {
    if 'A' <= c <= 'Z' then (c as int + 32) as char else c
  }

  /** `String.prototype.toLowerCase`, restricted to the ASCII letters. */
  function Lower(s: string): (r: string)
    ensures |r| == |s|
    ensures forall i :: 0 <= i < |s| ==>
              if 'A' <= s[i] <= 'Z' then r[i] as int == s[i] as int + 32 else r[i] == s[i]
  {
    seq(|s|, i requires 0 <= i < |s| => LowerChar(s[i]))
  }

  /** Lower-casing twice is lower-casing once. */
  lemma LowerIdempotent(s: string)
    ensures Lower(Lower(s)) == Lower(s)
  {
  }

  /** `s.startsWith(prefix)`. */
  predicate StartsWith(s: string, prefix: string)
  {
    |prefix| <= |s| && s[..|prefix|] == prefix
  }

  /** `s.split(sep)` for a one-character separator `sep`: the pieces between the occurrences of `sep`. */
  function SplitOn(s: string, sep: char): (r: seq<string>)
    ensures |r| >= 1
    ensures forall k :: 0 <= k < |r| ==> sep !in r[k]
  {
    if s == [] then [[]]
    else
      var rest := SplitOn(s[1..], sep);
      if s[0] == sep then [[]] + rest else [[s[0]] + rest[0]] + rest[1..]
  }

  /** A string without the separator is a single piece. */
  lemma {:induction false} SplitOnWithoutSeparator(s: string, sep: char)
    requires sep !in s
    ensures SplitOn(s, sep) == [s]
  {
    if s != [] {
      SplitOnWithoutSeparator(s[1..], sep);
      assert [s[0]] + s[1..] == s;
    }
  }

  /** `parts.join(delimiter)`. */
  function Join(parts: seq<string>, delimiter: string): (r: string)
    ensures parts == [] ==> r == ""
    ensures |parts| == 1 ==> r == parts[0]
    ensures |parts| >= 1 ==> StartsWith(r, parts[0])
    ensures |parts| >= 2 ==> StartsWith(r, parts[0] + delimiter + parts[1])
  {
    if parts == [] then []
    else if |parts| == 1 then parts[0]
    else parts[0] + delimiter + Join(parts[1..], delimiter)
  }

  /** Joining the pieces of a split with the separator gives back the original string. */
  lemma {:induction false} JoinSplitOn(s: string, sep: char)
    ensures Join(SplitOn(s, sep), [sep]) == s
  {
    if s != [] {
      var rest := SplitOn(s[1..], sep);
      JoinSplitOn(s[1..], sep);
      if s[0] == sep {
        assert SplitOn(s, sep) == [[]] + rest;
        assert ([[]] + rest)[1..] == rest;
      } else {
        var r := SplitOn(s, sep);
        assert r == [[s[0]] + rest[0]] + rest[1..];
        if |rest| == 1 {
          assert r == [[s[0]] + rest[0]];
        } else {
          assert r[1..] == rest[1..];
          assert Join(rest, [sep]) == rest[0] + [sep] + Join(rest[1..], [sep]);
        }
        assert s == [s[0]] + s[1..];
      }
    }
  }

  /** Splitting a join recovers the pieces when none of them contains the separator. */
  lemma {:induction false} SplitOnJoin(parts: seq<string>, sep: char)
    requires |parts| >= 1
    requires forall k :: 0 <= k < |parts| ==> sep !in parts[k]
    ensures SplitOn(Join(parts, [sep]), sep) == parts
  {
    if |parts| == 1 {
      SplitOnWithoutSeparator(parts[0], sep);
    } else {
      SplitOnJoin(parts[1..], sep);
      SplitOnPrefix(parts[0], sep, Join(parts[1..], [sep]));
      assert Join(parts, [sep]) == parts[0] + [sep] + Join(parts[1..], [sep]);
      assert parts == [parts[0]] + parts[1..];
    }
  }

  /** A separator-free prefix followed by the separator becomes the first piece. */
  lemma {:induction false} SplitOnPrefix(w: string, sep: char, s: string)
    requires sep !in w
    ensures SplitOn(w + [sep] + s, sep) == [w] + SplitOn(s, sep)
  {
    if w == [] {
      assert w + [sep] + s == [sep] + s;
      assert ([sep] + s)[1..] == s;
    } else {
      var t := w + [sep] + s;
      assert t[0] == w[0];
      assert t[1..] == w[1..] + [sep] + s;
      SplitOnPrefix(w[1..], sep, s);
      assert [w[0]] + w[1..] == w;
    }
  }

  /** The last piece of a join of several pieces follows the last delimiter. */
  lemma {:induction false} JoinLast(parts: seq<string>, delimiter: string)
    requires |parts| >= 2
    ensures Join(parts, delimiter) == Join(parts[..|parts| - 1], delimiter) + delimiter + parts[|parts| - 1]
  {
    if |parts| > 2 {
      JoinLast(parts[1..], delimiter);
      assert parts[1..][..|parts| - 2] == parts[..|parts| - 1][1..];
    }
  }

  /** `s.split(sep).pop()`: the text after the last `sep`, or all of `s` when there is none. */
  function LastSegment(s: string, sep: char): (r: string)
    ensures sep !in r
    ensures |r| <= |s| && r == s[|s| - |r|..]
    ensures |r| < |s| ==> s[|s| - |r| - 1] == sep
    ensures r == s <==> sep !in s
  {
    var pieces := SplitOn(s, sep);
    JoinSplitOn(s, sep);
    if sep !in s then
      SplitOnWithoutSeparator(s, sep);
      pieces[0]
    else
      JoinLast(pieces, [sep]);
      pieces[|pieces| - 1]
  }

  /** Whatever precedes the last separator is discarded. */
  lemma LastSegmentAfterSeparator(prefix: string, sep: char, tail: string)
    requires sep !in tail
    ensures LastSegment(prefix + [sep] + tail, sep) == tail
  {
    var s := prefix + [sep] + tail;
    var r := LastSegment(s, sep);
    assert s[|s| - |tail|..] == tail;
    assert s[|s| - |tail| - 1] == sep;
  }

  /** `s.split(sep)[0]`: the text before the first `sep`, or all of `s` when there is none. */
  function FirstSegment(s: string, sep: char): (r: string)
    ensures sep !in r
    ensures |r| <= |s| && r == s[..|r|] && (|r| < |s| ==> s[|r|] == sep)
    ensures r == s <==> sep !in s
  {
    var pieces := SplitOn(s, sep);
    JoinSplitOn(s, sep);
    if sep !in s then
      SplitOnWithoutSeparator(s, sep);
      pieces[0]
    else
      pieces[0]
  }
  /** A separator-free prefix followed by the separator is the first segment. */
  lemma FirstSegmentOfPrefix(d: string, sep: char, rest: string)
    requires sep !in d
    ensures FirstSegment(d + [sep] + rest, sep) == d
  {
    var s := d + [sep] + rest;
    var r := FirstSegment(s, sep);
    assert s[|d|] == sep;
    assert forall i :: 0 <= i < |d| ==> s[i] == d[i];
    assert |r| == |d|;
  }

}
