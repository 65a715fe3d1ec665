/**
 * The string operations the application relies on, over `seq<char>`:
 * JavaScript's whitespace class (`\s`, and what `trim` removes),
 * `toLowerCase` on ASCII letters, `includes`, `trim`, `split` on one
 * character and `join`.
 */
module Text {

  /**
   * ECMAScript WhiteSpace and LineTerminator code points: the class `\s`
   * matches and `String.prototype.trim` strips.
   */
  predicate IsWhitespace(c: char) {
    || ('\t' <= c <= '\r')
    || c == ' ' || c == '\U{A0}' || c == '\U{1680}'
    || ('\U{2000}' <= c <= '\U{200A}')
    || c == '\U{2028}' || c == '\U{2029}' || c == '\U{202F}' || c == '\U{205F}'
    || c == '\U{3000}' || c == '\U{FEFF}'
  }

  predicate IsAsciiUpper(c: char) { 'A' <= c <= 'Z' }
  predicate IsAsciiLower(c: char) { 'a' <= c <= 'z' }
  predicate IsDigit(c: char) { '0' <= c <= '9' }

  /** A capital's small letter sits 32 code points above it ('A' is 65, 'a' is 97). */
  function LowerChar(c: char): (d: char)
    ensures IsAsciiUpper(c) ==> IsAsciiLower(d) && d as int == c as int + 32
    ensures !IsAsciiUpper(c) ==> d == c
    ensures !IsAsciiUpper(d)
  {
    if IsAsciiUpper(c) then (c as int + 32) as char else c
  }

  /** `s.toLowerCase()`, restricted to the ASCII letters. */
  function Lower(s: string): (r: string)
    ensures |r| == |s|
    ensures forall i :: 0 <= i < |s| ==> r[i] == LowerChar(s[i])
    ensures forall i :: 0 <= i < |r| ==> !IsAsciiUpper(r[i])
  {
    seq(|s|, i requires 0 <= i < |s| => LowerChar(s[i]))
  }

  /** Lowering a lowered string changes nothing. */
  lemma LowerIsIdempotent(s: string)
    ensures Lower(Lower(s)) == Lower(s)
  {
    var r := Lower(s);
    forall i | 0 <= i < |r|
      ensures Lower(r)[i] == r[i]
    {
      assert !IsAsciiUpper(r[i]);
    }
  }

  /** `t` occurs in `s` starting at position `i`. */
  predicate OccursAt(s: string, t: string, i: int) {
    0 <= i && i + |t| <= |s| && s[i..i + |t|] == t
  }

  /** `s.includes(t)`: `t` occurs in `s` at some position. */
  predicate Contains(s: string, t: string) {
    exists i | 0 <= i <= |s| :: OccursAt(s, t, i)
  }

  /** `s.toLowerCase().includes(t.toLowerCase())`, and SQL `s ILIKE '%t%'`. */
  predicate ContainsIgnoreCase(s: string, t: string) {
    Contains(Lower(s), Lower(t))
  }

  /** The search is blind to case on either side: lowering `s` or `t` first changes nothing. */
  lemma ContainsIgnoreCaseOfLower(s: string, t: string)
    ensures ContainsIgnoreCase(Lower(s), t) == ContainsIgnoreCase(s, t)
    ensures ContainsIgnoreCase(s, Lower(t)) == ContainsIgnoreCase(s, t)
  {
    LowerIsIdempotent(s);
    LowerIsIdempotent(t);
  }

  /** `t` matches `s` at position `i`, each character up to the case of an ASCII letter. */
  predicate MatchesAtIgnoreCase(s: string, t: string, i: int) {
    0 <= i && i + |t| <= |s| && forall k | 0 <= k < |t| :: LowerChar(s[i + k]) == LowerChar(t[k])
  }

  /** The search, position by position: `t` matches `s` at some position, ignoring case. */
  lemma ContainsIgnoreCaseAt(s: string, t: string)
    ensures ContainsIgnoreCase(s, t) <==> exists i | 0 <= i <= |s| :: MatchesAtIgnoreCase(s, t, i)
  {
    var ls, lt := Lower(s), Lower(t);
    if ContainsIgnoreCase(s, t) {
      var i :| 0 <= i <= |ls| && OccursAt(ls, lt, i);
      forall k | 0 <= k < |t|
        ensures LowerChar(s[i + k]) == LowerChar(t[k])
      {
        assert ls[i..i + |lt|][k] == lt[k];
      }
      assert MatchesAtIgnoreCase(s, t, i);
    }
    if exists i | 0 <= i <= |s| :: MatchesAtIgnoreCase(s, t, i) {
      var i :| 0 <= i <= |s| && MatchesAtIgnoreCase(s, t, i);
      assert ls[i..i + |lt|] == lt;
      assert OccursAt(ls, lt, i);
    }
  }

  /** The empty search term occurs in every string. */
  lemma EmptyIsContained(s: string)
    ensures ContainsIgnoreCase(s, "")
  {
    assert Lower("") == "";
    assert OccursAt(Lower(s), Lower(""), 0);
  }

  /** No whitespace at either end of `s`. */
  predicate IsTrimmed(s: string) {
    s == [] || (!IsWhitespace(s[0]) && !IsWhitespace(s[|s| - 1]))
  }

  /** Every character of `s` is whitespace. */
  predicate AllWhitespace(s: string) {
    forall k :: 0 <= k < |s| ==> IsWhitespace(s[k])
  }

  function TrimStart(s: string): (r: string)
    ensures |r| <= |s| && r == s[|s| - |r|..]
    ensures r == [] || !IsWhitespace(r[0])
    ensures AllWhitespace(s[..|s| - |r|])
    decreases |s|
  {
    if s != [] && IsWhitespace(s[0]) then
      var r := TrimStart(s[1..]);
      assert s[..|s| - |r|] == [s[0]] + s[1..][..|s| - 1 - |r|];
      WhitespaceAround(s[1..][..|s| - 1 - |r|], s[0]);
      r
    else s
  }

  function TrimEnd(s: string): (r: string)
    ensures |r| <= |s| && r == s[..|r|]
    ensures r == [] || !IsWhitespace(r[|r| - 1])
    ensures AllWhitespace(s[|r|..])
    decreases |s|
  {
    if s != [] && IsWhitespace(s[|s| - 1]) then
      var r := TrimEnd(s[..|s| - 1]);
      assert s[|r|..] == s[..|s| - 1][|r|..] + [s[|s| - 1]];
      WhitespaceAround(s[..|s| - 1][|r|..], s[|s| - 1]);
      r
    else s
  }

  /** Whitespace with one more whitespace character on either side is still whitespace. */
  lemma WhitespaceAround(w: string, c: char)
    requires AllWhitespace(w) && IsWhitespace(c)
    ensures AllWhitespace([c] + w) && AllWhitespace(w + [c])
  {
    forall k | 0 <= k < |w| + 1
      ensures IsWhitespace(([c] + w)[k]) && IsWhitespace((w + [c])[k])
    {
      if k > 0 {
        assert ([c] + w)[k] == w[k - 1];
      }
      if k < |w| {
        assert (w + [c])[k] == w[k];
      }
    }
  }

  /** `s.trim()`: the longest middle part of `s` without whitespace at its ends. */
  function Trim(s: string): (r: string)
    ensures IsTrimmed(r)
    ensures exists i, j | 0 <= i <= j <= |s| :: r == s[i..j] && AllWhitespace(s[..i]) && AllWhitespace(s[j..])
    ensures IsTrimmed(s) ==> r == s
  {
    TrimIsMiddle(s);
    TrimEndsTrimmed(s);
    TrimEnd(TrimStart(s))
  }

  /** What trimming both ends leaves: a slice of `s` with only whitespace around it. */
  lemma TrimIsMiddle(s: string)
    ensures var r := TrimEnd(TrimStart(s));
      exists i, j | 0 <= i <= j <= |s| :: r == s[i..j] && AllWhitespace(s[..i]) && AllWhitespace(s[j..])
  {
    SliceBetweenWhitespace(s, TrimStart(s), TrimEnd(TrimStart(s)));
  }

  /** A prefix `r` of a suffix `t` of `s`, with whitespace cut off on both sides, is a middle slice. */
  lemma SliceBetweenWhitespace(s: string, t: string, r: string)
    requires |t| <= |s| && t == s[|s| - |t|..] && AllWhitespace(s[..|s| - |t|])
    requires |r| <= |t| && r == t[..|r|] && AllWhitespace(t[|r|..])
    ensures exists i, j | 0 <= i <= j <= |s| :: r == s[i..j] && AllWhitespace(s[..i]) && AllWhitespace(s[j..])
  {
    var i := |s| - |t|;
    var j := i + |r|;
    assert s[j..] == t[|r|..];
    assert r == s[i..j];
  }

  /** Trimming both ends leaves no whitespace at either end, and a trimmed string as it is. */
  lemma TrimEndsTrimmed(s: string)
    ensures IsTrimmed(TrimEnd(TrimStart(s)))
    ensures IsTrimmed(s) ==> TrimEnd(TrimStart(s)) == s
  {
    var t := TrimStart(s);
    var r := TrimEnd(t);
    assert r != [] ==> r[0] == t[0];
    if IsTrimmed(s) {
      assert t == s;
    }
  }

  /** Whitespace in front makes no difference to `trim`. */
  lemma TrimDropsLeadingWhitespace(c: char, s: string)
    requires IsWhitespace(c)
    ensures Trim([c] + s) == Trim(s)
  {
    assert ([c] + s)[1..] == s;
    assert TrimStart([c] + s) == TrimStart(s);
  }

  /** `s.split(sep)` for a one-character separator: `"".split(",")` is `[""]`. */
  function Split(s: string, sep: char): (parts: seq<string>)
    ensures |parts| >= 1
    ensures forall i :: 0 <= i < |parts| ==> sep !in parts[i]
    decreases |s|
  {
    if s == [] then [""]
    else if s[0] == sep then [""] + Split(s[1..], sep)
    else
      var rest := Split(s[1..], sep);
      [[s[0]] + rest[0]] + rest[1..]
  }

  lemma {:induction false} SplitWithoutSeparator(s: string, sep: char)
    requires sep !in s
    ensures Split(s, sep) == [s]
    decreases |s|
  {
    if s != [] {
      SplitWithoutSeparator(s[1..], sep);
      assert [s[0]] + s[1..] == s;
    }
  }

  /** Splitting at the first separator. */
  lemma {:induction false} SplitAtSeparator(a: string, sep: char, b: string)
    requires sep !in a
    ensures Split(a + [sep] + b, sep) == [a] + Split(b, sep)
    decreases |a|
  {
    var s := a + [sep] + b;
    if a == [] {
      assert s[1..] == b;
    } else {
      assert s[1..] == a[1..] + [sep] + b;
      SplitAtSeparator(a[1..], sep, b);
      assert [a[0]] + a[1..] == a;
    }
  }

  /** `parts.join(sep)`: `[].join(sep)` is the empty string. */
  function Join(parts: seq<string>, sep: string): string
    decreases |parts|
  {
    if parts == [] then ""
    else if |parts| == 1 then parts[0]
    else parts[0] + sep + Join(parts[1..], sep)
  }
}
