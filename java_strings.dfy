/** Option stands for a Java reference that may be null. */
module Wrappers {
  datatype Option<+T> = None | Some(value: T)
}

/**
 * The few java.lang String and Character operations the console relies on,
 * stated over Dafny strings (sequences of Unicode scalar values).
 */
module JavaStrings {

  /** Character.isWhitespace: the Unicode space, line and paragraph separators
      except the no-break spaces U+00A0, U+2007 and U+202F, plus the ASCII
      controls TAB, LF, VT, FF, CR and U+001C..U+001F. */
  predicate IsWhitespace(c: char) {
    || c == ' ' || c == '\t' || c == '\n' || c == '\U{B}' || c == '\U{C}' || c == '\r'
    || ('\U{1C}' <= c <= '\U{1F}')
    || c == '\U{1680}'
    || ('\U{2000}' <= c <= '\U{2006}')
    || ('\U{2008}' <= c <= '\U{200A}')
    || c == '\U{2028}' || c == '\U{2029}' || c == '\U{205F}' || c == '\U{3000}'
  }

  /** String.trim removes every leading and trailing character at or below U+0020. */
  predicate TrimmedAway(c: char) {
    c <= ' '
  }

  function TrimStart(s: string): (r: string)
    ensures |r| <= |s| && r == s[|s| - |r|..]
    ensures r != [] ==> !TrimmedAway(r[0])
    ensures forall i :: 0 <= i < |s| - |r| ==> TrimmedAway(s[i])
  {
    if s != [] && TrimmedAway(s[0]) then TrimStart(s[1..]) else s
  }

  function TrimEnd(s: string): (r: string)
    ensures |r| <= |s| && r == s[..|r|]
    ensures r != [] ==> !TrimmedAway(r[|r| - 1])
    ensures forall i :: |r| <= i < |s| ==> TrimmedAway(s[i])
  {
    if s != [] && TrimmedAway(s[|s| - 1]) then TrimEnd(s[..|s| - 1]) else s
  }

  /** String.trim */
  function Trim(s: string): (r: string)
    ensures r != [] ==> !TrimmedAway(r[0]) && !TrimmedAway(r[|r| - 1])
    ensures (forall i :: 0 <= i < |s| ==> TrimmedAway(s[i])) ==> r == []
    ensures s != [] && !TrimmedAway(s[0]) && !TrimmedAway(s[|s| - 1]) ==> r == s
  {
    var front := TrimStart(s);
    var r := TrimEnd(front);
    assert r != [] ==> r[0] == front[0];
    r
  }

  lemma TrimIdempotent(s: string)
    ensures Trim(Trim(s)) == Trim(s)
  {
  }

  /** Every character of a trimmed string is a character of the original. */
  lemma TrimChars(s: string, P: char -> bool)
    requires forall i :: 0 <= i < |s| ==> P(s[i])
    ensures forall i :: 0 <= i < |Trim(s)| ==> P(Trim(s)[i])
  {
    var front := TrimStart(s);
    forall i | 0 <= i < |front| ensures P(front[i]) {
      assert front[i] == s[|s| - |front| + i];
    }
    var r := TrimEnd(front);
    forall i | 0 <= i < |r| ensures P(r[i]) {
      assert r[i] == front[i];
    }
  }

  /** Removing leading blanks stops at the first character above U+0020. */
  lemma {:induction false} TrimStartConcat(a: string, b: string)
    requires b != [] && !TrimmedAway(b[0])
    ensures TrimStart(a + b) == TrimStart(a) + b
  {
    if a == [] {
      assert a + b == b;
    } else if TrimmedAway(a[0]) {
      assert (a + b)[1..] == a[1..] + b;
      TrimStartConcat(a[1..], b);
    } else {
      assert (a + b)[0] == a[0];
    }
  }

  /** Removing trailing blanks stops at the last character above U+0020. */
  lemma {:induction false} TrimEndConcat(a: string, b: string)
    requires a != [] && !TrimmedAway(a[|a| - 1])
    ensures TrimEnd(a + b) == a + TrimEnd(b)
  {
    if b == [] {
      assert a + b == a;
    } else if TrimmedAway(b[|b| - 1]) {
      assert (a + b)[..|a + b| - 1] == a + b[..|b| - 1];
      TrimEndConcat(a, b[..|b| - 1]);
    } else {
      assert (a + b)[|a + b| - 1] == b[|b| - 1];
    }
  }

  /** Trimming text padded on both sides keeps the text and trims only the padding. */
  lemma TrimAround(lead: string, body: string, trail: string)
    requires body != [] && !TrimmedAway(body[0]) && !TrimmedAway(body[|body| - 1])
    ensures Trim(lead + body + trail) == TrimStart(lead) + body + TrimEnd(trail)
  {
    ConcatAssoc(lead, body, trail);
    TrimStartConcat(lead, body + trail);
    ConcatAssoc(TrimStart(lead), body, trail);
    TrimEndConcat(TrimStart(lead) + body, trail);
  }

  lemma ConcatAssoc<T>(a: seq<T>, b: seq<T>, c: seq<T>)
    ensures a + b + c == a + (b + c)
  {
  }

  /** StringBuilder.indexOf(String.valueOf(c), from): the first position at or
      after from that holds c, or -1. */
  function IndexOf(s: string, c: char, from: nat): (k: int)
    ensures k == -1 || from <= k < |s|
    ensures k == -1 ==> forall i :: from <= i < |s| ==> s[i] != c
    ensures k != -1 ==> s[k] == c && forall i :: from <= i < k ==> s[i] != c
    decreases |s| - from
  {
    if from >= |s| then -1 else if s[from] == c then from else IndexOf(s, c, from + 1)
  }

  /** t occurs in s at position i */
  predicate OccursAt(s: string, t: string, i: int) {
    0 <= i && i + |t| <= |s| && s[i..i + |t|] == t
  }

  function LastIndexFrom(s: string, t: string, k: int): (r: int)
    requires k <= |s| - |t|
    ensures r == -1 || (r <= k && OccursAt(s, t, r))
    ensures forall i :: r < i <= k ==> !OccursAt(s, t, i)
    decreases k + 1
  {
    if k < 0 then -1 else if s[k..k + |t|] == t then k else LastIndexFrom(s, t, k - 1)
  }

  /** String.lastIndexOf(String): the greatest position where t occurs in s,
      or -1; for the empty t this is |s|. */
  function LastIndexOf(s: string, t: string): (r: int)
    ensures r == -1 || OccursAt(s, t, r)
    ensures forall i :: r < i ==> !OccursAt(s, t, i)
    ensures r == -1 <==> forall i :: !OccursAt(s, t, i)
  {
    LastIndexFrom(s, t, |s| - |t|)
  }

  /** The last occurrence of a suffix is the suffix itself. */
  lemma LastIndexOfSuffix(s: string, t: string)
    requires EndsWith(s, t)
    ensures LastIndexOf(s, t) == |s| - |t|
  {
    assert OccursAt(s, t, |s| - |t|);
  }

  /** The last character of a + b is the last character of b. */
  lemma LastOfConcat(a: string, b: string)
    requires b != []
    ensures (a + b)[|a + b| - 1] == b[|b| - 1]
  {
  }

  /** What precedes a suffix, followed by the suffix, is the whole string. */
  lemma SuffixSplit(s: string, t: string)
    requires EndsWith(s, t)
    ensures s[..|s| - |t|] + t == s
  {
  }

  /** String.startsWith */
  predicate StartsWith(s: string, p: string) {
    |p| <= |s| && s[..|p|] == p
  }

  /** String.endsWith */
  predicate EndsWith(s: string, suffix: string) {
    |suffix| <= |s| && s[|s| - |suffix|..] == suffix
  }

  function ToLowerChar(c: char): char {
    if 'A' <= c <= 'Z' then (c as int + 32) as char else c
  }

  /** String.toLowerCase, restricted to the ASCII letters. */
  function ToLower(s: string): (r: string)
    ensures |r| == |s|
    ensures forall i :: 0 <= i < |s| ==> r[i] == ToLowerChar(s[i])
  {
    seq(|s|, i requires 0 <= i < |s| => ToLowerChar(s[i]))
  }

  lemma ToLowerIdempotent(s: string)
    ensures ToLower(ToLower(s)) == ToLower(s)
  {
  }
}
