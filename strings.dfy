/**
 * The .NET string operations the gateway relies on, all with ordinal
 * semantics, read here as character by character (which agrees with .NET's
 * ordinal UTF-16 comparison for the ASCII separators "/" and "." used here): StartsWith, EndsWith, Replace of
 * one one-character string by another, and LastIndexOf of one character.
 */
module Strings {

  /** `s.StartsWith(p, StringComparison.Ordinal)`. */
  predicate StartsWith(s: string, p: string)
  {
    |p| <= |s| && s[..|p|] == p
  }

  /** `s.EndsWith(p, StringComparison.Ordinal)`. */
  predicate EndsWith(s: string, p: string)
  {
    |p| <= |s| && s[|s| - |p|..] == p
  }

  /** `s.Replace(from, to)` for one-character strings `from` and `to`. */
  function ReplaceChar(s: string, from: char, to: char): (r: string)
    ensures |r| == |s|
    ensures forall i :: 0 <= i < |s| ==> r[i] == (if s[i] == from then to else s[i])
  {
    if s == [] then []
    else [if s[0] == from then to else s[0]] + ReplaceChar(s[1..], from, to)
  }

  /** After replacing every `from` by a different character, no `from` is left. */
  lemma ReplaceCharRemoves(s: string, from: char, to: char)
    requires from != to
    ensures from !in ReplaceChar(s, from, to)
  {
  }

  /**
   * `s.LastIndexOf(c)`: the index of the last occurrence of `c` in `s`,
   * or -1 when `c` does not occur.
   */
  function LastIndexOf(s: string, c: char): (r: int)
    ensures -1 <= r < |s|
    ensures r >= 0 ==> s[r] == c
    ensures forall j :: r < j < |s| ==> s[j] != c
    ensures r == -1 <==> c !in s
  {
    if s == [] then -1
    else if s[|s| - 1] == c then |s| - 1
    else LastIndexOf(s[..|s| - 1], c)
  }

  /** The text after the last `c` in `s`, or all of `s` when there is none. */
  function AfterLast(s: string, c: char): (r: string)
    ensures EndsWith(s, r)
    ensures c !in r
    ensures c !in s ==> r == s
    ensures c in s ==> |r| < |s| && s[|s| - |r| - 1] == c
  {
    s[LastIndexOf(s, c) + 1..]
  }

  /** The text after the last `c` is the text after position `k` when `c` sits at `k` and not after it. */
  lemma AfterLastAt(s: string, c: char, k: nat)
    requires k < |s| && s[k] == c
    requires forall j :: k < j < |s| ==> s[j] != c
    ensures AfterLast(s, c) == s[k + 1..]
  {
  }

  /** The prefix test agrees with the text character by character from the start. */
  lemma StartsWithByChars(s: string, p: string)
    ensures StartsWith(s, p) <==> |p| <= |s| && forall i :: 0 <= i < |p| ==> s[i] == p[i]
  {
    if |p| <= |s| && forall i :: 0 <= i < |p| ==> s[i] == p[i] {
      assert s[..|p|] == p;
    }
  }

  /** The suffix test agrees with the last characters of the text, one by one. */
  lemma EndsWithByChars(s: string, p: string)
    ensures EndsWith(s, p) <==> |p| <= |s| && forall i :: 0 <= i < |p| ==> s[|s| - |p| + i] == p[i]
  {
    if |p| <= |s| && forall i :: 0 <= i < |p| ==> s[|s| - |p| + i] == p[i] {
      assert s[|s| - |p|..] == p;
    }
  }

  lemma EndsWithAppend(a: string, b: string)
    ensures EndsWith(a + b, b)
  {
  }

  lemma StartsWithAppend(a: string, b: string)
    ensures StartsWith(a + b, a)
  {
  }

}
