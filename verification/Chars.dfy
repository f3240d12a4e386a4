/**
  Character classes. What a letter or digit is beyond ASCII is decided by the Unicode tables
  of the language the program is written in; those tables are the constants without a value
  below, so everything proved holds whatever they contain.
 */
module Chars {
  const OTHER_LETTERS: set<char>
  const OTHER_DIGITS: set<char>
  const OTHER_SPACES: set<char>

  predicate IsAlpha(c: char) {
    'a' <= c <= 'z' || 'A' <= c <= 'Z' || (128 as char <= c && c in OTHER_LETTERS)
  }

  predicate IsDigit(c: char) {
    '0' <= c <= '9' || (128 as char <= c && c in OTHER_DIGITS && c !in OTHER_LETTERS)
  }

  predicate IsAlnum(c: char) {
    IsAlpha(c) || IsDigit(c)
  }

  /** A character that can continue an identifier. */
  predicate IsWord(c: char) {
    IsAlnum(c) || c == '_'
  }

  /** A character that can start an identifier. */
  predicate IsWordStart(c: char) {
    IsAlpha(c) || c == '_'
  }

  predicate IsBlank(c: char) {
    c == ' ' || c == '\t' || c == '\r' || c == '\n'
  }

  /** White space in the sense of `strip` and of `\s`. */
  predicate IsSpace(c: char) {
    IsBlank(c) || 11 as char <= c <= 12 as char || 28 as char <= c <= 31 as char || (128 as char <= c && c in OTHER_SPACES)
  }

  predicate StartsWith(s: string, p: string) {
    |p| <= |s| && s[..|p|] == p
  }

  lemma TwoAre(s: string, p: string)
    requires |p| == 2
    ensures StartsWith(s, p) <==> |s| >= 2 && s[0] == p[0] && s[1] == p[1]
  {
    if |s| >= 2 { assert s[..2] == [s[0], s[1]] && p == [p[0], p[1]]; }
  }

  /** The longest run of identifier characters at the head of `s`. */
  function WordLength(s: string): (n: nat)
    ensures n <= |s|
    ensures forall i :: 0 <= i < n ==> IsWord(s[i])
    ensures n < |s| ==> !IsWord(s[n])
  {
    if s == "" || !IsWord(s[0]) then 0 else 1 + WordLength(s[1..])
  }

  lemma {:induction false} WordLengthOf(w: string, r: string)
    requires forall i :: 0 <= i < |w| ==> IsWord(w[i])
    requires r == "" || !IsWord(r[0])
    ensures WordLength(w + r) == |w|
  {
    if w == "" {
      assert w + r == r;
    } else {
      assert (w + r)[1..] == w[1..] + r;
      WordLengthOf(w[1..], r);
    }
  }

  /** What is left at the end of the line. */
  function LineRest(r: string): (q: string)
    ensures |q| <= |r| && (q == "" || q[0] == '\n')
  {
    if r == "" || r[0] == '\n' then r else LineRest(r[1..])
  }

  /** The end of the run of identifier characters from `j` on. */
  method EndOfWord(s: string, j: nat) returns (e: nat)
    requires j <= |s|
    ensures e == j + WordLength(s[j..]) && e <= |s|
  {
    e := j;
    while e < |s| && IsWord(s[e])
      invariant j <= e <= |s|
      invariant WordLength(s[j..]) == e - j + WordLength(s[e..])
    {
      assert s[e..][1..] == s[e + 1..];
      e := e + 1;
    }
  }

  function Join(segs: seq<string>, sep: string): string {
    if segs == [] then "" else if |segs| == 1 then segs[0] else segs[0] + (sep + Join(segs[1..], sep))
  }
}
