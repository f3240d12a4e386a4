/**
  Visibility restrictions, test attributes and stripped texts told from the characters alone,
  and that the scanner's own tests (`ItemScan`) agree with them on every text.
 */
module SourceText {
  import opened Chars
  import opened ItemScan

  predicate Spaces(s: string, a: int, b: int)
    requires 0 <= a && b <= |s|
  {
    forall i :: a <= i < b ==> IsSpace(s[i])
  }

  /** The word `w` stands at position `a`. */
  predicate StandsAt(s: string, a: int, w: string) {
    0 <= a && a + |w| <= |s| && s[a..a + |w|] == w
  }

  // ---------- stripped texts ----------

  /** `s[a..b]` is the text without the white space around it. */
  predicate StripsTo(s: string, a: int, b: int) {
    && 0 <= a <= b <= |s| && Spaces(s, 0, a) && Spaces(s, b, |s|)
    && (a < b ==> !IsSpace(s[a]) && !IsSpace(s[b - 1]))
  }

  lemma {:induction false} StripLeftIs(s: string)
    ensures var a := |s| - |StripLeft(s)|;
            0 <= a && StripLeft(s) == s[a..] && Spaces(s, 0, a) && (a < |s| ==> !IsSpace(s[a]))
  {
    if s != "" && IsSpace(s[0]) {
      StripLeftIs(s[1..]);
      var a := |s| - |StripLeft(s)|;
      forall i | 0 <= i < a ensures IsSpace(s[i]) { if i > 0 { assert s[1..][i - 1] == s[i]; } }
    }
  }

  lemma {:induction false} StripRightIs(s: string)
    ensures var b := |StripRight(s)|;
            b <= |s| && StripRight(s) == s[..b] && Spaces(s, b, |s|) && (b > 0 ==> !IsSpace(s[b - 1]))
  {
    if s != "" && IsSpace(s[|s| - 1]) {
      StripRightIs(s[..|s| - 1]);
      var b := |StripRight(s)|;
      forall i | b <= i < |s| ensures IsSpace(s[i]) { if i < |s| - 1 { assert s[..|s| - 1][i] == s[i]; } }
    }
  }

  /** Stripping takes the white space from both ends, and nothing else. */
  lemma StripIs(s: string) returns (a: int, b: int)
    ensures StripsTo(s, a, b) && Strip(s) == s[a..b]
  {
    hide IsSpace;
    StripLeftIs(s);
    a := |s| - |StripLeft(s)|;
    var t := s[a..];
    StripRightIs(t);
    b := a + |StripRight(t)|;
    assert t[..b - a] == s[a..b];
    forall i | b <= i < |s| ensures IsSpace(s[i]) { assert t[i - a] == s[i]; }
    if a < b { assert t[b - a - 1] == s[b - 1]; }
  }

  /** There is only one way to do so. */
  lemma StripOf(s: string, a: int, b: int)
    requires StripsTo(s, a, b)
    ensures Strip(s) == s[a..b]
  {
    hide Strip, IsSpace;
    var c, d := StripIs(s);
    if a < b {
      assert c == a && d == b;
    } else {
      assert c == d;
    }
  }

  // ---------- visibility ----------

  /** The word `w` at position `a`, and then nothing but white space up to the end or a parenthesis. */
  predicate NamesAt(s: string, a: int, w: string) {
    StandsAt(s, a, w) && GapFollows(s, a + |w|)
  }

  predicate GapFollows(s: string, a: int) {
    exists b :: 0 <= b <= |s| && IsGap(s, a, b)
  }

  predicate IsGap(s: string, a: int, b: int)
    requires 0 <= b <= |s|
  {
    0 <= a <= b && Spaces(s, a, b) && (b == |s| || s[b] == '(')
  }

  /** The inside of `pub(...)` restricts: `crate`, `super`, or a text that begins with `in`. */
  predicate SaysRestricted(inner: string) {
    exists a :: 0 <= a <= |inner| && Spaces(inner, 0, a) && RestrictsAt(inner, a)
  }

  predicate RestrictsAt(inner: string, a: int) {
    NamesAt(inner, a, "crate") || NamesAt(inner, a, "super") || StandsAt(inner, a, "in")
  }

  lemma {:induction false} BeforeParenIs(s: string)
    ensures var m := |BeforeParen(s)|;
            m <= |s| && BeforeParen(s) == s[..m] && (m < |s| ==> s[m] == '(') && forall i :: 0 <= i < m ==> s[i] != '('
  {
    if s != "" && s[0] != '(' {
      BeforeParenIs(s[1..]);
      var m := |BeforeParen(s)|;
      forall i | 0 <= i < m ensures s[i] != '(' { if i > 0 { assert s[1..][i - 1] == s[i]; } }
    }
  }

  lemma NamesFrom(s: string, a: nat, w: string)
    requires a <= |s|
    ensures NamesAt(s, a, w) <==> NamesAt(s[a..], 0, w)
  {
    var u := s[a..];
    assert StandsAt(s, a, w) <==> StandsAt(u, 0, w) by {
      if a + |w| <= |s| { assert u[0..|w|] == s[a..a + |w|]; }
    }
    if NamesAt(s, a, w) {
      var b :| 0 <= b <= |s| && IsGap(s, a + |w|, b);
      if b < |s| { assert u[b - a] == s[b]; }
      assert IsGap(u, 0 + |w|, b - a);
    }
    if NamesAt(u, 0, w) {
      var b :| 0 <= b <= |u| && IsGap(u, 0 + |w|, b);
      forall i | a + |w| <= i < a + b ensures IsSpace(s[i]) { assert u[i - a] == s[i]; }
      if b < |u| { assert u[b] == s[a + b]; }
      assert IsGap(s, a + |w|, a + b);
    }
  }

  /** The first word of a stripped restriction. */
  lemma HeadNames(u: string, b: int, w: string)
    requires StripsTo(u, 0, b) && w != "" && forall i :: 0 <= i < |w| ==> !IsSpace(w[i]) && w[i] != '('
    ensures Strip(BeforeParen(u[..b])) == w <==> NamesAt(u, 0, w)
  {
    var t := u[..b];
    BeforeParenIs(t);
    hide Strip, BeforeParen, NamesAt;
    var m := |BeforeParen(t)|;
    assert t[..m] == u[..m];
    assert m < b ==> t[m] == u[m];
    assert forall i :: 0 <= i < m ==> t[i] == u[i];
    if Strip(u[..m]) == w { NamedByHead(u, b, w, m); }
    if NamesAt(u, 0, w) { HeadByName(u, b, w, m); }
  }

  lemma NamedByHead(u: string, b: int, w: string, m: nat)
    requires StripsTo(u, 0, b) && w != "" && m <= b && (m < b ==> u[m] == '(') && Strip(u[..m]) == w
    ensures NamesAt(u, 0, w)
  {
    hide Strip;
    var x := u[..m];
    var c, d := StripIs(x);
    assert |w| == d - c;
    assert x[0] == u[0] && c == 0;
    assert u[0..|w|] == x[0..d];
    var e := if m < b then m else |u|;
    forall i | |w| <= i < e ensures IsSpace(u[i]) {
      if i < m { assert x[i] == u[i]; }
    }
    assert IsGap(u, 0 + |w|, e);
  }

  lemma HeadByName(u: string, b: int, w: string, m: nat)
    requires StripsTo(u, 0, b) && w != "" && forall i :: 0 <= i < |w| ==> !IsSpace(w[i]) && w[i] != '('
    requires NamesAt(u, 0, w)
    requires m <= b && (m < b ==> u[m] == '(') && forall i :: 0 <= i < m ==> u[i] != '('
    ensures Strip(u[..m]) == w
  {
    assert !IsSpace('(');
    hide Strip;
    var e :| 0 <= e <= |u| && IsGap(u, 0 + |w|, e);
    var x := u[..m];
    assert forall i :: 0 <= i < |w| ==> u[0..|w|][i] == u[i];
    assert forall i :: 0 <= i < |w| ==> u[i] == w[i];
    assert u[|w| - 1] == w[|w| - 1];
    assert |w| <= b;
    assert |w| <= m;
    StripOf(x, 0, |w|);
    assert x[0..|w|] == w;
  }

  lemma HeadIn(inner: string, a: int, b: int)
    requires StripsTo(inner, a, b)
    ensures StartsWith(Strip(BeforeParen(inner[a..b])), "in") <==> StandsAt(inner, a, "in")
  {
    var t := inner[a..b];
    assert !IsSpace('i') && !IsSpace('n');
    BeforeParenIs(t);
    hide Strip, IsSpace, BeforeParen;
    var x := BeforeParen(t);
    var c, d := StripIs(x);
    TwoAre(x[c..d], "in");
    if StartsWith(x[c..d], "in") {
      assert x[0] == inner[a] && c == 0;
      assert inner[a] == 'i' && inner[a + 1] == 'n';
    }
    if StandsAt(inner, a, "in") {
      assert inner[a..a + 2][0] == 'i' && inner[a..a + 2][1] == 'n';
      assert t[0] == 'i' && t[1] == 'n';
    }
  }

  lemma StripsFrom(s: string, a: int, b: int)
    requires StripsTo(s, a, b)
    ensures StripsTo(s[a..], 0, b - a) && s[a..][..b - a] == s[a..b]
  {
    hide IsSpace;
    var u := s[a..];
    forall i | b - a <= i < |u| ensures IsSpace(u[i]) { assert u[i] == s[a + i]; }
  }

  /** The scanner's test on a text that is stripped to `inner[a..b]`. */
  lemma RestrictsAtIff(inner: string, a: int, b: int)
    requires StripsTo(inner, a, b)
    ensures Restricted(inner[a..b]) <==> RestrictsAt(inner, a)
  {
    Letters();
    StripsFrom(inner, a, b);
    hide Strip, BeforeParen, NamesAt, StripsTo, IsSpace, StandsAt;
    assert 0 <= a <= |inner| by { StripsWithin(inner, a, b); }
    HeadNames(inner[a..], b - a, "crate");
    HeadNames(inner[a..], b - a, "super");
    NamesFrom(inner, a, "crate");
    NamesFrom(inner, a, "super");
    HeadIn(inner, a, b);
  }

  lemma StripsWithin(s: string, a: int, b: int)
    requires StripsTo(s, a, b)
    ensures 0 <= a <= b <= |s|
  {
  }

  /** The scanner's test agrees with the text, for every text. */
  lemma RestrictedIff(inner: string)
    ensures Restricted(Strip(inner)) <==> SaysRestricted(inner)
  {
    hide Strip, Restricted, RestrictsAt, IsSpace;
    var a, b := StripIs(inner);
    RestrictsAtIff(inner, a, b);
    if SaysRestricted(inner) {
      var c :| 0 <= c <= |inner| && Spaces(inner, 0, c) && RestrictsAt(inner, c);
      RestrictsDark(inner, c);
      assert c == a;
    }
  }

  lemma Letters()
    ensures forall i :: 0 <= i < 5 ==> !IsSpace("crate"[i]) && "crate"[i] != '('
    ensures forall i :: 0 <= i < 5 ==> !IsSpace("super"[i]) && "super"[i] != '('
  {
  }

  lemma RestrictsDark(inner: string, a: int)
    requires RestrictsAt(inner, a)
    ensures 0 <= a < |inner| && !IsSpace(inner[a])
  {
    if NamesAt(inner, a, "crate") { assert inner[a..a + 5][0] == 'c'; }
    if NamesAt(inner, a, "super") { assert inner[a..a + 5][0] == 's'; }
    if StandsAt(inner, a, "in") { assert inner[a..a + 2][0] == 'i'; }
  }

  // ---------- test attributes ----------

  /** `cfg`, white space, `(`, white space, `test` and the end of a word. */
  ghost predicate CfgTestAt(a: string, i: int) {
    exists j, k :: CfgParts(a, i, j, k)
  }

  predicate CfgParts(a: string, i: int, j: int, k: int) {
    && StandsAt(a, i, "cfg") && i + 3 <= j < |a| && Spaces(a, i + 3, j) && a[j] == '('
    && j + 1 <= k <= |a| && Spaces(a, j + 1, k) && StandsAt(a, k, "test") && (k + 4 == |a| || !IsWord(a[k + 4]))
  }

  /** An attribute that makes its item a test item: somewhere, at the start of a word, there is `cfg(test`. */
  ghost predicate SaysCfgTest(a: string) {
    exists i :: 0 <= i < |a| && (i == 0 || !IsWord(a[i - 1])) && CfgTestAt(a, i)
  }

  lemma StandsFrom(a: string, i: nat, w: string)
    requires i <= |a|
    ensures StartsWith(a[i..], w) <==> StandsAt(a, i, w)
  {
    if i + |w| <= |a| { assert a[i..][..|w|] == a[i..i + |w|]; }
  }

  /** The first position from `i` on that is not white space. */
  lemma StripLeftFrom(a: string, i: nat) returns (j: nat)
    requires i <= |a|
    ensures i <= j <= |a| && Spaces(a, i, j) && (j < |a| ==> !IsSpace(a[j])) && StripLeft(a[i..]) == a[j..]
  {
    hide IsSpace, StripLeft;
    var t := a[i..];
    StripLeftIs(t);
    var n := |t| - |StripLeft(t)|;
    j := i + n;
    forall x | i <= x < j ensures IsSpace(a[x]) { assert t[x - i] == a[x]; }
  }

  lemma CfgHereIff(a: string, i: nat)
    requires i <= |a|
    ensures CfgTestHere(a[i..]) <==> CfgTestAt(a, i)
  {
    StandsFrom(a, i, "cfg");
    if StandsAt(a, i, "cfg") {
      assert !IsSpace('(') && !IsSpace('t');
      assert a[i..][3..] == a[i + 3..];
      var j := StripLeftFrom(a, i + 3);
      if j < |a| && a[j] == '(' {
        assert a[j..][1..] == a[j + 1..];
        var k := StripLeftFrom(a, j + 1);
        StandsFrom(a, k, "test");
        CfgFound(a, i, j, k);
      } else {
        CfgMissed(a, i, j);
      }
    }
  }

  lemma CfgFound(a: string, i: nat, j: nat, k: nat)
    requires StandsAt(a, i, "cfg") && i + 3 <= j < |a| && Spaces(a, i + 3, j) && a[j] == '('
    requires j + 1 <= k <= |a| && Spaces(a, j + 1, k) && (k < |a| ==> !IsSpace(a[k]))
    ensures CfgTestAt(a, i) <==> StandsAt(a, k, "test") && (k + 4 == |a| || !IsWord(a[k + 4]))
  {
    assert !IsSpace('(') && !IsSpace('t');
    hide IsSpace, IsWord;
    if StandsAt(a, k, "test") && (k + 4 == |a| || !IsWord(a[k + 4])) { assert CfgParts(a, i, j, k); }
    if CfgTestAt(a, i) {
      var j', k' :| CfgParts(a, i, j', k');
      assert j' == j;
      assert a[k'..k' + 4][0] == 't';
      assert k' == k;
    }
  }

  lemma CfgMissed(a: string, i: nat, j: nat)
    requires StandsAt(a, i, "cfg") && i + 3 <= j <= |a| && Spaces(a, i + 3, j) && (j < |a| ==> !IsSpace(a[j]) && a[j] != '(')
    ensures !CfgTestAt(a, i)
  {
    assert !IsSpace('(');
    hide IsSpace, IsWord;
    forall j', k' ensures !CfgParts(a, i, j', k') {}
  }

  lemma {:induction false} CfgInIff(a: string, i: nat)
    requires i <= |a|
    ensures CfgTestIn(a[i..], i > 0 && IsWord(a[i - 1]))
       <==> exists n :: i <= n < |a| && (n == 0 || !IsWord(a[n - 1])) && CfgTestAt(a, n)
    decreases |a| - i
  {
    hide CfgTestHere, CfgTestAt, IsWord;
    if i < |a| {
      CfgHereIff(a, i);
      CfgInIff(a, i + 1);
      assert a[i..][1..] == a[i + 1..];
    }
  }

  /** The scanner's test agrees with the text, for every list of attributes. */
  lemma CfgTestIff(attrs: seq<string>)
    ensures CfgTest(attrs) <==> exists k :: 0 <= k < |attrs| && SaysCfgTest(attrs[k])
  {
    forall k | 0 <= k < |attrs| ensures CfgTestIn(attrs[k], false) <==> SaysCfgTest(attrs[k]) {
      CfgInIff(attrs[k], 0);
      assert attrs[k][0..] == attrs[k];
    }
    hide CfgTestIn, SaysCfgTest;
  }
}
