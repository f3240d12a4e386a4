/**
  Where inline spans stand, told from the characters of the text alone: the markers of a span,
  its text between them, and what the text may not hold for the closing marker to be the first.
 */
module InlineText {
  import opened Wrappers
  import opened InlineSpans

  /** Stars in `t` come in pairs. */
  predicate Paired(t: string)
    decreases |t|
  {
    t == "" ||
    if t[0] != '*' then Paired(t[1..])
    else |t| >= 2 && t[1] == '*' && Paired(t[2..])
  }

  /** `u` begins with the text `m`. */
  predicate Begins(u: string, m: string) {
    |m| <= |u| && u[..|m|] == m
  }

  /** Two stars first stand together in `t` and the two stars behind it where `t` ends. */
  predicate NoDouble(t: string) {
    forall k: nat :: k < |t| ==> !DoubleAt(t, k)
  }

  predicate DoubleAt(t: string, k: nat)
    requires k < |t|
  {
    t[k] == '*' && (k + 1 == |t| || t[k + 1] == '*')
  }

  predicate Lacks(t: string, c: char) {
    forall k :: 0 <= k < |t| ==> t[k] != c && t[k] != '\n'
  }

  /** The text `u` begins with the span `s`. */
  predicate Opens(u: string, s: Span) {
    match s
    case Bold(t) => Begins(u, "**" + t + "**") && NoDouble(t)
    case Italic(t) =>
      && Begins(u, "*" + t + "*") && t != "" && t[0] != '*' && Paired(t)
      && (|u| == |t| + 2 || u[|t| + 2] != '*')
    case Code(t) => Begins(u, "`" + t + "`") && Lacks(t, '`')
    case Link(t, url) => Begins(u, "[" + t + "](" + url + ")") && Lacks(t, ']') && Lacks(url, ')')
    case Text(_) => false
  }

  lemma Parts(chars: string, i: nat, open: string, t: string, close: string)
    requires i <= |chars|
    ensures Begins(chars[i..], open + t + close) <==>
      && i + |open| + |t| + |close| <= |chars|
      && chars[i..i + |open|] == open && chars[i + |open|..i + |open| + |t|] == t
      && chars[i + |open| + |t|..i + |open| + |t| + |close|] == close
  {
    var u, m := chars[i..], open + t + close;
    if i + |m| <= |chars| {
      var a, b, c := chars[i..i + |open|], chars[i + |open|..i + |open| + |t|], chars[i + |open| + |t|..i + |m|];
      assert u[..|m|] == a + b + c;
      if u[..|m|] == m {
        assert a == (a + b + c)[..|open|] && b == (a + b + c)[|open|..|open| + |t|] && c == (a + b + c)[|open| + |t|..];
        assert open == m[..|open|] && t == m[|open|..|open| + |t|] && close == m[|open| + |t|..];
      }
    }
  }

  lemma OneChar(chars: string, i: nat, c: char)
    ensures (i < |chars| && chars[i] == c) <==> (i + 1 <= |chars| && chars[i..i + 1] == [c])
  {
  }

  lemma TwoChars(chars: string, i: nat)
    ensures IsDouble(chars, i) <==> (i + 2 <= |chars| && chars[i..i + 2] == "**")
  {
    if i + 2 <= |chars| { assert chars[i..i + 2] == [chars[i], chars[i + 1]] && "**" == ['*', '*']; }
  }

  // ---------- bold ----------

  lemma DoublesIn(chars: string, start: nat, j: nat)
    requires start <= j && IsDouble(chars, j)
    ensures NoDouble(chars[start..j]) <==> forall k :: start <= k < j ==> !IsDouble(chars, k)
  {
    var t := chars[start..j];
    forall k: nat | k < |t| ensures DoubleAt(t, k) <==> IsDouble(chars, start + k) {
      assert t[k] == chars[start + k];
      if k + 1 < |t| { assert t[k + 1] == chars[start + (k + 1)]; }
    }
    hide DoubleAt, IsDouble;
    if NoDouble(t) {
      forall k | start <= k < j ensures !IsDouble(chars, k) { assert !DoubleAt(t, k - start); }
    }
    if forall k :: start <= k < j ==> !IsDouble(chars, k) {
      forall k: nat | k < |t| ensures !DoubleAt(t, k) { assert !IsDouble(chars, start + k); }
    }
  }

  lemma BoldIff(chars: string, i: nat, t: string)
    requires i <= |chars|
    ensures SpanAt(chars, i, Bold(t)) <==> Opens(chars[i..], Bold(t))
  {
    var j := i + 2 + |t|;
    Parts(chars, i, "**", t, "**");
    TwoChars(chars, i);
    TwoChars(chars, j);
    hide Begins;
    if j + 2 <= |chars| && chars[i + 2..j] == t && IsDouble(chars, j) {
      DoublesIn(chars, i + 2, j);
    }
  }

  // ---------- code and links ----------

  /** A closing character is the first exactly when the text before it has none and no line feed. */
  lemma CharEndIff(chars: string, start: nat, c: char, t: string)
    requires start <= |chars| && c != '\n'
    ensures IsCharEnd(chars, start, c, start + |t|) && chars[start..start + |t|] == t
       <==> start + |t| + 1 <= |chars| && chars[start..start + |t|] == t && chars[start + |t|..start + |t| + 1] == [c] && Lacks(t, c)
  {
    var j := start + |t|;
    OneChar(chars, j, c);
    if j < |chars| && chars[start..j] == t {
      forall k | 0 <= k < |t| ensures t[k] == chars[start + k] { assert chars[start..j][k] == chars[start + k]; }
      if Lacks(t, c) {
        forall k | start <= k < j ensures chars[k] != c && chars[k] != '\n' { assert t[k - start] == chars[start + (k - start)]; }
      }
    }
  }

  lemma CodeIff(chars: string, i: nat, t: string)
    requires i <= |chars|
    ensures SpanAt(chars, i, Code(t)) <==> Opens(chars[i..], Code(t))
  {
    Parts(chars, i, "`", t, "`");
    OneChar(chars, i, '`');
    hide Begins, IsCharEnd;
    if i < |chars| { CharEndIff(chars, i + 1, '`', t); }
  }

  lemma LinkIff(chars: string, i: nat, t: string, url: string)
    requires i <= |chars|
    ensures SpanAt(chars, i, Link(t, url)) <==> Opens(chars[i..], Link(t, url))
  {
    var j := i + 1 + |t|;
    var head := "[" + t + "](";
    assert "[" + t + "](" + url + ")" == head + url + ")";
    Parts(chars, i, head, url, ")");
    HeadIff(chars, i, t);
    hide Begins, IsCharEnd;
    if i < |chars| { CharEndIff(chars, i + 1, ']', t); }
    if j + 2 <= |chars| { CharEndIff(chars, j + 2, ')', url); }
  }

  lemma HeadIff(chars: string, i: nat, t: string)
    requires i <= |chars|
    ensures var j := i + 1 + |t|;
      (j + 2 <= |chars| && chars[i..j + 2] == "[" + t + "](") <==>
      (j + 1 < |chars| && chars[i] == '[' && chars[i + 1..j] == t && chars[j..j + 1] == "]" && chars[j + 1] == '(')
  {
    var j := i + 1 + |t|;
    if j + 2 <= |chars| {
      var a, b, c := chars[i..i + 1], chars[i + 1..j], chars[j..j + 2];
      assert chars[i..j + 2] == a + b + c;
      var m := "[" + t + "](";
      assert m[..1] == "[" && m[1..1 + |t|] == t && m[1 + |t|..] == "](";
      assert (a + b + c)[..1] == a && (a + b + c)[1..1 + |t|] == b && (a + b + c)[1 + |t|..] == c;
      assert c == [chars[j], chars[j + 1]] && a == [chars[i]] && "](" == [']', '('];
    }
  }

  // ---------- italic ----------

  lemma {:induction false} PairedIsFirst(chars: string, start: nat, p: nat, j: nat)
    requires start <= p <= j < |chars| && StarsBefore(chars, start, p) % 2 == 0
    requires forall k :: start <= k < p ==> !IsSingle(chars, start, k)
    requires Paired(chars[p..j]) && chars[j] == '*' && !IsDouble(chars, j)
    ensures IsFirstSingle(chars, start, j)
    decreases j - p
  {
    if p < j {
      var t := chars[p..j];
      assert t[0] == chars[p];
      if t[0] != '*' {
        assert t[1..] == chars[p + 1..j];
        PairedIsFirst(chars, start, p + 1, j);
      } else {
        assert t[1] == chars[p + 1] && t[2..] == chars[p + 2..j];
        assert StarsBefore(chars, start, p + 1) == 1 + StarsBefore(chars, start, p);
        assert StarsBefore(chars, start, p + 2) == 2 + StarsBefore(chars, start, p);
        PairedIsFirst(chars, start, p + 2, j);
      }
    }
  }

  lemma {:induction false} FirstIsPaired(chars: string, start: nat, p: nat, j: nat)
    requires start <= p <= j && IsFirstSingle(chars, start, j) && StarsBefore(chars, start, p) % 2 == 0
    ensures Paired(chars[p..j])
    decreases j - p
  {
    if p < j {
      var t := chars[p..j];
      assert t[0] == chars[p];
      if chars[p] != '*' {
        assert t[1..] == chars[p + 1..j];
        FirstIsPaired(chars, start, p + 1, j);
      } else {
        assert !IsSingle(chars, start, p) && IsDouble(chars, p);
        assert StarsBefore(chars, start, p + 1) == 1 + StarsBefore(chars, start, p);
        assert p + 1 < j;
        assert t[1] == chars[p + 1] && t[2..] == chars[p + 2..j];
        assert StarsBefore(chars, start, p + 2) == 2 + StarsBefore(chars, start, p);
        FirstIsPaired(chars, start, p + 2, j);
      }
    }
  }

  lemma SingleEndIff(chars: string, start: nat, j: nat)
    requires start <= j
    ensures IsFirstSingle(chars, start, j) <==> j < |chars| && chars[j] == '*' && !IsDouble(chars, j) && Paired(chars[start..j])
  {
    if IsFirstSingle(chars, start, j) { FirstIsPaired(chars, start, start, j); }
    if j < |chars| && chars[j] == '*' && !IsDouble(chars, j) && Paired(chars[start..j]) { PairedIsFirst(chars, start, start, j); }
  }

  lemma ItalicIff(chars: string, i: nat, t: string)
    requires i <= |chars|
    ensures SpanAt(chars, i, Italic(t)) <==> Opens(chars[i..], Italic(t))
  {
    var u, j := chars[i..], i + 1 + |t|;
    Parts(chars, i, "*", t, "*");
    OneChar(chars, i, '*');
    OneChar(chars, j, '*');
    hide Begins, IsFirstSingle;
    if j < |chars| {
      SingleEndIff(chars, i + 1, j);
      if j + 1 < |chars| { assert u[|t| + 2] == chars[j + 1]; }
      if chars[i + 1..j] == t && t != "" { assert chars[i + 1] == t[0] by { assert chars[i + 1..j][0] == chars[i + 1]; } }
    } else {
      SingleNeedsRoom(chars, i + 1, j);
    }
  }

  lemma SingleNeedsRoom(chars: string, start: nat, j: nat)
    requires j >= |chars|
    ensures !IsFirstSingle(chars, start, j)
  {
  }

  /** The span rules on characters, for every text, position and span. */
  lemma SpanAtIff(chars: string, i: nat, s: Span)
    requires i <= |chars|
    ensures SpanAt(chars, i, s) <==> Opens(chars[i..], s)
  {
    hide SpanAt, Opens;
    match s
    case Bold(t) => BoldIff(chars, i, t);
    case Italic(t) => ItalicIff(chars, i, t);
    case Code(t) => CodeIff(chars, i, t);
    case Link(t, url) => LinkIff(chars, i, t, url);
    case Text(t) => NoTextOpens(chars, i, t);
  }

  lemma NoTextOpens(chars: string, i: nat, t: string)
    requires i <= |chars|
    ensures !SpanAt(chars, i, Text(t)) && !Opens(chars[i..], Text(t))
  {
  }
}
