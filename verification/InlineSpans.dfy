/**
  Inline markdown (`crates/cli/src/renderer.rs`, `parse_inline_spans`): bold, italic, code and
  link spans in a line of text.

  `Tokenises` says what a tokenisation is, without a scanning order: spans that stand where a
  span starts, and plain text between them in which no span starts. There is exactly one, the
  loop finds it, and putting the markers back gives the text.
 */
module InlineSpans {
  import opened Wrappers

  datatype Span =
    | Bold(text: string)
    | Italic(text: string)
    | Code(text: string)
    | Link(text: string, url: string)
    | Text(text: string)

  /** A span with its markers. */
  function Marked(s: Span): string {
    match s
    case Bold(t) => "**" + t + "**"
    case Italic(t) => "*" + t + "*"
    case Code(t) => "`" + t + "`"
    case Link(t, url) => "[" + t + "](" + url + ")"
    case Text(t) => t
  }

  function AllMarked(spans: seq<Span>): string {
    if spans == [] then "" else Marked(spans[0]) + AllMarked(spans[1..])
  }

  // ---------- where spans stand ----------

  predicate IsDouble(chars: string, j: nat) {
    j + 1 < |chars| && chars[j] == '*' && chars[j + 1] == '*'
  }

  predicate IsFirstDouble(chars: string, start: nat, j: nat) {
    start <= j && IsDouble(chars, j) && forall k :: start <= k < j ==> !IsDouble(chars, k)
  }

  /** How many stars stand directly before `j`, from `start` on. */
  function StarsBefore(chars: string, start: nat, j: nat): nat
    requires start <= j <= |chars|
    decreases j
  {
    if j > start && chars[j - 1] == '*' then 1 + StarsBefore(chars, start, j - 1) else 0
  }

  /** The last star of a run of oddly many, counted from `start`. */
  predicate IsSingle(chars: string, start: nat, j: nat)
    requires start <= j
  {
    j < |chars| && chars[j] == '*' && !IsDouble(chars, j) && StarsBefore(chars, start, j) % 2 == 0
  }

  predicate IsFirstSingle(chars: string, start: nat, j: nat) {
    start <= j && IsSingle(chars, start, j) && forall k :: start <= k < j ==> !IsSingle(chars, start, k)
  }

  /** The first `c` from `start` on, with no line feed on the way. */
  predicate IsCharEnd(chars: string, start: nat, c: char, j: nat) {
    start <= j < |chars| && chars[j] == c && forall k :: start <= k < j ==> chars[k] != c && chars[k] != '\n'
  }

  /** The span `s` stands at `i`: its markers are there and close at the first place they can. */
  predicate SpanAt(chars: string, i: nat, s: Span) {
    i < |chars| &&
    match s
    case Bold(t) =>
      var j := i + 2 + |t|;
      IsDouble(chars, i) && IsFirstDouble(chars, i + 2, j) && chars[i + 2..j] == t
    case Italic(t) =>
      var j := i + 1 + |t|;
      && chars[i] == '*' && !IsDouble(chars, i)
      && IsFirstSingle(chars, i + 1, j) && chars[i + 1..j] == t
    case Code(t) =>
      var j := i + 1 + |t|;
      chars[i] == '`' && IsCharEnd(chars, i + 1, '`', j) && chars[i + 1..j] == t
    case Link(t, url) =>
      var j := i + 1 + |t|;
      && chars[i] == '[' && IsCharEnd(chars, i + 1, ']', j) && chars[i + 1..j] == t
      && j + 1 < |chars| && chars[j + 1] == '('
      && IsCharEnd(chars, j + 2, ')', j + 2 + |url|) && chars[j + 2..j + 2 + |url|] == url
    case Text(_) => false
  }

  ghost predicate Starts(chars: string, i: nat) {
    exists s :: SpanAt(chars, i, s)
  }

  /** `s` can be the first token of the text from `i` on. */
  ghost predicate TokenAt(chars: string, i: nat, s: Span) {
    var end := i + |Marked(s)|;
    && end <= |chars| && chars[i..end] == Marked(s)
    && if s.Text? then
         i < end && (forall j :: i <= j < end ==> !Starts(chars, j)) && (end == |chars| || Starts(chars, end))
       else SpanAt(chars, i, s)
  }

  /** `spans` tokenise the text from `i` on. */
  ghost predicate Tokenises(chars: string, i: nat, spans: seq<Span>)
    decreases |spans|
  {
    if spans == [] then i == |chars|
    else TokenAt(chars, i, spans[0]) && Tokenises(chars, i + |Marked(spans[0])|, spans[1..])
  }

  // ---------- there is one tokenisation ----------

  lemma Wrapped(chars: string, i: nat, open: string, t: string, close: string)
    requires i + |open| + |t| + |close| <= |chars|
    requires chars[i..i + |open|] == open && chars[i + |open|..i + |open| + |t|] == t
    requires chars[i + |open| + |t|..i + |open| + |t| + |close|] == close
    ensures chars[i..i + |open| + |t| + |close|] == open + t + close
  {
  }

  lemma SpanIsMarked(chars: string, i: nat, s: Span)
    requires SpanAt(chars, i, s)
    ensures i + |Marked(s)| <= |chars| && chars[i..i + |Marked(s)|] == Marked(s) && |Marked(s)| > 0
  {
    hide SpanAt;
    match s
    case Bold(t) => BoldIsMarked(chars, i, t);
    case Italic(t) => ItalicIsMarked(chars, i, t);
    case Code(t) => CodeIsMarked(chars, i, t);
    case Link(t, url) => LinkIsMarked(chars, i, t, url);
    case Text(t) => NoTextSpan(chars, i, t);
  }

  lemma BoldIsMarked(chars: string, i: nat, t: string)
    requires SpanAt(chars, i, Bold(t))
    ensures i + |t| + 4 <= |chars| && chars[i..i + |t| + 4] == "**" + t + "**"
  {
    var j := i + 2 + |t|;
    assert IsDouble(chars, i) && IsDouble(chars, j);
    assert chars[i..i + 2] == "**" && chars[j..j + 2] == "**";
    Wrapped(chars, i, "**", t, "**");
  }

  lemma ItalicIsMarked(chars: string, i: nat, t: string)
    requires SpanAt(chars, i, Italic(t))
    ensures i + |t| + 2 <= |chars| && chars[i..i + |t| + 2] == "*" + t + "*"
  {
    assert IsSingle(chars, i + 1, i + 1 + |t|);
    Wrapped(chars, i, "*", t, "*");
  }

  lemma CodeIsMarked(chars: string, i: nat, t: string)
    requires SpanAt(chars, i, Code(t))
    ensures i + |t| + 2 <= |chars| && chars[i..i + |t| + 2] == "`" + t + "`"
  {
    Wrapped(chars, i, "`", t, "`");
  }

  lemma LinkIsMarked(chars: string, i: nat, t: string, url: string)
    requires SpanAt(chars, i, Link(t, url))
    ensures i + |t| + |url| + 4 <= |chars| && chars[i..i + |t| + |url| + 4] == "[" + t + "](" + url + ")"
  {
    var j := i + 1 + |t|;
    assert chars[j..j + 2] == "](";
    Wrapped(chars, i, "[", t, "](");
    var open := "[" + t + "](";
    assert i + |open| == j + 2 && chars[i..j + 2] == open;
    assert chars[j + 2..j + 2 + |url|] == url && chars[j + 2 + |url|..j + 3 + |url|] == ")";
    hide IsCharEnd;
    Wrapped(chars, i, open, url, ")");
  }

  lemma SpanIsUnique(chars: string, i: nat, a: Span, b: Span)
    requires SpanAt(chars, i, a) && SpanAt(chars, i, b)
    ensures a == b
  {
    assert IsDouble(chars, i) ==> chars[i] == '*';
    hide IsSingle, IsDouble;
    if a.Bold? && b.Bold? {
      assert |a.text| == |b.text|;
    } else if a.Italic? && b.Italic? {
      assert |a.text| == |b.text|;
    } else if a.Code? && b.Code? {
      assert |a.text| == |b.text|;
    } else if a.Link? && b.Link? {
      assert |a.text| == |b.text|;
      assert |a.url| == |b.url|;
    }
  }

  lemma {:induction false} TokenisationIsUnique(chars: string, i: nat, a: seq<Span>, b: seq<Span>)
    requires Tokenises(chars, i, a) && Tokenises(chars, i, b)
    ensures a == b
    decreases |a|
  {
    hide TokenAt, Marked;
    if a == [] || b == [] {
      if a != [] { TokenIsNotEmpty(chars, i, a[0]); }
      if b != [] { TokenIsNotEmpty(chars, i, b[0]); }
    } else {
      TokenIsUnique(chars, i, a[0], b[0]);
      TokenisationIsUnique(chars, i + |Marked(a[0])|, a[1..], b[1..]);
      assert a == [a[0]] + a[1..] && b == [b[0]] + b[1..];
    }
  }

  lemma TokenIsNotEmpty(chars: string, i: nat, s: Span)
    requires TokenAt(chars, i, s)
    ensures i < |chars|
  {
    if !s.Text? { SpanIsMarked(chars, i, s); }
  }

  lemma TokenIsUnique(chars: string, i: nat, a: Span, b: Span)
    requires TokenAt(chars, i, a) && TokenAt(chars, i, b)
    ensures a == b
  {
    hide SpanAt, Starts;
    if !a.Text? { StartsHere(chars, i, a); }
    if !b.Text? { StartsHere(chars, i, b); }
    if a.Text? && b.Text? {
      var m, n := i + |a.text|, i + |b.text|;
      assert !(m < n) && !(n < m);
    } else if !a.Text? && !b.Text? {
      SpanIsUnique(chars, i, a, b);
    }
  }

  lemma StartsHere(chars: string, i: nat, s: Span)
    requires SpanAt(chars, i, s)
    ensures Starts(chars, i)
  {
  }

  /** Putting the markers back gives the text. */
  lemma {:induction false} TokenisationIsLossless(chars: string, i: nat, spans: seq<Span>)
    requires Tokenises(chars, i, spans)
    ensures i <= |chars| && AllMarked(spans) == chars[i..]
    decreases |spans|
  {
    hide SpanAt, Starts, Marked;
    if spans == [] {
      assert chars[i..] == "";
    } else {
      var end := i + |Marked(spans[0])|;
      TokenisationIsLossless(chars, end, spans[1..]);
      assert chars[i..] == chars[i..end] + chars[end..];
    }
  }

  // ---------- finding the end of a span ----------

  method FindDoubleStarEnd(chars: string, start: nat) returns (r: Option<nat>)
    ensures r.Some? ==> IsFirstDouble(chars, start, r.value)
    ensures r.None? ==> forall k :: start <= k ==> !IsDouble(chars, k)
  {
    var i := start;
    while i + 1 < |chars|
      invariant start <= i
      invariant forall k :: start <= k < i ==> !IsDouble(chars, k)
    {
      if chars[i] == '*' && chars[i + 1] == '*' { return Some(i); }
      i := i + 1;
    }
    return None;
  }

  method FindSingleStarEnd(chars: string, start: nat) returns (r: Option<nat>)
    requires start <= |chars|
    ensures r.Some? ==> IsFirstSingle(chars, start, r.value)
    ensures r.None? ==> forall k :: start <= k ==> !IsSingle(chars, start, k)
  {
    var i := start;
    while i < |chars|
      invariant start <= i <= |chars| && StarsBefore(chars, start, i) % 2 == 0
      invariant forall k :: start <= k < i ==> !IsSingle(chars, start, k)
    {
      if chars[i] == '*' {
        if i + 1 < |chars| && chars[i + 1] == '*' {
          PairPassed(chars, start, i);
          i := i + 2;
          continue;
        }
        return Some(i);
      }
      i := i + 1;
    }
    return None;
  }

  lemma PairPassed(chars: string, start: nat, i: nat)
    requires start <= i && IsDouble(chars, i) && StarsBefore(chars, start, i) % 2 == 0
    ensures StarsBefore(chars, start, i + 2) % 2 == 0
    ensures !IsSingle(chars, start, i) && !IsSingle(chars, start, i + 1)
  {
    assert StarsBefore(chars, start, i + 1) == 1 + StarsBefore(chars, start, i);
    assert StarsBefore(chars, start, i + 2) == 2 + StarsBefore(chars, start, i);
  }

  method FindCharEnd(chars: string, start: nat, c: char) returns (r: Option<nat>)
    ensures r.Some? ==> IsCharEnd(chars, start, c, r.value)
    ensures r.None? ==> forall k :: !IsCharEnd(chars, start, c, k)
  {
    var i := start;
    while i < |chars|
      invariant start <= i
      invariant forall k :: start <= k < i && k < |chars| ==> chars[k] != c && chars[k] != '\n'
    {
      if chars[i] == c { return Some(i); }
      if chars[i] == '\n' { return None; }
      i := i + 1;
    }
    return None;
  }

  // ---------- extracting one span ----------

  method ExtractBold(chars: string, start: nat) returns (next: nat, r: Option<string>)
    requires start < |chars|
    ensures r.Some? ==> SpanAt(chars, start, Bold(r.value)) && next == start + |r.value| + 4
    ensures r.None? ==> next == start && forall t :: !SpanAt(chars, start, Bold(t))
  {
    if start + 1 < |chars| && chars[start] == '*' && chars[start + 1] == '*' {
      var end := FindDoubleStarEnd(chars, start + 2);
      if end.Some? { return end.value + 2, Some(chars[start + 2..end.value]); }
    }
    return start, None;
  }

  method ExtractItalic(chars: string, start: nat) returns (next: nat, r: Option<string>)
    requires start < |chars|
    ensures r.Some? ==> SpanAt(chars, start, Italic(r.value)) && next == start + |r.value| + 2
    ensures r.None? ==> next == start && forall t :: !SpanAt(chars, start, Italic(t))
  {
    if chars[start] == '*' && (start + 1 >= |chars| || chars[start + 1] != '*') {
      var end := FindSingleStarEnd(chars, start + 1);
      if end.Some? { return end.value + 1, Some(chars[start + 1..end.value]); }
    }
    return start, None;
  }

  method ExtractCode(chars: string, start: nat) returns (next: nat, r: Option<string>)
    requires start < |chars|
    ensures r.Some? ==> SpanAt(chars, start, Code(r.value)) && next == start + |r.value| + 2
    ensures r.None? ==> next == start && forall t :: !SpanAt(chars, start, Code(t))
  {
    if chars[start] == '`' {
      var end := FindCharEnd(chars, start + 1, '`');
      if end.Some? { return end.value + 1, Some(chars[start + 1..end.value]); }
    }
    return start, None;
  }

  method ExtractLink(chars: string, start: nat) returns (next: nat, r: Option<(string, string)>)
    requires start < |chars|
    ensures r.Some? ==> SpanAt(chars, start, Link(r.value.0, r.value.1)) && next == start + |r.value.0| + |r.value.1| + 4
    ensures r.None? ==> next == start && forall t, url :: !SpanAt(chars, start, Link(t, url))
  {
    if chars[start] == '[' {
      var bracket := FindCharEnd(chars, start + 1, ']');
      if bracket.Some? {
        var j := bracket.value;
        if j + 1 < |chars| && chars[j + 1] == '(' {
          var paren := FindCharEnd(chars, j + 2, ')');
          if paren.Some? {
            return paren.value + 1, Some((chars[start + 1..j], chars[j + 2..paren.value]));
          }
        }
        var from := start + 1;
        assert forall k :: IsCharEnd(chars, from, ']', k) ==> k == j;
      }
    }
    return start, None;
  }

  /** The four attempts at one position, in the order of the loop. */
  method ExtractSpan(chars: string, i: nat) returns (next: nat, r: Option<Span>)
    requires i < |chars|
    ensures r.Some? ==> SpanAt(chars, i, r.value) && next == i + |Marked(r.value)|
    ensures r.None? ==> next == i && !Starts(chars, i)
  {
    hide SpanAt;
    var newI, bold := ExtractBold(chars, i);
    if bold.Some? { return newI, Some(Bold(bold.value)); }
    var italic;
    newI, italic := ExtractItalic(chars, i);
    if italic.Some? { return newI, Some(Italic(italic.value)); }
    var code;
    newI, code := ExtractCode(chars, i);
    if code.Some? { return newI, Some(Code(code.value)); }
    var link;
    newI, link := ExtractLink(chars, i);
    if link.Some? { return newI, Some(Link(link.value.0, link.value.1)); }
    forall s: Span ensures !SpanAt(chars, i, s) {
      if s.Text? { NoTextSpan(chars, i, s.text); }
    }
    return i, None;
  }

  lemma NoTextSpan(chars: string, i: nat, t: string)
    ensures !SpanAt(chars, i, Text(t))
  {
  }

  // ---------- the loop ----------

  /** Whatever tokenises the text from `k` on, `spans` in front of it tokenise the whole text. */
  ghost predicate LeadsTo(chars: string, spans: seq<Span>, k: nat) {
    forall rest :: Tokenises(chars, k, rest) ==> Tokenises(chars, 0, spans + rest)
  }

  lemma LeadsOn(chars: string, spans: seq<Span>, k: nat, s: Span)
    requires LeadsTo(chars, spans, k) && TokenAt(chars, k, s)
    ensures LeadsTo(chars, spans + [s], k + |Marked(s)|)
  {
    hide Marked, TokenAt;
    var end := k + |Marked(s)|;
    forall rest | Tokenises(chars, end, rest) ensures Tokenises(chars, 0, spans + [s] + rest) {
      assert ([s] + rest)[1..] == rest;
      assert Tokenises(chars, k, [s] + rest);
      hide Tokenises;
      assert spans + [s] + rest == spans + ([s] + rest);
    }
  }

  lemma SpanIsToken(chars: string, i: nat, s: Span)
    requires SpanAt(chars, i, s)
    ensures TokenAt(chars, i, s) && |Marked(s)| > 0 && i + |Marked(s)| <= |chars|
  {
    SpanIsMarked(chars, i, s);
    assert !s.Text?;
    hide SpanAt;
  }

  method FlushText(chars: string, spans: seq<Span>, start: nat, end: nat) returns (r: seq<Span>)
    requires start <= end <= |chars|
    ensures r == if start < end then spans + [Text(chars[start..end])] else spans
  {
    r := spans;
    if start < end { r := spans + [Text(chars[start..end])]; }
  }

  /** Text up to the end or to the next span, flushed. */
  lemma LeadsByText(chars: string, spans: seq<Span>, start: nat, end: nat)
    requires start <= end <= |chars| && LeadsTo(chars, spans, start)
    requires (forall j :: start <= j < end ==> !Starts(chars, j)) && (end == |chars| || Starts(chars, end))
    ensures LeadsTo(chars, if start < end then spans + [Text(chars[start..end])] else spans, end)
  {
    hide Starts, LeadsTo;
    if start < end {
      assert TokenAt(chars, start, Text(chars[start..end]));
      LeadsOn(chars, spans, start, Text(chars[start..end]));
    }
  }

  method ParseInlineSpans(chars: string) returns (spans: seq<Span>)
    ensures Tokenises(chars, 0, spans) && AllMarked(spans) == chars
  {
    hide Tokenises, SpanAt, Starts, Marked, AllMarked, TokenAt;
    spans := [];
    var i, textStart := 0, 0;
    LeadsNowhere(chars);
    while i < |chars|
      invariant 0 <= textStart <= i <= |chars|
      invariant LeadsTo(chars, spans, textStart)
      invariant forall j :: textStart <= j < i ==> !Starts(chars, j)
    {
      var next, span := ExtractSpan(chars, i);
      if span.Some? {
        SpanIsToken(chars, i, span.value);
        StartsHere(chars, i, span.value);
        LeadsByText(chars, spans, textStart, i);
        spans := FlushText(chars, spans, textStart, i);
        LeadsOn(chars, spans, i, span.value);
        spans := spans + [span.value];
        i := next;
        textStart := i;
      } else {
        i := i + 1;
      }
    }
    LeadsByText(chars, spans, textStart, |chars|);
    spans := FlushText(chars, spans, textStart, |chars|);
    NothingLeft(chars);
    assert spans + [] == spans;
    TokenisationIsLossless(chars, 0, spans);
    assert chars[0..] == chars;
  }

  lemma LeadsNowhere(chars: string)
    ensures LeadsTo(chars, [], 0)
  {
    hide Tokenises;
    forall rest | Tokenises(chars, 0, rest) ensures Tokenises(chars, 0, [] + rest) {
      assert [] + rest == rest;
    }
  }

  lemma NothingLeft(chars: string)
    ensures Tokenises(chars, |chars|, [])
  {
  }
}
