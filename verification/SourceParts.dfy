/**
  The inside of attributes and of statements as it is written in Rust: blanks and comments,
  string and character literals with escapes, lifetimes, brackets that match, and any other
  characters. The scanner passes over each part as a whole.
 */
module SourceParts {
  import opened Wrappers
  import opened Chars
  import opened UseTree
  import opened ItemScan
  import opened ScanSteps

  datatype Bracket = Round | Square | Curly

  datatype BodyPart =
    | Char(c: char)
    | Literal(text: string)
    | Letter(c: char)
    | Escape(c: char, text: string)
    | Quote
    | Aside(gap: Gap)
    | Nest(kind: Bracket, parts: BodyParts)

  datatype BodyParts = NoParts | Part(head: BodyPart, tail: BodyParts)

  function Opening(k: Bracket): string { match k case Round => "(" case Square => "[" case Curly => "{" }

  function Closing(k: Bracket): string { match k case Round => ")" case Square => "]" case Curly => "}" }

  function PrintPart(p: BodyPart): string {
    match p
    case Char(c) => [c]
    case Literal(text) => "\"" + (text + "\"")
    case Letter(c) => ['\'', c, '\'']
    case Escape(c, text) => ['\'', '\\', c] + (text + "'")
    case Quote => "'"
    case Aside(gap) => PrintGap(gap)
    case Nest(k, parts) => Opening(k) + (PrintParts(parts) + Closing(k))
  }

  function PrintParts(ps: BodyParts): string {
    match ps
    case NoParts => ""
    case Part(p, rest) => PrintPart(p) + PrintParts(rest)
  }

  // ---------- what is well formed ----------

  /** Comment text `level` deep whose inner comments are closed, with no half of a mark at its end. */
  predicate CommentText(level: nat, text: string)
    decreases |text|
  {
    if text == "" then level == 1
    else if |text| >= 2 && text[0] == '/' && text[1] == '*' then CommentText(level + 1, text[2..])
    else if |text| >= 2 && text[0] == '*' && text[1] == '/' then level > 1 && CommentText(level - 1, text[2..])
    else text != "/" && CommentText(level, text[1..])
  }

  predicate Flat(g: Gap) {
    match g
    case Blank(c) => c in {' ', '\t', '\r', '\n'}
    case LineComment(text) => forall i :: 0 <= i < |text| ==> text[i] != '\n'
    case BlockComment(text) => CommentText(1, text)
  }

  ghost predicate AllFlat(gs: seq<Gap>) {
    forall i :: 0 <= i < |gs| ==> Flat(gs[i])
  }

  /** The text of a string literal: quotes only behind a backslash. */
  predicate StringText(text: string)
    decreases |text|
  {
    text == "" ||
    if text[0] == '\\' then |text| >= 2 && StringText(text[2..])
    else text[0] != '"' && StringText(text[1..])
  }

  predicate NoQuote(text: string) {
    forall i :: 0 <= i < |text| ==> text[i] != '\''
  }

  /** A slash in front of `q` starts no comment, whatever follows `q`. */
  predicate SlashFits(q: string) {
    q != "" && q[0] != '/' && q[0] != '*'
  }

  /** A quote in front of `q` starts no character literal, whatever follows `q`. */
  predicate QuoteFits(q: string) {
    |q| >= 2 && q[0] != '\\' && q[1] != '\''
  }

  predicate IsBracket(c: char) {
    c in {'(', ')', '[', ']', '{', '}'}
  }

  /** `p` is a part in front of the text `q`; a semicolon must be inside brackets or an attribute. */
  ghost predicate PartOk(p: BodyPart, nested: bool, q: string) {
    match p
    case Char(c) =>
      c != '"' && c != '\'' && !IsBracket(c) && (c == ';' ==> nested) && (c == '/' ==> SlashFits(q))
    case Literal(text) => StringText(text)
    case Letter(c) => c != '\\'
    case Escape(_, text) => NoQuote(text)
    case Quote => QuoteFits(q)
    case Aside(gap) => Flat(gap)
    case Nest(k, parts) => PartsOk(parts, true, Closing(k) + q)
  }

  ghost predicate PartsOk(ps: BodyParts, nested: bool, q: string) {
    match ps
    case NoParts => true
    case Part(p, rest) => PartOk(p, nested, PrintParts(rest) + q) && PartsOk(rest, nested, q)
  }

  // ---------- comments and literals ----------

  lemma {:induction false} CommentRestOf(level: nat, text: string, r: string)
    requires CommentText(level, text) && level > 0
    ensures CommentRest(level, text + ("*/" + r)) == r
    decreases |text|
  {
    hide CommentRest;
    var end := "*/" + r;
    CommentStep(level, text + end);
    CommentHead(text, end);
    if text == "" {
      assert text + end == end && end[2..] == r;
      CommentEnds(0, r);
    } else if |text| >= 2 && text[0] == '/' && text[1] == '*' {
      CommentRestOf(level + 1, text[2..], r);
    } else if |text| >= 2 && text[0] == '*' && text[1] == '/' {
      CommentRestOf(level - 1, text[2..], r);
    } else {
      assert |text| == 1 ==> text == [text[0]];
      CommentRestOf(level, text[1..], r);
    }
  }

  lemma CommentHead(text: string, end: string)
    requires |end| >= 2 && end[0] == '*'
    ensures text != "" ==> (text + end)[0] == text[0] && (text + end)[1] == if |text| > 1 then text[1] else '*'
    ensures text != "" ==> (text + end)[1..] == text[1..] + end
    ensures |text| >= 2 ==> (text + end)[2..] == text[2..] + end
  {
  }

  lemma LineShape(text: string, r: string)
    requires Flat(LineComment(text))
    ensures var s := PrintGap(LineComment(text)) + r;
            StartsWith(s, "//") && LineRest(s) == "\n" + r && s[0] == '/'
  {
    var s := PrintGap(LineComment(text)) + r;
    TwoAre(s, "//");
    forall i | 0 <= i < |"//" + text| ensures ("//" + text)[i] != '\n' {
      if i >= 2 { assert ("//" + text)[i] == text[i - 2]; }
    }
    LineRestOf("//" + text, "\n" + r);
    assert s == ("//" + text) + ("\n" + r);
  }

  lemma BlockShape(text: string, r: string)
    requires Flat(BlockComment(text))
    ensures var s := PrintGap(BlockComment(text)) + r;
            StartsWith(s, "/*") && !StartsWith(s, "//") && s[0] == '/' && CommentRest(1, s[2..]) == r
  {
    var s := PrintGap(BlockComment(text)) + r;
    TwoAre(s, "//");
    TwoAre(s, "/*");
    CommentRestOf(1, text, r);
    assert s[2..] == text + ("*/" + r);
  }

  lemma {:induction false} StringRestOf(text: string, r: string)
    requires StringText(text)
    ensures StringRest(text + ("\"" + r)) == r
    decreases |text|
  {
    var s := text + ("\"" + r);
    if text == "" {
      assert s[1..] == r;
    } else if text[0] == '\\' {
      StringRestOf(text[2..], r);
      assert s[0] == text[0] && s[2..] == text[2..] + ("\"" + r);
    } else {
      StringRestOf(text[1..], r);
      assert s[0] == text[0] && s[1..] == text[1..] + ("\"" + r);
    }
  }

  lemma {:induction false} AfterOf(text: string, c: char, r: string)
    requires forall i :: 0 <= i < |text| ==> text[i] != c
    ensures After(text + ([c] + r), c) == Some(r)
  {
    var s := text + ([c] + r);
    if text == "" {
      assert s[0] == c && s[1..] == r;
    } else {
      AfterOf(text[1..], c, r);
      assert s[0] == text[0] && s[1..] == text[1..] + ([c] + r);
    }
  }

  lemma LetterRest(c: char, r: string)
    requires c != '\\'
    ensures CharRest(['\'', c, '\''] + r) == r
  {
    var s := ['\'', c, '\''] + r;
    assert s[1] == c && s[2] == '\'' && s[3..] == r;
  }

  lemma EscapeRest(c: char, text: string, r: string)
    requires NoQuote(text)
    ensures CharRest(['\'', '\\', c] + (text + ("'" + r))) == r
  {
    var s := ['\'', '\\', c] + (text + ("'" + r));
    assert s[1] == '\\' && s[3..] == text + (['\''] + r);
    AfterOf(text, '\'', r);
    assert ['\''] + r == "'" + r;
    hide After;
  }

  lemma QuoteRest(q: string, r: string)
    requires QuoteFits(q)
    ensures CharRest("'" + (q + r)) == q + r
  {
    var s := "'" + (q + r);
    assert s[1] == q[0] && s[2] == q[1] && s[1..] == q + r;
  }

  // ---------- the scanner at a part ----------

  /** A comment or a literal. */
  predicate IsAside(p: BodyPart) {
    p.Literal? || p.Letter? || p.Escape? || p.Quote? || (p.Aside? && !p.gap.Blank?)
  }

  /** What is left after such a part: a line comment leaves its line feed. */
  function Left(p: BodyPart, q: string): string {
    if p.Aside? && p.gap.LineComment? then "\n" + q else q
  }

  lemma QuoteStarts(s: string, c: char)
    requires s != "" && s[0] == c && (c == '"' || c == '\'')
    ensures AsideRest(s) == Some(if c == '"' then StringRest(s[1..]) else CharRest(s))
  {
    TwoAre(s, "//");
    TwoAre(s, "/*");
    hide StartsWith, StringRest, CharRest;
  }

  lemma AsideOf(p: BodyPart, nested: bool, q: string, r: string)
    requires PartOk(p, nested, q) && IsAside(p)
    ensures PrintPart(p) + (q + r) != "" && AsideRest(PrintPart(p) + (q + r)) == Some(Left(p, q + r))
  {
    hide AsideRest, StringRest, CharRest, LineRest, CommentRest, StringText, Flat, NoQuote, QuoteFits;
    var s := PrintPart(p) + (q + r);
    match p
    case Literal(text) =>
      StringRestOf(text, q + r);
      assert s[1..] == text + ("\"" + (q + r));
      QuoteStarts(s, '"');
    case Letter(c) =>
      LetterRest(c, q + r);
      QuoteStarts(s, '\'');
    case Escape(c, text) =>
      EscapeRest(c, text, q + r);
      assert s == ['\'', '\\', c] + (text + ("'" + (q + r)));
      QuoteStarts(s, '\'');
    case Quote =>
      QuoteRest(q, r);
      QuoteStarts(s, '\'');
    case Aside(gap) => CommentIsAside(gap, q + r);
  }

  lemma CommentIsAside(gap: Gap, q: string)
    requires Flat(gap) && !gap.Blank?
    ensures PrintGap(gap) + q != "" && AsideRest(PrintGap(gap) + q) == Some(Left(Aside(gap), q))
  {
    hide LineRest, CommentRest, Flat, PrintGap, StartsWith;
    match gap
    case LineComment(text) => LineShape(text, q);
    case BlockComment(text) => BlockShape(text, q);
  }

  /** A character that starts no comment and no literal. */
  lemma PlainChar(c: char, q: string, r: string)
    requires c != '"' && c != '\'' && (c == '/' ==> SlashFits(q))
    ensures AsideRest([c] + (q + r)) == None && ([c] + (q + r))[1..] == q + r
  {
    var s := [c] + (q + r);
    TwoAre(s, "//");
    TwoAre(s, "/*");
    assert c == '/' ==> s[1] == q[0];
    hide StartsWith;
  }

  lemma NestShape(k: Bracket, inner: string, q: string, r: string)
    ensures (Opening(k) + (inner + Closing(k))) + (q + r) == [Opening(k)[0]] + ("" + (inner + ((Closing(k) + q) + r)))
    ensures "" + (inner + ((Closing(k) + q) + r)) == inner + ((Closing(k) + q) + r)
    ensures (Closing(k) + q) + r == [Closing(k)[0]] + (q + r)
  {
    assert |Opening(k)| == 1 && |Closing(k)| == 1;
  }

  // ---------- attributes ----------

  lemma AttrChar(level: nat, c: char, q: string, r: string)
    requires level > 0 && c != '"' && c != '\'' && (c == '/' ==> SlashFits(q))
    ensures AttrRest(level, [c] + (q + r))
         == AttrRest(if c == '[' then level + 1 else if c == ']' then level - 1 else level, q + r)
  {
    hide AttrRest, AsideRest;
    AttrStep(level, [c] + (q + r));
    PlainChar(c, q, r);
  }

  lemma {:induction false} AttrOf(ps: BodyParts, level: nat, nested: bool, q: string, r: string)
    requires PartsOk(ps, nested, q) && level > 0
    ensures AttrRest(level, PrintParts(ps) + (q + r)) == AttrRest(level, q + r)
    decreases ps, 0
  {
    hide AttrRest;
    match ps
    case NoParts => assert PrintParts(ps) + (q + r) == q + r;
    case Part(p, rest) =>
      var q1 := PrintParts(rest) + q;
      assert PrintParts(ps) + (q + r) == PrintPart(p) + (q1 + r);
      assert q1 + r == PrintParts(rest) + (q + r);
      AttrOf(rest, level, nested, q, r);
      AttrPart(p, level, nested, q1, r);
  }

  lemma {:induction false} AttrPart(p: BodyPart, level: nat, nested: bool, q: string, r: string)
    requires PartOk(p, nested, q) && level > 0
    ensures AttrRest(level, PrintPart(p) + (q + r)) == AttrRest(level, q + r)
    decreases p, 0
  {
    hide AttrRest, AsideRest, PrintParts;
    if IsAside(p) {
      AsideOf(p, nested, q, r);
      AttrStep(level, PrintPart(p) + (q + r));
      if p.Aside? && p.gap.LineComment? {
        AttrChar(level, '\n', q, r);
        assert ['\n'] + (q + r) == "\n" + (q + r);
      }
    } else {
      match p
      case Char(c) => AttrChar(level, c, q, r);
      case Aside(gap) => AttrChar(level, gap.c, q, r);
      case Nest(k, parts) => AttrNest(k, parts, level, q, r);
    }
  }

  lemma {:induction false} AttrNest(k: Bracket, parts: BodyParts, level: nat, q: string, r: string)
    requires PartsOk(parts, true, Closing(k) + q) && level > 0
    ensures AttrRest(level, PrintPart(Nest(k, parts)) + (q + r)) == AttrRest(level, q + r)
    decreases parts, 1
  {
    hide AttrRest, PrintParts, PartsOk;
    var q1 := Closing(k) + q;
    var level' := if k.Square? then level + 1 else level;
    NestShape(k, PrintParts(parts), q, r);
    AttrChar(level, Opening(k)[0], "", PrintParts(parts) + (q1 + r));
    AttrOf(parts, level', true, q1, r);
    AttrChar(level', Closing(k)[0], q, r);
  }

  lemma AttrClosed(r: string)
    ensures AttrRest(1, "]" + r) == r
  {
    hide AttrRest;
    AttrChar(1, ']', "", r);
    assert [']'] + ("" + r) == "]" + r && "" + r == r;
    AttrEnds(0, r);
  }

  // ---------- statements ----------

  lemma CollectChar(a: int, b: int, c: int, x: char, q: string, r: string)
    requires x != '"' && x != '\'' && (x == '/' ==> SlashFits(q)) && !(x == ';' && a == b == c == 0)
    ensures CollectRest(a, b, c, [x] + (q + r))
         == CollectRest(a + Turn(x, '(', ')'), b + Turn(x, '[', ']'), c + Turn(x, '{', '}'), q + r)
  {
    hide CollectRest, AsideRest;
    CollectStep(a, b, c, [x] + (q + r));
    PlainChar(x, q, r);
  }

  /** Collecting passes over a balanced body, whatever brackets are open around it. */
  lemma {:induction false} CollectOf(ps: BodyParts, a: nat, b: nat, c: nat, q: string, r: string)
    requires PartsOk(ps, !(a == b == c == 0), q)
    ensures CollectRest(a, b, c, PrintParts(ps) + (q + r)) == CollectRest(a, b, c, q + r)
    decreases ps, 0
  {
    hide CollectRest;
    match ps
    case NoParts => assert PrintParts(ps) + (q + r) == q + r;
    case Part(p, rest) =>
      var q1 := PrintParts(rest) + q;
      assert PrintParts(ps) + (q + r) == PrintPart(p) + (q1 + r);
      assert q1 + r == PrintParts(rest) + (q + r);
      CollectOf(rest, a, b, c, q, r);
      CollectPart(p, a, b, c, q1, r);
  }

  lemma {:induction false} CollectPart(p: BodyPart, a: nat, b: nat, c: nat, q: string, r: string)
    requires PartOk(p, !(a == b == c == 0), q)
    ensures CollectRest(a, b, c, PrintPart(p) + (q + r)) == CollectRest(a, b, c, q + r)
    decreases p, 0
  {
    hide CollectRest, AsideRest, PrintParts;
    if IsAside(p) {
      AsideOf(p, !(a == b == c == 0), q, r);
      CollectStep(a, b, c, PrintPart(p) + (q + r));
      if p.Aside? && p.gap.LineComment? {
        CollectChar(a, b, c, '\n', q, r);
        assert ['\n'] + (q + r) == "\n" + (q + r);
      }
    } else {
      match p
      case Char(x) => CollectChar(a, b, c, x, q, r);
      case Aside(gap) => CollectChar(a, b, c, gap.c, q, r);
      case Nest(k, parts) => CollectNest(k, parts, a, b, c, q, r);
    }
  }

  lemma {:induction false} CollectNest(k: Bracket, parts: BodyParts, a: nat, b: nat, c: nat, q: string, r: string)
    requires PartsOk(parts, true, Closing(k) + q)
    ensures CollectRest(a, b, c, PrintPart(Nest(k, parts)) + (q + r)) == CollectRest(a, b, c, q + r)
    decreases parts, 1
  {
    hide CollectRest, PrintParts, PartsOk;
    var q1 := Closing(k) + q;
    var a', b', c' := if k.Round? then a + 1 else a, if k.Square? then b + 1 else b, if k.Curly? then c + 1 else c;
    NestShape(k, PrintParts(parts), q, r);
    CollectChar(a, b, c, Opening(k)[0], "", PrintParts(parts) + (q1 + r));
    CollectOf(parts, a', b', c', q1, r);
    CollectChar(a', b', c', Closing(k)[0], q, r);
  }

  /** A statement is collected up to the semicolon outside all brackets, comments and literals. */
  lemma StatementOf(st: State, kind: string, body: BodyParts, r: string)
    requires Balanced(st) && PartsOk(body, false, ";")
    ensures Statement(st, kind, PrintParts(body) + (";" + r)) == Next(AddItem(st, kind, Strip(PrintParts(body))), r)
  {
    hide PrintParts, Strip, AddItem, PartsOk, CollectRest;
    var text := PrintParts(body);
    CollectOf(body, 0, 0, 0, ";", r);
    CollectStep(0, 0, 0, ";" + r);
    PlainChar(';', "", r);
    assert [';'] + ("" + r) == ";" + r;
    assert (text + (";" + r))[..|text|] == text;
    assert (";" + r)[1..] == r;
  }
}
