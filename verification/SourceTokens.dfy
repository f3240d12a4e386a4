/**
  Rust source as a list of tokens with any blanks and comments between them, and what the item
  scanner makes of it. Tokens are words, numbers, symbols, literals, attributes, `pub` with and
  without a restriction, semicolons and blocks; two of them stand next to each other as soon as
  their characters do not run together.

  Of a list in which no token is recorded the scanner keeps nothing but the attributes and the
  visibility that are pending at its end: `RunToks`.
 */
module SourceTokens {
  import opened Wrappers
  import opened Chars
  import opened UseTree
  import opened ItemScan
  import opened ScanSteps
  import opened SourceParts
  import opened SourceText

  datatype Tok =
    | Word(pre: seq<Gap>, w: string)
    | Number(pre: seq<Gap>, w: string)
    | Sym(pre: seq<Gap>, c: char)
    | Str(pre: seq<Gap>, prefix: string, text: string)
    | CharLit(pre: seq<Gap>, c: char)
    | EscLit(pre: seq<Gap>, c: char, text: string)
    | AttrTok(pre: seq<Gap>, bang: bool, mid: seq<Gap>, parts: BodyParts)
    | Hash(pre: seq<Gap>, bang: bool, mid: seq<Gap>)
    | PubTok(pre: seq<Gap>, mid: seq<Gap>)
    | PubIn(pre: seq<Gap>, mid: seq<Gap>, inner: string)
    | ModTok(pre: seq<Gap>, mid: seq<Gap>)
    | ModName(pre: seq<Gap>, mid: seq<Gap>, name: string, post: seq<Gap>)
    | ExternTok(pre: seq<Gap>, mid: seq<Gap>)
    | Semi(pre: seq<Gap>)
    | Block(pre: seq<Gap>, toks: Toks, close: seq<Gap>)

  datatype Toks = NoToks | Tokens(head: Tok, tail: Toks)

  // ---------- printing ----------

  function PrintBang(bang: bool): string { if bang then "!" else "" }

  function AttrCore(bang: bool, mid: seq<Gap>, parts: BodyParts): string {
    "#" + (PrintBang(bang) + (PrintGaps(mid) + ("[" + (PrintParts(parts) + "]"))))
  }

  function PrintTok(t: Tok): string
    decreases t, 1
  {
    PrintGaps(t.pre) + TokCore(t)
  }

  /** A token without the gap in front of it. */
  function TokCore(t: Tok): string
    decreases t, 0
  {
    match t
    case Word(_, w) => w
    case Number(_, w) => w
    case Sym(_, c) => [c]
    case Str(_, prefix, text) => prefix + ("\"" + (text + "\""))
    case CharLit(_, c) => PrintPart(Letter(c))
    case EscLit(_, c, text) => PrintPart(Escape(c, text))
    case AttrTok(_, bang, mid, parts) => AttrCore(bang, mid, parts)
    case Hash(_, bang, mid) => "#" + (PrintBang(bang) + PrintGaps(mid))
    case PubTok(_, mid) => "pub" + PrintGaps(mid)
    case PubIn(_, mid, inner) => "pub" + (PrintGaps(mid) + ("(" + (inner + ")")))
    case ModTok(_, mid) => "mod" + PrintGaps(mid)
    case ModName(_, mid, name, post) => "mod" + (PrintGaps(mid) + (name + PrintGaps(post)))
    case ExternTok(_, mid) => "extern" + PrintGaps(mid)
    case Semi(_) => ";"
    case Block(_, toks, close) => "{" + (PrintToks(toks) + (PrintGaps(close) + "}"))
  }

  function PrintToks(ts: Toks): string
    decreases ts
  {
    match ts
    case NoToks => ""
    case Tokens(t, rest) => PrintTok(t) + PrintToks(rest)
  }

  // ---------- what may stand in front of what ----------

  /** Neither trivia nor the start of it, whatever follows. */
  predicate Ahead(q: string) {
    q != "" && !IsBlank(q[0]) && q[0] != '/'
  }

  /** A word and then the gap `gs` end before `q`. */
  predicate WordEnds(gs: seq<Gap>, q: string) {
    gs != [] || (q != "" && !IsWord(q[0]))
  }

  predicate CrateAhead(q: string) {
    q != "" && IsWordStart(q[0]) && q[..WordLength(q)] == "crate"
  }

  /** `t` is one token in front of the text `q`. */
  ghost predicate LexTok(t: Tok, q: string)
    decreases t
  {
    && AllFlat(t.pre)
    && match t
       case Word(_, w) =>
         && PlainIdent(w) && w !in {"pub", "mod", "extern"}
         && WordEnds([], q) && (w in {"r", "br", "b", "c", "cr"} ==> q[0] != '"')
       case Number(_, w) => w != "" && IsDigit(w[0]) && (forall i :: 0 <= i < |w| ==> IsWord(w[i])) && WordEnds([], q)
       case Sym(_, c) =>
         && !IsWord(c) && !IsBlank(c) && c !in {'"', '{', '}', ';', '#'}
         && (c == '/' ==> SlashFits(q)) && (c == '\'' ==> QuoteFits(q))
       case Str(_, prefix, text) => prefix in {"", "r", "br", "b", "c", "cr"} && StringText(text)
       case CharLit(_, c) => c != '\\'
       case EscLit(_, _, text) => NoQuote(text)
       case AttrTok(_, _, mid, parts) => AllFlat(mid) && PartsOk(parts, true, "]")
       case Hash(_, bang, mid) => AllFlat(mid) && Ahead(q) && q[0] != '[' && (!bang && mid == [] ==> q[0] != '!')
       case PubTok(_, mid) => AllFlat(mid) && WordEnds(mid, q) && Ahead(q) && q[0] != '('
       case PubIn(_, mid, inner) => AllFlat(mid) && forall i :: 0 <= i < |inner| ==> inner[i] != ')'
       case ModTok(_, mid) => AllFlat(mid) && WordEnds(mid, q) && Ahead(q) && !IsWordStart(q[0])
       case ModName(_, mid, name, post) =>
         AllFlat(mid) && mid != [] && PlainIdent(name) && AllFlat(post) && WordEnds(post, q) && Ahead(q)
       case ExternTok(_, mid) => AllFlat(mid) && WordEnds(mid, q) && Ahead(q) && WordLength(q) < |q|
       case Semi(_) => true
       case Block(_, toks, close) => AllFlat(close) && LexToks(toks, PrintGaps(close) + ("}" + q))
  }

  ghost predicate LexToks(ts: Toks, q: string)
    decreases ts
  {
    match ts
    case NoToks => true
    case Tokens(t, rest) => LexTok(t, PrintToks(rest) + q) && LexToks(rest, q)
  }

  // ---------- what the scanner keeps of a token ----------

  /** The token makes the scanner record a declaration. */
  predicate Records(t: Tok, q: string)
    decreases t
  {
    match t
    case Word(_, w) => w in {"use", "type", "struct", "enum", "union", "trait"}
    case ModName(_, _, _, _) => q != "" && (q[0] == '{' || q[0] == ';')
    case ExternTok(_, _) => CrateAhead(q)
    case Block(_, toks, close) => AnyRecords(toks, PrintGaps(close) + ("}" + q))
    case _ => false
  }

  predicate AnyRecords(ts: Toks, q: string)
    decreases ts
  {
    match ts
    case NoToks => false
    case Tokens(t, rest) => Records(t, PrintToks(rest) + q) || AnyRecords(rest, q)
  }

  /** The last token is a semicolon or a block, so nothing is pending after it. */
  predicate Ends(ts: Toks) {
    match ts
    case NoToks => false
    case Tokens(t, NoToks) => t.Semi? || t.Block?
    case Tokens(_, rest) => Ends(rest)
  }

  /** What is pending after a token that is not recorded. */
  function AfterTok(st: State, t: Tok): (r: State)
    ensures r.depth == st.depth && r.stack == st.stack && r.opens == st.opens
  {
    match t
    case Word(_, w) => if w in {"fn", "impl", "const", "static", "macro", "macro_rules"} then Pending(st) else st
    case AttrTok(_, _, _, parts) => st.(attrs := st.attrs + [Strip(PrintParts(parts))])
    case PubTok(_, _) => st.(pub := true)
    case PubIn(_, _, inner) => st.(pub := !SaysRestricted(inner))
    case Number(_, _) => st
    case Sym(_, _) => st
    case CharLit(_, _) => st
    case EscLit(_, _, _) => st
    case Hash(_, _, _) => st
    case ExternTok(_, _) => st
    case _ => Pending(st)
  }

  function AfterToks(st: State, ts: Toks): (r: State)
    ensures r.depth == st.depth && r.stack == st.stack && r.opens == st.opens
    decreases ts
  {
    match ts
    case NoToks => st
    case Tokens(t, rest) => AfterToks(AfterTok(st, t), rest)
  }

  /** The innermost module was opened no deeper than here. */
  predicate Settled(st: State) {
    Balanced(st) && st.opens[|st.opens| - 1] <= st.depth
  }

  lemma AfterTokSettled(st: State, t: Tok)
    requires Settled(st)
    ensures Settled(AfterTok(st, t)) && Pending(AfterTok(st, t)) == Pending(st)
  {
  }

  lemma {:induction false} AfterToksSettled(st: State, ts: Toks)
    requires Settled(st)
    ensures Settled(AfterToks(st, ts)) && Pending(AfterToks(st, ts)) == Pending(st)
    ensures Ends(ts) ==> AfterToks(st, ts) == Pending(st)
    decreases ts
  {
    hide Settled, AfterTok;
    match ts
    case NoToks =>
    case Tokens(t, rest) =>
      AfterTokSettled(st, t);
      AfterToksSettled(AfterTok(st, t), rest);
      if rest.NoToks? { EndPends(st, t); }
  }

  lemma EndPends(st: State, t: Tok)
    ensures t.Semi? || t.Block? ==> AfterTok(st, t) == Pending(st)
  {
  }

  // ---------- trivia ----------

  lemma TriviaGap(g: Gap, q: string)
    requires Flat(g)
    ensures SkipTrivia(PrintGap(g) + q) == SkipTrivia(q)
  {
    match g
    case Blank(c) => assert (PrintGap(g) + q)[1..] == q;
    case LineComment(text) =>
      LineShape(text, q);
      hide PrintGap, Flat, LineRest, CommentRest, StartsWith;
      assert ("\n" + q)[1..] == q && SkipTrivia("\n" + q) == SkipTrivia(q);
    case BlockComment(text) =>
      BlockShape(text, q);
      hide PrintGap, Flat, LineRest, CommentRest, StartsWith;
  }

  lemma {:induction false} TriviaGaps(gs: seq<Gap>, r: string)
    requires AllFlat(gs)
    ensures SkipTrivia(PrintGaps(gs) + r) == SkipTrivia(r)
  {
    hide SkipTrivia, Flat;
    if gs == [] {
      assert PrintGaps(gs) + r == r;
    } else {
      TriviaGaps(gs[1..], r);
      var q := PrintGaps(gs[1..]) + r;
      assert PrintGaps(gs) + r == PrintGap(gs[0]) + q;
      TriviaGap(gs[0], q);
    }
  }

  lemma TriviaSolid(r: string)
    requires Solid(r)
    ensures SkipTrivia(r) == r
  {
  }

  /** Behind a gap the scanner is at what follows, when that is no trivia. */
  lemma GapThen(gs: seq<Gap>, q: string, r: string)
    requires AllFlat(gs) && Ahead(q)
    ensures SkipTrivia(PrintGaps(gs) + (q + r)) == q + r
  {
    hide SkipTrivia, AllFlat;
    TriviaGaps(gs, q + r);
    SolidAhead(q, r);
    TriviaSolid(q + r);
  }

  lemma SolidAhead(q: string, r: string)
    requires Ahead(q)
    ensures Solid(q + r) && q + r != "" && (q + r)[0] == q[0]
  {
    TwoAre(q + r, "//");
    TwoAre(q + r, "/*");
  }

  /** `r` does not continue a word. */
  predicate Sep(r: string) {
    r == "" || !IsWord(r[0])
  }

  /** The gaps in front of `q`, and then `r`, do not continue a word. */
  lemma GapsSep(gs: seq<Gap>, q: string, r: string)
    requires AllFlat(gs) && WordEnds(gs, q)
    ensures PrintGaps(gs) + (q + r) != "" && Sep(PrintGaps(gs) + (q + r))
  {
    var s := PrintGaps(gs) + (q + r);
    if gs == [] {
      assert s[0] == q[0];
    } else {
      assert s[0] == PrintGap(gs[0])[0];
      assert gs[0].LineComment? || gs[0].BlockComment? ==> PrintGap(gs[0])[0] == '/';
    }
  }

  // ---------- one token after a gap ----------

  /** Gaps change nothing. */
  lemma RunGaps(st: State, gs: seq<Gap>, r: string)
    requires Balanced(st) && AllFlat(gs)
    ensures Run(st, PrintGaps(gs) + r) == Run(st, r)
  {
    hide Run, SkipTrivia, Token;
    TriviaGaps(gs, r);
    RunStep(st, PrintGaps(gs) + r);
    RunStep(st, r);
  }

  lemma RunAt(st: State, gs: seq<Gap>, s: string)
    requires Balanced(st) && AllFlat(gs) && s != "" && Solid(s)
    ensures Run(st, PrintGaps(gs) + s) == Run(Token(st, s).st, Token(st, s).rest)
  {
    hide Run, Token, SkipTrivia;
    RunGaps(st, gs, s);
    RunStep(st, s);
    TriviaSolid(s);
  }

  /** A character that is neither blank nor a slash starts no trivia. */
  lemma StartSolid(s: string)
    requires s != "" && !IsBlank(s[0]) && s[0] != '/'
    ensures Solid(s)
  {
    TwoAre(s, "//");
    TwoAre(s, "/*");
  }

  lemma WordToken(st: State, w: string, r: string)
    requires Balanced(st) && PlainIdent(w) && Sep(r) && (IsStringPrefix(w) ==> r == "" || r[0] != '"')
    ensures w + r != "" && Token(st, w + r) == Dispatch(st, w, r)
  {
    hide Dispatch, Attribute, CloseMods, StringRest, CharRest;
    WordLengthOf(w, r);
    assert (w + r)[0] == w[0] && (w + r)[..|w|] == w && (w + r)[|w|..] == r;
  }

  /** A word after a gap is dispatched on. */
  lemma RunWord(st: State, gs: seq<Gap>, w: string, r: string)
    requires Balanced(st) && AllFlat(gs) && PlainIdent(w) && Sep(r) && (IsStringPrefix(w) ==> r == "" || r[0] != '"')
    ensures Run(st, PrintGaps(gs) + (w + r)) == Run(Dispatch(st, w, r).st, Dispatch(st, w, r).rest)
  {
    hide Run, Token, Dispatch, AllFlat;
    assert (w + r)[0] == w[0];
    StartSolid(w + r);
    RunAt(st, gs, w + r);
    WordToken(st, w, r);
  }

  lemma ShortWords(w: string)
    requires w in {"pub", "use", "type", "extern", "mod", "crate"}
    ensures PlainIdent(w) && !IsStringPrefix(w)
  {
    assert |w| >= 3;
    assert forall i :: 0 <= i < |w| ==> 'a' <= w[i] <= 'z';
  }

  // ---------- tokens the scanner passes over ----------

  lemma PlainDispatch(st: State, w: string, r: string)
    requires Balanced(st) && w !in {"pub", "mod", "extern", "use", "type"} && !IsDefKind(w)
    ensures Dispatch(st, w, r) == Next(if IsItemKeyword(w) then Pending(st) else st, r)
  {
    hide Visibility, ModDecl, Statement, Definition, SkipTrivia;
  }

  lemma RunPlainWord(t: Tok, st: State, q: string, r: string)
    requires Settled(st) && LexTok(t, q) && t.Word? && !Records(t, q)
    ensures Run(st, PrintTok(t) + (q + r)) == Run(AfterTok(st, t), q + r)
  {
    hide Run, Dispatch, PrintGaps, AllFlat, PlainIdent;
    assert PrintTok(t) + (q + r) == PrintGaps(t.pre) + (t.w + (q + r));
    assert (q + r)[0] == q[0];
    RunWord(st, t.pre, t.w, q + r);
    PlainDispatch(st, t.w, q + r);
  }

  lemma RunNumber(t: Tok, st: State, q: string, r: string)
    requires Settled(st) && LexTok(t, q) && t.Number?
    ensures Run(st, PrintTok(t) + (q + r)) == Run(AfterTok(st, t), q + r)
  {
    hide Run, PrintGaps, AllFlat, Dispatch, Attribute, CloseMods, StringRest, CharRest;
    var s := t.w + (q + r);
    assert PrintTok(t) + (q + r) == PrintGaps(t.pre) + s;
    assert (q + r)[0] == q[0] && s[0] == t.w[0];
    WordLengthOf(t.w, q + r);
    assert s[|t.w|..] == q + r;
    StartSolid(s);
    RunAt(st, t.pre, s);
    hide WordLength;
  }

  lemma RunSym(t: Tok, st: State, q: string, r: string)
    requires Settled(st) && LexTok(t, q) && t.Sym?
    ensures Run(st, PrintTok(t) + (q + r)) == Run(AfterTok(st, t), q + r)
  {
    hide Run, PrintGaps, AllFlat, Dispatch, Attribute, CloseMods, StringRest, CharRest, WordLength, QuoteFits;
    var s := [t.c] + (q + r);
    assert PrintTok(t) + (q + r) == PrintGaps(t.pre) + s;
    assert s[1..] == q + r;
    SymSolid(t.c, q, r);
    if t.c == '\'' {
      QuoteRest(q, r);
      assert s == "'" + (q + r);
    }
    RunAt(st, t.pre, s);
  }

  lemma SymSolid(c: char, q: string, r: string)
    requires !IsBlank(c) && (c == '/' ==> SlashFits(q))
    ensures Solid([c] + (q + r))
  {
    var s := [c] + (q + r);
    TwoAre(s, "//");
    TwoAre(s, "/*");
    assert c == '/' ==> s[1] == q[0];
  }

  /** A string literal is one token, with and without a prefix. */
  lemma StringToken(st: State, prefix: string, text: string, x: string)
    requires Balanced(st) && prefix in {"", "r", "br", "b", "c", "cr"} && StringText(text)
    ensures var s := prefix + ("\"" + (text + ("\"" + x))); s != "" && Solid(s) && Token(st, s) == Next(Pending(st), x)
  {
    hide Dispatch, Attribute, CloseMods, StringRest, CharRest, StringText;
    var body := text + ("\"" + x);
    var s := prefix + ("\"" + body);
    StringRestOf(text, x);
    if prefix == "" {
      assert s == "\"" + body && s[1..] == body;
    } else {
      PrefixWords(prefix);
      WordLengthOf(prefix, "\"" + body);
      hide WordLength;
      assert s[0] == prefix[0] && s[..|prefix|] == prefix && s[|prefix|..] == "\"" + body;
      assert ("\"" + body)[1..] == body;
    }
    StartSolid(s);
  }

  lemma RunStr(t: Tok, st: State, q: string, r: string)
    requires Settled(st) && LexTok(t, q) && t.Str?
    ensures Run(st, PrintTok(t) + (q + r)) == Run(AfterTok(st, t), q + r)
  {
    assert Balanced(st) && AllFlat(t.pre) && t.prefix in {"", "r", "br", "b", "c", "cr"} && StringText(t.text);
    StrText(t, q + r);
    assert AfterTok(st, t) == Pending(st);
    hide *;
    StringToken(st, t.prefix, t.text, q + r);
    RunAt(st, t.pre, t.prefix + ("\"" + (t.text + ("\"" + (q + r)))));
  }

  lemma StrText(t: Tok, x: string)
    requires t.Str?
    ensures PrintTok(t) + x == PrintGaps(t.pre) + (t.prefix + ("\"" + (t.text + ("\"" + x))))
  {
    hide PrintGaps;
  }

  lemma PrefixWords(w: string)
    requires IsStringPrefix(w)
    ensures PlainIdent(w) && IsWordStart(w[0]) && !IsDigit(w[0]) && w[0] !in {'#', '"', '\'', '{', '}', ';'}
  {
    assert forall i :: 0 <= i < |w| ==> 'a' <= w[i] <= 'z';
  }

  lemma RunChar(t: Tok, st: State, q: string, r: string)
    requires Settled(st) && LexTok(t, q) && (t.CharLit? || t.EscLit?)
    ensures Run(st, PrintTok(t) + (q + r)) == Run(AfterTok(st, t), q + r)
  {
    hide Run, PrintGaps, AllFlat, Dispatch, Attribute, CloseMods, StringRest, CharRest, WordLength, NoQuote;
    var s := TokCore(t) + (q + r);
    assert PrintTok(t) + (q + r) == PrintGaps(t.pre) + s;
    if t.CharLit? {
      LetterRest(t.c, q + r);
    } else {
      EscapeRest(t.c, t.text, q + r);
      assert s == ['\'', '\\', t.c] + (t.text + ("'" + (q + r)));
    }
    StartSolid(s);
    RunAt(st, t.pre, s);
  }

  // ---------- attributes ----------

  lemma GapHead(g: Gap)
    requires Flat(g)
    ensures PrintGap(g) != "" && PrintGap(g)[0] != '!'
  {
  }

  lemma GapsHead(gs: seq<Gap>, x: string)
    requires AllFlat(gs) && gs != []
    ensures (PrintGaps(gs) + x)[0] != '!'
  {
    hide PrintGap, Flat;
    GapHead(gs[0]);
    assert (PrintGaps(gs) + x)[0] == PrintGap(gs[0])[0];
  }

  /** What the scanner reads behind a hash. */
  lemma BehindHash(bang: bool, mid: seq<Gap>, x: string)
    requires AllFlat(mid) && x != "" && (!bang && mid == [] ==> x[0] != '!')
    ensures var s := "#" + (PrintBang(bang) + (PrintGaps(mid) + x));
      (if |s| >= 2 && s[1] == '!' then s[2..] else s[1..]) == PrintGaps(mid) + x
  {
    var q := PrintGaps(mid) + x;
    if mid == [] { assert q == x; } else { GapsHead(mid, x); }
    hide *;
    HashThen(bang, q);
  }

  lemma HashThen(bang: bool, q: string)
    requires !bang ==> q == "" || q[0] != '!'
    ensures var s := "#" + (PrintBang(bang) + q);
      (if |s| >= 2 && s[1] == '!' then s[2..] else s[1..]) == q
  {
    var s := "#" + (PrintBang(bang) + q);
    if bang {
      assert s[2..] == q;
    } else {
      assert PrintBang(bang) + q == q && s[1..] == q;
      assert q != "" ==> s[1] == q[0];
    }
  }

  lemma AttributeOf(bang: bool, mid: seq<Gap>, parts: BodyParts, st: State, r: string)
    requires Balanced(st) && AllFlat(mid) && PartsOk(parts, true, "]")
    ensures AttrCore(bang, mid, parts) + r != ""
    ensures Attribute(st, AttrCore(bang, mid, parts) + r) == Next(st.(attrs := st.attrs + [Strip(PrintParts(parts))]), r)
  {
    hide Attribute, AttrRest, SkipTrivia, Strip, PrintGaps, AllFlat, PrintParts, PartsOk;
    var text := PrintParts(parts);
    var q := "[" + (text + ("]" + r));
    var s := "#" + (PrintBang(bang) + (PrintGaps(mid) + q));
    assert AttrCore(bang, mid, parts) + r == s;
    BehindHash(bang, mid, q);
    GapThen(mid, "[", text + ("]" + r));
    AttrOf(parts, 1, true, "]", r);
    AttrClosed(r);
    BracketShape(text, r);
    AttributeIs(st, s, PrintGaps(mid) + q, text, r);
  }

  lemma BracketShape(text: string, r: string)
    ensures var q := "[" + (text + ("]" + r));
      q[0] == '[' && q[1..] == text + ("]" + r) && |r| < |q| - 1 && q[1..|q| - |r| - 1] == text
  {
  }

  lemma HashToken(st: State, s: string)
    requires Balanced(st) && s != "" && s[0] == '#'
    ensures Token(st, s) == Attribute(st, s) && Solid(s)
  {
    hide Attribute;
    StartSolid(s);
  }

  lemma RunAttr(t: Tok, st: State, q: string, r: string)
    requires Settled(st) && LexTok(t, q) && t.AttrTok?
    ensures Run(st, PrintTok(t) + (q + r)) == Run(AfterTok(st, t), q + r)
  {
    hide Run, Token, PrintGaps, AllFlat, PrintParts, PartsOk, Attribute, Strip;
    var s := AttrCore(t.bang, t.mid, t.parts) + (q + r);
    assert PrintTok(t) + (q + r) == PrintGaps(t.pre) + s;
    AttributeOf(t.bang, t.mid, t.parts, st, q + r);
    HashToken(st, s);
    RunAt(st, t.pre, s);
  }

  lemma RunHash(t: Tok, st: State, q: string, r: string)
    requires Settled(st) && LexTok(t, q) && t.Hash?
    ensures Run(st, PrintTok(t) + (q + r)) == Run(AfterTok(st, t), q + r)
  {
    hide Run, Token, PrintGaps, AllFlat, Attribute, SkipTrivia;
    var s := "#" + (PrintBang(t.bang) + (PrintGaps(t.mid) + (q + r)));
    assert PrintTok(t) + (q + r) == PrintGaps(t.pre) + s;
    SolidAhead(q, r);
    BehindHash(t.bang, t.mid, q + r);
    GapThen(t.mid, q, r);
    AttributeIs(st, s, PrintGaps(t.mid) + (q + r), "", "");
    HashToken(st, s);
    RunAt(st, t.pre, s);
  }

  // ---------- visibility ----------

  lemma RunPub(t: Tok, st: State, q: string, r: string)
    requires Settled(st) && LexTok(t, q) && t.PubTok?
    ensures Run(st, PrintTok(t) + (q + r)) == Run(AfterTok(st, t), q + r)
  {
    hide Run, PrintGaps, AllFlat, Visibility, SkipTrivia, PlainIdent;
    var x := PrintGaps(t.mid) + (q + r);
    assert PrintTok(t) + (q + r) == PrintGaps(t.pre) + ("pub" + x);
    SolidAhead(q, r);
    GapsSep(t.mid, q, r);
    GapThen(t.mid, q, r);
    ShortWords("pub");
    RunWord(st, t.pre, "pub", x);
    VisibilityIs(st, x, "", "");
    RunGaps(st.(pub := true), t.mid, q + r);
  }

  /** A restriction in parentheses after `pub`. */
  lemma RunRestricted(pre: seq<Gap>, mid: seq<Gap>, inner: string, st: State, r: string)
    requires Balanced(st) && AllFlat(pre) && AllFlat(mid) && forall i :: 0 <= i < |inner| ==> inner[i] != ')'
    ensures Run(st, PrintGaps(pre) + ("pub" + (PrintGaps(mid) + ("(" + (inner + (")" + r))))))
         == Run(st.(pub := !Restricted(Strip(inner))), r)
  {
    hide Run, PrintGaps, AllFlat, Visibility, SkipTrivia, PlainIdent, Restricted, Strip, After;
    var p := "(" + (inner + (")" + r));
    var x := PrintGaps(mid) + p;
    assert WordEnds(mid, "(") && Ahead("(");
    GapsSep(mid, "(", inner + (")" + r));
    GapThen(mid, "(", inner + (")" + r));
    ShortWords("pub");
    RunWord(st, pre, "pub", x);
    ParenShape(inner, r);
    VisibilityIs(st, x, inner, r);
  }

  lemma ParenShape(inner: string, r: string)
    requires forall i :: 0 <= i < |inner| ==> inner[i] != ')'
    ensures var p := "(" + (inner + (")" + r));
      p[0] == '(' && |r| + 1 < |p| && After(p, ')') == Some(r) && p[1..|p| - |r| - 1] == inner
  {
    var p := "(" + (inner + (")" + r));
    AfterOf("(" + inner, ')', r);
    assert ("(" + inner) + ([')'] + r) == p;
  }

  // ---------- words that may be recorded ----------

  lemma RunModTok(t: Tok, st: State, q: string, r: string)
    requires Settled(st) && LexTok(t, q) && t.ModTok?
    ensures Run(st, PrintTok(t) + (q + r)) == Run(AfterTok(st, t), q + r)
  {
    hide Run, PrintGaps, AllFlat, SkipTrivia, PlainIdent, WordLength;
    var x := PrintGaps(t.mid) + (q + r);
    assert PrintTok(t) + (q + r) == PrintGaps(t.pre) + ("mod" + x);
    SolidAhead(q, r);
    GapsSep(t.mid, q, r);
    GapThen(t.mid, q, r);
    ShortWords("mod");
    RunWord(st, t.pre, "mod", x);
    assert Dispatch(st, "mod", x) == ModDecl(st, x) by { hide ModDecl; assert "mod" != "pub"; }
  }

  /** A module name and what comes behind it: a module is opened, declared, or neither. */
  lemma ModDeclOf(st: State, mid: seq<Gap>, name: string, post: seq<Gap>, q: string, r: string)
    requires Balanced(st) && AllFlat(mid) && PlainIdent(name) && AllFlat(post) && WordEnds(post, q) && Ahead(q)
    ensures ModDecl(st, PrintGaps(mid) + (name + (PrintGaps(post) + (q + r))))
         == if q[0] == '{' then Next(OpenMod(st, name), (q + r)[1..])
            else if q[0] == ';' then Next(AddFileMod(st, name), (q + r)[1..])
            else Next(Pending(st), q + r)
  {
    hide SkipTrivia, PrintGaps, AllFlat, AddFileMod, OpenMod;
    var x := PrintGaps(post) + (q + r);
    assert Ahead(name) by { NameAhead(name); }
    GapThen(mid, name, x);
    GapsSep(post, q, r);
    SolidAhead(name, x);
    SolidAhead(q, r);
    WordLengthOf(name, x);
    assert (name + x)[..|name|] == name && (name + x)[|name|..] == x;
    GapThen(post, q, r);
  }

  lemma NameAhead(name: string)
    requires PlainIdent(name)
    ensures Ahead(name)
  {
  }

  lemma RunModDecl(st: State, pre: seq<Gap>, mid: seq<Gap>, name: string, post: seq<Gap>, q: string, r: string)
    requires Balanced(st) && AllFlat(pre) && AllFlat(mid) && mid != [] && PlainIdent(name) && AllFlat(post)
    requires WordEnds(post, q) && Ahead(q)
    ensures Run(st, PrintGaps(pre) + ("mod" + (PrintGaps(mid) + (name + (PrintGaps(post) + (q + r))))))
         == if q[0] == '{' then Run(OpenMod(st, name), (q + r)[1..])
            else if q[0] == ';' then Run(AddFileMod(st, name), (q + r)[1..])
            else Run(Pending(st), q + r)
  {
    hide Run, PrintGaps, AllFlat, PlainIdent, OpenMod, AddFileMod;
    var x := PrintGaps(mid) + (name + (PrintGaps(post) + (q + r)));
    ShortWords("mod");
    GapsSep(mid, name, PrintGaps(post) + (q + r));
    RunWord(st, pre, "mod", x);
    ModDeclOf(st, mid, name, post, q, r);
    assert Dispatch(st, "mod", x) == ModDecl(st, x) by { hide ModDecl; assert "mod" != "pub"; }
    hide Dispatch, ModDecl;
  }

  lemma RunModName(t: Tok, st: State, q: string, r: string)
    requires Settled(st) && LexTok(t, q) && t.ModName? && !Records(t, q)
    ensures Run(st, PrintTok(t) + (q + r)) == Run(AfterTok(st, t), q + r)
  {
    hide Run, PrintGaps, AllFlat, PlainIdent;
    assert PrintTok(t) + (q + r) == PrintGaps(t.pre) + ("mod" + (PrintGaps(t.mid) + (t.name + (PrintGaps(t.post) + (q + r)))));
    RunModDecl(st, t.pre, t.mid, t.name, t.post, q, r);
  }

  /** After `extern`: only `crate` starts a statement. */
  lemma ExternDispatch(st: State, mid: seq<Gap>, q: string, r: string)
    requires Balanced(st) && AllFlat(mid) && Ahead(q) && WordLength(q) < |q|
    ensures Dispatch(st, "extern", PrintGaps(mid) + (q + r))
         == if CrateAhead(q) then Statement(st, "extern", q[WordLength(q)..] + r)
            else Next(st, PrintGaps(mid) + (q + r))
  {
    hide Statement, Visibility, ModDecl, Definition, SkipTrivia, PrintGaps, AllFlat, WordLength;
    GapThen(mid, q, r);
    SolidAhead(q, r);
    FirstWord(q, r);
    assert "extern" !in {"pub", "mod", "use", "type"};
  }

  lemma FirstWord(q: string, r: string)
    requires WordLength(q) < |q|
    ensures WordLength(q + r) == WordLength(q)
    ensures (q + r)[..WordLength(q)] == q[..WordLength(q)] && (q + r)[WordLength(q)..] == q[WordLength(q)..] + r
  {
    var n := WordLength(q);
    var w, x := q[..n], q[n..] + r;
    assert x[0] == q[n] && w + x == q + r;
    WordLengthOf(w, x);
    hide WordLength;
  }

  lemma RunExternTok(t: Tok, st: State, q: string, r: string)
    requires Settled(st) && LexTok(t, q) && t.ExternTok? && !Records(t, q)
    ensures Run(st, PrintTok(t) + (q + r)) == Run(AfterTok(st, t), q + r)
  {
    hide Run, PrintGaps, AllFlat, PlainIdent, Dispatch, WordLength;
    var x := PrintGaps(t.mid) + (q + r);
    assert PrintTok(t) + (q + r) == PrintGaps(t.pre) + ("extern" + x);
    GapsSep(t.mid, q, r);
    ShortWords("extern");
    RunWord(st, t.pre, "extern", x);
    ExternDispatch(st, t.mid, q, r);
    RunGaps(st, t.mid, q + r);
  }

  // ---------- semicolons and blocks ----------

  lemma Punctuation(st: State, r: string)
    requires Settled(st)
    ensures Token(st, ";" + r) == Next(Pending(st), r)
    ensures Token(st, "{" + r) == Next(Pending(st.(depth := st.depth + 1)), r)
    ensures Token(st.(depth := st.depth + 1), "}" + r) == Next(Pending(st), r)
  {
    hide Dispatch, Attribute, StringRest, CharRest, WordLength;
    assert (";" + r)[1..] == r && ("{" + r)[1..] == r && ("}" + r)[1..] == r;
    assert CloseMods(st) == st;
  }

  lemma RunSemi(t: Tok, st: State, q: string, r: string)
    requires Settled(st) && LexTok(t, q) && t.Semi?
    ensures Run(st, PrintTok(t) + (q + r)) == Run(AfterTok(st, t), q + r)
  {
    hide Run, Token, PrintGaps, AllFlat;
    assert PrintTok(t) + (q + r) == PrintGaps(t.pre) + (";" + (q + r));
    Punctuation(st, q + r);
    StartSolid(";" + (q + r));
    RunAt(st, t.pre, ";" + (q + r));
  }

  /** The state behind the opening brace. */
  function Inside(st: State): State {
    Pending(st.(depth := st.depth + 1))
  }

  lemma RunOpenBrace(t: Tok, st: State, q: string, r: string)
    requires Settled(st) && AllFlat(t.pre) && t.Block?
    ensures Settled(Inside(st))
    ensures Run(st, PrintTok(t) + (q + r)) == Run(Inside(st), PrintToks(t.toks) + ((PrintGaps(t.close) + ("}" + q)) + r))
  {
    hide Run, Token, PrintGaps, AllFlat, PrintToks;
    var x := PrintToks(t.toks) + ((PrintGaps(t.close) + ("}" + q)) + r);
    assert PrintTok(t) + (q + r) == PrintGaps(t.pre) + ("{" + x);
    Punctuation(st, x);
    StartSolid("{" + x);
    RunAt(st, t.pre, "{" + x);
  }

  lemma RunCloseBrace(st: State, st': State, close: seq<Gap>, q: string, r: string)
    requires Settled(st) && AllFlat(close) && Settled(st') && Pending(st') == Pending(Inside(st))
    ensures Run(st', (PrintGaps(close) + ("}" + q)) + r) == Run(Pending(st), q + r)
  {
    hide Run, Token, PrintGaps, AllFlat;
    var x := "}" + (q + r);
    assert (PrintGaps(close) + ("}" + q)) + r == PrintGaps(close) + x;
    var out := st'.(depth := st'.depth - 1);
    assert Settled(out) && out.(depth := out.depth + 1) == st' && Pending(out) == Pending(st);
    Punctuation(out, q + r);
    StartSolid(x);
    RunAt(st', close, x);
  }

  // ---------- lists of tokens ----------

  lemma {:induction false} RunTok(t: Tok, st: State, q: string, r: string)
    requires Settled(st) && LexTok(t, q) && !Records(t, q)
    ensures Run(st, PrintTok(t) + (q + r)) == Run(AfterTok(st, t), q + r)
    decreases t
  {
    if t.Block? {
      hide Run, PrintGaps, PrintToks, AllFlat, AfterToks, PrintTok;
      var q1 := PrintGaps(t.close) + ("}" + q);
      RunOpenBrace(t, st, q, r);
      RunToks(t.toks, Inside(st), q1, r);
      AfterToksSettled(Inside(st), t.toks);
      RunCloseBrace(st, AfterToks(Inside(st), t.toks), t.close, q, r);
    } else {
      RunSimpleTok(t, st, q, r);
    }
  }

  lemma RunSimpleTok(t: Tok, st: State, q: string, r: string)
    requires Settled(st) && LexTok(t, q) && !Records(t, q) && !t.Block?
    ensures Run(st, PrintTok(t) + (q + r)) == Run(AfterTok(st, t), q + r)
  {
    hide *;
    match t
    case Word(_, _) => RunPlainWord(t, st, q, r);
    case Number(_, _) => RunNumber(t, st, q, r);
    case Sym(_, _) => RunSym(t, st, q, r);
    case Str(_, _, _) => RunStr(t, st, q, r);
    case CharLit(_, _) => RunChar(t, st, q, r);
    case EscLit(_, _, _) => RunChar(t, st, q, r);
    case AttrTok(_, _, _, _) => RunAttr(t, st, q, r);
    case Hash(_, _, _) => RunHash(t, st, q, r);
    case PubTok(_, _) => RunPub(t, st, q, r);
    case PubIn(_, _, _) => RunPubIn(t, st, q, r);
    case ModTok(_, _) => RunModTok(t, st, q, r);
    case ModName(_, _, _, _) => RunModName(t, st, q, r);
    case ExternTok(_, _) => RunExternTok(t, st, q, r);
    case Semi(_) => RunSemi(t, st, q, r);
  }

  lemma RunPubIn(t: Tok, st: State, q: string, r: string)
    requires Settled(st) && LexTok(t, q) && t.PubIn?
    ensures Run(st, PrintTok(t) + (q + r)) == Run(AfterTok(st, t), q + r)
  {
    hide Run, PrintGaps, AllFlat, Restricted, Strip;
    assert PrintTok(t) + (q + r) == PrintGaps(t.pre) + ("pub" + (PrintGaps(t.mid) + ("(" + (t.inner + (")" + (q + r))))));
    RunRestricted(t.pre, t.mid, t.inner, st, q + r);
    RestrictedIff(t.inner);
  }

  /** Tokens of which none is recorded leave nothing but what is pending at their end. */
  lemma {:induction false} RunToks(ts: Toks, st: State, q: string, r: string)
    requires Settled(st) && LexToks(ts, q) && !AnyRecords(ts, q)
    ensures Run(st, PrintToks(ts) + (q + r)) == Run(AfterToks(st, ts), q + r)
    decreases ts
  {
    hide Run, PrintTok, LexTok, Records, AfterTok, Settled;
    match ts
    case NoToks => assert PrintToks(ts) + (q + r) == q + r;
    case Tokens(t, rest) =>
      var q1 := PrintToks(rest) + q;
      assert PrintToks(ts) + (q + r) == PrintTok(t) + (q1 + r);
      assert q1 + r == PrintToks(rest) + (q + r);
      RunTok(t, st, q1, r);
      AfterTokSettled(st, t);
      RunToks(rest, AfterTok(st, t), q, r);
  }
}
