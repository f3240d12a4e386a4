/**
  Which bodies the item scanner passes over: exactly those in which no word is recorded. The
  scanner looks at every word, also inside function bodies, so a method named `union` or a
  local `use` ends up in the module around the function.
 */
module BodyRecords {
  import opened Wrappers
  import opened Chars
  import opened UseTree
  import opened ItemScan
  import opened ScanSteps
  import opened SourceParts
  import opened SourceTokens

  // ---------- nothing recorded is ever lost ----------

  /** The declarations in a module and everything inside it, itself included. */
  function Count(b: ModBlock): nat {
    1 + |b.items| + |b.defs| + |b.fileMods| + CountAll(b.children)
  }

  function CountAll(bs: seq<ModBlock>): nat {
    if bs == [] then 0 else Count(bs[0]) + CountAll(bs[1..])
  }

  function Weight(st: State): nat {
    CountAll(st.stack)
  }

  lemma {:induction false} CountConcat(a: seq<ModBlock>, b: seq<ModBlock>)
    ensures CountAll(a + b) == CountAll(a) + CountAll(b)
  {
    hide Count;
    if a == [] {
      assert a + b == b;
    } else {
      assert (a + b)[1..] == a[1..] + b;
      CountConcat(a[1..], b);
    }
  }

  lemma CountOne(b: ModBlock)
    ensures CountAll([b]) == Count(b)
  {
  }

  lemma WeightOfTop(st: State, b: ModBlock)
    requires st.stack != []
    ensures Weight(SetTop(st, b)) == Weight(st) - Count(Top(st)) + Count(b)
  {
    hide CountAll, Count;
    var front := st.stack[..|st.stack| - 1];
    assert st.stack == front + [Top(st)];
    CountConcat(front, [Top(st)]);
    CountConcat(front, [b]);
    CountOne(Top(st));
    CountOne(b);
  }

  lemma WeightOfAdding(st: State, kind: string, text: string)
    requires st.stack != []
    ensures Weight(AddItem(st, kind, text)) == Weight(st) + 1
    ensures Weight(AddDef(st, kind, text)) == Weight(st) + 1
    ensures Weight(AddFileMod(st, text)) == Weight(st) + 1
    ensures Weight(OpenMod(st, text)) == Weight(st) + 1
  {
    hide CountAll, CfgTest;
    var top := Top(st);
    WeightOfTop(st, top.(items := top.items + [RawItem(kind, text, PubPlain(st), CfgTest(st.attrs))]));
    WeightOfTop(st, top.(defs := top.defs + [RawDef(kind, text, PubPlain(st), CfgTest(st.attrs))]));
    WeightOfTop(st, top.(fileMods := top.fileMods + [RawFileMod(text, PubPlain(st), st.attrs)]));
    CountConcat(st.stack, [NewBlock(text, PubPlain(st))]);
    CountOne(NewBlock(text, PubPlain(st)));
    EmptyBlock(text, PubPlain(st));
  }

  lemma EmptyBlock(name: string, pub: bool)
    ensures Count(NewBlock(name, pub)) == 1
  {
  }

  lemma WeightOfClosing(st: State)
    requires |st.stack| >= 2 && |st.opens| >= 2
    ensures Weight(CloseMod(st)) == Weight(st)
  {
    hide CountAll;
    var n := |st.stack|;
    var front, outer, inner := st.stack[..n - 2], st.stack[n - 2], st.stack[n - 1];
    assert st.stack == front + ([outer] + [inner]);
    var closed := outer.(children := outer.children + [inner]);
    CountConcat(front, [outer] + [inner]);
    CountConcat([outer], [inner]);
    CountConcat(front, [closed]);
    CountConcat(outer.children, [inner]);
    CountOne(outer);
    CountOne(inner);
    CountOne(closed);
  }

  lemma {:induction false} WeightOfClosings(st: State)
    requires Balanced(st)
    ensures Weight(CloseMods(st)) == Weight(st)
    decreases |st.opens|
  {
    hide CountAll;
    if |st.opens| > 1 && st.opens[|st.opens| - 1] > st.depth {
      WeightOfClosing(st);
      WeightOfClosings(CloseMod(st));
    }
  }

  lemma VisibilityKeeps(st: State, r: string)
    requires Balanced(st)
    ensures Weight(Visibility(st, r).st) == Weight(st)
  {
    hide CountAll, SkipTrivia, Strip, Restricted, After;
  }

  lemma ModDeclKeeps(st: State, r: string)
    requires Balanced(st)
    ensures Weight(ModDecl(st, r).st) >= Weight(st)
  {
    hide CountAll, SkipTrivia, WordLength, AddFileMod, OpenMod;
    var q := SkipTrivia(r);
    if q != "" && IsWordStart(q[0]) { WeightOfAdding(st, "", q[..WordLength(q)]); }
  }

  lemma DispatchKeeps(st: State, w: string, r: string)
    requires Balanced(st)
    ensures Weight(Dispatch(st, w, r).st) >= Weight(st)
  {
    hide CountAll, SkipTrivia, WordLength, Visibility, ModDecl, Statement;
    VisibilityKeeps(st, r);
    ModDeclKeeps(st, r);
    if w == "use" || w == "type" || IsDefKind(w) {
      RecordingDispatch(st, w, r);
    } else if w == "extern" {
      var q := SkipTrivia(r);
      if q != "" && IsWordStart(q[0]) { StatementShows(st, "extern", q[WordLength(q)..]); }
    }
  }

  lemma TokenKeeps(st: State, r: string)
    requires Balanced(st) && r != ""
    ensures Weight(Token(st, r).st) >= Weight(st)
  {
    hide CountAll, Dispatch, SkipTrivia, AttrRest, Strip, StringRest, CharRest, CloseMods, WordLength;
    WeightOfClosings(st.(depth := st.depth - 1));
    var n := if IsWordStart(r[0]) then WordLength(r) else 0;
    DispatchKeeps(st, r[..n], r[n..]);
  }

  lemma {:induction false} RunKeeps(st: State, text: string)
    requires Balanced(st)
    ensures Weight(Run(st, text)) >= Weight(st)
    decreases |text|
  {
    hide Weight, Token, SkipTrivia, Run;
    RunStep(st, text);
    var r := SkipTrivia(text);
    if r != "" {
      TokenKeeps(st, r);
      RunKeeps(Token(st, r).st, Token(st, r).rest);
    }
  }

  // ---------- a recorded word shows ----------

  /** The first recorded word of a list adds to what the scanner has. */
  lemma RecordedWordShows(t: Tok, st: State, q: string, r: string)
    requires Settled(st) && LexTok(t, q) && Records(t, q) && !t.Block?
    ensures Weight(Run(st, PrintTok(t) + (q + r))) > Weight(st)
  {
    hide Run, PrintGaps, AllFlat, PlainIdent, Weight, WordLength, Dispatch, OpenMod, AddFileMod;
    match t
    case Word(pre, w) =>
      assert PrintTok(t) + (q + r) == PrintGaps(pre) + (w + (q + r));
      assert (q + r)[0] == q[0];
      RunWord(st, pre, w, q + r);
      RecordingDispatch(st, w, q + r);
      RunKeeps(Dispatch(st, w, q + r).st, Dispatch(st, w, q + r).rest);
    case ModName(pre, mid, name, post) =>
      assert PrintTok(t) + (q + r) == PrintGaps(pre) + ("mod" + (PrintGaps(mid) + (name + (PrintGaps(post) + (q + r)))));
      RunModDecl(st, pre, mid, name, post, q, r);
      WeightOfAdding(st, "", name);
      OpenedBalanced(st, name);
      RunKeeps(if q[0] == '{' then OpenMod(st, name) else AddFileMod(st, name), (q + r)[1..]);
    case ExternTok(pre, mid) =>
      var x := PrintGaps(mid) + (q + r);
      assert PrintTok(t) + (q + r) == PrintGaps(pre) + ("extern" + x);
      GapsSep(mid, q, r);
      ShortWords("extern");
      RunWord(st, pre, "extern", x);
      ExternDispatch(st, mid, q, r);
      StatementShows(st, "extern", q[WordLength(q)..] + r);
      RunKeeps(Dispatch(st, "extern", x).st, Dispatch(st, "extern", x).rest);
  }

  lemma OpenedBalanced(st: State, name: string)
    requires Balanced(st)
    ensures Balanced(OpenMod(st, name)) && Balanced(AddFileMod(st, name))
  {
  }

  lemma StatementShows(st: State, kind: string, r: string)
    requires Balanced(st)
    ensures Weight(Statement(st, kind, r).st) == Weight(st) + 1
  {
    hide CountAll, CollectRest, Strip, AddItem;
    WeightOfAdding(st, kind, Strip(r[..|r| - |CollectRest(0, 0, 0, r)|]));
  }

  lemma RecordingDispatch(st: State, w: string, r: string)
    requires Balanced(st) && (w == "use" || w == "type" || IsDefKind(w))
    ensures Weight(Dispatch(st, w, r).st) == Weight(st) + 1
  {
    hide CountAll, SkipTrivia, WordLength, Statement, AddDef;
    if w == "use" || w == "type" {
      StatementShows(st, w, r);
    } else {
      var q := SkipTrivia(r);
      WeightOfAdding(st, w, q[..if q != "" && IsWordStart(q[0]) then WordLength(q) else 0]);
    }
  }

  lemma {:induction false} RecordingShows(ts: Toks, st: State, q: string, r: string)
    requires Settled(st) && LexToks(ts, q) && AnyRecords(ts, q)
    ensures Weight(Run(st, PrintToks(ts) + (q + r))) > Weight(st)
    decreases ts
  {
    hide Run, PrintTok, LexTok, Records, AfterTok, Settled, Weight, PrintGaps;
    var t, rest := ts.head, ts.tail;
    var q1 := PrintToks(rest) + q;
    assert PrintToks(ts) + (q + r) == PrintTok(t) + (q1 + r);
    assert q1 + r == PrintToks(rest) + (q + r);
    if !Records(t, q1) {
      RunTok(t, st, q1, r);
      AfterTokSettled(st, t);
      RecordingShows(rest, AfterTok(st, t), q, r);
      SameWeight(st, AfterTok(st, t));
    } else {
      RecordingTokShows(t, st, q1, r);
    }
  }

  lemma {:induction false} RecordingTokShows(t: Tok, st: State, q: string, r: string)
    requires Settled(st) && LexTok(t, q) && Records(t, q)
    ensures Weight(Run(st, PrintTok(t) + (q + r))) > Weight(st)
    decreases t
  {
    if t.Block? {
      hide Run, PrintTok, PrintToks, PrintGaps, Settled, Weight, AllFlat;
      RunOpenBrace(t, st, q, r);
      RecordingShows(t.toks, Inside(st), PrintGaps(t.close) + ("}" + q), r);
      SameWeight(st, Inside(st));
    } else {
      RecordedWordShows(t, st, q, r);
    }
  }

  lemma SameWeight(st: State, st': State)
    requires st'.stack == st.stack
    ensures Weight(st') == Weight(st)
  {
  }

  /**
    A body is passed over, whatever follows it, if and only if no word in it is recorded: no
    `use`, `type`, `struct`, `enum`, `union` or `trait`, no `extern` in front of `crate`, and
    no `mod` with a name in front of a brace or a semicolon.
   */
  lemma PassedOverIff(ts: Toks, st: State)
    requires Settled(st) && LexToks(ts, "") && Ends(ts)
    ensures (forall r :: Run(st, PrintToks(ts) + r) == Run(Pending(st), r)) <==> !AnyRecords(ts, "")
  {
    hide Run, PrintToks, LexToks, AnyRecords, AfterToks, Weight;
    AfterToksSettled(st, ts);
    if AnyRecords(ts, "") {
      RecordingShows(ts, st, "", "");
      assert PrintToks(ts) + ("" + "") == PrintToks(ts) + "";
      NothingRead(st);
    } else {
      forall r ensures Run(st, PrintToks(ts) + r) == Run(Pending(st), r) {
        assert "" + r == r;
        RunToks(ts, st, "", r);
      }
    }
  }

  lemma NothingRead(st: State)
    requires Balanced(st)
    ensures Run(Pending(st), "") == Pending(st) && Weight(Pending(st)) == Weight(st)
  {
  }

  // ---------- a method call that is taken for a definition ----------

  lemma UnionCall(st: State, r: string)
    requires Balanced(st)
    ensures Dispatch(st, "union", "(" + r) == Next(AddDef(st, "union", ""), "(" + r)
  {
    hide AddDef, Visibility, ModDecl, Statement;
    StartSolid("(" + r);
    TriviaSolid("(" + r);
    assert ("(" + r)[..0] == "" && ("(" + r)[0..] == "(" + r;
  }

  function Receiver(): Toks {
    Tokens(Word([Blank(' ')], "a"), Tokens(Sym([], '.'), NoToks))
  }

  function Argument(): Toks {
    Tokens(Sym([], '('), Tokens(Word([], "b"), Tokens(Sym([], ')'), NoToks)))
  }

  function Signature(): Toks {
    Tokens(Word([], "fn"), Tokens(Word([Blank(' ')], "f"), Tokens(Sym([], '('), Tokens(Sym([], ')'), NoToks))))
  }

  /** Tokens that print as `text`, are read as written in front of `q` and leave `st` as it is. */
  ghost predicate Passes(ts: Toks, text: string, q: string, st: State) {
    PrintToks(ts) == text && LexToks(ts, q) && !AnyRecords(ts, q) && AfterToks(st, ts) == st
  }

  lemma PassesSym(c: char, rest: Toks, text: string, q: string, st: State)
    requires c in {'(', ')', '.'} && Passes(rest, text, q, st)
    ensures Passes(Tokens(Sym([], c), rest), [c] + text, q, st)
  {
    NoGapsFlat();
    hide AllFlat, PrintGaps, PrintToks, LexToks, AnyRecords, AfterToks;
    var t := Sym([], c);
    assert PrintTok(t) == [c];
    assert LexTok(t, text + q) && !Records(t, text + q) && AfterTok(st, t) == st;
    PassesFirst(t, rest, q, st);
  }

  lemma PassesWord(gs: seq<Gap>, w: string, rest: Toks, text: string, q: string, st: State)
    requires AllFlat(gs) && PlainIdent(w) && w !in {"pub", "mod", "extern", "use", "type"} && !IsDefKind(w)
    requires WordEnds([], text + q) && (text + q)[0] != '"' && Passes(rest, text, q, st) && (IsItemKeyword(w) ==> Pending(st) == st)
    ensures Passes(Tokens(Word(gs, w), rest), (PrintGaps(gs) + w) + text, q, st)
  {
    hide AllFlat, PrintGaps, PrintToks, LexToks, AnyRecords, AfterToks, PlainIdent;
    var t := Word(gs, w);
    assert LexTok(t, text + q) && !Records(t, text + q) && AfterTok(st, t) == st;
    PassesFirst(t, rest, q, st);
  }

  lemma PassesFirst(t: Tok, rest: Toks, q: string, st: State)
    requires LexTok(t, PrintToks(rest) + q) && !Records(t, PrintToks(rest) + q) && AfterTok(st, t) == st
    requires LexToks(rest, q) && !AnyRecords(rest, q) && AfterToks(st, rest) == st
    ensures Passes(Tokens(t, rest), PrintTok(t) + PrintToks(rest), q, st)
  {
    hide LexTok, Records, AfterTok, PrintTok;
  }

  lemma PassesNone(q: string, st: State)
    ensures Passes(NoToks, "", q, st)
  {
  }

  lemma ShortNames()
    ensures PlainIdent("a") && PlainIdent("b") && PlainIdent("f") && PlainIdent("fn") && PlainIdent("union")
  {
  }

  lemma SignatureText()
    ensures Passes(Signature(), "fn f()", " {", START)
  {
    hide Passes, PlainIdent, AllFlat, PrintGaps;
    NoGapsFlat();
    OneBlank();
    ShortNames();
    assert [')'] + "" == ")" && ['('] + ")" == "()" && (" " + "f") + "()" == " f()" && ("" + "fn") + " f()" == "fn f()";
    PassesNone(" {", START);
    PassesSym(')', NoToks, "", " {", START);
    PassesSym('(', Signature().tail.tail.tail, ")", " {", START);
    PassesWord([Blank(' ')], "f", Signature().tail.tail, "()", " {", START);
    PassesWord([], "fn", Signature().tail, " f()", " {", START);
  }

  lemma ReceiverText(st: State)
    ensures Passes(Receiver(), " a.", "union", st)
  {
    hide Passes, PlainIdent, AllFlat, PrintGaps;
    OneBlank();
    ShortNames();
    assert ['.'] + "" == "." && (" " + "a") + "." == " a.";
    PassesNone("union", st);
    PassesSym('.', NoToks, "", "union", st);
    PassesWord([Blank(' ')], "a", Receiver().tail, ".", "union", st);
  }

  lemma ArgumentText(st: State)
    ensures Passes(Argument(), "(b)", " }", st)
  {
    hide Passes, PlainIdent, AllFlat, PrintGaps;
    NoGapsFlat();
    ShortNames();
    assert [')'] + "" == ")" && ("" + "b") + ")" == "b)" && ['('] + "b)" == "(b)";
    PassesNone(" }", st);
    PassesSym(')', NoToks, "", " }", st);
    PassesWord([], "b", Argument().tail.tail, ")", " }", st);
    PassesSym('(', Argument().tail, "b)", " }", st);
  }

  /** A function that calls a method named `union`: the scanner records a definition without a name. */
  lemma UnionCallIsRecorded()
    ensures ScanSource("fn f() { a.union(b) }") == NewBlock("", true).(defs := [RawDef("union", "", false, false)])
  {
    hide Run, PrintToks, LexToks, AnyRecords, AfterToks, Dispatch, PlainIdent, Signature;
    SignatureText();
    var body := " a.union(b) }";
    assert "fn f() { a.union(b) }" == "fn f()" + (" {" + body);
    RunToks(Signature(), START, " {", body);
    var in1 := Inside(START);
    EnterBrace(START, body);
    RunCall(in1);
    LeaveBrace(START, AddDef(in1, "union", ""));
    assert CfgTest([]) == false;
  }

  lemma EnterBrace(st: State, body: string)
    requires Settled(st)
    ensures Settled(Inside(st)) && Run(st, " {" + body) == Run(Inside(st), body)
  {
    hide Run, Token, AllFlat, PrintGaps;
    OneBlank();
    assert " {" + body == " " + ("{" + body);
    Punctuation(st, body);
    StartSolid("{" + body);
    RunAt(st, [Blank(' ')], "{" + body);
  }

  lemma LeaveBrace(st: State, st': State)
    requires Settled(st) && Settled(st') && st'.depth == st.depth + 1 && Settled(st'.(depth := st.depth))
    ensures Run(st', " }") == Pending(st'.(depth := st.depth))
  {
    hide Run, Token, AllFlat, PrintGaps;
    OneBlank();
    var out := st'.(depth := st.depth);
    assert out.(depth := out.depth + 1) == st';
    assert " }" == " " + ("}" + "");
    Punctuation(out, "");
    StartSolid("}" + "");
    RunAt(st', [Blank(' ')], "}" + "");
    RunEnds(Pending(out), "");
  }

  lemma OneBlank()
    ensures AllFlat([Blank(' ')]) && PrintGaps([Blank(' ')]) == " "
  {
  }

  /** Behind the brace: the receiver, the recorded word, and its argument. */
  lemma RunCall(st: State)
    requires Settled(st) && st.attrs == [] && !st.pub
    ensures Run(st, " a.union(b) }") == Run(AddDef(st, "union", ""), " }")
  {
    hide Run, PrintToks, LexToks, AnyRecords, AfterToks, Dispatch, AddDef, Receiver, Argument, PlainIdent;
    ReceiverText(st);
    ArgumentText(AddDef(st, "union", ""));
    assert " a.union(b) }" == " a." + ("union" + "(b) }");
    RunToks(Receiver(), st, "union", "(b) }");
    NoGapsFlat();
    assert "union" + "(b) }" == PrintGaps([]) + ("union" + "(b) }");
    assert "(b) }" == "(" + "b) }";
    ShortNames();
    RunWord(st, [], "union", "(b) }");
    UnionCall(st, "b) }");
    var st2 := AddDef(st, "union", "");
    assert Settled(st2) by { DefSettled(st); }
    assert "(b) }" == "(b)" + (" }" + "");
    RunToks(Argument(), st2, " }", "");
    assert " }" + "" == " }";
  }

  lemma NoGapsFlat()
    ensures AllFlat([]) && PrintGaps([]) == ""
  {
  }

  lemma DefSettled(st: State)
    requires Settled(st)
    ensures Settled(AddDef(st, "union", ""))
  {
  }
}
