/** The scanner reads back what module ItemPrint prints. */
module ItemRoundTrip {
  import opened Wrappers
  import opened Chars
  import opened UseTree
  import opened ItemScan
  import opened SourceParts
  import opened SourceTokens
  import opened ItemPrint
  import SourceText

  /** Nothing is pending, and the innermost module was opened no deeper than here. */
  predicate Quiet(st: State) {
    Settled(st) && st.attrs == [] && !st.pub
  }

  lemma QuietPends(st: State)
    requires Quiet(st)
    ensures Balanced(st) && Pending(st) == st
  {
  }

  // ---------- heads ----------

  lemma Reassociate<T>(a: seq<T>, b: seq<T>, c: seq<T>)
    ensures (a + b) + c == a + (b + c)
  {
  }

  lemma RunOneAttr(a: Attr, st: State, s: string)
    requires Balanced(st) && AttrOk(a)
    ensures Run(st, PrintAttr(a) + s) == Run(st.(attrs := st.attrs + [Strip(PrintParts(a.parts))]), s)
  {
    hide Run, Token, PrintParts, PartsOk, PrintGaps, Strip, AllFlat, Attribute;
    var x := AttrCore(a.bang, a.mid, a.parts) + s;
    assert PrintAttr(a) + s == PrintGaps(a.pre) + x;
    AttributeOf(a.bang, a.mid, a.parts, st, s);
    HashToken(st, x);
    RunAt(st, a.pre, x);
  }

  lemma {:induction false} RunAttrs(attrs: seq<Attr>, st: State, s: string)
    requires Balanced(st) && forall i :: 0 <= i < |attrs| ==> AttrOk(attrs[i])
    ensures Run(st, PrintAttrs(attrs) + s) == Run(st.(attrs := st.attrs + AttrTexts(attrs)), s)
  {
    hide Run, PrintParts, PrintAttr, Strip, AttrOk;
    if attrs == [] {
      assert PrintAttrs(attrs) + s == s;
      assert st.(attrs := st.attrs + AttrTexts(attrs)) == st;
    } else {
      var a, q := attrs[0], PrintAttrs(attrs[1..]) + s;
      assert PrintAttrs(attrs) + s == PrintAttr(a) + q;
      RunOneAttr(a, st, q);
      var st1 := st.(attrs := st.attrs + [Strip(PrintParts(a.parts))]);
      RunAttrs(attrs[1..], st1, s);
      Reassociate(st.attrs, [Strip(PrintParts(a.parts))], AttrTexts(attrs[1..]));
    }
  }

  lemma RunPublic(pre: seq<Gap>, st: State, gs: seq<Gap>, s: string)
    requires Balanced(st) && AllFlat(pre) && AllFlat(gs) && gs != [] && Ahead(s) && s[0] != '('
    ensures Run(st, (PrintGaps(pre) + "pub") + (PrintGaps(gs) + s)) == Run(st.(pub := true), PrintGaps(gs) + s)
  {
    hide Run, PrintGaps, AllFlat, Visibility, SkipTrivia, PlainIdent;
    var x := PrintGaps(gs) + s;
    assert (PrintGaps(pre) + "pub") + x == PrintGaps(pre) + ("pub" + x);
    assert s == s + "";
    GapsSep(gs, s, "");
    GapThen(gs, s, "");
    ShortWords("pub");
    RunWord(st, pre, "pub", x);
    ScanSteps.VisibilityIs(st, x, "", "");
  }

  lemma RunVis(v: Vis, st: State, gs: seq<Gap>, s: string)
    requires Balanced(st) && !st.pub && VisOk(v) && AllFlat(gs) && (v.Public? ==> gs != [])
    requires Ahead(s) && s[0] != '('
    ensures Run(st, PrintVis(v) + (PrintGaps(gs) + s)) == Run(st.(pub := IsPublic(v)), PrintGaps(gs) + s)
  {
    hide Run, PrintGaps, AllFlat, Restricted, Strip, SourceText.SaysRestricted;
    var r := PrintGaps(gs) + s;
    match v
    case Private => assert PrintVis(v) + r == r && st.(pub := false) == st;
    case Public(pre) => RunPublic(pre, st, gs, s);
    case Limited(pre, mid, inner) =>
      assert PrintVis(v) + r == PrintGaps(pre) + ("pub" + (PrintGaps(mid) + ("(" + (inner + (")" + r)))));
      RunRestricted(pre, mid, inner, st, r);
      SourceText.RestrictedIff(inner);
  }

  /** The state after the head of an item. */
  ghost function AfterHead(st: State, h: Head): State {
    st.(attrs := AttrTexts(h.attrs), pub := IsPublic(h.vis))
  }

  /** Attributes and visibility in front of an item are pending exactly as written. */
  lemma RunHead(h: Head, st: State, gs: seq<Gap>, s: string)
    requires Quiet(st) && HeadOk(h) && AllFlat(gs) && (h.vis.Public? ==> gs != []) && Ahead(s) && s[0] != '('
    ensures Run(st, PrintHead(h) + (PrintGaps(gs) + s)) == Run(AfterHead(st, h), PrintGaps(gs) + s)
  {
    hide Run, PrintAttrs, PrintVis, PrintGaps, AllFlat, AttrOk, VisOk, AttrTexts, IsPublic;
    var r := PrintVis(h.vis) + (PrintGaps(gs) + s);
    assert PrintHead(h) + (PrintGaps(gs) + s) == PrintAttrs(h.attrs) + r;
    RunAttrs(h.attrs, st, r);
    var st1 := st.(attrs := st.attrs + AttrTexts(h.attrs));
    assert st.attrs + AttrTexts(h.attrs) == AttrTexts(h.attrs);
    RunVis(h.vis, st1, gs, s);
  }

  // ---------- items ----------

  /** A head says that its item is for tests exactly when the scanner finds that in its attributes. */
  lemma HeadSays(h: Head)
    ensures IsCfgTest(h) <==> CfgTest(AttrTexts(h.attrs))
  {
    SourceText.CfgTestIff(AttrTexts(h.attrs));
  }

  /** Declaring an item in the innermost module, from a state where nothing is pending. */
  ghost function Declared(st: State, s: Src): State
    requires Balanced(st)
  {
    SetTop(st, DeclareOne(Top(st), s))
  }

  lemma DefWords(w: string)
    requires IsDefKind(w)
    ensures PlainIdent(w) && !IsStringPrefix(w) && w !in {"pub", "mod", "use", "type", "extern"}
  {
    assert |w| >= 4;
    assert forall i :: 0 <= i < |w| ==> 'a' <= w[i] <= 'z';
  }

  lemma RunStmt(s: Src, st: State, r: string)
    requires Quiet(st) && SrcOk(s) && s.Stmt?
    ensures Run(AfterHead(st, s.head), PrintGaps(s.pre) + (Core(s) + r)) == Run(Declared(st, s), r)
  {
    HeadSays(s.head);
    hide Run, PrintGaps, AllFlat, PrintParts, PartsOk, Strip, HeadOk, AttrTexts, CfgTest, PlainIdent, IsPublic, IsCfgTest;
    var st1 := AfterHead(st, s.head);
    var q := PrintParts(s.body) + (";" + r);
    assert Core(s) + r == s.kind + q;
    assert (PrintParts(s.body) + ";") + r == q && q[0] == (PrintParts(s.body) + ";")[0];
    ShortWords(s.kind);
    RunWord(st1, s.pre, s.kind, q);
    StatementOf(st1, s.kind, s.body, r);
    assert Dispatch(st1, s.kind, q) == Statement(st1, s.kind, q) by {
      hide Statement;
      assert "use" !in {"pub", "mod"} && "type" !in {"pub", "mod"};
    }
    hide Dispatch, Statement;
    assert AddItem(st1, s.kind, Strip(PrintParts(s.body))) == Declared(st, s);
  }

  lemma RunExternWord(st: State, pre: seq<Gap>, mid: seq<Gap>, parts: BodyParts, r: string)
    requires Balanced(st) && AllFlat(pre) && AllFlat(mid) && mid != [] && PartsOk(parts, false, ";") && SetOff(PrintParts(parts) + ";")
    ensures Run(st, PrintGaps(pre) + ("extern" + (PrintGaps(mid) + (("crate" + (PrintParts(parts) + ";")) + r))))
         == Run(AddItem(st, "extern", Strip(PrintParts(parts))), r)
  {
    hide Run, PrintGaps, AllFlat, PrintParts, PartsOk, Strip, PlainIdent, WordLength, Dispatch, Statement, AddItem;
    var body := PrintParts(parts) + ";";
    var q := "crate" + body;
    ShortWords("extern");
    CrateWord(body);
    GapsSep(mid, q, r);
    RunWord(st, pre, "extern", PrintGaps(mid) + (q + r));
    ExternDispatch(st, mid, q, r);
    assert body + r == PrintParts(parts) + (";" + r);
    StatementOf(st, "extern", parts, r);
  }

  lemma RunExtern(s: Src, st: State, r: string)
    requires Quiet(st) && SrcOk(s) && s.ExternCrate?
    ensures Run(AfterHead(st, s.head), PrintGaps(s.pre) + (Core(s) + r)) == Run(Declared(st, s), r)
  {
    HeadSays(s.head);
    hide Run, PrintGaps, AllFlat, PrintParts, PartsOk, Strip, HeadOk, AttrTexts, CfgTest, IsPublic, SetOff, IsCfgTest;
    var st1 := AfterHead(st, s.head);
    assert Core(s) + r == "extern" + (PrintGaps(s.mid) + (("crate" + (PrintParts(s.body) + ";")) + r));
    RunExternWord(st1, s.pre, s.mid, s.body, r);
    assert AddItem(st1, "extern", Strip(PrintParts(s.body))) == Declared(st, s);
  }

  lemma CrateWord(body: string)
    requires SetOff(body)
    ensures var q := "crate" + body; Ahead(q) && WordLength(q) == 5 && CrateAhead(q) && q[WordLength(q)..] == body
  {
    ShortWords("crate");
    WordLengthOf("crate", body);
    assert ("crate" + body)[..5] == "crate" && ("crate" + body)[5..] == body;
  }

  lemma DefinitionOf(st: State, kind: string, gs: seq<Gap>, name: string, q: string)
    requires Balanced(st) && AllFlat(gs) && PlainIdent(name) && Sep(q)
    ensures Definition(st, kind, PrintGaps(gs) + (name + q)) == Next(AddDef(st, kind, name), q)
  {
    hide SkipTrivia, PrintGaps, AllFlat, AddDef;
    NameAhead(name);
    GapThen(gs, name, q);
    assert (name + q)[0] == name[0];
    WordLengthOf(name, q);
    assert (name + q)[..|name|] == name && (name + q)[|name|..] == q;
  }

  lemma RunDefWord(s: Src, st1: State, r: string)
    requires Balanced(st1) && SrcOk(s) && s.Def?
    ensures Run(st1, PrintGaps(s.pre) + (Core(s) + r)) == Run(AddDef(st1, s.kind, s.name), PrintToks(s.tail) + r)
  {
    hide Run, PrintGaps, AllFlat, PrintToks, ToksOk, HeadOk, AddDef;
    var q2 := PrintToks(s.tail) + r;
    var q1 := PrintGaps(s.mid) + (s.name + q2);
    assert Core(s) + r == s.kind + q1;
    assert q2[0] == PrintToks(s.tail)[0];
    DefWords(s.kind);
    GapsSep(s.mid, s.name, q2);
    RunWord(st1, s.pre, s.kind, q1);
    DefinitionOf(st1, s.kind, s.mid, s.name, q2);
    assert Dispatch(st1, s.kind, q1) == Definition(st1, s.kind, q1) by { hide Definition; }
  }

  lemma RunDef(s: Src, st: State, r: string)
    requires Quiet(st) && SrcOk(s) && s.Def?
    ensures Run(AfterHead(st, s.head), PrintGaps(s.pre) + (Core(s) + r)) == Run(Declared(st, s), r)
  {
    HeadSays(s.head);
    hide Run, PrintGaps, AllFlat, PrintToks, HeadOk, AttrTexts, CfgTest, IsPublic, PlainIdent, LexToks, AnyRecords, Ends, AfterToks, IsCfgTest;
    var st1 := AfterHead(st, s.head);
    RunDefWord(s, st1, r);
    var st2 := AddDef(st1, s.kind, s.name);
    assert st2 == Declared(st, s) && Quiet(st2);
    RunEnded(s.tail, st2, r);
  }

  /** Tokens that end leave a quiet state as it was. */
  lemma RunEnded(ts: Toks, st: State, r: string)
    requires Settled(st) && ToksOk(ts)
    ensures Run(st, PrintToks(ts) + r) == Run(Pending(st), r)
  {
    hide Run, PrintToks, LexToks, AnyRecords, Ends, AfterToks;
    assert "" + r == r;
    RunToks(ts, st, "", r);
    AfterToksSettled(st, ts);
  }

  lemma RunOther(s: Src, st: State, r: string)
    requires Quiet(st) && SrcOk(s) && s.Other?
    ensures Run(st, PrintItem(s) + r) == Run(Declared(st, s), r)
  {
    hide Run, PrintToks, ToksOk, Settled;
    QuietPends(st);
    RunEnded(s.toks, st, r);
    assert Declared(st, s) == st;
  }

  lemma FileModText(s: Src, r: string)
    requires s.FileMod?
    ensures Core(s) + r == "mod" + (PrintGaps(s.mid) + (s.name + (PrintGaps(s.post) + (";" + r))))
  {
    hide PrintGaps;
  }

  lemma FileModOk(s: Src)
    requires SrcOk(s) && s.FileMod?
    ensures AllFlat(s.pre) && AllFlat(s.mid) && s.mid != [] && PlainIdent(s.name) && AllFlat(s.post)
  {
  }

  lemma FileModIs(st: State, s: Src)
    requires Quiet(st) && s.FileMod?
    ensures Balanced(st) && Balanced(AfterHead(st, s.head)) && AddFileMod(AfterHead(st, s.head), s.name) == Declared(st, s)
  {
    HeadSays(s.head);
    hide AttrTexts, CfgTest, IsPublic, IsCfgTest;
  }

  lemma RunFileMod(s: Src, st: State, r: string)
    requires Quiet(st) && SrcOk(s) && s.FileMod?
    ensures Run(AfterHead(st, s.head), PrintGaps(s.pre) + (Core(s) + r)) == Run(Declared(st, s), r)
  {
    assert WordEnds(s.post, ";") && Ahead(";");
    hide *;
    FileModIs(st, s);
    FileModText(s, r);
    FileModOk(s);
    RunModDecl(AfterHead(st, s.head), s.pre, s.mid, s.name, s.post, ";", r);
    assert (";" + r)[1..] == r;
  }

  /** The state inside a module just opened. */
  ghost function Opened(st: State, s: Src): State
    requires s.Inline?
  {
    st.(depth := st.depth + 1, stack := st.stack + [NewBlock(s.name, IsPubPlain(s.head))],
        opens := st.opens + [st.depth + 1])
  }

  lemma OpenedIs(st: State, s: Src)
    requires Quiet(st) && s.Inline?
    ensures Quiet(Opened(st, s)) && OpenMod(AfterHead(st, s.head), s.name) == Opened(st, s)
  {
    HeadSays(s.head);
    hide AttrTexts, CfgTest, IsPublic, IsCfgTest;
  }

  lemma InlineText(s: Src, r: string)
    requires s.Inline?
    ensures Core(s) + r
         == "mod" + (PrintGaps(s.mid) + (s.name + (PrintGaps(s.post) + ("{" + (PrintSrcs(s.items) + (PrintGaps(s.close) + ("}" + r)))))))
  {
    hide PrintGaps, PrintSrcs;
  }

  lemma InlineOk(s: Src)
    requires SrcOk(s) && s.Inline?
    ensures AllFlat(s.pre) && AllFlat(s.mid) && s.mid != [] && PlainIdent(s.name) && AllFlat(s.post)
  {
  }

  lemma RunOpen(s: Src, st: State, r: string)
    requires Quiet(st) && SrcOk(s) && s.Inline?
    ensures Quiet(Opened(st, s))
    ensures Run(AfterHead(st, s.head), PrintGaps(s.pre) + (Core(s) + r))
         == Run(Opened(st, s), PrintSrcs(s.items) + (PrintGaps(s.close) + ("}" + r)))
  {
    var st1 := AfterHead(st, s.head);
    assert Balanced(st1) && WordEnds(s.post, "{") && Ahead("{");
    hide *;
    OpenedIs(st, s);
    InlineText(s, r);
    InlineOk(s);
    var body := PrintSrcs(s.items) + (PrintGaps(s.close) + ("}" + r));
    RunModDecl(st1, s.pre, s.mid, s.name, s.post, "{", body);
    assert ("{" + body)[1..] == body;
  }

  /** The brace that closes a module closes that one alone. */
  lemma CloseOne(st: State, s: Src, b: ModBlock)
    requires Quiet(st) && s.Inline?
    ensures Balanced(SetTop(Opened(st, s), b))
    ensures Pending(CloseMods(SetTop(Opened(st, s), b).(depth := st.depth)))
         == SetTop(st, Top(st).(children := Top(st).children + [b]))
  {
    hide IsPubPlain;
    var inner := SetTop(Opened(st, s), b);
    var n := |st.stack|;
    assert inner.stack == st.stack + [b] && inner.opens == st.opens + [st.depth + 1];
    var low := inner.(depth := st.depth);
    var closed := CloseMod(low);
    assert low.stack[..n - 1] == st.stack[..n - 1];
    assert closed.opens == st.opens;
    assert closed == SetTop(st, Top(st).(children := Top(st).children + [b]));
  }

  lemma RunClose(st: State, s: Src, b: ModBlock, r: string)
    requires Quiet(st) && SrcOk(s) && s.Inline? && Balanced(SetTop(Opened(st, s), b))
    ensures Run(SetTop(Opened(st, s), b), PrintGaps(s.close) + ("}" + r))
         == Run(SetTop(st, Top(st).(children := Top(st).children + [b])), r)
  {
    hide Run, PrintGaps, AllFlat, HeadOk, SrcsOk, CloseMods, Pending, Dispatch, IsPubPlain, PlainIdent;
    var inner := SetTop(Opened(st, s), b);
    assert inner.depth - 1 == st.depth;
    hide Quiet, Opened, SetTop;
    var q := "}" + r;
    CloseOne(st, s, b);
    StartSolid(q);
    RunAt(inner, s.close, q);
    assert q[0] == '}' && q[1..] == r;
  }

  lemma CoreStarts(s: Src, r: string)
    requires SrcOk(s) && !s.Other?
    ensures Ahead(Core(s) + r) && (Core(s) + r)[0] != '('
  {
    hide PrintGaps, PrintToks, PrintParts, AllFlat, ToksOk, PartsOk, SrcsOk, HeadOk, PlainIdent, PrintSrcs, SetOff;
    match s
    case Stmt(_, _, kind, _) => assert (Core(s) + r)[0] == kind[0];
    case ExternCrate(_, _, _, _) => assert (Core(s) + r)[0] == 'e';
    case Def(_, _, kind, _, _, _) => assert (Core(s) + r)[0] == kind[0];
    case FileMod(_, _, _, _, _) => assert (Core(s) + r)[0] == 'm';
    case Inline(_, _, _, _, _, _, _) => assert (Core(s) + r)[0] == 'm';
  }

  lemma RunItemHead(s: Src, st: State, r: string)
    requires Quiet(st) && SrcOk(s) && !s.Other?
    ensures Balanced(AfterHead(st, s.head))
    ensures Run(st, PrintItem(s) + r) == Run(AfterHead(st, s.head), PrintGaps(s.pre) + (Core(s) + r))
  {
    hide Run, PrintGaps, AllFlat, Core, PrintHead, HeadOk, AttrTexts;
    CoreStarts(s, r);
    assert PrintItem(s) + r == PrintHead(s.head) + (PrintGaps(s.pre) + (Core(s) + r));
    RunHead(s.head, st, s.pre, Core(s) + r);
  }

  lemma QuietSet(st: State, b: ModBlock)
    requires Quiet(st)
    ensures Quiet(SetTop(st, b)) && Top(SetTop(st, b)) == b
    ensures forall c: ModBlock :: SetTop(SetTop(st, b), c) == SetTop(st, c)
    ensures SetTop(st, Top(st)) == st
  {
  }

  lemma TopOpened(st: State, s: Src)
    requires Quiet(st) && s.Inline?
    ensures Opened(st, s).stack != [] && Top(Opened(st, s)) == NewBlock(s.name, IsPubPlain(s.head))
  {
  }

  /** Scanning one item declares it in the innermost module, and leaves nothing else changed. */
  lemma {:induction false} RunItem(s: Src, st: State, r: string)
    requires Quiet(st) && SrcOk(s)
    ensures Run(st, PrintItem(s) + r) == Run(Declared(st, s), r)
    decreases s
  {
    if s.Other? {
      RunOther(s, st, r);
    } else {
      RunItemHead(s, st, r);
      match s
      case Stmt(_, _, _, _) => hide *; RunStmt(s, st, r);
      case ExternCrate(_, _, _, _) => hide *; RunExtern(s, st, r);
      case Def(_, _, _, _, _, _) => hide *; RunDef(s, st, r);
      case FileMod(_, _, _, _, _) => hide *; RunFileMod(s, st, r);
      case Inline(h, _, _, name, _, items, close) =>
        hide Run, PrintItem, PrintSrcs, Core, PrintGaps, Opened, Quiet, SrcsOk, SetTop, HeadOk, AllFlat, PlainIdent;
        var q := PrintGaps(close) + ("}" + r);
        RunOpen(s, st, r);
        var st1 := Opened(st, s);
        RunItems(items, st1, q);
        assert Top(st1) == NewBlock(name, IsPubPlain(h)) by { TopOpened(st, s); }
        var b := Declare(NewBlock(name, IsPubPlain(h)), items);
        QuietSet(st1, b);
        QuietPends(SetTop(st1, b));
        RunClose(st, s, b, r);
    }
  }

  /** Scanning items declares each in turn in the innermost module. */
  lemma {:induction false} RunItems(ss: Srcs, st: State, r: string)
    requires Quiet(st) && SrcsOk(ss)
    ensures Run(st, PrintSrcs(ss) + r) == Run(SetTop(st, Declare(Top(st), ss)), r)
    decreases ss
  {
    hide Run, SetTop, Top, DeclareOne, PrintItem, Quiet, SrcOk;
    QuietPends(st);
    match ss
    case NoSrcs =>
      assert PrintSrcs(ss) + r == r;
      QuietSet(st, Top(st));
    case Items(s, rest) =>
      var q := PrintSrcs(rest) + r;
      assert PrintSrcs(ss) + r == PrintItem(s) + q;
      RunItem(s, st, q);
      var b := DeclareOne(Top(st), s);
      QuietSet(st, b);
      RunItems(rest, SetTop(st, b), r);
  }

  /** Scanning a printed file gives back exactly the modules and declarations that were printed. */
  lemma ScanOfPrint(ss: Srcs, end: seq<Gap>)
    requires SrcsOk(ss) && AllFlat(end)
    ensures ScanSource(PrintSrcs(ss) + PrintGaps(end)) == Declare(NewBlock("", true), ss)
  {
    hide PrintSrcs, PrintGaps, AllFlat, SrcsOk, Declare;
    var b := Declare(NewBlock("", true), ss);
    RunItems(ss, START, PrintGaps(end));
    var st := SetTop(START, b);
    assert PrintGaps(end) == PrintGaps(end) + "";
    RunGaps(st, end, "");
    assert Run(st, "") == st;
  }
}
