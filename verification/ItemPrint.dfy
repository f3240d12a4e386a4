/**
  Rust source files made of nested modules: modules with and without a body, `use`, `type` and
  `extern crate` statements, type definitions, and any other items, written with any blanks and
  comments between tokens. `Declare` says what is declared in which module.
 */
module ItemPrint {
  import opened Wrappers
  import opened Chars
  import opened UT = UseTree
  import opened ItemScan
  import opened SourceParts
  import opened SourceTokens
  import opened SourceText

  // ---------- source items ----------

  datatype Attr = Attr(pre: seq<Gap>, bang: bool, mid: seq<Gap>, parts: BodyParts)

  datatype Vis =
    | Private
    | Public(pre: seq<Gap>)
    | Limited(pre: seq<Gap>, mid: seq<Gap>, inner: string)

  datatype Head = Head(attrs: seq<Attr>, vis: Vis)

  datatype Src =
    | Stmt(head: Head, pre: seq<Gap>, kind: string, body: BodyParts)
    | ExternCrate(head: Head, pre: seq<Gap>, mid: seq<Gap>, body: BodyParts)
    | Def(head: Head, pre: seq<Gap>, kind: string, mid: seq<Gap>, name: string, tail: Toks)
    | FileMod(head: Head, pre: seq<Gap>, mid: seq<Gap>, name: string, post: seq<Gap>)
    | Inline(head: Head, pre: seq<Gap>, mid: seq<Gap>, name: string, post: seq<Gap>, items: Srcs, close: seq<Gap>)
    | Other(toks: Toks)

  datatype Srcs = NoSrcs | Items(first: Src, rest: Srcs)

  // ---------- printing ----------

  function PrintAttr(a: Attr): string {
    PrintGaps(a.pre) + AttrCore(a.bang, a.mid, a.parts)
  }

  function PrintAttrs(attrs: seq<Attr>): string {
    if attrs == [] then "" else PrintAttr(attrs[0]) + PrintAttrs(attrs[1..])
  }

  function PrintVis(v: Vis): string {
    match v
    case Private => ""
    case Public(pre) => PrintGaps(pre) + "pub"
    case Limited(pre, mid, inner) => PrintGaps(pre) + ("pub" + (PrintGaps(mid) + ("(" + (inner + ")"))))
  }

  function PrintHead(h: Head): string {
    PrintAttrs(h.attrs) + PrintVis(h.vis)
  }

  /** An item without its head and the gap after it. */
  function Core(s: Src): string
    decreases s, 0
  {
    match s
    case Stmt(_, _, kind, body) => kind + (PrintParts(body) + ";")
    case ExternCrate(_, _, mid, body) => "extern" + (PrintGaps(mid) + ("crate" + (PrintParts(body) + ";")))
    case Def(_, _, kind, mid, name, tail) => kind + (PrintGaps(mid) + (name + PrintToks(tail)))
    case FileMod(_, _, mid, name, post) => "mod" + (PrintGaps(mid) + (name + (PrintGaps(post) + ";")))
    case Inline(_, _, mid, name, post, items, close) =>
      "mod" + (PrintGaps(mid) + (name + (PrintGaps(post) + ("{" + (PrintSrcs(items) + (PrintGaps(close) + "}"))))))
    case Other(toks) => PrintToks(toks)
  }

  function PrintItem(s: Src): string
    decreases s, 1
  {
    if s.Other? then Core(s) else PrintHead(s.head) + (PrintGaps(s.pre) + Core(s))
  }

  function PrintSrcs(ss: Srcs): string
    decreases ss
  {
    match ss
    case NoSrcs => ""
    case Items(s, rest) => PrintItem(s) + PrintSrcs(rest)
  }

  // ---------- well-formed items ----------

  ghost predicate AttrOk(a: Attr) {
    AllFlat(a.pre) && AllFlat(a.mid) && PartsOk(a.parts, true, "]")
  }

  ghost predicate VisOk(v: Vis) {
    match v
    case Private => true
    case Public(pre) => AllFlat(pre)
    case Limited(pre, mid, inner) =>
      AllFlat(pre) && AllFlat(mid) && forall i :: 0 <= i < |inner| ==> inner[i] != ')'
  }

  ghost predicate HeadOk(h: Head) {
    (forall i :: 0 <= i < |h.attrs| ==> AttrOk(h.attrs[i])) && VisOk(h.vis)
  }

  /** Tokens that are read as written and of which none is recorded. */
  ghost predicate ToksOk(ts: Toks) {
    LexToks(ts, "") && Ends(ts) && !AnyRecords(ts, "")
  }

  /** `s` is set off from the word in front of it. */
  predicate SetOff(s: string) {
    s != "" && !IsWord(s[0])
  }

  ghost predicate SrcOk(s: Src) {
    && (!s.Other? ==> HeadOk(s.head) && AllFlat(s.pre) && (s.head.vis.Public? ==> s.pre != []))
    && match s
       case Stmt(_, _, kind, body) => kind in {"use", "type"} && PartsOk(body, false, ";") && SetOff(PrintParts(body) + ";")
       case ExternCrate(_, _, mid, body) =>
         AllFlat(mid) && mid != [] && PartsOk(body, false, ";") && SetOff(PrintParts(body) + ";")
       case Def(_, _, kind, mid, name, tail) =>
         kind in {"struct", "enum", "union", "trait"} && AllFlat(mid) && mid != [] && PlainIdent(name) && ToksOk(tail) && SetOff(PrintToks(tail))
       case FileMod(_, _, mid, name, post) => AllFlat(mid) && mid != [] && PlainIdent(name) && AllFlat(post)
       case Inline(_, _, mid, name, post, items, close) =>
         AllFlat(mid) && mid != [] && PlainIdent(name) && AllFlat(post) && SrcsOk(items) && AllFlat(close)
       case Other(toks) => ToksOk(toks)
  }

  ghost predicate SrcsOk(ss: Srcs) {
    match ss
    case NoSrcs => true
    case Items(s, rest) => SrcOk(s) && SrcsOk(rest)
  }

  // ---------- what the items say ----------

  function AttrTexts(attrs: seq<Attr>): seq<string> {
    if attrs == [] then [] else [Strip(PrintParts(attrs[0].parts))] + AttrTexts(attrs[1..])
  }

  /** Some attribute says `cfg(test`. */
  ghost predicate IsCfgTest(h: Head) {
    exists k :: 0 <= k < |AttrTexts(h.attrs)| && SaysCfgTest(AttrTexts(h.attrs)[k])
  }

  /** `pub`, or a parenthesis behind it that restricts nothing. */
  predicate IsPublic(v: Vis) {
    v.Public? || (v.Limited? && !SaysRestricted(v.inner))
  }

  /** Plainly public, and not only in tests. */
  ghost predicate IsPubPlain(h: Head) {
    IsPublic(h.vis) && !IsCfgTest(h)
  }

  /** The module `b` with the items `ss` declared in it. */
  ghost function Declare(b: ModBlock, ss: Srcs): ModBlock
    decreases ss
  {
    match ss
    case NoSrcs => b
    case Items(s, rest) => Declare(DeclareOne(b, s), rest)
  }

  ghost function DeclareOne(b: ModBlock, s: Src): ModBlock
    decreases s
  {
    match s
    case Stmt(h, _, kind, body) =>
      b.(items := b.items + [RawItem(kind, Strip(PrintParts(body)), IsPubPlain(h), IsCfgTest(h))])
    case ExternCrate(h, _, _, body) =>
      b.(items := b.items + [RawItem("extern", Strip(PrintParts(body)), IsPubPlain(h), IsCfgTest(h))])
    case Def(h, _, kind, _, name, _) => b.(defs := b.defs + [RawDef(kind, name, IsPubPlain(h), IsCfgTest(h))])
    case FileMod(h, _, _, name, _) => b.(fileMods := b.fileMods + [RawFileMod(name, IsPubPlain(h), AttrTexts(h.attrs))])
    case Inline(h, _, _, name, _, items, _) =>
      b.(children := b.children + [Declare(NewBlock(name, IsPubPlain(h)), items)])
    case Other(_) => b
  }
}
