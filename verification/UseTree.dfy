/**
  The use-tree parser of scripts/dep-guard/second_export.py, and the use trees it reads.

  The parser is a function of the text that is left. `None` means that it does not return:
  the loop of `_parse_leaf` never stops once the text is used up.

  `PrintUse` writes a use tree with any blanks and comments between its tokens.
  `ParseOfPrint` says that parsing the print gives the flattened leaves of the tree.
 */
module UseTree {
  import opened Wrappers
  import opened Chars

  datatype Leaf = Leaf(path: string, alias: Option<string>)

  // ---------- lexing ----------

  /** Inside a block comment: what is left after it, which is nothing if it is not closed. */
  function BlockRest(r: string): (q: string)
    ensures |q| <= |r|
  {
    if r == "" then ""
    else if StartsWith(r, "*/") then r[2..]
    else BlockRest(r[1..])
  }

  function SkipWs(r: string): (q: string)
    ensures |q| <= |r|
    decreases |r|
  {
    if r == "" then r
    else if IsBlank(r[0]) then SkipWs(r[1..])
    else if StartsWith(r, "//") then
      assert LineRest(r) == LineRest(r[1..]);
      SkipWs(LineRest(r))
    else if StartsWith(r, "/*") then SkipWs(BlockRest(r[2..]))
    else r
  }

  /** The identifier at the head of `r`, raw or plain; empty if there is none. */
  function Ident(r: string): (id: string)
    ensures |id| <= |r|
  {
    var j := if StartsWith(r, "r#") then 2 else 0;
    if j < |r| && IsWordStart(r[j]) then r[..j + 1 + WordLength(r[j + 1..])] else ""
  }

  /** What is left after the keyword `as`, if it comes next. */
  function AfterAs(r: string): Option<string> {
    var q := SkipWs(r);
    if StartsWith(q, "as") && (|q| == 2 || !IsWord(q[2])) then Some(q[2..]) else None
  }

  predicate At(r: string, c: char) {
    r != "" && r[0] == c
  }

  // ---------- parsing ----------

  datatype Parsed = Parsed(leaves: seq<Leaf>, rest: string)

  function ParseGroup(prefix: seq<string>, text: string): (p: Option<Parsed>)
    ensures p.Some? ==> |p.value.rest| <= |text|
    decreases |text|, 1
  {
    var r := SkipWs(text);
    if r == "" || r[0] == '}' || r[0] == ',' then Some(Parsed([], r))
    else
      var first := ParseLeaf(prefix, r);
      if first.None? then None
      else
        var r2 := SkipWs(first.value.rest);
        if At(r2, ',') then
          var others := ParseGroup(prefix, r2[1..]);
          if others.None? then None
          else Some(Parsed(first.value.leaves + others.value.leaves, others.value.rest))
        else Some(Parsed(first.value.leaves, r2))
  }

  function ParseLeaf(segs: seq<string>, text: string): (p: Option<Parsed>)
    ensures p.Some? ==> |p.value.rest| < |text|
    decreases |text|, 0
  {
    var r := SkipWs(text);
    if r == "" then None
    else if r[0] == '{' then
      var inner := ParseGroup(segs, r[1..]);
      if inner.None? then None
      else
        var r2 := SkipWs(inner.value.rest);
        Some(Parsed(inner.value.leaves, if At(r2, '}') then r2[1..] else r2))
    else if r[0] == '*' then Some(Parsed([Leaf(Join(segs + ["*"], "::"), None)], r[1..]))
    else if r[0] == ':' then ParseLeaf(segs, if |r| > 1 && r[1] == ':' then r[2..] else r[1..])
    else
      var id := Ident(r);
      if id == "" then ParseLeaf(segs, r[1..])
      else
        var r2 := SkipWs(r[|id|..]);
        if At(r2, ':') then ParseLeaf(segs + [id], r2)
        else
          var path, after := Join(segs + [id], "::"), AfterAs(r2);
          if after.None? then Some(Parsed([Leaf(path, None)], r2))
          else
            var r3 := SkipWs(after.value);
            var alias := Ident(r3);
            Some(Parsed([Leaf(path, if alias == "" then None else Some(alias))], r3[|alias|..]))
  }

  /** `parse_use_leaves`. No leaf has an empty path, so the filter at the end drops none. */
  function ParseUseLeaves(text: string): Option<seq<Leaf>> {
    var r := SkipWs(text);
    var p := ParseGroup([], if |r| > 1 && r[0] == ':' && r[1] == ':' then r[2..] else r);
    if p.None? then None else Some(p.value.leaves)
  }

  // ---------- use trees ----------

  datatype Gap = Blank(c: char) | LineComment(text: string) | BlockComment(text: string)

  datatype Alias = Alias(before: seq<Gap>, after: seq<Gap>, id: string)

  datatype Tree =
    | Name(pre: seq<Gap>, id: string, alias: Option<Alias>)
    | Glob(pre: seq<Gap>)
    | Path(pre: seq<Gap>, id: string, colons: seq<Gap>, tail: Tree)
    | Braces(pre: seq<Gap>, items: Items, close: seq<Gap>)

  /** The trees of a group, with the gap before each comma; the last comma may be missing. */
  datatype Items = NoItems | LastItem(tree: Tree) | CommaItem(tree: Tree, comma: seq<Gap>, rest: Items)

  ghost predicate GapOk(g: Gap) {
    match g
    case Blank(c) => c in {' ', '\t', '\r', '\n'}
    case LineComment(text) => '\n' !in text
    case BlockComment(text) => forall i :: 0 <= i < |text| - 1 ==> !(text[i] == '*' && text[i + 1] == '/')
  }

  ghost predicate GapsOk(gs: seq<Gap>) {
    forall i :: 0 <= i < |gs| ==> GapOk(gs[i])
  }

  predicate PlainIdent(id: string) {
    id != "" && IsWordStart(id[0]) && forall i :: 0 <= i < |id| ==> IsWord(id[i])
  }

  predicate IdentOk(id: string) {
    PlainIdent(id) || (StartsWith(id, "r#") && PlainIdent(id[2..]))
  }

  ghost predicate AliasOk(a: Alias) {
    GapsOk(a.before) && a.before != [] && GapsOk(a.after) && a.after != [] && IdentOk(a.id)
  }

  ghost predicate TreeOk(t: Tree) {
    match t
    case Name(pre, id, alias) =>
      && GapsOk(pre) && IdentOk(id)
      && (alias.Some? ==> AliasOk(alias.value))
    case Glob(pre) => GapsOk(pre)
    case Path(pre, id, colons, tail) => GapsOk(pre) && IdentOk(id) && GapsOk(colons) && TreeOk(tail)
    case Braces(pre, items, close) => GapsOk(pre) && ItemsOk(items) && GapsOk(close)
  }

  ghost predicate ItemsOk(items: Items) {
    match items
    case NoItems => true
    case LastItem(tree) => TreeOk(tree)
    case CommaItem(tree, comma, rest) => TreeOk(tree) && GapsOk(comma) && ItemsOk(rest)
  }

  function PrintGap(g: Gap): string {
    match g
    case Blank(c) => [c]
    case LineComment(text) => "//" + text + "\n"
    case BlockComment(text) => "/*" + text + "*/"
  }

  function PrintGaps(gs: seq<Gap>): string {
    if gs == [] then "" else PrintGap(gs[0]) + PrintGaps(gs[1..])
  }

  function PrintTree(t: Tree): string
    decreases t, 1
  {
    PrintGaps(t.pre) + Bare(t)
  }

  /** A tree without the gap in front of it. */
  function Bare(t: Tree): string
    decreases t, 0
  {
    match t
    case Name(_, id, None) => id
    case Name(_, id, Some(a)) => id + PrintGaps(a.before) + "as" + PrintGaps(a.after) + a.id
    case Glob(_) => "*"
    case Path(_, id, colons, tail) => id + PrintGaps(colons) + "::" + PrintTree(tail)
    case Braces(_, items, close) => "{" + PrintItems(items) + PrintGaps(close) + "}"
  }

  function PrintItems(items: Items): string {
    match items
    case NoItems => ""
    case LastItem(tree) => PrintTree(tree)
    case CommaItem(tree, comma, rest) => PrintTree(tree) + PrintGaps(comma) + "," + PrintItems(rest)
  }

  /** The leaves of a tree below `prefix`, in the order in which they are written. */
  function Leaves(prefix: seq<string>, t: Tree): seq<Leaf>
    decreases t
  {
    match t
    case Name(_, id, alias) =>
      [Leaf(Join(prefix + [id], "::"), if alias.Some? then Some(alias.value.id) else None)]
    case Glob(_) => [Leaf(Join(prefix + ["*"], "::"), None)]
    case Path(_, id, _, tail) => Leaves(prefix + [id], tail)
    case Braces(_, items, _) => ItemLeaves(prefix, items)
  }

  function ItemLeaves(prefix: seq<string>, items: Items): seq<Leaf>
    decreases items
  {
    match items
    case NoItems => []
    case LastItem(tree) => Leaves(prefix, tree)
    case CommaItem(tree, _, rest) => Leaves(prefix, tree) + ItemLeaves(prefix, rest)
  }

  // ---------- gaps are skipped ----------

  /** A text that starts with a token. */
  predicate Solid(r: string) {
    r == "" || !(IsBlank(r[0]) || StartsWith(r, "//") || StartsWith(r, "/*"))
  }

  lemma SkipSolid(r: string)
    requires Solid(r)
    ensures SkipWs(r) == r
  {
  }

  lemma {:induction false} SkipIsSolid(r: string)
    ensures Solid(SkipWs(r)) && SkipWs(SkipWs(r)) == SkipWs(r)
    decreases |r|
  {
    if r != "" {
      if IsBlank(r[0]) {
        SkipIsSolid(r[1..]);
      } else if StartsWith(r, "//") {
        assert LineRest(r) == LineRest(r[1..]);
        SkipIsSolid(LineRest(r));
      } else if StartsWith(r, "/*") {
        SkipIsSolid(BlockRest(r[2..]));
      }
    }
  }

  lemma {:induction false} LineRestOf(text: string, r: string)
    requires forall i :: 0 <= i < |text| ==> text[i] != '\n'
    requires r != "" && r[0] == '\n'
    ensures LineRest(text + r) == r
  {
    if text == "" {
      assert text + r == r;
    } else {
      LineRestOf(text[1..], r);
      assert (text + r)[1..] == text[1..] + r;
    }
  }

  lemma {:induction false} BlockRestOf(text: string, r: string)
    requires forall i :: 0 <= i < |text| - 1 ==> !(text[i] == '*' && text[i + 1] == '/')
    ensures BlockRest(text + "*/" + r) == r
  {
    var s := text + "*/" + r;
    if text == "" {
      assert s == "*/" + r && s[..2] == "*/" && s[2..] == r;
    } else {
      forall i | 0 <= i < |text[1..]| - 1 ensures !(text[1..][i] == '*' && text[1..][i + 1] == '/') {
        assert text[1..][i] == text[i + 1] && text[1..][i + 1] == text[i + 2];
      }
      BlockRestOf(text[1..], r);
      assert s[1..] == text[1..] + "*/" + r;
      assert s[0] == text[0] && s[1] == if |text| > 1 then text[1] else '*';
      assert !StartsWith(s, "*/") by {
        assert s[..2][0] == s[0] && s[..2][1] == s[1];
        assert "*/"[0] == '*' && "*/"[1] == '/';
      }
    }
  }

  lemma SkipLine(text: string, r: string)
    requires forall i :: 0 <= i < |text| ==> text[i] != '\n'
    ensures SkipWs("//" + text + "\n" + r) == SkipWs(r)
  {
    var s := "//" + text + "\n" + r;
    LineRestOf("//" + text, "\n" + r);
    assert s == ("//" + text) + ("\n" + r);
    assert s[0] == '/' && s[..2] == "//";
    assert ("\n" + r)[1..] == r;
  }

  lemma SkipBlock(text: string, r: string)
    requires forall i :: 0 <= i < |text| - 1 ==> !(text[i] == '*' && text[i + 1] == '/')
    ensures SkipWs("/*" + text + "*/" + r) == SkipWs(r)
  {
    var s := "/*" + text + "*/" + r;
    BlockRestOf(text, r);
    assert s[2..] == text + "*/" + r;
    assert s[0] == '/' && s[1] == '*' && s[..2] == "/*";
    assert !StartsWith(s, "//") by { assert "//"[1] != "/*"[1]; }
  }

  lemma SkipGap(g: Gap, r: string)
    requires GapOk(g)
    ensures SkipWs(PrintGap(g) + r) == SkipWs(r)
  {
    match g
    case Blank(c) =>
      assert (PrintGap(g) + r)[1..] == r;
    case LineComment(text) =>
      hide SkipWs;
      assert forall i :: 0 <= i < |text| ==> text[i] in text;
      SkipLine(text, r);
    case BlockComment(text) =>
      hide SkipWs;
      SkipBlock(text, r);
  }

  lemma {:induction false} SkipGaps(gs: seq<Gap>, r: string)
    requires GapsOk(gs)
    ensures SkipWs(PrintGaps(gs) + r) == SkipWs(r)
  {
    if gs == [] {
      assert PrintGaps(gs) + r == r;
    } else {
      SkipGaps(gs[1..], r);
      SkipGap(gs[0], PrintGaps(gs[1..]) + r);
      assert PrintGaps(gs) + r == PrintGap(gs[0]) + (PrintGaps(gs[1..]) + r);
    }
  }

  /** A gap never continues a word. */
  lemma GapSeparates(gs: seq<Gap>, r: string)
    requires GapsOk(gs) && gs != []
    ensures var s := PrintGaps(gs) + r; s != "" && !IsWord(s[0])
  {
    var s := PrintGaps(gs) + r;
    assert s[0] == PrintGap(gs[0])[0];
    match gs[0]
    case Blank(c) =>
    case LineComment(text) => assert PrintGap(gs[0])[0] == '/';
    case BlockComment(text) => assert PrintGap(gs[0])[0] == '/';
  }

  // ---------- the round trip ----------

  /** `r` does not continue an identifier. */
  predicate Breaks(r: string) {
    r == "" || (!IsWord(r[0]) && r[0] != '#')
  }

  /** What may come after a tree: a comma, a closing brace or the end, perhaps after a gap. */
  predicate Follows(r: string) {
    var q := SkipWs(r);
    Breaks(r) && (q == "" || q[0] == ',' || q[0] == '}')
  }

  lemma IdentOf(id: string, r: string)
    requires IdentOk(id) && Breaks(r)
    ensures Ident(id + r) == id && (id + r)[|id|..] == r
  {
    var s := id + r;
    if StartsWith(id, "r#") {
      assert s[..2] == id[..2] == "r#";
      assert !PlainIdent(id) by { assert id[1] == id[..2][1] == "r#"[1] == '#'; }
      WordLengthOf(id[2..][1..], r);
      assert s[3..] == id[2..][1..] + r;
      assert s[2] == id[2..][0];
    } else {
      assert !StartsWith(s, "r#") by {
        assert "r#"[1] == '#';
        if |s| >= 2 { assert s[..2][1] == s[1]; if |id| >= 2 { assert IsWord(id[1]); } }
      }
      WordLengthOf(id[1..], r);
      assert s[1..] == id[1..] + r;
    }
  }

  lemma GapBreaks(gs: seq<Gap>, r: string)
    requires GapsOk(gs) && Breaks(r)
    ensures Breaks(PrintGaps(gs) + r)
  {
    if gs == [] {
      assert PrintGaps(gs) + r == r;
    } else {
      var s := PrintGaps(gs) + r;
      assert s[0] == PrintGap(gs[0])[0];
      match gs[0]
      case Blank(c) =>
      case LineComment(text) => assert PrintGap(gs[0])[0] == '/';
      case BlockComment(text) => assert PrintGap(gs[0])[0] == '/';
    }
  }

  /** A tree starts with a token that opens a leaf. */
  lemma BareStarts(t: Tree, r: string)
    requires TreeOk(t)
    ensures var s := Bare(t) + r;
            s != "" && Solid(s) && s[0] != '}' && s[0] != ',' && s[0] != ':'
    ensures SkipWs(PrintTree(t) + r) == Bare(t) + r
  {
    hide SkipWs, PrintGaps, PrintItems;
    var s := Bare(t) + r;
    match t {
      case Name(_, id, alias) => assert s[0] == id[0]; IdentStarts(id);
      case Path(_, id, _, _) => assert s[0] == id[0]; IdentStarts(id);
      case Glob(_) =>
      case Braces(_, _, _) =>
    }
    assert s[0] != '/';
    assert !StartsWith(s, "//") by { assert "//"[0] == '/'; }
    assert !StartsWith(s, "/*") by { assert "/*"[0] == '/'; }
    SkipSolid(s);
    SkipGaps(t.pre, s);
    assert PrintTree(t) + r == PrintGaps(t.pre) + s;
  }

  lemma IdentStarts(id: string)
    requires IdentOk(id)
    ensures id != "" && IsWordStart(id[0])
  {
    if StartsWith(id, "r#") { assert id[0] == id[..2][0] == "r#"[0] == 'r'; }
  }

  /** Leaves are read from the first token on. */
  lemma ParseLeafSkips(segs: seq<string>, text: string)
    ensures ParseLeaf(segs, text) == ParseLeaf(segs, SkipWs(text))
  {
    hide SkipWs, Ident, AfterAs, Join, ParseGroup;
    SkipIsSolid(text);
  }

  lemma {:induction false} LeafOfPrint(t: Tree, prefix: seq<string>, r: string)
    requires TreeOk(t) && Follows(r)
    ensures var p := ParseLeaf(prefix, PrintTree(t) + r);
            p.Some? && p.value.leaves == Leaves(prefix, t) && SkipWs(p.value.rest) == SkipWs(r)
    decreases t, 1
  {
    hide ParseLeaf, SkipWs, PrintTree, Bare, Leaves;
    BareStarts(t, r);
    ParseLeafSkips(prefix, PrintTree(t) + r);
    BareLeafOfPrint(t, prefix, r);
  }

  lemma {:induction false} BareLeafOfPrint(t: Tree, prefix: seq<string>, r: string)
    requires TreeOk(t) && Follows(r)
    ensures var p := ParseLeaf(prefix, Bare(t) + r);
            p.Some? && p.value.leaves == Leaves(prefix, t) && SkipWs(p.value.rest) == SkipWs(r)
    decreases t, 0
  {
    match t
    case Name(_, id, None) => hide *; PlainName(t, prefix, r);
    case Name(_, id, Some(a)) => hide *; AliasedName(t, prefix, r);
    case Glob(_) => GlobLeaf(t, prefix, r);
    case Path(_, id, colons, tail) =>
      LeafOfPrint(tail, prefix + [id], r);
      PathStep(t, prefix, r);
      hide ParseLeaf, SkipWs, PrintTree, Bare;
    case Braces(_, items, close) =>
      var q := PrintGaps(close) + ("}" + r);
      hide ParseGroup, PrintItems, PrintGaps, ParseLeaf, Ident, LineRest, BlockRest, ItemLeaves;
      SkipGaps(close, "}" + r);
      GapBreaks(close, "}" + r);
      SkipSolid("}" + r);
      hide SkipWs;
      GroupOfPrint(items, prefix, q);
      BraceStep(t, prefix, r);
  }

  lemma GlobLeaf(t: Tree, prefix: seq<string>, r: string)
    requires t.Glob?
    ensures ParseLeaf(prefix, Bare(t) + r) == Some(Parsed(Leaves(prefix, t), r))
  {
    hide Ident, AfterAs, Join, ParseGroup, SkipWs;
    SkipSolid(Bare(t) + r);
    assert (Bare(t) + r)[1..] == r;
  }

  lemma BraceStep(t: Tree, prefix: seq<string>, r: string)
    requires t.Braces?
    requires ParseGroup(prefix, PrintItems(t.items) + (PrintGaps(t.close) + ("}" + r)))
          == Some(Parsed(ItemLeaves(prefix, t.items), "}" + r))
    ensures ParseLeaf(prefix, Bare(t) + r) == Some(Parsed(Leaves(prefix, t), r))
  {
    hide Ident, AfterAs, Join, ParseGroup, SkipWs, PrintItems, PrintGaps, ItemLeaves;
    var s := Bare(t) + r;
    assert s[0] == '{';
    SkipSolid(s);
    SkipSolid("}" + r);
    assert s[1..] == PrintItems(t.items) + (PrintGaps(t.close) + ("}" + r));
    assert ("}" + r)[1..] == r;
  }

  lemma PlainName(t: Tree, prefix: seq<string>, r: string)
    requires t.Name? && t.alias.None? && TreeOk(t) && Follows(r)
    ensures ParseLeaf(prefix, Bare(t) + r) == Some(Parsed(Leaves(prefix, t), SkipWs(r)))
    ensures SkipWs(SkipWs(r)) == SkipWs(r)
  {
    hide Ident, Join, ParseGroup, SkipWs, IdentOk;
    BareStarts(t, r);
    SkipSolid(t.id + r);
    IdentStarts(t.id);
    IdentOf(t.id, r);
    SkipIsSolid(r);
    var q := SkipWs(r);
    assert !StartsWith(q, "as") by { if |q| >= 2 { assert q[..2][0] == q[0]; } }
    assert AfterAs(q) == None;
    hide AfterAs;
  }

  /** The parts of an alias as the parser meets them after a name. */
  lemma AliasParts(a: Alias, r: string)
    requires AliasOk(a) && Breaks(r)
    ensures var r3 := PrintGaps(a.after) + (a.id + r); var r1 := PrintGaps(a.before) + ("as" + r3);
      && Breaks(r1) && SkipWs(r1) == "as" + r3 && AfterAs("as" + r3) == Some(r3)
      && SkipWs(r3) == a.id + r && Ident(a.id + r) == a.id && (a.id + r)[|a.id|..] == r && a.id != ""
  {
    hide Ident, SkipWs, IdentOk, PrintGaps, Breaks;
    var r4 := a.id + r;
    var r3 := PrintGaps(a.after) + r4;
    var r2 := "as" + r3;
    IdentStarts(a.id);
    GapSeparates(a.before, r2);
    GapSeparates(a.after, r4);
    AliasGap(a.before, r2);
    IdentOf(a.id, r);
    SkipGaps(a.before, r2);
    SkipGaps(a.after, r4);
    assert r2[0] == 'a' && r2[..2] == "as" && r2[2..] == r3;
    SkipSolid(r2);
    assert r4[0] == a.id[0];
    SkipSolid(r4);
  }

  lemma AliasedName(t: Tree, prefix: seq<string>, r: string)
    requires t.Name? && t.alias.Some? && TreeOk(t) && Follows(r)
    ensures ParseLeaf(prefix, Bare(t) + r) == Some(Parsed(Leaves(prefix, t), r))
  {
    hide Ident, Join, ParseGroup, SkipWs, IdentOk, PrintGaps, AliasOk, AfterAs, Breaks;
    var id, a := t.id, t.alias.value;
    var r3 := PrintGaps(a.after) + (a.id + r);
    var r1 := PrintGaps(a.before) + ("as" + r3);
    assert Bare(t) + r == id + r1;
    BareStarts(t, r);
    IdentStarts(id);
    AliasParts(a, r);
    IdentOf(id, r1);
    SkipSolid(id + r1);
    hide GapsOk, Bare, StartsWith, Solid;
  }

  lemma AliasGap(gs: seq<Gap>, r: string)
    requires GapsOk(gs) && gs != []
    ensures Breaks(PrintGaps(gs) + r)
  {
    GapBreaks(gs, "");
    assert PrintGaps(gs) + "" == PrintGaps(gs);
    assert PrintGaps(gs) != "" && (PrintGaps(gs) + r)[0] == PrintGaps(gs)[0] by { GapSeparates(gs, ""); }
  }

  lemma PathStep(t: Tree, prefix: seq<string>, r: string)
    requires t.Path? && TreeOk(t)
    ensures ParseLeaf(prefix, Bare(t) + r) == ParseLeaf(prefix + [t.id], PrintTree(t.tail) + r)
  {
    hide SkipWs, Ident, PrintTree, PrintGaps, AfterAs, Join, ParseGroup;
    var r2 := "::" + (PrintTree(t.tail) + r);
    var r1 := PrintGaps(t.colons) + r2;
    BareStarts(t, r);
    IdentStarts(t.id);
    assert r2[0] == ':' && r2[1] == ':';
    GapBreaks(t.colons, r2);
    IdentOf(t.id, r1);
    assert Bare(t) + r == t.id + r1;
    SkipGaps(t.colons, r2);
    SkipSolid(r2);
    SkipSolid(t.id + r1);
    assert r2[2..] == PrintTree(t.tail) + r;
    hide Bare, GapsOk, IdentOk, TreeOk;
    assert ParseLeaf(prefix + [t.id], r2) == ParseLeaf(prefix + [t.id], r2[2..]);
  }

  lemma {:induction false} GroupOfPrint(items: Items, prefix: seq<string>, q: string)
    requires ItemsOk(items) && Breaks(q) && (SkipWs(q) == "" || SkipWs(q)[0] == '}')
    ensures ParseGroup(prefix, PrintItems(items) + q) == Some(Parsed(ItemLeaves(prefix, items), SkipWs(q)))
    decreases items
  {
    match items
    case NoItems =>
      assert PrintItems(items) + q == q;
      hide SkipWs, ParseLeaf;
    case LastItem(tree) =>
      BareStarts(tree, q);
      ParseLeafSkips(prefix, PrintTree(tree) + q);
      LeafOfPrint(tree, prefix, q);
      hide SkipWs, Bare, PrintTree, Leaves, ParseLeaf;
    case CommaItem(tree, comma, rest) =>
      GroupOfPrint(rest, prefix, q);
      CommaFollows(comma, PrintItems(rest) + q);
      LeafOfPrint(tree, prefix, PrintGaps(comma) + ("," + (PrintItems(rest) + q)));
      CommaStep(items, prefix, q);
  }

  lemma CommaFollows(comma: seq<Gap>, s: string)
    requires GapsOk(comma)
    ensures Follows(PrintGaps(comma) + ("," + s)) && SkipWs(PrintGaps(comma) + ("," + s)) == "," + s
  {
    hide SkipWs, PrintGaps;
    SkipGaps(comma, "," + s);
    SkipSolid("," + s);
    GapBreaks(comma, "," + s);
  }

  lemma CommaStep(items: Items, prefix: seq<string>, q: string)
    requires items.CommaItem? && ItemsOk(items)
    requires ParseGroup(prefix, PrintItems(items.rest) + q) == Some(Parsed(ItemLeaves(prefix, items.rest), SkipWs(q)))
    requires var r1 := PrintGaps(items.comma) + ("," + (PrintItems(items.rest) + q));
             var p := ParseLeaf(prefix, PrintTree(items.tree) + r1);
             && SkipWs(r1) == "," + (PrintItems(items.rest) + q)
             && p.Some? && p.value.leaves == Leaves(prefix, items.tree) && SkipWs(p.value.rest) == SkipWs(r1)
    ensures ParseGroup(prefix, PrintItems(items) + q) == Some(Parsed(ItemLeaves(prefix, items), SkipWs(q)))
  {
    hide SkipWs, Bare, PrintTree, Leaves, ParseLeaf, ItemLeaves, PrintGaps, ParseGroup, TreeOk, GapsOk;
    var s := PrintItems(items.rest) + q;
    var r1 := PrintGaps(items.comma) + ("," + s);
    assert PrintItems(items) + q == PrintTree(items.tree) + r1;
    CommaLeaves(prefix, items);
    hide PrintItems;
    BareStarts(items.tree, r1);
    ParseLeafSkips(prefix, PrintTree(items.tree) + r1);
    GroupStep(prefix, PrintTree(items.tree) + r1, ParseLeaf(prefix, PrintTree(items.tree) + r1).value, s);
  }

  /** A leaf, a comma, and the rest of the group. */
  lemma GroupStep(prefix: seq<string>, text: string, first: Parsed, s: string)
    requires var r := SkipWs(text); r != "" && r[0] != '}' && r[0] != ',' && ParseLeaf(prefix, r) == Some(first)
    requires SkipWs(first.rest) == "," + s && ParseGroup(prefix, s).Some?
    ensures var others := ParseGroup(prefix, s).value;
            ParseGroup(prefix, text) == Some(Parsed(first.leaves + others.leaves, others.rest))
  {
    hide SkipWs, ParseLeaf;
    assert ("," + s)[1..] == s;
  }

  lemma CommaLeaves(prefix: seq<string>, items: Items)
    requires items.CommaItem?
    ensures ItemLeaves(prefix, items) == Leaves(prefix, items.tree) + ItemLeaves(prefix, items.rest)
  {
  }

  /** A `use` statement body: gaps at both ends and an optional leading `::`. */
  datatype Use = Use(pre: seq<Gap>, rooted: bool, tree: Tree, post: seq<Gap>)

  ghost predicate UseOk(u: Use) {
    GapsOk(u.pre) && TreeOk(u.tree) && GapsOk(u.post)
  }

  function PrintUse(u: Use): string {
    PrintGaps(u.pre) + (if u.rooted then "::" else "") + PrintTree(u.tree) + PrintGaps(u.post)
  }

  /** For every use tree, however it is laid out: parsing its print returns exactly its leaves, in order. */
  lemma ParseOfPrint(u: Use)
    requires UseOk(u)
    ensures ParseUseLeaves(PrintUse(u)) == Some(Leaves([], u.tree))
  {
    hide SkipWs, PrintTree, Bare, ParseGroup, Leaves, PrintGaps, GapsOk, TreeOk;
    var end := PrintGaps(u.post);
    var body := PrintTree(u.tree) + end;
    SkipSolid("");
    SkipGaps(u.post, "");
    GapBreaks(u.post, "");
    assert end + "" == end;
    assert PrintItems(LastItem(u.tree)) == PrintTree(u.tree);
    assert ItemLeaves([], LastItem(u.tree)) == Leaves([], u.tree);
    assert ItemsOk(LastItem(u.tree));
    hide PrintItems, ItemLeaves, ItemsOk;
    GroupOfPrint(LastItem(u.tree), [], end);
    if u.rooted {
      var r := "::" + body;
      SkipGaps(u.pre, r);
      SkipSolid(r);
      assert r[2..] == body;
      assert PrintUse(u) == PrintGaps(u.pre) + r;
    } else {
      SkipGaps(u.pre, body);
      assert PrintUse(u) == PrintGaps(u.pre) + body;
      BareStarts(u.tree, end);
      GroupSkips([], body);
    }
  }

  lemma GroupSkips(prefix: seq<string>, text: string)
    ensures ParseGroup(prefix, text) == ParseGroup(prefix, SkipWs(text))
  {
    hide SkipWs, ParseLeaf;
    SkipIsSolid(text);
  }

  /** The parser does not return on every text: here the loop runs past the end. */
  lemma TrailingColonsHang()
    ensures ParseUseLeaves("a::").None?
  {
    assert Ident("a::") == "a" by { assert "a::"[1..] == "::"; }
    assert "a::"[1..] == "::" && "::"[2..] == "";
    assert SkipWs("a::") == "a::" && SkipWs("::") == "::";
    assert ParseLeaf(["a"], "").None?;
    assert ParseLeaf(["a"], "::") == ParseLeaf(["a"], "");
    assert [] + ["a"] == ["a"];
    assert ParseLeaf([], "a::") == ParseLeaf(["a"], "::");
  }
}
