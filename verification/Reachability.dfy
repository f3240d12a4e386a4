/**
  Public reachability of modules in scripts/dep-guard/second_export.py: which module a
  `pub use` re-exports, and the iteration that marks everything reachable.
 */
module Reachability {
  import opened Wrappers
  import opened Chars
  import opened UseTree
  import opened UseTreeParsing

  datatype Item = Item(kind: string, text: string, pubPlain: bool)

  /** A module; `parent` and `children` are positions in the list of all modules. */
  datatype ModNode = ModNode(
    declaredPub: bool, modulePath: seq<string>, parent: Option<nat>, children: map<string, nat>, items: seq<Item>)

  predicate Linked(nodes: seq<ModNode>) {
    forall k :: 0 <= k < |nodes| ==>
      && (nodes[k].parent.Some? ==> nodes[k].parent.value < |nodes|)
      && (forall x :: x in nodes[k].children ==> nodes[k].children[x] < |nodes|)
  }

  // ---------- the target of a re-export ----------

  /** Python's `split("::")`. */
  function Split(s: string): seq<string> {
    SplitFrom("", s)
  }

  function SplitFrom(acc: string, s: string): seq<string>
    decreases |s|
  {
    if s == "" then [acc]
    else if StartsWith(s, "::") then [acc] + SplitFrom("", s[2..])
    else SplitFrom(acc + [s[0]], s[1..])
  }

  function Get(m: map<string, nat>, x: string): Option<nat> {
    if x in m then Some(m[x]) else None
  }

  function ParentOf(nodes: seq<ModNode>, k: nat): Option<ModNode>
    requires Linked(nodes) && k < |nodes|
  {
    if nodes[k].parent.Some? then Some(nodes[nodes[k].parent.value]) else None
  }

  function BaseOf(path: string): string {
    var base := if |path| >= 3 && path[|path| - 3..] == "::*" then path[..|path| - 3] else path;
    if StartsWith(base, "::") then base[2..] else base
  }

  function SegmentsOf(path: string): seq<string> {
    if BaseOf(path) == "" then [] else Split(BaseOf(path))
  }

  /** `_match_reexport_target` on the segments of the path. */
  function TargetOfSegments(nodes: seq<ModNode>, k: nat, segs: seq<string>): Option<nat>
    requires Linked(nodes) && k < |nodes|
  {
    var node := nodes[k];
    if |segs| == 1 then Get(node.children, segs[0])
    else if |segs| == 2 && segs[0] == "self" then Get(node.children, segs[1])
    else if |segs| == 2 && segs[0] == "super" && node.parent.Some? then Get(ParentOf(nodes, k).value.children, segs[1])
    else if segs != [] && segs[0] == "crate" then
      var expected := ["crate"] + node.modulePath;
      if |segs| == |expected| + 1 && segs[..|segs| - 1] == expected then Get(node.children, segs[|segs| - 1]) else None
    else None
  }

  function TargetOf(nodes: seq<ModNode>, k: nat, path: string): (target: Option<nat>)
    requires Linked(nodes) && k < |nodes|
    ensures target.Some? ==> target.value < |nodes|
  {
    TargetOfSegments(nodes, k, SegmentsOf(path))
  }

  // ---------- which paths name which module ----------

  predicate Segment(x: string) {
    x != "" && forall i :: 0 <= i < |x| ==> x[i] != ':'
  }

  lemma {:induction false} SplitWord(acc: string, x: string, rest: string)
    requires forall i :: 0 <= i < |x| ==> x[i] != ':'
    requires rest == "" || StartsWith(rest, "::")
    ensures SplitFrom(acc, x + rest) == SplitFrom(acc + x, rest)
    decreases |x|
  {
    if x == "" {
      assert x + rest == rest && acc + x == acc;
    } else {
      var s := x + rest;
      assert !StartsWith(s, "::") by { assert "::"[0] == ':'; if |s| >= 2 { assert s[..2][0] == x[0]; } }
      assert s[1..] == x[1..] + rest && acc + x == acc + [x[0]] + x[1..];
      SplitWord(acc + [x[0]], x[1..], rest);
    }
  }

  lemma {:induction false} SplitOfJoin(segs: seq<string>)
    requires segs != [] && forall i :: 0 <= i < |segs| ==> Segment(segs[i])
    ensures Split(Join(segs, "::")) == segs && Join(segs, "::") != "" && Join(segs, "::")[0] != ':'
  {
    if |segs| == 1 {
      SplitWord("", segs[0], "");
      assert segs[0] + "" == segs[0] && "" + segs[0] == segs[0];
      assert segs == [segs[0]];
    } else {
      SplitOfJoin(segs[1..]);
      var tail := "::" + Join(segs[1..], "::");
      assert tail[..2] == "::" && tail[2..] == Join(segs[1..], "::");
      assert Join(segs, "::") == segs[0] + tail && "" + segs[0] == segs[0];
      SplitWord("", segs[0], tail);
      assert SplitFrom(segs[0], tail) == [segs[0]] + SplitFrom("", tail[2..]);
      assert segs == [segs[0]] + segs[1..];
    }
  }

  /** A path is cut into the segments it was put together from, with or without `::` in front and `::*` behind. */
  lemma SegmentsOfPath(segs: seq<string>, rooted: bool, glob: bool)
    requires segs != [] && forall i :: 0 <= i < |segs| ==> Segment(segs[i])
    requires !glob ==> segs[|segs| - 1] != "*"
    ensures SegmentsOf((if rooted then "::" else "") + Join(segs, "::") + (if glob then "::*" else "")) == segs
  {
    hide Join, Split, BaseOf, Segment;
    SplitOfJoin(segs);
    if !glob { NoGlobEnd(segs, rooted); }
    BaseOfPath(Join(segs, "::"), rooted, glob);
  }

  /** Nothing but a root or a glob is no path at all. */
  lemma EmptyPaths()
    ensures SegmentsOf("") == SegmentsOf("::") == SegmentsOf("::*") == SegmentsOf("::::*") == []
  {
    var p := "::::*";
    assert p[|p| - 3..] == "::*" && p[..|p| - 3] == "::" && "::*"[..0] == "" && "::"[2..] == "";
    TwoAre("::", "::");
  }

  lemma BaseOfPath(core: string, rooted: bool, glob: bool)
    requires core != "" && core[0] != ':'
    requires var path := (if rooted then "::" else "") + core; !glob ==> !(|path| >= 3 && path[|path| - 3..] == "::*")
    ensures BaseOf((if rooted then "::" else "") + core + (if glob then "::*" else "")) == core
  {
    var base := (if rooted then "::" else "") + core;
    var path := base + (if glob then "::*" else "");
    TwoAre(base, "::");
    if glob {
      assert path[|path| - 3..] == "::*" && path[..|path| - 3] == base;
    } else {
      assert path == base;
    }
    if rooted {
      assert base[0] == ':' && base[1] == ':' && base[2..] == core;
    } else {
      assert base == core;
    }
  }

  /** A path whose last segment is not `*` does not end in `::*`. */
  lemma {:induction false} NoGlobEnd(segs: seq<string>, rooted: bool)
    requires segs != [] && forall i :: 0 <= i < |segs| ==> Segment(segs[i])
    requires segs[|segs| - 1] != "*"
    ensures var path := (if rooted then "::" else "") + Join(segs, "::");
            !(|path| >= 3 && path[|path| - 3..] == "::*")
  {
    hide Join, Segment;
    var pre, last := if rooted then "::" else "", segs[|segs| - 1];
    var front := JoinEnds(segs);
    var path := pre + (front + last);
    assert Segment(last);
    LastChars(last);
    EndsInGlob(path);
    assert path[|path| - 1] == last[|last| - 1];
    if |last| > 1 { assert path[|path| - 2] == last[|last| - 2]; }
  }

  lemma LastChars(last: string)
    requires Segment(last) && last != "*"
    ensures last != "" && (|last| > 1 ==> last[|last| - 2] != ':') && (|last| == 1 ==> last[0] != '*')
  {
    if |last| == 1 { assert last == [last[0]]; }
  }

  lemma EndsInGlob(path: string)
    ensures |path| >= 3 && path[|path| - 3..] == "::*" ==> path[|path| - 2] == ':' && path[|path| - 1] == '*'
  {
    if |path| >= 3 && path[|path| - 3..] == "::*" {
      assert path[|path| - 2] == path[|path| - 3..][1] && path[|path| - 1] == path[|path| - 3..][2];
    }
  }

  lemma {:induction false} JoinEnds(segs: seq<string>) returns (front: string)
    requires segs != []
    ensures Join(segs, "::") == front + segs[|segs| - 1]
  {
    if |segs| == 1 {
      front := "";
    } else {
      var rest := JoinEnds(segs[1..]);
      front := segs[0] + ("::" + rest);
    }
  }

  /**
    The re-exports that are followed: `x`, `self::x`, `super::x` and `crate::<own path>::x`,
    each also as a glob and with a leading `::`.
   */
  lemma TargetsAre(nodes: seq<ModNode>, k: nat, x: string, rooted: bool, glob: bool)
    requires Linked(nodes) && k < |nodes| && Segment(x) && x != "*"
    requires forall i :: 0 <= i < |nodes[k].modulePath| ==> Segment(nodes[k].modulePath[i])
    ensures var pre, post := if rooted then "::" else "", if glob then "::*" else "";
            && TargetOf(nodes, k, pre + Join([x], "::") + post) == Get(nodes[k].children, x)
            && TargetOf(nodes, k, pre + Join(["self", x], "::") + post) == Get(nodes[k].children, x)
            && (nodes[k].parent.Some? ==>
                  TargetOf(nodes, k, pre + Join(["super", x], "::") + post) == Get(ParentOf(nodes, k).value.children, x))
            && TargetOf(nodes, k, pre + Join(["crate"] + nodes[k].modulePath + [x], "::") + post) == Get(nodes[k].children, x)
  {
    hide SegmentsOf, Join;
    SegmentsOfPath([x], rooted, glob);
    SegmentsOfPath(["self", x], rooted, glob);
    SegmentsOfPath(["super", x], rooted, glob);
    var own := ["crate"] + nodes[k].modulePath;
    assert own + [x] == (own + [x])[..|own|] + [x] && (own + [x])[..|own|] == own;
    forall i | 0 <= i < |own + [x]| ensures Segment((own + [x])[i]) { }
    SegmentsOfPath(own + [x], rooted, glob);
    assert "self"[0] != "crate"[0] && "super"[1] != "self"[1];
    if nodes[k].modulePath == [] { assert own + [x] == ["crate", x]; }
  }

  /** The segments of a path under which module `k` re-exports the child `x` of itself or of its parent. */
  predicate Follows(nodes: seq<ModNode>, k: nat, segs: seq<string>, x: string, ofParent: bool)
    requires Linked(nodes) && k < |nodes|
  {
    if ofParent then segs == ["super", x] && nodes[k].parent.Some?
    else segs == [x] || segs == ["self", x] || segs == ["crate"] + nodes[k].modulePath + [x]
  }

  function ChildrenOf(nodes: seq<ModNode>, k: nat, ofParent: bool): map<string, nat>
    requires Linked(nodes) && k < |nodes| && (ofParent ==> nodes[k].parent.Some?)
  {
    if ofParent then ParentOf(nodes, k).value.children else nodes[k].children
  }

  /** Those are all: any other path is followed nowhere. */
  lemma TargetsAreExactly(nodes: seq<ModNode>, k: nat, path: string, c: nat)
    requires Linked(nodes) && k < |nodes|
    ensures TargetOf(nodes, k, path) == Some(c) <==>
      exists x: string, ofParent: bool :: Follows(nodes, k, SegmentsOf(path), x, ofParent)
        && x in ChildrenOf(nodes, k, ofParent) && ChildrenOf(nodes, k, ofParent)[x] == c
  {
    hide SegmentsOf;
    var segs := SegmentsOf(path);
    assert "self" != "crate" && "super" != "crate" && "super" != "self";
    var own := ["crate"] + nodes[k].modulePath;
    if segs != [] {
      var n := |segs| - 1;
      assert segs == segs[..n] + [segs[n]];
      assert segs[..n] == own ==> segs == own + [segs[n]];
      assert |segs| == 1 ==> segs == [segs[0]];
      assert |segs| == 2 ==> segs == [segs[0], segs[1]];
      assert TargetOf(nodes, k, path) == Some(c) ==>
        Follows(nodes, k, segs, segs[n], |segs| == 2 && segs[0] == "super")
        && segs[n] in ChildrenOf(nodes, k, |segs| == 2 && segs[0] == "super")
        && ChildrenOf(nodes, k, |segs| == 2 && segs[0] == "super")[segs[n]] == c;
    }
    forall x: string, ofParent: bool | Follows(nodes, k, segs, x, ofParent)
      ensures TargetOf(nodes, k, path) == Get(ChildrenOf(nodes, k, ofParent), x)
    {
      assert (own + [x])[..|own|] == own;
    }
  }

  // ---------- the least fixpoint ----------

  /** The paths a `pub use` statement of this module re-exports. */
  function Reexports(item: Item): seq<Leaf> {
    if item.kind == "use" && item.pubPlain && ParseUseLeaves(item.text).Some? then ParseUseLeaves(item.text).value else []
  }

  /** Parsing returns for every `pub use` statement of the modules in `s`. */
  ghost predicate AllParse(nodes: seq<ModNode>, s: set<nat>) {
    forall k, j :: 0 <= k < |nodes| && k in s && 0 <= j < |nodes[k].items| ==> ItemParses(nodes[k].items[j])
  }

  ghost predicate ItemParses(item: Item) {
    item.kind == "use" && item.pubPlain ==> ParseUseLeaves(item.text).Some?
  }

  /** Module `k` re-exports module `c`. */
  ghost predicate Exports(nodes: seq<ModNode>, k: nat, c: nat)
    requires Linked(nodes) && k < |nodes|
  {
    exists j, l :: 0 <= j < |nodes[k].items| && 0 <= l < |Reexports(nodes[k].items[j])|
      && TargetOf(nodes, k, Reexports(nodes[k].items[j])[l].path) == Some(c)
  }

  /** A module is public if it is the root or a public child of a public module. */
  ghost predicate Declared(nodes: seq<ModNode>, s: set<nat>, k: nat)
    requires Linked(nodes) && k < |nodes|
  {
    nodes[k].parent.None? || (nodes[k].parent.value in s && nodes[k].declaredPub)
  }

  ghost predicate ParentsClosed(nodes: seq<ModNode>, s: set<nat>)
    requires Linked(nodes)
  {
    forall k: nat :: k < |nodes| && Declared(nodes, s, k) ==> k in s
  }

  ghost predicate UsesClosed(nodes: seq<ModNode>, s: set<nat>)
    requires Linked(nodes)
  {
    forall k: nat, c: nat :: k < |nodes| && k in s && Exports(nodes, k, c) ==> c in s
  }

  ghost predicate Closed(nodes: seq<ModNode>, s: set<nat>)
    requires Linked(nodes)
  {
    ParentsClosed(nodes, s) && UsesClosed(nodes, s)
  }

  /** The modules in every closed set that contains `s`. */
  ghost function Least(nodes: seq<ModNode>, s: set<nat>): set<nat>
    requires Linked(nodes)
  {
    set k: nat | k < |nodes| && InEvery(nodes, s, k)
  }

  ghost predicate InEvery(nodes: seq<ModNode>, s: set<nat>, k: nat)
    requires Linked(nodes)
  {
    forall c :: Closed(nodes, c) && s <= c ==> k in c
  }

  /** That is itself closed, so it is the least. */
  lemma LeastIsClosed(nodes: seq<ModNode>, s: set<nat>)
    requires Linked(nodes)
    ensures Closed(nodes, Least(nodes, s))
    ensures (forall k :: k in s ==> k < |nodes|) ==> s <= Least(nodes, s)
  {
    hide Exports, Reexports, TargetOf;
    var least := Least(nodes, s);
    forall k: nat | k < |nodes| && Declared(nodes, least, k) ensures k in least {
      forall c | Closed(nodes, c) && s <= c ensures k in c { assert Declared(nodes, c, k); }
    }
    forall k: nat, x: nat | k < |nodes| && k in least && Exports(nodes, k, x) ensures x in least {
      ExportsANode(nodes, k, x);
      forall c | Closed(nodes, c) && s <= c ensures x in c { assert k in c && UsesClosed(nodes, c); }
    }
  }

  lemma ExportsANode(nodes: seq<ModNode>, k: nat, c: nat)
    requires Linked(nodes) && k < |nodes| && Exports(nodes, k, c)
    ensures c < |nodes|
  {
  }

  // ---------- reachability by chains of declarations and re-exports ----------

  /** Module `a` has a plain `pub use` with a path that names module `b`. */
  ghost predicate Reexported(nodes: seq<ModNode>, a: nat, b: nat)
    requires Linked(nodes) && a < |nodes|
  {
    exists item: Item, leaf: Leaf :: item in nodes[a].items && Offers(item, leaf) && LeadsTo(nodes, a, leaf.path, b)
  }

  /** The statement is a plain `pub use` and lists the leaf. */
  ghost predicate Offers(item: Item, leaf: Leaf) {
    item.kind == "use" && item.pubPlain && ParseUseLeaves(item.text).Some? && leaf in ParseUseLeaves(item.text).value
  }

  /** The path names module `b`, a child of module `a` or of its parent. */
  ghost predicate LeadsTo(nodes: seq<ModNode>, a: nat, path: string, b: nat)
    requires Linked(nodes) && a < |nodes|
  {
    exists x: string, ofParent: bool :: Follows(nodes, a, SegmentsOf(path), x, ofParent)
      && x in ChildrenOf(nodes, a, ofParent) && ChildrenOf(nodes, a, ofParent)[x] == b
  }

  /** From module `a` one gets to module `b`: a public child, or re-exported. */
  ghost predicate Leads(nodes: seq<ModNode>, a: nat, b: nat)
    requires Linked(nodes)
  {
    && a < |nodes| && b < |nodes|
    && ((nodes[b].parent == Some(a) && nodes[b].declaredPub) || Reexported(nodes, a, b))
  }

  /** A chain from the root, or from a module in `s`, to module `k`. */
  ghost predicate IsChain(nodes: seq<ModNode>, s: set<nat>, ks: seq<nat>, k: nat)
    requires Linked(nodes)
  {
    && ks != [] && ks[|ks| - 1] == k && k < |nodes|
    && (ks[0] in s || (ks[0] < |nodes| && nodes[ks[0]].parent == None))
    && forall i :: 0 < i < |ks| ==> Leads(nodes, ks[i - 1], ks[i])
  }

  ghost predicate IsReachable(nodes: seq<ModNode>, s: set<nat>, k: nat)
    requires Linked(nodes)
  {
    exists ks :: IsChain(nodes, s, ks, k)
  }

  lemma OffersIff(item: Item, leaf: Leaf)
    ensures Offers(item, leaf) <==> leaf in Reexports(item)
  {
    hide ParseUseLeaves;
  }

  lemma ReexportedIff(nodes: seq<ModNode>, a: nat, b: nat)
    requires Linked(nodes) && a < |nodes|
    ensures Reexported(nodes, a, b) <==> Exports(nodes, a, b)
  {
    hide TargetOf, Offers, LeadsTo, Reexports;
    if Reexported(nodes, a, b) {
      var item: Item, leaf: Leaf :| item in nodes[a].items && Offers(item, leaf) && LeadsTo(nodes, a, leaf.path, b);
      LeadsToIff(nodes, a, leaf.path, b);
      OffersIff(item, leaf);
      var j :| 0 <= j < |nodes[a].items| && nodes[a].items[j] == item;
      var l :| 0 <= l < |Reexports(item)| && Reexports(item)[l] == leaf;
      assert TargetOf(nodes, a, Reexports(nodes[a].items[j])[l].path) == Some(b);
    }
    if Exports(nodes, a, b) {
      var j, l :| 0 <= j < |nodes[a].items| && 0 <= l < |Reexports(nodes[a].items[j])|
        && TargetOf(nodes, a, Reexports(nodes[a].items[j])[l].path) == Some(b);
      var item := nodes[a].items[j];
      var leaf := Reexports(item)[l];
      LeadsToIff(nodes, a, leaf.path, b);
      OffersIff(item, leaf);
    }
  }

  lemma LeadsToIff(nodes: seq<ModNode>, a: nat, path: string, b: nat)
    requires Linked(nodes) && a < |nodes|
    ensures LeadsTo(nodes, a, path, b) <==> TargetOf(nodes, a, path) == Some(b)
  {
    hide SegmentsOf, TargetOf;
    TargetsAreExactly(nodes, a, path, b);
  }

  /** A closed set has everything at the end of a chain that starts in it. */
  lemma {:induction false} ChainStays(nodes: seq<ModNode>, s: set<nat>, ks: seq<nat>, k: nat, c: set<nat>)
    requires Linked(nodes) && IsChain(nodes, s, ks, k) && Closed(nodes, c) && s <= c
    ensures k in c
    decreases |ks|
  {
    var n := |ks| - 1;
    if n == 0 {
      if k !in s { assert Declared(nodes, c, k); }
    } else {
      var j := ks[n - 1];
      assert Leads(nodes, ks[n - 1], ks[n]);
      assert IsChain(nodes, s, ks[..n], j);
      ChainStays(nodes, s, ks[..n], j, c);
      ReexportedIff(nodes, j, k);
      if !Reexported(nodes, j, k) { assert Declared(nodes, c, k); }
    }
  }

  lemma ChainGrows(nodes: seq<ModNode>, s: set<nat>, ks: seq<nat>, a: nat, b: nat)
    requires Linked(nodes) && IsChain(nodes, s, ks, a) && Leads(nodes, a, b)
    ensures IsChain(nodes, s, ks + [b], b)
  {
    hide Leads;
    var more := ks + [b];
    forall i | 0 < i < |more| ensures Leads(nodes, more[i - 1], more[i]) {
      if i < |ks| { assert Leads(nodes, ks[i - 1], ks[i]); }
    }
    LeadsWithin(nodes, a, b);
  }

  lemma LeadsWithin(nodes: seq<ModNode>, a: nat, b: nat)
    requires Linked(nodes) && Leads(nodes, a, b)
    ensures a < |nodes| && b < |nodes|
  {
  }

  /** What chains reach is closed. */
  lemma ReachableIsClosed(nodes: seq<ModNode>, s: set<nat>, r: set<nat>)
    requires Linked(nodes) && forall k: nat :: k in r <==> k < |nodes| && IsReachable(nodes, s, k)
    ensures Closed(nodes, r)
  {
    hide Reexported, Exports;
    forall k: nat | k < |nodes| && Declared(nodes, r, k) ensures k in r {
      if nodes[k].parent.None? {
        assert IsChain(nodes, s, [k], k);
      } else {
        var p := nodes[k].parent.value;
        var ks :| IsChain(nodes, s, ks, p);
        assert Leads(nodes, p, k);
        ChainGrows(nodes, s, ks, p, k);
      }
    }
    forall k: nat, c: nat | k < |nodes| && k in r && Exports(nodes, k, c) ensures c in r {
      ExportsANode(nodes, k, c);
      ReexportedIff(nodes, k, c);
      var ks :| IsChain(nodes, s, ks, k);
      assert Leads(nodes, k, c);
      ChainGrows(nodes, s, ks, k, c);
    }
  }

  /** The least closed set is what chains of public declarations and re-exports reach. */
  lemma LeastIsReachable(nodes: seq<ModNode>, s: set<nat>)
    requires Linked(nodes) && forall k :: k in s ==> k < |nodes|
    ensures forall k: nat :: k in Least(nodes, s) <==> k < |nodes| && IsReachable(nodes, s, k)
  {
    hide Closed, IsChain;
    var r := set k: nat | k < |nodes| && IsReachable(nodes, s, k);
    ReachableIsClosed(nodes, s, r);
    assert s <= r by {
      forall k | k in s ensures k in r { StartsChain(nodes, s, k); }
    }
    forall k: nat | k < |nodes| && IsReachable(nodes, s, k) ensures k in Least(nodes, s) {
      var ks :| IsChain(nodes, s, ks, k);
      forall c | Closed(nodes, c) && s <= c ensures k in c { ChainStays(nodes, s, ks, k, c); }
    }
  }

  lemma StartsChain(nodes: seq<ModNode>, s: set<nat>, k: nat)
    requires Linked(nodes) && k in s && k < |nodes|
    ensures IsReachable(nodes, s, k)
  {
    assert IsChain(nodes, s, [k], k);
  }

  ghost function Marked(flags: seq<bool>): set<nat> {
    set k: nat | k < |flags| && flags[k]
  }

  /** `b` is within every closed set that `a` is within. */
  ghost predicate Within(nodes: seq<ModNode>, a: set<nat>, b: set<nat>)
    requires Linked(nodes)
  {
    forall s :: Closed(nodes, s) && a <= s ==> b <= s
  }

  lemma WithinTransitive(nodes: seq<ModNode>, a: set<nat>, b: set<nat>, c: set<nat>)
    requires Linked(nodes) && Within(nodes, a, b) && Within(nodes, b, c)
    ensures Within(nodes, a, c)
  {
  }

  lemma MarkOne(flags: seq<bool>, k: nat)
    requires k < |flags|
    ensures Marked(flags[k := true]) == Marked(flags) + {k}
  {
  }

  /** One pass over the declarations. */
  method PropagateDeclarations(nodes: seq<ModNode>, reachable: array<bool>) returns (changed: bool)
    requires Linked(nodes) && reachable.Length == |nodes|
    modifies reachable
    ensures old(Marked(reachable[..])) <= Marked(reachable[..])
    ensures Within(nodes, old(Marked(reachable[..])), Marked(reachable[..]))
    ensures !changed ==> reachable[..] == old(reachable[..]) && ParentsClosed(nodes, Marked(reachable[..]))
    ensures changed ==> old(Marked(reachable[..])) < Marked(reachable[..])
  {
    changed := false;
    ghost var start := Marked(reachable[..]);
    for k := 0 to |nodes|
      invariant start <= Marked(reachable[..])
      invariant Within(nodes, start, Marked(reachable[..]))
      invariant !changed ==> reachable[..] == old(reachable[..])
      invariant !changed ==> forall j: nat :: j < k && Declared(nodes, start, j) ==> j in start
      invariant changed ==> start < Marked(reachable[..])
    {
      ghost var flags := reachable[..];
      assert forall j: nat :: j < |nodes| ==> (j in Marked(flags) <==> reachable[j]);
      if !reachable[k] {
        var want := nodes[k].parent.None? || (reachable[nodes[k].parent.value] && nodes[k].declaredPub);
        assert want <==> Declared(nodes, Marked(flags), k);
        if want {
          reachable[k] := true;
          changed := true;
          MarkOne(flags, k);
          assert reachable[..] == flags[k := true];
          assert Within(nodes, Marked(flags), Marked(reachable[..])) by {
            forall s | Closed(nodes, s) && Marked(flags) <= s ensures k in s { assert Declared(nodes, s, k); }
          }
        }
      }
    }
  }

  /** Marks the targets of one path. */
  method MarkTarget(nodes: seq<ModNode>, k: nat, path: string, reachable: array<bool>) returns (changed: bool)
    requires Linked(nodes) && reachable.Length == |nodes| && k < |nodes|
    modifies reachable
    ensures var target := TargetOf(nodes, k, path);
            Marked(reachable[..]) == old(Marked(reachable[..])) + if target.Some? then {target.value} else {}
    ensures changed <==> Marked(reachable[..]) != old(Marked(reachable[..]))
    ensures !changed ==> reachable[..] == old(reachable[..])
  {
    changed := false;
    var target := TargetOf(nodes, k, path);
    if target.Some? {
      ghost var flags := reachable[..];
      if reachable[target.value] {
        assert flags[target.value];
      } else {
        assert !flags[target.value];
        reachable[target.value] := true;
        assert reachable[..] == flags[target.value := true];
        MarkOne(flags, target.value);
        changed := true;
      }
    }
  }

  /** Every target of item `j` of module `k` is marked. */
  ghost predicate ItemDone(nodes: seq<ModNode>, s: set<nat>, k: nat, j: nat)
    requires Linked(nodes) && k < |nodes| && j < |nodes[k].items|
  {
    forall l :: 0 <= l < |Reexports(nodes[k].items[j])| ==>
      var target := TargetOf(nodes, k, Reexports(nodes[k].items[j])[l].path);
      target.Some? ==> target.value in s
  }

  lemma TargetIsWithin(nodes: seq<ModNode>, s: set<nat>, k: nat, j: nat, l: nat, c: nat)
    requires Linked(nodes) && k < |nodes| && k in s && j < |nodes[k].items| && l < |Reexports(nodes[k].items[j])|
    requires TargetOf(nodes, k, Reexports(nodes[k].items[j])[l].path) == Some(c)
    ensures Within(nodes, s, s + {c})
  {
    hide TargetOf, Reexports;
    assert Exports(nodes, k, c);
  }

  /** `ok` is false when the parser does not return on this item. */
  method MarkItem(nodes: seq<ModNode>, k: nat, j: nat, reachable: array<bool>) returns (ok: bool, changed: bool)
    requires Linked(nodes) && reachable.Length == |nodes| && k < |nodes| && j < |nodes[k].items| && reachable[k]
    modifies reachable
    ensures ok <==> ItemParses(nodes[k].items[j])
    ensures old(Marked(reachable[..])) <= Marked(reachable[..])
    ensures Within(nodes, old(Marked(reachable[..])), Marked(reachable[..]))
    ensures !changed ==> reachable[..] == old(reachable[..])
    ensures ok && !changed ==> ItemDone(nodes, Marked(reachable[..]), k, j)
    ensures changed ==> old(Marked(reachable[..])) < Marked(reachable[..])
  {
    hide TargetOf, ParseUseLeaves, Within;
    ok, changed := true, false;
    var item := nodes[k].items[j];
    ghost var start := Marked(reachable[..]);
    WithinReflexive(nodes, start);
    if item.kind != "use" || !item.pubPlain { return; }
    var parser := new UseTreeParser(item.text);
    var parsed := parser.Parse();
    if parsed.None? { return false, false; }
    var leaves := parsed.value;
    assert leaves == Reexports(item);
    hide Reexports;
    assert reachable[..][k];
    for l := 0 to |leaves|
      invariant start <= Marked(reachable[..]) && k in Marked(reachable[..])
      invariant Within(nodes, start, Marked(reachable[..]))
      invariant !changed ==> reachable[..] == old(reachable[..])
      invariant !changed ==> forall m :: 0 <= m < l ==>
        (var target := TargetOf(nodes, k, leaves[m].path); target.Some? ==> target.value in start)
      invariant changed ==> start < Marked(reachable[..])
    {
      ghost var before := Marked(reachable[..]);
      var grew := MarkTarget(nodes, k, leaves[l].path, reachable);
      ghost var target := TargetOf(nodes, k, leaves[l].path);
      if target.Some? {
        TargetIsWithin(nodes, before, k, j, l, target.value);
        WithinTransitive(nodes, start, before, before + {target.value});
      }
      if grew { changed := true; }
    }
  }

  lemma WithinReflexive(nodes: seq<ModNode>, s: set<nat>)
    requires Linked(nodes)
    ensures Within(nodes, s, s)
  {
  }

  /** Item `j` of module `k` parses and every target of it is marked. */
  ghost predicate ItemSettled(nodes: seq<ModNode>, s: set<nat>, k: nat, j: nat)
    requires Linked(nodes) && k < |nodes| && j < |nodes[k].items|
  {
    ItemParses(nodes[k].items[j]) && ItemDone(nodes, s, k, j)
  }

  /** Some `pub use` statement of a module in `s` does not parse. */
  ghost predicate Stuck(nodes: seq<ModNode>, s: set<nat>) {
    exists k, j :: 0 <= k < |nodes| && k in s && 0 <= j < |nodes[k].items| && !ItemParses(nodes[k].items[j])
  }

  /** One module of the pass over the `pub use` statements. */
  method MarkItems(nodes: seq<ModNode>, k: nat, reachable: array<bool>) returns (ok: bool, changed: bool)
    requires Linked(nodes) && reachable.Length == |nodes| && k < |nodes| && reachable[k]
    modifies reachable
    ensures old(Marked(reachable[..])) <= Marked(reachable[..])
    ensures Within(nodes, old(Marked(reachable[..])), Marked(reachable[..]))
    ensures !ok ==> Stuck(nodes, Marked(reachable[..]))
    ensures !changed ==> reachable[..] == old(reachable[..])
    ensures ok && !changed ==> forall j: nat :: j < |nodes[k].items| ==> ItemSettled(nodes, Marked(reachable[..]), k, j)
    ensures changed ==> old(Marked(reachable[..])) < Marked(reachable[..])
  {
    hide TargetOf, Within, ItemParses, Reexports, ItemDone;
    ok, changed := true, false;
    ghost var start := Marked(reachable[..]);
    WithinReflexive(nodes, start);
    assert reachable[..][k] == reachable[k];
    for j := 0 to |nodes[k].items|
      invariant start <= Marked(reachable[..]) && k in Marked(reachable[..])
      invariant Within(nodes, start, Marked(reachable[..]))
      invariant !changed ==> reachable[..] == old(reachable[..])
      invariant !changed ==> forall i: nat :: i < j ==> ItemSettled(nodes, start, k, i)
      invariant changed ==> start < Marked(reachable[..])
    {
      ghost var before := Marked(reachable[..]);
      assert reachable[..][k] == reachable[k];
      var parses, grew := MarkItem(nodes, k, j, reachable);
      WithinTransitive(nodes, start, before, Marked(reachable[..]));
      if grew { changed := true; }
      if !parses {
        return false, changed;
      }
    }
  }

  /** One pass over the `pub use` statements of reachable modules. */
  method PropagateUses(nodes: seq<ModNode>, reachable: array<bool>) returns (ok: bool, changed: bool)
    requires Linked(nodes) && reachable.Length == |nodes|
    modifies reachable
    ensures old(Marked(reachable[..])) <= Marked(reachable[..])
    ensures Within(nodes, old(Marked(reachable[..])), Marked(reachable[..]))
    ensures !ok ==> Stuck(nodes, Marked(reachable[..]))
    ensures !changed ==> reachable[..] == old(reachable[..])
    ensures ok && !changed ==> UsesClosed(nodes, Marked(reachable[..])) && AllParse(nodes, Marked(reachable[..]))
    ensures changed ==> old(Marked(reachable[..])) < Marked(reachable[..])
  {
    hide TargetOf, Within, ItemParses, Reexports, ItemSettled, Stuck, UsesClosed, AllParse;
    ok, changed := true, false;
    ghost var start := Marked(reachable[..]);
    WithinReflexive(nodes, start);
    for k := 0 to |nodes|
      invariant start <= Marked(reachable[..]) && Within(nodes, start, Marked(reachable[..]))
      invariant !changed ==> reachable[..] == old(reachable[..])
      invariant !changed ==> forall m: nat, j: nat :: m < k && m in start && j < |nodes[m].items| ==> ItemSettled(nodes, start, m, j)
      invariant changed ==> start < Marked(reachable[..])
    {
      assert k in Marked(reachable[..]) <==> reachable[k] by { assert reachable[..][k] == reachable[k]; }
      if reachable[k] {
        ghost var before := Marked(reachable[..]);
        var parses, grew := MarkItems(nodes, k, reachable);
        WithinTransitive(nodes, start, before, Marked(reachable[..]));
        if grew { changed := true; }
        if !parses { return false, changed; }
      }
    }
    if !changed { DoneIsClosed(nodes, start); }
  }

  lemma DoneIsClosed(nodes: seq<ModNode>, s: set<nat>)
    requires Linked(nodes)
    requires forall m: nat, j: nat :: m < |nodes| && m in s && j < |nodes[m].items| ==> ItemSettled(nodes, s, m, j)
    ensures UsesClosed(nodes, s) && AllParse(nodes, s)
  {
    hide TargetOf, Reexports, ItemParses;
    forall k: nat, c: nat | k < |nodes| && k in s && Exports(nodes, k, c) ensures c in s {
      var j, l :| 0 <= j < |nodes[k].items| && 0 <= l < |Reexports(nodes[k].items[j])|
        && TargetOf(nodes, k, Reexports(nodes[k].items[j])[l].path) == Some(c);
      assert ItemSettled(nodes, s, k, j);
    }
    forall k, j | 0 <= k < |nodes| && k in s && 0 <= j < |nodes[k].items| ensures ItemParses(nodes[k].items[j]) {
      assert ItemSettled(nodes, s, k, j);
    }
  }

  /**
    `_propagate`: passes over the declarations and the re-exports until neither marks
    anything. It returns if and only if every `pub use` statement parses in every module of the
    least closed set that contains what was marked before, and then exactly that set is
    marked, in whatever order the modules are listed.
   */
  method Propagate(nodes: seq<ModNode>, reachable: array<bool>) returns (returned: bool)
    requires Linked(nodes) && reachable.Length == |nodes|
    modifies reachable
    ensures returned <==> AllParse(nodes, Least(nodes, old(Marked(reachable[..]))))
    ensures returned ==> Marked(reachable[..]) == Least(nodes, old(Marked(reachable[..])))
    ensures returned ==> forall k :: 0 <= k < |nodes| ==> (reachable[k] <==> IsReachable(nodes, old(Marked(reachable[..])), k))
  {
    hide IsReachable;
    var changed := true;
    ghost var start := Marked(reachable[..]);
    LeastIsReachable(nodes, start);
    hide Closed, AllParse, Stuck, Within, Least;
    WithinReflexive(nodes, start);
    while changed
      invariant start <= Marked(reachable[..])
      invariant Within(nodes, start, Marked(reachable[..]))
      invariant !changed ==> ParentsClosed(nodes, Marked(reachable[..])) && UsesClosed(nodes, Marked(reachable[..]))
      invariant !changed ==> AllParse(nodes, Marked(reachable[..]))
      decreases Unmarked(reachable[..]), changed
    {
      ghost var flags := reachable[..];
      ghost var before := Marked(flags);
      var a := PropagateDeclarations(nodes, reachable);
      ghost var mid := Marked(reachable[..]);
      var ok, b := PropagateUses(nodes, reachable);
      WithinTransitive(nodes, start, before, mid);
      WithinTransitive(nodes, start, mid, Marked(reachable[..]));
      if !ok {
        StuckInLeast(nodes, start, Marked(reachable[..]));
        return false;
      }
      changed := a || b;
      if changed { MoreMarked(flags, reachable[..]); }
    }
    ClosedIsLeast(nodes, start, Marked(reachable[..]));
    assert forall k :: 0 <= k < |nodes| ==> (reachable[k] <==> k in Marked(reachable[..]));
    return true;
  }

  lemma StuckInLeast(nodes: seq<ModNode>, start: set<nat>, now: set<nat>)
    requires Linked(nodes) && Within(nodes, start, now) && Stuck(nodes, now)
    ensures !AllParse(nodes, Least(nodes, start))
  {
    hide Closed, ItemParses;
    var k, j :| 0 <= k < |nodes| && k in now && 0 <= j < |nodes[k].items| && !ItemParses(nodes[k].items[j]);
    assert k in Least(nodes, start);
  }

  lemma ClosedIsLeast(nodes: seq<ModNode>, start: set<nat>, now: set<nat>)
    requires Linked(nodes) && Within(nodes, start, now) && start <= now && forall k :: k in now ==> k < |nodes|
    requires ParentsClosed(nodes, now) && UsesClosed(nodes, now)
    ensures now == Least(nodes, start)
  {
    hide ParentsClosed, UsesClosed;
    assert Closed(nodes, now);
  }

  ghost function Unmarked(flags: seq<bool>): set<nat> {
    set k: nat | k < |flags| && !flags[k]
  }

  lemma MoreMarked(a: seq<bool>, b: seq<bool>)
    requires |a| == |b| && Marked(a) < Marked(b)
    ensures Unmarked(b) < Unmarked(a)
  {
    forall k | k in Unmarked(b) ensures k in Unmarked(a) {
      if k in Marked(a) { assert k in Marked(b); }
    }
    assert !(Marked(b) <= Marked(a));
    var x :| x in Marked(b) && x !in Marked(a);
    assert x in Unmarked(a) && x !in Unmarked(b);
  }
}
