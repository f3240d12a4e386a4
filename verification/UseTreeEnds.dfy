/**
  When the use-tree parser returns. Its recursive descent runs past the end of the text, and
  never stops, exactly when the text runs out inside a leaf. `LeafOpen` finds that out in one
  pass with a count of open groups, building no leaves.
 */
module UseTreeEnds {
  import opened Wrappers
  import opened Chars
  import opened UseTree

  /** Before an item of a group, inside a leaf, after a leaf, after the last item of a group. */
  datatype Mode = Before | Inside | Behind | Over

  function Rank(m: Mode): nat {
    match m case Before => 2 case Inside => 1 case Behind => 1 case Over => 0
  }

  /** What is left after the last name of a leaf: past an alias, if there is one. */
  function AfterName(r: string): (q: string)
    ensures |q| <= |r|
  {
    var after := AfterAs(r);
    if after.None? then r else var q := SkipWs(after.value); q[|Ident(q)|..]
  }

  /** With `d` groups open: does the text run out inside a leaf? */
  predicate LeafOpen(m: Mode, d: nat, text: string)
    decreases |text|, d, Rank(m)
  {
    var r := SkipWs(text);
    match m
    case Before => LeafOpen(if r == "" || r[0] == '}' || r[0] == ',' then Over else Inside, d, r)
    case Inside =>
      if r == "" then true
      else if r[0] == '{' then LeafOpen(Before, d + 1, r[1..])
      else if r[0] == '*' then LeafOpen(Behind, d, r[1..])
      else if r[0] == ':' then LeafOpen(Inside, d, if |r| > 1 && r[1] == ':' then r[2..] else r[1..])
      else
        var id := Ident(r);
        if id == "" then LeafOpen(Inside, d, r[1..])
        else
          var r2 := SkipWs(r[|id|..]);
          if At(r2, ':') then LeafOpen(Inside, d, r2) else LeafOpen(Behind, d, AfterName(r2))
    case Behind => if At(r, ',') then LeafOpen(Before, d, r[1..]) else LeafOpen(Over, d, r)
    case Over => d > 0 && LeafOpen(Behind, d - 1, if At(r, '}') then r[1..] else r)
  }

  lemma {:induction false} GroupEnds(prefix: seq<string>, d: nat, text: string)
    ensures var p := ParseGroup(prefix, text);
      LeafOpen(Before, d, text) == if p.None? then true else LeafOpen(Over, d, p.value.rest)
    decreases |text|, 1
  {
    hide SkipWs, LeafOpen, ParseLeaf;
    var r := SkipWs(text);
    BeforeItem(d, text);
    if r != "" && r[0] != '}' && r[0] != ',' {
      LeafEnds(prefix, d, r);
      var first := ParseLeaf(prefix, r);
      if first.Some? {
        BehindLeaf(d, first.value.rest);
        var r2 := SkipWs(first.value.rest);
        if At(r2, ',') { GroupEnds(prefix, d, r2[1..]); }
      }
    }
  }

  lemma BeforeItem(d: nat, text: string)
    ensures var r := SkipWs(text); LeafOpen(Before, d, text) == LeafOpen(if r == "" || r[0] == '}' || r[0] == ',' then Over else Inside, d, r)
  {
    hide SkipWs, Ident, AfterName;
  }

  lemma BehindLeaf(d: nat, text: string)
    ensures var r := SkipWs(text); LeafOpen(Behind, d, text) == if At(r, ',') then LeafOpen(Before, d, r[1..]) else LeafOpen(Over, d, r)
  {
    hide SkipWs, Ident, AfterName;
  }

  lemma GroupOver(d: nat, text: string)
    ensures var r := SkipWs(text); LeafOpen(Over, d + 1, text) == LeafOpen(Behind, d, if At(r, '}') then r[1..] else r)
  {
    hide SkipWs, Ident, AfterName;
  }

  lemma {:induction false} LeafEnds(segs: seq<string>, d: nat, text: string)
    ensures var p := ParseLeaf(segs, text);
      LeafOpen(Inside, d, text) == if p.None? then true else LeafOpen(Behind, d, p.value.rest)
    decreases |text|, 0
  {
    hide SkipWs, Ident, AfterAs, ParseGroup, Join;
    var r := SkipWs(text);
    if r == "" || r[0] == '*' {
    } else if r[0] == '{' {
      GroupEnds(segs, d + 1, r[1..]);
      var inner := ParseGroup(segs, r[1..]);
      if inner.Some? { GroupOver(d, inner.value.rest); }
    } else if r[0] == ':' {
      LeafEnds(segs, d, if |r| > 1 && r[1] == ':' then r[2..] else r[1..]);
    } else {
      var id := Ident(r);
      if id == "" {
        LeafEnds(segs, d, r[1..]);
      } else {
        var r2 := SkipWs(r[|id|..]);
        if At(r2, ':') { LeafEnds(segs + [id], d, r2); }
      }
    }
  }

  /** The parser returns exactly on the texts that do not run out inside a leaf. */
  lemma ReturnsExactly(text: string)
    ensures var r := SkipWs(text);
      ParseUseLeaves(text).Some? <==> !LeafOpen(Before, 0, if |r| > 1 && r[0] == ':' && r[1] == ':' then r[2..] else r)
  {
    var r := SkipWs(text);
    var body := if |r| > 1 && r[0] == ':' && r[1] == ':' then r[2..] else r;
    hide SkipWs, ParseGroup;
    GroupEnds([], 0, body);
    var p := ParseGroup([], body);
    if p.Some? { NothingOpen(p.value.rest); }
  }

  lemma NothingOpen(text: string)
    ensures !LeafOpen(Over, 0, text)
  {
  }
}
