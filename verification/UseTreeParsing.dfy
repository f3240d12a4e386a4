/**
  `_UseTreeParser` with its cursor. Each method is proved to do on the text from the cursor
  on what the functions of module UseTree say. A parse that would run past the end of the
  text without returning stops here and reports `None`.
 */
module UseTreeParsing {
  import opened Wrappers
  import opened Chars
  import opened UseTree

  class UseTreeParser {
    const s: string
    var i: nat

    ghost predicate Valid()
      reads this
    {
      i <= |s|
    }

    /** The text that is left. */
    function Rest(): string
      reads this
      requires Valid()
    {
      s[i..]
    }

    constructor (text: string)
      ensures Valid() && s == text && Rest() == text
    {
      s, i := text, 0;
    }

    /** The character under the cursor. */
    predicate Peek(c: char)
      reads this
      requires Valid()
    {
      i < |s| && s[i] == c
    }

    method Skip(n: nat)
      requires i + n <= |s|
      modifies this`i
      ensures Valid() && i == old(i) + n && Rest() == old(Rest())[n..]
    {
      assert Rest()[n..] == s[i + n..];
      i := i + n;
    }

    method SkipLine()
      requires Valid()
      modifies this`i
      ensures Valid() && old(i) <= i && Rest() == LineRest(old(Rest()))
    {
      while i < |s| && s[i] != '\n'
        invariant Valid() && old(i) <= i
        invariant LineRest(Rest()) == LineRest(old(Rest()))
      {
        assert Rest()[1..] == s[i + 1..];
        i := i + 1;
      }
    }

    method SkipBlock()
      requires Valid()
      modifies this`i
      ensures Valid() && old(i) <= i && Rest() == BlockRest(old(Rest()))
    {
      while i < |s|
        invariant Valid() && old(i) <= i
        invariant BlockRest(Rest()) == BlockRest(old(Rest()))
      {
        if i + 1 < |s| && s[i] == '*' && s[i + 1] == '/' {
          assert Rest()[..2] == "*/" && Rest()[2..] == s[i + 2..];
          i := i + 2;
          return;
        }
        assert !StartsWith(Rest(), "*/") by {
          if |Rest()| >= 2 { assert Rest()[..2][0] == s[i] && Rest()[..2][1] == s[i + 1]; }
        }
        assert Rest()[1..] == s[i + 1..];
        i := i + 1;
      }
    }

    method SkipBlanks()
      requires Valid()
      modifies this`i
      ensures Valid() && old(i) <= i && Rest() == SkipWs(old(Rest()))
    {
      hide SkipWs, LineRest, BlockRest;
      while i < |s|
        invariant Valid() && old(i) <= i
        invariant SkipWs(Rest()) == SkipWs(old(Rest()))
        decreases |s| - i
      {
        WsStep(Rest());
        assert Rest()[1..] == s[i + 1..];
        if IsBlank(s[i]) {
          i := i + 1;
        } else if i + 1 < |s| && s[i] == '/' && s[i + 1] == '/' {
          i := i + 1;
          SkipLine();
        } else if i + 1 < |s| && s[i] == '/' && s[i + 1] == '*' {
          assert Rest()[2..] == s[i + 2..];
          i := i + 2;
          SkipBlock();
        } else {
          return;
        }
      }
      NoBlanks();
    }

    method ReadIdent() returns (id: string)
      requires Valid()
      modifies this`i
      ensures Valid() && old(i) <= i && (id != "" ==> old(i) < i)
      ensures id == Ident(SkipWs(old(Rest()))) && Rest() == SkipWs(old(Rest()))[|id|..]
    {
      hide SkipWs, WordLength;
      SkipBlanks();
      ghost var r := Rest();
      var j := i;
      if i + 1 < |s| && s[i] == 'r' && s[i + 1] == '#' { j := j + 2; }
      TwoAre(r, "r#");
      assert StartsWith(r, "r#") <==> j == i + 2;
      id := "";
      if j < |s| && IsWordStart(s[j]) {
        var e := EndOfWord(s, j + 1);
        assert r[j - i + 1..] == s[j + 1..];
        id := s[i..e];
        assert id == r[..e - i];
        i := e;
      }
    }

    method TryAs() returns (found: bool)
      requires Valid()
      modifies this`i
      ensures Valid() && old(i) <= i
      ensures found <==> AfterAs(old(Rest())).Some?
      ensures Rest() == if found then AfterAs(old(Rest())).value else old(Rest())
    {
      hide SkipWs;
      var save := i;
      SkipBlanks();
      ghost var r := Rest();
      found := i + 1 < |s| && s[i] == 'a' && s[i + 1] == 's' && (i + 2 >= |s| || !IsWord(s[i + 2]));
      TwoAre(r, "as");
      if found {
        assert r[2..] == s[i + 2..];
        i := i + 2;
      } else {
        i := save;
      }
    }

    /** The leaf of a path that ends in `id`: with the alias, if there is one. */
    method ReadAlias(segs: seq<string>, id: string) returns (leaf: Leaf)
      requires Valid()
      modifies this`i
      ensures Valid() && old(i) <= i
      ensures Parsed([leaf], Rest()) == NamedLeaf(segs, id, old(Rest()))
    {
      hide SkipWs, Ident, AfterAs, Join;
      var path := Join(segs + [id], "::");
      var found := TryAs();
      if !found { return Leaf(path, None); }
      var alias := ReadIdent();
      leaf := Leaf(path, if alias == "" then None else Some(alias));
    }

    method ReadBraces(segs: seq<string>) returns (leaves: Option<seq<Leaf>>)
      requires Valid() && Peek('{')
      modifies this`i
      ensures Valid() && old(i) <= i
      ensures leaves.Some? <==> ParseGroup(segs, old(Rest())[1..]).Some?
      ensures leaves.Some? ==> Parsed(leaves.value, Rest()) == ClosedGroup(ParseGroup(segs, old(Rest())[1..]).value)
      decreases |s| - i, 0
    {
      hide SkipWs, ParseGroup;
      assert Rest()[1..] == s[i + 1..];
      i := i + 1;
      leaves := ReadGroup(segs);
      if leaves.None? { return; }
      SkipBlanks();
      ghost var r := Rest();
      if Peek('}') {
        assert r[1..] == s[i + 1..];
        i := i + 1;
      }
    }

    method ReadLeaf(prefix: seq<string>) returns (leaves: Option<seq<Leaf>>)
      requires Valid()
      modifies this`i
      ensures Valid() && old(i) <= i
      ensures leaves.Some? <==> ParseLeaf(prefix, old(Rest())).Some?
      ensures leaves.Some? ==> Parsed(leaves.value, Rest()) == ParseLeaf(prefix, old(Rest())).value
      decreases |s| - i, 1
    {
      hide SkipWs, Ident, Join, ParseGroup, ParseLeaf, NamedLeaf, ClosedGroup, AfterAs;
      var segs := prefix;
      ghost var start := Rest();
      while true
        invariant Valid() && old(i) <= i
        invariant ParseLeaf(segs, Rest()) == ParseLeaf(prefix, start)
        decreases |s| - i
      {
        SkipIsSolid(Rest());
        ParseLeafSkips(segs, Rest());
        SkipBlanks();
        ghost var r := Rest();
        LeafCases(segs, r);
        if i == |s| { return None; }
        if Peek('{') {
          leaves := ReadBraces(segs);
          return;
        }
        if Peek('*') {
          Skip(1);
          return Some([Leaf(Join(segs + ["*"], "::"), None)]);
        }
        if Peek(':') {
          Skip(if i + 1 < |s| && s[i + 1] == ':' then 2 else 1);
          continue;
        }
        var id := ReadIdent();
        if id == "" {
          Skip(1);
          continue;
        }
        SkipBlanks();
        if Peek(':') {
          segs := segs + [id];
          continue;
        }
        var leaf := ReadAlias(segs, id);
        return Some([leaf]);
      }
    }

    method ReadGroup(prefix: seq<string>) returns (leaves: Option<seq<Leaf>>)
      requires Valid()
      modifies this`i
      ensures Valid() && old(i) <= i
      ensures leaves.Some? <==> ParseGroup(prefix, old(Rest())).Some?
      ensures leaves.Some? ==> Parsed(leaves.value, Rest()) == ParseGroup(prefix, old(Rest())).value
      decreases |s| - i, 2
    {
      hide SkipWs, ParseLeaf, ParseGroup;
      var acc: seq<Leaf> := [];
      ghost var start := ParseGroup(prefix, Rest());
      assert start.Some? ==> [] + start.value.leaves == start.value.leaves;
      while true
        invariant Valid() && old(i) <= i
        invariant Prepends(acc, ParseGroup(prefix, Rest()), start)
        decreases |s| - i
      {
        SkipIsSolid(Rest());
        GroupSkips(prefix, Rest());
        SkipBlanks();
        GroupCases(prefix, Rest());
        if i == |s| || Peek('}') || Peek(',') { return Some(acc); }
        ghost var whole := ParseGroup(prefix, Rest());
        var some := ReadLeaf(prefix);
        if some.None? { return None; }
        SkipBlanks();
        if !Peek(',') { return Some(acc + some.value); }
        assert Rest()[1..] == s[i + 1..];
        i := i + 1;
        PrependsMore(acc, some.value, ParseGroup(prefix, Rest()), whole, start);
        acc := acc + some.value;
      }
    }

    /** `parse`: an optional leading `::`, then a group. */
    method Parse() returns (leaves: Option<seq<Leaf>>)
      requires i == 0
      modifies this`i
      ensures leaves == ParseUseLeaves(s)
    {
      hide SkipWs, ParseGroup;
      assert Rest() == s;
      SkipBlanks();
      ghost var r := Rest();
      if Peek(':') && i + 1 < |s| && s[i + 1] == ':' { i := i + 2; }
      leaves := ReadGroup([]);
    }
  }

  ghost function NamedLeaf(segs: seq<string>, id: string, r2: string): Parsed {
    var path, after := Join(segs + [id], "::"), AfterAs(r2);
    if after.None? then Parsed([Leaf(path, None)], r2)
    else
      var r3 := SkipWs(after.value);
      var alias := Ident(r3);
      Parsed([Leaf(path, if alias == "" then None else Some(alias))], r3[|alias|..])
  }

  ghost function ClosedGroup(inner: Parsed): Parsed {
    var r2 := SkipWs(inner.rest);
    Parsed(inner.leaves, if At(r2, '}') then r2[1..] else r2)
  }

  /** What a leaf is, by its first token. */
  lemma LeafCases(segs: seq<string>, r: string)
    requires SkipWs(r) == r
    ensures r == "" ==> ParseLeaf(segs, r).None?
    ensures At(r, '{') ==>
      ParseLeaf(segs, r) == var inner := ParseGroup(segs, r[1..]); if inner.None? then None else Some(ClosedGroup(inner.value))
    ensures At(r, '*') ==> ParseLeaf(segs, r) == Some(Parsed([Leaf(Join(segs + ["*"], "::"), None)], r[1..]))
    ensures At(r, ':') ==> ParseLeaf(segs, r) == ParseLeaf(segs, if |r| > 1 && r[1] == ':' then r[2..] else r[1..])
    ensures r != "" && !At(r, '{') && !At(r, '*') && !At(r, ':') ==>
      var id := Ident(r);
      ParseLeaf(segs, r) == if id == "" then ParseLeaf(segs, r[1..]) else
        var r2 := SkipWs(r[|id|..]);
        if At(r2, ':') then ParseLeaf(segs + [id], r2) else Some(NamedLeaf(segs, id, r2))
  {
    hide SkipWs, Ident, AfterAs, Join, ParseGroup;
  }

  /** `whole` is `rest` with `acc` read before it. */
  ghost predicate Prepends(acc: seq<Leaf>, rest: Option<Parsed>, whole: Option<Parsed>) {
    if rest.None? then whole.None?
    else whole == Some(Parsed(acc + rest.value.leaves, rest.value.rest))
  }

  /** What a group is, by its first token. */
  lemma GroupCases(prefix: seq<string>, r: string)
    requires SkipWs(r) == r
    ensures r == "" || r[0] == '}' || r[0] == ',' ==> ParseGroup(prefix, r) == Some(Parsed([], r))
    ensures r != "" && r[0] != '}' && r[0] != ',' ==>
      var first := ParseLeaf(prefix, r);
      if first.None? then ParseGroup(prefix, r).None?
      else
        var r2 := SkipWs(first.value.rest);
        if At(r2, ',') then Prepends(first.value.leaves, ParseGroup(prefix, r2[1..]), ParseGroup(prefix, r))
        else ParseGroup(prefix, r) == Some(Parsed(first.value.leaves, r2))
  {
    hide SkipWs, ParseLeaf;
  }

  lemma PrependsMore(acc: seq<Leaf>, more: seq<Leaf>, rest: Option<Parsed>, whole: Option<Parsed>, start: Option<Parsed>)
    requires Prepends(more, rest, whole) && Prepends(acc, whole, start)
    ensures Prepends(acc + more, rest, start)
  {
    if rest.Some? { assert acc + (more + rest.value.leaves) == (acc + more) + rest.value.leaves; }
  }

  lemma WsStep(r: string)
    requires r != ""
    ensures SkipWs(r) == if IsBlank(r[0]) then SkipWs(r[1..])
                         else if |r| >= 2 && r[0] == '/' && r[1] == '/' then SkipWs(LineRest(r[1..]))
                         else if |r| >= 2 && r[0] == '/' && r[1] == '*' then SkipWs(BlockRest(r[2..]))
                         else r
  {
    TwoAre(r, "//");
    TwoAre(r, "/*");
    hide BlockRest;
  }

  lemma NoBlanks()
    ensures SkipWs("") == ""
  {
  }
}
