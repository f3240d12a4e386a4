/**
  `_ItemScanner` with its cursor and its stack of open modules. Each method is proved to do, on
  the text from the cursor on, what the functions of module ItemScan say; `Run` gives the
  module tree of the whole text.
 */
module ItemScanning {
  import opened Wrappers
  import opened Chars
  import opened ItemScan
  import opened ScanSteps

  class ItemScanner {
    const s: string
    var i: nat
    var depth: int
    var attrs: seq<string>
    var pub: bool
    var stack: seq<ModBlock>
    var opens: seq<int>

    ghost predicate Valid()
      reads this
    {
      i <= |s| && Balanced(Now())
    }

    /** The text that is left. */
    function Rest(): string
      reads this`i
      requires i <= |s|
    {
      s[i..]
    }

    /** The fields other than the cursor. */
    function Now(): State
      reads this
    {
      State(depth, attrs, pub, stack, opens)
    }

    constructor (text: string)
      ensures Valid() && s == text && Rest() == text && Now() == START
    {
      s, i, depth, attrs, pub, stack, opens := text, 0, 0, [], false, [NewBlock("", true)], [0];
    }

    /** The two characters under the cursor. */
    predicate Ahead(a: char, b: char)
      reads this`i
    {
      i + 1 < |s| && s[i] == a && s[i + 1] == b
    }

    lemma AheadStarts()
      requires i <= |s|
      ensures Ahead('/', '/') <==> StartsWith(Rest(), "//")
      ensures Ahead('/', '*') <==> StartsWith(Rest(), "/*")
      ensures Ahead('*', '/') <==> StartsWith(Rest(), "*/")
      ensures forall k :: 0 <= k <= |s| - i ==> Rest()[k..] == s[i + k..]
    {
      TwoAre(Rest(), "//");
      TwoAre(Rest(), "/*");
      TwoAre(Rest(), "*/");
    }

    // ---------- skipping ----------

    method SkipLine()
      requires i <= |s|
      modifies this`i
      ensures old(i) <= i <= |s| && Rest() == LineRest(old(Rest()))
    {
      while i < |s| && s[i] != '\n'
        invariant old(i) <= i <= |s|
        invariant LineRest(Rest()) == LineRest(old(Rest()))
      {
        assert Rest()[1..] == s[i + 1..];
        i := i + 1;
      }
    }

    method SkipBlockComment()
      requires i + 2 <= |s|
      modifies this`i
      ensures old(i) + 2 <= i <= |s| && Rest() == CommentRest(1, old(Rest())[2..])
    {
      hide CommentRest;
      assert Rest()[2..] == s[i + 2..];
      ghost var inside := Rest()[2..];
      i := i + 2;
      var level := 1;
      while i < |s| && level > 0
        invariant old(i) + 2 <= i <= |s| && level >= 0
        invariant CommentRest(level, Rest()) == CommentRest(1, inside)
        decreases |s| - i
      {
        CommentStep(level, Rest());
        assert Rest()[1..] == s[i + 1..];
        if i + 2 <= |s| { assert Rest()[2..] == s[i + 2..]; }
        if Ahead('/', '*') {
          level := level + 1;
          i := i + 2;
        } else if Ahead('*', '/') {
          level := level - 1;
          i := i + 2;
        } else {
          i := i + 1;
        }
      }
      CommentEnds(level, Rest());
    }

    method SkipTriviaAhead()
      requires i <= |s|
      modifies this`i
      ensures old(i) <= i <= |s| && Rest() == SkipTrivia(old(Rest()))
    {
      hide CommentRest;
      while i < |s|
        invariant old(i) <= i <= |s|
        invariant SkipTrivia(Rest()) == SkipTrivia(old(Rest()))
        decreases |s| - i
      {
        ghost var r := Rest();
        AheadStarts();
        if IsBlank(s[i]) {
          i := i + 1;
        } else if Ahead('/', '/') {
          SkipLineAhead();
          assert Rest() == LineRest(r);
        } else if Ahead('/', '*') {
          SkipBlockComment();
        } else {
          return;
        }
      }
    }

    /** A line comment: at least its two slashes. */
    method SkipLineAhead()
      requires Ahead('/', '/')
      modifies this`i
      ensures old(i) < i <= |s| && Rest() == LineRest(old(Rest()))
    {
      assert Rest()[1..] == s[i + 1..];
      i := i + 1;
      SkipLine();
    }

    method SkipString()
      requires i < |s|
      modifies this`i
      ensures old(i) < i <= |s| && Rest() == StringRest(old(Rest())[1..])
    {
      assert Rest()[1..] == s[i + 1..];
      ghost var inside := Rest()[1..];
      i := i + 1;
      while i < |s|
        invariant old(i) < i <= |s|
        invariant StringRest(Rest()) == StringRest(inside)
      {
        ghost var r := Rest();
        assert r[1..] == s[i + 1..];
        if s[i] == '\\' {
          if i + 2 <= |s| { assert r[2..] == s[i + 2..]; }
          i := if i + 2 <= |s| then i + 2 else |s|;
        } else if s[i] == '"' {
          i := i + 1;
          return;
        } else {
          i := i + 1;
        }
      }
    }

    /** `text.find(c, j)`. */
    method Find(c: char, j: nat) returns (k: Option<nat>)
      requires j <= |s|
      ensures k.Some? ==> j <= k.value < |s| && s[k.value] == c && After(s[j..], c) == Some(s[k.value + 1..])
      ensures k.None? ==> After(s[j..], c) == None
    {
      var m := j;
      while m < |s|
        invariant j <= m <= |s|
        invariant After(s[j..], c) == After(s[m..], c)
      {
        assert s[m..][1..] == s[m + 1..];
        if s[m] == c { return Some(m); }
        m := m + 1;
      }
      return None;
    }

    method SkipCharOrLifetime()
      requires i < |s|
      modifies this`i
      ensures old(i) < i <= |s| && Rest() == CharRest(old(Rest()))
    {
      ghost var r := Rest();
      if i + 1 < |s| && s[i + 1] == '\\' {
        if i + 3 <= |s| {
          assert r[3..] == s[i + 3..];
          var k := Find('\'', i + 3);
          i := if k.Some? then k.value + 1 else i + 3;
        } else {
          i := |s|;
        }
        return;
      }
      if i + 2 < |s| && s[i + 2] == '\'' {
        assert r[3..] == s[i + 3..];
        i := i + 3;
        return;
      }
      i := i + 1;
    }

    method ReadIdent() returns (word: string)
      requires i <= |s|
      modifies this`i
      ensures old(i) <= i <= |s|
      ensures word == old(Rest())[..WordLength(old(Rest()))] && Rest() == old(Rest())[WordLength(old(Rest()))..]
    {
      hide WordLength;
      var start := i;
      i := EndOfWord(s, i);
      assert s[start..][..i - start] == s[start..i] && s[start..][i - start..] == s[i..];
      word := s[start..i];
    }

    // ---------- attributes and statements ----------

    /** Skips a comment or a literal, if one is under the cursor. */
    method SkipAside() returns (skipped: bool)
      requires i < |s|
      modifies this`i
      ensures skipped == AsideRest(old(Rest())).Some?
      ensures if skipped then old(i) < i <= |s| && Rest() == AsideRest(old(Rest())).value else i == old(i)
    {
      hide LineRest, CommentRest, StringRest, CharRest;
      AheadStarts();
      if Ahead('/', '/') {
        SkipLineAhead();
      } else if Ahead('/', '*') {
        SkipBlockComment();
      } else if s[i] == '"' {
        SkipString();
      } else if s[i] == '\'' {
        SkipCharOrLifetime();
      } else {
        return false;
      }
      return true;
    }

    /** The loop over the inside of an attribute. */
    method SkipAttribute()
      requires i <= |s|
      modifies this`i
      ensures old(i) <= i <= |s| && Rest() == AttrRest(1, old(Rest()))
    {
      hide AttrRest, AsideRest;
      ghost var body := Rest();
      var level := 1;
      while i < |s| && level > 0
        invariant old(i) <= i <= |s| && level >= 0
        invariant AttrRest(level, Rest()) == AttrRest(1, body)
        decreases |s| - i
      {
        AttrStep(level, Rest());
        assert Rest()[1..] == s[i + 1..];
        var skipped := SkipAside();
        if !skipped {
          level := if s[i] == '[' then level + 1 else if s[i] == ']' then level - 1 else level;
          i := i + 1;
        }
      }
      AttrEnds(level, Rest());
    }

    /** From the opening bracket of an attribute past its end; the text between. */
    method ReadAttributeText() returns (text: string)
      requires i < |s|
      modifies this`i
      ensures old(i) < i <= |s|
      ensures var q := old(Rest());
        Rest() == AttrRest(1, q[1..]) && text == if |Rest()| == |q| - 1 then "" else q[1..|q| - |Rest()| - 1]
    {
      hide AttrRest;
      ghost var q := Rest();
      assert q[1..] == s[i + 1..];
      i := i + 1;
      var start := i;
      SkipAttribute();
      text := if i == start then "" else s[start..i - 1];
      assert i > start ==> q[1..|q| - |Rest()| - 1] == s[start..i - 1];
    }

    method ReadAttribute()
      requires Valid() && i < |s|
      modifies this
      ensures Valid() && old(i) < i && ItemScan.Next.Next(Now(), Rest()) == Attribute(old(Now()), old(Rest()))
    {
      hide Attribute, AttrRest, SkipTrivia, Strip;
      ghost var was, r := Now(), Rest();
      assert r[1..] == s[i + 1..];
      if i + 2 <= |s| { assert r[2..] == s[i + 2..]; }
      i := i + 1;
      if i < |s| && s[i] == '!' { i := i + 1; }
      ghost var r1 := Rest();
      SkipTriviaAhead();
      if i >= |s| || s[i] != '[' {
        AttributeIs(was, r, r1, "", "");
        return;
      }
      var text := ReadAttributeText();
      AttributeIs(was, r, r1, text, Rest());
      attrs := attrs + [Strip(text)];
    }

    method CollectStatement() returns (text: string)
      requires i <= |s|
      modifies this`i
      ensures old(i) <= i <= |s|
      ensures var r, rest := old(Rest()), CollectRest(0, 0, 0, old(Rest()));
        text == Strip(r[..|r| - |rest|]) && Rest() == if rest == "" then "" else rest[1..]
    {
      hide CollectRest, AsideRest, Strip;
      ghost var r := Rest();
      var start, paren, bracket, brace := i, 0, 0, 0;
      while i < |s|
        invariant old(i) <= i <= |s|
        invariant CollectRest(paren, bracket, brace, Rest()) == CollectRest(0, 0, 0, r)
        decreases |s| - i
      {
        CollectStep(paren, bracket, brace, Rest());
        assert Rest()[1..] == s[i + 1..];
        var skipped := SkipAside();
        if skipped {
        } else if s[i] == ';' && paren == 0 && bracket == 0 && brace == 0 {
          assert r[..i - start] == s[start..i];
          i := i + 1;
          return Strip(s[start..i - 1]);
        } else {
          paren, bracket, brace := paren + Turn(s[i], '(', ')'), bracket + Turn(s[i], '[', ']'), brace + Turn(s[i], '{', '}');
          i := i + 1;
        }
      }
      CollectEnds(paren, bracket, brace);
      assert r[..i - start] == s[start..i];
      return Strip(s[start..i]);
    }

    // ---------- words ----------

    method AddVisibility()
      requires Valid()
      modifies this
      ensures Valid() && old(i) <= i && ItemScan.Next.Next(Now(), Rest()) == Visibility(old(Now()), old(Rest()))
    {
      hide SkipTrivia, Strip, After, Restricted, Visibility;
      ghost var was, r := Now(), Rest();
      pub := true;
      var save := i;
      SkipTriviaAhead();
      if i < |s| && s[i] == '(' {
        var j := Find(')', i);
        ghost var q := Rest();
        var inner := if j.Some? then s[i + 1..j.value] else "";
        if j.Some? {
          assert |q| - |s[j.value + 1..]| - 1 == j.value - i && q[1..j.value - i] == inner;
          VisibilityIs(was, r, inner, s[j.value + 1..]);
        } else {
          VisibilityIs(was, r, "", "");
        }
        if Restricted(Strip(inner)) { pub := false; }
        if j.Some? { i := j.value + 1; }
      } else {
        VisibilityIs(was, r, "", "");
        i := save;
      }
    }

    method EnterModule(name: string)
      requires Valid()
      modifies this`depth, this`stack, this`opens, this`attrs, this`pub
      ensures Valid() && Now() == OpenMod(old(Now()), name)
    {
      hide CfgTest;
      depth := depth + 1;
      stack := stack + [NewBlock(name, pub && !CfgTest(attrs))];
      opens := opens + [depth];
      attrs, pub := [], false;
    }

    method RecordFileMod(name: string)
      requires Valid()
      modifies this`stack, this`attrs, this`pub
      ensures Valid() && Now() == AddFileMod(old(Now()), name)
    {
      hide CfgTest;
      var b := stack[|stack| - 1];
      stack := stack[..|stack| - 1] + [b.(fileMods := b.fileMods + [RawFileMod(name, pub && !CfgTest(attrs), attrs)])];
      attrs, pub := [], false;
    }

    method AddModule()
      requires Valid()
      modifies this
      ensures Valid() && old(i) <= i && ItemScan.Next.Next(Now(), Rest()) == ModDecl(old(Now()), old(Rest()))
    {
      hide SkipTrivia, WordLength, OpenMod, AddFileMod, ModDecl;
      ghost var was, r := Now(), Rest();
      SkipTriviaAhead();
      if i < |s| && IsWordStart(s[i]) {
        ghost var q := Rest();
        var name := ReadIdent();
        SkipTriviaAhead();
        ModDeclNamed(was, r, q, name, Rest());
        if i < |s| { assert Rest()[1..] == s[i + 1..]; }
        if i < |s| && s[i] == '{' {
          i := i + 1;
          EnterModule(name);
          return;
        } else if i < |s| && s[i] == ';' {
          i := i + 1;
          RecordFileMod(name);
          return;
        }
      } else {
        ModDeclUnnamed(was, r);
      }
      attrs, pub := [], false;
    }

    method AddStatement(kind: string)
      requires Valid()
      modifies this
      ensures Valid() && old(i) <= i && ItemScan.Next.Next(Now(), Rest()) == Statement(old(Now()), kind, old(Rest()))
    {
      hide CollectRest, CfgTest, Strip;
      var text := CollectStatement();
      var b := stack[|stack| - 1];
      stack := stack[..|stack| - 1] + [b.(items := b.items + [RawItem(kind, text, pub && !CfgTest(attrs), CfgTest(attrs))])];
      attrs, pub := [], false;
    }

    method AddExtern()
      requires Valid()
      modifies this
      ensures Valid() && old(i) <= i
      ensures var r := old(Rest()); var q := SkipTrivia(r);
        ItemScan.Next.Next(Now(), Rest())
        == if q != "" && IsWordStart(q[0]) && q[..WordLength(q)] == "crate" then Statement(old(Now()), "extern", q[WordLength(q)..])
           else ItemScan.Next.Next(old(Now()), r)
    {
      hide SkipTrivia, WordLength, Statement;
      var save := i;
      SkipTriviaAhead();
      if i < |s| && IsWordStart(s[i]) {
        var inner := ReadIdent();
        if inner == "crate" {
          AddStatement("extern");
          return;
        }
      }
      i := save;
    }

    method AddDefinition(kind: string)
      requires Valid()
      modifies this
      ensures Valid() && old(i) <= i && ItemScan.Next.Next(Now(), Rest()) == Definition(old(Now()), kind, old(Rest()))
    {
      hide SkipTrivia, CfgTest, WordLength;
      SkipTriviaAhead();
      ghost var q := Rest();
      var name := "";
      if i < |s| && IsWordStart(s[i]) { name := ReadIdent(); }
      assert q[..0] == "" && q[0..] == q;
      var b := stack[|stack| - 1];
      stack := stack[..|stack| - 1] + [b.(defs := b.defs + [RawDef(kind, name, pub && !CfgTest(attrs), CfgTest(attrs))])];
      attrs, pub := [], false;
    }

    method DispatchWord(word: string)
      requires Valid()
      modifies this
      ensures Valid() && old(i) <= i && ItemScan.Next.Next(Now(), Rest()) == Dispatch(old(Now()), word, old(Rest()))
    {
      hide Visibility, ModDecl, Statement, Definition, SkipTrivia, WordLength;
      if word == "pub" {
        AddVisibility();
      } else if word == "mod" {
        AddModule();
      } else if word == "use" || word == "type" {
        AddStatement(word);
      } else if word == "extern" {
        AddExtern();
      } else if IsDefKind(word) {
        AddDefinition(word);
      } else if IsItemKeyword(word) {
        attrs, pub := [], false;
      }
    }

    // ---------- the main loop ----------

    /** Pops the modules that were opened deeper than here. */
    method CloseBlocks()
      requires Valid()
      modifies this`stack, this`opens
      ensures Valid() && Now() == CloseMods(old(Now()))
    {
      while |opens| > 1 && opens[|opens| - 1] > depth
        invariant Valid() && CloseMods(Now()) == CloseMods(old(Now()))
        decreases |opens|
      {
        var n := |stack|;
        var outer, inner := stack[n - 2], stack[n - 1];
        stack := stack[..n - 2] + [outer.(children := outer.children + [inner])];
        opens := opens[..|opens| - 1];
      }
    }

    /** One turn of the loop of `run`. */
    method ReadToken()
      requires Valid() && i < |s|
      modifies this
      ensures Valid() && old(i) < i && ItemScan.Next.Next(Now(), Rest()) == Token(old(Now()), old(Rest()))
    {
      hide Attribute, StringRest, CharRest, CloseMods, Dispatch;
      assert Rest()[1..] == s[i + 1..];
      var c := s[i];
      if c == '#' {
        ReadAttribute();
      } else if c == '"' {
        SkipString();
        attrs, pub := [], false;
      } else if c == '\'' {
        SkipCharOrLifetime();
      } else if c == '{' {
        depth := depth + 1;
        i := i + 1;
        attrs, pub := [], false;
      } else if c == '}' {
        depth := depth - 1;
        i := i + 1;
        CloseBlocks();
        attrs, pub := [], false;
      } else if c == ';' {
        i := i + 1;
        attrs, pub := [], false;
      } else if IsDigit(c) {
        var _ := ReadIdent();
      } else if !IsWordStart(c) {
        i := i + 1;
      } else {
        var word := ReadIdent();
        if i < |s| && s[i] == '"' && IsStringPrefix(word) {
          SkipString();
          attrs, pub := [], false;
        } else {
          DispatchWord(word);
        }
      }
    }

    method RunToEnd() returns (root: ModBlock)
      requires Valid() && Now() == START && i == 0
      modifies this
      ensures root == ScanSource(s)
    {
      hide Token, SkipTrivia;
      assert Rest() == s;
      while i < |s|
        invariant Valid() && Run(Now(), Rest()) == Run(START, s)
        decreases |s| - i
      {
        ghost var before := Rest();
        SkipTriviaAhead();
        RunStep(Now(), before);
        if i >= |s| { break; }
        ReadToken();
      }
      RunEnds(Now(), Rest());
      root := RootOf(Now());
    }
  }

  /** The root with what is still open closed into it. */
  method RootOf(st: State) returns (root: ModBlock)
    requires Balanced(st)
    ensures root == Root(st)
  {
    var now := st;
    while |now.stack| > 1
      invariant Balanced(now) && Root(now) == Root(st)
      decreases |now.stack|
    {
      now := CloseMod(now);
    }
    root := now.stack[0];
  }

  method ScanText(text: string) returns (root: ModBlock)
    ensures root == ScanSource(text)
  {
    var scanner := new ItemScanner(text);
    assert scanner.i == 0 by { assert scanner.s[scanner.i..] == text; }
    root := scanner.RunToEnd();
  }
}
