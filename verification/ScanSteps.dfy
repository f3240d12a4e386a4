/** The functions of module ItemScan one step at a time. */
module ScanSteps {
  import opened Wrappers
  import opened Chars
  import opened ItemScan

  lemma RunStep(st: State, text: string)
    requires Balanced(st)
    ensures var r := SkipTrivia(text); Run(st, text) == if r == "" then st else Run(Token(st, r).st, Token(st, r).rest)
  {
    hide SkipTrivia, Token;
  }

  lemma RunEnds(st: State, text: string)
    requires Balanced(st) && text == ""
    ensures Run(st, text) == st
  {
  }

  /** What is left after a comment or a literal at the head of `r`. */
  function AsideRest(r: string): (q: Option<string>)
    requires r != ""
  {
    if StartsWith(r, "//") then Some(LineRest(r))
    else if StartsWith(r, "/*") then Some(CommentRest(1, r[2..]))
    else if r[0] == '"' then Some(StringRest(r[1..]))
    else if r[0] == '\'' then Some(CharRest(r))
    else None
  }

  lemma CommentStep(level: nat, r: string)
    requires r != "" && level > 0
    ensures CommentRest(level, r) == if |r| >= 2 && r[0] == '/' && r[1] == '*' then CommentRest(level + 1, r[2..])
                                     else if |r| >= 2 && r[0] == '*' && r[1] == '/' then CommentRest(level - 1, r[2..])
                                     else CommentRest(level, r[1..])
  {
    TwoAre(r, "/*");
    TwoAre(r, "*/");
  }

  lemma CommentEnds(level: nat, r: string)
    requires r == "" || level == 0
    ensures CommentRest(level, r) == r
  {
  }

  /** An attribute, from the positions the scanner reads it at. */
  lemma AttributeIs(st: State, r: string, r1: string, text: string, rest: string)
    requires Balanced(st) && r != "" && r1 == if |r| >= 2 && r[1] == '!' then r[2..] else r[1..]
    ensures var q := SkipTrivia(r1); q == "" || q[0] != '[' ==> Attribute(st, r) == ItemScan.Next.Next(st, q)
    ensures var q := SkipTrivia(r1);
      q != "" && q[0] == '[' && rest == AttrRest(1, q[1..]) && text == (if |rest| == |q| - 1 then "" else q[1..|q| - |rest| - 1])
      ==> Attribute(st, r) == ItemScan.Next.Next(st.(attrs := st.attrs + [Strip(text)]), rest)
  {
    hide SkipTrivia, AttrRest, Strip;
    var q := SkipTrivia(r1);
    if q != "" && |rest| < |q| - 1 { assert q[1..][..|q| - 2 - |rest|] == q[1..|q| - |rest| - 1]; }
  }

  lemma VisibilityIs(st: State, r: string, inner: string, after: string)
    requires Balanced(st)
    ensures var q := SkipTrivia(r); q == "" || q[0] != '(' ==> Visibility(st, r) == ItemScan.Next.Next(st.(pub := true), r)
    ensures var q := SkipTrivia(r);
      q != "" && q[0] == '(' && After(q, ')') == None ==> Visibility(st, r) == ItemScan.Next.Next(st.(pub := !Restricted(Strip(""))), q)
    ensures var q := SkipTrivia(r);
      q != "" && q[0] == '(' && After(q, ')') == Some(after) && |after| + 1 < |q| && inner == q[1..|q| - |after| - 1]
      ==> Visibility(st, r) == ItemScan.Next.Next(st.(pub := !Restricted(Strip(inner))), after)
  {
    hide SkipTrivia, After, Restricted, Strip;
  }

  lemma ModDeclUnnamed(st: State, r: string)
    requires Balanced(st) && (SkipTrivia(r) == "" || !IsWordStart(SkipTrivia(r)[0]))
    ensures ModDecl(st, r) == ItemScan.Next.Next(Pending(st), SkipTrivia(r))
  {
    hide SkipTrivia;
  }

  lemma ModDeclNamed(st: State, r: string, q: string, name: string, after: string)
    requires Balanced(st) && q == SkipTrivia(r) && q != "" && IsWordStart(q[0])
    requires name == q[..WordLength(q)] && after == SkipTrivia(q[WordLength(q)..])
    ensures ModDecl(st, r)
         == if after != "" && after[0] == '{' then ItemScan.Next.Next(OpenMod(st, name), after[1..])
            else if after != "" && after[0] == ';' then ItemScan.Next.Next(AddFileMod(st, name), after[1..])
            else ItemScan.Next.Next(Pending(st), after)
  {
    hide SkipTrivia, WordLength, OpenMod, AddFileMod;
  }

  lemma AttrStep(level: nat, r: string)
    requires r != "" && level > 0
    ensures AttrRest(level, r) == if AsideRest(r).Some? then AttrRest(level, AsideRest(r).value)
                                  else AttrRest(if r[0] == '[' then level + 1 else if r[0] == ']' then level - 1 else level, r[1..])
  {
    hide LineRest, CommentRest, StringRest, CharRest;
  }

  lemma AttrEnds(level: nat, r: string)
    requires r == "" || level == 0
    ensures AttrRest(level, r) == r
  {
  }

  /** How the character `c` changes a count of open brackets. */
  function Turn(c: char, open: char, close: char): int {
    if c == open then 1 else if c == close then -1 else 0
  }

  lemma CollectStep(a: int, b: int, c: int, r: string)
    requires r != ""
    ensures CollectRest(a, b, c, r)
         == if AsideRest(r).Some? then CollectRest(a, b, c, AsideRest(r).value)
            else if r[0] == ';' && a == b == c == 0 then r
            else CollectRest(a + Turn(r[0], '(', ')'), b + Turn(r[0], '[', ']'), c + Turn(r[0], '{', '}'), r[1..])
  {
    hide LineRest, CommentRest, StringRest, CharRest;
  }

  lemma CollectEnds(a: int, b: int, c: int)
    ensures CollectRest(a, b, c, "") == ""
  {
  }
}
