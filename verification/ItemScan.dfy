/**
  The item scanner of scripts/dep-guard/second_export.py as a function of the text that is
  left: trivia and literals are skipped, braces are counted, and `mod`, `use`, `type`,
  `extern crate` and type definitions are recorded in the innermost open module. Line
  numbers are not modelled.
 */
module ItemScan {
  import opened Wrappers
  import opened Chars

  datatype RawItem = RawItem(kind: string, text: string, pubPlain: bool, cfgTest: bool)
  datatype RawDef = RawDef(kind: string, name: string, pubPlain: bool, cfgTest: bool)

  /** A `mod x;` declaration with the attributes in front of it. */
  datatype RawFileMod = RawFileMod(name: string, pubPlain: bool, attrs: seq<string>)

  datatype ModBlock = ModBlock(
    name: string, isPub: bool, items: seq<RawItem>, defs: seq<RawDef>, fileMods: seq<RawFileMod>, children: seq<ModBlock>)

  function NewBlock(name: string, isPub: bool): ModBlock {
    ModBlock(name, isPub, [], [], [], [])
  }

  /**
    The scanner between two tokens. `stack` holds the open modules, the innermost last, and
    `opens` the brace depth at which each was opened; a module joins the children of the one
    around it when it is closed.
   */
  datatype State = State(depth: int, attrs: seq<string>, pub: bool, stack: seq<ModBlock>, opens: seq<int>)

  const START := State(0, [], false, [NewBlock("", true)], [0])

  // ---------- skipping ----------

  /** Inside block comments nested `level` deep: what is left after the outermost one. */
  function CommentRest(level: nat, r: string): (q: string)
    ensures |q| <= |r|
    decreases |r|
  {
    if r == "" || level == 0 then r
    else if StartsWith(r, "/*") then CommentRest(level + 1, r[2..])
    else if StartsWith(r, "*/") then CommentRest(level - 1, r[2..])
    else CommentRest(level, r[1..])
  }

  function SkipTrivia(r: string): (q: string)
    ensures |q| <= |r|
    decreases |r|
  {
    if r == "" then r
    else if IsBlank(r[0]) then SkipTrivia(r[1..])
    else if StartsWith(r, "//") then
      assert LineRest(r) == LineRest(r[1..]);
      SkipTrivia(LineRest(r))
    else if StartsWith(r, "/*") then SkipTrivia(CommentRest(1, r[2..]))
    else r
  }

  /** After the opening quote of a string: what is left after the closing one. */
  function StringRest(r: string): (q: string)
    ensures |q| <= |r|
    decreases |r|
  {
    if r == "" then r
    else if r[0] == '\\' then (if |r| >= 2 then StringRest(r[2..]) else "")
    else if r[0] == '"' then r[1..]
    else StringRest(r[1..])
  }

  /** What is left after the next `c`, if there is one. */
  function After(r: string, c: char): (q: Option<string>)
    ensures q.Some? ==> |q.value| < |r|
  {
    if r == "" then None else if r[0] == c then Some(r[1..]) else After(r[1..], c)
  }

  /** At a single quote: a character literal, or the quote of a lifetime. */
  function CharRest(r: string): (q: string)
    requires r != ""
    ensures |q| < |r|
  {
    if |r| >= 2 && r[1] == '\\' then
      if |r| >= 4 && After(r[3..], '\'').Some? then After(r[3..], '\'').value
      else if |r| >= 3 then r[3..]
      else ""
    else if |r| >= 3 && r[2] == '\'' then r[3..]
    else r[1..]
  }

  /** Inside an attribute, `level` brackets deep: what is left after it. */
  function AttrRest(level: nat, r: string): (q: string)
    ensures |q| <= |r|
    decreases |r|
  {
    if r == "" || level == 0 then r
    else if StartsWith(r, "//") then
      assert LineRest(r) == LineRest(r[1..]);
      AttrRest(level, LineRest(r))
    else if StartsWith(r, "/*") then AttrRest(level, CommentRest(1, r[2..]))
    else if r[0] == '"' then AttrRest(level, StringRest(r[1..]))
    else if r[0] == '\'' then AttrRest(level, CharRest(r))
    else if r[0] == '[' then AttrRest(level + 1, r[1..])
    else if r[0] == ']' then AttrRest(level - 1, r[1..])
    else AttrRest(level, r[1..])
  }

  /** From inside a statement to the semicolon outside all brackets, or to the end. */
  function CollectRest(paren: int, bracket: int, brace: int, r: string): (q: string)
    ensures |q| <= |r|
    decreases |r|
  {
    if r == "" then r
    else if StartsWith(r, "//") then
      assert LineRest(r) == LineRest(r[1..]);
      CollectRest(paren, bracket, brace, LineRest(r))
    else if StartsWith(r, "/*") then CollectRest(paren, bracket, brace, CommentRest(1, r[2..]))
    else if r[0] == '"' then CollectRest(paren, bracket, brace, StringRest(r[1..]))
    else if r[0] == '\'' then CollectRest(paren, bracket, brace, CharRest(r))
    else if r[0] == '(' then CollectRest(paren + 1, bracket, brace, r[1..])
    else if r[0] == ')' then CollectRest(paren - 1, bracket, brace, r[1..])
    else if r[0] == '[' then CollectRest(paren, bracket + 1, brace, r[1..])
    else if r[0] == ']' then CollectRest(paren, bracket - 1, brace, r[1..])
    else if r[0] == '{' then CollectRest(paren, bracket, brace + 1, r[1..])
    else if r[0] == '}' then CollectRest(paren, bracket, brace - 1, r[1..])
    else if r[0] == ';' && paren == bracket == brace == 0 then r
    else CollectRest(paren, bracket, brace, r[1..])
  }

  // ---------- words and attributes ----------

  function StripLeft(s: string): string {
    if s != "" && IsSpace(s[0]) then StripLeft(s[1..]) else s
  }

  function StripRight(s: string): string {
    if s != "" && IsSpace(s[|s| - 1]) then StripRight(s[..|s| - 1]) else s
  }

  function Strip(s: string): string {
    StripRight(StripLeft(s))
  }

  /** `a` has `cfg(test` at the front, perhaps with spaces inside. */
  predicate CfgTestHere(a: string) {
    StartsWith(a, "cfg") &&
    var r := StripLeft(a[3..]);
    r != "" && r[0] == '(' &&
    var q := StripLeft(r[1..]);
    StartsWith(q, "test") && (|q| == 4 || !IsWord(q[4]))
  }

  /** Somewhere in `a`, at the start of a word, there is `cfg(test`. */
  predicate CfgTestIn(a: string, afterWord: bool) {
    a != "" && ((!afterWord && CfgTestHere(a)) || CfgTestIn(a[1..], IsWord(a[0])))
  }

  predicate CfgTest(attrs: seq<string>) {
    exists k :: 0 <= k < |attrs| && CfgTestIn(attrs[k], false)
  }

  predicate IsStringPrefix(w: string) {
    w in {"r", "br", "b", "c", "cr"}
  }

  predicate IsDefKind(w: string) {
    w in {"struct", "enum", "union", "trait"}
  }

  predicate IsItemKeyword(w: string) {
    w in {"fn", "struct", "enum", "union", "trait", "impl", "const", "static", "macro", "macro_rules"}
  }

  /** A word that is recorded or changes what follows. */
  predicate IsActive(w: string) {
    w in {"pub", "mod", "use", "type", "extern"} || IsDefKind(w)
  }

  // ---------- recording ----------

  function Pending(st: State): State {
    st.(attrs := [], pub := false)
  }

  function Top(st: State): ModBlock
    requires st.stack != []
  {
    st.stack[|st.stack| - 1]
  }

  function SetTop(st: State, b: ModBlock): State
    requires st.stack != []
  {
    st.(stack := st.stack[..|st.stack| - 1] + [b])
  }

  function PubPlain(st: State): bool {
    st.pub && !CfgTest(st.attrs)
  }

  function AddItem(st: State, kind: string, text: string): State
    requires st.stack != []
  {
    Pending(SetTop(st, Top(st).(items := Top(st).items + [RawItem(kind, text, PubPlain(st), CfgTest(st.attrs))])))
  }

  function AddDef(st: State, kind: string, name: string): State
    requires st.stack != []
  {
    Pending(SetTop(st, Top(st).(defs := Top(st).defs + [RawDef(kind, name, PubPlain(st), CfgTest(st.attrs))])))
  }

  function AddFileMod(st: State, name: string): State
    requires st.stack != []
  {
    Pending(SetTop(st, Top(st).(fileMods := Top(st).fileMods + [RawFileMod(name, PubPlain(st), st.attrs)])))
  }

  function OpenMod(st: State, name: string): State {
    Pending(st.(depth := st.depth + 1, stack := st.stack + [NewBlock(name, PubPlain(st))], opens := st.opens + [st.depth + 1]))
  }

  /** Closes the innermost module into the one around it. */
  function CloseMod(st: State): State
    requires |st.stack| >= 2 && |st.opens| >= 2
  {
    var n := |st.stack|;
    var outer := st.stack[n - 2];
    st.(stack := st.stack[..n - 2] + [outer.(children := outer.children + [st.stack[n - 1]])],
        opens := st.opens[..|st.opens| - 1])
  }

  function CloseMods(st: State): (r: State)
    requires |st.stack| == |st.opens| && st.stack != []
    ensures |r.stack| == |r.opens| && r.stack != []
    decreases |st.opens|
  {
    if |st.opens| > 1 && st.opens[|st.opens| - 1] > st.depth then CloseMods(CloseMod(st)) else st
  }

  // ---------- one token ----------

  datatype Next = Next(st: State, rest: string)

  predicate Balanced(st: State) {
    |st.stack| == |st.opens| && st.stack != []
  }

  function Attribute(st: State, r: string): (n: Next)
    requires Balanced(st) && r != ""
    ensures |n.rest| < |r| && Balanced(n.st)
  {
    var r1 := if |r| >= 2 && r[1] == '!' then r[2..] else r[1..];
    var r2 := SkipTrivia(r1);
    if r2 == "" || r2[0] != '[' then Next(st, r2)
    else
      var body := r2[1..];
      var rest := AttrRest(1, body);
      var used := |body| - |rest|;
      Next(st.(attrs := st.attrs + [Strip(if used == 0 then "" else body[..used - 1])]), rest)
  }

  function BeforeParen(s: string): string {
    if s == "" || s[0] == '(' then "" else [s[0]] + BeforeParen(s[1..])
  }

  predicate Restricted(inner: string) {
    var head := Strip(BeforeParen(inner));
    head == "crate" || head == "super" || StartsWith(head, "in")
  }

  /** After `pub`: a restriction in parentheses takes the visibility back, except `pub(self)`. */
  function Visibility(st: State, r: string): (n: Next)
    requires Balanced(st)
    ensures |n.rest| <= |r| && Balanced(n.st)
  {
    var q := SkipTrivia(r);
    if q != "" && q[0] == '(' then
      var after := After(q, ')');
      var inner := Strip(if after.Some? then q[1..|q| - |after.value| - 1] else "");
      Next(st.(pub := !Restricted(inner)), if after.Some? then after.value else q)
    else Next(st.(pub := true), r)
  }

  function Statement(st: State, kind: string, r: string): (n: Next)
    requires Balanced(st)
    ensures |n.rest| <= |r| && Balanced(n.st)
  {
    var rest := CollectRest(0, 0, 0, r);
    Next(AddItem(st, kind, Strip(r[..|r| - |rest|])), if rest == "" then "" else rest[1..])
  }

  function ModDecl(st: State, r: string): (n: Next)
    requires Balanced(st)
    ensures |n.rest| <= |r| && Balanced(n.st)
  {
    var q := SkipTrivia(r);
    if q == "" || !IsWordStart(q[0]) then Next(Pending(st), q)
    else
      var len := WordLength(q);
      var q2 := SkipTrivia(q[len..]);
      if q2 != "" && q2[0] == '{' then Next(OpenMod(st, q[..len]), q2[1..])
      else if q2 != "" && q2[0] == ';' then Next(AddFileMod(st, q[..len]), q2[1..])
      else Next(Pending(st), q2)
  }

  function Definition(st: State, kind: string, r: string): (n: Next)
    requires Balanced(st)
    ensures |n.rest| <= |r| && Balanced(n.st)
  {
    var q := SkipTrivia(r);
    var len := if q != "" && IsWordStart(q[0]) then WordLength(q) else 0;
    Next(AddDef(st, kind, q[..len]), q[len..])
  }

  function Dispatch(st: State, w: string, r: string): (n: Next)
    requires Balanced(st)
    ensures |n.rest| <= |r| && Balanced(n.st)
  {
    if w == "pub" then Visibility(st, r)
    else if w == "mod" then ModDecl(st, r)
    else if w == "use" || w == "type" then Statement(st, w, r)
    else if w == "extern" then
      var q := SkipTrivia(r);
      if q != "" && IsWordStart(q[0]) && q[..WordLength(q)] == "crate" then Statement(st, "extern", q[WordLength(q)..])
      else Next(st, r)
    else if IsDefKind(w) then Definition(st, w, r)
    else if IsItemKeyword(w) then Next(Pending(st), r)
    else Next(st, r)
  }

  /** One turn of the main loop, at a character that is not trivia. It always advances. */
  function Token(st: State, r: string): (n: Next)
    requires Balanced(st) && r != ""
    ensures |n.rest| < |r| && Balanced(n.st)
  {
    var c := r[0];
    if c == '#' then Attribute(st, r)
    else if c == '"' then Next(Pending(st), StringRest(r[1..]))
    else if c == '\'' then Next(st, CharRest(r))
    else if c == '{' then Next(Pending(st.(depth := st.depth + 1)), r[1..])
    else if c == '}' then Next(Pending(CloseMods(st.(depth := st.depth - 1))), r[1..])
    else if c == ';' then Next(Pending(st), r[1..])
    else if IsDigit(c) then Next(st, r[WordLength(r)..])
    else if !IsWordStart(c) then Next(st, r[1..])
    else
      var len := WordLength(r);
      var rest := r[len..];
      if rest != "" && rest[0] == '"' && IsStringPrefix(r[..len]) then Next(Pending(st), StringRest(rest[1..]))
      else Dispatch(st, r[..len], rest)
  }

  /** The main loop. */
  function Run(st: State, text: string): (r: State)
    requires Balanced(st)
    ensures Balanced(r)
    decreases |text|
  {
    var r := SkipTrivia(text);
    if r == "" then st else var n := Token(st, r); Run(n.st, n.rest)
  }

  /** The root with every module that is still open closed into the one around it. */
  function Root(st: State): ModBlock
    requires Balanced(st)
    decreases |st.stack|
  {
    if |st.stack| == 1 then st.stack[0] else Root(CloseMod(st))
  }

  function ScanSource(text: string): ModBlock {
    Root(Run(START, text))
  }
}
