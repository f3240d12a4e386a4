/**
  Markdown content split into segments (`crates/common/src/content_segment.rs`): fenced code
  blocks as single units, rules, and every other line as it is.

  `Segments` says what the segments of a list of lines are, by looking for the line that closes
  a fence; `ParseContentSegments` is the loop that reads line by line. `Print` writes segments
  back as lines.
 */
module Segments {
  import opened Wrappers
  import opened Chars

  datatype Segment = Markdown(text: string) | Hr | CodeBlock(language: string, code: string)

  // ---------- white space ----------

  /** The Unicode property White_Space. */
  predicate IsWhite(c: char) {
    || 9 as char <= c <= 13 as char || c == ' ' || c == 0x85 as char || c == 0xA0 as char
    || c == 0x1680 as char || 0x2000 as char <= c <= 0x200A as char || c == 0x2028 as char || c == 0x2029 as char
    || c == 0x202F as char || c == 0x205F as char || c == 0x3000 as char
  }

  function TrimEnd(s: string): (t: string)
    ensures t <= s && (t == "" || !IsWhite(t[|t| - 1]))
    ensures s == "" || !IsWhite(s[|s| - 1]) ==> t == s
  {
    if s != "" && IsWhite(s[|s| - 1]) then TrimEnd(s[..|s| - 1]) else s
  }

  function TrimStart(s: string): (t: string)
    ensures t == "" || !IsWhite(t[0])
    ensures s == "" || !IsWhite(s[0]) ==> t == s
    ensures forall c :: c in t ==> c in s
  {
    if s != "" && IsWhite(s[0]) then TrimStart(s[1..]) else s
  }

  function Trim(s: string): (t: string)
    ensures t == "" || (!IsWhite(t[0]) && !IsWhite(t[|t| - 1]))
    ensures forall c :: c in t ==> c in s
  {
    TrimEnd(TrimStart(s))
  }

  // ---------- single lines ----------

  const FENCE := "```"

  /** The language of a line that opens a fence. */
  function Opening(line: string): (lang: Option<string>)
    ensures lang.Some? ==> ' ' !in lang.value && Trim(lang.value) == lang.value
  {
    var t := TrimEnd(line);
    if FENCE <= t && ' ' !in t[3..] then Some(Trim(t[3..])) else None
  }

  predicate Closing(line: string) {
    var t := TrimEnd(line);
    |t| >= 3 && forall i :: 0 <= i < |t| ==> t[i] == '`'
  }

  /** The segment of a line that opens no fence. */
  function Outside(line: string): Segment {
    if TrimEnd(line) == "---" then Hr else Markdown(line)
  }

  // ---------- lists of lines ----------

  /** The pieces between line feeds. */
  function Split(s: string): (pieces: seq<string>)
    ensures pieces != []
  {
    if s == "" then [""]
    else if s[0] == '\n' then [""] + Split(s[1..])
    else var rest := Split(s[1..]); [[s[0]] + rest[0]] + rest[1..]
  }

  predicate IsLine(line: string) {
    forall i :: 0 <= i < |line| ==> line[i] != '\n'
  }

  ghost predicate AreLines(lines: seq<string>) {
    forall i :: 0 <= i < |lines| ==> IsLine(lines[i])
  }

  lemma {:induction false} SplitLine(line: string, rest: string)
    requires IsLine(line) && (rest == "" || rest[0] == '\n')
    ensures Split(line + rest) == [line] + if rest == "" then [] else Split(rest[1..])
  {
    if line == "" {
      assert line + rest == rest;
    } else {
      assert (line + rest)[1..] == line[1..] + rest;
      SplitLine(line[1..], rest);
      assert [line[0]] + line[1..] == line;
    }
  }

  lemma {:induction false} SplitOfJoin(lines: seq<string>)
    requires lines != [] && AreLines(lines)
    ensures Split(Join(lines, "\n")) == lines
  {
    hide Split, IsLine;
    if |lines| == 1 {
      assert lines[0] + "" == lines[0];
      SplitLine(lines[0], "");
    } else {
      SplitOfJoin(lines[1..]);
      var rest := "\n" + Join(lines[1..], "\n");
      SplitLine(lines[0], rest);
      assert rest[1..] == Join(lines[1..], "\n") && [lines[0]] + lines[1..] == lines;
    }
  }

  /** How many lines come before the first that closes a fence. */
  function ClosingAt(lines: seq<string>): (n: nat)
    ensures n <= |lines| && (n < |lines| ==> Closing(lines[n]))
    ensures forall i :: 0 <= i < n ==> !Closing(lines[i])
  {
    if lines == [] || Closing(lines[0]) then 0 else 1 + ClosingAt(lines[1..])
  }

  function Texts(lines: seq<string>): seq<Segment> {
    if lines == [] then [] else [Markdown(lines[0])] + Texts(lines[1..])
  }

  /** The segments from inside a fence: `code` was read since it opened, `rest` is still to come. */
  function FromFence(lang: string, code: seq<string>, rest: seq<string>): seq<Segment>
    decreases |rest|, 1
  {
    var n := ClosingAt(rest);
    if n == |rest| then [Markdown(FENCE + lang)] + Texts(code + rest)
    else [CodeBlock(lang, Join(code + rest[..n], "\n"))] + Segments(rest[n + 1..])
  }

  function Segments(lines: seq<string>): seq<Segment>
    decreases |lines|, 0
  {
    if lines == [] then []
    else
      var lang := Opening(lines[0]);
      if lang.None? then [Outside(lines[0])] + Segments(lines[1..])
      else FromFence(lang.value, [], lines[1..])
  }

  // ---------- what the segments say about the lines ----------

  predicate AllWhite(s: string) {
    forall i :: 0 <= i < |s| ==> IsWhite(s[i])
  }

  /** Three or more backticks and nothing but white space behind them. */
  predicate EndsFence(line: string) {
    exists n :: 3 <= n <= |line| && (forall i :: 0 <= i < n ==> line[i] == '`') && AllWhite(line[n..])
  }

  /** Three backticks and a language, with white space around it and no space before its end. */
  predicate OpensFence(line: string, lang: string) {
    exists b, c :: 3 <= b <= c <= |line| && IsOpening(line, b, c) && line[b..c] == lang
  }

  predicate IsOpening(line: string, b: int, c: int)
    requires 3 <= b <= c <= |line|
  {
    && line[0] == line[1] == line[2] == '`' && AllWhite(line[3..b]) && AllWhite(line[c..])
    && (b < c ==> !IsWhite(line[b]) && !IsWhite(line[c - 1]))
    && forall i :: 3 <= i < c ==> line[i] != ' '
  }

  /** Three dashes and nothing but white space behind them. */
  predicate IsRule(line: string) {
    |line| >= 3 && line[0] == line[1] == line[2] == '-' && AllWhite(line[3..])
  }

  /** Line `n` ends the fence that line 0 opens. */
  ghost predicate BlockEnds(lines: seq<string>, n: int) {
    0 < n < |lines| && EndsFence(lines[n]) && forall i :: 0 < i < n ==> !EndsFence(lines[i])
  }

  /** The segments of lines, told from the text of the lines alone. */
  ghost predicate Reads(lines: seq<string>, segs: seq<Segment>)
    decreases |lines|
  {
    if lines == [] then segs == []
    else if !(exists lang :: OpensFence(lines[0], lang)) then
      && segs != [] && segs[0] == (if IsRule(lines[0]) then Hr else Markdown(lines[0]))
      && Reads(lines[1..], segs[1..])
    else
      exists lang :: OpensFence(lines[0], lang) && segs != [] &&
        if exists n :: BlockEnds(lines, n) then
          exists n :: BlockEnds(lines, n) && segs[0] == CodeBlock(lang, Join(lines[1..n], "\n")) && Reads(lines[n + 1..], segs[1..])
        else IsPlain(lines, segs, lang)
  }

  /** Plain text from a fence that nothing ends. */
  ghost predicate IsPlain(lines: seq<string>, segs: seq<Segment>, lang: string) {
    && lines != [] && |segs| == |lines| && segs[0] == Markdown("```" + lang)
    && forall i :: 0 < i < |lines| ==> segs[i] == Markdown(lines[i])
  }

  lemma {:induction false} TrimEndIs(s: string)
    ensures var n := |TrimEnd(s)|;
            n <= |s| && TrimEnd(s) == s[..n] && AllWhite(s[n..]) && (n > 0 ==> !IsWhite(s[n - 1]))
  {
    if s != "" && IsWhite(s[|s| - 1]) {
      TrimEndIs(s[..|s| - 1]);
      var n := |TrimEnd(s)|;
      forall i | 0 <= i < |s[n..]| ensures IsWhite(s[n..][i]) {
        if n + i < |s| - 1 { assert s[n..][i] == s[..|s| - 1][n..][i]; }
      }
    }
  }

  lemma {:induction false} TrimStartIs(s: string)
    ensures var n := |s| - |TrimStart(s)|;
            0 <= n && TrimStart(s) == s[n..] && AllWhite(s[..n]) && (n < |s| ==> !IsWhite(s[n]))
  {
    if s != "" && IsWhite(s[0]) {
      TrimStartIs(s[1..]);
      var n := |s| - |TrimStart(s)|;
      assert s[..n] == [s[0]] + s[1..][..n - 1];
    }
  }

  lemma WhiteIn(s: string, a: nat, b: nat, i: nat)
    requires a <= i < b <= |s| && (AllWhite(s[a..b]) || (b == |s| && AllWhite(s[a..])))
    ensures IsWhite(s[i])
  {
    assert s[a..b][i - a] == s[i] && (b == |s| ==> s[a..] == s[a..b]);
  }

  /** A line cut into a part and white space behind it is trimmed to that part. */
  lemma TrimEndOf(s: string, n: nat)
    requires n <= |s| && AllWhite(s[n..]) && (n > 0 ==> !IsWhite(s[n - 1]))
    ensures TrimEnd(s) == s[..n]
  {
    TrimEndIs(s);
    var m := |TrimEnd(s)|;
  }

  lemma EndsFenceIff(line: string)
    ensures Closing(line) <==> EndsFence(line)
  {
    TrimEndIs(line);
    assert !IsWhite('`');
    hide TrimEnd;
    if n :| 3 <= n <= |line| && (forall i :: 0 <= i < n ==> line[i] == '`') && AllWhite(line[n..]) { TrimEndOf(line, n); }
  }

  lemma IsRuleIff(line: string)
    ensures TrimEnd(line) == "---" <==> IsRule(line)
  {
    TrimEndIs(line);
    assert !IsWhite('-');
    hide TrimEnd;
    if IsRule(line) { TrimEndOf(line, 3); }
  }

  lemma OpensFenceIff(line: string, lang: string)
    ensures OpensFence(line, lang) <==> Opening(line) == Some(lang)
  {
    if OpensFence(line, lang) {
      var b, c :| 3 <= b <= c <= |line| && IsOpening(line, b, c) && line[b..c] == lang;
      OpeningOf(line, b, c);
    }
    if Opening(line) == Some(lang) { OpensOf(line, lang); }
  }

  lemma OpeningOf(line: string, b: int, c: int)
    requires 3 <= b <= c <= |line| && IsOpening(line, b, c)
    ensures Opening(line) == Some(line[b..c])
  {
    if b < c { NamedOpening(line, b, c); } else { BareOpening(line, b); }
  }

  lemma TrimOf(s: string, p: nat)
    requires p < |s| && AllWhite(s[..p]) && !IsWhite(s[p]) && !IsWhite(s[|s| - 1])
    ensures Trim(s) == s[p..]
  {
    hide TrimEnd, TrimStart, IsWhite;
    TrimStartIs(s);
    var n := |s| - |TrimStart(s)|;
    if p < n { WhiteIn(s, 0, n, p); }
    assert s[p..][|s[p..]| - 1] == s[|s| - 1];
  }

  lemma NamedOpening(line: string, b: int, c: int)
    requires 3 <= b < c <= |line| && IsOpening(line, b, c)
    ensures Opening(line) == Some(line[b..c])
  {
    hide TrimEnd, IsWhite, Trim;
    TrimEndOf(line, c);
    var t, rest := line[..c], line[3..c];
    assert t[3..] == rest && t[..3] == FENCE;
    assert rest[..b - 3] == line[3..b] && rest[b - 3] == line[b] && rest[|rest| - 1] == line[c - 1];
    TrimOf(rest, b - 3);
    assert rest[b - 3..] == line[b..c];
    assert ' ' !in rest;
  }

  lemma BareOpening(line: string, b: int)
    requires 3 <= b <= |line| && IsOpening(line, b, b)
    ensures Opening(line) == Some(line[b..b])
  {
    assert !IsWhite('`');
    hide TrimEnd, IsWhite, Trim;
    assert line[3..] == line[3..b] + line[b..];
    TrimEndOf(line, 3);
    assert line[..3] == FENCE && line[..3][3..] == "" && line[b..b] == "";
    NothingToTrim();
  }

  lemma NothingToTrim()
    ensures Trim("") == ""
  {
  }

  lemma OpensOf(line: string, lang: string)
    requires Opening(line) == Some(lang)
    ensures OpensFence(line, lang)
  {
    TrimEndIs(line);
    var t := TrimEnd(line);
    var c := |t|;
    assert FENCE <= t;
    assert t[0] == t[1] == t[2] == '`';
    assert line[0] == t[0] && line[1] == t[1] && line[2] == t[2];
    assert t[3..] == line[3..c];
    assert lang == Trim(line[3..c]);
    assert forall i :: 3 <= i < c ==> line[i] == line[3..c][i - 3];
    hide Opening, TrimEnd, IsWhite, Trim;
    OpensTrimmed(line, c);
  }

  lemma OpensTrimmed(line: string, c: int)
    requires 3 <= c <= |line| && line[0] == line[1] == line[2] == '`' && AllWhite(line[c..])
    requires c > 3 ==> !IsWhite(line[c - 1])
    requires forall i :: 3 <= i < c ==> line[i] != ' '
    ensures OpensFence(line, Trim(line[3..c]))
  {
    hide TrimEnd, TrimStart, IsWhite, Trim, OpensFence;
    if c == 3 {
      NothingToTrim();
      OpensIf(line, 3, 3, "");
    } else {
      var rest := line[3..c];
      var n := FirstDark(rest);
      TrimOf(rest, n);
      assert rest[..n] == line[3..3 + n] && rest[n] == line[3 + n];
      OpensIf(line, 3 + n, c, rest[n..]);
    }
  }

  lemma OpensIf(line: string, b: int, c: int, lang: string)
    requires 3 <= b <= c <= |line| && IsOpening(line, b, c) && line[b..c] == lang
    ensures OpensFence(line, lang)
  {
  }

  /** The white space in front of a text that does not end in any. */
  lemma FirstDark(s: string) returns (n: nat)
    requires s != "" && !IsWhite(s[|s| - 1])
    ensures n < |s| && AllWhite(s[..n]) && !IsWhite(s[n])
  {
    hide TrimStart, IsWhite;
    TrimStartIs(s);
    n := |s| - |TrimStart(s)|;
    if n == |s| { WhiteIn(s, 0, n, n - 1); }
  }

  lemma {:induction false} TextsAt(lines: seq<string>)
    ensures |Texts(lines)| == |lines| && forall i :: 0 <= i < |lines| ==> Texts(lines)[i] == Markdown(lines[i])
  {
    if lines != [] { TextsAt(lines[1..]); }
  }

  lemma BlockEndsIff(lines: seq<string>, n: int)
    requires lines != []
    ensures BlockEnds(lines, n) <==> n == 1 + ClosingAt(lines[1..]) < |lines|
  {
    hide EndsFence, Closing;
    var rest := lines[1..];
    var m := ClosingAt(rest);
    forall i | 0 < i < |lines| ensures EndsFence(lines[i]) <==> Closing(rest[i - 1]) {
      assert rest[i - 1] == lines[i];
      EndsFenceIff(lines[i]);
    }
    hide ClosingAt;
  }

  /** The specification of the loop says what the text of the lines says. */
  lemma {:induction false} SegmentsRead(lines: seq<string>)
    ensures Reads(lines, Segments(lines))
    decreases |lines|
  {
    hide EndsFence, Closing, OpensFence, Opening, IsRule, Join;
    if lines != [] {
      var segs, rest := Segments(lines), lines[1..];
      forall lang: string ensures OpensFence(lines[0], lang) <==> Opening(lines[0]) == Some(lang) {
        OpensFenceIff(lines[0], lang);
      }
      if Opening(lines[0]).None? {
        IsRuleIff(lines[0]);
        SegmentsRead(rest);
        assert segs[1..] == Segments(rest);
      } else {
        FenceRead(lines, Opening(lines[0]).value);
      }
    }
  }

  lemma FenceRead(lines: seq<string>, lang: string)
    requires lines != [] && Opening(lines[0]) == Some(lang) && OpensFence(lines[0], lang)
    ensures Reads(lines, Segments(lines))
    decreases |lines|, 0
  {
    hide EndsFence, Closing, OpensFence, Opening, Join, Texts, ClosingAt;
    var segs, rest := Segments(lines), lines[1..];
    var n := ClosingAt(rest);
    forall m ensures BlockEnds(lines, m) <==> m == 1 + n < |lines| { BlockEndsIff(lines, m); }
    assert segs == FromFence(lang, [], rest);
    if n < |rest| {
      assert rest[n + 1..] == lines[n + 2..] && [] + rest[..n] == lines[1..n + 1];
      SegmentsRead(lines[n + 2..]);
      assert segs[1..] == Segments(lines[n + 2..]);
      assert BlockEnds(lines, n + 1);
    } else {
      assert [] + rest == rest;
      TextsAt(rest);
    }
  }

  /** The text of the lines leaves no choice. */
  lemma {:induction false} ReadsIsUnique(lines: seq<string>, a: seq<Segment>, b: seq<Segment>)
    requires Reads(lines, a) && Reads(lines, b)
    ensures a == b
    decreases |lines|
  {
    hide EndsFence, OpensFence, IsRule, Join, Opening, BlockEnds, IsPlain;
    if lines != [] {
      SameTail(a, b);
      if lang :| OpensFence(lines[0], lang) {
        forall l: string ensures OpensFence(lines[0], l) ==> l == lang {
          OpensFenceIff(lines[0], l);
          OpensFenceIff(lines[0], lang);
        }
        if n :| BlockEnds(lines, n) {
          forall m ensures BlockEnds(lines, m) ==> m == n {
            BlockEndsIff(lines, m);
            BlockEndsIff(lines, n);
          }
          BlockEndsIff(lines, n);
          ReadsIsUnique(lines[n + 1..], a[1..], b[1..]);
        } else {
          SamePlain(lines, a, b, lang);
        }
      } else {
        ReadsIsUnique(lines[1..], a[1..], b[1..]);
      }
    }
  }

  lemma SameTail<T>(a: seq<T>, b: seq<T>)
    ensures a != [] && b != [] && a[0] == b[0] && a[1..] == b[1..] ==> a == b
  {
    if a != [] && b != [] { assert a == [a[0]] + a[1..] && b == [b[0]] + b[1..]; }
  }

  lemma SamePlain(lines: seq<string>, a: seq<Segment>, b: seq<Segment>, lang: string)
    requires IsPlain(lines, a, lang) && IsPlain(lines, b, lang)
    ensures a == b
  {
  }

  // ---------- the loop ----------

  lemma FenceCloses(lang: string, code: seq<string>, rest: seq<string>)
    requires rest != [] && Closing(rest[0])
    ensures FromFence(lang, code, rest) == [CodeBlock(lang, Join(code, "\n"))] + Segments(rest[1..])
  {
    hide Closing, Join, Texts, Segments;
    assert code + rest[..0] == code;
  }

  lemma FenceGoesOn(lang: string, code: seq<string>, rest: seq<string>)
    requires rest != [] && !Closing(rest[0])
    ensures FromFence(lang, code, rest) == FromFence(lang, code + [rest[0]], rest[1..])
  {
    hide Closing, Join, Texts, Segments;
    var n, more := ClosingAt(rest[1..]), code + [rest[0]];
    Shifted(code, rest, n);
    assert ClosingAt(rest) == n + 1;
    hide ClosingAt;
  }

  lemma Shifted(code: seq<string>, rest: seq<string>, n: nat)
    requires rest != [] && n <= |rest| - 1
    ensures code + rest == (code + [rest[0]]) + rest[1..]
    ensures code + rest[..n + 1] == (code + [rest[0]]) + rest[1..][..n]
    ensures n < |rest| - 1 ==> rest[1..][n + 1..] == rest[n + 2..]
  {
    assert rest == [rest[0]] + rest[1..] && rest[..n + 1] == [rest[0]] + rest[1..][..n];
  }

  method FlushUnclosedFence(lang: string, codeLines: seq<string>) returns (segments: seq<Segment>)
    ensures segments == [Markdown(FENCE + lang)] + Texts(codeLines)
  {
    segments := [Markdown(if lang == "" then FENCE else FENCE + lang)];
    var i := 0;
    assert FENCE + "" == FENCE && codeLines[0..] == codeLines;
    while i < |codeLines|
      invariant 0 <= i <= |codeLines|
      invariant segments + Texts(codeLines[i..]) == [Markdown(FENCE + lang)] + Texts(codeLines)
    {
      segments := segments + [Markdown(codeLines[i])];
      i := i + 1;
    }
  }

  method ParseContentSegments(lines: seq<string>) returns (segments: seq<Segment>)
    ensures segments == Segments(lines) && Reads(lines, segments)
  {
    SegmentsRead(lines);
    hide Reads;
    hide Closing, Join, Texts, FromFence, ClosingAt, Segments, Opening, Outside;
    segments := [];
    var inCode, lang, codeLines := false, "", [];
    var i := 0;
    assert lines[0..] == lines;
    while i < |lines|
      invariant 0 <= i <= |lines|
      invariant Segments(lines) == segments + if inCode then FromFence(lang, codeLines, lines[i..]) else Segments(lines[i..])
    {
      var line := lines[i];
      assert lines[i..][0] == line && lines[i..][1..] == lines[i + 1..];
      if inCode {
        if Closing(line) {
          FenceCloses(lang, codeLines, lines[i..]);
          Grow(segments, CodeBlock(lang, Join(codeLines, "\n")), Segments(lines[i + 1..]));
          segments := segments + [CodeBlock(lang, Join(codeLines, "\n"))];
          inCode, lang, codeLines := false, "", [];
        } else {
          FenceGoesOn(lang, codeLines, lines[i..]);
          codeLines := codeLines + [line];
        }
      } else {
        var opening := Opening(line);
        FirstLine(lines[i..]);
        if opening.Some? {
          inCode, lang, codeLines := true, opening.value, [];
        } else {
          Grow(segments, Outside(line), Segments(lines[i + 1..]));
          segments := segments + [Outside(line)];
        }
      }
      i := i + 1;
    }
    assert lines[i..] == [] && Segments([]) == [] by { NothingPrinted(); }
    if inCode {
      var flushed := FlushUnclosedFence(lang, codeLines);
      FenceEnds(lang, codeLines);
      segments := segments + flushed;
    }
  }

  lemma Grow<T>(a: seq<T>, x: T, b: seq<T>)
    ensures a + ([x] + b) == a + [x] + b
  {
  }

  lemma FirstLine(lines: seq<string>)
    requires lines != []
    ensures Segments(lines) == match Opening(lines[0])
                               case None => [Outside(lines[0])] + Segments(lines[1..])
                               case Some(lang) => FromFence(lang, [], lines[1..])
  {
    hide FromFence, Opening;
  }

  lemma FenceEnds(lang: string, code: seq<string>)
    ensures FromFence(lang, code, []) == [Markdown(FENCE + lang)] + Texts(code)
  {
    assert code + [] == code;
  }

  // ---------- printing and the normal form ----------

  function CodeLines(code: string): seq<string> {
    if code == "" then [] else Split(code)
  }

  function PrintOne(s: Segment): seq<string> {
    match s
    case Markdown(text) => [text]
    case Hr => ["---"]
    case CodeBlock(language, code) => [FENCE + language] + (CodeLines(code) + [FENCE])
  }

  function Print(segs: seq<Segment>): seq<string> {
    if segs == [] then [] else PrintOne(segs[0]) + Print(segs[1..])
  }

  lemma {:induction false} PrintTexts(lines: seq<string>)
    ensures Print(Texts(lines)) == lines
  {
    if lines != [] { PrintTexts(lines[1..]); }
  }

  lemma FenceMarks(lang: string)
    requires ' ' !in lang && Trim(lang) == lang
    ensures Opening(FENCE + lang) == Some(lang)
    ensures Closing(FENCE)
  {
    var s := FENCE + lang;
    assert s[|s| - 1] == if lang == "" then '`' else lang[|lang| - 1];
    assert s[3..] == lang;
    assert TrimEnd(FENCE) == FENCE by { assert FENCE[2] == '`'; }
  }

  lemma RuleMark()
    ensures Opening("---") == None && Outside("---") == Hr
  {
    assert "---"[2] == '-' && "---"[0] != FENCE[0];
  }

  lemma {:induction false} ClosingAtIs(before: seq<string>, rest: seq<string>)
    requires forall i :: 0 <= i < |before| ==> !Closing(before[i])
    ensures ClosingAt(before + rest) == |before| + ClosingAt(rest)
  {
    if before == [] {
      assert before + rest == rest;
    } else {
      assert (before + rest)[1..] == before[1..] + rest;
      ClosingAtIs(before[1..], rest);
    }
  }

  /** The code of a block, printed and collected again. */
  lemma CodeAgain(code: seq<string>)
    requires AreLines(code)
    ensures Join(CodeLines(Join(code, "\n")), "\n") == Join(code, "\n")
    ensures CodeLines(Join(code, "\n")) == if code == [""] then [] else code
  {
    if code != [] {
      SplitOfJoin(code);
      if Join(code, "\n") == "" { assert Split("") == [""]; }
    }
  }

  lemma SegmentsOfBlock(lang: string, code: seq<string>, rest: seq<string>)
    requires ' ' !in lang && Trim(lang) == lang && forall i :: 0 <= i < |code| ==> !Closing(code[i])
    ensures Segments([FENCE + lang] + (code + ([FENCE] + rest))) == [CodeBlock(lang, Join(code, "\n"))] + Segments(rest)
  {
    FenceMarks(lang);
    var body := code + ([FENCE] + rest);
    var lines := [FENCE + lang] + body;
    assert lines[1..] == body;
    ClosingAtIs(code, [FENCE] + rest);
    assert ClosingAt([FENCE] + rest) == 0;
    assert ClosingAt(body) == |code|;
    hide Join, Opening, Closing, ClosingAt;
    assert [] + body[..|code|] == code && body[|code| + 1..] == rest;
  }

  lemma SegmentsOfUnclosed(lang: string, rest: seq<string>)
    requires ' ' !in lang && Trim(lang) == lang && ClosingAt(rest) == |rest|
    ensures Segments([FENCE + lang] + rest) == [Markdown(FENCE + lang)] + Texts(rest)
  {
    FenceMarks(lang);
    assert ([FENCE + lang] + rest)[1..] == rest && [] + rest == rest;
  }

  lemma PrintFirst(s: Segment, segs: seq<Segment>)
    ensures Print([s] + segs) == PrintOne(s) + Print(segs)
  {
    assert ([s] + segs)[1..] == segs;
  }

  /** The three ways the segments of some lines can begin. */
  lemma SegmentsAt(lines: seq<string>)
    requires lines != []
    ensures Opening(lines[0]).None? ==> Segments(lines) == [Outside(lines[0])] + Segments(lines[1..])
    ensures var lang, rest := Opening(lines[0]), lines[1..]; var n := ClosingAt(rest);
      lang.Some? ==> Segments(lines) == if n == |rest| then [Markdown(FENCE + lang.value)] + Texts(rest)
                                        else [CodeBlock(lang.value, Join(rest[..n], "\n"))] + Segments(rest[n + 1..])
  {
    hide Opening, ClosingAt, Join, Texts;
    var rest := lines[1..];
    var n := ClosingAt(rest);
    assert [] + rest == rest && [] + rest[..n] == rest[..n];
  }

  /** The segments of a print are the segments printed: printing loses nothing a parse can see. */
  lemma {:induction false} NormalForm(lines: seq<string>)
    requires AreLines(lines)
    ensures Segments(Print(Segments(lines))) == Segments(lines)
    decreases |lines|
  {
    hide *;
    if lines == [] {
      NothingPrinted();
    } else {
      SegmentsAt(lines);
      var rest := lines[1..];
      LinesSlices(lines, 1, 1);
      if Opening(lines[0]).None? {
        NormalForm(rest);
        OutsideAgain(lines[0], Segments(rest));
      } else {
        var lang, n := Opening(lines[0]).value, ClosingAt(rest);
        if n == |rest| {
          PrintMarkdownFirst(FENCE + lang, Texts(rest));
          PrintTexts(rest);
          SegmentsOfUnclosed(lang, rest);
        } else {
          LinesSlices(rest, n, n);
          LinesSlices(rest, n + 1, n + 1);
          NormalForm(rest[n + 1..]);
          BlockAgain(lang, rest[..n], Segments(rest[n + 1..]));
        }
      }
    }
  }

  lemma NothingPrinted()
    ensures Segments([]) == [] && Print([]) == []
  {
  }

  lemma OutsideAgain(line: string, segs: seq<Segment>)
    requires Opening(line) == None && Segments(Print(segs)) == segs
    ensures Segments(Print([Outside(line)] + segs)) == [Outside(line)] + segs
  {
    hide Print, Opening;
    PrintFirst(Outside(line), segs);
    RuleMark();
    var first := if Outside(line).Hr? then "---" else line;
    assert ([first] + Print(segs))[1..] == Print(segs);
  }

  lemma BlockAgain(lang: string, code: seq<string>, segs: seq<Segment>)
    requires ' ' !in lang && Trim(lang) == lang && AreLines(code) && Segments(Print(segs)) == segs
    requires forall i :: 0 <= i < |code| ==> !Closing(code[i])
    ensures Segments(Print([CodeBlock(lang, Join(code, "\n"))] + segs)) == [CodeBlock(lang, Join(code, "\n"))] + segs
  {
    hide Print, Segments, Join, Closing;
    var printed := CodeLines(Join(code, "\n"));
    PrintFirst(CodeBlock(lang, Join(code, "\n")), segs);
    CodeAgain(code);
    SegmentsOfBlock(lang, printed, Print(segs));
    assert [FENCE + lang] + (printed + [FENCE]) + Print(segs) == [FENCE + lang] + (printed + ([FENCE] + Print(segs)));
  }

  // ---------- no line is lost ----------

  /** `printed` stands for the line `line`: as it is, or tidied as a rule or a fence. */
  predicate Tidied(line: string, printed: string) {
    || printed == line
    || (printed == "---" && TrimEnd(line) == "---")
    || (Opening(line).Some? && printed == FENCE + Opening(line).value)
    || (printed == FENCE && Closing(line))
  }

  ghost predicate AllTidied(lines: seq<string>, printed: seq<string>) {
    |lines| == |printed| && forall i :: 0 <= i < |lines| ==> Tidied(lines[i], printed[i])
  }

  /** Some code block holds one empty line and nothing else. */
  predicate HasThinBlock(lines: seq<string>)
    decreases |lines|
  {
    lines != [] &&
    if Opening(lines[0]).None? then HasThinBlock(lines[1..])
    else
      var rest := lines[1..];
      var n := ClosingAt(rest);
      n < |rest| && (rest[..n] == [""] || HasThinBlock(rest[n + 1..]))
  }

  lemma Glue(a: seq<string>, a': seq<string>, b: seq<string>, b': seq<string>)
    requires AllTidied(a, a') && AllTidied(b, b')
    ensures AllTidied(a + b, a' + b')
  {
    hide Tidied;
  }

  lemma AsItIs(lines: seq<string>)
    ensures AllTidied(lines, lines)
  {
  }

  lemma OneTidied(line: string, printed: string)
    requires Tidied(line, printed)
    ensures AllTidied([line], [printed])
  {
  }

  /** Printing the segments of `lines` keeps the lines, or fewer when a block is thin. */
  ghost predicate Kept(lines: seq<string>) {
    var printed := Print(Segments(lines));
    if HasThinBlock(lines) then |printed| < |lines| else AllTidied(lines, printed)
  }

  lemma KeptOutside(lines: seq<string>)
    requires lines != [] && Opening(lines[0]).None? && Kept(lines[1..])
    ensures Kept(lines)
  {
    hide Segments, Print, Opening, ClosingAt, Join, Texts, Closing, Tidied;
    SegmentsAt(lines);
    var rest := lines[1..];
    assert lines == [lines[0]] + rest;
    PrintFirst(Outside(lines[0]), Segments(rest));
    OutsideTidied(lines[0]);
    if !HasThinBlock(rest) { Glue([lines[0]], PrintOne(Outside(lines[0])), rest, Print(Segments(rest))); }
  }

  lemma KeptUnclosed(lines: seq<string>)
    requires lines != [] && Opening(lines[0]).Some? && ClosingAt(lines[1..]) == |lines| - 1
    ensures Kept(lines)
  {
    hide Segments, Print, Opening, ClosingAt, Join, Texts, Closing, Tidied;
    SegmentsAt(lines);
    var lang, rest := Opening(lines[0]).value, lines[1..];
    assert lines == [lines[0]] + rest;
    FenceTidied(lines[0]);
    PrintFirst(Markdown(FENCE + lang), Texts(rest));
    PrintTexts(rest);
    AsItIs(rest);
    Glue([lines[0]], [FENCE + lang], rest, rest);
  }

  lemma ThinAt(lines: seq<string>, n: nat)
    requires lines != [] && Opening(lines[0]).Some? && n == ClosingAt(lines[1..]) < |lines| - 1
    ensures HasThinBlock(lines) <==> lines[1..][..n] == [""] || HasThinBlock(lines[1..][n + 1..])
  {
    hide Opening, ClosingAt, Closing, IsWhite, TrimEnd;
    var rest := lines[1..];
    assert n < |rest|;
  }

  lemma KeptBlock(lines: seq<string>, n: nat)
    requires lines != [] && Opening(lines[0]).Some? && n == ClosingAt(lines[1..]) < |lines| - 1
    requires AreLines(lines) && Kept(lines[1..][n + 1..])
    ensures Kept(lines)
  {
    hide *;
    var lang, rest := Opening(lines[0]).value, lines[1..];
    var code, tail := rest[..n], rest[n + 1..];
    SegmentsAt(lines);
    ThinAt(lines, n);
    LinesSlices(lines, 1, 1);
    LinesSlices(rest, n, n);
    BlockTidied(lines[0], lang, code, rest[n], tail);
    AroundBlock(lines, n);
    KeptSplit(tail);
    KeptJoin(lines, code == [""] || HasThinBlock(tail), |tail| + 2 + |code|);
  }

  lemma AroundBlock(lines: seq<string>, n: nat)
    requires n < |lines| - 1
    ensures var rest := lines[1..]; lines == [lines[0]] + (rest[..n] + ([rest[n]] + rest[n + 1..]))
  {
    assert lines == [lines[0]] + lines[1..];
  }

  lemma KeptSplit(lines: seq<string>)
    requires Kept(lines)
    ensures HasThinBlock(lines) ==> |Print(Segments(lines))| < |lines|
    ensures !HasThinBlock(lines) ==> AllTidied(lines, Print(Segments(lines))) && |Print(Segments(lines))| == |lines|
  {
    hide Segments, Print, HasThinBlock, Tidied;
  }

  lemma KeptJoin(lines: seq<string>, thin: bool, n: nat)
    requires HasThinBlock(lines) == thin && |lines| == n
    requires if thin then |Print(Segments(lines))| < n else AllTidied(lines, Print(Segments(lines)))
    ensures Kept(lines)
  {
    hide Segments, Print, HasThinBlock, Tidied, AllTidied;
  }

  /**
    Printing the segments gives the lines back one for one, rules and fences tidied, exactly
    when no code block is a single empty line; such a block loses that line.
   */
  lemma {:induction false} NoLineIsLost(lines: seq<string>)
    requires AreLines(lines)
    ensures Kept(lines)
    decreases |lines|
  {
    if lines != [] {
      hide Kept, Opening, ClosingAt;
      var rest := lines[1..];
      var n := ClosingAt(rest);
      if Opening(lines[0]).None? {
        NoLineIsLost(rest);
        KeptOutside(lines);
      } else if n == |rest| {
        KeptUnclosed(lines);
      } else {
        NoLineIsLost(rest[n + 1..]);
        KeptBlock(lines, n);
      }
    }
  }

  lemma OutsideTidied(line: string)
    ensures AllTidied([line], PrintOne(Outside(line)))
  {
    OneTidied(line, PrintOne(Outside(line))[0]);
  }

  lemma FenceTidied(line: string)
    ensures Opening(line).Some? ==> AllTidied([line], [FENCE + Opening(line).value])
    ensures Closing(line) ==> AllTidied([line], [FENCE])
  {
  }

  lemma BlockTidied(opening: string, lang: string, code: seq<string>, closing: string, rest: seq<string>)
    requires Opening(opening) == Some(lang) && Closing(closing) && AreLines(code)
    ensures var printed := Print([CodeBlock(lang, Join(code, "\n"))] + Segments(rest));
      && |printed| == 2 + (if code == [""] then 0 else |code|) + |Print(Segments(rest))|
      && (code != [""] && AllTidied(rest, Print(Segments(rest)))
          ==> AllTidied([opening] + (code + ([closing] + rest)), printed))
  {
    hide Segments, Print, Opening, Join, Closing, AllTidied, Tidied;
    var tail := Print(Segments(rest));
    PrintFirst(CodeBlock(lang, Join(code, "\n")), Segments(rest));
    CodeAgain(code);
    FenceTidied(opening);
    FenceTidied(closing);
    AsItIs(code);
    if code != [""] && AllTidied(rest, tail) {
      Glue([closing], [FENCE], rest, tail);
      Glue(code, code, [closing] + rest, [FENCE] + tail);
      Glue([opening], [FENCE + lang], code + ([closing] + rest), code + ([FENCE] + tail));
      assert [FENCE + lang] + (code + [FENCE]) + tail == [FENCE + lang] + (code + ([FENCE] + tail));
    }
  }

  lemma ThinBlockLosesALine()
    ensures HasThinBlock([FENCE, "", FENCE])
    ensures Print(Segments([FENCE, "", FENCE])) == [FENCE, FENCE]
  {
    var lines := [FENCE, "", FENCE];
    FenceMarks("");
    assert FENCE + "" == FENCE;
    assert !Closing("");
    var rest := lines[1..];
    assert rest == ["", FENCE] && rest[1..] == [FENCE];
    assert ClosingAt(rest) == 1;
    assert rest[..1] == [""];
    SegmentsAt(lines);
    assert rest[2..] == [];
    assert Segments(lines) == [CodeBlock("", "")];
  }

  // ---------- text ----------

  function StripCr(line: string): string {
    if line != "" && line[|line| - 1] == '\r' then line[..|line| - 1] else line
  }

  /** `str::lines`: a line feed ends a line, with the carriage return before it if there is one. */
  function Lines(text: string): (lines: seq<string>)
    decreases |text|
  {
    if text == "" then []
    else
      var n := Feed(text);
      if n == |text| then [text] else [StripCr(text[..n])] + Lines(text[n + 1..])
  }

  /** The position of the first line feed. */
  function Feed(text: string): (n: nat)
    ensures n <= |text| && IsLine(text[..n]) && (n < |text| ==> text[n] == '\n')
  {
    if text == "" || text[0] == '\n' then 0 else 1 + Feed(text[1..])
  }

  lemma {:induction false} LinesAreLines(text: string)
    ensures AreLines(Lines(text))
    decreases |text|
  {
    if text != "" {
      var n := Feed(text);
      if n < |text| { LinesAreLines(text[n + 1..]); } else { assert text[..n] == text; }
    }
  }

  function Text(lines: seq<string>): string {
    if lines == [] then "" else lines[0] + ("\n" + Text(lines[1..]))
  }

  function Stripped(lines: seq<string>): (r: seq<string>)
    ensures |r| == |lines| && forall i :: 0 <= i < |lines| ==> r[i] == StripCr(lines[i])
  {
    if lines == [] then [] else [StripCr(lines[0])] + Stripped(lines[1..])
  }

  lemma {:induction false} FeedOf(line: string, rest: string)
    requires IsLine(line)
    ensures Feed(line + ("\n" + rest)) == |line|
  {
    if line != "" {
      assert (line + ("\n" + rest))[1..] == line[1..] + ("\n" + rest);
      FeedOf(line[1..], rest);
    }
  }

  lemma {:induction false} LinesOfText(lines: seq<string>)
    requires AreLines(lines)
    ensures Lines(Text(lines)) == Stripped(lines)
  {
    if lines != [] {
      var rest := Text(lines[1..]);
      var text := lines[0] + ("\n" + rest);
      FeedOf(lines[0], rest);
      assert text[..|lines[0]|] == lines[0] && text[|lines[0]| + 1..] == rest;
      LinesOfText(lines[1..]);
    }
  }

  ghost predicate NoCr(lines: seq<string>) {
    forall i :: 0 <= i < |lines| ==> StripCr(lines[i]) == lines[i]
  }

  // ---------- the normal form of text ----------

  lemma {:induction false} TrimmedCr(line: string)
    ensures TrimEnd(StripCr(line)) == TrimEnd(line)
  {
  }

  lemma SameMarks(line: string)
    ensures Opening(StripCr(line)) == Opening(line) && Closing(StripCr(line)) == Closing(line)
    ensures Outside(StripCr(line)) == Outside(line) <==> NoCr(PrintOne(Outside(line)))
  {
    TrimmedCr(line);
    assert "---"[2] == '-' && StripCr("---") == "---";
    hide TrimEnd;
    var shown := PrintOne(Outside(line));
    assert NoCr(shown) <==> StripCr(shown[0]) == shown[0];
  }

  lemma {:induction false} SameClosing(lines: seq<string>)
    ensures ClosingAt(Stripped(lines)) == ClosingAt(lines)
  {
    if lines != [] {
      SameMarks(lines[0]);
      hide Closing;
      SameClosing(lines[1..]);
    }
  }

  lemma {:induction false} StrippedSame(lines: seq<string>)
    ensures Stripped(lines) == lines <==> NoCr(lines)
  {
  }

  lemma {:induction false} TextsSame(a: seq<string>, b: seq<string>)
    requires Texts(a) == Texts(b)
    ensures a == b
  {
    PrintTexts(a);
    PrintTexts(b);
  }

  lemma CodeSame(code: seq<string>)
    requires AreLines(code)
    ensures Join(Stripped(code), "\n") == Join(code, "\n") <==> NoCr(CodeLines(Join(code, "\n")))
  {
    CodeAgain(code);
    StrippedSame(code);
    if code != [] && Join(Stripped(code), "\n") == Join(code, "\n") {
      StrippedLines(code);
      SplitOfJoin(code);
      SplitOfJoin(Stripped(code));
    }
    if code == [""] { assert Stripped(code) == code; }
  }

  lemma StrippedLines(code: seq<string>)
    requires AreLines(code)
    ensures AreLines(Stripped(code))
  {
  }

  lemma StrippedSlices(lines: seq<string>, n: nat)
    requires n <= |lines|
    ensures Stripped(lines)[..n] == Stripped(lines[..n]) && Stripped(lines)[n..] == Stripped(lines[n..])
  {
    hide Stripped, StripCr;
  }

  /** Carriage returns at line ends change the segments exactly when a print of them shows one. */
  ghost predicate CrShows(lines: seq<string>) {
    Segments(Stripped(lines)) == Segments(lines) <==> NoCr(Print(Segments(lines)))
  }

  lemma NoCrConcat(a: seq<string>, b: seq<string>)
    ensures NoCr(a + b) <==> NoCr(a) && NoCr(b)
  {
    hide StripCr;
    assert NoCr(a + b) ==> forall i :: 0 <= i < |b| ==> (a + b)[|a| + i] == b[i];
    assert NoCr(a + b) ==> forall i :: 0 <= i < |a| ==> (a + b)[i] == a[i];
  }

  lemma NoCrFence(lang: string)
    requires Trim(lang) == lang
    ensures NoCr([FENCE + lang]) && NoCr([FENCE])
  {
    var s := FENCE + lang;
    assert s[|s| - 1] == if lang == "" then '`' else lang[|lang| - 1];
    assert !IsWhite('`') && IsWhite('\r');
    assert FENCE[2] == '`';
  }

  lemma CrOutside(lines: seq<string>)
    requires lines != [] && Opening(lines[0]).None? && CrShows(lines[1..])
    ensures CrShows(lines)
  {
    hide Segments, Print, Opening, Outside, StripCr, NoCr, ClosingAt, PrintOne;
    var rest := lines[1..];
    SegmentsAt(lines);
    SegmentsAt(Stripped(lines));
    StrippedSlices(lines, 1);
    SameMarks(lines[0]);
    PrintFirst(Outside(lines[0]), Segments(rest));
    NoCrConcat(PrintOne(Outside(lines[0])), Print(Segments(rest)));
    Heads(Outside(StripCr(lines[0])), Segments(Stripped(rest)), Outside(lines[0]), Segments(rest));
  }

  lemma Heads(x: Segment, a: seq<Segment>, y: Segment, b: seq<Segment>)
    ensures [x] + a == [y] + b <==> x == y && a == b
  {
    if [x] + a == [y] + b {
      assert ([x] + a)[0] == x && ([x] + a)[1..] == a && ([y] + b)[1..] == b;
    }
  }

  lemma CrUnclosed(lines: seq<string>)
    requires lines != [] && Opening(lines[0]).Some? && ClosingAt(lines[1..]) == |lines| - 1
    ensures CrShows(lines)
  {
    hide Segments, Print, Opening, StripCr, NoCr, ClosingAt, Texts;
    var lang, rest := Opening(lines[0]).value, lines[1..];
    SegmentsAt(lines);
    SegmentsAt(Stripped(lines));
    StrippedSlices(lines, 1);
    SameMarks(lines[0]);
    SameClosing(rest);
    var open := Markdown(FENCE + lang);
    Heads(open, Texts(Stripped(rest)), open, Texts(rest));
    if Texts(Stripped(rest)) == Texts(rest) { TextsSame(Stripped(rest), rest); }
    StrippedSame(rest);
    PrintFirst(open, Texts(rest));
    PrintTexts(rest);
    NoCrConcat([FENCE + lang], rest);
    NoCrFence(lang);
  }

  lemma CrBlock(lines: seq<string>, n: nat)
    requires lines != [] && Opening(lines[0]).Some? && n == ClosingAt(lines[1..]) < |lines| - 1
    requires AreLines(lines) && CrShows(lines[1..][n + 1..])
    ensures CrShows(lines)
  {
    hide Segments, Print, Opening, StripCr, NoCr, ClosingAt, Join, CodeLines, PrintOne, AreLines;
    var lang, rest := Opening(lines[0]).value, lines[1..];
    var code, tail := rest[..n], rest[n + 1..];
    StrippedBlock(lines, n);
    var block := CodeBlock(lang, Join(code, "\n"));
    Heads(CodeBlock(lang, Join(Stripped(code), "\n")), Segments(Stripped(tail)), block, Segments(tail));
    LinesSlices(lines, 1, 1);
    LinesSlices(rest, n, n);
    CodeSame(code);
    PrintFirst(block, Segments(tail));
    NoCrConcat(PrintOne(block), Print(Segments(tail)));
    NoCrBlock(lang, Join(code, "\n"));
  }

  lemma StrippedBlock(lines: seq<string>, n: nat)
    requires lines != [] && Opening(lines[0]).Some? && n == ClosingAt(lines[1..]) < |lines| - 1
    ensures var lang, rest := Opening(lines[0]).value, lines[1..];
      && Segments(lines) == [CodeBlock(lang, Join(rest[..n], "\n"))] + Segments(rest[n + 1..])
      && Segments(Stripped(lines)) == [CodeBlock(lang, Join(Stripped(rest[..n]), "\n"))] + Segments(Stripped(rest[n + 1..]))
  {
    hide *;
    var rest, stripped := lines[1..], Stripped(lines);
    SegmentsAt(lines);
    SegmentsAt(stripped);
    SameMarks(lines[0]);
    assert stripped[0] == StripCr(lines[0]);
    StrippedSlices(lines, 1);
    SameClosing(rest);
    assert stripped[1..] == Stripped(rest) && ClosingAt(stripped[1..]) == n;
    StrippedSlices(rest, n);
    StrippedSlices(rest, n + 1);
  }

  lemma NoCrBlock(lang: string, code: string)
    requires Trim(lang) == lang
    ensures NoCr(PrintOne(CodeBlock(lang, code))) <==> NoCr(CodeLines(code))
  {
    hide NoCr, CodeLines;
    NoCrConcat([FENCE + lang], CodeLines(code) + [FENCE]);
    NoCrConcat(CodeLines(code), [FENCE]);
    NoCrFence(lang);
  }

  lemma {:induction false} CrShowsAlways(lines: seq<string>)
    requires AreLines(lines)
    ensures CrShows(lines)
    decreases |lines|
  {
    if lines != [] {
      hide CrShows, Opening, ClosingAt;
      var rest := lines[1..];
      var n := ClosingAt(rest);
      if Opening(lines[0]).None? {
        CrShowsAlways(rest);
        CrOutside(lines);
      } else if n == |rest| {
        CrUnclosed(lines);
      } else {
        CrShowsAlways(rest[n + 1..]);
        CrBlock(lines, n);
      }
    }
  }

  predicate EndsInCr(line: string) {
    line != "" && line[|line| - 1] == '\r'
  }

  /**
    Some line ending in a carriage return is kept as it is: outside fences a line that is no
    rule, in a block or behind a fence that is never closed any line.
   */
  predicate KeepsCr(lines: seq<string>)
    decreases |lines|
  {
    lines != [] &&
    if Opening(lines[0]).None? then (EndsInCr(lines[0]) && Outside(lines[0]).Markdown?) || KeepsCr(lines[1..])
    else
      var rest := lines[1..];
      var n := ClosingAt(rest);
      if n == |rest| then AnyEndsInCr(rest) else AnyEndsInCr(rest[..n]) || KeepsCr(rest[n + 1..])
  }

  predicate AnyEndsInCr(lines: seq<string>) {
    exists i :: 0 <= i < |lines| && EndsInCr(lines[i])
  }

  lemma NoCrIff(lines: seq<string>)
    ensures NoCr(lines) <==> !AnyEndsInCr(lines)
  {
  }

  lemma CodeNoCr(code: seq<string>)
    requires AreLines(code)
    ensures NoCr(CodeLines(Join(code, "\n"))) <==> !AnyEndsInCr(code)
  {
    hide Join, CodeLines;
    CodeAgain(code);
    NoCrIff(code);
    NoCrIff([]);
  }

  lemma KeepsCrAt(lines: seq<string>)
    requires lines != []
    ensures Opening(lines[0]).None? ==>
      (KeepsCr(lines) <==> (EndsInCr(lines[0]) && Outside(lines[0]).Markdown?) || KeepsCr(lines[1..]))
    ensures var rest := lines[1..]; var n := ClosingAt(rest);
      Opening(lines[0]).Some? ==>
        (KeepsCr(lines) <==> if n == |rest| then AnyEndsInCr(rest) else AnyEndsInCr(rest[..n]) || KeepsCr(rest[n + 1..]))
  {
    hide Opening, ClosingAt, Outside, AnyEndsInCr, EndsInCr;
  }

  lemma OutsideNoCr(line: string)
    ensures NoCr(PrintOne(Outside(line))) <==> !(EndsInCr(line) && Outside(line).Markdown?)
  {
    assert "---"[2] == '-' && StripCr("---") == "---";
    hide TrimEnd;
    var shown := PrintOne(Outside(line));
    assert NoCr(shown) <==> StripCr(shown[0]) == shown[0];
  }

  /** The print shows a carriage return at the end of a line exactly when the lines keep one. */
  lemma {:induction false} PrintShowsCr(lines: seq<string>)
    requires AreLines(lines)
    ensures NoCr(Print(Segments(lines))) <==> !KeepsCr(lines)
    decreases |lines|
  {
    hide *;
    if lines == [] {
      NoLinesNoCr();
    } else {
      SegmentsAt(lines);
      KeepsCrAt(lines);
      LinesSlices(lines, 1, 1);
      var rest := lines[1..];
      if Opening(lines[0]).None? {
        PrintShowsCr(rest);
        OutsideNoCr(lines[0]);
        PrintFirst(Outside(lines[0]), Segments(rest));
        NoCrConcat(PrintOne(Outside(lines[0])), Print(Segments(rest)));
      } else {
        var lang, n := Opening(lines[0]).value, ClosingAt(rest);
        LangTrimmed(lines[0]);
        if n == |rest| {
          PrintMarkdownFirst(FENCE + lang, Texts(rest));
          PrintTexts(rest);
          NoCrConcat([FENCE + lang], rest);
          NoCrFence(lang);
          NoCrIff(rest);
        } else {
          var code, tail := rest[..n], rest[n + 1..];
          LinesSlices(rest, n + 1, n + 1);
          LinesSlices(rest, n, n);
          PrintShowsCr(tail);
          CodeNoCr(code);
          NoCrBlock(lang, Join(code, "\n"));
          PrintFirst(CodeBlock(lang, Join(code, "\n")), Segments(tail));
          NoCrConcat(PrintOne(CodeBlock(lang, Join(code, "\n"))), Print(Segments(tail)));
        }
      }
    }
  }

  lemma NoLinesNoCr()
    ensures NoCr(Print(Segments([]))) && !KeepsCr([])
  {
  }

  lemma LangTrimmed(line: string)
    requires Opening(line).Some?
    ensures Trim(Opening(line).value) == Opening(line).value
  {
  }

  lemma PrintMarkdownFirst(text: string, segs: seq<Segment>)
    ensures Print([Markdown(text)] + segs) == [text] + Print(segs)
  {
    PrintFirst(Markdown(text), segs);
  }

  /**
    Printing the segments of a text and parsing the print gives the same segments exactly when
    no line kept as it is ends in a carriage return, which a second reading would take for a
    part of the line end.
   */
  lemma TextNormalForm(text: string)
    ensures var segs := Segments(Lines(text));
      Segments(Lines(Text(Print(segs)))) == segs <==> !KeepsCr(Lines(text))
  {
    hide Segments, Print, Text, Lines, Stripped, NoCr, KeepsCr;
    LinesAreLines(text);
    var segs := Segments(Lines(text));
    NormalForm(Lines(text));
    PrintedLines(Lines(text));
    CrShowsAlways(Print(segs));
    LinesOfText(Print(segs));
    PrintShowsCr(Lines(text));
  }

  lemma LinesConcat(a: seq<string>, b: seq<string>)
    requires AreLines(a) && AreLines(b)
    ensures AreLines(a + b)
  {
  }

  lemma LinesSlices(lines: seq<string>, i: nat, j: nat)
    requires AreLines(lines) && i <= j <= |lines|
    ensures AreLines(lines[i..]) && AreLines(lines[..j])
  {
  }

  lemma PrintedUnclosed(lang: string, rest: seq<string>)
    requires AreLines(rest) && AreLines([FENCE + lang])
    ensures AreLines(Print([Markdown(FENCE + lang)] + Texts(rest)))
  {
    hide Print, Texts, AreLines;
    PrintFirst(Markdown(FENCE + lang), Texts(rest));
    PrintTexts(rest);
    LinesConcat([FENCE + lang], rest);
  }

  lemma PrintedFirst(s: Segment, segs: seq<Segment>)
    requires AreLines(PrintOne(s)) && AreLines(Print(segs))
    ensures AreLines(Print([s] + segs))
  {
    hide Print, PrintOne, AreLines;
    PrintFirst(s, segs);
    LinesConcat(PrintOne(s), Print(segs));
  }

  lemma {:induction false} PrintedLines(lines: seq<string>)
    requires AreLines(lines)
    ensures AreLines(Print(Segments(lines)))
    decreases |lines|
  {
    hide *;
    if lines == [] {
      PrintedNone();
    } else {
      SegmentsAt(lines);
      var rest := lines[1..];
      LinesSlices(lines, 1, 1);
      if Opening(lines[0]).None? {
        PrintedLines(rest);
        OutsideIsLine(lines, Outside(lines[0]));
        PrintedFirst(Outside(lines[0]), Segments(rest));
      } else {
        var lang, n := Opening(lines[0]).value, ClosingAt(rest);
        FenceIsLine(lines);
        if n == |rest| {
          PrintedUnclosed(lang, rest);
        } else {
          var code, tail := rest[..n], rest[n + 1..];
          LinesSlices(rest, n + 1, n + 1);
          LinesSlices(rest, n, n);
          PrintedLines(tail);
          BlockIsLines(lang, code);
          PrintedFirst(CodeBlock(lang, Join(code, "\n")), Segments(tail));
        }
      }
    }
  }

  lemma PrintedNone()
    ensures AreLines(Print(Segments([])))
  {
  }

  lemma OutsideIsLine(lines: seq<string>, s: Segment)
    requires AreLines(lines) && lines != [] && s == Outside(lines[0])
    ensures AreLines(PrintOne(s))
  {
  }

  lemma FenceIsLine(lines: seq<string>)
    requires AreLines(lines) && lines != [] && Opening(lines[0]).Some?
    ensures AreLines([FENCE + Opening(lines[0]).value])
  {
    LangIsLine(lines[0]);
  }

  lemma BlockIsLines(lang: string, code: seq<string>)
    requires AreLines(code) && AreLines([FENCE + lang])
    ensures AreLines(PrintOne(CodeBlock(lang, Join(code, "\n"))))
  {
    hide Join, CodeLines;
    CodeAgain(code);
    assert FENCE[0] != '\n' && FENCE[1] != '\n' && FENCE[2] != '\n' && |FENCE| == 3;
    LinesConcat(CodeLines(Join(code, "\n")), [FENCE]);
    LinesConcat([FENCE + lang], CodeLines(Join(code, "\n")) + [FENCE]);
  }

  lemma LangIsLine(line: string)
    requires IsLine(line) && Opening(line).Some?
    ensures IsLine(FENCE + Opening(line).value)
  {
    var lang := Opening(line).value;
    var t := TrimEnd(line);
    forall i | 0 <= i < |lang| ensures lang[i] != '\n' {
      assert lang[i] in t[3..];
    }
    assert FENCE[0] != '\n' && FENCE[1] != '\n' && FENCE[2] != '\n';
  }

  lemma CarriageReturnIsLost()
    ensures var segs := Segments(Lines("a\r\r\n")); Segments(Lines(Text(Print(segs)))) != segs
  {
    var text := "a\r\r\n";
    assert Feed(text) == 3 by { assert text[1..] == "\r\r\n" && text[1..][1..] == "\r\n" && text[1..][1..][1..] == "\n"; }
    assert text[..3] == "a\r\r" && text[4..] == "" && StripCr("a\r\r") == "a\r";
    assert Lines(text) == ["a\r"];
    assert Opening("a\r").None? && Outside("a\r") == Markdown("a\r");
    assert KeepsCr(["a\r"]);
    TextNormalForm(text);
  }
}
