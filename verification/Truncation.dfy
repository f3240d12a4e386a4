/**
  Truncation to the width of the terminal (`crates/cli/src/renderer.rs`). A line is cut at a
  byte offset of its UTF-8 encoding; slicing a string anywhere but between two characters is a
  panic, modelled by `None`. How many columns a character takes is an input.
 */
module Truncation {
  import opened Wrappers
  import opened Chars
  import S = Segments
  import Ansi
  import Utf8

  const MARKER := "... (truncated)"

  // ---------- bytes ----------

  /** Bytes of a character in UTF-8. */
  function Utf8Length(c: char): nat {
    if c < 0x80 as char then 1 else if c < 0x800 as char then 2 else if c < 0x1_0000 as char then 3 else 4
  }

  function ByteLength(s: string): nat {
    if s == "" then 0 else Utf8Length(s[0]) + ByteLength(s[1..])
  }

  /** `&s[..end]`: `None` when `end` falls inside a character or past the end. */
  function BytePrefix(s: string, end: nat): Option<string> {
    if end == 0 then Some("")
    else if s == "" || Utf8Length(s[0]) > end then None
    else
      var rest := BytePrefix(s[1..], end - Utf8Length(s[0]));
      if rest.None? then None else Some([s[0]] + rest.value)
  }

  lemma {:induction false} PrefixAtBoundary(s: string, k: nat)
    requires k <= |s|
    ensures BytePrefix(s, ByteLength(s[..k])) == Some(s[..k])
  {
    if k > 0 {
      assert s[..k][1..] == s[1..][..k - 1];
      PrefixAtBoundary(s[1..], k - 1);
      assert s[..k] == [s[0]] + s[1..][..k - 1];
    }
  }

  /** The lengths are those of the encoding. */
  lemma {:induction false} ByteLengthIs(s: string)
    ensures |Utf8.Bytes(s)| == ByteLength(s)
  {
    if s != "" {
      LengthIs(s[0]);
      ByteLengthIs(s[1..]);
    }
  }

  lemma LengthIs(c: char)
    ensures |Utf8.Encode(c)| == Utf8Length(c)
  {
  }

  /** A slice succeeds exactly at the boundaries of characters, and then its bytes are those in front of it. */
  lemma {:induction false} BytePrefixIff(s: string, end: nat)
    ensures BytePrefix(s, end).Some? <==> end <= |Utf8.Bytes(s)| && Utf8.IsBoundary(Utf8.Bytes(s), end)
    ensures BytePrefix(s, end).Some? ==>
      BytePrefix(s, end).value <= s && Utf8.Bytes(BytePrefix(s, end).value) == Utf8.Bytes(s)[..end]
  {
    if end > 0 && s != "" {
      if Utf8Length(s[0]) > end {
        InsideFirst(s, end);
      } else {
        var rest := BytePrefix(s[1..], end - Utf8Length(s[0]));
        BytePrefixIff(s[1..], end - Utf8Length(s[0]));
        BehindFirst(s, end);
        hide Utf8.Bytes, Utf8Length, Utf8.IsBoundary;
        if rest.Some? { PrefixBehindFirst(s, end, rest.value); }
      }
    }
  }

  /** A cut inside the first character is no boundary. */
  lemma InsideFirst(s: string, end: nat)
    requires s != "" && 0 < end < Utf8Length(s[0])
    ensures end < |Utf8.Bytes(s)| && !Utf8.IsBoundary(Utf8.Bytes(s), end)
  {
    LengthIs(s[0]);
    Utf8.DecodeOfEncode(s[0]);
    hide Utf8.Encode, Utf8Length, Utf8.IsContinuation;
    assert Utf8.Bytes(s)[end] == Utf8.Encode(s[0])[end];
  }

  lemma BytesOfFirst(s: string)
    requires s != ""
    ensures Utf8.Bytes(s) == Utf8.Encode(s[0]) + Utf8.Bytes(s[1..]) && |Utf8.Encode(s[0])| == Utf8Length(s[0])
    ensures Utf8.Bytes(s[1..]) == [] || !Utf8.IsContinuation(Utf8.Bytes(s[1..])[0])
  {
    LengthIs(s[0]);
    if s[1..] != "" { Utf8.FirstByte(s[1..]); }
    hide Utf8.Encode, Utf8.IsContinuation;
  }

  /** A cut behind the first character is a boundary exactly when it is one of the rest. */
  lemma BehindFirst(s: string, end: nat)
    requires s != "" && 0 < Utf8Length(s[0]) <= end
    ensures var n := Utf8Length(s[0]);
      && |Utf8.Bytes(s)| == n + |Utf8.Bytes(s[1..])|
      && (Utf8.IsBoundary(Utf8.Bytes(s), end) <==> Utf8.IsBoundary(Utf8.Bytes(s[1..]), end - n))
  {
    hide Utf8.Encode, Utf8Length, Utf8.IsContinuation, Utf8.Bytes;
    BytesOfFirst(s);
    var bytes, rest, n := Utf8.Bytes(s), Utf8.Bytes(s[1..]), Utf8Length(s[0]);
    assert n <= end < |bytes| ==> bytes[end] == rest[end - n];
  }

  lemma PrefixBehindFirst(s: string, end: nat, p: string)
    requires s != "" && 0 < Utf8Length(s[0]) <= end <= |Utf8.Bytes(s)| && p <= s[1..]
    requires |Utf8.Bytes(s)| == Utf8Length(s[0]) + |Utf8.Bytes(s[1..])|
    requires Utf8.Bytes(p) == Utf8.Bytes(s[1..])[..end - Utf8Length(s[0])]
    ensures Utf8.Bytes([s[0]] + p) == Utf8.Bytes(s)[..end] && [s[0]] + p <= s
  {
    hide Utf8.Encode, Utf8Length, Utf8.IsContinuation, Utf8.Bytes;
    BytesOfFirst(s);
    Utf8.BytesFirst(s[0], p);
    var rest, n := Utf8.Bytes(s[1..]), Utf8Length(s[0]);
    assert Utf8.Bytes(s)[..end] == Utf8.Encode(s[0]) + rest[..end - n];
    assert s == [s[0]] + s[1..];
  }

  lemma {:induction false} ByteLengthNext(s: string, k: nat)
    requires k < |s|
    ensures ByteLength(s[..k + 1]) == ByteLength(s[..k]) + Utf8Length(s[k])
  {
    if k > 0 {
      assert s[..k + 1][1..] == s[1..][..k] && s[..k][1..] == s[1..][..k - 1];
      ByteLengthNext(s[1..], k - 1);
    }
  }

  // ---------- one line ----------

  function Width(w: char -> nat, s: string): nat {
    if s == "" then 0 else Width(w, s[..|s| - 1]) + w(s[|s| - 1])
  }

  /** The width of a text is the sum over its characters. */
  lemma {:induction false} WidthIs(w: char -> nat, a: string, b: string, c: char)
    ensures Width(w, "") == 0 && Width(w, [c]) == w(c) && Width(w, a + b) == Width(w, a) + Width(w, b)
    decreases |b|
  {
    assert [c][..0] == "";
    if b == "" {
      assert a + b == a;
    } else {
      var m := |b| - 1;
      assert (a + b)[..|a + b| - 1] == a + b[..m];
      WidthIs(w, a, b[..m], c);
    }
  }

  lemma {:induction false} WidthGrows(w: char -> nat, s: string, j: nat, k: nat)
    requires j <= k <= |s|
    ensures Width(w, s[..j]) <= Width(w, s[..k])
    decreases k
  {
    if j < k {
      assert s[..k][..k - 1] == s[..k - 1];
      WidthGrows(w, s, j, k - 1);
    }
  }

  /** `r` is the line, or as much of it as fits and the marker. */
  ghost predicate IsTruncated(w: char -> nat, max: nat, line: string, r: string) {
    if Width(w, line) <= max then r == line
    else exists k: nat :: LongestFitting(w, max, line, k) && r == line[..k] + MARKER
  }

  /** The first `k` characters fit, and no longer prefix does. */
  ghost predicate LongestFitting(w: char -> nat, max: nat, line: string, k: nat) {
    k < |line| && Width(w, line[..k]) <= max && forall j :: k < j <= |line| ==> Width(w, line[..j]) > max
  }

  /** The byte offset is always between two characters: the slice never panics. */
  method TruncateLineToWidth(w: char -> nat, max: nat, content: string) returns (r: Option<string>)
    ensures r.Some? && IsTruncated(w, max, content, r.value)
  {
    var widthSoFar, end, i := 0, 0, 0;
    while i < |content|
      invariant 0 <= i <= |content|
      invariant widthSoFar == Width(w, content[..i]) <= max
      invariant end == ByteLength(content[..i])
    {
      var c := content[i];
      assert content[..i + 1][..i] == content[..i];
      if widthSoFar + w(c) > max {
        forall j | i < j <= |content| ensures Width(w, content[..j]) > max { WidthGrows(w, content, i + 1, j); }
        assert content[..|content|] == content;
        PrefixAtBoundary(content, i);
        assert LongestFitting(w, max, content, i);
        var cut := BytePrefix(content, end);
        return Some(cut.value + MARKER);
      }
      ByteLengthNext(content, i);
      widthSoFar := widthSoFar + w(c);
      end := end + Utf8Length(c);
      i := i + 1;
    }
    assert content[..i] == content;
    return Some(content);
  }

  // ---------- many lines ----------

  ghost predicate AreTruncated(w: char -> nat, max: nat, lines: seq<string>, r: seq<string>) {
    |r| == |lines| && forall i :: 0 <= i < |lines| ==> IsTruncated(w, max, lines[i], r[i])
  }

  lemma MarkerIsLine()
    ensures S.IsLine(MARKER) && S.StripCr(MARKER) == MARKER
  {
    assert MARKER == ['.', '.', '.', ' ', '(', 't', 'r', 'u', 'n', 'c', 'a', 't', 'e', 'd', ')'];
  }

  lemma TruncatedIsLine(w: char -> nat, max: nat, line: string, r: string)
    requires S.IsLine(line) && IsTruncated(w, max, line, r)
    ensures S.IsLine(r) && (line != "" ==> r != "")
  {
    hide Width;
    MarkerIsLine();
    if r != line {
      var k: nat :| LongestFitting(w, max, line, k) && r == line[..k] + MARKER;
      forall i | 0 <= i < |r| ensures r[i] != '\n' {
        assert r[i] == if i < k then line[i] else MARKER[i - k];
      }
    }
  }

  method TruncateEach(w: char -> nat, max: nat, lines: seq<string>) returns (r: seq<string>)
    ensures AreTruncated(w, max, lines, r)
  {
    hide IsTruncated;
    r := [];
    var i := 0;
    while i < |lines|
      invariant 0 <= i <= |lines|
      invariant |r| == i && forall j :: 0 <= j < i ==> IsTruncated(w, max, lines[j], r[j])
    {
      var one := TruncateLineToWidth(w, max, lines[i]);
      r := r + [one.value];
      i := i + 1;
    }
  }

  predicate EndsInFeed(s: string) {
    s != "" && s[|s| - 1] == '\n'
  }

  /** The lines joined by line feeds, with one more at the end or not. */
  function Joined(lines: seq<string>, feed: bool): string {
    Join(lines, "\n") + if feed then "\n" else ""
  }

  /** What a second reading makes of the lines: a carriage return in front of a line feed goes with it. */
  function ReadAgain(lines: seq<string>, feed: bool): seq<string> {
    if feed || lines == [] then S.Stripped(lines) else S.Stripped(lines[..|lines| - 1]) + [lines[|lines| - 1]]
  }

  lemma {:induction false} JoinedFeed(lines: seq<string>)
    requires lines != []
    ensures Joined(lines, true) == S.Text(lines)
  {
    if |lines| == 1 {
      assert lines[1..] == [];
    } else {
      JoinedFeed(lines[1..]);
      assert (lines[0] + ("\n" + Join(lines[1..], "\n"))) + "\n" == lines[0] + ("\n" + (Join(lines[1..], "\n") + "\n"));
    }
  }

  lemma NoFeed(line: string)
    requires S.IsLine(line)
    ensures S.Feed(line) == |line|
  {
  }

  lemma {:induction false} LinesOfJoined(lines: seq<string>, feed: bool)
    requires S.AreLines(lines) && lines != [] && (feed || lines[|lines| - 1] != "")
    ensures S.Lines(Joined(lines, feed)) == ReadAgain(lines, feed)
  {
    hide S.StripCr, S.Lines, Joined;
    if feed {
      JoinedFeed(lines);
      S.LinesOfText(lines);
    } else if |lines| == 1 {
      assert lines == [lines[0]] && lines[..0] == [];
      OneJoined(lines[0]);
    } else {
      var rest, m := lines[1..], |lines| - 1;
      LinesOfJoined(rest, feed);
      FirstJoined(lines);
      StrippedFirst(lines[..m]);
      assert lines[..m][1..] == rest[..m - 1] && lines[..m][0] == lines[0];
    }
  }

  lemma OneJoined(line: string)
    requires S.IsLine(line) && line != ""
    ensures S.Lines(Joined([line], false)) == [line]
  {
    assert Joined([line], false) == line;
    NoFeed(line);
  }

  lemma StrippedFirst(lines: seq<string>)
    requires lines != []
    ensures S.Stripped(lines) == [S.StripCr(lines[0])] + S.Stripped(lines[1..])
  {
  }

  lemma FirstJoined(lines: seq<string>)
    requires S.AreLines(lines) && |lines| > 1
    ensures S.Lines(Joined(lines, false)) == [S.StripCr(lines[0])] + S.Lines(Joined(lines[1..], false))
  {
    var rest := Join(lines[1..], "\n");
    var text := lines[0] + ("\n" + rest);
    assert Joined(lines, false) == text && Joined(lines[1..], false) == rest;
    hide Join;
    S.FeedOf(lines[0], rest);
    assert text[..|lines[0]|] == lines[0] && text[|lines[0]| + 1..] == rest;
  }

  lemma {:induction false} JoinEndsInFeed(lines: seq<string>)
    requires S.AreLines(lines) && lines != [] && lines[|lines| - 1] != ""
    ensures Join(lines, "\n") != "" && !EndsInFeed(Join(lines, "\n"))
  {
    if |lines| > 1 {
      JoinEndsInFeed(lines[1..]);
      var tail := Join(lines[1..], "\n");
      var s := lines[0] + ("\n" + tail);
      assert s[|s| - 1] == tail[|tail| - 1];
    }
  }

  lemma {:induction false} LastLine(text: string)
    requires text != ""
    ensures S.Lines(text) != [] && (!EndsInFeed(text) ==> S.Lines(text)[|S.Lines(text)| - 1] != "")
    decreases |text|
  {
    var n := S.Feed(text);
    if n < |text| && n + 1 < |text| {
      LastLine(text[n + 1..]);
      assert EndsInFeed(text) == EndsInFeed(text[n + 1..]);
    }
  }

  /**
    The lines of the result are the truncated lines of the text, in number and one for one, and
    the trailing line feed is kept. Truncation itself adds no carriage return; one that stood
    before the line feed of a line goes when the result is read as lines again.
   */
  method TruncateLinesToWidth(w: char -> nat, max: nat, content: string) returns (r: string)
    ensures EndsInFeed(r) == EndsInFeed(content)
    ensures |S.Lines(r)| == |S.Lines(content)|
    ensures exists cut :: AreTruncated(w, max, S.Lines(content), cut) && S.Lines(r) == ReadAgain(cut, EndsInFeed(content))
    ensures S.NoCr(S.Lines(content)) ==> AreTruncated(w, max, S.Lines(content), S.Lines(r))
  {
    var hadTrailingNewline := EndsInFeed(content);
    var lines := S.Lines(content);
    var cut := TruncateEach(w, max, lines);
    r := Join(cut, "\n");
    if hadTrailingNewline { r := r + "\n"; }
    assert r == Joined(cut, hadTrailingNewline);
    if content == "" {
      assert lines == [] && cut == [];
    } else {
      CutLines(w, max, content, cut);
      LinesOfJoined(cut, hadTrailingNewline);
    }
    TruncatedAgain(w, max, lines, cut, hadTrailingNewline);
  }

  lemma CutLines(w: char -> nat, max: nat, content: string, cut: seq<string>)
    requires content != "" && AreTruncated(w, max, S.Lines(content), cut)
    ensures S.AreLines(cut) && cut != [] && (EndsInFeed(content) || cut[|cut| - 1] != "")
    ensures EndsInFeed(Joined(cut, EndsInFeed(content))) == EndsInFeed(content)
  {
    hide IsTruncated;
    var lines := S.Lines(content);
    S.LinesAreLines(content);
    LastLine(content);
    forall i | 0 <= i < |lines| ensures S.IsLine(cut[i]) && (lines[i] != "" ==> cut[i] != "") {
      TruncatedIsLine(w, max, lines[i], cut[i]);
    }
    if !EndsInFeed(content) { JoinEndsInFeed(cut); }
  }

  lemma TruncatedAgain(w: char -> nat, max: nat, lines: seq<string>, cut: seq<string>, feed: bool)
    requires AreTruncated(w, max, lines, cut)
    ensures |ReadAgain(cut, feed)| == |lines|
    ensures S.NoCr(lines) ==> ReadAgain(cut, feed) == cut
  {
    hide S.Stripped, S.StripCr, IsTruncated, ReadAgain;
    ReadAgainSame(cut, feed);
    if S.NoCr(lines) {
      forall i | 0 <= i < |cut| ensures S.StripCr(cut[i]) == cut[i] {
        TruncatedKeepsEnd(w, max, lines[i], cut[i]);
      }
    }
  }

  lemma ReadAgainSame(cut: seq<string>, feed: bool)
    ensures |ReadAgain(cut, feed)| == |cut|
    ensures S.NoCr(cut) ==> ReadAgain(cut, feed) == cut
  {
    hide S.Stripped, S.StripCr;
    S.StrippedSame(cut);
    if cut != [] {
      var m := |cut| - 1;
      S.StrippedSame(cut[..m]);
      assert S.NoCr(cut) ==> S.NoCr(cut[..m]);
      assert cut == cut[..m] + [cut[m]];
    }
  }

  lemma TruncatedKeepsEnd(w: char -> nat, max: nat, line: string, r: string)
    requires IsTruncated(w, max, line, r) && S.StripCr(line) == line
    ensures S.StripCr(r) == r
  {
    hide Width;
    MarkerIsLine();
    if r != line {
      var k: nat :| LongestFitting(w, max, line, k) && r == line[..k] + MARKER;
      assert r[|r| - 1] == MARKER[|MARKER| - 1];
    }
  }

  // ---------- a tool result ----------

  const TOOL_RESULT_MAX_LINES := 20

  /** The lines shown of a rendered tool result: the first twenty, and the marker if there were more. */
  ghost predicate IsResultBody(w: char -> nat, max: nat, rendered: seq<string>, body: seq<string>) {
    var n := if |rendered| > TOOL_RESULT_MAX_LINES then TOOL_RESULT_MAX_LINES else |rendered|;
    && |body| == n + (if |rendered| > TOOL_RESULT_MAX_LINES then 1 else 0)
    && AreTruncated(w, max, rendered[..n], body[..n])
    && (|rendered| > TOOL_RESULT_MAX_LINES ==> body[n] == MARKER)
  }

  lemma ResultIsShort(w: char -> nat, max: nat, rendered: seq<string>, body: seq<string>)
    requires IsResultBody(w, max, rendered, body)
    ensures |body| <= TOOL_RESULT_MAX_LINES + 1
    ensures |body| == |rendered| <==> |rendered| <= TOOL_RESULT_MAX_LINES + 1
  {
  }

  /** The body of a tool result, dimmed on a terminal that has colours. */
  ghost predicate IsToolResult(w: char -> nat, max: nat, ansi: bool, rendered: string, body: seq<string>, out: string) {
    && IsResultBody(w, max, S.Lines(rendered), body) && |body| <= TOOL_RESULT_MAX_LINES + 1
    && S.Lines(S.Text(body)) == S.Stripped(body)
    && out == Ansi.Rendered([Ansi.DIM, Ansi.Plain(S.Text(body)), Ansi.RESET], ansi)
  }

  /**
    A tool result; `rendered` is its content after markdown rendering. Every line of the body
    is ended by a line feed, so it reads back as its lines. Empty content is not rendered.
   */
  method RenderToolResult(w: char -> nat, max: nat, ansi: bool, content: string, rendered: string) returns (out: string)
    ensures content == "" ==> out == Ansi.Rendered([Ansi.DIM, Ansi.Plain(""), Ansi.RESET], ansi) + "\n"
    ensures content != "" ==> exists body :: IsToolResult(w, max, ansi, rendered, body, out)
  {
    hide IsTruncated;
    if content == "" {
      Ansi.ThreePieces(Ansi.DIM, content);
      out := if ansi then Ansi.Show(Ansi.DIM) + content + Ansi.Show(Ansi.RESET) + "\n" else content + "\n";
      return;
    }
    var lines := S.Lines(rendered);
    S.LinesAreLines(rendered);
    ghost var all := lines;
    var truncatedMarker := false;
    if |lines| > TOOL_RESULT_MAX_LINES {
      lines := lines[..TOOL_RESULT_MAX_LINES];
      truncatedMarker := true;
    } else {
      assert lines == lines[..|lines|];
    }
    var cut := TruncateEach(w, max, lines);
    out := PushLines(cut);
    ghost var body := cut;
    if truncatedMarker {
      TextEnd(cut, MARKER);
      out := out + (MARKER + "\n");
      body := cut + [MARKER];
    }
    assert body[..|cut|] == cut;
    assert S.AreLines(body) by { BodyLines(w, max, lines, cut, truncatedMarker); }
    S.LinesOfText(body);
    assert IsResultBody(w, max, all, body);
    ResultIsShort(w, max, all, body);
    Ansi.ThreePieces(Ansi.DIM, out);
    if ansi { out := Ansi.Show(Ansi.DIM) + out + Ansi.Show(Ansi.RESET); }
    assert IsToolResult(w, max, ansi, rendered, body, out);
  }

  /** Stripped of its codes, a dimmed result is the plain one exactly when its body holds no escape. */
  lemma DimIsTransparent(body: string)
    ensures var ps := [Ansi.DIM, Ansi.Plain(body), Ansi.RESET];
            Ansi.Strip(Ansi.Rendered(ps, true)) == Ansi.Rendered(ps, false) <==> !Ansi.Escapes(body)
  {
    hide Ansi.Strip, Ansi.Shown, Ansi.Texts, Ansi.Escapes;
    var ps := [Ansi.DIM, Ansi.Plain(body), Ansi.RESET];
    Ansi.ThreePieces(Ansi.DIM, body);
    Ansi.StyleOk(Ansi.DIM, body);
    Ansi.StylingIsTransparent(ps);
  }

  lemma BodyLines(w: char -> nat, max: nat, lines: seq<string>, cut: seq<string>, marker: bool)
    requires S.AreLines(lines) && AreTruncated(w, max, lines, cut)
    ensures S.AreLines(if marker then cut + [MARKER] else cut)
  {
    hide IsTruncated;
    forall i | 0 <= i < |cut| ensures S.IsLine(cut[i]) {
      TruncatedIsLine(w, max, lines[i], cut[i]);
    }
    MarkerIsLine();
  }

  lemma {:induction false} TextEnd(lines: seq<string>, line: string)
    ensures S.Text(lines + [line]) == S.Text(lines) + (line + "\n")
  {
    if lines == [] {
      assert lines + [line] == [line] && [line][1..] == [];
    } else {
      assert (lines + [line])[1..] == lines[1..] + [line];
      TextEnd(lines[1..], line);
    }
  }

  /** Each line pushed with a line feed behind it. */
  method PushLines(lines: seq<string>) returns (out: string)
    ensures out == S.Text(lines)
  {
    out := "";
    var i := 0;
    while i < |lines|
      invariant 0 <= i <= |lines|
      invariant out == S.Text(lines[..i])
    {
      assert lines[..i + 1] == lines[..i] + [lines[i]];
      TextEnd(lines[..i], lines[i]);
      out := out + (lines[i] + "\n");
      i := i + 1;
    }
    assert lines[..i] == lines;
  }
}
