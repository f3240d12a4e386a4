/**
  The text of a baseline file: how `str.splitlines` reads lines from it, and what is read
  again from the text that `remove_entries` writes (`scripts/dep-guard/baseline.py`).
 */
module BaselineText {
  import opened Chars
  import S = Segments

  /** The characters that `str.splitlines` ends a line at. */
  predicate IsBreak(c: char) {
    || '\n' <= c <= '\r' || 0x1c as char <= c <= 0x1e as char
    || c == 0x85 as char || c == 0x2028 as char || c == 0x2029 as char
  }

  predicate Unbroken(s: string) {
    forall i :: 0 <= i < |s| ==> !IsBreak(s[i])
  }

  /** Where the first line ends. */
  function LineLength(s: string): (n: nat)
    ensures n <= |s| && Unbroken(s[..n]) && (n < |s| ==> IsBreak(s[n]))
  {
    if s == "" || IsBreak(s[0]) then 0
    else
      var n := LineLength(s[1..]);
      assert s[..1 + n] == [s[0]] + s[1..][..n];
      1 + n
  }

  /** What follows the first break; carriage return and line feed together are one. */
  function AfterBreak(s: string): string
    requires s != ""
  {
    if |s| > 1 && s[0] == '\r' && s[1] == '\n' then s[2..] else s[1..]
  }

  function SplitLines(text: string): (lines: seq<string>)
    ensures forall i :: 0 <= i < |lines| ==> Unbroken(lines[i])
    decreases |text|
  {
    if text == "" then []
    else
      var n := LineLength(text);
      [text[..n]] + if n == |text| then [] else SplitLines(AfterBreak(text[n..]))
  }

  lemma {:induction false} LineLengthOf(line: string, r: string)
    requires Unbroken(line) && (r == "" || IsBreak(r[0]))
    ensures LineLength(line + r) == |line|
  {
    if line == "" {
      assert line + r == r;
    } else {
      assert (line + r)[1..] == line[1..] + r;
      LineLengthOf(line[1..], r);
    }
  }

  lemma SplitFirst(line: string, r: string)
    requires Unbroken(line)
    ensures SplitLines(line + ("\n" + r)) == [line] + SplitLines(r)
  {
    var text := line + ("\n" + r);
    LineLengthOf(line, "\n" + r);
    assert text[..|line|] == line && text[|line|..] == "\n" + r && ("\n" + r)[1..] == r;
  }

  lemma SplitLast(line: string)
    requires Unbroken(line)
    ensures SplitLines(line) == if line == "" then [] else [line]
  {
    LineLengthOf(line, "");
    assert line + "" == line && line[..|line|] == line;
  }

  ghost predicate AllUnbroken(lines: seq<string>) {
    forall i :: 0 <= i < |lines| ==> Unbroken(lines[i])
  }

  /** Lines that are ended are read back. */
  lemma {:induction false} SplitOfEnded(lines: seq<string>, r: string)
    requires AllUnbroken(lines)
    ensures SplitLines(S.Text(lines) + r) == lines + SplitLines(r)
  {
    hide SplitLines, Unbroken;
    if lines == [] {
      assert S.Text(lines) + r == r;
    } else {
      assert AllUnbroken(lines[1..]);
      SplitOfEnded(lines[1..], r);
      SplitFirst(lines[0], S.Text(lines[1..]) + r);
      assert S.Text(lines) + r == lines[0] + ("\n" + (S.Text(lines[1..]) + r));
      assert lines == [lines[0]] + lines[1..];
    }
  }

  lemma {:induction false} JoinIsEnded(lines: seq<string>)
    requires lines != []
    ensures Join(lines, "\n") == S.Text(lines[..|lines| - 1]) + lines[|lines| - 1]
    ensures Join(lines, "\n") + "\n" == S.Text(lines)
  {
    if |lines| > 1 {
      JoinIsEnded(lines[1..]);
      var m := |lines| - 1;
      assert lines[1..][..m - 1] == lines[..m][1..] && lines[1..][m - 1] == lines[m];
      assert Join(lines, "\n") == lines[0] + ("\n" + Join(lines[1..], "\n"));
    } else {
      assert lines[..0] == [] && lines[1..] == [];
    }
  }

  /** Joined lines with a line feed at the end are read back; no lines at all read as an empty line. */
  lemma SplitOfEndedJoin(lines: seq<string>)
    requires AllUnbroken(lines)
    ensures SplitLines(Join(lines, "\n") + "\n") == if lines == [] then [""] else lines
  {
    var all := if lines == [] then [""] else lines;
    NothingBreaks();
    assert AllUnbroken(all);
    assert Join(all, "\n") == Join(lines, "\n");
    hide SplitLines, AllUnbroken, S.Text, Join;
    JoinIsEnded(all);
    SplitOfEnded(all, "");
    assert S.Text(all) + "" == S.Text(all) && all + [] == all;
  }

  lemma SplitInitLast(init: seq<string>, last: string)
    requires AllUnbroken(init) && Unbroken(last)
    ensures SplitLines(S.Text(init) + last) == if last == "" then init else init + [last]
  {
    hide SplitLines, AllUnbroken, Unbroken, S.Text;
    SplitOfEnded(init, last);
    SplitLast(last);
    assert init + [] == init;
  }

  /** Without it, a last line that is empty is lost. */
  lemma SplitOfOpenJoin(init: seq<string>, last: string)
    requires AllUnbroken(init) && Unbroken(last)
    ensures SplitLines(Join(init + [last], "\n")) == if last == "" then init else init + [last]
  {
    hide *;
    var lines := init + [last];
    JoinIsEnded(lines);
    assert lines[..|lines| - 1] == init && lines[|lines| - 1] == last;
    SplitInitLast(init, last);
  }

  lemma NothingBreaks()
    ensures Unbroken("") && SplitLines("") == []
  {
  }
}
