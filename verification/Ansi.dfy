/**
  Styling for the terminal (`crates/cli/src/renderer.rs`): control sequences put around pieces
  of text, and `strip_ansi`, which takes them out again. The sequences are SGR, sections 5.4
  and 8.3.117 of ECMA-48.

  Everything the renderer styles is a list of pieces, plain text and control sequences. The
  plain form of the output is the text alone, and stripping the styled form gives it back
  exactly when the text holds no escape character.
 */
module Ansi {
  import opened Wrappers
  import opened Chars
  import opened InlineSpans
  import Segments

  const ESC := 27 as char

  predicate IsLetter(c: char) {
    'a' <= c <= 'z' || 'A' <= c <= 'Z'
  }

  datatype Piece = Plain(text: string) | Control(body: string, end: char)

  const BOLD := Control("[1", 'm')
  const DIM := Control("[2", 'm')
  const ITALIC := Control("[3", 'm')
  const RESET := Control("[0", 'm')
  const KEYWORD := Control("[35", 'm')
  const COMMENT := Control("[90", 'm')

  /** A control sequence has one letter, its last character. */
  predicate PieceOk(p: Piece) {
    p.Control? ==> IsLetter(p.end) && forall i :: 0 <= i < |p.body| ==> !IsLetter(p.body[i])
  }

  ghost predicate PiecesOk(ps: seq<Piece>) {
    forall i :: 0 <= i < |ps| ==> PieceOk(ps[i])
  }

  function Show(p: Piece): string {
    match p
    case Plain(text) => text
    case Control(body, end) => [ESC] + (body + [end])
  }

  function Shown(ps: seq<Piece>): string {
    if ps == [] then "" else Show(ps[0]) + Shown(ps[1..])
  }

  function Text(p: Piece): string {
    if p.Plain? then p.text else ""
  }

  function Texts(ps: seq<Piece>): string {
    if ps == [] then "" else Text(ps[0]) + Texts(ps[1..])
  }

  lemma Associative(a: string, b: string, c: string)
    ensures (a + b) + c == a + (b + c)
  {
  }

  lemma {:induction false} ShownConcat(a: seq<Piece>, b: seq<Piece>)
    ensures Shown(a + b) == Shown(a) + Shown(b)
  {
    hide Show;
    if a == [] {
      assert a + b == b;
    } else {
      assert (a + b)[1..] == a[1..] + b;
      ShownConcat(a[1..], b);
      Associative(Show(a[0]), Shown(a[1..]), Shown(b));
    }
  }

  lemma {:induction false} TextsConcat(a: seq<Piece>, b: seq<Piece>)
    ensures Texts(a + b) == Texts(a) + Texts(b)
  {
    hide Text;
    if a == [] {
      assert a + b == b;
    } else {
      assert (a + b)[1..] == a[1..] + b;
      TextsConcat(a[1..], b);
      Associative(Text(a[0]), Texts(a[1..]), Texts(b));
    }
  }

  /** The styled form shows the pieces, the plain form their text alone. */
  function Rendered(ps: seq<Piece>, ansi: bool): string {
    if ansi then Shown(ps) else Texts(ps)
  }

  // ---------- stripping ----------

  /** What follows the first letter. */
  function AfterLetter(s: string): (r: string)
    ensures |r| <= |s|
  {
    if s == "" then "" else if IsLetter(s[0]) then s[1..] else AfterLetter(s[1..])
  }

  /** One of `A` to `Z` and `a` to `z`, by code point. */
  predicate IsAsciiLetter(c: char) {
    65 <= c as int <= 90 || 97 <= c as int <= 122
  }

  lemma IsLetterIff(c: char)
    ensures IsLetter(c) <==> IsAsciiLetter(c)
  {
    assert 'a' as int == 97 && 'z' as int == 122 && 'A' as int == 65 && 'Z' as int == 90;
  }

  /** Position `n` is the first letter of `s`. */
  ghost predicate IsFirstLetter(s: string, n: int) {
    0 <= n < |s| && IsAsciiLetter(s[n]) && forall i :: 0 <= i < n ==> !IsAsciiLetter(s[i])
  }

  /** An escape takes everything up to the next letter with it, or all if there is none. */
  lemma {:induction false} AfterLetterIs(s: string)
    ensures (forall i :: 0 <= i < |s| ==> !IsAsciiLetter(s[i])) ==> AfterLetter(s) == ""
    ensures forall n :: IsFirstLetter(s, n) ==> AfterLetter(s) == s[n + 1..]
  {
    if s != "" {
      IsLetterIff(s[0]);
      hide IsLetter, IsAsciiLetter;
      if !IsLetter(s[0]) {
        var t := s[1..];
        AfterLetterIs(t);
        forall i | 0 <= i < |t| ensures t[i] == s[i + 1] {}
        forall n | IsFirstLetter(s, n) ensures AfterLetter(s) == s[n + 1..] {
          assert IsFirstLetter(t, n - 1) && t[n..] == s[n + 1..];
        }
        if forall i :: 0 <= i < |s| ==> !IsAsciiLetter(s[i]) {
          forall i | 0 <= i < |t| ensures !IsAsciiLetter(t[i]) { assert t[i] == s[i + 1]; }
        }
      }
    }
  }

  function Strip(s: string): string
    decreases |s|
  {
    if s == "" then "" else if s[0] == ESC then Strip(AfterLetter(s[1..])) else [s[0]] + Strip(s[1..])
  }

  predicate Escapes(s: string) {
    exists i :: 0 <= i < |s| && s[i] == ESC
  }

  method StripAnsi(text: string) returns (result: string)
    ensures result == Strip(text)
  {
    result := "";
    var i := 0;
    assert text[0..] == text;
    while i < |text|
      invariant 0 <= i <= |text|
      invariant result + Strip(text[i..]) == Strip(text)
      decreases |text| - i
    {
      var c := text[i];
      ghost var rest := text[i..];
      i := i + 1;
      assert rest[1..] == text[i..];
      if c == ESC {
        var done := false;
        while i < |text| && !done
          invariant 0 < i <= |text|
          invariant if done then AfterLetter(rest[1..]) == text[i..] else AfterLetter(rest[1..]) == AfterLetter(text[i..])
          decreases |text| - i
        {
          done := IsLetter(text[i]);
          assert text[i..][1..] == text[i + 1..];
          i := i + 1;
        }
      } else {
        result := result + [c];
      }
    }
  }

  /** No escape is left, so stripping again changes nothing. */
  lemma {:induction false} StrippedHasNoEscape(s: string)
    ensures !Escapes(Strip(s))
    decreases |s|
  {
    if s != "" {
      if s[0] == ESC { StrippedHasNoEscape(AfterLetter(s[1..])); } else { StrippedHasNoEscape(s[1..]); }
    }
  }

  lemma {:induction false} StripPlain(text: string, r: string)
    requires !Escapes(text)
    ensures Strip(text + r) == text + Strip(r)
  {
    if text == "" {
      assert text + r == r;
    } else {
      assert text[0] != ESC;
      assert !Escapes(text[1..]) by {
        forall i | 0 <= i < |text| - 1 ensures text[1..][i] != ESC { assert text[i + 1] != ESC; }
      }
      assert (text + r)[1..] == text[1..] + r;
      StripPlain(text[1..], r);
    }
  }

  lemma {:induction false} LetterAfter(body: string, end: char, r: string)
    requires IsLetter(end) && forall i :: 0 <= i < |body| ==> !IsLetter(body[i])
    ensures AfterLetter(body + ([end] + r)) == r
  {
    var s := body + ([end] + r);
    if body == "" {
      assert s == [end] + r && s[1..] == r;
    } else {
      assert s[1..] == body[1..] + ([end] + r);
      LetterAfter(body[1..], end, r);
    }
  }

  lemma StripControl(body: string, end: char, r: string)
    requires PieceOk(Control(body, end))
    ensures Strip(Show(Control(body, end)) + r) == Strip(r)
  {
    var s := Show(Control(body, end)) + r;
    assert s[0] == ESC && s[1..] == body + ([end] + r);
    LetterAfter(body, end, r);
  }

  lemma StripIsIdempotent(s: string)
    ensures Strip(Strip(s)) == Strip(s)
  {
    StrippedHasNoEscape(s);
    StripPlain(Strip(s), "");
    assert Strip(s) + "" == Strip(s);
  }

  lemma EscapesConcat(a: string, b: string)
    ensures Escapes(a + b) <==> Escapes(a) || Escapes(b)
  {
    if Escapes(a) {
      var i :| 0 <= i < |a| && a[i] == ESC;
      assert (a + b)[i] == ESC;
    }
    if Escapes(b) {
      var i :| 0 <= i < |b| && b[i] == ESC;
      assert (a + b)[|a| + i] == ESC;
    }
  }

  lemma {:induction false} StripPieces(ps: seq<Piece>)
    requires PiecesOk(ps) && !Escapes(Texts(ps))
    ensures Strip(Shown(ps)) == Texts(ps)
  {
    hide Strip, Escapes, PieceOk;
    if ps == [] {
      StripNothing();
    } else {
      EscapesConcat(Text(ps[0]), Texts(ps[1..]));
      StripPieces(ps[1..]);
      match ps[0]
      case Plain(text) => StripPlain(text, Shown(ps[1..]));
      case Control(body, end) => StripControl(body, end, Shown(ps[1..]));
    }
  }

  lemma StripNothing()
    ensures Strip("") == ""
  {
  }

  /** Stripping styled text gives the plain text back exactly when that holds no escape. */
  lemma StylingIsTransparent(ps: seq<Piece>)
    requires PiecesOk(ps)
    ensures Strip(Shown(ps)) == Texts(ps) <==> !Escapes(Texts(ps))
  {
    StrippedHasNoEscape(Shown(ps));
    hide Escapes, Strip;
    if !Escapes(Texts(ps)) { StripPieces(ps); }
  }

  // ---------- inline spans ----------

  function SpanPieces(s: Span): seq<Piece> {
    match s
    case Bold(t) => [BOLD, Plain(t), RESET]
    case Italic(t) => [ITALIC, Plain(t), RESET]
    case Code(t) => [BOLD, Plain(t), RESET]
    case Link(t, url) => [Plain(t + " (" + url + ")")]
    case Text(t) => [Plain(t)]
  }

  function SpansPieces(spans: seq<Span>): seq<Piece> {
    if spans == [] then [] else SpanPieces(spans[0]) + SpansPieces(spans[1..])
  }

  /** A span as it is shown, character by character. */
  function StyledSpan(s: Span, ansi: bool): string {
    match s
    case Bold(t) => if ansi then [27 as char] + "[1m" + t + [27 as char] + "[0m" else t
    case Italic(t) => if ansi then [27 as char] + "[3m" + t + [27 as char] + "[0m" else t
    case Code(t) => if ansi then [27 as char] + "[1m" + t + [27 as char] + "[0m" else t
    case Link(t, url) => t + " (" + url + ")"
    case Text(t) => t
  }

  function StyledSpans(spans: seq<Span>, ansi: bool): string {
    if spans == [] then "" else StyledSpan(spans[0], ansi) + StyledSpans(spans[1..], ansi)
  }

  lemma CodesAre()
    ensures Show(BOLD) == [27 as char] + "[1m" && Show(ITALIC) == [27 as char] + "[3m" && Show(RESET) == [27 as char] + "[0m"
    ensures Show(KEYWORD) == [27 as char] + "[35m" && Show(COMMENT) == [27 as char] + "[90m" && Show(DIM) == [27 as char] + "[2m"
  {
    assert "[1" + ['m'] == "[1m" && "[3" + ['m'] == "[3m" && "[0" + ['m'] == "[0m";
    assert "[35" + ['m'] == "[35m" && "[90" + ['m'] == "[90m" && "[2" + ['m'] == "[2m";
  }

  lemma SpanIs(s: Span, ansi: bool)
    ensures Rendered(SpanPieces(s), ansi) == StyledSpan(s, ansi)
  {
    CodesAre();
    hide Shown, Texts, Show;
    match s
    case Bold(t) => ThreePieces(BOLD, t); Shape([27 as char], "[1m", t, [27 as char], "[0m");
    case Italic(t) => ThreePieces(ITALIC, t); Shape([27 as char], "[3m", t, [27 as char], "[0m");
    case Code(t) => ThreePieces(BOLD, t); Shape([27 as char], "[1m", t, [27 as char], "[0m");
    case Link(t, url) => OnePiece(t + " (" + url + ")");
    case Text(t) => OnePiece(t);
  }

  lemma Shape(a: string, b: string, t: string, c: string, d: string)
    ensures (a + b) + t + (c + d) == a + b + t + c + d
  {
  }

  lemma {:induction false} SpansAre(spans: seq<Span>, ansi: bool)
    ensures Rendered(SpansPieces(spans), ansi) == StyledSpans(spans, ansi)
  {
    if spans != [] {
      hide SpanPieces, StyledSpan, Shown, Texts;
      SpansAre(spans[1..], ansi);
      SpanIs(spans[0], ansi);
      ShownConcat(SpanPieces(spans[0]), SpansPieces(spans[1..]));
      TextsConcat(SpanPieces(spans[0]), SpansPieces(spans[1..]));
    }
  }

  method ApplyInlineStyledText(text: string, code: Piece, ansi: bool) returns (out: string)
    requires code.Control?
    ensures out == Rendered([code, Plain(text), RESET], ansi)
  {
    hide Shown, Texts, Show;
    ThreePieces(code, text);
    out := "";
    if ansi { out := out + Show(code); assert out == Show(code); }
    out := out + text;
    if ansi {
      out := out + Show(RESET);
    } else {
      assert out == text;
    }
  }

  lemma ThreePieces(code: Piece, text: string)
    requires code.Control?
    ensures Shown([code, Plain(text), RESET]) == Show(code) + text + Show(RESET)
    ensures Texts([code, Plain(text), RESET]) == text
  {
    var ps := [code, Plain(text), RESET];
    assert ps == [code] + ([Plain(text)] + [RESET]);
    assert Shown([code]) == Show(code) && Shown([Plain(text)]) == text && Shown([RESET]) == Show(RESET);
    assert Texts([code]) == "" && Texts([Plain(text)]) == text && Texts([RESET]) == "";
    hide Shown, Texts;
    ShownConcat([code], [Plain(text)] + [RESET]);
    ShownConcat([Plain(text)], [RESET]);
    TextsConcat([code], [Plain(text)] + [RESET]);
    TextsConcat([Plain(text)], [RESET]);
  }

  method ApplyInlineStyling(spans: seq<Span>, ansi: bool) returns (out: string)
    ensures out == Rendered(SpansPieces(spans), ansi) == StyledSpans(spans, ansi)
  {
    SpansAre(spans, ansi);
    hide StyledSpans;
    hide Rendered, SpansPieces, SpanPieces;
    out := "";
    var i := 0;
    assert spans[0..] == spans;
    while i < |spans|
      invariant 0 <= i <= |spans|
      invariant out + Rendered(SpansPieces(spans[i..]), ansi) == Rendered(SpansPieces(spans), ansi)
    {
      var styled := ApplySpan(spans[i], ansi);
      NextSpan(spans, i, ansi);
      Associative(out, styled, Rendered(SpansPieces(spans[i + 1..]), ansi));
      out := out + styled;
      i := i + 1;
    }
    NoMoreSpans(spans, ansi);
  }

  lemma NextSpan(spans: seq<Span>, i: nat, ansi: bool)
    requires i < |spans|
    ensures Rendered(SpansPieces(spans[i..]), ansi) == Rendered(SpanPieces(spans[i]), ansi) + Rendered(SpansPieces(spans[i + 1..]), ansi)
  {
    assert spans[i..][0] == spans[i] && spans[i..][1..] == spans[i + 1..];
    assert SpansPieces(spans[i..]) == SpanPieces(spans[i]) + SpansPieces(spans[i + 1..]);
    hide SpanPieces, SpansPieces, Shown, Texts;
    ShownConcat(SpanPieces(spans[i]), SpansPieces(spans[i + 1..]));
    TextsConcat(SpanPieces(spans[i]), SpansPieces(spans[i + 1..]));
  }

  lemma NoMoreSpans(spans: seq<Span>, ansi: bool)
    ensures Rendered(SpansPieces(spans[|spans|..]), ansi) == ""
  {
    assert spans[|spans|..] == [];
  }

  method ApplySpan(span: Span, ansi: bool) returns (out: string)
    ensures out == Rendered(SpanPieces(span), ansi)
  {
    hide Shown, Texts;
    match span {
      case Bold(t) => out := ApplyInlineStyledText(t, BOLD, ansi);
      case Italic(t) => out := ApplyInlineStyledText(t, ITALIC, ansi);
      case Code(t) => out := ApplyInlineStyledText(t, BOLD, ansi);
      case Link(t, url) => out := t + " (" + url + ")"; OnePiece(out);
      case Text(t) => out := t; OnePiece(out);
    }
  }

  lemma OnePiece(text: string)
    ensures Shown([Plain(text)]) == text == Texts([Plain(text)])
  {
    assert text + "" == text;
  }

  lemma SpanPiecesOk(s: Span)
    ensures PiecesOk(SpanPieces(s))
  {
  }

  lemma {:induction false} SpansPiecesOk(spans: seq<Span>)
    ensures PiecesOk(SpansPieces(spans))
  {
    hide PieceOk, SpanPieces;
    if spans != [] {
      SpanPiecesOk(spans[0]);
      SpansPiecesOk(spans[1..]);
    }
  }

  // ---------- highlighted code ----------

  /** The tables of a language: its keywords, and what starts a comment line. */
  datatype Language = Language(isKeyword: string -> bool, isComment: string -> bool)

  /** How much of `s` belongs to a string literal opened by `q` just before it. */
  function LiteralLength(q: char, s: string): (n: nat)
    ensures n <= |s|
  {
    if s == "" then 0
    else if s[0] == q then 1
    else if s[0] == '\\' then (if |s| == 1 then 1 else 2 + LiteralLength(q, s[2..]))
    else 1 + LiteralLength(q, s[1..])
  }

  predicate IsQuote(c: char) {
    c == '"' || c == '\''
  }

  function WordPieces(lang: Language, word: string): seq<Piece> {
    if lang.isKeyword(word) then [KEYWORD, Plain(word), RESET] else [Plain(word)]
  }

  /** How long the first token of `s` is: a literal, a word, or one character. */
  function TokenLength(s: string): (n: nat)
    requires s != ""
    ensures 0 < n <= |s|
  {
    if IsQuote(s[0]) then 1 + LiteralLength(s[0], s[1..])
    else if IsWordStart(s[0]) then WordLength(s)
    else 1
  }

  function TokenPieces(lang: Language, token: string): seq<Piece>
    requires token != ""
  {
    if !IsQuote(token[0]) && IsWordStart(token[0]) then WordPieces(lang, token) else [Plain(token)]
  }

  function CodePieces(lang: Language, s: string): seq<Piece>
    decreases |s|
  {
    if s == "" then [] else TokenPieces(lang, s[..TokenLength(s)]) + CodePieces(lang, s[TokenLength(s)..])
  }

  function LinePieces(lang: Language, line: string): seq<Piece> {
    if lang.isComment(Segments.TrimStart(line)) then [COMMENT, Plain(line), RESET] else CodePieces(lang, line)
  }

  /** A word outside literals is coloured exactly when it is a keyword, and the rest is read afresh. */
  lemma WordIsShown(lang: Language, w: string, rest: string)
    requires w != "" && IsWordStart(w[0]) && (forall i :: 0 <= i < |w| ==> IsWord(w[i])) && (rest == "" || !IsWord(rest[0]))
    ensures Shown(CodePieces(lang, w + rest))
         == (if lang.isKeyword(w) then [27 as char] + "[35m" + w + [27 as char] + "[0m" else w) + Shown(CodePieces(lang, rest))
  {
    var s := w + rest;
    WordLengthOf(w, rest);
    assert s[0] == w[0] && !IsQuote(s[0]);
    CodesAre();
    TokenFirst(lang, w, rest);
    hide Shown, CodePieces, Show;
    OnePiece(w);
    ThreePieces(KEYWORD, w);
    Shape([27 as char], "[35m", w, [27 as char], "[0m");
  }

  lemma TokenFirst(lang: Language, token: string, rest: string)
    requires token != "" && TokenLength(token + rest) == |token|
    ensures Shown(CodePieces(lang, token + rest)) == Shown(TokenPieces(lang, token)) + Shown(CodePieces(lang, rest))
  {
    hide Shown, TokenLength, TokenPieces;
    var s := token + rest;
    assert s[..|token|] == token && s[|token|..] == rest;
    ShownConcat(TokenPieces(lang, token), CodePieces(lang, rest));
  }

  /** The inside of a literal: its quote only behind a backslash. */
  predicate IsInside(q: char, body: string)
    decreases |body|
  {
    body == "" ||
    if body[0] == '\\' then |body| >= 2 && IsInside(q, body[2..])
    else body[0] != q && IsInside(q, body[1..])
  }

  lemma {:induction false} LiteralLengthOf(q: char, body: string, rest: string)
    requires q != '\\' && IsInside(q, body)
    ensures LiteralLength(q, body + ([q] + rest)) == |body| + 1
    decreases |body|
  {
    var s := body + ([q] + rest);
    if body == "" {
      assert s[0] == q;
    } else if body[0] == '\\' {
      assert s[2..] == body[2..] + ([q] + rest);
      LiteralLengthOf(q, body[2..], rest);
    } else {
      assert s[1..] == body[1..] + ([q] + rest);
      LiteralLengthOf(q, body[1..], rest);
    }
  }

  /** A literal is shown as it is, keywords inside it included. */
  lemma LiteralIsShown(lang: Language, q: char, body: string, rest: string)
    requires (q == '"' || q == '\'') && IsInside(q, body)
    ensures Shown(CodePieces(lang, ([q] + (body + [q])) + rest)) == ([q] + (body + [q])) + Shown(CodePieces(lang, rest))
  {
    var token := [q] + (body + [q]);
    var s := token + rest;
    assert s[0] == q && s[1..] == body + ([q] + rest);
    LiteralLengthOf(q, body, rest);
    assert TokenLength(s) == |token| by { hide LiteralLength; }
    hide Shown, CodePieces, TokenLength;
    TokenFirst(lang, token, rest);
    OnePiece(token);
  }

  /** Any other character is shown as it is. */
  lemma OtherIsShown(lang: Language, c: char, rest: string)
    requires c != '"' && c != '\'' && !IsWordStart(c)
    ensures Shown(CodePieces(lang, [c] + rest)) == [c] + Shown(CodePieces(lang, rest))
  {
    hide Shown, CodePieces;
    assert ([c] + rest)[0] == c;
    TokenFirst(lang, [c], rest);
    OnePiece([c]);
  }

  /** A comment line is coloured as a whole. */
  lemma CommentIsShown(lang: Language, line: string)
    requires lang.isComment(Segments.TrimStart(line))
    ensures Shown(LinePieces(lang, line)) == [27 as char] + "[90m" + line + [27 as char] + "[0m"
  {
    CodesAre();
    hide Shown, Show;
    ThreePieces(COMMENT, line);
    Shape([27 as char], "[90m", line, [27 as char], "[0m");
  }

  lemma TokenText(lang: Language, token: string)
    requires token != ""
    ensures Texts(TokenPieces(lang, token)) == token && PiecesOk(TokenPieces(lang, token))
  {
    hide Texts;
    OnePiece(token);
    ThreePieces(KEYWORD, token);
    StyleOk(KEYWORD, token);
  }

  lemma StyleOk(code: Piece, text: string)
    requires code in {KEYWORD, COMMENT, DIM}
    ensures PiecesOk([code, Plain(text), RESET]) && PiecesOk([Plain(text)])
  {
  }

  lemma PiecesOkConcat(a: seq<Piece>, b: seq<Piece>)
    requires PiecesOk(a) && PiecesOk(b)
    ensures PiecesOk(a + b)
  {
    hide PieceOk;
  }

  /** Highlighting changes no character of the line. */
  lemma {:induction false} CodeText(lang: Language, s: string)
    ensures Texts(CodePieces(lang, s)) == s && PiecesOk(CodePieces(lang, s))
    decreases |s|
  {
    hide PieceOk, TokenPieces, TokenLength;
    if s != "" {
      hide Texts, PiecesOk;
      var n := TokenLength(s);
      TokenText(lang, s[..n]);
      CodeText(lang, s[n..]);
      TextsConcat(TokenPieces(lang, s[..n]), CodePieces(lang, s[n..]));
      PiecesOkConcat(TokenPieces(lang, s[..n]), CodePieces(lang, s[n..]));
      assert s == s[..n] + s[n..];
    }
  }

  lemma LineText(lang: Language, line: string)
    ensures Texts(LinePieces(lang, line)) == line && PiecesOk(LinePieces(lang, line))
  {
    hide Texts, PiecesOk, CodePieces;
    CodeText(lang, line);
    ThreePieces(COMMENT, line);
    StyleOk(COMMENT, line);
  }

  /** Stripping a highlighted line gives the line back exactly when it holds no escape. */
  lemma HighlightIsTransparent(lang: Language, line: string)
    ensures Strip(Shown(LinePieces(lang, line))) == line <==> !Escapes(line)
  {
    LineText(lang, line);
    StylingIsTransparent(LinePieces(lang, line));
  }

  /** Inline styling, stripped, gives the plain rendering exactly when that holds no escape. */
  lemma SpansAreTransparent(spans: seq<Span>)
    ensures Strip(Shown(SpansPieces(spans))) == Texts(SpansPieces(spans)) <==> !Escapes(Texts(SpansPieces(spans)))
  {
    SpansPiecesOk(spans);
    StylingIsTransparent(SpansPieces(spans));
  }

  lemma SpanEscapes(s: Span)
    ensures Escapes(Marked(s)) <==> Escapes(Texts(SpanPieces(s)))
  {
    hide Texts;
    match s
    case Bold(t) => ThreePieces(BOLD, t); EscapesAround("**", t, "**");
    case Italic(t) => ThreePieces(ITALIC, t); EscapesAround("*", t, "*");
    case Code(t) => ThreePieces(BOLD, t); EscapesAround("`", t, "`");
    case Link(t, url) =>
      OnePiece(t + " (" + url + ")");
      EscapesAround("[", t, "](");
      EscapesAround("[" + t + "](", url, ")");
      EscapesAround("", t, " (");
      EscapesAround(t + " (", url, ")");
      assert "" + t + " (" == t + " (";
    case Text(t) => OnePiece(t);
  }

  lemma EscapesAround(open: string, t: string, close: string)
    requires !Escapes(close)
    ensures Escapes(open + t + close) <==> Escapes(open) || Escapes(t)
  {
    hide Escapes;
    EscapesConcat(open + t, close);
    EscapesConcat(open, t);
  }

  lemma {:induction false} SpansEscape(spans: seq<Span>)
    ensures Escapes(AllMarked(spans)) <==> Escapes(Texts(SpansPieces(spans)))
  {
    hide Escapes, Marked, SpanPieces, Texts;
    if spans == [] {
      NothingEscapes();
    } else {
      SpanEscapes(spans[0]);
      SpansEscape(spans[1..]);
      TextsConcat(SpanPieces(spans[0]), SpansPieces(spans[1..]));
      EscapesConcat(Marked(spans[0]), AllMarked(spans[1..]));
      EscapesConcat(Texts(SpanPieces(spans[0])), Texts(SpansPieces(spans[1..])));
    }
  }

  lemma NothingEscapes()
    ensures !Escapes("") && Texts([]) == ""
  {
  }

  /** From the text on: styled and then stripped, it is the plain rendering exactly when it held no escape. */
  lemma InlineIsTransparent(chars: string, spans: seq<Span>)
    requires Tokenises(chars, 0, spans)
    ensures Strip(Rendered(SpansPieces(spans), true)) == Rendered(SpansPieces(spans), false) <==> !Escapes(chars)
  {
    hide Escapes, Strip, Shown, Texts, AllMarked;
    TokenisationIsLossless(chars, 0, spans);
    assert chars[0..] == chars;
    SpansEscape(spans);
    SpansAreTransparent(spans);
  }

  /** An escape in the text swallows what follows it up to a letter. */
  lemma EscapeInTextIsLost()
    ensures Strip(Shown([Plain([ESC] + "12a")])) == ""
  {
    var s := [ESC] + "12a";
    OnePiece(s);
    assert s[1..] == "12" + (['a'] + "");
    LetterAfter("12", 'a', "");
  }

  method HighlightString(chars: string, start: nat, out: string) returns (i: nat, shown: string)
    requires start < |chars| && IsQuote(chars[start])
    ensures i == start + 1 + LiteralLength(chars[start], chars[start + 1..]) <= |chars|
    ensures shown == out + chars[start..i]
  {
    hide LiteralLength;
    var q := chars[start];
    shown := out + [q];
    i := start + 1;
    while i < |chars| && chars[i] != q
      invariant start < i <= |chars|
      invariant i + LiteralLength(q, chars[i..]) == start + 1 + LiteralLength(q, chars[start + 1..])
      invariant shown == out + chars[start..i]
    {
      NextInLiteral(q, chars, i);
      if chars[i] == '\\' {
        shown := Pushed(out, chars, start, i, shown);
        i := i + 1;
        if i < |chars| {
          shown := Pushed(out, chars, start, i, shown);
          i := i + 1;
        }
      } else {
        shown := Pushed(out, chars, start, i, shown);
        i := i + 1;
      }
    }
    LiteralEnds(q, chars, i);
    if i < |chars| {
      shown := Pushed(out, chars, start, i, shown);
      i := i + 1;
    }
  }

  /** `shown` with one more character of `chars` pushed. */
  function Pushed(out: string, chars: string, start: nat, i: nat, shown: string): (r: string)
    requires start <= i < |chars| && shown == out + chars[start..i]
    ensures r == out + chars[start..i + 1]
  {
    assert chars[start..i + 1] == chars[start..i] + [chars[i]];
    shown + [chars[i]]
  }

  lemma NextInLiteral(q: char, chars: string, i: nat)
    requires i < |chars| && chars[i] != q
    ensures LiteralLength(q, chars[i..]) == if chars[i] != '\\' then 1 + LiteralLength(q, chars[i + 1..])
                                            else if i + 1 < |chars| then 2 + LiteralLength(q, chars[i + 2..])
                                            else 1 + LiteralLength(q, chars[i + 1..])
  {
    var rest := chars[i..];
    assert rest[1..] == chars[i + 1..];
    if i + 1 < |chars| { assert rest[2..] == chars[i + 2..]; }
  }

  lemma LiteralEnds(q: char, chars: string, i: nat)
    requires i <= |chars| && (i < |chars| ==> chars[i] == q)
    ensures LiteralLength(q, chars[i..]) == if i < |chars| then 1 else 0
  {
  }

  method HighlightWord(lang: Language, chars: string, start: nat, out: string) returns (i: nat, shown: string)
    requires start < |chars|
    ensures i == start + WordLength(chars[start..]) <= |chars|
    ensures shown == out + Shown(WordPieces(lang, chars[start..i]))
  {
    hide Shown, Show, WordLength;
    i := EndOfWord(chars, start);
    var word := chars[start..i];
    OnePiece(word);
    ThreePieces(KEYWORD, word);
    if lang.isKeyword(word) {
      shown := out + Show(KEYWORD) + word + Show(RESET);
      Associative(out, Show(KEYWORD), word);
      Associative(out, Show(KEYWORD) + word, Show(RESET));
    } else {
      shown := out + word;
    }
  }

  /** One turn of the loop over a line: the first token from `start` on. */
  method HighlightToken(lang: Language, line: string, start: nat, out: string) returns (i: nat, shown: string)
    requires start < |line|
    ensures start < i <= |line|
    ensures shown + Shown(CodePieces(lang, line[i..])) == out + Shown(CodePieces(lang, line[start..]))
  {
    hide Shown, CodePieces, WordPieces, WordLength;
    if IsQuote(line[start]) {
      i, shown := HighlightString(line, start, out);
    } else if IsWordStart(line[start]) {
      i, shown := HighlightWord(lang, line, start, out);
    } else {
      shown := out + [line[start]];
      i := start + 1;
    }
    TokenAhead(line, start);
    OneToken(lang, line, start, i);
    Associative(out, Shown(TokenPieces(lang, line[start..i])), Shown(CodePieces(lang, line[i..])));
  }

  lemma TokenAhead(line: string, start: nat)
    requires start < |line|
    ensures var s := line[start..];
      TokenLength(s) == if IsQuote(line[start]) then 1 + LiteralLength(line[start], line[start + 1..])
                        else if IsWordStart(line[start]) then WordLength(s) else 1
    ensures line[start..start + 1] == [line[start]]
  {
    hide LiteralLength, WordLength;
    var s := line[start..];
    assert s[0] == line[start] && s[1..] == line[start + 1..];
  }

  method HighlightLine(lang: Language, line: string) returns (out: string)
    ensures out == Shown(LinePieces(lang, line))
  {
    hide Shown, CodePieces, Show;
    if lang.isComment(Segments.TrimStart(line)) {
      ThreePieces(COMMENT, line);
      return Show(COMMENT) + line + Show(RESET);
    }
    out := "";
    var i := 0;
    assert line[0..] == line;
    while i < |line|
      invariant 0 <= i <= |line|
      invariant out + Shown(CodePieces(lang, line[i..])) == Shown(CodePieces(lang, line))
    {
      i, out := HighlightToken(lang, line, i, out);
    }
    NothingShown(lang, line);
  }

  lemma NothingShown(lang: Language, line: string)
    ensures Shown(CodePieces(lang, line[|line|..])) == ""
  {
  }

  /** One token of the line shown, the rest to come. */
  lemma OneToken(lang: Language, line: string, start: nat, i: nat)
    requires start < |line| && i == start + TokenLength(line[start..])
    ensures start < i <= |line|
    ensures Shown(CodePieces(lang, line[start..])) == Shown(TokenPieces(lang, line[start..i])) + Shown(CodePieces(lang, line[i..]))
    ensures TokenPieces(lang, line[start..i])
         == if !IsQuote(line[start]) && IsWordStart(line[start]) then WordPieces(lang, line[start..i]) else [Plain(line[start..i])]
    ensures Shown([Plain(line[start..i])]) == line[start..i]
  {
    hide Shown, TokenLength, WordPieces;
    var s, n := line[start..], i - start;
    assert s[..n] == line[start..i] && s[n..] == line[i..];
    ShownConcat(TokenPieces(lang, s[..n]), CodePieces(lang, s[n..]));
    OnePiece(line[start..i]);
  }
}
