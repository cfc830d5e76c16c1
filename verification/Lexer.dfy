/** The lexer as it runs: a cursor with its line and column moves over the source, and the pieces
    it passes are recorded. */
module Lexer {
  import opened Wrappers
  import opened Scanner

  class Cursor {
    const src: string
    var pos: nat
    var line: nat
    var col: nat
    var failed: bool
    /** What the cursor has passed so far. */
    ghost var parts: seq<Part>

    ghost predicate Placed()
      reads this
    {
      pos <= |src| && line == Line(src, pos) && col == Col(src, pos)
    }

    ghost predicate Valid()
      reads this
    {
      Placed() && if failed then !Lexes(src) else Tiles(src, 0, parts, pos)
    }

    constructor (text: string)
      ensures Valid() && src == text && pos == 0 && !failed && parts == []
    {
      src, pos, line, col, failed := text, 0, 1, 1, false;
      parts := [];
    }

    function Peek(n: nat): char
      reads this
    {
      CharAt(src, pos + n)
    }

    /** Only the cursor has moved, and forward. */
    twostate predicate Moved()
      reads this
    {
      Placed() && old(pos) <= pos && failed == old(failed) && parts == old(parts)
    }

    /** ST_lx_advance_char. */
    method Advance() returns (c: char)
      requires Placed()
      modifies this
      ensures Moved() && c == CharAt(src, old(pos)) && pos == if old(pos) < |src| then old(pos) + 1 else old(pos)
    {
      if pos >= |src| {
        return '\0';
      }
      c := src[pos];
      pos := pos + 1;
      if c == '\n' {
        line := line + 1;
        col := 1;
      } else {
        col := col + 1;
      }
    }

    /** The loops that advance over bytes of one kind. */
    method SkipRun(f: char -> bool)
      requires Placed()
      modifies this
      ensures Moved() && pos == RunEnd(src, old(pos), f)
    {
      while pos < |src| && f(src[pos])
        invariant Moved() && RunEnd(src, pos, f) == RunEnd(src, old(pos), f)
        decreases |src| - pos
      {
        var _ := Advance();
      }
    }

    method Skip(n: nat)
      requires Placed() && pos + n <= |src|
      modifies this
      ensures Moved() && pos == old(pos) + n
    {
      for i := 0 to n
        invariant Moved() && pos == old(pos) + i
      {
        var _ := Advance();
      }
    }

    method Error()
      modifies `failed
      ensures failed
    {
      failed := true;
    }

    /** ST_lx_skip_block_comment, with the cursor on the opening mark. */
    method SkipBlockComment()
      requires Placed() && Opens(src, pos)
      modifies this
      ensures Placed() && pos > old(pos) && parts == old(parts) && (failed <==> old(failed) || BlockEnd(src, old(pos) + 2, 1).None?)
      ensures BlockEnd(src, old(pos) + 2, 1).Some? ==> pos == BlockEnd(src, old(pos) + 2, 1).value
    {
      Skip(2);
      var depth := 1;
      while pos < |src| && depth > 0
        invariant Moved() && pos >= old(pos) + 2
        invariant BlockEnd(src, pos, depth) == BlockEnd(src, old(pos) + 2, 1)
        decreases |src| - pos
      {
        var c, c2 := Peek(0), Peek(1);
        if c == '/' && c2 == '*' {
          depth := depth + 1;
          Skip(2);
        } else if c == '*' && c2 == '/' {
          depth := depth - 1;
          Skip(2);
        } else {
          var _ := Advance();
        }
      }
      if depth > 0 {
        Error();
      }
    }

    /** ST_lx_escape: the cursor is behind the backslash. */
    method Escape() returns (r: Option<char>)
      requires Placed()
      modifies this
      ensures Placed() && old(pos) <= pos && parts == old(parts) && (failed <==> old(failed) || r.None?)
      ensures r.Some? <==> EscapeAt(src, old(pos)).Some?
      ensures r.Some? ==> EscapeAt(src, old(pos)) == Some((r.value, pos))
    {
      var e := Advance();
      match e
      case 'n' => r := Some('\n');
      case 't' => r := Some('\t');
      case 'r' => r := Some('\r');
      case '0' => r := Some('\0');
      case 'e' => r := Some(27 as char);
      case '\\' => r := Some('\\');
      case '\'' => r := Some('\'');
      case '"' => r := Some('"');
      case 'x' =>
        var h1, h2 := Peek(0), Peek(1);
        if !IsHex(h1) || !IsHex(h2) {
          Error();
          return None;
        }
        Skip(2);
        r := Some((16 * HexValue(h1) + HexValue(h2)) as char);
      case _ =>
        Error();
        r := None;
    }

    /** ST_lx_string: the value, if the literal is right. */
    method String() returns (r: Option<string>)
      requires Placed() && Peek(0) == '"' && pos < |src|
      modifies this
      ensures Placed() && old(pos) < pos && parts == old(parts) && (failed <==> old(failed) || r.None?)
      ensures r.Some? ==> StringBody(src, old(pos) + 1) == Some((r.value, pos))
      ensures r.None? ==> StringBody(src, old(pos) + 1).None?
    {
      var _ := Advance();
      var sb := "";
      ghost var start := pos;
      NothingRead(StringBody(src, pos));
      while true
        invariant Moved() && pos > old(pos)
        invariant Extended(sb, StringBody(src, pos)) == StringBody(src, start)
        decreases |src| - pos
      {
        if pos >= |src| || Peek(0) == '\n' {
          Error();
          return None;
        }
        ghost var here := pos;
        var c := Advance();
        if c == '"' {
          assert sb + "" == sb;
          return Some(sb);
        }
        if c == '\\' {
          var e := Escape();
          if e.None? {
            SkipRun(NotNewline);
            return None;
          }
          ExtendedMore(sb, e.value, StringBody(src, pos));
          sb := sb + [e.value];
        } else {
          ExtendedMore(sb, c, StringBody(src, pos));
          sb := sb + [c];
        }
      }
    }

    /** ST_lx_char. */
    method Char() returns (r: Option<char>)
      requires Placed() && Peek(0) == '\'' && pos < |src|
      modifies this
      ensures Placed() && old(pos) < pos && parts == old(parts) && (failed <==> old(failed) || r.None?)
      ensures r.Some? ==> CharBody(src, old(pos) + 1) == Some((r.value, pos))
      ensures r.None? ==> CharBody(src, old(pos) + 1).None?
    {
      hide Line, Col, EscapeAt;
      var _ := Advance();
      if pos >= |src| || Peek(0) == '\n' {
        Error();
        return None;
      }
      var c := Advance();
      if c == '\'' {
        Error();
        return None;
      }
      if c == '\\' {
        var e := Escape();
        if e.None? {
          SkipRun(NotNewline);
          return None;
        }
        c := e.value;
      }
      if Peek(0) != '\'' || pos >= |src| {
        Error();
        SkipRun(NotNewline);
        return None;
      }
      var _ := Advance();
      r := Some(c);
    }

    /** The digits of one run; underscores are dropped, and so is what the buffer does not hold. */
    method Digits(f: char -> bool, n0: nat) returns (n: nat)
      requires Placed()
      modifies this
      ensures Moved() && pos == RunEnd(src, old(pos), f) && n == Kept(src, old(pos), pos, n0)
    {
      n := n0;
      ghost var r := RunEnd(src, pos, f);
      while pos < |src| && f(src[pos])
        invariant Moved() && pos <= r == RunEnd(src, pos, f) && Kept(src, pos, r, n) == Kept(src, old(pos), r, n0)
        decreases |src| - pos
      {
        var d := Advance();
        if d != '_' && n < 127 {
          n := n + 1;
        }
      }
    }

    /** ST_lx_number. */
    method Number() returns (ok: bool)
      requires Placed() && pos < |src| && IsDigit(src[pos])
      modifies this
      ensures Placed() && old(pos) < pos && parts == old(parts) && (failed <==> old(failed) || !ok)
      ensures ok ==> NumberEnd(src, old(pos)) == Some(pos) && !IsAlpha(Peek(0))
      ensures !ok ==> NumberEnd(src, old(pos)).None? || IsAlpha(CharAt(src, NumberEnd(src, old(pos)).value))
    {
      hide Line, Col, DecimalEnd, RunEnd, RadixEnd, Kept;
      var c, c2 := Peek(0), Peek(1);
      if c == '0' && (c2 == 'x' || c2 == 'X') {
        Skip(2);
        ok := Radix(HexMark);
      } else if c == '0' && (c2 == 'b' || c2 == 'B') {
        Skip(2);
        ok := Radix(BinaryMark);
      } else if c == '0' && (IsDigit(c2) || c2 == 'o' || c2 == 'O') {
        var _ := Advance();
        if c2 == 'o' || c2 == 'O' {
          var _ := Advance();
        } else if !IsOctal(c2) {
          NoDigit(src, pos, OctalMark);
          Error();
        }
        ok := Radix(OctalMark);
      } else {
        Decimal();
        ok := true;
      }
      if ok && IsAlpha(Peek(0)) {
        Error();
        SkipRun(IsIdent);
        ok := false;
      }
    }

    /** The digits of a number with a prefix; there must be one. */
    method Radix(f: char -> bool) returns (ok: bool)
      requires Placed()
      modifies this
      ensures Placed() && old(pos) <= pos && parts == old(parts) && (failed <==> old(failed) || !ok)
      ensures ok <==> RadixEnd(src, old(pos), f).Some?
      ensures ok ==> RadixEnd(src, old(pos), f) == Some(pos)
    {
      var n := Digits(f, 0);
      ok := n > 0;
      if !ok {
        Error();
      }
    }

    /** Digits, fraction and exponent. */
    method Decimal()
      requires Placed() && pos < |src| && IsDigit(src[pos])
      modifies this
      ensures Moved() && pos == DecimalEnd(src, old(pos))
    {
      hide Line, Col, ExponentEnd;
      var n := Digits(DigitMark, 0);
      if Peek(0) == '.' && IsDigit(Peek(1)) {
        if n < 127 {
          var _ := Advance();
          n := n + 1;
        }
        n := Digits(DigitMark, n);
      }
      Exponent(n);
    }

    method Exponent(n0: nat)
      requires Placed()
      modifies this
      ensures Moved() && pos == ExponentEnd(src, old(pos), n0)
    {
      hide Line, Col, RunEnd;
      var n, e := n0, Peek(0);
      if e == 'e' || e == 'E' {
        var sign := Peek(1);
        var savePos, saveLine, saveCol := pos, line, col;
        if n < 127 {
          var _ := Advance();
          n := n + 1;
        }
        if sign == '+' || sign == '-' {
          if n < 127 {
            var _ := Advance();
            n := n + 1;
          }
        }
        if !IsDigit(Peek(0)) {
          pos, line, col := savePos, saveLine, saveCol;
        } else {
          SkipRun(IsDigit);
        }
      }
    }

    /** The loop over the table of longer symbols. */
    method MatchMulti() returns (k: nat)
      requires pos <= |src|
      ensures k == FirstMulti(src, pos, 0)
    {
      hide Multi;
      k := 0;
      while k < |Multi()|
        invariant k <= |Multi()| && FirstMulti(src, pos, k) == FirstMulti(src, pos, 0)
      {
        if pos + |Multi()[k]| <= |src| && src[pos..pos + |Multi()[k]|] == Multi()[k] {
          return k;
        }
        k := k + 1;
      }
    }

    /** ST_lx_symbol. */
    method SymbolToken() returns (ok: bool)
      requires Placed() && pos < |src|
      modifies this
      ensures Placed() && old(pos) < pos && parts == old(parts) && (failed <==> old(failed) || !ok)
      ensures if ok then SymbolEnd(src, old(pos)) == Some(pos) else SymbolEnd(src, old(pos)).None?
    {
      hide Multi, Single, Line, Col, SymbolEnd, FirstMulti, IsIdent;
      SymbolCases(src, pos);
      if Peek(0) == '#' && IsAlpha(Peek(1)) {
        var _ := Advance();
        SkipRun(IsIdent);
        return true;
      }
      var k := MatchMulti();
      if k < |Multi()| {
        MultiLength(k);
        Skip(|Multi()[k]|);
        return true;
      }
      ok := src[pos] in Single();
      if !ok {
        Error();
      }
      var _ := Advance();
    }

    /** ST_lx_ident. */
    method Ident()
      requires Placed() && pos < |src| && IsAlpha(src[pos])
      modifies this
      ensures Moved() && old(pos) < pos && pos == RunEnd(src, old(pos), IsIdent)
    {
      SkipRun(IsIdent);
    }

    /** ST_lx_doc_comment. */
    method DocComment() returns (body: string)
      requires Placed() && StartsAt(src, pos, "///")
      modifies this
      ensures Moved() && old(pos) < pos && pos == RunEnd(src, old(pos), NotNewline)
      ensures IsDocBody(src[old(pos)..pos], body)
    {
      hide Line, Col, IsDocBody, RunEnd;
      ghost var start := pos;
      DocStart(src, pos);
      Skip(3);
      if Peek(0) == ' ' {
        var _ := Advance();
      }
      var from := pos;
      SkipRun(NotNewline);
      body := src[from..pos];
      DocBody(src, start, from, pos);
    }

    /** A part has been passed, from `p` to the cursor. */
    ghost method Pass(p: nat, x: Part)
      requires Placed() && PartAt(src, p, x) && pos == p + |PartText(x)|
      requires if failed then !Lexes(src) else Tiles(src, 0, parts, p)
      modifies `parts
      ensures Valid() && Tokens(parts) == old(Tokens(parts)) + (if x.Tok? then [x.t] else [])
    {
      hide Line, Col, PartAt, PartText, Lexes, Tiles, Tokens;
      if !failed {
        TilesMore(src, 0, parts, p, x);
      }
      TokensMore(parts, x);
      parts := parts + [x];
    }

    /** No part begins at `p`; the error has been reported. */
    ghost method Halt(p: nat, before: bool)
      requires Placed() && p < |src| && Faulty(src, p) && failed
      requires if before then !Lexes(src) else Tiles(src, 0, parts, p)
      ensures Valid()
    {
      hide Line, Col, PartAt, PartText, Lexes, Tiles, Faulty;
      FaultyHasNoPart(src, p);
      if !before {
        NoTiling(src, parts, p);
      }
    }

    /** A comment that is not a token. */
    method Note()
      requires Valid() && (Opens(src, pos) || (StartsAt(src, pos, "//") && !StartsAt(src, pos, "///")))
      modifies this
      ensures Valid() && old(pos) < pos && (old(failed) ==> failed)
      ensures !failed ==> Tokens(parts) == old(Tokens(parts))
    {
      hide Line, Col, PartAt, Lexes, Tiles, Tokens, BlockEnd, RunEnd;
      ghost var start, before := pos, failed;
      Slashes(src, pos);
      if Peek(1) == '*' {
        SkipBlockComment();
        if BlockEnd(src, start + 2, 1).Some? {
          NoteIs(src, start, pos);
          Pass(start, BlockNote(src[start..pos]));
        } else {
          Halt(start, before);
        }
      } else {
        SlashesSkipped(src, pos);
        SkipRun(NotNewline);
        NoteIs(src, start, pos);
        Pass(start, LineNote(src[start..pos]));
      }
    }

    /** The kind of the token at the cursor, if there is one. */
    method Lexeme() returns (kind: Option<Kind>)
      requires Placed() && pos < |src| && !IsBlank(src[pos]) && !Opens(src, pos)
      requires StartsAt(src, pos, "//") ==> StartsAt(src, pos, "///")
      modifies this
      ensures Placed() && old(pos) < pos && parts == old(parts) && (failed <==> old(failed) || kind.None?)
      ensures if kind.Some? then KindAt(src, old(pos), pos, kind.value) else Faulty(src, old(pos))
    {
      hide Line, Col, NumberEnd, StringBody, CharBody, SymbolEnd, RunEnd, IsDocBody, StartsAt;
      Slashes(src, pos);
      var c := Peek(0);
      if StartsAt(src, pos, "///") {
        var body := DocComment();
        kind := Some(Doc(body));
      } else if IsDigit(c) {
        var ok := Number();
        kind := if ok then Some(Kind.Number) else None;
      } else if IsAlpha(c) {
        Ident();
        kind := Some(Word);
      } else if c == '"' {
        var v := String();
        kind := if v.Some? then Some(Str(v.value)) else None;
      } else if c == '\'' {
        var v := Char();
        kind := if v.Some? then Some(Chr(v.value)) else None;
      } else {
        var ok := SymbolToken();
        kind := if ok then Some(Symbol) else None;
      }
    }

    /** ST_lx_next: one round of its loop, behind the blanks. */
    method Piece() returns (r: Option<Token>)
      requires Valid() && pos < |src| && !IsBlank(src[pos])
      modifies this
      ensures Valid() && old(pos) < pos && (old(failed) ==> failed)
      ensures r.Some? ==> old(pos) + |r.value.text| == pos && PartAt(src, old(pos), Tok(r.value))
      ensures !failed ==> Tokens(parts) == old(Tokens(parts)) + (if r.Some? then [r.value] else [])
    {
      hide Line, Col, PartAt, Lexes, Tiles, Tokens, KindAt, Faulty, StartsAt;
      ghost var before := failed;
      var start, l, c0 := pos, line, col;
      r := None;
      if Peek(0) == '/' && Peek(1) == '/' {
        SlashesStart(src, pos);
      }
      Slashes(src, pos);
      if Peek(0) == '/' && (Peek(1) == '*' || (Peek(1) == '/' && !(pos + 2 < |src| && src[pos + 2] == '/'))) {
        Note();
        return;
      }
      var kind := Lexeme();
      if kind.None? {
        Halt(start, before);
        return;
      }
      var t := Token(kind.value, src[start..pos], l, c0);
      TokenIs(src, start, pos, kind.value);
      Pass(start, Tok(t));
      r := Some(t);
    }

    /** Blanks are passed one by one. */
    method Blanks()
      requires Valid()
      modifies this
      ensures Valid() && old(pos) <= pos && failed == old(failed) && Tokens(parts) == old(Tokens(parts))
      ensures pos < |src| ==> !IsBlank(src[pos])
    {
      hide Line, Col, PartAt, Lexes, Tiles, Tokens;
      while IsBlank(Peek(0)) && pos < |src|
        invariant Valid() && old(pos) <= pos && failed == old(failed) && Tokens(parts) == old(Tokens(parts))
        decreases |src| - pos
      {
        ghost var start := pos;
        var c := Advance();
        BlankIs(src, start);
        Pass(start, Blank(c));
      }
    }

    /** ST_lx_next: the next token, and none at the end of the source only. */
    method Next() returns (r: Option<Token>)
      requires Valid()
      modifies this
      ensures Valid() && old(pos) <= pos && (old(failed) ==> failed) && (r.None? ==> pos == |src|)
      ensures r.Some? ==> exists p :: old(pos) <= p < pos == p + |r.value.text| && PartAt(src, p, Tok(r.value))
      ensures !failed ==> Tokens(parts) == old(Tokens(parts)) + (if r.Some? then [r.value] else [])
    {
      hide Line, Col, PartAt, Lexes, Tiles, Tokens;
      while true
        invariant Valid() && old(pos) <= pos && (old(failed) ==> failed)
        invariant !failed ==> Tokens(parts) == old(Tokens(parts))
        decreases |src| - pos
      {
        Blanks();
        if pos >= |src| {
          return None;
        }
        ghost var p := pos;
        r := Piece();
        if r.Some? {
          assert PartAt(src, p, Tok(r.value));
          return;
        }
      }
    }
  }

  /** ST_lex: it is right exactly when the source can be cut into tokens, blanks and comments, and
      then the tokens are those of the only way to do it. */
  method Lex(src: string) returns (tokens: seq<Token>, ok: bool, ghost parts: seq<Part>)
    ensures ok <==> Lexes(src)
    ensures ok ==> Tiles(src, 0, parts, |src|) && Texts(parts) == src && tokens == Tokens(parts)
  {
    hide Line, Col, PartAt, Tiles, Texts;
    var l := new Cursor(src);
    tokens := [];
    while true
      invariant fresh(l) && l.src == src && l.Valid() && (!l.failed ==> tokens == Tokens(l.parts))
      decreases |src| - l.pos
    {
      var t := l.Next();
      if t.None? {
        break;
      }
      tokens := tokens + [t.value];
    }
    parts := l.parts;
    ok := !l.failed;
    if ok {
      TilesAreSource(src, 0, parts);
    }
  }

  /** Lexing undoes ST_print_escaped: one string token, with the value that was printed. */
  method LexPrinted(s: string) returns (tokens: seq<Token>, ok: bool)
    ensures ok && tokens == [Token(Str(s), Quoted(s), 1, 1)]
  {
    QuotedIsOneToken(s);
    ghost var parts;
    tokens, ok, parts := Lex(Quoted(s));
    assert Tiles(Quoted(s), 0, parts, |Quoted(s)|);
  }

  /** A value read so far, and the rest of the literal. */
  function Extended(sb: string, r: Option<(string, nat)>): Option<(string, nat)> {
    match r
    case None => None
    case Some(v) => Some((sb + v.0, v.1))
  }

  lemma NothingRead(r: Option<(string, nat)>)
    ensures Extended("", r) == r
  {
    if r.Some? {
      assert "" + r.value.0 == r.value.0;
    }
  }

  lemma ExtendedMore(sb: string, c: char, r: Option<(string, nat)>)
    ensures Extended(sb + [c], r) == Extended(sb, match r case None => None case Some(v) => Some(([c] + v.0, v.1)))
  {
    if r.Some? {
      assert sb + ([c] + r.value.0) == (sb + [c]) + r.value.0;
    }
  }

  lemma DocStart(src: string, p: nat)
    requires StartsAt(src, p, "///")
    ensures p + 3 <= |src| && RunEnd(src, p, NotNewline) == RunEnd(src, p + 3, NotNewline)
    ensures CharAt(src, p + 3) == ' ' ==> RunEnd(src, p + 3, NotNewline) == RunEnd(src, p + 4, NotNewline)
  {
    var s := src[p..p + 3];
    assert src[p] == s[0] && src[p + 1] == s[1] && src[p + 2] == s[2];
  }

  lemma DocBody(src: string, p: nat, from: nat, q: nat)
    requires p + 3 <= from <= q <= |src| && from == if CharAt(src, p + 3) == ' ' then p + 4 else p + 3
    ensures IsDocBody(src[p..q], src[from..q])
  {
  }

  lemma BlankIs(src: string, p: nat)
    requires p < |src| && IsBlank(src[p])
    ensures PartAt(src, p, Blank(src[p]))
  {
    assert src[p..p + 1] == [src[p]];
  }

  lemma SlashesSkipped(src: string, p: nat)
    requires StartsAt(src, p, "//")
    ensures RunEnd(src, p, NotNewline) > p
  {
    assert src[p] == src[p..p + 2][0];
  }

  /** Three slashes, or two. */
  lemma SlashesStart(src: string, p: nat)
    requires CharAt(src, p) == '/' && CharAt(src, p + 1) == '/'
    ensures StartsAt(src, p, "//") && (StartsAt(src, p, "///") <==> p + 2 < |src| && src[p + 2] == '/')
  {
    if StartsAt(src, p, "///") {
      assert src[p + 2] == src[p..p + 3][2];
    }
  }
}
