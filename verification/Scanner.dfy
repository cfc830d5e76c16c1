/** The lexical grammar: characters, escapes, comments, numbers, symbols, and what it means for
    tokens to tile a source text. Text is a sequence of bytes. */
module Scanner {
  import opened Wrappers

  predicate IsDigit(c: char) { '0' <= c <= '9' }
  predicate IsHex(c: char) { IsDigit(c) || 'a' <= c <= 'f' || 'A' <= c <= 'F' }
  predicate IsOctal(c: char) { '0' <= c <= '7' }
  predicate IsAlpha(c: char) { 'a' <= c <= 'z' || 'A' <= c <= 'Z' || c == '_' }
  predicate IsIdent(c: char) { IsAlpha(c) || IsDigit(c) }
  predicate IsBlank(c: char) { c == '\r' || c == '\n' || c == '\t' || c == ' ' }
  predicate NotNewline(c: char) { c != '\n' }
  predicate DigitMark(c: char) { IsDigit(c) || c == '_' }
  predicate HexMark(c: char) { IsHex(c) || c == '_' }
  predicate OctalMark(c: char) { IsOctal(c) || c == '_' }
  predicate BinaryMark(c: char) { c == '0' || c == '1' || c == '_' }

  /** ST_lx_peek_char: the byte at `i`, or 0 past the end. */
  function CharAt(src: string, i: nat): char {
    if i < |src| then src[i] else '\0'
  }

  function Line(src: string, p: nat): nat
    requires p <= |src|
  {
    if p == 0 then 1 else Line(src, p - 1) + (if src[p - 1] == '\n' then 1 else 0)
  }

  function Col(src: string, p: nat): nat
    requires p <= |src|
  {
    if p == 0 || src[p - 1] == '\n' then 1 else Col(src, p - 1) + 1
  }

  /** The end of the longest run of such bytes from `i` on. */
  function RunEnd(src: string, i: nat, f: char -> bool): (r: nat)
    requires i <= |src|
    ensures i <= r <= |src| && (forall k :: i <= k < r ==> f(src[k])) && (r < |src| ==> !f(src[r]))
    decreases |src| - i
  {
    if i < |src| && f(src[i]) then RunEnd(src, i + 1, f) else i
  }

  // ----- escapes -----

  function HexValue(c: char): nat {
    if IsDigit(c) then (c - '0') as nat
    else if 'a' <= c <= 'f' then (c - 'a') as nat + 10
    else if 'A' <= c <= 'F' then (c - 'A') as nat + 10
    else 0
  }

  /** What an escape stands for, and where it ends; `i` is behind the backslash. */
  function EscapeAt(src: string, i: nat): (r: Option<(char, nat)>)
    ensures r.Some? ==> i < r.value.1 <= |src|
  {
    if i >= |src| then None
    else
      var e := src[i];
      if e == 'n' then Some(('\n', i + 1))
      else if e == 't' then Some(('\t', i + 1))
      else if e == 'r' then Some(('\r', i + 1))
      else if e == '0' then Some(('\0', i + 1))
      else if e == 'e' then Some((27 as char, i + 1))
      else if e == '\\' then Some(('\\', i + 1))
      else if e == '\'' then Some(('\'', i + 1))
      else if e == '"' then Some(('"', i + 1))
      else if e == 'x' && IsHex(CharAt(src, i + 1)) && IsHex(CharAt(src, i + 2)) then
        Some(((16 * HexValue(src[i + 1]) + HexValue(src[i + 2])) as char, i + 3))
      else None
  }

  /** The value of a string literal and the end of the token; `i` is behind the opening quote. */
  function StringBody(src: string, i: nat): (r: Option<(string, nat)>)
    ensures r.Some? ==> i < r.value.1 <= |src|
    decreases |src| - i
  {
    if i >= |src| || src[i] == '\n' then None
    else if src[i] == '"' then Some(("", i + 1))
    else if src[i] == '\\' then
      match EscapeAt(src, i + 1)
      case None => None
      case Some(e) =>
        (match StringBody(src, e.1)
         case None => None
         case Some(rest) => Some(([e.0] + rest.0, rest.1)))
    else
      match StringBody(src, i + 1)
      case None => None
      case Some(rest) => Some(([src[i]] + rest.0, rest.1))
  }

  /** A character literal; `i` is behind the opening quote. */
  function CharBody(src: string, i: nat): (r: Option<(char, nat)>)
    ensures r.Some? ==> i < r.value.1 <= |src|
  {
    if i >= |src| || src[i] == '\n' || src[i] == '\'' then None
    else
      var body := if src[i] == '\\' then EscapeAt(src, i + 1) else Some((src[i], i + 1));
      match body
      case None => None
      case Some(b) => if b.1 < |src| && src[b.1] == '\'' then Some((b.0, b.1 + 1)) else None
  }

  function HexDigit(n: nat): (c: char)
    requires n < 16
    ensures IsHex(c) && HexValue(c) == n
  {
    if n < 10 then '0' + n as char else 'a' + (n - 10) as char
  }

  /** ST_print_escaped, byte by byte. */
  function EscapedByte(c: char): string {
    if c == '\n' then "\\n"
    else if c == '\t' then "\\t"
    else if c == '\r' then "\\r"
    else if c == '\0' then "\\0"
    else if c == '\\' then "\\\\"
    else if c == '"' then "\\\""
    else if c as nat < 0x20 then ['\\', 'x', HexDigit(c as nat / 16), HexDigit(c as nat % 16)]
    else [c]
  }

  function Escaped(s: string): string {
    if s == "" then "" else EscapedByte(s[0]) + Escaped(s[1..])
  }

  /** Printed bytes are read back one by one. */
  lemma ByteBack(c: char, src: string, i: nat)
    requires i + |EscapedByte(c)| <= |src| && src[i..i + |EscapedByte(c)|] == EscapedByte(c)
    ensures
      var j := i + |EscapedByte(c)|;
      StringBody(src, i) == match StringBody(src, j) case None => None case Some(r) => Some(([c] + r.0, r.1))
  {
    var e := EscapedByte(c);
    var s := src[i..i + |e|];
    assert src[i] == s[0];
    if |e| >= 2 {
      assert src[i + 1] == s[1];
    }
    if |e| == 4 {
      assert src[i + 2] == s[2] && src[i + 3] == s[3];
      assert c as nat == 16 * (c as nat / 16) + c as nat % 16;
    }
  }

  lemma TwoParts(src: string, i: nat, a: string, b: string)
    requires i + |a| + |b| <= |src| && src[i..i + |a| + |b|] == a + b
    ensures src[i..i + |a|] == a && src[i + |a|..i + |a| + |b|] == b
  {
    var t := src[i..i + |a| + |b|];
    assert t[..|a|] == a && t[|a|..] == b;
    assert src[i..i + |a|] == t[..|a|];
    assert src[i + |a|..i + |a| + |b|] == t[|a|..];
  }

  lemma {:induction false} EscapesBack(s: string, src: string, i: nat)
    requires i + |Escaped(s)| < |src| && src[i..i + |Escaped(s)|] == Escaped(s) && src[i + |Escaped(s)|] == '"'
    ensures StringBody(src, i) == Some((s, i + |Escaped(s)| + 1))
    decreases |s|
  {
    hide EscapedByte;
    if s != "" {
      var a, b := EscapedByte(s[0]), Escaped(s[1..]);
      var j := i + |a|;
      TwoParts(src, i, a, b);
      ByteBack(s[0], src, i);
      EscapesBack(s[1..], src, j);
      assert [s[0]] + s[1..] == s;
    }
  }

  /** Reading a quote, the printed bytes and a quote gives back every string, and uses it all up. */
  lemma EscapeRoundTrip(s: string)
    ensures
      var text := "\"" + Escaped(s) + "\"";
      StringBody(text, 1) == Some((s, |text|))
  {
    var text := "\"" + Escaped(s) + "\"";
    assert text[1..1 + |Escaped(s)|] == Escaped(s);
    EscapesBack(s, text, 1);
  }

  // ----- comments -----

  predicate Opens(src: string, i: nat) {
    CharAt(src, i) == '/' && CharAt(src, i + 1) == '*'
  }

  predicate Closes(src: string, i: nat) {
    CharAt(src, i) == '*' && CharAt(src, i + 1) == '/'
  }

  /** ST_lx_skip_block_comment: where `depth` open comments end. */
  function BlockEnd(src: string, i: nat, depth: nat): (r: Option<nat>)
    ensures r.Some? ==> i <= r.value && (i <= |src| ==> r.value <= |src|)
    decreases |src| - i
  {
    if depth == 0 then Some(i)
    else if i >= |src| then None
    else if Opens(src, i) then BlockEnd(src, i + 2, depth + 1)
    else if Closes(src, i) then BlockEnd(src, i + 2, depth - 1)
    else BlockEnd(src, i + 1, depth)
  }

  /** The grammar of nested comments: between the marks there are other comments, and bytes that
      do not start a mark. */
  datatype Body = End | Byte(c: char, more: Body) | Inner(inner: Body, more: Body)

  function BodyText(b: Body): string {
    match b
    case End => ""
    case Byte(c, more) => [c] + BodyText(more)
    case Inner(inner, more) => "/*" + BodyText(inner) + "*/" + BodyText(more)
  }

  /** The first byte of a body and its closing mark. */
  function First(b: Body): char {
    match b
    case End => '*'
    case Byte(c, _) => c
    case Inner(_, _) => '/'
  }

  /** No byte of the body starts a mark. */
  predicate Plain(b: Body) {
    match b
    case End => true
    case Byte(c, more) => !(c == '/' && First(more) == '*') && !(c == '*' && First(more) == '/') && Plain(more)
    case Inner(inner, more) => Plain(inner) && Plain(more)
  }

  lemma FirstIs(b: Body)
    ensures (BodyText(b) + "*/")[0] == First(b)
  {
  }

  /** The texts of `depth` bodies, the innermost first, each with its closing mark. */
  function Bodies(bs: seq<Body>): string {
    if bs == [] then "" else BodyText(bs[0]) + "*/" + Bodies(bs[1..])
  }

  /** Scanning to the end of all open comments reads their bodies. */
  lemma {:induction false} ScanReads(src: string, i: nat, depth: nat) returns (bs: seq<Body>)
    requires i <= |src| && BlockEnd(src, i, depth).Some?
    ensures |bs| == depth && src[i..BlockEnd(src, i, depth).value] == Bodies(bs)
    ensures forall k :: 0 <= k < depth ==> Plain(bs[k])
    decreases |src| - i
  {
    if depth == 0 {
      bs := [];
    } else {
      var end := BlockEnd(src, i, depth).value;
      if Opens(src, i) {
        var cs := ScanReads(src, i + 2, depth + 1);
        bs := [Inner(cs[0], cs[1])] + cs[2..];
        assert src[i..end] == "/*" + src[i + 2..end];
        InnerText(cs);
      } else if Closes(src, i) {
        var cs := ScanReads(src, i + 2, depth - 1);
        bs := [End] + cs;
        assert src[i..end] == "*/" + src[i + 2..end];
        assert bs[1..] == cs;
      } else {
        var cs := ScanReads(src, i + 1, depth);
        bs := [Byte(src[i], cs[0])] + cs[1..];
        assert src[i..end] == [src[i]] + src[i + 1..end];
        ByteText(src[i], cs);
        assert src[i + 1] == src[i + 1..end][0];
      }
    }
  }

  lemma ByteText(c: char, cs: seq<Body>)
    requires |cs| >= 1
    ensures [c] + Bodies(cs) == Bodies([Byte(c, cs[0])] + cs[1..])
    ensures Bodies(cs) != "" && Bodies(cs)[0] == First(cs[0])
  {
    var bs := [Byte(c, cs[0])] + cs[1..];
    assert bs[1..] == cs[1..];
    FirstIs(cs[0]);
    var a, d := BodyText(cs[0]), Bodies(cs[1..]);
    assert Bodies(cs) == a + "*/" + d;
    assert Bodies(bs) == ([c] + a) + "*/" + d;
    LeadByte(c, a, "*/", d);
  }

  lemma LeadByte(c: char, a: string, x: string, d: string)
    requires x != ""
    ensures [c] + (a + x + d) == ([c] + a) + x + d
    ensures (a + x + d)[0] == (a + x)[0]
  {
    assert [c] + (a + x) == [c] + a + x;
  }

  lemma InnerText(cs: seq<Body>)
    requires |cs| >= 2
    ensures "/*" + Bodies(cs) == Bodies([Inner(cs[0], cs[1])] + cs[2..])
  {
    var bs := [Inner(cs[0], cs[1])] + cs[2..];
    assert bs[1..] == cs[2..];
    assert cs[1..][0] == cs[1] && cs[1..][1..] == cs[2..];
    var a, b, c := BodyText(cs[0]), BodyText(cs[1]), Bodies(cs[2..]);
    assert Bodies(cs) == a + "*/" + (b + "*/" + c);
    assert Bodies(bs) == ("/*" + a + "*/" + b) + "*/" + c;
    Regroup("/*", a, "*/", b, c);
  }

  lemma Regroup(o: string, a: string, x: string, b: string, c: string)
    ensures o + (a + x + (b + x + c)) == (o + a + x + b) + x + c
  {
    assert b + x + c == b + (x + c);
    assert a + x + (b + (x + c)) == (a + x + b) + (x + c);
    assert o + ((a + x + b) + (x + c)) == (o + (a + x + b)) + (x + c);
    assert o + (a + x + b) == o + a + x + b;
  }

  ghost predicate IsBlockComment(s: string) {
    exists b: Body :: Plain(b) && s == "/*" + BodyText(b) + "*/"
  }

  lemma StartsParts(src: string, i: nat, a: string, b: string)
    requires StartsAt(src, i, a + b)
    ensures StartsAt(src, i, a) && StartsAt(src, i + |a|, b)
  {
    TwoParts(src, i, a, b);
  }

  lemma ByteScanned(src: string, i: nat, c: char, t: string, depth: nat)
    requires StartsAt(src, i, [c] + t) && t != "" && depth > 0
    requires !(c == '/' && t[0] == '*') && !(c == '*' && t[0] == '/')
    ensures BlockEnd(src, i, depth) == BlockEnd(src, i + 1, depth) && StartsAt(src, i + 1, t)
  {
    StartsParts(src, i, [c], t);
    assert src[i] == src[i..i + 1][0] && src[i + 1] == src[i + 1..i + 1 + |t|][0];
  }

  lemma OpeningScanned(src: string, i: nat, t: string, depth: nat)
    requires StartsAt(src, i, "/*" + t) && depth > 0
    ensures BlockEnd(src, i, depth) == BlockEnd(src, i + 2, depth + 1) && StartsAt(src, i + 2, t)
  {
    StartsParts(src, i, "/*", t);
    assert src[i] == src[i..i + 2][0] && src[i + 1] == src[i..i + 2][1];
  }

  lemma BodyParts(b: Body)
    ensures b.Byte? ==> BodyText(b) + "*/" == [b.c] + (BodyText(b.more) + "*/")
    ensures b.Inner? ==> BodyText(b) + "*/" == "/*" + ((BodyText(b.inner) + "*/") + (BodyText(b.more) + "*/"))
    ensures b.End? ==> BodyText(b) == ""
  {
  }

  /** A body and its closing mark are scanned as one. */
  lemma {:induction false} BodyScanned(src: string, i: nat, b: Body, depth: nat)
    requires Plain(b) && StartsAt(src, i, BodyText(b) + "*/")
    ensures BlockEnd(src, i, depth + 1) == BlockEnd(src, i + |BodyText(b)| + 2, depth)
    decreases b
  {
    hide StartsAt, BodyText;
    BodyParts(b);
    match b
    case End =>
      ClosingScanned(src, i, depth);
    case Byte(c, more) =>
      hide BlockEnd;
      var t := BodyText(more) + "*/";
      FirstIs(more);
      ByteScanned(src, i, c, t, depth + 1);
      BodyScanned(src, i + 1, more, depth);
    case Inner(inner, more) =>
      hide BlockEnd;
      var t, u := BodyText(inner) + "*/", BodyText(more) + "*/";
      OpeningScanned(src, i, t + u, depth + 1);
      StartsParts(src, i + 2, t, u);
      BodyScanned(src, i + 2, inner, depth + 1);
      BodyScanned(src, i + 2 + |t|, more, depth);
  }

  lemma ClosingScanned(src: string, i: nat, depth: nat)
    requires StartsAt(src, i, BodyText(End) + "*/")
    ensures BlockEnd(src, i, depth + 1) == BlockEnd(src, i + 2, depth)
  {
    assert src[i] == src[i..i + 2][0] && src[i + 1] == src[i..i + 2][1];
  }

  lemma BlockIsComment(src: string, i: nat)
    requires Opens(src, i) && BlockEnd(src, i + 2, 1).Some?
    ensures i + 4 <= BlockEnd(src, i + 2, 1).value <= |src| && IsBlockComment(src[i..BlockEnd(src, i + 2, 1).value])
  {
    var end := BlockEnd(src, i + 2, 1).value;
    var bs := ScanReads(src, i + 2, 1);
    assert bs[1..] == [];
    assert src[i..end] == "/*" + src[i + 2..end];
    assert Bodies(bs) == BodyText(bs[0]) + "*/" + "";
    assert Plain(bs[0]) && src[i..end] == "/*" + BodyText(bs[0]) + "*/";
  }

  lemma CommentScanned(src: string, i: nat, s: string)
    requires StartsAt(src, i, s) && IsBlockComment(s)
    ensures BlockEnd(src, i + 2, 1) == Some(i + |s|)
  {
    hide BodyText;
    var b: Body :| Plain(b) && s == "/*" + BodyText(b) + "*/";
    var t := BodyText(b) + "*/";
    assert s == "/*" + t;
    StartsParts(src, i, "/*", t);
    BodyScanned(src, i + 2, b, 0);
    assert BlockEnd(src, i + |s|, 0) == Some(i + |s|);
  }

  /** Skipping stops exactly behind the one properly nested comment that begins at `i`. */
  lemma BlockExact(src: string, i: nat, end: nat)
    requires Opens(src, i)
    ensures BlockEnd(src, i + 2, 1) == Some(end) <==> i <= end <= |src| && IsBlockComment(src[i..end])
  {
    hide BlockEnd, IsBlockComment;
    if BlockEnd(src, i + 2, 1) == Some(end) {
      BlockIsComment(src, i);
    }
    if i <= end <= |src| && IsBlockComment(src[i..end]) {
      CommentScanned(src, i, src[i..end]);
    }
  }

  // ----- numbers -----

  /** The digits of a run that are kept: underscores are skipped, and the buffer holds 127. */
  function Kept(src: string, i: nat, r: nat, n: nat): nat
    requires i <= r <= |src|
    decreases r - i
  {
    if i == r then n else Kept(src, i + 1, r, if src[i] != '_' && n < 127 then n + 1 else n)
  }

  /** `0x`, `0b` and octal numbers: the digits follow at `i`; there must be one. */
  function RadixEnd(src: string, i: nat, f: char -> bool): (r: Option<nat>)
    requires i <= |src|
    ensures r.Some? ==> i < r.value <= |src|
  {
    var r := RunEnd(src, i, f);
    if Kept(src, i, r, 0) == 0 then None else NonEmpty(src, i, r)
  }

  lemma NoDigit(src: string, i: nat, f: char -> bool)
    requires i < |src| && !f(src[i])
    ensures RadixEnd(src, i, f).None?
  {
  }

  function NonEmpty(src: string, i: nat, r: nat): (e: Option<nat>)
    ensures e.Some? ==> i < r && e.value == r
  {
    if i < r then Some(r) else None
  }

  /** A decimal number: digits, a fraction, an exponent. The point and the exponent need room in
      the buffer. */
  function DecimalEnd(src: string, i: nat): (r: nat)
    requires i < |src| && IsDigit(src[i])
    ensures i < r <= |src|
  {
    var r1 := RunEnd(src, i, DigitMark);
    var n1 := Kept(src, i, r1, 0);
    var fraction := CharAt(src, r1) == '.' && IsDigit(CharAt(src, r1 + 1)) && n1 < 127;
    var r2 := if fraction then RunEnd(src, r1 + 1, DigitMark) else r1;
    var n2 := if fraction then Kept(src, r1 + 1, r2, n1 + 1) else n1;
    ExponentEnd(src, r2, n2)
  }

  function ExponentEnd(src: string, r: nat, n: nat): (e: nat)
    requires r <= |src|
    ensures r <= e <= |src|
  {
    if (CharAt(src, r) != 'e' && CharAt(src, r) != 'E') || n >= 127 then r
    else
      var sign := CharAt(src, r + 1) == '+' || CharAt(src, r + 1) == '-';
      var q := if sign && n + 1 < 127 then r + 2 else r + 1;
      if IsDigit(CharAt(src, q)) then RunEnd(src, q, IsDigit) else r
  }

  function NumberEnd(src: string, i: nat): (r: Option<nat>)
    requires i < |src| && IsDigit(src[i])
    ensures r.Some? ==> i < r.value <= |src|
  {
    var c2 := CharAt(src, i + 1);
    if src[i] == '0' && (c2 == 'x' || c2 == 'X') then RadixEnd(src, i + 2, HexMark)
    else if src[i] == '0' && (c2 == 'b' || c2 == 'B') then RadixEnd(src, i + 2, BinaryMark)
    else if src[i] == '0' && (c2 == 'o' || c2 == 'O') then RadixEnd(src, i + 2, OctalMark)
    else if src[i] == '0' && IsDigit(c2) then RadixEnd(src, i + 1, OctalMark)
    else Some(DecimalEnd(src, i))
  }

  // ----- symbols -----

  function Multi(): seq<string> {
    [
      "...", "<<=", ">>=", "..=", "->", "=>", "==", "!=", "<=", ">=", "&&", "||", "<<", ">>", "+=", "-=", "*=", "/=",
      "%=", "&=", "|=", "^=", "::", ":=", "..", "++", "--"
    ]
  }

  function Single(): string {
    "+-*/%=<>!&|^~(){}[],;:.#?@$"
  }

  predicate StartsAt(src: string, i: nat, x: string) {
    i + |x| <= |src| && src[i..i + |x|] == x
  }

  /** The first entry of the table that stands at `i`. */
  function FirstMulti(src: string, i: nat, k: nat): (r: nat)
    requires k <= |Multi()|
    ensures k <= r <= |Multi()| && (r < |Multi()| ==> StartsAt(src, i, Multi()[r]))
    ensures forall j :: k <= j < r ==> !StartsAt(src, i, Multi()[j])
    decreases |Multi()| - k
  {
    if k == |Multi()| then k else if StartsAt(src, i, Multi()[k]) then k else FirstMulti(src, i, k + 1)
  }

  predicate IsSymbol(x: string) {
    x in Multi() || (|x| == 1 && x[0] in Single())
  }

  /** `#name`, or an entry of the tables. */
  function SymbolEnd(src: string, i: nat): (r: Option<nat>)
    requires i < |src|
    ensures r.Some? ==> i < r.value <= |src|
  {
    if src[i] == '#' && IsAlpha(CharAt(src, i + 1)) then Some(RunEnd(src, i + 1, IsIdent))
    else
      var k := FirstMulti(src, i, 0);
      if k < |Multi()| then MultiLength(k); Some(i + |Multi()[k]|)
      else if src[i] in Single() then Some(i + 1)
      else None
  }

  lemma MultiLength(k: nat)
    requires k < |Multi()|
    ensures |Multi()[k]| == if k < 4 then 3 else 2
  {
  }

  lemma SymbolCases(src: string, i: nat)
    requires i < |src|
    ensures
      var k := FirstMulti(src, i, 0);
      SymbolEnd(src, i) ==
        if src[i] == '#' && IsAlpha(CharAt(src, i + 1)) then Some(RunEnd(src, i + 1, IsIdent))
        else if k < |Multi()| then Some(i + |Multi()[k]|)
        else if src[i] in Single() then Some(i + 1)
        else None
    ensures
      var k := FirstMulti(src, i, 0);
      k < |Multi()| ==> i + |Multi()[k]| <= |src|
  {
    hide Multi, Single;
  }

  /** A symbol that is not a `#name` is the longest entry of the tables that stands there. */
  lemma SymbolLongest(src: string, i: nat, x: string)
    requires i < |src| && !(src[i] == '#' && IsAlpha(CharAt(src, i + 1))) && IsSymbol(x) && StartsAt(src, i, x)
    ensures SymbolEnd(src, i).Some? && |x| <= SymbolEnd(src, i).value - i
    ensures IsSymbol(src[i..SymbolEnd(src, i).value])
  {
    var k := FirstMulti(src, i, 0);
    if k < |Multi()| {
      MultiLength(k);
      assert Multi()[k] in Multi();
    } else {
      assert src[i..i + 1] == [src[i]];
    }
    if x in Multi() {
      var j :| 0 <= j < |Multi()| && Multi()[j] == x;
      MultiLength(j);
    } else {
      assert src[i..i + 1][0] == x[0];
    }
  }

  // ----- tiling -----

  datatype Kind = Number | Word | Str(value: string) | Chr(c: char) | Symbol | Doc(body: string)

  datatype Token = Token(kind: Kind, text: string, line: nat, col: nat)

  /** A piece of the source: a token, or something between tokens. */
  datatype Part = Blank(c: char) | LineNote(text: string) | BlockNote(text: string) | Tok(t: Token)

  function PartText(x: Part): string {
    match x
    case Blank(c) => [c]
    case LineNote(t) => t
    case BlockNote(t) => t
    case Tok(t) => t.text
  }

  /** The grammar has such a token between `p` and `end`. */
  predicate KindAt(src: string, p: nat, end: nat, k: Kind)
    requires p < |src|
  {
    match k
    case Number => IsDigit(src[p]) && NumberEnd(src, p) == Some(end) && !IsAlpha(CharAt(src, end))
    case Word => IsAlpha(src[p]) && RunEnd(src, p, IsIdent) == end
    case Str(v) => src[p] == '"' && StringBody(src, p + 1) == Some((v, end))
    case Chr(c) => src[p] == '\'' && CharBody(src, p + 1) == Some((c, end))
    case Symbol => SymbolEnd(src, p) == Some(end) && !StartsAt(src, p, "//") && !Opens(src, p)
    case Doc(body) =>
      StartsAt(src, p, "///") && RunEnd(src, p, NotNewline) == end && p <= end <= |src| && IsDocBody(src[p..end], body)
  }

  /** The text behind `///` and at most one space. */
  predicate IsDocBody(text: string, body: string) {
    |text| >= 3 && body == if |text| > 3 && text[3] == ' ' then text[4..] else text[3..]
  }

  ghost predicate PartAt(src: string, p: nat, x: Part) {
    && p < |src| && PartText(x) != "" && StartsAt(src, p, PartText(x))
    && match x
       case Blank(c) => IsBlank(c)
       case LineNote(t) => StartsAt(src, p, "//") && !StartsAt(src, p, "///") && RunEnd(src, p, NotNewline) == p + |t|
       case BlockNote(t) => Opens(src, p) && IsBlockComment(t)
       case Tok(t) => KindAt(src, p, p + |t.text|, t.kind) && t.line == Line(src, p) && t.col == Col(src, p)
  }

  /** The parts follow each other from `p` to `q` without a gap. */
  ghost predicate Tiles(src: string, p: nat, parts: seq<Part>, q: nat)
    decreases |parts|
  {
    if parts == [] then p == q
    else PartAt(src, p, parts[0]) && Tiles(src, p + |PartText(parts[0])|, parts[1..], q)
  }

  lemma {:induction false} TilesMore(src: string, p: nat, parts: seq<Part>, q: nat, x: Part)
    requires Tiles(src, p, parts, q) && PartAt(src, q, x)
    ensures Tiles(src, p, parts + [x], q + |PartText(x)|)
    decreases |parts|
  {
    hide PartAt, PartText;
    if parts == [] {
      assert [x][1..] == [];
    } else {
      assert (parts + [x])[1..] == parts[1..] + [x];
      TilesMore(src, p + |PartText(parts[0])|, parts[1..], q, x);
    }
  }

  function Texts(parts: seq<Part>): string {
    if parts == [] then "" else PartText(parts[0]) + Texts(parts[1..])
  }

  lemma PartStands(src: string, p: nat, x: Part)
    requires PartAt(src, p, x)
    ensures p < |src| && p + |PartText(x)| <= |src| && src[p..p + |PartText(x)|] == PartText(x)
    ensures x.Blank? ==> src[p] == x.c
  {
    assert src[p] == src[p..p + |PartText(x)|][0];
  }

  /** Tiles up to the end are the source. */
  lemma {:induction false} TilesAreSource(src: string, p: nat, parts: seq<Part>)
    requires Tiles(src, p, parts, |src|) && p <= |src|
    ensures Texts(parts) == src[p..]
    decreases |parts|
  {
    hide PartAt, PartText;
    if parts != [] {
      var q := p + |PartText(parts[0])|;
      PartStands(src, p, parts[0]);
      TilesAreSource(src, q, parts[1..]);
      assert src[p..] == src[p..q] + src[q..];
    }
  }

  function Tokens(parts: seq<Part>): seq<Token> {
    if parts == [] then []
    else
      var last := parts[|parts| - 1];
      Tokens(parts[..|parts| - 1]) + (if last.Tok? then [last.t] else [])
  }

  lemma TokensMore(parts: seq<Part>, x: Part)
    ensures Tokens(parts + [x]) == Tokens(parts) + (if x.Tok? then [x.t] else [])
  {
    assert (parts + [x])[..|parts|] == parts;
  }

  lemma TokenIs(src: string, p: nat, end: nat, k: Kind)
    requires p < end <= |src| && KindAt(src, p, end, k)
    ensures PartAt(src, p, Tok(Token(k, src[p..end], Line(src, p), Col(src, p))))
  {
    hide KindAt, Line, Col;
  }

  lemma NoteIs(src: string, p: nat, end: nat)
    requires p < end <= |src|
    ensures StartsAt(src, p, "//") && !StartsAt(src, p, "///") && RunEnd(src, p, NotNewline) == end ==>
      PartAt(src, p, LineNote(src[p..end]))
    ensures Opens(src, p) && BlockEnd(src, p + 2, 1) == Some(end) ==> PartAt(src, p, BlockNote(src[p..end]))
  {
    hide BlockEnd, RunEnd, IsBlockComment;
    if Opens(src, p) {
      BlockExact(src, p, end);
    }
  }

  // ----- one tiling at most -----

  /** The source can be cut into tokens, blanks and comments. */
  ghost predicate Lexes(src: string) {
    exists parts: seq<Part> :: Tiles(src, 0, parts, |src|)
  }

  lemma MultiFirst(k: nat)
    requires k < |Multi()|
    ensures Multi()[k][0] in Single()
  {
    MultiLength(k);
  }

  lemma SingleBytes(c: char)
    requires c in Single()
    ensures !IsBlank(c) && !IsDigit(c) && !IsAlpha(c) && c != '"' && c != '\''
  {
  }

  lemma SymbolByte(src: string, i: nat)
    requires i < |src| && SymbolEnd(src, i).Some?
    ensures src[i] in Single()
    ensures !IsBlank(src[i]) && !IsDigit(src[i]) && !IsAlpha(src[i]) && src[i] != '"' && src[i] != '\''
  {
    hide Multi, Single, FirstMulti, RunEnd, SymbolEnd;
    var k := FirstMulti(src, i, 0);
    SymbolCases(src, i);
    HashIsSingle();
    if k < |Multi()| {
      FirstMultiStands(src, i);
    }
    SingleBytes(src[i]);
  }

  lemma HashIsSingle()
    ensures '#' in Single()
  {
    assert Single()[23] == '#';
  }

  lemma FirstMultiStands(src: string, i: nat)
    requires i < |src| && FirstMulti(src, i, 0) < |Multi()|
    ensures src[i] in Single()
  {
    hide Multi, Single;
    var k := FirstMulti(src, i, 0);
    MultiLength(k);
    MultiFirst(k);
    assert src[i..i + |Multi()[k]|][0] == src[i];
  }

  /** How a part begins tells what it is. */
  lemma KindOf(src: string, p: nat, x: Part)
    requires PartAt(src, p, x)
    ensures x.Blank? <==> IsBlank(src[p])
    ensures x.LineNote? <==> StartsAt(src, p, "//") && !StartsAt(src, p, "///")
    ensures x.BlockNote? <==> Opens(src, p)
    ensures x.Tok? ==> (x.t.kind.Doc? <==> StartsAt(src, p, "///"))
    ensures x.Tok? ==> (x.t.kind.Number? <==> IsDigit(src[p])) && (x.t.kind.Word? <==> IsAlpha(src[p]))
    ensures x.Tok? ==> (x.t.kind.Str? <==> src[p] == '"') && (x.t.kind.Chr? <==> src[p] == '\'')
  {
    hide BlockEnd, NumberEnd, StringBody, CharBody, SymbolEnd, RunEnd, IsBlockComment, Line, Col, StartsAt, Single;
    hide IsDocBody;
    Slashes(src, p);
    match x
    case Tok(t) =>
      if t.kind.Symbol? {
        SymbolByte(src, p);
      }
    case _ =>
      PartStands(src, p, x);
  }

  lemma Slashes(src: string, p: nat)
    requires p < |src|
    ensures StartsAt(src, p, "//") ==> src[p] == '/' && CharAt(src, p + 1) == '/' && !Opens(src, p)
    ensures StartsAt(src, p, "///") ==> StartsAt(src, p, "//")
  {
    if StartsAt(src, p, "//") {
      assert src[p] == src[p..p + 2][0] && src[p + 1] == src[p..p + 2][1];
    }
    if StartsAt(src, p, "///") {
      assert src[p..p + 2] == src[p..p + 3][..2];
    }
  }

  /** At most one part stands at a place. */
  lemma PartUnique(src: string, p: nat, x: Part, y: Part)
    requires PartAt(src, p, x) && PartAt(src, p, y)
    ensures x == y
  {
    hide BlockEnd, NumberEnd, StringBody, CharBody, SymbolEnd, RunEnd, IsBlockComment, Line, Col;
    KindOf(src, p, x);
    KindOf(src, p, y);
    if x.BlockNote? {
      CommentScanned(src, p, x.text);
      CommentScanned(src, p, y.text);
    }
    assert |PartText(x)| == |PartText(y)|;
  }

  /** A source has one tiling at most. */
  lemma {:induction false} TilesUnique(src: string, p: nat, a: seq<Part>, b: seq<Part>)
    requires Tiles(src, p, a, |src|) && Tiles(src, p, b, |src|)
    ensures a == b
    decreases |a|
  {
    hide PartAt, PartText;
    if a != [] && b != [] {
      PartUnique(src, p, a[0], b[0]);
      TilesUnique(src, p + |PartText(a[0])|, a[1..], b[1..]);
      assert a == [a[0]] + a[1..] && b == [b[0]] + b[1..];
    } else {
      NotAtEnd(src, p, a, |src|);
      NotAtEnd(src, p, b, |src|);
    }
  }

  lemma NotAtEnd(src: string, p: nat, a: seq<Part>, q: nat)
    requires Tiles(src, p, a, q)
    ensures if a == [] then p == q else p < |src|
  {
  }

  ghost predicate NoPart(src: string, p: nat) {
    forall x: Part :: !PartAt(src, p, x)
  }

  /** What the source must not hold at the beginning of a part. */
  predicate Faulty(src: string, p: nat)
    requires p < |src|
  {
    if IsBlank(src[p]) || IsAlpha(src[p]) || StartsAt(src, p, "//") then false
    else if Opens(src, p) then BlockEnd(src, p + 2, 1).None?
    else if IsDigit(src[p]) then NumberEnd(src, p).None? || IsAlpha(CharAt(src, NumberEnd(src, p).value))
    else if src[p] == '"' then StringBody(src, p + 1).None?
    else if src[p] == '\'' then CharBody(src, p + 1).None?
    else SymbolEnd(src, p).None?
  }

  lemma FaultyHasNoPart(src: string, p: nat)
    requires p < |src| && Faulty(src, p)
    ensures NoPart(src, p)
  {
    forall x: Part
      ensures !PartAt(src, p, x)
    {
      if PartAt(src, p, x) {
        FaultyNotPart(src, p, x);
      }
    }
  }

  lemma FaultyNotPart(src: string, p: nat, x: Part)
    requires p < |src| && Faulty(src, p)
    ensures !PartAt(src, p, x)
  {
    hide BlockEnd, NumberEnd, StringBody, CharBody, SymbolEnd, RunEnd, IsBlockComment, Line, Col, StartsAt, Single, IsDocBody;
    if PartAt(src, p, x) {
      KindOf(src, p, x);
      Slashes(src, p);
      if x.BlockNote? {
        CommentScanned(src, p, x.text);
      }
    }
  }

  lemma NoPartStops(src: string, p: nat, b: seq<Part>)
    requires NoPart(src, p) && p < |src|
    ensures !Tiles(src, p, b, |src|)
  {
    hide PartAt;
  }

  /** Where a tiling gets stuck, there is none. */
  lemma {:induction false} Stuck(src: string, p: nat, a: seq<Part>, b: seq<Part>, q: nat)
    requires Tiles(src, p, a, q) && q < |src| && NoPart(src, q)
    ensures !Tiles(src, p, b, |src|)
    decreases |a|
  {
    hide PartAt, PartText, NoPart;
    NotAtEnd(src, p, a, q);
    if a == [] {
      NoPartStops(src, p, b);
    } else if Tiles(src, p, b, |src|) {
      NotAtEnd(src, p, b, |src|);
      PartUnique(src, p, a[0], b[0]);
      Stuck(src, p + |PartText(a[0])|, a[1..], b[1..], q);
    }
  }

  lemma NoTiling(src: string, a: seq<Part>, q: nat)
    requires Tiles(src, 0, a, q) && q < |src| && NoPart(src, q)
    ensures !Lexes(src)
  {
    forall b: seq<Part>
      ensures !Tiles(src, 0, b, |src|)
    {
      Stuck(src, 0, a, b, q);
    }
  }

  // ----- printed strings -----

  function Quoted(s: string): string {
    "\"" + Escaped(s) + "\""
  }

  /** Every string, printed and quoted, is lexed to one token with that value, and to nothing else. */
  lemma QuotedIsOneToken(s: string)
    ensures Lexes(Quoted(s))
    ensures forall parts :: Tiles(Quoted(s), 0, parts, |Quoted(s)|) ==> Tokens(parts) == [Token(Str(s), Quoted(s), 1, 1)]
  {
    var text := Quoted(s);
    var x := Tok(Token(Str(s), text, 1, 1));
    EscapeRoundTrip(s);
    assert text[0..|text|] == text;
    TokenIs(text, 0, |text|, Str(s));
    assert PartAt(text, 0, x);
    assert Tiles(text, |text|, [], |text|) && [x][1..] == [];
    assert Tiles(text, 0, [x], |text|);
    assert [x][..0] == [] && Tokens([x]) == [x.t];
    forall parts | Tiles(text, 0, parts, |text|)
      ensures Tokens(parts) == [x.t]
    {
      TilesUnique(text, 0, parts, [x]);
    }
  }
}
