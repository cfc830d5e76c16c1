/** The escapes, numbers, symbols and positions of the lexer, told byte by byte. */
module Lexemes {
  import opened Wrappers
  import opened Scanner

  // ----- escapes -----

  const LETTERS: string := "ntr0e\\'\""
  const BYTES: string := ['\n', '\t', '\r', '\0', 27 as char, '\\', '\'', '"']

  /** `c` is the hexadecimal digit of value `n`, in either case. */
  predicate HexIs(c: char, n: nat) {
    n < 16 && (c == "0123456789abcdef"[n] || c == "0123456789ABCDEF"[n])
  }

  ghost predicate LetterEscape(src: string, i: nat, c: char, end: nat) {
    end == i + 1 <= |src| && exists k :: 0 <= k < 8 && src[i] == LETTERS[k] && c == BYTES[k]
  }

  ghost predicate HexNumber(a: char, b: char, v: nat) {
    exists m: nat, n: nat :: HexIs(a, m) && HexIs(b, n) && v == 16 * m + n
  }

  ghost predicate HexEscape(src: string, i: nat, c: char, end: nat) {
    end == i + 3 <= |src| && src[i] == 'x' && HexNumber(src[i + 1], src[i + 2], c as nat)
  }

  /** Behind a backslash stand one of eight letters, or x and two digits; nothing else is an escape. */
  lemma EscapeExactly(src: string, i: nat, c: char, end: nat)
    ensures EscapeAt(src, i) == Some((c, end)) <==> LetterEscape(src, i, c, end) || HexEscape(src, i, c, end)
  {
    if i < |src| {
      if src[i] == 'x' {
        NoLetter(src, i, c, end);
        if i + 3 <= |src| {
          HexBytes(src, i, c, end);
        }
      } else {
        LetterBytes(src, i, c, end);
      }
    }
  }

  lemma NoLetter(src: string, i: nat, c: char, end: nat)
    requires i < |src| && src[i] == 'x'
    ensures !LetterEscape(src, i, c, end)
  {
  }

  lemma LetterBytes(src: string, i: nat, c: char, end: nat)
    requires i < |src| && src[i] != 'x'
    ensures EscapeAt(src, i) == Some((c, end)) <==> LetterEscape(src, i, c, end)
  {
    var e := src[i];
    assert LETTERS[0] == 'n' && LETTERS[1] == 't' && LETTERS[2] == 'r' && LETTERS[3] == '0' && LETTERS[4] == 'e';
    assert LETTERS[5] == '\\' && LETTERS[6] == '\'' && LETTERS[7] == '"';
  }

  lemma HexDigitIs(c: char)
    ensures IsHex(c) ==> HexIs(c, HexValue(c))
    ensures forall n: nat :: HexIs(c, n) ==> IsHex(c) && HexValue(c) == n
  {
    if IsHex(c) {
      var n := HexValue(c);
      assert n < 16;
      HexByte(c, n);
    }
    forall n: nat | HexIs(c, n)
      ensures IsHex(c) && HexValue(c) == n
    {
      HexByte(c, n);
    }
  }

  lemma HexByte(c: char, n: nat)
    requires n < 16
    ensures HexIs(c, n) <==> IsHex(c) && HexValue(c) == n
  {
    var lower, upper := "0123456789abcdef", "0123456789ABCDEF";
    if n < 10 {
      assert lower[n] == upper[n] == '0' + n as char;
    } else {
      assert lower[n] == 'a' + (n - 10) as char && upper[n] == 'A' + (n - 10) as char;
    }
  }

  lemma HexBytes(src: string, i: nat, c: char, end: nat)
    requires i + 3 <= |src| && src[i] == 'x'
    ensures EscapeAt(src, i) == Some((c, end)) <==> HexEscape(src, i, c, end)
  {
    hide HexIs, IsHex;
    var a, b := src[i + 1], src[i + 2];
    HexDigitIs(a);
    HexDigitIs(b);
    if IsHex(a) && IsHex(b) {
      var v := 16 * HexValue(a) + HexValue(b);
      assert EscapeAt(src, i) == Some((v as char, i + 3));
      assert HexNumber(a, b, v);
      assert HexNumber(a, b, c as nat) <==> c as nat == v;
    } else {
      assert EscapeAt(src, i).None?;
    }
  }

  // ----- positions -----

  /** The line of a position counts the newlines before it, and its column the bytes since the last
      of them; both start at 1. */
  lemma {:induction false} PositionRight(src: string, p: nat)
    requires p <= |src|
    ensures Line(src, p) == multiset(src[..p])['\n'] + 1
    ensures
      var start := p + 1 - Col(src, p);
      && 0 <= start <= p && (start == 0 || src[start - 1] == '\n') && forall k :: start <= k < p ==> src[k] != '\n'
  {
    if p > 0 {
      PositionRight(src, p - 1);
      assert src[..p] == src[..p - 1] + [src[p - 1]];
    }
  }

  // ----- symbols -----

  /** The symbols of the language. */
  lemma SymbolTable(x: string)
    ensures IsSymbol(x) <==>
      || x in ["...", "<<=", ">>=", "..="]
      || x in ["->", "=>", "==", "!=", "<=", ">=", "&&", "||", "<<", ">>", "::", ":=", "..", "++", "--"]
      || x in ["+=", "-=", "*=", "/=", "%=", "&=", "|=", "^="]
      || (|x| == 1 && (x[0] in "+-*/%=<>!&|^~" || x[0] in "(){}[]" || x[0] in ",;:.#?@$"))
  {
  }

  // ----- numbers -----

  /** Decimal digits from `i` to `j`. */
  predicate Digits(src: string, i: nat, j: nat) {
    i < j <= |src| && forall k :: i <= k < j ==> '0' <= src[k] <= '9'
  }

  /** The same, with underscores behind the first. */
  predicate Marked(src: string, i: nat, j: nat) {
    i < j <= |src| && '0' <= src[i] <= '9' && forall k :: i <= k < j ==> '0' <= src[k] <= '9' || src[k] == '_'
  }

  /** No zero in front of other digits. */
  predicate NoLeadingZero(src: string, i: nat, j: nat) {
    i < j <= |src| && (src[i] == '0' ==> j == i + 1)
  }

  /** Nothing at `j` that could carry a number on. */
  predicate NumberStops(src: string, j: nat) {
    j < |src| ==> !('0' <= src[j] <= '9' || 'a' <= src[j] <= 'z' || 'A' <= src[j] <= 'Z' || src[j] == '_' || src[j] == '.')
  }

  lemma {:induction false} RunIs(src: string, i: nat, j: nat, f: char -> bool)
    requires i <= j <= |src| && (forall k :: i <= k < j ==> f(src[k])) && (j < |src| ==> !f(src[j]))
    ensures RunEnd(src, i, f) == j
    decreases j - i
  {
    if i < j {
      RunIs(src, i + 1, j, f);
    }
  }

  lemma {:induction false} KeptAtMost(src: string, i: nat, r: nat, n: nat)
    requires i <= r <= |src|
    ensures n <= Kept(src, i, r, n) <= n + (r - i)
    ensures i < r && src[i] != '_' && n < 127 ==> n < Kept(src, i, r, n)
    decreases r - i
  {
    if i < r {
      KeptAtMost(src, i + 1, r, if src[i] != '_' && n < 127 then n + 1 else n);
    }
  }

  /** An integer of fewer than 127 bytes is one number. */
  lemma IntegerForm(src: string, i: nat, j: nat)
    requires Marked(src, i, j) && NoLeadingZero(src, i, j) && NumberStops(src, j) && j - i < 127
    ensures NumberEnd(src, i) == Some(j)
  {
    RunIs(src, i, j, DigitMark);
  }

  /** A fraction has a digit on both sides of the point. */
  lemma FractionForm(src: string, i: nat, r: nat, j: nat)
    requires Marked(src, i, r) && NoLeadingZero(src, i, r) && r < |src| && src[r] == '.' && Marked(src, r + 1, j)
    requires NumberStops(src, j) && j - i < 127
    ensures NumberEnd(src, i) == Some(j)
  {
    hide RunEnd, Kept;
    RunIs(src, i, r, DigitMark);
    RunIs(src, r + 1, j, DigitMark);
    KeptAtMost(src, i, r, 0);
  }

  /** An exponent is e or E, perhaps a sign, and digits. */
  lemma ExponentForm(src: string, i: nat, r: nat, q: nat, j: nat)
    requires Marked(src, i, r) && NoLeadingZero(src, i, r) && r < |src| && (src[r] == 'e' || src[r] == 'E')
    requires q == r + 1 || (q == r + 2 && r + 1 < |src| && (src[r + 1] == '+' || src[r + 1] == '-'))
    requires Digits(src, q, j) && NumberStops(src, j) && j - i < 127
    ensures NumberEnd(src, i) == Some(j)
  {
    hide RunEnd, Kept;
    RunIs(src, i, r, DigitMark);
    RunIs(src, q, j, IsDigit);
    KeptAtMost(src, i, r, 0);
  }

  /** Hexadecimal, binary and octal numbers, with underscores but not only those. */
  lemma RadixForm(src: string, i: nat, j: nat, digits: string)
    requires i + 2 < j <= |src| && src[i] == '0' && src[i + 2] != '_' && NumberStops(src, j)
    requires if src[i + 1] == 'x' || src[i + 1] == 'X' then digits == "0123456789abcdefABCDEF_"
             else if src[i + 1] == 'b' || src[i + 1] == 'B' then digits == "01_"
             else (src[i + 1] == 'o' || src[i + 1] == 'O') && digits == "01234567_"
    requires forall k :: i + 2 <= k < j ==> src[k] in digits
    ensures NumberEnd(src, i) == Some(j)
  {
    hide RunEnd, Kept;
    DigitSets();
    if digits == "01_" {
      RunIs(src, i + 2, j, BinaryMark);
    } else if digits == "01234567_" {
      RunIs(src, i + 2, j, OctalMark);
    } else {
      RunIs(src, i + 2, j, HexMark);
    }
    KeptAtMost(src, i + 2, j, 0);
  }

  lemma DigitSets()
    ensures forall c :: c in "0123456789abcdefABCDEF_" ==> HexMark(c)
    ensures forall c :: c in "01_" ==> BinaryMark(c)
    ensures forall c :: c in "01234567_" ==> OctalMark(c)
  {
  }
}
