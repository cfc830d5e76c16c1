/** 64-bit words and the integers of the language that are kept in them. */
module Word {
  import opened Ir

  const W: int := 0x1_0000_0000_0000_0000

  predicate IsWord(u: int) {
    0 <= u < 0x1_0000_0000_0000_0000
  }

  type Word64 = u: int | IsWord(u)

  /** The word that stands for an integer, in two's complement. */
  function U(x: int): Word64 {
    x % 0x1_0000_0000_0000_0000
  }

  lemma UOfWord(u: Word64)
    ensures U(u) == u
  {
    assert IsWord(u);
  }

  /** The word read as a signed number. */
  function S(u: int): int {
    if u >= 0x8000_0000_0000_0000 then u - 0x1_0000_0000_0000_0000 else u
  }

  function Bits(ty: Ty): nat {
    match ty
    case Int(w, _) => w
    case Bool => 8
    case Other => 64
  }

  predicate IsSigned(ty: Ty) {
    ty.Int? && ty.signed
  }

  predicate Sized(ty: Ty) {
    Bits(ty) in {8, 16, 32, 64}
  }

  /** 2 to the power of a register width. */
  function Span(w: nat): (n: int)
    ensures n > 1
  {
    if w == 8 then 0x100 else if w == 16 then 0x1_0000 else if w == 32 then 0x1_0000_0000 else 0x1_0000_0000_0000_0000
  }

  /** The low `w` bits of `x` as a number of that width. */
  function WrapBits(w: nat, signed: bool, x: int): int {
    var m := x % Span(w);
    if signed && m >= Span(w) / 2 then m - Span(w) else m
  }

  /** Arithmetic of a type wraps around. */
  function Wrap(ty: Ty, x: int): int {
    WrapBits(Bits(ty), IsSigned(ty), x)
  }

  predicate InRange(ty: Ty, x: int) {
    if IsSigned(ty) then -(Span(Bits(ty)) / 2) <= x < Span(Bits(ty)) / 2 else 0 <= x < Span(Bits(ty))
  }

  lemma WrapInRange(ty: Ty, x: int)
    ensures InRange(ty, Wrap(ty, x))
    ensures InRange(ty, x) ==> Wrap(ty, x) == x
  {
  }

  /** Wrapping looks at the low bits only, so it may be done on the word. */
  lemma WrapOfWord(w: nat, signed: bool, x: int)
    requires w in {8, 16, 32, 64}
    ensures WrapBits(w, signed, U(x)) == WrapBits(w, signed, x)
  {
    var k := W / Span(w);
    assert W == k * Span(w);
    var q := x / W;
    assert x == U(x) + q * W;
    ModShift(U(x), q * k, Span(w));
    assert q * W == (q * k) * Span(w);
  }

  lemma ModShift(a: int, k: int, m: int)
    requires m > 0
    ensures (a + k * m) % m == a % m
  {
    var q, r := a / m, a % m;
    assert a == q * m + r;
    assert a + k * m == (q + k) * m + r;
    DivModUnique(a + k * m, m, q + k, r);
  }

  lemma DivModUnique(x: int, m: int, q: int, r: int)
    requires m > 0 && 0 <= r < m && x == q * m + r
    ensures x / m == q && x % m == r
  {
    var d := x / m - q;
    assert d * m == r - x % m;
    if d >= 1 {
      Scaled(d, m);
    } else if d <= -1 {
      Scaled(-d, m);
    }
  }

  lemma Scaled(d: int, m: int)
    requires d >= 1 && m > 0
    ensures d * m >= m
  {
  }

  /** Sums, differences and products of words are right up to wrapping. */
  lemma WordSum(a: int, b: int)
    ensures U(U(a) + U(b)) == U(a + b) && U(U(a) - U(b)) == U(a - b)
  {
    var p, q := a / W, b / W;
    assert a == U(a) + p * W && b == U(b) + q * W;
    ModShift(U(a) + U(b), p + q, W);
    ModShift(U(a) - U(b), p - q, W);
    assert a + b == U(a) + U(b) + (p + q) * W;
    assert a - b == U(a) - U(b) + (p - q) * W;
  }

  lemma WordProduct(a: int, b: int)
    ensures U(U(a) * U(b)) == U(a * b)
  {
    var p, q := a / W, b / W;
    var x, y := U(a), U(b);
    assert a == x + p * W && b == y + q * W;
    assert a * b == x * y + (x * q + y * p + p * q * W) * W by {
      Expand(x, y, p, q, W);
    }
    ModShift(x * y, x * q + y * p + p * q * W, W);
  }

  lemma Expand(x: int, y: int, p: int, q: int, w: int)
    ensures (x + p * w) * (y + q * w) == x * y + (x * q + y * p + p * q * w) * w
  {
    calc {
      (x + p * w) * (y + q * w);
      x * (y + q * w) + (p * w) * (y + q * w);
      x * y + x * (q * w) + (p * w) * y + (p * w) * (q * w);
      { assert x * (q * w) == (x * q) * w; assert (p * w) * y == (y * p) * w; assert (p * w) * (q * w) == (p * q * w) * w; }
      x * y + (x * q) * w + (y * p) * w + (p * q * w) * w;
      x * y + (x * q + y * p + p * q * w) * w;
    }
  }

  /** The signed reading of the word of a signed value, and the unsigned one of an unsigned
      value, give the value back. */
  lemma ReadBack(ty: Ty, x: int)
    requires Sized(ty) && InRange(ty, x)
    ensures if IsSigned(ty) then S(U(x)) == x else U(x) == x
    ensures U(x) == 0 <==> x == 0
  {
  }

  function Times(a: int, b: int): int {
    a * b
  }

  // ----- division -----

  function FloorDiv(a: int, b: int): int
    requires b != 0
  {
    a / b
  }

  function FloorMod(a: int, b: int): int
    requires b != 0
  {
    a % b
  }

  /** Division that rounds toward zero, as idiv and C do. */
  function TDiv(a: int, b: int): int
    requires b != 0
  {
    if a >= 0 then (if b > 0 then FloorDiv(a, b) else -FloorDiv(a, -b))
    else (if b > 0 then -FloorDiv(-a, b) else FloorDiv(-a, -b))
  }

  function TRem(a: int, b: int): int
    requires b != 0
  {
    a - Times(TDiv(a, b), b)
  }

  lemma DivShrinks(a: int, b: int)
    requires a >= 0 && b > 0
    ensures 0 <= a / b <= a && (b > 1 && a > 0 ==> a / b < a) && 0 <= a - (a / b) * b < b
  {
    var q := a / b;
    assert a == q * b + a % b;
    if q > 0 {
      assert q * b >= q;
      if b > 1 {
        assert q * b >= q * 2;
      }
    }
    assert q >= 0;
  }

  lemma TDivBounds(a: int, b: int)
    requires b != 0
    ensures a >= 0 ==> -a <= TDiv(a, b) <= a
    ensures a <= 0 ==> a <= TDiv(a, b) <= -a
    ensures TDiv(a, b) == -a && a < 0 ==> b == -1
    ensures a >= 0 ==> 0 <= TRem(a, b) <= a
    ensures a <= 0 ==> a <= TRem(a, b) <= 0
  {
    var x, y := if a >= 0 then a else -a, if b > 0 then b else -b;
    DivShrinks(x, y);
    var q := x / y;
    assert TDiv(a, b) == q || TDiv(a, b) == -q;
    assert (-q) * b == -(q * b) && (-q) * (-b) == q * b && q * (-b) == -(q * b);
    assert 0 <= q * y by {
      assert q >= 0 && y > 0;
    }
  }

  // ----- bitwise operations -----

  predicate BitTable(op: BinOp, a: bool, b: bool) {
    match op
    case And => a && b
    case Or => a || b
    case _ => a != b
  }

  function BitOf(t: bool): int {
    if t then 1 else 0
  }

  /** A bitwise operation on the low `n` bits of two words. */
  function WordBits(op: BinOp, x: int, y: int, n: nat): int
    decreases n, x == 0
  {
    if n == 0 then 0
    else BitOf(BitTable(op, x % 2 == 1, y % 2 == 1)) + 2 * WordBits(op, x / 2, y / 2, n - 1)
  }

  /** The same operation on integers, in two's complement of unbounded width: after `n` bits
      only copies of the signs are left. */
  function IntBits(op: BinOp, x: int, y: int, n: nat): int
    decreases n, x == 0
  {
    if n == 0 then (if BitTable(op, x < 0, y < 0) then -1 else 0)
    else BitOf(BitTable(op, x % 2 == 1, y % 2 == 1)) + 2 * IntBits(op, x / 2, y / 2, n - 1)
  }

  function Pow2(n: nat): (p: int)
    ensures p >= 1
  {
    if n == 0 then 1 else 2 * Pow2(n - 1)
  }

  lemma {:induction false} HalfMod(x: int, n: nat)
    requires n > 0
    ensures (x % Pow2(n)) / 2 == (x / 2) % Pow2(n - 1)
    ensures (x % Pow2(n)) % 2 == x % 2
  {
    var p := Pow2(n - 1);
    var h, b := x / 2, x % 2;
    var q, r := h / p, h % p;
    assert h == q * p + r;
    assert x == 2 * h + b;
    assert x == q * (2 * p) + (2 * r + b) by {
      assert 2 * (q * p) == q * (2 * p);
    }
    DivModUnique(x, 2 * p, q, 2 * r + b);
  }

  /** The word operation computes the integer operation. */
  lemma {:induction false} WordBitsRight(op: BinOp, x: int, y: int, n: nat)
    ensures WordBits(op, x % Pow2(n), y % Pow2(n), n) == IntBits(op, x, y, n) % Pow2(n)
    decreases n
  {
    if n > 0 {
      HalfMod(x, n);
      HalfMod(y, n);
      WordBitsRight(op, x / 2, y / 2, n - 1);
      var b := BitOf(BitTable(op, x % 2 == 1, y % 2 == 1));
      var r := IntBits(op, x, y, n);
      HalfMod(r, n);
      assert r / 2 == IntBits(op, x / 2, y / 2, n - 1) && r % 2 == b;
    }
  }

  /** Results stay within the width of the operands. */
  lemma {:induction false} IntBitsRange(op: BinOp, x: int, y: int, k: nat, n: nat)
    requires k <= n && -Pow2(k) <= x < Pow2(k) && -Pow2(k) <= y < Pow2(k)
    requires op in {And, Or, Xor}
    ensures -Pow2(k) <= IntBits(op, x, y, n) < Pow2(k)
    ensures x >= 0 && y >= 0 ==> IntBits(op, x, y, n) >= 0
    decreases n
  {
    if n > 0 {
      if k == 0 {
        IntBitsRange(op, x / 2, y / 2, 0, n - 1);
      } else {
        IntBitsRange(op, x / 2, y / 2, k - 1, n - 1);
      }
    }
  }

  lemma Pow2Values()
    ensures Pow2(7) == 0x80 && Pow2(8) == 0x100 && Pow2(15) == 0x8000 && Pow2(16) == 0x1_0000
    ensures Pow2(31) == 0x8000_0000 && Pow2(32) == 0x1_0000_0000
    ensures Pow2(63) == 0x8000_0000_0000_0000 && Pow2(64) == W
  {
    assert Pow2(8) == 0x100;
    assert Pow2(15) == 0x8000;
    assert Pow2(24) == 0x100_0000;
    assert Pow2(31) == 0x8000_0000;
    assert Pow2(40) == 0x100_0000_0000;
    assert Pow2(48) == 0x1_0000_0000_0000;
    assert Pow2(56) == 0x100_0000_0000_0000;
  }

  lemma BitwiseInRange(op: BinOp, ty: Ty, x: int, y: int)
    requires Sized(ty) && InRange(ty, x) && InRange(ty, y) && op in {And, Or, Xor}
    ensures InRange(ty, IntBits(op, x, y, 64))
    ensures WordBits(op, U(x), U(y), 64) == U(IntBits(op, x, y, 64))
  {
    Pow2Values();
    WordBitsRight(op, x, y, 64);
    IntBitsRange(op, x, y, if IsSigned(ty) then Bits(ty) - 1 else Bits(ty), 64);
  }
}
