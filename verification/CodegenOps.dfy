/** Instruction by instruction, the emitted code leaves in rax the word that stands for the
    IR value. */
module CodegenOps {
  import opened Ir
  import opened Wrappers
  import opened Word
  import opened Asm
  import opened IrSem
  import opened Codegen

  /** Nothing but rax, rcx, rdx and the flags has changed. */
  predicate OnlyScratch(m: Cpu, m': Cpu) {
    m'.mem == m.mem && m'.Get(Rbp) == m.Get(Rbp) && m'.Get(Rsp) == m.Get(Rsp)
  }

  ghost predicate Leaves(code: seq<Instr>, m: Cpu, u: int) {
    match ExecAll(code, m)
    case None => false
    case Some(m') => m'.Get(Rax) == u && OnlyScratch(m, m')
  }

  lemma One(i: Instr, m: Cpu)
    ensures ExecAll([i], m) == Exec(i, m)
  {
    match Exec(i, m)
    case None =>
    case Some(m') => assert ExecAll([], m') == Some(m');
  }

  lemma Then(a: seq<Instr>, b: seq<Instr>, m: Cpu, u: int)
    requires ExecAll(a, m).Some? && OnlyScratch(m, ExecAll(a, m).value) && Leaves(b, ExecAll(a, m).value, u)
    ensures Leaves(a + b, m, u)
  {
    ExecAppend(a, b, m);
  }

  /** The narrowing moves compute the wrapped value from any word with the right low bits. */
  lemma ExtendRight(ty: Ty, y: int, m: Cpu)
    requires Sized(ty) && m.Get(Rax) == U(y)
    ensures Leaves([Extend(Bits(ty), IsSigned(ty))], m, U(Wrap(ty, y)))
  {
    One(Extend(Bits(ty), IsSigned(ty)), m);
    WrapOfWord(Bits(ty), IsSigned(ty), y);
  }

  lemma NarrowRight(ty: Ty, y: int, m: Cpu)
    requires Sized(ty) && m.Get(Rax) == U(y)
    ensures Leaves(Narrow(ty), m, U(Wrap(ty, y)))
  {
    if Bits(ty) == 64 {
      WrapOfWord(64, IsSigned(ty), y);
      assert U(Wrap(ty, y)) == U(y);
    } else {
      ExtendRight(ty, y, m);
    }
  }

  lemma TruncateRight(ty: Ty, y: int, m: Cpu)
    requires Sized(ty) && ty.Int? && m.Get(Rax) == U(y)
    ensures Leaves(Truncate(ty), m, U(Wrap(ty, y)))
  {
    NarrowRight(ty, y, m);
    assert Truncate(ty) == Narrow(ty);
  }

  /** One instruction that leaves a 64-bit result in rax, then the cut. */
  lemma OneThenTruncate(i: Instr, ty: Ty, y: int, m: Cpu)
    requires Sized(ty) && ty.Int? && Exec(i, m).Some?
    requires Exec(i, m).value.Get(Rax) == U(y) && OnlyScratch(m, Exec(i, m).value)
    ensures Leaves([i] + Truncate(ty), m, U(Wrap(ty, y)))
  {
    One(i, m);
    TruncateRight(ty, y, Exec(i, m).value);
    Then([i], Truncate(ty), m, U(Wrap(ty, y)));
  }

  lemma AddRight(ty: Ty, a: int, b: int, m: Cpu)
    requires Sized(ty) && ty.Int? && m.Get(Rax) == U(a) && m.Get(Rcx) == U(b)
    ensures Leaves(Work(Bin(Add), ty), m, U(Wrap(ty, a + b)))
  {
    WordSum(a, b);
    OneThenTruncate(Alu(AAdd, Rax, Rcx), ty, a + b, m);
  }

  lemma SubRight(ty: Ty, a: int, b: int, m: Cpu)
    requires Sized(ty) && ty.Int? && m.Get(Rax) == U(a) && m.Get(Rcx) == U(b)
    ensures Leaves(Work(Bin(Sub), ty), m, U(Wrap(ty, a - b)))
  {
    WordSum(a, b);
    OneThenTruncate(Alu(ASub, Rax, Rcx), ty, a - b, m);
  }

  lemma MulRight(ty: Ty, a: int, b: int, m: Cpu)
    requires Sized(ty) && ty.Int? && m.Get(Rax) == U(a) && m.Get(Rcx) == U(b)
    ensures Leaves(Work(Bin(Mul), ty), m, U(Wrap(ty, Times(a, b))))
  {
    var y := Times(a, b);
    assert U(Times(U(a), U(b))) == U(y) by {
      WordProduct(a, b);
    }
    OneThenTruncate(Alu(AMul, Rax, Rcx), ty, y, m);
  }

  lemma NegRight(ty: Ty, a: int, m: Cpu)
    requires Sized(ty) && ty.Int? && m.Get(Rax) == U(a)
    ensures Leaves(Work(Neg, ty), m, U(Wrap(ty, -a)))
  {
    WordSum(0, a);
    OneThenTruncate(NegR(Rax), ty, -a, m);
  }

  lemma Two(i: Instr, j: Instr, m: Cpu)
    requires Exec(i, m).Some?
    ensures ExecAll([i, j], m) == Exec(j, Exec(i, m).value)
  {
    One(j, Exec(i, m).value);
    assert [i, j][1..] == [j];
  }

  /** idiv, when the double-width dividend is a 64-bit number and the quotient fits. */
  lemma IdivEffect(m: Cpu, n: int, d: int)
    requires S(m.Get(Rdx)) * W + m.Get(Rax) == n && S(m.Get(Rcx)) == d && d != 0
    requires -(W / 2) <= TDiv(n, d) < W / 2
    ensures Exec(Idiv(Rcx), m) == Some(m.Set(Rax, TDiv(n, d)).Set(Rdx, TRem(n, d)))
  {
  }

  lemma CqoEffect(a: int, m: Cpu)
    requires -(W / 2) <= a < W / 2 && m.Get(Rax) == U(a)
    ensures
      match Exec(Cqo, m)
      case None => false
      case Some(m') => S(m'.Get(Rdx)) * W + m'.Get(Rax) == a && m'.Get(Rcx) == m.Get(Rcx) && OnlyScratch(m, m')
  {
  }

  lemma IdivStep(m0: Cpu, m: Cpu, a: int, b: int)
    requires S(m.Get(Rdx)) * W + m.Get(Rax) == a && S(m.Get(Rcx)) == b && b != 0
    requires -(W / 2) <= TDiv(a, b) < W / 2 && OnlyScratch(m0, m)
    ensures
      match Exec(Idiv(Rcx), m)
      case None => false
      case Some(m') => m'.Get(Rax) == U(TDiv(a, b)) && m'.Get(Rdx) == U(TRem(a, b)) && OnlyScratch(m0, m')
  {
    IdivEffect(m, a, b);
  }

  /** cqo and idiv: the dividend is extended by its sign. */
  lemma IdivRight(a: int, b: int, m: Cpu)
    requires -(W / 2) <= a < W / 2 && -(W / 2) <= b < W / 2 && b != 0 && !(a == -(W / 2) && b == -1)
    requires m.Get(Rax) == U(a) && m.Get(Rcx) == U(b)
    ensures
      match ExecAll([Cqo, Idiv(Rcx)], m)
      case None => false
      case Some(m') => m'.Get(Rax) == U(TDiv(a, b)) && m'.Get(Rdx) == U(TRem(a, b)) && OnlyScratch(m, m')
  {
    hide TDiv, TRem;
    CqoEffect(a, m);
    var m1 := Exec(Cqo, m).value;
    assert S(m1.Get(Rcx)) == b;
    Two(Cqo, Idiv(Rcx), m);
    assert -(W / 2) <= TDiv(a, b) < W / 2 by {
      TDivBounds(a, b);
    }
    IdivStep(m, m1, a, b);
  }

  lemma DivEffect(m: Cpu, n: int, d: int)
    requires m.Get(Rdx) * W + m.Get(Rax) == n && m.Get(Rcx) == d && d != 0 && FloorDiv(n, d) < W
    ensures Exec(Div(Rcx), m) == Some(m.Set(Rax, FloorDiv(n, d)).Set(Rdx, FloorMod(n, d)))
  {
  }

  lemma DivStep(m0: Cpu, m: Cpu, a: int, b: int)
    requires 0 <= a < W && 0 < b < W && FloorDiv(a, b) < W
    requires m.Get(Rdx) == 0 && m.Get(Rax) == a && m.Get(Rcx) == b && OnlyScratch(m0, m)
    ensures
      match Exec(Div(Rcx), m)
      case None => false
      case Some(m') => m'.Get(Rax) == U(FloorDiv(a, b)) && m'.Get(Rdx) == U(FloorMod(a, b)) && OnlyScratch(m0, m')
  {
    DivEffect(m, a, b);
  }

  lemma DivRight(a: int, b: int, m: Cpu)
    requires 0 <= a < W && 0 < b < W && m.Get(Rax) == U(a) && m.Get(Rcx) == U(b)
    ensures
      match ExecAll([ZeroEdx, Div(Rcx)], m)
      case None => false
      case Some(m') => m'.Get(Rax) == U(FloorDiv(a, b)) && m'.Get(Rdx) == U(FloorMod(a, b)) && OnlyScratch(m, m')
  {
    DivShrinks(a, b);
    var m1 := Exec(ZeroEdx, m).value;
    assert m1.Get(Rdx) == 0 && m1.Get(Rax) == a && m1.Get(Rcx) == b;
    DivStep(m, m1, a, b);
    Two(ZeroEdx, Div(Rcx), m);
  }

  lemma SmallerInRange(ty: Ty, a: int, q: int)
    requires InRange(ty, a) && !IsSigned(ty) && 0 <= q <= a
    ensures InRange(ty, q) && Wrap(ty, q) == q
  {
    WrapInRange(ty, q);
  }

  lemma UnsignedQuotient(ty: Ty, a: int, b: int)
    requires InRange(ty, a) && InRange(ty, b) && !IsSigned(ty) && b != 0
    ensures InRange(ty, FloorDiv(a, b)) && InRange(ty, FloorMod(a, b))
    ensures Wrap(ty, FloorDiv(a, b)) == FloorDiv(a, b) && Wrap(ty, FloorMod(a, b)) == FloorMod(a, b)
  {
    UnsignedBounds(a, b);
    SmallerInRange(ty, a, FloorDiv(a, b));
    SmallerInRange(ty, a, FloorMod(a, b));
  }

  lemma UnsignedBounds(a: int, b: int)
    requires a >= 0 && b > 0
    ensures 0 <= FloorDiv(a, b) <= a && 0 <= FloorMod(a, b) <= a
  {
    DivShrinks(a, b);
  }

  /** A division sequence, then the cut of the quotient or of the remainder. */
  lemma QuotientThenTruncate(first: seq<Instr>, ty: Ty, q: int, m: Cpu)
    requires Sized(ty) && ty.Int? && Leaves(first, m, U(q))
    ensures Leaves(first + Truncate(ty), m, U(Wrap(ty, q)))
  {
    TruncateRight(ty, q, ExecAll(first, m).value);
    Then(first, Truncate(ty), m, U(Wrap(ty, q)));
  }

  lemma MovRemainder(m: Cpu)
    ensures
      match Exec(Mov(Rax, Rdx), m)
      case None => false
      case Some(m') => m'.Get(Rax) == m.Get(Rdx) && OnlyScratch(m, m')
  {
    hide U;
    UOfWord(m.Get(Rdx));
  }

  lemma RemainderThenTruncate(first: seq<Instr>, ty: Ty, r: int, m: Cpu)
    requires Sized(ty) && ty.Int?
    requires ExecAll(first, m).Some? && ExecAll(first, m).value.Get(Rdx) == U(r) && OnlyScratch(m, ExecAll(first, m).value)
    ensures Leaves(first + [Mov(Rax, Rdx)] + Truncate(ty), m, U(Wrap(ty, r)))
  {
    hide Truncate, Wrap, U, Exec;
    MovRemainder(ExecAll(first, m).value);
    OneThenTruncate(Mov(Rax, Rdx), ty, r, ExecAll(first, m).value);
    Then(first, [Mov(Rax, Rdx)] + Truncate(ty), m, U(Wrap(ty, r)));
    assert first + [Mov(Rax, Rdx)] + Truncate(ty) == first + ([Mov(Rax, Rdx)] + Truncate(ty));
  }

  lemma SignedBounds(ty: Ty, a: int)
    requires Sized(ty) && InRange(ty, a)
    ensures IsSigned(ty) ==> -(W / 2) <= a < W / 2
    ensures !IsSigned(ty) ==> 0 <= a < W
  {
  }

  lemma DivisionRight(op: BinOp, ty: Ty, a: int, b: int, m: Cpu)
    requires op in {SDiv, UDiv, SRem, URem} && Sized(ty) && InRange(ty, a) && InRange(ty, b)
    requires DivValue(op, ty, a, b).Some?
    requires m.Get(Rax) == U(a) && m.Get(Rcx) == U(b)
    ensures Leaves(Work(Bin(op), ty), m, U(DivValue(op, ty, a, b).value))
  {
    SignedBounds(ty, a);
    SignedBounds(ty, b);
    match op
    case SDiv =>
      NarrowMinimum(ty, a, b);
      IdivRight(a, b, m);
      QuotientThenTruncate([Cqo, Idiv(Rcx)], ty, TDiv(a, b), m);
    case SRem =>
      NarrowMinimum(ty, a, b);
      IdivRight(a, b, m);
      RemainderThenTruncate([Cqo, Idiv(Rcx)], ty, TRem(a, b), m);
      assert [Cqo, Idiv(Rcx), Mov(Rax, Rdx)] == [Cqo, Idiv(Rcx)] + [Mov(Rax, Rdx)];
    case UDiv =>
      DivRight(a, b, m);
      UnsignedQuotient(ty, a, b);
      QuotientThenTruncate([ZeroEdx, Div(Rcx)], ty, FloorDiv(a, b), m);
    case URem =>
      DivRight(a, b, m);
      UnsignedQuotient(ty, a, b);
      RemainderThenTruncate([ZeroEdx, Div(Rcx)], ty, FloorMod(a, b), m);
      assert [ZeroEdx, Div(Rcx), Mov(Rax, Rdx)] == [ZeroEdx, Div(Rcx)] + [Mov(Rax, Rdx)];
    case _ =>
  }

  /** Only the 64-bit minimum divided by -1 overflows the machine's division. */
  lemma NarrowMinimum(ty: Ty, a: int, b: int)
    requires Sized(ty) && ty.Int? && ty.signed && InRange(ty, a)
    requires !(ty.width == 64 && a == -(W / 2) && b == -1)
    ensures !(a == -(W / 2) && b == -1)
  {
  }

  lemma BitwiseRight(op: BinOp, alu: AluOp, ty: Ty, a: int, b: int, m: Cpu)
    requires (op == And && alu == AAnd) || (op == Or && alu == AOr) || (op == Xor && alu == AXor)
    requires Sized(ty) && InRange(ty, a) && InRange(ty, b)
    requires m.Get(Rax) == U(a) && m.Get(Rcx) == U(b)
    ensures Leaves([Alu(alu, Rax, Rcx)], m, U(IntBits(op, a, b, 64)))
  {
    hide WordBits, IntBits;
    BitwiseInRange(op, ty, a, b);
    match alu {
      case AAnd => AndExec(m);
      case AOr => OrExec(m);
      case AXor => XorExec(m);
    }
    SetLeaves(Alu(alu, Rax, Rcx), m, WordBits(op, U(a), U(b), 64));
  }

  lemma AndExec(m: Cpu)
    ensures Exec(Alu(AAnd, Rax, Rcx), m) == Some(m.Set(Rax, WordBits(And, m.Get(Rax), m.Get(Rcx), 64)))
  {
  }

  lemma OrExec(m: Cpu)
    ensures Exec(Alu(AOr, Rax, Rcx), m) == Some(m.Set(Rax, WordBits(Or, m.Get(Rax), m.Get(Rcx), 64)))
  {
  }

  lemma XorExec(m: Cpu)
    ensures Exec(Alu(AXor, Rax, Rcx), m) == Some(m.Set(Rax, WordBits(Xor, m.Get(Rax), m.Get(Rcx), 64)))
  {
  }

  lemma SetLeaves(i: Instr, m: Cpu, r: int)
    requires Exec(i, m) == Some(m.Set(Rax, r))
    ensures Leaves([i], m, U(r))
  {
    One(i, m);
  }

  /** A 64-bit result needs no cutting down exactly when it fits the type. */
  lemma FitsExactly(ty: Ty, x: int)
    requires Sized(ty)
    ensures U(Wrap(ty, x)) == U(x) <==> Fits(ty, x)
  {
    WrapOfWord(Bits(ty), IsSigned(ty), x);
    WrapInRange(ty, x);
    var r := if IsSigned(ty) then S(U(x)) else U(x);
    assert U(r) == U(x);
    WrapOfWord(Bits(ty), IsSigned(ty), r);
    WrapInRange(ty, r);
    ReadBack(ty, Wrap(ty, x));
  }

  lemma ShiftRight(op: BinOp, ty: Ty, a: int, n: int, m: Cpu)
    requires op in {Shl, LShr, AShr} && Sized(ty) && InRange(ty, a)
    requires ShiftIntValue(op, ty, a, n).Some?
    requires m.Get(Rax) == U(a) && m.Get(Rcx) == U(n)
    ensures Leaves(Work(Bin(op), ty), m, U(ShiftIntValue(op, ty, a, n).value))
  {
    assert m.Get(Rcx) % 64 == n;
    hide Pow2, Span;
    match op
    case Shl =>
      ShlExactly(ty, a, n, m);
    case LShr =>
      assert U(a) == a by {
        ReadBack(ty, a);
      }
      One(Shift(ShrCl), m);
    case AShr =>
      assert S(U(a)) == a by {
        ReadBack(ty, a);
      }
      One(Shift(SarCl), m);
    case _ =>
  }

  lemma ShlWord(a: int, p: int)
    ensures U(U(a) * p) == U(a * p)
  {
    var q := a / W;
    assert a == U(a) + q * W;
    assert a * p == U(a) * p + (q * p) * W by {
      calc {
        a * p;
        (U(a) + q * W) * p;
        U(a) * p + (q * W) * p;
        { assert (q * W) * p == (q * p) * W; }
        U(a) * p + (q * p) * W;
      }
    }
    ModShift(U(a) * p, q * p, W);
  }

  lemma FloorShrinks(a: int, p: int)
    requires p >= 1
    ensures a >= 0 ==> 0 <= FloorDiv(a, p) <= a
    ensures a < 0 ==> a <= FloorDiv(a, p) < 0
  {
    if a >= 0 {
      DivShrinks(a, p);
    } else {
      FloorNegative(a, p, a / p, a % p);
    }
  }

  lemma FloorNegative(a: int, p: int, q: int, r: int)
    requires p >= 1 && a < 0 && a == q * p + r && 0 <= r < p
    ensures a <= q < 0
  {
    if q >= 1 {
      Scaled(q, p);
    } else if q <= -2 {
      Scaled(-q - 1, p);
      Scaled(p, -q - 1);
      assert (-q - 1) * p == -(q * p) - p;
    }
  }

  /** setcc after cmp tells how the values compare. */
  lemma FlagsRight(op: CmpOp, ty: Ty, a: int, b: int)
    requires Sized(ty) && InRange(ty, a) && InRange(ty, b) && CmpValue(op, IsSigned(ty), a, b).Some?
    ensures CmpValue(op, IsSigned(ty), a, b).value == BitOf(Holds(SetCc(op), CmpFlags(U(a), U(b))))
  {
    ReadBack(ty, a);
    ReadBack(ty, b);
    if IsSigned(ty) {
      SignedFlags(U(a), U(b));
    }
  }

  lemma SignedFlags(u: int, v: int)
    requires IsWord(u) && IsWord(v)
    ensures var f := CmpFlags(u, v); (f.sf != f.of <==> S(u) < S(v)) && (f.zf <==> u == v)
  {
    var d := U(u - v);
    assert d == u - v || d == u - v + W;
  }

  lemma CmpRight(op: CmpOp, ty: Ty, a: int, b: int, m: Cpu)
    requires Sized(ty) && InRange(ty, a) && InRange(ty, b) && CmpValue(op, IsSigned(ty), a, b).Some?
    requires m.Get(Rax) == U(a) && m.Get(Rcx) == U(b)
    ensures forall t :: Leaves(Work(Ir.Cmp(op), t), m, U(CmpValue(op, IsSigned(ty), a, b).value))
  {
    FlagsRight(op, ty, a, b);
    var m1 := Exec(Asm.Cmp(Rax, Rcx), m).value;
    One(Asm.Cmp(Rax, Rcx), m);
    One(SetAl(SetCc(op)), m1);
    var bit := BitOf(Holds(SetCc(op), m1.flags));
    SetAlEffect(SetCc(op), m1, bit);
    Then([SetAl(SetCc(op))], [Extend(8, false)], m1, U(bit));
    Then([Asm.Cmp(Rax, Rcx)], [SetAl(SetCc(op))] + [Extend(8, false)], m, U(bit));
    forall t
      ensures Leaves(Work(Ir.Cmp(op), t), m, U(bit))
    {
      assert Work(Ir.Cmp(op), t) == [Asm.Cmp(Rax, Rcx)] + ([SetAl(SetCc(op))] + [Extend(8, false)]);
    }
  }

  lemma SetAlEffect(cc: Cond, m: Cpu, bit: int)
    requires bit == BitOf(Holds(cc, m.flags))
    ensures
      match Exec(SetAl(cc), m)
      case None => false
      case Some(m') => Leaves([Extend(8, false)], m', U(bit)) && OnlyScratch(m, m')
  {
    var m' := Exec(SetAl(cc), m).value;
    One(Extend(8, false), m');
    LowByte(m.Get(Rax), bit);
  }

  lemma LowByte(u: int, bit: int)
    requires IsWord(u) && (bit == 0 || bit == 1)
    ensures U(WrapBits(8, false, U(u - u % 0x100 + bit))) == bit
  {
    WrapOfWord(8, false, u - u % 0x100 + bit);
  }

  /** Not and the left shift are emitted without cutting down: the word is right exactly when
      the 64-bit result fits. */
  lemma NotExactly(ty: Ty, a: int, m: Cpu)
    requires Sized(ty) && m.Get(Rax) == U(a)
    ensures Leaves(Work(Not, ty), m, U(-1 - a))
    ensures Leaves(Work(Not, ty), m, U(Wrap(ty, -1 - a))) <==> Fits(ty, -1 - a)
    ensures InRange(ty, a) ==> (Fits(ty, -1 - a) <==> IsSigned(ty) || Bits(ty) == 64)
  {
    NotLeaves(a, m);
    FitsExactly(ty, -1 - a);
    if InRange(ty, a) {
      NotFits(ty, a);
    }
  }

  lemma NotLeaves(a: int, m: Cpu)
    requires m.Get(Rax) == U(a)
    ensures Leaves([NotR(Rax)], m, U(-1 - a))
  {
    WordSum(-1, a);
    One(NotR(Rax), m);
  }

  lemma NotFits(ty: Ty, a: int)
    requires Sized(ty) && InRange(ty, a)
    ensures Fits(ty, -1 - a) <==> IsSigned(ty) || Bits(ty) == 64
  {
  }

  lemma ShlExactly(ty: Ty, a: int, n: nat, m: Cpu)
    requires Sized(ty) && n < 64 && m.Get(Rax) == U(a) && m.Get(Rcx) == U(n)
    ensures Leaves(Work(Bin(Shl), ty), m, U(Times(a, Pow2(n))))
    ensures Leaves(Work(Bin(Shl), ty), m, U(Wrap(ty, Times(a, Pow2(n))))) <==> Fits(ty, Times(a, Pow2(n)))
  {
    ShlWordLeft(ty, a, n, m);
    FitsExactly(ty, Times(a, Pow2(n)));
  }

  lemma ShlWordLeft(ty: Ty, a: int, n: nat, m: Cpu)
    requires n < 64 && m.Get(Rax) == U(a) && m.Get(Rcx) == U(n)
    ensures Leaves(Work(Bin(Shl), ty), m, U(Times(a, Pow2(n))))
  {
    assert m.Get(Rcx) % 64 == n;
    One(Shift(ShlCl), m);
    var y := Times(a, Pow2(n));
    assert U(Times(U(a), Pow2(n))) == U(y) by {
      ShlWord(a, Pow2(n));
    }
  }

  lemma BinInRange(op: BinOp, ty: Ty, a: int, b: int)
    requires Sized(ty) && InRange(ty, a) && BinValue(op, ty, a, b).Some? && (!IsShift(op) ==> InRange(ty, b))
    ensures InRange(ty, BinValue(op, ty, a, b).value)
  {
    match op
    case Add => WrapInRange(ty, a + b);
    case Sub => WrapInRange(ty, a - b);
    case Mul => WrapInRange(ty, Times(a, b));
    case SDiv => WrapInRange(ty, TDiv(a, b));
    case SRem => WrapInRange(ty, TRem(a, b));
    case UDiv => UnsignedQuotient(ty, a, b);
    case URem => UnsignedQuotient(ty, a, b);
    case And => BitwiseInRange(op, ty, a, b);
    case Or => BitwiseInRange(op, ty, a, b);
    case Xor => BitwiseInRange(op, ty, a, b);
    case Shl => WrapInRange(ty, Times(a, Pow2(b)));
    case LShr => FloorShrinks(a, Pow2(b));
    case AShr => FloorShrinks(a, Pow2(b));
    case _ =>
  }

  /** The value of every modelled instruction is in the range of its type. */
  lemma ValueInRange(op: Op, ty: Ty, tys: seq<Ty>, a: seq<int>)
    requires |tys| == |a| && InstValue(op, ty, tys, a).Some?
    requires forall k :: 0 <= k < |a| ==> InRange(tys[k], a[k])
    ensures Sized(ty) && InRange(ty, InstValue(op, ty, tys, a).value)
  {
    match op
    case Bin(b) => BinInRange(b, ty, a[0], a[1]);
    case Cmp(c) => BitInRange(c, ty, IsSigned(tys[0]), a[0], a[1]);
    case Neg => WrapInRange(ty, -a[0]);
    case Not => WrapInRange(ty, -1 - a[0]);
    case Cast => WrapInRange(ty, a[0]);
    case _ =>
  }

  lemma BitInRange(c: CmpOp, ty: Ty, signed: bool, a: int, b: int)
    requires Sized(ty) && CmpValue(c, signed, a, b).Some?
    ensures InRange(ty, CmpValue(c, signed, a, b).value)
  {
  }

  lemma BinRight(op: BinOp, ty: Ty, a: int, b: int, m: Cpu)
    requires Sized(ty) && InRange(ty, a) && BinValue(op, ty, a, b).Some? && (!IsShift(op) ==> InRange(ty, b))
    requires m.Get(Rax) == U(a) && m.Get(Rcx) == U(b)
    ensures Leaves(Work(Bin(op), ty), m, U(BinValue(op, ty, a, b).value))
  {
    match op
    case Add => AddRight(ty, a, b, m);
    case Sub => SubRight(ty, a, b, m);
    case Mul => MulRight(ty, a, b, m);
    case And => BitwiseRight(op, AAnd, ty, a, b, m);
    case Or => BitwiseRight(op, AOr, ty, a, b, m);
    case Xor => BitwiseRight(op, AXor, ty, a, b, m);
    case SDiv => DivisionRight(op, ty, a, b, m);
    case UDiv => DivisionRight(op, ty, a, b, m);
    case SRem => DivisionRight(op, ty, a, b, m);
    case URem => DivisionRight(op, ty, a, b, m);
    case _ => ShiftRight(op, ty, a, b, m);
  }

  /** All of them together: with the operands in rax and rcx, the result comes out in rax. */
  lemma WorkRight(op: Op, ty: Ty, tys: seq<Ty>, a: seq<int>, m: Cpu)
    requires |tys| == |a| && InstValue(op, ty, tys, a).Some?
    requires forall k :: 0 <= k < |a| ==> InRange(tys[k], a[k])
    requires |a| > 0 ==> m.Get(Rax) == U(a[0])
    requires |a| > 1 ==> m.Get(Rcx) == U(a[1])
    ensures Leaves(Work(op, ty), m, U(InstValue(op, ty, tys, a).value))
  {
    match op
    case ConstInt(k) => One(MovImm(Rax, k), m);
    case Bin(b) => BinRight(b, ty, a[0], a[1], m);
    case Cmp(c) => CmpRight(c, tys[0], a[0], a[1], m);
    case Neg => NegRight(ty, a[0], m);
    case Not => NotExactly(ty, a[0], m);
    case Cast => NarrowRight(ty, a[0], m);
    case _ =>
  }
}
