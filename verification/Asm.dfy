/** The part of an x86-64 machine that the back end's output uses. Registers and memory hold
    64-bit words; memory is addressed by the word, and all addresses that occur are multiples
    of 8 apart. */
module Asm {
  import opened Ir
  import opened Wrappers
  import opened Word

  datatype Reg = Rax | Rcx | Rdx | Rdi | Rsi | R8 | R9 | R10 | Rsp | Rbp

  datatype AluOp = AAdd | ASub | AMul | AAnd | AOr | AXor
  datatype Cond = E | NE | L | LE | G | GE | B | BE | A | AE
  datatype ShiftOp = ShlCl | ShrCl | SarCl
  datatype Label = FnLabel | BlockLabel(b: nat) | EdgeLabel(b: nat)

  datatype Instr =
    | MovImm(d: Reg, k: int)
    | Mov(d: Reg, r: Reg)
    | Ld(d: Reg, base: Reg, off: int)
    | St(base: Reg, off: int, r: Reg)
    | Lea(d: Reg, base: Reg, off: int)
    | Alu(op: AluOp, d: Reg, r: Reg)
    | NegR(d: Reg)
    | NotR(d: Reg)
    | Shift(shift: ShiftOp)
    | Cqo
    | Idiv(r: Reg)
    | ZeroEdx
    | Div(r: Reg)
    | Extend(width: nat, signed: bool)
    | Cmp(d: Reg, r: Reg)
    | Test(d: Reg, r: Reg)
    | SetAl(cc: Cond)
    | MovAl(k: int)
    | Push(r: Reg)
    | Pop(d: Reg)
    | SubSp(k: int)
    | AddSp(k: int)
    | LdX(x: nat, base: Reg, off: int)
    | StX(base: Reg, off: int, x: nat)
    | MovX(x: nat, y: nat)
    | LdSs(x: nat, base: Reg, off: int)
    | MovSs(x: nat, y: nat)
    | Sd2Ss(x: nat)
    | Ss2Sd(x: nat)
    | MovQ(d: Reg, x: nat)
    | Lbl(l: Label)
    | Jmp(l: Label)
    | Jz(l: Label)
    | Leave
    | Ret
    | Ud2

  datatype Flags = Flags(zf: bool, cf: bool, sf: bool, of: bool)

  /** Rounding a double to a single and widening a single, whatever they do to the bits. */
  datatype Fp = Fp(narrow: int -> int, widen: int -> int)

  datatype Cpu = Cpu(regs: map<Reg, Word64>, xmm: map<nat, Word64>, mem: map<int, Word64>, flags: Flags, fp: Fp)
  {
    function Get(r: Reg): Word64 {
      if r in regs then regs[r] else 0
    }

    function GetX(x: nat): Word64 {
      if x in xmm then xmm[x] else 0
    }

    function At(a: int): Word64 {
      if a in mem then mem[a] else 0
    }

    function Set(r: Reg, u: int): Cpu {
      this.(regs := regs[r := U(u)])
    }

    function SetX(x: nat, u: int): Cpu {
      this.(xmm := xmm[x := U(u)])
    }

    function Put(a: int, u: int): Cpu {
      this.(mem := mem[a := U(u)])
    }
  }

  /** cmp: the flags of the subtraction a - b. */
  function CmpFlags(a: int, b: int): Flags {
    var d := U(a - b);
    Flags(d == 0, a < b, d >= W / 2, S(a) - S(b) != S(d))
  }

  predicate Holds(cc: Cond, f: Flags) {
    match cc
    case E => f.zf
    case NE => !f.zf
    case L => f.sf != f.of
    case LE => f.zf || f.sf != f.of
    case G => !f.zf && f.sf == f.of
    case GE => f.sf == f.of
    case B => f.cf
    case BE => f.cf || f.zf
    case A => !f.cf && !f.zf
    case AE => !f.cf
  }

  function Low32(u: int): int {
    u % 0x1_0000_0000
  }

  function AluValue(op: AluOp, a: int, b: int): int {
    match op
    case AAdd => a + b
    case ASub => a - b
    case AMul => Times(a, b)
    case AAnd => WordBits(And, a, b, 64)
    case AOr => WordBits(Or, a, b, 64)
    case AXor => WordBits(Xor, a, b, 64)
  }

  function ShiftValue(op: ShiftOp, a: int, n: nat): int {
    match op
    case ShlCl => Times(a, Pow2(n))
    case ShrCl => FloorDiv(a, Pow2(n))
    case SarCl => FloorDiv(S(a), Pow2(n))
  }

  /** idiv: the signed dividend is in rdx and rax. */
  function ExecIdiv(m: Cpu, d: int): Option<Cpu> {
    var n := S(m.Get(Rdx)) * W + m.Get(Rax);
    if d == 0 || !(-(W / 2) <= TDiv(n, d) < W / 2) then None
    else Some(m.Set(Rax, TDiv(n, d)).Set(Rdx, TRem(n, d)))
  }

  /** div: the same, unsigned. */
  function ExecDiv(m: Cpu, d: int): Option<Cpu> {
    var n := m.Get(Rdx) * W + m.Get(Rax);
    if d == 0 || FloorDiv(n, d) >= W then None
    else Some(m.Set(Rax, FloorDiv(n, d)).Set(Rdx, FloorMod(n, d)))
  }

  function ExecSetAl(m: Cpu, bits: int): Cpu {
    m.Set(Rax, m.Get(Rax) - m.Get(Rax) % 0x100 + bits)
  }

  /** Replaces the low 32 bits of a register. */
  function SetLow(m: Cpu, x: nat, u: int): Cpu {
    m.SetX(x, m.GetX(x) - Low32(m.GetX(x)) + Low32(u))
  }

  /** One instruction that does not jump; None is a fault. */
  function Exec(i: Instr, m: Cpu): Option<Cpu> {
    match i
    case MovImm(d, k) => Some(m.Set(d, k))
    case Mov(d, r) => Some(m.Set(d, m.Get(r)))
    case Ld(d, base, off) => Some(m.Set(d, m.At(m.Get(base) + off)))
    case St(base, off, r) => Some(m.Put(m.Get(base) + off, m.Get(r)))
    case Lea(d, base, off) => Some(m.Set(d, m.Get(base) + off))
    case Alu(op, d, r) => Some(m.Set(d, AluValue(op, m.Get(d), m.Get(r))))
    case NegR(d) => Some(m.Set(d, 0 - m.Get(d)))
    case NotR(d) => Some(m.Set(d, -1 - m.Get(d)))
    case Shift(op) => Some(m.Set(Rax, ShiftValue(op, m.Get(Rax), m.Get(Rcx) % 64)))
    case Cqo => Some(m.Set(Rdx, if m.Get(Rax) >= W / 2 then -1 else 0))
    case Idiv(r) => ExecIdiv(m, S(m.Get(r)))
    case ZeroEdx => Some(m.Set(Rdx, 0))
    case Div(r) => ExecDiv(m, m.Get(r))
    case Extend(w, signed) => Some(m.Set(Rax, WrapBits(w, signed, m.Get(Rax))))
    case Cmp(a, b) => Some(m.(flags := CmpFlags(m.Get(a), m.Get(b))))
    case Test(a, b) =>
      var v := WordBits(And, m.Get(a), m.Get(b), 64);
      Some(m.(flags := Flags(v == 0, false, v >= W / 2, false)))
    case SetAl(cc) => Some(ExecSetAl(m, BitOf(Holds(cc, m.flags))))
    case MovAl(k) => Some(ExecSetAl(m, k % 0x100))
    case Push(r) => Some(m.Put(U(m.Get(Rsp) - 8), m.Get(r)).Set(Rsp, m.Get(Rsp) - 8))
    case Pop(d) => Some(m.Set(Rsp, m.Get(Rsp) + 8).Set(d, m.At(m.Get(Rsp))))
    case SubSp(k) => Some(m.Set(Rsp, m.Get(Rsp) - k))
    case AddSp(k) => Some(m.Set(Rsp, m.Get(Rsp) + k))
    case LdX(x, base, off) => Some(m.SetX(x, m.At(m.Get(base) + off)))
    case StX(base, off, x) => Some(m.Put(m.Get(base) + off, m.GetX(x)))
    case MovX(x, y) => Some(m.SetX(x, m.GetX(y)))
    case LdSs(x, base, off) => Some(m.SetX(x, Low32(m.At(m.Get(base) + off))))
    case MovSs(x, y) => Some(SetLow(m, x, m.GetX(y)))
    case Sd2Ss(x) => Some(SetLow(m, x, m.fp.narrow(m.GetX(x))))
    case Ss2Sd(x) => Some(m.SetX(x, m.fp.widen(Low32(m.GetX(x)))))
    case MovQ(d, x) => Some(m.Set(d, m.GetX(x)))
    case Leave => Some(m.Set(Rsp, m.Get(Rbp) + 8).Set(Rbp, m.At(m.Get(Rbp))))
    case Lbl(_) => Some(m)
    case _ => None
  }

  predicate Straight(i: Instr) {
    !(i.Jmp? || i.Jz? || i.Ret? || i.Ud2?)
  }

  /** A stretch of code without jumps. */
  function ExecAll(code: seq<Instr>, m: Cpu): Option<Cpu> {
    if code == [] then Some(m)
    else
      match Exec(code[0], m)
      case None => None
      case Some(m') => ExecAll(code[1..], m')
  }

  lemma {:induction false} ExecAppend(a: seq<Instr>, b: seq<Instr>, m: Cpu)
    ensures ExecAll(a + b, m) == match ExecAll(a, m) case None => None case Some(m') => ExecAll(b, m')
  {
    if a == [] {
      assert a + b == b;
    } else {
      assert (a + b)[0] == a[0] && (a + b)[1..] == a[1..] + b;
      match Exec(a[0], m)
      case None =>
      case Some(m') => ExecAppend(a[1..], b, m');
    }
  }

  // ----- whole programs -----

  datatype Conf = Running(pc: nat, m: Cpu) | Returned(to: int, m: Cpu) | Fault

  function Find(prog: seq<Instr>, l: Label): Option<nat> {
    FindFrom(prog, l, 0)
  }

  function FindFrom(prog: seq<Instr>, l: Label, i: nat): (r: Option<nat>)
    requires i <= |prog|
    ensures r.Some? ==> i <= r.value < |prog| && prog[r.value] == Lbl(l)
    decreases |prog| - i
  {
    if i == |prog| then None else if prog[i] == Lbl(l) then Some(i) else FindFrom(prog, l, i + 1)
  }

  function JumpTo(prog: seq<Instr>, l: Label, m: Cpu): Conf {
    match Find(prog, l)
    case None => Fault
    case Some(i) => Running(i, m)
  }

  function Step(prog: seq<Instr>, c: Conf): Conf {
    if !c.Running? then c
    else if c.pc >= |prog| then Fault
    else match prog[c.pc]
      case Jmp(l) => JumpTo(prog, l, c.m)
      case Jz(l) => if c.m.flags.zf then JumpTo(prog, l, c.m) else Running(c.pc + 1, c.m)
      case Ret => Returned(c.m.At(c.m.Get(Rsp)), c.m.Set(Rsp, c.m.Get(Rsp) + 8))
      case Ud2 => Fault
      case i => match Exec(i, c.m) case None => Fault case Some(m') => Running(c.pc + 1, m')
  }

  function Steps(prog: seq<Instr>, c: Conf, n: nat): Conf
    decreases n
  {
    if n == 0 then c else Steps(prog, Step(prog, c), n - 1)
  }

  lemma {:induction false} StepsAdd(prog: seq<Instr>, c: Conf, a: nat, b: nat)
    ensures Steps(prog, c, a + b) == Steps(prog, Steps(prog, c, a), b)
    decreases a
  {
    if a > 0 {
      StepsAdd(prog, Step(prog, c), a - 1, b);
    }
  }

  /** A straight stretch of a program runs as `ExecAll` says. */
  lemma {:induction false} RunStretch(prog: seq<Instr>, pc: nat, code: seq<Instr>, m: Cpu)
    requires pc + |code| <= |prog| && prog[pc..pc + |code|] == code
    requires forall i :: i in code ==> Straight(i)
    requires ExecAll(code, m).Some?
    ensures Steps(prog, Running(pc, m), |code|) == Running(pc + |code|, ExecAll(code, m).value)
    decreases |code|
  {
    if code != [] {
      assert prog[pc] == code[0];
      var m' := Exec(code[0], m).value;
      assert prog[pc + 1..pc + 1 + |code[1..]|] == code[1..];
      RunStretch(prog, pc + 1, code[1..], m');
    }
  }
}
