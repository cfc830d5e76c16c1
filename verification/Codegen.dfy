/** The code that the System V back end emits for the modelled part of the IR. */
module Codegen {
  import opened Cfg
  import opened Ir
  import opened Word
  import opened Asm
  import opened IrSem

  /** ST_slot: every value owns the word at rbp - 8 (id + 1), where id is that of the end of
      its `repl` chain. */
  function SlotOff(root: seq<Id>, v: Id): int {
    -8 * ((if v < |root| then root[v] else v) + 1)
  }

  /** ST_load and the spill at the end of ST_generate_inst. */
  function LoadFrom(root: seq<Id>, d: Reg, v: Id): Instr {
    Ld(d, Rbp, SlotOff(root, v))
  }

  function Spill(root: seq<Id>, v: Id): Instr {
    St(Rbp, SlotOff(root, v), Rax)
  }

  /** ST_truncate_int. */
  function Truncate(ty: Ty): seq<Instr> {
    if ty.Int? && ty.width in {8, 16, 32} then [Extend(ty.width, ty.signed)] else []
  }

  /** ST_int_narrow. */
  function Narrow(ty: Ty): seq<Instr> {
    if Bits(ty) in {8, 16, 32} then [Extend(Bits(ty), IsSigned(ty))] else []
  }

  function SetCc(op: CmpOp): Cond {
    match op
    case Eq => E
    case Ne => NE
    case Slt => L
    case Sle => LE
    case Sgt => G
    case Sge => GE
    case Ult => B
    case Ule => BE
    case Ugt => A
    case _ => AE
  }

  /** What ST_generate_inst puts between the loads of the operands and the spill. */
  function Work(op: Op, ty: Ty): seq<Instr> {
    match op
    case ConstInt(k) => [MovImm(Rax, k)]
    case Bin(Add) => [Alu(AAdd, Rax, Rcx)] + Truncate(ty)
    case Bin(Sub) => [Alu(ASub, Rax, Rcx)] + Truncate(ty)
    case Bin(Mul) => [Alu(AMul, Rax, Rcx)] + Truncate(ty)
    case Bin(SDiv) => [Cqo, Idiv(Rcx)] + Truncate(ty)
    case Bin(UDiv) => [ZeroEdx, Div(Rcx)] + Truncate(ty)
    case Bin(SRem) => [Cqo, Idiv(Rcx), Mov(Rax, Rdx)] + Truncate(ty)
    case Bin(URem) => [ZeroEdx, Div(Rcx), Mov(Rax, Rdx)] + Truncate(ty)
    case Bin(And) => [Alu(AAnd, Rax, Rcx)]
    case Bin(Or) => [Alu(AOr, Rax, Rcx)]
    case Bin(Xor) => [Alu(AXor, Rax, Rcx)]
    case Bin(Shl) => [Shift(ShlCl)]
    case Bin(LShr) => [Shift(ShrCl)]
    case Bin(AShr) => [Shift(SarCl)]
    case Cmp(c) => [Asm.Cmp(Rax, Rcx), SetAl(SetCc(c)), Extend(8, false)]
    case Neg => [NegR(Rax)] + Truncate(ty)
    case Not => [NotR(Rax)]
    case Cast => Narrow(ty)
    case _ => [Ud2]
  }

  function Loads(root: seq<Id>, args: seq<Id>): seq<Instr> {
    if |args| == 0 then [] else if |args| == 1 then [LoadFrom(root, Rax, args[0])]
    else [LoadFrom(root, Rax, args[0]), LoadFrom(root, Rcx, args[1])]
  }

  /** ST_generate_inst: nothing for removed instructions and phis. */
  function InstCode(f: Fn, root: seq<Id>, v: Id): seq<Instr> {
    if v >= |f.insts| || f.insts[v].removed || f.insts[v].op.Phi? then []
    else Loads(root, f.insts[v].args) + Work(f.insts[v].op, f.insts[v].ty) + [Spill(root, v)]
  }

  function InstsCode(f: Fn, root: seq<Id>, list: seq<Id>): seq<Instr> {
    if list == [] then [] else InstCode(f, root, list[0]) + InstsCode(f, root, list[1..])
  }

  /** The first loop of ST_generate_phi_copies: push the incoming values, first phi first. */
  function PushCode(f: Fn, root: seq<Id>, from: BlockId, list: seq<Id>): seq<Instr> {
    if list == [] then []
    else
      (if Copied(f, from, list[0]) then [LoadFrom(root, Rax, Incoming(f.insts[list[0]], from).value), Push(Rax)] else [])
      + PushCode(f, root, from, list[1..])
  }

  /** The second loop: pop into the phis, last phi first. */
  function PopCode(f: Fn, root: seq<Id>, from: BlockId, list: seq<Id>): seq<Instr> {
    if list == [] then []
    else
      PopCode(f, root, from, list[1..])
      + (if Copied(f, from, list[0]) then [Pop(Rax), Spill(root, list[0])] else [])
  }

  function PhiCopies(f: Fn, root: seq<Id>, from: BlockId, to: BlockId): seq<Instr> {
    if to >= |f.blocks| then []
    else PushCode(f, root, from, f.blocks[to].list) + PopCode(f, root, from, f.blocks[to].list)
  }

  /** ST_edge_has_phi. */
  predicate HasPhi(f: Fn, list: seq<Id>) {
    list != [] && ((list[0] < |f.insts| && !f.insts[list[0]].removed && f.insts[list[0]].op.Phi?) || HasPhi(f, list[1..]))
  }

  function RetLoads(root: seq<Id>, rets: seq<Id>): seq<Instr> {
    if |rets| == 0 then [] else if |rets| == 1 then [LoadFrom(root, Rax, rets[0])]
    else [LoadFrom(root, Rax, rets[0]), LoadFrom(root, Rdx, rets[1])]
  }

  /** ST_generate_term. */
  function TermCode(f: Fn, root: seq<Id>, b: BlockId): seq<Instr>
    requires b < |f.blocks|
  {
    match f.blocks[b].term
    case Br(t) => PhiCopies(f, root, b, t) + [Jmp(BlockLabel(t))]
    case CondBr(c, t, e) =>
      [LoadFrom(root, Rax, c), Test(Rax, Rax)] +
      (if e < |f.blocks| && HasPhi(f, f.blocks[e].list) then
         [Jz(EdgeLabel(b))] + PhiCopies(f, root, b, t) + [Jmp(BlockLabel(t))]
         + [Lbl(EdgeLabel(b))] + PhiCopies(f, root, b, e) + [Jmp(BlockLabel(e))]
       else
         [Jz(BlockLabel(e))] + PhiCopies(f, root, b, t) + [Jmp(BlockLabel(t))])
    case Ret(rets) => if |rets| <= 2 then RetLoads(root, rets) + [Leave, Asm.Ret] else [Ud2]
    case _ => [Ud2]
  }

  function BlockCode(f: Fn, root: seq<Id>, b: BlockId): seq<Instr>
    requires b < |f.blocks|
  {
    [Lbl(BlockLabel(b))] + InstsCode(f, root, f.blocks[b].list) + TermCode(f, root, b)
  }

  function BlocksCode(f: Fn, root: seq<Id>, b: BlockId): seq<Instr>
    requires b <= |f.blocks|
    decreases |f.blocks| - b
  {
    if b == |f.blocks| then [] else BlockCode(f, root, b) + BlocksCode(f, root, b + 1)
  }

  /** The frame holds one word for each value, rounded up to 16 bytes. */
  function FrameSize(f: Fn): (n: int)
    ensures n % 16 == 0 && 8 * |f.insts| <= n < 8 * |f.insts| + 16
  {
    (8 * |f.insts| + 15) / 16 * 16
  }

  function Prologue(f: Fn): seq<Instr> {
    [Lbl(FnLabel), Push(Rbp), Mov(Rbp, Rsp), SubSp(FrameSize(f))]
  }

  function FnCode(f: Fn, root: seq<Id>): seq<Instr> {
    Prologue(f) + BlocksCode(f, root, 0)
  }
}
