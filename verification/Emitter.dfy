/** The back end as it runs: it walks the lists and appends to its output. What comes out is
    the code that `Codegen` describes. */
module Emitter {
  import opened Cfg
  import opened Ir
  import opened Word
  import opened Wrappers
  import opened Asm
  import opened IrSem
  import opened Codegen

  /** Following `repl` from `v` ends at `root[v]`; `height` counts down. */
  ghost predicate ChainFrom(f: Fn, root: seq<Id>, height: seq<nat>, v: Id) {
    v < |f.insts| && |root| == |height| == |f.insts| ==>
      match f.insts[v].repl
      case None => root[v] == v
      case Some(u) => u < |f.insts| && root[u] == root[v] && height[u] < height[v]
  }

  ghost predicate Chained(f: Fn, root: seq<Id>, height: seq<nat>) {
    |root| == |height| == |f.insts| && forall v :: ChainFrom(f, root, height, v)
  }

  /** What the walk over the function needs: operands exist and targets are blocks. */
  ghost predicate Emittable(f: Fn) {
    && (forall v, k :: 0 <= v < |f.insts| && 0 <= k < |f.insts[v].args| ==> f.insts[v].args[k] < |f.insts|)
    && (forall b, v :: 0 <= b < |f.blocks| && v in f.blocks[b].list ==> v < |f.insts|)
    && (forall b :: 0 <= b < |f.blocks| ==> TermOperands(f, f.blocks[b].term))
  }

  ghost predicate TermOperands(f: Fn, t: Term) {
    match t
    case Ret(rets) => forall k :: 0 <= k < |rets| ==> rets[k] < |f.insts|
    case Br(a) => a < |f.blocks|
    case CondBr(c, a, b) => c < |f.insts| && a < |f.blocks| && b < |f.blocks|
    case _ => true
  }

  class Writer {
    const f: Fn
    ghost const root: seq<Id>
    ghost const height: seq<nat>
    var out: seq<Instr>

    ghost predicate Ready() {
      Chained(f, root, height) && Emittable(f)
    }

    constructor (fn: Fn, ghost r: seq<Id>, ghost h: seq<nat>)
      requires Chained(fn, r, h) && Emittable(fn)
      ensures Ready() && f == fn && root == r && height == h && out == []
    {
      f, root, height, out := fn, r, h, [];
    }

    /** ST_slot. */
    method Slot(v: Id) returns (off: int)
      requires Ready() && v < |f.insts|
      ensures off == SlotOff(root, v)
    {
      var u: Id := v;
      assert ChainFrom(f, root, height, u);
      while f.insts[u].repl.Some?
        invariant |root| == |height| == |f.insts| && u < |f.insts|
        invariant root[u] == root[v] && ChainFrom(f, root, height, u)
        decreases height[u]
      {
        u := f.insts[u].repl.value;
        assert ChainFrom(f, root, height, u);
      }
      off := -8 * (u + 1);
    }

    method Put(code: seq<Instr>)
      modifies this
      ensures out == old(out) + code
    {
      out := out + code;
    }

    method Load(d: Reg, v: Id)
      requires Ready() && v < |f.insts|
      modifies this
      ensures out == old(out) + [LoadFrom(root, d, v)]
    {
      var off := Slot(v);
      out := out + [Ld(d, Rbp, off)];
    }

    /** ST_truncate_int. */
    method TruncateInt(ty: Ty)
      modifies this
      ensures out == old(out) + Truncate(ty)
    {
      if !ty.Int? || ty.width >= 64 {
        return;
      }
      if ty.width == 32 {
        out := out + [Extend(32, ty.signed)];
      } else if ty.width == 16 {
        out := out + [Extend(16, ty.signed)];
      } else if ty.width == 8 {
        out := out + [Extend(8, ty.signed)];
      }
    }

    /** ST_int_narrow: by the size of the type in bytes. */
    method IntNarrow(ty: Ty)
      modifies this
      ensures out == old(out) + Narrow(ty)
    {
      if Bits(ty) == 8 {
        out := out + [Extend(8, IsSigned(ty))];
      } else if Bits(ty) == 16 {
        out := out + [Extend(16, IsSigned(ty))];
      } else if Bits(ty) == 32 {
        out := out + [Extend(32, IsSigned(ty))];
      }
    }

    /** One instruction and the cut to the type. */
    method Cut(i: Instr, ty: Ty)
      modifies this
      ensures out == old(out) + ([i] + Truncate(ty))
    {
      Put([i]);
      TruncateInt(ty);
    }

    /** The division instructions: the dividend is widened first, and the remainder is in rdx. */
    method Divide(widen: Instr, divide: Instr, remainder: bool, ty: Ty)
      modifies this
      ensures out == old(out) + ([widen, divide] + (if remainder then [Mov(Rax, Rdx)] else []) + Truncate(ty))
    {
      hide Truncate;
      Put([widen]);
      Put([divide]);
      assert out == old(out) + [widen, divide];
      ghost var tail := if remainder then [Mov(Rax, Rdx)] else [];
      if remainder {
        Put([Mov(Rax, Rdx)]);
      }
      assert out == old(out) + ([widen, divide] + tail);
      TruncateInt(ty);
    }

    /** The operators, between the loads of their operands and the spill. */
    method BinOperation(op: BinOp, ty: Ty)
      modifies this
      ensures out == old(out) + Work(Bin(op), ty)
    {
      hide Truncate;
      match op
      case Add => Cut(Alu(AAdd, Rax, Rcx), ty);
      case Sub => Cut(Alu(ASub, Rax, Rcx), ty);
      case Mul => Cut(Alu(AMul, Rax, Rcx), ty);
      case SDiv => Divide(Cqo, Idiv(Rcx), false, ty); assert [Cqo, Idiv(Rcx)] + [] == [Cqo, Idiv(Rcx)];
      case UDiv => Divide(ZeroEdx, Div(Rcx), false, ty); assert [ZeroEdx, Div(Rcx)] + [] == [ZeroEdx, Div(Rcx)];
      case SRem =>
        Divide(Cqo, Idiv(Rcx), true, ty);
        assert [Cqo, Idiv(Rcx)] + [Mov(Rax, Rdx)] == [Cqo, Idiv(Rcx), Mov(Rax, Rdx)];
      case URem =>
        Divide(ZeroEdx, Div(Rcx), true, ty);
        assert [ZeroEdx, Div(Rcx)] + [Mov(Rax, Rdx)] == [ZeroEdx, Div(Rcx), Mov(Rax, Rdx)];
      case And => Put([Alu(AAnd, Rax, Rcx)]);
      case Or => Put([Alu(AOr, Rax, Rcx)]);
      case Xor => Put([Alu(AXor, Rax, Rcx)]);
      case Shl => Put([Shift(ShlCl)]);
      case LShr => Put([Shift(ShrCl)]);
      case AShr => Put([Shift(SarCl)]);
      case FloatBin => Put([Ud2]);
    }

    /** ST_icmp. */
    method Icmp(setcc: Cond)
      modifies this
      ensures out == old(out) + [Asm.Cmp(Rax, Rcx), SetAl(setcc), Extend(8, false)]
    {
      Put([Asm.Cmp(Rax, Rcx)]);
      Put([SetAl(setcc)]);
      Put([Extend(8, false)]);
    }

    /** The switch of ST_generate_inst, without the loads and the spill. */
    method Operation(op: Op, ty: Ty)
      modifies this
      ensures out == old(out) + Work(op, ty)
    {
      hide Truncate, Narrow;
      match op
      case ConstInt(k) => Put([MovImm(Rax, k)]);
      case Bin(b) => BinOperation(b, ty);
      case Cmp(c) =>
        match c {
          case Eq => Icmp(E);
          case Ne => Icmp(NE);
          case Slt => Icmp(L);
          case Sle => Icmp(LE);
          case Sgt => Icmp(G);
          case Sge => Icmp(GE);
          case Ult => Icmp(B);
          case Ule => Icmp(BE);
          case Ugt => Icmp(A);
          case Uge => Icmp(AE);
          case FloatCmp => Icmp(AE);
        }
      case Neg => Cut(NegR(Rax), ty);
      case Not => Put([NotR(Rax)]);
      case Cast => IntNarrow(ty);
      case _ => Put([Ud2]);
    }

    /** ST_generate_inst: operands into rax and rcx, the operation, the spill. */
    method GenerateInst(v: Id)
      requires Ready() && v < |f.insts|
      modifies this
      ensures out == old(out) + InstCode(f, root, v)
    {
      var i := f.insts[v];
      if i.removed || i.op.Phi? {
        return;
      }
      if |i.args| >= 1 {
        Load(Rax, i.args[0]);
      }
      if |i.args| >= 2 {
        Load(Rcx, i.args[1]);
      }
      assert out == old(out) + Loads(root, i.args);
      Operation(i.op, i.ty);
      var off := Slot(v);
      out := out + [St(Rbp, off, Rax)];
      assert out == old(out) + (Loads(root, i.args) + Work(i.op, i.ty) + [Spill(root, v)]);
    }

    /** ST_generate_phi_copies: forwards over the list pushing, backwards popping. */
    method GeneratePhiCopies(from: BlockId, to: BlockId)
      requires Ready() && to < |f.blocks|
      modifies this
      ensures out == old(out) + PhiCopies(f, root, from, to)
    {
      hide PushCode, PopCode;
      var list := f.blocks[to].list;
      PushIncoming(from, to);
      PopPhis(from, to);
      assert out == old(out) + (PushCode(f, root, from, list) + PopCode(f, root, from, list));
    }

    /** Its first loop. */
    method PushIncoming(from: BlockId, to: BlockId)
      requires Ready() && to < |f.blocks|
      modifies this
      ensures out == old(out) + PushCode(f, root, from, f.blocks[to].list)
    {
      var list := f.blocks[to].list;
      var i := 0;
      while i < |list|
        invariant 0 <= i <= |list|
        invariant out + PushCode(f, root, from, list[i..]) == old(out) + PushCode(f, root, from, list)
      {
        assert list[i] in f.blocks[to].list && list[i..][1..] == list[i + 1..];
        ghost var before := out;
        if Copied(f, from, list[i]) {
          IncomingInRange(f, from, list[i]);
          Load(Rax, Incoming(f.insts[list[i]], from).value);
          out := out + [Push(Rax)];
        }
        assert out + PushCode(f, root, from, list[i + 1..]) == before + PushCode(f, root, from, list[i..]);
        i := i + 1;
      }
    }

    /** Its second loop. */
    method PopPhis(from: BlockId, to: BlockId)
      requires Ready() && to < |f.blocks|
      modifies this
      ensures out == old(out) + PopCode(f, root, from, f.blocks[to].list)
    {
      var list := f.blocks[to].list;
      var i := |list|;
      while i > 0
        invariant 0 <= i <= |list|
        invariant out == old(out) + PopCode(f, root, from, list[i..])
      {
        i := i - 1;
        assert list[i] in f.blocks[to].list && list[i..][1..] == list[i + 1..];
        if Copied(f, from, list[i]) {
          var off := Slot(list[i]);
          out := out + [Pop(Rax), St(Rbp, off, Rax)];
        }
      }
      assert list[0..] == list;
    }

    /** ST_edge_has_phi. */
    method EdgeHasPhi(to: BlockId) returns (found: bool)
      requires to < |f.blocks|
      ensures found == HasPhi(f, f.blocks[to].list)
    {
      var list := f.blocks[to].list;
      var i := 0;
      while i < |list|
        invariant 0 <= i <= |list|
        invariant HasPhi(f, list) == HasPhi(f, list[i..])
      {
        assert list[i..][1..] == list[i + 1..];
        if list[i] < |f.insts| && !f.insts[list[i]].removed && f.insts[list[i]].op.Phi? {
          return true;
        }
        i := i + 1;
      }
      return false;
    }

    /** ST_generate_term. */
    method GenerateTerm(b: BlockId)
      requires Ready() && b < |f.blocks|
      modifies this
      ensures out == old(out) + TermCode(f, root, b)
    {
      assert TermOperands(f, f.blocks[b].term);
      match f.blocks[b].term
      case Br(t) =>
        GeneratePhiCopies(b, t);
        out := out + [Jmp(BlockLabel(t))];
        assert out == old(out) + (PhiCopies(f, root, b, t) + [Jmp(BlockLabel(t))]);
      case CondBr(c, t, e) => GenerateCondBr(b, c, t, e);
      case Ret(rets) => GenerateRet(b, rets);
      case _ => out := out + [Ud2];
    }

    /** Its case of a conditional branch. */
    method GenerateCondBr(b: BlockId, c: Id, t: BlockId, e: BlockId)
      requires Ready() && b < |f.blocks| && f.blocks[b].term == CondBr(c, t, e) && TermOperands(f, f.blocks[b].term)
      modifies this
      ensures out == old(out) + TermCode(f, root, b)
    {
      hide PhiCopies;
      Load(Rax, c);
      out := out + [Test(Rax, Rax)];
      ghost var head := [LoadFrom(root, Rax, c), Test(Rax, Rax)];
      assert out == old(out) + head;
      ghost var taken := PhiCopies(f, root, b, t) + [Jmp(BlockLabel(t))];
      var copies := EdgeHasPhi(e);
      out := out + [Jz(if copies then EdgeLabel(b) else BlockLabel(e))];
      GeneratePhiCopies(b, t);
      out := out + [Jmp(BlockLabel(t))];
      if copies {
        out := out + [Lbl(EdgeLabel(b))];
        GeneratePhiCopies(b, e);
        out := out + [Jmp(BlockLabel(e))];
        assert out == old(out) + (head + ([Jz(EdgeLabel(b))] + PhiCopies(f, root, b, t) + [Jmp(BlockLabel(t))]
          + [Lbl(EdgeLabel(b))] + PhiCopies(f, root, b, e) + [Jmp(BlockLabel(e))]));
      } else {
        assert out == old(out) + (head + ([Jz(BlockLabel(e))] + PhiCopies(f, root, b, t) + [Jmp(BlockLabel(t))]));
      }
    }

    /** Its case of a return. */
    method GenerateRet(b: BlockId, rets: seq<Id>)
      requires Ready() && b < |f.blocks| && f.blocks[b].term == Term.Ret(rets) && TermOperands(f, f.blocks[b].term)
      modifies this
      ensures out == old(out) + TermCode(f, root, b)
    {
      if |rets| > 2 {
        out := out + [Ud2];
      } else {
        if |rets| >= 1 {
          Load(Rax, rets[0]);
        }
        if |rets| >= 2 {
          Load(Rdx, rets[1]);
        }
        assert out == old(out) + RetLoads(root, rets);
        out := out + [Leave, Asm.Ret];
        assert out == old(out) + (RetLoads(root, rets) + [Leave, Asm.Ret]);
      }
    }

    /** ST_generate_fn: prologue, then every block in order. */
    method GenerateFn()
      requires Ready()
      modifies this
      ensures out == old(out) + FnCode(f, root)
    {
      hide Prologue, BlockCode, TermCode;
      out := out + Prologue(f);
      var b := 0;
      Join(old(out), Prologue(f), BlocksCode(f, root, 0));
      while b < |f.blocks|
        invariant 0 <= b <= |f.blocks|
        invariant out + BlocksCode(f, root, b) == old(out) + FnCode(f, root)
      {
        Join(out, BlockCode(f, root, b), BlocksCode(f, root, b + 1));
        GenerateBlock(b);
        b := b + 1;
      }
      assert out + [] == out;
    }

    /** The inner loop, along one block's list. */
    method GenerateInsts(list: seq<Id>)
      requires Ready() && forall v :: v in list ==> v < |f.insts|
      modifies this
      ensures out == old(out) + InstsCode(f, root, list)
    {
      hide InstCode;
      var i := 0;
      assert list[0..] == list;
      while i < |list|
        invariant 0 <= i <= |list|
        invariant out + InstsCode(f, root, list[i..]) == old(out) + InstsCode(f, root, list)
      {
        assert list[i] in list && list[i..][1..] == list[i + 1..];
        Join(out, InstCode(f, root, list[i]), InstsCode(f, root, list[i + 1..]));
        GenerateInst(list[i]);
        i := i + 1;
      }
      assert out + [] == out;
    }

    method GenerateBlock(b: BlockId)
      requires Ready() && b < |f.blocks|
      modifies this
      ensures out == old(out) + BlockCode(f, root, b)
    {
      hide InstsCode, TermCode;
      out := out + [Lbl(BlockLabel(b))];
      GenerateInsts(f.blocks[b].list);
      GenerateTerm(b);
      Join(old(out), [Lbl(BlockLabel(b))], InstsCode(f, root, f.blocks[b].list));
      Join(old(out), [Lbl(BlockLabel(b))] + InstsCode(f, root, f.blocks[b].list), TermCode(f, root, b));
    }
  }

  lemma Join(a: seq<Instr>, b: seq<Instr>, c: seq<Instr>)
    ensures a + b + c == a + (b + c)
  {
  }

  lemma IncomingInRange(f: Fn, from: BlockId, p: Id)
    requires Copied(f, from, p) && Emittable(f)
    ensures Incoming(f.insts[p], from).value < |f.insts|
  {
    IncomingIsOperand(f.insts[p].args, f.insts[p].from, from);
  }

  lemma {:induction false} IncomingIsOperand(args: seq<Id>, preds: seq<BlockId>, from: BlockId)
    requires IncomingAt(args, preds, from).Some?
    ensures IncomingAt(args, preds, from).value in args
  {
    if preds[0] != from {
      IncomingIsOperand(args[1..], preds[1..], from);
    }
  }
}
