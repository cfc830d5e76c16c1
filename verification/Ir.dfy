/** The IR function that `st_ir.h` describes: instructions and blocks, pointing at each other.
    A pointer to an instruction is its `id` and a pointer to a block is its `id`; both are
    handed out from counters, so they are positions in the two tables below. */
module Ir {
  import opened Wrappers
  import opened Cfg

  type Id = nat
  /** The `void *` key under which the lowering knows a source variable. */
  type Var = nat

  datatype Ty = Int(width: nat, signed: bool) | Bool | Other

  datatype BinOp = Add | Sub | Mul | SDiv | UDiv | SRem | URem | And | Or | Xor | Shl | LShr | AShr
                 | FloatBin
  datatype CmpOp = Eq | Ne | Slt | Sle | Sgt | Sge | Ult | Ule | Ugt | Uge | FloatCmp

  /** Instruction kinds. Kinds that the code treats alike in the modelled passes share one
      constructor: `Leaf` stands for those without operands. */
  datatype Op =
    | ConstInt(value: int)
    | Bin(bin: BinOp)
    | Cmp(cmp: CmpOp)
    | Neg | Not | FNeg
    | Cast
    | Call | CallIndirect | Extract | MemArg
    | Phi
    | Load | Store | Addr | InlineAsm
    | Leaf

  /** `args` are the operands in order (for a phi: `values`, with `from` the `preds` array
      beside it). */
  datatype Inst = Inst(op: Op, ty: Ty, block: BlockId, args: seq<Id>, from: seq<BlockId>,
                       repl: Option<Id>, removed: bool)

  datatype Term =
    | NoTerm
    | Ret(rets: seq<Id>)
    | Br(target: BlockId)
    | CondBr(cond: Id, ifTrue: BlockId, ifFalse: BlockId)
    | Unreachable

  /** `list` is the linked list of instructions that are still in the block. */
  datatype Block = Block(list: seq<Id>, preds: seq<BlockId>, term: Term, isSealed: bool,
                         varDefs: map<Var, Id>, pending: seq<(Var, Id)>)

  datatype Fn = Fn(insts: seq<Inst>, blocks: seq<Block>)

  /** The kinds whose operands `ST_ir_replace_all_uses` rewrites. Loads, stores and address
      computations are not among them. */
  predicate UsesRewritten(op: Op) {
    !(op.Load? || op.Store? || op.Addr? || op.InlineAsm? || op.ConstInt? || op.Leaf?)
  }

  function Subst(ids: seq<Id>, a: Id, c: Id): (r: seq<Id>)
    ensures |r| == |ids|
    ensures forall i :: 0 <= i < |ids| ==> r[i] == if ids[i] == a then c else ids[i]
  {
    seq(|ids|, i requires 0 <= i < |ids| => if ids[i] == a then c else ids[i])
  }
}
