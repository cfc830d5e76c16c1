/** What an IR function means, on the part of the IR that works on integers: values are
    integers in the range of their type, arithmetic wraps, and a phi takes the operand of the
    edge just taken. `None` stands for undefined behaviour (division by zero, overflow of the
    64-bit division), for kinds that are not modelled and for ill-typed code. */
module IrSem {
  import opened Cfg
  import opened Ir
  import opened Wrappers
  import opened Word

  type Env = map<Id, int>

  /** Whether a 64-bit result stands for the wrapped value without being cut down first. */
  predicate Fits(ty: Ty, x: int) {
    InRange(ty, if IsSigned(ty) then S(U(x)) else U(x))
  }

  function DivValue(op: BinOp, ty: Ty, a: int, b: int): Option<int> {
    if b == 0 || !ty.Int? then None
    else match op
      case SDiv => if ty.signed && !(ty.width == 64 && a == -(W / 2) && b == -1) then Some(Wrap(ty, TDiv(a, b))) else None
      case SRem => if ty.signed && !(ty.width == 64 && a == -(W / 2) && b == -1) then Some(Wrap(ty, TRem(a, b))) else None
      case UDiv => if !ty.signed then Some(FloorDiv(a, b)) else None
      case URem => if !ty.signed then Some(FloorMod(a, b)) else None
      case _ => None
  }

  function ShiftIntValue(op: BinOp, ty: Ty, a: int, n: int): Option<int> {
    if !(0 <= n < 64) || !ty.Int? then None
    else match op
      case Shl => if Fits(ty, Times(a, Pow2(n))) then Some(Wrap(ty, Times(a, Pow2(n)))) else None
      case LShr => if !ty.signed then Some(FloorDiv(a, Pow2(n))) else None
      case AShr => if ty.signed then Some(FloorDiv(a, Pow2(n))) else None
      case _ => None
  }

  function BinValue(op: BinOp, ty: Ty, a: int, b: int): Option<int> {
    match op
    case Add => if ty.Int? then Some(Wrap(ty, a + b)) else None
    case Sub => if ty.Int? then Some(Wrap(ty, a - b)) else None
    case Mul => if ty.Int? then Some(Wrap(ty, Times(a, b))) else None
    case SDiv => DivValue(op, ty, a, b)
    case UDiv => DivValue(op, ty, a, b)
    case SRem => DivValue(op, ty, a, b)
    case URem => DivValue(op, ty, a, b)
    case And => Some(IntBits(op, a, b, 64))
    case Or => Some(IntBits(op, a, b, 64))
    case Xor => Some(IntBits(op, a, b, 64))
    case FloatBin => None
    case _ => ShiftIntValue(op, ty, a, b)
  }

  function CmpValue(op: CmpOp, signed: bool, a: int, b: int): Option<int> {
    match op
    case Eq => Some(BitOf(a == b))
    case Ne => Some(BitOf(a != b))
    case FloatCmp => None
    case Slt => if signed then Some(BitOf(a < b)) else None
    case Sle => if signed then Some(BitOf(a <= b)) else None
    case Sgt => if signed then Some(BitOf(a > b)) else None
    case Sge => if signed then Some(BitOf(a >= b)) else None
    case Ult => if !signed then Some(BitOf(a < b)) else None
    case Ule => if !signed then Some(BitOf(a <= b)) else None
    case Ugt => if !signed then Some(BitOf(a > b)) else None
    case Uge => if !signed then Some(BitOf(a >= b)) else None
  }

  predicate IsShift(op: BinOp) {
    op in {Shl, LShr, AShr}
  }

  /** The value of an instruction of type `ty`, from operands `a` of types `tys`. */
  function InstValue(op: Op, ty: Ty, tys: seq<Ty>, a: seq<int>): Option<int>
    requires |tys| == |a|
  {
    if !Sized(ty) then None
    else match op
      case ConstInt(k) => if a == [] && InRange(ty, k) then Some(k) else None
      case Bin(b) =>
        if |a| == 2 && tys[0] == ty && (IsShift(b) || tys[1] == ty) then BinValue(b, ty, a[0], a[1]) else None
      case Cmp(c) =>
        if |a| == 2 && tys[0] == tys[1] && Sized(tys[0]) then CmpValue(c, IsSigned(tys[0]), a[0], a[1]) else None
      case Neg => if |a| == 1 && tys[0] == ty && ty.Int? then Some(Wrap(ty, -a[0])) else None
      case Not => if |a| == 1 && tys[0] == ty && ty.Int? && Fits(ty, -1 - a[0]) then Some(Wrap(ty, -1 - a[0])) else None
      case Cast => if |a| == 1 && Sized(tys[0]) then Some(Wrap(ty, a[0])) else None
      case _ => None
  }

  /** Operands are looked up through the end of their `repl` chain. */
  predicate Known(f: Fn, root: seq<Id>, env: Env, v: Id) {
    v < |root| && root[v] < |f.insts| && root[v] in env
  }

  function ValueOf(f: Fn, root: seq<Id>, env: Env, v: Id): int {
    if Known(f, root, env, v) then env[root[v]] else 0
  }

  function TypeOf(f: Fn, root: seq<Id>, v: Id): Ty {
    if v < |root| && root[v] < |f.insts| then f.insts[root[v]].ty else Other
  }

  function Values(f: Fn, root: seq<Id>, env: Env, args: seq<Id>): (r: seq<int>)
    ensures |r| == |args|
  {
    seq(|args|, k requires 0 <= k < |args| => ValueOf(f, root, env, args[k]))
  }

  function Types(f: Fn, root: seq<Id>, args: seq<Id>): (r: seq<Ty>)
    ensures |r| == |args|
  {
    seq(|args|, k requires 0 <= k < |args| => TypeOf(f, root, args[k]))
  }

  predicate AllKnown(f: Fn, root: seq<Id>, env: Env, args: seq<Id>) {
    forall k :: 0 <= k < |args| ==> Known(f, root, env, args[k])
  }

  function RunInst(f: Fn, root: seq<Id>, env: Env, v: Id): Option<Env> {
    if v >= |f.insts| then None
    else if f.insts[v].op.Phi? then Some(env)
    else
      var i := f.insts[v];
      if !AllKnown(f, root, env, i.args) then None
      else
        match InstValue(i.op, i.ty, Types(f, root, i.args), Values(f, root, env, i.args))
        case None => None
        case Some(x) => Some(env[v := x])
  }

  function RunInsts(f: Fn, root: seq<Id>, env: Env, list: seq<Id>): Option<Env>
    decreases |list|
  {
    if list == [] then Some(env)
    else
      match RunInst(f, root, env, list[0])
      case None => None
      case Some(env') => RunInsts(f, root, env', list[1..])
  }

  /** ST_phi_incoming: the operand for the first matching predecessor. */
  function Incoming(i: Inst, from: BlockId): Option<Id> {
    IncomingAt(i.args, i.from, from)
  }

  function IncomingAt(args: seq<Id>, preds: seq<BlockId>, from: BlockId): Option<Id> {
    if args == [] || preds == [] then None
    else if preds[0] == from then Some(args[0])
    else IncomingAt(args[1..], preds[1..], from)
  }

  predicate Copied(f: Fn, from: BlockId, p: Id) {
    p < |f.insts| && !f.insts[p].removed && f.insts[p].op.Phi? && Incoming(f.insts[p], from).Some?
  }

  /** Entering a block: all its phis take their values at once, from the environment `old`
      before the edge. A phi whose operand has no value loses its own. */
  function EnterPhis(f: Fn, root: seq<Id>, before: Env, env: Env, from: BlockId, list: seq<Id>): Env
    decreases |list|
  {
    if list == [] then env
    else
      var p := list[0];
      if !Copied(f, from, p) then EnterPhis(f, root, before, env, from, list[1..])
      else
        var v := Incoming(f.insts[p], from).value;
        if Known(f, root, before, v) && TypeOf(f, root, v) == f.insts[p].ty
        then EnterPhis(f, root, before, env[p := ValueOf(f, root, before, v)], from, list[1..])
        else EnterPhis(f, root, before, env - {p}, from, list[1..])
  }

  function Enter(f: Fn, root: seq<Id>, env: Env, from: BlockId, to: BlockId): Env {
    if to >= |f.blocks| then env else EnterPhis(f, root, env, env, from, f.blocks[to].list)
  }

  /** The function stands before the first instruction of a block, has returned, or is stuck. */
  datatype State = At(b: BlockId, env: Env) | Done(values: seq<int>, tys: seq<Ty>) | Stuck

  function RunTerm(f: Fn, root: seq<Id>, env: Env, b: BlockId): State
    requires b < |f.blocks|
  {
    match f.blocks[b].term
    case Br(t) => if t < |f.blocks| then At(t, Enter(f, root, env, b, t)) else Stuck
    case CondBr(c, t, e) =>
      if Known(f, root, env, c) && Sized(TypeOf(f, root, c)) && t < |f.blocks| && e < |f.blocks| then
        var next := if ValueOf(f, root, env, c) != 0 then t else e;
        At(next, Enter(f, root, env, b, next))
      else Stuck
    case Ret(rets) =>
      if |rets| <= 2 && AllKnown(f, root, env, rets) then Done(Values(f, root, env, rets), Types(f, root, rets))
      else Stuck
    case _ => Stuck
  }

  function RunBlock(f: Fn, root: seq<Id>, st: State): State {
    match st
    case At(b, env) =>
      if b >= |f.blocks| then Stuck
      else
        (match RunInsts(f, root, env, f.blocks[b].list)
         case None => Stuck
         case Some(env') => RunTerm(f, root, env', b))
    case _ => st
  }

  function Run(f: Fn, root: seq<Id>, st: State, n: nat): State
    decreases n
  {
    if n == 0 then st else RunBlock(f, root, Run(f, root, st, n - 1))
  }
}
