/** Running the emitted code does what the IR function means, for any number of blocks. */
module Simulation {
  import opened Cfg
  import opened Ir
  import opened Wrappers
  import opened Word
  import opened Asm
  import opened IrSem
  import opened Codegen
  import opened CodegenOps

  /** Where a function's frame lies: rbp is `base`, and below the frame there is room for
      pushing `room` words. */
  datatype Frame = Frame(base: int, size: int, values: nat, room: nat)

  predicate FrameOk(fr: Frame) {
    fr.size >= 8 * fr.values && fr.base - fr.size >= 8 * fr.room && fr.base < W
  }

  function SlotAddr(fr: Frame, v: Id): int {
    fr.base - 8 * (v + 1)
  }

  /** Every value that the IR has computed is in its slot, extended to a word. */
  ghost predicate InSlots(f: Fn, env: Env, m: Cpu, fr: Frame) {
    forall v :: v in env ==> v < |f.insts| && InRange(f.insts[v].ty, env[v]) && m.At(SlotAddr(fr, v)) == U(env[v])
  }

  ghost predicate Rel(f: Fn, env: Env, m: Cpu, fr: Frame) {
    && FrameOk(fr) && fr.values == |f.insts|
    && m.Get(Rbp) == fr.base && m.Get(Rsp) == fr.base - fr.size
    && InSlots(f, env, m, fr)
  }

  /** The code writes nothing in the caller's part of the stack and nothing in the part of the
      frame that does not hold values. */
  ghost predicate Outside(m: Cpu, m': Cpu, fr: Frame) {
    forall a :: a >= fr.base || fr.base - fr.size <= a < fr.base - 8 * fr.values ==> m'.At(a) == m.At(a)
  }

  /** What is needed of `root`: it leads to instructions, and those are not replaced. */
  predicate Rooting(f: Fn, root: seq<Id>) {
    && |root| == |f.insts|
    && forall v :: 0 <= v < |root| ==> root[v] < |root| && root[root[v]] == root[v]
                                       && (root[v] == v <==> !f.insts[v].removed)
  }

  /** Only register `d` has changed. */
  ghost predicate Loaded(m: Cpu, m': Cpu, d: Reg, u: int) {
    m'.mem == m.mem && m'.Get(d) == u && forall r :: r != d ==> m'.Get(r) == m.Get(r)
  }

  lemma LoadSlot(f: Fn, root: seq<Id>, env: Env, m: Cpu, fr: Frame, d: Reg, v: Id)
    requires Rooting(f, root) && Rel(f, env, m, fr) && Known(f, root, env, v) && d != Rbp && d != Rsp
    ensures
      match Exec(LoadFrom(root, d, v), m)
      case None => false
      case Some(m') => Loaded(m, m', d, U(ValueOf(f, root, env, v)))
    ensures InRange(TypeOf(f, root, v), ValueOf(f, root, env, v))
  {
    assert m.Get(Rbp) + SlotOff(root, v) == SlotAddr(fr, root[v]);
  }

  lemma LoadsRight(f: Fn, root: seq<Id>, env: Env, m: Cpu, fr: Frame, args: seq<Id>)
    requires Rooting(f, root) && Rel(f, env, m, fr) && AllKnown(f, root, env, args) && |args| <= 2
    ensures
      match ExecAll(Loads(root, args), m)
      case None => false
      case Some(m') =>
        && m'.mem == m.mem && m'.Get(Rbp) == m.Get(Rbp) && m'.Get(Rsp) == m.Get(Rsp)
        && (|args| > 0 ==> m'.Get(Rax) == U(ValueOf(f, root, env, args[0])))
        && (|args| > 1 ==> m'.Get(Rcx) == U(ValueOf(f, root, env, args[1])))
  {
    hide U, ValueOf, Exec;
    if |args| >= 1 {
      LoadSlot(f, root, env, m, fr, Rax, args[0]);
      var m1 := Exec(LoadFrom(root, Rax, args[0]), m).value;
      if |args| == 1 {
        One(LoadFrom(root, Rax, args[0]), m);
      } else {
        LoadSlot(f, root, env, m1, fr, Rcx, args[1]);
        Two(LoadFrom(root, Rax, args[0]), LoadFrom(root, Rcx, args[1]), m);
      }
    }
  }

  /** Spilling rax into a value's slot changes that slot only. */
  lemma SpillRight(f: Fn, root: seq<Id>, env: Env, m: Cpu, fr: Frame, v: Id, x: int)
    requires Rooting(f, root) && Rel(f, env, m, fr) && v < |f.insts| && !f.insts[v].removed
    requires m.Get(Rax) == U(x) && InRange(f.insts[v].ty, x)
    ensures
      match Exec(Spill(root, v), m)
      case None => false
      case Some(m') => Rel(f, env[v := x], m', fr) && Outside(m, m', fr)
  {
    hide U;
    UOfWord(m.Get(Rax));
    assert root[v] == v;
    assert m.Get(Rbp) + SlotOff(root, v) == SlotAddr(fr, v);
  }

  lemma RelSameMemory(f: Fn, env: Env, m: Cpu, m': Cpu, fr: Frame)
    requires Rel(f, env, m, fr) && OnlyScratch(m, m')
    ensures Rel(f, env, m', fr)
  {
  }

  /** One instruction. */
  lemma InstRight(f: Fn, root: seq<Id>, env: Env, m: Cpu, fr: Frame, v: Id)
    requires Rooting(f, root) && Rel(f, env, m, fr) && RunInst(f, root, env, v).Some?
    requires v < |f.insts| && !f.insts[v].removed
    ensures
      match ExecAll(InstCode(f, root, v), m)
      case None => false
      case Some(m') => Rel(f, RunInst(f, root, env, v).value, m', fr) && Outside(m, m', fr)
  {
    hide U, Work, InstValue, Exec;
    var i := f.insts[v];
    if !i.op.Phi? {
      var tys, vals := Types(f, root, i.args), Values(f, root, env, i.args);
      ArityAtMostTwo(i.op, i.ty, tys, vals);
      ValuesInRange(f, root, env, m, fr, i.args);
      var x := InstValue(i.op, i.ty, tys, vals).value;
      ValueInRange(i.op, i.ty, tys, vals);
      LoadsRight(f, root, env, m, fr, i.args);
      var m1 := ExecAll(Loads(root, i.args), m).value;
      WorkRight(i.op, i.ty, tys, vals, m1);
      var m2 := ExecAll(Work(i.op, i.ty), m1).value;
      RelSameMemory(f, env, m, m2, fr);
      SpillRight(f, root, env, m2, fr, v, x);
      One(Spill(root, v), m2);
      ExecAppend(Loads(root, i.args), Work(i.op, i.ty), m);
      ExecAppend(Loads(root, i.args) + Work(i.op, i.ty), [Spill(root, v)], m);
    }
  }

  lemma ArityAtMostTwo(op: Op, ty: Ty, tys: seq<Ty>, a: seq<int>)
    requires |tys| == |a| && InstValue(op, ty, tys, a).Some?
    ensures |a| <= 2
  {
  }

  lemma ValuesInRange(f: Fn, root: seq<Id>, env: Env, m: Cpu, fr: Frame, args: seq<Id>)
    requires Rooting(f, root) && Rel(f, env, m, fr) && AllKnown(f, root, env, args)
    ensures forall k :: 0 <= k < |args| ==> InRange(Types(f, root, args)[k], Values(f, root, env, args)[k])
  {
  }

  lemma OutsideTrans(m: Cpu, m1: Cpu, m2: Cpu, fr: Frame)
    requires Outside(m, m1, fr) && Outside(m1, m2, fr)
    ensures Outside(m, m2, fr)
  {
  }

  /** All instructions of a list. */
  lemma {:induction false} InstsRight(f: Fn, root: seq<Id>, env: Env, m: Cpu, fr: Frame, list: seq<Id>)
    requires Rooting(f, root) && Rel(f, env, m, fr) && RunInsts(f, root, env, list).Some?
    requires forall v :: v in list ==> v < |f.insts| && !f.insts[v].removed
    ensures
      match ExecAll(InstsCode(f, root, list), m)
      case None => false
      case Some(m') => Rel(f, RunInsts(f, root, env, list).value, m', fr) && Outside(m, m', fr)
    decreases |list|
  {
    hide InstCode, RunInst;
    if list != [] {
      assert list[0] in list;
      InstRight(f, root, env, m, fr, list[0]);
      var m1 := ExecAll(InstCode(f, root, list[0]), m).value;
      assert forall v :: v in list[1..] ==> v in list;
      InstsRight(f, root, RunInst(f, root, env, list[0]).value, m1, fr, list[1..]);
      ExecAppend(InstCode(f, root, list[0]), InstsCode(f, root, list[1..]), m);
      OutsideTrans(m, m1, ExecAll(InstsCode(f, root, list), m).value, fr);
    }
  }

  // ----- edges -----

  predicate IncomingOk(f: Fn, root: seq<Id>, from: BlockId, v: Id) {
    Copied(f, from, v) ==> Incoming(f.insts[v], from).value < |root|
  }

  function IncomingSlot(f: Fn, root: seq<Id>, from: BlockId, v: Id, fr: Frame): int
    requires Copied(f, from, v) && IncomingOk(f, root, from, v)
  {
    SlotAddr(fr, root[Incoming(f.insts[v], from).value])
  }

  /** The copies for `list` move, all at once, the words of the incoming values into the slots
      of the phis, and leave every other word at or above the stack pointer alone. */
  ghost predicate Moved(f: Fn, root: seq<Id>, from: BlockId, list: seq<Id>, m: Cpu, m': Cpu, fr: Frame)
    requires forall v :: v in list ==> IncomingOk(f, root, from, v)
  {
    && m'.Get(Rbp) == m.Get(Rbp) && m'.Get(Rsp) == m.Get(Rsp)
    && (forall v :: v in list && Copied(f, from, v) ==>
          m'.At(SlotAddr(fr, v)) == m.At(IncomingSlot(f, root, from, v, fr)))
    && (forall a :: a >= m.Get(Rsp) && (forall v :: v in list && Copied(f, from, v) ==> a != SlotAddr(fr, v)) ==>
          m'.At(a) == m.At(a))
  }

  predicate CopiesFit(f: Fn, root: seq<Id>, list: seq<Id>, m: Cpu, fr: Frame) {
    && fr.base < W && m.Get(Rbp) == fr.base && 8 * |list| <= m.Get(Rsp) <= fr.base - 8 * fr.values
    && fr.values == |f.insts| && Rooting(f, root)
  }

  function Copies(f: Fn, root: seq<Id>, from: BlockId, list: seq<Id>): seq<Instr> {
    PushCode(f, root, from, list) + PopCode(f, root, from, list)
  }

  /** One phi around the copies of the others: its value is pushed first and popped last. */
  lemma PushThenPop(f: Fn, root: seq<Id>, from: BlockId, list: seq<Id>, m: Cpu, fr: Frame)
    requires list != [] && Copied(f, from, list[0])
    ensures Copies(f, root, from, list)
            == [LoadFrom(root, Rax, Incoming(f.insts[list[0]], from).value), Push(Rax)]
               + Copies(f, root, from, list[1..]) + [Pop(Rax), Spill(root, list[0])]
  {
    var a := [LoadFrom(root, Rax, Incoming(f.insts[list[0]], from).value), Push(Rax)];
    var z := [Pop(Rax), Spill(root, list[0])];
    var u, o := PushCode(f, root, from, list[1..]), PopCode(f, root, from, list[1..]);
    assert (a + u) + (o + z) == a + (u + o) + z;
  }

  lemma PushEffect(f: Fn, root: seq<Id>, m: Cpu, fr: Frame, v: Id)
    requires Rooting(f, root) && m.Get(Rbp) == fr.base && v < |root| && m.Get(Rsp) >= 8
    ensures
      match ExecAll([LoadFrom(root, Rax, v), Push(Rax)], m)
      case None => false
      case Some(m') =>
        && m'.Get(Rbp) == fr.base && m'.Get(Rsp) == m.Get(Rsp) - 8
        && m'.At(m.Get(Rsp) - 8) == m.At(SlotAddr(fr, root[v]))
        && forall a :: a != m.Get(Rsp) - 8 ==> m'.At(a) == m.At(a)
  {
    Two(LoadFrom(root, Rax, v), Push(Rax), m);
    assert m.Get(Rbp) + SlotOff(root, v) == SlotAddr(fr, root[v]);
    UOfWord(m.At(SlotAddr(fr, root[v])));
  }

  lemma PopDone(m: Cpu)
    requires m.Get(Rsp) + 8 < W
    ensures
      match Exec(Pop(Rax), m)
      case None => false
      case Some(m') =>
        && m'.Get(Rax) == m.At(m.Get(Rsp)) && m'.Get(Rsp) == m.Get(Rsp) + 8 && m'.Get(Rbp) == m.Get(Rbp)
        && forall a :: m'.At(a) == m.At(a)
  {
    UOfWord(m.At(m.Get(Rsp)));
  }

  lemma SpillDone(m: Cpu, off: int)
    ensures
      match Exec(St(Rbp, off, Rax), m)
      case None => false
      case Some(m') =>
        && m'.Get(Rsp) == m.Get(Rsp) && m'.Get(Rbp) == m.Get(Rbp) && m'.At(m.Get(Rbp) + off) == m.Get(Rax)
        && forall a :: a != m.Get(Rbp) + off ==> m'.At(a) == m.At(a)
  {
  }

  lemma PopSpill(m: Cpu, off: int)
    requires m.Get(Rsp) + 8 < W
    ensures
      match ExecAll([Pop(Rax), St(Rbp, off, Rax)], m)
      case None => false
      case Some(m') =>
        && m'.Get(Rbp) == m.Get(Rbp) && m'.Get(Rsp) == m.Get(Rsp) + 8
        && m'.At(m.Get(Rbp) + off) == m.At(m.Get(Rsp))
        && forall a :: a != m.Get(Rbp) + off ==> m'.At(a) == m.At(a)
  {
    hide Exec;
    PopDone(m);
    Two(Pop(Rax), St(Rbp, off, Rax), m);
    SpillDone(Exec(Pop(Rax), m).value, off);
  }

  lemma PopEffect(f: Fn, root: seq<Id>, m: Cpu, fr: Frame, v: Id)
    requires Rooting(f, root) && m.Get(Rbp) == fr.base && v < |root| && !f.insts[v].removed && m.Get(Rsp) + 8 < W
    ensures
      match ExecAll([Pop(Rax), Spill(root, v)], m)
      case None => false
      case Some(m') =>
        && m'.Get(Rbp) == fr.base && m'.Get(Rsp) == m.Get(Rsp) + 8
        && m'.At(SlotAddr(fr, v)) == m.At(m.Get(Rsp))
        && forall a :: a != SlotAddr(fr, v) ==> m'.At(a) == m.At(a)
  {
    hide Exec, ExecAll;
    PopSpill(m, SlotOff(root, v));
    assert m.Get(Rbp) + SlotOff(root, v) == SlotAddr(fr, v);
  }

  lemma {:induction false} CopiesMove(f: Fn, root: seq<Id>, from: BlockId, list: seq<Id>, m: Cpu, fr: Frame)
    requires CopiesFit(f, root, list, m, fr)
    requires forall v :: v in list ==> v < |f.insts| && IncomingOk(f, root, from, v)
    ensures
      match ExecAll(Copies(f, root, from, list), m)
      case None => false
      case Some(m') => Moved(f, root, from, list, m, m', fr)
    decreases |list|
  {
    hide Incoming, U, Exec, ExecAll, PushCode, PopCode, Moved;
    if list == [] {
      NoCopies(f, root, from, m, fr);
    } else {
      var p, rest := list[0], list[1..];
      assert list == [p] + rest;
      assert p in list && IncomingOk(f, root, from, p);
      assert forall v :: v in rest ==> v in list;
      if !Copied(f, from, p) {
        CopiesMove(f, root, from, rest, m, fr);
        NotCopied(f, root, from, list, m, ExecAll(Copies(f, root, from, rest), m).value, fr);
      } else {
        var v := Incoming(f.insts[p], from).value;
        PushThenPop(f, root, from, list, m, fr);
        PushEffect(f, root, m, fr, v);
        var first := [LoadFrom(root, Rax, v), Push(Rax)];
        var m1 := ExecAll(first, m).value;
        CopiesMove(f, root, from, rest, m1, fr);
        var m2 := ExecAll(Copies(f, root, from, rest), m1).value;
        MovedRegs(f, root, from, rest, m1, m2, fr);
        PopEffect(f, root, m2, fr, p);
        ExecAppend(first, Copies(f, root, from, rest), m);
        ExecAppend(first + Copies(f, root, from, rest), [Pop(Rax), Spill(root, p)], m);
        MovedAround(f, root, from, list, m, m1, m2, ExecAll(Copies(f, root, from, list), m).value, fr);
      }
    }
  }

  lemma NoCopies(f: Fn, root: seq<Id>, from: BlockId, m: Cpu, fr: Frame)
    ensures ExecAll(Copies(f, root, from, []), m) == Some(m) && Moved(f, root, from, [], m, m, fr)
  {
  }

  lemma NotCopied(f: Fn, root: seq<Id>, from: BlockId, list: seq<Id>, m: Cpu, m': Cpu, fr: Frame)
    requires list != [] && !Copied(f, from, list[0]) && forall v :: v in list ==> IncomingOk(f, root, from, v)
    requires forall v :: v in list[1..] ==> v in list
    requires Moved(f, root, from, list[1..], m, m', fr)
    ensures Copies(f, root, from, list) == Copies(f, root, from, list[1..]) && Moved(f, root, from, list, m, m', fr)
  {
    assert list == [list[0]] + list[1..];
  }

  lemma MovedRegs(f: Fn, root: seq<Id>, from: BlockId, list: seq<Id>, m: Cpu, m': Cpu, fr: Frame)
    requires (forall v :: v in list ==> IncomingOk(f, root, from, v)) && Moved(f, root, from, list, m, m', fr)
    ensures m'.Get(Rbp) == m.Get(Rbp) && m'.Get(Rsp) == m.Get(Rsp)
  {
  }

  lemma MovedAround(f: Fn, root: seq<Id>, from: BlockId, list: seq<Id>, m: Cpu, m1: Cpu, m2: Cpu, m3: Cpu, fr: Frame)
    requires CopiesFit(f, root, list, m, fr) && list != []
    requires forall v :: v in list ==> v < |f.insts| && IncomingOk(f, root, from, v)
    requires Copied(f, from, list[0])
    requires m1.Get(Rbp) == fr.base && m1.Get(Rsp) == m.Get(Rsp) - 8
    requires m1.At(m.Get(Rsp) - 8) == m.At(IncomingSlot(f, root, from, list[0], fr))
    requires forall a :: a != m.Get(Rsp) - 8 ==> m1.At(a) == m.At(a)
    requires Moved(f, root, from, list[1..], m1, m2, fr)
    requires m3.Get(Rbp) == fr.base && m3.Get(Rsp) == m2.Get(Rsp) + 8
    requires m3.At(SlotAddr(fr, list[0])) == m2.At(m2.Get(Rsp))
    requires forall a :: a != SlotAddr(fr, list[0]) ==> m3.At(a) == m2.At(a)
    ensures Moved(f, root, from, list, m, m3, fr)
  {
    hide Incoming;
    var p := list[0];
    assert list == [p] + list[1..];
    forall v | v in list && Copied(f, from, v)
      ensures m3.At(SlotAddr(fr, v)) == m.At(IncomingSlot(f, root, from, v, fr))
    {
      if v != p {
        assert v in list[1..] && IncomingOk(f, root, from, v);
        assert IncomingSlot(f, root, from, v, fr) >= m.Get(Rsp);
      } else {
        forall u | u in list[1..]
          ensures m2.Get(Rsp) != SlotAddr(fr, u)
        {
          assert u in list;
        }
      }
    }
    forall a | a >= m.Get(Rsp) && (forall v :: v in list && Copied(f, from, v) ==> a != SlotAddr(fr, v))
      ensures m3.At(a) == m.At(a)
    {
      assert a != SlotAddr(fr, p);
      assert m3.At(a) == m2.At(a);
      assert forall v :: v in list[1..] && Copied(f, from, v) ==> a != SlotAddr(fr, v);
    }
  }

  /** What entering a block does to the IR's values. */
  lemma {:induction false} EnterPhisValues(f: Fn, root: seq<Id>, before: Env, env: Env, from: BlockId, list: seq<Id>, v: Id)
    requires v in EnterPhis(f, root, before, env, from, list)
    ensures
      var env' := EnterPhis(f, root, before, env, from, list);
      if v in list && Copied(f, from, v) then
        var u := Incoming(f.insts[v], from).value;
        Known(f, root, before, u) && TypeOf(f, root, u) == f.insts[v].ty && env'[v] == ValueOf(f, root, before, u)
      else v in env && env'[v] == env[v]
    decreases |list|
  {
    if list != [] {
      var p := list[0];
      assert list == [p] + list[1..];
      if !Copied(f, from, p) {
        EnterPhisValues(f, root, before, env, from, list[1..], v);
      } else {
        var u := Incoming(f.insts[p], from).value;
        if Known(f, root, before, u) && TypeOf(f, root, u) == f.insts[p].ty {
          EnterPhisValues(f, root, before, env[p := ValueOf(f, root, before, u)], from, list[1..], v);
        } else {
          EnterPhisValues(f, root, before, env - {p}, from, list[1..], v);
        }
      }
    }
  }

  lemma EnteredSlot(f: Fn, root: seq<Id>, env: Env, m: Cpu, m': Cpu, fr: Frame, from: BlockId, list: seq<Id>, v: Id)
    requires Rooting(f, root) && Rel(f, env, m, fr)
    requires forall u :: u in list ==> u < |f.insts| && IncomingOk(f, root, from, u)
    requires Moved(f, root, from, list, m, m', fr)
    requires v in EnterPhis(f, root, env, env, from, list)
    ensures
      var x := EnterPhis(f, root, env, env, from, list)[v];
      v < |f.insts| && InRange(f.insts[v].ty, x) && m'.At(SlotAddr(fr, v)) == U(x)
  {
    hide Incoming, U, InRange, EnterPhis;
    EnterPhisValues(f, root, env, env, from, list, v);
    if v !in list || !Copied(f, from, v) {
      assert v in env && SlotAddr(fr, v) >= m.Get(Rsp);
      forall u | u in list && Copied(f, from, u)
        ensures SlotAddr(fr, v) != SlotAddr(fr, u)
      {
        assert u != v;
      }
    } else {
      var u := Incoming(f.insts[v], from).value;
      assert root[u] in env && IncomingOk(f, root, from, v);
      assert IncomingSlot(f, root, from, v, fr) == SlotAddr(fr, root[u]);
    }
  }

  /** Phi edges are parallel assignments: after the copies, each phi of the target holds the
      value its operand had before any phi was written; the stack pointer is where it was. */
  lemma EdgeRight(f: Fn, root: seq<Id>, env: Env, m: Cpu, fr: Frame, from: BlockId, to: BlockId)
    requires Rooting(f, root) && Rel(f, env, m, fr) && to < |f.blocks| && |f.blocks[to].list| <= fr.room
    requires forall v :: v in f.blocks[to].list ==> v < |f.insts| && IncomingOk(f, root, from, v)
    ensures
      match ExecAll(PhiCopies(f, root, from, to), m)
      case None => false
      case Some(m') => Rel(f, Enter(f, root, env, from, to), m', fr) && Outside(m, m', fr)
  {
    hide Incoming, U;
    var list := f.blocks[to].list;
    CopiesMove(f, root, from, list, m, fr);
    var m' := ExecAll(PhiCopies(f, root, from, to), m).value;
    forall v | v in Enter(f, root, env, from, to)
      ensures v < |f.insts| && InRange(f.insts[v].ty, Enter(f, root, env, from, to)[v])
      ensures m'.At(SlotAddr(fr, v)) == U(Enter(f, root, env, from, to)[v])
    {
      EnteredSlot(f, root, env, m, m', fr, from, list, v);
    }
    forall a | a >= fr.base || fr.base - fr.size <= a < fr.base - 8 * fr.values
      ensures m'.At(a) == m.At(a)
    {
      assert forall u :: u in list && Copied(f, from, u) ==> a != SlotAddr(fr, u);
    }
  }
}
