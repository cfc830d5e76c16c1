/** A whole function from the lowering to the machine: a counter that a `while` loop takes from 0 to
    `count`, and that is returned. */
module CountLoop {
  import opened Cfg
  import opened Ir
  import opened Wrappers
  import opened SsaInv
  import opened SsaEmit
  import opened SsaLowering
  import opened SsaBuilder
  import opened Compose
  import opened ArrayZero
  import SsaRead

  const KEY: Var := 0

  // ----- what the construction makes, step by step -----

  function Const(k: int, b: BlockId): Inst {
    Inst(ConstInt(k), INDEX, b, [], [], None, false)
  }

  function Counter(args: seq<Id>, from: seq<BlockId>): Inst {
    Inst(Phi, INDEX, 1, args, from, None, false)
  }

  function Test(): Inst {
    Inst(Cmp(Slt), Bool, 1, [1, 2], [], None, false)
  }

  function Next(): Inst {
    Inst(Bin(Add), INDEX, 2, [1, 4], [], None, false)
  }

  function All(count: int, args: seq<Id>, from: seq<BlockId>): seq<Inst> {
    [Const(0, 0), Counter(args, from), Const(count, 1), Test(), Const(1, 2), Next()]
  }

  function Entry(): Block {
    Block([0], [], Br(1), true, map[KEY := 0], [])
  }

  function Head(list: seq<Id>, preds: seq<BlockId>, term: Term, isSealed: bool): Block {
    Block(list, preds, term, isSealed, if list == [] then map[] else map[KEY := 1], if list == [] then [] else [(KEY, 1)])
  }

  function Empty(preds: seq<BlockId>): Block {
    Block([], preds, NoTerm, false, map[], [])
  }

  /** Before the head is filled, before the body is, and before the head is sealed. */
  function Begun(count: int): Fn {
    Fn([Const(0, 0)], [Entry(), Head([], [0], NoTerm, false), Empty([]), Empty([])])
  }

  function Tested(count: int): Fn {
    Fn([Const(0, 0), Counter([], []), Const(count, 1), Test()],
       [Entry(), Head([1, 2, 3], [0], CondBr(3, 2, 3), false), Block([], [1], NoTerm, true, map[], []), Empty([1])])
  }

  function Looped(count: int): Fn {
    Fn(All(count, [], []),
       [Entry(), Head([1, 2, 3], [0, 2], CondBr(3, 2, 3), false),
        Block([4, 5], [1], Br(1), true, map[KEY := 5], []), Empty([1])])
  }

  function Closed(count: int): Fn {
    Fn(All(count, [0, 5], [0, 2]),
       [Entry(), Head([1, 2, 3], [0, 2], CondBr(3, 2, 3), true),
        Block([4, 5], [1], Br(1), true, map[KEY := 5], []), Empty([1])])
  }

  /** The finished function. */
  function Counting(count: int): Fn {
    Fn(All(count, [0, 5], [0, 2]),
       [Entry(), Head([1, 2, 3], [0, 2], CondBr(3, 2, 3), true),
        Block([4, 5], [1], Br(1), true, map[KEY := 5], []),
        Block([], [1], Ret([1]), true, map[KEY := 1], [])])
  }

  // ----- reads -----

  lemma ReadUnsealed(f: Fn, b: BlockId, n: nat)
    requires b < |f.blocks| && !f.blocks[b].isSealed && KEY !in f.blocks[b].varDefs
    requires SsaRead.Read(f, b, KEY, INDEX, n).Some?
    ensures SsaRead.Read(f, b, KEY, INDEX, n) == Some((EmitPhi(f, b, KEY, INDEX), |f.insts|))
  {
    hide SsaRead.Read;
    SsaRead.ReadIsRec(f, b, KEY, INDEX, 0);
    SsaRead.RecUnsealed(f, b, KEY, INDEX);
    SsaRead.SameRead(f, b, KEY, INDEX, 0, n);
  }

  lemma ReadHere(f: Fn, b: BlockId, v: Id)
    requires b < |f.blocks| && KEY in f.blocks[b].varDefs && f.blocks[b].varDefs[KEY] == v
    requires v < |f.insts| && !f.insts[v].removed
    ensures SsaRead.Read(f, b, KEY, INDEX, 0) == Some((f, v))
  {
    SsaRead.ReadFound(f, b, KEY, INDEX, 0, v);
  }

  lemma ReadBefore(f: Fn, b: BlockId, q: BlockId, v: Id, n: nat)
    requires b < |f.blocks| && q < |f.blocks| && f.blocks[b].isSealed && f.blocks[b].preds == [q]
    requires KEY !in f.blocks[b].varDefs && KEY in f.blocks[q].varDefs && f.blocks[q].varDefs[KEY] == v
    requires v < |f.insts| && !f.insts[v].removed && SsaRead.Read(f, b, KEY, INDEX, n).Some?
    ensures SsaRead.Read(f, b, KEY, INDEX, n) == Some((SetDef(f, b, KEY, v), v))
  {
    hide SsaRead.Read;
    ReadHere(f, q, v);
    SsaRead.RecForward(f, b, KEY, INDEX, 0, f, v);
    SsaRead.ReadIsRec(f, b, KEY, INDEX, 1);
    SsaRead.SameRead(f, b, KEY, INDEX, 1, n);
  }

  lemma SealPlain(f: Fn, b: BlockId, n: nat)
    requires b < |f.blocks| && !f.blocks[b].isSealed && f.blocks[b].pending == []
    ensures SsaRead.Seal(f, b, n) == Some(SealFlag(f, b))
  {
  }

  lemma SealHead(count: int, n: nat)
    requires SsaRead.Seal(Looped(count), 1, n).Some?
    ensures SsaRead.Seal(Looped(count), 1, n) == Some(Closed(count))
  {
    hide SsaRead.Read, SsaRead.Operands;
    var f := SealFlag(Looped(count), 1);
    ReadHere(f, 0, 0);
    SsaRead.OneOperand(f, [0, 2], KEY, 1, 0, 1, f, 0);
    var f1 := AddOperand(f, 1, 0, 0);
    ReadHere(f1, 2, 5);
    SsaRead.OneOperand(f1, [0, 2], KEY, 1, 1, 1, f1, 5);
    var f2 := AddOperand(f1, 1, 2, 5);
    SsaRead.LastOperand(f2, [0, 2], KEY, 1, 1);
    assert f2.insts[1].args == [0, 5];
    SsaRead.TwoDifferent(0, 5, 1);
    var g := Closed(count);
    assert f2.insts[1] == g.insts[1];
    assert f2.insts == g.insts;
    assert f2.blocks[0] == g.blocks[0];
    assert f2.blocks[1] == g.blocks[1];
    assert f2.blocks[2] == g.blocks[2];
    assert f2.blocks[3] == g.blocks[3];
    assert f2.blocks == g.blocks;
    assert f2 == Closed(count);
    assert [(KEY, 1)][1..] == [];
    assert SsaRead.CompletePhis(f, 1, [(KEY, 1)], 1) == Some(f2);
    SsaRead.SameSeal(Looped(count), 1, 1, n);
  }

  // ----- the construction -----

  /** The entry block when it is sealed, and when the counter is set. */
  function Fresh(): Fn {
    Fn([], [Block([], [], NoTerm, true, map[], [])])
  }

  function Set(): Fn {
    Fn([Const(0, 0)], [Block([0], [], NoTerm, true, map[KEY := 0], [])])
  }

  lemma SetStep()
    ensures WriteVar(Emit(Fresh(), 0, ConstInt(0), INDEX, []), 0, KEY, 0) == Set()
  {
    var f := Emit(Fresh(), 0, ConstInt(0), INDEX, []);
    assert f.insts == Set().insts;
    assert f.blocks[0] == Block([0], [], NoTerm, true, map[], []);
    var m: map<Var, Id> := map[];
    assert m[KEY := 0] == map[KEY := 0];
    assert WriteVar(f, 0, KEY, 0).blocks == Set().blocks;
  }

  lemma BeginStep(count: int)
    ensures AddEdge(SetTerm(NewBlock(NewBlock(NewBlock(Set()))), 0, Br(1)), 0, 1) == Begun(count)
  {
    var f := AddEdge(SetTerm(NewBlock(NewBlock(NewBlock(Set()))), 0, Br(1)), 0, 1);
    assert f.blocks[0] == Entry() && f.blocks[1] == Empty([0]) && f.blocks[2] == Empty([]) && f.blocks[3] == Empty([]);
    assert f.blocks == Begun(count).blocks;
  }

  /** The head with its phi, and with the comparison. */
  function Headed(): Fn {
    Fn([Const(0, 0), Counter([], [])], [Entry(), Head([1], [0], NoTerm, false), Empty([]), Empty([])])
  }

  function Compared(count: int): Fn {
    Fn([Const(0, 0), Counter([], []), Const(count, 1), Test()],
       [Entry(), Head([1, 2, 3], [0], NoTerm, false), Empty([]), Empty([])])
  }

  lemma HeadStep(count: int)
    ensures EmitPhi(Begun(count), 1, KEY, INDEX) == Headed()
  {
    var f := EmitPhi(Begun(count), 1, KEY, INDEX);
    var m: map<Var, Id> := map[];
    assert m[KEY := 1] == map[KEY := 1];
    assert f.insts == Headed().insts;
    assert f.blocks[1] == Headed().blocks[1];
    assert f.blocks == Headed().blocks;
  }

  lemma CompareStep(count: int)
    ensures Emit(Emit(Headed(), 1, ConstInt(count), INDEX, []), 1, Cmp(Slt), Bool, [1, 2]) == Compared(count)
  {
    var f := Emit(Emit(Headed(), 1, ConstInt(count), INDEX, []), 1, Cmp(Slt), Bool, [1, 2]);
    assert f.insts == Compared(count).insts;
    assert f.blocks[1] == Compared(count).blocks[1];
    assert f.blocks == Compared(count).blocks;
  }

  lemma TestStep(count: int)
    ensures SealFlag(AddEdge(AddEdge(SetTerm(Compared(count), 1, CondBr(3, 2, 3)), 1, 2), 1, 3), 2) == Tested(count)
  {
    var f := SealFlag(AddEdge(AddEdge(SetTerm(Compared(count), 1, CondBr(3, 2, 3)), 1, 2), 1, 3), 2);
    assert f.blocks[1] == Tested(count).blocks[1] && f.blocks[2] == Tested(count).blocks[2];
    assert f.blocks == Tested(count).blocks;
  }

  /** The body with its instructions. */
  function Added(count: int, v: Id): Fn {
    Fn(All(count, [], []), Tested(count).blocks[2 := Block([4, 5], [1], NoTerm, true, map[KEY := v], [])])
  }

  lemma AddStep(count: int)
    ensures Emit(Emit(SetDef(Tested(count), 2, KEY, 1), 2, ConstInt(1), INDEX, []), 2, Bin(Add), INDEX, [1, 4]) == Added(count, 1)
  {
    var f0 := SetDef(Tested(count), 2, KEY, 1);
    var f := Emit(Emit(f0, 2, ConstInt(1), INDEX, []), 2, Bin(Add), INDEX, [1, 4]);
    var m: map<Var, Id> := map[];
    assert m[KEY := 1] == map[KEY := 1];
    assert f0.blocks[2] == Block([], [1], NoTerm, true, map[KEY := 1], []);
    assert f.insts == Added(count, 1).insts;
    assert f.blocks[2] == Added(count, 1).blocks[2];
    assert f.blocks == Added(count, 1).blocks;
  }

  lemma LoopStep(count: int)
    ensures AddEdge(SetTerm(WriteVar(Added(count, 1), 2, KEY, 5), 2, Br(1)), 2, 1) == Looped(count)
  {
    var f0 := WriteVar(Added(count, 1), 2, KEY, 5);
    var m: map<Var, Id> := map[KEY := 1];
    assert m[KEY := 5] == map[KEY := 5];
    assert f0.blocks[2] == Block([4, 5], [1], NoTerm, true, map[KEY := 5], []);
    var f := AddEdge(SetTerm(f0, 2, Br(1)), 2, 1);
    assert f.blocks[1] == Looped(count).blocks[1] && f.blocks[2] == Looped(count).blocks[2];
    assert f.blocks == Looped(count).blocks;
  }

  lemma ReturnStep(count: int)
    ensures SetTerm(SetDef(SealFlag(Closed(count), 3), 3, KEY, 1), 3, Ret([1])) == Counting(count)
  {
    var f := SetTerm(SetDef(SealFlag(Closed(count), 3), 3, KEY, 1), 3, Ret([1]));
    var m: map<Var, Id> := map[];
    assert m[KEY := 1] == map[KEY := 1];
    assert f.blocks[3] == Counting(count).blocks[3];
    assert f.blocks == Counting(count).blocks;
  }

  /** `i := 0`, and the blocks of the loop. */
  method LowerEntry(bld: Builder)
    requires bld.Valid() && bld.g == LoopGraph() && bld.types(KEY) == INDEX && bld.insts == [] && bld.blocks == [] && bld.s.early == {}
    modifies bld
    ensures bld.Valid() && 0 !in bld.s.early
    ensures forall count :: bld.F() == Begun(count)
  {
    hide Builder.Valid;
    var entry := bld.BlockNew();
    ghost var n := bld.Seal(entry);
    SealPlain(Fn([], [Empty([])]), 0, n);
    assert bld.F() == Fresh();
    var zero := bld.Append(entry, ConstInt(0), INDEX, []);
    OwnDominator(bld.g, 0);
    bld.Assign(entry, KEY, zero);
    SetStep();
    assert bld.F() == Set();
    var begin := bld.BlockNew();
    var body := bld.BlockNew();
    var end := bld.BlockNew();
    bld.TermBr(entry, begin);
    forall count
      ensures bld.F() == Begun(count)
    {
      BeginStep(count);
    }
  }

  /** `i < count` */
  method LowerTest(bld: Builder, count: int)
    requires bld.Valid() && bld.g == LoopGraph() && bld.types(KEY) == INDEX && bld.F() == Begun(count) && 0 !in bld.s.early
    modifies bld
    ensures bld.Valid() && 0 !in bld.s.early && bld.F() == Tested(count)
  {
    hide Builder.Valid;
    var i;
    ghost var n;
    i, n := bld.Use(1, KEY, INDEX);
    ReadUnsealed(Begun(count), 1, n);
    HeadStep(count);
    assert bld.F() == Headed();
    var limit := bld.Append(1, ConstInt(count), INDEX, []);
    var c := bld.Append(1, Cmp(Slt), Bool, [i, limit]);
    CompareStep(count);
    assert bld.F() == Compared(count);
    bld.TermCondBr(1, c, 2, 3);
    ghost var f := bld.F();
    n := bld.Seal(2);
    SealPlain(f, 2, n);
    TestStep(count);
  }

  /** `i = i + 1` */
  method LowerBody(bld: Builder, count: int)
    requires bld.Valid() && bld.g == LoopGraph() && bld.types(KEY) == INDEX && bld.F() == Tested(count) && 0 !in bld.s.early
    modifies bld
    ensures bld.Valid() && 0 !in bld.s.early && bld.F() == Looped(count)
  {
    hide Builder.Valid;
    var i;
    ghost var n;
    i, n := bld.Use(2, KEY, INDEX);
    ReadBefore(Tested(count), 2, 1, 1, n);
    var one := bld.Append(2, ConstInt(1), INDEX, []);
    var next := bld.Append(2, Bin(Add), INDEX, [i, one]);
    AddStep(count);
    assert bld.F() == Added(count, 1);
    OwnDominator(bld.g, 2);
    bld.Assign(2, KEY, next);
    bld.TermBr(2, 1);
    LoopStep(count);
  }

  /** The seals behind the loop, and `return i`. */
  method LowerReturn(bld: Builder, count: int)
    requires bld.Valid() && bld.g == LoopGraph() && bld.types(KEY) == INDEX && bld.F() == Looped(count) && 0 !in bld.s.early
    modifies bld
    ensures bld.Valid() && 0 !in bld.s.early && bld.F() == Counting(count)
  {
    hide Builder.Valid;
    ghost var n := bld.Seal(1);
    SealHead(count, n);
    n := bld.Seal(3);
    SealPlain(Closed(count), 3, n);
    var i;
    i, n := bld.Use(3, KEY, INDEX);
    ReadBefore(SealFlag(Closed(count), 3), 3, 1, 1, n);
    bld.TermEnd(3, Ret([i]));
    ReturnStep(count);
  }

  /** The lowering of the whole function: its construction ends complete, with exactly these
      instructions and blocks. */
  method CountFunction(count: int) returns (bld: Builder)
    ensures fresh(bld) && bld.Valid() && bld.F() == Counting(count)
    ensures Built(LoopGraph(), bld.F(), bld.s)
  {
    hide Builder.Valid, Built;
    LoopGraphRooted();
    bld := new Builder(LoopGraph(), _ => INDEX);
    LowerEntry(bld);
    LowerTest(bld, count);
    LowerBody(bld, count);
    LowerReturn(bld, count);
    Finished(bld, count);
  }

  lemma Finished(bld: Builder, count: int)
    requires bld.Valid() && bld.g == LoopGraph() && bld.F() == Counting(count) && 0 !in bld.s.early
    ensures Built(LoopGraph(), bld.F(), bld.s)
  {
    assert SsaRead.Typed(bld.F(), bld.types);
  }
}
