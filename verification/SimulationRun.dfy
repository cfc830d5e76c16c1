/** From blocks to whole functions: labels, jumps, prologue and epilogue. */
module SimulationRun {
  import opened Cfg
  import opened Ir
  import opened Wrappers
  import opened Word
  import opened Asm
  import opened IrSem
  import opened Codegen
  import opened CodegenOps
  import opened Simulation

  predicate ListedOk(f: Fn, b: BlockId) {
    b < |f.blocks| ==> forall v :: v in f.blocks[b].list ==> v < |f.insts| && !f.insts[v].removed
  }

  /** What the code generator is given. */
  ghost predicate WellFormed(f: Fn, root: seq<Id>) {
    && f.blocks != [] && Rooting(f, root)
    && (forall b :: ListedOk(f, b))
    && (forall from, v :: 0 <= v < |f.insts| ==> IncomingOk(f, root, from, v))
  }

  /** `code` stands at `pc` in the program. */
  ghost predicate CodeAt(prog: seq<Instr>, pc: nat, code: seq<Instr>) {
    pc + |code| <= |prog| && prog[pc..pc + |code|] == code
  }

  lemma CodeSplit(prog: seq<Instr>, pc: nat, a: seq<Instr>, b: seq<Instr>)
    requires CodeAt(prog, pc, a + b)
    ensures CodeAt(prog, pc, a) && CodeAt(prog, pc + |a|, b)
  {
    assert prog[pc..pc + |a|] == (a + b)[..|a|] == a;
    assert prog[pc + |a|..pc + |a| + |b|] == (a + b)[|a|..] == b;
  }

  ghost predicate AllStraight(code: seq<Instr>) {
    forall i :: i in code ==> Straight(i)
  }

  predicate NoLabels(code: seq<Instr>) {
    forall i :: i in code ==> !i.Lbl?
  }

  lemma WorkPlain(op: Op, ty: Ty)
    ensures NoLabels(Work(op, ty)) && (!op.Bin? ==> true)
    ensures (op.ConstInt? || op.Bin? || op.Cmp? || op.Neg? || op.Not? || op.Cast?) ==>
              AllStraight(Work(op, ty)) || (op.Bin? && op.bin.FloatBin?)
  {
  }

  lemma InstPlain(f: Fn, root: seq<Id>, v: Id)
    ensures NoLabels(InstCode(f, root, v))
  {
    if v < |f.insts| {
      WorkPlain(f.insts[v].op, f.insts[v].ty);
    }
  }

  lemma {:induction false} InstsPlain(f: Fn, root: seq<Id>, list: seq<Id>)
    ensures NoLabels(InstsCode(f, root, list))
  {
    if list != [] {
      InstPlain(f, root, list[0]);
      InstsPlain(f, root, list[1..]);
    }
  }

  /** Code that executes without a fault has no jumps in it. */
  lemma {:induction false} ExecutedIsStraight(code: seq<Instr>, m: Cpu)
    requires ExecAll(code, m).Some?
    ensures AllStraight(code)
  {
    if code != [] {
      ExecutedIsStraight(code[1..], Exec(code[0], m).value);
      assert code == [code[0]] + code[1..];
    }
  }

  lemma {:induction false} CopiesPlain(f: Fn, root: seq<Id>, from: BlockId, list: seq<Id>)
    ensures NoLabels(PushCode(f, root, from, list)) && NoLabels(PopCode(f, root, from, list))
  {
    if list != [] {
      CopiesPlain(f, root, from, list[1..]);
    }
  }

  /** The only labels of a terminator are its own edge label. */
  lemma TermLabels(f: Fn, root: seq<Id>, b: BlockId, c: BlockId)
    requires b < |f.blocks|
    ensures Lbl(BlockLabel(c)) !in TermCode(f, root, b)
    ensures c != b ==> Lbl(EdgeLabel(c)) !in TermCode(f, root, b)
  {
    hide PhiCopies;
    match f.blocks[b].term
    case Br(t) => EdgePlain(f, root, b, t);
    case CondBr(_, t, e) =>
      EdgePlain(f, root, b, t);
      EdgePlain(f, root, b, e);
    case _ =>
  }

  lemma EdgePlain(f: Fn, root: seq<Id>, from: BlockId, to: BlockId)
    ensures NoLabels(PhiCopies(f, root, from, to))
  {
    if to < |f.blocks| {
      CopiesPlain(f, root, from, f.blocks[to].list);
    }
  }

  function BlocksBefore(f: Fn, root: seq<Id>, b: BlockId): seq<Instr>
    requires b <= |f.blocks|
  {
    if b == 0 then [] else BlocksBefore(f, root, b - 1) + BlockCode(f, root, b - 1)
  }

  lemma {:induction false} BlocksSplit(f: Fn, root: seq<Id>, b: BlockId)
    requires b <= |f.blocks|
    ensures BlocksCode(f, root, 0) == BlocksBefore(f, root, b) + BlocksCode(f, root, b)
  {
    hide BlockCode;
    if b > 0 {
      BlocksSplit(f, root, b - 1);
      AppendAssoc(BlocksBefore(f, root, b - 1), BlockCode(f, root, b - 1), BlocksCode(f, root, b));
    } else {
      AppendEmpty(BlocksCode(f, root, 0));
    }
  }

  lemma AppendAssoc<T>(a: seq<T>, b: seq<T>, c: seq<T>)
    ensures a + (b + c) == (a + b) + c
  {
  }

  lemma AppendEmpty<T>(a: seq<T>)
    ensures [] + a == a
  {
  }

  lemma {:induction false} LabelsBefore(f: Fn, root: seq<Id>, b: BlockId, c: BlockId)
    requires b <= |f.blocks| && c >= b
    ensures Lbl(BlockLabel(c)) !in BlocksBefore(f, root, b) && Lbl(EdgeLabel(c)) !in BlocksBefore(f, root, b)
  {
    hide TermCode, InstsCode;
    if b > 0 {
      LabelsBefore(f, root, b - 1, c);
      InstsPlain(f, root, f.blocks[b - 1].list);
      TermLabels(f, root, b - 1, c);
    }
  }

  lemma {:induction false} FindFirst(a: seq<Instr>, l: Label, rest: seq<Instr>, i: nat)
    requires Lbl(l) !in a && i <= |a|
    ensures FindFrom(a + [Lbl(l)] + rest, l, i) == Some(|a|)
    decreases |a| - i
  {
    if i < |a| {
      assert (a + [Lbl(l)] + rest)[i] == a[i];
      FindFirst(a, l, rest, i + 1);
    }
  }

  /** Where a block's code starts. */
  function Start(f: Fn, root: seq<Id>, b: BlockId): nat
    requires b < |f.blocks|
  {
    4 + |BlocksBefore(f, root, b)|
  }

  lemma BlockPlace(f: Fn, root: seq<Id>, b: BlockId)
    requires b < |f.blocks|
    ensures CodeAt(FnCode(f, root), Start(f, root, b), BlockCode(f, root, b))
    ensures Find(FnCode(f, root), BlockLabel(b)) == Some(Start(f, root, b))
  {
    hide TermCode, InstsCode, BlocksBefore, BlocksCode, Find;
    var before := Prologue(f) + BlocksBefore(f, root, b);
    var rest := InstsCode(f, root, f.blocks[b].list) + TermCode(f, root, b);
    FnSplit(f, root, b);
    var after := BlocksCode(f, root, b + 1);
    MiddleAt(before, BlockCode(f, root, b), after);
    LabelsBefore(f, root, b, b);
    AppendAssoc([Lbl(BlockLabel(b))], InstsCode(f, root, f.blocks[b].list), TermCode(f, root, b));
    LabelFound(before, BlockLabel(b), rest, after);
  }

  lemma FnSplit(f: Fn, root: seq<Id>, b: BlockId)
    requires b < |f.blocks|
    ensures FnCode(f, root) == Prologue(f) + BlocksBefore(f, root, b) + BlockCode(f, root, b) + BlocksCode(f, root, b + 1)
  {
    hide BlockCode, BlocksBefore, Prologue;
    BlocksSplit(f, root, b);
    AppendAssoc(Prologue(f), BlocksBefore(f, root, b), BlocksCode(f, root, b));
    AppendAssoc(Prologue(f) + BlocksBefore(f, root, b), BlockCode(f, root, b), BlocksCode(f, root, b + 1));
  }

  lemma MiddleAt(a: seq<Instr>, m: seq<Instr>, z: seq<Instr>)
    ensures CodeAt(a + m + z, |a|, m)
  {
  }

  lemma LabelFound(a: seq<Instr>, l: Label, m: seq<Instr>, z: seq<Instr>)
    requires Lbl(l) !in a
    ensures Find(a + ([Lbl(l)] + m) + z, l) == Some(|a|)
  {
    assert a + ([Lbl(l)] + m) + z == a + [Lbl(l)] + (m + z);
    FindFirst(a, l, m + z, 0);
  }

  /** The edge label of a conditional branch is found where the false edge's copies start. */
  lemma EdgePlace(f: Fn, root: seq<Id>, b: BlockId, a: seq<Instr>, z: seq<Instr>)
    requires b < |f.blocks| && TermCode(f, root, b) == a + [Lbl(EdgeLabel(b))] + z && Lbl(EdgeLabel(b)) !in a
    ensures
      Find(FnCode(f, root), EdgeLabel(b)) == Some(Start(f, root, b) + 1 + |InstsCode(f, root, f.blocks[b].list)| + |a|)
  {
    hide TermCode, InstsCode, BlocksBefore, BlocksCode, Find;
    LabelsBefore(f, root, b, b);
    InstsPlain(f, root, f.blocks[b].list);
    FnSplit(f, root, b);
    var before := Prologue(f) + BlocksBefore(f, root, b);
    var head := [Lbl(BlockLabel(b))] + InstsCode(f, root, f.blocks[b].list);
    var after := BlocksCode(f, root, b + 1);
    Regroup(before, head, a, [Lbl(EdgeLabel(b))], z, after);
    LabelFound(before + head + a, EdgeLabel(b), z, after);
  }

  lemma Regroup(p: seq<Instr>, h: seq<Instr>, a: seq<Instr>, l: seq<Instr>, z: seq<Instr>, q: seq<Instr>)
    ensures p + (h + (a + l + z)) + q == (p + h + a) + (l + z) + q
  {
  }

  // ----- running -----

  ghost predicate Reaches(prog: seq<Instr>, c: Conf, d: Conf) {
    exists n: nat :: Steps(prog, c, n) == d
  }

  lemma ReachesTrans(prog: seq<Instr>, c: Conf, d: Conf, e: Conf)
    requires Reaches(prog, c, d) && Reaches(prog, d, e)
    ensures Reaches(prog, c, e)
  {
    var a: nat :| Steps(prog, c, a) == d;
    var b: nat :| Steps(prog, d, b) == e;
    StepsAdd(prog, c, a, b);
    assert Steps(prog, c, a + b) == e;
  }

  lemma StepReaches(prog: seq<Instr>, c: Conf)
    ensures Reaches(prog, c, Step(prog, c))
  {
    assert Steps(prog, c, 1) == Steps(prog, Step(prog, c), 0);
  }

  lemma StretchReaches(prog: seq<Instr>, pc: nat, code: seq<Instr>, m: Cpu)
    requires CodeAt(prog, pc, code) && ExecAll(code, m).Some?
    ensures Reaches(prog, Running(pc, m), Running(pc + |code|, ExecAll(code, m).value))
  {
    ExecutedIsStraight(code, m);
    RunStretch(prog, pc, code, m);
  }

  lemma TargetOk(f: Fn, root: seq<Id>, b: BlockId, t: BlockId)
    requires WellFormed(f, root) && t < |f.blocks|
    ensures forall v :: v in f.blocks[t].list ==> v < |f.insts| && IncomingOk(f, root, b, v)
  {
    assert ListedOk(f, t);
    forall v: Id | v in f.blocks[t].list
      ensures v < |f.insts| && IncomingOk(f, root, b, v)
    {
    }
  }

  /** Copies for an edge, then the jump. */
  lemma EdgeJump(f: Fn, root: seq<Id>, env: Env, m: Cpu, fr: Frame, b: BlockId, t: BlockId, pc: nat) returns (m': Cpu)
    requires WellFormed(f, root) && Rel(f, env, m, fr) && t < |f.blocks| && |f.blocks[t].list| <= fr.room
    requires CodeAt(FnCode(f, root), pc, PhiCopies(f, root, b, t) + [Jmp(BlockLabel(t))])
    ensures Rel(f, Enter(f, root, env, b, t), m', fr) && Outside(m, m', fr)
    ensures Reaches(FnCode(f, root), Running(pc, m), Running(Start(f, root, t), m'))
  {
    hide Rel, Outside, Enter, PhiCopies, BlockCode, FnCode, Exec;
    var prog := FnCode(f, root);
    var code := PhiCopies(f, root, b, t);
    TargetOk(f, root, b, t);
    EdgeRight(f, root, env, m, fr, b, t);
    m' := ExecAll(code, m).value;
    CodeSplit(prog, pc, code, [Jmp(BlockLabel(t))]);
    StretchReaches(prog, pc, code, m);
    BlockPlace(f, root, t);
    var at := pc + |code|;
    assert prog[at] == [Jmp(BlockLabel(t))][0];
    StepReaches(prog, Running(at, m'));
    ReachesTrans(prog, Running(pc, m), Running(at, m'), Running(Start(f, root, t), m'));
  }

  lemma {:induction false} AndSelf(u: int, n: nat)
    requires 0 <= u < Pow2(n)
    ensures WordBits(And, u, u, n) == u
    decreases n
  {
    if n > 0 {
      AndSelf(u / 2, n - 1);
    }
  }

  lemma TestRight(m: Cpu)
    ensures
      match Exec(Test(Rax, Rax), m)
      case None => false
      case Some(m') => OnlyScratch(m, m') && (m'.flags.zf <==> m.Get(Rax) == 0)
  {
    Pow2Values();
    AndSelf(m.Get(Rax), 64);
  }

  lemma RootingOf(f: Fn, root: seq<Id>)
    requires WellFormed(f, root)
    ensures Rooting(f, root)
  {
  }

  /** The condition is tested; the jump is taken when it is false. */
  lemma CondJump(prog: seq<Instr>, pc: nat, f: Fn, root: seq<Id>, env: Env, m: Cpu, fr: Frame, c: Id, l: Label)
    returns (m': Cpu)
    requires WellFormed(f, root) && Rel(f, env, m, fr) && Known(f, root, env, c) && Sized(TypeOf(f, root, c))
    requires CodeAt(prog, pc, [LoadFrom(root, Rax, c), Test(Rax, Rax)] + [Jz(l)])
    ensures OnlyScratch(m, m')
    ensures ValueOf(f, root, env, c) != 0 ==> Reaches(prog, Running(pc, m), Running(pc + 3, m'))
    ensures ValueOf(f, root, env, c) == 0 && Find(prog, l).Some? ==>
              Reaches(prog, Running(pc, m), Running(Find(prog, l).value, m'))
  {
    hide Pow2, WordBits, Reaches, WellFormed, InRange, S;
    RootingOf(f, root);
    LoadSlot(f, root, env, m, fr, Rax, c);
    var m1 := Exec(LoadFrom(root, Rax, c), m).value;
    ReadBack(TypeOf(f, root, c), ValueOf(f, root, env, c));
    TestRight(m1);
    m' := Exec(Test(Rax, Rax), m1).value;
    JumpAfter(prog, pc, LoadFrom(root, Rax, c), l, m, m1, m');
  }

  /** A load and a test, then the conditional jump. */
  lemma JumpAfter(prog: seq<Instr>, pc: nat, load: Instr, l: Label, m: Cpu, m1: Cpu, m': Cpu)
    requires Straight(load) && Exec(load, m) == Some(m1) && Exec(Test(Rax, Rax), m1) == Some(m')
    requires CodeAt(prog, pc, [load, Test(Rax, Rax)] + [Jz(l)])
    ensures !m'.flags.zf ==> Reaches(prog, Running(pc, m), Running(pc + 3, m'))
    ensures m'.flags.zf && Find(prog, l).Some? ==> Reaches(prog, Running(pc, m), Running(Find(prog, l).value, m'))
  {
    hide Reaches, Exec;
    Two(load, Test(Rax, Rax), m);
    var head := [load, Test(Rax, Rax)];
    CodeSplit(prog, pc, head, [Jz(l)]);
    StretchReaches(prog, pc, head, m);
    assert prog[pc + 2] == [Jz(l)][0];
    StepReaches(prog, Running(pc + 2, m'));
    ReachesTrans(prog, Running(pc, m), Running(pc + 2, m'), Step(prog, Running(pc + 2, m')));
  }

  lemma OutsideScratch(m: Cpu, m1: Cpu, m2: Cpu, fr: Frame)
    requires OnlyScratch(m, m1) && Outside(m1, m2, fr)
    ensures Outside(m, m2, fr)
  {
  }

  predicate TermTargetsFit(f: Fn, b: BlockId, room: nat) {
    b < |f.blocks| ==> |f.blocks[b].list| <= room
  }

  /** How the machine stands when the IR stands somewhere: at a block, or returned to the
      address the caller pushed, with the stack pointer and rbp given back. */
  ghost predicate Matches(f: Fn, root: seq<Id>, st: State, c: Conf, m0: Cpu, fr: Frame) {
    match st
    case At(b, env) =>
      && b < |f.blocks| && c.Running? && c.pc == Start(f, root, b)
      && Rel(f, env, c.m, fr) && Outside(m0, c.m, fr)
    case Done(values, tys) =>
      && c.Returned? && c.to == m0.At(fr.base + 8)
      && c.m.Get(Rsp) == U(fr.base + 16) && c.m.Get(Rbp) == m0.At(fr.base)
      && |values| == |tys| <= 2
      && (|values| > 0 ==> InRange(tys[0], values[0]) && c.m.Get(Rax) == U(values[0]))
      && (|values| > 1 ==> InRange(tys[1], values[1]) && c.m.Get(Rdx) == U(values[1]))
      && forall a :: a >= fr.base ==> c.m.At(a) == m0.At(a)
    case Stuck => false
  }

  lemma BrRight(f: Fn, root: seq<Id>, env: Env, m0: Cpu, m: Cpu, fr: Frame, b: BlockId, pc: nat) returns (c: Conf)
    requires WellFormed(f, root) && Rel(f, env, m, fr) && Outside(m0, m, fr) && b < |f.blocks|
    requires forall t :: TermTargetsFit(f, t, fr.room)
    requires f.blocks[b].term.Br? && f.blocks[b].term.target < |f.blocks|
    requires CodeAt(FnCode(f, root), pc, TermCode(f, root, b))
    ensures Reaches(FnCode(f, root), Running(pc, m), c)
    ensures Matches(f, root, RunTerm(f, root, env, b), c, m0, fr)
  {
    hide Rel, Outside, Enter, PhiCopies, FnCode;
    var t := f.blocks[b].term.target;
    assert TermTargetsFit(f, t, fr.room);
    var m' := EdgeJump(f, root, env, m, fr, b, t, pc);
    OutsideTrans(m0, m, m', fr);
    c := Running(Start(f, root, t), m');
  }

  lemma CondBrTaken(f: Fn, root: seq<Id>, env: Env, m0: Cpu, m: Cpu, fr: Frame, b: BlockId, pc: nat,
                    l: Label, rest: seq<Instr>) returns (c: Conf)
    requires WellFormed(f, root) && Rel(f, env, m, fr) && Outside(m0, m, fr) && b < |f.blocks|
    requires forall t :: TermTargetsFit(f, t, fr.room)
    requires f.blocks[b].term.CondBr?
    requires var t := f.blocks[b].term; t.ifTrue < |f.blocks| && Known(f, root, env, t.cond) && Sized(TypeOf(f, root, t.cond))
    requires ValueOf(f, root, env, f.blocks[b].term.cond) != 0
    requires CodeAt(FnCode(f, root), pc,
      [LoadFrom(root, Rax, f.blocks[b].term.cond), Test(Rax, Rax)] + [Jz(l)]
      + (PhiCopies(f, root, b, f.blocks[b].term.ifTrue) + [Jmp(BlockLabel(f.blocks[b].term.ifTrue))]) + rest)
    ensures Reaches(FnCode(f, root), Running(pc, m), c)
    ensures Matches(f, root, At(f.blocks[b].term.ifTrue, Enter(f, root, env, b, f.blocks[b].term.ifTrue)), c, m0, fr)
  {
    hide Rel, Outside, Enter, PhiCopies, FnCode, OnlyScratch;
    var prog := FnCode(f, root);
    var t := f.blocks[b].term.ifTrue;
    var head := [LoadFrom(root, Rax, f.blocks[b].term.cond), Test(Rax, Rax)] + [Jz(l)];
    var edge := PhiCopies(f, root, b, t) + [Jmp(BlockLabel(t))];
    CodeSplit(prog, pc, head + edge, rest);
    CodeSplit(prog, pc, head, edge);
    var m1 := CondJump(prog, pc, f, root, env, m, fr, f.blocks[b].term.cond, l);
    RelSameMemory(f, env, m, m1, fr);
    assert TermTargetsFit(f, t, fr.room);
    var m2 := EdgeJump(f, root, env, m1, fr, b, t, pc + 3);
    OutsideScratch(m, m1, m2, fr);
    OutsideTrans(m0, m, m2, fr);
    ReachesTrans(prog, Running(pc, m), Running(pc + 3, m1), Running(Start(f, root, t), m2));
    c := Running(Start(f, root, t), m2);
  }

  /** Without phis in the target there is nothing to copy. */
  lemma {:induction false} NoPhiNoCopies(f: Fn, root: seq<Id>, env: Env, before: Env, from: BlockId, list: seq<Id>)
    requires !HasPhi(f, list)
    ensures EnterPhis(f, root, before, env, from, list) == env
    decreases |list|
  {
    if list != [] {
      NoPhiNoCopies(f, root, env, before, from, list[1..]);
    }
  }

  /** The false edge when its target has phis: the copies stand behind the edge label. */
  lemma CondBrToEdge(f: Fn, root: seq<Id>, env: Env, m0: Cpu, m: Cpu, fr: Frame, b: BlockId, pc: nat) returns (c: Conf)
    requires WellFormed(f, root) && Rel(f, env, m, fr) && Outside(m0, m, fr) && b < |f.blocks|
    requires forall t :: TermTargetsFit(f, t, fr.room)
    requires f.blocks[b].term.CondBr?
    requires var t := f.blocks[b].term; t.ifFalse < |f.blocks| && Known(f, root, env, t.cond) && Sized(TypeOf(f, root, t.cond))
    requires ValueOf(f, root, env, f.blocks[b].term.cond) == 0 && HasPhi(f, f.blocks[f.blocks[b].term.ifFalse].list)
    requires pc == Start(f, root, b) + 1 + |InstsCode(f, root, f.blocks[b].list)|
    requires CodeAt(FnCode(f, root), pc, TermCode(f, root, b))
    ensures Reaches(FnCode(f, root), Running(pc, m), c)
    ensures Matches(f, root, At(f.blocks[b].term.ifFalse, Enter(f, root, env, b, f.blocks[b].term.ifFalse)), c, m0, fr)
  {
    hide Rel, Outside, PhiCopies, FnCode, OnlyScratch, InstsCode, Start, Enter;
    var prog := FnCode(f, root);
    var CondBr(cond, t, e) := f.blocks[b].term;
    var head := [LoadFrom(root, Rax, cond), Test(Rax, Rax)];
    var taken := PhiCopies(f, root, b, t) + [Jmp(BlockLabel(t))];
    var edge := PhiCopies(f, root, b, e) + [Jmp(BlockLabel(e))];
    var before := head + [Jz(EdgeLabel(b))] + taken;
    TermShape(f, root, b);
    hide TermCode, CodeAt, Reaches, WellFormed, Matches;
    TermBeforeEdge(f, root, b, t, cond);
    EdgePlace(f, root, b, before, edge);
    CodeSplit(prog, pc, before + [Lbl(EdgeLabel(b))], edge);
    CodeSplit(prog, pc, before, [Lbl(EdgeLabel(b))]);
    CodeSplit(prog, pc, head + [Jz(EdgeLabel(b))], taken);
    var m1 := CondJump(prog, pc, f, root, env, m, fr, cond, EdgeLabel(b));
    var at := pc + |before|;
    LabelStep(prog, at, EdgeLabel(b), m1);
    ReachesTrans(prog, Running(pc, m), Running(at, m1), Running(at + 1, m1));
    assert TermTargetsFit(f, e, fr.room);
    c := AfterScratch(f, root, env, m0, m, m1, fr, b, e, at + 1);
    ReachesTrans(prog, Running(pc, m), Running(at + 1, m1), c);
  }

  /** The rest of an edge once only scratch registers have changed. */
  lemma AfterScratch(f: Fn, root: seq<Id>, env: Env, m0: Cpu, m: Cpu, m1: Cpu, fr: Frame, b: BlockId, t: BlockId, pc: nat)
    returns (c: Conf)
    requires WellFormed(f, root) && Rel(f, env, m, fr) && Outside(m0, m, fr) && OnlyScratch(m, m1)
    requires t < |f.blocks| && |f.blocks[t].list| <= fr.room
    requires CodeAt(FnCode(f, root), pc, PhiCopies(f, root, b, t) + [Jmp(BlockLabel(t))])
    ensures Reaches(FnCode(f, root), Running(pc, m1), c)
    ensures Matches(f, root, At(t, Enter(f, root, env, b, t)), c, m0, fr)
  {
    hide Rel, Outside, PhiCopies, FnCode, OnlyScratch, Start, Enter, CodeAt, Reaches, WellFormed;
    RelSameMemory(f, env, m, m1, fr);
    var m2 := EdgeJump(f, root, env, m1, fr, b, t, pc);
    OutsideScratch(m, m1, m2, fr);
    OutsideTrans(m0, m, m2, fr);
    c := Running(Start(f, root, t), m2);
  }

  /** The false edge when there is nothing to copy: straight to the target. */
  lemma CondBrDirect(f: Fn, root: seq<Id>, env: Env, m0: Cpu, m: Cpu, fr: Frame, b: BlockId, pc: nat) returns (c: Conf)
    requires WellFormed(f, root) && Rel(f, env, m, fr) && Outside(m0, m, fr) && b < |f.blocks|
    requires f.blocks[b].term.CondBr?
    requires var t := f.blocks[b].term; t.ifFalse < |f.blocks| && Known(f, root, env, t.cond) && Sized(TypeOf(f, root, t.cond))
    requires ValueOf(f, root, env, f.blocks[b].term.cond) == 0 && !HasPhi(f, f.blocks[f.blocks[b].term.ifFalse].list)
    requires CodeAt(FnCode(f, root), pc, TermCode(f, root, b))
    ensures Reaches(FnCode(f, root), Running(pc, m), c)
    ensures Matches(f, root, At(f.blocks[b].term.ifFalse, Enter(f, root, env, b, f.blocks[b].term.ifFalse)), c, m0, fr)
  {
    hide Rel, Outside, PhiCopies, FnCode, OnlyScratch, InstsCode, Start;
    var prog := FnCode(f, root);
    var CondBr(cond, t, e) := f.blocks[b].term;
    var head := [LoadFrom(root, Rax, cond), Test(Rax, Rax)];
    TermShape(f, root, b);
    hide TermCode, CodeAt, Reaches;
    CodeSplit(prog, pc, head + [Jz(BlockLabel(e))], PhiCopies(f, root, b, t) + [Jmp(BlockLabel(t))]);
    BlockPlace(f, root, e);
    var m1 := CondJump(prog, pc, f, root, env, m, fr, cond, BlockLabel(e));
    RelSameMemory(f, env, m, m1, fr);
    NoPhiNoCopies(f, root, env, env, b, f.blocks[e].list);
    OutsideRefl(m1, fr);
    OutsideScratch(m, m1, m1, fr);
    OutsideTrans(m0, m, m1, fr);
    c := Running(Start(f, root, e), m1);
  }

  lemma OutsideRefl(m: Cpu, fr: Frame)
    ensures Outside(m, m, fr)
  {
  }

  lemma LabelStep(prog: seq<Instr>, pc: nat, l: Label, m: Cpu)
    requires CodeAt(prog, pc, [Lbl(l)])
    ensures Reaches(prog, Running(pc, m), Running(pc + 1, m))
  {
    assert prog[pc] == [Lbl(l)][0];
    StepReaches(prog, Running(pc, m));
  }

  /** The two shapes of a conditional branch, grouped. */
  lemma TermShape(f: Fn, root: seq<Id>, b: BlockId)
    requires b < |f.blocks| && f.blocks[b].term.CondBr? && f.blocks[b].term.ifFalse < |f.blocks|
    ensures
      var CondBr(cond, t, e) := f.blocks[b].term;
      var head := [LoadFrom(root, Rax, cond), Test(Rax, Rax)];
      var taken := PhiCopies(f, root, b, t) + [Jmp(BlockLabel(t))];
      TermCode(f, root, b) ==
        if HasPhi(f, f.blocks[e].list) then
          head + [Jz(EdgeLabel(b))] + taken + [Lbl(EdgeLabel(b))] + (PhiCopies(f, root, b, e) + [Jmp(BlockLabel(e))])
        else head + [Jz(BlockLabel(e))] + taken
  {
  }

  lemma TermBeforeEdge(f: Fn, root: seq<Id>, b: BlockId, t: BlockId, cond: Id)
    ensures Lbl(EdgeLabel(b)) !in
      [LoadFrom(root, Rax, cond), Test(Rax, Rax)] + [Jz(EdgeLabel(b))] + (PhiCopies(f, root, b, t) + [Jmp(BlockLabel(t))])
  {
    if t < |f.blocks| {
      CopiesPlain(f, root, b, f.blocks[t].list);
    }
  }

  /** leave; ret. */
  function AfterRet(m: Cpu): Cpu {
    m.Set(Rsp, m.Get(Rbp) + 8).Set(Rbp, m.At(m.Get(Rbp))).Set(Rsp, m.Get(Rbp) + 16)
  }

  lemma LeaveRet(prog: seq<Instr>, pc: nat, m: Cpu)
    requires CodeAt(prog, pc, [Leave] + [Asm.Ret]) && m.Get(Rbp) + 16 < W
    ensures Reaches(prog, Running(pc, m), Returned(m.At(m.Get(Rbp) + 8), AfterRet(m)))
  {
    CodeSplit(prog, pc, [Leave], [Asm.Ret]);
    One(Leave, m);
    var m' := Exec(Leave, m).value;
    StretchReaches(prog, pc, [Leave], m);
    assert prog[pc + 1] == [Asm.Ret][0];
    StepReaches(prog, Running(pc + 1, m'));
    assert m'.Get(Rsp) == m.Get(Rbp) + 8;
    ReachesTrans(prog, Running(pc, m), Running(pc + 1, m'), Step(prog, Running(pc + 1, m')));
  }

  lemma RetReaches(prog: seq<Instr>, pc: nat, loads: seq<Instr>, m: Cpu)
    requires CodeAt(prog, pc, loads + [Leave, Asm.Ret]) && ExecAll(loads, m).Some?
    requires ExecAll(loads, m).value.Get(Rbp) + 16 < W
    ensures
      var m1 := ExecAll(loads, m).value;
      Reaches(prog, Running(pc, m), Returned(m1.At(m1.Get(Rbp) + 8), AfterRet(m1)))
  {
    hide Reaches, AfterRet, ExecAll;
    var m1 := ExecAll(loads, m).value;
    assert loads + [Leave, Asm.Ret] == loads + ([Leave] + [Asm.Ret]);
    CodeSplit(prog, pc, loads, [Leave] + [Asm.Ret]);
    StretchReaches(prog, pc, loads, m);
    LeaveRet(prog, pc + |loads|, m1);
    ReachesTrans(prog, Running(pc, m), Running(pc + |loads|, m1), Returned(m1.At(m1.Get(Rbp) + 8), AfterRet(m1)));
  }

  lemma AfterRetRegs(m: Cpu)
    ensures AfterRet(m).Get(Rsp) == U(m.Get(Rbp) + 16) && AfterRet(m).Get(Rbp) == m.At(m.Get(Rbp))
    ensures AfterRet(m).Get(Rax) == m.Get(Rax) && AfterRet(m).Get(Rdx) == m.Get(Rdx) && AfterRet(m).mem == m.mem
  {
    UOfWord(m.At(m.Get(Rbp)));
  }

  lemma RetRight(f: Fn, root: seq<Id>, env: Env, m0: Cpu, m: Cpu, fr: Frame, b: BlockId, pc: nat) returns (c: Conf)
    requires WellFormed(f, root) && Rel(f, env, m, fr) && Outside(m0, m, fr) && b < |f.blocks|
    requires f.blocks[b].term.Ret? && RunTerm(f, root, env, b).Done?
    requires CodeAt(FnCode(f, root), pc, TermCode(f, root, b)) && fr.base + 16 < W
    ensures Reaches(FnCode(f, root), Running(pc, m), c)
    ensures Matches(f, root, RunTerm(f, root, env, b), c, m0, fr)
  {
    hide FnCode, RetLoads, ExecAll, U, Reaches, Rel, AfterRet, CodeAt;
    var rets := f.blocks[b].term.rets;
    RetLoadsRight(f, root, env, m, fr, rets);
    ValuesInRange(f, root, env, m, fr, rets);
    BaseOf(f, env, m, fr);
    var m1 := ExecAll(RetLoads(root, rets), m).value;
    RetReaches(FnCode(f, root), pc, RetLoads(root, rets), m);
    AfterRetRegs(m1);
    c := Returned(m1.At(fr.base + 8), AfterRet(m1));
  }

  lemma BaseOf(f: Fn, env: Env, m: Cpu, fr: Frame)
    requires Rel(f, env, m, fr)
    ensures m.Get(Rbp) == fr.base
  {
  }

  lemma RetLoadsRight(f: Fn, root: seq<Id>, env: Env, m: Cpu, fr: Frame, rets: seq<Id>)
    requires Rooting(f, root) && Rel(f, env, m, fr) && AllKnown(f, root, env, rets) && |rets| <= 2
    ensures
      match ExecAll(RetLoads(root, rets), m)
      case None => false
      case Some(m') =>
        && m'.mem == m.mem && m'.Get(Rbp) == m.Get(Rbp)
        && (|rets| > 0 ==> m'.Get(Rax) == U(ValueOf(f, root, env, rets[0])))
        && (|rets| > 1 ==> m'.Get(Rdx) == U(ValueOf(f, root, env, rets[1])))
  {
    hide U, ValueOf, Exec;
    if |rets| >= 1 {
      LoadSlot(f, root, env, m, fr, Rax, rets[0]);
      var m1 := Exec(LoadFrom(root, Rax, rets[0]), m).value;
      if |rets| == 1 {
        One(LoadFrom(root, Rax, rets[0]), m);
      } else {
        LoadSlot(f, root, env, m1, fr, Rdx, rets[1]);
        Two(LoadFrom(root, Rax, rets[0]), LoadFrom(root, Rdx, rets[1]), m);
      }
    }
  }

  lemma TermRight(f: Fn, root: seq<Id>, env: Env, m0: Cpu, m: Cpu, fr: Frame, b: BlockId, pc: nat) returns (c: Conf)
    requires WellFormed(f, root) && Rel(f, env, m, fr) && Outside(m0, m, fr) && b < |f.blocks| && fr.base + 16 < W
    requires forall t :: TermTargetsFit(f, t, fr.room)
    requires pc == Start(f, root, b) + 1 + |InstsCode(f, root, f.blocks[b].list)|
    requires CodeAt(FnCode(f, root), pc, TermCode(f, root, b))
    requires !RunTerm(f, root, env, b).Stuck?
    ensures Reaches(FnCode(f, root), Running(pc, m), c)
    ensures Matches(f, root, RunTerm(f, root, env, b), c, m0, fr)
  {
    hide Rel, Outside, PhiCopies, FnCode, InstsCode, Start, Enter, Matches;
    match f.blocks[b].term
    case Br(_) => c := BrRight(f, root, env, m0, m, fr, b, pc);
    case Ret(_) => c := RetRight(f, root, env, m0, m, fr, b, pc);
    case CondBr(cond, t, e) =>
      if ValueOf(f, root, env, cond) == 0 {
        if HasPhi(f, f.blocks[e].list) {
          c := CondBrToEdge(f, root, env, m0, m, fr, b, pc);
        } else {
          c := CondBrDirect(f, root, env, m0, m, fr, b, pc);
        }
      } else {
        TermShape(f, root, b);
        var taken := PhiCopies(f, root, b, t) + [Jmp(BlockLabel(t))];
        var head := [LoadFrom(root, Rax, cond), Test(Rax, Rax)];
        if HasPhi(f, f.blocks[e].list) {
          var rest := [Lbl(EdgeLabel(b))] + (PhiCopies(f, root, b, e) + [Jmp(BlockLabel(e))]);
          AppendAssoc(head + [Jz(EdgeLabel(b))] + taken, [Lbl(EdgeLabel(b))], PhiCopies(f, root, b, e) + [Jmp(BlockLabel(e))]);
          c := CondBrTaken(f, root, env, m0, m, fr, b, pc, EdgeLabel(b), rest);
        } else {
          assert TermCode(f, root, b) == head + [Jz(BlockLabel(e))] + taken + [];
          c := CondBrTaken(f, root, env, m0, m, fr, b, pc, BlockLabel(e), []);
        }
      }
    case _ =>
  }

  /** One block. */
  lemma BlockRight(f: Fn, root: seq<Id>, b: BlockId, env: Env, m0: Cpu, fr: Frame, m: Cpu) returns (c: Conf)
    requires WellFormed(f, root) && b < |f.blocks| && Rel(f, env, m, fr) && Outside(m0, m, fr) && fr.base + 16 < W
    requires forall t :: TermTargetsFit(f, t, fr.room)
    requires !RunBlock(f, root, At(b, env)).Stuck?
    ensures Reaches(FnCode(f, root), Running(Start(f, root, b), m), c)
    ensures Matches(f, root, RunBlock(f, root, At(b, env)), c, m0, fr)
  {
    hide Rel, Outside, FnCode, InstsCode, Start, Matches, TermCode, RunTerm, RunInsts;
    var prog := FnCode(f, root);
    var pc := Start(f, root, b);
    var list := f.blocks[b].list;
    var code := InstsCode(f, root, list);
    BlockPlace(f, root, b);
    CodeSplit(prog, pc, [Lbl(BlockLabel(b))] + code, TermCode(f, root, b));
    CodeSplit(prog, pc, [Lbl(BlockLabel(b))], code);
    LabelStep(prog, pc, BlockLabel(b), m);
    assert ListedOk(f, b);
    InstsRight(f, root, env, m, fr, list);
    var m1 := ExecAll(code, m).value;
    StretchReaches(prog, pc + 1, code, m);
    var at := pc + 1 + |code|;
    OutsideTrans(m0, m, m1, fr);
    c := TermRight(f, root, RunInsts(f, root, env, list).value, m0, m1, fr, b, at);
    ReachesTrans(prog, Running(pc, m), Running(pc + 1, m), Running(at, m1));
    ReachesTrans(prog, Running(pc, m), Running(at, m1), c);
  }

  /** The prologue saves rbp and makes the frame. */
  lemma PrologueRight(f: Fn, root: seq<Id>, m0: Cpu, room: nat) returns (m: Cpu, fr: Frame)
    requires WellFormed(f, root) && 8 + FrameSize(f) + 8 * room <= m0.Get(Rsp) && m0.Get(Rsp) + 8 < W
    ensures fr == Frame(m0.Get(Rsp) - 8, FrameSize(f), |f.insts|, room)
    ensures Reaches(FnCode(f, root), Running(0, m0), Running(4, m)) && Rel(f, map[], m, fr)
    ensures m.At(fr.base) == m0.Get(Rbp) && forall a :: a > fr.base ==> m.At(a) == m0.At(a)
  {
    hide BlocksCode, Prologue, Rel;
    fr := Frame(m0.Get(Rsp) - 8, FrameSize(f), |f.insts|, room);
    m := PrologueExec(f, m0);
    MiddleAt([], Prologue(f), BlocksCode(f, root, 0));
    AppendEmpty(Prologue(f));
    StretchReaches(FnCode(f, root), 0, Prologue(f), m0);
    FreshFrame(f, m, fr);
  }

  lemma FreshFrame(f: Fn, m: Cpu, fr: Frame)
    requires FrameOk(fr) && fr.values == |f.insts| && m.Get(Rbp) == fr.base && m.Get(Rsp) == fr.base - fr.size
    ensures Rel(f, map[], m, fr)
  {
  }

  /** push rbp; mov rbp, rsp. */
  lemma SaveBase(m0: Cpu) returns (m: Cpu)
    requires 8 <= m0.Get(Rsp)
    ensures ExecAll([Push(Rbp), Mov(Rbp, Rsp)], m0) == Some(m)
    ensures m.Get(Rbp) == m0.Get(Rsp) - 8 && m.Get(Rsp) == m0.Get(Rsp) - 8
    ensures m.At(m0.Get(Rsp) - 8) == m0.Get(Rbp)
    ensures forall a :: a != m0.Get(Rsp) - 8 ==> m.At(a) == m0.At(a)
  {
    assert U(m0.Get(Rsp) - 8) == m0.Get(Rsp) - 8;
    UOfWord(m0.Get(Rbp));
    var m1 := Exec(Push(Rbp), m0).value;
    m := Exec(Mov(Rbp, Rsp), m1).value;
    Two(Push(Rbp), Mov(Rbp, Rsp), m0);
  }

  lemma MakeRoom(m0: Cpu, n: nat) returns (m: Cpu)
    requires n <= m0.Get(Rsp)
    ensures Exec(SubSp(n), m0) == Some(m)
    ensures m.Get(Rbp) == m0.Get(Rbp) && m.Get(Rsp) == m0.Get(Rsp) - n && m.mem == m0.mem
  {
    m := Exec(SubSp(n), m0).value;
  }

  lemma PrologueExec(f: Fn, m0: Cpu) returns (m: Cpu)
    requires 8 + FrameSize(f) <= m0.Get(Rsp)
    ensures ExecAll(Prologue(f), m0) == Some(m) && |Prologue(f)| == 4
    ensures m.Get(Rbp) == m0.Get(Rsp) - 8 && m.Get(Rsp) == m0.Get(Rsp) - 8 - FrameSize(f)
    ensures m.At(m0.Get(Rsp) - 8) == m0.Get(Rbp)
    ensures forall a :: a > m0.Get(Rsp) - 8 ==> m.At(a) == m0.At(a)
  {
    hide FrameSize, Exec, ExecAll;
    var n := FrameSize(f);
    var m1 := SaveBase(m0);
    m := MakeRoom(m1, n);
    LabelExec(m0);
    One(SubSp(n), m1);
    assert Prologue(f) == [Lbl(FnLabel)] + [Push(Rbp), Mov(Rbp, Rsp)] + [SubSp(n)];
    ExecAppend([Lbl(FnLabel)], [Push(Rbp), Mov(Rbp, Rsp)], m0);
    ExecAppend([Lbl(FnLabel)] + [Push(Rbp), Mov(Rbp, Rsp)], [SubSp(n)], m0);
  }

  lemma LabelExec(m: Cpu)
    ensures ExecAll([Lbl(FnLabel)], m) == Some(m)
  {
    One(Lbl(FnLabel), m);
  }

  lemma {:induction false} RunRight(f: Fn, root: seq<Id>, m0: Cpu, fr: Frame, n: nat) returns (c: Conf)
    requires WellFormed(f, root) && Rel(f, map[], m0, fr) && fr.base + 16 < W
    requires forall t :: TermTargetsFit(f, t, fr.room)
    requires !Run(f, root, At(0, map[]), n).Stuck?
    ensures Reaches(FnCode(f, root), Running(4, m0), c)
    ensures Matches(f, root, Run(f, root, At(0, map[]), n), c, m0, fr)
    decreases n
  {
    hide Rel, Outside, FnCode;
    if n == 0 {
      c := Running(4, m0);
      assert Steps(FnCode(f, root), c, 0) == c;
      OutsideRefl(m0, fr);
      assert Start(f, root, 0) == 4;
    } else {
      var before := Run(f, root, At(0, map[]), n - 1);
      var c1 := RunRight(f, root, m0, fr, n - 1);
      match before
      case At(b, env) =>
        c := BlockRight(f, root, b, env, m0, fr, c1.m);
        ReachesTrans(FnCode(f, root), Running(4, m0), c1, c);
      case Done(_, _) => c := c1;
    }
  }

  /** Main result. After any number `n` of blocks, the machine that was started at the
      function's first instruction gets to where the IR is, with every value in its slot; if
      the IR has returned, the machine has returned to the caller's address with the values in
      rax and rdx, rsp and rbp given back, and the caller's memory as it was. */
  lemma FunctionRight(f: Fn, root: seq<Id>, m0: Cpu, room: nat, n: nat) returns (c: Conf, m: Cpu, fr: Frame)
    requires WellFormed(f, root) && forall t :: TermTargetsFit(f, t, room)
    requires 8 + FrameSize(f) + 8 * room <= m0.Get(Rsp) && m0.Get(Rsp) + 8 < W
    requires !Run(f, root, At(0, map[]), n).Stuck?
    ensures fr == Frame(m0.Get(Rsp) - 8, FrameSize(f), |f.insts|, room)
    ensures Reaches(FnCode(f, root), Running(0, m0), c)
    ensures
      match Run(f, root, At(0, map[]), n)
      case At(b, env) => b < |f.blocks| && c.Running? && c.pc == Start(f, root, b) && Rel(f, env, c.m, fr)
      case Done(values, tys) =>
        && c.Returned? && c.to == m0.At(m0.Get(Rsp))
        && c.m.Get(Rsp) == m0.Get(Rsp) + 8 && c.m.Get(Rbp) == m0.Get(Rbp)
        && (|values| > 0 ==> c.m.Get(Rax) == U(values[0]))
        && (|values| > 1 ==> c.m.Get(Rdx) == U(values[1]))
        && forall a :: a >= m0.Get(Rsp) ==> c.m.At(a) == m0.At(a)
      case Stuck => false
  {
    hide Rel, FnCode, Run, Reaches;
    m, fr := PrologueRight(f, root, m0, room);
    c := RunRight(f, root, m, fr, n);
    ReachesTrans(FnCode(f, root), Running(0, m0), Running(4, m), c);
  }
}
