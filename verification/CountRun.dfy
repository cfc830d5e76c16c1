/** What the counting function does when it runs, interpreted and compiled. */
module CountRun {
  import opened Cfg
  import opened Ir
  import opened Wrappers
  import opened Word
  import opened Asm
  import opened SsaInv
  import opened IrSem
  import opened Codegen
  import opened Simulation
  import opened SimulationRun
  import opened Compose
  import opened ArrayZero
  import opened CountLoop

  /** No phi was replaced: every instruction stands for itself. */
  ghost predicate Own(root: seq<Id>) {
    |root| == 6 && forall v :: 0 <= v < 6 ==> root[v] == v
  }

  lemma OwnRoots(count: int, s: Shadow)
    requires Built(LoopGraph(), Counting(count), s)
    ensures Own(s.root)
  {
    var f := Counting(count);
    forall v | 0 <= v < 6
      ensures s.root[v] == v
    {
      assert ChainOk(f, s, v);
      assert f.insts[v].repl.None?;
    }
  }

  lemma ConstRuns(f: Fn, root: seq<Id>, env: Env, v: Id, k: int)
    requires v < |f.insts| && f.insts[v].op == ConstInt(k) && f.insts[v].args == [] && f.insts[v].ty == INDEX && InRange(INDEX, k)
    ensures RunInst(f, root, env, v) == Some(env[v := k])
  {
    assert Values(f, root, env, []) == [] && Types(f, root, []) == [];
  }

  lemma PairRuns(f: Fn, root: seq<Id>, env: Env, v: Id, p: Id, q: Id)
    requires Own(root) && |f.insts| == 6 && v < 6 && p < 6 && q < 6 && f.insts[v].args == [p, q] && p in env && q in env
    requires !f.insts[v].op.Phi?
    ensures RunInst(f, root, env, v) ==
      match InstValue(f.insts[v].op, f.insts[v].ty, [f.insts[p].ty, f.insts[q].ty], [env[p], env[q]])
      case None => None
      case Some(x) => Some(env[v := x])
  {
    assert Values(f, root, env, [p, q]) == [env[p], env[q]];
    assert Types(f, root, [p, q]) == [f.insts[p].ty, f.insts[q].ty];
  }

  lemma RunsOne(f: Fn, root: seq<Id>, env: Env, v: Id)
    ensures RunInsts(f, root, env, [v]) == RunInst(f, root, env, v)
  {
    assert [v][1..] == [];
  }

  lemma RunsPair(f: Fn, root: seq<Id>, env: Env, v: Id, w: Id)
    ensures RunInsts(f, root, env, [v, w]) == match RunInst(f, root, env, v) case None => None case Some(e) => RunInst(f, root, e, w)
  {
    hide RunInst;
    assert [v, w][1..] == [w];
    var r := RunInst(f, root, env, v);
    if r.Some? {
      RunsOne(f, root, r.value, w);
    }
  }

  /** Entering the head of the loop gives the counter the value that comes along the edge. */
  lemma EnterHead(count: int, root: seq<Id>, env: Env, from: BlockId, v: Id)
    requires Own(root) && ((from == 0 && v == 0) || (from == 2 && v == 5)) && v in env
    ensures Enter(Counting(count), root, env, from, 1) == env[1 := env[v]]
  {
    var f := Counting(count);
    assert [0, 5][1..] == [5] && [0, 2][1..] == [2];
    assert Incoming(f.insts[1], from) == Some(v);
    assert [1, 2, 3][1..] == [2, 3] && [2, 3][1..] == [3] && [3][1..] == [];
    var e := env[1 := env[v]];
    assert EnterPhis(f, root, env, e, from, [3]) == e;
    assert EnterPhis(f, root, env, e, from, [2, 3]) == e;
  }

  lemma EnterPlain(count: int, root: seq<Id>, env: Env, from: BlockId, to: BlockId)
    requires to == 2 || to == 3
    ensures Enter(Counting(count), root, env, from, to) == env
  {
    var f := Counting(count);
    assert [4, 5][1..] == [5] && [5][1..] == [];
    assert EnterPhis(f, root, env, env, from, [5]) == env;
  }

  lemma EntryRuns(count: int, root: seq<Id>)
    requires Own(root)
    ensures RunBlock(Counting(count), root, At(0, map[])) == At(1, map[0 := 0, 1 := 0])
  {
    hide RunInst, Enter;
    var f := Counting(count);
    var m: Env := map[];
    ConstRuns(f, root, m, 0, 0);
    RunsOne(f, root, m, 0);
    EnterHead(count, root, m[0 := 0], 0, 0);
    assert m[0 := 0][1 := 0] == map[0 := 0, 1 := 0];
  }

  lemma HeadRuns(count: int, root: seq<Id>, env: Env)
    requires Own(root) && InRange(INDEX, count) && 1 in env
    ensures
      var env' := env[2 := count][3 := BitOf(env[1] < count)];
      RunBlock(Counting(count), root, At(1, env)) == At(if env[1] < count then 2 else 3, env')
  {
    hide RunInst, Enter;
    var f := Counting(count);
    var e := env[2 := count];
    ConstRuns(f, root, env, 2, count);
    PairRuns(f, root, e, 3, 1, 2);
    RunsPair(f, root, env, 2, 3);
    PhiRuns(f, root, env);
    var env' := e[3 := BitOf(env[1] < count)];
    EnterPlain(count, root, env', 1, 2);
    EnterPlain(count, root, env', 1, 3);
  }

  lemma PhiRuns(f: Fn, root: seq<Id>, env: Env)
    requires |f.insts| == 6 && f.insts[1].op.Phi?
    ensures RunInsts(f, root, env, [1, 2, 3]) == RunInsts(f, root, env, [2, 3])
  {
    assert [1, 2, 3][1..] == [2, 3];
  }

  lemma BodyRuns(count: int, root: seq<Id>, env: Env)
    requires Own(root) && 1 in env && InRange(INDEX, env[1]) && InRange(INDEX, env[1] + 1)
    ensures RunBlock(Counting(count), root, At(2, env)) == At(1, env[4 := 1][5 := env[1] + 1][1 := env[1] + 1])
  {
    hide RunInst, Enter;
    var f := Counting(count);
    var e := env[4 := 1];
    ConstRuns(f, root, env, 4, 1);
    PairRuns(f, root, e, 5, 1, 4);
    WrapFits(env[1] + 1);
    RunsPair(f, root, env, 4, 5);
    EnterHead(count, root, e[5 := env[1] + 1], 2, 5);
  }

  lemma WrapFits(x: int)
    requires InRange(INDEX, x)
    ensures Wrap(INDEX, x) == x
  {
  }

  lemma ReturnRuns(count: int, root: seq<Id>, env: Env)
    requires Own(root) && 1 in env
    ensures RunBlock(Counting(count), root, At(3, env)) == Done([env[1]], [INDEX])
  {
    var f := Counting(count);
    assert Values(f, root, env, [1]) == [env[1]] && Types(f, root, [1]) == [INDEX];
  }

  /** After `c` rounds the counter is `c`. */
  lemma {:induction false} Rounds(count: int, root: seq<Id>, c: nat) returns (env: Env)
    requires Own(root) && InRange(INDEX, count) && (c == 0 || c <= count)
    ensures Run(Counting(count), root, At(0, map[]), 1 + 2 * c) == At(1, env) && 1 in env && env[1] == c
  {
    hide RunBlock;
    var f := Counting(count);
    if c == 0 {
      EntryRuns(count, root);
      env := map[0 := 0, 1 := 0];
    } else {
      var e := Rounds(count, root, c - 1);
      HeadRuns(count, root, e);
      var e1 := e[2 := count][3 := BitOf(e[1] < count)];
      BodyRuns(count, root, e1);
      env := e1[4 := 1][5 := c][1 := c];
      assert Run(f, root, At(0, map[]), 2 * c) == At(2, e1);
    }
  }

  function Counted(count: int): nat {
    if count < 0 then 0 else count
  }

  /** The function counts to `count`, or returns 0 if that is negative. */
  lemma Counts(count: int, root: seq<Id>)
    requires Own(root) && InRange(INDEX, count)
    ensures Run(Counting(count), root, At(0, map[]), 3 + 2 * Counted(count)) == Done([Counted(count)], [INDEX])
  {
    hide RunBlock;
    var f, c := Counting(count), Counted(count);
    var env := Rounds(count, root, c);
    HeadRuns(count, root, env);
    var e := env[2 := count][3 := BitOf(env[1] < count)];
    assert Run(f, root, At(0, map[]), 2 + 2 * c) == At(3, e);
    ReturnRuns(count, root, e);
  }

  /** The construction and the code generator together: the machine that runs the code of the function
      that was built returns to its caller with that number in rax. */
  lemma MachineCounts(count: int, s: Shadow, m0: Cpu, room: nat) returns (c: Conf)
    requires Built(LoopGraph(), Counting(count), s) && InRange(INDEX, count) && room >= 3
    requires 8 + FrameSize(Counting(count)) + 8 * room <= m0.Get(Rsp) && m0.Get(Rsp) + 8 < W
    ensures Reaches(FnCode(Counting(count), s.root), Running(0, m0), c)
    ensures c.Returned? && c.to == m0.At(m0.Get(Rsp)) && c.m.Get(Rax) == Counted(count)
  {
    hide Run, FnCode, FrameSize, Reaches;
    var f := Counting(count);
    BuiltIsWellFormed(LoopGraph(), f, s);
    OwnRoots(count, s);
    Counts(count, s.root);
    var m, fr;
    c, m, fr := FunctionRight(f, s.root, m0, room, 3 + 2 * Counted(count));
  }
}
