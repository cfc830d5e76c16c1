/** From the reads of the source program to machine words: not only where a block begins, but at each
    read inside it. */
module ReadsInside {
  import opened Cfg
  import opened Ir
  import opened Wrappers
  import opened Word
  import opened Asm
  import opened SsaInv
  import opened SsaMeaning
  import opened IrSem
  import opened Codegen
  import opened Simulation
  import opened SimulationRun
  import opened Compose

  lemma {:induction false} InstsCodeAppend(f: Fn, root: seq<Id>, pre: seq<Id>, post: seq<Id>)
    ensures InstsCode(f, root, pre + post) == InstsCode(f, root, pre) + InstsCode(f, root, post)
  {
    hide InstCode;
    if pre == [] {
      assert pre + post == post;
    } else {
      assert (pre + post)[1..] == pre[1..] + post;
      InstsCodeAppend(f, root, pre[1..], post);
    }
  }

  lemma {:induction false} RunInstsAppend(f: Fn, root: seq<Id>, env: Env, pre: seq<Id>, post: seq<Id>)
    ensures RunInsts(f, root, env, pre + post) ==
      match RunInsts(f, root, env, pre)
      case None => None
      case Some(env') => RunInsts(f, root, env', post)
    decreases |pre|
  {
    hide RunInst;
    if pre == [] {
      assert pre + post == post;
    } else {
      assert (pre + post)[1..] == pre[1..] + post && (pre + post)[0] == pre[0];
      var r := RunInst(f, root, env, pre[0]);
      if r.Some? {
        RunInstsAppend(f, root, r.value, pre[1..], post);
      }
    }
  }

  /** The machine runs the first instructions of a block. */
  lemma PrefixRight(f: Fn, root: seq<Id>, b: BlockId, env: Env, fr: Frame, m: Cpu, pre: seq<Id>, post: seq<Id>) returns (c: Conf)
    requires WellFormed(f, root) && b < |f.blocks| && Rel(f, env, m, fr) && f.blocks[b].list == pre + post
    requires RunInsts(f, root, env, pre).Some?
    ensures c.Running? && c.pc == Start(f, root, b) + 1 + |InstsCode(f, root, pre)|
    ensures Reaches(FnCode(f, root), Running(Start(f, root, b), m), c)
    ensures Rel(f, RunInsts(f, root, env, pre).value, c.m, fr)
  {
    hide Rel, Outside, FnCode, InstsCode, Start, TermCode, RunInsts;
    var prog := FnCode(f, root);
    var pc := Start(f, root, b);
    var code, more := InstsCode(f, root, pre), InstsCode(f, root, post);
    InstsCodeAppend(f, root, pre, post);
    BlockPlace(f, root, b);
    CodeSplit(prog, pc, [Lbl(BlockLabel(b))] + (code + more), TermCode(f, root, b));
    CodeSplit(prog, pc, [Lbl(BlockLabel(b))], code + more);
    CodeSplit(prog, pc + 1, code, more);
    LabelStep(prog, pc, BlockLabel(b), m);
    assert ListedOk(f, b);
    assert forall v :: v in pre ==> v in f.blocks[b].list;
    InstsRight(f, root, env, m, fr, pre);
    StretchReaches(prog, pc + 1, code, m);
    c := Running(pc + 1 + |code|, ExecAll(code, m).value);
    ReachesTrans(prog, Running(pc, m), Running(pc + 1, m), c);
  }

  /** The block of the instruction behind a read has been entered. */
  lemma EventPassed(g: Graph, f: Fn, s: Shadow, p: seq<BlockId>, i: nat)
    requires Inv(g, f, s) && IsPath(g, p) && Last(p) < |f.blocks| && i < |s.log[Last(p)]| && s.log[Last(p)][i].Got?
    requires !Isolated(g, Last(p)) || LastWrite(s.log[Last(p)][..i], s.log[Last(p)][i].x).None?
    ensures Passed(f, s, p, s.log[Last(p)][i].v)
  {
    var b := Last(p);
    var e := s.log[b][i];
    assert EventOk(g, f, s, b, i);
    match LastWrite(s.log[b][..i], e.x)
    case None => EntryAvailable(g, f, s, p, e.x);
    case Some(w) =>
      var k := LastWriteLogged(s.log[b][..i], e.x);
      assert EventOk(g, f, s, b, k);
      assert IsPathTo(g, p, b);
      Available(g, f, s, p);
      assert Passed(f, s, p, w);
  }

  /** When the instructions made before the read have run, what the read stands for has its value. */
  lemma ReadKnown(g: Graph, f: Fn, s: Shadow, n: nat, i: nat, pre: seq<Id>, post: seq<Id>)
    requires Built(g, f, s) && Start0(f, s.root, n).At? && Start0(f, s.root, n).b < |f.blocks|
    requires f.blocks[Start0(f, s.root, n).b].list == pre + post
    requires RunInsts(f, s.root, Start0(f, s.root, n).env, pre + post).Some?
    requires i < |s.log[Start0(f, s.root, n).b]| && s.log[Start0(f, s.root, n).b][i].Got?
    requires
      var b := Start0(f, s.root, n).b;
      && (!Isolated(g, b) || LastWrite(s.log[b][..i], s.log[b][i].x).None?)
      && forall r :: r in pre + post && r < s.log[b][i].now ==> r in pre
    ensures
      var st := Start0(f, s.root, n);
      var v := s.log[st.b][i].v;
      && v < |f.insts| && RunInsts(f, s.root, st.env, pre).Some?
      && s.root[v] in RunInsts(f, s.root, st.env, pre).value
      && RunInsts(f, s.root, st.env, pre).value[s.root[v]] == Value(f, s, Trail(f, s.root, n), s.root[v])
  {
    hide Built, Trail, EndEnv, Run, Value, Dominates;
    BuiltFacts(g, f, s);
    TrailIsPath(g, f, s, n);
    var st, p := Start0(f, s.root, n), Trail(f, s.root, n);
    EventPassed(g, f, s, p, i);
    AlreadyExecuted(g, f, s, st.b, i);
    var v := s.log[st.b][i].v;
    var r := s.root[v];
    RunInstsAppend(f, s.root, st.env, pre, post);
    RootStays(g, f, s, v, st.b);
    if Ordinary(f, r, st.b) {
      assert NoDuplicates(pre + post) && r in pre;
      RunHere(f, s.root, st.env, pre, post, r);
      EndIsRun(f, s, n);
      OwnValue(f, s, n, r);
    } else {
      NotOwnKnown(g, f, s, n, r);
      assert r in pre ==> r in f.blocks[st.b].list;
      RunInstsValues(f, s.root, st.env, pre, r);
    }
  }

  lemma BuiltFacts(g: Graph, f: Fn, s: Shadow)
    requires Built(g, f, s)
    ensures Inv(g, f, s) && |f.blocks| == |g.preds|
  {
  }

  lemma RootStays(g: Graph, f: Fn, s: Shadow, v: Id, b: BlockId)
    requires Inv(g, f, s) && v < |f.insts|
    ensures s.root[v] < |f.insts| && !f.insts[s.root[v]].removed && ListOk(f, b)
  {
    assert ChainOk(f, s, v) && ChainOk(f, s, s.root[v]);
  }

  lemma EndIsRun(f: Fn, s: Shadow, n: nat)
    requires Start0(f, s.root, n).At? && Start0(f, s.root, n).b < |f.blocks|
    requires RunInsts(f, s.root, Start0(f, s.root, n).env, f.blocks[Start0(f, s.root, n).b].list).Some?
    ensures EndEnv(f, s.root, n) == RunInsts(f, s.root, Start0(f, s.root, n).env, f.blocks[Start0(f, s.root, n).b].list).value
  {
  }

  /** What the block has not computed itself is there when the block begins. */
  lemma NotOwnKnown(g: Graph, f: Fn, s: Shadow, n: nat, r: Id)
    requires Built(g, f, s) && Start0(f, s.root, n).At? && Start0(f, s.root, n).b < |f.blocks|
    requires r < |f.insts| && !f.insts[r].removed && !Ordinary(f, r, Start0(f, s.root, n).b)
    requires f.insts[r].block in Trail(f, s.root, n)
    ensures r in Start0(f, s.root, n).env && Start0(f, s.root, n).env[r] == Value(f, s, Trail(f, s.root, n), r)
  {
    hide Trail, EndEnv, Run, Value;
    TrailIsPath(g, f, s, n);
    Agrees(g, f, s, n);
    var st, p := Start0(f, s.root, n), Trail(f, s.root, n);
    assert p == Init(p) + [st.b];
    if n > 0 {
      ComputedAtEnd(g, f, s, n - 1);
      EnteredKnown(g, f, s, n, r);
    } else {
      NotInEntry(g, f, s, p, r);
      assert false;
    }
  }

  lemma NotInEntry(g: Graph, f: Fn, s: Shadow, p: seq<BlockId>, r: Id)
    requires Built(g, f, s) && |p| == 1 && p[0] == 0 && r < |f.insts| && f.insts[r].block in p
    ensures Ordinary(f, r, 0)
  {
    if f.insts[r].op.Phi? {
      NoPhiInEntry(g, f, s, r);
    }
  }

  lemma OnlyOnce(pre: seq<Id>, post: seq<Id>, r: Id)
    requires NoDuplicates(pre + post) && r in pre
    ensures r !in post
  {
    var i :| 0 <= i < |pre| && pre[i] == r;
    forall j | 0 <= j < |post|
      ensures post[j] != r
    {
      assert (pre + post)[i] != (pre + post)[|pre| + j];
    }
  }

  /** An instruction among the first ones has its value from then on. */
  lemma RunHere(f: Fn, root: seq<Id>, env: Env, pre: seq<Id>, post: seq<Id>, r: Id)
    requires RunInsts(f, root, env, pre + post).Some? && NoDuplicates(pre + post)
    requires r in pre && r < |f.insts| && !f.insts[r].op.Phi?
    ensures RunInsts(f, root, env, pre).Some? && r in RunInsts(f, root, env, pre).value
    ensures r in RunInsts(f, root, env, pre + post).value
    ensures RunInsts(f, root, env, pre).value[r] == RunInsts(f, root, env, pre + post).value[r]
    ensures f.insts[r].op.ConstInt? ==> RunInsts(f, root, env, pre).value[r] == f.insts[r].op.value
  {
    RunInstsAppend(f, root, env, pre, post);
    RunInstsValues(f, root, env, pre, r);
    OnlyOnce(pre, post, r);
    RunInstsValues(f, root, RunInsts(f, root, env, pre).value, post, r);
  }

  /** The value of an instruction of the block that a run stands in. */
  lemma OwnValue(f: Fn, s: Shadow, n: nat, r: Id)
    requires Start0(f, s.root, n).At? && |Trail(f, s.root, n)| == n + 1
    requires Last(Trail(f, s.root, n)) == Start0(f, s.root, n).b && Ordinary(f, r, Start0(f, s.root, n).b)
    requires !f.insts[r].removed && r in EndEnv(f, s.root, n)
    requires f.insts[r].op.ConstInt? ==> EndEnv(f, s.root, n)[r] == f.insts[r].op.value
    ensures Value(f, s, Trail(f, s.root, n), r) == EndEnv(f, s.root, n)[r]
  {
    hide Start0, Trail, EndEnv;
  }

  /** Whenever the compiled function has run the instructions of a block that were made before a read
      of a variable, after any number of blocks, the word that ST_slot addresses for the answer of that
      read is the word of what the program last wrote to the variable, or of 0. In a block that nothing
      follows, this speaks of the variables that the block has not assigned. */
  lemma ReadToMachine(g: Graph, f: Fn, s: Shadow, m0: Cpu, room: nat, n: nat, i: nat, pre: seq<Id>, post: seq<Id>)
    returns (c: Conf)
    requires Built(g, f, s) && (forall t :: TermTargetsFit(f, t, room))
    requires 8 + FrameSize(f) + 8 * room <= m0.Get(Rsp) && m0.Get(Rsp) + 8 < W
    requires Start0(f, s.root, n).At? && Start0(f, s.root, n).b < |f.blocks|
    requires f.blocks[Start0(f, s.root, n).b].list == pre + post
    requires RunInsts(f, s.root, Start0(f, s.root, n).env, pre + post).Some?
    requires i < |s.log[Start0(f, s.root, n).b]| && s.log[Start0(f, s.root, n).b][i].Got?
    requires
      var b := Start0(f, s.root, n).b;
      && (!Isolated(g, b) || LastWrite(s.log[b][..i], s.log[b][i].x).None?)
      && forall r :: r in pre + post && r < s.log[b][i].now ==> r in pre
    ensures Reaches(FnCode(f, s.root), Running(0, m0), c) && c.Running?
    ensures c.pc == Start(f, s.root, Start0(f, s.root, n).b) + 1 + |InstsCode(f, s.root, pre)|
    ensures
      var b := Start0(f, s.root, n).b;
      && Trail(f, s.root, n) != [] && Last(Trail(f, s.root, n)) == b
      && c.m.At(c.m.Get(Rbp) + SlotOff(s.root, s.log[b][i].v))
           == U(SourceAt(f, s, NoJunk(), Delivered(f, s.root), Trail(f, s.root, n), i, s.log[b][i].x))
  {
    hide Trail, Rel, FnCode, InstsCode, Start, Run, FrameSize, U, Reaches, SourceAt, Slot, RunInsts;
    BuiltIsWellFormed(g, f, s);
    TrailIsPath(g, f, s, n);
    ReadKnown(g, f, s, n, i, pre, post);
    ReadsAreRight(g, f, s, NoJunk(), Delivered(f, s.root), Trail(f, s.root, n), i);
    RootingOf(f, s.root);
    var st := Start0(f, s.root, n);
    var c0, m, fr := FunctionRight(f, s.root, m0, room, n);
    c := PrefixRight(f, s.root, st.b, st.env, fr, c0.m, pre, post);
    ReachesTrans(FnCode(f, s.root), Running(0, m0), c0, c);
    SlotHolds(f, s.root, RunInsts(f, s.root, st.env, pre).value, c.m, fr, s.log[st.b][i].v);
  }
}
