/** What the lowering itself does to a function: blocks, edges, terminators, sealing, and the
    program's own writes and reads of variables. */
module SsaLowering {
  import opened Cfg
  import opened Ir
  import opened Wrappers
  import opened SsaInv
  import opened SsaSteps
  import opened SsaEmit

  function NewBlock(f: Fn): Fn {
    f.(blocks := f.blocks + [Block([], [], NoTerm, false, map[], [])])
  }

  function NewBlockShadow(s: Shadow): Shadow {
    s.(inDefs := s.inDefs + [map[]], log := s.log + [[]], givenTerm := s.givenTerm + [NoTerm])
  }

  lemma NewBlockKeeps(g: Graph, f: Fn, s: Shadow)
    requires Inv(g, f, s) && |f.blocks| < |g.preds|
    ensures Inv(g, NewBlock(f), NewBlockShadow(s))
  {
    var f', s' := NewBlock(f), NewBlockShadow(s);
    forall v: Id
      ensures InstOk(f', v) && ChainOk(f', s', v) && OpenOk(f', s', v) && GivenOk(f', s', v)
    {
      assert InstOk(f, v) && ChainOk(f, s, v) && OpenOk(f, s, v) && GivenOk(f, s, v);
    }
    forall p: Id
      ensures PhiOk(f', s', p)
    {
      assert PhiOk(f, s, p);
      if p < |f.insts| && f.insts[p].op.Phi? {
        forall j | 0 <= j < |f.insts[p].args|
          ensures Answers(f', s', f.insts[p].from[j], s.phiVar[p], f.insts[p].args[j])
        {
          assert Answers(f, s, f.insts[p].from[j], s.phiVar[p], f.insts[p].args[j]);
        }
      }
    }
    forall c: BlockId, x: Var
      ensures DefOk(f', s', c, x)
    {
      assert DefOk(f, s, c, x);
    }
    forall c: BlockId, i: nat
      ensures EventOk(g, f', s', c, i)
    {
      assert EventOk(g, f, s, c, i);
    }
    forall c: BlockId
      ensures EdgesOk(g, f', c) && PendingOk(f', s', c) && TermOk(f', s', c)
      ensures ListOk(f', c) && EarlyOk(g, f', s', c)
    {
      assert EdgesOk(g, f, c) && PendingOk(f, s, c) && ListOk(f, c) && TermOk(f, s, c) && EarlyOk(g, f, s, c);
      assert PhiIn(f, c) <==> PhiIn(f', c);
      assert forall v: Id :: InstOk(f, v);
      if c == |f.blocks| {
        forall v: Id | v < |f.insts|
          ensures f.insts[v].block != c
        {
          assert InstOk(f, v);
        }
      }
    }
  }

  /** No block has `b` as a predecessor yet. */
  ghost predicate NoSuccessors(f: Fn, b: BlockId) {
    forall c :: 0 <= c < |f.blocks| ==> b !in f.blocks[c].preds
  }

  function WriteVar(f: Fn, b: BlockId, x: Var, w: Id): Fn
    requires b < |f.blocks|
  {
    SetDef(f, b, x, w)
  }

  function Log(s: Shadow, b: BlockId, e: Event): Shadow
    requires b < |s.log|
  {
    s.(log := s.log[b := s.log[b] + [e]])
  }

  lemma LastWriteAppend(log: seq<Event>, e: Event, x: Var)
    ensures LastWrite(log + [e], x) == if e.Wrote? && e.x == x then Some(e.v) else LastWrite(log, x)
  {
    assert (log + [e])[..|log|] == log;
  }

  lemma WriteAnswersKept(f: Fn, s: Shadow, b: BlockId, x: Var, w: Id, s': Shadow, q: BlockId, y: Var, v: Id)
    requires Sizes(f, s) && Sizes(f, s') && s'.root == s.root && b < |f.blocks|
    requires q != b && Answers(f, s, q, y, v)
    ensures Answers(WriteVar(f, b, x, w), s', q, y, v)
  {
  }

  /** The program assigns to a variable in a block that nothing jumps from yet. The value is
      one that every run has computed when it gets here. */
  lemma WriteKeeps(g: Graph, f: Fn, s: Shadow, b: BlockId, x: Var, w: Id)
    requires Inv(g, f, s) && b < |f.blocks| && w < |f.insts| && NoSuccessors(f, b)
    requires Dominates(g, f.insts[w].block, b) || Isolated(g, b)
    ensures Inv(g, WriteVar(f, b, x, w), Log(s, b, Wrote(x, w, |f.insts|)))
  {
    var e := Wrote(x, w, |f.insts|);
    var f', s' := WriteVar(f, b, x, w), Log(s, b, e);
    forall v: Id
      ensures InstOk(f', v) && ChainOk(f', s', v) && OpenOk(f', s', v) && GivenOk(f', s', v)
    {
      assert InstOk(f, v) && ChainOk(f, s, v) && OpenOk(f, s, v) && GivenOk(f, s, v);
    }
    forall p: Id
      ensures PhiOk(f', s', p)
    {
      assert PhiOk(f, s, p);
      if p < |f.insts| && f.insts[p].op.Phi? {
        forall j | 0 <= j < |f.insts[p].args|
          ensures Answers(f', s', f.insts[p].from[j], s.phiVar[p], f.insts[p].args[j])
        {
          assert f.insts[p].from[j] in f.blocks[f.insts[p].block].preds;
          WriteAnswersKept(f, s, b, x, w, s', f.insts[p].from[j], s.phiVar[p], f.insts[p].args[j]);
        }
      }
    }
    forall c: BlockId, y: Var
      ensures DefOk(f', s', c, y)
    {
      assert DefOk(f, s, c, y);
      if c < |f.blocks| {
        LastWriteAppend(s.log[c], e, y);
        if y in s.inDefs[c] && f.blocks[c].isSealed && |f.blocks[c].preds| == 1 {
          assert f.blocks[c].preds[0] in f.blocks[c].preds;
        }
      }
    }
    forall c: BlockId
      ensures EdgesOk(g, f', c) && PendingOk(f', s', c) && TermOk(f', s', c)
      ensures ListOk(f', c) && EarlyOk(g, f', s', c)
    {
      assert EdgesOk(g, f, c) && PendingOk(f, s, c) && ListOk(f, c) && TermOk(f, s, c) && EarlyOk(g, f, s, c);
      assert PhiIn(f, c) <==> PhiIn(f', c);
    }
    EventsKept(g, f, s, f', s', b, e);
  }

  lemma EventsKept(g: Graph, f: Fn, s: Shadow, f': Fn, s': Shadow, b: BlockId, e: Event)
    requires Sizes(f, s) && Sizes(f', s') && b < |f.blocks| && forall c, i :: EventOk(g, f, s, c, i)
    requires f'.insts == f.insts && |f'.blocks| == |f.blocks| && s' == Log(s, b, e)
    requires EventOk(g, f', s', b, |s.log[b]|)
    ensures forall c, i :: EventOk(g, f', s', c, i)
  {
    forall c: BlockId, i: nat
      ensures EventOk(g, f', s', c, i)
    {
      assert EventOk(g, f, s, c, i);
      if c < |f.blocks| && i < |s.log[c]| {
        assert s'.log[c][..i] == s.log[c][..i];
      }
    }
  }

  /** The program read `x` and got `v`. */
  lemma GotKeeps(g: Graph, f: Fn, s: Shadow, b: BlockId, x: Var, v: Id)
    requires Inv(g, f, s) && b < |f.blocks| && Answers(f, s, b, x, v)
    ensures Inv(g, f, Log(s, b, Got(x, v, |f.insts|)))
  {
    var e := Got(x, v, |f.insts|);
    var s' := Log(s, b, e);
    forall u: Id
      ensures InstOk(f, u) && ChainOk(f, s', u) && OpenOk(f, s', u) && GivenOk(f, s', u)
    {
      assert InstOk(f, u) && ChainOk(f, s, u) && OpenOk(f, s, u) && GivenOk(f, s, u);
    }
    forall p: Id
      ensures PhiOk(f, s', p)
    {
      assert PhiOk(f, s, p);
      if p < |f.insts| && f.insts[p].op.Phi? {
        forall j | 0 <= j < |f.insts[p].args|
          ensures Answers(f, s', f.insts[p].from[j], s.phiVar[p], f.insts[p].args[j])
        {
          assert Answers(f, s, f.insts[p].from[j], s.phiVar[p], f.insts[p].args[j]);
        }
      }
    }
    forall c: BlockId, y: Var
      ensures DefOk(f, s', c, y)
    {
      assert DefOk(f, s, c, y);
      if c < |f.blocks| {
        LastWriteAppend(s.log[c], e, y);
      }
    }
    forall c: BlockId
      ensures EdgesOk(g, f, c) && PendingOk(f, s', c) && TermOk(f, s', c)
      ensures ListOk(f, c) && EarlyOk(g, f, s', c)
    {
      assert EdgesOk(g, f, c) && PendingOk(f, s, c) && ListOk(f, c) && TermOk(f, s, c) && EarlyOk(g, f, s, c);
    }
    assert EventOk(g, f, s', b, |s.log[b]|) by {
      assert s'.log[b][..|s.log[b]|] == s.log[b];
      assert DefOk(f, s, b, x);
      if LastWrite(s.log[b], x).None? {
        assert InDefOk(f, s, b, x, s.inDefs[b][x]);
      }
    }
    EventsKept(g, f, s, f, s', b, e);
  }

  function AddEdge(f: Fn, from: BlockId, to: BlockId): Fn
    requires to < |f.blocks|
  {
    f.(blocks := f.blocks[to := f.blocks[to].(preds := f.blocks[to].preds + [from])])
  }

  lemma AddEdgeKeeps(g: Graph, f: Fn, s: Shadow, from: BlockId, to: BlockId)
    requires Inv(g, f, s) && from < |f.blocks| && to < |f.blocks| && to < |g.preds|
    requires !f.blocks[to].isSealed && f.blocks[to].preds + [from] <= g.preds[to]
    ensures Inv(g, AddEdge(f, from, to), s)
  {
    var f' := AddEdge(f, from, to);
    forall v: Id
      ensures InstOk(f', v) && ChainOk(f', s, v) && OpenOk(f', s, v) && GivenOk(f', s, v)
    {
      assert InstOk(f, v) && ChainOk(f, s, v) && OpenOk(f, s, v) && GivenOk(f, s, v);
    }
    forall p: Id
      ensures PhiOk(f', s, p)
    {
      assert PhiOk(f, s, p);
      if p < |f.insts| && f.insts[p].op.Phi? {
        forall j | 0 <= j < |f.insts[p].args|
          ensures Answers(f', s, f.insts[p].from[j], s.phiVar[p], f.insts[p].args[j])
        {
          assert Answers(f, s, f.insts[p].from[j], s.phiVar[p], f.insts[p].args[j]);
        }
      }
    }
    forall c: BlockId, y: Var
      ensures DefOk(f', s, c, y)
    {
      assert DefOk(f, s, c, y);
    }
    forall c: BlockId, i: nat
      ensures EventOk(g, f', s, c, i)
    {
      assert EventOk(g, f, s, c, i);
    }
    forall c: BlockId
      ensures EdgesOk(g, f', c) && PendingOk(f', s, c) && TermOk(f', s, c)
      ensures ListOk(f', c) && EarlyOk(g, f', s, c)
    {
      assert EdgesOk(g, f, c) && PendingOk(f, s, c) && ListOk(f, c) && TermOk(f, s, c) && EarlyOk(g, f, s, c);
      assert PhiIn(f, c) <==> PhiIn(f', c);
    }
  }

  function SetTerm(f: Fn, b: BlockId, t: Term): Fn
    requires b < |f.blocks|
  {
    f.(blocks := f.blocks[b := f.blocks[b].(term := t)])
  }

  function SetTermShadow(s: Shadow, b: BlockId, t: Term): Shadow
    requires b < |s.givenTerm|
  {
    s.(givenTerm := s.givenTerm[b := t])
  }

  ghost predicate TermInRange(f: Fn, t: Term) {
    match t
    case Ret(rets) => forall k :: 0 <= k < |rets| ==> rets[k] < |f.insts|
    case CondBr(c, _, _) => c < |f.insts|
    case _ => true
  }

  lemma SetTermKeeps(g: Graph, f: Fn, s: Shadow, b: BlockId, t: Term)
    requires Inv(g, f, s) && b < |f.blocks| && TermInRange(f, t)
    ensures Inv(g, SetTerm(f, b, t), SetTermShadow(s, b, t))
    ensures Keeps(f, s, SetTerm(f, b, t), SetTermShadow(s, b, t))
  {
    var f', s' := SetTerm(f, b, t), SetTermShadow(s, b, t);
    KeepsRefl(g, f, s);
    forall v: Id
      ensures InstExt(f, s, f', s', v) && ArgsExt(f, f', s', v) && NewPhiOk(f, f', v)
      ensures InstOk(f', v) && ChainOk(f', s', v) && OpenOk(f', s', v)
    {
      assert InstExt(f, s, f, s, v) && ArgsExt(f, f, s, v);
      assert InstOk(f, v) && ChainOk(f, s, v) && OpenOk(f, s, v);
    }
    forall c: BlockId
      ensures BlockExt(f, s, f', s', c)
    {
    }
    Frame(g, f, s, f', s');
    forall v: Id
      ensures PhiOk(f', s', v) && GivenOk(f', s', v)
    {
      assert ArgsExt(f, f', s', v);
      assert v < |f.insts| ==> PhiUntouched(f, s, f', s', v);
    }
    forall c: BlockId, y: Var
      ensures DefOk(f', s', c, y)
    {
      assert c < |f.blocks| ==> DefUntouched(f, s, f', s', c, y);
    }
    forall c: BlockId
      ensures ListOk(f', c) && EarlyOk(g, f', s', c) && TermOk(f', s', c)
    {
      assert ListOk(f, c) && TermOk(f, s, c);
      EarlyKept(g, f, s, f', s', c);
      assert c < |f.blocks| && c != b ==> SameTermText(f, s, f', s', c);
    }
  }

  /** The phis that were put off until the block's predecessors are known. */
  function PendingPhis(pending: seq<(Var, Id)>): set<Id> {
    set k | 0 <= k < |pending| :: pending[k].1
  }

  function SealFlag(f: Fn, b: BlockId): Fn
    requires b < |f.blocks|
  {
    f.(blocks := f.blocks[b := f.blocks[b].(isSealed := true)])
  }

  function SealShadow(f: Fn, s: Shadow, b: BlockId): Shadow
    requires b < |f.blocks|
  {
    s.(open := s.open + PendingPhis(f.blocks[b].pending))
  }

  lemma SealFlagKeeps(g: Graph, f: Fn, s: Shadow, b: BlockId)
    requires Inv(g, f, s) && b < |f.blocks| && b < |g.preds| && !f.blocks[b].isSealed
    requires f.blocks[b].preds == g.preds[b]
    ensures Inv(g, SealFlag(f, b), SealShadow(f, s, b))
  {
    var f', s' := SealFlag(f, b), SealShadow(f, s, b);
    assert PendingOk(f, s, b);
    forall p: Id
      ensures PhiOk(f', s', p) && OpenOk(f', s', p)
    {
      assert PhiOk(f, s, p) && OpenOk(f, s, p);
      if p in PendingPhis(f.blocks[b].pending) {
        var k :| 0 <= k < |f.blocks[b].pending| && f.blocks[b].pending[k].1 == p;
        assert f.insts[p].block == b;
      }
      if p < |f.insts| && f.insts[p].op.Phi? {
        if f.insts[p].block == b {
          var k :| 0 <= k < |f.blocks[b].pending| && f.blocks[b].pending[k] == (s.phiVar[p], p);
          assert p in PendingPhis(f.blocks[b].pending);
        }
        forall j | 0 <= j < |f.insts[p].args|
          ensures Answers(f', s', f.insts[p].from[j], s.phiVar[p], f.insts[p].args[j])
        {
          assert Answers(f, s, f.insts[p].from[j], s.phiVar[p], f.insts[p].args[j]);
        }
      }
    }
    forall v: Id
      ensures InstOk(f', v) && ChainOk(f', s', v) && GivenOk(f', s', v)
    {
      assert InstOk(f, v) && ChainOk(f, s, v) && GivenOk(f, s, v);
    }
    forall c: BlockId, y: Var
      ensures DefOk(f', s', c, y)
    {
      assert DefOk(f, s, c, y);
    }
    forall c: BlockId, i: nat
      ensures EventOk(g, f', s', c, i)
    {
      assert EventOk(g, f, s, c, i);
    }
    forall c: BlockId
      ensures EdgesOk(g, f', c) && PendingOk(f', s', c) && TermOk(f', s', c)
      ensures ListOk(f', c) && EarlyOk(g, f', s', c)
    {
      assert EdgesOk(g, f, c) && PendingOk(f, s, c) && ListOk(f, c) && TermOk(f, s, c) && EarlyOk(g, f, s, c);
      assert PhiIn(f, c) <==> PhiIn(f', c);
    }
  }
}
