/** Steps that add to a function: instructions, phis, operands of phis, cached answers. */
module SsaEmit {
  import opened Cfg
  import opened Ir
  import opened Wrappers
  import opened SsaInv
  import opened SsaSteps

  /** ST_ir_emit: the new instruction gets the next id and goes to the end of the list. */
  function Emit(f: Fn, b: BlockId, op: Op, ty: Ty, args: seq<Id>): Fn
    requires b < |f.blocks|
  {
    Fn(f.insts + [Inst(op, ty, b, args, [], None, false)],
       f.blocks[b := f.blocks[b].(list := f.blocks[b].list + [|f.insts|])])
  }

  function EmitShadow(s: Shadow, n: nat, x: Var, args: seq<Id>): Shadow {
    s.(root := s.root + [n], height := s.height + [0], phiVar := s.phiVar + [x], given := s.given + [args])
  }

  /** ST_ir_write_var, as used for remembering an answer. */
  function SetDef(f: Fn, b: BlockId, x: Var, v: Id): Fn
    requires b < |f.blocks|
  {
    f.(blocks := f.blocks[b := f.blocks[b].(varDefs := f.blocks[b].varDefs[x := v])])
  }

  function SetInDef(s: Shadow, b: BlockId, x: Var, v: Id): Shadow
    requires b < |s.inDefs|
  {
    var m: map<Var, Id> := s.inDefs[b][x := v];
    s.(inDefs := s.inDefs[b := m])
  }

  lemma EmitExt(g: Graph, f: Fn, s: Shadow, b: BlockId, op: Op, ty: Ty, args: seq<Id>)
    requires Inv(g, f, s) && b < |f.blocks| && !op.Phi?
    requires forall k :: 0 <= k < |args| ==> args[k] < |f.insts|
    ensures Keeps(f, s, Emit(f, b, op, ty, args), EmitShadow(s, |f.insts|, 0, args))
    ensures forall v :: InstOk(Emit(f, b, op, ty, args), v)
    ensures forall v :: ChainOk(Emit(f, b, op, ty, args), EmitShadow(s, |f.insts|, 0, args), v)
    ensures forall v :: OpenOk(Emit(f, b, op, ty, args), EmitShadow(s, |f.insts|, 0, args), v)
  {
    var f', s' := Emit(f, b, op, ty, args), EmitShadow(s, |f.insts|, 0, args);
    forall v: Id
      ensures InstExt(f, s, f', s', v) && ArgsExt(f, f', s', v) && NewPhiOk(f, f', v)
      ensures ChainOk(f', s', v) && InstOk(f', v) && OpenOk(f', s', v)
    {
      assert ChainOk(f, s, v) && InstOk(f, v) && OpenOk(f, s, v);
      if v < |f.insts| {
        assert ChainOk(f, s, s.root[v]);
      }
    }
    forall c: BlockId
      ensures BlockExt(f, s, f', s', c)
    {
    }
  }

  lemma EmitKeeps(g: Graph, f: Fn, s: Shadow, b: BlockId, op: Op, ty: Ty, args: seq<Id>)
    requires Inv(g, f, s) && b < |f.blocks| && !op.Phi?
    requires forall k :: 0 <= k < |args| ==> args[k] < |f.insts|
    ensures Inv(g, Emit(f, b, op, ty, args), EmitShadow(s, |f.insts|, 0, args))
    ensures Keeps(f, s, Emit(f, b, op, ty, args), EmitShadow(s, |f.insts|, 0, args))
  {
    var f', s' := Emit(f, b, op, ty, args), EmitShadow(s, |f.insts|, 0, args);
    EmitExt(g, f, s, b, op, ty, args);
    Frame(g, f, s, f', s');
    forall v: Id
      ensures PhiOk(f', s', v) && GivenOk(f', s', v)
    {
      assert ArgsExt(f, f', s', v);
      assert v < |f.insts| ==> PhiUntouched(f, s, f', s', v);
    }
    forall c: BlockId, y: Var
      ensures DefOk(f', s', c, y)
    {
      assert c < |f.blocks| ==> DefUntouched(f, s, f', s', c, y);
    }
    forall c: BlockId
      ensures ListOk(f', c) && EarlyOk(g, f', s', c)
    {
      EarlyKept(g, f, s, f', s', c);
      ListAppended(f, f', b, c);
    }
  }

  lemma ListAppended(f: Fn, f': Fn, b: BlockId, c: BlockId)
    requires b < |f.blocks| && |f'.blocks| == |f.blocks| && |f'.insts| == |f.insts| + 1
    requires forall v :: 0 <= v < |f.insts| ==> f'.insts[v] == f.insts[v]
    requires f'.insts[|f.insts|].block == b && !f'.insts[|f.insts|].removed
    requires ListOk(f, c)
    requires c < |f.blocks| ==> f'.blocks[c].list == if c == b then f.blocks[c].list + [|f.insts|] else f.blocks[c].list
    ensures ListOk(f', c)
  {
    if c < |f.blocks| && c == b {
      AppendFresh(f.blocks[c].list, |f.insts|);
    }
  }

  /** Remembering an answer for a variable the block had no answer for. */
  lemma CacheKeeps(g: Graph, f: Fn, s: Shadow, b: BlockId, x: Var, d: Id)
    requires Inv(g, f, s) && b < |f.blocks| && x !in f.blocks[b].varDefs && InDefOk(f, s, b, x, d)
    ensures Inv(g, SetDef(f, b, x, d), SetInDef(s, b, x, d))
    ensures Keeps(f, s, SetDef(f, b, x, d), SetInDef(s, b, x, d))
    ensures Answers(SetDef(f, b, x, d), SetInDef(s, b, x, d), b, x, d)
  {
    var f', s' := SetDef(f, b, x, d), SetInDef(s, b, x, d);
    assert DefOk(f, s, b, x);
    CacheExt(g, f, s, b, x, d, s');
    Frame(g, f, s, f', s');
    InDefKept(f, s, f', s', b, x, d);
    forall v: Id
      ensures PhiOk(f', s', v) && GivenOk(f', s', v)
    {
      assert ArgsExt(f, f', s', v);
      assert v < |f.insts| ==> PhiUntouched(f, s, f', s', v);
    }
    forall c: BlockId, y: Var
      ensures DefOk(f', s', c, y)
    {
      assert DefOk(f, s, c, y);
      assert c < |f.blocks| && (c, y) != (b, x) ==> DefUntouched(f, s, f', s', c, y);
    }
  }

  /** Remembering the answer again leaves what it stands for as it is. */
  lemma RecacheKeeps(g: Graph, f: Fn, s: Shadow, b: BlockId, x: Var, d: Id)
    requires Inv(g, f, s) && b < |f.blocks| && LastWrite(s.log[b], x).None? && Answers(f, s, b, x, d)
    ensures Inv(g, SetDef(f, b, x, d), s)
    ensures Answers(SetDef(f, b, x, d), s, b, x, d)
  {
    var f' := SetDef(f, b, x, d);
    forall q, y, v | Answers(f, s, q, y, v)
      ensures Answers(f', s, q, y, v)
    {
    }
    forall v: Id
      ensures InstOk(f', v) && ChainOk(f', s, v) && OpenOk(f', s, v) && GivenOk(f', s, v)
    {
      assert InstOk(f, v) && ChainOk(f, s, v) && OpenOk(f, s, v) && GivenOk(f, s, v);
    }
    forall v: Id
      ensures PhiOk(f', s, v)
    {
      assert PhiOk(f, s, v);
    }
    forall c: BlockId
      ensures EdgesOk(g, f', c) && PendingOk(f', s, c) && ListOk(f', c) && TermOk(f', s, c) && EarlyOk(g, f', s, c)
    {
      assert EdgesOk(g, f, c) && PendingOk(f, s, c) && ListOk(f, c) && TermOk(f, s, c) && EarlyOk(g, f, s, c);
      assert PhiIn(f', c) <==> PhiIn(f, c);
    }
    forall c: BlockId, i: nat
      ensures EventOk(g, f', s, c, i)
    {
      assert EventOk(g, f, s, c, i);
    }
    forall c: BlockId, y: Var
      ensures DefOk(f', s, c, y)
    {
      assert DefOk(f, s, c, y);
    }
  }

  lemma CacheExt(g: Graph, f: Fn, s: Shadow, b: BlockId, x: Var, d: Id, s': Shadow)
    requires Inv(g, f, s) && b < |f.blocks| && x !in f.blocks[b].varDefs && d < |f.insts|
    requires s' == SetInDef(s, b, x, d)
    ensures Keeps(f, s, SetDef(f, b, x, d), s')
    ensures forall v :: InstOk(SetDef(f, b, x, d), v) && ChainOk(SetDef(f, b, x, d), s', v)
    ensures forall v :: OpenOk(SetDef(f, b, x, d), s', v)
    ensures forall c :: ListOk(SetDef(f, b, x, d), c) && EarlyOk(g, SetDef(f, b, x, d), s', c)
  {
    var f' := SetDef(f, b, x, d);
    assert DefOk(f, s, b, x);
    forall v: Id
      ensures InstExt(f, s, f', s', v) && ArgsExt(f, f', s', v) && InstOk(f', v) && ChainOk(f', s', v)
      ensures OpenOk(f', s', v)
    {
      assert ChainOk(f, s, v) && InstOk(f, v) && OpenOk(f, s, v);
      if v < |f.insts| {
        assert ChainOk(f, s, s.root[v]);
      }
    }
    forall c: BlockId
      ensures BlockExt(f, s, f', s', c)
    {
      assert DefOk(f, s, b, x);
    }
    forall c: BlockId
      ensures ListOk(f', c) && EarlyOk(g, f', s', c)
    {
      assert ListOk(f, c) && EarlyOk(g, f, s, c);
      EarlyKept(g, f, s, f', s', c);
    }
  }

  // ----- phis -----

  /** A new phi for `x`; in an unsealed block it is put off, in a sealed one it is open. */
  function EmitPhi(f: Fn, b: BlockId, x: Var, ty: Ty): Fn
    requires b < |f.blocks|
  {
    var p := |f.insts|;
    var blk := f.blocks[b];
    Fn(f.insts + [Inst(Phi, ty, b, [], [], None, false)],
       f.blocks[b := blk.(list := blk.list + [p], varDefs := blk.varDefs[x := p],
                          pending := if blk.isSealed then blk.pending else blk.pending + [(x, p)])])
  }

  function EmitPhiShadow(g: Graph, f: Fn, s: Shadow, b: BlockId, x: Var): Shadow
    requires b < |f.blocks| && b < |s.inDefs| && b < |g.preds|
  {
    var p := |f.insts|;
    var s1 := SetInDef(EmitShadow(s, p, x, []), b, x, p);
    s1.(open := if f.blocks[b].isSealed then s.open + {p} else s.open,
        early := if g.preds[b] == [] then s.early + {b} else s.early)
  }

  lemma EmitPhiExt(g: Graph, f: Fn, s: Shadow, b: BlockId, x: Var, ty: Ty)
    requires Inv(g, f, s) && b < |f.blocks| && b < |g.preds| && x !in f.blocks[b].varDefs
    requires f.blocks[b].isSealed ==> |f.blocks[b].preds| > 1
    ensures Ext(f, s, EmitPhi(f, b, x, ty), EmitPhiShadow(g, f, s, b, x))
    ensures forall v :: ArgsExt(f, EmitPhi(f, b, x, ty), EmitPhiShadow(g, f, s, b, x), v)
    ensures forall v :: InstOk(EmitPhi(f, b, x, ty), v) && ChainOk(EmitPhi(f, b, x, ty), EmitPhiShadow(g, f, s, b, x), v)
    ensures forall v :: OpenOk(EmitPhi(f, b, x, ty), EmitPhiShadow(g, f, s, b, x), v)
  {
    var f', s' := EmitPhi(f, b, x, ty), EmitPhiShadow(g, f, s, b, x);
    assert DefOk(f, s, b, x) && EdgesOk(g, f, b);
    forall v: Id
      ensures InstExt(f, s, f', s', v) && ArgsExt(f, f', s', v) && InstOk(f', v) && ChainOk(f', s', v)
      ensures OpenOk(f', s', v) && NewPhiOk(f, f', v)
    {
      assert ChainOk(f, s, v) && InstOk(f, v) && OpenOk(f, s, v);
      if v < |f.insts| {
        assert ChainOk(f, s, s.root[v]);
      }
    }
    forall c: BlockId
      ensures BlockExt(f, s, f', s', c)
    {
    }
  }

  lemma EmitPhiKeeps(g: Graph, f: Fn, s: Shadow, b: BlockId, x: Var, ty: Ty)
    requires Inv(g, f, s) && b < |f.blocks| && b < |g.preds| && x !in f.blocks[b].varDefs
    requires f.blocks[b].isSealed ==> |f.blocks[b].preds| > 1
    ensures Inv(g, EmitPhi(f, b, x, ty), EmitPhiShadow(g, f, s, b, x))
  {
    var f', s' := EmitPhi(f, b, x, ty), EmitPhiShadow(g, f, s, b, x);
    EmitPhiExt(g, f, s, b, x, ty);
    Frame(g, f, s, f', s');
    assert DefOk(f, s, b, x) && EdgesOk(g, f, b);
    assert forall p :: OpenOk(f, s, p);
    forall c: BlockId, y: Var
      ensures DefOk(f', s', c, y)
    {
      assert DefOk(f, s, c, y);
      assert c < |f.blocks| && (c, y) != (b, x) ==> DefUntouched(f, s, f', s', c, y);
    }
    forall p: Id
      ensures PhiOk(f', s', p) && GivenOk(f', s', p)
    {
      assert ArgsExt(f, f', s', p) && OpenOk(f, s, p);
      assert p < |f.insts| ==> PhiUntouched(f, s, f', s', p);
      if p == |f.insts| && !f.blocks[b].isSealed {
        assert f'.blocks[b].pending[|f.blocks[b].pending|] == (x, p);
      }
    }
    forall c: BlockId
      ensures ListOk(f', c) && EarlyOk(g, f', s', c) && PendingOk(f', s', c)
    {
      assert ListOk(f, c) && EarlyOk(g, f, s, c) && PendingOk(f, s, c);
      ListAppended(f, f', b, c);
      if c != b {
        EarlyKept(g, f, s, f', s', c);
      } else {
        assert f'.insts[|f.insts|].op.Phi?;
        EmitPhiPending(f, s, f', s', b, x);
      }
    }
  }

  lemma EmitPhiPending(f: Fn, s: Shadow, f': Fn, s': Shadow, b: BlockId, x: Var)
    requires Ext(f, s, f', s') && PendingOk(f, s, b) && b < |f.blocks|
    requires |f'.insts| == |f.insts| + 1
    requires var i := f'.insts[|f.insts|]; i.op.Phi? && i.block == b && s'.phiVar[|f.insts|] == x
    requires f'.blocks[b].isSealed == f.blocks[b].isSealed
    requires !f.blocks[b].isSealed ==> f'.blocks[b].pending == f.blocks[b].pending + [(x, |f.insts|)]
    ensures PendingOk(f', s', b)
  {
    if !f.blocks[b].isSealed {
      forall k | 0 <= k < |f'.blocks[b].pending|
        ensures var (y, p) := f'.blocks[b].pending[k];
          p < |f'.insts| && f'.insts[p].op.Phi? && f'.insts[p].block == b && s'.phiVar[p] == y
        ensures k < |f.blocks[b].pending| ==> f'.blocks[b].pending[k].1 < |f.insts|
      {
        if k < |f.blocks[b].pending| {
          assert f'.blocks[b].pending[k] == f.blocks[b].pending[k];
          assert InstExt(f, s, f', s', f.blocks[b].pending[k].1);
        }
      }
    }
  }

  /** The next operand of an open phi, in the order of the predecessors. */
  function AddOperand(f: Fn, p: Id, q: BlockId, v: Id): Fn
    requires p < |f.insts|
  {
    f.(insts := f.insts[p := f.insts[p].(args := f.insts[p].args + [v], from := f.insts[p].from + [q])])
  }

  lemma AddOperandKeeps(g: Graph, f: Fn, s: Shadow, p: Id, q: BlockId, v: Id)
    requires Inv(g, f, s) && p in s.open && p < |f.insts|
    requires f.insts[p].block < |f.blocks| && |f.insts[p].from| < |f.blocks[f.insts[p].block].preds|
    requires q == f.blocks[f.insts[p].block].preds[|f.insts[p].from|]
    requires Answers(f, s, q, s.phiVar[p], v)
    ensures Inv(g, AddOperand(f, p, q, v), s) && KeepsBut(f, s, AddOperand(f, p, q, v), s, p)
  {
    var f' := AddOperand(f, p, q, v);
    assert PhiOk(f, s, p) && OpenOk(f, s, p) && InstOk(f, p);
    forall u: Id
      ensures InstExt(f, s, f', s, u) && InstOk(f', u) && ChainOk(f', s, u) && OpenOk(f', s, u) && NewPhiOk(f, f', u)
      ensures u != p ==> ArgsExt(f, f', s, u)
    {
      assert ChainOk(f, s, u) && InstOk(f, u) && OpenOk(f, s, u);
      if u < |f.insts| {
        assert ChainOk(f, s, s.root[u]);
      }
    }
    forall c: BlockId
      ensures BlockExt(f, s, f', s, c)
    {
    }
    Frame(g, f, s, f', s);
    forall u: Id
      ensures GivenOk(f', s, u)
    {
      if u != p {
        assert ArgsExt(f, f', s, u);
      }
    }
    forall u: Id
      ensures PhiOk(f', s, u)
    {
      if u == p {
        assert f.insts[p].from + [q] <= f.blocks[f.insts[p].block].preds;
        forall j | 0 <= j < |f'.insts[p].args|
          ensures Answers(f', s, f'.insts[p].from[j], s.phiVar[p], f'.insts[p].args[j])
        {
          if j < |f.insts[p].args| {
            AnswersKept(f, s, f', s, f.insts[p].from[j], s.phiVar[p], f.insts[p].args[j]);
          }
        }
      } else {
        assert ArgsExt(f, f', s, u);
        assert u < |f.insts| ==> PhiUntouched(f, s, f', s, u);
      }
    }
    forall c: BlockId
      ensures ListOk(f', c) && EarlyOk(g, f', s, c)
    {
      assert ListOk(f, c) && EarlyOk(g, f, s, c);
      EarlyKept(g, f, s, f', s, c);
    }
  }

  function Close(s: Shadow, p: Id): Shadow {
    s.(open := s.open - {p})
  }

  lemma CloseKeeps(g: Graph, f: Fn, s: Shadow, p: Id)
    requires Inv(g, f, s) && p in s.open && p < |f.insts| && f.insts[p].block < |f.blocks|
    requires f.insts[p].from == f.blocks[f.insts[p].block].preds
    ensures Inv(g, f, Close(s, p)) && KeepsBut(f, s, f, Close(s, p), p)
  {
    var s' := Close(s, p);
    KeepsRefl(g, f, s);
    assert PhiOk(f, s, p) && OpenOk(f, s, p);
    forall u: Id
      ensures InstExt(f, s, f, s', u) && ChainOk(f, s', u) && OpenOk(f, s', u) && ArgsExt(f, f, s', u) && NewPhiOk(f, f, u)
    {
      assert InstExt(f, s, f, s, u) && ArgsExt(f, f, s, u);
      assert ChainOk(f, s, u) && OpenOk(f, s, u);
    }
    forall c: BlockId
      ensures BlockExt(f, s, f, s', c)
    {
    }
    Frame(g, f, s, f, s');
    forall u: Id
      ensures PhiOk(f, s', u)
    {
      if u != p {
        assert u < |f.insts| ==> PhiUntouched(f, s, f, s', u);
      } else {
        forall j | 0 <= j < |f.insts[p].args|
          ensures Answers(f, s', f.insts[p].from[j], s'.phiVar[p], f.insts[p].args[j])
        {
          assert Answers(f, s, f.insts[p].from[j], s.phiVar[p], f.insts[p].args[j]);
        }
      }
    }
    forall c: BlockId
      ensures EarlyOk(g, f, s', c)
    {
      assert EarlyOk(g, f, s, c);
    }
  }
}
