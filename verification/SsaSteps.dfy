/** Every elementary change that the construction makes to a function keeps the invariant.
    The first half says what survives a change that only refines what is known. */
module SsaSteps {
  import opened Cfg
  import opened Ir
  import opened Wrappers
  import opened SsaInv

  // ----- what a call may change about the things that were there before -----

  ghost predicate InstExt(f: Fn, s: Shadow, f': Fn, s': Shadow, v: Id)
    requires Sizes(f, s) && Sizes(f', s') && |f.insts| <= |f'.insts|
  {
    v < |f.insts| ==>
      && f'.insts[v].block == f.insts[v].block
      && f'.insts[v].op == f.insts[v].op
      && s'.phiVar[v] == s.phiVar[v]
      && s'.given[v] == s.given[v]
      && s.root[v] < |f.insts|
      && s'.root[v] == s'.root[s.root[v]]
  }

  /** The operands stand for what they stood for. */
  ghost predicate ArgsExt(f: Fn, f': Fn, s': Shadow, v: Id)
    requires Sizes(f', s') && |f.insts| <= |f'.insts|
  {
    v < |f.insts| ==> f'.insts[v].from == f.insts[v].from && SameIds(s'.root, f'.insts[v].args, f.insts[v].args)
  }

  ghost predicate BlockExt(f: Fn, s: Shadow, f': Fn, s': Shadow, b: BlockId)
    requires Sizes(f, s) && Sizes(f', s') && |f.blocks| == |f'.blocks|
  {
    b < |f.blocks| ==>
      && f'.blocks[b].preds == f.blocks[b].preds
      && f'.blocks[b].isSealed == f.blocks[b].isSealed
      && s'.log[b] == s.log[b]
      && (forall x :: x in f.blocks[b].varDefs ==>
            x in f'.blocks[b].varDefs && f'.blocks[b].varDefs[x] == f.blocks[b].varDefs[x])
      && (forall x :: x in s.inDefs[b] ==> x in s'.inDefs[b] && s'.inDefs[b][x] == s.inDefs[b][x])
      && (forall e :: e in f.blocks[b].pending ==> e in f'.blocks[b].pending)
      && (f.blocks[b].isSealed ==> f'.blocks[b].pending == f.blocks[b].pending)
  }

  /** Phis are made only in blocks that are unsealed or have several predecessors. */
  ghost predicate NewPhiOk(f: Fn, f': Fn, v: Id) {
    |f.insts| <= v < |f'.insts| && f'.insts[v].op.Phi? ==>
      f'.insts[v].block < |f'.blocks| && (f'.blocks[f'.insts[v].block].isSealed ==> |f'.blocks[f'.insts[v].block].preds| > 1)
  }

  /** A sealed block does not become `early`. */
  ghost predicate EarlyExt(f: Fn, s: Shadow, s': Shadow, b: BlockId) {
    b in s'.early && b !in s.early ==> b < |f.blocks| && !f.blocks[b].isSealed
  }

  ghost predicate Ext(f: Fn, s: Shadow, f': Fn, s': Shadow) {
    && Sizes(f, s) && Sizes(f', s')
    && |f.insts| <= |f'.insts| && |f.blocks| == |f'.blocks|
    && (forall v :: InstExt(f, s, f', s', v))
    && (forall b :: BlockExt(f, s, f', s', b))
    && (forall v :: NewPhiOk(f, f', v))
    && (forall b :: EarlyExt(f, s, s', b))
  }

  /** What reading a variable changes. */
  ghost predicate Keeps(f: Fn, s: Shadow, f': Fn, s': Shadow) {
    && Ext(f, s, f', s')
    && (forall v :: ArgsExt(f, f', s', v))
    && s'.open == s.open
  }

  ghost predicate KeepsBut(f: Fn, s: Shadow, f': Fn, s': Shadow, p: Id) {
    && Ext(f, s, f', s')
    && (forall v :: v != p ==> ArgsExt(f, f', s', v))
  }

  lemma ExtTrans(f: Fn, s: Shadow, f': Fn, s': Shadow, f'': Fn, s'': Shadow)
    requires Ext(f, s, f', s') && Ext(f', s', f'', s'')
    ensures Ext(f, s, f'', s'')
  {
    forall v: Id
      ensures InstExt(f, s, f'', s'', v)
    {
      assert InstExt(f, s, f', s', v) && InstExt(f', s', f'', s'', v);
      if v < |f.insts| {
        assert InstExt(f', s', f'', s'', s.root[v]);
      }
    }
    forall b: BlockId
      ensures BlockExt(f, s, f'', s'', b) && EarlyExt(f, s, s'', b)
    {
      assert BlockExt(f, s, f', s', b) && BlockExt(f', s', f'', s'', b);
      assert EarlyExt(f, s, s', b) && EarlyExt(f', s', s'', b);
    }
    forall v: Id
      ensures NewPhiOk(f, f'', v)
    {
      assert NewPhiOk(f, f', v) && NewPhiOk(f', f'', v);
      assert InstExt(f', s', f'', s'', v);
      if v < |f'.insts| {
        assert BlockExt(f', s', f'', s'', f'.insts[v].block);
      }
    }
  }

  lemma ArgsTrans(f: Fn, s: Shadow, f': Fn, s': Shadow, f'': Fn, s'': Shadow, v: Id)
    requires Ext(f, s, f', s') && Ext(f', s', f'', s'')
    requires ArgsExt(f, f', s', v) && ArgsExt(f', f'', s'', v)
    ensures ArgsExt(f, f'', s'', v)
  {
    if v < |f.insts| {
      var a, a', a'' := f.insts[v].args, f'.insts[v].args, f''.insts[v].args;
      forall k | 0 <= k < |a|
        ensures a[k] < |s''.root| && a''[k] < |s''.root| && s''.root[a''[k]] == s''.root[a[k]]
      {
        assert InstExt(f', s', f'', s'', a'[k]) && InstExt(f', s', f'', s'', a[k]);
      }
    }
  }

  lemma KeepsButTrans(f: Fn, s: Shadow, f': Fn, s': Shadow, f'': Fn, s'': Shadow, p: Id)
    requires KeepsBut(f, s, f', s', p) && KeepsBut(f', s', f'', s'', p)
    ensures KeepsBut(f, s, f'', s'', p)
  {
    ExtTrans(f, s, f', s', f'', s'');
    forall v | v != p
      ensures ArgsExt(f, f'', s'', v)
    {
      assert ArgsExt(f, f', s', v) && ArgsExt(f', f'', s'', v);
      ArgsTrans(f, s, f', s', f'', s'', v);
    }
  }

  lemma KeepsRefl(g: Graph, f: Fn, s: Shadow)
    requires Inv(g, f, s)
    ensures Keeps(f, s, f, s)
  {
    forall v: Id
      ensures InstExt(f, s, f, s, v) && ArgsExt(f, f, s, v)
    {
      assert ChainOk(f, s, v) && InstOk(f, v);
      if v < |f.insts| {
        assert ChainOk(f, s, s.root[v]);
      }
    }
  }

  lemma AnswersKept(f: Fn, s: Shadow, f': Fn, s': Shadow, q: BlockId, x: Var, v: Id)
    requires Ext(f, s, f', s') && Answers(f, s, q, x, v)
    ensures Answers(f', s', q, x, v)
  {
    assert InstExt(f, s, f', s', v) && InstExt(f, s, f', s', f.blocks[q].varDefs[x]) && BlockExt(f, s, f', s', q);
  }

  lemma InDefKept(f: Fn, s: Shadow, f': Fn, s': Shadow, b: BlockId, x: Var, d: Id)
    requires Ext(f, s, f', s') && b < |f.blocks| && InDefOk(f, s, b, x, d)
    ensures InDefOk(f', s', b, x, d)
  {
    assert InstExt(f, s, f', s', d) && BlockExt(f, s, f', s', b);
    if f.blocks[b].isSealed && |f.blocks[b].preds| == 1 && Answers(f, s, f.blocks[b].preds[0], x, d) {
      AnswersKept(f, s, f', s', f.blocks[b].preds[0], x, d);
    }
  }

  lemma EventKept(g: Graph, f: Fn, s: Shadow, f': Fn, s': Shadow, b: BlockId, i: nat)
    requires Ext(f, s, f', s') && EventOk(g, f, s, b, i)
    ensures EventOk(g, f', s', b, i)
  {
    assert BlockExt(f, s, f', s', b);
    if b < |f.blocks| && i < |s.log[b]| {
      var e := s.log[b][i];
      assert InstExt(f, s, f', s', e.v);
      if e.Got? {
        match LastWrite(s.log[b][..i], e.x)
        case Some(w) => assert InstExt(f, s, f', s', w);
        case None => assert InstExt(f, s, f', s', s.inDefs[b][e.x]);
      }
    }
  }

  lemma PhiKept(f: Fn, s: Shadow, f': Fn, s': Shadow, p: Id)
    requires Ext(f, s, f', s') && PhiOk(f, s, p) && ArgsExt(f, f', s', p)
    requires p < |f.insts| && f.insts[p].op.Phi?
    requires p in s.open <==> p in s'.open
    requires f'.insts[p].removed == f.insts[p].removed
    ensures PhiOk(f', s', p)
  {
    var i, i' := f.insts[p], f'.insts[p];
    assert InstExt(f, s, f', s', p) && BlockExt(f, s, f', s', i.block);
    forall j | 0 <= j < |i.args|
      ensures Answers(f', s', i'.from[j], s'.phiVar[p], i'.args[j])
      ensures i.removed ==> s'.root[i'.args[j]] == s'.root[p]
    {
      AnswersKept(f, s, f', s', i.from[j], s.phiVar[p], i.args[j]);
      assert InstExt(f, s, f', s', i.args[j]);
    }
  }

  lemma SameIdsKept(f: Fn, s: Shadow, f': Fn, s': Shadow, a: seq<Id>, b: seq<Id>)
    requires Ext(f, s, f', s') && SameIds(s.root, a, b)
    ensures SameIds(s'.root, a, b)
  {
    forall k | 0 <= k < |a|
      ensures a[k] < |s'.root| && b[k] < |s'.root| && s'.root[a[k]] == s'.root[b[k]]
    {
      assert InstExt(f, s, f', s', a[k]) && InstExt(f, s, f', s', b[k]);
    }
  }

  lemma GivenKept(f: Fn, s: Shadow, f': Fn, s': Shadow, v: Id)
    requires Ext(f, s, f', s') && GivenOk(f, s, v) && ArgsExt(f, f', s', v) && v < |f.insts|
    ensures GivenOk(f', s', v)
  {
    assert InstExt(f, s, f', s', v);
    if !f.insts[v].op.Phi? {
      SameIdsKept(f, s, f', s', f.insts[v].args, s.given[v]);
    }
  }

  lemma TermKept(f: Fn, s: Shadow, f': Fn, s': Shadow, a: Term, b: Term)
    requires Ext(f, s, f', s') && SameTerm(s.root, a, b)
    ensures SameTerm(s'.root, a, b)
  {
    match a
    case Ret(r) => SameIdsKept(f, s, f', s', r, b.rets);
    case CondBr(c, _, _) => SameIdsKept(f, s, f', s', [c], [b.cond]);
    case _ =>
  }

  /** The parts of the invariant about old things that follow from `Ext` alone. */
  lemma DefKept(f: Fn, s: Shadow, f': Fn, s': Shadow, b: BlockId, x: Var)
    requires Ext(f, s, f', s') && DefOk(f, s, b, x)
    requires b < |f.blocks| && (x in f'.blocks[b].varDefs ==> x in f.blocks[b].varDefs)
    requires x in s'.inDefs[b] ==> x in s.inDefs[b]
    ensures DefOk(f', s', b, x)
  {
    assert BlockExt(f, s, f', s', b);
    if x in s.inDefs[b] {
      InDefKept(f, s, f', s', b, x, s.inDefs[b][x]);
      assert InstExt(f, s, f', s', s.inDefs[b][x]) && InstExt(f, s, f', s', f.blocks[b].varDefs[x]);
    }
  }

  lemma EarlyKept(g: Graph, f: Fn, s: Shadow, f': Fn, s': Shadow, b: BlockId)
    requires Ext(f, s, f', s') && EarlyOk(g, f, s, b) && (b in s.early <==> b in s'.early)
    requires forall v :: |f.insts| <= v < |f'.insts| && f'.insts[v].op.Phi? ==> f'.insts[v].block != b
    requires forall v: Id :: InstOk(f, v)
    ensures EarlyOk(g, f', s', b)
  {
    if PhiIn(f', b) {
      var v :| 0 <= v < |f'.insts| && f'.insts[v].op.Phi? && f'.insts[v].block == b;
      assert InstExt(f, s, f', s', v);
      assert f.insts[v].op.Phi?;
    }
    if PhiIn(f, b) {
      var v :| 0 <= v < |f.insts| && f.insts[v].op.Phi? && f.insts[v].block == b;
      assert InstExt(f, s, f', s', v);
      assert f'.insts[v].op.Phi?;
    }
  }

  lemma PendingKept(f: Fn, s: Shadow, f': Fn, s': Shadow, b: BlockId)
    requires Ext(f, s, f', s') && PendingOk(f, s, b) && b < |f.blocks|
    requires f'.blocks[b].pending == f.blocks[b].pending
    ensures PendingOk(f', s', b)
  {
    assert BlockExt(f, s, f', s', b);
    if !f.blocks[b].isSealed {
      forall k | 0 <= k < |f.blocks[b].pending|
        ensures var (x, p) := f.blocks[b].pending[k];
          p < |f'.insts| && f'.insts[p].op.Phi? && f'.insts[p].block == b && s'.phiVar[p] == x
      {
        assert InstExt(f, s, f', s', f.blocks[b].pending[k].1);
      }
    }
  }

  ghost predicate PhiUntouched(f: Fn, s: Shadow, f': Fn, s': Shadow, p: Id)
    requires Ext(f, s, f', s')
  {
    && p < |f.insts| && ArgsExt(f, f', s', p)
    && f'.insts[p].removed == f.insts[p].removed
    && (p in s.open <==> p in s'.open)
  }

  ghost predicate SameTermText(f: Fn, s: Shadow, f': Fn, s': Shadow, c: BlockId)
    requires Ext(f, s, f', s') && c < |f.blocks|
  {
    f'.blocks[c].term == f.blocks[c].term && s'.givenTerm[c] == s.givenTerm[c]
  }

  ghost predicate DefUntouched(f: Fn, s: Shadow, f': Fn, s': Shadow, c: BlockId, x: Var)
    requires Ext(f, s, f', s')
  {
    && c < |f.blocks|
    && (x in f'.blocks[c].varDefs ==> x in f.blocks[c].varDefs)
    && (x in s'.inDefs[c] ==> x in s.inDefs[c])
  }

  lemma AppendFresh<T>(l: seq<T>, e: T)
    requires NoDuplicates(l) && e !in l
    ensures NoDuplicates(l + [e])
  {
  }

  /** What a step need not prove again: the invariant about everything it did not touch. */
  lemma Frame(g: Graph, f: Fn, s: Shadow, f': Fn, s': Shadow)
    requires Inv(g, f, s) && Ext(f, s, f', s')
    ensures forall c :: EdgesOk(g, f', c)
    ensures forall c, i :: EventOk(g, f', s', c, i)
    ensures forall v: Id :: v < |f.insts| && ArgsExt(f, f', s', v) ==> GivenOk(f', s', v)
    ensures forall p: Id :: PhiUntouched(f, s, f', s', p) ==> PhiOk(f', s', p)
    ensures forall c: BlockId, x: Var :: DefUntouched(f, s, f', s', c, x) ==> DefOk(f', s', c, x)
    ensures forall c: BlockId :: c < |f.blocks| && SameTermText(f, s, f', s', c) ==> TermOk(f', s', c)
    ensures forall c: BlockId :: c < |f.blocks| && f'.blocks[c].pending == f.blocks[c].pending ==> PendingOk(f', s', c)
  {
    forall c: BlockId
      ensures EdgesOk(g, f', c)
      ensures c < |f.blocks| && SameTermText(f, s, f', s', c) ==> TermOk(f', s', c)
      ensures c < |f.blocks| && f'.blocks[c].pending == f.blocks[c].pending ==> PendingOk(f', s', c)
    {
      assert EdgesOk(g, f, c) && BlockExt(f, s, f', s', c) && TermOk(f, s, c) && PendingOk(f, s, c);
      if c < |f.blocks| {
        TermKept(f, s, f', s', f.blocks[c].term, s.givenTerm[c]);
        if f'.blocks[c].pending == f.blocks[c].pending {
          PendingKept(f, s, f', s', c);
        }
      }
    }
    forall c: BlockId, i: nat
      ensures EventOk(g, f', s', c, i)
    {
      assert EventOk(g, f, s, c, i);
      EventKept(g, f, s, f', s', c, i);
    }
    forall v: Id | v < |f.insts| && ArgsExt(f, f', s', v)
      ensures GivenOk(f', s', v)
    {
      assert GivenOk(f, s, v);
      GivenKept(f, s, f', s', v);
    }
    forall p: Id | PhiUntouched(f, s, f', s', p)
      ensures PhiOk(f', s', p)
    {
      assert PhiOk(f, s, p) && InstExt(f, s, f', s', p);
      if f.insts[p].op.Phi? {
        PhiKept(f, s, f', s', p);
      }
    }
    forall c: BlockId, x: Var | DefUntouched(f, s, f', s', c, x)
      ensures DefOk(f', s', c, x)
    {
      assert DefOk(f, s, c, x);
      DefKept(f, s, f', s', c, x);
    }
  }
}
