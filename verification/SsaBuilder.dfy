/** The construction itself, as `st_ir.c` runs it: the tables are updated in place, reading a
    variable walks backwards through the graph, and sealing a block completes its phis. */
module SsaBuilder {
  import opened Cfg
  import opened Ir
  import opened Wrappers
  import opened SsaInv
  import opened SsaSteps
  import opened SsaEmit
  import opened SsaRemove
  import opened SsaLowering
  import SsaRead

  /** The blocks that have no answer for `x` yet. */
  ghost function Missing(f: Fn, x: Var): set<BlockId> {
    set b | 0 <= b < |f.blocks| && x !in f.blocks[b].varDefs
  }

  lemma MissingShrinks(f: Fn, s: Shadow, f': Fn, s': Shadow, x: Var)
    requires Ext(f, s, f', s')
    ensures Missing(f', x) <= Missing(f, x)
  {
    forall b | b in Missing(f', x)
      ensures b in Missing(f, x)
    {
      assert BlockExt(f, s, f', s', b);
    }
  }

  /** An answer forwarded from the only predecessor, remembered a second time. */
  lemma ForwardedTwice(g: Graph, f: Fn, s: Shadow, f': Fn, s': Shadow, b: BlockId, x: Var, v: Id)
    requires Inv(g, f, s) && Inv(g, f', s') && Keeps(f, s, f', s')
    requires b < |f.blocks| && x !in f.blocks[b].varDefs && x in f'.blocks[b].varDefs
    requires f.blocks[b].isSealed && |f.blocks[b].preds| == 1
    requires Answers(f', s', f.blocks[b].preds[0], x, v)
    ensures LastWrite(s'.log[b], x).None? && Answers(f', s', b, x, v)
  {
    assert BlockExt(f, s, f', s', b) && DefOk(f, s, b, x) && DefOk(f', s', b, x);
    var d := s'.inDefs[b][x];
    assert InDefOk(f', s', b, x, d);
    assert PhiOk(f, s, d) && NewPhiOk(f, f', d) && InstExt(f, s, f', s', d);
  }

  /** Remembering an answer at the end of a read. */
  lemma RememberExt(g: Graph, f: Fn, s: Shadow, f1: Fn, s1: Shadow, b: BlockId, x: Var, v: Id)
    requires Inv(g, f1, s1) && Keeps(f, s, f1, s1)
    requires b < |f.blocks| && x !in f.blocks[b].varDefs && v < |f1.insts|
    requires x in f1.blocks[b].varDefs ==> Answers(f1, s1, b, x, v)
    ensures
      var s2 := if x in f1.blocks[b].varDefs then s1 else SetInDef(s1, b, x, v);
      Keeps(f, s, SetDef(f1, b, x, v), s2) && Answers(SetDef(f1, b, x, v), s2, b, x, v)
  {
    var f2 := SetDef(f1, b, x, v);
    var s2 := if x in f1.blocks[b].varDefs then s1 else SetInDef(s1, b, x, v);
    forall u: Id
      ensures InstExt(f, s, f2, s2, u) && ArgsExt(f, f2, s2, u) && NewPhiOk(f, f2, u)
    {
      assert InstExt(f, s, f1, s1, u) && ArgsExt(f, f1, s1, u) && NewPhiOk(f, f1, u);
    }
    assert DefOk(f1, s1, b, x);
    forall c: BlockId
      ensures BlockExt(f, s, f2, s2, c) && EarlyExt(f, s, s2, c)
    {
      assert BlockExt(f, s, f1, s1, c) && EarlyExt(f, s, s1, c);
      if c == b && x in s.inDefs[b] {
        assert x in s1.inDefs[b];
      }
    }
  }

  /** A read that ends with a phi of its own. */
  lemma PhiReadExt(f: Fn, s: Shadow, f1: Fn, s1: Shadow, f2: Fn, s2: Shadow, b: BlockId, x: Var, p: Id)
    requires Ext(f, s, f1, s1) && (forall v :: ArgsExt(f, f1, s1, v)) && KeepsBut(f1, s1, f2, s2, p)
    requires p == |f.insts| && p < |f1.insts| && p !in s.open
    requires s1.open == s.open + {p} && s2.open == s1.open - {p}
    requires b < |f1.blocks| && x in f1.blocks[b].varDefs && f1.blocks[b].varDefs[x] == p
    ensures Keeps(f, s, f2, s2) && Answers(f2, s2, b, x, p)
  {
    ExtTrans(f, s, f1, s1, f2, s2);
    forall v: Id
      ensures ArgsExt(f, f2, s2, v)
    {
      assert ArgsExt(f, f1, s1, v);
      if v < |f.insts| {
        assert ArgsExt(f1, f2, s2, v);
        ArgsTrans(f, s, f1, s1, f2, s2, v);
      }
    }
    assert BlockExt(f1, s1, f2, s2, b) && InstExt(f1, s1, f2, s2, p);
  }

  /** The phis of the pending entries from `i` on. */
  function OpenFrom(pending: seq<(Var, Id)>, i: nat): set<Id>
    requires i <= |pending|
  {
    PendingPhis(pending[i..])
  }

  lemma OpenFromNext(f: Fn, s: Shadow, b: BlockId, pending: seq<(Var, Id)>, i: nat)
    requires Sizes(f, s) && b < |f.blocks| && !f.blocks[b].isSealed && pending == f.blocks[b].pending
    requires PendingOk(f, s, b) && i < |pending|
    ensures OpenFrom(pending, i + 1) == OpenFrom(pending, i) - {pending[i].1}
    ensures forall k :: i < k < |pending| ==> pending[k].1 != pending[i].1
  {
    var p := pending[i].1;
    forall k | i < k < |pending|
      ensures pending[k].1 != p
    {
      assert pending[k] != pending[i];
      assert pending[k].0 == s.phiVar[pending[k].1] && pending[i].0 == s.phiVar[p];
    }
    forall q | q in OpenFrom(pending, i) - {p}
      ensures q in OpenFrom(pending, i + 1)
    {
      var k :| 0 <= k < |pending[i..]| && pending[i..][k].1 == q;
      assert pending[i + 1..][k - 1] == pending[i..][k];
    }
    forall q | q in OpenFrom(pending, i + 1)
      ensures q in OpenFrom(pending, i) && q != p
    {
      var k :| 0 <= k < |pending[i + 1..]| && pending[i + 1..][k].1 == q;
      assert pending[i..][k + 1] == pending[i + 1..][k] == pending[i + 1 + k];
    }
  }

  /** What is there stays: instructions keep their block, kind and given operands. */
  ghost predicate SameInsts(f: Fn, s: Shadow, f': Fn, s': Shadow) {
    && |f.insts| <= |f'.insts| && |f.insts| <= |s.given| && |f.insts| <= |s'.given|
    && forall v :: 0 <= v < |f.insts| ==>
      f'.insts[v].block == f.insts[v].block && f'.insts[v].op == f.insts[v].op && s'.given[v] == s.given[v]
  }

  ghost predicate SameEdges(f: Fn, f': Fn) {
    && |f.blocks| == |f'.blocks|
    && forall c :: 0 <= c < |f.blocks| ==> f'.blocks[c].preds == f.blocks[c].preds
  }

  lemma ExtPlain(f: Fn, s: Shadow, f': Fn, s': Shadow)
    requires Ext(f, s, f', s')
    ensures SameInsts(f, s, f', s') && SameEdges(f, f') && s'.log == s.log
    ensures forall c :: 0 <= c < |f.blocks| ==> f'.blocks[c].isSealed == f.blocks[c].isSealed
    ensures forall c :: c in s'.early && c !in s.early ==> c < |f.blocks| && !f.blocks[c].isSealed
  {
    forall c | c in s'.early && c !in s.early
      ensures c < |f.blocks| && !f.blocks[c].isSealed
    {
      assert EarlyExt(f, s, s', c);
    }
    forall c | 0 <= c < |f.blocks|
      ensures f'.blocks[c].preds == f.blocks[c].preds && s'.log[c] == s.log[c]
      ensures f'.blocks[c].isSealed == f.blocks[c].isSealed
    {
      assert BlockExt(f, s, f', s', c);
    }
    forall v | 0 <= v < |f.insts|
      ensures f'.insts[v].block == f.insts[v].block && f'.insts[v].op == f.insts[v].op && s'.given[v] == s.given[v]
    {
      assert InstExt(f, s, f', s', v);
    }
  }

  function Targets(t: Term): set<BlockId> {
    match t
    case Br(a) => {a}
    case CondBr(_, a, b) => {a, b}
    case _ => {}
  }

  ghost predicate SameTargets(f: Fn, f': Fn) {
    && |f.blocks| == |f'.blocks|
    && forall b :: 0 <= b < |f.blocks| ==>
      && Targets(f'.blocks[b].term) == Targets(f.blocks[b].term)
      && (f'.blocks[b].term.NoTerm? <==> f.blocks[b].term.NoTerm?)
  }

  ghost predicate JumpOk(f: Fn, b: BlockId) {
    b < |f.blocks| ==>
      forall t :: t in Targets(f.blocks[b].term) ==> t < |f.blocks| && b in f.blocks[t].preds
  }

  /** Every jump is an edge of the graph. */
  ghost predicate JumpsAreEdges(f: Fn) {
    forall b :: JumpOk(f, b)
  }

  /** Edges are only added, and the terminator of `b` alone has changed. */
  lemma JumpsKept(f: Fn, f': Fn, b: BlockId)
    requires JumpsAreEdges(f) && |f.blocks| <= |f'.blocks|
    requires forall c :: 0 <= c < |f.blocks| ==> f.blocks[c].preds <= f'.blocks[c].preds
    requires forall c :: 0 <= c < |f.blocks| && c != b ==> Targets(f'.blocks[c].term) == Targets(f.blocks[c].term)
    requires forall c :: |f.blocks| <= c < |f'.blocks| ==> Targets(f'.blocks[c].term) == {}
    requires JumpOk(f', b)
    ensures JumpsAreEdges(f')
  {
    forall c: BlockId
      ensures JumpOk(f', c)
    {
      assert JumpOk(f, c);
      if c < |f.blocks| && c != b {
        forall t | t in Targets(f'.blocks[c].term)
          ensures t < |f'.blocks| && c in f'.blocks[t].preds
        {
          assert t in Targets(f.blocks[c].term);
          assert f.blocks[t].preds <= f'.blocks[t].preds;
        }
      }
    }
  }

  /** A phi of `b` that has no operands yet. */
  ghost predicate Waits(f: Fn, s: Shadow, b: BlockId, e: (Var, Id))
    requires Sizes(f, s)
  {
    && e.1 < |f.insts| && f.insts[e.1].op.Phi? && f.insts[e.1].block == b && s.phiVar[e.1] == e.0
    && f.insts[e.1].from == []
  }

  lemma WaitsKept(f: Fn, s: Shadow, f': Fn, s': Shadow, b: BlockId, pending: seq<(Var, Id)>, i: nat)
    requires i < |pending| && KeepsBut(f, s, f', s', pending[i].1)
    requires forall k :: i <= k < |pending| ==> Waits(f, s, b, pending[k])
    requires forall k :: i < k < |pending| ==> pending[k].1 != pending[i].1
    ensures forall k :: i < k < |pending| ==> Waits(f', s', b, pending[k])
  {
    forall k | i < k < |pending|
      ensures Waits(f', s', b, pending[k])
    {
      assert Waits(f, s, b, pending[k]);
      assert InstExt(f, s, f', s', pending[k].1) && ArgsExt(f, f', s', pending[k].1);
    }
  }

  lemma PendingWait(f: Fn, s: Shadow, b: BlockId)
    requires Sizes(f, s) && b < |f.blocks| && !f.blocks[b].isSealed && PendingOk(f, s, b)
    requires forall p :: PhiOk(f, s, p)
    ensures forall k :: 0 <= k < |f.blocks[b].pending| ==> Waits(f, s, b, f.blocks[b].pending[k])
  {
    forall k | 0 <= k < |f.blocks[b].pending|
      ensures Waits(f, s, b, f.blocks[b].pending[k])
    {
      assert PhiOk(f, s, f.blocks[b].pending[k].1);
    }
  }

  lemma PhiInstOk(g: Graph, f: Fn, s: Shadow, p: Id)
    requires Inv(g, f, s)
    ensures InstOk(f, p) && Sizes(f, s) && PhiOk(f, s, p)
  {
  }

  /** Marking a phi as replaced does not touch the lists. */
  lemma ReplKeepsLists(g: Graph, f: Fn, s: Shadow, p: Id, same: Id)
    requires Inv(g, f, s) && p < |f.insts|
    ensures forall b :: ListOk(SetRepl(f, p, same), b)
    ensures forall v :: InstOk(SetRepl(f, p, same), v)
  {
    forall b
      ensures ListOk(SetRepl(f, p, same), b)
    {
      assert ListOk(f, b);
    }
    forall v
      ensures InstOk(SetRepl(f, p, same), v)
    {
      assert InstOk(f, v);
    }
  }

  /** Following `repl` ends where the invariant says. */
  lemma {:induction false} ChaseEnds(f: Fn, s: Shadow, v: Id) returns (n: nat)
    requires Sizes(f, s) && (forall u :: ChainOk(f, s, u)) && v < |f.insts|
    ensures SsaRead.Chase(f, v, n) == Some(s.root[v])
    decreases s.height[v]
  {
    assert ChainOk(f, s, v);
    if f.insts[v].repl.Some? {
      var m := ChaseEnds(f, s, f.insts[v].repl.value);
      n := m + 1;
    } else {
      n := 0;
    }
  }

  lemma Chains(g: Graph, f: Fn, s: Shadow)
    requires Inv(g, f, s)
    ensures Sizes(f, s) && forall u :: ChainOk(f, s, u)
  {
  }

  /** Which of the operands of a complete phi is the one other one. */
  lemma TrivialIsOther(g: Graph, f: Fn, s: Shadow, p: Id, same: Id)
    requires Inv(g, f, s) && p < |f.insts| && f.insts[p].op.Phi? && !f.insts[p].removed && p !in s.open
    requires f.insts[p].block < |f.blocks| && f.blocks[f.insts[p].block].isSealed
    ensures Trivial(f, s, p, same) <==> SsaRead.Other(f.insts[p].args, p, None) == Some(Some(same))
  {
    assert InstOk(f, p);
    SsaRead.OtherExact(f.insts[p].args, p, None, same);
  }

  lemma SettledOk(g: Graph, f: Fn, s: Shadow)
    requires Settled(g, f, s)
    ensures Inv(g, f, s) && s.open == {} && Sizes(f, s)
  {
  }

  lemma OkSettled(g: Graph, f: Fn, s: Shadow)
    requires Inv(g, f, s) && s.open == {}
    ensures Settled(g, f, s)
  {
  }

  /** Nothing new jumps anywhere. */
  lemma JumpsStay(f: Fn, f': Fn)
    requires JumpsAreEdges(f) && SameEdges(f, f') && SameTargets(f, f')
    ensures JumpsAreEdges(f')
  {
    assert JumpOk(f, |f.blocks|);
    JumpsKept(f, f', |f.blocks|);
  }

  /** The pending entries have the types of their variables. */
  ghost predicate WellTyped(f: Fn, types: Var -> Ty, pending: seq<(Var, Id)>) {
    forall k :: 0 <= k < |pending| ==> SsaRead.HasTy(f, pending[k].1, types(pending[k].0)) && f.insts[pending[k].1].op.Phi?
  }

  lemma PendingTyped(f: Fn, types: Var -> Ty, f': Fn, b: BlockId)
    requires SsaRead.Typed(f, types) && b < |f.blocks| && f'.insts == f.insts
    ensures WellTyped(f', types, f.blocks[b].pending)
  {
    assert SsaRead.BlockTyped(f, types, b);
  }

  lemma StillTyped(f: Fn, types: Var -> Ty, f': Fn, b: BlockId, pending: seq<(Var, Id)>, i: nat, n: nat)
    requires SsaRead.Typed(f, types) && WellTyped(f, types, pending) && i < |pending| && b < |f.blocks|
    requires SsaRead.Operands(f, f.blocks[b].preds, pending[i].0, pending[i].1, 0, n) == Some(f')
    ensures SsaRead.Typed(f', types) && WellTyped(f', types, pending)
  {
    hide SsaRead.Typed, SsaRead.Operands;
    SsaRead.OperandsTyped(f, types, f.blocks[b].preds, pending[i].0, pending[i].1, 0, n);
  }

  lemma BlockFacts(g: Graph, f: Fn, s: Shadow, b: BlockId, x: Var)
    requires Inv(g, f, s)
    ensures Rooted(g) && Sizes(f, s) && EdgesOk(g, f, b) && DefOk(f, s, b, x)
  {
  }

  lemma NotOpenYet(g: Graph, f: Fn, s: Shadow)
    requires Inv(g, f, s)
    ensures |f.insts| !in s.open
  {
    assert OpenOk(f, s, |f.insts|);
  }

  lemma PendingFacts(g: Graph, f: Fn, s: Shadow, b: BlockId)
    requires Inv(g, f, s) && b < |f.blocks| && !f.blocks[b].isSealed
    ensures Sizes(f, s) && PendingOk(f, s, b)
    ensures forall k :: 0 <= k < |f.blocks[b].pending| ==> Waits(f, s, b, f.blocks[b].pending[k])
  {
    PendingWait(f, s, b);
  }

  /** What sealing a block and completing its phis leaves as it was. */
  lemma SealPlain(f: Fn, s: Shadow, b: BlockId, f': Fn, s': Shadow)
    requires b < |f.blocks| && |f.insts| <= |s.given| && Ext(SealFlag(f, b), SealShadow(f, s, b), f', s')
    requires SameTargets(SealFlag(f, b), f')
    ensures SameInsts(f, s, f', s') && SameEdges(f, f') && SameTargets(f, f') && s'.log == s.log
    ensures forall c :: 0 <= c < |f.blocks| ==> f'.blocks[c].isSealed == (f.blocks[c].isSealed || c == b)
    ensures forall c :: c in s'.early && c !in s.early ==> c < |f.blocks| && !f'.blocks[c].isSealed
  {
    hide Ext;
    ExtPlain(SealFlag(f, b), SealShadow(f, s, b), f', s');
  }

  lemma FollowsSelf(f: Fn, preds: seq<BlockId>, x: Var, p: Id)
    ensures SsaRead.Follows(f, f, preds, x, p, 0, 0)
  {
  }

  class Builder {
    var insts: seq<Inst>
    var blocks: seq<Block>
    ghost const g: Graph
    ghost const types: Var -> Ty
    ghost var s: Shadow

    ghost function F(): Fn
      reads this
    {
      Fn(insts, blocks)
    }

    ghost predicate Ok()
      reads this
    {
      Inv(g, F(), s)
    }

    ghost predicate Valid()
      reads this
    {
      Settled(g, F(), s) && JumpsAreEdges(F()) && SsaRead.Typed(F(), types)
    }

    /** An empty function whose graph is going to be `graph`, with variables of the types `tys`. */
    constructor (ghost graph: Graph, ghost tys: Var -> Ty)
      requires Rooted(graph)
      ensures Valid() && g == graph && types == tys && insts == [] && blocks == [] && s.early == {}
    {
      insts, blocks := [], [];
      g := graph;
      types := tys;
      s := Shadow([], [], [], [], [], [], [], {}, {});
    }

    /** The loops over `repl` in ST_ir_read_var and ST_slot: they end, at the root. */
    method Chase(v: Id) returns (r: Id)
      requires Ok() && v < |insts|
      ensures r < |insts| && r == s.root[v] && !insts[r].removed
    {
      r := v;
      assert ChainOk(F(), s, r);
      while insts[r].removed && insts[r].repl.Some?
        invariant r < |insts| && s.root[r] == s.root[v] && ChainOk(F(), s, r)
        decreases s.height[r]
      {
        r := insts[r].repl.value;
        assert ChainOk(F(), s, r);
      }
    }

    /** ST_ir_replace_all_uses: one pass over all lists and terminators. */
    method ReplaceAllUses(p: Id, same: Id)
      requires forall b :: ListOk(F(), b)
      requires forall v :: InstOk(F(), v)
      modifies this`insts, this`blocks
      ensures F() == SsaRemove.ReplaceAllUses(old(F()), p, same)
    {
      ghost var f := F();
      var i := 0;
      while i < |blocks|
        invariant 0 <= i <= |blocks| == |f.blocks| && |insts| == |f.insts|
        invariant forall b :: 0 <= b < |blocks| ==>
          blocks[b] == if b < i then f.blocks[b].(term := RewriteTerm(f.blocks[b].term, p, same)) else f.blocks[b]
        invariant forall v :: 0 <= v < |insts| ==>
          insts[v] == if f.insts[v].block < i then RewriteInst(f.insts[v], p, same) else f.insts[v]
      {
        RewriteBlock(f, i, p, same);
        blocks := blocks[i := blocks[i].(term := RewriteTerm(blocks[i].term, p, same))];
        i := i + 1;
      }
      forall v | 0 <= v < |insts|
        ensures insts[v] == RewriteInst(f.insts[v], p, same)
      {
        assert InstOk(f, v);
      }
      assert insts == SsaRemove.ReplaceAllUses(f, p, same).insts;
      assert blocks == SsaRemove.ReplaceAllUses(f, p, same).blocks;
    }

    /** The inner loop, along one block's list. */
    method RewriteBlock(ghost f: Fn, i: nat, p: Id, same: Id)
      requires i < |blocks| && |blocks| == |f.blocks| && |insts| == |f.insts| && blocks[i] == f.blocks[i]
      requires ListOk(f, i)
      requires forall v :: 0 <= v < |insts| ==>
        insts[v] == if f.insts[v].block < i then RewriteInst(f.insts[v], p, same) else f.insts[v]
      modifies this`insts
      ensures |insts| == |f.insts|
      ensures forall v :: 0 <= v < |insts| ==>
        insts[v] == if f.insts[v].block < i + 1 then RewriteInst(f.insts[v], p, same) else f.insts[v]
    {
      var list := blocks[i].list;
      var k := 0;
      while k < |list|
        invariant 0 <= k <= |list| && |insts| == |f.insts|
        invariant forall v :: 0 <= v < |insts| ==>
          insts[v] == if f.insts[v].block < i || v in list[..k] then RewriteInst(f.insts[v], p, same) else f.insts[v]
      {
        var v := list[k];
        assert v in f.blocks[i].list;
        assert v !in list[..k] by {
          assert NoDuplicates(list);
        }
        insts := insts[v := RewriteInst(insts[v], p, same)];
        assert list[..k + 1] == list[..k] + [v];
        k := k + 1;
      }
      assert list[..k] == list;
    }

    /** The loop of ST_ir_try_removal_trivial_phi. */
    method FindOther(args: seq<Id>, p: Id) returns (r: Option<Option<Id>>)
      ensures r == SsaRead.Other(args, p, None)
    {
      var same: Option<Id> := None;
      var i := 0;
      while i < |args|
        invariant 0 <= i <= |args|
        invariant SsaRead.Other(args, p, None) == SsaRead.Other(args[i..], p, same)
      {
        var op := args[i];
        assert args[i..][0] == op && args[i..][1..] == args[i + 1..];
        if same != Some(op) && op != p {
          if same.Some? {
            return None;
          }
          same := Some(op);
        }
        i := i + 1;
      }
      r := Some(same);
    }

    /** ST_ir_try_removal_trivial_phi: the phi goes exactly when all its operands are itself or
        one other instruction. */
    method TryRemovalTrivialPhi(p: Id)
      requires Ok() && p < |insts| && insts[p].op.Phi? && !insts[p].removed && p !in s.open
      requires insts[p].block < |blocks| && blocks[insts[p].block].isSealed
      modifies this
      ensures Ok() && Keeps(old(F()), old(s), F(), s) && SameTargets(old(F()), F())
      ensures F() == SsaRead.TryRemove(old(F()), p)
      ensures forall same :: Trivial(old(F()), old(s), p, same) ==>
        F() == RemovePhi(old(F()), p, same) && s == RemoveShadow(old(s), p, same)
      ensures !(exists same :: Trivial(old(F()), old(s), p, same)) ==> F() == old(F()) && s == old(s)
    {
      ghost var f, sh := F(), s;
      KeepsRefl(g, f, sh);
      PhiInstOk(g, f, sh, p);
      hide Inv, Keeps, ListOk, InstOk, Trivial, SsaRead.Other;
      var r := FindOther(insts[p].args, p);
      forall c: Id
        ensures Trivial(f, sh, p, c) <==> r == Some(Some(c))
      {
        TrivialIsOther(g, f, sh, p, c);
      }
      if r.Some? && r.value.Some? {
        Replace(p, r.value.value);
      }
    }

    method Replace(p: Id, same: Id)
      requires Ok() && p < |insts| && insts[p].block < |blocks| && Trivial(F(), s, p, same)
      modifies this
      ensures Ok() && Keeps(old(F()), old(s), F(), s) && SameTargets(old(F()), F())
      ensures F() == RemovePhi(old(F()), p, same) && s == RemoveShadow(old(s), p, same)
    {
      ghost var f, sh := F(), s;
      PhiInstOk(g, f, sh, p);
      hide Inv, Keeps, ListOk, InstOk, Sizes;
      RemoveKeeps(g, f, sh, p, same);
      ReplKeepsLists(g, f, sh, p, same);
      insts := insts[p := insts[p].(repl := Some(same))];
      assert F() == SetRepl(f, p, same);
      ReplaceAllUses(p, same);
      InstRemove(p);
      s := RemoveShadow(s, p, same);
    }

    /** ST_ir_inst_remove. */
    method InstRemove(p: Id)
      requires p < |insts| && insts[p].block < |blocks|
      modifies this`insts, this`blocks
      ensures F() == Unlink(old(F()), p)
    {
      var b := insts[p].block;
      blocks := blocks[b := blocks[b].(list := Without(blocks[b].list, p))];
      insts := insts[p := insts[p].(removed := true)];
    }

    /** ST_ir_emit for everything but phis. */
    method EmitInst(b: BlockId, op: Op, ty: Ty, args: seq<Id>) returns (v: Id)
      requires Ok() && b < |blocks| && !op.Phi?
      requires forall k :: 0 <= k < |args| ==> args[k] < |insts|
      modifies this
      ensures Ok() && Keeps(old(F()), old(s), F(), s) && SameTargets(old(F()), F())
      ensures v == |old(insts)| && F() == Emit(old(F()), b, op, ty, args)
      ensures s == EmitShadow(old(s), v, 0, args)
    {
      EmitKeeps(g, F(), s, b, op, ty, args);
      v := |insts|;
      insts := insts + [Inst(op, ty, b, args, [], None, false)];
      blocks := blocks[b := blocks[b].(list := blocks[b].list + [v])];
      s := EmitShadow(s, v, 0, args);
    }

    /** The phi branches of ST_ir_read_var_rec, up to where operands are added. */
    method EmitPhiFor(b: BlockId, x: Var, ty: Ty) returns (p: Id)
      requires Ok() && b < |blocks| && b < |g.preds| && x !in blocks[b].varDefs
      requires blocks[b].isSealed ==> |blocks[b].preds| > 1
      modifies this
      ensures Ok() && p == |old(insts)|
      ensures F() == EmitPhi(old(F()), b, x, ty) && s == EmitPhiShadow(g, old(F()), old(s), b, x)
    {
      EmitPhiKeeps(g, F(), s, b, x, ty);
      p := |insts|;
      s := EmitPhiShadow(g, F(), s, b, x);
      insts := insts + [Inst(Phi, ty, b, [], [], None, false)];
      blocks := blocks[b := blocks[b].(
        list := blocks[b].list + [p],
        varDefs := blocks[b].varDefs[x := p],
        pending := if blocks[b].isSealed then blocks[b].pending else blocks[b].pending + [(x, p)])];
    }

    /** ST_ir_write_var where it remembers what was found for a variable. */
    method Remember(b: BlockId, x: Var, v: Id)
      requires Ok() && b < |blocks| && v < |insts|
      requires if x in blocks[b].varDefs then LastWrite(s.log[b], x).None? && Answers(F(), s, b, x, v)
               else InDefOk(F(), s, b, x, v)
      modifies this
      ensures Ok() && F() == SetDef(old(F()), b, x, v)
      ensures s == if x in old(blocks)[b].varDefs then old(s) else SetInDef(old(s), b, x, v)
    {
      if x in blocks[b].varDefs {
        RecacheKeeps(g, F(), s, b, x, v);
      } else {
        CacheKeeps(g, F(), s, b, x, v);
        s := SetInDef(s, b, x, v);
      }
      blocks := blocks[b := blocks[b].(varDefs := blocks[b].varDefs[x := v])];
    }

    /** ST_ir_read_var. */
    method ReadVar(b: BlockId, x: Var, ty: Ty) returns (v: Id, ghost n: nat)
      requires Ok() && b < |blocks| && b < |g.preds|
      modifies this
      ensures Ok() && Keeps(old(F()), old(s), F(), s) && SameTargets(old(F()), F())
      ensures Answers(F(), s, b, x, v)
      ensures SsaRead.Read(old(F()), b, x, ty, n) == Some((F(), v))
      decreases Missing(F(), x), 0, Rank(g, b), 2
    {
      if x in blocks[b].varDefs {
        assert DefOk(F(), s, b, x);
        KeepsRefl(g, F(), s);
        v := Chase(blocks[b].varDefs[x]);
        assert ChainOk(F(), s, v);
        Chains(g, F(), s);
        n := ChaseEnds(F(), s, blocks[b].varDefs[x]);
        SsaRead.ReadFound(F(), b, x, ty, n, v);
      } else {
        SsaRead.ReadIsRec(F(), b, x, ty, 0);
        ghost var f := F();
        v, n := ReadVarRec(b, x, ty);
        SsaRead.ReadIsRec(f, b, x, ty, n);
      }
    }

    /** ST_ir_read_var_rec. */
    method ReadVarRec(b: BlockId, x: Var, ty: Ty) returns (v: Id, ghost n: nat)
      requires Ok() && b < |blocks| && b < |g.preds| && x !in blocks[b].varDefs
      modifies this
      ensures Ok() && Keeps(old(F()), old(s), F(), s) && SameTargets(old(F()), F())
      ensures Answers(F(), s, b, x, v)
      ensures SsaRead.ReadRec(old(F()), b, x, ty, n) == Some((F(), v))
      decreases Missing(F(), x), 0, Rank(g, b), 1
    {
      hide Inv, SsaRead.Read, SsaRead.ReadRec, SsaRead.Operands;
      ghost var f, sh := F(), s;
      BlockFacts(g, f, sh, b, x);
      if !blocks[b].isSealed {
        EmitPhiExt(g, f, sh, b, x, ty);
        v := EmitPhiFor(b, x, ty);
        n := 0;
        SsaRead.RecUnsealed(f, b, x, ty);
      } else if |blocks[b].preds| == 1 {
        v, n := ReadForward(b, x, ty);
      } else if |blocks[b].preds| == 0 {
        v := EmitInst(b, ConstInt(0), ty, []);
        ghost var f1, s1 := F(), s;
        Remember(b, x, v);
        RememberExt(g, f, sh, f1, s1, b, x, v);
        n := 0;
        SsaRead.RecEntry(f, b, x, ty);
      } else {
        v, n := ReadPhi(b, x, ty);
      }
    }

    /** Its second branch: the answer of the only predecessor. */
    method ReadForward(b: BlockId, x: Var, ty: Ty) returns (v: Id, ghost n: nat)
      requires Ok() && b < |blocks| && b < |g.preds| && x !in blocks[b].varDefs
      requires blocks[b].isSealed && |blocks[b].preds| == 1
      modifies this
      ensures Ok() && Keeps(old(F()), old(s), F(), s) && SameTargets(old(F()), F())
      ensures Answers(F(), s, b, x, v)
      ensures SsaRead.ReadRec(old(F()), b, x, ty, n) == Some((F(), v))
      decreases Missing(F(), x), 0, Rank(g, b), 0
    {
      hide Inv, SsaRead.Read, SsaRead.ReadRec;
      ghost var f, sh := F(), s;
      BlockFacts(g, f, sh, b, x);
      OnlyPredecessorIsCloser(g, b);
      v, n := ReadVar(blocks[b].preds[0], x, ty);
      assert BlockExt(f, sh, F(), s, b);
      if x in blocks[b].varDefs {
        ForwardedTwice(g, f, sh, F(), s, b, x, v);
      }
      ghost var f1, s1 := F(), s;
      Remember(b, x, v);
      RememberExt(g, f, sh, f1, s1, b, x, v);
      SsaRead.RecForward(f, b, x, ty, n, f1, v);
      n := n + 1;
    }

    /** Its last branch: a phi, remembered before and after its operands are read. */
    method ReadPhi(b: BlockId, x: Var, ty: Ty) returns (v: Id, ghost n: nat)
      requires Ok() && b < |blocks| && b < |g.preds| && x !in blocks[b].varDefs
      requires blocks[b].isSealed && |blocks[b].preds| > 1
      modifies this
      ensures Ok() && Keeps(old(F()), old(s), F(), s) && SameTargets(old(F()), F())
      ensures Answers(F(), s, b, x, v)
      ensures SsaRead.ReadRec(old(F()), b, x, ty, n) == Some((F(), v))
      decreases Missing(F(), x), 0, 0, 0
    {
      hide Inv, SsaRead.Read, SsaRead.ReadRec, SsaRead.Operands;
      ghost var f, sh := F(), s;
      BlockFacts(g, f, sh, b, x);
      EmitPhiExt(g, f, sh, b, x, ty);
      v := EmitPhiFor(b, x, ty);
      ghost var f1, s1 := F(), s;
      assert BlockExt(f, sh, f1, s1, b);
      assert b in Missing(f, x) && b !in Missing(f1, x);
      MissingShrinks(f, sh, f1, s1, x);
      n := AddPhiOperands(b, x, v);
      NotOpenYet(g, f, sh);
      PhiReadExt(f, sh, f1, s1, F(), s, b, x, v);
      ghost var f2 := F();
      assert BlockExt(f1, s1, f2, s, b);
      assert f2.blocks[b].varDefs[x := v] == f2.blocks[b].varDefs;
      blocks := blocks[b := blocks[b].(varDefs := blocks[b].varDefs[x := v])];
      assert F() == f2 == SsaEmit.SetDef(f2, b, x, v);
      SsaRead.RecPhi(f, b, x, ty, n, f2);
    }

    /** ST_ir_add_phi_operand. */
    method AddPhiOperands(b: BlockId, x: Var, p: Id) returns (ghost n: nat)
      requires Ok() && b < |blocks| && b < |g.preds| && blocks[b].isSealed
      requires p < |insts| && p in s.open && insts[p].block == b && s.phiVar[p] == x && insts[p].from == []
      modifies this
      ensures Ok() && KeepsBut(old(F()), old(s), F(), s, p) && SameTargets(old(F()), F())
      ensures s.open == old(s).open - {p}
      ensures SsaRead.Operands(old(F()), old(blocks)[b].preds, x, p, 0, n) == Some(F())
      decreases Missing(F(), x), 2, 0, 0
    {
      hide Inv, SsaRead.Operands, SsaRead.Follows;
      ghost var f, sh := F(), s;
      ghost var preds := blocks[b].preds;
      KeepsRefl(g, f, sh);
      var i := 0;
      n := 0;
      FollowsSelf(f, preds, x, p);
      while i < |blocks[b].preds|
        invariant Ok() && KeepsBut(f, sh, F(), s, p) && s.open == sh.open && SameTargets(f, F())
        invariant p < |insts| && insts[p].block == b && s.phiVar[p] == x
        invariant b < |blocks| && blocks[b].preds == preds && blocks[b].isSealed
        invariant 0 <= i <= |preds| && insts[p].from == preds[..i]
        invariant Missing(F(), x) <= Missing(f, x)
        invariant SsaRead.Follows(f, F(), preds, x, p, i, n)
        decreases |preds| - i
      {
        ghost var f1, s1 := F(), s;
        ghost var m, f2, v := AddOneOperand(b, x, p, i);
        KeepsButTrans(f, sh, f1, s1, F(), s, p);
        SsaRead.FollowsNext(f, f1, preds, x, p, i, n, m, f2, v);
        n := n + m + 1;
        i := i + 1;
      }
      assert preds[..i] == preds;
      ghost var f3, s3 := F(), s;
      Finish(p);
      KeepsButTrans(f, sh, f3, s3, F(), s, p);
      SsaRead.FollowsEnd(f, f3, preds, x, p, n);
    }

    /** The body of its loop: the operand for predecessor `i`. */
    method AddOneOperand(b: BlockId, x: Var, p: Id, i: nat) returns (ghost n: nat, ghost f2: Fn, ghost v: Id)
      requires Ok() && b < |blocks| && b < |g.preds| && blocks[b].isSealed && i < |blocks[b].preds|
      requires p < |insts| && p in s.open && insts[p].block == b && s.phiVar[p] == x && insts[p].from == blocks[b].preds[..i]
      modifies this
      ensures Ok() && KeepsBut(old(F()), old(s), F(), s, p) && SameTargets(old(F()), F()) && s.open == old(s).open
      ensures p < |insts| && insts[p].block == b && s.phiVar[p] == x
      ensures b < |blocks| && blocks[b].preds == old(blocks)[b].preds && blocks[b].isSealed
      ensures insts[p].from == blocks[b].preds[..i + 1]
      ensures Missing(F(), x) <= Missing(old(F()), x)
      ensures SsaRead.Read(old(F()), old(blocks)[b].preds[i], x, old(insts)[p].ty, n) == Some((f2, v))
      ensures p < |f2.insts| && F() == AddOperand(f2, p, old(blocks)[b].preds[i], v)
      decreases Missing(F(), x), 1, 0, 0
    {
      hide SsaRead.Read;
      ghost var f1, s1 := F(), s;
      assert EdgesOk(g, f1, b) && EdgesOk(g, f1, blocks[b].preds[i]);
      var u;
      u, n := ReadVar(blocks[b].preds[i], x, insts[p].ty);
      f2, v := F(), u;
      ghost var s2 := s;
      assert InstExt(f1, s1, f2, s2, p) && ArgsExt(f1, f2, s2, p) && BlockExt(f1, s1, f2, s2, b);
      AddOperandKeeps(g, f2, s2, p, blocks[b].preds[i], u);
      insts := insts[p := insts[p].(args := insts[p].args + [u], from := insts[p].from + [blocks[b].preds[i]])];
      assert F() == AddOperand(f2, p, blocks[b].preds[i], u);
      KeepsButTrans(f1, s1, f2, s2, F(), s, p);
      MissingShrinks(f1, s1, F(), s, x);
    }

    /** All operands are there; a trivial phi goes. */
    method Finish(p: Id)
      requires Ok() && p < |insts| && p in s.open && insts[p].block < |blocks| && blocks[insts[p].block].isSealed
      requires insts[p].from == blocks[insts[p].block].preds
      modifies this
      ensures Ok() && KeepsBut(old(F()), old(s), F(), s, p) && SameTargets(old(F()), F())
      ensures s.open == old(s).open - {p} && F() == SsaRead.TryRemove(old(F()), p)
    {
      hide SsaRead.TryRemove;
      ghost var f3, s3 := F(), s;
      assert OpenOk(f3, s3, p);
      CloseKeeps(g, f3, s3, p);
      s := Close(s, p);
      ghost var f4, s4 := F(), s;
      TryRemovalTrivialPhi(p);
      KeepsButTrans(f3, s3, f4, s4, F(), s, p);
    }

    // ----- what the lowering calls -----

    /** ST_ir_block_new. */
    method BlockNew() returns (b: BlockId)
      requires Valid() && |blocks| < |g.preds|
      modifies this
      ensures Valid() && b == |old(blocks)| && F() == NewBlock(old(F())) && s == NewBlockShadow(old(s))
    {
      NewBlockKeeps(g, F(), s);
      b := |blocks|;
      ghost var f := F();
      blocks := blocks + [Block([], [], NoTerm, false, map[], [])];
      s := NewBlockShadow(s);
      JumpsKept(f, F(), b);
      SsaRead.PlainTyped(f, types, F());
    }

    /** ST_ir_emit, called for an expression of the program. */
    method Append(b: BlockId, op: Op, ty: Ty, args: seq<Id>) returns (v: Id)
      requires Valid() && b < |blocks| && !op.Phi?
      requires forall k :: 0 <= k < |args| ==> args[k] < |insts|
      modifies this
      ensures Valid() && v == |old(insts)|
      ensures F() == Emit(old(F()), b, op, ty, args) && s == EmitShadow(old(s), v, 0, args)
    {
      hide Settled, Inv, Keeps, SsaRead.Typed;
      ghost var f := F();
      SettledOk(g, f, s);
      v := EmitInst(b, op, ty, args);
      OkSettled(g, F(), s);
      JumpsStay(f, F());
      SsaRead.EmitTyped(f, types, b, op, ty, args);
    }

    /** ST_ir_write_var, called for an assignment of the program. */
    method Assign(b: BlockId, x: Var, w: Id)
      requires Valid() && b < |blocks| && w < |insts| && NoSuccessors(F(), b) && insts[w].ty == types(x)
      requires Dominates(g, insts[w].block, b) || Isolated(g, b)
      modifies this
      ensures Valid()
      ensures F() == WriteVar(old(F()), b, x, w) && s == Log(old(s), b, Wrote(x, w, |insts|))
    {
      WriteKeeps(g, F(), s, b, x, w);
      ghost var f := F();
      blocks := blocks[b := blocks[b].(varDefs := blocks[b].varDefs[x := w])];
      assert JumpOk(f, b);
      JumpsKept(f, F(), b);
      SsaRead.SetDefTyped(f, types, b, x, w);
      s := Log(s, b, Wrote(x, w, |insts|));
    }

    /** ST_ir_read_var, called for a use in the program. */
    method Use(b: BlockId, x: Var, ty: Ty) returns (v: Id, ghost n: nat)
      requires Valid() && b < |blocks| && b < |g.preds| && ty == types(x)
      modifies this
      ensures Valid() && v < |insts| && insts[v].ty == ty
      ensures SsaRead.Read(old(F()), b, x, ty, n) == Some((F(), v))
      ensures SameInsts(old(F()), old(s), F(), s) && SameEdges(old(F()), F()) && SameTargets(old(F()), F())
      ensures forall c :: 0 <= c < |blocks| ==> blocks[c].isSealed == old(blocks)[c].isSealed
      ensures s.log == old(s).log[b := old(s).log[b] + [Got(x, v, |insts|)]]
      ensures forall c :: c in s.early && c !in old(s).early ==> c < |blocks| && !blocks[c].isSealed
    {
      hide Settled, Inv, JumpsAreEdges, SsaRead.Read, SsaRead.Typed;
      ghost var f, sh := F(), s;
      SettledOk(g, f, sh);
      v, n := ReadVar(b, x, ty);
      ExtPlain(f, sh, F(), s);
      JumpsStay(f, F());
      SsaRead.ReadTyped(f, types, b, x, n);
      GotKeeps(g, F(), s, b, x, v);
      s := Log(s, b, Got(x, v, |insts|));
      OkSettled(g, F(), s);
    }

    /** ST_ir_add_edge. */
    method Edge(from: BlockId, to: BlockId)
      requires Settled(g, F(), s) && SsaRead.Typed(F(), types) && from < |blocks| && to < |blocks| && to < |g.preds|
      requires !blocks[to].isSealed && blocks[to].preds + [from] <= g.preds[to]
      modifies this`blocks
      ensures Settled(g, F(), s) && SsaRead.Typed(F(), types) && F() == AddEdge(old(F()), from, to)
    {
      hide SsaRead.Typed;
      AddEdgeKeeps(g, F(), s, from, to);
      ghost var f := F();
      blocks := blocks[to := blocks[to].(preds := blocks[to].preds + [from])];
      SsaRead.PlainTyped(f, types, F());
    }

    method SetTerminator(b: BlockId, t: Term)
      requires Settled(g, F(), s) && SsaRead.Typed(F(), types) && b < |blocks| && TermInRange(F(), t)
      modifies this
      ensures Settled(g, F(), s) && SsaRead.Typed(F(), types)
      ensures F() == SetTerm(old(F()), b, t) && s == SetTermShadow(old(s), b, t)
    {
      hide SsaRead.Typed;
      SetTermKeeps(g, F(), s, b, t);
      ghost var f := F();
      blocks := blocks[b := blocks[b].(term := t)];
      s := SetTermShadow(s, b, t);
      SsaRead.PlainTyped(f, types, F());
    }

    /** ST_ir_term_br. */
    method TermBr(b: BlockId, target: BlockId)
      requires Valid() && b < |blocks| && target < |blocks| && target < |g.preds| && blocks[b].term.NoTerm?
      requires !blocks[target].isSealed && blocks[target].preds + [b] <= g.preds[target]
      modifies this
      ensures Valid() && F() == AddEdge(SetTerm(old(F()), b, Br(target)), b, target)
      ensures s == SetTermShadow(old(s), b, Br(target))
    {
      hide Settled, SsaRead.Typed;
      ghost var f := F();
      SetTerminator(b, Br(target));
      Edge(b, target);
      assert b in blocks[target].preds;
      JumpsKept(f, F(), b);
    }

    /** ST_ir_term_condbr: both edges are added even when they lead to the same block. */
    method TermCondBr(b: BlockId, c: Id, t: BlockId, e: BlockId)
      requires Valid() && b < |blocks| && blocks[b].term.NoTerm? && c < |insts|
      requires t < |blocks| && e < |blocks| && t < |g.preds| && e < |g.preds|
      requires !blocks[t].isSealed && !blocks[e].isSealed
      requires if t == e then blocks[t].preds + [b, b] <= g.preds[t]
               else blocks[t].preds + [b] <= g.preds[t] && blocks[e].preds + [b] <= g.preds[e]
      modifies this
      ensures Valid()
      ensures F() == AddEdge(AddEdge(SetTerm(old(F()), b, CondBr(c, t, e)), b, t), b, e)
      ensures s == SetTermShadow(old(s), b, CondBr(c, t, e))
    {
      hide Settled, JumpsAreEdges, SsaRead.Typed;
      ghost var f := F();
      SetTerminator(b, CondBr(c, t, e));
      assert blocks[t].preds + [b, b] == blocks[t].preds + [b] + [b];
      Edge(b, t);
      assert b in blocks[t].preds;
      Edge(b, e);
      assert b in blocks[t].preds && b in blocks[e].preds;
      JumpsKept(f, F(), b);
    }

    /** ST_ir_term_ret and ST_ir_term_unreachable. */
    method TermEnd(b: BlockId, t: Term)
      requires Valid() && b < |blocks| && (t.Unreachable? || t.Ret?) && (t.Ret? ==> blocks[b].term.NoTerm?)
      requires TermInRange(F(), t)
      modifies this
      ensures Valid() && F() == SetTerm(old(F()), b, t) && s == SetTermShadow(old(s), b, t)
    {
      hide Settled, SsaRead.Typed;
      ghost var f := F();
      SetTerminator(b, t);
      JumpsKept(f, F(), b);
    }

    /** ST_ir_block_seal. */
    method Seal(b: BlockId) returns (ghost n: nat)
      requires Valid() && b < |blocks| && b < |g.preds| && blocks[b].preds == g.preds[b]
      modifies this
      ensures Valid()
      ensures SameInsts(old(F()), old(s), F(), s) && SameEdges(old(F()), F()) && SameTargets(old(F()), F())
      ensures forall c :: 0 <= c < |blocks| ==> blocks[c].isSealed == (old(blocks)[c].isSealed || c == b)
      ensures s.log == old(s).log
      ensures forall c :: c in s.early && c !in old(s).early ==> c < |blocks| && !blocks[c].isSealed
      ensures SsaRead.Seal(old(F()), b, n) == Some(F())
    {
      if blocks[b].isSealed {
        return 0;
      }
      hide Inv, SsaRead.Typed, SsaRead.CompletePhis, JumpsAreEdges, Ext, SameInsts, SameEdges, SameTargets;
      ghost var f0, s0 := F(), s;
      SealFlagKeeps(g, f0, s0, b);
      var pending := blocks[b].pending;
      s := SealShadow(f0, s, b);
      blocks := blocks[b := blocks[b].(isSealed := true)];
      ghost var f, sh := F(), s;
      assert pending[0..] == pending;
      PendingFacts(g, f0, s0, b);
      SsaRead.PlainTyped(f0, types, f);
      PendingTyped(f0, types, f, b);
      n := CompletePhis(b, pending, f0, s0);
      SealPlain(f0, s0, b, F(), s);
      JumpsStay(f0, F());
    }

    /** Its loop over the phis that were put off. */
    method CompletePhis(b: BlockId, pending: seq<(Var, Id)>, ghost f0: Fn, ghost s0: Shadow) returns (ghost n: nat)
      requires Ok() && b < |blocks| && b < |g.preds| && blocks[b].isSealed && s.open == OpenFrom(pending, 0)
      requires Sizes(f0, s0) && b < |f0.blocks| && !f0.blocks[b].isSealed && f0.blocks[b].pending == pending && PendingOk(f0, s0, b)
      requires forall k :: 0 <= k < |pending| ==> Waits(F(), s, b, pending[k])
      requires SsaRead.Typed(F(), types) && WellTyped(F(), types, pending)
      modifies this
      ensures Ok() && s.open == {} && Ext(old(F()), old(s), F(), s) && SameTargets(old(F()), F())
      ensures SsaRead.Typed(F(), types) && SsaRead.CompletePhis(old(F()), b, pending, n) == Some(F())
    {
      hide Inv, SsaRead.Typed, SsaRead.Operands, SsaRead.CompletePhis, SsaRead.Continues;
      ghost var f, sh := F(), s;
      KeepsRefl(g, f, sh);
      SsaRead.ContinuesSelf(f, b, pending);
      n := 0;
      var i := 0;
      while i < |pending|
        invariant Ok() && Ext(f, sh, F(), s) && SameTargets(f, F())
        invariant 0 <= i <= |pending|
        invariant s.open == OpenFrom(pending, i)
        invariant b < |blocks| && blocks[b].isSealed
        invariant forall k :: i <= k < |pending| ==> Waits(F(), s, b, pending[k])
        invariant SsaRead.Typed(F(), types) && WellTyped(F(), types, pending)
        invariant SsaRead.Continues(f, F(), b, pending, i, n)
      {
        ghost var f1, s1 := F(), s;
        assert pending[i..][0] == pending[i];
        OpenFromNext(f0, s0, b, pending, i);
        ghost var m := AddPhiOperands(b, pending[i].0, pending[i].1);
        ExtTrans(f, sh, f1, s1, F(), s);
        assert BlockExt(f1, s1, F(), s, b);
        WaitsKept(f1, s1, F(), s, b, pending, i);
        StillTyped(f1, types, F(), b, pending, i, m);
        SsaRead.ContinuesNext(f, f1, F(), b, pending, i, n, m);
        n := n + m;
        i := i + 1;
      }
      SsaRead.ContinuesEnd(f, F(), b, pending, n);
    }
  }
}
