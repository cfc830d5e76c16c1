/** Reads that end although the graph need not be rooted: it is enough that the blocks which have no
    answer yet form no circle. */
module SsaEnds {
  import opened Cfg
  import opened Ir
  import opened Wrappers
  import opened SsaEmit
  import opened SsaRemove
  import opened SsaRead

  /** What the tables name exists. */
  ghost predicate InstIn(f: Fn, v: Id)
    requires v < |f.insts|
  {
    && f.insts[v].block < |f.blocks|
    && (f.insts[v].repl.Some? ==> f.insts[v].repl.value < |f.insts|)
    && forall a :: a in f.insts[v].args ==> a < |f.insts|
  }

  ghost predicate Named(f: Fn, x: Var) {
    && (forall v :: 0 <= v < |f.insts| ==> InstIn(f, v))
    && forall b :: 0 <= b < |f.blocks| && x in f.blocks[b].varDefs ==> f.blocks[b].varDefs[x] < |f.insts|
  }

  /** Every chain of `repl` gets lower. */
  ghost predicate Lower(f: Fn, h: seq<nat>) {
    && |h| == |f.insts|
    && forall v :: 0 <= v < |f.insts| && f.insts[v].removed && f.insts[v].repl.Some? ==>
      f.insts[v].repl.value < |f.insts| && h[f.insts[v].repl.value] < h[v]
  }

  /** Sealed blocks without an answer are in `us`, and can be numbered so that predecessors come first. */
  ghost predicate Numbered(f: Fn, x: Var, us: set<BlockId>, rank: BlockId -> nat) {
    && (forall b :: 0 <= b < |f.blocks| && b !in us ==> x in f.blocks[b].varDefs || !f.blocks[b].isSealed)
    && forall b :: b in us ==> b < |f.blocks| && PredsBefore(f, us, rank, b)
  }

  ghost predicate PredsBefore(f: Fn, us: set<BlockId>, rank: BlockId -> nat, b: BlockId)
    requires b < |f.blocks|
  {
    forall q :: q in f.blocks[b].preds ==> q < |f.blocks| && (q in us ==> rank(q) < rank(b))
  }

  /** Nothing leads to `p` but the answer of block `c`. */
  ghost predicate Hidden(f: Fn, x: Var, p: Id, c: BlockId) {
    && p < |f.insts|
    && (forall v :: 0 <= v < |f.insts| ==> f.insts[v].repl != Some(p))
    && forall b :: 0 <= b < |f.blocks| && b != c && x in f.blocks[b].varDefs ==> f.blocks[b].varDefs[x] != p
  }

  /** An operand that was not there has replaced one that was. */
  ghost predicate ArgsFrom(f: Fn, f': Fn, v: Id)
    requires v < |f.insts| && v < |f'.insts|
  {
    forall a :: a in f'.insts[v].args ==> a in f.insts[v].args || Replaces(f', a)
  }

  ghost predicate Replaces(f: Fn, a: Id) {
    exists w :: 0 <= w < |f.insts| && f.insts[w].repl == Some(a)
  }

  ghost predicate SameInst(f: Fn, f': Fn, v: Id)
    requires v < |f.insts| && v < |f'.insts|
  {
    && f'.insts[v].repl == f.insts[v].repl && f'.insts[v].removed == f.insts[v].removed
    && f'.insts[v].block == f.insts[v].block && f'.insts[v].ty == f.insts[v].ty
  }

  ghost predicate SameBlock(f: Fn, f': Fn, x: Var, b: BlockId)
    requires b < |f.blocks| && b < |f'.blocks|
  {
    && f'.blocks[b].preds == f.blocks[b].preds && f'.blocks[b].isSealed == f.blocks[b].isSealed
    && (x in f.blocks[b].varDefs ==> x in f'.blocks[b].varDefs && f'.blocks[b].varDefs[x] == f.blocks[b].varDefs[x])
  }

  /** What a read leaves as it was: chains, edges, seals, answers. */
  ghost predicate Grown(f: Fn, f': Fn, x: Var) {
    && |f.insts| <= |f'.insts| && |f.blocks| == |f'.blocks|
    && (forall v :: 0 <= v < |f.insts| ==> SameInst(f, f', v) && ArgsFrom(f, f', v))
    && forall b :: 0 <= b < |f.blocks| ==> SameBlock(f, f', x, b)
  }

  lemma GrownTrans(f: Fn, f1: Fn, f2: Fn, x: Var)
    requires Grown(f, f1, x) && Grown(f1, f2, x)
    ensures Grown(f, f2, x)
  {
    forall v | 0 <= v < |f.insts|
      ensures SameInst(f, f2, v) && ArgsFrom(f, f2, v)
    {
      assert SameInst(f, f1, v) && SameInst(f1, f2, v) && ArgsFrom(f, f1, v) && ArgsFrom(f1, f2, v);
      forall a | a in f2.insts[v].args && a !in f.insts[v].args
        ensures Replaces(f2, a)
      {
        if a in f1.insts[v].args {
          var w :| 0 <= w < |f1.insts| && f1.insts[w].repl == Some(a);
          assert SameInst(f1, f2, w);
        }
      }
    }
    forall b | 0 <= b < |f.blocks|
      ensures SameBlock(f, f2, x, b)
    {
      assert SameBlock(f, f1, x, b) && SameBlock(f1, f2, x, b);
    }
  }

  lemma NumberedKept(f: Fn, f': Fn, x: Var, us: set<BlockId>, rank: BlockId -> nat)
    requires Numbered(f, x, us, rank) && Grown(f, f', x)
    ensures Numbered(f', x, us, rank)
  {
    forall b | 0 <= b < |f'.blocks| && b !in us
      ensures x in f'.blocks[b].varDefs || !f'.blocks[b].isSealed
    {
      assert SameBlock(f, f', x, b);
    }
    forall b | b in us
      ensures b < |f'.blocks| && PredsBefore(f', us, rank, b)
    {
      assert SameBlock(f, f', x, b) && PredsBefore(f, us, rank, b);
    }
  }

  lemma {:induction false} ChaseDown(f: Fn, x: Var, h: seq<nat>, v: Id) returns (n: nat, r: Id)
    requires Lower(f, h) && v < |f.insts|
    ensures Chase(f, v, n) == Some(r) && r < |f.insts|
    ensures forall p: Id, c: BlockId :: Hidden(f, x, p, c) && v != p ==> r != p
    decreases h[v]
  {
    if f.insts[v].removed && f.insts[v].repl.Some? {
      var m;
      m, r := ChaseDown(f, x, h, f.insts[v].repl.value);
      n := m + 1;
    } else {
      n, r := 0, v;
    }
  }

  // ----- the steps of a read -----

  ghost predicate Fit(f: Fn, x: Var, h: seq<nat>, us: set<BlockId>, rank: BlockId -> nat) {
    Named(f, x) && Lower(f, h) && Numbered(f, x, us, rank)
  }

  /** A phi in the making further up stays out of sight. */
  ghost predicate Kept(f: Fn, f': Fn, v: Id, x: Var, p: Id, c: BlockId, us: set<BlockId>, rank: BlockId -> nat, bound: nat) {
    Hidden(f, x, p, c) && c in us && rank(c) >= bound ==> Hidden(f', x, p, c) && v != p
  }

  /** The read of block `b` goes well. */
  ghost predicate Good(f: Fn, f': Fn, v: Id, x: Var, us: set<BlockId>, rank: BlockId -> nat, bound: nat) {
    && Grown(f, f', x) && v < |f'.insts|
    && forall p: Id, c: BlockId :: Kept(f, f', v, x, p, c, us, rank, bound)
  }

  lemma SetDefFits(f: Fn, f1: Fn, x: Var, h: seq<nat>, us: set<BlockId>, rank: BlockId -> nat, bound: nat, b: BlockId, v: Id)
    requires Fit(f1, x, h, us, rank) && b < |f.blocks| && Grown(f, f1, x) && v < |f1.insts|
    requires x in f.blocks[b].varDefs ==> f.blocks[b].varDefs[x] == v
    requires b in us ==> rank(b) < bound
    requires forall p: Id, c: BlockId :: Kept(f, f1, v, x, p, c, us, rank, bound)
    ensures Fit(SetDef(f1, b, x, v), x, h, us, rank) && Good(f, SetDef(f1, b, x, v), v, x, us, rank, bound)
  {
    var f2 := SetDef(f1, b, x, v);
    forall u | 0 <= u < |f2.insts|
      ensures InstIn(f2, u)
    {
      assert InstIn(f1, u);
    }
    forall u | 0 <= u < |f.insts|
      ensures SameInst(f, f2, u) && ArgsFrom(f, f2, u)
    {
      assert SameInst(f, f1, u) && ArgsFrom(f, f1, u);
      forall a: Id | Replaces(f1, a)
        ensures Replaces(f2, a)
      {
        var w :| 0 <= w < |f1.insts| && f1.insts[w].repl == Some(a);
        assert f2.insts[w].repl == Some(a);
      }
    }
    forall c | 0 <= c < |f.blocks|
      ensures SameBlock(f, f2, x, c)
    {
      assert SameBlock(f, f1, x, c);
    }
    forall c | c in us
      ensures c < |f2.blocks| && PredsBefore(f2, us, rank, c)
    {
      assert PredsBefore(f1, us, rank, c);
    }
    forall p: Id, c: BlockId
      ensures Kept(f, f2, v, x, p, c, us, rank, bound)
    {
      assert Kept(f, f1, v, x, p, c, us, rank, bound);
    }
  }

  lemma EmitFits(f: Fn, x: Var, h: seq<nat>, us: set<BlockId>, rank: BlockId -> nat, bound: nat, b: BlockId, ty: Ty)
    requires Fit(f, x, h, us, rank) && b < |f.blocks|
    ensures
      var f1 := Emit(f, b, ConstInt(0), ty, []);
      && Fit(f1, x, h + [0], us, rank) && Grown(f, f1, x)
      && forall p: Id, c: BlockId :: Kept(f, f1, |f.insts|, x, p, c, us, rank, bound)
  {
    var f1 := Emit(f, b, ConstInt(0), ty, []);
    forall u | 0 <= u < |f1.insts|
      ensures InstIn(f1, u)
    {
      if u < |f.insts| {
        assert InstIn(f, u);
      }
    }
    forall c | 0 <= c < |f.blocks|
      ensures SameBlock(f, f1, x, c)
    {
    }
    forall u | 0 <= u < |f.insts|
      ensures SameInst(f, f1, u) && ArgsFrom(f, f1, u) && InstIn(f, u)
    {
    }
    NumberedKept(f, f1, x, us, rank);
  }

  lemma EmitPhiFits(f: Fn, x: Var, h: seq<nat>, us: set<BlockId>, rank: BlockId -> nat, bound: nat, b: BlockId, ty: Ty)
    requires Fit(f, x, h, us, rank) && b < |f.blocks| && x !in f.blocks[b].varDefs && (b in us ==> rank(b) < bound)
    ensures
      var f1 := EmitPhi(f, b, x, ty);
      && Fit(f1, x, h + [0], us, rank) && Good(f, f1, |f.insts|, x, us, rank, bound)
      && Hidden(f1, x, |f.insts|, b)
  {
    var f1 := EmitPhi(f, b, x, ty);
    forall u | 0 <= u < |f1.insts|
      ensures InstIn(f1, u) && f1.insts[u].repl != Some(|f.insts|)
    {
      if u < |f.insts| {
        assert InstIn(f, u);
      }
    }
    forall u | 0 <= u < |f.insts|
      ensures SameInst(f, f1, u) && ArgsFrom(f, f1, u) && InstIn(f, u)
    {
      assert InstIn(f, u);
    }
    forall c | 0 <= c < |f.blocks|
      ensures SameBlock(f, f1, x, c)
    {
    }
    NumberedKept(f, f1, x, us, rank);
    forall p: Id, c: BlockId
      ensures Kept(f, f1, |f.insts|, x, p, c, us, rank, bound)
    {
    }
  }

  lemma AddOperandFits(f0: Fn, f: Fn, x: Var, h: seq<nat>, us: set<BlockId>, rank: BlockId -> nat, p: Id, q: BlockId, v: Id)
    requires Fit(f, x, h, us, rank) && Grown(f0, f, x) && |f0.insts| <= p < |f.insts| && v < |f.insts|
    ensures Fit(AddOperand(f, p, q, v), x, h, us, rank) && Grown(f0, AddOperand(f, p, q, v), x)
    ensures forall p0: Id, c: BlockId :: Hidden(f, x, p0, c) ==> Hidden(AddOperand(f, p, q, v), x, p0, c)
  {
    var f1 := AddOperand(f, p, q, v);
    forall u | 0 <= u < |f1.insts|
      ensures InstIn(f1, u)
    {
      assert InstIn(f, u);
    }
    forall u | 0 <= u < |f0.insts|
      ensures SameInst(f0, f1, u) && ArgsFrom(f0, f1, u)
    {
      assert SameInst(f0, f, u) && ArgsFrom(f0, f, u);
      forall a: Id | Replaces(f, a)
        ensures Replaces(f1, a)
      {
        var w :| 0 <= w < |f.insts| && f.insts[w].repl == Some(a);
        assert f1.insts[w].repl == Some(a);
      }
    }
    forall c | 0 <= c < |f0.blocks|
      ensures SameBlock(f0, f1, x, c)
    {
      assert SameBlock(f0, f, x, c);
    }
    forall c | c in us
      ensures c < |f1.blocks| && PredsBefore(f1, us, rank, c)
    {
      assert PredsBefore(f, us, rank, c);
    }
  }

  lemma TryRemoveFits(f0: Fn, f: Fn, x: Var, h: seq<nat>, us: set<BlockId>, rank: BlockId -> nat, p: Id, b: BlockId) returns (h': seq<nat>)
    requires Fit(f, x, h, us, rank) && Grown(f0, f, x) && |f0.insts| <= p < |f.insts| && f.insts[p].block < |f.blocks|
    requires Hidden(f, x, p, b) && f.insts[p].repl.None?
    ensures Fit(TryRemove(f, p), x, h', us, rank) && Grown(f0, TryRemove(f, p), x) && |TryRemove(f, p).insts| == |f.insts|
    ensures forall p0: Id, c: BlockId :: Hidden(f, x, p0, c) && p0 !in f.insts[p].args ==> Hidden(TryRemove(f, p), x, p0, c)
  {
    hide RemovePhi, SsaRead.Other;
    match SsaRead.Other(f.insts[p].args, p, None)
    case Some(Some(same)) =>
      OtherExact(f.insts[p].args, p, None, same);
      assert InstIn(f, p);
      h' := h[p := h[same] + 1];
      RemovedFits(f0, f, x, h, us, rank, p, b, same);
    case _ => h' := h;
  }

  lemma RemovedFits(f0: Fn, f: Fn, x: Var, h: seq<nat>, us: set<BlockId>, rank: BlockId -> nat, p: Id, b: BlockId, same: Id)
    requires Fit(f, x, h, us, rank) && Grown(f0, f, x) && |f0.insts| <= p < |f.insts| && f.insts[p].block < |f.blocks|
    requires Hidden(f, x, p, b) && f.insts[p].repl.None? && same < |f.insts| && same != p && same in f.insts[p].args
    ensures Fit(RemovePhi(f, p, same), x, h[p := h[same] + 1], us, rank)
    ensures Grown(f0, RemovePhi(f, p, same), x)
    ensures forall p0: Id, c: BlockId :: Hidden(f, x, p0, c) && p0 !in f.insts[p].args ==> Hidden(RemovePhi(f, p, same), x, p0, c)
  {
    hide RemovePhi;
    var r := RemovePhi(f, p, same);
    RemovedParts(f, p, same);
    Removed(f, p, same);
    forall u | 0 <= u < |r.insts|
      ensures InstIn(r, u)
    {
      assert InstIn(f, u);
      RemovedIn(f, p, same, u);
    }
    forall u | 0 <= u < |f0.insts|
      ensures SameInst(f0, r, u) && ArgsFrom(f0, r, u)
    {
      RemovedArgs(f0, f, x, p, same, u);
    }
    forall c | 0 <= c < |f0.blocks|
      ensures SameBlock(f0, r, x, c)
    {
      assert SameBlock(f0, f, x, c);
    }
    forall c | c in us
      ensures c < |r.blocks| && PredsBefore(r, us, rank, c)
    {
      assert PredsBefore(f, us, rank, c);
    }
  }

  lemma RemovedIn(f: Fn, p: Id, same: Id, u: Id)
    requires u < |f.insts| && p < |f.insts| && f.insts[p].block < |f.blocks| && same < |f.insts| && InstIn(f, u)
    ensures u < |RemovePhi(f, p, same).insts| && InstIn(RemovePhi(f, p, same), u)
  {
    hide RemovePhi;
    RemovedParts(f, p, same);
    var args := RemovePhi(f, p, same).insts[u].args;
    forall a | a in args
      ensures a < |f.insts|
    {
      var k :| 0 <= k < |args| && args[k] == a;
      assert a == same || f.insts[u].args[k] in f.insts[u].args;
    }
  }

  lemma RemovedArgs(f0: Fn, f: Fn, x: Var, p: Id, same: Id, u: Id)
    requires Grown(f0, f, x) && u < |f0.insts| <= p < |f.insts| && f.insts[p].block < |f.blocks| && f.insts[p].repl.None?
    requires same < |f.insts| && same != p
    ensures |RemovePhi(f, p, same).insts| == |f.insts|
    ensures SameInst(f0, RemovePhi(f, p, same), u) && ArgsFrom(f0, RemovePhi(f, p, same), u)
  {
    hide RemovePhi;
    var r := RemovePhi(f, p, same);
    RemovedParts(f, p, same);
    Removed(f, p, same);
    assert SameInst(f0, f, u) && ArgsFrom(f0, f, u);
    assert r.insts[p].repl == Some(same);
    forall a | a in r.insts[u].args && a !in f0.insts[u].args
      ensures Replaces(r, a)
    {
      if a != same {
        assert a in f.insts[u].args;
        var w :| 0 <= w < |f.insts| && f.insts[w].repl == Some(a);
        assert r.insts[w].repl == Some(a);
      }
    }
  }

  // ----- reads end -----

  lemma {:induction false} ReadEnds(f: Fn, x: Var, h: seq<nat>, us: set<BlockId>, rank: BlockId -> nat, bound: nat, b: BlockId, ty: Ty)
    returns (n: nat, f': Fn, h': seq<nat>, v: Id)
    requires Fit(f, x, h, us, rank) && b < |f.blocks| && (b in us ==> rank(b) < bound)
    ensures Read(f, b, x, ty, n) == Some((f', v)) && Fit(f', x, h', us, rank) && Good(f, f', v, x, us, rank, bound)
    decreases bound, 2
  {
    hide Read, ReadRec, Fit, Good, Kept;
    if x in f.blocks[b].varDefs {
      n, v := Answered(f, x, h, us, rank, bound, b, ty);
      f', h' := f, h;
    } else if !f.blocks[b].isSealed {
      ReadIsRec(f, b, x, ty, 0);
      RecUnsealed(f, b, x, ty);
      EmitPhiFits(f, x, h, us, rank, bound, b, ty);
      n, f', h', v := 0, EmitPhi(f, b, x, ty), h + [0], |f.insts|;
    } else {
      Ahead(f, x, h, us, rank, b);
      n, f', h', v := RecEnds(f, x, h, us, rank, bound, b, ty);
      ReadIsRec(f, b, x, ty, n);
    }
  }

  lemma Ahead(f: Fn, x: Var, h: seq<nat>, us: set<BlockId>, rank: BlockId -> nat, b: BlockId)
    requires Fit(f, x, h, us, rank) && b < |f.blocks| && x !in f.blocks[b].varDefs && f.blocks[b].isSealed
    ensures b in us && PredsBefore(f, us, rank, b)
  {
  }

  lemma Answered(f: Fn, x: Var, h: seq<nat>, us: set<BlockId>, rank: BlockId -> nat, bound: nat, b: BlockId, ty: Ty) returns (n: nat, v: Id)
    requires Fit(f, x, h, us, rank) && b < |f.blocks| && (b in us ==> rank(b) < bound) && x in f.blocks[b].varDefs
    ensures Read(f, b, x, ty, n) == Some((f, v)) && Good(f, f, v, x, us, rank, bound)
  {
    hide Read;
    n, v := ChaseDown(f, x, h, f.blocks[b].varDefs[x]);
    ReadFound(f, b, x, ty, n, v);
  }

  lemma {:induction false} RecEnds(f: Fn, x: Var, h: seq<nat>, us: set<BlockId>, rank: BlockId -> nat, bound: nat, b: BlockId, ty: Ty)
    returns (n: nat, f': Fn, h': seq<nat>, v: Id)
    requires Fit(f, x, h, us, rank) && b < |f.blocks| && b in us && rank(b) < bound && PredsBefore(f, us, rank, b)
    requires x !in f.blocks[b].varDefs && f.blocks[b].isSealed
    ensures ReadRec(f, b, x, ty, n) == Some((f', v)) && Fit(f', x, h', us, rank) && Good(f, f', v, x, us, rank, bound)
    decreases bound, 1
  {
    hide Read, ReadRec, Operands, Fit, EmitPhi;
    var preds := f.blocks[b].preds;
    if |preds| == 1 {
      var q := preds[0];
      assert q in preds;
      var m, f1, h1, u := ReadEnds(f, x, h, us, rank, rank(b), q, ty);
      Weaker(f, f1, u, x, us, rank, rank(b), bound);
      SetDefFits(f, f1, x, h1, us, rank, bound, b, u);
      RecForward(f, b, x, ty, m, f1, u);
      n, f', h', v := m + 1, SetDef(f1, b, x, u), h1, u;
    } else if |preds| == 0 {
      EmitFits(f, x, h, us, rank, bound, b, ty);
      SetDefFits(f, Emit(f, b, ConstInt(0), ty, []), x, h + [0], us, rank, bound, b, |f.insts|);
      RecEntry(f, b, x, ty);
      n, f', h', v := 0, SetDef(Emit(f, b, ConstInt(0), ty, []), b, x, |f.insts|), h + [0], |f.insts|;
    } else {
      n, f', h', v := PhiEnds(f, x, h, us, rank, bound, b, ty);
    }
  }

  /** What is promised for fewer hidden phis follows. */
  lemma Weaker(f: Fn, f': Fn, v: Id, x: Var, us: set<BlockId>, rank: BlockId -> nat, low: nat, bound: nat)
    requires Good(f, f', v, x, us, rank, low) && low <= bound
    ensures Good(f, f', v, x, us, rank, bound)
  {
    forall p: Id, c: BlockId
      ensures Kept(f, f', v, x, p, c, us, rank, bound)
    {
      assert Kept(f, f', v, x, p, c, us, rank, low);
    }
  }

  lemma {:induction false} PhiEnds(f: Fn, x: Var, h: seq<nat>, us: set<BlockId>, rank: BlockId -> nat, bound: nat, b: BlockId, ty: Ty)
    returns (n: nat, f': Fn, h': seq<nat>, v: Id)
    requires Fit(f, x, h, us, rank) && b < |f.blocks| && b in us && rank(b) < bound && PredsBefore(f, us, rank, b)
    requires x !in f.blocks[b].varDefs && f.blocks[b].isSealed && |f.blocks[b].preds| > 1
    ensures ReadRec(f, b, x, ty, n) == Some((f', v)) && Fit(f', x, h', us, rank) && Good(f, f', v, x, us, rank, bound)
    decreases bound, 0
  {
    hide Read, ReadRec, Operands, Fit, Numbered;
    var preds, p := f.blocks[b].preds, |f.insts|;
    EmitPhiFits(f, x, h, us, rank, bound, b, ty);
    var f1 := EmitPhi(f, b, x, ty);
    var f2;
    n, f2, h' := OperandsEnd(f, f1, x, h + [0], us, rank, b, p, preds, 0);
    forall p0: Id, c: BlockId
      ensures Kept(f, f2, p, x, p0, c, us, rank, bound)
    {
      assert Kept(f, f1, p, x, p0, c, us, rank, bound);
    }
    SetDefFits(f, f2, x, h', us, rank, bound, b, p);
    RecPhi(f, b, x, ty, n, f2);
    f', v := SetDef(f2, b, x, p), p;
  }

  lemma {:induction false} OperandsEnd(f0: Fn, f: Fn, x: Var, h: seq<nat>, us: set<BlockId>, rank: BlockId -> nat, b: BlockId, p: Id,
                                       preds: seq<BlockId>, i: nat) returns (n: nat, f': Fn, h': seq<nat>)
    requires Fit(f, x, h, us, rank) && Grown(f0, f, x) && |f0.insts| <= p < |f.insts| && i <= |preds|
    requires f.insts[p].block == b < |f.blocks| && f.insts[p].repl.None? && b in us && Hidden(f, x, p, b)
    requires preds == f.blocks[b].preds && PredsBefore(f, us, rank, b)
    ensures Operands(f, preds, x, p, i, n) == Some(f') && Fit(f', x, h', us, rank) && Grown(f0, f', x) && p < |f'.insts|
    ensures forall p0: Id, c: BlockId ::
      Hidden(f, x, p0, c) && c in us && rank(c) >= rank(b) && p0 !in f.insts[p].args && p0 != p ==> Hidden(f', x, p0, c)
    decreases rank(b), 3, |preds| - i
  {
    hide Read, Operands, Fit, TryRemove, AddOperand;
    if i == |preds| {
      h' := TryRemoveFits(f0, f, x, h, us, rank, p, b);
      LastOperand(f, preds, x, p, 0);
      n, f' := 0, TryRemove(f, p);
    } else {
      var q := preds[i];
      assert q in preds;
      var m, f1, h1, v := ReadEnds(f, x, h, us, rank, rank(b), q, f.insts[p].ty);
      assert Kept(f, f1, v, x, p, b, us, rank, rank(b));
      GrownTrans(f0, f, f1, x);
      AddOperandFits(f0, f1, x, h1, us, rank, p, q, v);
      var f2 := AddOperand(f1, p, q, v);
      StillHere(f, f1, x, us, rank, b, p, q, v);
      var k;
      k, f', h' := OperandsEnd(f0, f2, x, h1, us, rank, b, p, preds, i + 1);
      n := m + k + 1;
      ReadMore(f, q, x, f.insts[p].ty, m, n - 1);
      OneOperand(f, preds, x, p, i, n, f1, v);
      OperandsMore(f2, preds, x, p, i + 1, k, n);
      forall p0: Id, c: BlockId | Hidden(f, x, p0, c) && c in us && rank(c) >= rank(b) && p0 !in f.insts[p].args && p0 != p
        ensures Hidden(f', x, p0, c)
      {
        assert Kept(f, f1, v, x, p0, c, us, rank, rank(b));
        NotAmong(f, f1, x, p, q, v, p0, c);
      }
    }
  }

  /** The phi in the making, one operand later. */
  lemma StillHere(f: Fn, f1: Fn, x: Var, us: set<BlockId>, rank: BlockId -> nat, b: BlockId, p: Id, q: BlockId, v: Id)
    requires Grown(f, f1, x) && p < |f.insts| && f.insts[p].block == b < |f.blocks| && f.insts[p].repl.None?
    requires PredsBefore(f, us, rank, b)
    ensures
      var f2 := AddOperand(f1, p, q, v);
      && p < |f2.insts| && f2.insts[p].block == b < |f2.blocks| && f2.insts[p].repl.None? && f2.blocks[b].preds == f.blocks[b].preds
      && PredsBefore(f2, us, rank, b)
  {
    assert SameInst(f, f1, p) && SameBlock(f, f1, x, b);
  }

  lemma NotAmong(f: Fn, f1: Fn, x: Var, p: Id, q: BlockId, v: Id, p0: Id, c: BlockId)
    requires Grown(f, f1, x) && p < |f.insts| && Hidden(f1, x, p0, c) && p0 !in f.insts[p].args && v != p0
    ensures p0 !in AddOperand(f1, p, q, v).insts[p].args
  {
    assert ArgsFrom(f, f1, p);
    assert !Replaces(f1, p0);
  }

  /** Main result. On any graph, rooted or not: if the sealed blocks that have no answer for a variable can
      be numbered so that predecessors come first, that is if some block of every circle has an answer
      or is not sealed, then every read of the variable ends, and all later ones end too. */
  lemma EveryReadEnds(f: Fn, x: Var, h: seq<nat>, us: set<BlockId>, rank: BlockId -> nat, b: BlockId, ty: Ty)
    returns (n: nat, f': Fn, h': seq<nat>, v: Id)
    requires Named(f, x) && Lower(f, h) && Numbered(f, x, us, rank) && b < |f.blocks|
    ensures Read(f, b, x, ty, n) == Some((f', v)) && |f'.blocks| == |f.blocks|
    ensures Named(f', x) && Lower(f', h') && Numbered(f', x, us, rank)
  {
    hide Read, Named, Lower, Numbered;
    var bound := if b in us then rank(b) + 1 else 0;
    n, f', h', v := ReadEnds(f, x, h, us, rank, bound, b, ty);
  }
}
