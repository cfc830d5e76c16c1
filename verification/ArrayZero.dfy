/** A loop that the lowering builds: zeroing a long array, element by element. Its head is read before it
    is sealed, so that the counter becomes a pending phi. */
module ArrayZero {
  import opened Cfg
  import opened Ir
  import opened Wrappers
  import opened SsaInv
  import opened SsaEmit
  import opened SsaLowering
  import opened SsaBuilder
  import opened Compose
  import SsaRead

  const INDEX := Int(64, true)
  const ADDRESS := Other

  /** The graph around the loop whose blocks are `n`, `n + 1` and `n + 2`, entered from `cur`. */
  ghost predicate LoopAt(g: Graph, cur: BlockId, n: nat) {
    && n + 3 <= |g.preds|
    && g.preds[n] == [cur, n + 1] && g.preds[n + 1] == [n] && g.preds[n + 2] == [n]
  }

  /** What a block shows of itself between two calls. */
  datatype Face = Face(preds: seq<BlockId>, isSealed: bool, bare: bool)

  ghost function Faces(f: Fn): (r: seq<Face>)
    ensures |r| == |f.blocks|
  {
    seq(|f.blocks|, b requires 0 <= b < |f.blocks| => Face(f.blocks[b].preds, f.blocks[b].isSealed, f.blocks[b].term.NoTerm?))
  }

  lemma FacesKept(f: Fn, f': Fn)
    requires SameEdges(f, f') && SameTargets(f, f')
    requires forall c :: 0 <= c < |f'.blocks| ==> f'.blocks[c].isSealed == f.blocks[c].isSealed
    ensures Faces(f') == Faces(f)
  {
  }

  lemma FacesSealed(f: Fn, f': Fn, b: BlockId)
    requires SameEdges(f, f') && SameTargets(f, f') && b < |f.blocks|
    requires forall c :: 0 <= c < |f'.blocks| ==> f'.blocks[c].isSealed == (f.blocks[c].isSealed || c == b)
    ensures Faces(f') == Faces(f)[b := Faces(f)[b].(isSealed := true)]
  {
  }

  lemma FacesNew(f: Fn)
    ensures Faces(NewBlock(f)) == Faces(f) + [Face([], false, true)]
  {
  }

  lemma FacesEmit(f: Fn, b: BlockId, op: Op, ty: Ty, args: seq<Id>)
    requires b < |f.blocks|
    ensures Faces(Emit(f, b, op, ty, args)) == Faces(f)
  {
  }

  lemma FacesWrite(f: Fn, b: BlockId, x: Var, w: Id)
    requires b < |f.blocks|
    ensures Faces(WriteVar(f, b, x, w)) == Faces(f)
  {
  }

  lemma FacesTerm(f: Fn, b: BlockId, t: Term)
    requires b < |f.blocks| && !t.NoTerm?
    ensures Faces(SetTerm(f, b, t)) == Faces(f)[b := Faces(f)[b].(bare := false)]
  {
  }

  lemma FacesEdge(f: Fn, from: BlockId, to: BlockId)
    requires to < |f.blocks|
    ensures Faces(AddEdge(f, from, to)) == Faces(f)[to := Faces(f)[to].(preds := Faces(f)[to].preds + [from])]
  {
  }

  lemma OwnDominator(g: Graph, b: BlockId)
    ensures Dominates(g, b, b)
  {
  }

  /** No block that was sealed at the beginning has been read too early since. */
  ghost predicate NoneEarlier(s: Shadow, before: Shadow, fs: seq<Face>) {
    forall c :: c in s.early && c !in before.early && c < |fs| ==> !fs[c].isSealed
  }

  /** Blocks stay, and stay sealed. */
  ghost predicate Later(fs: seq<Face>, fs': seq<Face>) {
    |fs| <= |fs'| && forall c :: 0 <= c < |fs| && fs[c].isSealed ==> fs'[c].isSealed
  }

  lemma EarlierTrans(s: Shadow, fs: seq<Face>, s1: Shadow, fs1: seq<Face>, s2: Shadow)
    requires NoneEarlier(s1, s, fs) && NoneEarlier(s2, s1, fs1) && Later(fs, fs1)
    ensures NoneEarlier(s2, s, fs)
  {
  }

  /** No block that is there has `b` as a predecessor. */
  ghost predicate Unused(fs: seq<Face>, b: BlockId) {
    forall c :: 0 <= c < |fs| ==> b !in fs[c].preds
  }

  /** Predecessors are blocks that exist. */
  lemma NewIsUnused(g: Graph, f: Fn, s: Shadow, b: BlockId)
    requires Inv(g, f, s) && b >= |f.blocks|
    ensures Unused(Faces(f), b)
  {
    forall c | 0 <= c < |f.blocks|
      ensures b !in Faces(f)[c].preds
    {
      assert EdgesOk(g, f, c);
    }
  }

  // ----- the calls of the lowering, by what they show -----

  ghost function Shown(bld: Builder): seq<Face>
    reads bld
  {
    Faces(bld.F())
  }

  method Instruction(bld: Builder, b: BlockId, op: Op, ty: Ty, args: seq<Id>) returns (v: Id)
    requires bld.Valid() && b < |Shown(bld)| && !op.Phi?
    requires forall k :: 0 <= k < |args| ==> args[k] < |bld.insts|
    modifies bld
    ensures bld.Valid() && Shown(bld) == old(Shown(bld)) && bld.s.early == old(bld.s).early
    ensures v == |old(bld.insts)| && bld.insts == old(bld.insts) + [Inst(op, ty, b, args, [], None, false)]
  {
    ghost var f := bld.F();
    v := bld.Append(b, op, ty, args);
    FacesEmit(f, b, op, ty, args);
  }

  method NewBlocks(bld: Builder) returns (b: BlockId)
    requires bld.Valid() && |Shown(bld)| + 3 <= |bld.g.preds|
    modifies bld
    ensures bld.Valid() && b == |old(Shown(bld))| && bld.s.early == old(bld.s).early && bld.insts == old(bld.insts)
    ensures Shown(bld) == old(Shown(bld)) + [Face([], false, true), Face([], false, true), Face([], false, true)]
  {
    FacesNew(bld.F());
    b := bld.BlockNew();
    FacesNew(bld.F());
    var c := bld.BlockNew();
    FacesNew(bld.F());
    c := bld.BlockNew();
  }

  method Read(bld: Builder, b: BlockId, x: Var) returns (v: Id)
    requires bld.Valid() && b < |Shown(bld)| && b < |bld.g.preds| && bld.types(x) == INDEX
    modifies bld
    ensures bld.Valid() && Shown(bld) == old(Shown(bld)) && v < |bld.insts| && |old(bld.insts)| <= |bld.insts|
    ensures NoneEarlier(bld.s, old(bld.s), Shown(bld))
  {
    ghost var f := bld.F();
    ghost var n;
    v, n := bld.Use(b, x, INDEX);
    FacesKept(f, bld.F());
  }

  method Write(bld: Builder, b: BlockId, x: Var, w: Id)
    requires bld.Valid() && b < |Shown(bld)| && w < |bld.insts| && Unused(Shown(bld), b)
    requires bld.insts[w].block == b && bld.insts[w].ty == bld.types(x)
    modifies bld
    ensures bld.Valid() && Shown(bld) == old(Shown(bld)) && bld.s.early == old(bld.s).early && bld.insts == old(bld.insts)
  {
    ghost var f := bld.F();
    OwnDominator(bld.g, b);
    assert NoSuccessors(f, b) by {
      forall c | 0 <= c < |f.blocks|
        ensures b !in f.blocks[c].preds
      {
        assert Faces(f)[c].preds == f.blocks[c].preds;
      }
    }
    bld.Assign(b, x, w);
    FacesWrite(f, b, x, w);
  }

  method Jump(bld: Builder, b: BlockId, target: BlockId)
    requires bld.Valid() && b < |Shown(bld)| && target < |Shown(bld)| && target < |bld.g.preds| && Shown(bld)[b].bare
    requires !Shown(bld)[target].isSealed && Shown(bld)[target].preds + [b] <= bld.g.preds[target]
    modifies bld
    ensures bld.Valid() && bld.s.early == old(bld.s).early && bld.insts == old(bld.insts)
    ensures
      var fs := old(Shown(bld))[b := old(Shown(bld))[b].(bare := false)];
      Shown(bld) == fs[target := fs[target].(preds := fs[target].preds + [b])]
  {
    ghost var f := bld.F();
    bld.TermBr(b, target);
    FacesTerm(f, b, Br(target));
    FacesEdge(SetTerm(f, b, Br(target)), b, target);
  }

  method Branch(bld: Builder, b: BlockId, c: Id, t: BlockId, e: BlockId)
    requires bld.Valid() && b < |Shown(bld)| && Shown(bld)[b].bare && c < |bld.insts| && t != e
    requires t < |Shown(bld)| && e < |Shown(bld)| && t < |bld.g.preds| && e < |bld.g.preds|
    requires !Shown(bld)[t].isSealed && !Shown(bld)[e].isSealed
    requires Shown(bld)[t].preds + [b] <= bld.g.preds[t] && Shown(bld)[e].preds + [b] <= bld.g.preds[e]
    modifies bld
    ensures bld.Valid() && bld.s.early == old(bld.s).early && bld.insts == old(bld.insts)
    ensures
      var fs := old(Shown(bld))[b := old(Shown(bld))[b].(bare := false)];
      var fs1 := fs[t := fs[t].(preds := fs[t].preds + [b])];
      Shown(bld) == fs1[e := fs1[e].(preds := fs1[e].preds + [b])]
  {
    ghost var f := bld.F();
    bld.TermCondBr(b, c, t, e);
    var t1 := CondBr(c, t, e);
    FacesTerm(f, b, t1);
    FacesEdge(SetTerm(f, b, t1), b, t);
    FacesEdge(AddEdge(SetTerm(f, b, t1), b, t), b, e);
  }

  method Seal(bld: Builder, b: BlockId)
    requires bld.Valid() && b < |Shown(bld)| && b < |bld.g.preds| && Shown(bld)[b].preds == bld.g.preds[b]
    modifies bld
    ensures bld.Valid() && |old(bld.insts)| <= |bld.insts|
    ensures Shown(bld) == old(Shown(bld))[b := old(Shown(bld))[b].(isSealed := true)]
    ensures NoneEarlier(bld.s, old(bld.s), Shown(bld))
  {
    ghost var f := bld.F();
    ghost var n := bld.Seal(b);
    FacesSealed(f, bld.F(), b);
  }

  method End(bld: Builder, b: BlockId)
    requires bld.Valid() && b < |Shown(bld)| && Shown(bld)[b].bare
    modifies bld
    ensures bld.Valid() && bld.s.early == old(bld.s).early
    ensures Shown(bld) == old(Shown(bld))[b := old(Shown(bld))[b].(bare := false)]
  {
    ghost var f := bld.F();
    bld.TermEnd(b, Ret([]));
    FacesTerm(f, b, Ret([]));
  }

  // ----- the loop -----

  /** What is there when the head of the loop is entered. */
  ghost function Entered(fs: seq<Face>, cur: BlockId): seq<Face>
    requires cur < |fs|
  {
    fs[cur := fs[cur].(bare := false)] + [Face([cur], false, true), Face([], false, true), Face([], false, true)]
  }

  /** When its body is entered. */
  ghost function Headed(fs: seq<Face>, cur: BlockId): seq<Face>
    requires cur < |fs|
  {
    fs[cur := fs[cur].(bare := false)] + [Face([cur], false, false), Face([|fs|], true, true), Face([|fs|], false, true)]
  }

  /** When all is done. */
  ghost function Looped(fs: seq<Face>, cur: BlockId): seq<Face>
    requires cur < |fs|
  {
    fs[cur := fs[cur].(bare := false)]
    + [Face([cur, |fs| + 1], true, false), Face([|fs|], true, false), Face([|fs|], true, true)]
  }

  method LoopEntry(bld: Builder, cur: BlockId, key: Var) returns (begin: BlockId)
    requires bld.Valid() && cur < |Shown(bld)| && Shown(bld)[cur].bare && Unused(Shown(bld), cur)
    requires bld.types(key) == INDEX && LoopAt(bld.g, cur, |Shown(bld)|)
    modifies bld
    ensures bld.Valid() && begin == |old(Shown(bld))| && bld.s.early == old(bld.s).early && |old(bld.insts)| <= |bld.insts|
    ensures Shown(bld) == Entered(old(Shown(bld)), cur)
  {
    hide Builder.Valid, Shown;
    ghost var fs := Shown(bld);
    var zero := Instruction(bld, cur, ConstInt(0), INDEX, []);
    Write(bld, cur, key, zero);
    begin := NewBlocks(bld);
    assert [] + [cur] == [cur];
    Jump(bld, cur, begin);
    assert Shown(bld) == Entered(fs, cur);
  }

  method LoopHead(bld: Builder, ghost fs: seq<Face>, cur: BlockId, begin: BlockId, key: Var, count: int)
    requires bld.Valid() && cur < |fs| == begin && Shown(bld) == Entered(fs, cur)
    requires bld.types(key) == INDEX && LoopAt(bld.g, cur, begin)
    modifies bld
    ensures bld.Valid() && Shown(bld) == Headed(fs, cur) && |old(bld.insts)| <= |bld.insts|
    ensures NoneEarlier(bld.s, old(bld.s), fs)
  {
    hide Builder.Valid, Shown;
    var i := Read(bld, begin, key);
    var n := Instruction(bld, begin, ConstInt(count), INDEX, []);
    var c := Instruction(bld, begin, Cmp(Slt), Bool, [i, n]);
    Branch(bld, begin, c, begin + 1, begin + 2);
    Seal(bld, begin + 1);
    assert Shown(bld) == Headed(fs, cur);
  }

  /** Each element is set to zero; here it is a number. Then the counter goes on. */
  method OneElement(bld: Builder, body: BlockId, base: Id, key: Var)
    requires bld.Valid() && body < |Shown(bld)| && body < |bld.g.preds| && base < |bld.insts|
    requires bld.types(key) == INDEX && Unused(Shown(bld), body)
    modifies bld
    ensures bld.Valid() && Shown(bld) == old(Shown(bld))
    ensures NoneEarlier(bld.s, old(bld.s), Shown(bld))
  {
    hide Builder.Valid, Shown;
    var i := Read(bld, body, key);
    var elem := Instruction(bld, body, Addr, ADDRESS, [base, i]);
    var zero := Instruction(bld, body, ConstInt(0), INDEX, []);
    var st := Instruction(bld, body, Store, Other, [elem, zero]);
    var one := Instruction(bld, body, ConstInt(1), INDEX, []);
    var next := Instruction(bld, body, Bin(Add), INDEX, [i, one]);
    Write(bld, body, key, next);
  }

  method LoopBody(bld: Builder, ghost fs: seq<Face>, cur: BlockId, begin: BlockId, base: Id, key: Var)
    requires bld.Valid() && cur < |fs| == begin && Shown(bld) == Headed(fs, cur) && base < |bld.insts|
    requires Unused(fs, begin + 1)
    requires bld.types(key) == INDEX && LoopAt(bld.g, cur, begin)
    modifies bld
    ensures bld.Valid() && Shown(bld) == Looped(fs, cur)
    ensures NoneEarlier(bld.s, old(bld.s), fs)
  {
    hide Builder.Valid, Shown;
    OneElement(bld, begin + 1, base, key);
    Jump(bld, begin + 1, begin);
    Seal(bld, begin);
    Seal(bld, begin + 2);
    assert Shown(bld) == Looped(fs, cur);
  }

  /** ST_lower_array_zero, for an array beyond the threshold: from the block `cur` to the block
      `end`, in which the lowering goes on. */
  method LowerArrayZero(bld: Builder, cur: BlockId, base: Id, key: Var, count: int) returns (end: BlockId)
    requires bld.Valid() && cur < |Shown(bld)| && Shown(bld)[cur].bare && Unused(Shown(bld), cur)
    requires bld.types(key) == INDEX && LoopAt(bld.g, cur, |Shown(bld)|) && base < |bld.insts|
    modifies bld
    ensures bld.Valid() && end == |old(Shown(bld))| + 2
    ensures Shown(bld) == Looped(old(Shown(bld)), cur)
    ensures NoneEarlier(bld.s, old(bld.s), old(Shown(bld)))
  {
    ghost var fs, s0 := Shown(bld), bld.s;
    NewIsUnused(bld.g, bld.F(), bld.s, |fs| + 1);
    hide Builder.Valid, Shown;
    var begin := LoopEntry(bld, cur, key);
    LoopHead(bld, fs, cur, begin, key, count);
    ghost var s1 := bld.s;
    LoopBody(bld, fs, cur, begin, base, key);
    EarlierTrans(s0, fs, s1, fs, bld.s);
    end := begin + 2;
  }

  // ----- a whole function -----

  /** The entry block, the head, the body and what follows. */
  function LoopGraph(): Graph {
    Graph([[], [0, 2], [1], [1]])
  }

  lemma LoopGraphRooted()
    ensures Rooted(LoopGraph()) && LoopAt(LoopGraph(), 0, 1)
  {
    var g := LoopGraph();
    assert IsPath(g, [0]);
    assert Init([0, 1]) == [0] && IsPathTo(g, [0, 1], 1);
    assert Init([0, 1, 2]) == [0, 1] && IsPathTo(g, [0, 1, 2], 2);
    assert Init([0, 1, 3]) == [0, 1] && IsPathTo(g, [0, 1, 3], 3);
    assert IsPathTo(g, [0], 0);
    forall b | 0 <= b < |g.preds|
      ensures Reached(g, b)
    {
    }
  }

  lemma Finished(bld: Builder)
    requires bld.Valid() && |Shown(bld)| == |bld.g.preds| > 0 && bld.g.preds[0] == [] && 0 !in bld.s.early
    requires forall b :: 0 <= b < |Shown(bld)| ==> Shown(bld)[b].isSealed
    ensures Complete(bld.g, bld.F(), bld.s) && Built(bld.g, bld.F(), bld.s)
  {
    forall b | 0 <= b < |bld.blocks|
      ensures bld.blocks[b].isSealed
    {
      assert Shown(bld)[b].isSealed;
    }
    assert SsaRead.Typed(bld.F(), bld.types);
  }

  /** A function that zeroes an array on its stack. Its entry is sealed at once, and its construction ends
      complete. Addresses and stores have no value in the interpreter, so nothing is said of its run;
      that of a function over integers is followed to its end in `CountRun`. */
  method ZeroFunction(count: int) returns (bld: Builder)
    ensures fresh(bld) && bld.Valid() && bld.g == LoopGraph()
    ensures Complete(bld.g, bld.F(), bld.s) && Built(bld.g, bld.F(), bld.s)
  {
    hide Builder.Valid;
    LoopGraphRooted();
    bld := new Builder(LoopGraph(), _ => INDEX);
    FacesNew(bld.F());
    var entry := bld.BlockNew();
    assert Shown(bld) == [Face([], false, true)];
    Seal(bld, entry);
    var base := Instruction(bld, entry, Leaf, ADDRESS, []);
    var end := LowerArrayZero(bld, entry, base, 0, count);
    End(bld, end);
    Finished(bld);
  }
}
