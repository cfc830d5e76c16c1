/** What holds of an IR function at every moment of its construction. The lowering builds a
    graph that it knows in advance (`Graph`): a block is sealed once it has all the
    predecessors it has there. */
module SsaInv {
  import opened Cfg
  import opened Ir
  import opened Wrappers

  /** What the lowering did to a block's variables, in program order; `now` is the number of
      instructions that existed. */
  datatype Event = Wrote(x: Var, v: Id, now: nat) | Got(x: Var, v: Id, now: nat)

  /** Bookkeeping for the proofs.
      root:      where the `repl` chain of an instruction ends; height: a bound on its length
      inDefs:    what each block answered for a variable before writing to it
      phiVar:    the variable a phi was made for
      given:     the operands an instruction was created with; givenTerm: same for terminators
      log:       the writes and reads of each block
      open:      phis of sealed blocks that still wait for operands
      early:     blocks without predecessors that got a phi because they were read unsealed */
  datatype Shadow = Shadow(root: seq<Id>, height: seq<nat>, inDefs: seq<map<Var, Id>>,
                           phiVar: seq<Var>, given: seq<seq<Id>>, givenTerm: seq<Term>,
                           log: seq<seq<Event>>, open: set<Id>, early: set<BlockId>)

  function LastWrite(log: seq<Event>, x: Var): Option<Id> {
    if log == [] then None
    else
      var e := log[|log| - 1];
      if e.Wrote? && e.x == x then Some(e.v) else LastWrite(log[..|log| - 1], x)
  }

  ghost predicate Sizes(f: Fn, s: Shadow) {
    && |s.root| == |s.height| == |s.phiVar| == |s.given| == |f.insts|
    && |s.inDefs| == |s.log| == |s.givenTerm| == |f.blocks|
  }

  ghost predicate InstOk(f: Fn, v: Id) {
    v < |f.insts| ==>
      && f.insts[v].block < |f.blocks|
      && forall k :: 0 <= k < |f.insts[v].args| ==> f.insts[v].args[k] < |f.insts|
  }

  ghost predicate EdgesOk(g: Graph, f: Fn, b: BlockId) {
    b < |f.blocks| ==>
      && b < |g.preds|
      && f.blocks[b].preds <= g.preds[b]
      && (f.blocks[b].isSealed ==> f.blocks[b].preds == g.preds[b])
      && forall j :: 0 <= j < |f.blocks[b].preds| ==> f.blocks[b].preds[j] < |f.blocks|
  }

  /** Following `repl` from `v` ends, and ends at `root[v]`. */
  ghost predicate ChainOk(f: Fn, s: Shadow, v: Id)
    requires Sizes(f, s)
  {
    v < |f.insts| ==>
      && s.root[v] < |f.insts|
      && f.insts[s.root[v]].repl.None?
      && (f.insts[v].removed <==> f.insts[v].repl.Some?)
      && match f.insts[v].repl
         case None => s.root[v] == v
         case Some(u) => u < |f.insts| && s.root[u] == s.root[v] && s.height[u] < s.height[v] && f.insts[v].op.Phi?
  }

  /** Block `q` has an answer for `x`, and `v` stands for it. */
  ghost predicate Answers(f: Fn, s: Shadow, q: BlockId, x: Var, v: Id)
    requires Sizes(f, s)
  {
    && q < |f.blocks| && v < |f.insts|
    && x in f.blocks[q].varDefs
    && f.blocks[q].varDefs[x] < |f.insts|
    && s.root[v] == s.root[f.blocks[q].varDefs[x]]
  }

  /** `d` is what block `b` answers for `x` on entry. */
  ghost predicate InDefOk(f: Fn, s: Shadow, b: BlockId, x: Var, d: Id)
    requires Sizes(f, s) && b < |f.blocks|
  {
    var blk := f.blocks[b];
    d < |f.insts| &&
    ( || (f.insts[d].op.Phi? && f.insts[d].block == b && s.phiVar[d] == x)
      || (blk.isSealed && |blk.preds| == 1 && Answers(f, s, blk.preds[0], x, d))
      || (blk.isSealed && blk.preds == [] && f.insts[d].op == ConstInt(0) && f.insts[d].block == b))
  }

  ghost predicate DefOk(f: Fn, s: Shadow, b: BlockId, x: Var)
    requires Sizes(f, s)
  {
    b < |f.blocks| ==>
      && (x in f.blocks[b].varDefs ==> f.blocks[b].varDefs[x] < |f.insts|)
      && (x in s.inDefs[b] ==> x in f.blocks[b].varDefs && InDefOk(f, s, b, x, s.inDefs[b][x]))
      && match LastWrite(s.log[b], x)
         case None => x in f.blocks[b].varDefs ==>
           x in s.inDefs[b] && s.root[s.inDefs[b][x]] == s.root[f.blocks[b].varDefs[x]]
         case Some(w) => x in f.blocks[b].varDefs && f.blocks[b].varDefs[x] == w
  }

  /** A phi has one operand for each predecessor, in order, and operand `j` is what that
      predecessor answers for the phi's variable. */
  ghost predicate PhiOk(f: Fn, s: Shadow, p: Id)
    requires Sizes(f, s)
  {
    p < |f.insts| && f.insts[p].op.Phi? ==>
      var i := f.insts[p];
      && i.block < |f.blocks|
      && s.phiVar[p] in s.inDefs[i.block] && s.inDefs[i.block][s.phiVar[p]] == p
      && |i.args| == |i.from|
      && i.from <= f.blocks[i.block].preds
      && (forall j :: 0 <= j < |i.args| ==> Answers(f, s, i.from[j], s.phiVar[p], i.args[j]))
      && (!f.blocks[i.block].isSealed ==> i.from == [] && p !in s.open && (s.phiVar[p], p) in f.blocks[i.block].pending)
      && (f.blocks[i.block].isSealed && p !in s.open ==> i.from == f.blocks[i.block].preds)
      && (i.removed ==>
            && f.blocks[i.block].isSealed && p !in s.open && i.from != []
            && forall j :: 0 <= j < |i.args| ==> i.args[j] < |f.insts| && s.root[i.args[j]] == s.root[p])
  }

  ghost predicate OpenOk(f: Fn, s: Shadow, p: Id) {
    p in s.open ==> p < |f.insts| && f.insts[p].op.Phi? && !f.insts[p].removed
  }

  ghost predicate PendingOk(f: Fn, s: Shadow, b: BlockId)
    requires Sizes(f, s)
  {
    b < |f.blocks| && !f.blocks[b].isSealed ==>
      && NoDuplicates(f.blocks[b].pending)
      && forall k :: 0 <= k < |f.blocks[b].pending| ==>
        var (x, p) := f.blocks[b].pending[k];
        p < |f.insts| && f.insts[p].op.Phi? && f.insts[p].block == b && s.phiVar[p] == x
  }

  /** A block that no run passes through on its way to another one. */
  ghost predicate Isolated(g: Graph, b: BlockId) {
    forall c :: 0 <= c < |g.preds| ==> b !in g.preds[c]
  }

  ghost predicate EventOk(g: Graph, f: Fn, s: Shadow, b: BlockId, i: nat)
    requires Sizes(f, s)
  {
    b < |f.blocks| && i < |s.log[b]| ==>
      s.log[b][i].v < s.log[b][i].now <= |f.insts| &&
      match s.log[b][i]
      case Wrote(x, w, _) => Dominates(g, f.insts[w].block, b) || Isolated(g, b)
      case Got(x, v, now) =>
        match LastWrite(s.log[b][..i], x)
        case Some(w) => w < now && s.root[v] == s.root[w]
        case None => x in s.inDefs[b] && s.inDefs[b][x] < now && s.root[v] == s.root[s.inDefs[b][x]]
  }

  ghost predicate NoDuplicates<T>(l: seq<T>) {
    forall i, j :: 0 <= i < j < |l| ==> l[i] != l[j]
  }

  /** The linked list holds exactly the block's instructions that were not removed. */
  ghost predicate ListOk(f: Fn, b: BlockId) {
    b < |f.blocks| ==>
      && NoDuplicates(f.blocks[b].list)
      && forall v :: v in f.blocks[b].list <==> 0 <= v < |f.insts| && f.insts[v].block == b && !f.insts[v].removed
  }

  ghost predicate SameIds(root: seq<Id>, a: seq<Id>, b: seq<Id>) {
    && |a| == |b|
    && forall k :: 0 <= k < |a| ==> a[k] < |root| && b[k] < |root| && root[a[k]] == root[b[k]]
  }

  ghost predicate SameTerm(root: seq<Id>, a: Term, b: Term) {
    match (a, b)
    case (Ret(r), Ret(r')) => SameIds(root, r, r')
    case (CondBr(c, t, e), CondBr(c', t', e')) => t == t' && e == e' && SameIds(root, [c], [c'])
    case _ => a == b && !a.Ret? && !a.CondBr?
  }

  /** Every operand still stands for the instruction that was handed over at creation. */
  ghost predicate GivenOk(f: Fn, s: Shadow, v: Id)
    requires Sizes(f, s)
  {
    v < |f.insts| && !f.insts[v].op.Phi? ==> SameIds(s.root, f.insts[v].args, s.given[v])
  }

  ghost predicate TermOk(f: Fn, s: Shadow, b: BlockId)
    requires Sizes(f, s)
  {
    b < |f.blocks| ==> SameTerm(s.root, f.blocks[b].term, s.givenTerm[b])
  }

  ghost predicate PhiIn(f: Fn, b: BlockId) {
    exists v :: 0 <= v < |f.insts| && f.insts[v].op.Phi? && f.insts[v].block == b
  }

  ghost predicate EarlyOk(g: Graph, f: Fn, s: Shadow, b: BlockId) {
    && (b in s.early ==> b < |f.blocks|)
    && (b < |f.blocks| && b < |g.preds| && g.preds[b] == [] ==> (PhiIn(f, b) <==> b in s.early))
  }

  ghost predicate Inv(g: Graph, f: Fn, s: Shadow) {
    && Rooted(g)
    && Sizes(f, s)
    && (forall v :: InstOk(f, v))
    && (forall b :: EdgesOk(g, f, b))
    && (forall v :: ChainOk(f, s, v))
    && (forall b, x :: DefOk(f, s, b, x))
    && (forall p :: PhiOk(f, s, p))
    && (forall p :: OpenOk(f, s, p))
    && (forall b :: PendingOk(f, s, b))
    && (forall b, i :: EventOk(g, f, s, b, i))
    && (forall b :: ListOk(f, b))
    && (forall v :: GivenOk(f, s, v))
    && (forall b :: TermOk(f, s, b))
    && (forall b :: EarlyOk(g, f, s, b))
  }

  /** No phi waits for operands: the state between two calls of the lowering. */
  ghost predicate Settled(g: Graph, f: Fn, s: Shadow) {
    Inv(g, f, s) && s.open == {}
  }

  /** The construction is over: every block exists and is sealed. */
  ghost predicate Complete(g: Graph, f: Fn, s: Shadow) {
    && Settled(g, f, s)
    && |f.blocks| == |g.preds|
    && forall b :: 0 <= b < |f.blocks| ==> f.blocks[b].isSealed
  }

  lemma LastWriteLogged(log: seq<Event>, x: Var) returns (i: nat)
    requires LastWrite(log, x).Some?
    ensures i < |log| && log[i].Wrote? && log[i].x == x && log[i].v == LastWrite(log, x).value
  {
    var e := log[|log| - 1];
    if e.Wrote? && e.x == x {
      i := |log| - 1;
    } else {
      i := LastWriteLogged(log[..|log| - 1], x);
    }
  }

  /** A removed phi stands for what each of its block's predecessors answers. */
  lemma RemovedPhiOperand(g: Graph, f: Fn, s: Shadow, p: Id, q: BlockId)
    requires Inv(g, f, s) && p < |f.insts| && f.insts[p].removed
    requires f.insts[p].block < |g.preds| && q in g.preds[f.insts[p].block]
    ensures Answers(f, s, q, s.phiVar[p], p)
  {
    assert ChainOk(f, s, p) && PhiOk(f, s, p) && EdgesOk(g, f, f.insts[p].block);
    var j :| 0 <= j < |f.insts[p].from| && f.insts[p].from[j] == q;
    assert Answers(f, s, q, s.phiVar[p], f.insts[p].args[j]);
  }

  /** The run `p` went through the block of the instruction that `v` stands for. */
  ghost predicate Passed(f: Fn, s: Shadow, p: seq<BlockId>, v: Id) {
    v < |s.root| && s.root[v] < |f.insts| && f.insts[s.root[v]].block in p
  }

  ghost predicate AvailableAt(g: Graph, f: Fn, s: Shadow, p: seq<BlockId>)
    requires p != []
  {
    && (forall v :: 0 <= v < |f.insts| && f.insts[v].block in p ==> Passed(f, s, p, v))
    && (Last(p) < |f.blocks| && !Isolated(g, Last(p)) ==>
          forall x :: x in f.blocks[Last(p)].varDefs ==> Passed(f, s, p, f.blocks[Last(p)].varDefs[x]))
  }

  /** On every run, the instruction behind an available instruction has been passed too, and
      so has the instruction behind every variable of the block where the run stands. */
  lemma {:induction false} Available(g: Graph, f: Fn, s: Shadow, p: seq<BlockId>)
    requires Inv(g, f, s) && IsPath(g, p)
    ensures AvailableAt(g, f, s, p)
    decreases |p|
  {
    var b := Last(p);
    if |p| > 1 {
      Available(g, f, s, Init(p));
      assert !Isolated(g, Last(Init(p)));
    }
    forall v | 0 <= v < |f.insts| && f.insts[v].block in p
      ensures Passed(f, s, p, v)
    {
      AvailableInst(g, f, s, p, v);
    }
    if b < |f.blocks| && !Isolated(g, b) {
      forall x | x in f.blocks[b].varDefs
        ensures Passed(f, s, p, f.blocks[b].varDefs[x])
      {
        AvailableVar(g, f, s, p, x);
      }
    }
  }

  lemma AvailableInst(g: Graph, f: Fn, s: Shadow, p: seq<BlockId>, v: Id)
    requires Inv(g, f, s) && IsPath(g, p)
    requires |p| > 1 ==> AvailableAt(g, f, s, Init(p)) && !Isolated(g, Last(Init(p)))
    requires v < |f.insts| && f.insts[v].block in p
    ensures Passed(f, s, p, v)
  {
    hide Inv;
    InstFacts(g, f, s, v, Last(p));
    assert p == Init(p) + [Last(p)];
    if f.insts[v].block !in Init(p) && f.insts[v].removed {
      var q := Last(Init(p));
      RemovedPhiOperand(g, f, s, v, q);
      PassedBefore(f, s, p, s.phiVar[v], v);
    }
  }

  lemma InstFacts(g: Graph, f: Fn, s: Shadow, v: Id, b: BlockId)
    requires Inv(g, f, s)
    ensures Sizes(f, s) && ChainOk(f, s, v) && PhiOk(f, s, v) && EdgesOk(g, f, b)
  {
  }

  /** Where a block's answer for a variable comes from: `d` stands for the same instruction. */
  lemma DefCases(g: Graph, f: Fn, s: Shadow, b: BlockId, x: Var) returns (d: Id)
    requires Inv(g, f, s) && b < |f.blocks| && b < |g.preds| && !Isolated(g, b) && x in f.blocks[b].varDefs
    ensures Answers(f, s, b, x, d)
    ensures
      || Dominates(g, f.insts[d].block, b)
      || f.insts[d].block == b
      || (g.preds[b] != [] && forall q :: q in g.preds[b] ==> Answers(f, s, q, x, d))
  {
    assert DefOk(f, s, b, x) && EdgesOk(g, f, b);
    if LastWrite(s.log[b], x).Some? {
      d := f.blocks[b].varDefs[x];
      var i := LastWriteLogged(s.log[b], x);
      assert EventOk(g, f, s, b, i);
    } else {
      d := s.inDefs[b][x];
      assert InDefOk(f, s, b, x, d);
    }
  }

  lemma AvailableVar(g: Graph, f: Fn, s: Shadow, p: seq<BlockId>, x: Var)
    requires Inv(g, f, s) && IsPath(g, p)
    requires |p| > 1 ==> AvailableAt(g, f, s, Init(p)) && !Isolated(g, Last(Init(p)))
    requires Last(p) < |f.blocks| && !Isolated(g, Last(p)) && x in f.blocks[Last(p)].varDefs
    ensures Passed(f, s, p, f.blocks[Last(p)].varDefs[x])
  {
    var b := Last(p);
    var d := DefCases(g, f, s, b, x);
    if f.insts[d].block == b || Dominates(g, f.insts[d].block, b) {
      assert IsPathTo(g, p, b);
      AvailableInst(g, f, s, p, d);
    } else {
      PassedBefore(f, s, p, x, d);
    }
  }

  /** What the predecessor on the run answers was passed before. */
  lemma PassedBefore(f: Fn, s: Shadow, p: seq<BlockId>, x: Var, d: Id)
    requires Sizes(f, s) && |p| > 1 && Answers(f, s, Last(Init(p)), x, d)
    requires Passed(f, s, Init(p), f.blocks[Last(Init(p))].varDefs[x])
    ensures Passed(f, s, p, d)
  {
    assert p == Init(p) + [Last(p)];
  }

  /** An instruction is never replaced by one of its own block. */
  lemma ReplacedFromElsewhere(g: Graph, f: Fn, s: Shadow, v: Id)
    requires Inv(g, f, s) && v < |f.insts| && f.insts[v].removed
    ensures s.root[v] < |f.insts| && f.insts[s.root[v]].block != f.insts[v].block
  {
    assert ChainOk(f, s, v) && PhiOk(f, s, v) && EdgesOk(g, f, f.insts[v].block);
    var p := AvoidingPath(g, f.insts[v].block);
    Available(g, f, s, p);
    assert !Isolated(g, Last(p));
    RemovedPhiOperand(g, f, s, v, Last(p));
    assert Answers(f, s, Last(p), s.phiVar[v], v);
    assert Passed(f, s, p, f.blocks[Last(p)].varDefs[s.phiVar[v]]);
  }
}
