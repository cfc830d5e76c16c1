/** The finished function computes what the source variables hold.
    A run is a path through the graph together with the results that its ordinary
    instructions happened to deliver (`out`, by number of blocks entered and instruction) and
    whatever the value slots held at the start (`junk`). Both are arbitrary, so the results
    below hold for every way the instructions themselves may behave. */
module SsaMeaning {
  import opened Cfg
  import opened Ir
  import opened Wrappers
  import opened SsaInv

  type Outcome = (nat, Id) -> int

  function IndexOf(bs: seq<BlockId>, b: BlockId): (i: nat)
    requires b in bs
    ensures i < |bs| && bs[i] == b
  {
    if bs[0] == b then 0 else IndexOf(bs[1..], b) + 1
  }

  /** What the slot of instruction `v` holds when the run `p` has reached the end of its last
      block. A phi takes the operand of the edge just taken, read in the old slots. Operands
      are looked up through `root`, the end of the `repl` chain. */
  function Slot(f: Fn, root: seq<Id>, junk: Id -> int, out: Outcome, p: seq<BlockId>, v: Id): int
    decreases |p|
  {
    if p == [] then junk(v)
    else if v >= |f.insts| || f.insts[v].block != Last(p) || f.insts[v].removed then
      Slot(f, root, junk, out, Init(p), v)
    else match f.insts[v].op
      case ConstInt(c) => c
      case Phi =>
        if |p| > 1 && Last(Init(p)) in f.insts[v].from then
          var k := IndexOf(f.insts[v].from, Last(Init(p)));
          if k < |f.insts[v].args| && f.insts[v].args[k] < |root|
          then Slot(f, root, junk, out, Init(p), root[f.insts[v].args[k]])
          else Slot(f, root, junk, out, Init(p), v)
        else Slot(f, root, junk, out, Init(p), v)
      case _ => out(|p|, v)
  }

  /** What the source variable `x` holds after the first `i` events of the last block of the
      run `p`: the value written last, or 0 if none was. */
  function SourceAt(f: Fn, s: Shadow, junk: Id -> int, out: Outcome, p: seq<BlockId>, i: nat, x: Var): int
    requires p != [] && Last(p) < |s.log| && i <= |s.log[Last(p)]|
    decreases |p|, 1
  {
    match LastWrite(s.log[Last(p)][..i], x)
    case Some(w) => if w < |s.root| then Slot(f, s.root, junk, out, p, s.root[w]) else 0
    case None => Source(f, s, junk, out, Init(p), x)
  }

  function Source(f: Fn, s: Shadow, junk: Id -> int, out: Outcome, p: seq<BlockId>, x: Var): int
    decreases |p|, 2
  {
    if p == [] || Last(p) >= |s.log| then 0
    else SourceAt(f, s, junk, out, p, |s.log[Last(p)]|, x)
  }

  ghost predicate Right(f: Fn, s: Shadow, junk: Id -> int, out: Outcome, p: seq<BlockId>, x: Var)
    requires Sizes(f, s) && p != []
  {
    Last(p) < |f.blocks| && x in f.blocks[Last(p)].varDefs ==>
      var d := f.blocks[Last(p)].varDefs[x];
      d < |f.insts| && Slot(f, s.root, junk, out, p, s.root[d]) == Source(f, s, junk, out, p, x)
  }

  ghost predicate EntryRight(f: Fn, s: Shadow, junk: Id -> int, out: Outcome, p: seq<BlockId>, x: Var)
    requires Sizes(f, s) && p != []
  {
    Last(p) < |f.blocks| && x in s.inDefs[Last(p)] ==>
      var d := s.inDefs[Last(p)][x];
      d < |f.insts| && Slot(f, s.root, junk, out, p, s.root[d]) == Source(f, s, junk, out, Init(p), x)
  }

  /** If all predecessors of a block answer with the same instruction, that instruction is not
      in the block. */
  lemma AnswerFromElsewhere(g: Graph, f: Fn, s: Shadow, b: BlockId, x: Var, d: Id)
    requires Inv(g, f, s) && b < |g.preds| && g.preds[b] != [] && d < |f.insts|
    requires forall q :: q in g.preds[b] ==> Answers(f, s, q, x, d)
    ensures s.root[d] < |f.insts| && f.insts[s.root[d]].block != b
  {
    var p := AvoidingPath(g, b);
    Available(g, f, s, p);
    assert !Isolated(g, Last(p));
    assert Answers(f, s, Last(p), x, d);
    assert Passed(f, s, p, f.blocks[Last(p)].varDefs[x]);
  }

  /** The answer of a block on entry, when it is not a phi that is still there. */
  lemma EntryByForwarding(g: Graph, f: Fn, s: Shadow, junk: Id -> int, out: Outcome, p: seq<BlockId>, x: Var, d: Id)
    requires Complete(g, f, s) && IsPath(g, p) && |p| > 1 && d < |f.insts|
    requires forall q :: q in g.preds[Last(p)] ==> Answers(f, s, q, x, d)
    requires Right(f, s, junk, out, Init(p), x)
    ensures Slot(f, s.root, junk, out, p, s.root[d]) == Source(f, s, junk, out, Init(p), x)
  {
    AnswerFromElsewhere(g, f, s, Last(p), x, d);
    assert Answers(f, s, Last(Init(p)), x, d);
  }

  lemma EntryByPhi(g: Graph, f: Fn, s: Shadow, junk: Id -> int, out: Outcome, p: seq<BlockId>, x: Var, d: Id)
    requires Complete(g, f, s) && IsPath(g, p) && |p| > 1 && d < |f.insts|
    requires f.insts[d].op.Phi? && f.insts[d].block == Last(p) && s.phiVar[d] == x && !f.insts[d].removed
    requires Right(f, s, junk, out, Init(p), x)
    ensures Slot(f, s.root, junk, out, p, s.root[d]) == Source(f, s, junk, out, Init(p), x)
  {
    assert PhiOk(f, s, d) && ChainOk(f, s, d) && EdgesOk(g, f, Last(p));
    var q := Last(Init(p));
    var k := IndexOf(f.insts[d].from, q);
    assert Answers(f, s, f.insts[d].from[k], x, f.insts[d].args[k]);
  }

  lemma EntryStep(g: Graph, f: Fn, s: Shadow, junk: Id -> int, out: Outcome, p: seq<BlockId>, x: Var)
    requires Complete(g, f, s) && IsPath(g, p) && p[0] !in s.early
    requires |p| > 1 ==> Right(f, s, junk, out, Init(p), x)
    ensures EntryRight(f, s, junk, out, p, x)
  {
    var b := Last(p);
    if x in s.inDefs[b] {
      var d := s.inDefs[b][x];
      assert DefOk(f, s, b, x) && InDefOk(f, s, b, x, d) && EdgesOk(g, f, b) && ChainOk(f, s, d);
      assert f.insts[d].op.Phi? && f.insts[d].block == b ==> PhiIn(f, b);
      assert EarlyOk(g, f, s, b);
      if f.insts[d].op.Phi? && f.insts[d].block == b && s.phiVar[d] == x {
        if |p| == 1 {
          assert false;
        } else if f.insts[d].removed {
          forall q | q in g.preds[b]
            ensures Answers(f, s, q, x, d)
          {
            RemovedPhiOperand(g, f, s, d, q);
          }
          EntryByForwarding(g, f, s, junk, out, p, x, d);
        } else {
          EntryByPhi(g, f, s, junk, out, p, x, d);
        }
      } else if |f.blocks[b].preds| == 1 && Answers(f, s, f.blocks[b].preds[0], x, d) {
        EntryByForwarding(g, f, s, junk, out, p, x, d);
      }
    }
  }

  lemma EndStep(g: Graph, f: Fn, s: Shadow, junk: Id -> int, out: Outcome, p: seq<BlockId>, x: Var)
    requires Complete(g, f, s) && IsPath(g, p)
    requires EntryRight(f, s, junk, out, p, x)
    ensures Right(f, s, junk, out, p, x)
  {
    var b := Last(p);
    assert DefOk(f, s, b, x);
    assert s.log[b][..|s.log[b]|] == s.log[b];
    if LastWrite(s.log[b], x).Some? {
      var w := LastWrite(s.log[b], x).value;
      var i := LastWriteLogged(s.log[b], x);
      assert EventOk(g, f, s, b, i);
    }
  }

  lemma {:induction false} VariablesRight(g: Graph, f: Fn, s: Shadow, junk: Id -> int, out: Outcome,
                                          p: seq<BlockId>, x: Var)
    requires Complete(g, f, s) && IsPath(g, p) && p[0] !in s.early
    ensures Right(f, s, junk, out, p, x) && EntryRight(f, s, junk, out, p, x)
    decreases |p|
  {
    if |p| > 1 {
      VariablesRight(g, f, s, junk, out, Init(p), x);
    }
    EntryStep(g, f, s, junk, out, p, x);
    EndStep(g, f, s, junk, out, p, x);
  }

  /** Main result. Event `i` of the last block of a run is a read of `x` that returned `v`: at
      that point the slot that `v` stands for holds what was last written to `x` on this run,
      or 0. */
  lemma ReadsAreRight(g: Graph, f: Fn, s: Shadow, junk: Id -> int, out: Outcome, p: seq<BlockId>, i: nat)
    requires Complete(g, f, s) && IsPath(g, p) && p[0] !in s.early
    requires i < |s.log[Last(p)]| && s.log[Last(p)][i].Got?
    ensures s.log[Last(p)][i].v < |f.insts|
    ensures Slot(f, s.root, junk, out, p, s.root[s.log[Last(p)][i].v])
            == SourceAt(f, s, junk, out, p, i, s.log[Last(p)][i].x)
  {
    var b := Last(p);
    var x := s.log[b][i].x;
    assert EventOk(g, f, s, b, i);
    VariablesRight(g, f, s, junk, out, p, x);
    var w := LastWrite(s.log[b][..i], x);
    assert ChainOk(f, s, s.log[b][i].v);
  }

  /** The instruction that a read or write stands for has been executed when the read or write
      happens: unless it is a phi, it is not one of the block's later instructions. */
  lemma AlreadyExecuted(g: Graph, f: Fn, s: Shadow, b: BlockId, i: nat)
    requires Inv(g, f, s) && b < |f.blocks| && b < |g.preds| && i < |s.log[b]|
    requires !Isolated(g, b) || (s.log[b][i].Got? && LastWrite(s.log[b][..i], s.log[b][i].x).None?)
    ensures s.log[b][i].v < |f.insts| && s.root[s.log[b][i].v] < |f.insts|
    ensures
      var r := s.root[s.log[b][i].v];
      f.insts[r].block == b && !f.insts[r].op.Phi? ==> r < s.log[b][i].now
  {
    var e := s.log[b][i];
    assert EventOk(g, f, s, b, i);
    assert ChainOk(f, s, e.v) && DefOk(f, s, b, e.x) && EdgesOk(g, f, b);
    if e.Wrote? {
      RootOutside(g, f, s, b, e.v);
    } else {
      match LastWrite(s.log[b][..i], e.x)
      case Some(w) =>
        var k := LastWriteLogged(s.log[b][..i], e.x);
        assert EventOk(g, f, s, b, k);
        RootOutside(g, f, s, b, w);
      case None =>
        var d := s.inDefs[b][e.x];
        assert InDefOk(f, s, b, e.x, d) && ChainOk(f, s, d);
        if f.blocks[b].isSealed && |f.blocks[b].preds| == 1 && Answers(f, s, f.blocks[b].preds[0], e.x, d) {
          AnswerFromElsewhere(g, f, s, b, e.x, d);
        } else if f.insts[d].removed {
          ReplacedFromElsewhere(g, f, s, d);
        }
    }
  }

  lemma RootOutside(g: Graph, f: Fn, s: Shadow, b: BlockId, v: Id)
    requires Inv(g, f, s) && b < |f.blocks| && b < |g.preds| && v < |f.insts|
    requires Dominates(g, f.insts[v].block, b)
    ensures s.root[v] == v || (s.root[v] < |f.insts| && f.insts[s.root[v]].block != b)
  {
    assert ChainOk(f, s, v);
    var a := f.insts[v].block;
    if f.insts[v].removed && a != b {
      assert Reached(g, b);
      var full :| IsPathTo(g, full, b);
      var k := FirstVisit(full, b);
      PathPrefix(g, full, k + 1);
      assert full[..k + 1] == full[..k] + [b];
      assert IsPathTo(g, full[..k + 1], b);
      PathPrefix(g, full, k);
      Available(g, f, s, full[..k]);
      assert Passed(f, s, full[..k], v);
    } else if f.insts[v].removed {
      ReplacedFromElsewhere(g, f, s, v);
    }
  }

  /** A value read in block `a` may be kept and used in any block that `a` dominates: its slot
      is not written again before the run comes back to `a`. */
  lemma ReadValueIsKept(g: Graph, f: Fn, s: Shadow, junk: Id -> int, out: Outcome,
                        p: seq<BlockId>, k: nat, i: nat)
    requires Complete(g, f, s) && IsPath(g, p) && k < |p| && p[k + 1..] != []
    requires Dominates(g, p[k], Last(p)) && p[k] !in p[k + 1..]
    requires p[k] < |f.blocks| && i < |s.log[p[k]]|
    ensures
      var v := s.log[p[k]][i].v;
      v < |f.insts| && Slot(f, s.root, junk, out, p, s.root[v]) == Slot(f, s.root, junk, out, p[..k + 1], s.root[v])
  {
    var a := p[k];
    var v := s.log[a][i].v;
    assert EventOk(g, f, s, a, i) && ChainOk(f, s, v);
    PathInRange(g, p, k + 1);
    assert !Isolated(g, a);
    var c := f.insts[s.root[v]].block;
    if c != a {
      EventDominated(g, f, s, a, i);
      NothingAboveRevisited(g, p, a, c, k);
    }
    SlotUntouched(f, s.root, junk, out, p, k, s.root[v]);
  }

  lemma EventDominated(g: Graph, f: Fn, s: Shadow, a: BlockId, i: nat)
    requires Inv(g, f, s) && a < |f.blocks| && a < |g.preds| && i < |s.log[a]| && !Isolated(g, a)
    ensures s.log[a][i].v < |f.insts| && s.root[s.log[a][i].v] < |f.insts|
    ensures Dominates(g, f.insts[s.root[s.log[a][i].v]].block, a)
  {
    var e := s.log[a][i];
    assert EventOk(g, f, s, a, i) && ChainOk(f, s, e.v) && DefOk(f, s, a, e.x);
    forall p | IsPathTo(g, p, a)
      ensures f.insts[s.root[e.v]].block in p
    {
      Available(g, f, s, p);
      if e.Wrote? {
        assert Passed(f, s, p, e.v);
      } else {
        match LastWrite(s.log[a][..i], e.x)
        case Some(w) =>
          var k := LastWriteLogged(s.log[a][..i], e.x);
          assert EventOk(g, f, s, a, k);
          assert Passed(f, s, p, w);
        case None =>
          EntryAvailable(g, f, s, p, e.x);
      }
    }
  }

  lemma EntryAvailable(g: Graph, f: Fn, s: Shadow, p: seq<BlockId>, x: Var)
    requires Inv(g, f, s) && IsPath(g, p) && Last(p) < |f.blocks| && x in s.inDefs[Last(p)]
    ensures Passed(f, s, p, s.inDefs[Last(p)][x])
  {
    var b := Last(p);
    var d := s.inDefs[b][x];
    assert DefOk(f, s, b, x) && InDefOk(f, s, b, x, d) && EdgesOk(g, f, b);
    Available(g, f, s, p);
    if f.insts[d].block != b {
      var q := Last(Init(p));
      Available(g, f, s, Init(p));
      assert !Isolated(g, q);
      assert Answers(f, s, q, x, d);
      PassedBefore(f, s, p, x, d);
    }
  }

  lemma {:induction false} SlotUntouched(f: Fn, root: seq<Id>, junk: Id -> int, out: Outcome,
                                         p: seq<BlockId>, k: nat, v: Id)
    requires k < |p| && v < |f.insts| && f.insts[v].block !in p[k + 1..]
    ensures Slot(f, root, junk, out, p, v) == Slot(f, root, junk, out, p[..k + 1], v)
    decreases |p|
  {
    if k + 1 == |p| {
      assert p[..k + 1] == p;
    } else {
      assert p[k + 1..] == Init(p)[k + 1..] + [Last(p)];
      SlotUntouched(f, root, junk, out, Init(p), k, v);
      assert Init(p)[..k + 1] == p[..k + 1];
    }
  }

  /** The exact condition on a block where runs start: variables read 0 there, whatever the
      slots held before, if and only if no read reached the block while it was unsealed. A
      phi made by such a read gets no operand and is never written. */
  lemma StartBlockExact(g: Graph, f: Fn, s: Shadow, e: BlockId)
    requires Complete(g, f, s) && e < |g.preds| && g.preds[e] == []
    ensures (forall junk, out, x :: EntryRight(f, s, junk, out, [e], x)) <==> e !in s.early
  {
    if e !in s.early {
      forall junk, out, x
        ensures EntryRight(f, s, junk, out, [e], x)
      {
        VariablesRight(g, f, s, junk, out, [e], x);
      }
    } else {
      assert EarlyOk(g, f, s, e) && PhiIn(f, e) && EdgesOk(g, f, e);
      var v :| 0 <= v < |f.insts| && f.insts[v].op.Phi? && f.insts[v].block == e;
      assert PhiOk(f, s, v) && ChainOk(f, s, v);
      var junk: Id -> int := _ => 1;
      var out: Outcome := (_, _) => 1;
      assert Init([e]) == [] && !f.insts[v].removed;
      assert Slot(f, s.root, junk, out, [e], v) == junk(v);
      assert !EntryRight(f, s, junk, out, [e], s.phiVar[v]);
    }
  }

  /** When the construction is over, every phi that is still there has exactly one operand for
      each predecessor, in the order of the predecessors, and it is what that predecessor
      answers for the phi's variable. */
  lemma OneOperandPerPredecessor(g: Graph, f: Fn, s: Shadow, p: Id)
    requires Complete(g, f, s) && p < |f.insts| && f.insts[p].op.Phi?
    ensures f.insts[p].block < |g.preds| && f.insts[p].from == g.preds[f.insts[p].block]
    ensures |f.insts[p].args| == |f.insts[p].from|
    ensures forall j :: 0 <= j < |f.insts[p].args| ==> Answers(f, s, f.insts[p].from[j], s.phiVar[p], f.insts[p].args[j])
  {
    assert PhiOk(f, s, p);
    assert EdgesOk(g, f, f.insts[p].block);
  }

  /** Operands of loads, stores and address computations are never rewritten, and others only
      sometimes; either way an operand's slot is that of the instruction handed over at
      creation, on every run. */
  lemma OperandsKeepMeaning(g: Graph, f: Fn, s: Shadow, junk: Id -> int, out: Outcome, p: seq<BlockId>, v: Id, k: nat)
    requires Inv(g, f, s) && v < |f.insts| && !f.insts[v].op.Phi? && k < |f.insts[v].args|
    ensures k < |s.given[v]| && f.insts[v].args[k] < |f.insts| && s.given[v][k] < |f.insts|
    ensures Slot(f, s.root, junk, out, p, s.root[f.insts[v].args[k]]) == Slot(f, s.root, junk, out, p, s.root[s.given[v][k]])
  {
    assert GivenOk(f, s, v);
  }
}
