/** Reading a variable as a function of the tables, on any graph whatever. `fuel` bounds the depth of
    the recursion and the length of a chain of `repl`; without a result for any fuel, the read does
    not end. */
module SsaRead {
  import opened Cfg
  import opened Ir
  import opened Wrappers
  import opened SsaEmit
  import opened SsaRemove
  import SsaLowering

  /** The loop over `repl` in ST_ir_read_var. */
  function Chase(f: Fn, v: Id, fuel: nat): Option<Id>
    decreases fuel
  {
    if v >= |f.insts| then None
    else if !f.insts[v].removed || f.insts[v].repl.None? then Some(v)
    else if fuel == 0 then None
    else Chase(f, f.insts[v].repl.value, fuel - 1)
  }

  /** The loop of ST_ir_try_removal_trivial_phi: None when it has met two other instructions. */
  function Other(args: seq<Id>, p: Id, same: Option<Id>): Option<Option<Id>> {
    if args == [] then Some(same)
    else if Some(args[0]) == same || args[0] == p then Other(args[1..], p, same)
    else if same.Some? then None
    else Other(args[1..], p, Some(args[0]))
  }

  function TryRemove(f: Fn, p: Id): Fn
    requires p < |f.insts| && f.insts[p].block < |f.blocks|
  {
    match Other(f.insts[p].args, p, None)
    case Some(Some(same)) => RemovePhi(f, p, same)
    case _ => f
  }

  /** ST_ir_read_var. */
  function Read(f: Fn, b: BlockId, x: Var, ty: Ty, fuel: nat): Option<(Fn, Id)>
    decreases fuel, 3
  {
    if b >= |f.blocks| then None
    else if x in f.blocks[b].varDefs then
      match Chase(f, f.blocks[b].varDefs[x], fuel)
      case None => None
      case Some(v) => Some((f, v))
    else ReadRec(f, b, x, ty, fuel)
  }

  /** ST_ir_read_var_rec. */
  function ReadRec(f: Fn, b: BlockId, x: Var, ty: Ty, fuel: nat): Option<(Fn, Id)>
    requires b < |f.blocks|
    decreases fuel, 2
  {
    var preds, p := f.blocks[b].preds, |f.insts|;
    if !f.blocks[b].isSealed then Some((EmitPhi(f, b, x, ty), p))
    else if |preds| == 1 then
      if fuel == 0 then None
      else
        match Read(f, preds[0], x, ty, fuel - 1)
        case None => None
        case Some(r) => Remembered(r.0, b, x, r.1)
    else if |preds| == 0 then Remembered(Emit(f, b, ConstInt(0), ty, []), b, x, p)
    else
      match Operands(EmitPhi(f, b, x, ty), preds, x, p, 0, fuel)
      case None => None
      case Some(f2) => Remembered(f2, b, x, p)
  }

  function Remembered(f: Fn, b: BlockId, x: Var, v: Id): Option<(Fn, Id)> {
    if b < |f.blocks| then Some((SetDef(f, b, x, v), v)) else None
  }

  /** ST_ir_add_phi_operand, from operand `i` on. */
  function Operands(f: Fn, preds: seq<BlockId>, x: Var, p: Id, i: nat, fuel: nat): Option<Fn>
    requires i <= |preds|
    decreases fuel, 1, |preds| - i
  {
    if p >= |f.insts| || f.insts[p].block >= |f.blocks| then None
    else if i == |preds| then Some(TryRemove(f, p))
    else if fuel == 0 then None
    else
      match Read(f, preds[i], x, f.insts[p].ty, fuel - 1)
      case None => None
      case Some(r) =>
        if p < |r.0.insts| then Operands(AddOperand(r.0, p, preds[i], r.1), preds, x, p, i + 1, fuel) else None
  }

  /** The loop of ST_ir_block_seal over the phis that were put off. */
  function CompletePhis(f: Fn, b: BlockId, pending: seq<(Var, Id)>, fuel: nat): Option<Fn>
    decreases |pending|
  {
    if pending == [] then Some(f)
    else if b >= |f.blocks| then None
    else
      match Operands(f, f.blocks[b].preds, pending[0].0, pending[0].1, 0, fuel)
      case None => None
      case Some(f') => CompletePhis(f', b, pending[1..], fuel)
  }

  /** ST_ir_block_seal. */
  function Seal(f: Fn, b: BlockId, fuel: nat): Option<Fn>
    requires b < |f.blocks|
  {
    if f.blocks[b].isSealed then Some(f) else CompletePhis(SsaLowering.SealFlag(f, b), b, f.blocks[b].pending, fuel)
  }

  // ----- more fuel changes nothing -----

  lemma {:induction false} ChaseMore(f: Fn, v: Id, m: nat, n: nat)
    requires Chase(f, v, m).Some? && m <= n
    ensures Chase(f, v, n) == Chase(f, v, m)
    decreases m
  {
    if v < |f.insts| && f.insts[v].removed && f.insts[v].repl.Some? {
      ChaseMore(f, f.insts[v].repl.value, m - 1, n - 1);
    }
  }

  lemma {:induction false} ReadMore(f: Fn, b: BlockId, x: Var, ty: Ty, m: nat, n: nat)
    requires Read(f, b, x, ty, m).Some? && m <= n
    ensures Read(f, b, x, ty, n) == Read(f, b, x, ty, m)
    decreases m, 3
  {
    if x in f.blocks[b].varDefs {
      ChaseMore(f, f.blocks[b].varDefs[x], m, n);
    } else {
      ReadRecMore(f, b, x, ty, m, n);
    }
  }

  lemma {:induction false} ReadRecMore(f: Fn, b: BlockId, x: Var, ty: Ty, m: nat, n: nat)
    requires b < |f.blocks| && ReadRec(f, b, x, ty, m).Some? && m <= n
    ensures ReadRec(f, b, x, ty, n) == ReadRec(f, b, x, ty, m)
    decreases m, 2
  {
    hide Read, Operands, EmitPhi;
    var preds := f.blocks[b].preds;
    if f.blocks[b].isSealed {
      if |preds| == 1 {
        ReadMore(f, preds[0], x, ty, m - 1, n - 1);
      } else if |preds| > 1 {
        OperandsMore(EmitPhi(f, b, x, ty), preds, x, |f.insts|, 0, m, n);
      }
    }
  }

  lemma {:induction false} OperandsMore(f: Fn, preds: seq<BlockId>, x: Var, p: Id, i: nat, m: nat, n: nat)
    requires i <= |preds| && Operands(f, preds, x, p, i, m).Some? && m <= n
    ensures Operands(f, preds, x, p, i, n) == Operands(f, preds, x, p, i, m)
    decreases m, 1, |preds| - i
  {
    hide Read, TryRemove, AddOperand;
    if i < |preds| {
      ReadMore(f, preds[i], x, f.insts[p].ty, m - 1, n - 1);
      var r := Read(f, preds[i], x, f.insts[p].ty, m - 1).value;
      OperandsMore(AddOperand(r.0, p, preds[i], r.1), preds, x, p, i + 1, m, n);
    }
  }

  lemma {:induction false} CompleteMore(f: Fn, b: BlockId, pending: seq<(Var, Id)>, m: nat, n: nat)
    requires CompletePhis(f, b, pending, m).Some? && m <= n
    ensures CompletePhis(f, b, pending, n) == CompletePhis(f, b, pending, m)
    decreases |pending|
  {
    hide Operands;
    if pending != [] {
      OperandsMore(f, f.blocks[b].preds, pending[0].0, pending[0].1, 0, m, n);
      CompleteMore(Operands(f, f.blocks[b].preds, pending[0].0, pending[0].1, 0, m).value, b, pending[1..], m, n);
    }
  }

  /** So there is one answer. */
  lemma SameRead(f: Fn, b: BlockId, x: Var, ty: Ty, m: nat, n: nat)
    requires Read(f, b, x, ty, m).Some? && Read(f, b, x, ty, n).Some?
    ensures Read(f, b, x, ty, m) == Read(f, b, x, ty, n)
  {
    ReadMore(f, b, x, ty, m, m + n);
    ReadMore(f, b, x, ty, n, m + n);
  }

  lemma SameSeal(f: Fn, b: BlockId, m: nat, n: nat)
    requires b < |f.blocks| && Seal(f, b, m).Some? && Seal(f, b, n).Some?
    ensures Seal(f, b, m) == Seal(f, b, n)
  {
    hide CompletePhis;
    if !f.blocks[b].isSealed {
      CompleteMore(SsaLowering.SealFlag(f, b), b, f.blocks[b].pending, m, m + n);
      CompleteMore(SsaLowering.SealFlag(f, b), b, f.blocks[b].pending, n, m + n);
    }
  }

  // ----- how a read is put together -----

  lemma ReadFound(f: Fn, b: BlockId, x: Var, ty: Ty, n: nat, v: Id)
    requires b < |f.blocks| && x in f.blocks[b].varDefs && Chase(f, f.blocks[b].varDefs[x], n) == Some(v)
    ensures Read(f, b, x, ty, n) == Some((f, v))
  {
  }

  lemma ReadIsRec(f: Fn, b: BlockId, x: Var, ty: Ty, n: nat)
    requires b < |f.blocks| && x !in f.blocks[b].varDefs
    ensures Read(f, b, x, ty, n) == ReadRec(f, b, x, ty, n)
  {
  }

  lemma RecUnsealed(f: Fn, b: BlockId, x: Var, ty: Ty)
    requires b < |f.blocks| && !f.blocks[b].isSealed
    ensures ReadRec(f, b, x, ty, 0) == Some((EmitPhi(f, b, x, ty), |f.insts|))
  {
  }

  lemma RecForward(f: Fn, b: BlockId, x: Var, ty: Ty, n: nat, f1: Fn, v: Id)
    requires b < |f.blocks| && b < |f1.blocks| && f.blocks[b].isSealed && |f.blocks[b].preds| == 1
    requires Read(f, f.blocks[b].preds[0], x, ty, n) == Some((f1, v))
    ensures ReadRec(f, b, x, ty, n + 1) == Some((SetDef(f1, b, x, v), v))
  {
  }

  lemma RecEntry(f: Fn, b: BlockId, x: Var, ty: Ty)
    requires b < |f.blocks| && f.blocks[b].isSealed && |f.blocks[b].preds| == 0
    ensures ReadRec(f, b, x, ty, 0) == Some((SetDef(Emit(f, b, ConstInt(0), ty, []), b, x, |f.insts|), |f.insts|))
  {
  }

  lemma RecPhi(f: Fn, b: BlockId, x: Var, ty: Ty, n: nat, f2: Fn)
    requires b < |f.blocks| && b < |f2.blocks| && f.blocks[b].isSealed && |f.blocks[b].preds| > 1
    requires Operands(EmitPhi(f, b, x, ty), f.blocks[b].preds, x, |f.insts|, 0, n) == Some(f2)
    ensures ReadRec(f, b, x, ty, n) == Some((SetDef(f2, b, x, |f.insts|), |f.insts|))
  {
  }

  /** Adding the operands in `f` goes on like adding them from operand `i` on in `f1`. */
  ghost predicate Follows(f: Fn, f1: Fn, preds: seq<BlockId>, x: Var, p: Id, i: nat, n: nat)
    requires i <= |preds|
  {
    forall k: nat :: k >= n ==> Operands(f, preds, x, p, 0, k) == Operands(f1, preds, x, p, i, k)
  }

  lemma FollowsNext(f: Fn, f1: Fn, preds: seq<BlockId>, x: Var, p: Id, i: nat, n: nat, m: nat, f2: Fn, v: Id)
    requires i < |preds| && Follows(f, f1, preds, x, p, i, n)
    requires p < |f1.insts| && f1.insts[p].block < |f1.blocks| && p < |f2.insts|
    requires Read(f1, preds[i], x, f1.insts[p].ty, m) == Some((f2, v))
    ensures Follows(f, AddOperand(f2, p, preds[i], v), preds, x, p, i + 1, n + m + 1)
  {
    hide Read, Operands, AddOperand;
    forall k: nat | k >= n + m + 1
      ensures Operands(f, preds, x, p, 0, k) == Operands(AddOperand(f2, p, preds[i], v), preds, x, p, i + 1, k)
    {
      ReadMore(f1, preds[i], x, f1.insts[p].ty, m, k - 1);
      OneOperand(f1, preds, x, p, i, k, f2, v);
    }
  }

  lemma FollowsEnd(f: Fn, f1: Fn, preds: seq<BlockId>, x: Var, p: Id, n: nat)
    requires Follows(f, f1, preds, x, p, |preds|, n) && p < |f1.insts| && f1.insts[p].block < |f1.blocks|
    ensures Operands(f, preds, x, p, 0, n) == Some(TryRemove(f1, p))
  {
    LastOperand(f1, preds, x, p, n);
  }

  /** Completing the phis in `f` goes on like completing those from entry `i` on in `f1`. */
  ghost predicate Continues(f: Fn, f1: Fn, b: BlockId, pending: seq<(Var, Id)>, i: nat, n: nat)
    requires i <= |pending|
  {
    forall k: nat :: k >= n ==> CompletePhis(f, b, pending, k) == CompletePhis(f1, b, pending[i..], k)
  }

  lemma ContinuesNext(f: Fn, f1: Fn, f2: Fn, b: BlockId, pending: seq<(Var, Id)>, i: nat, n: nat, m: nat)
    requires i < |pending| && Continues(f, f1, b, pending, i, n) && b < |f1.blocks|
    requires Operands(f1, f1.blocks[b].preds, pending[i].0, pending[i].1, 0, m) == Some(f2)
    ensures Continues(f, f2, b, pending, i + 1, n + m)
  {
    hide Operands;
    forall k: nat | k >= n + m
      ensures CompletePhis(f, b, pending, k) == CompletePhis(f2, b, pending[i + 1..], k)
    {
      OperandsMore(f1, f1.blocks[b].preds, pending[i].0, pending[i].1, 0, m, k);
      assert pending[i..][0] == pending[i] && pending[i..][1..] == pending[i + 1..];
    }
  }

  lemma ContinuesSelf(f: Fn, b: BlockId, pending: seq<(Var, Id)>)
    ensures Continues(f, f, b, pending, 0, 0)
  {
    assert pending[0..] == pending;
  }

  lemma ContinuesEnd(f: Fn, f1: Fn, b: BlockId, pending: seq<(Var, Id)>, n: nat)
    requires Continues(f, f1, b, pending, |pending|, n)
    ensures CompletePhis(f, b, pending, n) == Some(f1)
  {
    assert pending[|pending|..] == [];
  }

  /** The loop finds the one other instruction, if there is no second one. */
  lemma {:induction false} OtherExact(args: seq<Id>, p: Id, same: Option<Id>, c: Id)
    requires same != Some(p)
    ensures Other(args, p, same) == Some(Some(c)) <==>
      && c != p && (same == Some(c) || (same.None? && c in args))
      && forall k :: 0 <= k < |args| ==> args[k] == p || args[k] == c
    decreases |args|
  {
    if args != [] {
      assert args == [args[0]] + args[1..];
      OtherExact(args[1..], p, if Some(args[0]) == same || args[0] == p then same else Some(args[0]), c);
    }
  }

  // ----- reads that do not end -----

  /** A sealed block that is its own only predecessor: the read calls itself for ever. */
  lemma {:induction false} SelfLoopEndless(x: Var, ty: Ty, fuel: nat)
    ensures Read(Fn([], [Block([], [0], NoTerm, true, map[], [])]), 0, x, ty, fuel).None?
  {
    if fuel > 0 {
      SelfLoopEndless(x, ty, fuel - 1);
    }
  }

  /** Two instructions that replace each other. */
  predicate Circle(f: Fn, p: Id, q: Id) {
    && p < |f.insts| && q < |f.insts| && f.insts[p].removed && f.insts[q].removed
    && f.insts[p].repl == Some(q) && f.insts[q].repl == Some(p)
  }

  lemma {:induction false} CircleEndless(f: Fn, p: Id, q: Id, fuel: nat)
    requires Circle(f, p, q)
    ensures Chase(f, p, fuel).None? && Chase(f, q, fuel).None?
  {
    if fuel > 0 {
      CircleEndless(f, p, q, fuel - 1);
    }
  }

  /** Block `b` is sealed, has `d` twice as predecessor, and no answer for `x`. */
  predicate Twice(f: Fn, b: BlockId, d: BlockId, x: Var) {
    b < |f.blocks| && f.blocks[b].isSealed && f.blocks[b].preds == [d, d] && x !in f.blocks[b].varDefs
  }

  /** Block `b` answers with the phi `p` of its own, which has the operands `args`. */
  predicate Standing(f: Fn, b: BlockId, x: Var, p: Id, args: seq<Id>) {
    && b < |f.blocks| && x in f.blocks[b].varDefs && f.blocks[b].varDefs[x] == p
    && p < |f.insts| && !f.insts[p].removed && f.insts[p].block == b && f.insts[p].args == args && f.insts[p].op.Phi?
  }

  /** The second block of an island: its phi gets the first one's twice and is replaced by it. */
  lemma SecondPhi(f: Fn, a: BlockId, c: BlockId, x: Var, ty: Ty, p: Id, fuel: nat)
    requires Standing(f, a, x, p, []) && Twice(f, c, a, x) && a != c && fuel > 0
    ensures
      match Read(f, c, x, ty, fuel)
      case None => false
      case Some(r) =>
        && r.1 == |f.insts| && |r.0.insts| == |f.insts| + 1 && |r.0.blocks| == |f.blocks|
        && Standing(r.0, a, x, p, []) && r.0.insts[p].ty == f.insts[p].ty
        && r.0.insts[r.1].removed && r.0.insts[r.1].repl == Some(p) && r.0.insts[r.1].block == c
        && x in r.0.blocks[c].varDefs && r.0.blocks[c].varDefs[x] == r.1
        && (forall b :: 0 <= b < |f.blocks| && b != c ==> r.0.blocks[b].varDefs == f.blocks[b].varDefs)
        && forall v :: 0 <= v < |f.insts| ==> r.0.insts[v].block == f.insts[v].block && r.0.insts[v].ty == f.insts[v].ty
  {
    var q := |f.insts|;
    var f1 := EmitPhi(f, c, x, ty);
    var f2 := AddOperand(f1, q, a, p);
    var f3 := AddOperand(f2, q, a, p);
    assert Standing(f1, a, x, p, []) && Standing(f2, a, x, p, []) && Standing(f3, a, x, p, []);
    assert Standing(f3, c, x, q, [p, p]);
    Answer(f1, a, x, ty, p, [], fuel - 1);
    Answer(f2, a, x, ty, p, [], fuel - 1);
    OneOperand(f1, [a, a], x, q, 0, fuel, f1, p);
    OneOperand(f2, [a, a], x, q, 1, fuel, f2, p);
    TwoAlike(p, q);
    LastOperand(f3, [a, a], x, q, fuel);
    Removed(f3, q, p);
    ReadTwice(f, c, a, x, ty, fuel);
  }

  lemma ReadTwice(f: Fn, b: BlockId, d: BlockId, x: Var, ty: Ty, fuel: nat)
    requires Twice(f, b, d, x)
    ensures Read(f, b, x, ty, fuel) ==
      match Operands(EmitPhi(f, b, x, ty), [d, d], x, |f.insts|, 0, fuel)
      case None => None
      case Some(f2) => Remembered(f2, b, x, |f.insts|)
  {
    hide Operands, EmitPhi;
    assert Read(f, b, x, ty, fuel) == ReadRec(f, b, x, ty, fuel);
  }

  lemma TwoAlike(p: Id, q: Id)
    requires p != q
    ensures Other([p, p], q, None) == Some(Some(p)) && Other([p, q], q, None) == Some(Some(p))
  {
    assert [p, p][1..] == [p] && [p, q][1..] == [q] && [p][1..] == [] && [q][1..] == [];
    assert Other([], q, Some(p)) == Some(Some(p));
    assert Other([p], q, Some(p)) == Some(Some(p)) && Other([q], q, Some(p)) == Some(Some(p));
  }

  lemma Answer(f: Fn, b: BlockId, x: Var, ty: Ty, p: Id, args: seq<Id>, fuel: nat)
    requires Standing(f, b, x, p, args)
    ensures Read(f, b, x, ty, fuel) == Some((f, p))
  {
  }

  lemma OneOperand(f: Fn, preds: seq<BlockId>, x: Var, p: Id, i: nat, fuel: nat, f': Fn, v: Id)
    requires i < |preds| && p < |f.insts| && f.insts[p].block < |f.blocks| && fuel > 0 && p < |f'.insts|
    requires Read(f, preds[i], x, f.insts[p].ty, fuel - 1) == Some((f', v))
    ensures Operands(f, preds, x, p, i, fuel) == Operands(AddOperand(f', p, preds[i], v), preds, x, p, i + 1, fuel)
  {
    hide Read, AddOperand, TryRemove;
  }

  lemma LastOperand(f: Fn, preds: seq<BlockId>, x: Var, p: Id, fuel: nat)
    requires p < |f.insts| && f.insts[p].block < |f.blocks|
    ensures Operands(f, preds, x, p, |preds|, fuel) == Some(TryRemove(f, p))
  {
    hide Read, AddOperand, TryRemove;
  }

  /** What the removal of a phi leaves as it was. */
  lemma Removed(f: Fn, q: Id, p: Id)
    requires q < |f.insts| && f.insts[q].block < |f.blocks| && p < |f.insts| && p != q
    ensures
      var r := RemovePhi(f, q, p);
      && |r.insts| == |f.insts| && |r.blocks| == |f.blocks|
      && r.insts[q].removed && r.insts[q].repl == Some(p) && r.insts[q].block == f.insts[q].block
      && (forall v :: 0 <= v < |f.insts| && v != q ==>
            r.insts[v] == f.insts[v].(args := r.insts[v].args) && |r.insts[v].args| == |f.insts[v].args|
            && (q !in f.insts[v].args || f.insts[v].removed ==> r.insts[v].args == f.insts[v].args))
      && (forall b :: 0 <= b < |f.blocks| ==>
            r.blocks[b].varDefs == f.blocks[b].varDefs && r.blocks[b].preds == f.blocks[b].preds
            && r.blocks[b].isSealed == f.blocks[b].isSealed && r.blocks[b].pending == f.blocks[b].pending)
  {
    forall v | 0 <= v < |f.insts| && v != q && q !in f.insts[v].args
      ensures RewriteInst(f.insts[v], q, p) == f.insts[v]
    {
      assert Subst(f.insts[v].args, q, p) == f.insts[v].args;
    }
  }

  lemma AlikeGoes(f: Fn, p: Id, same: Id)
    requires p < |f.insts| && f.insts[p].block < |f.blocks| && Other(f.insts[p].args, p, None) == Some(Some(same))
    ensures TryRemove(f, p) == RemovePhi(f, p, same)
  {
  }

  /** Both phis of an island end up replaced by each other. */
  lemma IslandRead(f: Fn, a: BlockId, c: BlockId, x: Var, ty: Ty, fuel: nat)
    requires Twice(f, a, c, x) && Twice(f, c, a, x) && a != c && fuel > 1
    ensures
      match Read(f, a, x, ty, fuel)
      case None => false
      case Some(r) =>
        && |r.0.blocks| == |f.blocks| && |r.0.insts| == |f.insts| + 2 && r.1 == |f.insts|
        && x in r.0.blocks[a].varDefs && r.0.blocks[a].varDefs[x] == |f.insts| && Circle(r.0, |f.insts|, |f.insts| + 1)
        && (forall v :: 0 <= v < |f.insts| ==> r.0.insts[v].block == f.insts[v].block && r.0.insts[v].ty == f.insts[v].ty)
  {
    hide Read, ReadRec, Operands, TryRemove, Other;
    var p := |f.insts|;
    var f1 := EmitPhi(f, a, x, ty);
    assert Standing(f1, a, x, p, []) && Twice(f1, c, a, x);
    SecondPhi(f1, a, c, x, ty, p, fuel - 1);
    var (f2, q) := Read(f1, c, x, ty, fuel - 1).value;
    OneOperand(f1, [c, c], x, p, 0, fuel, f2, q);
    var f3 := AddOperand(f2, p, c, q);
    assert Chase(f3, q, fuel - 1) == Some(p);
    ReadFound(f3, c, x, ty, fuel - 1, p);
    OneOperand(f3, [c, c], x, p, 1, fuel, f3, p);
    var f4 := AddOperand(f3, p, c, p);
    assert f4.insts[p].args == [q, p];
    TwoAlike(q, p);
    LastOperand(f4, [c, c], x, p, fuel);
    AlikeGoes(f4, p, q);
    Removed(f4, p, q);
    ReadTwice(f, a, c, x, ty, fuel);
  }

  /** Two blocks, each jumping to the other with both arms of a conditional branch, and a third one that
      both arms of the first lead to. No cycle of this graph is without a block of two predecessors. */
  function IslandAndCoast(): Fn {
    Fn([], [Block([], [1, 1], NoTerm, true, map[], []), Block([], [0, 0], NoTerm, true, map[], []),
            Block([], [0, 0], NoTerm, true, map[], [])])
  }

  /** The first read on the island ends; any later one there does not. */
  lemma IslandEndless(x: Var, ty: Ty, fuel: nat, later: nat)
    requires fuel > 1
    ensures
      match Read(IslandAndCoast(), 0, x, ty, fuel)
      case None => false
      case Some(r) => Read(r.0, 0, x, ty, later).None?
  {
    var f := IslandAndCoast();
    assert Twice(f, 0, 1, x) && Twice(f, 1, 0, x);
    IslandRead(f, 0, 1, x, ty, fuel);
    CircleEndless(Read(f, 0, x, ty, fuel).value.0, 0, 1, later);
  }

  /** A read in the third block, which asks the first one twice, does not end at all. */
  lemma CoastEndless(x: Var, ty: Ty, fuel: nat)
    ensures Read(IslandAndCoast(), 2, x, ty, fuel).None?
  {
    var f := IslandAndCoast();
    assert Twice(f, 2, 0, x);
    ReadTwice(f, 2, 0, x, ty, fuel);
    var f1 := EmitPhi(f, 2, x, ty);
    assert Twice(f1, 0, 1, x) && Twice(f1, 1, 0, x);
    if fuel > 0 && Read(f1, 0, x, ty, fuel - 1).Some? {
      ReadMore(f1, 0, x, ty, fuel - 1, fuel + 1);
      IslandRead(f1, 0, 1, x, ty, fuel + 1);
      var (f2, v) := Read(f1, 0, x, ty, fuel - 1).value;
      OneOperand(f1, [0, 0], x, 0, 0, fuel, f2, v);
      var f3 := AddOperand(f2, 0, 0, v);
      assert Circle(f3, 1, 2);
      CircleEndless(f3, 1, 2, fuel - 1);
    }
  }

  /** Three blocks, each jumping to both others. */
  function Triangle(): Fn {
    Fn([], [Block([], [1, 2], NoTerm, true, map[], []), Block([], [0, 2], NoTerm, true, map[], []),
            Block([], [0, 1], NoTerm, true, map[], [])])
  }

  /** Block `b` answers with phi `b`, which has the operands `args`, or has no answer yet. */
  predicate Corner(f: Fn, b: BlockId, x: Var, args: Option<seq<Id>>) {
    && |f.blocks| == 3 && b < 3 && f.blocks[b].isSealed && f.blocks[b].preds == Triangle().blocks[b].preds
    && match args
       case None => x !in f.blocks[b].varDefs
       case Some(l) => Standing(f, b, x, b, l)
  }

  predicate Corners(f: Fn, x: Var, n: nat, a: Option<seq<Id>>, b: Option<seq<Id>>, c: Option<seq<Id>>) {
    |f.insts| == n && Corner(f, 0, x, a) && Corner(f, 1, x, b) && Corner(f, 2, x, c)
  }

  lemma TwoDifferent(p: Id, q: Id, r: Id)
    requires p != q && p != r && q != r
    ensures Other([p, q], r, None).None?
  {
    assert [p, q][1..] == [q];
  }

  /** The last phi of a corner has two different operands and stays. */
  lemma CornerDone(f: Fn, f2: Fn, b: BlockId, x: Var, ty: Ty, n: nat, p: Id, q: Id)
    requires |f.blocks| == 3 && b < 3 && x !in f.blocks[b].varDefs && f.blocks[b].isSealed && |f.blocks[b].preds| == 2
    requires |f.insts| == b && Standing(f2, b, x, b, [p, q]) && p != q && p != b && q != b
    requires Operands(EmitPhi(f, b, x, ty), f.blocks[b].preds, x, b, 0, n) == Operands(f2, f.blocks[b].preds, x, b, 2, n)
    ensures Read(f, b, x, ty, n) == Some((SetDef(f2, b, x, b), b))
  {
    hide Read, ReadRec, Operands, EmitPhi;
    TwoDifferent(p, q, b);
    LastOperand(f2, f.blocks[b].preds, x, b, n);
    RecPhi(f, b, x, ty, n, f2);
    ReadIsRec(f, b, x, ty, n);
  }

  /** Not every graph that is not rooted does harm: in this one a read ends, and so does every later
      one. The condition that the graph is rooted goes one way. */
  lemma TriangleEnds(x: Var, ty: Ty)
    ensures
      match Read(Triangle(), 0, x, ty, 3)
      case None => false
      case Some(r) => forall b: nat, n: nat :: b < 3 ==> Read(r.0, b, x, ty, n) == Some((r.0, b))
  {
    hide Read, ReadRec, Operands, TryRemove;
    var f0 := Triangle();
    var f1 := EmitPhi(f0, 0, x, ty);
    assert Corners(f1, x, 1, Some([]), None, None);
    var f7 := SecondCorner(f1, x, ty);
    OneOperand(f1, [1, 2], x, 0, 0, 3, f7, 1);
    var f8 := AddOperand(f7, 0, 1, 1);
    assert Corners(f8, x, 3, Some([1]), Some([0, 2]), Some([0, 1]));
    Answer(f8, 2, x, ty, 2, [0, 1], 2);
    OneOperand(f8, [1, 2], x, 0, 1, 3, f8, 2);
    var f9 := AddOperand(f8, 0, 2, 2);
    CornerDone(f0, f9, 0, x, ty, 3, 1, 2);
    var r := SetDef(f9, 0, x, 0);
    assert Corners(r, x, 3, Some([1, 2]), Some([0, 2]), Some([0, 1]));
    forall n: nat
      ensures Read(r, 0, x, ty, n) == Some((r, 0)) && Read(r, 1, x, ty, n) == Some((r, 1)) && Read(r, 2, x, ty, n) == Some((r, 2))
    {
      Answer(r, 0, x, ty, 0, [1, 2], n);
      Answer(r, 1, x, ty, 1, [0, 2], n);
      Answer(r, 2, x, ty, 2, [0, 1], n);
    }
  }

  lemma SecondCorner(f1: Fn, x: Var, ty: Ty) returns (f7: Fn)
    requires Corners(f1, x, 1, Some([]), None, None) && f1.insts[0].ty == ty
    ensures Read(f1, 1, x, ty, 2) == Some((f7, 1)) && Corners(f7, x, 3, Some([]), Some([0, 2]), Some([0, 1])) && f7.insts[0].ty == ty
  {
    hide Read, ReadRec, Operands, TryRemove;
    var f2 := EmitPhi(f1, 1, x, ty);
    assert Corners(f2, x, 2, Some([]), Some([]), None);
    Answer(f2, 0, x, ty, 0, [], 1);
    OneOperand(f2, [0, 2], x, 1, 0, 2, f2, 0);
    var f3 := AddOperand(f2, 1, 0, 0);
    assert Corners(f3, x, 2, Some([]), Some([0]), None);
    var f6 := ThirdCorner(f3, x, ty);
    OneOperand(f3, [0, 2], x, 1, 1, 2, f6, 2);
    f7 := AddOperand(f6, 1, 2, 2);
    CornerDone(f1, f7, 1, x, ty, 2, 0, 2);
    f7 := SetDef(f7, 1, x, 1);
  }

  lemma ThirdCorner(f3: Fn, x: Var, ty: Ty) returns (f6: Fn)
    requires Corners(f3, x, 2, Some([]), Some([0]), None) && f3.insts[0].ty == ty && f3.insts[1].ty == ty
    ensures Read(f3, 2, x, ty, 1) == Some((f6, 2)) && Corners(f6, x, 3, Some([]), Some([0]), Some([0, 1]))
    ensures f6.insts[0].ty == ty && f6.insts[1].ty == ty
  {
    hide Read, ReadRec, Operands, TryRemove;
    var f4 := EmitPhi(f3, 2, x, ty);
    assert Corners(f4, x, 3, Some([]), Some([0]), Some([]));
    Answer(f4, 0, x, ty, 0, [], 0);
    OneOperand(f4, [0, 1], x, 2, 0, 1, f4, 0);
    var f5 := AddOperand(f4, 2, 0, 0);
    assert Corners(f5, x, 3, Some([]), Some([0]), Some([0]));
    Answer(f5, 1, x, ty, 1, [0], 0);
    OneOperand(f5, [0, 1], x, 2, 1, 1, f5, 1);
    f6 := AddOperand(f5, 2, 1, 1);
    CornerDone(f3, f6, 2, x, ty, 1, 0, 1);
    f6 := SetDef(f6, 2, x, 2);
  }

  // ----- types -----

  /** Every answer for a variable, and every operand of a phi, has the type of the variable. */
  ghost predicate Typed(f: Fn, types: Var -> Ty) {
    && (forall v :: 0 <= v < |f.insts| ==> InstTyped(f, v))
    && (forall b :: 0 <= b < |f.blocks| ==> BlockTyped(f, types, b))
  }

  ghost predicate HasTy(f: Fn, v: Id, ty: Ty) {
    v < |f.insts| && f.insts[v].ty == ty
  }

  ghost predicate InstTyped(f: Fn, v: Id)
    requires v < |f.insts|
  {
    && f.insts[v].block < |f.blocks|
    && (f.insts[v].repl.Some? ==> HasTy(f, f.insts[v].repl.value, f.insts[v].ty))
    && (f.insts[v].op.Phi? ==> forall k :: 0 <= k < |f.insts[v].args| ==> HasTy(f, f.insts[v].args[k], f.insts[v].ty))
  }

  ghost predicate BlockTyped(f: Fn, types: Var -> Ty, b: BlockId)
    requires b < |f.blocks|
  {
    && (forall x :: x in f.blocks[b].varDefs ==> HasTy(f, f.blocks[b].varDefs[x], types(x)))
    && (forall e :: e in f.blocks[b].pending ==> HasTy(f, e.1, types(e.0)) && f.insts[e.1].op.Phi?)
  }

  lemma {:induction false} ChaseTyped(f: Fn, types: Var -> Ty, v: Id, fuel: nat)
    requires Typed(f, types) && v < |f.insts| && Chase(f, v, fuel).Some?
    ensures HasTy(f, Chase(f, v, fuel).value, f.insts[v].ty)
    decreases fuel
  {
    assert InstTyped(f, v);
    if f.insts[v].removed && f.insts[v].repl.Some? {
      ChaseTyped(f, types, f.insts[v].repl.value, fuel - 1);
    }
  }

  /** A step that keeps types, kinds and blocks of instructions keeps what has a type. */
  ghost predicate SameTypes(f: Fn, f': Fn) {
    && |f.insts| <= |f'.insts| && |f.blocks| == |f'.blocks|
    && forall v :: 0 <= v < |f.insts| ==>
      f'.insts[v].ty == f.insts[v].ty && f'.insts[v].op == f.insts[v].op && f'.insts[v].block == f.insts[v].block
  }

  lemma SetDefTyped(f: Fn, types: Var -> Ty, b: BlockId, x: Var, v: Id)
    requires Typed(f, types) && b < |f.blocks| && HasTy(f, v, types(x))
    ensures Typed(SetDef(f, b, x, v), types) && SameTypes(f, SetDef(f, b, x, v))
  {
    var f' := SetDef(f, b, x, v);
    forall u | 0 <= u < |f'.insts|
      ensures InstTyped(f', u)
    {
      assert InstTyped(f, u);
    }
    forall c | 0 <= c < |f'.blocks|
      ensures BlockTyped(f', types, c)
    {
      assert BlockTyped(f, types, c);
    }
  }

  /** New blocks, edges, terminators and sealing do not touch types. */
  lemma PlainTyped(f: Fn, types: Var -> Ty, f': Fn)
    requires Typed(f, types) && f'.insts == f.insts && |f.blocks| <= |f'.blocks|
    requires forall b :: 0 <= b < |f.blocks| ==>
      f'.blocks[b].varDefs == f.blocks[b].varDefs && f'.blocks[b].pending == f.blocks[b].pending
    requires forall b :: |f.blocks| <= b < |f'.blocks| ==> f'.blocks[b].varDefs == map[] && f'.blocks[b].pending == []
    ensures Typed(f', types)
  {
    forall u | 0 <= u < |f'.insts|
      ensures InstTyped(f', u)
    {
      assert InstTyped(f, u);
    }
    forall c | 0 <= c < |f'.blocks|
      ensures BlockTyped(f', types, c)
    {
      if c < |f.blocks| {
        assert BlockTyped(f, types, c);
      }
    }
  }

  lemma EmitTyped(f: Fn, types: Var -> Ty, b: BlockId, op: Op, ty: Ty, args: seq<Id>)
    requires Typed(f, types) && b < |f.blocks| && !op.Phi?
    ensures Typed(Emit(f, b, op, ty, args), types) && SameTypes(f, Emit(f, b, op, ty, args))
  {
    var f' := Emit(f, b, op, ty, args);
    forall u | 0 <= u < |f'.insts|
      ensures InstTyped(f', u)
    {
      if u < |f.insts| {
        assert InstTyped(f, u);
      }
    }
    forall c | 0 <= c < |f'.blocks|
      ensures BlockTyped(f', types, c)
    {
      assert BlockTyped(f, types, c);
    }
  }

  lemma EmitPhiTyped(f: Fn, types: Var -> Ty, b: BlockId, x: Var)
    requires Typed(f, types) && b < |f.blocks|
    ensures Typed(EmitPhi(f, b, x, types(x)), types) && SameTypes(f, EmitPhi(f, b, x, types(x)))
  {
    var f' := EmitPhi(f, b, x, types(x));
    forall u | 0 <= u < |f'.insts|
      ensures InstTyped(f', u)
    {
      if u < |f.insts| {
        assert InstTyped(f, u);
      }
    }
    forall c | 0 <= c < |f'.blocks|
      ensures BlockTyped(f', types, c)
    {
      assert BlockTyped(f, types, c);
    }
  }

  lemma AddOperandTyped(f: Fn, types: Var -> Ty, p: Id, q: BlockId, v: Id)
    requires Typed(f, types) && p < |f.insts| && HasTy(f, v, f.insts[p].ty)
    ensures Typed(AddOperand(f, p, q, v), types) && SameTypes(f, AddOperand(f, p, q, v))
  {
    var f' := AddOperand(f, p, q, v);
    forall u | 0 <= u < |f'.insts|
      ensures InstTyped(f', u)
    {
      assert InstTyped(f, u);
    }
    forall c | 0 <= c < |f'.blocks|
      ensures BlockTyped(f', types, c)
    {
      assert BlockTyped(f, types, c);
    }
  }

  /** What the removal of a phi does to instruction `u`, and to block `c`. */
  lemma RemovedParts(f: Fn, p: Id, same: Id)
    requires p < |f.insts| && f.insts[p].block < |f.blocks|
    ensures
      var r := RemovePhi(f, p, same);
      && |r.insts| == |f.insts| && |r.blocks| == |f.blocks|
      && (forall u :: 0 <= u < |f.insts| ==>
            && r.insts[u].ty == f.insts[u].ty && r.insts[u].op == f.insts[u].op && r.insts[u].block == f.insts[u].block
            && r.insts[u].repl == (if u == p then Some(same) else f.insts[u].repl)
            && (r.insts[u].args == f.insts[u].args || r.insts[u].args == Subst(f.insts[u].args, p, same)))
      && forall c :: 0 <= c < |f.blocks| ==>
           r.blocks[c].varDefs == f.blocks[c].varDefs && r.blocks[c].pending == f.blocks[c].pending
  {
  }

  lemma RemovePhiTyped(f: Fn, types: Var -> Ty, p: Id, same: Id)
    requires Typed(f, types) && p < |f.insts| && HasTy(f, same, f.insts[p].ty) && f.insts[p].block < |f.blocks|
    ensures Typed(RemovePhi(f, p, same), types) && SameTypes(f, RemovePhi(f, p, same))
  {
    hide RemovePhi;
    RemovedParts(f, p, same);
    var f' := RemovePhi(f, p, same);
    forall u | 0 <= u < |f'.insts|
      ensures InstTyped(f', u)
    {
      assert InstTyped(f, u);
    }
    forall c | 0 <= c < |f'.blocks|
      ensures BlockTyped(f', types, c)
    {
      assert BlockTyped(f, types, c);
    }
  }

  lemma {:induction false} OtherIsOperand(args: seq<Id>, p: Id, same: Option<Id>)
    requires Other(args, p, same).Some? && Other(args, p, same).value.Some?
    ensures Other(args, p, same) == Some(same) || Other(args, p, same).value.value in args
    decreases |args|
  {
    if args != [] {
      OtherIsOperand(args[1..], p, if Some(args[0]) == same || args[0] == p then same else Some(args[0]));
    }
  }

  lemma TryRemoveTyped(f: Fn, types: Var -> Ty, p: Id)
    requires Typed(f, types) && p < |f.insts| && f.insts[p].block < |f.blocks| && f.insts[p].op.Phi?
    ensures Typed(TryRemove(f, p), types) && SameTypes(f, TryRemove(f, p))
  {
    match Other(f.insts[p].args, p, None)
    case Some(Some(same)) =>
      OtherIsOperand(f.insts[p].args, p, None);
      assert InstTyped(f, p);
      RemovePhiTyped(f, types, p, same);
    case _ =>
  }

  /** A read for a variable with its type gives an answer of that type, and keeps all types right. */
  lemma {:induction false} ReadTyped(f: Fn, types: Var -> Ty, b: BlockId, x: Var, fuel: nat)
    requires Typed(f, types) && Read(f, b, x, types(x), fuel).Some?
    ensures
      var r := Read(f, b, x, types(x), fuel).value;
      Typed(r.0, types) && SameTypes(f, r.0) && HasTy(r.0, r.1, types(x))
    decreases fuel, 3
  {
    hide Typed;
    assert BlockTyped(f, types, b) by { TypedAt(f, types, b); }
    if x in f.blocks[b].varDefs {
      ChaseTyped(f, types, f.blocks[b].varDefs[x], fuel);
    } else {
      ReadRecTyped(f, types, b, x, fuel);
    }
  }

  lemma TypedAt(f: Fn, types: Var -> Ty, b: BlockId)
    requires Typed(f, types) && b < |f.blocks|
    ensures BlockTyped(f, types, b)
  {
  }

  lemma {:induction false} ReadRecTyped(f: Fn, types: Var -> Ty, b: BlockId, x: Var, fuel: nat)
    requires Typed(f, types) && b < |f.blocks| && ReadRec(f, b, x, types(x), fuel).Some?
    ensures
      var r := ReadRec(f, b, x, types(x), fuel).value;
      Typed(r.0, types) && SameTypes(f, r.0) && HasTy(r.0, r.1, types(x))
    decreases fuel, 2
  {
    hide Typed, Read, Operands, SetDef;
    var preds, p, ty := f.blocks[b].preds, |f.insts|, types(x);
    EmitPhiTyped(f, types, b, x);
    if f.blocks[b].isSealed {
      if |preds| == 1 {
        ReadTyped(f, types, preds[0], x, fuel - 1);
        var r := Read(f, preds[0], x, ty, fuel - 1).value;
        SetDefTyped(r.0, types, b, x, r.1);
      } else if |preds| == 0 {
        EmitTyped(f, types, b, ConstInt(0), ty, []);
        SetDefTyped(Emit(f, b, ConstInt(0), ty, []), types, b, x, p);
      } else {
        var f1 := EmitPhi(f, b, x, ty);
        OperandsTyped(f1, types, preds, x, p, 0, fuel);
        SetDefTyped(Operands(f1, preds, x, p, 0, fuel).value, types, b, x, p);
      }
    }
  }

  lemma {:induction false} OperandsTyped(f: Fn, types: Var -> Ty, preds: seq<BlockId>, x: Var, p: Id, i: nat, fuel: nat)
    requires Typed(f, types) && i <= |preds| && Operands(f, preds, x, p, i, fuel).Some?
    requires HasTy(f, p, types(x)) && f.insts[p].op.Phi?
    ensures
      var f' := Operands(f, preds, x, p, i, fuel).value;
      Typed(f', types) && SameTypes(f, f')
    decreases fuel, 1, |preds| - i
  {
    hide Typed, Read, AddOperand, TryRemove;
    if i == |preds| {
      TryRemoveTyped(f, types, p);
    } else {
      ReadTyped(f, types, preds[i], x, fuel - 1);
      var r := Read(f, preds[i], x, types(x), fuel - 1).value;
      AddOperandTyped(r.0, types, p, preds[i], r.1);
      OperandsTyped(AddOperand(r.0, p, preds[i], r.1), types, preds, x, p, i + 1, fuel);
    }
  }
}
