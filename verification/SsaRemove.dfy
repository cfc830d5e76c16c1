/** Removal of a trivial phi: `repl` is set, uses are rewritten where the code rewrites them,
    and the phi leaves its list. */
module SsaRemove {
  import opened Cfg
  import opened Ir
  import opened Wrappers
  import opened SsaInv
  import opened SsaSteps

  function SetRepl(f: Fn, p: Id, same: Id): Fn
    requires p < |f.insts|
  {
    f.(insts := f.insts[p := f.insts[p].(repl := Some(same))])
  }

  function RewriteInst(i: Inst, p: Id, same: Id): Inst {
    if i.removed || !UsesRewritten(i.op) then i else i.(args := Subst(i.args, p, same))
  }

  function RewriteTerm(t: Term, p: Id, same: Id): Term {
    match t
    case Ret(rets) => Ret(Subst(rets, p, same))
    case CondBr(c, a, b) => CondBr(if c == p then same else c, a, b)
    case _ => t
  }

  /** ST_ir_replace_all_uses: every instruction that is still in a list, and every terminator. */
  function ReplaceAllUses(f: Fn, p: Id, same: Id): (r: Fn)
    ensures |r.insts| == |f.insts| && |r.blocks| == |f.blocks|
  {
    Fn(seq(|f.insts|, v requires 0 <= v < |f.insts| => RewriteInst(f.insts[v], p, same)),
       seq(|f.blocks|, b requires 0 <= b < |f.blocks| => f.blocks[b].(term := RewriteTerm(f.blocks[b].term, p, same))))
  }

  function Without(l: seq<Id>, p: Id): (r: seq<Id>)
    ensures p !in l ==> r == l
  {
    if l == [] then [] else if l[0] == p then l[1..] else [l[0]] + Without(l[1..], p)
  }

  lemma {:induction false} WithoutMembers(l: seq<Id>, p: Id)
    requires NoDuplicates(l)
    ensures NoDuplicates(Without(l, p))
    ensures forall v :: v in Without(l, p) <==> v in l && v != p
  {
    if l != [] {
      assert forall i :: 0 < i < |l| ==> l[i] == l[1..][i - 1];
      assert l == [l[0]] + l[1..];
      WithoutMembers(l[1..], p);
      assert l[0] !in l[1..];
      assert NoDuplicates([l[0]] + Without(l[1..], p));
    }
  }

  /** ST_ir_inst_remove. */
  function Unlink(f: Fn, p: Id): Fn
    requires p < |f.insts| && f.insts[p].block < |f.blocks|
  {
    var b := f.insts[p].block;
    Fn(f.insts[p := f.insts[p].(removed := true)],
       f.blocks[b := f.blocks[b].(list := Without(f.blocks[b].list, p))])
  }

  function RemovePhi(f: Fn, p: Id, same: Id): Fn
    requires p < |f.insts| && f.insts[p].block < |f.blocks|
  {
    Unlink(ReplaceAllUses(SetRepl(f, p, same), p, same), p)
  }

  function RemoveShadow(s: Shadow, p: Id, same: Id): (r: Shadow)
    requires |s.root| == |s.height| && same < |s.root|
  {
    s.(root := seq(|s.root|, v requires 0 <= v < |s.root| => if s.root[v] == p then s.root[same] else s.root[v]),
       height := seq(|s.root|, v requires 0 <= v < |s.root| =>
         if s.root[v] == p then s.height[v] + s.height[same] + 1 else s.height[v]))
  }

  /** A phi that is complete and whose operands are all itself or `same`. */
  ghost predicate Trivial(f: Fn, s: Shadow, p: Id, same: Id)
    requires Sizes(f, s)
  {
    && p < |f.insts| && same < |f.insts| && f.insts[p].op.Phi? && !f.insts[p].removed
    && f.insts[p].block < |f.blocks| && f.blocks[f.insts[p].block].isSealed && p !in s.open
    && same != p && same in f.insts[p].args
    && forall k :: 0 <= k < |f.insts[p].args| ==> f.insts[p].args[k] == p || f.insts[p].args[k] == same
  }

  /** The chain that starts at `same` does not come back to the phi: some run reaches the
      phi's block for the first time, and what the phi takes then is not the phi itself. */
  lemma NoReplCycle(g: Graph, f: Fn, s: Shadow, p: Id, same: Id)
    requires Inv(g, f, s) && Trivial(f, s, p, same)
    ensures s.root[same] != p
  {
    var b := f.insts[p].block;
    assert PhiOk(f, s, p) && ChainOk(f, s, p) && EdgesOk(g, f, b);
    assert f.insts[p].from == g.preds[b];
    var path := AvoidingPath(g, b);
    var q := Last(path);
    Available(g, f, s, path);
    assert !Isolated(g, q);
    var j :| 0 <= j < |f.insts[p].from| && f.insts[p].from[j] == q;
    assert Answers(f, s, q, s.phiVar[p], f.insts[p].args[j]);
    assert Passed(f, s, path, f.blocks[q].varDefs[s.phiVar[p]]);
  }

  lemma RemoveExt(g: Graph, f: Fn, s: Shadow, p: Id, same: Id)
    requires Inv(g, f, s) && Trivial(f, s, p, same) && s.root[same] != p
    ensures Keeps(f, s, RemovePhi(f, p, same), RemoveShadow(s, p, same))
  {
    var f', s' := RemovePhi(f, p, same), RemoveShadow(s, p, same);
    assert ChainOk(f, s, p) && ChainOk(f, s, same);
    forall v: Id
      ensures InstExt(f, s, f', s', v) && ArgsExt(f, f', s', v)
    {
      assert ChainOk(f, s, v) && InstOk(f, v);
      if v < |f.insts| {
        assert ChainOk(f, s, s.root[v]);
      }
    }
    forall b: BlockId
      ensures BlockExt(f, s, f', s', b)
    {
    }
  }

  lemma RemoveChains(g: Graph, f: Fn, s: Shadow, p: Id, same: Id)
    requires Inv(g, f, s) && Trivial(f, s, p, same) && s.root[same] != p
    ensures forall v :: ChainOk(RemovePhi(f, p, same), RemoveShadow(s, p, same), v)
  {
    var f', s' := RemovePhi(f, p, same), RemoveShadow(s, p, same);
    assert ChainOk(f, s, p) && ChainOk(f, s, same);
    forall v: Id
      ensures ChainOk(f', s', v)
    {
      assert ChainOk(f, s, v);
      if v < |f.insts| {
        assert ChainOk(f, s, s.root[v]);
        if f.insts[v].repl.Some? {
          assert ChainOk(f, s, f.insts[v].repl.value);
        }
      }
    }
  }

  lemma RemoveLists(g: Graph, f: Fn, s: Shadow, p: Id, same: Id)
    requires Inv(g, f, s) && Trivial(f, s, p, same)
    ensures forall c :: ListOk(RemovePhi(f, p, same), c)
    ensures forall v :: InstOk(RemovePhi(f, p, same), v)
    ensures forall v :: OpenOk(RemovePhi(f, p, same), RemoveShadow(s, p, same), v)
  {
    var f', s' := RemovePhi(f, p, same), RemoveShadow(s, p, same);
    forall c: BlockId
      ensures ListOk(f', c)
    {
      assert ListOk(f, c);
      if c < |f.blocks| {
        WithoutMembers(f.blocks[c].list, p);
      }
    }
    forall v: Id
      ensures InstOk(f', v) && OpenOk(f', s', v)
    {
      assert InstOk(f, v) && OpenOk(f, s, v);
    }
  }

  lemma RemoveKeeps(g: Graph, f: Fn, s: Shadow, p: Id, same: Id)
    requires Inv(g, f, s) && Trivial(f, s, p, same)
    ensures Inv(g, RemovePhi(f, p, same), RemoveShadow(s, p, same))
    ensures Keeps(f, s, RemovePhi(f, p, same), RemoveShadow(s, p, same))
  {
    var f', s' := RemovePhi(f, p, same), RemoveShadow(s, p, same);
    NoReplCycle(g, f, s, p, same);
    assert ChainOk(f, s, p) && ChainOk(f, s, same);
    assert s'.root[p] == s'.root[same];
    RemoveExt(g, f, s, p, same);
    RemoveChains(g, f, s, p, same);
    RemoveLists(g, f, s, p, same);
    Frame(g, f, s, f', s');
    forall v: Id
      ensures GivenOk(f', s', v) && PhiOk(f', s', v)
    {
      assert ArgsExt(f, f', s', v);
      if v == p {
        RemovedPhiOk(f, s, f', s', p, same);
      } else {
        assert v < |f.insts| ==> PhiUntouched(f, s, f', s', v);
      }
    }
    forall c: BlockId, x: Var
      ensures DefOk(f', s', c, x)
    {
      assert c < |f.blocks| ==> DefUntouched(f, s, f', s', c, x);
    }
    forall c: BlockId
      ensures EarlyOk(g, f', s', c) && TermOk(f', s', c) && PendingOk(f', s', c)
    {
      EarlyKept(g, f, s, f', s', c);
      if c < |f.blocks| {
        RemoveTerm(f, s, f', s', p, same, c);
      }
    }
  }

  lemma RemoveTerm(f: Fn, s: Shadow, f': Fn, s': Shadow, p: Id, same: Id, c: BlockId)
    requires Ext(f, s, f', s') && TermOk(f, s, c) && c < |f.blocks| && p < |f.insts| && same < |f.insts|
    requires s'.root[p] == s'.root[same] && s'.givenTerm == s.givenTerm
    requires f'.blocks[c].term == RewriteTerm(f.blocks[c].term, p, same)
    ensures TermOk(f', s', c)
  {
    TermKept(f, s, f', s', f.blocks[c].term, s.givenTerm[c]);
  }

  lemma RemovedPhiOk(f: Fn, s: Shadow, f': Fn, s': Shadow, p: Id, same: Id)
    requires Keeps(f, s, f', s') && Trivial(f, s, p, same) && PhiOk(f, s, p)
    requires s'.root[p] == s'.root[same]
    requires f'.insts[p].args == Subst(f.insts[p].args, p, same)
    ensures PhiOk(f', s', p)
  {
    var i := f.insts[p];
    assert InstExt(f, s, f', s', p) && BlockExt(f, s, f', s', i.block) && ArgsExt(f, f', s', p);
    forall j | 0 <= j < |i.args|
      ensures Answers(f', s', i.from[j], s'.phiVar[p], f'.insts[p].args[j])
      ensures s'.root[f'.insts[p].args[j]] == s'.root[p]
    {
      AnswersKept(f, s, f', s', i.from[j], s.phiVar[p], i.args[j]);
    }
  }
}
