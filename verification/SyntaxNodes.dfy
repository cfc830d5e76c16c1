/** The syntax tree as the front end holds it: nodes that are overwritten in place, and that a
    template may use in several places. */
module SyntaxNodes {
  import opened Ast
  import opened Unroll
  import opened UnrollLoop

  class SyntaxNode {
    var form: Form
    var kids: seq<SyntaxNode>
    ghost var tree: Node
    ghost var Repr: set<object>

    /** The nodes below this one form no circle, and spell `tree`; one of them may stand in several
        places. */
    ghost predicate Valid()
      reads this, Repr
      ensures Valid() ==> this in Repr
      decreases Repr
    {
      && this in Repr
      && (forall n :: n in kids ==> n in Repr && n.Repr <= Repr && this !in n.Repr && n.Valid())
      && tree.form == form && Spells(kids, tree.kids)
    }

    /** No node stands in two places. */
    ghost predicate Apart()
      requires Valid()
      reads this, Repr
      decreases Repr
    {
      && (forall n :: n in kids ==> n.Apart())
      && Disjoint(kids)
    }

    constructor (f: Form, ks: seq<SyntaxNode>)
      requires forall n :: n in ks ==> n.Valid()
      ensures Valid() && form == f && kids == ks && Repr == {this} + All(ks)
    {
      form, kids := f, ks;
      tree := Node(f, Trees(ks));
      Repr := {this} + All(ks);
    }

    /** ST_clone_expr and ST_clone_stmt: new nodes all the way down. */
    method Clone() returns (c: SyntaxNode)
      requires Valid()
      ensures c.Valid() && c.Apart() && fresh(c.Repr) && c.tree == tree
      decreases Repr, 0
    {
      Below();
      var ks := CloneAll(kids);
      c := new SyntaxNode(form, ks);
      assert c.tree.kids == tree.kids;
    }

    lemma Below()
      requires Valid()
      ensures All(kids) <= Repr && this !in All(kids)
    {
    }

    /** ST_ast_substitute_expr and ST_ast_substitute_stmt, which overwrite the nodes they find. */
    method Substitute(x: string, k: int)
      requires Valid() && Apart()
      modifies Repr
      ensures Valid() && Apart() && Repr == old(Repr) && tree == Subst(old(tree), x, k)
      decreases Repr, 0
    {
      if form == Name(x) {
        form, kids, tree := Num(k), [], Node(Num(k), []);
      } else if !form.Sealed? {
        ghost var ts := tree.kids;
        Below();
        SubstituteAll(kids, ts, x, k);
        tree := Node(form, SubstAll(ts, x, k));
      }
    }

    /** ST_rewrite_as_block. */
    method RewriteAsBlock(ks: seq<SyntaxNode>, ghost ts: seq<Node>)
      requires Grove(ks) && Spells(ks, ts) && this !in All(ks)
      modifies this
      ensures Valid() && Apart() && tree == Node(Block, ts) && Repr == {this} + All(ks)
    {
      hide SyntaxNode.Valid, SyntaxNode.Apart, All, Disjoint, Spells;
      RootsIn(ks);
      ghost var all := All(ks);
      assert forall n :: n in ks ==> n.Valid() && n.Apart() && this !in n.Repr && this != n;
      form, kids, tree, Repr := Block, ks, Node(Block, ts), {this} + all;
      assert forall n :: n in ks ==> n.Valid() && n.Apart();
      assert Disjoint(ks);
      assert Spells(ks, ts);
      assert All(ks) == all;
      Whole();
    }

    /** ST_check_comptime_for: each round gets a copy of the body, and this node becomes the block of
        all of them. Nothing but this node is changed; in particular the body it held spells the same
        tree as before, whether nodes of it were shared or not. The new block does what the loop would
        have done whenever `UnrollRight` says so. */
    method Unroll(lo: int, hi0: int)
      requires Valid() && form.For? && |kids| == 3 && kids[2].form.Body?
      modifies this
      ensures Valid() && Apart() && fresh(Repr - {this})
      ensures tree == Unrolled(old(form.it), lo, hi0, old(tree.kids[2].kids))
      ensures forall n :: n in old(kids) ==> n.Valid() && n.tree == old(n.tree)
      ensures forall m, s, fuel :: MayUnroll(m, old(tree), lo, hi0) ==> Exec(m, tree, s, fuel) == Exec(m, old(tree), s, fuel)
    {
      hide SyntaxNode.Valid, SyntaxNode.Apart, Exec, MayUnroll, Copies;
      var it, body := form.it, kids[2].kids;
      Holds();
      kids[2].Holds();
      ghost var before, ts := tree, tree.kids[2].kids;
      var hi := if it.inclusive then hi0 + 1 else hi0;
      if hi < lo {
        hi := lo;
      }
      var unrolled := CloneRounds(body, ts, it.x, lo, hi);
      BeyondEmpty(ts, it.x, lo, hi0, it.inclusive, hi);
      RewriteAsBlock(unrolled, Copies(ts, it.x, lo, hi));
      SameMeaning(before, it, lo, hi0, ts);
    }

    lemma Holds()
      requires Valid()
      ensures form == tree.form && Spells(kids, tree.kids)
      ensures forall n :: n in kids ==> n.Valid() && this !in n.Repr && n != this
    {
    }

    lemma Whole()
      requires Grove(kids) && tree.form == form && Spells(kids, tree.kids) && Repr == {this} + All(kids) && this !in All(kids)
      ensures Valid() && Apart()
    {
      forall n | n in kids
        ensures n in Repr && n.Repr <= Repr && this !in n.Repr
      {
        InAll(kids, n);
      }
    }
  }

  lemma SameMeaning(before: Node, it: Iter, lo: int, hi0: int, ts: seq<Node>)
    requires before.form == For(it) && |before.kids| == 3 && before.kids[2] == Node(Body, ts)
    ensures forall m, s, fuel :: MayUnroll(m, before, lo, hi0) ==> Exec(m, Unrolled(it, lo, hi0, ts), s, fuel) == Exec(m, before, s, fuel)
  {
    hide Exec, Copies, SafeAll;
    assert before == Loop(it, before.kids[0], before.kids[1], ts);
    forall m, s, fuel | MayUnroll(m, before, lo, hi0)
      ensures Exec(m, Unrolled(it, lo, hi0, ts), s, fuel) == Exec(m, before, s, fuel)
    {
      UnrollRight(m, it, before.kids[0], before.kids[1], lo, hi0, ts, s, fuel);
    }
  }

  /** The rounds from `lo` up to below `hi`. */
  method CloneRounds(body: seq<SyntaxNode>, ghost ts: seq<Node>, x: string, lo: int, hi: int) returns (unrolled: seq<SyntaxNode>)
    requires (forall n :: n in body ==> n.Valid()) && Spells(body, ts) && lo <= hi
    ensures Grove(unrolled) && fresh(All(unrolled)) && Spells(unrolled, Copies(ts, x, lo, hi))
  {
    hide SyntaxNode.Valid, SyntaxNode.Apart, Grove, Disjoint, Spells, Copies, SubstAll;
    SpellsNone();
    GroveNone();
    NoCopies(ts, x, lo, lo);
    unrolled := [];
    var k := lo;
    while k < hi
      invariant lo <= k <= hi && Grove(unrolled) && fresh(All(unrolled))
      invariant Spells(unrolled, Copies(ts, x, lo, k))
    {
      var copy := CloneRound(body, ts, x, k);
      CopiesAppend(ts, x, lo, k);
      SpellsAppend(unrolled, Copies(ts, x, lo, k), copy, SubstAll(ts, x, k));
      GroveAppend(unrolled, copy);
      unrolled := unrolled + copy;
      k := k + 1;
    }
  }

  /** The conditions of UnrollRight. */
  ghost predicate MayUnroll(m: Meaning, n: Node, lo: int, hi0: int) {
    && n.form.For? && |n.kids| == 3 && n.kids[2].form.Body? && SafeBody(n.kids[2].kids, n.form.it.x)
    && Constant(m, n.kids[0], lo) && Constant(m, n.kids[1], hi0)
    && n.form.it.Fits(lo) && n.form.it.Fits(hi0) && lo <= hi0 && (n.form.it.inclusive ==> hi0 < n.form.it.most)
  }

  lemma BeyondEmpty(ts: seq<Node>, x: string, lo: int, hi0: int, inclusive: bool, hi: int)
    requires hi == if Above(hi0, inclusive) < lo then lo else Above(hi0, inclusive)
    ensures Copies(ts, x, lo, hi) == Copies(ts, x, lo, Above(hi0, inclusive))
  {
  }

  // ----- lists of nodes -----

  ghost predicate Spells(ns: seq<SyntaxNode>, ts: seq<Node>)
    reads ns
  {
    |ns| == |ts| && forall i :: 0 <= i < |ns| ==> ns[i].tree == ts[i]
  }

  lemma SpellsNone()
    ensures Spells([], [])
  {
  }

  lemma SpellsAppend(a: seq<SyntaxNode>, ta: seq<Node>, b: seq<SyntaxNode>, tb: seq<Node>)
    requires Spells(a, ta) && Spells(b, tb)
    ensures Spells(a + b, ta + tb)
  {
  }

  ghost function Trees(ns: seq<SyntaxNode>): (ts: seq<Node>)
    reads ns
    ensures Spells(ns, ts)
  {
    if ns == [] then [] else [ns[0].tree] + Trees(ns[1..])
  }

  ghost function All(ns: seq<SyntaxNode>): set<object>
    reads ns
  {
    set n, o | n in ns && o in n.Repr :: o
  }

  ghost predicate Disjoint(ns: seq<SyntaxNode>)
    reads ns
  {
    forall i, j :: 0 <= i < j < |ns| ==> ns[i].Repr !! ns[j].Repr
  }

  /** Trees side by side. */
  ghost predicate Grove(ns: seq<SyntaxNode>)
    reads ns, All(ns)
  {
    (forall n :: n in ns ==> n.Valid() && n.Apart()) && Disjoint(ns)
  }

  lemma InAll(ns: seq<SyntaxNode>, n: SyntaxNode)
    requires n in ns
    ensures n.Repr <= All(ns)
  {
  }

  lemma GroveAppend(a: seq<SyntaxNode>, b: seq<SyntaxNode>)
    requires Grove(a) && Grove(b) && All(a) !! All(b)
    ensures Grove(a + b) && All(a + b) == All(a) + All(b)
  {
    var c := a + b;
    forall i, j | 0 <= i < j < |c|
      ensures c[i].Repr !! c[j].Repr
    {
      if i < |a| <= j {
        InAll(a, c[i]);
        InAll(b, c[j]);
      } else if |a| <= i {
        assert c[i] == b[i - |a|] && c[j] == b[j - |a|];
      }
    }
  }

  lemma RootsIn(ns: seq<SyntaxNode>)
    requires Grove(ns)
    ensures forall n :: n in ns ==> n in All(ns) && n.Repr <= All(ns)
  {
  }

  lemma GroveNone()
    ensures Grove([]) && All([]) == {}
  {
  }

  lemma GroveOne(n: SyntaxNode)
    requires n.Valid() && n.Apart()
    ensures Grove([n]) && All([n]) == n.Repr
  {
    assert n in [n];
  }

  /** ST_clone_body. */
  method CloneAll(ns: seq<SyntaxNode>) returns (copy: seq<SyntaxNode>)
    requires forall n :: n in ns ==> n.Valid()
    ensures Grove(copy) && fresh(All(copy))
    ensures |copy| == |ns| && forall i :: 0 <= i < |ns| ==> copy[i].tree == ns[i].tree
    decreases All(ns), 1
  {
    hide SyntaxNode.Valid, SyntaxNode.Apart, Grove, Disjoint;
    copy := [];
    GroveNone();
    for i := 0 to |ns|
      invariant |copy| == i && Grove(copy) && fresh(All(copy))
      invariant forall j :: 0 <= j < i ==> copy[j].tree == ns[j].tree
    {
      InAll(ns, ns[i]);
      var c := ns[i].Clone();
      GroveOne(c);
      GroveAppend(copy, [c]);
      copy := copy + [c];
    }
  }

  /** The other trees of a grove keep still. */
  method SubstituteAt(ns: seq<SyntaxNode>, i: nat, x: string, k: int)
    requires Grove(ns) && i < |ns|
    modifies ns[i].Repr
    ensures Grove(ns) && forall n :: n in ns ==> n.Repr == old(n.Repr)
    ensures forall j :: 0 <= j < |ns| ==> ns[j].tree == if j == i then Subst(old(ns[j].tree), x, k) else old(ns[j].tree)
    decreases ns[i].Repr, 1
  {
    hide SyntaxNode.Valid, SyntaxNode.Apart;
    assert forall j :: 0 <= j < |ns| ==> ns[j].Valid() && ns[j].Apart() && ns[j] in ns[j].Repr by {
      Rooted(ns);
    }
    ns[i].Substitute(x, k);
    assert forall j :: 0 <= j < |ns| ==> ns[j].Valid() && ns[j].Apart() && ns[j].Repr == old(ns[j].Repr);
  }

  lemma Rooted(ns: seq<SyntaxNode>)
    requires Grove(ns)
    ensures forall j :: 0 <= j < |ns| ==> ns[j].Valid() && ns[j].Apart() && ns[j] in ns[j].Repr
  {
    forall j | 0 <= j < |ns|
      ensures ns[j].Valid() && ns[j].Apart() && ns[j] in ns[j].Repr
    {
      assert ns[j] in ns;
    }
  }

  /** The substitution in each node of a list, one after the other. */
  method SubstituteAll(ns: seq<SyntaxNode>, ghost ts: seq<Node>, x: string, k: int)
    requires Grove(ns) && Spells(ns, ts)
    modifies All(ns)
    ensures Grove(ns) && All(ns) == old(All(ns))
    ensures forall n :: n in ns ==> n.Repr == old(n.Repr)
    ensures Spells(ns, SubstAll(ts, x, k))
    decreases All(ns), 2
  {
    for i := 0 to |ns|
      invariant Grove(ns) && forall n :: n in ns ==> n.Repr == old(n.Repr)
      invariant forall j :: 0 <= j < |ns| ==> ns[j].tree == if j < i then Subst(ts[j], x, k) else ts[j]
    {
      SubstituteAt(ns, i, x, k);
    }
    forall i | 0 <= i < |ns|
      ensures ns[i].tree == SubstAll(ts, x, k)[i]
    {
      SubstAt(ts, x, k, i);
    }
  }

  /** The statements of one round. */
  method CloneRound(body: seq<SyntaxNode>, ghost ts: seq<Node>, x: string, k: int) returns (copy: seq<SyntaxNode>)
    requires (forall n :: n in body ==> n.Valid()) && Spells(body, ts)
    ensures Grove(copy) && fresh(All(copy)) && Spells(copy, SubstAll(ts, x, k))
  {
    hide SyntaxNode.Valid, SyntaxNode.Apart, Grove, SubstAll;
    copy := CloneAll(body);
    ghost var all := All(copy);
    SubstituteAll(copy, ts, x, k);
    assert All(copy) == all;
  }
}
