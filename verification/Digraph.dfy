/** Walks in a finite directed graph, and why a depth-first search finds its cycles. */
module Digraph {
  /** `succ[v]` lists what `v` refers to. */
  ghost predicate Walk(succ: seq<seq<nat>>, p: seq<nat>) {
    |p| > 0 && forall i :: 0 <= i < |p| - 1 ==> Edge(succ, p[i], p[i + 1])
  }

  predicate Edge(succ: seq<seq<nat>>, v: nat, w: nat) {
    v < |succ| && w in succ[v]
  }

  ghost predicate WalkFrom(succ: seq<seq<nat>>, r: nat, p: seq<nat>) {
    Walk(succ, p) && p[0] == r
  }

  ghost predicate Reaches(succ: seq<seq<nat>>, r: nat, v: nat) {
    exists p :: WalkFrom(succ, r, p) && p[|p| - 1] == v
  }

  /** Some walk from `r` comes back to where it was. */
  ghost predicate Cyclic(succ: seq<seq<nat>>, r: nat) {
    exists p :: WalkFrom(succ, r, p) && Revisits(p)
  }

  predicate Revisits(p: seq<nat>) {
    exists i, j :: 0 <= i < j < |p| && p[i] == p[j]
  }

  /** Everything is preceded by what it refers to. */
  ghost predicate Topological(succ: seq<seq<nat>>, order: seq<nat>) {
    forall i, w: nat :: 0 <= i < |order| && Edge(succ, order[i], w) ==> w in order[..i]
  }

  predicate NoRepeats(s: seq<nat>) {
    forall i, j :: 0 <= i < j < |s| ==> s[i] != s[j]
  }

  function Place(order: seq<nat>, v: nat): (i: nat)
    requires v in order
    ensures i < |order| && order[i] == v
  {
    if order[0] == v then 0 else 1 + Place(order[1..], v)
  }

  /** Along a walk, places in a topological order go down. */
  lemma {:induction false} WalkDescends(succ: seq<seq<nat>>, order: seq<nat>, p: seq<nat>, k: nat)
    requires Topological(succ, order) && NoRepeats(order) && Walk(succ, p) && p[0] in order && k < |p|
    ensures p[k] in order && Place(order, p[k]) + k <= Place(order, p[0])
  {
    if k > 0 {
      WalkDescends(succ, order, p, k - 1);
      var i := Place(order, p[k - 1]);
      assert Edge(succ, p[k - 1], p[k - 1 + 1]);
      assert p[k] in order[..i];
    }
  }

  lemma WalkTail(succ: seq<seq<nat>>, p: seq<nat>, i: nat)
    requires Walk(succ, p) && i < |p|
    ensures Walk(succ, p[i..])
  {
    var q := p[i..];
    forall k | 0 <= k < |q| - 1
      ensures Edge(succ, q[k], q[k + 1])
    {
      assert Edge(succ, p[i + k], p[i + k + 1]);
    }
  }

  /** What is in a topological order is on no cycle and leads to none. */
  lemma TopologicalAcyclic(succ: seq<seq<nat>>, order: seq<nat>, r: nat)
    requires Topological(succ, order) && NoRepeats(order) && r in order
    ensures !Cyclic(succ, r)
  {
    forall p | WalkFrom(succ, r, p)
      ensures !Revisits(p)
    {
      forall i, j | 0 <= i < j < |p|
        ensures p[i] != p[j]
      {
        WalkDescends(succ, order, p, i);
        WalkTail(succ, p, i);
        WalkDescends(succ, order, p[i..], j - i);
      }
    }
  }

  lemma WalkOn(succ: seq<seq<nat>>, p: seq<nat>, w: nat)
    requires Walk(succ, p) && Edge(succ, p[|p| - 1], w)
    ensures Walk(succ, p + [w])
  {
    var q := p + [w];
    forall i | 0 <= i < |q| - 1
      ensures Edge(succ, q[i], q[i + 1])
    {
      if i < |p| - 1 {
        assert Edge(succ, p[i], p[i + 1]);
      }
    }
  }

  /** An edge back into the current walk closes a cycle. */
  lemma BackEdge(succ: seq<seq<nat>>, stack: seq<nat>, w: nat)
    requires Walk(succ, stack) && Edge(succ, stack[|stack| - 1], w) && w in stack
    ensures Cyclic(succ, stack[0])
  {
    WalkOn(succ, stack, w);
    var i :| 0 <= i < |stack| && stack[i] == w;
    var q := stack + [w];
    assert q[i] == q[|stack|];
    assert WalkFrom(succ, stack[0], q) && Revisits(q);
  }

  lemma OneMore(succ: seq<seq<nat>>, order: seq<nat>, v: nat)
    requires Topological(succ, order) && NoRepeats(order) && v !in order
    requires forall w: nat :: Edge(succ, v, w) ==> w in order
    ensures Topological(succ, order + [v]) && NoRepeats(order + [v])
  {
    var o := order + [v];
    forall i, w: nat | 0 <= i < |o| && Edge(succ, o[i], w)
      ensures w in o[..i]
    {
      if i < |order| {
        assert Edge(succ, order[i], w);
        assert o[..i] == order[..i];
      } else {
        assert o[..i] == order;
      }
    }
  }
}
