/** The state of a depth-first search, and what each of its steps keeps. */
module Search {
  import opened Digraph

  /** Finished nodes in the order of finishing, the walk being followed, and how many edges back
      into it and how many faults were reported. */
  datatype Dfs = Dfs(order: seq<nat>, stack: seq<nat>, circular: nat, faults: nat)

  predicate Met(s: Dfs, v: nat) {
    v in s.order || v in s.stack
  }

  ghost predicate ReachedFrom(g: seq<seq<nat>>, roots: set<nat>, v: nat) {
    exists r :: r in roots && Reaches(g, r, v)
  }

  ghost predicate CycleFrom(g: seq<seq<nat>>, roots: set<nat>) {
    exists r :: r in roots && Cyclic(g, r)
  }

  ghost predicate FaultFrom(g: seq<seq<nat>>, roots: set<nat>, bad: set<nat>) {
    exists v :: v in bad && ReachedFrom(g, roots, v)
  }

  ghost predicate Distinct(s: Dfs, n: nat) {
    && NoRepeats(s.order) && NoRepeats(s.stack)
    && (forall v: nat :: Met(s, v) ==> v < n)
    && forall v: nat :: v in s.order ==> v !in s.stack
  }

  ghost predicate Followed(g: seq<seq<nat>>, roots: set<nat>, s: Dfs) {
    && (s.stack != [] ==> Walk(g, s.stack) && s.stack[0] in roots)
    && (forall v: nat :: v in s.order ==> ReachedFrom(g, roots, v))
    && forall v: nat, w: nat :: v in s.order && Edge(g, v, w) ==> Met(s, w)
  }

  ghost predicate Judged(g: seq<seq<nat>>, roots: set<nat>, bad: set<nat>, s: Dfs) {
    && (s.circular == 0 ==> Topological(g, s.order))
    && (s.circular > 0 ==> CycleFrom(g, roots))
    && (s.faults > 0 ==> FaultFrom(g, roots, bad))
    && (s.faults == 0 ==> forall v: nat :: v in s.order ==> v !in bad)
  }

  ghost predicate Ok(g: seq<seq<nat>>, roots: set<nat>, bad: set<nat>, s: Dfs) {
    Distinct(s, |g|) && Followed(g, roots, s) && Judged(g, roots, bad, s)
  }

  /** Where the search may look next. */
  ghost predicate Ahead(g: seq<seq<nat>>, roots: set<nat>, s: Dfs, v: nat) {
    v < |g| && if s.stack == [] then v in roots else Edge(g, s.stack[|s.stack| - 1], v)
  }

  function Top(s: Dfs): nat
    requires s.stack != []
  {
    s.stack[|s.stack| - 1]
  }

  lemma StackReached(g: seq<seq<nat>>, roots: set<nat>, bad: set<nat>, s: Dfs)
    requires Ok(g, roots, bad, s) && s.stack != []
    ensures ReachedFrom(g, roots, Top(s))
  {
    assert WalkFrom(g, s.stack[0], s.stack);
    assert Reaches(g, s.stack[0], Top(s));
  }

  function Enter(s: Dfs, v: nat): Dfs {
    s.(stack := s.stack + [v])
  }

  lemma EnterOk(g: seq<seq<nat>>, roots: set<nat>, bad: set<nat>, s: Dfs, v: nat)
    requires Ok(g, roots, bad, s) && !Met(s, v) && Ahead(g, roots, s, v)
    ensures Ok(g, roots, bad, Enter(s, v))
  {
    var s' := Enter(s, v);
    assert forall w: nat :: Met(s', w) <==> Met(s, w) || w == v;
    if s.stack != [] {
      WalkOn(g, s.stack, v);
    }
  }

  lemma SameMet(g: seq<seq<nat>>, roots: set<nat>, s: Dfs, s': Dfs)
    requires Distinct(s, |g|) && Followed(g, roots, s) && s'.order == s.order && s'.stack == s.stack
    ensures Distinct(s', |g|) && Followed(g, roots, s')
  {
    assert forall w: nat :: Met(s', w) <==> Met(s, w);
  }

  lemma CircleOk(g: seq<seq<nat>>, roots: set<nat>, bad: set<nat>, s: Dfs, v: nat)
    requires Ok(g, roots, bad, s) && v in s.stack && Ahead(g, roots, s, v)
    ensures Ok(g, roots, bad, s.(circular := s.circular + 1))
  {
    var s' := s.(circular := s.circular + 1);
    SameMet(g, roots, s, s');
    BackEdge(g, s.stack, v);
  }

  lemma FaultOk(g: seq<seq<nat>>, roots: set<nat>, bad: set<nat>, s: Dfs)
    requires Ok(g, roots, bad, s) && s.stack != [] && Top(s) in bad
    ensures Ok(g, roots, bad, s.(faults := s.faults + 1))
  {
    var s' := s.(faults := s.faults + 1);
    SameMet(g, roots, s, s');
    StackReached(g, roots, bad, s);
  }

  function Leave(s: Dfs): Dfs
    requires s.stack != []
  {
    s.(stack := s.stack[..|s.stack| - 1], order := s.order + [Top(s)])
  }

  /** All that the node on top refers to has been looked at. */
  ghost predicate Exhausted(g: seq<seq<nat>>, bad: set<nat>, s: Dfs)
    requires s.stack != []
  {
    && (forall w: nat :: Edge(g, Top(s), w) ==> Met(s, w) && (s.circular == 0 ==> w in s.order))
    && (Top(s) in bad ==> s.faults > 0)
  }

  lemma LeaveOk(g: seq<seq<nat>>, roots: set<nat>, bad: set<nat>, s: Dfs)
    requires Ok(g, roots, bad, s) && s.stack != [] && Exhausted(g, bad, s)
    ensures Ok(g, roots, bad, Leave(s))
    ensures forall v: nat :: Met(Leave(s), v) <==> Met(s, v)
  {
    var u, s' := Top(s), Leave(s);
    assert s.stack == s'.stack + [u];
    assert forall v: nat :: v in s'.order <==> v in s.order || v == u;
    assert forall v: nat :: v in s.stack <==> v in s'.stack || v == u;
    assert forall v: nat :: Met(s', v) <==> Met(s, v);
    StackReached(g, roots, bad, s);
    LeaveDistinct(s, |g|);
    LeaveFollowed(g, roots, bad, s);
    if s.circular == 0 {
      OneMore(g, s.order, u);
    }
  }

  lemma LeaveDistinct(s: Dfs, n: nat)
    requires Distinct(s, n) && s.stack != []
    ensures Distinct(Leave(s), n)
  {
    var u, s' := Top(s), Leave(s);
    assert forall v: nat :: v in s'.order <==> v in s.order || v == u;
    assert forall v: nat :: v in s'.stack ==> v in s.stack && v != u;
    assert forall v: nat :: Met(s', v) ==> Met(s, v);
    assert u in s.stack && u !in s.order;
    assert forall i :: 0 <= i < |s.order| ==> s.order[i] in s.order;
  }

  lemma LeaveFollowed(g: seq<seq<nat>>, roots: set<nat>, bad: set<nat>, s: Dfs)
    requires Ok(g, roots, bad, s) && s.stack != [] && Exhausted(g, bad, s)
    ensures Followed(g, roots, Leave(s))
  {
    var u, s' := Top(s), Leave(s);
    assert s.stack == s'.stack + [u];
    assert forall v: nat :: v in s'.order <==> v in s.order || v == u;
    assert forall v: nat :: v in s.stack <==> v in s'.stack || v == u;
    assert forall v: nat :: Met(s', v) <==> Met(s, v);
    StackReached(g, roots, bad, s);
    if s'.stack != [] {
      WalkInit(g, s'.stack, u);
    }
  }

  lemma WalkInit(g: seq<seq<nat>>, p: seq<nat>, u: nat)
    requires p != [] && Walk(g, p + [u])
    ensures Walk(g, p)
  {
    var q := p + [u];
    forall i | 0 <= i < |p| - 1
      ensures Edge(g, p[i], p[i + 1])
    {
      assert Edge(g, q[i], q[i + 1]);
    }
  }

  /** At the end the reports are exact. */
  lemma Verdict(g: seq<seq<nat>>, roots: set<nat>, bad: set<nat>, s: Dfs)
    requires Ok(g, roots, bad, s) && s.stack == [] && forall r :: r in roots ==> r in s.order
    ensures s.circular > 0 <==> CycleFrom(g, roots)
    ensures s.faults > 0 <==> FaultFrom(g, roots, bad)
    ensures s.circular == 0 ==> Topological(g, s.order)
    ensures forall v: nat :: v in s.order <==> ReachedFrom(g, roots, v)
  {
    hide Topological, Cyclic;
    forall v: nat | ReachedFrom(g, roots, v)
      ensures v in s.order
    {
      ReachedIsMet(g, roots, s, v);
    }
    if s.circular == 0 {
      forall r | r in roots
        ensures !Cyclic(g, r)
      {
        TopologicalAcyclic(g, s.order, r);
      }
    }
  }

  lemma ReachedIsMet(g: seq<seq<nat>>, roots: set<nat>, s: Dfs, v: nat)
    requires Followed(g, roots, s) && s.stack == [] && (forall r :: r in roots ==> r in s.order)
    requires ReachedFrom(g, roots, v)
    ensures v in s.order
  {
    var r :| r in roots && Reaches(g, r, v);
    var p :| WalkFrom(g, r, p) && p[|p| - 1] == v;
    ClosedUnderWalks(g, s, p, |p| - 1);
  }

  lemma {:induction false} ClosedUnderWalks(g: seq<seq<nat>>, s: Dfs, p: seq<nat>, k: nat)
    requires Walk(g, p) && p[0] in s.order && s.stack == [] && k < |p|
    requires forall v: nat, w: nat :: v in s.order && Edge(g, v, w) ==> Met(s, w)
    ensures p[k] in s.order
  {
    if k > 0 {
      ClosedUnderWalks(g, s, p, k - 1);
      assert Edge(g, p[k - 1], p[k - 1 + 1]);
    }
  }
}
