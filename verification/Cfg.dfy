/** Control-flow graphs as the SSA builder sees them: every block knows its predecessors,
    in the order in which the edges were added, and nothing else. */
module Cfg {

  type BlockId = nat

  datatype Graph = Graph(preds: seq<seq<BlockId>>)

  function Last(p: seq<BlockId>): BlockId
    requires p != []
  {
    p[|p| - 1]
  }

  function Init(p: seq<BlockId>): seq<BlockId>
    requires p != []
  {
    p[..|p| - 1]
  }

  /** A run of the program: it starts in a block without predecessors (the entry block, or a
      dead block that nothing jumps to) and follows edges. */
  ghost predicate IsPath(g: Graph, p: seq<BlockId>)
  {
    && p != []
    && Last(p) < |g.preds|
    && if |p| == 1 then g.preds[p[0]] == []
       else Last(Init(p)) in g.preds[Last(p)] && IsPath(g, Init(p))
  }

  ghost predicate IsPathTo(g: Graph, p: seq<BlockId>, b: BlockId)
  {
    IsPath(g, p) && Last(p) == b
  }

  /** Every run that reaches `b` has been through `a`. */
  ghost predicate Dominates(g: Graph, a: BlockId, b: BlockId)
  {
    forall p :: IsPathTo(g, p, b) ==> a in p
  }

  ghost predicate Reached(g: Graph, b: BlockId)
  {
    exists p :: IsPathTo(g, p, b)
  }

  /** No block sits on a cycle that nothing enters. */
  ghost predicate Rooted(g: Graph)
  {
    && (forall b, j :: 0 <= b < |g.preds| && 0 <= j < |g.preds[b]| ==> g.preds[b][j] < |g.preds|)
    && forall b :: 0 <= b < |g.preds| ==> Reached(g, b)
  }

  lemma {:induction false} PathPrefix(g: Graph, p: seq<BlockId>, k: nat)
    requires IsPath(g, p) && 0 < k <= |p|
    ensures IsPath(g, p[..k])
  {
    if k == |p| {
      assert p[..k] == p;
    } else {
      PathPrefix(g, Init(p), k);
      assert Init(p)[..k] == p[..k];
    }
  }

  lemma {:induction false} PathInRange(g: Graph, p: seq<BlockId>, i: nat)
    requires IsPath(g, p) && i < |p|
    ensures p[i] < |g.preds|
    ensures i > 0 ==> p[i - 1] in g.preds[p[i]]
    ensures i == 0 ==> g.preds[p[i]] == []
  {
    PathPrefix(g, p, i + 1);
    assert Last(p[..i + 1]) == p[i];
    if i > 0 {
      assert Init(p[..i + 1]) == p[..i];
      assert Last(Init(p[..i + 1])) == p[i - 1];
    }
  }

  /** The first visit to `b` on a run, cut just before `b`. */
  lemma FirstVisit(p: seq<BlockId>, b: BlockId) returns (k: nat)
    requires b in p
    ensures k < |p| && p[k] == b && b !in p[..k]
  {
    if p[0] == b {
      k := 0;
    } else {
      assert p == [p[0]] + p[1..];
      k := FirstVisit(p[1..], b);
      assert p[..k + 1] == [p[0]] + p[1..][..k];
      k := k + 1;
    }
  }

  /** A block with predecessors can be approached through one of them without having been
      visited before. */
  lemma AvoidingPath(g: Graph, b: BlockId) returns (p: seq<BlockId>)
    requires Rooted(g) && b < |g.preds| && g.preds[b] != []
    ensures IsPath(g, p) && Last(p) in g.preds[b] && b !in p
  {
    assert Reached(g, b);
    var full :| IsPathTo(g, full, b);
    var k := FirstVisit(full, b);
    PathInRange(g, full, k);
    PathPrefix(g, full, k);
    p := full[..k];
  }

  ghost predicate ReachedIn(g: Graph, b: BlockId, n: nat)
  {
    exists p :: IsPathTo(g, p, b) && |p| == n
  }

  lemma {:induction false} LeastLength(g: Graph, b: BlockId, n: nat)
    requires ReachedIn(g, b, n)
    ensures exists m: nat :: ReachedIn(g, b, m) && forall k: nat :: k < m ==> !ReachedIn(g, b, k)
  {
    if k: nat :| k < n && ReachedIn(g, b, k) {
      LeastLength(g, b, k);
    }
  }

  /** Length of a shortest run that reaches `b`. */
  ghost function Rank(g: Graph, b: BlockId): (n: nat)
    requires Rooted(g) && b < |g.preds|
    ensures ReachedIn(g, b, n) && forall k: nat :: k < n ==> !ReachedIn(g, b, k)
  {
    assert exists n: nat :: ReachedIn(g, b, n) by {
      assert Reached(g, b);
      var p :| IsPathTo(g, p, b);
      assert ReachedIn(g, b, |p|);
    }
    var n: nat :| ReachedIn(g, b, n);
    LeastLength(g, b, n);
    var m: nat :| ReachedIn(g, b, m) && forall k: nat :: k < m ==> !ReachedIn(g, b, k);
    m
  }

  /** Walking from a block to its only predecessor gets closer to where runs start. */
  lemma OnlyPredecessorIsCloser(g: Graph, b: BlockId)
    requires Rooted(g) && b < |g.preds| && |g.preds[b]| == 1
    ensures Rank(g, g.preds[b][0]) < Rank(g, b)
  {
    var q := g.preds[b][0];
    assert ReachedIn(g, b, Rank(g, b));
    var p :| IsPathTo(g, p, b) && |p| == Rank(g, b);
    assert g.preds[b] == [q];
    assert IsPathTo(g, Init(p), q);
    assert ReachedIn(g, q, |p| - 1);
  }

  /** Between the last visit to a dominating block and the end of a run, no block is visited
      that every run passes before it reaches the dominator. */
  lemma NothingAboveRevisited(g: Graph, p: seq<BlockId>, a: BlockId, c: BlockId, k: nat)
    requires IsPath(g, p) && Dominates(g, a, Last(p))
    requires k < |p| && p[k] == a && a !in p[k + 1..]
    requires c != a && Dominates(g, c, a)
    ensures c !in p[k + 1..]
  {
    var first := FirstVisit(p, a);
    PathPrefix(g, p, first + 1);
    assert IsPathTo(g, p[..first + 1], a);
    assert p[..first + 1] == p[..first] + [a];
    var i := FirstVisit(p[..first], c);
    forall j | k < j < |p|
      ensures p[j] != c
    {
      if p[j] == c {
        assert p[j + 1..] == p[k + 1..][j - k..];
        assert p[..i + 1] == p[..first][..i + 1];
        Shortcut(g, p, a, i, j);
      }
    }
  }

  /** Leaving out the stretch between two visits to the same block gives another run. */
  lemma Shortcut(g: Graph, p: seq<BlockId>, a: BlockId, i: nat, j: nat)
    requires IsPath(g, p) && i < j < |p| && p[i] == p[j]
    requires a !in p[..i + 1] && a !in p[j + 1..]
    ensures !Dominates(g, a, Last(p))
  {
    PathPrefix(g, p, i + 1);
    var cut := Splice(g, p[..i + 1], p, j);
    assert IsPathTo(g, cut, Last(p)) && a !in cut;
  }

  /** A run that ends where another one passes can continue as the other one does. */
  lemma {:induction false} Splice(g: Graph, q: seq<BlockId>, p: seq<BlockId>, j: nat) returns (r: seq<BlockId>)
    requires IsPath(g, q) && IsPath(g, p) && j < |p| && p[j] == Last(q)
    ensures IsPath(g, r) && r == q + p[j + 1..] && Last(r) == Last(p)
    decreases |p|
  {
    if j == |p| - 1 {
      assert q + p[j + 1..] == q;
      r := q;
    } else {
      assert Init(p)[j] == p[j];
      var r' := Splice(g, q, Init(p), j);
      r := r' + [Last(p)];
      assert Init(r) == r';
      assert r == q + p[j + 1..];
    }
  }
}
