/** Which numbers a loop visits, and in which order. */
module LoopValues {
  import opened Wrappers
  import opened Ast
  import opened UnrollLoop

  /** The body hands the iterator to an operation and does nothing else. */
  function Note(op: string, x: string): seq<Node> {
    [Node(Evaluate, [Node(Apply(op), [Node(Name(x), [])])])]
  }

  /** The operation only changes the world. */
  ghost predicate Notes(m: Meaning, op: string, g: (int, int) -> int) {
    forall v, w :: m.apply(op, [v], w) == Some((0, g(v, w)))
  }

  /** `k`, `k + 1` and so on below `top`. */
  function Upwards(g: (int, int) -> int, k: int, top: int, w: int): int
    decreases top - k
  {
    if k >= top then w else Upwards(g, k + 1, top, g(k, w))
  }

  /** `k`, `k - 1` and so on down to `least`. */
  function Downwards(g: (int, int) -> int, k: int, least: int, w: int): int
    decreases k - least
  {
    if k < least then w else Downwards(g, k - 1, least, g(k, w))
  }

  lemma Noted(m: Meaning, op: string, g: (int, int) -> int, x: string, k: int, s: State, fuel: nat)
    requires Notes(m, op, g)
    ensures
      var t := s.Push(map[x := k]);
      Exec(m, Node(Body, Note(op, x)), t, fuel) == Next(t.(world := g(k, s.world)))
  {
    var t := s.Push(map[x := k]);
    var u := t.Enter();
    var n, e := Node(Name(x), []), Note(op, x)[0].kids[0];
    assert u.scopes[1..] == t.scopes && u.deferred[1..] == t.deferred;
    assert Lookup(t.scopes, x) == Some(k);
    assert Eval(m, n, u) == Some(Value(k, u.world));
    assert [n][1..] == [] && [k] + [] == [k];
    assert EvalAll(m, [n], u) == Some(Values([k], u.world));
    assert m.apply(op, [k], u.world) == Some((0, g(k, u.world)));
    assert Eval(m, e, u) == Some(Value(0, g(k, u.world)));
    var v := u.(world := g(k, u.world));
    assert Exec(m, Note(op, x)[0], u, fuel) == Next(v);
    assert Note(op, x)[1..] == [];
    assert ExecAll(m, Note(op, x), u, fuel) == Next(v);
    assert Exec(m, Node(Body, Note(op, x)), t, fuel) == ExecBody(m, Note(op, x), t, fuel);
  }

  lemma {:induction false} UpRounds(m: Meaning, it: Iter, op: string, g: (int, int) -> int, k: int, hi0: int, s: State, fuel: nat)
    requires Notes(m, op, g) && it.least <= k && hi0 <= it.most && (it.inclusive ==> hi0 < it.most)
    ensures ExecFor(m, it, k, hi0, false, Node(Body, Note(op, it.x)), s, fuel)
         == Next(s.(world := Upwards(g, k, if it.inclusive then hi0 + 1 else hi0, s.world)))
    decreases hi0 - k
  {
    hide Exec, ExecStep, Notes;
    if it.Goes(k, hi0, false) {
      Noted(m, op, g, it.x, k, s, fuel);
      NextRound(m, it, k, hi0, Node(Body, Note(op, it.x)), s.scopes, s.deferred, g(k, s.world), fuel);
      UpRounds(m, it, op, g, k + 1, hi0, s.(world := g(k, s.world)), fuel);
    }
  }

  lemma {:induction false} DownRounds(m: Meaning, it: Iter, op: string, g: (int, int) -> int, k: int, hi0: int, s: State, fuel: nat)
    requires Notes(m, op, g) && k <= it.most && it.least < hi0
    ensures ExecFor(m, it, k, hi0, true, Node(Body, Note(op, it.x)), s, fuel)
         == Next(s.(world := Downwards(g, k, hi0, s.world)))
    decreases k - hi0
  {
    hide Exec, Notes;
    if it.Goes(k, hi0, true) {
      Noted(m, op, g, it.x, k, s, fuel);
      var t := s.Push(map[it.x := k]).(world := g(k, s.world));
      assert t.scopes[1..] == s.scopes && t.scopes[0][it.x] == k;
      Fitting(it, k - 1);
      DownRounds(m, it, op, g, k - 1, hi0, s.(world := g(k, s.world)), fuel);
    }
  }

  /** `lo..hi` visits the numbers from `lo` below `hi`, and `lo..=hi` also `hi`. If `hi` is the smaller
      one they are visited downwards to `hi`, from `lo - 1` and from `lo`. (Not at the ends of the
      iterator's type, where a step wraps.) */
  lemma LoopVisits(m: Meaning, it: Iter, op: string, g: (int, int) -> int, lo: int, hi0: int, s: State, fuel: nat)
    requires Notes(m, op, g) && it.Fits(lo) && it.Fits(hi0)
    requires if lo <= hi0 then it.inclusive ==> hi0 < it.most else it.least < hi0
    ensures Exec(m, Loop(it, Lit(lo), Lit(hi0), Note(op, it.x)), s, fuel) ==
      Next(s.(world :=
        if lo <= hi0 then Upwards(g, lo, if it.inclusive then hi0 + 1 else hi0, s.world)
        else Downwards(g, if it.inclusive then lo else lo - 1, hi0, s.world)))
  {
    hide Exec, ExecFor, Notes;
    Literals(m);
    LoopStart(m, it, Lit(lo), Lit(hi0), lo, hi0, Note(op, it.x), s, fuel);
    if lo <= hi0 {
      UpRounds(m, it, op, g, lo, hi0, s, fuel);
    } else {
      DownRounds(m, it, op, g, if it.inclusive then lo else lo - 1, hi0, s, fuel);
    }
  }
}
