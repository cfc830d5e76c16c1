/** When the unrolled block does what the loop would do at run time, and inputs for which it does
    not. */
module UnrollLoop {
  import opened Wrappers
  import opened Ast
  import opened Unroll

  function Loop(it: Iter, lo: Node, hi: Node, body: seq<Node>): Node {
    Node(For(it), [lo, hi, Node(Body, body)])
  }

  function Unrolled(it: Iter, lo: int, hi0: int, body: seq<Node>): Node {
    Node(Block, Copies(body, it.x, lo, Above(hi0, it.inclusive)))
  }

  function Lit(k: int): Node {
    Node(Num(k), [])
  }

  /** What ST_const_eval promises of a bound: its value, and nothing else happens. */
  ghost predicate Constant(m: Meaning, n: Node, v: int) {
    forall s :: Eval(m, n, s) == Some(Value(v, s.world))
  }

  ghost predicate Same(m: Meaning, it: Iter, lo: int, hi0: int, body: seq<Node>, s: State, fuel: nat) {
    Exec(m, Loop(it, Lit(lo), Lit(hi0), body), s, fuel) == Exec(m, Unrolled(it, lo, hi0, body), s, fuel)
  }

  // ----- one round -----

  function InRound(s: State, x: string, k: int): State {
    s.Push(map[x := k]).Enter()
  }

  lemma FirstRound(s: State, x: string, k: int)
    ensures Round(InRound(s, x, k), s.Push(map[]), Ctx(0, 0, x, k, s.deferred))
  {
    assert s.Push(map[]).scopes[1..] == s.scopes;
    assert [map[]] + ([map[x := k]] + s.scopes) == [map[], map[x := k]] + s.scopes;
  }

  /** Leaving the two scopes of a round is leaving the one of the unrolled code. */
  lemma RoundEnds(oa: Outcome, ob: Outcome, s: State, x: string, k: int)
    requires Alike(oa, ob, Ctx(0, 0, x, k, s.deferred), false) && ob.Ended()
    ensures !oa.Broke? && !oa.Continued? && oa.Next? == ob.Next?
    ensures oa.s.Frame() == [] && ob.s.deferred == s.deferred && ob.s.scopes != []
    ensures Leave(oa, oa.s) == ob.With(State([map[x := k]] + ob.s.scopes[1..], s.deferred, ob.s.world))
    ensures ob.s == State(ob.s.scopes[1..], s.deferred, ob.s.world).Push(map[])
  {
    var a, b := oa.s, ob.s;
    assert a.scopes[1..] == [map[x := k]] + b.scopes[1..];
    assert a.deferred[1..] == b.deferred;
    assert b.scopes == [map[]] + b.scopes[1..];
  }

  /** What is left after a round of the unrolled code that started in `s`. */
  function Rest(s: State, t: State): State
    requires t.scopes != []
  {
    State(t.scopes[1..], s.deferred, t.world)
  }

  lemma BodyEnds(m: Meaning, body: seq<Node>, s: State, fuel: nat, o: Outcome)
    requires o == ExecAll(m, body, s.Enter(), fuel) && (o.Ended() ==> o.s.Frame() == [])
    ensures Exec(m, Node(Body, body), s, fuel) == if o.Ended() then Leave(o, o.s) else o
  {
    assert Exec(m, Node(Body, body), s, fuel) == ExecBody(m, body, s, fuel);
  }

  lemma LoopRound(m: Meaning, it: Iter, k: int, hi: int, body: seq<Node>, s: State, fuel: nat, ob: Outcome)
    requires it.Goes(k, hi, false) && it.least <= k && hi <= it.most && (it.inclusive ==> hi < it.most)
    requires Alike(ExecAll(m, body, InRound(s, it.x, k), fuel), ob, Ctx(0, 0, it.x, k, s.deferred), false)
    ensures ob.Ended() ==> ob.s.scopes != []
    ensures ExecFor(m, it, k, hi, false, Node(Body, body), s, fuel) ==
      if !ob.Ended() then ob
      else if ob.Next? then ExecFor(m, it, k + 1, hi, false, Node(Body, body), Rest(s, ob.s), fuel)
      else ob.With(Rest(s, ob.s))
  {
    hide Round, ExecStep, ExecAll, Exec, Leave;
    var oa := ExecAll(m, body, InRound(s, it.x, k), fuel);
    var o := Exec(m, Node(Body, body), s.Push(map[it.x := k]), fuel);
    assert ob.Ended() == oa.Ended();
    if ob.Ended() {
      RoundEnds(oa, ob, s, it.x, k);
    }
    BodyEnds(m, body, s.Push(map[it.x := k]), fuel, oa);
    if ob.Ended() {
      var t := ob.s;
      assert o == ob.With(State([map[it.x := k]] + t.scopes[1..], s.deferred, t.world));
      assert ([map[it.x := k]] + t.scopes[1..])[1..] == t.scopes[1..];
      if ob.Next? {
        NextRound(m, it, k, hi, Node(Body, body), t.scopes[1..], s.deferred, t.world, fuel);
      }
    }
  }

  lemma BlockRound(m: Meaning, it: Iter, k: int, hi0: int, body: seq<Node>, s: State, fuel: nat, oa: Outcome)
    requires k < Above(hi0, it.inclusive)
    requires Alike(oa, ExecAll(m, SubstAll(body, it.x, k), s.Push(map[]), fuel), Ctx(0, 0, it.x, k, s.deferred), false)
    ensures
      var ob := ExecAll(m, SubstAll(body, it.x, k), s.Push(map[]), fuel);
      && (ob.Ended() ==> ob.s.scopes != [])
      && Exec(m, Unrolled(it, k, hi0, body), s, fuel) ==
           if !ob.Ended() then ob
           else if ob.Next? then Exec(m, Unrolled(it, k + 1, hi0, body), Rest(s, ob.s), fuel)
           else ob.With(Rest(s, ob.s))
  {
    hide Round, ExecAll, SubstAll, Copies;
    var top := Above(hi0, it.inclusive);
    CopiesFirst(body, it.x, k, top);
    ExecAllAppend(m, SubstAll(body, it.x, k), Copies(body, it.x, k + 1, top), s.Push(map[]), fuel);
    var ob := ExecAll(m, SubstAll(body, it.x, k), s.Push(map[]), fuel);
    if ob.Ended() {
      RoundEnds(oa, ob, s, it.x, k);
    }
  }

  /** The unrolled rounds from `k` on do what the loop does from there. */
  lemma {:induction false} RoundsRight(m: Meaning, it: Iter, k: int, hi: int, body: seq<Node>, s: State, fuel: nat)
    requires SafeBody(body, it.x) && it.least <= k && hi <= it.most && (it.inclusive ==> hi < it.most)
    ensures Exec(m, Unrolled(it, k, hi, body), s, fuel) == ExecFor(m, it, k, hi, false, Node(Body, body), s, fuel)
    decreases hi - k
  {
    hide Round, Alike, SafeAll, SubstAll, Copies, Rest, InRound;
    var b := s.Push(map[]);
    if it.Goes(k, hi, false) {
      FirstRound(s, it.x, k);
      var c := Ctx(0, 0, it.x, k, s.deferred);
      ExecAllSubst(m, body, InRound(s, it.x, k), b, c, Place(true, false, false), fuel);
      var oa, ob := ExecAll(m, body, InRound(s, it.x, k), fuel), ExecAll(m, SubstAll(body, it.x, k), b, fuel);
      LoopRound(m, it, k, hi, body, s, fuel, ob);
      BlockRound(m, it, k, hi, body, s, fuel, oa);
      if ob.Next? {
        RoundsRight(m, it, k + 1, hi, body, Rest(s, ob.s), fuel);
      }
    } else {
      NoCopies(body, it.x, k, Above(hi, it.inclusive));
      assert b.scopes[1..] == s.scopes;
    }
  }

  lemma CopiesFirst(body: seq<Node>, x: string, k: int, hi: int)
    requires k < hi
    ensures Copies(body, x, k, hi) == SubstAll(body, x, k) + Copies(body, x, k + 1, hi)
  {
  }

  lemma NoCopies(body: seq<Node>, x: string, k: int, hi: int)
    requires k >= hi
    ensures Copies(body, x, k, hi) == []
  {
  }

  lemma NextRound(m: Meaning, it: Iter, k: int, hi: int, body: Node, scopes: seq<map<string, int>>, deferred: seq<seq<Node>>,
                  world: int, fuel: nat)
    requires it.Goes(k, hi, false) && it.least <= k && hi <= it.most && (it.inclusive ==> hi < it.most)
    ensures ExecStep(m, it, k, hi, false, body, State([map[it.x := k]] + scopes, deferred, world), fuel)
         == ExecFor(m, it, k + 1, hi, false, body, State(scopes, deferred, world), fuel)
  {
    hide ExecFor, Iter.Wrap;
    assert ([map[it.x := k]] + scopes)[1..] == scopes;
    Fitting(it, k + 1);
  }

  /** The unrolled block does exactly what the loop does at run time, for all programs, states and
      meanings of the operators, when the body is safe, the bounds fit the type of the iterator and
      the upper one is not below the lower one; a bound that is visited must not be the largest
      number of the type. */
  lemma UnrollRight(m: Meaning, it: Iter, l: Node, h: Node, lo: int, hi0: int, body: seq<Node>, s: State, fuel: nat)
    requires SafeBody(body, it.x) && Constant(m, l, lo) && Constant(m, h, hi0) && it.Fits(lo) && it.Fits(hi0)
    requires lo <= hi0 && (it.inclusive ==> hi0 < it.most)
    ensures Exec(m, Loop(it, l, h, body), s, fuel) == Exec(m, Unrolled(it, lo, hi0, body), s, fuel)
  {
    LoopStart(m, it, l, h, lo, hi0, body, s, fuel);
    RoundsRight(m, it, lo, hi0, body, s, fuel);
  }

  lemma TwoBounds(m: Meaning, l: Node, h: Node, lo: int, hi0: int, s: State)
    requires Constant(m, l, lo) && Constant(m, h, hi0)
    ensures EvalAll(m, [l, h], s) == Some(Values([lo, hi0], s.world))
  {
    hide Eval;
    assert s.(world := s.world) == s && [l, h][1..] == [h] && [h][1..] == [];
    assert Eval(m, h, s) == Some(Value(hi0, s.world));
    assert EvalAll(m, [], s) == Some(Values([], s.world));
    assert EvalAll(m, [h], s) == Some(Values([hi0] + [], s.world));
    assert Eval(m, l, s) == Some(Value(lo, s.world));
    assert [lo] + ([hi0] + []) == [lo, hi0];
  }

  lemma LoopStart(m: Meaning, it: Iter, l: Node, h: Node, lo: int, hi0: int, body: seq<Node>, s: State, fuel: nat)
    requires Constant(m, l, lo) && Constant(m, h, hi0) && it.Fits(lo) && it.Fits(hi0)
    ensures Exec(m, Loop(it, l, h, body), s, fuel)
         == ExecFor(m, it, if hi0 < lo && !it.inclusive then lo - 1 else lo, hi0, hi0 < lo, Node(Body, body), s, fuel)
  {
    hide ExecFor, EvalAll, Iter.Wrap;
    var n := Loop(it, l, h, body);
    assert n.kids[..2] == [l, h];
    TwoBounds(m, l, h, lo, hi0, s);
    assert s.(world := s.world) == s;
    Fitting(it, lo);
    Fitting(it, hi0);
    if hi0 < lo {
      Fitting(it, lo - 1);
    }
  }

  lemma Fitting(it: Iter, v: int)
    requires it.Fits(v)
    ensures it.Wrap(v) == v
  {
  }

  // ----- where it fails -----

  function ReturnIt(x: string): seq<Node> {
    [Node(Return, [Node(Name(x), [])])]
  }

  /** Counting down, the loop has a first round, and the unrolled block is empty: `3..0` starts
      with 2. */
  lemma Descending(m: Meaning, it: Iter, lo: int, hi0: int, s: State, fuel: nat)
    requires it.Fits(lo) && it.Fits(hi0) && hi0 < lo
    ensures Exec(m, Loop(it, Lit(lo), Lit(hi0), ReturnIt(it.x)), s, fuel) == Returned([if it.inclusive then lo else lo - 1], s)
    ensures Exec(m, Unrolled(it, lo, hi0, ReturnIt(it.x)), s, fuel) == Next(s)
    ensures SafeBody(ReturnIt(it.x), it.x)
  {
    hide Exec, ReturnIt, Copies, SafeAll;
    var v := if it.inclusive then lo else lo - 1;
    LoopStart(m, it, Lit(lo), Lit(hi0), lo, hi0, ReturnIt(it.x), s, fuel);
    FirstReturns(m, it.x, v, s, fuel);
    assert s.Push(map[it.x := v]).scopes[1..] == s.scopes;
    NoCopies(ReturnIt(it.x), it.x, lo, Above(hi0, it.inclusive));
    EmptyBlock(m, s, fuel);
    SafeReturn(it.x);
  }

  lemma EmptyBlock(m: Meaning, s: State, fuel: nat)
    ensures Exec(m, Node(Block, []), s, fuel) == Next(s)
  {
    assert ExecAll(m, [], s.Push(map[]), fuel) == Next(s.Push(map[]));
    assert s.Push(map[]).scopes[1..] == s.scopes;
  }

  lemma SafeReturn(x: string)
    ensures SafeBody(ReturnIt(x), x)
  {
    var n := Node(Name(x), []);
    assert [n][1..] == [] && ReturnIt(x)[1..] == [];
    assert SafeAll([n], x, Place(true, false, false));
  }

  lemma FirstReturns(m: Meaning, x: string, v: int, s: State, fuel: nat)
    ensures Exec(m, Node(Body, ReturnIt(x)), s.Push(map[x := v]), fuel) == Returned([v], s.Push(map[x := v]))
  {
    var t := s.Push(map[x := v]);
    var u := t.Enter();
    assert u.scopes[1..] == t.scopes && u.deferred[1..] == t.deferred;
    var n := Node(Name(x), []);
    assert Lookup(t.scopes, x) == Some(v);
    assert Eval(m, n, u) == Some(Value(v, u.world));
    assert [n][1..] == [] && [v] + [] == [v];
    assert EvalAll(m, [n], u) == Some(Values([v], u.world));
    assert Exec(m, ReturnIt(x)[0], u, fuel) == Returned([v], u);
    assert ExecAll(m, ReturnIt(x), u, fuel) == Returned([v], u);
  }

  lemma EmptyRound(m: Meaning, s: State, fuel: nat)
    ensures Exec(m, Node(Body, []), s, fuel) == Next(s)
  {
    var u := s.Enter();
    assert ExecAll(m, [], u, fuel) == Next(u);
    assert u.scopes[1..] == s.scopes && u.deferred[1..] == s.deferred;
  }

  /** A loop up to the largest number of its type never ends, because the step wraps; the unrolled
      block ends. */
  lemma {:induction false} Endless(m: Meaning, it: Iter, v: int, s: State, fuel: nat)
    requires it.inclusive && it.Fits(v)
    ensures ExecFor(m, it, v, it.most, false, Node(Body, []), s, fuel) == Unfinished
    decreases fuel, it.most - v
  {
    var t := s.Push(map[it.x := v]);
    EmptyRound(m, t, fuel);
    assert t.scopes[1..] == s.scopes;
    if v < it.most {
      assert it.Step(v, false) == v + 1;
      Endless(m, it, v + 1, s, fuel);
    } else if fuel > 0 {
      assert it.Step(v, false) == it.least by {
        assert it.most + 1 - it.least == 1 * (it.most - it.least + 1);
      }
      Endless(m, it, it.least, s, fuel - 1);
    } else {
      assert it.Step(v, false) <= v;
    }
  }

  lemma {:induction false} EmptyCopies(x: string, k: int, hi: int)
    ensures Copies([], x, k, hi) == []
    decreases hi - k
  {
    if k < hi {
      EmptyCopies(x, k + 1, hi);
    }
  }

  /** For all bounds that fit the type of the iterator: every safe body is unrolled rightly exactly
      when the loop counts up and does not visit the largest number of its type. */
  lemma UnrollExactly(m: Meaning, it: Iter, lo: int, hi0: int)
    requires it.Fits(lo) && it.Fits(hi0)
    ensures (forall body, s, fuel :: SafeBody(body, it.x) ==> Same(m, it, lo, hi0, body, s, fuel))
        <==> lo <= hi0 && (it.inclusive ==> hi0 < it.most)
  {
    hide Exec;
    var s := State([], [], 0);
    if hi0 < lo {
      Descending(m, it, lo, hi0, s, 0);
      assert !Same(m, it, lo, hi0, ReturnIt(it.x), s, 0);
    } else if it.inclusive && hi0 == it.most {
      NotAtTheTop(m, it, lo, s);
      assert SafeBody([], it.x);
    } else {
      assert forall v :: Constant(m, Lit(v), v) by { Literals(m); }
      forall body, s, fuel | SafeBody(body, it.x)
        ensures Same(m, it, lo, hi0, body, s, fuel)
      {
        UnrollRight(m, it, Lit(lo), Lit(hi0), lo, hi0, body, s, fuel);
      }
    }
  }

  lemma Literals(m: Meaning)
    ensures forall v :: Constant(m, Lit(v), v)
  {
  }

  lemma NotAtTheTop(m: Meaning, it: Iter, lo: int, s: State)
    requires it.inclusive && it.Fits(lo)
    ensures !Same(m, it, lo, it.most, [], s, 0)
  {
    hide Exec, ExecFor, Copies;
    Literals(m);
    LoopStart(m, it, Lit(lo), Lit(it.most), lo, it.most, [], s, 0);
    Endless(m, it, lo, s, 0);
    EmptyCopies(it.x, lo, it.most + 1);
    EmptyBlock(m, s, 0);
  }

  /** A body whose first statement is deferred. */
  function DeferTick(): seq<Node> {
    [Node(Defer, [Node(Evaluate, [Node(Apply("tick"), [])])])]
  }

  /** A loop of one round. */
  lemma OneRound(m: Meaning, it: Iter, k: int, body: seq<Node>, s: State, fuel: nat)
    requires it.least <= k && k + 1 < it.most
    ensures
      var hi0 := if it.inclusive then k else k + 1;
      var o := Exec(m, Node(Body, body), s.Push(map[it.x := k]), fuel);
      && (o.Next? && o.s.scopes == [map[it.x := k]] + s.scopes ==>
            Exec(m, Loop(it, Lit(k), Lit(hi0), body), s, fuel) == Next(State(s.scopes, o.s.deferred, o.s.world)))
      && (o.Returned? ==> Exec(m, Loop(it, Lit(k), Lit(hi0), body), s, fuel) == o.Pop())
      && Copies(body, it.x, k, Above(hi0, it.inclusive)) == SubstAll(body, it.x, k)
  {
    hide Exec, ExecStep, Copies, SubstAll;
    var hi0 := if it.inclusive then k else k + 1;
    Literals(m);
    LoopStart(m, it, Lit(k), Lit(hi0), k, hi0, body, s, fuel);
    var o := Exec(m, Node(Body, body), s.Push(map[it.x := k]), fuel);
    if o.Next? && o.s.scopes == [map[it.x := k]] + s.scopes {
      NextRound(m, it, k, hi0, Node(Body, body), s.scopes, o.s.deferred, o.s.world, fuel);
    }
    CopiesFirst(body, it.x, k, k + 1);
    NoCopies(body, it.x, k + 1, k + 1);
  }

  /** Why nothing may be deferred at the top of the body: the loop runs it at the end of the round,
      the unrolled block leaves it to whatever surrounds it. */
  lemma DeferMatters(m: Meaning, it: Iter, lo: int, w: int)
    requires it.least <= lo && lo + 1 < it.most && m.apply("tick", [], w) == Some((0, w + 1))
    ensures
      var s := State([], [[]], w);
      var hi0 := if it.inclusive then lo else lo + 1;
      && Exec(m, Loop(it, Lit(lo), Lit(hi0), DeferTick()), s, 1) == Next(State([], [[]], w + 1))
      && Exec(m, Unrolled(it, lo, hi0, DeferTick()), s, 1) == Next(State([], [DeferTick()[0].kids], w))
      && !SafeBody(DeferTick(), it.x)
  {
    hide Exec, DeferTick, SafeAll, Copies, SubstAll;
    var s := State([], [[]], w);
    assert s.Push(map[it.x := lo]) == State([map[it.x := lo]], [[]], w);
    DeferredRound(m, it.x, lo, w);
    OneRound(m, it, lo, DeferTick(), s, 1);
    assert [map[it.x := lo]] == [map[it.x := lo]] + s.scopes;
    DeferredBlock(m, it, lo, w);
    DeferNotSafe(it.x);
  }

  lemma DeferNotSafe(x: string)
    ensures !SafeBody(DeferTick(), x)
  {
  }

  lemma DeferredRound(m: Meaning, x: string, k: int, w: int)
    requires m.apply("tick", [], w) == Some((0, w + 1))
    ensures Exec(m, Node(Body, DeferTick()), State([map[x := k]], [[]], w), 1) == Next(State([map[x := k]], [[]], w + 1))
  {
    hide ExecAll, RunDeferred, DeferTick;
    var t := State([map[x := k]], [[]], w);
    var u := t.Enter();
    assert u.deferred[1..] == [[]] && u.scopes[1..] == t.scopes;
    TickDeferred(m, u, 1);
    var u1 := State(u.scopes, [DeferTick()[0].kids, []], w);
    assert [DeferTick()[0].kids] + [[]] == u1.deferred;
    TickRuns(m, u1);
    assert u1.deferred[1..] == [[]];
    assert Exec(m, Node(Body, DeferTick()), t, 1) == ExecBody(m, DeferTick(), t, 1);
  }

  lemma TickDeferred(m: Meaning, u: State, fuel: nat)
    requires u.deferred != [] && u.deferred[0] == []
    ensures |DeferTick()| == 1 && DeferTick()[0].kids != []
    ensures ExecAll(m, DeferTick(), u, fuel) == Next(State(u.scopes, [DeferTick()[0].kids] + u.deferred[1..], u.world))
  {
    var d := DeferTick()[0].kids[0];
    assert [] + [d] == [d];
    var v := u.(deferred := [[d]] + u.deferred[1..]);
    assert Exec(m, DeferTick()[0], u, fuel) == Next(v);
    assert DeferTick()[1..] == [];
  }

  lemma TickRuns(m: Meaning, u: State)
    requires m.apply("tick", [], u.world) == Some((0, u.world + 1))
    ensures RunDeferred(m, DeferTick()[0].kids, u, 0) == Next(u.(world := u.world + 1))
  {
    var d := DeferTick()[0].kids[0];
    var v := u.(world := u.world + 1);
    assert Eval(m, d.kids[0], u) == Some(Value(0, v.world));
    assert Exec(m, d, u, 0) == Next(v);
    assert [d][..0] == [];
    assert RunDeferred(m, [], v, 0) == Next(v);
  }

  lemma DeferredBlock(m: Meaning, it: Iter, lo: int, w: int)
    ensures |DeferTick()| == 1
    ensures
      var hi0 := if it.inclusive then lo else lo + 1;
      Exec(m, Unrolled(it, lo, hi0, DeferTick()), State([], [[]], w), 1) == Next(State([], [DeferTick()[0].kids], w))
  {
    hide Copies, SubstAll, DeferTick, ExecAll;
    var s := State([], [[]], w);
    DeferUnchanged(it.x, lo);
    CopiesFirst(DeferTick(), it.x, lo, lo + 1);
    NoCopies(DeferTick(), it.x, lo + 1, lo + 1);
    var b := s.Push(map[]);
    assert b.deferred[1..] == [] && b.scopes[1..] == [];
    TickDeferred(m, b, 1);
    assert [DeferTick()[0].kids] + [] == [DeferTick()[0].kids] && DeferTick() + [] == DeferTick();
  }

  lemma DeferUnchanged(x: string, k: int)
    ensures SubstAll(DeferTick(), x, k) == DeferTick()
  {
    var t := Node(Apply("tick"), []);
    var e := Node(Evaluate, [t]);
    var d := Node(Defer, [e]);
    SubstOne(t, x, k);
    SubstOne(e, x, k);
    SubstOne(d, x, k);
    assert Subst(t, x, k) == t;
  }

  /** A block that declares the iterator to be 5 and returns it. */
  function Rebinds(x: string, e: Node): seq<Node> {
    [Node(Body, [Node(Declare(x), [Lit(5)]), Node(Return, [e])])]
  }

  /** If the body declares the iterator again, the substitution does not notice: the loop returns 5
      and the unrolled code the number of the round. */
  lemma RebindingMatters(m: Meaning, it: Iter, lo: int, s: State, fuel: nat)
    requires it.least <= lo && lo + 1 < it.most
    ensures
      var body := Rebinds(it.x, Node(Name(it.x), []));
      var hi0 := if it.inclusive then lo else lo + 1;
      && Exec(m, Loop(it, Lit(lo), Lit(hi0), body), s, fuel) == Returned([5], s)
      && Exec(m, Unrolled(it, lo, hi0, body), s, fuel) == Returned([lo], s)
  {
    hide Exec, Copies, SubstAll, Rebinds;
    var body := Rebinds(it.x, Node(Name(it.x), []));
    var t := s.Push(map[it.x := lo]);
    assert t.scopes[1..] == s.scopes;
    LoopReturnsFive(m, it.x, t, fuel);
    OneRound(m, it, lo, body, s, fuel);
    SubstRebinds(it.x, lo);
    RebindsReturns(m, it.x, Lit(lo), lo, s.Push(map[]), fuel);
    OneInBlock(m, Rebinds(it.x, Lit(lo)), s, [lo], fuel);
  }

  lemma LoopReturnsFive(m: Meaning, x: string, t: State, fuel: nat)
    ensures Exec(m, Node(Body, Rebinds(x, Node(Name(x), []))), t, fuel) == Returned([5], t)
  {
    hide Exec;
    var i := Node(Name(x), []);
    assert Lookup(Declared(t.Enter().Enter(), x, 5).scopes, x) == Some(5);
    RebindsReturns(m, x, i, 5, t.Enter(), fuel);
    OneInBody(m, Rebinds(x, i), t, [5], fuel);
  }

  lemma OneInBlock(m: Meaning, ns: seq<Node>, s: State, vs: seq<int>, fuel: nat)
    requires |ns| == 1 && Exec(m, ns[0], s.Push(map[]), fuel) == Returned(vs, s.Push(map[]))
    ensures Exec(m, Node(Block, ns), s, fuel) == Returned(vs, s)
  {
    assert ExecAll(m, ns, s.Push(map[]), fuel) == Returned(vs, s.Push(map[]));
    assert s.Push(map[]).scopes[1..] == s.scopes;
  }

  lemma OneInBody(m: Meaning, body: seq<Node>, t: State, vs: seq<int>, fuel: nat)
    requires |body| == 1 && Exec(m, body[0], t.Enter(), fuel) == Returned(vs, t.Enter())
    ensures Exec(m, Node(Body, body), t, fuel) == Returned(vs, t)
  {
    assert ExecAll(m, body, t.Enter(), fuel) == Returned(vs, t.Enter());
    assert t.Enter().scopes[1..] == t.scopes && t.Enter().deferred[1..] == t.deferred;
  }

  lemma RebindsReturns(m: Meaning, x: string, e: Node, v: int, s: State, fuel: nat)
    requires Eval(m, e, Declared(s.Enter(), x, 5)) == Some(Value(v, s.world))
    ensures |Rebinds(x, e)| == 1 && Exec(m, Rebinds(x, e)[0], s, fuel) == Returned([v], s)
  {
    var u := s.Enter();
    var u1 := Declared(u, x, 5);
    var ns := Rebinds(x, e)[0].kids;
    DeclaresFive(m, x, u, fuel);
    ReturnsOne(m, e, v, u1, fuel);
    assert ns[1..] == [ns[1]];
    assert ExecAll(m, [ns[1]], u1, fuel) == Returned([v], u1);
    assert ExecAll(m, ns, u, fuel) == Returned([v], u1);
    assert u1.scopes[1..] == s.scopes && u1.deferred[1..] == s.deferred;
  }

  lemma DeclaresFive(m: Meaning, x: string, u: State, fuel: nat)
    requires u.scopes != []
    ensures Exec(m, Node(Declare(x), [Lit(5)]), u, fuel) == Next(Declared(u, x, 5))
  {
    assert u.(world := u.world) == u;
  }

  lemma ReturnsOne(m: Meaning, e: Node, v: int, u: State, fuel: nat)
    requires Eval(m, e, u) == Some(Value(v, u.world))
    ensures Exec(m, Node(Return, [e]), u, fuel) == Returned([v], u)
  {
    assert [e][1..] == [] && [v] + [] == [v] && u.(world := u.world) == u;
    assert EvalAll(m, [], u) == Some(Values([], u.world));
    assert EvalAll(m, [e], u) == Some(Values([v] + [], u.world));
  }

  lemma SubstRebinds(x: string, k: int)
    ensures SubstAll(Rebinds(x, Node(Name(x), [])), x, k) == Rebinds(x, Lit(k))
  {
    var i := Node(Name(x), []);
    var d, r := Node(Declare(x), [Lit(5)]), Node(Return, [i]);
    SubstOne(Lit(5), x, k);
    assert Subst(Lit(5), x, k) == Lit(5);
    SubstOne(i, x, k);
    assert Subst(r, x, k) == Node(Return, [Lit(k)]);
    SubstAppend([d], [r], x, k);
    SubstOne(d, x, k);
    SubstOne(r, x, k);
    assert [d] + [r] == [d, r] && [d] + [Node(Return, [Lit(k)])] == [d, Node(Return, [Lit(k)])];
    SubstOne(Rebinds(x, i)[0], x, k);
  }
}
