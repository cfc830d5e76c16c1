/** Syntax trees and what the statements they stand for do at run time: scopes, loops in both
    directions, deferred statements. */
module Ast {
  import opened Wrappers

  /** The iterator of a `for`: its name, whether the upper bound is visited, and the least and the
      largest number of its type. */
  datatype Iter = Iter(x: string, inclusive: bool, least: int, most: int) {
    predicate Fits(v: int) {
      least <= v <= most
    }

    /** A number cut to the type, which may be signed or not. */
    function Wrap(v: int): int {
      if least > most then v else least + (v - least) % (most - least + 1)
    }

    /** Counting down without the upper bound starts one below it. */
    function Start(lo: int, down: bool): int {
      if inclusive || !down then lo else Wrap(lo - 1)
    }

    predicate Goes(v: int, hi: int, down: bool) {
      if down then v >= hi else if inclusive then v <= hi else v < hi
    }

    function Step(v: int, down: bool): int {
      Wrap(if down then v - 1 else v + 1)
    }
  }

  /** Forms of the syntax tree. `Apply` stands for all expressions that evaluate their parts from
      left to right and combine them; `Sealed` for those that the substitution does not enter.
      `Body` is the list of statements of an `if`, a case, a loop or a function, `Block` a list
      between braces that stands by itself. A `Switch` holds its condition, a value and a body for
      each case, and a body for the rest. */
  datatype Form =
    | Num(k: int)
    | Name(x: string)
    | Apply(op: string)
    | Sealed(op: string)
    | AndAlso
    | OrElse
    | Evaluate
    | Declare(x: string)
    | Bind(xs: seq<string>, declare: bool)
    | Assign
    | If
    | Switch
    | While
    | For(it: Iter)
    | Block
    | Body
    | Defer
    | Return
    | Break
    | Continue

  datatype Node = Node(form: Form, kids: seq<Node>)

  // ----- expressions -----

  /** What operators, calls and stores do, whatever that is. */
  datatype Meaning = Meaning(apply: (string, seq<int>, int) -> Option<(int, int)>)

  /** Variables by scope, innermost first; statements deferred by body, innermost first; the rest of
      the world. */
  datatype State = State(scopes: seq<map<string, int>>, deferred: seq<seq<Node>>, world: int) {
    function Push(scope: map<string, int>): State {
      State([scope] + scopes, deferred, world)
    }

    function Enter(): State {
      State([map[]] + scopes, [[]] + deferred, world)
    }

    function Frame(): seq<Node> {
      if deferred == [] then [] else deferred[0]
    }
  }

  function Lookup(scopes: seq<map<string, int>>, x: string): Option<int> {
    if scopes == [] then None else if x in scopes[0] then Some(scopes[0][x]) else Lookup(scopes[1..], x)
  }

  /** The innermost variable of that name gets a new value. */
  function Store(scopes: seq<map<string, int>>, x: string, v: int): Option<seq<map<string, int>>> {
    if scopes == [] then None
    else if x in scopes[0] then Some([scopes[0][x := v]] + scopes[1..])
    else
      match Store(scopes[1..], x, v)
      case None => None
      case Some(rest) => Some([scopes[0]] + rest)
  }

  datatype Value = Value(v: int, world: int)
  datatype Values = Values(vs: seq<int>, world: int)

  function Eval(m: Meaning, n: Node, s: State): Option<Value>
    decreases n
  {
    match n.form
    case Num(k) => Some(Value(k, s.world))
    case Name(x) => (match Lookup(s.scopes, x) case None => None case Some(v) => Some(Value(v, s.world)))
    case Apply(op) => Combine(m, op, EvalAll(m, n.kids, s))
    case Sealed(op) => Combine(m, op, EvalAll(m, n.kids, s))
    case AndAlso => if |n.kids| != 2 then None else EvalShort(m, n.kids, s, false)
    case OrElse => if |n.kids| != 2 then None else EvalShort(m, n.kids, s, true)
    case _ => None
  }

  function Combine(m: Meaning, op: string, vs: Option<Values>): Option<Value> {
    match vs
    case None => None
    case Some(a) =>
      match m.apply(op, a.vs, a.world)
      case None => None
      case Some(r) => Some(Value(r.0, r.1))
  }

  /** The second operand counts only if the first does not decide. */
  function EvalShort(m: Meaning, kids: seq<Node>, s: State, decides: bool): Option<Value>
    requires |kids| == 2
    decreases kids
  {
    match Eval(m, kids[0], s)
    case None => None
    case Some(a) =>
      if (a.v != 0) == decides then Some(Value(if decides then 1 else 0, a.world))
      else
        match Eval(m, kids[1], s.(world := a.world))
        case None => None
        case Some(b) => Some(Value(if b.v != 0 then 1 else 0, b.world))
  }

  function EvalAll(m: Meaning, ns: seq<Node>, s: State): Option<Values>
    decreases ns
  {
    if ns == [] then Some(Values([], s.world))
    else
      match Eval(m, ns[0], s)
      case None => None
      case Some(a) =>
        match EvalAll(m, ns[1..], s.(world := a.world))
        case None => None
        case Some(b) => Some(Values([a.v] + b.vs, b.world))
  }

  // ----- statements -----

  datatype Outcome = Next(s: State) | Broke(s: State) | Continued(s: State) | Returned(vals: seq<int>, s: State) | Stuck | Unfinished {
    predicate Ended() {
      !Stuck? && !Unfinished?
    }

    function With(t: State): Outcome
      requires Ended()
    {
      this.(s := t)
    }

    /** The innermost scope ends. */
    function Pop(): Outcome {
      if !Ended() then this
      else if s.scopes == [] then Stuck
      else With(State(s.scopes[1..], s.deferred, s.world))
    }

    /** So does the scope of a block that was entered in the state `before`; a variable of the block
        that a statement deferred in it could mention is not modelled. */
    function Close(before: State): Outcome {
      if Ended() && s.scopes != [] && s.scopes[0] != map[] && |s.Frame()| > |before.Frame()| then Stuck else Pop()
    }
  }

  function Exec(m: Meaning, n: Node, s: State, fuel: nat): Outcome
    decreases fuel, n, 0
  {
    match n.form
    case Evaluate =>
      if |n.kids| != 1 then Stuck
      else (match Eval(m, n.kids[0], s) case None => Stuck case Some(a) => Next(s.(world := a.world)))
    case Declare(x) =>
      if |n.kids| != 1 || s.scopes == [] then Stuck
      else
        (match Eval(m, n.kids[0], s)
         case None => Stuck
         case Some(a) => Next(Declared(s.(world := a.world), x, a.v)))
    case Bind(xs, declare) =>
      (match EvalAll(m, n.kids, s)
       case None => Stuck
       case Some(a) => if |a.vs| != |xs| then Stuck else ExecBind(xs, declare, a.vs, s.(world := a.world)))
    case Assign => if |n.kids| != 2 then Stuck else ExecAssign(m, n.kids[0], n.kids[1], s)
    case If =>
      if |n.kids| != 3 then Stuck
      else
        (match Eval(m, n.kids[0], s)
         case None => Stuck
         case Some(a) => Exec(m, if a.v != 0 then n.kids[1] else n.kids[2], s.(world := a.world), fuel))
    case Switch =>
      if |n.kids| == 0 then Stuck
      else
        (match Eval(m, n.kids[0], s)
         case None => Stuck
         case Some(a) => ExecCases(m, a.v, n.kids[1..], s.(world := a.world), fuel))
    case While => if |n.kids| != 2 then Stuck else ExecWhile(m, n.kids[0], n.kids[1], s, fuel)
    case For(it) =>
      if |n.kids| != 3 then Stuck
      else
        (match EvalAll(m, n.kids[..2], s)
         case None => Stuck
         case Some(b) =>
           if |b.vs| != 2 then Stuck
           else
             var lo, hi := it.Wrap(b.vs[0]), it.Wrap(b.vs[1]);
             ExecFor(m, it, it.Start(lo, hi < lo), hi, hi < lo, n.kids[2], s.(world := b.world), fuel))
    case Block => ExecAll(m, n.kids, s.Push(map[]), fuel).Close(s)
    case Body => ExecBody(m, n.kids, s, fuel)
    case Defer =>
      if |n.kids| != 1 || s.deferred == [] then Stuck
      else Next(s.(deferred := [s.deferred[0] + [n.kids[0]]] + s.deferred[1..]))
    case Return => (match EvalAll(m, n.kids, s) case None => Stuck case Some(a) => Returned(a.vs, s.(world := a.world)))
    case Break => Broke(s)
    case Continue => Continued(s)
    case _ => Stuck
  }

  function Declared(s: State, x: string, v: int): State
    requires s.scopes != []
  {
    s.(scopes := [s.scopes[0][x := v]] + s.scopes[1..])
  }

  /** All values are there before the first name is bound. */
  function ExecBind(xs: seq<string>, declare: bool, vs: seq<int>, s: State): Outcome
    requires |xs| == |vs|
  {
    if xs == [] then Next(s)
    else if declare then
      if s.scopes == [] then Stuck else ExecBind(xs[1..], declare, vs[1..], Declared(s, xs[0], vs[0]))
    else
      match Store(s.scopes, xs[0], vs[0])
      case None => Stuck
      case Some(scopes) => ExecBind(xs[1..], declare, vs[1..], s.(scopes := scopes))
  }

  /** A variable, or a place that the store is applied to. */
  function ExecAssign(m: Meaning, l: Node, r: Node, s: State): Outcome {
    match l.form
    case Name(x) =>
      (match Eval(m, r, s)
       case None => Stuck
       case Some(a) =>
         match Store(s.scopes, x, a.v)
         case None => Stuck
         case Some(scopes) => Next(State(scopes, s.deferred, a.world)))
    case Apply(op) =>
      (match Combine(m, "=" + op, EvalAll(m, l.kids + [r], s))
       case None => Stuck
       case Some(a) => Next(s.(world := a.world)))
    case _ => Stuck
  }

  /** The cases in order; what is left at the end is the body for the rest. */
  function ExecCases(m: Meaning, v: int, cases: seq<Node>, s: State, fuel: nat): Outcome
    decreases fuel, cases, 0
  {
    if cases == [] then Next(s)
    else if |cases| == 1 then Exec(m, cases[0], s, fuel)
    else
      match Eval(m, cases[0], s)
      case None => Stuck
      case Some(a) =>
        if a.v == v then Exec(m, cases[1], s.(world := a.world), fuel)
        else ExecCases(m, v, cases[2..], s.(world := a.world), fuel)
  }

  function ExecWhile(m: Meaning, c: Node, body: Node, s: State, fuel: nat): Outcome
    decreases fuel, body, 1
  {
    match Eval(m, c, s)
    case None => Stuck
    case Some(a) =>
      var s1 := s.(world := a.world);
      if a.v == 0 then Next(s1)
      else if fuel == 0 then Unfinished
      else
        match Exec(m, body, s1, fuel - 1)
        case Next(s2) => ExecWhile(m, c, body, s2, fuel - 1)
        case Continued(s2) => ExecWhile(m, c, body, s2, fuel - 1)
        case Broke(s2) => Next(s2)
        case o => o
  }

  /** The loop from the number `v` on. The step starts from what the body has left in the iterator; a
      round costs fuel unless the iterator comes nearer to the bound. */
  function ExecFor(m: Meaning, it: Iter, v: int, hi: int, down: bool, body: Node, s: State, fuel: nat): Outcome
    decreases fuel, body, 1, if down then v - hi else hi - v
  {
    if !it.Goes(v, hi, down) then Next(s)
    else
      var o := Exec(m, body, s.Push(map[it.x := v]), fuel);
      match o
      case Next(t) => ExecStep(m, it, v, hi, down, body, t, fuel)
      case Continued(t) => ExecStep(m, it, v, hi, down, body, t, fuel)
      case Broke(t) => Next(t).Pop()
      case _ => o.Pop()
  }

  function ExecStep(m: Meaning, it: Iter, v: int, hi: int, down: bool, body: Node, t: State, fuel: nat): Outcome
    requires it.Goes(v, hi, down)
    decreases fuel, body, 1, if down then v - hi else hi - v, 0
  {
    if t.scopes == [] || it.x !in t.scopes[0] then Stuck
    else
      var u := it.Step(t.scopes[0][it.x], down);
      var s := t.(scopes := t.scopes[1..]);
      if if down then u < v else v < u then ExecFor(m, it, u, hi, down, body, s, fuel)
      else if fuel == 0 then Unfinished
      else ExecFor(m, it, u, hi, down, body, s, fuel - 1)
  }

  /** However a body is left, what was deferred in it runs first, the last statement first. */
  function ExecBody(m: Meaning, ns: seq<Node>, s: State, fuel: nat): Outcome
    decreases fuel, ns, 1
  {
    var o := ExecAll(m, ns, s.Enter(), fuel);
    if !o.Ended() then o
    else if o.s.Frame() == [] then Leave(o, o.s)
    else if fuel == 0 then Unfinished
    else
      match RunDeferred(m, o.s.Frame(), o.s, fuel - 1)
      case Next(t) => Leave(o, t)
      case Unfinished => Unfinished
      case _ => Stuck
  }

  function Leave(o: Outcome, t: State): Outcome
    requires o.Ended()
  {
    if t.scopes == [] || t.deferred == [] then Stuck else o.With(State(t.scopes[1..], t.deferred[1..], t.world))
  }

  function RunDeferred(m: Meaning, frame: seq<Node>, s: State, fuel: nat): Outcome
    decreases fuel, frame, 0
  {
    if frame == [] then Next(s)
    else
      match Exec(m, frame[|frame| - 1], s, fuel)
      case Next(t) => RunDeferred(m, frame[..|frame| - 1], t, fuel)
      case Unfinished => Unfinished
      case _ => Stuck
  }

  function ExecAll(m: Meaning, ns: seq<Node>, s: State, fuel: nat): Outcome
    decreases fuel, ns, 0
  {
    if ns == [] then Next(s)
    else
      match Exec(m, ns[0], s, fuel)
      case Next(s2) => ExecAll(m, ns[1..], s2, fuel)
      case o => o
  }

  lemma {:induction false} ExecAllAppend(m: Meaning, a: seq<Node>, b: seq<Node>, s: State, fuel: nat)
    ensures ExecAll(m, a + b, s, fuel) ==
      var o := ExecAll(m, a, s, fuel);
      if o.Next? then ExecAll(m, b, o.s, fuel) else o
  {
    if a == [] {
      assert a + b == b;
    } else {
      assert (a + b)[0] == a[0] && (a + b)[1..] == a[1..] + b;
      var o := Exec(m, a[0], s, fuel);
      if o.Next? {
        ExecAllAppend(m, a[1..], b, o.s, fuel);
      }
    }
  }
}
