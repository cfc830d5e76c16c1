/** A pack fold becomes nested operators. */
module PackFolds {
  import opened Wrappers
  import opened Ast

  function Joined(op: string, l: Node, r: Node): Node {
    Node(if op == "&&" then AndAlso else if op == "||" then OrElse else Apply(op), [l, r])
  }

  /** The elements combined from the right. */
  function Nested(op: string, es: seq<Node>): Node
    requires es != []
  {
    if |es| == 1 then es[0] else Joined(op, es[0], Nested(op, es[1..]))
  }

  /** The operator computes `f` and leaves the world alone. */
  ghost predicate Pure(m: Meaning, op: string, f: (int, int) -> int) {
    forall a, b, w :: m.apply(op, [a, b], w) == Some((f(a, b), w))
  }

  /** The elements have these values, and leave the world alone. */
  ghost predicate Worth(m: Meaning, es: seq<Node>, vs: seq<int>, s: State) {
    |es| == |vs| && forall i :: 0 <= i < |es| ==> Eval(m, es[i], s) == Some(Value(vs[i], s.world))
  }

  /** `x` is what is left of `vs` when the last two numbers are combined again and again. */
  ghost predicate RightFold(f: (int, int) -> int, vs: seq<int>, x: int) {
    exists acc: seq<int> :: Partial(f, vs, acc) && acc[0] == x
  }

  /** `acc[k]` is the fold of the numbers from `k` on. */
  ghost predicate Partial(f: (int, int) -> int, vs: seq<int>, acc: seq<int>) {
    && |acc| == |vs| > 0 && acc[|vs| - 1] == vs[|vs| - 1]
    && forall k :: 0 <= k < |vs| - 1 ==> acc[k] == f(vs[k], acc[k + 1])
  }

  ghost predicate AllTrue(vs: seq<int>) {
    forall i :: 0 <= i < |vs| ==> vs[i] != 0
  }

  ghost predicate SomeTrue(vs: seq<int>) {
    exists i :: 0 <= i < |vs| && vs[i] != 0
  }

  /** What a fold with `op` over elements of the values `vs` is worth: whether all or some of them
      are true, the right fold of any other operator, and a single element as it is. */
  ghost predicate Folded(m: Meaning, op: string, vs: seq<int>, s: State, r: Node) {
    if |vs| == 1 then Eval(m, r, s) == Some(Value(vs[0], s.world))
    else if op == "&&" then Eval(m, r, s) == Some(Value(if AllTrue(vs) then 1 else 0, s.world))
    else if op == "||" then Eval(m, r, s) == Some(Value(if SomeTrue(vs) then 1 else 0, s.world))
    else
      forall f :: Pure(m, op, f) ==>
        match Eval(m, r, s)
        case None => false
        case Some(a) => a.world == s.world && RightFold(f, vs, a.v)
  }

  /** `(pack op ...)`: only `&&` and `||` have a value for the empty pack, and more than 64 elements
      are refused. */
  method PackFold(op: string, es: seq<Node>) returns (r: Option<Node>)
    ensures r.None? <==> |es| > 64 || (es == [] && op != "&&" && op != "||")
    ensures r.Some? ==> forall m: Meaning, vs: seq<int>, s: State :: Worth(m, es, vs, s) ==> Folded(m, op, vs, s, r.value)
  {
    hide Folded;
    var n := |es|;
    if n == 0 {
      r := if op == "&&" then Some(Node(Num(1), [])) else if op == "||" then Some(Node(Num(0), [])) else None;
      if r.Some? {
        EmptyFolded(op, r.value);
      }
      return;
    }
    if n > 64 {
      return None;
    }
    var acc := es[n - 1];
    var k := n - 2;
    assert es[n - 1..] == [es[n - 1]];
    while k >= 0
      invariant -1 <= k <= n - 2 && acc == Nested(op, es[k + 1..])
    {
      assert es[k..][0] == es[k] && es[k..][1..] == es[k + 1..];
      acc := Joined(op, es[k], acc);
      k := k - 1;
    }
    assert es[0..] == es;
    r := Some(acc);
    forall m: Meaning, vs: seq<int>, s: State | Worth(m, es, vs, s)
      ensures Folded(m, op, vs, s, acc)
    {
      NestedFolded(m, op, es, vs, s);
    }
  }

  lemma NotTheSame()
    ensures "&&" != "||"
  {
    assert "&&"[0] != "||"[0];
  }

  lemma EmptyFolded(op: string, r: Node)
    requires r == if op == "&&" then Node(Num(1), []) else Node(Num(0), [])
    requires op == "&&" || op == "||"
    ensures forall m: Meaning, vs: seq<int>, s: State :: Worth(m, [], vs, s) ==> Folded(m, op, vs, s, r)
  {
    NotTheSame();
  }

  /** The nested operators are worth the fold. */
  lemma NestedFolded(m: Meaning, op: string, es: seq<Node>, vs: seq<int>, s: State)
    requires es != [] && Worth(m, es, vs, s)
    ensures Folded(m, op, vs, s, Nested(op, es))
  {
    NotTheSame();
    if |es| > 1 {
      if op == "&&" || op == "||" {
        FoldShort(m, es, vs, s);
      } else {
        forall f | Pure(m, op, f)
          ensures
            match Eval(m, Nested(op, es), s)
            case None => false
            case Some(a) => a.world == s.world && RightFold(f, vs, a.v)
        {
          FoldApply(m, op, f, es, vs, s);
        }
      }
    }
  }

  lemma {:induction false} FoldApply(m: Meaning, op: string, f: (int, int) -> int, es: seq<Node>, vs: seq<int>, s: State)
    requires es != [] && Worth(m, es, vs, s) && Pure(m, op, f) && op != "&&" && op != "||"
    ensures
      match Eval(m, Nested(op, es), s)
      case None => false
      case Some(a) => a.world == s.world && RightFold(f, vs, a.v)
    decreases |es|
  {
    if |es| == 1 {
      assert Partial(f, vs, [vs[0]]);
    } else {
      var r := Nested(op, es[1..]);
      FoldApply(m, op, f, es[1..], vs[1..], s);
      var a, b := vs[0], Eval(m, r, s).value.v;
      assert s.(world := s.world) == s;
      assert [es[0], r][1..] == [r] && [r][1..] == [];
      assert EvalAll(m, [r], s) == Some(Values([b] + [], s.world));
      assert EvalAll(m, [es[0], r], s) == Some(Values([a] + ([b] + []), s.world));
      assert [a] + ([b] + []) == [a, b];
      assert m.apply(op, [a, b], s.world) == Some((f(a, b), s.world));
      FoldOneMore(f, vs, b);
    }
  }

  lemma FoldOneMore(f: (int, int) -> int, vs: seq<int>, b: int)
    requires |vs| > 1 && RightFold(f, vs[1..], b)
    ensures RightFold(f, vs, f(vs[0], b))
  {
    var rest := vs[1..];
    var acc: seq<int> :| Partial(f, rest, acc) && acc[0] == b;
    var all := [f(vs[0], b)] + acc;
    forall k | 0 <= k < |vs| - 1
      ensures all[k] == f(vs[k], all[k + 1])
    {
      assert k > 0 ==> all[k] == acc[k - 1] && vs[k] == rest[k - 1];
    }
    assert Partial(f, vs, all);
  }

  lemma {:induction false} FoldShort(m: Meaning, es: seq<Node>, vs: seq<int>, s: State)
    requires Worth(m, es, vs, s) && |es| > 1
    ensures Eval(m, Nested("&&", es), s) == Some(Value(if AllTrue(vs) then 1 else 0, s.world))
    ensures Eval(m, Nested("||", es), s) == Some(Value(if SomeTrue(vs) then 1 else 0, s.world))
    decreases |es|
  {
    NotTheSame();
    assert s.(world := s.world) == s;
    var xs := vs[1..];
    assert forall i :: 0 <= i < |xs| ==> xs[i] == vs[i + 1];
    assert AllTrue(vs) <==> vs[0] != 0 && AllTrue(xs) by {
      assert forall i :: 0 < i < |vs| ==> vs[i] == xs[i - 1];
    }
    assert SomeTrue(vs) <==> vs[0] != 0 || SomeTrue(xs) by {
      assert forall i :: 0 < i < |vs| ==> vs[i] == xs[i - 1];
    }
    if |es| > 2 {
      FoldShort(m, es[1..], xs, s);
    } else {
      assert xs == [vs[1]];
    }
  }
}
