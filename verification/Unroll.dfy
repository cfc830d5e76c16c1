/** Compile-time loops: `#for` is unrolled by copying its body and putting the number of the round
    in place of the iterator. */
module Unroll {
  import opened Wrappers
  import opened Ast

  // ----- the transformation -----

  /** What ST_ast_substitute_expr and ST_ast_substitute_stmt make of a tree. */
  function Subst(n: Node, x: string, k: int): Node
    decreases n
  {
    if n.form == Name(x) then Node(Num(k), [])
    else if n.form.Sealed? then n
    else Node(n.form, SubstAll(n.kids, x, k))
  }

  function SubstAll(ns: seq<Node>, x: string, k: int): (r: seq<Node>)
    ensures |r| == |ns|
    decreases ns
  {
    if ns == [] then [] else [Subst(ns[0], x, k)] + SubstAll(ns[1..], x, k)
  }

  /** The statements of the rounds from `k` up to below `hi`. */
  function Copies(body: seq<Node>, x: string, k: int, hi: int): seq<Node>
    decreases hi - k
  {
    if k >= hi then [] else SubstAll(body, x, k) + Copies(body, x, k + 1, hi)
  }

  /** The bound that the unrolled rounds stay below. */
  function Above(hi0: int, inclusive: bool): int {
    if inclusive then hi0 + 1 else hi0
  }

  lemma {:induction false} SubstAt(ns: seq<Node>, x: string, k: int, i: nat)
    requires i < |ns|
    ensures SubstAll(ns, x, k)[i] == Subst(ns[i], x, k)
  {
    if i > 0 {
      SubstAt(ns[1..], x, k, i - 1);
    }
  }

  lemma {:induction false} SubstAppend(a: seq<Node>, b: seq<Node>, x: string, k: int)
    ensures SubstAll(a + b, x, k) == SubstAll(a, x, k) + SubstAll(b, x, k)
  {
    if a == [] {
      assert a + b == b;
    } else {
      assert (a + b)[1..] == a[1..] + b;
      SubstAppend(a[1..], b, x, k);
    }
  }

  lemma SubstOne(n: Node, x: string, k: int)
    ensures SubstAll([n], x, k) == [Subst(n, x, k)]
  {
  }

  lemma SubstPrefix(ns: seq<Node>, x: string, k: int, i: nat)
    requires i <= |ns|
    ensures SubstAll(ns[..i], x, k) == SubstAll(ns, x, k)[..i] && SubstAll(ns[i..], x, k) == SubstAll(ns, x, k)[i..]
  {
    assert ns == ns[..i] + ns[i..];
    SubstAppend(ns[..i], ns[i..], x, k);
  }

  lemma {:induction false} CopiesAppend(body: seq<Node>, x: string, lo: int, k: int)
    requires lo <= k
    ensures Copies(body, x, lo, k + 1) == Copies(body, x, lo, k) + SubstAll(body, x, k)
    decreases k - lo
  {
    if lo < k {
      CopiesAppend(body, x, lo + 1, k);
    } else {
      assert Copies(body, x, k + 1, k + 1) == [];
    }
  }

  // ----- the bodies that may be unrolled -----

  predicate Mentions(n: Node, x: string)
    decreases n
  {
    n.form == Name(x) || MentionsAny(n.kids, x)
  }

  predicate MentionsAny(ns: seq<Node>, x: string)
    decreases ns
  {
    ns != [] && (Mentions(ns[0], x) || MentionsAny(ns[1..], x))
  }

  /** Where a statement stands: in the scope of the unrolled body itself, in a loop inside it, in a
      body inside it, whose end runs what is deferred there. */
  datatype Place = Place(top: bool, looped: bool, framed: bool) {
    function Into(f: Form): Place {
      match f
      case Block => Place(false, looped, framed)
      case Body => Place(false, looped, true)
      case While => Place(top, true, framed)
      case For(_) => Place(false, true, framed)
      case Defer => AtTheEnd()
      case _ => this
    }

    /** A deferred statement runs at the end of a body. */
    static function AtTheEnd(): Place {
      Place(false, true, true)
    }
  }

  /** The iterator `x` is not declared again, assigned, or mentioned where the substitution does
      not go; nothing is declared or deferred at the top of the body, and nothing leaves the loop
      except by returning. */
  predicate Safe(n: Node, x: string, p: Place)
    decreases n
  {
    && n.form != Declare(x) && !(n.form.For? && n.form.it.x == x) && !(n.form.Bind? && x in n.form.xs)
    && (p.top ==> !n.form.Declare? && !(n.form.Bind? && n.form.declare))
    && (!p.looped ==> !n.form.Break? && !n.form.Continue?)
    && (!p.framed ==> !n.form.Defer?)
    && (n.form.Assign? && |n.kids| > 0 ==> n.kids[0].form != Name(x))
    && (n.form.Sealed? ==> !Mentions(n, x))
    && SafeAll(n.kids, x, p.Into(n.form))
  }

  predicate SafeAll(ns: seq<Node>, x: string, p: Place)
    decreases ns
  {
    ns == [] || (Safe(ns[0], x, p) && SafeAll(ns[1..], x, p))
  }

  /** The body of a `#for` stands in no loop or body of its own. */
  predicate SafeBody(body: seq<Node>, x: string) {
    SafeAll(body, x, Place(true, false, false))
  }

  lemma {:induction false} SafeAt(ns: seq<Node>, x: string, p: Place, i: nat)
    requires SafeAll(ns, x, p) && i < |ns|
    ensures Safe(ns[i], x, p)
  {
    if i > 0 {
      SafeAt(ns[1..], x, p, i - 1);
    }
  }

  lemma {:induction false} SafeAppend(a: seq<Node>, b: seq<Node>, x: string, p: Place)
    ensures SafeAll(a + b, x, p) <==> SafeAll(a, x, p) && SafeAll(b, x, p)
  {
    if a == [] {
      assert a + b == b;
    } else {
      assert (a + b)[1..] == a[1..] + b;
      SafeAppend(a[1..], b, x, p);
    }
  }

  lemma SafeParts(ns: seq<Node>, x: string, p: Place, i: nat)
    requires SafeAll(ns, x, p) && i <= |ns|
    ensures SafeAll(ns[..i], x, p) && SafeAll(ns[i..], x, p)
  {
    assert ns == ns[..i] + ns[i..];
    SafeAppend(ns[..i], ns[i..], x, p);
  }

  // ----- the states of a round -----

  /** A round of the loop has two scopes where the unrolled code has one: that of the iterator and
      that of the body, which stays empty; and it has a list of deferred statements more, which
      stays empty as well. Above them are `j` scopes and `d` lists of what stands inside the body;
      below are the lists `rest`, which the round leaves alone. */
  datatype Ctx = Ctx(j: nat, d: nat, x: string, k: int, rest: seq<seq<Node>>) {
    function Up(): Ctx {
      this.(j := j + 1)
    }

    function UpBoth(): Ctx {
      this.(j := j + 1, d := d + 1)
    }
  }

  ghost predicate Scopes(a: seq<map<string, int>>, b: seq<map<string, int>>, j: nat, x: string, k: int) {
    && a != [] && b != []
    && if j == 0 then b[0] == map[] && a == [map[], map[x := k]] + b[1..]
       else a[0] == b[0] && x !in b[0] && Scopes(a[1..], b[1..], j - 1, x, k)
  }

  ghost predicate Frames(a: seq<seq<Node>>, b: seq<seq<Node>>, d: nat, c: Ctx) {
    if d == 0 then b == c.rest && a == [[]] + b
    else
      && a != [] && b != [] && b[0] == SubstAll(a[0], c.x, c.k) && SafeAll(a[0], c.x, Place.AtTheEnd())
      && Frames(a[1..], b[1..], d - 1, c)
  }

  ghost predicate Round(a: State, b: State, c: Ctx) {
    && a.world == b.world && c.d <= c.j
    && Scopes(a.scopes, b.scopes, c.j, c.x, c.k)
    && Frames(a.deferred, b.deferred, c.d, c)
  }

  lemma {:induction false} FramesCtx(a: seq<seq<Node>>, b: seq<seq<Node>>, d: nat, c: Ctx, c': Ctx)
    requires Frames(a, b, d, c) && c.x == c'.x && c.k == c'.k && c.rest == c'.rest
    ensures Frames(a, b, d, c')
    decreases d
  {
    if d > 0 {
      FramesCtx(a[1..], b[1..], d - 1, c, c');
    }
  }

  lemma RoundWorld(a: State, b: State, c: Ctx)
    requires Round(a, b, c)
    ensures forall w :: Round(a.(world := w), b.(world := w), c)
  {
  }

  lemma RoundPush(a: State, b: State, c: Ctx, scope: map<string, int>)
    requires Round(a, b, c) && c.x !in scope
    ensures Round(a.Push(scope), b.Push(scope), c.Up())
  {
    assert ([scope] + a.scopes)[1..] == a.scopes && ([scope] + b.scopes)[1..] == b.scopes;
    FramesCtx(a.deferred, b.deferred, c.d, c, c.Up());
  }

  lemma RoundEnter(a: State, b: State, c: Ctx)
    requires Round(a, b, c)
    ensures Round(a.Enter(), b.Enter(), c.UpBoth())
  {
    assert ([map[]] + a.scopes)[1..] == a.scopes && ([map[]] + b.scopes)[1..] == b.scopes;
    assert ([[]] + a.deferred)[1..] == a.deferred && ([[]] + b.deferred)[1..] == b.deferred;
    FramesCtx(a.deferred, b.deferred, c.d, c, c.UpBoth());
  }

  /** Leaving the innermost scope. */
  lemma RoundTail(a: State, b: State, c: Ctx)
    requires Round(a, b, c.Up()) && c.d <= c.j
    ensures a.scopes != [] && b.scopes != [] && a.scopes[0] == b.scopes[0] && c.x !in b.scopes[0]
    ensures Round(a.(scopes := a.scopes[1..]), b.(scopes := b.scopes[1..]), c)
  {
    FramesCtx(a.deferred, b.deferred, c.d, c.Up(), c);
  }

  lemma RoundLeave(a: State, b: State, c: Ctx)
    requires Round(a, b, c.UpBoth())
    ensures a.scopes != [] && b.scopes != [] && a.deferred != [] && b.deferred != []
    ensures Round(State(a.scopes[1..], a.deferred[1..], a.world), State(b.scopes[1..], b.deferred[1..], b.world), c)
  {
    FramesCtx(a.deferred[1..], b.deferred[1..], c.d, c.UpBoth(), c);
  }

  lemma RoundScopes(a: State, b: State, c: Ctx)
    requires Round(a, b, c)
    ensures a.scopes != [] && b.scopes != []
    ensures c.j > 0 ==> a.scopes[0] == b.scopes[0] && c.x !in b.scopes[0]
  {
  }

  /** What the innermost body has deferred. */
  lemma RoundFrame(a: State, b: State, c: Ctx)
    requires Round(a, b, c)
    ensures c.d > 0 ==> b.Frame() == SubstAll(a.Frame(), c.x, c.k) && SafeAll(a.Frame(), c.x, Place.AtTheEnd())
    ensures c.d > 0 ==> a.deferred != [] && b.deferred != [] && c.j > 0
    ensures c.d == 0 ==> a.Frame() == [] && b.deferred == c.rest
  {
  }

  lemma RoundDefer(a: State, b: State, c: Ctx, n: Node)
    requires Round(a, b, c) && c.d > 0 && Safe(n, c.x, Place.AtTheEnd())
    ensures a.deferred != [] && b.deferred != []
    ensures Round(a.(deferred := [a.deferred[0] + [n]] + a.deferred[1..]),
                  b.(deferred := [b.deferred[0] + [Subst(n, c.x, c.k)]] + b.deferred[1..]), c)
  {
    SubstAppend(a.deferred[0], [n], c.x, c.k);
    SubstOne(n, c.x, c.k);
    SafeAppend(a.deferred[0], [n], c.x, Place.AtTheEnd());
    assert [n][1..] == [];
    var fa, fb := [a.deferred[0] + [n]] + a.deferred[1..], [b.deferred[0] + [Subst(n, c.x, c.k)]] + b.deferred[1..];
    assert fa[1..] == a.deferred[1..] && fb[1..] == b.deferred[1..];
  }

  // ----- expressions -----

  lemma {:induction false} LookupRound(a: seq<map<string, int>>, b: seq<map<string, int>>, j: nat, x: string, k: int, y: string)
    requires Scopes(a, b, j, x, k)
    ensures Lookup(a, y) == if y == x then Some(k) else Lookup(b, y)
    decreases j
  {
    if j > 0 {
      LookupRound(a[1..], b[1..], j - 1, x, k, y);
    } else {
      assert a[1..] == [map[x := k]] + b[1..];
      assert a[1..][1..] == b[1..];
    }
  }

  lemma {:induction false} EvalUnmentioned(m: Meaning, n: Node, a: State, b: State, c: Ctx)
    requires Round(a, b, c) && !Mentions(n, c.x)
    ensures Eval(m, n, a) == Eval(m, n, b)
    decreases n
  {
    match n.form
    case Name(y) => LookupRound(a.scopes, b.scopes, c.j, c.x, c.k, y);
    case Apply(op) => EvalAllUnmentioned(m, n.kids, a, b, c);
    case Sealed(op) => EvalAllUnmentioned(m, n.kids, a, b, c);
    case AndAlso => if |n.kids| == 2 { ShortUnmentioned(m, n.kids, a, b, c, false); }
    case OrElse => if |n.kids| == 2 { ShortUnmentioned(m, n.kids, a, b, c, true); }
    case _ =>
  }

  lemma {:induction false} ShortUnmentioned(m: Meaning, ns: seq<Node>, a: State, b: State, c: Ctx, decides: bool)
    requires Round(a, b, c) && |ns| == 2 && !MentionsAny(ns, c.x)
    ensures EvalShort(m, ns, a, decides) == EvalShort(m, ns, b, decides)
    decreases ns
  {
    assert ns[1..][0] == ns[1];
    EvalUnmentioned(m, ns[0], a, b, c);
    var r := Eval(m, ns[0], a);
    if r.Some? {
      EvalUnmentioned(m, ns[1], a.(world := r.value.world), b.(world := r.value.world), c);
    }
  }

  lemma {:induction false} EvalAllUnmentioned(m: Meaning, ns: seq<Node>, a: State, b: State, c: Ctx)
    requires Round(a, b, c) && !MentionsAny(ns, c.x)
    ensures EvalAll(m, ns, a) == EvalAll(m, ns, b)
    decreases ns
  {
    if ns != [] {
      EvalUnmentioned(m, ns[0], a, b, c);
      var r := Eval(m, ns[0], a);
      if r.Some? {
        EvalAllUnmentioned(m, ns[1..], a.(world := r.value.world), b.(world := r.value.world), c);
      }
    }
  }

  /** An expression with the number in place of the iterator has the same value. */
  lemma {:induction false} EvalSubst(m: Meaning, n: Node, a: State, b: State, c: Ctx, p: Place)
    requires Round(a, b, c) && Safe(n, c.x, p)
    ensures Eval(m, n, a) == Eval(m, Subst(n, c.x, c.k), b)
    decreases n
  {
    match n.form
    case Name(y) => LookupRound(a.scopes, b.scopes, c.j, c.x, c.k, y);
    case Apply(op) => EvalAllSubst(m, n.kids, a, b, c, p);
    case Sealed(op) => EvalUnmentioned(m, n, a, b, c);
    case AndAlso => if |n.kids| == 2 { ShortSubst(m, n.kids, a, b, c, p, false); }
    case OrElse => if |n.kids| == 2 { ShortSubst(m, n.kids, a, b, c, p, true); }
    case _ =>
  }

  lemma {:induction false} ShortSubst(m: Meaning, ns: seq<Node>, a: State, b: State, c: Ctx, p: Place, decides: bool)
    requires Round(a, b, c) && |ns| == 2 && SafeAll(ns, c.x, p)
    ensures EvalShort(m, ns, a, decides) == EvalShort(m, SubstAll(ns, c.x, c.k), b, decides)
    decreases ns
  {
    SafeAt(ns, c.x, p, 1);
    SubstAt(ns, c.x, c.k, 1);
    EvalSubst(m, ns[0], a, b, c, p);
    var r := Eval(m, ns[0], a);
    if r.Some? {
      EvalSubst(m, ns[1], a.(world := r.value.world), b.(world := r.value.world), c, p);
    }
  }

  lemma {:induction false} EvalAllSubst(m: Meaning, ns: seq<Node>, a: State, b: State, c: Ctx, p: Place)
    requires Round(a, b, c) && SafeAll(ns, c.x, p)
    ensures EvalAll(m, ns, a) == EvalAll(m, SubstAll(ns, c.x, c.k), b)
    decreases ns
  {
    if ns != [] {
      EvalSubst(m, ns[0], a, b, c, p);
      var r := Eval(m, ns[0], a);
      assert SubstAll(ns, c.x, c.k)[1..] == SubstAll(ns[1..], c.x, c.k);
      if r.Some? {
        EvalAllSubst(m, ns[1..], a.(world := r.value.world), b.(world := r.value.world), c, p);
      }
    }
  }

  // ----- stores -----

  lemma {:induction false} StoreScopes(a: seq<map<string, int>>, b: seq<map<string, int>>, j: nat, x: string, k: int, y: string, v: int)
    requires Scopes(a, b, j, x, k) && y != x
    ensures
      match Store(b, y, v)
      case None => Store(a, y, v).None?
      case Some(b') => Store(a, y, v).Some? && Scopes(Store(a, y, v).value, b', j, x, k)
    decreases j
  {
    if j > 0 {
      if y in b[0] {
        assert ([a[0][y := v]] + a[1..])[1..] == a[1..] && ([b[0][y := v]] + b[1..])[1..] == b[1..];
      } else {
        StoreScopes(a[1..], b[1..], j - 1, x, k, y, v);
        var r := Store(b[1..], y, v);
        if r.Some? {
          var t := Store(a[1..], y, v).value;
          assert ([a[0]] + t)[1..] == t && ([b[0]] + r.value)[1..] == r.value;
        }
      }
    } else {
      StoreBelow(a, b, x, k, y, v);
    }
  }

  lemma StoreBelow(a: seq<map<string, int>>, b: seq<map<string, int>>, x: string, k: int, y: string, v: int)
    requires Scopes(a, b, 0, x, k) && y != x
    ensures
      match Store(b, y, v)
      case None => Store(a, y, v).None?
      case Some(b') => Store(a, y, v).Some? && Scopes(Store(a, y, v).value, b', 0, x, k)
  {
    var rest := b[1..];
    assert a[0] == map[] && a[1..] == [map[x := k]] + rest;
    assert a[1..][1..] == rest;
    var r := Store(rest, y, v);
    if r.Some? {
      assert Store(a, y, v) == Some([map[]] + ([map[x := k]] + r.value));
      assert [map[]] + ([map[x := k]] + r.value) == [map[], map[x := k]] + r.value;
      assert ([map[]] + r.value)[1..] == r.value;
    }
  }

  lemma StoreRound(a: State, b: State, c: Ctx, y: string, v: int)
    requires Round(a, b, c) && y != c.x
    ensures
      match Store(b.scopes, y, v)
      case None => Store(a.scopes, y, v).None?
      case Some(b') => Store(a.scopes, y, v).Some? && Round(a.(scopes := Store(a.scopes, y, v).value), b.(scopes := b'), c)
  {
    StoreScopes(a.scopes, b.scopes, c.j, c.x, c.k, y, v);
  }

  lemma DeclareRound(a: State, b: State, c: Ctx, y: string, v: int)
    requires Round(a, b, c) && y != c.x && c.j > 0
    ensures a.scopes != [] && b.scopes != [] && Round(Declared(a, y, v), Declared(b, y, v), c)
  {
    var sa, sb := Declared(a, y, v).scopes, Declared(b, y, v).scopes;
    assert sa[1..] == a.scopes[1..] && sb[1..] == b.scopes[1..];
  }

  // ----- statements -----

  /** The two runs end in the same way, in related states; only loops may be left by `break` and
      `continue`. */
  ghost predicate Alike(oa: Outcome, ob: Outcome, c: Ctx, looped: bool) {
    match ob
    case Next(b) => oa.Next? && Round(oa.s, b, c)
    case Broke(b) => looped && oa.Broke? && Round(oa.s, b, c)
    case Continued(b) => looped && oa.Continued? && Round(oa.s, b, c)
    case Returned(vs, b) => oa.Returned? && oa.vals == vs && Round(oa.s, b, c)
    case _ => oa == ob
  }

  lemma AlikePop(oa: Outcome, ob: Outcome, c: Ctx, looped: bool)
    requires Alike(oa, ob, c.Up(), looped) && c.d <= c.j
    ensures Alike(oa.Pop(), ob.Pop(), c, looped)
  {
    if ob.Ended() {
      RoundTail(oa.s, ob.s, c);
    }
  }

  lemma AlikeClose(oa: Outcome, ob: Outcome, a: State, b: State, c: Ctx, looped: bool)
    requires Round(a, b, c) && Alike(oa, ob, c.Up(), looped)
    ensures Alike(oa.Close(a), ob.Close(b), c, looped)
  {
    AlikePop(oa, ob, c, looped);
    if ob.Ended() {
      RoundScopes(oa.s, ob.s, c.Up());
      RoundFrame(a, b, c);
      RoundFrame(oa.s, ob.s, c.Up());
    }
  }

  lemma AlikeLeave(oa: Outcome, ob: Outcome, a: State, b: State, c: Ctx, looped: bool)
    requires Alike(oa, ob, c.UpBoth(), looped) && oa.Ended() && ob.Ended() && Round(a, b, c.UpBoth())
    ensures Alike(Leave(oa, a), Leave(ob, b), c, looped)
  {
    RoundLeave(a, b, c);
  }

  /** A loop is not left by `break` or `continue`. */
  lemma OnlyLoops(oa: Outcome, ob: Outcome, c: Ctx, looped: bool)
    requires Alike(oa, ob, c, true) && !ob.Broke? && !ob.Continued?
    ensures Alike(oa, ob, c, looped)
  {
  }

  /** The place fits the states: a declaration needs a scope, a deferred statement a list. */
  predicate Here(p: Place, c: Ctx) {
    (p.top || c.j > 0) && (p.framed ==> c.d > 0)
  }

  /** A statement of the body, with the number in place of the iterator, does the same. */
  lemma {:induction false} ExecSubst(m: Meaning, n: Node, a: State, b: State, c: Ctx, p: Place, fuel: nat)
    requires Round(a, b, c) && Safe(n, c.x, p) && Here(p, c)
    ensures Alike(Exec(m, n, a, fuel), Exec(m, Subst(n, c.x, c.k), b, fuel), c, p.looped)
    decreases fuel, n, 1
  {
    hide Round, EvalShort, ExecWhile, ExecFor, ExecBody, ExecCases, ExecAssign, ExecBind, Outcome.Close;
    match n.form
    case Evaluate => EvaluateCase(m, n, a, b, c, p, fuel);
    case Declare(y) => DeclareCase(m, n, a, b, c, p, fuel);
    case Bind(xs, declare) => BindCase(m, n, a, b, c, p, fuel);
    case Assign => AssignCase(m, n, a, b, c, p, fuel);
    case If => IfCase(m, n, a, b, c, p, fuel);
    case Switch => SwitchCase(m, n, a, b, c, p, fuel);
    case While => WhileCase(m, n, a, b, c, p, fuel);
    case For(it) => ForCase(m, n, a, b, c, p, fuel);
    case Block =>
      RoundPush(a, b, c, map[]);
      ExecAllSubst(m, n.kids, a.Push(map[]), b.Push(map[]), c.Up(), p.Into(Block), fuel);
      AlikeClose(ExecAll(m, n.kids, a.Push(map[]), fuel), ExecAll(m, SubstAll(n.kids, c.x, c.k), b.Push(map[]), fuel),
                 a, b, c, p.looped);
    case Body => BodySubst(m, n.kids, a, b, c, p, fuel);
    case Defer => DeferCase(m, n, a, b, c, p, fuel);
    case Return =>
      EvalAllSubst(m, n.kids, a, b, c, p);
      RoundWorld(a, b, c);
    case _ =>
  }

  lemma EvaluateCase(m: Meaning, n: Node, a: State, b: State, c: Ctx, p: Place, fuel: nat)
    requires Round(a, b, c) && n.form.Evaluate? && Safe(n, c.x, p)
    ensures Alike(Exec(m, n, a, fuel), Exec(m, Subst(n, c.x, c.k), b, fuel), c, p.looped)
  {
    hide Round;
    if |n.kids| == 1 {
      EvalSubst(m, n.kids[0], a, b, c, p);
      RoundWorld(a, b, c);
    }
  }

  lemma DeclareCase(m: Meaning, n: Node, a: State, b: State, c: Ctx, p: Place, fuel: nat)
    requires Round(a, b, c) && n.form.Declare? && Safe(n, c.x, p) && Here(p, c)
    ensures Alike(Exec(m, n, a, fuel), Exec(m, Subst(n, c.x, c.k), b, fuel), c, p.looped)
  {
    hide Round;
    RoundScopes(a, b, c);
    if |n.kids| == 1 {
      EvalSubst(m, n.kids[0], a, b, c, p);
      RoundWorld(a, b, c);
      var r := Eval(m, n.kids[0], a);
      if r.Some? {
        DeclareRound(a.(world := r.value.world), b.(world := r.value.world), c, n.form.x, r.value.v);
      }
    }
  }

  lemma BindCase(m: Meaning, n: Node, a: State, b: State, c: Ctx, p: Place, fuel: nat)
    requires Round(a, b, c) && n.form.Bind? && Safe(n, c.x, p) && Here(p, c)
    ensures Alike(Exec(m, n, a, fuel), Exec(m, Subst(n, c.x, c.k), b, fuel), c, p.looped)
  {
    hide Round;
    EvalAllSubst(m, n.kids, a, b, c, p);
    RoundWorld(a, b, c);
    var r := EvalAll(m, n.kids, a);
    if r.Some? && |r.value.vs| == |n.form.xs| {
      BindSubst(n.form.xs, n.form.declare, r.value.vs, a.(world := r.value.world), b.(world := r.value.world), c, p.looped);
    }
  }

  lemma {:induction false} BindSubst(xs: seq<string>, declare: bool, vs: seq<int>, a: State, b: State, c: Ctx, looped: bool)
    requires Round(a, b, c) && |xs| == |vs| && c.x !in xs && (declare ==> c.j > 0)
    ensures Alike(ExecBind(xs, declare, vs, a), ExecBind(xs, declare, vs, b), c, looped)
  {
    hide Round;
    if xs != [] {
      RoundScopes(a, b, c);
      assert xs[0] in xs;
      if declare {
        DeclareRound(a, b, c, xs[0], vs[0]);
        BindSubst(xs[1..], declare, vs[1..], Declared(a, xs[0], vs[0]), Declared(b, xs[0], vs[0]), c, looped);
      } else {
        StoreRound(a, b, c, xs[0], vs[0]);
        var sa, sb := Store(a.scopes, xs[0], vs[0]), Store(b.scopes, xs[0], vs[0]);
        if sb.Some? {
          BindSubst(xs[1..], declare, vs[1..], a.(scopes := sa.value), b.(scopes := sb.value), c, looped);
        }
      }
    }
  }

  lemma AssignCase(m: Meaning, n: Node, a: State, b: State, c: Ctx, p: Place, fuel: nat)
    requires Round(a, b, c) && n.form.Assign? && Safe(n, c.x, p)
    ensures Alike(Exec(m, n, a, fuel), Exec(m, Subst(n, c.x, c.k), b, fuel), c, p.looped)
  {
    hide Round, ExecAssign;
    if |n.kids| == 2 {
      SafeAt(n.kids, c.x, p, 1);
      SubstAt(n.kids, c.x, c.k, 1);
      AssignSubst(m, n.kids[0], n.kids[1], a, b, c, p);
    }
  }

  lemma AssignSubst(m: Meaning, l: Node, r: Node, a: State, b: State, c: Ctx, p: Place)
    requires Round(a, b, c) && Safe(l, c.x, p) && Safe(r, c.x, p) && l.form != Name(c.x)
    ensures Alike(ExecAssign(m, l, r, a), ExecAssign(m, Subst(l, c.x, c.k), Subst(r, c.x, c.k), b), c, false)
  {
    hide Round, Combine, EvalAll, SubstAll, SafeAll;
    match l.form
    case Name(y) =>
      EvalSubst(m, r, a, b, c, p);
      RoundWorld(a, b, c);
      var v := Eval(m, r, a);
      if v.Some? {
        StoreRound(a.(world := v.value.world), b.(world := v.value.world), c, y, v.value.v);
      }
    case Apply(op) =>
      PlaceSubst(m, l, r, a, b, c, p);
      RoundWorld(a, b, c);
    case _ =>
  }

  lemma PlaceSubst(m: Meaning, l: Node, r: Node, a: State, b: State, c: Ctx, p: Place)
    requires Round(a, b, c) && l.form.Apply? && Safe(l, c.x, p) && Safe(r, c.x, p)
    ensures EvalAll(m, l.kids + [r], a) == EvalAll(m, Subst(l, c.x, c.k).kids + [Subst(r, c.x, c.k)], b)
  {
    hide Round, EvalAll;
    SafeAppend(l.kids, [r], c.x, p);
    assert [r][1..] == [];
    EvalAllSubst(m, l.kids + [r], a, b, c, p);
    SubstAppend(l.kids, [r], c.x, c.k);
    SubstOne(r, c.x, c.k);
  }

  lemma DeferCase(m: Meaning, n: Node, a: State, b: State, c: Ctx, p: Place, fuel: nat)
    requires Round(a, b, c) && n.form.Defer? && Safe(n, c.x, p) && Here(p, c)
    ensures Alike(Exec(m, n, a, fuel), Exec(m, Subst(n, c.x, c.k), b, fuel), c, p.looped)
  {
    hide Round;
    RoundFrame(a, b, c);
    if |n.kids| == 1 {
      RoundDefer(a, b, c, n.kids[0]);
    }
  }

  lemma {:induction false} IfCase(m: Meaning, n: Node, a: State, b: State, c: Ctx, p: Place, fuel: nat)
    requires Round(a, b, c) && n.form.If? && Safe(n, c.x, p) && Here(p, c)
    ensures Alike(Exec(m, n, a, fuel), Exec(m, Subst(n, c.x, c.k), b, fuel), c, p.looped)
    decreases fuel, n, 0
  {
    hide Round, Alike;
    if |n.kids| == 3 {
      SafeAt(n.kids, c.x, p, 1);
      SafeAt(n.kids, c.x, p, 2);
      SubstAt(n.kids, c.x, c.k, 1);
      SubstAt(n.kids, c.x, c.k, 2);
      EvalSubst(m, n.kids[0], a, b, c, p);
      RoundWorld(a, b, c);
      var r := Eval(m, n.kids[0], a);
      if r.Some? {
        ExecSubst(m, if r.value.v != 0 then n.kids[1] else n.kids[2],
                  a.(world := r.value.world), b.(world := r.value.world), c, p, fuel);
      } else {
        BothStuck(c, p.looped);
      }
    } else {
      BothStuck(c, p.looped);
    }
  }

  lemma BothStuck(c: Ctx, looped: bool)
    ensures Alike(Stuck, Stuck, c, looped)
  {
  }

  lemma {:induction false} SwitchCase(m: Meaning, n: Node, a: State, b: State, c: Ctx, p: Place, fuel: nat)
    requires Round(a, b, c) && n.form.Switch? && Safe(n, c.x, p) && Here(p, c)
    ensures Alike(Exec(m, n, a, fuel), Exec(m, Subst(n, c.x, c.k), b, fuel), c, p.looped)
    decreases fuel, n, 0
  {
    hide Round, ExecCases;
    if |n.kids| > 0 {
      EvalSubst(m, n.kids[0], a, b, c, p);
      RoundWorld(a, b, c);
      var r := Eval(m, n.kids[0], a);
      if r.Some? {
        SubstPrefix(n.kids, c.x, c.k, 1);
        CasesSubst(m, r.value.v, n.kids[1..], a.(world := r.value.world), b.(world := r.value.world), c, p, fuel);
      }
    }
  }

  lemma {:induction false} CasesSubst(m: Meaning, v: int, ns: seq<Node>, a: State, b: State, c: Ctx, p: Place, fuel: nat)
    requires Round(a, b, c) && SafeAll(ns, c.x, p) && Here(p, c)
    ensures Alike(ExecCases(m, v, ns, a, fuel), ExecCases(m, v, SubstAll(ns, c.x, c.k), b, fuel), c, p.looped)
    decreases fuel, ns, 2
  {
    hide Round;
    if |ns| == 1 {
      ExecSubst(m, ns[0], a, b, c, p, fuel);
    } else if |ns| > 1 {
      SafeAt(ns, c.x, p, 1);
      SubstAt(ns, c.x, c.k, 1);
      EvalSubst(m, ns[0], a, b, c, p);
      RoundWorld(a, b, c);
      var r := Eval(m, ns[0], a);
      if r.Some? {
        var a1, b1 := a.(world := r.value.world), b.(world := r.value.world);
        if r.value.v == v {
          ExecSubst(m, ns[1], a1, b1, c, p, fuel);
        } else {
          SafeParts(ns, c.x, p, 2);
          SubstPrefix(ns, c.x, c.k, 2);
          CasesSubst(m, v, ns[2..], a1, b1, c, p, fuel);
        }
      }
    }
  }

  lemma {:induction false} WhileCase(m: Meaning, n: Node, a: State, b: State, c: Ctx, p: Place, fuel: nat)
    requires Round(a, b, c) && n.form.While? && Safe(n, c.x, p) && Here(p, c)
    ensures Alike(Exec(m, n, a, fuel), Exec(m, Subst(n, c.x, c.k), b, fuel), c, p.looped)
    decreases fuel, n, 0
  {
    hide Round, ExecWhile;
    if |n.kids| == 2 {
      var q := p.Into(While);
      SafeAt(n.kids, c.x, q, 0);
      SafeAt(n.kids, c.x, q, 1);
      SubstAt(n.kids, c.x, c.k, 1);
      WhileSubst(m, n.kids[0], n.kids[1], a, b, c, q, fuel);
      OnlyLoops(Exec(m, n, a, fuel), Exec(m, Subst(n, c.x, c.k), b, fuel), c, p.looped);
    }
  }

  lemma {:induction false} WhileSubst(m: Meaning, cond: Node, body: Node, a: State, b: State, c: Ctx, p: Place, fuel: nat)
    requires Round(a, b, c) && Safe(cond, c.x, p) && Safe(body, c.x, p) && p.looped && Here(p, c)
    ensures
      var ob := ExecWhile(m, Subst(cond, c.x, c.k), Subst(body, c.x, c.k), b, fuel);
      Alike(ExecWhile(m, cond, body, a, fuel), ob, c, true) && !ob.Broke? && !ob.Continued?
    decreases fuel, body, 2
  {
    hide Round;
    EvalSubst(m, cond, a, b, c, p);
    RoundWorld(a, b, c);
    var v := Eval(m, cond, a);
    if v.Some? && v.value.v != 0 && fuel > 0 {
      var a1, b1 := a.(world := v.value.world), b.(world := v.value.world);
      ExecSubst(m, body, a1, b1, c, p, fuel - 1);
      var oa, ob := Exec(m, body, a1, fuel - 1), Exec(m, Subst(body, c.x, c.k), b1, fuel - 1);
      if ob.Next? || ob.Continued? {
        WhileSubst(m, cond, body, oa.s, ob.s, c, p, fuel - 1);
      }
    }
  }

  lemma {:induction false} ForCase(m: Meaning, n: Node, a: State, b: State, c: Ctx, p: Place, fuel: nat)
    requires Round(a, b, c) && n.form.For? && Safe(n, c.x, p) && Here(p, c)
    ensures Alike(Exec(m, n, a, fuel), Exec(m, Subst(n, c.x, c.k), b, fuel), c, p.looped)
    decreases fuel, n, 0
  {
    hide Round, ExecFor, EvalAll, Safe, SafeAll, SubstAll, Iter.Wrap, Iter.Start;
    ForParts(m, n, a, b, c, p);
    if |n.kids| == 3 {
      var it, q := n.form.it, p.Into(n.form);
      RoundWorld(a, b, c);
      var r := EvalAll(m, n.kids[..2], a);
      if r.Some? && |r.value.vs| == 2 {
        var a1, b1 := a.(world := r.value.world), b.(world := r.value.world);
        var lo, hi := it.Wrap(r.value.vs[0]), it.Wrap(r.value.vs[1]);
        ForSubst(m, it, it.Start(lo, hi < lo), hi, hi < lo, n.kids[2], a1, b1, c, q, fuel);
      }
      OnlyLoops(Exec(m, n, a, fuel), Exec(m, Subst(n, c.x, c.k), b, fuel), c, p.looped);
    }
  }

  lemma ForParts(m: Meaning, n: Node, a: State, b: State, c: Ctx, p: Place)
    requires Round(a, b, c) && n.form.For? && Safe(n, c.x, p)
    ensures n.form.it.x != c.x && Subst(n, c.x, c.k).form == n.form && |Subst(n, c.x, c.k).kids| == |n.kids|
    ensures |n.kids| == 3 ==>
      && Safe(n.kids[2], c.x, p.Into(n.form)) && Subst(n, c.x, c.k).kids[2] == Subst(n.kids[2], c.x, c.k)
      && EvalAll(m, n.kids[..2], a) == EvalAll(m, Subst(n, c.x, c.k).kids[..2], b)
  {
    hide Round, EvalAll;
    if |n.kids| == 3 {
      var q := p.Into(n.form);
      SafeAt(n.kids, c.x, q, 2);
      SubstAt(n.kids, c.x, c.k, 2);
      SafeParts(n.kids, c.x, q, 2);
      EvalAllSubst(m, n.kids[..2], a, b, c, q);
      SubstPrefix(n.kids, c.x, c.k, 2);
    }
  }

  lemma {:induction false} ForSubst(m: Meaning, it: Iter, v: int, hi: int, down: bool, body: Node, a: State, b: State, c: Ctx,
                                    p: Place, fuel: nat)
    requires Round(a, b, c) && Safe(body, c.x, p) && it.x != c.x && p.looped && !p.top && (p.framed ==> c.d > 0)
    ensures
      var ob := ExecFor(m, it, v, hi, down, Subst(body, c.x, c.k), b, fuel);
      Alike(ExecFor(m, it, v, hi, down, body, a, fuel), ob, c, true) && !ob.Broke? && !ob.Continued?
    decreases fuel, body, 2, if down then v - hi else hi - v
  {
    hide Round, ExecStep;
    if it.Goes(v, hi, down) {
      var a1, b1 := a.Push(map[it.x := v]), b.Push(map[it.x := v]);
      RoundPush(a, b, c, map[it.x := v]);
      DepthOk(a, b, c);
      ExecSubst(m, body, a1, b1, c.Up(), p, fuel);
      var oa, ob := Exec(m, body, a1, fuel), Exec(m, Subst(body, c.x, c.k), b1, fuel);
      if ob.Next? || ob.Continued? {
        StepSubst(m, it, v, hi, down, body, oa.s, ob.s, c, p, fuel);
      } else if ob.Broke? {
        AlikePop(Next(oa.s), Next(ob.s), c, true);
      } else {
        AlikePop(oa, ob, c, true);
      }
    }
  }

  lemma DepthOk(a: State, b: State, c: Ctx)
    requires Round(a, b, c)
    ensures c.d <= c.j
  {
  }

  lemma {:induction false} StepSubst(m: Meaning, it: Iter, v: int, hi: int, down: bool, body: Node, a: State, b: State, c: Ctx,
                                     p: Place, fuel: nat)
    requires Round(a, b, c.Up()) && c.d <= c.j && it.Goes(v, hi, down)
    requires Safe(body, c.x, p) && it.x != c.x && p.looped && !p.top && (p.framed ==> c.d > 0)
    ensures
      var ob := ExecStep(m, it, v, hi, down, Subst(body, c.x, c.k), b, fuel);
      Alike(ExecStep(m, it, v, hi, down, body, a, fuel), ob, c, true) && !ob.Broke? && !ob.Continued?
    decreases fuel, body, 2, if down then v - hi else hi - v, 0
  {
    hide Round, ExecFor, Iter.Wrap, Iter.Step;
    RoundTail(a, b, c);
    if it.x in a.scopes[0] {
      var u := it.Step(a.scopes[0][it.x], down);
      var a1, b1 := a.(scopes := a.scopes[1..]), b.(scopes := b.scopes[1..]);
      if if down then u < v else v < u {
        ForSubst(m, it, u, hi, down, body, a1, b1, c, p, fuel);
      } else if fuel > 0 {
        ForSubst(m, it, u, hi, down, body, a1, b1, c, p, fuel - 1);
      }
    }
  }

  /** So does a body inside the body, with what is deferred in it. */
  lemma {:induction false} BodySubst(m: Meaning, ns: seq<Node>, a: State, b: State, c: Ctx, p: Place, fuel: nat)
    requires Round(a, b, c) && SafeAll(ns, c.x, p.Into(Body)) && Here(p, c)
    ensures Alike(ExecBody(m, ns, a, fuel), ExecBody(m, SubstAll(ns, c.x, c.k), b, fuel), c, p.looped)
    decreases fuel, ns, 1
  {
    hide Round, RunDeferred, Leave;
    var up := c.UpBoth();
    RoundEnter(a, b, c);
    ExecAllSubst(m, ns, a.Enter(), b.Enter(), up, p.Into(Body), fuel);
    var oa, ob := ExecAll(m, ns, a.Enter(), fuel), ExecAll(m, SubstAll(ns, c.x, c.k), b.Enter(), fuel);
    if ob.Ended() {
      RoundFrame(oa.s, ob.s, up);
      var fa, fb := oa.s.Frame(), ob.s.Frame();
      if fa == [] {
        AlikeLeave(oa, ob, oa.s, ob.s, c, p.looped);
      } else if fuel > 0 {
        DeferredSubst(m, fa, oa.s, ob.s, up, fuel - 1);
        var ra, rb := RunDeferred(m, fa, oa.s, fuel - 1), RunDeferred(m, fb, ob.s, fuel - 1);
        if rb.Next? {
          AlikeLeave(oa, ob, ra.s, rb.s, c, p.looped);
        }
      }
    }
  }

  lemma {:induction false} DeferredSubst(m: Meaning, ns: seq<Node>, a: State, b: State, c: Ctx, fuel: nat)
    requires Round(a, b, c) && c.d > 0 && SafeAll(ns, c.x, Place.AtTheEnd())
    ensures
      var ob := RunDeferred(m, SubstAll(ns, c.x, c.k), b, fuel);
      Alike(RunDeferred(m, ns, a, fuel), ob, c, false) && (ob.Next? || ob.Stuck? || ob.Unfinished?)
    decreases fuel, ns, 1
  {
    hide Round, Exec, Subst, SubstAll, Safe, SafeAll;
    if |ns| > 0 {
      var i := |ns| - 1;
      LastOne(ns, c);
      RoundFrame(a, b, c);
      ExecSubst(m, ns[i], a, b, c, Place.AtTheEnd(), fuel);
      var oa, ob := Exec(m, ns[i], a, fuel), Exec(m, Subst(ns[i], c.x, c.k), b, fuel);
      if ob.Next? {
        DeferredSubst(m, ns[..i], oa.s, ob.s, c, fuel);
      }
    } else {
      NoneDeferred(ns, c);
    }
  }

  lemma LastOne(ns: seq<Node>, c: Ctx)
    requires |ns| > 0 && SafeAll(ns, c.x, Place.AtTheEnd())
    ensures
      var i := |ns| - 1;
      && Safe(ns[i], c.x, Place.AtTheEnd()) && SafeAll(ns[..i], c.x, Place.AtTheEnd())
      && SubstAll(ns, c.x, c.k)[i] == Subst(ns[i], c.x, c.k) && SubstAll(ns, c.x, c.k)[..i] == SubstAll(ns[..i], c.x, c.k)
  {
    var i := |ns| - 1;
    SafeAt(ns, c.x, Place.AtTheEnd(), i);
    SafeParts(ns, c.x, Place.AtTheEnd(), i);
    SubstAt(ns, c.x, c.k, i);
    SubstPrefix(ns, c.x, c.k, i);
  }

  lemma NoneDeferred(ns: seq<Node>, c: Ctx)
    requires |ns| == 0
    ensures SubstAll(ns, c.x, c.k) == []
  {
  }

  lemma {:induction false} ExecAllSubst(m: Meaning, ns: seq<Node>, a: State, b: State, c: Ctx, p: Place, fuel: nat)
    requires Round(a, b, c) && SafeAll(ns, c.x, p) && Here(p, c)
    ensures Alike(ExecAll(m, ns, a, fuel), ExecAll(m, SubstAll(ns, c.x, c.k), b, fuel), c, p.looped)
    decreases fuel, ns, 0
  {
    hide Round;
    if ns != [] {
      ExecSubst(m, ns[0], a, b, c, p, fuel);
      var oa, ob := Exec(m, ns[0], a, fuel), Exec(m, Subst(ns[0], c.x, c.k), b, fuel);
      assert SubstAll(ns, c.x, c.k)[1..] == SubstAll(ns[1..], c.x, c.k);
      if ob.Next? {
        ExecAllSubst(m, ns[1..], oa.s, ob.s, c, p, fuel);
      }
    }
  }
}
