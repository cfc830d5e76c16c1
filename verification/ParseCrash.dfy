/** Which token lists make the parser ask for the line of a token that is not there. */
module ParseCrash {
  import opened Grammar
  import opened ParseRight
  import opened ParseSound

  /** The last literal of `x` stands `n` brackets deep, right behind the innermost one; nothing follows
      it but their closers, and everything in front of it nests less deep. */
  predicate OneDeep(x: Text, n: nat) {
    match x
    case Atom(a) => n == 0 && a.Lit?
    case Paren(y) => n > 0 && OneDeep(y, n - 1)
    case Element(b, y) => n > 0 && Nest(b) < n && OneDeep(y, n - 1)
    case Prefix(_, y) => n > 0 && OneDeep(y, n)
    case Infix(_, l, r) => n > 0 && Nest(l) < n && OneDeep(r, n)
    case _ => false
  }

  /** The tokens in front of that literal. */
  function Opening(x: Text): seq<Token> {
    match x
    case Paren(y) => [Sym(LParen)] + Opening(y)
    case Element(b, y) => Tokens(b) + [Sym(LBrack)] + Opening(y)
    case Prefix(op, y) => [op] + Opening(y)
    case Infix(op, l, r) => Tokens(l) + [op] + Opening(r)
    case _ => []
  }

  /** The tokens behind it. */
  function Closers(x: Text): seq<Token> {
    match x
    case Paren(y) => Closers(y) + [Sym(RParen)]
    case Element(_, y) => Closers(y) + [Sym(RBrack)]
    case Prefix(_, y) => Closers(y)
    case Infix(_, _, r) => Closers(r)
    case _ => []
  }

  function Deepest(x: Text): Literal {
    match x
    case Atom(Lit(l)) => l
    case Paren(y) => Deepest(y)
    case Element(_, y) => Deepest(y)
    case Prefix(_, y) => Deepest(y)
    case Infix(_, _, r) => Deepest(r)
    case _ => IntLit(0)
  }

  predicate IsOpener(t: Token) {
    t == Sym(LParen) || t == Sym(LBrack)
  }

  predicate IsCloser(t: Token) {
    t == Sym(RParen) || t == Sym(RBrack)
  }

  /** The tokens `ts` are an opening `o` that ends with a bracket, if any is open, a literal, and `n`
      closers, one for each bracket that is open there. */
  predicate Shape(ts: seq<Token>, o: seq<Token>, l: Literal, c: seq<Token>, n: nat) {
    && ts == o + [Lit(l)] + c
    && |c| == n && (forall k :: 0 <= k < n ==> IsCloser(c[k]))
    && (n > 0 ==> o != [] && IsOpener(o[|o| - 1]))
    && Openers(o) >= n
  }

  predicate Completes(x: Text, n: nat) {
    Shape(Tokens(x), Opening(x), Deepest(x), Closers(x), n) && Nest(x) == n
  }

  function Openers(t: seq<Token>): nat {
    if t == [] then 0 else (if IsOpener(t[0]) then 1 else 0) + Openers(t[1..])
  }

  lemma {:induction false} OpenersAppend(a: seq<Token>, b: seq<Token>)
    ensures Openers(a + b) == Openers(a) + Openers(b)
  {
    if a == [] {
      assert a + b == b;
    } else {
      assert (a + b)[1..] == a[1..] + b;
      OpenersAppend(a[1..], b);
    }
  }

  lemma Wrapped(a: seq<Token>, o: seq<Token>, l: Literal, c: seq<Token>, e: seq<Token>)
    ensures a + (o + [Lit(l)] + c) + e == (a + o) + [Lit(l)] + (c + e)
  {
  }

  lemma {:induction false} Completed(x: Text, n: nat)
    requires OneDeep(x, n)
    ensures Completes(x, n)
  {
    hide Completes;
    match x
    case Atom(_) => CompletedAtom(x);
    case Paren(y) =>
      Completed(y, n - 1);
      CompletedParen(y, n - 1);
    case Element(b, y) =>
      Completed(y, n - 1);
      CompletedElement(b, y, n - 1);
    case Prefix(op, y) =>
      Completed(y, n);
      CompletedPrefix(op, y, n);
    case Infix(op, l, r) =>
      Completed(r, n);
      CompletedInfix(op, l, r, n);
  }

  lemma CompletedAtom(x: Text)
    requires OneDeep(x, 0) && x.Atom?
    ensures Completes(x, 0)
  {
  }

  /** Around such tokens: more in front, which open a bracket if there is a closer behind. */
  lemma Around(pre: seq<Token>, ts: seq<Token>, o: seq<Token>, l: Literal, c: seq<Token>, post: seq<Token>, n: nat)
    requires Shape(ts, o, l, c, n) && (n == 0 ==> o == []) && |post| <= 1 && (n > 0 || |post| == 1)
    requires |post| == 1 ==> pre != [] && IsOpener(pre[|pre| - 1]) && IsCloser(post[0])
    ensures Shape(pre + ts + post, pre + o, l, c + post, n + |post|)
  {
    hide IsOpener, IsCloser, Openers;
    Wrapped(pre, o, l, c, post);
    OpenersAppend(pre, o);
    if |post| == 1 {
      OneOpener(pre);
      LastOpens(pre, o);
    } else {
      LastStays(pre, o);
    }
  }

  lemma OneOpener(pre: seq<Token>)
    requires pre != [] && IsOpener(pre[|pre| - 1])
    ensures Openers(pre) >= 1
  {
    assert pre == pre[..|pre| - 1] + [pre[|pre| - 1]];
    OpenersAppend(pre[..|pre| - 1], [pre[|pre| - 1]]);
  }

  lemma LastOpens(a: seq<Token>, o: seq<Token>)
    requires a != [] && IsOpener(a[|a| - 1]) && (o != [] ==> IsOpener(o[|o| - 1]))
    ensures a + o != [] && IsOpener((a + o)[|a + o| - 1])
  {
    if o == [] {
      assert a + o == a;
    }
  }

  lemma LastStays(a: seq<Token>, o: seq<Token>)
    requires o != [] && IsOpener(o[|o| - 1])
    ensures a + o != [] && IsOpener((a + o)[|a + o| - 1])
  {
  }

  lemma CompletedParen(y: Text, n: nat)
    requires OneDeep(y, n) && Completes(y, n)
    ensures Completes(Paren(y), n + 1)
  {
    EmptyInside(y, n);
    hide Shape, OneDeep;
    Around([Sym(LParen)], Tokens(y), Opening(y), Deepest(y), Closers(y), [Sym(RParen)], n);
  }

  lemma CompletedElement(b: Text, y: Text, n: nat)
    requires OneDeep(y, n) && Completes(y, n) && Nest(b) < n + 1
    ensures Completes(Element(b, y), n + 1)
  {
    EmptyInside(y, n);
    hide Shape, OneDeep;
    Around(Tokens(b) + [Sym(LBrack)], Tokens(y), Opening(y), Deepest(y), Closers(y), [Sym(RBrack)], n);
  }

  lemma EmptyInside(y: Text, n: nat)
    requires OneDeep(y, n)
    ensures n == 0 ==> Opening(y) == []
  {
  }

  lemma CompletedPrefix(op: Token, y: Text, n: nat)
    requires n > 0 && OneDeep(y, n) && Completes(y, n)
    ensures Completes(Prefix(op, y), n)
  {
    hide Shape, OneDeep;
    Around([op], Tokens(y), Opening(y), Deepest(y), Closers(y), [], n);
    assert [op] + Tokens(y) + [] == [op] + Tokens(y) && Closers(y) + [] == Closers(y);
  }

  lemma CompletedInfix(op: Token, l: Text, r: Text, n: nat)
    requires n > 0 && OneDeep(r, n) && Completes(r, n) && Nest(l) < n
    ensures Completes(Infix(op, l, r), n)
  {
    hide Shape, OneDeep;
    var pre := Tokens(l) + [op];
    Around(pre, Tokens(r), Opening(r), Deepest(r), Closers(r), [], n);
    assert pre + Tokens(r) + [] == pre + Tokens(r) && Closers(r) + [] == Closers(r);
  }

  /** From `i` on, the tokens are those in front of the literal. */
  predicate Rest(t: seq<Token>, i: nat, x: Text) {
    i <= |t| && t[i..] == Opening(x)
  }

  // ----- such tokens crash the parser -----

  lemma Behind(t: seq<Token>, i: nat, a: seq<Token>, o: Token, b: seq<Token>)
    requires i <= |t| && t[i..] == a + [o] + b
    ensures i + |a| < |t| && t[i..i + |a|] == a && t[i + |a|] == o && t[i + |a| + 1..] == b
  {
    var s := t[i..];
    assert s[..|a|] == a && s[|a|] == o && s[|a| + 1..] == b;
    assert s[..|a|] == t[i..i + |a|] && s[|a| + 1..] == t[i + |a| + 1..];
  }

  lemma RestOfPair(t: seq<Token>, i: nat, b: Text, o: Token, y: Text, x: Text)
    requires Rest(t, i, x) && Opening(x) == Tokens(b) + [o] + Opening(y)
    ensures Here(t, i, b) && At(t, End(i, b), o) && Rest(t, End(i, b) + 1, y)
  {
    Behind(t, i, Tokens(b), o, Opening(y));
  }

  lemma RestOfOne(t: seq<Token>, i: nat, o: Token, y: Text, x: Text)
    requires Rest(t, i, x) && Opening(x) == [o] + Opening(y)
    ensures At(t, i, o) && Rest(t, i + 1, y)
  {
    assert [o] + Opening(y) == [] + [o] + Opening(y);
    Behind(t, i, [], o, Opening(y));
  }

  lemma FirstOpen(t: seq<Token>, i: nat, x: Text, level: nat, n: nat)
    requires Rest(t, i, x) && OneDeep(x, n) && n > 0 && Fits(x, level)
    ensures i < |t| && t[i] != Kw(CastKw) && (level == 11 ==> !IsUnary(t[i]))
  {
    Completed(x, n);
    FirstToken(x, level);
    assert t[i] == t[i..][0] == Tokens(x)[0];
  }

  lemma StillNotAFold(t: seq<Token>, i: nat, y: Text, n: nat)
    requires Rest(t, i, Paren(y)) && Fits(y, 0) && OneDeep(y, n)
    ensures !FoldAt(t, i)
  {
    RestOfOne(t, i, Sym(LParen), y, Paren(y));
    Completed(y, n);
    EllipsisLate(y, 0);
    if i + 3 < |t| {
      assert t[i + 1..][2] == t[i + 3] && Opening(y)[2] == Tokens(y)[2];
    }
  }

  lemma {:induction false} ExprCrashes(x: Text, t: seq<Token>, i: nat, d: nat, bare: bool)
    requires d <= 512 && Fits(x, 0) && OneDeep(x, 512 - d) && Rest(t, i, x)
    ensures ParseExpr(t, i, d, bare) == Crashed
    decreases x, 13
  {
    if d < 512 {
      BinaryCrashes(x, 0, t, i, d + 1, bare);
    }
  }

  lemma {:induction false} BinaryCrashes(x: Text, level: nat, t: seq<Token>, i: nat, d: nat, bare: bool)
    requires level <= 10 && 0 < d <= 512 && Fits(x, level) && OneDeep(x, 513 - d) && Rest(t, i, x)
    ensures ParseBinary(t, i, d, bare, level) == Crashed
    decreases x, 12 - level
  {
    hide Opening, Tokens, OneDeep;
    if level == 10 {
      FirstOpen(t, i, x, 10, 513 - d);
      UnaryCrashes(x, t, i, d, bare);
    } else if x.Infix? && LevelOf(x.op) == level {
      InfixCrashes(x, t, i, d, bare);
    } else {
      BinaryCrashes(x, level + 1, t, i, d, bare);
    }
  }

  lemma {:induction false} InfixCrashes(x: Text, t: seq<Token>, i: nat, d: nat, bare: bool)
    requires x.Infix? && LevelOf(x.op) < 10 && Fits(x, LevelOf(x.op))
    requires 0 < d <= 512 && OneDeep(x, 513 - d) && Rest(t, i, x)
    ensures ParseBinary(t, i, d, bare, LevelOf(x.op)) == Crashed
    decreases x, 0
  {
    hide ParseBinary, BinaryLoop, Tokens, Here, Rest, End, LevelOf, Canonical;
    RestOfPair(t, i, x.left, x.op, x.right, x);
    var j := End(i, x.left);
    OperatorStops(t, j, bare);
    ChainAccepts(x.left, LevelOf(x.op), t, i, d, bare);
    BinaryCrashes(x.right, LevelOf(x.op) + 1, t, j + 1, d, bare);
    LoopStep(t, j, d, bare, Tree(x.left));
  }

  lemma {:induction false} UnaryCrashes(x: Text, t: seq<Token>, i: nat, d: nat, bare: bool)
    requires 0 < d <= 512 && Fits(x, 10) && OneDeep(x, 513 - d) && Rest(t, i, x)
    ensures ParseUnary(t, i, d, bare) == Crashed
    decreases x, 1
  {
    hide ParsePostfix, Tokens;
    if x.Prefix? {
      RestOfOne(t, i, x.op, x.operand, x);
      UnaryCrashes(x.operand, t, i + 1, d, bare);
    } else {
      FirstOpen(t, i, x, 11, 513 - d);
      PostfixCrashes(x, t, i, d, bare);
    }
  }

  lemma {:induction false} PostfixCrashes(x: Text, t: seq<Token>, i: nat, d: nat, bare: bool)
    requires 0 < d <= 512 && Fits(x, 11) && OneDeep(x, 513 - d) && Rest(t, i, x)
    ensures ParsePostfix(t, i, d, bare) == Crashed
    decreases x, 0
  {
    hide ParsePostfix, PostfixLoop, ParseExpr, Tokens, FoldAt, Rest;
    match x
    case Paren(y) =>
      StillNotAFold(t, i, y, 512 - d);
      RestOfOne(t, i, Sym(LParen), y, x);
      ExprCrashes(y, t, i + 1, d, false);
      ParenStep(t, i, d, bare);
    case Element(b, y) =>
      RestOfPair(t, i, b, Sym(LBrack), y, x);
      var j := End(i, b);
      PostfixAccepts(b, t, i, d, bare);
      ExprCrashes(y, t, j + 1, d, false);
      ElementStep(t, j, d, bare, Tree(b));
  }

  // ----- nothing else does -----

  lemma {:induction false} ExprCrashed(t: seq<Token>, i: nat, d: nat, bare: bool) returns (x: Text)
    requires i <= |t| && d <= 512 && ParseExpr(t, i, d, bare) == Crashed
    ensures Fits(x, 0) && OneDeep(x, 512 - d) && Rest(t, i, x)
    decreases |t| - i, 20
  {
    if d == 512 {
      x := Atom(Lit(IntLit(0)));
    } else {
      x := BinaryCrashed(t, i, d + 1, bare, 0);
    }
  }

  lemma {:induction false} BinaryCrashed(t: seq<Token>, i: nat, d: nat, bare: bool, level: nat) returns (x: Text)
    requires i <= |t| && level <= 10 && 0 < d <= 512 && ParseBinary(t, i, d, bare, level) == Crashed
    ensures Fits(x, level) && OneDeep(x, 513 - d) && Rest(t, i, x)
    decreases |t| - i, 15 - level
  {
    if level == 10 {
      x := UnaryCrashed(t, i, d, bare);
    } else {
      var l := ParseBinary(t, i, d, bare, level + 1);
      if l.Parsed? {
        var y := BinarySound(t, i, d, bare, level + 1);
        LowerLevel(y, level + 1, level);
        x := LoopCrashed(t, i, l.next, d, bare, level, y, l.e);
      } else {
        x := BinaryCrashed(t, i, d, bare, level + 1);
        LowerLevel(x, level + 1, level);
      }
    }
  }

  lemma {:induction false} LoopCrashed(t: seq<Token>, i: nat, k: nat, d: nat, bare: bool, level: nat, l: Text, e: Expr)
    returns (x: Text)
    requires i < k <= |t| && level < 10 && 0 < d <= 512 && BinaryLoop(t, k, d, bare, level, e) == Crashed
    requires Reads(l, level, t, i, k, d, e)
    ensures Fits(x, level) && OneDeep(x, 513 - d) && Rest(t, i, x)
    decreases |t| - k, 0
  {
    hide Reads, OneDeep, Rest, Fits, ParseBinary, Canonical;
    var b := ParseBinary(t, k + 1, d, bare, level + 1);
    if b.Parsed? {
      var r := BinarySound(t, k + 1, d, bare, level + 1);
      Joined(t, i, k, b.next, d, t[k], l, r, e, b.e);
      x := LoopCrashed(t, i, b.next, d, bare, level, Infix(t[k], l, r), Binary(Canonical(t[k]), e, b.e));
    } else {
      var r := BinaryCrashed(t, k + 1, d, bare, level + 1);
      x := Infix(t[k], l, r);
      OpenInfix(t, i, k, d, l, r, e);
    }
  }

  lemma OpenInfix(t: seq<Token>, i: nat, k: nat, d: nat, l: Text, r: Text, e: Expr)
    requires i < k < |t| && LevelOf(t[k]) < 10 && 0 < d <= 512 && Reads(l, LevelOf(t[k]), t, i, k, d, e)
    requires Fits(r, LevelOf(t[k]) + 1) && OneDeep(r, 513 - d) && Rest(t, k + 1, r)
    ensures
      var x := Infix(t[k], l, r);
      Fits(x, LevelOf(t[k])) && OneDeep(x, 513 - d) && Rest(t, i, x)
  {
    hide LevelOf;
    assert t[i..] == t[i..k] + [t[k]] + t[k + 1..];
  }

  lemma {:induction false} UnaryCrashed(t: seq<Token>, i: nat, d: nat, bare: bool) returns (x: Text)
    requires i <= |t| && 0 < d <= 512 && ParseUnary(t, i, d, bare) == Crashed
    ensures Fits(x, 10) && OneDeep(x, 513 - d) && Rest(t, i, x)
    decreases |t| - i, 3
  {
    if i < |t| && IsUnary(t[i]) {
      var y := UnaryCrashed(t, i + 1, d, bare);
      x := Prefix(t[i], y);
      assert t[i..] == [t[i]] + t[i + 1..];
    } else {
      x := PostfixCrashed(t, i, d, bare);
      LowerLevel(x, 11, 10);
    }
  }

  lemma {:induction false} PostfixCrashed(t: seq<Token>, i: nat, d: nat, bare: bool) returns (x: Text)
    requires i <= |t| && 0 < d <= 512 && ParsePostfix(t, i, d, bare) == Crashed
    ensures Fits(x, 11) && OneDeep(x, 513 - d) && Rest(t, i, x)
    decreases |t| - i, 2
  {
    hide ParsePrimary, PostfixLoop, Reads, OneDeep, Rest;
    var p := ParsePrimary(t, i, d, bare);
    if p.Parsed? {
      var b := PrimarySound(t, i, d, bare);
      x := ChainCrashed(t, i, p.next, d, bare, b, p.e);
    } else {
      x := PrimaryCrashed(t, i, d, bare);
    }
  }

  lemma {:induction false} ChainCrashed(t: seq<Token>, i: nat, k: nat, d: nat, bare: bool, b: Text, e: Expr)
    returns (x: Text)
    requires i < k <= |t| && 0 < d <= 512 && PostfixLoop(t, k, d, bare, e) == Crashed && Reads(b, 11, t, i, k, d, e)
    ensures Fits(x, 11) && OneDeep(x, 513 - d) && Rest(t, i, x)
    decreases |t| - k, 0
  {
    hide ParseExpr, Reads, OneDeep, Rest;
    if At(t, k, Sym(Dot)) {
      JoinedMember(t, i, k, d, b, e);
      x := ChainCrashed(t, i, k + 2, d, bare, Member(b, t[k + 1].name), Field(e, t[k + 1].name));
    } else {
      assert At(t, k, Sym(LBrack));
      var q := ParseExpr(t, k + 1, d, false);
      if q.Parsed? {
        var y := ExprSound(t, k + 1, d, false);
        JoinedElement(t, i, k, q.next, d, b, y, e, q.e);
        x := ChainCrashed(t, i, q.next + 1, d, bare, Element(b, y), Index(e, q.e));
      } else {
        var y := ExprCrashed(t, k + 1, d, false);
        x := Element(b, y);
        OpenElement(t, i, k, d, b, y, e);
      }
    }
  }

  lemma OpenElement(t: seq<Token>, i: nat, k: nat, d: nat, b: Text, y: Text, e: Expr)
    requires i < k && At(t, k, Sym(LBrack)) && 0 < d <= 512 && Reads(b, 11, t, i, k, d, e)
    requires Fits(y, 0) && OneDeep(y, 512 - d) && Rest(t, k + 1, y)
    ensures Fits(Element(b, y), 11) && OneDeep(Element(b, y), 513 - d) && Rest(t, i, Element(b, y))
  {
    assert t[i..] == t[i..k] + [t[k]] + t[k + 1..];
  }

  lemma {:induction false} PrimaryCrashed(t: seq<Token>, i: nat, d: nat, bare: bool) returns (x: Text)
    requires i <= |t| && 0 < d <= 512 && ParsePrimary(t, i, d, bare) == Crashed
    ensures Fits(x, 11) && OneDeep(x, 513 - d) && Rest(t, i, x)
    decreases |t| - i, 1
  {
    hide ParseExpr;
    assert At(t, i, Sym(LParen)) && ParseExpr(t, i + 1, d, false) == Crashed;
    var y := ExprCrashed(t, i + 1, d, false);
    x := Paren(y);
    assert t[i..] == [t[i]] + t[i + 1..];
  }

  /** Which inputs make the parser ask for a token that is not there: exactly those that one literal
      and 512 closers complete to a text in which that literal alone nests 512 deep. */
  lemma CrashExactly(t: seq<Token>, bare: bool)
    ensures ParseExpr(t, 0, 0, bare) == Crashed <==>
      exists x :: Fits(x, 0) && OneDeep(x, 512) && |Tokens(x)| >= 513 && t == Tokens(x)[..|Tokens(x)| - 513]
  {
    hide ParseExpr, Fits, OneDeep, Tokens, Opening, Closers, Deepest, Nest, Openers;
    if ParseExpr(t, 0, 0, bare) == Crashed {
      var x := ExprCrashed(t, 0, 0, bare);
      Completed(x, 512);
      assert t[0..] == t;
      assert Tokens(x)[..|Tokens(x)| - 513] == t;
    }
    if x :| Fits(x, 0) && OneDeep(x, 512) && |Tokens(x)| >= 513 && t == Tokens(x)[..|Tokens(x)| - 513] {
      Completed(x, 512);
      assert t == Opening(x) && t[0..] == t;
      ExprCrashes(x, t, 0, 0, bare);
    }
  }

  /** What such an input looks like: it ends with an opening bracket and holds at least 512 of them. */
  lemma CrashEnds(t: seq<Token>, bare: bool)
    requires ParseExpr(t, 0, 0, bare) == Crashed
    ensures t != [] && IsOpener(t[|t| - 1]) && Openers(t) >= 512
  {
    hide ParseExpr, Fits, OneDeep, Tokens, Opening, Closers, Deepest, Nest, Openers;
    var x := ExprCrashed(t, 0, 0, bare);
    Completed(x, 512);
    assert t[0..] == t;
  }
}
