/** The parser accepts exactly the texts of the layered grammar, and answers their trees. */
module ParseRight {
  import opened Grammar

  /** The tokens of `x` stand at `i`. */
  predicate Here(t: seq<Token>, i: nat, x: Text) {
    i + |Tokens(x)| <= |t| && t[i..i + |Tokens(x)|] == Tokens(x)
  }

  function End(i: nat, x: Text): nat {
    i + |Tokens(x)|
  }

  /** The token at `i` does not carry a name on. */
  predicate NameEnds(t: seq<Token>, i: nat, bare: bool) {
    i < |t| ==> t[i] != Sym(LParen) && (t[i] == Sym(LBrace) ==> bare)
  }

  /** The token at `i` does not carry an expression of this level on. */
  predicate Stops(t: seq<Token>, i: nat, bare: bool, level: nat) {
    && NameEnds(t, i, bare)
    && (i < |t| ==> t[i] != Sym(Dot) && t[i] != Sym(LBrack) && t[i] != Sym(AsSym) && !(level <= LevelOf(t[i]) < 10))
  }

  // ----- first tokens -----

  lemma {:induction false} FirstToken(x: Text, level: nat)
    requires Fits(x, level)
    ensures Tokens(x)[0] != Kw(CastKw)
    ensures level == 11 ==> !IsUnary(Tokens(x)[0])
  {
    match x
    case Infix(op, l, r) => FirstToken(l, LevelOf(op));
    case Member(b, _) => FirstToken(b, 11);
    case Element(b, _) => FirstToken(b, 11);
    case _ =>
  }

  /** `...` is not among the first three tokens. */
  predicate NoEarlyEllipsis(s: seq<Token>) {
    forall k :: 0 <= k < 3 && k < |s| ==> s[k] != Sym(Ellipsis)
  }

  lemma EarlyJoin(a: seq<Token>, b: seq<Token>)
    requires NoEarlyEllipsis(a) && NoEarlyEllipsis(b)
    ensures NoEarlyEllipsis(a + b)
  {
  }

  /** `...` occurs only inside a fold. */
  lemma {:induction false} EllipsisLate(x: Text, level: nat)
    requires Fits(x, level)
    ensures NoEarlyEllipsis(Tokens(x))
  {
    match x
    case Paren(y) =>
      EllipsisLate(y, 0);
      EarlyJoin([Sym(LParen)], Tokens(y));
      EarlyJoin([Sym(LParen)] + Tokens(y), [Sym(RParen)]);
    case Prefix(op, y) =>
      EllipsisLate(y, 10);
      EarlyJoin([op], Tokens(y));
    case Infix(op, l, r) =>
      EllipsisLate(l, LevelOf(op));
      EllipsisLate(r, LevelOf(op) + 1);
      EarlyJoin(Tokens(l), [op]);
      EarlyJoin(Tokens(l) + [op], Tokens(r));
    case Member(b, n) =>
      EllipsisLate(b, 11);
      EarlyJoin(Tokens(b), [Sym(Dot), Ident(n)]);
    case Element(b, y) =>
      EllipsisLate(b, 11);
      EllipsisLate(y, 0);
      EarlyJoin(Tokens(b), [Sym(LBrack)]);
      EarlyJoin(Tokens(b) + [Sym(LBrack)], Tokens(y));
      EarlyJoin(Tokens(b) + [Sym(LBrack)] + Tokens(y), [Sym(RBrack)]);
    case _ =>
  }

  /** The look-ahead for a fold never fires on an expression in parentheses. */
  lemma NotAFold(t: seq<Token>, i: nat, y: Text)
    requires Fits(y, 0) && Here(t, i, Paren(y))
    ensures !FoldAt(t, i)
  {
    hide Fits;
    var n := |Tokens(y)|;
    var s := t[i..i + n + 2];
    assert s == [Sym(LParen)] + Tokens(y) + [Sym(RParen)];
    assert s[n + 1] == t[i + n + 1];
    EllipsisLate(y, 0);
    if n > 2 {
      assert s[3] == t[i + 3] && s[3] == Tokens(y)[2];
    }
  }

  // ----- texts are accepted -----

  /** What the parser answers on a text: its tree, or an error when it nests too deep. */
  function Expected(x: Text, d: nat, r: Answer): Answer {
    if d + Nest(x) <= 512 then r else Failed
  }

  // where the parts of a text stand

  lemma SubSlice(t: seq<Token>, i: nat, n: nat, p: nat, q: nat)
    requires i + n <= |t| && p <= q <= n
    ensures t[i..i + n][p..q] == t[i + p..i + q]
  {
    var a, b := t[i..i + n][p..q], t[i + p..i + q];
    assert |a| == |b|;
    forall k | 0 <= k < q - p
      ensures a[k] == b[k]
    {
      assert a[k] == t[i..i + n][p + k] == t[i + (p + k)];
      assert b[k] == t[(i + p) + k];
    }
  }

  lemma Slices(t: seq<Token>, i: nat, a: seq<Token>, b: seq<Token>, c: seq<Token>)
    requires i + |a| + |b| + |c| <= |t| && t[i..i + (|a| + |b| + |c|)] == a + b + c
    ensures t[i..i + |a|] == a && t[i + |a|..i + |a| + |b|] == b && t[i + |a| + |b|..i + (|a| + |b| + |c|)] == c
  {
    var s := t[i..i + (|a| + |b| + |c|)];
    assert s[..|a|] == a && s[|a|..|a| + |b|] == b && s[|a| + |b|..] == c;
    SubSlice(t, i, |s|, 0, |a|);
    SubSlice(t, i, |s|, |a|, |a| + |b|);
    SubSlice(t, i, |s|, |a| + |b|, |s|);
  }

  lemma OneToken(t: seq<Token>, i: nat, a: Token)
    requires i < |t| && t[i..i + 1] == [a]
    ensures t[i] == a
  {
    assert t[i..i + 1][0] == t[i];
  }

  lemma PartsOfParen(t: seq<Token>, i: nat, y: Text)
    requires Here(t, i, Paren(y))
    ensures t[i] == Sym(LParen) && Here(t, i + 1, y) && At(t, End(i + 1, y), Sym(RParen))
    ensures End(i, Paren(y)) == End(i + 1, y) + 1
  {
    Slices(t, i, [Sym(LParen)], Tokens(y), [Sym(RParen)]);
    OneToken(t, i, Sym(LParen));
    OneToken(t, i + 1 + |Tokens(y)|, Sym(RParen));
  }

  lemma PartsOfMember(t: seq<Token>, i: nat, b: Text, n: string)
    requires Here(t, i, Member(b, n))
    ensures Here(t, i, b) && At(t, End(i, b), Sym(Dot)) && At(t, End(i, b) + 1, Ident(n))
    ensures End(i, Member(b, n)) == End(i, b) + 2
  {
    assert Tokens(Member(b, n)) == Tokens(b) + [Sym(Dot)] + [Ident(n)];
    Slices(t, i, Tokens(b), [Sym(Dot)], [Ident(n)]);
    OneToken(t, End(i, b), Sym(Dot));
    OneToken(t, End(i, b) + 1, Ident(n));
  }

  lemma FourSlices(t: seq<Token>, i: nat, a: seq<Token>, b: seq<Token>, c: seq<Token>, e: seq<Token>)
    requires i + (|a| + |b| + |c| + |e|) <= |t| && t[i..i + (|a| + |b| + |c| + |e|)] == a + b + c + e
    ensures t[i..i + |a|] == a && t[i + |a|..i + |a| + |b|] == b
    ensures t[i + |a| + |b|..i + |a| + |b| + |c|] == c
    ensures t[i + |a| + |b| + |c|..i + |a| + |b| + |c| + |e|] == e
  {
    assert a + b + c + e == a + b + (c + e);
    Slices(t, i, a, b, c + e);
    assert c + e == c + e + [];
    Slices(t, i + |a| + |b|, c, e, []);
  }

  lemma PartsOfElement(t: seq<Token>, i: nat, b: Text, y: Text)
    requires Here(t, i, Element(b, y))
    ensures Here(t, i, b) && At(t, End(i, b), Sym(LBrack)) && Here(t, End(i, b) + 1, y)
    ensures At(t, End(End(i, b) + 1, y), Sym(RBrack)) && End(i, Element(b, y)) == End(End(i, b) + 1, y) + 1
  {
    FourSlices(t, i, Tokens(b), [Sym(LBrack)], Tokens(y), [Sym(RBrack)]);
    OneToken(t, End(i, b), Sym(LBrack));
    OneToken(t, End(End(i, b) + 1, y), Sym(RBrack));
  }

  lemma PartsOfPrefix(t: seq<Token>, i: nat, op: Token, y: Text)
    requires Here(t, i, Prefix(op, y))
    ensures At(t, i, op) && Here(t, i + 1, y) && End(i, Prefix(op, y)) == End(i + 1, y)
  {
    assert Tokens(Prefix(op, y)) == [op] + Tokens(y) + [];
    Slices(t, i, [op], Tokens(y), []);
    OneToken(t, i, op);
  }

  lemma PartsOfInfix(t: seq<Token>, i: nat, op: Token, l: Text, r: Text)
    requires Here(t, i, Infix(op, l, r))
    ensures Here(t, i, l) && At(t, End(i, l), op) && Here(t, End(i, l) + 1, r)
    ensures End(i, Infix(op, l, r)) == End(End(i, l) + 1, r)
  {
    Slices(t, i, Tokens(l), [op], Tokens(r));
    OneToken(t, End(i, l), op);
  }

  // level by level

  lemma {:induction false} PostfixAccepts(x: Text, t: seq<Token>, i: nat, d: nat, bare: bool)
    requires Fits(x, 11) && Here(t, i, x) && NameEnds(t, End(i, x), bare) && d <= 512
    ensures ParsePostfix(t, i, d, bare) == Expected(x, d, PostfixLoop(t, End(i, x), d, bare, Tree(x)))
    decreases x, 0, 1
  {
    match x {
      case Paren(y) => ParenAccepts(y, t, i, d, bare);
      case Member(b, n) => MemberAccepts(b, n, t, i, d, bare);
      case Element(b, y) => ElementAccepts(b, y, t, i, d, bare);
      case _ => SimpleAccepts(x, t, i, d, bare);
    }
  }

  lemma SimpleAccepts(x: Text, t: seq<Token>, i: nat, d: nat, bare: bool)
    requires Fits(x, 11) && Here(t, i, x) && NameEnds(t, End(i, x), bare) && d <= 512
    requires x.Atom? || x.DotName? || x.Fold?
    ensures ParsePostfix(t, i, d, bare) == PostfixLoop(t, End(i, x), d, bare, Tree(x))
  {
    hide PostfixLoop, ParseExpr;
    var s := t[i..i + |Tokens(x)|];
    match x
    case Atom(a) => assert s[0] == t[i];
    case DotName(n) => assert s[0] == t[i] && s[1] == t[i + 1];
    case Fold(p, op) =>
      assert s[0] == t[i] && s[1] == t[i + 1] && s[2] == t[i + 2] && s[3] == t[i + 3] && s[4] == t[i + 4];
  }

  lemma {:induction false} ParenAccepts(y: Text, t: seq<Token>, i: nat, d: nat, bare: bool)
    requires Fits(y, 0) && Here(t, i, Paren(y)) && d <= 512
    ensures ParsePostfix(t, i, d, bare) ==
            Expected(Paren(y), d, PostfixLoop(t, End(i, Paren(y)), d, bare, Tree(Paren(y))))
    decreases y, 100, 0
  {
    hide Fits, Tokens, PostfixLoop, ParsePostfix, ParseExpr, FoldAt, Here, Stops, End;
    NotAFold(t, i, y);
    PartsOfParen(t, i, y);
    CloserStops(t, End(i + 1, y), false);
    TextAccepted(y, t, i + 1, d, false);
    ParenStep(t, i, d, bare);
  }

  lemma CloserStops(t: seq<Token>, j: nat, bare: bool)
    requires At(t, j, Sym(RParen)) || At(t, j, Sym(RBrack))
    ensures Stops(t, j, bare, 0)
  {
  }

  lemma ParenStep(t: seq<Token>, i: nat, d: nat, bare: bool)
    requires At(t, i, Sym(LParen)) && !FoldAt(t, i)
    ensures ParsePostfix(t, i, d, bare) == AfterParen(t, d, bare, ParseExpr(t, i + 1, d, false))
  {
    hide PostfixLoop, ParseExpr;
  }

  function AfterParen(t: seq<Token>, d: nat, bare: bool, r: Answer): Answer
    requires r.Parsed? ==> r.next <= |t|
  {
    if !r.Parsed? then r else if At(t, r.next, Sym(RParen)) then PostfixLoop(t, r.next + 1, d, bare, r.e) else Failed
  }

  lemma {:induction false} MemberAccepts(b: Text, n: string, t: seq<Token>, i: nat, d: nat, bare: bool)
    requires Fits(b, 11) && Here(t, i, Member(b, n)) && d <= 512
    ensures ParsePostfix(t, i, d, bare) ==
            Expected(Member(b, n), d, PostfixLoop(t, End(i, Member(b, n)), d, bare, Tree(Member(b, n))))
    decreases b, 100, 0
  {
    hide Fits, Tokens, ParsePostfix;
    PartsOfMember(t, i, b, n);
    PostfixAccepts(b, t, i, d, bare);
  }

  lemma {:induction false} ElementAccepts(b: Text, y: Text, t: seq<Token>, i: nat, d: nat, bare: bool)
    requires Fits(b, 11) && Fits(y, 0) && Here(t, i, Element(b, y)) && d <= 512
    ensures ParsePostfix(t, i, d, bare) ==
            Expected(Element(b, y), d, PostfixLoop(t, End(i, Element(b, y)), d, bare, Tree(Element(b, y))))
    decreases Element(b, y), 0, 0
  {
    hide Fits, Tokens, ParsePostfix, PostfixLoop, ParseExpr, Here, Stops, End;
    PartsOfElement(t, i, b, y);
    var j := End(i, b);
    CloserStops(t, End(j + 1, y), false);
    PostfixAccepts(b, t, i, d, bare);
    TextAccepted(y, t, j + 1, d, false);
    ElementStep(t, j, d, bare, Tree(b));
  }

  lemma ElementStep(t: seq<Token>, j: nat, d: nat, bare: bool, e: Expr)
    requires At(t, j, Sym(LBrack))
    ensures PostfixLoop(t, j, d, bare, e) == AfterIndex(t, d, bare, e, ParseExpr(t, j + 1, d, false))
  {
    hide ParseExpr;
  }

  function AfterIndex(t: seq<Token>, d: nat, bare: bool, e: Expr, r: Answer): Answer
    requires r.Parsed? ==> r.next <= |t|
  {
    if !r.Parsed? then r
    else if At(t, r.next, Sym(RBrack)) then PostfixLoop(t, r.next + 1, d, bare, Index(e, r.e)) else Failed
  }

  lemma LoopStops(t: seq<Token>, j: nat, d: nat, bare: bool, e: Expr)
    requires j <= |t| && Stops(t, j, bare, 10)
    ensures PostfixLoop(t, j, d, bare, e) == Parsed(e, j)
  {
  }

  lemma {:induction false} UnaryAccepts(x: Text, t: seq<Token>, i: nat, d: nat, bare: bool)
    requires Fits(x, 10) && Here(t, i, x) && Stops(t, End(i, x), bare, 10) && d <= 512
    ensures ParseUnary(t, i, d, bare) == Expected(x, d, Parsed(Tree(x), End(i, x)))
    decreases x, 1, 0
  {
    hide Tokens, ParsePostfix, PostfixLoop, LevelOf;
    if x.Prefix? {
      PartsOfPrefix(t, i, x.op, x.operand);
      UnaryAccepts(x.operand, t, i + 1, d, bare);
    } else {
      FirstToken(x, 11);
      assert t[i] == t[i..End(i, x)][0];
      LoopStops(t, End(i, x), d, bare, Tree(x));
      PostfixAccepts(x, t, i, d, bare);
    }
  }

  /** At its own level, the loop goes on after the text. */
  lemma {:induction false} ChainAccepts(x: Text, level: nat, t: seq<Token>, i: nat, d: nat, bare: bool)
    requires level < 10 && Fits(x, level) && Here(t, i, x) && Stops(t, End(i, x), bare, level + 1) && d <= 512
    ensures ParseBinary(t, i, d, bare, level) ==
            Expected(x, d, BinaryLoop(t, End(i, x), d, bare, level, Tree(x)))
    decreases x, 12 - level, 0
  {
    hide Tokens, BinaryLoop;
    if x.Infix? && LevelOf(x.op) == level {
      InfixAccepts(x.op, x.left, x.right, t, i, d, bare);
    } else {
      BinaryAccepts(x, level + 1, t, i, d, bare);
    }
  }

  lemma {:induction false} InfixAccepts(op: Token, l: Text, r: Text, t: seq<Token>, i: nat, d: nat, bare: bool)
    requires LevelOf(op) < 10 && Fits(l, LevelOf(op)) && Fits(r, LevelOf(op) + 1) && d <= 512
    requires Here(t, i, Infix(op, l, r)) && Stops(t, End(i, Infix(op, l, r)), bare, LevelOf(op) + 1)
    ensures ParseBinary(t, i, d, bare, LevelOf(op)) == Expected(Infix(op, l, r), d,
              BinaryLoop(t, End(i, Infix(op, l, r)), d, bare, LevelOf(op), Tree(Infix(op, l, r))))
    decreases Infix(op, l, r), 0, 0
  {
    hide Fits, Tokens, ParseBinary, BinaryLoop, Here, Stops, LevelOf, Canonical;
    PartsOfInfix(t, i, op, l, r);
    OperatorStops(t, End(i, l), bare);
    ChainAccepts(l, LevelOf(op), t, i, d, bare);
    BinaryAccepts(r, LevelOf(op) + 1, t, End(i, l) + 1, d, bare);
    LoopStep(t, End(i, l), d, bare, Tree(l));
  }

  lemma OperatorStops(t: seq<Token>, j: nat, bare: bool)
    requires j < |t| && LevelOf(t[j]) < 10
    ensures Stops(t, j, bare, LevelOf(t[j]) + 1)
  {
  }

  lemma LoopStep(t: seq<Token>, j: nat, d: nat, bare: bool, l: Expr)
    requires j < |t| && LevelOf(t[j]) < 10
    ensures BinaryLoop(t, j, d, bare, LevelOf(t[j]), l) ==
            AfterOperand(t, d, bare, t[j], l, ParseBinary(t, j + 1, d, bare, LevelOf(t[j]) + 1))
  {
    hide ParseBinary;
  }

  function AfterOperand(t: seq<Token>, d: nat, bare: bool, op: Token, l: Expr, r: Answer): Answer
    requires LevelOf(op) < 10 && (r.Parsed? ==> r.next <= |t|)
  {
    if r.Parsed? then BinaryLoop(t, r.next, d, bare, LevelOf(op), Binary(Canonical(op), l, r.e)) else r
  }

  lemma {:induction false} BinaryAccepts(x: Text, level: nat, t: seq<Token>, i: nat, d: nat, bare: bool)
    requires level <= 10 && Fits(x, level) && Here(t, i, x) && Stops(t, End(i, x), bare, level) && d <= 512
    ensures ParseBinary(t, i, d, bare, level) == Expected(x, d, Parsed(Tree(x), End(i, x)))
    decreases x, 12 - level, 1
  {
    if level == 10 {
      FirstToken(x, 10);
      var s := t[i..i + |Tokens(x)|];
      assert s[0] == t[i];
      UnaryAccepts(x, t, i, d, bare);
    } else {
      ChainAccepts(x, level, t, i, d, bare);
    }
  }

  /** Every text of the grammar is parsed to its tree and to its end, exactly when its
      parentheses and brackets nest fewer than 512 deep. */
  lemma {:induction false} TextAccepted(x: Text, t: seq<Token>, i: nat, d: nat, bare: bool)
    requires Fits(x, 0) && Here(t, i, x) && Stops(t, End(i, x), bare, 0) && d <= 512
    ensures ParseExpr(t, i, d, bare) == if d + Nest(x) < 512 then Parsed(Tree(x), End(i, x)) else Failed
    decreases x, 13, 0
  {
    if d < 512 {
      BinaryAccepts(x, 0, t, i, d + 1, bare);
    }
  }

  function Opens(n: nat): seq<Token> {
    seq(n, i => Sym(LParen))
  }

  /** 512 opening parentheses and nothing behind them: the error message asks for a token that is not
      there. One parenthesis less is an ordinary syntax error. */
  lemma {:induction false} OpensCrash(n: nat, i: nat, bare: bool)
    requires i <= n <= 512
    ensures ParseExpr(Opens(n), i, i, bare) == if n == 512 then Crashed else Failed
    decreases 512 - i
  {
    if i < n {
      OpensCrash(n, i + 1, false);
      OpenStep(Opens(n), i, bare);
    } else if n < 512 {
      NothingFails(Opens(n), i + 1, bare, 0);
      AtDepth(Opens(n), i, i, bare);
    }
  }

  lemma OpenStep(t: seq<Token>, i: nat, bare: bool)
    requires i < |t| && t[i] == Sym(LParen) && (i + 1 < |t| ==> t[i + 1] == Sym(LParen)) && i < 512
    requires !ParseExpr(t, i + 1, i + 1, false).Parsed?
    ensures ParseExpr(t, i, i, bare) == ParseExpr(t, i + 1, i + 1, false)
  {
    hide ParseExpr, ParseBinary;
    assert ParsePrimary(t, i, i + 1, bare) == ParseExpr(t, i + 1, i + 1, false);
    assert ParseUnary(t, i, i + 1, bare) == ParseExpr(t, i + 1, i + 1, false);
    LevelsPass(t, i, i + 1, bare, 0, ParseExpr(t, i + 1, i + 1, false));
    AtDepth(t, i, i, bare);
  }

  lemma AtDepth(t: seq<Token>, i: nat, d: nat, bare: bool)
    requires i <= |t| && d < 512
    ensures ParseExpr(t, i, d, bare) == ParseBinary(t, i, d + 1, bare, 0)
  {
  }

  lemma {:induction false} LevelsPass(t: seq<Token>, i: nat, d: nat, bare: bool, level: nat, r: Answer)
    requires i <= |t| && level <= 10 && ParseCast(t, i, d, bare) == r && !r.Parsed?
    ensures ParseBinary(t, i, d, bare, level) == r
    decreases 10 - level
  {
    if level < 10 {
      LevelsPass(t, i, d, bare, level + 1, r);
    }
  }

  lemma NothingFails(t: seq<Token>, d: nat, bare: bool, level: nat)
    requires level <= 10
    ensures ParseBinary(t, |t|, d, bare, level) == Failed
  {
    assert ParsePrimary(t, |t|, d, bare) == Failed;
    assert ParseUnary(t, |t|, d, bare) == Failed;
    LevelsPass(t, |t|, d, bare, level, Failed);
  }
}
