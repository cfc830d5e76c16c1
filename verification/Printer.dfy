/** Printing with as few parentheses as possible, and reading it back. */
module Printer {
  import opened Grammar
  import opened ParseRight
  import opened ParseSound

  /** Trees whose operators are operators, and whose names are names. */
  predicate Printable(e: Expr) {
    match e
    case Name(n) => n != "."
    case Unary(op, x) => IsUnary(Sym(op)) && Printable(x)
    case Binary(op, l, r) => SymbolLevel(op) < 10 && Printable(l) && Printable(r)
    case Field(b, _) => b == Name(".") || Printable(b)
    case Index(b, x) => Printable(b) && Printable(x)
    case PackFold(_, op) => SymbolLevel(op) < 10
    case _ => true
  }

  /** The level of the outermost form. */
  function TopLevel(e: Expr): (n: nat)
    ensures n <= 11
  {
    match e
    case Unary(_, _) => 10
    case Binary(op, _, _) => SymbolLevel(op)
    case _ => 11
  }

  /** The text of `e` where an expression of `level` is expected: parentheses only if needed. */
  function Render(e: Expr, level: nat): Text
    decreases e, 1
  {
    if TopLevel(e) < level then Paren(Plain(e)) else Plain(e)
  }

  function Plain(e: Expr): Text
    decreases e, 0
  {
    match e
    case Value(l) => Atom(Lit(l))
    case Truth(b) => Atom(Kw(if b then TrueKw else FalseKw))
    case Null => Atom(Kw(NullKw))
    case Name(n) => Atom(Ident(n))
    case Unary(op, x) => Prefix(Sym(op), Render(x, 10))
    case Binary(op, l, r) => Infix(Sym(op), Render(l, SymbolLevel(op)), Render(r, SymbolLevel(op) + 1))
    case Field(b, n) => if b == Name(".") then DotName(n) else Member(Render(b, 11), n)
    case Index(b, x) => Element(Render(b, 11), Render(x, 0))
    case PackFold(p, op) => Fold(p, Sym(op))
  }

  lemma {:induction false} RenderRight(e: Expr, level: nat)
    requires Printable(e) && level <= 11
    ensures Fits(Render(e, level), level) && Tree(Render(e, level)) == e
    decreases e, 1
  {
    PlainRight(e, if TopLevel(e) < level then 0 else level);
  }

  lemma {:induction false} PlainRight(e: Expr, level: nat)
    requires Printable(e) && level <= TopLevel(e)
    ensures Fits(Plain(e), level) && Tree(Plain(e)) == e
    decreases e, 0
  {
    match e
    case Unary(_, x) => RenderRight(x, 10);
    case Binary(op, l, r) =>
      RenderRight(l, SymbolLevel(op));
      RenderRight(r, SymbolLevel(op) + 1);
    case Field(b, _) =>
      if b != Name(".") { RenderRight(b, 11); }
    case Index(b, x) =>
      RenderRight(b, 11);
      RenderRight(x, 0);
    case _ =>
  }

  function Print(e: Expr): seq<Token> {
    Tokens(Render(e, 0))
  }

  /** Parsing undoes printing, whatever follows that does not carry the expression on, for
      all trees whose printed form nests fewer than 512 deep; deeper ones are refused. */
  lemma ParseOfPrint(e: Expr, rest: seq<Token>, bare: bool)
    requires Printable(e) && Stops(rest, 0, bare, 0)
    ensures ParseExpr(Print(e) + rest, 0, 0, bare)
         == if Nest(Render(e, 0)) < 512 then Parsed(e, |Print(e)|) else Failed
  {
    hide Fits, Tree, Nest, ParseExpr, LevelOf;
    var x := Render(e, 0);
    var t := Print(e) + rest;
    RenderRight(e, 0);
    assert t[0..|Tokens(x)|] == Tokens(x);
    assert rest != [] ==> t[|Tokens(x)|] == rest[0];
    TextAccepted(x, t, 0, 0, bare);
  }

  /** Two trees that print alike are the same, so the printed form needs no more parentheses. */
  lemma PrintInjective(e: Expr, f: Expr)
    requires Printable(e) && Printable(f) && Print(e) == Print(f)
    requires Nest(Render(e, 0)) < 512 && Nest(Render(f, 0)) < 512
    ensures e == f
  {
    hide Fits, Tokens, Tree, Nest;
    RenderRight(e, 0);
    RenderRight(f, 0);
    Unambiguous(Render(e, 0), Render(f, 0));
  }

  // ----- no parentheses to spare -----

  /** Every pair of parentheses stands around something that does not fit without, and every
      operator and name is written in the plain way. */
  predicate Lean(x: Text, level: nat) {
    match x
    case Atom(t) => !t.TypeName? && t != Ident(".")
    case DotName(_) => true
    case Fold(_, op) => op.Sym?
    case Paren(y) => !Fits(y, level) && Lean(y, 0)
    case Prefix(op, y) => op.Sym? && Lean(y, 10)
    case Infix(op, l, r) => op.Sym? && Lean(l, LevelOf(op)) && Lean(r, LevelOf(op) + 1)
    case Member(b, _) => Lean(b, 11)
    case Element(b, y) => Lean(b, 11) && Lean(y, 0)
  }

  lemma {:induction false} NeverDot(x: Text, level: nat, inner: nat)
    requires Fits(x, level) && Lean(x, inner)
    ensures Tree(x) != Name(".")
  {
    if x.Paren? {
      NeverDot(x.inner, 0, 0);
    }
  }

  /** There is only one such text for a tree, the printed one. */
  lemma {:induction false} LeanIsRendered(x: Text, level: nat)
    requires Fits(x, level) && Lean(x, level) && level <= 11
    ensures x == Render(Tree(x), level)
    decreases x, 1
  {
    if x.Paren? {
      LeanIsRendered(x.inner, 0);
      LowerForm(x.inner, level);
    } else {
      LeanIsPlain(x, level);
      HigherForm(x, level);
    }
  }

  lemma {:induction false} LeanIsPlain(x: Text, level: nat)
    requires Fits(x, level) && Lean(x, level) && level <= 11 && !x.Paren?
    ensures x == Plain(Tree(x))
    decreases x, 0
  {
    match x
    case Prefix(op, y) => LeanIsRendered(y, 10);
    case Infix(op, l, r) =>
      LeanIsRendered(l, LevelOf(op));
      LeanIsRendered(r, LevelOf(op) + 1);
    case Member(b, _) =>
      NeverDot(b, 11, 11);
      LeanIsRendered(b, 11);
    case Element(b, y) =>
      LeanIsRendered(b, 11);
      LeanIsRendered(y, 0);
    case _ =>
  }

  lemma HigherForm(x: Text, level: nat)
    requires Fits(x, level) && Lean(x, level) && level <= 11 && !x.Paren?
    ensures TopLevel(Tree(x)) >= level
  {
  }

  /** What does not fit a level has a form of a lower one. */
  lemma LowerForm(y: Text, level: nat)
    requires Fits(y, 0) && !Fits(y, level) && Lean(y, 0) && level <= 11
    ensures TopLevel(Tree(y)) < level
  {
  }

  /** Printing undoes parsing on texts without spare parentheses. */
  lemma PrintOfParse(t: seq<Token>, x: Text, bare: bool)
    requires Fits(x, 0) && Lean(x, 0) && t == Tokens(x) && Nest(x) < 512
    ensures
      match ParseExpr(t, 0, 0, bare)
      case Parsed(e, j) => j == |t| && Print(e) == t
      case _ => false
  {
    hide Fits, Lean, ParseExpr;
    assert t[0..|t|] == t;
    TextAccepted(x, t, 0, 0, bare);
    LeanIsRendered(x, 0);
  }
}
