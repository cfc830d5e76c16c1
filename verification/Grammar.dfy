/** Expressions of the language: tokens, trees, the layered grammar, and what the recursive
    descent parser answers at each of its levels. */
module Grammar {
  datatype Literal = IntLit(i: int) | FloatLit(bits: int) | StrLit(s: string) | CharLit(c: int)

  datatype Keyword = TrueKw | FalseKw | NullKw | OrKw | AndKw | NotKw | CastKw | TypeQuery | OtherKw(kw: string)

  datatype Symbol =
    | OrOr | AndAnd | EqEq | NotEq | Le | Ge | Lt | Gt | Bar | Caret | Amp | Shl | Shr
    | Plus | Minus | Star | Slash | Percent | Bang | Tilde
    | Dot | LParen | RParen | LBrack | RBrack | LBrace | Ellipsis | AsSym | Directive | OtherSym(sym: string)

  datatype Token = Lit(l: Literal) | Ident(name: string) | TypeName(tname: string) | Kw(k: Keyword) | Sym(s: Symbol)

  /** Operators are kept in the tree by their symbol, also when written as a word. */
  datatype Expr =
    | Value(l: Literal)
    | Truth(b: bool)
    | Null
    | Name(name: string)
    | Unary(op: Symbol, operand: Expr)
    | Binary(op: Symbol, left: Expr, right: Expr)
    | Field(base: Expr, name: string)
    | Index(base: Expr, index: Expr)
    | PackFold(pack: string, op: Symbol)

  /** ST_prec: the operators of each level, loosest first. */
  function Row(level: nat): seq<Token> {
    match level
    case 0 => [Sym(OrOr), Kw(OrKw)]
    case 1 => [Sym(AndAnd), Kw(AndKw)]
    case 2 => [Sym(EqEq), Sym(NotEq)]
    case 3 => [Sym(Le), Sym(Ge), Sym(Lt), Sym(Gt)]
    case 4 => [Sym(Bar)]
    case 5 => [Sym(Caret)]
    case 6 => [Sym(Amp)]
    case 7 => [Sym(Shl), Sym(Shr)]
    case 8 => [Sym(Plus), Sym(Minus)]
    case 9 => [Sym(Star), Sym(Slash), Sym(Percent)]
    case _ => []
  }

  /** The level of a binary operator, or 10. */
  function LevelOf(t: Token): (n: nat)
    ensures n <= 10
  {
    match t
    case Kw(OrKw) => 0
    case Kw(AndKw) => 1
    case Sym(s) => SymbolLevel(s)
    case _ => 10
  }

  function SymbolLevel(s: Symbol): (n: nat)
    ensures n <= 10
  {
    match s
    case OrOr => 0
    case AndAnd => 1
    case EqEq => 2
    case NotEq => 2
    case Le => 3
    case Ge => 3
    case Lt => 3
    case Gt => 3
    case Bar => 4
    case Caret => 5
    case Amp => 6
    case Shl => 7
    case Shr => 7
    case Plus => 8
    case Minus => 8
    case Star => 9
    case Slash => 9
    case Percent => 9
    case _ => 10
  }

  /** The table and the levels say the same: no operator is on two levels. */
  lemma TableLevels(t: Token, level: nat)
    requires level < 10
    ensures t in Row(level) <==> LevelOf(t) == level
  {
    match t
    case Sym(s) =>
    case Kw(k) =>
    case _ =>
  }

  /** The symbol that an operator token stands for. */
  function Canonical(t: Token): Symbol {
    match t
    case Kw(OrKw) => OrOr
    case Kw(AndKw) => AndAnd
    case Sym(s) => s
    case _ => Bang
  }

  predicate IsUnary(t: Token) {
    t in [Sym(Minus), Sym(Bang), Kw(NotKw), Sym(Tilde), Sym(Star), Sym(Amp)]
  }

  /** ST_is_fold_op: an operator symbol of the table; words do not count. */
  predicate IsFold(t: Token) {
    t.Sym? && LevelOf(t) < 10
  }

  // ----- the parser's answers -----

  /** Parsed up to `next`, a syntax error, a form that is not modelled here, or a crash: the error for
      an expression that nests too deep is placed at the next token, which need not exist. */
  datatype Answer = Parsed(e: Expr, next: nat) | Failed | Outside | Crashed

  predicate At(t: seq<Token>, i: nat, x: Token) {
    i < |t| && t[i] == x
  }

  /** `( pack op ... )` */
  predicate FoldAt(t: seq<Token>, i: nat) {
    i + 5 <= |t| && t[i] == Sym(LParen) && t[i + 1].Ident? && IsFold(t[i + 2]) && t[i + 3] == Sym(Ellipsis) && t[i + 4] == Sym(RParen)
  }

  /** ST_parse_expr; `d` is the nesting depth and `bare` says that `{` does not start a literal. */
  function ParseExpr(t: seq<Token>, i: nat, d: nat, bare: bool): (r: Answer)
    requires i <= |t|
    ensures r.Parsed? ==> i < r.next <= |t|
    decreases |t| - i, 20
  {
    if d >= 512 then (if i < |t| then Failed else Crashed) else ParseBinary(t, i, d + 1, bare, 0)
  }

  function ParseBinary(t: seq<Token>, i: nat, d: nat, bare: bool, level: nat): (r: Answer)
    requires i <= |t| && level <= 10
    ensures r.Parsed? ==> i < r.next <= |t|
    decreases |t| - i, 15 - level
  {
    if level == 10 then ParseCast(t, i, d, bare)
    else
      match ParseBinary(t, i, d, bare, level + 1)
      case Parsed(l, j) => BinaryLoop(t, j, d, bare, level, l)
      case r => r
  }

  /** The loop of ST_parse_binary, with `l` parsed so far. */
  function BinaryLoop(t: seq<Token>, i: nat, d: nat, bare: bool, level: nat, l: Expr): (r: Answer)
    requires i <= |t| && level < 10
    ensures r.Parsed? ==> i <= r.next <= |t|
    decreases |t| - i, 0
  {
    if i < |t| && LevelOf(t[i]) == level then
      match ParseBinary(t, i + 1, d, bare, level + 1)
      case Parsed(r, j) => BinaryLoop(t, j, d, bare, level, Binary(Canonical(t[i]), l, r))
      case r => r
    else Parsed(l, i)
  }

  /** ST_parse_cast_expr; casts themselves are outside. */
  function ParseCast(t: seq<Token>, i: nat, d: nat, bare: bool): (r: Answer)
    requires i <= |t|
    ensures r.Parsed? ==> i < r.next <= |t|
    decreases |t| - i, 4
  {
    if At(t, i, Kw(CastKw)) then Outside
    else
      match ParseUnary(t, i, d, bare)
      case Parsed(e, j) => if At(t, j, Sym(AsSym)) then Outside else Parsed(e, j)
      case r => r
  }

  function ParseUnary(t: seq<Token>, i: nat, d: nat, bare: bool): (r: Answer)
    requires i <= |t|
    ensures r.Parsed? ==> i < r.next <= |t|
    decreases |t| - i, 3
  {
    if i < |t| && IsUnary(t[i]) then
      match ParseUnary(t, i + 1, d, bare)
      case Parsed(e, j) => Parsed(Unary(Canonical(t[i]), e), j)
      case r => r
    else ParsePostfix(t, i, d, bare)
  }

  function ParsePostfix(t: seq<Token>, i: nat, d: nat, bare: bool): (r: Answer)
    requires i <= |t|
    ensures r.Parsed? ==> i < r.next <= |t|
    decreases |t| - i, 2
  {
    match ParsePrimary(t, i, d, bare)
    case Parsed(e, j) => PostfixLoop(t, j, d, bare, e)
    case r => r
  }

  /** The loop of ST_parse_postfix; calls are outside. */
  function PostfixLoop(t: seq<Token>, i: nat, d: nat, bare: bool, e: Expr): (r: Answer)
    requires i <= |t|
    ensures r.Parsed? ==> i <= r.next <= |t|
    decreases |t| - i, 0
  {
    if At(t, i, Sym(Dot)) then
      if i + 1 < |t| && t[i + 1].Ident? then PostfixLoop(t, i + 2, d, bare, Field(e, t[i + 1].name)) else Failed
    else if At(t, i, Sym(LParen)) then Outside
    else if At(t, i, Sym(LBrack)) then
      match ParseExpr(t, i + 1, d, false)
      case Parsed(x, j) => if At(t, j, Sym(RBrack)) then PostfixLoop(t, j + 1, d, bare, Index(e, x)) else Failed
      case r => r
    else Parsed(e, i)
  }

  function ParsePrimary(t: seq<Token>, i: nat, d: nat, bare: bool): (r: Answer)
    requires i <= |t|
    ensures r.Parsed? ==> i < r.next <= |t|
    decreases |t| - i, 1
  {
    if i == |t| then Failed
    else
      match t[i]
      case Lit(l) => Parsed(Value(l), i + 1)
      case Kw(k) =>
        (match k
         case TrueKw => Parsed(Truth(true), i + 1)
         case FalseKw => Parsed(Truth(false), i + 1)
         case NullKw => Parsed(Null, i + 1)
         case TypeQuery => Outside
         case _ => Failed)
      case Ident(x) => ParseName(t, i, bare, x)
      case TypeName(x) => ParseName(t, i, bare, x)
      case Sym(s) =>
        (match s
         case Dot =>
           if At(t, i + 1, Sym(LBrace)) then Outside
           else if i + 1 < |t| && t[i + 1].Ident? then Parsed(Field(Name("."), t[i + 1].name), i + 2)
           else Failed
         case LParen =>
           if FoldAt(t, i) then Parsed(PackFold(t[i + 1].name, t[i + 2].s), i + 5)
           else
             (match ParseExpr(t, i + 1, d, false)
              case Parsed(e, j) => if At(t, j, Sym(RParen)) then Parsed(e, j + 1) else Failed
              case r => r)
         case LBrack => Outside
         case LBrace => Outside
         case Directive => Outside
         case _ => Failed)
  }

  /** A name; struct literals and calls, which start with one too, are outside. */
  function ParseName(t: seq<Token>, i: nat, bare: bool, x: string): (r: Answer)
    requires i < |t|
    ensures r.Parsed? ==> r.next == i + 1
  {
    if At(t, i + 1, Sym(LParen)) || (At(t, i + 1, Sym(LBrace)) && !bare) then Outside else Parsed(Name(x), i + 1)
  }

  // ----- the grammar -----

  /** A piece of source text of the modelled forms, with its parentheses and spellings. */
  datatype Text =
    | Atom(t: Token)
    | DotName(name: string)
    | Fold(pack: string, op: Token)
    | Paren(inner: Text)
    | Prefix(op: Token, operand: Text)
    | Infix(op: Token, left: Text, right: Text)
    | Member(base: Text, name: string)
    | Element(base: Text, index: Text)

  predicate IsAtom(t: Token) {
    t.Lit? || t.Ident? || t.TypeName? || t == Kw(TrueKw) || t == Kw(FalseKw) || t == Kw(NullKw)
  }

  /** What may stand at a level: 0 to 9 are those of the table, 10 the prefix operators, and 11
      what may be followed by `.` and `[`. Operators of the table associate to the left. */
  predicate Fits(x: Text, level: nat) {
    match x
    case Atom(t) => IsAtom(t)
    case DotName(_) => true
    case Fold(_, op) => IsFold(op)
    case Paren(y) => Fits(y, 0)
    case Prefix(op, y) => IsUnary(op) && level <= 10 && Fits(y, 10)
    case Infix(op, l, r) => LevelOf(op) < 10 && level <= LevelOf(op) && Fits(l, LevelOf(op)) && Fits(r, LevelOf(op) + 1)
    case Member(b, _) => Fits(b, 11)
    case Element(b, y) => Fits(b, 11) && Fits(y, 0)
  }

  function Tokens(x: Text): (ts: seq<Token>)
    ensures |ts| > 0
  {
    match x
    case Atom(t) => [t]
    case DotName(n) => [Sym(Dot), Ident(n)]
    case Fold(p, op) => [Sym(LParen), Ident(p), op, Sym(Ellipsis), Sym(RParen)]
    case Paren(y) => [Sym(LParen)] + Tokens(y) + [Sym(RParen)]
    case Prefix(op, y) => [op] + Tokens(y)
    case Infix(op, l, r) => Tokens(l) + [op] + Tokens(r)
    case Member(b, n) => Tokens(b) + [Sym(Dot), Ident(n)]
    case Element(b, y) => Tokens(b) + [Sym(LBrack)] + Tokens(y) + [Sym(RBrack)]
  }

  function AtomTree(t: Token): Expr {
    match t
    case Lit(l) => Value(l)
    case Ident(n) => Name(n)
    case TypeName(n) => Name(n)
    case Kw(TrueKw) => Truth(true)
    case Kw(FalseKw) => Truth(false)
    case _ => Null
  }

  /** The tree that a text means. */
  function Tree(x: Text): Expr {
    match x
    case Atom(t) => AtomTree(t)
    case DotName(n) => Field(Name("."), n)
    case Fold(p, op) => PackFold(p, Canonical(op))
    case Paren(y) => Tree(y)
    case Prefix(op, y) => Unary(Canonical(op), Tree(y))
    case Infix(op, l, r) => Binary(Canonical(op), Tree(l), Tree(r))
    case Member(b, n) => Field(Tree(b), n)
    case Element(b, y) => Index(Tree(b), Tree(y))
  }

  /** How deep parentheses and brackets nest. */
  function Nest(x: Text): nat {
    match x
    case Atom(_) => 0
    case DotName(_) => 0
    case Fold(_, _) => 0
    case Paren(y) => Nest(y) + 1
    case Prefix(_, y) => Nest(y)
    case Infix(_, l, r) => if Nest(l) > Nest(r) then Nest(l) else Nest(r)
    case Member(b, _) => Nest(b)
    case Element(b, y) => if Nest(b) > Nest(y) + 1 then Nest(b) else Nest(y) + 1
  }
}
