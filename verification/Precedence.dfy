/** Which operators bind tighter, said without the parser's table: the operators in ten groups, and
    the tree of any chain of operands. */
module Precedence {
  import opened Grammar
  import ParseRight
  import ParseSound

  /** The group of a binary operator, the loosest first; 10 for every other token. */
  function Group(t: Token): (n: nat)
    ensures n <= 10
  {
    if t == Kw(OrKw) then 0
    else if t == Kw(AndKw) then 1
    else if !t.Sym? then 10
    else if t.s.OrOr? then 0
    else if t.s.AndAnd? then 1
    else if t.s.EqEq? || t.s.NotEq? then 2
    else if t.s.Le? || t.s.Ge? || t.s.Lt? || t.s.Gt? then 3
    else if t.s.Bar? then 4
    else if t.s.Caret? then 5
    else if t.s.Amp? then 6
    else if t.s.Shl? || t.s.Shr? then 7
    else if t.s.Plus? || t.s.Minus? then 8
    else if t.s.Star? || t.s.Slash? || t.s.Percent? then 9
    else 10
  }

  /** The operator that a token is kept as: `or`, `and` and `not` are `||`, `&&` and `!`. */
  function Operator(t: Token): Symbol {
    if t == Kw(OrKw) then OrOr else if t == Kw(AndKw) then AndAnd else if t == Kw(NotKw) then Bang
    else if t.Sym? then t.s else OtherSym("")
  }

  predicate IsPrefix(t: Token) {
    t == Sym(Minus) || t == Sym(Bang) || t == Kw(NotKw) || t == Sym(Tilde) || t == Sym(Star) || t == Sym(Amp)
  }

  lemma GroupIsLevel(t: Token)
    ensures Group(t) == LevelOf(t) && IsPrefix(t) == IsUnary(t)
    ensures Group(t) < 10 || IsPrefix(t) ==> Operator(t) == Canonical(t)
  {
    if t.Sym? {
      SymbolGroup(t.s);
    } else if t.Kw? {
      WordGroup(t.k);
    }
  }

  lemma SymbolGroup(s: Symbol)
    ensures Group(Sym(s)) == LevelOf(Sym(s)) && Operator(Sym(s)) == s
  {
  }

  lemma WordGroup(k: Keyword)
    ensures Group(Kw(k)) == LevelOf(Kw(k))
    ensures Group(Kw(k)) < 10 || k == NotKw ==> Operator(Kw(k)) == Canonical(Kw(k))
  {
  }

  /** An atom with prefix operators before it and members behind it, as in `-!a.f.g`. */
  datatype Operand = Operand(prefixes: seq<Token>, atom: Token, fields: seq<string>)

  predicate IsOperand(x: Operand) {
    && (x.atom.Lit? || x.atom.Ident? || x.atom.TypeName? || x.atom in [Kw(TrueKw), Kw(FalseKw), Kw(NullKw)])
    && forall k :: 0 <= k < |x.prefixes| ==> IsPrefix(x.prefixes[k])
  }

  /** The tokens of the members: a dot and a name each. */
  function FieldTokens(fields: seq<string>): seq<Token> {
    if fields == [] then [] else FieldTokens(fields[..|fields| - 1]) + [Sym(Dot), Ident(fields[|fields| - 1])]
  }

  function OperandTokens(x: Operand): seq<Token> {
    x.prefixes + [x.atom] + FieldTokens(x.fields)
  }

  function LeafTree(t: Token): Expr {
    match t
    case Lit(l) => Value(l)
    case Ident(n) => Name(n)
    case TypeName(n) => Name(n)
    case Kw(TrueKw) => Truth(true)
    case Kw(FalseKw) => Truth(false)
    case _ => Null
  }

  function FieldTree(e: Expr, fields: seq<string>): Expr {
    if fields == [] then e else Field(FieldTree(e, fields[..|fields| - 1]), fields[|fields| - 1])
  }

  function PrefixTree(prefixes: seq<Token>, e: Expr): Expr {
    if prefixes == [] then e else Unary(Operator(prefixes[0]), PrefixTree(prefixes[1..], e))
  }

  /** Members bind tighter than prefix operators. */
  function OperandTree(x: Operand): Expr {
    PrefixTree(x.prefixes, FieldTree(LeafTree(x.atom), x.fields))
  }

  // ----- chains of operands -----

  ghost predicate IsChain(xs: seq<Operand>, ops: seq<Token>) {
    && |xs| == |ops| + 1 && (forall k :: 0 <= k < |xs| ==> IsOperand(xs[k]))
    && forall k :: 0 <= k < |ops| ==> Group(ops[k]) < 10
  }

  function ChainTokens(xs: seq<Operand>, ops: seq<Token>): (ts: seq<Token>)
    requires |xs| == |ops| + 1
  {
    OperandTokens(xs[0]) + (if ops == [] then [] else [ops[0]] + ChainTokens(xs[1..], ops[1..]))
  }

  /** The last of the operators that bind loosest. */
  function LastLoosest(ops: seq<Token>): (k: nat)
    requires |ops| > 0
    ensures k < |ops| && forall j :: 0 <= j < |ops| ==> Group(ops[k]) <= Group(ops[j])
    ensures forall j :: k < j < |ops| ==> Group(ops[k]) < Group(ops[j])
  {
    if |ops| == 1 then 0
    else
      var k := LastLoosest(ops[..|ops| - 1]);
      if Group(ops[|ops| - 1]) <= Group(ops[k]) then |ops| - 1 else k
  }

  /** The root is the last of the loosest operators: operators of one group associate to the left. */
  function ChainTree(xs: seq<Operand>, ops: seq<Token>): Expr
    requires |xs| == |ops| + 1
    decreases |ops|
  {
    if ops == [] then OperandTree(xs[0])
    else
      var k := LastLoosest(ops);
      Binary(Operator(ops[k]), ChainTree(xs[..k + 1], ops[..k]), ChainTree(xs[k + 1..], ops[k + 1..]))
  }

  // ----- the same as a text of the grammar -----

  function FieldText(x: Text, fields: seq<string>): Text {
    if fields == [] then x else Member(FieldText(x, fields[..|fields| - 1]), fields[|fields| - 1])
  }

  function PrefixText(prefixes: seq<Token>, x: Text): Text {
    if prefixes == [] then x else Prefix(prefixes[0], PrefixText(prefixes[1..], x))
  }

  function OperandText(x: Operand): Text {
    PrefixText(x.prefixes, FieldText(Atom(x.atom), x.fields))
  }

  lemma {:induction false} FieldTextRight(t: Token, fields: seq<string>)
    requires IsAtom(t)
    ensures
      var x := FieldText(Atom(t), fields);
      Fits(x, 11) && Tokens(x) == [t] + FieldTokens(fields) && Tree(x) == FieldTree(LeafTree(t), fields) && Nest(x) == 0
  {
    if fields != [] {
      FieldTextRight(t, fields[..|fields| - 1]);
    }
  }

  lemma {:induction false} PrefixTextRight(prefixes: seq<Token>, x: Text)
    requires Fits(x, 11) && Nest(x) == 0
    requires forall k :: 0 <= k < |prefixes| ==> IsPrefix(prefixes[k])
    ensures
      var y := PrefixText(prefixes, x);
      Fits(y, 10) && Tokens(y) == prefixes + Tokens(x) && Tree(y) == PrefixTree(prefixes, Tree(x)) && Nest(y) == 0
  {
    hide IsPrefix, IsUnary, Operator, Canonical, Fits, Tokens, Tree, Nest;
    if prefixes == [] {
      FitsLower(x);
      assert prefixes + Tokens(x) == Tokens(x);
    } else {
      PrefixTextRight(prefixes[1..], x);
      GroupIsLevel(prefixes[0]);
      PrefixStep(prefixes[0], PrefixText(prefixes[1..], x));
      assert prefixes + Tokens(x) == [prefixes[0]] + (prefixes[1..] + Tokens(x));
    }
  }

  lemma FitsLower(x: Text)
    requires Fits(x, 11)
    ensures Fits(x, 10)
  {
  }

  lemma PrefixStep(op: Token, x: Text)
    requires IsUnary(op) && Fits(x, 10) && Nest(x) == 0
    ensures Fits(Prefix(op, x), 10) && Nest(Prefix(op, x)) == 0
    ensures Tokens(Prefix(op, x)) == [op] + Tokens(x) && Tree(Prefix(op, x)) == Unary(Canonical(op), Tree(x))
  {
  }

  lemma InfixStep(op: Token, l: Text, r: Text, level: nat)
    requires LevelOf(op) < 10 && level <= LevelOf(op) && Fits(l, LevelOf(op)) && Fits(r, LevelOf(op) + 1)
    requires Nest(l) == 0 && Nest(r) == 0
    ensures Fits(Infix(op, l, r), level) && Nest(Infix(op, l, r)) == 0
    ensures Tokens(Infix(op, l, r)) == Tokens(l) + [op] + Tokens(r)
    ensures Tree(Infix(op, l, r)) == Binary(Canonical(op), Tree(l), Tree(r))
  {
  }

  lemma {:induction false} FitsAnyLevel(x: Text, level: nat)
    requires Fits(x, 10) && level <= 10
    ensures Fits(x, level)
  {
  }

  lemma OperandTextRight(x: Operand)
    requires IsOperand(x)
    ensures
      var y := OperandText(x);
      Fits(y, 10) && Tokens(y) == OperandTokens(x) && Tree(y) == OperandTree(x) && Nest(y) == 0
  {
    FieldTextRight(x.atom, x.fields);
    PrefixTextRight(x.prefixes, FieldText(Atom(x.atom), x.fields));
  }

  function ChainText(xs: seq<Operand>, ops: seq<Token>): Text
    requires |xs| == |ops| + 1
    decreases |ops|
  {
    if ops == [] then OperandText(xs[0])
    else
      var k := LastLoosest(ops);
      Infix(ops[k], ChainText(xs[..k + 1], ops[..k]), ChainText(xs[k + 1..], ops[k + 1..]))
  }

  lemma {:induction false} ChainSplits(xs: seq<Operand>, ops: seq<Token>, k: nat)
    requires |xs| == |ops| + 1 && k < |ops|
    ensures ChainTokens(xs, ops) ==
      ChainTokens(xs[..k + 1], ops[..k]) + [ops[k]] + ChainTokens(xs[k + 1..], ops[k + 1..])
  {
    if k > 0 {
      ChainSplits(xs[1..], ops[1..], k - 1);
      assert xs[1..][..k] == xs[..k + 1][1..] && ops[1..][..k - 1] == ops[..k][1..];
      assert xs[1..][k..] == xs[k + 1..] && ops[1..][k..] == ops[k + 1..];
    }
  }

  lemma {:induction false} ChainTextRight(xs: seq<Operand>, ops: seq<Token>, level: nat)
    requires IsChain(xs, ops) && level <= 10 && forall k :: 0 <= k < |ops| ==> level <= Group(ops[k])
    ensures
      var x := ChainText(xs, ops);
      Fits(x, level) && Tokens(x) == ChainTokens(xs, ops) && Tree(x) == ChainTree(xs, ops) && Nest(x) == 0
    decreases |ops|
  {
    hide Group, Operator, Canonical, LevelOf, Fits, Tokens, Tree, Nest, OperandText, OperandTree, IsOperand, LastLoosest, ChainTokens;
    if ops == [] {
      OperandTextRight(xs[0]);
      FitsAnyLevel(OperandText(xs[0]), level);
      OneOperand(xs);
    } else {
      var k := LastLoosest(ops);
      GroupIsLevel(ops[k]);
      ChainTextRight(xs[..k + 1], ops[..k], Group(ops[k]));
      ChainTextRight(xs[k + 1..], ops[k + 1..], Group(ops[k]) + 1);
      ChainSplits(xs, ops, k);
      InfixStep(ops[k], ChainText(xs[..k + 1], ops[..k]), ChainText(xs[k + 1..], ops[k + 1..]), level);
    }
  }

  lemma OneOperand(xs: seq<Operand>)
    requires |xs| == 1
    ensures ChainTokens(xs, []) == OperandTokens(xs[0])
  {
  }

  /** Any chain of operands and operators is parsed to its end, and to the tree whose root is the
      last of its loosest operators. */
  lemma ChainParsed(xs: seq<Operand>, ops: seq<Token>, bare: bool)
    requires IsChain(xs, ops)
    ensures ParseExpr(ChainTokens(xs, ops), 0, 0, bare) == Parsed(ChainTree(xs, ops), |ChainTokens(xs, ops)|)
  {
    var x := ChainText(xs, ops);
    var t := ChainTokens(xs, ops);
    ChainTextRight(xs, ops, 0);
    assert t[0..|t|] == t;
    ParseRight.TextAccepted(x, t, 0, 0, bare);
  }

  /** Two operators: the second takes the operand between them only if its group is a later one. */
  lemma TwoOperators(a: Token, p: Token, b: Token, q: Token, c: Token, bare: bool)
    requires forall x | x in [a, b, c] :: IsOperand(Operand([], x, []))
    requires Group(p) < 10 && Group(q) < 10
    ensures ParseExpr([a, p, b, q, c], 0, 0, bare) ==
      Parsed(if Group(q) > Group(p)
             then Binary(Operator(p), LeafTree(a), Binary(Operator(q), LeafTree(b), LeafTree(c)))
             else Binary(Operator(q), Binary(Operator(p), LeafTree(a), LeafTree(b)), LeafTree(c)), 5)
  {
    hide ParseExpr, IsOperand, Group, Operator, ChainTokens, ChainTree;
    var x, y, z := Operand([], a, []), Operand([], b, []), Operand([], c, []);
    assert a in [a, b, c] && b in [a, b, c] && c in [a, b, c];
    ChainParsed([x, y, z], [p, q], bare);
    ThreeTokens(a, p, b, q, c);
    ThreeTree(x, p, y, q, z);
  }

  lemma ThreeTokens(a: Token, p: Token, b: Token, q: Token, c: Token)
    ensures ChainTokens([Operand([], a, []), Operand([], b, []), Operand([], c, [])], [p, q]) == [a, p, b, q, c]
  {
    var x, y, z := Operand([], a, []), Operand([], b, []), Operand([], c, []);
    assert OperandTokens(x) == [a] && OperandTokens(y) == [b] && OperandTokens(z) == [c];
    assert ChainTokens([z], []) == [c];
    assert [y, z][1..] == [z] && [q][1..] == [];
    assert ChainTokens([y, z], [q]) == [b, q, c];
    assert [x, y, z][1..] == [y, z] && [p, q][1..] == [q];
  }

  lemma ThreeTree(x: Operand, p: Token, y: Operand, q: Token, z: Operand)
    requires Group(p) < 10 && Group(q) < 10
    ensures ChainTree([x, y, z], [p, q]) ==
      if Group(q) > Group(p) then Binary(Operator(p), OperandTree(x), Binary(Operator(q), OperandTree(y), OperandTree(z)))
      else Binary(Operator(q), Binary(Operator(p), OperandTree(x), OperandTree(y)), OperandTree(z))
  {
    hide OperandTree, Operator, Group;
    assert ChainTree([x], []) == OperandTree(x) && ChainTree([z], []) == OperandTree(z);
    var k := LastLoosest([p, q]);
    assert [p, q][0] == p && [p, q][1] == q;
    if Group(q) > Group(p) {
      assert k == 0;
      assert [x, y, z][..1] == [x] && [x, y, z][1..] == [y, z] && [p, q][..0] == [] && [p, q][1..] == [q];
      assert [y, z][..1] == [y] && [y, z][1..] == [z] && [q][..0] == [] && [q][1..] == [];
      assert ChainTree([y, z], [q]) == Binary(Operator(q), OperandTree(y), OperandTree(z));
    } else {
      assert k == 1;
      assert [x, y, z][..2] == [x, y] && [x, y, z][2..] == [z] && [p, q][..1] == [p] && [p, q][2..] == [];
      assert [x, y][..1] == [x] && [x, y][1..] == [y] && [p][..0] == [] && [p][1..] == [];
      assert ChainTree([x, y], [p]) == Binary(Operator(p), OperandTree(x), OperandTree(y));
    }
  }

  /** A fold over a pack: between the name and `...` stands an operator symbol of the ten groups, and
      neither a word nor another symbol. */
  lemma FoldExactly(pack: string, op: Token, bare: bool)
    ensures ParseExpr([Sym(LParen), Ident(pack), op, Sym(Ellipsis), Sym(RParen)], 0, 0, bare) ==
              Parsed(PackFold(pack, Operator(op)), 5)
            <==> op.Sym? && Group(op) < 10
  {
    hide ParseExpr;
    var t := [Sym(LParen), Ident(pack), op, Sym(Ellipsis), Sym(RParen)];
    assert t[0..5] == t;
    GroupIsLevel(op);
    if op.Sym? && Group(op) < 10 {
      ParseRight.TextAccepted(Fold(pack, op), t, 0, 0, bare);
    } else if ParseExpr(t, 0, 0, bare) == Parsed(PackFold(pack, Operator(op)), 5) {
      ParseSound.OnlyTexts(t, 0, 0, bare);
      var x :| Fits(x, 0) && ParseRight.Here(t, 0, x) && ParseRight.End(0, x) == 5 && Tree(x) == PackFold(pack, Operator(op));
      FoldTexts(x, pack, op);
    }
  }

  lemma FoldTexts(x: Text, pack: string, op: Token)
    requires Fits(x, 0) && Tokens(x) == [Sym(LParen), Ident(pack), op, Sym(Ellipsis), Sym(RParen)] && Tree(x).PackFold?
    ensures IsFold(op)
  {
    if x.Paren? {
      NoEllipsisInside(x.inner);
    }
  }

  lemma NoEllipsisInside(y: Text)
    requires Fits(y, 0)
    ensures |Tokens(Paren(y))| == 5 ==> Tokens(Paren(y))[3] != Sym(Ellipsis)
  {
    ParseRight.EllipsisLate(y, 0);
    if |Tokens(y)| == 3 {
      assert Tokens(Paren(y))[3] == Tokens(y)[2];
    }
  }
}
