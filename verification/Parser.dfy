/** The recursive descent parser as it runs, with its cursor, depth counter and flag. */
module Parser {
  import opened Grammar
  import Precedence

  class Reader {
    const tokens: seq<Token>
    var pos: nat
    var depth: nat
    var noStructLit: bool

    ghost predicate Valid()
      reads this
    {
      pos <= |tokens|
    }

    constructor (t: seq<Token>)
      ensures Valid() && tokens == t && pos == 0 && depth == 0 && !noStructLit
    {
      tokens, pos, depth, noStructLit := t, 0, 0, false;
    }

    predicate AtSymbol(x: Token)
      reads this
    {
      At(tokens, pos, x)
    }

    /** The parser has done what `r` says: the cursor is behind what was parsed, and the depth
        and the flag are back where they were. */
    twostate predicate Did(r: Answer, result: Answer)
      reads this
    {
      && Valid() && depth == old(depth) && noStructLit == old(noStructLit)
      && result == r && (r.Parsed? ==> pos == r.next)
    }

    /** ST_match_binop: a walk through one row of the table. */
    method MatchBinop(level: nat) returns (op: bool)
      requires Valid() && level < 10
      ensures op <==> pos < |tokens| && LevelOf(tokens[pos]) == level
      ensures op <==> pos < |tokens| && Precedence.Group(tokens[pos]) == level
    {
      op := false;
      if pos < |tokens| {
        TableLevels(tokens[pos], level);
        Precedence.GroupIsLevel(tokens[pos]);
        var row := Row(level);
        var k := 0;
        while k < |row| && !op
          invariant k <= |row| && op == (tokens[pos] in row[..k])
        {
          op := tokens[pos] == row[k];
          k := k + 1;
        }
        if !op {
          assert row[..k] == row;
        }
      }
    }

    /** ST_parse_expr. */
    method ParseExpr() returns (r: Answer)
      requires Valid()
      modifies this
      ensures Did(Grammar.ParseExpr(tokens, old(pos), old(depth), old(noStructLit)), r)
      decreases |tokens| - pos, 20
    {
      if depth >= 512 {
        return if pos < |tokens| then Failed else Crashed;
      }
      depth := depth + 1;
      r := ParseBinary(0);
      depth := depth - 1;
    }

    /** ST_parse_binary. */
    method ParseBinary(level: nat) returns (r: Answer)
      requires Valid() && level <= 10
      modifies this
      ensures Did(Grammar.ParseBinary(tokens, old(pos), old(depth), old(noStructLit), level), r)
      decreases |tokens| - pos, 15 - level
    {
      if level == 10 {
        r := ParseCastExpr();
        return;
      }
      r := ParseBinary(level + 1);
      if !r.Parsed? {
        return;
      }
      var l := r.e;
      ghost var goal := BinaryLoop(tokens, pos, depth, noStructLit, level, l);
      var op := MatchBinop(level);
      while op
        invariant Valid() && depth == old(depth) && noStructLit == old(noStructLit) && old(pos) < pos
        invariant op <==> pos < |tokens| && LevelOf(tokens[pos]) == level
        invariant BinaryLoop(tokens, pos, depth, noStructLit, level, l) == goal
        decreases |tokens| - pos
      {
        var t := tokens[pos];
        pos := pos + 1;
        r := ParseBinary(level + 1);
        if !r.Parsed? {
          return;
        }
        l := Binary(Canonical(t), l, r.e);
        op := MatchBinop(level);
      }
      r := Parsed(l, pos);
    }

    /** ST_parse_cast_expr. */
    method ParseCastExpr() returns (r: Answer)
      requires Valid()
      modifies this
      ensures Did(ParseCast(tokens, old(pos), old(depth), old(noStructLit)), r)
      decreases |tokens| - pos, 4
    {
      if AtSymbol(Kw(CastKw)) {
        return Outside;
      }
      r := ParseUnary();
      if r.Parsed? && AtSymbol(Sym(AsSym)) {
        r := Outside;
      }
    }

    /** ST_parse_unary. */
    method ParseUnary() returns (r: Answer)
      requires Valid()
      modifies this
      ensures Did(Grammar.ParseUnary(tokens, old(pos), old(depth), old(noStructLit)), r)
      decreases |tokens| - pos, 3
    {
      if pos < |tokens| && IsUnary(tokens[pos]) {
        var t := tokens[pos];
        pos := pos + 1;
        r := ParseUnary();
        if r.Parsed? {
          r := Parsed(Unary(Canonical(t), r.e), pos);
        }
      } else {
        r := ParsePostfix();
      }
    }

    /** ST_parse_postfix. */
    method ParsePostfix() returns (r: Answer)
      requires Valid()
      modifies this
      ensures Did(Grammar.ParsePostfix(tokens, old(pos), old(depth), old(noStructLit)), r)
      decreases |tokens| - pos, 2
    {
      r := ParsePrimary();
      if !r.Parsed? {
        return;
      }
      var e := r.e;
      ghost var goal := PostfixLoop(tokens, pos, depth, noStructLit, e);
      while AtSymbol(Sym(Dot)) || AtSymbol(Sym(LBrack))
        invariant Valid() && depth == old(depth) && noStructLit == old(noStructLit) && old(pos) < pos
        invariant PostfixLoop(tokens, pos, depth, noStructLit, e) == goal
        decreases |tokens| - pos
      {
        if AtSymbol(Sym(Dot)) {
          pos := pos + 1;
          if pos == |tokens| || !tokens[pos].Ident? {
            return Failed;
          }
          e := Field(e, tokens[pos].name);
          pos := pos + 1;
        } else {
          pos := pos + 1;
          var save := noStructLit;
          noStructLit := false;
          r := ParseExpr();
          noStructLit := save;
          if !r.Parsed? {
            return;
          }
          if !AtSymbol(Sym(RBrack)) {
            return Failed;
          }
          pos := pos + 1;
          e := Index(e, r.e);
        }
      }
      r := if AtSymbol(Sym(LParen)) then Outside else Parsed(e, pos);
    }

    /** ST_parse_primary. */
    method ParsePrimary() returns (r: Answer)
      requires Valid()
      modifies this
      ensures Did(Grammar.ParsePrimary(tokens, old(pos), old(depth), old(noStructLit)), r)
      decreases |tokens| - pos, 1
    {
      if AtSymbol(Sym(LParen)) && !FoldAt(tokens, pos) {
        pos := pos + 1;
        var save := noStructLit;
        noStructLit := false;
        r := ParseExpr();
        noStructLit := save;
        if r.Parsed? {
          if AtSymbol(Sym(RParen)) {
            pos := pos + 1;
            r := Parsed(r.e, pos);
          } else {
            r := Failed;
          }
        }
      } else {
        r := Simple();
        if r.Parsed? {
          pos := r.next;
        }
      }
    }

    /** The primaries without an expression inside. */
    method Simple() returns (r: Answer)
      requires Valid() && (AtSymbol(Sym(LParen)) ==> FoldAt(tokens, pos))
      ensures r == Grammar.ParsePrimary(tokens, pos, depth, noStructLit)
    {
      if pos == |tokens| {
        return Failed;
      }
      match tokens[pos]
      case Lit(l) => r := Parsed(Value(l), pos + 1);
      case Kw(TrueKw) => r := Parsed(Truth(true), pos + 1);
      case Kw(FalseKw) => r := Parsed(Truth(false), pos + 1);
      case Kw(NullKw) => r := Parsed(Null, pos + 1);
      case Kw(k) => r := if k.TypeQuery? then Outside else Failed;
      case Ident(x) => r := ParseName(tokens, pos, noStructLit, x);
      case TypeName(x) => r := ParseName(tokens, pos, noStructLit, x);
      case Sym(Dot) =>
        if At(tokens, pos + 1, Sym(LBrace)) {
          r := Outside;
        } else if pos + 1 < |tokens| && tokens[pos + 1].Ident? {
          r := Parsed(Field(Name("."), tokens[pos + 1].name), pos + 2);
        } else {
          r := Failed;
        }
      case Sym(LParen) => r := Parsed(PackFold(tokens[pos + 1].name, tokens[pos + 2].s), pos + 5);
      case Sym(s) => r := if s.LBrack? || s.LBrace? || s.Directive? then Outside else Failed;
    }
  }
}
