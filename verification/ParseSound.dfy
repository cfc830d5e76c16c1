/** Nothing but the texts of the grammar is accepted. */
module ParseSound {
  import opened Grammar
  import opened ParseRight

  /** `x` stands at `i`, ends at `j`, belongs to the level, and means `e`. */
  predicate Reads(x: Text, level: nat, t: seq<Token>, i: nat, j: nat, d: nat, e: Expr) {
    Fits(x, level) && i + |Tokens(x)| == j <= |t| && t[i..j] == Tokens(x) && Tree(x) == e && d + Nest(x) <= 512
  }

  lemma LowerLevel(x: Text, level: nat, lower: nat)
    requires Fits(x, level) && lower <= level
    ensures Fits(x, lower)
  {
  }

  lemma {:induction false} BinarySound(t: seq<Token>, i: nat, d: nat, bare: bool, level: nat) returns (x: Text)
    requires i <= |t| && level <= 10 && d <= 512 && ParseBinary(t, i, d, bare, level).Parsed?
    ensures
      var r := ParseBinary(t, i, d, bare, level);
      Reads(x, level, t, i, r.next, d, r.e)
    decreases |t| - i, 15 - level
  {
    if level == 10 {
      x := CastSound(t, i, d, bare);
    } else {
      x := BinarySound(t, i, d, bare, level + 1);
      LowerLevel(x, level + 1, level);
      var l := ParseBinary(t, i, d, bare, level + 1);
      x := LoopSound(t, i, l.next, d, bare, level, x, l.e);
    }
  }

  lemma {:induction false} LoopSound(t: seq<Token>, i: nat, k: nat, d: nat, bare: bool, level: nat, l: Text, e: Expr)
    returns (x: Text)
    requires i < k <= |t| && level < 10 && d <= 512 && BinaryLoop(t, k, d, bare, level, e).Parsed?
    requires Reads(l, level, t, i, k, d, e)
    ensures
      var r := BinaryLoop(t, k, d, bare, level, e);
      Reads(x, level, t, i, r.next, d, r.e)
    decreases |t| - k, 0
  {
    if k < |t| && LevelOf(t[k]) == level {
      var b := ParseBinary(t, k + 1, d, bare, level + 1);
      var r := BinarySound(t, k + 1, d, bare, level + 1);
      Joined(t, i, k, b.next, d, t[k], l, r, e, b.e);
      x := LoopSound(t, i, b.next, d, bare, level, Infix(t[k], l, r), Binary(Canonical(t[k]), e, b.e));
    } else {
      x := l;
    }
  }

  lemma Joined(t: seq<Token>, i: nat, k: nat, j: nat, d: nat, op: Token, l: Text, r: Text, e1: Expr, e2: Expr)
    requires i <= k < j <= |t| && t[k] == op && LevelOf(op) < 10
    requires Reads(l, LevelOf(op), t, i, k, d, e1) && Reads(r, LevelOf(op) + 1, t, k + 1, j, d, e2)
    ensures Reads(Infix(op, l, r), LevelOf(op), t, i, j, d, Binary(Canonical(op), e1, e2))
  {
    assert t[i..j] == t[i..k] + [t[k]] + t[k + 1..j];
  }

  lemma JoinedMember(t: seq<Token>, i: nat, k: nat, d: nat, b: Text, e: Expr)
    requires i <= k && At(t, k, Sym(Dot)) && k + 1 < |t| && t[k + 1].Ident? && Reads(b, 11, t, i, k, d, e)
    ensures Reads(Member(b, t[k + 1].name), 11, t, i, k + 2, d, Field(e, t[k + 1].name))
  {
    assert t[i..k + 2] == t[i..k] + [t[k], t[k + 1]];
  }

  lemma JoinedElement(t: seq<Token>, i: nat, k: nat, j: nat, d: nat, b: Text, y: Text, e1: Expr, e2: Expr)
    requires i <= k < j && At(t, k, Sym(LBrack)) && At(t, j, Sym(RBrack))
    requires Reads(b, 11, t, i, k, d, e1) && Reads(y, 0, t, k + 1, j, d + 1, e2)
    ensures Reads(Element(b, y), 11, t, i, j + 1, d, Index(e1, e2))
  {
    assert t[i..j + 1] == t[i..k] + [t[k]] + t[k + 1..j] + [t[j]];
  }

  lemma JoinedParen(t: seq<Token>, i: nat, j: nat, d: nat, y: Text, e: Expr)
    requires i < j && At(t, i, Sym(LParen)) && At(t, j, Sym(RParen)) && Reads(y, 0, t, i + 1, j, d + 1, e)
    ensures Reads(Paren(y), 11, t, i, j + 1, d, e)
  {
    assert t[i..j + 1] == [t[i]] + t[i + 1..j] + [t[j]];
  }

  lemma JoinedFold(t: seq<Token>, i: nat, d: nat)
    requires FoldAt(t, i) && d <= 512
    ensures Reads(Fold(t[i + 1].name, t[i + 2]), 11, t, i, i + 5, d, PackFold(t[i + 1].name, t[i + 2].s))
  {
    assert t[i..i + 5] == [t[i], t[i + 1], t[i + 2], t[i + 3], t[i + 4]];
  }

  lemma {:induction false} CastSound(t: seq<Token>, i: nat, d: nat, bare: bool) returns (x: Text)
    requires i <= |t| && d <= 512 && ParseCast(t, i, d, bare).Parsed?
    ensures
      var r := ParseCast(t, i, d, bare);
      Reads(x, 10, t, i, r.next, d, r.e)
    decreases |t| - i, 4
  {
    x := UnarySound(t, i, d, bare);
  }

  lemma {:induction false} UnarySound(t: seq<Token>, i: nat, d: nat, bare: bool) returns (x: Text)
    requires i <= |t| && d <= 512 && ParseUnary(t, i, d, bare).Parsed?
    ensures
      var r := ParseUnary(t, i, d, bare);
      Reads(x, 10, t, i, r.next, d, r.e)
    decreases |t| - i, 3
  {
    if i < |t| && IsUnary(t[i]) {
      var y := UnarySound(t, i + 1, d, bare);
      x := Prefix(t[i], y);
      var j := ParseUnary(t, i + 1, d, bare).next;
      assert t[i..j] == [t[i]] + t[i + 1..j];
    } else {
      x := PostfixSound(t, i, d, bare);
      LowerLevel(x, 11, 10);
    }
  }

  lemma {:induction false} PostfixSound(t: seq<Token>, i: nat, d: nat, bare: bool) returns (x: Text)
    requires i <= |t| && d <= 512 && ParsePostfix(t, i, d, bare).Parsed?
    ensures
      var r := ParsePostfix(t, i, d, bare);
      Reads(x, 11, t, i, r.next, d, r.e)
    decreases |t| - i, 2
  {
    x := PrimarySound(t, i, d, bare);
    var p := ParsePrimary(t, i, d, bare);
    x := ChainSound(t, i, p.next, d, bare, x, p.e);
  }

  lemma {:induction false} ChainSound(t: seq<Token>, i: nat, k: nat, d: nat, bare: bool, b: Text, e: Expr)
    returns (x: Text)
    requires i < k <= |t| && d <= 512 && PostfixLoop(t, k, d, bare, e).Parsed? && Reads(b, 11, t, i, k, d, e)
    ensures
      var r := PostfixLoop(t, k, d, bare, e);
      Reads(x, 11, t, i, r.next, d, r.e)
    decreases |t| - k, 0
  {
    hide ParseExpr, Reads;
    if At(t, k, Sym(Dot)) {
      JoinedMember(t, i, k, d, b, e);
      x := ChainSound(t, i, k + 2, d, bare, Member(b, t[k + 1].name), Field(e, t[k + 1].name));
    } else if At(t, k, Sym(LBrack)) {
      var y := ExprSound(t, k + 1, d, false);
      var q := ParseExpr(t, k + 1, d, false);
      JoinedElement(t, i, k, q.next, d, b, y, e, q.e);
      x := ChainSound(t, i, q.next + 1, d, bare, Element(b, y), Index(e, q.e));
    } else {
      x := b;
    }
  }

  lemma {:induction false} PrimarySound(t: seq<Token>, i: nat, d: nat, bare: bool) returns (x: Text)
    requires i <= |t| && d <= 512 && ParsePrimary(t, i, d, bare).Parsed?
    ensures
      var r := ParsePrimary(t, i, d, bare);
      Reads(x, 11, t, i, r.next, d, r.e)
    decreases |t| - i, 1
  {
    if At(t, i, Sym(LParen)) {
      if FoldAt(t, i) {
        x := Fold(t[i + 1].name, t[i + 2]);
        JoinedFold(t, i, d);
      } else {
        x := ParenSound(t, i, d, bare);
      }
    } else {
      x := SimpleSound(t, i, d, bare);
    }
  }

  lemma {:induction false} ParenSound(t: seq<Token>, i: nat, d: nat, bare: bool) returns (x: Text)
    requires At(t, i, Sym(LParen)) && !FoldAt(t, i) && d <= 512 && ParsePrimary(t, i, d, bare).Parsed?
    ensures
      var r := ParsePrimary(t, i, d, bare);
      Reads(x, 11, t, i, r.next, d, r.e)
    decreases |t| - i, 0
  {
    hide ParseExpr, Reads;
    var y := ExprSound(t, i + 1, d, false);
    var r := ParseExpr(t, i + 1, d, false);
    JoinedParen(t, i, r.next, d, y, r.e);
    x := Paren(y);
  }

  lemma SimpleSound(t: seq<Token>, i: nat, d: nat, bare: bool) returns (x: Text)
    requires i <= |t| && !At(t, i, Sym(LParen)) && d <= 512 && ParsePrimary(t, i, d, bare).Parsed?
    ensures
      var r := ParsePrimary(t, i, d, bare);
      Reads(x, 11, t, i, r.next, d, r.e)
  {
    hide ParseExpr;
    if t[i] == Sym(Dot) {
      x := DotName(t[i + 1].name);
      TwoTokens(t, i);
    } else {
      x := Atom(t[i]);
      OneToken(t, i);
    }
  }

  lemma OneToken(t: seq<Token>, i: nat)
    requires i < |t|
    ensures t[i..i + 1] == [t[i]]
  {
  }

  lemma TwoTokens(t: seq<Token>, i: nat)
    requires i + 1 < |t|
    ensures t[i..i + 2] == [t[i], t[i + 1]]
  {
  }

  lemma {:induction false} ExprSound(t: seq<Token>, i: nat, d: nat, bare: bool) returns (x: Text)
    requires i <= |t| && ParseExpr(t, i, d, bare).Parsed?
    ensures
      var r := ParseExpr(t, i, d, bare);
      Reads(x, 0, t, i, r.next, d + 1, r.e)
    decreases |t| - i, 20
  {
    x := BinarySound(t, i, d + 1, bare, 0);
  }

  /** Whatever the parser accepts is a text of the grammar, and the answer is its tree. */
  lemma OnlyTexts(t: seq<Token>, i: nat, d: nat, bare: bool)
    requires i <= |t| && ParseExpr(t, i, d, bare).Parsed?
    ensures exists x ::
      && Fits(x, 0) && Here(t, i, x) && End(i, x) == ParseExpr(t, i, d, bare).next
      && Tree(x) == ParseExpr(t, i, d, bare).e && d + Nest(x) < 512
  {
    var x := ExprSound(t, i, d, bare);
  }

  /** The grammar is unambiguous. */
  lemma Unambiguous(x: Text, y: Text)
    requires Fits(x, 0) && Fits(y, 0) && Tokens(x) == Tokens(y) && Nest(x) < 512 && Nest(y) < 512
    ensures Tree(x) == Tree(y)
  {
    var t := Tokens(x);
    assert t[0..|t|] == t;
    TextAccepted(x, t, 0, 0, true);
    TextAccepted(y, t, 0, 0, true);
  }
}
