/** How operators group, by the sections of the standard and not by the levels of the parser. */
module Precedence {
  import opened ExprGrammar

  /** Sections 6.5.5 to 6.5.14 and 6.5.17 of C11, tightest first. */
  const Sections: seq<set<BinOp>> :=
    [{Mul, Div, Mod}, {Add, Sub}, {Shl, Shr}, {Lt, Gt, Le, Ge}, {Eq, Ne}, {BitAnd}, {BitXor}, {BitOr}, {LogAnd},
     {LogOr}, {CommaOp}]

  predicate Tighter(a: BinOp, b: BinOp) {
    exists i, j :: 0 <= i < j < |Sections| && a in Sections[i] && b in Sections[j]
  }

  /** Expressions that need no parentheses as operands; any expression in parentheses is one. */
  predicate Operand(x: Expr) {
    Proper(x) && LevelOf(x) >= UNARY
  }

  lemma TighterIs(a: BinOp, b: BinOp)
    ensures Tighter(a, b) <==> BinLevel(a) > BinLevel(b)
  {
    var i := SectionOf(a);
    var j := SectionOf(b);
    if BinLevel(a) > BinLevel(b) { assert a in Sections[i] && b in Sections[j]; }
  }

  /** The section of an operator, found by its level, and no other. */
  lemma SectionOf(op: BinOp) returns (i: nat)
    ensures i < |Sections| && op in Sections[i] && forall k :: 0 <= k < |Sections| && op in Sections[k] ==> k == i
    ensures i == if op.CommaOp? then 10 else 12 - BinLevel(op)
  {
    i := if op.CommaOp? then 10 else 12 - BinLevel(op);
  }

  lemma Pair(op: BinOp, l: Expr, r: Expr)
    requires LevelOf(l) >= BinLevel(op) && LevelOf(r) > BinLevel(op)
    ensures Bare(EBinary(op, l, r)) == Bare(l) + [B(op)] + Bare(r)
    ensures Print(EBinary(op, l, r), COMMA) == Bare(EBinary(op, l, r)) && LevelOf(EBinary(op, l, r)) == BinLevel(op)
    ensures Proper(EBinary(op, l, r)) == (Proper(l) && Proper(r))
    ensures Desugar(EBinary(op, l, r)) == Binary(op, Desugar(l), Desugar(r))
  {
    hide BinLevel;
  }

  /** Two operators between three operands: the second takes the middle one exactly if it is tighter. */
  lemma Groups(x: Expr, a: BinOp, y: Expr, b: BinOp, z: Expr)
    requires Operand(x) && Operand(y) && Operand(z)
    ensures Parse(COMMA, Bare(x) + [B(a)] + Bare(y) + [B(b)] + Bare(z))
            == Ok(if Tighter(b, a) then Binary(a, Desugar(x), Binary(b, Desugar(y), Desugar(z)))
                  else Binary(b, Binary(a, Desugar(x), Desugar(y)), Desugar(z)), [])
  {
    hide Parse, Tighter, BinLevel, Bare, Print, LevelOf, Proper, Desugar;
    TighterIs(b, a);
    Bounded(a);
    Bounded(b);
    var t := Bare(x) + [B(a)] + Bare(y) + [B(b)] + Bare(z);
    var e;
    if Tighter(b, a) {
      Pair(b, y, z);
      e := EBinary(a, x, EBinary(b, y, z));
      Pair(a, x, e.r);
    } else {
      Pair(a, x, y);
      e := EBinary(b, EBinary(a, x, y), z);
      Pair(b, e.l, z);
    }
    assert Print(e, COMMA) + [] == t;
    RoundTrip(e, []);
  }

  lemma Bounded(op: BinOp)
    ensures COMMA <= BinLevel(op) < UNARY
  {
  }

  /** Every arithmetic, shift and bitwise operator has an assignment form, and no other operator. */
  lemma AssignmentForms(op: BinOp)
    ensures Compound(op) <==> op !in {LogOr, LogAnd, Eq, Ne, Lt, Gt, Le, Ge, CommaOp}
  {
  }
}
