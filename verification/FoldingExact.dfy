/** What the evaluator of constant expressions gives on all expressions, also where values leave their types: it is the
    meaning of the expression with every type replaced by `long`. */
module FoldingExact {
  import opened Words
  import opened Expressions
  import opened ConstantFolding

  function AsLong(e: Expr): Expr {
    Cast(Long, e)
  }

  /** Everything as a `long`: conversions vanish, truth values are widened; of a comma or an assignment only the right
      side is left. */
  function Widened(e: Expr): Expr {
    match e
    case Const(_, v) => Const(Long, v)
    case Unary(op, x) => if op.LogNot? then AsLong(Unary(op, Widened(x))) else Unary(op, Widened(x))
    case Cast(_, x) => Widened(x)
    case Arith(op, l, r) => Arith(op, Widened(l), Widened(r))
    case Relation(op, l, r) => AsLong(Relation(op, Widened(l), Widened(r)))
    case LogAnd(l, r) => AsLong(LogAnd(Widened(l), Widened(r)))
    case LogOr(l, r) => AsLong(LogOr(Widened(l), Widened(r)))
    case Comma(_, r) => Widened(r)
    case Choice(c, t, f) => Choice(Widened(c), Widened(t), Widened(f))
    case Assign(_, _, r) => Widened(r)
    case _ => e
  }

  /** No variable is read or changed where the value comes from. */
  predicate Closed(e: Expr) {
    match e
    case Const(_, _) => true
    case Unary(_, x) => Closed(x)
    case Cast(_, x) => Closed(x)
    case Arith(_, l, r) => Closed(l) && Closed(r)
    case Relation(_, l, r) => Closed(l) && Closed(r)
    case LogAnd(l, r) => Closed(l) && Closed(r)
    case LogOr(l, r) => Closed(l) && Closed(r)
    case Comma(_, r) => Closed(r)
    case Choice(c, t, f) => Closed(c) && Closed(t) && Closed(f)
    case Assign(_, _, r) => Closed(r)
    case _ => false
  }

  ghost predicate Same(e: Expr, env: Env) {
    && TypeOf(Widened(e)) == Long
    && match Fold(e)
       case Val(v) => Eval(Widened(e), env) == Value(v, env) && InRange(Long, v)
       case NotConstant => false
       case DivisionByZero => Eval(Widened(e), env) == DivideError
       case Faults => Eval(Widened(e), env) == DivideError
  }

  lemma ArithSame(op: ArithOp, a: int, b: int)
    requires InRange(Long, a) && InRange(Long, b)
    ensures match FoldArith(op, a, b)
            case Val(v) => ArithResult(op, Long, a, b) == Num(v) && InRange(Long, v)
            case NotConstant => false
            case _ => ArithResult(op, Long, a, b) == NoNum
  {
    hide TruncDiv, Bitwise, Pow2;
    if op.Mod? && b != 0 { ModRange(Long, a, b); }
  }

  lemma UnarySame(e: Expr, env: Env)
    requires e.Unary? && Same(e.operand, env)
    ensures Same(e, env)
  {
    var x := Widened(e.operand);
    assert Eval(Unary(e.uop, x), env).Value? <==> Eval(x, env).Value?;
    hide ToUnsigned;
  }

  lemma BothSame(e: Expr, env: Env)
    requires e.Arith? && Same(e.lhs, env) && Same(e.rhs, env)
    ensures Same(e, env)
  {
    hide FoldArith, ArithResult;
    if Fold(e.lhs).Val? && Fold(e.rhs).Val? { ArithSame(e.aop, Fold(e.lhs).v, Fold(e.rhs).v); }
  }

  lemma TruthSame(e: Expr, env: Env)
    requires (e.Relation? || e.LogAnd? || e.LogOr?) && Same(e.lhs, env) && Same(e.rhs, env)
    ensures Same(e, env)
  {
    hide RelationValue, ToUnsigned;
    var l, r := Widened(e.lhs), Widened(e.rhs);
    match e
    case Relation(op, _, _) => assert Eval(Relation(op, l, r), env).Value? <==> Fold(e).Val?;
    case LogAnd(_, _) => assert Eval(LogAnd(l, r), env).Value? <==> Fold(e).Val?;
    case LogOr(_, _) => assert Eval(LogOr(l, r), env).Value? <==> Fold(e).Val?;
  }

  /** For every expression without variables and in every environment, the evaluator gives the value of the expression
      over `long`, or an error exactly if a division in it faults. */
  lemma {:induction false} FoldIsLong(e: Expr, env: Env)
    requires Closed(e)
    ensures Same(e, env)
  {
    match e
    case Const(_, _) =>
    case Unary(_, x) =>
      FoldIsLong(x, env);
      UnarySame(e, env);
    case Cast(_, x) => FoldIsLong(x, env);
    case Comma(_, r) => FoldIsLong(r, env);
    case Assign(_, _, r) => FoldIsLong(r, env);
    case Arith(_, l, r) =>
      FoldIsLong(l, env);
      FoldIsLong(r, env);
      BothSame(e, env);
    case Relation(_, l, r) =>
      FoldIsLong(l, env);
      FoldIsLong(r, env);
      TruthSame(e, env);
    case LogAnd(l, r) =>
      FoldIsLong(l, env);
      FoldIsLong(r, env);
      TruthSame(e, env);
    case LogOr(l, r) =>
      FoldIsLong(l, env);
      FoldIsLong(r, env);
      TruthSame(e, env);
    case Choice(c, t, f) =>
      FoldIsLong(c, env);
      FoldIsLong(t, env);
      FoldIsLong(f, env);
  }
}
