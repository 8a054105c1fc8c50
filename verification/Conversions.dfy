/** The conversions that the constructors of the syntax tree insert: they make every expression over declared
    locals typed, and mean what C's usual arithmetic conversions mean. */
module Conversions {
  import opened Words
  import opened Expressions
  import opened Machine
  import opened ExprCode
  import opened ExprCorrect

  predicate Declared(e: Expr, types: Types) {
    match e
    case Const(_, _) => true
    case Local(_, x) => x in types
    case Temp => false
    case Unary(_, x) => Declared(x, types)
    case Cast(_, x) => Declared(x, types)
    case Arith(_, l, r) => Declared(l, types) && Declared(r, types)
    case Relation(_, l, r) => Declared(l, types) && Declared(r, types)
    case LogAnd(l, r) => Declared(l, types) && Declared(r, types)
    case LogOr(l, r) => Declared(l, types) && Declared(r, types)
    case Comma(l, r) => Declared(l, types) && Declared(r, types)
    case Choice(c, t, f) => Declared(c, types) && Declared(t, types) && Declared(f, types)
    case Assign(_, x, r) => x in types && Declared(r, types)
    case IncDec(_, x, _, _) => x in types
  }

  function CastTo(ty: Ty, e: Expr): Expr {
    if TypeOf(e) == ty then e else Cast(ty, e)
  }

  function MaxType(a: Ty, b: Ty): Ty {
    if a.Long? || b.Long? then Long else Int
  }

  /** Two operands brought to one type. */
  function Balanced(l: Expr, r: Expr): (Expr, Expr) {
    var ty := MaxType(TypeOf(l), TypeOf(r));
    (CastTo(ty, l), CastTo(ty, r))
  }

  /** A tree as the parser sees it, with the types of its locals and all conversions. */
  function Elaborate(e: Expr, types: Types): Expr
    requires Declared(e, types)
  {
    match e
    case Const(_, _) => e
    case Local(_, x) => Local(types[x], x)
    case Unary(op, x) => Unary(op, Elaborate(x, types))
    case Cast(ty, x) => Cast(ty, Elaborate(x, types))
    case Arith(op, l, r) =>
      var l', r' := Elaborate(l, types), Elaborate(r, types);
      if op.Shl? || op.Shr? then Arith(op, l', r') else Arith(op, Balanced(l', r').0, Balanced(l', r').1)
    case Relation(op, l, r) =>
      var b := Balanced(Elaborate(l, types), Elaborate(r, types));
      Relation(op, b.0, b.1)
    case LogAnd(l, r) => LogAnd(Elaborate(l, types), Elaborate(r, types))
    case LogOr(l, r) => LogOr(Elaborate(l, types), Elaborate(r, types))
    case Comma(l, r) => Comma(Elaborate(l, types), Elaborate(r, types))
    case Choice(c, t, f) =>
      var b := Balanced(Elaborate(t, types), Elaborate(f, types));
      Choice(Elaborate(c, types), b.0, b.1)
    case Assign(_, x, r) => Assign(types[x], x, CastTo(types[x], Elaborate(r, types)))
    case IncDec(_, x, inc, post) => IncDec(types[x], x, inc, post)
  }

  // ---------- what C says, without inserting anything ----------

  /** The type of an expression (section 6.5 of C11). */
  function SourceType(e: Expr, types: Types): Ty
    requires Declared(e, types)
  {
    match e
    case Const(ty, _) => ty
    case Local(_, x) => types[x]
    case Unary(op, x) => if op.LogNot? then Int else SourceType(x, types)
    case Cast(ty, _) => ty
    case Arith(op, l, r) =>
      if op.Shl? || op.Shr? then SourceType(l, types) else MaxType(SourceType(l, types), SourceType(r, types))
    case Relation(_, _, _) => Int
    case LogAnd(_, _) => Int
    case LogOr(_, _) => Int
    case Comma(_, r) => SourceType(r, types)
    case Choice(_, t, f) => MaxType(SourceType(t, types), SourceType(f, types))
    case Assign(_, x, _) => types[x]
    case IncDec(_, x, _, _) => types[x]
  }

  /** Its value: operands as they are, results in the common type, stored values in the type of the variable. */
  function SourceEval(e: Expr, types: Types, env: Env): Result
    requires Declared(e, types)
  {
    match e
    case Const(ty, v) => Value(ToSigned(ty, v), env)
    case Local(_, x) => Value(Read(env, x), env)
    case Unary(op, x) =>
      var (v, env1) :- SourceEval(x, types, env);
      Value(UnaryValue(op, SourceType(x, types), v), env1)
    case Cast(ty, x) =>
      var (v, env1) :- SourceEval(x, types, env);
      Value(ToSigned(ty, v), env1)
    case Arith(op, l, r) =>
      var (a, env1) :- SourceEval(l, types, env);
      var (b, env2) :- SourceEval(r, types, env1);
      (match ArithResult(op, SourceType(e, types), a, b)
       case NoNum => DivideError
       case Num(v) => Value(v, env2))
    case Relation(op, l, r) =>
      var (a, env1) :- SourceEval(l, types, env);
      var (b, env2) :- SourceEval(r, types, env1);
      Value(Truth(RelationValue(op, a, b)), env2)
    case LogAnd(l, r) =>
      var (a, env1) :- SourceEval(l, types, env);
      if a == 0 then Value(0, env1)
      else
        var (b, env2) :- SourceEval(r, types, env1);
        Value(Truth(b != 0), env2)
    case LogOr(l, r) =>
      var (a, env1) :- SourceEval(l, types, env);
      if a != 0 then Value(1, env1)
      else
        var (b, env2) :- SourceEval(r, types, env1);
        Value(Truth(b != 0), env2)
    case Comma(l, r) =>
      var (_, env1) :- SourceEval(l, types, env);
      SourceEval(r, types, env1)
    case Choice(c, t, f) =>
      var (v, env1) :- SourceEval(c, types, env);
      if v != 0 then SourceEval(t, types, env1) else SourceEval(f, types, env1)
    case Assign(_, x, r) =>
      var (v, env1) :- SourceEval(r, types, env);
      Value(ToSigned(types[x], v), env1[x := ToSigned(types[x], v)])
    case IncDec(_, x, inc, post) =>
      var v := Read(env, x);
      var v' := ToSigned(types[x], if inc then v + 1 else v - 1);
      Value(if post then v else v', env[x := v'])
  }

  // ---------- both agree ----------

  lemma BalancedTyped(l: Expr, r: Expr, types: Types)
    requires WellTyped(l, types) && WellTyped(r, types)
    ensures var b, ty := Balanced(l, r), MaxType(TypeOf(l), TypeOf(r));
            WellTyped(b.0, types) && WellTyped(b.1, types) && TypeOf(b.0) == TypeOf(b.1) == ty
  {
  }

  /** Conversions make every tree over declared locals typed, with the types that C gives. */
  lemma {:induction false} ElaborateTyped(e: Expr, types: Types)
    requires Declared(e, types)
    ensures WellTyped(Elaborate(e, types), types) && TypeOf(Elaborate(e, types)) == SourceType(e, types)
    decreases e, 2
  {
    hide Balanced, MaxType, CastTo;
    match e
    case Const(_, _) =>
    case Local(_, _) =>
    case Unary(_, x) => ElaborateTyped(x, types);
    case Cast(_, x) => ElaborateTyped(x, types);
    case Arith(_, l, r) => PairTyped(e, l, r, types);
    case Relation(_, l, r) => PairTyped(e, l, r, types);
    case LogAnd(l, r) => PairTyped(e, l, r, types);
    case LogOr(l, r) => PairTyped(e, l, r, types);
    case Comma(l, r) => PairTyped(e, l, r, types);
    case Choice(_, _, _) => ChoiceTyped(e, types);
    case Assign(_, _, _) => AssignTyped(e, types);
    case IncDec(_, _, _, _) =>
  }

  lemma {:induction false} AssignTyped(e: Expr, types: Types)
    requires e.Assign? && Declared(e, types)
    ensures WellTyped(Elaborate(e, types), types) && TypeOf(Elaborate(e, types)) == SourceType(e, types)
    decreases e, 1
  {
    ElaborateTyped(e.rhs, types);
  }

  lemma {:induction false} ChoiceTyped(e: Expr, types: Types)
    requires e.Choice? && Declared(e, types)
    ensures WellTyped(Elaborate(e, types), types) && TypeOf(Elaborate(e, types)) == SourceType(e, types)
    decreases e, 1
  {
    hide Balanced, MaxType;
    ElaborateTyped(e.cond, types);
    PairTyped(e, e.whenTrue, e.whenFalse, types);
  }

  lemma {:induction false} PairTyped(e: Expr, l: Expr, r: Expr, types: Types)
    requires l < e && r < e && Declared(l, types) && Declared(r, types)
    ensures var l', r' := Elaborate(l, types), Elaborate(r, types);
            var b, ty := Balanced(l', r'), MaxType(SourceType(l, types), SourceType(r, types));
            && WellTyped(l', types) && TypeOf(l') == SourceType(l, types)
            && WellTyped(r', types) && TypeOf(r') == SourceType(r, types)
            && WellTyped(b.0, types) && WellTyped(b.1, types) && TypeOf(b.0) == TypeOf(b.1) == ty
    decreases e, 0
  {
    hide Elaborate, SourceType, WellTyped, Balanced, MaxType;
    ElaborateTyped(l, types);
    ElaborateTyped(r, types);
    BalancedTyped(Elaborate(l, types), Elaborate(r, types), types);
  }

  /** A typed tree is left as it is; so converting twice is converting once. */
  lemma {:induction false} ElaborateTypedSame(e: Expr, types: Types)
    requires WellTyped(e, types)
    ensures Declared(e, types) && Elaborate(e, types) == e
  {
    match e
    case Unary(_, x) => ElaborateTypedSame(x, types);
    case Cast(_, x) => ElaborateTypedSame(x, types);
    case Arith(_, l, r) => ElaborateTypedSame(l, types); ElaborateTypedSame(r, types);
    case Relation(_, l, r) => ElaborateTypedSame(l, types); ElaborateTypedSame(r, types);
    case LogAnd(l, r) => ElaborateTypedSame(l, types); ElaborateTypedSame(r, types);
    case LogOr(l, r) => ElaborateTypedSame(l, types); ElaborateTypedSame(r, types);
    case Comma(l, r) => ElaborateTypedSame(l, types); ElaborateTypedSame(r, types);
    case Choice(c, t, f) => ElaborateTypedSame(c, types); ElaborateTypedSame(t, types); ElaborateTypedSame(f, types);
    case Assign(_, _, r) => ElaborateTypedSame(r, types);
    case _ =>
  }

  /** Widening keeps a value. */
  lemma CastToMeans(ty: Ty, e: Expr, types: Types, env: Env)
    requires WellTyped(e, types) && EnvFits(env, types) && (TypeOf(e) == ty || ty.Long?)
    ensures Eval(CastTo(ty, e), env) == Eval(e, env)
  {
    EvalFits(e, types, env);
    hide EnvFits, WellTyped;
  }

  lemma BalancedMeans(l: Expr, r: Expr, types: Types)
    requires WellTyped(l, types) && WellTyped(r, types)
    ensures forall env :: EnvFits(env, types) ==>
              Eval(Balanced(l, r).0, env) == Eval(l, env) && Eval(Balanced(l, r).1, env) == Eval(r, env)
  {
    hide Eval, EnvFits, WellTyped, CastTo;
    forall env | EnvFits(env, types)
      ensures Eval(Balanced(l, r).0, env) == Eval(l, env) && Eval(Balanced(l, r).1, env) == Eval(r, env)
    {
      var ty := MaxType(TypeOf(l), TypeOf(r));
      CastToMeans(ty, l, types, env);
      CastToMeans(ty, r, types, env);
    }
  }

  /** An operand's value, and that the variables still fit behind it. */
  lemma {:induction false} Operand(e: Expr, types: Types, env: Env)
    requires Declared(e, types) && EnvFits(env, types)
    ensures WellTyped(Elaborate(e, types), types) && TypeOf(Elaborate(e, types)) == SourceType(e, types)
    ensures Eval(Elaborate(e, types), env) == SourceEval(e, types, env)
    ensures SourceEval(e, types, env).Value? ==> EnvFits(SourceEval(e, types, env).env, types)
    decreases e, 3
  {
    hide Elaborate, SourceEval, Eval, EnvFits, WellTyped;
    ElaborateTyped(e, types);
    ElaborateMeans(e, types, env);
    EvalFits(Elaborate(e, types), types, env);
  }

  /** Two expressions one after the other, below `e`. */
  lemma {:induction false} TwoOperands(e: Expr, l: Expr, r: Expr, types: Types, env: Env)
    requires l < e && r < e && Declared(l, types) && Declared(r, types) && EnvFits(env, types)
    ensures WellTyped(Elaborate(l, types), types) && WellTyped(Elaborate(r, types), types)
    ensures TypeOf(Elaborate(l, types)) == SourceType(l, types) && TypeOf(Elaborate(r, types)) == SourceType(r, types)
    ensures var b := Balanced(Elaborate(l, types), Elaborate(r, types));
            var s := SourceEval(l, types, env);
            && Eval(Elaborate(l, types), env) == s && Eval(b.0, env) == s
            && (s.Value? ==> Eval(Elaborate(r, types), s.env) == Eval(b.1, s.env) == SourceEval(r, types, s.env))
    decreases e, 0
  {
    hide Elaborate, SourceEval, Eval, EnvFits, WellTyped, Balanced;
    Operand(l, types, env);
    ElaborateTyped(r, types);
    if SourceEval(l, types, env).Value? { Operand(r, types, SourceEval(l, types, env).env); }
    BalancedMeans(Elaborate(l, types), Elaborate(r, types), types);
  }

  lemma {:induction false} ArmsMean(e: Expr, types: Types, env: Env)
    requires e.Choice? && Declared(e, types) && EnvFits(env, types)
    ensures var b := Balanced(Elaborate(e.whenTrue, types), Elaborate(e.whenFalse, types));
            var s := SourceEval(e.cond, types, env);
            && Eval(Elaborate(e.cond, types), env) == s
            && (s.Value? ==> Eval(b.0, s.env) == SourceEval(e.whenTrue, types, s.env))
            && (s.Value? ==> Eval(b.1, s.env) == SourceEval(e.whenFalse, types, s.env))
    decreases e, 0
  {
    hide Elaborate, SourceEval, Eval, EnvFits, WellTyped, Balanced;
    Operand(e.cond, types, env);
    ElaborateTyped(e.whenTrue, types);
    ElaborateTyped(e.whenFalse, types);
    if SourceEval(e.cond, types, env).Value? {
      Operand(e.whenTrue, types, SourceEval(e.cond, types, env).env);
      Operand(e.whenFalse, types, SourceEval(e.cond, types, env).env);
    }
    BalancedMeans(Elaborate(e.whenTrue, types), Elaborate(e.whenFalse, types), types);
  }

  /** A stored value is cut to the variable's type, by a conversion or because it has that type already. */
  lemma StoredMeans(ty: Ty, e: Expr, types: Types, env: Env)
    requires WellTyped(e, types) && EnvFits(env, types)
    ensures Eval(CastTo(ty, e), env) ==
            match Eval(e, env)
            case DivideError => DivideError
            case Value(v, env1) => Value(ToSigned(ty, v), env1)
  {
    EvalFits(e, types, env);
    hide EnvFits, WellTyped;
  }

  lemma {:induction false} ArithMeans(e: Expr, types: Types, env: Env)
    requires e.Arith? && Declared(e, types) && EnvFits(env, types)
    ensures Eval(Elaborate(e, types), env) == SourceEval(e, types, env)
    decreases e, 1
  {
    hide EnvFits, WellTyped, Balanced, ArithResult, CastTo, MaxType;
    TwoOperands(e, e.lhs, e.rhs, types, env);
    BalancedTyped(Elaborate(e.lhs, types), Elaborate(e.rhs, types), types);
  }

  lemma {:induction false} OneMeans(e: Expr, types: Types, env: Env)
    requires Declared(e, types) && EnvFits(env, types)
    requires e.Const? || e.Local? || e.Unary? || e.Cast? || e.Assign? || e.IncDec?
    ensures Eval(Elaborate(e, types), env) == SourceEval(e, types, env)
    decreases e, 1
  {
    hide EnvFits, WellTyped, Balanced, ArithResult, UnaryValue, ToSigned, CastTo, MaxType;
    match e
    case Unary(_, x) => Operand(x, types, env);
    case Cast(_, x) => Operand(x, types, env);
    case Assign(_, x, r) =>
      Operand(r, types, env);
      StoredMeans(types[x], Elaborate(r, types), types, env);
    case _ =>
  }

  lemma {:induction false} PairMeans(e: Expr, types: Types, env: Env)
    requires Declared(e, types) && EnvFits(env, types)
    requires e.Relation? || e.LogAnd? || e.LogOr? || e.Comma?
    ensures Eval(Elaborate(e, types), env) == SourceEval(e, types, env)
    decreases e, 1
  {
    hide EnvFits, WellTyped, Balanced, ArithResult, UnaryValue, ToSigned, CastTo, MaxType;
    TwoOperands(e, e.lhs, e.rhs, types, env);
  }

  lemma {:induction false} ChoiceMeans(e: Expr, types: Types, env: Env)
    requires e.Choice? && Declared(e, types) && EnvFits(env, types)
    ensures Eval(Elaborate(e, types), env) == SourceEval(e, types, env)
    decreases e, 1
  {
    hide EnvFits, WellTyped, Balanced, ArithResult, UnaryValue, ToSigned, CastTo, MaxType;
    ArmsMean(e, types, env);
  }

  /** With its conversions an expression means what C says it means. */
  lemma {:induction false} ElaborateMeans(e: Expr, types: Types, env: Env)
    requires Declared(e, types) && EnvFits(env, types)
    ensures Eval(Elaborate(e, types), env) == SourceEval(e, types, env)
    decreases e, 2
  {
    hide Elaborate, SourceEval, Eval, EnvFits, WellTyped;
    match e
    case Arith(_, _, _) => ArithMeans(e, types, env);
    case Relation(_, _, _) => PairMeans(e, types, env);
    case LogAnd(_, _) => PairMeans(e, types, env);
    case LogOr(_, _) => PairMeans(e, types, env);
    case Comma(_, _) => PairMeans(e, types, env);
    case Choice(_, _, _) => ChoiceMeans(e, types, env);
    case _ => OneMeans(e, types, env);
  }

  /** The code of a tree over declared locals computes what C says, whatever types its operands have. */
  lemma SourceCompiled(prog: Code, frame: Frame, e: Expr, off: int, tag: nat, p: nat, s: Cpu, env: Env)
    requires Declared(e, TypesOf(frame)) && EnvFits(env, TypesOf(frame))
    requires UniqueLabels(prog) && FrameOk(frame, off) && Agrees(frame, env, s.mem)
    requires CodeAt(prog, p, Compile(Elaborate(e, TypesOf(frame)), frame, off, tag).code)
    ensures var x := Elaborate(e, TypesOf(frame));
            exists n :: Ends(Run(prog, Running(p, s), n), p + |Compile(x, frame, off, tag).code|,
                             SourceType(e, TypesOf(frame)), SourceEval(e, TypesOf(frame), env), frame, Assigned(x),
                                 off, s.mem)
  {
    hide Run, Compile, Elaborate, SourceEval, Eval, EnvFits, WellTyped, Ends, CodeAt, UniqueLabels, FrameOk, Agrees,
         Assigned;
    ElaborateTyped(e, TypesOf(frame));
    ElaborateMeans(e, TypesOf(frame), env);
    var n := Simulate(prog, frame, Elaborate(e, TypesOf(frame)), off, tag, p, s, env);
  }

  /** The common type holds the values of both types, and nothing else. */
  lemma CommonType(a: Ty, b: Ty, v: int)
    ensures InRange(MaxType(a, b), v) <==> InRange(a, v) || InRange(b, v)
  {
  }
}
