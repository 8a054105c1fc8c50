/** Typed integer expressions over local variables, and what they mean. The meaning evaluates operands
    from left to right; arithmetic that leaves the range of its type wraps around. */
module Expressions {
  import opened Words

  type Name = nat

  datatype UnaryOp = Plus | Minus | BitNot | LogNot

  datatype ArithOp = Add | Sub | Mul | Div | Mod | And | Or | Xor | Shl | Shr

  datatype RelOp = Lt | Gt | Le | Ge | Eq | Ne

  /** `temp` is the compiler's own variable for the value a `switch` tests; it lives in `%ecx`. */
  datatype Expr =
    | Const(cty: Ty, val: int)
    | Local(lty: Ty, name: Name)
    | Temp
    | Unary(uop: UnaryOp, operand: Expr)
    | Cast(to: Ty, operand: Expr)
    | Arith(aop: ArithOp, lhs: Expr, rhs: Expr)
    | Relation(rop: RelOp, lhs: Expr, rhs: Expr)
    | LogAnd(lhs: Expr, rhs: Expr)
    | LogOr(lhs: Expr, rhs: Expr)
    | Comma(lhs: Expr, rhs: Expr)
    | Choice(cond: Expr, whenTrue: Expr, whenFalse: Expr)
    | Assign(dty: Ty, dst: Name, rhs: Expr)
    | IncDec(ity: Ty, target: Name, increment: bool, postfix: bool)

  function TypeOf(e: Expr): Ty {
    match e
    case Const(ty, _) => ty
    case Local(ty, _) => ty
    case Temp => Int
    case Unary(LogNot, _) => Int
    case Unary(_, x) => TypeOf(x)
    case Cast(ty, _) => ty
    case Arith(_, l, _) => TypeOf(l)
    case Relation(_, _, _) => Int
    case LogAnd(_, _) => Int
    case LogOr(_, _) => Int
    case Comma(_, r) => TypeOf(r)
    case Choice(_, t, _) => TypeOf(t)
    case Assign(ty, _, _) => ty
    case IncDec(ty, _, _, _) => ty
  }

  // ---------- what the type checker leaves behind ----------

  type Types = map<Name, Ty>

  /** Locals have their declared types and both operands of a converting operator the same type.
      Shift counts keep their own type. The compiler's variable does not occur. */
  predicate WellTyped(e: Expr, types: Types) {
    match e
    case Const(_, _) => true
    case Local(ty, x) => x in types && types[x] == ty
    case Temp => false
    case Unary(_, x) => WellTyped(x, types)
    case Cast(_, x) => WellTyped(x, types)
    case Arith(op, l, r) =>
      WellTyped(l, types) && WellTyped(r, types) && (op.Shl? || op.Shr? || TypeOf(l) == TypeOf(r))
    case Relation(_, l, r) => WellTyped(l, types) && WellTyped(r, types) && TypeOf(l) == TypeOf(r)
    case LogAnd(l, r) => WellTyped(l, types) && WellTyped(r, types)
    case LogOr(l, r) => WellTyped(l, types) && WellTyped(r, types)
    case Comma(l, r) => WellTyped(l, types) && WellTyped(r, types)
    case Choice(c, t, f) =>
      WellTyped(c, types) && WellTyped(t, types) && WellTyped(f, types) && TypeOf(t) == TypeOf(f)
    case Assign(ty, x, r) => x in types && types[x] == ty && WellTyped(r, types) && TypeOf(r) == ty
    case IncDec(ty, x, _, _) => x in types && types[x] == ty
  }

  // ---------- meaning ----------

  type Env = map<Name, int>

  /** A value and the variables afterwards, or a division that the processor refuses. */
  datatype Result = Value(v: int, env: Env) | DivideError
  {
    predicate IsFailure() { DivideError? }
    function PropagateFailure(): Result
      requires DivideError?
    {
      DivideError
    }
    function Extract(): (int, Env)
      requires Value?
    {
      (v, env)
    }
  }

  function Truth(b: bool): int {
    if b then 1 else 0
  }

  /** The number an operator gives, or none. */
  datatype Number = Num(n: int) | NoNum

  function ArithResult(op: ArithOp, ty: Ty, a: int, b: int): Number {
    match op
    case Add => Num(ToSigned(ty, a + b))
    case Sub => Num(ToSigned(ty, a - b))
    case Mul => Num(ToSigned(ty, a * b))
    case Div => if DivisionFaults(ty, a, b) then NoNum else Num(TruncDiv(a, b))
    case Mod => if DivisionFaults(ty, a, b) then NoNum else Num(TruncMod(a, b))
    case And => Num(ToSigned(ty, Bitwise(BitAnd, 8 * Bytes(ty), a, b)))
    case Or => Num(ToSigned(ty, Bitwise(BitOr, 8 * Bytes(ty), a, b)))
    case Xor => Num(ToSigned(ty, Bitwise(BitXor, 8 * Bytes(ty), a, b)))
    // C leaves counts outside the width undefined; the processor masks them.
    case Shl => Num(ToSigned(ty, a * Pow2(b % (8 * Bytes(ty)))))
    case Shr => Num(ToSigned(ty, a / Pow2(b % (8 * Bytes(ty)))))
  }

  /** No quotient: the divisor is zero or the quotient is too large for the type. */
  predicate DivisionFaults(ty: Ty, a: int, b: int) {
    b == 0 || !InRange(ty, TruncDiv(a, b))
  }

  lemma ModRange(ty: Ty, a: int, b: int)
    requires InRange(ty, a) && InRange(ty, b) && b != 0
    ensures InRange(ty, TruncMod(a, b))
  {
    var m, d := if a < 0 then -a else a, if b < 0 then -b else b;
    DivisionSplit(m, d);
    TruncModAbs(a, b, m, d);
  }

  lemma DivisionSplit(m: int, d: int)
    requires d > 0 && m >= 0
    ensures m == (m / d) * d + m % d && 0 <= m % d < d && m % d <= m
  {
  }

  lemma TruncModAbs(a: int, b: int, m: int, d: int)
    requires b != 0 && m == (if a < 0 then -a else a) && d == (if b < 0 then -b else b)
    ensures TruncMod(a, b) == if a < 0 then -(m % d) else m % d
  {
    DivisionSplit(m, d);
    var q := m / d;
    NegMul(q, b);
  }

  lemma NegMul(q: int, b: int)
    ensures (-q) * b == -(q * b) && q * (-b) == -(q * b)
  {
  }

  function RelationValue(op: RelOp, a: int, b: int): bool {
    match op
    case Lt => a < b
    case Gt => a > b
    case Le => a <= b
    case Ge => a >= b
    case Eq => a == b
    case Ne => a != b
  }

  function UnaryValue(op: UnaryOp, ty: Ty, a: int): int {
    match op
    case Plus => a
    case Minus => ToSigned(ty, -a)
    case BitNot => -a - 1
    case LogNot => Truth(a == 0)
  }

  predicate EnvFits(env: Env, types: Types) {
    forall x :: x in types ==> x in env && InRange(types[x], env[x])
  }

  function Read(env: Env, x: Name): int {
    if x in env then env[x] else 0
  }

  function Eval(e: Expr, env: Env): Result {
    match e
    case Const(ty, v) => Value(ToSigned(ty, v), env)
    case Local(_, x) => Value(Read(env, x), env)
    case Temp => Value(0, env)
    case Unary(op, x) =>
      var (v, env1) :- Eval(x, env);
      Value(UnaryValue(op, TypeOf(x), v), env1)
    case Cast(ty, x) =>
      var (v, env1) :- Eval(x, env);
      Value(ToSigned(ty, v), env1)
    case Arith(op, l, r) =>
      var (a, env1) :- Eval(l, env);
      var (b, env2) :- Eval(r, env1);
      (match ArithResult(op, TypeOf(l), a, b)
       case NoNum => DivideError
       case Num(v) => Value(v, env2))
    case Relation(op, l, r) =>
      var (a, env1) :- Eval(l, env);
      var (b, env2) :- Eval(r, env1);
      Value(Truth(RelationValue(op, a, b)), env2)
    case LogAnd(l, r) =>
      var (a, env1) :- Eval(l, env);
      if a == 0 then Value(0, env1)
      else
        var (b, env2) :- Eval(r, env1);
        Value(Truth(b != 0), env2)
    case LogOr(l, r) =>
      var (a, env1) :- Eval(l, env);
      if a != 0 then Value(1, env1)
      else
        var (b, env2) :- Eval(r, env1);
        Value(Truth(b != 0), env2)
    case Comma(l, r) =>
      var (_, env1) :- Eval(l, env);
      Eval(r, env1)
    case Choice(c, t, f) =>
      var (v, env1) :- Eval(c, env);
      if v != 0 then Eval(t, env1) else Eval(f, env1)
    case Assign(_, x, r) =>
      var (v, env1) :- Eval(r, env);
      Value(v, env1[x := v])
    case IncDec(ty, x, inc, post) =>
      var v := Read(env, x);
      var v' := ToSigned(ty, if inc then v + 1 else v - 1);
      Value(if post then v else v', env[x := v'])
  }

  /** Values stay in the range of their types. */
  lemma {:induction false} EvalFits(e: Expr, types: Types, env: Env)
    requires WellTyped(e, types) && EnvFits(env, types)
    ensures Eval(e, env).Value? ==> EnvFits(Eval(e, env).env, types) && InRange(TypeOf(e), Eval(e, env).v)
  {
    hide ToSigned; hide Pow2;
    match e
    case Const(_, _) =>
    case Local(_, _) =>
    case Unary(_, x) => EvalFits(x, types, env);
    case Cast(_, x) => EvalFits(x, types, env);
    case Arith(op, l, r) =>
      EvalFits(l, types, env);
      if Eval(l, env).Value? {
        var env1 := Eval(l, env).env;
        EvalFits(r, types, env1);
        if op.Mod? && Eval(r, env1).Value? && Eval(r, env1).v != 0 {
          ModRange(TypeOf(l), Eval(l, env).v, Eval(r, env1).v);
        }
      }
    case Relation(_, l, r) =>
      EvalFits(l, types, env);
      if Eval(l, env).Value? { EvalFits(r, types, Eval(l, env).env); }
    case LogAnd(l, r) =>
      EvalFits(l, types, env);
      if Eval(l, env).Value? { EvalFits(r, types, Eval(l, env).env); }
    case LogOr(l, r) =>
      EvalFits(l, types, env);
      if Eval(l, env).Value? { EvalFits(r, types, Eval(l, env).env); }
    case Comma(l, r) =>
      EvalFits(l, types, env);
      if Eval(l, env).Value? { EvalFits(r, types, Eval(l, env).env); }
    case Choice(c, t, f) =>
      EvalFits(c, types, env);
      if Eval(c, env).Value? {
        EvalFits(t, types, Eval(c, env).env);
        EvalFits(f, types, Eval(c, env).env);
      }
    case Assign(_, _, r) => EvalFits(r, types, env);
    case IncDec(_, _, _, _) =>
  }

  /** The variables an expression may write. */
  function Assigned(e: Expr): set<Name> {
    match e
    case Const(_, _) => {}
    case Local(_, _) => {}
    case Temp => {}
    case Unary(_, x) => Assigned(x)
    case Cast(_, x) => Assigned(x)
    case Arith(_, l, r) => Assigned(l) + Assigned(r)
    case Relation(_, l, r) => Assigned(l) + Assigned(r)
    case LogAnd(l, r) => Assigned(l) + Assigned(r)
    case LogOr(l, r) => Assigned(l) + Assigned(r)
    case Comma(l, r) => Assigned(l) + Assigned(r)
    case Choice(c, t, f) => Assigned(c) + Assigned(t) + Assigned(f)
    case Assign(_, x, r) => Assigned(r) + {x}
    case IncDec(_, x, _, _) => {x}
  }
}
