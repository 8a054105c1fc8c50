/** The evaluator of constant expressions: everything is computed as a 64-bit number. Where every value that
    is computed fits its type, it agrees with the meaning of the expression and with the emitted code. */
module ConstantFolding {
  import opened Words
  import opened Bits
  import opened Machine
  import opened Expressions
  import opened ExprCode
  import opened ExprCorrect

  datatype Folded =
    | Val(v: int)
    | NotConstant
    | DivisionByZero
    | Faults            // the evaluator's own division overflows

  function FoldArith(op: ArithOp, a: int, b: int): Folded {
    match op
    case Add => Val(ToSigned(Long, a + b))
    case Sub => Val(ToSigned(Long, a - b))
    case Mul => Val(ToSigned(Long, a * b))
    case Div => if b == 0 then DivisionByZero else if DivisionFaults(Long, a, b) then Faults else Val(TruncDiv(a, b))
    case Mod => if b == 0 then DivisionByZero else if DivisionFaults(Long, a, b) then Faults else Val(TruncMod(a, b))
    case And => Val(ToSigned(Long, Bitwise(BitAnd, 64, a, b)))
    case Or => Val(ToSigned(Long, Bitwise(BitOr, 64, a, b)))
    case Xor => Val(ToSigned(Long, Bitwise(BitXor, 64, a, b)))
    case Shl => Val(ToSigned(Long, a * Pow2(b % 64)))
    case Shr => Val(ToSigned(Long, a / Pow2(b % 64)))
  }

  function Fold(e: Expr): Folded {
    match e
    case Const(_, v) => Val(ToSigned(Long, v))
    case Unary(op, x) =>
      (match Fold(x)
       case Val(v) => Val(match op
         case Plus => v
         case Minus => ToSigned(Long, -v)
         case BitNot => -v - 1
         case LogNot => Truth(v == 0))
       case r => r)
    case Cast(_, x) => Fold(x)
    case Arith(op, l, r) => FoldBoth(Fold(l), Fold(r), (a, b) => FoldArith(op, a, b))
    case Relation(op, l, r) => FoldBoth(Fold(l), Fold(r), (a, b) => Val(Truth(RelationValue(op, a, b))))
    case LogAnd(l, r) =>
      (match Fold(l)
       case Val(a) => if a == 0 then Val(0) else FoldTruth(Fold(r))
       case x => x)
    case LogOr(l, r) =>
      (match Fold(l)
       case Val(a) => if a != 0 then Val(1) else FoldTruth(Fold(r))
       case x => x)
    case Comma(_, r) => Fold(r)
    case Choice(c, t, f) =>
      (match Fold(c)
       case Val(v) => if v != 0 then Fold(t) else Fold(f)
       case x => x)
    case Assign(_, _, r) => Fold(r)
    case _ => NotConstant
  }

  function FoldBoth(a: Folded, b: Folded, f: (int, int) -> Folded): Folded {
    if !a.Val? then a else if !b.Val? then b else f(a.v, b.v)
  }

  function FoldTruth(a: Folded): Folded {
    if a.Val? then Val(Truth(a.v != 0)) else a
  }

  /** What the operands must satisfy at every operator that is computed; shift counts are inside the width. */
  predicate Fits(e: Expr) {
    match e
    case Const(ty, v) => InRange(ty, v)
    case Unary(op, x) => Fits(x) && Fold(x).Val? && (op.Minus? && TypeOf(x).Int? ==> InRange(Int, -Fold(x).v))
    case Cast(ty, x) => Fits(x) && Fold(x).Val? && InRange(ty, Fold(x).v)
    case Arith(op, l, r) =>
      && Fits(l) && Fits(r) && Fold(l).Val? && Fold(r).Val?
      && (op.Shl? || op.Shr? ==> 0 <= Fold(r).v < 8 * Bytes(TypeOf(l)))
      && OpFits(op, TypeOf(l), Fold(l).v, Fold(r).v)
    case Relation(_, l, r) => Fits(l) && Fits(r)
    case LogAnd(l, r) => Fits(l) && (Fold(l) != Val(0) ==> Fits(r))
    case LogOr(l, r) => Fits(l) && (Fold(l) == Val(0) ==> Fits(r))
    case Comma(l, r) => Fits(l) && Fits(r)
    case Choice(c, t, f) => Fits(c) && (if Fold(c) == Val(0) then Fits(f) else Fits(t))
    case _ => false
  }

  /** The operands of one operator: sum, difference, product and left shift of `int`s stay in `int`; a quotient
      exists and fits, also for a remainder; nothing else can go wrong. */
  predicate OpFits(op: ArithOp, ty: Ty, a: int, b: int)
    requires op.Shl? ==> b >= 0
  {
    match op
    case Add => ty.Long? || InRange(Int, a + b)
    case Sub => ty.Long? || InRange(Int, a - b)
    case Mul => ty.Long? || InRange(Int, a * b)
    case Shl => ty.Long? || InRange(Int, a * Pow2(b))
    case Div => b != 0 && InRange(ty, TruncDiv(a, b))
    case Mod => b != 0 && InRange(ty, TruncDiv(a, b))
    case _ => true
  }

  lemma {:induction false} BitwisePrefix(op: BitOp, n: nat, m: nat, a: int, b: int)
    requires n <= m
    ensures Bitwise(op, n, a, b) == Bitwise(op, m, a, b) % Pow2(n)
    decreases n
  {
    if n > 0 {
      BitwisePrefix(op, n - 1, m - 1, a / 2, b / 2);
      HalfOfDouble(Bitwise(op, m - 1, a / 2, b / 2), OneBit(op, a % 2, b % 2));
      SplitBit(Bitwise(op, m, a, b), Pow2(n - 1));
    }
  }

  /** Reading a number as a `long` first does not matter for a narrower type. */
  lemma SignedTwice(ty: Ty, x: int)
    ensures ToSigned(ty, ToSigned(Long, x)) == ToSigned(ty, x)
  {
    if ty.Int? {
      var y := ToSigned(Long, x);
      DivMod(x, P64);
      var k := if x % P64 < P64 / 2 then x / P64 else x / P64 + 1;
      assert x == (k * P32) * P32 + y;
      ModShift(y, k * P32, P32);
    }
  }

  lemma WrapIff(ty: Ty, x: int)
    ensures ToSigned(ty, x) == x <==> InRange(ty, x)
  {
  }

  /** A result that fits 64 bits, cut to a type: it is the 64-bit result exactly if it fits the type. */
  lemma CutIff(ty: Ty, x: int)
    requires InRange(Long, x)
    ensures ToSigned(Long, x) == x && (ToSigned(ty, x) == ToSigned(Long, x) <==> InRange(ty, x))
  {
    WrapIff(Long, x);
    WrapIff(ty, x);
  }

  lemma ProductRange(a: int, b: int, m: int, n: int)
    requires -m <= a <= m && -n <= b <= n
    ensures -(m * n) <= a * b <= m * n
  {
    if a >= 0 && b >= 0 {
      MulLe(a, m, b);
      MulLe(b, n, m);
    } else if a >= 0 {
      assert a * b == -(a * -b);
      MulLe(a, m, -b);
      MulLe(-b, n, m);
    } else if b >= 0 {
      assert a * b == -(-a * b);
      MulLe(-a, m, b);
      MulLe(b, n, m);
    } else {
      assert a * b == -a * -b;
      MulLe(-a, m, -b);
      MulLe(-b, n, m);
    }
  }

  /** A right shift goes towards 0 or -1. */
  lemma ShiftedRange(ty: Ty, a: int, k: nat)
    requires InRange(ty, a)
    ensures InRange(ty, a / Pow2(k))
  {
    hide Pow2;
    var q, d := a / Pow2(k), Pow2(k);
    DivMod(a, d);
    assert (-q) * d == -(q * d) && (-q - 1) * d == -(q * d) - d;
    if q > 0 { MulLower(d, q); }
    if q < -1 { MulLower(d, -q - 1); }
  }

  /** Of operands with k bits and a sign, all further bits are the same. */
  lemma {:induction false} BitwiseOfSigns(op: BitOp, n: nat, a: int, b: int)
    requires -1 <= a <= 0 && -1 <= b <= 0
    ensures Bitwise(op, n, a, b) == if OneBit(op, a % 2, b % 2) == 0 then 0 else Pow2(n) - 1
    decreases n
  {
    if n > 0 { BitwiseOfSigns(op, n - 1, a / 2, b / 2); }
  }

  lemma {:induction false} BitwiseNear(op: BitOp, n: nat, k: nat, a: int, b: int)
    requires k <= n && 0 <= a + Pow2(k) < 2 * Pow2(k) && 0 <= b + Pow2(k) < 2 * Pow2(k)
    ensures var r := Bitwise(op, n, a, b);
            0 <= r < Pow2(k) || Pow2(n) - Pow2(k) <= r < Pow2(n)
    decreases n
  {
    if k == 0 {
      BitwiseOfSigns(op, n, a, b);
    } else {
      BitwiseNear(op, n - 1, k - 1, a / 2, b / 2);
    }
  }

  /** Bit by bit, `int`s give an `int`. */
  lemma BitwiseFits(op: BitOp, ty: Ty, a: int, b: int)
    requires InRange(ty, a) && InRange(ty, b)
    ensures InRange(ty, ToSigned(Long, Bitwise(op, 64, a, b)))
  {
    hide Bitwise, Pow2, ToSigned, ToUnsigned;
    var r := Bitwise(op, 64, a, b);
    if ty.Int? {
      Pow2Of31();
      BitwiseNear(op, 64, 31, a, b);
      NearFits(r);
    }
  }

  lemma NearFits(r: nat)
    requires r < P32 / 2 || P64 - P32 / 2 <= r < P64
    ensures InRange(Int, ToSigned(Long, r))
  {
  }

  lemma Pow2Of31()
    ensures Pow2(31) == P32 / 2 && Pow2(64) == P64
  {
    Pow2Width(Int);
    Pow2Width(Long);
    assert Pow2(32) == 2 * Pow2(31);
  }

  /** One operator on operands of its type: evaluator and emitted code agree exactly if the operands are fit. */
  lemma ArithAgreesIff(op: ArithOp, ty: Ty, a: int, b: int)
    requires InRange(ty, a) && InRange(Long, b) && (op.Shl? || op.Shr? || InRange(ty, b))
    requires op.Shl? || op.Shr? ==> 0 <= b < 8 * Bytes(ty)
    ensures FoldArith(op, a, b).Val? && ArithResult(op, ty, a, b) == Num(FoldArith(op, a, b).v) <==>
            OpFits(op, ty, a, b)
    ensures OpFits(op, ty, a, b) ==> FoldArith(op, a, b).Val? && InRange(ty, FoldArith(op, a, b).v)
  {
    hide Pow2, Bitwise, TruncDiv, TruncMod;
    match op {
      case Add => if ty.Int? { CutIff(ty, a + b); }
      case Sub => if ty.Int? { CutIff(ty, a - b); }
      case Mul => if ty.Int? { ProductRange(a, b, P32 / 2, P32 / 2); CutIff(ty, a * b); }
      case Div =>
      case Mod => if b != 0 { ModRange(ty, a, b); }
      case And => BitsAgree(BitAnd, ty, a, b); BitwiseFits(BitAnd, ty, a, b);
          CutIff(ty, ToSigned(Long, Bitwise(BitAnd, 64, a, b)));
      case Or => BitsAgree(BitOr, ty, a, b); BitwiseFits(BitOr, ty, a, b);
          CutIff(ty, ToSigned(Long, Bitwise(BitOr, 64, a, b)));
      case Xor => BitsAgree(BitXor, ty, a, b); BitwiseFits(BitXor, ty, a, b);
          CutIff(ty, ToSigned(Long, Bitwise(BitXor, 64, a, b)));
      case Shl =>
        ModSmall(b, 8 * Bytes(ty));
        ModSmall(b, 64);
        if ty.Int? { PowersTo31(b); ProductRange(a, Pow2(b), P32 / 2, P32 / 2); CutIff(ty, a * Pow2(b)); }
      case Shr =>
        ModSmall(b, 8 * Bytes(ty));
        ModSmall(b, 64);
        ShiftedRange(ty, a, b);
        LongRange(ty, a / Pow2(b));
        CutIff(ty, a / Pow2(b));
    }
  }

  lemma {:induction false} PowersTo31(b: nat)
    requires b < 32
    ensures Pow2(b) <= P32 / 2
    decreases 32 - b
  {
    if b == 31 { Pow2Of31(); } else { PowersTo31(b + 1); }
  }

  lemma BitsAgree(op: BitOp, ty: Ty, a: int, b: int)
    ensures ToSigned(ty, ToSigned(Long, Bitwise(op, 64, a, b))) == ToSigned(ty, Bitwise(op, 8 * Bytes(ty), a, b))
  {
    var x := Bitwise(op, 64, a, b);
    SignedTwice(ty, x);
    BitwisePrefix(op, 8 * Bytes(ty), 64, a, b);
    Pow2Width(ty);
    SignedOfUnsigned(ty, x);
  }

  /** The evaluator gives the value that the expression has, whatever the variables are. */
  lemma {:induction false} FoldIsEval(e: Expr, types: Types, env: Env)
    requires WellTyped(e, types) && Fits(e)
    ensures Fold(e).Val? && InRange(TypeOf(e), Fold(e).v) && Eval(e, env) == Value(Fold(e).v, env)
  {
    hide ToSigned, Pow2, Bitwise, FoldArith, ArithResult;
    match e
    case Const(ty, v) => ConstFits(ty, v);
    case Unary(op, x) =>
      FoldIsEval(x, types, env);
      UnaryFits(e);
    case Cast(ty, x) =>
      FoldIsEval(x, types, env);
      CastFits(ty, Fold(x).v);
    case Arith(op, l, r) =>
      FoldIsEval(l, types, env);
      FoldIsEval(r, types, env);
      LongRange(TypeOf(r), Fold(r).v);
      ArithAgreesIff(op, TypeOf(l), Fold(l).v, Fold(r).v);
    case Relation(_, l, r) => FoldIsEval(l, types, env); FoldIsEval(r, types, env);
    case LogAnd(l, r) =>
      FoldIsEval(l, types, env);
      if Fold(l) != Val(0) { FoldIsEval(r, types, env); }
    case LogOr(l, r) =>
      FoldIsEval(l, types, env);
      if Fold(l) == Val(0) { FoldIsEval(r, types, env); }
    case Comma(l, r) => FoldIsEval(l, types, env); FoldIsEval(r, types, env);
    case Choice(c, t, f) =>
      FoldIsEval(c, types, env);
      if Fold(c) == Val(0) { FoldIsEval(f, types, env); } else { FoldIsEval(t, types, env); }
  }

  lemma ConstFits(ty: Ty, v: int)
    requires InRange(ty, v)
    ensures ToSigned(ty, v) == v && ToSigned(Long, v) == v
  {
  }

  lemma CastFits(ty: Ty, v: int)
    requires InRange(ty, v)
    ensures ToSigned(ty, v) == v
  {
  }

  lemma LongRange(ty: Ty, v: int)
    requires InRange(ty, v)
    ensures InRange(Long, v)
  {
  }

  /** A sign change and the like on a value that fits. */
  lemma UnaryFits(e: Expr)
    requires e.Unary? && Fold(e.operand).Val? && Fits(e) && InRange(TypeOf(e.operand), Fold(e.operand).v)
    ensures Fold(e).Val? && InRange(TypeOf(e), Fold(e).v)
    ensures UnaryValue(e.uop, TypeOf(e.operand), Fold(e.operand).v) == Fold(e).v
  {
    var ty, v := TypeOf(e.operand), Fold(e.operand).v;
    if e.uop.Minus? && ty.Int? { CutIff(ty, -v); }
  }

  /** The value folded at compile time is the one the emitted instructions compute. */
  lemma FoldMatchesCode(prog: Code, frame: Frame, e: Expr, off: int, tag: nat, p: nat, s: Cpu, env: Env)
    requires Ready(prog, frame, e, off, tag, p, env, s.mem) && Fits(e)
    ensures exists n :: var st := Run(prog, Running(p, s), n);
              st.Running? && st.pc == p + |Compile(e, frame, off, tag).code|
              && Fold(e).Val? && Holds(TypeOf(e), st.cpu.rax, Fold(e).v)
  {
    hide Run, Compile, Fold, Fits;
    FoldIsEval(e, TypesOf(frame), env);
    var n := Simulate(prog, frame, e, off, tag, p, s, env);
    assert Run(prog, Running(p, s), n).Running?;
  }

  /** `2147483647 + 1` folds to 2147483648, the code computes -2147483648. */
  lemma FoldOverflows(env: Env)
    ensures var e := Arith(Add, Const(Int, 2147483647), Const(Int, 1));
            Fold(e) == Val(2147483648) && Eval(e, env) == Value(-2147483648, env)
  {
  }

  /** A conversion to `int` cuts nothing off. */
  lemma FoldKeepsCast(env: Env)
    ensures var e := Cast(Int, Const(Long, 0x1_0000_0001));
            Fold(e) == Val(0x1_0000_0001) && Eval(e, env) == Value(1, env)
  {
  }
}
