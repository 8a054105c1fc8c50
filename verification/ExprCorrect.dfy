/** Running the code of an expression computes its value and nothing else. */
module ExprCorrect {
  import opened Words
  import opened Memory
  import opened Machine
  import opened Expressions
  import opened ExprCode

  // ---------- the frame ----------

  function SlotEnd(s: Slot): int {
    s.off + Bytes(s.ty)
  }

  ghost predicate InSlot(frame: Frame, x: Name, a: int) {
    x in frame && frame[x].off <= a < SlotEnd(frame[x])
  }

  ghost predicate Apart(s: Slot, t: Slot) {
    SlotEnd(s) <= t.off || SlotEnd(t) <= s.off
  }

  /** Locals do not overlap and lie at or above `off`. */
  ghost predicate FrameOk(frame: Frame, off: int) {
    && (forall x :: x in frame ==> off <= frame[x].off)
    && (forall x, y :: x in frame && y in frame && x != y ==> Apart(frame[x], frame[y]))
  }

  /** Every local's slot holds its value. */
  ghost predicate Agrees(frame: Frame, env: Env, m: Mem) {
    forall x :: x in frame ==>
      x in env && ToSigned(frame[x].ty, Load(m, frame[x].off, Bytes(frame[x].ty))) == env[x]
  }

  /** At and above `off`, only slots of the variables in `written` may differ. */
  ghost predicate Kept(frame: Frame, written: set<Name>, off: int, m: Mem, m': Mem) {
    forall a :: off <= a && (forall x :: x in written ==> !InSlot(frame, x, a)) ==> At(m', a) == At(m, a)
  }

  lemma KeptTrans(frame: Frame, w1: set<Name>, w2: set<Name>, off: int, m: Mem, m1: Mem, m2: Mem)
    requires Kept(frame, w1, off, m, m1) && Kept(frame, w2, off, m1, m2)
    ensures Kept(frame, w1 + w2, off, m, m2)
  {
  }

  /** Only the bytes of the slots matter. */
  lemma AgreesSame(frame: Frame, env: Env, m: Mem, m': Mem)
    requires Agrees(frame, env, m)
    requires forall x, a :: InSlot(frame, x, a) ==> At(m', a) == At(m, a)
    ensures Agrees(frame, env, m')
  {
    forall x | x in frame
      ensures Load(m', frame[x].off, Bytes(frame[x].ty)) == Load(m, frame[x].off, Bytes(frame[x].ty))
    {
      forall a | frame[x].off <= a < frame[x].off + Bytes(frame[x].ty)
        ensures At(m', a) == At(m, a)
      {
        assert InSlot(frame, x, a);
      }
      LoadSame(m', m, frame[x].off, Bytes(frame[x].ty));
    }
  }

  /** Writing one local. */
  lemma StoreLocal(frame: Frame, off: int, env: Env, m: Mem, x: Name, w: int)
    requires FrameOk(frame, off) && Agrees(frame, env, m) && x in frame
    ensures var m' := Store(m, frame[x].off, Bytes(frame[x].ty), w);
            && Agrees(frame, env[x := ToSigned(frame[x].ty, w)], m')
            && Kept(frame, {x}, off, m, m')
  {
    var s := frame[x];
    var m' := Store(m, s.off, Bytes(s.ty), w);
    LoadStoreTy(m, s.off, s.ty, w);
    SignedOfUnsigned(s.ty, w);
    var others := map y | y in frame && y != x :: frame[y];
    forall y, a | InSlot(others, y, a)
      ensures At(m', a) == At(m, a)
    {
      assert Apart(frame[x], frame[y]);
    }
    assert Agrees(others, env, m);
    AgreesSame(others, env, m, m');
    forall a | off <= a && (forall y :: y in {x} ==> !InSlot(frame, y, a))
      ensures At(m', a) == At(m, a)
    {
      assert x in {x} && !InSlot(frame, x, a);
    }
  }

  /** Writing a temporary below the locals. */
  lemma StoreTemporary(frame: Frame, off: int, env: Env, m: Mem, w: Word)
    requires FrameOk(frame, off) && Agrees(frame, env, m)
    ensures var m' := Store(m, off - 8, 8, w);
            && Agrees(frame, env, m') && Kept(frame, {}, off, m, m') && Load(m', off - 8, 8) == w
  {
    LoadStoreWord(m, off - 8, w);
    AgreesSame(frame, env, m, Store(m, off - 8, 8, w));
  }

  /** The temporary survives code that keeps everything above it but locals. */
  lemma TemporaryKept(frame: Frame, off: int, written: set<Name>, m: Mem, m': Mem)
    requires FrameOk(frame, off) && Kept(frame, written, off - 8, m, m')
    ensures Load(m', off - 8, 8) == Load(m, off - 8, 8)
    ensures Kept(frame, written, off, m, m')
  {
    LoadSame(m', m, off - 8, 8);
  }

  // ---------- fragments ----------

  lemma {:induction false} ExecAllAppend(a: Code, b: Code, s: Cpu)
    requires Straight(a) && Straight(b)
    ensures Straight(a + b)
    ensures ExecAll(a + b, s) == match ExecAll(a, s) { case Fault => Fault case Done(t) => ExecAll(b, t) }
    decreases |a|
  {
    if a == [] {
      assert a + b == b;
    } else {
      assert (a + b)[1..] == a[1..] + b;
      match Exec(a[0], s)
      case Fault =>
      case Done(t) => ExecAllAppend(a[1..], b, t);
    }
  }

  lemma ExecOne(i: Instr, s: Cpu)
    requires !IsControl(i)
    ensures ExecAll([i], s) == Exec(i, s)
  {
    match Exec(i, s)
    case Fault =>
    case Done(t) => assert ExecAll([i][1..], t) == Done(t);
  }

  lemma ExecTwo(i: Instr, j: Instr, s: Cpu)
    requires !IsControl(i) && !IsControl(j)
    ensures ExecAll([i, j], s) == match Exec(i, s) { case Fault => Fault case Done(t) => Exec(j, t) }
  {
    assert [i, j] == [i] + [j];
    ExecAllAppend([i], [j], s);
    ExecOne(i, s);
    match Exec(i, s)
    case Fault =>
    case Done(t) => ExecOne(j, t);
  }

  lemma ExecThree(i: Instr, j: Instr, k: Instr, s: Cpu)
    requires !IsControl(i) && !IsControl(j) && !IsControl(k)
    ensures ExecAll([i, j, k], s)
         == match Exec(i, s) { case Fault => Fault case Done(t) => ExecAll([j, k], t) }
  {
    assert [i, j, k] == [i] + [j, k];
    ExecAllAppend([i], [j, k], s);
    ExecOne(i, s);
  }

  /** The signed conditions after a compare are the orders on the signed readings. */
  lemma CompareIsOrder(op: RelOp, ty: Ty, dst: int, src: int)
    ensures CondHolds(CondOf(op), CompareFlags(ty, dst, src))
        <==> RelationValue(op, ToSigned(ty, dst), ToSigned(ty, src))
  {
    DifferenceWraps(ty, dst, src);
  }

  lemma DifferenceWraps(ty: Ty, x: int, y: int)
    ensures var a, b, d := ToSigned(ty, x), ToSigned(ty, y), ToSigned(ty, x - y);
            && (d == a - b || d == a - b + Modulus(ty) || d == a - b - Modulus(ty))
            && (ToUnsigned(ty, x - y) == 0 <==> a == b)
  {
    SubMod(x, y, Modulus(ty));
  }

  /** What the code of an operator does with its operands in place, memory untouched. */
  lemma ArithBlock(op: ArithOp, ty: Ty, rty: Ty, a: int, b: int, s: Cpu)
    requires Holds(ty, s.rax, a) && Holds(rty, s.r11, b)
    requires op.Shl? || op.Shr? || rty == ty
    ensures Straight(ArithCode(op, ty))
    ensures match ArithResult(op, ty, a, b)
            case NoNum => ExecAll(ArithCode(op, ty), s) == Fault
            case Num(v) =>
              var r := ExecAll(ArithCode(op, ty), s);
              r.Done? && Holds(ty, r.cpu.rax, v) && r.cpu.mem == s.mem
  {
    match op
    case Add => AddBlock(AluAdd, ty, a, b, s);
    case Sub => AddBlock(AluSub, ty, a, b, s);
    case Mul => MulBlock(ty, a, b, s);
    case Div => DivideBlock(ty, a, b, s);
    case Mod => DivideBlock(ty, a, b, s); ModBlock(ty, a, b, s);
    case And => BitsBlock(BitAnd, ty, a, b, s);
    case Or => BitsBlock(BitOr, ty, a, b, s);
    case Xor => BitsBlock(BitXor, ty, a, b, s);
    case Shl => ShiftLeftBlock(ty, rty, a, b, s);
    case Shr => ShiftRightBlock(ty, rty, a, b, s);
  }

  lemma AddBlock(alu: AluOp, ty: Ty, a: int, b: int, s: Cpu)
    requires !alu.AluBits? && Holds(ty, s.rax, a) && Holds(ty, s.r11, b)
    ensures var r := ExecAll([Alu(alu, ty, R11, Rax)], s);
            && r.Done? && r.cpu.mem == s.mem
            && Holds(ty, r.cpu.rax, ToSigned(ty, if alu.AluAdd? then a + b else a - b))
  {
    hide ToSigned, ToUnsigned, Bitwise;
    ExecOne(Alu(alu, ty, R11, Rax), s);
    if alu.AluAdd? {
      SumSigned(ty, s.rax, s.r11, 1);
    } else {
      SumSigned(ty, s.rax, s.r11, -1);
    }
  }

  lemma MulBlock(ty: Ty, a: int, b: int, s: Cpu)
    requires Holds(ty, s.rax, a) && Holds(ty, s.r11, b)
    ensures var r := ExecAll([Imul(ty, R11)], s);
            && r.Done? && r.cpu.mem == s.mem && Holds(ty, r.cpu.rax, ToSigned(ty, a * b))
  {
    ExecOne(Imul(ty, R11), s);
    SignedOfUnsigned(ty, a * b);
  }

  lemma SumSigned(ty: Ty, x: int, y: int, k: int)
    requires k == 1 || k == -1
    ensures ToSigned(ty, ToUnsigned(ty, x + k * y)) == ToSigned(ty, ToSigned(ty, x) + k * ToSigned(ty, y))
  {
    SignedCong(ty, x);
    SignedCong(ty, y);
    UnsignedIsMod(ty, x);
    UnsignedIsMod(ty, y);
    UnsignedIsMod(ty, ToSigned(ty, x));
    UnsignedIsMod(ty, ToSigned(ty, y));
    AddMod(x, k * y, ToSigned(ty, x), k * ToSigned(ty, y), Modulus(ty)) by {
      MulMod(k, y, k, ToSigned(ty, y), Modulus(ty));
    }
    SignedFromMod(ty, x + k * y, ToSigned(ty, x) + k * ToSigned(ty, y));
    SignedOfUnsigned(ty, x + k * y);
  }

  lemma SignedFromMod(ty: Ty, x: int, y: int)
    requires x % Modulus(ty) == y % Modulus(ty)
    ensures ToSigned(ty, x) == ToSigned(ty, y)
  {
  }

  /** A number and its signed reading differ by a multiple of the modulus. */
  lemma SignedCong(ty: Ty, x: int)
    ensures x == (x - ToSigned(ty, x)) / Modulus(ty) * Modulus(ty) + ToSigned(ty, x)
    ensures ToUnsigned(ty, x) == ToUnsigned(ty, ToSigned(ty, x))
  {
    SignedOfUnsigned(ty, x);
  }

  lemma BitsBlock(op: BitOp, ty: Ty, a: int, b: int, s: Cpu)
    requires Holds(ty, s.rax, a) && Holds(ty, s.r11, b)
    ensures var r := ExecAll([Alu(AluBits(op), ty, R11, Rax)], s);
            && r.Done? && r.cpu.mem == s.mem
            && Holds(ty, r.cpu.rax, ToSigned(ty, Bitwise(op, 8 * Bytes(ty), a, b)))
  {
    ExecOne(Alu(AluBits(op), ty, R11, Rax), s);
    SameBits(ty, s.rax);
    SameBits(ty, s.r11);
    BitwiseLow(op, 8 * Bytes(ty), s.rax, s.r11, a, b);
    SignedOfUnsigned(ty, Bitwise(op, 8 * Bytes(ty), a, b));
  }

  lemma SameBits(ty: Ty, x: int)
    ensures x % Pow2(8 * Bytes(ty)) == ToSigned(ty, x) % Pow2(8 * Bytes(ty))
  {
    Pow2Width(ty);
    SignedCong(ty, x);
  }

  lemma DivideBlock(ty: Ty, a: int, b: int, s: Cpu)
    requires Holds(ty, s.rax, a) && Holds(ty, s.r11, b)
    ensures var r := ExecAll([SignExtendRax(ty), Idiv(ty, R11)], s);
            if DivisionFaults(ty, a, b) then r == Fault
            else r.Done? && r.cpu.mem == s.mem && Holds(ty, r.cpu.rax, TruncDiv(a, b))
                 && r.cpu.rdx == ToUnsigned(ty, TruncMod(a, b))
  {
    ExecTwo(SignExtendRax(ty), Idiv(ty, R11), s);
    var t := Exec(SignExtendRax(ty), s).cpu;
    DividendIs(ty, s.rax, t.rdx);
    if b != 0 { SignedOfUnsigned(ty, TruncDiv(a, b)); }
  }

  lemma DividendIs(ty: Ty, rax: Word, rdx: Word)
    requires rdx == if ToSigned(ty, rax) < 0 then Modulus(ty) - 1 else 0
    ensures ToSigned(ty, rdx) * Modulus(ty) + ToUnsigned(ty, rax) == ToSigned(ty, rax)
  {
    assert ToSigned(ty, rdx) == if ToSigned(ty, rax) < 0 then -1 else 0;
  }

  /** Two instructions and a third one. */
  lemma ThirdStep(i: Instr, j: Instr, k: Instr, s: Cpu)
    requires !IsControl(i) && !IsControl(j) && !IsControl(k)
    ensures Straight([i, j]) && Straight([k]) && Straight([i, j, k])
    ensures var r := ExecAll([i, j], s);
            ExecAll([i, j, k], s) == if r.Done? then ExecAll([k], r.cpu) else r
  {
    hide Exec, IsControl;
    ExecAllAppend([i, j], [k], s);
    assert [i, j, k] == [i, j] + [k];
  }

  lemma TakeRemainder(ty: Ty, v: int, t: Cpu)
    requires t.rdx == ToUnsigned(ty, v) && InRange(ty, v)
    ensures var r := ExecAll([MovReg(Long, Rdx, Rax)], t);
            r.Done? && r.cpu.mem == t.mem && Holds(ty, r.cpu.rax, v)
  {
    hide Exec, ToSigned, ToUnsigned;
    ExecOne(MovReg(Long, Rdx, Rax), t);
    RdxMoved(t);
    SignedOfUnsigned(ty, v);
  }

  lemma RdxMoved(s: Cpu)
    ensures Exec(MovReg(Long, Rdx, Rax), s) == Done(s.(rax := s.rdx))
  {
  }

  lemma ModBlock(ty: Ty, a: int, b: int, s: Cpu)
    requires Holds(ty, s.rax, a) && Holds(ty, s.r11, b)
    ensures var r := ExecAll([SignExtendRax(ty), Idiv(ty, R11), MovReg(Long, Rdx, Rax)], s);
            if DivisionFaults(ty, a, b) then r == Fault
            else r.Done? && r.cpu.mem == s.mem && Holds(ty, r.cpu.rax, TruncMod(a, b))
  {
    hide ExecAll, TruncMod, TruncDiv, Holds, ToUnsigned, InRange;
    DivideBlock(ty, a, b, s);
    ThirdStep(SignExtendRax(ty), Idiv(ty, R11), MovReg(Long, Rdx, Rax), s);
    if !DivisionFaults(ty, a, b) {
      RemainderFits(ty, a, b, s.rax, s.r11);
      TakeRemainder(ty, TruncMod(a, b), ExecAll([SignExtendRax(ty), Idiv(ty, R11)], s).cpu);
    }
  }

  lemma RemainderFits(ty: Ty, a: int, b: int, x: Word, y: Word)
    requires Holds(ty, x, a) && Holds(ty, y, b) && !DivisionFaults(ty, a, b)
    ensures InRange(ty, TruncMod(a, b))
  {
    ModRange(ty, a, b);
  }

  /** The count in `%cl` is the right operand, whichever width it has. */
  lemma CountIs(ty: Ty, rty: Ty, w: Word, b: int)
    requires Holds(rty, w, b)
    ensures ShiftCount(ty, w) == b % (8 * Bytes(ty))
  {
    SignedCong(rty, w);
    var k := (w - b) / Modulus(rty);
    var n := 8 * Bytes(ty);
    assert w == k * Modulus(rty) + b;
    var c := Modulus(rty) / n;
    assert Modulus(rty) == c * n;
    assert k * (c * n) == (k * c) * n;
    ModShift(b, k * c, n);
  }

  lemma UnsignedIsMod(ty: Ty, x: int)
    ensures ToUnsigned(ty, x) == x % Modulus(ty)
  {
  }

  lemma CountMoved(s: Cpu)
    ensures Exec(MovReg(Long, R11, Rcx), s) == Done(s.(rcx := s.r11))
  {
  }

  /** Shifting the word is shifting the value it holds, modulo the width. */
  lemma ShiftedLeft(ty: Ty, a: int, n: nat, t: Cpu)
    requires Holds(ty, t.rax, a) && ShiftCount(ty, t.rcx) == n
    ensures var r := Exec(Sal(ty, Rax), t);
            r.Done? && r.cpu.mem == t.mem && Holds(ty, r.cpu.rax, ToSigned(ty, a * Pow2(n)))
  {
    hide ToUnsigned, ToSigned, ShiftCount, Pow2;
    TimesSigned(ty, t.rax, a, Pow2(n));
  }

  lemma TimesSigned(ty: Ty, w: Word, a: int, p: int)
    requires ToSigned(ty, w) == a
    ensures ToSigned(ty, ToUnsigned(ty, w * p)) == ToSigned(ty, a * p)
  {
    hide ToUnsigned, ToSigned;
    SignedCong(ty, w);
    UnsignedIsMod(ty, w);
    UnsignedIsMod(ty, a);
    MulMod(w, p, a, p, Modulus(ty));
    UnsignedIsMod(ty, w * p);
    UnsignedIsMod(ty, a * p);
    SignedOfUnsigned(ty, w * p);
    SignedOfUnsigned(ty, a * p);
  }

  lemma ShiftLeftBlock(ty: Ty, rty: Ty, a: int, b: int, s: Cpu)
    requires Holds(ty, s.rax, a) && Holds(rty, s.r11, b)
    ensures var r := ExecAll([MovReg(Long, R11, Rcx), Sal(ty, Rax)], s);
            && r.Done? && r.cpu.mem == s.mem
            && Holds(ty, r.cpu.rax, ToSigned(ty, a * Pow2(b % (8 * Bytes(ty)))))
  {
    hide Exec, ExecAll, Holds, ToSigned, Pow2, ShiftCount;
    ExecTwo(MovReg(Long, R11, Rcx), Sal(ty, Rax), s);
    CountMoved(s);
    CountIs(ty, rty, s.r11, b);
    ShiftedLeft(ty, a, b % (8 * Bytes(ty)), s.(rcx := s.r11));
  }

  lemma ShiftedRight(ty: Ty, a: int, n: nat, t: Cpu)
    requires Holds(ty, t.rax, a) && ShiftCount(ty, t.rcx) == n
    ensures var r := Exec(Sar(ty, Rax), t);
            r.Done? && r.cpu.mem == t.mem && Holds(ty, r.cpu.rax, ToSigned(ty, a / Pow2(n)))
  {
    hide ToUnsigned, ShiftCount, Pow2;
    SignedOfUnsigned(ty, a / Pow2(n));
  }

  lemma ShiftRightBlock(ty: Ty, rty: Ty, a: int, b: int, s: Cpu)
    requires Holds(ty, s.rax, a) && Holds(rty, s.r11, b)
    ensures var r := ExecAll([MovReg(Long, R11, Rcx), Sar(ty, Rax)], s);
            && r.Done? && r.cpu.mem == s.mem
            && Holds(ty, r.cpu.rax, ToSigned(ty, a / Pow2(b % (8 * Bytes(ty)))))
  {
    hide Exec, ExecAll, Holds, ToSigned, Pow2, ShiftCount;
    ExecTwo(MovReg(Long, R11, Rcx), Sar(ty, Rax), s);
    CountMoved(s);
    CountIs(ty, rty, s.r11, b);
    ShiftedRight(ty, a, b % (8 * Bytes(ty)), s.(rcx := s.r11));
  }

  /** After a compare, `setcc` and the zero extension leave the truth value in the accumulator. */
  lemma TruthBlock(c: Cond, ext: Ty, s: Cpu)
    ensures var r := ExecAll([SetAl(c), ZeroExtendAl(ext)], s);
            r.Done? && r.cpu.mem == s.mem && r.cpu.rax == Truth(CondHolds(c, s.flags))
  {
    ExecTwo(SetAl(c), ZeroExtendAl(ext), s);
  }

  lemma RelationBlock(op: RelOp, ty: Ty, a: int, b: int, s: Cpu)
    requires Holds(ty, s.rax, a) && Holds(ty, s.r11, b)
    ensures var r := ExecAll(RelationCode(op, ty), s);
            r.Done? && r.cpu.mem == s.mem && Holds(Int, r.cpu.rax, Truth(RelationValue(op, a, b)))
  {
    ExecThree(Cmp(ty, R11, Rax), SetAl(CondOf(op)), ZeroExtendAl(Long), s);
    CompareIsOrder(op, ty, s.rax, s.r11);
    TruthBlock(CondOf(op), Long, Exec(Cmp(ty, R11, Rax), s).cpu);
  }

  lemma CompareZero(ty: Ty, w: Word, v: int)
    requires Holds(ty, w, v)
    ensures CompareFlags(ty, w, 0).zf == (v == 0)
  {
  }

  lemma NegBlock(ty: Ty, v: int, s: Cpu)
    requires Holds(ty, s.rax, v)
    ensures var r := ExecAll([Neg(ty, Rax)], s);
            r.Done? && r.cpu.mem == s.mem && Holds(ty, r.cpu.rax, ToSigned(ty, -v))
  {
    hide ToUnsigned, ToSigned, Bitwise;
    ExecOne(Neg(ty, Rax), s);
    SumSigned(ty, 0, s.rax, -1);
  }

  lemma NotBlock(ty: Ty, v: int, s: Cpu)
    requires Holds(ty, s.rax, v)
    ensures var r := ExecAll([NotQ(Rax)], s);
            r.Done? && r.cpu.mem == s.mem && Holds(ty, r.cpu.rax, -v - 1)
  {
    hide ToUnsigned, ToSigned;
    ExecOne(NotQ(Rax), s);
    NotSigned(ty, s.rax);
  }

  lemma LogNotBlock(ty: Ty, v: int, s: Cpu)
    requires Holds(ty, s.rax, v)
    ensures var r := ExecAll([CmpImm(ty, 0, Rax), SetAl(E), ZeroExtendAl(Int)], s);
            r.Done? && r.cpu.mem == s.mem && Holds(Int, r.cpu.rax, Truth(v == 0))
  {
    hide ToUnsigned, ToSigned, CompareFlags;
    ExecThree(CmpImm(ty, 0, Rax), SetAl(E), ZeroExtendAl(Int), s);
    CompareZero(ty, s.rax, v);
    TruthBlock(E, Int, Exec(CmpImm(ty, 0, Rax), s).cpu);
  }

  lemma UnaryBlock(op: UnaryOp, ty: Ty, v: int, s: Cpu)
    requires Holds(ty, s.rax, v)
    ensures Straight(UnaryCode(op, ty))
    ensures var r := ExecAll(UnaryCode(op, ty), s);
            && r.Done? && r.cpu.mem == s.mem
            && Holds(if op.LogNot? then Int else ty, r.cpu.rax, UnaryValue(op, ty, v))
  {
    hide Exec, ToUnsigned, ToSigned;
    match op
    case Plus =>
    case Minus => NegBlock(ty, v, s);
    case BitNot => NotBlock(ty, v, s);
    case LogNot => LogNotBlock(ty, v, s);
  }

  lemma NotSigned(ty: Ty, w: Word)
    ensures ToSigned(ty, P64 - 1 - w) == -ToSigned(ty, w) - 1
  {
  }

  lemma CastBlock(from: Ty, to: Ty, v: int, s: Cpu)
    requires Holds(from, s.rax, v) && InRange(from, v)
    ensures Straight(CastCode(from, to))
    ensures var r := ExecAll(CastCode(from, to), s);
            r.Done? && r.cpu.mem == s.mem && Holds(to, r.cpu.rax, ToSigned(to, v))
  {
    if from.Int? && to.Long? {
      ExecOne(Cltq, s);
      SignedOfUnsigned(Long, v);
    } else if from.Long? && to.Int? {
      LowHalf(s.rax);
    }
  }

  lemma LowHalf(w: Word)
    ensures ToSigned(Int, w) == ToSigned(Int, ToSigned(Long, w))
  {
  }

  // ---------- the whole expression ----------

  /** How a run of an expression's code ends: with the value in the accumulator, the variables updated
      and no other byte at or above `off` changed; or with a divide error. */
  ghost predicate Ends(st: State, q: nat, ty: Ty, r: Result, frame: Frame, written: set<Name>, off: int, m: Mem) {
    match r
    case DivideError => st == Trapped
    case Value(v, env) =>
      && st.Running? && st.pc == q
      && Holds(ty, st.cpu.rax, v)
      && Agrees(frame, env, st.cpu.mem)
      && Kept(frame, written, off, m, st.cpu.mem)
  }

  ghost predicate Ready(prog: Code, frame: Frame, e: Expr, off: int, tag: nat, p: nat, env: Env, m: Mem) {
    && UniqueLabels(prog)
    && FrameOk(frame, off)
    && WellTyped(e, TypesOf(frame))
    && CodeAt(prog, p, Compile(e, frame, off, tag).code)
    && Agrees(frame, env, m)
  }

  lemma {:induction false} Simulate(prog: Code, frame: Frame, e: Expr, off: int, tag: nat, p: nat, s: Cpu, env: Env)
    returns (n: nat)
    requires Ready(prog, frame, e, off, tag, p, env, s.mem)
    ensures Ends(Run(prog, Running(p, s), n), p + |Compile(e, frame, off, tag).code|,
                 TypeOf(e), Eval(e, env), frame, Assigned(e), off, s.mem)
    decreases e, 2
  {
    hide Run, Ends, Agrees, FrameOk;
    match e
    case Const(ty, v) => n := SimulateConst(prog, frame, ty, v, off, p, s, env);
    case Local(ty, x) => n := SimulateLocal(prog, frame, ty, x, off, p, s, env);
    case Unary(_, _) => n := SimulateUnary(prog, frame, e, off, tag, p, s, env);
    case Cast(_, _) => n := SimulateUnary(prog, frame, e, off, tag, p, s, env);
    case Arith(_, _, _) => n := SimulateBinary(prog, frame, e, off, tag, p, s, env);
    case Relation(_, _, _) => n := SimulateBinary(prog, frame, e, off, tag, p, s, env);
    case LogAnd(_, _) => n := SimulateLogic(prog, frame, e, off, tag, p, s, env);
    case LogOr(_, _) => n := SimulateLogic(prog, frame, e, off, tag, p, s, env);
    case Comma(_, _) => n := SimulateComma(prog, frame, e, off, tag, p, s, env);
    case Choice(_, _, _) => n := SimulateChoice(prog, frame, e, off, tag, p, s, env);
    case Assign(_, _, _) => n := SimulateAssign(prog, frame, e, off, tag, p, s, env);
    case IncDec(ty, x, inc, post) => n := SimulateIncDec(prog, frame, ty, x, inc, post, off, p, s, env);
  }

  lemma SimulateStraight(prog: Code, c: Code, p: nat, s: Cpu) returns (n: nat)
    requires Straight(c) && CodeAt(prog, p, c)
    ensures Run(prog, Running(p, s), n)
         == match ExecAll(c, s) { case Fault => Trapped case Done(t) => Running(p + |c|, t) }
  {
    n := |c|;
    RunStraight(prog, p, c, s);
  }

  lemma ConstBlock(ty: Ty, v: int, s: Cpu)
    ensures var r := ExecAll([MovImm(ty, v, Rax)], s);
            r.Done? && r.cpu.mem == s.mem && Holds(ty, r.cpu.rax, ToSigned(ty, v))
  {
    ExecOne(MovImm(ty, v, Rax), s);
    SignedOfUnsigned(ty, v);
  }

  lemma SimulateConst(prog: Code, frame: Frame, ty: Ty, v: int, off: int, p: nat, s: Cpu, env: Env)
    returns (n: nat)
    requires Ready(prog, frame, Const(ty, v), off, 0, p, env, s.mem)
    ensures Ends(Run(prog, Running(p, s), n), p + 1, ty, Eval(Const(ty, v), env), frame, {}, off, s.mem)
  {
    n := SimulateStraight(prog, [MovImm(ty, v, Rax)], p, s);
    ConstBlock(ty, v, s);
  }

  lemma SimulateLocal(prog: Code, frame: Frame, ty: Ty, x: Name, off: int, p: nat, s: Cpu, env: Env)
    returns (n: nat)
    requires Ready(prog, frame, Local(ty, x), off, 0, p, env, s.mem)
    ensures Ends(Run(prog, Running(p, s), n), p + 1, ty, Eval(Local(ty, x), env), frame, {}, off, s.mem)
  {
    var i := LoadSlot(ty, frame[x].off, Rax);
    n := SimulateStraight(prog, [i], p, s);
    ExecOne(i, s);
  }

  /** One more block without jumps after a run that ended well. */
  lemma Continue(prog: Code, start: State, k: nat, c: Code) returns (n: nat)
    requires Run(prog, start, k).Running?
    requires Straight(c) && CodeAt(prog, Run(prog, start, k).pc, c)
    ensures Run(prog, start, n)
         == match ExecAll(c, Run(prog, start, k).cpu)
            case Fault => Trapped
            case Done(t) => Running(Run(prog, start, k).pc + |c|, t)
    ensures n == k + |c|
  {
    hide ExecAll;
    var mid := Run(prog, start, k);
    RunAdd(prog, start, k, |c|);
    RunStraight(prog, mid.pc, c, mid.cpu);
    n := k + |c|;
  }

  lemma UnaryParts(e: Expr, frame: Frame, off: int, tag: nat, env: Env)
    requires e.Unary? || e.Cast?
    ensures var x := e.operand;
            && Compile(e, frame, off, tag).code == Compile(x, frame, off, tag).code
                 + (if e.Unary? then UnaryCode(e.uop, TypeOf(x)) else CastCode(TypeOf(x), e.to))
            && (WellTyped(e, TypesOf(frame)) ==> WellTyped(x, TypesOf(frame))) && Assigned(e) == Assigned(x)
            && TypeOf(e) == (if e.Cast? then e.to else if e.uop.LogNot? then Int else TypeOf(x))
            && Eval(e, env) == match Eval(x, env)
                               case DivideError => DivideError
                               case Value(v, env1) =>
                                 Value(if e.Unary? then UnaryValue(e.uop, TypeOf(x), v) else ToSigned(e.to, v), env1)
  {
    hide UnaryCode, CastCode, UnaryValue, ToSigned;
  }

  lemma SimulateUnary(prog: Code, frame: Frame, e: Expr, off: int, tag: nat, p: nat, s: Cpu, env: Env)
    returns (n: nat)
    requires e.Unary? || e.Cast?
    requires Ready(prog, frame, e, off, tag, p, env, s.mem)
    ensures Ends(Run(prog, Running(p, s), n), p + |Compile(e, frame, off, tag).code|,
                 TypeOf(e), Eval(e, env), frame, Assigned(e), off, s.mem)
    decreases e, 0
  {
    hide Run, ExecAll, Compile, Eval, Assigned, WellTyped, TypeOf, UnaryCode, CastCode, UnaryValue, Agrees, Kept,
         CodeAt, UniqueLabels, FrameOk;
    var x := e.operand;
    UnaryParts(e, frame, off, tag, env);
    var a := Compile(x, frame, off, tag);
    var c := if e.Unary? then UnaryCode(e.uop, TypeOf(x)) else CastCode(TypeOf(x), e.to);
    CodeAtSplit(prog, p, a.code, c);
    var k := Simulate(prog, frame, x, off, tag, p, s, env);
    match Eval(x, env)
    case DivideError => n := k;
    case Value(v, env1) =>
      var mid := Run(prog, Running(p, s), k);
      if e.Unary? {
        UnaryBlock(e.uop, TypeOf(x), v, mid.cpu);
      } else {
        CastBlock(TypeOf(x), e.to, v, mid.cpu);
      }
      n := Continue(prog, Running(p, s), k, c);
  }

  /** The left operand is in the accumulator; its code is followed by the spill. */
  lemma Spill(prog: Code, frame: Frame, start: State, k: nat, p: nat, off: int, env: Env, ty: Ty, a: int,
              written: set<Name>, m: Mem)
    returns (n: nat)
    requires FrameOk(frame, off) && CodeAt(prog, p, [StoreSlot(Long, Rax, off - 8)])
    requires Ends(Run(prog, start, k), p, ty, Value(a, env), frame, written, off, m)
    ensures var st := Run(prog, start, n);
            && st.Running? && st.pc == p + 1 && Agrees(frame, env, st.cpu.mem)
            && Kept(frame, written, off, m, st.cpu.mem) && Holds(ty, Load(st.cpu.mem, off - 8, 8), a)
  {
    hide Run; hide ExecAll;
    var c := [StoreSlot(Long, Rax, off - 8)];
    var mid := Run(prog, start, k).cpu;
    n := Continue(prog, start, k, c);
    ExecOne(c[0], mid);
    StoreTemporary(frame, off, env, mid.mem, mid.rax);
    KeptTrans(frame, written, {}, off, m, mid.mem, Run(prog, start, n).cpu.mem);
    assert written + {} == written;
  }

  /** The right operand is in the accumulator and the left one in its temporary. */
  lemma Restore(prog: Code, frame: Frame, start: State, k: nat, p: nat, off: int, env: Env,
                lty: Ty, a: int, rty: Ty, b: int, w1: set<Name>, w2: set<Name>, m: Mem, m1: Mem)
    returns (n: nat)
    requires FrameOk(frame, off) && CodeAt(prog, p, RestoreCode(off))
    requires Kept(frame, w1, off, m, m1) && Holds(lty, Load(m1, off - 8, 8), a)
    requires Ends(Run(prog, start, k), p, rty, Value(b, env), frame, w2, off - 8, m1)
    ensures OperandsReady(Run(prog, start, n), p + 2, lty, a, rty, b, env, frame, w1 + w2, off, m)
  {
    hide Run; hide ExecAll;
    var mid := Run(prog, start, k).cpu;
    TemporaryKept(frame, off, w2, m1, mid.mem);
    RestoreBlock(off, mid);
    n := Continue(prog, start, k, RestoreCode(off));
    KeptTrans(frame, w1, w2, off, m, m1, mid.mem);
  }

  ghost predicate OperandsReady(st: State, q: nat, lty: Ty, a: int, rty: Ty, b: int, env: Env,
                                frame: Frame, written: set<Name>, off: int, m: Mem) {
    && st.Running? && st.pc == q
    && Holds(lty, st.cpu.rax, a) && Holds(rty, st.cpu.r11, b)
    && Agrees(frame, env, st.cpu.mem)
    && Kept(frame, written, off, m, st.cpu.mem)
  }

  /** Both operands: the left one spilled below `off` while the right one runs, then both in registers. */
  lemma SimulateOperands(prog: Code, frame: Frame, e: Expr, off: int, tag: nat, p: nat, s: Cpu, env: Env)
    returns (n: nat)
    requires e.Arith? || e.Relation?
    requires UniqueLabels(prog) && FrameOk(frame, off) && WellTyped(e, TypesOf(frame)) && Agrees(frame, env, s.mem)
    requires CodeAt(prog, p, OperandsOf(e, frame, off, tag))
    ensures var st := Run(prog, Running(p, s), n);
            match Eval(e.lhs, env)
            case DivideError => st == Trapped
            case Value(a, env1) =>
              match Eval(e.rhs, env1)
              case DivideError => st == Trapped
              case Value(b, env2) =>
                OperandsReady(st, p + |OperandsOf(e, frame, off, tag)|, TypeOf(e.lhs), a, TypeOf(e.rhs), b, env2,
                              frame, Assigned(e.lhs) + Assigned(e.rhs), off, s.mem)
    decreases e, 0
  {
    hide Run, Kept, Load, ToSigned, CodeAt, UniqueLabels, Compile, Eval, Assigned, OperandsReady;
    var l, r := e.lhs, e.rhs;
    var a := Compile(l, frame, off, tag);
    var b := Compile(r, frame, off - 8, a.tag);
    var spill := [StoreSlot(Long, Rax, off - 8)];
    CodeAtSplit(prog, p, a.code + spill + b.code, RestoreCode(off));
    CodeAtSplit(prog, p, a.code + spill, b.code);
    CodeAtSplit(prog, p, a.code, spill);
    var start := Running(p, s);
    var k1 := Simulate(prog, frame, l, off, tag, p, s, env);
    n := k1;
    if Eval(l, env).Value? {
      var va, env1 := Eval(l, env).v, Eval(l, env).env;
      var p1 := p + |a.code|;
      var k2 := Spill(prog, frame, start, k1, p1, off, env1, TypeOf(l), va, Assigned(l), s.mem);
      var s1 := Run(prog, start, k2).cpu;
      LowerOff(frame, off);
      var k3 := Simulate(prog, frame, r, off - 8, a.tag, p1 + 1, s1, env1);
      RunAdd(prog, start, k2, k3);
      n := k2 + k3;
      if Eval(r, env1).Value? {
        n := Restore(prog, frame, start, k2 + k3, p1 + 1 + |b.code|, off, Eval(r, env1).env,
                     TypeOf(l), va, TypeOf(r), Eval(r, env1).v, Assigned(l), Assigned(r), s.mem, s1.mem);
      }
    }
  }

  lemma LowerOff(frame: Frame, off: int)
    requires FrameOk(frame, off)
    ensures FrameOk(frame, off - 8)
  {
  }

  function OperandsOf(e: Expr, frame: Frame, off: int, tag: nat): Code
    requires e.Arith? || e.Relation?
  {
    var a := Compile(e.lhs, frame, off, tag);
    OperandsCode(a.code, Compile(e.rhs, frame, off - 8, a.tag).code, off)
  }

  lemma RestoreBlock(off: int, s: Cpu)
    ensures var r := ExecAll(RestoreCode(off), s);
            && r.Done? && r.cpu.r11 == s.rax && r.cpu.mem == s.mem
            && r.cpu.rax == Load(s.mem, off - 8, 8)
  {
    ExecTwo(MovReg(Long, Rax, R11), LoadSlot(Long, off - 8, Rax), s);
    LoadBound(s.mem, off - 8, Long);
  }

  lemma SimulateBinary(prog: Code, frame: Frame, e: Expr, off: int, tag: nat, p: nat, s: Cpu, env: Env)
    returns (n: nat)
    requires e.Arith? || e.Relation?
    requires Ready(prog, frame, e, off, tag, p, env, s.mem)
    ensures Ends(Run(prog, Running(p, s), n), p + |Compile(e, frame, off, tag).code|,
                 TypeOf(e), Eval(e, env), frame, Assigned(e), off, s.mem)
    decreases e, 1
  {
    hide Run; hide ExecAll; hide Kept; hide CodeAt; hide ToSigned; hide ArithCode;
    var ty := TypeOf(e.lhs);
    var c := if e.Arith? then ArithCode(e.aop, ty) else RelationCode(e.rop, ty);
    CodeAtSplit(prog, p, OperandsOf(e, frame, off, tag), c);
    var k := SimulateOperands(prog, frame, e, off, tag, p, s, env);
    n := k;
    if Eval(e.lhs, env).Value? {
      var a, env1 := Eval(e.lhs, env).v, Eval(e.lhs, env).env;
      if Eval(e.rhs, env1).Value? {
        var b := Eval(e.rhs, env1).v;
        var mid := Run(prog, Running(p, s), k).cpu;
        if e.Arith? {
          ArithBlock(e.aop, ty, TypeOf(e.rhs), a, b, mid);
        } else {
          RelationBlock(e.rop, ty, a, b, mid);
        }
        n := Continue(prog, Running(p, s), k, c);
      }
    }
  }

  /** Two runs one after the other. */
  lemma Join(prog: Code, frame: Frame, start: State, k: nat, k': nat, p: nat, q: nat, lty: Ty, a: int, env: Env,
             rty: Ty, r: Result, w1: set<Name>, w2: set<Name>, off: int, m: Mem)
    requires Ends(Run(prog, start, k), p, lty, Value(a, env), frame, w1, off, m)
    requires Ends(Run(prog, Run(prog, start, k), k'), q, rty, r, frame, w2, off, Run(prog, start, k).cpu.mem)
    ensures Ends(Run(prog, start, k + k'), q, rty, r, frame, w1 + w2, off, m)
  {
    RunAdd(prog, start, k, k');
    var mid := Run(prog, start, k);
    var last := Run(prog, mid, k');
    if r.Value? { KeptTrans(frame, w1, w2, off, m, mid.cpu.mem, last.cpu.mem); }
  }

  lemma CommaParts(e: Expr, frame: Frame, off: int, tag: nat, env: Env)
    requires e.Comma?
    ensures var a := Compile(e.lhs, frame, off, tag);
            Compile(e, frame, off, tag).code == a.code + Compile(e.rhs, frame, off, a.tag).code
    ensures WellTyped(e, TypesOf(frame)) ==> WellTyped(e.lhs, TypesOf(frame)) && WellTyped(e.rhs, TypesOf(frame))
    ensures TypeOf(e) == TypeOf(e.rhs) && Assigned(e) == Assigned(e.lhs) + Assigned(e.rhs)
    ensures Eval(e, env) == match Eval(e.lhs, env)
                            case DivideError => DivideError
                            case Value(_, env1) => Eval(e.rhs, env1)
  {
  }

  lemma SimulateComma(prog: Code, frame: Frame, e: Expr, off: int, tag: nat, p: nat, s: Cpu, env: Env)
    returns (n: nat)
    requires e.Comma?
    requires Ready(prog, frame, e, off, tag, p, env, s.mem)
    ensures Ends(Run(prog, Running(p, s), n), p + |Compile(e, frame, off, tag).code|,
                 TypeOf(e), Eval(e, env), frame, Assigned(e), off, s.mem)
    decreases e, 0
  {
    hide Run, Compile, Eval, Assigned, WellTyped, TypeOf, Agrees, Kept, CodeAt, UniqueLabels, FrameOk;
    CommaParts(e, frame, off, tag, env);
    var a := Compile(e.lhs, frame, off, tag);
    var b := Compile(e.rhs, frame, off, a.tag);
    CodeAtSplit(prog, p, a.code, b.code);
    n := Simulate(prog, frame, e.lhs, off, tag, p, s, env);
    if Eval(e.lhs, env).Value? {
      var env1 := Eval(e.lhs, env).env;
      var mid := Run(prog, Running(p, s), n);
      var k := Simulate(prog, frame, e.rhs, off, a.tag, p + |a.code|, mid.cpu, env1);
      Join(prog, frame, Running(p, s), n, k, p + |a.code|, p + |a.code| + |b.code|, TypeOf(e.lhs), Eval(e.lhs, env).v,
           env1, TypeOf(e.rhs), Eval(e.rhs, env1), Assigned(e.lhs), Assigned(e.rhs), off, s.mem);
      n := n + k;
    }
  }

  /** The value is in the accumulator; the store into the variable follows. */
  lemma StoreStep(prog: Code, frame: Frame, start: State, k: nat, p: nat, off: int, env: Env, x: Name, v: int,
                  written: set<Name>, m: Mem)
    returns (n: nat)
    requires FrameOk(frame, off) && x in frame && CodeAt(prog, p, [StoreSlot(frame[x].ty, Rax, frame[x].off)])
    requires Ends(Run(prog, start, k), p, frame[x].ty, Value(v, env), frame, written, off, m)
    ensures Ends(Run(prog, start, n), p + 1, frame[x].ty, Value(v, env[x := v]), frame, written + {x}, off, m)
  {
    hide Run; hide ExecAll;
    var store := StoreSlot(frame[x].ty, Rax, frame[x].off);
    var mid := Run(prog, start, k).cpu;
    n := Continue(prog, start, k, [store]);
    ExecOne(store, mid);
    StoreLocal(frame, off, env, mid.mem, x, mid.rax);
    KeptTrans(frame, written, {x}, off, m, mid.mem, Run(prog, start, n).cpu.mem);
  }

  lemma SimulateAssign(prog: Code, frame: Frame, e: Expr, off: int, tag: nat, p: nat, s: Cpu, env: Env)
    returns (n: nat)
    requires e.Assign?
    requires Ready(prog, frame, e, off, tag, p, env, s.mem)
    ensures Ends(Run(prog, Running(p, s), n), p + |Compile(e, frame, off, tag).code|,
                 TypeOf(e), Eval(e, env), frame, Assigned(e), off, s.mem)
    decreases e, 0
  {
    hide Run; hide Agrees; hide FrameOk;
    var a := Compile(e.rhs, frame, off, tag);
    CodeAtSplit(prog, p, a.code, [StoreSlot(e.dty, Rax, frame[e.dst].off)]);
    n := Simulate(prog, frame, e.rhs, off, tag, p, s, env);
    if Eval(e.rhs, env).Value? {
      n := StoreStep(prog, frame, Running(p, s), n, p + |a.code|, off, Eval(e.rhs, env).env, e.dst,
                     Eval(e.rhs, env).v, Assigned(e.rhs), s.mem);
    }
  }

  lemma SimulateIncDec(prog: Code, frame: Frame, ty: Ty, x: Name, inc: bool, post: bool, off: int, p: nat,
                       s: Cpu, env: Env)
    returns (n: nat)
    requires Ready(prog, frame, IncDec(ty, x, inc, post), off, 0, p, env, s.mem)
    ensures Ends(Run(prog, Running(p, s), n), p + |IncDecCode(ty, frame[x].off, inc, post)|, ty,
                 Eval(IncDec(ty, x, inc, post), env), frame, {x}, off, s.mem)
  {
    hide Run, ExecAll, Load, Store, ToSigned, Kept, FrameOk, CodeAt, UniqueLabels, AluResult, IncDecCode;
    var o := frame[x].off;
    var c := IncDecCode(ty, o, inc, post);
    IncDecBlock(ty, o, inc, post, s);
    n := SimulateStraight(prog, c, p, s);
    var w := AluResult(if inc then AluAdd else AluSub, ty, Load(s.mem, o, Bytes(ty)), 1);
    StoreLocal(frame, off, env, s.mem, x, w);
    StepSigned(ty, Load(s.mem, o, Bytes(ty)), inc);
  }

  lemma StepSigned(ty: Ty, w: int, inc: bool)
    ensures ToSigned(ty, AluResult(if inc then AluAdd else AluSub, ty, w, 1))
         == ToSigned(ty, if inc then ToSigned(ty, w) + 1 else ToSigned(ty, w) - 1)
  {
    SumSigned(ty, w, 1, if inc then 1 else -1);
  }

  /** One is added in the accumulator and the sum stored. */
  lemma AddStored(ty: Ty, o: int, inc: bool, t: Cpu)
    ensures var add, store := AluImm(if inc then AluAdd else AluSub, ty, 1, Rax), StoreSlot(ty, Rax, o);
            var w := AluResult(if inc then AluAdd else AluSub, ty, t.rax, 1);
            var r := ExecAll([add, store], t);
            && Straight([add, store]) && r.Done?
            && r.cpu.mem == Store(t.mem, o, Bytes(ty), w) && r.cpu.rax == w && r.cpu.r11 == t.r11
  {
    hide ExecAll, Store, AluResult, AluFlags;
    ExecTwo(AluImm(if inc then AluAdd else AluSub, ty, 1, Rax), StoreSlot(ty, Rax, o), t);
  }

  /** The old value is loaded and, for a postfix operator, kept aside. */
  lemma LoadSaved(ty: Ty, o: int, s: Cpu)
    ensures var load, save := LoadSlot(ty, o, Rax), MovReg(Long, Rax, R11);
            var r, q := ExecAll([load, save], s), ExecAll([load], s);
            && Straight([load]) && Straight([load, save]) && r.Done? && q.Done?
            && r.cpu.mem == s.mem && r.cpu.rax == Load(s.mem, o, Bytes(ty)) && r.cpu.r11 == r.cpu.rax
            && q.cpu.mem == s.mem && q.cpu.rax == Load(s.mem, o, Bytes(ty))
  {
    hide ExecAll, Load;
    LoadBound(s.mem, o, ty);
    ExecTwo(LoadSlot(ty, o, Rax), MovReg(Long, Rax, R11), s);
    ExecOne(LoadSlot(ty, o, Rax), s);
  }

  lemma TakenBack(t: Cpu)
    ensures var r := ExecAll([MovReg(Long, R11, Rax)], t);
            Straight([MovReg(Long, R11, Rax)]) && r.Done? && r.cpu.mem == t.mem && r.cpu.rax == t.r11
  {
    ExecOne(MovReg(Long, R11, Rax), t);
  }

  lemma IncDecBlock(ty: Ty, o: int, inc: bool, post: bool, s: Cpu)
    ensures var c := IncDecCode(ty, o, inc, post);
            Straight(c) &&
            var r := ExecAll(c, s);
            var before := Load(s.mem, o, Bytes(ty));
            var w := AluResult(if inc then AluAdd else AluSub, ty, before, 1);
            r.Done? && r.cpu.mem == Store(s.mem, o, Bytes(ty), w) && r.cpu.rax == if post then before else w
  {
    hide ExecAll, Exec, Store, Load, AluResult;
    var load, save, back := LoadSlot(ty, o, Rax), MovReg(Long, Rax, R11), MovReg(Long, R11, Rax);
    var add, store := AluImm(if inc then AluAdd else AluSub, ty, 1, Rax), StoreSlot(ty, Rax, o);
    LoadSaved(ty, o, s);
    if post {
      assert IncDecCode(ty, o, inc, post) == [load, save] + ([add, store] + [back]);
      var s1 := ExecAll([load, save], s).cpu;
      AddStored(ty, o, inc, s1);
      TakenBack(ExecAll([add, store], s1).cpu);
      ExecAllAppend([add, store], [back], s1);
      ExecAllAppend([load, save], [add, store] + [back], s);
    } else {
      assert IncDecCode(ty, o, inc, post) == [load] + [add, store];
      AddStored(ty, o, inc, ExecAll([load], s).cpu);
      ExecAllAppend([load], [add, store], s);
    }
  }

  // ---------- jumps ----------

  lemma RunOne(prog: Code, p: nat, s: Cpu)
    requires p < |prog|
    ensures Run(prog, Running(p, s), 1) == Step(prog, p, s)
  {
    assert Run(prog, Step(prog, p, s), 0) == Step(prog, p, s);
  }

  /** Compare with zero, then jump if equal (or if different). */
  lemma TestAndJump(prog: Code, p: nat, ty: Ty, jump: Instr, s: Cpu, v: int)
    requires jump.Je? || jump.Jne?
    requires CodeAt(prog, p, [CmpImm(ty, 0, Rax), jump]) && Holds(ty, s.rax, v)
    ensures Run(prog, Running(p, s), 2)
         == Running(if (v == 0) == jump.Je? then Target(prog, jump.target) else p + 2,
                    s.(flags := CompareFlags(ty, s.rax, 0)))
  {
    var c := [CmpImm(ty, 0, Rax), jump];
    assert prog[p] == prog[p..p + 2][0] == c[0];
    assert prog[p + 1] == prog[p..p + 2][1] == c[1];
    CompareZero(ty, s.rax, v);
    var s1 := s.(flags := CompareFlags(ty, s.rax, 0));
    RunOne(prog, p, s);
    RunOne(prog, p + 1, s1);
    RunAdd(prog, Running(p, s), 1, 1);
  }

  lemma InstrAt(prog: Code, p: nat, c: Code, i: nat)
    requires CodeAt(prog, p, c) && i < |c|
    ensures p + i < |prog| && prog[p + i] == c[i]
  {
    assert prog[p + i] == prog[p..p + |c|][i];
  }

  // ---------- && and || ----------

  /** The jump instruction of the short-circuit operator, and the value it short-circuits to. */
  function ShortJump(isAnd: bool, l: Label): Instr {
    if isAnd then Je(l) else Jne(l)
  }

  function TestCode(ty: Ty, jump: Instr): Code {
    [CmpImm(ty, 0, Rax), jump]
  }

  function ZeroRax(): Instr {
    Alu(AluBits(BitXor), Long, Rax, Rax)
  }

  /** The tail of `&&` and `||`: the value when no jump was taken, then the value when one was. */
  function LogicTail(isAnd: bool, short: Label, end: Label): Code {
    if isAnd then [MovImm(Long, 1, Rax), Jmp(end), LabelDef(short), ZeroRax(), LabelDef(end)]
    else [ZeroRax(), Jmp(end), LabelDef(short), MovImm(Long, 1, Rax), LabelDef(end)]
  }

  lemma SetTruth(isOne: bool, s: Cpu)
    ensures var i := if isOne then MovImm(Long, 1, Rax) else ZeroRax();
            var r := Exec(i, s);
            r.Done? && r.cpu.mem == s.mem && r.cpu.rax == Truth(isOne)
  {
    hide Bitwise; hide AluFlags;
    if !isOne { XorSelf(64, s.rax); }
  }

  /** Falling into the tail. */
  lemma TailFallsThrough(prog: Code, p: nat, isAnd: bool, short: Label, end: Label, s: Cpu)
    requires UniqueLabels(prog) && CodeAt(prog, p, LogicTail(isAnd, short, end))
    ensures var st := Run(prog, Running(p, s), 3);
            st.Running? && st.pc == p + 5 && st.cpu.mem == s.mem && st.cpu.rax == Truth(isAnd)
  {
    hide Exec;
    var c := LogicTail(isAnd, short, end);
    InstrAt(prog, p, c, 0);
    InstrAt(prog, p, c, 1);
    InstrAt(prog, p, c, 4);
    SetTruth(isAnd, s);
    TargetIs(prog, end, p + 4);
    var s1 := Exec(c[0], s).cpu;
    assert Step(prog, p, s) == Running(p + 1, s1);
    assert Step(prog, p + 1, s1) == Running(p + 4, s1);
    assert Step(prog, p + 4, s1) == Running(p + 5, s1);
    ThreeSteps(prog, Running(p, s), Running(p + 1, s1), Running(p + 4, s1));
  }

  lemma ThreeSteps(prog: Code, a: State, b: State, c: State)
    requires a.Running? && a.pc < |prog| && Step(prog, a.pc, a.cpu) == b
    requires b.Running? && b.pc < |prog| && Step(prog, b.pc, b.cpu) == c
    requires c.Running? && c.pc < |prog|
    ensures Run(prog, a, 3) == Step(prog, c.pc, c.cpu)
  {
    hide Step;
    assert Run(prog, a, 3) == Run(prog, b, 2) == Run(prog, c, 1);
    RunOne(prog, c.pc, c.cpu);
  }

  /** Jumping into the tail. */
  lemma TailJumpedTo(prog: Code, p: nat, isAnd: bool, short: Label, end: Label, s: Cpu)
    requires UniqueLabels(prog) && CodeAt(prog, p, LogicTail(isAnd, short, end))
    ensures Target(prog, short) == p + 2
    ensures var st := Run(prog, Running(p + 2, s), 3);
            st.Running? && st.pc == p + 5 && st.cpu.mem == s.mem && st.cpu.rax == Truth(!isAnd)
  {
    hide Exec;
    var c := LogicTail(isAnd, short, end);
    InstrAt(prog, p, c, 2);
    InstrAt(prog, p, c, 3);
    InstrAt(prog, p, c, 4);
    TargetIs(prog, short, p + 2);
    SetTruth(!isAnd, s);
    var s1 := Exec(c[3], s).cpu;
    assert Step(prog, p + 2, s) == Running(p + 3, s);
    assert Step(prog, p + 3, s) == Running(p + 4, s1);
    assert Step(prog, p + 4, s1) == Running(p + 5, s1);
    ThreeSteps(prog, Running(p + 2, s), Running(p + 3, s), Running(p + 4, s1));
  }

  /** An operand of a short-circuit operator has been computed; the test and, if it jumps, the tail run. */
  lemma ShortCircuit(prog: Code, frame: Frame, start: State, k: nat, p: nat, q: nat, isAnd: bool, ty: Ty,
                     short: Label, end: Label, v: int, env: Env, written: set<Name>, off: int, m: Mem)
    returns (n: nat)
    requires UniqueLabels(prog)
    requires CodeAt(prog, p, TestCode(ty, ShortJump(isAnd, short))) && CodeAt(prog, q, LogicTail(isAnd, short, end))
    requires Ends(Run(prog, start, k), p, ty, Value(v, env), frame, written, off, m)
    ensures (v == 0) == isAnd ==>
              Ends(Run(prog, start, n), q + 5, Int, Value(Truth(!isAnd), env), frame, written, off, m)
    ensures (v == 0) != isAnd ==>
              Ends(Run(prog, start, n), p + 2, ty, Value(v, env), frame, written, off, m)
  {
    hide Run, Exec;
    var s := Run(prog, start, k).cpu;
    TestAndJump(prog, p, ty, ShortJump(isAnd, short), s, v);
    var s1 := s.(flags := CompareFlags(ty, s.rax, 0));
    RunAdd(prog, start, k, 2);
    n := k + 2;
    if (v == 0) == isAnd {
      TailJumpedTo(prog, q, isAnd, short, end, s1);
      RunAdd(prog, start, k + 2, 3);
      n := k + 5;
      SmallHolds(Run(prog, start, n).cpu.rax);
    }
  }

  lemma SmallHolds(w: Word)
    requires w < 2
    ensures Holds(Int, w, w)
  {
  }

  /** The second operand did not jump: the tail is entered from above. */
  lemma FallThrough(prog: Code, frame: Frame, start: State, k: nat, q: nat, isAnd: bool, ty: Ty, v: int,
                    short: Label, end: Label, env: Env, written: set<Name>, off: int, m: Mem)
    returns (n: nat)
    requires UniqueLabels(prog) && CodeAt(prog, q, LogicTail(isAnd, short, end))
    requires Ends(Run(prog, start, k), q, ty, Value(v, env), frame, written, off, m)
    ensures Ends(Run(prog, start, n), q + 5, Int, Value(Truth(isAnd), env), frame, written, off, m)
  {
    hide Run, Exec;
    TailFallsThrough(prog, q, isAnd, short, end, Run(prog, start, k).cpu);
    RunAdd(prog, start, k, 3);
    n := k + 3;
    SmallHolds(Run(prog, start, n).cpu.rax);
  }

  lemma FiveParts(prog: Code, p: nat, a: Code, b: Code, c: Code, d: Code, e: Code)
    requires CodeAt(prog, p, a + b + c + d + e)
    ensures CodeAt(prog, p, a) && CodeAt(prog, p + |a|, b) && CodeAt(prog, p + |a| + |b|, c)
    ensures CodeAt(prog, p + |a| + |b| + |c|, d) && CodeAt(prog, p + |a| + |b| + |c| + |d|, e)
  {
    CodeAtSplit(prog, p, a + b + c + d, e);
    CodeAtSplit(prog, p, a + b + c, d);
    CodeAtSplit(prog, p, a + b, c);
    CodeAtSplit(prog, p, a, b);
  }

  lemma LogicMeans(e: Expr, env: Env)
    requires e.LogAnd? || e.LogOr?
    ensures TypeOf(e) == Int && Assigned(e) == Assigned(e.lhs) + Assigned(e.rhs)
    ensures Eval(e.lhs, env).DivideError? ==> Eval(e, env) == DivideError
    ensures Eval(e.lhs, env).Value? ==>
              var va, env1 := Eval(e.lhs, env).v, Eval(e.lhs, env).env;
              if (va == 0) == e.LogAnd? then Eval(e, env) == Value(Truth(!e.LogAnd?), env1)
              else if Eval(e.rhs, env1).DivideError? then Eval(e, env) == DivideError
              else Eval(e, env) == Value(Truth(Eval(e.rhs, env1).v != 0), Eval(e.rhs, env1).env)
  {
  }

  lemma LogicCode(e: Expr, frame: Frame, off: int, tag: nat)
    requires e.LogAnd? || e.LogOr?
    ensures var a := Compile(e.lhs, frame, off, tag);
            var b := Compile(e.rhs, frame, off, a.tag + 1);
            Compile(e, frame, off, tag).code
            == a.code + TestCode(TypeOf(e.lhs), ShortJump(e.LogAnd?, a.tag + 1))
               + b.code + TestCode(TypeOf(e.rhs), ShortJump(e.LogAnd?, a.tag + 1))
                   + LogicTail(e.LogAnd?, a.tag + 1, b.tag + 1)
            && Compile(e, frame, off, tag).tag == b.tag + 1
  {
  }

  lemma SimulateLogic(prog: Code, frame: Frame, e: Expr, off: int, tag: nat, p: nat, s: Cpu, env: Env)
    returns (n: nat)
    requires e.LogAnd? || e.LogOr?
    requires Ready(prog, frame, e, off, tag, p, env, s.mem)
    ensures Ends(Run(prog, Running(p, s), n), p + |Compile(e, frame, off, tag).code|,
                 TypeOf(e), Eval(e, env), frame, Assigned(e), off, s.mem)
    decreases e, 1
  {
    hide Run, Exec, Kept, Agrees, CodeAt, UniqueLabels, ToSigned;
    hide Eval, Compile, Assigned, TypeOf, FrameOk;
    LogicMeans(e, env);
    LogicCode(e, frame, off, tag);
    var l, r, isAnd := e.lhs, e.rhs, e.LogAnd?;
    var a := Compile(l, frame, off, tag);
    var short := a.tag + 1;
    var b := Compile(r, frame, off, short);
    var end := b.tag + 1;
    var test1, test2 := TestCode(TypeOf(l), ShortJump(isAnd, short)), TestCode(TypeOf(r), ShortJump(isAnd, short));
    var tail := LogicTail(isAnd, short, end);
    FiveParts(prog, p, a.code, test1, b.code, test2, tail);
    var start := Running(p, s);
    var p1 := p + |a.code|;
    var p2 := p1 + 2 + |b.code|;
    n := Simulate(prog, frame, l, off, tag, p, s, env);
    if Eval(l, env).Value? {
      var va, env1 := Eval(l, env).v, Eval(l, env).env;
      n := ShortCircuit(prog, frame, start, n, p1, p2 + 2, isAnd, TypeOf(l), short, end, va, env1, Assigned(l), off,
          s.mem);
      if (va == 0) == isAnd {
        Widen(Run(prog, start, n), p2 + 7, Int, Value(Truth(!isAnd), env1), frame, Assigned(l), Assigned(r), off,
            s.mem);
      } else {
        n := SecondOperand(prog, frame, e, off, start, n, p1 + 2, va, env, env1, Assigned(l), s.mem, short, end);
      }
    }
  }

  /** The part of `&&` and `||` after a first operand that does not decide. */
  lemma SecondOperand(prog: Code, frame: Frame, e: Expr, off: int, start: State, k: nat, p: nat, va: int,
                      env: Env, env1: Env, w: set<Name>, m: Mem, short: Label, end: Label)
    returns (n: nat)
    requires e.LogAnd? || e.LogOr?
    requires UniqueLabels(prog) && FrameOk(frame, off) && WellTyped(e.rhs, TypesOf(frame))
    requires var b := Compile(e.rhs, frame, off, short).code;
             && CodeAt(prog, p, b)
             && CodeAt(prog, p + |b|, TestCode(TypeOf(e.rhs), ShortJump(e.LogAnd?, short)))
             && CodeAt(prog, p + |b| + 2, LogicTail(e.LogAnd?, short, end))
    requires Ends(Run(prog, start, k), p, TypeOf(e.lhs), Value(va, env1), frame, w, off, m)
    ensures var q := p + |Compile(e.rhs, frame, off, short).code| + 7;
            match Eval(e.rhs, env1)
            case DivideError => Run(prog, start, n) == Trapped
            case Value(vb, env2) =>
              Ends(Run(prog, start, n), q, Int, Value(Truth(vb != 0), env2), frame, w + Assigned(e.rhs), off, m)
    decreases e, 0
  {
    hide Run; hide Exec; hide Kept; hide CodeAt; hide ToSigned; hide FrameOk;
    var r := e.rhs;
    var b := Compile(r, frame, off, short).code;
    var mid := Run(prog, start, k);
    var j := Simulate(prog, frame, r, off, short, p, mid.cpu, env1);
    Join(prog, frame, start, k, j, p, p + |b|, TypeOf(e.lhs), va, env1, TypeOf(r), Eval(r, env1),
         w, Assigned(r), off, m);
    n := k + j;
    if Eval(r, env1).Value? {
      var vb, env2 := Eval(r, env1).v, Eval(r, env1).env;
      n := ShortCircuit(prog, frame, start, n, p + |b|, p + |b| + 2, e.LogAnd?, TypeOf(r), short, end, vb, env2,
                        w + Assigned(r), off, m);
      if (vb == 0) != e.LogAnd? {
        n := FallThrough(prog, frame, start, n, p + |b| + 2, e.LogAnd?, TypeOf(r), vb, short, end, env2,
                         w + Assigned(r), off, m);
      }
    }
  }

  /** A run that writes less also ends like one that may write more. */
  lemma Widen(st: State, q: nat, ty: Ty, r: Result, frame: Frame, w1: set<Name>, w2: set<Name>, off: int, m: Mem)
    requires Ends(st, q, ty, r, frame, w1, off, m)
    ensures Ends(st, q, ty, r, frame, w1 + w2, off, m)
  {
  }

  // ---------- ?: ----------

  /** A condition has been computed and is tested: where the run goes on, with what it had. */
  lemma Branch(prog: Code, frame: Frame, start: State, k: nat, p: nat, ty: Ty, target: Label, v: int, env: Env,
               written: set<Name>, off: int, m: Mem)
    returns (n: nat)
    requires CodeAt(prog, p, TestCode(ty, Je(target)))
    requires Ends(Run(prog, start, k), p, ty, Value(v, env), frame, written, off, m)
    ensures var q := if v == 0 then Target(prog, target) else p + 2;
            n == k + 2 && Ends(Run(prog, start, n), q, ty, Value(v, env), frame, written, off, m)
  {
    hide Run, Exec;
    TestAndJump(prog, p, ty, Je(target), Run(prog, start, k).cpu, v);
    RunAdd(prog, start, k, 2);
    n := k + 2;
  }

  /** A control instruction that only moves the run to `q`. */
  lemma Move(prog: Code, frame: Frame, start: State, k: nat, p: nat, q: nat, ty: Ty, v: int, env: Env,
             written: set<Name>, off: int, m: Mem)
    requires p < |prog| && ((prog[p].Jmp? && q == Target(prog, prog[p].target)) || (prog[p].LabelDef? && q == p + 1))
    requires Ends(Run(prog, start, k), p, ty, Value(v, env), frame, written, off, m)
    ensures Ends(Run(prog, start, k + 1), q, ty, Value(v, env), frame, written, off, m)
  {
    hide Run;
    RunOne(prog, p, Run(prog, start, k).cpu);
    RunAdd(prog, start, k, 1);
  }

  lemma ChoiceParts(prog: Code, p: nat, a: Code, test: Code, b: Code, d: Code, elseLabel: Label, endLabel: Label)
    requires UniqueLabels(prog)
    requires CodeAt(prog, p, a + test + b + [Jmp(endLabel), LabelDef(elseLabel)] + d + [LabelDef(endLabel)])
    ensures CodeAt(prog, p, a) && CodeAt(prog, p + |a|, test) && CodeAt(prog, p + |a| + |test|, b)
    ensures var ps := p + |a| + |test| + |b|;
            var pl := ps + 2 + |d|;
            && pl < |prog| && prog[ps] == Jmp(endLabel) && prog[ps + 1] == LabelDef(elseLabel)
            && CodeAt(prog, ps + 2, d) && prog[pl] == LabelDef(endLabel)
            && Target(prog, elseLabel) == ps + 1 && Target(prog, endLabel) == pl
  {
    var skip, last := [Jmp(endLabel), LabelDef(elseLabel)], [LabelDef(endLabel)];
    var ps := p + |a| + |test| + |b|;
    CodeAtSplit(prog, p, a + test + b + skip + d, last);
    FiveParts(prog, p, a, test, b, skip, d);
    InstrAt(prog, ps, skip, 0);
    InstrAt(prog, ps, skip, 1);
    InstrAt(prog, ps + 2 + |d|, last, 0);
    TargetIs(prog, elseLabel, ps + 1);
    TargetIs(prog, endLabel, ps + 2 + |d|);
  }

  lemma ChoiceMeans(e: Expr, env: Env)
    requires e.Choice?
    ensures TypeOf(e) == TypeOf(e.whenTrue)
    ensures Assigned(e) == Assigned(e.cond) + Assigned(e.whenTrue) + Assigned(e.whenFalse)
    ensures Eval(e.cond, env).DivideError? ==> Eval(e, env) == DivideError
    ensures Eval(e.cond, env).Value? ==>
              var v, env1 := Eval(e.cond, env).v, Eval(e.cond, env).env;
              Eval(e, env) == if v != 0 then Eval(e.whenTrue, env1) else Eval(e.whenFalse, env1)
  {
  }

  lemma ChoiceTyped(e: Expr, types: Types)
    requires e.Choice? && WellTyped(e, types)
    ensures WellTyped(e.cond, types) && WellTyped(e.whenTrue, types) && WellTyped(e.whenFalse, types)
    ensures TypeOf(e.whenTrue) == TypeOf(e.whenFalse)
  {
  }

  lemma ChoiceCode(e: Expr, frame: Frame, off: int, tag: nat)
    requires e.Choice?
    ensures var a := Compile(e.cond, frame, off, tag);
            var elseLabel, endLabel := a.tag + 1, a.tag + 2;
            var b := Compile(e.whenTrue, frame, off, endLabel);
            var d := Compile(e.whenFalse, frame, off, b.tag);
            Compile(e, frame, off, tag).code
            == a.code + TestCode(TypeOf(e.cond), Je(elseLabel)) + b.code + [Jmp(endLabel), LabelDef(elseLabel)] + d.code
               + [LabelDef(endLabel)]
            && |Compile(e, frame, off, tag).code| == |a.code| + 2 + |b.code| + 2 + |d.code| + 1
  {
  }

  lemma TrueArm(prog: Code, frame: Frame, e: Expr, off: int, tag: nat, start: State, k: nat, p: nat, end: Label,
                cty: Ty, v: int, env1: Env, w: set<Name>, m: Mem)
    returns (n: nat)
    requires e.Choice? && UniqueLabels(prog) && FrameOk(frame, off) && WellTyped(e.whenTrue, TypesOf(frame))
    requires CodeAt(prog, p, Compile(e.whenTrue, frame, off, tag).code)
    requires var q := p + |Compile(e.whenTrue, frame, off, tag).code|;
             && q < |prog| && prog[q] == Jmp(end) && Target(prog, end) < |prog|
                && prog[Target(prog, end)] == LabelDef(end)
    requires Ends(Run(prog, start, k), p, cty, Value(v, env1), frame, w, off, m)
    ensures Ends(Run(prog, start, n), Target(prog, end) + 1, TypeOf(e.whenTrue), Eval(e.whenTrue, env1), frame,
                 w + Assigned(e.whenTrue) + Assigned(e.whenFalse), off, m)
    decreases e, 0
  {
    hide Run, Exec, Kept, Agrees, CodeAt, UniqueLabels, ToSigned, Target, Eval, Compile, Assigned, TypeOf, FrameOk,
         WellTyped, Ends;
    var t := e.whenTrue;
    var q, l := p + |Compile(t, frame, off, tag).code|, Target(prog, end);
    var w1 := w + Assigned(t);
    n := Arm(prog, frame, t, off, tag, start, k, p, cty, v, env1, w, m);
    n := MoveMore(prog, frame, start, n, q, l, TypeOf(t), Eval(t, env1), w1, off, m);
    n := MoveMore(prog, frame, start, n, l, l + 1, TypeOf(t), Eval(t, env1), w1, off, m);
    Widen(Run(prog, start, n), l + 1, TypeOf(t), Eval(t, env1), frame, w1, Assigned(e.whenFalse), off, m);
  }

  lemma FalseArm(prog: Code, frame: Frame, e: Expr, off: int, tag: nat, start: State, k: nat, p: nat,
                 cty: Ty, v: int, env1: Env, w: set<Name>, m: Mem)
    returns (n: nat)
    requires e.Choice? && UniqueLabels(prog) && FrameOk(frame, off) && WellTyped(e.whenFalse, TypesOf(frame))
    requires CodeAt(prog, p, Compile(e.whenFalse, frame, off, tag).code)
    requires var q := p + |Compile(e.whenFalse, frame, off, tag).code|; q < |prog| && prog[q].LabelDef?
    requires Ends(Run(prog, start, k), p, cty, Value(v, env1), frame, w, off, m)
    ensures Ends(Run(prog, start, n), p + |Compile(e.whenFalse, frame, off, tag).code| + 1, TypeOf(e.whenFalse),
                 Eval(e.whenFalse, env1), frame, w + Assigned(e.whenTrue) + Assigned(e.whenFalse), off, m)
    decreases e, 0
  {
    hide Run, Exec, Kept, Agrees, CodeAt, UniqueLabels, ToSigned, Target, Eval, Compile, Assigned, TypeOf, FrameOk,
         WellTyped, Ends;
    var f := e.whenFalse;
    var q := p + |Compile(f, frame, off, tag).code|;
    n := Arm(prog, frame, f, off, tag, start, k, p, cty, v, env1, w, m);
    n := MoveMore(prog, frame, start, n, q, q + 1, TypeOf(f), Eval(f, env1), w + Assigned(f), off, m);
    Widen(Run(prog, start, n), q + 1, TypeOf(f), Eval(f, env1), frame, w + Assigned(f), Assigned(e.whenTrue), off, m);
    assert w + Assigned(f) + Assigned(e.whenTrue) == w + Assigned(e.whenTrue) + Assigned(f);
  }

  lemma FaultEnds(st: State, q: nat, ty: Ty, q': nat, ty': Ty, frame: Frame, w: set<Name>, w': set<Name>, off: int,
      m: Mem)
    requires Ends(st, q, ty, DivideError, frame, w, off, m)
    ensures Ends(st, q', ty', DivideError, frame, w', off, m)
  {
  }

  lemma SimulateChoice(prog: Code, frame: Frame, e: Expr, off: int, tag: nat, p: nat, s: Cpu, env: Env)
    returns (n: nat)
    requires e.Choice?
    requires Ready(prog, frame, e, off, tag, p, env, s.mem)
    ensures Ends(Run(prog, Running(p, s), n), p + |Compile(e, frame, off, tag).code|,
                 TypeOf(e), Eval(e, env), frame, Assigned(e), off, s.mem)
    decreases e, 1
  {
    hide Run, Exec, Kept, Agrees, CodeAt, UniqueLabels, ToSigned, Target;
    hide Eval, Compile, Assigned, TypeOf, FrameOk, WellTyped, Ends;
    ChoiceMeans(e, env);
    ChoiceTyped(e, TypesOf(frame));
    ChoiceCode(e, frame, off, tag);
    var c, t, f := e.cond, e.whenTrue, e.whenFalse;
    var a := Compile(c, frame, off, tag);
    var elseLabel, endLabel := a.tag + 1, a.tag + 2;
    var b := Compile(t, frame, off, endLabel);
    var d := Compile(f, frame, off, b.tag);
    var test := TestCode(TypeOf(c), Je(elseLabel));
    var start := Running(p, s);
    var p1 := p + |a.code|;
    var pb := p1 + 2;
    var ps := pb + |b.code|;
    var pd := ps + 2;
    var pl := pd + |d.code|;
    ChoiceParts(prog, p, a.code, test, b.code, d.code, elseLabel, endLabel);
    n := Simulate(prog, frame, c, off, tag, p, s, env);
    if Eval(c, env).Value? {
      var v, env1 := Eval(c, env).v, Eval(c, env).env;
      var w := Assigned(c);
      n := Branch(prog, frame, start, n, p1, TypeOf(c), elseLabel, v, env1, w, off, s.mem);
      if v != 0 {
        n := TrueArm(prog, frame, e, off, endLabel, start, n, pb, endLabel, TypeOf(c), v, env1, w, s.mem);
      } else {
        Move(prog, frame, start, n, ps + 1, pd, TypeOf(c), v, env1, w, off, s.mem);
        n := FalseArm(prog, frame, e, off, b.tag, start, n + 1, pd, TypeOf(c), v, env1, w, s.mem);
      }
    } else {
      FaultEnds(Run(prog, start, n), p1, TypeOf(c), pl + 1, TypeOf(e), frame, Assigned(c), Assigned(e), off, s.mem);
    }
  }

  lemma MoveMore(prog: Code, frame: Frame, start: State, k: nat, p: nat, q: nat, ty: Ty, r: Result,
                 written: set<Name>, off: int, m: Mem)
    returns (n: nat)
    requires p < |prog| && ((prog[p].Jmp? && q == Target(prog, prog[p].target)) || (prog[p].LabelDef? && q == p + 1))
    requires Ends(Run(prog, start, k), p, ty, r, frame, written, off, m)
    ensures Ends(Run(prog, start, n), q, ty, r, frame, written, off, m)
  {
    hide Run; hide Kept; hide Agrees; hide ToSigned;
    n := k;
    if r.Value? {
      Move(prog, frame, start, k, p, q, ty, r.v, r.env, written, off, m);
      n := k + 1;
    }
  }

  /** One arm of a conditional, entered at `p`. */
  lemma Arm(prog: Code, frame: Frame, x: Expr, off: int, tag: nat, start: State, k: nat, p: nat,
            cty: Ty, v: int, env1: Env, w: set<Name>, m: Mem)
    returns (n: nat)
    requires UniqueLabels(prog) && FrameOk(frame, off) && WellTyped(x, TypesOf(frame))
    requires CodeAt(prog, p, Compile(x, frame, off, tag).code)
    requires Ends(Run(prog, start, k), p, cty, Value(v, env1), frame, w, off, m)
    ensures Ends(Run(prog, start, n), p + |Compile(x, frame, off, tag).code|, TypeOf(x), Eval(x, env1), frame,
                 w + Assigned(x), off, m)
    decreases x, 4
  {
    hide Run, Compile, Eval, Assigned, WellTyped, TypeOf, Agrees, Kept, CodeAt, UniqueLabels, FrameOk;
    var j := Simulate(prog, frame, x, off, tag, p, Run(prog, start, k).cpu, env1);
    Join(prog, frame, start, k, j, p, p + |Compile(x, frame, off, tag).code|, cty, v, env1, TypeOf(x), Eval(x, env1),
         w, Assigned(x), off, m);
    n := k + j;
  }

  /** The compiler is correct for expressions: from any machine whose memory agrees with the variables, the
      emitted code reaches its end with the value in the accumulator, the variables updated as the meaning
      says and no other byte at or above `off` changed; or it faults exactly when the meaning divides badly. */
  lemma CompileCorrect(prog: Code, frame: Frame, e: Expr, off: int, tag: nat, p: nat, s: Cpu, env: Env)
    requires Ready(prog, frame, e, off, tag, p, env, s.mem)
    ensures exists n :: Ends(Run(prog, Running(p, s), n), p + |Compile(e, frame, off, tag).code|,
                             TypeOf(e), Eval(e, env), frame, Assigned(e), off, s.mem)
  {
    hide Run, Ends, Ready, Compile, Eval, Assigned, TypeOf;
    var n := Simulate(prog, frame, e, off, tag, p, s, env);
  }
}
