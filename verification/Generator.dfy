/** The code generator as it runs: one pass over the tree that appends instructions, moves the stack offset
    and draws labels. Every method is proved to emit what the specification functions say. */
module GeneratorClass {
  import opened Options
  import opened Words
  import opened Machine
  import opened Expressions
  import opened Statements
  import opened ExprCode
  import L = Lowering
  import opened Backend
  import F = FlatCode

  lemma Append(a: Code, b: Code, c: Code)
    ensures (a + b) + c == a + (b + c)
  {
  }

  lemma AndCompiled(e: Expr, frame: Frame, off: int, tag: nat)
    requires e.LogAnd?
    ensures var a := Compile(e.lhs, frame, off, tag);
            var labelFalse := a.tag + 1;
            var b := Compile(e.rhs, frame, off, labelFalse);
            var labelTrue := b.tag + 1;
            Compile(e, frame, off, tag)
            == Emitted(a.code + [CmpImm(TypeOf(e.lhs), 0, Rax), Je(labelFalse)]
                       + b.code + [CmpImm(TypeOf(e.rhs), 0, Rax), Je(labelFalse)]
                       + [MovImm(Long, 1, Rax), Jmp(labelTrue), LabelDef(labelFalse),
                          Alu(AluBits(BitXor), Long, Rax, Rax), LabelDef(labelTrue)],
                       labelTrue)
  {
    hide RelationCode, IncDecCode, TypeOf;
  }

  lemma OrCompiled(e: Expr, frame: Frame, off: int, tag: nat)
    requires e.LogOr?
    ensures var a := Compile(e.lhs, frame, off, tag);
            var labelTrue := a.tag + 1;
            var b := Compile(e.rhs, frame, off, labelTrue);
            var labelFalse := b.tag + 1;
            Compile(e, frame, off, tag)
            == Emitted(a.code + [CmpImm(TypeOf(e.lhs), 0, Rax), Jne(labelTrue)]
                       + b.code + [CmpImm(TypeOf(e.rhs), 0, Rax), Jne(labelTrue)]
                       + [Alu(AluBits(BitXor), Long, Rax, Rax), Jmp(labelFalse), LabelDef(labelTrue),
                          MovImm(Long, 1, Rax), LabelDef(labelFalse)],
                       labelFalse)
  {
    hide RelationCode, IncDecCode, TypeOf;
  }

  class Generator {
    var offset: int     // the compile-time top of the frame
    var tag: nat        // the last label
    var out: Code
    const frame: Frame
    const labels: map<LabelName, Label>
    const ret: Label

    constructor (frame: Frame, labels: map<LabelName, Label>, ret: Label, offset: int, tag: nat)
      ensures this.frame == frame && this.labels == labels && this.ret == ret
      ensures this.offset == offset && this.tag == tag && out == []
    {
      this.frame := frame;
      this.labels := labels;
      this.ret := ret;
      this.offset := offset;
      this.tag := tag;
      out := [];
    }

    method Emit(i: Instr)
      modifies this`out
      ensures out == old(out) + [i]
    {
      out := out + [i];
    }

    method NewLabel() returns (l: Label)
      modifies this`tag
      ensures l == tag == old(tag) + 1
    {
      tag := tag + 1;
      l := tag;
    }

    method Push(reg: Reg)
      modifies this`offset, this`out
      ensures offset == old(offset) - 8 && out == old(out) + [StoreSlot(Long, reg, old(offset) - 8)]
    {
      offset := offset - 8;
      Emit(StoreSlot(Long, reg, offset));
    }

    method Pop(reg: Reg)
      modifies this`offset, this`out
      ensures offset == old(offset) + 8 && out == old(out) + [LoadSlot(Long, old(offset), reg)]
    {
      Emit(LoadSlot(Long, offset, reg));
      offset := offset + 8;
    }

    method Spill()
      modifies this`offset, this`out
      ensures offset == old(offset) - 8 && out == old(out) + [StoreSlot(Long, Rax, old(offset) - 8)]
    {
      Push(Rax);
    }

    method Restore()
      modifies this`offset, this`out
      ensures offset == old(offset) + 8 && out == old(out) + RestoreCode(old(offset) + 8)
    {
      Emit(MovReg(Long, Rax, R11));
      Pop(Rax);
    }

    method Save()
      modifies this`out
      ensures out == old(out) + [MovReg(Long, Rax, R11)]
    {
      Emit(MovReg(Long, Rax, R11));
    }

    method GenCompZero(ty: Ty)
      modifies this`out
      ensures out == old(out) + [CmpImm(ty, 0, Rax)]
    {
      Emit(CmpImm(ty, 0, Rax));
    }

    method GenCompOp(ty: Ty, set1: Cond)
      modifies this`out
      ensures out == old(out) + [Cmp(ty, R11, Rax), SetAl(set1), ZeroExtendAl(Long)]
    {
      Emit(Cmp(ty, R11, Rax));
      Emit(SetAl(set1));
      Emit(ZeroExtendAl(Long));
    }

    method GenDivOp(ty: Ty, remainder: bool)
      modifies this`out
      ensures out == old(out) + ArithCode(if remainder then Mod else Div, ty)
    {
      Emit(SignExtendRax(ty));
      Emit(Idiv(ty, R11));
      if remainder { Emit(MovReg(Long, Rdx, Rax)); }
    }

    method VisitExpr(e: Expr)
      modifies this`offset, this`tag, this`out
      ensures var r := Compile(e, frame, old(offset), old(tag));
              out == old(out) + r.code && tag == r.tag && offset == old(offset)
      decreases e, 1
    {
      match e
      case Const(ty, v) => Emit(MovImm(ty, v, Rax));
      case Local(ty, x) => Emit(LoadSlot(ty, OffsetOf(frame, x), Rax));
      case Temp => Emit(MovReg(Int, Rcx, Rax));
      case Unary(_, _) => VisitUnaryOp(e);
      case Cast(_, _) => GenCastOp(e);
      case Arith(_, _, _) => VisitBinaryOp(e);
      case Relation(_, _, _) => VisitBinaryOp(e);
      case LogAnd(_, _) => GenAndOp(e);
      case LogOr(_, _) => GenOrOp(e);
      case Comma(_, _) => GenCommaOp(e);
      case Choice(_, _, _) => VisitConditionalOp(e);
      case Assign(_, _, _) => GenAssignOp(e);
      case IncDec(ty, x, inc, post) => GenIncDec(ty, x, inc, post);
    }

    method VisitUnaryOp(e: Expr)
      requires e.Unary?
      modifies this`offset, this`tag, this`out
      ensures var r := Compile(e, frame, old(offset), old(tag));
              out == old(out) + r.code && tag == r.tag && offset == old(offset)
      decreases e, 0
    {
      VisitExpr(e.operand);
      var ty := TypeOf(e.operand);
      match e.uop
      case Plus =>
      case Minus => Emit(Neg(ty, Rax));
      case BitNot => Emit(NotQ(Rax));
      case LogNot =>
        GenCompZero(ty);
        Emit(SetAl(E));
        Emit(ZeroExtendAl(Int));
    }

    method GenCastOp(e: Expr)
      requires e.Cast?
      modifies this`offset, this`tag, this`out
      ensures var r := Compile(e, frame, old(offset), old(tag));
              out == old(out) + r.code && tag == r.tag && offset == old(offset)
      decreases e, 0
    {
      VisitExpr(e.operand);
      if TypeOf(e.operand).Int? && e.to.Long? { Emit(Cltq); }
    }

    method VisitBinaryOp(e: Expr)
      requires e.Arith? || e.Relation?
      modifies this`offset, this`tag, this`out
      ensures var r := Compile(e, frame, old(offset), old(tag));
              out == old(out) + r.code && tag == r.tag && offset == old(offset)
      decreases e, 0
    {
      hide ArithCode, IncDecCode;
      var ty := TypeOf(e.lhs);
      ghost var start := out;
      ghost var a := Compile(e.lhs, frame, offset, tag);
      VisitExpr(e.lhs);
      Spill();
      ghost var b := Compile(e.rhs, frame, offset, tag);
      VisitExpr(e.rhs);
      Restore();
      assert out == start + OperandsCode(a.code, b.code, offset);
      if e.Relation? {
        GenCompOp(ty, CondOf(e.rop));
      } else {
        GenArithOp(e.aop, ty);
      }
    }

    method GenArithOp(op: ArithOp, ty: Ty)
      modifies this`out
      ensures out == old(out) + ArithCode(op, ty)
    {
      match op {
        case Add => Emit(Alu(AluAdd, ty, R11, Rax));
        case Sub => Emit(Alu(AluSub, ty, R11, Rax));
        case Mul => Emit(Imul(ty, R11));
        case Div => GenDivOp(ty, false);
        case Mod => GenDivOp(ty, true);
        case And => Emit(Alu(AluBits(BitAnd), ty, R11, Rax));
        case Or => Emit(Alu(AluBits(BitOr), ty, R11, Rax));
        case Xor => Emit(Alu(AluBits(BitXor), ty, R11, Rax));
        case Shl => Emit(MovReg(Long, R11, Rcx)); Emit(Sal(ty, Rax));
        case Shr => Emit(MovReg(Long, R11, Rcx)); Emit(Sar(ty, Rax));
      }
    }

    method GenCommaOp(e: Expr)
      requires e.Comma?
      modifies this`offset, this`tag, this`out
      ensures var r := Compile(e, frame, old(offset), old(tag));
              out == old(out) + r.code && tag == r.tag && offset == old(offset)
      decreases e, 0
    {
      VisitExpr(e.lhs);
      VisitExpr(e.rhs);
    }

    method GenAndOp(e: Expr)
      requires e.LogAnd?
      modifies this`offset, this`tag, this`out
      ensures var r := Compile(e, frame, old(offset), old(tag));
              out == old(out) + r.code && tag == r.tag && offset == old(offset)
      decreases e, 0
    {
      hide Compile, TypeOf;
      AndCompiled(e, frame, offset, tag);
      ghost var start := out;
      ghost var a := Compile(e.lhs, frame, offset, tag);
      VisitExpr(e.lhs);
      GenCompZero(TypeOf(e.lhs));
      var labelFalse := NewLabel();
      Emit(Je(labelFalse));
      ghost var first := a.code + [CmpImm(TypeOf(e.lhs), 0, Rax), Je(labelFalse)];
      assert out == start + first;
      ghost var b := Compile(e.rhs, frame, offset, tag);
      VisitExpr(e.rhs);
      GenCompZero(TypeOf(e.rhs));
      Emit(Je(labelFalse));
      ghost var second := first + b.code + [CmpImm(TypeOf(e.rhs), 0, Rax), Je(labelFalse)];
      assert out == start + second;
      ghost var middle := out;
      Emit(MovImm(Long, 1, Rax));
      var labelTrue := NewLabel();
      Emit(Jmp(labelTrue));
      Emit(LabelDef(labelFalse));
      Emit(Alu(AluBits(BitXor), Long, Rax, Rax));
      Emit(LabelDef(labelTrue));
      ghost var tail := [MovImm(Long, 1, Rax), Jmp(labelTrue), LabelDef(labelFalse),
                         Alu(AluBits(BitXor), Long, Rax, Rax), LabelDef(labelTrue)];
      assert out == middle + tail;
      Append(start, second, tail);
    }

    method GenOrOp(e: Expr)
      requires e.LogOr?
      modifies this`offset, this`tag, this`out
      ensures var r := Compile(e, frame, old(offset), old(tag));
              out == old(out) + r.code && tag == r.tag && offset == old(offset)
      decreases e, 0
    {
      hide Compile, TypeOf;
      OrCompiled(e, frame, offset, tag);
      ghost var start := out;
      ghost var a := Compile(e.lhs, frame, offset, tag);
      VisitExpr(e.lhs);
      GenCompZero(TypeOf(e.lhs));
      var labelTrue := NewLabel();
      Emit(Jne(labelTrue));
      ghost var first := a.code + [CmpImm(TypeOf(e.lhs), 0, Rax), Jne(labelTrue)];
      assert out == start + first;
      ghost var b := Compile(e.rhs, frame, offset, tag);
      VisitExpr(e.rhs);
      GenCompZero(TypeOf(e.rhs));
      Emit(Jne(labelTrue));
      ghost var second := first + b.code + [CmpImm(TypeOf(e.rhs), 0, Rax), Jne(labelTrue)];
      assert out == start + second;
      ghost var middle := out;
      Emit(Alu(AluBits(BitXor), Long, Rax, Rax));
      var labelFalse := NewLabel();
      Emit(Jmp(labelFalse));
      Emit(LabelDef(labelTrue));
      Emit(MovImm(Long, 1, Rax));
      Emit(LabelDef(labelFalse));
      ghost var tail := [Alu(AluBits(BitXor), Long, Rax, Rax), Jmp(labelFalse), LabelDef(labelTrue),
                         MovImm(Long, 1, Rax), LabelDef(labelFalse)];
      assert out == middle + tail;
      Append(start, second, tail);
    }

    method VisitConditionalOp(e: Expr)
      requires e.Choice?
      modifies this`offset, this`tag, this`out
      ensures var r := Compile(e, frame, old(offset), old(tag));
              out == old(out) + r.code && tag == r.tag && offset == old(offset)
      decreases e, 0
    {
      hide ArithCode, IncDecCode;
      ghost var start := out;
      ghost var a := Compile(e.cond, frame, offset, tag);
      VisitExpr(e.cond);
      var elseLabel := NewLabel();
      var endLabel := NewLabel();
      GenCompZero(TypeOf(e.cond));
      Emit(Je(elseLabel));
      ghost var first := a.code + [CmpImm(TypeOf(e.cond), 0, Rax), Je(elseLabel)];
      assert out == start + first;
      ghost var b := Compile(e.whenTrue, frame, offset, tag);
      VisitExpr(e.whenTrue);
      Emit(Jmp(endLabel));
      Emit(LabelDef(elseLabel));
      ghost var second := first + b.code + [Jmp(endLabel), LabelDef(elseLabel)];
      assert out == start + second;
      VisitExpr(e.whenFalse);
      Emit(LabelDef(endLabel));
    }

    method GenAssignOp(e: Expr)
      requires e.Assign?
      modifies this`offset, this`tag, this`out
      ensures var r := Compile(e, frame, old(offset), old(tag));
              out == old(out) + r.code && tag == r.tag && offset == old(offset)
      decreases e, 0
    {
      VisitExpr(e.rhs);
      Emit(StoreSlot(e.dty, Rax, OffsetOf(frame, e.dst)));
    }

    method GenIncDec(ty: Ty, x: Name, increment: bool, postfix: bool)
      modifies this`out
      ensures out == old(out) + IncDecCode(ty, OffsetOf(frame, x), increment, postfix)
    {
      var addr := OffsetOf(frame, x);
      Emit(LoadSlot(ty, addr, Rax));
      if postfix { Save(); }
      Emit(AluImm(if increment then AluAdd else AluSub, ty, 1, Rax));
      Emit(StoreSlot(ty, Rax, addr));
      if postfix { Emit(MovReg(Long, R11, Rax)); }
    }

    // ---------- statements ----------

    method VisitStmt(n: L.Node)
      modifies this`offset, this`tag, this`out
      ensures var r := L.LayOut(n, labels, ret, old(tag));
              out == old(out) + ExpandAll(r.code, frame, offset) && tag == r.tag && offset == old(offset)
      decreases n, 1
    {
      match n {
        case Empty =>
        case Evaluate(e) =>
          CompileLabels(e, frame, offset, tag);
          VisitExpr(e);
        case Test(c, t, els) => VisitIfStmt(n, c);
        case TestTemp(c, t) => VisitIfStmt(n, TempTest(c));
        case SetTemp(e) =>
          CompileLabels(e, frame, offset, tag);
          VisitExpr(e);
          Emit(MovReg(Int, Rax, Rcx));
        case Jump(l) => Emit(Jmp(l));
        case Pending(name) => Emit(Jmp(if name in labels then labels[name] else ret));
        case LabelHere(l) => Emit(LabelDef(l));
        case Compound(ss) => VisitCompoundStmt(n, ss);
        case Leave(e) => VisitReturnStmt(e);
      }
    }

    method VisitIfStmt(n: L.Node, cond: Expr)
      requires n.Test? || n.TestTemp?
      requires cond == if n.Test? then n.cond else TempTest(n.c)
      modifies this`offset, this`tag, this`out
      ensures var r := L.LayOut(n, labels, ret, old(tag));
              out == old(out) + ExpandAll(r.code, frame, offset) && tag == r.tag && offset == old(offset)
      decreases n, 0
    {
      hide Compile, ExpandAll, TypeOf, Expand, L.LayOut, L.LabelCount, Labels;
      ghost var start, first, code := out, tag, Compile(cond, frame, offset, tag).code;
      ghost var compare := CmpImm(TypeOf(cond), 0, Rax);
      CompileLabels(cond, frame, offset, tag);
      VisitExpr(cond);
      var elseLabel := NewLabel();
      var endLabel := NewLabel();
      GenCompZero(TypeOf(cond));
      ghost var x := L.LayOut(n.thn, labels, ret, tag).code;
      if n.Test? && n.els.Some? {
        Emit(Je(elseLabel));
        Append3(start, code, compare, Je(elseLabel));
        VisitStmt(n.thn);
        Emit(Jmp(endLabel));
        Emit(LabelDef(elseLabel));
        ghost var y := L.LayOut(n.els.value, labels, ret, tag).code;
        VisitStmt(n.els.value);
        Emit(LabelDef(endLabel));
        L.TestElseLaid(n, labels, ret, first);
        ElseExpands(start, F.FBranch(cond, first, elseLabel), x, y, elseLabel, endLabel, frame, offset);
        BranchExpands(n, cond, first, elseLabel, frame, offset);
      } else {
        Emit(Je(endLabel));
        Append3(start, code, compare, Je(endLabel));
        VisitStmt(n.thn);
        Emit(LabelDef(endLabel));
        ThenLaid(n, cond, first, labels, ret);
        ThenExpands(start, BranchOp(n, cond, first, endLabel), x, endLabel, frame, offset);
        BranchExpands(n, cond, first, endLabel, frame, offset);
      }
    }

    method VisitCompoundStmt(n: L.Node, stmts: seq<L.Node>)
      requires n == L.Compound(stmts)
      modifies this`offset, this`tag, this`out
      ensures var r := L.LayOutAll(stmts, labels, ret, old(tag));
              out == old(out) + ExpandAll(r.code, frame, offset) && tag == r.tag && offset == old(offset)
      decreases n, 0
    {
      hide ExpandAll, L.LayOutAll, L.LayOut;
      ghost var start, first := out, tag;
      NoStatements(stmts, labels, ret, first, frame, offset);
      for i := 0 to |stmts|
        invariant offset == old(offset)
        invariant var r := L.LayOutAll(stmts[..i], labels, ret, first);
                  out == start + ExpandAll(r.code, frame, offset) && tag == r.tag
      {
        LayOutNext(stmts, i, labels, ret, first, frame, offset);
        VisitStmt(stmts[i]);
      }
      assert stmts[..|stmts|] == stmts;
    }

    method VisitReturnStmt(e: Option<Expr>)
      modifies this`offset, this`tag, this`out
      ensures var r := L.LayOut(L.Leave(e), labels, ret, old(tag));
              out == old(out) + ExpandAll(r.code, frame, offset) && tag == r.tag && offset == old(offset)
    {
      if e.Some? {
        CompileLabels(e.value, frame, offset, tag);
        VisitExpr(e.value);
      }
      Emit(Jmp(ret));
    }
  }

  // ---------- how the pieces of a statement add up ----------

  lemma Append3(start: Code, code: Code, x: Instr, y: Instr)
    ensures start + code + [x] + [y] == start + (code + [x, y])
  {
  }

  function BranchOp(n: L.Node, cond: Expr, tag: nat, l: Label): F.Op {
    if n.TestTemp? then F.FBranchTemp(n.c, tag, l) else F.FBranch(cond, tag, l)
  }

  lemma BranchExpands(n: L.Node, cond: Expr, tag: nat, l: Label, frame: Frame, off: int)
    requires n.TestTemp? ==> cond == TempTest(n.c)
    ensures Expand(BranchOp(n, cond, tag, l), frame, off)
         == Compile(cond, frame, off, tag).code + [CmpImm(TypeOf(cond), 0, Rax), Je(l)]
  {
    hide Compile;
  }

  lemma ThenLaid(n: L.Node, cond: Expr, tag: nat, labels: map<LabelName, Label>, ret: Label)
    requires (n.TestTemp? && cond == TempTest(n.c)) || (n.Test? && n.els.None? && cond == n.cond)
    ensures var endLabel := tag + L.LabelCount(cond) + 2;
            var x := L.LayOut(n.thn, labels, ret, endLabel);
            L.LayOut(n, labels, ret, tag)
            == L.Laid([BranchOp(n, cond, tag, endLabel)] + x.code + [F.FLabel(endLabel)], x.tag)
  {
  }

  lemma ThenExpands(start: Code, op: F.Op, x: F.Flat, endLabel: Label, frame: Frame, off: int)
    ensures start + Expand(op, frame, off) + ExpandAll(x, frame, off) + [LabelDef(endLabel)]
         == start + ExpandAll([op] + x + [F.FLabel(endLabel)], frame, off)
  {
    hide Expand;
    ExpandAppend([op] + x, [F.FLabel(endLabel)], frame, off);
    ExpandAppend([op], x, frame, off);
    ExpandOne(op, frame, off);
    ExpandLabel(endLabel, frame, off);
  }

  lemma ExpandOne(op: F.Op, frame: Frame, off: int)
    ensures ExpandAll([op], frame, off) == Expand(op, frame, off)
  {
    assert [op][1..] == [];
  }

  lemma ExpandLabel(l: Label, frame: Frame, off: int)
    ensures ExpandAll([F.FLabel(l)], frame, off) == [LabelDef(l)]
  {
    ExpandOne(F.FLabel(l), frame, off);
  }

  lemma MiddleExpands(endLabel: Label, elseLabel: Label, frame: Frame, off: int)
    ensures ExpandAll([F.FJump(endLabel), F.FLabel(elseLabel)], frame, off) == [Jmp(endLabel), LabelDef(elseLabel)]
  {
    var middle := [F.FJump(endLabel), F.FLabel(elseLabel)];
    ExpandLabel(elseLabel, frame, off);
    assert middle[1..] == [F.FLabel(elseLabel)];
  }

  lemma Regroup(start: Code, a: Code, x: Code, jump: Instr, els: Instr, y: Code, end: Instr)
    ensures start + a + x + [jump] + [els] + y + [end] == start + (a + x + [jump, els] + y + [end])
  {
  }

  lemma ElseExpands(start: Code, op: F.Op, x: F.Flat, y: F.Flat, elseLabel: Label, endLabel: Label, frame: Frame,
      off: int)
    ensures start + Expand(op, frame, off) + ExpandAll(x, frame, off) + [Jmp(endLabel)] + [LabelDef(elseLabel)]
            + ExpandAll(y, frame, off) + [LabelDef(endLabel)]
         == start + ExpandAll([op] + x + [F.FJump(endLabel), F.FLabel(elseLabel)] + y + [F.FLabel(endLabel)], frame,
             off)
  {
    hide Expand, ExpandAll;
    var middle := [F.FJump(endLabel), F.FLabel(elseLabel)];
    MiddleExpands(endLabel, elseLabel, frame, off);
    ExpandAppend([op] + x + middle + y, [F.FLabel(endLabel)], frame, off);
    ExpandAppend([op] + x + middle, y, frame, off);
    ExpandAppend([op] + x, middle, frame, off);
    ExpandAppend([op], x, frame, off);
    ExpandOne(op, frame, off);
    ExpandLabel(endLabel, frame, off);
    Regroup(start, Expand(op, frame, off), ExpandAll(x, frame, off), Jmp(endLabel), LabelDef(elseLabel),
            ExpandAll(y, frame, off), LabelDef(endLabel));
  }

  lemma NoStatements(stmts: seq<L.Node>, labels: map<LabelName, Label>, ret: Label, tag: nat, frame: Frame, off: int)
    ensures var r := L.LayOutAll(stmts[..0], labels, ret, tag);
            r.tag == tag && ExpandAll(r.code, frame, off) == []
  {
  }

  lemma LayOutNext(stmts: seq<L.Node>, i: nat, labels: map<LabelName, Label>, ret: Label, tag: nat, frame: Frame,
      off: int)
    requires i < |stmts|
    ensures var a := L.LayOutAll(stmts[..i], labels, ret, tag);
            var b := L.LayOut(stmts[i], labels, ret, a.tag);
            var r := L.LayOutAll(stmts[..i + 1], labels, ret, tag);
            && r.tag == b.tag
            && ExpandAll(r.code, frame, off) == ExpandAll(a.code, frame, off) + ExpandAll(b.code, frame, off)
  {
    hide L.LayOut;
    assert stmts[..i + 1] == stmts[..i] + [stmts[i]];
    LayOutAppend(stmts[..i], stmts[i], labels, ret, tag);
    var a := L.LayOutAll(stmts[..i], labels, ret, tag);
    ExpandAppend(a.code, L.LayOut(stmts[i], labels, ret, a.tag).code, frame, off);
  }

  lemma {:induction false} LayOutAppend(ss: seq<L.Node>, n: L.Node, labels: map<LabelName, Label>, ret: Label, tag: nat)
    ensures var a := L.LayOutAll(ss, labels, ret, tag);
            var b := L.LayOut(n, labels, ret, a.tag);
            L.LayOutAll(ss + [n], labels, ret, tag) == L.Laid(a.code + b.code, b.tag)
    decreases |ss|
  {
    hide L.LayOut;
    if ss == [] {
      assert (ss + [n])[1..] == [];
      assert ss + [n] == [n];
    } else {
      assert (ss + [n])[1..] == ss[1..] + [n];
      LayOutAppend(ss[1..], n, labels, ret, L.LayOut(ss[0], labels, ret, tag).tag);
    }
  }

  /** The body of a function, from its first statement to the return label. */
  method GenFuncBody(body: L.Node, frame: Frame, labels: map<LabelName, Label>, ret: Label, offset: int, tag: nat)
    returns (code: Code, last: nat)
    ensures var r := L.LayOut(body, labels, ret, tag);
            code == ExpandAll(r.code + [F.FLabel(ret)], frame, offset) && last == r.tag
  {
    var g := new Generator(frame, labels, ret, offset, tag);
    g.VisitStmt(body);
    g.Emit(LabelDef(ret));
    ExpandAppend(L.LayOut(body, labels, ret, tag).code, [F.FLabel(ret)], frame, offset);
    ExpandLabel(ret, frame, offset);
    return g.out, g.tag;
  }
}
