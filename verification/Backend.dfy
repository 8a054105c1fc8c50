/** From flat code to instructions: the emitted program of a function runs in step with its flat code. */
module Backend {
  import opened Options
  import opened Words
  import opened Memory
  import M = Machine
  import opened Expressions
  import F = FlatCode
  import opened ExprCode
  import C = ExprCorrect
  import opened Lowering
  import opened LabelsApart
  import opened JumpsResolve

  // ---------- emission ----------

  /** The comparison of the switch value with a case constant. */
  function TempTest(c: int): Expr {
    Relation(Eq, Temp, Const(Int, c))
  }

  function Expand(op: F.Op, frame: Frame, off: int): M.Code {
    match op
    case FEval(e, t) => Compile(e, frame, off, t).code
    case FBranch(e, t, l) => Compile(e, frame, off, t).code + [M.CmpImm(TypeOf(e), 0, M.Rax), M.Je(l)]
    case FSetTemp(e, t) => Compile(e, frame, off, t).code + [M.MovReg(Int, M.Rax, M.Rcx)]
    case FBranchTemp(c, t, l) => Compile(TempTest(c), frame, off, t).code + [M.CmpImm(Int, 0, M.Rax), M.Je(l)]
    case FReturn(e, t, l) => Compile(e, frame, off, t).code + [M.Jmp(l)]
    case FJump(l) => [M.Jmp(l)]
    case FLabel(l) => [M.LabelDef(l)]
  }

  function ExpandAll(c: F.Flat, frame: Frame, off: int): M.Code {
    if c == [] then [] else Expand(c[0], frame, off) + ExpandAll(c[1..], frame, off)
  }

  /** Where the instructions of operation `i` begin. */
  function Pos(c: F.Flat, i: nat, frame: Frame, off: int): nat
    requires i <= |c|
  {
    |ExpandAll(c[..i], frame, off)|
  }

  lemma {:induction false} ExpandAppend(a: F.Flat, b: F.Flat, frame: Frame, off: int)
    ensures ExpandAll(a + b, frame, off) == ExpandAll(a, frame, off) + ExpandAll(b, frame, off)
    decreases |a|
  {
    if a == [] {
      assert a + b == b;
    } else {
      assert (a + b)[1..] == a[1..] + b;
      ExpandAppend(a[1..], b, frame, off);
    }
  }

  /** The program split at operation `i`. */
  lemma ExpandAt(c: F.Flat, i: nat, frame: Frame, off: int)
    requires i < |c|
    ensures var prog := ExpandAll(c, frame, off);
            var p := Pos(c, i, frame, off);
            && M.CodeAt(prog, p, Expand(c[i], frame, off))
            && Pos(c, i + 1, frame, off) == p + |Expand(c[i], frame, off)|
            && Pos(c, |c|, frame, off) == |prog| && Pos(c, 0, frame, off) == 0
  {
    hide Expand;
    var a, op, b := c[..i], [c[i]], c[i + 1..];
    assert c == a + (op + b);
    ExpandAppend(a, op + b, frame, off);
    ExpandAppend(op, b, frame, off);
    ExpandAppend(a, op, frame, off);
    assert c[..i + 1] == a + op;
    assert ExpandAll(op, frame, off) == Expand(c[i], frame, off) by { assert op[1..] == []; }
    assert c[..|c|] == c && c[..0] == [];
    Middle(ExpandAll(a, frame, off), Expand(c[i], frame, off), ExpandAll(b, frame, off));
  }

  lemma Middle(x: M.Code, y: M.Code, z: M.Code)
    ensures M.CodeAt(x + (y + z), |x|, y) && |x + y| == |x| + |y|
  {
    assert (x + (y + z))[|x|..|x| + |y|] == y;
  }

  // ---------- labels of the instructions ----------

  /** Label definitions of a piece of code, all different and within a set. */
  ghost predicate Labels(c: M.Code, own: set<nat>) {
    M.UniqueLabels(c) && forall i :: 0 <= i < |c| && c[i].LabelDef? ==> c[i].name in own
  }

  lemma LabelsJoin(a: M.Code, p: set<nat>, b: M.Code, q: set<nat>)
    requires Labels(a, p) && Labels(b, q) && p !! q
    ensures Labels(a + b, p + q)
  {
  }

  lemma LabelsNone(c: M.Code)
    requires forall i :: 0 <= i < |c| ==> !c[i].LabelDef?
    ensures Labels(c, {})
  {
  }

  lemma LabelsWiden(c: M.Code, p: set<nat>, q: set<nat>)
    requires Labels(c, p) && p <= q
    ensures Labels(c, q)
  {
  }

  /** The labels inside the code of an expression are the ones counted for it. */
  lemma {:induction false} CompileLabels(e: Expr, frame: Frame, off: int, tag: nat)
    ensures var r := Compile(e, frame, off, tag);
            r.tag == tag + LabelCount(e) && Labels(r.code, Interval(tag, r.tag))
    decreases e, 1
  {
    hide Compile, Labels, Interval, LabelCount;
    match e
    case Unary(_, _) => OneLabels(e, frame, off, tag);
    case Cast(_, _) => OneLabels(e, frame, off, tag);
    case Arith(_, _, _) => BinaryLabels(e, frame, off, tag);
    case Relation(_, _, _) => BinaryLabels(e, frame, off, tag);
    case LogAnd(_, _) => LogicLabels(e, frame, off, tag);
    case LogOr(_, _) => LogicLabels(e, frame, off, tag);
    case Comma(_, _) => CommaLabels(e, frame, off, tag);
    case Choice(_, _, _) => ChoiceLabels(e, frame, off, tag);
    case Assign(_, _, _) => OneLabels(e, frame, off, tag);
    case _ => LeafLabels(e, frame, off, tag);
  }

  lemma LeafLabels(e: Expr, frame: Frame, off: int, tag: nat)
    requires e.Const? || e.Local? || e.Temp? || e.IncDec?
    ensures var r := Compile(e, frame, off, tag);
            r.tag == tag + LabelCount(e) && Labels(r.code, Interval(tag, r.tag))
  {
    LabelsNone(Compile(e, frame, off, tag).code);
    LabelsWiden(Compile(e, frame, off, tag).code, {}, Interval(tag, tag));
  }

  /** Code without labels behind the code of the one operand. */
  lemma OneLabels(e: Expr, frame: Frame, off: int, tag: nat)
    requires e.Unary? || e.Cast? || e.Assign?
    ensures var r := Compile(e, frame, off, tag);
            r.tag == tag + LabelCount(e) && Labels(r.code, Interval(tag, r.tag))
    decreases e, 0
  {
    hide Labels, Interval, TypeOf, OffsetOf;
    var x := if e.Assign? then e.rhs else e.operand;
    var tail := if e.Unary? then UnaryCode(e.uop, TypeOf(x)) else if e.Cast? then CastCode(TypeOf(x), e.to)
                else [M.StoreSlot(e.dty, M.Rax, OffsetOf(frame, e.dst))];
    CompileLabels(x, frame, off, tag);
    LabelsNone(tail);
    LabelsJoin(Compile(x, frame, off, tag).code, Interval(tag, tag + LabelCount(x)), tail, {});
    assert Interval(tag, tag + LabelCount(x)) + {} == Interval(tag, tag + LabelCount(x));
  }

  lemma CommaLabels(e: Expr, frame: Frame, off: int, tag: nat)
    requires e.Comma?
    ensures var r := Compile(e, frame, off, tag);
            r.tag == tag + LabelCount(e) && Labels(r.code, Interval(tag, r.tag))
    decreases e, 0
  {
    hide Labels, Interval;
    var a := Compile(e.lhs, frame, off, tag);
    CompileLabels(e.lhs, frame, off, tag);
    CompileLabels(e.rhs, frame, off, a.tag);
    IntervalsMeet(tag, a.tag, a.tag + LabelCount(e.rhs));
    LabelsJoin(a.code, Interval(tag, a.tag), Compile(e.rhs, frame, off, a.tag).code,
               Interval(a.tag, a.tag + LabelCount(e.rhs)));
  }

  lemma BinaryCompiled(e: Expr, frame: Frame, off: int, tag: nat)
    requires e.Arith? || e.Relation?
    ensures var a := Compile(e.lhs, frame, off, tag);
            var b := Compile(e.rhs, frame, off - 8, a.tag);
            Compile(e, frame, off, tag)
            == Emitted(a.code + [M.StoreSlot(Long, M.Rax, off - 8)] + b.code + RestoreCode(off)
                       + (if e.Arith? then ArithCode(e.aop, TypeOf(e.lhs)) else RelationCode(e.rop, TypeOf(e.lhs))),
                       b.tag)
  {
    hide RestoreCode, ArithCode, RelationCode, TypeOf;
  }

  lemma IntervalsMeet(i: nat, j: nat, k: nat)
    requires i <= j <= k
    ensures Interval(i, j) !! Interval(j, k) && Interval(i, j) + Interval(j, k) == Interval(i, k)
  {
  }

  lemma BinaryLabels(e: Expr, frame: Frame, off: int, tag: nat)
    requires e.Arith? || e.Relation?
    ensures var r := Compile(e, frame, off, tag);
            r.tag == tag + LabelCount(e) && Labels(r.code, Interval(tag, r.tag))
    decreases e, 0
  {
    hide Compile, M.UniqueLabels, Labels, Interval;
    BinaryCompiled(e, frame, off, tag);
    var a := Compile(e.lhs, frame, off, tag);
    var b := Compile(e.rhs, frame, off - 8, a.tag);
    CompileLabels(e.lhs, frame, off, tag);
    CompileLabels(e.rhs, frame, off - 8, a.tag);
    IntervalsMeet(tag, a.tag, b.tag);
    var spill, op := [M.StoreSlot(Long, M.Rax, off - 8)],
      if e.Arith? then ArithCode(e.aop, TypeOf(e.lhs)) else RelationCode(e.rop, TypeOf(e.lhs));
    var i, j := Interval(tag, a.tag), Interval(a.tag, b.tag);
    LabelsNone(spill);
    LabelsNone(RestoreCode(off));
    LabelsNone(op);
    LabelsJoin(a.code, i, spill, {});
    LabelsJoin(a.code + spill, i + {}, b.code, j);
    LabelsJoin(a.code + spill + b.code, i + {} + j, RestoreCode(off), {});
    LabelsJoin(a.code + spill + b.code + RestoreCode(off), i + {} + j + {}, op, {});
    LabelsWiden(a.code + spill + b.code + RestoreCode(off) + op, i + {} + j + {} + {}, Interval(tag, b.tag));
  }

  lemma LabelsOne(l: nat)
    ensures Labels([M.LabelDef(l)], {l})
  {
  }

  lemma TailLabels(isAnd: bool, short: nat, end: nat)
    requires short != end
    ensures Labels(C.LogicTail(isAnd, short, end), {short, end})
  {
  }

  lemma LogicLabels(e: Expr, frame: Frame, off: int, tag: nat)
    requires e.LogAnd? || e.LogOr?
    ensures var r := Compile(e, frame, off, tag);
            r.tag == tag + LabelCount(e) && Labels(r.code, Interval(tag, r.tag))
    decreases e, 0
  {
    hide Compile, TypeOf, M.UniqueLabels, Labels;
    C.LogicCode(e, frame, off, tag);
    var a := Compile(e.lhs, frame, off, tag);
    var short := a.tag + 1;
    var b := Compile(e.rhs, frame, off, short);
    var end := b.tag + 1;
    CompileLabels(e.lhs, frame, off, tag);
    CompileLabels(e.rhs, frame, off, short);
    LogicCount(e);
    hide LabelCount;
    var t1 := C.TestCode(TypeOf(e.lhs), C.ShortJump(e.LogAnd?, short));
    var t2 := C.TestCode(TypeOf(e.rhs), C.ShortJump(e.LogAnd?, short));
    var tail := C.LogicTail(e.LogAnd?, short, end);
    TestLabels(TypeOf(e.lhs), e.LogAnd?, short);
    TestLabels(TypeOf(e.rhs), e.LogAnd?, short);
    TailLabels(e.LogAnd?, short, end);
    var i, j := Interval(tag, a.tag), Interval(short, b.tag);
    LabelsJoin(a.code, i, t1, {});
    LabelsJoin(a.code + t1, i + {}, b.code, j);
    LabelsJoin(a.code + t1 + b.code, i + {} + j, t2, {});
    LabelsJoin(a.code + t1 + b.code + t2, i + {} + j + {}, tail, {short, end});
    LabelsWiden(a.code + t1 + b.code + t2 + tail, i + {} + j + {} + {short, end}, Interval(tag, end));
  }

  lemma LogicCount(e: Expr)
    requires e.LogAnd? || e.LogOr?
    ensures LabelCount(e) == LabelCount(e.lhs) + LabelCount(e.rhs) + 2
  {
  }

  lemma TestLabels(ty: Ty, isAnd: bool, short: nat)
    ensures Labels(C.TestCode(ty, C.ShortJump(isAnd, short)), {})
  {
  }

  lemma ChoiceLabels(e: Expr, frame: Frame, off: int, tag: nat)
    requires e.Choice?
    ensures var r := Compile(e, frame, off, tag);
            r.tag == tag + LabelCount(e) && Labels(r.code, Interval(tag, r.tag))
    decreases e, 0
  {
    var a := Compile(e.cond, frame, off, tag);
    var els, end := a.tag + 1, a.tag + 2;
    var b := Compile(e.whenTrue, frame, off, end);
    var d := Compile(e.whenFalse, frame, off, b.tag);
    CompileLabels(e.cond, frame, off, tag);
    CompileLabels(e.whenTrue, frame, off, end);
    CompileLabels(e.whenFalse, frame, off, b.tag);
    var test, skip, last := [M.CmpImm(TypeOf(e.cond), 0, M.Rax), M.Je(els)], [M.Jmp(end), M.LabelDef(els)],
        [M.LabelDef(end)];
    assert Compile(e, frame, off, tag).code == a.code + test + b.code + skip + d.code + last;
    hide Compile;
    var i, j, k := Interval(tag, a.tag), Interval(end, b.tag), Interval(b.tag, d.tag);
    LabelsNone(test);
    assert Labels(skip, {els});
    LabelsOne(end);
    hide M.UniqueLabels, Labels;
    LabelsJoin(a.code, i, test, {});
    LabelsJoin(a.code + test, i + {}, b.code, j);
    LabelsJoin(a.code + test + b.code, i + {} + j, skip, {els});
    LabelsJoin(a.code + test + b.code + skip, i + {} + j + {els}, d.code, k);
    LabelsJoin(a.code + test + b.code + skip + d.code, i + {} + j + {els} + k, last, {end});
    LabelsWiden(a.code + test + b.code + skip + d.code + last, i + {} + j + {els} + k + {end}, Interval(tag, d.tag));
  }

  lemma ExpandLabels(op: F.Op, frame: Frame, off: int)
    ensures Labels(Expand(op, frame, off), DefsOf(op))
  {
    match op
    case FLabel(l) => LabelsOne(l);
    case FJump(l) => LabelsNone([M.Jmp(l)]);
    case FBranchTemp(c, t, l) => CompileLabels(TempTest(c), frame, off, t);
        WithTail(op, TempTest(c), t, frame, off, [M.CmpImm(Int, 0, M.Rax), M.Je(l)]);
    case FEval(e, t) => CompileLabels(e, frame, off, t);
    case FBranch(e, t, l) => WithTail(op, e, t, frame, off, [M.CmpImm(TypeOf(e), 0, M.Rax), M.Je(l)]);
    case FSetTemp(e, t) => WithTail(op, e, t, frame, off, [M.MovReg(Int, M.Rax, M.Rcx)]);
    case FReturn(e, t, l) => WithTail(op, e, t, frame, off, [M.Jmp(l)]);
  }

  lemma WithTail(op: F.Op, e: Expr, t: nat, frame: Frame, off: int, tail: M.Code)
    requires forall i :: 0 <= i < |tail| ==> !tail[i].LabelDef?
    ensures Labels(Compile(e, frame, off, t).code + tail, Interval(t, t + LabelCount(e)))
  {
    CompileLabels(e, frame, off, t);
    LabelsNone(tail);
    LabelsJoin(Compile(e, frame, off, t).code, Interval(t, t + LabelCount(e)), tail, {});
    assert Interval(t, t + LabelCount(e)) + {} == Interval(t, t + LabelCount(e));
  }

  lemma {:induction false} ExpandAllLabels(c: F.Flat, frame: Frame, off: int)
    requires Apart(c)
    ensures Labels(ExpandAll(c, frame, off), DefSet(c))
    decreases |c|
  {
    if c != [] {
      forall i, j | 0 <= i < j < |c[1..]|
        ensures DefsOf(c[1..][i]) !! DefsOf(c[1..][j])
      {
        assert DefsOf(c[i + 1]) !! DefsOf(c[j + 1]);
      }
      ExpandAllLabels(c[1..], frame, off);
      ExpandLabels(c[0], frame, off);
      HeadApart(c);
      LabelsJoin(Expand(c[0], frame, off), DefsOf(c[0]), ExpandAll(c[1..], frame, off), DefSet(c[1..]));
    }
  }

  lemma HeadApart(c: F.Flat)
    requires Apart(c) && c != []
    ensures DefsOf(c[0]) !! DefSet(c[1..])
  {
    forall l | l in DefSet(c[1..])
      ensures l !in DefsOf(c[0])
    {
      var i := DefinedAt(c[1..], l);
      assert DefsOf(c[0]) !! DefsOf(c[i + 1]);
    }
  }

  lemma {:induction false} DefinedAt(c: F.Flat, l: nat) returns (i: nat)
    requires l in DefSet(c)
    ensures i < |c| && l in DefsOf(c[i])
    decreases |c|
  {
    if l in DefsOf(c[0]) {
      i := 0;
    } else {
      i := DefinedAt(c[1..], l);
      i := i + 1;
    }
  }

  // ---------- matching runs ----------

  /** Expressions are typed, the switch value is an `int`, returned values have the function's type, and
      jumps lead to labels of the code, those of returns to its end. */
  ghost predicate OpOk(op: F.Op, c: F.Flat, types: Types, rty: Ty) {
    && (forall l :: l in TargetsOf(op) ==> F.Target(c, l) < |c|)
    && match op
       case FEval(e, _) => WellTyped(e, types)
       case FBranch(e, _, _) => WellTyped(e, types)
       case FSetTemp(e, _) => WellTyped(e, types) && TypeOf(e) == Int
       case FReturn(e, _, l) => WellTyped(e, types) && TypeOf(e) == rty && F.Target(c, l) + 1 == |c|
       case _ => true
  }

  ghost predicate CodeOk(c: F.Flat, frame: Frame, off: int, rty: Ty) {
    && Apart(c) && C.FrameOk(frame, off)
    && forall i :: 0 <= i < |c| ==> OpOk(c[i], c, TypesOf(frame), rty)
  }

  /** A point of the flat run and a machine state that correspond; `m` is the memory at the start. */
  ghost predicate Agree(c: F.Flat, frame: Frame, off: int, rty: Ty, m: Mem, f: F.FPoint, st: M.State) {
    match f
    case FAt(pc, env, temp, result) =>
      && pc <= |c| && st.Running? && st.pc == Pos(c, pc, frame, off)
      && Data(frame, off, m, env, temp, st.cpu)
      && (result.Some? ==> pc + 1 >= |c| && Holds(rty, st.cpu.rax, result.value))
    case FCrashed => st.Trapped?
    case FLost => true
  }

  /** Variables in their slots, the switch value in `%ecx`, nothing else at or above `off` changed. */
  ghost predicate Data(frame: Frame, off: int, m: Mem, env: Env, temp: Option<int>, s: M.Cpu) {
    && C.Agrees(frame, env, s.mem)
    && C.Kept(frame, frame.Keys, off, m, s.mem)
    && (temp.Some? ==> Holds(Int, s.rcx, temp.value))
  }

  lemma {:induction false} AssignedIsLocal(e: Expr, types: Types)
    requires WellTyped(e, types)
    ensures Assigned(e) <= types.Keys
  {
    match e
    case Unary(_, x) => AssignedIsLocal(x, types);
    case Cast(_, x) => AssignedIsLocal(x, types);
    case Arith(_, l, r) => AssignedIsLocal(l, types); AssignedIsLocal(r, types);
    case Relation(_, l, r) => AssignedIsLocal(l, types); AssignedIsLocal(r, types);
    case LogAnd(l, r) => AssignedIsLocal(l, types); AssignedIsLocal(r, types);
    case LogOr(l, r) => AssignedIsLocal(l, types); AssignedIsLocal(r, types);
    case Comma(l, r) => AssignedIsLocal(l, types); AssignedIsLocal(r, types);
    case Choice(a, t, f) => AssignedIsLocal(a, types); AssignedIsLocal(t, types); AssignedIsLocal(f, types);
    case Assign(_, _, r) => AssignedIsLocal(r, types);
    case _ =>
  }

  /** The instructions of a jump's destination. */
  lemma JumpTarget(c: F.Flat, frame: Frame, off: int, l: nat)
    requires Apart(c) && F.Target(c, l) < |c|
    ensures M.Target(ExpandAll(c, frame, off), l) == Pos(c, F.Target(c, l), frame, off)
  {
    var i := F.Target(c, l);
    var prog := ExpandAll(c, frame, off);
    ExpandAllLabels(c, frame, off);
    ExpandAt(c, i, frame, off);
    C.InstrAt(prog, Pos(c, i, frame, off), Expand(c[i], frame, off), 0);
    M.TargetIs(prog, l, Pos(c, i, frame, off));
  }

  /** The expression at the head of an operation runs to its value. */
  lemma RunExpr(c: F.Flat, frame: Frame, off: int, rty: Ty, m: Mem, i: nat, e: Expr, t: nat, tail: M.Code,
                env: Env, temp: Option<int>, s: M.Cpu)
    returns (n: nat)
    requires CodeOk(c, frame, off, rty) && i < |c| && WellTyped(e, TypesOf(frame))
    requires Expand(c[i], frame, off) == Compile(e, frame, off, t).code + tail
    requires Data(frame, off, m, env, temp, s)
    ensures var prog := ExpandAll(c, frame, off);
            var p := Pos(c, i, frame, off);
            var q := p + |Compile(e, frame, off, t).code|;
            && M.CodeAt(prog, q, tail) && Pos(c, i + 1, frame, off) == q + |tail|
            && C.Ends(M.Run(prog, M.Running(p, s), n), q, TypeOf(e), Eval(e, env), frame, frame.Keys, off, m)
  {
    hide C.FrameOk, C.Agrees, C.Kept, OpOk, M.Run, M.CodeAt, M.UniqueLabels, Compile, Expand, ExpandAll, Pos, Apart,
         WellTyped, Eval, Assigned, TypeOf;
    var prog := ExpandAll(c, frame, off);
    var p := Pos(c, i, frame, off);
    ExpandAllLabels(c, frame, off);
    ExpandAt(c, i, frame, off);
    M.CodeAtSplit(prog, p, Compile(e, frame, off, t).code, tail);
    n := C.Simulate(prog, frame, e, off, t, p, s, env);
    AssignedIsLocal(e, TypesOf(frame));
    if Eval(e, env).Value? {
      C.KeptTrans(frame, frame.Keys, Assigned(e), off, m, s.mem, M.Run(prog, M.Running(p, s), n).cpu.mem);
      assert frame.Keys + Assigned(e) == frame.Keys;
    }
  }

  /** `%ecx` is compared with a case constant. */
  lemma RunTempTest(prog: M.Code, frame: Frame, off: int, m: Mem, p: nat, k: int, env: Env, v: int, s: M.Cpu, t: nat)
    returns (n: nat)
    requires C.FrameOk(frame, off) && M.CodeAt(prog, p, Compile(TempTest(k), frame, off, t).code)
    requires Data(frame, off, m, env, Some(v), s)
    ensures var st := M.Run(prog, M.Running(p, s), n);
            && st.Running? && st.pc == p + |Compile(TempTest(k), frame, off, t).code|
            && Data(frame, off, m, env, Some(v), st.cpu)
            && Holds(Int, st.cpu.rax, Truth(v == ToSigned(Int, k)))
  {
    hide M.Run, M.ExecAll;
    var load, spill, imm := M.MovReg(Int, M.Rcx, M.Rax), M.StoreSlot(Long, M.Rax, off - 8), M.MovImm(Int, k, M.Rax);
    var code := [load] + [spill] + [imm] + RestoreCode(off) + RelationCode(Eq, Int);
    assert Compile(TempTest(k), frame, off, t).code == code;
    n := C.SimulateStraight(prog, code, p, s);
    TempBlock(frame, off, m, env, k, v, s);
  }

  /** The switch value goes into the temporary, the constant into the accumulator. */
  lemma TempLoads(off: int, k: int, s: M.Cpu)
    ensures var load, spill, imm := M.MovReg(Int, M.Rcx, M.Rax), M.StoreSlot(Long, M.Rax, off - 8),
                M.MovImm(Int, k, M.Rax);
            var r := M.ExecAll([load] + [spill] + [imm], s);
            && r.Done? && r.cpu.rcx == s.rcx && r.cpu.rax == ToUnsigned(Int, k)
            && r.cpu.mem == Store(s.mem, off - 8, 8, ToUnsigned(Int, s.rcx))
  {
    hide M.ExecAll, Store, ToUnsigned;
    var load, spill, imm := M.MovReg(Int, M.Rcx, M.Rax), M.StoreSlot(Long, M.Rax, off - 8), M.MovImm(Int, k, M.Rax);
    var s1 := M.Exec(load, s).cpu;
    var s2 := M.Exec(spill, s1).cpu;
    C.ExecOne(load, s);
    C.ExecOne(spill, s1);
    C.ExecOne(imm, s2);
    C.ExecAllAppend([load], [spill], s);
    C.ExecAllAppend([load] + [spill], [imm], s);
  }

  lemma TempBlock(frame: Frame, off: int, m: Mem, env: Env, k: int, v: int, s: M.Cpu)
    requires C.FrameOk(frame, off) && Data(frame, off, m, env, Some(v), s)
    ensures var load, spill, imm := M.MovReg(Int, M.Rcx, M.Rax), M.StoreSlot(Long, M.Rax, off - 8),
            M.MovImm(Int, k, M.Rax);
            var r := M.ExecAll([load] + [spill] + [imm] + RestoreCode(off) + RelationCode(Eq, Int), s);
            && r.Done? && Data(frame, off, m, env, Some(v), r.cpu)
            && Holds(Int, r.cpu.rax, Truth(v == ToSigned(Int, k)))
  {
    hide M.ExecAll, M.Exec, C.FrameOk, C.Agrees, C.Kept, Store, Load, ToUnsigned, ToSigned;
    var loads := [M.MovReg(Int, M.Rcx, M.Rax)] + [M.StoreSlot(Long, M.Rax, off - 8)] + [M.MovImm(Int, k, M.Rax)];
    TempLoads(off, k, s);
    var s3 := M.ExecAll(loads, s).cpu;
    RestoreKeeps(off, s3);
    var s4 := M.ExecAll(RestoreCode(off), s3).cpu;
    C.ExecAllAppend(loads, RestoreCode(off), s);
    C.ExecAllAppend(loads + RestoreCode(off), RelationCode(Eq, Int), s);
    C.StoreTemporary(frame, off, env, s.mem, ToUnsigned(Int, s.rcx));
    C.KeptTrans(frame, frame.Keys, {}, off, m, s.mem, s3.mem);
    assert frame.Keys + {} == frame.Keys;
    SignedOfUnsigned(Int, s.rcx);
    SignedOfUnsigned(Int, k);
    C.RelationBlock(Eq, Int, v, ToSigned(Int, k), s4);
    RelationKeeps(Eq, Int, s4);
  }

  lemma RestoreKeeps(off: int, s: M.Cpu)
    ensures var r := M.ExecAll(RestoreCode(off), s);
            && r.Done? && r.cpu.r11 == s.rax && r.cpu.mem == s.mem && r.cpu.rcx == s.rcx
            && r.cpu.rax == Load(s.mem, off - 8, 8)
  {
    C.RestoreBlock(off, s);
    C.ExecTwo(M.MovReg(Long, M.Rax, M.R11), M.LoadSlot(Long, off - 8, M.Rax), s);
  }

  lemma RelationKeeps(op: RelOp, ty: Ty, s: M.Cpu)
    ensures var r := M.ExecAll(RelationCode(op, ty), s);
            r.Done? && r.cpu.rcx == s.rcx
  {
    C.ExecThree(M.Cmp(ty, M.R11, M.Rax), M.SetAl(CondOf(op)), M.ZeroExtendAl(Long), s);
    C.ExecTwo(M.SetAl(CondOf(op)), M.ZeroExtendAl(Long), M.Exec(M.Cmp(ty, M.R11, M.Rax), s).cpu);
  }

  // ---------- one operation ----------

  /** The machine has made at least one step and agrees with the flat run again. */
  ghost predicate Moved(c: F.Flat, frame: Frame, off: int, rty: Ty, m: Mem, f: F.FPoint, st: M.State, n: nat) {
    n > 0 && Agree(c, frame, off, rty, m, f, M.Run(ExpandAll(c, frame, off), st, n))
  }

  ghost predicate At(c: F.Flat, frame: Frame, off: int, rty: Ty, m: Mem, f: F.FPoint, s: M.Cpu) {
    && CodeOk(c, frame, off, rty) && f.FAt? && f.pc < |c|
    && Agree(c, frame, off, rty, m, f, M.Running(Pos(c, f.pc, frame, off), s))
  }

  function FlatStep(c: F.Flat, f: F.FPoint): F.FPoint
    requires f.FAt? && f.pc < |c|
  {
    F.FStep(c, f.pc, f.env, f.temp, f.result)
  }

  lemma ControlStep(c: F.Flat, frame: Frame, off: int, rty: Ty, m: Mem, f: F.FPoint, s: M.Cpu)
    requires At(c, frame, off, rty, m, f, s) && (c[f.pc].FJump? || c[f.pc].FLabel?)
    requires f.result.None? || c[f.pc].FLabel?
    ensures Moved(c, frame, off, rty, m, FlatStep(c, f), M.Running(Pos(c, f.pc, frame, off), s), 1)
  {
    hide M.Run, C.Agrees, C.Kept, ExpandAll;
    var prog := ExpandAll(c, frame, off);
    var p := Pos(c, f.pc, frame, off);
    ExpandAt(c, f.pc, frame, off);
    C.InstrAt(prog, p, Expand(c[f.pc], frame, off), 0);
    C.RunOne(prog, p, s);
    if c[f.pc].FJump? {
      assert c[f.pc].to in TargetsOf(c[f.pc]);
      JumpTarget(c, frame, off, c[f.pc].to);
    }
  }

  /** The code of an expression is never empty. */
  lemma {:induction false} CompileNonEmpty(e: Expr, frame: Frame, off: int, tag: nat)
    ensures |Compile(e, frame, off, tag).code| > 0
  {
    match e
    case Unary(_, x) => CompileNonEmpty(x, frame, off, tag);
    case Cast(_, x) => CompileNonEmpty(x, frame, off, tag);
    case Comma(l, r) => CompileNonEmpty(l, frame, off, tag);
    case _ =>
  }

  lemma RanSomething(prog: M.Code, p: nat, q: nat, s: M.Cpu, n: nat)
    requires M.Run(prog, M.Running(p, s), n) != M.Running(p, s)
    ensures n > 0
  {
  }

  lemma EvalStep(c: F.Flat, frame: Frame, off: int, rty: Ty, m: Mem, f: F.FPoint, s: M.Cpu) returns (n: nat)
    requires At(c, frame, off, rty, m, f, s) && c[f.pc].FEval? && f.result.None?
    ensures Moved(c, frame, off, rty, m, FlatStep(c, f), M.Running(Pos(c, f.pc, frame, off), s), n)
  {
    hide M.Run, C.Agrees, C.Kept, ExpandAll, Compile;
    var e, t := c[f.pc].e, c[f.pc].tag;
    assert Compile(e, frame, off, t).code + [] == Compile(e, frame, off, t).code;
    n := RunExpr(c, frame, off, rty, m, f.pc, e, t, [], f.env, f.temp, s);
    CompileNonEmpty(e, frame, off, t);
    RanSomething(ExpandAll(c, frame, off), Pos(c, f.pc, frame, off), 0, s, n);
  }

  lemma BranchStep(c: F.Flat, frame: Frame, off: int, rty: Ty, m: Mem, f: F.FPoint, s: M.Cpu) returns (n: nat)
    requires At(c, frame, off, rty, m, f, s) && c[f.pc].FBranch? && f.result.None?
    ensures Moved(c, frame, off, rty, m, FlatStep(c, f), M.Running(Pos(c, f.pc, frame, off), s), n)
  {
    hide M.Run, C.Agrees, C.Kept, ExpandAll, Compile;
    var e, t, l := c[f.pc].e, c[f.pc].tag, c[f.pc].ifZero;
    var prog := ExpandAll(c, frame, off);
    var start := M.Running(Pos(c, f.pc, frame, off), s);
    n := RunExpr(c, frame, off, rty, m, f.pc, e, t, C.TestCode(TypeOf(e), M.Je(l)), f.env, f.temp, s);
    CompileNonEmpty(e, frame, off, t);
    RanSomething(prog, start.pc, 0, s, n);
    if Eval(e, f.env).Value? {
      assert l in TargetsOf(c[f.pc]);
      JumpTarget(c, frame, off, l);
      var q := start.pc + |Compile(e, frame, off, t).code|;
      var k := C.Branch(prog, frame, start, n, q, TypeOf(e), l, Eval(e, f.env).v, Eval(e, f.env).env, frame.Keys, off,
          m);
      n := k;
    }
  }

  lemma SetTempStep(c: F.Flat, frame: Frame, off: int, rty: Ty, m: Mem, f: F.FPoint, s: M.Cpu) returns (n: nat)
    requires At(c, frame, off, rty, m, f, s) && c[f.pc].FSetTemp? && f.result.None?
    ensures Moved(c, frame, off, rty, m, FlatStep(c, f), M.Running(Pos(c, f.pc, frame, off), s), n)
  {
    hide M.Run, C.Agrees, C.Kept, ExpandAll, Compile;
    var e, t := c[f.pc].e, c[f.pc].tag;
    var prog := ExpandAll(c, frame, off);
    var start := M.Running(Pos(c, f.pc, frame, off), s);
    var save := M.MovReg(Int, M.Rax, M.Rcx);
    n := RunExpr(c, frame, off, rty, m, f.pc, e, t, [save], f.env, f.temp, s);
    CompileNonEmpty(e, frame, off, t);
    RanSomething(prog, start.pc, 0, s, n);
    if Eval(e, f.env).Value? {
      var mid := M.Run(prog, start, n).cpu;
      n := C.Continue(prog, start, n, [save]);
      C.ExecOne(save, mid);
      SignedOfUnsigned(Int, mid.rax);
    }
  }

  lemma BranchTempStep(c: F.Flat, frame: Frame, off: int, rty: Ty, m: Mem, f: F.FPoint, s: M.Cpu) returns (n: nat)
    requires At(c, frame, off, rty, m, f, s) && c[f.pc].FBranchTemp? && f.result.None? && f.temp.Some?
    ensures Moved(c, frame, off, rty, m, FlatStep(c, f), M.Running(Pos(c, f.pc, frame, off), s), n)
  {
    hide M.Run, C.Agrees, C.Kept, ExpandAll, Compile;
    var k, t, l := c[f.pc].c, c[f.pc].tag, c[f.pc].ifDiff;
    var prog := ExpandAll(c, frame, off);
    var p := Pos(c, f.pc, frame, off);
    var code, test := Compile(TempTest(k), frame, off, t).code, C.TestCode(Int, M.Je(l));
    ExpandAt(c, f.pc, frame, off);
    M.CodeAtSplit(prog, p, code, test);
    var i := RunTempTest(prog, frame, off, m, p, k, f.env, f.temp.value, s, t);
    var mid := M.Run(prog, M.Running(p, s), i);
    var same := f.temp.value == ToSigned(Int, k);
    C.TestAndJump(prog, mid.pc, Int, M.Je(l), mid.cpu, Truth(same));
    M.RunAdd(prog, M.Running(p, s), i, 2);
    n := i + 2;
    assert l in TargetsOf(c[f.pc]);
    JumpTarget(c, frame, off, l);
  }

  lemma ReturnStep(c: F.Flat, frame: Frame, off: int, rty: Ty, m: Mem, f: F.FPoint, s: M.Cpu) returns (n: nat)
    requires At(c, frame, off, rty, m, f, s) && c[f.pc].FReturn? && f.result.None?
    ensures Moved(c, frame, off, rty, m, FlatStep(c, f), M.Running(Pos(c, f.pc, frame, off), s), n)
  {
    hide M.Run, C.Agrees, C.Kept, ExpandAll, Compile;
    var e, t, l := c[f.pc].e, c[f.pc].tag, c[f.pc].to;
    var prog := ExpandAll(c, frame, off);
    var start := M.Running(Pos(c, f.pc, frame, off), s);
    n := RunExpr(c, frame, off, rty, m, f.pc, e, t, [M.Jmp(l)], f.env, f.temp, s);
    CompileNonEmpty(e, frame, off, t);
    RanSomething(prog, start.pc, 0, s, n);
    if Eval(e, f.env).Value? {
      assert l in TargetsOf(c[f.pc]);
      JumpTarget(c, frame, off, l);
      var mid := M.Run(prog, start, n);
      C.InstrAt(prog, mid.pc, [M.Jmp(l)], 0);
      C.RunOne(prog, mid.pc, mid.cpu);
      M.RunAdd(prog, start, n, 1);
      n := n + 1;
    }
  }

  /** Every flat step that is not lost is a run of at least one instruction. */
  lemma OpSimulates(c: F.Flat, frame: Frame, off: int, rty: Ty, m: Mem, f: F.FPoint, s: M.Cpu) returns (n: nat)
    requires At(c, frame, off, rty, m, f, s) && c[|c| - 1].FLabel?
    ensures Moved(c, frame, off, rty, m, FlatStep(c, f), M.Running(Pos(c, f.pc, frame, off), s), n)
  {
    hide M.Run, C.Agrees, C.Kept, ExpandAll, Compile, Data;
    match c[f.pc]
    case FEval(_, _) => n := EvalStep(c, frame, off, rty, m, f, s);
    case FBranch(_, _, _) => n := BranchStep(c, frame, off, rty, m, f, s);
    case FSetTemp(_, _) => n := SetTempStep(c, frame, off, rty, m, f, s);
    case FBranchTemp(_, _, _) =>
      if f.temp.Some? {
        n := BranchTempStep(c, frame, off, rty, m, f, s);
      } else {
        n := 1;
      }
    case FReturn(_, _, _) => n := ReturnStep(c, frame, off, rty, m, f, s);
    case FJump(_) => n := 1; ControlStep(c, frame, off, rty, m, f, s);
    case FLabel(_) => n := 1; ControlStep(c, frame, off, rty, m, f, s);
  }

  // ---------- whole runs ----------

  lemma {:induction false} MachineFollows(c: F.Flat, frame: Frame, off: int, rty: Ty, m: Mem, f: F.FPoint,
      st: M.State, k: nat)
    returns (n: nat)
    requires CodeOk(c, frame, off, rty) && c != [] && c[|c| - 1].FLabel?
    requires Agree(c, frame, off, rty, m, f, st) && !f.FLost? && !F.FRun(c, f, k).FLost?
    ensures Agree(c, frame, off, rty, m, F.FRun(c, f, k), M.Run(ExpandAll(c, frame, off), st, n))
    decreases k
  {
    hide M.Run, ExpandAll, CodeOk, Data;
    n := 0;
    MRunZero(ExpandAll(c, frame, off), st);
    if k > 0 && !F.Halted(c, f) {
      var i := OpSimulates(c, frame, off, rty, m, f, st.cpu);
      var f' := FlatStep(c, f);
      var st' := M.Run(ExpandAll(c, frame, off), st, i);
      LostStays(c, f', k - 1);
      var j := MachineFollows(c, frame, off, rty, m, f', st', k - 1);
      M.RunAdd(ExpandAll(c, frame, off), st, i, j);
      n := i + j;
    }
  }

  lemma MRunZero(prog: M.Code, st: M.State)
    ensures M.Run(prog, st, 0) == st
  {
  }

  lemma LostStays(c: F.Flat, f: F.FPoint, k: nat)
    ensures f.FLost? ==> F.FRun(c, f, k).FLost?
  {
  }

  ghost predicate MachineOver(prog: M.Code, st: M.State) {
    st.Trapped? || st.pc >= |prog|
  }

  /** If the machine's run is over after `n` instructions, so is the flat run, or it is lost. */
  lemma {:induction false} FlatIsOver(c: F.Flat, frame: Frame, off: int, rty: Ty, m: Mem, f: F.FPoint, st: M.State,
      n: nat)
    returns (k: nat)
    requires CodeOk(c, frame, off, rty) && c != [] && c[|c| - 1].FLabel?
    requires Agree(c, frame, off, rty, m, f, st) && !f.FLost?
    requires MachineOver(ExpandAll(c, frame, off), M.Run(ExpandAll(c, frame, off), st, n))
    ensures F.Halted(c, F.FRun(c, f, k))
    ensures Agree(c, frame, off, rty, m, F.FRun(c, f, k), M.Run(ExpandAll(c, frame, off), st, n))
    decreases n
  {
    hide M.Run, ExpandAll, CodeOk, Data;
    var prog := ExpandAll(c, frame, off);
    k := 0;
    MRunZero(prog, st);
    if F.Halted(c, f) {
      OverStays(c, frame, off, rty, m, f, st, n);
    } else {
      var i := OpSimulates(c, frame, off, rty, m, f, st.cpu);
      var f' := FlatStep(c, f);
      var st' := M.Run(prog, st, i);
      F.FRunOne(c, f);
      if f'.FLost? {
        k := 1;
      } else if i <= n {
        M.RunAdd(prog, st, i, n - i);
        k := FlatIsOver(c, frame, off, rty, m, f', st', n - i);
        F.FRunAdd(c, f, 1, k);
        k := k + 1;
      } else {
        M.RunAdd(prog, st, n, i - n);
        OverRun(prog, M.Run(prog, st, n), i - n);
        k := 1;
        if f'.FAt? { PosEnd(c, frame, off, f'); }
      }
    }
  }

  lemma OverRun(prog: M.Code, st: M.State, n: nat)
    requires MachineOver(prog, st)
    ensures M.Run(prog, st, n) == st
  {
  }

  lemma OverStays(c: F.Flat, frame: Frame, off: int, rty: Ty, m: Mem, f: F.FPoint, st: M.State, n: nat)
    requires Agree(c, frame, off, rty, m, f, st) && F.Halted(c, f) && !f.FLost? && c != []
    ensures M.Run(ExpandAll(c, frame, off), st, n) == st
  {
    ExpandAt(c, 0, frame, off);
    OverRun(ExpandAll(c, frame, off), st, n);
  }

  /** Only the end of the flat code is at the end of the program. */
  lemma PosEnd(c: F.Flat, frame: Frame, off: int, f: F.FPoint)
    requires c != [] && f.FAt? && f.pc <= |c| && Pos(c, f.pc, frame, off) >= |ExpandAll(c, frame, off)|
    ensures f.pc == |c|
  {
    if f.pc < |c| {
      ExpandAt(c, f.pc, frame, off);
      ExpandNonEmpty(c[f.pc], frame, off);
    }
  }

  lemma ExpandNonEmpty(op: F.Op, frame: Frame, off: int)
    ensures |Expand(op, frame, off)| > 0
  {
    if op.FEval? { CompileNonEmpty(op.e, frame, off, op.tag); }
  }
}
