/** The whole way from a typed structured function to its instructions. */
module CompilerCorrect {
  import opened Options
  import opened Words
  import opened Memory
  import opened Expressions
  import opened Statements
  import opened ExprCode
  import L = Lowering
  import opened LabelsApart
  import opened JumpsResolve
  import FC = FlatCorrect
  import Layout
  import LoweringRuns
  import opened Backend
  import M = Machine
  import F = FlatCode
  import C = ExprCorrect

  // ---------- types ----------

  predicate MaybeTyped(e: Option<Expr>, types: Types) {
    e.Some? ==> WellTyped(e.value, types)
  }

  /** Every expression is typed, a switch tests an `int`, and returned values have the function's type. */
  predicate StmtTyped(s: Stmt, types: Types, rty: Ty) {
    match s
    case Do(e) => WellTyped(e, types)
    case Seq(a, b) => StmtTyped(a, types, rty) && StmtTyped(b, types, rty)
    case If(c, t) => WellTyped(c, types) && StmtTyped(t, types, rty)
    case IfElse(c, t, f) => WellTyped(c, types) && StmtTyped(t, types, rty) && StmtTyped(f, types, rty)
    case While(c, b) => WellTyped(c, types) && StmtTyped(b, types, rty)
    case DoWhile(b, c) => WellTyped(c, types) && StmtTyped(b, types, rty)
    case For(i, c, st, b) =>
      MaybeTyped(i, types) && MaybeTyped(c, types) && MaybeTyped(st, types) && StmtTyped(b, types, rty)
    case Switch(e, b) => WellTyped(e, types) && TypeOf(e) == Int && StmtTyped(b, types, rty)
    case Case(_, _, b) => StmtTyped(b, types, rty)
    case Default(b) => StmtTyped(b, types, rty)
    case Labeled(_, b) => StmtTyped(b, types, rty)
    case Return(e) => e.Some? ==> WellTyped(e.value, types) && TypeOf(e.value) == rty
    case _ => true
  }

  predicate NodeTyped(n: L.Node, types: Types, rty: Ty) {
    match n
    case Evaluate(e) => WellTyped(e, types)
    case Test(c, t, None) => WellTyped(c, types) && NodeTyped(t, types, rty)
    case Test(c, t, Some(f)) => WellTyped(c, types) && NodeTyped(t, types, rty) && NodeTyped(f, types, rty)
    case TestTemp(_, t) => NodeTyped(t, types, rty)
    case SetTemp(e) => WellTyped(e, types) && TypeOf(e) == Int
    case Compound(ss) => forall x :: x in ss ==> NodeTyped(x, types, rty)
    case Leave(e) => e.Some? ==> WellTyped(e.value, types) && TypeOf(e.value) == rty
    case _ => true
  }

  /** The expressions of an operation are typed, and returns go to the end label. */
  predicate OpTyped(op: F.Op, types: Types, rty: Ty, ret: nat) {
    match op
    case FEval(e, _) => WellTyped(e, types)
    case FBranch(e, _, _) => WellTyped(e, types)
    case FSetTemp(e, _) => WellTyped(e, types) && TypeOf(e) == Int
    case FReturn(e, _, l) => WellTyped(e, types) && TypeOf(e) == rty && l == ret
    case _ => true
  }

  lemma {:induction false} TestsTyped(cases: seq<(int, nat)>, types: Types, rty: Ty)
    ensures forall x :: x in L.TestNodes(cases) ==> NodeTyped(x, types, rty)
    decreases |cases|
  {
    if cases != [] {
      TestsTyped(cases[1..], types, rty);
      assert NodeTyped(L.Jump(cases[0].1), types, rty);
    }
  }

  lemma LeafLowered(s: Stmt, d: L.Dest, m: L.Marks, types: Types, rty: Ty)
    requires StmtTyped(s, types, rty) && L.Lower(s, d, m).Ok?
    requires s.Skip? || s.Do? || s.Break? || s.Continue? || s.Goto? || s.Return?
    ensures NodeTyped(L.Lower(s, d, m).node, types, rty)
  {
    hide WellTyped;
  }

  lemma {:induction false} LowerTyped(s: Stmt, d: L.Dest, m: L.Marks, types: Types, rty: Ty)
    requires StmtTyped(s, types, rty) && L.Lower(s, d, m).Ok?
    ensures NodeTyped(L.Lower(s, d, m).node, types, rty)
    decreases s, 1
  {
    hide L.Lower, L.SwitchNodes, F.RangeCases, WellTyped;
    match s
    case Seq(a, b) =>
      L.SeqLowered(s, d, m);
      LowerTyped(a, d, m, types, rty);
      LowerTyped(b, d, L.Lower(a, d, m).marks, types, rty);
    case If(_, t) =>
      L.IfLowered(s, d, m);
      LowerTyped(t, d, m, types, rty);
    case IfElse(_, t, f) =>
      L.IfElseLowered(s, d, m);
      LowerTyped(t, d, m, types, rty);
      LowerTyped(f, d, L.Lower(t, d, m).marks, types, rty);
    case While(_, _) => LoopTyped(s, d, m, types, rty);
    case DoWhile(_, _) => LoopTyped(s, d, m, types, rty);
    case For(_, _, _, _) => LoopTyped(s, d, m, types, rty);
    case Switch(_, b) =>
      L.SwitchLowered(s, d, m);
      var d1, m1 := d.(brk := Some(m.tag + 2), inSwitch := true), m.(tag := m.tag + 2, cases := [], dflt := None);
      LowerTyped(b, d1, m1, types, rty);
      var r := L.Lower(b, d1, m1);
      SwitchNodesTyped(s.scrutinee, r.node, r.marks.cases, r.marks.dflt, m.tag + 1, m.tag + 2, types, rty);
    case Case(_, _, b) => L.LabelLowered(s, d, m); LowerTyped(b, d, L.LabelMarks(s, m), types, rty);
    case Default(b) => L.LabelLowered(s, d, m); LowerTyped(b, d, L.LabelMarks(s, m), types, rty);
    case Labeled(_, b) => L.LabelLowered(s, d, m); LowerTyped(b, d, L.LabelMarks(s, m), types, rty);
    case _ => LeafLowered(s, d, m, types, rty);
  }

  lemma LoopTyped(s: Stmt, d: L.Dest, m: L.Marks, types: Types, rty: Ty)
    requires s.While? || s.DoWhile? || s.For?
    requires StmtTyped(s, types, rty) && L.Lower(s, d, m).Ok?
    ensures NodeTyped(L.Lower(s, d, m).node, types, rty)
    decreases s, 0
  {
    hide NodeTyped;
    match s {
      case While(c, b) =>
        var d1, m1 := d.(brk := Some(m.tag + 2), cnt := Some(m.tag + 1)), m.(tag := m.tag + 2);
        LowerTyped(b, d1, m1, types, rty);
        WhileNodesTyped(c, L.Lower(b, d1, m1).node, m.tag + 1, m.tag + 2, types, rty);
      case DoWhile(b, c) =>
        var d1, m1 := d.(brk := Some(m.tag + 3), cnt := Some(m.tag + 1)), m.(tag := m.tag + 3);
        LowerTyped(b, d1, m1, types, rty);
        DoNodesTyped(c, L.Lower(b, d1, m1).node, m.tag + 1, m.tag + 2, m.tag + 3, types, rty);
      case For(i, c, st, b) =>
        var d1, m1 := d.(brk := Some(m.tag + 3), cnt := Some(m.tag + 2)), m.(tag := m.tag + 3);
        LowerTyped(b, d1, m1, types, rty);
        ForNodesTyped(i, c, st, L.Lower(b, d1, m1).node, m.tag + 1, m.tag + 2, m.tag + 3, types, rty);
    }
  }

  lemma WhileNodesTyped(c: Expr, x: L.Node, l: nat, e: nat, types: Types, rty: Ty)
    requires WellTyped(c, types) && NodeTyped(x, types, rty)
    ensures NodeTyped(L.Compound([L.LabelHere(l), L.ExitUnless(c, e), x, L.Jump(l), L.LabelHere(e)]), types, rty)
  {
    ExitTyped(c, e, types, rty);
  }

  lemma DoNodesTyped(c: Expr, x: L.Node, b: nat, l: nat, e: nat, types: Types, rty: Ty)
    requires WellTyped(c, types) && NodeTyped(x, types, rty)
    ensures var test := L.Test(c, L.Jump(b), Some(L.Jump(e)));
            NodeTyped(L.Compound([L.LabelHere(b), x, L.LabelHere(l), test, L.LabelHere(e)]), types, rty)
  {
    assert NodeTyped(L.Jump(b), types, rty) && NodeTyped(L.Jump(e), types, rty);
    assert NodeTyped(L.Test(c, L.Jump(b), Some(L.Jump(e))), types, rty);
  }

  lemma ForNodesTyped(i: Option<Expr>, c: Option<Expr>, st: Option<Expr>, x: L.Node, l: nat, t: nat, e: nat,
                      types: Types, rty: Ty)
    requires MaybeTyped(i, types) && MaybeTyped(c, types) && MaybeTyped(st, types) && NodeTyped(x, types, rty)
    ensures NodeTyped(L.Compound(L.ForNodes(i, c, st, x, l, t, e)), types, rty)
  {
    if c.Some? { ExitTyped(c.value, e, types, rty); }
  }

  lemma SwitchNodesTyped(e: Expr, x: L.Node, cases: seq<(int, nat)>, dflt: Option<nat>, t: nat, end: nat,
                         types: Types, rty: Ty)
    requires WellTyped(e, types) && TypeOf(e) == Int && NodeTyped(x, types, rty)
    ensures NodeTyped(L.Compound(L.SwitchNodes(e, x, cases, dflt, t, end)), types, rty)
  {
    hide L.TestNodes;
    TestsTyped(cases, types, rty);
  }

  lemma ExitTyped(c: Expr, l: nat, types: Types, rty: Ty)
    requires WellTyped(c, types)
    ensures NodeTyped(L.ExitUnless(c, l), types, rty)
  {
    assert NodeTyped(L.Empty, types, rty) && NodeTyped(L.Jump(l), types, rty);
  }

  ghost predicate AllTyped(c: F.Flat, types: Types, rty: Ty, ret: nat) {
    forall i :: 0 <= i < |c| ==> OpTyped(c[i], types, rty, ret)
  }

  lemma TestTyped(n: L.Node, labels: map<LabelName, nat>, ret: nat, tag: nat, types: Types, rty: Ty, thn: F.Flat)
    requires NodeTyped(n, types, rty) && (n.TestTemp? || (n.Test? && n.els.None?))
    requires thn == L.LayOut(n.thn, labels, ret, tag + (if n.Test? then L.LabelCount(n.cond) else 0) + 2).code
    requires AllTyped(thn, types, rty, ret)
    ensures AllTyped(L.LayOut(n, labels, ret, tag).code, types, rty, ret)
  {
    hide L.LabelCount, L.LayOutAll, WellTyped;
  }

  lemma TestElseTyped(n: L.Node, labels: map<LabelName, nat>, ret: nat, tag: nat, types: Types, rty: Ty)
    requires NodeTyped(n, types, rty) && n.Test? && n.els.Some?
    requires var x := L.LayOut(n.thn, labels, ret, tag + L.LabelCount(n.cond) + 2);
             && AllTyped(x.code, types, rty, ret)
             && AllTyped(L.LayOut(n.els.value, labels, ret, x.tag).code, types, rty, ret)
    ensures AllTyped(L.LayOut(n, labels, ret, tag).code, types, rty, ret)
  {
    hide L.LabelCount, L.LayOut, WellTyped;
    L.TestElseLaid(n, labels, ret, tag);
  }

  lemma LeafTyped(n: L.Node, labels: map<LabelName, nat>, ret: nat, tag: nat, types: Types, rty: Ty)
    requires NodeTyped(n, types, rty) && !n.Test? && !n.TestTemp? && !n.Compound?
    ensures AllTyped(L.LayOut(n, labels, ret, tag).code, types, rty, ret)
  {
    hide L.LabelCount, L.LayOutAll, WellTyped;
  }

  lemma {:induction false} LayOutTyped(n: L.Node, labels: map<LabelName, nat>, ret: nat, tag: nat, types: Types,
      rty: Ty)
    requires NodeTyped(n, types, rty)
    ensures AllTyped(L.LayOut(n, labels, ret, tag).code, types, rty, ret)
    decreases n, 1
  {
    hide L.LabelCount, WellTyped, AllTyped;
    match n
    case Test(c, t, None) =>
      var end := tag + L.LabelCount(c) + 2;
      LayOutTyped(t, labels, ret, end, types, rty);
      TestTyped(n, labels, ret, tag, types, rty, L.LayOut(t, labels, ret, end).code);
    case Test(c, t, Some(f)) =>
      var end := tag + L.LabelCount(c) + 2;
      LayOutTyped(t, labels, ret, end, types, rty);
      LayOutTyped(f, labels, ret, L.LayOut(t, labels, ret, end).tag, types, rty);
      TestElseTyped(n, labels, ret, tag, types, rty);
    case TestTemp(_, t) =>
      LayOutTyped(t, labels, ret, tag + 2, types, rty);
      TestTyped(n, labels, ret, tag, types, rty, L.LayOut(t, labels, ret, tag + 2).code);
    case Compound(ss) => LayOutAllTyped(ss, labels, ret, tag, types, rty);
    case _ => LeafTyped(n, labels, ret, tag, types, rty);
  }

  lemma LayOutAllTyped(ss: seq<L.Node>, labels: map<LabelName, nat>, ret: nat, tag: nat, types: Types, rty: Ty)
    requires forall x :: x in ss ==> NodeTyped(x, types, rty)
    ensures AllTyped(L.LayOutAll(ss, labels, ret, tag).code, types, rty, ret)
    decreases ss, 0
  {
    if ss != [] {
      LayOutTyped(ss[0], labels, ret, tag, types, rty);
      LayOutAllTyped(ss[1..], labels, ret, L.LayOut(ss[0], labels, ret, tag).tag, types, rty);
    }
  }

  // ---------- the compiled function ----------

  /** The instructions of a function whose locals are in `frame` and whose temporaries begin below `off`. */
  function Compiled(body: Stmt, first: nat, frame: Frame, off: int): M.Code
    requires L.Translate(body, first).Function?
  {
    ExpandAll(L.Translate(body, first).code, frame, off)
  }

  lemma TranslateTyped(body: Stmt, first: nat, types: Types, rty: Ty)
    requires L.Translate(body, first).Function? && StmtTyped(body, types, rty)
    ensures var t := L.Translate(body, first);
            AllTyped(t.code, types, rty, t.ret) && t.code != [] && t.code[|t.code| - 1] == F.FLabel(t.ret)
  {
    hide L.Lower, L.LayOut, StmtTyped, NodeTyped;
    var t := L.Translate(body, first);
    var d, m := L.Dest(None, None, false), L.Marks(t.ret, [], None, map[]);
    var r := L.Lower(body, d, m);
    LowerTyped(body, d, m, types, rty);
    LayOutTyped(r.node, t.labels, t.ret, r.marks.tag, types, rty);
  }

  lemma TranslateOk(body: Stmt, first: nat, frame: Frame, off: int, rty: Ty)
    requires L.Translate(body, first).Function? && StmtTyped(body, TypesOf(frame), rty) && C.FrameOk(frame, off)
    ensures var c := L.Translate(body, first).code;
            CodeOk(c, frame, off, rty) && c != [] && c[|c| - 1].FLabel?
  {
    hide L.Translate, StmtTyped;
    var types := TypesOf(frame);
    var t := L.Translate(body, first);
    var c := t.code;
    TranslateApart(body, first);
    TranslateTyped(body, first, types, rty);
    ApartUnique(c);
    F.TargetIs(c, t.ret, |c| - 1);
    forall i | 0 <= i < |c|
      ensures OpOk(c[i], c, types, rty)
    {
      forall l | l in TargetsOf(c[i])
        ensures F.Target(c, l) < |c|
      {
        EveryJumpResolves(body, first, i, l);
      }
      assert OpTyped(c[i], types, rty, t.ret);
    }
  }

  /** The machine's state when the function's code has been left. */
  ghost predicate EndsWith(frame: Frame, off: int, rty: Ty, m: Mem, out: Env, result: Option<int>, prog: M.Code,
      st: M.State) {
    && st.Running? && st.pc == |prog|
    && C.Agrees(frame, out, st.cpu.mem)
    && C.Kept(frame, frame.Keys, off, m, st.cpu.mem)
    && (result.Some? ==> Holds(rty, st.cpu.rax, result.value))
  }

  /** Whatever a terminating run of the function does, the machine does: same variables, the returned value
      in the accumulator, nothing else above the temporaries changed; a bad division faults. */
  lemma MachineRefinesFunction(body: Stmt, first: nat, frame: Frame, off: int, rty: Ty, s: M.Cpu, env: Env, k: nat)
    returns (n: nat)
    requires L.Translate(body, first).Function? && StmtTyped(body, TypesOf(frame), rty) && C.FrameOk(frame, off)
    requires C.Agrees(frame, env, s.mem)
    ensures var p := Statements.Run(RestartsBody, body, In(body, Stop, env), k);
            var prog := Compiled(body, first, frame, off);
            var st := M.Run(prog, M.Running(0, s), n);
            match p
            case In(_, _, _) => true
            case Left(out, result) => EndsWith(frame, off, rty, s.mem, out, result, prog, st)
            case Crashed => st.Trapped?
            case Stuck => false
  {
    hide Statements.Run, F.FRun, L.Translate, M.Run, ExpandAll, CodeOk, FC.Program;
    var p := Statements.Run(RestartsBody, body, In(body, Stop, env), k);
    var t := L.Translate(body, first);
    var c := t.code;
    n := 0;
    if !p.In? {
      TranslateOk(body, first, frame, off, rty);
      LoweringRuns.StartMatches(body, first, env, None);
      var f := F.FAt(0, env, None, None);
      var j := FC.Forward(c, Layout.Names(t.labels, t.ret), body, In(body, Stop, env), f, k);
      StartAgrees(c, frame, off, rty, env, s);
      n := MachineFollows(c, frame, off, rty, s.mem, f, M.Running(0, s), j);
      ExpandAt(c, 0, frame, off);
    }
  }

  lemma StartAgrees(c: F.Flat, frame: Frame, off: int, rty: Ty, env: Env, s: M.Cpu)
    requires c != [] && C.Agrees(frame, env, s.mem)
    ensures Agree(c, frame, off, rty, s.mem, F.FAt(0, env, None, None), M.Running(0, s))
  {
    ExpandAt(c, 0, frame, off);
  }

  /** Whenever the machine leaves the code or faults, the function terminates in the same way. */
  lemma FunctionExplainsMachine(body: Stmt, first: nat, frame: Frame, off: int, rty: Ty, s: M.Cpu, env: Env, n: nat)
    returns (k: nat)
    requires L.Translate(body, first).Function? && StmtTyped(body, TypesOf(frame), rty) && C.FrameOk(frame, off)
    requires C.Agrees(frame, env, s.mem)
    requires var prog := Compiled(body, first, frame, off);
             MachineOver(prog, M.Run(prog, M.Running(0, s), n))
    ensures var p := Statements.Run(RestartsBody, body, In(body, Stop, env), k);
            var prog := Compiled(body, first, frame, off);
            var st := M.Run(prog, M.Running(0, s), n);
            if st.Trapped? then p == Crashed
            else p.Left? && EndsWith(frame, off, rty, s.mem, p.env, p.result, prog, st)
  {
    hide Statements.Run, F.FRun, L.Translate, M.Run, ExpandAll, CodeOk, FC.Program;
    var t := L.Translate(body, first);
    var c := t.code;
    TranslateOk(body, first, frame, off, rty);
    LoweringRuns.StartMatches(body, first, env, None);
    var f := F.FAt(0, env, None, None);
    StartAgrees(c, frame, off, rty, env, s);
    var j := FlatIsOver(c, frame, off, rty, s.mem, f, M.Running(0, s), n);
    k := FC.Backward(c, Layout.Names(t.labels, t.ret), body, In(body, Stop, env), f, j);
    ExpandAt(c, 0, frame, off);
  }

  /** With C's rule for `continue`, on every input for which C's run never comes to one that a do-while loop
      catches. */
  lemma MachineRefinesC(body: Stmt, first: nat, frame: Frame, off: int, rty: Ty, s: M.Cpu, env: Env, k: nat)
    returns (n: nat)
    requires L.Translate(body, first).Function? && StmtTyped(body, TypesOf(frame), rty) && C.FrameOk(frame, off)
    requires C.Agrees(frame, env, s.mem) && forall m: nat :: !CaughtAt(body, In(body, Stop, env), m)
    ensures var p := Statements.Run(TestsCondition, body, In(body, Stop, env), k);
            var prog := Compiled(body, first, frame, off);
            var st := M.Run(prog, M.Running(0, s), n);
            match p
            case In(_, _, _) => true
            case Left(out, result) => EndsWith(frame, off, rty, s.mem, out, result, prog, st)
            case Crashed => st.Trapped?
            case Stuck => false
  {
    hide Statements.Run, M.Run, L.Translate, StmtTyped, C.FrameOk, C.Agrees, EndsWith, CaughtAt;
    SameUntilCaught(body, In(body, Stop, env), k);
    n := MachineRefinesFunction(body, first, frame, off, rty, s, env, k);
  }

  /** And the other way round. */
  lemma CExplainsMachine(body: Stmt, first: nat, frame: Frame, off: int, rty: Ty, s: M.Cpu, env: Env, n: nat)
    returns (k: nat)
    requires L.Translate(body, first).Function? && StmtTyped(body, TypesOf(frame), rty) && C.FrameOk(frame, off)
    requires C.Agrees(frame, env, s.mem) && forall m: nat :: !CaughtAt(body, In(body, Stop, env), m)
    requires var prog := Compiled(body, first, frame, off);
             MachineOver(prog, M.Run(prog, M.Running(0, s), n))
    ensures var p := Statements.Run(TestsCondition, body, In(body, Stop, env), k);
            var prog := Compiled(body, first, frame, off);
            var st := M.Run(prog, M.Running(0, s), n);
            if st.Trapped? then p == Crashed
            else p.Left? && EndsWith(frame, off, rty, s.mem, p.env, p.result, prog, st)
  {
    hide Statements.Run, M.Run, L.Translate, StmtTyped, C.FrameOk, C.Agrees, EndsWith, CaughtAt;
    k := FunctionExplainsMachine(body, first, frame, off, rty, s, env, n);
    SameUntilCaught(body, In(body, Stop, env), k);
  }
}
