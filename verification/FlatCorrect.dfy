/** The lowered form of a function and its structured form have the same terminating runs. */
module FlatCorrect {
  import opened Options
  import opened Words
  import opened Expressions
  import opened Statements
  import opened FlatCode
  import opened Layout
  import opened FlatSim

  /** The flat code of a whole function: its body from the start, the return label at the end, and every
      user label defined in the body. */
  ghost predicate Program(prog: Flat, whole: Stmt, names: Names) {
    && Unique(prog)
    && StmtAt(prog, 0, whole, Stop, names)
    && |prog| > 0 && prog[|prog| - 1] == FLabel(names.ret)
    && forall n :: n in names.labels ==> Find(ByName(n), whole, Stop).At?
  }

  /** A `break` or `continue` on its way out: the jump is at `p`, the rest of the continuation at `q`. */
  ghost predicate JumpsOut(prog: Flat, p: nat, q: nat, s: Stmt, k: Cont, names: Names) {
    && Jumps(prog, p) && ContAt(prog, q, k, names)
    && prog[p].to in (if s.Break? then BreakSet(prog, q, k, names) else ContSet(prog, q, k, names))
  }

  ghost predicate PointAt(prog: Flat, p: nat, s: Stmt, k: Cont, names: Names) {
    if s.Break? || s.Continue? then exists q :: JumpsOut(prog, p, q, s, k, names)
    else StmtAt(prog, p, s, k, names)
  }

  lemma Begin(prog: Flat, p: nat, s: Stmt, k: Cont, names: Names)
    requires StmtAt(prog, p, s, k, names)
    ensures PointAt(prog, p, s, k, names)
  {
    if s.Break? || s.Continue? { assert JumpsOut(prog, p, p + 1, s, k, names); }
  }

  /** A point of the structured run and a point of the flat run that correspond. */
  ghost predicate Matches(prog: Flat, names: Names, p: Point, f: FPoint) {
    match p
    case In(s, k, env) => f.FAt? && f.env == env && f.result == None && PointAt(prog, f.pc, s, k, names)
    case Left(env, result) => f.FAt? && f.pc == |prog| && f.env == env && f.result == result
    case Crashed => f.FCrashed?
    case Stuck => false
  }

  // ---------- a measure for steps without code ----------

  function Size(s: Stmt): nat {
    match s
    case Seq(a, b) => 1 + Size(a) + Size(b)
    case _ => 1
  }

  function ContSize(k: Cont): nat {
    match k
    case Stop => 0
    case Then(s, k') => Size(s) + ContSize(k')
    case EndIf(_, k') => 1 + ContSize(k')
    case InWhile(_, _, k') => 1 + ContSize(k')
    case InDo(_, _, k') => 1 + ContSize(k')
    case InFor(_, _, _, k') => 1 + ContSize(k')
    case InSwitch(k') => 1 + ContSize(k')
  }

  function Measure(p: Point): nat {
    if p.In? then Size(p.s) + ContSize(p.k) else 0
  }

  // ---------- flat steps ----------

  function StepOf(prog: Flat, f: FPoint): FPoint
    requires !Halted(prog, f)
  {
    FStep(prog, f.pc, f.env, f.temp, f.result)
  }

  lemma Advance(prog: Flat, f: FPoint, j: nat)
    requires !Halted(prog, FRun(prog, f, j))
    ensures FRun(prog, f, j + 1) == StepOf(prog, FRun(prog, f, j))
  {
    FRunAdd(prog, f, j, 1);
    FRunOne(prog, FRun(prog, f, j));
  }

  /** A jump followed by the label it leads to. */
  lemma JumpAndLabel(prog: Flat, f: FPoint, j: nat) returns (j': nat)
    requires FRun(prog, f, j).FAt?
    requires var g := FRun(prog, f, j);
             Jumps(prog, g.pc) && Target(prog, prog[g.pc].to) < |prog|
    ensures var g := FRun(prog, f, j);
            j' > j && FRun(prog, f, j') == g.(pc := Target(prog, prog[g.pc].to) + 1)
  {
    hide FRun;
    Advance(prog, f, j);
    Advance(prog, f, j + 1);
    j' := j + 2;
  }

  lemma OneLabel(prog: Flat, f: FPoint, j: nat)
    requires FRun(prog, f, j).FAt? && Defines(prog, FRun(prog, f, j).pc)
    ensures FRun(prog, f, j + 1) == FRun(prog, f, j).(pc := FRun(prog, f, j).pc + 1)
  {
    hide FRun;
    Advance(prog, f, j);
  }

  lemma OneJump(prog: Flat, f: FPoint, j: nat)
    requires FRun(prog, f, j).FAt? && Jumps(prog, FRun(prog, f, j).pc)
    ensures FRun(prog, f, j + 1) == FRun(prog, f, j).(pc := Target(prog, prog[FRun(prog, f, j).pc].to))
  {
    hide FRun;
    Advance(prog, f, j);
  }

  /** The test in front of a loop body: past it, or past the label it exits to. */
  lemma ExitTestRun(prog: Flat, f: FPoint, j: nat, c: Expr) returns (j': nat)
    requires Unique(prog) && FRun(prog, f, j).FAt? && ExitTest(prog, FRun(prog, f, j).pc, c)
    requires Target(prog, prog[FRun(prog, f, j).pc + 3].to) < |prog|
    ensures j' > j
    ensures var g := FRun(prog, f, j);
            match Eval(c, g.env)
            case DivideError => FRun(prog, f, j') == FCrashed
            case Value(v, env1) =>
              FRun(prog, f, j') == g.(env := env1, temp := None, pc := if v != 0 then g.pc + 5
                                                         else Target(prog, prog[g.pc + 3].to) + 1)
  {
    hide FRun;
    var g := FRun(prog, f, j);
    var p := g.pc;
    Advance(prog, f, j);
    j' := j + 1;
    match Eval(c, g.env)
    case DivideError =>
    case Value(v, env1) =>
      FlatCode.TargetIs(prog, prog[p].ifZero, p + 2);
      FlatCode.TargetIs(prog, prog[p + 1].to, p + 4);
      if v != 0 {
        j' := JumpAndLabel(prog, f, j');
      } else {
        OneLabel(prog, f, j');
        j' := JumpAndLabel(prog, f, j' + 1);
      }
  }

  /** The comparisons of a switch. */
  lemma {:induction false} TestsRun(prog: Flat, f: FPoint, j: nat, cases: seq<(int, Label)>) returns (j': nat)
    requires Unique(prog) && FRun(prog, f, j).FAt? && FRun(prog, f, j).temp.Some?
    requires TestsAt(prog, FRun(prog, f, j).pc, cases)
    ensures j' >= j
    ensures var g := FRun(prog, f, j);
            FRun(prog, f, j') ==
              match FirstCase(cases, g.temp.value)
              case Some(l) => g.(pc := Target(prog, l))
              case None => g.(pc := g.pc + 3 * |cases|)
    decreases |cases|
  {
    hide FRun;
    j' := j;
    if cases != [] {
      var g := FRun(prog, f, j);
      var p := g.pc;
      FlatCode.TargetIs(prog, prog[p].ifDiff, p + 2);
      Advance(prog, f, j);
      if ToSigned(Int, cases[0].0) == g.temp.value {
        OneJump(prog, f, j + 1);
        j' := j + 2;
      } else {
        OneLabel(prog, f, j + 1);
        j' := TestsRun(prog, f, j + 2, cases[1..]);
      }
    }
  }

  // ---------- one structured step ----------

  /** The flat run gets from `f` to a point that matches `p`; it moves, or the measure drops. */
  ghost predicate InStep(prog: Flat, names: Names, f: FPoint, j: nat, p: Point, before: nat) {
    Matches(prog, names, p, FRun(prog, f, j)) && (j > 0 || (p.In? && Measure(p) < before))
  }

  lemma SkipAt(prog: Flat, q: nat, k: Cont, names: Names)
    ensures StmtAt(prog, q, Skip, k, names) <==> ContAt(prog, q, k, names)
    ensures ContAt(prog, q, k, names) ==> PointAt(prog, q, Skip, k, names)
  {
    hide ContAt, BreakSet, ContSet;
  }

  /** A jump at `q` leads to the label in front of the continuation. */
  ghost predicate JumpsTo(prog: Flat, q: nat, k: Cont, names: Names) {
    && Jumps(prog, q)
    && var r := Target(prog, prog[q].to);
       r < |prog| && ContAt(prog, r + 1, k, names)
  }

  /** Where the code of a continuation goes when it is reached. */
  lemma EntersNext(prog: Flat, q: nat, k: Cont, names: Names)
    requires ContAt(prog, q, k, names)
    ensures match k
            case Then(s, k') => StmtAt(prog, q, s, k', names)
            case EndIf(false, k') => Defines(prog, q) && ContAt(prog, q + 1, k', names)
            case InWhile(c, b, k') => Jumps(prog, q) && StmtAt(prog, Target(prog, prog[q].to), While(c, b), k', names)
            case EndIf(true, k') => JumpsTo(prog, q, k', names)
            case InSwitch(k') => JumpsTo(prog, q, k', names)
            case _ => true
  {
    hide Check, DoTail, Evaluates;
  }

  lemma SkipStep(prog: Flat, names: Names, k: Cont, env: Env, f: FPoint) returns (j: nat)
    requires Unique(prog) && |prog| > 0 && Matches(prog, names, In(Skip, k, env), f)
    ensures InStep(prog, names, f, j, StepSkip(k, env), Measure(In(Skip, k, env)))
  {
    hide FRun, StmtAt, Check, ContAt, BreakSet, ContSet, Target, Eval, Unique;
    FRunZero(prog, f);
    var q := f.pc;
    SkipAt(prog, q, k, names);
    EntersNext(prog, q, k, names);
    match k
    case Stop => j := AtTheEnd(prog, names, f);
    case Then(s, k') => j := 0; Begin(prog, q, s, k', names);
    case EndIf(true, k') =>
      j := JumpAndLabel(prog, f, 0);
      SkipAt(prog, Target(prog, prog[q].to) + 1, k', names);
    case EndIf(false, k') => OneLabel(prog, f, 0); j := 1; SkipAt(prog, q + 1, k', names);
    case InWhile(c, b, k') => OneJump(prog, f, 0); j := 1;
    case InDo(b, c, k') => j := DoTestRun(prog, names, b, c, k', env, f);
    case InFor(c, st, b, k') => j := ForStepRun(prog, names, c, st, b, k', env, f);
    case InSwitch(k') =>
      j := JumpAndLabel(prog, f, 0);
      SkipAt(prog, Target(prog, prog[q].to) + 1, k', names);
  }

  lemma AtTheEnd(prog: Flat, names: Names, f: FPoint) returns (j: nat)
    requires f.FAt? && ContAt(prog, f.pc, Stop, names)
    ensures j > 0 && FRun(prog, f, j) == f.(pc := |prog|)
  {
    hide FRun;
    FRunZero(prog, f);
    OneLabel(prog, f, 0);
    j := 1;
  }

  lemma FRunZero(prog: Flat, f: FPoint)
    ensures FRun(prog, f, 0) == f
  {
  }

  lemma DoTestParts(prog: Flat, q: nat, b: Stmt, c: Expr, k: Cont, names: Names)
    requires ContAt(prog, q, InDo(b, c, k), names)
    ensures q + 8 <= |prog| && prog[q + 2].FJump? && DoTail(prog, q, c, prog[q + 2].to)
    ensures StmtAt(prog, Target(prog, prog[q + 2].to), DoWhile(b, c), k, names) && ContAt(prog, q + 8, k, names)
  {
    hide Check, DoTail, Target;
  }

  lemma DoTestRun(prog: Flat, names: Names, b: Stmt, c: Expr, k: Cont, env: Env, f: FPoint) returns (j: nat)
    requires Unique(prog) && Matches(prog, names, In(Skip, InDo(b, c, k), env), f)
    ensures InStep(prog, names, f, j, StepSkip(InDo(b, c, k), env), 0)
  {
    hide FRun, StmtAt, Check, ContAt, BreakSet, ContSet, Target, Eval, Unique;
    SkipAt(prog, f.pc, InDo(b, c, k), names);
    DoTestParts(prog, f.pc, b, c, k, names);
    FRunZero(prog, f);
    var q := f.pc;
    OneLabel(prog, f, 0);
    Advance(prog, f, 1);
    j := 2;
    match Eval(c, env)
    case DivideError =>
    case Value(v, env1) =>
      if v != 0 {
        OneJump(prog, f, 2);
        j := 3;
      } else {
        FlatCode.TargetIs(prog, prog[q + 1].ifZero, q + 4);
        FlatCode.TargetIs(prog, prog[q + 5].to, q + 7);
        OneLabel(prog, f, 2);
        j := JumpAndLabel(prog, f, 3);
        SkipAt(prog, q + 8, k, names);
      }
  }

  lemma ForStepParts(prog: Flat, q: nat, c: Option<Expr>, st: Option<Expr>, b: Stmt, k: Cont, names: Names)
    requires ContAt(prog, q, InFor(c, st, b, k), names)
    ensures Defines(prog, q) && (st.Some? ==> Evaluates(prog, q + 1, st.value))
    ensures var j := q + 1 + StepOps(st);
            Jumps(prog, j) && StmtAt(prog, Target(prog, prog[j].to), For(None, c, st, b), k, names)
  {
    hide Check, Evaluates, Target;
  }

  lemma ForStepRun(prog: Flat, names: Names, c: Option<Expr>, st: Option<Expr>, b: Stmt, k: Cont, env: Env, f: FPoint)
    returns (j: nat)
    requires Unique(prog) && Matches(prog, names, In(Skip, InFor(c, st, b, k), env), f)
    ensures InStep(prog, names, f, j, StepSkip(InFor(c, st, b, k), env), 0)
  {
    hide FRun, StmtAt, Check, ContAt, BreakSet, ContSet, Target, Eval, Unique;
    SkipAt(prog, f.pc, InFor(c, st, b, k), names);
    ForStepParts(prog, f.pc, c, st, b, k, names);
    FRunZero(prog, f);
    OneLabel(prog, f, 0);
    j := 1;
    if st.Some? {
      Advance(prog, f, 1);
      j := 2;
    }
    if st.None? || Eval(st.value, env).Value? {
      OneJump(prog, f, j);
      j := j + 1;
    }
  }

  /** A jump out passes through a continuation that does not catch it. */
  lemma PassThrough(prog: Flat, names: Names, s: Stmt, k: Cont, p: nat, q: nat)
    requires s.Break? || s.Continue?
    requires k.Then? || k.EndIf? || (k.InSwitch? && s.Continue?)
    requires JumpsOut(prog, p, q, s, k, names)
    ensures PointAt(prog, p, s, k.k, names)
  {
    hide HeadMatches, DoTail, ExitTest, SwitchTail;
    match k
    case Then(t, k') => assert JumpsOut(prog, p, Check(prog, q, t, names).end, s, k', names);
    case EndIf(true, k') => assert JumpsOut(prog, p, Target(prog, prog[q].to) + 1, s, k', names);
    case EndIf(false, k') => assert JumpsOut(prog, p, q + 1, s, k', names);
    case InSwitch(k') => assert JumpsOut(prog, p, Target(prog, prog[q].to) + 1, s, k', names);
  }

  /** A `break` that its loop or switch catches lands on the end label. */
  lemma BreakLands(prog: Flat, names: Names, k: Cont, p: nat, q: nat)
    requires k.InWhile? || k.InDo? || k.InFor? || k.InSwitch?
    requires Unique(prog) && JumpsOut(prog, p, q, Break, k, names)
    ensures var r := Target(prog, prog[p].to);
            r < |prog| && StmtAt(prog, r + 1, Skip, k.k, names)
  {
    hide HeadMatches, ExitTest, SwitchTail;
    match k
    case InWhile(_, _, _) => FlatCode.TargetIs(prog, prog[q + 1].name, q + 1);
    case InDo(_, _, _) => FlatCode.TargetIs(prog, prog[q + 7].name, q + 7);
    case InFor(_, st, _, _) =>
      var e := q + 2 + StepOps(st);
      FlatCode.TargetIs(prog, prog[e].name, e);
    case InSwitch(_) =>
  }

  /** Outside every loop and switch there is nowhere to go. */
  lemma NoneAtTop(prog: Flat, names: Names, s: Stmt, p: nat, q: nat)
    requires s.Break? || s.Continue?
    ensures !JumpsOut(prog, p, q, s, Stop, names)
  {
  }

  lemma BreakStep(prog: Flat, names: Names, k: Cont, env: Env, f: FPoint) returns (j: nat)
    requires Unique(prog) && Matches(prog, names, In(Break, k, env), f)
    ensures InStep(prog, names, f, j, StepBreak(k, env), Measure(In(Break, k, env)))
  {
    hide FRun, StmtAt, Check, ContAt, BreakSet, ContSet, Target, Unique;
    FRunZero(prog, f);
    var q: nat :| JumpsOut(prog, f.pc, q, Break, k, names);
    j := 0;
    if k.Stop? {
      NoneAtTop(prog, names, Break, f.pc, q);
    } else if k.Then? || k.EndIf? {
      PassThrough(prog, names, Break, k, f.pc, q);
    } else {
      BreakLands(prog, names, k, f.pc, q);
      j := JumpAndLabel(prog, f, 0);
    }
  }

  /** A `continue` that a loop catches goes back to the loop, or to the step of a for loop. */
  lemma ContinueLands(prog: Flat, names: Names, k: Cont, p: nat, q: nat)
    requires k.InWhile? || k.InDo? || k.InFor?
    requires Unique(prog) && JumpsOut(prog, p, q, Continue, k, names)
    ensures var r := Target(prog, prog[p].to);
            match k
            case InWhile(c, b, k') => StmtAt(prog, r, While(c, b), k', names)
            case InDo(b, c, k') => StmtAt(prog, r, DoWhile(b, c), k', names)
            case _ => StmtAt(prog, r, Skip, k, names)
  {
    hide Check, DoTail, Evaluates, Unique;
    if k.InFor? {
      FlatCode.TargetIs(prog, prog[q].name, q);
      SkipAt(prog, q, k, names);
    }
  }

  lemma ContinueStep(prog: Flat, names: Names, k: Cont, env: Env, f: FPoint) returns (j: nat)
    requires Unique(prog) && Matches(prog, names, In(Continue, k, env), f)
    ensures InStep(prog, names, f, j, StepContinue(RestartsBody, k, env), Measure(In(Continue, k, env)))
  {
    hide FRun, StmtAt, Check, ContAt, BreakSet, ContSet, Target, Unique;
    FRunZero(prog, f);
    var q: nat :| JumpsOut(prog, f.pc, q, Continue, k, names);
    j := 0;
    if k.Stop? {
      NoneAtTop(prog, names, Continue, f.pc, q);
    } else if k.Then? || k.EndIf? || k.InSwitch? {
      PassThrough(prog, names, Continue, k, f.pc, q);
    } else {
      ContinueLands(prog, names, k, f.pc, q);
      OneJump(prog, f, 0);
      j := 1;
    }
  }

  lemma IfStep(prog: Flat, names: Names, whole: Stmt, c: Expr, t: Stmt, k: Cont, env: Env, f: FPoint)
    returns (j: nat)
    requires Unique(prog) && Matches(prog, names, In(If(c, t), k, env), f)
    ensures InStep(prog, names, f, j, Step(RestartsBody, whole, If(c, t), k, env), 0)
  {
    hide FRun, Check, ContAt, StmtAt, BreakSet, ContSet;
    IfParts(prog, f.pc, c, t, k, names);
    Begin(prog, f.pc + 1, t, EndIf(false, k), names);
    FRunZero(prog, f);
    Advance(prog, f, 0);
    j := 1;
    if Eval(c, env).Value? && Eval(c, env).v == 0 {
      OneLabel(prog, f, 1);
      j := 2;
      SkipAt(prog, Target(prog, prog[f.pc].ifZero) + 1, k, names);
    }
  }

  lemma IfElseStep(prog: Flat, names: Names, whole: Stmt, c: Expr, t: Stmt, e: Stmt, k: Cont, env: Env, f: FPoint)
    returns (j: nat)
    requires Unique(prog) && Matches(prog, names, In(IfElse(c, t, e), k, env), f)
    ensures InStep(prog, names, f, j, Step(RestartsBody, whole, IfElse(c, t, e), k, env), 0)
  {
    hide FRun, Check, ContAt, StmtAt, BreakSet, ContSet;
    IfElseParts(prog, f.pc, c, t, e, k, names);
    Begin(prog, f.pc + 1, t, EndIf(true, k), names);
    Begin(prog, Target(prog, prog[f.pc].ifZero) + 1, e, EndIf(false, k), names);
    FRunZero(prog, f);
    Advance(prog, f, 0);
    j := 1;
    if Eval(c, env).Value? && Eval(c, env).v == 0 {
      OneLabel(prog, f, 1);
      j := 2;
    }
  }

  lemma WhileStep(prog: Flat, names: Names, whole: Stmt, c: Expr, b: Stmt, k: Cont, env: Env, f: FPoint)
    returns (j: nat)
    requires Unique(prog) && Matches(prog, names, In(While(c, b), k, env), f)
    ensures InStep(prog, names, f, j, Step(RestartsBody, whole, While(c, b), k, env), 0)
  {
    hide FRun, Check, ContAt, StmtAt, BreakSet, ContSet;
    WhileParts(prog, f.pc, c, b, k, names);
    Begin(prog, f.pc + 6, b, InWhile(c, b, k), names);
    SkipAt(prog, Target(prog, prog[f.pc + 4].to) + 1, k, names);
    FRunZero(prog, f);
    OneLabel(prog, f, 0);
    j := ExitTestRun(prog, f, 1, c);
  }

  lemma DoStep(prog: Flat, names: Names, whole: Stmt, b: Stmt, c: Expr, k: Cont, env: Env, f: FPoint)
    returns (j: nat)
    requires Unique(prog) && Matches(prog, names, In(DoWhile(b, c), k, env), f)
    ensures InStep(prog, names, f, j, Step(RestartsBody, whole, DoWhile(b, c), k, env), 0)
  {
    hide FRun, Check, ContAt, StmtAt, BreakSet, ContSet;
    DoParts(prog, f.pc, b, c, k, names);
    Begin(prog, f.pc + 1, b, InDo(b, c, k), names);
    FRunZero(prog, f);
    OneLabel(prog, f, 0);
    j := 1;
  }

  lemma ForInitStep(prog: Flat, names: Names, whole: Stmt, i: Expr, c: Option<Expr>, st: Option<Expr>, b: Stmt,
                    k: Cont, env: Env, f: FPoint)
    returns (j: nat)
    requires Unique(prog) && Matches(prog, names, In(For(Some(i), c, st, b), k, env), f)
    ensures InStep(prog, names, f, j, Step(RestartsBody, whole, For(Some(i), c, st, b), k, env), 0)
  {
    hide FRun, Check, ContAt, StmtAt, BreakSet, ContSet;
    ForInit(prog, f.pc, i, c, st, b, k, names);
    FRunZero(prog, f);
    Advance(prog, f, 0);
    j := 1;
  }

  lemma ForTestStep(prog: Flat, names: Names, whole: Stmt, c: Option<Expr>, st: Option<Expr>, b: Stmt,
                    k: Cont, env: Env, f: FPoint)
    returns (j: nat)
    requires Unique(prog) && Matches(prog, names, In(For(None, c, st, b), k, env), f)
    ensures InStep(prog, names, f, j, Step(RestartsBody, whole, For(None, c, st, b), k, env), 0)
  {
    hide FRun, Check, ContAt, StmtAt, BreakSet, ContSet, Eval, Unique, Target;
    ForParts(prog, f.pc, c, st, b, k, names);
    Begin(prog, BodyStart(f.pc, c), b, InFor(c, st, b, k), names);
    if c.Some? { SkipAt(prog, Target(prog, prog[f.pc + 4].to) + 1, k, names); }
    FRunZero(prog, f);
    OneLabel(prog, f, 0);
    j := 1;
    if c.Some? { j := ExitTestRun(prog, f, 1, c.value); }
  }

  /** The value goes into the temporary, then the run jumps to the comparisons. */
  lemma SwitchHead(prog: Flat, f: FPoint, e: Expr, q: nat) returns (j: nat)
    requires f.FAt? && f.pc + 1 < |prog| && prog[f.pc].FSetTemp? && prog[f.pc].e == e && prog[f.pc + 1].FJump?
    requires Target(prog, prog[f.pc + 1].to) == q && q < |prog|
    ensures j > 0
    ensures FRun(prog, f, j)
         == match Eval(e, f.env)
            case DivideError => FCrashed
            case Value(v, env1) => FAt(q + 1, env1, Some(v), f.result)
  {
    hide FRun;
    FRunZero(prog, f);
    Advance(prog, f, 0);
    j := 1;
    if Eval(e, f.env).Value? { j := JumpAndLabel(prog, f, 1); }
  }

  lemma SwitchStep(prog: Flat, names: Names, whole: Stmt, e: Expr, b: Stmt, k: Cont, env: Env, f: FPoint)
    returns (j: nat)
    requires Unique(prog) && Matches(prog, names, In(Switch(e, b), k, env), f)
    ensures InStep(prog, names, f, j, Step(RestartsBody, whole, Switch(e, b), k, env), 0)
  {
    hide FRun, Check, ContAt, StmtAt, BreakSet, ContSet, Dispatch, Find, Eval, Unique, Target, TestsAt;
    var p := f.pc;
    SwitchParts(prog, p, e, b, k, names);
    var m := Check(prog, p + 2, b, names);
    j := SwitchHead(prog, f, e, m.end + 1);
    if Eval(e, env).Value? {
      var v, env1 := Eval(e, env).v, Eval(e, env).env;
      var i := TestsRun(prog, f, j, m.cases);
      j := DispatchRun(prog, names, b, v, k, env1, f, i, p + 2);
    }
  }

  /** After the comparisons the flat run goes where the structured switch goes. */
  lemma DispatchRun(prog: Flat, names: Names, b: Stmt, v: int, k: Cont, env: Env, f: FPoint, j: nat, p: nat)
    returns (j': nat)
    requires Unique(prog) && StmtAt(prog, p, b, InSwitch(k), names)
    requires var m := Check(prog, p, b, names);
             && Jumps(prog, m.end) && Target(prog, prog[m.end].to) == SwitchEnd(m.end, m.cases, m.dflt)
             && ContAt(prog, SwitchEnd(m.end, m.cases, m.dflt) + 1, k, names)
             && (m.dflt.Some? ==> Is(prog, m.end + 2 + 3 * |m.cases|, FJump(m.dflt.value)))
             && Is(prog, SwitchEnd(m.end, m.cases, m.dflt), FLabel(prog[m.end].to))
             && FRun(prog, f, j) ==
                  match FirstCase(m.cases, v)
                  case Some(l) => FAt(Target(prog, l), env, Some(v), None)
                  case None => FAt(m.end + 2 + 3 * |m.cases|, env, Some(v), None)
    ensures j' >= j && Matches(prog, names, Go(Dispatch(b, v, k), env), FRun(prog, f, j'))
  {
    hide FRun, FirstCase, ContAt, BreakSet, ContSet;
    var m := Check(prog, p, b, names);
    var r := FindAt(prog, ByValue(v), b, InSwitch(k), p, names);
    var d := FindAt(prog, ByDefault, b, InSwitch(k), p, names);
    j' := j;
    var g := Find(ByValue(v), b, InSwitch(k));
    var h := Find(ByDefault, b, InSwitch(k));
    if g.At? {
      FlatCode.TargetIs(prog, prog[r].name, r);
      Begin(prog, r, g.s, g.k, names);
    } else if h.At? {
      FlatCode.TargetIs(prog, prog[d].name, d);
      Begin(prog, d, h.s, h.k, names);
      OneJump(prog, f, j);
      j' := j + 1;
    } else {
      OneLabel(prog, f, j);
      j' := j + 1;
    }
  }

  lemma GotoParts(prog: Flat, p: nat, n: LabelName, k: Cont, names: Names)
    requires StmtAt(prog, p, Goto(n), k, names)
    ensures n in names.labels && Is(prog, p, FJump(names.labels[n]))
  {
    hide ContAt, BreakSet, ContSet;
  }

  lemma GotoStep(prog: Flat, names: Names, whole: Stmt, n: LabelName, k: Cont, env: Env, f: FPoint) returns (j: nat)
    requires Program(prog, whole, names) && Matches(prog, names, In(Goto(n), k, env), f)
    ensures InStep(prog, names, f, j, Step(RestartsBody, whole, Goto(n), k, env), 0)
  {
    hide FRun, Check, StmtAt, ContAt, BreakSet, ContSet, Target, Find, Eval, Unique;
    GotoParts(prog, f.pc, n, k, names);
    FRunZero(prog, f);
    var r := FindAt(prog, ByName(n), whole, Stop, 0, names);
    var g := Find(ByName(n), whole, Stop);
    FlatCode.TargetIs(prog, prog[r].name, r);
    Begin(prog, r, g.s, g.k, names);
    OneJump(prog, f, 0);
    j := 1;
  }

  lemma ReturnParts(prog: Flat, p: nat, e: Option<Expr>, k: Cont, names: Names)
    requires StmtAt(prog, p, Return(e), k, names)
    ensures p < |prog|
    ensures match e
            case None => prog[p] == FJump(names.ret)
            case Some(v) => prog[p].FReturn? && prog[p].e == v && prog[p].to == names.ret
  {
    hide ContAt, BreakSet, ContSet;
  }

  lemma ReturnStep(prog: Flat, names: Names, whole: Stmt, e: Option<Expr>, k: Cont, env: Env, f: FPoint)
    returns (j: nat)
    requires Program(prog, whole, names) && Matches(prog, names, In(Return(e), k, env), f)
    ensures InStep(prog, names, f, j, Step(RestartsBody, whole, Return(e), k, env), 0)
  {
    hide FRun, StmtAt, Target, Eval, Unique;
    ReturnParts(prog, f.pc, e, k, names);
    FRunZero(prog, f);
    FlatCode.TargetIs(prog, names.ret, |prog| - 1);
    Advance(prog, f, 0);
    j := 1;
    if e.None? || Eval(e.value, env).Value? {
      OneLabel(prog, f, 1);
      j := 2;
    }
  }

  lemma EvalParts(prog: Flat, p: nat, e: Expr, k: Cont, names: Names)
    requires StmtAt(prog, p, Do(e), k, names)
    ensures Evaluates(prog, p, e) && StmtAt(prog, p + 1, Skip, k, names)
  {
    hide ContAt, BreakSet, ContSet;
  }

  lemma EvalStep(prog: Flat, names: Names, whole: Stmt, e: Expr, k: Cont, env: Env, f: FPoint) returns (j: nat)
    requires Matches(prog, names, In(Do(e), k, env), f)
    ensures InStep(prog, names, f, j, Step(RestartsBody, whole, Do(e), k, env), 0)
  {
    hide FRun, StmtAt, Target, Eval;
    EvalParts(prog, f.pc, e, k, names);
    FRunZero(prog, f);
    Advance(prog, f, 0);
    j := 1;
  }

  /** A labelled statement has its label in front of it. */
  lemma LabelParts(prog: Flat, p: nat, s: Stmt, b: Stmt, k: Cont, names: Names)
    requires StmtAt(prog, p, s, k, names)
    requires (s.Case? || s.Default? || s.Labeled?) && s.body == b
    ensures Defines(prog, p) && StmtAt(prog, p + 1, b, k, names)
  {
    hide ContAt, BreakSet, ContSet;
  }

  /** The heart of the argument: every step of the structured function is a run of its flat code. */
  lemma StepSimulates(prog: Flat, names: Names, whole: Stmt, s: Stmt, k: Cont, env: Env, f: FPoint) returns (j: nat)
    requires Program(prog, whole, names) && Matches(prog, names, In(s, k, env), f)
    ensures InStep(prog, names, f, j, Step(RestartsBody, whole, s, k, env), Measure(In(s, k, env)))
  {
    hide FRun, Check, StmtAt, ContAt, BreakSet, ContSet, Find, Eval, Unique;
    match s
    case Skip => j := SkipStep(prog, names, k, env, f);
    case Do(_) => j := EvalStep(prog, names, whole, s.e, k, env, f);
    case Seq(a, b) =>
      FRunZero(prog, f);
      SeqParts(prog, f.pc, a, b, k, names);
      Begin(prog, f.pc, a, Then(b, k), names);
      j := 0;
    case If(c, t) => j := IfStep(prog, names, whole, c, t, k, env, f);
    case IfElse(c, t, e) => j := IfElseStep(prog, names, whole, c, t, e, k, env, f);
    case While(c, b) => j := WhileStep(prog, names, whole, c, b, k, env, f);
    case DoWhile(b, c) => j := DoStep(prog, names, whole, b, c, k, env, f);
    case For(Some(i), c, st, b) => j := ForInitStep(prog, names, whole, i, c, st, b, k, env, f);
    case For(None, c, st, b) => j := ForTestStep(prog, names, whole, c, st, b, k, env, f);
    case Switch(e, b) => j := SwitchStep(prog, names, whole, e, b, k, env, f);
    case Case(_, _, b) => LabelParts(prog, f.pc, s, b, k, names); LabelStep(prog, names, b, k, f); j := 1;
    case Default(b) => LabelParts(prog, f.pc, s, b, k, names); LabelStep(prog, names, b, k, f); j := 1;
    case Labeled(_, b) => LabelParts(prog, f.pc, s, b, k, names); LabelStep(prog, names, b, k, f); j := 1;
    case Break => j := BreakStep(prog, names, k, env, f);
    case Continue => j := ContinueStep(prog, names, k, env, f);
    case Goto(n) => j := GotoStep(prog, names, whole, n, k, env, f);
    case Return(e) => j := ReturnStep(prog, names, whole, e, k, env, f);
  }

  lemma LabelStep(prog: Flat, names: Names, b: Stmt, k: Cont, f: FPoint)
    requires f.FAt? && f.result == None && Defines(prog, f.pc) && StmtAt(prog, f.pc + 1, b, k, names)
    ensures Matches(prog, names, In(b, k, f.env), FRun(prog, f, 1))
  {
    hide FRun, StmtAt, Target, Eval;
    FRunZero(prog, f);
    OneLabel(prog, f, 0);
    Begin(prog, f.pc + 1, b, k, names);
  }

  // ---------- whole runs ----------

  /** Statements without parts take one operation or none. */
  lemma LeafForward(prog: Flat, p: nat, s: Stmt, names: Names)
    requires s.Skip? || s.Do? || s.Break? || s.Continue? || s.Goto? || s.Return?
    requires Check(prog, p, s, names).Good?
    ensures p <= Check(prog, p, s, names).end <= p + 1
  {
  }

  lemma LabelForward(prog: Flat, p: nat, s: Stmt, names: Names)
    requires s.Case? || s.Default? || s.Labeled?
    requires Check(prog, p, s, names).Good?
    ensures Check(prog, p + 1, s.body, names).Good?
    ensures Check(prog, p, s, names).end == Check(prog, p + 1, s.body, names).end
  {
    hide RangeCases;
  }

  lemma ForForward(prog: Flat, p: nat, s: Stmt, names: Names)
    requires s.For? && Check(prog, p, s, names).Good?
    ensures var m := Check(prog, BodyStart(if s.init.Some? then p + 1 else p, s.test), s.body, names);
            m.Good? && m.end < Check(prog, p, s, names).end
  {
  }

  lemma {:induction false} CheckForward(prog: Flat, p: nat, s: Stmt, names: Names)
    requires Check(prog, p, s, names).Good?
    ensures p <= Check(prog, p, s, names).end
    decreases s
  {
    hide Check, Is, Evaluates, Branches, Defines, Jumps, ExitTest, DoTail, SwitchTail, OneDefault;
    match s
    case Seq(a, b) =>
      SeqChecks(prog, p, a, b, names);
      CheckForward(prog, p, a, names);
      CheckForward(prog, Check(prog, p, a, names).end, b, names);
    case If(c, t) =>
      IfChecks(prog, p, c, t, names);
      CheckForward(prog, p + 1, t, names);
    case IfElse(c, t, f) =>
      IfElseChecks(prog, p, c, t, f, names);
      CheckForward(prog, p + 1, t, names);
      CheckForward(prog, Check(prog, p + 1, t, names).end + 2, f, names);
    case While(c, b) =>
      WhileChecks(prog, p, c, b, names);
      CheckForward(prog, p + 6, b, names);
    case DoWhile(b, c) =>
      DoChecks(prog, p, b, c, names);
      CheckForward(prog, p + 1, b, names);
    case For(i, c, _, b) =>
      ForForward(prog, p, s, names);
      CheckForward(prog, BodyStart(if i.Some? then p + 1 else p, c), b, names);
    case Switch(e, b) =>
      SwitchChecks(prog, p, e, b, names);
      CheckForward(prog, p + 2, b, names);
    case Case(_, _, b) => LabelForward(prog, p, s, names); CheckForward(prog, p + 1, b, names);
    case Default(b) => LabelForward(prog, p, s, names); CheckForward(prog, p + 1, b, names);
    case Labeled(_, b) => LabelForward(prog, p, s, names); CheckForward(prog, p + 1, b, names);
    case _ => LeafForward(prog, p, s, names);
  }

  lemma {:induction false} ContInside(prog: Flat, q: nat, k: Cont, names: Names)
    requires ContAt(prog, q, k, names)
    ensures q < |prog|
    decreases k
  {
    match k
    case Then(s, k') =>
      CheckForward(prog, q, s, names);
      ContInside(prog, Check(prog, q, s, names).end, k', names);
    case _ =>
  }

  /** A point in the middle of the function matches no halted flat point. */
  lemma InIsNotHalted(prog: Flat, names: Names, p: Point, f: FPoint)
    requires Matches(prog, names, p, f)
    ensures p.In? <==> !Halted(prog, f)
  {
    if p.In? && !p.s.Break? && !p.s.Continue? {
      CheckForward(prog, f.pc, p.s, names);
      ContInside(prog, Check(prog, f.pc, p.s, names).end, p.k, names);
    }
  }

  /** If the structured run is over after `n` steps, the flat run reaches a matching end. */
  lemma {:induction false} Forward(prog: Flat, names: Names, whole: Stmt, p: Point, f: FPoint, n: nat)
    returns (m: nat)
    requires Program(prog, whole, names) && Matches(prog, names, p, f)
    requires !Run(RestartsBody, whole, p, n).In?
    ensures Matches(prog, names, Run(RestartsBody, whole, p, n), FRun(prog, f, m))
    decreases n
  {
    hide FRun, Matches;
    if p.In? {
      var j := StepSimulates(prog, names, whole, p.s, p.k, p.env, f);
      var p' := Step(RestartsBody, whole, p.s, p.k, p.env);
      var i := Forward(prog, names, whole, p', FRun(prog, f, j), n - 1);
      FRunAdd(prog, f, j, i);
      m := j + i;
    } else {
      FRunZero(prog, f);
      m := 0;
    }
  }

  /** If the flat run halts after `m` steps, the structured run is over too, in a matching point. */
  lemma {:induction false} Backward(prog: Flat, names: Names, whole: Stmt, p: Point, f: FPoint, m: nat)
    returns (n: nat)
    requires Program(prog, whole, names) && Matches(prog, names, p, f)
    requires Halted(prog, FRun(prog, f, m))
    ensures Matches(prog, names, Run(RestartsBody, whole, p, n), FRun(prog, f, m))
    ensures !Run(RestartsBody, whole, p, n).In?
    decreases m, Measure(p)
  {
    hide FRun, Matches;
    n := 0;
    if p.In? {
      var j := StepSimulates(prog, names, whole, p.s, p.k, p.env, f);
      var p' := Step(RestartsBody, whole, p.s, p.k, p.env);
      var g := FRun(prog, f, j);
      if j <= m {
        FRunAdd(prog, f, j, m - j);
        var i := Backward(prog, names, whole, p', g, m - j);
        n := i + 1;
      } else {
        FRunAdd(prog, f, m, j - m);
        FRunHalted(prog, FRun(prog, f, m), j - m);
        InIsNotHalted(prog, names, p', g);
        n := 1;
        assert Run(RestartsBody, whole, p', 0) == p';
      }
    } else {
      InIsNotHalted(prog, names, p, f);
      FRunHalted(prog, f, m);
    }
  }
}
