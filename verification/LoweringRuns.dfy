/** Translation keeps the meaning of a function: terminating runs of its flat code are the terminating runs
    of its structured body. */
module LoweringRuns {
  import opened Options
  import opened Words
  import opened Expressions
  import opened Statements
  import opened FlatCode
  import opened Layout
  import opened FlatSim
  import opened FlatCorrect
  import opened Lowering
  import opened LoweringCorrect
  import opened LabelsApart

  /** Every user label recorded while parsing names a statement of the body. */
  lemma {:induction false} LabelsFound(s: Stmt, d: Dest, m: Marks, n: LabelName, k: Cont)
    requires Lower(s, d, m).Ok? && n in Lower(s, d, m).marks.labels
    ensures n in m.labels || Find(ByName(n), s, k).At?
    decreases s
  {
    match s
    case Seq(a, b) =>
      var m1 := Lower(a, d, m).marks;
      LabelsFound(b, d, m1, n, k);
      if n in m1.labels { LabelsFound(a, d, m, n, Then(b, k)); }
    case If(_, t) => LabelsFound(t, d, m, n, EndIf(false, k));
    case IfElse(_, t, f) =>
      var m1 := Lower(t, d, m).marks;
      LabelsFound(f, d, m1, n, EndIf(false, k));
      if n in m1.labels { LabelsFound(t, d, m, n, EndIf(true, k)); }
    case While(c, b) =>
      LabelsFound(b, d.(brk := Some(m.tag + 2), cnt := Some(m.tag + 1)), m.(tag := m.tag + 2), n, InWhile(c, b, k));
    case DoWhile(b, c) =>
      LabelsFound(b, d.(brk := Some(m.tag + 3), cnt := Some(m.tag + 1)), m.(tag := m.tag + 3), n, InDo(b, c, k));
    case For(_, c, st, b) =>
      LabelsFound(b, d.(brk := Some(m.tag + 3), cnt := Some(m.tag + 2)), m.(tag := m.tag + 3), n, InFor(c, st, b, k));
    case Switch(_, b) =>
      LabelsFound(b, d.(brk := Some(m.tag + 2), inSwitch := true),
                  m.(tag := m.tag + 2, cases := [], dflt := None), n, InSwitch(k));
    case Case(lo, hi, b) =>
      LabelsFound(b, d, m.(tag := m.tag + 1, cases := m.cases + RangeCases(lo, hi, m.tag + 1)), n, k);
    case Default(b) => LabelsFound(b, d, m.(tag := m.tag + 1, dflt := Some(m.tag + 1)), n, k);
    case Labeled(name, b) => if n != name { LabelsFound(b, d, m, n, k); }
    case _ =>
  }

  /** A translated function is a program in the sense of the simulation. */
  lemma TranslateProgram(body: Stmt, first: nat)
    requires Translate(body, first).Function?
    ensures var t := Translate(body, first);
            Program(t.code, body, Names(t.labels, t.ret))
  {
    hide Lower, LayOut, Find, Check, Target, HeadMatches, Waiting;
    var t := Translate(body, first);
    var names := Names(t.labels, t.ret);
    var d, m := Dest(None, None, false), Marks(t.ret, [], None, map[]);
    var r := Lower(body, d, m);
    TranslateApart(body, first);
    ApartUnique(t.code);
    var c := LayOut(r.node, names.labels, names.ret, r.marks.tag).code;
    assert t.code[0..|c|] == c;
    LowerFits(t.code, 0, body, d, m, names, r.marks.tag);
    forall n | n in names.labels
      ensures Find(ByName(n), body, Stop).At?
    {
      LabelsFound(body, d, m, n, Stop);
    }
  }

  ghost predicate Returns(body: Stmt, rule: DoRule, env: Env, out: Env, result: Option<int>) {
    exists n :: Statements.Run(rule, body, In(body, Stop, env), n) == Left(out, result)
  }

  ghost predicate Crashes(body: Stmt, rule: DoRule, env: Env) {
    exists n :: Statements.Run(rule, body, In(body, Stop, env), n) == Crashed
  }

  ghost predicate FlatReturns(code: Flat, env: Env, temp: Option<int>, out: Env, result: Option<int>) {
    exists m, t :: FRun(code, FAt(0, env, temp, None), m) == FAt(|code|, out, t, result)
  }

  ghost predicate FlatCrashes(code: Flat, env: Env, temp: Option<int>) {
    exists m :: FRun(code, FAt(0, env, temp, None), m) == FCrashed
  }

  lemma StartMatches(body: Stmt, first: nat, env: Env, temp: Option<int>)
    requires Translate(body, first).Function?
    ensures var t := Translate(body, first);
            var names := Names(t.labels, t.ret);
            Program(t.code, body, names) && Matches(t.code, names, In(body, Stop, env), FAt(0, env, temp, None))
  {
    TranslateProgram(body, first);
    var t := Translate(body, first);
    Begin(t.code, 0, body, Stop, Names(t.labels, t.ret));
  }

  /** From structured runs to flat runs. */
  lemma FlatFollows(body: Stmt, first: nat, env: Env, temp: Option<int>, n: nat)
    requires Translate(body, first).Function?
    ensures var p := Statements.Run(RestartsBody, body, In(body, Stop, env), n);
            var code := Translate(body, first).code;
            && p != Stuck
            && (p.Left? ==> FlatReturns(code, env, temp, p.env, p.result))
            && (p.Crashed? ==> FlatCrashes(code, env, temp))
  {
    hide Statements.Run, FRun, Translate;
    StartMatches(body, first, env, temp);
    var t := Translate(body, first);
    var names := Names(t.labels, t.ret);
    var p := Statements.Run(RestartsBody, body, In(body, Stop, env), n);
    if !p.In? {
      var m := Forward(t.code, names, body, In(body, Stop, env), FAt(0, env, temp, None), n);
      var f := FRun(t.code, FAt(0, env, temp, None), m);
      if p.Left? { assert f == FAt(|t.code|, p.env, f.temp, p.result); }
    }
  }

  /** From flat runs to structured runs. */
  lemma BodyFollows(body: Stmt, first: nat, env: Env, temp: Option<int>, m: nat)
    requires Translate(body, first).Function?
    requires Halted(Translate(body, first).code, FRun(Translate(body, first).code, FAt(0, env, temp, None), m))
    ensures var f := FRun(Translate(body, first).code, FAt(0, env, temp, None), m);
            if f.FAt? then Returns(body, RestartsBody, env, f.env, f.result) else Crashes(body, RestartsBody, env)
  {
    hide Statements.Run, FRun, Translate;
    StartMatches(body, first, env, temp);
    var t := Translate(body, first);
    var n := Backward(t.code, Names(t.labels, t.ret), body, In(body, Stop, env), FAt(0, env, temp, None), m);
  }

  /** The flat code and the structured body have the same terminating runs, with the same variables and the
      same returned value, and fault on the same inputs. */
  lemma SameRuns(body: Stmt, first: nat, env: Env, temp: Option<int>)
    requires Translate(body, first).Function?
    ensures var code := Translate(body, first).code;
            && (forall out, r :: Returns(body, RestartsBody, env, out, r) <==> FlatReturns(code, env, temp, out, r))
            && (Crashes(body, RestartsBody, env) <==> FlatCrashes(code, env, temp))
  {
    hide Statements.Run, FRun, Translate;
    var code := Translate(body, first).code;
    forall out, r
      ensures Returns(body, RestartsBody, env, out, r) <==> FlatReturns(code, env, temp, out, r)
    {
      if Returns(body, RestartsBody, env, out, r) {
        var n: nat :| Statements.Run(RestartsBody, body, In(body, Stop, env), n) == Left(out, r);
        FlatFollows(body, first, env, temp, n);
      }
      if FlatReturns(code, env, temp, out, r) {
        var m: nat, t :| FRun(code, FAt(0, env, temp, None), m) == FAt(|code|, out, t, r);
        BodyFollows(body, first, env, temp, m);
      }
    }
    if Crashes(body, RestartsBody, env) {
      var n: nat :| Statements.Run(RestartsBody, body, In(body, Stop, env), n) == Crashed;
      FlatFollows(body, first, env, temp, n);
    }
    if FlatCrashes(code, env, temp) {
      var m: nat :| FRun(code, FAt(0, env, temp, None), m) == FCrashed;
      BodyFollows(body, first, env, temp, m);
    }
  }

  /** With C's own rule for `continue`, on every input for which C's run never comes to one that a do-while loop
      catches. */
  lemma SameRunsUncaught(body: Stmt, first: nat, env: Env, temp: Option<int>)
    requires Translate(body, first).Function? && forall n: nat :: !CaughtAt(body, In(body, Stop, env), n)
    ensures var code := Translate(body, first).code;
            && (forall out, r :: Returns(body, TestsCondition, env, out, r) <==> FlatReturns(code, env, temp, out, r))
            && (Crashes(body, TestsCondition, env) <==> FlatCrashes(code, env, temp))
  {
    hide Statements.Run, FRun, Translate, CaughtAt;
    RunsAgreeIff(body, In(body, Stop, env));
    assert forall n: nat :: Statements.Run(TestsCondition, body, In(body, Stop, env), n)
                         == Statements.Run(RestartsBody, body, In(body, Stop, env), n);
    SameRuns(body, first, env, temp);
    forall out, r
      ensures Returns(body, TestsCondition, env, out, r) <==> Returns(body, RestartsBody, env, out, r)
    {
    }
  }

  /** So on every input, for functions in which no do-while loop catches a `continue`. */
  lemma SameRunsAsC(body: Stmt, first: nat, env: Env, temp: Option<int>)
    requires Translate(body, first).Function? && NoContinueInDo(body, false)
    ensures var code := Translate(body, first).code;
            && (forall out, r :: Returns(body, TestsCondition, env, out, r) <==> FlatReturns(code, env, temp, out, r))
            && (Crashes(body, TestsCondition, env) <==> FlatCrashes(code, env, temp))
  {
    hide Statements.Run, FRun, Translate, CaughtAt, Returns, FlatReturns, Crashes, FlatCrashes;
    forall n: nat
      ensures !CaughtAt(body, In(body, Stop, env), n)
    {
      NeverCaught(body, In(body, Stop, env), n);
    }
    SameRunsUncaught(body, first, env, temp);
  }

  /** `do continue; while (0);` ends in C and never ends when it is compiled. */
  lemma DoContinueDiverges(env: Env)
    ensures var body := DoWhile(Continue, Const(Int, 0));
            && Returns(body, TestsCondition, env, env, None)
            && (forall n: nat :: Statements.Run(RestartsBody, body, In(body, Stop, env), n).In?)
  {
    var c := Const(Int, 0);
    var body := DoWhile(Continue, c);
    var p0, p1 := In(body, Stop, env), In(Continue, InDo(Continue, c, Stop), env);
    var p2, p3 := In(Skip, InDo(Continue, c, Stop), env), In(Skip, Stop, env);
    var end := Left(env, None);
    assert Statements.Run(TestsCondition, body, end, 0) == end;
    assert Statements.Run(TestsCondition, body, p3, 1) == end;
    assert Statements.Run(TestsCondition, body, p2, 2) == end;
    assert Statements.Run(TestsCondition, body, p1, 3) == end;
    assert Statements.Run(TestsCondition, body, p0, 4) == end;
    forall n: nat
      ensures Statements.Run(RestartsBody, body, p0, n).In?
    {
      DoContinueLoops(env, n);
    }
  }

  lemma {:induction false} DoContinueLoops(env: Env, n: nat)
    ensures var body := DoWhile(Continue, Const(Int, 0));
            && Statements.Run(RestartsBody, body, In(body, Stop, env), n).In?
            && Statements.Run(RestartsBody, body, In(Continue, InDo(Continue, Const(Int, 0), Stop), env), n).In?
    decreases n
  {
    if n > 0 { DoContinueLoops(env, n - 1); }
  }
}
