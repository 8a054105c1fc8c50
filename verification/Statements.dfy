/** Structured statements and their meaning: small steps of a statement in focus and what follows it. */
module Statements {
  import opened Options
  import opened Words
  import opened Expressions

  type LabelName = string

  datatype Stmt =
    | Skip
    | Do(e: Expr)
    | Seq(first: Stmt, second: Stmt)
    | If(cond: Expr, thn: Stmt)
    | IfElse(cond: Expr, thn: Stmt, els: Stmt)
    | While(cond: Expr, body: Stmt)
    | DoWhile(body: Stmt, cond: Expr)
    | For(init: Option<Expr>, test: Option<Expr>, step: Option<Expr>, body: Stmt)
    | Switch(scrutinee: Expr, body: Stmt)
    | Case(lo: int, hi: int, body: Stmt)       // `case lo ... hi:`, a range when lo < hi
    | Default(body: Stmt)
    | Break
    | Continue
    | Goto(name: LabelName)
    | Labeled(name: LabelName, body: Stmt)
    | Return(result: Option<Expr>)

  /** What remains to be done after the statement in focus. */
  datatype Cont =
    | Stop
    | Then(next: Stmt, k: Cont)
    | EndIf(hasElse: bool, k: Cont)
    | InWhile(cond: Expr, body: Stmt, k: Cont)
    | InDo(body: Stmt, cond: Expr, k: Cont)
    | InFor(test: Option<Expr>, step: Option<Expr>, body: Stmt, k: Cont)
    | InSwitch(k: Cont)

  /** A run is in the middle, has left the function, has hit a bad division, or makes no sense
      (a jump without a destination). */
  datatype Point =
    | In(s: Stmt, k: Cont, env: Env)
    | Left(env: Env, result: Option<int>)
    | Crashed
    | Stuck

  // ---------- jump targets ----------

  datatype Selector = ByName(name: LabelName) | ByValue(v: int) | ByDefault

  /** A case constant is converted to `int` before it is compared. */
  predicate CaseMatches(lo: int, hi: int, v: int) {
    exists c | lo <= c <= hi :: ToSigned(Int, c) == v
  }

  datatype Found = Nowhere | At(s: Stmt, k: Cont)

  function OrElse(a: Found, b: Found): Found {
    if a.At? then a else b
  }

  /** The first statement in the text that the selector names, with what follows it. Case and default
      labels of inner `switch` statements do not belong to the outer one. */
  function Find(sel: Selector, s: Stmt, k: Cont): Found {
    match s
    case Seq(a, b) => OrElse(Find(sel, a, Then(b, k)), Find(sel, b, k))
    case If(_, t) => Find(sel, t, EndIf(false, k))
    case IfElse(_, t, f) => OrElse(Find(sel, t, EndIf(true, k)), Find(sel, f, EndIf(false, k)))
    case While(c, b) => Find(sel, b, InWhile(c, b, k))
    case DoWhile(b, c) => Find(sel, b, InDo(b, c, k))
    case For(_, c, st, b) => Find(sel, b, InFor(c, st, b, k))
    case Switch(_, b) => if sel.ByName? then Find(sel, b, InSwitch(k)) else Nowhere
    case Case(lo, hi, b) =>
      if sel.ByValue? && CaseMatches(lo, hi, sel.v) then At(s, k) else Find(sel, b, k)
    case Default(b) => if sel.ByDefault? then At(s, k) else Find(sel, b, k)
    case Labeled(n, b) => if sel == ByName(n) then At(s, k) else Find(sel, b, k)
    case _ => Nowhere
  }

  function Dispatch(body: Stmt, v: int, k: Cont): Found {
    OrElse(Find(ByValue(v), body, InSwitch(k)), OrElse(Find(ByDefault, body, InSwitch(k)), At(Skip, k)))
  }

  // ---------- steps ----------

  /** How `continue` treats a do-while loop. */
  datatype DoRule =
    | TestsCondition   // section 6.8.6.2 of C11: go on with the condition
    | RestartsBody     // what the lowering does: go to the start of the body

  function Go(f: Found, env: Env): Point {
    if f.At? then In(f.s, f.k, env) else Stuck
  }

  /** A statement that has been completed. */
  function StepSkip(k: Cont, env: Env): Point {
    match k
    case Stop => Left(env, None)
    case Then(s, k') => In(s, k', env)
    case EndIf(_, k') => In(Skip, k', env)
    case InWhile(c, b, k') => In(While(c, b), k', env)
    case InDo(b, c, k') =>
      (match Eval(c, env)
       case DivideError => Crashed
       case Value(v, env1) => In(if v != 0 then DoWhile(b, c) else Skip, k', env1))
    case InFor(c, None, b, k') => In(For(None, c, None, b), k', env)
    case InFor(c, Some(st), b, k') =>
      (match Eval(st, env)
       case DivideError => Crashed
       case Value(_, env1) => In(For(None, c, Some(st), b), k', env1))
    case InSwitch(k') => In(Skip, k', env)
  }

  function StepBreak(k: Cont, env: Env): Point {
    match k
    case Stop => Stuck
    case Then(_, k') => In(Break, k', env)
    case EndIf(_, k') => In(Break, k', env)
    case InWhile(_, _, k') => In(Skip, k', env)
    case InDo(_, _, k') => In(Skip, k', env)
    case InFor(_, _, _, k') => In(Skip, k', env)
    case InSwitch(k') => In(Skip, k', env)
  }

  function StepContinue(rule: DoRule, k: Cont, env: Env): Point {
    match k
    case Stop => Stuck
    case Then(_, k') => In(Continue, k', env)
    case EndIf(_, k') => In(Continue, k', env)
    case InSwitch(k') => In(Continue, k', env)
    case InWhile(c, b, k') => In(While(c, b), k', env)
    case InFor(_, _, _, _) => In(Skip, k, env)
    case InDo(b, c, k') => if rule.TestsCondition? then In(Skip, k, env) else In(DoWhile(b, c), k', env)
  }

  /** One step of the function whose body is `whole`. */
  function Step(rule: DoRule, whole: Stmt, s: Stmt, k: Cont, env: Env): Point {
    match s
    case Skip => StepSkip(k, env)
    case Do(e) =>
      (match Eval(e, env)
       case DivideError => Crashed
       case Value(_, env1) => In(Skip, k, env1))
    case Seq(a, b) => In(a, Then(b, k), env)
    case If(c, t) =>
      (match Eval(c, env)
       case DivideError => Crashed
       case Value(v, env1) => if v != 0 then In(t, EndIf(false, k), env1) else In(Skip, k, env1))
    case IfElse(c, t, f) =>
      (match Eval(c, env)
       case DivideError => Crashed
       case Value(v, env1) => if v != 0 then In(t, EndIf(true, k), env1) else In(f, EndIf(false, k), env1))
    case While(c, b) =>
      (match Eval(c, env)
       case DivideError => Crashed
       case Value(v, env1) => if v != 0 then In(b, InWhile(c, b, k), env1) else In(Skip, k, env1))
    case DoWhile(b, c) => In(b, InDo(b, c, k), env)
    case For(Some(i), c, st, b) =>
      (match Eval(i, env)
       case DivideError => Crashed
       case Value(_, env1) => In(For(None, c, st, b), k, env1))
    case For(None, None, st, b) => In(b, InFor(None, st, b, k), env)
    case For(None, Some(c), st, b) =>
      (match Eval(c, env)
       case DivideError => Crashed
       case Value(v, env1) => if v != 0 then In(b, InFor(Some(c), st, b, k), env1) else In(Skip, k, env1))
    case Switch(e, b) =>
      (match Eval(e, env)
       case DivideError => Crashed
       case Value(v, env1) => Go(Dispatch(b, v, k), env1))
    case Case(_, _, b) => In(b, k, env)
    case Default(b) => In(b, k, env)
    case Labeled(_, b) => In(b, k, env)
    case Break => StepBreak(k, env)
    case Continue => StepContinue(rule, k, env)
    case Goto(n) => Go(Find(ByName(n), whole, Stop), env)
    case Return(None) => Left(env, None)
    case Return(Some(e)) =>
      (match Eval(e, env)
       case DivideError => Crashed
       case Value(v, env1) => Left(env1, Some(v)))
  }

  function Run(rule: DoRule, whole: Stmt, p: Point, n: nat): Point
    decreases n
  {
    if n == 0 || !p.In? then p else Run(rule, whole, Step(rule, whole, p.s, p.k, p.env), n - 1)
  }

  // ---------- when the two rules for `continue` agree ----------

  /** No `continue` in `s` belongs to a do-while loop; `inDo` says whether the innermost loop around is one. */
  predicate NoContinueInDo(s: Stmt, inDo: bool) {
    match s
    case Seq(a, b) => NoContinueInDo(a, inDo) && NoContinueInDo(b, inDo)
    case If(_, t) => NoContinueInDo(t, inDo)
    case IfElse(_, t, f) => NoContinueInDo(t, inDo) && NoContinueInDo(f, inDo)
    case While(_, b) => NoContinueInDo(b, false)
    case DoWhile(b, _) => NoContinueInDo(b, true)
    case For(_, _, _, b) => NoContinueInDo(b, false)
    case Switch(_, b) => NoContinueInDo(b, inDo)
    case Case(_, _, b) => NoContinueInDo(b, inDo)
    case Default(b) => NoContinueInDo(b, inDo)
    case Labeled(_, b) => NoContinueInDo(b, inDo)
    case Continue => !inDo
    case _ => true
  }

  predicate InnermostIsDo(k: Cont) {
    match k
    case Stop => false
    case Then(_, k') => InnermostIsDo(k')
    case EndIf(_, k') => InnermostIsDo(k')
    case InSwitch(k') => InnermostIsDo(k')
    case InWhile(_, _, _) => false
    case InFor(_, _, _, _) => false
    case InDo(_, _, _) => true
  }

  predicate ContFree(k: Cont) {
    match k
    case Stop => true
    case Then(s, k') => NoContinueInDo(s, InnermostIsDo(k')) && ContFree(k')
    case EndIf(_, k') => ContFree(k')
    case InSwitch(k') => ContFree(k')
    case InWhile(_, b, k') => NoContinueInDo(b, false) && ContFree(k')
    case InFor(_, _, b, k') => NoContinueInDo(b, false) && ContFree(k')
    case InDo(b, _, k') => NoContinueInDo(b, true) && ContFree(k')
  }

  predicate PointFree(p: Point) {
    p.In? ==> NoContinueInDo(p.s, InnermostIsDo(p.k)) && ContFree(p.k)
  }

  lemma {:induction false} FindFree(sel: Selector, s: Stmt, k: Cont)
    requires NoContinueInDo(s, InnermostIsDo(k)) && ContFree(k)
    ensures Find(sel, s, k).At? ==>
              NoContinueInDo(Find(sel, s, k).s, InnermostIsDo(Find(sel, s, k).k)) && ContFree(Find(sel, s, k).k)
  {
    match s
    case Seq(a, b) => FindFree(sel, a, Then(b, k)); FindFree(sel, b, k);
    case If(_, t) => FindFree(sel, t, EndIf(false, k));
    case IfElse(_, t, f) => FindFree(sel, t, EndIf(true, k)); FindFree(sel, f, EndIf(false, k));
    case While(c, b) => FindFree(sel, b, InWhile(c, b, k));
    case DoWhile(b, c) => FindFree(sel, b, InDo(b, c, k));
    case For(_, c, st, b) => FindFree(sel, b, InFor(c, st, b, k));
    case Switch(_, b) => FindFree(sel, b, InSwitch(k));
    case Case(_, _, b) => FindFree(sel, b, k);
    case Default(b) => FindFree(sel, b, k);
    case Labeled(_, b) => FindFree(sel, b, k);
    case _ =>
  }

  /** At a single step the two rules differ exactly at a `continue` that a do-while loop catches. */
  lemma RulesDifferAt(whole: Stmt, s: Stmt, k: Cont, env: Env)
    ensures Step(RestartsBody, whole, s, k, env) != Step(TestsCondition, whole, s, k, env)
       <==> s.Continue? && k.InDo?
  {
  }

  /** The property that no do-while loop catches a `continue` is kept by every step. */
  lemma StepFree(rule: DoRule, whole: Stmt, p: Point)
    requires p.In? && PointFree(p) && NoContinueInDo(whole, false)
    ensures PointFree(Step(rule, whole, p.s, p.k, p.env))
  {
    hide Eval, Find;
    match p.s
    case Switch(_, b) =>
      forall v { DispatchFree(b, v, p.k); }
    case Goto(n) => FindFree(ByName(n), whole, Stop);
    case _ =>
  }

  lemma DispatchFree(b: Stmt, v: int, k: Cont)
    requires NoContinueInDo(b, InnermostIsDo(k)) && ContFree(k)
    ensures PointFree(Go(Dispatch(b, v, k), map[]))
  {
    FindFree(ByValue(v), b, InSwitch(k));
    FindFree(ByDefault, b, InSwitch(k));
  }

  /** After `n` steps by C's rule the function is at a `continue` that a do-while loop catches. */
  predicate CaughtAt(whole: Stmt, p: Point, n: nat) {
    var q := Run(TestsCondition, whole, p, n);
    q.In? && q.s.Continue? && q.k.InDo?
  }

  lemma CaughtLater(whole: Stmt, p: Point, n: nat)
    requires p.In? && n > 0
    ensures CaughtAt(whole, p, n) <==> CaughtAt(whole, Step(TestsCondition, whole, p.s, p.k, p.env), n - 1)
  {
    hide Step;
  }

  lemma {:induction false} SameUntilCaught(whole: Stmt, p: Point, n: nat)
    requires forall m :: 0 <= m < n ==> !CaughtAt(whole, p, m)
    ensures Run(RestartsBody, whole, p, n) == Run(TestsCondition, whole, p, n)
    decreases n
  {
    hide Step;
    if n > 0 && p.In? {
      var q := Step(TestsCondition, whole, p.s, p.k, p.env);
      assert !CaughtAt(whole, p, 0);
      RulesDifferAt(whole, p.s, p.k, p.env);
      forall m | 0 <= m < n - 1
        ensures !CaughtAt(whole, q, m)
      {
        CaughtLater(whole, p, m + 1);
      }
      SameUntilCaught(whole, q, n - 1);
    }
  }

  lemma {:induction false} DifferOnceCaught(whole: Stmt, p: Point, n: nat) returns (m: nat)
    requires CaughtAt(whole, p, n)
    ensures Run(RestartsBody, whole, p, m) != Run(TestsCondition, whole, p, m)
    decreases n
  {
    hide Step;
    RulesDifferAt(whole, p.s, p.k, p.env);
    if p.s.Continue? && p.k.InDo? {
      RunOnce(RestartsBody, whole, p);
      RunOnce(TestsCondition, whole, p);
      m := 1;
    } else {
      CaughtLater(whole, p, n);
      m := DifferOnceCaught(whole, Step(TestsCondition, whole, p.s, p.k, p.env), n - 1);
      m := m + 1;
    }
  }

  lemma RunOnce(rule: DoRule, whole: Stmt, p: Point)
    requires p.In?
    ensures Run(rule, whole, p, 1) == Step(rule, whole, p.s, p.k, p.env)
  {
    hide Step;
  }

  /** The compiled rule gives the run that C asks for exactly when that run never comes to a `continue` which a
      do-while loop catches. */
  lemma RunsAgreeIff(whole: Stmt, p: Point)
    ensures (forall n: nat :: Run(RestartsBody, whole, p, n) == Run(TestsCondition, whole, p, n))
       <==> (forall n: nat :: !CaughtAt(whole, p, n))
  {
    if n: nat :| CaughtAt(whole, p, n) {
      var m := DifferOnceCaught(whole, p, n);
    } else {
      forall n: nat
        ensures Run(RestartsBody, whole, p, n) == Run(TestsCondition, whole, p, n)
      {
        SameUntilCaught(whole, p, n);
      }
    }
  }

  /** The check on the text of the function is enough for every run. */
  lemma {:induction false} NeverCaught(whole: Stmt, p: Point, n: nat)
    requires PointFree(p) && NoContinueInDo(whole, false)
    ensures !CaughtAt(whole, p, n)
    decreases n
  {
    hide Step, Find;
    if n > 0 && p.In? {
      StepFree(TestsCondition, whole, p);
      CaughtLater(whole, p, n);
      NeverCaught(whole, Step(TestsCondition, whole, p.s, p.k, p.env), n - 1);
    }
  }
}
