/** The flat form of a function: expressions, labels and jumps, in emission order. One operation stands
    for the instructions the generator emits for it. */
module FlatCode {
  import opened Options
  import opened Words
  import opened Expressions

  type Label = nat

  /** `tag` is the last label in use when the code of the expression is generated. */
  datatype Op =
    | FEval(e: Expr, tag: nat)                        // the expression
    | FBranch(e: Expr, tag: nat, ifZero: Label)       // the expression; compare with 0; je ifZero
    | FSetTemp(e: Expr, tag: nat)                     // the expression; movl %eax, %ecx
    | FBranchTemp(c: int, tag: nat, ifDiff: Label)    // %ecx == c; compare with 0; je ifDiff
    | FReturn(e: Expr, tag: nat, to: Label)           // the expression; jmp to
    | FJump(to: Label)
    | FLabel(name: Label)

  type Flat = seq<Op>

  /** The values `lo` to `hi`, all leading to one label. */
  function RangeCases(lo: int, hi: int, l: Label): seq<(int, Label)>
    decreases hi - lo + 1
  {
    if lo > hi then [] else [(lo, l)] + RangeCases(lo + 1, hi, l)
  }

  /** A run of flat code: `temp` is the switch value, which any other expression overwrites; `result` is the
      value of a return statement. A run that compares an overwritten switch value is lost. */
  datatype FPoint = FAt(pc: nat, env: Env, temp: Option<int>, result: Option<int>) | FCrashed | FLost

  ghost predicate Unique(prog: Flat) {
    forall i, j :: 0 <= i < j < |prog| && prog[i].FLabel? && prog[j].FLabel? ==> prog[i].name != prog[j].name
  }

  function Target(prog: Flat, l: Label): (i: nat)
    ensures i <= |prog|
    ensures i < |prog| ==> prog[i] == FLabel(l)
  {
    TargetFrom(prog, l, 0)
  }

  function TargetFrom(prog: Flat, l: Label, p: nat): (i: nat)
    requires p <= |prog|
    ensures p <= i <= |prog|
    ensures i < |prog| ==> prog[i] == FLabel(l)
    ensures forall j :: p <= j < i ==> prog[j] != FLabel(l)
    decreases |prog| - p
  {
    if p == |prog| || prog[p] == FLabel(l) then p else TargetFrom(prog, l, p + 1)
  }

  lemma TargetIs(prog: Flat, l: Label, p: nat)
    requires Unique(prog) && p < |prog| && prog[p] == FLabel(l)
    ensures Target(prog, l) == p
  {
    var i := TargetFrom(prog, l, 0);
    assert prog[i] == FLabel(l);
  }

  function FStep(prog: Flat, pc: nat, env: Env, temp: Option<int>, result: Option<int>): FPoint
    requires pc < |prog|
  {
    match prog[pc]
    case FEval(e, _) =>
      (match Eval(e, env)
       case DivideError => FCrashed
       case Value(_, env1) => FAt(pc + 1, env1, None, result))
    case FBranch(e, _, l) =>
      (match Eval(e, env)
       case DivideError => FCrashed
       case Value(v, env1) => FAt(if v == 0 then Target(prog, l) else pc + 1, env1, None, result))
    case FSetTemp(e, _) =>
      (match Eval(e, env)
       case DivideError => FCrashed
       case Value(v, env1) => FAt(pc + 1, env1, Some(v), result))
    case FBranchTemp(c, _, l) =>
      if temp.None? then FLost
      else FAt(if temp.value == ToSigned(Int, c) then pc + 1 else Target(prog, l), env, temp, result)
    case FReturn(e, _, l) =>
      (match Eval(e, env)
       case DivideError => FCrashed
       case Value(v, env1) => FAt(Target(prog, l), env1, None, Some(v)))
    case FJump(l) => FAt(Target(prog, l), env, temp, result)
    case FLabel(_) => FAt(pc + 1, env, temp, result)
  }

  predicate Halted(prog: Flat, f: FPoint) {
    !f.FAt? || f.pc >= |prog|
  }

  /** `n` steps; a run that left the code or crashed stays where it is. */
  function FRun(prog: Flat, f: FPoint, n: nat): FPoint
    decreases n
  {
    if n == 0 || Halted(prog, f) then f
    else FRun(prog, FStep(prog, f.pc, f.env, f.temp, f.result), n - 1)
  }

  lemma {:induction false} FRunAdd(prog: Flat, f: FPoint, m: nat, n: nat)
    ensures FRun(prog, f, m + n) == FRun(prog, FRun(prog, f, m), n)
    decreases m
  {
    if m > 0 && !Halted(prog, f) {
      FRunAdd(prog, FStep(prog, f.pc, f.env, f.temp, f.result), m - 1, n);
    }
  }

  lemma FRunOne(prog: Flat, f: FPoint)
    requires !Halted(prog, f)
    ensures FRun(prog, f, 1) == FStep(prog, f.pc, f.env, f.temp, f.result)
  {
    assert FRun(prog, FRun(prog, f, 1), 0) == FRun(prog, f, 1);
  }

  lemma FRunHalted(prog: Flat, f: FPoint, n: nat)
    requires Halted(prog, f)
    ensures FRun(prog, f, n) == f
  {
  }

  // ---------- code in place ----------

  ghost predicate FlatAt(prog: Flat, p: nat, c: Flat) {
    p + |c| <= |prog| && prog[p..p + |c|] == c
  }

  lemma FlatSplit(prog: Flat, p: nat, a: Flat, b: Flat)
    requires FlatAt(prog, p, a + b)
    ensures FlatAt(prog, p, a) && FlatAt(prog, p + |a|, b)
  {
    assert prog[p..p + |a|] == (a + b)[..|a|];
    assert prog[p + |a|..p + |a| + |b|] == (a + b)[|a|..];
  }

  lemma OpAt(prog: Flat, p: nat, c: Flat, i: nat)
    requires FlatAt(prog, p, c) && i < |c|
    ensures p + i < |prog| && prog[p + i] == c[i]
  {
    assert prog[p + i] == prog[p..p + |c|][i];
  }

  lemma FlatThree(prog: Flat, p: nat, a: Flat, b: Flat, c: Flat)
    requires FlatAt(prog, p, a + b + c)
    ensures FlatAt(prog, p, a) && FlatAt(prog, p + |a|, b) && FlatAt(prog, p + |a| + |b|, c)
  {
    FlatSplit(prog, p, a + b, c);
    FlatSplit(prog, p, a, b);
  }
}
