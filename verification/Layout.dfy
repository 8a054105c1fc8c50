/** What flat code for a structured statement looks like: a checker that reads the code from a position
    on, and the relation between a continuation and the position where it begins. */
module Layout {
  import opened Options
  import opened Expressions
  import opened Statements
  import opened FlatCode

  /** What the checker finds: the end of the statement's code, the labels its loose `break`s and `continue`s
      jump to, and its case and default labels that belong to an enclosing switch. */
  datatype Match =
    | Bad
    | Good(end: nat, brks: set<Label>, cnts: set<Label>, cases: seq<(int, Label)>, dflt: Option<Label>)

  /** Names of the user's labels, and the label at the end of the function. */
  datatype Names = Names(labels: map<LabelName, Label>, ret: Label)

  predicate Is(prog: Flat, p: nat, op: Op) {
    p < |prog| && prog[p] == op
  }

  predicate Defines(prog: Flat, p: nat) {
    p < |prog| && prog[p].FLabel?
  }

  predicate Jumps(prog: Flat, p: nat) {
    p < |prog| && prog[p].FJump?
  }

  predicate Evaluates(prog: Flat, p: nat, e: Expr) {
    p < |prog| && prog[p].FEval? && prog[p].e == e
  }

  predicate Branches(prog: Flat, p: nat, e: Expr) {
    p < |prog| && prog[p].FBranch? && prog[p].e == e
  }

  /** `if (cond) ; else goto out` as it is emitted before a loop body: five operations. */
  predicate ExitTest(prog: Flat, p: nat, cond: Expr) {
    && Branches(prog, p, cond)
    && Jumps(prog, p + 1)
    && Is(prog, p + 2, FLabel(prog[p].ifZero))
    && Jumps(prog, p + 3)
    && Is(prog, p + 4, FLabel(prog[p + 1].to))
  }

  function OneDefault(a: Option<Label>, b: Option<Label>): Option<Label> {
    if a.Some? then a else b
  }

  /** The comparisons of a switch: three operations a case, in order. */
  predicate TestsAt(prog: Flat, p: nat, cases: seq<(int, Label)>)
    decreases |cases|
  {
    cases == [] ||
    (p + 2 < |prog|
     && prog[p].FBranchTemp? && prog[p].c == cases[0].0
     && prog[p + 1] == FJump(cases[0].1)
     && prog[p + 2] == FLabel(prog[p].ifDiff)
     && TestsAt(prog, p + 3, cases[1..]))
  }

  function Check(prog: Flat, p: nat, s: Stmt, names: Names): (m: Match)
    decreases s
  {
    match s
    case Skip => Good(p, {}, {}, [], None)
    case Do(e) => if Evaluates(prog, p, e) then Good(p + 1, {}, {}, [], None) else Bad
    case Seq(a, b) =>
      var m := Check(prog, p, a, names);
      if m.Bad? then Bad
      else
        var n := Check(prog, m.end, b, names);
        if n.Bad? || (m.dflt.Some? && n.dflt.Some?) then Bad
        else Good(n.end, m.brks + n.brks, m.cnts + n.cnts, m.cases + n.cases, OneDefault(m.dflt, n.dflt))
    case If(c, t) =>
      if !Branches(prog, p, c) then Bad
      else
        var m := Check(prog, p + 1, t, names);
        if m.Bad? || !Is(prog, m.end, FLabel(prog[p].ifZero)) then Bad
        else m.(end := m.end + 1)
    case IfElse(c, t, f) =>
      if !Branches(prog, p, c) then Bad
      else
        var m := Check(prog, p + 1, t, names);
        if m.Bad? || !Jumps(prog, m.end) || !Is(prog, m.end + 1, FLabel(prog[p].ifZero)) then Bad
        else
          var n := Check(prog, m.end + 2, f, names);
          if n.Bad? || (m.dflt.Some? && n.dflt.Some?) || !Is(prog, n.end, FLabel(prog[m.end].to)) then Bad
          else Good(n.end + 1, m.brks + n.brks, m.cnts + n.cnts, m.cases + n.cases, OneDefault(m.dflt, n.dflt))
    case While(c, b) =>
      if !Defines(prog, p) || !ExitTest(prog, p + 1, c) then Bad
      else
        var m := Check(prog, p + 6, b, names);
        if m.Bad? || !Is(prog, m.end, FJump(prog[p].name)) || !Is(prog, m.end + 1, FLabel(prog[p + 4].to))
           || !(m.brks <= {prog[p + 4].to}) || !(m.cnts <= {prog[p].name}) then Bad
        else Good(m.end + 2, {}, {}, m.cases, m.dflt)
    case DoWhile(b, c) =>
      if !Defines(prog, p) then Bad
      else
        var m := Check(prog, p + 1, b, names);
        if m.Bad? || !DoTail(prog, m.end, c, prog[p].name)
           || !(m.brks <= {prog[m.end + 7].name}) || !(m.cnts <= {prog[p].name}) then Bad
        else Good(m.end + 8, {}, {}, m.cases, m.dflt)
    case For(Some(i), c, st, b) =>
      if !Evaluates(prog, p, i) then Bad else Loop(prog, p + 1, c, st, Check(prog, BodyStart(p + 1, c), b, names))
    case For(None, c, st, b) => Loop(prog, p, c, st, Check(prog, BodyStart(p, c), b, names))
    case Switch(e, b) =>
      if !(p < |prog| && prog[p].FSetTemp? && prog[p].e == e) || !Jumps(prog, p + 1) then Bad
      else
        var m := Check(prog, p + 2, b, names);
        if m.Bad? || !SwitchTail(prog, m.end, prog[p + 1].to, m.cases, m.dflt)
           || !(m.brks <= {prog[m.end].to}) then Bad
        else Good(SwitchEnd(m.end, m.cases, m.dflt) + 1, {}, m.cnts, [], None)
    case Case(lo, hi, b) =>
      if !Defines(prog, p) then Bad
      else
        var m := Check(prog, p + 1, b, names);
        if m.Bad? then Bad else m.(cases := RangeCases(lo, hi, prog[p].name) + m.cases)
    case Default(b) =>
      if !Defines(prog, p) then Bad
      else
        var m := Check(prog, p + 1, b, names);
        if m.Bad? || m.dflt.Some? then Bad else m.(dflt := Some(prog[p].name))
    case Labeled(n, b) =>
      if n !in names.labels || !Is(prog, p, FLabel(names.labels[n])) then Bad
      else Check(prog, p + 1, b, names)
    case Break => if Jumps(prog, p) then Good(p + 1, {prog[p].to}, {}, [], None) else Bad
    case Continue => if Jumps(prog, p) then Good(p + 1, {}, {prog[p].to}, [], None) else Bad
    case Goto(n) =>
      if n in names.labels && Is(prog, p, FJump(names.labels[n])) then Good(p + 1, {}, {}, [], None) else Bad
    case Return(None) => if Is(prog, p, FJump(names.ret)) then Good(p + 1, {}, {}, [], None) else Bad
    case Return(Some(e)) =>
      if p < |prog| && prog[p].FReturn? && prog[p].e == e && prog[p].to == names.ret
      then Good(p + 1, {}, {}, [], None) else Bad
  }

  /** After the body of a do-while: the condition's own label, the test and the end label. */
  predicate DoTail(prog: Flat, q: nat, cond: Expr, begin: Label) {
    && Defines(prog, q)
    && Branches(prog, q + 1, cond)
    && Is(prog, q + 2, FJump(begin))
    && Jumps(prog, q + 3)
    && Is(prog, q + 4, FLabel(prog[q + 1].ifZero))
    && Jumps(prog, q + 5)
    && Is(prog, q + 6, FLabel(prog[q + 3].to))
    && Is(prog, q + 7, FLabel(prog[q + 5].to))
  }

  function BodyStart(p: nat, test: Option<Expr>): nat {
    if test.Some? then p + 6 else p + 1
  }

  function StepOps(step: Option<Expr>): nat {
    if step.Some? then 1 else 0
  }

  /** A for loop without its first clause: the position `p` of its condition label, its body checked. */
  function Loop(prog: Flat, p: nat, test: Option<Expr>, step: Option<Expr>, m: Match): (r: Match)
    ensures r.Good? ==> m.Good? && r.end == m.end + 3 + StepOps(step) && r.end <= |prog|
  {
    if m.Bad? || !Defines(prog, p) || (test.Some? && !ExitTest(prog, p + 1, test.value)) then Bad
    else
      var q := m.end;
      var j := q + 1 + StepOps(step);
      if !Defines(prog, q) || (step.Some? && !Evaluates(prog, q + 1, step.value))
         || !Is(prog, j, FJump(prog[p].name)) || !Defines(prog, j + 1)
         || (test.Some? && prog[p + 4].to != prog[j + 1].name)
         || !(m.brks <= {prog[j + 1].name}) || !(m.cnts <= {prog[q].name}) then Bad
      else Good(j + 2, {}, {}, m.cases, m.dflt)
  }

  function SwitchEnd(q: nat, cases: seq<(int, Label)>, dflt: Option<Label>): nat {
    q + 2 + 3 * |cases| + (if dflt.Some? then 1 else 0)
  }

  /** After the body of a switch: out, the test label, the comparisons, the default, the end label. */
  predicate SwitchTail(prog: Flat, q: nat, test: Label, cases: seq<(int, Label)>, dflt: Option<Label>) {
    && Jumps(prog, q)
    && Is(prog, q + 1, FLabel(test))
    && TestsAt(prog, q + 2, cases)
    && (dflt.Some? ==> Is(prog, q + 2 + 3 * |cases|, FJump(dflt.value)))
    && Is(prog, SwitchEnd(q, cases, dflt), FLabel(prog[q].to))
  }
}
