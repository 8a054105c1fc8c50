/** The parser turns structured statements into labels, jumps and two-way tests; the generator then lays
    them out one after the other. Both are given here as functions of the tree. */
module Lowering {
  import opened Options
  import opened Expressions
  import opened Statements
  import opened FlatCode

  const INT_MAX := 2147483647

  /** Statement nodes after parsing. A pending jump gets its label when the function ends. */
  datatype Node =
    | Empty
    | Evaluate(e: Expr)
    | Test(cond: Expr, thn: Node, els: Option<Node>)
    | TestTemp(c: int, thn: Node)          // the compiler's variable == c
    | SetTemp(e: Expr)
    | Jump(to: Label)
    | Pending(name: LabelName)
    | LabelHere(l: Label)
    | Compound(stmts: seq<Node>)
    | Leave(result: Option<Expr>)

  // ---------- parsing ----------

  /** The destinations in force: `breakDest_`, `continueDest_`, and whether `caseLabels_` is set. */
  datatype Dest = Dest(brk: Option<Label>, cnt: Option<Label>, inSwitch: bool)

  /** What parsing a statement changes: the last label, the case list and default label of the innermost
      switch, and the labels of the function. */
  datatype Marks = Marks(tag: nat, cases: seq<(int, Label)>, dflt: Option<Label>, labels: map<LabelName, Label>)

  datatype SyntaxError =
    | BreakOutside | ContinueOutside | CaseOutside | CaseTooLarge | TwoDefaults | LabelTwice | LabelMissing

  datatype Parsed = Ok(node: Node, marks: Marks) | Error(error: SyntaxError)
  {
    predicate IsFailure() { Error? }
    function PropagateFailure(): Parsed
      requires Error?
    {
      this
    }
    function Extract(): (Node, Marks)
      requires Ok?
    {
      (node, marks)
    }
  }

  function OptionalEval(e: Option<Expr>): Node {
    if e.Some? then Evaluate(e.value) else Empty
  }

  /** `if (cond) ; else goto end`. */
  function ExitUnless(cond: Expr, end: Label): Node {
    Test(cond, Empty, Some(Jump(end)))
  }

  function ForNodes(init: Option<Expr>, test: Option<Expr>, step: Option<Expr>, body: Node,
                    condLabel: Label, stepLabel: Label, endLabel: Label): seq<Node> {
    (if init.Some? then [Evaluate(init.value)] else [])
    + [LabelHere(condLabel)]
    + (if test.Some? then [ExitUnless(test.value, endLabel)] else [])
    + [body, LabelHere(stepLabel), OptionalEval(step), Jump(condLabel), LabelHere(endLabel)]
  }

  /** The comparisons of a switch, in the order of its case list. */
  function TestNodes(cases: seq<(int, Label)>): seq<Node>
    decreases |cases|
  {
    if cases == [] then [] else [TestTemp(cases[0].0, Jump(cases[0].1))] + TestNodes(cases[1..])
  }

  function SwitchNodes(e: Expr, body: Node, cases: seq<(int, Label)>, dflt: Option<Label>,
                       testLabel: Label, endLabel: Label): seq<Node> {
    [SetTemp(e), Jump(testLabel), body, Jump(endLabel), LabelHere(testLabel)]
    + TestNodes(cases)
    + (if dflt.Some? then [Jump(dflt.value)] else [])
    + [LabelHere(endLabel)]
  }

  function Lower(s: Stmt, d: Dest, m: Marks): (r: Parsed)
    ensures r.Ok? ==> r.marks.tag >= m.tag
  {
    match s
    case Skip => Ok(Empty, m)
    case Do(e) => Ok(Evaluate(e), m)
    case Seq(a, b) =>
      var (x, m1) :- Lower(a, d, m);
      var (y, m2) :- Lower(b, d, m1);
      Ok(Compound([x, y]), m2)
    case If(c, t) =>
      var (x, m1) :- Lower(t, d, m);
      Ok(Test(c, x, None), m1)
    case IfElse(c, t, f) =>
      var (x, m1) :- Lower(t, d, m);
      var (y, m2) :- Lower(f, d, m1);
      Ok(Test(c, x, Some(y)), m2)
    case While(c, b) =>
      var condLabel, endLabel := m.tag + 1, m.tag + 2;
      var (x, m1) :- Lower(b, d.(brk := Some(endLabel), cnt := Some(condLabel)), m.(tag := endLabel));
      Ok(Compound([LabelHere(condLabel), ExitUnless(c, endLabel), x, Jump(condLabel), LabelHere(endLabel)]), m1)
    case DoWhile(b, c) =>
      var beginLabel, condLabel, endLabel := m.tag + 1, m.tag + 2, m.tag + 3;
      // The source passes the begin label as the destination of `continue`.
      var (x, m1) :- Lower(b, d.(brk := Some(endLabel), cnt := Some(beginLabel)), m.(tag := endLabel));
      Ok(Compound([LabelHere(beginLabel), x, LabelHere(condLabel),
                   Test(c, Jump(beginLabel), Some(Jump(endLabel))), LabelHere(endLabel)]), m1)
    case For(i, c, st, b) =>
      var condLabel, stepLabel, endLabel := m.tag + 1, m.tag + 2, m.tag + 3;
      var (x, m1) :- Lower(b, d.(brk := Some(endLabel), cnt := Some(stepLabel)), m.(tag := endLabel));
      Ok(Compound(ForNodes(i, c, st, x, condLabel, stepLabel, endLabel)), m1)
    case Switch(e, b) =>
      var testLabel, endLabel := m.tag + 1, m.tag + 2;
      var (x, m1) :- Lower(b, d.(brk := Some(endLabel), inSwitch := true),
                           m.(tag := endLabel, cases := [], dflt := None));
      Ok(Compound(SwitchNodes(e, x, m1.cases, m1.dflt, testLabel, endLabel)),
         m1.(cases := m.cases, dflt := m.dflt))
    case Case(lo, hi, b) =>
      // An empty range never touches the case list.
      if !d.inSwitch && lo <= hi then Error(CaseOutside)
      else if lo <= hi && hi > INT_MAX then Error(CaseTooLarge)
      else
        var here := m.tag + 1;
        var (x, m1) :- Lower(b, d, m.(tag := here, cases := m.cases + RangeCases(lo, hi, here)));
        Ok(Compound([LabelHere(here), x]), m1)
    case Default(b) =>
      if m.dflt.Some? then Error(TwoDefaults)
      else
        var here := m.tag + 1;
        var (x, m1) :- Lower(b, d, m.(tag := here, dflt := Some(here)));
        Ok(Compound([LabelHere(here), x]), m1)
    case Break => if d.brk.None? then Error(BreakOutside) else Ok(Jump(d.brk.value), m)
    case Continue => if d.cnt.None? then Error(ContinueOutside) else Ok(Jump(d.cnt.value), m)
    case Goto(n) => Ok(if n in m.labels then Jump(m.labels[n]) else Pending(n), m)
    case Labeled(n, b) =>
      var (x, m1) :- Lower(b, d, m);
      if n in m1.labels then Error(LabelTwice)
      else
        var here := m1.tag + 1;
        Ok(Compound([LabelHere(here), x]), m1.(tag := here, labels := m1.labels[n := here]))
    case Return(e) => Ok(Leave(e), m)
  }

  /** The marks with which the statement behind a label is read. */
  function LabelMarks(s: Stmt, m: Marks): Marks {
    match s
    case Case(lo, hi, _) => m.(tag := m.tag + 1, cases := m.cases + RangeCases(lo, hi, m.tag + 1))
    case Default(_) => m.(tag := m.tag + 1, dflt := Some(m.tag + 1))
    case _ => m
  }

  lemma LabelLowered(s: Stmt, d: Dest, m: Marks)
    requires (s.Case? || s.Default? || s.Labeled?) && Lower(s, d, m).Ok?
    ensures var b := Lower(s.body, d, LabelMarks(s, m));
            && b.Ok?
            && var here := if s.Labeled? then b.marks.tag + 1 else m.tag + 1;
            && Lower(s, d, m).node == Compound([LabelHere(here), b.node])
            && Lower(s, d, m).marks == (if s.Labeled?
               then b.marks.(tag := here, labels := b.marks.labels[s.name := here]) else b.marks)
            && (s.Labeled? ==> s.name !in b.marks.labels) && (s.Default? ==> m.dflt.None?)
  {
    hide RangeCases, ForNodes, SwitchNodes;
  }

  lemma SeqLowered(s: Stmt, d: Dest, m: Marks)
    requires s.Seq?
    ensures Lower(s, d, m)
         == match Lower(s.first, d, m)
            case Error(e) => Error(e)
            case Ok(x, m1) =>
              match Lower(s.second, d, m1)
              case Error(e) => Error(e)
              case Ok(y, m2) => Ok(Compound([x, y]), m2)
  {
    hide ForNodes, SwitchNodes, RangeCases;
  }

  /** A body that is refused is all that can go wrong with a switch. */
  lemma SwitchLowered(s: Stmt, d: Dest, m: Marks)
    requires s.Switch?
    ensures var testLabel, end := m.tag + 1, m.tag + 2;
            var b := Lower(s.body, d.(brk := Some(end), inSwitch := true), m.(tag := end, cases := [], dflt := None));
            Lower(s, d, m)
            == match b
               case Error(e) => Error(e)
               case Ok(x, m1) =>
                 Ok(Compound(SwitchNodes(s.scrutinee, x, m1.cases, m1.dflt, testLabel, end)),
                    m1.(cases := m.cases, dflt := m.dflt))
  {
    hide ForNodes, SwitchNodes, RangeCases;
  }

  lemma IfLowered(s: Stmt, d: Dest, m: Marks)
    requires s.If?
    ensures Lower(s, d, m)
         == match Lower(s.thn, d, m)
            case Error(e) => Error(e)
            case Ok(x, m1) => Ok(Test(s.cond, x, None), m1)
  {
    hide ForNodes, SwitchNodes, RangeCases;
  }

  lemma ForLowered(s: Stmt, d: Dest, m: Marks)
    requires s.For?
    ensures var condLabel, stepLabel, end := m.tag + 1, m.tag + 2, m.tag + 3;
            Lower(s, d, m)
            == match Lower(s.body, d.(brk := Some(end), cnt := Some(stepLabel)), m.(tag := end))
               case Error(e) => Error(e)
               case Ok(x, m1) => Ok(Compound(ForNodes(s.init, s.test, s.step, x, condLabel, stepLabel, end)), m1)
  {
    hide ForNodes, SwitchNodes, RangeCases;
  }

  lemma IfElseLowered(s: Stmt, d: Dest, m: Marks)
    requires s.IfElse?
    ensures Lower(s, d, m)
         == match Lower(s.thn, d, m)
            case Error(e) => Error(e)
            case Ok(x, m1) =>
              match Lower(s.els, d, m1)
              case Error(e) => Error(e)
              case Ok(y, m2) => Ok(Test(s.cond, x, Some(y)), m2)
  {
    hide ForNodes, SwitchNodes, RangeCases;
  }

  lemma WhileLowered(s: Stmt, d: Dest, m: Marks)
    requires s.While?
    ensures var condLabel, end := m.tag + 1, m.tag + 2;
            Lower(s, d, m)
            == match Lower(s.body, d.(brk := Some(end), cnt := Some(condLabel)), m.(tag := end))
               case Error(e) => Error(e)
               case Ok(x, m1) => Ok(Compound([LabelHere(condLabel), ExitUnless(s.cond, end), x, Jump(condLabel),
                                              LabelHere(end)]), m1)
  {
    hide ForNodes, SwitchNodes, RangeCases, ExitUnless;
  }

  lemma DoLowered(s: Stmt, d: Dest, m: Marks)
    requires s.DoWhile?
    ensures var begin, condLabel, end := m.tag + 1, m.tag + 2, m.tag + 3;
            Lower(s, d, m)
            == match Lower(s.body, d.(brk := Some(end), cnt := Some(begin)), m.(tag := end))
               case Error(e) => Error(e)
               case Ok(x, m1) => Ok(Compound([LabelHere(begin), x, LabelHere(condLabel),
                                              Test(s.cond, Jump(begin), Some(Jump(end))), LabelHere(end)]), m1)
  {
    hide ForNodes, SwitchNodes, RangeCases;
  }

  /** The names of jumps that still wait for a label. */
  function Waiting(n: Node): set<LabelName> {
    match n
    case Test(_, t, None) => Waiting(t)
    case Test(_, t, Some(f)) => Waiting(t) + Waiting(f)
    case TestTemp(_, t) => Waiting(t)
    case Pending(name) => {name}
    case Compound(ss) => WaitingAll(ss)
    case _ => {}
  }

  function WaitingAll(ss: seq<Node>): set<LabelName> {
    if ss == [] then {} else Waiting(ss[0]) + WaitingAll(ss[1..])
  }

  // ---------- laying out ----------

  /** How many labels the code of an expression defines. */
  function LabelCount(e: Expr): nat {
    match e
    case Unary(_, x) => LabelCount(x)
    case Cast(_, x) => LabelCount(x)
    case Arith(_, l, r) => LabelCount(l) + LabelCount(r)
    case Relation(_, l, r) => LabelCount(l) + LabelCount(r)
    case LogAnd(l, r) => LabelCount(l) + LabelCount(r) + 2
    case LogOr(l, r) => LabelCount(l) + LabelCount(r) + 2
    case Comma(l, r) => LabelCount(l) + LabelCount(r)
    case Choice(c, t, f) => LabelCount(c) + LabelCount(t) + LabelCount(f) + 2
    case Assign(_, _, r) => LabelCount(r)
    case _ => 0
  }

  datatype Laid = Laid(code: Flat, tag: nat)

  /** `labels` gives pending jumps their destination, `ret` is the label at the end of the function. */
  function LayOut(n: Node, labels: map<LabelName, Label>, ret: Label, tag: nat): (r: Laid)
    ensures r.tag >= tag
    decreases n
  {
    match n
    case Empty => Laid([], tag)
    case Evaluate(e) => Laid([FEval(e, tag)], tag + LabelCount(e))
    case Test(c, t, None) =>
      var elseLabel, endLabel := tag + LabelCount(c) + 1, tag + LabelCount(c) + 2;
      var x := LayOut(t, labels, ret, endLabel);
      Laid([FBranch(c, tag, endLabel)] + x.code + [FLabel(endLabel)], x.tag)
    case Test(c, t, Some(f)) =>
      var elseLabel, endLabel := tag + LabelCount(c) + 1, tag + LabelCount(c) + 2;
      var x := LayOut(t, labels, ret, endLabel);
      var y := LayOut(f, labels, ret, x.tag);
      Laid([FBranch(c, tag, elseLabel)] + x.code + [FJump(endLabel), FLabel(elseLabel)] + y.code + [FLabel(endLabel)],
           y.tag)
    case TestTemp(c, t) =>
      var endLabel := tag + 2;
      var x := LayOut(t, labels, ret, endLabel);
      Laid([FBranchTemp(c, tag, endLabel)] + x.code + [FLabel(endLabel)], x.tag)
    case SetTemp(e) => Laid([FSetTemp(e, tag)], tag + LabelCount(e))
    case Jump(l) => Laid([FJump(l)], tag)
    case Pending(name) => Laid([FJump(if name in labels then labels[name] else ret)], tag)
    case LabelHere(l) => Laid([FLabel(l)], tag)
    case Compound(ss) => LayOutAll(ss, labels, ret, tag)
    case Leave(None) => Laid([FJump(ret)], tag)
    case Leave(Some(e)) => Laid([FReturn(e, tag, ret)], tag + LabelCount(e))
  }

  function LayOutAll(ss: seq<Node>, labels: map<LabelName, Label>, ret: Label, tag: nat): (r: Laid)
    ensures r.tag >= tag
    decreases ss
  {
    if ss == [] then Laid([], tag)
    else
      var a := LayOut(ss[0], labels, ret, tag);
      var b := LayOutAll(ss[1..], labels, ret, a.tag);
      Laid(a.code + b.code, b.tag)
  }

  /** How a two-way test is laid out. */
  lemma TestElseLaid(n: Node, labels: map<LabelName, Label>, ret: Label, tag: nat)
    requires n.Test? && n.els.Some?
    ensures var els, end := tag + LabelCount(n.cond) + 1, tag + LabelCount(n.cond) + 2;
            var x := LayOut(n.thn, labels, ret, end);
            var y := LayOut(n.els.value, labels, ret, x.tag);
            LayOut(n, labels, ret, tag)
            == Laid([FBranch(n.cond, tag, els)] + x.code + [FJump(end), FLabel(els)] + y.code + [FLabel(end)], y.tag)
  {
    hide LayOutAll, LabelCount, Waiting, WaitingAll;
  }

  // ---------- a whole function ----------

  /** A function whose statements parse, whose jumps all have labels, laid out with the return label at the
      end. `first` is the last label used before the function. */
  datatype Function =
    | Function(code: Flat, labels: map<LabelName, Label>, ret: Label, tag: nat)
    | Rejected(error: SyntaxError)

  function Translate(body: Stmt, first: nat): Function {
    var ret := first + 1;
    match Lower(body, Dest(None, None, false), Marks(ret, [], None, map[]))
    case Error(e) => Rejected(e)
    case Ok(node, m) =>
      if !(Waiting(node) <= m.labels.Keys) then Rejected(LabelMissing)
      else
        var x := LayOut(node, m.labels, ret, m.tag);
        Function(x.code + [FLabel(ret)], m.labels, ret, x.tag)
  }
}
