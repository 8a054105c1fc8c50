/** Every jump of a translated function leads to a label that the function defines. */
module JumpsResolve {
  import opened Options
  import opened Expressions
  import opened Statements
  import opened FlatCode
  import opened Lowering
  import opened LabelsApart

  /** The label an operation may jump to. */
  function TargetsOf(op: Op): set<Label> {
    match op
    case FBranch(_, _, l) => {l}
    case FBranchTemp(_, _, l) => {l}
    case FReturn(_, _, l) => {l}
    case FJump(l) => {l}
    case _ => {}
  }

  function TargetSet(c: Flat): set<Label> {
    if c == [] then {} else TargetsOf(c[0]) + TargetSet(c[1..])
  }

  /** The labels defined by label operations. */
  function NamedSet(c: Flat): set<Label> {
    if c == [] then {} else (if c[0].FLabel? then {c[0].name} else {}) + NamedSet(c[1..])
  }

  lemma {:induction false} SetsAppend(a: Flat, b: Flat)
    ensures TargetSet(a + b) == TargetSet(a) + TargetSet(b)
    ensures NamedSet(a + b) == NamedSet(a) + NamedSet(b)
    decreases |a|
  {
    if a == [] {
      assert a + b == b;
    } else {
      assert (a + b)[1..] == a[1..] + b;
      SetsAppend(a[1..], b);
    }
  }

  lemma SetsOne(op: Op)
    ensures TargetSet([op]) == TargetsOf(op) && NamedSet([op]) == if op.FLabel? then {op.name} else {}
  {
    assert TargetSet([op][1..]) == {} && NamedSet([op][1..]) == {};
  }

  // ---------- jumps of parsed statements ----------

  function NodeTargets(n: Node): set<Label> {
    match n
    case Test(_, t, None) => NodeTargets(t)
    case Test(_, t, Some(f)) => NodeTargets(t) + NodeTargets(f)
    case TestTemp(_, t) => NodeTargets(t)
    case Jump(l) => {l}
    case Compound(ss) => NodesTargets(ss)
    case _ => {}
  }

  function NodesTargets(ss: seq<Node>): set<Label> {
    if ss == [] then {} else NodeTargets(ss[0]) + NodesTargets(ss[1..])
  }

  lemma {:induction false} TargetsAppend(a: seq<Node>, b: seq<Node>)
    ensures NodesTargets(a + b) == NodesTargets(a) + NodesTargets(b)
    decreases |a|
  {
    if a == [] {
      assert a + b == b;
    } else {
      assert (a + b)[1..] == a[1..] + b;
      TargetsAppend(a[1..], b);
    }
  }

  lemma TargetsSingle(x: Node)
    ensures NodesTargets([x]) == NodeTargets(x)
  {
    assert NodesTargets([x][1..]) == {};
  }

  lemma TargetsTwo(x: Node, y: Node)
    ensures NodesTargets([x, y]) == NodeTargets(x) + NodeTargets(y)
  {
    assert [x, y] == [x] + [y];
    TargetsAppend([x], [y]);
    TargetsSingle(x);
    TargetsSingle(y);
  }

  lemma TargetsAround(pre: seq<Node>, x: Node, post: seq<Node>)
    ensures NodesTargets(pre + [x] + post) == NodesTargets(pre) + NodeTargets(x) + NodesTargets(post)
  {
    TargetsAppend(pre + [x], post);
    TargetsAppend(pre, [x]);
    TargetsSingle(x);
  }

  function OptSet(l: Option<Label>): set<Label> {
    if l.Some? then {l.value} else {}
  }

  function CaseSet(cases: seq<(int, Label)>): set<Label> {
    if cases == [] then {} else {cases[0].1} + CaseSet(cases[1..])
  }

  lemma {:induction false} CaseSetAppend(a: seq<(int, Label)>, b: seq<(int, Label)>)
    ensures CaseSet(a + b) == CaseSet(a) + CaseSet(b)
    decreases |a|
  {
    if a == [] {
      assert a + b == b;
    } else {
      assert (a + b)[1..] == a[1..] + b;
      CaseSetAppend(a[1..], b);
    }
  }

  lemma {:induction false} CaseSetRange(lo: int, hi: int, l: Label)
    ensures CaseSet(RangeCases(lo, hi, l)) <= {l}
    decreases hi - lo + 1
  {
    if lo <= hi {
      CaseSetRange(lo + 1, hi, l);
      assert RangeCases(lo, hi, l)[1..] == RangeCases(lo + 1, hi, l);
    }
  }

  /** Jumps stay inside the statement or go to a known place; what becomes known lies in the statement. */
  ghost predicate Closed(n: Node, d: Dest, m: Marks, m1: Marks) {
    && NodeTargets(n) <= NodeSet(n) + OptSet(d.brk) + OptSet(d.cnt) + m1.labels.Values
    && CaseSet(m1.cases) <= CaseSet(m.cases) + NodeSet(n)
    && OptSet(m1.dflt) <= OptSet(m.dflt) + NodeSet(n)
    && m.labels.Values <= m1.labels.Values
    && m1.labels.Values <= m.labels.Values + NodeSet(n)
  }

  lemma {:induction false} TestTargets(cases: seq<(int, Label)>)
    ensures NodesTargets(TestNodes(cases)) == CaseSet(cases)
    decreases |cases|
  {
    if cases != [] {
      TestTargets(cases[1..]);
      var x := TestTemp(cases[0].0, Jump(cases[0].1));
      assert NodeTargets(x) == {cases[0].1};
      TargetsAppend([x], TestNodes(cases[1..]));
      TargetsSingle(x);
    }
  }

  lemma {:induction false} LowerClosed(s: Stmt, d: Dest, m: Marks)
    requires Lower(s, d, m).Ok?
    ensures Closed(Lower(s, d, m).node, d, m, Lower(s, d, m).marks)
    decreases s, 1
  {
    match s
    case Seq(_, _) => ClosedPair(s, d, m);
    case If(_, t) => LowerClosed(t, d, m);
    case IfElse(_, _, _) => ClosedPair(s, d, m);
    case While(_, _) => ClosedLoop(s, d, m);
    case DoWhile(_, _) => ClosedLoop(s, d, m);
    case For(_, _, _, _) => ClosedFor(s, d, m);
    case Switch(_, _) => ClosedSwitch(s, d, m);
    case Case(_, _, _) => ClosedLabel(s, d, m);
    case Default(_) => ClosedLabel(s, d, m);
    case Labeled(_, _) => ClosedLabel(s, d, m);
    case Goto(n) =>
      if n in m.labels { assert m.labels[n] in m.labels.Values; }
    case _ =>
  }

  lemma ClosedPair(s: Stmt, d: Dest, m: Marks)
    requires (s.Seq? || s.IfElse?) && Lower(s, d, m).Ok?
    ensures Closed(Lower(s, d, m).node, d, m, Lower(s, d, m).marks)
    decreases s, 0
  {
    var a, b := if s.Seq? then s.first else s.thn, if s.Seq? then s.second else s.els;
    var x := Lower(a, d, m);
    var y := Lower(b, d, x.marks);
    LowerClosed(a, d, m);
    LowerClosed(b, d, x.marks);
    if s.Seq? {
      TargetsTwo(x.node, y.node);
      NodesTwo(x.node, y.node);
    }
    BothClosed(x.node, y.node, Lower(s, d, m).node, d, m, x.marks, y.marks);
  }

  lemma BothClosed(x: Node, y: Node, both: Node, d: Dest, m: Marks, m1: Marks, m2: Marks)
    requires Closed(x, d, m, m1) && Closed(y, d, m1, m2)
    requires NodeTargets(both) == NodeTargets(x) + NodeTargets(y) && NodeSet(both) == NodeSet(x) + NodeSet(y)
    ensures Closed(both, d, m, m2)
  {
    hide NodeTargets, NodeSet, CaseSet;
  }

  /** A loop around a closed body: its own labels catch the loose jumps. */
  lemma AroundClosed(x: Node, n: Node, own: set<Label>, d: Dest, d1: Dest, m: Marks, m0: Marks, m1: Marks)
    requires Closed(x, d1, m0, m1)
    requires m0.cases == m.cases && m0.dflt == m.dflt && m0.labels == m.labels
    requires OptSet(d1.brk) + OptSet(d1.cnt) <= own
    requires NodeTargets(n) <= NodeTargets(x) + own && NodeSet(n) == NodeSet(x) + own
    ensures Closed(n, d, m, m1)
  {
    hide NodeTargets, NodeSet, CaseSet;
  }

  lemma ClosedLoop(s: Stmt, d: Dest, m: Marks)
    requires (s.While? || s.DoWhile?) && Lower(s, d, m).Ok?
    ensures Closed(Lower(s, d, m).node, d, m, Lower(s, d, m).marks)
    decreases s, 0
  {
    hide Closed, Lower, NodeSet, NodeTargets;
    if s.While? {
      WhileLowered(s, d, m);
      var c, e := m.tag + 1, m.tag + 2;
      var d1, m1 := d.(brk := Some(e), cnt := Some(c)), m.(tag := e);
      LowerClosed(s.body, d1, m1);
      var r := Lower(s.body, d1, m1);
      WhileLabels(s.cond, r.node, c, e);
      AroundClosed(r.node, Lower(s, d, m).node, {c, e}, d, d1, m, m1, r.marks);
    } else {
      DoLowered(s, d, m);
      var b, c, e := m.tag + 1, m.tag + 2, m.tag + 3;
      var d1, m1 := d.(brk := Some(e), cnt := Some(b)), m.(tag := e);
      LowerClosed(s.body, d1, m1);
      var r := Lower(s.body, d1, m1);
      DoLabels(s.cond, r.node, b, c, e);
      AroundClosed(r.node, Lower(s, d, m).node, {b, c, e}, d, d1, m, m1, r.marks);
    }
  }

  lemma WhileLabels(cond: Expr, x: Node, c: Label, e: Label)
    ensures var n := Compound([LabelHere(c), ExitUnless(cond, e), x, Jump(c), LabelHere(e)]);
            NodeTargets(n) == NodeTargets(x) + {c, e} && NodeSet(n) == NodeSet(x) + {c, e}
  {
    hide NodesSet; hide NodesTargets; hide NodesOnce;
    var pre, post := [LabelHere(c), ExitUnless(cond, e)], [Jump(c), LabelHere(e)];
    assert [LabelHere(c), ExitUnless(cond, e), x, Jump(c), LabelHere(e)] == pre + [x] + post;
    NodesTwo(LabelHere(c), ExitUnless(cond, e));
    NodesTwo(Jump(c), LabelHere(e));
    NodesAround(pre, x, post);
    TargetsTwo(LabelHere(c), ExitUnless(cond, e));
    TargetsTwo(Jump(c), LabelHere(e));
    TargetsAround(pre, x, post);
  }

  lemma DoLabels(cond: Expr, x: Node, b: Label, c: Label, e: Label)
    ensures var n := Compound([LabelHere(b), x, LabelHere(c), Test(cond, Jump(b), Some(Jump(e))), LabelHere(e)]);
            NodeTargets(n) == NodeTargets(x) + {b, e} && NodeSet(n) == NodeSet(x) + {b, c, e}
  {
    hide NodesSet; hide NodesTargets; hide NodesOnce;
    var test := Test(cond, Jump(b), Some(Jump(e)));
    var pre, post := [LabelHere(b)], [LabelHere(c), test] + [LabelHere(e)];
    assert [LabelHere(b), x, LabelHere(c), test, LabelHere(e)] == pre + [x] + post;
    NodesSingle(LabelHere(b));
    NodesTwo(LabelHere(c), test);
    NodesSingle(LabelHere(e));
    NodesAppend([LabelHere(c), test], [LabelHere(e)]);
    NodesAround(pre, x, post);
    TargetsSingle(LabelHere(b));
    TargetsTwo(LabelHere(c), test);
    TargetsSingle(LabelHere(e));
    TargetsAppend([LabelHere(c), test], [LabelHere(e)]);
    TargetsAround(pre, x, post);
  }

  /** What stands behind the body of a for loop. */
  lemma ForTail(step: Option<Expr>, c: Label, st: Label, e: Label)
    ensures var post := [LabelHere(st), OptionalEval(step)] + [Jump(c), LabelHere(e)];
            NodesTargets(post) == {c} && NodesSet(post) == {st, e}
  {
    hide NodesSet, NodesTargets, NodesOnce;
    NodesTwo(LabelHere(st), OptionalEval(step));
    NodesTwo(Jump(c), LabelHere(e));
    NodesAppend([LabelHere(st), OptionalEval(step)], [Jump(c), LabelHere(e)]);
    TargetsTwo(LabelHere(st), OptionalEval(step));
    TargetsTwo(Jump(c), LabelHere(e));
    TargetsAppend([LabelHere(st), OptionalEval(step)], [Jump(c), LabelHere(e)]);
  }

  /** What stands in front of it. */
  lemma ForHead(i: Option<Expr>, t: Option<Expr>, c: Label, e: Label)
    ensures var first := if i.Some? then [Evaluate(i.value)] else [];
            var test := if t.Some? then [ExitUnless(t.value, e)] else [];
            NodesTargets(first + [LabelHere(c)] + test) <= {e} && NodesSet(first + [LabelHere(c)] + test) == {c}
  {
    hide NodesSet, NodesTargets, NodesOnce;
    var first := if i.Some? then [Evaluate(i.value)] else [];
    var test := if t.Some? then [ExitUnless(t.value, e)] else [];
    Plain(first);
    Plain(test);
    NodesAround(first, LabelHere(c), test);
    AtMostOne(first);
    AtMostOne(test);
    TargetsAround(first, LabelHere(c), test);
  }

  lemma ForLabels(i: Option<Expr>, t: Option<Expr>, step: Option<Expr>, x: Node, c: Label, st: Label, e: Label)
    ensures var n := Compound(ForNodes(i, t, step, x, c, st, e));
            NodeTargets(n) <= NodeTargets(x) + {c, st, e} && NodeSet(n) == NodeSet(x) + {c, st, e}
  {
    hide NodesSet, NodesTargets, NodesOnce;
    var first := if i.Some? then [Evaluate(i.value)] else [];
    var test := if t.Some? then [ExitUnless(t.value, e)] else [];
    var pre, post := first + [LabelHere(c)] + test, [LabelHere(st), OptionalEval(step)] + [Jump(c), LabelHere(e)];
    assert ForNodes(i, t, step, x, c, st, e) == pre + [x] + post;
    ForHead(i, t, c, e);
    ForTail(step, c, st, e);
    NodesAround(pre, x, post);
    TargetsAround(pre, x, post);
  }

  lemma AtMostOne(ss: seq<Node>)
    requires |ss| <= 1
    ensures NodesTargets(ss) == if ss == [] then {} else NodeTargets(ss[0])
  {
    if ss != [] {
      assert ss == [ss[0]];
      TargetsSingle(ss[0]);
    }
  }

  lemma ClosedFor(s: Stmt, d: Dest, m: Marks)
    requires s.For? && Lower(s, d, m).Ok?
    ensures Closed(Lower(s, d, m).node, d, m, Lower(s, d, m).marks)
    decreases s, 0
  {
    hide Closed, ForNodes;
    var c, st, e := m.tag + 1, m.tag + 2, m.tag + 3;
    var d1, m1 := d.(brk := Some(e), cnt := Some(st)), m.(tag := e);
    LowerClosed(s.body, d1, m1);
    var r := Lower(s.body, d1, m1);
    ForLabels(s.init, s.test, s.step, r.node, c, st, e);
    AroundClosed(r.node, Lower(s, d, m).node, {c, st, e}, d, d1, m, m1, r.marks);
  }

  /** What stands behind the body of a switch. */
  function SwitchRest(cases: seq<(int, Label)>, dflt: Option<Label>, t: Label, e: Label): seq<Node> {
    [Jump(e), LabelHere(t)] + TestNodes(cases) + (if dflt.Some? then [Jump(dflt.value)] else []) + [LabelHere(e)]
  }

  lemma RestNames(cases: seq<(int, Label)>, dflt: Option<Label>, t: Label, e: Label)
    ensures NodesSet(SwitchRest(cases, dflt, t, e)) == {t, e}
  {
    hide NodesSet, NodesOnce, TestNodes;
    var a, o := [Jump(e), LabelHere(t)], if dflt.Some? then [Jump(dflt.value)] else [];
    NodesTwo(Jump(e), LabelHere(t));
    NoLabelTests(cases);
    Plain(o);
    NodesSingle(LabelHere(e));
    NodesAppend(a, TestNodes(cases));
    NodesAppend(a + TestNodes(cases), o);
    NodesAppend(a + TestNodes(cases) + o, [LabelHere(e)]);
  }

  lemma RestTargets(cases: seq<(int, Label)>, dflt: Option<Label>, t: Label, e: Label)
    ensures NodesTargets(SwitchRest(cases, dflt, t, e)) == {e} + CaseSet(cases) + OptSet(dflt)
  {
    hide NodesTargets, TestNodes, CaseSet;
    var a, o := [Jump(e), LabelHere(t)], if dflt.Some? then [Jump(dflt.value)] else [];
    TargetsTwo(Jump(e), LabelHere(t));
    TestTargets(cases);
    AtMostOne(o);
    TargetsSingle(LabelHere(e));
    TargetsAppend(a, TestNodes(cases));
    TargetsAppend(a + TestNodes(cases), o);
    TargetsAppend(a + TestNodes(cases) + o, [LabelHere(e)]);
  }

  lemma SwitchSplit(ex: Expr, x: Node, cases: seq<(int, Label)>, dflt: Option<Label>, t: Label, e: Label)
    ensures SwitchNodes(ex, x, cases, dflt, t, e) == [SetTemp(ex), Jump(t)] + [x] + SwitchRest(cases, dflt, t, e)
  {
    hide TestNodes;
  }

  lemma SwitchLabels(ex: Expr, x: Node, cases: seq<(int, Label)>, dflt: Option<Label>, t: Label, e: Label)
    ensures var n := Compound(SwitchNodes(ex, x, cases, dflt, t, e));
            && NodeTargets(n) == NodeTargets(x) + {t, e} + CaseSet(cases) + OptSet(dflt)
            && NodeSet(n) == NodeSet(x) + {t, e}
  {
    hide NodesSet, NodesTargets, NodesOnce, TestNodes, CaseSet, SwitchNodes, SwitchRest;
    var pre, post := [SetTemp(ex), Jump(t)], SwitchRest(cases, dflt, t, e);
    SwitchSplit(ex, x, cases, dflt, t, e);
    NodesTwo(SetTemp(ex), Jump(t));
    RestNames(cases, dflt, t, e);
    NodesAround(pre, x, post);
    TargetsTwo(SetTemp(ex), Jump(t));
    RestTargets(cases, dflt, t, e);
    TargetsAround(pre, x, post);
  }

  lemma ClosedSwitch(s: Stmt, d: Dest, m: Marks)
    requires s.Switch? && Lower(s, d, m).Ok?
    ensures Closed(Lower(s, d, m).node, d, m, Lower(s, d, m).marks)
    decreases s, 0
  {
    hide SwitchNodes;
    var t, e := m.tag + 1, m.tag + 2;
    var d1, m1 := d.(brk := Some(e), inSwitch := true), m.(tag := e, cases := [], dflt := None);
    LowerClosed(s.body, d1, m1);
    var r := Lower(s.body, d1, m1);
    SwitchLabels(s.scrutinee, r.node, r.marks.cases, r.marks.dflt, t, e);
  }

  lemma LabelPair(here: Label, x: Node)
    ensures NodeTargets(Compound([LabelHere(here), x])) == NodeTargets(x)
    ensures NodeSet(Compound([LabelHere(here), x])) == {here} + NodeSet(x)
  {
    TargetsTwo(LabelHere(here), x);
    NodesTwo(LabelHere(here), x);
  }

  lemma ClosedLabel(s: Stmt, d: Dest, m: Marks)
    requires (s.Case? || s.Default? || s.Labeled?) && Lower(s, d, m).Ok?
    ensures Closed(Lower(s, d, m).node, d, m, Lower(s, d, m).marks)
    decreases s, 0
  {
    hide Lower, NodesSet, NodesTargets, NodeSet, NodeTargets, CaseSet, RangeCases;
    LabelLowered(s, d, m);
    var b := Lower(s.body, d, LabelMarks(s, m));
    LowerClosed(s.body, d, LabelMarks(s, m));
    var here := if s.Labeled? then b.marks.tag + 1 else m.tag + 1;
    LabelPair(here, b.node);
    if s.Case? {
      CaseSetAppend(m.cases, RangeCases(s.lo, s.hi, here));
      CaseSetRange(s.lo, s.hi, here);
    } else if s.Labeled? {
      AddValue(b.marks.labels, s.name, here);
    }
  }

  lemma AddValue(labels: map<LabelName, Label>, n: LabelName, l: Label)
    requires n !in labels
    ensures labels[n := l].Values == labels.Values + {l}
  {
    var m := labels[n := l];
    forall v | v in labels.Values
      ensures v in m.Values
    {
      var k :| k in labels && labels[k] == v;
      assert m[k] == v;
    }
    assert m[n] == l;
  }

  // ---------- jumps of laid-out code ----------

  /** Code whose jumps lead into itself or to the given labels. */
  ghost predicate Inside(c: Flat, own: set<Label>, outer: set<Label>) {
    own <= NamedSet(c) && TargetSet(c) <= NamedSet(c) + outer
  }

  lemma InsideJoin(a: Flat, p: set<Label>, b: Flat, q: set<Label>, outer: set<Label>)
    requires Inside(a, p, outer) && Inside(b, q, outer)
    ensures Inside(a + b, p + q, outer)
  {
    SetsAppend(a, b);
  }

  lemma Loosen(c: Flat, own: set<Label>, outer: set<Label>, wider: set<Label>)
    requires Inside(c, own, outer) && outer <= wider
    ensures Inside(c, own, wider)
  {
  }

  /** Where the code of a node may jump to besides its own labels. */
  function Outer(n: Node, labels: map<LabelName, Label>, ret: Label): set<Label> {
    NodeTargets(n) + labels.Values + {ret}
  }

  lemma {:induction false} LayOutInside(n: Node, labels: map<LabelName, Label>, ret: Label, tag: nat)
    requires Waiting(n) <= labels.Keys
    ensures Inside(LayOut(n, labels, ret, tag).code, NodeSet(n), Outer(n, labels, ret))
    decreases n, 1
  {
    match n
    case Test(_, _, None) => InsideTest(n, labels, ret, tag);
    case Test(_, _, Some(_)) => InsideTestElse(n, labels, ret, tag);
    case TestTemp(_, _) => InsideTest(n, labels, ret, tag);
    case Compound(ss) => LayOutAllInside(ss, labels, ret, tag);
    case Leave(None) => SetsOne(FJump(ret));
    case Leave(Some(e)) => SetsOne(FReturn(e, tag, ret));
    case Evaluate(e) => SetsOne(FEval(e, tag));
    case SetTemp(e) => SetsOne(FSetTemp(e, tag));
    case Jump(l) => SetsOne(FJump(l));
    case Pending(name) =>
      SetsOne(FJump(labels[name]));
      assert labels[name] in labels.Values;
    case LabelHere(l) => SetsOne(FLabel(l));
    case Empty =>
  }

  lemma InsideTest(n: Node, labels: map<LabelName, Label>, ret: Label, tag: nat)
    requires (n.Test? && n.els.None?) || n.TestTemp?
    requires Waiting(n) <= labels.Keys
    ensures Inside(LayOut(n, labels, ret, tag).code, NodeSet(n), Outer(n, labels, ret))
    decreases n, 0
  {
    hide NamedSet; hide TargetSet;
    var end := tag + (if n.Test? then LabelCount(n.cond) else 0) + 2;
    var x := LayOut(n.thn, labels, ret, end);
    var head := if n.Test? then FBranch(n.cond, tag, end) else FBranchTemp(n.c, tag, end);
    LayOutInside(n.thn, labels, ret, end);
    hide LayOut;
    SetsOne(head);
    SetsOne(FLabel(end));
    SetsAppend([head], x.code);
    SetsAppend([head] + x.code, [FLabel(end)]);
  }

  /** The sets of a two-way test around the code of its arms. */
  lemma TestElseSets(head: Op, x: Flat, els: Label, end: Label, y: Flat)
    requires !head.FLabel?
    ensures var c := [head] + x + [FJump(end), FLabel(els)] + y + [FLabel(end)];
            && TargetSet(c) == TargetsOf(head) + TargetSet(x) + {end} + TargetSet(y)
            && NamedSet(c) == NamedSet(x) + {els} + NamedSet(y) + {end}
  {
    hide NamedSet, TargetSet;
    var mid := [FJump(end), FLabel(els)];
    SetsOne(head);
    SetsOne(FLabel(end));
    SetsOne(FJump(end));
    SetsOne(FLabel(els));
    assert mid == [FJump(end)] + [FLabel(els)];
    SetsAppend([FJump(end)], [FLabel(els)]);
    SetsAppend([head], x);
    SetsAppend([head] + x, mid);
    SetsAppend([head] + x + mid, y);
    SetsAppend([head] + x + mid + y, [FLabel(end)]);
  }

  lemma InsideTestElse(n: Node, labels: map<LabelName, Label>, ret: Label, tag: nat)
    requires n.Test? && n.els.Some?
    requires Waiting(n) <= labels.Keys
    ensures Inside(LayOut(n, labels, ret, tag).code, NodeSet(n), Outer(n, labels, ret))
    decreases n, 0
  {
    hide NamedSet, TargetSet, LayOut, LabelCount;
    var els, end := tag + LabelCount(n.cond) + 1, tag + LabelCount(n.cond) + 2;
    var x := LayOut(n.thn, labels, ret, end);
    var y := LayOut(n.els.value, labels, ret, x.tag);
    LayOutInside(n.thn, labels, ret, end);
    LayOutInside(n.els.value, labels, ret, x.tag);
    TestElseLaid(n, labels, ret, tag);
    TestElseSets(FBranch(n.cond, tag, els), x.code, els, end, y.code);
  }

  lemma LayOutAllInside(ss: seq<Node>, labels: map<LabelName, Label>, ret: Label, tag: nat)
    requires WaitingAll(ss) <= labels.Keys
    ensures Inside(LayOutAll(ss, labels, ret, tag).code, NodesSet(ss), NodesTargets(ss) + labels.Values + {ret})
    decreases ss, 0
  {
    if ss != [] {
      var outer := NodesTargets(ss) + labels.Values + {ret};
      var a := LayOut(ss[0], labels, ret, tag);
      var b := LayOutAll(ss[1..], labels, ret, a.tag);
      LayOutInside(ss[0], labels, ret, tag);
      LayOutAllInside(ss[1..], labels, ret, a.tag);
      Loosen(a.code, NodeSet(ss[0]), Outer(ss[0], labels, ret), outer);
      Loosen(b.code, NodesSet(ss[1..]), NodesTargets(ss[1..]) + labels.Values + {ret}, outer);
      InsideJoin(a.code, NodeSet(ss[0]), b.code, NodesSet(ss[1..]), outer);
    }
  }

  // ---------- a whole function ----------

  lemma {:induction false} NamedIsTarget(c: Flat, l: Label)
    requires l in NamedSet(c)
    ensures exists i :: 0 <= i < |c| && c[i] == FLabel(l)
  {
    if c[0] != FLabel(l) {
      NamedIsTarget(c[1..], l);
      var i :| 0 <= i < |c[1..]| && c[1..][i] == FLabel(l);
      assert c[i + 1] == FLabel(l);
    }
  }

  lemma {:induction false} TargetSetCovers(c: Flat, i: nat)
    requires i < |c|
    ensures TargetsOf(c[i]) <= TargetSet(c)
    decreases i
  {
    if i > 0 { TargetSetCovers(c[1..], i - 1); }
  }

  /** Every jump of a translated function has exactly one label to go to. */
  lemma EveryJumpResolves(body: Stmt, first: nat, i: nat, l: Label)
    requires Translate(body, first).Function?
    requires i < |Translate(body, first).code| && l in TargetsOf(Translate(body, first).code[i])
    ensures var code := Translate(body, first).code;
            && Target(code, l) < |code| && code[Target(code, l)] == FLabel(l)
            && forall j :: 0 <= j < |code| && code[j] == FLabel(l) ==> j == Target(code, l)
  {
    var t := Translate(body, first);
    var d, m := Dest(None, None, false), Marks(t.ret, [], None, map[]);
    var r := Lower(body, d, m);
    LowerClosed(body, d, m);
    var x := LayOut(r.node, t.labels, t.ret, r.marks.tag);
    LayOutInside(r.node, t.labels, t.ret, r.marks.tag);
    SetsAppend(x.code, [FLabel(t.ret)]);
    SetsOne(FLabel(t.ret));
    TargetSetCovers(t.code, i);
    assert m.labels.Values == {};
    NamedIsTarget(t.code, l);
    TranslateApart(body, first);
    ApartUnique(t.code);
    var k :| 0 <= k < |t.code| && t.code[k] == FLabel(l);
    TargetIs(t.code, l, k);
  }
}
