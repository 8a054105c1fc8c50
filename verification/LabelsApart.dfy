/** Every label of a translated function is defined once: parser and generator draw all labels from one
    counter and never reuse one. */
module LabelsApart {
  import opened Options
  import opened Expressions
  import opened Statements
  import opened FlatCode
  import opened Lowering

  /** Labels above `lo` up to `hi`. */
  function Interval(lo: nat, hi: nat): (r: set<Label>)
    ensures forall l: nat :: l in r <==> lo < l <= hi
    decreases hi
  {
    if hi <= lo then {} else Interval(lo, hi - 1) + {hi}
  }

  /** The labels that the instructions of one operation define, those inside its expression included. */
  function DefsOf(op: Op): set<Label> {
    match op
    case FLabel(l) => {l}
    case FEval(e, t) => Interval(t, t + LabelCount(e))
    case FBranch(e, t, _) => Interval(t, t + LabelCount(e))
    case FSetTemp(e, t) => Interval(t, t + LabelCount(e))
    case FReturn(e, t, _) => Interval(t, t + LabelCount(e))
    case _ => {}
  }

  function DefSet(c: Flat): set<Label> {
    if c == [] then {} else DefsOf(c[0]) + DefSet(c[1..])
  }

  /** No label is defined by two operations. */
  ghost predicate Apart(c: Flat) {
    forall i, j :: 0 <= i < j < |c| ==> DefsOf(c[i]) !! DefsOf(c[j])
  }

  lemma {:induction false} DefSetAppend(a: Flat, b: Flat)
    ensures DefSet(a + b) == DefSet(a) + DefSet(b)
    decreases |a|
  {
    if a == [] {
      assert a + b == b;
    } else {
      assert (a + b)[1..] == a[1..] + b;
      DefSetAppend(a[1..], b);
    }
  }

  lemma {:induction false} DefSetCovers(c: Flat, i: nat)
    requires i < |c|
    ensures DefsOf(c[i]) <= DefSet(c)
    decreases i
  {
    if i > 0 { DefSetCovers(c[1..], i - 1); }
  }

  lemma ApartAppend(a: Flat, b: Flat)
    requires Apart(a) && Apart(b) && DefSet(a) !! DefSet(b)
    ensures Apart(a + b)
  {
    forall i, j | 0 <= i < j < |a + b|
      ensures DefsOf((a + b)[i]) !! DefsOf((a + b)[j])
    {
      if i < |a| <= j {
        DefSetCovers(a, i);
        DefSetCovers(b, j - |a|);
      }
    }
  }

  /** Two pieces of code whose labels come from disjoint supplies. */
  lemma Join(a: Flat, p: set<Label>, b: Flat, q: set<Label>)
    requires Apart(a) && DefSet(a) <= p && Apart(b) && DefSet(b) <= q && p !! q
    ensures Apart(a + b) && DefSet(a + b) <= p + q
  {
    DefSetAppend(a, b);
    ApartAppend(a, b);
  }

  lemma ApartOne(op: Op)
    ensures Apart([op]) && DefSet([op]) == DefsOf(op)
  {
    assert DefSet([op][1..]) == {};
  }

  lemma ApartUnique(c: Flat)
    requires Apart(c)
    ensures Unique(c)
  {
    forall i, j | 0 <= i < j < |c| && c[i].FLabel? && c[j].FLabel?
      ensures c[i].name != c[j].name
    {
      assert DefsOf(c[i]) !! DefsOf(c[j]);
      assert c[i].name in DefsOf(c[i]);
    }
  }

  // ---------- labels of parsed statements ----------

  function NodeSet(n: Node): set<Label> {
    match n
    case Test(_, t, None) => NodeSet(t)
    case Test(_, t, Some(f)) => NodeSet(t) + NodeSet(f)
    case TestTemp(_, t) => NodeSet(t)
    case LabelHere(l) => {l}
    case Compound(ss) => NodesSet(ss)
    case _ => {}
  }

  function NodesSet(ss: seq<Node>): set<Label> {
    if ss == [] then {} else NodeSet(ss[0]) + NodesSet(ss[1..])
  }

  predicate NodeOnce(n: Node) {
    match n
    case Test(_, t, None) => NodeOnce(t)
    case Test(_, t, Some(f)) => NodeOnce(t) && NodeOnce(f) && NodeSet(t) !! NodeSet(f)
    case TestTemp(_, t) => NodeOnce(t)
    case Compound(ss) => NodesOnce(ss)
    case _ => true
  }

  predicate NodesOnce(ss: seq<Node>) {
    ss == [] || (NodeOnce(ss[0]) && NodesOnce(ss[1..]) && NodeSet(ss[0]) !! NodesSet(ss[1..]))
  }

  lemma {:induction false} NodesAppend(a: seq<Node>, b: seq<Node>)
    ensures NodesSet(a + b) == NodesSet(a) + NodesSet(b)
    ensures NodesOnce(a + b) <==> NodesOnce(a) && NodesOnce(b) && NodesSet(a) !! NodesSet(b)
    decreases |a|
  {
    if a == [] {
      assert a + b == b;
    } else {
      assert (a + b)[1..] == a[1..] + b;
      NodesAppend(a[1..], b);
    }
  }

  lemma NodesSingle(x: Node)
    ensures NodesSet([x]) == NodeSet(x) && (NodesOnce([x]) <==> NodeOnce(x))
  {
    assert NodesSet([x][1..]) == {};
  }

  lemma NodesTwo(x: Node, y: Node)
    ensures NodesSet([x, y]) == NodeSet(x) + NodeSet(y)
    ensures NodesOnce([x, y]) <==> NodeOnce(x) && NodeOnce(y) && NodeSet(x) !! NodeSet(y)
  {
    assert [x, y] == [x] + [y];
    NodesAppend([x], [y]);
    NodesSingle(x);
    NodesSingle(y);
  }

  lemma NodesAround(pre: seq<Node>, x: Node, post: seq<Node>)
    ensures NodesSet(pre + [x] + post) == NodesSet(pre) + NodeSet(x) + NodesSet(post)
    ensures NodesOnce(pre) && NodeOnce(x) && NodesOnce(post) && NodesSet(pre) !! NodeSet(x) !! NodesSet(post)
            ==> NodesOnce(pre + [x] + post)
  {
    NodesAppend(pre + [x], post);
    NodesAppend(pre, [x]);
    NodesSingle(x);
  }

  /** The statement's labels are new and used once. */
  ghost predicate Fresh(n: Node, lo: nat, hi: nat) {
    NodeOnce(n) && NodeSet(n) <= Interval(lo, hi)
  }

  lemma {:induction false} NoLabelTests(cases: seq<(int, Label)>)
    ensures NodesSet(TestNodes(cases)) == {} && NodesOnce(TestNodes(cases))
    decreases |cases|
  {
    if cases != [] {
      NoLabelTests(cases[1..]);
      var x := TestTemp(cases[0].0, Jump(cases[0].1));
      assert TestNodes(cases) == [x] + TestNodes(cases[1..]);
      NodesAppend([x], TestNodes(cases[1..]));
      NodesSingle(x);
    }
  }

  lemma {:induction false} LowerFresh(s: Stmt, d: Dest, m: Marks)
    requires Lower(s, d, m).Ok?
    ensures Fresh(Lower(s, d, m).node, m.tag, Lower(s, d, m).marks.tag)
    decreases s, 1
  {
    match s
    case Seq(a, b) =>
      var x := Lower(a, d, m);
      var y := Lower(b, d, x.marks);
      LowerFresh(a, d, m);
      LowerFresh(b, d, x.marks);
      NodesTwo(x.node, y.node);
    case If(_, t) => LowerFresh(t, d, m);
    case IfElse(_, t, f) =>
      LowerFresh(t, d, m);
      LowerFresh(f, d, Lower(t, d, m).marks);
    case While(_, _) => FreshLoop(s, d, m);
    case DoWhile(_, _) => FreshLoop(s, d, m);
    case For(_, _, _, _) => FreshFor(s, d, m);
    case Switch(_, _) => FreshSwitch(s, d, m);
    case Case(_, _, _) => FreshLabel(s, d, m);
    case Default(_) => FreshLabel(s, d, m);
    case Labeled(_, _) => FreshLabel(s, d, m);
    case _ =>
  }

  lemma WhileOnce(cond: Expr, x: Node, c: Label, e: Label, hi: nat)
    requires Fresh(x, e, hi) && 0 < c < e <= hi
    ensures Fresh(Compound([LabelHere(c), ExitUnless(cond, e), x, Jump(c), LabelHere(e)]), c - 1, hi)
  {
    hide NodesSet; hide NodesOnce; hide Interval;
    var pre, post := [LabelHere(c), ExitUnless(cond, e)], [Jump(c), LabelHere(e)];
    assert [LabelHere(c), ExitUnless(cond, e), x, Jump(c), LabelHere(e)] == pre + [x] + post;
    NodesTwo(LabelHere(c), ExitUnless(cond, e));
    NodesTwo(Jump(c), LabelHere(e));
    NodesAround(pre, x, post);
  }

  lemma DoOnce(cond: Expr, x: Node, b: Label, c: Label, e: Label, hi: nat)
    requires Fresh(x, e, hi) && 0 < b < c < e <= hi
    ensures Fresh(Compound([LabelHere(b), x, LabelHere(c), Test(cond, Jump(b), Some(Jump(e))), LabelHere(e)]), b - 1,
            hi)
  {
    hide NodesSet; hide NodesOnce; hide Interval;
    var test := Test(cond, Jump(b), Some(Jump(e)));
    var pre, post := [LabelHere(b)], [LabelHere(c), test] + [LabelHere(e)];
    assert [LabelHere(b), x, LabelHere(c), test, LabelHere(e)] == pre + [x] + post;
    NodesSingle(LabelHere(b));
    NodesTwo(LabelHere(c), test);
    NodesSingle(LabelHere(e));
    NodesAppend([LabelHere(c), test], [LabelHere(e)]);
    NodesAround(pre, x, post);
  }

  lemma FreshLoop(s: Stmt, d: Dest, m: Marks)
    requires (s.While? || s.DoWhile?) && Lower(s, d, m).Ok?
    ensures Fresh(Lower(s, d, m).node, m.tag, Lower(s, d, m).marks.tag)
    decreases s, 0
  {
    hide Fresh, Interval;
    if s.While? {
      var c, e := m.tag + 1, m.tag + 2;
      var d1, m1 := d.(brk := Some(e), cnt := Some(c)), m.(tag := e);
      LowerFresh(s.body, d1, m1);
      WhileOnce(s.cond, Lower(s.body, d1, m1).node, c, e, Lower(s.body, d1, m1).marks.tag);
    } else {
      var b, c, e := m.tag + 1, m.tag + 2, m.tag + 3;
      var d1, m1 := d.(brk := Some(e), cnt := Some(b)), m.(tag := e);
      LowerFresh(s.body, d1, m1);
      DoOnce(s.cond, Lower(s.body, d1, m1).node, b, c, e, Lower(s.body, d1, m1).marks.tag);
    }
  }

  /** Nodes without labels of their own. */
  lemma Plain(ss: seq<Node>)
    requires |ss| <= 1 && (ss != [] ==> NodeOnce(ss[0]) && NodeSet(ss[0]) == {})
    ensures NodesOnce(ss) && NodesSet(ss) == {}
  {
    if ss != [] {
      assert ss == [ss[0]];
      NodesSingle(ss[0]);
    }
  }

  lemma ForOnce(i: Option<Expr>, t: Option<Expr>, step: Option<Expr>, x: Node, c: Label, st: Label, e: Label, hi: nat)
    requires Fresh(x, e, hi) && 0 < c < st < e <= hi
    ensures Fresh(Compound(ForNodes(i, t, step, x, c, st, e)), c - 1, hi)
  {
    hide NodesSet; hide NodesOnce;
    var first := if i.Some? then [Evaluate(i.value)] else [];
    var test := if t.Some? then [ExitUnless(t.value, e)] else [];
    var pre := first + [LabelHere(c)] + test;
    var post := [LabelHere(st), OptionalEval(step)] + [Jump(c), LabelHere(e)];
    assert ForNodes(i, t, step, x, c, st, e) == pre + [x] + post;
    Plain(first);
    Plain(test);
    NodesAround(first, LabelHere(c), test);
    NodesTwo(LabelHere(st), OptionalEval(step));
    NodesTwo(Jump(c), LabelHere(e));
    NodesAppend([LabelHere(st), OptionalEval(step)], [Jump(c), LabelHere(e)]);
    NodesAround(pre, x, post);
  }

  lemma FreshFor(s: Stmt, d: Dest, m: Marks)
    requires s.For? && Lower(s, d, m).Ok?
    ensures Fresh(Lower(s, d, m).node, m.tag, Lower(s, d, m).marks.tag)
    decreases s, 0
  {
    hide Fresh, Interval, ForNodes;
    var c, st, e := m.tag + 1, m.tag + 2, m.tag + 3;
    var d1, m1 := d.(brk := Some(e), cnt := Some(st)), m.(tag := e);
    LowerFresh(s.body, d1, m1);
    ForOnce(s.init, s.test, s.step, Lower(s.body, d1, m1).node, c, st, e, Lower(s.body, d1, m1).marks.tag);
  }

  lemma SwitchOnce(ex: Expr, x: Node, cases: seq<(int, Label)>, dflt: Option<Label>, t: Label, e: Label, hi: nat)
    requires Fresh(x, e, hi) && 0 < t < e <= hi
    ensures Fresh(Compound(SwitchNodes(ex, x, cases, dflt, t, e)), t - 1, hi)
  {
    hide TestNodes; hide NodesSet; hide NodesOnce; hide Interval;
    var pre := [SetTemp(ex), Jump(t)];
    var a := [Jump(e), LabelHere(t)];
    var o := if dflt.Some? then [Jump(dflt.value)] else [];
    var post := a + TestNodes(cases) + o + [LabelHere(e)];
    assert SwitchNodes(ex, x, cases, dflt, t, e) == pre + [x] + post;
    NodesTwo(SetTemp(ex), Jump(t));
    NodesTwo(Jump(e), LabelHere(t));
    NoLabelTests(cases);
    Plain(o);
    NodesSingle(LabelHere(e));
    NodesAppend(a, TestNodes(cases));
    NodesAppend(a + TestNodes(cases), o);
    NodesAppend(a + TestNodes(cases) + o, [LabelHere(e)]);
    NodesAround(pre, x, post);
  }

  lemma FreshSwitch(s: Stmt, d: Dest, m: Marks)
    requires s.Switch? && Lower(s, d, m).Ok?
    ensures Fresh(Lower(s, d, m).node, m.tag, Lower(s, d, m).marks.tag)
    decreases s, 0
  {
    hide Fresh, Interval, SwitchNodes;
    var t, e := m.tag + 1, m.tag + 2;
    var d1, m1 := d.(brk := Some(e), inSwitch := true), m.(tag := e, cases := [], dflt := None);
    var r := Lower(s.body, d1, m1);
    LowerFresh(s.body, d1, m1);
    SwitchOnce(s.scrutinee, r.node, r.marks.cases, r.marks.dflt, t, e, r.marks.tag);
  }

  lemma FreshLabel(s: Stmt, d: Dest, m: Marks)
    requires (s.Case? || s.Default? || s.Labeled?) && Lower(s, d, m).Ok?
    ensures Fresh(Lower(s, d, m).node, m.tag, Lower(s, d, m).marks.tag)
    decreases s, 0
  {
    var m1 := match s {
      case Case(lo, hi, _) => m.(tag := m.tag + 1, cases := m.cases + RangeCases(lo, hi, m.tag + 1))
      case Default(_) => m.(tag := m.tag + 1, dflt := Some(m.tag + 1))
      case _ => m
    };
    var b := Lower(s.body, d, m1);
    LowerFresh(s.body, d, m1);
    NodesTwo(LabelHere(if s.Labeled? then b.marks.tag + 1 else m.tag + 1), b.node);
  }

  // ---------- labels of laid-out code ----------

  predicate Below(s: set<Label>, tag: nat) {
    forall l :: l in s ==> l <= tag
  }

  /** Code whose labels are those of the statement and new ones. */
  ghost predicate Separate(c: Flat, own: set<Label>, lo: nat, hi: nat) {
    Apart(c) && DefSet(c) <= own + Interval(lo, hi)
  }

  lemma {:induction false} LayOutApart(n: Node, labels: map<LabelName, Label>, ret: Label, tag: nat)
    requires NodeOnce(n) && Below(NodeSet(n), tag)
    ensures var r := LayOut(n, labels, ret, tag);
            Separate(r.code, NodeSet(n), tag, r.tag)
    decreases n, 1
  {
    match n
    case Test(c, t, None) => ApartTest(n, labels, ret, tag);
    case Test(c, t, Some(f)) => ApartTestElse(n, labels, ret, tag);
    case TestTemp(c, t) => ApartTest(n, labels, ret, tag);
    case Compound(ss) => LayOutAllApart(ss, labels, ret, tag);
    case Leave(None) => ApartOne(FJump(ret));
    case Leave(Some(e)) => ApartOne(FReturn(e, tag, ret));
    case Evaluate(e) => ApartOne(FEval(e, tag));
    case SetTemp(e) => ApartOne(FSetTemp(e, tag));
    case Jump(l) => ApartOne(FJump(l));
    case Pending(name) => ApartOne(FJump(if name in labels then labels[name] else ret));
    case LabelHere(l) => ApartOne(FLabel(l));
    case Empty =>
  }

  lemma ApartTest(n: Node, labels: map<LabelName, Label>, ret: Label, tag: nat)
    requires (n.Test? && n.els.None?) || n.TestTemp?
    requires NodeOnce(n) && Below(NodeSet(n), tag)
    ensures var r := LayOut(n, labels, ret, tag);
            Separate(r.code, NodeSet(n), tag, r.tag)
    decreases n, 0
  {
    hide Apart; hide LabelCount; hide Interval; hide DefSet;
    var count := if n.Test? then LabelCount(n.cond) else 0;
    var end := tag + count + 2;
    var x := LayOut(n.thn, labels, ret, end);
    var head := if n.Test? then FBranch(n.cond, tag, end) else FBranchTemp(n.c, tag, end);
    LayOutApart(n.thn, labels, ret, end);
    hide LayOut;
    var i, own := Interval(tag, tag + count), NodeSet(n.thn) + Interval(end, x.tag);
    ApartOne(head);
    ApartOne(FLabel(end));
    Join([head], i, x.code, own);
    Join([head] + x.code, i + own, [FLabel(end)], {end});
  }

  lemma ApartTestElse(n: Node, labels: map<LabelName, Label>, ret: Label, tag: nat)
    requires n.Test? && n.els.Some?
    requires NodeOnce(n) && Below(NodeSet(n), tag)
    ensures var r := LayOut(n, labels, ret, tag);
            Separate(r.code, NodeSet(n), tag, r.tag)
    decreases n, 0
  {
    hide Apart; hide LabelCount; hide Interval; hide DefSet;
    var els, end := tag + LabelCount(n.cond) + 1, tag + LabelCount(n.cond) + 2;
    var x := LayOut(n.thn, labels, ret, end);
    var y := LayOut(n.els.value, labels, ret, x.tag);
    LayOutApart(n.thn, labels, ret, end);
    LayOutApart(n.els.value, labels, ret, x.tag);
    hide LayOut;
    var head, mid, last := FBranch(n.cond, tag, els), [FJump(end), FLabel(els)], FLabel(end);
    ApartOne(head);
    ApartOne(last);
    assert mid == [FJump(end)] + [FLabel(els)];
    ApartOne(FJump(end));
    ApartOne(FLabel(els));
    var i := Interval(tag, tag + LabelCount(n.cond));
    var p, q := NodeSet(n.thn) + Interval(end, x.tag), NodeSet(n.els.value) + Interval(x.tag, y.tag);
    Join([FJump(end)], {}, [FLabel(els)], {els});
    Join([head], i, x.code, p);
    Join([head] + x.code, i + p, mid, {els});
    Join([head] + x.code + mid, i + p + {els}, y.code, q);
    Join([head] + x.code + mid + y.code, i + p + {els} + q, [last], {end});
  }

  lemma LayOutAllApart(ss: seq<Node>, labels: map<LabelName, Label>, ret: Label, tag: nat)
    requires NodesOnce(ss) && Below(NodesSet(ss), tag)
    ensures var r := LayOutAll(ss, labels, ret, tag);
            Separate(r.code, NodesSet(ss), tag, r.tag)
    decreases ss, 0
  {
    if ss != [] {
      var a := LayOut(ss[0], labels, ret, tag);
      var b := LayOutAll(ss[1..], labels, ret, a.tag);
      LayOutApart(ss[0], labels, ret, tag);
      LayOutAllApart(ss[1..], labels, ret, a.tag);
      Join(a.code, NodeSet(ss[0]) + Interval(tag, a.tag), b.code, NodesSet(ss[1..]) + Interval(a.tag, b.tag));
    }
  }

  /** No two operations of a translated function define the same label. */
  lemma TranslateApart(body: Stmt, first: nat)
    requires Translate(body, first).Function?
    ensures Apart(Translate(body, first).code)
    ensures DefSet(Translate(body, first).code) <= Interval(first, Translate(body, first).tag)
  {
    var ret := first + 1;
    var d, m := Dest(None, None, false), Marks(ret, [], None, map[]);
    var r := Lower(body, d, m);
    LowerFresh(body, d, m);
    var x := LayOut(r.node, r.marks.labels, ret, r.marks.tag);
    LayOutApart(r.node, r.marks.labels, ret, r.marks.tag);
    ApartOne(FLabel(ret));
    Join(x.code, Interval(ret, x.tag), [FLabel(ret)], {ret});
  }
}
