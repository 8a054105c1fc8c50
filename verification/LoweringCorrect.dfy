/** The flat code of a translated function is laid out as the checker wants, so it has the same
    terminating runs as the structured function. */
module LoweringCorrect {
  import opened Options
  import opened Words
  import opened Expressions
  import opened Statements
  import opened FlatCode
  import opened Layout
  import opened Lowering

  function AsSet(l: Option<Label>): set<Label> {
    if l.Some? then {l.value} else {}
  }

  /** The code of a parsed statement is at `p`, and every label it needs is known. */
  ghost predicate Placed(prog: Flat, p: nat, x: Node, m1: Marks, names: Names, tag: nat) {
    && FlatAt(prog, p, LayOut(x, names.labels, names.ret, tag).code)
    && Waiting(x) <= names.labels.Keys
    && (forall n :: n in m1.labels ==> n in names.labels && names.labels[n] == m1.labels[n])
  }

  /** What parsing recorded is what the checker reads off the code. */
  ghost predicate Fits(prog: Flat, p: nat, s: Stmt, d: Dest, m: Marks, x: Node, m1: Marks, names: Names, tag: nat) {
    var c := Check(prog, p, s, names);
    && c.Good?
    && c.end == p + |LayOut(x, names.labels, names.ret, tag).code|
    && c.brks <= AsSet(d.brk) && c.cnts <= AsSet(d.cnt)
    && m1.cases == m.cases + c.cases
    && m1.dflt == OneDefault(m.dflt, c.dflt) && (m.dflt.None? || c.dflt.None?)
  }

  /** Labels of the function are only added. */
  lemma {:induction false} LabelsGrow(s: Stmt, d: Dest, m: Marks)
    ensures var r := Lower(s, d, m);
            r.Ok? ==> forall n :: n in m.labels ==> n in r.marks.labels && r.marks.labels[n] == m.labels[n]
    decreases s
  {
    match s
    case Seq(a, b) =>
      LabelsGrow(a, d, m);
      if Lower(a, d, m).Ok? { LabelsGrow(b, d, Lower(a, d, m).marks); }
    case If(_, t) => LabelsGrow(t, d, m);
    case IfElse(_, t, f) =>
      LabelsGrow(t, d, m);
      if Lower(t, d, m).Ok? { LabelsGrow(f, d, Lower(t, d, m).marks); }
    case While(_, b) => LabelsGrow(b, d.(brk := Some(m.tag + 2), cnt := Some(m.tag + 1)), m.(tag := m.tag + 2));
    case DoWhile(b, _) => LabelsGrow(b, d.(brk := Some(m.tag + 3), cnt := Some(m.tag + 1)), m.(tag := m.tag + 3));
    case For(_, _, _, b) => LabelsGrow(b, d.(brk := Some(m.tag + 3), cnt := Some(m.tag + 2)), m.(tag := m.tag + 3));
    case Switch(_, b) =>
      LabelsGrow(b, d.(brk := Some(m.tag + 2), inSwitch := true), m.(tag := m.tag + 2, cases := [], dflt := None));
    case Case(lo, hi, b) =>
      LabelsGrow(b, d, m.(tag := m.tag + 1, cases := m.cases + RangeCases(lo, hi, m.tag + 1)));
    case Default(b) => LabelsGrow(b, d, m.(tag := m.tag + 1, dflt := Some(m.tag + 1)));
    case Labeled(_, b) => LabelsGrow(b, d, m);
    case _ =>
  }

  // ---------- lists of nodes ----------

  lemma LayOutCons(x: Node, rest: seq<Node>, names: Names, tag: nat)
    ensures var a := LayOut(x, names.labels, names.ret, tag);
            var b := LayOutAll(rest, names.labels, names.ret, a.tag);
            LayOutAll([x] + rest, names.labels, names.ret, tag) == Laid(a.code + b.code, b.tag)
    ensures WaitingAll([x] + rest) == Waiting(x) + WaitingAll(rest)
  {
    assert ([x] + rest)[1..] == rest;
  }

  lemma {:induction false} LayOutAppend(a: seq<Node>, b: seq<Node>, names: Names, tag: nat)
    ensures var x := LayOutAll(a, names.labels, names.ret, tag);
            var y := LayOutAll(b, names.labels, names.ret, x.tag);
            LayOutAll(a + b, names.labels, names.ret, tag) == Laid(x.code + y.code, y.tag)
    ensures WaitingAll(a + b) == WaitingAll(a) + WaitingAll(b)
    decreases |a|
  {
    if a == [] {
      assert a + b == b;
    } else {
      var t := LayOut(a[0], names.labels, names.ret, tag).tag;
      LayOutAppend(a[1..], b, names, t);
      assert (a + b)[1..] == a[1..] + b;
      assert a + b == [a[0]] + (a[1..] + b);
      LayOutCons(a[0], a[1..] + b, names, tag);
    }
  }

  lemma LayOutOne(x: Node, names: Names, tag: nat)
    ensures LayOutAll([x], names.labels, names.ret, tag) == LayOut(x, names.labels, names.ret, tag)
    ensures WaitingAll([x]) == Waiting(x)
  {
    LayOutCons(x, [], names, tag);
    assert [x] + [] == [x];
  }

  lemma LayOutTwo(x: Node, y: Node, names: Names, tag: nat)
    ensures var a := LayOut(x, names.labels, names.ret, tag);
            var b := LayOut(y, names.labels, names.ret, a.tag);
            LayOutAll([x, y], names.labels, names.ret, tag) == Laid(a.code + b.code, b.tag)
    ensures WaitingAll([x, y]) == Waiting(x) + Waiting(y)
  {
    hide LayOut; hide Waiting;
    LayOutCons(x, [y], names, tag);
    LayOutOne(y, names, LayOut(x, names.labels, names.ret, tag).tag);
    assert [x] + [y] == [x, y];
  }

  lemma LayOutPair(x: Node, y: Node, names: Names, tag: nat)
    ensures var a := LayOut(x, names.labels, names.ret, tag);
            var b := LayOut(y, names.labels, names.ret, a.tag);
            LayOut(Compound([x, y]), names.labels, names.ret, tag) == Laid(a.code + b.code, b.tag)
    ensures Waiting(Compound([x, y])) == Waiting(x) + Waiting(y)
  {
    LayOutTwo(x, y, names, tag);
  }

  lemma CompoundLaid(ss: seq<Node>, names: Names, tag: nat)
    ensures LayOut(Compound(ss), names.labels, names.ret, tag) == LayOutAll(ss, names.labels, names.ret, tag)
    ensures Waiting(Compound(ss)) == WaitingAll(ss)
  {
    hide LayOutAll, WaitingAll;
  }

  lemma LabelLaid(l: Label, names: Names, tag: nat)
    ensures LayOut(LabelHere(l), names.labels, names.ret, tag) == Laid([FLabel(l)], tag)
    ensures Waiting(LabelHere(l)) == {}
  {
  }

  lemma WaitingBoth(c: Expr, x: Node, y: Node)
    ensures Waiting(Test(c, x, Some(y))) == Waiting(x) + Waiting(y)
  {
  }

  // ---------- every statement ----------

  lemma {:induction false} LowerFits(prog: Flat, p: nat, s: Stmt, d: Dest, m: Marks, names: Names, tag: nat)
    requires Lower(s, d, m).Ok?
    requires Placed(prog, p, Lower(s, d, m).node, Lower(s, d, m).marks, names, tag)
    ensures Fits(prog, p, s, d, m, Lower(s, d, m).node, Lower(s, d, m).marks, names, tag)
    decreases s, 1
  {
    var x, m1 := Lower(s, d, m).node, Lower(s, d, m).marks;
    var code := LayOut(x, names.labels, names.ret, tag).code;
    match s
    case Skip =>
    case Do(_) => OpAt(prog, p, code, 0);
    case Seq(_, _) => FitsSeq(prog, p, s, d, m, names, tag);
    case If(_, _) => FitsIf(prog, p, s, d, m, names, tag);
    case IfElse(_, _, _) => FitsIfElse(prog, p, s, d, m, names, tag);
    case While(_, _) => FitsWhile(prog, p, s, d, m, names, tag);
    case DoWhile(_, _) => FitsDo(prog, p, s, d, m, names, tag);
    case For(_, _, _, _) => FitsFor(prog, p, s, d, m, names, tag);
    case Switch(_, _) => FitsSwitch(prog, p, s, d, m, names, tag);
    case Case(_, _, _) => FitsLabel(prog, p, s, d, m, names, tag);
    case Default(_) => FitsLabel(prog, p, s, d, m, names, tag);
    case Labeled(_, _) => FitsLabel(prog, p, s, d, m, names, tag);
    case Break => OpAt(prog, p, code, 0);
    case Continue => OpAt(prog, p, code, 0);
    case Goto(_) => OpAt(prog, p, code, 0);
    case Return(_) => OpAt(prog, p, code, 0);
  }

  function MarksOf(s: Stmt, d: Dest, m: Marks): Marks
    requires Lower(s, d, m).Ok?
  {
    Lower(s, d, m).marks
  }

  /** The code of a part of the statement. */
  function CodeOf(s: Stmt, d: Dest, m: Marks, names: Names, tag: nat): Laid
    requires Lower(s, d, m).Ok?
  {
    LayOut(Lower(s, d, m).node, names.labels, names.ret, tag)
  }

  lemma SeqShape(prog: Flat, p: nat, s: Stmt, d: Dest, m: Marks, names: Names, tag: nat)
    requires s.Seq? && Lower(s, d, m).Ok?
    requires Placed(prog, p, Lower(s, d, m).node, Lower(s, d, m).marks, names, tag)
    ensures var a := Lower(s.first, d, m);
            a.Ok? &&
            var b := Lower(s.second, d, a.marks);
            var ca := CodeOf(s.first, d, m, names, tag);
            && b.Ok? && MarksOf(s, d, m) == b.marks
            && Placed(prog, p, a.node, a.marks, names, tag)
            && Placed(prog, p + |ca.code|, b.node, b.marks, names, ca.tag)
            && |CodeOf(s, d, m, names, tag).code| == |ca.code| + |CodeOf(s.second, d, a.marks, names, ca.tag).code|
  {
    hide Check;
    var a := Lower(s.first, d, m);
    var b := Lower(s.second, d, a.marks);
    LayOutTwo(a.node, b.node, names, tag);
    var ca := CodeOf(s.first, d, m, names, tag);
    FlatSplit(prog, p, ca.code, CodeOf(s.second, d, a.marks, names, ca.tag).code);
    LabelsGrow(s.second, d, a.marks);
  }

  lemma FitsSeq(prog: Flat, p: nat, s: Stmt, d: Dest, m: Marks, names: Names, tag: nat)
    requires s.Seq? && Lower(s, d, m).Ok?
    requires Placed(prog, p, Lower(s, d, m).node, Lower(s, d, m).marks, names, tag)
    ensures Fits(prog, p, s, d, m, Lower(s, d, m).node, Lower(s, d, m).marks, names, tag)
    decreases s, 0
  {
    hide Lower, LayOut, Waiting, FlatAt;
    SeqShape(prog, p, s, d, m, names, tag);
    var ca := CodeOf(s.first, d, m, names, tag);
    var m1 := MarksOf(s.first, d, m);
    LowerFits(prog, p, s.first, d, m, names, tag);
    LowerFits(prog, p + |ca.code|, s.second, d, m1, names, ca.tag);
  }

  lemma OneArmLaid(c: Expr, x: Node, names: Names, tag: nat)
    ensures var end := tag + LabelCount(c) + 2;
            var t := LayOut(x, names.labels, names.ret, end);
            && LayOut(Test(c, x, None), names.labels, names.ret, tag)
               == Laid([FBranch(c, tag, end)] + t.code + [FLabel(end)], t.tag)
            && Waiting(Test(c, x, None)) == Waiting(x)
  {
    hide LayOutAll, LabelCount, WaitingAll;
  }

  lemma IfShape(prog: Flat, p: nat, s: Stmt, d: Dest, m: Marks, names: Names, tag: nat)
    requires s.If? && Lower(s, d, m).Ok?
    requires Placed(prog, p, Lower(s, d, m).node, Lower(s, d, m).marks, names, tag)
    ensures var t := Lower(s.thn, d, m);
            var end := tag + LabelCount(s.cond) + 2;
            t.Ok? &&
            var ct := CodeOf(s.thn, d, m, names, end);
            && MarksOf(s, d, m) == t.marks && Placed(prog, p + 1, t.node, t.marks, names, end)
            && Is(prog, p, FBranch(s.cond, tag, end)) && Is(prog, p + 1 + |ct.code|, FLabel(end))
            && |CodeOf(s, d, m, names, tag).code| == |ct.code| + 2
  {
    hide Lower, LayOut, Waiting, FlatAt, LabelCount;
    IfLowered(s, d, m);
    OneArmLaid(s.cond, Lower(s.thn, d, m).node, names, tag);
    var end := tag + LabelCount(s.cond) + 2;
    var ct := CodeOf(s.thn, d, m, names, end);
    var head, last := [FBranch(s.cond, tag, end)], [FLabel(end)];
    FlatSplit(prog, p, head + ct.code, last);
    FlatSplit(prog, p, head, ct.code);
    OpAt(prog, p, head, 0);
    OpAt(prog, p + 1 + |ct.code|, last, 0);
  }

  lemma FitsIf(prog: Flat, p: nat, s: Stmt, d: Dest, m: Marks, names: Names, tag: nat)
    requires s.If? && Lower(s, d, m).Ok?
    requires Placed(prog, p, Lower(s, d, m).node, Lower(s, d, m).marks, names, tag)
    ensures Fits(prog, p, s, d, m, Lower(s, d, m).node, Lower(s, d, m).marks, names, tag)
    decreases s, 0
  {
    hide Lower, LayOut, Waiting, FlatAt;
    IfShape(prog, p, s, d, m, names, tag);
    LowerFits(prog, p + 1, s.thn, d, m, names, tag + LabelCount(s.cond) + 2);
  }

  lemma IfElseInPlace(prog: Flat, p: nat, branch: Op, t: Flat, els: Label, end: Label, f: Flat)
    requires FlatAt(prog, p, [branch] + t + [FJump(end), FLabel(els)] + f + [FLabel(end)])
    ensures var q := p + 1 + |t|;
            && Is(prog, p, branch) && FlatAt(prog, p + 1, t) && Is(prog, q, FJump(end)) && Is(prog, q + 1, FLabel(els))
            && FlatAt(prog, q + 2, f) && Is(prog, q + 2 + |f|, FLabel(end))
  {
    var head, mid, last := [branch], [FJump(end), FLabel(els)], [FLabel(end)];
    FlatThree(prog, p, head + t + mid, f, last);
    FlatThree(prog, p, head, t, mid);
    var q := p + 1 + |t|;
    OpAt(prog, p, head, 0);
    OpAt(prog, q, mid, 0);
    OpAt(prog, q, mid, 1);
    OpAt(prog, q + 2 + |f|, last, 0);
  }

  lemma IfElseShape(prog: Flat, p: nat, s: Stmt, d: Dest, m: Marks, names: Names, tag: nat)
    requires s.IfElse? && Lower(s, d, m).Ok?
    requires Placed(prog, p, Lower(s, d, m).node, Lower(s, d, m).marks, names, tag)
    ensures var t := Lower(s.thn, d, m);
            t.Ok? &&
            var f := Lower(s.els, d, t.marks);
            var els, end := tag + LabelCount(s.cond) + 1, tag + LabelCount(s.cond) + 2;
            var ct := CodeOf(s.thn, d, m, names, end);
            f.Ok? &&
            var cf := CodeOf(s.els, d, t.marks, names, ct.tag);
            var q := p + 1 + |ct.code|;
            && MarksOf(s, d, m) == f.marks
            && Placed(prog, p + 1, t.node, t.marks, names, end) && Placed(prog, q + 2, f.node, f.marks, names, ct.tag)
            && Is(prog, p, FBranch(s.cond, tag, els)) && Is(prog, q, FJump(end)) && Is(prog, q + 1, FLabel(els))
            && Is(prog, q + 2 + |cf.code|, FLabel(end))
            && |CodeOf(s, d, m, names, tag).code| == |ct.code| + |cf.code| + 4
  {
    hide Lower, LayOut, Waiting, FlatAt, LabelCount;
    IfElseLowered(s, d, m);
    var m1 := MarksOf(s.thn, d, m);
    var els, end := tag + LabelCount(s.cond) + 1, tag + LabelCount(s.cond) + 2;
    var ct := CodeOf(s.thn, d, m, names, end);
    var cf := CodeOf(s.els, d, m1, names, ct.tag);
    TestElseLaid(Lower(s, d, m).node, names.labels, names.ret, tag);
    WaitingBoth(s.cond, Lower(s.thn, d, m).node, Lower(s.els, d, m1).node);
    IfElseInPlace(prog, p, FBranch(s.cond, tag, els), ct.code, els, end, cf.code);
    LabelsGrow(s.els, d, m1);
  }

  lemma FitsIfElse(prog: Flat, p: nat, s: Stmt, d: Dest, m: Marks, names: Names, tag: nat)
    requires s.IfElse? && Lower(s, d, m).Ok?
    requires Placed(prog, p, Lower(s, d, m).node, Lower(s, d, m).marks, names, tag)
    ensures Fits(prog, p, s, d, m, Lower(s, d, m).node, Lower(s, d, m).marks, names, tag)
    decreases s, 0
  {
    hide Lower, LayOut, Waiting, FlatAt;
    IfElseShape(prog, p, s, d, m, names, tag);
    var m1 := MarksOf(s.thn, d, m);
    var end := tag + LabelCount(s.cond) + 2;
    var ct := CodeOf(s.thn, d, m, names, end);
    LowerFits(prog, p + 1, s.thn, d, m, names, end);
    LowerFits(prog, p + 3 + |ct.code|, s.els, d, m1, names, ct.tag);
  }

  lemma LabelShape(prog: Flat, p: nat, s: Stmt, d: Dest, m: Marks, names: Names, tag: nat)
    requires (s.Case? || s.Default? || s.Labeled?) && Lower(s, d, m).Ok?
    requires Placed(prog, p, Lower(s, d, m).node, Lower(s, d, m).marks, names, tag)
    ensures var m0 := LabelMarks(s, m);
            var b := Lower(s.body, d, m0);
            b.Ok? &&
            var l := if s.Labeled? then b.marks.tag + 1 else m.tag + 1;
            && MarksOf(s, d, m).cases == b.marks.cases && MarksOf(s, d, m).dflt == b.marks.dflt
            && (s.Default? ==> m.dflt.None?)
            && (s.Labeled? ==> s.name in names.labels && names.labels[s.name] == l)
            && Is(prog, p, FLabel(l)) && Placed(prog, p + 1, b.node, b.marks, names, tag)
            && |CodeOf(s, d, m, names, tag).code| == |CodeOf(s.body, d, m0, names, tag).code| + 1
  {
    hide Lower, LayOut, Waiting, FlatAt, LabelCount, WaitingAll, LayOutAll, RangeCases;
    LabelLowered(s, d, m);
    var m0 := LabelMarks(s, m);
    var b := Lower(s.body, d, m0);
    var l := if s.Labeled? then b.marks.tag + 1 else m.tag + 1;
    LayOutPair(LabelHere(l), b.node, names, tag);
    LabelLaid(l, names, tag);
    FlatSplit(prog, p, [FLabel(l)], CodeOf(s.body, d, m0, names, tag).code);
    OpAt(prog, p, [FLabel(l)], 0);
  }

  lemma FitsLabel(prog: Flat, p: nat, s: Stmt, d: Dest, m: Marks, names: Names, tag: nat)
    requires (s.Case? || s.Default? || s.Labeled?) && Lower(s, d, m).Ok?
    requires Placed(prog, p, Lower(s, d, m).node, Lower(s, d, m).marks, names, tag)
    ensures Fits(prog, p, s, d, m, Lower(s, d, m).node, Lower(s, d, m).marks, names, tag)
    decreases s, 0
  {
    hide Lower, LayOut, Waiting, FlatAt;
    LabelShape(prog, p, s, d, m, names, tag);
    LowerFits(prog, p + 1, s.body, d, LabelMarks(s, m), names, tag);
  }

  // ---------- loops ----------

  /** The five operations of the test before a loop body. */
  function ExitOps(c: Expr, out: Label, tag: nat): Flat {
    var els, end := tag + LabelCount(c) + 1, tag + LabelCount(c) + 2;
    [FBranch(c, tag, els), FJump(end), FLabel(els), FJump(out), FLabel(end)]
  }

  lemma ExitLaidOut(c: Expr, out: Label, names: Names, tag: nat)
    ensures LayOut(ExitUnless(c, out), names.labels, names.ret, tag)
         == Laid(ExitOps(c, out, tag), tag + LabelCount(c) + 2)
    ensures Waiting(ExitUnless(c, out)) == {}
  {
    var end := tag + LabelCount(c) + 2;
    assert LayOut(Empty, names.labels, names.ret, end) == Laid([], end);
    assert LayOut(Jump(out), names.labels, names.ret, end) == Laid([FJump(out)], end);
  }

  lemma ExitInPlace(prog: Flat, p: nat, c: Expr, out: Label, tag: nat)
    requires FlatAt(prog, p, ExitOps(c, out, tag))
    ensures ExitTest(prog, p, c) && prog[p + 3] == FJump(out)
  {
    var ops := ExitOps(c, out, tag);
    OpAt(prog, p, ops, 0);
    OpAt(prog, p, ops, 1);
    OpAt(prog, p, ops, 2);
    OpAt(prog, p, ops, 3);
    OpAt(prog, p, ops, 4);
  }

  /** Three nodes around a body: what precedes it is laid out first, what follows it last. */
  lemma LayOutAround(pre: seq<Node>, x: Node, post: seq<Node>, names: Names, tag: nat)
    ensures var a := LayOutAll(pre, names.labels, names.ret, tag);
            var b := LayOut(x, names.labels, names.ret, a.tag);
            var c := LayOutAll(post, names.labels, names.ret, b.tag);
            LayOutAll(pre + [x] + post, names.labels, names.ret, tag) == Laid(a.code + b.code + c.code, c.tag)
    ensures WaitingAll(pre + [x] + post) == WaitingAll(pre) + Waiting(x) + WaitingAll(post)
  {
    hide LayOut; hide Waiting;
    var a := LayOutAll(pre, names.labels, names.ret, tag);
    LayOutAppend(pre + [x], post, names, tag);
    LayOutAppend(pre, [x], names, tag);
    LayOutOne(x, names, a.tag);
  }

  function WhileDest(d: Dest, m: Marks): Dest {
    d.(brk := Some(m.tag + 2), cnt := Some(m.tag + 1))
  }

  lemma WhileInPlace(prog: Flat, p: nat, condLabel: Label, test: Flat, b: Flat, end: Label)
    requires |test| == 5
    requires FlatAt(prog, p, ([FLabel(condLabel)] + test) + b + ([FJump(condLabel)] + [FLabel(end)]))
    ensures var q := p + 6 + |b|;
            && Is(prog, p, FLabel(condLabel)) && FlatAt(prog, p + 1, test) && FlatAt(prog, p + 6, b)
            && Is(prog, q, FJump(condLabel)) && Is(prog, q + 1, FLabel(end))
  {
    var head, tail := [FLabel(condLabel)], [FJump(condLabel)] + [FLabel(end)];
    FlatThree(prog, p, head + test, b, tail);
    FlatSplit(prog, p, head, test);
    OpAt(prog, p, head, 0);
    OpAt(prog, p + 6 + |b|, tail, 0);
    OpAt(prog, p + 6 + |b|, tail, 1);
  }

  lemma WhileLaidOut(c: Expr, x: Node, condLabel: Label, end: Label, names: Names, tag: nat)
    ensures var n := Compound([LabelHere(condLabel), ExitUnless(c, end), x, Jump(condLabel), LabelHere(end)]);
            var b := LayOut(x, names.labels, names.ret, tag + LabelCount(c) + 2);
            && LayOut(n, names.labels, names.ret, tag)
                 == Laid(([FLabel(condLabel)] + ExitOps(c, end, tag)) + b.code + ([FJump(condLabel)] + [FLabel(end)]),
                     b.tag)
            && Waiting(n) == Waiting(x)
  {
    hide ExitOps, ExitUnless, LabelCount;
    var pre, post := [LabelHere(condLabel), ExitUnless(c, end)], [Jump(condLabel), LabelHere(end)];
    assert [LabelHere(condLabel), ExitUnless(c, end), x, Jump(condLabel), LabelHere(end)] == pre + [x] + post;
    LayOutAround(pre, x, post, names, tag);
    LayOutTwo(LabelHere(condLabel), ExitUnless(c, end), names, tag);
    ExitLaidOut(c, end, names, tag);
    LayOutTwo(Jump(condLabel), LabelHere(end), names, LayOut(x, names.labels, names.ret, tag + LabelCount(c) + 2).tag);
  }

  lemma WhileShape(prog: Flat, p: nat, s: Stmt, d: Dest, m: Marks, names: Names, tag: nat)
    requires s.While? && Lower(s, d, m).Ok?
    requires Placed(prog, p, Lower(s, d, m).node, Lower(s, d, m).marks, names, tag)
    ensures var condLabel, end := m.tag + 1, m.tag + 2;
            var t := tag + LabelCount(s.cond) + 2;
            var b := Lower(s.body, WhileDest(d, m), m.(tag := end));
            b.Ok? &&
            var cb := CodeOf(s.body, WhileDest(d, m), m.(tag := end), names, t);
            var q := p + 6 + |cb.code|;
            && MarksOf(s, d, m) == b.marks && Placed(prog, p + 6, b.node, b.marks, names, t)
            && Is(prog, p, FLabel(condLabel)) && ExitTest(prog, p + 1, s.cond) && prog[p + 4] == FJump(end)
            && Is(prog, q, FJump(condLabel)) && Is(prog, q + 1, FLabel(end))
            && |CodeOf(s, d, m, names, tag).code| == |cb.code| + 8
  {
    hide Check; hide ExitTest; hide FlatAt; hide ExitUnless; hide LabelCount;
    var condLabel, end := m.tag + 1, m.tag + 2;
    var t := tag + LabelCount(s.cond) + 2;
    var b := Lower(s.body, WhileDest(d, m), m.(tag := end));
    WhileLaidOut(s.cond, b.node, condLabel, end, names, tag);
    var cb := LayOut(b.node, names.labels, names.ret, t);
    WhileInPlace(prog, p, condLabel, ExitOps(s.cond, end, tag), cb.code, end);
    ExitInPlace(prog, p + 1, s.cond, end, tag);
  }

  lemma FitsWhile(prog: Flat, p: nat, s: Stmt, d: Dest, m: Marks, names: Names, tag: nat)
    requires s.While? && Lower(s, d, m).Ok?
    requires Placed(prog, p, Lower(s, d, m).node, Lower(s, d, m).marks, names, tag)
    ensures Fits(prog, p, s, d, m, Lower(s, d, m).node, Lower(s, d, m).marks, names, tag)
    decreases s, 0
  {
    hide Lower, LayOut, Waiting, FlatAt, ExitTest;
    WhileShape(prog, p, s, d, m, names, tag);
    LowerFits(prog, p + 6, s.body, WhileDest(d, m), m.(tag := m.tag + 2), names, tag + LabelCount(s.cond) + 2);
  }

  function DoDest(d: Dest, m: Marks): Dest {
    d.(brk := Some(m.tag + 3), cnt := Some(m.tag + 1))
  }

  function DoOps(c: Expr, begin: Label, end: Label, tag: nat): Flat {
    var els, out := tag + LabelCount(c) + 1, tag + LabelCount(c) + 2;
    [FBranch(c, tag, els), FJump(begin), FJump(out), FLabel(els), FJump(end), FLabel(out)]
  }

  lemma DoLaidOut(c: Expr, begin: Label, end: Label, names: Names, tag: nat)
    ensures LayOut(Test(c, Jump(begin), Some(Jump(end))), names.labels, names.ret, tag)
         == Laid(DoOps(c, begin, end, tag), tag + LabelCount(c) + 2)
    ensures Waiting(Test(c, Jump(begin), Some(Jump(end)))) == {}
  {
    var out := tag + LabelCount(c) + 2;
    assert LayOut(Jump(begin), names.labels, names.ret, out) == Laid([FJump(begin)], out);
    assert LayOut(Jump(end), names.labels, names.ret, out) == Laid([FJump(end)], out);
  }

  lemma DoInPlace(prog: Flat, p: nat, begin: Label, b: Flat, condLabel: Label, c: Expr, end: Label, tag: nat)
    requires FlatAt(prog, p, [FLabel(begin)] + b + ([FLabel(condLabel)] + DoOps(c, begin, end, tag) + [FLabel(end)]))
    ensures Is(prog, p, FLabel(begin)) && FlatAt(prog, p + 1, b)
    ensures var q := p + 1 + |b|;
            DoTail(prog, q, c, begin) && prog[q + 7] == FLabel(end)
  {
    hide FlatAt; hide LabelCount;
    var head, ops, last := [FLabel(condLabel)], DoOps(c, begin, end, tag), [FLabel(end)];
    var q := p + 1 + |b|;
    FlatThree(prog, p, [FLabel(begin)], b, head + ops + last);
    OpAt(prog, p, [FLabel(begin)], 0);
    FlatThree(prog, q, head, ops, last);
    OpAt(prog, q, head, 0);
    OpAt(prog, q + 1, ops, 0);
    OpAt(prog, q + 1, ops, 1);
    OpAt(prog, q + 1, ops, 2);
    OpAt(prog, q + 1, ops, 3);
    OpAt(prog, q + 1, ops, 4);
    OpAt(prog, q + 1, ops, 5);
    OpAt(prog, q + 7, last, 0);
  }

  lemma LayOutThree(x: Node, y: Node, z: Node, names: Names, tag: nat)
    ensures var a := LayOut(x, names.labels, names.ret, tag);
            var b := LayOut(y, names.labels, names.ret, a.tag);
            var c := LayOut(z, names.labels, names.ret, b.tag);
            LayOutAll([x, y, z], names.labels, names.ret, tag) == Laid(a.code + b.code + c.code, c.tag)
    ensures WaitingAll([x, y, z]) == Waiting(x) + Waiting(y) + Waiting(z)
  {
    hide LayOut; hide Waiting;
    var a := LayOut(x, names.labels, names.ret, tag);
    LayOutAppend([x], [y, z], names, tag);
    LayOutOne(x, names, tag);
    LayOutTwo(y, z, names, a.tag);
    assert [x] + [y, z] == [x, y, z];
    var b := LayOut(y, names.labels, names.ret, a.tag);
    var c := LayOut(z, names.labels, names.ret, b.tag);
    assert a.code + (b.code + c.code) == a.code + b.code + c.code;
  }

  lemma FiveNodes(a: Node, x: Node, b: Node, c: Node, d: Node)
    ensures [a, x, b, c, d] == [a] + [x] + [b, c, d]
  {
  }

  lemma AfterBodyLaid(c: Expr, begin: Label, condLabel: Label, end: Label, names: Names, tag: nat)
    ensures var post := [LabelHere(condLabel), Test(c, Jump(begin), Some(Jump(end))), LabelHere(end)];
            && LayOutAll(post, names.labels, names.ret, tag)
                 == Laid([FLabel(condLabel)] + DoOps(c, begin, end, tag) + [FLabel(end)], tag + LabelCount(c) + 2)
            && WaitingAll(post) == {}
  {
    hide LayOut, Waiting, LabelCount, DoOps, LayOutAll, WaitingAll;
    LayOutThree(LabelHere(condLabel), Test(c, Jump(begin), Some(Jump(end))), LabelHere(end), names, tag);
    LabelLaid(condLabel, names, tag);
    DoLaidOut(c, begin, end, names, tag);
    LabelLaid(end, names, tag + LabelCount(c) + 2);
  }

  lemma DoNodeLaid(c: Expr, x: Node, begin: Label, condLabel: Label, end: Label, names: Names, tag: nat)
    ensures var n := Compound([LabelHere(begin), x, LabelHere(condLabel), Test(c, Jump(begin), Some(Jump(end))),
                               LabelHere(end)]);
            var b := LayOut(x, names.labels, names.ret, tag);
            && LayOut(n, names.labels, names.ret, tag)
                 == Laid([FLabel(begin)] + b.code + ([FLabel(condLabel)] + DoOps(c, begin, end, b.tag) + [FLabel(end)]),
                         b.tag + LabelCount(c) + 2)
            && Waiting(n) == Waiting(x)
  {
    hide LayOut, Waiting, LabelCount, DoOps, LayOutAll, WaitingAll;
    var test := Test(c, Jump(begin), Some(Jump(end)));
    var pre, post := [LabelHere(begin)], [LabelHere(condLabel), test, LabelHere(end)];
    FiveNodes(LabelHere(begin), x, LabelHere(condLabel), test, LabelHere(end));
    CompoundLaid(pre + [x] + post, names, tag);
    LayOutAround(pre, x, post, names, tag);
    LayOutOne(LabelHere(begin), names, tag);
    LabelLaid(begin, names, tag);
    AfterBodyLaid(c, begin, condLabel, end, names, LayOut(x, names.labels, names.ret, tag).tag);
  }

  lemma SixOps(c: Expr, begin: Label, end: Label, tag: nat)
    ensures |DoOps(c, begin, end, tag)| == 6
  {
  }

  lemma DoShape(prog: Flat, p: nat, s: Stmt, d: Dest, m: Marks, names: Names, tag: nat)
    requires s.DoWhile? && Lower(s, d, m).Ok?
    requires Placed(prog, p, Lower(s, d, m).node, Lower(s, d, m).marks, names, tag)
    ensures var begin, end := m.tag + 1, m.tag + 3;
            var b := Lower(s.body, DoDest(d, m), m.(tag := end));
            b.Ok? &&
            var cb := CodeOf(s.body, DoDest(d, m), m.(tag := end), names, tag);
            var q := p + 1 + |cb.code|;
            && MarksOf(s, d, m) == b.marks && Placed(prog, p + 1, b.node, b.marks, names, tag)
            && Is(prog, p, FLabel(begin)) && DoTail(prog, q, s.cond, begin) && prog[q + 7] == FLabel(end)
            && |CodeOf(s, d, m, names, tag).code| == |cb.code| + 9
  {
    hide Lower, LayOut, Waiting, FlatAt, DoTail, LabelCount, DoOps;
    DoLowered(s, d, m);
    var begin, condLabel, end := m.tag + 1, m.tag + 2, m.tag + 3;
    var b := Lower(s.body, DoDest(d, m), m.(tag := end));
    var cb := LayOut(b.node, names.labels, names.ret, tag);
    DoNodeLaid(s.cond, b.node, begin, condLabel, end, names, tag);
    DoInPlace(prog, p, begin, cb.code, condLabel, s.cond, end, cb.tag);
    SixOps(s.cond, begin, end, cb.tag);
  }

  lemma FitsDo(prog: Flat, p: nat, s: Stmt, d: Dest, m: Marks, names: Names, tag: nat)
    requires s.DoWhile? && Lower(s, d, m).Ok?
    requires Placed(prog, p, Lower(s, d, m).node, Lower(s, d, m).marks, names, tag)
    ensures Fits(prog, p, s, d, m, Lower(s, d, m).node, Lower(s, d, m).marks, names, tag)
    decreases s, 0
  {
    hide Lower, LayOut, Waiting, FlatAt;
    DoShape(prog, p, s, d, m, names, tag);
    LowerFits(prog, p + 1, s.body, DoDest(d, m), m.(tag := m.tag + 3), names, tag);
  }

  function ForDest(d: Dest, m: Marks): Dest {
    d.(brk := Some(m.tag + 3), cnt := Some(m.tag + 2))
  }

  function EvalOps(e: Option<Expr>, tag: nat): Laid {
    if e.Some? then Laid([FEval(e.value, tag)], tag + LabelCount(e.value)) else Laid([], tag)
  }

  function TestOps(c: Option<Expr>, out: Label, tag: nat): Laid {
    if c.Some? then Laid(ExitOps(c.value, out, tag), tag + LabelCount(c.value) + 2) else Laid([], tag)
  }

  /** The label of the last expression before the body of a for loop. */
  function ForBodyTag(s: Stmt, m: Marks, tag: nat): nat
    requires s.For?
  {
    TestOps(s.test, m.tag + 3, EvalOps(s.init, tag).tag).tag
  }

  /** What comes before the body of a for loop. */
  lemma ForHeadLaidOut(i: Option<Expr>, c: Option<Expr>, condLabel: Label, end: Label, names: Names, tag: nat)
    ensures var pre := (if i.Some? then [Evaluate(i.value)] else []) + [LabelHere(condLabel)]
                       + (if c.Some? then [ExitUnless(c.value, end)] else []);
            var a := EvalOps(i, tag);
            var t := TestOps(c, end, a.tag);
            LayOutAll(pre, names.labels, names.ret, tag) == Laid(a.code + [FLabel(condLabel)] + t.code, t.tag)
            && WaitingAll(pre) == {}
  {
    hide ExitUnless, ExitOps;
    var first, mid := (if i.Some? then [Evaluate(i.value)] else []), [LabelHere(condLabel)];
    var last := if c.Some? then [ExitUnless(c.value, end)] else [];
    var a := EvalOps(i, tag);
    LayOutAppend(first + mid, last, names, tag);
    LayOutAppend(first, mid, names, tag);
    if i.Some? { LayOutOne(Evaluate(i.value), names, tag); }
    LayOutOne(LabelHere(condLabel), names, a.tag);
    if c.Some? {
      LayOutOne(ExitUnless(c.value, end), names, a.tag);
      ExitLaidOut(c.value, end, names, a.tag);
    }
  }

  /** What comes after it. */
  lemma ForTailLaidOut(st: Option<Expr>, stepLabel: Label, condLabel: Label, end: Label, names: Names, tag: nat)
    ensures var post := [LabelHere(stepLabel), OptionalEval(st), Jump(condLabel), LabelHere(end)];
            var e := EvalOps(st, tag);
            LayOutAll(post, names.labels, names.ret, tag)
              == Laid([FLabel(stepLabel)] + e.code + [FJump(condLabel)] + [FLabel(end)], e.tag)
            && WaitingAll(post) == {}
  {
    var e := EvalOps(st, tag);
    var last := LabelHere(end);
    LayOutAppend([LabelHere(stepLabel), OptionalEval(st), Jump(condLabel)], [last], names, tag);
    LayOutThree(LabelHere(stepLabel), OptionalEval(st), Jump(condLabel), names, tag);
    LayOutOne(last, names, e.tag);
    assert [LabelHere(stepLabel), OptionalEval(st), Jump(condLabel), last]
        == [LabelHere(stepLabel), OptionalEval(st), Jump(condLabel)] + [last];
  }

  lemma ForInPlace(prog: Flat, p: nat, i: Option<Expr>, c: Option<Expr>, st: Option<Expr>, b: Flat,
                   condLabel: Label, stepLabel: Label, end: Label, tag: nat, tagB: nat)
    requires var a := EvalOps(i, tag);
             var t := TestOps(c, end, a.tag);
             var e := EvalOps(st, tagB);
             FlatAt(prog, p, (a.code + [FLabel(condLabel)] + t.code) + b
                             + ([FLabel(stepLabel)] + e.code + [FJump(condLabel)] + [FLabel(end)]))
    ensures i.Some? ==> Evaluates(prog, p, i.value)
    ensures var p0 := if i.Some? then p + 1 else p;
            var q := BodyStart(p0, c) + |b|;
            var j := q + 1 + StepOps(st);
            && Is(prog, p0, FLabel(condLabel))
            && (c.Some? ==> ExitTest(prog, p0 + 1, c.value) && prog[p0 + 4] == FJump(end))
            && FlatAt(prog, BodyStart(p0, c), b)
            && Is(prog, q, FLabel(stepLabel)) && (st.Some? ==> Evaluates(prog, q + 1, st.value))
            && Is(prog, j, FJump(condLabel)) && Is(prog, j + 1, FLabel(end))
  {
    hide ExitTest, ExitOps, FlatAt;
    var a := EvalOps(i, tag);
    var t := TestOps(c, end, a.tag);
    var e := EvalOps(st, tagB);
    var pre, post := a.code + [FLabel(condLabel)] + t.code,
        [FLabel(stepLabel)] + e.code + [FJump(condLabel)] + [FLabel(end)];
    FlatThree(prog, p, pre, b, post);
    assert |ExitOps(if c.Some? then c.value else Const(Int, 0), end, a.tag)| == 5 by {
      ExitOpsLength(if c.Some? then c.value else Const(Int, 0), end, a.tag);
    }
    ForHeadInPlace(prog, p, i, c, condLabel, end, tag);
    ForTailInPlace(prog, p + |pre| + |b|, st, condLabel, stepLabel, end, tagB);
  }

  lemma ExitOpsLength(c: Expr, out: Label, tag: nat)
    ensures |ExitOps(c, out, tag)| == 5
  {
  }

  lemma ForHeadInPlace(prog: Flat, p: nat, i: Option<Expr>, c: Option<Expr>, condLabel: Label, end: Label, tag: nat)
    requires var a := EvalOps(i, tag);
             FlatAt(prog, p, a.code + [FLabel(condLabel)] + TestOps(c, end, a.tag).code)
    ensures i.Some? ==> Evaluates(prog, p, i.value)
    ensures var p0 := if i.Some? then p + 1 else p;
            && Is(prog, p0, FLabel(condLabel))
            && (c.Some? ==> ExitTest(prog, p0 + 1, c.value) && prog[p0 + 4] == FJump(end))
  {
    hide ExitTest, ExitOps, FlatAt;
    var a := EvalOps(i, tag);
    FlatThree(prog, p, a.code, [FLabel(condLabel)], TestOps(c, end, a.tag).code);
    var p0 := p + |a.code|;
    if i.Some? { OpAt(prog, p, a.code, 0); }
    OpAt(prog, p0, [FLabel(condLabel)], 0);
    if c.Some? { ExitInPlace(prog, p0 + 1, c.value, end, a.tag); }
  }

  lemma ForTailInPlace(prog: Flat, q: nat, st: Option<Expr>, condLabel: Label, stepLabel: Label, end: Label, tag: nat)
    requires FlatAt(prog, q, [FLabel(stepLabel)] + EvalOps(st, tag).code + [FJump(condLabel)] + [FLabel(end)])
    ensures var j := q + 1 + StepOps(st);
            && Is(prog, q, FLabel(stepLabel)) && (st.Some? ==> Evaluates(prog, q + 1, st.value))
            && Is(prog, j, FJump(condLabel)) && Is(prog, j + 1, FLabel(end))
  {
    hide FlatAt;
    var e := EvalOps(st, tag);
    FlatThree(prog, q, [FLabel(stepLabel)] + e.code, [FJump(condLabel)], [FLabel(end)]);
    FlatSplit(prog, q, [FLabel(stepLabel)], e.code);
    OpAt(prog, q, [FLabel(stepLabel)], 0);
    if st.Some? { OpAt(prog, q + 1, e.code, 0); }
    OpAt(prog, q + 1 + |e.code|, [FJump(condLabel)], 0);
    OpAt(prog, q + 2 + |e.code|, [FLabel(end)], 0);
  }

  lemma ForNodesSplit(i: Option<Expr>, c: Option<Expr>, st: Option<Expr>, x: Node, condLabel: Label, stepLabel: Label,
                      end: Label)
    ensures ForNodes(i, c, st, x, condLabel, stepLabel, end)
         == ((if i.Some? then [Evaluate(i.value)] else []) + [LabelHere(condLabel)]
             + (if c.Some? then [ExitUnless(c.value, end)] else []))
            + [x] + [LabelHere(stepLabel), OptionalEval(st), Jump(condLabel), LabelHere(end)]
  {
    hide ExitUnless, OptionalEval;
  }

  lemma ForLaidOut(i: Option<Expr>, c: Option<Expr>, st: Option<Expr>, x: Node, condLabel: Label, stepLabel: Label,
                   end: Label, names: Names, tag: nat)
    ensures var n := Compound(ForNodes(i, c, st, x, condLabel, stepLabel, end));
            var a := EvalOps(i, tag);
            var t := TestOps(c, end, a.tag);
            var b := LayOut(x, names.labels, names.ret, t.tag);
            var e := EvalOps(st, b.tag);
            && LayOut(n, names.labels, names.ret, tag).code
                 == (a.code + [FLabel(condLabel)] + t.code) + b.code
                    + ([FLabel(stepLabel)] + e.code + [FJump(condLabel)] + [FLabel(end)])
            && Waiting(n) == Waiting(x)
  {
    hide LayOut, LayOutAll, Waiting, WaitingAll, ExitUnless, TestOps, EvalOps, ForNodes;
    var pre := (if i.Some? then [Evaluate(i.value)] else []) + [LabelHere(condLabel)]
               + (if c.Some? then [ExitUnless(c.value, end)] else []);
    var post := [LabelHere(stepLabel), OptionalEval(st), Jump(condLabel), LabelHere(end)];
    ForNodesSplit(i, c, st, x, condLabel, stepLabel, end);
    CompoundLaid(pre + [x] + post, names, tag);
    LayOutAround(pre, x, post, names, tag);
    ForHeadLaidOut(i, c, condLabel, end, names, tag);
    ForTailLaidOut(st, stepLabel, condLabel, end, names,
                   LayOut(x, names.labels, names.ret, TestOps(c, end, EvalOps(i, tag).tag).tag).tag);
  }

  lemma ForShape(prog: Flat, p: nat, s: Stmt, d: Dest, m: Marks, names: Names, tag: nat)
    requires s.For? && Lower(s, d, m).Ok?
    requires Placed(prog, p, Lower(s, d, m).node, Lower(s, d, m).marks, names, tag)
    ensures var condLabel, stepLabel, end := m.tag + 1, m.tag + 2, m.tag + 3;
            var b := Lower(s.body, ForDest(d, m), m.(tag := end));
            var t := ForBodyTag(s, m, tag);
            b.Ok? &&
            var cb := CodeOf(s.body, ForDest(d, m), m.(tag := end), names, t);
            var p0 := if s.init.Some? then p + 1 else p;
            var q := BodyStart(p0, s.test) + |cb.code|;
            var j := q + 1 + StepOps(s.step);
            && MarksOf(s, d, m) == b.marks && Placed(prog, BodyStart(p0, s.test), b.node, b.marks, names, t)
            && (s.init.Some? ==> Evaluates(prog, p, s.init.value)) && Is(prog, p0, FLabel(condLabel))
            && (s.test.Some? ==> ExitTest(prog, p0 + 1, s.test.value) && prog[p0 + 4] == FJump(end))
            && Is(prog, q, FLabel(stepLabel)) && (s.step.Some? ==> Evaluates(prog, q + 1, s.step.value))
            && Is(prog, j, FJump(condLabel)) && Is(prog, j + 1, FLabel(end))
            && p + |CodeOf(s, d, m, names, tag).code| == j + 2
  {
    hide Lower, LayOut, Waiting, FlatAt, ExitTest, Evaluates, LabelCount, ForNodes;
    ForLowered(s, d, m);
    var condLabel, stepLabel, end := m.tag + 1, m.tag + 2, m.tag + 3;
    var b := Lower(s.body, ForDest(d, m), m.(tag := end));
    var t := ForBodyTag(s, m, tag);
    var cb := LayOut(b.node, names.labels, names.ret, t);
    ForLaidOut(s.init, s.test, s.step, b.node, condLabel, stepLabel, end, names, tag);
    ForInPlace(prog, p, s.init, s.test, s.step, cb.code, condLabel, stepLabel, end, tag, cb.tag);
  }

  lemma FitsFor(prog: Flat, p: nat, s: Stmt, d: Dest, m: Marks, names: Names, tag: nat)
    requires s.For? && Lower(s, d, m).Ok?
    requires Placed(prog, p, Lower(s, d, m).node, Lower(s, d, m).marks, names, tag)
    ensures Fits(prog, p, s, d, m, Lower(s, d, m).node, Lower(s, d, m).marks, names, tag)
    decreases s, 0
  {
    hide Lower, LayOut, Waiting, FlatAt, ExitTest;
    ForShape(prog, p, s, d, m, names, tag);
    var p0 := if s.init.Some? then p + 1 else p;
    LowerFits(prog, BodyStart(p0, s.test), s.body, ForDest(d, m), m.(tag := m.tag + 3), names, ForBodyTag(s, m, tag));
  }

  // ---------- switch ----------

  function SwitchDest(d: Dest, m: Marks): Dest {
    d.(brk := Some(m.tag + 2), inSwitch := true)
  }

  function SwitchMarks(m: Marks): Marks {
    m.(tag := m.tag + 2, cases := [], dflt := None)
  }

  function CompareOps(cases: seq<(int, Label)>, tag: nat): Flat
    decreases |cases|
  {
    if cases == [] then []
    else [FBranchTemp(cases[0].0, tag, tag + 2), FJump(cases[0].1), FLabel(tag + 2)] + CompareOps(cases[1..], tag + 2)
  }

  lemma {:induction false} CompareLaidOut(cases: seq<(int, Label)>, names: Names, tag: nat)
    ensures LayOutAll(TestNodes(cases), names.labels, names.ret, tag)
         == Laid(CompareOps(cases, tag), tag + 2 * |cases|)
    ensures WaitingAll(TestNodes(cases)) == {}
    decreases |cases|
  {
    if cases != [] {
      var x := TestTemp(cases[0].0, Jump(cases[0].1));
      assert LayOut(Jump(cases[0].1), names.labels, names.ret, tag + 2) == Laid([FJump(cases[0].1)], tag + 2);
      assert LayOut(x, names.labels, names.ret, tag)
          == Laid([FBranchTemp(cases[0].0, tag, tag + 2), FJump(cases[0].1), FLabel(tag + 2)], tag + 2);
      CompareLaidOut(cases[1..], names, tag + 2);
      LayOutCons(x, TestNodes(cases[1..]), names, tag);
    }
  }

  lemma {:induction false} CompareInPlace(prog: Flat, p: nat, cases: seq<(int, Label)>, tag: nat)
    requires FlatAt(prog, p, CompareOps(cases, tag))
    ensures TestsAt(prog, p, cases) && |CompareOps(cases, tag)| == 3 * |cases|
    decreases |cases|
  {
    if cases != [] {
      var head := [FBranchTemp(cases[0].0, tag, tag + 2), FJump(cases[0].1), FLabel(tag + 2)];
      FlatSplit(prog, p, head, CompareOps(cases[1..], tag + 2));
      OpAt(prog, p, head, 0);
      OpAt(prog, p, head, 1);
      OpAt(prog, p, head, 2);
      CompareInPlace(prog, p + 3, cases[1..], tag + 2);
    }
  }

  function DefaultOps(dflt: Option<Label>): Flat {
    if dflt.Some? then [FJump(dflt.value)] else []
  }

  lemma SwitchTailLaidOut(cases: seq<(int, Label)>, dflt: Option<Label>, testLabel: Label, end: Label, names: Names,
      tag: nat)
    ensures var post := [Jump(end), LabelHere(testLabel)] + TestNodes(cases)
                        + (if dflt.Some? then [Jump(dflt.value)] else []) + [LabelHere(end)];
            LayOutAll(post, names.labels, names.ret, tag)
              == Laid([FJump(end)] + [FLabel(testLabel)] + CompareOps(cases, tag) + DefaultOps(dflt) + [FLabel(end)],
                      tag + 2 * |cases|)
            && WaitingAll(post) == {}
  {
    var a, b, e := [Jump(end), LabelHere(testLabel)], TestNodes(cases), [LabelHere(end)];
    var c := if dflt.Some? then [Jump(dflt.value)] else [];
    LayOutAppend(a + b + c, e, names, tag);
    LayOutAppend(a + b, c, names, tag);
    LayOutAppend(a, b, names, tag);
    LayOutTwo(Jump(end), LabelHere(testLabel), names, tag);
    CompareLaidOut(cases, names, tag);
    var t := tag + 2 * |cases|;
    if dflt.Some? { LayOutOne(Jump(dflt.value), names, t); }
    LayOutOne(LabelHere(end), names, t);
  }

  lemma SwitchTailInPlace(prog: Flat, q: nat, testLabel: Label, cases: seq<(int, Label)>, dflt: Option<Label>,
                          end: Label, tag: nat)
    requires FlatAt(prog, q, [FJump(end)] + [FLabel(testLabel)] + CompareOps(cases, tag) + DefaultOps(dflt)
                             + [FLabel(end)])
    ensures SwitchTail(prog, q, testLabel, cases, dflt) && prog[q] == FJump(end)
    ensures |CompareOps(cases, tag)| == 3 * |cases|
  {
    hide FlatAt, CompareOps, TestsAt;
    var mid, ops, last := [FJump(end)] + [FLabel(testLabel)], CompareOps(cases, tag), [FLabel(end)];
    FlatThree(prog, q, mid + ops, DefaultOps(dflt), last);
    FlatSplit(prog, q, mid, ops);
    OpAt(prog, q, mid, 0);
    OpAt(prog, q, mid, 1);
    CompareInPlace(prog, q + 2, cases, tag);
    if dflt.Some? { OpAt(prog, q + 2 + |ops|, DefaultOps(dflt), 0); }
    OpAt(prog, q + 2 + |ops| + |DefaultOps(dflt)|, last, 0);
  }

  lemma SwitchInPlace(prog: Flat, p: nat, set1: Op, testLabel: Label, b: Flat, cases: seq<(int, Label)>,
                      dflt: Option<Label>, end: Label, tag: nat)
    requires FlatAt(prog, p, ([set1] + [FJump(testLabel)]) + b
                             + ([FJump(end)] + [FLabel(testLabel)] + CompareOps(cases, tag) + DefaultOps(dflt)
                                 + [FLabel(end)]))
    ensures var q := p + 2 + |b|;
            && Is(prog, p, set1) && Is(prog, p + 1, FJump(testLabel)) && FlatAt(prog, p + 2, b)
            && SwitchTail(prog, q, testLabel, cases, dflt) && prog[q] == FJump(end)
    ensures |[FJump(end)] + [FLabel(testLabel)] + CompareOps(cases, tag) + DefaultOps(dflt) + [FLabel(end)]|
         == SwitchEnd(0, cases, dflt) + 1
  {
    hide FlatAt, CompareOps, SwitchTail;
    var head := [set1] + [FJump(testLabel)];
    FlatThree(prog, p, head, b,
              [FJump(end)] + [FLabel(testLabel)] + CompareOps(cases, tag) + DefaultOps(dflt) + [FLabel(end)]);
    OpAt(prog, p, head, 0);
    OpAt(prog, p, head, 1);
    SwitchTailInPlace(prog, p + 2 + |b|, testLabel, cases, dflt, end, tag);
  }

  lemma SwitchNodesSplit(e: Expr, x: Node, cases: seq<(int, Label)>, dflt: Option<Label>, testLabel: Label, end: Label)
    ensures SwitchNodes(e, x, cases, dflt, testLabel, end)
         == [SetTemp(e), Jump(testLabel)] + [x]
            + ([Jump(end), LabelHere(testLabel)] + TestNodes(cases) + (if dflt.Some? then [Jump(dflt.value)] else [])
               + [LabelHere(end)])
  {
    hide TestNodes;
  }

  lemma SwitchHeadLaid(e: Expr, testLabel: Label, names: Names, tag: nat)
    ensures LayOutAll([SetTemp(e), Jump(testLabel)], names.labels, names.ret, tag)
         == Laid([FSetTemp(e, tag)] + [FJump(testLabel)], tag + LabelCount(e))
    ensures WaitingAll([SetTemp(e), Jump(testLabel)]) == {}
  {
    LayOutTwo(SetTemp(e), Jump(testLabel), names, tag);
  }

  lemma SwitchLaidOut(e: Expr, x: Node, cases: seq<(int, Label)>, dflt: Option<Label>, testLabel: Label, end: Label,
                      names: Names, tag: nat)
    ensures var n := Compound(SwitchNodes(e, x, cases, dflt, testLabel, end));
            var b := LayOut(x, names.labels, names.ret, tag + LabelCount(e));
            && LayOut(n, names.labels, names.ret, tag).code
                 == ([FSetTemp(e, tag)] + [FJump(testLabel)]) + b.code
                    + ([FJump(end)] + [FLabel(testLabel)] + CompareOps(cases, b.tag) + DefaultOps(dflt) + [FLabel(end)])
            && Waiting(n) == Waiting(x)
  {
    hide LayOut, LayOutAll, Waiting, WaitingAll, TestNodes, CompareOps, LabelCount, DefaultOps, SwitchNodes;
    var pre := [SetTemp(e), Jump(testLabel)];
    var post := [Jump(end), LabelHere(testLabel)] + TestNodes(cases)
                + (if dflt.Some? then [Jump(dflt.value)] else []) + [LabelHere(end)];
    SwitchNodesSplit(e, x, cases, dflt, testLabel, end);
    CompoundLaid(pre + [x] + post, names, tag);
    LayOutAround(pre, x, post, names, tag);
    SwitchHeadLaid(e, testLabel, names, tag);
    SwitchTailLaidOut(cases, dflt, testLabel, end, names, LayOut(x, names.labels, names.ret, tag + LabelCount(e)).tag);
  }

  lemma SwitchShape(prog: Flat, p: nat, s: Stmt, d: Dest, m: Marks, names: Names, tag: nat)
    requires s.Switch? && Lower(s, d, m).Ok?
    requires Placed(prog, p, Lower(s, d, m).node, Lower(s, d, m).marks, names, tag)
    ensures var testLabel, end := m.tag + 1, m.tag + 2;
            var b := Lower(s.body, SwitchDest(d, m), SwitchMarks(m));
            var t := tag + LabelCount(s.scrutinee);
            b.Ok? &&
            var cb := CodeOf(s.body, SwitchDest(d, m), SwitchMarks(m), names, t);
            var q := p + 2 + |cb.code|;
            && MarksOf(s, d, m) == b.marks.(cases := m.cases, dflt := m.dflt)
            && Placed(prog, p + 2, b.node, b.marks, names, t)
            && Is(prog, p, FSetTemp(s.scrutinee, tag)) && Is(prog, p + 1, FJump(testLabel))
            && SwitchTail(prog, q, testLabel, b.marks.cases, b.marks.dflt) && prog[q] == FJump(end)
            && p + |CodeOf(s, d, m, names, tag).code| == SwitchEnd(q, b.marks.cases, b.marks.dflt) + 1
  {
    hide Check; hide FlatAt; hide SwitchTail; hide TestNodes; hide CompareOps; hide LabelCount;
    var testLabel, end := m.tag + 1, m.tag + 2;
    var b := Lower(s.body, SwitchDest(d, m), SwitchMarks(m));
    var cases, dflt := b.marks.cases, b.marks.dflt;
    var t := tag + LabelCount(s.scrutinee);
    var cb := LayOut(b.node, names.labels, names.ret, t);
    SwitchLaidOut(s.scrutinee, b.node, cases, dflt, testLabel, end, names, tag);
    SwitchInPlace(prog, p, FSetTemp(s.scrutinee, tag), testLabel, cb.code, cases, dflt, end, cb.tag);
  }

  lemma FitsSwitch(prog: Flat, p: nat, s: Stmt, d: Dest, m: Marks, names: Names, tag: nat)
    requires s.Switch? && Lower(s, d, m).Ok?
    requires Placed(prog, p, Lower(s, d, m).node, Lower(s, d, m).marks, names, tag)
    ensures Fits(prog, p, s, d, m, Lower(s, d, m).node, Lower(s, d, m).marks, names, tag)
    decreases s, 0
  {
    hide Lower, LayOut, Waiting, FlatAt, TestsAt;
    SwitchShape(prog, p, s, d, m, names, tag);
    LowerFits(prog, p + 2, s.body, SwitchDest(d, m), SwitchMarks(m), names, tag + LabelCount(s.scrutinee));
    var c := Check(prog, p + 2, s.body, names);
    assert [] + c.cases == c.cases && m.cases + [] == m.cases;
  }
}
