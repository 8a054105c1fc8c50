/** The statement parser as it runs: destinations are fields that a loop or switch saves, overwrites and
    restores; labels are drawn on the way; jumps to names not seen yet are kept for the end of the function.
    Every method is proved to build what the specification function `Lower` says. */
module ParserClass {
  import opened Options
  import opened Expressions
  import opened Statements
  import opened FlatCode
  import opened Lowering

  /** A statement, or the error that stops the parser. */
  datatype Outcome = Done(node: Node) | Failed(error: SyntaxError)

  type CaseLabelList = seq<(int, Label)>

  class Parser {
    var tag: nat                             // the last label
    var breakDest: Option<Label>
    var continueDest: Option<Label>
    var caseLabels: Option<CaseLabelList>    // null outside any switch
    var defaultLabel: Option<Label>
    var curLabels: map<LabelName, Label>
    var unresolvedJumps: seq<LabelName>

    constructor (tag: nat)
      ensures Dests() == Dest(None, None, false) && Here() == Marks(tag, [], None, map[]) && unresolvedJumps == []
    {
      this.tag := tag;
      breakDest, continueDest, caseLabels, defaultLabel := None, None, None, None;
      curLabels, unresolvedJumps := map[], [];
    }

    ghost function Dests(): Dest
      reads this
    {
      Dest(breakDest, continueDest, caseLabels.Some?)
    }

    ghost function Here(): Marks
      reads this
    {
      Marks(tag, if caseLabels.Some? then caseLabels.value else [], defaultLabel, curLabels)
    }

    ghost function Unresolved(): set<LabelName>
      reads this
    {
      set n | n in unresolvedJumps
    }

    /** The parser has read the statement as `Lower` does, and its destinations are what they were. */
    twostate predicate Parsed(s: Stmt, r: Outcome)
      reads this
    {
      match Lower(s, old(Dests()), old(Here()))
      case Error(e) => r == Failed(e)
      case Ok(node, m) =>
        && r == Done(node) && Here() == m && Dests() == old(Dests())
        && Unresolved() == old(Unresolved()) + Waiting(node)
    }

    method NewLabel() returns (l: Label)
      modifies this`tag
      ensures l == tag == old(tag) + 1
    {
      tag := tag + 1;
      l := tag;
    }

    method ParseStmt(s: Stmt) returns (r: Outcome)
      modifies this
      ensures Parsed(s, r)
      decreases s, 1
    {
      match s
      case Skip => return Done(Empty);
      case Do(e) => return Done(Evaluate(e));
      case Seq(_, _) => r := ParseCompoundStmt(s);
      case If(_, _) => r := ParseIfStmt(s);
      case IfElse(_, _, _) => r := ParseIfStmt(s);
      case While(_, _) => r := ParseWhileStmt(s);
      case DoWhile(_, _) => r := ParseDoStmt(s);
      case For(_, _, _, _) => r := ParseForStmt(s);
      case Switch(_, _) => r := ParseSwitchStmt(s);
      case Case(_, _, _) => r := ParseCaseStmt(s);
      case Default(_) => r := ParseDefaultStmt(s);
      case Break => return if breakDest.None? then Failed(BreakOutside) else Done(Jump(breakDest.value));
      case Continue => return if continueDest.None? then Failed(ContinueOutside) else Done(Jump(continueDest.value));
      case Goto(n) => r := ParseGotoStmt(n);
      case Labeled(_, _) => r := ParseLabelStmt(s);
      case Return(e) => return Done(Leave(e));
    }

    method ParseCompoundStmt(s: Stmt) returns (r: Outcome)
      requires s.Seq?
      modifies this
      ensures Parsed(s, r)
      decreases s, 0
    {
      r := ParseStmt(s.first);
      if r.Failed? { return; }
      var first := r.node;
      r := ParseStmt(s.second);
      if r.Failed? { return; }
      WaitingTwo(first, r.node);
      return Done(Compound([first, r.node]));
    }

    method ParseIfStmt(s: Stmt) returns (r: Outcome)
      requires s.If? || s.IfElse?
      modifies this
      ensures Parsed(s, r)
      decreases s, 0
    {
      r := ParseStmt(s.thn);
      if r.Failed? { return; }
      var thn := r.node;
      if s.If? { return Done(Test(s.cond, thn, None)); }
      r := ParseStmt(s.els);
      if r.Failed? { return; }
      return Done(Test(s.cond, thn, Some(r.node)));
    }

    method ParseWhileStmt(s: Stmt) returns (r: Outcome)
      requires s.While?
      modifies this
      ensures Parsed(s, r)
      decreases s, 0
    {
      hide Lower, Waiting;
      WhileLowered(s, Dests(), Here());
      var condLabel := NewLabel();
      var endLabel := NewLabel();
      var breakDestBackup, continueDestBackup := breakDest, continueDest;
      breakDest, continueDest := Some(endLabel), Some(condLabel);
      r := ParseStmt(s.body);
      if r.Failed? { return; }
      breakDest, continueDest := breakDestBackup, continueDestBackup;
      var stmts := [LabelHere(condLabel), ExitUnless(s.cond, endLabel), r.node, Jump(condLabel), LabelHere(endLabel)];
      WhileWaits(s.cond, r.node, condLabel, endLabel);
      return Done(Compound(stmts));
    }

    method ParseDoStmt(s: Stmt) returns (r: Outcome)
      requires s.DoWhile?
      modifies this
      ensures Parsed(s, r)
      decreases s, 0
    {
      hide Lower, Waiting;
      DoLowered(s, Dests(), Here());
      var beginLabel := NewLabel();
      var condLabel := NewLabel();
      var endLabel := NewLabel();
      var breakDestBackup, continueDestBackup := breakDest, continueDest;
      breakDest, continueDest := Some(endLabel), Some(beginLabel);
      r := ParseStmt(s.body);
      if r.Failed? { return; }
      breakDest, continueDest := breakDestBackup, continueDestBackup;
      var stmts := [LabelHere(beginLabel), r.node, LabelHere(condLabel),
                    Test(s.cond, Jump(beginLabel), Some(Jump(endLabel))), LabelHere(endLabel)];
      DoWaits(s.cond, r.node, beginLabel, condLabel, endLabel);
      return Done(Compound(stmts));
    }

    method ParseForStmt(s: Stmt) returns (r: Outcome)
      requires s.For?
      modifies this
      ensures Parsed(s, r)
      decreases s, 0
    {
      hide Lower, Waiting, ForNodes;
      ForLowered(s, Dests(), Here());
      var stmts: seq<Node> := [];
      if s.init.Some? { stmts := stmts + [Evaluate(s.init.value)]; }
      var condLabel := NewLabel();
      var stepLabel := NewLabel();
      var endLabel := NewLabel();
      stmts := stmts + [LabelHere(condLabel)];
      if s.test.Some? { stmts := stmts + [ExitUnless(s.test.value, endLabel)]; }
      assert stmts == (if s.init.Some? then [Evaluate(s.init.value)] else []) + [LabelHere(condLabel)]
                      + (if s.test.Some? then [ExitUnless(s.test.value, endLabel)] else []);
      var breakDestBackup, continueDestBackup := breakDest, continueDest;
      breakDest, continueDest := Some(endLabel), Some(stepLabel);
      r := ParseStmt(s.body);
      if r.Failed? { return; }
      breakDest, continueDest := breakDestBackup, continueDestBackup;
      stmts := stmts + [r.node, LabelHere(stepLabel)];
      stmts := stmts + [OptionalEval(s.step)];
      stmts := stmts + [Jump(condLabel), LabelHere(endLabel)];
      ForBuilt(s.init, s.test, s.step, r.node, condLabel, stepLabel, endLabel);
      ForWaits(s.init, s.test, s.step, r.node, condLabel, stepLabel, endLabel);
      return Done(Compound(stmts));
    }

    method ParseSwitchStmt(s: Stmt) returns (r: Outcome)
      requires s.Switch?
      modifies this
      ensures Parsed(s, r)
      decreases s, 0
    {
      hide Lower, Waiting, TestNodes;
      SwitchLowered(s, Dests(), Here());
      var testLabel := NewLabel();
      var endLabel := NewLabel();
      var stmts := [SetTemp(s.scrutinee), Jump(testLabel)];
      var caseLabelsBackup, defaultLabelBackup, breakDestBackup := caseLabels, defaultLabel, breakDest;
      breakDest, caseLabels, defaultLabel := Some(endLabel), Some([]), None;
      r := ParseStmt(s.body);
      if r.Failed? { return; }
      stmts := stmts + [r.node, Jump(endLabel), LabelHere(testLabel)];
      ghost var head := stmts;
      var list := caseLabels.value;
      NoTestNodes();
      for i := 0 to |list|
        modifies {}
        invariant stmts == head + TestNodes(list[..i])
      {
        TestNodesNext(list, i);
        stmts := stmts + [TestTemp(list[i].0, Jump(list[i].1))];
      }
      assert list[..|list|] == list;
      ghost var m := Here();
      if defaultLabel.Some? { stmts := stmts + [Jump(defaultLabel.value)]; }
      stmts := stmts + [LabelHere(endLabel)];
      assert stmts == SwitchNodes(s.scrutinee, r.node, list, defaultLabel, testLabel, endLabel);
      caseLabels, defaultLabel, breakDest := caseLabelsBackup, defaultLabelBackup, breakDestBackup;
      SwitchWaits(s.scrutinee, r.node, list, m.dflt, testLabel, endLabel);
      return Done(Compound(stmts));
    }

    method ParseCaseStmt(s: Stmt) returns (r: Outcome)
      requires s.Case?
      modifies this
      ensures Parsed(s, r)
      decreases s, 0
    {
      if caseLabels.None? && s.lo <= s.hi { return Failed(CaseOutside); }
      var labelStmt := NewLabel();
      ghost var list := Here().cases;
      var val := s.lo;
      while val <= s.hi
        invariant s.lo <= val && (val <= s.hi + 1 || val == s.lo)
        invariant val > s.lo ==> val - 1 <= INT_MAX
        invariant unchanged(`breakDest, `continueDest, `defaultLabel, `curLabels, `unresolvedJumps)
        invariant tag == labelStmt
        invariant Here().cases == list + RangeCases(s.lo, val - 1, labelStmt)
        invariant caseLabels.Some? <==> old(caseLabels.Some?)
      {
        if val > INT_MAX { return Failed(CaseTooLarge); }
        RangeNext(s.lo, val, labelStmt);
        caseLabels := Some(caseLabels.value + [(val, labelStmt)]);
        val := val + 1;
      }
      r := ParseStmt(s.body);
      if r.Failed? { return; }
      WaitingOnly([LabelHere(labelStmt), r.node], 1);
      return Done(Compound([LabelHere(labelStmt), r.node]));
    }

    method ParseDefaultStmt(s: Stmt) returns (r: Outcome)
      requires s.Default?
      modifies this
      ensures Parsed(s, r)
      decreases s, 0
    {
      if defaultLabel.Some? { return Failed(TwoDefaults); }
      var labelStmt := NewLabel();
      defaultLabel := Some(labelStmt);
      r := ParseStmt(s.body);
      if r.Failed? { return; }
      WaitingOnly([LabelHere(labelStmt), r.node], 1);
      return Done(Compound([LabelHere(labelStmt), r.node]));
    }

    method ParseGotoStmt(name: LabelName) returns (r: Outcome)
      modifies this`unresolvedJumps
      ensures Parsed(Goto(name), r)
    {
      if name in curLabels { return Done(Jump(curLabels[name])); }
      unresolvedJumps := unresolvedJumps + [name];
      return Done(Pending(name));
    }

    method ParseLabelStmt(s: Stmt) returns (r: Outcome)
      requires s.Labeled?
      modifies this
      ensures Parsed(s, r)
      decreases s, 0
    {
      r := ParseStmt(s.body);
      if r.Failed? { return; }
      if s.name in curLabels { return Failed(LabelTwice); }
      var labelStmt := NewLabel();
      curLabels := curLabels[s.name := labelStmt];
      WaitingOnly([LabelHere(labelStmt), r.node], 1);
      return Done(Compound([LabelHere(labelStmt), r.node]));
    }

    /** At the end of a function every jump that waits must find its label. */
    method ExitFunc() returns (ok: bool, labels: map<LabelName, Label>)
      modifies this`curLabels, this`unresolvedJumps
      ensures ok <==> old(Unresolved()) <= old(curLabels.Keys)
      ensures ok ==> labels == old(curLabels) && curLabels == map[] && unresolvedJumps == []
    {
      for i := 0 to |unresolvedJumps|
        invariant forall j :: 0 <= j < i ==> unresolvedJumps[j] in curLabels
        invariant unchanged(this)
      {
        if unresolvedJumps[i] !in curLabels { return false, map[]; }
      }
      ok, labels := true, curLabels;
      curLabels, unresolvedJumps := map[], [];
    }
  }

  /** A whole function body: what the parser does is what the translation is proved about. */
  method ParseFunc(body: Stmt, first: nat) returns (r: Outcome, labels: map<LabelName, Label>, ret: Label, tag: nat)
    ensures match Translate(body, first)
            case Rejected(e) => r == Failed(e)
            case Function(code, names, end, last) =>
              && r.Done? && labels == names && ret == end
              && var x := LayOut(r.node, labels, ret, tag); code == x.code + [FLabel(ret)] && last == x.tag
  {
    var p := new Parser(first);
    ret := p.NewLabel();
    r := p.ParseStmt(body);
    labels, tag := map[], p.tag;
    if r.Done? {
      var ok: bool;
      ok, labels := p.ExitFunc();
      if !ok { r := Failed(LabelMissing); }
    }
  }

  // ---------- the pending jumps of a list ----------

  lemma WaitingTwo(a: Node, b: Node)
    ensures Waiting(Compound([a, b])) == Waiting(a) + Waiting(b)
  {
    assert [a, b][1..] == [b] && [b][1..] == [];
    assert WaitingAll([b]) == Waiting(b) + WaitingAll([]);
  }

  /** Only one of the statements has jumps that wait. */
  lemma {:induction false} WaitingOnly(ss: seq<Node>, i: nat)
    requires i < |ss| && forall j :: 0 <= j < |ss| && j != i ==> Waiting(ss[j]) == {}
    ensures Waiting(Compound(ss)) == Waiting(ss[i])
    decreases |ss|
  {
    if i > 0 {
      WaitingOnly(ss[1..], i - 1);
    } else {
      WaitingNone(ss[1..]);
    }
  }

  lemma {:induction false} WaitingNone(ss: seq<Node>)
    requires forall j :: 0 <= j < |ss| ==> Waiting(ss[j]) == {}
    ensures WaitingAll(ss) == {}
    decreases |ss|
  {
    if ss != [] {
      assert forall j :: 0 <= j < |ss[1..]| ==> ss[1..][j] == ss[j + 1];
      WaitingNone(ss[1..]);
    }
  }

  lemma WhileWaits(c: Expr, body: Node, condLabel: Label, endLabel: Label)
    ensures Waiting(Compound([LabelHere(condLabel), ExitUnless(c, endLabel), body, Jump(condLabel),
            LabelHere(endLabel)]))
         == Waiting(body)
  {
    WaitingOnly([LabelHere(condLabel), ExitUnless(c, endLabel), body, Jump(condLabel), LabelHere(endLabel)], 2);
  }

  lemma DoWaits(c: Expr, body: Node, beginLabel: Label, condLabel: Label, endLabel: Label)
    ensures Waiting(Compound([LabelHere(beginLabel), body, LabelHere(condLabel),
                              Test(c, Jump(beginLabel), Some(Jump(endLabel))), LabelHere(endLabel)]))
         == Waiting(body)
  {
    WaitingOnly([LabelHere(beginLabel), body, LabelHere(condLabel),
                 Test(c, Jump(beginLabel), Some(Jump(endLabel))), LabelHere(endLabel)], 1);
  }

  lemma ForWaits(init: Option<Expr>, test: Option<Expr>, step: Option<Expr>, body: Node,
                 condLabel: Label, stepLabel: Label, endLabel: Label)
    ensures Waiting(Compound(ForNodes(init, test, step, body, condLabel, stepLabel, endLabel))) == Waiting(body)
  {
    WaitingOnly(ForNodes(init, test, step, body, condLabel, stepLabel, endLabel),
                (if init.Some? then 2 else 1) + (if test.Some? then 1 else 0));
  }

  lemma SwitchWaits(e: Expr, body: Node, cases: CaseLabelList, dflt: Option<Label>, testLabel: Label, endLabel: Label)
    ensures Waiting(Compound(SwitchNodes(e, body, cases, dflt, testLabel, endLabel))) == Waiting(body)
  {
    TestNodesAt(cases);
    WaitingOnly(SwitchNodes(e, body, cases, dflt, testLabel, endLabel), 2);
  }

  /** The nodes of a for loop, as the parser collects them. */
  lemma ForBuilt(init: Option<Expr>, test: Option<Expr>, step: Option<Expr>, body: Node, condLabel: Label,
                 stepLabel: Label, endLabel: Label)
    ensures (if init.Some? then [Evaluate(init.value)] else []) + [LabelHere(condLabel)]
            + (if test.Some? then [ExitUnless(test.value, endLabel)] else [])
            + [body, LabelHere(stepLabel)] + [OptionalEval(step)] + [Jump(condLabel), LabelHere(endLabel)]
         == ForNodes(init, test, step, body, condLabel, stepLabel, endLabel)
  {
    hide OptionalEval, ExitUnless;
  }

  lemma NoTestNodes()
    ensures TestNodes([]) == []
  {
  }

  lemma {:induction false} TestNodesNext(list: CaseLabelList, i: nat)
    requires i < |list|
    ensures TestNodes(list[..i + 1]) == TestNodes(list[..i]) + [TestTemp(list[i].0, Jump(list[i].1))]
    decreases |list|
  {
    if i == 0 {
      assert list[..1][1..] == [];
    } else {
      TestNodesNext(list[1..], i - 1);
      assert list[1..][..i] == list[..i + 1][1..] && list[1..][..i - 1] == list[..i][1..];
    }
  }

  lemma {:induction false} TestNodesAt(list: CaseLabelList)
    ensures forall n :: n in TestNodes(list) ==> Waiting(n) == {}
    decreases |list|
  {
    if list != [] { TestNodesAt(list[1..]); }
  }

  lemma {:induction false} RangeNext(lo: int, val: int, l: Label)
    requires lo <= val
    ensures RangeCases(lo, val, l) == RangeCases(lo, val - 1, l) + [(val, l)]
    decreases val - lo
  {
    if lo < val { RangeNext(lo + 1, val, l); }
  }
}
