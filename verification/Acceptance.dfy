/** Which function bodies are accepted, said of their text alone. */
module Acceptance {
  import opened Options
  import opened Expressions
  import opened Statements
  import opened FlatCode
  import opened Lowering
  import P = ParserClass

  // ---------- the text ----------

  /** How many `default`s belong to the switch around the statement. */
  function Defaults(s: Stmt): nat {
    match s
    case Default(b) => 1 + Defaults(b)
    case Seq(a, b) => Defaults(a) + Defaults(b)
    case If(_, t) => Defaults(t)
    case IfElse(_, t, f) => Defaults(t) + Defaults(f)
    case While(_, b) => Defaults(b)
    case DoWhile(b, _) => Defaults(b)
    case For(_, _, _, b) => Defaults(b)
    case Case(_, _, b) => Defaults(b)
    case Labeled(_, b) => Defaults(b)
    case _ => 0
  }

  /** The names of the labels, as often as they are given. */
  function LabelNames(s: Stmt): multiset<LabelName> {
    match s
    case Labeled(n, b) => multiset{n} + LabelNames(b)
    case Seq(a, b) => LabelNames(a) + LabelNames(b)
    case If(_, t) => LabelNames(t)
    case IfElse(_, t, f) => LabelNames(t) + LabelNames(f)
    case While(_, b) => LabelNames(b)
    case DoWhile(b, _) => LabelNames(b)
    case For(_, _, _, b) => LabelNames(b)
    case Switch(_, b) => LabelNames(b)
    case Case(_, _, b) => LabelNames(b)
    case Default(b) => LabelNames(b)
    case _ => multiset{}
  }

  /** The names that are jumped to. */
  function GotoNames(s: Stmt): set<LabelName> {
    match s
    case Goto(n) => {n}
    case Seq(a, b) => GotoNames(a) + GotoNames(b)
    case If(_, t) => GotoNames(t)
    case IfElse(_, t, f) => GotoNames(t) + GotoNames(f)
    case While(_, b) => GotoNames(b)
    case DoWhile(b, _) => GotoNames(b)
    case For(_, _, _, b) => GotoNames(b)
    case Switch(_, b) => GotoNames(b)
    case Case(_, _, b) => GotoNames(b)
    case Default(b) => GotoNames(b)
    case Labeled(_, b) => GotoNames(b)
    case _ => {}
  }

  /** Something inside a statement that is reported as `e`: a `break` outside every loop and switch, a `continue`
      outside every loop, a `case` with a value outside every switch or with one above the largest `int`, two defaults
      of a switch. The flags say what the statement is inside of. */
  predicate Fault(e: SyntaxError, s: Stmt, breakable: bool, inLoop: bool, inSwitch: bool) {
    match s
    case Break => e.BreakOutside? && !breakable
    case Continue => e.ContinueOutside? && !inLoop
    case Seq(a, b) => Fault(e, a, breakable, inLoop, inSwitch) || Fault(e, b, breakable, inLoop, inSwitch)
    case If(_, t) => Fault(e, t, breakable, inLoop, inSwitch)
    case IfElse(_, t, f) => Fault(e, t, breakable, inLoop, inSwitch) || Fault(e, f, breakable, inLoop, inSwitch)
    case While(_, b) => Fault(e, b, true, true, inSwitch)
    case DoWhile(b, _) => Fault(e, b, true, true, inSwitch)
    case For(_, _, _, b) => Fault(e, b, true, true, inSwitch)
    case Switch(_, b) => (e.TwoDefaults? && Defaults(b) > 1) || Fault(e, b, true, inLoop, true)
    case Case(lo, hi, b) =>
      || (e.CaseOutside? && lo <= hi && !inSwitch)
      || (e.CaseTooLarge? && lo <= hi && hi > INT_MAX)
      || Fault(e, b, breakable, inLoop, inSwitch)
    case Default(b) => Fault(e, b, breakable, inLoop, inSwitch)
    case Labeled(_, b) => Fault(e, b, breakable, inLoop, inSwitch)
    case _ => false
  }

  ghost predicate Once(names: multiset<LabelName>) {
    forall n :: names[n] <= 1
  }

  /** What is wrong with a whole body, by the error that reports it. */
  ghost predicate Wrong(e: SyntaxError, body: Stmt) {
    || Fault(e, body, false, false, false)
    || (e.TwoDefaults? && Defaults(body) > 1)
    || (e.LabelTwice? && !Once(LabelNames(body)))
    || (e.LabelMissing? && exists n :: n in GotoNames(body) && n !in LabelNames(body))
  }

  ghost predicate Acceptable(body: Stmt) {
    forall e :: !Wrong(e, body)
  }

  // ---------- one statement, behind what has been read ----------

  function Count(l: Option<Label>): nat {
    if l.Some? then 1 else 0
  }

  ghost predicate WrongAt(e: SyntaxError, s: Stmt, d: Dest, m: Marks) {
    || Fault(e, s, d.brk.Some?, d.cnt.Some?, d.inSwitch)
    || (e.TwoDefaults? && Defaults(s) + Count(m.dflt) > 1)
    || (e.LabelTwice? && !Once(multiset(m.labels.Keys) + LabelNames(s)))
  }

  /** Refused for a reason, or read because there is none. */
  ghost predicate Judged(s: Stmt, d: Dest, m: Marks, r: Parsed) {
    match r
    case Error(e) => WrongAt(e, s, d, m)
    case Ok(node, m1) =>
      && (forall e :: !WrongAt(e, s, d, m))
      && multiset(m1.labels.Keys) == multiset(m.labels.Keys) + LabelNames(s)
      && Count(m1.dflt) == Count(m.dflt) + Defaults(s)
      && Waiting(node) <= GotoNames(s) <= Waiting(node) + m1.labels.Keys
  }

  lemma {:induction false} LowerJudged(s: Stmt, d: Dest, m: Marks)
    requires Count(m.dflt) <= 1
    ensures Judged(s, d, m, Lower(s, d, m))
    decreases s, 1
  {
    hide Lower, Waiting;
    match s
    case Seq(a, b) => SeqJudged(s, d, m);
    case If(_, t) =>
      IfLowered(s, d, m);
      LowerJudged(t, d, m);
      ArmWrong(s, d, m);
      if Lower(t, d, m).Ok? { ArmWaits(s.cond, Lower(t, d, m).node); }
    case IfElse(_, _, _) => SeqJudged(s, d, m);
    case While(_, _) => LoopJudged(s, d, m);
    case DoWhile(_, _) => LoopJudged(s, d, m);
    case For(_, _, _, _) => LoopJudged(s, d, m);
    case Switch(_, _) => SwitchJudged(s, d, m);
    case Case(_, _, _) => MarkJudged(s, d, m);
    case Default(_) => MarkJudged(s, d, m);
    case Labeled(_, _) => NameJudged(s, d, m);
    case _ => LeafJudged(s, d, m);
  }

  lemma LeafJudged(s: Stmt, d: Dest, m: Marks)
    requires s.Skip? || s.Do? || s.Break? || s.Continue? || s.Goto? || s.Return?
    ensures Judged(s, d, m, Lower(s, d, m))
  {
  }

  lemma ArmWrong(s: Stmt, d: Dest, m: Marks)
    requires s.If?
    ensures forall e :: WrongAt(e, s.thn, d, m) <==> WrongAt(e, s, d, m)
    ensures LabelNames(s) == LabelNames(s.thn) && Defaults(s) == Defaults(s.thn) && GotoNames(s) == GotoNames(s.thn)
  {
  }

  lemma ArmWaits(c: Expr, t: Node)
    ensures Waiting(Test(c, t, None)) == Waiting(t)
  {
  }

  /** Two statements one after the other, or the two arms of a test. */
  lemma SeqJudged(s: Stmt, d: Dest, m: Marks)
    requires (s.Seq? || s.IfElse?) && Count(m.dflt) <= 1
    ensures Judged(s, d, m, Lower(s, d, m))
    decreases s, 0
  {
    hide Lower, Waiting;
    var a, b := if s.Seq? then s.first else s.thn, if s.Seq? then s.second else s.els;
    if s.Seq? { SeqLowered(s, d, m); } else { IfElseLowered(s, d, m); }
    LowerJudged(a, d, m);
    var x := Lower(a, d, m);
    if x.Error? {
      PairWrong(s, a, b, d, m);
    } else {
      LowerJudged(b, d, x.marks);
      PairRight(s, a, b, d, m, x.marks);
      var y := Lower(b, d, x.marks);
      if y.Ok? {
        KeysGrow(x.marks, y.marks, LabelNames(b));
        if s.Seq? { P.WaitingTwo(x.node, y.node); } else { ArmsWait(s.cond, x.node, y.node); }
      }
    }
  }

  lemma ArmsWait(c: Expr, t: Node, f: Node)
    ensures Waiting(Test(c, t, Some(f))) == Waiting(t) + Waiting(f)
  {
  }

  lemma PairWrong(s: Stmt, a: Stmt, b: Stmt, d: Dest, m: Marks)
    requires s == Seq(a, b) || (s.IfElse? && s == IfElse(s.cond, a, b))
    ensures forall e :: WrongAt(e, a, d, m) ==> WrongAt(e, s, d, m)
  {
    MoreNames(multiset(m.labels.Keys) + LabelNames(a), LabelNames(b));
    assert multiset(m.labels.Keys) + LabelNames(s) == multiset(m.labels.Keys) + LabelNames(a) + LabelNames(b);
  }

  lemma MoreNames(a: multiset<LabelName>, b: multiset<LabelName>)
    ensures Once(a + b) ==> Once(a)
  {
    if Once(a + b) {
      forall n
        ensures a[n] <= 1
      {
        assert (a + b)[n] <= 1;
      }
    }
  }

  /** Behind a first statement without fault, the faults are those of the second one. */
  lemma PairRight(s: Stmt, a: Stmt, b: Stmt, d: Dest, m: Marks, m1: Marks)
    requires s == Seq(a, b) || (s.IfElse? && s == IfElse(s.cond, a, b))
    requires forall e :: !WrongAt(e, a, d, m)
    requires multiset(m1.labels.Keys) == multiset(m.labels.Keys) + LabelNames(a)
    requires Count(m1.dflt) == Count(m.dflt) + Defaults(a)
    ensures forall e :: WrongAt(e, b, d, m1) <==> WrongAt(e, s, d, m)
    ensures multiset(m1.labels.Keys) + LabelNames(b) == multiset(m.labels.Keys) + LabelNames(s)
  {
    assert multiset(m.labels.Keys) + LabelNames(s) == multiset(m1.labels.Keys) + LabelNames(b);
    forall e
      ensures WrongAt(e, b, d, m1) <==> WrongAt(e, s, d, m)
    {
      assert !WrongAt(e, a, d, m);
    }
  }

  lemma KeysGrow(m: Marks, m1: Marks, names: multiset<LabelName>)
    requires multiset(m1.labels.Keys) == multiset(m.labels.Keys) + names
    ensures m.labels.Keys <= m1.labels.Keys
  {
    forall n | n in m.labels.Keys
      ensures n in m1.labels.Keys
    {
      assert multiset(m1.labels.Keys)[n] >= 1;
    }
  }

  lemma LoopJudged(s: Stmt, d: Dest, m: Marks)
    requires (s.While? || s.DoWhile? || s.For?) && Count(m.dflt) <= 1
    ensures Judged(s, d, m, Lower(s, d, m))
    decreases s, 0
  {
    hide Lower, Waiting, ForNodes;
    if s.While? {
      var c, end := m.tag + 1, m.tag + 2;
      var d1, m1 := d.(brk := Some(end), cnt := Some(c)), m.(tag := end);
      WhileLowered(s, d, m);
      LowerJudged(s.body, d1, m1);
      var x := Lower(s.body, d1, m1);
      if x.Ok? { P.WhileWaits(s.cond, x.node, c, end); }
    } else if s.DoWhile? {
      var b, c, end := m.tag + 1, m.tag + 2, m.tag + 3;
      var d1, m1 := d.(brk := Some(end), cnt := Some(b)), m.(tag := end);
      DoLowered(s, d, m);
      LowerJudged(s.body, d1, m1);
      var x := Lower(s.body, d1, m1);
      if x.Ok? { P.DoWaits(s.cond, x.node, b, c, end); }
    } else {
      var c, st, end := m.tag + 1, m.tag + 2, m.tag + 3;
      var d1, m1 := d.(brk := Some(end), cnt := Some(st)), m.(tag := end);
      ForLowered(s, d, m);
      LowerJudged(s.body, d1, m1);
      var x := Lower(s.body, d1, m1);
      if x.Ok? { P.ForWaits(s.init, s.test, s.step, x.node, c, st, end); }
    }
    BodyWrong(s, d, m);
  }

  /** The faults of a loop are those of its body. */
  lemma BodyWrong(s: Stmt, d: Dest, m: Marks)
    requires s.While? || s.DoWhile? || s.For?
    ensures forall e: SyntaxError, d1: Dest, m1: Marks :: d1.brk.Some? && d1.cnt.Some? && d1.inSwitch == d.inSwitch
                                && m1.labels == m.labels && m1.dflt == m.dflt
              ==> (WrongAt(e, s.body, d1, m1) <==> WrongAt(e, s, d, m))
  {
  }

  lemma SwitchJudged(s: Stmt, d: Dest, m: Marks)
    requires s.Switch? && Count(m.dflt) <= 1
    ensures Judged(s, d, m, Lower(s, d, m))
    decreases s, 0
  {
    hide Lower, Waiting, SwitchNodes;
    var t, end := m.tag + 1, m.tag + 2;
    var d1, m1 := d.(brk := Some(end), inSwitch := true), m.(tag := end, cases := [], dflt := None);
    SwitchLowered(s, d, m);
    LowerJudged(s.body, d1, m1);
    var x := Lower(s.body, d1, m1);
    if x.Ok? { P.SwitchWaits(s.scrutinee, x.node, x.marks.cases, x.marks.dflt, t, end); }
    forall e
      ensures WrongAt(e, s.body, d1, m1) <==> WrongAt(e, s, d, m)
    {
    }
  }

  lemma CaseStops(s: Stmt, d: Dest, m: Marks)
    requires s.Case? && (s.lo <= s.hi ==> d.inSwitch && s.hi <= INT_MAX)
    ensures var b := Lower(s.body, d, LabelMarks(s, m));
            if b.Error? then Lower(s, d, m) == b else Lower(s, d, m).Ok?
  {
    hide RangeCases, ForNodes, SwitchNodes, ExitUnless;
  }

  lemma CaseRead(s: Stmt, d: Dest, m: Marks)
    requires s.Case? && (s.lo <= s.hi ==> d.inSwitch && s.hi <= INT_MAX)
    ensures Lower(s, d, m)
         == match Lower(s.body, d, LabelMarks(s, m))
            case Error(e) => Error(e)
            case Ok(x, m1) => Ok(Compound([LabelHere(m.tag + 1), x]), m1)
  {
    hide Lower, RangeCases;
    CaseStops(s, d, m);
    if Lower(s, d, m).Ok? { LabelLowered(s, d, m); }
  }

  lemma CaseRefused(s: Stmt, d: Dest, m: Marks)
    requires s.Case? && s.lo <= s.hi && !(d.inSwitch && s.hi <= INT_MAX)
    ensures Lower(s, d, m) == Error(if d.inSwitch then CaseTooLarge else CaseOutside)
  {
  }

  lemma DefaultRead(s: Stmt, d: Dest, m: Marks)
    requires s.Default?
    ensures Lower(s, d, m)
         == if m.dflt.Some? then Error(TwoDefaults)
            else match Lower(s.body, d, LabelMarks(s, m))
              case Error(e) => Error(e)
              case Ok(x, m1) => Ok(Compound([LabelHere(m.tag + 1), x]), m1)
  {
    hide RangeCases, ForNodes, SwitchNodes, ExitUnless;
  }

  lemma NameRead(s: Stmt, d: Dest, m: Marks)
    requires s.Labeled?
    ensures Lower(s, d, m)
         == match Lower(s.body, d, m)
            case Error(e) => Error(e)
            case Ok(x, m1) =>
              if s.name in m1.labels then Error(LabelTwice)
              else Ok(Compound([LabelHere(m1.tag + 1), x]),
                      m1.(tag := m1.tag + 1, labels := m1.labels[s.name := m1.tag + 1]))
  {
    hide RangeCases, ForNodes, SwitchNodes, ExitUnless;
  }

  lemma NameJudged(s: Stmt, d: Dest, m: Marks)
    requires s.Labeled? && Count(m.dflt) <= 1
    ensures Judged(s, d, m, Lower(s, d, m))
    decreases s, 0
  {
    hide Lower, Waiting;
    NameRead(s, d, m);
    LowerJudged(s.body, d, m);
    NamedWrong(s, d, m);
    var x := Lower(s.body, d, m);
    if x.Ok? {
      HereWaits(x.marks.tag + 1, x.node);
      OneMoreName(s, d, m, x.marks, x.marks.tag + 1);
    }
  }

  lemma MarkJudged(s: Stmt, d: Dest, m: Marks)
    requires (s.Case? || s.Default?) && Count(m.dflt) <= 1
    ensures Judged(s, d, m, Lower(s, d, m))
    decreases s, 0
  {
    hide Lower, Waiting, RangeCases;
    if s.Default? && m.dflt.Some? {
      DefaultRead(s, d, m);
      assert WrongAt(TwoDefaults, s, d, m);
    } else if s.Case? && s.lo <= s.hi && !(d.inSwitch && s.hi <= INT_MAX) {
      CaseRefused(s, d, m);
    } else {
      if s.Case? { CaseRead(s, d, m); } else { DefaultRead(s, d, m); }
      var m0 := LabelMarks(s, m);
      LowerJudged(s.body, d, m0);
      MarkedWrong(s, d, m);
      var x := Lower(s.body, d, m0);
      if x.Ok? { HereWaits(m.tag + 1, x.node); }
    }
  }

  lemma HereWaits(l: Label, x: Node)
    ensures Waiting(Compound([LabelHere(l), x])) == Waiting(x)
  {
    P.WaitingTwo(LabelHere(l), x);
  }

  lemma MarkedWrong(s: Stmt, d: Dest, m: Marks)
    requires (s.Case? || s.Default?) && !(s.Default? && m.dflt.Some?)
    ensures forall e :: WrongAt(e, s, d, m) <==>
              || WrongAt(e, s.body, d, LabelMarks(s, m))
              || (s.Case? && e.CaseOutside? && s.lo <= s.hi && !d.inSwitch)
              || (s.Case? && e.CaseTooLarge? && s.lo <= s.hi && s.hi > INT_MAX)
  {
    hide RangeCases;
  }

  lemma NamedWrong(s: Stmt, d: Dest, m: Marks)
    requires s.Labeled?
    ensures forall e :: WrongAt(e, s.body, d, m) ==> WrongAt(e, s, d, m)
  {
    var names := multiset(m.labels.Keys) + LabelNames(s.body);
    MoreNames(names, multiset{s.name});
    assert multiset(m.labels.Keys) + LabelNames(s) == names + multiset{s.name};
  }

  /** A label behind a body without fault: wrong exactly if its name is taken. */
  lemma OneMoreName(s: Stmt, d: Dest, m: Marks, m1: Marks, l: Label)
    requires s.Labeled? && forall e :: !WrongAt(e, s.body, d, m)
    requires multiset(m1.labels.Keys) == multiset(m.labels.Keys) + LabelNames(s.body)
    ensures if s.name in m1.labels then WrongAt(LabelTwice, s, d, m)
            else && (forall e :: !WrongAt(e, s, d, m))
                 && multiset(m1.labels[s.name := l].Keys) == multiset(m.labels.Keys) + LabelNames(s)
  {
    var all := multiset(m.labels.Keys) + LabelNames(s);
    assert all == multiset(m1.labels.Keys) + multiset{s.name};
    if s.name in m1.labels {
      assert all[s.name] == 2;
    } else {
      forall n
        ensures all[n] <= 1
      {
      }
      assert m1.labels[s.name := l].Keys == m1.labels.Keys + {s.name};
      forall e
        ensures !WrongAt(e, s, d, m)
      {
        assert !WrongAt(e, s.body, d, m);
      }
    }
  }

  // ---------- a whole function ----------

  lemma StartWrong(body: Stmt, d: Dest, m: Marks)
    requires d == Dest(None, None, false) && m.dflt.None? && m.labels == map[]
    ensures forall e :: WrongAt(e, body, d, m) ==> Wrong(e, body)
    ensures forall e :: Wrong(e, body) ==> e.LabelMissing? || WrongAt(e, body, d, m)
  {
    assert multiset(m.labels.Keys) + LabelNames(body) == LabelNames(body);
  }

  /** With its own names only, a label is missing exactly if a jump waits for it. */
  lemma MissingIff(body: Stmt, node: Node, labels: set<LabelName>)
    requires multiset(labels) == LabelNames(body)
    requires Waiting(node) <= GotoNames(body) <= Waiting(node) + labels
    ensures Waiting(node) <= labels <==> !Wrong(LabelMissing, body)
  {
    hide Waiting;
    FaultsNoMissing(body, false, false, false);
    forall n
      ensures n in LabelNames(body) <==> n in labels
    {
      assert multiset(labels)[n] == LabelNames(body)[n];
    }
    if !(Waiting(node) <= labels) {
      var n :| n in Waiting(node) && n !in labels;
      assert n in GotoNames(body) && n !in LabelNames(body);
    }
  }

  /** A body is translated exactly if nothing is wrong with it; an error that is reported is one of its own. */
  lemma AcceptedIff(body: Stmt, first: nat)
    ensures Translate(body, first).Function? <==> Acceptable(body)
    ensures Translate(body, first).Rejected? ==> Wrong(Translate(body, first).error, body)
  {
    hide Lower, Waiting, LayOut, WrongAt, Wrong, LabelNames, GotoNames, Defaults;
    var d, m := Dest(None, None, false), Marks(first + 1, [], None, map[]);
    LowerJudged(body, d, m);
    StartWrong(body, d, m);
    var r := Lower(body, d, m);
    if r.Ok? {
      assert multiset(m.labels.Keys) + LabelNames(body) == LabelNames(body);
      MissingIff(body, r.node, r.marks.labels.Keys);
    }
  }

  lemma {:induction false} FaultsNoMissing(s: Stmt, breakable: bool, inLoop: bool, inSwitch: bool)
    ensures !Fault(LabelMissing, s, breakable, inLoop, inSwitch)
  {
    match s
    case Seq(a, b) =>
      FaultsNoMissing(a, breakable, inLoop, inSwitch);
      FaultsNoMissing(b, breakable, inLoop, inSwitch);
    case If(_, t) => FaultsNoMissing(t, breakable, inLoop, inSwitch);
    case IfElse(_, t, f) =>
      FaultsNoMissing(t, breakable, inLoop, inSwitch);
      FaultsNoMissing(f, breakable, inLoop, inSwitch);
    case While(_, b) => FaultsNoMissing(b, true, true, inSwitch);
    case DoWhile(b, _) => FaultsNoMissing(b, true, true, inSwitch);
    case For(_, _, _, b) => FaultsNoMissing(b, true, true, inSwitch);
    case Switch(_, b) => FaultsNoMissing(b, true, inLoop, true);
    case Case(_, _, b) => FaultsNoMissing(b, breakable, inLoop, inSwitch);
    case Default(b) => FaultsNoMissing(b, breakable, inLoop, inSwitch);
    case Labeled(_, b) => FaultsNoMissing(b, breakable, inLoop, inSwitch);
    case _ =>
  }
}
