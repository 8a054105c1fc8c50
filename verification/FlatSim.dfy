/** Flat code laid out as the checker wants runs in step with the structured statement. */
module FlatSim {
  import opened Options
  import opened Words
  import opened Expressions
  import opened Statements
  import opened FlatCode
  import opened Layout

  // ---------- where a continuation begins ----------

  /** The code that follows a completed statement at `q` carries out the continuation. */
  ghost predicate ContAt(prog: Flat, q: nat, k: Cont, names: Names)
    decreases k
  {
    match k
    case Stop => q + 1 == |prog| && prog[q] == FLabel(names.ret)
    case Then(s, k') =>
      var m := Check(prog, q, s, names);
      m.Good? && ContAt(prog, m.end, k', names) && LooseOk(prog, m, k', names)
    case EndIf(true, k') =>
      && Jumps(prog, q)
      && var r := Target(prog, prog[q].to);
         r < |prog| && ContAt(prog, r + 1, k', names)
    case EndIf(false, k') => Defines(prog, q) && ContAt(prog, q + 1, k', names)
    case InWhile(c, b, k') =>
      && Jumps(prog, q)
      && HeadMatches(prog, Target(prog, prog[q].to), While(c, b), q + 2, k', names)
      && Defines(prog, q + 1) && ContAt(prog, q + 2, k', names)
    case InDo(b, c, k') =>
      && q + 8 <= |prog| && prog[q + 2].FJump?
      && DoTail(prog, q, c, prog[q + 2].to)
      && HeadMatches(prog, Target(prog, prog[q + 2].to), DoWhile(b, c), q + 8, k', names)
      && ContAt(prog, q + 8, k', names)
    case InFor(c, st, b, k') =>
      var j := q + 1 + StepOps(st);
      && Defines(prog, q) && (st.Some? ==> Evaluates(prog, q + 1, st.value))
      && Jumps(prog, j) && Defines(prog, j + 1)
      && HeadMatches(prog, Target(prog, prog[j].to), For(None, c, st, b), j + 2, k', names)
      && ContAt(prog, j + 2, k', names)
    case InSwitch(k') =>
      && Jumps(prog, q)
      && var r := Target(prog, prog[q].to);
         r < |prog| && ContAt(prog, r + 1, k', names)
  }

  /** The loop statement's own code begins at `p` and ends at `end`. */
  ghost predicate HeadMatches(prog: Flat, p: nat, s: Stmt, end: nat, k: Cont, names: Names) {
    var m := Check(prog, p, s, names);
    m.Good? && m.end == end && m.cnts <= ContSet(prog, end, k, names) && m.brks <= BreakSet(prog, end, k, names)
  }

  /** The label a `break` at the end of this code may jump to. */
  ghost function BreakSet(prog: Flat, q: nat, k: Cont, names: Names): set<Label>
    decreases k
  {
    match k
    case Stop => {}
    case Then(s, k') =>
      var m := Check(prog, q, s, names);
      if m.Good? then BreakSet(prog, m.end, k', names) else {}
    case EndIf(true, k') => if Jumps(prog, q) then BreakSet(prog, Target(prog, prog[q].to) + 1, k', names) else {}
    case EndIf(false, k') => BreakSet(prog, q + 1, k', names)
    case InWhile(_, _, _) => if Defines(prog, q + 1) then {prog[q + 1].name} else {}
    case InDo(_, _, _) => if Defines(prog, q + 7) then {prog[q + 7].name} else {}
    case InFor(_, st, _, _) =>
      var j := q + 1 + StepOps(st);
      if Defines(prog, j + 1) then {prog[j + 1].name} else {}
    case InSwitch(_) => if Jumps(prog, q) then {prog[q].to} else {}
  }

  /** The label a `continue` in this code may jump to. */
  ghost function ContSet(prog: Flat, q: nat, k: Cont, names: Names): set<Label>
    decreases k
  {
    match k
    case Stop => {}
    case Then(s, k') =>
      var m := Check(prog, q, s, names);
      if m.Good? then ContSet(prog, m.end, k', names) else {}
    case EndIf(true, k') => if Jumps(prog, q) then ContSet(prog, Target(prog, prog[q].to) + 1, k', names) else {}
    case EndIf(false, k') => ContSet(prog, q + 1, k', names)
    case InWhile(_, _, _) => if Jumps(prog, q) then {prog[q].to} else {}
    case InDo(_, _, _) => if Jumps(prog, q + 2) then {prog[q + 2].to} else {}
    case InFor(_, _, _, _) => if Defines(prog, q) then {prog[q].name} else {}
    case InSwitch(k') => if Jumps(prog, q) then ContSet(prog, Target(prog, prog[q].to) + 1, k', names) else {}
  }

  ghost predicate LooseOk(prog: Flat, m: Match, k: Cont, names: Names)
    requires m.Good?
  {
    m.brks <= BreakSet(prog, m.end, k, names) && m.cnts <= ContSet(prog, m.end, k, names)
  }

  /** A statement with its continuation is at `p`. */
  ghost predicate StmtAt(prog: Flat, p: nat, s: Stmt, k: Cont, names: Names) {
    var m := Check(prog, p, s, names);
    m.Good? && ContAt(prog, m.end, k, names) && LooseOk(prog, m, k, names)
  }

  // ---------- entering parts of a statement ----------

  lemma SeqChecks(prog: Flat, p: nat, a: Stmt, b: Stmt, names: Names)
    requires Check(prog, p, Seq(a, b), names).Good?
    ensures Check(prog, p, a, names).Good?
    ensures var m := Check(prog, p, a, names);
            var n := Check(prog, m.end, b, names);
            && n.Good?
            && Check(prog, p, Seq(a, b), names)
               == Good(n.end, m.brks + n.brks, m.cnts + n.cnts, m.cases + n.cases, OneDefault(m.dflt, n.dflt))
  {
    hide Is, Jumps, Defines, Branches, Evaluates;
  }

  /** Where the first of two statements goes on. */
  lemma AfterFirst(prog: Flat, q: nat, b: Stmt, k: Cont, names: Names)
    requires StmtAt(prog, q, b, k, names)
    ensures ContAt(prog, q, Then(b, k), names)
    ensures var n := Check(prog, q, b, names);
            && BreakSet(prog, q, Then(b, k), names) == BreakSet(prog, n.end, k, names)
            && ContSet(prog, q, Then(b, k), names) == ContSet(prog, n.end, k, names)
  {
    hide Check, HeadMatches, Jumps, Defines, Evaluates, DoTail, Target;
  }

  lemma SeqParts(prog: Flat, p: nat, a: Stmt, b: Stmt, k: Cont, names: Names)
    requires StmtAt(prog, p, Seq(a, b), k, names)
    ensures StmtAt(prog, p, a, Then(b, k), names)
    ensures StmtAt(prog, Check(prog, p, a, names).end, b, k, names)
  {
    hide Check, ContAt, BreakSet, ContSet;
    SeqChecks(prog, p, a, b, names);
    AfterFirst(prog, Check(prog, p, a, names).end, b, k, names);
  }

  lemma IfChecks(prog: Flat, p: nat, c: Expr, t: Stmt, names: Names)
    requires Check(prog, p, If(c, t), names).Good?
    ensures Branches(prog, p, c)
    ensures var m := Check(prog, p + 1, t, names);
            && m.Good? && Is(prog, m.end, FLabel(prog[p].ifZero))
            && Check(prog, p, If(c, t), names) == m.(end := m.end + 1)
  {
    hide Is, Jumps, Defines, Evaluates;
  }

  lemma IfParts(prog: Flat, p: nat, c: Expr, t: Stmt, k: Cont, names: Names)
    requires Unique(prog) && StmtAt(prog, p, If(c, t), k, names)
    ensures Branches(prog, p, c)
    ensures StmtAt(prog, p + 1, t, EndIf(false, k), names)
    ensures var q := Target(prog, prog[p].ifZero);
            q < |prog| && ContAt(prog, q + 1, k, names)
  {
    hide Check, Unique, Target, ContAt, BreakSet, ContSet;
    IfChecks(prog, p, c, t, names);
    var m := Check(prog, p + 1, t, names);
    TargetIs(prog, prog[p].ifZero, m.end);
    AfterElse(prog, m.end, k, names);
  }

  lemma IfElseChecks(prog: Flat, p: nat, c: Expr, t: Stmt, f: Stmt, names: Names)
    requires Check(prog, p, IfElse(c, t, f), names).Good?
    ensures Branches(prog, p, c) && Check(prog, p + 1, t, names).Good?
    ensures var m := Check(prog, p + 1, t, names);
            Jumps(prog, m.end) && Is(prog, m.end + 1, FLabel(prog[p].ifZero)) && Check(prog, m.end + 2, f, names).Good?
    ensures var m := Check(prog, p + 1, t, names);
            var n := Check(prog, m.end + 2, f, names);
            && Is(prog, n.end, FLabel(prog[m.end].to))
            && Check(prog, p, IfElse(c, t, f), names)
               == Good(n.end + 1, m.brks + n.brks, m.cnts + n.cnts, m.cases + n.cases, OneDefault(m.dflt, n.dflt))
  {
    hide Defines, Evaluates, ExitTest, DoTail, SwitchTail, Loop, OneDefault, RangeCases;
  }

  /** Where the end of a then-part goes on. */
  lemma AfterThen(prog: Flat, q: nat, r: nat, k: Cont, names: Names)
    requires Jumps(prog, q) && Target(prog, prog[q].to) == r && r < |prog| && ContAt(prog, r + 1, k, names)
    ensures ContAt(prog, q, EndIf(true, k), names)
    ensures BreakSet(prog, q, EndIf(true, k), names) == BreakSet(prog, r + 1, k, names)
    ensures ContSet(prog, q, EndIf(true, k), names) == ContSet(prog, r + 1, k, names)
  {
    hide Check, HeadMatches, Defines, Evaluates, DoTail;
  }

  lemma AfterElse(prog: Flat, q: nat, k: Cont, names: Names)
    requires Defines(prog, q) && ContAt(prog, q + 1, k, names)
    ensures ContAt(prog, q, EndIf(false, k), names)
    ensures BreakSet(prog, q, EndIf(false, k), names) == BreakSet(prog, q + 1, k, names)
    ensures ContSet(prog, q, EndIf(false, k), names) == ContSet(prog, q + 1, k, names)
  {
    hide Check, HeadMatches, Evaluates, DoTail, Jumps, Target;
  }

  lemma IfElseParts(prog: Flat, p: nat, c: Expr, t: Stmt, f: Stmt, k: Cont, names: Names)
    requires Unique(prog) && StmtAt(prog, p, IfElse(c, t, f), k, names)
    ensures Branches(prog, p, c)
    ensures StmtAt(prog, p + 1, t, EndIf(true, k), names)
    ensures var q := Target(prog, prog[p].ifZero);
            q < |prog| && StmtAt(prog, q + 1, f, EndIf(false, k), names)
    ensures Check(prog, p + 1, t, names).Good?
         && Target(prog, prog[p].ifZero) + 1 == Check(prog, p + 1, t, names).end + 2
  {
    hide Check, Unique, Target, ContAt, BreakSet, ContSet;
    IfElseChecks(prog, p, c, t, f, names);
    var m := Check(prog, p + 1, t, names);
    var n := Check(prog, m.end + 2, f, names);
    TargetIs(prog, prog[p].ifZero, m.end + 1);
    TargetIs(prog, prog[m.end].to, n.end);
    AfterThen(prog, m.end, n.end, k, names);
    AfterElse(prog, n.end, k, names);
  }

  lemma WhileChecks(prog: Flat, p: nat, c: Expr, b: Stmt, names: Names)
    requires Check(prog, p, While(c, b), names).Good?
    ensures Defines(prog, p) && ExitTest(prog, p + 1, c)
    ensures var m := Check(prog, p + 6, b, names);
            && m.Good? && Is(prog, m.end, FJump(prog[p].name)) && Is(prog, m.end + 1, FLabel(prog[p + 4].to))
            && m.brks <= {prog[p + 4].to} && m.cnts <= {prog[p].name}
            && Check(prog, p, While(c, b), names) == Good(m.end + 2, {}, {}, m.cases, m.dflt)
  {
    hide Jumps, Evaluates, Branches;
  }

  /** Where the body of a loop goes on; `h` is the head it jumps to. */
  lemma AfterWhileBody(prog: Flat, q: nat, h: nat, c: Expr, b: Stmt, k: Cont, names: Names)
    requires Jumps(prog, q) && Target(prog, prog[q].to) == h && Defines(prog, q + 1)
    requires HeadMatches(prog, h, While(c, b), q + 2, k, names) && ContAt(prog, q + 2, k, names)
    ensures ContAt(prog, q, InWhile(c, b, k), names)
    ensures BreakSet(prog, q, InWhile(c, b, k), names) == {prog[q + 1].name}
    ensures ContSet(prog, q, InWhile(c, b, k), names) == {prog[q].to}
  {
    hide Check, HeadMatches, Evaluates, DoTail, Target;
  }

  lemma WhileParts(prog: Flat, p: nat, c: Expr, b: Stmt, k: Cont, names: Names)
    requires Unique(prog) && StmtAt(prog, p, While(c, b), k, names)
    ensures Defines(prog, p) && ExitTest(prog, p + 1, c)
    ensures StmtAt(prog, p + 6, b, InWhile(c, b, k), names)
    ensures var q := Target(prog, prog[p + 4].to);
            q < |prog| && ContAt(prog, q + 1, k, names)
  {
    hide Check, Unique, Target, ContAt, BreakSet, ContSet;
    WhileChecks(prog, p, c, b, names);
    var m := Check(prog, p + 6, b, names);
    TargetIs(prog, prog[p].name, p);
    TargetIs(prog, prog[p + 4].to, m.end + 1);
    AfterWhileBody(prog, m.end, p, c, b, k, names);
  }

  lemma DoChecks(prog: Flat, p: nat, b: Stmt, c: Expr, names: Names)
    requires Check(prog, p, DoWhile(b, c), names).Good?
    ensures Defines(prog, p)
    ensures var m := Check(prog, p + 1, b, names);
            && m.Good? && DoTail(prog, m.end, c, prog[p].name)
            && m.end + 8 <= |prog| && prog[m.end + 2] == FJump(prog[p].name) && prog[m.end + 7].FLabel?
            && m.brks <= {prog[m.end + 7].name} && m.cnts <= {prog[p].name}
            && Check(prog, p, DoWhile(b, c), names) == Good(m.end + 8, {}, {}, m.cases, m.dflt)
  {
    hide Evaluates;
  }

  lemma AfterDoBody(prog: Flat, q: nat, h: nat, b: Stmt, c: Expr, k: Cont, names: Names)
    requires q + 8 <= |prog| && prog[q + 2].FJump? && Target(prog, prog[q + 2].to) == h && prog[q + 7].FLabel?
    requires DoTail(prog, q, c, prog[q + 2].to)
    requires HeadMatches(prog, h, DoWhile(b, c), q + 8, k, names) && ContAt(prog, q + 8, k, names)
    ensures ContAt(prog, q, InDo(b, c, k), names)
    ensures BreakSet(prog, q, InDo(b, c, k), names) == {prog[q + 7].name}
    ensures ContSet(prog, q, InDo(b, c, k), names) == {prog[q + 2].to}
  {
    hide Check, HeadMatches, Evaluates, DoTail, Target;
  }

  lemma DoParts(prog: Flat, p: nat, b: Stmt, c: Expr, k: Cont, names: Names)
    requires Unique(prog) && StmtAt(prog, p, DoWhile(b, c), k, names)
    ensures Defines(prog, p)
    ensures StmtAt(prog, p + 1, b, InDo(b, c, k), names)
  {
    hide Check, Unique, Target, ContAt, BreakSet, ContSet, DoTail;
    DoChecks(prog, p, b, c, names);
    var m := Check(prog, p + 1, b, names);
    TargetIs(prog, prog[p].name, p);
    AfterDoBody(prog, m.end, p, b, c, k, names);
  }

  lemma ForChecks(prog: Flat, p: nat, c: Option<Expr>, st: Option<Expr>, b: Stmt, names: Names)
    requires Check(prog, p, For(None, c, st, b), names).Good?
    ensures Defines(prog, p) && (c.Some? ==> ExitTest(prog, p + 1, c.value))
    ensures var m := Check(prog, BodyStart(p, c), b, names);
            && m.Good?
            && var j := m.end + 1 + StepOps(st);
            && Defines(prog, m.end) && (st.Some? ==> Evaluates(prog, m.end + 1, st.value))
            && Is(prog, j, FJump(prog[p].name)) && Defines(prog, j + 1)
            && (c.Some? ==> prog[p + 4].to == prog[j + 1].name)
            && m.brks <= {prog[j + 1].name} && m.cnts <= {prog[m.end].name}
            && Check(prog, p, For(None, c, st, b), names) == Good(j + 2, {}, {}, m.cases, m.dflt)
  {
    hide Jumps, Branches, Evaluates, ExitTest;
  }

  lemma AfterForBody(prog: Flat, q: nat, h: nat, c: Option<Expr>, st: Option<Expr>, b: Stmt, k: Cont, names: Names)
    requires Defines(prog, q) && (st.Some? ==> Evaluates(prog, q + 1, st.value))
    requires var j := q + 1 + StepOps(st);
             && Jumps(prog, j) && Target(prog, prog[j].to) == h && Defines(prog, j + 1)
             && HeadMatches(prog, h, For(None, c, st, b), j + 2, k, names) && ContAt(prog, j + 2, k, names)
    ensures ContAt(prog, q, InFor(c, st, b, k), names)
    ensures BreakSet(prog, q, InFor(c, st, b, k), names) == {prog[q + 1 + StepOps(st) + 1].name}
    ensures ContSet(prog, q, InFor(c, st, b, k), names) == {prog[q].name}
  {
    hide Check, HeadMatches, Evaluates, DoTail, Target;
  }

  lemma ForParts(prog: Flat, p: nat, c: Option<Expr>, st: Option<Expr>, b: Stmt, k: Cont, names: Names)
    requires Unique(prog) && StmtAt(prog, p, For(None, c, st, b), k, names)
    ensures Defines(prog, p) && (c.Some? ==> ExitTest(prog, p + 1, c.value))
    ensures StmtAt(prog, BodyStart(p, c), b, InFor(c, st, b, k), names)
    ensures c.Some? ==>
              var q := Target(prog, prog[p + 4].to);
              q < |prog| && ContAt(prog, q + 1, k, names)
  {
    hide Check, Unique, Target, ContAt, BreakSet, ContSet, Evaluates;
    ForChecks(prog, p, c, st, b, names);
    var m := Check(prog, BodyStart(p, c), b, names);
    var j := m.end + 1 + StepOps(st);
    TargetIs(prog, prog[p].name, p);
    TargetIs(prog, prog[j + 1].name, j + 1);
    AfterForBody(prog, m.end, p, c, st, b, k, names);
  }

  lemma ForInit(prog: Flat, p: nat, i: Expr, c: Option<Expr>, st: Option<Expr>, b: Stmt, k: Cont, names: Names)
    requires StmtAt(prog, p, For(Some(i), c, st, b), k, names)
    ensures Evaluates(prog, p, i) && StmtAt(prog, p + 1, For(None, c, st, b), k, names)
    ensures Check(prog, p, For(Some(i), c, st, b), names) == Check(prog, p + 1, For(None, c, st, b), names)
  {
    hide ContAt, BreakSet, ContSet, Loop;
  }

  lemma SwitchChecks(prog: Flat, p: nat, e: Expr, b: Stmt, names: Names)
    requires Check(prog, p, Switch(e, b), names).Good?
    ensures p < |prog| && prog[p].FSetTemp? && prog[p].e == e && Jumps(prog, p + 1)
    ensures var m := Check(prog, p + 2, b, names);
            && m.Good? && SwitchTail(prog, m.end, prog[p + 1].to, m.cases, m.dflt)
            && Jumps(prog, m.end) && Is(prog, m.end + 1, FLabel(prog[p + 1].to))
            && Is(prog, SwitchEnd(m.end, m.cases, m.dflt), FLabel(prog[m.end].to)) && m.brks <= {prog[m.end].to}
            && Check(prog, p, Switch(e, b), names)
               == Good(SwitchEnd(m.end, m.cases, m.dflt) + 1, {}, m.cnts, [], None)
  {
    hide Defines, Branches, Evaluates, TestsAt;
  }

  lemma AfterSwitchBody(prog: Flat, q: nat, r: nat, k: Cont, names: Names)
    requires Jumps(prog, q) && Target(prog, prog[q].to) == r && r < |prog| && ContAt(prog, r + 1, k, names)
    ensures ContAt(prog, q, InSwitch(k), names)
    ensures BreakSet(prog, q, InSwitch(k), names) == {prog[q].to}
    ensures ContSet(prog, q, InSwitch(k), names) == ContSet(prog, r + 1, k, names)
  {
    hide Check, HeadMatches, Evaluates, DoTail;
  }

  lemma SwitchParts(prog: Flat, p: nat, e: Expr, b: Stmt, k: Cont, names: Names)
    requires Unique(prog) && StmtAt(prog, p, Switch(e, b), k, names)
    ensures p + 1 < |prog| && prog[p].FSetTemp? && prog[p].e == e && prog[p + 1].FJump?
    ensures var m := Check(prog, p + 2, b, names);
            && m.Good? && Jumps(prog, m.end) && Target(prog, prog[p + 1].to) == m.end + 1
            && SwitchTail(prog, m.end, prog[p + 1].to, m.cases, m.dflt)
            && Target(prog, prog[m.end].to) == SwitchEnd(m.end, m.cases, m.dflt)
            && ContAt(prog, SwitchEnd(m.end, m.cases, m.dflt) + 1, k, names)
    ensures StmtAt(prog, p + 2, b, InSwitch(k), names)
  {
    hide Check, Unique, Target, ContAt, BreakSet, ContSet, SwitchTail;
    SwitchChecks(prog, p, e, b, names);
    var m := Check(prog, p + 2, b, names);
    TargetIs(prog, prog[p + 1].to, m.end + 1);
    TargetIs(prog, prog[m.end].to, SwitchEnd(m.end, m.cases, m.dflt));
    AfterSwitchBody(prog, m.end, SwitchEnd(m.end, m.cases, m.dflt), k, names);
  }

  // ---------- labels ----------

  function FirstCase(cases: seq<(int, Label)>, v: int): Option<Label>
    decreases |cases|
  {
    if cases == [] then None
    else if ToSigned(Int, cases[0].0) == v then Some(cases[0].1)
    else FirstCase(cases[1..], v)
  }

  lemma {:induction false} FirstCaseAppend(a: seq<(int, Label)>, b: seq<(int, Label)>, v: int)
    ensures FirstCase(a + b, v) == if FirstCase(a, v).Some? then FirstCase(a, v) else FirstCase(b, v)
    decreases |a|
  {
    if a == [] {
      assert a + b == b;
    } else {
      assert (a + b)[1..] == a[1..] + b;
      FirstCaseAppend(a[1..], b, v);
    }
  }

  lemma {:induction false} FirstInRange(lo: int, hi: int, l: Label, v: int)
    ensures FirstCase(RangeCases(lo, hi, l), v) == if CaseMatches(lo, hi, v) then Some(l) else None
    decreases hi - lo + 1
  {
    if lo <= hi {
      FirstInRange(lo + 1, hi, l, v);
      assert RangeCases(lo, hi, l)[1..] == RangeCases(lo + 1, hi, l);
      assert CaseMatches(lo, hi, v) == (ToSigned(Int, lo) == v || CaseMatches(lo + 1, hi, v));
    }
  }

  /** What the checker knows of a selected statement: the label that leads to it. */
  function LabelOf(sel: Selector, m: Match, names: Names): Option<Label>
    requires m.Good?
  {
    match sel
    case ByName(n) => if n in names.labels then Some(names.labels[n]) else None
    case ByValue(v) => FirstCase(m.cases, v)
    case ByDefault => m.dflt
  }

  /** The position found is where the statement's label is defined, and it is found if the label is listed. */
  ghost predicate FoundAt(prog: Flat, sel: Selector, m: Match, f: Found, p: nat, names: Names)
    requires m.Good?
  {
    && (f.At? ==> StmtAt(prog, p, f.s, f.k, names) && Defines(prog, p)
                  && LabelOf(sel, m, names) == Some(prog[p].name))
    && (f.Nowhere? && !sel.ByName? ==> LabelOf(sel, m, names) == None)
  }

  lemma {:induction false} FindAt(prog: Flat, sel: Selector, s: Stmt, k: Cont, p: nat, names: Names)
    returns (r: nat)
    requires Unique(prog) && StmtAt(prog, p, s, k, names)
    ensures FoundAt(prog, sel, Check(prog, p, s, names), Find(sel, s, k), r, names)
    decreases s, 1
  {
    hide ContAt, BreakSet, ContSet, FirstCase, CaseMatches;
    match s
    case Seq(_, _) => r := FindInSeq(prog, sel, s, k, p, names);
    case If(_, _) => r := FindInIf(prog, sel, s, k, p, names);
    case IfElse(_, _, _) => r := FindInIfElse(prog, sel, s, k, p, names);
    case While(_, _) => r := FindInWhile(prog, sel, s, k, p, names);
    case DoWhile(_, _) => r := FindInDo(prog, sel, s, k, p, names);
    case For(_, _, _, _) => r := FindInFor(prog, sel, s, k, p, names);
    case Switch(_, _) => r := FindInSwitch(prog, sel, s, k, p, names);
    case Case(_, _, _) => r := FindAtLabel(prog, sel, s, k, p, names);
    case Default(_) => r := FindAtLabel(prog, sel, s, k, p, names);
    case Labeled(_, _) => r := FindAtLabel(prog, sel, s, k, p, names);
    case _ => r := 0; NoLabels(sel);
  }

  lemma NoLabels(sel: Selector)
    ensures sel.ByValue? ==> FirstCase([], sel.v) == None
  {
  }

  /** What is found only depends on the labels that are listed. */
  lemma FoundSame(prog: Flat, sel: Selector, m: Match, n: Match, f: Found, r: nat, names: Names)
    requires m.Good? && n.Good? && m.cases == n.cases && m.dflt == n.dflt && FoundAt(prog, sel, m, f, r, names)
    ensures FoundAt(prog, sel, n, f, r, names)
  {
    hide StmtAt;
  }

  lemma FindInSeq(prog: Flat, sel: Selector, s: Stmt, k: Cont, p: nat, names: Names) returns (r: nat)
    requires s.Seq? && Unique(prog) && StmtAt(prog, p, s, k, names)
    ensures FoundAt(prog, sel, Check(prog, p, s, names), Find(sel, s, k), r, names)
    decreases s, 0
  {
    hide Check, Unique, Target, ContAt, BreakSet, ContSet, FirstCase, CaseMatches, FoundAt;
    SeqParts(prog, p, s.first, s.second, k, names);
    SeqChecks(prog, p, s.first, s.second, names);
    var m := Check(prog, p, s.first, names);
    var n := Check(prog, m.end, s.second, names);
    r := FindAt(prog, sel, s.first, Then(s.second, k), p, names);
    var r2 := FindAt(prog, sel, s.second, k, m.end, names);
    TwoPlaces(prog, sel, m, n, Check(prog, p, s, names), Find(sel, s.first, Then(s.second, k)),
              Find(sel, s.second, k), r, r2, names);
    if Find(sel, s.first, Then(s.second, k)).Nowhere? { r := r2; }
  }

  /** A statement with two parts lists the labels of the first, then those of the second. */
  lemma TwoPlaces(prog: Flat, sel: Selector, m: Match, n: Match, both: Match, f: Found, g: Found,
                  p: nat, q: nat, names: Names)
    requires m.Good? && n.Good? && both.Good?
    requires both.cases == m.cases + n.cases && both.dflt == OneDefault(m.dflt, n.dflt)
    requires FoundAt(prog, sel, m, f, p, names) && FoundAt(prog, sel, n, g, q, names)
    ensures FoundAt(prog, sel, both, OrElse(f, g), if f.At? then p else q, names)
  {
    hide StmtAt;
    if sel.ByValue? { FirstCaseAppend(m.cases, n.cases, sel.v); }
  }

  lemma FindInIf(prog: Flat, sel: Selector, s: Stmt, k: Cont, p: nat, names: Names) returns (r: nat)
    requires s.If? && Unique(prog) && StmtAt(prog, p, s, k, names)
    ensures FoundAt(prog, sel, Check(prog, p, s, names), Find(sel, s, k), r, names)
    decreases s, 0
  {
    hide Check, Unique, Target, ContAt, BreakSet, ContSet, FirstCase, CaseMatches, FoundAt;
    IfParts(prog, p, s.cond, s.thn, k, names);
    IfChecks(prog, p, s.cond, s.thn, names);
    r := FindAt(prog, sel, s.thn, EndIf(false, k), p + 1, names);
    FoundSame(prog, sel, Check(prog, p + 1, s.thn, names), Check(prog, p, s, names), Find(sel, s, k), r, names);
  }

  lemma FindInIfElse(prog: Flat, sel: Selector, s: Stmt, k: Cont, p: nat, names: Names) returns (r: nat)
    requires s.IfElse? && Unique(prog) && StmtAt(prog, p, s, k, names)
    ensures FoundAt(prog, sel, Check(prog, p, s, names), Find(sel, s, k), r, names)
    decreases s, 0
  {
    hide Check, Unique, Target, ContAt, BreakSet, ContSet, FirstCase, CaseMatches, FoundAt;
    IfElseParts(prog, p, s.cond, s.thn, s.els, k, names);
    IfElseChecks(prog, p, s.cond, s.thn, s.els, names);
    var m := Check(prog, p + 1, s.thn, names);
    var n := Check(prog, m.end + 2, s.els, names);
    r := FindAt(prog, sel, s.thn, EndIf(true, k), p + 1, names);
    var r2 := FindAt(prog, sel, s.els, EndIf(false, k), m.end + 2, names);
    TwoPlaces(prog, sel, m, n, Check(prog, p, s, names), Find(sel, s.thn, EndIf(true, k)),
              Find(sel, s.els, EndIf(false, k)), r, r2, names);
    if Find(sel, s.thn, EndIf(true, k)).Nowhere? { r := r2; }
  }

  lemma FindInWhile(prog: Flat, sel: Selector, s: Stmt, k: Cont, p: nat, names: Names) returns (r: nat)
    requires s.While? && Unique(prog) && StmtAt(prog, p, s, k, names)
    ensures FoundAt(prog, sel, Check(prog, p, s, names), Find(sel, s, k), r, names)
    decreases s, 0
  {
    hide Check, Unique, Target, ContAt, BreakSet, ContSet, FirstCase, CaseMatches, FoundAt;
    WhileParts(prog, p, s.cond, s.body, k, names);
    WhileChecks(prog, p, s.cond, s.body, names);
    r := FindAt(prog, sel, s.body, InWhile(s.cond, s.body, k), p + 6, names);
    FoundSame(prog, sel, Check(prog, p + 6, s.body, names), Check(prog, p, s, names), Find(sel, s, k), r, names);
  }

  lemma FindInDo(prog: Flat, sel: Selector, s: Stmt, k: Cont, p: nat, names: Names) returns (r: nat)
    requires s.DoWhile? && Unique(prog) && StmtAt(prog, p, s, k, names)
    ensures FoundAt(prog, sel, Check(prog, p, s, names), Find(sel, s, k), r, names)
    decreases s, 0
  {
    hide Check, Unique, Target, ContAt, BreakSet, ContSet, FirstCase, CaseMatches, FoundAt;
    DoParts(prog, p, s.body, s.cond, k, names);
    DoChecks(prog, p, s.body, s.cond, names);
    r := FindAt(prog, sel, s.body, InDo(s.body, s.cond, k), p + 1, names);
    FoundSame(prog, sel, Check(prog, p + 1, s.body, names), Check(prog, p, s, names), Find(sel, s, k), r, names);
  }

  lemma FindInFor(prog: Flat, sel: Selector, s: Stmt, k: Cont, p: nat, names: Names) returns (r: nat)
    requires s.For? && Unique(prog) && StmtAt(prog, p, s, k, names)
    ensures FoundAt(prog, sel, Check(prog, p, s, names), Find(sel, s, k), r, names)
    decreases s, 0
  {
    hide Check, Unique, Target, ContAt, BreakSet, ContSet, FirstCase, CaseMatches, FoundAt;
    var p0 := if s.init.Some? then p + 1 else p;
    if s.init.Some? { ForInit(prog, p, s.init.value, s.test, s.step, s.body, k, names); }
    ForParts(prog, p0, s.test, s.step, s.body, k, names);
    ForChecks(prog, p0, s.test, s.step, s.body, names);
    var q := BodyStart(p0, s.test);
    r := FindAt(prog, sel, s.body, InFor(s.test, s.step, s.body, k), q, names);
    FoundSame(prog, sel, Check(prog, q, s.body, names), Check(prog, p, s, names), Find(sel, s, k), r, names);
  }

  lemma FindInSwitch(prog: Flat, sel: Selector, s: Stmt, k: Cont, p: nat, names: Names) returns (r: nat)
    requires s.Switch? && Unique(prog) && StmtAt(prog, p, s, k, names)
    ensures FoundAt(prog, sel, Check(prog, p, s, names), Find(sel, s, k), r, names)
    decreases s, 0
  {
    SwitchParts(prog, p, s.scrutinee, s.body, k, names);
    NoLabels(sel);
    hide ContAt, BreakSet, ContSet, FirstCase;
    r := FindAt(prog, sel, s.body, InSwitch(k), p + 2, names);
  }

  lemma FindAtLabel(prog: Flat, sel: Selector, s: Stmt, k: Cont, p: nat, names: Names) returns (r: nat)
    requires (s.Case? || s.Default? || s.Labeled?) && Unique(prog) && StmtAt(prog, p, s, k, names)
    ensures FoundAt(prog, sel, Check(prog, p, s, names), Find(sel, s, k), r, names)
    decreases s, 0
  {
    hide ContAt, BreakSet, ContSet, FirstCase, CaseMatches, RangeCases;
    r := FindAt(prog, sel, s.body, k, p + 1, names);
    if s.Case? && sel.ByValue? {
      var l := prog[p].name;
      FirstCaseAppend(RangeCases(s.lo, s.hi, l), Check(prog, p + 1, s.body, names).cases, sel.v);
      FirstInRange(s.lo, s.hi, l, sel.v);
    }
    if (s.Case? && sel.ByValue? && CaseMatches(s.lo, s.hi, sel.v)) || (s.Default? && sel.ByDefault?)
       || (s.Labeled? && sel == ByName(s.name)) {
      r := p;
    }
  }
}
