/** Conditional inclusion: the stack of `#if`, `#elif` and `#else` entries, and the groups it keeps. */
module Conditionals {
  import opened Options

  datatype Tag = If | Ifdef | Ifndef | Elif | Else

  datatype CondDirective = CondDirective(tag: Tag, enabled: bool, cond: bool)

  type Stack = seq<CondDirective>     // the top is the last entry

  /** The value of a controlling expression; `Bad` cannot be evaluated. */
  datatype Value = True | False | Bad

  predicate NeedExpand(s: Stack) {
    s == [] || (s[|s| - 1].enabled && s[|s| - 1].cond)
  }

  predicate Opens(e: CondDirective) {
    e.tag.If? || e.tag.Ifdef? || e.tag.Ifndef?
  }

  /** Entries are dropped down to the opening one or to one whose group is included. */
  function Unwind(s: Stack): (r: Stack)
    ensures |r| <= |s|
  {
    if s == [] || Opens(s[|s| - 1]) || s[|s| - 1].cond then s else Unwind(s[..|s| - 1])
  }

  /** Entries are dropped down to and with the opening one. */
  function Close(s: Stack): Option<Stack> {
    if s == [] then None
    else if Opens(s[|s| - 1]) then Some(s[..|s| - 1])
    else Close(s[..|s| - 1])
  }

  datatype Line = Text(id: int) | IfLine(v: Value) | IfdefLine(defined: bool) | IfndefLine(defined: bool)
                | ElifLine(v: Value) | ElseLine | EndifLine

  /** One directive; `None` stands for the error that ends preprocessing. */
  function Step(s: Stack, line: Line): Option<Stack> {
    match line
    case Text(_) => Some(s)
    case IfLine(v) =>
      if !NeedExpand(s) then Some(s + [CondDirective(If, false, false)])
      else if v.Bad? then None
      else Some(s + [CondDirective(If, true, v.True?)])
    case IfdefLine(d) =>
      Some(s + [if NeedExpand(s) then CondDirective(Ifdef, true, d) else CondDirective(Ifdef, false, false)])
    case IfndefLine(d) =>
      Some(s + [if NeedExpand(s) then CondDirective(Ifndef, true, !d) else CondDirective(Ifndef, false, true)])
    case ElifLine(v) =>
      if s == [] || s[|s| - 1].tag.Else? then None
      else
        var r := Unwind(s);
        if r == [] then None
        else
          var top := r[|r| - 1];
          if !top.enabled then Some(r + [CondDirective(Elif, false, false)])
          else if v.Bad? then None
          else Some(r + [CondDirective(Elif, true, v.True? && !top.cond)])
    case ElseLine =>
      if s == [] || s[|s| - 1].tag.Else? then None
      else
        var r := Unwind(s);
        if r == [] then None
        else Some(r + [CondDirective(Else, r[|r| - 1].enabled, !r[|r| - 1].cond)])
    case EndifLine => Close(s)
  }

  // ---------- the preprocessor as it runs ----------

  class Preprocessor {
    var ppCondStack: Stack
    var out: seq<int>          // the text that is kept

    constructor ()
      ensures ppCondStack == [] && out == []
    {
      ppCondStack, out := [], [];
    }

    predicate Needed()
      reads this
    {
      NeedExpand(ppCondStack)
    }

    method Push(e: CondDirective)
      modifies this`ppCondStack
      ensures ppCondStack == old(ppCondStack) + [e]
    {
      ppCondStack := ppCondStack + [e];
    }

    method Pop() returns (e: CondDirective)
      requires ppCondStack != []
      modifies this`ppCondStack
      ensures ppCondStack + [e] == old(ppCondStack)
    {
      e := ppCondStack[|ppCondStack| - 1];
      ppCondStack := ppCondStack[..|ppCondStack| - 1];
    }

    /** `false` stands for an error. */
    method ParseIf(v: Value) returns (ok: bool)
      modifies this`ppCondStack
      ensures Did(IfLine(v), ok)
    {
      if !Needed() {
        Push(CondDirective(If, false, false));
        return true;
      }
      if v.Bad? { return false; }
      Push(CondDirective(If, Needed(), v.True?));
      return true;
    }

    method ParseIfdef(defined: bool) returns (ok: bool)
      modifies this`ppCondStack
      ensures Did(IfdefLine(defined), ok)
    {
      if !Needed() {
        Push(CondDirective(Ifdef, false, false));
        return true;
      }
      Push(CondDirective(Ifdef, Needed(), defined));
      return true;
    }

    method ParseIfndef(defined: bool) returns (ok: bool)
      modifies this`ppCondStack
      ensures Did(IfndefLine(defined), ok)
    {
      ghost var s := ppCondStack;
      ok := ParseIfdef(defined);
      assert ppCondStack[..|s|] == s;
      var top := Pop();
      assert ppCondStack == s;
      Push(CondDirective(Ifndef, top.enabled, !top.cond));
    }

    method UnwindStack()
      modifies this`ppCondStack
      ensures ppCondStack == Unwind(old(ppCondStack))
    {
      while ppCondStack != []
        invariant Unwind(ppCondStack) == Unwind(old(ppCondStack))
        decreases |ppCondStack|
      {
        var top := ppCondStack[|ppCondStack| - 1];
        if Opens(top) || top.cond { break; }
        var _ := Pop();
      }
    }

    method ParseElif(v: Value) returns (ok: bool)
      modifies this`ppCondStack
      ensures Did(ElifLine(v), ok)
    {
      if ppCondStack == [] { return false; }
      if ppCondStack[|ppCondStack| - 1].tag.Else? { return false; }
      UnwindStack();
      if ppCondStack == [] { return false; }
      var top := ppCondStack[|ppCondStack| - 1];
      if !top.enabled {
        Push(CondDirective(Elif, false, false));
        return true;
      }
      if v.Bad? { return false; }
      var cond := v.True? && !top.cond;
      Push(CondDirective(Elif, true, cond));
      return true;
    }

    method ParseElse() returns (ok: bool)
      modifies this`ppCondStack
      ensures Did(ElseLine, ok)
    {
      if ppCondStack == [] { return false; }
      if ppCondStack[|ppCondStack| - 1].tag.Else? { return false; }
      UnwindStack();
      if ppCondStack == [] { return false; }
      var top := ppCondStack[|ppCondStack| - 1];
      Push(CondDirective(Else, top.enabled, !top.cond));
      return true;
    }

    method ParseEndif() returns (ok: bool)
      modifies this`ppCondStack
      ensures Did(EndifLine, ok)
    {
      while ppCondStack != []
        invariant Close(ppCondStack) == Close(old(ppCondStack))
        decreases |ppCondStack|
      {
        var top := Pop();
        if Opens(top) { return true; }
      }
      return false;
    }

    twostate predicate Did(line: Line, ok: bool)
      reads this
    {
      match Step(old(ppCondStack), line)
      case None => !ok
      case Some(s) => ok && ppCondStack == s
    }

    /** A whole file: the text lines that are kept, or an error. */
    method Process(lines: seq<Line>) returns (ok: bool)
      modifies this
      ensures match Run(old(ppCondStack), lines)
              case Error => !ok
              case Done(s, kept) => ok && ppCondStack == s && out == old(out) + kept
    {
      for i := 0 to |lines|
        invariant match Run(old(ppCondStack), lines[..i])
                  case Error => false
                  case Done(s, kept) => ppCondStack == s && out == old(out) + kept
      {
        RunNext(old(ppCondStack), lines, i);
        match lines[i] {
          case Text(id) =>
            if Needed() { out := out + [id]; }
            ok := true;
          case IfLine(v) => ok := ParseIf(v);
          case IfdefLine(d) => ok := ParseIfdef(d);
          case IfndefLine(d) => ok := ParseIfndef(d);
          case ElifLine(v) => ok := ParseElif(v);
          case ElseLine => ok := ParseElse();
          case EndifLine => ok := ParseEndif();
        }
        if !ok {
          RunPrefix(old(ppCondStack), lines, i + 1);
          return;
        }
      }
      assert lines[..|lines|] == lines;
      return true;
    }
  }

  datatype Outcome = Error | Done(stack: Stack, kept: seq<int>)

  function Run(s: Stack, lines: seq<Line>): Outcome
    decreases |lines|
  {
    if lines == [] then Done(s, [])
    else
      match Step(s, lines[0])
      case None => Error
      case Some(s') =>
        match Run(s', lines[1..])
        case Error => Error
        case Done(s'', kept) => Done(s'', (if lines[0].Text? && NeedExpand(s) then [lines[0].id] else []) + kept)
  }

  /** Two runs one after the other. */
  function Both(a: Outcome, b: Outcome): Outcome {
    if a.Error? || b.Error? then Error else Done(b.stack, a.kept + b.kept)
  }

  lemma {:induction false} RunAppend(s: Stack, a: seq<Line>, b: seq<Line>)
    ensures match Run(s, a)
            case Error => Run(s, a + b) == Error
            case Done(s', kept) => Run(s, a + b) == Both(Run(s, a), Run(s', b))
    decreases |a|
  {
    if a == [] {
      assert a + b == b;
    } else {
      assert (a + b)[1..] == a[1..] + b;
      if Step(s, a[0]).Some? { RunAppend(Step(s, a[0]).value, a[1..], b); }
    }
  }

  lemma RunNext(s: Stack, lines: seq<Line>, i: nat)
    requires i < |lines| && Run(s, lines[..i]).Done?
    ensures var r := Run(s, lines[..i]);
            match Step(r.stack, lines[i])
            case None => Run(s, lines[..i + 1]) == Error
            case Some(s') =>
              Run(s, lines[..i + 1])
              == Done(s', r.kept + if lines[i].Text? && NeedExpand(r.stack) then [lines[i].id] else [])
  {
    RunAppend(s, lines[..i], [lines[i]]);
    assert lines[..i + 1] == lines[..i] + [lines[i]];
    assert [lines[i]][1..] == [];
  }

  lemma RunPrefix(s: Stack, lines: seq<Line>, i: nat)
    requires i <= |lines| && Run(s, lines[..i]).Error?
    ensures Run(s, lines).Error?
  {
    RunAppend(s, lines[..i], lines[i..]);
    assert lines == lines[..i] + lines[i..];
  }

  // ---------- nested groups ----------

  datatype Opening = OpenIf(v: Value) | OpenIfdef(defined: bool) | OpenIfndef(defined: bool)

  /** Well-nested text: lines, and conditionals with their groups. */
  datatype Part = TextPart(id: int) | Group(open: Opening, body: seq<Part>, tail: Tail)

  /** What follows the first group of a conditional. */
  datatype Tail = NoMore | ElsePart(els: seq<Part>) | ElifPart(v: Value, body: seq<Part>, more: Tail)

  function OpenLine(o: Opening): Line {
    match o
    case OpenIf(v) => IfLine(v)
    case OpenIfdef(d) => IfdefLine(d)
    case OpenIfndef(d) => IfndefLine(d)
  }

  function ValueOf(o: Opening): Value {
    match o
    case OpenIf(v) => v
    case OpenIfdef(d) => if d then True else False
    case OpenIfndef(d) => if d then False else True
  }

  function Lines(parts: seq<Part>): seq<Line>
    decreases parts
  {
    if parts == [] then []
    else
      (match parts[0]
       case TextPart(id) => [Text(id)]
       case Group(o, body, tail) => [OpenLine(o)] + (Lines(body) + TailLines(tail)))
      + Lines(parts[1..])
  }

  function TailLines(tail: Tail): seq<Line>
    decreases tail
  {
    match tail
    case NoMore => [EndifLine]
    case ElsePart(els) => [ElseLine] + (Lines(els) + [EndifLine])
    case ElifPart(v, body, more) => [ElifLine(v)] + (Lines(body) + TailLines(more))
  }

  /** What section 6.10.1 of C11 keeps: of each conditional the first group whose condition is true, and
      conditions behind it are not looked at. `None` stands for a bad condition. */
  function Denote(parts: seq<Part>, on: bool): Option<seq<int>>
    decreases parts
  {
    if parts == [] || !on then Some([])
    else
      var first := match parts[0]
        case TextPart(id) => Some([id])
        case Group(o, body, tail) =>
          (match ValueOf(o)
           case Bad => None
           case True => Denote(body, true)
           case False => DenoteTail(tail));
      Joined(first, Denote(parts[1..], on))
  }

  function DenoteTail(tail: Tail): Option<seq<int>>
    decreases tail
  {
    match tail
    case NoMore => Some([])
    case ElsePart(els) => Denote(els, true)
    case ElifPart(v, body, more) =>
      match v
      case Bad => None
      case True => Denote(body, true)
      case False => DenoteTail(more)
  }

  function Joined(a: Option<seq<int>>, b: Option<seq<int>>): Option<seq<int>> {
    if a.None? || b.None? then None else Some(a.value + b.value)
  }

  /** A bad condition of `#elif` behind a group that is included: C does not look at it, the stack does. */
  predicate BadBehind(parts: seq<Part>, on: bool)
    decreases parts
  {
    parts != [] && on
    && (BadBehind(parts[1..], on)
        || match parts[0]
           case TextPart(_) => false
           case Group(o, body, tail) =>
             match ValueOf(o)
             case Bad => false
             case True => AnyBad(tail) || BadBehind(body, true)
             case False => BadTail(tail))
  }

  predicate BadTail(tail: Tail)
    decreases tail
  {
    match tail
    case NoMore => false
    case ElsePart(els) => BadBehind(els, true)
    case ElifPart(v, body, more) =>
      match v
      case Bad => false
      case True => AnyBad(more) || BadBehind(body, true)
      case False => BadTail(more)
  }

  predicate AnyBad(tail: Tail) {
    tail.ElifPart? && (tail.v.Bad? || AnyBad(tail.more))
  }

  /** What the stack does with well-nested text: C's choice, unless a condition behind an included group is bad. */
  function Expected(s: Stack, parts: seq<Part>): Outcome {
    var on := NeedExpand(s);
    if Denote(parts, on).None? || BadBehind(parts, on) then Error else Done(s, Denote(parts, on).value)
  }

  // ---------- the entries of one conditional ----------

  /** On top of `s` lie the entries of one conditional; `taken` tells whether one of its groups is included. */
  ghost predicate InGroup(s: Stack, r: Stack, on: bool, taken: bool) {
    && |s| < |r| && r[..|s|] == s && Opens(r[|s|])
    && (forall i :: |s| <= i < |r| ==> r[i].enabled == on)
    && (forall i :: |s| < i < |r| ==> r[i].tag.Elif?)
    && (on ==> (taken <==> exists i :: |s| <= i < |r| && r[i].cond))
  }

  lemma {:induction false} UnwindGroup(s: Stack, r: Stack, on: bool, taken: bool)
    requires InGroup(s, r, on, taken)
    ensures var u := Unwind(r);
            InGroup(s, u, on, taken) && u[|u| - 1].enabled == on && (on ==> u[|u| - 1].cond == taken)
    decreases |r|
  {
    var top := r[|r| - 1];
    if !Opens(top) && !top.cond {
      var r' := r[..|r| - 1];
      assert forall i :: |s| <= i < |r'| ==> r'[i] == r[i];
      assert r'[..|s|] == s;
      UnwindGroup(s, r', on, taken);
    }
  }

  lemma {:induction false} CloseGroup(s: Stack, r: Stack)
    requires |s| < |r| && r[..|s|] == s && Opens(r[|s|]) && forall i :: |s| < i < |r| ==> !Opens(r[i])
    ensures Close(r) == Some(s)
    decreases |r|
  {
    if |r| > |s| + 1 {
      assert r[..|r| - 1][..|s|] == s;
      CloseGroup(s, r[..|r| - 1]);
    }
  }

  lemma OpenGroup(s: Stack, o: Opening)
    requires !(NeedExpand(s) && ValueOf(o).Bad?)
    ensures var on := NeedExpand(s);
            var r := Step(s, OpenLine(o));
            r.Some? && InGroup(s, r.value, on, ValueOf(o).True?) && NeedExpand(r.value) == (on && ValueOf(o).True?)
  {
    var r := Step(s, OpenLine(o)).value;
    assert r[..|s|] == s;
  }

  lemma ElifGroup(s: Stack, r: Stack, on: bool, taken: bool, v: Value)
    requires InGroup(s, r, on, taken) && !(on && v.Bad?)
    ensures var r' := Step(r, ElifLine(v));
            && r'.Some? && InGroup(s, r'.value, on, taken || v.True?)
            && NeedExpand(r'.value) == (on && v.True? && !taken)
  {
    UnwindGroup(s, r, on, taken);
    var u, r' := Unwind(r), Step(r, ElifLine(v)).value;
    assert r'[..|s|] == s;
    assert forall i :: |s| <= i < |u| ==> r'[i] == u[i];
    assert r'[|u|] == r'[|r'| - 1];
  }

  lemma ElseGroup(s: Stack, r: Stack, on: bool, taken: bool)
    requires InGroup(s, r, on, taken)
    ensures var r' := Step(r, ElseLine);
            && r'.Some? && Close(r'.value) == Some(s) && NeedExpand(r'.value) == (on && !taken)
  {
    UnwindGroup(s, r, on, taken);
    var u, r' := Unwind(r), Step(r, ElseLine).value;
    assert r'[..|s|] == s;
    assert forall i :: |s| <= i < |u| ==> r'[i] == u[i];
    CloseGroup(s, r');
  }

  // ---------- the main result ----------

  /** What the rest of a conditional adds. */
  function ExpectedTail(s: Stack, on: bool, taken: bool, tail: Tail): Outcome {
    if !on then Done(s, [])
    else if taken then (if AnyBad(tail) then Error else Done(s, []))
    else if DenoteTail(tail).None? || BadTail(tail) then Error
    else Done(s, DenoteTail(tail).value)
  }

  lemma {:induction false} RunFirst(s: Stack, line: Line, rest: seq<Line>)
    requires !line.Text?
    ensures Run(s, [line] + rest) == match Step(s, line) case None => Error case Some(s') => Run(s', rest)
  {
    assert ([line] + rest)[1..] == rest;
  }

  lemma {:induction false} RunThen(s: Stack, a: seq<Line>, b: seq<Line>)
    ensures Run(s, a + b) == match Run(s, a) case Error => Error case Done(s', kept) => Both(Run(s, a), Run(s', b))
  {
    RunAppend(s, a, b);
  }

  lemma {:induction false} TailRun(s: Stack, r: Stack, on: bool, taken: bool, tail: Tail)
    requires InGroup(s, r, on, taken)
    ensures Run(r, TailLines(tail)) == ExpectedTail(s, on, taken, tail)
    decreases tail, 0
  {
    hide Run, InGroup, Step;
    match tail
    case NoMore =>
      GroupCloses(s, r, on, taken);
      EndifRun(s, r);
    case ElsePart(els) =>
      RunFirst(r, ElseLine, Lines(els) + [EndifLine]);
      ElseGroup(s, r, on, taken);
      var r' := Step(r, ElseLine).value;
      RunThen(r', Lines(els), [EndifLine]);
      NestedRun(r', els);
      EndifRun(s, r');
    case ElifPart(v, body, more) =>
      RunFirst(r, ElifLine(v), Lines(body) + TailLines(more));
      if on && v.Bad? {
        BadElif(s, r, on, taken, v);
      } else {
        ElifGroup(s, r, on, taken, v);
        var r' := Step(r, ElifLine(v)).value;
        RunThen(r', Lines(body), TailLines(more));
        NestedRun(r', body);
        TailRun(s, r', on, taken || v.True?, more);
      }
  }

  lemma BadElif(s: Stack, r: Stack, on: bool, taken: bool, v: Value)
    requires InGroup(s, r, on, taken) && on && v.Bad?
    ensures Step(r, ElifLine(v)) == None
  {
    UnwindGroup(s, r, on, taken);
  }

  lemma GroupCloses(s: Stack, r: Stack, on: bool, taken: bool)
    requires InGroup(s, r, on, taken)
    ensures Close(r) == Some(s)
  {
    CloseGroup(s, r);
  }

  lemma EndifRun(s: Stack, r: Stack)
    requires Close(r) == Some(s)
    ensures Run(r, [EndifLine]) == Done(s, [])
  {
    assert [EndifLine][1..] == [];
  }

  /** On well-nested text the stack keeps exactly the lines all of whose enclosing conditionals are in their first
      true group, and afterwards it is what it was before. */
  lemma {:induction false} NestedRun(s: Stack, parts: seq<Part>)
    ensures Run(s, Lines(parts)) == Expected(s, parts)
    decreases parts, 1
  {
    hide Run;
    if parts == [] {
      NoLines(s);
    } else {
      var head := if parts[0].TextPart? then [Text(parts[0].id)]
                  else [OpenLine(parts[0].open)] + (Lines(parts[0].body) + TailLines(parts[0].tail));
      assert Lines(parts) == head + Lines(parts[1..]);
      RunThen(s, head, Lines(parts[1..]));
      NestedRun(s, parts[1..]);
      if parts[0].TextPart? {
        TextRun(s, parts[0].id);
      } else {
        GroupRun(s, parts);
      }
    }
  }

  lemma NoLines(s: Stack)
    ensures Run(s, []) == Done(s, [])
  {
  }

  lemma TextRun(s: Stack, id: int)
    ensures Run(s, [Text(id)]) == Done(s, if NeedExpand(s) then [id] else [])
  {
    assert [Text(id)][1..] == [];
  }

  /** One conditional. */
  lemma GroupRun(s: Stack, parts: seq<Part>)
    requires parts != [] && parts[0].Group?
    ensures var o, body, tail := parts[0].open, parts[0].body, parts[0].tail;
            var on, v := NeedExpand(s), ValueOf(parts[0].open);
            Run(s, [OpenLine(o)] + (Lines(body) + TailLines(tail)))
            == if !on then Done(s, [])
               else if v.Bad? then Error
               else if v.True? then
                 (if Denote(body, true).None? || BadBehind(body, true) || AnyBad(tail) then Error
                  else Done(s, Denote(body, true).value))
               else ExpectedTail(s, true, false, tail)
    decreases parts, 0
  {
    hide Run, InGroup;
    var o, body, tail := parts[0].open, parts[0].body, parts[0].tail;
    var on, v := NeedExpand(s), ValueOf(parts[0].open);
    RunFirst(s, OpenLine(o), Lines(body) + TailLines(tail));
    if !(on && v.Bad?) {
      OpenGroup(s, o);
      hide Step;
      var r := Step(s, OpenLine(o)).value;
      RunThen(r, Lines(body), TailLines(tail));
      NestedRun(r, body);
      TailRun(s, r, on, v.True?, tail);
    }
  }

  /** The stack agrees with C exactly when no condition behind an included group is bad, or C finds an error too. */
  lemma AgreesWithCIff(s: Stack, parts: seq<Part>)
    ensures var on := NeedExpand(s);
            var c := Denote(parts, on);
            Run(s, Lines(parts)) == (if c.None? then Error else Done(s, c.value)) <==>
                (c.None? || !BadBehind(parts, on))
  {
    NestedRun(s, parts);
  }

  /** `#if 1`, `#elif` with a bad condition, `#endif`: accepted by C, an error here. */
  lemma BadBehindStops(id: int)
    ensures var parts := [Group(OpenIf(True), [TextPart(id)], ElifPart(Bad, [], NoMore))];
            Denote(parts, true) == Some([id]) && Run([], Lines(parts)) == Error
  {
    var parts := [Group(OpenIf(True), [TextPart(id)], ElifPart(Bad, [], NoMore))];
    assert parts[1..] == [] && [TextPart(id)][1..] == [];
    var text := [TextPart(id)];
    assert [id] + [] == [id];
    assert Denote(text, true) == Joined(Some([id]), Denote(text[1..], true));
    assert Denote(parts, true) == Joined(Denote(text, true), Denote(parts[1..], true));
    NestedRun([], parts);
  }
}
