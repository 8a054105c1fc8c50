/** Which lines close every conditional that they open: well-nested text and nothing else. */
module NestedText {
  import opened Options
  import opened Conditionals

  /** The lines do not stop the preprocessor, and every conditional is closed at the end. */
  predicate Closes(s: Stack, lines: seq<Line>) {
    var r := Run(s, lines);
    r.Done? && r.stack == []
  }

  predicate OpensLine(line: Line) {
    line.IfLine? || line.IfdefLine? || line.IfndefLine?
  }

  predicate ContinuesLine(line: Line) {
    line.ElifLine? || line.ElseLine? || line.EndifLine?
  }

  /** On top of `s` lie the entries of one conditional. */
  predicate OnTop(s: Stack, r: Stack) {
    && |s| < |r| && r[..|s|] == s && Opens(r[|s|])
    && forall i :: |s| < i < |r| ==> !Opens(r[i])
  }

  lemma Goes(s: Stack, lines: seq<Line>)
    requires Closes(s, lines) && lines != []
    ensures Step(s, lines[0]).Some? && Closes(Step(s, lines[0]).value, lines[1..])
  {
  }

  lemma OpeningGoes(s: Stack, line: Line) returns (o: Opening)
    requires OpensLine(line) && Step(s, line).Some?
    ensures OpenLine(o) == line && OnTop(s, Step(s, line).value)
  {
    o := match line
      case IfLine(v) => OpenIf(v)
      case IfdefLine(d) => OpenIfdef(d)
      case IfndefLine(d) => OpenIfndef(d)
      case _ => OpenIfdef(true);
    assert Step(s, line).value[..|s|] == s;
  }

  lemma {:induction false} UnwindOnTop(s: Stack, r: Stack)
    requires OnTop(s, r)
    ensures OnTop(s, Unwind(r))
    decreases |r|
  {
    if |r| > |s| + 1 && !r[|r| - 1].cond {
      assert r[..|r| - 1][..|s|] == s;
      UnwindOnTop(s, r[..|r| - 1]);
    }
  }

  /** `#elif` and `#else` put an entry on those of the same conditional, and never behind `#else`. */
  lemma ContinuesGoes(s: Stack, r: Stack, line: Line)
    requires OnTop(s, r) && Step(r, line).Some?
    ensures line.EndifLine? ==> Step(r, line) == Some(s)
    ensures line.ElifLine? || line.ElseLine? ==>
              var r' := Step(r, line).value;
              OnTop(s, r') && !r[|r| - 1].tag.Else? && (line.ElseLine? ==> r'[|r'| - 1].tag.Else?)
  {
    if line.EndifLine? {
      CloseGroup(s, r);
    }
    if line.ElifLine? || line.ElseLine? {
      UnwindOnTop(s, r);
      var u, r' := Unwind(r), Step(r, line).value;
      assert r'[..|u|] == u && r'[..|s|] == u[..|s|];
    }
  }

  /** The well-nested lines in front, up to a line that belongs to an enclosing conditional. */
  lemma {:induction false} Front(s: Stack, lines: seq<Line>) returns (parts: seq<Part>, rest: seq<Line>)
    requires Closes(s, lines)
    ensures lines == Lines(parts) + rest && Closes(s, rest)
    ensures rest != [] ==> ContinuesLine(rest[0])
    decreases |lines|, 0
  {
    hide Closes, OnTop, Step;
    parts, rest := [], lines;
    if lines != [] && !ContinuesLine(lines[0]) {
      Goes(s, lines);
      if lines[0].Text? {
        TextGoes(s, lines[0]);
        parts, rest := Front(s, lines[1..]);
        TextFirst(lines[0].id, parts);
        parts := [TextPart(lines[0].id)] + parts;
        assert lines == [lines[0]] + lines[1..];
      } else {
        var o := OpeningGoes(s, lines[0]);
        var body, tail, behind := Conditional(s, Step(s, lines[0]).value, lines[1..]);
        parts, rest := Front(s, behind);
        GroupFirst(o, body, tail, parts);
        parts := [Group(o, body, tail)] + parts;
        assert lines == [lines[0]] + lines[1..];
      }
    }
  }

  lemma TextGoes(s: Stack, line: Line)
    requires line.Text?
    ensures Step(s, line) == Some(s)
  {
  }

  lemma TextFirst(id: int, parts: seq<Part>)
    ensures Lines([TextPart(id)] + parts) == [Text(id)] + Lines(parts)
  {
    assert ([TextPart(id)] + parts)[1..] == parts;
  }

  lemma GroupFirst(o: Opening, body: seq<Part>, tail: Tail, parts: seq<Part>)
    ensures Lines([Group(o, body, tail)] + parts) == [OpenLine(o)] + (Lines(body) + TailLines(tail)) + Lines(parts)
  {
    assert ([Group(o, body, tail)] + parts)[1..] == parts;
  }

  /** The rest of a conditional, behind one of its opening lines, `#elif` lines or `#else`. */
  lemma {:induction false} Conditional(s: Stack, r: Stack, lines: seq<Line>)
    returns (body: seq<Part>, tail: Tail, rest: seq<Line>)
    requires OnTop(s, r) && Closes(r, lines)
    ensures lines == Lines(body) + TailLines(tail) + rest && Closes(s, rest)
    ensures r[|r| - 1].tag.Else? ==> tail.NoMore?
    decreases |lines|, 1
  {
    hide Closes, Step, Lines, OnTop;
    StaysOpen(s, r);
    var behind;
    body, behind := Front(r, lines);
    Goes(r, behind);
    ContinuesGoes(s, r, behind[0]);
    var r' := Step(r, behind[0]).value;
    tail, rest := NoMore, behind[1..];
    if !behind[0].EndifLine? {
      ContinuesOpen(s, r');
      var body', tail';
      body', tail', rest := Conditional(s, r', behind[1..]);
      tail := if behind[0].ElseLine? then ElsePart(body') else ElifPart(behind[0].v, body', tail');
    }
    assert behind == [behind[0]] + behind[1..];
  }

  lemma StaysOpen(s: Stack, r: Stack)
    requires OnTop(s, r)
    ensures !Closes(r, [])
  {
  }

  lemma ContinuesOpen(s: Stack, r: Stack)
    requires OnTop(s, r)
    ensures r != []
  {
  }

  /** From the empty stack, lines are accepted and close all that they open exactly if they are those of a well-nested
      text in which C finds no error and no condition behind an included group is bad; the text kept is C's. In
      particular a second `#else`, an `#elif` behind `#else`, and a line that continues nothing, are refused. */
  lemma ClosesIff(lines: seq<Line>, kept: seq<int>)
    ensures Run([], lines) == Done([], kept) <==>
              exists parts: seq<Part> ::
                lines == Lines(parts) && !BadBehind(parts, true) && Denote(parts, true) == Some(kept)
  {
    hide Run, Denote, BadBehind, Lines;
    if Run([], lines) == Done([], kept) {
      var parts, rest := Front([], lines);
      if rest != [] {
        Goes([], rest);
        assert false;
      }
      assert lines == Lines(parts);
      NestedRun([], parts);
    }
    if parts: seq<Part> :| lines == Lines(parts) && !BadBehind(parts, true) && Denote(parts, true) == Some(kept) {
      NestedRun([], parts);
    }
  }
}
