/** Exactly which token sequences the expression parser accepts: those that begin with a written expression, any
    parentheses included. */
module ExprExact {
  import opened Options
  import opened ExprGrammar
  import opened TokenSequenceClass
  import EP = ExprParserClass

  // ---------- nothing is left that could go on ----------

  lemma {:induction false} PostfixStops(e: Ast, t: seq<Tok>)
    requires PostfixTail(e, t).Ok?
    ensures OpLevel(PostfixTail(e, t).rest) < POSTFIX
    decreases |t|
  {
    hide Parse, ParseArgs;
    if t != [] {
      match t[0]
      case LBracket =>
        var i := Parse(COMMA, t[1..]);
        PostfixStops(Unary(Deref, Binary(Add, e, i.e)), i.rest[1..]);
      case LParen =>
        var a := ParseArgs(t[1..]);
        PostfixStops(FuncCall(e, a.args), a.rest);
      case Arrow => PostfixStops(Member(Unary(Deref, e), t[1].name), t[2..]);
      case Dot => PostfixStops(Member(e, t[1].name), t[2..]);
      case Inc => PostfixStops(Unary(PostInc, e), t[1..]);
      case Dec => PostfixStops(Unary(PostDec, e), t[1..]);
      case _ =>
    }
  }

  lemma {:induction false} LoopStops(l: nat, e: Ast, t: seq<Tok>)
    requires BinaryLevel(l) && OpLevel(t) <= l && Loop(l, e, t).Ok?
    ensures OpLevel(Loop(l, e, t).rest) < l
    decreases |t|, 0
  {
    hide Parse;
    if t != [] && t[0].B? && BinLevel(t[0].op) == l {
      ParseStops(l + 1, t[1..]);
      var r := Parse(l + 1, t[1..]);
      LoopStops(l, Binary(t[0].op, e, r.e), r.rest);
    }
  }

  lemma AssignStops(e: Ast, t: seq<Tok>)
    requires OpLevel(t) <= ASSIGN && AssignTail(e, t).Ok?
    ensures OpLevel(AssignTail(e, t).rest) < ASSIGN
    decreases |t|, 0
  {
    hide Parse;
    if t != [] && (t[0] == Assign || (t[0].A? && Compound(t[0].op))) { ParseStops(ASSIGN, t[1..]); }
  }

  lemma ConditionalStops(e: Ast, t: seq<Tok>)
    requires OpLevel(t) <= CONDITIONAL && ConditionalTail(e, t).Ok?
    ensures OpLevel(ConditionalTail(e, t).rest) < CONDITIONAL
    decreases |t|, 0
  {
    hide Parse;
    if Starts(t, Question) {
      var x := if Starts(t[1..], Colon) then Ok(e, t[1..]) else Parse(COMMA, t[1..]);
      ParseStops(CONDITIONAL, x.rest[1..]);
    }
  }

  lemma {:induction false} ParseStops(l: nat, t: seq<Tok>)
    requires l <= POSTFIX && Parse(l, t).Ok?
    ensures OpLevel(Parse(l, t).rest) < l
    decreases |t|, Depth(l)
  {
    hide Loop, AssignTail, ConditionalTail, PostfixTail, ParsePrimary;
    if l == UNARY && IsPrefix(t) {
      ParseStops(UNARY, t[1..]);
    } else {
      var r := Parse(l + 1, t);
      if l == POSTFIX {
        PostfixStops(r.e, r.rest);
      } else {
        ParseStops(l + 1, t);
        if BinaryLevel(l) {
          LoopStops(l, r.e, r.rest);
        } else if l == ASSIGN {
          AssignStops(r.e, r.rest);
        } else if l == CONDITIONAL {
          ConditionalStops(r.e, r.rest);
        } else {
          NoUnaryLevel(r.rest);
        }
      }
    }
  }

  lemma NoUnaryLevel(t: seq<Tok>)
    ensures OpLevel(t) != UNARY
  {
  }

  // ---------- what was read was written ----------

  /** The tokens are those of the expression and the ones behind it. */
  ghost predicate WrittenAs(x: Expr, l: nat, t: seq<Tok>, r: Result) {
    r.Ok? && Proper(x) && Desugar(x) == r.e && LevelOf(x) >= l && t == Bare(x) + r.rest
  }

  lemma {:induction false} ParseSound(l: nat, t: seq<Tok>) returns (x: Expr)
    requires l <= PRIMARY && Parse(l, t).Ok?
    ensures WrittenAs(x, l, t, Parse(l, t))
    decreases |t|, Depth(l), 0
  {
    hide Continue, ParsePrimary, Bare, Desugar;
    if l == PRIMARY {
      x := PrimarySound(t);
    } else if l == UNARY && IsPrefix(t) {
      var y := ParseSound(UNARY, t[1..]);
      x := EPrefix(PrefixOf(t), y);
      PrefixWritten(t, y, Parse(UNARY, t[1..]));
    } else {
      var y := ParseSound(l + 1, t);
      x := ContinueSound(l, y, Parse(l + 1, t).rest);
    }
  }

  lemma PrefixWritten(t: seq<Tok>, y: Expr, r: Result)
    requires IsPrefix(t) && WrittenAs(y, UNARY, t[1..], r)
    ensures WrittenAs(EPrefix(PrefixOf(t), y), UNARY, t, Ok(Unary(PrefixOf(t), r.e), r.rest))
  {
    hide Bare, Print;
    HeadTail(t);
    PrintBare(y, UNARY);
    PrefixBare(PrefixOf(t), y, r.rest);
  }

  lemma PrimarySound(t: seq<Tok>) returns (x: Expr)
    requires ParsePrimary(t).Ok?
    ensures WrittenAs(x, PRIMARY, t, ParsePrimary(t))
    decreases |t|, 0
  {
    hide Parse;
    assert t == [t[0]] + t[1..];
    match t[0]
    case LParen =>
      var r := Parse(COMMA, t[1..]);
      var y := ParseSound(COMMA, t[1..]);
      x := EParen(y);
      ParenWritten(t, y, r);
    case Ident(name) => x := EName(name);
    case Number(v) => x := ENumber(v);
  }

  lemma ParenBare(y: Expr, rest: seq<Tok>)
    ensures Bare(EParen(y)) + rest == [LParen] + (Print(y, COMMA) + ([RParen] + rest))
  {
    hide Print;
  }

  lemma ParenWritten(t: seq<Tok>, y: Expr, r: Result)
    requires Starts(t, LParen) && WrittenAs(y, COMMA, t[1..], r) && Starts(r.rest, RParen)
    ensures WrittenAs(EParen(y), PRIMARY, t, Ok(r.e, r.rest[1..]))
  {
    hide Bare, Print;
    HeadTail(t);
    HeadTail(r.rest);
    PrintBare(y, COMMA);
    ParenBare(y, r.rest[1..]);
  }

  /** Going on behind an operand. */
  ghost predicate GoneOn(y: Expr, x: Expr, l: nat, t: seq<Tok>, r: Result) {
    r.Ok? && Proper(x) && Desugar(x) == r.e && LevelOf(x) >= l && Bare(y) + t == Bare(x) + r.rest
  }

  lemma ContinueSound(l: nat, y: Expr, t: seq<Tok>) returns (x: Expr)
    requires l < PRIMARY && Proper(y) && LevelOf(y) >= l + 1 && Continue(l, Desugar(y), t).Ok?
    ensures GoneOn(y, x, l, t, Continue(l, Desugar(y), t))
    decreases |t|, Depth(l), 1
  {
    hide Loop, AssignTail, ConditionalTail, PostfixTail, Bare, Desugar;
    if BinaryLevel(l) {
      x := LoopSound(l, y, t);
    } else if l == ASSIGN {
      x := AssignSound(y, t);
    } else if l == CONDITIONAL {
      x := ConditionalSound(y, t);
    } else if l == POSTFIX {
      x := PostfixSound(y, t);
    } else {
      x := y;
    }
  }

  lemma {:induction false} LoopSound(l: nat, y: Expr, t: seq<Tok>) returns (x: Expr)
    requires BinaryLevel(l) && Proper(y) && LevelOf(y) >= l && Loop(l, Desugar(y), t).Ok?
    ensures GoneOn(y, x, l, t, Loop(l, Desugar(y), t))
    decreases |t|, 0
  {
    hide Parse, Bare, Desugar;
    x := y;
    if t != [] && t[0].B? && BinLevel(t[0].op) == l {
      var op, r := t[0].op, Parse(l + 1, t[1..]);
      var z := ParseSound(l + 1, t[1..]);
      BinaryWritten(op, y, z, t, r);
      x := LoopSound(l, EBinary(op, y, z), r.rest);
    }
  }

  lemma BinaryWritten(op: BinOp, y: Expr, z: Expr, t: seq<Tok>, r: Result)
    requires Starts(t, B(op)) && LevelOf(y) >= BinLevel(op) && WrittenAs(z, BinLevel(op) + 1, t[1..], r)
    ensures Desugar(EBinary(op, y, z)) == Binary(op, Desugar(y), r.e)
    ensures Bare(y) + t == Bare(EBinary(op, y, z)) + r.rest
  {
    hide Bare, Print, LevelOf, Proper, BinLevel;
    PrintBare(y, BinLevel(op));
    PrintBare(z, BinLevel(op) + 1);
    BinaryBare(op, y, z, r.rest);
    HeadTail(t);
  }

  lemma AssignSound(y: Expr, t: seq<Tok>) returns (x: Expr)
    requires Proper(y) && LevelOf(y) >= CONDITIONAL && AssignTail(Desugar(y), t).Ok?
    ensures GoneOn(y, x, ASSIGN, t, AssignTail(Desugar(y), t))
    decreases |t|, 0
  {
    hide Parse, Bare, Desugar;
    x := y;
    if t != [] && (t[0] == Assign || (t[0].A? && Compound(t[0].op))) {
      var r := Parse(ASSIGN, t[1..]);
      var z := ParseSound(ASSIGN, t[1..]);
      x := if t[0] == Assign then EAssign(y, z) else ECompound(t[0].op, y, z);
      AssignWritten(x, y, z, t, r);
    }
  }

  lemma AssignWritten(x: Expr, y: Expr, z: Expr, t: seq<Tok>, r: Result)
    requires t != [] && LevelOf(y) >= CONDITIONAL && WrittenAs(z, ASSIGN, t[1..], r)
    requires (t[0] == Assign && x == EAssign(y, z)) || (t[0].A? && x == ECompound(t[0].op, y, z))
    ensures Desugar(x) == AssignTo(Desugar(y), if t[0] == Assign then r.e else Binary(t[0].op, Desugar(y), r.e))
    ensures Bare(y) + t == Bare(x) + r.rest
  {
    hide Bare, Print, LevelOf, Proper;
    PrintBare(y, CONDITIONAL);
    PrintBare(z, ASSIGN);
    AssignBare(x, y, t[0], z, r.rest);
    HeadTail(t);
  }

  lemma ConditionalSound(y: Expr, t: seq<Tok>) returns (x: Expr)
    requires Proper(y) && LevelOf(y) >= LOG_OR && ConditionalTail(Desugar(y), t).Ok?
    ensures GoneOn(y, x, CONDITIONAL, t, ConditionalTail(Desugar(y), t))
    decreases |t|, 0
  {
    hide Parse, Bare, Desugar;
    x := y;
    if Starts(t, Question) {
      if Starts(t[1..], Colon) {
        var r := Parse(CONDITIONAL, t[1..][1..]);
        var z := ParseSound(CONDITIONAL, t[1..][1..]);
        x := EElvis(y, z);
        ElvisWritten(y, z, t, r);
      } else {
        var q := Parse(COMMA, t[1..]);
        var u := ParseSound(COMMA, t[1..]);
        var r := Parse(CONDITIONAL, q.rest[1..]);
        var z := ParseSound(CONDITIONAL, q.rest[1..]);
        x := EConditional(y, u, z);
        ConditionalWritten(y, u, z, t, q, r);
      }
    }
  }

  lemma ElvisBare(y: Expr, z: Expr, rest: seq<Tok>)
    ensures Bare(EElvis(y, z)) + rest == Print(y, LOG_OR) + ([Question, Colon] + (Print(z, CONDITIONAL) + rest))
  {
    hide Print;
  }

  lemma TwoHeads(t: seq<Tok>)
    requires |t| >= 2
    ensures t == [t[0], t[1]] + t[2..] && t[1..][1..] == t[2..]
  {
  }

  lemma ElvisWritten(y: Expr, z: Expr, t: seq<Tok>, r: Result)
    requires Starts(t, Question) && Starts(t[1..], Colon)
    requires LevelOf(y) >= LOG_OR && WrittenAs(z, CONDITIONAL, t[1..][1..], r)
    ensures Desugar(EElvis(y, z)) == Conditional(Desugar(y), Desugar(y), r.e)
    ensures Bare(y) + t == Bare(EElvis(y, z)) + r.rest
  {
    hide Bare, Print, LevelOf, Proper;
    PrintBare(y, LOG_OR);
    PrintBare(z, CONDITIONAL);
    ElvisBare(y, z, r.rest);
    TwoHeads(t);
  }

  lemma ConditionalWritten(y: Expr, u: Expr, z: Expr, t: seq<Tok>, q: Result, r: Result)
    requires Starts(t, Question) && LevelOf(y) >= LOG_OR && WrittenAs(u, COMMA, t[1..], q)
    requires Starts(q.rest, Colon) && WrittenAs(z, CONDITIONAL, q.rest[1..], r)
    ensures Desugar(EConditional(y, u, z)) == Conditional(Desugar(y), q.e, r.e)
    ensures Bare(y) + t == Bare(EConditional(y, u, z)) + r.rest
  {
    hide Bare, Print, LevelOf, Proper;
    PrintBare(y, LOG_OR);
    PrintBare(u, COMMA);
    PrintBare(z, CONDITIONAL);
    ConditionalBare(y, u, z, r.rest);
    HeadTail(t);
    HeadTail(q.rest);
  }

  lemma HeadTail(t: seq<Tok>)
    requires t != []
    ensures t == [t[0]] + t[1..]
  {
  }

  lemma PrintBare(x: Expr, l: nat)
    requires LevelOf(x) >= l
    ensures Print(x, l) == Bare(x)
  {
    hide Bare, LevelOf;
  }

  lemma {:induction false} PostfixSound(y: Expr, t: seq<Tok>) returns (x: Expr)
    requires Proper(y) && LevelOf(y) >= POSTFIX && PostfixTail(Desugar(y), t).Ok?
    ensures GoneOn(y, x, POSTFIX, t, PostfixTail(Desugar(y), t))
    decreases |t|, 4
  {
    hide Parse, ParseArgs, Bare, Desugar;
    x := y;
    if t != [] {
      match t[0]
      case LBracket => x := IndexSound(y, t);
      case LParen => x := CallSound(y, t);
      case Arrow =>
        SuffixWritten(EArrow(y, t[1].name), y, t, 2);
        x := PostfixSound(EArrow(y, t[1].name), t[2..]);
      case Dot =>
        SuffixWritten(EMember(y, t[1].name), y, t, 2);
        x := PostfixSound(EMember(y, t[1].name), t[2..]);
      case Inc =>
        SuffixWritten(EPostfix(true, y), y, t, 1);
        x := PostfixSound(EPostfix(true, y), t[1..]);
      case Dec =>
        SuffixWritten(EPostfix(false, y), y, t, 1);
        x := PostfixSound(EPostfix(false, y), t[1..]);
      case _ =>
    }
  }

  lemma IndexSound(y: Expr, t: seq<Tok>) returns (x: Expr)
    requires Starts(t, LBracket) && Proper(y) && LevelOf(y) >= POSTFIX && PostfixTail(Desugar(y), t).Ok?
    ensures GoneOn(y, x, POSTFIX, t, PostfixTail(Desugar(y), t))
    decreases |t|, 3
  {
    hide Parse, ParseArgs, Bare, Desugar;
    var i := Parse(COMMA, t[1..]);
    var z := ParseSound(COMMA, t[1..]);
    IndexWritten(y, z, t, i);
    x := PostfixSound(EIndex(y, z), i.rest[1..]);
  }

  lemma CallSound(y: Expr, t: seq<Tok>) returns (x: Expr)
    requires Starts(t, LParen) && Proper(y) && LevelOf(y) >= POSTFIX && PostfixTail(Desugar(y), t).Ok?
    ensures GoneOn(y, x, POSTFIX, t, PostfixTail(Desugar(y), t))
    decreases |t|, 3
  {
    hide Parse, ParseArgs, Bare, Desugar;
    var a := ParseArgs(t[1..]);
    var zs, comma := ArgsSound(t[1..]);
    CallWritten(y, zs, comma, t, a);
    x := PostfixSound(ECall(y, zs, comma), a.rest);
  }

  lemma SuffixWritten(x: Expr, y: Expr, t: seq<Tok>, n: nat)
    requires n <= |t| && LevelOf(y) >= POSTFIX
    requires (x.EPostfix? && x.e == y && n == 1 && t[0] == if x.increment then Inc else Dec)
          || (x.EMember? && x.e == y && n == 2 && t[0] == Dot && t[1] == Ident(x.name))
          || (x.EArrow? && x.e == y && n == 2 && t[0] == Arrow && t[1] == Ident(x.name))
    ensures Desugar(x) == (if x.EPostfix? then Unary(if x.increment then PostInc else PostDec, Desugar(y))
                           else if x.EMember? then Member(Desugar(y), x.name)
                           else Member(Unary(Deref, Desugar(y)), x.name))
    ensures Bare(y) + t == Bare(x) + t[n..]
  {
    assert t == t[..n] + t[n..] && t[..n] == (if n == 1 then [t[0]] else [t[0], t[1]]);
    assert Bare(x) == Bare(y) + t[..n];
  }

  lemma IndexBare(y: Expr, z: Expr, rest: seq<Tok>)
    ensures Bare(EIndex(y, z)) + rest == Print(y, POSTFIX) + ([LBracket] + (Print(z, COMMA) + ([RBracket] + rest)))
  {
    hide Print;
  }

  lemma IndexWritten(y: Expr, z: Expr, t: seq<Tok>, r: Result)
    requires Starts(t, LBracket) && LevelOf(y) >= POSTFIX && WrittenAs(z, COMMA, t[1..], r) && Starts(r.rest, RBracket)
    ensures Desugar(EIndex(y, z)) == Unary(Deref, Binary(Add, Desugar(y), r.e))
    ensures Bare(y) + t == Bare(EIndex(y, z)) + r.rest[1..]
  {
    hide Bare, Print, LevelOf, Proper;
    PrintBare(y, POSTFIX);
    PrintBare(z, COMMA);
    IndexBare(y, z, r.rest[1..]);
    HeadTail(t);
    HeadTail(r.rest);
  }

  /** The tokens are those of the arguments, a closing parenthesis and what is behind it. */
  ghost predicate ArgsWritten(xs: seq<Expr>, comma: bool, t: seq<Tok>, r: Results) {
    && r.OkArgs? && (forall i :: 0 <= i < |xs| ==> Proper(xs[i])) && (comma ==> xs != [])
    && DesugarAll(xs) == r.args && t == PrintArgs(xs, comma) + ([RParen] + r.rest)
  }

  lemma CallWritten(y: Expr, zs: seq<Expr>, comma: bool, t: seq<Tok>, r: Results)
    requires Starts(t, LParen) && LevelOf(y) >= POSTFIX && ArgsWritten(zs, comma, t[1..], r)
    ensures Desugar(ECall(y, zs, comma)) == FuncCall(Desugar(y), r.args)
    ensures Bare(y) + t == Bare(ECall(y, zs, comma)) + r.rest
  {
    hide Bare, Print, PrintArgs, DesugarAll, LevelOf;
    HeadTail(t);
    PrintBare(y, POSTFIX);
    CallBare(y, zs, comma, r.rest);
  }

  lemma {:induction false} ArgsSound(t: seq<Tok>) returns (xs: seq<Expr>, comma: bool)
    requires ParseArgs(t).OkArgs?
    ensures ArgsWritten(xs, comma, t, ParseArgs(t))
    decreases |t|, 30
  {
    hide Parse, Bare, Desugar, PrintArgs, DesugarAll;
    xs, comma := [], false;
    if Starts(t, RParen) {
      NoneWritten(t);
    } else {
      var r := Parse(ASSIGN, t);
      var x := ParseSound(ASSIGN, t);
      if Starts(r.rest, RParen) {
        xs := [x];
        OneWritten(x, t, r);
      } else {
        var ys, c := ArgsSound(r.rest[1..]);
        xs, comma := [x] + ys, c || ys == [];
        MoreWritten(x, ys, c, t, r, ParseArgs(r.rest[1..]));
      }
    }
  }

  lemma NoneWritten(t: seq<Tok>)
    requires Starts(t, RParen)
    ensures ArgsWritten([], false, t, OkArgs([], t[1..]))
  {
    assert t == [RParen] + t[1..];
  }

  lemma OneWritten(x: Expr, t: seq<Tok>, r: Result)
    requires WrittenAs(x, ASSIGN, t, r) && Starts(r.rest, RParen)
    ensures ArgsWritten([x], false, t, OkArgs([r.e], r.rest[1..]))
  {
    assert [x][1..] == [] && r.rest == [RParen] + r.rest[1..];
    assert PrintArgs([x], false) == Bare(x);
  }

  lemma MoreWritten(x: Expr, ys: seq<Expr>, c: bool, t: seq<Tok>, r: Result, more: Results)
    requires WrittenAs(x, ASSIGN, t, r) && Starts(r.rest, B(CommaOp)) && ArgsWritten(ys, c, r.rest[1..], more)
    ensures ArgsWritten([x] + ys, c || ys == [], t, OkArgs([r.e] + more.args, more.rest))
  {
    hide Bare, Print, LevelOf, Desugar;
    var xs, comma := [x] + ys, c || ys == [];
    assert xs[1..] == ys;
    assert PrintArgs(ys, comma) == PrintArgs(ys, c);
    hide PrintArgs;
    PrintBare(x, ASSIGN);
    ArgsBare(xs, comma, [RParen] + more.rest);
    HeadTail(r.rest);
  }

  // ---------- both directions ----------

  /** The tokens begin with an expression, and what is behind it cannot go on with it. */
  ghost predicate Begins(x: Expr, rest: seq<Tok>, t: seq<Tok>) {
    Proper(x) && OpLevel(rest) < 0 && t == Print(x, COMMA) + rest
  }

  /** The parser accepts exactly what begins with an expression, however parenthesised, and gives what it stands for. */
  lemma AcceptsIff(t: seq<Tok>)
    ensures Parse(COMMA, t).Ok? <==> exists x, rest :: Begins(x, rest, t)
    ensures forall x, rest :: Begins(x, rest, t) ==> Parse(COMMA, t) == Ok(Desugar(x), rest)
  {
    hide Parse, Bare, Desugar;
    forall x, rest | Begins(x, rest, t)
      ensures Parse(COMMA, t) == Ok(Desugar(x), rest)
    {
      RoundTrip(x, rest);
    }
    if Parse(COMMA, t).Ok? {
      var x := ParseSound(COMMA, t);
      ParseStops(COMMA, t);
      assert Begins(x, Parse(COMMA, t).rest, t);
    }
  }

  /** The whole chain of methods on any tokens, with newlines anywhere between them. */
  method ParseTokens(items: seq<Item>) returns (r: Option<Ast>, ts: TokenSequence)
    requires Strip(items) != []
    ensures r.Some? <==> exists x, rest :: Begins(x, rest, Strip(items))
    ensures forall x, rest :: Begins(x, rest, Strip(items)) ==> r == Some(Desugar(x)) && ts.Valid() && ts.Rest() == rest
  {
    hide Parse, Begins;
    AcceptsIff(Strip(items));
    ts := new TokenSequence(items);
    var parser := new EP.Parser(ts);
    r := parser.ParseExpr();
  }
}
