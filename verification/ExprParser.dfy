/** The expression parser as it runs: one method for each level, a token cursor that is moved forward and put
    back by one. Each method is proved to do what the grammar function of its level says. */
module ExprParserClass {
  import opened Options
  import opened ExprGrammar
  import opened TokenSequenceClass

  class Parser {
    const ts: TokenSequence

    constructor (ts: TokenSequence)
      ensures this.ts == ts
    {
      this.ts := ts;
    }

    /** A token has been read or is still to come: what putting back needs. */
    ghost predicate Ready()
      reads ts
    {
      ts.Valid() && ts.exceedEnd == 0 && (ts.begin > 0 || ts.Rest() != [])
    }

    /** The outcome of a method agrees with the grammar: the same tree, the same tokens left. */
    ghost predicate Agrees(g: Result, r: Option<Ast>)
      reads ts
    {
      match g
      case Fail => r.None?
      case Ok(e, rest) => r == Some(e) && Ready() && ts.Rest() == rest
    }

    /** The head of `at` has been taken: putting back restores `at`. */
    ghost predicate Taken(tok: Option<Tok>, at: seq<Tok>)
      reads ts
    {
      && ts.Valid() && ts.begin > 0
      && if at == [] then tok.None? && ts.Rest() == [] && ts.exceedEnd == 1
         else && tok == Some(at[0]) && ts.Rest() == at[1..] && ts.exceedEnd == 0
              && ts.Before() != [] && ts.Before()[|ts.Before()| - 1] == at[0]
    }

    method Take() returns (tok: Option<Tok>)
      requires Ready()
      modifies ts
      ensures Taken(tok, old(ts.Rest()))
    {
      tok := ts.Next();
    }

    method GiveBack(ghost tok: Option<Tok>, ghost at: seq<Tok>)
      requires Taken(tok, at)
      modifies ts
      ensures Ready() && ts.Rest() == at
    {
      ts.PutBack();
    }

    /** `Try` as a guard of the loops: true exactly when it has moved on. */
    ghost predicate Tried(more: bool, tok: Tok, at: seq<Tok>)
      reads ts
    {
      Ready() && more == Starts(at, tok) && ts.Rest() == if more then at[1..] else at
    }

    method Try(tok: Tok) returns (more: bool)
      requires Ready()
      modifies ts
      ensures Tried(more, tok, old(ts.Rest()))
    {
      more := ts.Try(tok);
    }

    method ParseExpr() returns (r: Option<Ast>)
      requires Ready()
      modifies ts
      ensures Agrees(Parse(COMMA, old(ts.Rest())), r)
      decreases |ts.Rest()|, Depth(COMMA) + 1
    {
      r := ParseCommaExpr();
    }

    method ParseCommaExpr() returns (r: Option<Ast>)
      requires Ready()
      modifies ts
      ensures Agrees(Parse(0, old(ts.Rest())), r)
      decreases |ts.Rest()|, Depth(0)
    {
      hide Strip, Parse, Loop, Continue, PostfixTail, AssignTail, ConditionalTail, ParsePrimary, ParseArgs;
      ghost var start := ts.Rest();
      r := ParseAssignExpr();
      LevelStep(0, start);
      if r.None? { return; }
      var lhs := r.value;
      ghost var at := ts.Rest();
      var more := Try(B(CommaOp));
      while more
        invariant Tried(more, B(CommaOp), at) && |at| < |start| && Parse(0, start) == Loop(0, lhs, at)
        decreases |at|
      {
        LoopNext(0, CommaOp, lhs, at);
        r := ParseAssignExpr();
        if r.None? { return; }
        lhs := Binary(CommaOp, lhs, r.value);
        at := ts.Rest();
        more := Try(B(CommaOp));
      }
      LoopEnds(0, lhs, at);
      return Some(lhs);
    }

    method ParseAssignExpr() returns (r: Option<Ast>)
      requires Ready()
      modifies ts
      ensures Agrees(Parse(ASSIGN, old(ts.Rest())), r)
      decreases |ts.Rest()|, Depth(ASSIGN)
    {
      hide Strip, Loop, PostfixTail, ConditionalTail, ParsePrimary, ParseArgs;
      LevelStep(ASSIGN, ts.Rest());
      r := ParseConditionalExpr();
      hide Continue;
      if r.None? { return; }
      var lhs := r.value;
      ghost var at := ts.Rest();
      var tok := Take();
      if tok.Some? && tok.value.A? && Compound(tok.value.op) {
        r := ParseAssignExpr();
        if r.None? { return; }
        r := Some(AssignTo(lhs, Binary(tok.value.op, lhs, r.value)));
      } else if tok == Some(Assign) {
        r := ParseAssignExpr();
        if r.None? { return; }
        r := Some(AssignTo(lhs, r.value));
      } else {
        GiveBack(tok, at);
        r := Some(lhs);
      }
    }

    method ParseConditionalExpr() returns (r: Option<Ast>)
      requires Ready()
      modifies ts
      ensures Agrees(Parse(CONDITIONAL, old(ts.Rest())), r)
      decreases |ts.Rest()|, Depth(CONDITIONAL)
    {
      hide Strip, Loop, PostfixTail, AssignTail, ParsePrimary, ParseArgs;
      ghost var start := ts.Rest();
      r := ParseLogicalOrExpr();
      LevelStep(CONDITIONAL, start);
      hide Parse, Continue;
      if r.None? { return; }
      var cond := r.value;
      var question := Try(Question);
      if !question { return; }
      var elvis := ts.Test(Colon);
      var exprTrue := cond;
      if !elvis {
        r := ParseExpr();
        if r.None? { return; }
        exprTrue := r.value;
      }
      var colon := Try(Colon);
      if !colon { return None; }
      r := ParseConditionalExpr();
      if r.None? { return; }
      return Some(Conditional(cond, exprTrue, r.value));
    }

    method ParseLogicalOrExpr() returns (r: Option<Ast>)
      requires Ready()
      modifies ts
      ensures Agrees(Parse(3, old(ts.Rest())), r)
      decreases |ts.Rest()|, Depth(3)
    {
      hide Strip, Parse, Loop, Continue, PostfixTail, AssignTail, ConditionalTail, ParsePrimary, ParseArgs;
      ghost var start := ts.Rest();
      r := ParseLogicalAndExpr();
      LevelStep(3, start);
      if r.None? { return; }
      var lhs := r.value;
      ghost var at := ts.Rest();
      var more := Try(B(LogOr));
      while more
        invariant Tried(more, B(LogOr), at) && |at| < |start| && Parse(3, start) == Loop(3, lhs, at)
        decreases |at|
      {
        LoopNext(3, LogOr, lhs, at);
        r := ParseLogicalAndExpr();
        if r.None? { return; }
        lhs := Binary(LogOr, lhs, r.value);
        at := ts.Rest();
        more := Try(B(LogOr));
      }
      LoopEnds(3, lhs, at);
      return Some(lhs);
    }

    method ParseLogicalAndExpr() returns (r: Option<Ast>)
      requires Ready()
      modifies ts
      ensures Agrees(Parse(4, old(ts.Rest())), r)
      decreases |ts.Rest()|, Depth(4)
    {
      hide Strip, Parse, Loop, Continue, PostfixTail, AssignTail, ConditionalTail, ParsePrimary, ParseArgs;
      ghost var start := ts.Rest();
      r := ParseBitwiseOrExpr();
      LevelStep(4, start);
      if r.None? { return; }
      var lhs := r.value;
      ghost var at := ts.Rest();
      var more := Try(B(LogAnd));
      while more
        invariant Tried(more, B(LogAnd), at) && |at| < |start| && Parse(4, start) == Loop(4, lhs, at)
        decreases |at|
      {
        LoopNext(4, LogAnd, lhs, at);
        r := ParseBitwiseOrExpr();
        if r.None? { return; }
        lhs := Binary(LogAnd, lhs, r.value);
        at := ts.Rest();
        more := Try(B(LogAnd));
      }
      LoopEnds(4, lhs, at);
      return Some(lhs);
    }

    method ParseBitwiseOrExpr() returns (r: Option<Ast>)
      requires Ready()
      modifies ts
      ensures Agrees(Parse(5, old(ts.Rest())), r)
      decreases |ts.Rest()|, Depth(5)
    {
      hide Strip, Parse, Loop, Continue, PostfixTail, AssignTail, ConditionalTail, ParsePrimary, ParseArgs;
      ghost var start := ts.Rest();
      r := ParseBitwiseXorExpr();
      LevelStep(5, start);
      if r.None? { return; }
      var lhs := r.value;
      ghost var at := ts.Rest();
      var more := Try(B(BitOr));
      while more
        invariant Tried(more, B(BitOr), at) && |at| < |start| && Parse(5, start) == Loop(5, lhs, at)
        decreases |at|
      {
        LoopNext(5, BitOr, lhs, at);
        r := ParseBitwiseXorExpr();
        if r.None? { return; }
        lhs := Binary(BitOr, lhs, r.value);
        at := ts.Rest();
        more := Try(B(BitOr));
      }
      LoopEnds(5, lhs, at);
      return Some(lhs);
    }

    method ParseBitwiseXorExpr() returns (r: Option<Ast>)
      requires Ready()
      modifies ts
      ensures Agrees(Parse(6, old(ts.Rest())), r)
      decreases |ts.Rest()|, Depth(6)
    {
      hide Strip, Parse, Loop, Continue, PostfixTail, AssignTail, ConditionalTail, ParsePrimary, ParseArgs;
      ghost var start := ts.Rest();
      r := ParseBitwiseAndExpr();
      LevelStep(6, start);
      if r.None? { return; }
      var lhs := r.value;
      ghost var at := ts.Rest();
      var more := Try(B(BitXor));
      while more
        invariant Tried(more, B(BitXor), at) && |at| < |start| && Parse(6, start) == Loop(6, lhs, at)
        decreases |at|
      {
        LoopNext(6, BitXor, lhs, at);
        r := ParseBitwiseAndExpr();
        if r.None? { return; }
        lhs := Binary(BitXor, lhs, r.value);
        at := ts.Rest();
        more := Try(B(BitXor));
      }
      LoopEnds(6, lhs, at);
      return Some(lhs);
    }

    method ParseBitwiseAndExpr() returns (r: Option<Ast>)
      requires Ready()
      modifies ts
      ensures Agrees(Parse(7, old(ts.Rest())), r)
      decreases |ts.Rest()|, Depth(7)
    {
      hide Strip, Parse, Loop, Continue, PostfixTail, AssignTail, ConditionalTail, ParsePrimary, ParseArgs;
      ghost var start := ts.Rest();
      r := ParseEqualityExpr();
      LevelStep(7, start);
      if r.None? { return; }
      var lhs := r.value;
      ghost var at := ts.Rest();
      var more := Try(B(BitAnd));
      while more
        invariant Tried(more, B(BitAnd), at) && |at| < |start| && Parse(7, start) == Loop(7, lhs, at)
        decreases |at|
      {
        LoopNext(7, BitAnd, lhs, at);
        r := ParseEqualityExpr();
        if r.None? { return; }
        lhs := Binary(BitAnd, lhs, r.value);
        at := ts.Rest();
        more := Try(B(BitAnd));
      }
      LoopEnds(7, lhs, at);
      return Some(lhs);
    }

    method ParseEqualityExpr() returns (r: Option<Ast>)
      requires Ready()
      modifies ts
      ensures Agrees(Parse(8, old(ts.Rest())), r)
      decreases |ts.Rest()|, Depth(8)
    {
      hide Strip, Parse, Loop, Continue, PostfixTail, AssignTail, ConditionalTail, ParsePrimary, ParseArgs;
      ghost var start := ts.Rest();
      r := ParseRelationalExpr();
      LevelStep(8, start);
      if r.None? { return; }
      var lhs := r.value;
      ghost var at := ts.Rest();
      var tok := Take();
      while tok.Some? && (tok.value == B(Eq) || tok.value == B(Ne))
        invariant Taken(tok, at) && |at| < |start| && Parse(8, start) == Loop(8, lhs, at)
        decreases |at|
      {
        LoopNext(8, tok.value.op, lhs, at);
        r := ParseRelationalExpr();
        if r.None? { return; }
        lhs := Binary(tok.value.op, lhs, r.value);
        at := ts.Rest();
        tok := Take();
      }
      GiveBack(tok, at);
      LoopEnds(8, lhs, at);
      return Some(lhs);
    }

    method ParseRelationalExpr() returns (r: Option<Ast>)
      requires Ready()
      modifies ts
      ensures Agrees(Parse(9, old(ts.Rest())), r)
      decreases |ts.Rest()|, Depth(9)
    {
      hide Strip, Parse, Loop, Continue, PostfixTail, AssignTail, ConditionalTail, ParsePrimary, ParseArgs;
      ghost var start := ts.Rest();
      r := ParseShiftExpr();
      LevelStep(9, start);
      if r.None? { return; }
      var lhs := r.value;
      ghost var at := ts.Rest();
      var tok := Take();
      while tok.Some? && (tok.value == B(Le) || tok.value == B(Ge) || tok.value == B(Lt) || tok.value == B(Gt))
        invariant Taken(tok, at) && |at| < |start| && Parse(9, start) == Loop(9, lhs, at)
        decreases |at|
      {
        LoopNext(9, tok.value.op, lhs, at);
        r := ParseShiftExpr();
        if r.None? { return; }
        lhs := Binary(tok.value.op, lhs, r.value);
        at := ts.Rest();
        tok := Take();
      }
      GiveBack(tok, at);
      LoopEnds(9, lhs, at);
      return Some(lhs);
    }

    method ParseShiftExpr() returns (r: Option<Ast>)
      requires Ready()
      modifies ts
      ensures Agrees(Parse(10, old(ts.Rest())), r)
      decreases |ts.Rest()|, Depth(10)
    {
      hide Strip, Parse, Loop, Continue, PostfixTail, AssignTail, ConditionalTail, ParsePrimary, ParseArgs;
      ghost var start := ts.Rest();
      r := ParseAdditiveExpr();
      LevelStep(10, start);
      if r.None? { return; }
      var lhs := r.value;
      ghost var at := ts.Rest();
      var tok := Take();
      while tok.Some? && (tok.value == B(Shl) || tok.value == B(Shr))
        invariant Taken(tok, at) && |at| < |start| && Parse(10, start) == Loop(10, lhs, at)
        decreases |at|
      {
        LoopNext(10, tok.value.op, lhs, at);
        r := ParseAdditiveExpr();
        if r.None? { return; }
        lhs := Binary(tok.value.op, lhs, r.value);
        at := ts.Rest();
        tok := Take();
      }
      GiveBack(tok, at);
      LoopEnds(10, lhs, at);
      return Some(lhs);
    }

    method ParseAdditiveExpr() returns (r: Option<Ast>)
      requires Ready()
      modifies ts
      ensures Agrees(Parse(11, old(ts.Rest())), r)
      decreases |ts.Rest()|, Depth(11)
    {
      hide Strip, Parse, Loop, Continue, PostfixTail, AssignTail, ConditionalTail, ParsePrimary, ParseArgs;
      ghost var start := ts.Rest();
      r := ParseMultiplicativeExpr();
      LevelStep(11, start);
      if r.None? { return; }
      var lhs := r.value;
      ghost var at := ts.Rest();
      var tok := Take();
      while tok.Some? && (tok.value == B(Add) || tok.value == B(Sub))
        invariant Taken(tok, at) && |at| < |start| && Parse(11, start) == Loop(11, lhs, at)
        decreases |at|
      {
        LoopNext(11, tok.value.op, lhs, at);
        r := ParseMultiplicativeExpr();
        if r.None? { return; }
        lhs := Binary(tok.value.op, lhs, r.value);
        at := ts.Rest();
        tok := Take();
      }
      GiveBack(tok, at);
      LoopEnds(11, lhs, at);
      return Some(lhs);
    }

    method ParseMultiplicativeExpr() returns (r: Option<Ast>)
      requires Ready()
      modifies ts
      ensures Agrees(Parse(12, old(ts.Rest())), r)
      decreases |ts.Rest()|, Depth(12)
    {
      hide Strip, Parse, Loop, Continue, PostfixTail, AssignTail, ConditionalTail, ParsePrimary, ParseArgs;
      ghost var start := ts.Rest();
      r := ParseCastExpr();
      LevelStep(12, start);
      if r.None? { return; }
      var lhs := r.value;
      ghost var at := ts.Rest();
      var tok := Take();
      while tok.Some? && (tok.value == B(Mul) || tok.value == B(Div) || tok.value == B(Mod))
        invariant Taken(tok, at) && |at| < |start| && Parse(12, start) == Loop(12, lhs, at)
        decreases |at|
      {
        LoopNext(12, tok.value.op, lhs, at);
        r := ParseCastExpr();
        if r.None? { return; }
        lhs := Binary(tok.value.op, lhs, r.value);
        at := ts.Rest();
        tok := Take();
      }
      GiveBack(tok, at);
      LoopEnds(12, lhs, at);
      return Some(lhs);
    }

    /** No token begins a type name here, so a parenthesis never opens a cast. */
    method ParseCastExpr() returns (r: Option<Ast>)
      requires Ready()
      modifies ts
      ensures Agrees(Parse(UNARY, old(ts.Rest())), r)
      decreases |ts.Rest()|, Depth(UNARY), 1
    {
      ghost var at := ts.Rest();
      var tok := Take();
      GiveBack(tok, at);
      r := ParseUnaryExpr();
    }

    method ParseUnaryExpr() returns (r: Option<Ast>)
      requires Ready()
      modifies ts
      ensures Agrees(Parse(UNARY, old(ts.Rest())), r)
      decreases |ts.Rest()|, Depth(UNARY), 0
    {
      hide Strip, Loop, PostfixTail, AssignTail, ConditionalTail, ParsePrimary, ParseArgs;
      ghost var at := ts.Rest();
      var tok := Take();
      if tok.Some? {
        match tok.value {
          case Inc => r := ParsePrefix(PreInc); return;
          case Dec => r := ParsePrefix(PreDec); return;
          case B(BitAnd) => r := ParsePrefix(Addr); return;
          case B(Mul) => r := ParsePrefix(Deref); return;
          case B(Add) => r := ParsePrefix(Plus); return;
          case B(Sub) => r := ParsePrefix(Minus); return;
          case Tilde => r := ParsePrefix(BitNot); return;
          case Bang => r := ParsePrefix(LogNot); return;
          case _ =>
        }
      }
      GiveBack(tok, at);
      r := ParsePostfixExpr();
    }

    method ParsePrefix(op: UnOp) returns (r: Option<Ast>)
      requires Ready()
      modifies ts
      ensures match Parse(UNARY, old(ts.Rest()))
              case Fail => r.None?
              case Ok(e, rest) => Agrees(Ok(Unary(op, e), rest), r)
      decreases |ts.Rest()|, Depth(UNARY), 2
    {
      r := ParseCastExpr();
      if r.Some? { r := Some(Unary(op, r.value)); }
    }

    method ParsePostfixExpr() returns (r: Option<Ast>)
      requires Ready()
      modifies ts
      ensures Agrees(Parse(POSTFIX, old(ts.Rest())), r)
      decreases |ts.Rest()|, Depth(POSTFIX)
    {
      hide Strip, Loop, AssignTail, ConditionalTail, PostfixTail;
      var tok := ts.Peek();
      if tok.None? { return None; }
      r := ParsePrimaryExpr();
      if r.None? { return; }
      r := ParsePostfixExprTail(r.value);
    }

    method ParsePrimaryExpr() returns (r: Option<Ast>)
      requires Ready()
      modifies ts
      ensures Agrees(ParsePrimary(old(ts.Rest())), r) && Agrees(Parse(PRIMARY, old(ts.Rest())), r)
      decreases |ts.Rest()|, Depth(PRIMARY)
    {
      hide Strip, Loop, AssignTail, ConditionalTail, PostfixTail, Continue;
      ghost var at := ts.Rest();
      var tok := ts.Peek();
      if tok.None? { return None; }
      tok := Take();
      match tok.value {
        case LParen =>
          r := ParseExpr();
          if r.None? { return; }
          var closed := Try(RParen);
          if !closed { return None; }
        case Ident(name) => r := Some(Name(name));
        case Number(v) => r := Some(Constant(v));
        case _ => r := None;
      }
    }

    method ParsePostfixExprTail(first: Ast) returns (r: Option<Ast>)
      requires Ready()
      modifies ts
      ensures Agrees(PostfixTail(first, old(ts.Rest())), r)
      decreases |ts.Rest()|, 4
    {
      hide Strip, Loop, AssignTail, ConditionalTail, Continue, Parse, ParseArgs, ParsePrimary;
      ghost var start := ts.Rest();
      var lhs := first;
      while true
        invariant Ready() && |ts.Rest()| <= |start| && PostfixTail(first, start) == PostfixTail(lhs, ts.Rest())
        decreases |ts.Rest()|
      {
        ghost var at := ts.Rest();
        var tok := Take();
        if tok.None? {
          GiveBack(tok, at);
          return Some(lhs);
        }
        match tok.value {
          case LBracket =>
            var rhs := ParseExpr();
            if rhs.None? { return None; }
            var closed := Try(RBracket);
            if !closed { return None; }
            lhs := Unary(Deref, Binary(Add, lhs, rhs.value));
          case LParen =>
            var ok, args := ParseFuncCall();
            if !ok { return None; }
            lhs := FuncCall(lhs, args);
          case Arrow =>
            var name := ParseMemberRef();
            if name.None? { return None; }
            lhs := Member(Unary(Deref, lhs), name.value);
          case Dot =>
            var name := ParseMemberRef();
            if name.None? { return None; }
            lhs := Member(lhs, name.value);
          case Inc => lhs := Unary(PostInc, lhs);
          case Dec => lhs := Unary(PostDec, lhs);
          case _ =>
            GiveBack(tok, at);
            return Some(lhs);
        }
      }
    }

    method ParseMemberRef() returns (name: Option<string>)
      requires Ready()
      modifies ts
      ensures Ready()
      ensures var t := old(ts.Rest());
              if t != [] && t[0].Ident? then name == Some(t[0].name) && ts.Rest() == t[1..] else name.None?
    {
      var tok := ts.Peek();
      if tok.None? || !tok.value.Ident? { return None; }
      var _ := Take();
      return Some(tok.value.name);
    }

    method ParseFuncCall() returns (ok: bool, args: seq<Ast>)
      requires Ready()
      modifies ts
      ensures match ParseArgs(old(ts.Rest()))
              case FailArgs => !ok
              case OkArgs(es, rest) => ok && args == es && Ready() && ts.Rest() == rest
      decreases |ts.Rest()|, 30
    {
      hide Strip, Loop, AssignTail, ConditionalTail, Continue, Parse, PostfixTail, ParsePrimary, ParseArgs;
      ghost var start := ts.Rest();
      args := [];
      ghost var at := start;
      var closed := Try(RParen);
      while !closed
        invariant Tried(closed, RParen, at) && |at| <= |start|
        invariant Combined(args, ParseArgs(at)) == ParseArgs(start)
        decreases |at|
      {
        ArgsStep(args, at);
        var arg := ParseAssignExpr();
        if arg.None? { return false, []; }
        args := args + [arg.value];
        var end := ts.Test(RParen);
        if !end {
          var comma := Try(B(CommaOp));
          if !comma { return false, []; }
        }
        at := ts.Rest();
        closed := Try(RParen);
      }
      ArgsStep(args, at);
      return true, args;
    }
  }

  /** The whole chain on a printed expression, with newlines anywhere between the tokens. */
  method ParsePrinted(x: Expr, items: seq<Item>) returns (r: Option<Ast>, ts: TokenSequence)
    requires Proper(x) && Strip(items) == Print(x, COMMA)
    ensures ts.Valid() && r == Some(Desugar(x)) && ts.Rest() == []
  {
    hide Parse, Print;
    RoundTrip(x, []);
    assert Print(x, COMMA) + [] == Print(x, COMMA);
    NoColon(x, COMMA, []);
    ts := new TokenSequence(items);
    var parser := new Parser(ts);
    r := parser.ParseExpr();
  }

  function Combined(args: seq<Ast>, r: Results): Results {
    if r.FailArgs? then FailArgs else OkArgs(args + r.args, r.rest)
  }

  /** What reading the next argument makes of the list. */
  lemma ArgsStep(args: seq<Ast>, t: seq<Tok>)
    ensures Combined(args, ParseArgs(t)) ==
            if Starts(t, RParen) then OkArgs(args, t[1..])
            else match Parse(ASSIGN, t)
              case Fail => FailArgs
              case Ok(e, rest) =>
                if Starts(rest, RParen) then Combined(args + [e], ParseArgs(rest))
                else if Starts(rest, B(CommaOp)) then Combined(args + [e], ParseArgs(rest[1..]))
                else FailArgs
    ensures Combined([], ParseArgs(t)) == ParseArgs(t)
  {
    hide BinaryLevel;
    match Parse(ASSIGN, t)
    case Fail =>
    case Ok(e, rest) =>
      if Starts(rest, B(CommaOp)) && ParseArgs(rest[1..]).OkArgs? {
        assert args + ([e] + ParseArgs(rest[1..]).args) == args + [e] + ParseArgs(rest[1..]).args;
      }
  }

  /** What a level with binary operators does first. */
  lemma LevelStep(l: nat, t: seq<Tok>)
    requires BinaryLevel(l) || l == CONDITIONAL || l == ASSIGN
    ensures match Parse(l + 1, t)
            case Fail => Parse(l, t) == Fail
            case Ok(e, rest) =>
              Parse(l, t) == if l == CONDITIONAL then ConditionalTail(e, rest)
                             else if l == ASSIGN then AssignTail(e, rest) else Loop(l, e, rest)
  {
    hide Loop, ConditionalTail, AssignTail;
  }

  lemma {:induction false} LoopNext(l: nat, op: BinOp, e: Ast, t: seq<Tok>)
    requires Starts(t, B(op)) && BinLevel(op) == l
    ensures match Parse(l + 1, t[1..])
            case Fail => Loop(l, e, t) == Fail
            case Ok(r, rest) => Loop(l, e, t) == Loop(l, Binary(op, e, r), rest)
  {
    hide Parse;
  }

  lemma LoopEnds(l: nat, e: Ast, t: seq<Tok>)
    requires t == [] || !t[0].B? || BinLevel(t[0].op) != l
    ensures Loop(l, e, t) == Ok(e, t)
  {
  }
}
