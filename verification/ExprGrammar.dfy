/** The expression grammar: the parser as a function of the tokens, a printer with minimal parentheses, and
    the proof that parsing inverts printing. */
module ExprGrammar {

  datatype BinOp =
    | CommaOp | LogOr | LogAnd | BitOr | BitXor | BitAnd | Eq | Ne | Lt | Gt | Le | Ge
    | Shl | Shr | Add | Sub | Mul | Div | Mod

  datatype UnOp = Addr | Deref | Plus | Minus | BitNot | LogNot | PreInc | PreDec | PostInc | PostDec

  /** `B(op)` is the operator's own token, `A(op)` its assignment form. */
  datatype Tok =
    | Ident(name: string) | Number(v: int)
    | B(op: BinOp) | A(op: BinOp)
    | Assign | Tilde | Bang | Inc | Dec
    | LParen | RParen | LBracket | RBracket | Dot | Arrow | Question | Colon | Semicolon

  datatype Ast =
    | Name(name: string) | Constant(v: int)
    | Unary(uop: UnOp, e: Ast)
    | Binary(bop: BinOp, l: Ast, r: Ast)
    | AssignTo(l: Ast, r: Ast)
    | Conditional(c: Ast, t: Ast, f: Ast)
    | FuncCall(f: Ast, args: seq<Ast>)
    | Member(e: Ast, name: string)

  // ---------- levels ----------

  const COMMA := 0
  const ASSIGN := 1
  const CONDITIONAL := 2
  const LOG_OR := 3
  const MULTIPLICATIVE := 12
  const UNARY := 13
  const POSTFIX := 14
  const PRIMARY := 15

  function BinLevel(op: BinOp): nat {
    match op
    case CommaOp => 0
    case LogOr => 3
    case LogAnd => 4
    case BitOr => 5
    case BitXor => 6
    case BitAnd => 7
    case Eq => 8
    case Ne => 8
    case Lt => 9
    case Gt => 9
    case Le => 9
    case Ge => 9
    case Shl => 10
    case Shr => 10
    case Add => 11
    case Sub => 11
    case Mul => 12
    case Div => 12
    case Mod => 12
  }

  /** Operators that have an assignment form. */
  predicate Compound(op: BinOp) {
    op in {BitOr, BitXor, BitAnd, Shl, Shr, Add, Sub, Mul, Div, Mod}
  }

  predicate BinaryLevel(l: nat) {
    l == COMMA || LOG_OR <= l <= MULTIPLICATIVE
  }

  // ---------- the parser ----------

  datatype Result = Ok(e: Ast, rest: seq<Tok>) | Fail

  datatype Results = OkArgs(args: seq<Ast>, rest: seq<Tok>) | FailArgs

  predicate Starts(t: seq<Tok>, tok: Tok) {
    t != [] && t[0] == tok
  }

  function PrefixOf(t: seq<Tok>): (u: UnOp)
    requires IsPrefix(t)
  {
    match t[0]
    case B(BitAnd) => Addr
    case B(Mul) => Deref
    case B(Add) => Plus
    case B(Sub) => Minus
    case Tilde => BitNot
    case Bang => LogNot
    case Inc => PreInc
    case _ => PreDec
  }

  predicate IsPrefix(t: seq<Tok>) {
    t != [] && t[0] in {B(BitAnd), B(Mul), B(Add), B(Sub), Tilde, Bang, Inc, Dec}
  }

  function Depth(l: nat): nat {
    if l <= PRIMARY then 20 - l else 5
  }

  /** The expression of a level at the head of the tokens. */
  function Parse(l: nat, t: seq<Tok>): (r: Result)
    ensures r.Ok? ==> |r.rest| < |t|
    decreases |t|, Depth(l), 0
  {
    if l >= PRIMARY then ParsePrimary(t)
    else if l == UNARY && IsPrefix(t) then
      match Parse(UNARY, t[1..])
      case Fail => Fail
      case Ok(e, rest) => Ok(Unary(PrefixOf(t), e), rest)
    else
      match Parse(l + 1, t)
      case Fail => Fail
      case Ok(e, rest) => Continue(l, e, rest)
  }

  /** What a level does with the tokens behind its first operand. */
  function Continue(l: nat, e: Ast, t: seq<Tok>): (r: Result)
    ensures r.Ok? ==> |r.rest| <= |t|
    decreases |t|, Depth(l), 1
  {
    if BinaryLevel(l) then Loop(l, e, t)
    else if l == ASSIGN then AssignTail(e, t)
    else if l == CONDITIONAL then ConditionalTail(e, t)
    else if l == POSTFIX then PostfixTail(e, t)
    else Ok(e, t)
  }

  function ParsePrimary(t: seq<Tok>): (r: Result)
    ensures r.Ok? ==> |r.rest| < |t|
    decreases |t|, 0
  {
    if t == [] then Fail
    else match t[0]
      case LParen =>
        (match Parse(COMMA, t[1..])
         case Fail => Fail
         case Ok(e, rest) => if Starts(rest, RParen) then Ok(e, rest[1..]) else Fail)
      case Ident(name) => Ok(Name(name), t[1..])
      case Number(v) => Ok(Constant(v), t[1..])
      case _ => Fail
  }

  /** Left-associative operators of one level. */
  function Loop(l: nat, e: Ast, t: seq<Tok>): (r: Result)
    ensures r.Ok? ==> |r.rest| <= |t|
    decreases |t|, 0
  {
    if t != [] && t[0].B? && BinLevel(t[0].op) == l then
      match Parse(l + 1, t[1..])
      case Fail => Fail
      case Ok(r, rest) => Loop(l, Binary(t[0].op, e, r), rest)
    else Ok(e, t)
  }

  function AssignTail(e: Ast, t: seq<Tok>): (r: Result)
    ensures r.Ok? ==> |r.rest| <= |t|
    decreases |t|, 0
  {
    if t != [] && (t[0] == Assign || (t[0].A? && Compound(t[0].op))) then
      match Parse(ASSIGN, t[1..])
      case Fail => Fail
      case Ok(r, rest) => Ok(AssignTo(e, if t[0] == Assign then r else Binary(t[0].op, e, r)), rest)
    else Ok(e, t)
  }

  /** `a ?: c` stands for `a ? a : c`. */
  function ConditionalTail(e: Ast, t: seq<Tok>): (r: Result)
    ensures r.Ok? ==> |r.rest| <= |t|
    decreases |t|, 0
  {
    if !Starts(t, Question) then Ok(e, t)
    else
      match if Starts(t[1..], Colon) then Ok(e, t[1..]) else Parse(COMMA, t[1..])
      case Fail => Fail
      case Ok(x, rest) =>
        if !Starts(rest, Colon) then Fail
        else
          match Parse(CONDITIONAL, rest[1..])
          case Fail => Fail
          case Ok(y, rest') => Ok(Conditional(e, x, y), rest')
  }

  function PostfixTail(e: Ast, t: seq<Tok>): (r: Result)
    ensures r.Ok? ==> |r.rest| <= |t|
    decreases |t|, 0
  {
    if t == [] then Ok(e, t)
    else match t[0]
      case LBracket =>
        (match Parse(COMMA, t[1..])
         case Fail => Fail
         case Ok(i, rest) =>
           if Starts(rest, RBracket) then PostfixTail(Unary(Deref, Binary(Add, e, i)), rest[1..]) else Fail)
      case LParen =>
        (match ParseArgs(t[1..])
         case FailArgs => Fail
         case OkArgs(args, rest) => PostfixTail(FuncCall(e, args), rest))
      case Arrow => if |t| >= 2 && t[1].Ident? then PostfixTail(Member(Unary(Deref, e), t[1].name), t[2..]) else Fail
      case Dot => if |t| >= 2 && t[1].Ident? then PostfixTail(Member(e, t[1].name), t[2..]) else Fail
      case Inc => PostfixTail(Unary(PostInc, e), t[1..])
      case Dec => PostfixTail(Unary(PostDec, e), t[1..])
      case _ => Ok(e, t)
  }

  /** Up to and with the closing parenthesis; a comma may stand before it. */
  function ParseArgs(t: seq<Tok>): (r: Results)
    ensures r.OkArgs? ==> |r.rest| <= |t|
    decreases |t|, 30
  {
    if Starts(t, RParen) then OkArgs([], t[1..])
    else
      match Parse(ASSIGN, t)
      case Fail => FailArgs
      case Ok(e, rest) =>
        if Starts(rest, RParen) then OkArgs([e], rest[1..])
        else if !Starts(rest, B(CommaOp)) then FailArgs
        else
          match ParseArgs(rest[1..])
          case FailArgs => FailArgs
          case OkArgs(es, rest') => OkArgs([e] + es, rest')
  }

  // ---------- the printer ----------

  /** Expressions as they are written: with compound assignment, subscripts, `->`, `?:`, parentheses wherever the writer
      wants them, and perhaps a comma behind the last argument of a call. */
  datatype Expr =
    | EName(name: string) | ENumber(v: int)
    | EPrefix(uop: UnOp, e: Expr)
    | EPostfix(increment: bool, e: Expr)
    | EBinary(bop: BinOp, l: Expr, r: Expr)
    | EAssign(l: Expr, r: Expr)
    | ECompound(cop: BinOp, l: Expr, r: Expr)
    | EConditional(c: Expr, t: Expr, f: Expr)
    | EElvis(c: Expr, f: Expr)
    | ECall(f: Expr, args: seq<Expr>, comma: bool)
    | EIndex(a: Expr, i: Expr)
    | EMember(e: Expr, name: string)
    | EArrow(e: Expr, name: string)
    | EParen(e: Expr)

  predicate Proper(x: Expr) {
    match x
    case EPrefix(u, e) => !u.PostInc? && !u.PostDec? && Proper(e)
    case EPostfix(_, e) => Proper(e)
    case EBinary(_, l, r) => Proper(l) && Proper(r)
    case EAssign(l, r) => Proper(l) && Proper(r)
    case ECompound(op, l, r) => Compound(op) && Proper(l) && Proper(r)
    case EConditional(c, t, f) => Proper(c) && Proper(t) && Proper(f)
    case EElvis(c, f) => Proper(c) && Proper(f)
    case ECall(f, args, comma) =>
      Proper(f) && (comma ==> args != []) && forall i :: 0 <= i < |args| ==> Proper(args[i])
    case EIndex(a, i) => Proper(a) && Proper(i)
    case EMember(e, _) => Proper(e)
    case EArrow(e, _) => Proper(e)
    case EParen(e) => Proper(e)
    case _ => true
  }

  /** What an expression stands for. */
  function Desugar(x: Expr): Ast {
    match x
    case EName(n) => Name(n)
    case ENumber(v) => Constant(v)
    case EPrefix(u, e) => Unary(u, Desugar(e))
    case EPostfix(inc, e) => Unary(if inc then PostInc else PostDec, Desugar(e))
    case EBinary(op, l, r) => Binary(op, Desugar(l), Desugar(r))
    case EAssign(l, r) => AssignTo(Desugar(l), Desugar(r))
    case ECompound(op, l, r) => AssignTo(Desugar(l), Binary(op, Desugar(l), Desugar(r)))
    case EConditional(c, t, f) => Conditional(Desugar(c), Desugar(t), Desugar(f))
    case EElvis(c, f) => Conditional(Desugar(c), Desugar(c), Desugar(f))
    case ECall(f, args, _) => FuncCall(Desugar(f), DesugarAll(args))
    case EIndex(a, i) => Unary(Deref, Binary(Add, Desugar(a), Desugar(i)))
    case EMember(e, n) => Member(Desugar(e), n)
    case EArrow(e, n) => Member(Unary(Deref, Desugar(e)), n)
    case EParen(e) => Desugar(e)
  }

  function DesugarAll(xs: seq<Expr>): seq<Ast> {
    if xs == [] then [] else [Desugar(xs[0])] + DesugarAll(xs[1..])
  }

  function LevelOf(x: Expr): nat {
    match x
    case EPrefix(_, _) => UNARY
    case EBinary(op, _, _) => BinLevel(op)
    case EAssign(_, _) => ASSIGN
    case ECompound(_, _, _) => ASSIGN
    case EConditional(_, _, _) => CONDITIONAL
    case EElvis(_, _) => CONDITIONAL
    case EName(_) => PRIMARY
    case ENumber(_) => PRIMARY
    case EParen(_) => PRIMARY
    case _ => POSTFIX
  }

  function PrefixTok(u: UnOp): Tok {
    match u
    case Addr => B(BitAnd)
    case Deref => B(Mul)
    case Plus => B(Add)
    case Minus => B(Sub)
    case BitNot => Tilde
    case LogNot => Bang
    case PreInc => Inc
    case PreDec => Dec
    case PostInc => Inc
    case PostDec => Dec
  }

  /** Besides the written parentheses only those without which the tree would be another one. Any conditional expression
      may stand to the left of an assignment; that it designates an object is checked later. */
  function Print(x: Expr, l: nat): seq<Tok>
    decreases x, 1
  {
    if LevelOf(x) < l then [LParen] + Bare(x) + [RParen] else Bare(x)
  }

  function Bare(x: Expr): seq<Tok>
    decreases x, 0
  {
    match x
    case EName(n) => [Ident(n)]
    case ENumber(v) => [Number(v)]
    case EPrefix(u, e) => [PrefixTok(u)] + Print(e, UNARY)
    case EPostfix(inc, e) => Print(e, POSTFIX) + [if inc then Inc else Dec]
    case EBinary(op, l, r) => Print(l, BinLevel(op)) + [B(op)] + Print(r, BinLevel(op) + 1)
    case EAssign(l, r) => Print(l, CONDITIONAL) + [Assign] + Print(r, ASSIGN)
    case ECompound(op, l, r) => Print(l, CONDITIONAL) + [A(op)] + Print(r, ASSIGN)
    case EConditional(c, t, f) => Print(c, LOG_OR) + [Question] + Print(t, COMMA) + [Colon] + Print(f, CONDITIONAL)
    case EElvis(c, f) => Print(c, LOG_OR) + [Question, Colon] + Print(f, CONDITIONAL)
    case ECall(f, args, comma) => Print(f, POSTFIX) + [LParen] + PrintArgs(args, comma) + [RParen]
    case EIndex(a, i) => Print(a, POSTFIX) + [LBracket] + Print(i, COMMA) + [RBracket]
    case EMember(e, n) => Print(e, POSTFIX) + [Dot, Ident(n)]
    case EArrow(e, n) => Print(e, POSTFIX) + [Arrow, Ident(n)]
    case EParen(e) => [LParen] + Print(e, COMMA) + [RParen]
  }

  function PrintArgs(xs: seq<Expr>, comma: bool): seq<Tok> {
    if xs == [] then []
    else if |xs| == 1 && !comma then Print(xs[0], ASSIGN)
    else Print(xs[0], ASSIGN) + [B(CommaOp)] + PrintArgs(xs[1..], comma)
  }

  // ---------- parsing what was printed ----------

  /** The level at which a token goes on with an expression before it; -1 if none does. */
  function OpLevel(t: seq<Tok>): int {
    if t == [] then -1
    else match t[0]
      case B(op) => BinLevel(op)
      case A(op) => if Compound(op) then ASSIGN else -1
      case Assign => ASSIGN
      case Question => CONDITIONAL
      case LParen => POSTFIX
      case LBracket => POSTFIX
      case Dot => POSTFIX
      case Arrow => POSTFIX
      case Inc => POSTFIX
      case Dec => POSTFIX
      case _ => -1
  }

  /** The tokens do not go on with an operand of level `l`, except by an operator that groups to the left. */
  predicate Ends(l: nat, t: seq<Tok>) {
    OpLevel(t) < l || (OpLevel(t) == l && l != ASSIGN && l != CONDITIONAL)
  }

  lemma NothingToContinue(l: nat, e: Ast, t: seq<Tok>)
    requires OpLevel(t) < l
    ensures Continue(l, e, t) == Ok(e, t)
  {
  }

  /** An expression that no prefix operator begins. */
  predicate PlainStart(t: seq<Tok>) {
    t != [] && (t[0].Ident? || t[0].Number? || t[0] == LParen)
  }

  lemma {:induction false} PrintStart(x: Expr, l: nat, rest: seq<Tok>)
    requires l >= POSTFIX || LevelOf(x) >= POSTFIX
    ensures PlainStart(Print(x, l) + rest)
    decreases x
  {
    if LevelOf(x) >= l {
      match x
      case EPostfix(_, e) => PrintStart(e, POSTFIX, []);
      case ECall(f, _, _) => PrintStart(f, POSTFIX, []);
      case EIndex(a, _) => PrintStart(a, POSTFIX, []);
      case EMember(e, _) => PrintStart(e, POSTFIX, []);
      case EArrow(e, _) => PrintStart(e, POSTFIX, []);
      case _ =>
    }
  }

  /** From a level down to a looser one, when nothing at the levels between goes on. */
  lemma {:induction false} Loosen(n: nat, l: nat, e: Ast, t: seq<Tok>, rest: seq<Tok>)
    requires l <= n <= PRIMARY && Parse(n, t) == Continue(n, e, rest)
    requires OpLevel(rest) <= l && (l < n ==> Ends(l, rest))
    requires l <= UNARY < n ==> PlainStart(t)
    ensures Parse(l, t) == Continue(l, e, rest)
    decreases n - l
  {
    if l < n {
      Loosen(n, l + 1, e, t, rest);
      NothingToContinue(l + 1, e, rest);
    }
  }

  /** Parsing a printed expression at its level gives the expression and goes on with what follows. */
  lemma {:induction false} PrintParse(x: Expr, l: nat, rest: seq<Tok>)
    requires Proper(x) && l <= PRIMARY && Ends(l, rest)
    ensures Parse(l, Print(x, l) + rest) == Continue(l, Desugar(x), rest)
    decreases x, if LevelOf(x) < l then 3 else 2
  {
    if LevelOf(x) < l {
      var inner := [RParen] + rest;
      PrintParse(x, COMMA, inner);
      NothingToContinue(COMMA, Desugar(x), inner);
      var t := Print(x, l) + rest;
      assert t[1..] == Print(x, COMMA) + inner;
      assert inner[1..] == rest;
      Loosen(PRIMARY, l, Desugar(x), t, rest);
    } else {
      BareParse(x, rest);
      if l <= UNARY < LevelOf(x) { PrintStart(x, l, rest); }
      Loosen(LevelOf(x), l, Desugar(x), Bare(x) + rest, rest);
    }
  }

  /** The same at the expression's own level. */
  lemma BareParse(x: Expr, rest: seq<Tok>)
    requires Proper(x) && Ends(LevelOf(x), rest)
    ensures Parse(LevelOf(x), Bare(x) + rest) == Continue(LevelOf(x), Desugar(x), rest)
    decreases x, 1
  {
    match x
    case EName(_) =>
    case ENumber(_) =>
    case EPrefix(u, e) => PrefixParse(u, e, rest);
    case EPostfix(inc, e) => SuffixParse(x, e, [if inc then Inc else Dec], rest);
    case EBinary(op, l, r) => BinaryParse(op, l, r, rest);
    case EAssign(l, r) => AssignParse(x, l, Assign, r, rest);
    case ECompound(op, l, r) => AssignParse(x, l, A(op), r, rest);
    case EConditional(c, t, f) => ConditionalParse(c, t, f, rest);
    case EElvis(c, f) => ElvisParse(c, f, rest);
    case ECall(f, args, comma) => CallParse(f, args, comma, rest);
    case EIndex(a, i) => IndexParse(a, i, rest);
    case EMember(e, n) => SuffixParse(x, e, [Dot, Ident(n)], rest);
    case EArrow(e, n) => SuffixParse(x, e, [Arrow, Ident(n)], rest);
    case EParen(e) => ParenParse(e, rest);
  }

  /** Postfix operators without operands of their own. */
  lemma SuffixParse(x: Expr, e: Expr, suffix: seq<Tok>, rest: seq<Tok>)
    requires Proper(e)
    requires (x == EPostfix(true, e) && suffix == [Inc]) || (x == EPostfix(false, e) && suffix == [Dec])
          || (x.EMember? && x == EMember(e, x.name) && suffix == [Dot, Ident(x.name)])
          || (x.EArrow? && x == EArrow(e, x.name) && suffix == [Arrow, Ident(x.name)])
    ensures Parse(POSTFIX, Bare(x) + rest) == PostfixTail(Desugar(x), rest)
    decreases x, 0
  {
    hide Bare, Print, Parse, Continue, PostfixTail;
    SuffixBare(x, e, suffix, rest);
    PrintParse(e, POSTFIX, suffix + rest);
    PostfixStep(Desugar(e), Bare(x) + rest, suffix + rest);
    SuffixStep(x, Desugar(e), suffix, rest);
  }

  lemma SuffixBare(x: Expr, e: Expr, suffix: seq<Tok>, rest: seq<Tok>)
    requires (x == EPostfix(true, e) && suffix == [Inc]) || (x == EPostfix(false, e) && suffix == [Dec])
          || (x.EMember? && x == EMember(e, x.name) && suffix == [Dot, Ident(x.name)])
          || (x.EArrow? && x == EArrow(e, x.name) && suffix == [Arrow, Ident(x.name)])
    ensures Bare(x) + rest == Print(e, POSTFIX) + (suffix + rest)
  {
    hide Print;
  }

  lemma SuffixStep(x: Expr, e: Ast, suffix: seq<Tok>, rest: seq<Tok>)
    requires (x.EPostfix? && suffix == [if x.increment then Inc else Dec])
          || (x.EMember? && suffix == [Dot, Ident(x.name)])
          || (x.EArrow? && suffix == [Arrow, Ident(x.name)])
    ensures PostfixTail(e, suffix + rest) == PostfixTail(
              if x.EPostfix? then Unary(if x.increment then PostInc else PostDec, e)
              else if x.EMember? then Member(e, x.name) else Member(Unary(Deref, e), x.name), rest)
  {
    hide Parse, ParseArgs;
    assert (suffix + rest)[|suffix|..] == rest;
  }

  lemma PrefixParse(u: UnOp, e: Expr, rest: seq<Tok>)
    requires Proper(EPrefix(u, e)) && Ends(UNARY, rest)
    ensures Parse(UNARY, Bare(EPrefix(u, e)) + rest) == Ok(Unary(u, Desugar(e)), rest)
    decreases EPrefix(u, e), 0
  {
    hide Bare, Print, Parse, Continue;
    PrintParse(e, UNARY, rest);
    NothingToContinue(UNARY, Desugar(e), rest);
    PrefixBare(u, e, rest);
    PrefixStep(u, Print(e, UNARY) + rest, Desugar(e), rest);
  }

  lemma PrefixBare(u: UnOp, e: Expr, rest: seq<Tok>)
    ensures Bare(EPrefix(u, e)) + rest == [PrefixTok(u)] + (Print(e, UNARY) + rest)
  {
    hide Print;
  }

  lemma PrefixStep(u: UnOp, t: seq<Tok>, e: Ast, rest: seq<Tok>)
    requires Parse(UNARY, t) == Ok(e, rest) && !u.PostInc? && !u.PostDec?
    ensures Parse(UNARY, [PrefixTok(u)] + t) == Ok(Unary(u, e), rest)
  {
    var all := [PrefixTok(u)] + t;
    assert all[1..] == t && IsPrefix(all) && PrefixOf(all) == u;
  }

  lemma BinaryParse(op: BinOp, l: Expr, r: Expr, rest: seq<Tok>)
    requires Proper(l) && Proper(r) && Ends(BinLevel(op), rest)
    ensures var n := BinLevel(op);
            Parse(n, Bare(EBinary(op, l, r)) + rest) == Loop(n, Binary(op, Desugar(l), Desugar(r)), rest)
    decreases EBinary(op, l, r), 0
  {
    hide Bare, Print, Parse, Continue, Loop;
    var n := BinLevel(op);
    var t := Print(r, n + 1) + rest;
    BinaryBare(op, l, r, rest);
    PrintParse(l, n, [B(op)] + t);
    PrintParse(r, n + 1, rest);
    NothingToContinue(n + 1, Desugar(r), rest);
    LoopStep(op, Desugar(l), t, Desugar(r), rest);
  }

  lemma BinaryBare(op: BinOp, l: Expr, r: Expr, rest: seq<Tok>)
    ensures var n := BinLevel(op);
            Bare(EBinary(op, l, r)) + rest == Print(l, n) + ([B(op)] + (Print(r, n + 1) + rest))
  {
    hide Print;
  }

  lemma LoopStep(op: BinOp, e: Ast, t: seq<Tok>, r: Ast, rest: seq<Tok>)
    requires Parse(BinLevel(op) + 1, t) == Ok(r, rest)
    ensures Continue(BinLevel(op), e, [B(op)] + t) == Loop(BinLevel(op), Binary(op, e, r), rest)
  {
    hide Parse;
    assert ([B(op)] + t)[1..] == t;
  }

  lemma AssignParse(x: Expr, l: Expr, tok: Tok, r: Expr, rest: seq<Tok>)
    requires (x == EAssign(l, r) && tok == Assign) || (x.ECompound? && x == ECompound(x.cop, l, r) && tok == A(x.cop))
    requires Proper(x) && Ends(ASSIGN, rest)
    ensures Parse(ASSIGN, Bare(x) + rest) == Ok(Desugar(x), rest)
    decreases x, 0
  {
    hide Bare, Print, Parse, Continue;
    var t := Print(r, ASSIGN) + rest;
    AssignBare(x, l, tok, r, rest);
    PrintParse(l, CONDITIONAL, [tok] + t);
    NothingToContinue(CONDITIONAL, Desugar(l), [tok] + t);
    AssignStep(Bare(x) + rest, Desugar(l), [tok] + t);
    PrintParse(r, ASSIGN, rest);
    NothingToContinue(ASSIGN, Desugar(r), rest);
    assert ([tok] + t)[1..] == t;
  }

  lemma AssignBare(x: Expr, l: Expr, tok: Tok, r: Expr, rest: seq<Tok>)
    requires (x == EAssign(l, r) && tok == Assign) || (x.ECompound? && x == ECompound(x.cop, l, r) && tok == A(x.cop))
    ensures Bare(x) + rest == Print(l, CONDITIONAL) + ([tok] + (Print(r, ASSIGN) + rest))
  {
    hide Print;
  }

  lemma ConditionalStep(t: seq<Tok>, c: Ast, rest: seq<Tok>)
    requires Parse(LOG_OR, t) == Ok(c, rest)
    ensures Parse(CONDITIONAL, t) == ConditionalTail(c, rest)
  {
    hide ConditionalTail;
  }

  lemma AssignStep(t: seq<Tok>, e: Ast, rest: seq<Tok>)
    requires Parse(CONDITIONAL, t) == Ok(e, rest)
    ensures Parse(ASSIGN, t) == AssignTail(e, rest)
  {
    hide AssignTail;
  }

  lemma PostfixStep(l: Ast, t: seq<Tok>, rest: seq<Tok>)
    requires Parse(POSTFIX, t) == Continue(POSTFIX, l, rest)
    ensures Parse(POSTFIX, t) == PostfixTail(l, rest)
  {
    hide PostfixTail;
  }

  lemma ConditionalParse(c: Expr, x: Expr, y: Expr, rest: seq<Tok>)
    requires Proper(c) && Proper(x) && Proper(y) && Ends(CONDITIONAL, rest)
    ensures Parse(CONDITIONAL, Bare(EConditional(c, x, y)) + rest)
         == Ok(Conditional(Desugar(c), Desugar(x), Desugar(y)), rest)
    decreases EConditional(c, x, y), 0
  {
    hide Bare, Print, Parse, Continue;
    var t3 := Print(y, CONDITIONAL) + rest;
    var t2 := [Colon] + t3;
    var t1 := [Question] + (Print(x, COMMA) + t2);
    var all := Bare(EConditional(c, x, y)) + rest;
    ConditionalBare(c, x, y, rest);
    PrintParse(c, LOG_OR, t1);
    NothingToContinue(LOG_OR, Desugar(c), t1);
    ConditionalStep(all, Desugar(c), t1);
    assert t1[1..] == Print(x, COMMA) + t2;
    PrintParse(x, COMMA, t2);
    NothingToContinue(COMMA, Desugar(x), t2);
    NoColon(x, COMMA, t2);
    assert t2[1..] == t3;
    PrintParse(y, CONDITIONAL, rest);
    NothingToContinue(CONDITIONAL, Desugar(y), rest);
  }

  lemma ConditionalBare(c: Expr, x: Expr, y: Expr, rest: seq<Tok>)
    ensures Bare(EConditional(c, x, y)) + rest
         == Print(c, LOG_OR) + ([Question] + (Print(x, COMMA) + ([Colon] + (Print(y, CONDITIONAL) + rest))))
  {
    hide Print;
  }

  /** A printed expression does not begin with a colon. */
  lemma {:induction false} NoColon(x: Expr, l: nat, rest: seq<Tok>)
    ensures Print(x, l) + rest != [] && (Print(x, l) + rest)[0] != Colon && (Print(x, l) + rest)[0] != RParen
    decreases x
  {
    if LevelOf(x) >= l {
      match x
      case EPostfix(_, e) => NoColon(e, POSTFIX, []);
      case EBinary(op, a, _) => NoColon(a, BinLevel(op), []);
      case EAssign(a, _) => NoColon(a, CONDITIONAL, []);
      case ECompound(_, a, _) => NoColon(a, CONDITIONAL, []);
      case EConditional(c, _, _) => NoColon(c, LOG_OR, []);
      case EElvis(c, _) => NoColon(c, LOG_OR, []);
      case ECall(f, _, _) => NoColon(f, POSTFIX, []);
      case EIndex(a, _) => NoColon(a, POSTFIX, []);
      case EMember(e, _) => NoColon(e, POSTFIX, []);
      case EArrow(e, _) => NoColon(e, POSTFIX, []);
      case _ =>
    }
  }

  lemma ElvisParse(c: Expr, y: Expr, rest: seq<Tok>)
    requires Proper(c) && Proper(y) && Ends(CONDITIONAL, rest)
    ensures Parse(CONDITIONAL, Bare(EElvis(c, y)) + rest) == Ok(Conditional(Desugar(c), Desugar(c), Desugar(y)), rest)
    decreases EElvis(c, y), 0
  {
    var t := [Question, Colon] + (Print(y, CONDITIONAL) + rest);
    var all := Bare(EElvis(c, y)) + rest;
    assert all == Print(c, LOG_OR) + t;
    PrintParse(c, LOG_OR, t);
    NothingToContinue(LOG_OR, Desugar(c), t);
    ConditionalStep(all, Desugar(c), t);
    hide Bare, Print, Continue;
    assert t[1..][0] == Colon && t[1..][1..] == Print(y, CONDITIONAL) + rest;
    PrintParse(y, CONDITIONAL, rest);
    NothingToContinue(CONDITIONAL, Desugar(y), rest);
  }

  lemma IndexParse(a: Expr, i: Expr, rest: seq<Tok>)
    requires Proper(a) && Proper(i)
    ensures Parse(POSTFIX, Bare(EIndex(a, i)) + rest) == PostfixTail(Desugar(EIndex(a, i)), rest)
    decreases EIndex(a, i), 0
  {
    var t2 := [RBracket] + rest;
    var t1 := [LBracket] + (Print(i, COMMA) + t2);
    PrintParse(a, POSTFIX, t1);
    assert Bare(EIndex(a, i)) + rest == Print(a, POSTFIX) + t1;
    assert t1[1..] == Print(i, COMMA) + t2;
    PrintParse(i, COMMA, t2);
    NothingToContinue(COMMA, Desugar(i), t2);
    assert t2[1..] == rest;
  }

  /** Written parentheses. */
  lemma ParenParse(e: Expr, rest: seq<Tok>)
    requires Proper(e)
    ensures Parse(PRIMARY, Bare(EParen(e)) + rest) == Ok(Desugar(e), rest)
    decreases EParen(e), 0
  {
    hide Print, Parse, Continue;
    var inner := [RParen] + rest;
    assert Bare(EParen(e)) + rest == [LParen] + (Print(e, COMMA) + inner);
    PrintParse(e, COMMA, inner);
    NothingToContinue(COMMA, Desugar(e), inner);
    ParenStep(Print(e, COMMA) + inner, Desugar(e), rest);
  }

  lemma ParenStep(t: seq<Tok>, e: Ast, rest: seq<Tok>)
    requires Parse(COMMA, t) == Ok(e, [RParen] + rest)
    ensures Parse(PRIMARY, [LParen] + t) == Ok(e, rest)
  {
    hide Continue;
    assert ([LParen] + t)[1..] == t && ([RParen] + rest)[1..] == rest;
  }

  lemma CallParse(f: Expr, args: seq<Expr>, comma: bool, rest: seq<Tok>)
    requires Proper(ECall(f, args, comma))
    ensures Parse(POSTFIX, Bare(ECall(f, args, comma)) + rest)
            == PostfixTail(FuncCall(Desugar(f), DesugarAll(args)), rest)
    decreases ECall(f, args, comma), 0
  {
    hide Bare, Print, Parse, Continue, ParseArgs, PrintArgs;
    var inner := PrintArgs(args, comma) + ([RParen] + rest);
    CallBare(f, args, comma, rest);
    PrintParse(f, POSTFIX, [LParen] + inner);
    PostfixStep(Desugar(f), Bare(ECall(f, args, comma)) + rest, [LParen] + inner);
    ArgsParse(args, comma, rest);
    CallStep(Desugar(f), inner, DesugarAll(args), rest);
  }

  lemma CallBare(f: Expr, args: seq<Expr>, comma: bool, rest: seq<Tok>)
    ensures Bare(ECall(f, args, comma)) + rest
         == Print(f, POSTFIX) + ([LParen] + (PrintArgs(args, comma) + ([RParen] + rest)))
  {
    hide Print, PrintArgs;
  }

  lemma CallStep(f: Ast, t: seq<Tok>, args: seq<Ast>, rest: seq<Tok>)
    requires ParseArgs(t) == OkArgs(args, rest)
    ensures PostfixTail(f, [LParen] + t) == PostfixTail(FuncCall(f, args), rest)
  {
    hide ParseArgs, Parse;
    assert ([LParen] + t)[1..] == t;
  }

  lemma ArgsParse(xs: seq<Expr>, comma: bool, rest: seq<Tok>)
    requires forall i :: 0 <= i < |xs| ==> Proper(xs[i])
    ensures ParseArgs(PrintArgs(xs, comma) + ([RParen] + rest)) == OkArgs(DesugarAll(xs), rest)
    decreases xs
  {
    hide Print, Parse, Continue, ParseArgs, PrintArgs;
    var end := [RParen] + rest;
    ArgsBare(xs, comma, end);
    if xs == [] {
      NoArgs(rest);
    } else {
      var after := if |xs| == 1 && !comma then end else [B(CommaOp)] + (PrintArgs(xs[1..], comma) + end);
      PrintParse(xs[0], ASSIGN, after);
      NothingToContinue(ASSIGN, Desugar(xs[0]), after);
      NoColon(xs[0], ASSIGN, after);
      if |xs| == 1 && !comma {
        assert DesugarAll(xs[1..]) == [];
        LastArg(Print(xs[0], ASSIGN) + after, Desugar(xs[0]), rest);
      } else {
        ArgsParse(xs[1..], comma, rest);
        NextArg(Print(xs[0], ASSIGN) + after, Desugar(xs[0]), PrintArgs(xs[1..], comma) + end, DesugarAll(xs[1..]),
                rest);
      }
    }
  }

  lemma ArgsBare(xs: seq<Expr>, comma: bool, end: seq<Tok>)
    ensures PrintArgs(xs, comma) + end
         == if xs == [] then end
            else Print(xs[0], ASSIGN)
                 + if |xs| == 1 && !comma then end else [B(CommaOp)] + (PrintArgs(xs[1..], comma) + end)
  {
    hide Print;
  }

  lemma NoArgs(rest: seq<Tok>)
    ensures ParseArgs([RParen] + rest) == OkArgs([], rest)
  {
    hide Parse;
    assert ([RParen] + rest)[1..] == rest;
  }

  lemma LastArg(t: seq<Tok>, e: Ast, rest: seq<Tok>)
    requires Parse(ASSIGN, t) == Ok(e, [RParen] + rest) && !Starts(t, RParen)
    ensures ParseArgs(t) == OkArgs([e], rest)
  {
    hide Parse;
    assert ([RParen] + rest)[1..] == rest;
  }

  lemma NextArg(t: seq<Tok>, e: Ast, more: seq<Tok>, es: seq<Ast>, rest: seq<Tok>)
    requires Parse(ASSIGN, t) == Ok(e, [B(CommaOp)] + more) && !Starts(t, RParen)
    requires ParseArgs(more) == OkArgs(es, rest)
    ensures ParseArgs(t) == OkArgs([e] + es, rest)
  {
    hide Parse;
    assert ([B(CommaOp)] + more)[1..] == more;
  }

  /** Parsing a printed expression gives what it stands for and consumes exactly its tokens. */
  lemma RoundTrip(x: Expr, rest: seq<Tok>)
    requires Proper(x) && OpLevel(rest) < 0
    ensures Parse(COMMA, Print(x, COMMA) + rest) == Ok(Desugar(x), rest)
  {
    PrintParse(x, COMMA, rest);
    NothingToContinue(COMMA, Desugar(x), rest);
  }

  /** What was written can be told from the tokens alone. */
  lemma Unambiguous(x: Expr, y: Expr)
    requires Proper(x) && Proper(y) && Print(x, COMMA) == Print(y, COMMA)
    ensures Desugar(x) == Desugar(y)
  {
    RoundTrip(x, []);
    RoundTrip(y, []);
  }
}
