/** The whole way as it runs: the parser's tree handed to the generator. */
module FunctionCompiler {
  import opened Options
  import opened Machine
  import opened Acceptance
  import opened Statements
  import opened ExprCode
  import P = ParserClass
  import G = GeneratorClass
  import opened CompilerCorrect
  import L = Lowering

  /** A function body is compiled exactly if nothing is wrong with its text, and then becomes the code the compiler
      theorems speak of. */
  method CompileFunc(body: Stmt, first: nat, frame: Frame, offset: int) returns (r: Option<Code>)
    ensures match L.Translate(body, first)
            case Rejected(_) => r == None
            case Function(_, _, _, _) => r == Some(Compiled(body, first, frame, offset))
    ensures r.Some? <==> Acceptable(body)
  {
    hide L.LayOut, Wrong;
    AcceptedIff(body, first);
    var node, labels, ret, tag := P.ParseFunc(body, first);
    if node.Failed? {
      return None;
    }
    var code, last := G.GenFuncBody(node.node, frame, labels, ret, offset, tag);
    return Some(code);
  }
}
