/** Source text to tokens to a tree to a value. Parsing is frontend/parser.ts's
    `produceAst` on a fresh parser, the way repl.ts uses it on each line. Passing
    the tree on to runtime/interpreter.ts's `evaluate` is this module's own step:
    no file of the program composes the two. */
module Pipeline {
  import opened Wrappers
  import opened Ast
  import opened Values
  import Lexer
  import Parser
  import PP = ParserProperties
  import Interpreter

  type Token = Lexer.Token

  /** `new Parser().produceAst(source)`, read as a function. */
  function ParseSource(source: string): Result<Node, Parser.ParseError> {
    match Lexer.Lex(source)
    case Err(e) => Err(Parser.LexFailure(e))
    case Ok(toks) => Parser.FileOf(Parser.Program(toks, 0))
  }

  /** A freshly constructed parser starts at the first token. */
  method ParseFresh(source: string) returns (r: Result<Node, Parser.ParseError>)
    ensures r == ParseSource(source)
  {
    var p := new Parser.Parser();
    r := p.ProduceAst(source);
  }

  datatype PipelineError =
    | ParseFailed(parse: Parser.ParseError)
    | EvalFailed(eval: Interpreter.EvalError)

  /** `evaluate(new Parser().produceAst(source))`. */
  function Run(source: string): Result<RuntimeValue, PipelineError> {
    match ParseSource(source)
    case Err(e) => Err(ParseFailed(e))
    case Ok(ast) =>
      match Interpreter.Evaluate(ast)
      case Ok(v) => Ok(v)
      case Err(e) => Err(EvalFailed(e))
  }

  // ---------------------------------------------------------------------------
  // As written: the parser's literal tag is not the evaluator's

  /** Every tree the parser builds throws when evaluated: its leftmost leaf is an
      `Identifier` or a `NumbericLiteral`, and the evaluator supports neither. */
  lemma {:induction false} ParsedTreeFails(e: Node)
    requires PP.ArithmeticOnly(e)
    ensures Interpreter.Evaluate(e) == Err(Interpreter.UnsupportedNode("Identifier"))
         || Interpreter.Evaluate(e) == Err(Interpreter.UnsupportedNode("NumbericLiteral"))
    decreases e
  {
    if e.BinaryExpr? {
      ParsedTreeFails(e.left);
      Interpreter.LeftOperandFirst(e.left, e.right, e.operator);
    }
  }

  /** The token buffers `tokenize` returns satisfy what the parser lemmas ask of them. */
  lemma LexedTokens(source: string)
    requires Lexer.Lex(source).Ok?
    ensures PP.LexerTokens(Lexer.Lex(source).value)
  {
    Lexer.LexTokensWellFormed(source);
  }

  /** Every source that parses to at least one statement fails to evaluate. */
  lemma RunFailsOnEveryStatement(source: string)
    requires ParseSource(source).Ok? && ParseSource(source).value.stmts != []
    ensures Run(source).Err? && Run(source).error.EvalFailed?
    ensures Run(source).error.eval == Interpreter.UnsupportedNode("Identifier")
         || Run(source).error.eval == Interpreter.UnsupportedNode("NumbericLiteral")
  {
    var toks := Lexer.Lex(source).value;
    LexedTokens(source);
    PP.ProgramArithmetic(toks, 0);
    var stmts := Parser.Program(toks, 0).value.value;
    assert ParseSource(source).value.stmts == stmts;
    ParsedTreeFails(stmts[0]);
    Interpreter.FileFirstError(stmts, 0);
  }

  // ---------------------------------------------------------------------------
  // Corrected: the parser's literals carry the evaluator's tag

  /** Every `NumbericLiteral` renamed to `NumericLiteral`; nothing else changes. */
  function Retag(e: Node): Node
    decreases e, 1
  {
    match e
    case File(stmts) => File(RetagAll(stmts))
    case BinaryExpr(l, r, op) => BinaryExpr(Retag(l), Retag(r), op)
    case NumbericLiteral(v) => NumericLiteral(v)
    case _ => e
  }

  function RetagAll(stmts: seq<Node>): (r: seq<Node>)
    ensures |r| == |stmts|
    ensures forall k :: 0 <= k < |stmts| ==> r[k] == Retag(stmts[k])
    decreases stmts
  {
    if stmts == [] then [] else [Retag(stmts[0])] + RetagAll(stmts[1..])
  }

  /** `evaluate` on the parsed tree with the evaluator's literal tag. */
  function RunCorrected(source: string): Result<RuntimeValue, PipelineError> {
    match ParseSource(source)
    case Err(e) => Err(ParseFailed(e))
    case Ok(ast) =>
      match Interpreter.Evaluate(Retag(ast))
      case Ok(v) => Ok(v)
      case Err(e) => Err(EvalFailed(e))
  }

  predicate HasIdentifier(e: Node) {
    match e
    case File(stmts) => exists k :: 0 <= k < |stmts| && HasIdentifier(stmts[k])
    case BinaryExpr(l, r, _) => HasIdentifier(l) || HasIdentifier(r)
    case Identifier(_) => true
    case _ => false
  }

  /** A retagged parser tree evaluates exactly when it names no identifier, and
      then to a number. */
  lemma {:induction false} RetaggedKind(e: Node)
    requires PP.ArithmeticOnly(e)
    ensures Interpreter.KindOf(Retag(e)) == if HasIdentifier(e) then None else Some(Interpreter.NumberKind)
    decreases e
  {
    if e.BinaryExpr? {
      RetaggedKind(e.left);
      RetaggedKind(e.right);
      PP.OperatorNodes(e.left, e.right);
      assert PP.OpKind(e.operator).Some?;
      OpKindIsOperator(e.operator);
    }
  }

  lemma OpKindIsOperator(op: string)
    requires PP.OpKind(op).Some?
    ensures Interpreter.IsOperator(op)
  {
  }

  /** The corrected pipeline: a parsed program evaluates exactly when none of its
      statements names an identifier; its value is then null for an empty program
      and a number otherwise. */
  lemma CorrectedRun(source: string)
    requires ParseSource(source).Ok?
    ensures var stmts := ParseSource(source).value.stmts;
      RunCorrected(source).Ok? <==> forall k :: 0 <= k < |stmts| ==> !HasIdentifier(stmts[k])
    ensures var stmts := ParseSource(source).value.stmts;
      RunCorrected(source).Ok? ==> (RunCorrected(source).value.NumberValue? <==> stmts != [])
  {
    var toks := Lexer.Lex(source).value;
    LexedTokens(source);
    PP.ProgramArithmetic(toks, 0);
    var stmts := Parser.Program(toks, 0).value.value;
    assert ParseSource(source).value == File(stmts);
    var retagged := RetagAll(stmts);
    forall k | 0 <= k < |stmts|
      ensures Interpreter.Evaluate(retagged[k]).Ok? <==> !HasIdentifier(stmts[k])
      ensures Interpreter.Evaluate(retagged[k]).Ok? ==> Interpreter.Evaluate(retagged[k]).value.NumberValue?
    {
      RetaggedKind(stmts[k]);
      Interpreter.KindPredictsEvaluation(retagged[k]);
    }
    Interpreter.FileEvaluation(retagged);
  }

  /** One expression followed by EOF is a one-statement program. */
  lemma OneStatement(toks: seq<Token>, pos: nat, e: Node, q: nat)
    requires pos < |toks| && toks[pos].kind != Lexer.EOF && Parser.Expr(toks, pos) == Ok(Parser.Parsed(e, q))
    requires q < |toks| && toks[q].kind == Lexer.EOF
    ensures Parser.Program(toks, pos) == Ok(Parser.Parsed([e], q))
  {
    assert Parser.Program(toks, q) == Ok(Parser.Parsed([], q));
    PP.ProgramStep(toks, pos, Parser.Parsed(e, q), Parser.Parsed([], q));
    assert [e] + [] == [e];
  }

  /** `x - y - z`, folded to the left, evaluates to `(x - y) - z` once retagged. */
  lemma DifferenceValue(stmts: seq<Node>, e: Node, x: real, y: real, z: real)
    requires e == BinaryExpr(BinaryExpr(NumbericLiteral(x), NumbericLiteral(y), "-"), NumbericLiteral(z), "-")
    requires stmts == [e]
    ensures Interpreter.Evaluate(Retag(File(stmts))) == Ok(NumberValue((x - y) - z))
  {
    var l := BinaryExpr(NumbericLiteral(x), NumbericLiteral(y), "-");
    assert Retag(l) == BinaryExpr(NumericLiteral(x), NumericLiteral(y), "-");
    assert Retag(e) == BinaryExpr(Retag(l), NumericLiteral(z), "-");
    Interpreter.NumberOperands(NumericLiteral(x), NumericLiteral(y), "-", x, y);
    Interpreter.NumberOperands(Retag(l), NumericLiteral(z), "-", x - y, z);
    assert RetagAll([e]) == [Retag(e)];
    Interpreter.FileEvaluation([Retag(e)]);
  }

  /** `x + y * z`, with the product as the right operand, evaluates to `x + y * z` once retagged. */
  lemma SumOfProductValue(stmts: seq<Node>, e: Node, x: real, y: real, z: real)
    requires e == BinaryExpr(NumbericLiteral(x), BinaryExpr(NumbericLiteral(y), NumbericLiteral(z), "*"), "+")
    requires stmts == [e]
    ensures Interpreter.Evaluate(Retag(File(stmts))) == Ok(NumberValue(x + y * z))
  {
    var r := BinaryExpr(NumbericLiteral(y), NumbericLiteral(z), "*");
    assert Retag(r) == BinaryExpr(NumericLiteral(y), NumericLiteral(z), "*");
    assert Retag(e) == BinaryExpr(NumericLiteral(x), Retag(r), "+");
    Interpreter.NumberOperands(NumericLiteral(y), NumericLiteral(z), "*", y, z);
    Interpreter.NumberOperands(NumericLiteral(x), Retag(r), "+", x, y * z);
    assert RetagAll([e]) == [Retag(e)];
    Interpreter.FileEvaluation([Retag(e)]);
  }

  /** The tokens of `x - y - z` are one statement, `(x - y) - z`. */
  lemma DifferenceParse(toks: seq<Token>)
    requires |toks| == 6 && PP.IsNumberToken(toks[0]) && toks[1] == PP.OpToken("-")
    requires PP.IsNumberToken(toks[2]) && toks[3] == PP.OpToken("-") && PP.IsNumberToken(toks[4])
    requires toks[5].kind == Lexer.EOF
    ensures Parser.Program(toks, 0)
         == Ok(Parser.Parsed([BinaryExpr(BinaryExpr(PP.Leaf(toks[0]), PP.Leaf(toks[2]), "-"), PP.Leaf(toks[4]), "-")], 5))
  {
    PP.LeftAssociative(toks);
    OneStatement(toks, 0, BinaryExpr(BinaryExpr(PP.Leaf(toks[0]), PP.Leaf(toks[2]), "-"), PP.Leaf(toks[4]), "-"), 5);
  }

  /** The tokens of `x + y * z` are one statement, `x + (y * z)`. */
  lemma SumOfProductParse(toks: seq<Token>)
    requires |toks| == 6 && PP.IsNumberToken(toks[0]) && toks[1] == PP.OpToken("+")
    requires PP.IsNumberToken(toks[2]) && toks[3] == PP.OpToken("*") && PP.IsNumberToken(toks[4])
    requires toks[5].kind == Lexer.EOF
    ensures Parser.Program(toks, 0)
         == Ok(Parser.Parsed([BinaryExpr(PP.Leaf(toks[0]), BinaryExpr(PP.Leaf(toks[2]), PP.Leaf(toks[4]), "*"), "+")], 5))
  {
    PP.ProductBindsTighter(toks);
    OneStatement(toks, 0, BinaryExpr(PP.Leaf(toks[0]), BinaryExpr(PP.Leaf(toks[2]), PP.Leaf(toks[4]), "*"), "+"), 5);
  }

  /** `8 - 3 - 2` is 3 on the corrected pipeline: the subtractions fold to the left.
      `x`, `y` and `z` are the values of the three number tokens. */
  lemma SubtractionFoldsLeft(toks: seq<Token>, x: real, y: real, z: real)
    requires |toks| == 6 && PP.IsNumberToken(toks[0]) && toks[1] == PP.OpToken("-")
    requires PP.IsNumberToken(toks[2]) && toks[3] == PP.OpToken("-") && PP.IsNumberToken(toks[4])
    requires toks[5].kind == Lexer.EOF
    requires x == Parser.ParseFloat(toks[0].value) && y == Parser.ParseFloat(toks[2].value) && z == Parser.ParseFloat(toks[4].value)
    ensures Parser.Program(toks, 0).Ok?
    ensures Interpreter.Evaluate(Retag(File(Parser.Program(toks, 0).value.value))) == Ok(NumberValue((x - y) - z))
  {
    DifferenceParse(toks);
    var e := BinaryExpr(BinaryExpr(NumbericLiteral(x), NumbericLiteral(y), "-"), NumbericLiteral(z), "-");
    DifferenceValue(Parser.Program(toks, 0).value.value, e, x, y, z);
  }

  /** `2 + 3 * 4` is 14 on the corrected pipeline: the product is taken first. */
  lemma ProductFirst(toks: seq<Token>, x: real, y: real, z: real)
    requires |toks| == 6 && PP.IsNumberToken(toks[0]) && toks[1] == PP.OpToken("+")
    requires PP.IsNumberToken(toks[2]) && toks[3] == PP.OpToken("*") && PP.IsNumberToken(toks[4])
    requires toks[5].kind == Lexer.EOF
    requires x == Parser.ParseFloat(toks[0].value) && y == Parser.ParseFloat(toks[2].value) && z == Parser.ParseFloat(toks[4].value)
    ensures Parser.Program(toks, 0).Ok?
    ensures Interpreter.Evaluate(Retag(File(Parser.Program(toks, 0).value.value))) == Ok(NumberValue(x + y * z))
  {
    SumOfProductParse(toks);
    var e := BinaryExpr(NumbericLiteral(x), BinaryExpr(NumbericLiteral(y), NumbericLiteral(z), "*"), "+");
    SumOfProductValue(Parser.Program(toks, 0).value.value, e, x, y, z);
  }

  // ---------------------------------------------------------------------------
  // Text round trip and the cursor

  lemma {:induction false} ProgramTokensWellFormed(stmts: seq<Node>)
    requires forall k :: 0 <= k < |stmts| ==> PP.Printable(stmts[k])
    ensures PP.AllWellFormed(PP.PrintProgram(stmts))
    decreases |stmts|
  {
    if stmts != [] {
      PP.PrintedTokensWellFormed(stmts[0]);
      ProgramTokensWellFormed(stmts[1..]);
      PP.AllWellFormedCat(PP.PrintAdd(stmts[0]), PP.PrintProgram(stmts[1..]));
    }
  }

  /** Printing a program's statements as text, one space after each token, and
      parsing that text on a fresh parser gives back the same statements. */
  lemma TextRoundTrip(stmts: seq<Node>)
    requires forall k :: 0 <= k < |stmts| ==> PP.Printable(stmts[k])
    ensures ParseSource(Lexer.Spell(PP.PrintProgram(stmts))) == Ok(File(stmts))
  {
    var ts := PP.PrintProgram(stmts);
    ProgramTokensWellFormed(stmts);
    Lexer.LexSpelled(ts);
    PP.ParsePrintedProgram(stmts);
  }

  /** A reused parser keeps its cursor: after `a` is parsed the cursor sits on
      index 1, so parsing `b c` next starts at `c` and drops `b`. */
  method StaleCursor(a: Token, b: Token, c: Token) returns (first: Result<Node, Parser.ParseError>, second: Result<Node, Parser.ParseError>)
    requires Lexer.WellFormed(a) && Lexer.WellFormed(b) && Lexer.WellFormed(c)
    requires PP.IsNumberToken(a) && PP.IsNumberToken(b) && PP.IsNumberToken(c)
    ensures first == Ok(File([PP.Leaf(a)]))
    ensures second == Ok(File([PP.Leaf(c)]))
  {
    var p := new Parser.Parser();
    Lexer.LexSpelled([a]);
    var toks1 := [a] + [Lexer.EofToken];
    SingleNumber(toks1, 0);
    first := p.ProduceAst(Lexer.Spell([a]));
    Lexer.LexSpelled([b, c]);
    var toks2 := [b, c] + [Lexer.EofToken];
    SingleNumber(toks2, 1);
    second := p.ProduceAst(Lexer.Spell([b, c]));
  }

  /** A number token followed by EOF is a one-statement program. */
  lemma SingleNumber(toks: seq<Token>, pos: nat)
    requires pos + 1 < |toks| && PP.IsNumberToken(toks[pos]) && toks[pos + 1].kind == Lexer.EOF
    ensures Parser.Program(toks, pos) == Ok(Parser.Parsed([PP.Leaf(toks[pos])], pos + 1))
  {
    PP.LeafAt(toks, pos);
    PP.ExprReads(toks, pos, PP.Leaf(toks[pos]));
    OneStatement(toks, pos, PP.Leaf(toks[pos]), pos + 1);
  }
}
