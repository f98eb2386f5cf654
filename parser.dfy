/** The recursive-descent parser of frontend/parser.ts: a token buffer and a
    cursor, two left-folding precedence levels and parenthesised groups. */
module Parser {
  import opened Wrappers
  import opened Chars
  import opened Ast
  import Lexer

  type Token = Lexer.Token

  /** What the parser throws. Reading the `type` of a token past the end of the
      buffer (the token is `undefined` there) is a TypeError: `UndefinedToken`. */
  datatype ParseError =
    | UnexpectedToken(token: Token)
    | ExpectedToken(found: Token, expected: Lexer.TokenType)
    | UndefinedToken
    | LexFailure(error: Lexer.LexError)

  /** A parse result and the position of the first token it did not consume. */
  datatype Parsed<T> = Parsed(value: T, next: nat)

  // ---------------------------------------------------------------------------
  // Helpers of the grammar

  /** `parseFloat` on a token's text: the decimal value of its leading digits. */
  function ParseFloat(s: string): real {
    DecimalValue(s[..RunEnd(s, 0, IsDigit)]) as real
  }

  function DigitValue(c: char): nat {
    if IsDigit(c) then c as nat - '0' as nat else 0
  }

  /** The number a string of decimal digits denotes. */
  function DecimalValue(s: string): nat {
    if s == [] then 0 else DecimalValue(s[..|s| - 1]) * 10 + DigitValue(s[|s| - 1])
  }

  /** `ADDICATIVE_OPERATORS` */
  predicate IsAdditive(k: Lexer.TokenType) {
    k == Lexer.Plus || k == Lexer.Minus
  }

  /** `MULTIPLICATIVE_OPERATORS` */
  predicate IsMultiplicative(k: Lexer.TokenType) {
    k == Lexer.Multiply || k == Lexer.Divide || k == Lexer.Modulo
  }

  /** Tokens left to read at `pos` (none once it is past the end). */
  function Remaining(toks: seq<Token>, pos: nat): nat {
    if pos < |toks| then |toks| - pos else 0
  }

  /** The shape every `tokenize` result has: the last token is EOF. */
  predicate EndsWithEof(toks: seq<Token>) {
    |toks| > 0 && toks[|toks| - 1].kind == Lexer.EOF
  }

  /** Neither a read past the end nor a result that stops past the last token. */
  predicate InBounds<T>(toks: seq<Token>, r: Result<Parsed<T>, ParseError>) {
    (r.Err? ==> r.error != UndefinedToken) && (r.Ok? ==> r.value.next < |toks|)
  }

  // ---------------------------------------------------------------------------
  // The grammar, read as functions of the buffer and the cursor position

  /** `parsePrimaryExpr`: an identifier, a number, or `( expr )`. */
  function Primary(toks: seq<Token>, pos: nat): (r: Result<Parsed<Node>, ParseError>)
    ensures r.Ok? ==> pos < r.value.next <= |toks|
    ensures EndsWithEof(toks) && pos < |toks| ==> InBounds(toks, r)
    decreases Remaining(toks, pos), 0
  {
    if pos >= |toks| then Err(UndefinedToken)
    else
      var at := toks[pos];
      if at.kind.Identifier? then Ok(Parsed(Identifier(at.value), pos + 1))
      else if at.kind.Number? then Ok(Parsed(NumbericLiteral(ParseFloat(at.value)), pos + 1))
      else if at.kind.OpenParen? then
        var inner :- Expr(toks, pos + 1);
        var close := inner.next;
        if close >= |toks| then Err(UndefinedToken)
        else if toks[close].kind != Lexer.CloseParen then Err(ExpectedToken(toks[close], Lexer.CloseParen))
        else Ok(Parsed(inner.value, close + 1))
      else Err(UnexpectedToken(at))
  }

  /** `parseMultiplicativeExpr`: a primary, then the `* / %` loop. */
  function Multiplicative(toks: seq<Token>, pos: nat): (r: Result<Parsed<Node>, ParseError>)
    ensures r.Ok? ==> pos < r.value.next < |toks|
    ensures EndsWithEof(toks) && pos < |toks| ==> InBounds(toks, r)
    decreases Remaining(toks, pos), 1
  {
    var left :- Primary(toks, pos);
    MulLoop(toks, left.value, left.next)
  }

  /** The `while` loop of `parseMultiplicativeExpr`, with `left` built so far. */
  function MulLoop(toks: seq<Token>, left: Node, pos: nat): (r: Result<Parsed<Node>, ParseError>)
    ensures r.Ok? ==> pos <= r.value.next < |toks|
    ensures EndsWithEof(toks) && pos < |toks| ==> InBounds(toks, r)
    decreases Remaining(toks, pos), 0
  {
    if pos >= |toks| then Err(UndefinedToken)
    else if IsMultiplicative(toks[pos].kind) then
      var right :- Primary(toks, pos + 1);
      MulLoop(toks, BinaryExpr(left, right.value, toks[pos].value), right.next)
    else Ok(Parsed(left, pos))
  }

  /** `parseAddicativeExpr`: a multiplicative operand, then the `+ -` loop. */
  function Additive(toks: seq<Token>, pos: nat): (r: Result<Parsed<Node>, ParseError>)
    ensures r.Ok? ==> pos < r.value.next < |toks|
    ensures EndsWithEof(toks) && pos < |toks| ==> InBounds(toks, r)
    decreases Remaining(toks, pos), 2
  {
    var left :- Multiplicative(toks, pos);
    AddLoop(toks, left.value, left.next)
  }

  /** The `while` loop of `parseAddicativeExpr`, with `left` built so far. */
  function AddLoop(toks: seq<Token>, left: Node, pos: nat): (r: Result<Parsed<Node>, ParseError>)
    ensures r.Ok? ==> pos <= r.value.next < |toks|
    ensures EndsWithEof(toks) && pos < |toks| ==> InBounds(toks, r)
    decreases Remaining(toks, pos), 0
  {
    if pos >= |toks| then Err(UndefinedToken)
    else if IsAdditive(toks[pos].kind) then
      var right :- Multiplicative(toks, pos + 1);
      AddLoop(toks, BinaryExpr(left, right.value, toks[pos].value), right.next)
    else Ok(Parsed(left, pos))
  }

  /** `parseExpr` (and `parseStmt`, which only calls it). */
  function Expr(toks: seq<Token>, pos: nat): (r: Result<Parsed<Node>, ParseError>)
    ensures r.Ok? ==> pos < r.value.next < |toks|
    ensures EndsWithEof(toks) && pos < |toks| ==> InBounds(toks, r)
    decreases Remaining(toks, pos), 3
  {
    Additive(toks, pos)
  }

  /** The statement loop of `produceAst`: statements until the token under the
      cursor is EOF. */
  function Program(toks: seq<Token>, pos: nat): (r: Result<Parsed<seq<Node>>, ParseError>)
    ensures r.Ok? ==> pos <= r.value.next < |toks| && toks[r.value.next].kind == Lexer.EOF
    ensures EndsWithEof(toks) && pos < |toks| ==> r.Err? ==> r.error != UndefinedToken
    decreases Remaining(toks, pos)
  {
    if pos >= |toks| then Err(UndefinedToken)
    else if toks[pos].kind == Lexer.EOF then Ok(Parsed([], pos))
    else
      var stmt :- Expr(toks, pos);
      var rest :- Program(toks, stmt.next);
      Ok(Parsed([stmt.value] + rest.value, rest.next))
  }

  function NodeOf(r: Result<Parsed<Node>, ParseError>): Result<Node, ParseError> {
    match r
    case Ok(p) => Ok(p.value)
    case Err(e) => Err(e)
  }

  function FileOf(r: Result<Parsed<seq<Node>>, ParseError>): Result<Node, ParseError> {
    match r
    case Ok(p) => Ok(File(p.value))
    case Err(e) => Err(e)
  }

  /** The statements already pushed, followed by those still to come. */
  function PrependStmts(stmts: seq<Node>, r: Result<Parsed<seq<Node>>, ParseError>): Result<Parsed<seq<Node>>, ParseError> {
    match r
    case Ok(p) => Ok(Parsed(stmts + p.value, p.next))
    case Err(e) => Err(e)
  }

  // ---------------------------------------------------------------------------
  // The parser object

  class Parser {
    var tokens: seq<Token>
    var cursor: nat

    constructor()
      ensures tokens == [] && cursor == 0
    {
      tokens := [];
      cursor := 0;
    }

    /** `at`: the token under the cursor, or nothing past the end of the buffer. */
    function At(): (t: Option<Token>)
      reads this
      ensures t.Some? <==> cursor < |tokens|
      ensures t.Some? ==> t.value == tokens[cursor]
    {
      if cursor < |tokens| then Some(tokens[cursor]) else None
    }

    /** `eat`: the token under the cursor; the cursor moves on even past the end. */
    method Eat() returns (t: Option<Token>)
      modifies this`cursor
      ensures t == old(At()) && cursor == old(cursor) + 1
    {
      t := At();
      cursor := cursor + 1;
    }

    /** `eatExpected`: eats one token and fails unless it has the expected kind. */
    method EatExpected(expected: Lexer.TokenType) returns (r: Result<(), ParseError>)
      modifies this`cursor
      ensures cursor == old(cursor) + 1
      ensures r.Ok? <==> old(cursor) < |tokens| && tokens[old(cursor)].kind == expected
      ensures r.Err? && old(cursor) < |tokens| ==> r.error == ExpectedToken(tokens[old(cursor)], expected)
      ensures r.Err? && old(cursor) >= |tokens| ==> r.error == UndefinedToken
    {
      var token := Eat();
      if token.None? {
        return Err(UndefinedToken);
      }
      if token.value.kind != expected {
        return Err(ExpectedToken(token.value, expected));
      }
      return Ok(());
    }

    /** `isEOF`: whether the token under the cursor is EOF (a TypeError past the end). */
    function IsEOF(): (r: Result<bool, ParseError>)
      reads this
      ensures r.Err? <==> cursor >= |tokens|
      ensures r.Ok? ==> (r.value <==> tokens[cursor].kind == Lexer.EOF)
    {
      if cursor < |tokens| then Ok(tokens[cursor].kind == Lexer.EOF) else Err(UndefinedToken)
    }

    /** `produceAst`: tokenizes the source into the buffer, then parses statements
        until EOF. The cursor is not reset, so parsing starts wherever the previous
        call left it. */
    method ProduceAst(source: string) returns (r: Result<Node, ParseError>)
      modifies this
      ensures Lexer.Lex(source).Err? ==>
        r == Err(LexFailure(Lexer.Lex(source).error)) && tokens == old(tokens) && cursor == old(cursor)
      ensures Lexer.Lex(source).Ok? ==>
        tokens == Lexer.Lex(source).value && r == FileOf(Program(tokens, old(cursor)))
        && (r.Ok? ==> cursor == Program(tokens, old(cursor)).value.next)
    {
      var lexed := Lexer.Tokenize(source);
      if lexed.Err? {
        return Err(LexFailure(lexed.error));
      }
      tokens := lexed.value;
      var stmts: seq<Node> := [];
      ghost var start := cursor;
      assert PrependStmts(stmts, Program(tokens, start)) == Program(tokens, start) by {
        if Program(tokens, start).Ok? {
          assert stmts + Program(tokens, start).value.value == Program(tokens, start).value.value;
        }
      }
      while true
        invariant tokens == lexed.value
        invariant Program(tokens, start) == PrependStmts(stmts, Program(tokens, cursor))
        decreases Remaining(tokens, cursor)
      {
        var eof :- IsEOF();
        if eof {
          break;
        }
        ghost var before := cursor;
        var stmt :- ParseStmt();
        StmtStep(tokens, start, stmts, before, stmt, cursor);
        stmts := stmts + [stmt];
      }
      assert stmts + [] == stmts;
      return Ok(File(stmts));
    }

    /** `parseStmt`: a statement is an expression. */
    method ParseStmt() returns (r: Result<Node, ParseError>)
      modifies this`cursor
      ensures r == NodeOf(Expr(tokens, old(cursor)))
      ensures r.Ok? ==> cursor == Expr(tokens, old(cursor)).value.next
      decreases Remaining(tokens, cursor), 5
    {
      r := ParseExpr();
    }

    /** `parseExpr`: an additive expression. */
    method ParseExpr() returns (r: Result<Node, ParseError>)
      modifies this`cursor
      ensures r == NodeOf(Expr(tokens, old(cursor)))
      ensures r.Ok? ==> cursor == Expr(tokens, old(cursor)).value.next
      decreases Remaining(tokens, cursor), 4
    {
      r := ParseAdditive();
    }

    /** `parseAddicativeExpr`: folds `+` and `-` to the left over multiplicative operands. */
    method ParseAdditive() returns (r: Result<Node, ParseError>)
      modifies this`cursor
      ensures r == NodeOf(Additive(tokens, old(cursor)))
      ensures r.Ok? ==> cursor == Additive(tokens, old(cursor)).value.next
      decreases Remaining(tokens, cursor), 3
    {
      ghost var start := cursor;
      var left :- ParseMultiplicative();
      while cursor < |tokens| && IsAdditive(tokens[cursor].kind)
        invariant start < cursor <= |tokens|
        invariant Additive(tokens, start) == AddLoop(tokens, left, cursor)
        decreases Remaining(tokens, cursor)
      {
        var op := Eat();
        var right :- ParseMultiplicative();
        left := BinaryExpr(left, right, op.value.value);
      }
      if cursor >= |tokens| {
        return Err(UndefinedToken);
      }
      return Ok(left);
    }

    /** `parseMultiplicativeExpr`: folds `*`, `/` and `%` to the left over primaries. */
    method ParseMultiplicative() returns (r: Result<Node, ParseError>)
      modifies this`cursor
      ensures r == NodeOf(Multiplicative(tokens, old(cursor)))
      ensures r.Ok? ==> cursor == Multiplicative(tokens, old(cursor)).value.next
      decreases Remaining(tokens, cursor), 2
    {
      ghost var start := cursor;
      var left :- ParsePrimary();
      while cursor < |tokens| && IsMultiplicative(tokens[cursor].kind)
        invariant start < cursor <= |tokens|
        invariant Multiplicative(tokens, start) == MulLoop(tokens, left, cursor)
        decreases Remaining(tokens, cursor)
      {
        var op := Eat();
        var right :- ParsePrimary();
        left := BinaryExpr(left, right, op.value.value);
      }
      if cursor >= |tokens| {
        return Err(UndefinedToken);
      }
      return Ok(left);
    }

    /** `parsePrimaryExpr`: dispatches on the kind of the token under the cursor. */
    method ParsePrimary() returns (r: Result<Node, ParseError>)
      modifies this`cursor
      ensures r == NodeOf(Primary(tokens, old(cursor)))
      ensures r.Ok? ==> cursor == Primary(tokens, old(cursor)).value.next
      decreases Remaining(tokens, cursor), 1
    {
      var at := At();
      if at.None? {
        return Err(UndefinedToken);
      }
      if at.value.kind.Identifier? {
        var t := Eat();
        return Ok(Identifier(t.value.value));
      } else if at.value.kind.Number? {
        var t := Eat();
        return Ok(NumbericLiteral(ParseFloat(t.value.value)));
      } else if at.value.kind.OpenParen? {
        var _ := Eat();
        var exprInParen :- ParseExpr();
        var closed :- EatExpected(Lexer.CloseParen);
        return Ok(exprInParen);
      } else {
        return Err(UnexpectedToken(at.value));
      }
    }
  }

  /** One pass of the statement loop re-establishes its invariant. */
  lemma StmtStep(toks: seq<Token>, start: nat, stmts: seq<Node>, pos: nat, stmt: Node, next: nat)
    requires pos < |toks| && toks[pos].kind != Lexer.EOF
    requires Expr(toks, pos) == Ok(Parsed(stmt, next))
    requires Program(toks, start) == PrependStmts(stmts, Program(toks, pos))
    ensures Program(toks, start) == PrependStmts(stmts + [stmt], Program(toks, next))
  {
    var rest := Program(toks, next);
    if rest.Ok? {
      assert stmts + ([stmt] + rest.value.value) == (stmts + [stmt]) + rest.value.value;
    }
  }
}
