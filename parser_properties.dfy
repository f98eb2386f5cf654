/** What the grammar of frontend/parser.ts guarantees: precedence and left
    association (through a printer that the parser inverts), arithmetic
    operators only, the literal values, the error cases and where the cursor stops. */
module ParserProperties {
  import opened Wrappers
  import opened Chars
  import opened Ast
  import opened Parser
  import Lexer

  // ---------------------------------------------------------------------------
  // Numbers: `parseFloat` inverts decimal printing

  /** The decimal digits of `n`, most significant first. */
  function Digits(n: nat): (s: string)
    ensures s != [] && forall k :: 0 <= k < |s| ==> IsDigit(s[k])
  {
    var d := [(n % 10) as char + '0'];
    if n < 10 then d else Digits(n / 10) + d
  }

  lemma {:induction false} DecimalValueOfDigits(n: nat)
    ensures DecimalValue(Digits(n)) == n
  {
    var s := Digits(n);
    assert s[..|s| - 1] == if n < 10 then [] else Digits(n / 10);
    if n >= 10 {
      DecimalValueOfDigits(n / 10);
    }
  }

  /** `parseFloat` of a digit string is the number it denotes; in particular it
      gives back any natural number from its decimal digits. */
  lemma ParseFloatOfDigits(s: string)
    requires forall k :: 0 <= k < |s| ==> IsDigit(s[k])
    ensures ParseFloat(s) == DecimalValue(s) as real
  {
    RunEndUnique(s, 0, |s|, IsDigit);
    assert s[..|s|] == s;
  }

  lemma ParseFloatOfNat(n: nat)
    ensures ParseFloat(Digits(n)) == n as real
  {
    ParseFloatOfDigits(Digits(n));
    DecimalValueOfDigits(n);
  }

  // ---------------------------------------------------------------------------
  // The printer

  /** The token kind of an operator string, if it is one of the five. */
  function OpKind(op: string): Option<Lexer.TokenType> {
    if |op| != 1 then None
    else
      match op[0]
      case '+' => Some(Lexer.Plus)
      case '-' => Some(Lexer.Minus)
      case '*' => Some(Lexer.Multiply)
      case '/' => Some(Lexer.Divide)
      case '%' => Some(Lexer.Modulo)
      case _ => None
  }

  predicate IsNatReal(v: real) {
    0.0 <= v && v == v.Floor as real
  }

  /** An identifier the lexer reads back as one: letters, and not a keyword. */
  predicate IsIdentifierName(name: string) {
    name != [] && (forall k :: 0 <= k < |name| ==> IsAlpha(name[k]))
    && Lexer.KindOfWord(name) == Lexer.Identifier
  }

  /** The expressions the parser can build from lexer output: identifiers,
      natural-number literals, and the five arithmetic operators. */
  predicate Printable(e: Node) {
    match e
    case Identifier(name) => IsIdentifierName(name)
    case NumbericLiteral(v) => IsNatReal(v)
    case BinaryExpr(l, r, op) => OpKind(op).Some? && Printable(l) && Printable(r)
    case _ => false
  }

  predicate IsAdditiveNode(e: Node) {
    e.BinaryExpr? && OpKind(e.operator).Some? && IsAdditive(OpKind(e.operator).value)
  }

  predicate IsMultiplicativeNode(e: Node) {
    e.BinaryExpr? && OpKind(e.operator).Some? && IsMultiplicative(OpKind(e.operator).value)
  }

  function OpToken(op: string): Token
    requires OpKind(op).Some?
  {
    Lexer.Token(op, OpKind(op).value)
  }

  const OpenToken := Lexer.Token("(", Lexer.OpenParen)
  const CloseToken := Lexer.Token(")", Lexer.CloseParen)

  /** Tokens of `e` in additive position: no parentheses around `+`/`-` chains on
      the left, parentheses only where the grammar needs them. */
  function PrintAdd(e: Node): seq<Token>
    decreases e, 2
  {
    if IsAdditiveNode(e) then PrintAdd(e.left) + [OpToken(e.operator)] + PrintMul(e.right)
    else PrintMul(e)
  }

  function PrintMul(e: Node): seq<Token>
    decreases e, 1
  {
    if IsMultiplicativeNode(e) then PrintMul(e.left) + [OpToken(e.operator)] + PrintPrimary(e.right)
    else PrintPrimary(e)
  }

  function PrintPrimary(e: Node): seq<Token>
    decreases e, 0
  {
    match e
    case Identifier(name) => [Lexer.Token(name, Lexer.Identifier)]
    case NumbericLiteral(v) => [Lexer.Token(Digits(if v.Floor < 0 then 0 else v.Floor), Lexer.Number)]
    case BinaryExpr(l, r, op) =>
      [OpenToken]
      + (if IsAdditiveNode(e) then PrintAdd(l) + [OpToken(op)] + PrintMul(r)
         else if IsMultiplicativeNode(e) then PrintMul(l) + [OpToken(op)] + PrintPrimary(r)
         else [])
      + [CloseToken]
    case _ => []
  }

  /** A program: its statements' tokens one after another. */
  function PrintProgram(stmts: seq<Node>): seq<Token> {
    if stmts == [] then [] else PrintAdd(stmts[0]) + PrintProgram(stmts[1..])
  }

  // ---------------------------------------------------------------------------
  // Shape of the printed tokens

  /** `ts` sits in `toks` from position `pos` on. */
  predicate OccursAt(toks: seq<Token>, pos: nat, ts: seq<Token>) {
    pos + |ts| <= |toks| && toks[pos..pos + |ts|] == ts
  }

  lemma OccursSplit(toks: seq<Token>, pos: nat, a: seq<Token>, b: seq<Token>)
    requires OccursAt(toks, pos, a + b)
    ensures OccursAt(toks, pos, a) && OccursAt(toks, pos + |a|, b)
  {
    assert forall k :: 0 <= k < |a| ==> (a + b)[k] == a[k];
    assert forall k :: 0 <= k < |b| ==> (a + b)[|a| + k] == b[k];
  }

  lemma OccursWrapped(toks: seq<Token>, pos: nat, x: Token, a: seq<Token>, y: Token)
    requires OccursAt(toks, pos, [x] + a + [y])
    ensures toks[pos] == x && OccursAt(toks, pos + 1, a) && toks[pos + 1 + |a|] == y
  {
    var w := [x] + a + [y];
    assert w[0] == x && w[1 + |a|] == y;
    assert toks[pos + 0] == w[0] && toks[pos + (1 + |a|)] == w[1 + |a|];
    forall k | 0 <= k < |a|
      ensures toks[pos + 1 + k] == a[k]
    {
      assert w[1 + k] == a[k];
      assert toks[pos + (1 + k)] == w[1 + k];
    }
  }

  lemma OccursInfix(toks: seq<Token>, pos: nat, a: seq<Token>, t: Token, b: seq<Token>)
    requires OccursAt(toks, pos, a + [t] + b)
    ensures OccursAt(toks, pos, a) && toks[pos + |a|] == t && OccursAt(toks, pos + |a| + 1, b)
  {
    var w := a + [t] + b;
    assert w[|a|] == t;
    assert toks[pos + |a|] == w[|a|];
    assert forall k :: 0 <= k < |a| ==> w[k] == a[k];
    forall k | 0 <= k < |b|
      ensures toks[pos + |a| + 1 + k] == b[k]
    {
      assert w[|a| + 1 + k] == b[k];
      assert toks[pos + (|a| + 1 + k)] == w[|a| + 1 + k];
    }
  }

  /** `OccursInfix` with the operator position named by the caller. */
  lemma OccursInfixAt(toks: seq<Token>, pos: nat, a: seq<Token>, t: Token, b: seq<Token>, q: nat)
    requires OccursAt(toks, pos, a + [t] + b) && q == pos + |a|
    ensures OccursAt(toks, pos, a) && q < |toks| && toks[q] == t && OccursAt(toks, q + 1, b)
  {
    OccursInfix(toks, pos, a, t, b);
  }

  /** A printable operator node is additive or multiplicative, never both. */
  lemma BinaryLevels(e: Node)
    requires Printable(e) && e.BinaryExpr?
    ensures IsAdditiveNode(e) != IsMultiplicativeNode(e)
  {
  }

  lemma PrintOfBinary(e: Node)
    requires Printable(e) && e.BinaryExpr?
    ensures IsAdditiveNode(e) ==>
      PrintAdd(e) == PrintAdd(e.left) + [OpToken(e.operator)] + PrintMul(e.right)
    ensures IsMultiplicativeNode(e) ==>
      PrintAdd(e) == PrintMul(e) == PrintMul(e.left) + [OpToken(e.operator)] + PrintPrimary(e.right)
    ensures IsAdditiveNode(e) ==> PrintMul(e) == PrintPrimary(e)
    ensures PrintPrimary(e) == [OpenToken] + PrintAdd(e) + [CloseToken]
  {
    BinaryLevels(e);
  }

  // One unfolding of each parse function, used step by step below.

  lemma AdditiveStart(toks: seq<Token>, pos: nat)
    requires Multiplicative(toks, pos).Ok?
    ensures var m := Multiplicative(toks, pos).value; Additive(toks, pos) == AddLoop(toks, m.value, m.next)
  {
  }

  lemma AddLoopStep(toks: seq<Token>, left: Node, pos: nat)
    requires pos < |toks| && IsAdditive(toks[pos].kind) && Multiplicative(toks, pos + 1).Ok?
    ensures var m := Multiplicative(toks, pos + 1).value;
      AddLoop(toks, left, pos) == AddLoop(toks, BinaryExpr(left, m.value, toks[pos].value), m.next)
  {
  }

  lemma AddLoopStop(toks: seq<Token>, left: Node, pos: nat)
    requires pos < |toks| && !IsAdditive(toks[pos].kind)
    ensures AddLoop(toks, left, pos) == Ok(Parsed(left, pos))
  {
  }

  lemma MultiplicativeStart(toks: seq<Token>, pos: nat)
    requires Primary(toks, pos).Ok?
    ensures var p := Primary(toks, pos).value; Multiplicative(toks, pos) == MulLoop(toks, p.value, p.next)
  {
  }

  lemma MulLoopStep(toks: seq<Token>, left: Node, pos: nat)
    requires pos < |toks| && IsMultiplicative(toks[pos].kind) && Primary(toks, pos + 1).Ok?
    ensures var p := Primary(toks, pos + 1).value;
      MulLoop(toks, left, pos) == MulLoop(toks, BinaryExpr(left, p.value, toks[pos].value), p.next)
  {
  }

  lemma MulLoopStop(toks: seq<Token>, left: Node, pos: nat)
    requires pos < |toks| && !IsMultiplicative(toks[pos].kind)
    ensures MulLoop(toks, left, pos) == Ok(Parsed(left, pos))
  {
  }

  lemma PrimaryParen(toks: seq<Token>, pos: nat)
    requires pos < |toks| && toks[pos].kind == Lexer.OpenParen && Expr(toks, pos + 1).Ok?
    requires var c := Expr(toks, pos + 1).value.next; toks[c].kind == Lexer.CloseParen
    ensures var inner := Expr(toks, pos + 1).value; Primary(toks, pos) == Ok(Parsed(inner.value, inner.next + 1))
  {
  }

  /** A printed expression starts with an operand token, never an operator or EOF. */
  predicate Opens(t: Token) {
    t.kind == Lexer.Identifier || t.kind == Lexer.Number || t.kind == Lexer.OpenParen
  }

  lemma {:induction false} PrintStartsWithOperand(e: Node)
    requires Printable(e)
    ensures PrintAdd(e) != [] && Opens(PrintAdd(e)[0])
    ensures PrintMul(e) != [] && Opens(PrintMul(e)[0])
    decreases e
  {
    match e
    case BinaryExpr(l, r, op) =>
      PrintStartsWithOperand(l);
      if IsAdditiveNode(e) {
        assert PrintAdd(e)[0] == PrintAdd(l)[0];
        assert PrintMul(e) == PrintPrimary(e);
      } else {
        assert PrintMul(e)[0] == PrintMul(l)[0];
      }
    case _ =>
  }

  predicate AllWellFormed(ts: seq<Token>) {
    forall k :: 0 <= k < |ts| ==> Lexer.WellFormed(ts[k])
  }

  lemma AllWellFormedCat(a: seq<Token>, b: seq<Token>)
    requires AllWellFormed(a) && AllWellFormed(b)
    ensures AllWellFormed(a + b)
  {
    assert forall k :: 0 <= k < |a| ==> (a + b)[k] == a[k];
    assert forall k :: |a| <= k < |a + b| ==> (a + b)[k] == b[k - |a|];
  }

  lemma WellFormedInfix(a: seq<Token>, t: Token, b: seq<Token>)
    requires AllWellFormed(a) && Lexer.WellFormed(t) && AllWellFormed(b)
    ensures AllWellFormed(a + [t] + b)
  {
    AllWellFormedCat(a, [t]);
    AllWellFormedCat(a + [t], b);
  }

  lemma WellFormedWrapped(a: seq<Token>)
    requires AllWellFormed(a)
    ensures AllWellFormed([OpenToken] + a + [CloseToken])
  {
    assert Lexer.WellFormed(OpenToken) && Lexer.WellFormed(CloseToken);
    WellFormedInfix([], OpenToken, a);
    assert [] + [OpenToken] + a == [OpenToken] + a;
    AllWellFormedCat([OpenToken] + a, [CloseToken]);
  }

  lemma OpTokenWellFormed(op: string)
    requires OpKind(op).Some?
    ensures Lexer.WellFormed(OpToken(op))
  {
  }

  /** Every printed token is one the lexer produces. */
  lemma {:induction false} PrintedTokensWellFormed(e: Node)
    requires Printable(e)
    ensures AllWellFormed(PrintAdd(e)) && AllWellFormed(PrintMul(e)) && AllWellFormed(PrintPrimary(e))
    decreases e
  {
    if e.BinaryExpr? {
      PrintedTokensWellFormed(e.left);
      PrintedTokensWellFormed(e.right);
      OpTokenWellFormed(e.operator);
      PrintOfBinary(e);
      if IsAdditiveNode(e) {
        WellFormedInfix(PrintAdd(e.left), OpToken(e.operator), PrintMul(e.right));
      } else {
        WellFormedInfix(PrintMul(e.left), OpToken(e.operator), PrintPrimary(e.right));
      }
      WellFormedWrapped(PrintAdd(e));
    } else {
      assert PrintAdd(e) == PrintMul(e) == PrintPrimary(e);
      assert Lexer.WellFormed(PrintPrimary(e)[0]);
    }
  }

  // ---------------------------------------------------------------------------
  // Token layouts: where the tokens of an expression sit in the buffer
  //
  // `AddAt(toks, pos, e)` says that the tokens from `pos` on spell `e` the way
  // `parseAddicativeExpr` reads it (and `MulAt`, `PrimAt` likewise for the lower
  // levels); `AddSize(e)` is how many tokens that takes. The grammar lemmas below
  // read a layout back; the printer lemmas after them show that a printed
  // expression is such a layout.

  function AddSize(e: Node): nat
    decreases e, if IsMultiplicativeNode(e) then 3 else 2
  {
    if IsAdditiveNode(e) then AddSize(e.left) + 1 + MulSize(e.right) else MulSize(e)
  }

  function MulSize(e: Node): nat
    decreases e, if IsAdditiveNode(e) then 4 else 1
  {
    if IsMultiplicativeNode(e) then MulSize(e.left) + 1 + PrimSize(e.right) else PrimSize(e)
  }

  function PrimSize(e: Node): nat
    decreases e, if IsAdditiveNode(e) then 3 else if IsMultiplicativeNode(e) then 4 else 0
  {
    if IsAdditiveNode(e) || IsMultiplicativeNode(e) then AddSize(e) + 2 else 1
  }

  /** A `+ -` chain: its left operand, the operator token, then a multiplicative
      right operand. */
  predicate AddAt(toks: seq<Token>, pos: nat, e: Node)
    decreases e, if IsMultiplicativeNode(e) then 3 else 2
  {
    if IsAdditiveNode(e) then
      var q := pos + AddSize(e.left);
      AddAt(toks, pos, e.left) && q < |toks| && IsAdditive(toks[q].kind)
      && toks[q].value == e.operator && MulAt(toks, q + 1, e.right)
    else MulAt(toks, pos, e)
  }

  /** A `* / %` chain: its left operand, the operator token, then a primary right
      operand. */
  predicate MulAt(toks: seq<Token>, pos: nat, e: Node)
    decreases e, if IsAdditiveNode(e) then 4 else 1
  {
    if IsMultiplicativeNode(e) then
      var q := pos + MulSize(e.left);
      MulAt(toks, pos, e.left) && q < |toks| && IsMultiplicative(toks[q].kind)
      && toks[q].value == e.operator && PrimAt(toks, q + 1, e.right)
    else PrimAt(toks, pos, e)
  }

  /** An identifier token, a number token denoting the literal, or a parenthesised
      operator expression. */
  predicate PrimAt(toks: seq<Token>, pos: nat, e: Node)
    decreases e, if IsAdditiveNode(e) then 3 else if IsMultiplicativeNode(e) then 4 else 0
  {
    pos < |toks| &&
    match e
    case Identifier(name) => toks[pos] == Lexer.Token(name, Lexer.Identifier)
    case NumbericLiteral(v) => toks[pos].kind == Lexer.Number && ParseFloat(toks[pos].value) == v
    case BinaryExpr(_, _, _) =>
      (IsAdditiveNode(e) || IsMultiplicativeNode(e)) && toks[pos].kind == Lexer.OpenParen
      && AddAt(toks, pos + 1, e) && pos + 1 + AddSize(e) < |toks|
      && toks[pos + 1 + AddSize(e)].kind == Lexer.CloseParen
    case _ => false
  }

  /** Statements laid out one after another, then EOF. */
  predicate ProgramAt(toks: seq<Token>, pos: nat, stmts: seq<Node>)
    decreases |stmts|
  {
    if stmts == [] then pos < |toks| && toks[pos].kind == Lexer.EOF
    else AddAt(toks, pos, stmts[0]) && ProgramAt(toks, pos + AddSize(stmts[0]), stmts[1..])
  }

  function ProgramSize(stmts: seq<Node>): nat {
    if stmts == [] then 0 else AddSize(stmts[0]) + ProgramSize(stmts[1..])
  }

  // ---------------------------------------------------------------------------
  // The grammar reads a layout back

  lemma {:induction false} PrimaryReads(toks: seq<Token>, pos: nat, e: Node)
    requires PrimAt(toks, pos, e)
    ensures Primary(toks, pos) == Ok(Parsed(e, pos + PrimSize(e)))
    decreases e, if IsAdditiveNode(e) then 4 else if IsMultiplicativeNode(e) then 5 else 0
  {
    if e.BinaryExpr? {
      ExprReads(toks, pos + 1, e);
      PrimaryParen(toks, pos);
    }
  }

  /** Precedence and left association, on any buffer: a layout of `e` followed by a
      token that is not an operator parses to exactly `e` and stops after it. */
  lemma {:induction false} ExprReads(toks: seq<Token>, pos: nat, e: Node)
    requires AddAt(toks, pos, e)
    requires var q := pos + AddSize(e);
      q < |toks| && !IsAdditive(toks[q].kind) && !IsMultiplicative(toks[q].kind)
    ensures Expr(toks, pos) == Ok(Parsed(e, pos + AddSize(e)))
    decreases e, if IsAdditiveNode(e) then 3 else 4
  {
    AddReads(toks, pos, e);
    AddLoopStop(toks, e, pos + AddSize(e));
  }

  /** One level of a `+ -` layout: left operand, operator token, right operand. */
  lemma AddAtElim(toks: seq<Token>, pos: nat, e: Node, q1: nat)
    requires IsAdditiveNode(e) && AddAt(toks, pos, e) && q1 == pos + AddSize(e.left)
    ensures AddAt(toks, pos, e.left) && MulAt(toks, q1 + 1, e.right)
    ensures q1 < |toks| && IsAdditive(toks[q1].kind) && !IsMultiplicative(toks[q1].kind)
    ensures toks[q1].value == e.operator
    ensures pos + AddSize(e) == q1 + 1 + MulSize(e.right)
  {
    AddAtOperator(toks, pos, e, q1);
  }

  /** The operator token of a `+ -` layout. */
  lemma AddAtOperator(toks: seq<Token>, pos: nat, e: Node, q1: nat)
    requires IsAdditiveNode(e) && AddAt(toks, pos, e) && q1 == pos + AddSize(e.left)
    ensures q1 < |toks| && IsAdditive(toks[q1].kind) && !IsMultiplicative(toks[q1].kind)
    ensures toks[q1].value == e.operator
  {
  }

  /** One level of a `* / %` layout: left operand, operator token, right operand. */
  lemma MulAtElim(toks: seq<Token>, pos: nat, e: Node, q1: nat)
    requires IsMultiplicativeNode(e) && MulAt(toks, pos, e) && q1 == pos + MulSize(e.left)
    ensures MulAt(toks, pos, e.left) && PrimAt(toks, q1 + 1, e.right)
    ensures q1 < |toks| && IsMultiplicative(toks[q1].kind) && toks[q1].value == e.operator
  {
    MulAtOperator(toks, pos, e, q1);
  }

  /** The operator token of a `* / %` layout. */
  lemma MulAtOperator(toks: seq<Token>, pos: nat, e: Node, q1: nat)
    requires IsMultiplicativeNode(e) && MulAt(toks, pos, e) && q1 == pos + MulSize(e.left)
    ensures q1 < |toks| && IsMultiplicative(toks[q1].kind) && toks[q1].value == e.operator
  {
  }

  lemma MulSizeSplit(e: Node)
    requires IsMultiplicativeNode(e)
    ensures MulSize(e) == MulSize(e.left) + 1 + PrimSize(e.right)
  {
  }

  /** One turn of the additive loop, once the right operand of `e` has been read. */
  lemma AddLoopJoin(toks: seq<Token>, e: Node, q1: nat, q: nat)
    requires e.BinaryExpr?
    requires q1 < |toks| && IsAdditive(toks[q1].kind) && toks[q1].value == e.operator
    requires Multiplicative(toks, q1 + 1) == MulLoop(toks, e.right, q)
    requires q < |toks| && !IsMultiplicative(toks[q].kind)
    ensures AddLoop(toks, e.left, q1) == AddLoop(toks, e, q)
  {
    MulLoopStop(toks, e.right, q);
    AddLoopStep(toks, e.left, q1);
    assert BinaryExpr(e.left, e.right, toks[q1].value) == e;
  }

  /** One turn of the multiplicative loop, once the right operand of `e` has been read. */
  lemma MulLoopJoin(toks: seq<Token>, e: Node, q1: nat, q: nat)
    requires e.BinaryExpr?
    requires q1 < |toks| && IsMultiplicative(toks[q1].kind) && toks[q1].value == e.operator
    requires Primary(toks, q1 + 1) == Ok(Parsed(e.right, q))
    ensures MulLoop(toks, e.left, q1) == MulLoop(toks, e, q)
  {
    MulLoopStep(toks, e.left, q1);
    assert BinaryExpr(e.left, e.right, toks[q1].value) == e;
  }

  /** Reading a `+ -` layout leaves the additive loop with `e` built so far. */
  lemma {:induction false} AddReads(toks: seq<Token>, pos: nat, e: Node)
    requires AddAt(toks, pos, e)
    requires pos + AddSize(e) < |toks| && !IsMultiplicative(toks[pos + AddSize(e)].kind)
    ensures Additive(toks, pos) == AddLoop(toks, e, pos + AddSize(e))
    decreases e, if IsAdditiveNode(e) then 2 else 3
  {
    if IsAdditiveNode(e) {
      AddReadsOperator(toks, pos, e);
    } else {
      var q := pos + AddSize(e);
      MulReads(toks, pos, e);
      MulLoopStop(toks, e, q);
      AdditiveStart(toks, pos);
    }
  }

  /** The `+ -` case of `AddReads`: the left operand, then one more loop turn. */
  lemma {:induction false} AddReadsOperator(toks: seq<Token>, pos: nat, e: Node)
    requires IsAdditiveNode(e) && AddAt(toks, pos, e)
    requires pos + AddSize(e) < |toks| && !IsMultiplicative(toks[pos + AddSize(e)].kind)
    ensures Additive(toks, pos) == AddLoop(toks, e, pos + AddSize(e))
    decreases e, 1
  {
    var q1 := pos + AddSize(e.left);
    AddReadsRight(toks, pos, e, q1);
    AddReads(toks, pos, e.left);
    AddLoopJoin(toks, e, q1, pos + AddSize(e));
  }

  /** The right operand of a `+ -` layout, read by the multiplicative level. */
  lemma {:induction false} AddReadsRight(toks: seq<Token>, pos: nat, e: Node, q1: nat)
    requires IsAdditiveNode(e) && AddAt(toks, pos, e) && q1 == pos + AddSize(e.left)
    requires pos + AddSize(e) < |toks|
    ensures AddAt(toks, pos, e.left)
    ensures q1 < |toks| && IsAdditive(toks[q1].kind) && !IsMultiplicative(toks[q1].kind)
    ensures toks[q1].value == e.operator
    ensures Multiplicative(toks, q1 + 1) == MulLoop(toks, e.right, pos + AddSize(e))
    decreases e, 0
  {
    AddAtElim(toks, pos, e, q1);
    MulReads(toks, q1 + 1, e.right);
  }

  /** Reading a `* / %` layout leaves the multiplicative loop with `e` built so far. */
  lemma {:induction false} MulReads(toks: seq<Token>, pos: nat, e: Node)
    requires MulAt(toks, pos, e) && pos + MulSize(e) < |toks|
    ensures Multiplicative(toks, pos) == MulLoop(toks, e, pos + MulSize(e))
    decreases e, if IsAdditiveNode(e) then 6 else 2
  {
    if IsMultiplicativeNode(e) {
      MulReadsOperator(toks, pos, e);
    } else {
      MulReadsOperand(toks, pos, e);
    }
  }

  /** The case of `MulReads` without a `* / %` operator: one primary. */
  lemma {:induction false} MulReadsOperand(toks: seq<Token>, pos: nat, e: Node)
    requires !IsMultiplicativeNode(e) && MulAt(toks, pos, e) && pos + MulSize(e) < |toks|
    ensures Multiplicative(toks, pos) == MulLoop(toks, e, pos + MulSize(e))
    decreases e, if IsAdditiveNode(e) then 5 else 1
  {
    assert PrimAt(toks, pos, e) && MulSize(e) == PrimSize(e);
    PrimaryReads(toks, pos, e);
    MultiplicativeStart(toks, pos);
  }

  /** The `* / %` case of `MulReads`: the left operand, then one more loop turn. */
  lemma {:induction false} MulReadsOperator(toks: seq<Token>, pos: nat, e: Node)
    requires IsMultiplicativeNode(e) && MulAt(toks, pos, e) && pos + MulSize(e) < |toks|
    ensures Multiplicative(toks, pos) == MulLoop(toks, e, pos + MulSize(e))
    decreases e, 1
  {
    var q1 := pos + MulSize(e.left);
    MulReadsRight(toks, pos, e, q1);
    MulReads(toks, pos, e.left);
    MulLoopJoin(toks, e, q1, pos + MulSize(e));
  }

  /** The right operand of a `* / %` layout, read by the primary level. */
  lemma {:induction false} MulReadsRight(toks: seq<Token>, pos: nat, e: Node, q1: nat)
    requires IsMultiplicativeNode(e) && MulAt(toks, pos, e) && q1 == pos + MulSize(e.left)
    ensures MulAt(toks, pos, e.left)
    ensures q1 < |toks| && IsMultiplicative(toks[q1].kind) && toks[q1].value == e.operator
    ensures Primary(toks, q1 + 1) == Ok(Parsed(e.right, pos + MulSize(e)))
    decreases e, 0
  {
    MulAtElim(toks, pos, e, q1);
    MulSizeSplit(e);
    PrimaryReads(toks, q1 + 1, e.right);
  }

  /** A layout starts with an operand token. */
  lemma {:induction false} MulAtOpens(toks: seq<Token>, pos: nat, e: Node)
    requires MulAt(toks, pos, e)
    ensures pos < |toks| && Opens(toks[pos])
    decreases e
  {
    if IsMultiplicativeNode(e) {
      MulAtOpens(toks, pos, e.left);
    }
  }

  lemma {:induction false} AddAtOpens(toks: seq<Token>, pos: nat, e: Node)
    requires AddAt(toks, pos, e)
    ensures pos < |toks| && Opens(toks[pos])
    decreases e
  {
    if IsAdditiveNode(e) {
      AddAtOpens(toks, pos, e.left);
    } else {
      MulAtOpens(toks, pos, e);
    }
  }

  lemma ProgramStep(toks: seq<Token>, pos: nat, stmt: Parsed<Node>, rest: Parsed<seq<Node>>)
    requires pos < |toks| && toks[pos].kind != Lexer.EOF
    requires Expr(toks, pos) == Ok(stmt) && Program(toks, stmt.next) == Ok(rest)
    ensures Program(toks, pos) == Ok(Parsed([stmt.value] + rest.value, rest.next))
  {
  }

  /** Laid-out statements start with an operand token or with the final EOF. */
  lemma ProgramAtOpens(toks: seq<Token>, pos: nat, stmts: seq<Node>)
    requires ProgramAt(toks, pos, stmts)
    ensures pos < |toks| && (toks[pos].kind == Lexer.EOF || Opens(toks[pos]))
  {
    if stmts != [] {
      AddAtOpens(toks, pos, stmts[0]);
    }
  }

  /** The first laid-out statement, the token after it, and the rest. */
  lemma ProgramAtElim(toks: seq<Token>, pos: nat, stmts: seq<Node>, q: nat)
    requires stmts != [] && ProgramAt(toks, pos, stmts) && q == pos + AddSize(stmts[0])
    ensures AddAt(toks, pos, stmts[0]) && ProgramAt(toks, q, stmts[1..])
    ensures pos < |toks| && toks[pos].kind != Lexer.EOF
    ensures q < |toks| && !IsAdditive(toks[q].kind) && !IsMultiplicative(toks[q].kind)
    ensures pos + ProgramSize(stmts) == q + ProgramSize(stmts[1..])
  {
    AddAtOpens(toks, pos, stmts[0]);
    ProgramAtOpens(toks, q, stmts[1..]);
  }

  /** The first laid-out statement parses as an expression and stops where the rest
      of the layout starts. */
  lemma ProgramReadsHead(toks: seq<Token>, pos: nat, stmts: seq<Node>, q: nat)
    requires stmts != [] && ProgramAt(toks, pos, stmts) && q == pos + AddSize(stmts[0])
    ensures Expr(toks, pos) == Ok(Parsed(stmts[0], q)) && ProgramAt(toks, q, stmts[1..])
    ensures pos < |toks| && toks[pos].kind != Lexer.EOF
    ensures pos + ProgramSize(stmts) == q + ProgramSize(stmts[1..])
  {
    ProgramAtElim(toks, pos, stmts, q);
    ExprReads(toks, pos, stmts[0]);
  }

  /** The first statement read as an expression, the rest as a program. */
  lemma ProgramReadsCons(toks: seq<Token>, pos: nat, stmts: seq<Node>, q: nat, end: nat)
    requires stmts != [] && pos < |toks| && toks[pos].kind != Lexer.EOF
    requires Expr(toks, pos) == Ok(Parsed(stmts[0], q))
    requires Program(toks, q) == Ok(Parsed(stmts[1..], end))
    ensures Program(toks, pos) == Ok(Parsed(stmts, end))
  {
    ProgramStep(toks, pos, Parsed(stmts[0], q), Parsed(stmts[1..], end));
    assert [stmts[0]] + stmts[1..] == stmts;
  }

  /** Statement order follows token order: laid-out statements followed by EOF parse
      to the same statements, and the parse stops on that EOF. */
  lemma {:induction false} ProgramReads(toks: seq<Token>, pos: nat, stmts: seq<Node>)
    requires ProgramAt(toks, pos, stmts)
    ensures Program(toks, pos) == Ok(Parsed(stmts, pos + ProgramSize(stmts)))
    decreases |stmts|
  {
    if stmts != [] {
      var q := pos + AddSize(stmts[0]);
      ProgramReadsHead(toks, pos, stmts, q);
      ProgramReads(toks, q, stmts[1..]);
      ProgramReadsCons(toks, pos, stmts, q, pos + ProgramSize(stmts));
    }
  }

  // ---------------------------------------------------------------------------
  // A printed expression is a layout

  lemma {:induction false} PrintSizes(e: Node)
    requires Printable(e)
    ensures |PrintAdd(e)| == AddSize(e) && |PrintMul(e)| == MulSize(e) && |PrintPrimary(e)| == PrimSize(e)
    decreases e
  {
    if e.BinaryExpr? {
      PrintSizes(e.left);
      PrintSizes(e.right);
      PrintOfBinary(e);
      BinaryLevels(e);
      if IsAdditiveNode(e) {
        assert |PrintAdd(e)| == AddSize(e.left) + 1 + MulSize(e.right) == AddSize(e);
        assert MulSize(e) == PrimSize(e) == AddSize(e) + 2;
      } else {
        assert |PrintMul(e)| == MulSize(e.left) + 1 + PrimSize(e.right) == MulSize(e);
        assert AddSize(e) == MulSize(e) && PrimSize(e) == AddSize(e) + 2;
      }
    }
  }

  /** Where the operator expression inside a printed pair of parentheses sits. */
  lemma PrimPrintSplit(toks: seq<Token>, pos: nat, e: Node)
    requires Printable(e) && e.BinaryExpr? && OccursAt(toks, pos, PrintPrimary(e))
    ensures IsAdditiveNode(e) || IsMultiplicativeNode(e)
    ensures toks[pos] == OpenToken && OccursAt(toks, pos + 1, PrintAdd(e))
    ensures pos + 1 + AddSize(e) < |toks| && toks[pos + 1 + AddSize(e)] == CloseToken
  {
    BinaryLevels(e);
    PrintOfBinary(e);
    PrintSizes(e);
    OccursWrapped(toks, pos, OpenToken, PrintAdd(e), CloseToken);
  }

  /** A printed identifier or number is read back as that leaf. */
  lemma PrimLeafLayout(toks: seq<Token>, pos: nat, e: Node)
    requires Printable(e) && !e.BinaryExpr? && OccursAt(toks, pos, PrintPrimary(e))
    ensures PrimAt(toks, pos, e)
  {
    assert toks[pos] == toks[pos..pos + |PrintPrimary(e)|][0];
    if e.NumbericLiteral? {
      ParseFloatOfNat(e.value.Floor);
    }
  }

  lemma PrimAtIntro(toks: seq<Token>, pos: nat, e: Node)
    requires e.BinaryExpr? && (IsAdditiveNode(e) || IsMultiplicativeNode(e))
    requires pos < |toks| && toks[pos] == OpenToken && AddAt(toks, pos + 1, e)
    requires pos + 1 + AddSize(e) < |toks| && toks[pos + 1 + AddSize(e)] == CloseToken
    ensures PrimAt(toks, pos, e)
  {
  }

  lemma {:induction false} PrimLayout(toks: seq<Token>, pos: nat, e: Node)
    requires Printable(e) && OccursAt(toks, pos, PrintPrimary(e))
    ensures PrimAt(toks, pos, e)
    decreases e, if IsAdditiveNode(e) then 2 else if IsMultiplicativeNode(e) then 3 else 0
  {
    if e.BinaryExpr? {
      PrimPrintSplit(toks, pos, e);
      AddLayout(toks, pos + 1, e);
      PrimAtIntro(toks, pos, e);
    } else {
      PrimLeafLayout(toks, pos, e);
    }
  }

  /** An operator node is laid out once its operands and operator token are. */
  lemma AddAtIntro(toks: seq<Token>, pos: nat, e: Node, q: nat)
    requires IsAdditiveNode(e) && q == pos + AddSize(e.left)
    requires AddAt(toks, pos, e.left) && q < |toks| && toks[q] == OpToken(e.operator)
    requires MulAt(toks, q + 1, e.right)
    ensures AddAt(toks, pos, e)
  {
  }

  lemma MulAtIntro(toks: seq<Token>, pos: nat, e: Node, q: nat)
    requires IsMultiplicativeNode(e) && q == pos + MulSize(e.left)
    requires MulAt(toks, pos, e.left) && q < |toks| && toks[q] == OpToken(e.operator)
    requires PrimAt(toks, q + 1, e.right)
    ensures MulAt(toks, pos, e)
  {
  }

  /** Where the operands and the operator of a printed `+ -` node sit. */
  lemma AddPrintSplit(toks: seq<Token>, pos: nat, e: Node, q: nat)
    requires Printable(e) && IsAdditiveNode(e) && OccursAt(toks, pos, PrintAdd(e))
    requires q == pos + AddSize(e.left)
    ensures Printable(e.left) && Printable(e.right)
    ensures OccursAt(toks, pos, PrintAdd(e.left)) && q < |toks| && toks[q] == OpToken(e.operator)
    ensures OccursAt(toks, q + 1, PrintMul(e.right))
  {
    PrintOfBinary(e);
    PrintSizes(e.left);
    OccursInfixAt(toks, pos, PrintAdd(e.left), OpToken(e.operator), PrintMul(e.right), q);
  }

  /** Where the operands and the operator of a printed `* / %` node sit. */
  lemma MulPrintSplit(toks: seq<Token>, pos: nat, e: Node, q: nat)
    requires Printable(e) && IsMultiplicativeNode(e) && OccursAt(toks, pos, PrintMul(e))
    requires q == pos + MulSize(e.left)
    ensures Printable(e.left) && Printable(e.right)
    ensures OccursAt(toks, pos, PrintMul(e.left)) && q < |toks| && toks[q] == OpToken(e.operator)
    ensures OccursAt(toks, q + 1, PrintPrimary(e.right))
  {
    PrintOfBinary(e);
    PrintSizes(e.left);
    OccursInfixAt(toks, pos, PrintMul(e.left), OpToken(e.operator), PrintPrimary(e.right), q);
  }

  lemma {:induction false} AddLayout(toks: seq<Token>, pos: nat, e: Node)
    requires Printable(e) && OccursAt(toks, pos, PrintAdd(e))
    ensures AddAt(toks, pos, e)
    decreases e, if IsAdditiveNode(e) then 0 else if IsMultiplicativeNode(e) then 1 else 2
  {
    if IsAdditiveNode(e) {
      var q := pos + AddSize(e.left);
      AddPrintSplit(toks, pos, e, q);
      AddLayout(toks, pos, e.left);
      MulLayout(toks, q + 1, e.right);
      AddAtIntro(toks, pos, e, q);
    } else {
      assert PrintAdd(e) == PrintMul(e);
      MulLayout(toks, pos, e);
    }
  }

  lemma {:induction false} MulLayout(toks: seq<Token>, pos: nat, e: Node)
    requires Printable(e) && OccursAt(toks, pos, PrintMul(e))
    ensures MulAt(toks, pos, e)
    decreases e, if IsAdditiveNode(e) then 3 else if IsMultiplicativeNode(e) then 0 else 1
  {
    if IsMultiplicativeNode(e) {
      var q := pos + MulSize(e.left);
      MulPrintSplit(toks, pos, e, q);
      MulLayout(toks, pos, e.left);
      PrimLayout(toks, q + 1, e.right);
      MulAtIntro(toks, pos, e, q);
    } else {
      assert PrintMul(e) == PrintPrimary(e);
      PrimLayout(toks, pos, e);
    }
  }

  lemma {:induction false} ProgramLayout(toks: seq<Token>, pos: nat, stmts: seq<Node>)
    requires forall k :: 0 <= k < |stmts| ==> Printable(stmts[k])
    requires OccursAt(toks, pos, PrintProgram(stmts))
    requires pos + |PrintProgram(stmts)| < |toks| && toks[pos + |PrintProgram(stmts)|].kind == Lexer.EOF
    ensures ProgramAt(toks, pos, stmts) && ProgramSize(stmts) == |PrintProgram(stmts)|
    decreases |stmts|
  {
    if stmts != [] {
      var sp := PrintAdd(stmts[0]);
      assert PrintProgram(stmts) == sp + PrintProgram(stmts[1..]);
      OccursSplit(toks, pos, sp, PrintProgram(stmts[1..]));
      PrintSizes(stmts[0]);
      AddLayout(toks, pos, stmts[0]);
      ProgramLayout(toks, pos + |sp|, stmts[1..]);
    }
  }

  // ---------------------------------------------------------------------------
  // The parser inverts the printer

  /** Parsing the print of any printable expression, followed by anything other
      than an operator, gives back exactly that expression and stops right after it. */
  lemma ExprRoundTrip(toks: seq<Token>, pos: nat, e: Node)
    requires Printable(e) && OccursAt(toks, pos, PrintAdd(e))
    requires var q := pos + |PrintAdd(e)|;
      q < |toks| && !IsAdditive(toks[q].kind) && !IsMultiplicative(toks[q].kind)
    ensures Expr(toks, pos) == Ok(Parsed(e, pos + |PrintAdd(e)|))
  {
    AddLayout(toks, pos, e);
    PrintSizes(e);
    ExprReads(toks, pos, e);
  }

  /** A sequence of printed statements followed by EOF parses back to the same
      statements, in the same order. */
  lemma ProgramRoundTrip(toks: seq<Token>, pos: nat, stmts: seq<Node>)
    requires forall k :: 0 <= k < |stmts| ==> Printable(stmts[k])
    requires OccursAt(toks, pos, PrintProgram(stmts))
    requires pos + |PrintProgram(stmts)| < |toks| && toks[pos + |PrintProgram(stmts)|].kind == Lexer.EOF
    ensures Program(toks, pos) == Ok(Parsed(stmts, pos + |PrintProgram(stmts)|))
  {
    ProgramLayout(toks, pos, stmts);
    ProgramReads(toks, pos, stmts);
  }

  /** The whole program form: printed statements and the final EOF token. */
  lemma ParsePrintedProgram(stmts: seq<Node>)
    requires forall k :: 0 <= k < |stmts| ==> Printable(stmts[k])
    ensures var toks := PrintProgram(stmts) + [Lexer.EofToken];
      Program(toks, 0) == Ok(Parsed(stmts, |toks| - 1))
  {
    var toks := PrintProgram(stmts) + [Lexer.EofToken];
    assert forall k :: 0 <= k < |PrintProgram(stmts)| ==> toks[k] == PrintProgram(stmts)[k];
    ProgramRoundTrip(toks, 0, stmts);
  }

  // ---------------------------------------------------------------------------
  // What the parser builds

  /** The trees the parser builds: every operator one of `+ - * / %`, every leaf
      an `Identifier` or a `NumbericLiteral`. */
  predicate ArithmeticOnly(e: Node) {
    match e
    case BinaryExpr(l, r, op) => OpKind(op).Some? && ArithmeticOnly(l) && ArithmeticOnly(r)
    case Identifier(_) => true
    case NumbericLiteral(_) => true
    case _ => false
  }

  /** The tokens `tokenize` returns: well formed, apart from EOF. */
  predicate LexerTokens(toks: seq<Token>) {
    forall k :: 0 <= k < |toks| ==> toks[k].kind == Lexer.EOF || Lexer.WellFormed(toks[k])
  }

  lemma OperatorToken(t: Token)
    requires Lexer.WellFormed(t) && (IsAdditive(t.kind) || IsMultiplicative(t.kind))
    ensures OpKind(t.value) == Some(t.kind)
  {
  }

  lemma {:induction false} PrimaryArithmetic(toks: seq<Token>, pos: nat)
    requires LexerTokens(toks) && Primary(toks, pos).Ok?
    ensures ArithmeticOnly(Primary(toks, pos).value.value)
    decreases Remaining(toks, pos), 0
  {
    if toks[pos].kind.OpenParen? {
      AddArithmetic(toks, pos + 1);
    }
  }

  lemma {:induction false} MulArithmetic(toks: seq<Token>, left: Node, pos: nat)
    requires LexerTokens(toks) && ArithmeticOnly(left) && MulLoop(toks, left, pos).Ok?
    ensures ArithmeticOnly(MulLoop(toks, left, pos).value.value)
    decreases Remaining(toks, pos)
  {
    if IsMultiplicative(toks[pos].kind) {
      OperatorToken(toks[pos]);
      PrimaryArithmetic(toks, pos + 1);
      var right := Primary(toks, pos + 1).value;
      MulArithmetic(toks, BinaryExpr(left, right.value, toks[pos].value), right.next);
    }
  }

  lemma {:induction false} AddArithmetic(toks: seq<Token>, pos: nat)
    requires LexerTokens(toks) && Additive(toks, pos).Ok?
    ensures ArithmeticOnly(Additive(toks, pos).value.value)
    decreases Remaining(toks, pos), 2
  {
    MulOperandArithmetic(toks, pos);
    var left := Multiplicative(toks, pos).value;
    AddLoopArithmetic(toks, left.value, left.next);
  }

  lemma {:induction false} MulOperandArithmetic(toks: seq<Token>, pos: nat)
    requires LexerTokens(toks) && Multiplicative(toks, pos).Ok?
    ensures ArithmeticOnly(Multiplicative(toks, pos).value.value)
    decreases Remaining(toks, pos), 1
  {
    PrimaryArithmetic(toks, pos);
    var left := Primary(toks, pos).value;
    MulArithmetic(toks, left.value, left.next);
  }

  lemma {:induction false} AddLoopArithmetic(toks: seq<Token>, left: Node, pos: nat)
    requires LexerTokens(toks) && ArithmeticOnly(left) && AddLoop(toks, left, pos).Ok?
    ensures ArithmeticOnly(AddLoop(toks, left, pos).value.value)
    decreases Remaining(toks, pos)
  {
    if IsAdditive(toks[pos].kind) {
      OperatorToken(toks[pos]);
      MulOperandArithmetic(toks, pos + 1);
      var right := Multiplicative(toks, pos + 1).value;
      AddLoopArithmetic(toks, BinaryExpr(left, right.value, toks[pos].value), right.next);
    }
  }

  /** Every statement of a parsed program uses only the five arithmetic operators. */
  lemma {:induction false} ProgramArithmetic(toks: seq<Token>, pos: nat)
    requires LexerTokens(toks) && Program(toks, pos).Ok?
    ensures var stmts := Program(toks, pos).value.value;
      forall k :: 0 <= k < |stmts| ==> ArithmeticOnly(stmts[k])
    decreases Remaining(toks, pos)
  {
    if toks[pos].kind != Lexer.EOF {
      var stmt := Expr(toks, pos).value;
      AddArithmetic(toks, pos);
      ProgramArithmetic(toks, stmt.next);
    }
  }

  /** A token that cannot start an operand fails the whole expression, whatever
      follows it: EOF, `null`, `let`, `const`, `=`, `)` and the rest. */
  lemma NonOperandRejected(toks: seq<Token>, pos: nat)
    requires pos < |toks| && !Opens(toks[pos])
    ensures Expr(toks, pos) == Err(UnexpectedToken(toks[pos]))
  {
    assert Primary(toks, pos) == Err(UnexpectedToken(toks[pos]));
    PrimaryErrorPropagates(toks, pos);
  }

  /** A failing operand fails the whole expression with the same error. */
  lemma PrimaryErrorPropagates(toks: seq<Token>, pos: nat)
    requires Primary(toks, pos).Err?
    ensures Expr(toks, pos) == Err(Primary(toks, pos).error)
  {
    assert Multiplicative(toks, pos) == Err(Primary(toks, pos).error);
    assert Additive(toks, pos) == Err(Primary(toks, pos).error);
  }

  /** A `(` whose expression is followed by something other than `)` fails in
      `eatExpected`, naming the token found. */
  lemma UnclosedParenRejected(toks: seq<Token>, pos: nat)
    requires pos < |toks| && toks[pos].kind == Lexer.OpenParen && Expr(toks, pos + 1).Ok?
    requires var close := Expr(toks, pos + 1).value.next; toks[close].kind != Lexer.CloseParen
    ensures var close := Expr(toks, pos + 1).value.next;
      Primary(toks, pos) == Err(ExpectedToken(toks[close], Lexer.CloseParen))
  {
  }

  /** On `tokenize` output a successful parse ends with the cursor on the final EOF
      token, the only one there is. */
  lemma ProgramEndsOnFinalEof(source: string)
    requires Lexer.Lex(source).Ok? && Program(Lexer.Lex(source).value, 0).Ok?
    ensures Program(Lexer.Lex(source).value, 0).value.next == |Lexer.Lex(source).value| - 1
  {
  }

  /** On `tokenize` output a parser that starts inside the buffer never reads past
      its end. */
  lemma NeverPastEnd(source: string, pos: nat)
    requires Lexer.Lex(source).Ok? && pos < |Lexer.Lex(source).value|
    ensures Program(Lexer.Lex(source).value, pos) != Err(UndefinedToken)
  {
  }

  // ---------------------------------------------------------------------------
  // Concrete cases

  /** The literal a number token denotes. */
  function Leaf(t: Token): Node {
    NumbericLiteral(ParseFloat(t.value))
  }

  predicate IsNumberToken(t: Token) {
    t.kind == Lexer.Number
  }

  /** A number token is the one-token layout of its literal, at every level. */
  lemma LeafAt(toks: seq<Token>, pos: nat)
    requires pos < |toks| && IsNumberToken(toks[pos])
    ensures AddAt(toks, pos, Leaf(toks[pos])) && MulAt(toks, pos, Leaf(toks[pos]))
    ensures AddSize(Leaf(toks[pos])) == 1 && MulSize(Leaf(toks[pos])) == 1
  {
    var e := Leaf(toks[pos]);
    assert !IsAdditiveNode(e) && !IsMultiplicativeNode(e);
    assert PrimSize(e) == 1 && PrimAt(toks, pos, e);
    assert MulSize(e) == 1 && MulAt(toks, pos, e);
  }

  /** How the operators used below are classified. */
  lemma OperatorNodes(l: Node, r: Node)
    ensures IsAdditiveNode(BinaryExpr(l, r, "+")) && IsAdditiveNode(BinaryExpr(l, r, "-"))
    ensures IsMultiplicativeNode(BinaryExpr(l, r, "*"))
    ensures !IsMultiplicativeNode(BinaryExpr(l, r, "+")) && !IsMultiplicativeNode(BinaryExpr(l, r, "-"))
    ensures !IsAdditiveNode(BinaryExpr(l, r, "*"))
    ensures OpToken("+") == Lexer.Token("+", Lexer.Plus) && OpToken("-") == Lexer.Token("-", Lexer.Minus)
    ensures OpToken("*") == Lexer.Token("*", Lexer.Multiply)
  {
  }

  /** `x - y - z` folds to the left: `(x - y) - z`. */
  lemma LeftAssociative(toks: seq<Token>)
    requires |toks| == 6 && IsNumberToken(toks[0]) && toks[1] == OpToken("-")
    requires IsNumberToken(toks[2]) && toks[3] == OpToken("-") && IsNumberToken(toks[4])
    requires toks[5].kind == Lexer.EOF
    ensures Expr(toks, 0)
         == Ok(Parsed(BinaryExpr(BinaryExpr(Leaf(toks[0]), Leaf(toks[2]), "-"), Leaf(toks[4]), "-"), 5))
  {
    var l := BinaryExpr(Leaf(toks[0]), Leaf(toks[2]), "-");
    var e := BinaryExpr(l, Leaf(toks[4]), "-");
    OperatorNodes(Leaf(toks[0]), Leaf(toks[2]));
    OperatorNodes(l, Leaf(toks[4]));
    LeafAt(toks, 0);
    LeafAt(toks, 2);
    LeafAt(toks, 4);
    AddAtIntro(toks, 0, l, 1);
    assert AddSize(l) == 3;
    AddAtIntro(toks, 0, e, 3);
    ExprReads(toks, 0, e);
  }

  /** `x + y * z`: the product is the right operand of the sum. */
  lemma ProductBindsTighter(toks: seq<Token>)
    requires |toks| == 6 && IsNumberToken(toks[0]) && toks[1] == OpToken("+")
    requires IsNumberToken(toks[2]) && toks[3] == OpToken("*") && IsNumberToken(toks[4])
    requires toks[5].kind == Lexer.EOF
    ensures Expr(toks, 0)
         == Ok(Parsed(BinaryExpr(Leaf(toks[0]), BinaryExpr(Leaf(toks[2]), Leaf(toks[4]), "*"), "+"), 5))
  {
    var r := BinaryExpr(Leaf(toks[2]), Leaf(toks[4]), "*");
    var e := BinaryExpr(Leaf(toks[0]), r, "+");
    OperatorNodes(Leaf(toks[2]), Leaf(toks[4]));
    OperatorNodes(Leaf(toks[0]), r);
    LeafAt(toks, 0);
    LeafAt(toks, 2);
    LeafAt(toks, 4);
    MulAtIntro(toks, 2, r, 3);
    assert MulSize(r) == 3;
    AddAtIntro(toks, 0, e, 1);
    ExprReads(toks, 0, e);
  }

  /** `a b` is two statements. */
  lemma TwoStatements()
    ensures Program([Lexer.Token("a", Lexer.Identifier), Lexer.Token("b", Lexer.Identifier), Lexer.EofToken], 0)
         == Ok(Parsed([Identifier("a"), Identifier("b")], 2))
  {
    var toks := [Lexer.Token("a", Lexer.Identifier), Lexer.Token("b", Lexer.Identifier), Lexer.EofToken];
    var stmts := [Identifier("a"), Identifier("b")];
    Lexer.KeywordExactness("a");
    Lexer.KeywordExactness("b");
    assert PrintProgram(stmts[1..]) == [toks[1]];
    assert PrintProgram(stmts) == toks[..2];
    ProgramRoundTrip(toks, 0, stmts);
  }

  /** `( x + y` without its `)` fails on EOF. */
  lemma MissingCloseParen(toks: seq<Token>)
    requires |toks| == 5 && toks[0] == OpenToken && IsNumberToken(toks[1])
    requires toks[2] == OpToken("+") && IsNumberToken(toks[3]) && toks[4] == Lexer.EofToken
    ensures Program(toks, 0) == Err(ExpectedToken(Lexer.EofToken, Lexer.CloseParen))
  {
    var e := BinaryExpr(Leaf(toks[1]), Leaf(toks[3]), "+");
    OperatorNodes(Leaf(toks[1]), Leaf(toks[3]));
    LeafAt(toks, 1);
    LeafAt(toks, 3);
    AddAtIntro(toks, 1, e, 2);
    assert AddSize(e) == 3;
    ExprReads(toks, 1, e);
    UnclosedParenRejected(toks, 0);
    PrimaryErrorPropagates(toks, 0);
  }

}
