/** The tree-walking evaluator of runtime/interpreter.ts: dispatch on the node
    tag, statements in order with the last value as the result, and the five
    arithmetic operators on numbers. */
module Interpreter {
  import opened Wrappers
  import opened Ast
  import opened Values

  /** What the evaluator throws. */
  datatype EvalError =
    | UnsupportedNode(nodeType: string)
    | UnknownOperator(operator: string)

  // ---------------------------------------------------------------------------
  // Arithmetic

  /** The five operators `evaluateNumbericBinaryExpr` knows. */
  predicate IsOperator(op: string) {
    op == "+" || op == "-" || op == "*" || op == "/" || op == "%"
  }

  /** Rounding toward zero, as JavaScript's `%` rounds its quotient. */
  function Trunc(x: real): int {
    if x < 0.0 then -((-x).Floor) else x.Floor
  }

  /** `/` on numbers. A zero divisor gives 0 (IEEE infinities are not modelled). */
  function Divide(a: real, b: real): (q: real)
    ensures b != 0.0 ==> q * b == a
    ensures b == 0.0 ==> q == 0.0
  {
    if b == 0.0 then 0.0 else a / b
  }

  /** JavaScript's `%`: the remainder of the quotient truncated toward zero. A zero
      divisor gives 0 (IEEE NaN is not modelled). */
  function Remainder(a: real, b: real): real {
    if b == 0.0 then 0.0 else a - b * Trunc(a / b) as real
  }

  /** `evaluateNumbericBinaryExpr`: one of the five operators applied to two
      numbers, or `Unknown operator`. */
  function EvaluateNumericBinaryExpr(op: string, lhs: real, rhs: real): (r: Result<RuntimeValue, EvalError>)
    ensures r.Ok? <==> IsOperator(op)
    ensures r.Ok? ==> r.value.NumberValue?
    ensures r.Err? ==> r.error == UnknownOperator(op)
  {
    if op == "+" then Ok(NumberValue(lhs + rhs))
    else if op == "-" then Ok(NumberValue(lhs - rhs))
    else if op == "*" then Ok(NumberValue(lhs * rhs))
    else if op == "/" then Ok(NumberValue(Divide(lhs, rhs)))
    else if op == "%" then Ok(NumberValue(Remainder(lhs, rhs)))
    else Err(UnknownOperator(op))
  }

  // ---------------------------------------------------------------------------
  // Evaluation

  /** `evaluate`: the node tag decides. */
  function Evaluate(n: Node): Result<RuntimeValue, EvalError>
    decreases n, 1
  {
    match n
    case File(stmts) => EvaluateStmts(stmts, NullValue)
    case BinaryExpr(_, _, _) => EvaluateBinaryExpr(n)
    case NumericLiteral(v) => Ok(NumberValue(v))
    case NullLiteral => Ok(NullValue)
    case _ => Err(UnsupportedNode(NodeType(n)))
  }

  /** The loop of `evaluateFile`, read as a function: `last` is the value of the
      statement before `stmts`; the first error ends the file. */
  function EvaluateStmts(stmts: seq<Node>, last: RuntimeValue): Result<RuntimeValue, EvalError>
    decreases stmts
  {
    if stmts == [] then Ok(last)
    else
      var v :- Evaluate(stmts[0]);
      EvaluateStmts(stmts[1..], v)
  }

  /** `evaluateBinaryExpr`: left operand, then right operand; two numbers go to
      the operator, anything else gives null. */
  function EvaluateBinaryExpr(e: Node): Result<RuntimeValue, EvalError>
    requires e.BinaryExpr?
    decreases e, 0
  {
    var lhs :- Evaluate(e.left);
    var rhs :- Evaluate(e.right);
    if lhs.NumberValue? && rhs.NumberValue? then EvaluateNumericBinaryExpr(e.operator, lhs.value, rhs.value)
    else Ok(NullValue)
  }

  /** `evaluateFile`: a `for` loop over the statements, keeping the last value. */
  method EvaluateFile(stmts: seq<Node>) returns (r: Result<RuntimeValue, EvalError>)
    ensures r == Evaluate(File(stmts))
  {
    var lastEvaluated := NullValue;
    for i := 0 to |stmts|
      invariant EvaluateStmts(stmts[i..], lastEvaluated) == Evaluate(File(stmts))
    {
      assert stmts[i..][0] == stmts[i] && stmts[i..][1..] == stmts[i + 1..];
      var v := Evaluate(stmts[i]);
      if v.Err? {
        return Err(v.error);
      }
      lastEvaluated := v.value;
    }
    assert stmts[|stmts|..] == [];
    return Ok(lastEvaluated);
  }

  // ---------------------------------------------------------------------------
  // Statements of a file

  /** A run of statements succeeds exactly when each statement does, and then its
      value is the last statement's (or `last` when there is none). */
  lemma {:induction false} StmtsResult(stmts: seq<Node>, last: RuntimeValue)
    ensures EvaluateStmts(stmts, last).Ok? <==> forall k :: 0 <= k < |stmts| ==> Evaluate(stmts[k]).Ok?
    ensures EvaluateStmts(stmts, last).Ok? ==>
      EvaluateStmts(stmts, last).value == if stmts == [] then last else Evaluate(stmts[|stmts| - 1]).value
    decreases stmts
  {
    if stmts != [] {
      var rest := stmts[1..];
      assert forall k :: 0 <= k < |rest| ==> rest[k] == stmts[k + 1];
      if Evaluate(stmts[0]).Ok? {
        StmtsResult(rest, Evaluate(stmts[0]).value);
        if rest != [] {
          assert rest[|rest| - 1] == stmts[|stmts| - 1];
        }
      }
    }
  }

  /** A file evaluates without error exactly when each of its statements does;
      its value is then the last statement's, and null for an empty file. */
  lemma FileEvaluation(stmts: seq<Node>)
    ensures Evaluate(File(stmts)).Ok? <==> forall k :: 0 <= k < |stmts| ==> Evaluate(stmts[k]).Ok?
    ensures Evaluate(File(stmts)).Ok? ==>
      Evaluate(File(stmts)).value == if stmts == [] then NullValue else Evaluate(stmts[|stmts| - 1]).value
  {
    StmtsResult(stmts, NullValue);
  }

  /** The first statement that fails decides the error; later ones are not
      evaluated. */
  lemma {:induction false} StmtsFirstError(stmts: seq<Node>, last: RuntimeValue, i: nat)
    requires i < |stmts| && Evaluate(stmts[i]).Err?
    requires forall k :: 0 <= k < i ==> Evaluate(stmts[k]).Ok?
    ensures EvaluateStmts(stmts, last) == Err(Evaluate(stmts[i]).error)
    decreases i
  {
    if i > 0 {
      var rest := stmts[1..];
      assert forall k :: 0 <= k < i - 1 ==> rest[k] == stmts[k + 1];
      StmtsFirstError(rest, Evaluate(stmts[0]).value, i - 1);
    }
  }

  /** The first failing statement of a file decides the file's error. */
  lemma FileFirstError(stmts: seq<Node>, i: nat)
    requires i < |stmts| && Evaluate(stmts[i]).Err?
    requires forall k :: 0 <= k < i ==> Evaluate(stmts[k]).Ok?
    ensures Evaluate(File(stmts)) == Err(Evaluate(stmts[i]).error)
  {
    StmtsFirstError(stmts, NullValue, i);
  }

  // ---------------------------------------------------------------------------
  // Which nodes evaluate, and to what kind of value

  datatype ValueKind = NumberKind | NullKind

  /** The kind of value a node evaluates to, decided from the tree alone without
      any arithmetic; `None` when evaluation throws. */
  function KindOf(n: Node): Option<ValueKind>
    decreases n
  {
    match n
    case File(stmts) =>
      if forall k :: 0 <= k < |stmts| ==> KindOf(stmts[k]).Some? then
        Some(if stmts == [] then NullKind else KindOf(stmts[|stmts| - 1]).value)
      else None
    case BinaryExpr(l, r, op) =>
      if KindOf(l).None? || KindOf(r).None? then None
      else if KindOf(l) == Some(NumberKind) && KindOf(r) == Some(NumberKind) then
        if IsOperator(op) then Some(NumberKind) else None
      else Some(NullKind)
    case NumericLiteral(_) => Some(NumberKind)
    case NullLiteral => Some(NullKind)
    case _ => None
  }

  /** Evaluation succeeds exactly on the nodes `KindOf` accepts, and yields a
      number exactly when `KindOf` predicts one. */
  lemma {:induction false} KindPredictsEvaluation(n: Node)
    ensures Evaluate(n).Ok? <==> KindOf(n).Some?
    ensures Evaluate(n).Ok? ==> (Evaluate(n).value.NumberValue? <==> KindOf(n).value == NumberKind)
    decreases n
  {
    match n
    case File(stmts) =>
      forall k | 0 <= k < |stmts|
        ensures Evaluate(stmts[k]).Ok? <==> KindOf(stmts[k]).Some?
        ensures Evaluate(stmts[k]).Ok? ==> (Evaluate(stmts[k]).value.NumberValue? <==> KindOf(stmts[k]).value == NumberKind)
      {
        KindPredictsEvaluation(stmts[k]);
      }
      FileEvaluation(stmts);
    case BinaryExpr(l, r, op) =>
      KindPredictsEvaluation(l);
      KindPredictsEvaluation(r);
    case _ =>
  }

  // ---------------------------------------------------------------------------
  // Single nodes

  /** The left operand is evaluated first: its error wins over the right one's. */
  lemma LeftOperandFirst(l: Node, r: Node, op: string)
    requires Evaluate(l).Err?
    ensures Evaluate(BinaryExpr(l, r, op)) == Err(Evaluate(l).error)
  {
  }

  /** A null operand makes the whole expression null; the operator is then never
      looked at, so even an unknown one does not throw. */
  lemma NullOperandGivesNull(l: Node, r: Node, op: string)
    requires Evaluate(l).Ok? && Evaluate(r).Ok?
    requires Evaluate(l).value == NullValue || Evaluate(r).value == NullValue
    ensures Evaluate(BinaryExpr(l, r, op)) == Ok(NullValue)
  {
  }

  /** Two number operands go to the operator. */
  lemma NumberOperands(l: Node, r: Node, op: string, a: real, b: real)
    requires Evaluate(l) == Ok(NumberValue(a)) && Evaluate(r) == Ok(NumberValue(b))
    ensures Evaluate(BinaryExpr(l, r, op)) == EvaluateNumericBinaryExpr(op, a, b)
  {
  }

  /** Two numbers and an operator outside the five throw `Unknown operator`. */
  lemma UnknownOperatorRejected(l: Node, r: Node, op: string)
    requires Evaluate(l).Ok? && Evaluate(l).value.NumberValue?
    requires Evaluate(r).Ok? && Evaluate(r).value.NumberValue?
    ensures Evaluate(BinaryExpr(l, r, op)).Err? <==> !IsOperator(op)
    ensures !IsOperator(op) ==> Evaluate(BinaryExpr(l, r, op)) == Err(UnknownOperator(op))
  {
  }

  /** `NumericLiteral` and `NullLiteral` evaluate to their own values; every other
      leaf tag, the parser's `NumbericLiteral` and `Identifier` included, throws
      `Unsupported AST node type` with that tag. */
  lemma LeafEvaluation(n: Node)
    requires !n.File? && !n.BinaryExpr?
    ensures n.NumericLiteral? ==> Evaluate(n) == Ok(NumberValue(n.value))
    ensures n.NullLiteral? ==> Evaluate(n) == Ok(NullValue)
    ensures n.Identifier? ==> Evaluate(n) == Err(UnsupportedNode("Identifier"))
    ensures n.NumbericLiteral? ==> Evaluate(n) == Err(UnsupportedNode("NumbericLiteral"))
  {
  }

  /** JavaScript's remainder: the dividend is the divisor times an integer
      quotient rounded toward zero plus the remainder, which is smaller than the
      divisor and has the dividend's sign. */
  lemma RemainderProperties(a: real, b: real)
    requires b != 0.0
    ensures a == b * Trunc(a / b) as real + Remainder(a, b)
    ensures Abs(Remainder(a, b)) < Abs(b)
    ensures a >= 0.0 ==> Remainder(a, b) >= 0.0
    ensures a <= 0.0 ==> Remainder(a, b) <= 0.0
  {
    var q := a / b;
    var d := q - Trunc(q) as real;
    assert a == b * q;
    assert Remainder(a, b) == b * d;
    if q >= 0.0 {
      assert 0.0 <= d < 1.0;
    } else {
      assert -1.0 < d <= 0.0;
    }
    FractionScaled(b, d);
    if a > 0.0 {
      assert (b > 0.0 && q > 0.0) || (b < 0.0 && q < 0.0);
    } else if a < 0.0 {
      assert (b > 0.0 && q < 0.0) || (b < 0.0 && q > 0.0);
    }
  }

  /** `10 / 4` is 2.5 and `10 % 3` is 1; the remainder follows the dividend's
      sign, so `-7 % 2` is -1 and `7 % -2` is 1. */
  lemma ArithmeticExamples()
    ensures EvaluateNumericBinaryExpr("/", 10.0, 4.0) == Ok(NumberValue(2.5))
    ensures EvaluateNumericBinaryExpr("%", 10.0, 3.0) == Ok(NumberValue(1.0))
    ensures EvaluateNumericBinaryExpr("%", -7.0, 2.0) == Ok(NumberValue(-1.0))
    ensures EvaluateNumericBinaryExpr("%", 7.0, -2.0) == Ok(NumberValue(1.0))
  {
  }

  /** `b * d` for a fraction `d` of magnitude below one. */
  lemma FractionScaled(b: real, d: real)
    requires b != 0.0 && -1.0 < d < 1.0
    ensures Abs(b * d) < Abs(b)
    ensures (b > 0.0) == (d > 0.0) ==> b * d >= 0.0
    ensures (b > 0.0) != (d > 0.0) && d != 0.0 ==> b * d <= 0.0
  {
    if b > 0.0 {
      PositiveScaled(b, d);
    } else {
      PositiveScaled(-b, d);
      assert b * d == -((-b) * d) && Abs(b) == -b;
    }
  }

  lemma PositiveScaled(c: real, d: real)
    requires c > 0.0 && -1.0 < d < 1.0
    ensures -c < c * d < c
    ensures d >= 0.0 ==> c * d >= 0.0
    ensures d <= 0.0 ==> c * d <= 0.0
  {
    assert c * (1.0 - d) == c - c * d && c * (1.0 + d) == c + c * d;
    assert c * (1.0 - d) > 0.0 && c * (1.0 + d) > 0.0;
  }

  function Abs(x: real): real {
    if x < 0.0 then -x else x
  }
}
