# custom-parser, modelled in Dafny

A model of the core of a small expression-language pipeline: source text is
turned into tokens, tokens into a syntax tree, and the tree into a runtime value.

- `Lexer` (lexer.dfy) is `tokenize` of frontend/lexer.ts. It is an imperative
  cursor loop with nested loops for runs of letters and of digits
  (`Lexer.Tokenize`, `Lexer.ReadRun`). It is proved equal to a functional scan
  (`Lexer.Scan`, `Lexer.Lex`), and the properties are proved about the scan:
  - where the EOF token goes;
  - whitespace skipping;
  - keyword exactness;
  - maximal munch;
  - the first-bad-character error;
  - the whitespace-free round trip.
- `LegacyLexer` (legacy_lexer.dfy) is the stack-based `tokenize` of main.ts.
  The characters are reversed and popped from the end of a `seq`. The model
  proves that popping visits the text in order. It also proves that this
  tokenizer agrees with frontend/lexer.ts, apart from the final EOF token,
  the `null` keyword and the error payload.
- `Parser` (parser.dfy) is the class `Parser` of frontend/parser.ts. It has
  the fields `tokens` and `cursor`, and one method per parsing function. Each
  method is proved against a recursive function of the buffer and the start
  position (`Primary`, `Multiplicative`/`MulLoop`, `Additive`/`AddLoop`,
  `Expr`, `Program`).
- `ParserProperties` (parser_properties.dfy) proves the grammar's guarantees:
  - a printer whose output the parser reads back into the same tree, which
    gives precedence and left association for every printable tree;
  - operators restricted to `+ - * / %`;
  - the values of number literals;
  - the error cases;
  - where the cursor stops.
- `Interpreter` (interpreter.dfy) is `evaluate` of runtime/interpreter.ts.
  `evaluateFile` is an imperative `for` loop (`Interpreter.EvaluateFile`),
  proved against the recursive reading `Interpreter.EvaluateStmts`.
- `Ast`, `Values`, `Chars` and `Wrappers` hold the syntax tree
  (frontend/ast.ts), the runtime values (runtime/values.ts), the character
  classes, and `Option`/`Result`.
- `Pipeline` (pipeline.dfy) has `Pipeline.ParseFresh`, which is what repl.ts
  does with a line: `new Parser().produceAst(input)` (repl.ts:12-13).
  `Pipeline.Run` then passes the tree to `evaluate`. No file of the program
  makes that composition: repl.ts prints the tree, and the only calls of
  `evaluate` are inside runtime/interpreter.ts itself. `Run` states what
  parsing followed by evaluation would give, and it holds the one finding
  below.

Thrown JavaScript errors are `Err` values:
- `Lexer.LexError`;
- `Parser.ParseError`, including `UndefinedToken` for reading the `type` of
  the undefined token past the end of the buffer;
- `Interpreter.EvalError`.

The syntax tree has one constructor per node tag string used anywhere in the
program. These are `File`, `BinaryExpr`, `Identifier` and `NumbericLiteral`,
which the parser builds, plus `NumericLiteral` and `NullLiteral`, which the
evaluator looks for.

Three behaviours of the code that a reader might not expect:
- **Parser state across calls.** `produceAst` replaces the token buffer but
  keeps the cursor (frontend/parser.ts:15-21). `Parser.Parser.ProduceAst`
  starts at the old cursor, and `Pipeline.StaleCursor` shows a second call on
  a reused parser dropping its first statement. repl.ts builds a new parser
  for every line, so it never meets this.
- **`null`.** The lexer makes a `Null` token for `null`, but `primary`
  rejects it (frontend/parser.ts:131-134). So no source text reaches the
  evaluator's `NullLiteral` case (`ParserProperties.NonOperandRejected`).
- **Literal tag.** The parser tags number literals `NumbericLiteral`
  (frontend/parser.ts:122). `evaluate` matches only `NumericLiteral`
  (runtime/interpreter.ts:78), so it cannot evaluate any tree the parser
  builds (see "## Findings").

## Model

| member | source | states |
|---|---|---|
| Chars.IsAlpha | frontend/lexer.ts:57-59 | an ASCII letter (no contract of its own; see "## Left out" for what the source accepts beyond ASCII) |
| Chars.IsDigit | frontend/lexer.ts:61-64 | a character from `0` to `9` (no contract of its own; `Lexer.StepCases` and `Lexer.ScanNumberHead` state what the scan does with it) |
| Chars.IsSkippable | frontend/lexer.ts:66-69 | space, newline, carriage return or tab (no contract of its own; `Lexer.StepCases` states that exactly these are skipped) |
| Chars.RunEnd | frontend/lexer.ts:91-93 | the inner loop stops at the first character outside the class: every character before the stop is in the class, and the stop is the end or a character outside it |
| Chars.RunEndUnique | frontend/lexer.ts:103-105 | an index with those two properties is the run end, so a scan that stops at the first non-member stops exactly there |
| Chars.StripWhitespace | frontend/lexer.ts:66-69 | the source without the four skippable characters; none remains and the result is no longer than the input |
| Chars.StripWhitespaceAppend | frontend/lexer.ts:83-86 | stripping whitespace distributes over concatenation |
| Chars.StripWhitespaceNoop | frontend/lexer.ts:83-86 | a text without whitespace is left as it is |
| Lexer.ReservedKeyword | frontend/lexer.ts:34-38 | `let`, `const` and `null` and their kinds (no contract of its own; `Lexer.KeywordExactness` states the lookup) |
| Lexer.SingleChar | frontend/lexer.ts:40-55 | the twelve one-character symbols and their kinds (no contract of its own; `Lexer.ScanSymbolStep` and `Lexer.StepOfSymbol` state their use) |
| Lexer.KindOfWord | frontend/lexer.ts:95-100 | an exact match on the listed keys: a keyword kind for a reserved word, else Identifier; see "## Left out" for JavaScript's prototype lookup (no contract of its own; `Lexer.KeywordExactness` states it in both directions) |
| Lexer.KeywordExactness | frontend/lexer.ts:95-100 | a letter run gets kind Let, Const or Null exactly when it is `let`, `const` or `null`, and Identifier otherwise |
| Lexer.ScanStep | frontend/lexer.ts:83-117 | one loop iteration that emits a token consumes at least one character and no more than remain |
| Lexer.Scan | frontend/lexer.ts:82-119 | the outer loop read as a recursive function (no contract of its own; `Lexer.ScanWellFormed`, `Lexer.ScanValues`, `Lexer.ScanFailsAtFirstBadChar`, `Lexer.ScanNeverSplitsRun` and `Lexer.ScanSpelled` state its properties) |
| Lexer.StepCases | frontend/lexer.ts:82-118 | one iteration skips exactly on whitespace, fails exactly on a character that is not whitespace, a letter, a digit or a symbol (with that character's code), and otherwise emits a well-formed token whose text is the consumed prefix |
| Lexer.ScanWellFormed | frontend/lexer.ts:82-119 | every scanned token is well formed, and there are no more tokens than characters |
| Lexer.Lex | frontend/lexer.ts:121-122 | on success the last token is EOF and no earlier token has kind EOF |
| Lexer.ReadRun | frontend/lexer.ts:90-93 | the nested loop returns the cursor at the end of the maximal run and `ident` equal to the run's text |
| Lexer.Tokenize | frontend/lexer.ts:75-123 | the imperative cursor loop returns exactly `Lex(source)`: the scanned tokens followed by EOF, or the first error |
| Lexer.ScanSkipStep | frontend/lexer.ts:83-86 | skipping a whitespace character keeps the loop invariant with no token added |
| Lexer.ScanWordHead | frontend/lexer.ts:89-100 | a maximal run of letters at the head of the text is scanned as one token of kind `KindOfWord` |
| Lexer.ScanWordStep | frontend/lexer.ts:89-100 | the letter branch keeps the loop invariant with the run's token pushed |
| Lexer.ScanNumberHead | frontend/lexer.ts:101-107 | a maximal run of digits at the head of the text is scanned as one Number token |
| Lexer.ScanNumberStep | frontend/lexer.ts:101-107 | the digit branch keeps the loop invariant with the run's token pushed |
| Lexer.ScanSymbolStep | frontend/lexer.ts:108-117 | a mapped symbol pushes a one-character token of its mapped kind; any other character makes the whole result that character's error |
| Lexer.StepOfWord | frontend/lexer.ts:89-100 | a well-formed word token followed by a non-letter is scanned as that token, consuming its text |
| Lexer.StepOfNumber | frontend/lexer.ts:101-107 | a well-formed number token followed by a non-digit is scanned as that token |
| Lexer.StepOfSymbol | frontend/lexer.ts:108-114 | a symbol token is scanned as itself whatever follows it |
| Lexer.StepOfGlued | frontend/lexer.ts:91-93 | a word or number token followed by a character of its own class is scanned as a different token |
| Lexer.FirstCharClass | frontend/lexer.ts:89-114 | a well-formed token has non-empty text; a symbol or number token does not start with a letter, and a non-number token does not start with a digit |
| Lexer.ScanValues | frontend/lexer.ts:82-119 | the scanned token texts, concatenated, are the source without whitespace |
| Lexer.LexRoundTrip | frontend/lexer.ts:82-122 | all tokens but the final EOF spell out the source with spaces, newlines, carriage returns and tabs removed |
| Lexer.StripWhitespaceEmpty | frontend/lexer.ts:83-86 | the stripped text is empty iff every character is whitespace |
| Lexer.ValuesEmpty | frontend/lexer.ts:89-114 | well-formed tokens spell the empty text iff there are none |
| Lexer.ScanOkIffAllowed | frontend/lexer.ts:108-117 | the scan succeeds if and only if every character is allowed |
| Lexer.ScanFailsAt | frontend/lexer.ts:116 | the first disallowed character is the one reported |
| Lexer.ScanFailsAtFirstBadChar | frontend/lexer.ts:108-117 | both directions of success, and the error names the first disallowed character |
| Lexer.LexFailsAtFirstBadChar | frontend/lexer.ts:108-117 | `tokenize` succeeds iff every character is allowed; otherwise it fails with the code of the first disallowed character and returns no tokens |
| Lexer.LexIsScanThenEof | frontend/lexer.ts:121-122 | `tokenize` gives `ts` plus EOF exactly when the scan gives `ts` |
| Lexer.LexOnlyEof | frontend/lexer.ts:83-86 | the only token is EOF if and only if the source is all whitespace |
| Lexer.LexTokensWellFormed | frontend/lexer.ts:89-114 | every token but EOF is well formed, as follows: a word token is a non-empty letter run with its keyword kind; a Number token is a non-empty digit run; a symbol token is its one mapped character |
| Lexer.ScanTakesLongestRun | frontend/lexer.ts:89-107 | maximal munch: a letter or digit at the head starts a token that is the whole run there |
| Lexer.ScanCons | frontend/lexer.ts:89-114 | a well-formed token followed by text it cannot run into is scanned back as itself |
| Lexer.ScanConsGlued | frontend/lexer.ts:91-93 | a letter run followed by a letter (digits by a digit) is not scanned back as that token |
| Lexer.ScanOfValues | frontend/lexer.ts:89-114 | scanning the concatenated text of well-formed tokens gives them back iff no two neighbours are both word runs or both digit runs |
| Lexer.ScanNeverSplitsRun | frontend/lexer.ts:89-107 | maximal munch for every token: in text without whitespace no two neighbouring tokens are both words or both numbers, so a run of letters or digits never becomes two tokens |
| Lexer.LexOfValues | frontend/lexer.ts:82-122 | the same for `tokenize`, with the final EOF |
| Lexer.ScanSpelled | frontend/lexer.ts:82-119 | well-formed tokens written out with a space after each scan back to exactly those tokens |
| Lexer.LexSpelled | frontend/lexer.ts:82-122 | the same for `tokenize`, followed by EOF |
| Lexer.LexWord | frontend/lexer.ts:95-100 | a whole-input letter run is one token of its word kind, then EOF |
| Lexer.LetIsKeyword | frontend/lexer.ts:35 | `let` is one Let token, then EOF |
| Lexer.NullIsKeyword | frontend/lexer.ts:37 | `null` is one Null token, then EOF |
| Lexer.LongerWordIsIdentifier | frontend/lexer.ts:95-100 | `letx` is one Identifier token, then EOF |
| Lexer.UnknownCharacterRejected | frontend/lexer.ts:116 | `@` fails with character code 64 |
| LegacyLexer.ReservedKeyword | main.ts:31-34 | only `let` and `const`, with their kinds; `null` is not a keyword (no contract of its own; `LegacyLexer.NullIsIdentifier` and `LegacyLexer.AgreesWithLexer` state it) |
| LegacyLexer.SingleChar | main.ts:36-49 | the twelve one-character symbols and their kinds (no contract of its own; `LegacyLexer.SymbolStep` and `LegacyLexer.AgreesWithLexer` state its use) |
| LegacyLexer.KindOfWord | main.ts:88-93 | an exact match on the listed keys: `let` and `const` get their kinds, every other word is an Identifier; see "## Left out" for JavaScript's prototype lookup (no contract of its own; `LegacyLexer.NullIsIdentifier` and `LegacyLexer.AgreesWithLexer` state it) |
| LegacyLexer.Reversed | main.ts:74 | the reversed character array has the length of the source |
| LegacyLexer.ReversedAt | main.ts:74 | element `k` of the reversed array is the `k`-th character from the end |
| LegacyLexer.PopVisitsInOrder | main.ts:77-78 | the top of the stack is the first unread character, and popping it leaves the stack of the rest |
| LegacyLexer.ScanStep | main.ts:83-108 | an emitting iteration consumes at least one character and no more than remain |
| LegacyLexer.LexFrom | main.ts:76-110 | the stack loop from an unread position, read as a recursive function (no contract of its own; `LegacyLexer.ScanAgrees` ties it to `Lexer.Scan`) |
| LegacyLexer.Lex | main.ts:71-113 | what main.ts's `tokenize` returns (no contract of its own; `LegacyLexer.AgreesWithLexer`, `LegacyLexer.RoundTrip` and `LegacyLexer.FailsAtFirstBadChar` state its properties) |
| LegacyLexer.PopRun | main.ts:84-87 | the inner pop loop takes exactly the maximal run at the unread position and leaves the stack of what follows |
| LegacyLexer.Tokenize | main.ts:71-113 | the stack loop returns exactly `Lex(source)` |
| LegacyLexer.SkipStep | main.ts:77-80 | popping whitespace keeps the loop invariant with no token added |
| LegacyLexer.WordStep | main.ts:83-93 | the letter branch keeps the invariant with the run's token pushed |
| LegacyLexer.NumberStep | main.ts:94-99 | the digit branch keeps the invariant with the run's token pushed |
| LegacyLexer.SymbolStep | main.ts:100-108 | a mapped symbol pushes its token; any other character makes the result that character's error |
| LegacyLexer.FromTokens | main.ts:1-24 | frontend/lexer.ts tokens read with main.ts's kinds, element by element |
| LegacyLexer.RunEndShift | main.ts:85 | a run measured inside the text is the run at the head of the remaining text |
| LegacyLexer.StepAgrees | main.ts:76-110 | one iteration of each tokenizer does the same thing; only `null`'s kind and the error payload differ |
| LegacyLexer.ScanAgrees | main.ts:76-112 | the two scans agree on every suffix of the source |
| LegacyLexer.AgreesWithLexer | main.ts:71-113 | both tokenizers succeed on the same sources; main.ts's tokens are frontend/lexer.ts's minus the final EOF, with `null` as an Identifier; both fail on the same character |
| LegacyLexer.EmptyExactlyOnWhitespace | main.ts:76-112 | the result is empty if and only if the source is all whitespace (no end-of-input token) |
| LegacyLexer.RoundTrip | main.ts:76-112 | the token texts spell out the source without whitespace |
| LegacyLexer.ValuesAgree | main.ts:86 | the concatenated token texts are the same in both tokenizers |
| LegacyLexer.FailsAtFirstBadChar | main.ts:100-108 | success exactly when every character is allowed; otherwise the error carries the first disallowed character |
| LegacyLexer.LexWord | main.ts:83-93 | a whole-input letter run is one token of main.ts's word kind |
| LegacyLexer.NullIsIdentifier | main.ts:31-34 | `null` is an Identifier token and `let` a Let token |
| Ast.NodeType | frontend/ast.ts:1-5 | the tag is one of the four `AstNodeType` strings exactly for the four node kinds frontend/ast.ts declares; `NumericLiteral` and `NullLiteral` carry the evaluator's own tags, outside the union |
| Ast.NodeTypeNamesKind | runtime/interpreter.ts:71-91 | two nodes have the same tag exactly when they are of the same kind, so the evaluator's dispatch on the tag tells every kind apart |
| Values.ValueType | runtime/values.ts:1 | a value's tag is `number` or `null`, and `number` exactly for numbers |
| Parser.ParseFloat | frontend/parser.ts:123 | `parseFloat` of a token text: the value of its leading digits (no contract of its own; `ParserProperties.ParseFloatOfDigits` and `ParserProperties.ParseFloatOfNat` state it) |
| Parser.IsAdditive | frontend/parser.ts:67-70 | `ADDICATIVE_OPERATORS`: Plus and Minus (no contract of its own; `ParserProperties.OperatorToken` and `ParserProperties.ProgramArithmetic` state which operators the loops build) |
| Parser.IsMultiplicative | frontend/parser.ts:90-94 | `MULTIPLICATIVE_OPERATORS`: Multiply, Divide and Modulo (no contract of its own; `ParserProperties.OperatorToken` and `ParserProperties.ProgramArithmetic` state it) |
| Parser.Primary | frontend/parser.ts:111-136 | a successful primary consumes at least one token; on a buffer ending in EOF it never reads past the end and stops inside the buffer |
| Parser.Multiplicative | frontend/parser.ts:87-109 | consumes at least one token and stops inside the buffer; no read past the end on an EOF-terminated buffer |
| Parser.MulLoop | frontend/parser.ts:96-106 | the `* / %` loop never moves backwards and stops inside the buffer |
| Parser.Additive | frontend/parser.ts:64-85 | consumes at least one token and stops inside the buffer; no read past the end on an EOF-terminated buffer |
| Parser.AddLoop | frontend/parser.ts:72-82 | the `+ -` loop never moves backwards and stops inside the buffer |
| Parser.Expr | frontend/parser.ts:60-62 | consumes at least one token and stops inside the buffer |
| Parser.Program | frontend/parser.ts:28-30 | a successful statement loop stops on an EOF token; on an EOF-terminated buffer the only errors are real parse errors |
| Parser.Parser.constructor | frontend/parser.ts:15-18 | a new parser has an empty buffer and cursor 0 |
| Parser.Parser.At | frontend/parser.ts:35-37 | the token under the cursor, defined exactly inside the buffer |
| Parser.Parser.Eat | frontend/parser.ts:39-41 | returns the token under the cursor and advances the cursor by one, even past the end |
| Parser.Parser.EatExpected | frontend/parser.ts:43-50 | advances by one and succeeds iff the eaten token exists and has the expected kind; otherwise names the token found, or is the past-the-end TypeError |
| Parser.Parser.IsEOF | frontend/parser.ts:52-54 | whether the token under the cursor is EOF; a TypeError past the end |
| Parser.Parser.ProduceAst | frontend/parser.ts:20-33 | a lexer error is passed on with the state unchanged; otherwise the buffer is the new tokens and the result is the statement loop run from the old cursor, with the cursor left where that loop stopped |
| Parser.Parser.ParseStmt | frontend/parser.ts:56-58 | returns `Expr` from the cursor and moves the cursor to where it stops |
| Parser.Parser.ParseExpr | frontend/parser.ts:60-62 | returns `Expr` from the cursor and moves the cursor to where it stops |
| Parser.Parser.ParseAdditive | frontend/parser.ts:64-85 | the `while` loop builds exactly `Additive` from the cursor and leaves the cursor where it stops |
| Parser.Parser.ParseMultiplicative | frontend/parser.ts:87-109 | the `while` loop builds exactly `Multiplicative` from the cursor and leaves the cursor where it stops |
| Parser.Parser.ParsePrimary | frontend/parser.ts:111-136 | returns exactly `Primary` from the cursor and leaves the cursor where it stops |
| Parser.StmtStep | frontend/parser.ts:28-30 | pushing one parsed statement keeps the statement loop's invariant |
| ParserProperties.Digits | frontend/parser.ts:123 | the decimal digits of a natural number: non-empty and all digits |
| ParserProperties.DecimalValueOfDigits | frontend/parser.ts:123 | reading back the digits of `n` gives `n` |
| ParserProperties.ParseFloatOfDigits | frontend/parser.ts:123 | `parseFloat` of a digit string is the number it denotes |
| ParserProperties.ParseFloatOfNat | frontend/parser.ts:123 | `parseFloat` gives back any natural number from its digits |
| ParserProperties.PrintedTokensWellFormed | frontend/parser.ts:111-130 | the printer emits only tokens the lexer can produce |
| ParserProperties.ExprReads | frontend/parser.ts:60-109 | a tree laid out in the buffer is parsed back as itself, stopping right after it |
| ParserProperties.ProgramReads | frontend/parser.ts:28-30 | laid-out statements followed by EOF parse to the same statements, in order |
| ParserProperties.ProgramReadsCons | frontend/parser.ts:28-30 | a parsed first statement followed by parsed remaining statements is the whole program |
| ParserProperties.ExprRoundTrip | frontend/parser.ts:64-109 | parsing the print of any printable tree, followed by a non-operator, gives back exactly that tree; so `+ -` and `* / %` fold to the left, products bind tighter, and parentheses add no node |
| ParserProperties.ProgramRoundTrip | frontend/parser.ts:28-30 | printed statements followed by EOF parse to the same statements in the same order, stopping on EOF |
| ParserProperties.ParsePrintedProgram | frontend/parser.ts:20-33 | the whole program form: printed statements plus the final EOF token |
| ParserProperties.OperatorToken | frontend/parser.ts:73 | an operator token's text is one of the five operator strings, of that kind |
| ParserProperties.PrimaryArithmetic | frontend/parser.ts:111-130 | a primary built from lexer tokens uses only the five operators |
| ParserProperties.MulArithmetic | frontend/parser.ts:96-106 | the `* / %` loop adds only those operators |
| ParserProperties.MulOperandArithmetic | frontend/parser.ts:87-109 | a multiplicative operand uses only the five operators |
| ParserProperties.AddArithmetic | frontend/parser.ts:64-85 | an additive expression uses only the five operators |
| ParserProperties.AddLoopArithmetic | frontend/parser.ts:72-82 | the `+ -` loop adds only those operators |
| ParserProperties.ProgramArithmetic | frontend/parser.ts:67-97 | every statement parsed from lexer output has only `+ - * / %` operators and Identifier or NumbericLiteral leaves |
| ParserProperties.NonOperandRejected | frontend/parser.ts:131-134 | a token other than Identifier, Number or `(` in operand position fails with `Unexpected token` naming it; this covers EOF, `null`, `let`, `=` and `)` |
| ParserProperties.PrimaryErrorPropagates | frontend/parser.ts:65 | a failing operand fails the whole expression with its error |
| ParserProperties.UnclosedParenRejected | frontend/parser.ts:125-129 | a `(` expression not followed by `)` fails in `eatExpected`, naming the token found |
| ParserProperties.ProgramEndsOnFinalEof | frontend/parser.ts:28-30 | on `tokenize` output a successful parse ends with the cursor on the final EOF token |
| ParserProperties.NeverPastEnd | frontend/parser.ts:35-54 | on `tokenize` output, parsing from inside the buffer never reads past its end |
| ParserProperties.LeafAt | frontend/parser.ts:120-124 | a number token is the one-token layout of its literal |
| ParserProperties.OperatorNodes | frontend/parser.ts:67-94 | `+` and `-` nodes are additive, `*` nodes multiplicative, and their tokens are the lexer's |
| ParserProperties.LeftAssociative | frontend/parser.ts:72-82 | `x - y - z` parses to `(x - y) - z` |
| ParserProperties.ProductBindsTighter | frontend/parser.ts:74 | `x + y * z` parses with the product as the sum's right operand |
| ParserProperties.TwoStatements | frontend/parser.ts:28-30 | `a b` is two statements, in source order |
| ParserProperties.MissingCloseParen | frontend/parser.ts:128 | `( x + y` followed by EOF fails because `)` was expected and EOF found |
| Interpreter.IsOperator | runtime/interpreter.ts:44-59 | the five operator cases of the switch (no contract of its own; `Interpreter.EvaluateNumericBinaryExpr` succeeds exactly on them) |
| Interpreter.Divide | runtime/interpreter.ts:54-55 | for a non-zero divisor, the quotient times the divisor is the dividend; a zero divisor gives 0 (see "## Left out") |
| Interpreter.Remainder | runtime/interpreter.ts:57-58 | JavaScript's truncating `%` (no contract of its own; `Interpreter.RemainderProperties` states it) |
| Interpreter.EvaluateNumericBinaryExpr | runtime/interpreter.ts:37-68 | succeeds exactly on the five operators, always with a number; any other operator is `Unknown operator` |
| Interpreter.Evaluate | runtime/interpreter.ts:70-93 | dispatch on the node tag (no contract of its own; `Interpreter.KindPredictsEvaluation`, `Interpreter.LeafEvaluation` and `Interpreter.FileEvaluation` state its properties) |
| Interpreter.EvaluateStmts | runtime/interpreter.ts:12-14 | the statement loop read as a recursive function (no contract of its own; `Interpreter.StmtsResult` and `Interpreter.StmtsFirstError` state it) |
| Interpreter.EvaluateBinaryExpr | runtime/interpreter.ts:19-35 | left operand, right operand, then the operator on two numbers or null (no contract of its own; `Interpreter.LeftOperandFirst`, `Interpreter.NullOperandGivesNull` and `Interpreter.NumberOperands` state it) |
| Interpreter.EvaluateFile | runtime/interpreter.ts:6-17 | the `for` loop over the statements returns exactly the recursive reading of the file |
| Interpreter.StmtsResult | runtime/interpreter.ts:12-14 | a run of statements succeeds iff each one does, with the last statement's value |
| Interpreter.FileEvaluation | runtime/interpreter.ts:6-16 | a file succeeds iff each statement does; its value is the last statement's, or null for no statements |
| Interpreter.StmtsFirstError | runtime/interpreter.ts:12-14 | the first failing statement decides the error |
| Interpreter.FileFirstError | runtime/interpreter.ts:12-14 | for a file, the first failing statement decides the error |
| Interpreter.KindPredictsEvaluation | runtime/interpreter.ts:70-93 | evaluation succeeds exactly on the trees an independent static kind check accepts, and gives a number exactly when that check says number |
| Interpreter.LeftOperandFirst | runtime/interpreter.ts:20-21 | the left operand is evaluated first: its error wins |
| Interpreter.NullOperandGivesNull | runtime/interpreter.ts:23-34 | a null operand makes the expression null, whatever the operator |
| Interpreter.NumberOperands | runtime/interpreter.ts:23-29 | two number operands go to the operator |
| Interpreter.UnknownOperatorRejected | runtime/interpreter.ts:60-61 | on two numbers, the expression fails exactly when the operator is not one of the five, with `Unknown operator` |
| Interpreter.LeafEvaluation | runtime/interpreter.ts:78-91 | NumericLiteral gives its number and NullLiteral null; Identifier and the parser's NumbericLiteral are `Unsupported AST node type` |
| Interpreter.RemainderProperties | runtime/interpreter.ts:57-58 | `%` as JavaScript defines it: dividend = divisor times the quotient rounded toward zero, plus the remainder; the remainder is smaller than the divisor in magnitude and has the dividend's sign |
| Interpreter.ArithmeticExamples | runtime/interpreter.ts:54-58 | `10 / 4` is 2.5, `10 % 3` is 1, `-7 % 2` is -1 and `7 % -2` is 1 |
| Pipeline.ParseSource | repl.ts:12-13 | `new Parser().produceAst(source)` read as a function (no contract of its own; `Pipeline.ParseFresh` ties it to the class, `Pipeline.TextRoundTrip` states a round trip through it) |
| Pipeline.ParseFresh | repl.ts:12-13 | a freshly constructed parser's `produceAst` is the parse from the first token |
| Pipeline.ParsedTreeFails | runtime/interpreter.ts:90-91 | every tree the parser builds throws `Unsupported AST node type` (Identifier or NumbericLiteral) when evaluated |
| Pipeline.Run | runtime/interpreter.ts:70-93 | parsing followed by `evaluate`, a composition no file of the program makes (no contract of its own; `Pipeline.RunFailsOnEveryStatement` states it) |
| Pipeline.LexedTokens | frontend/lexer.ts:75-123 | `tokenize` output satisfies what the parser lemmas ask of a token buffer |
| Pipeline.RunFailsOnEveryStatement | frontend/parser.ts:122 | as written: every source that parses to at least one statement fails to evaluate, with `Unsupported AST node type` |
| Pipeline.Retag | frontend/parser.ts:122 | the corrected tag: every `NumbericLiteral` becomes `NumericLiteral`, nothing else changes (no contract of its own; `Pipeline.RetagAll`, `Pipeline.RetaggedKind` and `Pipeline.CorrectedRun` state it) |
| Pipeline.RetagAll | frontend/parser.ts:122 | each statement retagged, in order |
| Pipeline.RetaggedKind | runtime/interpreter.ts:78-82 | a retagged parser tree is accepted by the kind check exactly when it has no identifier, and then it is a number |
| Pipeline.RunCorrected | runtime/interpreter.ts:78-82 | `Run` with the evaluator's literal tag (no contract of its own; `Pipeline.CorrectedRun`, `Pipeline.SubtractionFoldsLeft` and `Pipeline.ProductFirst` state it) |
| Pipeline.OpKindIsOperator | runtime/interpreter.ts:44-59 | every operator the parser can build is one the evaluator knows |
| Pipeline.CorrectedRun | runtime/interpreter.ts:70-93 | corrected: a parsed program evaluates iff none of its statements names an identifier, and then to a number exactly when it has a statement |
| Pipeline.OneStatement | frontend/parser.ts:28-30 | one expression followed by EOF is a one-statement program |
| Pipeline.DifferenceValue | runtime/interpreter.ts:19-29 | `(x - y) - z` evaluates to its difference once retagged |
| Pipeline.SumOfProductValue | runtime/interpreter.ts:19-29 | `x + (y * z)` evaluates to `x + y * z` once retagged |
| Pipeline.DifferenceParse | frontend/parser.ts:64-85 | the tokens of `x - y - z` are one statement, `(x - y) - z` |
| Pipeline.SumOfProductParse | frontend/parser.ts:64-109 | the tokens of `x + y * z` are one statement, `x + (y * z)` |
| Pipeline.SubtractionFoldsLeft | frontend/parser.ts:72-82 | with the corrected tag, `x - y - z` evaluates to `(x - y) - z` (so `8 - 3 - 2` is 3) |
| Pipeline.ProductFirst | frontend/parser.ts:74 | with the corrected tag, `x + y * z` evaluates to `x + y * z` (so `2 + 3 * 4` is 14) |
| Pipeline.ProgramTokensWellFormed | frontend/parser.ts:28-30 | printed programs consist of lexer-producible tokens |
| Pipeline.TextRoundTrip | frontend/parser.ts:20-33 | printing statements as text, a space after each token, and parsing it on a fresh parser gives back the same statements |
| Pipeline.StaleCursor | frontend/parser.ts:20-21 | a reused parser keeps its cursor: after `a` the cursor sits on index 1, so parsing `b c` next yields only `c` |
| Pipeline.SingleNumber | frontend/parser.ts:120-124 | a number token followed by EOF is a one-statement program of its literal |

## Left out

- I/O is not modelled. This covers repl.ts's prompt loop with its `exit` test, the `main` functions of frontend/lexer.ts and main.ts, and `console.log`. `Pipeline.ParseFresh` is the call repl.ts makes on each line. `Pipeline.Run` is a composition the program never makes.
- The `trim` that repl.ts applies to each line (repl.ts:7) is not modelled. `Pipeline.ParseSource` takes the text as given.
- Chars.IsAlpha: only ASCII letters count as letters. The source tests whether upper- and lower-casing differ, which also accepts other Unicode letters. UTF-16 splitting is not modelled either.
- Lexer.KindOfWord: the keyword lookup is an exact match on the listed keys. `tokenize` indexes the `RESERVED_KEYWORDS` object and tests the hit for truthiness (frontend/lexer.ts:94-95). A letter run such as `constructor`, `toString` or `valueOf` would therefore find an `Object.prototype` member and be pushed with that as its kind, not as an Identifier. This prototype lookup is not modelled.
- LegacyLexer.KindOfWord: the same exact match stands for main.ts's lookup, which has the same prototype hits (main.ts:88-89). This is not modelled either.
- Interpreter.EvaluateNumericBinaryExpr: numbers are unbounded reals, not IEEE-754 doubles. Division and remainder by zero give 0 rather than Infinity or NaN, and rounding is not modelled.
- Interpreter.Divide: a zero divisor gives 0 instead of IEEE Infinity or NaN.
- Interpreter.Remainder: same substitution for a zero divisor.
- Parser.ParseFloat: it reads a number token's leading digits exactly. The precision loss of `parseFloat` above 2^53 is not modelled.
- Error message text is not modelled. Errors are datatype values carrying the offending character, token or node tag.
- Parser.Parser.ProduceAst: after a thrown error the new state is left unstated. Only successful runs state where the cursor ends.
- The TypeScript-level import mismatch of runtime/interpreter.ts (`NumericLiteral` and `FileNode` are not exported by frontend/ast.ts) is not modelled. The evaluator's tags are modelled as constructors of the one node type.
- Termination is proved by `decreases` clauses on every loop and recursive function, not by separate lemmas.

## Findings

| source | as written | input that shows it | evidently intended | confidence | as-written member | corrected member |
|---|---|---|---|---|---|---|
| frontend/parser.ts:122 | the parser tags number literals `NumbericLiteral`, but `evaluate` matches only `NumericLiteral` (runtime/interpreter.ts:78), so every parsed program with a statement throws `Unsupported AST node type`. No file of the program passes a parsed tree to `evaluate`, and repl.ts trims each line and only prints the tree, so the defect shows only once the two are composed | `1 + 2` (any source with at least one statement) | number literals carry the tag the evaluator handles, so arithmetic evaluates | not executed | Pipeline.RunFailsOnEveryStatement | Pipeline.CorrectedRun |
