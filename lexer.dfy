/** The tokenizer of frontend/lexer.ts: a left-to-right cursor scan that turns
    source text into tokens and appends one end-of-input token. */
module Lexer {
  import opened Wrappers
  import opened Chars

  datatype TokenType =
    | Identifier | Number
    | Plus | Minus | Multiply | Divide | Modulo | Equal
    | OpenParen | CloseParen | OpenBrace | CloseBrace | OpenBracket | CloseBracket
    | Let | Const | Null
    | EOF

  /** A token: its source text and its kind (the source's `type` field). */
  datatype Token = Token(value: string, kind: TokenType)

  /** The thrown "Unexpected character" error, carrying the character's code. */
  datatype LexError = UnexpectedCharacter(code: int)

  /** `RESERVED_KEYWORDS`, looked up by exact string match. */
  function ReservedKeyword(w: string): Option<TokenType> {
    if w == "let" then Some(Let)
    else if w == "const" then Some(Const)
    else if w == "null" then Some(Null)
    else None
  }

  /** `SINGLECHAR_MAP`: the twelve one-character symbols. */
  function SingleChar(c: char): Option<TokenType> {
    match c
    case '+' => Some(Plus)
    case '-' => Some(Minus)
    case '*' => Some(Multiply)
    case '/' => Some(Divide)
    case '%' => Some(Modulo)
    case '=' => Some(Equal)
    case '(' => Some(OpenParen)
    case ')' => Some(CloseParen)
    case '{' => Some(OpenBrace)
    case '}' => Some(CloseBrace)
    case '[' => Some(OpenBracket)
    case ']' => Some(CloseBracket)
    case _ => None
  }

  const EofToken: Token := Token("EOF", EOF)

  /** The kind given to a run of letters: a keyword kind on an exact match, else Identifier. */
  function KindOfWord(w: string): TokenType {
    match ReservedKeyword(w)
    case Some(k) => k
    case None => Identifier
  }

  /** Keyword lookup is an exact whole-word match: only `let`, `const` and `null`
      get keyword kinds, and every other word (`letx`, `Let`, `nul`) is an Identifier. */
  lemma KeywordExactness(w: string)
    ensures KindOfWord(w) == Let <==> w == "let"
    ensures KindOfWord(w) == Const <==> w == "const"
    ensures KindOfWord(w) == Null <==> w == "null"
    ensures KindOfWord(w) == Identifier <==> w != "let" && w != "const" && w != "null"
    ensures IsWordKind(KindOfWord(w))
  {
  }

  predicate IsWordKind(k: TokenType) {
    k == Identifier || k == Let || k == Const || k == Null
  }

  /** A character the scanner accepts somewhere. */
  predicate Allowed(c: char) {
    IsSkippable(c) || IsAlpha(c) || IsDigit(c) || SingleChar(c).Some?
  }

  /** The shape of every token the scanner can emit (before the final EOF). */
  predicate WellFormed(t: Token) {
    if IsWordKind(t.kind) then
      t.value != [] && (forall k :: 0 <= k < |t.value| ==> IsAlpha(t.value[k]))
      && t.kind == KindOfWord(t.value)
    else if t.kind == Number then
      t.value != [] && forall k :: 0 <= k < |t.value| ==> IsDigit(t.value[k])
    else if t.kind == EOF then
      false
    else
      |t.value| == 1 && SingleChar(t.value[0]) == Some(t.kind)
  }

  /** What one iteration of the outer loop does at the start of the unread text. */
  datatype Step = Skip | Emit(token: Token, width: nat) | Fail(error: LexError)

  function ScanStep(s: string): (st: Step)
    requires s != []
    ensures st.Emit? ==> 0 < st.width <= |s|
  {
    if IsSkippable(s[0]) then Skip
    else if IsAlpha(s[0]) then
      var n := RunEnd(s, 0, IsAlpha);
      Emit(Token(s[..n], KindOfWord(s[..n])), n)
    else if IsDigit(s[0]) then
      var n := RunEnd(s, 0, IsDigit);
      Emit(Token(s[..n], Number), n)
    else
      match SingleChar(s[0])
      case Some(k) => Emit(Token([s[0]], k), 1)
      case None => Fail(UnexpectedCharacter(s[0] as int))
  }

  /** The tokens of `s` without the final EOF: the functional reading of the scan loop. */
  function Scan(s: string): Result<seq<Token>, LexError>
    decreases |s|
  {
    if s == [] then Ok([])
    else
      match ScanStep(s)
      case Skip => Scan(s[1..])
      case Emit(t, n) => Prepend(t, Scan(s[n..]))
      case Fail(e) => Err(e)
  }

  /** One iteration emits a well-formed token whose text is exactly the consumed
      prefix; it skips exactly on whitespace and fails exactly on a disallowed character. */
  lemma StepCases(s: string)
    requires s != []
    ensures ScanStep(s).Skip? <==> IsSkippable(s[0])
    ensures ScanStep(s).Fail? <==> !Allowed(s[0])
    ensures ScanStep(s).Fail? ==> ScanStep(s).error == UnexpectedCharacter(s[0] as int)
    ensures ScanStep(s).Emit? ==>
      WellFormed(ScanStep(s).token) && ScanStep(s).token.value == s[..ScanStep(s).width]
      && forall k :: 0 <= k < ScanStep(s).width ==> Allowed(s[k]) && !IsSkippable(s[k])
  {
    if !IsSkippable(s[0]) && IsAlpha(s[0]) {
      var n := RunEnd(s, 0, IsAlpha);
      KeywordExactness(s[..n]);
    }
  }

  /** Every scanned token is well formed, and there are no more tokens than characters. */
  lemma {:induction false} ScanWellFormed(s: string)
    requires Scan(s).Ok?
    ensures forall k :: 0 <= k < |Scan(s).value| ==> WellFormed(Scan(s).value[k])
    ensures |Scan(s).value| <= |s|
    decreases |s|
  {
    if s != [] {
      StepCases(s);
      match ScanStep(s)
      case Skip => ScanWellFormed(s[1..]);
      case Emit(t, n) => ScanWellFormed(s[n..]);
      case Fail(_) =>
    }
  }

  /** What `tokenize` returns: the scanned tokens followed by exactly one EOF token. */
  function Lex(s: string): (r: Result<seq<Token>, LexError>)
    ensures r.Ok? ==> |r.value| >= 1 && r.value[|r.value| - 1] == EofToken
    ensures r.Ok? ==> forall k :: 0 <= k < |r.value| - 1 ==> r.value[k].kind != EOF
  {
    match Scan(s)
    case Ok(ts) => ScanWellFormed(s); Ok(ts + [EofToken])
    case Err(e) => Err(e)
  }

  // The loop of `Tokenize` keeps `Scan(source) == ExtendBy(tokens, Scan(source[cursor..]))`;
  // each lemma below re-establishes it after one kind of iteration.

  lemma ScanSkipStep(source: string, tokens: seq<Token>, cursor: nat)
    requires cursor < |source| && IsSkippable(source[cursor])
    requires Scan(source) == ExtendBy(tokens, Scan(source[cursor..]))
    ensures Scan(source) == ExtendBy(tokens, Scan(source[cursor + 1..]))
  {
    assert source[cursor..][1..] == source[cursor + 1..];
  }

  /** A maximal run of letters at the head of `s` is scanned as one word token. */
  lemma ScanWordHead(s: string, n: nat)
    requires 0 < n <= |s|
    requires forall k :: 0 <= k < n ==> IsAlpha(s[k])
    requires n == |s| || !IsAlpha(s[n])
    ensures Scan(s) == Prepend(Token(s[..n], KindOfWord(s[..n])), Scan(s[n..]))
  {
    RunEndUnique(s, 0, n, IsAlpha);
    assert ScanStep(s) == Emit(Token(s[..n], KindOfWord(s[..n])), n);
  }

  /** A maximal run of digits at the head of `s` (not starting a word) is scanned as one number token. */
  lemma ScanNumberHead(s: string, n: nat)
    requires 0 < n <= |s| && !IsAlpha(s[0]) && !IsSkippable(s[0])
    requires forall k :: 0 <= k < n ==> IsDigit(s[k])
    requires n == |s| || !IsDigit(s[n])
    ensures Scan(s) == Prepend(Token(s[..n], Number), Scan(s[n..]))
  {
    RunEndUnique(s, 0, n, IsDigit);
    assert ScanStep(s) == Emit(Token(s[..n], Number), n);
  }

  lemma ScanWordStep(source: string, tokens: seq<Token>, start: nat, cursor: nat)
    requires start < cursor <= |source|
    requires forall k :: start <= k < cursor ==> IsAlpha(source[k])
    requires cursor == |source| || !IsAlpha(source[cursor])
    requires Scan(source) == ExtendBy(tokens, Scan(source[start..]))
    ensures Scan(source) ==
      ExtendBy(tokens + [Token(source[start..cursor], KindOfWord(source[start..cursor]))], Scan(source[cursor..]))
  {
    var rest := source[start..];
    var n := cursor - start;
    assert forall k :: 0 <= k < n ==> rest[k] == source[start + k];
    assert rest[..n] == source[start..cursor] && rest[n..] == source[cursor..];
    ScanWordHead(rest, n);
    ExtendByPrepend(tokens, Token(rest[..n], KindOfWord(rest[..n])), Scan(rest[n..]));
  }

  lemma ScanNumberStep(source: string, tokens: seq<Token>, start: nat, cursor: nat)
    requires start < cursor <= |source| && !IsAlpha(source[start]) && !IsSkippable(source[start])
    requires forall k :: start <= k < cursor ==> IsDigit(source[k])
    requires cursor == |source| || !IsDigit(source[cursor])
    requires Scan(source) == ExtendBy(tokens, Scan(source[start..]))
    ensures Scan(source) == ExtendBy(tokens + [Token(source[start..cursor], Number)], Scan(source[cursor..]))
  {
    var rest := source[start..];
    var n := cursor - start;
    assert forall k :: 0 <= k < n ==> rest[k] == source[start + k];
    assert rest[..n] == source[start..cursor] && rest[n..] == source[cursor..];
    ScanNumberHead(rest, n);
    ExtendByPrepend(tokens, Token(rest[..n], Number), Scan(rest[n..]));
  }

  lemma ScanSymbolStep(source: string, tokens: seq<Token>, cursor: nat)
    requires cursor < |source|
    requires !IsSkippable(source[cursor]) && !IsAlpha(source[cursor]) && !IsDigit(source[cursor])
    requires Scan(source) == ExtendBy(tokens, Scan(source[cursor..]))
    ensures var c := source[cursor];
      if SingleChar(c).Some? then
        Scan(source) == ExtendBy(tokens + [Token([c], SingleChar(c).value)], Scan(source[cursor + 1..]))
      else
        Scan(source) == Err(UnexpectedCharacter(c as int))
  {
    var rest := source[cursor..];
    assert rest[0] == source[cursor] && rest[1..] == source[cursor + 1..];
    if SingleChar(source[cursor]).Some? {
      ExtendByPrepend(tokens, Token([source[cursor]], SingleChar(source[cursor]).value), Scan(source[cursor + 1..]));
    }
  }

  /** The inner loop of `tokenize`: gathers the run of `inClass` characters from `start`. */
  method ReadRun(source: string, start: nat, inClass: char -> bool) returns (ident: string, cursor: nat)
    requires start <= |source|
    ensures cursor == RunEnd(source, start, inClass)
    ensures ident == source[start..cursor]
  {
    cursor := start;
    ident := "";
    while cursor < |source| && inClass(source[cursor])
      invariant start <= cursor <= |source|
      invariant ident == source[start..cursor]
      invariant forall k :: start <= k < cursor ==> inClass(source[k])
      decreases |source| - cursor
    {
      ident := ident + [source[cursor]];
      cursor := cursor + 1;
    }
    RunEndUnique(source, start, cursor, inClass);
  }

  /** `tokenize`: the cursor loop, with nested loops for letter and digit runs. */
  method Tokenize(source: string) returns (r: Result<seq<Token>, LexError>)
    ensures r == Lex(source)
  {
    var tokens: seq<Token> := [];
    var cursor := 0;
    assert source[cursor..] == source;
    assert ExtendBy(tokens, Scan(source)) == Scan(source) by {
      if Scan(source).Ok? {
        assert tokens + Scan(source).value == Scan(source).value;
      }
    }
    while cursor < |source|
      invariant 0 <= cursor <= |source|
      invariant Scan(source) == ExtendBy(tokens, Scan(source[cursor..]))
      decreases |source| - cursor
    {
      if IsSkippable(source[cursor]) {
        ScanSkipStep(source, tokens, cursor);
        cursor := cursor + 1;
        continue;
      }
      if IsAlpha(source[cursor]) {
        var start := cursor;
        var ident;
        ident, cursor := ReadRun(source, cursor, IsAlpha);
        ScanWordStep(source, tokens, start, cursor);
        var reserved := ReservedKeyword(ident);
        if reserved.Some? {
          tokens := tokens + [Token(ident, reserved.value)];
        } else {
          tokens := tokens + [Token(ident, Identifier)];
        }
      } else if IsDigit(source[cursor]) {
        var start := cursor;
        var ident;
        ident, cursor := ReadRun(source, cursor, IsDigit);
        ScanNumberStep(source, tokens, start, cursor);
        tokens := tokens + [Token(ident, Number)];
      } else {
        ScanSymbolStep(source, tokens, cursor);
        var c := source[cursor];
        cursor := cursor + 1;
        var mappedType := SingleChar(c);
        if mappedType.Some? {
          tokens := tokens + [Token([c], mappedType.value)];
        } else {
          return Err(UnexpectedCharacter(c as int));
        }
      }
    }
    assert source[cursor..] == [];
    assert Scan(source) == Ok(tokens) by {
      assert tokens + [] == tokens;
    }
    tokens := tokens + [EofToken];
    r := Ok(tokens);
  }

  // ---------------------------------------------------------------------------
  // Properties of the scan

  /** The text of a token sequence, token after token. */
  function Values(ts: seq<Token>): string {
    if ts == [] then [] else ts[0].value + Values(ts[1..])
  }

  /** Round trip: the scanned tokens spell out the source without its whitespace. */
  lemma {:induction false} ScanValues(s: string)
    requires Scan(s).Ok?
    ensures Values(Scan(s).value) == StripWhitespace(s)
    decreases |s|
  {
    if s != [] {
      StepCases(s);
      match ScanStep(s)
      case Skip =>
        ScanValues(s[1..]);
      case Emit(t, n) =>
        assert s == s[..n] + s[n..];
        ScanValues(s[n..]);
        StripWhitespaceAppend(s[..n], s[n..]);
        StripWhitespaceNoop(s[..n]);
    }
  }

  /** Round trip for `tokenize`: all tokens but the final EOF give back the source
      with its spaces, newlines, carriage returns and tabs removed. */
  lemma LexRoundTrip(s: string)
    requires Lex(s).Ok?
    ensures Values(Lex(s).value[..|Lex(s).value| - 1]) == StripWhitespace(s)
  {
    var ts := Lex(s).value;
    assert ts[..|ts| - 1] == Scan(s).value;
    ScanValues(s);
  }

  lemma {:induction false} ScanOkIffAllowed(s: string)
    ensures Scan(s).Ok? <==> forall k :: 0 <= k < |s| ==> Allowed(s[k])
    decreases |s|
  {
    if s != [] {
      StepCases(s);
      var n: nat := if ScanStep(s).Emit? then ScanStep(s).width else 1;
      ScanOkIffAllowed(s[n..]);
      assert forall k :: n <= k < |s| ==> s[n..][k - n] == s[k];
    }
  }

  lemma {:induction false} ScanFailsAt(s: string, i: nat)
    requires i < |s| && !Allowed(s[i]) && forall k :: 0 <= k < i ==> Allowed(s[k])
    ensures Scan(s) == Err(UnexpectedCharacter(s[i] as int))
    decreases |s|
  {
    StepCases(s);
    if i > 0 {
      var n: nat := if ScanStep(s).Emit? then ScanStep(s).width else 1;
      assert n <= i;
      assert s[n..][i - n] == s[i];
      assert forall k :: 0 <= k < i - n ==> s[n..][k] == s[k + n];
      ScanFailsAt(s[n..], i - n);
    }
  }

  lemma ScanFailsAtFirstBadChar(s: string)
    ensures Scan(s).Ok? <==> forall k :: 0 <= k < |s| ==> Allowed(s[k])
    ensures forall i :: 0 <= i < |s| && !Allowed(s[i]) && (forall k :: 0 <= k < i ==> Allowed(s[k])) ==>
              Scan(s) == Err(UnexpectedCharacter(s[i] as int))
  {
    ScanOkIffAllowed(s);
    forall i | 0 <= i < |s| && !Allowed(s[i]) && (forall k :: 0 <= k < i ==> Allowed(s[k]))
      ensures Scan(s) == Err(UnexpectedCharacter(s[i] as int))
    {
      ScanFailsAt(s, i);
    }
  }

  /** `tokenize` succeeds if and only if every character is whitespace, a letter,
      a digit or one of the twelve symbols; otherwise it fails on the first other one. */
  lemma LexFailsAtFirstBadChar(s: string)
    ensures Lex(s).Ok? <==> forall k :: 0 <= k < |s| ==> Allowed(s[k])
    ensures forall i :: 0 <= i < |s| && !Allowed(s[i]) && (forall k :: 0 <= k < i ==> Allowed(s[k])) ==>
              Lex(s) == Err(UnexpectedCharacter(s[i] as int))
  {
    ScanFailsAtFirstBadChar(s);
  }

  lemma {:induction false} StripWhitespaceEmpty(s: string)
    ensures StripWhitespace(s) == [] <==> forall k :: 0 <= k < |s| ==> IsSkippable(s[k])
  {
    if s != [] {
      StripWhitespaceEmpty(s[1..]);
      assert forall k :: 1 <= k < |s| ==> s[1..][k - 1] == s[k];
    }
  }

  lemma {:induction false} ValuesEmpty(ts: seq<Token>)
    requires forall k :: 0 <= k < |ts| ==> WellFormed(ts[k])
    ensures Values(ts) == [] <==> ts == []
  {
    if ts != [] {
      assert WellFormed(ts[0]);
    }
  }

  lemma LexIsScanThenEof(s: string, ts: seq<Token>)
    ensures Lex(s) == Ok(ts + [EofToken]) <==> Scan(s) == Ok(ts)
  {
    if Scan(s).Ok? {
      assert (Scan(s).value + [EofToken])[..|Scan(s).value|] == Scan(s).value;
      assert (ts + [EofToken])[..|ts|] == ts;
    }
  }

  /** Whitespace never yields a token: the only token of an all-whitespace source
      is EOF, and a source whose only token is EOF is all whitespace. */
  lemma LexOnlyEof(s: string)
    ensures Lex(s) == Ok([EofToken]) <==> forall k :: 0 <= k < |s| ==> IsSkippable(s[k])
  {
    StripWhitespaceEmpty(s);
    LexFailsAtFirstBadChar(s);
    LexIsScanThenEof(s, []);
    assert [] + [EofToken] == [EofToken];
    if Scan(s).Ok? {
      ScanValues(s);
      ScanWellFormed(s);
      ValuesEmpty(Scan(s).value);
    }
  }

  /** Every letter-run token is a non-empty run of letters whose kind is a keyword
      kind exactly for `let`, `const` and `null`; every Number token a non-empty run
      of digits; every symbol token the single mapped character. */
  lemma LexTokensWellFormed(s: string)
    requires Lex(s).Ok?
    ensures forall k :: 0 <= k < |Lex(s).value| - 1 ==> WellFormed(Lex(s).value[k])
  {
    ScanWellFormed(s);
  }

  /** Maximal munch at one position: a letter (digit) starts a token that is the
      whole run of letters (digits) there. */
  lemma ScanTakesLongestRun(s: string)
    requires s != [] && (IsAlpha(s[0]) || IsDigit(s[0])) && Scan(s).Ok?
    ensures Scan(s).value != []
    ensures var n := |Scan(s).value[0].value|;
            0 < n <= |s| && Scan(s).value[0].value == s[..n]
            && (n == |s| || (IsAlpha(s[0]) && !IsAlpha(s[n])) || (IsDigit(s[0]) && !IsDigit(s[n])))
  {
    StepCases(s);
  }

  // ---------------------------------------------------------------------------
  // Maximal munch as a round trip: writing well-formed tokens side by side and
  // scanning them back gives the same tokens exactly when no two neighbours are
  // both letter runs or both digit runs.

  /** Two neighbours run together when both are letter runs or both digit runs. */
  predicate Glued(t: Token, rest: string) {
    rest != [] &&
    ((IsWordKind(t.kind) && IsAlpha(rest[0])) || (t.kind == Number && IsDigit(rest[0])))
  }

  predicate NoGlue(ts: seq<Token>) {
    forall k :: 0 <= k < |ts| - 1 ==>
      !(IsWordKind(ts[k].kind) && IsWordKind(ts[k + 1].kind))
      && !(ts[k].kind == Number && ts[k + 1].kind == Number)
  }

  lemma ValuesHead(ts: seq<Token>)
    requires ts != [] && ts[0].value != []
    ensures Values(ts) != [] && Values(ts)[0] == ts[0].value[0]
    ensures Values(ts) == ts[0].value + Values(ts[1..])
  {
  }

  /** A letter run followed by text that does not start with a letter is read back as itself. */
  lemma StepOfWord(t: Token, rest: string)
    requires WellFormed(t) && IsWordKind(t.kind) && !Glued(t, rest)
    ensures ScanStep(t.value + rest) == Emit(t, |t.value|)
  {
    var s := t.value + rest;
    assert s[..|t.value|] == t.value;
    assert s[0] == t.value[0];
    RunEndUnique(s, 0, |t.value|, IsAlpha);
  }

  lemma StepOfNumber(t: Token, rest: string)
    requires WellFormed(t) && t.kind == Number && !Glued(t, rest)
    ensures ScanStep(t.value + rest) == Emit(t, |t.value|)
  {
    var s := t.value + rest;
    assert s[..|t.value|] == t.value;
    assert s[0] == t.value[0];
    RunEndUnique(s, 0, |t.value|, IsDigit);
  }

  lemma StepOfSymbol(t: Token, rest: string)
    requires WellFormed(t) && !IsWordKind(t.kind) && t.kind != Number
    ensures ScanStep(t.value + rest) == Emit(t, 1)
  {
    var s := t.value + rest;
    assert s[0] == t.value[0] && [s[0]] == t.value;
  }

  /** A letter run followed by a letter (digits by a digit) is not read back as itself. */
  lemma StepOfGlued(t: Token, rest: string)
    requires WellFormed(t) && Glued(t, rest)
    ensures ScanStep(t.value + rest).Emit? && ScanStep(t.value + rest).token != t
  {
    var s := t.value + rest;
    assert s[|t.value|] == rest[0] && s[0] == t.value[0];
    if IsWordKind(t.kind) {
      assert RunEnd(s, 0, IsAlpha) > |t.value|;
    } else {
      assert RunEnd(s, 0, IsDigit) > |t.value|;
    }
  }

  /** The first character of a non-letter token is not a letter, and that of a
      non-number token is not a digit. */
  lemma FirstCharClass(t: Token)
    requires WellFormed(t)
    ensures t.value != []
    ensures !IsWordKind(t.kind) ==> !IsAlpha(t.value[0])
    ensures t.kind != Number ==> !IsDigit(t.value[0])
  {
  }

  /** A well-formed token followed by text it cannot run into is scanned back as itself. */
  lemma ScanCons(t: Token, rest: string)
    requires WellFormed(t) && !Glued(t, rest)
    ensures Scan(t.value + rest) == Prepend(t, Scan(rest))
  {
    var s := t.value + rest;
    if IsWordKind(t.kind) {
      StepOfWord(t, rest);
    } else if t.kind == Number {
      StepOfNumber(t, rest);
    } else {
      StepOfSymbol(t, rest);
    }
    assert s[|t.value|..] == rest;
  }

  /** A token glued to what follows is not scanned back as the first token. */
  lemma ScanConsGlued(t: Token, rest: string, tail: seq<Token>)
    requires WellFormed(t) && Glued(t, rest)
    ensures Scan(t.value + rest) != Ok([t] + tail)
  {
    var s := t.value + rest;
    StepOfGlued(t, rest);
    var st := ScanStep(s);
    assert Scan(s) == Prepend(st.token, Scan(s[st.width..]));
    if Scan(s[st.width..]).Ok? {
      assert Scan(s).value[0] == st.token;
      assert ([t] + tail)[0] == t;
    }
  }

  lemma NoGlueCons(ts: seq<Token>)
    requires |ts| > 1
    ensures NoGlue(ts) <==>
      NoGlue(ts[1..])
      && !(IsWordKind(ts[0].kind) && IsWordKind(ts[1].kind))
      && !(ts[0].kind == Number && ts[1].kind == Number)
  {
    assert forall k :: 1 <= k < |ts| ==> ts[1..][k - 1] == ts[k];
  }

  lemma {:induction false} ScanOfValues(ts: seq<Token>)
    requires forall k :: 0 <= k < |ts| ==> WellFormed(ts[k])
    ensures Scan(Values(ts)) == Ok(ts) <==> NoGlue(ts)
    decreases |ts|
  {
    if ts != [] {
      var t := ts[0];
      var rest := Values(ts[1..]);
      assert WellFormed(t);
      ValuesHead(ts);
      ScanOfValues(ts[1..]);
      assert [t] + ts[1..] == ts;
      if |ts| == 1 {
        assert rest == [];
        ScanCons(t, rest);
      } else {
        NoGlueCons(ts);
        assert WellFormed(ts[1]);
        FirstCharClass(ts[1]);
        ValuesHead(ts[1..]);
        if Glued(t, rest) {
          ScanConsGlued(t, rest, ts[1..]);
        } else {
          ScanCons(t, rest);
          if Scan(rest).Ok? {
            assert Scan(rest).value == ts[1..] <==> [t] + Scan(rest).value == ts;
          }
        }
      }
    }
  }

  /** Maximal munch for every token: in text without whitespace, no two neighbouring
      tokens are both words or both numbers, so no run of letters or of digits is
      ever split across two tokens. */
  lemma ScanNeverSplitsRun(s: string)
    requires forall k :: 0 <= k < |s| ==> !IsSkippable(s[k])
    requires Scan(s).Ok?
    ensures NoGlue(Scan(s).value)
  {
    ScanWellFormed(s);
    ScanValues(s);
    StripWhitespaceNoop(s);
    ScanOfValues(Scan(s).value);
  }

  /** Lexing the concatenated text of well-formed tokens gives those tokens and EOF
      if and only if no two neighbours would run together. */
  lemma LexOfValues(ts: seq<Token>)
    requires forall k :: 0 <= k < |ts| ==> WellFormed(ts[k])
    ensures Lex(Values(ts)) == Ok(ts + [EofToken]) <==> NoGlue(ts)
  {
    ScanOfValues(ts);
    LexIsScanThenEof(Values(ts), ts);
  }

  /** Token texts with a space after each: no two neighbours can run together. */
  function Spell(ts: seq<Token>): string {
    if ts == [] then [] else ts[0].value + " " + Spell(ts[1..])
  }

  lemma {:induction false} ScanSpelled(ts: seq<Token>)
    requires forall k :: 0 <= k < |ts| ==> WellFormed(ts[k])
    ensures Scan(Spell(ts)) == Ok(ts)
    decreases |ts|
  {
    if ts != [] {
      var rest := " " + Spell(ts[1..]);
      assert Spell(ts) == ts[0].value + rest;
      assert WellFormed(ts[0]);
      ScanCons(ts[0], rest);
      assert rest[1..] == Spell(ts[1..]);
      ScanSpelled(ts[1..]);
      assert [ts[0]] + ts[1..] == ts;
    }
  }

  /** Lexing well-formed tokens written out with spaces between them gives back
      exactly those tokens, followed by EOF. */
  lemma LexSpelled(ts: seq<Token>)
    requires forall k :: 0 <= k < |ts| ==> WellFormed(ts[k])
    ensures Lex(Spell(ts)) == Ok(ts + [EofToken])
  {
    ScanSpelled(ts);
    LexIsScanThenEof(Spell(ts), ts);
  }

  // ---------------------------------------------------------------------------
  // Concrete cases

  lemma LexWord(w: string, k: TokenType)
    requires w != [] && (forall i :: 0 <= i < |w| ==> IsAlpha(w[i])) && k == KindOfWord(w)
    ensures Lex(w) == Ok([Token(w, k), EofToken])
  {
    var t := Token(w, k);
    KeywordExactness(w);
    assert Values([t]) == w + [] == w;
    assert WellFormed(t);
    LexOfValues([t]);
    assert [t] + [EofToken] == [t, EofToken];
  }

  /** Keyword exactness on whole inputs: `let` and `null` are keywords, `letx` an
      identifier; `@` is rejected with its character code. */
  lemma LetIsKeyword()
    ensures Lex("let") == Ok([Token("let", Let), EofToken])
  {
    LexWord("let", Let);
  }

  lemma NullIsKeyword()
    ensures Lex("null") == Ok([Token("null", Null), EofToken])
  {
    LexWord("null", Null);
  }

  lemma LongerWordIsIdentifier()
    ensures Lex("letx") == Ok([Token("letx", Identifier), EofToken])
  {
    LexWord("letx", Identifier);
  }

  lemma UnknownCharacterRejected()
    ensures Lex("@") == Err(UnexpectedCharacter(64))
  {
  }
}
