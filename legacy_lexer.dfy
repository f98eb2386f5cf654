/** The older, self-contained tokenizer of main.ts: it reverses the characters
    and pops them off the end as a stack. Unlike frontend/lexer.ts it knows no
    `null` keyword and appends no end-of-input token. */
module LegacyLexer {
  import opened Wrappers
  import opened Chars
  import Lexer

  /** main.ts's own TokenType: no Null and no EOF. */
  datatype TokenType =
    | Identifier | Number
    | Plus | Minus | Multiply | Divide | Modulo | Equal
    | OpenParen | CloseParen | OpenBrace | CloseBrace | OpenBracket | CloseBracket
    | Let | Const

  datatype Token = Token(value: string, kind: TokenType)

  /** The thrown "Unexpected character" error, carrying the character itself. */
  datatype LexError = UnexpectedCharacter(c: char)

  /** main.ts's `RESERVED_KEYWORDS`: only `let` and `const`. */
  function ReservedKeyword(w: string): Option<TokenType> {
    if w == "let" then Some(Let)
    else if w == "const" then Some(Const)
    else None
  }

  /** main.ts's `SINGLECHAR_MAP`. */
  function SingleChar(c: char): Option<TokenType> {
    match c
    case '+' => Some(Plus)
    case '-' => Some(Minus)
    case '*' => Some(Multiply)
    case '/' => Some(Divide)
    case '%' => Some(Modulo)
    case '=' => Some(Equal)
    case '(' => Some(OpenParen)
    case ')' => Some(CloseParen)
    case '{' => Some(OpenBrace)
    case '}' => Some(CloseBrace)
    case '[' => Some(OpenBracket)
    case ']' => Some(CloseBracket)
    case _ => None
  }

  function KindOfWord(w: string): TokenType {
    match ReservedKeyword(w)
    case Some(k) => k
    case None => Identifier
  }

  // ---------------------------------------------------------------------------
  // The stack: `source.split("").reverse()`, read from its end

  function Reversed(s: string): (r: string)
    ensures |r| == |s|
  {
    if s == [] then [] else Reversed(s[1..]) + [s[0]]
  }

  /** Element `k` of the reversed text is the `k`-th character from the end. */
  lemma {:induction false} ReversedAt(s: string, k: nat)
    requires k < |s|
    ensures Reversed(s)[k] == s[|s| - 1 - k]
  {
    if k < |s| - 1 {
      ReversedAt(s[1..], k);
    }
  }

  /** `stream` is the stack of the unread text `source[i..]`: what is left of the
      reversed text once the first `i` characters have been popped off its end. */
  predicate IsStackOf(stream: string, source: string, i: nat) {
    i <= |source| && stream == Reversed(source)[..|source| - i]
  }

  /** Popping the stack visits the text from left to right: the top is the first
      unread character, and what remains is the stack of the rest. */
  lemma PopVisitsInOrder(stream: string, source: string, i: nat)
    requires IsStackOf(stream, source, i) && i < |source|
    ensures stream[|stream| - 1] == source[i]
    ensures IsStackOf(stream[..|stream| - 1], source, i + 1)
  {
    ReversedAt(source, |source| - 1 - i);
  }

  // ---------------------------------------------------------------------------
  // The functional reading of the scan, by position in the text

  datatype Step = Skip | Emit(token: Token, width: nat) | Fail(error: LexError)

  /** What one iteration of the outer loop does when `s[i]` is on top of the stack. */
  function ScanStep(s: string, i: nat): (st: Step)
    requires i < |s|
    ensures st.Emit? ==> 0 < st.width && i + st.width <= |s|
  {
    if IsSkippable(s[i]) then Skip
    else if IsAlpha(s[i]) then
      var j := RunEnd(s, i, IsAlpha);
      Emit(Token(s[i..j], KindOfWord(s[i..j])), j - i)
    else if IsDigit(s[i]) then
      var j := RunEnd(s, i, IsDigit);
      Emit(Token(s[i..j], Number), j - i)
    else
      match SingleChar(s[i])
      case Some(k) => Emit(Token([s[i]], k), 1)
      case None => Fail(UnexpectedCharacter(s[i]))
  }

  /** The tokens of `s[i..]`, or the first error in it. */
  function LexFrom(s: string, i: nat): Result<seq<Token>, LexError>
    requires i <= |s|
    decreases |s| - i
  {
    if i == |s| then Ok([])
    else
      match ScanStep(s, i)
      case Skip => LexFrom(s, i + 1)
      case Emit(t, n) => Prepend(t, LexFrom(s, i + n))
      case Fail(e) => Err(e)
  }

  /** What main.ts's `tokenize` returns for `s`. */
  function Lex(s: string): Result<seq<Token>, LexError> {
    LexFrom(s, 0)
  }

  // ---------------------------------------------------------------------------
  // The imperative tokenizer

  /** The inner loop: pops the run of `inClass` characters that starts at the
      unread position `i` off the top of the stack. */
  method PopRun(stream: string, ghost source: string, ghost i: nat, inClass: char -> bool)
      returns (ident: string, rest: string)
    requires IsStackOf(stream, source, i)
    ensures ident == source[i..RunEnd(source, i, inClass)]
    ensures IsStackOf(rest, source, i + |ident|)
  {
    ident := "";
    rest := stream;
    ghost var j := i;
    while |rest| > 0 && inClass(rest[|rest| - 1])
      invariant j == i + |ident| && IsStackOf(rest, source, j)
      invariant ident == source[i..j]
      invariant forall k :: i <= k < j ==> inClass(source[k])
      decreases |rest|
    {
      PopVisitsInOrder(rest, source, j);
      ident := ident + [rest[|rest| - 1]];
      rest := rest[..|rest| - 1];
      j := j + 1;
    }
    if |rest| > 0 {
      PopVisitsInOrder(rest, source, j);
    }
    RunEndUnique(source, i, j, inClass);
  }

  /** main.ts's `tokenize`: the reversed character array popped as a stack. */
  method Tokenize(source: string) returns (r: Result<seq<Token>, LexError>)
    ensures r == Lex(source)
  {
    var tokens: seq<Token> := [];
    var stream := Reversed(source);
    ghost var consumed: nat := 0;
    assert IsStackOf(stream, source, 0);
    assert ExtendBy(tokens, Lex(source)) == Lex(source) by {
      if Lex(source).Ok? {
        assert tokens + Lex(source).value == Lex(source).value;
      }
    }
    while |stream| > 0
      invariant consumed <= |source|
      invariant IsStackOf(stream, source, consumed)
      invariant Lex(source) == ExtendBy(tokens, LexFrom(source, consumed))
      decreases |stream|
    {
      PopVisitsInOrder(stream, source, consumed);
      var top := stream[|stream| - 1];
      if IsSkippable(top) {
        SkipStep(source, tokens, consumed);
        stream := stream[..|stream| - 1];
        consumed := consumed + 1;
        continue;
      }
      if IsAlpha(top) {
        var ident;
        ident, stream := PopRun(stream, source, consumed, IsAlpha);
        ghost var next := consumed + |ident|;
        WordStep(source, tokens, consumed, next, ident);
        consumed := next;
        var reserved := ReservedKeyword(ident);
        if reserved.Some? {
          tokens := tokens + [Token(ident, reserved.value)];
        } else {
          tokens := tokens + [Token(ident, Identifier)];
        }
      } else if IsDigit(top) {
        var ident;
        ident, stream := PopRun(stream, source, consumed, IsDigit);
        ghost var next := consumed + |ident|;
        NumberStep(source, tokens, consumed, next, ident);
        consumed := next;
        tokens := tokens + [Token(ident, Number)];
      } else {
        SymbolStep(source, tokens, consumed);
        var c := stream[|stream| - 1];
        stream := stream[..|stream| - 1];
        consumed := consumed + 1;
        var mappedType := SingleChar(c);
        if mappedType.Some? {
          tokens := tokens + [Token([c], mappedType.value)];
        } else {
          return Err(UnexpectedCharacter(c));
        }
      }
    }
    assert tokens + [] == tokens;
    r := Ok(tokens);
  }

  // Each lemma re-establishes the loop invariant of `Tokenize` after one kind of iteration.

  lemma SkipStep(source: string, tokens: seq<Token>, i: nat)
    requires i < |source| && IsSkippable(source[i])
    requires Lex(source) == ExtendBy(tokens, LexFrom(source, i))
    ensures Lex(source) == ExtendBy(tokens, LexFrom(source, i + 1))
  {
  }

  lemma WordStep(source: string, tokens: seq<Token>, i: nat, j: nat, ident: string)
    requires i < |source| && IsAlpha(source[i])
    requires j == RunEnd(source, i, IsAlpha) && ident == source[i..j]
    requires Lex(source) == ExtendBy(tokens, LexFrom(source, i))
    ensures Lex(source) == ExtendBy(tokens + [Token(ident, KindOfWord(ident))], LexFrom(source, j))
  {
    ExtendByPrepend(tokens, Token(ident, KindOfWord(ident)), LexFrom(source, j));
  }

  lemma NumberStep(source: string, tokens: seq<Token>, i: nat, j: nat, ident: string)
    requires i < |source| && IsDigit(source[i])
    requires j == RunEnd(source, i, IsDigit) && ident == source[i..j]
    requires Lex(source) == ExtendBy(tokens, LexFrom(source, i))
    ensures Lex(source) == ExtendBy(tokens + [Token(ident, Number)], LexFrom(source, j))
  {
    ExtendByPrepend(tokens, Token(ident, Number), LexFrom(source, j));
  }

  lemma SymbolStep(source: string, tokens: seq<Token>, i: nat)
    requires i < |source|
    requires !IsSkippable(source[i]) && !IsAlpha(source[i]) && !IsDigit(source[i])
    requires Lex(source) == ExtendBy(tokens, LexFrom(source, i))
    ensures var c := source[i];
      if SingleChar(c).Some? then
        Lex(source) == ExtendBy(tokens + [Token([c], SingleChar(c).value)], LexFrom(source, i + 1))
      else
        Lex(source) == Err(UnexpectedCharacter(c))
  {
    if SingleChar(source[i]).Some? {
      ExtendByPrepend(tokens, Token([source[i]], SingleChar(source[i]).value), LexFrom(source, i + 1));
    }
  }

  // ---------------------------------------------------------------------------
  // Agreement with frontend/lexer.ts

  /** A frontend/lexer.ts kind as main.ts knows it: `null` is an ordinary identifier. */
  function FromKind(k: Lexer.TokenType): TokenType
    requires k != Lexer.EOF
  {
    match k
    case Identifier => Identifier
    case Number => Number
    case Plus => Plus
    case Minus => Minus
    case Multiply => Multiply
    case Divide => Divide
    case Modulo => Modulo
    case Equal => Equal
    case OpenParen => OpenParen
    case CloseParen => CloseParen
    case OpenBrace => OpenBrace
    case CloseBrace => CloseBrace
    case OpenBracket => OpenBracket
    case CloseBracket => CloseBracket
    case Let => Let
    case Const => Const
    case Null => Identifier
  }

  function FromTokens(ts: seq<Lexer.Token>): (r: seq<Token>)
    requires forall k :: 0 <= k < |ts| ==> ts[k].kind != Lexer.EOF
    ensures |r| == |ts|
    ensures forall k :: 0 <= k < |ts| ==> r[k] == Token(ts[k].value, FromKind(ts[k].kind))
  {
    if ts == [] then [] else [Token(ts[0].value, FromKind(ts[0].kind))] + FromTokens(ts[1..])
  }

  /** A run measured from position `i` of `s` is the run at the start of `s[i..]`. */
  lemma RunEndShift(s: string, i: nat, inClass: char -> bool)
    requires i <= |s|
    ensures RunEnd(s[i..], 0, inClass) == RunEnd(s, i, inClass) - i
    ensures s[i..][..RunEnd(s, i, inClass) - i] == s[i..RunEnd(s, i, inClass)]
  {
    var j := RunEnd(s, i, inClass);
    RunEndUnique(s[i..], 0, j - i, inClass);
  }

  /** The two tokenizers take the same steps; only the kind of `null` differs, and
      the error carries the character rather than its code. */
  lemma StepAgrees(s: string, i: nat)
    requires i < |s|
    ensures var st, lst := ScanStep(s, i), Lexer.ScanStep(s[i..]);
      (st.Skip? <==> lst.Skip?) && (st.Fail? <==> lst.Fail?)
      && (st.Fail? ==> lst.error.code == st.error.c as int)
      && (st.Emit? ==>
            lst.Emit? && lst.width == st.width && lst.token.kind != Lexer.EOF
            && st.token == Token(lst.token.value, FromKind(lst.token.kind)))
  {
    assert s[i..][0] == s[i];
    if IsAlpha(s[i]) {
      RunEndShift(s, i, IsAlpha);
    } else if IsDigit(s[i]) {
      RunEndShift(s, i, IsDigit);
    }
  }

  function FromResult(r: Result<seq<Lexer.Token>, Lexer.LexError>): Result<seq<Token>, int>
    requires r.Ok? ==> forall k :: 0 <= k < |r.value| ==> r.value[k].kind != Lexer.EOF
  {
    match r
    case Ok(ts) => Ok(FromTokens(ts))
    case Err(e) => Err(e.code)
  }

  function CodeOf(r: Result<seq<Token>, LexError>): Result<seq<Token>, int> {
    match r
    case Ok(ts) => Ok(ts)
    case Err(e) => Err(e.c as int)
  }

  lemma {:induction false} ScanAgrees(s: string, i: nat)
    requires i <= |s|
    ensures var r := Lexer.Scan(s[i..]);
      r.Ok? ==> forall k :: 0 <= k < |r.value| ==> r.value[k].kind != Lexer.EOF
    ensures CodeOf(LexFrom(s, i)) == FromResult(Lexer.Scan(s[i..]))
    decreases |s| - i
  {
    if i < |s| {
      StepAgrees(s, i);
      match ScanStep(s, i)
      case Skip =>
        ScanAgrees(s, i + 1);
        assert s[i..][1..] == s[i + 1..];
      case Emit(t, n) =>
        ScanAgrees(s, i + n);
        assert s[i..][n..] == s[i + n..];
        var lt := Lexer.ScanStep(s[i..]).token;
        if Lexer.Scan(s[i + n..]).Ok? {
          var ts := Lexer.Scan(s[i + n..]).value;
          assert FromTokens([lt] + ts) == [t] + FromTokens(ts);
        }
      case Fail(_) =>
    } else {
      assert s[i..] == [];
    }
  }

  /** main.ts's tokenizer returns what frontend/lexer.ts's returns, minus the final
      EOF token and with `null` as an Identifier; both fail on the same character. */
  lemma AgreesWithLexer(s: string)
    ensures Lexer.Lex(s).Ok? <==> Lex(s).Ok?
    ensures Lexer.Lex(s).Ok? ==>
      var ts := Lexer.Lex(s).value;
      Lex(s).value == FromTokens(ts[..|ts| - 1])
    ensures Lexer.Lex(s).Err? ==> Lexer.Lex(s).error.code == Lex(s).error.c as int
  {
    ScanAgrees(s, 0);
    assert s[0..] == s;
    if Lexer.Scan(s).Ok? {
      var ts := Lexer.Lex(s).value;
      assert ts[..|ts| - 1] == Lexer.Scan(s).value;
    }
  }

  // ---------------------------------------------------------------------------
  // Properties, carried over from frontend/lexer.ts through the agreement

  /** No end-of-input token: an empty or all-whitespace source yields no tokens at
      all, and only such a source does. */
  lemma EmptyExactlyOnWhitespace(s: string)
    ensures Lex(s) == Ok([]) <==> forall k :: 0 <= k < |s| ==> IsSkippable(s[k])
  {
    AgreesWithLexer(s);
    Lexer.LexOnlyEof(s);
    Lexer.LexIsScanThenEof(s, []);
    assert [] + [Lexer.EofToken] == [Lexer.EofToken];
    if Lexer.Lex(s).Ok? {
      var ts := Lexer.Lex(s).value;
      assert ts[..|ts| - 1] == Lexer.Scan(s).value;
    }
  }

  /** Round trip: the token texts spell out the source without its whitespace. */
  lemma RoundTrip(s: string)
    requires Lex(s).Ok?
    ensures Values(Lex(s).value) == StripWhitespace(s)
  {
    AgreesWithLexer(s);
    Lexer.LexRoundTrip(s);
    var ts := Lexer.Lex(s).value;
    ValuesAgree(ts[..|ts| - 1]);
  }

  function Values(ts: seq<Token>): string {
    if ts == [] then [] else ts[0].value + Values(ts[1..])
  }

  lemma {:induction false} ValuesAgree(ts: seq<Lexer.Token>)
    requires forall k :: 0 <= k < |ts| ==> ts[k].kind != Lexer.EOF
    ensures Values(FromTokens(ts)) == Lexer.Values(ts)
  {
    if ts != [] {
      ValuesAgree(ts[1..]);
      assert FromTokens(ts)[1..] == FromTokens(ts[1..]);
    }
  }

  /** main.ts fails exactly when some character is not whitespace, a letter, a digit
      or one of the twelve symbols, and it reports the first such character. */
  lemma FailsAtFirstBadChar(s: string)
    ensures Lex(s).Ok? <==> forall k :: 0 <= k < |s| ==> Lexer.Allowed(s[k])
    ensures forall i :: 0 <= i < |s| && !Lexer.Allowed(s[i]) && (forall k :: 0 <= k < i ==> Lexer.Allowed(s[k])) ==>
              Lex(s) == Err(UnexpectedCharacter(s[i]))
  {
    AgreesWithLexer(s);
    Lexer.LexFailsAtFirstBadChar(s);
  }

  lemma LexWord(w: string)
    requires w != [] && forall i :: 0 <= i < |w| ==> IsAlpha(w[i])
    ensures Lex(w) == Ok([Token(w, KindOfWord(w))])
  {
    var t := Token(w, KindOfWord(w));
    RunEndUnique(w, 0, |w|, IsAlpha);
    assert w[0..|w|] == w;
    assert ScanStep(w, 0) == Emit(t, |w|);
    assert LexFrom(w, |w|) == Ok([]);
    assert [t] + [] == [t];
  }

  /** Only `let` and `const` are keywords here: `null` is an Identifier. */
  lemma NullIsIdentifier()
    ensures Lex("null") == Ok([Token("null", Identifier)])
    ensures Lex("let") == Ok([Token("let", Let)])
  {
    LexWord("null");
    LexWord("let");
  }
}
