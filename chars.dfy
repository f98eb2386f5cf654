/** Character classes shared by both tokenizers (frontend/lexer.ts and main.ts
    each carry their own copy of these helpers). */
module Chars {

  /** `isAlpha`: a letter. The source asks whether upper- and lower-casing
      differ; the model restricts that to the ASCII letters. */
  predicate IsAlpha(c: char) {
    ('a' <= c <= 'z') || ('A' <= c <= 'Z')
  }

  /** `isDigit`: a character whose code lies between those of '0' and '9'. */
  predicate IsDigit(c: char) {
    '0' <= c <= '9'
  }

  /** `isSkippable`: one of the four whitespace characters. */
  predicate IsSkippable(c: char) {
    c == ' ' || c == '\n' || c == '\r' || c == '\t'
  }

  /** End of the run of `inClass` characters that starts at `i`: the first index
      at or after `i` that is the end of `s` or holds a character outside the class. */
  function RunEnd(s: string, i: nat, inClass: char -> bool): (j: nat)
    requires i <= |s|
    ensures i <= j <= |s|
    ensures forall k :: i <= k < j ==> inClass(s[k])
    ensures j == |s| || !inClass(s[j])
    ensures i < |s| && inClass(s[i]) ==> i < j
    decreases |s| - i
  {
    if i == |s| || !inClass(s[i]) then i else RunEnd(s, i + 1, inClass)
  }

  /** The run end is the only index with the two properties above: a scan that
      stops at the first character outside the class stops exactly there. */
  lemma {:induction false} RunEndUnique(s: string, i: nat, j: nat, inClass: char -> bool)
    requires i <= j <= |s|
    requires forall k :: i <= k < j ==> inClass(s[k])
    requires j == |s| || !inClass(s[j])
    ensures RunEnd(s, i, inClass) == j
    decreases j - i
  {
    if i < j {
      RunEndUnique(s, i + 1, j, inClass);
    }
  }

  /** `s` with the four whitespace characters removed. */
  function StripWhitespace(s: string): (r: string)
    ensures |r| <= |s|
    ensures forall k :: 0 <= k < |r| ==> !IsSkippable(r[k])
  {
    if s == [] then []
    else if IsSkippable(s[0]) then StripWhitespace(s[1..])
    else [s[0]] + StripWhitespace(s[1..])
  }

  lemma {:induction false} StripWhitespaceAppend(a: string, b: string)
    ensures StripWhitespace(a + b) == StripWhitespace(a) + StripWhitespace(b)
  {
    if a == [] {
      assert a + b == b;
    } else {
      assert (a + b)[1..] == a[1..] + b;
      StripWhitespaceAppend(a[1..], b);
    }
  }

  /** A string without whitespace is its own stripped form. */
  lemma {:induction false} StripWhitespaceNoop(s: string)
    requires forall k :: 0 <= k < |s| ==> !IsSkippable(s[k])
    ensures StripWhitespace(s) == s
  {
    if s != [] {
      StripWhitespaceNoop(s[1..]);
    }
  }
}
