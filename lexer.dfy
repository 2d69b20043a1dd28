/** The tokenizer of lexer.h: `get_token` skips white space and then scans one
    symbol, identifier or decimal number, or reports end of input.

    `NextToken` states what a call produces in terms of maximal runs of
    character classes; `GetToken` is the goto-driven state machine of the
    source written as loops, proved to produce exactly that. */
module Lexer {
  import opened Errors
  import opened Arithmetic

  /** token_tag plus the payload of `token` (lexer.h:21-39); numbers carry the
      value strtod gives for their lexeme. */
  datatype Token<N> =
    | Invalid
    | Number(value: N)
    | Character(symbol: char)
    | Identifier(name: string)
    | EOI

  /** A token together with the cursor position just after it. */
  datatype Lexed<N> = Lexed(token: Token<N>, next: nat)

  // Character classes, in the "C" locale.

  /** isspace: blank, tab, line feed, vertical tab, form feed, carriage return. */
  predicate IsSpace(c: char) { c == ' ' || '\t' <= c <= '\r' }

  /** islower */
  predicate IsLower(c: char) { 'a' <= c <= 'z' }

  /** isdigit */
  predicate IsDigit(c: char) { '0' <= c <= '9' }

  /** The one-character operators of lexer.h:60-67. */
  predicate IsSymbol(c: char) {
    c == '+' || c == '-' || c == '*' || c == '/' || c == '^' || c == '(' || c == ')' || c == '='
  }

  /** The case labels of lexer.h:70-71: every lower-case letter except 'k'. */
  predicate IsIdentStart(c: char) { IsLower(c) && c != 'k' }

  /** Characters a number lexeme is made of. */
  predicate IsNumberChar(c: char) { IsDigit(c) || c == '.' }

  /** The character classes a run can be made of. */
  datatype CharClass = Space | Lower | NumberChar

  predicate InClass(c: CharClass, ch: char) {
    match c
    case Space => IsSpace(ch)
    case Lower => IsLower(ch)
    case NumberChar => IsNumberChar(ch)
  }

  /** The end of the longest run of characters of class `c` that starts at
      `i`: every character before it is of the class, the one at it is not. */
  function RunEnd(s: string, i: nat, c: CharClass): (j: nat)
    requires i <= |s|
    ensures i <= j <= |s|
    ensures forall m :: i <= m < j ==> InClass(c, s[m])
    ensures j < |s| ==> !InClass(c, s[j])
    decreases |s| - i
  {
    if i < |s| && InClass(c, s[i]) then RunEnd(s, i + 1, c) else i
  }

  /** The run ends at the first character outside the class. */
  lemma {:induction false} RunEndUnique(s: string, i: nat, j: nat, c: CharClass)
    requires i <= j <= |s|
    requires forall m :: i <= m < j ==> InClass(c, s[m])
    requires j < |s| ==> !InClass(c, s[j])
    ensures RunEnd(s, i, c) == j
    decreases j - i
  {
    if i < j {
      RunEndUnique(s, i + 1, j, c);
    }
  }

  /** An identifier lexeme: a letter that may start one, then lower-case letters. */
  predicate IsIdentifier(w: string) {
    |w| > 0 && IsIdentStart(w[0]) && forall m :: 0 <= m < |w| ==> IsLower(w[m])
  }

  /** The number of '.' characters in `w`. */
  function Dots(w: string): nat {
    if w == [] then 0 else Dots(w[..|w| - 1]) + (if w[|w| - 1] == '.' then 1 else 0)
  }

  /** A number lexeme: digits and at most one '.', but not a lone '.'. */
  predicate IsNumberLexeme(w: string) {
    && |w| > 0
    && (forall m :: 0 <= m < |w| ==> IsNumberChar(w[m]))
    && Dots(w) <= 1
    && w != "."
  }

  /** The identifier that starts at `k` (lexer.h:96-104). */
  function IdentifierToken<N>(s: string, k: nat): (r: Lexed<N>)
    requires k < |s|
  {
    var j := RunEnd(s, k + 1, Lower);
    Lexed(Identifier(s[k..j]), j)
  }

  /** The number that starts at `k`, or the lexical error it contains
      (lexer.h:106-131). */
  function NumberToken<N>(ops: NumOps<N>, s: string, k: nat): (r: Result<Lexed<N>>)
    requires k < |s| && IsNumberChar(s[k])
  {
    var j := RunEnd(s, k, NumberChar);
    if Dots(s[k..j]) <= 1 && s[k..j] != "." then Ok(Lexed(Number(ops.fromDecimal(s[k..j])), j))
    else Err(LexError)
  }

  /** An identifier is the character at `k` and the longest run of
      lower-case letters after it. */
  lemma IdentifierTokenRun<N>(s: string, k: nat)
    requires k < |s|
    ensures var r: Lexed<N> := IdentifierToken(s, k);
      && k < r.next <= |s| && r.token == Identifier(s[k..r.next])
      && (forall m :: k < m < r.next ==> IsLower(s[m]))
      && (r.next < |s| ==> !IsLower(s[r.next]))
  {
  }

  /** The longest run of digits and dots is read whole, and it is a number
      exactly when it is a number lexeme; otherwise it is a lexical error. */
  lemma NumberTokenRun<N>(ops: NumOps<N>, s: string, k: nat)
    requires k < |s| && IsNumberChar(s[k])
    ensures var r := NumberToken(ops, s, k); var j := RunEnd(s, k, NumberChar);
      && (r.Ok? <==> IsNumberLexeme(s[k..j]))
      && (r.Ok? ==> r.value == Lexed(Number(ops.fromDecimal(s[k..j])), j))
      && (r.Err? ==> r.error == LexError)
      && k < j && (j < |s| ==> !IsNumberChar(s[j]))
  {
  }

  /** What `get_token` returns when called with the cursor at `i`; the cursor
      ends at `next` (lexer.h:47-132). */
  function NextToken<N>(ops: NumOps<N>, s: string, i: nat): (r: Result<Lexed<N>>)
    requires i <= |s|
    ensures r.Ok? ==> i <= r.value.next <= |s| && !r.value.token.Invalid?
    ensures r.Ok? && r.value.token.EOI? ==> r.value.next == |s|
    ensures r.Ok? && !r.value.token.EOI? ==> i < r.value.next
  {
    var k := RunEnd(s, i, Space);
    if k == |s| then Ok(Lexed(EOI, k))
    else if IsSymbol(s[k]) then Ok(Lexed(Character(s[k]), k + 1))
    else if IsIdentStart(s[k]) then Ok(IdentifierToken(s, k))
    else if IsNumberChar(s[k]) then NumberToken(ops, s, k)
    else Err(LexError)
  }

  /** skip_spaces (lexer.h:41-45). */
  method SkipSpaces(s: string, first: nat) returns (j: nat)
    requires first <= |s|
    ensures j == RunEnd(s, first, Space)
  {
    j := first;
    while j < |s| && IsSpace(s[j])
      invariant first <= j <= |s|
      invariant RunEnd(s, j, Space) == RunEnd(s, first, Space)
      decreases |s| - j
    {
      j := j + 1;
    }
  }

  /** The number of '.' in `s[k..b]` only grows as `b` grows. */
  lemma {:induction false} DotsGrow(s: string, k: nat, a: nat, b: nat)
    requires k <= a <= b <= |s|
    ensures Dots(s[k..a]) <= Dots(s[k..b])
    decreases b - a
  {
    if a < b {
      assert s[k..b][..b - k - 1] == s[k..b - 1];
      DotsGrow(s, k, a, b - 1);
    }
  }

  /** Extending `s[k..j]` by one character counts that character's '.'. */
  lemma DotsStep(s: string, k: nat, j: nat)
    requires k <= j < |s|
    ensures Dots(s[k..j + 1]) == Dots(s[k..j]) + (if s[j] == '.' then 1 else 0)
  {
    assert s[k..j + 1][..j - k] == s[k..j];
  }

  /** A '.' met after a number part that already holds one: the whole run
      holds two or more. */
  lemma SecondDot(s: string, k: nat, j: nat)
    requires k <= j < |s| && s[j] == '.' && Dots(s[k..j]) == 1
    requires RunEnd(s, j, NumberChar) == RunEnd(s, k, NumberChar)
    ensures Dots(s[k..RunEnd(s, k, NumberChar)]) > 1
  {
    DotsStep(s, k, j);
    DotsGrow(s, k, j + 1, RunEnd(s, k, NumberChar));
  }

  /** The `id` state (lexer.h:96-104): a do-while loop over lower-case letters. */
  method ScanIdentifier<N>(s: string, k: nat) returns (r: Lexed<N>)
    requires k < |s|
    ensures r == IdentifierToken(s, k)
  {
    var temp: string := [];
    var first := k;
    temp := temp + [s[first]];
    first := first + 1;
    while first < |s| && IsLower(s[first])
      invariant k < first <= |s|
      invariant temp == s[k..first]
      invariant RunEnd(s, first, Lower) == RunEnd(s, k + 1, Lower)
      decreases |s| - first
    {
      temp := temp + [s[first]];
      first := first + 1;
    }
    r := Lexed(Identifier(temp), first);
  }

  /** The `number` and `accept_number` states (lexer.h:74-87, 106-131): digits
      and one '.', a second '.' or a lone '.' being an error. The jumps back to
      `number` become the loop condition. */
  method ScanNumber<N>(ops: NumOps<N>, s: string, k: nat) returns (r: Result<Lexed<N>>)
    requires k < |s| && IsNumberChar(s[k])
    ensures r == NumberToken(ops, s, k)
  {
    var decimal := s[k] == '.';
    var temp: string := [s[k]];
    var first := k + 1;
    while first < |s| && (IsDigit(s[first]) || (s[first] == '.' && !decimal))
      invariant k < first <= |s|
      invariant temp == s[k..first]
      invariant Dots(temp) == if decimal then 1 else 0
      invariant RunEnd(s, first, NumberChar) == RunEnd(s, k, NumberChar)
      decreases |s| - first
    {
      DotsStep(s, k, first);
      if s[first] == '.' {
        decimal := true;
      }
      temp := temp + [s[first]];
      first := first + 1;
    }
    if first < |s| && s[first] == '.' {
      // a second '.' (lexer.h:119-120)
      SecondDot(s, k, first);
      return Err(LexError);
    }
    if decimal && |temp| == 1 {
      // a lone '.' (lexer.h:127-128)
      return Err(LexError);
    }
    r := Ok(Lexed(Number(ops.fromDecimal(temp)), first));
  }

  /** get_token (lexer.h:47-132): skip white space, then dispatch on the
      first character as the switch of lexer.h:58-91 does. */
  method GetToken<N>(ops: NumOps<N>, s: string, start: nat) returns (r: Result<Lexed<N>>)
    requires start <= |s|
    ensures r == NextToken(ops, s, start)
  {
    var first := SkipSpaces(s, start);
    if first == |s| {
      return Ok(Lexed(EOI, first));
    }
    var c := s[first];
    if IsSymbol(c) {
      r := Ok(Lexed(Character(c), first + 1));
    } else if IsIdentStart(c) {
      var t := ScanIdentifier(s, first);
      r := Ok(t);
    } else if c == '.' || IsDigit(c) {
      r := ScanNumber(ops, s, first);
    } else {
      r := Err(LexError);
    }
  }

  // Properties of the tokenizer.

  /** Leading white space is skipped before anything is scanned. */
  lemma LexSkipsSpaces<N>(ops: NumOps<N>, s: string, i: nat)
    requires i <= |s|
    ensures NextToken(ops, s, i) == NextToken(ops, s, RunEnd(s, i, Space))
  {
  }

  /** End of input is reported exactly when only white space is left, the
      cursor then stays at the end, and asking again gives EOI again. */
  lemma LexEndOfInput<N>(ops: NumOps<N>, s: string, i: nat)
    requires i <= |s|
    ensures NextToken(ops, s, i) == Ok(Lexed(EOI, |s|)) <==> forall m :: i <= m < |s| ==> IsSpace(s[m])
    ensures NextToken(ops, s, |s|) == Ok(Lexed(EOI, |s|))
  {
    if forall m :: i <= m < |s| ==> IsSpace(s[m]) {
      RunEndUnique(s, i, |s|, Space);
    }
  }

  /** A symbol after the white space is always a token of its own, one
      character long. */
  lemma LexSymbol<N>(ops: NumOps<N>, s: string, i: nat)
    requires i <= |s| && RunEnd(s, i, Space) < |s| && IsSymbol(s[RunEnd(s, i, Space)])
    ensures NextToken(ops, s, i) == Ok(Lexed(Character(s[RunEnd(s, i, Space)]), RunEnd(s, i, Space) + 1))
  {
  }

  /** On success the characters consumed are white space followed by the
      token's lexeme, and the lexeme is the longest one available. */
  lemma LexConsumes<N>(ops: NumOps<N>, s: string, i: nat)
    requires i <= |s|
    requires NextToken(ops, s, i).Ok?
    ensures var k, t, j := RunEnd(s, i, Space), NextToken(ops, s, i).value.token, NextToken(ops, s, i).value.next;
      && (forall m :: i <= m < k ==> IsSpace(s[m]))
      && k <= j
      && (t.EOI? ==> k == j == |s|)
      && (t.Character? ==> j == k + 1 && s[k] == t.symbol && IsSymbol(t.symbol))
      && (t.Identifier? ==> s[k..j] == t.name && IsIdentifier(t.name) && (j < |s| ==> !IsLower(s[j])))
      && (t.Number? ==> IsNumberLexeme(s[k..j]) && t.value == ops.fromDecimal(s[k..j]) && (j < |s| ==> !IsNumberChar(s[j])))
  {
  }

  /** The text of a single token. */
  predicate IsLexeme(w: string) {
    (|w| == 1 && IsSymbol(w[0])) || IsIdentifier(w) || IsNumberLexeme(w)
  }

  /** The token a lexeme stands for. */
  function TokenOf<N>(ops: NumOps<N>, w: string): Token<N>
    requires IsLexeme(w)
  {
    if IsSymbol(w[0]) then Character(w[0])
    else if IsIdentStart(w[0]) then Identifier(w)
    else Number(ops.fromDecimal(w))
  }

  /** Whether character `c` would be taken into the token that `w` starts. */
  predicate Continues(w: string, c: char) {
    (IsIdentifier(w) && IsLower(c)) || (IsNumberLexeme(w) && IsNumberChar(c))
  }

  /** A lexeme preceded by white space and not followed by a character that
      would extend it is read back as its own token, and the cursor ends just
      after it. */
  lemma LexemeAt<N>(ops: NumOps<N>, s: string, i: nat, k: nat, w: string)
    requires i <= k && k + |w| <= |s|
    requires forall m :: i <= m < k ==> IsSpace(s[m])
    requires s[k..k + |w|] == w && IsLexeme(w)
    requires k + |w| < |s| ==> !Continues(w, s[k + |w|])
    ensures NextToken(ops, s, i) == Ok(Lexed(TokenOf(ops, w), k + |w|))
  {
    assert s[k] == w[0];
    RunEndUnique(s, i, k, Space);
    if IsIdentifier(w) {
      forall m | k + 1 <= m < k + |w| ensures IsLower(s[m]) {
        assert s[m] == w[m - k];
      }
      RunEndUnique(s, k + 1, k + |w|, Lower);
    } else if IsNumberLexeme(w) {
      forall m | k <= m < k + |w| ensures IsNumberChar(s[m]) {
        assert s[m] == w[m - k];
      }
      RunEndUnique(s, k, k + |w|, NumberChar);
    }
  }

  /** Identifiers: 'k' may continue one, and one stops at a digit, which
      starts the next token. */
  lemma LexIdentifierExamples<N>(ops: NumOps<N>)
    ensures NextToken(ops, "ak", 0) == Ok(Lexed(Identifier("ak"), 2))
    ensures NextToken(ops, "x1", 0) == Ok(Lexed(Identifier("x"), 1))
    ensures NextToken(ops, "x1", 1) == Ok(Lexed(Number(ops.fromDecimal("1")), 2))
  {
    LexemeAt(ops, "ak", 0, 0, "ak");
    LexemeAt(ops, "x1", 0, 0, "x");
    LexemeAt(ops, "x1", 1, 1, "1");
  }

  /** Numbers may start or end with their one '.', and symbols are single
      characters after any white space. */
  lemma LexNumberAndSymbolExamples<N>(ops: NumOps<N>)
    ensures NextToken(ops, "5.", 0) == Ok(Lexed(Number(ops.fromDecimal("5.")), 2))
    ensures NextToken(ops, " .5)", 0) == Ok(Lexed(Number(ops.fromDecimal(".5")), 3))
    ensures NextToken(ops, "  ^2", 0) == Ok(Lexed(Character('^'), 3))
  {
    assert Dots("5.") == 1 by {
      assert "5."[..1] == "5" && "5"[..0] == "";
    }
    LexemeAt(ops, "5.", 0, 0, "5.");
    assert Dots(".5") == 1 by {
      assert ".5"[..1] == "." && "."[..0] == "";
    }
    LexemeAt(ops, " .5)", 0, 1, ".5");
    LexemeAt(ops, "  ^2", 0, 2, "^");
  }

  /** Rejected input: 'k' as a first letter, a lone '.', and
      characters outside every class. */
  lemma LexErrorExamples<N>(ops: NumOps<N>)
    ensures NextToken(ops, "k", 0) == Err(LexError)
    ensures NextToken(ops, ".", 0) == Err(LexError)
    ensures NextToken(ops, "X", 0) == Err(LexError)
    ensures NextToken(ops, "_", 0) == Err(LexError)
    ensures NextToken(ops, "%", 0) == Err(LexError)
  {
  }

  /** A second '.' in a number is an error, not the start of a new token. */
  lemma LexSecondDotExample<N>(ops: NumOps<N>)
    ensures NextToken(ops, "1.2.3", 0) == Err(LexError)
  {
    assert RunEnd("1.2.3", 0, NumberChar) == 5 by {
      RunEndUnique("1.2.3", 0, 5, NumberChar);
    }
    assert RunEnd("1.2.3", 0, Space) == 0;
    assert "1.2.3"[0..5] == "1.2.3";
    assert Dots("1.2.3") == 2 by {
      assert "1.2.3"[..4] == "1.2." && "1.2."[..3] == "1.2" && "1.2"[..2] == "1.";
      assert "1."[..1] == "1" && "1"[..0] == "";
    }
  }
}
