/** The hand-written scanner: `Lexer.nextToken` and its helpers, as pure functions over the
    input text and a cursor (position, line, column). */
module Lexer {
  import opened Wrappers
  import opened Tokens
  import opened Numerals

  /** The scanner's mutable state: `position`, `line` (from 1) and `column` (from 0). */
  datatype Cursor = Cursor(pos: nat, line: nat, column: nat)

  const Start: Cursor := Cursor(0, 1, 0)

  /** What the scanner throws; both carry the line and column it reports. */
  datatype LexError =
    | UnexpectedCharacter(ch: char, line: nat, column: nat)
    | UnterminatedString(line: nat, column: nat)

  /** One scanned token and the cursor just after it. */
  datatype Scan = Scan(token: Token, next: Cursor)

  /** The whole token stream: every non-EOF token in order, then either EOF (`end == None`)
      or the error the scanner throws when asked for the next token. */
  datatype Stream = Stream(tokens: seq<Token>, end: Option<LexError>)

  /** `peek(offset) === c`: past the end, `peek` yields the empty string, which equals no char. */
  predicate At(input: string, p: nat, c: char) {
    p < |input| && input[p] == c
  }

  /** The characters JavaScript's `\s` matches. */
  predicate IsSpace(c: char) {
    || c == ' ' || c == '\t' || c == '\n' || c == '\r' || c == '\U{000B}' || c == '\U{000C}'
    || c == '\U{00A0}' || c == '\U{1680}' || ('\U{2000}' <= c <= '\U{200A}')
    || c == '\U{2028}' || c == '\U{2029}' || c == '\U{202F}' || c == '\U{205F}'
    || c == '\U{3000}' || c == '\U{FEFF}'
  }

  predicate IsWordStart(c: char) {
    ('a' <= c <= 'z') || ('A' <= c <= 'Z') || c == '_'
  }

  predicate IsWordChar(c: char) {
    IsWordStart(c) || IsDigit(c)
  }

  /** `advance()`: one character forward on the same line. */
  function Advance(c: Cursor): (r: Cursor)
    ensures r.pos == c.pos + 1 && r.line == c.line
  {
    Cursor(c.pos + 1, c.line, c.column + 1)
  }

  /** The whitespace loop: a newline bumps the line and resets the column. */
  function SkipSpaces(input: string, c: Cursor): (r: Cursor)
    requires c.pos <= |input|
    ensures c.pos <= r.pos <= |input|
    ensures forall k :: c.pos <= k < r.pos ==> IsSpace(input[k])
    ensures r.pos == |input| || !IsSpace(input[r.pos])
    decreases |input| - c.pos
  {
    if c.pos < |input| && IsSpace(input[c.pos]) then
      SkipSpaces(input, if input[c.pos] == '\n' then Cursor(c.pos + 1, c.line + 1, 0)
                        else Cursor(c.pos + 1, c.line, c.column + 1))
    else c
  }

  /** The body of a `//` comment: everything up to (not including) the next newline. */
  function SkipLineComment(input: string, c: Cursor): (r: Cursor)
    requires c.pos <= |input|
    ensures c.pos <= r.pos <= |input|
    ensures r.pos == |input| || input[r.pos] == '\n'
    ensures forall k :: c.pos <= k < r.pos ==> input[k] != '\n'
    decreases |input| - c.pos
  {
    if !At(input, c.pos, '\n') && c.pos < |input| then SkipLineComment(input, Advance(c)) else c
  }

  /** The body of a `/*` comment: everything up to the first `*/` or the end of input. */
  function SkipBlockBody(input: string, c: Cursor): (r: Cursor)
    requires c.pos <= |input|
    ensures c.pos <= r.pos <= |input|
    ensures r.pos == |input| || (At(input, r.pos, '*') && At(input, r.pos + 1, '/'))
    decreases |input| - c.pos
  {
    if !(At(input, c.pos, '*') && At(input, c.pos + 1, '/')) && c.pos < |input| then
      SkipBlockBody(input, Advance(if At(input, c.pos, '\n') then Cursor(c.pos, c.line + 1, 0) else c))
    else c
  }

  predicate StartsComment(input: string, p: nat) {
    At(input, p, '/') && (At(input, p + 1, '/') || At(input, p + 1, '*'))
  }

  /** The outer `while (true)` of `nextToken`: whitespace, then a comment and restart.
      An unterminated block comment still consumes two more "characters", leaving the
      position up to two past the end. */
  function SkipTrivia(input: string, c: Cursor): (r: Cursor)
    ensures r.pos >= c.pos
    ensures c.pos <= |input| ==> r.pos <= |input| + 2
    ensures c.pos >= |input| ==> r == c
    ensures r.pos < |input| ==> !IsSpace(input[r.pos]) && !StartsComment(input, r.pos)
    decreases if c.pos <= |input| then |input| - c.pos + 2 else 0
  {
    if c.pos > |input| then c
    else
      var s := SkipSpaces(input, c);
      if At(input, s.pos, '/') && At(input, s.pos + 1, '/') then
        SkipTrivia(input, SkipLineComment(input, s))
      else if At(input, s.pos, '/') && At(input, s.pos + 1, '*') then
        SkipTrivia(input, Advance(Advance(SkipBlockBody(input, Advance(Advance(s))))))
      else s
  }

  /** End of the maximal run of characters satisfying `f` starting at `p`. */
  function SpanEnd(input: string, p: nat, f: char -> bool): (r: nat)
    requires p <= |input|
    ensures p <= r <= |input|
    ensures forall k :: p <= k < r ==> f(input[k])
    ensures r == |input| || !f(input[r])
    decreases |input| - p
  {
    if p < |input| && f(input[p]) then SpanEnd(input, p + 1, f) else p
  }

  /** `parseIdentifier`: a maximal word, then the reserved-word classification. */
  function ScanWord(input: string, c: Cursor): (r: Scan)
    requires c.pos < |input| && IsWordStart(input[c.pos])
    ensures c.pos < r.next.pos <= |input|
    ensures r.token.value == Text(input[c.pos..r.next.pos])
    ensures r.token.line == c.line && r.token.column == c.column
    ensures r.next == Cursor(r.next.pos, c.line, c.column + (r.next.pos - c.pos))
    ensures r.next.pos == |input| || !IsWordChar(input[r.next.pos])
    ensures r.token.kind == WordKind(input[c.pos..r.next.pos])
    ensures r.token.kind == Identifier <==> input[c.pos..r.next.pos] !in Reserved
    ensures r.token.kind != Identifier ==> IsKeyword(r.token.kind)
    ensures ValidToken(r.token)
  {
    var e := SpanEnd(input, c.pos, IsWordChar);
    var word := input[c.pos..e];
    WordKindClassifies(word);
    Scan(Token(WordKind(word), Text(word), c.line, c.column), Cursor(e, c.line, c.column + (e - c.pos)))
  }

  /** `parseNumber`: a maximal digit run read in base ten. */
  function ScanNumber(input: string, c: Cursor): (r: Scan)
    requires c.pos < |input| && IsDigit(input[c.pos])
    ensures c.pos < r.next.pos <= |input|
    ensures AllDigits(input[c.pos..r.next.pos])
    ensures r.token.kind == NumericLiteral && r.token.value == Number(DecimalValue(input[c.pos..r.next.pos]))
    ensures r.next.pos == |input| || !IsDigit(input[r.next.pos])
  {
    var e := SpanEnd(input, c.pos, IsDigit);
    var digits := input[c.pos..e];
    Scan(Token(NumericLiteral, Number(DecimalValue(digits)), c.line, c.column),
         Cursor(e, c.line, c.column + (e - c.pos)))
  }

  /** `parseString`: the raw text up to the next `"`, with no escape processing. */
  function ScanString(input: string, c: Cursor): (r: Result<Scan, LexError>)
    requires At(input, c.pos, '"')
    ensures r.Err? <==> forall k :: c.pos < k < |input| ==> input[k] != '"'
    ensures r.Err? ==> r.error == UnterminatedString(c.line, c.column)
    ensures r.Ok? ==> && c.pos + 2 <= r.value.next.pos <= |input|
                      && input[r.value.next.pos - 1] == '"'
                      && r.value.token == Token(StringLiteral, Text(input[c.pos + 1..r.value.next.pos - 1]), c.line, c.column)
                      && '"' !in r.value.token.value.text
  {
    var close := SpanEnd(input, c.pos + 1, ch => ch != '"');
    if close == |input| then Err(UnterminatedString(c.line, c.column))
    else
      Ok(Scan(Token(StringLiteral, Text(input[c.pos + 1..close]), c.line, c.column),
              Cursor(close + 1, c.line, c.column + (close + 1 - c.pos))))
  }

  /** A fixed-spelling token of `len` characters at the cursor. */
  function Fixed(k: Kind, len: nat, c: Cursor): Scan
    requires IsFixed(k)
  {
    Scan(Token(k, Text(Spelling(k)), c.line, c.column), Cursor(c.pos + len, c.line, c.column + len))
  }

  const TwoCharSpellings: set<string> := {"==", "!=", "<=", ">=", "&&", "||"}

  /** Characters that open an operator or punctuation token. */
  predicate IsOperatorStart(ch: char) {
    ch in {'=', '!', '&', '|', '<', '>', '+', '-', '*', '/', '(', ')', '{', '}', '[', ']', ',', ';', ':', '.'}
  }

  /** The branches for `=`, `!`, `<`, `>`: the kind with a following `=`, and the kind without. */
  function WithEquals(ch: char): (r: (Kind, Kind))
    requires ch in {'=', '!', '<', '>'}
    ensures IsFixed(r.0) && Spelling(r.0) == [ch, '=']
    ensures IsFixed(r.1) && Spelling(r.1) == [ch]
  {
    if ch == '=' then (DoubleEquals, Assignment)
    else if ch == '!' then (NotEquals, Bang)
    else if ch == '<' then (LessThanOrEquals, LessThan)
    else (GreaterThanOrEquals, GreaterThan)
  }

  /** The branches for `&` and `|`, which only exist doubled. */
  function Doubled(ch: char): (k: Kind)
    requires ch in {'&', '|'}
    ensures IsFixed(k) && Spelling(k) == [ch, ch]
  {
    if ch == '&' then AmpersandAmpersand else PipePipe
  }

  /** The single-character branches. */
  function Single(ch: char): (k: Kind)
    requires ch in {'+', '-', '*', '/', '(', ')', '{', '}', '[', ']', ',', ';', ':', '.'}
    ensures IsFixed(k) && Spelling(k) == [ch]
  {
    match ch
    case '+' => Plus
    case '-' => Minus
    case '*' => Multiply
    case '/' => Divide
    case '(' => LeftParen
    case ')' => RightParen
    case '{' => LeftBrace
    case '}' => RightBrace
    case '[' => LeftBracket
    case ']' => RightBracket
    case ',' => Comma
    case ';' => Semicolon
    case ':' => Colon
    case '.' => Dot
  }

  /** The operator and punctuation cascade of `nextToken`, with one character of lookahead
      for `==`, `!=`, `<=`, `>=`, `&&` and `||`. A lone `&` or `|` has already been
      consumed when the cascade falls through to the error, so the reported column is one
      past it. */
  function ScanOperator(input: string, c: Cursor): (r: Result<Scan, LexError>)
    requires c.pos < |input|
    ensures r.Ok? ==> && IsFixed(r.value.token.kind)
                      && c.pos < r.value.next.pos <= |input|
                      && r.value.token.line == c.line && r.value.token.column == c.column
                      && r.value.next == Cursor(r.value.next.pos, c.line, c.column + (r.value.next.pos - c.pos))
                      && input[c.pos..r.value.next.pos] == Spelling(r.value.token.kind)
                      && r.value.token.value == Text(Spelling(r.value.token.kind))
    // maximal munch: a two-character operator spelled at the cursor is taken whole
    ensures c.pos + 2 <= |input| && input[c.pos..c.pos + 2] in TwoCharSpellings ==>
              r.Ok? && r.value.next.pos == c.pos + 2
    ensures r.Err? <==> || !IsOperatorStart(input[c.pos])
                        || (input[c.pos] == '&' && !At(input, c.pos + 1, '&'))
                        || (input[c.pos] == '|' && !At(input, c.pos + 1, '|'))
    ensures r.Err? && IsOperatorStart(input[c.pos]) ==>
              r.error == UnexpectedCharacter(input[c.pos], c.line, c.column + 1)
    ensures r.Err? && !IsOperatorStart(input[c.pos]) ==>
              r.error == UnexpectedCharacter(input[c.pos], c.line, c.column)
  {
    var ch := input[c.pos];
    assert c.pos + 2 <= |input| ==> input[c.pos..c.pos + 2] == [ch, input[c.pos + 1]];
    if ch in {'=', '!', '<', '>'} then
      var (two, one) := WithEquals(ch);
      if At(input, c.pos + 1, '=') then
        assert input[c.pos..c.pos + 2] == [ch, '='];
        Ok(Fixed(two, 2, c))
      else
        assert input[c.pos..c.pos + 1] == [ch];
        Ok(Fixed(one, 1, c))
    else if ch in {'&', '|'} then
      if At(input, c.pos + 1, ch) then
        assert input[c.pos..c.pos + 2] == [ch, ch];
        Ok(Fixed(Doubled(ch), 2, c))
      else
        Err(UnexpectedCharacter(ch, c.line, c.column + 1))
    else if IsOperatorStart(ch) then
      assert input[c.pos..c.pos + 1] == [ch];
      Ok(Fixed(Single(ch), 1, c))
    else
      Err(UnexpectedCharacter(ch, c.line, c.column))
  }

  /** The dispatch of `nextToken` on the first character after the trivia: a word, a
      number, a string or an operator. */
  function ScanAt(input: string, s: Cursor): (r: Result<Scan, LexError>)
    requires s.pos < |input|
    ensures r.Ok? ==> && r.value.token.kind != EOF
                      && s.pos < r.value.next.pos <= |input|
                      && ValidToken(r.value.token)
                      && (IsFixed(r.value.token.kind) ==> input[s.pos..r.value.next.pos] == Spelling(r.value.token.kind))
  {
    var ch := input[s.pos];
    if IsWordStart(ch) then
      var w := ScanWord(input, s);
      WordKindClassifies(input[s.pos..w.next.pos]);
      Ok(w)
    else if IsDigit(ch) then Ok(ScanNumber(input, s))
    else if ch == '"' then ScanString(input, s)
    else ScanOperator(input, s)
  }

  /** `nextToken`: skip trivia, then EOF at the end of input, else scan one token. */
  function NextToken(input: string, c: Cursor): (r: Result<Scan, LexError>)
    ensures r.Ok? && r.value.token.kind == EOF ==>
              && r.value.next == SkipTrivia(input, c) && r.value.next.pos >= |input|
              && r.value.token == Token(EOF, Text(""), r.value.next.line, r.value.next.column)
    ensures r.Ok? && r.value.token.kind != EOF ==>
              && c.pos < r.value.next.pos <= |input|
              && ValidToken(r.value.token)
    // a fixed-spelling token is exactly its spelling in the input, after the skipped trivia
    ensures r.Ok? && IsFixed(r.value.token.kind) ==>
              var start := SkipTrivia(input, c).pos;
              start <= r.value.next.pos && input[start..r.value.next.pos] == Spelling(r.value.token.kind)
  {
    var s := SkipTrivia(input, c);
    if s.pos >= |input| then Ok(Scan(Token(EOF, Text(""), s.line, s.column), s))
    else ScanAt(input, s)
  }

  /** Pulls tokens until EOF or the first error; the measure is the remaining input. */
  function TokenizeFrom(input: string, c: Cursor): (r: Stream)
    ensures ValidTokens(r.tokens)
    decreases if c.pos <= |input| then |input| - c.pos + 2 else 0
  {
    match NextToken(input, c)
    case Err(e) => Stream([], Some(e))
    case Ok(Scan(t, next)) =>
      if t.kind == EOF then Stream([], None)
      else
        var rest := TokenizeFrom(input, next);
        Stream([t] + rest.tokens, rest.end)
  }

  /** The token stream a fresh `Lexer` yields for the whole input. */
  function Tokenize(input: string): (r: Stream)
    ensures ValidTokens(r.tokens)
  {
    TokenizeFrom(input, Start)
  }

  /** Once input is exhausted, `nextToken` keeps returning the same EOF token without moving. */
  lemma EofIsSticky(input: string, c: Cursor)
    requires NextToken(input, c).Ok? && NextToken(input, c).value.token.kind == EOF
    ensures NextToken(input, NextToken(input, c).value.next) == NextToken(input, c)
  {
  }

  /** The shape of the spellings in the `TokenType` table, as far as the scanner cares. */
  lemma SpellingShape(k: Kind)
    requires IsFixed(k)
    ensures var sp := Spelling(k);
      && |sp| >= 1
      && (IsKeyword(k) ==> forall i :: 0 <= i < |sp| ==> 'a' <= sp[i] <= 'z')
      && (!IsKeyword(k) ==> |sp| <= 2 && IsOperatorStart(sp[0]) && (|sp| == 2 ==> sp in TwoCharSpellings))
      && (sp[0] == '&' || sp[0] == '|' ==> |sp| == 2 && sp[1] == sp[0])
  {
    if IsKeyword(k) {
      KeywordShape(k);
    } else {
      OperatorShape(k);
    }
  }

  lemma KeywordShape(k: Kind)
    requires IsKeyword(k)
    ensures var sp := Spelling(k);
      |sp| >= 1 && forall i :: 0 <= i < |sp| ==> 'a' <= sp[i] <= 'z'
  {
  }

  lemma OperatorShape(k: Kind)
    requires IsFixed(k) && !IsKeyword(k)
    ensures var sp := Spelling(k);
      && 1 <= |sp| <= 2 && IsOperatorStart(sp[0]) && (|sp| == 2 ==> sp in TwoCharSpellings)
      && (sp[0] == '&' || sp[0] == '|' ==> |sp| == 2 && sp[1] == sp[0])
  {
  }

  /** Distinct kinds have distinct spellings. */
  lemma SpellingInjective(k1: Kind, k2: Kind)
    requires IsFixed(k1) && IsFixed(k2) && Spelling(k1) == Spelling(k2)
    ensures k1 == k2
  {
    SpellingShape(k1);
    SpellingShape(k2);
    if IsKeyword(k1) {
      KeywordSpellingRoundTrip(k1);
      KeywordSpellingRoundTrip(k2);
    } else {
      OperatorSpellingRoundTrip(k1);
      OperatorSpellingRoundTrip(k2);
    }
  }

  lemma NoTriviaAtStart(input: string)
    requires |input| >= 1 && !IsSpace(input[0]) && !StartsComment(input, 0)
    ensures SkipTrivia(input, Start) == Start
  {
    assert SkipSpaces(input, Start) == Start;
  }

  /** The first token of a fixed spelling is that spelling's kind, and it spans the input. */
  lemma FirstTokenOfSpelling(k: Kind)
    requires IsFixed(k)
    ensures var input := Spelling(k);
      NextToken(input, Start) == Ok(Scan(Token(k, Text(input), 1, 0), Cursor(|input|, 1, |input|)))
  {
    if IsKeyword(k) {
      KeywordFirstToken(k, Spelling(k));
    } else {
      OperatorFirstToken(k, Spelling(k));
    }
  }

  lemma KeywordFirstToken(k: Kind, input: string)
    requires IsKeyword(k) && input == Spelling(k)
    ensures NextToken(input, Start) == Ok(Scan(Token(k, Text(input), 1, 0), Cursor(|input|, 1, |input|)))
  {
    KeywordShape(k);
    NoTriviaAtStart(input);
    KeywordSpellingRoundTrip(k);
    WordFirstToken(input);
  }

  lemma WordFirstToken(input: string)
    requires |input| >= 1 && forall i :: 0 <= i < |input| ==> 'a' <= input[i] <= 'z'
    requires SkipTrivia(input, Start) == Start
    ensures NextToken(input, Start) == Ok(Scan(Token(WordKind(input), Text(input), 1, 0), Cursor(|input|, 1, |input|)))
  {
    assert IsWordStart(input[0]);
    WordDispatch(input);
    WholeWord(input);
  }

  lemma WordDispatch(input: string)
    requires |input| >= 1 && IsWordStart(input[0])
    requires SkipTrivia(input, Start) == Start
    ensures NextToken(input, Start) == Ok(ScanWord(input, Start))
  {
    assert NextToken(input, Start) == ScanAt(input, Start);
  }

  lemma WholeWord(input: string)
    requires |input| >= 1 && forall i :: 0 <= i < |input| ==> 'a' <= input[i] <= 'z'
    ensures ScanWord(input, Start) == Scan(Token(WordKind(input), Text(input), 1, 0), Cursor(|input|, 1, |input|))
  {
    var w := ScanWord(input, Start);
    assert w.next.pos < |input| ==> IsWordChar(input[w.next.pos]);
    assert w.next.pos == |input|;
    assert input[0..|input|] == input;
  }

  lemma OperatorFirstToken(k: Kind, input: string)
    requires IsFixed(k) && !IsKeyword(k) && input == Spelling(k)
    ensures NextToken(input, Start) == Ok(Scan(Token(k, Text(input), 1, 0), Cursor(|input|, 1, |input|)))
  {
    OperatorShape(k);
    NoTriviaAtStart(input);
    OperatorDispatch(input);
    WholeOperator(k, input);
  }

  lemma OperatorDispatch(input: string)
    requires 1 <= |input| <= 2 && IsOperatorStart(input[0])
    requires SkipTrivia(input, Start) == Start
    ensures NextToken(input, Start) == ScanOperator(input, Start)
  {
    assert NextToken(input, Start) == ScanAt(input, Start);
    assert !IsWordStart(input[0]) && !IsDigit(input[0]) && input[0] != '"';
  }

  lemma WholeOperator(k: Kind, input: string)
    requires IsFixed(k) && !IsKeyword(k) && input == Spelling(k)
    ensures ScanOperator(input, Start) == Ok(Scan(Token(k, Text(input), 1, 0), Cursor(|input|, 1, |input|)))
  {
    OperatorShape(k);
    var ch := input[0];
    if |input| == 2 {
      assert input == [ch, input[1]];
      if ch in {'&', '|'} {
        DoubledScan(input);
        ScannedAsSpelled(k, Doubled(ch), input);
      } else {
        WithEqualsScan(input);
        ScannedAsSpelled(k, WithEquals(ch).0, input);
      }
    } else if ch in {'=', '!', '<', '>'} {
      assert input == [ch];
      WithoutEqualsScan(input);
      ScannedAsSpelled(k, WithEquals(ch).1, input);
    } else {
      assert input == [ch];
      SingleScan(input);
      ScannedAsSpelled(k, Single(ch), input);
    }
  }

  /** A fixed token spelled like `k` is a token of `k`. */
  lemma ScannedAsSpelled(k: Kind, scanned: Kind, input: string)
    requires IsFixed(k) && IsFixed(scanned) && input == Spelling(k) && Spelling(scanned) == input
    ensures Fixed(scanned, |input|, Start) == Scan(Token(k, Text(input), 1, 0), Cursor(|input|, 1, |input|))
  {
    SpellingInjective(scanned, k);
  }

  lemma SingleScan(input: string)
    requires |input| == 1 && input[0] in {'+', '-', '*', '/', '(', ')', '{', '}', '[', ']', ',', ';', ':', '.'}
    ensures ScanOperator(input, Start) == Ok(Fixed(Single(input[0]), 1, Start))
  {
  }

  lemma WithoutEqualsScan(input: string)
    requires |input| == 1 && input[0] in {'=', '!', '<', '>'}
    ensures ScanOperator(input, Start) == Ok(Fixed(WithEquals(input[0]).1, 1, Start))
  {
  }

  lemma WithEqualsScan(input: string)
    requires |input| == 2 && input[0] in {'=', '!', '<', '>'} && input[1] == '='
    ensures ScanOperator(input, Start) == Ok(Fixed(WithEquals(input[0]).0, 2, Start))
  {
  }

  lemma DoubledScan(input: string)
    requires |input| == 2 && input[0] in {'&', '|'} && input[1] == input[0]
    ensures ScanOperator(input, Start) == Ok(Fixed(Doubled(input[0]), 2, Start))
  {
    assert At(input, 1, input[0]);
    assert !(input[0] in {'=', '!', '<', '>'});
  }

  /** Every fixed spelling of the `TokenType` table, alone in the input, lexes back to
      exactly its own kind at line 1, column 0, followed by EOF. */
  lemma LexSpelling(k: Kind)
    requires IsFixed(k)
    ensures Tokenize(Spelling(k)) == Stream([Token(k, Text(Spelling(k)), 1, 0)], None)
  {
    var input := Spelling(k);
    FirstTokenOfSpelling(k);
    var next := Cursor(|input|, 1, |input|);
    assert NextToken(input, next).value.token.kind == EOF;
    assert TokenizeFrom(input, next) == Stream([], None);
  }
}
