/** Token kinds, token values and the two fixed tables of the lexer:
    the `TokenType` spelling table and the reserved-word classification. */
module Tokens {

  /** One tag per entry of the source's `TokenType` table. */
  datatype Kind =
    | EOF | Identifier | NumericLiteral | StringLiteral
    | Assignment | Semicolon | First | Plus | Minus | Multiply | Divide
    | LeftParen | RightParen | LeftBrace | RightBrace | LeftBracket | RightBracket
    | Let | If | Else | True | False | While | For
    | DoubleEquals | NotEquals | LessThan | GreaterThan | LessThanOrEquals | GreaterThanOrEquals
    | Comma | Colon | Dot | Bang | AmpersandAmpersand | PipePipe
    | Function | Return | Class | Constructor | This | New

  /** A token's `value`: the source stores either a string or a number. */
  datatype Value = Text(text: string) | Number(number: nat)

  datatype Token = Token(kind: Kind, value: Value, line: nat, column: nat)

  /** Kinds whose lexeme is fixed (everything but EOF and the three literal classes). */
  predicate IsFixed(k: Kind) {
    !(k.EOF? || k.Identifier? || k.NumericLiteral? || k.StringLiteral?)
  }

  /** Kinds that the identifier scanner produces for reserved words. */
  predicate IsKeyword(k: Kind) {
    k in {First, Let, If, Else, True, False, While, For, Function, Return, Class, Constructor, This, New}
  }

  /** The right-hand side of the `TokenType` table: the text of every fixed-lexeme kind. */
  function Spelling(k: Kind): string
    requires IsFixed(k)
  {
    match k
    case Assignment => "="
    case Semicolon => ";"
    case First => "first"
    case Plus => "+"
    case Minus => "-"
    case Multiply => "*"
    case Divide => "/"
    case LeftParen => "("
    case RightParen => ")"
    case LeftBrace => "{"
    case RightBrace => "}"
    case LeftBracket => "["
    case RightBracket => "]"
    case Let => "let"
    case If => "if"
    case Else => "else"
    case True => "true"
    case False => "false"
    case While => "while"
    case For => "for"
    case DoubleEquals => "=="
    case NotEquals => "!="
    case LessThan => "<"
    case GreaterThan => ">"
    case LessThanOrEquals => "<="
    case GreaterThanOrEquals => ">="
    case Comma => ","
    case Colon => ":"
    case Dot => "."
    case Bang => "!"
    case AmpersandAmpersand => "&&"
    case PipePipe => "||"
    case Function => "function"
    case Return => "return"
    case Class => "class"
    case Constructor => "constructor"
    case This => "this"
    case New => "new"
  }

  /** The reserved words, as listed by the identifier scanner. */
  const Reserved: set<string> :=
    {"first", "let", "if", "else", "true", "false", "while", "for",
     "function", "return", "class", "constructor", "this", "new"}

  /** The classification the identifier scanner applies to a scanned word:
      the chain of exact comparisons, falling back to `Identifier`. */
  function WordKind(word: string): Kind {
    if word == "first" then First
    else if word == "let" then Let
    else if word == "if" then If
    else if word == "else" then Else
    else if word == "true" then True
    else if word == "false" then False
    else if word == "while" then While
    else if word == "for" then For
    else if word == "function" then Function
    else if word == "return" then Return
    else if word == "class" then Class
    else if word == "constructor" then Constructor
    else if word == "this" then This
    else if word == "new" then New
    else Identifier
  }

  /** A reserved word always becomes its keyword kind, whose table spelling is the word
      itself; any other word stays an `Identifier`. */
  lemma WordKindClassifies(word: string)
    ensures WordKind(word) == Identifier <==> word !in Reserved
    ensures word in Reserved ==> IsKeyword(WordKind(word)) && Spelling(WordKind(word)) == word
    ensures WordKind(word) != Identifier ==> IsKeyword(WordKind(word))
  {
    KeywordSpelledBack(word);
    ReservedIsKeyword(word);
    KeywordIsReserved(word);
  }

  lemma KeywordSpelledBack(word: string)
    ensures WordKind(word) != Identifier ==> IsKeyword(WordKind(word)) && Spelling(WordKind(word)) == word
  {
    if word == "first" {
    } else if word == "let" {
    } else if word == "if" {
    } else if word == "else" {
    } else if word == "true" {
    } else if word == "false" {
    } else if word == "while" {
    } else if word == "for" {
    } else if word == "function" {
    } else if word == "return" {
    } else if word == "class" {
    } else if word == "constructor" {
    } else if word == "this" {
    } else if word == "new" {
    }
  }

  lemma ReservedIsKeyword(word: string)
    ensures word in Reserved ==> WordKind(word) != Identifier
  {
  }

  lemma KeywordIsReserved(word: string)
    ensures WordKind(word) != Identifier ==> word in Reserved
  {
  }

  /** The spelling table and the classification agree: classifying the spelling of a
      keyword kind gives back that kind. */
  lemma KeywordSpellingRoundTrip(k: Kind)
    requires IsKeyword(k)
    ensures IsFixed(k) && Spelling(k) in Reserved && WordKind(Spelling(k)) == k
  {
  }

  /** The spelling table read backwards on operator and punctuation texts (`Identifier`:
      not such a text). */
  function OperatorKind(text: string): Kind {
    if text == "=" then Assignment
    else if text == ";" then Semicolon
    else if text == "+" then Plus
    else if text == "-" then Minus
    else if text == "*" then Multiply
    else if text == "/" then Divide
    else if text == "(" then LeftParen
    else if text == ")" then RightParen
    else if text == "{" then LeftBrace
    else if text == "}" then RightBrace
    else if text == "[" then LeftBracket
    else if text == "]" then RightBracket
    else if text == "==" then DoubleEquals
    else if text == "!=" then NotEquals
    else if text == "<" then LessThan
    else if text == ">" then GreaterThan
    else if text == "<=" then LessThanOrEquals
    else if text == ">=" then GreaterThanOrEquals
    else if text == "," then Comma
    else if text == ":" then Colon
    else if text == "." then Dot
    else if text == "!" then Bang
    else if text == "&&" then AmpersandAmpersand
    else if text == "||" then PipePipe
    else Identifier
  }

  /** Reading an operator's spelling back gives the operator. */
  lemma OperatorSpellingRoundTrip(k: Kind)
    requires IsFixed(k) && !IsKeyword(k)
    ensures OperatorKind(Spelling(k)) == k
  {
    match k
    case Assignment =>
    case Semicolon =>
    case Plus =>
    case Minus =>
    case Multiply =>
    case Divide =>
    case LeftParen =>
    case RightParen =>
    case LeftBrace =>
    case RightBrace =>
    case LeftBracket =>
    case RightBracket =>
    case DoubleEquals =>
    case NotEquals =>
    case LessThan =>
    case GreaterThan =>
    case LessThanOrEquals =>
    case GreaterThanOrEquals =>
    case Comma =>
    case Colon =>
    case Dot =>
    case Bang =>
    case AmpersandAmpersand =>
    case PipePipe =>
  }

  /** Binding strength of a binary operator token (0: not a binary operator). */
  function Precedence(k: Kind): (p: nat)
    ensures p <= 5
    ensures p == 0 <==> !(k in {PipePipe, AmpersandAmpersand, DoubleEquals, NotEquals, LessThan,
                                GreaterThan, LessThanOrEquals, GreaterThanOrEquals, Plus, Minus,
                                Multiply, Divide})
  {
    match k
    case PipePipe => 1
    case AmpersandAmpersand => 2
    case DoubleEquals => 3
    case NotEquals => 3
    case LessThan => 3
    case GreaterThan => 3
    case LessThanOrEquals => 3
    case GreaterThanOrEquals => 3
    case Plus => 4
    case Minus => 4
    case Multiply => 5
    case Divide => 5
    case _ => 0
  }

  /** What the lexer guarantees of each token it hands to the parser: fixed kinds carry
      their spelling, identifiers and strings carry text, numbers carry a number, and an
      identifier's text is never a reserved word. */
  predicate ValidToken(t: Token) {
    && !t.kind.EOF?
    && (IsFixed(t.kind) ==> t.value == Text(Spelling(t.kind)))
    && (t.kind.NumericLiteral? <==> t.value.Number?)
    && (t.kind.Identifier? ==> t.value.text !in Reserved)
  }

  predicate ValidTokens(ts: seq<Token>) {
    forall i :: 0 <= i < |ts| ==> ValidToken(ts[i])
  }
}
