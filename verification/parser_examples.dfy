/** The parser on small token streams, written out token by token: the grouping of
    operators, assignment and unary minus, and the statement separator. */
module ParserExamples {
  import opened Wrappers
  import opened Tokens
  import Lexer
  import opened Ast
  import opened Grammar
  import opened Parser
  import opened ParserProps

  /** An identifier token, as the lexer hands it over (positions do not matter here). */
  function Name(x: string): Token {
    Token(Identifier, Text(x), 1, 0)
  }

  /** A token of fixed spelling. */
  function Sym(k: Kind): Token
    requires IsFixed(k)
  {
    Token(k, Text(Spelling(k)), 1, 0)
  }

  /** A whole source text that lexes without error into `ts`. */
  function Lexed(ts: seq<Token>): Lexer.Stream {
    Lexer.Stream(ts, None)
  }

  /** A binary or logical operator, or `=`: the kinds written between two names below. */
  predicate Infix(k: Kind) {
    Precedence(k) > 0 || k == Assignment
  }

  /** Names the lexer may produce as identifiers. */
  predicate Names(x: string, y: string, z: string) {
    x !in Reserved && y !in Reserved && z !in Reserved
  }

  /** The five tokens `x k1 y k2 z`. */
  function Triple(x: string, k1: Kind, y: string, k2: Kind, z: string): Lexer.Stream
    requires Infix(k1) && Infix(k2)
  {
    Lexed([Name(x), Sym(k1), Name(y), Sym(k2), Name(z)])
  }

  /** A stream that reads `x k1 y k2 z` and ends there. */
  predicate Reads(s: Lexer.Stream, x: string, k1: Kind, y: string, k2: Kind, z: string) {
    ValidTokens(s.tokens) && |s.tokens| == 5 && s.end.None? &&
    s.tokens[0].kind == Identifier && s.tokens[0].value == Text(x) && s.tokens[1].kind == k1 &&
    s.tokens[2].kind == Identifier && s.tokens[2].value == Text(y) && s.tokens[3].kind == k2 &&
    s.tokens[4].kind == Identifier && s.tokens[4].value == Text(z)
  }

  lemma TripleReads(x: string, k1: Kind, y: string, k2: Kind, z: string)
    requires Infix(k1) && Infix(k2) && Names(x, y, z)
    ensures Reads(Triple(x, k1, y, k2, z), x, k1, y, k2, z)
  {
    var ts := Triple(x, k1, y, k2, z).tokens;
    assert ValidToken(ts[0]) && ValidToken(ts[1]) && ValidToken(ts[2]) && ValidToken(ts[3]) && ValidToken(ts[4]);
  }

  /** An identifier that no call, index or member access follows is an operand by itself. */
  lemma NameOperand(s: Lexer.Stream, q: nat)
    requires Valid(s, q) && Current(s, q) == Identifier && Valid(s, q + 1)
    requires Current(s, q + 1) != LeftParen && Current(s, q + 1) != LeftBracket && Current(s, q + 1) != Dot
    ensures ParseCallMember(s, q, true) == Ok(Parsed(IdentifierNode(TextAt(s, q)), q + 1))
  {
    StepTo(s, q);
    assert ParsePrimary(s, q) == Ok(Parsed(IdentifierNode(TextAt(s, q)), q + 1));
  }

  /** ... and, before a token that is no binary operator, a whole binary expression. */
  lemma NameAlone(s: Lexer.Stream, q: nat)
    requires Valid(s, q) && Current(s, q) == Identifier && Valid(s, q + 1)
    requires Current(s, q + 1) != LeftParen && Current(s, q + 1) != LeftBracket && Current(s, q + 1) != Dot
    requires Precedence(Current(s, q + 1)) == 0
    ensures ParseBinary(s, q, 0) == Ok(Parsed(IdentifierNode(TextAt(s, q)), q + 1))
  {
    NameOperand(s, q);
    BinaryStart(s, q, 0, IdentifierNode(TextAt(s, q)), q + 1);
  }

  /** What a parser sees of such a stream. */
  lemma ReadsAt(s: Lexer.Stream, x: string, k1: Kind, y: string, k2: Kind, z: string)
    requires Reads(s, x, k1, y, k2, z)
    ensures Valid(s, 0) && Valid(s, 1) && Valid(s, 2) && Valid(s, 3) && Valid(s, 4) && Valid(s, 5)
    ensures Current(s, 0) == Identifier && Current(s, 1) == k1 && Current(s, 2) == Identifier &&
            Current(s, 3) == k2 && Current(s, 4) == Identifier && Current(s, 5) == EOF
    ensures TextAt(s, 0) == x && TextAt(s, 2) == y && TextAt(s, 4) == z
  {
  }

  /** A lone name as operand `i` of a chain. */
  lemma NameOperandAt(s: Lexer.Stream, xs: seq<Node>, ends: seq<nat>, i: nat, q: nat)
    requires i < |ends| == |xs| && q == Start(0, ends, i) && ends[i] == q + 1
    requires Valid(s, q) && Current(s, q) == Identifier && Valid(s, q + 1)
    requires Current(s, q + 1) != LeftParen && Current(s, q + 1) != LeftBracket && Current(s, q + 1) != Dot
    requires xs[i] == IdentifierNode(TextAt(s, q))
    ensures OperandAt(s, 0, xs, ends, i)
  {
    NameOperand(s, q);
  }

  /** The three names of `x k1 y k2 z` are operands ending at the odd positions. */
  lemma TripleOperands(s: Lexer.Stream, x: string, k1: Kind, y: string, k2: Kind, z: string)
    requires Reads(s, x, k1, y, k2, z) && Infix(k1) && Infix(k2)
    ensures var xs := [IdentifierNode(x), IdentifierNode(y), IdentifierNode(z)];
            OperandAt(s, 0, xs, [1, 3, 5], 0) && OperandAt(s, 0, xs, [1, 3, 5], 1) &&
            OperandAt(s, 0, xs, [1, 3, 5], 2)
  {
    var xs := [IdentifierNode(x), IdentifierNode(y), IdentifierNode(z)];
    ReadsAt(s, x, k1, y, k2, z);
    NameOperandAt(s, xs, [1, 3, 5], 0, 0);
    NameOperandAt(s, xs, [1, 3, 5], 1, 2);
    NameOperandAt(s, xs, [1, 3, 5], 2, 4);
  }

  /** The two operators of `x k1 y k2 z` sit at positions 1 and 3. */
  lemma TripleOperators(s: Lexer.Stream, x: string, k1: Kind, y: string, k2: Kind, z: string)
    requires Reads(s, x, k1, y, k2, z) && Precedence(k1) > 0 && Precedence(k2) > 0
    ensures forall i | 0 <= i < 2 :: OperatorAt(s, [k1, k2], [1, 3, 5], i)
    ensures Operators([k1, k2])
  {
    LevelAt([k1, k2], 0);
    LevelAt([k1, k2], 1);
  }

  /** `x k1 y k2 z` with two binary operators is a chain of three operands. */
  lemma TripleChain(s: Lexer.Stream, x: string, k1: Kind, y: string, k2: Kind, z: string)
    requires Reads(s, x, k1, y, k2, z) && Precedence(k1) > 0 && Precedence(k2) > 0
    ensures Chain(s, 0, [IdentifierNode(x), IdentifierNode(y), IdentifierNode(z)], [k1, k2], [1, 3, 5])
  {
    TripleOperands(s, x, k1, y, k2, z);
    TripleOperators(s, x, k1, y, k2, z);
    ReadsAt(s, x, k1, y, k2, z);
  }

  /** The first two names of `x k1 y = z` are operands ending at positions 1 and 3. */
  lemma PairOperands(s: Lexer.Stream, x: string, k1: Kind, y: string, z: string)
    requires Reads(s, x, k1, y, Assignment, z) && Precedence(k1) > 0
    ensures var xs := [IdentifierNode(x), IdentifierNode(y)];
            OperandAt(s, 0, xs, [1, 3], 0) && OperandAt(s, 0, xs, [1, 3], 1)
  {
    var xs := [IdentifierNode(x), IdentifierNode(y)];
    ReadsAt(s, x, k1, y, Assignment, z);
    NameOperandAt(s, xs, [1, 3], 0, 0);
    NameOperandAt(s, xs, [1, 3], 1, 2);
  }

  /** `x k1 y = z` with `k1` binary: a chain of two operands, ended by the `=`. */
  lemma PairChain(s: Lexer.Stream, x: string, k1: Kind, y: string, z: string)
    requires Reads(s, x, k1, y, Assignment, z) && Precedence(k1) > 0
    ensures Chain(s, 0, [IdentifierNode(x), IdentifierNode(y)], [k1], [1, 3])
  {
    PairOperands(s, x, k1, y, z);
    LevelAt([k1], 0);
    ReadsAt(s, x, k1, y, Assignment, z);
  }

  /** One operator between two operands. */
  lemma ReferenceOne(xs: seq<Node>, ops: seq<Kind>, i: nat)
    requires |xs| == |ops| + 1 && Operands(xs) && Operators(ops) && i < |ops|
    ensures Precedence(ops[i]) > 0
    ensures Reference(xs, ops, i, i + 1) == Combine(ops[i], xs[i], xs[i + 1])
  {
    ReferenceRoot(xs, ops, i, i + 1);
  }

  /** With two operators the reference tree groups to the left unless the second binds
      more tightly. */
  lemma ReferenceOfTwo(x: Node, k1: Kind, y: Node, k2: Kind, z: Node)
    requires Expr(x) && Expr(y) && Expr(z) && Precedence(k1) > 0 && Precedence(k2) > 0
    ensures Operands([x, y, z]) && Operators([k1, k2])
    ensures Reference([x, y, z], [k1, k2], 0, 2)
         == if Precedence(k2) <= Precedence(k1) then Combine(k2, Combine(k1, x, y), z)
            else Combine(k1, x, Combine(k2, y, z))
  {
    var xs := [x, y, z];
    var ops := [k1, k2];
    LevelAt(ops, 0);
    LevelAt(ops, 1);
    ReferenceRoot(xs, ops, 0, 2);
    if Precedence(k2) <= Precedence(k1) {
      assert Split(Levels(ops), 0, 2) == 1;
      ReferenceOne(xs, ops, 0);
    } else {
      assert Split(Levels(ops), 0, 2) == 0;
      ReferenceOne(xs, ops, 1);
    }
  }

  /** `x k1 y k2 z` with two binary operators parses to the reference tree, as a whole
      expression. */
  lemma TripleParses(s: Lexer.Stream, x: string, k1: Kind, y: string, k2: Kind, z: string)
    requires Reads(s, x, k1, y, k2, z) && Precedence(k1) > 0 && Precedence(k2) > 0
    ensures Valid(s, 0) &&
            ParseExpression(s, 0)
         == Ok(Parsed(if Precedence(k2) <= Precedence(k1)
                      then Combine(k2, Combine(k1, IdentifierNode(x), IdentifierNode(y)), IdentifierNode(z))
                      else Combine(k1, IdentifierNode(x), Combine(k2, IdentifierNode(y), IdentifierNode(z))), 5))
  {
    TripleChain(s, x, k1, y, k2, z);
    ParseBinaryChain(s, 0, [IdentifierNode(x), IdentifierNode(y), IdentifierNode(z)], [k1, k2], [1, 3, 5]);
    ReferenceOfTwo(IdentifierNode(x), k1, IdentifierNode(y), k2, IdentifierNode(z));
    ReadsAt(s, x, k1, y, k2, z);
  }

  /** `x && y || z`: `&&` binds more tightly, so `||` is the root. */
  lemma LogicalGrouping(s: Lexer.Stream, x: string, y: string, z: string)
    requires Reads(s, x, AmpersandAmpersand, y, PipePipe, z)
    ensures Valid(s, 0) &&
            ParseExpression(s, 0)
         == Ok(Parsed(LogicalExpressionNode("||", LogicalExpressionNode("&&", IdentifierNode(x), IdentifierNode(y)), IdentifierNode(z)), 5))
  {
    assert Spelling(AmpersandAmpersand) == "&&" && Spelling(PipePipe) == "||";
    TripleParses(s, x, AmpersandAmpersand, y, PipePipe, z);
    assert Precedence(PipePipe) < Precedence(AmpersandAmpersand);
    assert Combine(AmpersandAmpersand, IdentifierNode(x), IdentifierNode(y)) == LogicalExpressionNode("&&", IdentifierNode(x), IdentifierNode(y));
  }

  /** `x - y - z`: operators of one level group to the left. */
  lemma MinusGroupsLeft(s: Lexer.Stream, x: string, y: string, z: string)
    requires Reads(s, x, Minus, y, Minus, z)
    ensures Valid(s, 0) &&
            ParseExpression(s, 0)
         == Ok(Parsed(BinaryExpressionNode("-", BinaryExpressionNode("-", IdentifierNode(x), IdentifierNode(y)), IdentifierNode(z)), 5))
  {
    assert Spelling(Minus) == "-";
    TripleParses(s, x, Minus, y, Minus, z);
    assert Combine(Minus, IdentifierNode(x), IdentifierNode(y)) == BinaryExpressionNode("-", IdentifierNode(x), IdentifierNode(y));
  }

  /** `x * y + z`: a tighter operator on the left is not widened by a looser one after it. */
  lemma TimesBeforePlus(s: Lexer.Stream, x: string, y: string, z: string)
    requires Reads(s, x, Multiply, y, Plus, z)
    ensures Valid(s, 0) &&
            ParseExpression(s, 0)
         == Ok(Parsed(BinaryExpressionNode("+", BinaryExpressionNode("*", IdentifierNode(x), IdentifierNode(y)), IdentifierNode(z)), 5))
  {
    assert Spelling(Multiply) == "*" && Spelling(Plus) == "+";
    TripleParses(s, x, Multiply, y, Plus, z);
    assert Precedence(Plus) < Precedence(Multiply);
    assert Combine(Multiply, IdentifierNode(x), IdentifierNode(y)) == BinaryExpressionNode("*", IdentifierNode(x), IdentifierNode(y));
  }

  /** `x + y * z`: a tighter operator on the right takes the middle operand. */
  lemma TimesAfterPlus(s: Lexer.Stream, x: string, y: string, z: string)
    requires Reads(s, x, Plus, y, Multiply, z)
    ensures Valid(s, 0) &&
            ParseExpression(s, 0)
         == Ok(Parsed(BinaryExpressionNode("+", IdentifierNode(x), BinaryExpressionNode("*", IdentifierNode(y), IdentifierNode(z))), 5))
  {
    assert Spelling(Multiply) == "*" && Spelling(Plus) == "+";
    TripleParses(s, x, Plus, y, Multiply, z);
    assert Precedence(Plus) < Precedence(Multiply);
    assert Combine(Multiply, IdentifierNode(y), IdentifierNode(z)) == BinaryExpressionNode("*", IdentifierNode(y), IdentifierNode(z));
    assert Combine(Plus, IdentifierNode(x), BinaryExpressionNode("*", IdentifierNode(y), IdentifierNode(z))) == BinaryExpressionNode("+", IdentifierNode(x), BinaryExpressionNode("*", IdentifierNode(y), IdentifierNode(z)));
  }

  /** An operand not followed by `=` is the whole expression. */
  lemma NoAssignment(s: Lexer.Stream, q: nat, x: Node, e: nat)
    requires Valid(s, q) && ParseBinary(s, q, 0) == Ok(Parsed(x, e)) && Current(s, e) != Assignment
    ensures ParseExpression(s, q) == Ok(Parsed(x, e))
  {
  }

  /** A name followed by `=` is assigned the expression after the `=`, which starts at
      `a`. */
  lemma AssignmentTo(s: Lexer.Stream, q: nat, x: Node, e: nat, a: nat, right: Node, n: nat)
    requires Valid(s, q) && ParseBinary(s, q, 0) == Ok(Parsed(x, e)) && x.IdentifierNode?
    requires Current(s, e) == Assignment && a == e + 1 && Valid(s, a)
    requires ParseExpression(s, a) == Ok(Parsed(right, n))
    ensures ParseExpression(s, q) == Ok(Parsed(AssignmentExpressionNode(x, right), n))
  {
    AssignmentStep(s, x, e, a, right, n);
  }

  lemma AssignmentStep(s: Lexer.Stream, x: Node, e: nat, a: nat, right: Node, n: nat)
    requires Valid(s, e) && Expr(x) && x.IdentifierNode?
    requires Current(s, e) == Assignment && a == e + 1 && Valid(s, a)
    requires ParseExpression(s, a) == Ok(Parsed(right, n))
    ensures ParseAssignment(s, x, e) == Ok(Parsed(AssignmentExpressionNode(x, right), n))
  {
    var step := Step(s, e);
    assert !step.IsFailure() && step.Extract() == a;
    var rhs := ParseExpression(s, step.Extract());
    assert !rhs.IsFailure() && rhs.Extract() == Parsed(right, n);
  }

  /** The `b = c` that follows `a =`. */
  lemma AssignmentTail(s: Lexer.Stream)
    requires Reads(s, "a", Assignment, "b", Assignment, "c")
    ensures Valid(s, 2) &&
            ParseExpression(s, 2) == Ok(Parsed(AssignmentExpressionNode(IdentifierNode("b"), IdentifierNode("c")), 5))
  {
    ReadsAt(s, "a", Assignment, "b", Assignment, "c");
    NameAlone(s, 4);
    NoAssignment(s, 4, IdentifierNode("c"), 5);
    NameAlone(s, 2);
    AssignmentTo(s, 2, IdentifierNode("b"), 3, 4, IdentifierNode("c"), 5);
  }

  /** `a = b = c`: assignment groups to the right. */
  lemma AssignmentGroupsRight(s: Lexer.Stream)
    requires Reads(s, "a", Assignment, "b", Assignment, "c")
    ensures Valid(s, 0) &&
            ParseExpression(s, 0)
         == Ok(Parsed(AssignmentExpressionNode(IdentifierNode("a"), AssignmentExpressionNode(IdentifierNode("b"), IdentifierNode("c"))), 5))
  {
    ReadsAt(s, "a", Assignment, "b", Assignment, "c");
    AssignmentTail(s);
    NameAlone(s, 0);
    AssignmentTo(s, 0, IdentifierNode("a"), 1, 2, AssignmentExpressionNode(IdentifierNode("b"), IdentifierNode("c")), 5);
  }

  /** `x k y = z` with `k` binary: the target is an operation, which cannot be assigned
      to. */
  lemma OperationIsNoTarget(s: Lexer.Stream, x: string, k: Kind, y: string, z: string)
    requires Reads(s, x, k, y, Assignment, z) && Precedence(k) > 0
    ensures Valid(s, 0) && ParseExpression(s, 0) == Err(InvalidAssignmentTarget)
  {
    PairChain(s, x, k, y, z);
    ParseBinaryChain(s, 0, [IdentifierNode(x), IdentifierNode(y)], [k], [1, 3]);
    ReferenceOne([IdentifierNode(x), IdentifierNode(y)], [k], 0);
    ReadsAt(s, x, k, y, Assignment, z);
  }

  /** A stream that reads `- f ( x )` and ends there. */
  predicate ReadsNegatedCall(s: Lexer.Stream, f: string, x: string) {
    ValidTokens(s.tokens) && |s.tokens| == 5 && s.end.None? &&
    s.tokens[0].kind == Minus && s.tokens[1].kind == Identifier && s.tokens[1].value == Text(f) &&
    s.tokens[2].kind == LeftParen && s.tokens[3].kind == Identifier && s.tokens[3].value == Text(x) &&
    s.tokens[4].kind == RightParen
  }

  lemma NegatedCallReads(f: string, x: string)
    requires f !in Reserved && x !in Reserved
    ensures ReadsNegatedCall(Lexed([Sym(Minus), Name(f), Sym(LeftParen), Name(x), Sym(RightParen)]), f, x)
  {
    var ts := [Sym(Minus), Name(f), Sym(LeftParen), Name(x), Sym(RightParen)];
    assert ValidToken(ts[0]) && ValidToken(ts[1]) && ValidToken(ts[2]) && ValidToken(ts[3]) && ValidToken(ts[4]);
  }

  lemma NegatedCallAt(s: Lexer.Stream, f: string, x: string)
    requires ReadsNegatedCall(s, f, x)
    ensures Valid(s, 0) && Valid(s, 1) && Valid(s, 2) && Valid(s, 3) && Valid(s, 4) && Valid(s, 5)
    ensures Current(s, 0) == Minus && Current(s, 1) == Identifier && Current(s, 2) == LeftParen &&
            Current(s, 3) == Identifier && Current(s, 4) == RightParen && Current(s, 5) == EOF
    ensures TextAt(s, 1) == f && TextAt(s, 3) == x
  {
  }

  /** A name is a primary of one token. */
  lemma PrimaryName(s: Lexer.Stream, q: nat)
    requires Valid(s, q) && Current(s, q) == Identifier && Valid(s, q + 1)
    ensures ParsePrimary(s, q) == Ok(Parsed(IdentifierNode(TextAt(s, q)), q + 1))
  {
    StepTo(s, q);
  }

  /** `- name`: the negation of the name, read as one primary. */
  lemma NegatedName(s: Lexer.Stream, q: nat, a: nat)
    requires Valid(s, q) && Current(s, q) == Minus && a == q + 1 && Valid(s, a)
    requires Current(s, a) == Identifier && Valid(s, a + 1)
    ensures ParsePrimary(s, q) == Ok(Parsed(UnaryExpressionNode("-", IdentifierNode(TextAt(s, a))), a + 1))
  {
    PrimaryName(s, a);
    var step := Step(s, q);
    assert !step.IsFailure() && step.Extract() == a;
    var argument := ParsePrimary(s, step.Extract());
    assert !argument.IsFailure() && argument.Extract() == Parsed(IdentifierNode(TextAt(s, a)), a + 1);
    assert ParseUnary(s, q) == Ok(Parsed(UnaryExpressionNode("-", IdentifierNode(TextAt(s, a))), a + 1));
  }

  /** A list of one expression, followed by no `,`. */
  lemma ListOfOne(s: Lexer.Stream, a: nat, close: Kind, x: Node, e: nat)
    requires Valid(s, a) && Current(s, a) != close
    requires ParseExpression(s, a) == Ok(Parsed(x, e)) && Current(s, e) != Comma
    ensures ParseList(s, a, close) == Ok(ParsedList([x], e))
  {
    var first := ParseExpression(s, a);
    assert !first.IsFailure() && first.Extract() == Parsed(x, e);
    assert ParseListRest(s, [x], e) == Ok(ParsedList([x], e));
  }

  /** `( args )` after a callee, followed by no further call or access. */
  lemma CallAt(s: Lexer.Stream, callee: Node, q: nat, a: nat, args: seq<Node>, e: nat, b: nat)
    requires Valid(s, q) && Expr(callee) && Current(s, q) == LeftParen && a == q + 1 && Valid(s, a)
    requires ParseList(s, a, RightParen) == Ok(ParsedList(args, e))
    requires Valid(s, e) && Current(s, e) == RightParen && b == e + 1 && Valid(s, b)
    requires Current(s, b) != LeftParen && Current(s, b) != LeftBracket && Current(s, b) != Dot
    ensures PostfixLoop(s, callee, q, true) == Ok(Parsed(CallExpressionNode(callee, args), b))
  {
    var step := Step(s, q);
    assert !step.IsFailure() && step.Extract() == a;
    var list := ParseList(s, step.Extract(), RightParen);
    assert !list.IsFailure() && list.Extract() == ParsedList(args, e);
    var close := Eat(s, e, RightParen);
    assert !close.IsFailure() && close.Extract() == b;
    assert PostfixCall(s, callee, q) == Ok(Parsed(CallExpressionNode(callee, args), b));
  }

  /** The call `( x )` applies to what precedes it. */
  lemma CallOfOne(s: Lexer.Stream, f: string, x: string, callee: Node)
    requires ReadsNegatedCall(s, f, x) && Expr(callee)
    ensures Valid(s, 2) &&
            PostfixLoop(s, callee, 2, true) == Ok(Parsed(CallExpressionNode(callee, [IdentifierNode(x)]), 5))
  {
    NegatedCallAt(s, f, x);
    NameAlone(s, 3);
    NoAssignment(s, 3, IdentifierNode(x), 4);
    ListOfOne(s, 3, RightParen, IdentifierNode(x), 4);
    CallAt(s, callee, 2, 3, [IdentifierNode(x)], 4, 5);
  }

  /** `- f ( x )`: unary minus takes only the primary `f`, and the call applies to the
      negation. */
  lemma MinusBeforeCall(s: Lexer.Stream, f: string, x: string)
    requires ReadsNegatedCall(s, f, x)
    ensures Valid(s, 0) &&
            ParseExpression(s, 0)
         == Ok(Parsed(CallExpressionNode(UnaryExpressionNode("-", IdentifierNode(f)), [IdentifierNode(x)]), 5))
  {
    var call := CallExpressionNode(UnaryExpressionNode("-", IdentifierNode(f)), [IdentifierNode(x)]);
    NegatedCallAt(s, f, x);
    NegatedName(s, 0, 1);
    CallOfOne(s, f, x, UnaryExpressionNode("-", IdentifierNode(f)));
    var primary := ParsePrimary(s, 0);
    assert !primary.IsFailure() && primary.Extract() == Parsed(UnaryExpressionNode("-", IdentifierNode(f)), 2);
    assert ParseCallMember(s, 0, true) == Ok(Parsed(call, 5));
    BinaryStart(s, 0, 0, call, 5);
    NoAssignment(s, 0, call, 5);
  }

  /** A stream that reads `{ } ;` and ends there. */
  predicate ReadsBlockSemicolon(s: Lexer.Stream) {
    ValidTokens(s.tokens) && |s.tokens| == 3 && s.end.None? &&
    s.tokens[0].kind == LeftBrace && s.tokens[1].kind == RightBrace && s.tokens[2].kind == Semicolon
  }

  lemma BlockSemicolonReads()
    ensures ReadsBlockSemicolon(Lexed([Sym(LeftBrace), Sym(RightBrace), Sym(Semicolon)]))
  {
    var ts := [Sym(LeftBrace), Sym(RightBrace), Sym(Semicolon)];
    assert ValidToken(ts[0]) && ValidToken(ts[1]) && ValidToken(ts[2]);
  }

  /** `{ }` is an empty block statement, and takes no `;` after it. */
  lemma EmptyBlock(s: Lexer.Stream)
    requires ReadsBlockSemicolon(s)
    ensures Valid(s, 0) && ParseStatement(s, 0) == Ok(Parsed(BlockStatementNode([]), 2))
  {
    assert Valid(s, 1) && Current(s, 1) == RightBrace && Valid(s, 2);
    var open := Eat(s, 0, LeftBrace);
    assert !open.IsFailure() && open.Extract() == 1;
    var body := ParseStatements(s, 1, true);
    assert !body.IsFailure() && body.Extract() == ParsedList([], 1);
    var close := Eat(s, 1, RightBrace);
    assert !close.IsFailure() && close.Extract() == 2;
    assert ParseBlock(s, 0) == Ok(Parsed(BlockStatementNode([]), 2));
    assert ParseDispatch(s, 0) == Ok(Parsed(BlockStatementNode([]), 2));
  }

  /** A `;` alone cannot start a statement: it starts an expression, and no primary
      begins with `;`. */
  lemma LoneSemicolon(s: Lexer.Stream, q: nat)
    requires Valid(s, q) && Current(s, q) == Semicolon
    ensures ParseStatement(s, q) == Err(UnexpectedPrimary(Semicolon))
  {
    assert ParsePrimary(s, q) == Err(UnexpectedPrimary(Semicolon));
    assert ParseCallMember(s, q, true) == Err(UnexpectedPrimary(Semicolon));
    assert ParseBinary(s, q, 0) == Err(UnexpectedPrimary(Semicolon));
    assert ParseExpression(s, q) == Err(UnexpectedPrimary(Semicolon));
    assert ParseDispatch(s, q) == Err(UnexpectedPrimary(Semicolon));
  }

  /** `{ } ;`: a block takes no `;`, so the `;` starts the next statement, which fails. */
  lemma SemicolonAfterBlock(s: Lexer.Stream)
    requires ReadsBlockSemicolon(s)
    ensures ParseProgram(s) == Err(UnexpectedPrimary(Semicolon))
  {
    EmptyBlock(s);
    LoneSemicolon(s, 2);
    assert ParseStatements(s, 2, false) == Err(UnexpectedPrimary(Semicolon));
    var first := ParseStatement(s, 0);
    assert !first.IsFailure() && first.Extract() == Parsed(BlockStatementNode([]), 2);
    assert ParseStatements(s, 0, false) == Err(UnexpectedPrimary(Semicolon));
  }
}
