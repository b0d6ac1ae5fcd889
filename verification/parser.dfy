/** The recursive-descent parser of `src/parser/parser.ts`. Every `parseX` method becomes a
    function from a token stream and a position to the node it builds and the position of
    the next unread token; a thrown `Error` becomes an `Err`. */
module Parser {
  import opened Wrappers
  import opened Tokens
  import Lexer
  import opened Ast
  import opened Grammar

  /** The four messages the parser throws, plus a lexer error met while pulling a token. */
  datatype ParseError =
    | UnexpectedToken(found: Kind, expected: Kind)
    | InvalidAssignmentTarget
    | InvalidPropertyKey(found: Kind)
    | UnexpectedPrimary(found: Kind)
    | LexFailure(error: Lexer.LexError)

  datatype Parsed = Parsed(node: Node, next: nat)
  datatype ParsedList = ParsedList(nodes: seq<Node>, next: nat)
  datatype ParsedOption = ParsedOption(node: Option<Node>, next: nat)

  /** A parser position. The current token is `tokens[pos]`, or the sticky EOF once
      `pos == |tokens|`; the lexer pulls tokens one at a time, so a position never rests
      on the point where lexing failed. */
  predicate Valid(s: Lexer.Stream, pos: nat) {
    ValidTokens(s.tokens) && pos <= |s.tokens| && (pos == |s.tokens| ==> s.end.None?)
  }

  /** `this.currentToken.type`. */
  function Current(s: Lexer.Stream, pos: nat): (k: Kind)
    requires pos <= |s.tokens|
    ensures k != EOF ==> pos < |s.tokens|
  {
    if pos < |s.tokens| then s.tokens[pos].kind else EOF
  }

  /** The text of the current token; the lexer gives every non-numeric token a text. */
  function TextAt(s: Lexer.Stream, pos: nat): string
    requires Valid(s, pos) && pos < |s.tokens| && s.tokens[pos].kind != NumericLiteral
  {
    assert ValidToken(s.tokens[pos]);
    s.tokens[pos].value.text
  }

  /** Pulling the next token from the lexer: it fails when the lexer fails there. */
  function Step(s: Lexer.Stream, pos: nat): (r: Result<nat, ParseError>)
    requires Valid(s, pos) && pos < |s.tokens|
    ensures r.Ok? ==> r.value == pos + 1 && Valid(s, r.value)
    ensures r.Err? <==> pos + 1 == |s.tokens| && s.end.Some?
    ensures r.Err? ==> r.error == LexFailure(s.end.value)
  {
    if pos + 1 == |s.tokens| && s.end.Some? then Err(LexFailure(s.end.value)) else Ok(pos + 1)
  }

  /** `eat(k)`: consume the current token if it has kind `k`, fail otherwise. */
  function Eat(s: Lexer.Stream, pos: nat, k: Kind): (r: Result<nat, ParseError>)
    requires Valid(s, pos) && k != EOF
    ensures r.Ok? ==> Current(s, pos) == k && r.value == pos + 1 && Valid(s, r.value)
    ensures Current(s, pos) != k ==> r == Err(UnexpectedToken(Current(s, pos), k))
  {
    if Current(s, pos) == k then Step(s, pos) else Err(UnexpectedToken(Current(s, pos), k))
  }

  /** `parseIdentifier`. */
  function ParseIdentifier(s: Lexer.Stream, pos: nat): (r: Result<Parsed, ParseError>)
    requires Valid(s, pos)
    ensures r.Ok? ==> r.value.next == pos + 1 && Valid(s, r.value.next)
    ensures r.Ok? ==> Current(s, pos) == Identifier && r.value.node == IdentifierNode(TextAt(s, pos))
    ensures r.Ok? ==> IsName(r.value.node)
    ensures Current(s, pos) != Identifier ==> r == Err(UnexpectedToken(Current(s, pos), Identifier))
  {
    var next :- Eat(s, pos, Identifier);
    assert ValidToken(s.tokens[pos]);
    Ok(Parsed(IdentifierNode(TextAt(s, pos)), next))
  }

  /** The `while (Comma) { eat; parseIdentifier }` tail of a parameter list. */
  function ParseParamsRest(s: Lexer.Stream, acc: seq<Node>, pos: nat): (r: Result<ParsedList, ParseError>)
    requires Valid(s, pos) && AllNames(acc)
    ensures r.Ok? ==> pos <= r.value.next && Valid(s, r.value.next)
    ensures r.Ok? ==> AllNames(r.value.nodes) && Current(s, r.value.next) != Comma
    decreases |s.tokens| - pos
  {
    if Current(s, pos) == Comma then
      var after :- Step(s, pos);
      var id :- ParseIdentifier(s, after);
      ParseParamsRest(s, acc + [id.node], id.next)
    else
      Ok(ParsedList(acc, pos))
  }

  /** The parameter list between `(` and `)` of a function or method. */
  function ParseParams(s: Lexer.Stream, pos: nat): (r: Result<ParsedList, ParseError>)
    requires Valid(s, pos)
    ensures r.Ok? ==> pos <= r.value.next && Valid(s, r.value.next) && AllNames(r.value.nodes)
    ensures r.Ok? && Current(s, pos) == RightParen ==> r.value == ParsedList([], pos)
  {
    if Current(s, pos) == RightParen then Ok(ParsedList([], pos))
    else
      var id :- ParseIdentifier(s, pos);
      ParseParamsRest(s, [id.node], id.next)
  }

  /** Statements that take no trailing semicolon. */
  predicate EndsWithBlock(n: Node) {
    n.BlockStatementNode? || n.IfStatementNode? || n.WhileStatementNode? || n.ForStatementNode? ||
    n.FunctionDeclarationNode? || n.ClassDeclarationNode?
  }

  /** The optional `;` after a statement: consumed once, and only after a statement that
      does not end with a block. */
  function OptionalSemicolon(s: Lexer.Stream, p: Parsed): (r: Result<Parsed, ParseError>)
    requires Valid(s, p.next)
    ensures r.Ok? ==> r.value.node == p.node && Valid(s, r.value.next)
    ensures r.Ok? ==> r.value.next == if !EndsWithBlock(p.node) && Current(s, p.next) == Semicolon then p.next + 1 else p.next
  {
    if !EndsWithBlock(p.node) && Current(s, p.next) == Semicolon then
      var next :- Step(s, p.next);
      Ok(Parsed(p.node, next))
    else
      Ok(p)
  }

  /** `parseProgram`: statements until EOF. The constructor pulls the first token, which
      fails at once when the lexer fails on the first token. */
  function ParseProgram(s: Lexer.Stream): (r: Result<Node, ParseError>)
    requires ValidTokens(s.tokens)
    ensures r.Ok? ==> WellFormed(r.value)
  {
    if |s.tokens| == 0 && s.end.Some? then Err(LexFailure(s.end.value))
    else
      var body :- ParseStatements(s, 0, false);
      Ok(ProgramNode(body.nodes))
  }

  /** Lexing and parsing a whole source text. */
  function Parse(input: string): (r: Result<Node, ParseError>)
    ensures r.Ok? ==> WellFormed(r.value)
  {
    ParseProgram(Lexer.Tokenize(input))
  }

  /** The statement loops of `parseProgram` (until EOF) and `parseBlockStatement`
      (until `}` or EOF). */
  function ParseStatements(s: Lexer.Stream, pos: nat, inBlock: bool): (r: Result<ParsedList, ParseError>)
    requires Valid(s, pos)
    ensures r.Ok? ==> pos <= r.value.next && Valid(s, r.value.next)
    ensures r.Ok? ==> forall i | 0 <= i < |r.value.nodes| :: Stmt(r.value.nodes[i])
    ensures r.Ok? ==> Current(s, r.value.next) == EOF || (inBlock && Current(s, r.value.next) == RightBrace)
    decreases |s.tokens| - pos, 13
  {
    var k := Current(s, pos);
    if k == EOF || (inBlock && k == RightBrace) then Ok(ParsedList([], pos))
    else
      var st :- ParseStatement(s, pos);
      var rest :- ParseStatements(s, st.next, inBlock);
      ConsAll(st.node, rest.nodes, Stmt);
      Ok(ParsedList([st.node] + rest.nodes, rest.next))
  }

  /** The kind of statement `parseStatement` starts for a first token: anything that
      is not one of the eight keywords or `{` begins an expression statement. */
  predicate Dispatched(k: Kind, n: Node) {
    match k
    case Let => n.VariableDeclarationNode?
    case LeftBrace => n.BlockStatementNode?
    case If => n.IfStatementNode?
    case While => n.WhileStatementNode?
    case For => n.ForStatementNode?
    case Function => n.FunctionDeclarationNode?
    case Class => n.ClassDeclarationNode?
    case Return => n.ReturnStatementNode?
    case _ => n.ExpressionStatementNode?
  }

  /** `parseStatement`: dispatch on the current token, then the optional semicolon. */
  function ParseStatement(s: Lexer.Stream, pos: nat): (r: Result<Parsed, ParseError>)
    requires Valid(s, pos)
    ensures r.Ok? ==> pos < r.value.next && Valid(s, r.value.next) && Stmt(r.value.node)
    ensures r.Ok? ==> Dispatched(Current(s, pos), r.value.node)
    decreases |s.tokens| - pos, 12
  {
    var stmt :- ParseDispatch(s, pos);
    OptionalSemicolon(s, stmt)
  }

  /** The first tokens of the statements that end with a block: `{`, `if`, `while`, `for`,
      `function` and `class`. */
  predicate StartsBlockStatement(k: Kind) {
    k == LeftBrace || k == If || k == While || k == For || k == Function || k == Class
  }

  /** The separator rule, keyed on the statement's first token: after the statement the
      dispatch parses, one `;` is taken exactly when the statement does not end with a
      block and a `;` follows; nothing else is consumed or changed. */
  lemma StatementSemicolon(s: Lexer.Stream, pos: nat)
    requires Valid(s, pos)
    ensures var d := ParseDispatch(s, pos);
      d.Err? ==> ParseStatement(s, pos) == Err(d.error)
    ensures var d := ParseDispatch(s, pos);
      var r := ParseStatement(s, pos);
      r.Ok? ==>
        d.Ok? && r.value.node == d.value.node &&
        r.value.next == d.value.next +
          (if !StartsBlockStatement(Current(s, pos)) && Current(s, d.value.next) == Semicolon then 1 else 0)
  {
    var d := ParseDispatch(s, pos);
    if d.Ok? {
      assert ParseStatement(s, pos) == OptionalSemicolon(s, d.value);
      assert Dispatched(Current(s, pos), d.value.node);
      assert EndsWithBlock(d.value.node) <==> StartsBlockStatement(Current(s, pos));
    }
  }

  /** An expression statement holds exactly the expression parsed at its start, and takes
      one `;` after it exactly when one follows. */
  lemma ExpressionStatementSemicolon(s: Lexer.Stream, pos: nat)
    requires Valid(s, pos)
    ensures var r := ParseStatement(s, pos);
      r.Ok? && r.value.node.ExpressionStatementNode? ==>
        var e := ParseExpression(s, pos);
        e.Ok? && e.value.node == r.value.node.expression &&
        r.value.next == (if Current(s, e.value.next) == Semicolon then e.value.next + 1 else e.value.next)
  {
    var d := ParseDispatch(s, pos);
    if d.Ok? {
      assert ParseStatement(s, pos) == OptionalSemicolon(s, d.value);
    }
  }

  /** The dispatch of `parseStatement`, before the optional semicolon. */
  function ParseDispatch(s: Lexer.Stream, pos: nat): (r: Result<Parsed, ParseError>)
    requires Valid(s, pos)
    ensures r.Ok? ==> pos < r.value.next && Valid(s, r.value.next) && Stmt(r.value.node)
    ensures r.Ok? ==> Dispatched(Current(s, pos), r.value.node)
    ensures r.Ok? && r.value.node.ExpressionStatementNode? ==>
              ParseExpression(s, pos) == Ok(Parsed(r.value.node.expression, r.value.next))
    decreases |s.tokens| - pos, 11
  {
    var k := Current(s, pos);
    if k == Let then ParseVariableDeclaration(s, pos)
    else if k == LeftBrace then ParseBlock(s, pos)
    else if k == If then ParseIf(s, pos)
    else if k == While then ParseWhile(s, pos)
    else if k == For then ParseFor(s, pos)
    else if k == Function then ParseFunction(s, pos)
    else if k == Class then ParseClass(s, pos)
    else if k == Return then ParseReturn(s, pos)
    else
      var e :- ParseExpression(s, pos);
      Ok(Parsed(ExpressionStatementNode(e.node), e.next))
  }

  /** `parseVariableDeclaration`: `let name` with an optional `= expression`. */
  function ParseVariableDeclaration(s: Lexer.Stream, pos: nat): (r: Result<Parsed, ParseError>)
    requires Valid(s, pos)
    ensures r.Ok? ==> pos < r.value.next && Valid(s, r.value.next)
    ensures r.Ok? ==> r.value.node.VariableDeclarationNode? && Stmt(r.value.node)
    decreases |s.tokens| - pos, 10
  {
    var a :- Eat(s, pos, Let);
    var id :- ParseIdentifier(s, a);
    if Current(s, id.next) == Assignment then
      var b :- Step(s, id.next);
      var init :- ParseExpression(s, b);
      Ok(Parsed(VariableDeclarationNode(id.node, Some(init.node)), init.next))
    else
      Ok(Parsed(VariableDeclarationNode(id.node, None), id.next))
  }

  /** `parseBlockStatement`. */
  function ParseBlock(s: Lexer.Stream, pos: nat): (r: Result<Parsed, ParseError>)
    requires Valid(s, pos)
    ensures r.Ok? ==> pos < r.value.next && Valid(s, r.value.next)
    ensures r.Ok? ==> IsBlock(r.value.node) && Stmt(r.value.node)
    decreases |s.tokens| - pos, 10
  {
    var a :- Eat(s, pos, LeftBrace);
    var body :- ParseStatements(s, a, true);
    var b :- Eat(s, body.next, RightBrace);
    Ok(Parsed(BlockStatementNode(body.nodes), b))
  }

  /** `parseIfStatement`: an `else` is followed by another `if` or by a block. */
  function ParseIf(s: Lexer.Stream, pos: nat): (r: Result<Parsed, ParseError>)
    requires Valid(s, pos)
    ensures r.Ok? ==> pos < r.value.next && Valid(s, r.value.next)
    ensures r.Ok? ==> r.value.node.IfStatementNode? && Stmt(r.value.node)
    decreases |s.tokens| - pos, 10
  {
    var a :- Eat(s, pos, If);
    var b :- Eat(s, a, LeftParen);
    var test :- ParseExpression(s, b);
    var c :- Eat(s, test.next, RightParen);
    var consequent :- ParseBlock(s, c);
    if Current(s, consequent.next) == Else then
      var d :- Step(s, consequent.next);
      var alternate :- if Current(s, d) == If then ParseIf(s, d) else ParseBlock(s, d);
      Ok(Parsed(IfStatementNode(test.node, consequent.node, Some(alternate.node)), alternate.next))
    else
      Ok(Parsed(IfStatementNode(test.node, consequent.node, None), consequent.next))
  }

  /** `parseWhileStatement`. */
  function ParseWhile(s: Lexer.Stream, pos: nat): (r: Result<Parsed, ParseError>)
    requires Valid(s, pos)
    ensures r.Ok? ==> pos < r.value.next && Valid(s, r.value.next)
    ensures r.Ok? ==> r.value.node.WhileStatementNode? && Stmt(r.value.node)
    decreases |s.tokens| - pos, 10
  {
    var a :- Eat(s, pos, While);
    var b :- Eat(s, a, LeftParen);
    var test :- ParseExpression(s, b);
    var c :- Eat(s, test.next, RightParen);
    var body :- ParseBlock(s, c);
    Ok(Parsed(WhileStatementNode(test.node, body.node), body.next))
  }

  /** `parseForStatement`: three optional header parts, the first of which may be a `let`. */
  function ParseFor(s: Lexer.Stream, pos: nat): (r: Result<Parsed, ParseError>)
    requires Valid(s, pos)
    ensures r.Ok? ==> pos < r.value.next && Valid(s, r.value.next)
    ensures r.Ok? ==> r.value.node.ForStatementNode? && Stmt(r.value.node)
    decreases |s.tokens| - pos, 10
  {
    var a :- Eat(s, pos, For);
    var b :- Eat(s, a, LeftParen);
    var init :- ParseForInit(s, b);
    var c :- Eat(s, init.next, Semicolon);
    var test :- ParseOptionalExpression(s, c, Semicolon);
    var d :- Eat(s, test.next, Semicolon);
    var update :- ParseOptionalExpression(s, d, RightParen);
    var e :- Eat(s, update.next, RightParen);
    var body :- ParseBlock(s, e);
    Ok(Parsed(ForStatementNode(init.node, test.node, update.node, body.node), body.next))
  }

  /** The first part of a `for` header: nothing before `;`, a declaration, or an expression. */
  function ParseForInit(s: Lexer.Stream, pos: nat): (r: Result<ParsedOption, ParseError>)
    requires Valid(s, pos)
    ensures r.Ok? ==> pos <= r.value.next && Valid(s, r.value.next)
    ensures r.Ok? ==> (r.value.node.None? <==> Current(s, pos) == Semicolon)
    ensures r.Ok? && r.value.node.Some? ==>
      (r.value.node.value.VariableDeclarationNode? && Stmt(r.value.node.value)) || Expr(r.value.node.value)
    decreases |s.tokens| - pos, 11
  {
    if Current(s, pos) == Semicolon then Ok(ParsedOption(None, pos))
    else if Current(s, pos) == Let then
      var d :- ParseVariableDeclaration(s, pos);
      Ok(ParsedOption(Some(d.node), d.next))
    else
      var e :- ParseExpression(s, pos);
      Ok(ParsedOption(Some(e.node), e.next))
  }

  /** An expression that is left out when the current token is `stop`. */
  function ParseOptionalExpression(s: Lexer.Stream, pos: nat, stop: Kind): (r: Result<ParsedOption, ParseError>)
    requires Valid(s, pos)
    ensures r.Ok? ==> pos <= r.value.next && Valid(s, r.value.next)
    ensures r.Ok? ==> (r.value.node.None? <==> Current(s, pos) == stop)
    ensures r.Ok? && r.value.node.Some? ==> Expr(r.value.node.value)
    decreases |s.tokens| - pos, 7
  {
    if Current(s, pos) == stop then Ok(ParsedOption(None, pos))
    else
      var e :- ParseExpression(s, pos);
      Ok(ParsedOption(Some(e.node), e.next))
  }

  /** `parseFunctionDeclaration`. */
  function ParseFunction(s: Lexer.Stream, pos: nat): (r: Result<Parsed, ParseError>)
    requires Valid(s, pos)
    ensures r.Ok? ==> pos < r.value.next && Valid(s, r.value.next)
    ensures r.Ok? ==> r.value.node.FunctionDeclarationNode? && Stmt(r.value.node)
    decreases |s.tokens| - pos, 10
  {
    var a :- Eat(s, pos, Function);
    var name :- ParseIdentifier(s, a);
    var b :- Eat(s, name.next, LeftParen);
    var params :- ParseParams(s, b);
    var c :- Eat(s, params.next, RightParen);
    var body :- ParseBlock(s, c);
    Ok(Parsed(FunctionDeclarationNode(name.node, params.nodes, body.node), body.next))
  }

  /** `parseClassDeclaration`: method definitions until `}`. */
  function ParseClass(s: Lexer.Stream, pos: nat): (r: Result<Parsed, ParseError>)
    requires Valid(s, pos)
    ensures r.Ok? ==> pos < r.value.next && Valid(s, r.value.next)
    ensures r.Ok? ==> r.value.node.ClassDeclarationNode? && Stmt(r.value.node)
    decreases |s.tokens| - pos, 10
  {
    var a :- Eat(s, pos, Class);
    var name :- ParseIdentifier(s, a);
    var b :- Eat(s, name.next, LeftBrace);
    var members :- ParseMethods(s, b);
    var c :- Eat(s, members.next, RightBrace);
    Ok(Parsed(ClassDeclarationNode(name.node, members.nodes), c))
  }

  /** The class body loop, which stops only at `}`. */
  function ParseMethods(s: Lexer.Stream, pos: nat): (r: Result<ParsedList, ParseError>)
    requires Valid(s, pos)
    ensures r.Ok? ==> pos <= r.value.next && Valid(s, r.value.next)
    ensures r.Ok? ==> Current(s, r.value.next) == RightBrace
    ensures r.Ok? ==> forall i | 0 <= i < |r.value.nodes| :: Method(r.value.nodes[i])
    decreases |s.tokens| - pos, 10
  {
    if Current(s, pos) == RightBrace then Ok(ParsedList([], pos))
    else
      var m :- ParseMethod(s, pos);
      var rest :- ParseMethods(s, m.next);
      ConsAll(m.node, rest.nodes, Method);
      Ok(ParsedList([m.node] + rest.nodes, rest.next))
  }

  /** `parseMethodDefinition`: the key is the `constructor` keyword or an identifier. */
  function ParseMethod(s: Lexer.Stream, pos: nat): (r: Result<Parsed, ParseError>)
    requires Valid(s, pos)
    ensures r.Ok? ==> pos < r.value.next && Valid(s, r.value.next) && Method(r.value.node)
    ensures r.Ok? ==> (r.value.node.kind == ConstructorKind <==> Current(s, pos) == Constructor)
    decreases |s.tokens| - pos, 9
  {
    var key :- ParseMethodKey(s, pos);
    var kind := if key.node.name == "constructor" then ConstructorKind else MethodKind;
    var b :- Eat(s, key.next, LeftParen);
    var params :- ParseParams(s, b);
    var c :- Eat(s, params.next, RightParen);
    var body :- ParseBlock(s, c);
    Ok(Parsed(MethodDefinitionNode(key.node, kind, params.nodes, body.node), body.next))
  }

  /** The key of a method definition: the `constructor` keyword, named by its text, or an
      identifier. */
  function ParseMethodKey(s: Lexer.Stream, pos: nat): (r: Result<Parsed, ParseError>)
    requires Valid(s, pos)
    ensures r.Ok? ==> r.value.next == pos + 1 && Valid(s, r.value.next) && r.value.node.IdentifierNode?
    ensures r.Ok? ==> r.value.node.name == "constructor" || r.value.node.name !in Reserved
    ensures r.Ok? ==> (r.value.node.name == "constructor" <==> Current(s, pos) == Constructor)
  {
    if Current(s, pos) == Constructor then
      var a :- Step(s, pos);
      assert ValidToken(s.tokens[pos]);
      Ok(Parsed(IdentifierNode(TextAt(s, pos)), a))
    else
      ParseIdentifier(s, pos)
  }

  /** `parseReturnStatement`: the argument is absent only before a `;`. */
  function ParseReturn(s: Lexer.Stream, pos: nat): (r: Result<Parsed, ParseError>)
    requires Valid(s, pos)
    ensures r.Ok? ==> pos < r.value.next && Valid(s, r.value.next)
    ensures r.Ok? ==> r.value.node.ReturnStatementNode? && Stmt(r.value.node)
    decreases |s.tokens| - pos, 10
  {
    var a :- Eat(s, pos, Return);
    var argument :- ParseOptionalExpression(s, a, Semicolon);
    Ok(Parsed(ReturnStatementNode(argument.node), argument.next))
  }

  /** `parseExpression`, which is `parseAssignmentExpression`: a binary expression,
      then, when `=` follows, a check of the target and a right-associative right side. */
  function ParseExpression(s: Lexer.Stream, pos: nat): (r: Result<Parsed, ParseError>)
    requires Valid(s, pos)
    ensures r.Ok? ==> pos < r.value.next && Valid(s, r.value.next) && Expr(r.value.node)
    ensures r.Ok? ==> Current(s, r.value.next) != Assignment
    decreases |s.tokens| - pos, 6
  {
    var left :- ParseBinary(s, pos, 0);
    if Current(s, left.next) == Assignment then ParseAssignment(s, left.node, left.next)
    else Ok(left)
  }

  /** The `=` branch of `parseAssignmentExpression`: only an Identifier or a
      MemberExpression may be assigned to, and the right side is a whole expression. */
  function ParseAssignment(s: Lexer.Stream, target: Node, pos: nat): (r: Result<Parsed, ParseError>)
    requires Valid(s, pos) && Current(s, pos) == Assignment && Expr(target)
    ensures r.Ok? ==> pos < r.value.next && Valid(s, r.value.next) && Expr(r.value.node)
    ensures !(target.IdentifierNode? || target.MemberExpressionNode?) ==> r == Err(InvalidAssignmentTarget)
    ensures r.Ok? ==> r.value.node.AssignmentExpressionNode? && r.value.node.left == target
    ensures r.Ok? ==> Current(s, r.value.next) != Assignment
    decreases |s.tokens| - pos, 5
  {
    if !(target.IdentifierNode? || target.MemberExpressionNode?) then Err(InvalidAssignmentTarget)
    else
      var a :- Step(s, pos);
      var right :- ParseExpression(s, a);
      Ok(Parsed(AssignmentExpressionNode(target, right.node), right.next))
  }

  /** `parseBinaryExpression(precedence)`: an operand, then the operator loop. */
  function ParseBinary(s: Lexer.Stream, pos: nat, precedence: nat): (r: Result<Parsed, ParseError>)
    requires Valid(s, pos)
    ensures r.Ok? ==> pos < r.value.next && Valid(s, r.value.next) && Expr(r.value.node)
    ensures r.Ok? ==> Precedence(Current(s, r.value.next)) <= precedence
    ensures r.Ok? ==> ParseCallMember(s, pos, true).Ok? &&
                      Spine(r.value.node, ParseCallMember(s, pos, true).value.node, precedence, 5)
    decreases |s.tokens| - pos, 4
  {
    var left :- ParseCallMember(s, pos, true);
    var r := BinaryLoop(s, left.node, left.next, precedence);
    if r.Ok? then
      SpineCap(r.value.node, left.node, precedence, Precedence(Current(s, left.next)), 5);
      r
    else r
  }

  /** The `while (true)` loop of `parseBinaryExpression`: an operator binding tighter than
      `precedence` takes `left` and a right operand parsed at the operator's own level. */
  function BinaryLoop(s: Lexer.Stream, left: Node, pos: nat, precedence: nat): (r: Result<Parsed, ParseError>)
    requires Valid(s, pos) && Expr(left)
    ensures r.Ok? ==> pos <= r.value.next && Valid(s, r.value.next) && Expr(r.value.node)
    ensures r.Ok? ==> Precedence(Current(s, r.value.next)) <= precedence
    ensures Precedence(Current(s, pos)) <= precedence ==> r == Ok(Parsed(left, pos))
    ensures r.Ok? ==> Spine(r.value.node, left, precedence, Precedence(Current(s, pos)))
    decreases |s.tokens| - pos, 4
  {
    var k := Current(s, pos);
    var p := Precedence(k);
    if p == 0 || p <= precedence then Ok(Parsed(left, pos))
    else BinaryTurn(s, left, pos, precedence)
  }

  /** One turn of the operator loop: the operator at `pos`, its right operand, and the
      loop again with the combined tree as the left operand. */
  function BinaryTurn(s: Lexer.Stream, left: Node, pos: nat, precedence: nat): (r: Result<Parsed, ParseError>)
    requires Valid(s, pos) && Expr(left) && Precedence(Current(s, pos)) > precedence
    ensures r.Ok? ==> pos < r.value.next && Valid(s, r.value.next) && Expr(r.value.node)
    ensures r.Ok? ==> Precedence(Current(s, r.value.next)) <= precedence
    ensures r.Ok? ==> Spine(r.value.node, left, precedence, Precedence(Current(s, pos)))
    decreases |s.tokens| - pos, 3
  {
    var k := Current(s, pos);
    var a :- Step(s, pos);
    var right :- ParseBinary(s, a, Precedence(k));
    var node := Combine(k, left, right.node);
    var r := BinaryLoop(s, node, right.next, precedence);
    if r.Ok? then
      SpineCap(r.value.node, node, precedence, Precedence(Current(s, right.next)), Precedence(k));
      SpineGrow(r.value.node, node, precedence, Precedence(k));
      r
    else r
  }

  /** The node one operator builds: a LogicalExpression for `&&` and `||`, otherwise a
      BinaryExpression, carrying the operator token's text (which a valid token of a fixed
      kind always has). */
  function Combine(k: Kind, left: Node, right: Node): (n: Node)
    requires Precedence(k) > 0 && Expr(left) && Expr(right)
    ensures Expr(n) && IsOperation(n) && OperatorPrecedence(n.operator) == Precedence(k)
    ensures n == (if k == AmpersandAmpersand || k == PipePipe then LogicalExpressionNode(Spelling(k), left, right)
                  else BinaryExpressionNode(Spelling(k), left, right))
  {
    if k == AmpersandAmpersand || k == PipePipe then LogicalExpressionNode(Spelling(k), left, right)
    else BinaryExpressionNode(Spelling(k), left, right)
  }

  /** `parseCallMemberExpression(allowCall)`: a primary, then postfix calls and accesses. */
  function ParseCallMember(s: Lexer.Stream, pos: nat, allowCall: bool): (r: Result<Parsed, ParseError>)
    requires Valid(s, pos)
    ensures r.Ok? ==> pos < r.value.next && Valid(s, r.value.next) && Expr(r.value.node)
    decreases |s.tokens| - pos, 3
  {
    var e :- ParsePrimary(s, pos);
    PostfixLoop(s, e.node, e.next, allowCall)
  }

  /** The postfix loop: `(args)` when calls are allowed, `[expr]`, and `.name`. With calls
      disallowed the result is the operand under member accesses only. */
  function PostfixLoop(s: Lexer.Stream, expr: Node, pos: nat, allowCall: bool): (r: Result<Parsed, ParseError>)
    requires Valid(s, pos) && Expr(expr)
    ensures r.Ok? ==> pos <= r.value.next && Valid(s, r.value.next) && Expr(r.value.node)
    ensures r.Ok? && !allowCall ==> Wraps(r.value.node, expr)
    ensures r.Ok? ==> !(allowCall && Current(s, r.value.next) == LeftParen)
    ensures r.Ok? ==> Current(s, r.value.next) != LeftBracket && Current(s, r.value.next) != Dot
    decreases |s.tokens| - pos, 3
  {
    var k := Current(s, pos);
    if allowCall && k == LeftParen then PostfixCall(s, expr, pos)
    else if k == LeftBracket then PostfixIndex(s, expr, pos, allowCall)
    else if k == Dot then PostfixDot(s, expr, pos, allowCall)
    else Ok(Parsed(expr, pos))
  }

  /** `(args)` in the postfix loop: a call of everything parsed so far. */
  function PostfixCall(s: Lexer.Stream, expr: Node, pos: nat): (r: Result<Parsed, ParseError>)
    requires Valid(s, pos) && Expr(expr) && Current(s, pos) == LeftParen
    ensures r.Ok? ==> pos < r.value.next && Valid(s, r.value.next) && Expr(r.value.node)
    ensures r.Ok? ==> Current(s, r.value.next) != LeftParen
    ensures r.Ok? ==> Current(s, r.value.next) != LeftBracket && Current(s, r.value.next) != Dot
    decreases |s.tokens| - pos, 2
  {
    var a :- Step(s, pos);
    var args :- ParseList(s, a, RightParen);
    var b :- Eat(s, args.next, RightParen);
    PostfixLoop(s, CallExpressionNode(expr, args.nodes), b, true)
  }

  /** `[expr]` in the postfix loop: a computed member access. */
  function PostfixIndex(s: Lexer.Stream, expr: Node, pos: nat, allowCall: bool): (r: Result<Parsed, ParseError>)
    requires Valid(s, pos) && Expr(expr) && Current(s, pos) == LeftBracket
    ensures r.Ok? ==> pos < r.value.next && Valid(s, r.value.next) && Expr(r.value.node)
    ensures r.Ok? && !allowCall ==> Wraps(r.value.node, expr)
    ensures r.Ok? ==> !(allowCall && Current(s, r.value.next) == LeftParen)
    ensures r.Ok? ==> Current(s, r.value.next) != LeftBracket && Current(s, r.value.next) != Dot
    decreases |s.tokens| - pos, 2
  {
    var a :- Step(s, pos);
    var property :- ParseExpression(s, a);
    var b :- Eat(s, property.next, RightBracket);
    var rest := PostfixLoop(s, MemberExpressionNode(expr, property.node, true), b, allowCall);
    WrapsMember(rest, expr, property.node, true, allowCall);
    rest
  }

  /** `.name` in the postfix loop: a member access whose property is an Identifier. */
  function PostfixDot(s: Lexer.Stream, expr: Node, pos: nat, allowCall: bool): (r: Result<Parsed, ParseError>)
    requires Valid(s, pos) && Expr(expr) && Current(s, pos) == Dot
    ensures r.Ok? ==> pos < r.value.next && Valid(s, r.value.next) && Expr(r.value.node)
    ensures r.Ok? && !allowCall ==> Wraps(r.value.node, expr)
    ensures r.Ok? ==> !(allowCall && Current(s, r.value.next) == LeftParen)
    ensures r.Ok? ==> Current(s, r.value.next) != LeftBracket && Current(s, r.value.next) != Dot
    decreases |s.tokens| - pos, 2
  {
    var a :- Step(s, pos);
    var property :- ParseIdentifier(s, a);
    var rest := PostfixLoop(s, MemberExpressionNode(expr, property.node, false), property.next, allowCall);
    WrapsMember(rest, expr, property.node, false, allowCall);
    rest
  }

  /** Prepending an element that satisfies `P` to a list whose elements all do. */
  lemma ConsAll<T>(x: T, xs: seq<T>, P: T -> bool)
    requires P(x) && forall i | 0 <= i < |xs| :: P(xs[i])
    ensures forall i | 0 <= i < |[x] + xs| :: P(([x] + xs)[i])
  {
    forall i | 0 <= i < |[x] + xs| ensures P(([x] + xs)[i]) {
      if i > 0 {
        assert ([x] + xs)[i] == xs[i - 1];
      }
    }
  }

  /** Appending an element that satisfies `P` to a list whose elements all do. */
  lemma SnocAll<T>(xs: seq<T>, x: T, P: T -> bool)
    requires P(x) && forall i | 0 <= i < |xs| :: P(xs[i])
    ensures forall i | 0 <= i < |xs + [x]| :: P((xs + [x])[i])
  {
    forall i | 0 <= i < |xs + [x]| ensures P((xs + [x])[i]) {
      if i < |xs| {
        assert (xs + [x])[i] == xs[i];
      }
    }
  }

  lemma {:induction false} WrapsOuter(n: Node, base: Node, property: Node, computed: bool)
    requires Wraps(n, MemberExpressionNode(base, property, computed))
    ensures Wraps(n, base)
    decreases n
  {
    if n != MemberExpressionNode(base, property, computed) {
      WrapsOuter(n.obj, base, property, computed);
    }
  }

  lemma WrapsMember(r: Result<Parsed, ParseError>, base: Node, property: Node, computed: bool, allowCall: bool)
    requires r.Ok? && !allowCall ==> Wraps(r.value.node, MemberExpressionNode(base, property, computed))
    ensures r.Ok? && !allowCall ==> Wraps(r.value.node, base)
  {
    if r.Ok? && !allowCall {
      WrapsOuter(r.value.node, base, property, computed);
    }
  }

  /** `parsePrimaryExpression`: dispatch on the current token. `-` and `!` go to
      `parseUnaryExpression`, whose operand is again a primary. */
  function ParsePrimary(s: Lexer.Stream, pos: nat): (r: Result<Parsed, ParseError>)
    requires Valid(s, pos)
    ensures r.Ok? ==> pos < r.value.next && Valid(s, r.value.next) && Expr(r.value.node)
    ensures !(Current(s, pos) in PrimaryStarts) ==> r == Err(UnexpectedPrimary(Current(s, pos)))
    decreases |s.tokens| - pos, 2
  {
    var k := Current(s, pos);
    if k == Minus || k == Bang then ParseUnary(s, pos)
    else if k in {Identifier, NumericLiteral, StringLiteral, True, False, This} then ParseLiteral(s, pos)
    else if k == First then ParseFirst(s, pos)
    else if k == New then ParseNew(s, pos)
    else if k == LeftParen then ParseParenthesized(s, pos)
    else if k == LeftBracket then ParseArray(s, pos)
    else if k == LeftBrace then ParseObject(s, pos)
    else Err(UnexpectedPrimary(k))
  }

  /** The one-token primaries: `parseIdentifier`, `parseNumericLiteral`,
      `parseStringLiteral`, `parseBooleanLiteral` and `parseThisExpression`. */
  function ParseLiteral(s: Lexer.Stream, pos: nat): (r: Result<Parsed, ParseError>)
    requires Valid(s, pos) && Current(s, pos) in {Identifier, NumericLiteral, StringLiteral, True, False, This}
    ensures r.Ok? ==> r.value.next == pos + 1 && Valid(s, r.value.next) && Expr(r.value.node)
    ensures r.Ok? ==> match Current(s, pos)
                      case Identifier => r.value.node == IdentifierNode(TextAt(s, pos))
                      case NumericLiteral => s.tokens[pos].value.Number? &&
                                             r.value.node == NumericLiteralNode(s.tokens[pos].value.number)
                      case StringLiteral => r.value.node == StringLiteralNode(TextAt(s, pos))
                      case This => r.value.node == ThisExpressionNode
                      case _ => r.value.node == BooleanLiteralNode(Current(s, pos) == True)
    ensures r.Err? <==> pos + 1 == |s.tokens| && s.end.Some?
  {
    var k := Current(s, pos);
    var a :- Step(s, pos);
    assert ValidToken(s.tokens[pos]);
    if k == Identifier then Ok(Parsed(IdentifierNode(TextAt(s, pos)), a))
    else if k == NumericLiteral then Ok(Parsed(NumericLiteralNode(s.tokens[pos].value.number), a))
    else if k == StringLiteral then Ok(Parsed(StringLiteralNode(TextAt(s, pos)), a))
    else if k == This then Ok(Parsed(ThisExpressionNode, a))
    else Ok(Parsed(BooleanLiteralNode(k == True), a))
  }

  /** `parseUnaryExpression`: the operator's text and a primary operand. */
  function ParseUnary(s: Lexer.Stream, pos: nat): (r: Result<Parsed, ParseError>)
    requires Valid(s, pos) && (Current(s, pos) == Minus || Current(s, pos) == Bang)
    ensures r.Ok? ==> pos < r.value.next && Valid(s, r.value.next) && Expr(r.value.node)
    ensures r.Ok? ==> r.value.node.UnaryExpressionNode? &&
                      r.value.node.operator == (if Current(s, pos) == Minus then "-" else "!")
    ensures r.Ok? ==> Valid(s, pos + 1) &&
                      ParsePrimary(s, pos + 1) == Ok(Parsed(r.value.node.argument, r.value.next))
    decreases |s.tokens| - pos, 1
  {
    var a :- Step(s, pos);
    var argument :- ParsePrimary(s, a);
    // the operator token's text, which a valid token of these two kinds always carries
    var op := if Current(s, pos) == Minus then "-" else "!";
    Ok(Parsed(UnaryExpressionNode(op, argument.node), argument.next))
  }

  /** `parseFirstExpression`: `first` and a whole expression. */
  function ParseFirst(s: Lexer.Stream, pos: nat): (r: Result<Parsed, ParseError>)
    requires Valid(s, pos) && Current(s, pos) == First
    ensures r.Ok? ==> pos < r.value.next && Valid(s, r.value.next) && Expr(r.value.node)
    ensures r.Ok? ==> r.value.node.FirstExpressionNode?
    decreases |s.tokens| - pos, 1
  {
    var a :- Step(s, pos);
    var argument :- ParseExpression(s, a);
    Ok(Parsed(FirstExpressionNode(argument.node), argument.next))
  }

  /** `( expression )`: the inner tree itself, with no node for the parentheses. */
  function ParseParenthesized(s: Lexer.Stream, pos: nat): (r: Result<Parsed, ParseError>)
    requires Valid(s, pos) && Current(s, pos) == LeftParen
    ensures r.Ok? ==> pos < r.value.next && Valid(s, r.value.next) && Expr(r.value.node)
    decreases |s.tokens| - pos, 1
  {
    var a :- Step(s, pos);
    var e :- ParseExpression(s, a);
    var b :- Eat(s, e.next, RightParen);
    Ok(Parsed(e.node, b))
  }

  /** `parseArrayExpression`. */
  function ParseArray(s: Lexer.Stream, pos: nat): (r: Result<Parsed, ParseError>)
    requires Valid(s, pos) && Current(s, pos) == LeftBracket
    ensures r.Ok? ==> pos < r.value.next && Valid(s, r.value.next) && Expr(r.value.node)
    ensures r.Ok? ==> r.value.node.ArrayExpressionNode?
    decreases |s.tokens| - pos, 1
  {
    var a :- Step(s, pos);
    var elements :- ParseList(s, a, RightBracket);
    var b :- Eat(s, elements.next, RightBracket);
    Ok(Parsed(ArrayExpressionNode(elements.nodes), b))
  }

  /** `parseObjectExpression`. */
  function ParseObject(s: Lexer.Stream, pos: nat): (r: Result<Parsed, ParseError>)
    requires Valid(s, pos) && Current(s, pos) == LeftBrace
    ensures r.Ok? ==> pos < r.value.next && Valid(s, r.value.next) && Expr(r.value.node)
    ensures r.Ok? ==> r.value.node.ObjectExpressionNode?
    decreases |s.tokens| - pos, 1
  {
    var a :- Step(s, pos);
    var properties :- ParseProperties(s, a);
    var b :- Eat(s, properties.next, RightBrace);
    Ok(Parsed(ObjectExpressionNode(properties.nodes), b))
  }

  /** The tokens that can begin a primary expression. */
  const PrimaryStarts: set<Kind> :=
    {Minus, Bang, Identifier, NumericLiteral, StringLiteral, True, False, First, This, New,
     LeftParen, LeftBracket, LeftBrace}

  /** `parseNewExpression`: the callee is parsed with calls disabled, and the argument
      list is optional. */
  function ParseNew(s: Lexer.Stream, pos: nat): (r: Result<Parsed, ParseError>)
    requires Valid(s, pos) && Current(s, pos) == New
    ensures r.Ok? ==> pos < r.value.next && Valid(s, r.value.next) && Expr(r.value.node)
    ensures r.Ok? ==> r.value.node.NewExpressionNode?
    ensures r.Ok? ==> Valid(s, pos + 1) && ParsePrimary(s, pos + 1).Ok? &&
                      Wraps(r.value.node.callee, ParsePrimary(s, pos + 1).value.node)
    decreases |s.tokens| - pos, 1
  {
    var a :- Step(s, pos);
    var base :- ParsePrimary(s, a);
    var callee :- PostfixLoop(s, base.node, base.next, false);
    WithArguments(s, callee.node, callee.next)
  }

  /** The optional argument list after a `new` callee. */
  function WithArguments(s: Lexer.Stream, callee: Node, pos: nat): (r: Result<Parsed, ParseError>)
    requires Valid(s, pos) && Expr(callee)
    ensures r.Ok? ==> pos <= r.value.next && Valid(s, r.value.next) && Expr(r.value.node)
    ensures r.Ok? ==> r.value.node.NewExpressionNode? && r.value.node.callee == callee
    decreases |s.tokens| - pos, 0
  {
    if Current(s, pos) == LeftParen then
      var b :- Step(s, pos);
      var args :- ParseList(s, b, RightParen);
      var c :- Eat(s, args.next, RightParen);
      Ok(Parsed(NewExpressionNode(callee, args.nodes), c))
    else
      Ok(Parsed(NewExpressionNode(callee, []), pos))
  }

  /** A comma-separated expression list that is empty exactly when `close` comes first:
      call and `new` arguments and array elements. `close` itself is left unread. */
  function ParseList(s: Lexer.Stream, pos: nat, close: Kind): (r: Result<ParsedList, ParseError>)
    requires Valid(s, pos)
    ensures r.Ok? ==> pos <= r.value.next && Valid(s, r.value.next)
    ensures r.Ok? ==> forall i | 0 <= i < |r.value.nodes| :: Expr(r.value.nodes[i])
    ensures r.Ok? ==> (|r.value.nodes| == 0 <==> Current(s, pos) == close)
    decreases |s.tokens| - pos, 8
  {
    if Current(s, pos) == close then Ok(ParsedList([], pos))
    else
      var e :- ParseExpression(s, pos);
      ParseListRest(s, [e.node], e.next)
  }

  function ParseListRest(s: Lexer.Stream, acc: seq<Node>, pos: nat): (r: Result<ParsedList, ParseError>)
    requires Valid(s, pos) && forall i | 0 <= i < |acc| :: Expr(acc[i])
    ensures r.Ok? ==> pos <= r.value.next && Valid(s, r.value.next)
    ensures r.Ok? ==> forall i | 0 <= i < |r.value.nodes| :: Expr(r.value.nodes[i])
    ensures r.Ok? ==> |r.value.nodes| >= |acc| && Current(s, r.value.next) != Comma
    decreases |s.tokens| - pos, 8
  {
    if Current(s, pos) == Comma then
      var a :- Step(s, pos);
      var e :- ParseExpression(s, a);
      SnocAll(acc, e.node, Expr);
      ParseListRest(s, acc + [e.node], e.next)
    else
      Ok(ParsedList(acc, pos))
  }

  /** The property list of an object literal, empty exactly when `}` comes first. */
  function ParseProperties(s: Lexer.Stream, pos: nat): (r: Result<ParsedList, ParseError>)
    requires Valid(s, pos)
    ensures r.Ok? ==> pos <= r.value.next && Valid(s, r.value.next)
    ensures r.Ok? ==> forall i | 0 <= i < |r.value.nodes| :: Prop(r.value.nodes[i])
    decreases |s.tokens| - pos, 8
  {
    if Current(s, pos) == RightBrace then Ok(ParsedList([], pos))
    else
      var p :- ParseProperty(s, pos);
      ParsePropertiesRest(s, [p.node], p.next)
  }

  function ParsePropertiesRest(s: Lexer.Stream, acc: seq<Node>, pos: nat): (r: Result<ParsedList, ParseError>)
    requires Valid(s, pos) && forall i | 0 <= i < |acc| :: Prop(acc[i])
    ensures r.Ok? ==> pos <= r.value.next && Valid(s, r.value.next)
    ensures r.Ok? ==> forall i | 0 <= i < |r.value.nodes| :: Prop(r.value.nodes[i])
    decreases |s.tokens| - pos, 8
  {
    if Current(s, pos) == Comma then
      var a :- Step(s, pos);
      var p :- ParseProperty(s, a);
      SnocAll(acc, p.node, Prop);
      ParsePropertiesRest(s, acc + [p.node], p.next)
    else
      Ok(ParsedList(acc, pos))
  }

  /** `parseProperty`: an Identifier or StringLiteral key, `:`, and a value. */
  function ParseProperty(s: Lexer.Stream, pos: nat): (r: Result<Parsed, ParseError>)
    requires Valid(s, pos)
    ensures r.Ok? ==> pos < r.value.next && Valid(s, r.value.next) && Prop(r.value.node)
    ensures Current(s, pos) != Identifier && Current(s, pos) != StringLiteral ==>
      r == Err(InvalidPropertyKey(Current(s, pos)))
    decreases |s.tokens| - pos, 7
  {
    var key :-
      if Current(s, pos) == Identifier then ParseIdentifier(s, pos)
      else if Current(s, pos) == StringLiteral then
        var a :- Step(s, pos);
        Ok(Parsed(StringLiteralNode(TextAt(s, pos)), a))
      else Err(InvalidPropertyKey(Current(s, pos)));
    var a :- Eat(s, key.next, Colon);
    var value :- ParseExpression(s, a);
    Ok(Parsed(PropertyNode(key.node, value.node), value.next))
  }
}
