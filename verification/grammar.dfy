/** The shapes of tree the parser builds: which node kinds occur in expression and
    statement positions and what their fields hold. The parser's contracts state that
    every tree it returns has these shapes. */
module Grammar {
  import opened Wrappers
  import opened Tokens
  import opened Ast

  /** An Identifier node as `parseIdentifier` builds it: its name is a lexed identifier,
      which is never a reserved word. */
  predicate IsName(n: Node) {
    n.IdentifierNode? && n.name !in Reserved
  }

  predicate AllNames(ns: seq<Node>) {
    forall i | 0 <= i < |ns| :: IsName(ns[i])
  }

  /** The operator texts of `BinaryExpression` nodes: the spellings of the comparison,
      additive and multiplicative tokens. */
  predicate IsBinaryOperator(op: string) {
    op in {"==", "!=", "<", ">", "<=", ">=", "+", "-", "*", "/"}
  }

  /** The operator texts of `LogicalExpression` nodes. */
  predicate IsLogicalOperator(op: string) {
    op in {"&&", "||"}
  }

  /** `n` is `base` under zero or more member accesses (`base.x[y].z`). */
  predicate Wraps(n: Node, base: Node)
    decreases n
  {
    n == base || (n.MemberExpressionNode? && Wraps(n.obj, base))
  }

  /** The operator nodes built by the operator loop of `parseBinaryExpression`. */
  predicate IsOperation(n: Node) {
    n.BinaryExpressionNode? || n.LogicalExpressionNode?
  }

  /** The binding strength of an operator text, as `getPrecedence` assigns it to the
      operator's token (0: not an operator). */
  function OperatorPrecedence(op: string): nat {
    if op == "||" then 1
    else if op == "&&" then 2
    else if op in {"==", "!=", "<", ">", "<=", ">="} then 3
    else if op in {"+", "-"} then 4
    else if op in {"*", "/"} then 5
    else 0
  }

  /** `n` is `base` under a left spine of operator nodes: every operator on the spine binds
      more tightly than `lo` and no more tightly than `hi`, and going down the spine the
      binding never loosens. So operators of one level group to the left, and a looser
      operator sits above a tighter one. */
  predicate Spine(n: Node, base: Node, lo: nat, hi: nat)
    decreases n
  {
    n == base ||
    (IsOperation(n) && lo < OperatorPrecedence(n.operator) <= hi &&
     Spine(n.left, base, OperatorPrecedence(n.operator) - 1, hi))
  }

  /** Raising the upper bound keeps a spine. */
  lemma {:induction false} SpineCap(n: Node, base: Node, lo: nat, hi: nat, hi': nat)
    requires Spine(n, base, lo, hi) && hi <= hi'
    ensures Spine(n, base, lo, hi')
    decreases n
  {
    if n != base {
      SpineCap(n.left, base, OperatorPrecedence(n.operator) - 1, hi, hi');
    }
  }

  /** A spine over an operator node `op` whose level is at least every level above it is a
      spine over `op`'s left operand. */
  lemma {:induction false} SpineGrow(n: Node, op: Node, lo: nat, hi: nat)
    requires IsOperation(op) && Spine(n, op, lo, hi)
    requires lo < OperatorPrecedence(op.operator) && hi <= OperatorPrecedence(op.operator)
    ensures Spine(n, op.left, lo, OperatorPrecedence(op.operator))
    decreases n
  {
    if n == op {
      assert Spine(op.left, op.left, OperatorPrecedence(op.operator) - 1, OperatorPrecedence(op.operator));
    } else {
      SpineGrow(n.left, op, OperatorPrecedence(n.operator) - 1, hi);
    }
  }

  /** A tree `parseExpression` can return. */
  predicate Expr(n: Node)
    decreases n, 1
  {
    match n
    case IdentifierNode(name) => name !in Reserved
    case NumericLiteralNode(_) => true
    case StringLiteralNode(_) => true
    case BooleanLiteralNode(_) => true
    case AssignmentExpressionNode(l, r) =>
      (IsName(l) || l.MemberExpressionNode?) && Expr(l) && Expr(r)
    case CallExpressionNode(c, args) => Expr(c) && forall i | 0 <= i < |args| :: Expr(args[i])
    case FirstExpressionNode(a) => Expr(a)
    case BinaryExpressionNode(op, l, r) => IsBinaryOperator(op) && Expr(l) && Expr(r)
    case LogicalExpressionNode(op, l, r) => IsLogicalOperator(op) && Expr(l) && Expr(r)
    case UnaryExpressionNode(op, a) => op in {"-", "!"} && Expr(a)
    case ArrayExpressionNode(es) => forall i | 0 <= i < |es| :: Expr(es[i])
    case MemberExpressionNode(o, p, computed) => Expr(o) && (if computed then Expr(p) else IsName(p))
    case ObjectExpressionNode(ps) => forall i | 0 <= i < |ps| :: Prop(ps[i])
    case ThisExpressionNode => true
    case NewExpressionNode(c, args) => Expr(c) && forall i | 0 <= i < |args| :: Expr(args[i])
    case _ => false
  }

  /** A tree `parseProperty` can return: an Identifier or StringLiteral key and a value. */
  predicate Prop(n: Node)
    decreases n, 0
  {
    n.PropertyNode? && (IsName(n.key) || n.key.StringLiteralNode?) && Expr(n.value)
  }

  /** A tree `parseStatement` can return. */
  predicate Stmt(n: Node)
    decreases n, 1
  {
    match n
    case VariableDeclarationNode(id, init) => IsName(id) && (init.Some? ==> Expr(init.value))
    case BlockStatementNode(b) => forall i | 0 <= i < |b| :: Stmt(b[i])
    case IfStatementNode(t, c, alt) =>
      Expr(t) && IsBlock(c) && Stmt(c) &&
      (alt.Some? ==> (alt.value.IfStatementNode? || IsBlock(alt.value)) && Stmt(alt.value))
    case WhileStatementNode(t, blk) => Expr(t) && IsBlock(blk) && Stmt(blk)
    case ForStatementNode(init, t, u, blk) =>
      (init.Some? ==> (init.value.VariableDeclarationNode? && Stmt(init.value)) || Expr(init.value)) &&
      (t.Some? ==> Expr(t.value)) && (u.Some? ==> Expr(u.value)) && IsBlock(blk) && Stmt(blk)
    case FunctionDeclarationNode(id, ps, blk) => IsName(id) && AllNames(ps) && IsBlock(blk) && Stmt(blk)
    case ClassDeclarationNode(id, ms) => IsName(id) && forall i | 0 <= i < |ms| :: Method(ms[i])
    case ReturnStatementNode(a) => a.Some? ==> Expr(a.value)
    case ExpressionStatementNode(e) => Expr(e)
    case _ => false
  }

  /** A tree `parseMethodDefinition` can return: the key is `constructor` (the one reserved
      word allowed there) or an identifier, and the kind records which. */
  predicate Method(n: Node)
    decreases n, 0
  {
    n.MethodDefinitionNode? && n.key.IdentifierNode? &&
    (n.key.name == "constructor" || n.key.name !in Reserved) &&
    (n.kind == ConstructorKind <==> n.key.name == "constructor") &&
    AllNames(n.params) && IsBlock(n.block) && Stmt(n.block)
  }

  /** A tree `parseProgram` can return. */
  predicate WellFormed(p: Node) {
    p.ProgramNode? && forall i | 0 <= i < |p.body| :: Stmt(p.body[i])
  }

  /** Statement positions never hold an expression and vice versa. */
  lemma {:induction false} ExprIsNotStmt(n: Node)
    ensures !(Expr(n) && Stmt(n))
  {
  }

  /** The parser's trees satisfy the field types the node classes declare. */
  lemma {:induction false} ExprTyped(n: Node)
    requires Expr(n)
    ensures Typed(n)
    decreases n, 1
  {
    match n
    case AssignmentExpressionNode(l, r) => ExprTyped(l); ExprTyped(r);
    case CallExpressionNode(c, args) => ExprTyped(c); ExprsTyped(args);
    case FirstExpressionNode(a) => ExprTyped(a);
    case BinaryExpressionNode(_, l, r) => ExprTyped(l); ExprTyped(r);
    case LogicalExpressionNode(_, l, r) => ExprTyped(l); ExprTyped(r);
    case UnaryExpressionNode(_, a) => ExprTyped(a);
    case ArrayExpressionNode(es) => ExprsTyped(es);
    case MemberExpressionNode(o, p, computed) => ExprTyped(o); if computed { ExprTyped(p); }
    case ObjectExpressionNode(_) => ObjectTyped(n);
    case NewExpressionNode(c, args) => ExprTyped(c); ExprsTyped(args);
    case _ =>
  }

  lemma {:induction false} ObjectTyped(n: Node)
    requires n.ObjectExpressionNode? && Expr(n)
    ensures Typed(n)
    decreases n, 0
  {
    var ps := n.properties;
    forall i | 0 <= i < |ps| ensures ps[i].PropertyNode? && Typed(ps[i]) {
      ExprTyped(ps[i].value);
    }
  }

  lemma {:induction false} ExprsTyped(ns: seq<Node>)
    requires forall i | 0 <= i < |ns| :: Expr(ns[i])
    ensures forall i | 0 <= i < |ns| :: Typed(ns[i])
    decreases ns, 0
  {
    forall i | 0 <= i < |ns| ensures Typed(ns[i]) {
      ExprTyped(ns[i]);
    }
  }

  lemma {:induction false} StmtTyped(n: Node)
    requires Stmt(n)
    ensures Typed(n)
    decreases n, 1
  {
    match n
    case VariableDeclarationNode(_, init) => if init.Some? { ExprTyped(init.value); }
    case BlockStatementNode(b) => StmtsTyped(b);
    case IfStatementNode(_, _, _) => IfTyped(n);
    case WhileStatementNode(t, blk) => ExprTyped(t); StmtTyped(blk);
    case ForStatementNode(_, _, _, _) => ForTyped(n);
    case FunctionDeclarationNode(_, _, blk) => StmtTyped(blk);
    case ClassDeclarationNode(_, _) => ClassTyped(n);
    case ReturnStatementNode(a) => if a.Some? { ExprTyped(a.value); }
    case ExpressionStatementNode(e) => ExprTyped(e);
  }

  lemma {:induction false} IfTyped(n: Node)
    requires n.IfStatementNode? && Stmt(n)
    ensures Typed(n)
    decreases n, 0
  {
    ExprTyped(n.test);
    StmtTyped(n.consequent);
    if n.alternate.Some? { StmtTyped(n.alternate.value); }
  }

  lemma {:induction false} ForTyped(n: Node)
    requires n.ForStatementNode? && Stmt(n)
    ensures Typed(n)
    decreases n, 0
  {
    var init := n.init;
    if init.Some? {
      if init.value.VariableDeclarationNode? && Stmt(init.value) {
        StmtTyped(init.value);
      } else {
        ExprTyped(init.value);
      }
    }
    if n.condition.Some? { ExprTyped(n.condition.value); }
    if n.update.Some? { ExprTyped(n.update.value); }
    StmtTyped(n.block);
  }

  lemma {:induction false} ClassTyped(n: Node)
    requires n.ClassDeclarationNode? && Stmt(n)
    ensures Typed(n)
    decreases n, 0
  {
    var ms := n.body;
    forall i | 0 <= i < |ms| ensures ms[i].MethodDefinitionNode? && Typed(ms[i]) {
      StmtTyped(ms[i].block);
    }
  }

  lemma {:induction false} StmtsTyped(ns: seq<Node>)
    requires forall i | 0 <= i < |ns| :: Stmt(ns[i])
    ensures forall i | 0 <= i < |ns| :: Typed(ns[i])
    decreases ns, 0
  {
    forall i | 0 <= i < |ns| ensures Typed(ns[i]) {
      StmtTyped(ns[i]);
    }
  }

  /** A well-formed program is well typed. */
  lemma WellFormedTyped(p: Node)
    requires WellFormed(p)
    ensures Typed(p)
  {
    StmtsTyped(p.body);
  }
}
