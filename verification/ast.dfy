/** The syntax tree shared by the parser and the code generator, and the order in which
    each node's `accept` hands nodes to a visitor. */
module Ast {
  import opened Wrappers

  /** `MethodDefinition.kind`: `'constructor' | 'method'`. */
  datatype MethodKind = ConstructorKind | MethodKind

  /** One constructor per node class. Dafny requires a field name to have one type across
      all constructors, so fields whose source names clash in type are renamed:
      the single-block bodies of functions, loops and methods are `block`; a function's or
      class's `name` is `id`, as is a declaration's `identifier`; a `for`'s `test` is
      `condition`; a return's `argument` is `result`; the literal `value`s are `number`,
      `text` and `truth`; a member access's `object` is `obj`. A source `null` is `None`. */
  datatype Node =
    | ProgramNode(body: seq<Node>)
    | IdentifierNode(name: string)
    | NumericLiteralNode(number: nat)
    | StringLiteralNode(text: string)
    | BooleanLiteralNode(truth: bool)
    | AssignmentExpressionNode(left: Node, right: Node)
    | CallExpressionNode(callee: Node, arguments: seq<Node>)
    | ExpressionStatementNode(expression: Node)
    | FirstExpressionNode(argument: Node)
    | BinaryExpressionNode(operator: string, left: Node, right: Node)
    | LogicalExpressionNode(operator: string, left: Node, right: Node)
    | VariableDeclarationNode(id: Node, init: Option<Node>)
    | FunctionDeclarationNode(id: Node, params: seq<Node>, block: Node)
    | ReturnStatementNode(result: Option<Node>)
    | BlockStatementNode(body: seq<Node>)
    | IfStatementNode(test: Node, consequent: Node, alternate: Option<Node>)
    | WhileStatementNode(test: Node, block: Node)
    | ForStatementNode(init: Option<Node>, condition: Option<Node>, update: Option<Node>, block: Node)
    | UnaryExpressionNode(operator: string, argument: Node)
    | ArrayExpressionNode(elements: seq<Node>)
    | MemberExpressionNode(obj: Node, property: Node, computed: bool)
    | ObjectExpressionNode(properties: seq<Node>)
    | PropertyNode(key: Node, value: Node)
    | ClassDeclarationNode(id: Node, body: seq<Node>)
    | MethodDefinitionNode(key: Node, kind: MethodKind, params: seq<Node>, block: Node)
    | ThisExpressionNode
    | NewExpressionNode(callee: Node, arguments: seq<Node>)

  /** The `type` tag of a node, as the generator's error message reports it. */
  function TypeName(n: Node): string {
    match n
    case ProgramNode(_) => "Program"
    case IdentifierNode(_) => "Identifier"
    case NumericLiteralNode(_) => "NumericLiteral"
    case StringLiteralNode(_) => "StringLiteral"
    case BooleanLiteralNode(_) => "BooleanLiteral"
    case AssignmentExpressionNode(_, _) => "AssignmentExpression"
    case CallExpressionNode(_, _) => "CallExpression"
    case ExpressionStatementNode(_) => "ExpressionStatement"
    case FirstExpressionNode(_) => "FirstExpression"
    case BinaryExpressionNode(_, _, _) => "BinaryExpression"
    case LogicalExpressionNode(_, _, _) => "LogicalExpression"
    case VariableDeclarationNode(_, _) => "VariableDeclaration"
    case FunctionDeclarationNode(_, _, _) => "FunctionDeclaration"
    case ReturnStatementNode(_) => "ReturnStatement"
    case BlockStatementNode(_) => "BlockStatement"
    case IfStatementNode(_, _, _) => "IfStatement"
    case WhileStatementNode(_, _) => "WhileStatement"
    case ForStatementNode(_, _, _, _) => "ForStatement"
    case UnaryExpressionNode(_, _) => "UnaryExpression"
    case ArrayExpressionNode(_) => "ArrayExpression"
    case MemberExpressionNode(_, _, _) => "MemberExpression"
    case ObjectExpressionNode(_) => "ObjectExpression"
    case PropertyNode(_, _) => "Property"
    case ClassDeclarationNode(_, _) => "ClassDeclaration"
    case MethodDefinitionNode(_, _, _, _) => "MethodDefinition"
    case ThisExpressionNode => "ThisExpression"
    case NewExpressionNode(_, _) => "NewExpression"
  }

  predicate IsIdentifier(n: Node) {
    n.IdentifierNode?
  }

  predicate IsBlock(n: Node) {
    n.BlockStatementNode?
  }

  predicate AllIdentifiers(ns: seq<Node>) {
    forall i | 0 <= i < |ns| :: IsIdentifier(ns[i])
  }

  /** The field types the node classes declare, plus the one shape the generator's cast
      relies on: a dot access (`computed == false`) names its property with an Identifier. */
  predicate Typed(n: Node)
    decreases n
  {
    match n
    case ProgramNode(b) => forall i | 0 <= i < |b| :: Typed(b[i])
    case IdentifierNode(_) => true
    case NumericLiteralNode(_) => true
    case StringLiteralNode(_) => true
    case BooleanLiteralNode(_) => true
    case AssignmentExpressionNode(l, r) => Typed(l) && Typed(r)
    case CallExpressionNode(c, args) => Typed(c) && forall i | 0 <= i < |args| :: Typed(args[i])
    case ExpressionStatementNode(e) => Typed(e)
    case FirstExpressionNode(a) => Typed(a)
    case BinaryExpressionNode(_, l, r) => Typed(l) && Typed(r)
    case LogicalExpressionNode(_, l, r) => Typed(l) && Typed(r)
    case VariableDeclarationNode(id, init) =>
      IsIdentifier(id) && (init.Some? ==> Typed(init.value))
    case FunctionDeclarationNode(id, ps, blk) =>
      IsIdentifier(id) && AllIdentifiers(ps) && IsBlock(blk) && Typed(blk)
    case ReturnStatementNode(a) => a.Some? ==> Typed(a.value)
    case BlockStatementNode(b) => forall i | 0 <= i < |b| :: Typed(b[i])
    case IfStatementNode(t, c, alt) =>
      Typed(t) && IsBlock(c) && Typed(c) &&
      (alt.Some? ==> (alt.value.IfStatementNode? || IsBlock(alt.value)) && Typed(alt.value))
    case WhileStatementNode(t, blk) => Typed(t) && IsBlock(blk) && Typed(blk)
    case ForStatementNode(init, t, u, blk) =>
      (init.Some? ==> Typed(init.value)) && (t.Some? ==> Typed(t.value)) &&
      (u.Some? ==> Typed(u.value)) && IsBlock(blk) && Typed(blk)
    case UnaryExpressionNode(_, a) => Typed(a)
    case ArrayExpressionNode(es) => forall i | 0 <= i < |es| :: Typed(es[i])
    case MemberExpressionNode(o, p, computed) => Typed(o) && Typed(p) && (!computed ==> IsIdentifier(p))
    case ObjectExpressionNode(ps) => forall i | 0 <= i < |ps| :: ps[i].PropertyNode? && Typed(ps[i])
    case PropertyNode(k, v) => (IsIdentifier(k) || k.StringLiteralNode?) && Typed(v)
    case ClassDeclarationNode(id, ms) =>
      IsIdentifier(id) && forall i | 0 <= i < |ms| :: ms[i].MethodDefinitionNode? && Typed(ms[i])
    case MethodDefinitionNode(k, _, ps, blk) =>
      IsIdentifier(k) && AllIdentifiers(ps) && IsBlock(blk) && Typed(blk)
    case ThisExpressionNode => true
    case NewExpressionNode(c, args) => Typed(c) && forall i | 0 <= i < |args| :: Typed(args[i])
  }

  /** The nodes on which `n.accept(v)` invokes a visitor method, in invocation order.
      Only a Program, an ExpressionStatement and an AssignmentExpression descend. */
  function Accept(n: Node): (trace: seq<Node>)
    decreases n, 1
  {
    match n
    case ProgramNode(b) => [n] + AcceptAll(b)
    case ExpressionStatementNode(e) => Accept(e) + [n]
    case AssignmentExpressionNode(l, r) => Accept(l) + Accept(r) + [n]
    case _ => [n]
  }

  /** `forEach(child => child.accept(v))`: the children's traces one after another. */
  function AcceptAll(ns: seq<Node>): (trace: seq<Node>)
    decreases ns, 0
  {
    if |ns| == 0 then [] else Accept(ns[0]) + AcceptAll(ns[1..])
  }

  /** The number of nodes in a tree. */
  function Size(n: Node): (s: nat)
    ensures s >= 1
    decreases n, 1
  {
    match n
    case ProgramNode(b) => 1 + SizeAll(b)
    case IdentifierNode(_) => 1
    case NumericLiteralNode(_) => 1
    case StringLiteralNode(_) => 1
    case BooleanLiteralNode(_) => 1
    case AssignmentExpressionNode(l, r) => 1 + Size(l) + Size(r)
    case CallExpressionNode(c, args) => 1 + Size(c) + SizeAll(args)
    case ExpressionStatementNode(e) => 1 + Size(e)
    case FirstExpressionNode(a) => 1 + Size(a)
    case BinaryExpressionNode(_, l, r) => 1 + Size(l) + Size(r)
    case LogicalExpressionNode(_, l, r) => 1 + Size(l) + Size(r)
    case VariableDeclarationNode(id, init) => 1 + Size(id) + SizeOpt(init)
    case FunctionDeclarationNode(id, ps, blk) => 1 + Size(id) + SizeAll(ps) + Size(blk)
    case ReturnStatementNode(a) => 1 + SizeOpt(a)
    case BlockStatementNode(b) => 1 + SizeAll(b)
    case IfStatementNode(t, c, alt) => 1 + Size(t) + Size(c) + SizeOpt(alt)
    case WhileStatementNode(t, blk) => 1 + Size(t) + Size(blk)
    case ForStatementNode(init, t, u, blk) => 1 + SizeOpt(init) + SizeOpt(t) + SizeOpt(u) + Size(blk)
    case UnaryExpressionNode(_, a) => 1 + Size(a)
    case ArrayExpressionNode(es) => 1 + SizeAll(es)
    case MemberExpressionNode(o, p, _) => 1 + Size(o) + Size(p)
    case ObjectExpressionNode(ps) => 1 + SizeAll(ps)
    case PropertyNode(k, v) => 1 + Size(k) + Size(v)
    case ClassDeclarationNode(id, ms) => 1 + Size(id) + SizeAll(ms)
    case MethodDefinitionNode(k, _, ps, blk) => 1 + Size(k) + SizeAll(ps) + Size(blk)
    case ThisExpressionNode => 1
    case NewExpressionNode(c, args) => 1 + Size(c) + SizeAll(args)
  }

  function SizeAll(ns: seq<Node>): nat
    decreases ns, 0
  {
    if |ns| == 0 then 0 else Size(ns[0]) + SizeAll(ns[1..])
  }

  function SizeOpt(o: Option<Node>): nat
    decreases o, 0
  {
    if o.None? then 0 else Size(o.value)
  }

  /** Every node a traversal visits lies inside the tree it started from, so no visited
      node is larger than the root. */
  lemma {:induction false} AcceptWithin(n: Node)
    ensures forall m | m in Accept(n) :: Size(m) <= Size(n)
    ensures forall m | m in Accept(n) && m != n :: Size(m) < Size(n)
    decreases n, 1
  {
    match n
    case ProgramNode(b) => AcceptAllWithin(b);
    case ExpressionStatementNode(e) => AcceptWithin(e);
    case AssignmentExpressionNode(l, r) => AcceptWithin(l); AcceptWithin(r);
    case _ =>
  }

  lemma {:induction false} AcceptAllWithin(ns: seq<Node>)
    ensures forall m | m in AcceptAll(ns) :: Size(m) <= SizeAll(ns)
    decreases ns, 0
  {
    if |ns| > 0 {
      AcceptWithin(ns[0]);
      AcceptAllWithin(ns[1..]);
    }
  }

  /** Every node a traversal of a well-typed tree visits is well typed. */
  lemma {:induction false} AcceptTyped(n: Node)
    requires Typed(n)
    ensures forall m | m in Accept(n) :: Typed(m)
    decreases n, 1
  {
    match n
    case ProgramNode(b) => AcceptAllTyped(b);
    case ExpressionStatementNode(e) => AcceptTyped(e);
    case AssignmentExpressionNode(l, r) => AcceptTyped(l); AcceptTyped(r);
    case _ =>
  }

  lemma {:induction false} AcceptAllTyped(ns: seq<Node>)
    requires forall i | 0 <= i < |ns| :: Typed(ns[i])
    ensures forall m | m in AcceptAll(ns) :: Typed(m)
    decreases ns, 0
  {
    if |ns| > 0 {
      AcceptTyped(ns[0]);
      AcceptAllTyped(ns[1..]);
    }
  }

  /** A list's size bounds the size of each of its elements. */
  lemma {:induction false} SizeAllBounds(ns: seq<Node>, i: nat)
    requires i < |ns|
    ensures Size(ns[i]) <= SizeAll(ns)
    decreases i
  {
    if i > 0 {
      SizeAllBounds(ns[1..], i - 1);
    }
  }

  lemma OnceAmong<T>(x: T, before: seq<T>, after: seq<T>)
    requires x !in before && x !in after
    ensures multiset(before + [x] + after)[x] == 1
  {
    assert multiset(before + [x] + after) == multiset(before) + multiset([x]) + multiset(after);
  }

  /** `n.accept(v)` invokes a visitor method on `n` itself exactly once. */
  lemma AcceptVisitsSelfOnce(n: Node)
    ensures multiset(Accept(n))[n] == 1
  {
    if n.ProgramNode? {
      ProgramVisitsSelfOnce(n.body);
    } else if n.ExpressionStatementNode? {
      StatementVisitsSelfOnce(n.expression);
    } else if n.AssignmentExpressionNode? {
      AssignmentVisitsSelfOnce(n.left, n.right);
    } else {
      assert Accept(n) == [n];
    }
  }

  lemma ProgramVisitsSelfOnce(b: seq<Node>)
    ensures multiset(Accept(ProgramNode(b)))[ProgramNode(b)] == 1
  {
    var n := ProgramNode(b);
    AcceptAllWithin(b);
    assert n !in AcceptAll(b);
    OnceAmong(n, [], AcceptAll(b));
    assert Accept(n) == [] + [n] + AcceptAll(b);
  }

  lemma StatementVisitsSelfOnce(e: Node)
    ensures multiset(Accept(ExpressionStatementNode(e)))[ExpressionStatementNode(e)] == 1
  {
    var n := ExpressionStatementNode(e);
    AcceptWithin(e);
    assert n !in Accept(e);
    OnceAmong(n, Accept(e), []);
    assert Accept(n) == Accept(e) + [n] + [];
  }

  lemma AssignmentVisitsSelfOnce(l: Node, r: Node)
    ensures multiset(Accept(AssignmentExpressionNode(l, r)))[AssignmentExpressionNode(l, r)] == 1
  {
    var n := AssignmentExpressionNode(l, r);
    AcceptWithin(l);
    AcceptWithin(r);
    assert n !in Accept(l) + Accept(r);
    OnceAmong(n, Accept(l) + Accept(r), []);
    assert Accept(n) == Accept(l) + Accept(r) + [n] + [];
  }

  /** A Program is visited before its statements; every other node after whatever its
      `accept` visits first. */
  lemma AcceptOrder(n: Node)
    ensures |Accept(n)| >= 1
    ensures n.ProgramNode? ==> Accept(n)[0] == n
    ensures !n.ProgramNode? ==> Accept(n)[|Accept(n)| - 1] == n
  {
  }

  /** A Program's trace is its own visit followed by each statement's trace in source order. */
  lemma {:induction false} ProgramAcceptSplits(b: seq<Node>, k: nat)
    requires k <= |b|
    ensures AcceptAll(b) == AcceptAll(b[..k]) + AcceptAll(b[k..])
  {
    if k > 0 {
      ProgramAcceptSplits(b[1..], k - 1);
      assert b[1..][..k - 1] == b[..k][1..];
      assert b[1..][k - 1..] == b[k..];
    } else {
      assert b[..k] == [];
      assert b[k..] == b;
    }
  }
}
