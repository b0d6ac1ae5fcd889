/** The C++ generator of `src/compiler/CppCodegenVisitor.ts`. The visitor's three fields
    (the output lines, the indentation level and the set of declared names) become a
    `Gen` value threaded through pure functions, and a thrown `Error` becomes an `Err`
    that abandons the whole output. `n.accept(this)` runs the visitor methods of the nodes
    `Ast.Accept(n)` lists, in that order. */
module Codegen {
  import opened Wrappers
  import opened Ast
  import opened Numerals

  /** What generation can fail with: `genExpression`'s "Unsupported expression type", and
      the `TypeError` an `accept` raises when it calls a visitor method the generator does
      not define (ClassDeclaration, MethodDefinition, ThisExpression, NewExpression). */
  datatype GenError =
    | Unsupported(typeName: string)
    | NotAFunction(methodName: string)

  /** The generator's state: `output`, `indentLevel`, `declaredVars`, and how many
      `Math.random` draws have been made so far. */
  datatype Gen = Gen(out: seq<string>, indent: nat, declared: set<string>, draws: nat)

  /** A freshly constructed generator. */
  const Fresh: Gen := Gen([], 0, {}, 0)

  /** `'  '.repeat(level)`. */
  function Indentation(level: nat): (s: string)
    ensures |s| == 2 * level
    ensures forall i | 0 <= i < |s| :: s[i] == ' '
  {
    if level == 0 then "" else "  " + Indentation(level - 1)
  }

  /** `emit(line)`: one output line, indented at the current level. */
  function Emit(g: Gen, line: string): Gen {
    g.(out := g.out + [Indentation(g.indent) + line])
  }

  function EmitAll(g: Gen, lines: seq<string>): Gen
    decreases |lines|
  {
    if |lines| == 0 then g else EmitAll(Emit(g, lines[0]), lines[1..])
  }

  /** `parts.join(sep)`. */
  function Join(parts: seq<string>, sep: string): string
    decreases |parts|
  {
    if |parts| == 0 then ""
    else if |parts| == 1 then parts[0]
    else parts[0] + sep + Join(parts[1..], sep)
  }

  /** `h` continues `g`: the same indentation level, the old lines untouched, and every
      new line indented at least at that level. */
  predicate Extends(g: Gen, h: Gen) {
    h.indent == g.indent && |g.out| <= |h.out| && h.out[..|g.out|] == g.out &&
    forall i | |g.out| <= i < |h.out| :: Indentation(g.indent) <= h.out[i]
  }

  lemma IndentationPrefix(a: nat, b: nat)
    requires a <= b
    ensures Indentation(a) <= Indentation(b)
  {
    var x, y := Indentation(a), Indentation(b);
    assert forall i | 0 <= i < |x| :: x[i] == y[i];
  }

  lemma ExtendsEmit(g: Gen, line: string)
    ensures Extends(g, Emit(g, line))
  {
    var h := Emit(g, line);
    assert h.out[..|g.out|] == g.out;
    var x := Indentation(g.indent);
    assert (x + line)[..|x|] == x;
  }

  lemma {:induction false} ExtendsEmitAll(g: Gen, lines: seq<string>)
    ensures Extends(g, EmitAll(g, lines))
    ensures |EmitAll(g, lines).out| == |g.out| + |lines|
    ensures forall i | 0 <= i < |lines| :: EmitAll(g, lines).out[|g.out| + i] == Indentation(g.indent) + lines[i]
    ensures EmitAll(g, lines).declared == g.declared && EmitAll(g, lines).draws == g.draws
    decreases |lines|
  {
    if |lines| > 0 {
      var h := Emit(g, lines[0]);
      ExtendsEmit(g, lines[0]);
      ExtendsEmitAll(h, lines[1..]);
      ExtendsTrans(g, h, EmitAll(g, lines));
      var out := EmitAll(g, lines).out;
      forall i | 0 <= i < |lines|
        ensures out[|g.out| + i] == Indentation(g.indent) + lines[i]
      {
        if i == 0 {
          assert out[..|h.out|] == h.out;
        } else {
          assert lines[i] == lines[1..][i - 1];
        }
      }
    }
  }

  lemma ExtendsTrans(g: Gen, h: Gen, k: Gen)
    requires Extends(g, h) && Extends(h, k)
    ensures Extends(g, k)
  {
    assert k.out[..|g.out|] == k.out[..|h.out|][..|g.out|];
  }

  /** A stretch emitted one level deeper is indented at least at the outer level. */
  lemma ExtendsNested(g: Gen, h: Gen)
    requires Extends(g.(indent := g.indent + 1), h)
    ensures Extends(g, h.(indent := g.indent))
  {
    IndentationPrefix(g.indent, g.indent + 1);
  }

  // ---------------------------------------------------------------------------------
  // genExpression

  /** The trees `genExpression` lowers: names, literals, assignment, unary, binary and
      logical operators, calls, member accesses, arrays and objects, all the way down. */
  predicate Supported(n: Node)
    decreases n
  {
    match n
    case IdentifierNode(_) => true
    case NumericLiteralNode(_) => true
    case StringLiteralNode(_) => true
    case BooleanLiteralNode(_) => true
    case AssignmentExpressionNode(l, r) => Supported(l) && Supported(r)
    case UnaryExpressionNode(_, a) => Supported(a)
    case BinaryExpressionNode(_, l, r) => Supported(l) && Supported(r)
    case LogicalExpressionNode(_, l, r) => Supported(l) && Supported(r)
    case CallExpressionNode(c, args) => Supported(c) && forall i | 0 <= i < |args| :: Supported(args[i])
    case MemberExpressionNode(o, p, computed) => Supported(o) && (computed ==> Supported(p))
    case ArrayExpressionNode(es) => forall i | 0 <= i < |es| :: Supported(es[i])
    case ObjectExpressionNode(ps) =>
      forall i | 0 <= i < |ps| :: ps[i].PropertyNode? && Supported(ps[i].value)
    case _ => false
  }

  /** The C++ type objects lower to. */
  const MapType := "std::map<std::string, std::any>"

  /** The cast a dot access lowers through. */
  const AnyCast := "std::any_cast<" + MapType + "&>"

  /** `genExpression`: the C++ text of an expression. Operators are always wrapped in
      parentheses; an assignment is not. */
  function GenExpression(n: Node): (r: Result<string, GenError>)
    requires Typed(n)
    ensures r.Ok? <==> Supported(n)
    ensures r.Err? ==> r.error.Unsupported?
    decreases Size(n), 1
  {
    match n
    case IdentifierNode(name) => Ok(name)
    case NumericLiteralNode(v) => Ok(DecimalText(v))
    case StringLiteralNode(text) => Ok("std::string(\"" + text + "\")")
    case BooleanLiteralNode(b) => Ok(if b then "true" else "false")
    case AssignmentExpressionNode(_, _) => GenOperation(n)
    case UnaryExpressionNode(_, _) => GenOperation(n)
    case BinaryExpressionNode(_, _, _) => GenOperation(n)
    case LogicalExpressionNode(_, _, _) => GenOperation(n)
    case CallExpressionNode(_, _) => GenCall(n)
    case MemberExpressionNode(_, _, _) => GenMember(n)
    case ArrayExpressionNode(_) => GenContainer(n)
    case ObjectExpressionNode(_) => GenContainer(n)
    case _ => Err(Unsupported(TypeName(n)))
  }

  predicate IsOperator(n: Node) {
    n.AssignmentExpressionNode? || n.UnaryExpressionNode? ||
    n.BinaryExpressionNode? || n.LogicalExpressionNode?
  }

  /** Assignment, unary, binary and logical operators. */
  function GenOperation(n: Node): (r: Result<string, GenError>)
    requires IsOperator(n) && Typed(n)
    ensures r.Ok? <==> Supported(n)
    ensures r.Err? ==> r.error.Unsupported?
    decreases Size(n), 0
  {
    if n.UnaryExpressionNode? then
      var argument :- GenExpression(n.argument);
      Ok("(" + n.operator + argument + ")")
    else
      var left :- GenExpression(n.left);
      var right :- GenExpression(n.right);
      if n.AssignmentExpressionNode? then Ok(left + " = " + right)
      else Ok("(" + left + " " + n.operator + " " + right + ")")
  }

  /** A call: the callee, then the arguments between parentheses. */
  function GenCall(n: Node): (r: Result<string, GenError>)
    requires n.CallExpressionNode? && Typed(n)
    ensures r.Ok? <==> Supported(n)
    ensures r.Err? ==> r.error.Unsupported?
    decreases Size(n), 0
  {
    var callee :- GenExpression(n.callee);
    var parts :- GenAll(n.arguments);
    Ok(callee + "(" + Join(parts, ", ") + ")")
  }

  /** A member access: indexing when computed, a lookup through the map cast otherwise. */
  function GenMember(n: Node): (r: Result<string, GenError>)
    requires n.MemberExpressionNode? && Typed(n)
    ensures r.Ok? <==> Supported(n)
    ensures r.Err? ==> r.error.Unsupported?
    decreases Size(n), 0
  {
    var obj :- GenExpression(n.obj);
    if n.computed then
      var property :- GenExpression(n.property);
      Ok(obj + "[" + property + "]")
    else
      Ok(AnyCast + "(" + obj + ")[\"" + n.property.name + "\"]")
  }

  /** Array and object literals. */
  function GenContainer(n: Node): (r: Result<string, GenError>)
    requires (n.ArrayExpressionNode? || n.ObjectExpressionNode?) && Typed(n)
    ensures r.Ok? <==> Supported(n)
    ensures r.Err? ==> r.error.Unsupported?
    decreases Size(n), 0
  {
    if n.ArrayExpressionNode? then
      var parts :- GenAll(n.elements);
      Ok("std::vector<std::any>{" + Join(parts, ", ") + "}")
    else
      var parts :- GenProperties(n.properties);
      Ok(MapType + "{" + Join(parts, ", ") + "}")
  }

  /** `nodes.map(genExpression)`, which stops at the first failure. */
  function GenAll(ns: seq<Node>): (r: Result<seq<string>, GenError>)
    requires forall i | 0 <= i < |ns| :: Typed(ns[i])
    ensures r.Ok? <==> forall i | 0 <= i < |ns| :: Supported(ns[i])
    ensures r.Ok? ==> |r.value| == |ns|
    ensures r.Err? ==> r.error.Unsupported?
    decreases SizeAll(ns), 2
  {
    if |ns| == 0 then Ok([])
    else
      SizeAllBounds(ns, 0);
      var head :- GenExpression(ns[0]);
      var tail :- GenAll(ns[1..]);
      assert forall i | 1 <= i < |ns| :: ns[i] == ns[1..][i - 1];
      Ok([head] + tail)
  }

  /** One `{"key", value}` entry: the key is an Identifier's name or a string's text. */
  function Entry(key: Node, value: string): string
    requires key.IdentifierNode? || key.StringLiteralNode?
  {
    "{\"" + (if key.IdentifierNode? then key.name else key.text) + "\", " + value + "}"
  }

  /** One property of an object literal as its `{"key", value}` entry. */
  function GenEntry(p: Node): (r: Result<string, GenError>)
    requires p.PropertyNode? && Typed(p)
    ensures r.Ok? <==> Supported(p.value)
    ensures r.Err? ==> r.error.Unsupported?
    decreases Size(p), 1
  {
    var value :- GenExpression(p.value);
    Ok(Entry(p.key, value))
  }

  /** The entries of an object literal, in source order. */
  function GenProperties(ps: seq<Node>): (r: Result<seq<string>, GenError>)
    requires forall i | 0 <= i < |ps| :: ps[i].PropertyNode? && Typed(ps[i])
    ensures r.Ok? <==> forall i | 0 <= i < |ps| :: Supported(ps[i].value)
    ensures r.Ok? ==> |r.value| == |ps|
    ensures r.Err? ==> r.error.Unsupported?
    decreases SizeAll(ps), 2
  {
    if |ps| == 0 then Ok([])
    else
      SizeAllBounds(ps, 0);
      var head :- GenEntry(ps[0]);
      var tail :- GenProperties(ps[1..]);
      assert forall i | 1 <= i < |ps| :: ps[i] == ps[1..][i - 1];
      Ok([head] + tail)
  }

  // ---------------------------------------------------------------------------------
  // The visitor methods that emit

  /** `Program` lines 17-48: the includes and the `print_any` helper, verbatim. */
  function Prelude(): seq<string> { seq(32, PreludeLine) }

  /** Line `i` of the prelude. */
  function PreludeLine(i: int): string
    requires 0 <= i < 32
  {
    match i
    case 0 => "#include <iostream>"
    case 1 => "#include <string>"
    case 2 => "#include <vector>"
    case 3 => "#include <any>"
    case 4 => "#include <map>"
    case 5 => "#include <variant>"
    case 6 => ""
    case 7 => "// Forward declaration for recursive structures"
    case 8 => "void print_any(const std::any& value);"
    case 9 => ""
    case 10 => "void print_any(const std::any& value) {"
    case 11 => "  if (value.type() == typeid(int)) { std::cout << std::any_cast<int>(value); }"
    case 12 => "  else if (value.type() == typeid(double)) { std::cout << std::any_cast<double>(value); }"
    case 13 => "  else if (value.type() == typeid(bool)) { std::cout << (std::any_cast<bool>(value) ? \"true\" : \"false\"); }"
    case 14 => "  else if (value.type() == typeid(const char*)) { std::cout << \"\"\" << std::any_cast<const char*>(value) << \"\"\"; }"
    case 15 => "  else if (value.type() == typeid(std::string)) { std::cout << \"\"\" << std::any_cast<std::string>(value) << \"\"\"; }"
    case 16 => "  else if (value.type() == typeid(std::vector<std::any>)) {"
    case 17 => "    const auto& vec = std::any_cast<const std::vector<std::any>&>(value);"
    case 18 => "    std::cout << \"[\";"
    case 19 => "    for (size_t i = 0; i < vec.size(); ++i) { print_any(vec[i]); if (i < vec.size() - 1) std::cout << \", \"; }"
    case 20 => "    std::cout << \"]\";"
    case 21 => "  } else if (value.type() == typeid(std::map<std::string, std::any>)) {"
    case 22 => "    const auto& map = std::any_cast<const std::map<std::string, std::any>&>(value);"
    case 23 => "    std::cout << \"{\";"
    case 24 => "    size_t i = 0;"
    case 25 => "    for (const auto& pair : map) { std::cout << \"\"\" << pair.first << \"\": \"; print_any(pair.second); if (i < map.size() - 1) std::cout << \", \"; i++; }"
    case 26 => "    std::cout << \"}\";"
    case 27 => "  } else { std::cout << \"unsupported_type\"; }"
    case 28 => "}"
    case 29 => ""
    case 30 => "using namespace std;"
    case _ => ""
  }

  /** `VariableDeclaration`: `auto x = init;` (with `0` for a missing initializer) the first
      time `x` is declared; nothing at all, not even the initializer's lowering, later. */
  function VariableDeclaration(id: Node, init: Option<Node>, g: Gen): (r: Result<Gen, GenError>)
    requires IsIdentifier(id) && (init.Some? ==> Typed(init.value))
    ensures id.name in g.declared ==> r == Ok(g)
    ensures r.Ok? <==> id.name in g.declared || init.None? || Supported(init.value)
    ensures r.Ok? ==> Extends(g, r.value) && r.value.declared == g.declared + {id.name}
    ensures r.Ok? && id.name !in g.declared ==> |r.value.out| == |g.out| + 1
    ensures r.Ok? && id.name !in g.declared ==>
              (init.Some? ==> GenExpression(init.value).Ok?) &&
              r.value.out == g.out + [Indentation(g.indent) + ("auto " + id.name + " = " +
                                      (if init.Some? then GenExpression(init.value).value else "0") + ";")]
  {
    if id.name in g.declared then Ok(g)
    else
      var value :- if init.Some? then GenExpression(init.value) else Ok("0");
      ExtendsEmit(g, "auto " + id.name + " = " + value + ";");
      Ok(Emit(g, "auto " + id.name + " = " + value + ";").(declared := g.declared + {id.name}))
  }

  /** `ReturnStatement`. */
  function ReturnStatement(result: Option<Node>, g: Gen): (r: Result<Gen, GenError>)
    requires result.Some? ==> Typed(result.value)
    ensures r.Ok? ==> Extends(g, r.value) && |r.value.out| == |g.out| + 1
    ensures r.Ok? ==> r.value.declared == g.declared
  {
    var line :-
      if result.Some? then
        var code :- GenExpression(result.value);
        Ok("return " + code + ";")
      else Ok("return 0;");
    ExtendsEmit(g, line);
    Ok(Emit(g, line))
  }

  /** The text between the parentheses of a `for` header. It is computed from the header
      alone: a `let` there lowers to `int name = init` whatever has been declared. */
  function ForHeader(init: Option<Node>, test: Option<Node>, update: Option<Node>): (r: Result<string, GenError>)
    requires init.Some? ==> Typed(init.value)
    requires test.Some? ==> Typed(test.value)
    requires update.Some? ==> Typed(update.value)
    ensures r.Err? ==> r.error.Unsupported?
    ensures init.None? && test.None? && update.None? ==> r == Ok("; ; ")
  {
    var initText :-
      if init.None? then Ok("")
      else if init.value.VariableDeclarationNode? then
        var value :- if init.value.init.Some? then GenExpression(init.value.init.value) else Ok("0");
        Ok("int " + init.value.id.name + " = " + value)
      else GenExpression(init.value);
    var testText :- if test.Some? then GenExpression(test.value) else Ok("");
    var updateText :- if update.Some? then GenExpression(update.value) else Ok("");
    var text := initText + "; " + testText + "; " + updateText;
    assert init.None? && test.None? && update.None? ==> text == "; ; ";
    Ok(text)
  }

  /** `console.log(...)` as the generator recognises it: a call whose callee is a member
      access with the Identifier `console` as object and the Identifier `log` as property.
      Whether the access is written `.log` or `[log]` does not matter. */
  predicate IsConsoleLog(e: Node) {
    e.CallExpressionNode? && e.callee.MemberExpressionNode? &&
    e.callee.obj.IdentifierNode? && e.callee.obj.name == "console" &&
    e.callee.property.IdentifierNode? && e.callee.property.name == "log"
  }

  const Separator := "std::cout << \" \";"
  const EndLine := "std::cout << std::endl;"

  /** The argument loop of the `console.log` case: `print_any(code);` per argument and
      the separator line between consecutive ones. The loop lowers each argument just
      before emitting it; since a failure discards everything emitted, lowering all of
      them first produces the same result. */
  function PrintLines(codes: seq<string>): (lines: seq<string>)
    decreases |codes|
  {
    if |codes| == 0 then []
    else ["print_any(" + codes[0] + ");"] + (if |codes| > 1 then [Separator] else []) + PrintLines(codes[1..])
  }

  /** `ExpressionStatement`. */
  function ExpressionStatement(e: Node, g: Gen): (r: Result<Gen, GenError>)
    requires Typed(e)
    ensures r.Ok? ==> Extends(g, r.value) && r.value.declared == g.declared && r.value.draws == g.draws
    ensures !IsConsoleLog(e) ==> (r.Ok? <==> Supported(e))
    ensures r.Ok? && !IsConsoleLog(e) ==>
              r.value.out == g.out + [Indentation(g.indent) + (GenExpression(e).value + ";")]
  {
    if IsConsoleLog(e) then
      var codes :- GenAll(e.arguments);
      ExtendsEmitAll(g, PrintLines(codes) + [EndLine]);
      Ok(EmitAll(g, PrintLines(codes) + [EndLine]))
    else
      var code :- GenExpression(e);
      ExtendsEmit(g, code + ";");
      Ok(Emit(g, code + ";"))
  }

  /** The name `FirstExpression` gives its temporary: `temp` and a number below 10000
      drawn by `pick`, which stands for `Math.floor(Math.random() * 10000)`. */
  function TempName(pick: nat -> nat, draw: nat): string {
    "temp" + DecimalText(pick(draw) % 10000)
  }

  /** `FirstExpression`: the argument into a temporary, then a line printing it with its
      type name. */
  function FirstExpression(argument: Node, g: Gen, pick: nat -> nat): (r: Result<Gen, GenError>)
    requires Typed(argument)
    ensures r.Ok? ==> Extends(g, r.value) && r.value.declared == g.declared && r.value.draws == g.draws + 1
    ensures r.Ok? <==> Supported(argument)
  {
    var t := TempName(pick, g.draws);
    var code :- GenExpression(argument);
    var h := Emit(g.(draws := g.draws + 1), "auto " + t + " = " + code + ";");
    var line := "std::cout << " + t + " << \" (type: \" << typeid(" + t + ").name() << \")\" << std::endl;";
    ExtendsEmit(g.(draws := g.draws + 1), "auto " + t + " = " + code + ";");
    ExtendsEmit(h, line);
    ExtendsTrans(g, h, Emit(h, line));
    Ok(Emit(h, line))
  }

  // ---------------------------------------------------------------------------------
  // accept and the visitor methods that descend

  /** `n.accept(this)`. */
  function Visit(n: Node, g: Gen, pick: nat -> nat): (r: Result<Gen, GenError>)
    requires Typed(n)
    ensures r.Ok? ==> Extends(g, r.value)
    decreases Size(n), 3, 0
  {
    AcceptWithin(n);
    AcceptTyped(n);
    RunMethods(Accept(n), Size(n), g, pick)
  }

  /** The visitor methods of a traversal, one after another. */
  function RunMethods(trace: seq<Node>, bound: nat, g: Gen, pick: nat -> nat): (r: Result<Gen, GenError>)
    requires forall m | m in trace :: Size(m) <= bound && Typed(m)
    ensures r.Ok? ==> Extends(g, r.value)
    decreases bound, 2, |trace|
  {
    if |trace| == 0 then Ok(g)
    else
      var h :- Method(trace[0], g, pick);
      var r := RunMethods(trace[1..], bound, h, pick);
      if r.Ok? then ExtendsTrans(g, h, r.value); r else r
  }

  /** `this.X(node)` for the node's type `X`. The generator's methods for names, literals
      and operators are empty; it has no method for classes, methods, `this` or `new`. */
  function Method(m: Node, g: Gen, pick: nat -> nat): (r: Result<Gen, GenError>)
    requires Typed(m)
    ensures r.Ok? ==> Extends(g, r.value)
    decreases Size(m), 1, 0
  {
    if m.ProgramNode? then Program(m, g, pick)
    else if m.FunctionDeclarationNode? then FunctionDeclaration(m, g, pick)
    else if m.BlockStatementNode? then BlockStatement(m, g, pick)
    else if m.IfStatementNode? then IfStatement(m, g, pick)
    else if m.WhileStatementNode? then WhileStatement(m, g, pick)
    else if m.ForStatementNode? then ForStatement(m, g, pick)
    else LeafMethod(m, g, pick)
  }

  /** The visitor methods that do not call `accept` themselves. */
  function LeafMethod(m: Node, g: Gen, pick: nat -> nat): (r: Result<Gen, GenError>)
    requires Typed(m)
    ensures r.Ok? ==> Extends(g, r.value)
  {
    match m
    case VariableDeclarationNode(id, init) => VariableDeclaration(id, init, g)
    case ReturnStatementNode(result) => ReturnStatement(result, g)
    case ExpressionStatementNode(e) => ExpressionStatement(e, g)
    case FirstExpressionNode(a) => FirstExpression(a, g, pick)
    case ClassDeclarationNode(_, _) => Err(NotAFunction(TypeName(m)))
    case MethodDefinitionNode(_, _, _, _) => Err(NotAFunction(TypeName(m)))
    case ThisExpressionNode => Err(NotAFunction(TypeName(m)))
    case NewExpressionNode(_, _) => Err(NotAFunction(TypeName(m)))
    case _ => Ok(g)
  }

  /** `forEach(stmt => stmt.accept(this))`. */
  function VisitAll(ns: seq<Node>, g: Gen, pick: nat -> nat): (r: Result<Gen, GenError>)
    requires forall i | 0 <= i < |ns| :: Typed(ns[i])
    ensures r.Ok? ==> Extends(g, r.value)
    decreases SizeAll(ns), 4, 0
  {
    if |ns| == 0 then Ok(g)
    else
      SizeAllBounds(ns, 0);
      var h :- Visit(ns[0], g, pick);
      var r := VisitAll(ns[1..], h, pick);
      if r.Ok? then ExtendsTrans(g, h, r.value); r else r
  }

  /** `BlockStatement`: `{`, the statements one level deeper, `}`. */
  function BlockStatement(m: Node, g: Gen, pick: nat -> nat): (r: Result<Gen, GenError>)
    requires m.BlockStatementNode? && Typed(m)
    ensures r.Ok? ==> Extends(g, r.value)
    decreases Size(m), 0, 0
  {
    var open := Emit(g, "{");
    var h :- VisitAll(m.body, open.(indent := g.indent + 1), pick);
    var close := h.(indent := h.indent - 1);
    ExtendsEmit(g, "{");
    ExtendsNested(open, h);
    ExtendsTrans(g, open, close);
    ExtendsEmit(close, "}");
    ExtendsTrans(g, close, Emit(close, "}"));
    Ok(Emit(close, "}"))
  }

  /** `FunctionDeclaration`: an `int` function with `int` parameters, then its body. */
  function FunctionDeclaration(m: Node, g: Gen, pick: nat -> nat): (r: Result<Gen, GenError>)
    requires m.FunctionDeclarationNode? && Typed(m)
    ensures r.Ok? ==> Extends(g, r.value)
    decreases Size(m), 0, 0
  {
    var header := Signature(m);
    ExtendsEmit(g, header);
    var r := Visit(m.block, Emit(g, header), pick);
    if r.Ok? then ExtendsTrans(g, Emit(g, header), r.value); r else r
  }

  /** The line a function declaration opens with: every function returns `int`. */
  function Signature(m: Node): string
    requires m.FunctionDeclarationNode? && Typed(m)
  {
    "int " + m.id.name + "(" + Join(ParameterTexts(m.params), ", ") + ")"
  }

  /** `params.map(p => `int ${p.name}`)`. */
  function ParameterTexts(ps: seq<Node>): (ts: seq<string>)
    requires AllIdentifiers(ps)
    ensures |ts| == |ps|
    ensures forall i | 0 <= i < |ps| :: ts[i] == "int " + ps[i].name
  {
    seq(|ps|, i requires 0 <= i < |ps| => "int " + ps[i].name)
  }

  /** `IfStatement`. */
  function IfStatement(m: Node, g: Gen, pick: nat -> nat): (r: Result<Gen, GenError>)
    requires m.IfStatementNode? && Typed(m)
    ensures r.Ok? ==> Extends(g, r.value)
    decreases Size(m), 0, 0
  {
    var test :- GenExpression(m.test);
    var line := "if (" + test + ")";
    ExtendsEmit(g, line);
    var h :- Visit(m.consequent, Emit(g, line), pick);
    ExtendsTrans(g, Emit(g, line), h);
    if m.alternate.Some? then
      assert Size(m.alternate.value) < Size(m);
      ExtendsEmit(h, "else");
      ExtendsTrans(g, h, Emit(h, "else"));
      var r := Visit(m.alternate.value, Emit(h, "else"), pick);
      if r.Ok? then ExtendsTrans(g, Emit(h, "else"), r.value); r else r
    else Ok(h)
  }

  /** `WhileStatement`. */
  function WhileStatement(m: Node, g: Gen, pick: nat -> nat): (r: Result<Gen, GenError>)
    requires m.WhileStatementNode? && Typed(m)
    ensures r.Ok? ==> Extends(g, r.value)
    decreases Size(m), 0, 0
  {
    var test :- GenExpression(m.test);
    var line := "while (" + test + ")";
    ExtendsEmit(g, line);
    var r := Visit(m.block, Emit(g, line), pick);
    if r.Ok? then ExtendsTrans(g, Emit(g, line), r.value); r else r
  }

  /** `ForStatement`. */
  function ForStatement(m: Node, g: Gen, pick: nat -> nat): (r: Result<Gen, GenError>)
    requires m.ForStatementNode? && Typed(m)
    ensures r.Ok? ==> Extends(g, r.value)
    decreases Size(m), 0, 0
  {
    var header :- ForHeader(m.init, m.condition, m.update);
    var line := "for (" + header + ")";
    ExtendsEmit(g, line);
    var r := Visit(m.block, Emit(g, line), pick);
    if r.Ok? then ExtendsTrans(g, Emit(g, line), r.value); r else r
  }

  /** `int main() {`, then one level deeper with the declared names forgotten. */
  function EnterMain(f: Gen): Gen {
    Emit(f, "int main() {").(indent := f.indent + 1, declared := {})
  }

  /** `return 0;` inside `main`, then `}` back at `indent`. */
  function LeaveMain(main: Gen, indent: nat): Gen {
    Emit(Emit(main, "return 0;").(indent := indent), "}")
  }

  lemma MainExtends(f: Gen, main: Gen)
    requires Extends(EnterMain(f), main)
    ensures Extends(f, LeaveMain(main, f.indent))
  {
    var open := Emit(f, "int main() {");
    var ret := Emit(main, "return 0;");
    ExtendsEmit(f, "int main() {");
    ExtendsEmit(main, "return 0;");
    ExtendsTrans(EnterMain(f), main, ret);
    ExtendsNested(open, ret);
    ExtendsTrans(f, open, ret.(indent := f.indent));
    ExtendsEmit(ret.(indent := f.indent), "}");
    ExtendsTrans(f, ret.(indent := f.indent), LeaveMain(main, f.indent));
  }

  /** `Program`: the prelude, every function declaration in source order (each followed by
      an empty line), then `int main()` around the other statements, with the declared
      names forgotten before `main`. */
  function Program(m: Node, g: Gen, pick: nat -> nat): (r: Result<Gen, GenError>)
    requires m.ProgramNode? && Typed(m)
    ensures r.Ok? ==> Extends(g, r.value)
    decreases Size(m), 0, 0
  {
    var prelude := EmitAll(g, Prelude());
    var functions :- HoistFunctions(m.body, prelude, pick);
    var main :- MainStatements(m.body, EnterMain(functions), pick);
    ExtendsEmitAll(g, Prelude());
    ExtendsTrans(g, prelude, functions);
    MainExtends(functions, main);
    ExtendsTrans(g, functions, LeaveMain(main, functions.indent));
    Ok(LeaveMain(main, g.indent))
  }

  /** The hoisting loop: function declarations only, each followed by an empty line. */
  function HoistFunctions(ns: seq<Node>, g: Gen, pick: nat -> nat): (r: Result<Gen, GenError>)
    requires forall i | 0 <= i < |ns| :: Typed(ns[i])
    ensures r.Ok? ==> Extends(g, r.value)
    decreases SizeAll(ns), 4, 0
  {
    if |ns| == 0 then Ok(g)
    else if ns[0].FunctionDeclarationNode? then
      SizeAllBounds(ns, 0);
      var h :- Visit(ns[0], g, pick);
      ExtendsEmit(h, "");
      ExtendsTrans(g, h, Emit(h, ""));
      var r := HoistFunctions(ns[1..], Emit(h, ""), pick);
      if r.Ok? then ExtendsTrans(g, Emit(h, ""), r.value); r else r
    else HoistFunctions(ns[1..], g, pick)
  }

  /** The `main` loop: every statement except the function declarations. */
  function MainStatements(ns: seq<Node>, g: Gen, pick: nat -> nat): (r: Result<Gen, GenError>)
    requires forall i | 0 <= i < |ns| :: Typed(ns[i])
    ensures r.Ok? ==> Extends(g, r.value)
    decreases SizeAll(ns), 4, 0
  {
    if |ns| == 0 then Ok(g)
    else if ns[0].FunctionDeclarationNode? then MainStatements(ns[1..], g, pick)
    else
      SizeAllBounds(ns, 0);
      var h :- Visit(ns[0], g, pick);
      var r := MainStatements(ns[1..], h, pick);
      if r.Ok? then ExtendsTrans(g, h, r.value); r else r
  }

  /** The lines a fresh generator produces for a program, calling its `Program` method
      directly. */
  function Lines(p: Node, pick: nat -> nat): (r: Result<seq<string>, GenError>)
    requires p.ProgramNode? && Typed(p)
  {
    var g :- Program(p, Fresh, pick);
    Ok(g.out)
  }

  /** `getCode()` after generation: the lines joined with newlines. */
  function Generate(p: Node, pick: nat -> nat): (r: Result<string, GenError>)
    requires p.ProgramNode? && Typed(p)
  {
    var lines :- Lines(p, pick);
    Ok(Join(lines, "\n"))
  }
}
