/** Properties of the statements the generator emits: `let` deduplication, the
    `console.log` expansion, the `for` header, block indentation and the layout of the
    whole program. */
module CodegenLayout {
  import opened Wrappers
  import opened Ast
  import opened Numerals
  import opened Codegen

  /** A node whose `accept` calls only its own visitor method. */
  predicate Leaf(n: Node) {
    !n.ProgramNode? && !n.ExpressionStatementNode? && !n.AssignmentExpressionNode?
  }

  /** Visiting a leaf runs exactly its own method. */
  lemma VisitLeaf(n: Node, g: Gen, pick: nat -> nat)
    requires Typed(n) && Leaf(n)
    ensures Visit(n, g, pick) == Method(n, g, pick)
  {
    assert Accept(n) == [n];
    AcceptWithin(n);
    AcceptTyped(n);
    var h := Method(n, g, pick);
    if h.Ok? {
      assert [n][1..] == [];
      assert RunMethods([n][1..], Size(n), h.value, pick) == Ok(h.value);
    }
  }

  // ---------------------------------------------------------------------------------
  // let deduplication

  /** A run of `let` statements whose initializers all lower. */
  predicate Lets(ns: seq<Node>) {
    forall i | 0 <= i < |ns| ::
      ns[i].VariableDeclarationNode? && Typed(ns[i]) &&
      (ns[i].init.Some? ==> Supported(ns[i].init.value))
  }

  /** The names a run of `let` statements declares. */
  function Names(ns: seq<Node>): set<string>
    requires Lets(ns)
    decreases |ns|
  {
    if |ns| == 0 then {} else {ns[0].id.name} + Names(ns[1..])
  }

  /** In `main`, a run of `let` statements emits one line per name not declared before it,
      however often a name repeats, and leaves every name declared. */
  lemma {:induction false} LetDedup(ns: seq<Node>, g: Gen, pick: nat -> nat)
    requires Lets(ns)
    ensures MainStatements(ns, g, pick).Ok?
    ensures MainStatements(ns, g, pick).value.declared == g.declared + Names(ns)
    ensures |MainStatements(ns, g, pick).value.out| == |g.out| + |Names(ns) - g.declared|
    decreases |ns|
  {
    if |ns| > 0 {
      var n := ns[0];
      LetStep(n, g, pick);
      var h := Visit(n, g, pick).value;
      MainCons(ns, g, pick);
      assert Lets(ns[1..]);
      LetDedup(ns[1..], h, pick);
      NewNames(n.id.name, Names(ns[1..]), g.declared);
    }
  }

  /** One `let` statement in `main` declares its name and emits a line only when the name
      is new. */
  lemma LetStep(n: Node, g: Gen, pick: nat -> nat)
    requires n.VariableDeclarationNode? && Typed(n) && (n.init.Some? ==> Supported(n.init.value))
    ensures Visit(n, g, pick).Ok?
    ensures Visit(n, g, pick).value.declared == g.declared + {n.id.name}
    ensures |Visit(n, g, pick).value.out| == |g.out| + (if n.id.name in g.declared then 0 else 1)
    ensures n.id.name in g.declared ==> Visit(n, g, pick).value == g
    ensures n.id.name !in g.declared ==>
              Visit(n, g, pick).value.out ==
              g.out + [Indentation(g.indent) + ("auto " + n.id.name + " = " +
                                                (if n.init.Some? then GenExpression(n.init.value).value else "0") + ";")]
  {
    VisitLeaf(n, g, pick);
    assert Method(n, g, pick) == LeafMethod(n, g, pick) == VariableDeclaration(n.id, n.init, g);
  }

  /** `let x = -5;` lowers to `auto x = (-5);` when `x` is new. */
  lemma NegativeLet(g: Gen, pick: nat -> nat)
    requires "x" !in g.declared
    ensures var n := VariableDeclarationNode(IdentifierNode("x"), Some(UnaryExpressionNode("-", NumericLiteralNode(5))));
            Typed(n) && Visit(n, g, pick).Ok? &&
            Visit(n, g, pick).value.out == g.out + [Indentation(g.indent) + ("auto " + "x" + " = " + "(-5)" + ";")]
  {
    var n := VariableDeclarationNode(IdentifierNode("x"), Some(UnaryExpressionNode("-", NumericLiteralNode(5))));
    assert Typed(n) && Supported(n.init.value);
    LetStep(n, g, pick);
    LeafTexts("x", 5, '5');
    UnaryText("-", NumericLiteralNode(5));
    assert "(" + "-" + ['5'] + ")" == "(-5)";
  }

  /** `main` visits a statement other than a function declaration and carries on. */
  lemma MainCons(ns: seq<Node>, g: Gen, pick: nat -> nat)
    requires |ns| > 0 && !ns[0].FunctionDeclarationNode?
    requires forall i | 0 <= i < |ns| :: Typed(ns[i])
    requires Visit(ns[0], g, pick).Ok?
    ensures MainStatements(ns, g, pick) == MainStatements(ns[1..], Visit(ns[0], g, pick).value, pick)
  {
  }

  lemma NewNames(x: string, rest: set<string>, d: set<string>)
    ensures |({x} + rest) - d| == |rest - (d + {x})| + (if x in d then 0 else 1)
  {
    if x in d {
      assert ({x} + rest) - d == rest - (d + {x});
    } else {
      assert ({x} + rest) - d == {x} + (rest - (d + {x}));
    }
  }

  // ---------------------------------------------------------------------------------
  // console.log

  /** The lines `console.log` expands to for the argument texts `codes`: `print_any` for
      each argument at the even positions, the separator between consecutive arguments,
      and the line break last. */
  predicate LogLines(lines: seq<string>, codes: seq<string>) {
    |lines| == (if |codes| == 0 then 1 else 2 * |codes|) &&
    (forall i | 0 <= i < |codes| :: lines[2 * i] == "print_any(" + codes[i] + ");") &&
    (forall i | 0 <= i < |codes| - 1 :: lines[2 * i + 1] == Separator) &&
    lines[|lines| - 1] == EndLine
  }

  lemma {:induction false} PrintLinesShape(codes: seq<string>)
    ensures LogLines(PrintLines(codes) + [EndLine], codes)
    decreases |codes|
  {
    if |codes| > 0 {
      PrintLinesShape(codes[1..]);
      var rest := PrintLines(codes[1..]);
      var lines := PrintLines(codes) + [EndLine];
      var front := ["print_any(" + codes[0] + ");"] + (if |codes| > 1 then [Separator] else []);
      assert lines == front + (rest + [EndLine]);
      forall i | 1 <= i < |codes|
        ensures lines[2 * i] == "print_any(" + codes[i] + ");"
      {
        assert lines[2 * i] == (rest + [EndLine])[2 * (i - 1)];
        assert codes[i] == codes[1..][i - 1];
      }
      forall i | 1 <= i < |codes| - 1
        ensures lines[2 * i + 1] == Separator
      {
        assert lines[2 * i + 1] == (rest + [EndLine])[2 * (i - 1) + 1];
      }
    }
  }

  /** `console.log(a1, ..., an)` with lowerable arguments emits exactly the `LogLines` of
      the arguments' texts, each at the current indentation, after the lines already
      emitted. */
  lemma ConsoleLog(e: Node, g: Gen)
    requires Typed(e) && IsConsoleLog(e)
    requires forall i | 0 <= i < |e.arguments| :: Supported(e.arguments[i])
    ensures ExpressionStatement(e, g).Ok?
    ensures var out := ExpressionStatement(e, g).value.out;
      |g.out| <= |out| && out[..|g.out|] == g.out &&
      exists lines | LogLines(lines, GenAll(e.arguments).value) ::
        |out| == |g.out| + |lines| &&
        forall i | 0 <= i < |lines| :: out[|g.out| + i] == Indentation(g.indent) + lines[i]
  {
    var codes := GenAll(e.arguments).value;
    var lines := PrintLines(codes) + [EndLine];
    PrintLinesShape(codes);
    ExtendsEmitAll(g, lines);
    assert ExpressionStatement(e, g) == Ok(EmitAll(g, lines));
  }

  // ---------------------------------------------------------------------------------
  // Blocks and for headers

  /** A block is `{`, its statements one level deeper, and `}`, and it leaves the
      indentation level where it found it. */
  lemma BlockLayout(m: Node, g: Gen, pick: nat -> nat)
    requires m.BlockStatementNode? && Typed(m)
    ensures var r := BlockStatement(m, g, pick);
      r.Ok? ==>
        r.value.indent == g.indent && |r.value.out| >= |g.out| + 2 &&
        r.value.out[..|g.out|] == g.out &&
        r.value.out[|g.out|] == Indentation(g.indent) + "{" &&
        r.value.out[|r.value.out| - 1] == Indentation(g.indent) + "}" &&
        forall i | |g.out| < i < |r.value.out| - 1 :: Indentation(g.indent + 1) <= r.value.out[i]
  {
    var open := Emit(g, "{");
    var inner := VisitAll(m.body, open.(indent := g.indent + 1), pick);
    if inner.Ok? {
      var h := inner.value;
      var close := h.(indent := h.indent - 1);
      assert BlockStatement(m, g, pick) == Ok(Emit(close, "}"));
      var out := Emit(close, "}").out;
      assert out[..|h.out|] == h.out;
      assert h.out[..|open.out|] == open.out;
      forall i | |g.out| < i < |out| - 1
        ensures Indentation(g.indent + 1) <= out[i]
      {
        assert out[i] == h.out[i];
      }
    }
  }

  /** A `for` header never consults the declared names: the header line is the same
      whatever has been declared, and a `for` with an empty body declares nothing, even
      when it starts with `let`. */
  lemma ForIgnoresDeclared(m: Node, g: Gen, d: set<string>, pick: nat -> nat)
    requires m.ForStatementNode? && Typed(m)
    ensures var r1, r2 := ForStatement(m, g, pick), ForStatement(m, g.(declared := d), pick);
      r1.Ok? && r2.Ok? ==>
        |r1.value.out| > |g.out| && |r2.value.out| > |g.out| && r1.value.out[|g.out|] == r2.value.out[|g.out|]
    ensures var r := ForStatement(m, g, pick);
      r.Ok? && m.block.body == [] ==> r.value.declared == g.declared && |r.value.out| == |g.out| + 3
    ensures var r := ForStatement(m, g, pick);
      r.Ok? ==> ForHeader(m.init, m.condition, m.update).Ok? && |r.value.out| > |g.out| &&
                r.value.out[|g.out|] == Indentation(g.indent) + ("for (" + ForHeader(m.init, m.condition, m.update).value + ")")
  {
    var header := ForHeader(m.init, m.condition, m.update);
    if header.Ok? {
      var line := "for (" + header.value + ")";
      var r1 := Visit(m.block, Emit(g, line), pick);
      var r2 := Visit(m.block, Emit(g.(declared := d), line), pick);
      if r1.Ok? {
        FirstNewLine(g, line, r1.value);
      }
      if r2.Ok? {
        FirstNewLine(g.(declared := d), line, r2.value);
      }
      if m.block.body == [] {
        EmptyBlock(m.block, Emit(g, line), pick);
      }
    }
  }

  /** `first(x);` as a statement never generates: `FirstExpression` emits its lines, and
      then the statement lowers its own expression, for which lowering has no case. */
  lemma FirstStatementFails(x: Node, g: Gen, pick: nat -> nat)
    requires Typed(x)
    ensures var n := ExpressionStatementNode(FirstExpressionNode(x));
      Visit(n, g, pick).Err? && Visit(n, g, pick).error.Unsupported?
  {
    var f := FirstExpressionNode(x);
    var n := ExpressionStatementNode(f);
    assert Accept(n) == [f, n];
    assert Visit(n, g, pick) == RunMethods([f, n], Size(n), g, pick);
    var h := FirstExpression(x, g, pick);
    if h.Ok? {
      assert !Supported(f) && !IsConsoleLog(f);
      assert GenExpression(f).error.Unsupported?;
      assert Method(n, h.value, pick) == ExpressionStatement(f, h.value) == Err(GenExpression(f).error);
      assert RunMethods([f, n][1..], Size(n), h.value, pick) == Err(GenExpression(f).error);
      assert Method(f, g, pick) == h;
      assert RunMethods([f, n], Size(n), g, pick) == Err(GenExpression(f).error);
    } else {
      assert RunMethods([f, n], Size(n), g, pick) == h;
    }
  }

  /** A unary operation lowers to the operator before its argument's lowering, parenthesised. */
  lemma UnaryText(op: string, a: Node)
    requires Typed(a) && Supported(a)
    ensures GenExpression(UnaryExpressionNode(op, a)) == Ok("(" + op + GenExpression(a).value + ")")
  {
    assert GenExpression(UnaryExpressionNode(op, a)) == GenOperation(UnaryExpressionNode(op, a));
  }

  /** A binary operation lowers to its operands' lowerings, spaced and parenthesised. */
  lemma BinaryText(op: string, l: Node, r: Node)
    requires Typed(l) && Typed(r) && Supported(l) && Supported(r)
    ensures GenExpression(BinaryExpressionNode(op, l, r))
         == Ok("(" + GenExpression(l).value + " " + op + " " + GenExpression(r).value + ")")
  {
    assert GenExpression(BinaryExpressionNode(op, l, r)) == GenOperation(BinaryExpressionNode(op, l, r));
  }

  /** A one-digit number and an identifier lower to their own spelling. */
  lemma LeafTexts(name: string, v: nat, c: char)
    requires v < 10 && c == DigitChar(v)
    ensures GenExpression(IdentifierNode(name)) == Ok(name)
    ensures GenExpression(NumericLiteralNode(v)) == Ok([c])
  {
  }

  /** `i < 5` lowers to `(i < 5)`. */
  lemma LessText()
    ensures GenExpression(BinaryExpressionNode("<", IdentifierNode("i"), NumericLiteralNode(5))) == Ok("(i < 5)")
  {
    LeafTexts("i", 5, '5');
    BinaryText("<", IdentifierNode("i"), NumericLiteralNode(5));
    assert "(" + "i" + " " + "<" + " " + ['5'] + ")" == "(i < 5)";
  }

  /** `i + 1` lowers to `(i + 1)`. */
  lemma PlusText()
    ensures GenExpression(BinaryExpressionNode("+", IdentifierNode("i"), NumericLiteralNode(1))) == Ok("(i + 1)")
  {
    LeafTexts("i", 1, '1');
    BinaryText("+", IdentifierNode("i"), NumericLiteralNode(1));
    assert "(" + "i" + " " + "+" + " " + ['1'] + ")" == "(i + 1)";
  }

  /** An assignment lowers to its target, ` = `, and its value, unparenthesised. */
  lemma AssignText(l: Node, r: Node)
    requires Typed(l) && Typed(r) && Supported(l) && Supported(r)
    ensures GenExpression(AssignmentExpressionNode(l, r))
         == Ok(GenExpression(l).value + " = " + GenExpression(r).value)
  {
    assert GenExpression(AssignmentExpressionNode(l, r)) == GenOperation(AssignmentExpressionNode(l, r));
  }

  /** `i = i + 1` lowers to `i = (i + 1)`. */
  lemma StepText()
    ensures GenExpression(AssignmentExpressionNode(IdentifierNode("i"), BinaryExpressionNode("+", IdentifierNode("i"), NumericLiteralNode(1))))
         == Ok("i = (i + 1)")
  {
    PlusText();
    LeafTexts("i", 1, '1');
    AssignText(IdentifierNode("i"), BinaryExpressionNode("+", IdentifierNode("i"), NumericLiteralNode(1)));
    assert "i" + " = " + "(i + 1)" == "i = (i + 1)";
  }

  /** `i = i + 1;` emits the line `i = (i + 1);`. */
  lemma StepStatement(g: Gen)
    ensures var e := AssignmentExpressionNode(IdentifierNode("i"), BinaryExpressionNode("+", IdentifierNode("i"), NumericLiteralNode(1)));
      Typed(e) && ExpressionStatement(e, g).Ok? &&
      ExpressionStatement(e, g).value.out == g.out + [Indentation(g.indent) + ("i = (i + 1)" + ";")]
  {
    StepText();
  }

  /** A counting header: `int`, the declared name and its start value, then the test and the step. */
  lemma ForHeaderText(x: string, v: Node, test: Node, update: Node)
    requires Typed(v) && Typed(test) && Typed(update)
    requires Supported(v) && Supported(test) && Supported(update)
    ensures ForHeader(Some(VariableDeclarationNode(IdentifierNode(x), Some(v))), Some(test), Some(update)) ==
            Ok(("int " + x + " = " + GenExpression(v).value) + "; " + GenExpression(test).value + "; " + GenExpression(update).value)
  {
  }

  /** The header of `for (let i = 0; i < 5; i = i + 1)`. */
  lemma CountingHeader()
    ensures var i := IdentifierNode("i");
            ForHeader(Some(VariableDeclarationNode(i, Some(NumericLiteralNode(0)))),
                      Some(BinaryExpressionNode("<", i, NumericLiteralNode(5))),
                      Some(AssignmentExpressionNode(i, BinaryExpressionNode("+", i, NumericLiteralNode(1))))) ==
            Ok("int i = 0" + "; " + "(i < 5)" + "; " + "i = (i + 1)")
  {
    LeafTexts("i", 0, '0');
    LessText();
    StepText();
    ForHeaderText("i", NumericLiteralNode(0), BinaryExpressionNode("<", IdentifierNode("i"), NumericLiteralNode(5)),
                  AssignmentExpressionNode(IdentifierNode("i"), BinaryExpressionNode("+", IdentifierNode("i"), NumericLiteralNode(1))));
    assert "int " + "i" + " = " + ['0'] == "int i = 0";
  }

  /** A function declaration emits `int name(int p1, int p2, ...)` as its first line. */
  lemma FunctionHeader(m: Node, g: Gen, pick: nat -> nat)
    requires m.FunctionDeclarationNode? && Typed(m)
    ensures var r := FunctionDeclaration(m, g, pick);
      r.Ok? ==> |r.value.out| > |g.out| &&
                r.value.out[|g.out|] == Indentation(g.indent) + ("int " + m.id.name + "(" + Join(ParameterTexts(m.params), ", ") + ")")
  {
    var header := Signature(m);
    var r := Visit(m.block, Emit(g, header), pick);
    if r.Ok? {
      FirstNewLine(g, header, r.value);
    }
  }

  /** `function add(a, b)` emits `int add(int a, int b)`. */
  lemma AddHeader(block: Node, g: Gen, pick: nat -> nat)
    requires IsBlock(block) && Typed(block)
    ensures var m := FunctionDeclarationNode(IdentifierNode("add"), [IdentifierNode("a"), IdentifierNode("b")], block);
      Typed(m) &&
      (FunctionDeclaration(m, g, pick).Ok? ==>
        FunctionDeclaration(m, g, pick).value.out[|g.out|] == Indentation(g.indent) + "int add(int a, int b)")
  {
    var m := FunctionDeclarationNode(IdentifierNode("add"), [IdentifierNode("a"), IdentifierNode("b")], block);
    AddSignature(block);
    FunctionHeader(m, g, pick);
  }

  /** The signature of `function add(a, b)`. */
  lemma AddSignature(block: Node)
    requires IsBlock(block) && Typed(block)
    ensures var m := FunctionDeclarationNode(IdentifierNode("add"), [IdentifierNode("a"), IdentifierNode("b")], block);
      Typed(m) && Signature(m) == "int add(int a, int b)"
  {
    var ps := [IdentifierNode("a"), IdentifierNode("b")];
    var m := FunctionDeclarationNode(IdentifierNode("add"), ps, block);
    assert Typed(m);
    var ts := ParameterTexts(ps);
    assert |ts| == 2 && ts[0] == "int a" && ts[1] == "int b";
    assert ts[1..] == ["int b"];
    assert Join(ts, ", ") == "int a" + ", " + "int b";
    assert "int " + "add" + "(" + ("int a" + ", " + "int b") + ")" == "int add(int a, int b)";
  }


  /** After emitting `line`, it stays the first new line whatever follows. */
  lemma FirstNewLine(g: Gen, line: string, h: Gen)
    requires Extends(Emit(g, line), h)
    ensures |h.out| > |g.out| && h.out[|g.out|] == Indentation(g.indent) + line
  {
    assert h.out[..|g.out| + 1] == Emit(g, line).out;
    assert h.out[|g.out|] == h.out[..|g.out| + 1][|g.out|];
  }

  /** An empty block emits its two braces and declares nothing. */
  lemma EmptyBlock(b: Node, g: Gen, pick: nat -> nat)
    requires b.BlockStatementNode? && b.body == []
    ensures Visit(b, g, pick).Ok?
    ensures Visit(b, g, pick).value.declared == g.declared && |Visit(b, g, pick).value.out| == |g.out| + 2
  {
    VisitLeaf(b, g, pick);
    assert Visit(b, g, pick) == BlockStatement(b, g, pick);
    assert VisitAll([], Emit(g, "{").(indent := g.indent + 1), pick) == Ok(Emit(g, "{").(indent := g.indent + 1));
  }

  // ---------------------------------------------------------------------------------
  // Program layout

  /** Statements other than function declarations add nothing to the function section. */
  lemma {:induction false} HoistSkips(ns: seq<Node>, g: Gen, pick: nat -> nat)
    requires forall i | 0 <= i < |ns| :: Typed(ns[i]) && !ns[i].FunctionDeclarationNode?
    ensures HoistFunctions(ns, g, pick) == Ok(g)
    decreases |ns|
  {
    if |ns| > 0 {
      HoistSkips(ns[1..], g, pick);
    }
  }

  /** Function declarations add nothing to `main`. */
  lemma {:induction false} MainSkips(ns: seq<Node>, g: Gen, pick: nat -> nat)
    requires forall i | 0 <= i < |ns| :: Typed(ns[i]) && ns[i].FunctionDeclarationNode?
    ensures MainStatements(ns, g, pick) == Ok(g)
    decreases |ns|
  {
    if |ns| > 0 {
      MainSkips(ns[1..], g, pick);
    }
  }

  /** The frame of a generated program with prelude `pre` whose `main` opens at line `k`:
      the prelude first, `int main() {` at `k`, everything after it indented by at least
      one level up to `  return 0;`, and `}` last. */
  predicate Framed(out: seq<string>, pre: seq<string>, k: nat) {
    |pre| <= k < |out| - 2 && out[..|pre|] == pre && out[k] == "int main() {" &&
    out[|out| - 2] == "  return 0;" && out[|out| - 1] == "}" &&
    forall i | k < i < |out| - 1 :: Indentation(1) <= out[i]
  }

  /** The tail of `Program`: whatever the main statements emitted, closing `main` frames
      the output. */
  lemma MainFrame(f: Gen, pre: seq<string>, main: Gen)
    requires f.indent == 0 && |f.out| >= |pre| && f.out[..|pre|] == pre
    requires Extends(EnterMain(f), main)
    ensures Framed(LeaveMain(main, 0).out, pre, |f.out|)
  {
    var open := Emit(f, "int main() {");
    var out := LeaveMain(main, 0).out;
    var k := |f.out|;
    assert out[..|main.out|] == main.out;
    assert main.out[..|open.out|] == open.out;
    assert out[..|pre|] == main.out[..|open.out|][..|f.out|][..|pre|];
    assert out[k] == open.out[k] == "int main() {";
    assert out[|out| - 2] == "  return 0;";
    forall i | k < i < |out| - 1
      ensures Indentation(1) <= out[i]
    {
      if i < |main.out| {
        assert out[i] == main.out[i];
      }
    }
  }

  /** The generated program: the prelude, the function section, `int main() {`, the main
      statements indented by at least one level, `  return 0;` and `}`. Without function
      declarations, `main` follows the prelude directly. */
  lemma ProgramLayout(p: Node, pick: nat -> nat)
    requires p.ProgramNode? && Typed(p)
    ensures Lines(p, pick).Ok? ==> exists k :: Framed(Lines(p, pick).value, Prelude(), k)
    ensures Lines(p, pick).Ok? && (forall i | 0 <= i < |p.body| :: !p.body[i].FunctionDeclarationNode?) ==>
      Framed(Lines(p, pick).value, Prelude(), |Prelude()|)
  {
    var prelude := EmitAll(Fresh, Prelude());
    var functions := HoistFunctions(p.body, prelude, pick);
    LinesSteps(p, pick);
    if Lines(p, pick).Ok? {
      var f := functions.value;
      PreludeLines();
      assert f.out[..|Prelude()|] == Prelude();
      MainFrame(f, Prelude(), MainStatements(p.body, EnterMain(f), pick).value);
      if forall i | 0 <= i < |p.body| :: !p.body[i].FunctionDeclarationNode? {
        HoistSkips(p.body, prelude, pick);
      }
    }
  }

  /** The three stages of `Program` on a fresh generator. */
  lemma LinesSteps(p: Node, pick: nat -> nat)
    requires p.ProgramNode? && Typed(p)
    ensures var functions := HoistFunctions(p.body, EmitAll(Fresh, Prelude()), pick);
      Lines(p, pick).Ok? ==>
        functions.Ok? && MainStatements(p.body, EnterMain(functions.value), pick).Ok? &&
        Lines(p, pick).value == LeaveMain(MainStatements(p.body, EnterMain(functions.value), pick).value, 0).out
  {
  }

  /** The prelude is emitted at the left margin, line for line. */
  lemma PreludeLines()
    ensures EmitAll(Fresh, Prelude()).out == Prelude()
    ensures EmitAll(Fresh, Prelude()).indent == 0
  {
    EmitAllAtMargin(Fresh, Prelude());
  }

  lemma {:induction false} EmitAllAtMargin(g: Gen, lines: seq<string>)
    requires g.indent == 0
    ensures EmitAll(g, lines).out == g.out + lines
    ensures EmitAll(g, lines).indent == 0
    decreases |lines|
  {
    if |lines| > 0 {
      assert Indentation(0) + lines[0] == lines[0];
      EmitAllAtMargin(Emit(g, lines[0]), lines[1..]);
      assert g.out + [lines[0]] + lines[1..] == g.out + lines;
    }
  }
}
