/** Properties of the C++ generator: full parenthesisation of operators, literal and
    container lowering, `let` deduplication, the `for` header, the `console.log` line
    pattern, and the layout of blocks and of the whole program. */
module CodegenProps {
  import opened Wrappers
  import opened Ast
  import opened Numerals
  import opened Codegen

  // ---------------------------------------------------------------------------------
  // Parenthesis depth

  function Delta(c: char): int {
    if c == '(' then 1 else if c == ')' then -1 else 0
  }

  /** Opening minus closing parentheses. */
  function Depth(s: string): int
    decreases |s|
  {
    if |s| == 0 then 0 else Depth(s[..|s| - 1]) + Delta(s[|s| - 1])
  }

  predicate ParenFree(s: string) {
    forall i | 0 <= i < |s| :: s[i] != '(' && s[i] != ')'
  }

  /** Every `(` is closed by a later `)` and every `)` closes an earlier `(`. */
  predicate Balanced(s: string) {
    Depth(s) == 0 && forall k | 0 <= k <= |s| :: Depth(s[..k]) >= 0
  }

  /** One parenthesised group: `s` opens with `(` and that parenthesis closes only at the
      very end. */
  predicate Wrapped(s: string) {
    |s| >= 2 && s[0] == '(' && Balanced(s) && forall k | 1 <= k < |s| :: Depth(s[..k]) >= 1
  }

  lemma {:induction false} DepthConcat(a: string, b: string)
    ensures Depth(a + b) == Depth(a) + Depth(b)
    decreases |b|
  {
    if |b| == 0 {
      assert a + b == a;
    } else {
      assert (a + b)[..|a + b| - 1] == a + b[..|b| - 1];
      DepthConcat(a, b[..|b| - 1]);
    }
  }

  lemma {:induction false} PlainDepth(s: string)
    requires ParenFree(s)
    ensures Depth(s) == 0
    decreases |s|
  {
    if |s| > 0 {
      PlainDepth(s[..|s| - 1]);
    }
  }

  lemma PlainBalanced(s: string)
    requires ParenFree(s)
    ensures Balanced(s)
  {
    PlainDepth(s);
    forall k | 0 <= k <= |s|
      ensures Depth(s[..k]) >= 0
    {
      PlainDepth(s[..k]);
    }
  }

  lemma BalancedConcat(a: string, b: string)
    requires Balanced(a) && Balanced(b)
    ensures Balanced(a + b)
  {
    DepthConcat(a, b);
    forall k | 0 <= k <= |a + b|
      ensures Depth((a + b)[..k]) >= 0
    {
      if k <= |a| {
        assert (a + b)[..k] == a[..k];
      } else {
        assert (a + b)[..k] == a + b[..k - |a|];
        DepthConcat(a, b[..k - |a|]);
      }
    }
  }

  lemma WrapBalanced(t: string)
    requires Balanced(t)
    ensures Wrapped("(" + t + ")")
  {
    var s := "(" + t + ")";
    DepthConcat("(" + t, ")");
    DepthConcat("(", t);
    forall k | 1 <= k < |s|
      ensures Depth(s[..k]) >= 1
    {
      assert s[..k] == "(" + t[..k - 1];
      DepthConcat("(", t[..k - 1]);
    }
    assert s[..|s|] == s;
  }

  lemma WrappedBalanced(s: string)
    requires Wrapped(s)
    ensures Balanced(s)
  {
  }

  lemma {:induction false} JoinBalanced(parts: seq<string>, sep: string)
    requires forall i | 0 <= i < |parts| :: Balanced(parts[i])
    requires ParenFree(sep)
    ensures Balanced(Join(parts, sep))
    decreases |parts|
  {
    if |parts| == 0 {
      PlainBalanced("");
    } else if |parts| > 1 {
      JoinBalanced(parts[1..], sep);
      PlainBalanced(sep);
      BalancedConcat(parts[0], sep);
      BalancedConcat(parts[0] + sep, Join(parts[1..], sep));
    }
  }

  lemma PlainConcat(a: string, b: string)
    requires ParenFree(a) && ParenFree(b)
    ensures ParenFree(a + b)
  {
    assert forall i | |a| <= i < |a + b| :: (a + b)[i] == b[i - |a|];
  }

  /** The fixed fragments the generator wraps around expressions. */
  lemma FragmentsParenFree()
    ensures ParenFree(AnyCast) && ParenFree("[\"") && ParenFree("\"]")
    ensures ParenFree("std::vector<std::any>{") && ParenFree(MapType + "{")
    ensures ParenFree("{\"") && ParenFree("\", ") && ParenFree("}")
  {
    assert ParenFree(MapType);
    PlainConcat("std::any_cast<", MapType);
    PlainConcat("std::any_cast<" + MapType, "&>");
    PlainConcat(MapType, "{");
  }

  /** Balanced text between parenthesis-free delimiters stays balanced. */
  lemma Enclosed(open: string, body: string, close: string)
    requires ParenFree(open) && Balanced(body) && ParenFree(close)
    ensures Balanced(open + body + close)
  {
    PlainBalanced(open);
    PlainBalanced(close);
    BalancedConcat(open, body);
    BalancedConcat(open + body, close);
  }

  lemma InfixWrapped(l: string, op: string, r: string)
    requires Balanced(l) && ParenFree(op) && Balanced(r)
    ensures Wrapped("(" + l + " " + op + " " + r + ")")
  {
    var mid := " " + op + " ";
    PlainConcat(" ", op);
    PlainConcat(" " + op, " ");
    PlainBalanced(mid);
    BalancedConcat(l, mid);
    BalancedConcat(l + mid, r);
    WrapBalanced(l + mid + r);
    assert "(" + l + " " + op + " " + r + ")" == "(" + (l + mid + r) + ")";
  }

  lemma PrefixWrapped(op: string, a: string)
    requires ParenFree(op) && Balanced(a)
    ensures Wrapped("(" + op + a + ")")
  {
    PlainBalanced(op);
    BalancedConcat(op, a);
    WrapBalanced(op + a);
    assert "(" + op + a + ")" == "(" + (op + a) + ")";
  }

  lemma AssignBalanced(l: string, r: string)
    requires Balanced(l) && Balanced(r)
    ensures Balanced(l + " = " + r)
  {
    PlainBalanced(" = ");
    BalancedConcat(l, " = ");
    BalancedConcat(l + " = ", r);
  }

  lemma CallBalanced(c: string, args: string)
    requires Balanced(c) && Balanced(args)
    ensures Balanced(c + "(" + args + ")")
  {
    WrapBalanced(args);
    BalancedConcat(c, "(" + args + ")");
    assert c + "(" + args + ")" == c + ("(" + args + ")");
  }

  lemma IndexBalanced(o: string, p: string)
    requires Balanced(o) && Balanced(p)
    ensures Balanced(o + "[" + p + "]")
  {
    PlainBalanced("[");
    PlainBalanced("]");
    BalancedConcat(o, "[");
    BalancedConcat(o + "[", p);
    BalancedConcat(o + "[" + p, "]");
  }

  lemma CastBalanced(o: string, name: string)
    requires Balanced(o) && ParenFree(name)
    ensures Balanced(AnyCast + "(" + o + ")[\"" + name + "\"]")
  {
    FragmentsParenFree();
    PlainConcat("[\"", name);
    PlainConcat("[\"" + name, "\"]");
    WrapBalanced(o);
    Enclosed(AnyCast, "(" + o + ")", "[\"" + name + "\"]");
    assert AnyCast + "(" + o + ")[\"" + name + "\"]" == AnyCast + ("(" + o + ")") + ("[\"" + name + "\"]");
  }

  lemma StringBalanced(text: string)
    requires ParenFree(text)
    ensures Balanced("std::string(\"" + text + "\")")
  {
    PlainConcat("\"", text);
    PlainConcat("\"" + text, "\"");
    PlainBalanced("\"" + text + "\"");
    WrapBalanced("\"" + text + "\"");
    PlainBalanced("std::string");
    BalancedConcat("std::string", "(" + ("\"" + text + "\"") + ")");
    assert "std::string(\"" + text + "\")" == "std::string" + ("(" + ("\"" + text + "\"") + ")");
  }

  /** An object entry is balanced when its key is free of parentheses and its value is
      balanced. */
  lemma EntryBalanced(key: Node, value: string)
    requires key.IdentifierNode? || key.StringLiteralNode?
    requires ParenFree(if key.IdentifierNode? then key.name else key.text) && Balanced(value)
    ensures Balanced(Entry(key, value))
  {
    var k := if key.IdentifierNode? then key.name else key.text;
    FragmentsParenFree();
    PlainConcat("{\"", k);
    PlainConcat("{\"" + k, "\", ");
    Enclosed("{\"" + k + "\", ", value, "}");
  }

  /** The names, operators and string texts of an expression contain no parentheses. */
  predicate Clean(n: Node)
    decreases n
  {
    match n
    case IdentifierNode(name) => ParenFree(name)
    case StringLiteralNode(text) => ParenFree(text)
    case AssignmentExpressionNode(l, r) => Clean(l) && Clean(r)
    case UnaryExpressionNode(op, a) => ParenFree(op) && Clean(a)
    case BinaryExpressionNode(op, l, r) => ParenFree(op) && Clean(l) && Clean(r)
    case LogicalExpressionNode(op, l, r) => ParenFree(op) && Clean(l) && Clean(r)
    case CallExpressionNode(c, args) => Clean(c) && forall i | 0 <= i < |args| :: Clean(args[i])
    case MemberExpressionNode(o, p, _) => Clean(o) && Clean(p)
    case ArrayExpressionNode(es) => forall i | 0 <= i < |es| :: Clean(es[i])
    case ObjectExpressionNode(ps) =>
      forall i | 0 <= i < |ps| :: ps[i].PropertyNode? && Clean(ps[i].key) && Clean(ps[i].value)
    case _ => true
  }

  predicate IsOperation(n: Node) {
    n.UnaryExpressionNode? || n.BinaryExpressionNode? || n.LogicalExpressionNode?
  }

  lemma DigitsParenFree(s: string)
    requires AllDigits(s)
    ensures ParenFree(s)
  {
  }

  // ---------------------------------------------------------------------------------
  // Full parenthesisation

  /** Every operator application is printed as one parenthesised group, and the whole
      text is balanced, as long as the names and texts in it carry no parentheses of
      their own. */
  lemma {:induction false} Parenthesised(n: Node)
    requires Typed(n) && Supported(n) && Clean(n)
    ensures GenExpression(n).Ok?
    ensures Balanced(GenExpression(n).value)
    ensures IsOperation(n) ==> Wrapped(GenExpression(n).value)
    decreases Size(n), 1
  {
    match n
    case IdentifierNode(name) => PlainBalanced(name);
    case NumericLiteralNode(v) => PlainBalanced(DecimalText(v));
    case StringLiteralNode(text) => StringBalanced(text);
    case BooleanLiteralNode(b) => PlainBalanced(if b then "true" else "false");
    case AssignmentExpressionNode(_, _) => ParenthesisedOperation(n);
    case UnaryExpressionNode(_, _) => ParenthesisedOperation(n);
    case BinaryExpressionNode(_, _, _) => ParenthesisedOperation(n);
    case LogicalExpressionNode(_, _, _) => ParenthesisedOperation(n);
    case CallExpressionNode(_, _) => ParenthesisedCall(n);
    case MemberExpressionNode(_, _, _) => ParenthesisedMember(n);
    case ArrayExpressionNode(_) => ParenthesisedContainer(n);
    case ObjectExpressionNode(_) => ParenthesisedContainer(n);
  }

  lemma {:induction false} ParenthesisedOperation(n: Node)
    requires IsOperator(n) && Typed(n) && Supported(n) && Clean(n)
    ensures GenOperation(n).Ok?
    ensures Balanced(GenOperation(n).value)
    ensures IsOperation(n) ==> Wrapped(GenOperation(n).value)
    decreases Size(n), 0
  {
    if n.UnaryExpressionNode? {
      Parenthesised(n.argument);
      PrefixWrapped(n.operator, GenExpression(n.argument).value);
    } else {
      Parenthesised(n.left);
      Parenthesised(n.right);
      var l, r := GenExpression(n.left).value, GenExpression(n.right).value;
      if n.AssignmentExpressionNode? {
        AssignBalanced(l, r);
      } else {
        InfixWrapped(l, n.operator, r);
      }
    }
  }

  lemma {:induction false} ParenthesisedCall(n: Node)
    requires n.CallExpressionNode? && Typed(n) && Supported(n) && Clean(n)
    ensures GenCall(n).Ok? && Balanced(GenCall(n).value)
    decreases Size(n), 0
  {
    Parenthesised(n.callee);
    ParenthesisedAll(n.arguments);
    JoinBalanced(GenAll(n.arguments).value, ", ");
    CallBalanced(GenExpression(n.callee).value, Join(GenAll(n.arguments).value, ", "));
  }

  lemma {:induction false} ParenthesisedMember(n: Node)
    requires n.MemberExpressionNode? && Typed(n) && Supported(n) && Clean(n)
    ensures GenMember(n).Ok? && Balanced(GenMember(n).value)
    decreases Size(n), 0
  {
    Parenthesised(n.obj);
    if n.computed {
      Parenthesised(n.property);
      IndexBalanced(GenExpression(n.obj).value, GenExpression(n.property).value);
    } else {
      CastBalanced(GenExpression(n.obj).value, n.property.name);
    }
  }

  lemma {:induction false} ParenthesisedContainer(n: Node)
    requires (n.ArrayExpressionNode? || n.ObjectExpressionNode?) && Typed(n) && Supported(n) && Clean(n)
    ensures GenContainer(n).Ok? && Balanced(GenContainer(n).value)
    decreases Size(n), 0
  {
    FragmentsParenFree();
    if n.ArrayExpressionNode? {
      ParenthesisedAll(n.elements);
      JoinBalanced(GenAll(n.elements).value, ", ");
      Enclosed("std::vector<std::any>{", Join(GenAll(n.elements).value, ", "), "}");
    } else {
      ParenthesisedProperties(n.properties);
      JoinBalanced(GenProperties(n.properties).value, ", ");
      Enclosed(MapType + "{", Join(GenProperties(n.properties).value, ", "), "}");
    }
  }

  lemma {:induction false} ParenthesisedAll(ns: seq<Node>)
    requires forall i | 0 <= i < |ns| :: Typed(ns[i]) && Supported(ns[i]) && Clean(ns[i])
    ensures GenAll(ns).Ok?
    ensures forall i | 0 <= i < |ns| :: Balanced(GenAll(ns).value[i])
    decreases SizeAll(ns), 2
  {
    if |ns| > 0 {
      SizeAllBounds(ns, 0);
      Parenthesised(ns[0]);
      ParenthesisedAll(ns[1..]);
    }
  }

  lemma {:induction false} ParenthesisedProperties(ps: seq<Node>)
    requires forall i | 0 <= i < |ps| :: ps[i].PropertyNode? && Typed(ps[i])
    requires forall i | 0 <= i < |ps| :: Supported(ps[i].value) && Clean(ps[i].key) && Clean(ps[i].value)
    ensures GenProperties(ps).Ok?
    ensures forall i | 0 <= i < |ps| :: Balanced(GenProperties(ps).value[i])
    decreases SizeAll(ps), 2
  {
    if |ps| > 0 {
      assert Typed(ps[0]);
      SizeAllBounds(ps, 0);
      Parenthesised(ps[0].value);
      ParenthesisedProperties(ps[1..]);
      EntryBalanced(ps[0].key, GenExpression(ps[0].value).value);
      assert GenEntry(ps[0]).value == Entry(ps[0].key, GenExpression(ps[0].value).value);
    }
  }

  // ---------------------------------------------------------------------------------
  // Literal and container lowering

  /** A number prints in decimal, and the digits read back as the number. */
  lemma NumberLowering(v: nat)
    ensures GenExpression(NumericLiteralNode(v)).Ok?
    ensures AllDigits(GenExpression(NumericLiteralNode(v)).value)
    ensures DecimalValue(GenExpression(NumericLiteralNode(v)).value) == v
  {
    DecimalRoundTrip(v);
  }

  /** A string's text sits verbatim between `std::string("` and `")`: nothing is escaped. */
  lemma StringLowering(text: string)
    ensures var c := GenExpression(StringLiteralNode(text)).value;
      GenExpression(StringLiteralNode(text)).Ok? && |c| == |text| + 15 &&
      c[..13] == "std::string(\"" && c[13..13 + |text|] == text && c[13 + |text|..] == "\")"
  {
    var c := GenExpression(StringLiteralNode(text)).value;
    assert c == "std::string(\"" + text + "\")";
    assert c[..13] == "std::string(\"";
    assert c[13..13 + |text|] == text;
    assert c[13 + |text|..] == "\")";
  }

  /** Different string literals lower to different C++ text: the lowering loses nothing. */
  lemma StringLoweringInjective(a: string, b: string)
    ensures GenExpression(StringLiteralNode(a)) == GenExpression(StringLiteralNode(b)) <==> a == b
  {
    if GenExpression(StringLiteralNode(a)) == GenExpression(StringLiteralNode(b)) {
      StringLowering(a);
      StringLowering(b);
    }
  }

  /** The elements of an array or the arguments of a call lower one by one, in order. */
  lemma {:induction false} GenAllElements(ns: seq<Node>)
    requires forall i | 0 <= i < |ns| :: Typed(ns[i])
    ensures GenAll(ns).Ok? ==> forall i | 0 <= i < |ns| :: GenExpression(ns[i]) == Ok(GenAll(ns).value[i])
    decreases |ns|
  {
    if |ns| > 0 && GenAll(ns).Ok? {
      GenAllElements(ns[1..]);
      assert GenAll(ns).value == [GenExpression(ns[0]).value] + GenAll(ns[1..]).value;
      forall i | 1 <= i < |ns|
        ensures GenExpression(ns[i]) == Ok(GenAll(ns).value[i])
      {
        assert ns[i] == ns[1..][i - 1];
      }
    }
  }

  lemma ConsIndex<T>(all: seq<T>, head: T, tail: seq<T>, i: nat)
    requires all == [head] + tail && 1 <= i < |all|
    ensures all[i] == tail[i - 1]
  {
  }

  /** An object's entries keep the source order of its properties. */
  lemma {:induction false} GenPropertiesElements(ps: seq<Node>)
    requires forall i | 0 <= i < |ps| :: ps[i].PropertyNode? && Typed(ps[i])
    ensures GenProperties(ps).Ok? ==> forall i | 0 <= i < |ps| :: GenEntry(ps[i]) == Ok(GenProperties(ps).value[i])
    decreases |ps|
  {
    if |ps| > 0 && GenProperties(ps).Ok? {
      var all, rest := GenProperties(ps).value, GenProperties(ps[1..]);
      GenPropertiesElements(ps[1..]);
      assert GenEntry(ps[0]).Ok? && rest.Ok?;
      var head, tail := GenEntry(ps[0]).value, rest.value;
      assert all == [head] + tail;
      assert GenEntry(ps[0]) == Ok(all[0]);
      forall i | 1 <= i < |ps|
        ensures GenEntry(ps[i]) == Ok(all[i])
      {
        ConsIndex(ps, ps[0], ps[1..], i);
        ConsIndex(all, head, tail, i);
      }
    }
  }
}
