/** Properties of the parser that relate several of its functions: precedence climbing
    against an independent reference tree. */
module ParserProps {
  import opened Wrappers
  import opened Tokens
  import Lexer
  import opened Ast
  import opened Grammar
  import opened Parser

  /** The binding strengths of a list of operators. */
  function Levels(ops: seq<Kind>): (lv: seq<nat>)
    ensures |lv| == |ops|
    decreases |ops|
  {
    if |ops| == 0 then [] else [Precedence(ops[0])] + Levels(ops[1..])
  }

  lemma {:induction false} LevelAt(ops: seq<Kind>, i: nat)
    requires i < |ops|
    ensures Levels(ops)[i] == Precedence(ops[i])
    decreases i
  {
    if i > 0 {
      LevelAt(ops[1..], i - 1);
    }
  }

  /** Among levels `lo .. hi-1`, the position of the rightmost of the lowest. */
  function Split(lv: seq<nat>, lo: nat, hi: nat): (j: nat)
    requires lo < hi <= |lv|
    ensures lo <= j < hi
    ensures forall k | lo <= k < hi :: lv[j] <= lv[k]
    ensures forall k | j < k < hi :: lv[j] < lv[k]
    decreases hi
  {
    if hi == lo + 1 then lo
    else
      var j := Split(lv, lo, hi - 1);
      if lv[hi - 1] <= lv[j] then hi - 1 else j
  }

  /** The first level at or after `i` that is at most `p`, or `|lv|` when there is none. */
  function Stop(lv: seq<nat>, i: nat, p: nat): (m: nat)
    requires i <= |lv|
    ensures i <= m <= |lv|
    ensures forall k | i <= k < m :: lv[k] > p
    ensures m < |lv| ==> lv[m] <= p
    decreases |lv| - i
  {
    if i == |lv| || lv[i] <= p then i else Stop(lv, i + 1, p)
  }

  /** Every operator is a binary or logical operator. */
  predicate Operators(ops: seq<Kind>) {
    forall i | 0 <= i < |Levels(ops)| :: Levels(ops)[i] > 0
  }

  predicate Operands(xs: seq<Node>) {
    forall i | 0 <= i < |xs| :: Expr(xs[i])
  }

  /** The reference tree of `x_lo op_lo … op_(hi-1) x_hi`: the root is the rightmost
      loosest operator. So a looser operator sits above a tighter one, and operators of
      one level group to the left. */
  function Reference(xs: seq<Node>, ops: seq<Kind>, lo: nat, hi: nat): (e: Node)
    requires |xs| == |ops| + 1 && Operands(xs) && Operators(ops) && lo <= hi <= |ops|
    ensures Expr(e)
    decreases hi - lo
  {
    if lo == hi then xs[lo]
    else
      var j := Split(Levels(ops), lo, hi);
      LevelAt(ops, j);
      Combine(ops[j], Reference(xs, ops, lo, j), Reference(xs, ops, j + 1, hi))
  }

  /** Where operand `i` starts: at `pos` for the first, one past the operator before it
      otherwise. */
  function Start(pos: nat, ends: seq<nat>, i: nat): nat
    requires i < |ends|
  {
    if i == 0 then pos else ends[i - 1] + 1
  }

  /** Operand `i` is what `parseCallMemberExpression` reads from its start, ending at
      `ends[i]`. */
  predicate OperandAt(s: Lexer.Stream, pos: nat, xs: seq<Node>, ends: seq<nat>, i: nat)
    requires |xs| == |ends| && i < |ends|
  {
    Valid(s, Start(pos, ends, i)) &&
    ParseCallMember(s, Start(pos, ends, i), true) == Ok(Parsed(xs[i], ends[i]))
  }

  /** Token `ends[i]` is operator `i`. */
  predicate OperatorAt(s: Lexer.Stream, ops: seq<Kind>, ends: seq<nat>, i: nat)
    requires i < |ops| && i < |ends|
  {
    ends[i] < |s.tokens| && s.tokens[ends[i]].kind == ops[i]
  }

  /** The tokens from `pos` on read `x0 op0 x1 op1 … xn` and then a token that is no
      binary or logical operator: each `x` is what `parseCallMemberExpression` reads, and
      operand `i` ends at the operator token `ops[i]`. */
  predicate Chain(s: Lexer.Stream, pos: nat, xs: seq<Node>, ops: seq<Kind>, ends: seq<nat>) {
    |xs| == |ops| + 1 && |ends| == |xs| &&
    (forall i | 0 <= i < |xs| :: OperandAt(s, pos, xs, ends, i)) &&
    (forall i | 0 <= i < |ops| :: OperatorAt(s, ops, ends, i)) &&
    Operators(ops) &&
    ends[|ops|] <= |s.tokens| && Precedence(Current(s, ends[|ops|])) == 0
  }

  /** Precedence climbing over a chain of operands and operators builds the reference
      tree and stops after the last operand. */
  lemma ParseBinaryChain(s: Lexer.Stream, pos: nat, xs: seq<Node>, ops: seq<Kind>, ends: seq<nat>)
    requires Chain(s, pos, xs, ops, ends)
    ensures Operands(xs) && Valid(s, pos)
    ensures ParseBinary(s, pos, 0) == Ok(Parsed(Reference(xs, ops, 0, |ops|), ends[|ops|]))
  {
    ChainOperands(s, pos, xs, ops, ends);
    BinaryChain(s, pos, xs, ops, ends, 0, 0, pos);
    StopSkips(Levels(ops), 0, |ops|, 0);
  }

  /** Operand `i` starts and ends at parser positions. */
  lemma OperandValid(s: Lexer.Stream, pos: nat, xs: seq<Node>, ops: seq<Kind>, ends: seq<nat>, i: nat)
    requires Chain(s, pos, xs, ops, ends) && i < |xs|
    ensures Valid(s, Start(pos, ends, i)) && Valid(s, ends[i])
  {
    assert OperandAt(s, pos, xs, ends, i);
  }

  /** The operands of a chain are expressions. */
  lemma ChainOperands(s: Lexer.Stream, pos: nat, xs: seq<Node>, ops: seq<Kind>, ends: seq<nat>)
    requires Chain(s, pos, xs, ops, ends)
    ensures Operands(xs) && Valid(s, pos)
  {
    forall i | 0 <= i < |xs| ensures Expr(xs[i]) {
      assert OperandAt(s, pos, xs, ends, i);
    }
    assert OperandAt(s, pos, xs, ends, 0);
  }

  /** Operand `i`, read from its start `q`. */
  lemma OperandRead(s: Lexer.Stream, pos: nat, xs: seq<Node>, ops: seq<Kind>, ends: seq<nat>, i: nat, q: nat)
    requires Chain(s, pos, xs, ops, ends) && i < |xs| && q == Start(pos, ends, i)
    ensures Valid(s, q) && ParseCallMember(s, q, true) == Ok(Parsed(xs[i], ends[i]))
  {
    assert OperandAt(s, pos, xs, ends, i);
  }

  /** `parseBinaryExpression` reads an operand and hands it to the operator loop. */
  lemma BinaryStart(s: Lexer.Stream, q: nat, p: nat, x: Node, e: nat)
    requires Valid(s, q) && ParseCallMember(s, q, true) == Ok(Parsed(x, e))
    ensures Valid(s, e) && Expr(x)
    ensures ParseBinary(s, q, p) == BinaryLoop(s, x, e, p)
  {
  }

  /** `parseBinaryExpression(p)` at operand `i`, which starts at `q`, reads up to the first
      operator that binds no more tightly than `p`. */
  lemma {:induction false} BinaryChain(s: Lexer.Stream, pos: nat, xs: seq<Node>, ops: seq<Kind>, ends: seq<nat>, i: nat, p: nat, q: nat)
    requires Chain(s, pos, xs, ops, ends) && Operands(xs) && i <= |ops| && q == Start(pos, ends, i)
    ensures Valid(s, q)
    ensures var m := Stop(Levels(ops), i, p);
      ParseBinary(s, q, p) == Ok(Parsed(Reference(xs, ops, i, m), ends[m]))
    decreases |ops| - i, 5
  {
    OperandRead(s, pos, xs, ops, ends, i, q);
    BinaryStart(s, q, p, xs[i], ends[i]);
    LoopChain(s, pos, xs, ops, ends, i, i, p, ends[i]);
  }

  /** The operator loop at `q`, the end of operand `j`, with the tree of operands `i .. j`
      as its left operand, where every operator before `j` binds more tightly than `p` and
      at least as tightly as operator `j`. */
  lemma {:induction false} LoopChain(s: Lexer.Stream, pos: nat, xs: seq<Node>, ops: seq<Kind>, ends: seq<nat>, i: nat, j: nat, p: nat, q: nat)
    requires Chain(s, pos, xs, ops, ends) && Operands(xs) && i <= j <= |ops| && q == ends[j]
    requires forall k | i <= k < j :: Levels(ops)[k] > p
    requires j < |ops| ==> forall k | i <= k < j :: Levels(ops)[k] >= Levels(ops)[j]
    ensures Valid(s, q)
    ensures var m := Stop(Levels(ops), j, p);
      BinaryLoop(s, Reference(xs, ops, i, j), q, p) == Ok(Parsed(Reference(xs, ops, i, m), ends[m]))
    decreases |ops| - j, 4
  {
    OperandValid(s, pos, xs, ops, ends, j);
    if j == |ops| {
      assert Precedence(Current(s, q)) <= p;
    } else if Levels(ops)[j] <= p {
      OperatorToken(s, pos, xs, ops, ends, j, q);
      assert Precedence(Current(s, q)) <= p;
    } else {
      LoopTurn(s, pos, xs, ops, ends, i, j, p, q);
    }
  }

  /** The same, when operator `j` binds more tightly than `p`: its right operand is read
      at its own level, and the loop goes on after it. */
  lemma {:induction false} LoopTurn(s: Lexer.Stream, pos: nat, xs: seq<Node>, ops: seq<Kind>, ends: seq<nat>, i: nat, j: nat, p: nat, q: nat)
    requires Chain(s, pos, xs, ops, ends) && Operands(xs) && i <= j < |ops| && q == ends[j]
    requires forall k | i <= k < j :: Levels(ops)[k] > p
    requires forall k | i <= k < j :: Levels(ops)[k] >= Levels(ops)[j]
    requires Levels(ops)[j] > p
    ensures Valid(s, q)
    ensures var m := Stop(Levels(ops), j, p);
      BinaryLoop(s, Reference(xs, ops, i, j), q, p) == Ok(Parsed(Reference(xs, ops, i, m), ends[m]))
    decreases |ops| - j, 3
  {
    var lv := Levels(ops);
    var left := Reference(xs, ops, i, j);
    TurnChain(s, pos, xs, ops, ends, j, left, p, q);
    var m := Stop(lv, j + 1, lv[j]);
    TurnKeeps(lv, i, j, m, p);
    ReferenceSplit(xs, ops, i, j, m);
    LoopChain(s, pos, xs, ops, ends, i, m, p, ends[m]);
    StopSkips(lv, j, m, p);
  }

  /** A turn of the operator loop on operator `j`, at `q`, with any left operand. */
  lemma TurnChain(s: Lexer.Stream, pos: nat, xs: seq<Node>, ops: seq<Kind>, ends: seq<nat>, j: nat, left: Node, p: nat, q: nat)
    requires Chain(s, pos, xs, ops, ends) && Operands(xs) && j < |ops| && Expr(left) && q == ends[j]
    requires Levels(ops)[j] > p
    ensures Valid(s, q) && Precedence(ops[j]) == Levels(ops)[j]
    ensures Valid(s, ends[Stop(Levels(ops), j + 1, Levels(ops)[j])])
    ensures var m := Stop(Levels(ops), j + 1, Levels(ops)[j]);
      BinaryLoop(s, left, q, p) == BinaryLoop(s, Combine(ops[j], left, Reference(xs, ops, j + 1, m)), ends[m], p)
    decreases |ops| - j, 2
  {
    TurnFacts(s, pos, xs, ops, ends, j, q);
    TurnAt(s, left, q, p, ops[j], Levels(ops)[j], Reference(xs, ops, j + 1, Stop(Levels(ops), j + 1, Levels(ops)[j])), ends[Stop(Levels(ops), j + 1, Levels(ops)[j])]);
  }

  /** What a turn on operator `j` reads: the operator, then its right operand up to the
      next operator that binds no more tightly. */
  lemma TurnFacts(s: Lexer.Stream, pos: nat, xs: seq<Node>, ops: seq<Kind>, ends: seq<nat>, j: nat, q: nat)
    requires Chain(s, pos, xs, ops, ends) && Operands(xs) && j < |ops| && q == ends[j]
    ensures OperatorNext(s, q, ops[j], Levels(ops)[j])
    ensures Valid(s, ends[Stop(Levels(ops), j + 1, Levels(ops)[j])])
    ensures ParseBinary(s, q + 1, Levels(ops)[j]) == Ok(Parsed(Reference(xs, ops, j + 1, Stop(Levels(ops), j + 1, Levels(ops)[j])), ends[Stop(Levels(ops), j + 1, Levels(ops)[j])]))
    decreases |ops| - j, 1
  {
    OperatorToken(s, pos, xs, ops, ends, j, q);
    RightOperand(s, pos, xs, ops, ends, j, q);
    OperandValid(s, pos, xs, ops, ends, Stop(Levels(ops), j + 1, Levels(ops)[j]));
  }

  /** Operator `j` sits at `q`, between two parser positions. */
  lemma OperatorToken(s: Lexer.Stream, pos: nat, xs: seq<Node>, ops: seq<Kind>, ends: seq<nat>, j: nat, q: nat)
    requires Chain(s, pos, xs, ops, ends) && j < |ops| && q == ends[j]
    ensures OperatorNext(s, q, ops[j], Levels(ops)[j])
  {
    OperatorValid(s, pos, xs, ops, ends, j);
    LevelAt(ops, j);
    StepTo(s, q);
  }

  /** The positions around operator `j`. */
  lemma OperatorValid(s: Lexer.Stream, pos: nat, xs: seq<Node>, ops: seq<Kind>, ends: seq<nat>, j: nat)
    requires Chain(s, pos, xs, ops, ends) && j < |ops|
    ensures Valid(s, ends[j]) && ends[j] < |s.tokens| && Current(s, ends[j]) == ops[j]
    ensures Valid(s, ends[j] + 1)
  {
    OperandValid(s, pos, xs, ops, ends, j);
    OperandValid(s, pos, xs, ops, ends, j + 1);
    assert OperatorAt(s, ops, ends, j);
  }

  /** Pulling a token succeeds when the position after it is a parser position. */
  lemma StepTo(s: Lexer.Stream, q: nat)
    requires Valid(s, q) && q < |s.tokens| && Valid(s, q + 1)
    ensures Step(s, q) == Ok(q + 1)
  {
  }

  /** The right operand of operator `j` at `q`: after the operator, `parseBinaryExpression`
      at the operator's level reads operands up to the next operator that binds no more
      tightly. */
  lemma {:induction false} RightOperand(s: Lexer.Stream, pos: nat, xs: seq<Node>, ops: seq<Kind>, ends: seq<nat>, j: nat, q: nat)
    requires Chain(s, pos, xs, ops, ends) && Operands(xs) && j < |ops| && q == ends[j]
    requires Valid(s, q + 1)
    ensures var m := Stop(Levels(ops), j + 1, Levels(ops)[j]);
      ParseBinary(s, q + 1, Levels(ops)[j]) == Ok(Parsed(Reference(xs, ops, j + 1, m), ends[m]))
    decreases |ops| - j, 0
  {
    BinaryChain(s, pos, xs, ops, ends, j + 1, Levels(ops)[j], q + 1);
  }

  /** The reference tree whose root is operator `j`. */
  lemma ReferenceSplit(xs: seq<Node>, ops: seq<Kind>, i: nat, j: nat, m: nat)
    requires |xs| == |ops| + 1 && Operands(xs) && Operators(ops) && i <= j < m <= |ops|
    requires Split(Levels(ops), i, m) == j
    ensures Precedence(ops[j]) > 0
    ensures Reference(xs, ops, i, m) == Combine(ops[j], Reference(xs, ops, i, j), Reference(xs, ops, j + 1, m))
  {
    ReferenceRoot(xs, ops, i, m);
  }

  /** The reference tree of a nonempty range is split at its rightmost lowest level. */
  lemma ReferenceRoot(xs: seq<Node>, ops: seq<Kind>, i: nat, m: nat)
    requires |xs| == |ops| + 1 && Operands(xs) && Operators(ops) && i < m <= |ops|
    ensures Precedence(ops[Split(Levels(ops), i, m)]) > 0
    ensures var j := Split(Levels(ops), i, m);
      Reference(xs, ops, i, m) == Combine(ops[j], Reference(xs, ops, i, j), Reference(xs, ops, j + 1, m))
  {
    LevelAt(ops, Split(Levels(ops), i, m));
  }

  /** Token `q` is operator `k` of binding strength `level`, and pulling it succeeds. */
  predicate OperatorNext(s: Lexer.Stream, q: nat, k: Kind, level: nat) {
    Valid(s, q) && q < |s.tokens| && Current(s, q) == k && Precedence(k) == level &&
    Step(s, q) == Ok(q + 1) && Valid(s, q + 1)
  }

  /** One turn of the operator loop, given what the right operand parses to. */
  lemma TurnStep(s: Lexer.Stream, left: Node, q: nat, p: nat, k: Kind, level: nat, r: Result<Parsed, ParseError>)
    requires Valid(s, q) && q < |s.tokens| && Expr(left)
    requires Current(s, q) == k && Precedence(k) == level && level > p
    requires Step(s, q).Ok?
    requires r == ParseBinary(s, q + 1, level) && r.Ok?
    ensures BinaryTurn(s, left, q, p) == BinaryLoop(s, Combine(k, left, r.value.node), r.value.next, p)
  {
  }

  /** One pass of the operator loop on an operator that binds more tightly than `p`, with
      the right operand's tree and end given. */
  lemma TurnAt(s: Lexer.Stream, left: Node, q: nat, p: nat, k: Kind, level: nat, right: Node, next: nat)
    requires OperatorNext(s, q, k, level) && level > p && Expr(left)
    requires ParseBinary(s, q + 1, level) == Ok(Parsed(right, next))
    ensures BinaryLoop(s, left, q, p) == BinaryLoop(s, Combine(k, left, right), next, p)
  {
    TurnStep(s, left, q, p, k, level, ParseBinary(s, q + 1, level));
    LoopIsTurn(s, left, q, p);
  }

  /** The operator loop takes a turn on an operator that binds more tightly than `p`. */
  lemma LoopIsTurn(s: Lexer.Stream, left: Node, q: nat, p: nat)
    requires Valid(s, q) && Expr(left) && Precedence(Current(s, q)) > p
    ensures BinaryLoop(s, left, q, p) == BinaryTurn(s, left, q, p)
  {
  }

  /** After a turn on operator `j`, whose right operand ends at operator `m`, the loop's
      conditions hold again at `m`, and `j` is the root of the combined tree. */
  lemma TurnKeeps(lv: seq<nat>, i: nat, j: nat, m: nat, p: nat)
    requires i <= j < |lv| && m == Stop(lv, j + 1, lv[j])
    requires forall k | i <= k < j :: lv[k] > p
    requires forall k | i <= k < j :: lv[k] >= lv[j]
    requires lv[j] > p
    ensures j < m && Split(lv, i, m) == j
    ensures forall k | j <= k < m :: lv[k] > p
    ensures forall k | i <= k < m :: lv[k] > p
    ensures m < |lv| ==> forall k | i <= k < m :: lv[k] >= lv[m]
  {
    SplitAt(lv, i, j, m);
  }

  /** Level `j` is the rightmost lowest of `i .. m-1` when nothing before it is lower and
      everything after it is higher. */
  lemma SplitAt(lv: seq<nat>, i: nat, j: nat, m: nat)
    requires i <= j < m <= |lv|
    requires forall k | i <= k < j :: lv[k] >= lv[j]
    requires forall k | j < k < m :: lv[k] > lv[j]
    ensures Split(lv, i, m) == j
  {
  }

  /** Levels above `p` do not change where the loop stops. */
  lemma {:induction false} StopSkips(lv: seq<nat>, j: nat, m: nat, p: nat)
    requires j <= m <= |lv|
    requires forall k | j <= k < m :: lv[k] > p
    ensures Stop(lv, j, p) == Stop(lv, m, p)
    decreases m - j
  {
    if j < m {
      StopSkips(lv, j + 1, m, p);
    }
  }
}
