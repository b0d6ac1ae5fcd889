/** The sections of a generated program: every function declaration hoisted above `main`
    in source order, and every other statement inside `main`, also in source order. */
module CodegenProgram {
  import opened Wrappers
  import opened Ast
  import opened Codegen
  import opened CodegenLayout

  /** The function declarations among `ns`, in source order. */
  function Functions(ns: seq<Node>): (fs: seq<Node>)
    ensures |fs| <= |ns|
    ensures forall i | 0 <= i < |fs| :: fs[i].FunctionDeclarationNode?
    ensures (forall i | 0 <= i < |ns| :: Typed(ns[i])) ==> forall i | 0 <= i < |fs| :: Typed(fs[i])
    decreases |ns|
  {
    if |ns| == 0 then []
    else (if ns[0].FunctionDeclarationNode? then [ns[0]] else []) + Functions(ns[1..])
  }

  /** The statements among `ns` that are not function declarations, in source order. */
  function Others(ns: seq<Node>): (os: seq<Node>)
    ensures |os| <= |ns|
    ensures forall i | 0 <= i < |os| :: !os[i].FunctionDeclarationNode?
    ensures (forall i | 0 <= i < |ns| :: Typed(ns[i])) ==> forall i | 0 <= i < |os| :: Typed(os[i])
    decreases |ns|
  {
    if |ns| == 0 then []
    else (if ns[0].FunctionDeclarationNode? then [] else [ns[0]]) + Others(ns[1..])
  }

  /** Each function declaration visited in turn, an empty line after each. */
  function HoistEach(fs: seq<Node>, g: Gen, pick: nat -> nat): (r: Result<Gen, GenError>)
    requires forall i | 0 <= i < |fs| :: Typed(fs[i])
    ensures r.Ok? ==> Extends(g, r.value)
    decreases |fs|
  {
    if |fs| == 0 then Ok(g)
    else
      var h :- Visit(fs[0], g, pick);
      ExtendsEmit(h, "");
      ExtendsTrans(g, h, Emit(h, ""));
      var r := HoistEach(fs[1..], Emit(h, ""), pick);
      if r.Ok? then ExtendsTrans(g, Emit(h, ""), r.value); r else r
  }

  /** Every statement is either a function declaration or not. */
  lemma {:induction false} SplitSizes(ns: seq<Node>)
    ensures |Functions(ns)| + |Others(ns)| == |ns|
    decreases |ns|
  {
    if |ns| > 0 {
      SplitSizes(ns[1..]);
    }
  }

  /** The hoisting loop visits exactly the function declarations, in source order, with an
      empty line after each. */
  lemma {:induction false} HoistIsFiltered(ns: seq<Node>, g: Gen, pick: nat -> nat)
    requires forall i | 0 <= i < |ns| :: Typed(ns[i])
    ensures HoistFunctions(ns, g, pick) == HoistEach(Functions(ns), g, pick)
    decreases |ns|
  {
    if |ns| > 0 {
      var fs := Functions(ns);
      if ns[0].FunctionDeclarationNode? {
        assert fs == [ns[0]] + Functions(ns[1..]);
        assert fs[0] == ns[0] && fs[1..] == Functions(ns[1..]);
        var h := Visit(ns[0], g, pick);
        if h.Ok? {
          HoistIsFiltered(ns[1..], Emit(h.value, ""), pick);
        }
      } else {
        assert fs == Functions(ns[1..]);
        HoistIsFiltered(ns[1..], g, pick);
      }
    }
  }

  /** The `main` loop visits exactly the other statements, in source order. */
  lemma {:induction false} MainIsFiltered(ns: seq<Node>, g: Gen, pick: nat -> nat)
    requires forall i | 0 <= i < |ns| :: Typed(ns[i])
    ensures MainStatements(ns, g, pick) == VisitAll(Others(ns), g, pick)
    decreases |ns|
  {
    if |ns| > 0 {
      var os := Others(ns);
      if ns[0].FunctionDeclarationNode? {
        assert os == Others(ns[1..]);
        MainIsFiltered(ns[1..], g, pick);
      } else {
        assert os == [ns[0]] + Others(ns[1..]);
        assert os[0] == ns[0] && os[1..] == Others(ns[1..]);
        var h := Visit(ns[0], g, pick);
        if h.Ok? {
          MainIsFiltered(ns[1..], h.value, pick);
        }
      }
    }
  }

  /** The signatures of a run of function declarations. */
  function Signatures(fs: seq<Node>): (hs: seq<string>)
    requires forall i | 0 <= i < |fs| :: Typed(fs[i]) && fs[i].FunctionDeclarationNode?
    ensures |hs| == |fs| && forall i | 0 <= i < |fs| :: hs[i] == Signature(fs[i])
  {
    seq(|fs|, i requires 0 <= i < |fs| => Signature(fs[i]))
  }

  /** Lines as emitted at indent level `level`. */
  function Indented(level: nat, lines: seq<string>): (ls: seq<string>)
    ensures |ls| == |lines| && forall i | 0 <= i < |lines| :: ls[i] == Indentation(level) + lines[i]
  {
    seq(|lines|, i requires 0 <= i < |lines| => Indentation(level) + lines[i])
  }

  /** `lines` occur in `out` in order, at the increasing positions `at`, the first at `lo`. */
  predicate InOrderAt(out: seq<string>, lines: seq<string>, at: seq<nat>, lo: nat) {
    |at| == |lines| && (|lines| > 0 ==> at[0] == lo) &&
    (forall i | 0 < i < |at| :: at[i - 1] < at[i]) &&
    forall i | 0 <= i < |at| :: lo <= at[i] < |out| && out[at[i]] == lines[i]
  }

  /** One more line in front, at an earlier position. */
  lemma InOrderCons(out: seq<string>, line: string, lines: seq<string>, at: seq<nat>, lo: nat, next: nat)
    requires lo < next && lo < |out| && out[lo] == line && InOrderAt(out, lines, at, next)
    ensures InOrderAt(out, [line] + lines, [lo] + at, lo)
  {
    var at' := [lo] + at;
    var lines' := [line] + lines;
    forall i | 0 < i < |at'|
      ensures at'[i - 1] < at'[i]
    {
      assert at'[i] == at[i - 1];
      if i > 1 {
        assert at'[i - 1] == at[i - 2];
      }
    }
    forall i | 0 < i < |at'|
      ensures lo <= at'[i] < |out| && out[at'[i]] == lines'[i]
    {
      assert at'[i] == at[i - 1] && lines'[i] == lines[i - 1];
    }
  }

  /** Hoisting a run of function declarations emits each one's signature, in order, the
      first one on the first new line. The positions are returned in `at`. */
  lemma {:induction false} HoistHeaders(fs: seq<Node>, g: Gen, pick: nat -> nat) returns (at: seq<nat>)
    requires forall i | 0 <= i < |fs| :: Typed(fs[i]) && fs[i].FunctionDeclarationNode?
    ensures var r := HoistEach(fs, g, pick);
      r.Ok? ==> InOrderAt(r.value.out, Indented(g.indent, Signatures(fs)), at, |g.out|)
    decreases |fs|
  {
    if |fs| == 0 {
      return [];
    }
    var h := Visit(fs[0], g, pick);
    if h.Err? {
      return [];
    }
    var e := Emit(h.value, "");
    var rest := HoistHeaders(fs[1..], e, pick);
    at := [|g.out|] + rest;
    var r := HoistEach(fs, g, pick);
    if r.Ok? {
      assert r == HoistEach(fs[1..], e, pick);
      HeaderFirst(fs[0], g, pick);
      ExtendsEmit(h.value, "");
      var out := r.value.out;
      assert out[..|e.out|] == e.out;
      assert out[|g.out|] == e.out[|g.out|] == h.value.out[|g.out|];
      IndentedCons(g.indent, fs);
      InOrderCons(out, Indentation(g.indent) + Signature(fs[0]), Indented(g.indent, Signatures(fs[1..])), rest, |g.out|, |e.out|);
    }
  }

  /** Visiting a function declaration emits its signature first. */
  lemma HeaderFirst(m: Node, g: Gen, pick: nat -> nat)
    requires m.FunctionDeclarationNode? && Typed(m)
    ensures var h := Visit(m, g, pick);
      h.Ok? ==> |g.out| < |h.value.out| && h.value.out[|g.out|] == Indentation(g.indent) + Signature(m)
  {
    VisitLeaf(m, g, pick);
    FunctionHeader(m, g, pick);
  }

  lemma IndentedCons(level: nat, fs: seq<Node>)
    requires |fs| > 0 && forall i | 0 <= i < |fs| :: Typed(fs[i]) && fs[i].FunctionDeclarationNode?
    ensures Indented(level, Signatures(fs)) == [Indentation(level) + Signature(fs[0])] + Indented(level, Signatures(fs[1..]))
  {
    var a := Indented(level, Signatures(fs));
    var b := [Indentation(level) + Signature(fs[0])] + Indented(level, Signatures(fs[1..]));
    assert |a| == |b|;
    forall i | 0 <= i < |a|
      ensures a[i] == b[i]
    {
      if i > 0 {
        assert fs[1..][i - 1] == fs[i];
      }
    }
  }

  /** At the left margin lines are emitted as they are. */
  lemma IndentedAtMargin(lines: seq<string>)
    ensures Indented(0, lines) == lines
  {
    assert Indentation(0) == "";
    forall i | 0 <= i < |lines|
      ensures Indented(0, lines)[i] == lines[i]
    {
      assert "" + lines[i] == lines[i];
    }
  }

  /** Closing `main` keeps every line written before it. */
  lemma MainKeeps(f: Gen, main: Gen)
    requires Extends(EnterMain(f), main)
    ensures |f.out| < |LeaveMain(main, f.indent).out| && LeaveMain(main, f.indent).out[..|f.out|] == f.out
  {
    MainExtends(f, main);
    assert |EnterMain(f).out| == |f.out| + 1;
  }

  /** A generated program: the prelude, then the signature of every function declaration in
      source order, the first one right after the prelude, all before `int main() {` at `k`,
      and then the frame of `main`. */
  lemma ProgramSections(p: Node, pick: nat -> nat) returns (at: seq<nat>, k: nat)
    requires p.ProgramNode? && Typed(p)
    ensures Lines(p, pick).Ok? ==>
      var out := Lines(p, pick).value;
      Framed(out, Prelude(), k) && InOrderAt(out[..k], Signatures(Functions(p.body)), at, |Prelude()|)
  {
    var prelude := EmitAll(Fresh, Prelude());
    var fs := Functions(p.body);
    LinesSteps(p, pick);
    PreludeLines();
    HoistIsFiltered(p.body, prelude, pick);
    at := HoistHeaders(fs, prelude, pick);
    k := 0;
    if Lines(p, pick).Ok? {
      var f := HoistFunctions(p.body, prelude, pick).value;
      var main := MainStatements(p.body, EnterMain(f), pick).value;
      var out := Lines(p, pick).value;
      k := |f.out|;
      IndentedAtMargin(Signatures(fs));
      assert InOrderAt(f.out, Signatures(fs), at, |Prelude()|);
      FramedAfter(f, main);
      MainKeeps(f, main);
      assert out == LeaveMain(main, f.indent).out;
      assert out[..k] == f.out;
    }
  }

  /** The frame around the function section. */
  lemma FramedAfter(f: Gen, main: Gen)
    requires f.indent == 0 && Extends(EmitAll(Fresh, Prelude()), f)
    requires Extends(EnterMain(f), main)
    ensures Framed(LeaveMain(main, 0).out, Prelude(), |f.out|)
  {
    PreludeLines();
    MainFrame(f, Prelude(), main);
  }

  /** A program that opens with a function declaration: its signature is the first line
      after the prelude, and `int main() {` comes later. */
  lemma FirstFunctionFirst(p: Node, pick: nat -> nat)
    requires p.ProgramNode? && Typed(p) && |p.body| > 0 && p.body[0].FunctionDeclarationNode?
    ensures Typed(p.body[0]) && (Lines(p, pick).Ok? ==>
      var out := Lines(p, pick).value;
      |Prelude()| < |out| && out[|Prelude()|] == Signature(p.body[0]) &&
      exists k | |Prelude()| < k < |out| :: out[k] == "int main() {")
  {
    assert Typed(p.body[0]);
    assert Functions(p.body)[0] == p.body[0];
    var at, k := ProgramSections(p, pick);
    if Lines(p, pick).Ok? {
      var out := Lines(p, pick).value;
      assert at[0] == |Prelude()| < k;
      assert out[..k][at[0]] == out[|Prelude()|];
    }
  }

  /** `function add(a, b)` followed by any statements: `int add(int a, int b)` is the first
      line after the prelude, and `int main() {` comes later. */
  lemma AddProgram(block: Node, rest: seq<Node>, pick: nat -> nat)
    requires IsBlock(block) && Typed(block)
    requires forall i | 0 <= i < |rest| :: Typed(rest[i])
    ensures var m := FunctionDeclarationNode(IdentifierNode("add"), [IdentifierNode("a"), IdentifierNode("b")], block);
      var p := ProgramNode([m] + rest);
      Typed(p) &&
      (Lines(p, pick).Ok? ==>
        |Prelude()| < |Lines(p, pick).value| && Lines(p, pick).value[|Prelude()|] == "int add(int a, int b)" &&
        exists k | |Prelude()| < k < |Lines(p, pick).value| :: Lines(p, pick).value[k] == "int main() {")
  {
    var m := FunctionDeclarationNode(IdentifierNode("add"), [IdentifierNode("a"), IdentifierNode("b")], block);
    var p := ProgramNode([m] + rest);
    AddSignature(block);
    assert forall i | 0 <= i < |p.body| :: Typed(p.body[i]);
    assert p.body[0] == m;
    FirstFunctionFirst(p, pick);
  }
}
