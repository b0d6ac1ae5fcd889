# blaze: a model of the lexer, parser and C++ generator

blaze translates a small JavaScript-like language into C++. Three stages are modelled:

- **The lexer** (`Lexer` in `src/parser/parser.ts`). It turns source text into classified tokens. It skips whitespace and both kinds of comment. It reclassifies reserved words as keywords and takes two-character operators whole. It fails on an unexpected character or an unterminated string.
- **The recursive-descent parser** (`Parser` in the same file). It builds the syntax tree of `src/parser/ast.ts` by precedence climbing over five binary levels. Assignment is right-associative and its target is checked. Calls, indexing and `.name` chain after a primary. `new` is parsed with calls disabled in its callee. A trailing `;` is optional.
- **The C++ generator** (`src/compiler/CppCodegenVisitor.ts`). A statement visitor emits indented lines and remembers which `let` names it has declared. A pure `genExpression` builds the text of each expression.

The model is written in Dafny, one module per concern:

| module | file | what it holds |
|---|---|---|
| `Wrappers` | `wrappers.dfy` | `Option` and `Result`; a thrown `Error` becomes an `Err`. |
| `Tokens` | `tokens.dfy` | Token kinds and fixed spellings, keyword classification, precedence. |
| `Numerals` | `numerals.dfy` | Decimal digits: `parseInt` of a digit run and the decimal text of a number. |
| `Lexer` | `lexer.dfy` | `nextToken` as a pure function over a cursor (position, line, column). |
| `Ast` | `ast.dfy` | The node union and the order in which `accept` visits nodes. |
| `Grammar` | `grammar.dfy` | The shapes of tree the parser can return. |
| `Parser` | `parser.dfy` | Every `parse…` method as a function from a position in the token stream to a node and the next position. |
| `Codegen` | `codegen.dfy` | The generator. Its fields (output lines, indent level, declared names) are a `Gen` value threaded through pure functions. |
| `CodegenProps` | `codegen_props.dfy` | Expression lowering: balanced and fully parenthesised output, literal round trips. |
| `CodegenLayout` | `codegen_layout.dfy` | Statement and program layout: `let` de-duplication, `console.log`, blocks, `for`, the frame of `main`. |
| `CodegenProgram` | `codegen_program.dfy` | The two passes over a program's body: function declarations hoisted above `main`, everything else inside it, each in source order. |

Some modelling choices:

- **Lexing runs first.** The input is lexed up front into a token list plus an optional trailing lexer error. The parser raises that error at the moment it would have pulled the failing token. So lazy token pulling gives the same result, including which of a lexer error and a parser error is reported.
- **Generation calls `Program` directly.** `Codegen.Program` models the generator's `Program` method called directly. `Program.accept` would visit every statement a second time.
- **`accept` is a trace.** `Ast.Accept(n)` lists the nodes whose visitor methods `n.accept(v)` calls, in calling order. `Codegen.Visit` runs the generator's methods over that list. A node kind with no method in the generator raises `NotAFunction`: classes, method definitions, `this` and `new`.
- **The random temporary name is a parameter.** `Math.floor(Math.random() * 10000)` in `FirstExpression` becomes the parameter `pick: nat -> nat`, applied to a draw counter kept in `Gen`.

Where the repository's own tests expect more than the code does, the model follows the code:

- **Class lowering.** The class test (`src/__tests__/compiler.test.ts:101-127`) expects a `struct`, `std::any` fields, `this->` and `std::make_shared`. The generator has no visitor method for classes, method definitions, `this` or `new`, so these nodes fail as above.
- **Recognising a constructor.** A method is a constructor only when its key is the `constructor` keyword, as `parseMethodDefinition` decides.
- **Constructor count.** The parser accepts a class with any number of constructors; nothing counts them.
- **`for` counters.** A `for` counter is always typed `int`, whatever its initializer (`src/compiler/CppCodegenVisitor.ts:174`).

## Model

| member | source | states |
|---|---|---|
| Tokens.WordKindClassifies | src/parser/parser.ts:240-283 | A word lexes as `Identifier` exactly when it is not one of the fourteen reserved words. A reserved word lexes as the keyword spelled by that word. |
| Tokens.KeywordSpellingRoundTrip | src/parser/parser.ts:240-283 | Every keyword kind is spelled by a reserved word, and that word lexes back to the same kind. |
| Tokens.OperatorSpellingRoundTrip | src/parser/parser.ts:122-226 | Every operator and punctuation kind is recovered from its spelling, so no two of them share one. |
| Tokens.Precedence | src/parser/parser.ts:404-423 | Binding strength is at most 5. It is nonzero exactly for the twelve binary and logical operator tokens. |
| Numerals.DecimalRoundTrip | src/parser/parser.ts:286-302 | `parseInt` of the decimal text of any natural number gives back that number. |
| Numerals.DecimalTextOfValue | src/parser/parser.ts:286-302 | Take a digit run with no leading zero (or a single `0`). Printing its value gives back the same digits. |
| Lexer.SkipSpaces | src/parser/parser.ts:68-76 | Skips exactly the maximal run of whitespace at the cursor. |
| Lexer.SkipLineComment | src/parser/parser.ts:79-84 | Stops at the first newline after the cursor, or at the end of input. |
| Lexer.SkipBlockBody | src/parser/parser.ts:85-98 | Stops at the first `*/` after the cursor, or at the end of input. |
| Lexer.SkipTrivia | src/parser/parser.ts:66-101 | The position never moves back. Once the loop stops, the next character is neither whitespace nor the start of a comment. |
| Lexer.ScanWord | src/parser/parser.ts:231-284 | Consumes the maximal identifier-character run. The token text is that run, its kind is the run's keyword or `Identifier`, and the column advances by its length. |
| Lexer.ScanNumber | src/parser/parser.ts:286-302 | Consumes the maximal digit run. The token value is the run's decimal value. |
| Lexer.ScanString | src/parser/parser.ts:304-317 | Fails with "Unterminated string" exactly when no `"` follows the opening quote. Otherwise the value is the raw text up to the next `"`, with no escapes. |
| Lexer.ScanOperator | src/parser/parser.ts:122-228 | Maximal munch: a two-character operator at the cursor is taken whole, and the consumed text is the token's spelling. Fails exactly on a character that starts no operator, or on a lone `&` or `|`. For a lone `&` or `|` the reported column is one further. |
| Lexer.NextToken | src/parser/parser.ts:65-229 | EOF is returned only once trivia reaches the end of input, at the cursor after the trivia. Any other token advances the position. A fixed-spelling token is exactly its spelling in the input after the skipped trivia. |
| Lexer.EofIsSticky | src/parser/parser.ts:103-105 | After `EOF`, asking for the next token gives `EOF` again at the same place. |
| Lexer.SpellingInjective | src/parser/parser.ts:4-47 | No two keyword or operator kinds share a spelling. |
| Lexer.FirstTokenOfSpelling | src/parser/parser.ts:107-228 | For every keyword and operator, lexing its spelling alone gives that kind, with the spelling as its text, at line 1 column 0. |
| Lexer.LexSpelling | src/parser/parser.ts:58-328 | Tokenizing a keyword or operator spelling gives exactly one token of that kind and no error. |
| Lexer.Tokenize | src/parser/parser.ts:333-343 | Every token produced carries a value of the shape its kind needs. |
| Ast.AcceptVisitsSelfOnce | src/parser/ast.ts:54-57 | Every `accept` calls the node's own visitor method exactly once. |
| Ast.AcceptOrder | src/parser/ast.ts:54-57 | `Program.accept` calls `visitor.Program` first. Every other node's own method is called last, after any children it visits. |
| Ast.ProgramAcceptSplits | src/parser/ast.ts:56 | The body's visits are those of each statement, in source order, concatenated. |
| Ast.AcceptWithin | src/parser/ast.ts:127-162 | `accept` visits only the node and nodes strictly inside it. |
| Ast.AcceptTyped | src/parser/ast.ts:60-470 | A node whose fields have their declared types only visits nodes whose fields have their declared types. |
| Grammar.WellFormedTyped | src/parser/ast.ts:60-470 | Every tree of the shapes the parser builds respects the field types of the node classes. |
| Grammar.SpineGrow | src/parser/parser.ts:425-460 | Take an operator spine under a node at least as tight as everything above it. The same spine continues over that node's left operand. |
| Parser.Eat | src/parser/parser.ts:337-343 | Succeeds only on the expected kind, moving one token. Any other kind fails with an unexpected-token error naming both kinds. |
| Parser.Step | src/parser/parser.ts:324-327 | Advancing onto a lexer failure reports that failure. Otherwise it moves one token. |
| Parser.ParseIdentifier | src/parser/parser.ts:866-876 | An identifier token becomes an Identifier node with its text. Any other token is an error. |
| Parser.ParseProgram | src/parser/parser.ts:345-360 | Every program the parser returns is well formed: a Program of statements of the shapes below. |
| Parser.Parse | src/parser/parser.ts:330-360 | Lexing and parsing any text gives a well-formed program or an error. |
| Parser.ParseStatements | src/parser/parser.ts:486-488 | Stops exactly at end of input, or at `}` inside a block. Every element is a statement. |
| Parser.ParseStatement | src/parser/parser.ts:362-390 | The first token picks the statement: `let`, `{`, `if`, `while`, `for`, `function`, `class` and `return` each their own kind, any other token an expression statement. At least one token is consumed. |
| Parser.StatementSemicolon | src/parser/parser.ts:362-390 | Every statement is the node its first token dispatches to. It takes one `;` after it exactly when it does not start with `{`, `if`, `while`, `for`, `function` or `class` and a `;` follows; a failed dispatch is the statement's failure. |
| Parser.ExpressionStatementSemicolon | src/parser/parser.ts:380-402 | An expression statement holds exactly the expression parsed at its start, and takes one `;` after it exactly when one follows. |
| Parser.ParseDispatch | src/parser/parser.ts:362-382 | The same choice of statement kind by the first token. An expression statement holds exactly what `parseExpression` returns there, ending where it ends. |
| ParserExamples.EmptyBlock | src/parser/parser.ts:482-498 | `{ }` is an empty block statement that ends right after the `}`, with no `;` taken. |
| ParserExamples.LoneSemicolon | src/parser/parser.ts:769-802 | A statement cannot start with `;`: it fails with the unexpected-primary error naming `;`. |
| ParserExamples.SemicolonAfterBlock | src/parser/parser.ts:384-387 | `{ } ;` is rejected: a block takes no `;`, so the `;` starts a statement of its own, which fails. |
| Parser.ParseIf | src/parser/parser.ts:500-528 | Builds an If whose consequent is a Block and whose alternate, if any, is an If or a Block. |
| Parser.ParseFor | src/parser/parser.ts:548-586 | Builds a For whose body is a Block. |
| Parser.ParseForInit | src/parser/parser.ts:552-560 | Init is absent exactly when `;` follows `(`. Otherwise it is a `let` declaration or an expression. |
| Parser.ParseOptionalExpression | src/parser/parser.ts:562-572 | A `for` test or update is absent exactly when the closing token comes first. |
| Parser.ParseMethod | src/parser/parser.ts:635-671 | The kind is `constructor` exactly when the key token is the `constructor` keyword. |
| Parser.ParseMethodKey | src/parser/parser.ts:636-648 | The key is `constructor` exactly for the keyword, and otherwise a non-reserved identifier. |
| Parser.ParseMethods | src/parser/parser.ts:621-625 | Stops at `}`. Every member is a method definition. |
| Parser.ParseParams | src/parser/parser.ts:593-602 | Every parameter is a non-reserved identifier. `()` gives no parameters. |
| Parser.ParseExpression | src/parser/parser.ts:689-715 | After any expression the parser returns, the next token is not `=`: an `=` is always taken into the expression. |
| Parser.ParseAssignment | src/parser/parser.ts:693-715 | A target that is neither an Identifier nor a member access fails with "Invalid left-hand side". Otherwise it builds an Assignment with that target, and no `=` follows it: the right side swallows every later `=`, so assignment groups to the right. |
| Parser.ParseBinary | src/parser/parser.ts:425-460 | The result is the first operand under a left spine of operators above the given level, with looser operators higher up and equal levels grouped to the left. It stops before any operator that binds no more tightly than the level. |
| Parser.BinaryLoop | src/parser/parser.ts:428-459 | With no operator tighter than the level next, the left operand comes back unchanged. Otherwise the tree is a spine over it. |
| ParserProps.ParseBinaryChain | src/parser/parser.ts:404-460 | On any chain of operands separated by binary or logical operators, precedence climbing from level 0 returns exactly the reference tree and stops after the last operand. In the reference tree the root is the rightmost loosest operator, so looser operators sit higher and operators of one level group to the left. |
| ParserExamples.TripleParses | src/parser/parser.ts:404-460 | For any names `x`, `y`, `z` and operators `k1`, `k2`, the expression `x k1 y k2 z` parses to `(x k1 y) k2 z` when `k2` binds no more tightly than `k1`, and to `x k1 (y k2 z)` otherwise. |
| ParserExamples.LogicalGrouping | src/__tests__/parser.test.ts:101-106 | `a && b \|\| c` parses to a Logical `\|\|` whose left operand is the Logical `a && b`. |
| ParserExamples.MinusGroupsLeft | src/parser/parser.ts:425-460 | `x - y - z` parses to `(x - y) - z`. |
| ParserExamples.TimesBeforePlus | src/parser/parser.ts:404-460 | `x * y + z` parses to `(x * y) + z`. |
| ParserExamples.TimesAfterPlus | src/parser/parser.ts:404-460 | `x + y * z` parses to `x + (y * z)`. |
| ParserExamples.AssignmentGroupsRight | src/parser/parser.ts:693-715 | `a = b = c` parses to `a = (b = c)`. |
| ParserExamples.OperationIsNoTarget | src/parser/parser.ts:693-699 | `x k y = z` with a binary operator `k` fails with the invalid-target error, since `x k y` is neither a name nor a member access. |
| ParserExamples.MinusBeforeCall | src/parser/parser.ts:806-818 | `- f ( x )` parses to the call of `-f` on `x`: the minus takes only the primary `f`, and the call applies to the negation. |
| Parser.Combine | src/parser/parser.ts:437-457 | `&&` and `||` build Logical nodes and the other operators Binary nodes, at the precedence of their token. |
| Parser.PostfixLoop | src/parser/parser.ts:717-767 | The chain stops only where no `(`, `[` or `.` follows; `(` is allowed to end it when calls are disabled. With calls disabled, the result is the primary under member accesses only. |
| Parser.ParseNew | src/parser/parser.ts:828-852 | The callee of `new` is the primary after `new` under member accesses only, so no call appears outside that primary and its bracket indices. |
| Parser.WithArguments | src/parser/parser.ts:832-844 | The argument list after a `new` callee is optional. |
| Parser.ParsePrimary | src/parser/parser.ts:769-804 | A token that starts no primary fails with the unexpected-token error naming it. |
| Parser.ParseLiteral | src/parser/parser.ts:878-908 | Each literal token becomes the node with its value: the identifier's text, the number, the raw string, `this` or the boolean. |
| Parser.ParseUnary | src/parser/parser.ts:806-818 | `-` and `!` build a Unary node with that operator. Its argument is exactly the primary parsed right after the operator, and the result ends where that primary ends. |
| Parser.ParseList | src/parser/parser.ts:724-732 | The list is empty exactly when the closing token comes first. Every element is an expression. |
| Parser.ParseProperty | src/parser/parser.ts:946-966 | A key that is neither an identifier nor a string fails. Otherwise it builds a Property with that key. |
| Codegen.GenExpression | src/compiler/CppCodegenVisitor.ts:226-289 | Lowering succeeds exactly on trees built from names, literals, assignment, operators, calls, member accesses, arrays and objects. Anything else fails with "Unsupported expression type". |
| Codegen.VariableDeclaration | src/compiler/CppCodegenVisitor.ts:136-144 | A name already declared emits nothing and drops its initializer. A new name becomes declared and emits exactly `auto name = init;` at the current indent, with `0` for a missing initializer. |
| Codegen.ReturnStatement | src/compiler/CppCodegenVisitor.ts:96-102 | Emits exactly one line and declares nothing. |
| Codegen.FirstExpression | src/compiler/CppCodegenVisitor.ts:220-224 | Succeeds exactly when the argument can be lowered. It draws one random number and declares nothing. As part of a statement it never generates: see CodegenLayout.FirstStatementFails. |
| CodegenLayout.FirstStatementFails | src/compiler/CppCodegenVisitor.ts:216-224 | `first(x);` never generates: after `first`'s own lines, the statement lowers its expression, and a `first` expression cannot be lowered, so the visit fails with an unsupported-expression error. |
| Codegen.ExpressionStatement | src/compiler/CppCodegenVisitor.ts:192-218 | Any expression other than `console.log(...)` succeeds exactly when it can be lowered, and then appends exactly one line: its lowering followed by `;`, at the current indent. Only appends lines, and never touches the declared names. |
| CodegenLayout.StepStatement | src/__tests__/compiler.test.ts:37-42 | `i = i + 1;` emits exactly `i = (i + 1);`. |
| Codegen.Visit | src/parser/ast.ts:54-162 | Visiting a node only appends lines, each indented at least at the current level, and ends at the indent it started with. |
| Codegen.Indentation | src/compiler/CppCodegenVisitor.ts:13 | Two spaces per indent level. |
| Codegen.ExtendsEmitAll | src/compiler/CppCodegenVisitor.ts:12-14 | Emitting lines appends each one, prefixed by the current indentation, and changes nothing else. |
| Codegen.MainExtends | src/compiler/CppCodegenVisitor.ts:58-70 | Wrapping statements in `main` only appends lines and returns to the outer indent. |
| CodegenProps.Parenthesised | src/compiler/CppCodegenVisitor.ts:236-285 | For names and strings without parentheses, lowering gives balanced text. Every binary, logical and unary operator application is wrapped in one pair of parentheses spanning it whole. |
| CodegenProps.JoinBalanced | src/compiler/CppCodegenVisitor.ts:253 | Joining balanced parts with a separator without parentheses keeps balance. |
| CodegenProps.NumberLowering | src/compiler/CppCodegenVisitor.ts:230-231 | A number lowers to digits that read back as the same number. |
| CodegenProps.StringLoweringInjective | src/compiler/CppCodegenVisitor.ts:232-233 | Two string literals lower to the same C++ text exactly when their texts are equal, so lowering a string loses nothing. |
| CodegenProps.GenAllElements | src/compiler/CppCodegenVisitor.ts:267-271 | Array elements and call arguments lower one by one, in source order. |
| CodegenProps.GenPropertiesElements | src/compiler/CppCodegenVisitor.ts:272-285 | Object entries lower one by one, in source order. |
| CodegenLayout.LetDedup | src/compiler/CppCodegenVisitor.ts:136-144 | Run a sequence of `let` statements. The declared set grows by their names, and exactly one line is emitted per name not declared before, however often it repeats. |
| CodegenLayout.LetStep | src/compiler/CppCodegenVisitor.ts:138-143 | One `let` adds its name. A name already declared leaves the generator as it was. A new name emits exactly `auto name = init;` at the current indent, with `0` for a missing initializer. |
| CodegenLayout.NegativeLet | src/__tests__/compiler.test.ts:51-55 | `let x = -5;` with `x` new emits exactly `auto x = (-5);`. |
| CodegenLayout.PrintLinesShape | src/compiler/CppCodegenVisitor.ts:203-212 | The `console.log` lines are one `print_any` per argument, a space line only between neighbours, and a final `std::endl`. |
| CodegenLayout.ConsoleLog | src/compiler/CppCodegenVisitor.ts:192-214 | `console.log(a1..an)` appends exactly those lines at the current indent, and nothing else. |
| CodegenLayout.BlockLayout | src/compiler/CppCodegenVisitor.ts:146-152 | A block emits `{` and `}` at its own indent with everything between one level deeper, and restores the indent. |
| CodegenLayout.ForIgnoresDeclared | src/compiler/CppCodegenVisitor.ts:168-186 | A `for` first emits `for (header)` at the current indent, and the header does not depend on the declared names. With an empty body, a `for` neither reads nor adds declared names. |
| Codegen.ForHeader | src/compiler/CppCodegenVisitor.ts:168-181 | With no init, test or update the header is `; ; `. Failures are unsupported expressions only. |
| CodegenLayout.CountingHeader | src/__tests__/compiler.test.ts:44-49 | The header of `for (let i = 0; i < 5; i = i + 1)` is `int i = 0; (i < 5); i = (i + 1)`. |
| CodegenLayout.FunctionHeader | src/compiler/CppCodegenVisitor.ts:88-93 | A function declaration's first emitted line is `int name(int p1, ..., int pn)` at the current indent, each parameter typed `int` in order. |
| CodegenLayout.AddHeader | src/__tests__/compiler.test.ts:57-66 | `function add(a, b)` emits `int add(int a, int b)` as its first line. |
| CodegenLayout.HoistSkips | src/compiler/CppCodegenVisitor.ts:50-56 | With no function declarations, hoisting emits nothing. |
| CodegenLayout.MainSkips | src/compiler/CppCodegenVisitor.ts:62-66 | A body made only of function declarations adds nothing inside `main`. |
| CodegenLayout.MainFrame | src/compiler/CppCodegenVisitor.ts:58-70 | `int main() {` follows whatever came before, and the output ends with `return 0;` and `}` at the margin. |
| CodegenLayout.ProgramLayout | src/compiler/CppCodegenVisitor.ts:16-71 | Generated output starts with the fixed prelude and ends with the frame of `main`. Without function declarations, `main` opens right after the prelude. |
| CodegenProgram.Functions | src/compiler/CppCodegenVisitor.ts:51-52 | The statements kept are function declarations only, each typed when the body is. |
| CodegenProgram.Others | src/compiler/CppCodegenVisitor.ts:62-63 | The statements kept are never function declarations, each typed when the body is. |
| CodegenProgram.SplitSizes | src/compiler/CppCodegenVisitor.ts:50-66 | Every statement goes to exactly one of the two passes. |
| CodegenProgram.HoistEach | src/compiler/CppCodegenVisitor.ts:51-56 | Visiting function declarations in turn, an empty line after each, only appends lines. |
| CodegenProgram.HoistIsFiltered | src/compiler/CppCodegenVisitor.ts:50-56 | The hoisting pass is exactly: visit each function declaration of the body, in source order, and emit an empty line after it. Nothing else is visited. |
| CodegenProgram.MainIsFiltered | src/compiler/CppCodegenVisitor.ts:61-66 | The `main` pass is exactly: visit each statement that is not a function declaration, in source order. |
| CodegenProgram.HoistHeaders | src/compiler/CppCodegenVisitor.ts:50-56 | Hoisting emits the signature of every function declaration at increasing positions, in source order, the first on the first new line. |
| CodegenProgram.ProgramSections | src/compiler/CppCodegenVisitor.ts:16-71 | A generated program is the prelude, then the signatures of all function declarations in source order, the first right after the prelude and all before `int main() {`, then the frame of `main`. |
| CodegenProgram.FirstFunctionFirst | src/compiler/CppCodegenVisitor.ts:50-58 | When the program opens with a function declaration, its signature is the first line after the prelude, and `int main() {` comes later. |
| CodegenProgram.AddProgram | src/__tests__/compiler.test.ts:57-70 | The program `function add(a, b) { ... }` followed by any statements puts `int add(int a, int b)` right after the prelude, before `int main() {`. |
| CodegenLayout.EmitAllAtMargin | src/compiler/CppCodegenVisitor.ts:17-48 | At indent 0 the prelude lines are emitted unchanged. |
| CodegenLayout.VisitLeaf | src/parser/ast.ts:60-470 | For nodes whose `accept` only calls their own method, visiting is that one method. |

## Left out

- `src/compiler/index.ts` is not part of this model: `compile` there returns a placeholder and never calls the generator.
- `src/parser/PrintVisitor.ts`, the command-line entry points, the build scripts and the compiled `dist/` copies are not part of this model. They are I/O, packaging, or an older revision of the same code.
- Class lowering, field inference, forward declarations and header discovery are not implemented by the generator. A class, method definition, `this` or `new` reached by a visit fails with `NotAFunction`, standing for the `TypeError` of calling a missing visitor method.
- The generator's prelude (`CppCodegenVisitor.ts:17-48`) is kept as a fixed list of lines; nothing is proved about its C++ content.
- `Math.random` is the parameter `pick`. Only the number of draws is tracked.
- `String(value)` for numbers is modelled for natural numbers only: the lexer yields nothing else. JavaScript's exponent notation for very large values and `parseInt`'s loss of precision beyond 2^53 are not modelled.
- The source indexes its input by UTF-16 code units; the model indexes by characters. For a character outside the Basic Multilingual Plane the source advances the column by 2, and an unexpected such character is reported as its lone leading surrogate. The model advances by 1 and reports the whole character.
- `/\s/` is a fixed set of whitespace characters. Line and column tracking follow the code, but columns are not proved about beyond the first token.
- Error messages are structured values (kind, token kinds, character, line, column) rather than formatted strings.
- Codegen.ExpressionStatement: lowers all `console.log` arguments before emitting any line. The loop lowers each just before its line, but a failure discards the whole output, so the result is the same.
- Codegen.ReturnStatement: its contract states one line and no declarations, not the exact `return value;` text.
- Codegen.IfStatement, Codegen.WhileStatement, Codegen.ForStatement, Codegen.FunctionDeclaration, Codegen.BlockStatement, Codegen.Program: their own contracts only state that output is appended. The exact first line of a `let`, a `for` and a function declaration, block layout, `console.log` and the program frame are stated by CodegenLayout lemmas. The exact lines of `if`, `while` and `return` are not stated.
- Codegen.GenOperation, Codegen.GenCall, Codegen.GenMember, Codegen.GenContainer: their contracts state when lowering succeeds. Their exact text formats are stated only through CodegenProps (balance, parenthesisation, literals, element order).
- Parser.Parse: it only runs the lexer and then `ParseProgram`. Its contract states that the result is well formed or an error; what a given text parses to is stated only through the stream-level lemmas of ParserExamples.
- Parser.ParseProgram: there is no proof that printing a tree and parsing it back gives the same tree. The parser's contracts state the shape of what it builds, not a round trip.
- Parser.ParseCallMember, Parser.ParseBlock, Parser.ParseWhile, Parser.ParseFunction, Parser.ParseClass, Parser.ParseReturn, Parser.ParseVariableDeclaration, Parser.ParseArray, Parser.ParseObject, Parser.ParseFirst, Parser.ParseParenthesized: their contracts state progress and the shape of the node built, not the exact tokens consumed.
- Booleans lower to `true`/`false` by definition; there is no separate lemma for them.
