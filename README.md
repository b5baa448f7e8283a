# A verified model of the ch06 backtracking regex engine

The `ch06` crate matches a regular expression against a text in three stages:

1. **Parser** (`ch06/src/parse.rs`). A recursive-descent parser reads the pattern and builds a `Node` tree.
   - The tree has four kinds of node: a literal character, a concatenation (`Seq`), a repetition (`Star`) and an alternation (`Or`).
   - Precedence, highest first: grouping `( )`, then `*`, then concatenation, then `|`.
2. **Code generator** (`ch06/src/codegen.rs`). A `Generator` turns the tree into a flat program.
   - The program uses four instructions: `Char`, `Jmp`, `Split` and `Match`.
   - A location counter `line` supplies the absolute jump addresses.
3. **Matcher** (`ch06/src/evaluator.rs`). A `Machine` runs the program over the text.
   - It keeps a program counter `pc` and a string pointer `sp`.
   - At a `Split` it backtracks: it re-runs itself from the first target, and if that fails it restores `sp` and runs from the second target.
   - Success means that some prefix of the text matches.

The model follows the source's own form:

- **Parser.** The shared character iterator becomes the cursor `pos` of a `Parser` object, and each production is a method that advances it.
- **Code generator.** `Generator` is a class whose `line` field `GenExpr` updates in place. A `Seq` is compiled by a `for` loop.
- **Matcher.** `Machine` is a class whose `pc` and `sp` fields `Run` updates in a `while` loop. At a `Split`, `Run` calls itself and then restores `sp`.

Each of these methods is proved to compute a pure function:

| method | function it computes |
|---|---|
| `Parser` methods | `OrSpec`, `ConcatSpec`, `StarSpec`, `GroupSpec` over (pattern, position) |
| `GenExpr` | `Code(n, l)`, the code of `n` placed at address `l` |
| `Run` | `Exec` |

The properties of each stage are proved about those functions.

`run` in the source need not return: on a loop whose body matches the empty word it re-enters itself at every `Split` and recurses without bound (in practice until the call stack overflows). So `Run` and `Exec` take a `fuel` argument.

- Each instruction on a path costs one unit of fuel, and reaching `Match` too needs one.
- Both re-runs at a `Split` receive what remains.
- A run that exhausts its fuel ends with status `OutOfFuel`, which stands for the source's unbounded recursion and for its stack exhaustion alike.

The main results (module `Correctness`) relate the compiled program to the declarative language `InLang` of the tree (module `Ast`):

- **Partial correctness.** When a run of `Program(n)` finishes, it reports a match exactly when some prefix of the text is in the language of `n`.
- **Termination.** When no loop body can match the empty word, every path of the run stops within `Steps(n, |text|) + 1` steps. So with that much fuel the run finishes and the matcher decides prefix matching.
- **Divergence.** The loop `()*` runs out of any fuel.

The module `Cases` restates every unit test of the three source files as a lemma.

## Model

| member | source | states |
|---|---|---|
| Parser.OrSpec | ch06/src/parse.rs:30-43 | a successful alternation leaves the cursor inside the input, either at the end or on a `)`, and builds a tree in which no `Seq` has exactly one item |
| Parser.ConcatSpec | ch06/src/parse.rs:45-62 | a concatenation stops at the end, a `)` or a `\|`, and never returns a one-item `Seq` (a single term is unwrapped) |
| Parser.TermsSpec | ch06/src/parse.rs:49-55 | the term loop only appends: the terms already collected stay a prefix of the result, and it stops at the end, a `)` or a `\|` |
| Parser.StarSpec | ch06/src/parse.rs:64-77 | a term consumes at least one character |
| Parser.GroupSpec | ch06/src/parse.rs:79-92 | a group consumes at least one character; it can fail only when it starts with `(`, and the character its `assert_eq!` checks is always `)` |
| Parser.ParseSpec | ch06/src/parse.rs:25-28 | a successful parse yields a tree in which no `Seq` has exactly one item |
| Parser.Parser.ParseOr | ch06/src/parse.rs:30-43 | the method returns what `OrSpec` gives at the old cursor and leaves the cursor where `OrSpec` ends; the cursor never moves back |
| Parser.Parser.ParseConcat | ch06/src/parse.rs:45-62 | the `while` loop returns what `ConcatSpec` gives at the old cursor and leaves the cursor where it ends |
| Parser.Parser.ParseStar | ch06/src/parse.rs:64-77 | the method returns what `StarSpec` gives and advances the cursor by at least one |
| Parser.Parser.ParseGroup | ch06/src/parse.rs:79-92 | the method returns what `GroupSpec` gives, or `UnclosedGroup` where the source panics, and advances the cursor by at least one |
| Parser.Parse | ch06/src/parse.rs:25-28 | a fresh cursor at position 0 yields `ParseSpec(pattern)`, a well-formed tree or `UnclosedGroup` |
| ParserProps.ParseFailsIffGroupLeftOpen | ch06/src/parse.rs:83-88 | parsing fails exactly when the input ends with a group still open; otherwise it stops at the first `)` that closes no group, or at the end |
| ParserProps.GroupClosesAtScan | ch06/src/parse.rs:79-92 | a group `( … )` succeeds exactly when the bracket scanner, started just inside the `(`, stops on a `)` rather than at the end or inside a group left open; the group then ends just past that `)` |
| ParserProps.ParseSingleChar | ch06/src/parse.rs:83-90 | any character other than `(`, `)` or `\|`, alone or inside a group, parses to that `Char`, with no wrapper |
| ParserProps.ParseEmpty | ch06/src/parse.rs:49-61 | the empty pattern and the empty group `()` both parse to `Seq([])` |
| Codegen.Code | ch06/src/codegen.rs:23-75 | the code of a node placed anywhere has `Len(n)` instructions: 1 for `Char`, the sum over the items for `Seq`, both branches plus 2 for `Or`, the body plus 2 for `Star` |
| Codegen.Generator.GenExpr | ch06/src/codegen.rs:23-75 | the method returns `Code(n, l)` for the old counter `l`, and the counter advances by exactly the number of instructions returned |
| Codegen.Generator.GenSeq | ch06/src/codegen.rs:29-35 | the `for` loop over the items returns the code of the whole `Seq` at the old counter and advances the counter past it |
| Codegen.Generator.GenOr | ch06/src/codegen.rs:36-57 | the `Or` arm returns the code of the `Or` at the old counter and advances the counter by its length |
| Codegen.Generator.GenStar | ch06/src/codegen.rs:58-73 | the `Star` arm returns the code of the `Star` at the old counter and advances the counter by its length |
| Codegen.SeqStep | ch06/src/codegen.rs:29-35 | one turn of the loop over a `Seq` appends the next item's code, placed where the code of the previous items ends |
| Codegen.OrPush | ch06/src/codegen.rs:36-57 | the `Split(l+1, l+\|lhs\|+2)`, the left code, the `Jmp(l2+\|rhs\|+1)` computed from the counter `l2` after the left branch, and the right code, in that order, are exactly the code of the `Or` at `l` |
| Codegen.StarPush | ch06/src/codegen.rs:58-73 | the `Split(l+1, l+\|body\|+2)`, the body's code and `Jmp(l)`, in that order, are exactly the code of the `Star` at `l` |
| Codegen.Gen | ch06/src/codegen.rs:11-16 | a generator starting at `line = 0` gives `Program(n)`: `Len(n) + 1` instructions, one `Match` and only as the last, every `Jmp`/`Split` target a valid index |
| Codegen.CodeSeqSnoc | ch06/src/codegen.rs:29-35 | the `for` loop over a `Seq` appends each item's code at the address where the previous items end |
| Codegen.CodeShape | ch06/src/codegen.rs:23-75 | `gen_expr` never emits `Match`, and every target it emits lies between the code's first address and the address just past it |
| Codegen.ProgramWellFormed | ch06/src/codegen.rs:11-16 | the whole program ends with its only `Match`, and every `Jmp`/`Split` target is an index of the program |
| Codegen.OrLayout | ch06/src/codegen.rs:36-57 | an `Or` at `l` starts with `Split(l+1, l+2+\|lhs\|)` pointing at both branches; the `Jmp` after the left branch targets the first address past the whole `Or` |
| Codegen.StarLayout | ch06/src/codegen.rs:58-73 | a `Star` at `l` starts with `Split(l+1, l+\|body\|+2)` (the body and the address past the loop) and ends with `Jmp(l)` back to that `Split` |
| Vm.Exec | ch06/src/evaluator.rs:22-54 | along a run `sp` never decreases and never passes the end of the text, and a run reports a match only while `pc` is on a `Match` instruction |
| Vm.Machine.Run | ch06/src/evaluator.rs:22-54 | the `while` loop and its recursive re-runs at `Split` end with the status and registers that `Exec` gives from the old registers |
| Vm.Eval | ch06/src/evaluator.rs:3-11 | a machine started at `pc = sp = 0` returns `EvalSpec(insts, text, fuel)` |
| Paths.ExecMono | ch06/src/evaluator.rs:22-54 | a run that finishes gives the same outcome with any larger fuel, so fuel only decides whether the source's run finishes |
| Paths.ExecDecides | ch06/src/evaluator.rs:39-50 | a finished run reports a match exactly when some sequence of choices at the `Split`s reaches `Match` |
| Correctness.Sound | ch06/src/evaluator.rs:22-54 | when the code of `n` placed at `l` leads to `Match`, it first consumes a word of the language of `n` and then leaves through the address past its code |
| Correctness.Complete | ch06/src/evaluator.rs:22-54 | for any word of the language of `n` at `sp`, the code of `n` at `l` can consume exactly that word and continue from the address past its code |
| Correctness.EvalCorrect | ch06/src/evaluator.rs:3-11 | when `eval(gen(n), text)` finishes, it returns true exactly when some prefix of `text` is in the language of `n` |
| Correctness.MatchSurvivesAppend | ch06/src/evaluator.rs:3-11 | matching is prefix matching: a text that matches still matches with characters appended, when that run finishes |
| Correctness.EvalTerminates | ch06/src/evaluator.rs:22-54 | when no loop body of `n` can match the empty word, every path of the run of `gen(n)` stops within `Steps(n, \|text\|) + 1` steps, so a run given that much fuel finishes |
| Correctness.EvalDecidesPrefixMatch | ch06/src/evaluator.rs:3-11 | with at least that much fuel, `eval(gen(n), text)` is true exactly when a prefix of `text` is in the language of `n`, and false otherwise |
| Correctness.EmptyLoopDiverges | ch06/src/evaluator.rs:38-50 | the program of `()*` cycles between its `Split` and its `Jmp` without end, so `run` does not return for it |
| Cases.ParseCharTest | ch06/src/parse.rs:99-101 | `a` parses to `Char(a)` |
| Cases.ParseSeqTest | ch06/src/parse.rs:104-113 | `ab` and `abc` parse to flat `Seq`s of their characters |
| Cases.ParseStarTest | ch06/src/parse.rs:116-126 | `*` binds only the preceding term: `a*` is `Star(a)`, and `abc*` is `Seq([a, b, Star(c)])` |
| Cases.ParseOrTest | ch06/src/parse.rs:129-144 | `\|` is right-associative: `a\|b\|c` is `Or(a, Or(b, c))` |
| Cases.ParseGroupCharTest | ch06/src/parse.rs:147-148 | `(a)` parses to `Char(a)` with no wrapper |
| Cases.ParseGroupSeqTest | ch06/src/parse.rs:149-156 | `(ab)` and `(abc)` parse to the same trees as `ab` and `abc` |
| Cases.ParseGroupStarTest | ch06/src/parse.rs:157-160 | `(ab)*` parses to `Star(Seq([a, b]))` |
| Cases.ParseNestedOrTest | ch06/src/parse.rs:161-171 | `ab(c\|de)` parses to `Seq([a, b, Or(c, Seq([d, e]))])` |
| Cases.ParseStarGroupTest | ch06/src/parse.rs:172-179 | `a(bc)*d` parses to `Seq([a, Star(Seq([b, c])), d])` |
| Cases.ParseOrStarTest | ch06/src/parse.rs:180-189 | `a\|bc*` parses to `Or(a, Seq([b, Star(c)]))` |
| Cases.ParseOrSeqTest | ch06/src/parse.rs:191-205 | `abc\|def` parses to `Or(Seq([a, b, c]), Seq([d, e, f]))` |
| Cases.ParseEdgeCases | ch06/src/parse.rs:83-88 | `(a` fails with `UnclosedGroup`; in `a)b` the stray `)` ends the pattern and the result is `Char(a)` |
| Cases.ParseGroupNotFlattened | ch06/src/parse.rs:45-62 | `(ab)c` parses to `Seq([Seq([a, b]), c])`: a group is one item of the outer concatenation |
| Cases.CodegenCharTest | ch06/src/codegen.rs:86-89 | `Char(a)` compiles to `[Char a, Match]` |
| Cases.CodegenSeqTest | ch06/src/codegen.rs:91-102 | `Seq([a, b, c])` compiles to its three characters and `Match` |
| Cases.CodegenOrTest | ch06/src/codegen.rs:104-136 | `Or(a, b)` and `Or(a, Or(b, c))` compile to the listed `Split`/`Jmp` programs |
| Cases.CodegenStarTest | ch06/src/codegen.rs:138-149 | `Star(a)` compiles to `[Split(1,3), Char a, Jmp 0, Match]` |
| Cases.EvalCharTest | ch06/src/evaluator.rs:77-81 | parse, compile and run: `a` matches `a` and not `b` |
| Cases.EvalSeqTest | ch06/src/evaluator.rs:83-91 | `abc` matches `abc` and `abcd`, and neither `a`, `abd` nor `abdc` |
| Cases.EvalOrTest | ch06/src/evaluator.rs:93-99 | `a\|b` matches `a` and `b`, and not `c` |
| Cases.EvalStarTest | ch06/src/evaluator.rs:101-105 | `a*` matches `a` and `aaaa` |
| Cases.ParseEmptyLoop | ch06/src/parse.rs:64-92 | the pattern `()*` parses to `Star(Seq([]))`, a loop around the empty sequence |
| Cases.EmptyLoopPatternDiverges | ch06/src/evaluator.rs:38-50 | parsing, compiling and running `()*` runs out of any fuel on any text |
| Cases.EvalCompositeTest | ch06/src/evaluator.rs:107-118 | `a(bc\|de)`, `abc\|def` and `a(bc)*d` match each of their listed texts |

## Left out

- **Divergence.** The source's `run` recurses without bound (in practice until the stack overflows) on a program whose loop body can match the empty word. The model gives every run `fuel` and reports `OutOfFuel` instead.
  - `EvalCorrect` covers every finished run.
  - `EvalTerminates` and `EvalDecidesPrefixMatch` bound the fuel needed when no loop body is nullable.
  - `EmptyLoopDiverges` and `EmptyLoopPatternDiverges` show that `()*` never finishes.
- **Call-stack depth.** The source's `run` nests one recursive call per `Split` it takes first, so a long enough text can exhaust the stack. For example, `a*` on many `a`s aborts the process where `EvalDecidesPrefixMatch` says `Matched`. Deeply nested `(` do the same to the mutually recursive parser functions. Stack depth is not modelled: `OutOfFuel` stands for unbounded recursion and for stack exhaustion alike, and the parser model has no depth limit.
- **Integer width.** `usize` overflow of `line`, `pc` and `sp` is not modelled: addresses and positions are unbounded naturals.
- **Characters.** Patterns and texts are sequences of `char`. The Unicode decoding done by `str::chars()` is not modelled.
- **Rust mechanics.** `Peekable`, `Box`, `Vec::append` and ownership become sequence operations on immutable values.
  - The tests hand `gen` a `Node` by value although it takes `&Node`. The model takes a `Node` and ignores that difference.
- **Panics.** The source panics in `parse_group` when the input ends where `)` is expected. The model returns `Err(UnclosedGroup)` there.
  - The `unwrap` on the first character of a group is never reached with an empty input, because every caller has checked that a character is present. It is a precondition of `StarSpec`, `GroupSpec`, `ParseStar` and `ParseGroup`.
- **Behaviour that differs from a usual regex parser.** The model follows the code:
  - The empty pattern is not an error: it parses to `Seq([])`, which matches the empty prefix of any text.
  - A `)` that closes no group is not an error: parsing stops there and the rest of the pattern is ignored.
- **Other files.** The driver `ch06/src/main.rs` and the `ch02` language-feature demos are not part of this model. They have no logic of their own, and one of them exists only to show threads and channels.
