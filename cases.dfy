/*
 * The unit tests of ch06/src/parse.rs, ch06/src/codegen.rs and
 * ch06/src/evaluator.rs, restated as facts about the model: each source test
 * is a lemma here whose postconditions are that test's assertions.
 */
module Cases {
  import opened Ast
  import opened Parser
  import Codegen
  import opened Vm
  import Correctness

  predicate Plain(c: char) { c != '(' && c != ')' && c != '|' && c != '*' }

  /** One term of a concatenation, given what `parse_star` makes of it. */
  lemma Term(s: seq<char>, i: nat, acc: seq<Node>, node: Node, j: nat, next: seq<Node>)
    requires i < |s| && s[i] != ')' && s[i] != '|'
    requires j <= |s| && StarSpec(s, i) == Ok(Parsed(node, j))
    requires next == acc + [node]
    ensures TermsSpec(s, i, acc) == TermsSpec(s, j, next)
  {
  }

  /** One plain character, not followed by `*`, as a term. */
  lemma Lit(s: seq<char>, i: nat, acc: seq<Node>, next: seq<Node>)
    requires i < |s| && Plain(s[i]) && (i + 1 == |s| || s[i + 1] != '*')
    requires next == acc + [Char(s[i])]
    ensures TermsSpec(s, i, acc) == TermsSpec(s, i + 1, next)
  {
    assert GroupSpec(s, i) == Ok(Parsed(Char(s[i]), i + 1));
    Term(s, i, acc, Char(s[i]), i + 1, next);
  }

  /** One plain character followed by `*` as a term. */
  lemma StarLit(s: seq<char>, i: nat, acc: seq<Node>, next: seq<Node>)
    requires i + 1 < |s| && Plain(s[i]) && s[i + 1] == '*'
    requires next == acc + [Star(Char(s[i]))]
    ensures TermsSpec(s, i, acc) == TermsSpec(s, i + 2, next)
  {
    assert GroupSpec(s, i) == Ok(Parsed(Char(s[i]), i + 1));
    Term(s, i, acc, Star(Char(s[i])), i + 2, next);
  }

  /** Two plain characters, the second not followed by `*`, as the first two terms. */
  lemma TwoLits(s: seq<char>, i: nat)
    requires i + 2 <= |s| && Plain(s[i]) && Plain(s[i + 1]) && (i + 2 == |s| || s[i + 2] != '*')
    ensures TermsSpec(s, i, []) == TermsSpec(s, i + 2, [Char(s[i]), Char(s[i + 1])])
  {
    var x, y := Char(s[i]), Char(s[i + 1]);
    Lit(s, i, [], [x]);
    Lit(s, i + 1, [x], [x, y]);
  }

  lemma ParseCharTest()
    ensures ParseSpec("a") == Ok(Char('a'))
  {
    Lit("a", 0, [], [Char('a')]);
  }

  lemma ParseSeqTest()
    ensures ParseSpec("ab") == Ok(Seq([Char('a'), Char('b')]))
    ensures ParseSpec("abc") == Ok(Seq([Char('a'), Char('b'), Char('c')]))
  {
    Lit("ab", 0, [], [Char('a')]);
    Lit("ab", 1, [Char('a')], [Char('a'), Char('b')]);
    Lit("abc", 0, [], [Char('a')]);
    Lit("abc", 1, [Char('a')], [Char('a'), Char('b')]);
    Lit("abc", 2, [Char('a'), Char('b')], [Char('a'), Char('b'), Char('c')]);
  }

  lemma ParseStarTest()
    ensures ParseSpec("a*") == Ok(Star(Char('a')))
    ensures ParseSpec("abc*") == Ok(Seq([Char('a'), Char('b'), Star(Char('c'))]))
  {
    StarLit("a*", 0, [], [Star(Char('a'))]);
    Lit("abc*", 0, [], [Char('a')]);
    Lit("abc*", 1, [Char('a')], [Char('a'), Char('b')]);
    StarLit("abc*", 2, [Char('a'), Char('b')], [Char('a'), Char('b'), Star(Char('c'))]);
  }

  lemma ParseOrTest()
    ensures ParseSpec("a|b") == Ok(Or(Char('a'), Char('b')))
    ensures ParseSpec("a|b|c") == Ok(Or(Char('a'), Or(Char('b'), Char('c'))))
  {
    Lit("a|b", 0, [], [Char('a')]);
    Lit("a|b", 2, [], [Char('b')]);
    assert OrSpec("a|b", 2) == Ok(Parsed(Char('b'), 3));
    assert OrSpec("a|b", 0) == Ok(Parsed(Or(Char('a'), Char('b')), 3));
    var s := "a|b|c";
    Lit(s, 0, [], [Char('a')]);
    Lit(s, 2, [], [Char('b')]);
    Lit(s, 4, [], [Char('c')]);
    assert OrSpec(s, 4) == Ok(Parsed(Char('c'), 5));
    assert OrSpec(s, 2) == Ok(Parsed(Or(Char('b'), Char('c')), 5));
    assert OrSpec(s, 0) == Ok(Parsed(Or(Char('a'), Or(Char('b'), Char('c'))), 5));
  }

  lemma ParseGroupCharTest()
    ensures ParseSpec("(a)") == Ok(Char('a'))
  {
    var s := "(a)";
    Lit(s, 1, [], [Char('a')]);
    assert OrSpec(s, 1) == Ok(Parsed(Char('a'), 2));
    assert StarSpec(s, 0) == Ok(Parsed(Char('a'), 3));
    Term(s, 0, [], Char('a'), 3, [Char('a')]);
  }

  lemma ParseGroupSeqTest()
    ensures ParseSpec("(ab)") == Ok(Seq([Char('a'), Char('b')]))
    ensures ParseSpec("(abc)") == Ok(Seq([Char('a'), Char('b'), Char('c')]))
  {
    var ab := [Char('a'), Char('b')];
    var s := "(ab)";
    Lit(s, 1, [], [Char('a')]);
    Lit(s, 2, [Char('a')], ab);
    assert OrSpec(s, 1) == Ok(Parsed(Seq(ab), 3));
    assert StarSpec(s, 0) == Ok(Parsed(Seq(ab), 4));
    Term(s, 0, [], Seq(ab), 4, [Seq(ab)]);
    var abc := [Char('a'), Char('b'), Char('c')];
    var t := "(abc)";
    Lit(t, 1, [], [Char('a')]);
    Lit(t, 2, [Char('a')], ab);
    Lit(t, 3, ab, abc);
    assert OrSpec(t, 1) == Ok(Parsed(Seq(abc), 4));
    assert StarSpec(t, 0) == Ok(Parsed(Seq(abc), 5));
    Term(t, 0, [], Seq(abc), 5, [Seq(abc)]);
  }

  lemma ParseGroupStarTest()
    ensures ParseSpec("(ab)*") == Ok(Star(Seq([Char('a'), Char('b')])))
  {
    var ab := [Char('a'), Char('b')];
    var s := "(ab)*";
    Lit(s, 1, [], [Char('a')]);
    Lit(s, 2, [Char('a')], ab);
    assert OrSpec(s, 1) == Ok(Parsed(Seq(ab), 3));
    assert GroupSpec(s, 0) == Ok(Parsed(Seq(ab), 4));
    assert StarSpec(s, 0) == Ok(Parsed(Star(Seq(ab)), 5));
    Term(s, 0, [], Star(Seq(ab)), 5, [Star(Seq(ab))]);
  }

  lemma NestedOrGroup()
    ensures StarSpec("ab(c|de)", 2) == Ok(Parsed(Or(Char('c'), Seq([Char('d'), Char('e')])), 8))
  {
    var s := "ab(c|de)";
    var de := [Char('d'), Char('e')];
    Lit(s, 3, [], [Char('c')]);
    Lit(s, 5, [], [Char('d')]);
    Lit(s, 6, [Char('d')], de);
    assert OrSpec(s, 5) == Ok(Parsed(Seq(de), 7));
    assert OrSpec(s, 3) == Ok(Parsed(Or(Char('c'), Seq(de)), 7));
  }

  lemma ParseNestedOrTest()
    ensures ParseSpec("ab(c|de)") == Ok(Seq([Char('a'), Char('b'), Or(Char('c'), Seq([Char('d'), Char('e')]))]))
  {
    var s := "ab(c|de)";
    var ab := [Char('a'), Char('b')];
    var alt := Or(Char('c'), Seq([Char('d'), Char('e')]));
    var items := [Char('a'), Char('b'), alt];
    TwoLits(s, 0);
    NestedOrGroup();
    Term(s, 2, ab, alt, 8, items);
    assert TermsSpec(s, 8, items) == Ok((items, 8));
    assert ConcatSpec(s, 0) == Ok(Parsed(Seq(items), 8));
    assert OrSpec(s, 0) == Ok(Parsed(Seq(items), 8));
  }

  lemma StarGroupLoop()
    ensures StarSpec("a(bc)*d", 1) == Ok(Parsed(Star(Seq([Char('b'), Char('c')])), 6))
  {
    var s := "a(bc)*d";
    var bc := [Char('b'), Char('c')];
    Lit(s, 2, [], [Char('b')]);
    Lit(s, 3, [Char('b')], bc);
    assert OrSpec(s, 2) == Ok(Parsed(Seq(bc), 4));
    assert GroupSpec(s, 1) == Ok(Parsed(Seq(bc), 5));
  }

  lemma ParseStarGroupTest()
    ensures ParseSpec("a(bc)*d") == Ok(Seq([Char('a'), Star(Seq([Char('b'), Char('c')])), Char('d')]))
  {
    var s := "a(bc)*d";
    var loop := Star(Seq([Char('b'), Char('c')]));
    Lit(s, 0, [], [Char('a')]);
    StarGroupLoop();
    Term(s, 1, [Char('a')], loop, 6, [Char('a'), loop]);
    Lit(s, 6, [Char('a'), loop], [Char('a'), loop, Char('d')]);
  }

  lemma ParseOrStarTest()
    ensures ParseSpec("a|bc*") == Ok(Or(Char('a'), Seq([Char('b'), Star(Char('c'))])))
  {
    var s := "a|bc*";
    Lit(s, 0, [], [Char('a')]);
    Lit(s, 2, [], [Char('b')]);
    StarLit(s, 3, [Char('b')], [Char('b'), Star(Char('c'))]);
  }

  lemma ParseOrSeqTest()
    ensures ParseSpec("abc|def") == Ok(Or(Seq([Char('a'), Char('b'), Char('c')]), Seq([Char('d'), Char('e'), Char('f')])))
  {
    var s := "abc|def";
    ConcatThree(s, 0);
    ConcatThree(s, 4);
    var abc, def := Seq([Char('a'), Char('b'), Char('c')]), Seq([Char('d'), Char('e'), Char('f')]);
    assert s[3] == '|' && |s| == 7;
    assert OrSpec(s, 4) == Ok(Parsed(def, 7));
    assert OrSpec(s, 0) == Ok(Parsed(Or(abc, def), 7));
  }

  /** Three plain characters that end a concatenation parse as the `Seq` of the three. */
  lemma ConcatThree(s: seq<char>, i: nat)
    requires i + 3 <= |s| && Plain(s[i]) && Plain(s[i + 1]) && Plain(s[i + 2]) && EndsConcat(s, i + 3)
    ensures ConcatSpec(s, i) == Ok(Parsed(Seq([Char(s[i]), Char(s[i + 1]), Char(s[i + 2])]), i + 3))
  {
    var x, y, z := Char(s[i]), Char(s[i + 1]), Char(s[i + 2]);
    Lit(s, i, [], [x]);
    Lit(s, i + 1, [x], [x, y]);
    Lit(s, i + 2, [x, y], [x, y, z]);
    assert TermsSpec(s, i + 3, [x, y, z]) == Ok(([x, y, z], i + 3));
  }

  /** A group left open is the parser's one error; a `)` that closes no group ends the pattern. */
  lemma ParseEdgeCases()
    ensures ParseSpec("(a") == Err(UnclosedGroup)
    ensures ParseSpec("a)b") == Ok(Char('a'))
  {
    Lit("(a", 1, [], [Char('a')]);
    Lit("a)b", 0, [], [Char('a')]);
  }

  /** A group inside a concatenation stays one item: `(ab)c` is not flattened to `abc`. */
  lemma ParseGroupNotFlattened()
    ensures ParseSpec("(ab)c") == Ok(Seq([Seq([Char('a'), Char('b')]), Char('c')]))
  {
    var s := "(ab)c";
    var ab := [Char('a'), Char('b')];
    Lit(s, 1, [], [Char('a')]);
    Lit(s, 2, [Char('a')], ab);
    assert OrSpec(s, 1) == Ok(Parsed(Seq(ab), 3));
    assert StarSpec(s, 0) == Ok(Parsed(Seq(ab), 4));
    Term(s, 0, [], Seq(ab), 4, [Seq(ab)]);
    Lit(s, 4, [Seq(ab)], [Seq(ab), Char('c')]);
  }

  lemma CodegenCharTest()
    ensures Codegen.Program(Char('a')) == [Codegen.Char('a'), Codegen.Match]
  {
  }

  lemma CodegenSeqTest()
    ensures Codegen.Program(Seq([Char('a'), Char('b'), Char('c')]))
         == [Codegen.Char('a'), Codegen.Char('b'), Codegen.Char('c'), Codegen.Match]
  {
    var items := [Char('a'), Char('b'), Char('c')];
    assert items[1..] == [Char('b'), Char('c')];
    assert items[1..][1..] == [Char('c')];
    assert Codegen.CodeSeq([Char('c')], 2) == [Codegen.Char('c')];
    assert Codegen.CodeSeq([Char('b'), Char('c')], 1) == [Codegen.Char('b'), Codegen.Char('c')];
  }

  lemma CodegenOrTest()
    ensures Codegen.Program(Or(Char('a'), Char('b')))
         == [Codegen.Split(1, 3), Codegen.Char('a'), Codegen.Jmp(4), Codegen.Char('b'), Codegen.Match]
    ensures Codegen.Program(Or(Char('a'), Or(Char('b'), Char('c'))))
         == [Codegen.Split(1, 3), Codegen.Char('a'), Codegen.Jmp(7), Codegen.Split(4, 6),
             Codegen.Char('b'), Codegen.Jmp(7), Codegen.Char('c'), Codegen.Match]
  {
  }

  lemma CodegenStarTest()
    ensures Codegen.Program(Star(Char('a'))) == [Codegen.Split(1, 3), Codegen.Char('a'), Codegen.Jmp(0), Codegen.Match]
  {
  }

  /** The `test` helper of the evaluator's tests: parse, generate, run. */
  function Pipeline(regex: seq<char>, text: seq<char>, fuel: nat): Result<Status>
  {
    var n :- ParseSpec(regex);
    Ok(EvalSpec(Codegen.Program(n), text, fuel))
  }

  lemma PipelineOf(regex: seq<char>, n: Node, prog: seq<Codegen.Inst>, text: seq<char>, fuel: nat)
    requires ParseSpec(regex) == Ok(n) && Codegen.Program(n) == prog
    ensures Pipeline(regex, text, fuel) == Ok(EvalSpec(prog, text, fuel))
  {
  }

  lemma EvalCharRuns()
    ensures EvalSpec([Codegen.Char('a'), Codegen.Match], "a", 10) == Matched
    ensures EvalSpec([Codegen.Char('a'), Codegen.Match], "b", 10) == NoMatch
  {
  }

  lemma EvalCharTest()
    ensures Pipeline("a", "a", 10) == Ok(Matched)
    ensures Pipeline("a", "b", 10) == Ok(NoMatch)
  {
    ParseCharTest();
    CodegenCharTest();
    EvalCharRuns();
    PipelineOf("a", Char('a'), [Codegen.Char('a'), Codegen.Match], "a", 10);
    PipelineOf("a", Char('a'), [Codegen.Char('a'), Codegen.Match], "b", 10);
  }

  lemma EvalSeqRuns()
    ensures var p := [Codegen.Char('a'), Codegen.Char('b'), Codegen.Char('c'), Codegen.Match];
      && EvalSpec(p, "abc", 10) == Matched
      && EvalSpec(p, "abcd", 10) == Matched
      && EvalSpec(p, "a", 10) == NoMatch
      && EvalSpec(p, "abd", 10) == NoMatch
      && EvalSpec(p, "abdc", 10) == NoMatch
  {
  }

  lemma EvalSeqTest()
    ensures Pipeline("abc", "abc", 10) == Ok(Matched)
    ensures Pipeline("abc", "abcd", 10) == Ok(Matched)
    ensures Pipeline("abc", "a", 10) == Ok(NoMatch)
    ensures Pipeline("abc", "abd", 10) == Ok(NoMatch)
    ensures Pipeline("abc", "abdc", 10) == Ok(NoMatch)
  {
    var n := Seq([Char('a'), Char('b'), Char('c')]);
    var p := [Codegen.Char('a'), Codegen.Char('b'), Codegen.Char('c'), Codegen.Match];
    ParseSeqTest();
    CodegenSeqTest();
    EvalSeqRuns();
    PipelineOf("abc", n, p, "abc", 10);
    PipelineOf("abc", n, p, "abcd", 10);
    PipelineOf("abc", n, p, "a", 10);
    PipelineOf("abc", n, p, "abd", 10);
    PipelineOf("abc", n, p, "abdc", 10);
  }

  lemma EvalOrRuns()
    ensures var p := [Codegen.Split(1, 3), Codegen.Char('a'), Codegen.Jmp(4), Codegen.Char('b'), Codegen.Match];
      && EvalSpec(p, "a", 10) == Matched
      && EvalSpec(p, "b", 10) == Matched
      && EvalSpec(p, "c", 10) == NoMatch
  {
  }

  lemma EvalOrTest()
    ensures Pipeline("a|b", "a", 10) == Ok(Matched)
    ensures Pipeline("a|b", "b", 10) == Ok(Matched)
    ensures Pipeline("a|b", "c", 10) == Ok(NoMatch)
  {
    var n := Or(Char('a'), Char('b'));
    var p := [Codegen.Split(1, 3), Codegen.Char('a'), Codegen.Jmp(4), Codegen.Char('b'), Codegen.Match];
    ParseOrTest();
    CodegenOrTest();
    EvalOrRuns();
    PipelineOf("a|b", n, p, "a", 10);
    PipelineOf("a|b", n, p, "b", 10);
    PipelineOf("a|b", n, p, "c", 10);
  }

  lemma EvalStarRuns()
    ensures var p := [Codegen.Split(1, 3), Codegen.Char('a'), Codegen.Jmp(0), Codegen.Match];
      && EvalSpec(p, "a", 20) == Matched
      && EvalSpec(p, "aaaa", 20) == Matched
  {
  }

  lemma EvalStarTest()
    ensures Pipeline("a*", "a", 20) == Ok(Matched)
    ensures Pipeline("a*", "aaaa", 20) == Ok(Matched)
  {
    var n := Star(Char('a'));
    var p := [Codegen.Split(1, 3), Codegen.Char('a'), Codegen.Jmp(0), Codegen.Match];
    ParseStarTest();
    CodegenStarTest();
    EvalStarRuns();
    PipelineOf("a*", n, p, "a", 20);
    PipelineOf("a*", n, p, "aaaa", 20);
  }

  lemma SeqOrGroup()
    ensures StarSpec("a(bc|de)", 1) == Ok(Parsed(Or(Seq([Char('b'), Char('c')]), Seq([Char('d'), Char('e')])), 8))
  {
    var s := "a(bc|de)";
    var bc := [Char('b'), Char('c')];
    var de := [Char('d'), Char('e')];
    Lit(s, 2, [], [Char('b')]);
    Lit(s, 3, [Char('b')], bc);
    Lit(s, 5, [], [Char('d')]);
    Lit(s, 6, [Char('d')], de);
    assert OrSpec(s, 5) == Ok(Parsed(Seq(de), 7));
    assert OrSpec(s, 2) == Ok(Parsed(Or(Seq(bc), Seq(de)), 7));
  }

  lemma ParseSeqOr()
    ensures ParseSpec("a(bc|de)") == Ok(Seq([Char('a'), Or(Seq([Char('b'), Char('c')]), Seq([Char('d'), Char('e')]))]))
  {
    var s := "a(bc|de)";
    var alt := Or(Seq([Char('b'), Char('c')]), Seq([Char('d'), Char('e')]));
    Lit(s, 0, [], [Char('a')]);
    SeqOrGroup();
    Term(s, 1, [Char('a')], alt, 8, [Char('a'), alt]);
  }

  lemma SeqOrProgram()
    ensures Codegen.Program(Seq([Char('a'), Or(Seq([Char('b'), Char('c')]), Seq([Char('d'), Char('e')]))]))
         == [Codegen.Char('a'), Codegen.Split(2, 5), Codegen.Char('b'), Codegen.Char('c'), Codegen.Jmp(7),
             Codegen.Char('d'), Codegen.Char('e'), Codegen.Match]
  {
    var bc, de := Seq([Char('b'), Char('c')]), Seq([Char('d'), Char('e')]);
    TwoChars('b', 'c', 2);
    TwoChars('d', 'e', 5);
    Codegen.OrCode(bc, de, 1);
    var alt := [Codegen.Split(2, 5), Codegen.Char('b'), Codegen.Char('c'), Codegen.Jmp(7), Codegen.Char('d'), Codegen.Char('e')];
    assert Codegen.Code(Or(bc, de), 1) == alt;
    assert [Or(bc, de)][1..] == [];
    assert Codegen.CodeSeq([Or(bc, de)], 1) == alt;
  }

  /** The code of a concatenation of two characters is those two `Char` instructions, wherever it is placed. */
  lemma TwoChars(x: char, y: char, l: nat)
    ensures Codegen.Code(Seq([Char(x), Char(y)]), l) == [Codegen.Char(x), Codegen.Char(y)]
  {
    var items := [Char(x), Char(y)];
    assert items[1..] == [Char(y)];
    assert Codegen.CodeSeq([Char(y)], l + 1) == [Codegen.Char(y)];
    assert Codegen.CodeSeq(items, l) == [Codegen.Char(x)] + Codegen.CodeSeq([Char(y)], l + 1);
  }

  lemma SeqOrRuns()
    ensures var p := [Codegen.Char('a'), Codegen.Split(2, 5), Codegen.Char('b'), Codegen.Char('c'), Codegen.Jmp(7),
                      Codegen.Char('d'), Codegen.Char('e'), Codegen.Match];
      && EvalSpec(p, "abc", 20) == Matched
      && EvalSpec(p, "ade", 20) == Matched
  {
  }

  lemma OrSeqProgram()
    ensures Codegen.Program(Or(Seq([Char('a'), Char('b'), Char('c')]), Seq([Char('d'), Char('e'), Char('f')])))
         == [Codegen.Split(1, 5), Codegen.Char('a'), Codegen.Char('b'), Codegen.Char('c'), Codegen.Jmp(8),
             Codegen.Char('d'), Codegen.Char('e'), Codegen.Char('f'), Codegen.Match]
  {
    var p := [Codegen.Split(1, 5), Codegen.Char('a'), Codegen.Char('b'), Codegen.Char('c'), Codegen.Jmp(8),
              Codegen.Char('d'), Codegen.Char('e'), Codegen.Char('f'), Codegen.Match];
    ThreeChars('a', 'b', 'c', 1);
    ThreeChars('d', 'e', 'f', 5);
    Codegen.OrCode(Seq([Char('a'), Char('b'), Char('c')]), Seq([Char('d'), Char('e'), Char('f')]), 0);
  }

  /** The code of a concatenation of three characters is those three `Char` instructions, wherever it is placed. */
  lemma ThreeChars(x: char, y: char, z: char, l: nat)
    ensures Codegen.Code(Seq([Char(x), Char(y), Char(z)]), l) == [Codegen.Char(x), Codegen.Char(y), Codegen.Char(z)]
  {
    var items := [Char(x), Char(y), Char(z)];
    assert items[1..] == [Char(y), Char(z)];
    assert items[1..][1..] == [Char(z)];
    assert Codegen.CodeSeq([Char(z)], l + 2) == [Codegen.Char(z)];
    assert Codegen.CodeSeq([Char(y), Char(z)], l + 1) == [Codegen.Char(y), Codegen.Char(z)];
    assert Codegen.CodeSeq(items, l) == [Codegen.Char(x)] + Codegen.CodeSeq([Char(y), Char(z)], l + 1);
  }

  lemma OrSeqRuns()
    ensures var p := [Codegen.Split(1, 5), Codegen.Char('a'), Codegen.Char('b'), Codegen.Char('c'), Codegen.Jmp(8),
                      Codegen.Char('d'), Codegen.Char('e'), Codegen.Char('f'), Codegen.Match];
      && EvalSpec(p, "abc", 20) == Matched
      && EvalSpec(p, "def", 20) == Matched
  {
  }

  lemma StarGroupProgram()
    ensures Codegen.Program(Seq([Char('a'), Star(Seq([Char('b'), Char('c')])), Char('d')]))
         == [Codegen.Char('a'), Codegen.Split(2, 5), Codegen.Char('b'), Codegen.Char('c'), Codegen.Jmp(1),
             Codegen.Char('d'), Codegen.Match]
  {
    var p := [Codegen.Char('a'), Codegen.Split(2, 5), Codegen.Char('b'), Codegen.Char('c'), Codegen.Jmp(1),
              Codegen.Char('d'), Codegen.Match];
    assert Codegen.Code(Star(Seq([Char('b'), Char('c')])), 1) == p[1..5];
  }

  /** The loop of `a(bc)*d` is entered three times before the `d` is matched. */
  lemma StarGroupRuns()
    ensures var p := [Codegen.Char('a'), Codegen.Split(2, 5), Codegen.Char('b'), Codegen.Char('c'), Codegen.Jmp(1),
                      Codegen.Char('d'), Codegen.Match];
      && EvalSpec(p, "ad", 40) == Matched
      && EvalSpec(p, "abcd", 40) == Matched
      && EvalSpec(p, "abcbcbcd", 40) == Matched
  {
    var p := [Codegen.Char('a'), Codegen.Split(2, 5), Codegen.Char('b'), Codegen.Char('c'), Codegen.Jmp(1),
              Codegen.Char('d'), Codegen.Match];
    var t := "abcbcbcd";
    assert Exec(p, t, 5, 7, 26).status == Matched;
    assert Exec(p, t, 2, 7, 26).status == NoMatch;
    assert Exec(p, t, 1, 7, 27).status == Matched;
    assert Exec(p, t, 1, 5, 31).status == Matched;
    assert Exec(p, t, 1, 3, 35).status == Matched;
    assert Exec(p, t, 1, 1, 39).status == Matched;
  }

  lemma EvalCompositeTest()
    ensures Pipeline("a(bc|de)", "abc", 20) == Ok(Matched)
    ensures Pipeline("a(bc|de)", "ade", 20) == Ok(Matched)
    ensures Pipeline("abc|def", "abc", 20) == Ok(Matched)
    ensures Pipeline("abc|def", "def", 20) == Ok(Matched)
    ensures Pipeline("a(bc)*d", "ad", 40) == Ok(Matched)
    ensures Pipeline("a(bc)*d", "abcd", 40) == Ok(Matched)
    ensures Pipeline("a(bc)*d", "abcbcbcd", 40) == Ok(Matched)
  {
    var n1 := Seq([Char('a'), Or(Seq([Char('b'), Char('c')]), Seq([Char('d'), Char('e')]))]);
    var p1 := [Codegen.Char('a'), Codegen.Split(2, 5), Codegen.Char('b'), Codegen.Char('c'), Codegen.Jmp(7),
               Codegen.Char('d'), Codegen.Char('e'), Codegen.Match];
    ParseSeqOr();
    SeqOrProgram();
    SeqOrRuns();
    PipelineOf("a(bc|de)", n1, p1, "abc", 20);
    PipelineOf("a(bc|de)", n1, p1, "ade", 20);
    var n2 := Or(Seq([Char('a'), Char('b'), Char('c')]), Seq([Char('d'), Char('e'), Char('f')]));
    var p2 := [Codegen.Split(1, 5), Codegen.Char('a'), Codegen.Char('b'), Codegen.Char('c'), Codegen.Jmp(8),
               Codegen.Char('d'), Codegen.Char('e'), Codegen.Char('f'), Codegen.Match];
    ParseOrSeqTest();
    OrSeqProgram();
    OrSeqRuns();
    PipelineOf("abc|def", n2, p2, "abc", 20);
    PipelineOf("abc|def", n2, p2, "def", 20);
    var n3 := Seq([Char('a'), Star(Seq([Char('b'), Char('c')])), Char('d')]);
    var p3 := [Codegen.Char('a'), Codegen.Split(2, 5), Codegen.Char('b'), Codegen.Char('c'), Codegen.Jmp(1),
               Codegen.Char('d'), Codegen.Match];
    ParseStarGroupTest();
    StarGroupProgram();
    StarGroupRuns();
    PipelineOf("a(bc)*d", n3, p3, "ad", 40);
    PipelineOf("a(bc)*d", n3, p3, "abcd", 40);
    PipelineOf("a(bc)*d", n3, p3, "abcbcbcd", 40);
  }

  /** The pattern `()*` parses to a loop around the empty sequence. */
  lemma ParseEmptyLoop()
    ensures ParseSpec("()*") == Ok(Star(Seq([])))
  {
    var s := "()*";
    assert TermsSpec(s, 1, []) == Ok(([], 1));
    assert OrSpec(s, 1) == Ok(Parsed(Seq([]), 1));
    assert GroupSpec(s, 0) == Ok(Parsed(Seq([]), 2));
    assert StarSpec(s, 0) == Ok(Parsed(Star(Seq([])), 3));
    Term(s, 0, [], Star(Seq([])), 3, [Star(Seq([]))]);
    assert TermsSpec(s, 0, []) == Ok(([Star(Seq([]))], 3));
    assert OrSpec(s, 0) == Ok(Parsed(Star(Seq([])), 3));
  }

  /** Parsing, compiling and running `()*` runs out of any fuel on any text. */
  lemma EmptyLoopPatternDiverges(text: seq<char>, fuel: nat)
    ensures Pipeline("()*", text, fuel) == Ok(OutOfFuel)
  {
    ParseEmptyLoop();
    Correctness.EmptyLoopDiverges(text, 0, fuel);
    PipelineOf("()*", Star(Seq([])), Codegen.Program(Star(Seq([]))), text, fuel);
  }
}
