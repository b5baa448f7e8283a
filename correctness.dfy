/*
 * What the matcher computes: the compiled program of a pattern, run by the
 * backtracking machine of ch06/src/evaluator.rs, reports a match exactly
 * when some prefix of the text is a word of the pattern's language.
 *
 * The argument goes through a path semantics, `Accepts`: some sequence of
 * choices at the `Split`s leads from (pc, sp) to `Match`. The machine's
 * run, whenever it finishes within its fuel, answers exactly that question
 * (`ExecDecides`). The code of each node, wherever it sits in the program,
 * has a path from its first instruction to the address just past it
 * consuming exactly the words of the node's language (`Sound`, `Complete`).
 */
module Correctness {
  import opened Ast
  import opened Codegen
  import opened Vm
  import opened Paths

  // ---------------------------------------------------------------------------
  // The code of a node matches the node's language
  // ---------------------------------------------------------------------------

  /**
   * Soundness: a path from the start of the code of `n` to `Match` first
   * leaves that code at the address just past it, having consumed a word of
   * the language of `n`.
   */
  lemma {:induction false} Sound(n: Node, prog: seq<Inst>, text: seq<char>, l: nat, sp: nat, f: nat)
    returns (j: nat, g: nat)
    requires CodeAt(prog, l, Code(n, l)) && sp <= |text|
    requires Accepts(prog, text, l, sp, f)
    ensures sp <= j <= |text| && g <= f
    ensures InLang(n, text[sp..j]) && Accepts(prog, text, l + Len(n), j, g)
    decreases f, n, 2
  {
    match n
    case Char(c) =>
      CodeAtSingle(prog, l, Codegen.Char(c));
      CharAccepts(prog, text, l, sp, f, c);
      j, g := sp + 1, f - 1;
    case Seq(items) =>
      j, g := SoundSeq(items, prog, text, l, sp, f);
    case Or(a, b) =>
      j, g := SoundOr(a, b, prog, text, l, sp, f);
    case Star(b) =>
      j, g := SoundStar(b, prog, text, l, sp, f);
  }

  lemma {:induction false} SoundOr(a: Node, b: Node, prog: seq<Inst>, text: seq<char>, l: nat, sp: nat, f: nat)
    returns (j: nat, g: nat)
    requires CodeAt(prog, l, Code(Or(a, b), l)) && sp <= |text|
    requires Accepts(prog, text, l, sp, f)
    ensures sp <= j <= |text| && g <= f
    ensures InLang(Or(a, b), text[sp..j]) && Accepts(prog, text, l + Len(Or(a, b)), j, g)
    decreases f, Or(a, b), 1
  {
    OrPieces(prog, a, b, l);
    SplitAccepts(prog, text, l, sp, f, l + 1, l + Len(a) + 2);
    if Accepts(prog, text, l + 1, sp, f - 1) {
      j, g := SoundOrLeft(a, b, prog, text, l, sp, f - 1);
    } else {
      j, g := SoundOrRight(a, b, prog, text, l, sp, f - 1);
    }
  }

  /** A path through the left branch of an `Or` leaves it by the `Jmp` past the right branch. */
  lemma {:induction false} SoundOrLeft(a: Node, b: Node, prog: seq<Inst>, text: seq<char>, l: nat, sp: nat, f: nat)
    returns (j: nat, g: nat)
    requires CodeAt(prog, l + 1, Code(a, l + 1)) && sp <= |text|
    requires l + 1 + Len(a) < |prog| && prog[l + 1 + Len(a)] == Jmp(l + Len(Or(a, b)))
    requires Accepts(prog, text, l + 1, sp, f)
    ensures sp <= j <= |text| && g <= f
    ensures InLang(Or(a, b), text[sp..j]) && Accepts(prog, text, l + Len(Or(a, b)), j, g)
    decreases f, Or(a, b), 0
  {
    var j1, g1 := Sound(a, prog, text, l + 1, sp, f);
    JmpAccepts(prog, text, l + 1 + Len(a), j1, g1, l + Len(Or(a, b)));
    j, g := j1, g1 - 1;
  }

  /** A path through the right branch of an `Or` leaves it at the address past the whole `Or`. */
  lemma {:induction false} SoundOrRight(a: Node, b: Node, prog: seq<Inst>, text: seq<char>, l: nat, sp: nat, f: nat)
    returns (j: nat, g: nat)
    requires CodeAt(prog, l + Len(a) + 2, Code(b, l + Len(a) + 2)) && sp <= |text|
    requires Accepts(prog, text, l + Len(a) + 2, sp, f)
    ensures sp <= j <= |text| && g <= f
    ensures InLang(Or(a, b), text[sp..j]) && Accepts(prog, text, l + Len(Or(a, b)), j, g)
    decreases f, Or(a, b), 0
  {
    j, g := Sound(b, prog, text, l + Len(a) + 2, sp, f);
    assert l + Len(a) + 2 + Len(b) == l + Len(Or(a, b));
  }

  lemma {:induction false} SoundStar(b: Node, prog: seq<Inst>, text: seq<char>, l: nat, sp: nat, f: nat)
    returns (j: nat, g: nat)
    requires CodeAt(prog, l, Code(Star(b), l)) && sp <= |text|
    requires Accepts(prog, text, l, sp, f)
    ensures sp <= j <= |text| && g <= f
    ensures InLang(Star(b), text[sp..j]) && Accepts(prog, text, l + Len(Star(b)), j, g)
    decreases f, Star(b), 0
  {
    StarPieces(prog, b, l);
    SplitAccepts(prog, text, l, sp, f, l + 1, l + Len(Star(b)));
    if Accepts(prog, text, l + 1, sp, f - 1) {
      var j1, g1 := Sound(b, prog, text, l + 1, sp, f - 1);
      JmpAccepts(prog, text, l + 1 + Len(b), j1, g1, l);
      j, g := Sound(Star(b), prog, text, l, j1, g1 - 1);
      if j1 > sp {
        StarWordMore(b, text, sp, j1, j);
      }
    } else {
      j, g := sp, f - 1;
    }
  }

  lemma {:induction false} SoundSeq(items: seq<Node>, prog: seq<Inst>, text: seq<char>, l: nat, sp: nat, f: nat)
    returns (j: nat, g: nat)
    requires CodeAt(prog, l, CodeSeq(items, l)) && sp <= |text|
    requires Accepts(prog, text, l, sp, f)
    ensures sp <= j <= |text| && g <= f
    ensures InLangSeq(items, text[sp..j]) && Accepts(prog, text, l + LenSeq(items), j, g)
    decreases f, items, 1
  {
    if items == [] {
      j, g := sp, f;
    } else {
      SeqPieces(prog, items, l);
      var j1, g1 := Sound(items[0], prog, text, l, sp, f);
      j, g := SoundSeq(items[1..], prog, text, l + Len(items[0]), j1, g1);
      SeqWordMore(items, text, sp, j1, j);
    }
  }

  /**
   * Completeness: for every word of the language of `n` starting at `sp`,
   * a path leads from the start of the code of `n` to the address just past
   * it with that word consumed; so any path onward from there extends to one
   * from the start.
   */
  lemma {:induction false} Complete(n: Node, prog: seq<Inst>, text: seq<char>, l: nat, sp: nat, j: nat, g: nat)
    returns (f: nat)
    requires CodeAt(prog, l, Code(n, l)) && sp <= j <= |text|
    requires InLang(n, text[sp..j])
    requires Accepts(prog, text, l + Len(n), j, g)
    ensures Accepts(prog, text, l, sp, f)
    decreases n, j - sp, 2
  {
    match n
    case Char(c) =>
      CodeAtSingle(prog, l, Codegen.Char(c));
      assert text[sp..j][0] == text[sp];
      f := g + 1;
    case Seq(items) =>
      f := CompleteSeq(items, prog, text, l, sp, j, g);
    case Or(a, b) =>
      f := CompleteOr(a, b, prog, text, l, sp, j, g);
    case Star(b) =>
      f := CompleteStar(b, prog, text, l, sp, j, g);
  }

  lemma {:induction false} CompleteOr(a: Node, b: Node, prog: seq<Inst>, text: seq<char>, l: nat, sp: nat, j: nat, g: nat)
    returns (f: nat)
    requires CodeAt(prog, l, Code(Or(a, b), l)) && sp <= j <= |text|
    requires InLang(Or(a, b), text[sp..j])
    requires Accepts(prog, text, l + Len(Or(a, b)), j, g)
    ensures Accepts(prog, text, l, sp, f)
    decreases Or(a, b), j - sp, 1
  {
    OrPieces(prog, a, b, l);
    var left := OrWord(a, b, text[sp..j]);
    var f1;
    if left {
      f1 := CompleteOrLeft(a, b, prog, text, l, sp, j, g);
      AcceptsSplitFirst(prog, text, l, sp, f1, l + 1, l + Len(a) + 2);
    } else {
      f1 := CompleteOrRight(a, b, prog, text, l, sp, j, g);
      AcceptsSplitSecond(prog, text, l, sp, f1, l + 1, l + Len(a) + 2);
    }
    f := f1 + 1;
  }

  /** A word of an `Or` is a word of one of its branches; `left` says which. */
  lemma OrWord(a: Node, b: Node, w: seq<char>) returns (left: bool)
    requires InLang(Or(a, b), w)
    ensures if left then InLang(a, w) else InLang(b, w)
  {
    left := InLang(a, w);
  }

  /** A word of the left branch: a path through it, then the `Jmp` over the right branch. */
  lemma {:induction false} CompleteOrLeft(a: Node, b: Node, prog: seq<Inst>, text: seq<char>, l: nat, sp: nat, j: nat, g: nat)
    returns (f: nat)
    requires CodeAt(prog, l + 1, Code(a, l + 1)) && sp <= j <= |text|
    requires l + 1 + Len(a) < |prog| && prog[l + 1 + Len(a)] == Jmp(l + Len(Or(a, b)))
    requires InLang(a, text[sp..j])
    requires Accepts(prog, text, l + Len(Or(a, b)), j, g)
    ensures Accepts(prog, text, l + 1, sp, f)
    decreases Or(a, b), j - sp, 0
  {
    AcceptsJmp(prog, text, l + 1 + Len(a), j, g, l + Len(Or(a, b)));
    f := Complete(a, prog, text, l + 1, sp, j, g + 1);
  }

  /** A word of the right branch: a path through it ends past the whole `Or`. */
  lemma {:induction false} CompleteOrRight(a: Node, b: Node, prog: seq<Inst>, text: seq<char>, l: nat, sp: nat, j: nat, g: nat)
    returns (f: nat)
    requires CodeAt(prog, l + Len(a) + 2, Code(b, l + Len(a) + 2)) && sp <= j <= |text|
    requires InLang(b, text[sp..j])
    requires Accepts(prog, text, l + Len(Or(a, b)), j, g)
    ensures Accepts(prog, text, l + Len(a) + 2, sp, f)
    decreases Or(a, b), j - sp, 0
  {
    assert l + Len(a) + 2 + Len(b) == l + Len(Or(a, b));
    f := Complete(b, prog, text, l + Len(a) + 2, sp, j, g);
  }

  lemma {:induction false} CompleteStar(b: Node, prog: seq<Inst>, text: seq<char>, l: nat, sp: nat, j: nat, g: nat)
    returns (f: nat)
    requires CodeAt(prog, l, Code(Star(b), l)) && sp <= j <= |text|
    requires InLang(Star(b), text[sp..j])
    requires Accepts(prog, text, l + Len(Star(b)), j, g)
    ensures Accepts(prog, text, l, sp, f)
    decreases Star(b), j - sp, 1
  {
    var w := text[sp..j];
    if w == [] {
      StarPieces(prog, b, l);
      assert j == sp;
      AcceptsSplitSecond(prog, text, l, sp, g, l + 1, l + Len(Star(b)));
      f := g + 1;
    } else {
      var k :| 0 < k <= |w| && InLang(b, w[..k]) && InLang(Star(b), w[k..]);
      SliceSplit(text, sp, sp + k, j);
      f := CompleteStarAgain(b, prog, text, l, sp, sp + k, j, g);
    }
  }

  /** One more iteration of the loop: a word of the body from `sp` to `k`, then the rest of the star's word. */
  lemma {:induction false} CompleteStarAgain(b: Node, prog: seq<Inst>, text: seq<char>, l: nat, sp: nat, k: nat, j: nat, g: nat)
    returns (f: nat)
    requires CodeAt(prog, l, Code(Star(b), l)) && sp < k <= j <= |text|
    requires InLang(b, text[sp..k]) && InLang(Star(b), text[k..j])
    requires Accepts(prog, text, l + Len(Star(b)), j, g)
    ensures Accepts(prog, text, l, sp, f)
    decreases Star(b), j - sp, 0
  {
    StarPieces(prog, b, l);
    var f1 := Complete(Star(b), prog, text, l, k, j, g);
    // the body ends on the `Jmp` back to the `Split`
    AcceptsJmp(prog, text, l + 1 + Len(b), k, f1, l);
    var f2 := Complete(b, prog, text, l + 1, sp, k, f1 + 1);
    AcceptsSplitFirst(prog, text, l, sp, f2, l + 1, l + Len(Star(b)));
    f := f2 + 1;
  }

  lemma {:induction false} CompleteSeq(items: seq<Node>, prog: seq<Inst>, text: seq<char>, l: nat, sp: nat, j: nat, g: nat)
    returns (f: nat)
    requires CodeAt(prog, l, CodeSeq(items, l)) && sp <= j <= |text|
    requires InLangSeq(items, text[sp..j])
    requires Accepts(prog, text, l + LenSeq(items), j, g)
    ensures Accepts(prog, text, l, sp, f)
    decreases items, j - sp, 1
  {
    if items == [] {
      f := g;
    } else {
      SeqPieces(prog, items, l);
      var w := text[sp..j];
      var k :| 0 <= k <= |w| && InLang(items[0], w[..k]) && InLangSeq(items[1..], w[k..]);
      SliceSplit(text, sp, sp + k, j);
      var f1 := CompleteSeq(items[1..], prog, text, l + Len(items[0]), sp + k, j, g);
      f := Complete(items[0], prog, text, l, sp, sp + k, f1);
    }
  }

  // ---------------------------------------------------------------------------
  // The whole program
  // ---------------------------------------------------------------------------

  lemma ProgramCode(n: Node)
    ensures CodeAt(Program(n), 0, Code(n, 0))
    ensures |Program(n)| == Len(n) + 1 && Program(n)[Len(n)] == Match
  {
    assert Program(n)[0..|Code(n, 0)|] == Code(n, 0);
  }

  /** A path of `gen(n)` that reaches `Match` has consumed a word of `n` from the start of the text. */
  lemma ProgramAcceptsOnlyPrefixMatch(n: Node, text: seq<char>, f: nat)
    requires Accepts(Program(n), text, 0, 0, f)
    ensures PrefixMatch(n, text)
  {
    ProgramCode(n);
    var j, _ := Sound(n, Program(n), text, 0, 0, f);
    assert text[0..j] == text[..j];
  }

  /** For a prefix of the text that is a word of `n`, some path of `gen(n)` reaches `Match`. */
  lemma PrefixMatchProgramAccepts(n: Node, text: seq<char>) returns (f: nat)
    requires PrefixMatch(n, text)
    ensures Accepts(Program(n), text, 0, 0, f)
  {
    var prog := Program(n);
    ProgramCode(n);
    var j: nat :| j <= |text| && InLang(n, text[..j]);
    assert text[0..j] == text[..j];
    f := Complete(n, prog, text, 0, 0, j, 1);
  }

  /**
   * Partial correctness of `eval(gen(n), text)`: whenever the run finishes,
   * it reports a match exactly when some prefix of `text` is a word of `n`.
   * (The run may not finish at all: see `EmptyLoopDiverges`.)
   */
  lemma EvalCorrect(n: Node, text: seq<char>, fuel: nat)
    requires EvalSpec(Program(n), text, fuel) != OutOfFuel
    ensures EvalSpec(Program(n), text, fuel) == Matched <==> PrefixMatch(n, text)
  {
    var prog := Program(n);
    ExecDecides(prog, text, 0, 0, fuel);
    if EvalSpec(prog, text, fuel) == Matched {
      ProgramAcceptsOnlyPrefixMatch(n, text, fuel);
    }
    if PrefixMatch(n, text) {
      var f := PrefixMatchProgramAccepts(n, text);
      if f <= fuel {
        AcceptsMono(prog, text, 0, 0, f, fuel);
      } else {
        ExecMono(prog, text, 0, 0, fuel, f);
        ExecDecides(prog, text, 0, 0, f);
      }
    }
  }

  /**
   * Matching is prefix matching: a text that matches still matches with
   * anything appended to it, whenever that run finishes.
   */
  lemma MatchSurvivesAppend(n: Node, text: seq<char>, more: seq<char>, f1: nat, f2: nat)
    requires EvalSpec(Program(n), text, f1) == Matched
    requires EvalSpec(Program(n), text + more, f2) != OutOfFuel
    ensures EvalSpec(Program(n), text + more, f2) == Matched
  {
    EvalCorrect(n, text, f1);
    var j :| 0 <= j <= |text| && InLang(n, text[..j]);
    assert (text + more)[..j] == text[..j];
    EvalCorrect(n, text + more, f2);
  }

  // ---------------------------------------------------------------------------
  // Termination when no loop body can match the empty word
  // ---------------------------------------------------------------------------

  /** Every path from (pc, sp) stops — at `Match`, at a failing `Char` or past the end — within `fuel` steps. */
  ghost predicate Halts(prog: seq<Inst>, text: seq<char>, pc: nat, sp: nat, fuel: nat)
    decreases fuel
  {
    pc >= |prog| ||
    (fuel > 0 &&
     match prog[pc]
     case Match => true
     case Char(c) => sp >= |text| || text[sp] != c || Halts(prog, text, pc + 1, sp + 1, fuel - 1)
     case Jmp(t) => Halts(prog, text, t, sp, fuel - 1)
     case Split(t1, t2) => Halts(prog, text, t1, sp, fuel - 1) && Halts(prog, text, t2, sp, fuel - 1))
  }

  lemma {:induction false} HaltsMono(prog: seq<Inst>, text: seq<char>, pc: nat, sp: nat, f: nat, g: nat)
    requires f <= g && Halts(prog, text, pc, sp, f)
    ensures Halts(prog, text, pc, sp, g)
    decreases f
  {
    if pc < |prog| {
      match prog[pc]
      case Match =>
      case Char(c) =>
        if sp < |text| && text[sp] == c {
          HaltsMono(prog, text, pc + 1, sp + 1, f - 1, g - 1);
        }
      case Jmp(t) => HaltsMono(prog, text, t, sp, f - 1, g - 1);
      case Split(t1, t2) =>
        HaltsMono(prog, text, t1, sp, f - 1, g - 1);
        HaltsMono(prog, text, t2, sp, f - 1, g - 1);
    }
  }

  /** When every path stops within `fuel` steps, so does the backtracking run. */
  lemma {:induction false} HaltsExec(prog: seq<Inst>, text: seq<char>, pc: nat, sp: nat, f: nat)
    requires Halts(prog, text, pc, sp, f)
    ensures Exec(prog, text, pc, sp, f).status != OutOfFuel
    decreases f
  {
    if pc < |prog| {
      match prog[pc]
      case Match =>
      case Char(c) =>
        if sp < |text| && text[sp] == c {
          HaltsExec(prog, text, pc + 1, sp + 1, f - 1);
        }
      case Jmp(t) => HaltsExec(prog, text, t, sp, f - 1);
      case Split(t1, t2) =>
        HaltsExec(prog, text, t1, sp, f - 1);
        HaltsExec(prog, text, t2, sp, f - 1);
    }
  }

  /** A bound on the steps of any path through the code of `n` with at most `m` characters left. */
  function Steps(n: Node, m: nat): nat
  {
    match n
    case Char(_) => 1
    case Seq(items) => StepsSeq(items, m)
    case Or(a, b) => Steps(a, m) + Steps(b, m) + 2
    case Star(b) => (m + 1) * (Steps(b, m) + 2)
  }

  function StepsSeq(items: seq<Node>, m: nat): nat
  {
    if items == [] then 0 else Steps(items[0], m) + StepsSeq(items[1..], m)
  }

  lemma MulMono(a: nat, b: nat, k: nat)
    requires a <= b
    ensures a * k <= b * k
  {
  }

  /**
   * If every word of `n` read from `sp` lands on a position from which all
   * paths stop within `g` steps, all paths from the start of the code of `n`
   * stop within `g + Steps(n, m)` steps.
   */
  lemma {:induction false} HaltsCode(n: Node, prog: seq<Inst>, text: seq<char>, l: nat, sp: nat, g: nat, m: nat)
    requires CodeAt(prog, l, Code(n, l)) && sp <= |text| && |text| - sp <= m
    requires StarBodiesNonEmpty(n)
    requires forall j :: sp <= j <= |text| && InLang(n, text[sp..j]) ==> Halts(prog, text, l + Len(n), j, g)
    ensures Halts(prog, text, l, sp, g + Steps(n, m))
    decreases n, |text| - sp, 2
  {
    match n
    case Char(c) =>
      CodeAtSingle(prog, l, Codegen.Char(c));
      if sp < |text| && text[sp] == c {
        assert text[sp..sp + 1] == [c];
      }
    case Seq(items) =>
      HaltsSeq(items, prog, text, l, sp, g, m);
    case Or(a, b) =>
      HaltsOr(a, b, prog, text, l, sp, g, m);
    case Star(b) =>
      HaltsStar(b, prog, text, l, sp, g, m);
      var k := Steps(b, m) + 2;
      MulMono(|text| - sp + 1, m + 1, k);
      HaltsMono(prog, text, l, sp, g + (|text| - sp + 1) * k, g + Steps(n, m));
  }

  lemma {:induction false} HaltsOr(a: Node, b: Node, prog: seq<Inst>, text: seq<char>, l: nat, sp: nat, g: nat, m: nat)
    requires CodeAt(prog, l, Code(Or(a, b), l)) && sp <= |text| && |text| - sp <= m
    requires StarBodiesNonEmpty(a) && StarBodiesNonEmpty(b)
    requires forall j :: sp <= j <= |text| && InLang(Or(a, b), text[sp..j]) ==> Halts(prog, text, l + Len(Or(a, b)), j, g)
    ensures Halts(prog, text, l, sp, g + Steps(Or(a, b), m))
    decreases Or(a, b), |text| - sp, 1
  {
    var total := g + Steps(Or(a, b), m);
    assert total - 1 == g + 1 + Steps(a, m) + Steps(b, m);
    OrPieces(prog, a, b, l);
    HaltsOrLeft(a, b, prog, text, l, sp, g, m);
    HaltsOrRight(a, b, prog, text, l, sp, g, m);
    HaltsMono(prog, text, l + 1, sp, g + 1 + Steps(a, m), total - 1);
    HaltsMono(prog, text, l + Len(a) + 2, sp, g + Steps(b, m), total - 1);
  }

  /** The paths through the left branch of an `Or`, then over the `Jmp`, stop in time. */
  lemma {:induction false} HaltsOrLeft(a: Node, b: Node, prog: seq<Inst>, text: seq<char>, l: nat, sp: nat, g: nat, m: nat)
    requires CodeAt(prog, l + 1, Code(a, l + 1)) && sp <= |text| && |text| - sp <= m
    requires l + 1 + Len(a) < |prog| && prog[l + 1 + Len(a)] == Jmp(l + Len(Or(a, b)))
    requires StarBodiesNonEmpty(a)
    requires forall j :: sp <= j <= |text| && InLang(Or(a, b), text[sp..j]) ==> Halts(prog, text, l + Len(Or(a, b)), j, g)
    ensures Halts(prog, text, l + 1, sp, g + 1 + Steps(a, m))
    decreases Or(a, b), |text| - sp, 0
  {
    forall j | sp <= j <= |text| && InLang(a, text[sp..j])
      ensures Halts(prog, text, l + 1 + Len(a), j, g + 1)
    {
      assert InLang(Or(a, b), text[sp..j]);
    }
    HaltsCode(a, prog, text, l + 1, sp, g + 1, m);
  }

  /** The paths through the right branch of an `Or` stop in time. */
  lemma {:induction false} HaltsOrRight(a: Node, b: Node, prog: seq<Inst>, text: seq<char>, l: nat, sp: nat, g: nat, m: nat)
    requires CodeAt(prog, l + Len(a) + 2, Code(b, l + Len(a) + 2)) && sp <= |text| && |text| - sp <= m
    requires StarBodiesNonEmpty(b)
    requires forall j :: sp <= j <= |text| && InLang(Or(a, b), text[sp..j]) ==> Halts(prog, text, l + Len(Or(a, b)), j, g)
    ensures Halts(prog, text, l + Len(a) + 2, sp, g + Steps(b, m))
    decreases Or(a, b), |text| - sp, 0
  {
    assert l + Len(a) + 2 + Len(b) == l + Len(Or(a, b));
    forall j | sp <= j <= |text| && InLang(b, text[sp..j])
      ensures Halts(prog, text, l + Len(a) + 2 + Len(b), j, g)
    {
      assert InLang(Or(a, b), text[sp..j]);
    }
    HaltsCode(b, prog, text, l + Len(a) + 2, sp, g, m);
  }

  lemma {:induction false} HaltsSeq(items: seq<Node>, prog: seq<Inst>, text: seq<char>, l: nat, sp: nat, g: nat, m: nat)
    requires CodeAt(prog, l, CodeSeq(items, l)) && sp <= |text| && |text| - sp <= m
    requires forall k :: 0 <= k < |items| ==> StarBodiesNonEmpty(items[k])
    requires forall j :: sp <= j <= |text| && InLangSeq(items, text[sp..j]) ==> Halts(prog, text, l + LenSeq(items), j, g)
    ensures Halts(prog, text, l, sp, g + StepsSeq(items, m))
    decreases items, |text| - sp, 2
  {
    if items == [] {
      assert InLangSeq(items, text[sp..sp]);
    } else {
      var rest := items[1..];
      var m1 := l + Len(items[0]);
      SeqPieces(prog, items, l);
      forall j1 | sp <= j1 <= |text| && InLang(items[0], text[sp..j1])
        ensures Halts(prog, text, m1, j1, g + StepsSeq(rest, m))
      {
        forall j2 | j1 <= j2 <= |text| && InLangSeq(rest, text[j1..j2])
          ensures Halts(prog, text, m1 + LenSeq(rest), j2, g)
        {
          SliceSplit(text, sp, j1, j2);
          assert InLangSeq(items, text[sp..j2]);
        }
        HaltsSeq(rest, prog, text, m1, j1, g, m);
      }
      HaltsCode(items[0], prog, text, l, sp, g + StepsSeq(rest, m), m);
    }
  }

  /**
   * The loop of a `Star` whose body cannot match the empty word goes round
   * at most once per remaining character.
   */
  lemma {:induction false} HaltsStar(b: Node, prog: seq<Inst>, text: seq<char>, l: nat, sp: nat, g: nat, m: nat)
    requires CodeAt(prog, l, Code(Star(b), l)) && sp <= |text| && |text| - sp <= m
    requires !Nullable(b) && StarBodiesNonEmpty(b)
    requires forall j :: sp <= j <= |text| && InLang(Star(b), text[sp..j]) ==> Halts(prog, text, l + Len(Star(b)), j, g)
    ensures Halts(prog, text, l, sp, g + (|text| - sp + 1) * (Steps(b, m) + 2))
    decreases Star(b), |text| - sp, 1
  {
    var k := Steps(b, m) + 2;
    var r := |text| - sp;
    var again := g + r * k + 1;
    var total := g + (r + 1) * k;
    assert (r + 1) * k == r * k + k;
    assert total - 1 == again + Steps(b, m);
    StarPieces(prog, b, l);
    // leaving the loop at once
    assert InLang(Star(b), text[sp..sp]);
    HaltsMono(prog, text, l + Len(Star(b)), sp, g, total - 1);
    // going round once more
    forall j | sp <= j <= |text| && InLang(b, text[sp..j])
      ensures Halts(prog, text, l + 1 + Len(b), j, again)
    {
      HaltsStarAgain(b, prog, text, l, sp, j, g, m);
    }
    HaltsCode(b, prog, text, l + 1, sp, again, m);
    assert Halts(prog, text, l + 1, sp, total - 1);
  }

  /** After one pass through the body, from `sp` to `j`, the jump back to the loop's `Split` stops in time. */
  lemma {:induction false} HaltsStarAgain(b: Node, prog: seq<Inst>, text: seq<char>, l: nat, sp: nat, j: nat, g: nat, m: nat)
    requires CodeAt(prog, l, Code(Star(b), l)) && sp <= j <= |text| && |text| - sp <= m
    requires !Nullable(b) && StarBodiesNonEmpty(b) && InLang(b, text[sp..j])
    requires forall j :: sp <= j <= |text| && InLang(Star(b), text[sp..j]) ==> Halts(prog, text, l + Len(Star(b)), j, g)
    ensures Halts(prog, text, l + 1 + Len(b), j, g + (|text| - sp) * (Steps(b, m) + 2) + 1)
    decreases Star(b), |text| - sp, 0
  {
    var k := Steps(b, m) + 2;
    StarPieces(prog, b, l);
    NullableIffEmptyWord(b);
    assert j != sp;
    forall j2 | j <= j2 <= |text| && InLang(Star(b), text[j..j2])
      ensures Halts(prog, text, l + Len(Star(b)), j2, g)
    {
      SliceSplit(text, sp, j, j2);
      var w := text[sp..j2];
      assert InLang(b, w[..j - sp]) && InLang(Star(b), w[j - sp..]);
      assert InLang(Star(b), w);
    }
    HaltsStar(b, prog, text, l, j, g, m);
    MulMono(|text| - j + 1, |text| - sp, k);
    HaltsMono(prog, text, l, j, g + (|text| - j + 1) * k, g + (|text| - sp) * k);
  }

  /**
   * When no loop body of `n` can match the empty word, `eval(gen(n), text)`
   * finishes within `Steps(n, |text|) + 1` steps on every path.
   */
  lemma EvalTerminates(n: Node, text: seq<char>)
    requires StarBodiesNonEmpty(n)
    ensures EvalSpec(Program(n), text, Steps(n, |text|) + 1) != OutOfFuel
  {
    var prog := Program(n);
    ProgramCode(n);
    ProgramEndHalts(n, text);
    HaltsCode(n, prog, text, 0, 0, 1, |text|);
    assert 1 + Steps(n, |text|) == Steps(n, |text|) + 1;
    HaltsExec(prog, text, 0, 0, Steps(n, |text|) + 1);
  }

  /** The final `Match` of `gen(n)` stops every path that reaches it, in one step. */
  lemma ProgramEndHalts(n: Node, text: seq<char>)
    ensures forall j :: Halts(Program(n), text, Len(n), j, 1)
  {
    ProgramCode(n);
  }

  /**
   * Total correctness: when no loop body of `n` can match the empty word,
   * `eval(gen(n), text)` with enough fuel reports a match exactly when some
   * prefix of `text` is a word of `n`.
   */
  lemma EvalDecidesPrefixMatch(n: Node, text: seq<char>, fuel: nat)
    requires StarBodiesNonEmpty(n) && Steps(n, |text|) + 1 <= fuel
    ensures EvalSpec(Program(n), text, fuel) == if PrefixMatch(n, text) then Matched else NoMatch
  {
    EvalTerminates(n, text);
    ExecMono(Program(n), text, 0, 0, Steps(n, |text|) + 1, fuel);
    EvalCorrect(n, text, fuel);
  }

  /**
   * A loop whose body matches only the empty word never ends: `gen` of
   * `Star(Seq([]))` (the tree of the pattern `()*`) runs out of any fuel on
   * any text, as the source's `run` recurses without bound (in practice
   * until the call stack overflows). `Cases.EmptyLoopPatternDiverges` shows
   * that `()*` parses to that tree.
   */
  lemma {:induction false} EmptyLoopDiverges(text: seq<char>, sp: nat, fuel: nat)
    ensures Exec(Program(Star(Seq([]))), text, 0, sp, fuel).status == OutOfFuel
    decreases fuel
  {
    var prog := Program(Star(Seq([])));
    assert prog == [Split(1, 2), Jmp(0), Match];
    if fuel >= 2 {
      EmptyLoopDiverges(text, sp, fuel - 2);
    }
  }
}
