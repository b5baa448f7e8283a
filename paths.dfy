/*
 * Paths through a compiled program, and where the code of each node sits
 * inside it.
 *
 * `Accepts` is the nondeterministic reading of the backtracking machine of
 * ch06/src/evaluator.rs: some sequence of choices at the `Split`s leads from
 * (pc, sp) to `Match`. The machine's run, whenever it finishes within its
 * fuel, answers exactly that question (`ExecDecides`).
 */
module Paths {
  import opened Ast
  import opened Codegen
  import opened Vm

  // ---------------------------------------------------------------------------
  // Paths through a program
  // ---------------------------------------------------------------------------

  /** Some path from (pc, sp), taking either target at each `Split`, reaches `Match` within `fuel` steps. */
  ghost predicate Accepts(prog: seq<Inst>, text: seq<char>, pc: nat, sp: nat, fuel: nat)
    decreases fuel
  {
    pc < |prog| && fuel > 0 &&
    match prog[pc]
    case Match => true
    case Char(c) => sp < |text| && text[sp] == c && Accepts(prog, text, pc + 1, sp + 1, fuel - 1)
    case Jmp(t) => Accepts(prog, text, t, sp, fuel - 1)
    case Split(t1, t2) => Accepts(prog, text, t1, sp, fuel - 1) || Accepts(prog, text, t2, sp, fuel - 1)
  }

  /** A `Split` accepts when its first target does, one step later. */
  lemma AcceptsSplitFirst(prog: seq<Inst>, text: seq<char>, pc: nat, sp: nat, f: nat, t1: nat, t2: nat)
    requires pc < |prog| && prog[pc] == Split(t1, t2) && Accepts(prog, text, t1, sp, f)
    ensures Accepts(prog, text, pc, sp, f + 1)
  {
  }

  /** A `Split` accepts when its second target does, one step later. */
  lemma AcceptsSplitSecond(prog: seq<Inst>, text: seq<char>, pc: nat, sp: nat, f: nat, t1: nat, t2: nat)
    requires pc < |prog| && prog[pc] == Split(t1, t2) && Accepts(prog, text, t2, sp, f)
    ensures Accepts(prog, text, pc, sp, f + 1)
  {
  }

  /** A `Jmp` accepts when its target does, one step later. */
  lemma AcceptsJmp(prog: seq<Inst>, text: seq<char>, pc: nat, sp: nat, f: nat, t: nat)
    requires pc < |prog| && prog[pc] == Jmp(t) && Accepts(prog, text, t, sp, f)
    ensures Accepts(prog, text, pc, sp, f + 1)
  {
  }

  /** A path from a `Split` goes on through one of its targets, one step later. */
  lemma SplitAccepts(prog: seq<Inst>, text: seq<char>, pc: nat, sp: nat, f: nat, t1: nat, t2: nat)
    requires pc < |prog| && prog[pc] == Split(t1, t2) && Accepts(prog, text, pc, sp, f)
    ensures f > 0 && (Accepts(prog, text, t1, sp, f - 1) || Accepts(prog, text, t2, sp, f - 1))
  {
  }

  /** A path from a `Jmp` goes on from its target, one step later. */
  lemma JmpAccepts(prog: seq<Inst>, text: seq<char>, pc: nat, sp: nat, f: nat, t: nat)
    requires pc < |prog| && prog[pc] == Jmp(t) && Accepts(prog, text, pc, sp, f)
    ensures f > 0 && Accepts(prog, text, t, sp, f - 1)
  {
  }

  /** A path from a `Char` consumes that character and goes on from the next instruction. */
  lemma CharAccepts(prog: seq<Inst>, text: seq<char>, pc: nat, sp: nat, f: nat, c: char)
    requires pc < |prog| && prog[pc] == Codegen.Char(c) && Accepts(prog, text, pc, sp, f)
    ensures f > 0 && sp < |text| && text[sp] == c && Accepts(prog, text, pc + 1, sp + 1, f - 1)
  {
  }

  /** A path found with some fuel is still found with more. */
  lemma {:induction false} AcceptsMono(prog: seq<Inst>, text: seq<char>, pc: nat, sp: nat, f: nat, g: nat)
    requires f <= g && Accepts(prog, text, pc, sp, f)
    ensures Accepts(prog, text, pc, sp, g)
    decreases f
  {
    match prog[pc]
    case Match =>
    case Char(_) => AcceptsMono(prog, text, pc + 1, sp + 1, f - 1, g - 1);
    case Jmp(t) => AcceptsMono(prog, text, t, sp, f - 1, g - 1);
    case Split(t1, t2) =>
      if Accepts(prog, text, t1, sp, f - 1) {
        AcceptsMono(prog, text, t1, sp, f - 1, g - 1);
      } else {
        AcceptsMono(prog, text, t2, sp, f - 1, g - 1);
      }
  }

  /** A run that finishes with some fuel finishes the same way, in the same state, with more. */
  lemma {:induction false} ExecMono(prog: seq<Inst>, text: seq<char>, pc: nat, sp: nat, f: nat, g: nat)
    requires f <= g && Exec(prog, text, pc, sp, f).status != OutOfFuel
    ensures Exec(prog, text, pc, sp, g) == Exec(prog, text, pc, sp, f)
    decreases f
  {
    if pc < |prog| {
      match prog[pc]
      case Match =>
      case Char(c) =>
        if sp < |text| && c == text[sp] {
          ExecMono(prog, text, pc + 1, sp + 1, f - 1, g - 1);
        }
      case Jmp(t) => ExecMono(prog, text, t, sp, f - 1, g - 1);
      case Split(t1, t2) =>
        ExecMono(prog, text, t1, sp, f - 1, g - 1);
        if Exec(prog, text, t1, sp, f - 1).status == NoMatch {
          ExecMono(prog, text, t2, sp, f - 1, g - 1);
        }
    }
  }

  /**
   * The backtracking run is an exhaustive depth-first search: when it
   * finishes, it reports `Matched` exactly when some path reaches `Match`.
   */
  lemma {:induction false} ExecDecides(prog: seq<Inst>, text: seq<char>, pc: nat, sp: nat, f: nat)
    requires Exec(prog, text, pc, sp, f).status != OutOfFuel
    ensures Exec(prog, text, pc, sp, f).status == Matched <==> Accepts(prog, text, pc, sp, f)
    decreases f
  {
    if pc < |prog| {
      match prog[pc]
      case Match =>
      case Char(c) =>
        if sp < |text| && c == text[sp] {
          ExecDecides(prog, text, pc + 1, sp + 1, f - 1);
        }
      case Jmp(t) => ExecDecides(prog, text, t, sp, f - 1);
      case Split(t1, t2) =>
        ExecDecides(prog, text, t1, sp, f - 1);
        if Exec(prog, text, t1, sp, f - 1).status == NoMatch {
          ExecDecides(prog, text, t2, sp, f - 1);
        }
    }
  }

  // ---------------------------------------------------------------------------
  // Code placed inside a program
  // ---------------------------------------------------------------------------

  /** `code` occupies the addresses `l .. l + |code| - 1` of `prog`. */
  ghost predicate CodeAt(prog: seq<Inst>, l: nat, code: seq<Inst>)
  {
    l + |code| <= |prog| && forall i :: 0 <= i < |code| ==> prog[l + i] == code[i]
  }

  lemma CodeAtAppend(prog: seq<Inst>, l: nat, a: seq<Inst>, b: seq<Inst>)
    requires CodeAt(prog, l, a + b)
    ensures CodeAt(prog, l, a) && CodeAt(prog, l + |a|, b)
  {
    forall i | 0 <= i < |a| ensures prog[l + i] == a[i] {
      assert (a + b)[i] == a[i];
    }
    forall i | 0 <= i < |b| ensures prog[l + |a| + i] == b[i] {
      assert (a + b)[|a| + i] == b[i];
      assert l + |a| + i == l + (|a| + i);
    }
  }

  lemma CodeAtSingle(prog: seq<Inst>, l: nat, inst: Inst)
    requires CodeAt(prog, l, [inst])
    ensures prog[l] == inst
  {
    assert prog[l + 0] == [inst][0];
  }

  /** Where the pieces of an `Or` sit inside the program. */
  lemma OrPieces(prog: seq<Inst>, a: Node, b: Node, l: nat)
    requires CodeAt(prog, l, Code(Or(a, b), l))
    ensures l + Len(Or(a, b)) <= |prog|
    ensures prog[l] == Split(l + 1, l + Len(a) + 2)
    ensures CodeAt(prog, l + 1, Code(a, l + 1))
    ensures prog[l + 1 + Len(a)] == Jmp(l + Len(Or(a, b)))
    ensures CodeAt(prog, l + Len(a) + 2, Code(b, l + Len(a) + 2))
  {
    var lhs, rhs := Code(a, l + 1), Code(b, l + Len(a) + 2);
    var split, jmp := [Split(l + 1, l + Len(a) + 2)], [Jmp(l + Len(Or(a, b)))];
    OrCode(a, b, l);
    CodeAtAppend(prog, l, split + lhs + jmp, rhs);
    CodeAtAppend(prog, l, split + lhs, jmp);
    CodeAtAppend(prog, l, split, lhs);
    CodeAtSingle(prog, l, split[0]);
    assert l + |split + lhs| == l + 1 + Len(a);
    CodeAtSingle(prog, l + 1 + Len(a), jmp[0]);
    assert l + |split + lhs + jmp| == l + Len(a) + 2;
  }

  /** Where the pieces of a `Star` sit inside the program. */
  lemma StarPieces(prog: seq<Inst>, b: Node, l: nat)
    requires CodeAt(prog, l, Code(Star(b), l))
    ensures l + Len(Star(b)) <= |prog|
    ensures prog[l] == Split(l + 1, l + Len(Star(b)))
    ensures CodeAt(prog, l + 1, Code(b, l + 1))
    ensures prog[l + 1 + Len(b)] == Jmp(l)
  {
    var body := Code(b, l + 1);
    var split, jmp := [Split(l + 1, l + Len(Star(b)))], [Jmp(l)];
    StarCode(b, l);
    CodeAtAppend(prog, l, split + body, jmp);
    CodeAtAppend(prog, l, split, body);
    CodeAtSingle(prog, l, split[0]);
    assert l + |split + body| == l + 1 + Len(b);
    CodeAtSingle(prog, l + 1 + Len(b), jmp[0]);
  }

  /** Where the first item of a `Seq` and the rest sit inside the program. */
  lemma SeqPieces(prog: seq<Inst>, items: seq<Node>, l: nat)
    requires items != [] && CodeAt(prog, l, CodeSeq(items, l))
    ensures CodeAt(prog, l, Code(items[0], l))
    ensures CodeAt(prog, l + Len(items[0]), CodeSeq(items[1..], l + Len(items[0])))
    ensures l + LenSeq(items) == l + Len(items[0]) + LenSeq(items[1..])
  {
    var head := Code(items[0], l);
    CodeAtAppend(prog, l, head, CodeSeq(items[1..], l + Len(items[0])));
  }

  /** Splitting the slice `text[i..k]` at `j`. */
  lemma SliceSplit(text: seq<char>, i: nat, j: nat, k: nat)
    requires i <= j <= k <= |text|
    ensures text[i..k][..j - i] == text[i..j] && text[i..k][j - i..] == text[j..k]
  {
  }

  /** A word of the body followed by a word of the loop is a word of the loop. */
  lemma StarWordMore(b: Node, text: seq<char>, i: nat, k: nat, j: nat)
    requires i < k <= j <= |text|
    requires InLang(b, text[i..k]) && InLang(Star(b), text[k..j])
    ensures InLang(Star(b), text[i..j])
  {
    SliceSplit(text, i, k, j);
  }

  /** A word of the first item followed by a word of the rest is a word of the sequence. */
  lemma SeqWordMore(items: seq<Node>, text: seq<char>, i: nat, k: nat, j: nat)
    requires items != [] && i <= k <= j <= |text|
    requires InLang(items[0], text[i..k]) && InLangSeq(items[1..], text[k..j])
    ensures InLangSeq(items, text[i..j])
  {
    SliceSplit(text, i, k, j);
  }
}
