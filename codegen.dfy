/*
 * The code generator of ch06/src/codegen.rs: compiles a pattern tree into a
 * flat program whose jumps name absolute instruction addresses.
 *
 * The source's `Generator` keeps a location counter `line`, the address the
 * next emitted instruction will occupy, and advances it while it generates
 * sub-programs; forward targets are computed from the measured lengths of the
 * sub-programs already generated. `Code(n, l)` is the intended layout of the
 * code of `n` at address `l`, with every target computed from the sizes of
 * the subtrees alone (`Len`); the `Generator` methods are proved to return
 * exactly that code, so the measured lengths always agree with the sizes.
 */
module Codegen {
  import Ast

  datatype Inst =
    | Char(c: char)
    | Jmp(target: nat)
    | Split(first: nat, second: nat)
    | Match

  /** The number of instructions each kind of node compiles to, computed from the tree alone. */
  function Len(n: Ast.Node): nat
  {
    match n
    case Char(_) => 1
    case Seq(items) => LenSeq(items)
    case Or(a, b) => Len(a) + Len(b) + 2
    case Star(b) => Len(b) + 2
  }

  function LenSeq(items: seq<Ast.Node>): nat
  {
    if items == [] then 0 else Len(items[0]) + LenSeq(items[1..])
  }

  /**
   * The code of `n`, placed so that its first instruction is at address `l`:
   * an `Or` is a `Split` to both branches, the left branch, a `Jmp` past the
   * whole `Or`, the right branch; a `Star` is a `Split` into the body or past
   * the loop, the body, a `Jmp` back to the `Split`.
   */
  function Code(n: Ast.Node, l: nat): (code: seq<Inst>)
    ensures |code| == Len(n)
  {
    match n
    case Char(c) => [Char(c)]
    case Seq(items) => CodeSeq(items, l)
    case Or(a, b) =>
      [Split(l + 1, l + Len(a) + 2)] + Code(a, l + 1) + [Jmp(l + Len(n))] + Code(b, l + Len(a) + 2)
    case Star(b) =>
      [Split(l + 1, l + Len(n))] + Code(b, l + 1) + [Jmp(l)]
  }

  /** The code of the items of a `Seq`, back to back, the first at address `l`. */
  function CodeSeq(items: seq<Ast.Node>, l: nat): (code: seq<Inst>)
    ensures |code| == LenSeq(items)
  {
    if items == [] then [] else Code(items[0], l) + CodeSeq(items[1..], l + Len(items[0]))
  }

  /** `gen`: the code of the whole tree from address 0, then one `Match`. */
  function Program(n: Ast.Node): seq<Inst>
  {
    Code(n, 0) + [Match]
  }

  /** A `Jmp` or `Split` of `inst` targets an address in `lo..hi` (both ends included). */
  predicate TargetIn(inst: Inst, lo: nat, hi: nat)
  {
    match inst
    case Jmp(t) => lo <= t <= hi
    case Split(t1, t2) => lo <= t1 <= hi && lo <= t2 <= hi
    case _ => true
  }

  /** Every `Jmp`/`Split` of `code` targets an address in `lo..hi`. */
  predicate TargetsWithin(code: seq<Inst>, lo: nat, hi: nat)
  {
    forall i :: 0 <= i < |code| ==> TargetIn(code[i], lo, hi)
  }

  // ---------------------------------------------------------------------------
  // The generator object
  // ---------------------------------------------------------------------------

  class Generator {
    /** The address the next emitted instruction will occupy. */
    var line: nat

    constructor ()
      ensures line == 0
    {
      line := 0;
    }

    /** `gen_expr`: returns the code of `n` for the current address and moves `line` past it. */
    method GenExpr(n: Ast.Node) returns (insts: seq<Inst>)
      modifies this
      ensures insts == Code(n, old(line))
      ensures line == old(line) + Len(n)
      decreases n, 1
    {
      match n
      case Char(c) =>
        line := line + 1;
        insts := [Char(c)];
      case Seq(items) =>
        insts := GenSeq(items);
      case Or(lhs, rhs) =>
        insts := GenOr(lhs, rhs);
      case Star(body) =>
        insts := GenStar(body);
    }

    /** The `Seq` arm of `gen_expr`: the code of each item in turn, appended. */
    method GenSeq(items: seq<Ast.Node>) returns (insts: seq<Inst>)
      modifies this
      ensures insts == CodeSeq(items, old(line))
      ensures line == old(line) + LenSeq(items)
      decreases items, 0
    {
      ghost var start := line;
      insts := [];
      for i := 0 to |items|
        invariant insts == CodeSeq(items[..i], start)
        invariant line == start + LenSeq(items[..i])
      {
        var code := GenExpr(items[i]);
        SeqStep(items, i, start);
        insts := insts + code;
      }
      assert items[..|items|] == items;
    }

    /** The `Or` arm of `gen_expr`: `Split`, the left branch, a `Jmp` past the right branch, the right branch. */
    method GenOr(lhs: Ast.Node, rhs: Ast.Node) returns (insts: seq<Inst>)
      modifies this
      ensures insts == Code(Ast.Or(lhs, rhs), old(line))
      ensures line == old(line) + Len(Ast.Or(lhs, rhs))
      decreases Ast.Or(lhs, rhs), 0
    {
      var l := line;
      line := line + 1; // for Split
      var lhsCode := GenExpr(lhs);
      insts := [Split(l + 1, l + |lhsCode| + 2)];
      insts := insts + lhsCode;
      var l2 := line;
      line := line + 1; // for Jmp
      var rhsCode := GenExpr(rhs);
      insts := insts + [Jmp(l2 + |rhsCode| + 1)];
      insts := insts + rhsCode;
      OrPush(lhs, rhs, l, l2, lhsCode, rhsCode, insts);
    }

    /** The `Star` arm of `gen_expr`: `Split` into the body or past the loop, the body, a `Jmp` back. */
    method GenStar(body: Ast.Node) returns (insts: seq<Inst>)
      modifies this
      ensures insts == Code(Ast.Star(body), old(line))
      ensures line == old(line) + Len(Ast.Star(body))
      decreases Ast.Star(body), 0
    {
      var l := line;
      line := line + 1; // for Split
      var bodyCode := GenExpr(body);
      insts := [Split(l + 1, l + |bodyCode| + 2)];
      insts := insts + bodyCode;
      insts := insts + [Jmp(l)];
      line := line + 1;
      StarPush(body, l, bodyCode, insts);
    }
  }

  /** The code of an `Or`, unfolded once. */
  lemma OrCode(a: Ast.Node, b: Ast.Node, l: nat)
    ensures Code(Ast.Or(a, b), l)
      == [Split(l + 1, l + Len(a) + 2)] + Code(a, l + 1) + [Jmp(l + Len(Ast.Or(a, b)))] + Code(b, l + Len(a) + 2)
  {
  }

  /** The instructions `gen_expr` pushes for an `Or`, in that order, are its code. */
  lemma OrPush(a: Ast.Node, b: Ast.Node, l: nat, l2: nat, lhs: seq<Inst>, rhs: seq<Inst>, insts: seq<Inst>)
    requires lhs == Code(a, l + 1) && l2 == l + |lhs| + 1 && rhs == Code(b, l2 + 1)
    requires insts == [Split(l + 1, l + |lhs| + 2)] + lhs + [Jmp(l2 + |rhs| + 1)] + rhs
    ensures insts == Code(Ast.Or(a, b), l)
  {
    assert l2 + 1 == l + Len(a) + 2;
    assert l2 + |rhs| + 1 == l + Len(Ast.Or(a, b));
    OrCode(a, b, l);
  }

  /** The instructions `gen_expr` pushes for a `Star`, in that order, are its code. */
  lemma StarPush(b: Ast.Node, l: nat, body: seq<Inst>, insts: seq<Inst>)
    requires body == Code(b, l + 1)
    requires insts == [Split(l + 1, l + |body| + 2)] + body + [Jmp(l)]
    ensures insts == Code(Ast.Star(b), l)
  {
    assert l + |body| + 2 == l + Len(Ast.Star(b));
    StarCode(b, l);
  }

  /** The code of a `Star`, unfolded once. */
  lemma StarCode(b: Ast.Node, l: nat)
    ensures Code(Ast.Star(b), l) == [Split(l + 1, l + Len(Ast.Star(b)))] + Code(b, l + 1) + [Jmp(l)]
  {
  }

  /** `gen`: a fresh generator at address 0, the code of `n`, and a final `Match`. */
  method Gen(n: Ast.Node) returns (insts: seq<Inst>)
    ensures insts == Program(n)
    ensures |insts| == Len(n) + 1 && insts[|insts| - 1] == Match
    ensures forall i :: 0 <= i < |insts| - 1 ==> insts[i] != Match
    ensures TargetsWithin(insts, 0, |insts| - 1)
  {
    var g := new Generator();
    insts := g.GenExpr(n);
    insts := insts + [Match];
    ProgramWellFormed(n);
  }

  // ---------------------------------------------------------------------------
  // Properties of the code
  // ---------------------------------------------------------------------------

  /** Generating the items one more at a time, as the `for` loop over a `Seq` does. */
  lemma {:induction false} CodeSeqSnoc(items: seq<Ast.Node>, last: Ast.Node, l: nat)
    ensures CodeSeq(items + [last], l) == CodeSeq(items, l) + Code(last, l + LenSeq(items))
    decreases items
  {
    if items == [] {
      assert [] + [last] == [last];
      assert [last][1..] == [];
    } else {
      var rest, m := items[1..], l + Len(items[0]);
      var head := Code(items[0], l);
      assert (items + [last])[0] == items[0];
      assert (items + [last])[1..] == rest + [last];
      assert CodeSeq(items + [last], l) == head + CodeSeq(rest + [last], m);
      assert CodeSeq(items, l) == head + CodeSeq(rest, m);
      CodeSeqSnoc(rest, last, m);
      assert m + LenSeq(rest) == l + LenSeq(items);
      AppendAssoc(head, CodeSeq(rest, m), Code(last, l + LenSeq(items)));
    }
  }

  /** One turn of the loop over the items of a `Seq`: the code and the size of one more item. */
  lemma SeqStep(items: seq<Ast.Node>, i: nat, l: nat)
    requires i < |items|
    ensures CodeSeq(items[..i + 1], l) == CodeSeq(items[..i], l) + Code(items[i], l + LenSeq(items[..i]))
    ensures LenSeq(items[..i + 1]) == LenSeq(items[..i]) + Len(items[i])
  {
    assert items[..i + 1] == items[..i] + [items[i]];
    CodeSeqSnoc(items[..i], items[i], l);
    LenSeqSnoc(items[..i], items[i]);
  }

  lemma AppendAssoc(a: seq<Inst>, b: seq<Inst>, c: seq<Inst>)
    ensures a + (b + c) == (a + b) + c
  {
  }

  /** The size of the items with one more appended. */
  lemma {:induction false} LenSeqSnoc(items: seq<Ast.Node>, last: Ast.Node)
    ensures LenSeq(items + [last]) == LenSeq(items) + Len(last)
    decreases items
  {
    if items == [] {
      assert [] + [last] == [last];
      assert [last][1..] == [];
    } else {
      assert (items + [last])[0] == items[0];
      assert (items + [last])[1..] == items[1..] + [last];
      LenSeqSnoc(items[1..], last);
    }
  }

  lemma TargetsWithinAppend(a: seq<Inst>, b: seq<Inst>, lo: nat, hi: nat)
    requires TargetsWithin(a, lo, hi) && TargetsWithin(b, lo, hi)
    ensures TargetsWithin(a + b, lo, hi)
  {
    forall i | 0 <= i < |a + b| ensures TargetIn((a + b)[i], lo, hi) {
      if i >= |a| {
        assert (a + b)[i] == b[i - |a|];
      }
    }
  }

  lemma TargetsWithinWiden(code: seq<Inst>, lo: nat, hi: nat, lo': nat, hi': nat)
    requires TargetsWithin(code, lo, hi) && lo' <= lo && hi <= hi'
    ensures TargetsWithin(code, lo', hi')
  {
    forall i | 0 <= i < |code| ensures TargetIn(code[i], lo', hi') {
      assert TargetIn(code[i], lo, hi);
    }
  }

  /** `gen_expr` never emits `Match`, and every jump stays inside its own code or lands just past it. */
  lemma {:induction false} CodeShape(n: Ast.Node, l: nat)
    ensures Match !in Code(n, l)
    ensures TargetsWithin(Code(n, l), l, l + Len(n))
    decreases n, 1
  {
    match n
    case Char(_) =>
    case Seq(items) => CodeSeqShape(items, l);
    case Or(a, b) => CodeShapeOr(a, b, l);
    case Star(b) => CodeShapeStar(b, l);
  }

  lemma {:induction false} CodeShapeOr(a: Ast.Node, b: Ast.Node, l: nat)
    ensures Match !in Code(Ast.Or(a, b), l)
    ensures TargetsWithin(Code(Ast.Or(a, b), l), l, l + Len(Ast.Or(a, b)))
    decreases Ast.Or(a, b), 0
  {
    CodeShape(a, l + 1);
    CodeShape(b, l + Len(a) + 2);
    OrCodeShape(a, b, l);
  }

  lemma OrCodeShape(a: Ast.Node, b: Ast.Node, l: nat)
    requires Match !in Code(a, l + 1) && TargetsWithin(Code(a, l + 1), l + 1, l + 1 + Len(a))
    requires Match !in Code(b, l + Len(a) + 2) && TargetsWithin(Code(b, l + Len(a) + 2), l + Len(a) + 2, l + Len(a) + 2 + Len(b))
    ensures Match !in Code(Ast.Or(a, b), l)
    ensures TargetsWithin(Code(Ast.Or(a, b), l), l, l + Len(Ast.Or(a, b)))
  {
    OrCode(a, b, l);
    OrShape(Code(Ast.Or(a, b), l), Code(a, l + 1), Code(b, l + Len(a) + 2), l, Len(a), Len(b), l + Len(Ast.Or(a, b)));
  }

  /**
   * The shape of the code of an `Or` (`s`) from the shapes of the code of its
   * branches (`p` at `l + 1`, `q` at `l + la + 2`).
   */
  lemma OrShape(s: seq<Inst>, p: seq<Inst>, q: seq<Inst>, l: nat, la: nat, lb: nat, hi: nat)
    requires hi == l + la + lb + 2
    requires s == [Split(l + 1, l + la + 2)] + p + [Jmp(hi)] + q
    requires Match !in p && TargetsWithin(p, l + 1, l + 1 + la)
    requires Match !in q && TargetsWithin(q, l + la + 2, l + la + 2 + lb)
    ensures Match !in s && TargetsWithin(s, l, hi)
  {
    TargetsWithinWiden(p, l + 1, l + 1 + la, l, hi);
    TargetsWithinWiden(q, l + la + 2, l + la + 2 + lb, l, hi);
    FramedTargets(s, Split(l + 1, l + la + 2), p, Jmp(hi), q, l, hi);
  }

  lemma {:induction false} CodeShapeStar(b: Ast.Node, l: nat)
    ensures Match !in Code(Ast.Star(b), l)
    ensures TargetsWithin(Code(Ast.Star(b), l), l, l + Len(Ast.Star(b)))
    decreases Ast.Star(b), 0
  {
    CodeShape(b, l + 1);
    StarCode(b, l);
    StarShape(Code(Ast.Star(b), l), Code(b, l + 1), l, Len(b), l + Len(Ast.Star(b)));
  }

  /** The shape of the code of a `Star` (`s`) from the shape of the code of its body (`p` at `l + 1`). */
  lemma StarShape(s: seq<Inst>, p: seq<Inst>, l: nat, lb: nat, hi: nat)
    requires hi == l + lb + 2
    requires s == [Split(l + 1, hi)] + p + [Jmp(l)]
    requires Match !in p && TargetsWithin(p, l + 1, l + 1 + lb)
    ensures Match !in s && TargetsWithin(s, l, hi)
  {
    TargetsWithinWiden(p, l + 1, l + 1 + lb, l, hi);
    assert s == [Split(l + 1, hi)] + p + [Jmp(l)] + [];
    FramedTargets(s, Split(l + 1, hi), p, Jmp(l), [], l, hi);
  }

  /** Two blocks, each preceded by one instruction, whose targets all lie in `lo..hi`. */
  lemma FramedTargets(s: seq<Inst>, x: Inst, p: seq<Inst>, y: Inst, q: seq<Inst>, lo: nat, hi: nat)
    requires s == [x] + p + [y] + q
    requires TargetIn(x, lo, hi) && TargetIn(y, lo, hi)
    requires TargetsWithin(p, lo, hi) && TargetsWithin(q, lo, hi)
    ensures TargetsWithin(s, lo, hi)
  {
    assert TargetsWithin([x], lo, hi) && TargetsWithin([y], lo, hi);
    TargetsWithinAppend([x], p, lo, hi);
    TargetsWithinAppend([x] + p, [y], lo, hi);
    TargetsWithinAppend([x] + p + [y], q, lo, hi);
  }

  lemma {:induction false} CodeSeqShape(items: seq<Ast.Node>, l: nat)
    ensures Match !in CodeSeq(items, l)
    ensures TargetsWithin(CodeSeq(items, l), l, l + LenSeq(items))
    decreases items
  {
    if items != [] {
      CodeShape(items[0], l);
      CodeSeqShape(items[1..], l + Len(items[0]));
      SeqShape(items, l);
    }
  }

  /** The shape of the code of a non-empty `Seq`, from the shapes of its first item and of the rest. */
  lemma SeqShape(items: seq<Ast.Node>, l: nat)
    requires items != []
    requires Match !in Code(items[0], l) && TargetsWithin(Code(items[0], l), l, l + Len(items[0]))
    requires var m := l + Len(items[0]);
      Match !in CodeSeq(items[1..], m) && TargetsWithin(CodeSeq(items[1..], m), m, m + LenSeq(items[1..]))
    ensures Match !in CodeSeq(items, l)
    ensures TargetsWithin(CodeSeq(items, l), l, l + LenSeq(items))
  {
    var m := l + Len(items[0]);
    var head, tail := Code(items[0], l), CodeSeq(items[1..], m);
    var hi := l + LenSeq(items);
    assert CodeSeq(items, l) == head + tail;
    TargetsWithinWiden(head, l, m, l, hi);
    TargetsWithinWiden(tail, m, m + LenSeq(items[1..]), l, hi);
    TargetsWithinAppend(head, tail, l, hi);
  }

  /**
   * `gen` ends with exactly one `Match`, and every jump of the program is a
   * valid address of the program.
   */
  lemma ProgramWellFormed(n: Ast.Node)
    ensures |Program(n)| == Len(n) + 1
    ensures Program(n)[|Program(n)| - 1] == Match
    ensures forall i :: 0 <= i < |Program(n)| - 1 ==> Program(n)[i] != Match
    ensures TargetsWithin(Program(n), 0, |Program(n)| - 1)
  {
    var code := Code(n, 0);
    CodeShape(n, 0);
    assert TargetsWithin(code, 0, Len(n));
    assert TargetsWithin([Match], 0, Len(n));
    TargetsWithinAppend(code, [Match], 0, Len(n));
    forall i | 0 <= i < |Program(n)| - 1 ensures Program(n)[i] != Match {
      assert Program(n)[i] == code[i];
    }
  }

  /**
   * Where the pieces of an `Or` sit: the `Split` at `l` targets the first
   * instruction of the left branch and of the right branch, and the `Jmp`
   * after the left branch targets the first address past the whole `Or`,
   * whose length is the sum of the branches' lengths plus two.
   */
  lemma OrLayout(a: Ast.Node, b: Ast.Node, l: nat)
    ensures var code, lhs, rhs := Code(Ast.Or(a, b), l), Code(a, l + 1), Code(b, l + Len(a) + 2);
      && |code| == |lhs| + |rhs| + 2
      && code[0] == Split(l + 1, l + |lhs| + 2)
      && code[1..1 + |lhs|] == lhs
      && code[1 + |lhs|] == Jmp(l + |code|)
      && code[2 + |lhs|..] == rhs
  {
    var code, lhs, rhs := Code(Ast.Or(a, b), l), Code(a, l + 1), Code(b, l + Len(a) + 2);
    OrCode(a, b, l);
    Framed(code, Split(l + 1, l + Len(a) + 2), lhs, Jmp(l + Len(Ast.Or(a, b))), rhs);
  }

  /** Picking apart a sequence made of one element, a block, another element and another block. */
  lemma Framed(s: seq<Inst>, x: Inst, p: seq<Inst>, y: Inst, q: seq<Inst>)
    requires s == [x] + p + [y] + q
    ensures |s| == |p| + |q| + 2
    ensures s[0] == x && s[1..1 + |p|] == p && s[1 + |p|] == y && s[2 + |p|..] == q
  {
    assert s[1..1 + |p|] == p;
    assert s[2 + |p|..] == q;
  }

  /**
   * Where the pieces of a `Star` sit: the `Split` at `l` targets the body and
   * the first address past the loop, and the last instruction jumps back to
   * the `Split`.
   */
  lemma StarLayout(b: Ast.Node, l: nat)
    ensures var code, body := Code(Ast.Star(b), l), Code(b, l + 1);
      && |code| == |body| + 2
      && code[0] == Split(l + 1, l + |code|)
      && code[1..1 + |body|] == body
      && code[1 + |body|] == Jmp(l)
  {
    var code, body := Code(Ast.Star(b), l), Code(b, l + 1);
    assert |code| == Len(Ast.Star(b));
    StarCode(b, l);
    Bracketed(code, Split(l + 1, l + Len(Ast.Star(b))), body, Jmp(l));
  }

  /** Picking apart a sequence made of one element, a block and another element. */
  lemma Bracketed(s: seq<Inst>, x: Inst, p: seq<Inst>, y: Inst)
    requires s == [x] + p + [y]
    ensures |s| == |p| + 2
    ensures s[0] == x && s[1..1 + |p|] == p && s[1 + |p|] == y
  {
    assert s[1..1 + |p|] == p;
  }
}
