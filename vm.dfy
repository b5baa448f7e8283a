/*
 * The backtracking matcher of ch06/src/evaluator.rs.
 *
 * A `Machine` holds a program counter `pc` and a string pointer `sp` and
 * runs the program against the target text; a `Split` is taken by
 * re-running the machine from its first target and, if that run fails, by
 * restoring `sp` and running from the second target.
 *
 * The source's `run` need not return: on a loop whose body matches the
 * empty word it re-enters itself at every `Split` without bound (in practice
 * until the call stack overflows). So here every run is given `fuel`: each
 * step along a path needs one unit (reaching `Match` too), a `Split` hands
 * the remaining fuel to each of its two re-runs, and a run that exhausts it
 * reports `OutOfFuel`, which stands for unbounded recursion and for stack
 * exhaustion alike.
 * `Exec` is the run as a function; `Machine.Run` is proved to compute it.
 */
module Vm {
  import opened Codegen

  /** How a run ended: it reached `Match`, it failed, or it used up its fuel. */
  datatype Status = Matched | NoMatch | OutOfFuel

  /** How a run ended, with the machine's registers at that point. */
  datatype Final = Final(status: Status, pc: nat, sp: nat)

  /** The run of `prog` on `text` from registers `pc` and `sp` with `fuel`. */
  function Exec(prog: seq<Inst>, text: seq<char>, pc: nat, sp: nat, fuel: nat): (r: Final)
    ensures sp <= r.sp && (sp <= |text| ==> r.sp <= |text|)
    ensures r.status == Matched ==> r.pc < |prog| && prog[r.pc] == Match
    decreases fuel
  {
    if pc >= |prog| then Final(NoMatch, pc, sp)
    else if fuel == 0 then Final(OutOfFuel, pc, sp)
    else
      match prog[pc]
      case Match => Final(Matched, pc, sp)
      case Char(c) =>
        if sp >= |text| then Final(NoMatch, pc, sp)
        else if c == text[sp] then Exec(prog, text, pc + 1, sp + 1, fuel - 1)
        else Final(NoMatch, pc, sp)
      case Jmp(t) => Exec(prog, text, t, sp, fuel - 1)
      case Split(t1, t2) =>
        var first := Exec(prog, text, t1, sp, fuel - 1);
        if first.status != NoMatch then first
        else Exec(prog, text, t2, sp, fuel - 1)
  }

  /** `eval`: whether the program matches a prefix of `text` (when the run finishes within `fuel`). */
  function EvalSpec(prog: seq<Inst>, text: seq<char>, fuel: nat): Status
  {
    Exec(prog, text, 0, 0, fuel).status
  }

  class Machine {
    /** program counter */
    var pc: nat
    /** string pointer */
    var sp: nat
    const insts: seq<Inst>
    const target: seq<char>

    constructor (insts: seq<Inst>, target: seq<char>)
      ensures this.insts == insts && this.target == target && pc == 0 && sp == 0
    {
      this.insts := insts;
      this.target := target;
      pc := 0;
      sp := 0;
    }

    /** `run`: executes until `Match`, a failed path, the end of the program, or the end of `fuel`. */
    method Run(fuel: nat) returns (status: Status)
      modifies this
      ensures Final(status, pc, sp) == Exec(insts, target, old(pc), old(sp), fuel)
      decreases fuel
    {
      var f: nat := fuel;
      while pc < |insts|
        invariant f <= fuel
        invariant Exec(insts, target, pc, sp, f) == Exec(insts, target, old(pc), old(sp), fuel)
        decreases f
      {
        if f == 0 {
          return OutOfFuel;
        }
        match insts[pc] {
          case Match =>
            return Matched;
          case Char(c) =>
            if sp >= |target| {
              return NoMatch;
            }
            if c == target[sp] {
              pc := pc + 1;
              sp := sp + 1;
            } else {
              return NoMatch;
            }
          case Jmp(t) =>
            pc := t;
          case Split(t1, t2) =>
            pc := t1;
            var saved := sp;
            var first := Run(f - 1);
            if first != NoMatch {
              // a match, or a first branch that never returns
              return first;
            }
            pc := t2;
            sp := saved;
            status := Run(f - 1);
            return;
        }
        f := f - 1;
      }
      return NoMatch;
    }
  }

  /** `eval`: a fresh machine at `pc = sp = 0` over the program and the text. */
  method Eval(insts: seq<Inst>, text: seq<char>, fuel: nat) returns (status: Status)
    ensures status == EvalSpec(insts, text, fuel)
  {
    var m := new Machine(insts, text);
    status := m.Run(fuel);
  }
}
