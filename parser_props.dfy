/*
 * Properties of the parser of ch06/src/parse.rs, proved about the functions
 * that the `Parser` methods are proved equal to.
 */
module ParserProps {
  import opened Ast
  import opened Parser

  datatype Option<+T> = None | Some(value: T)

  /**
   * A bracket scanner, independent of the grammar: starting at `i` with
   * `depth` groups open, `(` opens a group, `)` closes one, and a `)` with no
   * group open ends the pattern. The result is the position where the
   * pattern ends, or `None` when the input runs out with a group still open.
   */
  function Scan(s: seq<char>, i: nat, depth: nat): Option<nat>
    requires i <= |s|
    decreases |s| - i
  {
    if i == |s| then (if depth == 0 then Some(i) else None)
    else if s[i] == ')' then (if depth == 0 then Some(i) else Scan(s, i + 1, depth - 1))
    else if s[i] == '(' then Scan(s, i + 1, depth + 1)
    else Scan(s, i + 1, depth)
  }

  /** How a production's outcome relates to the scanner at any depth `d`. */
  ghost predicate ScanAgrees(s: seq<char>, i: nat, d: nat, r: Result<Parsed>)
    requires i <= |s|
  {
    match r
    case Ok(p) => p.next <= |s| && Scan(s, i, d) == Scan(s, p.next, d)
    case Err(_) => Scan(s, i, d) == None
  }

  lemma {:induction false} ScanOr(s: seq<char>, i: nat, d: nat)
    requires i <= |s|
    ensures ScanAgrees(s, i, d, OrSpec(s, i))
    decreases |s| - i, 4
  {
    ScanConcat(s, i, d);
    var c := ConcatSpec(s, i);
    if c.Ok? && c.value.next < |s| && s[c.value.next] == '|' {
      ScanOr(s, c.value.next + 1, d);
    }
  }

  lemma {:induction false} ScanConcat(s: seq<char>, i: nat, d: nat)
    requires i <= |s|
    ensures ScanAgrees(s, i, d, ConcatSpec(s, i))
    decreases |s| - i, 3
  {
    ScanTerms(s, i, [], d);
  }

  lemma {:induction false} ScanTerms(s: seq<char>, i: nat, acc: seq<Node>, d: nat)
    requires i <= |s|
    ensures match TermsSpec(s, i, acc)
            case Ok(t) => Scan(s, i, d) == Scan(s, t.1, d)
            case Err(_) => Scan(s, i, d) == None
    decreases |s| - i, 2
  {
    if !EndsConcat(s, i) {
      ScanStar(s, i, d);
      var p := StarSpec(s, i);
      if p.Ok? {
        ScanTerms(s, p.value.next, acc + [p.value.node], d);
      }
    }
  }

  lemma {:induction false} ScanStar(s: seq<char>, i: nat, d: nat)
    requires i < |s| && s[i] != ')'
    ensures ScanAgrees(s, i, d, StarSpec(s, i))
    decreases |s| - i, 1
  {
    ScanGroup(s, i, d);
  }

  lemma {:induction false} ScanGroup(s: seq<char>, i: nat, d: nat)
    requires i < |s| && s[i] != ')'
    ensures ScanAgrees(s, i, d, GroupSpec(s, i))
    decreases |s| - i, 0
  {
    if s[i] == '(' {
      ScanOr(s, i + 1, d + 1);
    }
  }

  /**
   * The parser fails exactly when the input ends inside an open group, and
   * otherwise reads exactly up to the first `)` that closes no group (or to
   * the end): the rest of the input is ignored.
   */
  lemma ParseFailsIffGroupLeftOpen(s: seq<char>)
    ensures OrSpec(s, 0).Err? <==> Scan(s, 0, 0) == None
    ensures OrSpec(s, 0).Ok? ==> Scan(s, 0, 0) == Some(OrSpec(s, 0).value.next)
  {
    ScanOr(s, 0, 0);
  }

  /**
   * A group succeeds exactly when the bracket scanner, started just inside
   * its `(`, stops on a `)` (rather than at the end of the input or inside
   * a group still open), and the group then ends just past that `)`.
   */
  lemma GroupClosesAtScan(s: seq<char>, i: nat)
    requires i < |s| && s[i] == '('
    ensures GroupSpec(s, i).Ok? <==> Scan(s, i + 1, 0).Some? && Scan(s, i + 1, 0).value < |s|
    ensures GroupSpec(s, i).Ok? ==> GroupSpec(s, i).value.next == Scan(s, i + 1, 0).value + 1
  {
    ScanOr(s, i + 1, 0);
  }

  /** Any character other than `(`, `)` or `|`, alone or in a group, parses to that character. */
  lemma ParseSingleChar(c: char)
    requires c != '(' && c != ')' && c != '|'
    ensures ParseSpec([c]) == Ok(Char(c))
    ensures ParseSpec(['(', c, ')']) == Ok(Char(c))
  {
    var single := [c];
    assert StarSpec(single, 0) == Ok(Parsed(Char(c), 1));
    assert TermsSpec(single, 1, [Char(c)]) == Ok(([Char(c)], 1));
    assert [] + [Char(c)] == [Char(c)];
    assert TermsSpec(single, 0, []) == Ok(([Char(c)], 1));
    assert ConcatSpec(single, 0) == Ok(Parsed(Char(c), 1));
    assert OrSpec(single, 0) == Ok(Parsed(Char(c), 1));
    var s := ['(', c, ')'];
    assert StarSpec(s, 1) == Ok(Parsed(Char(c), 2));
    assert TermsSpec(s, 2, [Char(c)]) == Ok(([Char(c)], 2));
    assert TermsSpec(s, 1, []) == Ok(([Char(c)], 2));
    assert ConcatSpec(s, 1) == Ok(Parsed(Char(c), 2));
    assert OrSpec(s, 1) == Ok(Parsed(Char(c), 2));
    assert StarSpec(s, 0) == Ok(Parsed(Char(c), 3));
    assert TermsSpec(s, 3, [Char(c)]) == Ok(([Char(c)], 3));
    assert TermsSpec(s, 0, []) == Ok(([Char(c)], 3));
    assert ConcatSpec(s, 0) == Ok(Parsed(Char(c), 3));
    assert OrSpec(s, 0) == Ok(Parsed(Char(c), 3));
  }

  /** The empty pattern, and an empty group, parse to the empty sequence. */
  lemma ParseEmpty()
    ensures ParseSpec([]) == Ok(Seq([]))
    ensures ParseSpec("()") == Ok(Seq([]))
  {
    assert OrSpec("()", 1) == Ok(Parsed(Seq([]), 1));
  }
}
