/*
 * The recursive-descent parser of ch06/src/parse.rs.
 *
 * Precedence, highest first: grouping, `*`, concatenation, `|`.
 *   - `OrSpec`: a concatenation, then optionally `|` and another alternation
 *     (so `|` nests to the right);
 *   - `ConcatSpec`: terms read by `StarSpec` until the end, `)` or `|`;
 *   - `StarSpec`: a `GroupSpec` with at most one `*` after it;
 *   - `GroupSpec`: an alternation between `(` and `)`, or one character
 *     of any other kind taken literally.
 *
 * The source threads one peekable character iterator through four mutually
 * recursive productions. Here the iterator is the cursor `pos` of a `Parser`
 * object over the pattern, and each production is a method that advances it.
 * Each method is proved equal to a pure function over (pattern, position),
 * and the properties of the parser are proved about those functions.
 */
module Parser {
  import opened Ast

  /** The one way the source's parser fails: the `unwrap` of a missing `)`. */
  datatype ParseError = UnclosedGroup

  datatype Result<+T> = Ok(value: T) | Err(error: ParseError)
  {
    predicate IsFailure() { Err? }

    function PropagateFailure<U>(): Result<U>
      requires Err?
    {
      Err(error)
    }

    function Extract(): T
      requires Ok?
    {
      value
    }
  }

  /** A production's result: the node it built and the position of the first character it left unread. */
  datatype Parsed = Parsed(node: Node, next: nat)

  /** The characters that stop a concatenation (`parse_concat` peeks for them). */
  predicate EndsConcat(s: seq<char>, i: nat)
  {
    i == |s| || (i < |s| && (s[i] == ')' || s[i] == '|'))
  }

  // ---------------------------------------------------------------------------
  // The productions as functions of (pattern, position)
  // ---------------------------------------------------------------------------

  /** `parse_or`: a concatenation, then, after a `|`, another alternation. */
  function OrSpec(s: seq<char>, i: nat): (r: Result<Parsed>)
    requires i <= |s|
    ensures r.Ok? ==> i <= r.value.next <= |s| && WellFormed(r.value.node)
    ensures r.Ok? ==> r.value.next == |s| || s[r.value.next] == ')'
    decreases |s| - i, 4
  {
    var p :- ConcatSpec(s, i);
    if p.next < |s| && s[p.next] == '|' then
      var q :- OrSpec(s, p.next + 1);
      Ok(Parsed(Or(p.node, q.node), q.next))
    else
      Ok(p)
  }

  /** `parse_concat`: the terms up to `)`, `|` or the end; a single term is returned unwrapped. */
  function ConcatSpec(s: seq<char>, i: nat): (r: Result<Parsed>)
    requires i <= |s|
    ensures r.Ok? ==> i <= r.value.next <= |s| && EndsConcat(s, r.value.next)
    ensures r.Ok? ==> WellFormed(r.value.node) && !(r.value.node.Seq? && |r.value.node.items| == 1)
    decreases |s| - i, 3
  {
    var (items, next) :- TermsSpec(s, i, []);
    if |items| == 1 then Ok(Parsed(items[0], next)) else Ok(Parsed(Seq(items), next))
  }

  /** The `while` loop of `parse_concat`: appends one `parse_star` term to `acc` per iteration. */
  function TermsSpec(s: seq<char>, i: nat, acc: seq<Node>): (r: Result<(seq<Node>, nat)>)
    requires i <= |s|
    ensures r.Ok? ==> i <= r.value.1 <= |s| && EndsConcat(s, r.value.1)
    ensures r.Ok? ==> |acc| <= |r.value.0| && r.value.0[..|acc|] == acc
    ensures r.Ok? && (forall k :: 0 <= k < |acc| ==> WellFormed(acc[k])) ==>
              forall k :: 0 <= k < |r.value.0| ==> WellFormed(r.value.0[k])
    decreases |s| - i, 2
  {
    if EndsConcat(s, i) then
      Ok((acc, i))
    else
      var p :- StarSpec(s, i);
      TermsSpec(s, p.next, acc + [p.node])
  }

  /** `parse_star`: a group, wrapped in `Star` when one `*` follows it. */
  function StarSpec(s: seq<char>, i: nat): (r: Result<Parsed>)
    requires i < |s|
    ensures r.Ok? ==> i < r.value.next <= |s| && WellFormed(r.value.node)
    decreases |s| - i, 1
  {
    var p :- GroupSpec(s, i);
    if p.next < |s| && s[p.next] == '*' then Ok(Parsed(Star(p.node), p.next + 1)) else Ok(p)
  }

  /** `parse_group`: a parenthesised alternation, or any one character taken literally. */
  function GroupSpec(s: seq<char>, i: nat): (r: Result<Parsed>)
    requires i < |s|
    ensures r.Ok? ==> i < r.value.next <= |s| && WellFormed(r.value.node)
    ensures r.Err? ==> s[i] == '('
    decreases |s| - i, 0
  {
    if s[i] == '(' then
      var p :- OrSpec(s, i + 1);
      if p.next == |s| then
        Err(UnclosedGroup)
      else
        // the `assert_eq!` on the closing character never fires
        assert s[p.next] == ')';
        Ok(Parsed(p.node, p.next + 1))
    else
      Ok(Parsed(Char(s[i]), i + 1))
  }

  /** `parse`: one alternation from the start of the pattern; anything after a stray `)` is ignored. */
  function ParseSpec(pattern: seq<char>): (r: Result<Node>)
    ensures r.Ok? ==> WellFormed(r.value)
  {
    var p :- OrSpec(pattern, 0);
    Ok(p.node)
  }

  /** A production method's outcome `r` and final cursor `pos` are those its function gives. */
  ghost predicate Agrees(spec: Result<Parsed>, r: Result<Node>, pos: nat)
  {
    match spec
    case Ok(p) => r == Ok(p.node) && pos == p.next
    case Err(e) => r == Err(e)
  }

  // ---------------------------------------------------------------------------
  // The parser object: one cursor advanced in place by every production
  // ---------------------------------------------------------------------------

  class Parser {
    const input: seq<char>
    /** The position of the character `peek` would return. */
    var pos: nat

    constructor (input: seq<char>)
      ensures this.input == input && pos == 0
    {
      this.input := input;
      pos := 0;
    }

    method ParseOr() returns (r: Result<Node>)
      requires pos <= |input|
      modifies this
      ensures old(pos) <= pos <= |input|
      ensures Agrees(OrSpec(input, old(pos)), r, pos)
      decreases |input| - pos, 4
    {
      var n :- ParseConcat();
      if pos < |input| && input[pos] == '|' {
        pos := pos + 1;
        var m :- ParseOr();
        n := Or(n, m);
      }
      return Ok(n);
    }

    method ParseConcat() returns (r: Result<Node>)
      requires pos <= |input|
      modifies this
      ensures old(pos) <= pos <= |input|
      ensures Agrees(ConcatSpec(input, old(pos)), r, pos)
      decreases |input| - pos, 3
    {
      var items: seq<Node> := [];
      while !EndsConcat(input, pos)
        invariant old(pos) <= pos <= |input|
        invariant TermsSpec(input, pos, items) == TermsSpec(input, old(pos), [])
        decreases |input| - pos
      {
        var n :- ParseStar();
        items := items + [n];
      }
      if |items| == 1 {
        return Ok(items[0]);
      }
      return Ok(Seq(items));
    }

    method ParseStar() returns (r: Result<Node>)
      requires pos < |input|
      modifies this
      ensures old(pos) < pos <= |input|
      ensures Agrees(StarSpec(input, old(pos)), r, pos)
      decreases |input| - pos, 1
    {
      var n :- ParseGroup();
      if pos < |input| && input[pos] == '*' {
        pos := pos + 1;
        n := Star(n);
      }
      return Ok(n);
    }

    method ParseGroup() returns (r: Result<Node>)
      requires pos < |input|
      modifies this
      ensures old(pos) < pos <= |input|
      ensures Agrees(GroupSpec(input, old(pos)), r, pos)
      decreases |input| - pos, 0
    {
      var c := input[pos];
      pos := pos + 1;
      if c == '(' {
        var n :- ParseOr();
        if pos == |input| {
          return Err(UnclosedGroup);
        }
        assert input[pos] == ')';
        pos := pos + 1;
        return Ok(n);
      }
      return Ok(Char(c));
    }
  }

  /** `parse`: runs `parse_or` on a fresh cursor at the start of the pattern. */
  method Parse(pattern: seq<char>) returns (r: Result<Node>)
    ensures r == ParseSpec(pattern)
    ensures r.Ok? ==> WellFormed(r.value)
  {
    var p := new Parser(pattern);
    r := p.ParseOr();
  }
}
