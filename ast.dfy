/*
 * The abstract syntax of a pattern (ch06/src/parse.rs `Node`) and the
 * declarative meaning of a pattern: the set of words it stands for.
 */
module Ast {

  /** A parsed pattern. `Or` keeps its two branches as named fields. */
  datatype Node =
    | Char(c: char)
    | Seq(items: seq<Node>)
    | Star(body: Node)
    | Or(lhs: Node, rhs: Node)

  /** The shape the parser guarantees: no `Seq` anywhere in the tree holds exactly one item. */
  ghost predicate WellFormed(n: Node)
  {
    match n
    case Char(_) => true
    case Seq(items) => |items| != 1 && forall k :: 0 <= k < |items| ==> WellFormed(items[k])
    case Star(b) => WellFormed(b)
    case Or(a, b) => WellFormed(a) && WellFormed(b)
  }

  /**
   * `w` is a word of the language of `n`: a single character, a concatenation
   * of words of the items, a word of either branch, or zero or more non-empty
   * words of the body (an empty iteration adds nothing to a star's language).
   */
  ghost predicate InLang(n: Node, w: seq<char>)
    decreases n, |w|
  {
    match n
    case Char(c) => w == [c]
    case Seq(items) => InLangSeq(items, w)
    case Or(a, b) => InLang(a, w) || InLang(b, w)
    case Star(b) =>
      w == [] || exists k :: 0 < k <= |w| && InLang(b, w[..k]) && InLang(n, w[k..])
  }

  /** `w` splits into consecutive words of `items`, in order. */
  ghost predicate InLangSeq(items: seq<Node>, w: seq<char>)
    decreases items, |w|
  {
    if items == [] then w == []
    else exists k :: 0 <= k <= |w| && InLang(items[0], w[..k]) && InLangSeq(items[1..], w[k..])
  }

  /** Some prefix of `text` (possibly empty, possibly all of it) is a word of `n`. */
  ghost predicate PrefixMatch(n: Node, text: seq<char>)
  {
    exists j :: 0 <= j <= |text| && InLang(n, text[..j])
  }

  /** Whether the empty word is in the language, computed from the tree's shape. */
  predicate Nullable(n: Node)
  {
    match n
    case Char(_) => false
    case Seq(items) => forall k :: 0 <= k < |items| ==> Nullable(items[k])
    case Star(_) => true
    case Or(a, b) => Nullable(a) || Nullable(b)
  }

  /** No `Star` in the tree has a body that can match the empty word. */
  predicate StarBodiesNonEmpty(n: Node)
  {
    match n
    case Char(_) => true
    case Seq(items) => forall k :: 0 <= k < |items| ==> StarBodiesNonEmpty(items[k])
    case Star(b) => !Nullable(b) && StarBodiesNonEmpty(b)
    case Or(a, b) => StarBodiesNonEmpty(a) && StarBodiesNonEmpty(b)
  }

  /** `Nullable` agrees with the declarative language on the empty word. */
  lemma {:induction false} NullableIffEmptyWord(n: Node)
    ensures Nullable(n) <==> InLang(n, [])
    decreases n
  {
    match n
    case Char(_) =>
    case Seq(items) => NullableSeqIffEmptyWord(items);
    case Star(_) =>
    case Or(a, b) =>
      NullableIffEmptyWord(a);
      NullableIffEmptyWord(b);
  }

  lemma {:induction false} NullableSeqIffEmptyWord(items: seq<Node>)
    ensures (forall k :: 0 <= k < |items| ==> Nullable(items[k])) <==> InLangSeq(items, [])
    decreases items
  {
    if items != [] {
      NullableIffEmptyWord(items[0]);
      NullableSeqIffEmptyWord(items[1..]);
      var e: seq<char> := [];
      assert e[..0] == e && e[0..] == e;
      if InLangSeq(items, e) {
        var k :| 0 <= k <= |e| && InLang(items[0], e[..k]) && InLangSeq(items[1..], e[k..]);
        assert k == 0;
      }
      assert (forall k :: 0 <= k < |items| ==> Nullable(items[k]))
         <==> Nullable(items[0]) && forall k :: 0 <= k < |items[1..]| ==> Nullable(items[1..][k]);
    }
  }
}
