/**
  The parse tree and its rendering in fully parenthesised prefix form.

  A tree is an operand character or an operation applied to an ordered
  sequence of children.  The parser only ever builds binary operations with a
  known operator, but the type, like the source's, allows any number of
  children, and rendering handles them all.
 */
module Expressions {
  import opened Tokens
  import opened BindingPower

  datatype Expression = Atom(c: char) | Operation(op: char, children: seq<Expression>)

  /** The parts joined with `sep` between each adjacent pair: the last part
      is appended after the join of the others. */
  function Join<T>(parts: seq<seq<T>>, sep: seq<T>): seq<T> {
    if |parts| == 0 then []
    else if |parts| == 1 then parts[0]
    else Join(parts[..|parts| - 1], sep) + sep + parts[|parts| - 1]
  }

  lemma JoinPair<T>(a: seq<T>, b: seq<T>, sep: seq<T>)
    ensures Join([a, b], sep) == a + sep + b
  {
    assert [a, b][..1] == [a];
  }

  /** Extending the parts by one appends a separator (unless it is the first
      part) and the new part. */
  lemma JoinSnoc<T>(parts: seq<seq<T>>, i: nat, sep: seq<T>)
    requires i < |parts|
    ensures Join(parts[..i + 1], sep) == Join(parts[..i], sep) + (if i > 0 then sep else []) + parts[i]
  {
    assert parts[..i + 1][..i] == parts[..i];
  }

  /** Fully parenthesised prefix form: an atom is its character; an operation
      is `(`, the operator, a space, the children separated by single spaces,
      and `)`. */
  function Render(e: Expression): string {
    match e
    case Atom(c) => [c]
    case Operation(op, children) =>
      "(" + [op] + " " + Join(seq(|children|, i requires 0 <= i < |children| => Render(children[i])), " ") + ")"
  }

  /** The renderings of a sequence of children, one per child. */
  function RenderAll(children: seq<Expression>): (r: seq<string>)
    ensures |r| == |children|
    ensures forall i :: 0 <= i < |children| ==> r[i] == Render(children[i])
  {
    seq(|children|, i requires 0 <= i < |children| => Render(children[i]))
  }

  /** An output sink that text is appended to. */
  class Formatter {
    var out: string

    constructor ()
      ensures out == []
    {
      out := [];
    }

    method Write(s: string)
      modifies this
      ensures out == old(out) + s
    {
      out := out + s;
    }
  }

  /** Writes the rendering of `e`: the children of an operation in order, with
      a space before every child but the first. */
  method Fmt(e: Expression, f: Formatter)
    modifies f
    decreases e
    ensures f.out == old(f.out) + Render(e)
  {
    match e
    case Atom(c) =>
      f.Write([c]);
    case Operation(op, exprs) =>
      f.Write("(" + [op] + " ");
      ghost var start := f.out;
      ghost var parts := RenderAll(exprs);
      for i := 0 to |exprs|
        invariant f.out == start + Join(parts[..i], " ")
      {
        JoinSnoc(parts, i, " ");
        if i > 0 {
          f.Write(" ");
        }
        Fmt(exprs[i], f);
      }
      assert parts[..|exprs|] == parts;
      f.Write(")");
  }

  /** The rendering of a tree into a fresh formatter. */
  method ToString(e: Expression) returns (s: string)
    ensures s == Render(e)
  {
    var f := new Formatter();
    Fmt(e, f);
    s := f.out;
  }

  /** Every operation has exactly two children and a known operator. */
  predicate IsBinary(e: Expression) {
    match e
    case Atom(_) => true
    case Operation(op, children) =>
      |children| == 2 && IsKnownOperator(op) && IsBinary(children[0]) && IsBinary(children[1])
  }

  /** A binary tree whose operands are ASCII letters and digits. */
  predicate WellFormed(e: Expression) {
    match e
    case Atom(c) => IsAsciiAlphanumeric(c)
    case Operation(op, children) =>
      |children| == 2 && IsKnownOperator(op) && WellFormed(children[0]) && WellFormed(children[1])
  }

  /** The operands read from left to right. */
  function Leaves(e: Expression): string {
    match e
    case Atom(c) => [c]
    case Operation(_, children) =>
      Join(seq(|children|, i requires 0 <= i < |children| => Leaves(children[i])), [])
  }

  /** The tree read back in infix order, without parentheses: an operation's
      children with its operator between each adjacent pair. */
  function Infix(e: Expression): seq<Token> {
    match e
    case Atom(c) => [Token.Atom(c)]
    case Operation(op, children) =>
      Join(seq(|children|, i requires 0 <= i < |children| => Infix(children[i])), [Op(op)])
  }

  lemma InfixBinary(op: char, l: Expression, r: Expression)
    ensures Infix(Operation(op, [l, r])) == Infix(l) + [Op(op)] + Infix(r)
  {
    var parts := seq(2, i requires 0 <= i < 2 => Infix([l, r][i]));
    assert parts == [Infix(l), Infix(r)];
    JoinPair(Infix(l), Infix(r), [Op(op)]);
  }

  lemma LeavesBinary(op: char, l: Expression, r: Expression)
    ensures Leaves(Operation(op, [l, r])) == Leaves(l) + Leaves(r)
  {
    var parts := seq(2, i requires 0 <= i < 2 => Leaves([l, r][i]));
    assert parts == [Leaves(l), Leaves(r)];
    JoinPair(Leaves(l), Leaves(r), []);
  }

  lemma RenderBinary(op: char, l: Expression, r: Expression)
    ensures Render(Operation(op, [l, r])) == "(" + [op] + " " + Render(l) + " " + Render(r) + ")"
  {
    var parts := seq(2, i requires 0 <= i < 2 => Render([l, r][i]));
    assert parts == [Render(l), Render(r)];
    JoinPair(Render(l), Render(r), " ");
  }

  /** An atom renders as its own character. */
  lemma RenderAtom(c: char)
    ensures Render(Expression.Atom(c)) == [c]
  {
  }

  /** A well-formed rendering starts with `(` exactly when it is an operation's. */
  lemma RenderStart(e: Expression)
    requires WellFormed(e)
    ensures |Render(e)| > 0 && (Render(e)[0] == '(' <==> e.Operation?)
  {
    if e.Operation? {
      RenderBinary(e.op, e.children[0], e.children[1]);
      assert e.children == [e.children[0], e.children[1]];
    }
  }

  /** Dropping an equal prefix of length `k` from two equal sequences. */
  lemma DropCommon<T>(p1: seq<T>, x1: seq<T>, p2: seq<T>, x2: seq<T>)
    requires p1 + x1 == p2 + x2 && |p1| == |p2|
    ensures p1 == p2 && x1 == x2
  {
    assert p1 == (p1 + x1)[..|p1|] && p2 == (p2 + x2)[..|p2|];
    assert x1 == (p1 + x1)[|p1|..] && x2 == (p2 + x2)[|p2|..];
  }

  /** The text of two binary renderings with their continuations: the
      operators agree and each left operand is followed by the rest. */
  lemma SplitOperation(o1: char, a1: string, b1: string, s1: string,
                       o2: char, a2: string, b2: string, s2: string)
    requires "(" + [o1] + " " + a1 + " " + b1 + ")" + s1 == "(" + [o2] + " " + a2 + " " + b2 + ")" + s2
    ensures o1 == o2
    ensures a1 + (" " + b1 + ")" + s1) == a2 + (" " + b2 + ")" + s2)
  {
    var t1 := "(" + [o1] + " " + a1 + " " + b1 + ")" + s1;
    var t2 := "(" + [o2] + " " + a2 + " " + b2 + ")" + s2;
    assert t1[1] == o1 && t2[1] == o2;
    assert t1[3..] == a1 + (" " + b1 + ")" + s1);
    assert t2[3..] == a2 + (" " + b2 + ")" + s2);
  }

  /** Prefix freedom of the rendering: no rendering of a well-formed tree is
      a proper prefix of another's, so the text determines the tree. */
  lemma {:induction false} RenderPrefixFree(e1: Expression, s1: string, e2: Expression, s2: string)
    requires WellFormed(e1) && WellFormed(e2)
    requires Render(e1) + s1 == Render(e2) + s2
    ensures e1 == e2 && s1 == s2
  {
    RenderStart(e1);
    RenderStart(e2);
    assert (Render(e1) + s1)[0] == Render(e1)[0];
    assert (Render(e2) + s2)[0] == Render(e2)[0];
    if e1.Atom? {
      assert e2.Atom?;
      DropCommon(Render(e1), s1, Render(e2), s2);
    } else {
      var o1, l1, r1 := e1.op, e1.children[0], e1.children[1];
      var o2, l2, r2 := e2.op, e2.children[0], e2.children[1];
      assert e1 == Operation(o1, [l1, r1]);
      assert e2 == Operation(o2, [l2, r2]);
      RenderBinary(o1, l1, r1);
      RenderBinary(o2, l2, r2);
      SplitOperation(o1, Render(l1), Render(r1), s1, o2, Render(l2), Render(r2), s2);
      RenderPrefixFree(l1, " " + Render(r1) + ")" + s1, l2, " " + Render(r2) + ")" + s2);
      assert " " + Render(r1) + ")" + s1 == " " + (Render(r1) + (")" + s1));
      assert " " + Render(r2) + ")" + s2 == " " + (Render(r2) + (")" + s2));
      DropCommon(" ", Render(r1) + (")" + s1), " ", Render(r2) + (")" + s2));
      RenderPrefixFree(r1, ")" + s1, r2, ")" + s2);
      DropCommon(")", s1, ")", s2);
    }
  }

  /** Two well-formed trees with the same rendering are the same tree. */
  lemma RenderInjective(e1: Expression, e2: Expression)
    requires WellFormed(e1) && WellFormed(e2)
    requires Render(e1) == Render(e2)
    ensures e1 == e2
  {
    assert Render(e1) + [] == Render(e2) + [];
    RenderPrefixFree(e1, [], e2, []);
  }
}
