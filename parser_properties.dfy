/**
  Properties of the reference parser `ParseExpr` / `ParseLoop`, and so, by
  the contract of `ParseExpression`, of the parser over a lexer.
 */
module ParserProperties {
  import opened Tokens
  import opened Errors
  import opened BindingPower
  import opened Expressions
  import opened OrderedTrees
  import opened Parser

  // ---------------------------------------------------------------------
  // Token sequences
  // ---------------------------------------------------------------------

  predicate IsParen(t: Token) {
    t == Op('(') || t == Op(')')
  }

  /** The tokens with every parenthesis removed. */
  function StripParens(ts: seq<Token>): seq<Token> {
    if ts == [] then []
    else (if IsParen(ts[0]) then [] else [ts[0]]) + StripParens(ts[1..])
  }

  /** The characters of the operand tokens, in order. */
  function AtomChars(ts: seq<Token>): string {
    if ts == [] then []
    else (if ts[0].Atom? then [ts[0].c] else []) + AtomChars(ts[1..])
  }

  predicate NoParens(ts: seq<Token>) {
    forall i :: 0 <= i < |ts| ==> !IsParen(ts[i])
  }

  lemma {:induction false} StripParensAppend(a: seq<Token>, b: seq<Token>)
    ensures StripParens(a + b) == StripParens(a) + StripParens(b)
  {
    if a == [] {
      assert a + b == b;
    } else {
      assert (a + b)[1..] == a[1..] + b;
      StripParensAppend(a[1..], b);
    }
  }

  lemma {:induction false} AtomCharsAppend(a: seq<Token>, b: seq<Token>)
    ensures AtomChars(a + b) == AtomChars(a) + AtomChars(b)
  {
    if a == [] {
      assert a + b == b;
    } else {
      assert (a + b)[1..] == a[1..] + b;
      AtomCharsAppend(a[1..], b);
    }
  }

  lemma {:induction false} StripParensKeepsAtoms(ts: seq<Token>)
    ensures AtomChars(StripParens(ts)) == AtomChars(ts)
  {
    if ts != [] {
      StripParensKeepsAtoms(ts[1..]);
      AtomCharsAppend(if IsParen(ts[0]) then [] else [ts[0]], StripParens(ts[1..]));
    }
  }

  lemma {:induction false} StripParensNoParens(ts: seq<Token>)
    requires NoParens(ts)
    ensures StripParens(ts) == ts
  {
    if ts != [] {
      assert !IsParen(ts[0]);
      StripParensNoParens(ts[1..]);
    }
  }

  /** A suffix of a sequence keeps the properties of its elements. */
  lemma SuffixKeeps(rest: seq<Token>, ts: seq<Token>)
    requires IsSuffix(rest, ts)
    ensures NoParens(ts) ==> NoParens(rest)
    ensures ValidTokens(ts) ==> ValidTokens(rest)
  {
    var k := |ts| - |rest|;
    assert forall i :: 0 <= i < |rest| ==> rest[i] == ts[k + i];
  }

  lemma PrefixKeeps(ts: seq<Token>, n: nat)
    requires n <= |ts|
    ensures NoParens(ts) ==> NoParens(ts[..n])
  {
    assert forall i :: 0 <= i < n ==> ts[..n][i] == ts[i];
  }

  /** Consuming up to `a` and then up to `b` consumes up to `b`. */
  lemma ConsumedChain(ts: seq<Token>, a: seq<Token>, b: seq<Token>)
    requires IsSuffix(a, ts) && IsSuffix(b, a)
    ensures IsSuffix(b, ts)
    ensures Consumed(ts, b) == Consumed(ts, a) + Consumed(a, b)
  {
    var i, j := |ts| - |a|, |a| - |b|;
    assert a[j..] == ts[i + j..];
    assert ts[..i + j] == ts[..i] + ts[i..i + j];
    assert a[..j] == ts[i..i + j];
  }

  lemma ConsumedFirst(ts: seq<Token>, rest: seq<Token>)
    requires ts != [] && IsSuffix(rest, ts[1..])
    ensures IsSuffix(rest, ts)
    ensures Consumed(ts, rest) == [ts[0]] + Consumed(ts[1..], rest)
  {
    ConsumedChain(ts, ts[1..], rest);
  }

  // ---------------------------------------------------------------------
  // Where the operator loop stops
  // ---------------------------------------------------------------------

  /** The loop with threshold `minBp` stops, without consuming, at the end,
      at `)`, or at a known operator whose left power is below `minBp`. */
  predicate StopsAt(rest: seq<Token>, minBp: int) {
    || Front(rest) == EOF
    || Front(rest) == Op(')')
    || (Front(rest).Op? && IsKnownOperator(Front(rest).c) && LeftPower(Front(rest).c) < minBp)
  }

  lemma {:induction false} LoopStops(lhs: Expression, ts: seq<Token>, minBp: int)
    requires ParseLoop(lhs, ts, minBp).Ok?
    ensures StopsAt(ParseLoop(lhs, ts, minBp).value.1, minBp)
    decreases |ts|
  {
    var t := Front(ts);
    if t.Op? && t.c != ')' && !(LeftPower(t.c) < minBp) {
      var (rhs, rest) := ParseExpr(ts[1..], RightPower(t.c)).value;
      LoopStops(Operation(t.c, [lhs, rhs]), rest, minBp);
    }
  }

  /** A successful parse leaves exactly a stopping point of its threshold. */
  lemma ParseStops(ts: seq<Token>, minBp: int)
    requires ParseExpr(ts, minBp).Ok?
    ensures StopsAt(ParseExpr(ts, minBp).value.1, minBp)
  {
    if Front(ts).Atom? {
      LoopStops(Expression.Atom(Front(ts).c), ts[1..], minBp);
    } else {
      var (inner, rest) := ParseExpr(ts[1..], TopLevel).value;
      LoopStops(inner, rest[1..], minBp);
    }
  }

  /** A top-level or parenthesised parse stops only at the end or at `)`. */
  lemma TopLevelStops(ts: seq<Token>)
    requires ParseExpr(ts, TopLevel).Ok?
    ensures Front(ParseExpr(ts, TopLevel).value.1) in {EOF, Op(')')}
  {
    ParseStops(ts, TopLevel);
  }

  // ---------------------------------------------------------------------
  // The tree reads back as the consumed tokens
  // ---------------------------------------------------------------------

  /** The tokens consumed by a parenthesised left-hand side and the loop after it. */
  lemma StripAroundParens(ts: seq<Token>, r1: seq<Token>, rest: seq<Token>)
    requires ts != [] && IsParen(ts[0]) && IsSuffix(r1, ts[1..])
    requires r1 != [] && IsParen(r1[0]) && IsSuffix(rest, r1[1..])
    ensures IsSuffix(rest, ts)
    ensures StripParens(Consumed(ts, rest))
            == StripParens(Consumed(ts[1..], r1)) + StripParens(Consumed(r1[1..], rest))
  {
    var a, b := Consumed(ts[1..], r1), Consumed(r1[1..], rest);
    ConsumedFirst(ts, r1);
    ConsumedFirst(r1, rest);
    ConsumedChain(ts, r1, rest);
    assert Consumed(ts, rest) == [ts[0]] + (a + ([r1[0]] + b));
    StripParensAppend([ts[0]], a + ([r1[0]] + b));
    StripParensAppend(a, [r1[0]] + b);
    StripParensAppend([r1[0]], b);
  }

  /** The tokens consumed by one step of the loop: an operator, then a
      right-hand side, then the rest of the loop. */
  lemma StripAroundOperator(ts: seq<Token>, r1: seq<Token>, rest: seq<Token>)
    requires ts != [] && !IsParen(ts[0]) && IsSuffix(r1, ts[1..]) && IsSuffix(rest, r1)
    ensures IsSuffix(rest, ts)
    ensures StripParens(Consumed(ts, rest))
            == [ts[0]] + StripParens(Consumed(ts[1..], r1)) + StripParens(Consumed(r1, rest))
  {
    var a, b := Consumed(ts[1..], r1), Consumed(r1, rest);
    ConsumedFirst(ts, r1);
    ConsumedChain(ts, r1, rest);
    assert Consumed(ts, rest) == [ts[0]] + (a + b);
    StripParensAppend([ts[0]], a + b);
    StripParensAppend(a, b);
  }

  lemma {:induction false} ExprInfix(ts: seq<Token>, minBp: int)
    requires ParseExpr(ts, minBp).Ok?
    ensures Infix(ParseExpr(ts, minBp).value.0)
            == StripParens(Consumed(ts, ParseExpr(ts, minBp).value.1))
    decreases |ts|
  {
    var (e, rest) := ParseExpr(ts, minBp).value;
    if Front(ts).Atom? {
      var c := Front(ts).c;
      assert ParseLoop(Expression.Atom(c), ts[1..], minBp) == Ok((e, rest));
      LoopInfix(Expression.Atom(c), ts[1..], minBp);
      ConsumedFirst(ts, rest);
      StripParensAppend([ts[0]], Consumed(ts[1..], rest));
    } else {
      var (inner, r1) := ParseExpr(ts[1..], TopLevel).value;
      assert ParseLoop(inner, r1[1..], minBp) == Ok((e, rest));
      ExprInfix(ts[1..], TopLevel);
      LoopInfix(inner, r1[1..], minBp);
      StripAroundParens(ts, r1, rest);
    }
  }

  lemma {:induction false} LoopInfix(lhs: Expression, ts: seq<Token>, minBp: int)
    requires ParseLoop(lhs, ts, minBp).Ok?
    ensures Infix(ParseLoop(lhs, ts, minBp).value.0)
            == Infix(lhs) + StripParens(Consumed(ts, ParseLoop(lhs, ts, minBp).value.1))
    decreases |ts|
  {
    var (e, rest) := ParseLoop(lhs, ts, minBp).value;
    var t := Front(ts);
    if t.Op? && t.c != ')' && !(LeftPower(t.c) < minBp) {
      var op := t.c;
      var (rhs, r1) := ParseExpr(ts[1..], RightPower(op)).value;
      var next := Operation(op, [lhs, rhs]);
      assert ParseLoop(next, r1, minBp) == Ok((e, rest));
      assert ts[0] == Op(op) && !IsParen(ts[0]);
      ExprInfix(ts[1..], RightPower(op));
      LoopInfix(next, r1, minBp);
      InfixBinary(op, lhs, rhs);
      StripAroundOperator(ts, r1, rest);
      calc {
        Infix(e);
        Infix(next) + StripParens(Consumed(r1, rest));
        Infix(lhs) + [Op(op)] + Infix(rhs) + StripParens(Consumed(r1, rest));
        Infix(lhs) + ([ts[0]] + StripParens(Consumed(ts[1..], r1)) + StripParens(Consumed(r1, rest)));
        Infix(lhs) + StripParens(Consumed(ts, rest));
      }
    } else {
      assert rest == ts;
    }
  }

  /** The parse tree, read back in infix order, is exactly the consumed
      tokens with their parentheses removed. */
  lemma ParseInfix(ts: seq<Token>, minBp: int)
    requires ParseExpr(ts, minBp).Ok?
    ensures Infix(ParseExpr(ts, minBp).value.0)
            == StripParens(Consumed(ts, ParseExpr(ts, minBp).value.1))
  {
    ExprInfix(ts, minBp);
  }

  lemma {:induction false} LeavesAreInfixAtoms(e: Expression)
    requires IsBinary(e)
    ensures Leaves(e) == AtomChars(Infix(e))
  {
    if e.Operation? {
      var l, r := e.children[0], e.children[1];
      assert e == Operation(e.op, [l, r]);
      LeavesAreInfixAtoms(l);
      LeavesAreInfixAtoms(r);
      LeavesBinary(e.op, l, r);
      InfixBinary(e.op, l, r);
      AtomCharsAppend(Infix(l) + [Op(e.op)], Infix(r));
      AtomCharsAppend(Infix(l), [Op(e.op)]);
    } else {
      assert AtomChars(Infix(e)) == [e.c] + AtomChars([]);
    }
  }

  /** The leaves of the parse tree, left to right, are the consumed operand
      tokens in input order. */
  lemma ParseLeaves(ts: seq<Token>, minBp: int)
    requires ParseExpr(ts, minBp).Ok?
    ensures Leaves(ParseExpr(ts, minBp).value.0)
            == AtomChars(Consumed(ts, ParseExpr(ts, minBp).value.1))
  {
    var (e, rest) := ParseExpr(ts, minBp).value;
    ParseInfix(ts, minBp);
    LeavesAreInfixAtoms(e);
    StripParensKeepsAtoms(Consumed(ts, rest));
  }

  // ---------------------------------------------------------------------
  // Shape of the tree
  // ---------------------------------------------------------------------

  lemma {:induction false} ExprWellFormed(ts: seq<Token>, minBp: int)
    requires ValidTokens(ts) && ParseExpr(ts, minBp).Ok?
    ensures WellFormed(ParseExpr(ts, minBp).value.0)
    decreases |ts|
  {
    SuffixKeeps(ts[1..], ts);
    if Front(ts).Atom? {
      LoopWellFormed(Expression.Atom(Front(ts).c), ts[1..], minBp);
    } else {
      var (inner, r1) := ParseExpr(ts[1..], TopLevel).value;
      ExprWellFormed(ts[1..], TopLevel);
      SuffixKeeps(r1, ts[1..]);
      SuffixKeeps(r1[1..], r1);
      LoopWellFormed(inner, r1[1..], minBp);
    }
  }

  lemma {:induction false} LoopWellFormed(lhs: Expression, ts: seq<Token>, minBp: int)
    requires ValidTokens(ts) && WellFormed(lhs) && ParseLoop(lhs, ts, minBp).Ok?
    ensures WellFormed(ParseLoop(lhs, ts, minBp).value.0)
    decreases |ts|
  {
    var t := Front(ts);
    if t.Op? && t.c != ')' && !(LeftPower(t.c) < minBp) {
      var op := t.c;
      var (rhs, r1) := ParseExpr(ts[1..], RightPower(op)).value;
      SuffixKeeps(ts[1..], ts);
      ExprWellFormed(ts[1..], RightPower(op));
      SuffixKeeps(r1, ts[1..]);
      LoopWellFormed(Operation(op, [lhs, rhs]), r1, minBp);
    }
  }

  /** From the lexer's tokens, every operation the parser builds has two
      children and an operator of the table, and every leaf is a letter or
      digit. */
  lemma ParseWellFormed(ts: seq<Token>, minBp: int)
    requires ValidTokens(ts) && ParseExpr(ts, minBp).Ok?
    ensures WellFormed(ParseExpr(ts, minBp).value.0)
  {
    ExprWellFormed(ts, minBp);
  }

  // ---------------------------------------------------------------------
  // Precedence and associativity
  // ---------------------------------------------------------------------

  /** The root operator of `e`, if any, was accepted by a loop of threshold `minBp`. */
  predicate RootAtLeast(e: Expression, minBp: int) {
    e.Operation? && IsKnownOperator(e.op) ==> LeftPower(e.op) >= minBp
  }

  /** An operator waiting at the front of `ts` does not bind more tightly
      than the root of `lhs` allows it to steal that root's right operand. */
  predicate Pending(lhs: Expression, ts: seq<Token>) {
    (Front(ts).Op? && IsKnownOperator(Front(ts).c) && lhs.Operation? && IsKnownOperator(lhs.op))
      ==> LeftPower(Front(ts).c) < RightPower(lhs.op)
  }

  lemma {:induction false} ExprOrdered(ts: seq<Token>, minBp: int)
    requires NoParens(ts) && ParseExpr(ts, minBp).Ok?
    ensures PrecOrdered(ParseExpr(ts, minBp).value.0)
    ensures RootAtLeast(ParseExpr(ts, minBp).value.0, minBp)
    decreases |ts|
  {
    if Front(ts).Atom? {
      SuffixKeeps(ts[1..], ts);
      LoopOrdered(Expression.Atom(Front(ts).c), ts[1..], minBp);
    } else {
      assert false;
    }
  }

  lemma {:induction false} LoopOrdered(lhs: Expression, ts: seq<Token>, minBp: int)
    requires NoParens(ts) && PrecOrdered(lhs) && RootAtLeast(lhs, minBp) && Pending(lhs, ts)
    requires ParseLoop(lhs, ts, minBp).Ok?
    ensures PrecOrdered(ParseLoop(lhs, ts, minBp).value.0)
    ensures RootAtLeast(ParseLoop(lhs, ts, minBp).value.0, minBp)
    decreases |ts|
  {
    var t := Front(ts);
    if t.Op? && t.c != ')' && !(LeftPower(t.c) < minBp) {
      var op := t.c;
      var (rhs, r1) := ParseExpr(ts[1..], RightPower(op)).value;
      SuffixKeeps(ts[1..], ts);
      ExprOrdered(ts[1..], RightPower(op));
      ParseStops(ts[1..], RightPower(op));
      SuffixKeeps(r1, ts[1..]);
      if lhs.Operation? {
        AbsorbedIffTighter(lhs.op, op);
      }
      if rhs.Operation? {
        AbsorbedIffTighter(op, rhs.op);
      }
      var next := Operation(op, [lhs, rhs]);
      assert PrecOrdered(next);
      if Front(r1).Op? && Front(r1).c != ')' {
        assert r1 != [] && !IsParen(r1[0]);
      }
      LoopOrdered(next, r1, minBp);
    }
  }

  /** Without parentheses, the parser builds a precedence-ordered tree:
      products bind tighter than sums, and equal levels group to the left. */
  lemma ParseOrdered(ts: seq<Token>, minBp: int)
    requires NoParens(ts) && ParseExpr(ts, minBp).Ok?
    ensures PrecOrdered(ParseExpr(ts, minBp).value.0)
  {
    ExprOrdered(ts, minBp);
  }

  /** Without parentheses, the top-level parse is THE correct tree: the only
      precedence-ordered tree that reads back as the consumed tokens. */
  lemma ParseIsPrecedenceTree(ts: seq<Token>)
    requires NoParens(ts) && ParseExpr(ts, TopLevel).Ok?
    ensures var (e, rest) := ParseExpr(ts, TopLevel).value;
            && PrecOrdered(e)
            && Infix(e) == Consumed(ts, rest)
            && forall e' :: PrecOrdered(e') && Infix(e') == Consumed(ts, rest) ==> e' == e
  {
    var (e, rest) := ParseExpr(ts, TopLevel).value;
    ParseOrdered(ts, TopLevel);
    ParseInfix(ts, TopLevel);
    PrefixKeeps(ts, |ts| - |rest|);
    StripParensNoParens(Consumed(ts, rest));
    forall e' | PrecOrdered(e') && Infix(e') == Consumed(ts, rest)
      ensures e' == e
    {
      PrecOrderedUnique(e', e);
    }
  }

  // ---------------------------------------------------------------------
  // Failures
  // ---------------------------------------------------------------------

  /** What each failure can carry. */
  predicate ErrorShape(err: ParseError) {
    match err
    case UnexpectedStartToken(t) => !t.Atom? && t != Op('(')
    case UnmatchedParenthesis(t) => t == EOF
    case UnexpectedOperatorToken(t) => t.Atom?
    case UnknownOperator(op) => !IsKnownOperator(op)
  }

  lemma {:induction false} ExprErrors(ts: seq<Token>, minBp: int)
    requires ParseExpr(ts, minBp).Err?
    ensures ErrorShape(ParseExpr(ts, minBp).error)
    decreases |ts|
  {
    var t := Front(ts);
    if t.Atom? {
      LoopErrors(Expression.Atom(t.c), ts[1..], minBp);
    } else if t == Op('(') {
      var inner := ParseExpr(ts[1..], TopLevel);
      if inner.Err? {
        ExprErrors(ts[1..], TopLevel);
      } else {
        var r1 := inner.value.1;
        ParseStops(ts[1..], TopLevel);
        if Front(r1) == Op(')') {
          LoopErrors(inner.value.0, r1[1..], minBp);
        }
      }
    }
  }

  lemma {:induction false} LoopErrors(lhs: Expression, ts: seq<Token>, minBp: int)
    requires ParseLoop(lhs, ts, minBp).Err?
    ensures ErrorShape(ParseLoop(lhs, ts, minBp).error)
    decreases |ts|
  {
    var t := Front(ts);
    if t.Op? && t.c != ')' && IsKnownOperator(t.c) && !(LeftPower(t.c) < minBp) {
      var rhsR := ParseExpr(ts[1..], RightPower(t.c));
      if rhsR.Err? {
        ExprErrors(ts[1..], RightPower(t.c));
      } else {
        LoopErrors(Operation(t.c, [lhs, rhsR.value.0]), rhsR.value.1, minBp);
      }
    }
  }

  /** Every failure is one of the source's: a bad start token (neither an
      atom nor `(`), an unclosed `(` (only ever at the end of input), an atom
      in operator position, or an operator outside the table. */
  lemma ParseErrors(ts: seq<Token>, minBp: int)
    requires ParseExpr(ts, minBp).Err?
    ensures ErrorShape(ParseExpr(ts, minBp).error)
  {
    ExprErrors(ts, minBp);
  }

  /** An expression that starts with neither an atom nor `(` fails at once. */
  lemma BadStart(ts: seq<Token>, minBp: int)
    requires !Front(ts).Atom? && Front(ts) != Op('(')
    ensures ParseExpr(ts, minBp) == Err(UnexpectedStartToken(Front(ts)))
  {
  }

  /** A `(` whose inner expression is not followed by `)` fails. */
  lemma Unclosed(ts: seq<Token>, minBp: int)
    requires Front(ts) == Op('(') && ParseExpr(ts[1..], TopLevel).Ok?
    requires Front(ParseExpr(ts[1..], TopLevel).value.1) != Op(')')
    ensures ParseExpr(ts, minBp) == Err(UnmatchedParenthesis(Front(ParseExpr(ts[1..], TopLevel).value.1)))
  {
  }

  /** An atom where an operator is expected fails. */
  lemma AtomInOperatorPosition(lhs: Expression, ts: seq<Token>, minBp: int)
    requires Front(ts).Atom?
    ensures ParseLoop(lhs, ts, minBp) == Err(UnexpectedOperatorToken(Front(ts)))
  {
  }

  /** An unknown operator in operator position fails, whatever the threshold. */
  lemma UnknownInOperatorPosition(lhs: Expression, ts: seq<Token>, minBp: int)
    requires Front(ts).Op? && Front(ts).c != ')' && !IsKnownOperator(Front(ts).c)
    ensures ParseLoop(lhs, ts, minBp) == Err(UnknownOperator(Front(ts).c))
  {
  }

  // ---------------------------------------------------------------------
  // Completeness
  // ---------------------------------------------------------------------

  /** `atom (op atom)*` with operators of the table. */
  predicate Grammatical(ts: seq<Token>)
    decreases |ts|, 1
  {
    |ts| >= 1 && ts[0].Atom? && OperatorTail(ts[1..])
  }

  /** `(op atom)*` with operators of the table. */
  predicate OperatorTail(ts: seq<Token>)
    decreases |ts|, 0
  {
    ts == [] || (ts[0].Op? && IsKnownOperator(ts[0].c) && Grammatical(ts[1..]))
  }

  lemma {:induction false} ExprComplete(ts: seq<Token>, minBp: int)
    requires Grammatical(ts)
    ensures ParseExpr(ts, minBp).Ok? && OperatorTail(ParseExpr(ts, minBp).value.1)
    decreases |ts|
  {
    LoopComplete(Expression.Atom(ts[0].c), ts[1..], minBp);
  }

  lemma {:induction false} LoopComplete(lhs: Expression, ts: seq<Token>, minBp: int)
    requires OperatorTail(ts)
    ensures ParseLoop(lhs, ts, minBp).Ok? && OperatorTail(ParseLoop(lhs, ts, minBp).value.1)
    decreases |ts|
  {
    if ts != [] && !(LeftPower(ts[0].c) < minBp) {
      var op := ts[0].c;
      ExprComplete(ts[1..], RightPower(op));
      var (rhs, r1) := ParseExpr(ts[1..], RightPower(op)).value;
      LoopComplete(Operation(op, [lhs, rhs]), r1, minBp);
    }
  }

  /** Every paren-free input of the grammar is parsed completely, into the
      precedence-ordered tree that reads back as it. */
  lemma GrammaticalParses(ts: seq<Token>)
    requires Grammatical(ts)
    ensures ParseExpr(ts, TopLevel).Ok?
    ensures var (e, rest) := ParseExpr(ts, TopLevel).value;
            rest == [] && PrecOrdered(e) && Infix(e) == ts
  {
    ExprComplete(ts, TopLevel);
    var (e, rest) := ParseExpr(ts, TopLevel).value;
    ParseStops(ts, TopLevel);
    if rest != [] {
      TopLevelAcceptsAll(rest[0].c);
      assert false;
    }
    GrammaticalNoParens(ts);
    ParseIsPrecedenceTree(ts);
  }

  lemma {:induction false} GrammaticalNoParens(ts: seq<Token>)
    requires Grammatical(ts)
    ensures NoParens(ts)
    decreases |ts|
  {
    if |ts| > 1 {
      GrammaticalNoParens(ts[2..]);
      assert ts[1..][1..] == ts[2..];
      assert forall i :: 2 <= i < |ts| ==> ts[i] == ts[2..][i - 2];
    }
  }

  // ---------------------------------------------------------------------
  // Explicit parentheses
  // ---------------------------------------------------------------------

  /** The tokens of a binary tree with every operation in parentheses. */
  function Parenthesized(e: Expression): seq<Token>
    requires IsBinary(e)
  {
    match e
    case Atom(c) => [Token.Atom(c)]
    case Operation(op, children) =>
      [Op('(')] + Parenthesized(children[0]) + [Op(op)] + Parenthesized(children[1]) + [Op(')')]
  }

  /** One step of the loop: a known operator the threshold accepts, and its
      right-hand side. */
  lemma LoopStep(lhs: Expression, op: char, ts: seq<Token>, minBp: int)
    requires IsKnownOperator(op) && LeftPower(op) >= minBp
    requires ParseExpr(ts, RightPower(op)).Ok?
    ensures ParseLoop(lhs, [Op(op)] + ts, minBp)
            == ParseLoop(Operation(op, [lhs, ParseExpr(ts, RightPower(op)).value.0]),
                         ParseExpr(ts, RightPower(op)).value.1, minBp)
  {
    assert ([Op(op)] + ts)[1..] == ts;
  }

  /** A parenthesised left-hand side closed by `)`. */
  lemma ParenStep(ts: seq<Token>, minBp: int)
    requires ParseExpr(ts, TopLevel).Ok?
    requires Front(ParseExpr(ts, TopLevel).value.1) == Op(')')
    ensures ParseExpr([Op('(')] + ts, minBp)
            == ParseLoop(ParseExpr(ts, TopLevel).value.0, ParseExpr(ts, TopLevel).value.1[1..], minBp)
  {
    assert ([Op('(')] + ts)[1..] == ts;
  }

  /** A fully parenthesised tree, followed by anything, is parsed as that tree
      and the loop goes on from what follows it. */
  lemma {:induction false} ParenthesizedParses(e: Expression, k: seq<Token>, minBp: int)
    requires IsBinary(e)
    ensures ParseExpr(Parenthesized(e) + k, minBp) == ParseLoop(e, k, minBp)
  {
    match e
    case Atom(c) =>
      var ts := Parenthesized(e) + k;
      assert Front(ts) == Token.Atom(c) && ts[1..] == k;
    case Operation(op, children) =>
      var l, r := children[0], children[1];
      assert children == [l, r];
      var pl, pr := Parenthesized(l), Parenthesized(r);
      var k2 := [Op(')')] + k;
      var k1 := [Op(op)] + (pr + k2);
      assert Parenthesized(e) + k == [Op('(')] + (pl + k1);
      ParenthesizedParses(r, k2, RightPower(op));
      assert ParseLoop(r, k2, RightPower(op)) == Ok((r, k2));
      TopLevelAcceptsAll(op);
      LoopStep(l, op, pr + k2, TopLevel);
      assert ParseLoop(e, k2, TopLevel) == Ok((e, k2));
      ParenthesizedParses(l, k1, TopLevel);
      assert ParseExpr(pl + k1, TopLevel) == Ok((e, k2));
      ParenStep(pl + k1, minBp);
      assert k2[1..] == k;
  }

  /** Explicit parentheses override precedence: a fully parenthesised
      rendering of any tree parses back to exactly that tree. */
  lemma ParenthesesOverride(e: Expression)
    requires IsBinary(e)
    ensures ParseExpr(Parenthesized(e), TopLevel) == Ok((e, []))
  {
    ParenthesizedParses(e, [], TopLevel);
    assert Parenthesized(e) + [] == Parenthesized(e);
  }
}
