/**
  Whole-line behaviour: the renderings of lines of a fixed shape for every
  choice of operands and operators, the concrete lines that instantiate
  them, and the properties of `Parse` over arbitrary lines.

  The shaped lemmas take the line as a parameter equal to a display of its
  characters, so that a concrete line is handled by one instantiation.
 */
module ParseExamples {
  import opened Tokens
  import opened Errors
  import opened BindingPower
  import opened Expressions
  import opened Parser
  import opened OrderedTrees
  import opened ParserProperties

  /** The rendering of a line's parse, or the failure. */
  function Show(input: string): Result<string> {
    match Parse(input)
    case Ok(e) => Ok(Render(e))
    case Err(err) => Err(err)
  }

  function Bin(op: char, l: Expression, r: Expression): Expression {
    Operation(op, [l, r])
  }

  function Leaf(c: char): Expression {
    Expression.Atom(c)
  }

  // ---------------------------------------------------------------------
  // Steps of the reference parser on short token sequences
  // ---------------------------------------------------------------------

  /** The loop finds nothing left to read. */
  lemma LoopAtEnd(lhs: Expression, minBp: int)
    ensures ParseLoop(lhs, [], minBp) == Ok((lhs, []))
  {
  }

  /** A single operand followed by the end or by `)` is the whole expression. */
  lemma AtomThenStop(c: char, k: seq<Token>, minBp: int)
    requires k == [] || Front(k) == Op(')')
    ensures ParseExpr([Token.Atom(c)] + k, minBp) == Ok((Expression.Atom(c), k))
  {
    assert ([Token.Atom(c)] + k)[1..] == k;
  }

  /** `a o b` followed by the end or by `)`: one operation of the table. */
  lemma OneOperation(a: char, o: char, b: char, k: seq<Token>)
    requires IsKnownOperator(o)
    requires k == [] || Front(k) == Op(')')
    ensures ParseExpr([Token.Atom(a), Op(o), Token.Atom(b)] + k, TopLevel) == Ok((Bin(o, Leaf(a), Leaf(b)), k))
  {
    var ts := [Token.Atom(a), Op(o), Token.Atom(b)] + k;
    assert ts == [Token.Atom(a)] + ([Op(o)] + ([Token.Atom(b)] + k));
    AtomThenStop(b, k, RightPower(o));
    TopLevelAcceptsAll(o);
    LoopStep(Leaf(a), o, [Token.Atom(b)] + k, TopLevel);
    assert ts[1..] == [Op(o)] + ([Token.Atom(b)] + k);
  }

  /** `a o1 b o2 c` is in the grammar for operators of the table. */
  lemma GrammaticalThree(a: char, o1: char, b: char, o2: char, c: char)
    requires IsKnownOperator(o1) && IsKnownOperator(o2)
    ensures Grammatical([Token.Atom(a), Op(o1), Token.Atom(b), Op(o2), Token.Atom(c)])
  {
    var ts := [Token.Atom(a), Op(o1), Token.Atom(b), Op(o2), Token.Atom(c)];
    assert OperatorTail(ts[5..]);
    assert Grammatical(ts[4..]) by { assert ts[4..][1..] == ts[5..]; }
    assert OperatorTail(ts[3..]) by { assert ts[3..][1..] == ts[4..]; }
    assert Grammatical(ts[2..]) by { assert ts[2..][1..] == ts[3..]; }
    assert OperatorTail(ts[1..]) by { assert ts[1..][1..] == ts[2..]; }
  }

  /** The tree of `a o1 b o2 c`: the second operator takes `b` when it binds
      strictly more tightly, otherwise the first operation is its left operand. */
  function ThreeTree(a: char, o1: char, b: char, o2: char, c: char): Expression
    requires IsKnownOperator(o1) && IsKnownOperator(o2)
  {
    if Precedence(o2) > Precedence(o1) then Bin(o1, Leaf(a), Bin(o2, Leaf(b), Leaf(c)))
    else Bin(o2, Bin(o1, Leaf(a), Leaf(b)), Leaf(c))
  }

  /** The tree of `a o1 b o2 c` reads back as those tokens. */
  lemma ThreeTreeInfix(a: char, o1: char, b: char, o2: char, c: char)
    requires IsKnownOperator(o1) && IsKnownOperator(o2)
    ensures Infix(ThreeTree(a, o1, b, o2, c)) == [Token.Atom(a), Op(o1), Token.Atom(b), Op(o2), Token.Atom(c)]
  {
    if Precedence(o2) > Precedence(o1) {
      InfixBinary(o2, Leaf(b), Leaf(c));
      InfixBinary(o1, Leaf(a), Bin(o2, Leaf(b), Leaf(c)));
    } else {
      InfixBinary(o1, Leaf(a), Leaf(b));
      InfixBinary(o2, Bin(o1, Leaf(a), Leaf(b)), Leaf(c));
    }
  }

  lemma ThreeTreeOrdered(a: char, o1: char, b: char, o2: char, c: char)
    requires IsKnownOperator(o1) && IsKnownOperator(o2)
    ensures PrecOrdered(ThreeTree(a, o1, b, o2, c))
  {
    assert PrecOrdered(Leaf(a)) && PrecOrdered(Leaf(b)) && PrecOrdered(Leaf(c));
    assert TopLevelOf(Leaf(a)) == TopLevelOf(Leaf(b)) == TopLevelOf(Leaf(c)) == AtomLevel;
    if Precedence(o2) > Precedence(o1) {
      assert PrecOrdered(Bin(o2, Leaf(b), Leaf(c)));
    } else {
      assert PrecOrdered(Bin(o1, Leaf(a), Leaf(b)));
    }
  }

  /** Precedence and left associativity for every pair of operators of the
      table: the parse of `a o1 b o2 c` is the tree above and reads it all. */
  lemma ThreeOperands(a: char, o1: char, b: char, o2: char, c: char)
    requires IsKnownOperator(o1) && IsKnownOperator(o2)
    ensures ParseExpr([Token.Atom(a), Op(o1), Token.Atom(b), Op(o2), Token.Atom(c)], TopLevel)
            == Ok((ThreeTree(a, o1, b, o2, c), []))
  {
    var ts := [Token.Atom(a), Op(o1), Token.Atom(b), Op(o2), Token.Atom(c)];
    var e := ThreeTree(a, o1, b, o2, c);
    GrammaticalThree(a, o1, b, o2, c);
    GrammaticalParses(ts);
    ThreeTreeInfix(a, o1, b, o2, c);
    ThreeTreeOrdered(a, o1, b, o2, c);
    PrecOrderedUnique(ParseExpr(ts, TopLevel).value.0, e);
  }

  /** `(a o1 b) o2 c`: the parenthesised operation is the left operand of
      `o2` whatever the two operators are. */
  lemma ParenthesisedFirst(a: char, o1: char, b: char, o2: char, c: char)
    requires IsKnownOperator(o1) && IsKnownOperator(o2)
    ensures ParseExpr([Op('('), Token.Atom(a), Op(o1), Token.Atom(b), Op(')'), Op(o2), Token.Atom(c)], TopLevel)
            == Ok((Bin(o2, Bin(o1, Leaf(a), Leaf(b)), Leaf(c)), []))
  {
    var inner := Bin(o1, Leaf(a), Leaf(b));
    var e := Bin(o2, inner, Leaf(c));
    var k := [Token.Atom(c)];
    assert Parenthesized(Leaf(a)) == [Token.Atom(a)] && Parenthesized(Leaf(b)) == [Token.Atom(b)];
    assert [Op('('), Token.Atom(a), Op(o1), Token.Atom(b), Op(')'), Op(o2), Token.Atom(c)]
        == Parenthesized(inner) + ([Op(o2)] + k);
    ParenthesizedParses(inner, [Op(o2)] + k, TopLevel);
    AtomThenStop(c, [], RightPower(o2));
    assert k + [] == k;
    TopLevelAcceptsAll(o2);
    LoopStep(inner, o2, k, TopLevel);
    LoopAtEnd(e, TopLevel);
  }

  // ---------------------------------------------------------------------
  // Tokens and renderings of short lines
  // ---------------------------------------------------------------------

  /** The tokens of `a o b` written without spaces, followed by `rest`. */
  lemma TokenizeTight(a: char, o: char, b: char, rest: string)
    requires IsAsciiAlphanumeric(a) && IsAsciiAlphanumeric(b)
    requires !IsAsciiAlphanumeric(o) && !IsAsciiWhitespace(o)
    ensures Tokenize([a, o, b] + rest) == [Token.Atom(a), Op(o), Token.Atom(b)] + Tokenize(rest)
  {
    assert [a, o, b] + rest == [a] + ([o] + ([b] + rest));
    TokenizeAppend([b], rest);
    TokenizeAppend([o], [b] + rest);
    TokenizeAppend([a], [o] + ([b] + rest));
    TokenizeChar(a);
    TokenizeChar(o);
    TokenizeChar(b);
  }

  /** The tokens of `a o b` written with single spaces. */
  lemma TokenizeSpacedOne(a: char, o: char, b: char)
    requires IsAsciiAlphanumeric(a) && IsAsciiAlphanumeric(b)
    requires !IsAsciiAlphanumeric(o) && !IsAsciiWhitespace(o)
    ensures Tokenize([a, ' ', o, ' ', b]) == [Token.Atom(a), Op(o), Token.Atom(b)]
  {
    assert [a, ' ', o, ' ', b] == [a] + [' '] + [o] + [' '] + [b];
    TokenizeAppend([a] + [' '] + [o] + [' '], [b]);
    TokenizeAppend([a] + [' '] + [o], [' ']);
    TokenizeAppend([a] + [' '], [o]);
    TokenizeAppend([a], [' ']);
    TokenizeChar(a);
    TokenizeChar(' ');
    TokenizeChar(o);
    TokenizeChar(b);
  }

  /** The tokens of ` o c`, an operator and an operand after a space each. */
  lemma TokenizeSpacedTail(o: char, c: char)
    requires IsAsciiAlphanumeric(c)
    requires !IsAsciiAlphanumeric(o) && !IsAsciiWhitespace(o)
    ensures Tokenize([' ', o, ' ', c]) == [Op(o), Token.Atom(c)]
  {
    assert [' ', o, ' ', c] == [' '] + [o] + [' '] + [c];
    TokenizeAppend([' '] + [o] + [' '], [c]);
    TokenizeAppend([' '] + [o], [' ']);
    TokenizeAppend([' '], [o]);
    TokenizeChar(' ');
    TokenizeChar(o);
    TokenizeChar(c);
  }

  /** The tokens of `a o1 b o2 c` written with single spaces. */
  lemma TokenizeSpacedThree(a: char, o1: char, b: char, o2: char, c: char)
    requires IsAsciiAlphanumeric(a) && IsAsciiAlphanumeric(b) && IsAsciiAlphanumeric(c)
    requires !IsAsciiAlphanumeric(o1) && !IsAsciiWhitespace(o1)
    requires !IsAsciiAlphanumeric(o2) && !IsAsciiWhitespace(o2)
    ensures Tokenize([a, ' ', o1, ' ', b, ' ', o2, ' ', c])
            == [Token.Atom(a), Op(o1), Token.Atom(b), Op(o2), Token.Atom(c)]
  {
    assert [a, ' ', o1, ' ', b, ' ', o2, ' ', c] == [a, ' ', o1, ' ', b] + [' ', o2, ' ', c];
    TokenizeAppend([a, ' ', o1, ' ', b], [' ', o2, ' ', c]);
    TokenizeSpacedOne(a, o1, b);
    TokenizeSpacedTail(o2, c);
  }

  /** The tokens of `(a o1 b) o2 c` written with single spaces. */
  lemma TokenizeParenthesisedFirst(a: char, o1: char, b: char, o2: char, c: char)
    requires IsAsciiAlphanumeric(a) && IsAsciiAlphanumeric(b) && IsAsciiAlphanumeric(c)
    requires !IsAsciiAlphanumeric(o1) && !IsAsciiWhitespace(o1)
    requires !IsAsciiAlphanumeric(o2) && !IsAsciiWhitespace(o2)
    ensures Tokenize(['(', a, ' ', o1, ' ', b, ')', ' ', o2, ' ', c])
            == [Op('('), Token.Atom(a), Op(o1), Token.Atom(b), Op(')'), Op(o2), Token.Atom(c)]
  {
    var inner := [a, ' ', o1, ' ', b];
    var outer := [' ', o2, ' ', c];
    assert ['(', a, ' ', o1, ' ', b, ')', ' ', o2, ' ', c] == ['('] + inner + [')'] + outer;
    TokenizeAppend(['('] + inner + [')'], outer);
    TokenizeAppend(['('] + inner, [')']);
    TokenizeAppend(['('], inner);
    TokenizeChar('(');
    TokenizeChar(')');
    TokenizeSpacedOne(a, o1, b);
    TokenizeSpacedTail(o2, c);
  }

  lemma RenderRightNested(a: char, o1: char, b: char, o2: char, c: char)
    ensures Render(Bin(o1, Leaf(a), Bin(o2, Leaf(b), Leaf(c))))
            == ['(', o1, ' ', a, ' ', '(', o2, ' ', b, ' ', c, ')', ')']
  {
    RenderBinary(o2, Leaf(b), Leaf(c));
    RenderBinary(o1, Leaf(a), Bin(o2, Leaf(b), Leaf(c)));
  }

  lemma RenderLeftNested(a: char, o1: char, b: char, o2: char, c: char)
    ensures Render(Bin(o2, Bin(o1, Leaf(a), Leaf(b)), Leaf(c)))
            == ['(', o2, ' ', '(', o1, ' ', a, ' ', b, ')', ' ', c, ')']
  {
    RenderBinary(o1, Leaf(a), Leaf(b));
    RenderBinary(o2, Bin(o1, Leaf(a), Leaf(b)), Leaf(c));
  }

  lemma RenderOne(a: char, o: char, b: char)
    ensures Render(Bin(o, Leaf(a), Leaf(b))) == ['(', o, ' ', a, ' ', b, ')']
  {
    RenderBinary(o, Leaf(a), Leaf(b));
  }

  /** The expected text of `a o1 b o2 c`. */
  function ThreeText(a: char, o1: char, b: char, o2: char, c: char): string
    requires IsKnownOperator(o1) && IsKnownOperator(o2)
  {
    if Precedence(o2) > Precedence(o1) then ['(', o1, ' ', a, ' ', '(', o2, ' ', b, ' ', c, ')', ')']
    else ['(', o2, ' ', '(', o1, ' ', a, ' ', b, ')', ' ', c, ')']
  }

  // ---------------------------------------------------------------------
  // Lines of a fixed shape
  // ---------------------------------------------------------------------

  /** `a o1 b o2 c` with single spaces shows as its precedence tree. */
  lemma ShowThree(input: string, a: char, o1: char, b: char, o2: char, c: char, expected: string)
    requires input == [a, ' ', o1, ' ', b, ' ', o2, ' ', c]
    requires IsAsciiAlphanumeric(a) && IsAsciiAlphanumeric(b) && IsAsciiAlphanumeric(c)
    requires IsKnownOperator(o1) && IsKnownOperator(o2)
    requires expected == ThreeText(a, o1, b, o2, c)
    ensures Show(input) == Ok(expected)
  {
    TokenizeSpacedThree(a, o1, b, o2, c);
    ThreeOperands(a, o1, b, o2, c);
    RenderRightNested(a, o1, b, o2, c);
    RenderLeftNested(a, o1, b, o2, c);
  }

  /** `(a o1 b) o2 c` shows with the parenthesised operation innermost. */
  lemma ShowParenthesisedFirst(input: string, a: char, o1: char, b: char, o2: char, c: char, expected: string)
    requires input == ['(', a, ' ', o1, ' ', b, ')', ' ', o2, ' ', c]
    requires IsAsciiAlphanumeric(a) && IsAsciiAlphanumeric(b) && IsAsciiAlphanumeric(c)
    requires IsKnownOperator(o1) && IsKnownOperator(o2)
    requires expected == ['(', o2, ' ', '(', o1, ' ', a, ' ', b, ')', ' ', c, ')']
    ensures Show(input) == Ok(expected)
  {
    TokenizeParenthesisedFirst(a, o1, b, o2, c);
    ParenthesisedFirst(a, o1, b, o2, c);
    RenderLeftNested(a, o1, b, o2, c);
  }

  /** `a o b`, with no spaces, shows as one operation. */
  lemma ShowTight(input: string, a: char, o: char, b: char, expected: string)
    requires input == [a, o, b]
    requires IsAsciiAlphanumeric(a) && IsAsciiAlphanumeric(b) && IsKnownOperator(o)
    requires expected == ['(', o, ' ', a, ' ', b, ')']
    ensures Show(input) == Ok(expected)
  {
    TokenizeTight(a, o, b, []);
    assert [a, o, b] + [] == [a, o, b];
    OneOperation(a, o, b, []);
    assert [Token.Atom(a), Op(o), Token.Atom(b)] + [] == [Token.Atom(a), Op(o), Token.Atom(b)];
    RenderOne(a, o, b);
  }

  /** Spaces around the operator change nothing. */
  lemma ShowSpaced(input: string, a: char, o: char, b: char, expected: string)
    requires input == [a, ' ', o, ' ', b]
    requires IsAsciiAlphanumeric(a) && IsAsciiAlphanumeric(b) && IsKnownOperator(o)
    requires expected == ['(', o, ' ', a, ' ', b, ')']
    ensures Show(input) == Ok(expected)
  {
    WhitespaceInsensitive([a], ' ', [o, ' ', b]);
    assert input == [a] + [' '] + [o, ' ', b];
    WhitespaceInsensitive([a, o], ' ', [b]);
    assert [a] + [o, ' ', b] == [a, o] + [' '] + [b];
    assert [a, o] + [b] == [a, o, b];
    ShowTight([a, o, b], a, o, b, expected);
  }

  /** After `a o b)` the rest of the line is never read. */
  lemma ShowStopsAtClose(input: string, a: char, o: char, b: char, rest: string, expected: string)
    requires input == [a, o, b] + ([')'] + rest)
    requires IsAsciiAlphanumeric(a) && IsAsciiAlphanumeric(b) && IsKnownOperator(o)
    requires expected == ['(', o, ' ', a, ' ', b, ')']
    ensures Show(input) == Ok(expected)
  {
    TokenizeTight(a, o, b, [')'] + rest);
    TokenizeAppend([')'], rest);
    TokenizeChar(')');
    var k := [Op(')')] + Tokenize(rest);
    OneOperation(a, o, b, k);
    RenderOne(a, o, b);
  }

  /** After an operand and `)` the rest of the line is never read. */
  lemma ShowAtomThenClose(input: string, a: char, rest: string, expected: string)
    requires input == [a, ')'] + rest
    requires IsAsciiAlphanumeric(a)
    requires expected == [a]
    ensures Show(input) == Ok(expected)
  {
    assert [a, ')'] == [a] + [')'];
    TokenizeAppend([a, ')'], rest);
    TokenizeAppend([a], [')']);
    TokenizeChar(a);
    TokenizeChar(')');
    AtomThenStop(a, [Op(')')] + Tokenize(rest), TopLevel);
  }

  /** A single operand is the whole line. */
  lemma ShowSingle(input: string, a: char, expected: string)
    requires input == [a] && IsAsciiAlphanumeric(a) && expected == [a]
    ensures Show(input) == Ok(expected)
  {
    TokenizeChar(a);
    AtomThenStop(a, [], TopLevel);
    assert [Token.Atom(a)] + [] == [Token.Atom(a)];
  }

  /** A line of whitespace only has nothing to start with. */
  lemma ShowBlank(input: string)
    requires forall i :: 0 <= i < |input| ==> IsAsciiWhitespace(input[i])
    ensures Show(input) == Err(UnexpectedStartToken(EOF))
  {
    BlankHasNoTokens(input);
  }

  /** A line starting with an operator other than `(` fails on it. */
  lemma ShowLeadingOperator(input: string, o: char, rest: string)
    requires input == [o] + rest
    requires !IsAsciiAlphanumeric(o) && !IsAsciiWhitespace(o) && o != '('
    ensures Show(input) == Err(UnexpectedStartToken(Op(o)))
  {
    TokenizeAppend([o], rest);
    TokenizeChar(o);
    BadStart(Tokenize(input), TopLevel);
  }

  /** `(a o b` with no closing parenthesis fails at the end of the line. */
  lemma ShowUnclosed(input: string, a: char, o: char, b: char)
    requires input == ['(', a, ' ', o, ' ', b]
    requires IsAsciiAlphanumeric(a) && IsAsciiAlphanumeric(b) && IsKnownOperator(o)
    ensures Show(input) == Err(UnmatchedParenthesis(EOF))
  {
    assert input == ['('] + [a, ' ', o, ' ', b];
    TokenizeAppend(['('], [a, ' ', o, ' ', b]);
    TokenizeChar('(');
    TokenizeSpacedOne(a, o, b);
    var ts := Tokenize(input);
    assert ts[1..] == [Token.Atom(a), Op(o), Token.Atom(b)];
    OneOperation(a, o, b, []);
    assert [Token.Atom(a), Op(o), Token.Atom(b)] + [] == ts[1..];
    Unclosed(ts, TopLevel);
  }

  /** Two operands side by side: the second is where an operator belongs. */
  lemma ShowTwoOperands(input: string, a: char, b: char)
    requires input == [a, ' ', b]
    requires IsAsciiAlphanumeric(a) && IsAsciiAlphanumeric(b)
    ensures Show(input) == Err(UnexpectedOperatorToken(Token.Atom(b)))
  {
    assert input == [a] + [' '] + [b];
    TokenizeAppend([a] + [' '], [b]);
    TokenizeAppend([a], [' ']);
    TokenizeChar(a);
    TokenizeChar(' ');
    TokenizeChar(b);
    var ts := Tokenize(input);
    assert ts[1..] == [Token.Atom(b)];
    AtomInOperatorPosition(Leaf(a), ts[1..], TopLevel);
  }

  /** An operand followed, after an optional space, by a character that is
      no operator of the table fails on that character. */
  lemma ShowUnknownOperator(input: string, a: char, gap: string, o: char, rest: string)
    requires input == [a] + gap + [o] + rest
    requires gap == [] || gap == [' ']
    requires IsAsciiAlphanumeric(a)
    requires !IsAsciiAlphanumeric(o) && !IsAsciiWhitespace(o) && o != ')' && !IsKnownOperator(o)
    ensures Show(input) == Err(UnknownOperator(o))
  {
    TokenizeAppend([a] + gap + [o], rest);
    TokenizeAppend([a] + gap, [o]);
    TokenizeAppend([a], gap);
    TokenizeChar(a);
    TokenizeChar(' ');
    TokenizeChar(o);
    var ts := Tokenize(input);
    assert ts == [Token.Atom(a)] + ([Op(o)] + Tokenize(rest));
    assert ts[1..] == [Op(o)] + Tokenize(rest);
    UnknownInOperatorPosition(Leaf(a), ts[1..], TopLevel);
  }

  // ---------------------------------------------------------------------
  // Concrete lines
  // ---------------------------------------------------------------------

  lemma SingleAtom()
    ensures Show("1") == Ok("1")
  {
    ShowSingle("1", '1', "1");
  }

  lemma ProductBindsTighter()
    ensures Show("1 + 2 * 3") == Ok("(+ 1 (* 2 3))")
  {
    ShowThree("1 + 2 * 3", '1', '+', '2', '*', '3', "(+ 1 (* 2 3))");
  }

  lemma ProductFirst()
    ensures Show("1 * 2 + 3") == Ok("(+ (* 1 2) 3)")
  {
    ShowThree("1 * 2 + 3", '1', '*', '2', '+', '3', "(+ (* 1 2) 3)");
  }

  lemma SubtractionGroupsLeft()
    ensures Show("1 - 2 - 3") == Ok("(- (- 1 2) 3)")
  {
    ShowThree("1 - 2 - 3", '1', '-', '2', '-', '3', "(- (- 1 2) 3)");
  }

  lemma DivisionGroupsLeft()
    ensures Show("a / b * c") == Ok("(* (/ a b) c)")
  {
    ShowThree("a / b * c", 'a', '/', 'b', '*', 'c', "(* (/ a b) c)");
  }

  lemma ParenthesesOverridePrecedence()
    ensures Show("(1 + 2) * 3") == Ok("(* (+ 1 2) 3)")
  {
    ShowParenthesisedFirst("(1 + 2) * 3", '1', '+', '2', '*', '3', "(* (+ 1 2) 3)");
  }

  lemma WithoutSpaces()
    ensures Show("1+2") == Ok("(+ 1 2)")
  {
    ShowTight("1+2", '1', '+', '2', "(+ 1 2)");
  }

  lemma WithSpaces()
    ensures Show("1 + 2") == Ok("(+ 1 2)")
  {
    ShowSpaced("1 + 2", '1', '+', '2', "(+ 1 2)");
  }

  /** The line is not required to end after the expression: a stray `)` and
      whatever follows it is left unread. */
  lemma TrailingTokensIgnored()
    ensures Show("1+2) * 3") == Ok("(+ 1 2)")
  {
    ShowStopsAtClose("1+2) * 3", '1', '+', '2', " * 3", "(+ 1 2)");
  }

  lemma TrailingParenthesisIgnored()
    ensures Show("1)") == Ok("1")
  {
    ShowAtomThenClose("1)", '1', [], "1");
  }

  lemma UnclosedParenthesis()
    ensures Show("(1 + 2") == Err(UnmatchedParenthesis(EOF))
  {
    ShowUnclosed("(1 + 2", '1', '+', '2');
  }

  lemma LeadingOperator()
    ensures Show("+1") == Err(UnexpectedStartToken(Op('+')))
  {
    ShowLeadingOperator("+1", '+', "1");
  }

  lemma EmptyLine()
    ensures Show("") == Err(UnexpectedStartToken(EOF))
    ensures Show(" \t\r\n") == Err(UnexpectedStartToken(EOF))
  {
    ShowBlank("");
    ShowBlank(" \t\r\n");
  }

  lemma TwoAtoms()
    ensures Show("1 2") == Err(UnexpectedOperatorToken(Token.Atom('2')))
  {
    ShowTwoOperands("1 2", '1', '2');
  }

  lemma UnknownInfixOperator()
    ensures Show("1 % 2") == Err(UnknownOperator('%'))
    ensures Show("1 (2)") == Err(UnknownOperator('('))
  {
    ShowUnknownOperator("1 % 2", '1', " ", '%', " 2");
    ShowUnknownOperator("1 (2)", '1', " ", '(', "2)");
  }

  /** Vertical tab is not ASCII whitespace here, so it is an (unknown) operator. */
  lemma VerticalTabIsAnOperator()
    ensures Show("1\U{000B}2") == Err(UnknownOperator('\U{000B}'))
  {
    ShowUnknownOperator("1\U{000B}2", '1', [], '\U{000B}', "2");
  }

  // ---------------------------------------------------------------------
  // Arbitrary lines
  // ---------------------------------------------------------------------

  /** Every single letter or digit parses to itself and renders as itself. */
  lemma SingleCharacter(c: char)
    requires IsAsciiAlphanumeric(c)
    ensures Parse([c]) == Ok(Expression.Atom(c))
    ensures Show([c]) == Ok([c])
  {
    TokenizeChar(c);
    AtomThenStop(c, [], TopLevel);
    assert [Token.Atom(c)] + [] == [Token.Atom(c)];
  }

  /** A line whose first character is not a letter, a digit, `(` or
      whitespace fails with that character as the start token. */
  lemma LeadingCharacterFails(c: char, rest: string)
    requires !IsAsciiAlphanumeric(c) && !IsAsciiWhitespace(c) && c != '('
    ensures Parse([c] + rest) == Err(UnexpectedStartToken(Op(c)))
  {
    assert ([c] + rest)[1..] == rest;
  }

  /** Whitespace anywhere in a line changes neither the tree nor the failure. */
  lemma ParseIgnoresWhitespace(a: string, w: char, b: string)
    requires IsAsciiWhitespace(w)
    ensures Parse(a + [w] + b) == Parse(a + b)
  {
    WhitespaceInsensitive(a, w, b);
  }

  /** A successful parse of a line is a well-formed tree, and no other
      well-formed tree renders alike. */
  lemma ParseLineWellFormed(input: string)
    requires Parse(input).Ok?
    ensures WellFormed(Parse(input).value)
    ensures forall e :: WellFormed(e) && Render(e) == Render(Parse(input).value) ==> e == Parse(input).value
  {
    ParseWellFormed(Tokenize(input), TopLevel);
    forall e | WellFormed(e) && Render(e) == Render(Parse(input).value)
      ensures e == Parse(input).value
    {
      RenderInjective(e, Parse(input).value);
    }
  }
}
