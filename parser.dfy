/**
  The precedence-climbing parser.

  `ParseExpr` and `ParseLoop` are the reference definition: they read a
  front-to-back token sequence and give the tree together with the tokens
  left unconsumed.  `ParseExpression` is the parser proper, a recursive
  method over a `Lexer` with an operator loop, and it is proved to compute
  exactly what the reference definition gives.
 */
module Parser {
  import opened Tokens
  import opened Errors
  import opened BindingPower
  import opened Expressions

  /** `rest` is what is left of `ts` after consuming some prefix of it. */
  predicate IsSuffix(rest: seq<Token>, ts: seq<Token>) {
    |rest| <= |ts| && rest == ts[|ts| - |rest|..]
  }

  /** The tokens consumed from `ts` when `rest` is left. */
  function Consumed(ts: seq<Token>, rest: seq<Token>): seq<Token>
    requires |rest| <= |ts|
  {
    ts[..|ts| - |rest|]
  }

  /** One expression with threshold `minBp`: a left-hand side (an atom, or a
      parenthesised expression and its closing `)`), then the operator loop.
      It always consumes at least one token and yields a binary tree. */
  function ParseExpr(ts: seq<Token>, minBp: int): (r: Result<(Expression, seq<Token>)>)
    decreases |ts|
    ensures r.Ok? ==> IsSuffix(r.value.1, ts) && |r.value.1| < |ts|
    ensures r.Ok? ==> IsBinary(r.value.0)
  {
    match Front(ts)
    case Atom(c) => ParseLoop(Expression.Atom(c), ts[1..], minBp)
    case Op(c) =>
      if c != '(' then Err(UnexpectedStartToken(Front(ts)))
      else
        match ParseExpr(ts[1..], TopLevel) {
          case Err(e) => Err(e)
          case Ok((inner, rest)) =>
            if Front(rest) != Op(')') then Err(UnmatchedParenthesis(Front(rest)))
            else ParseLoop(inner, rest[1..], minBp)
        }
    case EOF => Err(UnexpectedStartToken(EOF))
  }

  /** The operator loop with the current left-hand side `lhs`: it stops, without
      consuming, at the end, at `)` or at an operator whose left power is below
      `minBp`; otherwise it consumes the operator, parses the right-hand side
      with the operator's right power and continues with the combined tree. */
  function ParseLoop(lhs: Expression, ts: seq<Token>, minBp: int): (r: Result<(Expression, seq<Token>)>)
    decreases |ts|
    ensures r.Ok? ==> IsSuffix(r.value.1, ts)
    ensures r.Ok? && IsBinary(lhs) ==> IsBinary(r.value.0)
  {
    match Front(ts)
    case EOF => Ok((lhs, ts))
    case Atom(_) => Err(UnexpectedOperatorToken(Front(ts)))
    case Op(op) =>
      if op == ')' then Ok((lhs, ts))
      else
        match InfixBindingPower(op) {
          case Err(e) => Err(e)
          case Ok((lBp, rBp)) =>
            if lBp < minBp then Ok((lhs, ts))
            else
              match ParseExpr(ts[1..], rBp) {
                case Err(e) => Err(e)
                case Ok((rhs, rest)) => ParseLoop(Operation(op, [lhs, rhs]), rest, minBp)
              }
        }
  }

  /** A whole line: its tokens parsed from the top-level threshold.  Tokens
      after the first complete expression are not examined. */
  function Parse(input: string): Result<Expression> {
    match ParseExpr(Tokenize(input), TopLevel)
    case Ok((e, _)) => Ok(e)
    case Err(err) => Err(err)
  }

  /** The method's result and lexer state agree with the reference result:
      the same tree and remaining tokens, or the same failure. */
  ghost predicate Agrees(r: Result<Expression>, remaining: seq<Token>, reference: Result<(Expression, seq<Token>)>) {
    match reference
    case Ok((e, rest)) => r == Ok(e) && remaining == rest
    case Err(err) => r == Err(err)
  }

  /** The recursive parser over a lexer. */
  method ParseExpression(lexer: Lexer, minBp: int) returns (r: Result<Expression>)
    modifies lexer
    decreases |lexer.tokens|
    ensures Agrees(r, lexer.Remaining(), ParseExpr(old(lexer.Remaining()), minBp))
  {
    ghost var reference := ParseExpr(lexer.Remaining(), minBp);
    var first := lexer.Next();
    var lhs: Expression;
    match first {
      case Atom(c) =>
        lhs := Expression.Atom(c);
      case Op(c) =>
        if c != '(' {
          return Err(UnexpectedStartToken(first));
        }
        var inner := ParseExpression(lexer, TopLevel);
        if inner.Err? {
          return Err(inner.error);
        }
        var close := lexer.Next();
        if close != Op(')') {
          return Err(UnmatchedParenthesis(close));
        }
        lhs := inner.value;
      case EOF =>
        return Err(UnexpectedStartToken(first));
    }

    while true
      invariant |lexer.tokens| < old(|lexer.tokens|)
      invariant ParseLoop(lhs, lexer.Remaining(), minBp) == reference
      decreases |lexer.tokens|
    {
      var next := lexer.Peek();
      if next == EOF || next == Op(')') {
        break;
      }
      if next.Atom? {
        return Err(UnexpectedOperatorToken(next));
      }
      var op := next.c;
      var powers := InfixBindingPower(op);
      if powers.Err? {
        return Err(powers.error);
      }
      var (lBp, rBp) := powers.value;
      if lBp < minBp {
        break;
      }
      var _ := lexer.Next();
      var rhs := ParseExpression(lexer, rBp);
      if rhs.Err? {
        return Err(rhs.error);
      }
      lhs := Operation(op, [lhs, rhs.value]);
    }
    return Ok(lhs);
  }

  /** `Expression::from_str`: a fresh lexer over the line, parsed from the
      top-level threshold. */
  method FromStr(input: string) returns (r: Result<Expression>)
    ensures r == Parse(input)
  {
    var lexer := new Lexer(input);
    r := ParseExpression(lexer, TopLevel);
  }
}
