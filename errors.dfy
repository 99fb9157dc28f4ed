/**
  The ways a parse can fail.  Each corresponds to one of the places where the
  parser halts on malformed input; here a failure is a value returned to the
  caller, and a failure anywhere aborts the whole parse.
 */
module Errors {
  import opened Tokens

  datatype ParseError =
    | UnexpectedStartToken(found: Token)     // an expression starts with neither an atom nor `(`
    | UnmatchedParenthesis(found: Token)     // the token after a parenthesised expression is not `)`
    | UnexpectedOperatorToken(found: Token)  // a token in operator position is not an operator
    | UnknownOperator(op: char)              // an operator with no binding power

  datatype Result<T> = Ok(value: T) | Err(error: ParseError)
}
