/**
  The infix binding-power table.

  The table's real-valued powers 1.0/1.1 and 2.0/2.1 are only ever compared
  with `<`, so they are encoded as the integers 10/11 and 20/21, which keep
  both their order and the gap between each operator's left and right power.
  The lowest threshold a parse starts from, 0.0, is encoded as 0.
 */
module BindingPower {
  import opened Errors

  /** The minimum binding power of a top-level or parenthesised expression. */
  const TopLevel: int := 0

  /** The operators the table knows. */
  predicate IsKnownOperator(op: char) {
    op == '+' || op == '-' || op == '*' || op == '/'
  }

  /** The conventional precedence level of a known operator: sums bind
      more loosely than products.  It is the reference the table is judged by. */
  function Precedence(op: char): nat
    requires IsKnownOperator(op)
  {
    if op == '+' || op == '-' then 1 else 2
  }

  /** `(left, right)` binding powers, or a failure for any other character. */
  function InfixBindingPower(op: char): (r: Result<(int, int)>)
    ensures r.Ok? <==> IsKnownOperator(op)
    ensures r.Err? ==> r.error == UnknownOperator(op)
    ensures r.Ok? ==> TopLevel < r.value.0 < r.value.1
  {
    match op
    case '+' => Ok((10, 11))
    case '-' => Ok((10, 11))
    case '*' => Ok((20, 21))
    case '/' => Ok((20, 21))
    case _ => Err(UnknownOperator(op))
  }

  function LeftPower(op: char): int
    requires IsKnownOperator(op)
  {
    InfixBindingPower(op).value.0
  }

  function RightPower(op: char): int
    requires IsKnownOperator(op)
  {
    InfixBindingPower(op).value.1
  }

  /** Products bind tighter than sums: both powers of `*` and `/` exceed
      both powers of `+` and `-`. */
  lemma ProductsBindTighter(p: char, s: char)
    requires p == '*' || p == '/'
    requires s == '+' || s == '-'
    ensures LeftPower(p) > LeftPower(s) && LeftPower(p) > RightPower(s)
    ensures RightPower(p) > LeftPower(s) && RightPower(p) > RightPower(s)
  {
  }

  /** Operators of one precedence level share their powers. */
  lemma SamePrecedenceSamePowers(a: char, b: char)
    requires IsKnownOperator(a) && IsKnownOperator(b)
    ensures Precedence(a) == Precedence(b) <==>
              (LeftPower(a) == LeftPower(b) && RightPower(a) == RightPower(b))
  {
  }

  /** The associativity mechanism.  When an operator `next` follows the right
      operand of `prev`, the parse of that operand (threshold `RightPower(prev)`)
      absorbs `next` exactly when `next` has strictly higher precedence.  So an
      operator of equal precedence is left to the enclosing loop, which groups
      to the left. */
  lemma AbsorbedIffTighter(prev: char, next: char)
    requires IsKnownOperator(prev) && IsKnownOperator(next)
    ensures LeftPower(next) >= RightPower(prev) <==> Precedence(next) > Precedence(prev)
  {
  }

  /** Every known operator is accepted by a top-level or parenthesised loop. */
  lemma TopLevelAcceptsAll(op: char)
    requires IsKnownOperator(op)
    ensures !(LeftPower(op) < TopLevel)
  {
  }
}
