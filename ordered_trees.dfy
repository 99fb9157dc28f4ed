/**
  What a correct precedence parse is, independently of binding powers.

  A binary tree is precedence-ordered when, at every operation, the left
  operand binds at least as tightly as the operator (equal levels group to
  the left) and the right operand binds strictly more tightly.  Such a tree
  is determined by its infix reading: for a paren-free token sequence there
  is at most one precedence-ordered tree that reads back as it.
 */
module OrderedTrees {
  import opened Tokens
  import opened BindingPower
  import opened Expressions

  /** Operands bind more tightly than any operator. */
  const AtomLevel: nat := 3

  /** How tightly the root of `e` binds. */
  function TopLevelOf(e: Expression): nat {
    match e
    case Atom(_) => AtomLevel
    case Operation(op, _) => if IsKnownOperator(op) then Precedence(op) else 0
  }

  predicate PrecOrdered(e: Expression) {
    match e
    case Atom(_) => true
    case Operation(op, children) =>
      && |children| == 2
      && IsKnownOperator(op)
      && PrecOrdered(children[0])
      && PrecOrdered(children[1])
      && TopLevelOf(children[0]) >= Precedence(op)
      && TopLevelOf(children[1]) > Precedence(op)
  }

  /** Every operator in the infix reading of an ordered tree binds at least
      as tightly as its root. */
  predicate OpsAtLeast(ts: seq<Token>, level: nat) {
    forall i :: 0 <= i < |ts| && ts[i].Op? ==> IsKnownOperator(ts[i].c) && Precedence(ts[i].c) >= level
  }

  lemma {:induction false} InfixOpsBound(e: Expression)
    requires PrecOrdered(e)
    ensures |Infix(e)| >= 1
    ensures OpsAtLeast(Infix(e), TopLevelOf(e))
  {
    match e
    case Atom(c) =>
    case Operation(op, children) =>
      var l, r := children[0], children[1];
      assert children == [l, r];
      InfixBinary(op, l, r);
      InfixOpsBound(l);
      InfixOpsBound(r);
      var s := Infix(l) + [Op(op)] + Infix(r);
      forall i | 0 <= i < |s| && s[i].Op?
        ensures IsKnownOperator(s[i].c) && Precedence(s[i].c) >= Precedence(op)
      {
        if i < |Infix(l)| {
          assert s[i] == Infix(l)[i];
        } else if i > |Infix(l)| {
          assert s[i] == Infix(r)[i - |Infix(l)| - 1];
        }
      }
  }

  /** An operator left of the root of an ordered tree is in its left
      operand, so it binds at least as tightly as the root. */
  lemma LeftOfRoot(o1: char, l1: Expression, r1: Expression, o2: char, l2: Expression, r2: Expression)
    requires IsKnownOperator(o1) && PrecOrdered(Operation(o2, [l2, r2]))
    requires Infix(l1) + [Op(o1)] + Infix(r1) == Infix(l2) + [Op(o2)] + Infix(r2)
    ensures |Infix(l1)| < |Infix(l2)| ==> Precedence(o1) >= Precedence(o2)
  {
    var i1 := |Infix(l1)|;
    if i1 < |Infix(l2)| {
      InfixOpsBound(l2);
      var s := Infix(l2) + [Op(o2)] + Infix(r2);
      assert s[i1] == Infix(l2)[i1];
    }
  }

  /** An operator right of the root of an ordered tree is in its right
      operand, so it binds strictly more tightly than the root. */
  lemma RightOfRoot(o1: char, l1: Expression, r1: Expression, o2: char, l2: Expression, r2: Expression)
    requires PrecOrdered(Operation(o1, [l1, r1])) && IsKnownOperator(o2)
    requires Infix(l1) + [Op(o1)] + Infix(r1) == Infix(l2) + [Op(o2)] + Infix(r2)
    ensures |Infix(l1)| < |Infix(l2)| ==> Precedence(o2) > Precedence(o1)
  {
    var i1, i2 := |Infix(l1)|, |Infix(l2)|;
    if i1 < i2 {
      InfixOpsBound(r1);
      var s := Infix(l1) + [Op(o1)] + Infix(r1);
      assert s[i2] == Infix(r1)[i2 - i1 - 1];
    }
  }

  /** The root of an ordered operation is the last operator of lowest
      precedence in its infix reading, so it sits at one position only. */
  lemma RootPosition(o1: char, l1: Expression, r1: Expression, o2: char, l2: Expression, r2: Expression)
    requires PrecOrdered(Operation(o1, [l1, r1])) && PrecOrdered(Operation(o2, [l2, r2]))
    requires Infix(l1) + [Op(o1)] + Infix(r1) == Infix(l2) + [Op(o2)] + Infix(r2)
    ensures |Infix(l1)| == |Infix(l2)|
  {
    LeftOfRoot(o1, l1, r1, o2, l2, r2);
    RightOfRoot(o1, l1, r1, o2, l2, r2);
    LeftOfRoot(o2, l2, r2, o1, l1, r1);
    RightOfRoot(o2, l2, r2, o1, l1, r1);
  }

  /** A precedence-ordered tree is determined by its infix reading. */
  lemma {:induction false} PrecOrderedUnique(e1: Expression, e2: Expression)
    requires PrecOrdered(e1) && PrecOrdered(e2)
    requires Infix(e1) == Infix(e2)
    ensures e1 == e2
  {
    match e1
    case Atom(c1) =>
      if e2.Operation? {
        InfixBinary(e2.op, e2.children[0], e2.children[1]);
        assert e2.children == [e2.children[0], e2.children[1]];
        InfixOpsBound(e2.children[0]);
        InfixOpsBound(e2.children[1]);
        assert false;
      }
    case Operation(o1, cs1) =>
      var l1, r1 := cs1[0], cs1[1];
      assert cs1 == [l1, r1];
      InfixBinary(o1, l1, r1);
      InfixOpsBound(l1);
      InfixOpsBound(r1);
      if e2.Atom? {
        assert false;
      } else {
        var o2, l2, r2 := e2.op, e2.children[0], e2.children[1];
        assert e2.children == [l2, r2];
        InfixBinary(o2, l2, r2);
        RootPosition(o1, l1, r1, o2, l2, r2);
        var s := Infix(e1);
        var k := |Infix(l1)|;
        assert Infix(l1) == s[..k] == Infix(l2);
        assert Infix(r1) == s[k + 1..] == Infix(r2);
        assert s[k] == Op(o1) && s[k] == Op(o2);
        PrecOrderedUnique(l1, l2);
        PrecOrderedUnique(r1, r2);
      }
  }
}
