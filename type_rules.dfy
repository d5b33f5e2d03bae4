/**
 * The operator rule table: from the types of the two operands and the
 * operator to the type of the result, or a mismatch.
 */
module TypeRules {
  import opened Types

  /** The verdict of the rule table. `NoResult` is the answer for an operator
      the table does not know. */
  datatype Checked = Ok(t: TypeTag) | Mismatch | NoResult

  predicate IsNumeric(t: TypeTag)
  {
    t == Int || t == Float
  }

  /** Numeric promotion: `float` as soon as one side is `float`. */
  function Promote(l: TypeTag, r: TypeTag): TypeTag
  {
    if l == Float || r == Float then Float else Int
  }

  /** The rule table, branch by branch as the analyzer applies it. */
  function TypeCheck(l: TypeTag, r: TypeTag, op: Op): (c: Checked)
    ensures c == NoResult <==> op.OtherOp?
    ensures c.Ok? ==> c.t == Int || c.t == Float || c.t == Str
    ensures c.Ok? && c.t != Str ==> IsNumeric(l) && IsNumeric(r)
    ensures c.Ok? && c.t == Str ==> l == Str || r == Str
  {
    match op
    case Add =>
      if l == Int && r == Int then Ok(Int)
      else if l == Str && r == Str then Ok(Str)
      else if (l == Int && r == Float) || (l == Float && r == Int) then Ok(Float)
      else Mismatch
    case Sub =>
      if IsNumeric(l) && IsNumeric(r) then Ok(Promote(l, r)) else Mismatch
    case Mul =>
      if IsNumeric(l) && IsNumeric(r) then Ok(Promote(l, r))
      else if l == Str && r == Int then Ok(Str)
      else if l == Int && r == Str then Ok(Str)
      else Mismatch
    case Div =>
      if IsNumeric(l) && IsNumeric(r) then Ok(Float) else Mismatch
    case OtherOp(_) => NoResult
  }

  /** The same table written as the list of accepted (left, right, operator,
      result) rows; every known-operator combination not listed is a
      mismatch. Note that `float + float` is absent. */
  const AcceptedRows: set<(TypeTag, TypeTag, Op, TypeTag)> := {
    (Int, Int, Add, Int), (Str, Str, Add, Str), (Int, Float, Add, Float), (Float, Int, Add, Float),
    (Int, Int, Sub, Int), (Int, Float, Sub, Float), (Float, Int, Sub, Float), (Float, Float, Sub, Float),
    (Int, Int, Mul, Int), (Int, Float, Mul, Float), (Float, Int, Mul, Float), (Float, Float, Mul, Float),
    (Str, Int, Mul, Str), (Int, Str, Mul, Str),
    (Int, Int, Div, Float), (Int, Float, Div, Float), (Float, Int, Div, Float), (Float, Float, Div, Float)
  }

  /** The branch table and the row list agree on every input. */
  lemma TypeCheckMatchesRows(l: TypeTag, r: TypeTag, op: Op, t: TypeTag)
    requires !op.OtherOp?
    ensures TypeCheck(l, r, op) == Ok(t) <==> (l, r, op, t) in AcceptedRows
    ensures TypeCheck(l, r, op) == Mismatch <==> forall u :: (l, r, op, u) !in AcceptedRows
  {
  }

  /** `-` and `*` on numbers promote to float exactly when one side is
      float; `/` on numbers always gives float. */
  lemma NumericOperators(l: TypeTag, r: TypeTag)
    requires IsNumeric(l) && IsNumeric(r)
    ensures TypeCheck(l, r, Sub) == Ok(if l == Float || r == Float then Float else Int)
    ensures TypeCheck(l, r, Mul) == Ok(if l == Float || r == Float then Float else Int)
    ensures TypeCheck(l, r, Div) == Ok(Float)
  {
  }

  /** `+` accepts exactly int+int, str+str and the two mixed int/float
      orders; float+float, like every other pair, is a mismatch. */
  lemma AdditionRule(l: TypeTag, r: TypeTag)
    ensures TypeCheck(l, r, Add).Ok? <==>
              (l == Int && r == Int) || (l == Str && r == Str) ||
              (l == Int && r == Float) || (l == Float && r == Int)
    ensures TypeCheck(l, r, Add).Ok? || TypeCheck(l, r, Add) == Mismatch
    ensures TypeCheck(Float, Float, Add) == Mismatch
  {
  }

  /** String repetition: `str * int` and `int * str` give str; a string
      times a string or a float is a mismatch. */
  lemma RepetitionRule(l: TypeTag, r: TypeTag)
    requires l == Str || r == Str
    ensures TypeCheck(l, r, Mul).Ok? <==> (l == Str && r == Int) || (l == Int && r == Str)
    ensures TypeCheck(l, r, Mul).Ok? ==> TypeCheck(l, r, Mul).t == Str
    ensures TypeCheck(Str, Str, Mul) == Mismatch
    ensures TypeCheck(Str, Float, Mul) == Mismatch && TypeCheck(Float, Str, Mul) == Mismatch
  {
  }

  /** The table does not depend on the order of the operands. */
  lemma TypeCheckSymmetric(l: TypeTag, r: TypeTag, op: Op)
    ensures TypeCheck(l, r, op) == TypeCheck(r, l, op)
  {
  }

  /** A type outside the three primitives never passes a known operator. */
  lemma UnknownTypeRejected(l: TypeTag, r: TypeTag, op: Op)
    requires !op.OtherOp?
    requires l !in {Int, Float, Str} || r !in {Int, Float, Str}
    ensures TypeCheck(l, r, op) == Mismatch
  {
  }
}
