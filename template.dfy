/** The three unchecked operations of template.c over `int32_t`.

    The C code computes `a + b` and `a - b` in `int32_t` with no overflow
    detection; signed overflow is undefined behaviour in C, so the model
    makes "the exact result is representable" a precondition rather than
    choosing a wrap-around. */
module Template {
  import opened CInt

  /** sum_two_numbers: the exact sum, for operands whose sum fits. */
  function SumTwoNumbers(a: int32, b: int32): (r: int32)
    requires InRange(a as int + b as int)
    ensures r as int == a as int + b as int
  {
    a + b
  }

  /** subtract_two_numbers: the exact difference, for operands whose
      difference fits. */
  function SubtractTwoNumbers(a: int32, b: int32): (r: int32)
    requires InRange(a as int - b as int)
    ensures r as int == a as int - b as int
  {
    a - b
  }

  /** find_maximum: the larger argument, and `a` on a tie (the test is
      `a >= b`). Total: no precondition and no arithmetic. */
  function FindMaximum(a: int32, b: int32): (r: int32)
    ensures r >= a && r >= b
    ensures r == a || r == b
    ensures a == b ==> r == a
  {
    if a >= b then a else b
  }

  /** Addition is commutative, including its precondition. */
  lemma SumCommutes(a: int32, b: int32)
    requires InRange(a as int + b as int)
    ensures InRange(b as int + a as int)
    ensures SumTwoNumbers(a, b) == SumTwoNumbers(b, a)
  {
  }

  /** Subtracting what was added gives back the first operand. */
  lemma SubtractUndoesSum(a: int32, b: int32)
    requires InRange(a as int + b as int)
    ensures InRange(SumTwoNumbers(a, b) as int - b as int)
    ensures SubtractTwoNumbers(SumTwoNumbers(a, b), b) == a
  {
  }

  /** Adding back what was subtracted gives back the first operand. */
  lemma SumUndoesSubtract(a: int32, b: int32)
    requires InRange(a as int - b as int)
    ensures InRange(SubtractTwoNumbers(a, b) as int + b as int)
    ensures SumTwoNumbers(SubtractTwoNumbers(a, b), b) == a
  {
  }

  /** Any value minus itself is zero, with no precondition to meet. */
  lemma SubtractSelfIsZero(a: int32)
    ensures InRange(a as int - a as int)
    ensures SubtractTwoNumbers(a, a) == 0
  {
  }

  /** Swapping the operands negates the difference when both fit. The
      second precondition is needed: INT32_MIN - 0 fits but 0 - INT32_MIN
      does not. */
  lemma SubtractAntisymmetric(a: int32, b: int32)
    requires InRange(a as int - b as int) && InRange(b as int - a as int)
    ensures SubtractTwoNumbers(a, b) == -SubtractTwoNumbers(b, a)
  {
  }

  /** find_maximum is the least upper bound of its arguments: any value at
      least both arguments is at least the maximum. */
  lemma MaximumIsLeastUpperBound(a: int32, b: int32, c: int32)
    requires c >= a && c >= b
    ensures FindMaximum(a, b) <= c
  {
  }

  /** The maximum is the same whichever argument comes first; the tie
      rule cannot be observed in the value returned. */
  lemma MaximumCommutes(a: int32, b: int32)
    ensures FindMaximum(a, b) == FindMaximum(b, a)
  {
  }
}
