/** The interface of template.h: the `error_code_t` enumeration and the
    checked operations `sum` and `divide`, which report a status through
    their return value and deliver their value through an `int32_t*`
    out-parameter.

    The header only declares `sum` and `divide`; their behaviour here comes
    from its doc comments. Decisions the header leaves open:
    - the null check comes first, so a null result pointer is reported for
      every pair of operands;
    - on every failure the result location is left untouched;
    - `divide(INT32_MIN, -1, …)`, whose exact quotient 2^31 has no `int32_t`
      representation, is reported as ErrorInvalidParameter;
    - `sum` performs no overflow detection, as `sum_two_numbers` does not, so
      a caller passing a result location must pass operands whose sum fits. */
module TemplateHeader {
  import opened CInt
  import Template

  datatype Option<T> = None | Some(value: T)

  /** The values C gives the enumerators of an enumeration (section 6.7.2.2
      of ISO/IEC 9899:2011): an enumerator with an initializer takes that
      value; one without takes one more than the enumerator before it, or
      `next` if it comes first. */
  function EnumValuesFrom(inits: seq<Option<int>>, next: int): (vs: seq<int>)
    ensures |vs| == |inits|
    ensures forall i :: 0 <= i < |inits| && inits[i].Some? ==> vs[i] == inits[i].value
    ensures inits != [] && inits[0].None? ==> vs[0] == next
    ensures forall i :: 0 < i < |inits| && inits[i].None? ==> vs[i] == vs[i - 1] + 1
  {
    if inits == [] then []
    else
      var v := match inits[0] case Some(x) => x case None => next;
      [v] + EnumValuesFrom(inits[1..], v + 1)
  }

  /** An enumeration's values: the first enumerator defaults to 0. */
  function EnumValues(inits: seq<Option<int>>): seq<int> {
    EnumValuesFrom(inits, 0)
  }

  /** A run of enumerators without initializers counts up by one from
      `next`. */
  lemma {:induction false} ImplicitValuesCountUp(inits: seq<Option<int>>, next: int)
    requires forall i :: 0 <= i < |inits| ==> inits[i].None?
    ensures forall i :: 0 <= i < |inits| ==> EnumValuesFrom(inits, next)[i] == next + i
  {
    if inits != [] {
      ImplicitValuesCountUp(inits[1..], next + 1);
      assert EnumValuesFrom(inits, next) == [next] + EnumValuesFrom(inits[1..], next + 1);
    }
  }

  /** error_code_t, in declaration order. */
  datatype ErrorCode =
    | ErrorNone
    | ErrorNullPointer
    | ErrorDivisionByZero
    | ErrorInvalidParameter

  /** The initializers of error_code_t's enumerators: only ERROR_NONE has
      one, `= 0`. */
  const ErrorCodeInitializers: seq<Option<int>> := [Some(0), None, None, None]

  /** The position of an enumerator in the declaration. */
  function Ordinal(e: ErrorCode): nat {
    match e
    case ErrorNone => 0
    case ErrorNullPointer => 1
    case ErrorDivisionByZero => 2
    case ErrorInvalidParameter => 3
  }

  /** The declaration gives error_code_t the values 0, 1, 2, 3 in order. */
  lemma ErrorCodeValues()
    ensures EnumValues(ErrorCodeInitializers) == [0, 1, 2, 3]
  {
    var tail := ErrorCodeInitializers[1..];
    ImplicitValuesCountUp(tail, 1);
    assert EnumValues(ErrorCodeInitializers) == [0] + EnumValuesFrom(tail, 1);
  }

  /** The enumerator's integer value, as the declaration assigns it. Only
      ERROR_NONE is 0, so callers may treat any non-zero code as failure. */
  function Value(e: ErrorCode): (n: nat)
    ensures n < 4
    ensures n == 0 <==> e == ErrorNone
  {
    ErrorCodeValues();
    EnumValues(ErrorCodeInitializers)[Ordinal(e)]
  }

  /** The enumerator whose integer value is `n`; every value in 0..3 has one. */
  function FromValue(n: int): (e: ErrorCode)
    requires 0 <= n < 4
    ensures Value(e) == n
  {
    if n == 0 then ErrorNone
    else if n == 1 then ErrorNullPointer
    else if n == 2 then ErrorDivisionByZero
    else ErrorInvalidParameter
  }

  /** The four enumerators have four distinct values, so a value names its
      enumerator uniquely. */
  lemma ValueInjective(e: ErrorCode, f: ErrorCode)
    ensures Value(e) == Value(f) <==> e == f
  {
  }

  /** Reading back an enumerator's value gives the enumerator. */
  lemma FromValueRoundTrip(e: ErrorCode)
    ensures FromValue(Value(e)) == e
  {
  }

  /** The memory an `int32_t*` points to. A null pointer is a null
      `Int32Cell?`. */
  class Int32Cell {
    var value: int32

    constructor (v: int32)
      ensures value == v
    {
      value := v;
    }
  }

  /** The outcome `divide` computes for a valid result location: the
      quotient truncated toward zero, or the error it reports. */
  function DivideOutcome(a: int32, b: int32): (r: (ErrorCode, int32))
    ensures r.0 == ErrorNone <==> b != 0 && !(a == MinInt32 && b == -1)
    ensures b == 0 ==> r.0 == ErrorDivisionByZero
    ensures b != 0 && r.0 != ErrorNone ==> r.0 == ErrorInvalidParameter
    ensures r.0 == ErrorNone ==> IsTruncQuotient(a as int, b as int, r.1 as int)
  {
    if b == 0 then
      (ErrorDivisionByZero, 0)
    else if a == MinInt32 && b == -1 then
      (ErrorInvalidParameter, 0)
    else
      TruncDivInRange(a, b);
      TruncQuotientUnique(a as int, b as int, TruncDiv(a as int, b as int));
      (ErrorNone, TruncDiv(a as int, b as int) as int32)
  }

  /** sum: reports a null result pointer; otherwise stores `a + b` through
      it and reports success. Nothing but the result location changes. */
  method Sum(a: int32, b: int32, result: Int32Cell?) returns (e: ErrorCode)
    requires result != null ==> InRange(a as int + b as int)
    modifies result
    ensures result == null ==> e == ErrorNullPointer
    ensures result != null ==> e == ErrorNone && result.value as int == a as int + b as int
  {
    if result == null {
      return ErrorNullPointer;
    }
    result.value := Template.SumTwoNumbers(a, b);
    e := ErrorNone;
  }

  /** divide: reports a null result pointer first, then a zero divisor,
      then the one quotient that does not fit; otherwise stores the quotient
      truncated toward zero and reports success. On every failure the
      result location keeps its old value, and no division is performed. */
  method Divide(a: int32, b: int32, result: Int32Cell?) returns (e: ErrorCode)
    modifies result
    ensures result == null ==> e == ErrorNullPointer
    ensures result != null ==> e == DivideOutcome(a, b).0
    ensures result != null && e == ErrorNone ==> result.value == DivideOutcome(a, b).1
    ensures result != null && e != ErrorNone ==> result.value == old(result.value)
  {
    if result == null {
      return ErrorNullPointer;
    }
    if b == 0 {
      return ErrorDivisionByZero;
    }
    if a == MinInt32 && b == -1 {
      return ErrorInvalidParameter;
    }
    TruncDivInRange(a, b);
    result.value := TruncDiv(a as int, b as int) as int32;
    e := ErrorNone;
  }

  /** A caller relying on the contracts alone: the outcomes of a few
      calls are determined by them. */
  method Examples() {
    var cell := new Int32Cell(7);
    var e := Divide(10, 2, cell);
    assert e == ErrorNone && cell.value == 5 by {
      TruncQuotientUnique(10, 2, 5);
    }
    // Truncation toward zero: -7 / 2 is -3 in C, where Dafny's Euclidean
    // division gives -4.
    e := Divide(-7, 2, cell);
    assert -7 / 2 == -4;
    assert e == ErrorNone && cell.value == -3 by {
      TruncQuotientUnique(-7, 2, -3);
    }
    e := Divide(7, 0, cell);
    assert e == ErrorDivisionByZero && cell.value == -3;
    e := Divide(MinInt32, -1, cell);
    assert e == ErrorInvalidParameter && cell.value == -3;
    e := Sum(5, -3, cell);
    assert e == ErrorNone && cell.value == 2;
    e := Sum(MaxInt32, 1, null);
    assert e == ErrorNullPointer;
    e := Divide(1, 0, null);
    assert e == ErrorNullPointer;
  }
}
