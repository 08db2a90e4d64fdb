# Checked and unchecked 32-bit arithmetic of the C style template

The repository is a C style template whose only behaviour is a small module
of `int32_t` arithmetic. This project models it in Dafny:

- `template.c` defines three unchecked operations: `sum_two_numbers`,
  `subtract_two_numbers` and `find_maximum`. They are modelled as pure
  functions in module `Template` (`template.dfy`).
- `template.h` declares the `error_code_t` enumeration and two checked
  operations, `sum` and `divide`. Each returns a status code and writes its
  value through an `int32_t* result` out-parameter. Module `TemplateHeader`
  (`template_header.dfy`) models the enumeration as a datatype whose integer
  values come from its declaration by C's rule for enumerators (section
  6.7.2.2 of ISO/IEC 9899:2011), and the
  pointer as a nullable `Int32Cell` object. `Sum` and `Divide` are methods
  that may modify only that cell.
- Module `CInt` (`c_int.dfy`) gives the C semantics both modules rely on.
  `int32_t` is a newtype over the exact range [-2^31, 2^31-1]. `TruncDiv` is
  the quotient of C's `/`, which truncates toward zero (section 6.5.5 of
  ISO/IEC 9899:2011). Dafny's own `/` is Euclidean, so the two differ for
  negative operands.

Signed overflow is undefined behaviour in C. The model never wraps:
- `sum_two_numbers`, `subtract_two_numbers` and `sum` (with a non-null
  result) require that the exact result fits in `int32_t`;
- `divide(INT32_MIN, -1, result)` is reported as `ERROR_INVALID_PARAMETER`,
  one of the "other error codes for invalid parameters" the header allows.

The header only declares `sum` and `divide`, with no bodies. Their bodies
here follow the doc comments and fix the points the comments leave open:
- the null check comes first, so a null result is reported for every pair of
  operands;
- `divide` checks the divisor for zero before dividing;
- on every failure the result location keeps its old value.

## Model

| member | source | states |
|---|---|---|
| `CInt.TruncDivIsTruncQuotient` | template.h:65-77 | The quotient `divide` stores is the algebraic quotient with the fraction discarded: `a - q*b` is smaller than `b` in magnitude and is zero or has the sign of `a`; also `abs(q)*abs(b) <= abs(a)` |
| `CInt.TruncQuotientUnique` | template.h:65-77 | A quotient meets C's truncation rule if and only if it equals `TruncDiv(a, b)` (both directions) |
| `CInt.TruncDivInRange` | template.h:70-71 | The exact quotient of two `int32_t` values with `b != 0` fits in `int32_t` if and only if the case is not `INT32_MIN / -1` |
| `Template.SumTwoNumbers` | template.c:49-61 | `sum_two_numbers` returns the exact sum `a + b` whenever that sum fits in `int32_t`; no overflow detection |
| `Template.SubtractTwoNumbers` | template.c:63-72 | `subtract_two_numbers` returns the exact difference `a - b` whenever it fits in `int32_t` |
| `Template.FindMaximum` | template.c:74-87 | `find_maximum` is total; its result is at least `a` and at least `b`, is one of the two arguments, and is `a` on a tie |
| `Template.SumCommutes` | template.c:58-61 | Sum is commutative, and its precondition holds for `(b, a)` when it holds for `(a, b)` |
| `Template.SubtractUndoesSum` | template.c:58-72 | Subtracting `b` from `sum_two_numbers(a, b)` is defined and gives back `a` |
| `Template.SumUndoesSubtract` | template.c:58-72 | Adding `b` to `subtract_two_numbers(a, b)` is defined and gives back `a` |
| `Template.SubtractSelfIsZero` | template.c:69-72 | `subtract_two_numbers(a, a)` is defined for every `a` and is 0 |
| `Template.SubtractAntisymmetric` | template.c:69-72 | When both differences fit, `subtract_two_numbers(a, b)` is the negation of `subtract_two_numbers(b, a)` |
| `Template.MaximumIsLeastUpperBound` | template.c:80-87 | Any value at least both arguments is at least `find_maximum(a, b)` |
| `Template.MaximumCommutes` | template.c:80-87 | `find_maximum(a, b)` and `find_maximum(b, a)` are the same value |
| `TemplateHeader.EnumValuesFrom` | template.h:47-52 | C's rule for enumerator values: an initializer gives its value; an enumerator without one gets the previous value plus one, or the starting value if it comes first; one value per enumerator |
| `TemplateHeader.ImplicitValuesCountUp` | template.h:48-51 | Enumerators without initializers following one another get consecutive values |
| `TemplateHeader.ErrorCodeValues` | template.h:47-52 | The declaration `ERROR_NONE = 0` followed by three enumerators without initializers gives the values 0, 1, 2, 3 in declaration order |
| `TemplateHeader.Value` | template.h:43-52 | `error_code_t` values lie in 0..3 and only `ERROR_NONE` is 0, so any non-zero code means failure |
| `TemplateHeader.FromValue` | template.h:47-52 | Every value in 0..3 is the value of some enumerator |
| `TemplateHeader.ValueInjective` | template.h:47-52 | Two enumerators have the same value if and only if they are the same enumerator |
| `TemplateHeader.FromValueRoundTrip` | template.h:47-52 | Reading an enumerator back from its value gives the enumerator (values 0, 1, 2, 3 in declaration order) |
| `TemplateHeader.DivideOutcome` | template.h:65-77 | For a valid result location, `divide` succeeds if and only if `b != 0` and the case is not `INT32_MIN / -1`; a zero divisor gives `ERROR_DIVISION_BY_ZERO`; the other failure is `ERROR_INVALID_PARAMETER`; on success the value is C's truncated quotient |
| `TemplateHeader.Sum` | template.h:54-63 | A null result gives `ERROR_NULL_POINTER`; otherwise `sum` returns `ERROR_NONE` and the result location holds the exact `a + b`; nothing but that location may change |
| `TemplateHeader.Divide` | template.h:65-77 | A null result gives `ERROR_NULL_POINTER` for every `a`, `b`; otherwise the status is `DivideOutcome`'s; on success the location holds the truncated quotient, on failure it keeps its old value; nothing else may change |

## Left out

- The licence banners, doc-comment layout, include guards and `extern "C"` wrappers (template.c:1-47, template.h:1-41, 79-83): packaging, with no behaviour.
- The include of `template_compliant.h` in template.c, and the header not declaring the three template.c functions: build issues with nothing to verify.
- `Template.SumTwoNumbers`: does not model overflow, because C leaves signed overflow undefined; operands whose exact sum leaves `int32_t` are excluded by precondition, not wrapped.
- `Template.SubtractTwoNumbers`: does not model overflow, for the same reason as `SumTwoNumbers`.
- `TemplateHeader.Sum`: does not detect overflow, because the header promises no such check; a caller passing a result location must pass operands whose sum fits.
- Concurrency and reentrancy: the module has no shared state, and every call already depends only on its arguments and the result location.
