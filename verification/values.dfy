/** Nullable cells and error-carrying results.

    A cell that failed to parse, or a quotient whose divisor is zero, is
    represented explicitly as `None` instead of an implicit NaN sentinel.
    Sums treat `None` as zero; means and modes skip it.
 */
module Values {

  /** A value that may be missing (NaN / NaT in pandas). */
  datatype Option<+T> = None | Some(value: T)

  /** The outcome of an operation that can raise. */
  datatype Result<+R, +E> = Success(value: R) | Failure(error: E)

  /** The contribution of a cell to a sum: missing counts as zero. */
  function OrZero(x: Option<real>): real
  {
    if x.Some? then x.value else 0.0
  }

  /** Division of two nullable cells. The quotient is present exactly when
      both operands are present and the divisor is non-zero. */
  function Div(a: Option<real>, b: Option<real>): (r: Option<real>)
    ensures r.Some? <==> a.Some? && b.Some? && b.value != 0.0
    ensures r.Some? ==> r.value * b.value == a.value
  {
    if a.Some? && b.Some? && b.value != 0.0 then Some(a.value / b.value) else None
  }

  /** Multiplication of a nullable cell by a constant; missing stays missing. */
  function Scale(a: Option<real>, k: real): (r: Option<real>)
    ensures r.Some? <==> a.Some?
    ensures r.Some? ==> r.value == a.value * k
  {
    if a.Some? then Some(a.value * k) else None
  }

  /** `sub` lists some of the elements of `s`, in the order they occur there. */
  predicate IsSubsequence<T(==)>(sub: seq<T>, s: seq<T>)
  {
    if |sub| == 0 then true
    else if |s| == 0 then false
    else if sub[0] == s[0] then IsSubsequence(sub[1..], s[1..])
    else IsSubsequence(sub, s[1..])
  }
}
