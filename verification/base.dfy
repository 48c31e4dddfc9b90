/** Small shared vocabulary: an optional value and the C conversion of a
    floating-point value to an integer, which truncates toward zero. */
module Base {

  datatype Option<+T> = None | Some(value: T)

  function Abs(r: real): (a: real)
    ensures a >= 0.0
    ensures a == r || a == -r
  {
    if r < 0.0 then -r else r
  }

  /** `(int)f` in C and C++: drop the fractional part, rounding toward zero.
      Dafny's `Floor` rounds toward negative infinity, so negative values
      are handled by symmetry. */
  function Trunc(r: real): (t: int)
    ensures r >= 0.0 ==> 0 <= t && t as real <= r < t as real + 1.0
    ensures r <= 0.0 ==> t <= 0 && t as real - 1.0 < r <= t as real
  {
    if r >= 0.0 then r.Floor else -((-r).Floor)
  }

  /** `x` is a whole number. */
  predicate Whole(x: real) {
    x.Floor as real == x
  }

  /** Concatenation is associative; stated once so that proofs about
      sequences built by appending do not rediscover it. */
  lemma AppendAssoc<T>(a: seq<T>, b: seq<T>, c: seq<T>)
    ensures (a + b) + c == a + (b + c)
  {
  }
}
