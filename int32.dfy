/** The source's 32-bit signed integer type. */
module Int32 {
  newtype i32 = x: int | -0x8000_0000 <= x < 0x8000_0000

  /** The integers of the half-open range `0..n`, as Rust's `Range` yields them. */
  function Range(n: int): set<int>
    decreases if n < 0 then 0 else n
  {
    if n <= 0 then {} else Range(n - 1) + {n - 1}
  }

  /** The range `0..n` holds exactly the integers from 0 up to, but not including, `n`. */
  lemma {:induction false} RangeMembers(n: int)
    ensures forall x :: x in Range(n) <==> 0 <= x < n
    decreases if n < 0 then 0 else n
  {
    if n > 0 {
      RangeMembers(n - 1);
    }
  }

  /**
   * The number of iterations of `for _ in 0..count`: as many as the range holds,
   * so none for a count that is not positive.
   */
  function Iterations(count: i32): (r: nat)
    ensures r == |Range(count as int)|
    ensures r < 0x8000_0000
  {
    RangeSize(count as int);
    if count < 0 then 0 else count as nat
  }

  /** The range `0..n` holds `n` integers, and none when `n` is not positive. */
  lemma {:induction false} RangeSize(n: int)
    ensures |Range(n)| == if n < 0 then 0 else n
    decreases if n < 0 then 0 else n
  {
    if n > 0 {
      RangeSize(n - 1);
      RangeMembers(n - 1);
      assert n - 1 !in Range(n - 1);
    }
  }
}
