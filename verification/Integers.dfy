/** Go's 64-bit signed integers, and the instants that `time.Unix` makes of them. */
module Integers {

  const INT64_MAX: int := 0x7FFF_FFFF_FFFF_FFFF
  const INT64_MIN: int := -0x8000_0000_0000_0000

  type int64 = x: int | INT64_MIN <= x <= INT64_MAX

  /** The value an `int64` expression ends up with when its true value is `n`. */
  function Wrap64(n: int): int64 {
    (n - INT64_MIN) % (INT64_MAX - INT64_MIN + 1) + INT64_MIN
  }

  /** The nearest `int64`, as `time.Time.Sub` returns it. */
  function Saturate64(n: int): int64 {
    if n > INT64_MAX then INT64_MAX else if n < INT64_MIN then INT64_MIN else n
  }

  /** In nanoseconds. */
  const SECOND: int := 1_000_000_000

  /** Seconds from the beginning of year 1 to the Unix epoch. */
  const EPOCH: int := 62_135_596_800

  /** The largest timestamp that `time.Unix` does not wrap into the far past. */
  const LAST_TIMESTAMP: int := INT64_MAX - EPOCH

  /** `time.Unix(seconds, 0)`, which counts from year 1 in an `int64`, as nanoseconds from the Unix epoch. */
  function UnixInstant(seconds: int64): int {
    (Wrap64(seconds + EPOCH) - EPOCH) * SECOND
  }

  lemma UnixInstantExactly(seconds: int64)
    ensures UnixInstant(seconds) == seconds * SECOND <==> seconds <= LAST_TIMESTAMP
  {
  }

  /** The only `int64` that differs from `n` by a multiple of 2^64. */
  lemma WrapExactly(n: int, r: int64)
    ensures Wrap64(n) == r <==> (n - r) % 0x1_0000_0000_0000_0000 == 0
  {
    var m := 0x1_0000_0000_0000_0000;
    assert n == (n - INT64_MIN) / m * m + Wrap64(n);
    if (n - r) % m == 0 {
      var q, q' := (n - r) / m, (n - INT64_MIN) / m;
      assert q * m + r == q' * m + Wrap64(n);
      assert (q - q') * m == Wrap64(n) - r;
    }
  }

  /** No `int64` is nearer. */
  lemma SaturateExactly(n: int, r: int64)
    ensures INT64_MIN <= n <= INT64_MAX ==> Saturate64(n) == n
    ensures n > INT64_MAX ==> r <= Saturate64(n)
    ensures n < INT64_MIN ==> Saturate64(n) <= r
  {
  }
}
