/**
  C's `int`: 32 bits that wrap around.
 */
module Ints {

  const HIGH: int := 0x8000_0000
  const TWO32: int := 0x1_0000_0000
  const TWO64: int := 0x1_0000_0000_0000_0000

  /** A number as an `int`. */
  function ToInt(n: int): (i: int)
    ensures -HIGH <= i < HIGH
    ensures -HIGH <= n < HIGH <==> i == n
  {
    if n % TWO32 < HIGH then n % TWO32 else n % TWO32 - TWO32
  }

  lemma IntWraps(n: int, k: int)
    requires -HIGH <= n - k * TWO32 < HIGH
    ensures ToInt(n) == n - k * TWO32
  {
    var m := n - k * TWO32;
    if m >= 0 {
      assert n % TWO32 == m;
    } else {
      assert n == (k - 1) * TWO32 + (m + TWO32);
      assert n % TWO32 == m + TWO32;
    }
  }

  lemma IntIsLess(n: nat)
    ensures ToInt(n) <= n
  {
  }

  lemma IntShift(m: int, i: int)
    requires -HIGH <= ToInt(m) - i < HIGH
    ensures ToInt(m - i) == ToInt(m) - i
  {
    var k := (m - ToInt(m)) / TWO32;
    assert m - ToInt(m) == k * TWO32;
    IntWraps(m - i, k);
  }

  /** Adding to a wrapped number is adding to the number. */
  lemma IntAdds(m: int, i: int)
    ensures ToInt(ToInt(m) + i) == ToInt(m + i)
  {
    var k := (m - ToInt(m)) / TWO32;
    assert m - ToInt(m) == k * TWO32;
    var r := ToInt(m + i);
    var h := (m + i - r) / TWO32;
    assert m + i - r == h * TWO32;
    IntWraps(ToInt(m) + i, h - k);
  }

  /** Below 2^32 a number is itself or, from 2^31 on, 2^32 less. */
  lemma FitsInt(n: int)
    requires 0 <= n < TWO32
    ensures ToInt(n) == if n < HIGH then n else n - TWO32
  {
  }
}
