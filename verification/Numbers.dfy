/** Numbers as the program's language has them. */
module Numbers {

  newtype byte = x: int | 0 <= x < 256

  const TWO63 := 0x8000_0000_0000_0000
  const TWO64 := 0x1_0000_0000_0000_0000

  predicate IsInt64(v: int) {
    -TWO63 <= v < TWO63
  }

  /** 64-bit addition: the sum wraps around. */
  function Add64(a: int, b: int): (r: int)
    requires IsInt64(a) && IsInt64(b)
    ensures IsInt64(r) && (IsInt64(a + b) ==> r == a + b)
    ensures a + b >= TWO63 ==> r == a + b - TWO64
    ensures a + b < -TWO63 ==> r == a + b + TWO64
  {
    (a + b + TWO63) % TWO64 - TWO63
  }

  /** n is x without its fraction. */
  predicate IsIntegerPart(x: real, n: int) {
    && (x >= 0.0 ==> n as real <= x < n as real + 1.0)
    && (x <= 0.0 ==> n as real - 1.0 < x <= n as real)
  }

  lemma IntegerPartIsUnique(x: real, m: int, n: int)
    requires IsIntegerPart(x, m) && IsIntegerPart(x, n)
    ensures m == n
  {
  }

  /** decimal.IntPart and Go's int() conversion: truncation toward zero. */
  function Trunc(x: real): (n: int)
    ensures IsIntegerPart(x, n)
  {
    if x >= 0.0 then x.Floor else -((-x).Floor)
  }
}
