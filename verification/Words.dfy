/** Bytes and machine words, and some arithmetic. */
module Words {

  function Min(a: int, b: int): int { if a < b then a else b }

  function Max(a: int, b: int): int { if a < b then b else a }

  type Byte = x: int | 0 <= x < 256

  type U16 = x: int | 0 <= x < 0x1_0000

  type U32 = x: int | 0 <= x < 0x1_0000_0000

  const TWO64 := 0x1_0000_0000_0000_0000

  type U64 = x: int | 0 <= x < TWO64

  /** An unsigned 64-bit difference. */
  function Minus(a: U64, b: U64): U64 {
    (a - b) % TWO64
  }

  lemma MinusFrom(a: U64, b: U64)
    requires b <= a
    ensures Minus(a, b) == a - b
  {
  }

  lemma Multiple(d: int, m: int)
    requires m > 0
    ensures d >= 1 ==> d * m >= m
    ensures d <= -1 ==> d * m <= -m
  {
  }

  /** The remainder is the one number below m that leaves a multiple of m. */
  lemma Remainder(a: int, m: int, q: int, r: int)
    requires m > 0 && a == q * m + r && 0 <= r < m
    ensures a % m == r
  {
    assert a == (a / m) * m + a % m;
    assert (a / m - q) * m == r - a % m;
    Multiple(a / m - q, m);
  }

  lemma DistinctRemainders(a: int, b: int, m: int)
    requires a < b < a + m
    ensures a % m != b % m
  {
    var q, p := a / m, b / m;
    assert a == q * m + a % m && b == p * m + b % m;
    assert (p - q) * m == p * m - q * m;
    Multiple(p - q, m);
  }
}
