/** Machine words of the C sources, as bounded integers whose wrap-around is written out. */
module Words {

  const TWO8: int := 0x100
  const TWO16: int := 0x1_0000
  const TWO32: int := 0x1_0000_0000
  const TWO64: int := 0x1_0000_0000_0000_0000

  newtype u8 = x: int | 0 <= x < TWO8
  type u16 = x: int | 0 <= x < TWO16
  type u32 = x: int | 0 <= x < TWO32
  type u64 = x: int | 0 <= x < TWO64

  /** Conversion to uint16_t. */
  function Wrap16(x: int): u16 {
    x % TWO16
  }

  /** Conversion to uint32_t. */
  function Wrap32(x: int): u32 {
    x % TWO32
  }

  function Min(a: int, b: int): int {
    if a <= b then a else b
  }

  function Max(a: int, b: int): int {
    if a <= b then b else a
  }

  /** A positive multiple of d is at least d. */
  lemma MulAtLeast(k: int, d: int)
    requires 1 <= k && 0 <= d
    ensures k * d >= d
  {
    assert (k - 1) * d >= 0;
  }

  /** Uniqueness of quotient and remainder. */
  lemma DivModUnique(x: int, d: int, q: int, r: int)
    requires 0 <= r < d
    requires x == q * d + r
    ensures x / d == q && x % d == r
  {
    var q', r' := x / d, x % d;
    assert (q - q') * d == r' - r;
    if q' < q {
      MulAtLeast(q - q', d);
    } else if q < q' {
      assert (q' - q) * d == r - r';
      MulAtLeast(q' - q, d);
    }
  }

  /** A multiple of d added to x does not change the remainder. */
  lemma ModShift(x: int, k: int, d: int)
    requires 0 < d
    ensures (x + k * d) % d == x % d
  {
    DivModUnique(x + k * d, d, x / d + k, x % d);
  }

  /** Numbers with the same remainder that are less than d apart are equal. */
  lemma ModInjective(x: int, y: int, d: int)
    requires x <= y < x + d
    requires x % d == y % d
    ensures x == y
  {
    var k := y / d - x / d;
    assert y - x == k * d;
    if k >= 1 {
      MulAtLeast(k, d);
    } else if k <= -1 {
      MulAtLeast(-k, d);
    }
  }

  /** Wrapping an operand first does not change a wrapped difference. */
  lemma WrapOfWrap(x: int, y: int)
    ensures Wrap16(Wrap16(x) - y) == Wrap16(x - y)
    ensures Wrap16(y - Wrap16(x)) == Wrap16(y - x)
    ensures Wrap16(Wrap16(x) + y) == Wrap16(x + y)
  {
    var q := x / TWO16;
    ModShift(x - y, -q, TWO16);
    ModShift(y - x, q, TWO16);
    ModShift(x + y, -q, TWO16);
  }

  /** Rounding down to a multiple. */
  lemma RoundDown(s: int, a: int)
    requires 0 < a
    ensures (s - s % a) % a == 0 && s - s % a <= s < s - s % a + a
  {
    ModShift(0, s / a, a);
    assert s - s % a == s / a * a;
  }

  /** The quotient is the number of whole divisors. */
  lemma QuotientBounds(x: int, d: int)
    requires d > 0
    ensures x / d * d <= x < (x / d + 1) * d
  {
    assert x == x / d * d + x % d;
  }

  /** Different multiples of a are at least a apart. */
  lemma MultiplesApart(y: int, x: int, a: int)
    requires 0 < a && y % a == 0 && x % a == 0 && y < x
    ensures y + a <= x
  {
    var k := x / a - y / a;
    assert x - y == k * a;
    if k >= 1 {
      MulAtLeast(k, a);
    }
  }

  function Pow2(k: nat): (p: nat)
    ensures p >= 1
  {
    if k == 0 then 1 else 2 * Pow2(k - 1)
  }

  lemma {:induction false} Pow2Grows(n: nat, m: nat)
    requires n <= m
    ensures Pow2(n) <= Pow2(m)
  {
    if n < m {
      Pow2Grows(n, m - 1);
    }
  }

  /** A buffer after the bytes of d have been laid over it from a position on. */
  function Put(m: seq<u8>, at: nat, d: seq<u8>): (m': seq<u8>)
    requires at + |d| <= |m|
    ensures |m'| == |m|
  {
    m[..at] + d + m[at + |d|..]
  }
}
