/** Machine integers, and the arithmetic that several modules need. */
module Numbers {

  type u8 = x: int | 0 <= x < 256

  /** A 16-bit word, held as its unsigned bit pattern. */
  type u16 = x: int | 0 <= x < 0x1_0000

  type s16 = x: int | -0x8000 <= x < 0x8000

  type s32 = x: int | -0x8000_0000 <= x < 0x8000_0000

  /** Wrap-around to 16 and to 32 bits. */
  function Wrap16(x: int): s16 { (x + 0x8000) % 0x1_0000 - 0x8000 }

  function Wrap32(x: int): s32 { (x + 0x8000_0000) % 0x1_0000_0000 - 0x8000_0000 }

  /** They keep the low bits. */
  lemma WrapKeeps(x: int)
    ensures (Wrap16(x) - x) % 0x1_0000 == 0 && (Wrap32(x) - x) % 0x1_0000_0000 == 0
  {
  }

  /** The two's complement pattern of a 16-bit number. */
  function Unsigned(x: s16): u16 { x % 0x1_0000 }

  function Min(a: int, b: int): int { if a <= b then a else b }

  function Max(a: int, b: int): int { if a >= b then a else b }

  lemma MulMono(a: nat, b: nat, n: nat)
    requires a <= b
    ensures a * n <= b * n
  {
  }

  lemma MulAtLeast(p: nat, k: nat)
    requires k >= 1
    ensures p * k >= p
  {
  }

  lemma MulDistributes(p: nat, q: nat, d: nat)
    ensures p * (q - d) == p * q - p * d && p * (d - q) == p * d - p * q
  {
  }

  lemma DivModOf(q: nat, r: nat, n: nat)
    requires r < n
    ensures (q * n + r) / n == q && (q * n + r) % n == r
  {
    var d, m := (q * n + r) / n, (q * n + r) % n;
    assert q * n + r == d * n + m;
    if q < d {
      MulMono(q + 1, d, n);
    } else if d < q {
      MulMono(d + 1, q, n);
    }
  }
}
