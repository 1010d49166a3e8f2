/** Bitwise operations on natural numbers, bit by bit. */
module BitOps {
  import opened Numbers

  function Pow(n: nat): (p: nat)
    ensures p > 0
  {
    if n == 0 then 1 else 2 * Pow(n - 1)
  }

  function XorBits(a: nat, b: nat, n: nat): nat
  {
    if n == 0 then 0 else (a % 2 + b % 2) % 2 + 2 * XorBits(a / 2, b / 2, n - 1)
  }

  function OrBits(a: nat, b: nat, n: nat): nat
  {
    if n == 0 then 0 else (if a % 2 == 1 || b % 2 == 1 then 1 else 0) + 2 * OrBits(a / 2, b / 2, n - 1)
  }

  lemma {:induction false} XorBelow(a: nat, b: nat, n: nat)
    ensures XorBits(a, b, n) < Pow(n)
    ensures OrBits(a, b, n) < Pow(n)
  {
    if n > 0 { XorBelow(a / 2, b / 2, n - 1); }
  }

  lemma {:induction false} XorZero(a: nat, n: nat)
    requires a < Pow(n)
    ensures XorBits(a, 0, n) == XorBits(0, a, n) == a
  {
    if n > 0 { XorZero(a / 2, n - 1); }
  }

  lemma LowBitAndRest(a: nat, b: nat, n: nat)
    requires n > 0
    ensures XorBits(a, b, n) % 2 == (a % 2 + b % 2) % 2 && XorBits(a, b, n) / 2 == XorBits(a / 2, b / 2, n - 1)
  {
  }

  lemma {:induction false} XorInjective(a: nat, a': nat, b: nat, n: nat)
    requires a < Pow(n) && a' < Pow(n) && XorBits(a, b, n) == XorBits(a', b, n)
    ensures a == a'
  {
    if n > 0 {
      LowBitAndRest(a, b, n);
      LowBitAndRest(a', b, n);
      XorInjective(a / 2, a' / 2, b / 2, n - 1);
    }
  }

  /** An or is zero in its low six bits only if both operands are. */
  lemma OrZero(a: nat, b: nat)
    requires OrBits(a, b, 8) % 64 == 0
    ensures b % 64 == 0
  {
    OrZeroBits(a, b, 8, 6);
    assert Pow(6) == 64;
  }

  lemma {:induction false} OrZeroBits(a: nat, b: nat, n: nat, k: nat)
    requires k <= n && OrBits(a, b, n) % Pow(k) == 0
    ensures b % Pow(k) == 0
  {
    if k > 0 {
      var o := OrBits(a / 2, b / 2, n - 1);
      HalfMod(OrBits(a, b, n), Pow(k - 1));
      OrZeroBits(a / 2, b / 2, n - 1, k - 1);
      HalfMod(b, Pow(k - 1));
    }
  }

  lemma HalfMod(x: nat, p: nat)
    requires p > 0
    ensures x % (2 * p) == 0 <==> x % 2 == 0 && (x / 2) % p == 0
  {
    if x % (2 * p) == 0 {
      var q := x / (2 * p);
      assert x == 2 * p * q;
      assert x == 2 * (p * q);
      assert x / 2 == p * q;
      MultipleMod(p, q);
    }
    if x % 2 == 0 && (x / 2) % p == 0 {
      var q := (x / 2) / p;
      assert x / 2 == p * q;
      assert x == 2 * p * q;
      MultipleMod(2 * p, q);
    }
  }

  lemma MultipleMod(p: nat, q: nat)
    requires p > 0
    ensures (p * q) % p == 0
  {
    var d, r := (p * q) / p, (p * q) % p;
    assert p * q == p * d + r;
    MulDistributes(p, q, d);
    if q > d {
      MulAtLeast(p, q - d);
    } else if q < d {
      MulAtLeast(p, d - q);
    }
  }

  /** Applying the same mask twice changes nothing. */
  lemma {:induction false} XorTwice(a: nat, b: nat, n: nat)
    requires a < Pow(n)
    ensures XorBits(XorBits(a, b, n), b, n) == a
  {
    if n > 0 {
      LowBitAndRest(a, b, n);
      XorTwice(a / 2, b / 2, n - 1);
    }
  }

  // ---------- one bit ----------

  function BitAt(v: nat, k: nat): nat
  {
    if k == 0 then v % 2 else BitAt(v / 2, k - 1)
  }

  /** Bit by bit, within the width. */
  lemma {:induction false} XorAt(a: nat, b: nat, n: nat, k: nat)
    ensures BitAt(XorBits(a, b, n), k) == if k < n then (BitAt(a, k) + BitAt(b, k)) % 2 else 0
  {
    if n == 0 {
      BitOfZero(k);
    } else {
      LowBitAndRest(a, b, n);
      if k > 0 { XorAt(a / 2, b / 2, n - 1, k - 1); }
    }
  }

  lemma {:induction false} OrAt(a: nat, b: nat, n: nat, k: nat)
    ensures BitAt(OrBits(a, b, n), k) == if k < n && (BitAt(a, k) == 1 || BitAt(b, k) == 1) then 1 else 0
  {
    if n == 0 {
      BitOfZero(k);
    } else if k > 0 {
      OrAt(a / 2, b / 2, n - 1, k - 1);
    }
  }

  lemma {:induction false} BitOfZero(k: nat)
    ensures BitAt(0, k) == 0
  {
    if k > 0 { BitOfZero(k - 1); }
  }

  /** The value with bit `bit` inverted. */
  function FlipBit(v: nat, bit: nat): nat
  {
    if bit == 0 then (if v % 2 == 0 then v + 1 else v - 1) else v % 2 + 2 * FlipBit(v / 2, bit - 1)
  }

  lemma FlipBitParts(v: nat, bit: nat)
    ensures FlipBit(v, bit) % 2 == if bit == 0 then 1 - v % 2 else v % 2
    ensures FlipBit(v, bit) / 2 == if bit == 0 then v / 2 else FlipBit(v / 2, bit - 1)
  {
  }

  /** Exactly that bit differs. */
  lemma {:induction false} FlipBitAt(v: nat, bit: nat, k: nat)
    ensures BitAt(FlipBit(v, bit), k) == if k == bit then 1 - BitAt(v, k) else BitAt(v, k)
  {
    hide FlipBit;
    FlipBitParts(v, bit);
    if k > 0 && bit > 0 { FlipBitAt(v / 2, bit - 1, k - 1); }
  }

  lemma {:induction false} FlipBitTwice(v: nat, bit: nat)
    ensures FlipBit(FlipBit(v, bit), bit) == v
  {
    if bit > 0 { FlipBitTwice(v / 2, bit - 1); }
  }

  lemma PowHalves(n: nat)
    requires n > 0
    ensures Pow(n) % 2 == 0 && Pow(n) / 2 == Pow(n - 1)
  {
  }

  lemma SameParts(a: nat, b: nat)
    requires a % 2 == b % 2 && a / 2 == b / 2
    ensures a == b
  {
  }

  /** An exclusive or with a one shifted to the left is such a flip, and stays within the width. */
  lemma {:induction false} XorMask(v: nat, bit: nat, n: nat)
    requires v < Pow(n) && bit < n
    ensures XorBits(v, Pow(bit), n) == FlipBit(v, bit) < Pow(n)
  {
    hide XorBits, FlipBit, Pow;
    var mask := Pow(bit);
    PowHalves(n);
    XorBelow(v, mask, n);
    LowBitAndRest(v, mask, n);
    FlipBitParts(v, bit);
    if bit == 0 {
      XorLowest(v, n);
    } else {
      XorMask(v / 2, bit - 1, n - 1);
      PowHalves(bit);
    }
    SameParts(XorBits(v, mask, n), FlipBit(v, bit));
  }

  lemma XorLowest(v: nat, n: nat)
    requires 0 < n && v < Pow(n)
    ensures Pow(0) == 1 && XorBits(v / 2, 0, n - 1) == v / 2
  {
    hide XorBits;
    XorZero(v / 2, n - 1);
  }
}
