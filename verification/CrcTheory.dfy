/** What the CRC of core_util.c guarantees about whole messages, of any length. */
module CrcTheory {
  import opened Crc

  function Xor(a: bool, b: bool): bool { a != b }

  function XorBits(m: seq<bool>, n: seq<bool>): (r: seq<bool>)
    requires |m| == |n|
    ensures |r| == |m|
  {
    seq(|m|, i requires 0 <= i < |m| => Xor(m[i], n[i]))
  }

  function Zeros(n: nat): (m: seq<bool>)
    ensures |m| == n
  {
    seq(n, _ => false)
  }

  // ---------- linearity ----------

  /** Adding two messages and their start values adds the checksums. */
  lemma {:induction false} FoldLinear(r: Reg, s: Reg, m: seq<bool>, n: seq<bool>)
    requires |m| == |n|
    ensures Fold(XorBits(r, s), XorBits(m, n)) == XorBits(Fold(r, m), Fold(s, n))
    decreases m
  {
    if m != [] {
      assert Step(XorBits(r, s), Xor(m[0], n[0])) == XorBits(Step(r, m[0]), Step(s, n[0]));
      assert XorBits(m, n)[1..] == XorBits(m[1..], n[1..]);
      FoldLinear(Step(r, m[0]), Step(s, n[0]), m[1..], n[1..]);
    }
  }

  // ---------- a bijection of the start value ----------

  /** Undoes one step: bit 15 of the register tells whether the taps were fed. */
  function Unstep(r: Reg, b: bool): Reg
  {
    seq(16, i requires 0 <= i < 16 => if i == 0 then Xor(r[15], b) else Xor(r[i - 1], r[15] && Tap(i - 1)))
  }

  function Unfold(r: Reg, m: seq<bool>): Reg
    decreases m
  {
    if m == [] then r else Unstep(Unfold(r, m[1..]), m[0])
  }

  lemma UnstepStep(r: Reg, b: bool)
    ensures Unstep(Step(r, b), b) == r
    ensures Step(Unstep(r, b), b) == r
  {
    var u := Unstep(r, b);
    assert u[0] == Xor(r[15], b);
    forall i | 0 <= i < 16 ensures Step(u, b)[i] == r[i] {
      assert i < 15 ==> u[i + 1] == Xor(r[i], r[15] && Tap(i));
    }
  }

  /** For a fixed message the checksum determines the start value, and takes every value. */
  lemma {:induction false} FoldBijective(r: Reg, m: seq<bool>)
    ensures Unfold(Fold(r, m), m) == r
    ensures Fold(Unfold(r, m), m) == r
    decreases m
  {
    if m != [] {
      UnstepStep(r, m[0]);
      FoldBijective(Step(r, m[0]), m[1..]);
      FoldBijective(r, m[1..]);
      UnstepStep(Unfold(r, m[1..]), m[0]);
    }
  }

  // ---------- burst errors ----------

  function Pad(m: seq<bool>): Reg
  {
    seq(16, i => 0 <= i < |m| && m[i])
  }

  /** Feeding at most sixteen bits is the same as adding them to the register and feeding zeros. */
  lemma {:induction false} WindowFeed(r: Reg, m: seq<bool>)
    requires |m| <= 16
    ensures Fold(r, m) == Fold(XorBits(r, Pad(m)), Zeros(|m|))
    decreases m
  {
    if m == [] {
      assert XorBits(r, Pad(m)) == r;
    } else {
      var n := m[1..];
      assert Zeros(|m|)[1..] == Zeros(|n|);
      assert Step(XorBits(r, Pad(m)), false) == XorBits(Step(r, m[0]), Pad(n));
      WindowFeed(Step(r, m[0]), n);
    }
  }

  /** The two messages agree outside the window from `a` to `b`. */
  predicate DifferWithin(m: seq<bool>, n: seq<bool>, a: nat, b: nat)
    requires a <= b <= |m| == |n|
  {
    m != n && m[..a] == n[..a] && m[b..] == n[b..]
  }

  lemma WindowsDiffer(r: Reg, m: seq<bool>, n: seq<bool>)
    requires |m| == |n| <= 16 && m != n
    ensures Fold(r, m) != Fold(r, n)
  {
    WindowFeed(r, m);
    WindowFeed(r, n);
    var u, v := XorBits(r, Pad(m)), XorBits(r, Pad(n));
    var i :| 0 <= i < |m| && m[i] != n[i];
    assert Pad(m)[i] != Pad(n)[i];
    assert u[i] != v[i];
    FoldBijective(u, Zeros(|m|));
    FoldBijective(v, Zeros(|m|));
  }

  /** Every error burst of at most sixteen bits, anywhere in a message of any length, is detected. */
  lemma BurstDetected(r: Reg, m: seq<bool>, n: seq<bool>, a: nat, b: nat)
    requires a <= b <= |m| == |n|
    requires b - a <= 16
    requires DifferWithin(m, n, a, b)
    ensures Fold(r, m) != Fold(r, n)
  {
    var s := Fold(r, m[..a]);
    assert m == m[..a] + (m[a..b] + m[b..]);
    assert n == n[..a] + (n[a..b] + n[b..]);
    FoldConcat(r, m[..a], m[a..b] + m[b..]);
    FoldConcat(r, n[..a], n[a..b] + n[b..]);
    FoldConcat(s, m[a..b], m[b..]);
    FoldConcat(s, n[a..b], n[b..]);
    WindowsDiffer(s, m[a..b], n[a..b]);
    FoldBijective(Fold(s, m[a..b]), m[b..]);
    FoldBijective(Fold(s, n[a..b]), m[b..]);
  }

  lemma DifferInTheMiddle(u: seq<bool>, v: seq<bool>, v': seq<bool>, w: seq<bool>)
    requires |v| == |v'| && v != v'
    ensures DifferWithin(u + (v + w), u + (v' + w), |u|, |u| + |v|)
  {
    var m, n := u + (v + w), u + (v' + w);
    assert m[|u|..|u| + |v|] == v && n[|u|..|u| + |v|] == v';
    assert m[|u| + |v|..] == w && n[|u| + |v|..] == w;
  }

  lemma AroundTwo<T>(a: seq<T>, k: nat)
    requires k + 2 <= |a|
    ensures a == a[..k] + (a[k..k + 2] + a[k + 2..])
  {
  }

  lemma BitsAroundTwo(a: seq<bv8>, k: nat)
    requires k + 2 <= |a|
    ensures Bits(a) == Bits(a[..k]) + (Bits(a[k..k + 2]) + Bits(a[k + 2..]))
  {
    hide *;
    AroundTwo(a, k);
    BitsConcat(a[..k], a[k..k + 2] + a[k + 2..]);
    BitsConcat(a[k..k + 2], a[k + 2..]);
  }

  /** So the CRCs of two messages of equal length that differ only in two neighbouring bytes, or in one, differ. */
  lemma BytesDetected(c0: bv16, a: seq<bv8>, b: seq<bv8>, k: nat, c: bv16, d: bv16)
    requires |a| == |b| && a != b && k + 2 <= |a| && a[..k] == b[..k] && a[k + 2..] == b[k + 2..]
    requires RegOf(c) == Fold(RegOf(c0), Bits(a)) && RegOf(d) == Fold(RegOf(c0), Bits(b))
    ensures c != d
  {
    hide *;
    AroundTwo(a, k);
    AroundTwo(b, k);
    var u, v, v', w := a[..k], a[k..k + 2], b[k..k + 2], a[k + 2..];
    if Bits(v) == Bits(v') {
      BitsInjective(v, v');
    }
    BitsAroundTwo(a, k);
    BitsAroundTwo(b, k);
    DifferInTheMiddle(Bits(u), Bits(v), Bits(v'), Bits(w));
    BurstDetected(RegOf(c0), Bits(a), Bits(b), |Bits(u)|, |Bits(u)| + 16);
  }

  // ---------- the remainder of polynomial division over GF(2) ----------

  /** The coefficient of x^i in a polynomial written highest coefficient first. */
  function Coef(p: seq<bool>, i: int): bool
  {
    0 <= i < |p| && p[|p| - 1 - i]
  }

  /** The register holds its polynomial reflected: bit 0 is the coefficient of x^15. */
  function RegCoef(r: Reg, i: int): bool
  {
    0 <= i < 16 && r[15 - i]
  }

  /** The coefficient of x^i in q(x) * (x^16 + x^15 + x^2 + 1). */
  function TimesG(q: seq<bool>, i: int): bool
  {
    Xor(Xor(Coef(q, i - 16), Coef(q, i - 15)), Xor(Coef(q, i - 2), Coef(q, i)))
  }

  /** The coefficient of x^i in m(x) * x^16 + r(x) * x^|m|. */
  function Dividend(r: Reg, m: seq<bool>, i: int): bool
  {
    Xor(Coef(m, i - 16), RegCoef(r, i - |m|))
  }

  /** q and s are a quotient and a remainder of the division of start value and message by the generator. */
  ghost predicate Divides(r: Reg, m: seq<bool>, q: seq<bool>, s: Reg)
  {
    forall i: int :: Dividend(r, m, i) == Xor(TimesG(q, i), RegCoef(s, i))
  }

  function Quotient(r: Reg, m: seq<bool>): (q: seq<bool>)
    ensures |q| == |m|
    decreases |m|
  {
    if m == [] then []
    else
      var k := |m| - 1;
      Quotient(r, m[..k]) + [Xor(Fold(r, m[..k])[0], m[k])]
  }

  lemma CoefAppend(p: seq<bool>, b: bool, i: int)
    ensures Coef(p + [b], i) == if i == 0 then b else Coef(p, i - 1)
  {
  }

  lemma StepCoef(r: Reg, b: bool, i: int)
    requires i != 16
    ensures RegCoef(Step(r, b), i) == Xor(RegCoef(r, i - 1), Xor(r[0], b) && (i == 0 || i == 2 || i == 15))
  {
  }

  /** One more bit of the message: what held for a coefficient holds for the next one. */
  lemma DividedOn(r: Reg, n: seq<bool>, b: bool, q: seq<bool>, s: Reg, i: int)
    requires Dividend(r, n, i - 1) == Xor(TimesG(q, i - 1), RegCoef(s, i - 1))
    ensures Dividend(r, n + [b], i) == Xor(TimesG(q + [Xor(s[0], b)], i), RegCoef(Step(s, b), i))
  {
    hide Step;
    var t := Xor(s[0], b);
    CoefAppend(n, b, i - 16);
    CoefAppend(q, t, i - 16);
    CoefAppend(q, t, i - 15);
    CoefAppend(q, t, i - 2);
    CoefAppend(q, t, i);
    if i != 16 { StepCoef(s, b, i); }
  }

  /** The checksum is the remainder of the division. */
  lemma {:induction false} FoldIsRemainder(r: Reg, m: seq<bool>)
    ensures Divides(r, m, Quotient(r, m), Fold(r, m))
    decreases |m|
  {
    if m == [] {
    } else {
      var k := |m| - 1;
      var n, b := m[..k], m[k];
      var s := Fold(r, n);
      var q, t := Quotient(r, n), Xor(s[0], b);
      FoldIsRemainder(r, n);
      assert m == n + [b];
      FoldConcat(r, n, [b]);
      assert Fold(r, m) == Step(s, b);
      forall i: int ensures Dividend(r, m, i) == Xor(TimesG(q + [t], i), RegCoef(Step(s, b), i)) {
        assert Dividend(r, n, i - 1) == Xor(TimesG(q, i - 1), RegCoef(s, i - 1));
        DividedOn(r, n, b, q, s, i);
      }
    }
  }

  lemma {:induction false} QuotientsAgree(r: Reg, m: seq<bool>, q: seq<bool>, s: Reg, q': seq<bool>, s': Reg, i: nat)
    requires Divides(r, m, q, s) && Divides(r, m, q', s')
    ensures Coef(q, i) == Coef(q', i)
    decreases |q| + |q'| - i
  {
    if i < |q| + |q'| {
      QuotientsAgree(r, m, q, s, q', s', i + 1);
      QuotientsAgree(r, m, q, s, q', s', i + 14);
      QuotientsAgree(r, m, q, s, q', s', i + 16);
      var k := i + 16;
      assert Dividend(r, m, k) == Xor(TimesG(q, k), RegCoef(s, k));
      assert Dividend(r, m, k) == Xor(TimesG(q', k), RegCoef(s', k));
    }
  }

  /** There is only one remainder, so the division alone fixes the checksum. */
  lemma RemainderUnique(r: Reg, m: seq<bool>, q: seq<bool>, s: Reg)
    requires Divides(r, m, q, s)
    ensures s == Fold(r, m)
  {
    FoldIsRemainder(r, m);
    var q', s' := Quotient(r, m), Fold(r, m);
    forall j | 0 <= j < 16 ensures s[j] == s'[j] {
      var i := 15 - j;
      QuotientsAgree(r, m, q, s, q', s', i);
      if i >= 2 { QuotientsAgree(r, m, q, s, q', s', i - 2); }
      if i >= 15 { QuotientsAgree(r, m, q, s, q', s', i - 15); }
      assert Dividend(r, m, i) == Xor(TimesG(q, i), RegCoef(s, i));
      assert Dividend(r, m, i) == Xor(TimesG(q', i), RegCoef(s', i));
    }
  }

  const ZERO: Reg := seq(16, _ => false)

  /** Two messages share a checksum exactly when the generator divides their difference. */
  lemma CollisionIffMultiple(r: Reg, m: seq<bool>, n: seq<bool>)
    requires |m| == |n|
    ensures Fold(r, m) == Fold(r, n) <==> exists q :: Divides(ZERO, XorBits(m, n), q, ZERO)
  {
    var d := XorBits(m, n);
    assert XorBits(r, r) == ZERO;
    FoldLinear(r, r, m, n);
    var x, y := Fold(r, m), Fold(r, n);
    assert XorBits(x, y) == ZERO <==> x == y by {
      if XorBits(x, y) == ZERO {
        forall i | 0 <= i < 16 ensures x[i] == y[i] {
          assert !XorBits(x, y)[i];
        }
      }
    }
    if x == y {
      FoldIsRemainder(ZERO, d);
    }
    forall q | Divides(ZERO, d, q, ZERO) ensures x == y {
      RemainderUnique(ZERO, d, q, ZERO);
    }
  }
}
