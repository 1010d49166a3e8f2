/**
 The 16-bit CRC of core_util.c.  The specification is a shift register of sixteen bits; the
 methods at the end work on machine words, as the C functions do, and are proved against it.
 */
module Crc {

  /** The register, bit 0 (the low bit of the C variable) first. */
  type Reg = r: seq<bool> | |r| == 16 witness seq(16, _ => false)

  /** The taps of 0xA001, the reflected form of x^16 + x^15 + x^2 + 1. */
  predicate Tap(i: int) { i == 0 || i == 13 || i == 15 }

  /** One shift: the bit that falls out at the low end, combined with `b`, feeds the taps. */
  function Step(r: Reg, b: bool): (s: Reg)
    ensures s[15] == (r[0] != b) && s[13] == (r[14] != (r[0] != b)) && s[0] == (r[1] != (r[0] != b))
    ensures forall i :: 0 < i < 15 && i != 13 ==> s[i] == r[i + 1]
  {
    seq(16, i requires 0 <= i < 16 => (i < 15 && r[i + 1]) != ((r[0] != b) && Tap(i)))
  }

  /** The register after a whole message, first bit first. */
  function Fold(r: Reg, m: seq<bool>): Reg
    decreases m
  {
    if m == [] then r else Fold(Step(r, m[0]), m[1..])
  }

  /** The low `n` bits of a byte, least significant first. */
  function LowBits(d: bv8, n: nat): (m: seq<bool>)
    ensures |m| == n
  {
    if n == 0 then [] else [d & 1 == 1] + LowBits(d >> 1, n - 1)
  }

  function BitsOf(d: bv8): (m: seq<bool>)
    ensures |m| == 8
  {
    LowBits(d, 8)
  }

  /** The bits of a message in the order in which the CRC takes them. */
  function Bits(bytes: seq<bv8>): (m: seq<bool>)
    ensures |m| == 8 * |bytes|
  {
    if bytes == [] then [] else BitsOf(bytes[0]) + Bits(bytes[1..])
  }

  function Low(v: bv16): bv8 { (v & 0xff) as bv8 }

  function High(v: bv16): bv8 { (v >> 8) as bv8 }

  function LowWord(v: bv32): bv16 { (v & 0xffff) as bv16 }

  function HighWord(v: bv32): bv16 { (v >> 16) as bv16 }

  // ---------- machine words and registers ----------

  function Bit(c: bv16, i: nat): bool
    requires i < 16
  {
    (c >> i) & 1 == 1
  }

  function RegOf(c: bv16): Reg
  {
    seq(16, i requires 0 <= i < 16 => Bit(c, i))
  }

  lemma SameBits(c: bv16, d: bv16)
    requires Bit(c, 0) == Bit(d, 0) && Bit(c, 1) == Bit(d, 1) && Bit(c, 2) == Bit(d, 2) && Bit(c, 3) == Bit(d, 3)
    requires Bit(c, 4) == Bit(d, 4) && Bit(c, 5) == Bit(d, 5) && Bit(c, 6) == Bit(d, 6) && Bit(c, 7) == Bit(d, 7)
    requires Bit(c, 8) == Bit(d, 8) && Bit(c, 9) == Bit(d, 9) && Bit(c, 10) == Bit(d, 10) && Bit(c, 11) == Bit(d, 11)
    requires Bit(c, 12) == Bit(d, 12) && Bit(c, 13) == Bit(d, 13) && Bit(c, 14) == Bit(d, 14)
    requires Bit(c, 15) == Bit(d, 15)
    ensures c == d
  {
  }

  lemma RegOfInjective(c: bv16, d: bv16)
    requires RegOf(c) == RegOf(d)
    ensures c == d
  {
    forall i: nat | i < 16 ensures Bit(c, i) == Bit(d, i) {
      assert RegOf(c)[i] == RegOf(d)[i];
    }
    SameBits(c, d);
  }

  lemma ShiftedBit(c: bv16, i: nat)
    requires i < 16
    ensures Bit(c >> 1, i) == (i < 15 && Bit(c, i + 1))
  {
    if i == 0 {} else if i == 1 {} else if i == 2 {} else if i == 3 {}
    else if i == 4 {} else if i == 5 {} else if i == 6 {} else if i == 7 {}
    else if i == 8 {} else if i == 9 {} else if i == 10 {} else if i == 11 {}
    else if i == 12 {} else if i == 13 {} else if i == 14 {} else {}
  }

  /** What the C code leaves in bit `i` when the carry is set, and when it is not. */
  lemma CarryBit(c: bv16, i: nat)
    requires i < 16
    ensures Bit(((c ^ 0x4002) >> 1) | 0x8000, i) == (Bit(c >> 1, i) != Tap(i))
    ensures Bit((c >> 1) & 0x7fff, i) == Bit(c >> 1, i)
  {
    if i == 0 {} else if i == 1 {} else if i == 2 {} else if i == 3 {}
    else if i == 4 {} else if i == 5 {} else if i == 6 {} else if i == 7 {}
    else if i == 8 {} else if i == 9 {} else if i == 10 {} else if i == 11 {}
    else if i == 12 {} else if i == 13 {} else if i == 14 {} else {}
  }

  /** One round of the loop of Crcu8, once the low bits of data and register have been combined. */
  method Round(x16: bool, crc0: bv16, ghost b: bool) returns (crc: bv16)
    requires x16 == (b != (crc0 & 1 == 1))
    ensures RegOf(crc) == Step(RegOf(crc0), b)
  {
    crc := crc0;
    var carry;
    if x16 {
      crc := crc ^ 0x4002;
      carry := true;
    } else {
      carry := false;
    }
    crc := crc >> 1;
    if carry {
      crc := crc | 0x8000;
    } else {
      crc := crc & 0x7fff;
    }
    assert crc == if x16 then ((crc0 ^ 0x4002) >> 1) | 0x8000 else (crc0 >> 1) & 0x7fff;
    RoundIsStep(x16, crc0, crc, b);
  }

  lemma RoundIsStep(x16: bool, c: bv16, c': bv16, b: bool)
    requires x16 == (b != (c & 1 == 1))
    requires c' == if x16 then ((c ^ 0x4002) >> 1) | 0x8000 else (c >> 1) & 0x7fff
    ensures RegOf(c') == Step(RegOf(c), b)
  {
    var r := RegOf(c);
    assert r[0] == (c & 1 == 1) by { LowBit(c); }
    forall i | 0 <= i < 16 ensures RegOf(c')[i] == Step(r, b)[i] {
      CarryBit(c, i);
      ShiftedBit(c, i);
      assert i < 15 ==> r[i + 1] == Bit(c, i + 1);
    }
  }

  lemma LowBit(c: bv16)
    ensures Bit(c, 0) == (c & 1 == 1)
  {
  }

  method Crcu8(data: bv8, crc0: bv16) returns (crc: bv16)
    ensures RegOf(crc) == Fold(RegOf(crc0), BitsOf(data))
  {
    crc := crc0;
    var d := data;
    for i := 0 to 8
      invariant Fold(RegOf(crc), LowBits(d, 8 - i)) == Fold(RegOf(crc0), BitsOf(data))
    {
      var x16 := (d & 1 == 1) != (crc & 1 == 1);
      crc := Round(x16, crc, d & 1 == 1);
      d := d >> 1;
    }
  }

  // ---------- words: the low byte goes first, so a word is fed in bit order ----------

  lemma {:induction false} LowBitsAt(d: bv8, n: nat, i: nat)
    requires i < n <= 8
    ensures LowBits(d, n)[i] == ((d >> i) & 1 == 1)
    decreases n
  {
    if i == 0 {
      assert d >> 0 == d;
    } else {
      LowBitsAt(d >> 1, n - 1, i - 1);
      ShiftTwice(d, i - 1);
    }
  }

  lemma ShiftTwice(d: bv8, i: nat)
    requires i < 7
    ensures (d >> 1) >> i == d >> (i + 1)
  {
    if i == 0 {} else if i == 1 {} else if i == 2 {} else if i == 3 {}
    else if i == 4 {} else if i == 5 {} else {}
  }

  lemma HalfBit(v: bv16, i: nat)
    requires i < 8
    ensures (Low(v) >> i) & 1 == 1 <==> Bit(v, i)
    ensures (High(v) >> i) & 1 == 1 <==> Bit(v, i + 8)
  {
    if i == 0 {} else if i == 1 {} else if i == 2 {} else if i == 3 {}
    else if i == 4 {} else if i == 5 {} else if i == 6 {} else {}
  }

  /** The two bytes of a word, low one first, carry the sixteen bits of the word in order. */
  lemma WordBits(v: bv16)
    ensures BitsOf(Low(v)) + BitsOf(High(v)) == RegOf(v)
  {
    var m := BitsOf(Low(v)) + BitsOf(High(v));
    forall i | 0 <= i < 16 ensures m[i] == RegOf(v)[i] {
      if i < 8 {
        LowBitsAt(Low(v), 8, i);
        HalfBit(v, i);
      } else {
        LowBitsAt(High(v), 8, i - 8);
        HalfBit(v, i - 8);
      }
    }
  }

  lemma {:induction false} FoldConcat(r: Reg, m: seq<bool>, n: seq<bool>)
    ensures Fold(r, m + n) == Fold(Fold(r, m), n)
    decreases m
  {
    if m == [] {
      assert m + n == n;
    } else {
      assert (m + n)[1..] == m[1..] + n;
      FoldConcat(Step(r, m[0]), m[1..], n);
    }
  }

  method Crcu16(newval: bv16, crc0: bv16) returns (crc: bv16)
    ensures RegOf(crc) == Fold(RegOf(crc0), RegOf(newval))
  {
    crc := Crcu8(Low(newval), crc0);
    crc := Crcu8(High(newval), crc);
    WordBits(newval);
    FoldConcat(RegOf(crc0), BitsOf(Low(newval)), BitsOf(High(newval)));
  }

  lemma DwordHalves(v: bv32, i: nat)
    requires i < 16
    ensures Bit(LowWord(v), i) <==> (v >> i) & 1 == 1
    ensures Bit(HighWord(v), i) <==> (v >> (i + 16)) & 1 == 1
  {
    if i == 0 {} else if i == 1 {} else if i == 2 {} else if i == 3 {}
    else if i == 4 {} else if i == 5 {} else if i == 6 {} else if i == 7 {}
    else if i == 8 {} else if i == 9 {} else if i == 10 {} else if i == 11 {}
    else if i == 12 {} else if i == 13 {} else if i == 14 {} else {}
  }

  predicate DwordBit(v: bv32, i: nat)
    requires i < 32
  {
    (v >> i) & 1 == 1
  }

  /** The 32 bits of a double word, least significant first. */
  function DwordBits(v: bv32): (m: seq<bool>)
    ensures |m| == 32 && forall i :: 0 <= i < 32 ==> (m[i] <==> (v >> i) & 1 == 1)
  {
    seq(32, i requires 0 <= i < 32 => DwordBit(v, i))
  }

  lemma DwordIsWords(v: bv32)
    ensures DwordBits(v) == RegOf(LowWord(v)) + RegOf(HighWord(v))
  {
    hide LowWord, HighWord;
    var m := RegOf(LowWord(v)) + RegOf(HighWord(v));
    forall i | 0 <= i < 32 ensures m[i] == DwordBits(v)[i] {
      DwordHalves(v, if i < 16 then i else i - 16);
    }
  }

  method Crcu32(newval: bv32, crc0: bv16) returns (crc: bv16)
    ensures RegOf(crc) == Fold(RegOf(crc0), DwordBits(newval))
  {
    hide RegOf, Fold, LowWord, HighWord, DwordBits;
    crc := Crcu16(LowWord(newval), crc0);
    crc := Crcu16(HighWord(newval), crc);
    DwordIsWords(newval);
    FoldConcat(RegOf(crc0), RegOf(LowWord(newval)), RegOf(HighWord(newval)));
  }

  // ---------- whole messages ----------

  lemma {:induction false} BitsConcat(a: seq<bv8>, b: seq<bv8>)
    ensures Bits(a + b) == Bits(a) + Bits(b)
    decreases a
  {
    if a == [] {
      assert a + b == b;
    } else {
      assert (a + b)[1..] == a[1..] + b;
      BitsConcat(a[1..], b);
    }
  }

  lemma BitsOfOne(d: bv8)
    ensures Bits([d]) == BitsOf(d)
  {
    assert [d][1..] == [];
    assert Bits([]) == [];
  }

  /** A chain of calls, each of which goes on with the result of the one before, folds the bits of all their bytes. */
  method CrcOfBytes(bytes: seq<bv8>, crc0: bv16) returns (crc: bv16)
    ensures RegOf(crc) == Fold(RegOf(crc0), Bits(bytes))
  {
    hide RegOf, BitsOf, Step, Fold, Bits;
    crc := crc0;
    NoBits(RegOf(crc0));
    for i := 0 to |bytes|
      invariant RegOf(crc) == Fold(RegOf(crc0), Bits(bytes[..i]))
    {
      crc := Crcu8(bytes[i], crc);
      assert bytes[..i + 1] == bytes[..i] + [bytes[i]];
      BitsConcat(bytes[..i], [bytes[i]]);
      BitsOfOne(bytes[i]);
      FoldConcat(RegOf(crc0), Bits(bytes[..i]), BitsOf(bytes[i]));
    }
    assert bytes[..|bytes|] == bytes;
  }

  lemma NoBits(r: Reg)
    ensures Fold(r, Bits([])) == r
  {
  }

  predicate ByteBit(d: bv8, i: nat)
    requires i < 8
  {
    (d >> i) & 1 == 1
  }

  lemma SameByte(c: bv8, d: bv8)
    requires ByteBit(c, 0) == ByteBit(d, 0) && ByteBit(c, 1) == ByteBit(d, 1) && ByteBit(c, 2) == ByteBit(d, 2)
    requires ByteBit(c, 3) == ByteBit(d, 3) && ByteBit(c, 4) == ByteBit(d, 4) && ByteBit(c, 5) == ByteBit(d, 5)
    requires ByteBit(c, 6) == ByteBit(d, 6) && ByteBit(c, 7) == ByteBit(d, 7)
    ensures c == d
  {
  }

  lemma BitsOfInjective(c: bv8, d: bv8)
    requires BitsOf(c) == BitsOf(d)
    ensures c == d
  {
    forall i: nat | i < 8 ensures ByteBit(c, i) == ByteBit(d, i) {
      LowBitsAt(c, 8, i);
      LowBitsAt(d, 8, i);
    }
    SameByte(c, d);
  }

  lemma {:induction false} BitsInjective(a: seq<bv8>, b: seq<bv8>)
    requires |a| == |b| && Bits(a) == Bits(b)
    ensures a == b
    decreases a
  {
    hide BitsOf;
    if a != [] {
      assert Bits(a)[..8] == BitsOf(a[0]) && Bits(a)[8..] == Bits(a[1..]);
      assert Bits(b)[..8] == BitsOf(b[0]) && Bits(b)[8..] == Bits(b[1..]);
      BitsOfInjective(a[0], b[0]);
      BitsInjective(a[1..], b[1..]);
    }
  }
}
