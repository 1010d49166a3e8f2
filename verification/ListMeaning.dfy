/** The indices and data words of the list that is built, bit by bit. */
module ListMeaning {
  import opened Numbers
  import opened BitOps
  import opened ListCells
  import opened RunOrder
  import opened ListInit

  // ---------- bits of parts of a number ----------

  function Rest(x: nat, p: nat): (r: nat)
    requires p > 0
  {
    x / p
  }

  lemma {:induction false} BitOfRest(x: nat, n: nat, p: nat, k: nat)
    requires 0 < p == Pow(n)
    ensures BitAt(Rest(x, p), k) == BitAt(x, n + k)
  {
    if n > 0 {
      HalfThenRest(x, Pow(n - 1));
      BitOfRest(x / 2, n - 1, Pow(n - 1), k);
    }
  }

  lemma HalfThenRest(x: nat, p: nat)
    requires p > 0
    ensures x / (2 * p) == x / 2 / p
  {
    var q, r := x / 2 / p, x / 2 % p;
    assert x == 2 * (p * q + r) + x % 2;
    assert x == q * (2 * p) + (2 * r + x % 2);
    DivModOf(q, 2 * r + x % 2, 2 * p);
  }

  lemma {:induction false} BitOfPart(x: nat, n: nat, k: nat)
    requires k < n
    ensures BitAt(x % Pow(n), k) == BitAt(x, k)
  {
    HalfOfPart(x, Pow(n - 1));
    if k > 0 {
      BitOfPart(x / 2, n - 1, k - 1);
    }
  }

  lemma HalfOfPart(x: nat, p: nat)
    requires p > 0
    ensures x % (2 * p) % 2 == x % 2 && x % (2 * p) / 2 == x / 2 % p
  {
    var q, r := x / 2 / p, x / 2 % p;
    assert x == 2 * (p * q + r) + x % 2;
    assert x == q * (2 * p) + (2 * r + x % 2);
    DivModOf(q, 2 * r + x % 2, 2 * p);
  }

  // ---------- indices ----------

  /** The exclusive or of a position and the seed, bit by bit. */
  function MixedBit(seed: s16, i: nat, k: nat): int { (BitAt(i, k) + BitAt(Unsigned(seed), k)) % 2 }

  /** Bits 0 to 13 of a pseudo random index; bits 8 to 10 are joined with the low three bits of the next position. */
  lemma MixedBits(seed: s16, i: nat, k: nat)
    requires k < 14
    ensures BitAt(MixedIndex(seed, i), k)
            == if 8 <= k < 11 && BitAt(i + 1, k - 8) == 1 then 1 else MixedBit(seed, i, k)
  {
    hide XorBits, OrBits, MixedLow, MixedHigh, MixedIndex, BitAt;
    var x := MixedIndex(seed, i);
    assert Pow(8) == 256;
    if k < 8 {
      BitOfPart(x, 8, k);
      LowBitsMixed(seed, i, k);
    } else {
      BitOfRest(x, 8, 256, k - 8);
      HighBitsMixed(seed, i, k - 8);
    }
  }

  lemma LowBitsMixed(seed: s16, i: nat, k: nat)
    requires k < 8
    ensures BitAt(MixedLow(seed, i), k) == MixedBit(seed, i, k)
  {
    hide XorBits, OrBits, BitAt;
    assert Pow(8) == 256;
    XorAt(i % 256, Unsigned(seed) % 256, 8, k);
    BitOfPart(i, 8, k);
    BitOfPart(Unsigned(seed), 8, k);
  }

  lemma HighBitsMixed(seed: s16, i: nat, k: nat)
    requires k < 6
    ensures BitAt(MixedHigh(seed, i), k) == if k < 3 && BitAt(i + 1, k) == 1 then 1 else MixedBit(seed, i, 8 + k)
  {
    hide XorBits, OrBits, BitAt;
    assert Pow(8) == 256 && Pow(6) == 64 && Pow(3) == 8;
    var mixed := XorBits(i / 256 % 256, Unsigned(seed) / 256, 8);
    BitOfPart(OrBits((i + 1) % 8, mixed, 8), 6, k);
    OrAt((i + 1) % 8, mixed, 8, k);
    XorAt(i / 256 % 256, Unsigned(seed) / 256, 8, k);
    BitOfPart(i / 256, 8, k);
    BitOfRest(i, 8, 256, k);
    BitOfRest(Unsigned(seed), 8, 256, k);
    BitIsBit(i, 8 + k);
    BitIsBit(Unsigned(seed), 8 + k);
    if k < 3 {
      BitOfPart(i + 1, 3, k);
    } else {
      BitOfRest((i + 1) % 8, 3, 8, k - 3);
      Gone(i + 1);
      BitOfZero(k - 3);
    }
  }

  lemma Gone(x: nat)
    ensures x % 8 / 8 == 0
  {
  }

  lemma {:induction false} BitIsBit(x: nat, k: nat)
    ensures 0 <= BitAt(x, k) <= 1
  {
    if k > 0 { BitIsBit(x / 2, k - 1); }
  }

  /** The header has the index 0, the end marker 0x7fff, the first fifth is numbered in order, and the rest is mixed. */
  lemma IndexIs(seed: s16, size: nat, n: nat, i: nat)
    requires 2 <= n && i < n && size / 5 <= 0x3fff
    ensures var x := Indices0(seed, size, n)[i];
      && (i == 0 ==> x == 0) && (i == n - 1 ==> x == 0x7fff)
      && (0 < i < n - 1 && i < size / 5 ==> x == i)
      && (0 < i < n - 1 && i >= size / 5 ==> 0 <= x < 0x4000 && x == MixedIndex(seed, i))
  {
    hide MixedIndex;
  }

  // ---------- data words ----------

  /** Before the list is sorted: header, then the items, the last one first, then the end marker. */
  lemma WordsAre(seed: s16, m: nat, i: nat)
    requires 2 <= m && i < m
    ensures i == 0 ==> InitialWords(seed, m)[i] == 0x8080
    ensures i == m - 1 ==> InitialWords(seed, m)[i] == 0xffff
    ensures 0 < i < m - 1 ==> InitialWords(seed, m)[i] == ItemData(seed, m - 2 - i)
  {
    hide ItemData;
  }

  /** The word of an item has both bytes equal: its number modulo 8, and the number mixed with the seed above that. */
  lemma ItemBits(seed: s16, j: nat, k: nat)
    requires k < 4
    ensures ItemData(seed, j) % 256 == ItemData(seed, j) / 256 < 128 && ItemData(seed, j) % 8 == j % 8
    ensures BitAt(ItemData(seed, j) % 256, 3 + k) == MixedBit(seed, j, k)
  {
    hide XorBits, BitAt;
    assert Pow(4) == 16 && Pow(3) == 8;
    var w := ItemData(seed, j) % 256;
    var x := XorBits(Unsigned(seed) % 16, j % 16, 4);
    XorBelow(Unsigned(seed) % 16, j % 16, 4);
    ItemParts(seed, j, x);
    BitOfRest(w, 3, 8, k);
    XorAt(Unsigned(seed) % 16, j % 16, 4, k);
    BitOfPart(Unsigned(seed), 4, k);
    BitOfPart(j, 4, k);
  }

  lemma ItemParts(seed: s16, j: nat, x: nat)
    requires x == XorBits(Unsigned(seed) % 16, j % 16, 4) < 16
    ensures ItemData(seed, j) % 256 == ItemData(seed, j) / 256 < 128
    ensures ItemData(seed, j) % 8 == j % 8 && ItemData(seed, j) % 256 / 8 == x
  {
    hide XorBits;
  }

  /** Header and end marker keep their words at the ends of the list that is built. */
  lemma EndWords(seed: s16, size: nat, t: seq<Cell>, ord: seq<nat>, s: seq<Cell>, D: seq<u16>, X: seq<s16>)
    requires 3 <= size == |t| + 1 && size / 5 <= 0x3fff
    requires SortedInto(seed, size, t, InitialWords(seed, |t|), ord, s, D, X)
    ensures |D| == |t| && D[0] == 0x8080 && D[|t| - 1] == 0xffff
  {
    hide Run;
    EndsStay(InitialWords(seed, |t|), seed, size, ord);
    WordsAre(seed, |t|, 0);
    WordsAre(seed, |t|, |t| - 1);
  }

  /** How many cells and items of at most 16 and 4 bytes a block holds, with room for two of each to spare. */
  lemma SizeIs(blksize: nat)
    ensures 20 * (Size(blksize) + 2) <= blksize < 20 * (Size(blksize) + 3)
  {
  }
}
