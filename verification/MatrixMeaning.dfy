/** What the sums, bit fields and products of the matrix kernels are, without the recursions that define them. */
module MatrixMeaning {
  import opened BitOps
  import opened Crc
  import opened Numbers
  import opened Matrix

  // ---------- the sum over a result matrix ----------

  function Total(c: seq<s32>): int { if c == [] then 0 else Total(c[..|c| - 1]) + c[|c| - 1] }

  /**
   The elements are cut into segments: `starts[p]` is where that of element `p` starts, and a segment ends with the
   first element with which its sum, wrapped to 32 bits, exceeds the bound.
   */
  ghost predicate Segments(c: seq<s32>, clip: s16, starts: seq<nat>, resets: set<nat>)
  {
    && |starts| == |c|
    && (forall p :: p in resets ==> p < |c|)
    && (forall p :: 0 <= p < |c| ==> starts[p] <= p && (p in resets <==> Wrap32(Total(c[starts[p]..p + 1])) > clip))
    && (forall p :: 0 < p < |c| ==> starts[p] == if p - 1 in resets then p else starts[p - 1])
  }

  /** The elements that do not end a segment but are greater than the one before, or than 0 in front. */
  ghost function Rises(c: seq<s32>, resets: set<nat>): set<nat>
  {
    set p: nat | p < |c| && p !in resets && c[p] > if p == 0 then 0 else c[p - 1]
  }

  /** What the accumulator of the loop holds. */
  ghost predicate Gathered(acc: Acc, c: seq<s32>, starts: seq<nat>, resets: set<nat>)
    requires |starts| == |c| && forall p :: 0 <= p < |c| ==> starts[p] <= p
  {
    var k := |c|;
    && acc.ret == Wrap16(10 * |resets| + |Rises(c, resets)|)
    && acc.prev == (if k == 0 then 0 else c[k - 1])
    && acc.tmp == if k == 0 || k - 1 in resets then 0 else Wrap32(Total(c[starts[k - 1]..]))
  }

  lemma WrapPlus(x: int, y: int)
    ensures Wrap16(Wrap16(x) + y) == Wrap16(x + y)
  {
  }

  lemma TotalNext(c: seq<s32>, s: nat, k: nat)
    requires s <= k < |c|
    ensures Total(c[s..k + 1]) == Total(c[s..k]) + c[k]
  {
    assert c[s..k + 1][..k - s] == c[s..k];
  }

  /** One more element keeps the segments of the others. */
  lemma SegmentsNext(c: seq<s32>, clip: s16, starts: seq<nat>, resets: set<nat>, s: nat)
    requires c != [] && Segments(c[..|c| - 1], clip, starts, resets)
    requires var k := |c| - 1; s == if k == 0 then 0 else if k - 1 in resets then k else starts[k - 1]
    ensures s < |c|
    ensures var k := |c| - 1;
      Segments(c, clip, starts + [s], if Wrap32(Total(c[s..])) > clip then resets + {k} else resets)
  {
    hide Wrap32;
    var k := |c| - 1;
    assert c[s..] == c[s..k + 1];
    forall p | 0 <= p < k ensures c[..k][starts[p]..p + 1] == c[starts[p]..p + 1] {
    }
  }

  lemma RisesNext(c: seq<s32>, resets: set<nat>)
    requires c != [] && forall p :: p in resets ==> p < |c| - 1
    ensures var k := |c| - 1;
      && Rises(c, resets + {k}) == Rises(c[..k], resets)
      && Rises(c, resets) == Rises(c[..k], resets) + (if c[k] > (if k == 0 then 0 else c[k - 1]) then {k} else {})
      && k !in Rises(c[..k], resets) && k !in resets
  {
  }

  /** The start of the segment that the next element belongs to. */
  function NextStart(k: nat, starts: seq<nat>, resets: set<nat>): (s: nat)
    requires |starts| == k && forall p :: 0 <= p < k ==> starts[p] <= p
    ensures s <= k
  {
    if k == 0 then 0 else if k - 1 in resets then k else starts[k - 1]
  }

  /** So far the accumulator holds the sum of the segment. */
  lemma GatheredSum(acc: Acc, c: seq<s32>, starts: seq<nat>, resets: set<nat>)
    requires |starts| == |c| && (forall p :: 0 <= p < |c| ==> starts[p] <= p) && Gathered(acc, c, starts, resets)
    ensures acc.tmp == Wrap32(Total(c[NextStart(|c|, starts, resets)..]))
  {
    hide Wrap32, Wrap16, Rises;
    assert Total([]) == 0;
    WrapOfZero();
  }

  lemma WrapOfZero()
    ensures Wrap32(0) == 0
  {
  }

  lemma NextSum(acc: Acc, c: seq<s32>, starts: seq<nat>, resets: set<nat>)
    requires c != [] && |starts| == |c| - 1 && (forall p :: 0 <= p < |starts| ==> starts[p] <= p)
    requires Gathered(acc, c[..|c| - 1], starts, resets)
    ensures Wrap32(acc.tmp + c[|c| - 1]) == Wrap32(Total(c[NextStart(|c| - 1, starts, resets)..]))
  {
    hide Wrap32, Gathered, Total;
    var k := |c| - 1;
    var s := NextStart(k, starts, resets);
    GatheredSum(acc, c[..k], starts, resets);
    assert c[..k][s..] == c[s..k] && c[s..] == c[s..k + 1];
    TotalNext(c, s, k);
    WrapAdd(Total(c[s..k]), c[k]);
  }

  /** An element that ends its segment. */
  lemma Ends(acc: Acc, c: seq<s32>, starts: seq<nat>, resets: set<nat>, s: nat)
    requires c != [] && |starts| == |c| - 1 && (forall p :: 0 <= p < |starts| ==> starts[p] <= p)
    requires (forall p :: p in resets ==> p < |c| - 1) && Gathered(acc, c[..|c| - 1], starts, resets) && s < |c|
    ensures var k := |c| - 1;
      Gathered(Acc(0, c[k], Wrap16(acc.ret + 10)), c, starts + [s], resets + {k})
  {
    hide Wrap32, Wrap16, Rises, Total;
    RisesNext(c, resets);
    WrapPlus(10 * |resets| + |Rises(c[..|c| - 1], resets)|, 10);
  }

  /** One that goes on with it. */
  lemma GoesOn(acc: Acc, c: seq<s32>, starts: seq<nat>, resets: set<nat>, s: nat)
    requires c != [] && |starts| == |c| - 1 && (forall p :: 0 <= p < |starts| ==> starts[p] <= p)
    requires (forall p :: p in resets ==> p < |c| - 1) && Gathered(acc, c[..|c| - 1], starts, resets) && s < |c|
    ensures var k := |c| - 1;
      Gathered(Acc(Wrap32(Total(c[s..])), c[k], Wrap16(acc.ret + if c[k] > acc.prev then 1 else 0)),
               c, starts + [s], resets)
  {
    hide Wrap32, Wrap16, Rises, Total;
    RisesNext(c, resets);
    var n := 10 * |resets| + |Rises(c[..|c| - 1], resets)|;
    WrapPlus(n, 1);
    WrapPlus(n, 0);
  }

  lemma SummedNext(c: seq<s32>, clip: s16)
    requires c != []
    ensures var acc, cur := Summed(c[..|c| - 1], clip), c[|c| - 1];
      var tmp := Wrap32(acc.tmp + cur);
      Summed(c, clip) == if tmp > clip then Acc(0, cur, Wrap16(acc.ret + 10))
                         else Acc(tmp, cur, Wrap16(acc.ret + if cur > acc.prev then 1 else 0))
  {
    hide Wrap32, Wrap16;
  }

  lemma NothingSummed(clip: s16)
    ensures Segments([], clip, [], {}) && Gathered(Summed([], clip), [], [], {})
  {
    assert Rises([], {}) == {};
    WrapOfNone();
  }

  lemma OneMoreSummed(c: seq<s32>, clip: s16, starts: seq<nat>, resets: set<nat>) returns (resets': set<nat>)
    requires c != [] && Segments(c[..|c| - 1], clip, starts, resets)
    requires |starts| == |c| - 1 && (forall p :: 0 <= p < |starts| ==> starts[p] <= p)
    requires Gathered(Summed(c[..|c| - 1], clip), c[..|c| - 1], starts, resets)
    ensures var starts' := starts + [NextStart(|starts|, starts, resets)];
      Segments(c, clip, starts', resets') && Gathered(Summed(c, clip), c, starts', resets')
  {
    hide Wrap32, Wrap16, Rises, Total, Summed, Segments, Gathered;
    var k := |c| - 1;
    var acc := Summed(c[..k], clip);
    SegmentShape(c[..k], clip, starts, resets);
    var s := NextStart(k, starts, resets);
    SegmentsNext(c, clip, starts, resets, s);
    NextSum(acc, c, starts, resets);
    SummedNext(c, clip);
    if Wrap32(Total(c[s..])) > clip {
      Ends(acc, c, starts, resets, s);
      resets' := resets + {k};
    } else {
      GoesOn(acc, c, starts, resets, s);
      resets' := resets;
    }
  }

  /** The sum is ten for each segment that is ended and one for each rise. */
  lemma {:induction false} SummedCounts(c: seq<s32>, clip: s16) returns (starts: seq<nat>, resets: set<nat>)
    ensures Segments(c, clip, starts, resets)
    ensures |starts| == |c| && (forall p :: 0 <= p < |c| ==> starts[p] <= p)
    ensures Gathered(Summed(c, clip), c, starts, resets)
    ensures Summed(c, clip).ret == Wrap16(10 * |resets| + |Rises(c, resets)|)
    decreases |c|
  {
    hide Wrap32, Wrap16, Rises, Total, Summed, Segments, Gathered, NextStart;
    if c == [] {
      starts, resets := [], {};
      NothingSummed(clip);
    } else {
      starts, resets := SummedCounts(c[..|c| - 1], clip);
      var r := OneMoreSummed(c, clip, starts, resets);
      starts, resets := starts + [NextStart(|starts|, starts, resets)], r;
    }
    SegmentShape(c, clip, starts, resets);
    GatheredValue(Summed(c, clip), c, starts, resets);
  }

  lemma SegmentShape(c: seq<s32>, clip: s16, starts: seq<nat>, resets: set<nat>)
    requires Segments(c, clip, starts, resets)
    ensures |starts| == |c| && (forall p :: 0 <= p < |c| ==> starts[p] <= p) && forall p :: p in resets ==> p < |c|
  {
  }

  lemma GatheredValue(acc: Acc, c: seq<s32>, starts: seq<nat>, resets: set<nat>)
    requires |starts| == |c| && (forall p :: 0 <= p < |c| ==> starts[p] <= p) && Gathered(acc, c, starts, resets)
    ensures acc.ret == Wrap16(10 * |resets| + |Rises(c, resets)|)
  {
  }

  lemma WrapOfNone()
    ensures Wrap16(0) == 0
  {
  }

  /** When every element exceeds the bound by itself, each one ends a segment. */
  lemma {:induction false} AllExceed(c: seq<s32>, clip: s16)
    requires forall p :: 0 <= p < |c| ==> c[p] > clip
    ensures Summed(c, clip).ret == Wrap16(10 * |c|) && Summed(c, clip).tmp == 0
    decreases |c|
  {
    hide Wrap16;
    if c == [] {
      WrapOfNone();
    } else {
      AllExceed(c[..|c| - 1], clip);
      WrapPlus(10 * (|c| - 1), 10);
    }
  }

  /** The bound: the low twelve bits of the constant, with the four high ones set. */
  lemma BoundIs(val: s16)
    ensures -0x1000 <= Big(val) < 0 && Big(val) % 0x1000 == val % 0x1000
  {
  }

  // ---------- bit fields ----------

  function BitOf(x: int, k: nat): int { x / Pow(k) % 2 }

  lemma {:induction false} PowPlus(a: nat, b: nat)
    ensures Pow(a + b) == Pow(a) * Pow(b)
  {
    if b > 0 {
      PowPlus(a, b - 1);
      assert Pow(a) * (2 * Pow(b - 1)) == 2 * (Pow(a) * Pow(b - 1));
    }
  }

  lemma DivDiv(x: int, a: nat, b: nat)
    requires a > 0 && b > 0
    ensures a * b > 0 && x / a / b == x / (a * b)
  {
    var q := x / a / b;
    var r, s := x % a, (x / a) % b;
    assert x / a == q * b + s;
    assert x == a * (x / a) + r;
    assert a * (q * b + s) == (a * b) * q + a * s;
    MulMono(s, b - 1, a);
    assert a * (b - 1) == a * b - a;
    assert x == (a * b) * q + (a * s + r) && 0 <= a * s + r < a * b;
    QuotientIs(x, a * b, q, a * s + r);
  }

  lemma QuotientIs(x: int, m: nat, q: int, r: nat)
    requires m > 0 && x == m * q + r && r < m
    ensures x / m == q
  {
    var d, e := x / m, x % m;
    assert x == m * d + e;
    assert m * (d - q) == r - e && m * (q - d) == e - r;
    if d > q {
      MulAtLeast(m, d - q);
    } else if d < q {
      MulAtLeast(m, q - d);
    }
  }

  lemma {:induction false} ModKeepsBits(y: int, width: nat, k: nat)
    requires k < width
    ensures BitOf(y % Pow(width), k) == BitOf(y, k)
  {
    hide Pow;
    var w, p, h := Pow(width), Pow(k), Pow(width - k - 1);
    PowPlus(k, width - k);
    PowNext(width - k);
    var q, r := y / w, y % w;
    assert p * (2 * h) == w;
    assert y == w * q + r;
    assert w * q == p * (2 * (h * q));
    DivPlus(r, p, 2 * (h * q));
    assert y / p == r / p + 2 * (h * q);
  }

  lemma PowNext(n: nat)
    requires n > 0
    ensures Pow(n) == 2 * Pow(n - 1)
  {
  }

  lemma DivPlus(r: int, p: nat, m: int)
    requires p > 0
    ensures (p * m + r) / p == r / p + m
  {
    assert p * (r / p + m) == p * (r / p) + p * m;
    QuotientIs(p * m + r, p, r / p + m, r % p);
  }

  /** Bit `k` of an extracted field is bit `from + k` of the number. */
  lemma BitExtractAt(x: s32, from: nat, width: nat, k: nat)
    requires k < width
    ensures BitOf(BitExtract(x, from, width), k) == BitOf(x, from + k)
  {
    hide Pow;
    ModKeepsBits(x / Pow(from), width, k);
    DivDiv(x, Pow(from), Pow(k));
    PowPlus(from, k);
  }

  /** What is added up for a pair of elements: the product of bits 2 to 5 and bits 5 to 11 of their product. */
  lemma MixedIs(x: s16, y: s16) returns (u: nat, v: nat)
    ensures Mixed(x, y) == u * v && u < 16 && v < 128
    ensures forall k :: 0 <= k < 4 ==> BitOf(u, k) == BitOf(x * y, 2 + k)
    ensures forall k :: 0 <= k < 7 ==> BitOf(v, k) == BitOf(x * y, 5 + k)
  {
    u, v := BitExtract(Product(x, y), 2, 4), BitExtract(Product(x, y), 5, 7);
    hide BitOf, BitExtract;
    assert Pow(4) == 16 && Pow(7) == 128;
    forall k | 0 <= k < 4 ensures BitOf(u, k) == BitOf(x * y, 2 + k) {
      BitExtractAt(Product(x, y), 2, 4, k);
    }
    forall k | 0 <= k < 7 ensures BitOf(v, k) == BitOf(x * y, 5 + k) {
      BitExtractAt(Product(x, y), 5, 7, k);
    }
  }

  // ---------- sums and products ----------

  /** The constant is added modulo 2^16, and multiplied exactly. */
  lemma ElementsAre(a: seq<s16>, val: s16, p: nat)
    requires p < |a|
    ensures |Added(a, val)| == |Scaled(a, val)| == |a|
    ensures (Added(a, val)[p] - a[p] - val) % 0x1_0000 == 0 && Scaled(a, val)[p] == a[p] * val
  {
  }

  lemma {:induction false} DotSums(xs: seq<s16>, ys: seq<s16>, f: (s16, s16) -> int, sums: seq<int>, n: nat)
    requires |xs| == |ys| && n <= |xs| && |sums| > n && sums[0] == 0
    requires forall k :: 0 <= k < n ==> sums[k + 1] == sums[k] + f(xs[k], ys[k])
    ensures Dot(xs[..n], ys[..n], f) == sums[n]
  {
    if n > 0 {
      DotSums(xs, ys, f, sums, n - 1);
      DotNext(xs, ys, f, n - 1);
    }
  }

  /** The result of row `i` and column `j`: the combined elements of both, added up and wrapped to 32 bits. */
  lemma EntrySums(a: seq<s16>, b: seq<s16>, n: nat, f: (s16, s16) -> int, i: nat, j: nat, sums: seq<int>)
    requires |a| == |b| == n * n && i < n && j < n && |sums| == n + 1 && sums[0] == 0
    requires forall k {:trigger sums[k]} :: 0 <= k < n ==>
               0 <= i * n + k < n * n && 0 <= k * n + j < n * n
               && sums[k + 1] == sums[k] + f(a[i * n + k], b[k * n + j])
    ensures i * n + j < n * n && Combined(a, b, n, f)[i * n + j] == Wrap32(sums[n])
  {
    hide Dot, Row, Col, Wrap32;
    Inside(n, i, j);
    EntryOf(a, b, n, f, i, j);
    var row, col := Row(a, n, i), Col(b, n, j);
    forall k | 0 <= k < n ensures sums[k + 1] == sums[k] + f(row[k], col[k]) {
      RowAt(a, n, i, k);
      ColAt(b, n, j, k);
    }
    DotSums(row, col, f, sums, n);
    assert row[..n] == row && col[..n] == col;
  }

  /** That of row `i` and the vector, which is the first row of the second matrix; the other results stay. */
  lemma VectSums(c: seq<s32>, a: seq<s16>, b: seq<s16>, n: nat, i: nat, sums: seq<int>)
    requires |a| == |b| == |c| == n * n && i < n <= n * n && |sums| == n + 1 && sums[0] == 0
    requires forall k {:trigger sums[k]} :: 0 <= k < n ==>
               0 <= i * n + k < n * n && sums[k + 1] == sums[k] + a[i * n + k] * b[k]
    ensures VectOver(c, a, b, n)[i] == Wrap32(sums[n])
    ensures forall p :: n <= p < n * n ==> VectOver(c, a, b, n)[p] == c[p]
  {
    hide Dot, Row, Wrap32;
    VectEntryOf(a, b, n, i);
    var row, vect := Row(a, n, i), b[..n];
    forall k | 0 <= k < n ensures sums[k + 1] == sums[k] + Mult(row[k], vect[k]) {
      RowAt(a, n, i, k);
    }
    DotSums(row, vect, Mult, sums, n);
    assert row[..n] == row && vect[..n] == vect;
  }

  function Word(x: s16): Reg { RegOf(Unsigned(x) as bv16) }

  /** The checksum is fed the sums over the four results in this order: constant, vector, matrix, bit fields. */
  lemma TestCrcIs(r: Reg, a: seq<s16>, b: seq<s16>, n: nat, val: s16)
    requires |a| == |b| == n * n
    ensures var more, clip := Added(a, val), Big(val);
      var c := Scaled(more, val);
      TestCrc(r, a, b, n, val)
      == Fold(r, Word(Summed(c, clip).ret) + (Word(Summed(VectOver(c, more, b, n), clip).ret)
                 + (Word(Summed(Combined(more, b, n, Mult), clip).ret)
                    + Word(Summed(Combined(more, b, n, Mixed), clip).ret))))
  {
    hide Fold, RegOf, VectOver, Combined, Summed, Big;
    var more, clip := Added(a, val), Big(val);
    var c := Scaled(more, val);
    FourWords(r, Word(Summed(c, clip).ret), Word(Summed(VectOver(c, more, b, n), clip).ret),
              Word(Summed(Combined(more, b, n, Mult), clip).ret), Word(Summed(Combined(more, b, n, Mixed), clip).ret));
  }

  lemma FourWords(r: Reg, u: Reg, v: Reg, w: Reg, x: Reg)
    ensures Fold(Fold(Fold(Fold(r, u), v), w), x) == Fold(r, u + (v + (w + x)))
  {
    hide Fold;
    FoldConcat(r, u, v + (w + x));
    FoldConcat(Fold(r, u), v, w + x);
    FoldConcat(Fold(Fold(r, u), v), w, x);
  }
}
