/** The integer matrix kernels of core_matrix.c: row-major matrices of 16-bit elements, results of 32 bits. */
module Matrix {
  import opened BitOps
  import opened Crc
  import opened Numbers

  function Times(x: int, y: int): int { x * y }

  function Negated(x: int): int { -x }

  /** Adding up with wrap-around at every step wraps the exact sum. */
  lemma WrapAdd(x: int, y: int)
    ensures Wrap32(Wrap32(x) + y) == Wrap32(x + y)
  {
  }

  lemma WrapAddBack(x: s16, v: s16)
    ensures Wrap16(Wrap16(x + v) + Wrap16(Negated(v))) == x
  {
  }

  // ---------- places in a row-major matrix ----------

  lemma Inside(n: nat, i: nat, j: nat)
    requires i < n && j < n
    ensures i * n + j < n * n && (i * n + j) / n == i && (i * n + j) % n == j
    ensures i * n + n == (i + 1) * n <= n * n
  {
    MulMono(i + 1, n, n);
    DivModOf(i, j, n);
  }

  lemma Place(n: nat, p: nat)
    requires p < n * n
    ensures n > 0 && p / n < n && p % n < n && (p / n) * n + p % n == p
  {
    if p / n >= n {
      MulMono(n, p / n, n);
    }
  }

  function Row(a: seq<s16>, n: nat, i: nat): (r: seq<s16>)
    requires |a| == n * n && i < n
    ensures |r| == n
  {
    Inside(n, i, 0);
    a[i * n..i * n + n]
  }

  function Col(b: seq<s16>, n: nat, j: nat): (c: seq<s16>)
    requires |b| == n * n && j < n
    ensures |c| == n
  {
    seq(n, k requires 0 <= k < n => Inside(n, k, j); b[k * n + j])
  }

  // ---------- what the kernels compute ----------

  /** The exact sum of the combinations of corresponding elements; with Mult, the dot product. */
  function Dot(xs: seq<s16>, ys: seq<s16>, f: (s16, s16) -> int): int
    requires |xs| == |ys|
  {
    if xs == [] then 0 else
      var k := |xs| - 1;
      Dot(xs[..k], ys[..k], f) + f(xs[k], ys[k])
  }

  function Mult(x: s16, y: s16): int { Times(x, y) }

  /** Bits `from` to `from + width - 1` of a 32-bit number, shifted arithmetically. */
  function BitExtract(x: s32, from: nat, width: nat): (r: nat)
    ensures r < Pow(width)
  {
    (x / Pow(from)) % Pow(width)
  }

  function Mixed(x: s16, y: s16): int
  {
    Times(BitExtract(Product(x, y), 2, 4), BitExtract(Product(x, y), 5, 7))
  }

  function Added(a: seq<s16>, val: s16): seq<s16>
  {
    seq(|a|, p requires 0 <= p < |a| => Wrap16(a[p] + val))
  }

  lemma ProductFits(x: s16, y: s16)
    ensures -0x8000_0000 <= Times(x, y) < 0x8000_0000
  {
    MulBound(x, y, 0x8000, 0x8000);
  }

  lemma MulBound(x: int, y: int, a: nat, b: nat)
    requires Negated(a) <= x <= a && Negated(b) <= y <= b
    ensures Negated(a * b) <= Times(x, y) <= a * b
  {
    var s, t := if x < 0 then -x else x, if y < 0 then -y else y;
    MulMono(s, a, t);
    MulMono(t, b, a);
    assert x * y == s * t || x * y == -(s * t);
  }

  function Product(x: s16, y: s16): s32
  {
    ProductFits(x, y);
    Times(x, y)
  }

  function Scaled(a: seq<s16>, val: s16): seq<s32>
  {
    seq(|a|, p requires 0 <= p < |a| => Product(a[p], val))
  }

  function Entry(a: seq<s16>, b: seq<s16>, n: nat, f: (s16, s16) -> int, p: nat): s32
    requires |a| == |b| == n * n && p < n * n
  {
    Place(n, p);
    Wrap32(Dot(Row(a, n, p / n), Col(b, n, p % n), f))
  }

  /** The matrix of the wrapped sums over each row and column. */
  function Combined(a: seq<s16>, b: seq<s16>, n: nat, f: (s16, s16) -> int): (c: seq<s32>)
    requires |a| == |b| == n * n
    ensures |c| == n * n
  {
    seq(n * n, p requires 0 <= p < n * n => Entry(a, b, n, f, p))
  }

  function VectEntry(a: seq<s16>, b: seq<s16>, n: nat, i: nat): s32
    requires |a| == |b| == n * n && i < n
  {
    MulMono(1, n, n);
    Wrap32(Dot(Row(a, n, i), b[..n], Mult))
  }

  /** The wrapped products of each row with the vector, in front of what the result matrix held before. */
  function VectOver(c: seq<s32>, a: seq<s16>, b: seq<s16>, n: nat): (r: seq<s32>)
    requires |a| == |b| == |c| == n * n
    ensures |r| == n * n
  {
    seq(n * n, p requires 0 <= p < n * n => if p < n then VectEntry(a, b, n, p) else c[p])
  }

  // ---------- the kernels ----------

  method AddConst(n: nat, A: array<s16>, val: s16)
    requires A.Length == n * n
    modifies A
    ensures A[..] == Added(old(A[..]), val)
  {
    for i := 0 to n
      invariant i * n <= n * n
      invariant forall q :: 0 <= q < i * n ==> A[q] == Wrap16(old(A[q]) + val)
      invariant forall q :: i * n <= q < n * n ==> A[q] == old(A[q])
    {
      for j := 0 to n
        invariant i * n + j <= n * n
        invariant forall q :: 0 <= q < i * n + j ==> A[q] == Wrap16(old(A[q]) + val)
        invariant forall q :: i * n + j <= q < n * n ==> A[q] == old(A[q])
      {
        Inside(n, i, j);
        var p := i * n + j;
        A[p] := Wrap16(A[p] + val);
      }
      Distribute(i, n);
    }
  }

  lemma Distribute(i: nat, n: nat)
    ensures i * n + n == (i + 1) * n
  {
  }

  method MulConst(n: nat, C: array<s32>, A: array<s16>, val: s16)
    requires A.Length == C.Length == n * n
    modifies C
    ensures C[..] == Scaled(A[..], val)
  {
    for i := 0 to n
      invariant i * n <= n * n
      invariant forall q :: 0 <= q < i * n ==> C[q] == Product(A[q], val)
    {
      for j := 0 to n
        invariant i * n + j <= n * n
        invariant forall q :: 0 <= q < i * n + j ==> C[q] == Product(A[q], val)
      {
        Inside(n, i, j);
        var p := i * n + j;
        C[p] := Product(A[p], val);
      }
      Distribute(i, n);
    }
  }

  method MulVect(n: nat, C: array<s32>, A: array<s16>, B: array<s16>)
    requires A.Length == B.Length == C.Length == n * n
    modifies C
    ensures C[..] == VectOver(old(C[..]), A[..], B[..], n)
  {
    hide Wrap32, Dot, Times, Row, VectEntry;
    if n > 0 { MulMono(1, n, n); }
    for i := 0 to n
      invariant forall q :: 0 <= q < i ==> C[q] == VectEntry(A[..], B[..], n, q)
      invariant forall q :: n <= q < n * n ==> C[q] == old(C[q])
    {
      C[i] := 0;
      ghost var row, vect := Row(A[..], n, i), B[..n];
      DotNone(row, vect, Mult);
      for j := 0 to n
        invariant C[i] == Wrap32(Dot(row[..j], vect[..j], Mult))
        invariant forall q :: 0 <= q < i ==> C[q] == VectEntry(A[..], B[..], n, q)
        invariant forall q :: n <= q < n * n ==> C[q] == old(C[q])
      {
        RowAt(A[..], n, i, j);
        DotNext(row, vect, Mult, j);
        WrapAdd(Dot(row[..j], vect[..j], Mult), Mult(row[j], vect[j]));
        C[i] := Wrap32(C[i] + Product(A[i * n + j], B[j]));
      }
      assert row[..n] == row && vect[..n] == vect;
      VectEntryOf(A[..], B[..], n, i);
    }
  }

  lemma VectEntryOf(a: seq<s16>, b: seq<s16>, n: nat, i: nat)
    requires |a| == |b| == n * n && i < n <= n * n
    ensures VectEntry(a, b, n, i) == Wrap32(Dot(Row(a, n, i), b[..n], Mult))
  {
  }

  lemma DotNone(xs: seq<s16>, ys: seq<s16>, f: (s16, s16) -> int)
    ensures Wrap32(Dot(xs[..0], ys[..0], f)) == 0
  {
  }

  lemma DotNext(xs: seq<s16>, ys: seq<s16>, f: (s16, s16) -> int, k: nat)
    requires |xs| == |ys| && k < |xs|
    ensures Dot(xs[..k + 1], ys[..k + 1], f) == Dot(xs[..k], ys[..k], f) + f(xs[k], ys[k])
  {
    assert xs[..k + 1][..k] == xs[..k] && ys[..k + 1][..k] == ys[..k];
  }

  lemma RowAt(a: seq<s16>, n: nat, i: nat, k: nat)
    requires |a| == n * n && i < n && k < n
    ensures 0 <= i * n + k < n * n && Row(a, n, i)[k] == a[i * n + k]
  {
    Inside(n, i, k);
  }

  lemma ColAt(b: seq<s16>, n: nat, j: nat, k: nat)
    requires |b| == n * n && j < n && k < n
    ensures 0 <= k * n + j < n * n && Col(b, n, j)[k] == b[k * n + j]
  {
    Inside(n, k, j);
  }

  method MulMatrix(n: nat, C: array<s32>, A: array<s16>, B: array<s16>)
    requires A.Length == B.Length == C.Length == n * n
    modifies C
    ensures C[..] == Combined(A[..], B[..], n, Mult)
  {
    hide Wrap32, Dot, Times, Row, Col, Entry;
    for i := 0 to n
      invariant i * n <= n * n
      invariant forall q :: 0 <= q < i * n ==> C[q] == Entry(A[..], B[..], n, Mult, q)
    {
      for j := 0 to n
        invariant i * n + j <= n * n
        invariant forall q :: 0 <= q < i * n + j ==> C[q] == Entry(A[..], B[..], n, Mult, q)
      {
        Inside(n, i, j);
        var p := i * n + j;
        C[p] := 0;
        ghost var row, col := Row(A[..], n, i), Col(B[..], n, j);
        DotNone(row, col, Mult);
        for k := 0 to n
          invariant C[p] == Wrap32(Dot(row[..k], col[..k], Mult))
          invariant forall q :: 0 <= q < p ==> C[q] == Entry(A[..], B[..], n, Mult, q)
        {
          RowAt(A[..], n, i, k);
          ColAt(B[..], n, j, k);
          DotNext(row, col, Mult, k);
          WrapAdd(Dot(row[..k], col[..k], Mult), Mult(row[k], col[k]));
          C[p] := Wrap32(C[p] + Product(A[i * n + k], B[k * n + j]));
        }
        assert row[..n] == row && col[..n] == col;
        EntryOf(A[..], B[..], n, Mult, i, j);
      }
      Distribute(i, n);
    }
  }

  method MulMatrixBitextract(n: nat, C: array<s32>, A: array<s16>, B: array<s16>)
    requires A.Length == B.Length == C.Length == n * n
    modifies C
    ensures C[..] == Combined(A[..], B[..], n, Mixed)
  {
    hide Wrap32, Dot, Times, BitExtract, Product, Row, Col, Entry;
    for i := 0 to n
      invariant i * n <= n * n
      invariant forall q :: 0 <= q < i * n ==> C[q] == Entry(A[..], B[..], n, Mixed, q)
    {
      for j := 0 to n
        invariant i * n + j <= n * n
        invariant forall q :: 0 <= q < i * n + j ==> C[q] == Entry(A[..], B[..], n, Mixed, q)
      {
        Inside(n, i, j);
        var p := i * n + j;
        C[p] := 0;
        ghost var row, col := Row(A[..], n, i), Col(B[..], n, j);
        DotNone(row, col, Mixed);
        for k := 0 to n
          invariant C[p] == Wrap32(Dot(row[..k], col[..k], Mixed))
          invariant forall q :: 0 <= q < p ==> C[q] == Entry(A[..], B[..], n, Mixed, q)
        {
          RowAt(A[..], n, i, k);
          ColAt(B[..], n, j, k);
          DotNext(row, col, Mixed, k);
          WrapAdd(Dot(row[..k], col[..k], Mixed), Mixed(row[k], col[k]));
          var tmp := Product(A[i * n + k], B[k * n + j]);
          C[p] := Wrap32(C[p] + Times(BitExtract(tmp, 2, 4), BitExtract(tmp, 5, 7)));
        }
        assert row[..n] == row && col[..n] == col;
        EntryOf(A[..], B[..], n, Mixed, i, j);
      }
      Distribute(i, n);
    }
  }

  lemma EntryOf(a: seq<s16>, b: seq<s16>, n: nat, f: (s16, s16) -> int, i: nat, j: nat)
    requires |a| == |b| == n * n && i < n && j < n
    ensures i * n + j < n * n && Entry(a, b, n, f, i * n + j) == Wrap32(Dot(Row(a, n, i), Col(b, n, j), f))
  {
    Inside(n, i, j);
  }

  // ---------- the sum over a result matrix ----------

  datatype Acc = Acc(tmp: s32, prev: s32, ret: s16)

  function Summed(c: seq<s32>, clip: s16): Acc
  {
    if c == [] then Acc(0, 0, 0) else
      var acc, cur := Summed(c[..|c| - 1], clip), c[|c| - 1];
      var tmp := Wrap32(acc.tmp + cur);
      if tmp > clip then Acc(0, cur, Wrap16(acc.ret + 10))
      else Acc(tmp, cur, Wrap16(acc.ret + if cur > acc.prev then 1 else 0))
  }

  method Sum(n: nat, C: array<s32>, clip: s16) returns (ret: s16)
    requires C.Length == n * n
    ensures ret == Summed(C[..], clip).ret
  {
    hide Wrap16, Wrap32;
    var tmp: s32, prev: s32 := 0, 0;
    ret := 0;
    for i := 0 to n
      invariant i * n <= n * n
      invariant Acc(tmp, prev, ret) == Summed(C[..i * n], clip)
    {
      for j := 0 to n
        invariant i * n + j <= n * n
        invariant Acc(tmp, prev, ret) == Summed(C[..i * n + j], clip)
      {
        Inside(n, i, j);
        var p := i * n + j;
        assert C[..p + 1][..p] == C[..p];
        var cur := C[p];
        tmp := Wrap32(tmp + cur);
        if tmp > clip {
          ret := Wrap16(ret + 10);
          tmp := 0;
        } else {
          ret := Wrap16(ret + if cur > prev then 1 else 0);
        }
        prev := cur;
      }
      Distribute(i, n);
    }
    assert C[..n * n] == C[..];
  }

  // ---------- the whole test ----------

  lemma {:induction false} AddedBack(a: seq<s16>, val: s16)
    ensures Added(Added(a, val), Wrap16(Negated(val))) == a
  {
    forall p | 0 <= p < |a| ensures Added(Added(a, val), Wrap16(Negated(val)))[p] == a[p] {
      WrapAddBack(a[p], val);
    }
  }

  function Fed(r: Reg, x: s16): Reg { Fold(r, RegOf(Unsigned(x) as bv16)) }

  /** The four high bits set, which makes the bound negative. */
  function Big(val: s16): s16 { val % 0x1000 - 0x1000 }

  /** The register after the sums over the four result matrices. */
  function TestCrc(r: Reg, a: seq<s16>, b: seq<s16>, n: nat, val: s16): Reg
    requires |a| == |b| == n * n
  {
    var more := Added(a, val);
    var c := Scaled(more, val);
    Fed(Fed(Fed(Fed(r, Summed(c, Big(val)).ret),
                Summed(VectOver(c, more, b, n), Big(val)).ret),
            Summed(Combined(more, b, n, Mult), Big(val)).ret),
        Summed(Combined(more, b, n, Mixed), Big(val)).ret)
  }

  method Crc16(newval: s16, crc0: bv16) returns (crc: bv16)
    ensures RegOf(crc) == Fed(RegOf(crc0), newval)
  {
    crc := Crcu16(Unsigned(newval) as bv16, crc0);
  }

  /** Both matrices are left as they were, whatever they hold; the checksum is that of the four results. */
  method Test(n: nat, C: array<s32>, A: array<s16>, B: array<s16>, val: s16) returns (crc: bv16)
    requires A.Length == B.Length == C.Length == n * n && A != B
    modifies A, C
    ensures A[..] == old(A[..])
    ensures RegOf(crc) == TestCrc(RegOf(0), old(A[..]), B[..], n, val)
  {
    hide Added, Scaled, VectOver, Combined, Summed, Fed, RegOf, Wrap16, Big;
    var clipval := Big(val);
    AddConst(n, A, val);
    MulConst(n, C, A, val);
    var s := Sum(n, C, clipval);
    crc := Crc16(s, 0);
    MulVect(n, C, A, B);
    s := Sum(n, C, clipval);
    crc := Crc16(s, crc);
    MulMatrix(n, C, A, B);
    s := Sum(n, C, clipval);
    crc := Crc16(s, crc);
    MulMatrixBitextract(n, C, A, B);
    s := Sum(n, C, clipval);
    crc := Crc16(s, crc);
    AddConst(n, A, Wrap16(Negated(val)));
    AddedBack(old(A[..]), val);
  }

  // ---------- where no sum overflows ----------

  predicate Within(xs: seq<s16>, bound: nat) { forall i :: 0 <= i < |xs| ==> 0 <= xs[i] <= bound }

  lemma {:induction false} DotBound(xs: seq<s16>, ys: seq<s16>, bound: nat)
    requires |xs| == |ys| && Within(xs, bound)
    ensures Negated(|xs| * (bound * 0x8000)) <= Dot(xs, ys, Mult) <= |xs| * (bound * 0x8000)
  {
    if xs != [] {
      var k := |xs| - 1;
      DotBound(xs[..k], ys[..k], bound);
      MulBound(xs[k], ys[k], bound, 0x8000);
      Distribute(k, bound * 0x8000);
    }
  }

  /** The partial sums of a kernel never leave the 32-bit range when the elements and the constant are bytes. */
  lemma PartialSumsFit(a: seq<s16>, val: s16, ys: seq<s16>, n: nat, i: nat, k: nat)
    requires |a| == n * n && Within(a, 255) && 0 <= val <= 255 && i < n <= 128 && k <= n == |ys|
    ensures |Added(a, val)| == n * n
    ensures -0x8000_0000 <= Dot(Row(Added(a, val), n, i)[..k], ys[..k], Mult) < 0x8000_0000
  {
    var row := Row(Added(a, val), n, i);
    Inside(n, i, 0);
    forall j | 0 <= j < n ensures 0 <= row[j] <= 510 {
      RowAt(Added(a, val), n, i, j);
    }
    DotBound(row[..k], ys[..k], 510);
    MulMono(k, 128, 510 * 0x8000);
  }

  /** So then the results are the exact dot products. */
  lemma ExactProducts(a: seq<s16>, b: seq<s16>, n: nat, val: s16, i: nat, j: nat)
    requires |a| == |b| == n * n && Within(a, 255) && 0 <= val <= 255 && i < n <= 128 && j < n
    ensures i * n + j < n * n <= |Added(a, val)| && n <= n * n
    ensures Combined(Added(a, val), b, n, Mult)[i * n + j] == Dot(Row(Added(a, val), n, i), Col(b, n, j), Mult)
    ensures VectEntry(Added(a, val), b, n, i) == Dot(Row(Added(a, val), n, i), b[..n], Mult)
  {
    hide Dot, Row, Col, Entry, VectEntry;
    var more := Added(a, val);
    Inside(n, i, j);
    MulMono(1, n, n);
    var row, col, vect := Row(more, n, i), Col(b, n, j), b[..n];
    EntryOf(more, b, n, Mult, i, j);
    VectEntryOf(more, b, n, i);
    PartialSumsFit(a, val, col, n, i, n);
    PartialSumsFit(a, val, vect, n, i, n);
    assert row[..n] == row && col[..n] == col && vect[..n] == vect;
  }

  // ---------- the initial matrices ----------

  predicate IsDim(n: nat, blksize: nat) { 8 * n * n < blksize <= 8 * (n + 1) * (n + 1) }

  lemma DimUnique(n: nat, m: nat, blksize: nat)
    requires IsDim(n, blksize) && IsDim(m, blksize)
    ensures n == m
  {
    if n < m {
      MulMono(n + 1, m, n + 1);
      MulMono(n + 1, m, m);
    } else if m < n {
      MulMono(m + 1, n, m + 1);
      MulMono(m + 1, n, n);
    }
  }

  const U32 := 0x1_0000_0000

  /** The remainder of C, which has the sign of the dividend. */
  function Rem(x: int, m: nat): int
    requires m > 0
  {
    if x >= 0 then x % m else Negated(Negated(x) % m)
  }

  /** The bytes that the loop counts for dimension `i`, in 32 bits. */
  function Bytes(i: nat): nat { (8 * i * i) % U32 }

  /** The loop stops with `i` in its counter. */
  ghost predicate StopsAt(blksize: nat, i: nat)
  {
    blksize <= Bytes(i) && forall k: nat :: k < i ==> Bytes(k) < blksize
  }

  const LARGEST := 23170

  /** The largest dimension for which three matrices fit; up to this block size the count of bytes does not wrap. */
  method Dimension(blksize: nat) returns (n: nat)
    requires 1 <= blksize <= 8 * LARGEST * LARGEST
    ensures IsDim(n, blksize) && StopsAt(blksize, n + 1)
  {
    hide Bytes;
    var i, j := 0, 0;
    NoWrap(0);
    while j < blksize
      invariant i <= LARGEST && j == 8 * i * i == Bytes(i)
      invariant i == 0 || 8 * (i - 1) * (i - 1) < blksize
      invariant forall k: nat :: k < i ==> Bytes(k) < blksize
      decreases LARGEST - i
    {
      SquareStrict(i, LARGEST);
      i := i + 1;
      NoWrap(i);
      j := (8 * i * i) % U32;
    }
    n := i - 1;
  }

  lemma NoWrap(i: nat)
    requires 8 * i * i < U32
    ensures Bytes(i) == (8 * i * i) % U32 == 8 * i * i
  {
  }

  lemma PassedBy()
    ensures Bytes(LARGEST + 1) == 194632
  {
  }

  lemma {:induction false} DimensionFrom(blksize: nat, i: nat)
    requires 1 <= blksize <= 8 * LARGEST * LARGEST && i <= LARGEST && (i > 0 ==> 8 * (i - 1) * (i - 1) < blksize)
    requires Bytes(i) == 8 * i * i && forall k: nat :: k < i ==> Bytes(k) < blksize
    ensures exists n: nat :: StopsAt(blksize, n + 1) && IsDim(n, blksize)
    decreases LARGEST - i
  {
    if 8 * i * i < blksize {
      SquareStrict(i, LARGEST);
      DimensionFrom(blksize, i + 1);
    } else {
      assert StopsAt(blksize, (i - 1) + 1) && IsDim(i - 1, blksize);
    }
  }

  /** The loop finds the dimension exactly if the block is no larger than that; in larger ones it passes it by. */
  lemma DimensionIff(blksize: nat)
    requires 1 <= blksize < U32
    ensures (exists n: nat :: StopsAt(blksize, n + 1) && IsDim(n, blksize)) <==> blksize <= 8 * LARGEST * LARGEST
  {
    if blksize <= 8 * LARGEST * LARGEST {
      DimensionFrom(blksize, 0);
    } else {
      PassedBy();
      if n: nat :| StopsAt(blksize, n + 1) && IsDim(n, blksize) {
        DimUnique(n, LARGEST, blksize);
      }
    }
  }

  /** And in the largest of them it never stops. */
  lemma NeverStops(blksize: nat, i: nat)
    requires U32 - 8 < blksize < U32
    ensures !StopsAt(blksize, i)
  {
    var y := i * i;
    assert 8 * i * i == 8 * y;
    EightTimes(y);
  }

  lemma EightTimes(y: nat)
    ensures (8 * y) % U32 <= U32 - 8
  {
  }

  lemma SquareStrict(i: nat, m: nat)
    requires 8 * i * i < 8 * m * m
    ensures i < m
    ensures 8 * (i + 1) * (i + 1) <= 8 * m * m
  {
    if i >= m {
      MulMono(m, i, m);
      MulMono(m, i, i);
    } else {
      MulMono(i + 1, m, i + 1);
      MulMono(i + 1, m, m);
    }
  }

  /** What the seed becomes when it has been `x` and the next element has the number `order`. */
  function NextSeed(order: int, x: int): int { Rem(Wrap32(Times(order, x)), 65536) }

  /** The seed after `k` elements; a seed of zero counts as one. */
  function SeedAfter(seed0: s32, k: nat): int
  {
    if k == 0 then (if seed0 == 0 then 1 else seed0) else NextSeed(k, SeedAfter(seed0, k - 1))
  }

  function Factorial(k: nat): nat { if k == 0 then 1 else k * Factorial(k - 1) }

  /** Equal in the low sixteen bits. */
  ghost predicate Congruent(x: int, y: int) { exists q :: x == y + Times(65536, q) }

  lemma Wrap32Minus(y: int)
    ensures Wrap32(y) == y - Times(0x1_0000_0000, (y + 0x8000_0000) / 0x1_0000_0000)
  {
  }

  lemma RemMinus(y: int, m: nat)
    requires m > 0
    ensures Rem(y, m) == y - Times(m, if y >= 0 then y / m else Negated(Negated(y) / m))
    ensures Negated(m) < Rem(y, m) < m
  {
  }

  lemma NextCongruent(order: int, x: int, z: int)
    requires Congruent(x, z)
    ensures Congruent(NextSeed(order, x), Times(order, z))
  {
    hide Wrap32, Rem, Times;
    var q :| x == z + Times(65536, q);
    var y := Times(order, x);
    var t := (y + 0x8000_0000) / 0x1_0000_0000;
    Wrap32Minus(y);
    var w := Wrap32(y);
    var u := if w >= 0 then w / 65536 else Negated(Negated(w) / 65536);
    RemMinus(w, 65536);
    Collected(order, z, q, t, u);
  }

  lemma Collected(order: int, z: int, q: int, t: int, u: int)
    ensures Times(order, z + Times(65536, q)) - Times(0x1_0000_0000, t) - Times(65536, u)
            == Times(order, z) + Times(65536, Times(order, q) - 65536 * t - u)
  {
    assert order * (z + 65536 * q) == order * z + 65536 * (order * q);
  }

  /** In its low sixteen bits the seed after `k` elements is the first one times the factorial of `k`. */
  lemma {:induction false} SeedFactorial(seed0: s32, k: nat)
    ensures Congruent(SeedAfter(seed0, k), Times(if seed0 == 0 then 1 else seed0, Factorial(k)))
  {
    hide NextSeed;
    var s := if seed0 == 0 then 1 else seed0;
    if k == 0 {
      assert SeedAfter(seed0, 0) == Times(s, 1) + Times(65536, 0);
    } else {
      SeedFactorial(seed0, k - 1);
      NextCongruent(k, SeedAfter(seed0, k - 1), Times(s, Factorial(k - 1)));
      assert k * (s * Factorial(k - 1)) == s * (k * Factorial(k - 1));
    }
  }

  /** What is stored in the second matrix at position `p`. */
  function Second(seed0: s32, p: nat): s16 { Wrap16(SeedAfter(seed0, p + 1) + p + 1) }

  /** In closed form: number and factorial of the element. */
  lemma SecondIs(seed0: s32, p: nat)
    ensures Second(seed0, p) == Wrap16(Times(if seed0 == 0 then 1 else seed0, Factorial(p + 1)) + p + 1)
  {
    hide Factorial, SeedAfter, Wrap16, Times;
    var z := Times(if seed0 == 0 then 1 else seed0, Factorial(p + 1));
    SeedFactorial(seed0, p + 1);
    var q :| SeedAfter(seed0, p + 1) == z + Times(65536, q);
    WrapCongruent(z + p + 1, q);
  }

  lemma WrapCongruent(x: int, q: int)
    ensures Wrap16(x + Times(65536, q)) == Wrap16(x)
  {
  }

  /** Sixteen twos divide the factorial of 18. */
  lemma FactorialOf18()
    ensures Factorial(18) == Times(65536, 97692469875)
  {
    assert Factorial(4) == 24;
    assert Factorial(8) == 40320;
    assert Factorial(12) == 479001600;
    assert Factorial(16) == 20922789888000;
  }

  lemma {:induction false} FactorialEven(k: nat) returns (q: int)
    requires k >= 18
    ensures Factorial(k) == Times(65536, q)
  {
    if k == 18 {
      FactorialOf18();
      q := 97692469875;
    } else {
      var r := FactorialEven(k - 1);
      q := k * r;
      assert k * (65536 * r) == 65536 * (k * r);
    }
  }

  lemma OnlyZero(q: int, x: int)
    requires x == Times(65536, q) && -65536 < x < 65536
    ensures x == 0
  {
  }

  /** So the seed has faded after the eighteenth element, and what follows in both matrices does not depend on it. */
  lemma SeedFades(seed0: s32, k: nat)
    requires k >= 18
    ensures SeedAfter(seed0, k) == 0
  {
    hide Factorial, Wrap32, Rem, Times;
    var s := if seed0 == 0 then 1 else seed0;
    SeedFactorial(seed0, k);
    var q :| SeedAfter(seed0, k) == Times(s, Factorial(k)) + Times(65536, q);
    var r := FactorialEven(k);
    RemMinus(Wrap32(Times(k, SeedAfter(seed0, k - 1))), 65536);
    Together(s, r, q);
    OnlyZero(Times(s, r) + q, SeedAfter(seed0, k));
  }

  lemma Together(s: int, r: int, q: int)
    ensures Times(s, Times(65536, r)) + Times(65536, q) == Times(65536, Times(s, r) + q)
  {
    assert s * (65536 * r) == 65536 * (s * r);
  }

  /** From the eighteenth element on it does not depend on the seed. */
  lemma SecondFades(seed0: s32, p: nat)
    requires p >= 17
    ensures Second(seed0, p) == Wrap16(p + 1)
  {
    SeedFades(seed0, p + 1);
  }

  /** One more element of each matrix. */
  method NextElements(order: int, seed0: int) returns (seed: int, b: s16, a: s16)
    ensures seed == NextSeed(order, seed0) && b == Wrap16(seed + order)
    ensures 0 <= a <= 255 && a == (b + order) % 256
  {
    hide Times, Rem, Wrap16, Wrap32;
    seed := Rem(Wrap32(Times(order, seed0)), 65536);
    b := Wrap16(seed + order);
    LowByteKept(b, order);
    a := Wrap16(b + order) % 256;
  }

  lemma LowByteKept(x: s16, order: int)
    ensures Wrap16(x + order) % 256 == (x + order) % 256
  {
  }

  /** What the elements at the first `m` positions are. */
  ghost predicate FilledTo(a: seq<s16>, b: seq<s16>, seed0: s32, m: nat)
    requires |a| == |b|
  {
    m <= |a| && forall p :: 0 <= p < m ==> b[p] == Second(seed0, p) && 0 <= a[p] <= 255 && a[p] == (b[p] + p + 1) % 256
  }

  lemma Unfilled(a: seq<s16>, b: seq<s16>, seed0: s32)
    requires |a| == |b|
    ensures FilledTo(a, b, seed0, 0)
  {
  }

  lemma FilledMore(a: seq<s16>, b: seq<s16>, seed0: s32, p: nat, seed: int, x: s16, y: s16)
    requires |a| == |b| && p < |a| && FilledTo(a, b, seed0, p)
    requires seed == NextSeed(p + 1, SeedAfter(seed0, p)) && y == Wrap16(seed + p + 1)
    requires 0 <= x <= 255 && x == (y + p + 1) % 256
    ensures seed == SeedAfter(seed0, p + 1) && FilledTo(a[p := x], b[p := y], seed0, p + 1)
  {
    hide NextSeed, Wrap16;
  }

  lemma FilledAll(a: seq<s16>, b: seq<s16>, seed0: s32)
    requires |a| == |b| && FilledTo(a, b, seed0, |a|)
    ensures Within(a, 255)
    ensures forall p :: 0 <= p < |a| ==> b[p] == Second(seed0, p) && a[p] == (b[p] + p + 1) % 256
    ensures forall p :: 17 <= p < |a| ==> b[p] == Wrap16(p + 1)
  {
    forall p | 17 <= p < |a| ensures b[p] == Wrap16(p + 1) {
      SecondFades(seed0, p);
    }
  }

  /** Fills both matrices; the first holds bytes, as the exactness of the products needs. */
  method Fill(n: nat, A: array<s16>, B: array<s16>, seed0: s32)
    requires A.Length == B.Length == n * n && A != B
    modifies A, B
    ensures Within(A[..], 255)
    ensures forall p :: 0 <= p < n * n ==> B[p] == Second(seed0, p) && A[p] == (B[p] + p + 1) % 256
    ensures forall p :: 17 <= p < n * n ==> B[p] == Wrap16(p + 1)
  {
    hide NextSeed, Wrap16, Second, FilledTo;
    assert FilledTo(A[..], B[..], seed0, 0) by { Unfilled(A[..], B[..], seed0); }
    var seed := if seed0 == 0 then 1 else seed0;
    var order := 1;
    for i := 0 to n
      invariant i * n <= n * n && order == i * n + 1
      invariant seed == SeedAfter(seed0, i * n) && FilledTo(A[..], B[..], seed0, i * n)
    {
      for j := 0 to n
        invariant i * n + j <= n * n && order == i * n + j + 1
        invariant seed == SeedAfter(seed0, i * n + j) && FilledTo(A[..], B[..], seed0, i * n + j)
      {
        Inside(n, i, j);
        var p := i * n + j;
        ghost var a, b := A[..], B[..];
        seed, B[p], A[p] := NextElements(order, seed);
        FilledMore(a, b, seed0, p, seed, A[p], B[p]);
        assert A[..] == a[p := A[p]] && B[..] == b[p := B[p]];
        order := order + 1;
      }
      Distribute(i, n);
    }
    FilledAll(A[..], B[..], seed0);
  }
}
