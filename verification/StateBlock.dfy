/** The block that core_state.c scans: how it is filled, corrupted, and restored. */
module StateBlock {
  import opened Numbers
  import opened BitOps
  import opened Crc
  import opened NumberAutomaton
  import opened StateScan

  // ---------- corruption ----------

  /** The exclusive or of two bytes. */
  function Xor8(b: u8, s: u8): (r: u8)
  {
    XorBelow(b, s, 8);
    assert Pow(8) == 256;
    XorBits(b, s, 8)
  }

  /** What a visited byte becomes: commas are left alone. */
  function Flip(b: u8, s: u8): u8 { if b == COMMA then b else Xor8(b, s) }

  predicate Visited(i: int, step: int)
    requires step > 0
  {
    i % step == 0
  }

  function Corrupted(b: seq<u8>, s: u8, step: int): (c: seq<u8>)
    requires step > 0
    ensures |c| == |b|
  {
    seq(|b|, i requires 0 <= i < |b| => if Visited(i, step) then Flip(b[i], s) else b[i])
  }

  lemma FlipTwice(b: u8, s: u8)
    ensures Flip(Flip(b, s), s) == b <==> (b == COMMA || Flip(b, s) != COMMA)
  {
    assert Pow(8) == 256;
    XorTwice(b, s, 8);
  }

  /** A visited byte that the mask turns into a comma is lost: the second pass skips it. */
  predicate MakesComma(b: seq<u8>, s: u8, step: int)
    requires step > 0
  {
    exists i :: 0 <= i < |b| && Visited(i, step) && b[i] != COMMA && Flip(b[i], s) == COMMA
  }

  /** Corrupting twice with the same mask restores the block exactly when no byte was turned into a comma. */
  lemma CorruptTwiceIff(b: seq<u8>, s: u8, step: int)
    requires step > 0
    ensures Corrupted(Corrupted(b, s, step), s, step) == b <==> !MakesComma(b, s, step)
  {
    var c := Corrupted(b, s, step);
    var d := Corrupted(c, s, step);
    forall i | 0 <= i < |b| ensures d[i] == b[i] <==> !(Visited(i, step) && b[i] != COMMA && Flip(b[i], s) == COMMA) {
      FlipTwice(b[i], s);
    }
    if d != b {
      var i :| 0 <= i < |b| && d[i] != b[i];
    }
  }

  /** The empty mask turns nothing into a comma. */
  lemma ZeroMask(b: seq<u8>, step: int)
    requires step > 0
    ensures !MakesComma(b, 0, step)
  {
    forall x: u8 ensures Flip(x, 0) == x {
      assert Pow(8) == 256;
      XorZero(x, 8);
    }
  }

  lemma NextVisited(p: int, q: int, step: int)
    requires step > 0 && 0 <= p && Visited(p, step)
    ensures Visited(p + step, step)
    ensures p < q < p + step ==> !Visited(q, step)
  {
    var d := p / step;
    assert p == step * d;
    MulDistributes(step, d + 1, d);
    MultipleMod(step, d + 1);
    if p < q < p + step {
      NotVisited(d, q, step);
    }
  }

  lemma NotVisited(d: nat, q: int, step: nat)
    requires step > 0 && step * d < q < step * d + step
    ensures !Visited(q, step)
  {
    var e := q / step;
    MulDistributes(step, e, d);
    if e > d {
      MulAtLeast(step, e - d);
    } else {
      MulNat(step, d - e);
    }
  }

  lemma MulNat(a: nat, b: nat)
    ensures a * b >= 0
  {
  }

  /** One strided pass over the first `blksize` bytes. */
  method Corrupt(buf: array<u8>, blksize: nat, seed: u8, step: int)
    requires blksize == buf.Length && step > 0
    modifies buf
    ensures buf[..] == Corrupted(old(buf[..]), seed, step)
  {
    ghost var b := buf[..];
    ghost var c := Corrupted(b, seed, step);
    var p := 0;
    while p < blksize
      invariant 0 <= p && Visited(p, step)
      invariant forall i :: 0 <= i < buf.Length ==> buf[i] == if i < p then c[i] else b[i]
      decreases blksize - p
    {
      if buf[p] != COMMA {
        buf[p] := Xor8(buf[p], seed);
      }
      forall i | p < i < p + step && i < buf.Length ensures c[i] == b[i] {
        NextVisited(p, i, step);
      }
      NextVisited(p, p, step);
      p := p + step;
    }
  }

  // ---------- filling the block ----------

  function Ascii(s: string): (b: seq<u8>)
    requires forall i :: 0 <= i < |s| ==> 0 < s[i] as int < 256
    ensures |b| == |s| && 0 !in b
  {
    seq(|s|, i requires 0 <= i < |s| => s[i] as int)
  }

  function IntPattern(k: int): (b: seq<u8>)
    ensures |b| == 4 && 0 !in b
  {
    Ascii(if k == 0 then "5012" else if k == 1 then "1234" else if k == 2 then "-874" else "+122")
  }

  function FloatPattern(k: int): (b: seq<u8>)
    ensures |b| == 8 && 0 !in b
  {
    Ascii(if k == 0 then "35.54400" else if k == 1 then ".1234500" else if k == 2 then "-110.700" else "+0.64400")
  }

  function SciPattern(k: int): (b: seq<u8>)
    ensures |b| == 8 && 0 !in b
  {
    Ascii(if k == 0 then "5.500e+3" else if k == 1 then "-.123e-2" else if k == 2 then "-87e+832" else "+0.6e-12")
  }

  function ErrPattern(k: int): (b: seq<u8>)
    ensures |b| == 8 && 0 !in b
  {
    Ascii(if k == 0 then "T0.3e-1F" else if k == 1 then "-T.T++Tq" else if k == 2 then "1T3.4e4z" else "34.0e-T^")
  }

  /** The pattern for a seed; `seed & 7` and `(seed >> 3) & 3` of a two's complement number. */
  function Pattern(seed: s16): (b: seq<u8>)
    ensures |b| > 0 && 0 !in b
  {
    var (kind, k) := (seed % 8, seed / 8 % 4);
    if kind <= 2 then IntPattern(k) else if kind <= 4 then FloatPattern(k)
    else if kind <= 6 then SciPattern(k) else ErrPattern(k)
  }

  function NextSeed(seed: s16): s16 { if seed == 0x7fff then -0x8000 else seed + 1 }

  /** The text from position `total` on, when `next` is the pattern that has been chosen and `avail` bounds the text. */
  function Generated(avail: int, total: nat, next: seq<u8>, seed: s16): (t: seq<u8>)
    decreases avail - total, if next == [] then 1 else 0
  {
    if total + |next| + 1 >= avail then []
    else if next == [] then Generated(avail, total, Pattern(NextSeed(seed)), NextSeed(seed))
    else next + [COMMA] + Generated(avail, total + |next| + 1, Pattern(NextSeed(seed)), NextSeed(seed))
  }

  /** The text contains no zero byte and leaves room for one byte of the `avail` bytes at least. */
  lemma {:induction false} GeneratedShape(avail: int, total: nat, next: seq<u8>, seed: s16)
    requires 0 !in next
    ensures 0 !in Generated(avail, total, next, seed)
    ensures total < avail ==> total + |Generated(avail, total, next, seed)| < avail
    decreases avail - total, if next == [] then 1 else 0
  {
    if total + |next| + 1 < avail {
      GeneratedShape(avail, if next == [] then total else total + |next| + 1, Pattern(NextSeed(seed)), NextSeed(seed));
    }
  }

  /** The whole block: the text, and zeros up to its end. */
  function InitialBlock(size: nat, seed: s16): (b: seq<u8>)
    requires size > 0
    ensures |b| == size
  {
    var t := Generated(size - 1, 0, [], seed);
    GeneratedShape(size - 1, 0, [], seed);
    t + seq(size - |t|, _ => 0)
  }

  /** Appends a pattern and a comma to the text. */
  method AppendPattern(p: array<u8>, total: nat, buf: seq<u8>)
    requires total + |buf| < p.Length
    modifies p
    ensures p[..total + |buf| + 1] == old(p[..total]) + buf + [COMMA]
  {
    for i := 0 to |buf|
      invariant p[..total + i] == old(p[..total]) + buf[..i]
    {
      p[total + i] := buf[i];
    }
    p[total + |buf|] := COMMA;
  }

  /** Fills the rest of the block with zeros. */
  method FillZeros(p: array<u8>, total0: nat)
    requires total0 <= p.Length
    modifies p
    ensures p[..] == old(p[..total0]) + seq(p.Length - total0, _ => 0)
  {
    var total := total0;
    while total < p.Length
      invariant total0 <= total <= p.Length
      invariant p[..total] == old(p[..total0]) + seq(total - total0, _ => 0)
    {
      p[total] := 0;
      total := total + 1;
    }
  }

  method InitState(size0: nat, seed0: s16, p: array<u8>)
    requires 0 < size0 == p.Length
    modifies p
    ensures p[..] == InitialBlock(size0, seed0)
  {
    hide Pattern;
    var size, seed, total := size0 - 1, seed0, 0;
    var buf: seq<u8> := [];
    ghost var text := Generated(size, 0, [], seed0);
    assert p[..0] + text == text;
    while total + |buf| + 1 < size
      invariant 0 <= total <= size && 0 !in buf
      invariant p[..total] + Generated(size, total, buf, seed) == text
      decreases size - total, if buf == [] then 1 else 0
    {
      if |buf| > 0 {
        ghost var was := p[..total];
        ghost var g := Generated(size, total + |buf| + 1, Pattern(NextSeed(seed)), NextSeed(seed));
        AppendPattern(p, total, buf);
        assert was + (buf + [COMMA] + g) == was + buf + [COMMA] + g;
        total := total + |buf| + 1;
      }
      seed := NextSeed(seed);
      buf := Pattern(seed);
    }
    assert p[..total] == text;
    GeneratedShape(size, 0, [], seed0);
    FillZeros(p, total);
  }

  // ---------- the benchmark ----------

  /** The bytes before the first zero. */
  function UpToZero(b: seq<u8>): (t: seq<u8>)
    ensures |t| <= |b| && t == b[..|t|] && 0 !in t
    ensures 0 in b ==> |t| < |b| && b[|t|] == 0
  {
    if b == [] || b[0] == 0 then [] else [b[0]] + UpToZero(b[1..])
  }

  lemma ZeroEndsText(b: seq<u8>)
    requires 0 in b
    ensures HasText(b, 0, UpToZero(b))
  {
    var t := UpToZero(b);
    assert b[0..0 + |t|] == t;
  }

  /** The block ends with two zeros, of which a stride of two or more hits at most one. */
  predicate Terminated(b: seq<u8>)
  {
    |b| >= 2 && b[|b| - 1] == 0 && b[|b| - 2] == 0
  }

  lemma StillHasZero(b: seq<u8>, s: u8, step: int)
    requires Terminated(b) && step >= 2
    ensures 0 in Corrupted(b, s, step)
  {
    var c, n := Corrupted(b, s, step), |b|;
    if Visited(n - 2, step) {
      NextVisited(n - 2, n - 1, step);
      assert c[n - 1] == 0;
    } else {
      assert c[n - 2] == 0;
    }
  }

  lemma InitialBlockTerminated(size: nat, seed: s16)
    requires size >= 2
    ensures Terminated(InitialBlock(size, seed))
  {
    GeneratedShape(size - 1, 0, [], seed);
  }

  /** The stride that `calc_func` derives from an item: the four bits 3 to 6, twice, but at least 0x22. */
  function StrideOf(data: u16): (step: int)
    ensures 0x22 <= step <= 0xff
  {
    var d := data / 8 % 16;
    var dtype := d + d * 16;
    if dtype < 0x22 then 0x22 else dtype
  }

  function Low8(seed: s16): u8 { seed % 256 }

  function AsDword(n: nat): bv32 { (n % 0x1_0000_0000) as bv32 }

  const NO_COUNTS: Counts := [0, 0, 0, 0, 0, 0, 0, 0]

  /** The checksum over the final states and transitions of both scans, of the block and of its corruption. */
  ghost function BenchCrc(r: Reg, b: seq<u8>, s: u8, step: int): Reg
    requires step > 0
  {
    var t, u := UpToZero(b), UpToZero(Corrupted(b, s, step));
    CountsFed(r, Tally(Tally(NO_COUNTS, TokenStates(t)), TokenStates(u)), Tracked(Tracked(NO_COUNTS, t), u), 8)
  }

  /**
   Scans, corrupts, scans again, restores.  Both scans stop inside the block.  With equal low bytes of
   the seeds the block ends up as it was exactly when the mask turned no visited byte into a comma.
   */
  method BenchState(blksize: nat, memblock: array<u8>, seed1: s16, seed2: s16, step: int, crc0: bv16)
    returns (crc: bv16)
    requires blksize == memblock.Length && Terminated(memblock[..]) && step >= 2
    modifies memblock
    ensures memblock[..] == Corrupted(Corrupted(old(memblock[..]), Low8(seed1), step), Low8(seed2), step)
    ensures RegOf(crc) == BenchCrc(RegOf(crc0), old(memblock[..]), Low8(seed1), step)
    ensures Low8(seed1) == Low8(seed2) ==>
      (memblock[..] == old(memblock[..]) <==> !MakesComma(old(memblock[..]), Low8(seed1), step))
  {
    hide *;
    var final, track := new nat[8], new nat[8];
    ghost var b := memblock[..];
    ClearCounts(final, track);
    NoCountsBalanced();
    ScanTwice(blksize, memblock, Low8(seed1), step, track, final);
    Corrupt(memblock, blksize, Low8(seed2), step);
    CorruptTwiceIff(b, Low8(seed1), step);
    crc := CrcOfCounts(final, track, crc0);
    BenchCrcIs(RegOf(crc0), b, Low8(seed1), step);
  }

  method ClearCounts(final: array<nat>, track: array<nat>)
    requires final.Length == track.Length == 8 && final != track
    modifies final, track
    ensures final[..] == track[..] == NO_COUNTS
  {
    for i := 0 to 8
      invariant forall j :: 0 <= j < i ==> final[j] == track[j] == 0
    {
      final[i], track[i] := 0, 0;
    }
  }

  /** Scans the block, corrupts it, and scans it again. */
  method ScanTwice(blksize: nat, memblock: array<u8>, seed: u8, step: int, track: array<nat>, final: array<nat>)
    requires blksize == memblock.Length && Terminated(memblock[..]) && step >= 2
    requires track.Length == final.Length == 8 && track != final && Balanced(track[..], final[..])
    modifies memblock, track, final
    ensures memblock[..] == Corrupted(old(memblock[..]), seed, step)
    ensures var t, u := UpToZero(old(memblock[..])), UpToZero(memblock[..]);
      && final[..] == Tally(Tally(old(final[..]), TokenStates(t)), TokenStates(u))
      && track[..] == Tracked(Tracked(old(track[..]), t), u)
  {
    hide *;
    ghost var b := memblock[..];
    TerminatedHasZero(b);
    ScanText(memblock, track, final);
    Corrupt(memblock, blksize, seed, step);
    StillHasZero(b, seed, step);
    ScanText(memblock, track, final);
  }

  lemma NoCountsBalanced()
    ensures Balanced(NO_COUNTS, NO_COUNTS)
  {
  }

  lemma BenchCrcIs(r: Reg, b: seq<u8>, s: u8, step: int)
    requires step > 0
    ensures var t, u := UpToZero(b), UpToZero(Corrupted(b, s, step));
      BenchCrc(r, b, s, step)
      == CountsFed(r, Tally(Tally(NO_COUNTS, TokenStates(t)), TokenStates(u)), Tracked(Tracked(NO_COUNTS, t), u), 8)
  {
  }

  lemma TerminatedHasZero(b: seq<u8>)
    requires Terminated(b)
    ensures 0 in b
  {
    assert b[|b| - 1] == 0;
  }

  /** Scans the block up to its first zero. */
  method ScanText(memblock: array<u8>, track: array<nat>, final: array<nat>)
    requires 0 in memblock[..] && track.Length == final.Length == 8 && track != final
    requires Balanced(track[..], final[..])
    modifies track, final
    ensures Balanced(track[..], final[..])
    ensures final[..] == Tally(old(final[..]), TokenStates(UpToZero(memblock[..])))
    ensures track[..] == Tracked(old(track[..]), UpToZero(memblock[..]))
  {
    ZeroEndsText(memblock[..]);
    ScanAll(memblock, track, final, UpToZero(memblock[..]));
  }

  /** The register after the first `n` pairs of counters. */
  ghost function CountsFed(r: Reg, final: Counts, track: Counts, n: nat): Reg
    requires n <= 8
  {
    if n == 0 then r else
      Fold(Fold(CountsFed(r, final, track, n - 1), DwordBits(AsDword(final[n - 1]))), DwordBits(AsDword(track[n - 1])))
  }

  method CrcOfCounts(final: array<nat>, track: array<nat>, crc0: bv16) returns (crc: bv16)
    requires final.Length == track.Length == 8
    ensures RegOf(crc) == CountsFed(RegOf(crc0), final[..], track[..], 8)
  {
    hide RegOf, AsDword;
    crc := crc0;
    for i := 0 to 8
      invariant RegOf(crc) == CountsFed(RegOf(crc0), final[..], track[..], i)
    {
      crc := Crcu32(AsDword(final[i]), crc);
      crc := Crcu32(AsDword(track[i]), crc);
    }
  }

  // ---------- a block that is not restored ----------

  lemma PatternLength(seed: s16)
    ensures |Pattern(seed)| == if seed % 8 <= 2 then 4 else 8
  {
  }

  /** What lies behind the first pattern and its comma. */
  lemma BehindPattern(avail: int, total: nat, seed: s16, pos: nat)
    requires seed < 0x7fff && total + |Pattern(seed)| + 1 < avail
    requires pos < |Generated(avail, total + |Pattern(seed)| + 1, Pattern(seed + 1), seed + 1)|
    ensures var k := pos + |Pattern(seed)| + 1;
      && k < |Generated(avail, total, Pattern(seed), seed)|
      && Generated(avail, total, Pattern(seed), seed)[k]
         == Generated(avail, total + |Pattern(seed)| + 1, Pattern(seed + 1), seed + 1)[pos]
  {
    hide Pattern;
  }

  lemma PatternOf35()
    ensures |Pattern(35)| == 8 && Pattern(35)[3] == 53
  {
  }

  /** The last four of the nine patterns that come before position 68. */
  lemma SeedFrom41(avail: int)
    requires avail >= 75
    ensures |Generated(avail, 41, Pattern(31), 31)| > 27 && Generated(avail, 41, Pattern(31), 31)[27] == 53
  {
    PatternOf35();
    PatternLength(34);
    PatternLength(33);
    PatternLength(32);
    PatternLength(31);
    hide Pattern;
    assert Generated(avail, 65, Pattern(35), 35)[3] == 53;
    hide Generated;
    BehindPattern(avail, 60, 34, 3);
    BehindPattern(avail, 55, 33, 8);
    BehindPattern(avail, 50, 32, 13);
    BehindPattern(avail, 41, 31, 18);
  }

  lemma SeedFrom0(avail: int)
    requires avail >= 75
    ensures |Generated(avail, 0, Pattern(26), 26)| > 68 && Generated(avail, 0, Pattern(26), 26)[68] == 53
  {
    hide Pattern, Generated;
    SeedFrom41(avail);
    PatternLength(30);
    PatternLength(29);
    PatternLength(28);
    PatternLength(27);
    PatternLength(26);
    BehindPattern(avail, 32, 30, 27);
    BehindPattern(avail, 23, 29, 36);
    BehindPattern(avail, 14, 28, 45);
    BehindPattern(avail, 5, 27, 54);
    BehindPattern(avail, 0, 26, 63);
  }

  lemma SeedAt68(size: nat)
    requires size >= 76
    ensures InitialBlock(size, 25)[68] == 53
  {
    hide Pattern;
    SeedFrom0(size - 1);
    GeneratedShape(size - 1, 0, [], 25);
  }

  lemma XorOf53And25()
    ensures XorBits(53, 25, 8) == 44
  {
    assert XorBits(3, 1, 4) == 2;
    assert XorBits(13, 6, 6) == 11;
  }

  lemma MaskMakesComma()
    ensures Flip(53, 25) == COMMA
  {
    hide XorBits, Pow;
    XorOf53And25();
  }

  lemma VisitedBy34()
    ensures StrideOf(0) == 34 && Visited(68, 34) && Low8(25) == 25
  {
  }

  /**
   The corruption is not always undone when the seeds are equal: with seed 25 and the stride 34, the smallest that an
   item can ask for, the byte at position 68 becomes a comma, in blocks of all sizes from 76 on.
   */
  lemma SeedMakesComma(size: nat)
    requires size >= 76
    ensures MakesComma(InitialBlock(size, 25), Low8(25), StrideOf(0))
  {
    hide InitialBlock, Flip, StrideOf, Low8, Visited;
    SeedAt68(size);
    MaskMakesComma();
    VisitedBy34();
  }
}
