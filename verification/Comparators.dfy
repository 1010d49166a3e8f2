/** The two comparators of core_list_join.c.  Both change the items that they compare. */
module Comparators {
  import opened Numbers
  import opened Crc
  import opened ListCells

  /** The fields of `core_results` that the list benchmark reads or writes. */
  class Results {
    var list: Cell?
    const seed3: s16
    const iterations: nat
    var crc: bv16
    var crclist: bv16
    var crcmatrix: bv16
    var crcstate: bv16

    constructor (list: Cell, seed3: s16, iterations: nat)
      ensures this.list == list && this.seed3 == seed3 && this.iterations == iterations
    {
      this.list, this.seed3, this.iterations := list, seed3, iterations;
      crc, crclist, crcmatrix, crcstate := 0, 0, 0, 0;
    }
  }

  /** `Complex` is cmp_complex with its results argument, `Index` is cmp_idx called with NULL. */
  datatype Comparator = Complex(res: Results) | Index

  /** The objects besides the items that a comparison may write to. */
  ghost function Scratch(cmp: Comparator): set<Results>
  {
    if cmp.Complex? then {cmp.res} else {}
  }

  /** Bit 7 says that the low seven bits already hold the function result. */
  predicate Cached(d: u16) { d / 128 % 2 == 1 }

  /** Whether a comparison leaves this item as it is: cached, or low byte already regenerated. */
  predicate Settled(complex: bool, d: u16)
  {
    if complex then Cached(d) else LowByte(d) == HighByte(d)
  }

  /** The value by which items are ordered; it can change only when the item gets settled. */
  function Key(complex: bool, d: u16, idx: s16): int
  {
    if complex then d % 128 else idx
  }

  /** Whether comparing the item by data runs a kernel; otherwise the value to be cached is the item's own. */
  predicate CallsKernel(d: u16) { !Cached(d) && d % 8 < 2 }

  /** Bits 0 to 2 of a word that is not cached say what to do: 0 is the state kernel, 1 the matrix kernel. */
  lemma KernelsAre(d: u16)
    ensures Cached(d) <==> d / 128 % 2 == 1
    ensures CallsKernel(d) <==> d / 128 % 2 == 0 && (d % 8 == 0 || d % 8 == 1)
  {
  }

  /** What a comparison does to an item: it keeps the backup in the high byte, and the value if no kernel runs. */
  predicate Settles(complex: bool, d: u16, d': u16)
  {
    && Settled(complex, d')
    && HighByte(d') == HighByte(d)
    && (Settled(complex, d) ==> d' == d)
    && (complex && !CallsKernel(d) ==> d' % 128 == d % 128)
  }

  /** What any number of comparisons may have done to an item. */
  predicate Evolved(complex: bool, d: u16, d': u16) { d' == d || Settles(complex, d, d') }

  lemma EvolvedTransitive(complex: bool, d: u16, d': u16, d'': u16)
    requires Evolved(complex, d, d') && Evolved(complex, d', d'')
    ensures Evolved(complex, d, d'')
  {
  }

  /** The item once the low seven bits of `value` have been cached in it. */
  function WithCache(d: u16, value: u16): (d': u16)
    ensures Cached(d') && HighByte(d') == HighByte(d) && d' % 128 == value % 128
    ensures d' / 128 % 2 == 1 && d' / 256 == d / 256
  {
    d / 256 * 256 + 128 + value % 128
  }

  /** High byte, bit 7 and the low seven bits make up an item. */
  lemma SameItem(d: u16, e: u16)
    requires HighByte(d) == HighByte(e) && Cached(d) && Cached(e) && d % 128 == e % 128
    ensures d == e
  {
  }

  function AsWord(d: u16): bv16 { d as bv16 }

  /**
   The values returned by the state and matrix kernels are arbitrary 16-bit words; `value` is the word that is fed to
   the checksum and cached.
   */
  method CalcFunc(item: Info, res: Results) returns (retval: int, ghost value: u16)
    modifies item`data16, res`crc, res`crcstate, res`crcmatrix
    ensures Settles(true, old(item.data16), item.data16) && retval == item.data16 % 128
    ensures !CallsKernel(old(item.data16)) ==> value == old(item.data16)
    ensures if Cached(old(item.data16)) then
              item.data16 == old(item.data16)
              && res.crc == old(res.crc) && res.crcstate == old(res.crcstate) && res.crcmatrix == old(res.crcmatrix)
            else
              item.data16 == WithCache(old(item.data16), value)
              && RegOf(res.crc) == Fold(RegOf(old(res.crc)), RegOf(value as bv16))
              && res.crcstate == FirstValue(old(item.data16) % 8 == 0, old(res.crcstate), value)
              && res.crcmatrix == FirstValue(old(item.data16) % 8 == 1, old(res.crcmatrix), value)
  {
    hide RegOf, Fold;
    var data := item.data16;
    value := data;
    var optype := data / 128 % 2;
    if optype == 1 {
      return data % 128, value;
    }
    var flag := data % 8;
    var v: u16;
    if flag == 0 {
      v := *;
      if res.crcstate == 0 {
        res.crcstate := AsWord(v);
      }
    } else if flag == 1 {
      v := *;
      if res.crcmatrix == 0 {
        res.crcmatrix := AsWord(v);
      }
    } else {
      v := data;
    }
    res.crc := Crcu16(AsWord(v), res.crc);
    retval := v % 128;
    item.data16 := WithCache(data, v);
    value := v;
  }

  /** The first value that a kernel returns is kept, unless it is 0. */
  function FirstValue(called: bool, kept: bv16, value: u16): (v: bv16)
    ensures !called || kept != 0 ==> v == kept
    ensures called && kept == 0 ==> v == value as bv16
  {
    if called && kept == 0 then AsWord(value) else kept
  }

  /** The checksum register after an item has been compared by data: a word that is not cached yet is fed. */
  ghost function FedItem(r: Reg, d: u16, value: u16): Reg
  {
    if Cached(d) then r else Fold(r, RegOf(AsWord(value)))
  }

  /** The items are settled in the order of the arguments. */
  method CmpComplex(a: Info, b: Info, res: Results) returns (r: int, ghost value1: u16, ghost value2: u16)
    requires a != b
    modifies {a, b}`data16, res`crc, res`crcstate, res`crcmatrix
    ensures Settles(true, old(a.data16), a.data16) && (!Cached(old(a.data16)) ==> a.data16 % 128 == value1 % 128)
    ensures Settles(true, old(b.data16), b.data16) && (!Cached(old(b.data16)) ==> b.data16 % 128 == value2 % 128)
    ensures r == a.data16 % 128 - b.data16 % 128
    ensures RegOf(res.crc) == FedItem(FedItem(RegOf(old(res.crc)), old(a.data16), value1), old(b.data16), value2)
  {
    hide RegOf, Fold, Settles, FirstValue;
    var val1, val2;
    val1, value1 := CalcFunc(a, res);
    val2, value2 := CalcFunc(b, res);
    r := val1 - val2;
  }

  method CmpIdxRegenerating(a: Info, b: Info) returns (r: int)
    requires a != b
    modifies {a, b}`data16
    ensures a.data16 == old(HighByte(a.data16) * 257)
    ensures b.data16 == old(HighByte(b.data16) * 257)
    ensures r == a.idx - b.idx
  {
    a.data16 := a.data16 / 256 * 256 + a.data16 / 256;
    b.data16 := b.data16 / 256 * 256 + b.data16 / 256;
    r := a.idx - b.idx;
  }

  method Compare(cmp: Comparator, a: Info, b: Info) returns (r: int)
    requires a != b
    modifies {a, b}`data16, Scratch(cmp)`crc, Scratch(cmp)`crcstate, Scratch(cmp)`crcmatrix
    ensures Settles(cmp.Complex?, old(a.data16), a.data16)
    ensures Settles(cmp.Complex?, old(b.data16), b.data16)
    ensures r == Key(cmp.Complex?, a.data16, a.idx) - Key(cmp.Complex?, b.data16, b.idx)
  {
    match cmp
    case Complex(res) =>
      ghost var value1, value2;
      r, value1, value2 := CmpComplex(a, b, res);
    case Index => r := CmpIdxRegenerating(a, b);
  }
}
