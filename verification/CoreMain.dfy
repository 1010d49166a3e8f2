/** The list part of core_main.c: the list is built once, and every iteration works on it. */
module CoreMain {
  import opened Numbers
  import opened ListCells
  import opened Comparators
  import opened BenchList
  import opened ListInit
  import opened Restoration
  import opened SearchPhase

  /**
   Whatever the kernels return and however often the benchmark is repeated, the list that was built is still there,
   from `res.list` on, sorted and with its backups intact: a seed that spreads the indices is all it takes.
   */
  method InitAndIterate(res: Results, blksize: nat, cells: array<Cell>, infos: array<Info>, seed: s16)
    returns (ghost s: seq<Cell>, ghost D: seq<u16>, ghost X: seq<s16>, ghost ord: seq<nat>)
    requires 4 <= Size(blksize) <= 256 && Blocks(cells[..], infos[..], Size(blksize))
    requires Spread(seed, Size(blksize), Size(blksize) - 1)
    modifies res
    modifies (set c | c in cells[..])`next, (set c | c in cells[..])`info
    modifies (set x | x in infos[..])`data16, (set x | x in infos[..])`idx
    ensures |s| == Size(blksize) - 1 && Linked(res.list, s) && Pristine(s, D, X) && Increasing(X)
    ensures var n := Size(blksize) - 1;
      SortedInto(seed, n + 1, Taken(cells[..], n), InitialWords(seed, n), ord, s, D, X)
    ensures forall c :: c in s ==> c in cells[..] && c.info in infos[..]
  {
    hide BuiltList, SortedInto, Restores, Spread, Increasing, Linked, Pristine, TakenFrom;
    var size := Size(blksize);
    ghost var cs, xs := cells[..], infos[..];
    var list;
    list, s, D, X, ord := Init(blksize, cells, infos, seed);
    BuiltParts(list, s, D, X, cs, xs, size);
    res.list := list;
    AlwaysRestores(D, X, Rounds(res.seed3));
    ghost var fed, firsts, second := Iterate(res, s, D, X);
  }

  lemma BuiltParts(list: Cell, s: seq<Cell>, D: seq<u16>, X: seq<s16>, cells: seq<Cell>, infos: seq<Info>, size: nat)
    requires 3 <= size == |cells| == |infos| && BuiltList(list, s, D, X, cells, infos, size)
    ensures |D| == |X| == |s| == size - 1 && Linked(list, s) && Pristine(s, D, X)
    ensures forall c :: c in s ==> c in cells && c.info in infos
  {
  }

  lemma AlwaysRestores(D: seq<u16>, X: seq<s16>, n: nat)
    requires |D| == |X| >= 2 && Increasing(X)
    ensures Restores(D, X, 1, n) && Restores(D, X, -1, n)
  {
  }
}
