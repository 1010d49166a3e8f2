/** The list benchmark of core_list_join.c and the loop of core_main.c that repeats it. */
module BenchList {
  import opened Numbers
  import opened Crc
  import opened ListCells
  import opened Comparators
  import opened RunOrder
  import opened MergeSort
  import opened SearchPhase
  import opened Restoration

  lemma ThroughVisited(s: seq<Cell>, ord: seq<nat>, sel: seq<nat>)
    requires Permutation(ord, |s|) && Permutation(sel, |s|)
    ensures Permutation(Picked(ord, sel), |s|)
    ensures Picked(s, Picked(ord, sel)) == Picked(Picked(s, ord), sel)
  {
    var r := Picked(ord, sel);
    forall i, j | 0 <= i < j < |r| ensures r[i] != r[j] {
      assert sel[i] != sel[j];
    }
  }

  // ---------- the data words of a rearranged list ----------

  /** What the benchmark needs of its list: the cells' items hold `D` and `X`, with their backups intact. */
  ghost predicate Pristine(s: seq<Cell>, D: seq<u16>, X: seq<s16>)
    reads (set c | c in s)`info, Infos(s)`data16, Infos(s)`idx
  {
    Distinct(s) && OwnInfos(s) && Holds(s, D, X) && Clean(D, X)
  }

  /** The indices are sorted, and every low byte equals its backup. */
  ghost predicate Clean(D: seq<u16>, X: seq<s16>)
  {
    Sorted(X) && forall i :: 0 <= i < |D| ==> LowByte(D[i]) == HighByte(D[i])
  }

  lemma VisitedKeeps(s: seq<Cell>, ord: seq<nat>, D: seq<u16>, X: seq<s16>)
    requires Distinct(s) && OwnInfos(s) && Permutation(ord, |s|) && Holds(s, D, X)
    ensures Distinct(Picked(s, ord)) && OwnInfos(Picked(s, ord)) && Infos(Picked(s, ord)) <= Infos(s)
    ensures forall c :: c in Picked(s, ord) ==> c in s
    ensures Holds(Picked(s, ord), Picked(D, ord), Picked(X, ord))
  {
    var t := Picked(s, ord);
    forall i, j | 0 <= i < j < |t| ensures t[i] != t[j] && t[i].info != t[j].info {
      assert ord[i] != ord[j];
    }
    assert forall i :: 0 <= i < |t| ==> t[i] == s[ord[i]];
  }

  /** The data words of the cells `s`. */
  ghost function Words(s: seq<Cell>): (E: seq<u16>)
    reads (set c | c in s)`info, Infos(s)`data16
    ensures |E| == |s| && forall i {:trigger E[i]} {:trigger s[i].info} :: 0 <= i < |s| ==> E[i] == s[i].info.data16
  {
    if s == [] then [] else Words(s[..|s| - 1]) + [s[|s| - 1].info.data16]
  }

  /** What is known of a list in one order is known of its cells. */
  lemma StillHolds(s: seq<Cell>, ord: seq<nat>, X: seq<s16>, E: seq<u16>)
    requires Permutation(ord, |s|) && |X| == |s|
    requires Holds(Picked(s, ord), E, Picked(X, ord))
    ensures Holds(s, Words(s), X) && E == Picked(Words(s), ord)
  {
    var t := Picked(s, ord);
    forall x {:trigger s[x].info} | 0 <= x < |s| ensures s[x].info.idx == X[x] {
      var i := Occurs(ord, |s|, x);
      assert t[i] == s[x] && Picked(X, ord)[i] == X[x];
    }
    assert forall i :: 0 <= i < |s| ==> E[i] == t[i].info.data16;
  }

  lemma PickedEvolves(complex: bool, D: seq<u16>, E: seq<u16>, ord: seq<nat>)
    requires |D| == |E| && Permutation(ord, |D|) && Evolves(complex, Picked(D, ord), Picked(E, ord))
    ensures Evolves(complex, D, E)
  {
    forall x | 0 <= x < |D| ensures Evolved(complex, D[x], E[x]) {
      var i := Occurs(ord, |D|, x);
      assert Picked(D, ord)[i] == D[x] && Picked(E, ord)[i] == E[x];
    }
  }

  /** The low byte of a settled item is its backup again. */
  lemma BackToBackup(d: u16, e: u16)
    requires LowByte(d) == HighByte(d) && HighByte(e) == HighByte(d) && Settled(false, e)
    ensures e == d
  {
  }

  /** Once all items are settled by the index comparison, they hold what they held at first. */
  lemma DataRestored(D: seq<u16>, G: seq<u16>, X: seq<s16>, ord: seq<nat>, sel: seq<nat>)
    requires |D| == |G| == |X| >= 2 && Permutation(ord, |D|) && Permutation(sel, |D|)
    requires Run(false, Picked(G, ord), Picked(X, ord), sel, 0, |D|)
    requires forall i :: 0 <= i < |D| ==> LowByte(D[i]) == HighByte(D[i]) && HighByte(G[i]) == HighByte(D[i])
    ensures G == D
  {
    forall x | 0 <= x < |D| ensures G[x] == D[x] {
      var i := Occurs(ord, |D|, x);
      var j := Occurs(sel, |D|, i);
      assert Settled(false, Picked(G, ord)[sel[j]]);
      BackToBackup(D[x], G[x]);
    }
  }

  /** A sort of the rearranged list: the new order is the stable one for the words that the comparator leaves. */
  method SortArranged(list0: Cell, cmp: Comparator, ghost s: seq<Cell>, ghost D: seq<u16>, ghost X: seq<s16>,
                      ghost ord: seq<nat>)
    returns (list: Cell, ghost F: seq<u16>, ghost sel: seq<nat>)
    requires |s| > 0 && Distinct(s) && OwnInfos(s) && Holds(s, D, X)
    requires Permutation(ord, |s|) && Linked(list0, Picked(s, ord))
    modifies (set c | c in s)`next, Infos(s)`data16
    modifies Scratch(cmp)`crc, Scratch(cmp)`crcstate, Scratch(cmp)`crcmatrix
    ensures OwnInfos(s) && Holds(s, F, X) && Evolves(cmp.Complex?, D, F)
    ensures Permutation(sel, |s|) && Linked(list, Picked(Picked(s, ord), sel))
    ensures Run(cmp.Complex?, Picked(F, ord), Picked(X, ord), sel, 0, |s|)
  {
    hide Run, Holds, Linked, Evolves;
    ghost var t := Picked(s, ord);
    VisitedKeeps(s, ord, D, X);
    HoldsLengths(s, D, X);
    ghost var E, passes, compares;
    list, E, sel, passes, compares := Sort(list0, cmp, t, Picked(D, ord), Picked(X, ord));
    StillHolds(s, ord, X, E);
    F := Words(s);
    PickedEvolves(cmp.Complex?, D, F, ord);
  }

  lemma HoldsLengths(s: seq<Cell>, D: seq<u16>, X: seq<s16>)
    requires Holds(s, D, X)
    ensures |D| == |X| == |s|
  {
  }

  // ---------- the value of the benchmark ----------

  /** The register after the word has been fed `n` times. */
  ghost function FedTimes(r: Reg, w: u16, n: nat): Reg
  {
    if n == 0 then r else Fold(FedTimes(r, w, n - 1), RegOf(AsWord(w)))
  }

  /** Feeds the first item's data once for every cell from `finder` on. */
  method CrcTail(list: Cell, finder0: Cell?, retval0: bv16, ghost t: seq<Cell>, ghost k: nat) returns (retval: bv16)
    requires k <= |t| && Linked(list, t) && finder0 == Succ(t, k - 1)
    ensures RegOf(retval) == FedTimes(RegOf(retval0), list.info.data16, |t| - k)
  {
    hide RegOf, AsWord;
    retval := retval0;
    var finder := finder0;
    ghost var j := k;
    while finder != null
      invariant k <= j <= |t| && finder == Succ(t, j - 1)
      invariant RegOf(retval) == FedTimes(RegOf(retval0), list.info.data16, j - k)
      decreases |t| - j
    {
      retval := Crcu16(AsWord(list.info.data16), retval);
      finder := finder.next;
      j := j + 1;
    }
  }

  /** Feeds the first item's data once for every cell but the first. */
  method CrcList(list: Cell, retval0: bv16, ghost t: seq<Cell>) returns (retval: bv16)
    requires |t| > 0 && Linked(list, t)
    ensures RegOf(retval) == FedTimes(RegOf(retval0), list.info.data16, |t| - 1)
  {
    retval := CrcTail(list, list.next, retval0, t, 1);
  }

  /** How many cells there are from the item found once the second one is removed; all but the first if none is. */
  ghost function CellsLeft(D: seq<u16>, X: seq<s16>, ord: seq<nat>, idx: s16, data16: u16): nat
    requires |D| == |X| && |ord| >= 2 && Indices(ord, |D|)
  {
    var rest := Without(ord, 0);
    var k := FirstMatch(D, X, rest, idx, data16, 0);
    if k == |rest| then |rest| - 1 else |rest| - k
  }

  /** Feeds the list from a found item on, or from its second cell. */
  method CrcFromFound(list: Cell, idx: s16, data16: u16, retval0: bv16,
                      ghost u: seq<Cell>, ghost rest: seq<nat>, ghost D: seq<u16>, ghost X: seq<s16>)
    returns (retval: bv16)
    requires |u| == |rest| >= 2 && |D| == |X| && Indices(rest, |D|)
    requires Linked(list, u) && Holds(u, Picked(D, rest), Picked(X, rest))
    ensures var k := FirstMatch(D, X, rest, idx, data16, 0);
      RegOf(retval) == FedTimes(RegOf(retval0), D[rest[0]], if k == |rest| then |rest| - 1 else |rest| - k)
  {
    hide RegOf, FirstMatch, FedTimes;
    var finder, k := Find(list, idx, data16, u);
    assert forall i {:trigger u[i]} {:trigger rest[i]} :: 0 <= i < |u| ==>
      u[i].info.data16 == D[rest[i]] && u[i].info.idx == X[rest[i]];
    FirstMatchIs(D, X, rest, idx, data16, 0, k);
    if finder == null {
      finder := list.next;
      k := 1;
    }
    assert list == u[0];
    retval := CrcTail(list, finder, retval0, u, k);
  }

  /** Removes the second item, feeds the list from a found item on, and puts the item back. */
  method RemoveAndUndo(list: Cell, idx: s16, data16: u16, retval0: bv16,
                       ghost s: seq<Cell>, ghost D: seq<u16>, ghost X: seq<s16>, ghost ord: seq<nat>)
    returns (retval: bv16)
    requires |s| >= 3 && Permutation(ord, |s|) && Linked(list, Picked(s, ord)) && Holds(s, D, X)
    modifies (set c | c in s)`next, (set c | c in s)`info
    ensures Linked(list, Picked(s, ord)) && forall c :: c in s ==> c.info == old(c.info)
    ensures RegOf(retval) == FedTimes(RegOf(retval0), D[ord[0]], CellsLeft(D, X, ord, idx, data16))
  {
    hide RegOf, FirstMatch, FedTimes, OwnInfos, Holds, Shown;
    ghost var t := Picked(s, ord);
    HoldsLengths(s, D, X);
    ghost var infos := InfosOf(t);
    InfosShown(s, ord, D, X);
    var remover := Remove(list.next, list, t, 1);
    WithoutShows(t, infos, ord, D, X);
    retval := CrcFromFound(list, idx, data16, retval0, Without(t, 1), Without(ord, 0), D, X);
    remover := UndoRemove(remover, list.next, list, t, 1);
  }

  /** The items of the cells `t`, in their order. */
  ghost function InfosOf(t: seq<Cell>): (r: seq<Info>)
    reads (set c | c in t)`info
    ensures |r| == |t| && forall i {:trigger r[i]} {:trigger t[i].info} :: 0 <= i < |t| ==> r[i] == t[i].info
  {
    if t == [] then [] else InfosOf(t[..|t| - 1]) + [t[|t| - 1].info]
  }

  /** The items hold what belongs to the order. */
  ghost predicate Shown(infos: seq<Info>, ord: seq<nat>, D: seq<u16>, X: seq<s16>)
    requires |infos| == |ord| && |D| == |X| && Indices(ord, |D|)
    reads (set i | i in infos)`data16, (set i | i in infos)`idx
  {
    forall i {:trigger infos[i]} :: 0 <= i < |infos| ==> infos[i].data16 == D[ord[i]] && infos[i].idx == X[ord[i]]
  }

  lemma InfosShown(s: seq<Cell>, ord: seq<nat>, D: seq<u16>, X: seq<s16>)
    requires Indices(ord, |s|) && Holds(s, D, X)
    ensures |D| == |X| == |s| && Shown(InfosOf(Picked(s, ord)), ord, D, X)
  {
    HoldsLengths(s, D, X);
    VisitedHolds(s, ord, D, X);
  }

  /** While the second item is removed, the list shows the items of the others, in their order. */
  lemma WithoutShows(t: seq<Cell>, infos: seq<Info>, ord: seq<nat>, D: seq<u16>, X: seq<s16>)
    requires |t| == |infos| == |ord| >= 3 && |D| == |X| && Indices(ord, |D|)
    requires Shown(infos, ord, D, X)
    requires t[1].info == infos[2]
    requires forall i {:trigger infos[i]} :: 0 <= i < |t| && i != 1 && i != 2 ==> t[i].info == infos[i]
    ensures Holds(Without(t, 1), Picked(D, Without(ord, 0)), Picked(X, Without(ord, 0)))
  {
    var u, rest := Without(t, 1), Without(ord, 0);
    forall i {:trigger u[i].info} | 0 <= i < |u|
      ensures u[i].info.data16 == D[rest[i]] && u[i].info.idx == X[rest[i]]
    {
      var j := if i == 0 then 0 else i + 1;
      assert rest[i] == ord[j] && u[i].info == infos[j];
    }
  }

  // ---------- the benchmark ----------

  /** The search phase and, for a positive index, the sort by data. */
  method SearchAndSort(res: Results, finderIdx: s16, ghost s: seq<Cell>, ghost D: seq<u16>, ghost X: seq<s16>)
    returns (list: Cell, retval: bv16, idx: s16, data16: u16, ghost F: seq<u16>, ghost ord: seq<nat>)
    requires |D| == |X| == |s| >= 3 && res.list != null && Linked(res.list, s)
    requires Distinct(s) && OwnInfos(s) && Holds(s, D, X)
    modifies (set c | c in s)`next, Infos(s)`data16
    modifies res`crc, res`crcstate, res`crcmatrix
    ensures OwnInfos(s) && Holds(s, F, X)
    ensures Permutation(ord, |s|) && Linked(list, Picked(s, ord))
    ensures Arranged(D, X, finderIdx, Rounds(res.seed3), F, ord)
    ensures idx == Searched(D, X, finderIdx, Rounds(res.seed3)).idx
    ensures retval == SearchValue(Searched(D, X, finderIdx, Rounds(res.seed3)))
    ensures data16 == LastData(res.seed3)
    ensures finderIdx <= 0 ==>
      res.crc == old(res.crc) && res.crcstate == old(res.crcstate) && res.crcmatrix == old(res.crcmatrix)
  {
    hide Run, Holds, Linked, OwnInfos, Distinct, Searched, SearchValue, Evolves;
    list, retval, idx, data16 := Search(res.list, res.seed3, finderIdx, s, D, X);
    F, ord := D, Searched(D, X, finderIdx, Rounds(res.seed3)).ord;
    EvolvesReflexive(true, D);
    if finderIdx > 0 {
      ghost var sel;
      HoldsLengths(s, D, X);
      list, F, sel := SortArranged(list, Complex(res), s, D, X, ord);
      HoldsLengths(s, F, X);
      ThroughVisited(s, ord, sel);
      ord := Picked(ord, sel);
    }
  }

  lemma PristineParts(s: seq<Cell>, D: seq<u16>, X: seq<s16>)
    requires Pristine(s, D, X)
    ensures Distinct(s) && OwnInfos(s) && Holds(s, D, X) && Clean(D, X)
  {
  }

  /** The checksum with which the benchmark ends. */
  ghost predicate Valued(retval: bv16, D: seq<u16>, X: seq<s16>, finderIdx: s16, seed3: s16,
                         F: seq<u16>, arranged: seq<nat>)
    requires |D| == |X| == |F| >= 3 && Permutation(arranged, |D|)
  {
    var p := Searched(D, X, finderIdx, Rounds(seed3));
    FedAll(retval, SearchValue(p), D, X, F, arranged, p.idx, LastData(seed3))
  }

  /** First the head of the arrangement, from the found item on; then the head of the list that the last sort leaves. */
  ghost predicate FedAll(retval: bv16, found: bv16, D: seq<u16>, X: seq<s16>, F: seq<u16>,
                         arranged: seq<nat>, idx: s16, data16: u16)
    requires |D| == |X| == |F| >= 3 && Permutation(arranged, |D|)
  {
    RegOf(retval) == FedTimes(FedTimes(RegOf(found), F[arranged[0]], CellsLeft(F, X, arranged, idx, data16)),
                              D[HeadOf(X, arranged, 0)], |D| - 1)
  }

  /**
   The benchmark.  Every item ends up as it was; the cells end up in their original order, so that `res.list` is the
   head again, exactly when equal indices were still in order before the last sort.  Unless that depends on what the
   kernels return, it is decided by the list, `finderIdx` and `seed3` alone.
   */
  method Bench(res: Results, finderIdx: s16, ghost s: seq<Cell>, ghost D: seq<u16>, ghost X: seq<s16>)
    returns (retval: bv16, ghost F: seq<u16>, ghost arranged: seq<nat>)
    requires |s| >= 3 && |D| == |X| == |s| && res.list != null && Linked(res.list, s) && Pristine(s, D, X)
    modifies (set c | c in s)`next, (set c | c in s)`info, Infos(s)`data16
    modifies res`crc, res`crcstate, res`crcmatrix
    ensures Pristine(s, D, X) && forall c :: c in s ==> c.info == old(c.info)
    ensures Permutation(arranged, |s|) && Arranged(D, X, finderIdx, Rounds(res.seed3), F, arranged)
    ensures TiesInOrder(X, arranged) <==> Linked(res.list, s)
    ensures Linked(res.list, s) <==> Survives(F, X, finderIdx, Searched(D, X, finderIdx, Rounds(res.seed3)).ord)
    ensures finderIdx <= 0 || NoKernels(D) ==>
      (Linked(res.list, s) <==> Survives(D, X, finderIdx, Searched(D, X, finderIdx, Rounds(res.seed3)).ord))
    ensures Restores(D, X, finderIdx, Rounds(res.seed3)) ==> Linked(res.list, s)
    ensures Valued(retval, D, X, finderIdx, res.seed3, F, arranged)
    ensures finderIdx <= 0 ==>
      res.crc == old(res.crc) && res.crcstate == old(res.crcstate) && res.crcmatrix == old(res.crcmatrix)
  {
    assert res.list == s[0];
    PristineParts(s, D, X);
    hide *;
    var list, idx, data16;
    list, retval, idx, data16, F, arranged := SearchAndSort(res, finderIdx, s, D, X);
    HoldsLengths(s, F, X);
    ArrangedEvolves(D, X, finderIdx, Rounds(res.seed3), F, arranged);
    ghost var found := retval;
    retval := RemoveAndSortBack(res.list, list, idx, data16, retval, s, D, X, F, arranged);
    BenchValueIs(D, X, finderIdx, res.seed3, F, arranged, idx, data16, found, retval);
    TiesSurvive(D, X, finderIdx, Rounds(res.seed3), F, arranged);
    if finderIdx <= 0 || NoKernels(D) {
      SurvivesWithoutKernels(D, X, finderIdx, Rounds(res.seed3), F, arranged);
    }
    if Restores(D, X, finderIdx, Rounds(res.seed3)) {
      RestoresTies(D, X, finderIdx, Rounds(res.seed3), F, arranged);
    }
  }

  method RemoveAndSortBack(ghost head: Cell?, list: Cell, idx: s16, data16: u16, retval0: bv16,
                           ghost s: seq<Cell>, ghost D: seq<u16>, ghost X: seq<s16>, ghost F: seq<u16>,
                           ghost arranged: seq<nat>)
    returns (retval: bv16)
    requires |D| == |X| == |F| == |s| >= 3 && head == s[0]
    requires Distinct(s) && OwnInfos(s) && Holds(s, F, X) && Clean(D, X)
    requires Evolves(true, D, F) && Permutation(arranged, |s|) && Linked(list, Picked(s, arranged))
    modifies (set c | c in s)`next, (set c | c in s)`info, Infos(s)`data16
    ensures Pristine(s, D, X) && forall c :: c in s ==> c.info == old(c.info)
    ensures TiesInOrder(X, arranged) <==> Linked(head, s)
    ensures FedAll(retval, retval0, D, X, F, arranged, idx, data16)
  {
    hide Run, Linked, Pristine, TiesInOrder, Clean, Distinct, RegOf, FedTimes, CellsLeft, Evolves;
    retval := RemoveAndUndo(list, idx, data16, retval0, s, F, X, arranged);
    SameInfos(s);
    retval := SortBack(head, list, retval, s, D, X, F, arranged);
  }

  /** The last sort, by index, and the checksum of its list. */
  method SortBack(ghost head: Cell?, list0: Cell, retval0: bv16, ghost s: seq<Cell>,
                  ghost D: seq<u16>, ghost X: seq<s16>, ghost F: seq<u16>, ghost arranged: seq<nat>)
    returns (retval: bv16)
    requires |D| == |X| == |F| == |s| >= 2 && head == s[0]
    requires Distinct(s) && OwnInfos(s) && Holds(s, F, X) && Clean(D, X)
    requires Evolves(true, D, F) && Permutation(arranged, |s|) && Linked(list0, Picked(s, arranged))
    modifies (set c | c in s)`next, Infos(s)`data16
    ensures Pristine(s, D, X)
    ensures TiesInOrder(X, arranged) <==> Linked(head, s)
    ensures RegOf(retval) == FedTimes(RegOf(retval0), D[HeadOf(X, arranged, 0)], |s| - 1)
  {
    hide Run, Holds, Linked, OwnInfos, TiesInOrder, Clean, Distinct, RegOf, FedTimes, Evolves;
    var list;
    ghost var G, sel;
    list, G, sel := SortArranged(list0, Index, s, F, X, arranged);
    HoldsLengths(s, G, X);
    retval := CrcList(list, retval0, Picked(Picked(s, arranged), sel));
    ThroughVisited(s, arranged, sel);
    Restored(head, list, s, D, X, F, G, arranged, sel);
  }

  lemma BenchValueIs(D: seq<u16>, X: seq<s16>, finderIdx: s16, seed3: s16, F: seq<u16>, ord: seq<nat>,
                     idx: s16, data16: u16, found: bv16, retval: bv16)
    requires |D| == |X| == |F| >= 3 && Permutation(ord, |D|)
    requires idx == Searched(D, X, finderIdx, Rounds(seed3)).idx
    requires found == SearchValue(Searched(D, X, finderIdx, Rounds(seed3)))
    requires data16 == LastData(seed3)
    requires FedAll(retval, found, D, X, F, ord, idx, data16)
    ensures Valued(retval, D, X, finderIdx, seed3, F, ord)
  {
    hide TiesInOrder, FedAll, Searched, SearchValue, LastData;
  }

  /** Neither sort changes a high byte. */
  lemma EvolvedBytes(D: seq<u16>, F: seq<u16>, G: seq<u16>)
    requires |D| == |F| == |G| && Evolves(true, D, F) && Evolves(false, F, G)
    ensures forall i :: 0 <= i < |D| ==> HighByte(G[i]) == HighByte(D[i])
  {
    forall i | 0 <= i < |D| ensures HighByte(G[i]) == HighByte(D[i]) {
      assert Evolved(true, D[i], F[i]) && Evolved(false, F[i], G[i]);
    }
  }

  lemma Restored(head: Cell?, list: Cell, s: seq<Cell>, D: seq<u16>, X: seq<s16>, F: seq<u16>, G: seq<u16>,
                 ord: seq<nat>, sel: seq<nat>)
    requires |D| == |X| == |F| == |G| == |s| >= 2 && head == s[0] && Distinct(s) && OwnInfos(s) && Clean(D, X)
    requires Permutation(ord, |s|) && Permutation(sel, |s|)
    requires Linked(list, Picked(s, Picked(ord, sel)))
    requires Holds(s, G, X) && Run(false, Picked(G, ord), Picked(X, ord), sel, 0, |s|)
    requires Evolves(true, D, F) && Evolves(false, F, G)
    ensures Pristine(s, D, X)
    ensures TiesInOrder(X, ord) <==> Linked(head, s)
    ensures list.info.data16 == D[HeadOf(X, ord, 0)]
  {
    EvolvedBytes(D, F, G);
    DataRestored(D, G, X, ord, sel);
    SortRestoresIff(X, ord, Picked(G, ord), sel);
    SortedHead(X, ord, Picked(G, ord), sel);
    ThroughPermutation(ord, sel);
    var r := Picked(ord, sel);
    if TiesInOrder(X, ord) {
      assert Picked(s, r) == s;
    }
    if Linked(head, s) {
      forall i | 0 <= i < |s| ensures r[i] == i {
        OneOrderOnly(head, list, s, r, i);
      }
    }
  }

  /** The links of a list determine the order of its cells. */
  lemma {:induction false} OneOrderOnly(head: Cell?, list: Cell, s: seq<Cell>, r: seq<nat>, i: nat)
    requires Linked(head, s) && Permutation(r, |s|) && Linked(list, Picked(s, r)) && i < |s|
    ensures r[i] == i
    decreases |s| - i
  {
    var t := Picked(s, r);
    assert t[i] == s[r[i]] && t[i].next == Succ(t, i) && s[r[i]].next == Succ(s, r[i]);
    if i + 1 < |s| {
      OneOrderOnly(head, list, s, r, i + 1);
      assert t[i + 1] == s[i + 1];
      SameAt(s, r[i] + 1, i + 1);
    }
  }

  twostate lemma SameInfos(s: seq<Cell>)
    requires forall c :: c in s ==> c.info == old(c.info)
    ensures Infos(s) == old(Infos(s))
  {
  }

  /** The value of the search by index: it depends on the kernels through the words that the sort by data leaves. */
  ghost predicate ByIndex(c: bv16, D: seq<u16>, X: seq<s16>, seed3: s16)
    requires |D| == |X| >= 3
  {
    exists F, arranged :: Permutation(arranged, |D|) && Arranged(D, X, 1, Rounds(seed3), F, arranged)
                          && Valued(c, D, X, 1, seed3, F, arranged)
  }

  /** That of the search by data is determined. */
  ghost predicate ByData(c: bv16, D: seq<u16>, X: seq<s16>, seed3: s16)
    requires |D| == |X| >= 3
  {
    Valued(c, D, X, -1, seed3, D, Searched(D, X, -1, Rounds(seed3)).ord)
  }

  lemma IsByIndex(c: bv16, D: seq<u16>, X: seq<s16>, seed3: s16, F: seq<u16>, arranged: seq<nat>)
    requires |D| == |X| == |F| >= 3 && Permutation(arranged, |D|) && Arranged(D, X, 1, Rounds(seed3), F, arranged)
    requires Valued(c, D, X, 1, seed3, F, arranged)
    ensures ByIndex(c, D, X, seed3)
  {
    hide Permutation, Arranged, Valued;
  }

  lemma IsByData(c: bv16, D: seq<u16>, X: seq<s16>, seed3: s16, F: seq<u16>, arranged: seq<nat>)
    requires |D| == |X| == |F| >= 3 && Permutation(arranged, |D|) && Arranged(D, X, -1, Rounds(seed3), F, arranged)
    requires Valued(c, D, X, -1, seed3, F, arranged)
    ensures ByData(c, D, X, seed3)
  {
    hide Searched, Valued;
  }

  lemma ByDataAgree(c: bv16, d: bv16, D: seq<u16>, X: seq<s16>, seed3: s16)
    requires |D| == |X| >= 3 && ByData(c, D, X, seed3) && ByData(d, D, X, seed3)
    ensures c == d
  {
    hide RegOf, FedTimes, CellsLeft, HeadOf, Searched, SearchValue, LastData;
    RegOfInjective(c, d);
  }

  /**
   One round of the loop of `Iterate`: the search by index, then the one by data.  `fed` is the checksum after the
   kernels of the first one; the values of both calls are fed on top of it, in this order.
   */
  method BenchTwice(res: Results, ghost s: seq<Cell>, ghost D: seq<u16>, ghost X: seq<s16>)
    returns (ghost fed: bv16, ghost first: bv16, ghost second: bv16)
    requires |s| >= 3 && |D| == |X| == |s| && res.list != null && Linked(res.list, s) && Pristine(s, D, X)
    requires Restores(D, X, 1, Rounds(res.seed3)) && Restores(D, X, -1, Rounds(res.seed3))
    modifies (set c | c in s)`next, (set c | c in s)`info, Infos(s)`data16
    modifies res`crc, res`crcstate, res`crcmatrix
    ensures Linked(res.list, s) && Pristine(s, D, X) && forall c :: c in s ==> c.info == old(c.info)
    ensures ByIndex(first, D, X, res.seed3) && ByData(second, D, X, res.seed3)
    ensures RegOf(res.crc) == Fold(Fold(RegOf(fed), RegOf(first)), RegOf(second))
  {
    hide Linked, Pristine, TiesInOrder, Permutation, Restores, Survives, NoKernels, Searched, Arranged, Valued;
    hide RegOf, Fold, ByIndex, ByData;
    var crc;
    ghost var F, arranged;
    crc, F, arranged := Bench(res, 1, s, D, X);
    first, fed := crc, res.crc;
    ArrangedEvolves(D, X, 1, Rounds(res.seed3), F, arranged);
    IsByIndex(crc, D, X, res.seed3, F, arranged);
    res.crc := Crcu16(crc, res.crc);
    SameInfos(s);
    crc, F, arranged := Bench(res, -1, s, D, X);
    second := crc;
    ArrangedEvolves(D, X, -1, Rounds(res.seed3), F, arranged);
    IsByData(crc, D, X, res.seed3, F, arranged);
    res.crc := Crcu16(crc, res.crc);
  }

  /** The checksum after a round whose values are `first` and `second`, when it was `fed` after the kernels. */
  ghost predicate RoundCrc(crc: bv16, fed: bv16, first: bv16, second: bv16)
  {
    RegOf(crc) == Fold(Fold(RegOf(fed), RegOf(first)), RegOf(second))
  }

  /**
   If both calls restore the list, every iteration starts from the same list with the same data, and leaves it so; and
   the value of its search by data is the same each time.
   */
  method Iterate(res: Results, ghost s: seq<Cell>, ghost D: seq<u16>, ghost X: seq<s16>)
    returns (ghost fed: seq<bv16>, ghost firsts: seq<bv16>, ghost second: bv16)
    requires |s| >= 3 && |D| == |X| == |s| && res.list != null && Linked(res.list, s) && Pristine(s, D, X)
    requires Restores(D, X, 1, Rounds(res.seed3)) && Restores(D, X, -1, Rounds(res.seed3))
    modifies (set c | c in s)`next, (set c | c in s)`info, Infos(s)`data16
    modifies res`crc, res`crclist, res`crcstate, res`crcmatrix
    ensures Linked(res.list, s) && Pristine(s, D, X) && forall c :: c in s ==> c.info == old(c.info)
    ensures |fed| == |firsts| == res.iterations && forall c :: c in firsts ==> ByIndex(c, D, X, res.seed3)
    ensures res.iterations == 0 ==> res.crc == res.crclist == 0
    ensures var n := res.iterations;
      n > 0 ==> && ByData(second, D, X, res.seed3)
                && RoundCrc(res.crclist, fed[0], firsts[0], second)
                && RoundCrc(res.crc, fed[n - 1], firsts[n - 1], second)
  {
    hide Linked, Pristine, Restores, Survives, Fold, RegOf, ByIndex, ByData;
    res.crc, res.crclist, res.crcmatrix, res.crcstate := 0, 0, 0, 0;
    fed, firsts, second := [], [], 0;
    for i := 0 to res.iterations
      invariant Linked(res.list, s) && Pristine(s, D, X) && Infos(s) == old(Infos(s))
      invariant forall c :: c in s ==> c.info == old(c.info)
      invariant |fed| == |firsts| == i && forall c :: c in firsts ==> ByIndex(c, D, X, res.seed3)
      invariant i == 0 ==> res.crc == res.crclist == 0
      invariant i > 0 ==> ByData(second, D, X, res.seed3) && RoundCrc(res.crclist, fed[0], firsts[0], second)
                          && RoundCrc(res.crc, fed[i - 1], firsts[i - 1], second)
    {
      ghost var k, c, d := BenchTwice(res, s, D, X);
      SameInfos(s);
      if i > 0 {
        ByDataAgree(d, second, D, X, res.seed3);
      }
      fed, firsts, second := fed + [k], firsts + [c], d;
      if i == 0 {
        res.crclist := res.crc;
      }
    }
  }
}
