/** The search phase of `core_bench_list`: each find reverses the list, and a hit moves a cell to the front. */
module SearchPhase {
  import opened Numbers
  import opened ListCells
  import opened Comparators
  import opened RunOrder
  import opened MergeSort

  // ---------- the two rearrangements of the search phase, on orders ----------

  /** Moves the element after position `k` to the place right after the first one. */
  ghost function Spliced<T>(t: seq<T>, k: nat): (r: seq<T>)
    requires k < |t|
    ensures |r| == |t|
  {
    if k + 1 < |t| then [t[0], t[k + 1]] + t[1..k + 1] + t[k + 2..] else t
  }

  lemma SplicedAt<T>(t: seq<T>, k: nat, i: nat)
    requires k + 1 < |t| && i < |t|
    ensures Spliced(t, k)[i]
            == if i == 0 then t[0] else if i == 1 then t[k + 1] else if i <= k + 1 then t[i - 1] else t[i]
  {
  }

  lemma SplicedVisited(s: seq<Cell>, ord: seq<nat>, k: nat)
    requires Permutation(ord, |s|) && k < |s|
    ensures Permutation(Spliced(ord, k), |s|)
    ensures Picked(s, Spliced(ord, k)) == Spliced(Picked(s, ord), k)
  {
    var ord', t, n := Spliced(ord, k), Picked(s, ord), |s|;
    if k + 1 < n {
      forall i | 0 <= i < n ensures ord'[i] < n && Spliced(t, k)[i] == s[ord'[i]] {
        SplicedAt(ord, k, i);
        SplicedAt(t, k, i);
      }
      forall i, j | 0 <= i < j < n ensures ord'[i] != ord'[j] {
        SplicedAt(ord, k, i);
        SplicedAt(ord, k, j);
      }
    }
  }

  lemma ReversedVisited(s: seq<Cell>, ord: seq<nat>)
    requires Permutation(ord, |s|)
    ensures Permutation(Reversed(ord), |s|)
    ensures Picked(s, Reversed(ord)) == Reversed(Picked(s, ord))
  {
  }

  function Identity(n: nat): (r: seq<nat>)
    ensures |r| == n && forall i :: 0 <= i < n ==> r[i] == i
  {
    seq(n, i => i)
  }

  lemma IdentityVisited(s: seq<Cell>)
    ensures Permutation(Identity(|s|), |s|) && Picked(s, Identity(|s|)) == s
  {
  }

  // ---------- splicing, in place ----------

  method Splice(list: Cell, thisFind: Cell, ghost t: seq<Cell>, ghost k: nat)
    requires Linked(list, t) && k < |t| && thisFind == t[k]
    modifies (set c | c in t)`next
    ensures Linked(list, Spliced(t, k))
  {
    if thisFind.next != null {
      var finder := thisFind.next;
      thisFind.next := finder.next;
      finder.next := list.next;
      list.next := finder;
      assert t[0].next == t[k + 1];
      assert t[k + 1].next == if k == 0 then Succ(t, 1) else t[1];
      assert k > 0 ==> t[k].next == Succ(t, k + 1);
      SplicedLinked(list, t, k);
    }
  }

  lemma SplicedLinked(list: Cell, t: seq<Cell>, k: nat)
    requires Distinct(t) && k + 1 < |t| && list == t[0]
    requires t[0].next == t[k + 1]
    requires t[k + 1].next == if k == 0 then Succ(t, 1) else t[1]
    requires k > 0 ==> t[k].next == Succ(t, k + 1)
    requires forall i {:trigger t[i].next} :: 0 < i < |t| && i != k && i != k + 1 ==> t[i].next == Succ(t, i)
    ensures Linked(list, Spliced(t, k))
  {
    var r := Spliced(t, k);
    forall i, j | 0 <= i < j < |r| ensures r[i] != r[j] {
      SplicedAt(t, k, i);
      SplicedAt(t, k, j);
    }
    forall i {:trigger r[i].next} | 0 <= i < |r| ensures r[i].next == Succ(r, i) {
      SplicedAt(t, k, i);
      if i + 1 < |r| { SplicedAt(t, k, i + 1); }
    }
  }

  // ---------- the phase on orders ----------

  /** What the phase has reached: the order of the list, the index looked for next, and its counters. */
  datatype Progress = Progress(ord: seq<nat>, idx: s16, retval: bv16, found: nat, missed: nat)

  /** The first place from `k` on whose item is looked for, or the length of the list. */
  ghost function FirstMatch(D: seq<u16>, X: seq<s16>, ord: seq<nat>, idx: s16, data16: u16, k: nat): (r: nat)
    requires |D| == |X| && Indices(ord, |D|) && k <= |ord|
    ensures k <= r <= |ord|
    decreases |ord| - k
  {
    if k == |ord| || Matches(X[ord[k]], D[ord[k]], idx, data16) then k
    else FirstMatch(D, X, ord, idx, data16, k + 1)
  }

  lemma {:induction false} FirstMatchIs(D: seq<u16>, X: seq<s16>, ord: seq<nat>, idx: s16, data16: u16, k: nat, r: nat)
    requires |D| == |X| && Indices(ord, |D|) && k <= r <= |ord|
    requires forall i :: k <= i < r ==> !Matches(X[ord[i]], D[ord[i]], idx, data16)
    requires r < |ord| ==> Matches(X[ord[r]], D[ord[r]], idx, data16)
    ensures FirstMatch(D, X, ord, idx, data16, k) == r
    decreases r - k
  {
    if k < r {
      FirstMatchIs(D, X, ord, idx, data16, k + 1, r);
    }
  }

  function AddBit(retval: bv16, d: u16, bit: int): bv16
    requires bit > 0
  {
    if d / bit % 2 == 1 then retval + 1 else retval
  }

  /** `info.idx++` on a signed 16-bit field. */
  function Next16(idx: s16): s16 { if idx == 0x7fff then -0x8000 else idx + 1 }

  function IndexAfter(idx: s16): s16 { if idx >= 0 then Next16(idx) else idx }

  /** A find that misses reverses the list, and counts bit 8 of the item that is then second. */
  ghost function Missed(D: seq<u16>, p: Progress): (q: Progress)
    requires |D| >= 2 && Permutation(p.ord, |D|)
    ensures Permutation(q.ord, |D|)
  {
    var r := Reversed(p.ord);
    Progress(r, IndexAfter(p.idx), AddBit(p.retval, D[r[1]], 256), p.found, p.missed + 1)
  }

  /** One that hits also splices, and counts bit 9 of the item that is hit if its bit 0 is set. */
  ghost function Hit(D: seq<u16>, p: Progress, k: nat): (q: Progress)
    requires Permutation(p.ord, |D|) && k < |D|
    ensures Permutation(q.ord, |D|)
  {
    var r, d := Reversed(p.ord), D[p.ord[k]];
    SplicedPermutes(r, |D| - 1 - k);
    Progress(Spliced(r, |D| - 1 - k), IndexAfter(p.idx), if d % 2 == 1 then AddBit(p.retval, d, 512) else p.retval,
             p.found + 1, p.missed)
  }

  /** Round `i` of the phase, on orders. */
  ghost function Round(D: seq<u16>, X: seq<s16>, i: nat, p: Progress): (q: Progress)
    requires |D| == |X| >= 2 && Permutation(p.ord, |D|)
    ensures Permutation(q.ord, |D|)
  {
    var k := FirstMatch(D, X, p.ord, p.idx, i % 256, 0);
    if k == |D| then Missed(D, p) else Hit(D, p, k)
  }

  lemma SplicedPermutes(ord: seq<nat>, k: nat)
    requires Permutation(ord, |ord|) && k < |ord|
    ensures Permutation(Spliced(ord, k), |ord|)
  {
    var r := Spliced(ord, k);
    if k + 1 < |ord| {
      forall i | 0 <= i < |ord| ensures r[i] < |ord| {
        SplicedAt(ord, k, i);
      }
      forall i, j | 0 <= i < j < |ord| ensures r[i] != r[j] {
        SplicedAt(ord, k, i);
        SplicedAt(ord, k, j);
      }
    }
  }

  /** The phase after `n` rounds. */
  ghost function Searched(D: seq<u16>, X: seq<s16>, finderIdx: s16, n: nat): (p: Progress)
    requires |D| == |X| >= 2
    ensures Permutation(p.ord, |D|)
  {
    if n == 0 then Progress(Identity(|D|), finderIdx, 0, 0, 0) else Round(D, X, n - 1, Searched(D, X, finderIdx, n - 1))
  }

  lemma SearchedStart(D: seq<u16>, X: seq<s16>, finderIdx: s16)
    requires |D| == |X| >= 2
    ensures Searched(D, X, finderIdx, 0) == Progress(Identity(|D|), finderIdx, 0, 0, 0)
  {
  }

  lemma SearchedNext(D: seq<u16>, X: seq<s16>, finderIdx: s16, n: nat)
    requires |D| == |X| >= 2
    ensures Searched(D, X, finderIdx, n + 1) == Round(D, X, n, Searched(D, X, finderIdx, n))
  {
  }

  lemma LastDataNext(i: s16)
    requires 0 <= i < 0x7fff
    ensures LastData(i + 1) == i % 256
  {
  }

  lemma NoData(findNum: s16)
    requires findNum <= 0
    ensures LastData(findNum) == 0
  {
  }

  function Rounds(findNum: s16): nat { if findNum > 0 then findNum else 0 }

  function Score(found: int, missed: int): u16 { (found * 4 - missed) % 0x1_0000 }

  /** The data that the last round looks for. */
  function LastData(findNum: s16): u16 { if findNum > 0 then (findNum - 1) % 256 else 0 }

  /** What the phase returns. */
  ghost function SearchValue(p: Progress): (v: bv16)
    ensures v == p.retval + AsWord(Score(p.found, p.missed))
  {
    p.retval + AsWord(Score(p.found, p.missed))
  }

  lemma VisitedHolds(s: seq<Cell>, ord: seq<nat>, D: seq<u16>, X: seq<s16>)
    requires Indices(ord, |s|) && Holds(s, D, X)
    ensures forall i {:trigger ord[i]} :: 0 <= i < |ord| ==>
              Picked(s, ord)[i] == s[ord[i]] && s[ord[i]].info.data16 == D[ord[i]] && s[ord[i]].info.idx == X[ord[i]]
  {
  }

  // ---------- the phase in place ----------

  /** Finds the item at the first place that matches. */
  method FindPlace(list: Cell, idx: s16, data16: u16,
                   ghost s: seq<Cell>, ghost ord: seq<nat>, ghost D: seq<u16>, ghost X: seq<s16>)
    returns (thisFind: Cell?, ghost k: nat)
    requires |D| == |X| == |s| && Indices(ord, |s|) && Linked(list, Picked(s, ord)) && Holds(s, D, X)
    ensures k == FirstMatch(D, X, ord, idx, data16, 0) <= |ord| && thisFind == if k < |ord| then s[ord[k]] else null
  {
    hide FirstMatch, Matches;
    ghost var t := Picked(s, ord);
    thisFind, k := Find(list, idx, data16, t);
    VisitedHolds(s, ord, D, X);
    FirstMatchIs(D, X, ord, idx, data16, 0, k);
  }

  lemma SecondCell(list: Cell, s: seq<Cell>, ord: seq<nat>, D: seq<u16>, X: seq<s16>)
    requires |ord| >= 2 && Indices(ord, |s|) && Linked(list, Picked(s, ord)) && Holds(s, D, X)
    ensures list.next == s[ord[1]] && s[ord[1]].info.data16 == D[ord[1]]
  {
    var t := Picked(s, ord);
    assert t[0].next == t[1] == s[ord[1]];
  }

  lemma HeldAt(s: seq<Cell>, D: seq<u16>, X: seq<s16>, x: nat)
    requires Holds(s, D, X) && x < |s|
    ensures s[x].info.data16 == D[x]
  {
  }

  lemma ReversedPlace(s: seq<Cell>, ord: seq<nat>, k: nat)
    requires Permutation(ord, |s|) && k < |s|
    ensures Reversed(Picked(s, ord))[|s| - 1 - k] == s[ord[k]]
  {
  }

  /** One round: relinking the cells does to the list what `Round` does to its order. */
  method SearchRound(list0: Cell, i: s16, ghost p: Progress, idx0: s16, retval0: bv16, found0: nat, missed0: nat,
                     ghost s: seq<Cell>, ghost D: seq<u16>, ghost X: seq<s16>)
    returns (list: Cell, retval: bv16, idx: s16, found: nat, missed: nat)
    requires |D| == |X| == |s| >= 2 && Permutation(p.ord, |s|) && Linked(list0, Picked(s, p.ord)) && Holds(s, D, X)
    requires i >= 0 && p == Progress(p.ord, idx0, retval0, found0, missed0)
    modifies (set c | c in s)`next
    ensures Linked(list, Picked(s, Round(D, X, i, p).ord)) && Holds(s, D, X)
    ensures Round(D, X, i, p) == Progress(Round(D, X, i, p).ord, idx, retval, found, missed)
  {
    hide Spliced, Reversed, Distinct, FirstMatch, AddBit, Next16;
    retval, idx, found, missed := retval0, idx0, found0, missed0;
    var data16 := i % 256;
    ghost var t := Picked(s, p.ord);
    var thisFind, k := FindPlace(list0, idx, data16, s, p.ord, D, X);
    list := Reverse(list0, t);
    ReversedVisited(s, p.ord);
    ghost var r := Reversed(p.ord);
    if thisFind == null {
      missed := missed + 1;
      SecondCell(list, s, r, D, X);
      retval := AddBit(retval, list.next.info.data16, 256);
    } else {
      found := found + 1;
      HeldAt(s, D, X, p.ord[k]);
      if thisFind.info.data16 % 2 == 1 {
        retval := AddBit(retval, thisFind.info.data16, 512);
      }
      ghost var j := |s| - 1 - k;
      ReversedPlace(s, p.ord, k);
      Splice(list, thisFind, Reversed(t), j);
      SplicedVisited(s, r, j);
    }
    if idx >= 0 {
      idx := Next16(idx);
    }
  }

  /** Finds `findNum` items; order, counters and value are those of the phase on orders. */
  method Search(list0: Cell, findNum: s16, finderIdx: s16, ghost s: seq<Cell>, ghost D: seq<u16>, ghost X: seq<s16>)
    returns (list: Cell, retval: bv16, idx: s16, data16: u16)
    requires |D| == |X| == |s| >= 2 && Linked(list0, s) && Holds(s, D, X)
    modifies (set c | c in s)`next
    ensures Holds(s, D, X) && Linked(list, Picked(s, Searched(D, X, finderIdx, Rounds(findNum)).ord))
    ensures idx == Searched(D, X, finderIdx, Rounds(findNum)).idx
    ensures retval == SearchValue(Searched(D, X, finderIdx, Rounds(findNum)))
    ensures data16 == LastData(findNum)
  {
    hide Linked, Holds, Round, Searched, Score, AsWord, LastData;
    SearchedStart(D, X, finderIdx);
    list, retval, idx, data16 := list0, 0, finderIdx, 0;
    var found, missed := 0, 0;
    IdentityVisited(s);
    NoData(0);
    if findNum <= 0 { NoData(findNum); }
    var i := 0;
    while i < findNum
      invariant 0 <= i <= Rounds(findNum) && Holds(s, D, X)
      invariant Linked(list, Picked(s, Searched(D, X, finderIdx, i).ord))
      invariant Searched(D, X, finderIdx, i) == Progress(Searched(D, X, finderIdx, i).ord, idx, retval, found, missed)
      invariant data16 == LastData(i)
    {
      SearchedNext(D, X, finderIdx, i);
      LastDataNext(i);
      data16 := i % 256;
      list, retval, idx, found, missed :=
        SearchRound(list, i, Searched(D, X, finderIdx, i), idx, retval, found, missed, s, D, X);
      i := i + 1;
    }
    retval := retval + AsWord(Score(found, missed));
  }
}
