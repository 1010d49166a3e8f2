/** When the last sort of the list benchmark, by index, brings the original order back. */
module Restoration {
  import opened Numbers
  import opened ListCells
  import opened Comparators
  import opened RunOrder
  import opened SearchPhase

  // ---------- sorting by index undoes every rearrangement ----------

  ghost predicate Increasing(X: seq<s16>)
  {
    forall i, j :: 0 <= i < j < |X| ==> X[i] < X[j]
  }

  ghost predicate Sorted(X: seq<s16>)
  {
    forall i, j :: 0 <= i < j < |X| ==> X[i] <= X[j]
  }

  /** Cells with equal indices come in their original order. */
  ghost predicate TiesInOrder(X: seq<s16>, ord: seq<nat>)
    requires Indices(ord, |X|)
  {
    forall i, j :: 0 <= i < j < |ord| && X[ord[i]] == X[ord[j]] ==> ord[i] < ord[j]
  }

  /** A permutation that increases everywhere is the identity. */
  lemma {:induction false} IncreasingIsIdentity(ord: seq<nat>, n: nat)
    requires Permutation(ord, n) && forall i, j :: 0 <= i < j < n ==> ord[i] < ord[j]
    ensures forall i :: 0 <= i < n ==> ord[i] == i
  {
    forall i | 0 <= i < n ensures ord[i] == i {
      AtLeast(ord, i);
      AtMost(ord, n, i);
    }
  }

  lemma {:induction false} AtLeast(ord: seq<nat>, i: nat)
    requires i < |ord| && forall i, j :: 0 <= i < j < |ord| ==> ord[i] < ord[j]
    ensures ord[i] >= i
  {
    if i > 0 {
      AtLeast(ord, i - 1);
      assert ord[i - 1] < ord[i];
    }
  }

  lemma {:induction false} AtMost(ord: seq<nat>, n: nat, i: nat)
    requires i < |ord| == n && Indices(ord, n) && forall i, j :: 0 <= i < j < |ord| ==> ord[i] < ord[j]
    ensures ord[i] <= i
    decreases n - i
  {
    if i + 1 < n {
      AtMost(ord, n, i + 1);
      assert ord[i] < ord[i + 1];
    }
  }

  /**
   Let `ord` be any rearrangement of a list that was sorted by index, and `sel` what a stable sort by
   index makes of it.  The original order comes back exactly when ties were still in order.
   */
  lemma SortRestoresIff(X: seq<s16>, ord: seq<nat>, E: seq<u16>, sel: seq<nat>)
    requires Sorted(X) && Permutation(ord, |X|) && |E| == |X| && Permutation(sel, |X|)
    requires Run(false, E, Picked(X, ord), sel, 0, |X|)
    ensures (forall i :: 0 <= i < |X| ==> Picked(ord, sel)[i] == i) <==> TiesInOrder(X, ord)
  {
    var r, Y := Picked(ord, sel), Picked(X, ord);
    ThroughPermutation(ord, sel);
    if TiesInOrder(X, ord) {
      forall i, j | 0 <= i < j < |r| ensures r[i] < r[j] {
        assert Before(false, E, Y, sel[i], sel[j]);
        assert X[r[i]] <= X[r[j]];
        if X[r[i]] == X[r[j]] {
          assert sel[i] < sel[j];
        } else {
          SameAt(r, i, j);
        }
      }
      IncreasingIsIdentity(r, |X|);
    }
    if forall i :: 0 <= i < |X| ==> r[i] == i {
      forall a, b | 0 <= a < b < |ord| && X[ord[a]] == X[ord[b]] ensures ord[a] < ord[b] {
        var i, j := ord[a], ord[b];
        assert r[i] == ord[a] && r[j] == ord[b];
        SameAt(ord, sel[i], a);
        SameAt(ord, sel[j], b);
        SameAt(ord, a, b);
      }
    }
  }

  lemma SameAt<T>(t: seq<T>, i: nat, j: nat)
    requires Distinct(t) && i < |t| && j < |t|
    ensures t[i] == t[j] ==> i == j
  {
  }

  lemma ThroughPermutation(ord: seq<nat>, sel: seq<nat>)
    requires Permutation(ord, |ord|) && Permutation(sel, |ord|)
    ensures Permutation(Picked(ord, sel), |ord|)
  {
    var r := Picked(ord, sel);
    forall i, j | 0 <= i < j < |r| ensures r[i] != r[j] {
      assert sel[i] != sel[j];
    }
  }

  lemma IncreasingHasNoTies(X: seq<s16>, ord: seq<nat>)
    requires Increasing(X) && Permutation(ord, |X|)
    ensures Sorted(X) && TiesInOrder(X, ord)
  {
    forall i, j | 0 <= i < j < |ord| ensures X[ord[i]] != X[ord[j]] {
      assert ord[i] != ord[j];
    }
  }

  lemma {:induction false} RangeSize(n: nat, r: set<nat>)
    requires forall x :: x in r ==> x < n
    ensures |r| <= n
    decreases n
  {
    if n > 0 {
      RangeSize(n - 1, r - {n - 1});
    }
  }

  lemma {:induction false} ElementCount(ord: seq<nat>, k: nat)
    requires k <= |ord| && Distinct(ord)
    ensures |set i | 0 <= i < k :: ord[i]| == k
  {
    if k > 0 {
      ElementCount(ord, k - 1);
      var r := set i | 0 <= i < k - 1 :: ord[i];
      assert (set i | 0 <= i < k :: ord[i]) == r + {ord[k - 1]};
      assert ord[k - 1] !in r;
    }
  }

  /** Every position occurs in a permutation. */
  lemma Occurs(ord: seq<nat>, n: nat, x: nat) returns (i: nat)
    requires Permutation(ord, n) && x < n
    ensures i < n && ord[i] == x
  {
    var r := set i | 0 <= i < n :: ord[i];
    ElementCount(ord, n);
    if x !in r {
      var all := r + {x};
      RangeSize(n, all);
    }
    i :| 0 <= i < n && ord[i] == x;
  }

  /** There is only one stable order, so the sort's specification leaves it no choice. */
  lemma StableOrderUnique(complex: bool, D: seq<u16>, X: seq<s16>, ord: seq<nat>, other: seq<nat>)
    requires |D| == |X| && Permutation(ord, |D|) && Permutation(other, |D|)
    requires Run(complex, D, X, ord, 0, |D|) && Run(complex, D, X, other, 0, |D|)
    ensures ord == other
  {
    hide Run;
    var i := 0;
    while i < |D|
      invariant i <= |D| && ord[..i] == other[..i]
    {
      if ord[i] != other[i] {
        var j := Occurs(other, |D|, ord[i]);
        var k := Occurs(ord, |D|, other[i]);
        LaterIsAfter(complex, D, X, ord, other, i, j);
        LaterIsAfter(complex, D, X, other, ord, i, k);
      }
      i := i + 1;
    }
    assert ord == ord[..|D|] == other[..|D|] == other;
  }

  /**
   What the sort by data leaves, whatever values the kernels return: every item has been compared and carries its
   cached value, the list is sorted by these values, and the backups in the high bytes are intact.
   */
  lemma CachedAndSorted(D0: seq<u16>, D: seq<u16>, X: seq<s16>, ord: seq<nat>)
    requires |D0| == |D| == |X| >= 2 && Permutation(ord, |D|) && Evolves(true, D0, D) && Run(true, D, X, ord, 0, |D|)
    ensures forall x :: 0 <= x < |D| ==> Cached(D[x]) && HighByte(D[x]) == HighByte(D0[x])
    ensures forall i, j :: 0 <= i < j < |D| ==> D[ord[i]] % 128 <= D[ord[j]] % 128
  {
    forall x | 0 <= x < |D| ensures Cached(D[x]) {
      var i := Occurs(ord, |D|, x);
      assert Settled(true, D[ord[i]]);
    }
    forall i, j | 0 <= i < j < |D| ensures D[ord[i]] % 128 <= D[ord[j]] % 128 {
      assert Before(true, D, X, ord[i], ord[j]);
    }
  }

  lemma LaterIsAfter(complex: bool, D: seq<u16>, X: seq<s16>, ord: seq<nat>, other: seq<nat>, i: nat, j: nat)
    requires |D| == |X| && Permutation(ord, |D|) && Permutation(other, |D|) && i < |D| && j < |D|
    requires Run(complex, D, X, other, 0, |D|) && ord[..i] == other[..i]
    requires other[j] == ord[i] && ord[i] != other[i]
    ensures Before(complex, D, X, other[i], ord[i])
  {
    assert forall l {:trigger ord[l]} :: 0 <= l < i ==> ord[..i][l] == other[..i][l];
  }

  /** One reversal is enough to need distinct indices: sorting it back works exactly when there are none equal. */
  lemma ReversalRestoredIff(X: seq<s16>)
    requires Sorted(X)
    ensures TiesInOrder(X, Reversed(Identity(|X|))) <==> Increasing(X)
  {
    var r := Reversed(Identity(|X|));
    if TiesInOrder(X, r) {
      forall i, j | 0 <= i < j < |X| ensures X[i] < X[j] {
        var a, b := |X| - 1 - j, |X| - 1 - i;
        assert r[a] == j && r[b] == i;
      }
    } else {
      var i, j :| 0 <= i < j < |r| && X[r[i]] == X[r[j]] && r[i] >= r[j];
      assert r[i] == |X| - 1 - i && r[j] == |X| - 1 - j;
    }
  }

  // ---------- the arrangement before the last sort ----------

  /**
   The order and the data words with which the last sort starts: those of the search phase, and for a positive index
   what a stable sort by data makes of them, whatever values the kernels have returned.
   */
  ghost predicate Arranged(D: seq<u16>, X: seq<s16>, finderIdx: s16, n: nat, F: seq<u16>, arranged: seq<nat>)
    requires |D| == |X| >= 2
  {
    var ord := Searched(D, X, finderIdx, n).ord;
    && |F| == |D| && Evolves(true, D, F)
    && if finderIdx <= 0 then F == D && arranged == ord
       else exists sel :: Permutation(sel, |D|) && Run(true, Picked(F, ord), Picked(X, ord), sel, 0, |D|)
                          && arranged == Picked(ord, sel)
  }

  lemma ArrangedEvolves(D: seq<u16>, X: seq<s16>, finderIdx: s16, n: nat, F: seq<u16>, arranged: seq<nat>)
    requires |D| == |X| >= 2 && Arranged(D, X, finderIdx, n, F, arranged)
    ensures |F| == |D| && Evolves(true, D, F)
  {
  }

  /** Comparing the items by data runs no kernel. */
  ghost predicate NoKernels(D: seq<u16>) { forall i :: 0 <= i < |D| ==> !CallsKernel(D[i]) }

  /**
   The condition on what goes into the benchmark: for each pair of equal indices, what was first in the list is first
   after the search phase, and for a positive index, after a stable sort of that by the values of the data words `E`.
   */
  ghost predicate Survives(E: seq<u16>, X: seq<s16>, finderIdx: s16, ord: seq<nat>)
    requires |E| == |X| && Indices(ord, |X|)
  {
    forall i, j :: 0 <= i < |ord| && 0 <= j < |ord| && X[ord[i]] == X[ord[j]] && ord[i] < ord[j] ==>
      if finderIdx <= 0 then i < j
      else E[ord[i]] % 128 < E[ord[j]] % 128 || (E[ord[i]] % 128 == E[ord[j]] % 128 && i < j)
  }

  /** It says exactly that ties are in order in the arrangement. */
  lemma TiesSurvive(D: seq<u16>, X: seq<s16>, finderIdx: s16, n: nat, F: seq<u16>, arranged: seq<nat>)
    requires |D| == |X| >= 2 && Arranged(D, X, finderIdx, n, F, arranged)
    ensures Permutation(arranged, |X|)
    ensures TiesInOrder(X, arranged) <==> Survives(F, X, finderIdx, Searched(D, X, finderIdx, n).ord)
  {
    hide Searched;
    var ord := Searched(D, X, finderIdx, n).ord;
    if finderIdx <= 0 {
      TiesSurviveSearch(X, ord, F, finderIdx);
    } else {
      hide Run;
      var sel :| Permutation(sel, |D|) && Run(true, Picked(F, ord), Picked(X, ord), sel, 0, |D|)
                 && arranged == Picked(ord, sel);
      ThroughPermutation(ord, sel);
      TiesSurviveSort(F, X, finderIdx, ord, sel);
    }
  }

  lemma TiesSurviveSearch(X: seq<s16>, ord: seq<nat>, F: seq<u16>, finderIdx: s16)
    requires |F| == |X| && Permutation(ord, |X|) && finderIdx <= 0
    ensures TiesInOrder(X, ord) <==> Survives(F, X, finderIdx, ord)
  {
    forall i, j | 0 <= i < |ord| && 0 <= j < |ord| && ord[i] == ord[j] ensures i == j {
      SameAt(ord, i, j);
    }
  }

  lemma TiesSurviveSort(F: seq<u16>, X: seq<s16>, finderIdx: s16, ord: seq<nat>, sel: seq<nat>)
    requires |F| == |X| && Permutation(ord, |X|) && Permutation(sel, |X|) && finderIdx > 0
    requires Run(true, Picked(F, ord), Picked(X, ord), sel, 0, |X|)
    ensures TiesInOrder(X, Picked(ord, sel)) <==> Survives(F, X, finderIdx, ord)
  {
    var r, E, Y := Picked(ord, sel), Picked(F, ord), Picked(X, ord);
    if TiesInOrder(X, r) {
      forall i, j | 0 <= i < |ord| && 0 <= j < |ord| && X[ord[i]] == X[ord[j]] && ord[i] < ord[j]
        ensures Before(true, E, Y, i, j)
      {
        var a := Occurs(sel, |X|, i);
        var b := Occurs(sel, |X|, j);
        assert r[a] == ord[i] && r[b] == ord[j];
        SameAt(sel, a, b);
      }
    }
    if Survives(F, X, finderIdx, ord) {
      forall a, b | 0 <= a < b < |r| && X[r[a]] == X[r[b]] ensures r[a] < r[b] {
        var i, j := sel[a], sel[b];
        assert Before(true, E, Y, i, j);
        SameAt(ord, i, j);
        SameAt(sel, a, b);
      }
    }
  }

  /** When no item calls a kernel, the condition is one on the items that the benchmark is given. */
  lemma SurvivesWithoutKernels(D: seq<u16>, X: seq<s16>, finderIdx: s16, n: nat, F: seq<u16>, arranged: seq<nat>)
    requires |D| == |X| >= 2 && Arranged(D, X, finderIdx, n, F, arranged) && (finderIdx <= 0 || NoKernels(D))
    ensures var ord := Searched(D, X, finderIdx, n).ord;
      Survives(F, X, finderIdx, ord) <==> Survives(D, X, finderIdx, ord)
  {
    hide Searched;
    if finderIdx > 0 {
      forall i | 0 <= i < |D| ensures F[i] % 128 == D[i] % 128 {
        assert Evolved(true, D[i], F[i]);
      }
    }
  }

  /** The list is restored for certain: there are no ties, or they survive and no kernel has a say in it. */
  ghost predicate Restores(D: seq<u16>, X: seq<s16>, finderIdx: s16, n: nat)
    requires |D| == |X| >= 2
  {
    Increasing(X) || ((finderIdx <= 0 || NoKernels(D)) && Survives(D, X, finderIdx, Searched(D, X, finderIdx, n).ord))
  }

  lemma RestoresTies(D: seq<u16>, X: seq<s16>, finderIdx: s16, n: nat, F: seq<u16>, arranged: seq<nat>)
    requires |D| == |X| >= 2 && Arranged(D, X, finderIdx, n, F, arranged) && Restores(D, X, finderIdx, n)
    ensures Permutation(arranged, |X|) && TiesInOrder(X, arranged)
  {
    hide Searched, Arranged, Survives, TiesInOrder, NoKernels;
    TiesSurvive(D, X, finderIdx, n, F, arranged);
    if Increasing(X) {
      IncreasingHasNoTies(X, arranged);
    } else {
      SurvivesWithoutKernels(D, X, finderIdx, n, F, arranged);
    }
  }

  /** Then the arrangement is determined, and so are the words that the sort by data leaves. */
  lemma ArrangementDetermined(D: seq<u16>, X: seq<s16>, finderIdx: s16, n: nat,
                              F: seq<u16>, arranged: seq<nat>, F': seq<u16>, arranged': seq<nat>)
    requires |D| == |X| >= 2 && (finderIdx <= 0 || NoKernels(D))
    requires Arranged(D, X, finderIdx, n, F, arranged) && Arranged(D, X, finderIdx, n, F', arranged')
    ensures F == F' && arranged == arranged'
  {
    hide Searched, Run;
    if finderIdx > 0 {
      var ord := Searched(D, X, finderIdx, n).ord;
      var sel :| Permutation(sel, |D|) && Run(true, Picked(F, ord), Picked(X, ord), sel, 0, |D|)
                 && arranged == Picked(ord, sel);
      var sel' :| Permutation(sel', |D|) && Run(true, Picked(F', ord), Picked(X, ord), sel', 0, |D|)
                  && arranged' == Picked(ord, sel');
      forall x | 0 <= x < |D| ensures F[x] == F'[x] {
        CachedByRun(F, X, ord, sel, x);
        CachedByRun(F', X, ord, sel', x);
        assert Evolved(true, D[x], F[x]) && Evolved(true, D[x], F'[x]);
        SameItem(F[x], F'[x]);
      }
      assert F == F';
      StableOrderUnique(true, Picked(F, ord), Picked(X, ord), sel, sel');
    }
  }

  lemma CachedByRun(F: seq<u16>, X: seq<s16>, ord: seq<nat>, sel: seq<nat>, x: nat)
    requires |F| == |X| >= 2 && Permutation(ord, |F|) && Permutation(sel, |F|) && x < |F|
    requires Run(true, Picked(F, ord), Picked(X, ord), sel, 0, |F|)
    ensures Cached(F[x])
  {
    var i := Occurs(ord, |F|, x);
    var j := Occurs(sel, |F|, i);
    assert Settled(true, Picked(F, ord)[sel[j]]);
  }

  // ---------- the head of the sorted list ----------

  /** The cell that comes first in a stable sort by index: the first one with the lowest index. */
  ghost function HeadOf(X: seq<s16>, ord: seq<nat>, k: nat): (h: nat)
    requires |X| > 0 && Permutation(ord, |X|) && k <= |ord|
    ensures h < |X|
    decreases |ord| - k
  {
    if k == |ord| then 0 else if X[ord[k]] == X[0] then ord[k] else HeadOf(X, ord, k + 1)
  }

  lemma {:induction false} HeadOfIs(X: seq<s16>, ord: seq<nat>, k: nat, r: nat)
    requires |X| > 0 && Permutation(ord, |X|) && k <= r < |ord|
    requires X[ord[r]] == X[0] && forall i :: k <= i < r ==> X[ord[i]] != X[0]
    ensures HeadOf(X, ord, k) == ord[r]
    decreases r - k
  {
    if k < r {
      HeadOfIs(X, ord, k + 1, r);
    }
  }

  /** The first item of a sorted selection has the least index. */
  lemma SortedLeast(X: seq<s16>, ord: seq<nat>, E: seq<u16>, sel: seq<nat>)
    requires |X| > 0 && Sorted(X) && Permutation(ord, |X|) && |E| == |X| && Permutation(sel, |X|)
    requires Run(false, E, Picked(X, ord), sel, 0, |X|)
    ensures X[ord[sel[0]]] == X[0]
  {
    var h, Y := sel[0], Picked(X, ord);
    var p := Occurs(ord, |X|, 0);
    var b := Occurs(sel, |X|, p);
    assert b > 0 ==> Before(false, E, Y, sel[0], sel[b]);
    assert X[ord[h]] <= X[0];
    assert X[0] <= X[ord[h]];
  }

  lemma SortedHead(X: seq<s16>, ord: seq<nat>, E: seq<u16>, sel: seq<nat>)
    requires |X| > 0 && Sorted(X) && Permutation(ord, |X|) && |E| == |X| && Permutation(sel, |X|)
    requires Run(false, E, Picked(X, ord), sel, 0, |X|)
    ensures ord[sel[0]] == HeadOf(X, ord, 0)
  {
    var h, Y := sel[0], Picked(X, ord);
    SortedLeast(X, ord, E, sel);
    hide Sorted;
    forall i | 0 <= i < h ensures X[ord[i]] != X[0] {
      var c := Occurs(sel, |X|, i);
      assert Before(false, E, Y, sel[0], sel[c]);
    }
    HeadOfIs(X, ord, 0, h);
  }
}
