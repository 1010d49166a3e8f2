/**
 Sorted runs, on values.  A list is described by the order `ord` in which it visits the cells of the
 list that was handed to the sort; `D` and `X` are the data words and indices of those cells.
 */
module RunOrder {
  import opened Numbers
  import opened ListCells
  import opened Comparators

  /** The order of a stable sort: by key, and among equal keys by original position. */
  predicate Before(complex: bool, D: seq<u16>, X: seq<s16>, x: nat, y: nat)
    requires x < |D| == |X| && y < |D|
  {
    var kx, ky := Key(complex, D[x], X[x]), Key(complex, D[y], X[y]);
    kx < ky || (kx == ky && x < y)
  }

  predicate Indices(ord: seq<nat>, n: nat)
  {
    forall i :: 0 <= i < |ord| ==> ord[i] < n
  }

  /** The elements of `v` in the order `ord`. */
  ghost function Picked<T>(v: seq<T>, ord: seq<nat>): (r: seq<T>)
    requires Indices(ord, |v|)
    ensures |r| == |ord|
  {
    seq(|ord|, i requires 0 <= i < |ord| => v[ord[i]])
  }

  /** `ord` lists each of the first `n` positions once. */
  ghost predicate Permutation(ord: seq<nat>, n: nat)
  {
    |ord| == n && Indices(ord, n) && Distinct(ord)
  }

  /** Positions `a` to `b` hold the original cells `a` to `b`, sorted; two or more of them are settled. */
  ghost predicate Run(complex: bool, D: seq<u16>, X: seq<s16>, ord: seq<nat>, a: nat, b: nat)
    requires |D| == |X| && a <= b <= |ord| && Indices(ord, |D|)
  {
    && (forall i :: a <= i < b ==> a <= ord[i] < b)
    && (forall i, j :: a <= i < j < b ==> Before(complex, D, X, ord[i], ord[j]))
    && (b - a >= 2 ==> forall i :: a <= i < b ==> Settled(complex, D[ord[i]]))
  }

  lemma NoRuns(complex: bool, D: seq<u16>, X: seq<s16>, ord: seq<nat>, a: nat, w: nat)
    requires |D| == |X| && a <= |ord| <= |D| && Indices(ord, |D|) && w > 0
    ensures Runs(complex, D, X, ord, a, a, w)
  {
  }

  /** From `a` to `b` the list consists of runs of length `w`; only one that ends the list may be shorter. */
  ghost predicate Runs(complex: bool, D: seq<u16>, X: seq<s16>, ord: seq<nat>, a: nat, b: nat, w: nat)
    requires |D| == |X| && a <= b <= |ord| <= |D| && Indices(ord, |D|) && w > 0
    decreases b - a
  {
    a < b ==>
      var e := Min(a + w, |D|);
      e <= b && Run(complex, D, X, ord, a, e) && Runs(complex, D, X, ord, e, b, w)
  }

  /** `D'` differs from `D` only by items having been settled. */
  ghost predicate Evolves(complex: bool, D: seq<u16>, D': seq<u16>)
  {
    |D| == |D'| && forall i :: 0 <= i < |D| ==> Evolved(complex, D[i], D'[i])
  }

  lemma EvolvesReflexive(complex: bool, D: seq<u16>)
    ensures Evolves(complex, D, D)
  {
  }

  lemma EvolvesTransitive(complex: bool, D: seq<u16>, D': seq<u16>, D'': seq<u16>)
    requires Evolves(complex, D, D') && Evolves(complex, D', D'')
    ensures Evolves(complex, D, D'')
  {
    forall i | 0 <= i < |D| ensures Evolved(complex, D[i], D''[i]) {
      EvolvedTransitive(complex, D[i], D'[i], D''[i]);
    }
  }

  lemma RunEvolves(complex: bool, D: seq<u16>, D': seq<u16>, X: seq<s16>, ord: seq<nat>, a: nat, b: nat)
    requires |D| == |X| && a <= b <= |ord| && Indices(ord, |D|)
    requires Evolves(complex, D, D') && Run(complex, D, X, ord, a, b)
    ensures Run(complex, D', X, ord, a, b)
  {
  }

  lemma {:induction false} RunsEvolve(complex: bool, D: seq<u16>, D': seq<u16>, X: seq<s16>, ord: seq<nat>,
                                      a: nat, b: nat, w: nat)
    requires |D| == |X| && a <= b <= |ord| <= |D| && Indices(ord, |D|) && w > 0
    requires Evolves(complex, D, D') && Runs(complex, D, X, ord, a, b, w)
    ensures Runs(complex, D', X, ord, a, b, w)
    decreases b - a
  {
    if a < b {
      var e := Min(a + w, |D|);
      RunEvolves(complex, D, D', X, ord, a, e);
      RunsEvolve(complex, D, D', X, ord, e, b, w);
    }
  }

  /** Runs hold the cells of their own stretch, so no cell occurs in two of them. */
  lemma {:induction false} RunsKeepStretch(complex: bool, D: seq<u16>, X: seq<s16>, ord: seq<nat>,
                                           a: nat, b: nat, w: nat)
    requires |D| == |X| && a <= b <= |ord| <= |D| && Indices(ord, |D|) && w > 0
    requires Runs(complex, D, X, ord, a, b, w)
    ensures forall i :: a <= i < b ==> a <= ord[i] < b
    decreases b - a
  {
    if a < b {
      var e := Min(a + w, |D|);
      RunsKeepStretch(complex, D, X, ord, e, b, w);
    }
  }

  /** A run that follows a stretch of runs extends it. */
  lemma {:induction false} RunsAppend(complex: bool, D: seq<u16>, X: seq<s16>, ord: seq<nat>,
                                      a: nat, k: nat, w: nat)
    requires |D| == |X| && a <= k < |D| && |ord| <= |D| && Min(k + w, |D|) <= |ord| && Indices(ord, |D|) && w > 0
    requires Runs(complex, D, X, ord, a, k, w)
    requires Run(complex, D, X, ord, k, Min(k + w, |D|))
    ensures Runs(complex, D, X, ord, a, Min(k + w, |D|), w)
    decreases k - a
  {
    if a < k {
      RunsAppend(complex, D, X, ord, Min(a + w, |D|), k, w);
    } else {
      var e := Min(k + w, |D|);
      assert Runs(complex, D, X, ord, e, e, w);
    }
  }

  /** Whether a stretch consists of runs depends on nothing but that stretch. */
  lemma {:induction false} RunsOfPrefix(complex: bool, D: seq<u16>, X: seq<s16>, ord: seq<nat>, ord': seq<nat>,
                                        a: nat, b: nat, w: nat)
    requires |D| == |X| && a <= b <= |ord| <= |ord'| <= |D| && w > 0
    requires Indices(ord, |D|) && Indices(ord', |D|)
    requires forall i :: a <= i < b ==> ord'[i] == ord[i]
    requires Runs(complex, D, X, ord, a, b, w)
    ensures Runs(complex, D, X, ord', a, b, w)
    decreases b - a
  {
    if a < b {
      RunsOfPrefix(complex, D, X, ord, ord', Min(a + w, |D|), b, w);
    }
  }
}
