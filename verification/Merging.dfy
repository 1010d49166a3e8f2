/** The state of one merge, on values: positions `k` to `mid` are merged with positions `mid` to `e`. */
module Merging {
  import opened Numbers
  import opened ListCells
  import opened Comparators
  import opened RunOrder

  /** `out` lists cells once, and none of those that are still to come. */
  ghost predicate Apart(ord: seq<nat>, out: seq<nat>, pi: nat, mid: nat, qi: nat)
    requires pi <= mid <= qi <= |ord|
  {
    && Distinct(out)
    && forall i, j :: 0 <= i < |out| && (pi <= j < mid || qi <= j < |ord|) ==> out[i] != ord[j]
  }

  lemma ApartDistinct(ord: seq<nat>, out: seq<nat>, pi: nat, mid: nat, qi: nat)
    requires pi <= mid <= qi <= |ord| && Apart(ord, out, pi, mid, qi)
    ensures Distinct(out)
  {
  }

  function NextP(pi: nat, fromP: bool): nat { if fromP then pi + 1 else pi }

  function NextQ(qi: nat, fromP: bool): nat { if fromP then qi else qi + 1 }

  /** The cell that is taken next. */
  function Next(ord: seq<nat>, pi: nat, qi: nat, fromP: bool): nat
    requires if fromP then pi < |ord| else qi < |ord|
  {
    if fromP then ord[pi] else ord[qi]
  }

  lemma ApartTake(ord: seq<nat>, out: seq<nat>, pi: nat, mid: nat, qi: nat, fromP: bool)
    requires pi <= mid <= qi <= |ord| && Distinct(ord) && Apart(ord, out, pi, mid, qi)
    requires if fromP then pi < mid else qi < |ord|
    ensures Apart(ord, out, NextP(pi, fromP), mid, NextQ(qi, fromP))
    ensures Apart(ord, out + [Next(ord, pi, qi, fromP)], NextP(pi, fromP), mid, NextQ(qi, fromP))
  {
  }

  /** `pi` and `qi` are the next positions of the two runs; `out` from `k` on is the merged part. */
  ghost predicate Merged(complex: bool, D: seq<u16>, X: seq<s16>, ord: seq<nat>, out: seq<nat>,
                         k: nat, mid: nat, e: nat, pi: nat, qi: nat)
    requires |D| == |X| == |ord| && Indices(ord, |D|) && Indices(out, |D|)
    requires k <= pi <= mid <= qi <= e <= |D|
  {
    && |out| == pi + qi - mid
    && Run(complex, D, X, ord, k, mid)
    && Run(complex, D, X, ord, mid, e)
    && (forall i :: k <= i < |out| ==> k <= out[i] < e)
    && (forall i, j :: k <= i < j < |out| ==> Before(complex, D, X, out[i], out[j]))
    && (forall i, j :: k <= i < |out| && (pi <= j < mid || qi <= j < e) ==> Before(complex, D, X, out[i], ord[j]))
    && (mid < e && |out| > k ==> forall j :: k <= j < e ==> Settled(complex, D[ord[j]]))
    && (mid < e ==> forall i :: k <= i < |out| ==> Settled(complex, D[out[i]]))
    && (mid == e ==> forall i :: k <= i < |out| ==> out[i] == ord[i])
  }

  /** Comparing the heads settles them and disturbs nothing. */
  lemma MergedSettle(complex: bool, D: seq<u16>, D': seq<u16>, X: seq<s16>, ord: seq<nat>, out: seq<nat>,
                     k: nat, mid: nat, e: nat, pi: nat, qi: nat)
    requires |D| == |X| == |ord| && Indices(ord, |D|) && Indices(out, |D|)
    requires k <= pi < mid <= qi < e <= |D|
    requires Merged(complex, D, X, ord, out, k, mid, e, pi, qi)
    requires Evolves(complex, D, D') && Settled(complex, D'[ord[pi]]) && Settled(complex, D'[ord[qi]])
    ensures Merged(complex, D', X, ord, out, k, mid, e, pi, qi)
    ensures forall j :: k <= j < e ==> Settled(complex, D'[ord[j]])
  {
    RunEvolves(complex, D, D', X, ord, k, mid);
    RunEvolves(complex, D, D', X, ord, mid, e);
    if |out| == k {
      assert pi == k && qi == mid;
    }
  }

  /** The choice of the next cell is right: the other run is used up, or its head sorts after that cell. */
  ghost predicate Takes(complex: bool, D: seq<u16>, X: seq<s16>, ord: seq<nat>,
                        k: nat, mid: nat, e: nat, pi: nat, qi: nat, fromP: bool)
    requires |D| == |X| == |ord| && Indices(ord, |D|) && k <= pi <= mid <= qi <= e <= |D|
  {
    pi < mid && qi < e ==>
      && (forall j :: k <= j < e ==> Settled(complex, D[ord[j]]))
      && var kp, kq := Key(complex, D[ord[pi]], X[ord[pi]]), Key(complex, D[ord[qi]], X[ord[qi]]);
         if fromP then kp <= kq else kq < kp
  }

  lemma MergedTake(complex: bool, D: seq<u16>, X: seq<s16>, ord: seq<nat>, out: seq<nat>,
                   k: nat, mid: nat, e: nat, pi: nat, qi: nat, fromP: bool)
    requires |D| == |X| == |ord| && Indices(ord, |D|) && Indices(out, |D|)
    requires k < mid && k <= pi <= mid <= qi <= e <= |D|
    requires Merged(complex, D, X, ord, out, k, mid, e, pi, qi)
    requires if fromP then pi < mid else qi < e
    requires Takes(complex, D, X, ord, k, mid, e, pi, qi, fromP)
    ensures Merged(complex, D, X, ord, out + [Next(ord, pi, qi, fromP)], k, mid, e, NextP(pi, fromP), NextQ(qi, fromP))
  {
    hide Merged;
    if fromP {
      MergedTakeP(complex, D, X, ord, out, k, mid, e, pi, qi);
    } else {
      MergedTakeQ(complex, D, X, ord, out, k, mid, e, pi, qi);
    }
  }

  /** The next cell comes from the first run: the second one is used up, or its head does not sort lower. */
  lemma MergedTakeP(complex: bool, D: seq<u16>, X: seq<s16>, ord: seq<nat>, out: seq<nat>,
                    k: nat, mid: nat, e: nat, pi: nat, qi: nat)
    requires |D| == |X| == |ord| && Indices(ord, |D|) && Indices(out, |D|)
    requires k <= pi < mid <= qi <= e <= |D|
    requires Merged(complex, D, X, ord, out, k, mid, e, pi, qi)
    requires qi < e ==> (forall j :: k <= j < e ==> Settled(complex, D[ord[j]])) &&
                        Key(complex, D[ord[pi]], X[ord[pi]]) <= Key(complex, D[ord[qi]], X[ord[qi]])
    ensures Merged(complex, D, X, ord, out + [ord[pi]], k, mid, e, pi + 1, qi)
  {
    var out' := out + [ord[pi]];
    forall j | pi + 1 <= j < mid || qi <= j < e ensures Before(complex, D, X, ord[pi], ord[j]) {
      if qi <= j {
        assert Before(complex, D, X, ord[pi], ord[qi]);
        assert j == qi || Before(complex, D, X, ord[qi], ord[j]);
      }
    }
    if mid < e && qi == e {
      assert |out| > k;
    }
  }

  lemma MergedTakeQ(complex: bool, D: seq<u16>, X: seq<s16>, ord: seq<nat>, out: seq<nat>,
                    k: nat, mid: nat, e: nat, pi: nat, qi: nat)
    requires |D| == |X| == |ord| && Indices(ord, |D|) && Indices(out, |D|)
    requires k < mid && k <= pi <= mid <= qi < e <= |D|
    requires Merged(complex, D, X, ord, out, k, mid, e, pi, qi)
    requires pi < mid ==> (forall j :: k <= j < e ==> Settled(complex, D[ord[j]])) &&
                          Key(complex, D[ord[pi]], X[ord[pi]]) > Key(complex, D[ord[qi]], X[ord[qi]])
    ensures Merged(complex, D, X, ord, out + [ord[qi]], k, mid, e, pi, qi + 1)
  {
    forall j | pi <= j < mid || qi + 1 <= j < e ensures Before(complex, D, X, ord[qi], ord[j]) {
      if j < mid {
        assert Before(complex, D, X, ord[qi], ord[pi]);
        assert j == pi || Before(complex, D, X, ord[pi], ord[j]);
      }
    }
    if pi == mid {
      assert |out| > k;
    }
  }

  lemma MergedAll(complex: bool, D: seq<u16>, X: seq<s16>, ord: seq<nat>, out: seq<nat>, k: nat, mid: nat, e: nat)
    requires |D| == |X| == |ord| && Indices(ord, |D|) && Indices(out, |D|)
    requires k <= mid <= e <= |D|
    requires Merged(complex, D, X, ord, out, k, mid, e, mid, e)
    ensures |out| == e && Run(complex, D, X, out, k, e)
    ensures forall i :: k <= i < e ==> k <= out[i] < e
  {
  }

  lemma RunsTail(complex: bool, D: seq<u16>, X: seq<s16>, ord: seq<nat>, k: nat, w: nat)
    requires |D| == |X| == |ord| && Indices(ord, |D|) && w > 0 && k < |D|
    requires Runs(complex, D, X, ord, k, |D|, w)
    ensures var mid := Min(k + w, |D|);
      var e := Min(mid + w, |D|);
      Run(complex, D, X, ord, k, mid) && Run(complex, D, X, ord, mid, e) && Runs(complex, D, X, ord, e, |D|, w)
  {
    assert Runs(complex, D, X, ord, Min(k + w, |D|), |D|, w);
  }

  /** Two neighbouring runs are ready to be merged. */
  lemma PassStart(complex: bool, D: seq<u16>, X: seq<s16>, ord: seq<nat>, out: seq<nat>, k: nat, w: nat)
    requires |D| == |X| && Permutation(ord, |D|) && Indices(out, |D|) && w > 0
    requires k < |D| && |out| == k && Distinct(out) && forall i :: 0 <= i < k ==> out[i] < k
    requires Runs(complex, D, X, ord, k, |D|, w)
    ensures var mid := Min(k + w, |D|);
      var e := Min(mid + w, |D|);
      Apart(ord, out, k, mid, mid) && Merged(complex, D, X, ord, out, k, mid, e, k, mid)
  {
    var mid := Min(k + w, |D|);
    var e := Min(mid + w, |D|);
    RunsKeepStretch(complex, D, X, ord, k, |D|, w);
    RunsTail(complex, D, X, ord, k, w);
  }

  /** The runs that have not been reached yet stay as they were. */
  lemma PassStepRest(complex: bool, D0: seq<u16>, D: seq<u16>, X: seq<s16>, ord: seq<nat>, k: nat, w: nat)
    requires |D0| == |X| == |ord| && Indices(ord, |D0|) && w > 0 && k < |D0|
    requires Evolves(complex, D0, D) && Runs(complex, D0, X, ord, k, |D0|, w)
    ensures Runs(complex, D, X, ord, Min(k + 2 * w, |D0|), |D0|, w)
  {
    hide Runs, Run;
    RunsTail(complex, D0, X, ord, k, w);
    RunsEvolve(complex, D0, D, X, ord, Min(k + 2 * w, |D0|), |D0|, w);
  }

  /** Once merged, two runs of length `w` are one of length `2 * w`. */
  lemma PassStep(complex: bool, D0: seq<u16>, D: seq<u16>, X: seq<s16>, out0: seq<nat>, out: seq<nat>, k: nat, w: nat)
    requires |D0| == |X| && Indices(out0, |D0|) && Indices(out, |D0|) && w > 0
    requires k < |D0| && |out0| == k && out0 <= out && |out| == Min(k + 2 * w, |D0|)
    requires Evolves(complex, D0, D)
    requires Runs(complex, D0, X, out0, 0, k, 2 * w) && Run(complex, D, X, out, k, |out|)
    ensures Runs(complex, D, X, out, 0, |out|, 2 * w)
  {
    hide Runs, Run;
    RunsEvolve(complex, D0, D, X, out0, 0, k, 2 * w);
    RunsOfPrefix(complex, D, X, out0, out, 0, k, 2 * w);
    RunsAppend(complex, D, X, out, 0, k, 2 * w);
  }
}
