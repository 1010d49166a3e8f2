/** The in-place bottom-up merge sort of core_list_join.c. */
module MergeSort {
  import opened Numbers
  import opened BitOps
  import opened ListCells
  import opened Comparators
  import opened RunOrder
  import opened Merging

  /** The cell at position `i` of the order `ord` of the cells `s`. */
  ghost function At(s: seq<Cell>, ord: seq<nat>, i: int): Cell?
    requires Indices(ord, |s|)
  {
    if 0 <= i < |ord| then s[ord[i]] else null
  }

  /** From position `a` on, the cells are still linked in the order `ord`. */
  ghost predicate Follows(s: seq<Cell>, ord: seq<nat>, a: nat, b: nat)
    requires Indices(ord, |s|) && b <= |ord|
    reads (set c | c in s)`next
  {
    forall i {:trigger s[ord[i]].next} :: a <= i < b ==> s[ord[i]].next == At(s, ord, i + 1)
  }

  lemma FollowsHead(s: seq<Cell>, ord: seq<nat>, a: nat, b: nat)
    requires Indices(ord, |s|) && a < b <= |ord| && Follows(s, ord, a, b)
    ensures s[ord[a]].next == At(s, ord, a + 1) && Follows(s, ord, a + 1, b)
  {
  }

  lemma FollowsSplit(s: seq<Cell>, ord: seq<nat>, a: nat, b: nat, c: nat)
    requires Indices(ord, |s|) && a <= b <= c <= |ord| && Follows(s, ord, a, c)
    ensures Follows(s, ord, a, b) && Follows(s, ord, b, c)
  {
  }

  /** The merged list built so far: all its links but the last are in place. */
  ghost predicate Built(s: seq<Cell>, out: seq<nat>, list: Cell?, tail: Cell?)
    requires Indices(out, |s|)
    reads (set c | c in s)`next
  {
    && list == At(s, out, 0)
    && tail == At(s, out, |out| - 1)
    && forall i {:trigger s[out[i]].next} :: 0 <= i < |out| - 1 ==> s[out[i]].next == s[out[i + 1]]
  }

  /** The data items of the cells hold these words and indices. */
  ghost predicate Holds(s: seq<Cell>, D: seq<u16>, X: seq<s16>)
    reads (set c | c in s)`info, Infos(s)`data16, Infos(s)`idx
  {
    && |D| == |X| == |s|
    && forall i {:trigger s[i].info} {:trigger D[i]} ::
         0 <= i < |s| ==> s[i].info.data16 == D[i] && s[i].info.idx == X[i]
  }

  /** Appends `el` to the merged list; the cells that are still to come keep their links. */
  method Append(el: Cell, list0: Cell?, tail0: Cell?, ghost s: seq<Cell>, ghost D: seq<u16>, ghost X: seq<s16>,
                ghost ord: seq<nat>, ghost out: seq<nat>, ghost x: nat, ghost pi: nat, ghost mid: nat, ghost qi: nat)
    returns (list: Cell?, tail: Cell)
    requires Holds(s, D, X)
    requires Distinct(s) && Indices(ord, |s|) && Indices(out, |s|)
    requires pi <= mid <= qi <= |ord| && Apart(ord, out, pi, mid, qi)
    requires x < |s| && el == s[x] && Built(s, out, list0, tail0)
    requires Follows(s, ord, pi, mid) && Follows(s, ord, qi, |ord|)
    modifies (if tail0 != null then {tail0} else {})`next
    ensures tail == el && Built(s, out + [x], list, tail)
    ensures Follows(s, ord, pi, mid) && Follows(s, ord, qi, |ord|) && Holds(s, D, X)
  {
    list := list0;
    if tail0 != null {
      tail0.next := el;
    } else {
      list := el;
    }
    tail := el;
  }

  /** Decides whether the next cell of the merge comes from the first run. */
  method FromFirst(cmp: Comparator, p: Cell?, q: Cell?, psize: nat, qsize: nat,
                   ghost s: seq<Cell>, ghost D0: seq<u16>, ghost X: seq<s16>, ghost ord: seq<nat>, ghost out: seq<nat>,
                   ghost k: nat, ghost mid: nat, ghost e: nat, ghost pi: nat, ghost qi: nat)
    returns (fromP: bool, ghost D: seq<u16>, ghost compares: nat)
    requires Distinct(s) && OwnInfos(s) && Holds(s, D0, X)
    requires Permutation(ord, |s|) && Indices(out, |s|)
    requires k <= pi <= mid <= qi <= e <= |s| && k < mid
    requires psize == mid - pi && (psize > 0 || (qsize > 0 && q != null))
    requires qsize > 0 && q != null <==> qi < e
    requires (qi < e ==> q == At(s, ord, qi)) && (pi < mid ==> p == At(s, ord, pi))
    requires Merged(cmp.Complex?, D0, X, ord, out, k, mid, e, pi, qi)
    modifies Infos(s)`data16, Scratch(cmp)`crc, Scratch(cmp)`crcstate, Scratch(cmp)`crcmatrix
    ensures |D| == |s| && Holds(s, D, X) && Evolves(cmp.Complex?, D0, D) && compares <= 1
    ensures Merged(cmp.Complex?, D, X, ord, out, k, mid, e, pi, qi)
    ensures if fromP then pi < mid else qi < e
    ensures Takes(cmp.Complex?, D, X, ord, k, mid, e, pi, qi, fromP)
  {
    hide Merged;
    D, compares := D0, 0;
    if psize == 0 {
      fromP := false;
    } else if qsize == 0 || q == null {
      fromP := true;
    } else {
      var c := Compare(cmp, p.info, q.info);
      D, compares := D0[ord[pi] := p.info.data16][ord[qi] := q.info.data16], 1;
      MergedSettle(cmp.Complex?, D0, D, X, ord, out, k, mid, e, pi, qi);
      fromP := c <= 0;
    }
  }

  /** Takes the next cell off one of the two runs. */
  method Take(cmp: Comparator, p0: Cell?, q0: Cell?, psize0: nat, qsize0: nat,
              ghost s: seq<Cell>, ghost D0: seq<u16>, ghost X: seq<s16>, ghost ord: seq<nat>, ghost out: seq<nat>,
              ghost k: nat, ghost mid: nat, ghost e: nat, ghost pi0: nat, ghost qi0: nat)
    returns (el: Cell, p: Cell?, q: Cell?, psize: nat, qsize: nat,
             ghost D: seq<u16>, ghost x: nat, ghost pi: nat, ghost qi: nat, ghost compares: nat)
    requires Distinct(s) && OwnInfos(s) && |D0| == |X| == |s| && Holds(s, D0, X)
    requires Permutation(ord, |s|) && Indices(out, |s|)
    requires k <= pi0 <= mid <= qi0 <= e <= |s| && k < mid
    requires psize0 == mid - pi0 && (psize0 > 0 || (qsize0 > 0 && q0 != null))
    requires qsize0 > 0 && q0 != null <==> qi0 < e
    requires q0 == At(s, ord, qi0) && (psize0 > 0 ==> p0 == At(s, ord, pi0))
    requires Apart(ord, out, pi0, mid, qi0) && Merged(cmp.Complex?, D0, X, ord, out, k, mid, e, pi0, qi0)
    requires Follows(s, ord, pi0, mid) && Follows(s, ord, qi0, |s|)
    modifies Infos(s)`data16, Scratch(cmp)`crc, Scratch(cmp)`crcstate, Scratch(cmp)`crcmatrix
    ensures |D| == |s| && Holds(s, D, X) && Evolves(cmp.Complex?, D0, D) && compares <= 1
    ensures pi0 <= pi <= mid && qi0 <= qi <= e && pi + qi == pi0 + qi0 + 1
    ensures psize == mid - pi && qsize == qsize0 - (qi - qi0)
    ensures q == At(s, ord, qi) && (psize > 0 ==> p == At(s, ord, pi))
    ensures x < |s| && el == s[x] && Apart(ord, out, pi, mid, qi)
    ensures Apart(ord, out + [x], pi, mid, qi) && Merged(cmp.Complex?, D, X, ord, out + [x], k, mid, e, pi, qi)
    ensures Follows(s, ord, pi, mid) && Follows(s, ord, qi, |s|)
  {
    hide Merged, Apart, Takes, Run, Holds, Evolves, OwnInfos, Distinct, Follows;
    assert Distinct(ord);
    var fromP;
    fromP, D, compares := FromFirst(cmp, p0, q0, psize0, qsize0, s, D0, X, ord, out, k, mid, e, pi0, qi0);
    MergedTake(cmp.Complex?, D, X, ord, out, k, mid, e, pi0, qi0, fromP);
    ApartTake(ord, out, pi0, mid, qi0, fromP);
    x, pi, qi := Next(ord, pi0, qi0, fromP), NextP(pi0, fromP), NextQ(qi0, fromP);
    p, q, psize, qsize := p0, q0, psize0, qsize0;
    if fromP {
      FollowsHead(s, ord, pi0, mid);
      el := p;
      p := p.next;
      psize := psize - 1;
    } else {
      FollowsHead(s, ord, qi0, |s|);
      el := q;
      q := q.next;
      qsize := qsize - 1;
    }
  }

  /** Merges the run at positions `k` to `mid` with the one that starts at `mid`, appending to `out0`. */
  method MergeRuns(cmp: Comparator, p0: Cell, q0: Cell?, psize0: nat, insize: nat, list0: Cell?, tail0: Cell?,
                   ghost s: seq<Cell>, ghost D0: seq<u16>, ghost X: seq<s16>,
                   ghost ord: seq<nat>, ghost out0: seq<nat>, ghost k: nat)
    returns (q: Cell?, list: Cell?, tail: Cell?, ghost D: seq<u16>, ghost out: seq<nat>, ghost compares: nat)
    requires Distinct(s) && OwnInfos(s) && Holds(s, D0, X)
    requires Permutation(ord, |s|) && Indices(out0, |s|) && |D0| == |X| == |s|
    requires insize > 0 && k < |s| && k + psize0 == Min(k + insize, |s|)
    requires var mid, e := k + psize0, Min(k + psize0 + insize, |s|);
      && Apart(ord, out0, k, mid, mid)
      && Merged(cmp.Complex?, D0, X, ord, out0, k, mid, e, k, mid)
    requires Built(s, out0, list0, tail0) && tail0 == At(s, out0, |out0| - 1)
    requires p0 == At(s, ord, k) && q0 == At(s, ord, k + psize0)
    requires Follows(s, ord, k, |s|)
    modifies (set c | c in s)`next, Infos(s)`data16
    modifies Scratch(cmp)`crc, Scratch(cmp)`crcstate, Scratch(cmp)`crcmatrix
    ensures |D| == |s| && Holds(s, D, X) && Evolves(cmp.Complex?, D0, D)
    ensures var mid, e := k + psize0, Min(k + psize0 + insize, |s|);
      && |out| == e && Indices(out, |s|) && out0 <= out && Distinct(out)
      && (forall i :: k <= i < e ==> k <= out[i] < e)
      && Run(cmp.Complex?, D, X, out, k, e)
      && q == At(s, ord, e) && Follows(s, ord, e, |s|)
    ensures Built(s, out, list, tail) && tail == At(s, out, |out| - 1)
    ensures compares <= |out| - |out0|
  {
    hide Merged, Apart, Built, Takes, Run, Holds, Evolves, OwnInfos, Distinct, Follows;
    assert Evolves(cmp.Complex?, D0, D0) by { EvolvesReflexive(cmp.Complex?, D0); }
    FollowsSplit(s, ord, k, k + psize0, |s|);
    var p, psize, qsize := p0, psize0, insize;
    q, list, tail := q0, list0, tail0;
    D, out, compares := D0, out0, 0;
    ghost var mid := k + psize0;
    ghost var e := Min(mid + insize, |s|);
    ghost var pi, qi := k, mid;
    ghost var complex := cmp.Complex?;
    while psize > 0 || (qsize > 0 && q != null)
      invariant k <= pi <= mid <= qi <= e
      invariant psize == mid - pi && qsize == mid + insize - qi
      invariant q == At(s, ord, qi) && (psize > 0 ==> p == At(s, ord, pi))
      invariant |D| == |X| == |s| && Holds(s, D, X) && Evolves(complex, D0, D)
      invariant Indices(out, |s|) && out0 <= out
      invariant Apart(ord, out, pi, mid, qi) && Merged(complex, D, X, ord, out, k, mid, e, pi, qi)
      invariant Built(s, out, list, tail)
      invariant Follows(s, ord, pi, mid) && Follows(s, ord, qi, |s|)
      invariant tail == At(s, out, |out| - 1)
      invariant compares <= |out| - |out0|
      decreases psize + qsize
    {
      var el;
      ghost var D', x, n;
      el, p, q, psize, qsize, D', x, pi, qi, n := Take(cmp, p, q, psize, qsize, s, D, X, ord, out, k, mid, e, pi, qi);
      EvolvesTransitive(complex, D0, D, D');
      D, compares := D', compares + n;
      list, tail := Append(el, list, tail, s, D, X, ord, out, x, pi, mid, qi);
      out := out + [x];
    }
    MergedAll(complex, D, X, ord, out, k, mid, e);
    ApartDistinct(ord, out, mid, mid, e);
  }

  /** The number of merges of one pass over `n` cells in runs of `w`. */
  function Merges(n: nat, w: nat): nat
    requires w > 0
  {
    if n == 0 then 0 else 1 + Merges(if n <= 2 * w then 0 else n - 2 * w, w)
  }

  /** Skips from `p` over a run of at most `insize` cells. */
  method SkipRun(p: Cell, insize: nat, ghost s: seq<Cell>, ghost ord: seq<nat>, ghost k: nat)
    returns (q: Cell?, psize: nat)
    requires Permutation(ord, |s|) && insize > 0 && k < |s|
    requires p == At(s, ord, k) && Follows(s, ord, k, |s|)
    ensures k + psize == Min(k + insize, |s|) && q == At(s, ord, k + psize)
  {
    q, psize := p, 0;
    var i := 0;
    while i < insize
      invariant psize == i <= insize && k + i < |s|
      invariant q == At(s, ord, k + i)
    {
      psize := psize + 1;
      q := q.next;
      if q == null {
        break;
      }
      i := i + 1;
    }
  }

  /** One pass over the list: merges its runs of length `insize` in pairs. */
  method MergePass(cmp: Comparator, list0: Cell, insize: nat,
                   ghost s: seq<Cell>, ghost D0: seq<u16>, ghost X: seq<s16>, ghost ord: seq<nat>)
    returns (list: Cell, nmerges: nat, ghost D: seq<u16>, ghost out: seq<nat>, ghost compares: nat)
    requires Distinct(s) && OwnInfos(s) && |D0| == |X| == |s| && Holds(s, D0, X)
    requires Permutation(ord, |s|) && insize > 0 && |s| > 0
    requires Runs(cmp.Complex?, D0, X, ord, 0, |s|, insize)
    requires list0 == At(s, ord, 0) && Follows(s, ord, 0, |s|)
    modifies (set c | c in s)`next, Infos(s)`data16
    modifies Scratch(cmp)`crc, Scratch(cmp)`crcstate, Scratch(cmp)`crcmatrix
    ensures |D| == |s| && Holds(s, D, X) && Evolves(cmp.Complex?, D0, D)
    ensures Permutation(out, |s|) && Runs(cmp.Complex?, D, X, out, 0, |s|, 2 * insize)
    ensures list == At(s, out, 0) && Follows(s, out, 0, |s|)
    ensures nmerges == Merges(|s|, insize) && compares <= |s|
  {
    hide Apart, Merged, Takes, Evolves, OwnInfos, Holds, Run, Runs, Built, Merges, Follows, Distinct;
    ghost var complex, n := cmp.Complex?, |s|;
    var p: Cell?, head: Cell?, tail: Cell? := list0, null, null;
    nmerges := 0;
    D, out, compares := D0, [], 0;
    ghost var k := 0;
    EvolvesReflexive(complex, D0);
    BuiltEmpty(s);
    NoRuns(complex, D, X, out, 0, 2 * insize);
    while p != null
      invariant k == |out| <= n && Indices(out, n)
      invariant p == At(s, ord, k) && tail == At(s, out, k - 1)
      invariant |D| == n && Holds(s, D, X) && Evolves(complex, D0, D)
      invariant Distinct(out) && forall i :: 0 <= i < k ==> out[i] < k
      invariant Runs(complex, D, X, ord, k, n, insize) && Runs(complex, D, X, out, 0, k, 2 * insize)
      invariant Built(s, out, head, tail) && Follows(s, ord, k, n)
      invariant nmerges + Merges(n - k, insize) == Merges(n, insize) && compares <= k
      decreases n - k
    {
      nmerges := nmerges + 1;
      MergesStep(n, k, insize);
      var q, psize := SkipRun(p, insize, s, ord, k);
      PassStart(complex, D, X, ord, out, k, insize);
      ghost var D', out', c;
      q, head, tail, D', out', c := MergeRuns(cmp, p, q, psize, insize, head, tail, s, D, X, ord, out, k);
      EvolvesTransitive(complex, D0, D, D');
      PassStepRest(complex, D, D', X, ord, k, insize);
      PassStep(complex, D, D', X, out, out', k, insize);
      D, out, compares := D', out', compares + c;
      k := |out|;
      p := q;
    }
    NoMerges(insize);
    list := Close(head, tail, s, out);
  }

  lemma MergesStep(n: nat, k: nat, w: nat)
    requires k < n && w > 0
    ensures Merges(n - k, w) == 1 + Merges(n - Min(Min(k + w, n) + w, n), w)
  {
  }

  /** That is n / (2 * w), rounded up. */
  lemma {:induction false} MergesIsCeiling(n: nat, w: nat)
    requires w > 0
    ensures n <= Merges(n, w) * (2 * w) < n + 2 * w
  {
    if n > 2 * w {
      MergesIsCeiling(n - 2 * w, w);
      var m := Merges(n - 2 * w, w);
      assert (1 + m) * (2 * w) == 2 * w + m * (2 * w);
    } else if n > 0 {
      NoMerges(w);
      assert 1 * (2 * w) == 2 * w;
    }
  }

  lemma NoMerges(w: nat)
    requires w > 0
    ensures Merges(0, w) == 0
  {
  }

  /** Terminates the merged list. */
  method Close(head: Cell?, tail: Cell, ghost s: seq<Cell>, ghost out: seq<nat>) returns (list: Cell)
    requires Distinct(s) && Permutation(out, |s|) && |s| > 0 && Built(s, out, head, tail)
    modifies {tail}`next
    ensures list == At(s, out, 0) && Follows(s, out, 0, |s|)
  {
    tail.next := null;
    list := head;
  }

  lemma BuiltEmpty(s: seq<Cell>)
    ensures Built(s, [], null, null) && Distinct<nat>([])
  {
  }

  /** The number of passes over `n` cells that start with runs of length `w`. */
  function Passes(n: nat, w: nat): nat
    requires w > 0
    decreases n - w
  {
    if n <= 2 * w then 1 else 1 + Passes(n, 2 * w)
  }

  /** The passes from runs of length `w` on: the base-two logarithm of n / w, rounded up, but at least one. */
  lemma {:induction false} PassesIsLog(n: nat, w: nat)
    requires w > 0
    ensures n <= w * Pow(Passes(n, w))
    ensures n > 2 * w ==> w * Pow(Passes(n, w) - 1) < n
    decreases n - w
  {
    if n > 2 * w {
      PassesIsLog(n, 2 * w);
      var p := Passes(n, 2 * w);
      assert 2 * w * Pow(p) == w * Pow(p + 1);
      if n <= 4 * w {
        assert p == 1 && Pow(1) == 2;
      } else {
        assert 2 * w * Pow(p - 1) == w * Pow(p);
      }
    } else {
      assert Pow(1) == 2;
    }
  }

  lemma MergesAtMostOne(n: nat, w: nat)
    requires w > 0 && n > 0
    ensures Merges(n, w) <= 1 <==> n <= 2 * w
  {
    if n > 2 * w {
      assert Merges(n - 2 * w, w) >= 1;
    }
  }

  lemma SingleRuns(complex: bool, D: seq<u16>, X: seq<s16>, ord: seq<nat>, a: nat)
    requires |D| == |X| == |ord| && a <= |D| && forall i :: 0 <= i < |ord| ==> ord[i] == i
    ensures Runs(complex, D, X, ord, a, |D|, 1)
    decreases |D| - a
  {
    if a < |D| {
      SingleRuns(complex, D, X, ord, a + 1);
    }
  }

  lemma WholeRun(complex: bool, D: seq<u16>, X: seq<s16>, ord: seq<nat>, w: nat)
    requires |D| == |X| == |ord| && Indices(ord, |D|) && 0 < |D| <= w
    requires Runs(complex, D, X, ord, 0, |D|, w)
    ensures Run(complex, D, X, ord, 0, |D|)
  {
  }

  lemma LinkedFollows(list: Cell?, s: seq<Cell>, ord: seq<nat>)
    requires Linked(list, s) && |s| > 0 && |ord| == |s| && forall i :: 0 <= i < |s| ==> ord[i] == i
    ensures Permutation(ord, |s|) && list == At(s, ord, 0) && Follows(s, ord, 0, |s|) && Distinct(s)
  {
  }

  lemma FollowsLinked(list: Cell?, s: seq<Cell>, ord: seq<nat>)
    requires Distinct(s) && Permutation(ord, |s|) && list == At(s, ord, 0) && Follows(s, ord, 0, |s|)
    ensures Linked(list, Picked(s, ord))
  {
    var t := Picked(s, ord);
    forall i, j | 0 <= i < j < |t| ensures t[i] != t[j] {
      assert ord[i] != ord[j];
    }
    forall i {:trigger t[i].next} | 0 <= i < |t| ensures t[i].next == Succ(t, i) {
      assert s[ord[i]].next == At(s, ord, i + 1);
    }
  }

  /**
   Sorts the list `s` in place.  The result visits exactly the same cells, in the order `ord`: by key,
   and equal keys as they came; from two cells on, every item has been settled.
   */
  method Sort(list0: Cell, cmp: Comparator, ghost s: seq<Cell>, ghost D0: seq<u16>, ghost X: seq<s16>)
    returns (list: Cell, ghost D: seq<u16>, ghost ord: seq<nat>, ghost passes: nat, ghost compares: nat)
    requires |s| > 0 && Linked(list0, s) && OwnInfos(s)
    requires |D0| == |X| == |s| && Holds(s, D0, X)
    modifies (set c | c in s)`next, Infos(s)`data16
    modifies Scratch(cmp)`crc, Scratch(cmp)`crcstate, Scratch(cmp)`crcmatrix
    ensures Permutation(ord, |s|) && Linked(list, Picked(s, ord))
    ensures |D| == |s| && Holds(s, D, X) && Evolves(cmp.Complex?, D0, D)
    ensures Run(cmp.Complex?, D, X, ord, 0, |s|)
    ensures passes == Passes(|s|, 1) && compares <= |s| * passes
  {
    hide Run, Runs, Evolves, OwnInfos, Holds, Follows, Linked;
    list := list0;
    ghost var complex, n := cmp.Complex?, |s|;
    D, ord := D0, seq(n, i => i);
    LinkedFollows(list0, s, ord);
    SingleRuns(complex, D, X, ord, 0);
    EvolvesReflexive(complex, D);
    passes, compares := 0, 0;
    var insize := 1;
    while true
      invariant insize > 0 && (insize == 1 || insize < n)
      invariant |D| == n && Holds(s, D, X) && Evolves(complex, D0, D)
      invariant Permutation(ord, n) && Runs(complex, D, X, ord, 0, n, insize)
      invariant list == At(s, ord, 0) && Follows(s, ord, 0, n)
      invariant passes + Passes(n, insize) == Passes(n, 1) && compares <= n * passes
      decreases n - insize
    {
      var nmerges;
      ghost var D', out, c;
      list, nmerges, D', out, c := MergePass(cmp, list, insize, s, D, X, ord);
      EvolvesTransitive(complex, D0, D, D');
      MergesAtMostOne(n, insize);
      assert n * (passes + 1) == n * passes + n;
      D, ord, passes, compares := D', out, passes + 1, compares + c;
      if nmerges <= 1 {
        WholeRun(complex, D, X, ord, 2 * insize);
        FollowsLinked(list, s, ord);
        return;
      }
      insize := insize * 2;
    }
  }
}
