/** What the search phase computes: which rounds find, what they count, and what they do to the order of the list. */
module SearchMeaning {
  import opened Numbers
  import opened ListCells
  import opened Comparators
  import opened RunOrder
  import opened SearchPhase
  import opened Restoration

  /** The phase starts with the list as it is, and with its counters at zero. */
  lemma NothingSearched(D: seq<u16>, X: seq<s16>, finderIdx: s16)
    requires |D| == |X| >= 2
    ensures var p := Searched(D, X, finderIdx, 0);
      && (forall j :: 0 <= j < |D| ==> p.ord[j] == j)
      && p.idx == finderIdx && p.retval == 0 && p.found == p.missed == 0
  {
  }

  // ---------- the index looked for ----------

  /** It starts at `finderIdx` and grows by one in each round, unless it is or becomes negative. */
  lemma {:induction false} SearchedIndex(D: seq<u16>, X: seq<s16>, finderIdx: s16, n: nat)
    requires |D| == |X| >= 2 && n <= 0x7fff
    ensures Searched(D, X, finderIdx, n).idx
            == if finderIdx < 0 then finderIdx else if finderIdx + n <= 0x7fff then finderIdx + n else -0x8000
  {
    if n > 0 {
      SearchedIndex(D, X, finderIdx, n - 1);
    }
  }

  // ---------- which rounds find ----------

  lemma {:induction false} FirstMatchMeans(D: seq<u16>, X: seq<s16>, ord: seq<nat>, idx: s16, data16: u16, k: nat)
    requires |D| == |X| && Indices(ord, |D|) && k <= |ord|
    ensures var r := FirstMatch(D, X, ord, idx, data16, k);
      && (forall j :: k <= j < r ==> if idx >= 0 then X[ord[j]] != idx else D[ord[j]] % 256 != data16)
      && (r < |ord| ==> if idx >= 0 then X[ord[r]] == idx else D[ord[r]] % 256 == data16)
    decreases |ord| - k
  {
    if k < |ord| && !Matches(X[ord[k]], D[ord[k]], idx, data16) {
      FirstMatchMeans(D, X, ord, idx, data16, k + 1);
    }
  }

  /** Some item of the list has what round `i` looks for: the index `finderIdx + i`, or else the low byte of `i`. */
  ghost predicate Sought(D: seq<u16>, X: seq<s16>, finderIdx: s16, i: nat)
    requires |D| == |X|
  {
    exists x :: 0 <= x < |D| &&
                if 0 <= finderIdx && finderIdx + i <= 0x7fff then X[x] == finderIdx + i else D[x] % 256 == i % 256
  }

  /** A round finds exactly in that case, wherever the item has got to; otherwise it misses. */
  lemma RoundFinds(D: seq<u16>, X: seq<s16>, finderIdx: s16, i: nat)
    requires |D| == |X| >= 2 && i < 0x7fff
    ensures var p, q := Searched(D, X, finderIdx, i), Searched(D, X, finderIdx, i + 1);
      if Sought(D, X, finderIdx, i) then q.found == p.found + 1 && q.missed == p.missed
      else q.found == p.found && q.missed == p.missed + 1
  {
    hide FirstMatch;
    var p := Searched(D, X, finderIdx, i);
    SearchedIndex(D, X, finderIdx, i);
    var k := FirstMatch(D, X, p.ord, p.idx, i % 256, 0);
    FirstMatchMeans(D, X, p.ord, p.idx, i % 256, 0);
    if k < |D| {
      assert 0 <= p.ord[k] < |D|;
    } else {
      forall x | 0 <= x < |D| ensures if p.idx >= 0 then X[x] != p.idx else D[x] % 256 != i % 256 {
        var j := Occurs(p.ord, |D|, x);
      }
    }
  }

  /** So `found` counts the rounds whose item is in the list, and `missed` the others. */
  lemma {:induction false} FoundCounts(D: seq<u16>, X: seq<s16>, finderIdx: s16, n: nat)
    requires |D| == |X| >= 2 && n <= 0x7fff
    ensures var p := Searched(D, X, finderIdx, n);
      p.found == |set i | 0 <= i < n && Sought(D, X, finderIdx, i)| && p.found + p.missed == n
  {
    hide Searched, Sought;
    var hits := set i | 0 <= i < n && Sought(D, X, finderIdx, i);
    if n == 0 {
      NothingSearched(D, X, finderIdx);
      assert hits == {};
    } else {
      FoundCounts(D, X, finderIdx, n - 1);
      RoundFinds(D, X, finderIdx, n - 1);
      var before := set i | 0 <= i < n - 1 && Sought(D, X, finderIdx, i);
      assert hits == if Sought(D, X, finderIdx, n - 1) then before + {n - 1} else before;
    }
  }

  // ---------- what a round does ----------

  /** The item at place `k` is the first one that round `i` looks for. */
  predicate FoundAt(D: seq<u16>, X: seq<s16>, finderIdx: s16, i: nat, ord: seq<nat>, k: nat)
    requires |D| == |X| && Indices(ord, |D|)
  {
    k < |ord|
    && forall j :: 0 <= j <= k ==>
         ((j == k) <==>
          if 0 <= finderIdx && finderIdx + i <= 0x7fff then X[ord[j]] == finderIdx + i else D[ord[j]] % 256 == i % 256)
  }

  /** The round in terms of its two outcomes. */
  lemma RoundOutcome(D: seq<u16>, X: seq<s16>, finderIdx: s16, i: nat, k: nat)
    requires |D| == |X| >= 2 && i < 0x7fff
    ensures var p := Searched(D, X, finderIdx, i);
      && (!Sought(D, X, finderIdx, i) ==> Searched(D, X, finderIdx, i + 1) == Missed(D, p))
      && (FoundAt(D, X, finderIdx, i, p.ord, k) ==> Searched(D, X, finderIdx, i + 1) == Hit(D, p, k))
  {
    hide FirstMatch, Missed, Hit;
    var p := Searched(D, X, finderIdx, i);
    SearchedIndex(D, X, finderIdx, i);
    var r := FirstMatch(D, X, p.ord, p.idx, i % 256, 0);
    FirstMatchMeans(D, X, p.ord, p.idx, i % 256, 0);
    if r < |D| {
      assert 0 <= p.ord[r] < |D|;
    }
    if FoundAt(D, X, finderIdx, i, p.ord, k) {
      FirstMatchIs(D, X, p.ord, p.idx, i % 256, 0, k);
    }
  }

  /** A round that misses reverses the list, and counts bit 8 of the item that comes second then. */
  lemma MissReverses(D: seq<u16>, X: seq<s16>, finderIdx: s16, i: nat)
    requires |D| == |X| >= 2 && i < 0x7fff && !Sought(D, X, finderIdx, i)
    ensures var p, q, m := Searched(D, X, finderIdx, i), Searched(D, X, finderIdx, i + 1), |D|;
      && (forall j :: 0 <= j < m ==> q.ord[j] == p.ord[m - 1 - j])
      && if D[p.ord[m - 2]] / 256 % 2 == 1 then q.retval == p.retval + 1 else q.retval == p.retval
  {
    hide Searched, Sought;
    RoundOutcome(D, X, finderIdx, i, 0);
  }

  /**
   A round that finds an item reverses the list, moves what came before the item, and so follows it now, to the second
   place, and counts bit 9 of the item if its bit 0 is set.
   */
  lemma HitSplices(D: seq<u16>, X: seq<s16>, finderIdx: s16, i: nat, k: nat)
    requires |D| == |X| >= 2 && i < 0x7fff && FoundAt(D, X, finderIdx, i, Searched(D, X, finderIdx, i).ord, k)
    ensures var p, q, m := Searched(D, X, finderIdx, i), Searched(D, X, finderIdx, i + 1), |D|;
      && (k == 0 ==> forall j :: 0 <= j < m ==> q.ord[j] == p.ord[m - 1 - j])
      && (k > 0 ==> q.ord[0] == p.ord[m - 1] && q.ord[1] == p.ord[k - 1])
      && (k > 0 ==> forall j :: 1 < j <= m - k ==> q.ord[j] == p.ord[m - j])
      && (k > 0 ==> forall j :: m - k < j < m ==> q.ord[j] == p.ord[m - 1 - j])
      && if D[p.ord[k]] % 2 == 1 && D[p.ord[k]] / 512 % 2 == 1 then q.retval == p.retval + 1 else q.retval == p.retval
  {
    hide Searched, Sought, Spliced;
    var p, m := Searched(D, X, finderIdx, i), |D|;
    RoundOutcome(D, X, finderIdx, i, k);
    var q := Searched(D, X, finderIdx, i + 1);
    forall j {:trigger q.ord[j]} | 0 <= j < m ensures q.ord[j] == p.ord[Source(m, k, j)] {
      SplicedReversal(p.ord, k, j);
    }
  }

  /** Where the item that ends up at place `j` was before a hit at place `k` of `m`. */
  function Source(m: nat, k: nat, j: nat): (i: nat)
    requires k < m && j < m
    ensures i < m
  {
    if k == 0 || j == 0 then m - 1 - j else if j == 1 then k - 1 else if j <= m - k then m - j else m - 1 - j
  }

  lemma SplicedReversal(ord: seq<nat>, k: nat, j: nat)
    requires k < |ord| && |ord| >= 2 && j < |ord|
    ensures Spliced(Reversed(ord), |ord| - 1 - k)[j] == ord[Source(|ord|, k, j)]
  {
    var m := |ord|;
    if k > 0 {
      SplicedAt(Reversed(ord), m - 1 - k, j);
    }
  }

  /** The phase ends with four for each find, less one for each miss, modulo 2^16, added to the bits counted. */
  lemma ScoreIs(found: nat, missed: nat)
    ensures (Score(found, missed) - (4 * found - missed)) % 0x1_0000 == 0
  {
  }
}
