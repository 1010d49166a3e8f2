/** What the checksum of the list benchmark is, bit for bit. */
module BenchMeaning {
  import opened Numbers
  import opened Crc
  import opened ListCells
  import opened Comparators
  import opened RunOrder
  import opened SearchPhase
  import opened Restoration
  import opened SearchMeaning
  import opened BenchList

  /** The sixteen bits of the word, `n` times over. */
  ghost predicate Copies(m: seq<bool>, w: u16, n: nat)
  {
    |m| == 16 * n && forall i :: 0 <= i < |m| ==> m[i] == RegOf(w as bv16)[i % 16]
  }

  lemma {:induction false} FedCopies(r: Reg, w: u16, n: nat) returns (m: seq<bool>)
    ensures Copies(m, w, n) && FedTimes(r, w, n) == Fold(r, m)
  {
    hide RegOf, Fold;
    if n == 0 {
      m := [];
      NoFold(r);
    } else {
      var k := FedCopies(r, w, n - 1);
      m := k + RegOf(AsWord(w));
      FoldConcat(r, k, RegOf(AsWord(w)));
      CopiesNext(k, w, n - 1);
    }
  }

  lemma NoFold(r: Reg)
    ensures Fold(r, []) == r
  {
  }

  lemma CopiesNext(m: seq<bool>, w: u16, n: nat)
    requires Copies(m, w, n)
    ensures Copies(m + RegOf(w as bv16), w, n + 1)
  {
    hide RegOf;
    var r := RegOf(w as bv16);
    forall i | 0 <= i < |m + r| ensures (m + r)[i] == r[i % 16] {
      if i >= 16 * n {
        DivModOf(n, i - 16 * n, 16);
      }
    }
  }

  /** The place of the list counts for the second find: the item at place 1 has been removed. */
  predicate Stays(j: nat) { j != 1 }

  /** The first place, other than the second one, whose item has the index `idx`, or the low byte `data16`. */
  ghost predicate FoundFirst(D: seq<u16>, X: seq<s16>, ord: seq<nat>, idx: s16, data16: u16, k: nat)
    requires |D| == |X| && Indices(ord, |D|)
  {
    && k < |ord| && Stays(k)
    && forall j {:trigger Stays(j)} :: 0 <= j <= k && Stays(j) ==>
         ((j == k) <==> if idx >= 0 then X[ord[j]] == idx else D[ord[j]] % 256 == data16)
  }

  /** How often the head is fed before the last sort, for a list of `m` items of which that at place `k` is found. */
  lemma CellsLeftFound(D: seq<u16>, X: seq<s16>, ord: seq<nat>, idx: s16, data16: u16, k: nat)
    requires |D| == |X| && |ord| >= 2 && Indices(ord, |D|) && FoundFirst(D, X, ord, idx, data16, k)
    ensures CellsLeft(D, X, ord, idx, data16) == if k == 0 then |ord| - 1 else |ord| - k
  {
    var rest := Without(ord, 0);
    var place := if k == 0 then 0 else k - 1;
    forall i | 0 <= i < place ensures !Matches(X[rest[i]], D[rest[i]], idx, data16) {
      assert Stays(if i == 0 then 0 else i + 1);
    }
    FirstMatchIs(D, X, rest, idx, data16, 0, place);
  }

  lemma CellsLeftNone(D: seq<u16>, X: seq<s16>, ord: seq<nat>, idx: s16, data16: u16)
    requires |D| == |X| && |ord| >= 2 && Indices(ord, |D|)
    requires forall j {:trigger Stays(j)} :: 0 <= j < |ord| && Stays(j) ==>
               if idx >= 0 then X[ord[j]] != idx else D[ord[j]] % 256 != data16
    ensures CellsLeft(D, X, ord, idx, data16) == |ord| - 2
  {
    var rest := Without(ord, 0);
    forall i | 0 <= i < |rest| ensures !Matches(X[rest[i]], D[rest[i]], idx, data16) {
      assert Stays(if i == 0 then 0 else i + 1);
    }
    FirstMatchIs(D, X, rest, idx, data16, 0, |rest|);
  }

  /**
   The checksum: on top of the value of the search phase the word at the head is fed, once for each cell from the one
   that is found on, by the index or the low byte that comes after those of the search; then the word of the head
   of the restored list, once for each other cell.
   */
  lemma ValuedMeans(retval: bv16, D: seq<u16>, X: seq<s16>, finderIdx: s16, seed3: s16, F: seq<u16>, arranged: seq<nat>)
    returns (m1: seq<bool>, m2: seq<bool>, idx: s16, data16: u16, left: nat)
    requires |D| == |X| == |F| >= 3 && Permutation(arranged, |D|) && Valued(retval, D, X, finderIdx, seed3, F, arranged)
    ensures RegOf(retval) == Fold(Fold(RegOf(SearchValue(Searched(D, X, finderIdx, Max(seed3, 0)))), m1), m2)
    ensures Copies(m1, F[arranged[0]], left) && Copies(m2, D[HeadOf(X, arranged, 0)], |D| - 1)
    ensures left == CellsLeft(F, X, arranged, idx, data16)
    ensures data16 == if seed3 > 0 then (seed3 - 1) % 256 else 0
    ensures var n := Max(seed3, 0);
      idx == if finderIdx < 0 then finderIdx else if finderIdx + n <= 0x7fff then finderIdx + n else -0x8000
  {
    hide RegOf, Fold, FedTimes, CellsLeft, HeadOf, Searched, SearchValue, Copies;
    var n: nat := Max(seed3, 0);
    var p := Searched(D, X, finderIdx, n);
    SearchedIndex(D, X, finderIdx, n);
    idx, data16 := p.idx, LastData(seed3);
    left := CellsLeft(F, X, arranged, idx, data16);
    m1 := FedCopies(RegOf(SearchValue(p)), F[arranged[0]], left);
    m2 := FedCopies(Fold(RegOf(SearchValue(p)), m1), D[HeadOf(X, arranged, 0)], |D| - 1);
  }
}
