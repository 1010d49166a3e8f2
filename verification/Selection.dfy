/** Choosing one element by two walks over a list: the first counts the eligible elements, the second stops at one. */
module Selection {
  import opened Options

  /** The eligible elements, in their order. */
  function Eligible<T>(s: seq<T>, ok: T -> bool): (r: seq<T>)
  {
    if s == [] then []
    else if ok(s[|s| - 1]) then Eligible(s[..|s| - 1], ok) + [s[|s| - 1]]
    else Eligible(s[..|s| - 1], ok)
  }

  lemma {:induction false} EligibleAreOk<T>(s: seq<T>, ok: T -> bool)
    ensures forall x :: x in Eligible(s, ok) <==> x in s && ok(x)
  {
    if s != [] {
      EligibleAreOk(s[..|s| - 1], ok);
      assert s == s[..|s| - 1] + [s[|s| - 1]];
    }
  }

  lemma {:induction false} EligiblePrefix<T>(s: seq<T>, ok: T -> bool, n: nat)
    requires n <= |s|
    ensures Eligible(s[..n], ok) <= Eligible(s, ok)
  {
    if n < |s| {
      EligiblePrefix(s[..|s| - 1], ok, n);
      assert s[..|s| - 1][..n] == s[..n];
    } else {
      assert s[..n] == s;
    }
  }

  method Count<T>(s: seq<T>, ok: T -> bool) returns (count: nat)
    ensures count == |Eligible(s, ok)|
  {
    count := 0;
    for i := 0 to |s|
      invariant count == |Eligible(s[..i], ok)|
    {
      assert s[..i + 1][..i] == s[..i];
      if ok(s[i]) {
        count := count + 1;
      }
    }
    assert s[..|s|] == s;
  }

  /** The walk that stops at the eligible element number `target`; None when there are not so many. */
  method Walk<T>(s: seq<T>, ok: T -> bool, target: nat) returns (r: Option<T>)
    ensures r == if target < |Eligible(s, ok)| then Some(Eligible(s, ok)[target]) else None
  {
    var count := 0;
    for i := 0 to |s|
      invariant count == |Eligible(s[..i], ok)| <= target
    {
      assert s[..i + 1][..i] == s[..i];
      EligiblePrefix(s, ok, i + 1);
      if ok(s[i]) {
        if count == target {
          return Some(s[i]);
        }
        count := count + 1;
      }
    }
    assert s[..|s|] == s;
    return None;
  }

  /** They are the eligible elements of the list, each at its own place, in the order of their places. */
  lemma {:induction false} EligiblePlaces<T>(s: seq<T>, ok: T -> bool) returns (places: seq<nat>)
    ensures |places| == |Eligible(s, ok)|
    ensures forall i :: 0 <= i < |places| ==> places[i] < |s| && Eligible(s, ok)[i] == s[places[i]] && ok(s[places[i]])
    ensures forall i, j :: 0 <= i < j < |places| ==> places[i] < places[j]
    ensures forall k :: 0 <= k < |s| && ok(s[k]) ==> k in places
  {
    places := [];
    if s != [] {
      var n := |s| - 1;
      places := EligiblePlaces(s[..n], ok);
      if ok(s[n]) {
        places := places + [n];
        assert places[|places| - 1] == n;
      }
    }
  }
}
