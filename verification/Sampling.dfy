/** The choice between a register and memory: rejection sampling over 32-bit draws. */
module Sampling {
  import opened Numbers
  import opened Options

  const TWO32 := 0x1_0000_0000
  const U32_MAX := 0xFFFF_FFFF

  /** The conversion of a C `int` to `u32`. */
  function AsU32(x: int): (u: nat)
    requires -0x8000_0000 <= x <= 0x7FFF_FFFF
    ensures u <= U32_MAX
  {
    if x < 0 then x + TWO32 else x
  }

  function Total(weightMem: int): (total: nat)
    requires -0x8000_0000 <= weightMem <= 0x7FFF_FFFF
    ensures 1 <= total <= U32_MAX
  {
    var wm := AsU32(weightMem);
    if wm == U32_MAX then U32_MAX else wm + 1
  }

  function Limit(total: nat): (limit: int)
    requires 1 <= total <= U32_MAX
  {
    U32_MAX - U32_MAX % total
  }

  /** It is the greatest multiple of the total that does not exceed 2^32 - 1. */
  lemma LimitIs(total: nat) returns (q: nat)
    requires 1 <= total <= U32_MAX
    ensures Limit(total) == q * total && q * total <= U32_MAX < (q + 1) * total
  {
    q := U32_MAX / total;
  }

  /**
   The loop over the random draws, in the order in which they are made. `None` means that all of them were rejected,
   so that the loop goes on drawing.
   */
  method ChooseRegisterTarget(weightMem: int, onlyMem: int, draws: seq<nat>) returns (register: Option<bool>, used: nat)
    requires -0x8000_0000 <= weightMem <= 0x7FFF_FFFF && forall r :: r in draws ==> r <= U32_MAX
    ensures used <= |draws|
    ensures onlyMem != 0 || weightMem == 0 ==> register.Some? && used == 0
    ensures onlyMem == 0 && weightMem != 0 ==>
              if register.None?
              then used == |draws| && forall i :: 0 <= i < |draws| ==> !Accepted(draws[i], Total(weightMem))
              else used > 0 && FirstAccepted(draws, used - 1, Total(weightMem))
    ensures register.Some? ==> (register.value <==> SelectsRegister(weightMem, onlyMem, draws))
    ensures register.Some? ==>
              register.value == if onlyMem != 0 then false else if weightMem == 0 then true
                                else draws[used - 1] % Total(weightMem) == 0
  {
    used := 0;
    if onlyMem != 0 {
      return Some(false), 0;
    }
    var wm := AsU32(weightMem);
    var total := if wm == U32_MAX then U32_MAX else wm + 1;
    if total == 1 {
      return Some(true), 0;
    }
    var limit := U32_MAX - U32_MAX % total;
    while used < |draws|
      invariant used <= |draws|
      invariant forall i :: 0 <= i < used ==> !Accepted(draws[i], total)
    {
      var r := draws[used];
      used := used + 1;
      if r < limit {
        return Some(r % total < 1), used;
      }
    }
    return None, used;
  }

  predicate Accepted(r: nat, total: nat)
    requires 1 <= total <= U32_MAX
  {
    r < Limit(total)
  }

  function Residue(r: nat, total: nat): nat
    requires total >= 1
  {
    r % total
  }

  /** What the loop decides: the first draw that it accepts selects a register if it leaves no residue. */
  ghost predicate SelectsRegister(weightMem: int, onlyMem: int, draws: seq<nat>)
    requires -0x8000_0000 <= weightMem <= 0x7FFF_FFFF
  {
    onlyMem == 0 && (weightMem == 0 ||
      exists k :: 0 <= k < |draws| && FirstAccepted(draws, k, Total(weightMem))
                  && Residue(draws[k], Total(weightMem)) == 0)
  }

  ghost predicate FirstAccepted(draws: seq<nat>, k: nat, total: nat)
    requires k < |draws| && 1 <= total <= U32_MAX
  {
    Accepted(draws[k], total) && forall i :: 0 <= i < k ==> !Accepted(draws[i], total)
  }

  /** The draws that lead to residue `c`. */
  ghost function Class(c: nat, total: nat): set<nat>
    requires 1 <= total <= U32_MAX
  {
    set r: nat | r <= U32_MAX && Accepted(r, total) && Residue(r, total) == c
  }

  // ---------- the classes have the same size ----------

  ghost function ClassBelow(c: nat, total: nat, q: nat): set<nat>
    requires total >= 1
  {
    set r: nat | r < q * total && Residue(r, total) == c
  }

  /** Each further stretch of `total` draws adds one draw to every class. */
  lemma {:induction false} ClassSize(c: nat, total: nat, q: nat)
    requires c < total
    ensures |ClassBelow(c, total, q)| == q
  {
    if q == 0 {
      assert ClassBelow(c, total, 0) == {};
    } else {
      ClassSize(c, total, q - 1);
      var below := ClassBelow(c, total, q - 1);
      var r := (q - 1) * total + c;
      DivModOf(q - 1, c, total);
      assert r !in below;
      assert q * total == (q - 1) * total + total;
      forall x: nat | x in ClassBelow(c, total, q)
        ensures x in below + {r}
      {
        if x >= (q - 1) * total {
          DivModOf(q - 1, x - (q - 1) * total, total);
        }
      }
      assert ClassBelow(c, total, q) == below + {r};
    }
  }

  lemma LimitIsMultiple(total: nat)
    requires 1 <= total <= U32_MAX
    ensures Limit(total) == (U32_MAX / total) * total
  {
  }

  /** Every class of accepted draws has size limit / total, so no choice of the loop is more likely than another. */
  lemma Unbiased(c: nat, total: nat)
    requires c < total && total <= U32_MAX
    ensures |Class(c, total)| == Limit(total) / total == U32_MAX / total
  {
    var q := U32_MAX / total;
    LimitIsMultiple(total);
    ClassSize(c, total, q);
    assert Class(c, total) == ClassBelow(c, total, q);
    DivModOf(q, 0, total);
    assert Limit(total) / total == q;
  }

  ghost function AcceptedDraws(total: nat): set<nat>
    requires 1 <= total <= U32_MAX
  {
    set r: nat | r <= U32_MAX && Accepted(r, total)
  }

  lemma {:induction false} InitialSize(s: set<nat>, n: nat)
    requires forall r: nat :: r in s <==> r < n
    ensures |s| == n
  {
    if n == 0 {
      assert s == {};
    } else {
      InitialSize(s - {n - 1}, n - 1);
    }
  }

  /** Exactly one accepted draw in `total` selects a register; with a weight of at least 0 that is 1 / (1 + weight). */
  lemma RegisterProbability(weightMem: int)
    requires -0x8000_0000 <= weightMem <= 0x7FFF_FFFF
    ensures var total := Total(weightMem);
      && |AcceptedDraws(total)| == total * |Class(0, total)|
      && |Class(0, total)| > 0
      && total == if weightMem >= 0 then 1 + weightMem else if weightMem == -1 then U32_MAX else TWO32 + weightMem + 1
  {
    var total := Total(weightMem);
    Unbiased(0, total);
    LimitIsMultiple(total);
    var limit: nat := Limit(total);
    InitialSize(AcceptedDraws(total), limit);
    assert U32_MAX / total >= 1;
  }

  /** More than half of the draws are accepted, whatever the weight. */
  lemma HalfAccepted(total: nat)
    requires 1 <= total <= U32_MAX
    ensures 2 * |AcceptedDraws(total)| >= TWO32
  {
    LimitIsMultiple(total);
    var q := U32_MAX / total;
    assert q >= 1;
    assert q * total >= total;
    var limit: nat := Limit(total);
    InitialSize(AcceptedDraws(total), limit);
  }

  /** A register is certain only for weight 0; a negative weight, read as unsigned, makes it all but impossible. */
  lemma CertainOnlyAtZero(weightMem: int)
    requires -0x8000_0000 <= weightMem <= 0x7FFF_FFFF
    ensures (forall r :: r in AcceptedDraws(Total(weightMem)) ==> Residue(r, Total(weightMem)) == 0) <==> weightMem == 0
  {
    var total := Total(weightMem);
    hide Limit, Residue;
    if weightMem != 0 {
      LimitAtLeastTotal(total);
      SmallResidue(total);
      assert 1 in AcceptedDraws(total);
    } else {
      ResidueOfOne();
    }
  }

  lemma LimitAtLeastTotal(total: nat)
    requires 1 <= total <= U32_MAX
    ensures Limit(total) >= total
  {
    LimitIsMultiple(total);
    MulAtLeast(total, U32_MAX / total);
  }

  lemma SmallResidue(total: nat)
    requires total >= 2
    ensures Residue(1, total) == 1
  {
    DivModOf(0, 1, total);
  }

  lemma ResidueOfOne()
    ensures forall r :: Residue(r, 1) == 0
  {
  }

  /**
   A negative weight does not behave like 0: read as unsigned it is so large that just one of the 2^32 draws
   selects a register.
   */
  lemma NegativeWeight(weightMem: int)
    requires -0x8000_0000 <= weightMem < 0
    ensures |Class(0, Total(weightMem))| == 1
  {
    var total := Total(weightMem);
    Unbiased(0, total);
    DivModOf(1, U32_MAX - total, total);
  }
}
