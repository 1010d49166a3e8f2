/** The cells of core_list_join.c and the list operations that relink them in place. */
module ListCells {
  import opened Numbers

  function HighByte(d: u16): int { d / 256 }

  function LowByte(d: u16): int { d % 256 }

  /** The data item of a cell: the high byte of `data16` backs up the low one. */
  class Info {
    var data16: u16
    var idx: s16

    constructor (data16: u16, idx: s16)
      ensures this.data16 == data16 && this.idx == idx
    {
      this.data16, this.idx := data16, idx;
    }
  }

  class Cell {
    var next: Cell?
    var info: Info

    constructor (info: Info)
      ensures this.info == info && next == null
    {
      this.info, next := info, null;
    }
  }

  /** The cell that follows position `i` in the list that visits `s`. */
  ghost function Succ(s: seq<Cell>, i: int): Cell?
  {
    if 0 <= i + 1 < |s| then s[i + 1] else null
  }

  ghost predicate Distinct<T>(s: seq<T>)
  {
    forall i, j :: 0 <= i < j < |s| ==> s[i] != s[j]
  }

  /** `head` starts a null-terminated, acyclic list that visits exactly the cells of `s`, in order. */
  ghost predicate Linked(head: Cell?, s: seq<Cell>)
    reads (set c | c in s)`next
  {
    && head == Succ(s, -1)
    && Distinct(s)
    && (forall i {:trigger s[i].next} :: 0 <= i < |s| ==> s[i].next == Succ(s, i))
  }

  ghost function Infos(s: seq<Cell>): set<Info>
    reads (set c | c in s)`info
  {
    set c | c in s :: c.info
  }

  /** No two cells share a data item. */
  ghost predicate OwnInfos(s: seq<Cell>)
    reads (set c | c in s)`info
  {
    forall i, j :: 0 <= i < j < |s| ==> s[i].info != s[j].info
  }

  // ---------- reverse ----------

  ghost function Reversed<T>(s: seq<T>): (r: seq<T>)
    ensures |r| == |s|
    ensures forall i :: 0 <= i < |s| ==> r[i] == s[|s| - 1 - i]
  {
    seq(|s|, i requires 0 <= i < |s| => s[|s| - 1 - i])
  }

  method Reverse(list0: Cell?, ghost s: seq<Cell>) returns (next: Cell?)
    requires Linked(list0, s)
    modifies (set c | c in s)`next
    ensures Linked(next, Reversed(s))
  {
    var list := list0;
    next := null;
    ghost var k := 0;
    while list != null
      invariant 0 <= k <= |s|
      invariant list == Succ(s, k - 1)
      invariant next == if k == 0 then null else s[k - 1]
      invariant forall i {:trigger s[i].next} :: k <= i < |s| ==> s[i].next == Succ(s, i)
      invariant forall i {:trigger s[i].next} :: 0 <= i < k ==> s[i].next == if i == 0 then null else s[i - 1]
      decreases |s| - k
    {
      var tmp := list.next;
      list.next := next;
      next := list;
      list := tmp;
      k := k + 1;
    }
    ghost var r := Reversed(s);
    forall i {:trigger r[i].next} | 0 <= i < |r| ensures r[i].next == Succ(r, i) {
      assert r[i] == s[|s| - 1 - i];
    }
  }

  // ---------- find ----------

  /** Whether `core_list_find` accepts an item: by index if one is given, else by its low byte. */
  predicate Matches(idx: s16, data16: u16, wantIdx: s16, wantData: u16)
  {
    if wantIdx >= 0 then idx == wantIdx else LowByte(data16) == wantData
  }

  method Find(list0: Cell?, wantIdx: s16, wantData: u16, ghost s: seq<Cell>) returns (list: Cell?, ghost k: nat)
    requires Linked(list0, s)
    ensures k <= |s| && list == Succ(s, k - 1)
    ensures forall i :: 0 <= i < k ==> !Matches(s[i].info.idx, s[i].info.data16, wantIdx, wantData)
    ensures k < |s| ==> Matches(s[k].info.idx, s[k].info.data16, wantIdx, wantData)
    ensures list != null ==> list in s && Matches(list.info.idx, list.info.data16, wantIdx, wantData)
    ensures list == null <==> forall c :: c in s ==> !Matches(c.info.idx, c.info.data16, wantIdx, wantData)
  {
    list, k := list0, 0;
    if wantIdx >= 0 {
      while list != null && list.info.idx != wantIdx
        invariant k <= |s| && list == Succ(s, k - 1)
        invariant forall i :: 0 <= i < k ==> s[i].info.idx != wantIdx
        decreases |s| - k
      {
        list, k := list.next, k + 1;
      }
    } else {
      while list != null && LowByte(list.info.data16) != wantData
        invariant k <= |s| && list == Succ(s, k - 1)
        invariant forall i :: 0 <= i < k ==> LowByte(s[i].info.data16) != wantData
        decreases |s| - k
      {
        list, k := list.next, k + 1;
      }
    }
  }

  // ---------- remove and its undo ----------

  /** The list without the cell after position `k`. */
  ghost function Without<T>(s: seq<T>, k: nat): seq<T>
    requires k + 1 < |s|
  {
    s[..k + 1] + s[k + 2..]
  }

  /**
   Removes the data item of `item` from the list: its cell takes over the data item of the next cell,
   and the next cell is unlinked, carrying the removed item.
   */
  method Remove(item: Cell, ghost head: Cell?, ghost s: seq<Cell>, ghost k: nat) returns (ret: Cell)
    requires Linked(head, s) && k + 1 < |s| && item == s[k]
    modifies {item, item.next}`next, {item, item.next}`info
    ensures ret == s[k + 1] && ret.next == null
    ensures Linked(head, Without(s, k))
    ensures item.info == old(s[k + 1].info) && ret.info == old(item.info)
  {
    ret := item.next;
    var tmp := item.info;
    item.info := ret.info;
    ret.info := tmp;
    item.next := item.next.next;
    ret.next := null;
    ghost var r := Without(s, k);
    forall i {:trigger r[i].next} | 0 <= i < |r| ensures r[i].next == Succ(r, i) {
      assert r[i] == if i <= k then s[i] else s[i + 1];
      assert i + 1 < |r| ==> r[i + 1] == if i + 1 <= k then s[i + 1] else s[i + 2];
    }
  }

  method UndoRemove(removed: Cell, modified: Cell, ghost head: Cell?, ghost s: seq<Cell>, ghost k: nat)
    returns (ret: Cell)
    requires k + 1 < |s| && Linked(head, Without(s, k))
    requires modified == s[k] && removed == s[k + 1]
    requires Distinct(s)
    modifies {removed, modified}`next, {removed, modified}`info
    ensures ret == removed
    ensures Linked(head, s)
    ensures modified.info == old(removed.info) && removed.info == old(modified.info)
  {
    ghost var r := Without(s, k);
    assert r[k] == s[k];
    assert forall i :: 0 <= i <= k ==> r[i] == s[i];
    assert forall i :: k + 2 <= i < |s| ==> r[i - 1] == s[i];
    assert forall i :: 0 <= i <= k ==> r[i].next == Succ(r, i);
    assert forall i {:trigger s[i]} :: k + 2 <= i < |s| ==> r[i - 1].next == Succ(r, i - 1);
    var tmp := removed.info;
    removed.info := modified.info;
    modified.info := tmp;
    removed.next := modified.next;
    modified.next := removed;
    ret := removed;
    forall i {:trigger s[i].next} | 0 <= i < |s| ensures s[i].next == Succ(s, i) {
    }
  }
}
