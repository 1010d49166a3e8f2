/** Collecting the target and its descendants into a buffer that is sized by a first walk and filled by a second. */
module Processes {
  import opened Numbers
  import opened Options

  const ESRCH := 3
  const ENOMEM := 12

  datatype Task = Task(tgid: int, kthread: bool, dead: bool, children: seq<Task>)

  predicate Skipped(t: Task) { t.kthread || t.dead }

  /** The tgids of the live user descendants in preorder; a task that is skipped is skipped with its subtree. */
  function Preorder(children: seq<Task>): seq<int>
  {
    if children == [] then []
    else
      var first := children[0];
      (if Skipped(first) then [] else [first.tgid] + Preorder(first.children)) + Preorder(children[1..])
  }

  // ---------- what the preorder contains ----------

  /** The tgid at the end of a path of child numbers, if no task on the path is skipped. */
  function Reached(children: seq<Task>, path: seq<nat>): Option<int>
  {
    if path == [] || path[0] >= |children| || Skipped(children[path[0]]) then None
    else if |path| == 1 then Some(children[path[0]].tgid)
    else Reached(children[path[0]].children, path[1..])
  }

  /** A tgid is collected exactly when it is reached through live user tasks only. */
  lemma CollectedIffReached(children: seq<Task>, x: int)
    ensures x in Preorder(children) <==> exists path :: Reached(children, path) == Some(x)
  {
    if x in Preorder(children) {
      var path := PathTo(children, x);
    }
    if path :| Reached(children, path) == Some(x) {
      ReachedIsIn(children, path, x);
    }
  }

  lemma ReachedBelow(children: seq<Task>, rest: seq<nat>)
    requires children != [] && !Skipped(children[0]) && rest != []
    ensures Reached(children, [0] + rest) == Reached(children[0].children, rest)
  {
    assert ([0] + rest)[1..] == rest;
  }

  lemma ReachedBeside(children: seq<Task>, rest: seq<nat>)
    requires children != [] && rest != []
    ensures Reached(children, [rest[0] + 1] + rest[1..]) == Reached(children[1..], rest)
  {
    assert ([rest[0] + 1] + rest[1..])[1..] == rest[1..];
  }

  lemma {:induction false} PathTo(children: seq<Task>, x: int) returns (path: seq<nat>)
    requires x in Preorder(children)
    ensures Reached(children, path) == Some(x)
    decreases children
  {
    var first := children[0];
    if !Skipped(first) && x == first.tgid {
      path := [0];
    } else if !Skipped(first) && x in Preorder(first.children) {
      var rest := PathTo(first.children, x);
      path := [0] + rest;
      ReachedBelow(children, rest);
    } else {
      var rest := PathTo(children[1..], x);
      path := [rest[0] + 1] + rest[1..];
      ReachedBeside(children, rest);
    }
  }

  lemma {:induction false} ReachedIsIn(children: seq<Task>, path: seq<nat>, x: int)
    requires Reached(children, path) == Some(x)
    ensures x in Preorder(children)
    decreases children
  {
    if path[0] > 0 {
      var rest := [path[0] - 1] + path[1..];
      assert rest[1..] == path[1..];
      ReachedIsIn(children[1..], rest, x);
    } else if |path| > 1 {
      ReachedIsIn(children[0].children, path[1..], x);
    }
  }

  /** What a task contributes to the preorder. */
  function Own(t: Task): seq<int> { if Skipped(t) then [] else [t.tgid] + Preorder(t.children) }

  lemma PreorderCons(s: seq<Task>)
    requires s != []
    ensures Preorder(s) == Own(s[0]) + Preorder(s[1..])
  {
  }

  lemma {:induction false} PreorderConcat(a: seq<Task>, b: seq<Task>)
    ensures Preorder(a + b) == Preorder(a) + Preorder(b)
  {
    if a == [] {
      assert a + b == b;
    } else {
      hide Preorder, Own;
      PreorderConcat(a[1..], b);
      assert (a + b)[1..] == a[1..] + b;
      PreorderCons(a);
      PreorderCons(a + b);
      Assoc(Own(a[0]), Preorder(a[1..]), Preorder(b));
    }
  }

  lemma Assoc(a: seq<int>, b: seq<int>, c: seq<int>)
    ensures a + (b + c) == a + b + c
  {
  }

  /**
   What a task stands for in the preorder, wherever it is among its siblings: itself and then its descendants, or
   nothing if it is a kernel thread or dead.  With the empty list this leaves no other order.
   */
  lemma PreorderAt(before: seq<Task>, t: Task, after: seq<Task>)
    ensures t.kthread || t.dead ==> Preorder(before + [t] + after) == Preorder(before) + Preorder(after)
    ensures !t.kthread && !t.dead ==>
              Preorder(before + [t] + after) == Preorder(before) + [t.tgid] + Preorder(t.children) + Preorder(after)
    ensures Preorder([]) == []
  {
    hide Preorder, Own;
    PreorderConcat(before + [t], after);
    PreorderConcat(before, [t]);
    PreorderOfOne(t);
    OwnIs(t, Preorder(before));
  }

  lemma PreorderOfOne(t: Task)
    ensures Preorder([t]) == Own(t) && Preorder([]) == []
  {
    assert [t][1..] == [];
  }

  lemma PreorderNext(children: seq<Task>, i: nat)
    requires i < |children|
    ensures Preorder(children[..i + 1]) == Preorder(children[..i]) + Own(children[i])
  {
    assert children[..i + 1] == children[..i] + [children[i]];
    PreorderConcat(children[..i], [children[i]]);
    assert [children[i]][1..] == [];
  }

  lemma OwnIs(t: Task, done: seq<int>)
    ensures Skipped(t) ==> done + Own(t) == done
    ensures !Skipped(t) ==> done + Own(t) == (done + [t.tgid]) + Preorder(t.children)
  {
    Assoc(done, [t.tgid], Preorder(t.children));
  }

  // ---------- the two walks ----------

  method CountDescendants(parent: Task) returns (n: nat)
    ensures n == |Preorder(parent.children)|
    decreases parent
  {
    n := 0;
    for i := 0 to |parent.children|
      invariant n == |Preorder(parent.children[..i])|
    {
      PreorderNext(parent.children, i);
      var child := parent.children[i];
      if child.kthread || child.dead {
        continue;
      }
      n := n + 1;
      var below := CountDescendants(child);
      n := n + below;
    }
    assert parent.children[..|parent.children|] == parent.children;
  }

  /** `part` has been written into the buffer from `from` on, and nothing else. */
  ghost predicate Written(before: seq<int>, after: seq<int>, from: nat, part: seq<int>)
    requires from + |part| <= |before|
  {
    after == before[..from] + part + before[from + |part|..]
  }

  function Prefix(s: seq<int>, n: nat): (r: seq<int>)
    requires n <= |s|
    ensures |r| == n
  {
    s[..n]
  }

  /** Writes as much of the preorder as there is room for, from `from` on, and nothing else. */
  method CollectPreorder(parent: Task, out: array<int>, from: nat, max: nat) returns (n: nat)
    requires from + max <= out.Length
    modifies out
    ensures n == Min(max, |Preorder(parent.children)|)
    ensures Written(old(out[..]), out[..], from, Prefix(Preorder(parent.children), n))
    decreases parent
  {
    hide Preorder, Own, Written, Prefix;
    ghost var before := out[..];
    var children := parent.children;
    n := 0;
    NothingWritten(before, from, children);
    for i := 0 to |children|
      invariant n == Min(max, |Preorder(children[..i])|)
      invariant Written(before, out[..], from, Prefix(Preorder(children[..i]), n))
    {
      PreorderNext(children, i);
      ghost var done := Preorder(children[..i]);
      var child := children[i];
      OwnIs(child, done);
      if child.kthread || child.dead {
        continue;
      }
      if n < max {
        PrefixAll(done);
        WriteOne(before, out[..], from, done, child.tgid);
        out[from + n] := child.tgid;
        n := n + 1;
      } else {
        StopsHere(children, i, n);
        break;
      }
      done := done + [child.tgid];
      ghost var more := Preorder(child.children);
      assert done + more == Preorder(children[..i + 1]) && |done| == n;
      if n < max {
        ghost var here := out[..];
        var below := CollectPreorder(child, out, from + n, max - n);
        WriteMore(before, here, out[..], from, done, more, below);
        n := n + below;
      } else {
        PrefixOfConcat(done, more);
      }
    }
    assert children[..|children|] == children;
  }

  lemma NothingWritten(before: seq<int>, from: nat, children: seq<Task>)
    requires from <= |before|
    ensures Preorder(children[..0]) == [] && Written(before, before, from, Prefix(Preorder(children[..0]), 0))
  {
  }

  lemma PrefixAll(s: seq<int>)
    ensures Prefix(s, |s|) == s
  {
  }

  lemma PrefixOfConcat(s: seq<int>, t: seq<int>)
    ensures Prefix(s + t, |s|) == s
  {
  }

  /** When the buffer is full, what has been written is already the prefix of the whole preorder. */
  lemma StopsHere(children: seq<Task>, i: nat, n: nat)
    requires i <= |children| && n <= |Preorder(children[..i])|
    ensures |Preorder(children)| >= n && Prefix(Preorder(children), n) == Prefix(Preorder(children[..i]), n)
  {
    assert children == children[..i] + children[i..];
    PreorderConcat(children[..i], children[i..]);
  }

  lemma WriteOne(before: seq<int>, here: seq<int>, from: nat, done: seq<int>, x: int)
    requires from + |done| < |before| && Written(before, here, from, done)
    ensures |here| == |before| && Written(before, here[from + |done| := x], from, done + [x])
  {
  }

  lemma WriteMore(before: seq<int>, here: seq<int>, after: seq<int>, from: nat, done: seq<int>, more: seq<int>, k: nat)
    requires from + |done| + k <= |before| && k <= |more|
    requires Written(before, here, from, done) && |here| == |before|
    requires Written(here, after, from + |done|, Prefix(more, k))
    ensures Written(before, after, from, Prefix(done + more, |done| + k))
  {
    assert here[..from + |done|] == before[..from] + done;
    assert here[from + |done| + k..] == before[from + |done| + k..];
    assert (done + more)[..|done| + k] == done + more[..k];
  }

  // ---------- the context ----------

  class Context {
    var targets: array?<int>
    var ntargets: nat
    var capacity: nat

    ghost predicate Valid()
      reads this
    {
      && (targets == null ==> capacity == 0) && (targets != null ==> capacity == targets.Length)
      && ntargets <= capacity
    }

    /**
     The root and its descendants. The tree may change between the walk that counts (`first`) and the walk that
     collects (`second`): then what fits is a prefix, and if it has not grown it is complete.
     */
    method CollectDescendants(first: Option<Task>, second: Task, memoryLeft: bool) returns (err: int)
      requires Valid() && (first.Some? ==> first.value.tgid == second.tgid)
      modifies this, targets
      ensures Valid()
      ensures first == None ==> err == -ESRCH
      ensures err == 0 || err == -ESRCH || err == -ENOMEM
      ensures err == -ENOMEM <==> first.Some? && !memoryLeft && old(capacity) < 1 + |Preorder(first.value.children)|
      ensures err != 0 ==> targets == old(targets) && ntargets == old(ntargets) && capacity == old(capacity)
                           && (targets != null ==> targets[..] == old(if targets != null then targets[..] else []))
      ensures err == 0 ==> first.Some? && targets != null
      ensures err == 0 ==> capacity == Max(old(capacity), 1 + |Preorder(first.value.children)|)
      ensures err == 0 ==> ntargets == Min(capacity, 1 + |Preorder(second.children)|)
      ensures err == 0 ==> targets[..ntargets] == Prefix([second.tgid] + Preorder(second.children), ntargets)
      ensures err == 0 && |Preorder(second.children)| <= |Preorder(first.value.children)| ==>
        targets[..ntargets] == [second.tgid] + Preorder(second.children)
    {
      hide Preorder, Written, Prefix;
      if first.None? {
        return -ESRCH;
      }
      var count := CountDescendants(first.value);
      var total := count + 1;
      if capacity < total {
        if !memoryLeft {
          return -ENOMEM;
        }
        targets := new int[total];
        capacity := total;
      }
      var n := 0;
      targets[n] := second.tgid;
      n := n + 1;
      ghost var here := targets[..];
      var below := CollectPreorder(second, targets, n, capacity - n);
      FilledFromRoot(here, targets[..], second.tgid, Preorder(second.children), below);
      n := n + below;
      ntargets := n;
      err := 0;
    }
  }

  lemma FilledFromRoot(here: seq<int>, now: seq<int>, root: int, all: seq<int>, k: nat)
    requires 1 + k <= |here| && k <= |all| && here[0] == root && Written(here, now, 1, Prefix(all, k))
    ensures 1 + k <= |now| && now[..1 + k] == Prefix([root] + all, 1 + k)
    ensures k == |all| ==> now[..1 + k] == [root] + all
  {
    assert ([root] + all)[..1 + k] == [root] + all[..k];
  }
}
