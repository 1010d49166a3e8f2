/** What the choices and errors of an injection are, said directly. */
module FlipMeaning {
  import opened Numbers
  import opened Options
  import opened Sampling
  import opened Selection
  import opened FlipOps

  /** The error numbers of Linux. */
  lemma ErrorNumbers()
    ensures ENOENT == 2 && ESRCH == 3 && EFAULT == 14 && EBUSY == 16 && EINVAL == 22 && ECANCELED == 125
  {
  }

  /** A memory flip succeeds exactly if nothing fails: the first thing that does decides the error. */
  lemma MemoryErrorIs(vmas: seq<Vma>, e: MemoryEnv)
    ensures var usable := exists v :: v in vmas && !v.io && !v.pfnmap;
      && (!e.taskFound ==> MemoryError(vmas, e) == -ESRCH)
      && (e.taskFound && !e.mmFound ==> MemoryError(vmas, e) == -EINVAL)
      && (e.taskFound && e.mmFound && !e.lockFree ==> MemoryError(vmas, e) == -EBUSY)
      && (e.taskFound && e.mmFound && e.lockFree && !usable ==> MemoryError(vmas, e) == -ENOENT)
      && (e.taskFound && e.mmFound && e.lockFree && usable && !e.goOn ==> MemoryError(vmas, e) == -ECANCELED)
      && (e.taskFound && e.mmFound && e.lockFree && usable && e.goOn && !(e.readable && e.writable)
          ==> MemoryError(vmas, e) == -EFAULT)
      && (MemoryError(vmas, e) == 0
          <==> e.taskFound && e.mmFound && e.lockFree && usable && e.goOn && e.readable && e.writable)
  {
    EligibleAreOk(vmas, Usable);
    if Eligible(vmas, Usable) != [] {
      assert Eligible(vmas, Usable)[0] in Eligible(vmas, Usable);
    }
  }

  /** Every usable mapping can be drawn, and every address in it. */
  lemma EveryAddress(vmas: seq<Vma>, k: nat, a: nat, e: MemoryEnv) returns (e': MemoryEnv)
    requires k < |vmas| && !vmas[k].io && !vmas[k].pfnmap && vmas[k].start <= a < vmas[k].end
    ensures e' == e.(vmaDraw := e'.vmaDraw, offsetDraw := a - vmas[k].start)
    ensures Eligible(vmas, Usable) != [] && ChosenVma(vmas, e') == vmas[k] && ChosenAddress(vmas, e') == a
  {
    var places := EligiblePlaces(vmas, Usable);
    var i :| 0 <= i < |places| && places[i] == k;
    e' := e.(vmaDraw := i, offsetDraw := a - vmas[k].start);
    Small(i, |places|);
    Small(a - vmas[k].start, vmas[k].end - vmas[k].start);
  }

  lemma Small(x: nat, n: nat)
    requires x < n
    ensures x % n == x
  {
  }

  /** Draws that differ by the size of the mapping choose the same address, so all addresses are chosen alike. */
  lemma AddressRepeats(vmas: seq<Vma>, e: MemoryEnv)
    requires Eligible(vmas, Usable) != [] && ChosenVma(vmas, e).start < ChosenVma(vmas, e).end
    ensures var v := ChosenVma(vmas, e);
      var e' := e.(offsetDraw := e.offsetDraw + (v.end - v.start));
      ChosenVma(vmas, e') == v && ChosenAddress(vmas, e') == ChosenAddress(vmas, e)
  {
    var v := ChosenVma(vmas, e);
    OncemoreMod(e.offsetDraw, v.end - v.start);
  }

  lemma OncemoreMod(x: nat, n: nat)
    requires n > 0
    ensures (x + n) % n == x % n
  {
    var q, r := x / n, x % n;
    assert x + n == (q + 1) * n + r;
    DivModOf(q + 1, r, n);
  }

  /** Which process is stopped: the one asked for; without a number, or for one out of range, the drawn one. */
  lemma ProcessIs(e: InjectEnv, j: int)
    requires e.targets != []
    ensures 0 <= j < |e.targets| ==> ProcessAt(e, Some(j)) == e.targets[j]
    ensures j < 0 || j > |e.targets| ==> ProcessAt(e, Some(j)) == ProcessAt(e, None)
    ensures j == |e.targets| ==> ProcessAt(e, Some(j)) == e.behind
    ensures e.processDraw < |e.targets| ==> ProcessAt(e, None) == e.targets[e.processDraw]
    ensures ProcessAt(e, None) == e.targets[e.processDraw % |e.targets|]
  {
    if e.processDraw < |e.targets| {
      Small(e.processDraw, |e.targets|);
    }
  }

  /** Only threads with an address space that are not kernel threads can be chosen, and every one of them can. */
  lemma ThreadsAre(threads: seq<Thread>, t: Thread)
    ensures t in Eligible(threads, UserThread) <==> t in threads && t.mm && !t.kthread
  {
    EligibleAreOk(threads, UserThread);
  }

  /** When there is a thread to inject into, and which it is: the one asked for, counted from 1, or the drawn one. */
  lemma ThreadIs(p: Params, e: InjectEnv) returns (places: seq<nat>)
    ensures forall i :: 0 <= i < |places| ==> places[i] < |e.threads| && e.threads[places[i]].mm
    ensures forall i :: 0 <= i < |places| ==> !e.threads[places[i]].kthread
    ensures forall i, j :: 0 <= i < j < |places| ==> places[i] < places[j]
    ensures forall k :: 0 <= k < |e.threads| && e.threads[k].mm && !e.threads[k].kthread ==> k in places
    ensures HasThread(p, e)
            <==> e.collectError == 0 && e.targets != [] && places != []
                 && (p.thread.Some? ==> p.thread.value <= |places|)
    ensures HasThread(p, e) && p.thread.Some? && p.thread.value > 0 ==> ThreadNumber(p, e) == p.thread.value - 1
    ensures HasThread(p, e) && (p.thread.None? || p.thread.value <= 0) ==>
              ThreadNumber(p, e) == e.threadDraw % |places|
  {
    places := EligiblePlaces(e.threads, UserThread);
  }

  /** A register flip fails only without registers, or if a register or a bit is asked for that does not exist. */
  lemma RegisterErrorIs(p: Params, n: Option<nat>, e: FlipEnv)
    requires -0x8000_0000 <= p.weightMem <= 0x7FFF_FFFF && (n.Some? ==> n.value > 0)
    requires p.targetReg != 0 || SelectsRegister(p.weightMem, p.onlyMem, e.targetDraws)
    ensures FlipError(p, n, e) == 0 || FlipError(p, n, e) == -EINVAL
    ensures FlipError(p, n, e) == 0
            <==> n.Some? && 0 <= p.targetReg <= n.value && (p.regBit.Some? ==> 0 <= p.regBit.value < 64)
  {
    hide SelectsRegister;
  }
}
