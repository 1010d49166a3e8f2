/** The injection itself: flipping one bit of a register or of memory in a stopped process, and undoing it in a file. */
module FlipOps {
  import opened BitOps
  import opened Options
  import opened Sampling
  import opened Selection
  import opened Signals

  // error numbers
  const ENOENT := 2
  const ESRCH := 3
  const EFAULT := 14
  const EBUSY := 16
  const EINVAL := 22
  const ECANCELED := 125

  const PAGE := 4096

  datatype Params = Params(targetReg: int, regBit: Option<int>, weightMem: int, onlyMem: int,
                           nprocess: Option<int>, thread: Option<int>)

  /** A mapping of the address space: where it lies, whether it maps a device, whether it is backed by a file. */
  datatype Vma = Vma(start: nat, end: nat, io: bool, pfnmap: bool, file: bool)

  datatype Thread = Thread(tid: int, mm: bool, kthread: bool)

  datatype Restore = Restore(page: nat, offset: nat, byte: nat)

  predicate Usable(v: Vma) { !v.io && !v.pfnmap }

  predicate UserThread(t: Thread) { t.mm && !t.kthread }

  /** The bytes of the target's memory, by address. */
  class Memory {
    var bytes: map<nat, nat>
  }

  // ---------- what a flip does to the bytes, and its undoing ----------

  function WithFlip(bytes: map<nat, nat>, a: nat, bit: nat): map<nat, nat>
    requires a in bytes
  {
    bytes[a := FlipBit(bytes[a], bit)]
  }

  function WithRevert(bytes: map<nat, nat>, r: Restore): map<nat, nat>
  {
    bytes[r.page * PAGE + r.offset := r.byte]
  }

  /** What is captured for the byte at address `a`. */
  function Capture(bytes: map<nat, nat>, a: nat): Restore
    requires a in bytes
  {
    Restore(a / PAGE, a % PAGE, bytes[a])
  }

  /** A byte that is written to an address. */
  datatype Write = Write(address: nat, byte: nat)

  /** The bytes after the target has written, in this order. */
  function Written(bytes: map<nat, nat>, writes: seq<Write>): map<nat, nat>
  {
    if writes == [] then bytes else
      var n := |writes| - 1;
      Written(bytes, writes[..n])[writes[n].address := writes[n].byte]
  }

  /** What the target has last written to an address. */
  function LastWrite(writes: seq<Write>, a: nat): Option<nat>
  {
    if writes == [] then None else
      var n := |writes| - 1;
      if writes[n].address == a then Some(writes[n].byte) else LastWrite(writes[..n], a)
  }

  /** A byte that was there before stays unless it is written over. */
  lemma {:induction false} WrittenOver(bytes: map<nat, nat>, writes: seq<Write>, a: nat, byte: nat)
    ensures var w := Written(bytes, writes);
      match LastWrite(writes, a)
      case None => Written(bytes[a := byte], writes) == w[a := byte] && (a in bytes ==> a in w && w[a] == bytes[a])
      case Some(v) => Written(bytes[a := byte], writes) == w && a in w && w[a] == v
  {
    if writes != [] {
      WrittenOver(bytes, writes[..|writes| - 1], a, byte);
    }
  }

  lemma FlipDiffers(v: nat, bit: nat)
    ensures FlipBit(v, bit) != v
  {
    FlipBitAt(v, bit, bit);
  }

  /** The bytes after a flip at `a`, what the target wrote next, and the revert if the page has been captured. */
  function Outcome(bytes: map<nat, nat>, a: nat, bit: nat, writes: seq<Write>, captured: bool): map<nat, nat>
    requires a in bytes
  {
    var w := Written(WithFlip(bytes, a, bit), writes);
    if captured then WithRevert(w, Capture(bytes, a)) else w
  }

  /** What the target last wrote to `a`, if anything, decides whether the injection leaves a trace. */
  predicate NoTrace(last: Option<nat>, byte: nat, captured: bool)
  {
    match last
    case None => captured
    case Some(v) => captured ==> v == byte
  }

  /**
   The bytes are those of a target into which nothing was injected in exactly two cases: the target has left the byte
   alone, and its page was captured; or it has written the byte, and the revert does not undo what it wrote.
   */
  lemma NoTraceIff(bytes: map<nat, nat>, a: nat, bit: nat, writes: seq<Write>, captured: bool)
    requires a in bytes
    ensures Outcome(bytes, a, bit, writes, captured) == Written(bytes, writes)
            <==> NoTrace(LastWrite(writes, a), bytes[a], captured)
  {
    hide FlipBit, Written;
    var w, o := Written(bytes, writes), Outcome(bytes, a, bit, writes, captured);
    var flipped := FlipBit(bytes[a], bit);
    FlipDiffers(bytes[a], bit);
    WrittenOver(bytes, writes, a, flipped);
    assert a / PAGE * PAGE + a % PAGE == a;
    assert captured ==> a in o && o[a] == bytes[a] && o == w[a := bytes[a]];
    assert a in w && (!captured && LastWrite(writes, a).None? ==> o[a] == flipped);
    assert w == w[a := w[a]];
  }

  /** What a run reports about its flip. */
  datatype Report = Report(memoryFlip: bool, registerId: int, address: nat, before: nat, after: nat)

  /** Registers and memory differ in exactly one bit from what they were, and it is the one that the report tells. */
  ghost predicate OneBitFlipped(regs: seq<nat>, regs': seq<nat>, bytes: map<nat, nat>, bytes': map<nat, nat>, r: Report)
  {
    if r.memoryFlip then
      && regs' == regs
      && r.address in bytes && r.before == bytes[r.address] && bytes' == bytes[r.address := r.after]
      && exists b :: 0 <= b < 8 && r.after == FlipBit(r.before, b)
    else
      && bytes' == bytes
      && 1 <= r.registerId <= |regs| && r.before == regs[r.registerId - 1] && regs' == regs[r.registerId - 1 := r.after]
      && exists b :: 0 <= b < 64 && r.after == FlipBit(r.before, b)
  }

  lemma OutcomeIs(bytes: map<nat, nat>, a: nat, bit: nat, writes: seq<Write>, captured: bool)
    requires a in bytes
    ensures Outcome(bytes, a, bit, writes, captured)
            == if captured then WithRevert(Written(WithFlip(bytes, a, bit), writes), Capture(bytes, a))
               else Written(WithFlip(bytes, a, bit), writes)
  {
  }

  /** The target goes on, and writes. */
  method WriteAll(mem: Memory, writes: seq<Write>)
    modifies mem
    ensures mem.bytes == Written(old(mem.bytes), writes)
  {
    for i := 0 to |writes|
      invariant mem.bytes == Written(old(mem.bytes), writes[..i])
    {
      mem.bytes := mem.bytes[writes[i].address := writes[i].byte];
      assert writes[..i + 1][..i] == writes[..i];
    }
    assert writes[..|writes|] == writes;
  }

  // ---------- what the kernel answers during a memory flip ----------

  datatype MemoryEnv = MemoryEnv(
    taskFound: bool, mmFound: bool, lockFree: bool, vmaDraw: nat, offsetDraw: nat, goOn: bool,
    readable: bool, bitDraw: nat, writable: bool, lockFreeAgain: bool, pinned: bool)

  /** The mapping that the draw selects, and the address within it. */
  function ChosenVma(vmas: seq<Vma>, e: MemoryEnv): Vma
    requires Eligible(vmas, Usable) != []
  {
    var usable := Eligible(vmas, Usable);
    usable[e.vmaDraw % |usable|]
  }

  ghost predicate Mapped(vmas: seq<Vma>, bytes: map<nat, nat>)
  {
    forall v :: v in vmas ==> v.start < v.end && forall a :: v.start <= a < v.end ==> a in bytes && bytes[a] < Pow(8)
  }

  function ChosenAddress(vmas: seq<Vma>, e: MemoryEnv): nat
    requires Eligible(vmas, Usable) != [] && ChosenVma(vmas, e).start < ChosenVma(vmas, e).end
  {
    var v := ChosenVma(vmas, e);
    v.start + e.offsetDraw % (v.end - v.start)
  }

  /** The chosen address lies inside a mapping that may be changed. */
  lemma ChosenInside(vmas: seq<Vma>, e: MemoryEnv, bytes: map<nat, nat>)
    requires Mapped(vmas, bytes) && Eligible(vmas, Usable) != []
    ensures ChosenVma(vmas, e) in vmas && Usable(ChosenVma(vmas, e))
    ensures ChosenVma(vmas, e).start < ChosenVma(vmas, e).end
    ensures ChosenVma(vmas, e).start <= ChosenAddress(vmas, e) < ChosenVma(vmas, e).end
    ensures ChosenAddress(vmas, e) in bytes && bytes[ChosenAddress(vmas, e)] < Pow(8)
  {
    EligibleAreOk(vmas, Usable);
    var v := ChosenVma(vmas, e);
    assert v in Eligible(vmas, Usable);
    ModBelow(e.offsetDraw, v.end - v.start);
  }

  lemma ModBelow(x: nat, n: nat)
    requires n > 0
    ensures 0 <= x % n < n
  {
  }

  /** The page is captured if a file backs it, the lock is free once more, and the page can be pinned. */
  predicate IsCaptured(vmas: seq<Vma>, e: MemoryEnv)
    requires Eligible(vmas, Usable) != []
  {
    ChosenVma(vmas, e).file && e.lockFreeAgain && e.pinned
  }

  /** The error with which a memory flip ends, 0 when it succeeds. */
  function MemoryError(vmas: seq<Vma>, e: MemoryEnv): int
  {
    if !e.taskFound then -ESRCH
    else if !e.mmFound then -EINVAL
    else if !e.lockFree then -EBUSY
    else if Eligible(vmas, Usable) == [] then -ENOENT
    else if !e.goOn then -ECANCELED
    else if !e.readable || !e.writable then -EFAULT
    else 0
  }

  // ---------- the context of the run ----------

  class Context {
    var fault: bool
    var memoryFlip: bool
    var registerId: int
    var address: nat
    var before: nat
    var after: nat
    var tgid: int
    var threadIndex: nat
    var restore: Option<Restore>
    ghost var signals: seq<Signal>

    function Told(): Report
      reads this
    {
      Report(memoryFlip, registerId, address, before, after)
    }

    /** Flips one bit of a saved user register, unless register or bit are unknown; then nothing happens. */
    method FlipRegister(p: Params, regs: array<nat>, regDraw: nat, bitDraw: nat) returns (err: int)
      requires regs.Length > 0 && forall i :: 0 <= i < regs.Length ==> regs[i] < Pow(64)
      modifies regs, `memoryFlip, `registerId, `before, `after
      ensures var id := if p.targetReg == 0 then 1 + regDraw % regs.Length else p.targetReg;
              var bit := if p.regBit.Some? then p.regBit.value else bitDraw % 64;
              if 1 <= id <= regs.Length && 0 <= bit < 64 then
                && err == 0
                && regs[..] == old(regs[..])[id - 1 := FlipBit(old(regs[id - 1]), bit)] && regs[id - 1] < Pow(64)
                && !memoryFlip && registerId == id && before == old(regs[id - 1]) && after == regs[id - 1]
              else
                && err == -EINVAL
                && regs[..] == old(regs[..]) && memoryFlip == old(memoryFlip) && registerId == old(registerId)
                && before == old(before) && after == old(after)
    {
      hide Pow, FlipBit, XorBits;
      var targetReg := p.targetReg;
      if targetReg == 0 {
        targetReg := 1 + regDraw % regs.Length;
      }
      var bit := if p.regBit.Some? then p.regBit.value else bitDraw % 64;
      if targetReg < 1 || targetReg > regs.Length {
        return -EINVAL;
      }
      if bit < 0 || bit > 63 {
        return -EINVAL;
      }
      var value := regs[targetReg - 1];
      var mask := Pow(bit);
      var flipped := XorBits(value, mask, 64);
      XorMask(value, bit, 64);
      regs[targetReg - 1] := flipped;
      registerId := targetReg;
      memoryFlip := false;
      before := value;
      after := flipped;
      err := 0;
    }

    /** Flips one bit of one byte of the target's memory; on every error memory and result are as before. */
    method FlipMemory(mem: Memory, vmas: seq<Vma>, e: MemoryEnv) returns (err: int)
      requires Mapped(vmas, mem.bytes)
      modifies mem, `memoryFlip, `registerId, `before, `after, `address, `restore
      ensures err == MemoryError(vmas, e)
      ensures err != 0 ==>
                && mem.bytes == old(mem.bytes) && memoryFlip == old(memoryFlip) && registerId == old(registerId)
                && before == old(before) && after == old(after) && address == old(address) && restore == old(restore)
      ensures err == 0 ==>
                && ChosenVma(vmas, e).start < ChosenVma(vmas, e).end && ChosenAddress(vmas, e) in old(mem.bytes)
                && mem.bytes == WithFlip(old(mem.bytes), ChosenAddress(vmas, e), e.bitDraw % 8)
                && memoryFlip && registerId == 0 && address == ChosenAddress(vmas, e)
                && before == old(mem.bytes)[address] && after == mem.bytes[address] == FlipBit(before, e.bitDraw % 8)
      ensures err == 0 ==>
                restore == if ChosenVma(vmas, e).file && e.lockFreeAgain && e.pinned
                           then Some(Capture(old(mem.bytes), address)) else old(restore)
    {
      hide Pow, FlipBit, XorBits, Eligible, Usable, Mapped;
      if !e.taskFound {
        return -ESRCH;
      }
      if !e.mmFound {
        return -EINVAL;
      }
      if !e.lockFree {
        return -EBUSY;
      }
      var count := Count(vmas, Usable);
      if count == 0 {
        return -ENOENT;
      }
      ChosenInside(vmas, e, mem.bytes);
      var targetIdx := e.vmaDraw % count;
      var chosen := Walk(vmas, Usable, targetIdx);
      if chosen.None? {
        return -ENOENT;
      }
      var vma := chosen.value;
      var vmaSize := vma.end - vma.start;
      var targetAddr := vma.start + e.offsetDraw % vmaSize;
      if !e.goOn {
        return -ECANCELED;
      }
      if !e.readable {
        return -EFAULT;
      }
      var orig := mem.bytes[targetAddr];
      var bit := e.bitDraw % 8;
      XorMask(orig, bit, 8);
      var flipped := XorBits(orig, Pow(bit), 8);
      if !e.writable {
        return -EFAULT;
      }
      mem.bytes := mem.bytes[targetAddr := flipped];
      if vma.file && e.lockFreeAgain && e.pinned {
        restore := Some(Restore(targetAddr / PAGE, targetAddr % PAGE, orig));
      }
      memoryFlip := true;
      address := targetAddr;
      before := orig;
      after := flipped;
      registerId := 0;
      err := 0;
    }

    /** Writes the captured byte back, if there is one, and forgets it. */
    method RevertFileBacked(mem: Memory)
      modifies mem, `restore
      ensures restore == None
      ensures mem.bytes == if old(restore).Some? then WithRevert(old(mem.bytes), old(restore).value) else old(mem.bytes)
    {
      if restore.None? {
        return;
      }
      var r := restore.value;
      mem.bytes := mem.bytes[r.page * PAGE + r.offset := r.byte];
      restore := None;
    }

    /**
     A whole injection into memory: the bitflip thread flips, the target goes on and writes, the monitor reverts.  It
     leaves no trace if the flip failed, or else exactly if it was captured and the target has not changed the byte,
     or was not captured and the target has written over it.
     */
    method FlipRunRevert(mem: Memory, vmas: seq<Vma>, e: MemoryEnv, writes: seq<Write>) returns (err: int)
      requires Mapped(vmas, mem.bytes) && restore == None
      modifies mem, `memoryFlip, `registerId, `before, `after, `address, `restore
      ensures err == MemoryError(vmas, e) && restore == None
      ensures err != 0 ==> mem.bytes == Written(old(mem.bytes), writes)
      ensures err == 0 ==>
                && ChosenVma(vmas, e).start < ChosenVma(vmas, e).end && address == ChosenAddress(vmas, e)
                && address in old(mem.bytes) && before == old(mem.bytes)[address]
                && mem.bytes == Outcome(old(mem.bytes), address, e.bitDraw % 8, writes, IsCaptured(vmas, e))
                && (mem.bytes == Written(old(mem.bytes), writes)
                    <==> NoTrace(LastWrite(writes, address), before, IsCaptured(vmas, e)))
    {
      hide Written, Outcome, NoTrace, LastWrite, WithFlip, WithRevert, FlipBit, Pow, Eligible, Usable, Mapped;
      ghost var bytes := mem.bytes;
      err := FlipMemory(mem, vmas, e);
      WriteAll(mem, writes);
      RevertFileBacked(mem);
      if err == 0 {
        OutcomeIs(bytes, address, e.bitDraw % 8, writes, IsCaptured(vmas, e));
        NoTraceIff(bytes, address, e.bitDraw % 8, writes, IsCaptured(vmas, e));
      }
    }

    /** The thread that the draw selects among the user threads of the group. */
    method PickRandomThread(threads: seq<Thread>, draw: nat) returns (t: Option<Thread>)
      modifies `threadIndex
      ensures var users := Eligible(threads, UserThread);
              if users == [] then t == None && threadIndex == old(threadIndex)
              else threadIndex == draw % |users| && t == Some(users[threadIndex])
    {
      var n := Count(threads, UserThread);
      if n == 0 {
        return None;
      }
      var pick := draw % n;
      t := Walk(threads, UserThread, pick);
      threadIndex := pick;
    }

    /** The thread with the given number, counted from 1; a random one if the number is not positive. */
    method PickThreadByIndex(threads: seq<Thread>, n1: int, draw: nat) returns (t: Option<Thread>)
      modifies `threadIndex
      ensures var users := Eligible(threads, UserThread);
              if n1 <= 0 && users != [] then threadIndex == draw % |users| && t == Some(users[threadIndex])
              else if 0 < n1 <= |users| then threadIndex == n1 - 1 && t == Some(users[threadIndex])
              else t == None && threadIndex == old(threadIndex)
    {
      if n1 <= 0 {
        t := PickRandomThread(threads, draw);
        return;
      }
      var count := Count(threads, UserThread);
      if count == 0 || n1 - 1 >= count {
        return None;
      }
      var target := n1 - 1;
      t := Walk(threads, UserThread, target);
      threadIndex := target;
    }

    /** The flip of `FlipForTask` in the fields and arrays, when it succeeds: of a register or of a byte of memory. */
    ghost predicate Flipped(p: Params, regs: seq<nat>, regs': seq<nat>, bytes: map<nat, nat>, bytes': map<nat, nat>,
                            e: FlipEnv)
      requires -0x8000_0000 <= p.weightMem <= 0x7FFF_FFFF
      reads `memoryFlip, `registerId, `before, `after, `address
    {
      if WantsRegister(p, e) then
        regs != [] &&
        var id, bit := RegisterId(p, |regs|, e.regDraw), RegisterBit(p, e.bitDraw);
        && 1 <= id <= |regs| && 0 <= bit < 64
        && regs' == regs[id - 1 := FlipBit(regs[id - 1], bit)] && bytes' == bytes
        && !memoryFlip && registerId == id && before == regs[id - 1] && after == FlipBit(before, bit)
      else
        && Eligible(e.vmas, Usable) != [] && ChosenVma(e.vmas, e.memory).start < ChosenVma(e.vmas, e.memory).end
        && address == ChosenAddress(e.vmas, e.memory) && address in bytes
        && regs' == regs && bytes' == WithFlip(bytes, address, e.memory.bitDraw % 8)
        && memoryFlip && registerId == 0 && before == bytes[address]
        && after == FlipBit(before, e.memory.bitDraw % 8)
    }

    lemma FlippedIsOneBit(p: Params, regs: seq<nat>, regs': seq<nat>, bytes: map<nat, nat>, bytes': map<nat, nat>,
                          e: FlipEnv)
      requires -0x8000_0000 <= p.weightMem <= 0x7FFF_FFFF && Flipped(p, regs, regs', bytes, bytes', e)
      ensures OneBitFlipped(regs, regs', bytes, bytes', Told())
      ensures memoryFlip <==> !WantsRegister(p, e)
    {
      hide WantsRegister, ChosenVma, ChosenAddress, RegisterId, RegisterBit, Eligible, FlipBit;
      if memoryFlip {
        ModBelow(e.memory.bitDraw, 8);
        assert after == FlipBit(before, e.memory.bitDraw % 8);
      } else {
        assert after == FlipBit(before, RegisterBit(p, e.bitDraw));
      }
    }

    /** Flips a register when one is asked for or the draws select one, memory otherwise. */
    method FlipForTask(p: Params, regs: array?<nat>, mem: Memory, e: FlipEnv) returns (err: int)
      requires WellFormed(p, regs, mem.bytes, e)
      modifies mem, regs, `memoryFlip, `registerId, `before, `after, `address, `restore
      ensures err == FlipError(p, if regs == null then None else Some(regs.Length), e)
      ensures err == 0 ==>
                Flipped(p, old(if regs != null then regs[..] else []), if regs != null then regs[..] else [],
                        old(mem.bytes), mem.bytes, e)
      ensures err == 0 ==>
                OneBitFlipped(old(if regs != null then regs[..] else []), if regs != null then regs[..] else [],
                              old(mem.bytes), mem.bytes, Told())
      ensures err == 0 ==> (memoryFlip <==> p.targetReg == 0 && !SelectsRegister(p.weightMem, p.onlyMem, e.targetDraws))
      ensures err != 0 ==> (regs != null ==> regs[..] == old(regs[..])) && mem.bytes == old(mem.bytes)
    {
      hide Pow, FlipBit, Accepted, Total, Residue, ChosenVma, ChosenAddress, Mapped, OneBitFlipped, SelectsRegister;
      ghost var regs0, bytes0 := if regs != null then regs[..] else [], mem.bytes;
      var register, _ := ChooseRegisterTarget(p.weightMem, p.onlyMem, e.targetDraws);
      if register == Some(true) || p.targetReg != 0 {
        if regs == null {
          return -EINVAL;
        }
        err := FlipRegister(p, regs, e.regDraw, e.bitDraw);
      } else {
        err := FlipMemory(mem, e.vmas, e.memory);
      }
      if err == 0 {
        FlippedIsOneBit(p, regs0, if regs != null then regs[..] else [], bytes0, mem.bytes, e);
      }
    }

    /** Chooses a process among those that have been collected, and one of its threads. */
    method ChooseTarget(p: Params, e: InjectEnv) returns (err: int)
      modifies `tgid, `threadIndex
      ensures err == if e.collectError != 0 then e.collectError else if HasThread(p, e) then 0 else -ESRCH
      ensures if e.collectError == 0 && e.targets != [] then tgid == ProcessAt(e, p.nprocess) else tgid == old(tgid)
      ensures threadIndex == if HasThread(p, e) then ThreadNumber(p, e) else old(threadIndex)
    {
      hide Eligible;
      if e.collectError != 0 {
        return e.collectError;
      }
      if |e.targets| == 0 {
        return -ESRCH;
      }
      var idx;
      if p.nprocess.Some? {
        idx := p.nprocess.value;
        if idx > |e.targets| || idx < 0 {
          idx := e.processDraw % |e.targets|;
        }
      } else {
        idx := e.processDraw % |e.targets|;
      }
      tgid := if idx < |e.targets| then e.targets[idx] else e.behind;
      var t;
      if p.thread.Some? {
        t := PickThreadByIndex(e.threads, p.thread.value, e.threadDraw);
      } else {
        t := PickRandomThread(e.threads, e.threadDraw);
      }
      err := if t.None? then -ESRCH else 0;
    }

    /**
     One injection: choose a process and a thread, stop the group, flip, report, and let the group go on.
     The return value is the error of the first of these that fails, or 0; and if it is 0, exactly the bit that was
     asked for or drawn has changed, and the fault is reported; otherwise nothing has changed. Either way the group has
     been continued if it was stopped.
     */
    method StopFlipResume(p: Params, regs: array?<nat>, mem: Memory, e: InjectEnv) returns (ret: int)
      requires WellFormed(p, regs, mem.bytes, e.flip)
      modifies this, mem, regs
      ensures ret == if e.collectError != 0 then e.collectError
                     else if !HasThread(p, e) then -ESRCH
                     else if e.stopError != 0 then e.stopError
                     else if e.waitError != 0 then e.waitError
                     else FlipError(p, if regs == null then None else Some(regs.Length), e.flip)
      ensures if ret == 0 then
                && fault
                && Flipped(p, old(if regs != null then regs[..] else []), if regs != null then regs[..] else [],
                           old(mem.bytes), mem.bytes, e.flip)
                && OneBitFlipped(old(if regs != null then regs[..] else []), if regs != null then regs[..] else [],
                                 old(mem.bytes), mem.bytes, Told())
              else
                && fault == old(fault)
                && (regs != null ==> regs[..] == old(regs[..])) && mem.bytes == old(mem.bytes)
      ensures signals == old(signals) + if IsStopped(p, e) then [Stop(tgid), Cont(tgid)] else []
      ensures if e.collectError == 0 && e.targets != [] then tgid == ProcessAt(e, p.nprocess) else tgid == old(tgid)
      ensures threadIndex == if HasThread(p, e) then ThreadNumber(p, e) else old(threadIndex)
    {
      hide OneBitFlipped, Flipped, WellFormed, FlipError, HasThread, ThreadNumber, ProcessAt;
      ret := ChooseTarget(p, e);
      if ret != 0 {
        NoStop(p, e);
        return;
      }
      ret := StopFlipCont(p, regs, mem, e);
    }

    method StopFlipCont(p: Params, regs: array?<nat>, mem: Memory, e: InjectEnv) returns (ret: int)
      requires WellFormed(p, regs, mem.bytes, e.flip)
      modifies mem, regs, `memoryFlip, `registerId, `before, `after, `address, `restore, `fault, `signals
      ensures ret == if e.stopError != 0 then e.stopError else if e.waitError != 0 then e.waitError
                     else FlipError(p, if regs == null then None else Some(regs.Length), e.flip)
      ensures if ret == 0 then
                && fault
                && Flipped(p, old(if regs != null then regs[..] else []), if regs != null then regs[..] else [],
                           old(mem.bytes), mem.bytes, e.flip)
                && OneBitFlipped(old(if regs != null then regs[..] else []), if regs != null then regs[..] else [],
                                 old(mem.bytes), mem.bytes, Told())
              else
                && fault == old(fault)
                && (regs != null ==> regs[..] == old(regs[..])) && mem.bytes == old(mem.bytes)
      ensures signals == old(signals) + if e.stopError == 0 then [Stop(tgid), Cont(tgid)] else []
    {
      hide OneBitFlipped, Flipped, WellFormed, FlipError;
      ret := e.stopError;
      if ret != 0 {
        return;
      }
      signals := signals + [Stop(tgid)];
      ret := e.waitError;
      if ret == 0 {
        ret := FlipForTask(p, regs, mem, e.flip);
      }
      if ret == 0 {
        fault := true;
      }
      signals := signals + [Cont(tgid)];
    }
  }

  // ---------- what decides the outcome of an injection ----------

  /** A register is flipped if one is asked for, or if the draws select one. */
  ghost predicate WantsRegister(p: Params, e: FlipEnv)
    requires -0x8000_0000 <= p.weightMem <= 0x7FFF_FFFF
  {
    p.targetReg != 0 || SelectsRegister(p.weightMem, p.onlyMem, e.targetDraws)
  }

  /** The register that is asked for, or the drawn one of `n`; they are numbered from 1. */
  function RegisterId(p: Params, n: nat, draw: nat): int
    requires n > 0
  {
    if p.targetReg == 0 then 1 + draw % n else p.targetReg
  }

  function RegisterBit(p: Params, draw: nat): int { if p.regBit.Some? then p.regBit.value else draw % 64 }

  /** How the flip ends, for a task with `n` saved registers or none. */
  ghost function FlipError(p: Params, n: Option<nat>, e: FlipEnv): int
    requires -0x8000_0000 <= p.weightMem <= 0x7FFF_FFFF
    requires n.Some? ==> n.value > 0
  {
    if !WantsRegister(p, e) then MemoryError(e.vmas, e.memory)
    else if n.Some? && 1 <= RegisterId(p, n.value, e.regDraw) <= n.value && 0 <= RegisterBit(p, e.bitDraw) < 64 then 0
    else -EINVAL
  }

  /** A process is found, and in it a thread with the number that is asked for. */
  predicate HasThread(p: Params, e: InjectEnv)
  {
    && e.collectError == 0 && e.targets != []
    && Eligible(e.threads, UserThread) != []
    && (p.thread.Some? ==> p.thread.value <= |Eligible(e.threads, UserThread)|)
  }

  function ThreadNumber(p: Params, e: InjectEnv): (i: nat)
    requires HasThread(p, e)
  {
    if p.thread.Some? && p.thread.value > 0 then p.thread.value - 1
    else e.threadDraw % |Eligible(e.threads, UserThread)|
  }

  predicate IsStopped(p: Params, e: InjectEnv) { HasThread(p, e) && e.stopError == 0 }

  lemma NoStop(p: Params, e: InjectEnv)
    ensures IsStopped(p, e) ==> HasThread(p, e) && e.collectError == 0
  {
  }

  /** The draws and answers on which a flip depends. */
  datatype FlipEnv = FlipEnv(targetDraws: seq<nat>, regDraw: nat, bitDraw: nat, vmas: seq<Vma>, memory: MemoryEnv)

  /** What is collected, what lies behind it in its buffer, what is chosen and answered around the flip. */
  datatype InjectEnv = InjectEnv(collectError: int, targets: seq<int>, behind: int, processDraw: nat,
                                 threads: seq<Thread>, threadDraw: nat, stopError: int, waitError: int, flip: FlipEnv)

  /** The process with the given index; a random one without it or out of range, except that the count passes too. */
  function ProcessAt(e: InjectEnv, index: Option<int>): int
    requires e.targets != []
  {
    match index
    case Some(i) =>
      if 0 <= i < |e.targets| then e.targets[i]
      else if i == |e.targets| then e.behind
      else e.targets[e.processDraw % |e.targets|]
    case None => e.targets[e.processDraw % |e.targets|]
  }

  /** Registers of 64 bits, mapped bytes, and draws among which the sampling loop accepts one. */
  ghost predicate WellFormed(p: Params, regs: array?<nat>, bytes: map<nat, nat>, e: FlipEnv)
    reads regs
  {
    && (regs != null ==> regs.Length > 0 && forall i :: 0 <= i < regs.Length ==> regs[i] < Pow(64))
    && Mapped(e.vmas, bytes)
    && -0x8000_0000 <= p.weightMem <= 0x7FFF_FFFF
    && (forall r :: r in e.targetDraws ==> r <= U32_MAX)
    && (exists i :: 0 <= i < |e.targetDraws| && Accepted(e.targetDraws[i], Total(p.weightMem)))
  }
}
