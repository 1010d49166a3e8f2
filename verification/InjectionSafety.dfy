/** What holds in every state of every run. */
module InjectionSafety {
  import opened BitOps
  import opened InjectionRun
  import opened Options
  import opened Signals

  // ---------- the invariant, by topic ----------

  predicate Sending(c: ClientPc)
  {
    c.SendCheck? || c.SendExec? || c.SendRunning? || c.SendAlive? || c.SendTargetPc? || c.SendMonitor?
    || c.SendBitflip? || c.SendArm? || c.SendCont?
  }

  predicate Starting(c: ClientPc)
  {
    c.SendCheck? || c.SendExec? || c.SendRunning? || c.SendAlive? || c.SendTargetPc? || c.SendMonitor?
  }

  predicate Killing(c: ClientPc)
  {
    c.KillCheck? || c.KillSignal? || c.KillAlive? || c.KillRead? || c.KillStop? || c.KillJoin?
  }

  /** How far SEND has got; nothing but SEND starts threads, arms the probe or lets the target go. */
  predicate SendInv(s: State)
  {
    && (s.sent <==> !Sending(s.c) && !s.c.SendFailed?)
    && (!s.sent ==> (s.target == Absent || s.target == Stopped) && !s.killed && !s.mStop && Order(s.m) <= Order(MSleep))
    && (s.m.MNone? ==> s.b.BNone? && !s.uprobe)
    && (s.c.SendBitflip? || s.c.SendArm? || s.c.SendCont? || s.sent ==> !s.m.MNone?)
    && (Starting(s.c) ==> s.m.MNone? && !s.done)
    && (s.c.SendBitflip? || s.p.noInjection ==> s.b.BNone?)
    && (s.c.SendArm? ==> !s.b.BNone? && s.p.targetPc)
    && (s.p.noInjection ==> !s.c.SendBitflip? && !s.c.SendArm?)
    && (s.killPending || s.mStop ==> s.killed)
    && (s.mStop || s.c.KillAlive? || s.c.KillRead? || s.c.KillStop? || s.c.KillJoin?
        ==> s.killPending || s.target.Exited?)
    && (Killing(s.c) ==> s.killed && s.sent)
  }

  /** The monitor's progress, what it has cleaned up, and what the client can have received. */
  predicate MonitorInv(s: State)
  {
    && (Order(s.m) > Order(MSleep) ==> s.sent)
    && (Order(s.m) > Order(MClearAlive) ==> !s.alive)
    && (Order(s.m) > Order(MClearRunning) ==> !s.running)
    && (s.done <==> Order(s.m) > Order(MComplete))
    && (s.received.Some? <==> s.c.Done?)
    && (s.c.Done? ==> s.done && s.received == Some(s.result))
  }

  /** The stop handshake between monitor and bitflip thread. */
  predicate StopInv(s: State)
  {
    && (s.bitflipPtr ==> !s.b.BNone?)
    && (!s.b.BNone? && Order(s.m) <= Order(MClearBitflip) ==> s.bitflipPtr)
    && (s.bStop ==> Order(s.m) > Order(MSetStop))
    && (Order(MCheckBitflip) < Order(s.m) <= Order(MClearRunning0) ==> !s.b.BNone?)
    && (Order(s.m) > Order(MSetStop) && !s.b.BNone? ==> s.bStop)
    && (Order(s.m) > Order(MJoin) ==> s.b.BNone? || s.b.BExited?)
  }

  /** The probe and its disarm work. */
  predicate ProbeInv(s: State)
  {
    && (s.uprobe || s.queued || s.work || s.entered > 0 || s.triggered > 0 ==> s.p.targetPc && !s.b.BNone?)
    && (Order(s.m) > Order(MDisarm) ==> !s.uprobe)
  }

  /** How the run ended: what the exit code says, and when the target counts as hanged. */
  predicate ExitInv(s: State)
  {
    && (s.mExited ==> s.target == Exited(s.mCode) && !s.result.hanged)
    && (s.result.hanged ==> s.mCode == SIGKILL && s.killed)
    && (Order(s.m) >= Order(MRevert) ==> s.mExited || s.result.hanged)
    && (Order(s.m) < Order(MRevert) ==> !s.mExited && !s.result.hanged)
    && (Order(s.m) > Order(MSetCode) ==> s.result.exitCode == s.mCode)
  }

  /** The injection routine has not got to the point where it flips. */
  predicate BeforeFlip(b: BitflipPc)
  {
    b.BNone? || b.BStart? || b.BMode? || b.BWaitSet? || b.BWaitCond? || b.BWaitSched? || b.BWoken? || b.BAlive?
    || b.BSleep? || b.BCheckAlive? || b.BCheckStop?
    || b.BCollect? || b.BChoose? || b.BPick? || b.BGroupStop? || b.BWaitStopped? || b.BFlip?
  }

  /** It has tried to flip, and has not reported it yet. */
  predicate Marking(b: BitflipPc) { b.BCapture? || b.BMark? }

  /** Where only the injection into a single thread comes, and where only the one into all threads of a group does. */
  predicate SingleOnly(b: BitflipPc) { b.BPick? || b.BWaitStopped? || b.BFlip? || Marking(b) }

  predicate GroupOnly(b: BitflipPc) { b.BAllLoop? || b.BAllCapture? }

  /** `after` is `before` with exactly one of its 64 bits inverted. */
  ghost predicate OneBitApart(before: nat, after: nat)
  {
    exists k :: 0 <= k < 64 && after == FlipBit(before, k)
  }

  /** At most one flip, and it is reported if and only if it was made. */
  ghost predicate FlipInv(s: State)
  {
    && (s.p.noInjection ==> s.flips == 0 && !s.result.fault)
    && (s.p.allThreads ==> !s.result.fault && !SingleOnly(s.b))
    && (!s.p.allThreads ==>
         && !GroupOnly(s.b)
         && (BeforeFlip(s.b) ==> s.flips == 0 && !s.result.fault)
         && (Marking(s.b) ==> !s.result.fault && s.flips == if s.ret == 0 then 1 else 0)
         && (!BeforeFlip(s.b) && !Marking(s.b) ==> s.flips == if s.result.fault then 1 else 0))
    && (s.flips > 0 ==> OneBitApart(s.result.before, s.result.after))
  }

  /** Between its stop and its continue signal. */
  predicate Holding(b: BitflipPc) { b.BWaitStopped? || b.BFlip? || Marking(b) || GroupOnly(b) || b.BCont? }

  predicate BeforeStop(b: BitflipPc) { BeforeFlip(b) && !Holding(b) }

  /** Every group that is stopped is continued, once, before the injection routine returns. */
  predicate SignalInv(s: State)
  {
    if BeforeStop(s.b) then s.signals == []
    else if Holding(s.b) then s.signals == [Stop(s.result.tgid)]
    else s.signals == [] || s.signals == [Stop(s.result.tgid), Cont(s.result.tgid)]
  }

  /** A flip in a file is to be reverted, unless its page was not captured, or was captured after the revert. */
  predicate RevertInv(s: State)
  {
    && (BeforeFlip(s.b) ==> !s.memFlipped)
    && (!s.memFlipped ==> !s.inverted && !s.uncaptured)
    && (s.restore ==> s.inverted)
    && (s.uncaptured ==> s.inverted && !s.restore)
    && (Capturing(s.b) ==> s.inverted && !s.restore && !s.uncaptured)
    && (s.inverted && !Capturing(s.b) ==> s.restore || s.uncaptured)
    && (s.late ==> s.restore && Order(s.m) > Order(MRevert))
    && (s.restore && Order(s.m) > Order(MRevert) ==> s.late)
  }

  /** Once the stop flag and its wake-up are out, the bitflip thread is not asleep where it would sleep on. */
  predicate WakeInv(s: State)
  {
    s.bStop && !s.m.MWakeStop? && (s.b.BWaitSched? || s.b.BParkSched?) ==> !s.asleep
  }

  ghost predicate Inv(s: State)
  {
    && SendInv(s) && MonitorInv(s) && StopInv(s) && ProbeInv(s) && ExitInv(s)
    && FlipInv(s) && SignalInv(s) && RevertInv(s) && WakeInv(s)
  }

  lemma InitInv(s: State)
    requires Init(s)
    ensures Inv(s)
  {
  }

  // ---------- every step keeps it: one lemma per thread and topic ----------

  /** What a step of the client leaves alone. */
  lemma ClientLeaves(s: State, cc: ClientChoice)
    requires ClientEnabled(s, cc)
    ensures var s' := ClientStep(s, cc);
      && s'.p == s.p && s'.result == s.result && s'.queued == s.queued && s'.restore == s.restore
      && s'.mExited == s.mExited && s'.mCode == s.mCode && s'.asleep == s.asleep && s'.bStop == s.bStop
      && s'.ret == s.ret && s'.budget == s.budget
      && s'.work == s.work && s'.entered == s.entered && s'.triggered == s.triggered
      && s'.flips == s.flips && s'.memFlipped == s.memFlipped && s'.signals == s.signals
      && s'.inverted == s.inverted && s'.uncaptured == s.uncaptured && s'.late == s.late
      && s'.calls == s.calls && s'.refused == s.refused && s'.hits == s.hits
  {
    hide ClientNext;
  }

  /** The fields that it changes. */
  lemma ClientMoves(s: State, cc: ClientChoice)
    requires ClientEnabled(s, cc)
    ensures var s', ok := ClientStep(s, cc), cc.Succeed?;
      && s'.c == ClientNext(s, cc)
      && s'.sent == (s.sent || (s.c.SendCont? && ok)) && s'.killed == (s.killed || cc.Kill?)
      && s'.received == (if s.c.Poll? && cc.Receive? && s.done then Some(s.result) else s.received)
      && (s'.running ==> s.running || s.c.SendRunning?)
      && (s'.alive ==> s.alive || s.c.SendAlive?)
      && s'.target == (if s.c.SendExec? && ok then Stopped else if s.c.SendCont? && ok then Running else s.target)
      && s'.done == (s.done && !s.c.SendMonitor?)
      && s'.m == (if s.c.SendMonitor? && ok then MLoopExit else s.m)
      && s'.b == (if s.c.SendBitflip? && ok then BStart else s.b)
      && s'.bitflipPtr == (s.bitflipPtr || (s.c.SendBitflip? && ok))
      && s'.uprobe == (s.uprobe || (s.c.SendArm? && ok))
      && s'.killPending == (s.killPending || (s.c.KillSignal? && ok))
      && s'.mStop == (s.mStop || s.c.KillStop?)
  {
    hide ClientNext;
  }

  lemma ClientKeepsSend(s: State, cc: ClientChoice)
    requires ClientEnabled(s, cc) && MonitorInv(s) && SendInv(s)
    ensures SendInv(ClientStep(s, cc))
  {
    hide ClientStep;
    ClientLeaves(s, cc);
    ClientMoves(s, cc);
  }

  lemma ClientKeepsMonitor(s: State, cc: ClientChoice)
    requires ClientEnabled(s, cc) && SendInv(s) && StopInv(s) && MonitorInv(s)
    ensures MonitorInv(ClientStep(s, cc))
  {
    hide ClientStep;
    ClientLeaves(s, cc);
    ClientMoves(s, cc);
  }

  lemma ClientKeepsStop(s: State, cc: ClientChoice)
    requires ClientEnabled(s, cc) && SendInv(s) && MonitorInv(s) && StopInv(s)
    ensures StopInv(ClientStep(s, cc))
  {
  }

  lemma ClientKeepsProbe(s: State, cc: ClientChoice)
    requires ClientEnabled(s, cc) && SendInv(s) && MonitorInv(s) && ProbeInv(s)
    ensures ProbeInv(ClientStep(s, cc))
  {
  }

  lemma ClientKeepsExit(s: State, cc: ClientChoice)
    requires ClientEnabled(s, cc) && SendInv(s) && MonitorInv(s) && ExitInv(s)
    ensures ExitInv(ClientStep(s, cc))
  {
  }

  lemma ClientKeepsFlip(s: State, cc: ClientChoice)
    requires ClientEnabled(s, cc) && SendInv(s) && FlipInv(s)
    ensures FlipInv(ClientStep(s, cc))
  {
  }

  lemma ClientKeepsSignal(s: State, cc: ClientChoice)
    requires ClientEnabled(s, cc) && SendInv(s) && SignalInv(s)
    ensures SignalInv(ClientStep(s, cc))
  {
  }

  lemma ClientKeepsRevert(s: State, cc: ClientChoice)
    requires ClientEnabled(s, cc) && SendInv(s) && RevertInv(s)
    ensures RevertInv(ClientStep(s, cc))
  {
  }

  lemma ClientKeepsWake(s: State, cc: ClientChoice)
    requires ClientEnabled(s, cc) && SendInv(s) && MonitorInv(s) && StopInv(s) && WakeInv(s)
    ensures WakeInv(ClientStep(s, cc))
  {
  }

  /** What a step of the monitor leaves alone. */
  lemma MonitorLeaves(s: State)
    requires MonitorEnabled(s)
    ensures var s' := MonitorStep(s);
      && s'.p == s.p && s'.c == s.c && s'.sent == s.sent && s'.killed == s.killed && s'.received == s.received
      && s'.trigger == s.trigger && s'.mStop == s.mStop && s'.b == s.b && s'.ret == s.ret && s'.budget == s.budget
      && s'.work == s.work && s'.entered == s.entered && s'.triggered == s.triggered
      && s'.target == s.target && s'.killPending == s.killPending
      && s'.flips == s.flips && s'.memFlipped == s.memFlipped && s'.signals == s.signals
      && s'.uncaptured == s.uncaptured && s'.late == s.late
      && s'.calls == s.calls && s'.refused == s.refused && s'.hits == s.hits
  {
    hide MonitorNext;
  }

  /** The fields that it changes. */
  lemma MonitorMoves(s: State)
    requires MonitorEnabled(s)
    ensures var s' := MonitorStep(s);
      && s'.m == MonitorNext(s)
      && s'.mExited == (s.mExited || SeesExit(s))
      && s'.mCode == (if SeesExit(s) then s.target.code else if ToldToStop(s) then SIGKILL else s.mCode)
      && s'.result == s.result.(hanged := s.result.hanged || ToldToStop(s),
                                exitCode := if s.m.MSetCode? then s.mCode else s.result.exitCode)
      && s'.restore == (s.restore && !s.m.MRevert?)
      && s'.inverted == (s.inverted && !(s.m.MRevert? && s.restore))
      && s'.alive == (s.alive && !s.m.MClearAlive?)
      && s'.bStop == (s.bStop || s.m.MSetStop?)
      && s'.bitflipPtr == (s.bitflipPtr && !s.m.MClearBitflip?)
      && s'.running == (s.running && !s.m.MClearRunning0? && !s.m.MClearRunning?)
      && s'.uprobe == (s.uprobe && !s.m.MDisarm?)
      && s'.queued == (s.queued && !s.m.MDisarm?)
      && s'.done == (s.done || s.m.MComplete?)
      && s'.monitorPtr == (s.monitorPtr && !s.m.MClearPtr?)
      && s'.asleep == (s.asleep && !s.m.MWakeThread? && !s.m.MWakeStop?
                       && !((s.m.MWakeAll? || s.m.MWakeQueue?) && OnFlipQueue(s.b)))
  {
    hide MonitorNext;
  }

  lemma MonitorKeepsSend(s: State)
    requires MonitorEnabled(s) && MonitorInv(s) && SendInv(s)
    ensures SendInv(MonitorStep(s))
  {
  }

  lemma MonitorKeepsMonitor(s: State)
    requires MonitorEnabled(s) && SendInv(s) && MonitorInv(s)
    ensures MonitorInv(MonitorStep(s))
  {
    hide MonitorStep;
    MonitorLeaves(s);
    MonitorMoves(s);
  }

  /** How the monitor gets past the places of the stop handshake: one by one, or not at all without the thread. */
  lemma HandshakePlaces(s: State)
    requires MonitorEnabled(s)
    ensures var m', skips := MonitorNext(s), s.m.MCheckBitflip? && !s.bitflipPtr;
      && (Order(m') > Order(MSetStop) <==> Order(s.m) >= Order(MSetStop) || skips)
      && (Order(m') > Order(MJoin) <==> Order(s.m) >= Order(MJoin) || skips)
      && (Order(m') <= Order(MClearBitflip) <==> Order(s.m) < Order(MClearBitflip) && !skips)
      && (Order(MCheckBitflip) < Order(m') <= Order(MClearRunning0)
          <==> Order(MCheckBitflip) <= Order(s.m) < Order(MClearRunning0) && !skips)
    ensures s.m.MJoin? ==> s.b.BExited?
  {
  }

  lemma MonitorKeepsStop(s: State)
    requires MonitorEnabled(s) && SendInv(s) && StopInv(s)
    ensures StopInv(MonitorStep(s))
  {
    hide MonitorStep, MonitorNext, MonitorEnabled, SendInv;
    MonitorLeaves(s);
    MonitorMoves(s);
    HandshakePlaces(s);
  }

  lemma MonitorKeepsProbe(s: State)
    requires MonitorEnabled(s) && ProbeInv(s)
    ensures ProbeInv(MonitorStep(s))
  {
  }

  lemma MonitorKeepsExit(s: State)
    requires MonitorEnabled(s) && SendInv(s) && ExitInv(s)
    ensures ExitInv(MonitorStep(s))
  {
    hide MonitorStep;
    MonitorLeaves(s);
    MonitorMoves(s);
  }

  lemma MonitorKeepsFlip(s: State)
    requires MonitorEnabled(s) && FlipInv(s)
    ensures FlipInv(MonitorStep(s))
  {
  }

  lemma MonitorKeepsSignal(s: State)
    requires MonitorEnabled(s) && SignalInv(s)
    ensures SignalInv(MonitorStep(s))
  {
  }

  lemma MonitorKeepsRevert(s: State)
    requires MonitorEnabled(s) && RevertInv(s)
    ensures RevertInv(MonitorStep(s))
  {
  }

  lemma MonitorKeepsWake(s: State)
    requires MonitorEnabled(s) && StopInv(s) && WakeInv(s)
    ensures WakeInv(MonitorStep(s))
  {
  }

  /** What a step of the bitflip thread leaves alone. */
  lemma BitflipLeaves(s: State, bc: BitflipChoice)
    requires BitflipEnabled(s, bc)
    ensures var s' := BitflipStep(s, bc);
      && s'.p == s.p && s'.c == s.c && s'.sent == s.sent && s'.killed == s.killed && s'.received == s.received
      && s'.running == s.running && s'.alive == s.alive && s'.done == s.done && s'.monitorPtr == s.monitorPtr
      && s'.bitflipPtr == s.bitflipPtr && s'.uprobe == s.uprobe && s'.queued == s.queued
      && s'.m == s.m && s'.mStop == s.mStop && s'.mExited == s.mExited && s'.mCode == s.mCode && s'.bStop == s.bStop
      && s'.work == s.work && s'.entered == s.entered && s'.triggered == s.triggered
      && s'.target == s.target && s'.killPending == s.killPending
      && s'.result.exitCode == s.result.exitCode && s'.result.hanged == s.result.hanged && s'.hits == s.hits
  {
    hide BitflipNext, FlipBit, Pow, Order;
  }

  /** The fields that it changes, by topic. */
  lemma BitflipMoves(s: State, bc: BitflipChoice)
    requires BitflipEnabled(s, bc)
    ensures BitflipStep(s, bc).b == BitflipNext(s, bc)
    ensures BitflipStep(s, bc).result == BitflipResult(s, bc)
    ensures BitflipStep(s, bc).asleep
      == (s.b.BWaitSet? || s.b.BParkSet? || (s.asleep && !(s.b.BWaitCond? && (s.trigger || s.bStop))))
    ensures BitflipStep(s, bc).ret
      == if s.b.BFlip? && bc.Flipped? then 0
         else if (s.b.BFlip? || s.b.BWaitStopped?) && bc.Error? then EFAIL else s.ret
    ensures BitflipStep(s, bc).budget
      == if bc.StopSent? then bc.budget
         else if (s.b.BWaitStopped? && bc.Elapsed?) || (s.b.BAllLoop? && !bc.Ok?) then s.budget - 1 else s.budget
    ensures BitflipStep(s, bc).flips == if bc.Flipped? then s.flips + 1 else s.flips
    ensures BitflipStep(s, bc).trigger == (s.trigger && !(s.b.BClear? && s.p.targetPc))
    ensures BitflipStep(s, bc).calls == if Passes(s, bc) then s.calls + [s.b] else s.calls
    ensures BitflipStep(s, bc).refused == (s.refused || Refuses(s, bc))
    ensures BitflipStep(s, bc).memFlipped == (s.memFlipped || (bc.Flipped? && bc.memory))
    ensures BitflipStep(s, bc).inverted == (s.inverted || FlipsFile(bc))
    ensures BitflipStep(s, bc).restore == (s.restore || (Capturing(s.b) && bc.Ok?))
    ensures BitflipStep(s, bc).late == (s.late || (Capturing(s.b) && bc.Ok? && Order(s.m) > Order(MRevert)))
    ensures BitflipStep(s, bc).uncaptured == (s.uncaptured || (Capturing(s.b) && bc.Error?))
    ensures BitflipStep(s, bc).signals
      == if bc.StopSent? then s.signals + [Stop(s.result.tgid)]
         else if s.b.BCont? then s.signals + [Cont(s.result.tgid)] else s.signals
  {
    hide BitflipNext, BitflipResult, Passes, Refuses, FlipBit, Pow, Order;
  }

  lemma BitflipKeepsSend(s: State, bc: BitflipChoice)
    requires BitflipEnabled(s, bc) && SendInv(s)
    ensures SendInv(BitflipStep(s, bc))
  {
  }

  /** Once its thread has exited, no step of it is left; so the result is final when the run is done. */
  lemma BitflipKeepsMonitor(s: State, bc: BitflipChoice)
    requires BitflipEnabled(s, bc) && StopInv(s) && MonitorInv(s)
    ensures MonitorInv(BitflipStep(s, bc))
  {
    hide BitflipStep, BitflipNext, BitflipResult, BitflipEnabled, Order;
    BitflipLeaves(s, bc);
    if s.done {
      BitflipFreezes(s, bc);
    }
  }

  lemma BitflipKeepsStop(s: State, bc: BitflipChoice)
    requires BitflipEnabled(s, bc) && StopInv(s)
    ensures StopInv(BitflipStep(s, bc))
  {
  }

  lemma BitflipKeepsProbe(s: State, bc: BitflipChoice)
    requires BitflipEnabled(s, bc) && ProbeInv(s)
    ensures ProbeInv(BitflipStep(s, bc))
  {
  }

  lemma BitflipKeepsExit(s: State, bc: BitflipChoice)
    requires BitflipEnabled(s, bc) && ExitInv(s)
    ensures ExitInv(BitflipStep(s, bc))
  {
  }

  /** The flag that says that a flip is to be reported stands for the flip itself. */
  lemma FlipApart(s: State, bc: BitflipChoice)
    requires BitflipEnabled(s, bc) && bc.Flipped?
    ensures OneBitApart(BitflipResult(s, bc).before, BitflipResult(s, bc).after)
    ensures s.b.BFlip? || s.b.BAllLoop?
  {
  }

  /** Where a flip can be made, and where the thread knows whether it was. */
  lemma FlipPlaces(s: State, bc: BitflipChoice)
    requires BitflipEnabled(s, bc)
    ensures var b' := BitflipNext(s, bc);
      && (BeforeFlip(s.b) ==> BeforeFlip(b') || Marking(b') || !bc.Flipped?)
      && (!BeforeFlip(s.b) ==> !BeforeFlip(b') && (Marking(b') <==> s.b.BCapture?))
      && (Marking(b') ==> s.b.BFlip? || s.b.BWaitStopped? || s.b.BCapture?)
      && (s.p.allThreads && !SingleOnly(s.b) ==> !SingleOnly(b'))
      && (!s.p.allThreads && !GroupOnly(s.b) ==> !GroupOnly(b'))
      && (s.b.BWaitStopped? && Marking(b') ==> bc.Error?)
      && (s.b.BFlip? ==> Marking(b') && (bc.Error? || bc.Flipped?))
      && (Marking(s.b) ==> !bc.Flipped?)
  {
    hide FlipBit, Pow;
  }

  lemma BitflipKeepsFlip(s: State, bc: BitflipChoice)
    requires BitflipEnabled(s, bc) && SendInv(s) && FlipInv(s)
    ensures FlipInv(BitflipStep(s, bc))
  {
    hide BitflipStep, BitflipNext, FlipBit, Pow, OneBitApart;
    BitflipLeaves(s, bc);
    BitflipMoves(s, bc);
    FlipPlaces(s, bc);
    if bc.Flipped? {
      FlipApart(s, bc);
    }
  }

  /** The stop signal is sent on the way into the critical section, the continue signal on the way out. */
  lemma SectionNext(s: State, bc: BitflipChoice)
    requires BitflipEnabled(s, bc)
    ensures bc.StopSent? ==> BeforeStop(s.b) && Holding(BitflipNext(s, bc))
    ensures BeforeStop(s.b) && !bc.StopSent? ==> !Holding(BitflipNext(s, bc))
    ensures Holding(s.b) ==> !BeforeStop(BitflipNext(s, bc)) && (Holding(BitflipNext(s, bc)) <==> !s.b.BCont?)
    ensures !BeforeStop(s.b) && !Holding(s.b) ==>
              !BeforeStop(BitflipNext(s, bc)) && !Holding(BitflipNext(s, bc)) && !s.b.BCont?
    ensures BitflipResult(s, bc).tgid == s.result.tgid || (BeforeStop(s.b) && !bc.StopSent?)
    ensures !(BeforeStop(s.b) && Holding(s.b)) && (s.b.BCont? ==> Holding(s.b))
    ensures Holding(BitflipNext(s, bc)) ==> !BeforeStop(BitflipNext(s, bc))
  {
    hide FlipBit, Pow;
  }

  lemma BitflipKeepsSignal(s: State, bc: BitflipChoice)
    requires BitflipEnabled(s, bc) && SignalInv(s)
    ensures SignalInv(BitflipStep(s, bc))
  {
    hide BitflipStep, BitflipNext, BitflipResult, BitflipEnabled, BeforeStop, Holding;
    BitflipMoves(s, bc);
    SectionNext(s, bc);
  }

  lemma BitflipKeepsRevert(s: State, bc: BitflipChoice)
    requires BitflipEnabled(s, bc) && RevertInv(s)
    ensures RevertInv(BitflipStep(s, bc))
  {
    hide BitflipEnabled, BitflipStep, BitflipNext, BitflipResult, BeforeFlip, Order, Passes, Refuses;
    BitflipLeaves(s, bc);
    BitflipMoves(s, bc);
    CapturePlaces(s, bc);
  }

  /** A page is captured in the step after a flip in a file, and only then. */
  lemma CapturePlaces(s: State, bc: BitflipChoice)
    requires BitflipEnabled(s, bc)
    ensures Capturing(BitflipNext(s, bc)) <==> FlipsFile(bc)
    ensures bc.Flipped? ==> !Capturing(s.b) && !BeforeFlip(BitflipNext(s, bc)) && (bc.file ==> bc.memory)
    ensures bc.Flipped? && bc.memory ==> BeforeFlip(s.b) || !s.memFlipped
    ensures Capturing(s.b) ==> bc.Ok? || bc.Error?
    ensures BeforeFlip(BitflipNext(s, bc)) ==> BeforeFlip(s.b)
  {
    hide Pow;
  }

  lemma BitflipKeepsWake(s: State, bc: BitflipChoice)
    requires BitflipEnabled(s, bc) && WakeInv(s)
    ensures WakeInv(BitflipStep(s, bc))
  {
  }

  /** Handlers, disarm work and target. */
  lemma OthersKeepProgress(s: State, e: Event)
    requires SendInv(s) && MonitorInv(s) && StopInv(s)
    requires Enabled(s, e) && !e.Client? && !e.Monitor? && !e.Bitflip?
    ensures var s' := Apply(s, e); SendInv(s') && MonitorInv(s') && StopInv(s')
  {
    hide ClientStep, MonitorStep, BitflipStep, ClientEnabled, MonitorEnabled, BitflipEnabled, Order;
  }

  lemma OthersKeepProbe(s: State, e: Event)
    requires SendInv(s) && ProbeInv(s) && ExitInv(s)
    requires Enabled(s, e) && !e.Client? && !e.Monitor? && !e.Bitflip?
    ensures var s' := Apply(s, e); ProbeInv(s') && ExitInv(s')
  {
    hide ClientStep, MonitorStep, BitflipStep, ClientEnabled, MonitorEnabled, BitflipEnabled, Order;
  }

  lemma OthersKeepFlips(s: State, e: Event)
    requires FlipInv(s) && SignalInv(s) && RevertInv(s) && WakeInv(s)
    requires Enabled(s, e) && !e.Client? && !e.Monitor? && !e.Bitflip?
    ensures var s' := Apply(s, e); FlipInv(s') && SignalInv(s') && RevertInv(s') && WakeInv(s')
  {
    hide ClientStep, MonitorStep, BitflipStep, ClientEnabled, MonitorEnabled, BitflipEnabled, OneBitApart;
  }

  lemma OthersKeep(s: State, e: Event)
    requires Inv(s) && Enabled(s, e) && !e.Client? && !e.Monitor? && !e.Bitflip?
    ensures Inv(Apply(s, e))
  {
    hide Enabled, Apply, SendInv, MonitorInv, StopInv, ProbeInv, ExitInv, FlipInv, SignalInv, RevertInv, WakeInv;
    OthersKeepProgress(s, e);
    OthersKeepProbe(s, e);
    OthersKeepFlips(s, e);
  }

  lemma StepKeeps(s: State, e: Event)
    requires Inv(s) && Enabled(s, e)
    ensures Inv(Apply(s, e))
  {
    if e.Client? || e.Monitor? || e.Bitflip? {
      ThreadsKeep(s, e);
    } else {
      OthersKeep(s, e);
    }
  }

  lemma ThreadsKeep(s: State, e: Event)
    requires Inv(s) && Enabled(s, e) && (e.Client? || e.Monitor? || e.Bitflip?)
    ensures Inv(Apply(s, e))
  {
    hide SendInv, MonitorInv, StopInv, ProbeInv, ExitInv, FlipInv, SignalInv, RevertInv, WakeInv;
    hide ClientStep, MonitorStep, BitflipStep, ClientEnabled, MonitorEnabled, BitflipEnabled;
    match e
    case Client(cc) =>
      ClientKeepsSend(s, cc); ClientKeepsMonitor(s, cc); ClientKeepsStop(s, cc);
      ClientKeepsProbe(s, cc); ClientKeepsExit(s, cc); ClientKeepsFlip(s, cc);
      ClientKeepsSignal(s, cc); ClientKeepsRevert(s, cc); ClientKeepsWake(s, cc);
    case Monitor =>
      MonitorKeepsSend(s); MonitorKeepsMonitor(s); MonitorKeepsStop(s);
      MonitorKeepsProbe(s); MonitorKeepsExit(s); MonitorKeepsFlip(s);
      MonitorKeepsSignal(s); MonitorKeepsRevert(s); MonitorKeepsWake(s);
    case Bitflip(bc) =>
      BitflipKeepsSend(s, bc); BitflipKeepsMonitor(s, bc); BitflipKeepsStop(s, bc);
      BitflipKeepsProbe(s, bc); BitflipKeepsExit(s, bc); BitflipKeepsFlip(s, bc);
      BitflipKeepsSignal(s, bc); BitflipKeepsRevert(s, bc); BitflipKeepsWake(s, bc);
    case _ =>
  }

  /** A step of client, monitor or bitflip thread is what `Apply` makes of their events. */
  lemma ThreadStep(s: State, e: Event)
    requires Enabled(s, e)
    ensures e.Client? ==> ClientEnabled(s, e.cc) && Apply(s, e) == ClientStep(s, e.cc)
    ensures e.Monitor? ==> MonitorEnabled(s) && Apply(s, e) == MonitorStep(s)
    ensures e.Bitflip? ==> BitflipEnabled(s, e.bc) && Apply(s, e) == BitflipStep(s, e.bc)
  {
    hide ClientEnabled, MonitorEnabled, BitflipEnabled, ClientStep, MonitorStep, BitflipStep;
  }

  /** What handlers, disarm work and target leave alone. */
  predicate LeftByOthers(s: State, s': State)
  {
    && s'.p == s.p && s'.c == s.c && s'.sent == s.sent && s'.killed == s.killed && s'.received == s.received
    && s'.running == s.running && s'.alive == s.alive && s'.done == s.done && s'.monitorPtr == s.monitorPtr
    && s'.result == s.result && s'.m == s.m && s'.mStop == s.mStop && s'.b == s.b && s'.bStop == s.bStop
    && s'.killPending == s.killPending && s'.calls == s.calls && s'.refused == s.refused && s'.hits >= s.hits
    && (s'.hits == s.hits ==> s'.trigger == s.trigger)
  }

  lemma WorkLeaves(s: State)
    requires Enabled(s, Work)
    ensures LeftByOthers(s, Apply(s, Work))
  {
    hide Enabled, ClientStep, MonitorStep, BitflipStep, OnFlipQueue;
  }

  lemma HitLeaves(s: State)
    requires Enabled(s, Hit)
    ensures LeftByOthers(s, Apply(s, Hit))
  {
    hide Enabled, ClientStep, MonitorStep, BitflipStep, OnFlipQueue;
  }

  lemma TriggerLeaves(s: State)
    requires Enabled(s, HandlerTrigger)
    ensures LeftByOthers(s, Apply(s, HandlerTrigger))
  {
    hide Enabled, ClientStep, MonitorStep, BitflipStep, OnFlipQueue;
  }

  lemma PostLeaves(s: State)
    requires Enabled(s, HandlerPost)
    ensures LeftByOthers(s, Apply(s, HandlerPost))
  {
    hide Enabled, ClientStep, MonitorStep, BitflipStep, OnFlipQueue;
  }

  lemma ExitLeaves(s: State, code: int)
    requires Enabled(s, Exit(code))
    ensures LeftByOthers(s, Apply(s, Exit(code)))
  {
    hide Enabled, ClientStep, MonitorStep, BitflipStep, OnFlipQueue;
  }

  lemma OthersLeave(s: State, e: Event)
    requires Enabled(s, e) && !e.Client? && !e.Monitor? && !e.Bitflip?
    ensures LeftByOthers(s, Apply(s, e))
  {
    hide Enabled, Apply, LeftByOthers;
    if e.Work? {
      WorkLeaves(s);
    } else if e.Hit? {
      HitLeaves(s);
    } else if e.HandlerTrigger? {
      TriggerLeaves(s);
    } else if e.HandlerPost? {
      PostLeaves(s);
    } else if e.Exit? {
      ExitLeaves(s, e.code);
    }
  }

  /** One step of a run, by the event that took it. */
  lemma StepAt(run: seq<State>, i: nat) returns (e: Event)
    requires IsRun(run) && i + 1 < |run|
    ensures Enabled(run[i], e) && run[i + 1] == Apply(run[i], e)
  {
    hide Init, Enabled, Apply;
    assert Step(run[i], run[i + 1]);
    e :| Enabled(run[i], e) && run[i + 1] == Apply(run[i], e);
  }

  lemma {:induction false} RunInv(run: seq<State>, i: nat)
    requires IsRun(run) && i < |run|
    ensures Inv(run[i])
  {
    hide Inv, Init, Enabled, Apply;
    if i == 0 {
      InitInv(run[0]);
    } else {
      RunInv(run, i - 1);
      var e := StepAt(run, i - 1);
      StepKeeps(run[i - 1], e);
    }
  }

  // ---------- the completion barrier ----------

  /** Everything has been cleaned up, and the result is that of the whole run. */
  ghost predicate Completed(s: State)
  {
    && s.sent && !s.alive && !s.running && !s.uprobe
    && (s.b.BNone? || s.b.BExited?)
    && s.received == Some(s.result)
  }

  lemma DoneIsCompleted(s: State)
    requires SendInv(s) && MonitorInv(s) && StopInv(s) && ProbeInv(s) && s.c.Done?
    ensures Completed(s)
  {
  }

  /** When RECEIVE has returned 0, monitor and bitflip thread have finished and the probe is gone. */
  lemma CompletionBarrier(run: seq<State>, i: nat)
    requires IsRun(run) && i < |run| && run[i].c.Done?
    ensures Completed(run[i])
  {
    hide *;
    hide SendInv, MonitorInv, StopInv, ProbeInv;
    RunInv(run, i);
    InvParts(run[i]);
    DoneIsCompleted(run[i]);
  }

  lemma InvParts(s: State)
    requires Inv(s)
    ensures SendInv(s) && MonitorInv(s) && StopInv(s) && ProbeInv(s) && ExitInv(s)
    ensures FlipInv(s) && SignalInv(s) && RevertInv(s) && WakeInv(s)
  {
    hide SendInv, MonitorInv, StopInv, ProbeInv, ExitInv, FlipInv, SignalInv, RevertInv, WakeInv;
  }

  /** What the exit code says about the target; 9 is the number of SIGKILL. */
  predicate ExitTold(s: State)
  {
    if s.result.hanged then s.result.exitCode == 9 && s.killed else s.target == Exited(s.result.exitCode)
  }

  /** The exit code is the target's own, unless the target counts as hanged: then it is SIGKILL, after a kill. */
  lemma ExitCodeFinal(run: seq<State>, i: nat)
    requires IsRun(run) && i < |run| && run[i].done
    ensures ExitTold(run[i])
  {
    RunInv(run, i);
    DoneIsTold(run[i]);
  }

  lemma DoneIsTold(s: State)
    requires MonitorInv(s) && ExitInv(s) && s.done
    ensures ExitTold(s)
  {
  }

  /** What no step may change any more. */
  predicate Frozen(s: State, s': State)
  {
    s'.done && s'.result == s.result && s'.flips == s.flips && s'.signals == s.signals && s'.restore == s.restore
    && s'.inverted == s.inverted
  }

  lemma ClientFreezes(s: State, cc: ClientChoice)
    requires SendInv(s) && s.done && ClientEnabled(s, cc)
    ensures Frozen(s, ClientStep(s, cc))
  {
  }

  lemma MonitorFreezes(s: State)
    requires MonitorInv(s) && s.done && MonitorEnabled(s)
    ensures Frozen(s, MonitorStep(s))
  {
  }

  lemma DoneIsJoined(s: State)
    requires MonitorInv(s) && StopInv(s) && s.done
    ensures s.b.BNone? || s.b.BExited?
  {
  }

  lemma BitflipFreezes(s: State, bc: BitflipChoice)
    requires MonitorInv(s) && StopInv(s) && s.done
    ensures !BitflipEnabled(s, bc)
  {
    hide MonitorInv, StopInv, Order, Pow, IsFlip;
    DoneIsJoined(s);
  }

  /** After the run is marked as done no step of any thread changes its result, flips a bit or sends a signal. */
  lemma DoneIsFinal(s: State, e: Event)
    requires Inv(s) && s.done && Enabled(s, e)
    ensures Frozen(s, Apply(s, e))
  {
    hide Pow, FlipBit, ClientStep, MonitorStep, BitflipStep, ClientEnabled, MonitorEnabled, BitflipEnabled;
    hide SendInv, MonitorInv, StopInv, ProbeInv, ExitInv, FlipInv, SignalInv, RevertInv, WakeInv;
    match e
    case Client(cc) => ClientFreezes(s, cc);
    case Monitor => MonitorFreezes(s);
    case Bitflip(bc) => BitflipFreezes(s, bc);
    case _ =>
  }

  /** So the result is the same from the moment the run is done, in every run. */
  lemma {:induction false} ResultFrozen(run: seq<State>, i: nat, j: nat)
    requires IsRun(run) && i <= j < |run| && run[i].done
    ensures Frozen(run[i], run[j])
    decreases j
  {
    hide Inv, Init, Enabled, Apply, IsRun;
    if i < j {
      ResultFrozen(run, i, j - 1);
      RunInv(run, j - 1);
      var e := StepAt(run, j - 1);
      DoneIsFinal(run[j - 1], e);
    }
  }

  // ---------- how many bits are flipped ----------

  lemma CountedFlips(s: State)
    requires FlipInv(s)
    ensures s.p.noInjection ==> s.flips == 0
    ensures !s.p.allThreads ==> s.flips <= 1
  {
  }

  /** Without injection nothing is flipped; in single-thread mode one bit at most, however often the probe is hit. */
  lemma AtMostOneFlip(run: seq<State>, i: nat)
    requires IsRun(run) && i < |run|
    ensures run[i].p.noInjection ==> run[i].flips == 0
    ensures !run[i].p.allThreads ==> run[i].flips <= 1
  {
    hide IsRun, SendInv, MonitorInv, StopInv, ProbeInv, ExitInv, FlipInv, SignalInv, RevertInv, WakeInv;
    RunInv(run, i);
    CountedFlips(run[i]);
  }

  /** The result says exactly whether a bit was flipped, and which value it turned into which. */
  ghost predicate FaultTold(r: Result, flips: nat)
  {
    && (r.fault <==> flips == 1)
    && (r.fault ==> OneBitApart(r.before, r.after))
  }

  lemma DoneTellsFault(s: State)
    requires MonitorInv(s) && StopInv(s) && SendInv(s) && FlipInv(s) && s.done && !s.p.allThreads
    ensures FaultTold(s.result, s.flips)
  {
  }

  /** The result that the client receives tells the fault, and RECEIVE has not lost any of it. */
  lemma FaultReported(run: seq<State>, i: nat, r: Result)
    requires IsRun(run) && i < |run| && run[i].received == Some(r) && !run[i].p.allThreads
    ensures FaultTold(r, run[i].flips)
  {
    hide *;
    RunInv(run, i);
    InvParts(run[i]);
    Received(run[i], r);
    DoneTellsFault(run[i]);
  }

  lemma Received(s: State, r: Result)
    requires MonitorInv(s) && s.received == Some(r)
    ensures s.c.Done? && s.done && s.result == r
  {
  }

  /** Outside its critical section the injection routine has continued what it has stopped. */
  lemma StopsContinued(run: seq<State>, i: nat)
    requires IsRun(run) && i < |run| && !Holding(run[i].b)
    ensures run[i].signals == [] || exists t :: run[i].signals == [Stop(t), Cont(t)]
  {
    hide IsRun, SendInv, MonitorInv, StopInv, ProbeInv, ExitInv, FlipInv, RevertInv, WakeInv;
    RunInv(run, i);
  }

  /** The two ways in which a flip escapes the revert exclude each other, and there is no third one. */
  lemma DoneLeaves(s: State)
    requires SendInv(s) && MonitorInv(s) && StopInv(s) && RevertInv(s) && s.done
    ensures s.inverted <==> s.uncaptured || s.late
    ensures !(s.uncaptured && s.late)
  {
  }

  /**
   When the run is done, a flip is still in a file if and only if its page was not captured (the lock was busy, or
   the page could not be pinned), or was captured only after the monitor had looked for something to revert.
   */
  lemma UnrevertedIff(run: seq<State>, i: nat)
    requires IsRun(run) && i < |run| && run[i].done
    ensures run[i].inverted <==> run[i].uncaptured || run[i].late
    ensures !(run[i].uncaptured && run[i].late)
  {
    hide IsRun, SendInv, MonitorInv, StopInv, ProbeInv, ExitInv, FlipInv, SignalInv, RevertInv, WakeInv;
    RunInv(run, i);
    DoneLeaves(run[i]);
  }
}
