/** When a run injects a fault: exactly if every test and call on the way to the flip is granted. */
module InjectionFaults {
  import opened BitOps
  import opened InjectionRun
  import opened InjectionSafety

  // ---------- the way to the flip ----------

  /** The tests and calls on the way, in their order. */
  function Calls(p: Params): (calls: seq<BitflipPc>)
    ensures |calls| == (if p.targetPc then 5 else 6) + if p.allThreads then 1 else 4
  {
    (if p.targetPc then [BStart, BWoken, BAlive] else [BStart, BSleep, BCheckAlive, BCheckStop])
    + [BCollect, BChoose]
    + (if p.allThreads then [BGroupStop] else [BPick, BGroupStop, BWaitStopped, BFlip])
  }

  /** How many of them have been passed at a location before the flip. */
  function Place(p: Params, b: BitflipPc): nat
  {
    var first := if p.targetPc then 3 else 4;
    match b
    case BMode | BWaitSet | BWaitCond | BWaitSched | BWoken | BSleep => 1
    case BAlive | BCheckAlive => 2
    case BCheckStop => 3
    case BCollect => first
    case BChoose => first + 1
    case BPick => first + 2
    case BGroupStop => if p.allThreads then first + 2 else first + 3
    case BWaitStopped => first + 4
    case BFlip => first + 5
    case _ => 0
  }

  /** Only a run with a trigger waits for it, and only one without it sleeps; only a single thread is waited for. */
  predicate OnTheWay(p: Params, b: BitflipPc)
  {
    && BeforeFlip(b)
    && (OnFlipQueue(b) || b.BWoken? || b.BAlive? ==> p.targetPc)
    && (b.BSleep? || b.BCheckAlive? || b.BCheckStop? ==> !p.targetPc)
    && (b.BPick? || b.BWaitStopped? || b.BFlip? ==> !p.allThreads)
  }

  predicate CallInv(s: State)
  {
    && (BeforeFlip(s.b) ==> OnTheWay(s.p, s.b) && Place(s.p, s.b) <= |Calls(s.p)|
                            && !s.refused && s.calls == Calls(s.p)[..Place(s.p, s.b)] && s.flips == 0)
    && (!BeforeFlip(s.b) && !s.refused ==> s.calls == Calls(s.p))
    && (s.refused ==> s.calls < Calls(s.p) && s.flips == 0 && !Capturing(s.b) && !GroupOnly(s.b))
    && (!s.p.allThreads && Marking(s.b) ==> (s.ret == 0 <==> !s.refused))
    && (!s.p.allThreads && !BeforeFlip(s.b) && !Marking(s.b) ==> (s.result.fault <==> !s.refused))
  }

  lemma OtherThreadsKeepCalls(s: State, s': State)
    requires CallInv(s) && s'.p == s.p && s'.calls == s.calls && s'.refused == s.refused && s'.flips == s.flips
    requires s'.ret == s.ret && s'.result.fault == s.result.fault
    requires s'.b == s.b || (s.b.BNone? && s'.b.BStart?)
    ensures CallInv(s')
  {
  }

  /** What is passed on the way is what comes next. */
  lemma PassesNext(s: State, bc: BitflipChoice)
    requires BitflipEnabled(s, bc) && OnTheWay(s.p, s.b)
    ensures var k := Place(s.p, s.b);
      && (Passes(s, bc) ==> k < |Calls(s.p)| && Calls(s.p)[k] == s.b && !Refuses(s, bc))
      && (Refuses(s, bc) ==> k < |Calls(s.p)| && !bc.Flipped?)
      && (bc.Flipped? ==> Passes(s, bc))
  {
    hide Pow;
  }

  /** With it the thread gets on, or off the way. */
  lemma WayNext(s: State, bc: BitflipChoice)
    requires BitflipEnabled(s, bc) && OnTheWay(s.p, s.b)
    ensures var b', k := BitflipNext(s, bc), Place(s.p, s.b);
      && (BeforeFlip(b') ==> OnTheWay(s.p, b') && Place(s.p, b') == (if Passes(s, bc) then k + 1 else k) <= |Calls(s.p)|
                             && !Refuses(s, bc))
      && (!BeforeFlip(b') && !Refuses(s, bc) ==>
            Passes(s, bc) && k + 1 == |Calls(s.p)| && (!s.p.allThreads ==> Marking(b')))
      && (Refuses(s, bc) ==> !Capturing(b') && !GroupOnly(b'))
      && (bc.Flipped? ==> !BeforeFlip(b'))
  {
    hide Pow, Calls;
  }

  lemma PrefixGrows(calls: seq<BitflipPc>, k: nat)
    requires k < |calls|
    ensures calls[..k] + [calls[k]] == calls[..k + 1] && calls[..k] < calls && calls[..|calls|] == calls
  {
  }

  /** What the thread returns once it has tried to flip, or has been told that it cannot. */
  lemma ReturnNext(s: State, bc: BitflipChoice)
    requires BitflipEnabled(s, bc) && OnTheWay(s.p, s.b) && Marking(BitflipNext(s, bc))
    ensures BitflipStep(s, bc).ret == if Refuses(s, bc) then EFAIL else 0
    ensures !s.p.allThreads
  {
    hide Pow, BitflipStep, BitflipResult;
    BitflipMoves(s, bc);
  }

  /** Nothing is reported on the way. */
  lemma NoFaultYet(s: State, bc: BitflipChoice)
    requires BitflipEnabled(s, bc) && FlipInv(s) && BeforeFlip(s.b)
    ensures !BitflipResult(s, bc).fault
  {
    hide OneBitApart, FlipBit, Pow;
  }

  lemma BitflipKeepsWay(s: State, bc: BitflipChoice)
    requires BitflipEnabled(s, bc) && FlipInv(s) && CallInv(s) && BeforeFlip(s.b)
    ensures CallInv(BitflipStep(s, bc))
  {
    hide BitflipEnabled, BitflipStep, BitflipNext, BitflipResult, Passes, Refuses, Calls, Place, FlipInv;
    hide BeforeFlip, Marking, GroupOnly, Capturing, OnTheWay, OneBitApart;
    BitflipLeaves(s, bc);
    BitflipMoves(s, bc);
    PassesNext(s, bc);
    WayNext(s, bc);
    NoFaultYet(s, bc);
    var s', k := BitflipStep(s, bc), Place(s.p, s.b);
    if k < |Calls(s.p)| {
      PrefixGrows(Calls(s.p), k);
    }
    if Marking(s'.b) {
      ReturnNext(s, bc);
    }
    Apart(s'.b);
  }

  lemma Apart(b: BitflipPc)
    ensures !(BeforeFlip(b) && Marking(b))
  {
  }

  /** After the way nothing more is tested or asked, and what has been granted is reported. */
  lemma RestNext(s: State, bc: BitflipChoice)
    requires BitflipEnabled(s, bc) && !BeforeFlip(s.b)
    ensures !Passes(s, bc) && !Refuses(s, bc) && !BeforeFlip(BitflipNext(s, bc))
    ensures bc.Flipped? || Capturing(BitflipNext(s, bc)) || GroupOnly(BitflipNext(s, bc)) ==> GroupOnly(s.b)
    ensures Marking(BitflipNext(s, bc)) ==> Marking(s.b) && !s.b.BMark?
    ensures Marking(s.b) && !Marking(BitflipNext(s, bc)) ==> s.b.BMark?
    ensures BitflipResult(s, bc).fault == (s.result.fault || (s.b.BMark? && s.ret == 0))
  {
    hide IsFlip, FlipBit, Pow;
  }

  lemma BitflipKeepsRest(s: State, bc: BitflipChoice)
    requires BitflipEnabled(s, bc) && FlipInv(s) && CallInv(s) && !BeforeFlip(s.b)
    ensures CallInv(BitflipStep(s, bc))
  {
    hide BitflipEnabled, BitflipStep, BitflipNext, BitflipResult, Passes, Refuses, Calls, Place;
    hide BeforeFlip, GroupOnly, Capturing, OnTheWay, OneBitApart;
    BitflipLeaves(s, bc);
    BitflipMoves(s, bc);
    RestNext(s, bc);
    Apart(s.b);
    OnlyFlipReturns(s.b);
  }

  lemma OnlyFlipReturns(b: BitflipPc)
    ensures b.BFlip? || b.BWaitStopped? ==> BeforeFlip(b)
  {
  }

  // ---------- the probe, and the kill ----------

  /** Where SEND has got to after it has started the bitflip thread, and armed the probe. */
  predicate Started(s: State) { s.sent || s.c.SendCont? || s.c.SendArm? }

  predicate StartInv(s: State)
  {
    && (Started(s) && !s.p.noInjection ==> !s.b.BNone?)
    && (s.c.SendAlive? || s.c.SendTargetPc? || s.c.SendMonitor? || s.c.SendBitflip? || s.c.SendArm? || s.c.SendCont?
        ==> s.running)
    && (s.c.SendBitflip? || s.c.SendArm? || s.c.SendCont? ==> s.monitorPtr)
  }

  /** A trigger comes from a hit, a thread that waits has not missed one, and without a hit the probe stays armed. */
  predicate HitInv(s: State)
  {
    && (s.trigger || s.triggered > 0 || s.queued || s.work ==> s.hits > 0)
    && (s.hits > 0 ==> !s.b.BNone?)
    && (s.b.BWoken? ==> s.hits > 0 || s.bStop)
    && (s.p.targetPc && |s.calls| >= 2 ==> s.hits > 0)
    && (s.hits > 0 && (s.b.BStart? || s.b.BMode? || OnFlipQueue(s.b)) ==> s.trigger)
    && (s.b.BWaitSched? && s.trigger ==> !s.asleep)
    && ((s.sent || s.c.SendCont?) && s.p.targetPc && !s.p.noInjection && Order(s.m) <= Order(MDisarm) && s.hits == 0
        ==> s.uprobe)
  }

  /** When KILL has returned, the monitor has got past its stop handshake. */
  predicate KillInv(s: State)
  {
    && (s.sent && !s.running ==> Order(s.m) > Order(MClearRunning0))
    && (s.sent && !s.monitorPtr ==> s.m.MExited?)
    && (s.killed && !Killing(s.c) ==> Order(s.m) > Order(MClearRunning0))
  }

  lemma ClientKeepsStart(s: State, cc: ClientChoice)
    requires ClientEnabled(s, cc) && SendInv(s) && StartInv(s)
    ensures StartInv(ClientStep(s, cc))
  {
  }

  lemma ClientKeepsHit(s: State, cc: ClientChoice)
    requires ClientEnabled(s, cc) && SendInv(s) && ProbeInv(s) && HitInv(s)
    ensures HitInv(ClientStep(s, cc))
  {
  }

  lemma ClientKeepsKill(s: State, cc: ClientChoice)
    requires ClientEnabled(s, cc) && SendInv(s) && StartInv(s) && KillInv(s)
    ensures KillInv(ClientStep(s, cc))
  {
  }

  lemma MonitorKeepsStart(s: State)
    requires MonitorEnabled(s) && SendInv(s) && MonitorInv(s) && StartInv(s)
    ensures StartInv(MonitorStep(s))
  {
  }

  lemma MonitorKeepsHit(s: State)
    requires MonitorEnabled(s) && HitInv(s)
    ensures HitInv(MonitorStep(s))
  {
  }

  lemma MonitorKeepsKill(s: State)
    requires MonitorEnabled(s) && SendInv(s) && KillInv(s)
    ensures KillInv(MonitorStep(s))
  {
  }

  /** How the thread comes to wait for the trigger, and leaves the queue. */
  lemma WaitNext(s: State, bc: BitflipChoice)
    requires BitflipEnabled(s, bc)
    ensures var b' := BitflipNext(s, bc);
      && !b'.BNone? && !b'.BStart? && (b'.BWoken? ==> s.b.BWaitCond? && (s.trigger || s.bStop))
      && (b'.BMode? || OnFlipQueue(b') ==> s.b.BStart? || s.b.BMode? || OnFlipQueue(s.b))
      && (b'.BWaitSched? ==> s.b.BWaitCond? && !s.trigger)
  {
    hide IsFlip, FlipBit, Pow;
  }

  /** The second thing to be passed in a run with a trigger is the wake-up. */
  lemma SecondIsWoken(s: State, bc: BitflipChoice)
    requires BitflipEnabled(s, bc) && CallInv(s) && s.p.targetPc && Passes(s, bc) && |s.calls| == 1
    ensures s.b.BWoken? && !s.bStop
  {
    hide FlipBit, Pow, IsFlip;
  }

  lemma BitflipKeepsHit(s: State, bc: BitflipChoice)
    requires BitflipEnabled(s, bc) && CallInv(s) && HitInv(s)
    ensures HitInv(BitflipStep(s, bc))
  {
    hide BitflipEnabled, BitflipStep, BitflipNext, BitflipResult, Passes, Refuses, CallInv;
    BitflipLeaves(s, bc);
    BitflipMoves(s, bc);
    WaitNext(s, bc);
    if s.p.targetPc && Passes(s, bc) && |s.calls| == 1 {
      SecondIsWoken(s, bc);
    }
  }

  lemma BitflipKeepsOthers(s: State, bc: BitflipChoice)
    requires BitflipEnabled(s, bc) && StartInv(s) && KillInv(s) && !s.b.BNone?
    ensures StartInv(BitflipStep(s, bc)) && KillInv(BitflipStep(s, bc))
  {
    hide BitflipEnabled, BitflipStep, BitflipNext, BitflipResult;
    BitflipLeaves(s, bc);
    BitflipMoves(s, bc);
    WaitNext(s, bc);
  }

  // ---------- what holds in every state of every run ----------

  ghost predicate History(s: State) { CallInv(s) && StartInv(s) && HitInv(s) && KillInv(s) }

  lemma InitHistory(s: State)
    requires Init(s)
    ensures History(s)
  {
  }

  lemma ClientKeepsHistory(s: State, cc: ClientChoice)
    requires ClientEnabled(s, cc) && SendInv(s) && ProbeInv(s) && History(s)
    ensures History(ClientStep(s, cc))
  {
    hide CallInv, StartInv, HitInv, KillInv, ClientStep, ProbeInv;
    ClientLeaves(s, cc);
    ClientMoves(s, cc);
    OtherThreadsKeepCalls(s, ClientStep(s, cc));
    ClientKeepsStart(s, cc);
    ClientKeepsHit(s, cc);
    ClientKeepsKill(s, cc);
  }

  lemma MonitorKeepsHistory(s: State)
    requires MonitorEnabled(s) && SendInv(s) && MonitorInv(s) && History(s)
    ensures History(MonitorStep(s))
  {
    hide CallInv, StartInv, HitInv, KillInv, MonitorStep, MonitorNext, SendInv, MonitorInv;
    MonitorLeaves(s);
    MonitorMoves(s);
    OtherThreadsKeepCalls(s, MonitorStep(s));
    MonitorKeepsStart(s);
    MonitorKeepsHit(s);
    MonitorKeepsKill(s);
  }

  lemma BitflipKeepsHistory(s: State, bc: BitflipChoice)
    requires BitflipEnabled(s, bc) && FlipInv(s) && History(s)
    ensures History(BitflipStep(s, bc))
  {
    hide CallInv, StartInv, HitInv, KillInv, BitflipStep, BitflipNext, FlipInv;
    if BeforeFlip(s.b) {
      BitflipKeepsWay(s, bc);
    } else {
      BitflipKeepsRest(s, bc);
    }
    BitflipKeepsHit(s, bc);
    BitflipKeepsOthers(s, bc);
  }

  /** Handlers, disarm work and target. */
  lemma OthersKeepArmed(s: State, e: Event)
    requires SendInv(s) && ProbeInv(s) && Enabled(s, e) && !e.Client? && !e.Monitor? && !e.Bitflip?
    requires StartInv(s) && HitInv(s) && KillInv(s)
    ensures StartInv(Apply(s, e)) && HitInv(Apply(s, e)) && KillInv(Apply(s, e))
  {
    hide ClientStep, MonitorStep, BitflipStep, ClientEnabled, MonitorEnabled, BitflipEnabled;
  }

  lemma OthersKeepHistory(s: State, e: Event)
    requires Inv(s) && Enabled(s, e) && !e.Client? && !e.Monitor? && !e.Bitflip? && History(s)
    ensures History(Apply(s, e))
  {
    hide CallInv, StartInv, HitInv, KillInv, ClientStep, MonitorStep, BitflipStep;
    hide SendInv, MonitorInv, StopInv, ProbeInv, ExitInv, FlipInv, SignalInv, RevertInv, WakeInv;
    OtherThreadsKeepCalls(s, Apply(s, e));
    OthersKeepArmed(s, e);
  }

  lemma StepKeepsHistory(s: State, e: Event)
    requires Inv(s) && Enabled(s, e) && History(s)
    ensures History(Apply(s, e))
  {
    hide History, SendInv, MonitorInv, StopInv, ProbeInv, ExitInv, FlipInv, SignalInv, RevertInv, WakeInv;
    hide ClientStep, MonitorStep, BitflipStep, ClientEnabled, MonitorEnabled, BitflipEnabled;
    match e
    case Client(cc) => ClientKeepsHistory(s, cc);
    case Monitor => MonitorKeepsHistory(s);
    case Bitflip(bc) => BitflipKeepsHistory(s, bc);
    case _ => OthersKeepHistory(s, e);
  }

  lemma {:induction false} RunHistory(run: seq<State>, i: nat)
    requires IsRun(run) && i < |run|
    ensures Inv(run[i]) && History(run[i])
  {
    hide Inv, Init, History, Enabled, Apply;
    if i == 0 {
      InitInv(run[0]);
      InitHistory(run[0]);
    } else {
      RunHistory(run, i - 1);
      var e := StepAt(run, i - 1);
      StepKeeps(run[i - 1], e);
      StepKeepsHistory(run[i - 1], e);
    }
  }

  // ---------- when a fault is injected ----------

  lemma DoneTells(s: State)
    requires SendInv(s) && MonitorInv(s) && StopInv(s) && FlipInv(s) && CallInv(s) && StartInv(s)
    requires s.done && !s.p.noInjection
    ensures !s.p.allThreads ==> (s.result.fault <==> !s.refused) && s.flips == (if s.refused then 0 else 1)
    ensures s.refused ==> s.flips == 0 && s.calls < Calls(s.p)
    ensures !s.refused ==> s.calls == Calls(s.p)
  {
    hide Calls, Place, OneBitApart, OnTheWay;
    DoneIsJoined(s);
  }

  /**
   A completed run with injection into a single thread reports a fault, and has flipped a bit, exactly if nothing on
   the way was refused: the thread was not told to stop, the target was alive when it looked, and no call failed.
   In all modes nothing is flipped if something was refused, and otherwise all of it has been asked, in this order.
   */
  lemma FaultIff(run: seq<State>, i: nat)
    requires IsRun(run) && i < |run| && run[i].done && !run[i].p.noInjection
    ensures var s := run[i];
      && (!s.p.allThreads ==> (s.result.fault <==> !s.refused) && s.flips == if s.refused then 0 else 1)
      && (s.refused ==> s.flips == 0 && s.calls < Calls(s.p))
      && (!s.refused ==> s.calls == Calls(s.p))
  {
    hide *;
    RunHistory(run, i);
    InvParts(run[i]);
    HistoryParts(run[i]);
    DoneTells(run[i]);
  }

  lemma HistoryParts(s: State)
    requires History(s)
    ensures CallInv(s) && StartInv(s) && HitInv(s) && KillInv(s)
  {
    hide CallInv, StartInv, HitInv, KillInv;
  }

  /** A refusal is not forgotten. */
  lemma RefusalStays(s: State, e: Event)
    requires Enabled(s, e) && s.refused
    ensures Apply(s, e).refused
  {
    hide Enabled, Apply, ClientEnabled, MonitorEnabled, BitflipEnabled, ClientStep, MonitorStep, BitflipStep;
    ThreadStep(s, e);
    if e.Client? {
      ClientLeaves(s, e.cc);
    } else if e.Monitor? {
      MonitorLeaves(s);
    } else if e.Bitflip? {
      BitflipMoves(s, e.bc);
    } else {
      OthersLeave(s, e);
    }
  }

  lemma {:induction false} RefusedForGood(run: seq<State>, i: nat, j: nat)
    requires IsRun(run) && i <= j < |run| && run[i].refused
    ensures run[j].refused
    decreases j
  {
    hide Init, Enabled, Apply, IsRun;
    if i < j {
      RefusedForGood(run, i, j - 1);
      var e := StepAt(run, j - 1);
      RefusalStays(run[j - 1], e);
    }
  }

  lemma RefusedIsSafe(s: State)
    requires FlipInv(s) && CallInv(s) && s.refused
    ensures s.flips == 0 && !s.result.fault
  {
    hide Calls, OneBitApart;
  }

  /** When the wait for the stopped task fails, the run never flips a bit nor reports a fault. */
  lemma WaitFailed(run: seq<State>, i: nat, j: nat)
    requires IsRun(run) && i < j < |run| && run[i].b.BWaitStopped?
    requires BitflipEnabled(run[i], Error) && run[i + 1] == BitflipStep(run[i], Error)
    ensures run[j].flips == 0 && !run[j].result.fault
  {
    hide IsRun, Inv, FlipInv, CallInv;
    BitflipMoves(run[i], Error);
    RefusedForGood(run, i + 1, j);
    RunHistory(run, j);
    InvParts(run[j]);
    HistoryParts(run[j]);
    RefusedIsSafe(run[j]);
  }

  /** Nor when the target is no longer alive at the moment at which the thread looks. */
  lemma DeadTargetIsLeftAlone(run: seq<State>, i: nat, j: nat)
    requires IsRun(run) && i < j < |run| && (run[i].b.BAlive? || run[i].b.BCheckAlive?) && !run[i].alive
    requires BitflipEnabled(run[i], Ok) && run[i + 1] == BitflipStep(run[i], Ok)
    ensures run[j].flips == 0 && !run[j].result.fault
  {
    hide IsRun, Inv, FlipInv, CallInv;
    BitflipMoves(run[i], Ok);
    RefusedForGood(run, i + 1, j);
    RunHistory(run, j);
    InvParts(run[j]);
    HistoryParts(run[j]);
    RefusedIsSafe(run[j]);
  }

  lemma FlipNeedsHit(s: State)
    requires CallInv(s) && HitInv(s) && s.p.targetPc && s.flips > 0
    ensures s.hits > 0
  {
  }

  /** In a run with a trigger nothing is flipped before the target has hit the probe. */
  lemma NothingBeforeHit(run: seq<State>, i: nat)
    requires IsRun(run) && i < |run| && run[i].p.targetPc && run[i].flips > 0
    ensures run[i].hits > 0
  {
    hide IsRun, Inv, CallInv, HitInv;
    RunHistory(run, i);
    HistoryParts(run[i]);
    FlipNeedsHit(run[i]);
  }

  /** From SEND's success on the probe stays armed until it is hit, or until the monitor disarms it at the end. */
  lemma ArmedUntilHit(run: seq<State>, i: nat)
    requires IsRun(run) && i < |run| && run[i].sent && run[i].p.targetPc && !run[i].p.noInjection
    ensures run[i].uprobe || run[i].hits > 0 || Order(run[i].m) > Order(MDisarm)
  {
    hide IsRun, Inv, CallInv, StartInv, KillInv;
    RunHistory(run, i);
  }

  /** The target, while it runs, can hit an armed probe, and its handler then sets the trigger. */
  lemma HitTriggers(s: State)
    requires s.uprobe && s.target == Running && !s.killPending
    ensures Enabled(s, Hit) && Enabled(Apply(s, Hit), HandlerTrigger)
    ensures var s' := Apply(Apply(s, Hit), HandlerTrigger);
      s'.trigger && s'.hits == s.hits + 1 && s'.entered == s.entered && s'.triggered == s.triggered + 1
  {
    hide ClientStep, MonitorStep, BitflipStep, ClientEnabled, MonitorEnabled, BitflipEnabled;
  }

  /** How far a thread is from leaving the queue. */
  function QueueRank(b: BitflipPc): nat { if b.BWaitSched? then 2 else if b.BWaitSet? then 1 else 0 }

  lemma QueueMoves(s: State)
    requires HitInv(s) && s.hits > 0 && OnFlipQueue(s.b)
    ensures BitflipEnabled(s, Ok)
    ensures var b' := BitflipNext(s, Ok); b'.BWoken? || (OnFlipQueue(b') && QueueRank(b') < QueueRank(s.b))
  {
  }

  /** Once the probe has been hit, a thread that waits for it is awake, and at most three of its steps from leaving. */
  lemma HitWakes(run: seq<State>, i: nat)
    requires IsRun(run) && i < |run| && run[i].hits > 0 && OnFlipQueue(run[i].b)
    ensures BitflipEnabled(run[i], Ok)
    ensures var b' := BitflipNext(run[i], Ok); b'.BWoken? || (OnFlipQueue(b') && QueueRank(b') < QueueRank(run[i].b))
  {
    hide IsRun, Inv, CallInv, StartInv, HitInv, KillInv, BitflipNext, BitflipEnabled;
    RunHistory(run, i);
    QueueMoves(run[i]);
  }

  /** When KILL returns, the bitflip thread has exited, and the target has exited or counts as hanged. */
  lemma KillReturns(run: seq<State>, i: nat)
    requires IsRun(run) && i < |run| && run[i].killed && !Killing(run[i].c)
    ensures run[i].b.BNone? || run[i].b.BExited?
    ensures run[i].mExited || run[i].result.hanged
  {
    hide *;
    RunHistory(run, i);
    InvParts(run[i]);
    HistoryParts(run[i]);
    KilledIsOver(run[i]);
  }

  lemma KilledIsOver(s: State)
    requires StopInv(s) && ExitInv(s) && KillInv(s) && s.killed && !Killing(s.c)
    ensures (s.b.BNone? || s.b.BExited?) && (s.mExited || s.result.hanged)
  {
  }

  // ---------- what is reported ----------

  /** What the bitflip thread writes into the result besides the fault flag. */
  predicate SameReport(r: Result, r': Result)
  {
    r'.tgid == r.tgid && r'.before == r.before && r'.after == r.after && r'.time == r.time
  }

  lemma OthersReportNothing(s: State, e: Event)
    requires Enabled(s, e) && SendInv(s) && !e.Bitflip?
    ensures SameReport(s.result, Apply(s, e).result) && Apply(s, e).p == s.p
    ensures Apply(s, e).b == s.b || s.b.BNone?
  {
    hide Enabled, Apply, ClientEnabled, MonitorEnabled, BitflipEnabled, ClientStep, MonitorStep, BitflipStep;
    ThreadStep(s, e);
    if e.Client? {
      ClientLeaves(s, e.cc);
      ClientMoves(s, e.cc);
    } else if e.Monitor? {
      MonitorLeaves(s);
      MonitorMoves(s);
    } else {
      OthersLeave(s, e);
    }
  }

  /** Past the choice of the target. */
  predicate PastChoice(b: BitflipPc)
  {
    !BeforeFlip(b) || b.BPick? || b.BGroupStop? || b.BWaitStopped? || b.BFlip?
  }

  lemma ReportNext(s: State, bc: BitflipChoice)
    requires BitflipEnabled(s, bc)
    ensures !s.b.BChoose? ==> BitflipResult(s, bc).tgid == s.result.tgid
    ensures !s.b.BOut? ==> BitflipResult(s, bc).time == s.result.time
  {
    hide FlipBit, Pow, IsFlip;
  }

  lemma PastChoiceNext(s: State, bc: BitflipChoice)
    requires BitflipEnabled(s, bc) && PastChoice(s.b)
    ensures PastChoice(BitflipNext(s, bc)) && !s.b.BChoose?
  {
    hide FlipBit, Pow, IsFlip;
  }

  lemma ChoiceStays(s: State, e: Event)
    requires Enabled(s, e) && SendInv(s) && PastChoice(s.b)
    ensures PastChoice(Apply(s, e).b) && Apply(s, e).result.tgid == s.result.tgid
  {
    hide ClientEnabled, MonitorEnabled, BitflipEnabled, ClientStep, MonitorStep, BitflipStep;
    hide BitflipNext, BitflipResult;
    if e.Bitflip? {
      BitflipMoves(s, e.bc);
      ReportNext(s, e.bc);
      PastChoiceNext(s, e.bc);
    } else {
      OthersReportNothing(s, e);
    }
  }

  /** The target that is chosen is the one that is reported from then on. */
  lemma {:induction false} ChosenIsReported(run: seq<State>, i: nat, t: int, j: nat)
    requires IsRun(run) && i < j < |run| && run[i].b.BChoose? && run[i + 1] == BitflipStep(run[i], Pick(t))
    ensures PastChoice(run[j].b) && run[j].result.tgid == t
    decreases j
  {
    hide Init, Enabled, Apply, IsRun, Inv, SendInv, MonitorInv, StopInv, ProbeInv, ExitInv, FlipInv, SignalInv;
    hide RevertInv, WakeInv, BitflipStep;
    if j == i + 1 {
      BitflipMoves(run[i], Pick(t));
    } else {
      ChosenIsReported(run, i, t, j - 1);
      RunInv(run, j - 1);
      InvParts(run[j - 1]);
      var e := StepAt(run, j - 1);
      ChoiceStays(run[j - 1], e);
    }
  }

  /** Past the only flip of a single thread. */
  predicate PastFlip(s: State) { !s.p.allThreads && !BeforeFlip(s.b) && !GroupOnly(s.b) }

  lemma FlipStays(s: State, e: Event)
    requires Enabled(s, e) && SendInv(s) && PastFlip(s)
    ensures PastFlip(Apply(s, e)) && Apply(s, e).result.before == s.result.before
    ensures Apply(s, e).result.after == s.result.after
  {
    hide ClientEnabled, MonitorEnabled, ClientStep, MonitorStep, BitflipStep, Pow, FlipBit;
    if e.Bitflip? {
      BitflipMoves(s, e.bc);
      BitflipLeaves(s, e.bc);
      RestNext(s, e.bc);
    } else {
      OthersReportNothing(s, e);
    }
  }

  /** The values reported are those of the flip. */
  lemma {:induction false} FlipIsReported(run: seq<State>, i: nat, bc: BitflipChoice, j: nat)
    requires IsRun(run) && i < j < |run| && run[i].b.BFlip? && !run[i].p.allThreads && bc.Flipped?
    requires BitflipEnabled(run[i], bc) && run[i + 1] == BitflipStep(run[i], bc)
    ensures PastFlip(run[j]) && run[j].result.before == bc.before && run[j].result.after == FlipBit(bc.before, bc.bit)
    decreases j
  {
    hide Init, Enabled, Apply, IsRun, Inv, SendInv, MonitorInv, StopInv, ProbeInv, ExitInv, FlipInv, SignalInv;
    hide RevertInv, WakeInv, BitflipStep, FlipBit, Pow;
    if j == i + 1 {
      BitflipMoves(run[i], bc);
      BitflipLeaves(run[i], bc);
    } else {
      FlipIsReported(run, i, bc, j - 1);
      RunInv(run, j - 1);
      InvParts(run[j - 1]);
      var e := StepAt(run, j - 1);
      FlipStays(run[j - 1], e);
    }
  }

  predicate Parking(b: BitflipPc)
  {
    b.BParkCheck? || b.BParkSet? || b.BParkCheck2? || b.BParkSched? || b.BExited?
  }

  lemma ParkingNext(s: State, bc: BitflipChoice)
    requires BitflipEnabled(s, bc) && Parking(s.b)
    ensures Parking(BitflipNext(s, bc)) && !s.b.BOut?
  {
    hide FlipBit, Pow, IsFlip;
  }

  lemma TimeStays(s: State, e: Event)
    requires Enabled(s, e) && SendInv(s) && Parking(s.b)
    ensures Parking(Apply(s, e).b) && Apply(s, e).result.time == s.result.time
  {
    hide ClientEnabled, MonitorEnabled, BitflipEnabled, ClientStep, MonitorStep, BitflipStep;
    hide BitflipNext, BitflipResult;
    if e.Bitflip? {
      BitflipMoves(s, e.bc);
      ReportNext(s, e.bc);
      ParkingNext(s, e.bc);
    } else {
      OthersReportNothing(s, e);
    }
  }

  /** And so is the time that the injection took. */
  lemma {:induction false} TimeIsReported(run: seq<State>, i: nat, t: nat, j: nat)
    requires IsRun(run) && i < j < |run| && run[i].b.BOut? && run[i + 1] == BitflipStep(run[i], Elapsed(t))
    ensures Parking(run[j].b) && run[j].result.time == t
    decreases j
  {
    hide Init, Enabled, Apply, IsRun, Inv, SendInv, MonitorInv, StopInv, ProbeInv, ExitInv, FlipInv, SignalInv;
    hide RevertInv, WakeInv, BitflipStep;
    if j == i + 1 {
      BitflipMoves(run[i], Elapsed(t));
    } else {
      TimeIsReported(run, i, t, j - 1);
      RunInv(run, j - 1);
      InvParts(run[j - 1]);
      var e := StepAt(run, j - 1);
      TimeStays(run[j - 1], e);
    }
  }

  // ---------- injection into all threads ----------

  lemma Extended(run: seq<State>, e: Event) returns (run': seq<State>)
    requires IsRun(run) && Enabled(run[|run| - 1], e)
    ensures run' == run + [Apply(run[|run| - 1], e)] && IsRun(run')
  {
    hide Init, Enabled, Apply;
    run' := run + [Apply(run[|run| - 1], e)];
    forall i | 0 <= i < |run'| - 1
      ensures Step(run'[i], run'[i + 1])
    {
      if i + 1 < |run| {
        assert Step(run[i], run[i + 1]);
      } else {
        assert Enabled(run'[i], e) && run'[i + 1] == Apply(run'[i], e);
      }
    }
  }

  /** A stopped group is gone through thread by thread: any register flips can be made in it, one for each thread. */
  lemma {:induction false} GroupFlips(run: seq<State>, budget: nat, flips: seq<BitflipChoice>)
    returns (run': seq<State>)
    requires IsRun(run) && |flips| <= budget
    requires run[|run| - 1].b.BGroupStop? && run[|run| - 1].p.allThreads
    requires forall i :: 0 <= i < |flips| ==> IsFlip(flips[i]) && !flips[i].memory
    ensures IsRun(run') && run <= run'
    ensures var s, s' := run[|run| - 1], run'[|run'| - 1];
      && s'.b.BAllLoop? && s'.budget == budget - |flips| && s'.flips == s.flips + |flips|
      && (flips != [] ==> var f := flips[|flips| - 1]; f.Flipped? && s'.result.before == f.before)
      && (flips != [] ==> var f := flips[|flips| - 1]; s'.result.after == FlipBit(f.before, f.bit))
    decreases |flips|
  {
    hide IsRun, FlipBit, Pow;
    if flips == [] {
      run' := GroupNext(run, StopSent(budget));
    } else {
      var n := |flips| - 1;
      var part := GroupFlips(run, budget, flips[..n]);
      run' := GroupNext(part, flips[n]);
    }
  }

  /** One step of the bitflip thread further. */
  lemma GroupNext(run: seq<State>, bc: BitflipChoice) returns (run': seq<State>)
    requires IsRun(run) && BitflipEnabled(run[|run| - 1], bc)
    ensures run' == run + [BitflipStep(run[|run| - 1], bc)] && IsRun(run')
  {
    hide IsRun, BitflipEnabled, BitflipStep;
    run' := Extended(run, Bitflip(bc));
  }
}
