/** What the shared flags of a run say: whether the target is alive and the run going on, the trigger, the probe. */
module InjectionFlags {
  import opened InjectionFaults
  import opened InjectionRun
  import opened InjectionSafety
  import opened Options
  import opened Signals

  // ---------- alive, running, and the pointer to the monitor ----------

  /** SEND has set both flags, and has not returned. */
  predicate Prepared(c: ClientPc) { c.SendTargetPc? || c.SendMonitor? || c.SendBitflip? || c.SendArm? || c.SendCont? }

  /** A kill has been sent, and noted. */
  predicate KillNoted(s: State) { s.killPending && !s.c.KillAlive? }

  /** Where the monitor is when it ends the run: with a bitflip thread as soon as that is gone. */
  function LastPlace(p: Params): nat { if p.noInjection then Order(MClearRunning) else Order(MClearRunning0) }

  predicate FlagInv(s: State)
  {
    && (s.c.KillCheck? || s.c.KillSignal? ==> !s.killPending)
    && (s.c.KillAlive? ==> s.killPending)
    && (s.c.SendCheck? ==> !s.running && !s.alive)
    && (Prepared(s.c) ==> s.alive && s.running)
    && (s.c.SendAlive? ==> s.running)
    && (s.c.SendFailed? ==> !s.running)
    && (s.sent ==> (s.alive <==> Order(s.m) <= Order(MClearAlive) && !KillNoted(s)))
    && (s.sent ==> (s.running <==> Order(s.m) <= LastPlace(s.p)))
    && (s.m.MExited? ==> !s.monitorPtr)
  }

  /** The disarm work is queued by the first handler that ends, once for all. */
  predicate ShotInv(s: State)
  {
    && (!s.sent ==> s.entered == 0 && s.triggered == 0 && s.hits == 0)
    && (s.queued ==> s.work)
    && (s.hits > 0 && s.triggered == 0 && s.uprobe ==> s.queued)
  }

  lemma ClientKeepsFlag(s: State, cc: ClientChoice)
    requires ClientEnabled(s, cc) && SendInv(s) && FlagInv(s)
    ensures FlagInv(ClientStep(s, cc))
  {
  }

  /** The places at which the monitor clears the flags come once. */
  lemma OrderNext(s: State)
    requires MonitorEnabled(s)
    ensures var m' := MonitorNext(s);
      && (Order(m') <= Order(MClearAlive) <==> Order(s.m) <= Order(MClearAlive) && !s.m.MClearAlive?)
      && (Order(m') <= Order(MClearRunning) <==> Order(s.m) <= Order(MClearRunning) && !s.m.MClearRunning?)
      && (Order(m') <= Order(MClearRunning0)
          <==> Order(s.m) <= Order(MClearRunning0) && !s.m.MClearRunning0? && !(s.m.MCheckBitflip? && !s.bitflipPtr))
      && (m'.MExited? ==> s.m.MClearPtr?)
      && (s.m.MClearRunning? ==> Order(s.m) > Order(MClearRunning0))
      && (s.m.MClearRunning0? || s.m.MCheckBitflip? ==> Order(s.m) <= Order(MClearRunning0) < Order(MClearRunning))
  {
  }

  /** A monitor that has a bitflip thread to see off does so. */
  lemma Handshake(s: State)
    requires SendInv(s) && StopInv(s) && StartInv(s) && s.sent
    ensures s.m.MClearRunning0? ==> !s.p.noInjection
    ensures s.m.MCheckBitflip? && !s.bitflipPtr ==> s.p.noInjection
  {
  }

  lemma ClientKeepsShot(s: State, cc: ClientChoice)
    requires ClientEnabled(s, cc) && SendInv(s) && ShotInv(s)
    ensures ShotInv(ClientStep(s, cc))
  {
  }

  lemma MonitorKeepsFlag(s: State)
    requires MonitorEnabled(s) && SendInv(s) && MonitorInv(s) && StopInv(s) && StartInv(s) && FlagInv(s)
    ensures FlagInv(MonitorStep(s))
  {
    hide MonitorEnabled, MonitorStep, MonitorNext, Order, StopInv, StartInv;
    MonitorLeaves(s);
    MonitorMoves(s);
    OrderNext(s);
    MonitorAt(s);
    if s.sent {
      Handshake(s);
    }
  }

  /** Before SEND returns the monitor stays in its loop. */
  lemma MonitorAt(s: State)
    requires SendInv(s) && MonitorInv(s)
    ensures s.m.MClearAlive? || s.m.MClearRunning0? || s.m.MClearRunning? || s.m.MClearPtr? ==> s.sent
  {
  }

  lemma MonitorKeepsShot(s: State)
    requires MonitorEnabled(s) && ShotInv(s)
    ensures ShotInv(MonitorStep(s))
  {
  }

  lemma BitflipKeepsBoth(s: State, bc: BitflipChoice)
    requires BitflipEnabled(s, bc) && FlagInv(s) && ShotInv(s)
    ensures FlagInv(BitflipStep(s, bc)) && ShotInv(BitflipStep(s, bc))
  {
    hide BitflipEnabled, BitflipStep, BitflipNext, BitflipResult;
    BitflipLeaves(s, bc);
  }

  lemma OthersKeepBoth(s: State, e: Event)
    requires SendInv(s) && Enabled(s, e) && !e.Client? && !e.Monitor? && !e.Bitflip? && FlagInv(s) && ShotInv(s)
    ensures FlagInv(Apply(s, e)) && ShotInv(Apply(s, e))
  {
    hide ClientStep, MonitorStep, BitflipStep, ClientEnabled, MonitorEnabled, BitflipEnabled;
  }

  lemma StepKeepsFlags(s: State, e: Event)
    requires Inv(s) && History(s) && Enabled(s, e) && FlagInv(s) && ShotInv(s)
    ensures FlagInv(Apply(s, e)) && ShotInv(Apply(s, e))
  {
    hide FlagInv, ShotInv, Inv, History, SendInv, MonitorInv, StopInv, StartInv;
    hide ClientStep, MonitorStep, BitflipStep, ClientEnabled, MonitorEnabled, BitflipEnabled;
    InvParts(s);
    HistoryParts(s);
    match e
    case Client(cc) => ClientKeepsFlag(s, cc); ClientKeepsShot(s, cc);
    case Monitor => MonitorKeepsFlag(s); MonitorKeepsShot(s);
    case Bitflip(bc) => BitflipKeepsBoth(s, bc);
    case _ => OthersKeepBoth(s, e);
  }

  lemma InitFlags(s: State)
    requires Init(s)
    ensures FlagInv(s) && ShotInv(s)
  {
  }

  lemma {:induction false} RunFlags(run: seq<State>, i: nat)
    requires IsRun(run) && i < |run|
    ensures Inv(run[i]) && History(run[i]) && FlagInv(run[i]) && ShotInv(run[i])
  {
    hide Inv, Init, History, FlagInv, ShotInv, Enabled, Apply;
    RunHistory(run, i);
    if i == 0 {
      InitFlags(run[0]);
    } else {
      RunFlags(run, i - 1);
      var e := StepAt(run, i - 1);
      StepKeepsFlags(run[i - 1], e);
    }
  }

  /**
   From the success of SEND on: the target counts as alive until a kill has been sent and noted, or the monitor has
   seen the end; the run goes on until the monitor has seen off the bitflip thread, or without one until it completes.
   */
  lemma FlagsMean(run: seq<State>, i: nat)
    requires IsRun(run) && i < |run| && run[i].sent
    ensures run[i].alive <==> Order(run[i].m) <= Order(MClearAlive) && !KillNoted(run[i])
    ensures run[i].running <==> Order(run[i].m) <= LastPlace(run[i].p)
  {
    hide IsRun, Inv, History, ShotInv, Order, KillNoted, LastPlace;
    RunFlags(run, i);
  }

  /** When SEND has failed, the context counts as free again. */
  lemma FailureFrees(run: seq<State>, i: nat)
    requires IsRun(run) && i < |run| && run[i].c.SendFailed?
    ensures !run[i].running
  {
    hide IsRun, Inv, History, ShotInv, Order;
    RunFlags(run, i);
  }

  // ---------- a kill that comes too late ----------

  /** Done, and the client outside of SEND and of a kill that has found the run going on. */
  predicate Over(s: State) { s.done && (s.c.Poll? || s.c.KillCheck? || s.c.Done?) }

  lemma OverStays(s: State, e: Event)
    requires Enabled(s, e) && MonitorInv(s) && Over(s)
    ensures Over(Apply(s, e)) && Apply(s, e).killPending == s.killPending && Apply(s, e).mStop == s.mStop
  {
    hide Enabled, Apply, MonitorEnabled, BitflipEnabled, ClientStep, MonitorStep, BitflipStep;
    ThreadStep(s, e);
    if e.Client? {
      ClientMoves(s, e.cc);
    } else if e.Monitor? {
      MonitorLeaves(s);
      MonitorMoves(s);
    } else if e.Bitflip? {
      BitflipLeaves(s, e.bc);
    } else {
      OthersLeave(s, e);
    }
  }

  /** After the completion of the run a kill sends no signal, and stops no thread. */
  lemma {:induction false} LateKill(run: seq<State>, i: nat, j: nat)
    requires IsRun(run) && i <= j < |run| && run[i].done && run[i].c.Poll?
    ensures Over(run[j]) && run[j].killPending == run[i].killPending && run[j].mStop == run[i].mStop
    decreases j
  {
    hide IsRun, Enabled, Apply, Inv;
    if i < j {
      LateKill(run, i, j - 1);
      var e := StepAt(run, j - 1);
      RunInv(run, j - 1);
      InvParts(run[j - 1]);
      OverStays(run[j - 1], e);
    }
  }

  // ---------- the trigger and the probe ----------

  /** The trigger is not set, and has not been since the probe was hit `n` times. */
  predicate Spent(s: State, n: nat) { s.hits >= n && (s.hits == n ==> !s.trigger) }

  /** The client does not set the trigger. */
  lemma ClientUnsets(s: State, cc: ClientChoice)
    requires ClientEnabled(s, cc)
    ensures ClientStep(s, cc).trigger ==> s.trigger
  {
    hide ClientNext;
  }

  lemma SpentStays(s: State, e: Event, n: nat)
    requires Enabled(s, e) && Spent(s, n)
    ensures Spent(Apply(s, e), n)
  {
    hide Enabled, Apply, ClientEnabled, MonitorEnabled, BitflipEnabled, ClientStep, MonitorStep, BitflipStep;
    ThreadStep(s, e);
    if e.Client? {
      ClientLeaves(s, e.cc);
      ClientUnsets(s, e.cc);
    } else if e.Monitor? {
      MonitorLeaves(s);
    } else if e.Bitflip? {
      BitflipLeaves(s, e.bc);
      BitflipMoves(s, e.bc);
    } else {
      OthersLeave(s, e);
    }
  }

  /** The injection spends the trigger: it is not set again before the next hit. */
  lemma {:induction false} TriggerSpent(run: seq<State>, i: nat, j: nat)
    requires IsRun(run) && i < j < |run| && run[i].b.BClear? && run[i].p.targetPc && run[i].hits == run[j].hits
    requires BitflipEnabled(run[i], Ok) && run[i + 1] == BitflipStep(run[i], Ok)
    ensures !run[j].trigger
  {
    hide IsRun, Inv, BitflipEnabled, BitflipStep;
    BitflipLeaves(run[i], Ok);
    BitflipMoves(run[i], Ok);
    SpentFrom(run, i + 1, j, run[i].hits);
  }

  lemma {:induction false} SpentFrom(run: seq<State>, i: nat, j: nat, n: nat)
    requires IsRun(run) && i <= j < |run| && Spent(run[i], n)
    ensures Spent(run[j], n)
    decreases j
  {
    hide IsRun, Enabled, Apply, Spent;
    if i < j {
      SpentFrom(run, i, j - 1, n);
      var e := StepAt(run, j - 1);
      SpentStays(run[j - 1], e, n);
    }
  }

  /** The probe is good for one shot: once a handler has ended, it is disarmed or its disarm work is queued. */
  lemma OneShot(run: seq<State>, i: nat)
    requires IsRun(run) && i < |run| && run[i].hits > 0 && run[i].triggered == 0
    ensures !run[i].uprobe || (run[i].queued && run[i].work)
  {
    hide IsRun, Inv, History, FlagInv, Order;
    RunFlags(run, i);
  }

  /** The monitor disarms the probe only after it has found no disarm work pending. */
  lemma DisarmAfterWork(run: seq<State>, i: nat)
    requires IsRun(run) && i + 1 < |run| && run[i + 1].m.MDisarm? && !run[i].m.MDisarm?
    ensures !run[i].work && !run[i + 1].work
  {
    hide IsRun, Enabled, Apply;
    var e := StepAt(run, i);
    DisarmNext(run[i], e);
  }

  lemma DisarmNext(s: State, e: Event)
    requires Enabled(s, e) && Apply(s, e).m.MDisarm? && !s.m.MDisarm?
    ensures !s.work && !Apply(s, e).work
  {
    hide Enabled, Apply, ClientEnabled, BitflipEnabled, ClientStep, MonitorStep, BitflipStep;
    ThreadStep(s, e);
    if e.Client? {
      ClientMoves(s, e.cc);
    } else if e.Monitor? {
      MonitorLeaves(s);
      MonitorMoves(s);
    } else if e.Bitflip? {
      BitflipLeaves(s, e.bc);
    } else {
      OthersLeave(s, e);
    }
  }
}
