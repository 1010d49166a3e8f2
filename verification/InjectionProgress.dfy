/** Why the stop handshake finishes, and why a run whose target is gone always completes. */
module InjectionProgress {
  import opened BitOps
  import opened InjectionRun
  import opened Options
  import opened InjectionSafety

  // ---------- the stop handshake ----------

  /** Where the bitflip thread is on its way out, once it has been told to stop. */
  function StopRank(b: BitflipPc): nat
  {
    match b
    case BStart => 60 case BMode => 59
    case BWaitSched => 56 case BWaitSet => 55 case BWaitCond => 54 case BWoken => 42 case BAlive => 41
    case BSleep => 40 case BCheckAlive => 39 case BCheckStop => 38
    case BCollect => 37 case BChoose => 36 case BPick => 35 case BGroupStop => 34 case BWaitStopped => 33
    case BFlip => 32 case BCapture => 31 case BMark => 30 case BAllLoop => 30 case BAllCapture => 30
    case BCont => 29 case BClear => 28 case BOut => 27
    case BParkSched => 19 case BParkCheck => 18 case BParkSet => 17 case BParkCheck2 => 16
    case BNone => 0 case BExited => 0
  }

  /** The ticks and threads that are left to wait for, each with its flip and its capture. */
  function Remaining(s: State): nat { 2 * s.budget + if s.b.BAllCapture? then 1 else 0 }

  predicate Lower(a: nat, b: nat, a': nat, b': nat) { a' < a || (a' == a && b' < b) }

  /** While the monitor waits for it to exit, the bitflip thread can always go on: it never sleeps through the stop. */
  lemma NeverLeftAsleep(s: State)
    requires Inv(s) && s.m.MJoin? && !s.b.BExited?
    ensures exists bc :: BitflipEnabled(s, bc)
  {
    hide Pow, FlipBit, OneBitApart;
    assert s.bStop;
    if s.b.BChoose? {
      assert BitflipEnabled(s, Pick(0));
    } else if s.b.BGroupStop? || s.b.BFlip? {
      assert BitflipEnabled(s, Error);
    } else if s.b.BOut? {
      assert BitflipEnabled(s, Elapsed(0));
    } else {
      assert BitflipEnabled(s, Ok);
    }
  }

  /** A step that waits for another tick, or that deals with one thread of the group. */
  predicate Spends(s: State, bc: BitflipChoice)
  {
    (s.b.BWaitStopped? && bc.Elapsed?) || (s.b.BAllLoop? && !bc.Ok?) || s.b.BAllCapture?
  }

  lemma SpendingLeavesLess(s: State, bc: BitflipChoice)
    requires BitflipEnabled(s, bc) && Spends(s, bc)
    ensures StopRank(BitflipNext(s, bc)) == StopRank(s.b) && Remaining(BitflipStep(s, bc)) < Remaining(s)
  {
    hide Pow, FlipBit, BitflipStep, BitflipResult;
    BitflipMoves(s, bc);
  }

  /** The two loops in which the thread announces that it will sleep, tests and sleeps. */
  predicate InWait(b: BitflipPc) { OnFlipQueue(b) || b.BParkCheck? || b.BParkSet? || b.BParkCheck2? || b.BParkSched? }

  lemma NextIsLower(s: State, bc: BitflipChoice)
    requires BitflipEnabled(s, bc) && !Spends(s, bc) && (s.bStop || !InWait(s.b))
    ensures StopRank(BitflipNext(s, bc)) < StopRank(s.b)
  {
    hide Pow, FlipBit, IsFlip;
  }

  lemma BitflipStopsSooner(s: State, bc: BitflipChoice)
    requires s.bStop && BitflipEnabled(s, bc)
    ensures BitflipStep(s, bc).bStop
    ensures Lower(StopRank(s.b), Remaining(s), StopRank(BitflipStep(s, bc).b), Remaining(BitflipStep(s, bc)))
  {
    hide Pow, FlipBit, BitflipEnabled, BitflipStep, BitflipNext, BitflipResult, StopRank, Remaining, Spends;
    BitflipLeaves(s, bc);
    BitflipMoves(s, bc);
    if Spends(s, bc) {
      SpendingLeavesLess(s, bc);
    } else {
      NextIsLower(s, bc);
    }
  }

  lemma ClientLetsStop(s: State, cc: ClientChoice)
    requires SendInv(s) && StopInv(s) && s.bStop && ClientEnabled(s, cc)
    ensures var s' := ClientStep(s, cc); s'.bStop && s'.b == s.b && s'.budget == s.budget
  {
  }

  lemma MonitorLetsStop(s: State)
    requires s.bStop && MonitorEnabled(s)
    ensures var s' := MonitorStep(s); s'.bStop && s'.b == s.b && s'.budget == s.budget
  {
  }

  /** Each step of the bitflip thread brings it closer to its exit, and no step of another thread moves it away. */
  lemma StopComesCloser(s: State, e: Event)
    requires Inv(s) && s.bStop && Enabled(s, e)
    ensures Apply(s, e).bStop
    ensures e.Bitflip? ==> Lower(StopRank(s.b), Remaining(s), StopRank(Apply(s, e).b), Remaining(Apply(s, e)))
    ensures !e.Bitflip? ==> Apply(s, e).b == s.b && Remaining(Apply(s, e)) == Remaining(s)
  {
    hide SendInv, MonitorInv, StopInv, ProbeInv, ExitInv, FlipInv, SignalInv, RevertInv, WakeInv;
    hide ClientEnabled, MonitorEnabled, BitflipEnabled, ClientStep, MonitorStep, BitflipStep, StopRank, Lower;
    match e
    case Client(cc) => ClientLetsStop(s, cc);
    case Monitor => MonitorLetsStop(s);
    case Bitflip(bc) => BitflipStopsSooner(s, bc);
    case _ =>
  }

  // ---------- the whole shutdown ----------

  /** The target is gone, or the monitor has been told to stop. */
  predicate Ending(s: State) { s.sent && (s.target.Exited? || s.mStop) }

  /** Steps that the kernel takes by itself. */
  predicate Internal(e: Event) { e.Monitor? || e.Bitflip? || e.Work? || e.HandlerTrigger? || e.HandlerPost? }

  function MonitorRank(s: State): nat
  {
    match s.m
    case MLoopStop => if s.mStop then 28 else 31
    case MSleep => 30
    case MLoopExit => 29
    case _ => 31 - Order(s.m)
  }

  /** Like StopRank, but for a thread that may also go to sleep and be woken. */
  function BitflipRank(s: State): nat
  {
    match s.b
    case BWaitCond => if s.asleep then 54 else 57
    case BWaitSched => if s.asleep then 53 else 56
    case BParkCheck2 => if s.asleep then 16 else 20
    case BParkSched => if s.asleep then 15 else 19
    case _ => StopRank(s.b)
  }

  function HandlerRank(s: State): nat { 2 * s.entered + s.triggered }

  function WorkRank(s: State): nat { if s.work then 1 else 0 }

  /** The measure of what is left to do, compared lexicographically. */
  predicate LessToDo(s: State, s': State)
  {
    || MonitorRank(s') < MonitorRank(s)
    || (MonitorRank(s') == MonitorRank(s) &&
        (|| HandlerRank(s') < HandlerRank(s)
         || (HandlerRank(s') == HandlerRank(s) &&
             (|| WorkRank(s') < WorkRank(s)
              || (WorkRank(s') == WorkRank(s) &&
                  Lower(BitflipRank(s), Remaining(s), BitflipRank(s'), Remaining(s')))))))
  }

  lemma MonitorComesCloser(s: State)
    requires Inv(s) && Ending(s) && MonitorEnabled(s)
    ensures Ending(MonitorStep(s)) && MonitorRank(MonitorStep(s)) < MonitorRank(s)
  {
    hide Pow, FlipBit, OneBitApart, StopInv, ProbeInv, FlipInv, SignalInv, RevertInv, WakeInv, MonitorStep;
    MonitorLeaves(s);
    MonitorMoves(s);
    if s.m.MLoopExit? || s.m.MLoopStop? || s.m.MSleep? {
    } else {
      assert Order(MonitorNext(s)) > Order(s.m);
    }
  }

  lemma WaitComesCloser(s: State, bc: BitflipChoice)
    requires BitflipEnabled(s, bc) && InWait(s.b)
    ensures BitflipRank(BitflipStep(s, bc)) < BitflipRank(s)
  {
  }

  lemma OutsideTheWait(s: State, bc: BitflipChoice)
    requires BitflipEnabled(s, bc) && !InWait(s.b)
    ensures var b' := BitflipNext(s, bc); !b'.BWaitCond? && !b'.BWaitSched? && !b'.BParkCheck2? && !b'.BParkSched?
  {
    hide Pow, FlipBit, IsFlip;
  }

  lemma OtherComesCloser(s: State, bc: BitflipChoice)
    requires BitflipEnabled(s, bc) && !InWait(s.b)
    ensures Lower(StopRank(s.b), Remaining(s), StopRank(BitflipNext(s, bc)), Remaining(BitflipStep(s, bc)))
  {
    hide Pow, FlipBit, BitflipEnabled, BitflipStep, BitflipNext, BitflipResult, StopRank, Remaining, Spends;
    if Spends(s, bc) {
      SpendingLeavesLess(s, bc);
    } else {
      NextIsLower(s, bc);
    }
  }

  lemma BitflipComesCloser(s: State, bc: BitflipChoice)
    requires BitflipEnabled(s, bc)
    ensures Lower(BitflipRank(s), Remaining(s), BitflipRank(BitflipStep(s, bc)), Remaining(BitflipStep(s, bc)))
  {
    hide Pow, FlipBit, BitflipStep, BitflipResult, BitflipNext, BitflipEnabled, StopRank;
    BitflipMoves(s, bc);
    if InWait(s.b) {
      WaitComesCloser(s, bc);
    } else {
      OutsideTheWait(s, bc);
      OtherComesCloser(s, bc);
    }
  }

  /** Every internal step leaves less to do. */
  lemma InternalComesCloser(s: State, e: Event)
    requires Inv(s) && Ending(s) && Enabled(s, e) && Internal(e)
    ensures Ending(Apply(s, e)) && LessToDo(s, Apply(s, e))
  {
    hide Pow, FlipBit, Inv, BitflipRank;
    if e.Monitor? {
      MonitorComesCloser(s);
    } else if e.Bitflip? {
      BitflipComesCloser(s, e.bc);
    }
  }

  /** The client and the dying target do not add anything; and there are no more hits. */
  lemma EnvironmentAddsNothing(s: State, e: Event)
    requires Inv(s) && Ending(s) && Enabled(s, e) && !Internal(e)
    ensures !e.Hit?
    ensures var s' := Apply(s, e);
      && Ending(s') && MonitorRank(s') <= MonitorRank(s)
      && HandlerRank(s') == HandlerRank(s) && WorkRank(s') == WorkRank(s)
      && BitflipRank(s') == BitflipRank(s) && Remaining(s') == Remaining(s)
  {
    hide Pow, FlipBit, OneBitApart, FlipInv, SignalInv, RevertInv, WakeInv;
  }

  /** As long as the run is not done some internal step is possible: there is no deadlock. */
  lemma NoDeadlock(s: State)
    requires Inv(s) && Ending(s) && !s.done
    ensures exists e :: Internal(e) && Enabled(s, e)
  {
    hide Pow, FlipBit, OneBitApart, FlipInv, SignalInv, RevertInv;
    if MonitorEnabled(s) {
      assert Enabled(s, Monitor);
    } else if s.entered > 0 {
      assert Enabled(s, HandlerTrigger);
    } else if s.triggered > 0 {
      assert Enabled(s, HandlerPost);
    } else if s.work {
      assert Enabled(s, Work);
    } else {
      assert s.m.MJoin?;
      NeverLeftAsleep(s);
      var bc :| BitflipEnabled(s, bc);
      assert Enabled(s, Bitflip(bc));
    }
  }

  // ---------- runs without end ----------

  /** An endless run: the state at each moment, and the event that happens then, if any. */
  ghost predicate IsEndless(run: nat -> State, event: nat -> Option<Event>)
  {
    && Init(run(0))
    && forall n: nat {:trigger event(n)} ::
         match event(n)
         case None => run(n + 1) == run(n)
         case Some(e) => Enabled(run(n), e) && run(n + 1) == Apply(run(n), e)
  }

  predicate TakesInternal(e: Option<Event>) { e.Some? && Internal(e.value) }

  /** When the kernel can take a step, it takes one sooner or later; which one, and what else happens, is open. */
  ghost predicate NotStarved(run: nat -> State, event: nat -> Option<Event>)
  {
    forall n: nat {:trigger run(n)} :: CanGoOn(run(n)) ==> exists m: nat :: n <= m && TakesInternal(event(m))
  }

  ghost predicate CanGoOn(s: State) { exists e :: Internal(e) && Enabled(s, e) }

  lemma {:induction false} EndlessInv(run: nat -> State, event: nat -> Option<Event>, n: nat)
    requires IsEndless(run, event)
    ensures Inv(run(n))
  {
    hide Init, Inv, Enabled, Apply;
    if n == 0 {
      InitInv(run(0));
    } else {
      EndlessInv(run, event, n - 1);
      match event(n - 1)
      case None =>
      case Some(e) => StepKeeps(run(n - 1), e);
    }
  }

  lemma NextStep(run: nat -> State, event: nat -> Option<Event>, n: nat) returns (m: nat)
    requires NotStarved(run, event) && Inv(run(n)) && Ending(run(n)) && !run(n).done
    ensures n <= m && TakesInternal(event(m))
  {
    hide TakesInternal, Internal, Enabled, Inv, Ending;
    NoDeadlock(run(n));
    assert CanGoOn(run(n));
    m :| n <= m && TakesInternal(event(m));
  }

  lemma EndlessStep(run: nat -> State, event: nat -> Option<Event>, n: nat)
    requires IsEndless(run, event)
    ensures match event(n)
            case None => run(n + 1) == run(n)
            case Some(e) => Enabled(run(n), e) && run(n + 1) == Apply(run(n), e)
  {
  }

  /** By induction on what is left to do, and on how long the kernel waits before its next step. */
  lemma {:induction false} Comes(run: nat -> State, event: nat -> Option<Event>, n: nat, m: nat) returns (end: nat)
    requires IsEndless(run, event) && NotStarved(run, event) && Ending(run(n))
    requires n <= m && TakesInternal(event(m))
    ensures n <= end && run(end).done && Ending(run(end))
    decreases MonitorRank(run(n)), HandlerRank(run(n)), WorkRank(run(n)), BitflipRank(run(n)), Remaining(run(n)), m - n
  {
    hide Init, Inv, Enabled, Apply, Ending, Internal;
    hide MonitorRank, HandlerRank, WorkRank, BitflipRank, StopRank, Remaining;
    hide IsEndless, NotStarved;
    if run(n).done {
      return n;
    }
    EndlessInv(run, event, n);
    EndlessStep(run, event, n);
    if event(n) == None {
      end := Comes(run, event, n + 1, m);
    } else {
      end := ComesAfter(run, event, n, m, event(n).value);
    }
  }

  lemma {:induction false} ComesAfter(run: nat -> State, event: nat -> Option<Event>, n: nat, m: nat, e: Event)
    returns (end: nat)
    requires IsEndless(run, event) && NotStarved(run, event) && Ending(run(n)) && !run(n).done
    requires n <= m && TakesInternal(event(m)) && Inv(run(n))
    requires event(n) == Some(e) && Enabled(run(n), e) && run(n + 1) == Apply(run(n), e)
    ensures n <= end && run(end).done && Ending(run(end))
    decreases MonitorRank(run(n)), HandlerRank(run(n)), WorkRank(run(n)), BitflipRank(run(n)), Remaining(run(n)),
              m - n, 0
  {
    hide Init, Inv, Enabled, Apply, Ending, Internal;
    hide MonitorRank, HandlerRank, WorkRank, BitflipRank, StopRank, Remaining;
    hide IsEndless, NotStarved;
    if Internal(e) {
      InternalComesCloser(run(n), e);
      if run(n + 1).done {
        return n + 1;
      }
      EndlessInv(run, event, n + 1);
      var next := NextStep(run, event, n + 1);
      end := Comes(run, event, n + 1, next);
    } else {
      EnvironmentAddsNothing(run(n), e);
      end := Comes(run, event, n + 1, m);
    }
  }

  /**
   Once the target is gone, or the monitor told to stop, the run is completed, whatever the order in which the
   threads, the client and the handlers take their steps; then its threads have finished and RECEIVE returns its result.
   */
  lemma ShutdownCompletes(run: nat -> State, event: nat -> Option<Event>, n: nat)
    requires IsEndless(run, event) && NotStarved(run, event) && Ending(run(n))
    ensures exists end: nat :: n <= end && Receivable(run(end))
  {
    hide *;
    hide SendInv, MonitorInv, StopInv, ProbeInv;
    var end := n;
    if !run(n).done {
      EndlessInv(run, event, n);
      var m := NextStep(run, event, n);
      end := Comes(run, event, n, m);
    }
    EndlessInv(run, event, end);
    InvParts(run(end));
    DoneIsReceived(run(end));
  }

  /** Nothing of the run is left, and a polling client receives its result. */
  predicate Receivable(d: State)
  {
    && d.done && (d.b.BNone? || d.b.BExited?) && !d.uprobe && !d.alive && !d.running
    && (d.c.Poll? ==> ClientEnabled(d, Receive)
                        && ClientStep(d, Receive).c.Done? && ClientStep(d, Receive).received == Some(d.result))
  }

  lemma DoneIsOver(d: State)
    requires SendInv(d) && MonitorInv(d) && StopInv(d) && ProbeInv(d) && d.done
    ensures (d.b.BNone? || d.b.BExited?) && !d.uprobe && !d.alive && !d.running
  {
  }

  lemma DoneIsReceived(d: State)
    requires SendInv(d) && MonitorInv(d) && StopInv(d) && ProbeInv(d) && d.done
    ensures Receivable(d)
  {
    hide SendInv, MonitorInv, StopInv, ProbeInv, Order;
    DoneIsOver(d);
  }
}
