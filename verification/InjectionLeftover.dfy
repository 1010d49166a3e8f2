/** Two runs that complete with a flip still in a file: one captures its page too late, the other not at all. */
module InjectionLeftover {
  import opened BitOps
  import opened InjectionRun
  import opened Options

  /** What is left of a flip in a file. */
  predicate SameLeft(s: State, s': State)
  {
    s'.inverted == s.inverted && s'.restore == s.restore && s'.uncaptured == s.uncaptured && s'.late == s.late
  }

  ghost predicate Reachable(s: State) { exists run :: IsRun(run) && run[|run| - 1] == s }

  lemma StartsReachable(s: State)
    requires Init(s)
    ensures Reachable(s)
  {
    assert IsRun([s]) && [s][|[s]| - 1] == s;
  }

  lemma Go(s: State, e: Event) returns (s': State)
    requires Reachable(s) && Enabled(s, e)
    ensures s' == Apply(s, e) && Reachable(s')
  {
    hide Init, Enabled, Apply;
    s' := Apply(s, e);
    var run :| IsRun(run) && run[|run| - 1] == s;
    var longer := run + [s'];
    assert Step(s, s');
    forall i {:trigger longer[i + 1]} | 0 <= i < |longer| - 1 ensures Step(longer[i], longer[i + 1]) {
      if i < |run| - 1 {
        assert run[i + 1] == longer[i + 1];
      }
    }
    assert IsRun(longer) && longer[|longer| - 1] == s';
  }

  lemma GoClient(s: State) returns (s': State)
    requires Reachable(s) && ClientEnabled(s, Succeed)
    ensures Reachable(s') && s'.c == ClientNext(s, Succeed)
    ensures s'.running == (s.running || s.c.SendRunning?) && s'.p == s.p
    ensures s'.alive == ((s.alive || s.c.SendAlive?) && !s.c.KillAlive?)
    ensures s'.target == if s.c.SendExec? then Stopped else if s.c.SendCont? then Running else s.target
    ensures s'.m == if s.c.SendMonitor? then MLoopExit else s.m
    ensures s'.b == if s.c.SendBitflip? then BStart else s.b
    ensures s'.bitflipPtr == (s.bitflipPtr || s.c.SendBitflip?)
    ensures s'.bStop == s.bStop && SameLeft(s, s') && s'.done == (s.done && !s.c.SendMonitor?)
  {
    hide ClientNext, Reachable;
    s' := Go(s, Client(Succeed));
  }

  lemma GoMonitor(s: State) returns (s': State)
    requires Reachable(s) && MonitorEnabled(s)
    ensures Reachable(s') && s'.m == MonitorNext(s) && s'.b == s.b && s'.p == s.p
    ensures s'.inverted == (s.inverted && !(s.m.MRevert? && s.restore))
    ensures s'.uncaptured == s.uncaptured && s'.late == s.late
    ensures s'.restore == (s.restore && !s.m.MRevert?)
    ensures s'.bitflipPtr == (s.bitflipPtr && !s.m.MClearBitflip?)
    ensures s'.bStop == (s.bStop || s.m.MSetStop?)
    ensures s'.done == (s.done || s.m.MComplete?)
  {
    hide MonitorNext, Reachable;
    s' := Go(s, Monitor);
  }

  lemma GoBitflip(s: State, bc: BitflipChoice) returns (s': State)
    requires Reachable(s) && BitflipEnabled(s, bc)
    ensures Reachable(s') && s'.b == BitflipNext(s, bc) && s'.m == s.m && s'.p == s.p
    ensures s'.alive == s.alive && s'.target == s.target && s'.done == s.done
    ensures s'.bitflipPtr == s.bitflipPtr && s'.bStop == s.bStop
    ensures s'.inverted == (s.inverted || FlipsFile(bc))
    ensures s'.restore == (s.restore || (Capturing(s.b) && bc.Ok?))
    ensures s'.late == (s.late || (Capturing(s.b) && bc.Ok? && Order(s.m) > Order(MRevert)))
    ensures s'.uncaptured == (s.uncaptured || (Capturing(s.b) && bc.Error?))
  {
    hide BitflipNext, Reachable, FlipBit;
    s' := Go(s, Bitflip(bc));
  }

  lemma GoExit(s: State) returns (s': State)
    requires Reachable(s) && s.target == Running
    ensures Reachable(s') && s' == s.(target := Exited(0))
  {
    hide Reachable, ClientStep, MonitorStep, BitflipStep, ClientEnabled, MonitorEnabled, BitflipEnabled;
    s' := Go(s, Exit(0));
  }

  /** SEND has executed the target, which is still stopped. */
  lemma Executed() returns (s: State)
    ensures Reachable(s) && s.c.SendMonitor? && s.m.MNone? && s.b.BNone? && s.target == Stopped && s.alive
    ensures s.p == Params(false, false, false) && !s.bStop && !s.done
    ensures !s.inverted && !s.restore && !s.uncaptured && !s.late
  {
    hide Reachable, ClientStep, MonitorStep, BitflipStep;
    s := State(Params(false, false, false), SendCheck, false, false, None,
               false, false, false, false, false, false, false, false, false, Result(0, false, false, 0, 0, 0, 0),
               MNone, false, false, 0, BNone, false, false, 0, 0, false, 0, 0, Absent, false,
               0, false, [], false, false, false, [], false, 0);
    StartsReachable(s);
    s := GoClient(s);
    assert s.c.SendExec? && s.m.MNone?;
    s := GoClient(s);
    assert s.c.SendRunning?;
    s := GoClient(s);
    assert s.c.SendAlive?;
    s := GoClient(s);
    assert s.c.SendTargetPc?;
    s := GoClient(s);
  }

  /** SEND has started the threads and let the target go. */
  lemma Sent() returns (s: State)
    ensures Reachable(s) && s.m.MLoopExit? && s.b.BStart? && s.target == Running && s.alive
    ensures s.p == Params(false, false, false) && !s.bStop && s.bitflipPtr && !s.done
    ensures !s.inverted && !s.restore && !s.uncaptured && !s.late
  {
    hide Reachable, ClientStep, MonitorStep, BitflipStep;
    s := Executed();
    s := GoClient(s);
    s := GoClient(s);
    s := GoClient(s);
  }

  /** What the steps of the bitflip thread up to its flip, and after its capture, leave alone. */
  predicate SameElse(s: State, s': State)
  {
    && s'.m == s.m && s'.p == s.p && s'.alive == s.alive && s'.target == s.target && s'.done == s.done
    && s'.bitflipPtr == s.bitflipPtr && s'.bStop == s.bStop && SameLeft(s, s')
  }

  /** A step that succeeds, or chooses, and that flips and captures nothing. */
  lemma GoOn(s: State, bc: BitflipChoice) returns (s': State)
    requires Reachable(s) && BitflipEnabled(s, bc) && !bc.Flipped? && !Capturing(s.b)
    ensures Reachable(s') && s'.b == BitflipNext(s, bc) && SameElse(s, s')
  {
    hide Reachable, BitflipEnabled, BitflipNext;
    s' := GoBitflip(s, bc);
  }

  /** The injection routine starts. */
  lemma Delayed(s: State) returns (s': State)
    requires Reachable(s) && s.b.BStart? && s.p == Params(false, false, false) && !s.bStop && s.alive
    ensures Reachable(s') && s'.b.BCollect? && SameElse(s, s')
  {
    hide Reachable, ClientEnabled, MonitorEnabled, ClientStep, MonitorStep, BitflipStep, Pow, FlipBit, IsFlip;
    s' := GoOn(s, Ok);
    s' := GoOn(s', Ok);
    s' := GoOn(s', Ok);
    s' := DelayedFrom(s');
  }

  lemma DelayedFrom(s: State) returns (s': State)
    requires Reachable(s) && s.b.BCheckAlive? && !s.bStop && s.alive
    ensures Reachable(s') && s'.b.BCollect? && SameElse(s, s')
  {
    hide Reachable, ClientEnabled, MonitorEnabled, ClientStep, MonitorStep, BitflipStep, Pow, FlipBit, IsFlip;
    s' := GoOn(s, Ok);
    s' := GoOn(s', Ok);
  }

  /** It is about to flip. */
  lemma ChosenFrom(s: State) returns (s': State)
    requires Reachable(s) && s.b.BCollect? && !s.p.allThreads
    ensures Reachable(s') && s'.b.BFlip? && SameElse(s, s')
  {
    hide Reachable, ClientEnabled, MonitorEnabled, ClientStep, MonitorStep, BitflipStep, Pow, FlipBit, IsFlip;
    s' := GoOn(s, Ok);
    s' := GoOn(s', Pick(1));
    s' := StoppedFrom(s');
  }

  lemma StoppedFrom(s: State) returns (s': State)
    requires Reachable(s) && s.b.BPick? && !s.p.allThreads
    ensures Reachable(s') && s'.b.BFlip? && SameElse(s, s')
  {
    hide Reachable, ClientEnabled, MonitorEnabled, ClientStep, MonitorStep, BitflipStep, Pow, FlipBit, IsFlip;
    s' := GoOn(s, Ok);
    s' := GoOn(s', StopSent(0));
    s' := WaitedFrom(s');
  }

  lemma WaitedFrom(s: State) returns (s': State)
    requires Reachable(s) && s.b.BWaitStopped?
    ensures Reachable(s') && s'.b.BFlip? && SameElse(s, s')
  {
    hide Reachable, ClientEnabled, MonitorEnabled, ClientStep, MonitorStep, BitflipStep, Pow, FlipBit, IsFlip;
    s' := GoOn(s, Ok);
  }

  lemma AboutToFlip() returns (s: State)
    ensures Reachable(s) && s.m.MLoopExit? && s.b.BFlip? && s.target == Running
    ensures s.p == Params(false, false, false) && !s.bStop && s.bitflipPtr && !s.done
    ensures !s.inverted && !s.restore && !s.uncaptured && !s.late
  {
    hide Reachable;
    s := Sent();
    s := Delayed(s);
    s := ChosenFrom(s);
  }

  /** A bit of a byte in a file is inverted. */
  lemma InFile(s: State) returns (s': State)
    requires Reachable(s) && s.b.BFlip?
    ensures Reachable(s') && s'.b.BCapture? && s'.inverted && s'.restore == s.restore
    ensures s'.uncaptured == s.uncaptured && s'.late == s.late
    ensures s'.m == s.m && s'.p == s.p && s'.target == s.target && s'.done == s.done
    ensures s'.bitflipPtr == s.bitflipPtr && s'.bStop == s.bStop
  {
    hide Reachable, FlipBit;
    s' := GoBitflip(s, Flipped(0, 0, true, true));
  }

  /** The target exits, and the monitor looks for something to revert, in vain. */
  lemma LookedInVain(s: State) returns (s': State)
    requires Reachable(s) && s.m.MLoopExit? && s.target == Running && !s.restore
    ensures Reachable(s') && s'.m.MClearAlive? && s'.b == s.b && s'.p == s.p
    ensures s'.bStop == s.bStop && s'.bitflipPtr == s.bitflipPtr && s'.done == s.done && SameLeft(s, s')
  {
    hide Reachable;
    s' := GoExit(s);
    s' := GoMonitor(s');
    s' := GoMonitor(s');
  }

  /** The bitflip thread parks. */
  lemma Parked(s: State) returns (s': State)
    requires Reachable(s) && s.b.BMark?
    ensures Reachable(s') && s'.b.BParkCheck? && SameElse(s, s')
  {
    hide Reachable, ClientEnabled, MonitorEnabled, ClientStep, MonitorStep, BitflipStep, Pow, FlipBit, IsFlip;
    s' := GoOn(s, Ok);
    s' := ContinuedFrom(s');
  }

  lemma ContinuedFrom(s: State) returns (s': State)
    requires Reachable(s) && s.b.BCont?
    ensures Reachable(s') && s'.b.BParkCheck? && SameElse(s, s')
  {
    hide Reachable, ClientEnabled, MonitorEnabled, ClientStep, MonitorStep, BitflipStep, Pow, FlipBit, IsFlip;
    s' := GoOn(s, Ok);
    s' := ParkedFrom(s');
  }

  lemma ParkedFrom(s: State) returns (s': State)
    requires Reachable(s) && s.b.BClear?
    ensures Reachable(s') && s'.b.BParkCheck? && SameElse(s, s')
  {
    hide Reachable, ClientEnabled, MonitorEnabled, ClientStep, MonitorStep, BitflipStep, Pow, FlipBit, IsFlip;
    s' := GoOn(s, Ok);
    s' := GoOn(s', Elapsed(0));
  }

  /** The monitor goes through its stop handshake. */
  lemma Joining(s: State) returns (s': State)
    requires Reachable(s) && s.m.MClearAlive? && s.b.BParkCheck? && s.bitflipPtr && !s.done
    ensures Reachable(s') && s'.m.MJoin? && s'.b.BParkCheck? && s'.bStop
    ensures s'.p == s.p && SameLeft(s, s') && !s'.done
  {
    hide Reachable, FlipBit, ClientStep, MonitorStep, BitflipStep, ClientEnabled, BitflipEnabled;
    s' := s;
    while !s'.m.MJoin?
      invariant Reachable(s') && s'.p == s.p && s'.b == s.b && SameLeft(s, s') && s'.bitflipPtr && !s'.done
      invariant Order(MClearAlive) <= Order(s'.m) <= Order(MJoin)
      invariant Order(s'.m) > Order(MSetStop) ==> s'.bStop
      decreases Order(MJoin) - Order(s'.m)
    {
      s' := GoMonitor(s');
    }
  }

  /** And through the rest, once the thread has exited. */
  lemma Completed(s: State) returns (s': State)
    requires Reachable(s) && s.m.MJoin? && s.b.BExited? && !s.p.targetPc && !s.done
    ensures Reachable(s') && s'.done && SameLeft(s, s')
  {
    hide Reachable, FlipBit, ClientStep, MonitorStep, BitflipStep, ClientEnabled, BitflipEnabled;
    s' := s;
    while !s'.done
      invariant Reachable(s') && s'.p == s.p && s'.b == s.b && SameLeft(s, s')
      invariant Order(MJoin) <= Order(s'.m) <= Order(MClearPtr)
      invariant !s'.m.MFlush? && !s'.m.MDisarm?
      invariant s'.done <==> s'.m.MClearPtr?
      decreases Order(MClearPtr) - Order(s'.m)
    {
      s' := GoMonitor(s');
    }
  }

  lemma Finished(s: State) returns (s': State)
    requires Reachable(s) && s.m.MClearAlive? && s.b.BMark? && s.bitflipPtr && !s.done && !s.p.targetPc
    ensures Reachable(s') && s'.done && SameLeft(s, s')
  {
    hide Reachable, ClientEnabled, MonitorEnabled, ClientStep, MonitorStep, BitflipStep, Pow, FlipBit, IsFlip;
    s' := Parked(s);
    s' := Joining(s');
    s' := GoOn(s', Ok);
    s' := Completed(s');
  }

  /** A run can complete with its flip in the file because its page was captured after the revert. */
  lemma RevertCanBeMissed()
    ensures exists s :: Reachable(s) && s.done && s.inverted && s.late && !s.uncaptured
  {
    hide Reachable;
    var s := AboutToFlip();
    s := InFile(s);
    s := LookedInVain(s);
    s := GoBitflip(s, Ok);
    s := Finished(s);
  }

  /** And it can because the page could not be captured at all. */
  lemma CaptureCanFail()
    ensures exists s :: Reachable(s) && s.done && s.inverted && s.uncaptured && !s.late
  {
    hide Reachable;
    var s := AboutToFlip();
    s := InFile(s);
    s := GoBitflip(s, Error);
    s := LookedInVain(s);
    s := Finished(s);
  }
}
