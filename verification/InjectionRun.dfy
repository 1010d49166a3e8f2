/**
 One injection run of the kernel module, as a transition system.  Its threads are the client (one file
 descriptor, following `run_send_and_poll`), the monitor, the bitflip thread, the disarm work, the uprobe
 handlers that run in the target, and the target itself.  A step of a thread is one access to what the
 threads share, or one call that the kernel makes atomic.  For each thread a `...Next` function gives the
 location that follows, and a `...Step` function what each field becomes when the thread leaves its location.
 */
module InjectionRun {
  import opened BitOps
  import opened Options
  import opened Signals

  // ---------- data ----------

  datatype Params = Params(noInjection: bool, targetPc: bool, allThreads: bool)

  /** The fields of `fij_result` that the run writes. */
  datatype Result = Result(exitCode: int, hanged: bool, fault: bool, tgid: int, before: nat, after: nat, time: nat)

  datatype Target = Absent | Stopped | Running | Exited(code: int)

  /** The client inside SEND, inside KILL, or polling. */
  datatype ClientPc =
    | SendCheck | SendExec | SendRunning | SendAlive | SendTargetPc | SendMonitor | SendBitflip | SendArm | SendCont
    | SendFailed
    | Poll
    | KillCheck | KillSignal | KillAlive | KillRead | KillStop | KillJoin
    | Done

  datatype MonitorPc =
    | MNone
    | MLoopExit | MLoopStop | MSleep
    | MRevert | MClearAlive | MCheckBitflip
    | MWakeAll | MWakeThread | MWakeQueue | MSetStop | MWakeStop | MJoin | MClearBitflip | MClearRunning0
    | MCheckPc | MFlush | MDisarm
    | MSetCode | MClearRunning | MComplete | MClearPtr
    | MExited

  datatype BitflipPc =
    | BNone
    | BStart | BMode
    | BWaitSet | BWaitCond | BWaitSched | BWoken | BAlive
    | BSleep | BCheckAlive | BCheckStop
    | BCollect | BChoose | BPick | BGroupStop | BWaitStopped | BFlip | BCapture | BMark | BAllLoop | BAllCapture | BCont
    | BClear | BOut
    | BParkCheck | BParkSet | BParkCheck2 | BParkSched
    | BExited

  datatype State = State(
    p: Params,
    // the client
    c: ClientPc, sent: bool, killed: bool, received: Option<Result>,
    // shared fields of the context
    running: bool, alive: bool, done: bool, monitorPtr: bool, bitflipPtr: bool,
    trigger: bool, uprobe: bool, queued: bool, restore: bool, result: Result,
    // the monitor: program counter, stop flag, local variables
    m: MonitorPc, mStop: bool, mExited: bool, mCode: int,
    // the bitflip thread: program counter, stop flag, whether it would sleep, local variables
    b: BitflipPc, bStop: bool, asleep: bool, ret: int, budget: nat,
    // the disarm work, and the handlers before and after their exchange of the trigger
    work: bool, entered: nat, triggered: nat,
    target: Target, killPending: bool,
    // history: bits flipped in the target, whether one of them is in its memory, stop and continue signals sent
    flips: nat, memFlipped: bool, signals: seq<Signal>,
    // history: a flip in a file that nothing has written back, a capture that failed, a capture after the revert
    inverted: bool, uncaptured: bool, late: bool,
    // history: the tests and calls that the bitflip thread has passed, whether one has failed, triggers by the probe
    calls: seq<BitflipPc>, refused: bool, hits: nat)

  const SIGKILL := 9

  predicate Init(s: State)
  {
    && s.c.SendCheck? && !s.sent && !s.killed && s.received == None
    && !s.running && !s.alive && !s.done && !s.monitorPtr && !s.bitflipPtr
    && !s.trigger && !s.uprobe && !s.queued && !s.restore && s.result == Result(0, false, false, 0, 0, 0, 0)
    && s.m.MNone? && !s.mStop && !s.mExited && s.mCode == 0
    && s.b.BNone? && !s.bStop && !s.asleep && s.ret == 0 && s.budget == 0
    && !s.work && s.entered == 0 && s.triggered == 0
    && s.target == Absent && !s.killPending
    && s.flips == 0 && !s.memFlipped && s.signals == [] && !s.inverted && !s.uncaptured && !s.late
    && s.calls == [] && !s.refused && s.hits == 0
  }

  // ---------- the client ----------

  datatype ClientChoice = Succeed | Fail | Receive | Kill

  predicate ClientEnabled(s: State, e: ClientChoice)
  {
    match s.c
    case SendCheck | SendRunning | SendAlive => e.Succeed?
    case SendExec | SendTargetPc | SendMonitor | SendBitflip | SendArm | SendCont => e.Succeed? || e.Fail?
    case SendFailed | Done => false
    // at most one kill, and none in a run without injection
    case Poll => e.Receive? || (e.Kill? && !s.killed && !s.p.noInjection)
    // the signal cannot be sent only if the target is gone
    case KillSignal => e.Succeed? || (e.Fail? && s.target.Exited?)
    case KillJoin => e.Succeed? && s.m.MExited?
    case KillCheck | KillAlive | KillRead | KillStop => e.Succeed?
  }

  function ClientNext(s: State, e: ClientChoice): ClientPc
  {
    match s.c
    case SendCheck => if s.running then SendFailed else SendExec
    case SendExec => if e.Fail? then SendFailed else SendRunning
    case SendRunning => SendAlive
    case SendAlive => SendTargetPc
    case SendTargetPc => if e.Fail? then SendFailed else SendMonitor
    case SendMonitor => if e.Fail? then SendFailed else if s.p.noInjection then SendCont else SendBitflip
    case SendBitflip => if e.Fail? then SendFailed else if s.p.targetPc then SendArm else SendCont
    case SendArm => if e.Fail? then SendFailed else SendCont
    case SendCont => if e.Fail? then SendFailed else Poll
    case Poll => if e.Kill? then KillCheck else if s.done then Done else Poll
    case KillCheck => if s.running then KillSignal else Poll
    case KillSignal => if e.Succeed? then KillAlive else KillRead
    case KillAlive => KillRead
    case KillRead => if s.monitorPtr then KillStop else Poll
    case KillStop => KillJoin
    case KillJoin => Poll
    case SendFailed => SendFailed
    case Done => Done
  }

  function ClientStep(s: State, e: ClientChoice): State
    requires ClientEnabled(s, e)
  {
    var ok := e.Succeed?;
    var failed := e.Fail? && !s.c.KillSignal?;
    s.(c := ClientNext(s, e),
       sent := s.sent || (s.c.SendCont? && ok),
       killed := s.killed || e.Kill?,
       received := if s.c.Poll? && e.Receive? && s.done then Some(s.result) else s.received,
       running := (s.running || s.c.SendRunning?) && !failed,
       alive := (s.alive || s.c.SendAlive?) && !s.c.KillAlive?,
       target := if s.c.SendExec? && ok then Stopped else if s.c.SendCont? && ok then Running else s.target,
       // starting the monitor
       done := s.done && !s.c.SendMonitor?,
       m := if s.c.SendMonitor? && ok then MLoopExit else s.m,
       monitorPtr := s.monitorPtr || (s.c.SendMonitor? && ok),
       // starting the bitflip thread, arming the probe
       trigger := s.trigger && !s.c.SendBitflip?,
       b := if s.c.SendBitflip? && ok then BStart else s.b,
       bitflipPtr := s.bitflipPtr || (s.c.SendBitflip? && ok),
       uprobe := s.uprobe || (s.c.SendArm? && ok),
       // killing the target, stopping the monitor
       killPending := s.killPending || (s.c.KillSignal? && ok),
       mStop := s.mStop || s.c.KillStop?)
  }

  // ---------- the monitor ----------

  /** The bitflip thread sleeps on `flip_wq` only while it waits for the trigger. */
  predicate OnFlipQueue(b: BitflipPc) { b.BWaitSet? || b.BWaitCond? || b.BWaitSched? }

  predicate MonitorEnabled(s: State)
  {
    match s.m
    case MNone | MExited => false
    case MJoin => s.b.BExited?
    case MFlush => !s.work
    case MDisarm => s.uprobe ==> s.entered == 0 && s.triggered == 0
    case _ => true
  }

  function MonitorNext(s: State): MonitorPc
  {
    match s.m
    case MLoopExit => if s.target.Exited? then MRevert else MLoopStop
    case MLoopStop => if s.mStop then MRevert else MSleep
    case MSleep => MLoopExit
    case MRevert => MClearAlive
    case MClearAlive => MCheckBitflip
    case MCheckBitflip => if s.bitflipPtr then MWakeAll else MCheckPc
    case MWakeAll => MWakeThread
    case MWakeThread => MWakeQueue
    case MWakeQueue => MSetStop
    case MSetStop => MWakeStop
    case MWakeStop => MJoin
    case MJoin => MClearBitflip
    case MClearBitflip => MClearRunning0
    case MClearRunning0 => MCheckPc
    case MCheckPc => if s.p.targetPc then MFlush else MSetCode
    case MFlush => MDisarm
    case MDisarm => MSetCode
    case MSetCode => MClearRunning
    case MClearRunning => MComplete
    case MComplete => MClearPtr
    case MClearPtr => MExited
    case MNone => MNone
    case MExited => MExited
  }

  /** The monitor sees that the target has exited, or is told to stop before it has. */
  predicate SeesExit(s: State) { s.m.MLoopExit? && s.target.Exited? }

  predicate ToldToStop(s: State) { s.m.MLoopStop? && s.mStop }

  function MonitorStep(s: State): State
    requires MonitorEnabled(s)
  {
    s.(m := MonitorNext(s),
       mExited := s.mExited || SeesExit(s),
       mCode := if SeesExit(s) then s.target.code else if ToldToStop(s) then SIGKILL else s.mCode,
       result := s.result.(hanged := s.result.hanged || ToldToStop(s),
                           exitCode := if s.m.MSetCode? then s.mCode else s.result.exitCode),
       // writing back what was captured
       restore := s.restore && !s.m.MRevert?,
       inverted := s.inverted && !(s.m.MRevert? && s.restore),
       alive := s.alive && !s.m.MClearAlive?,
       // the stop handshake
       asleep := s.asleep && !s.m.MWakeThread? && !s.m.MWakeStop?
                 && !((s.m.MWakeAll? || s.m.MWakeQueue?) && OnFlipQueue(s.b)),
       bStop := s.bStop || s.m.MSetStop?,
       bitflipPtr := s.bitflipPtr && !s.m.MClearBitflip?,
       running := s.running && !s.m.MClearRunning0? && !s.m.MClearRunning?,
       // disarming
       uprobe := s.uprobe && !s.m.MDisarm?,
       queued := s.queued && !s.m.MDisarm?,
       done := s.done || s.m.MComplete?,
       monitorPtr := s.monitorPtr && !s.m.MClearPtr?)
  }

  // ---------- the bitflip thread ----------

  /** What the environment decides: whether a call succeeds, random choices, and what was read. */
  datatype BitflipChoice =
    | Ok | Error
    | Pick(tgid: int)
    | StopSent(budget: nat)
    | Flipped(before: nat, bit: nat, memory: bool, file: bool)
    | Elapsed(time: nat)

  /** A flip is one of the 64 bits of a register or one of the 8 bits of a byte of memory, which a file may back. */
  predicate IsFlip(e: BitflipChoice)
  {
    && e.Flipped? && (e.file ==> e.memory)
    && if e.memory then e.bit < 8 && e.before < Pow(8) else e.bit < 64 && e.before < Pow(64)
  }

  predicate FlipsFile(e: BitflipChoice) { e.Flipped? && e.file }

  predicate Capturing(b: BitflipPc) { b.BCapture? || b.BAllCapture? }

  predicate BitflipEnabled(s: State, e: BitflipChoice)
  {
    match s.b
    case BNone | BExited => false
    case BWaitSched | BParkSched => e.Ok? && !s.asleep
    case BSleep | BCollect | BPick => e.Ok? || e.Error?
    // stopped, given up, or looking again after a tick
    case BWaitStopped => e.Ok? || e.Error? || (e.Elapsed? && !s.bStop && s.budget > 0)
    case BChoose => e.Pick?
    case BGroupStop => e.Error? || e.StopSent?
    case BFlip => e.Error? || IsFlip(e)
    // the lock may be busy, and the page may not be pinned
    case BCapture | BAllCapture => e.Ok? || e.Error?
    // every thread of the group is waited for and perhaps flipped, memory at most once; the thread list is finite
    case BAllLoop => e.Ok? || (s.budget > 0 && (e.Error? || (IsFlip(e) && (e.memory ==> !s.memFlipped))))
    case BOut => e.Elapsed?
    case _ => e.Ok?
  }

  /** What the thread tests, or asks of the kernel, on its way to the flip is granted. */
  predicate Passes(s: State, e: BitflipChoice)
  {
    match s.b
    case BStart | BWoken | BCheckStop => !s.bStop
    case BAlive | BCheckAlive => s.alive
    case BSleep | BCollect | BPick | BWaitStopped => e.Ok?
    case BChoose => e.Pick?
    case BGroupStop => e.StopSent?
    case BFlip => e.Flipped?
    case _ => false
  }

  /** It is refused. */
  predicate Refuses(s: State, e: BitflipChoice)
  {
    match s.b
    case BStart | BWoken | BCheckStop => s.bStop
    case BAlive | BCheckAlive => !s.alive
    case BSleep | BCollect | BPick | BGroupStop | BWaitStopped | BFlip => e.Error?
    case _ => false
  }

  const EFAIL := -1

  function BitflipNext(s: State, e: BitflipChoice): BitflipPc
  {
    match s.b
    // a thread that is told to stop before it first runs never calls its function
    case BStart => if s.bStop then BExited else BMode
    case BMode => if s.p.targetPc then BWaitSet else BSleep
    // wait_event: announce, test, sleep
    case BWaitSet => BWaitCond
    case BWaitCond => if s.trigger || s.bStop then BWoken else BWaitSched
    case BWaitSched => BWaitSet
    case BWoken => if s.bStop then BOut else BAlive
    case BAlive => if s.alive then BCollect else BOut
    // the random delay, unless it is interrupted
    case BSleep => if e.Ok? then BCheckAlive else BOut
    case BCheckAlive => if s.alive then BCheckStop else BOut
    case BCheckStop => if s.bStop then BOut else BCollect
    // the injection routine
    case BCollect => if e.Ok? then BChoose else BClear
    case BChoose => if s.p.allThreads then BGroupStop else BPick
    case BPick => if e.Ok? then BGroupStop else BClear
    case BGroupStop => if e.Error? then BClear else if s.p.allThreads then BAllLoop else BWaitStopped
    case BWaitStopped => if e.Ok? then BFlip else if e.Error? then BMark else BWaitStopped
    case BFlip => if FlipsFile(e) then BCapture else BMark
    case BCapture => BMark
    case BMark => BCont
    case BAllLoop => if e.Ok? then BCont else if FlipsFile(e) then BAllCapture else BAllLoop
    case BAllCapture => BAllLoop
    case BCont => BClear
    case BClear => BOut
    case BOut => BParkCheck
    // parking until the thread is told to stop
    case BParkCheck => if s.bStop then BExited else BParkSet
    case BParkSet => BParkCheck2
    case BParkCheck2 => if s.bStop then BExited else BParkSched
    case BParkSched => BParkCheck
    case BNone => BNone
    case BExited => BExited
  }

  /** The result after the step: target chosen, bit flipped, fault reported, time of the injection. */
  function BitflipResult(s: State, e: BitflipChoice): Result
    requires BitflipEnabled(s, e)
  {
    s.result.(tgid := if s.b.BChoose? then e.tgid else s.result.tgid,
              before := if e.Flipped? then e.before else s.result.before,
              after := if e.Flipped? then FlipBit(e.before, e.bit) else s.result.after,
              fault := s.result.fault || (s.b.BMark? && s.ret == 0),
              time := if s.b.BOut? then e.time else s.result.time)
  }

  function BitflipStep(s: State, e: BitflipChoice): State
    requires BitflipEnabled(s, e)
  {
    s.(b := BitflipNext(s, e),
       asleep := s.b.BWaitSet? || s.b.BParkSet? || (s.asleep && !(s.b.BWaitCond? && (s.trigger || s.bStop))),
       ret := if s.b.BFlip? && e.Flipped? then 0
              else if (s.b.BFlip? || s.b.BWaitStopped?) && e.Error? then EFAIL else s.ret,
       budget := if e.StopSent? then e.budget
                 else if (s.b.BWaitStopped? && e.Elapsed?) || (s.b.BAllLoop? && !e.Ok?) then s.budget - 1 else s.budget,
       result := BitflipResult(s, e),
       flips := if e.Flipped? then s.flips + 1 else s.flips,
       memFlipped := s.memFlipped || (e.Flipped? && e.memory),
       // a flip in a file, and the attempt to capture its page
       inverted := s.inverted || FlipsFile(e),
       restore := s.restore || (Capturing(s.b) && e.Ok?),
       late := s.late || (Capturing(s.b) && e.Ok? && Order(s.m) > Order(MRevert)),
       uncaptured := s.uncaptured || (Capturing(s.b) && e.Error?),
       calls := if Passes(s, e) then s.calls + [s.b] else s.calls,
       refused := s.refused || Refuses(s, e),
       signals := if e.StopSent? then s.signals + [Stop(s.result.tgid)]
                  else if s.b.BCont? then s.signals + [Cont(s.result.tgid)] else s.signals,
       trigger := s.trigger && !(s.b.BClear? && s.p.targetPc))
  }

  // ---------- uprobe handlers, disarm work, target ----------

  datatype Event =
    | Client(cc: ClientChoice)
    | Monitor
    | Bitflip(bc: BitflipChoice)
    | Work
    | Hit
    | HandlerTrigger
    | HandlerPost
    | Exit(code: int)

  predicate Enabled(s: State, e: Event)
  {
    match e
    case Client(cc) => ClientEnabled(s, cc)
    case Monitor => MonitorEnabled(s)
    case Bitflip(bc) => BitflipEnabled(s, bc)
    // unregistering waits for the handlers that are running
    case Work => s.work && (s.uprobe ==> s.entered == 0 && s.triggered == 0)
    case Hit => s.uprobe && s.target == Running && !s.killPending
    case HandlerTrigger => s.entered > 0
    case HandlerPost => s.triggered > 0
    case Exit(code) => s.target == Running
  }

  function Apply(s: State, e: Event): State
    requires Enabled(s, e)
  {
    match e
    case Client(cc) => ClientStep(s, cc)
    case Monitor => MonitorStep(s)
    case Bitflip(bc) => BitflipStep(s, bc)
    case Work => s.(work := false, uprobe := false, queued := false)
    case Hit => s.(entered := s.entered + 1)
    case HandlerTrigger =>
      s.(trigger := true, hits := s.hits + 1, asleep := s.asleep && (s.trigger || !OnFlipQueue(s.b)),
         entered := s.entered - 1, triggered := s.triggered + 1)
    case HandlerPost =>
      s.(queued := s.queued || s.uprobe, work := s.work || (s.uprobe && !s.queued), triggered := s.triggered - 1)
    case Exit(code) => s.(target := Exited(code))
  }

  /** The place of a monitor location in the order in which the monitor passes through them. */
  function Order(m: MonitorPc): (place: nat)
    ensures place <= 22
  {
    match m
    case MNone => 0 case MLoopExit => 1 case MLoopStop => 2 case MSleep => 3
    case MRevert => 4 case MClearAlive => 5 case MCheckBitflip => 6
    case MWakeAll => 7 case MWakeThread => 8 case MWakeQueue => 9 case MSetStop => 10 case MWakeStop => 11
    case MJoin => 12 case MClearBitflip => 13 case MClearRunning0 => 14
    case MCheckPc => 15 case MFlush => 16 case MDisarm => 17
    case MSetCode => 18 case MClearRunning => 19 case MComplete => 20 case MClearPtr => 21 case MExited => 22
  }

  // ---------- runs ----------

  ghost predicate Step(s: State, s': State)
  {
    exists e :: Enabled(s, e) && s' == Apply(s, e)
  }

  /** A run from a fresh context, under any scheduling and any choices of the environment. */
  ghost predicate IsRun(run: seq<State>)
  {
    && run != [] && Init(run[0])
    && forall i {:trigger run[i + 1]} :: 0 <= i < |run| - 1 ==> Step(run[i], run[i + 1])
  }
}
