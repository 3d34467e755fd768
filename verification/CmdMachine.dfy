/**
  The command queue, the command thread and the submit-context handshake, as one state machine.

  Any number of callers run the submit routine (fill a command, filter it, insert it under the
  queue lock, raise the semaphore, maybe wait for the acknowledgement) while one command thread
  waits, dequeues, executes or drops, acknowledges and disposes, and finally drains the queue.
  One step is one lock section, one semaphore operation or one access to a shared object, so a
  run is an arbitrary interleaving. Touching a freed command, a freed side buffer or the stack
  frame of a caller that has returned, overrunning the command buffer and running a handler
  twice for one command all set `fault`.
*/
module CmdMachine {

  /** Capacity of the buffer the thread copies a command's parameters into. */
  const MAX_CMDSZ: nat := 1536

  /** A call of the submit routine; it also names the command object the call allocates. */
  type Id = nat

  /** What the command table says about the command code. */
  datatype Code =
    | DrvExtra(sideBuffer: bool)
    | ChanPlan
    | Table(hasHandler: bool)
    | OutOfTable

  /** One request: the adapter it comes from, whether the caller waits, and the command. */
  datatype Request = Request(adapter: nat, wait: bool, code: Code, cmdsz: nat, noIo: bool)

  /** Every call that is ever made during a run. */
  type Program = map<Id, Request>

  datatype Status = Submitted | DoneSuccess | DoneError | DoneDrop

  /** Where a caller stands; `Returned` means that its stack frame is gone. */
  datatype CallerPc = Filter | Insert | Up | Wait | Lock | Check | Detach | Unlock | Returned(ok: bool)

  /** A command object: freed, or live with its adapter, its submit context and its requeue mark. */
  datatype Command = Freed | Live(padapter: nat, sctx: bool, requeued: bool)

  /**
    One call: its frame (program counter and submit context), its command object and side
    buffer, and as history whether the thread completed the submit context, whether the caller
    detached it, whether the handler ran and reported success, and whether the drain took it.
  */
  datatype Call = Call(pc: CallerPc, status: Status, done: bool, cmd: Command, side: bool,
                       completed: bool, detached: bool, ran: bool, good: bool, drained: bool)

  /** Where the command thread stands; `c` is the command it has taken from the queue. */
  datatype ThreadPc =
    | TStart | TDown | TCheck | TPeek | TOnce | TDequeue | TStop | TDrain | TExit
    | THas(c: Id, at: Phase)

  /** What the thread is doing with the command it has taken. */
  datatype Phase =
    | Process | Alive | Execute
    | Acquire(res: Status) | Read(res: Status) | SetStatus(res: Status) | Complete(res: Status)
    | SetNull(res: Status) | Release(res: Status) | Dispose(res: Status)

  datatype Party = ByCaller(id: Id) | ByThread

  datatype State = State(
    calls: map<Id, Call>,
    running: bool,                 // cmdthd_running
    hwInit: bool,                  // hw_init_completed
    canRun: bool,                  // neither driver-stopped nor surprise-removed
    sema: nat,                     // cmd_queue_sema
    queue: seq<Id>,                // cmd_queue, head first
    mutex: map<nat, Party>,        // held sctx_mutex of each adapter
    th: ThreadPc,
    fault: bool,
    accepted: seq<Id>,             // history: commands in the order they were inserted
    disposed: seq<Id>)             // history: commands in the order the thread let go of them

  datatype Step =
    | CallerMoves(id: Id, pick: bool)
    | ThreadMoves(pick: bool)
    | HwInit(on: bool)
    | CanRun(on: bool)
    | UpSema

  // ---------------------------------------------------------------- initial state

  predicate HasSide(r: Request) {
    r.code.DrvExtra? && r.code.sideBuffer
  }

  function FreshCall(r: Request): Call {
    Call(Filter, Submitted, false, Live(0, r.wait, false), HasSide(r), false, false, false, false, false)
  }

  function Init(prog: Program): State {
    State(map id | id in prog :: FreshCall(prog[id]), false, false, true, 0, [], map[], TStart, false, [], [])
  }

  /** rtw_cmd_filter. */
  predicate FilterPasses(r: Request, s: State) {
    (s.hwInit || r.code.ChanPlan? || r.noIo) && s.running
  }

  // ---------------------------------------------------------------- the caller

  /** Does rtw_enqueue_cmd insert the command, rather than free it on the spot? */
  predicate Admitted(r: Request, pass: bool) {
    pass && r.cmdsz <= MAX_CMDSZ
  }

  /** Does the caller's next step touch memory that is already freed? */
  predicate CallerFaults(r: Request, pass: bool, me: Call) {
    || ((me.pc.Filter? || me.pc.Detach?) && me.cmd.Freed?)
    || (me.pc.Filter? && !Admitted(r, pass) && HasSide(r) && !me.side)
  }

  /** Where the caller goes next; the verdict of the filter is what an unadmitted caller sees. */
  function CallerNext(r: Request, pass: bool, free: bool, pick: bool, me: Call): CallerPc {
    match me.pc
    case Filter => if Admitted(r, pass) then Insert else if !pass then Returned(false) else AfterUp(r)
    case Insert => Up
    case Up => AfterUp(r)
    case Wait => if pick && !me.done then Wait else Lock             // woken, or timed out
    case Lock => if free then Check else Lock
    case Check => if me.status == Submitted then Detach else Unlock
    case Detach => Unlock
    case Unlock => Returned(true)
    case Returned(_) => me.pc
  }

  function AfterUp(r: Request): CallerPc {
    if r.wait then Wait else Returned(true)
  }

  /** What the caller's next step does to its command object. */
  function CallerCommand(r: Request, pass: bool, me: Call): Command {
    if me.cmd.Freed? then Freed
    else if me.pc.Filter? then (if Admitted(r, pass) then me.cmd.(padapter := r.adapter) else Freed)
    else if me.pc.Detach? then me.cmd.(sctx := false)
    else me.cmd
  }

  /** The caller's own part of its next step. */
  function CallerMove(r: Request, pass: bool, free: bool, pick: bool, me: Call): Call {
    me.(pc := CallerNext(r, pass, free, pick, me),
        cmd := CallerCommand(r, pass, me),
        side := me.side && !(me.pc.Filter? && !Admitted(r, pass)),
        detached := me.detached || me.pc.Detach?)
  }

  function CallerStep(r: Request, s: State, id: Id, pick: bool): State
    requires id in s.calls
  {
    var me := s.calls[id];
    var pass, free := FilterPasses(r, s), r.adapter !in s.mutex;
    s.(calls := s.calls[id := CallerMove(r, pass, free, pick, me)],
       fault := s.fault || CallerFaults(r, pass, me),
       queue := if me.pc.Insert? then s.queue + [id] else s.queue,
       accepted := if me.pc.Insert? then s.accepted + [id] else s.accepted,
       sema := if me.pc.Up? then s.sema + 1 else s.sema,
       mutex := if me.pc.Lock? && free then s.mutex[r.adapter := ByCaller(id)]
                else if me.pc.Unlock? then s.mutex - {r.adapter}
                else s.mutex)
  }

  // ---------------------------------------------------------------- the command thread

  /** The checks between dequeue and execution: where they lead. */
  function AfterChecks(r: Request, pass: bool): Phase {
    if r.cmdsz > MAX_CMDSZ then Acquire(DoneError)
    else if r.code.OutOfTable? || (r.code.Table? && !r.code.hasHandler) then Acquire(DoneError)
    else if !pass then Acquire(DoneError)
    else if r.noIo then Execute
    else Alive
  }

  /** Is the command dropped by the filter, which frees its side buffer? */
  predicate Dropped(r: Request, pass: bool) {
    && r.cmdsz <= MAX_CMDSZ
    && !(r.code.OutOfTable? || (r.code.Table? && !r.code.hasHandler))
    && !pass
  }

  /** The phase after `at`; `free` says whether the adapter's mutex is free. */
  function NextPhase(r: Request, pass: bool, free: bool, pick: bool, at: Phase, me: Call): Phase {
    match at
    case Process => AfterChecks(r, pass)
    case Alive => Execute
    case Execute => Acquire(if pick then DoneSuccess else DoneError)
    case Acquire(res) => if free then Read(res) else at
    case Read(res) => if me.cmd.Live? && me.cmd.sctx then SetStatus(res) else Release(res)
    case SetStatus(res) => Complete(res)
    case Complete(res) => SetNull(res)
    case SetNull(res) => Release(res)
    case Release(res) => Dispose(res)
    case Dispose(_) => at
  }

  /** Does this phase free the side buffer, if the command has one? */
  predicate FreesSide(r: Request, pass: bool, at: Phase) {
    at.Execute? || (at.Process? && Dropped(r, pass))
  }

  /** What the thread does to the command and to the submit context behind it. */
  function HandleCall(r: Request, pass: bool, pick: bool, at: Phase, me: Call): Call {
    me.(side := me.side && !FreesSide(r, pass, at),
        ran := me.ran || at.Execute?,
        good := if at.Execute? then pick else me.good,
        status := if at.SetStatus? then at.res else me.status,
        completed := me.completed || at.SetStatus?,
        done := me.done || at.Complete?,
        cmd := if at.Dispose? || me.cmd.Freed? then Freed
               else if at.SetNull? then me.cmd.(sctx := false)
               else me.cmd)
  }

  /** Does the thread's next step touch freed memory or a dead frame, or overrun its buffer? */
  predicate HandleFaults(r: Request, pass: bool, at: Phase, me: Call) {
    || me.cmd.Freed?
    || (FreesSide(r, pass, at) && HasSide(r) && !me.side)
    || (at.Execute? && (r.cmdsz > MAX_CMDSZ || me.ran))
    || ((at.SetStatus? || at.Complete?) && me.pc.Returned?)
  }

  /** The thread works on command `c`. */
  function HandleStep(r: Request, s: State, c: Id, at: Phase, pick: bool): State
    requires c in s.calls
  {
    var me := s.calls[c];
    var adapter := if me.cmd.Live? then me.cmd.padapter else r.adapter;
    var pass, free := FilterPasses(r, s), adapter !in s.mutex;
    s.(calls := s.calls[c := HandleCall(r, pass, pick, at, me)],
       fault := s.fault || HandleFaults(r, pass, at, me),
       mutex := if at.Acquire? && free then s.mutex[adapter := ByThread]
                else if at.Release? then s.mutex - {adapter}
                else s.mutex,
       disposed := if at.Dispose? then s.disposed + [c] else s.disposed,
       th := if at.Dispose? then (if at.res.DoneDrop? then TDrain else TOnce)
             else THas(c, NextPhase(r, pass, free, pick, at, me)))
  }

  /** rtw_register_cmd_alive failed: the command goes back to the head of the queue. */
  function Requeue(s: State, c: Id): State
    requires c in s.calls
  {
    var me := s.calls[c];
    s.(calls := s.calls[c := if me.cmd.Live? then me.(cmd := me.cmd.(requeued := true)) else me],
       fault := s.fault || me.cmd.Freed?,
       queue := [c] + s.queue,
       th := TDown)
  }

  /** The drain loop takes a command, frees its side buffer and goes on to drop it. */
  function DrainStep(r: Request, s: State, c: Id): State
    requires s.queue != [] && c in s.calls
  {
    var me := s.calls[c];
    s.(calls := s.calls[c := me.(side := false, drained := true)],
       fault := s.fault || me.cmd.Freed? || (HasSide(r) && !me.side),
       queue := s.queue[1..],
       th := THas(c, Acquire(DoneDrop)))
  }

  /** Where the thread goes when it has no command in hand; `pick` false interrupts its wait. */
  function IdleNext(s: State, pick: bool): ThreadPc
    requires !s.th.THas?
  {
    match s.th
    case TStart => TDown
    case TDown => if !pick then TStop else if s.sema == 0 then TDown else TCheck
    case TCheck => if s.canRun then TPeek else TStop
    case TPeek => if s.queue == [] then TDown else TOnce
    case TOnce => if s.canRun then TDequeue else TStop
    case TDequeue => if s.queue == [] then TDown else THas(s.queue[0], Process)
    case TStop => TDrain
    case TDrain => TExit
    case TExit => TExit
  }

  /** The thread between commands. */
  function IdleStep(s: State, pick: bool): State
    requires !s.th.THas?
  {
    s.(th := IdleNext(s, pick),
       running := s.th.TStart? || (s.running && !s.th.TStop?),
       sema := if s.th.TDown? && pick && s.sema > 0 then s.sema - 1 else s.sema,
       queue := if s.th.TDequeue? && s.queue != [] then s.queue[1..] else s.queue)
  }

  predicate Known(prog: Program, s: State, c: Id) {
    c in prog && c in s.calls
  }

  function ThreadStep(prog: Program, s: State, pick: bool): State {
    if s.th.THas? then
      var c, at := s.th.c, s.th.at;
      if !Known(prog, s, c) then s
      else if at.Alive? && !pick then Requeue(s, c)
      else HandleStep(prog[c], s, c, at, pick)
    else if s.th.TDrain? && s.queue != [] then
      var c := s.queue[0];
      if Known(prog, s, c) then DrainStep(prog[c], s, c) else s
    else
      IdleStep(s, pick)
  }

  // ---------------------------------------------------------------- runs

  /** One step of anybody; a step that is not enabled leaves the state as it is. */
  function Next(prog: Program, s: State, a: Step): State {
    match a
    case CallerMoves(id, pick) => if Known(prog, s, id) then CallerStep(prog[id], s, id, pick) else s
    case ThreadMoves(pick) => ThreadStep(prog, s, pick)
    case HwInit(on) => s.(hwInit := on)
    case CanRun(on) => s.(canRun := on)
    case UpSema => s.(sema := s.sema + 1)
  }

  function Run(prog: Program, steps: seq<Step>): State {
    if steps == [] then Init(prog) else Next(prog, Run(prog, steps[..|steps| - 1]), steps[|steps| - 1])
  }
}
