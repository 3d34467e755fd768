/**
  What every interleaving of the command machine keeps: memory safety of the handshake, exactly
  one of completion and detachment, disposal in acceptance order, no lost wakeup, no deadlock.
*/
module CmdSafety {
  import opened CmdMachine

  // ---------------------------------------------------------------- phases

  function Held(th: ThreadPc): seq<Id> {
    if th.THas? then [th.c] else []
  }

  predicate InMutex(at: Phase) {
    at.Read? || at.SetStatus? || at.Complete? || at.SetNull? || at.Release?
  }

  predicate BeforeSide(at: Phase) {
    at.Process? || at.Alive? || at.Execute?
  }

  predicate Submitting(pc: CallerPc) {
    pc.Filter? || pc.Insert?
  }

  predicate Waiting(pc: CallerPc) {
    pc.Wait? || pc.Lock? || pc.Check? || pc.Detach? || pc.Unlock?
  }

  predicate Critical(pc: CallerPc) {
    pc.Check? || pc.Detach? || pc.Unlock?
  }

  predicate Settled(me: Call) {
    me.completed || me.detached
  }

  /** Where a command is, seen from the queue and the thread. */
  datatype Place = Nowhere | Queued | InHand(at: Phase)

  function PlaceOf(s: State, id: Id): Place {
    if s.th.THas? && s.th.c == id then InHand(s.th.at)
    else if id in s.queue then Queued
    else Nowhere
  }

  // ---------------------------------------------------------------- the invariant

  /** Every waiting request fits the command buffer. */
  predicate Sized(prog: Program) {
    forall id :: id in prog && prog[id].wait ==> prog[id].cmdsz <= MAX_CMDSZ
  }

  ghost predicate NoDup(q: seq<Id>) {
    forall i, j :: 0 <= i < j < |q| ==> q[i] != q[j]
  }

  /** Accepted commands are, in order, the disposed ones, the one in hand and the queued ones. */
  ghost predicate OrderOk(s: State) {
    && s.accepted == s.disposed + Held(s.th) + s.queue
    && NoDup(s.accepted)
    && (forall id :: id in s.accepted ==> id in s.calls)
  }

  /** Where a command and its side buffer are, given where its caller is. */
  predicate LifeOk(r: Request, me: Call, acc: bool, place: Place) {
    && (acc <==> r.cmdsz <= MAX_CMDSZ && !Submitting(me.pc) && me.pc != Returned(false))
    && (!place.Nowhere? ==> acc)
    && (me.pc.Insert? || me.pc.Up? || Waiting(me.pc) ==> r.cmdsz <= MAX_CMDSZ)
    && (Waiting(me.pc) ==> r.wait)
    && (me.cmd.Live? <==> Submitting(me.pc) || !place.Nowhere?)
    && (me.side <==> HasSide(r) && (Submitting(me.pc) || place.Queued? || (place.InHand? && BeforeSide(place.at))))
    && (me.cmd.Live? && !me.pc.Filter? ==> me.cmd.padapter == r.adapter)
    && (me.ran ==> acc && !place.Queued? && (place.InHand? ==> !BeforeSide(place.at)))
  }

  /** The submit context of a waiting caller. */
  predicate WaitOk(me: Call, acc: bool, place: Place) {
    var midway := place.InHand? && (place.at.Complete? || place.at.SetNull?);
    var past := place.InHand? && (place.at.Release? || place.at.Dispose?);
    && (me.completed <==> me.status != Submitted)
    && (me.completed ==> !me.detached)
    && (me.done ==> me.completed)
    && (me.detached ==> me.pc.Unlock? || me.pc.Returned?)
    && (Settled(me) ==> acc)
    && (me.pc.Unlock? || me.pc == Returned(true) ==> Settled(me))
    && (me.pc.Detach? ==> me.status == Submitted)
    && (me.cmd.Live? ==> (me.cmd.sctx <==> !me.detached && (me.completed ==> midway)))
    && (me.completed && me.cmd.Live? ==> midway || past)
    && (place.InHand? && place.at.SetStatus? ==> !Settled(me))
    && (place.InHand? && (place.at.SetStatus? || midway) ==> me.pc.Up? || me.pc.Wait? || me.pc.Lock?)
    && (midway ==> me.completed)
    && (past ==> Settled(me))
    && (acc && me.cmd.Freed? ==> Settled(me))
  }

  /** A request that does not wait has no submit context at all. */
  predicate NoWaitOk(me: Call, place: Place) {
    && (me.cmd.Live? ==> !me.cmd.sctx)
    && !Settled(me)
    && (place.InHand? ==> !(place.at.SetStatus? || place.at.Complete? || place.at.SetNull?))
  }

  predicate CallOk(r: Request, me: Call, acc: bool, place: Place) {
    && LifeOk(r, me, acc, place)
    && (if r.wait then WaitOk(me, acc, place) else NoWaitOk(me, place))
    && (place.InHand? && !BeforeSide(place.at) ==> place.at.res != Submitted)
  }

  /** The thread and the caller of a command lock the same mutex, and never both at once. */
  ghost predicate MutexOk(prog: Program, s: State)
    requires s.calls.Keys == prog.Keys
  {
    && (forall m :: m in s.mutex && s.mutex[m].ByCaller? ==>
          var id := s.mutex[m].id; id in prog && prog[id].adapter == m && Critical(s.calls[id].pc))
    && (forall id :: id in prog && Critical(s.calls[id].pc) ==>
          prog[id].adapter in s.mutex && s.mutex[prog[id].adapter] == ByCaller(id))
    && (forall m :: m in s.mutex && s.mutex[m].ByThread? ==>
          s.th.THas? && InMutex(s.th.at) && s.th.c in prog && prog[s.th.c].adapter == m)
    && (s.th.THas? && InMutex(s.th.at) && s.th.c in prog ==>
          prog[s.th.c].adapter in s.mutex && s.mutex[prog[s.th.c].adapter] == ByThread)
  }

  /** The queue cannot be forgotten while the thread waits on the semaphore. */
  ghost predicate WakeOk(s: State) {
    s.th.TDown? && s.queue != [] ==>
      || s.sema > 0
      || (exists id :: id in s.calls && s.calls[id].pc.Up?)
      || (s.queue[0] in s.calls && s.calls[s.queue[0]].cmd.Live? && s.calls[s.queue[0]].cmd.requeued)
  }

  /** The thread has left its main loop. */
  predicate Stopped(th: ThreadPc) {
    th.TDrain? || th.TExit? || (th.THas? && !BeforeSide(th.at) && th.at.res.DoneDrop?)
  }

  /** Before the thread runs and after it has stopped, the filter lets nothing through. */
  ghost predicate StartOk(s: State) {
    && (s.th.TStart? ==> !s.running && s.queue == [] && forall id :: id in s.calls ==> !s.calls[id].pc.Insert?)
    && (Stopped(s.th) ==> !s.running)
  }

  ghost predicate CallsOk(prog: Program, s: State)
    requires s.calls.Keys == prog.Keys
  {
    forall id :: id in prog ==> CallOk(prog[id], s.calls[id], id in s.accepted, PlaceOf(s, id))
  }

  ghost predicate Inv(prog: Program, s: State) {
    && s.calls.Keys == prog.Keys
    && OrderOk(s)
    && MutexOk(prog, s)
    && CallsOk(prog, s)
    && StartOk(s)
    && WakeOk(s)
    && !s.fault
  }

  // ---------------------------------------------------------------- preservation: callers

  lemma {:induction false} InitInv(prog: Program)
    ensures Inv(prog, Init(prog))
  {
    assert CallsOk(prog, Init(prog));
    hide CallsOk, CallOk;
  }

  /** Caller and thread are never both inside the mutex that guards the call. */
  predicate Apart(me: Call, place: Place) {
    !(Critical(me.pc) && place.InHand? && InMutex(place.at))
  }

  lemma {:induction false} CriticalApart(prog: Program, s: State, id: Id)
    requires s.calls.Keys == prog.Keys && MutexOk(prog, s) && id in prog
    ensures Apart(s.calls[id], PlaceOf(s, id))
  {
  }

  /** One caller's move keeps what is said about that call, and touches nothing freed. */
  lemma {:induction false} CallerMoveOk(r: Request, pass: bool, free: bool, pick: bool, me: Call, acc: bool, place: Place)
    requires CallOk(r, me, acc, place) && Apart(me, place)
    requires r.wait ==> r.cmdsz <= MAX_CMDSZ
    requires place.InHand? && InMutex(place.at) ==> !free
    ensures !CallerFaults(r, pass, me)
    ensures CallOk(r, CallerMove(r, pass, free, pick, me), acc || me.pc.Insert?,
                   if me.pc.Insert? then Queued else place)
  {
  }

  lemma {:induction false} CallerOrder(s: State, r: Request, id: Id, pick: bool)
    requires OrderOk(s) && id in s.calls
    requires s.calls[id].pc.Insert? ==> id !in s.accepted
    ensures OrderOk(CallerStep(r, s, id, pick))
  {
  }

  /** A step that changes no mutex, no thread phase and nobody's critical section. */
  lemma {:induction false} MutexFrame(prog: Program, s: State, s': State)
    requires s.calls.Keys == s'.calls.Keys == prog.Keys && MutexOk(prog, s)
    requires s'.mutex == s.mutex
    requires forall id :: id in prog ==> (Critical(s'.calls[id].pc) <==> Critical(s.calls[id].pc))
    requires if s.th.THas? && InMutex(s.th.at) then s'.th.THas? && InMutex(s'.th.at) && s'.th.c == s.th.c
             else !(s'.th.THas? && InMutex(s'.th.at))
    ensures MutexOk(prog, s')
  {
  }

  lemma {:induction false} MutexTake(prog: Program, s: State, s': State, id: Id)
    requires s.calls.Keys == s'.calls.Keys == prog.Keys && MutexOk(prog, s) && id in prog
    requires prog[id].adapter !in s.mutex && s'.mutex == s.mutex[prog[id].adapter := ByCaller(id)]
    requires s'.th == s.th && Critical(s'.calls[id].pc)
    requires forall i :: i in prog && i != id ==> s'.calls[i] == s.calls[i]
    ensures MutexOk(prog, s')
  {
  }

  lemma {:induction false} MutexGive(prog: Program, s: State, s': State, id: Id)
    requires s.calls.Keys == s'.calls.Keys == prog.Keys && MutexOk(prog, s) && id in prog
    requires s'.mutex == s.mutex - {prog[id].adapter}
    requires s'.th == s.th && Critical(s.calls[id].pc) && !Critical(s'.calls[id].pc)
    requires forall i :: i in prog && i != id ==> s'.calls[i] == s.calls[i]
    ensures MutexOk(prog, s')
  {
  }

  lemma {:induction false} CallerCritical(r: Request, pass: bool, free: bool, pick: bool, me: Call)
    ensures Critical(CallerMove(r, pass, free, pick, me).pc) <==>
              (Critical(me.pc) && !me.pc.Unlock?) || (me.pc.Lock? && free)
  {
  }

  lemma {:induction false} CallerMutex(prog: Program, s: State, id: Id, pick: bool)
    requires s.calls.Keys == prog.Keys && MutexOk(prog, s) && id in prog
    ensures MutexOk(prog, CallerStep(prog[id], s, id, pick))
  {
    var r, me := prog[id], s.calls[id];
    var free := r.adapter !in s.mutex;
    var me' := CallerMove(r, FilterPasses(r, s), free, pick, me);
    var s' := CallerStep(r, s, id, pick);
    assert s'.calls == s.calls[id := me'] && s'.th == s.th;
    CallerCritical(r, FilterPasses(r, s), free, pick, me);
    if me.pc.Lock? && free {
      MutexTake(prog, s, s', id);
    } else if me.pc.Unlock? {
      MutexGive(prog, s, s', id);
    } else {
      assert s'.mutex == s.mutex;
      MutexFrame(prog, s, s');
    }
  }

  lemma {:induction false} CallerWake(s: State, r: Request, id: Id, pick: bool)
    requires id in s.calls && WakeOk(s)
    requires Submitting(s.calls[id].pc) ==> id !in s.queue
    ensures WakeOk(CallerStep(r, s, id, pick))
  {
    var s', pc := CallerStep(r, s, id, pick), s.calls[id].pc;
    if pc.Insert? {
      assert s'.calls[id].pc.Up?;
    } else if s.th.TDown? && s.queue != [] && s.sema == 0 && !pc.Up? {
      if p :| p in s.calls && s.calls[p].pc.Up? {
        assert s'.calls[p].pc.Up?;
      }
    }
  }

  lemma {:induction false} CallerStart(s: State, r: Request, id: Id, pick: bool)
    requires id in s.calls && StartOk(s)
    ensures StartOk(CallerStep(r, s, id, pick))
  {
  }

  lemma {:induction false} CallerCalls(prog: Program, s: State, id: Id, pick: bool)
    requires s.calls.Keys == prog.Keys && MutexOk(prog, s) && CallsOk(prog, s) && id in prog
    requires prog[id].wait ==> prog[id].cmdsz <= MAX_CMDSZ
    ensures CallsOk(prog, CallerStep(prog[id], s, id, pick))
    ensures !CallerFaults(prog[id], FilterPasses(prog[id], s), s.calls[id])
  {
    var r, me, s' := prog[id], s.calls[id], CallerStep(prog[id], s, id, pick);
    var pass, free := FilterPasses(r, s), r.adapter !in s.mutex;
    CriticalApart(prog, s, id);
    CallerMoveOk(r, pass, free, pick, me, id in s.accepted, PlaceOf(s, id));
    assert me.pc.Insert? ==> PlaceOf(s, id) == Nowhere;
    hide MutexOk, CallerFaults, CallOk;
    assert s'.th == s.th && s'.calls == s.calls[id := CallerMove(r, pass, free, pick, me)];
    forall i | i in prog ensures CallOk(prog[i], s'.calls[i], i in s'.accepted, PlaceOf(s', i)) {
      assert i in s'.accepted <==> i in s.accepted || (i == id && me.pc.Insert?);
      assert i in s'.queue <==> i in s.queue || (i == id && me.pc.Insert?);
    }
  }

  lemma {:induction false} CallerInv(prog: Program, s: State, id: Id, pick: bool)
    requires Inv(prog, s) && Sized(prog) && id in prog
    ensures Inv(prog, CallerStep(prog[id], s, id, pick))
  {
    assert CallOk(prog[id], s.calls[id], id in s.accepted, PlaceOf(s, id));
    CallerCalls(prog, s, id, pick);
    CallerOrder(s, prog[id], id, pick);
    CallerMutex(prog, s, id, pick);
    CallerWake(s, prog[id], id, pick);
    CallerStart(s, prog[id], id, pick);
  }

  // ---------------------------------------------------------------- preservation: the thread

  lemma {:induction false} QueueParts(s: State)
    requires OrderOk(s)
    ensures forall id :: id in s.queue ==> id in s.accepted && !(s.th.THas? && s.th.c == id)
    ensures s.th.THas? ==> s.th.c in s.accepted
    ensures s.queue != [] ==> forall id :: id in s.queue[1..] <==> id in s.queue && id != s.queue[0]
  {
    var d, h := |s.disposed|, |Held(s.th)|;
    assert forall k :: 0 <= k < |s.queue| ==> s.accepted[d + h + k] == s.queue[k];
    if s.th.THas? {
      assert s.accepted[d] == s.th.c;
    }
    if s.queue != [] {
      forall k | 1 <= k < |s.queue| ensures s.queue[k] != s.queue[0] {
        assert s.accepted[d + h + k] != s.accepted[d + h];
      }
      assert s.queue == [s.queue[0]] + s.queue[1..];
    }
  }

  /** One phase of the thread keeps what is said about the command in hand. */
  lemma {:induction false} HandleOk(r: Request, pass: bool, free: bool, pick: bool, at: Phase, me: Call)
    requires CallOk(r, me, true, InHand(at)) && Apart(me, InHand(at))
    ensures !HandleFaults(r, pass, at, me)
    ensures var me' := HandleCall(r, pass, pick, at, me);
            if at.Dispose? then CallOk(r, me', true, Nowhere)
            else CallOk(r, me', true, InHand(NextPhase(r, pass, free, pick, at, me)))
  {
  }

  lemma {:induction false} ThreadTake(prog: Program, s: State, s': State)
    requires s.calls.Keys == s'.calls.Keys == prog.Keys && MutexOk(prog, s) && s'.th.THas? && s'.th.c in prog
    requires prog[s'.th.c].adapter !in s.mutex && s'.mutex == s.mutex[prog[s'.th.c].adapter := ByThread]
    requires InMutex(s'.th.at) && !(s.th.THas? && InMutex(s.th.at))
    requires forall i :: i in prog ==> s'.calls[i].pc == s.calls[i].pc
    ensures MutexOk(prog, s')
  {
  }

  lemma {:induction false} ThreadGive(prog: Program, s: State, s': State)
    requires s.calls.Keys == s'.calls.Keys == prog.Keys && MutexOk(prog, s) && s.th.THas? && s.th.c in prog
    requires s'.mutex == s.mutex - {prog[s.th.c].adapter}
    requires InMutex(s.th.at) && !(s'.th.THas? && InMutex(s'.th.at))
    requires forall i :: i in prog ==> s'.calls[i].pc == s.calls[i].pc
    ensures MutexOk(prog, s')
  {
  }

  lemma {:induction false} PhaseMutex(r: Request, pass: bool, free: bool, pick: bool, at: Phase, me: Call)
    requires !at.Dispose? && !at.Release? && !(at.Acquire? && free)
    ensures InMutex(NextPhase(r, pass, free, pick, at, me)) <==> InMutex(at)
  {
  }

  lemma {:induction false} HandleMutex(prog: Program, s: State, pick: bool)
    requires s.calls.Keys == prog.Keys && MutexOk(prog, s) && s.th.THas? && s.th.c in prog
    requires s.calls[s.th.c].cmd.Live? && s.calls[s.th.c].cmd.padapter == prog[s.th.c].adapter
    ensures MutexOk(prog, HandleStep(prog[s.th.c], s, s.th.c, s.th.at, pick))
  {
    var c, at := s.th.c, s.th.at;
    var r, me := prog[c], s.calls[c];
    var s' := HandleStep(r, s, c, at, pick);
    var me' := HandleCall(r, FilterPasses(r, s), pick, at, me);
    assert s'.calls == s.calls[c := me'] && me'.pc == me.pc;
    if at.Acquire? && r.adapter !in s.mutex {
      ThreadTake(prog, s, s');
    } else if at.Release? {
      ThreadGive(prog, s, s');
    } else {
      assert s'.mutex == s.mutex;
      if !at.Dispose? {
        PhaseMutex(r, FilterPasses(r, s), r.adapter !in s.mutex, pick, at, me);
      }
      MutexFrame(prog, s, s');
    }
  }

  lemma {:induction false} HandleCalls(prog: Program, s: State, pick: bool)
    requires s.calls.Keys == prog.Keys && MutexOk(prog, s) && CallsOk(prog, s)
    requires s.th.THas? && s.th.c in prog && s.th.c in s.accepted && s.th.c !in s.queue
    ensures CallsOk(prog, HandleStep(prog[s.th.c], s, s.th.c, s.th.at, pick))
    ensures !HandleFaults(prog[s.th.c], FilterPasses(prog[s.th.c], s), s.th.at, s.calls[s.th.c])
  {
    var c, at := s.th.c, s.th.at;
    var r, me, s' := prog[c], s.calls[c], HandleStep(prog[c], s, c, at, pick);
    var pass, free := FilterPasses(r, s), r.adapter !in s.mutex;
    assert CallOk(r, me, true, InHand(at));
    CriticalApart(prog, s, c);
    HandleOk(r, pass, free, pick, at, me);
    assert s'.calls == s.calls[c := HandleCall(r, pass, pick, at, me)] && s'.accepted == s.accepted && s'.queue == s.queue;
    forall i | i in prog ensures CallOk(prog[i], s'.calls[i], i in s'.accepted, PlaceOf(s', i)) {
      if i != c {
        assert s'.calls[i] == s.calls[i] && PlaceOf(s', i) == PlaceOf(s, i);
      } else {
        assert PlaceOf(s', c) == if at.Dispose? then Nowhere else InHand(NextPhase(r, pass, free, pick, at, me));
      }
    }
  }

  lemma {:induction false} HandleOrder(r: Request, s: State, pick: bool)
    requires OrderOk(s) && StartOk(s) && s.th.THas? && s.th.c in s.calls
    requires !BeforeSide(s.th.at) ==> s.th.at.res != Submitted
    ensures var s' := HandleStep(r, s, s.th.c, s.th.at, pick); OrderOk(s') && StartOk(s') && !s'.th.TDown?
  {
  }

  lemma {:induction false} HandleInv(prog: Program, s: State, pick: bool)
    requires Inv(prog, s) && s.th.THas?
    ensures s.th.c in prog && Inv(prog, HandleStep(prog[s.th.c], s, s.th.c, s.th.at, pick))
  {
    QueueParts(s);
    assert CallOk(prog[s.th.c], s.calls[s.th.c], true, InHand(s.th.at));
    HandleCalls(prog, s, pick);
    HandleMutex(prog, s, pick);
    HandleOrder(prog[s.th.c], s, pick);
  }

  /** The command in hand is live and not queued. */
  lemma {:induction false} InHandLive(prog: Program, s: State)
    requires Inv(prog, s) && s.th.THas?
    ensures s.th.c in prog && s.th.c in s.accepted && s.th.c !in s.queue
    ensures CallOk(prog[s.th.c], s.calls[s.th.c], true, InHand(s.th.at))
    ensures s.calls[s.th.c].cmd.Live? && s.calls[s.th.c].cmd.padapter == prog[s.th.c].adapter
  {
    hide MutexOk, WakeOk;
    QueueParts(s);
    assert CallOk(prog[s.th.c], s.calls[s.th.c], true, InHand(s.th.at));
  }

  lemma {:induction false} RequeueInv(prog: Program, s: State)
    requires Inv(prog, s) && s.th.THas? && s.th.at.Alive?
    ensures s.th.c in prog && Inv(prog, Requeue(s, s.th.c))
  {
    hide CallsOk, CallOk, MutexOk;
    InHandLive(prog, s);
    var c := s.th.c;
    var s' := Requeue(s, c);
    assert s'.accepted == s'.disposed + Held(s'.th) + s'.queue;
    RequeueCalls(prog, s);
    MutexFrame(prog, s, s');
    assert s'.calls[s'.queue[0]].cmd.requeued;
  }

  lemma {:induction false} RequeueCalls(prog: Program, s: State)
    requires s.calls.Keys == prog.Keys && CallsOk(prog, s)
    requires s.th.THas? && s.th.at.Alive? && s.th.c in prog && s.th.c in s.accepted && s.th.c !in s.queue
    ensures CallsOk(prog, Requeue(s, s.th.c))
  {
    var c := s.th.c;
    var s' := Requeue(s, c);
    assert CallOk(prog[c], s.calls[c], true, InHand(Alive));
    assert CallOk(prog[c], s'.calls[c], true, Queued);
    hide CallOk;
    forall i | i in prog ensures CallOk(prog[i], s'.calls[i], i in s'.accepted, PlaceOf(s', i)) {
      assert i != c ==> s'.calls[i] == s.calls[i] && PlaceOf(s', i) == PlaceOf(s, i);
      assert i == c ==> PlaceOf(s', i) == Queued;
    }
  }

  lemma {:induction false} DrainInv(prog: Program, s: State)
    requires Inv(prog, s) && s.th.TDrain? && s.queue != []
    ensures s.queue[0] in prog && Inv(prog, DrainStep(prog[s.queue[0]], s, s.queue[0]))
  {
    QueueParts(s);
    var c := s.queue[0];
    assert c in s.accepted;
    var s' := DrainStep(prog[c], s, c);
    assert CallOk(prog[c], s.calls[c], true, Queued);
    assert s'.accepted == s'.disposed + Held(s'.th) + s'.queue;
    DrainCalls(prog, s);
    MutexFrame(prog, s, s');
    hide CallsOk, MutexOk;
  }

  lemma {:induction false} DrainCalls(prog: Program, s: State)
    requires s.calls.Keys == prog.Keys && CallsOk(prog, s) && s.th.TDrain? && s.queue != []
    requires s.queue[0] in prog && s.queue[0] in s.accepted && s.queue[0] !in s.queue[1..]
    ensures CallsOk(prog, DrainStep(prog[s.queue[0]], s, s.queue[0]))
  {
    var c := s.queue[0];
    var s' := DrainStep(prog[c], s, c);
    assert CallOk(prog[c], s.calls[c], true, Queued);
    assert CallOk(prog[c], s'.calls[c], true, InHand(Acquire(DoneDrop)));
    hide CallOk;
    forall i | i in prog ensures CallOk(prog[i], s'.calls[i], i in s'.accepted, PlaceOf(s', i)) {
      assert i != c ==> s'.calls[i] == s.calls[i] && PlaceOf(s', i) == PlaceOf(s, i);
    }
  }

  /** Taking the head of the queue into hand. */
  lemma {:induction false} TakeHead(prog: Program, s: State, s': State)
    requires Inv(prog, s) && !s.th.THas? && s.queue != []
    requires s' == s.(queue := s.queue[1..], th := THas(s.queue[0], Process))
    ensures Inv(prog, s')
  {
    QueueParts(s);
    MutexFrame(prog, s, s');
    assert s'.accepted == s'.disposed + Held(s'.th) + s'.queue;
    forall i | i in prog ensures CallOk(prog[i], s'.calls[i], i in s'.accepted, PlaceOf(s', i)) {
      assert CallOk(prog[i], s.calls[i], i in s.accepted, PlaceOf(s, i));
      if i == s.queue[0] {
        assert PlaceOf(s, i) == Queued;
      } else {
        assert PlaceOf(s', i) == PlaceOf(s, i);
      }
    }
  }

  /** Moving between states without a command in hand. */
  lemma {:induction false} IdleFrame(prog: Program, s: State, s': State)
    requires Inv(prog, s) && !s.th.THas? && !s'.th.THas?
    requires s'.calls == s.calls && s'.queue == s.queue && s'.accepted == s.accepted && s'.disposed == s.disposed
    requires s'.mutex == s.mutex && s'.fault == s.fault && WakeOk(s') && StartOk(s')
    ensures Inv(prog, s')
  {
  }

  lemma {:induction false} IdleWake(s: State, pick: bool)
    requires WakeOk(s) && StartOk(s)
    requires !s.th.THas? && !(s.th.TDrain? && s.queue != []) && !(s.th.TDequeue? && s.queue != [])
    ensures var s' := IdleStep(s, pick);
            && WakeOk(s') && StartOk(s') && !s'.th.THas?
            && s'.calls == s.calls && s'.queue == s.queue && s'.accepted == s.accepted
            && s'.disposed == s.disposed && s'.mutex == s.mutex && s'.fault == s.fault
  {
  }

  lemma {:induction false} IdleInv(prog: Program, s: State, pick: bool)
    requires Inv(prog, s) && !s.th.THas? && !(s.th.TDrain? && s.queue != [])
    ensures Inv(prog, IdleStep(s, pick))
  {
    var s' := IdleStep(s, pick);
    if s.th.TDequeue? && s.queue != [] {
      TakeHead(prog, s, s');
    } else {
      IdleWake(s, pick);
      IdleFrame(prog, s, s');
    }
  }

  lemma {:induction false} NextInv(prog: Program, s: State, a: Step)
    requires Inv(prog, s) && Sized(prog)
    ensures Inv(prog, Next(prog, s, a))
  {
    assert s.calls.Keys == prog.Keys;
    hide Inv, CallerStep, HandleStep, Requeue, DrainStep, IdleStep;
    match a
    case CallerMoves(id, pick) => if Known(prog, s, id) { CallerInv(prog, s, id, pick); }
    case ThreadMoves(pick) =>
      if s.th.THas? {
        if s.th.at.Alive? && !pick { RequeueInv(prog, s); } else { HandleInv(prog, s, pick); }
      } else if s.th.TDrain? && s.queue != [] {
        DrainInv(prog, s);
      } else {
        IdleInv(prog, s, pick);
      }
    case _ => EnvironmentInv(prog, s, a);
  }

  lemma {:induction false} EnvironmentInv(prog: Program, s: State, a: Step)
    requires Inv(prog, s) && !a.CallerMoves? && !a.ThreadMoves?
    ensures Inv(prog, Next(prog, s, a))
  {
    hide CallOk, ThreadStep, CallerStep;
  }

  /** Every state that any interleaving reaches satisfies the invariant. */
  lemma {:induction false} RunInv(prog: Program, steps: seq<Step>)
    requires Sized(prog)
    ensures Inv(prog, Run(prog, steps))
  {
    if steps == [] {
      InitInv(prog);
    } else {
      RunInv(prog, steps[..|steps| - 1]);
      NextInv(prog, Run(prog, steps[..|steps| - 1]), steps[|steps| - 1]);
    }
  }
}
