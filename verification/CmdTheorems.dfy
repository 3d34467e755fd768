/**
  The guarantees of the command queue and of the acknowledgement handshake, each over every run.
*/
module CmdTheorems {
  import opened CmdMachine
  import opened CmdSafety

  // ---------------------------------------------------------------- memory safety, exactly

  lemma {:induction false} RunSnoc(prog: Program, steps: seq<Step>, a: Step)
    ensures Run(prog, steps + [a]) == Next(prog, Run(prog, steps), a)
  {
  }

  /** The schedule: the oversized command is freed, its caller times out and detaches the dead object. */
  lemma {:induction false} OversizedFaults(prog: Program, id: Id) returns (steps: seq<Step>)
    requires id in prog && prog[id].wait && prog[id].cmdsz > MAX_CMDSZ
    ensures Run(prog, steps).fault
  {
    var go, timeout := CallerMoves(id, true), CallerMoves(id, false);
    var t0 := [];
    var t1 := t0 + [ThreadMoves(true)];
    RunSnoc(prog, t0, ThreadMoves(true));
    var t2 := t1 + [HwInit(true)];
    RunSnoc(prog, t1, HwInit(true));
    var s2 := Run(prog, t2);
    assert s2.running && s2.hwInit && s2.mutex == map[] && id in s2.calls && s2.calls[id] == FreshCall(prog[id]);
    var t3 := t2 + [go];
    RunSnoc(prog, t2, go);
    var s3 := Run(prog, t3);
    assert s3.mutex == map[] && id in s3.calls && s3.calls[id].pc.Wait?;
    var t4 := t3 + [timeout];
    RunSnoc(prog, t3, timeout);
    var s4 := Run(prog, t4);
    assert s4.mutex == map[] && id in s4.calls && s4.calls[id].pc.Lock?;
    var t5 := t4 + [go];
    RunSnoc(prog, t4, go);
    var s5 := Run(prog, t5);
    assert id in s5.calls && s5.calls[id].pc.Check? && s5.calls[id].status == Submitted;
    var t6 := t5 + [go];
    RunSnoc(prog, t5, go);
    assert Run(prog, t6).calls[id].pc.Detach? && Run(prog, t6).calls[id].cmd.Freed?;
    steps := t6 + [go];
    RunSnoc(prog, t6, go);
  }

  /**
    No interleaving ever touches freed memory or a dead stack frame, overruns the command buffer,
    or runs a handler twice, if and only if every waiting request fits the command buffer.
  */
  lemma {:induction false} MemorySafeIffSized(prog: Program)
    ensures (forall steps :: !Run(prog, steps).fault) <==> Sized(prog)
  {
    if Sized(prog) {
      forall steps ensures !Run(prog, steps).fault {
        RunInv(prog, steps);
      }
    } else {
      var id :| id in prog && prog[id].wait && prog[id].cmdsz > MAX_CMDSZ;
      var steps := OversizedFaults(prog, id);
    }
  }

  // ---------------------------------------------------------------- the handshake

  /**
    When a waiting call has returned with success, its submit context was either completed by the
    thread or detached by the caller, never both; it is detached exactly when the status it saw
    was still `Submitted`, and no live command points at the dead frame.
  */
  lemma {:induction false} CompletedXorDetached(prog: Program, steps: seq<Step>, id: Id)
    requires Sized(prog) && id in prog && prog[id].wait
    requires id in Run(prog, steps).calls && Run(prog, steps).calls[id].pc == Returned(true)
    ensures var me := Run(prog, steps).calls[id];
            && me.completed != me.detached
            && (me.detached <==> me.status == Submitted)
            && (me.cmd.Live? ==> !me.cmd.sctx)
  {
    RunInv(prog, steps);
  }

  predicate SameOutcome(me: Call, me': Call) {
    me'.completed == me.completed && me'.detached == me.detached && me'.status == me.status
  }

  lemma {:induction false} MovesKeepOutcome(r: Request, pass: bool, free: bool, pick: bool, me: Call, acc: bool, place: Place)
    requires CallOk(r, me, acc, place) && r.wait && Settled(me)
    ensures SameOutcome(me, CallerMove(r, pass, free, pick, me))
    ensures place.InHand? ==> SameOutcome(me, HandleCall(r, pass, pick, place.at, me))
  {
  }

  lemma {:induction false} HandleSettled(rc: Request, r: Request, s: State, pick: bool, id: Id)
    requires s.th.THas? && s.th.c in s.calls && id in s.calls && (id == s.th.c ==> rc == r)
    requires CallOk(r, s.calls[id], id in s.accepted, PlaceOf(s, id)) && r.wait && Settled(s.calls[id])
    ensures id in HandleStep(rc, s, s.th.c, s.th.at, pick).calls
    ensures SameOutcome(s.calls[id], HandleStep(rc, s, s.th.c, s.th.at, pick).calls[id])
  {
  }

  lemma IdleCalls(s: State, pick: bool)
    requires !s.th.THas?
    ensures IdleStep(s, pick).calls == s.calls
  {
  }

  lemma {:induction false} ThreadSettled(prog: Program, s: State, pick: bool, id: Id)
    requires s.calls.Keys == prog.Keys && id in prog && prog[id].wait && Settled(s.calls[id])
    requires CallOk(prog[id], s.calls[id], id in s.accepted, PlaceOf(s, id))
    ensures id in ThreadStep(prog, s, pick).calls && SameOutcome(s.calls[id], ThreadStep(prog, s, pick).calls[id])
  {
    hide CallOk, IdleStep, HandleStep;
    if !s.th.THas? {
      if s.th.TDrain? && s.queue != [] && Known(prog, s, s.queue[0]) {
        assert SameOutcome(s.calls[s.queue[0]], DrainStep(prog[s.queue[0]], s, s.queue[0]).calls[s.queue[0]]);
      } else {
        IdleCalls(s, pick);
        assert ThreadStep(prog, s, pick).calls == s.calls;
      }
    } else if Known(prog, s, s.th.c) {
      var c, at, r := s.th.c, s.th.at, prog[s.th.c];
      if at.Alive? && !pick {
        assert SameOutcome(s.calls[c], Requeue(s, c).calls[c]);
      } else {
        HandleSettled(r, prog[id], s, pick, id);
      }
    }
  }

  lemma OutcomeSame(me: Call)
    ensures SameOutcome(me, me)
  {
  }

  lemma {:induction false} NextSettled(prog: Program, s: State, a: Step, id: Id)
    requires s.calls.Keys == prog.Keys && CallsOk(prog, s) && id in prog && prog[id].wait && Settled(s.calls[id])
    ensures id in Next(prog, s, a).calls && SameOutcome(s.calls[id], Next(prog, s, a).calls[id])
  {
    assert CallOk(prog[id], s.calls[id], id in s.accepted, PlaceOf(s, id));
    hide CallsOk, CallOk, CallerMove, ThreadStep, SameOutcome, Settled;
    assert SameOutcome(s.calls[id], s.calls[id]) by { OutcomeSame(s.calls[id]); }
    match a
    case CallerMoves(i, pick) =>
      var r := prog[id];
      MovesKeepOutcome(r, FilterPasses(r, s), r.adapter !in s.mutex, pick, s.calls[id], id in s.accepted, PlaceOf(s, id));
    case ThreadMoves(pick) => ThreadSettled(prog, s, pick, id);
    case _ =>
  }

  /** The outcome of a handshake is final: no later step of anybody changes it. */
  lemma {:induction false} OutcomeFinal(prog: Program, steps: seq<Step>, more: seq<Step>, id: Id)
    requires Sized(prog) && id in prog && prog[id].wait
    requires id in Run(prog, steps).calls && Settled(Run(prog, steps).calls[id])
    ensures id in Run(prog, steps + more).calls
    ensures SameOutcome(Run(prog, steps).calls[id], Run(prog, steps + more).calls[id])
    decreases |more|
  {
    if more == [] {
      assert steps + more == steps;
    } else {
      var init, last := more[..|more| - 1], more[|more| - 1];
      OutcomeFinal(prog, steps, init, id);
      assert steps + more == (steps + init) + [last];
      RunSnoc(prog, steps + init, last);
      RunInv(prog, steps + init);
      NextSettled(prog, Run(prog, steps + init), last, id);
    }
  }

  /** Steps the holder of a mutex still takes before it lets go of it. */
  function CallerLeft(pc: CallerPc): nat {
    match pc case Check => 3 case Detach => 2 case Unlock => 1 case _ => 0
  }

  function ThreadLeft(at: Phase): nat {
    match at
    case Read(_) => 5 case SetStatus(_) => 4 case Complete(_) => 3 case SetNull(_) => 2 case Release(_) => 1
    case _ => 0
  }

  /** The step that the holder of mutex `m` takes next. */
  function HolderStep(s: State, m: nat): Step
    requires m in s.mutex
  {
    if s.mutex[m].ByThread? then ThreadMoves(true) else CallerMoves(s.mutex[m].id, true)
  }

  function Left(s: State, m: nat): nat {
    if m !in s.mutex then 0
    else if s.mutex[m].ByThread? then (if s.th.THas? then ThreadLeft(s.th.at) else 0)
    else if s.mutex[m].id in s.calls then CallerLeft(s.calls[s.mutex[m].id].pc) else 0
  }

  /** The holder of `m` is closer to releasing it after its own next step. */
  predicate Approaches(prog: Program, s: State, m: nat)
    requires m in s.mutex
  {
    var s' := Next(prog, s, HolderStep(s, m));
    && 1 <= Left(s, m) <= 5
    && Left(s', m) < Left(s, m)
    && (Left(s, m) == 1 ==> m !in s'.mutex)
  }

  lemma {:induction false} ThreadApproaches(prog: Program, s: State, m: nat)
    requires Inv(prog, s) && m in s.mutex && s.mutex[m].ByThread?
    ensures Approaches(prog, s, m)
  {
    var c, at := s.th.c, s.th.at;
    var r := prog[c];
    assert CallOk(r, s.calls[c], c in s.accepted, PlaceOf(s, c));
    hide CallsOk, OrderOk, WakeOk, StartOk, Requeue, DrainStep, IdleStep, CallerStep, HandleFaults, HandleCall;
    var s' := HandleStep(r, s, c, at, true);
    assert Next(prog, s, HolderStep(s, m)) == s';
    if at.Release? {
      assert s'.mutex == s.mutex - {m};
    } else {
      assert s'.mutex == s.mutex && s'.th.THas?;
    }
  }

  lemma {:induction false} CallerApproaches(prog: Program, s: State, m: nat)
    requires Inv(prog, s) && m in s.mutex && s.mutex[m].ByCaller?
    ensures Approaches(prog, s, m)
  {
    var id := s.mutex[m].id;
    var s' := CallerStep(prog[id], s, id, true);
    assert Next(prog, s, HolderStep(s, m)) == s';
    if s.calls[id].pc.Unlock? {
      assert s'.mutex == s.mutex - {m};
    } else {
      assert s'.mutex == s.mutex && s'.calls[id].pc == CallerNext(prog[id], FilterPasses(prog[id], s), m !in s.mutex, true, s.calls[id]);
    }
  }

  /** No deadlock: whoever holds a mutex is never blocked and lets go after at most five own steps. */
  lemma {:induction false} MutexReleased(prog: Program, steps: seq<Step>, m: nat)
    requires Sized(prog) && m in Run(prog, steps).mutex
    ensures Approaches(prog, Run(prog, steps), m)
  {
    RunInv(prog, steps);
    var s := Run(prog, steps);
    if s.mutex[m].ByThread? {
      ThreadApproaches(prog, s, m);
    } else {
      CallerApproaches(prog, s, m);
    }
  }

  // ---------------------------------------------------------------- order and disposal

  lemma {:induction false} InParts(s: State, id: Id)
    requires OrderOk(s) && id in s.accepted
    ensures id in s.disposed <==> PlaceOf(s, id).Nowhere?
  {
    var d, h := |s.disposed|, |Held(s.th)|;
    var k :| 0 <= k < |s.accepted| && s.accepted[k] == id;
    assert k < d ==> s.disposed[k] == id;
    assert d <= k < d + h ==> Held(s.th)[k - d] == id;
    assert d + h <= k ==> s.queue[k - d - h] == id;
    if id in s.disposed {
      var j :| 0 <= j < d && s.disposed[j] == id;
      assert s.accepted[j] == id;
      assert forall q :: 0 <= q < |s.queue| ==> s.accepted[d + h + q] == s.queue[q];
      assert s.th.THas? ==> s.accepted[d] == s.th.c;
    }
  }

  lemma {:induction false} PartsOfOrder(prog: Program, s: State)
    requires Inv(prog, s)
    ensures s.disposed <= s.accepted && NoDup(s.accepted)
    ensures s.accepted[|s.disposed|..] == Held(s.th) + s.queue
    ensures forall id :: id in s.accepted ==> id in s.calls && (s.calls[id].cmd.Freed? <==> id in s.disposed)
    ensures forall id :: id in s.disposed ==> id in s.calls && !s.calls[id].side
  {
    assert s.accepted[..|s.disposed|] == s.disposed;
    forall id | id in s.accepted
      ensures id in s.calls && (s.calls[id].cmd.Freed? <==> id in s.disposed)
      ensures id in s.disposed ==> !s.calls[id].side
    {
      assert CallOk(prog[id], s.calls[id], true, PlaceOf(s, id));
      InParts(s, id);
    }
    forall id | id in s.disposed ensures id in s.accepted {
      var j :| 0 <= j < |s.disposed| && s.disposed[j] == id;
      assert s.accepted[j] == id;
    }
  }

  /**
    Commands leave the thread's hands in exactly the order in which they were accepted, whatever
    was requeued; none is disposed of twice; an accepted command is live exactly until then, and
    its side buffer does not outlive it.
  */
  lemma {:induction false} DisposedInOrder(prog: Program, steps: seq<Step>)
    requires Sized(prog)
    ensures var s := Run(prog, steps);
            && s.disposed <= s.accepted
            && NoDup(s.accepted)
            && s.accepted[|s.disposed|..] == Held(s.th) + s.queue
            && (forall id :: id in s.accepted ==> id in s.calls && (s.calls[id].cmd.Freed? <==> id in s.disposed))
            && (forall id :: id in s.disposed ==> id in s.calls && !s.calls[id].side)
  {
    RunInv(prog, steps);
    PartsOfOrder(prog, Run(prog, steps));
  }

  /** A command that never got into the queue is freed with its side buffer before its caller returns. */
  lemma {:induction false} RefusedFreed(prog: Program, steps: seq<Step>, id: Id)
    requires Sized(prog) && id in prog
    requires id in Run(prog, steps).calls && Run(prog, steps).calls[id].pc.Returned?
    requires id !in Run(prog, steps).accepted
    ensures var me := Run(prog, steps).calls[id]; me.cmd.Freed? && !me.side && !me.ran && !me.completed
  {
    RunInv(prog, steps);
  }

  // ---------------------------------------------------------------- wakeup and stop

  /**
    No lost wakeup: when the thread is about to wait and the queue is not empty, the semaphore is
    up, or a producer is between inserting and raising it, or the head was requeued until the
    device leaves power save.
  */
  lemma {:induction false} NoLostWakeup(prog: Program, steps: seq<Step>)
    requires Sized(prog)
    requires Run(prog, steps).th.TDown? && Run(prog, steps).queue != []
    ensures var s := Run(prog, steps);
            || s.sema > 0
            || (exists id :: id in s.calls && s.calls[id].pc.Up?)
            || (s.queue[0] in s.calls && s.calls[s.queue[0]].cmd.Live? && s.calls[s.queue[0]].cmd.requeued)
  {
    RunInv(prog, steps);
  }

  /** Some producer has passed the filter but has not inserted its command yet. */
  ghost predicate InFlight(s: State) {
    exists id :: id in s.calls && s.calls[id].pc.Insert?
  }

  lemma {:induction false} ExitStep(prog: Program, s: State, a: Step)
    requires Inv(prog, s) && s.th.TExit? && s.queue == [] && !InFlight(s)
    ensures var s' := Next(prog, s, a); s'.th.TExit? && s'.queue == [] && !InFlight(s')
  {
    hide CallsOk, MutexOk, OrderOk, WakeOk, HandleStep, Requeue, DrainStep;
  }

  lemma {:induction false} ExitFinal(prog: Program, steps: seq<Step>, more: seq<Step>)
    requires Sized(prog)
    requires var s := Run(prog, steps); s.th.TExit? && s.queue == [] && !InFlight(s)
    ensures var s := Run(prog, steps + more); s.th.TExit? && s.queue == [] && !InFlight(s)
    decreases |more|
  {
    if more == [] {
      assert steps + more == steps;
    } else {
      var init, last := more[..|more| - 1], more[|more| - 1];
      ExitFinal(prog, steps, init);
      assert steps + more == (steps + init) + [last];
      RunSnoc(prog, steps + init, last);
      RunInv(prog, steps + init);
      ExitStep(prog, Run(prog, steps + init), last);
    }
  }

  /**
    After the drain, commands can still be stranded in the queue if and only if, when the thread
    exited with an empty queue, some producer was already past the filter.
  */
  lemma {:induction false} StrandedIffInFlight(prog: Program, steps: seq<Step>)
    requires Sized(prog)
    requires Run(prog, steps).th.TExit? && Run(prog, steps).queue == []
    ensures (exists more :: Run(prog, steps + more).queue != []) <==> InFlight(Run(prog, steps))
  {
    var s := Run(prog, steps);
    if InFlight(s) {
      RunInv(prog, steps);
      var id :| id in s.calls && s.calls[id].pc.Insert?;
      RunSnoc(prog, steps, CallerMoves(id, true));
      assert Run(prog, steps + [CallerMoves(id, true)]).queue != [];
    } else {
      forall more ensures Run(prog, steps + more).queue == [] {
        ExitFinal(prog, steps, more);
      }
    }
  }

  /** The schedule: a producer passes the filter, then the thread is interrupted, drains and exits. */
  lemma {:induction false} InFlightAtExit(prog: Program, id: Id) returns (steps: seq<Step>)
    requires id in prog && prog[id].cmdsz <= MAX_CMDSZ
    ensures var s := Run(prog, steps); s.th.TExit? && s.queue == [] && InFlight(s)
  {
    var t1 := [] + [ThreadMoves(true)];
    RunSnoc(prog, [], ThreadMoves(true));
    var t2 := t1 + [HwInit(true)];
    RunSnoc(prog, t1, HwInit(true));
    var t3 := t2 + [CallerMoves(id, true)];
    RunSnoc(prog, t2, CallerMoves(id, true));
    var s3 := Run(prog, t3);
    assert s3.th.TDown? && s3.queue == [] && id in s3.calls && s3.calls[id].pc.Insert?;
    var t4 := t3 + [ThreadMoves(false)];
    RunSnoc(prog, t3, ThreadMoves(false));
    var t5 := t4 + [ThreadMoves(true)];
    RunSnoc(prog, t4, ThreadMoves(true));
    steps := t5 + [ThreadMoves(true)];
    RunSnoc(prog, t5, ThreadMoves(true));
    assert Run(prog, steps).calls == s3.calls;
  }

  lemma {:induction false} StrandedStep(prog: Program, s: State, a: Step, id: Id)
    requires s.th.TExit? && id in s.queue
    ensures var s' := Next(prog, s, a); s'.th.TExit? && id in s'.queue
  {
    hide CallerMove, CallerFaults, HandleStep, Requeue, DrainStep;
  }

  /**
    A command in the queue of a thread that has exited stays there: in every continuation it is live
    and not disposed of, nobody completes its submit context, and a caller that waited for it can
    only have detached it.
  */
  lemma {:induction false} StrandedForever(prog: Program, steps: seq<Step>, more: seq<Step>, id: Id)
    requires Sized(prog) && Run(prog, steps).th.TExit? && id in Run(prog, steps).queue
    ensures var s := Run(prog, steps + more);
            && s.th.TExit? && id in s.queue && id !in s.disposed && id in prog && id in s.calls
            && s.calls[id].cmd.Live? && !s.calls[id].completed && !s.calls[id].ran
            && (prog[id].wait && s.calls[id].pc == Returned(true) ==> s.calls[id].detached)
    decreases |more|
  {
    if more == [] {
      assert steps + more == steps;
    } else {
      var init, last := more[..|more| - 1], more[|more| - 1];
      StrandedForever(prog, steps, init, id);
      assert steps + more == (steps + init) + [last];
      RunSnoc(prog, steps + init, last);
      StrandedStep(prog, Run(prog, steps + init), last, id);
    }
    StrandedNow(prog, steps + more, id);
  }

  lemma {:induction false} StrandedNow(prog: Program, steps: seq<Step>, id: Id)
    requires Sized(prog) && Run(prog, steps).th.TExit? && id in Run(prog, steps).queue
    ensures var s := Run(prog, steps);
            && id !in s.disposed && id in prog && id in s.calls
            && s.calls[id].cmd.Live? && !s.calls[id].completed && !s.calls[id].ran
            && (prog[id].wait && s.calls[id].pc == Returned(true) ==> s.calls[id].detached)
  {
    hide Run;
    RunInv(prog, steps);
    DisposedInOrder(prog, steps);
    var s := Run(prog, steps);
    assert s.accepted == s.disposed + Held(s.th) + s.queue;
    assert CallOk(prog[id], s.calls[id], true, Queued);
  }

  /** After a clean exit every accepted command has been disposed of and every context settled. */
  lemma {:induction false} CleanExit(prog: Program, steps: seq<Step>)
    requires Sized(prog)
    requires Run(prog, steps).th.TExit? && Run(prog, steps).queue == []
    ensures var s := Run(prog, steps);
            && s.disposed == s.accepted
            && (forall id :: id in s.accepted ==> id in s.calls && s.calls[id].cmd.Freed? && !s.calls[id].side)
            && (forall id :: id in prog && prog[id].wait && id in s.accepted ==> Settled(s.calls[id]))
  {
    DisposedInOrder(prog, steps);
    RunInv(prog, steps);
    var s := Run(prog, steps);
    assert s.accepted == s.accepted[..|s.disposed|] + s.accepted[|s.disposed|..];
    forall id | id in prog && prog[id].wait && id in s.accepted ensures Settled(s.calls[id]) {
      assert CallOk(prog[id], s.calls[id], true, PlaceOf(s, id));
    }
  }
}
