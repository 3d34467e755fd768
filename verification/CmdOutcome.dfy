/**
  Which commands the thread runs and what a waiting caller is told, over every run.
*/
module CmdOutcome {
  import opened CmdMachine
  import opened CmdSafety
  import opened CmdTheorems

  /** The code is in the command table and has a handler there. */
  predicate HasHandler(code: Code) {
    match code
    case DrvExtra(_) => true
    case ChanPlan => true
    case Table(handler) => handler
    case OutOfTable => false
  }

  predicate Runnable(r: Request) {
    HasHandler(r.code) && r.cmdsz <= MAX_CMDSZ
  }

  /** What the submit context has to report for a command: dropped, succeeded, or failed or refused. */
  function Verdict(me: Call): Status {
    if me.drained then DoneDrop else if me.ran && me.good then DoneSuccess else DoneError
  }

  /** What is known of a command, given where it is. */
  predicate OutcomeOk(r: Request, me: Call, acc: bool, place: Place) {
    && (me.ran ==> Runnable(r) && !me.drained)
    && (me.drained ==> acc && !place.Queued? && (place.InHand? ==> !BeforeSide(place.at)))
    && (if me.completed then me.status == Verdict(me) else me.status == Submitted)
    && (place.InHand? && (place.at.Alive? || place.at.Execute?) ==> Runnable(r))
    && (place.InHand? && !BeforeSide(place.at) ==> place.at.res == Verdict(me))
  }

  ghost predicate OutcomesOk(prog: Program, s: State)
    requires s.calls.Keys == prog.Keys
  {
    forall id :: id in prog ==> OutcomeOk(prog[id], s.calls[id], id in s.accepted, PlaceOf(s, id))
  }

  // ---------------------------------------------------------------- one call, one step

  lemma CallerOutcome(r: Request, pass: bool, free: bool, pick: bool, me: Call, acc: bool, place: Place)
    requires CallOk(r, me, acc, place) && OutcomeOk(r, me, acc, place)
    ensures OutcomeOk(r, CallerMove(r, pass, free, pick, me), acc || me.pc.Insert?, if me.pc.Insert? then Queued else place)
  {
  }

  lemma HandleOutcome(r: Request, pass: bool, free: bool, pick: bool, at: Phase, me: Call)
    requires CallOk(r, me, true, InHand(at)) && OutcomeOk(r, me, true, InHand(at))
    ensures OutcomeOk(r, HandleCall(r, pass, pick, at, me), true,
                      if at.Dispose? then Nowhere else InHand(NextPhase(r, pass, free, pick, at, me)))
  {
  }

  /** Taking a queued command into hand, to process it or to drop it. */
  lemma TakenOutcome(r: Request, me: Call)
    requires CallOk(r, me, true, Queued) && OutcomeOk(r, me, true, Queued)
    ensures OutcomeOk(r, me, true, InHand(Process))
    ensures OutcomeOk(r, me.(side := false, drained := true), true, InHand(Acquire(DoneDrop)))
  {
  }

  lemma RequeuedOutcome(r: Request, me: Call)
    requires OutcomeOk(r, me, true, InHand(Alive))
    ensures OutcomeOk(r, if me.cmd.Live? then me.(cmd := me.cmd.(requeued := true)) else me, true, Queued)
  {
  }

  // ---------------------------------------------------------------- every step

  /** Only command `c` has moved, from a known place to a known place. */
  lemma {:induction false} OneMoved(prog: Program, s: State, s': State, c: Id)
    requires s.calls.Keys == s'.calls.Keys == prog.Keys && OutcomesOk(prog, s) && c in prog
    requires OutcomeOk(prog[c], s'.calls[c], c in s'.accepted, PlaceOf(s', c))
    requires forall i :: i in prog && i != c ==>
               s'.calls[i] == s.calls[i] && (i in s'.accepted <==> i in s.accepted) && PlaceOf(s', i) == PlaceOf(s, i)
    ensures OutcomesOk(prog, s')
  {
    hide OutcomeOk, PlaceOf;
  }

  lemma {:induction false} CallerOutcomes(prog: Program, s: State, id: Id, pick: bool)
    requires Inv(prog, s) && OutcomesOk(prog, s) && id in prog
    ensures CallerStep(prog[id], s, id, pick).calls.Keys == prog.Keys
    ensures OutcomesOk(prog, CallerStep(prog[id], s, id, pick))
  {
    hide OutcomeOk, MutexOk, OrderOk, CallerMove, WakeOk, CallerFaults;
    var r, me, s' := prog[id], s.calls[id], CallerStep(prog[id], s, id, pick);
    assert CallOk(r, me, id in s.accepted, PlaceOf(s, id));
    CallerOutcome(r, FilterPasses(r, s), r.adapter !in s.mutex, pick, me, id in s.accepted, PlaceOf(s, id));
    assert me.pc.Insert? ==> PlaceOf(s, id) == Nowhere;
    hide CallOk;
    OneMoved(prog, s, s', id);
  }

  lemma {:induction false} HandleOutcomes(prog: Program, s: State, pick: bool)
    requires Inv(prog, s) && OutcomesOk(prog, s) && s.th.THas?
    ensures s.th.c in prog
    ensures var s' := HandleStep(prog[s.th.c], s, s.th.c, s.th.at, pick); s'.calls.Keys == prog.Keys && OutcomesOk(prog, s')
  {
    hide OutcomeOk, CallOk, CallsOk, MutexOk, OrderOk, WakeOk, HandleCall, NextPhase, HandleFaults;
    InHandLive(prog, s);
    var c, at := s.th.c, s.th.at;
    var r, me, s' := prog[c], s.calls[c], HandleStep(prog[c], s, c, at, pick);
    HandleOutcome(r, FilterPasses(r, s), r.adapter !in s.mutex, pick, at, me);
    OneMoved(prog, s, s', c);
  }

  lemma {:induction false} RequeueOutcomes(prog: Program, s: State)
    requires Inv(prog, s) && OutcomesOk(prog, s) && s.th.THas? && s.th.at.Alive?
    ensures s.th.c in prog
    ensures var s' := Requeue(s, s.th.c); s'.calls.Keys == prog.Keys && OutcomesOk(prog, s')
  {
    hide OutcomeOk, CallOk, CallsOk, MutexOk, OrderOk, WakeOk;
    InHandLive(prog, s);
    var c := s.th.c;
    assert OutcomeOk(prog[c], s.calls[c], true, InHand(Alive));
    RequeuedOutcome(prog[c], s.calls[c]);
    OneMoved(prog, s, Requeue(s, c), c);
  }

  /** The head of the queue is live, accepted and in the queue once. */
  lemma {:induction false} HeadLive(prog: Program, s: State)
    requires Inv(prog, s) && !s.th.THas? && s.queue != []
    ensures var c := s.queue[0]; c in prog && c in s.accepted && c !in s.queue[1..] && CallOk(prog[c], s.calls[c], true, Queued)
  {
    hide MutexOk, WakeOk;
    QueueParts(s);
    assert s.queue[0] in s.accepted;
  }

  lemma {:induction false} DrainOutcomes(prog: Program, s: State)
    requires Inv(prog, s) && OutcomesOk(prog, s) && s.th.TDrain? && s.queue != []
    ensures s.queue[0] in prog
    ensures var s' := DrainStep(prog[s.queue[0]], s, s.queue[0]); s'.calls.Keys == prog.Keys && OutcomesOk(prog, s')
  {
    hide OutcomeOk, CallOk, CallsOk, MutexOk, OrderOk, WakeOk;
    HeadLive(prog, s);
    var c := s.queue[0];
    assert s.queue == [c] + s.queue[1..];
    assert OutcomeOk(prog[c], s.calls[c], true, Queued);
    TakenOutcome(prog[c], s.calls[c]);
    OneMoved(prog, s, DrainStep(prog[c], s, c), c);
  }

  lemma {:induction false} IdleOutcomes(prog: Program, s: State, pick: bool)
    requires Inv(prog, s) && OutcomesOk(prog, s) && !s.th.THas?
    ensures IdleStep(s, pick).calls == s.calls && OutcomesOk(prog, IdleStep(s, pick))
  {
    hide OutcomeOk, CallOk, CallsOk, MutexOk, OrderOk, WakeOk;
    var s' := IdleStep(s, pick);
    if s.queue != [] && s.th.TDequeue? {
      HeadLive(prog, s);
      var c := s.queue[0];
      assert s.queue == [c] + s.queue[1..];
      assert OutcomeOk(prog[c], s.calls[c], true, Queued);
      TakenOutcome(prog[c], s.calls[c]);
      OneMoved(prog, s, s', c);
    } else {
      assert forall i :: i in prog ==> PlaceOf(s', i) == PlaceOf(s, i);
    }
  }

  lemma {:induction false} ThreadOutcomes(prog: Program, s: State, pick: bool)
    requires Inv(prog, s) && OutcomesOk(prog, s)
    ensures ThreadStep(prog, s, pick).calls.Keys == prog.Keys && OutcomesOk(prog, ThreadStep(prog, s, pick))
  {
    assert s.calls.Keys == prog.Keys;
    hide Inv, OutcomesOk, HandleStep, Requeue, DrainStep, IdleStep;
    if s.th.THas? {
      if s.th.at.Alive? && !pick { RequeueOutcomes(prog, s); } else { HandleOutcomes(prog, s, pick); }
    } else if s.th.TDrain? && s.queue != [] {
      DrainOutcomes(prog, s);
    } else {
      IdleOutcomes(prog, s, pick);
    }
  }

  /** Nothing changed that the outcomes depend on. */
  lemma OutcomesFrame(prog: Program, s: State, s': State)
    requires s.calls.Keys == prog.Keys && OutcomesOk(prog, s)
    requires s'.calls == s.calls && s'.accepted == s.accepted && s'.queue == s.queue && s'.th == s.th
    ensures OutcomesOk(prog, s')
  {
    hide OutcomeOk;
    assert forall i :: i in prog ==> PlaceOf(s', i) == PlaceOf(s, i);
  }

  lemma {:induction false} NextOutcomes(prog: Program, s: State, a: Step)
    requires Inv(prog, s) && OutcomesOk(prog, s)
    ensures Next(prog, s, a).calls.Keys == prog.Keys && OutcomesOk(prog, Next(prog, s, a))
  {
    assert s.calls.Keys == prog.Keys;
    hide Inv, OutcomesOk, CallerStep, ThreadStep;
    match a
    case CallerMoves(id, pick) =>
      if id in prog {
        CallerOutcomes(prog, s, id, pick);
      }
    case ThreadMoves(pick) => ThreadOutcomes(prog, s, pick);
    case _ => OutcomesFrame(prog, s, Next(prog, s, a));
  }

  lemma {:induction false} RunOutcomes(prog: Program, steps: seq<Step>)
    requires Sized(prog)
    ensures Run(prog, steps).calls.Keys == prog.Keys && OutcomesOk(prog, Run(prog, steps))
  {
    if steps != [] {
      var init, last := steps[..|steps| - 1], steps[|steps| - 1];
      RunOutcomes(prog, init);
      RunInv(prog, init);
      NextOutcomes(prog, Run(prog, init), last);
    }
  }

  // ---------------------------------------------------------------- what is run and what is told

  /**
    In every run: a handler runs only for a command that has one and fits the buffer, and never for one
    that the drain took; and a completed submit context tells exactly what happened: dropped if the
    drain took the command, success if its handler ran and succeeded, an error in all other cases.
  */
  lemma {:induction false} OutcomeTold(prog: Program, steps: seq<Step>, id: Id)
    requires Sized(prog) && id in prog
    ensures id in Run(prog, steps).calls
    ensures var me := Run(prog, steps).calls[id];
            && (me.ran ==> HasHandler(prog[id].code) && prog[id].cmdsz <= MAX_CMDSZ && !me.drained)
            && (me.completed <==> me.status != Submitted)
            && (me.completed ==>
                  && (me.status == DoneDrop <==> me.drained)
                  && (me.status == DoneSuccess <==> me.ran && me.good)
                  && (me.status == DoneError <==> !me.drained && !(me.ran && me.good)))
  {
    RunOutcomes(prog, steps);
    assert OutcomeOk(prog[id], Run(prog, steps).calls[id], id in Run(prog, steps).accepted, PlaceOf(Run(prog, steps), id));
  }

  /** The command is on its way out without having been run. */
  predicate PassedOver(s: State, c: Id) {
    && c in s.calls && !s.calls[c].ran && c in s.accepted
    && (c in s.disposed || (s.th.THas? && s.th.c == c && !BeforeSide(s.th.at)))
  }

  /**
    What the thread does with a command it has taken: one that fits, has a handler and passes the
    filter goes on to be executed, after the power check unless it needs no I/O; every other is
    passed over and acknowledged as an error.
  */
  lemma {:induction false} ProcessDecides(prog: Program, steps: seq<Step>, pick: bool)
    requires Sized(prog) && Run(prog, steps).th.THas? && Run(prog, steps).th.at.Process?
    ensures var s := Run(prog, steps);
            var s', c := Next(prog, s, ThreadMoves(pick)), s.th.c;
            && c in prog && s'.th.THas? && s'.th.c == c
            && (if Runnable(prog[c]) && FilterPasses(prog[c], s)
                then s'.th.at == if prog[c].noIo then Execute else Alive
                else s'.th.at == Acquire(DoneError) && PassedOver(s', c))
  {
    hide Run;
    RunInv(prog, steps);
    ProcessStep(prog, Run(prog, steps), pick);
  }

  lemma {:induction false} ProcessStep(prog: Program, s: State, pick: bool)
    requires Inv(prog, s) && s.th.THas? && s.th.at.Process?
    ensures var s', c := Next(prog, s, ThreadMoves(pick)), s.th.c;
            && c in prog && s'.th.THas? && s'.th.c == c
            && (if Runnable(prog[c]) && FilterPasses(prog[c], s)
                then s'.th.at == if prog[c].noIo then Execute else Alive
                else s'.th.at == Acquire(DoneError) && PassedOver(s', c))
  {
    InHandLive(prog, s);
    var c := s.th.c;
    assert !s.calls[c].ran && Next(prog, s, ThreadMoves(pick)) == HandleStep(prog[c], s, c, Process, pick);
    hide Inv, CallOk, HandleStep, AfterChecks, Next;
    ProcessHandled(prog[c], s, pick);
    ChecksLead(prog[c], FilterPasses(prog[c], s));
  }

  lemma ChecksLead(r: Request, pass: bool)
    ensures AfterChecks(r, pass) == if Runnable(r) && pass then (if r.noIo then Execute else Alive) else Acquire(DoneError)
  {
  }

  lemma ProcessHandled(r: Request, s: State, pick: bool)
    requires s.th.THas? && s.th.at.Process? && s.th.c in s.calls
    ensures var c, s' := s.th.c, HandleStep(r, s, s.th.c, Process, pick);
            && s'.th == THas(c, AfterChecks(r, FilterPasses(r, s))) && s'.accepted == s.accepted
            && c in s'.calls && s'.calls[c].ran == s.calls[c].ran
  {
    hide HandleFaults, AfterChecks;
  }

  /** The power check lets the command through or puts it back at the head of the queue. */
  lemma {:induction false} AliveDecides(prog: Program, steps: seq<Step>, pick: bool)
    requires Sized(prog) && Run(prog, steps).th.THas? && Run(prog, steps).th.at.Alive?
    ensures var s := Run(prog, steps);
            var s', c := Next(prog, s, ThreadMoves(pick)), s.th.c;
            if pick then s'.th == THas(c, Execute) else s'.queue == [c] + s.queue && s'.disposed == s.disposed
  {
    RunInv(prog, steps);
    QueueParts(Run(prog, steps));
  }

  /** A command about to be executed is run by the next step, once. */
  lemma {:induction false} ExecuteRuns(prog: Program, steps: seq<Step>, pick: bool)
    requires Sized(prog) && Run(prog, steps).th.THas? && Run(prog, steps).th.at.Execute?
    ensures var s := Run(prog, steps);
            var s', c := Next(prog, s, ThreadMoves(pick)), s.th.c;
            && c in s.calls && !s.calls[c].ran
            && c in s'.calls && s'.calls[c].ran && s'.calls[c].good == pick
            && s'.th == THas(c, Acquire(if pick then DoneSuccess else DoneError))
  {
    RunInv(prog, steps);
    var s := Run(prog, steps);
    QueueParts(s);
    assert CallOk(prog[s.th.c], s.calls[s.th.c], true, InHand(Execute));
  }

  lemma {:induction false} PassedOverStep(prog: Program, s: State, a: Step, c: Id)
    requires Inv(prog, s) && PassedOver(s, c)
    ensures PassedOver(Next(prog, s, a), c)
  {
    if c in s.disposed {
      DisposedGone(prog, s, c);
    }
    hide Inv, PassedOver, CallerStep, ThreadStep;
    match a
    case CallerMoves(id, pick) =>
      if Known(prog, s, id) {
        CallerPassesOver(prog[id], s, id, pick, c);
      }
    case ThreadMoves(pick) => ThreadPassesOver(prog, s, pick, c);
    case _ => PassedOverFrame(s, Next(prog, s, a), c);
  }

  lemma PassedOverFrame(s: State, s': State, c: Id)
    requires PassedOver(s, c) && s'.calls == s.calls && s'.accepted == s.accepted && s'.disposed == s.disposed && s'.th == s.th
    ensures PassedOver(s', c)
  {
  }

  lemma CallerPassesOver(r: Request, s: State, id: Id, pick: bool, c: Id)
    requires PassedOver(s, c) && id in s.calls
    ensures PassedOver(CallerStep(r, s, id, pick), c)
  {
    hide CallerFaults, CallerNext, CallerCommand;
  }

  lemma ThreadPassesOver(prog: Program, s: State, pick: bool, c: Id)
    requires PassedOver(s, c) && (c in s.disposed ==> c !in s.queue && !(s.th.THas? && s.th.c == c))
    ensures PassedOver(ThreadStep(prog, s, pick), c)
  {
    if s.th.THas? && Known(prog, s, s.th.c) {
      HandledPassedOver(prog[s.th.c], s, pick, c);
      hide HandleStep;
    } else {
      hide HandleStep, Requeue;
    }
  }

  lemma {:induction false} HandledPassedOver(r: Request, s: State, pick: bool, c: Id)
    requires PassedOver(s, c) && s.th.THas? && s.th.c in s.calls && (c in s.disposed ==> s.th.c != c)
    ensures PassedOver(HandleStep(r, s, s.th.c, s.th.at, pick), c)
  {
    hide HandleFaults;
  }

  /** A disposed command is neither queued nor in hand any more. */
  lemma {:induction false} DisposedGone(prog: Program, s: State, c: Id)
    requires Inv(prog, s) && c in s.disposed
    ensures c !in s.queue && !(s.th.THas? && s.th.c == c)
  {
    hide CallsOk, MutexOk, WakeOk;
    var i :| 0 <= i < |s.disposed| && s.disposed[i] == c;
    var d, h := |s.disposed|, |Held(s.th)|;
    assert s.accepted[i] == c;
    if s.th.THas? {
      assert s.accepted[d] == s.th.c;
    }
    forall k | 0 <= k < |s.queue| ensures s.queue[k] != c {
      assert s.accepted[d + h + k] == s.queue[k];
    }
  }

  /** A command that was passed over is not run in any continuation. */
  lemma {:induction false} PassedOverForever(prog: Program, steps: seq<Step>, more: seq<Step>, c: Id)
    requires Sized(prog) && PassedOver(Run(prog, steps), c)
    ensures PassedOver(Run(prog, steps + more), c)
    decreases |more|
  {
    if more == [] {
      assert steps + more == steps;
    } else {
      var init, last := more[..|more| - 1], more[|more| - 1];
      PassedOverForever(prog, steps, init, c);
      assert steps + more == (steps + init) + [last];
      RunSnoc(prog, steps + init, last);
      RunInv(prog, steps + init);
      PassedOverStep(prog, Run(prog, steps + init), last, c);
    }
  }

  /** The drain marks what it takes, and what it takes is passed over. */
  lemma {:induction false} DrainPassesOver(prog: Program, steps: seq<Step>, pick: bool)
    requires Sized(prog) && Run(prog, steps).th.TDrain? && Run(prog, steps).queue != []
    ensures var s := Run(prog, steps);
            var s', c := Next(prog, s, ThreadMoves(pick)), s.queue[0];
            c in s'.calls && s'.calls[c].drained && s'.th == THas(c, Acquire(DoneDrop)) && PassedOver(s', c)
  {
    RunInv(prog, steps);
    var s := Run(prog, steps);
    QueueParts(s);
    var c := s.queue[0];
    assert c in s.accepted;
    assert CallOk(prog[c], s.calls[c], true, Queued);
  }
}
