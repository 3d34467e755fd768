/** What every run of the sounding scheduler keeps, and that every period comes to an end. */
module SoundingTheorems {
  import opened Sounding

  // ---------------------------------------------------------------- one sounding

  lemma StartSuOk(s: State)
    requires PeriodOk(s) && NextSu(s) < SU_MAX
    ensures PeriodOk(StartSu(s, s.suList[NextSu(s)]))
    ensures Unsounded(StartSu(s, s.suList[NextSu(s)])) == Unsounded(s) - 1
  {
  }

  lemma StartMuOk(s: State)
    requires PeriodOk(s) && Unsounded(s) == 0 && s.muCnt > 0
    ensures PeriodOk(StartMu(s))
  {
  }

  /** A period over or started anew keeps the invariant. */
  lemma PhaseOk(s: State, p: Phase, running: int, waitCnt: nat)
    requires PeriodOk(s) && !p.SuStart?
    ensures PeriodOk(s.(phase := p, running := running, waitCnt := waitCnt))
  {
  }

  /** Rewriting entries without touching their marks keeps the invariant. */
  lemma MarksKept(s: State, s1: State)
    requires PeriodOk(s) && |s1.bfee| == ENTRIES && s1 == s.(bfee := s1.bfee, phase := s1.phase, minPeriod := s1.minPeriod)
    requires forall i :: 0 <= i < ENTRIES ==> s1.bfee[i].sounding == s.bfee[i].sounding
    requires s1.phase.SuStart? ==> s1.cur < ENTRIES && !s1.bfee[s1.cur].timeout
    ensures PeriodOk(s1) && Unsounded(s1) == Unsounded(s)
  {
  }

  lemma {:induction false} SoundOk(s: State)
    requires PeriodOk(s)
    ensures PeriodOk(Sound(s))
    decreases Unsounded(s), 1
  {
    var k := NextSu(s);
    if k < SU_MAX {
      var s1 := StartSu(s, s.suList[k]);
      StartSuOk(s);
      if s1.bfee[s1.cur].delete {
        DownOk(s1, false);
      }
    } else if s.muCnt > 0 {
      StartMuOk(s);
    } else {
      PhaseOk(s, Init, s.running - 1, s.waitCnt);
    }
  }

  lemma {:induction false} DownOk(s: State, status: bool)
    requires PeriodOk(s)
    ensures PeriodOk(Down(s, status))
    decreases Unsounded(s), 3
  {
    if s.phase.MuStart? {
      var s1 := s.(phase := MuDown);
      PhaseOk(s, MuDown, s.running, s.waitCnt);
      assert Unsounded(s1) == Unsounded(s);
      SoundOk(s1);
    } else if s.phase.SuStart? {
      var s1 := s.(phase := SuDown, bfee := s.bfee[s.cur := Answered(s.bfee[s.cur], status)]);
      MarksKept(s, s1);
      SoundOk(s1);
    }
  }

  // ---------------------------------------------------------------- the start of a period

  /** Listing changes no mark, and lists only entries in use. */
  ghost predicate Kept(a: Lists, r: Lists) {
    && |r.bfee| == |a.bfee| && |r.suList| == SU_MAX && r.su <= SU_MAX
    && (forall i :: 0 <= i < |a.bfee| ==> r.bfee[i].sounding == a.bfee[i].sounding && r.bfee[i].used == a.bfee[i].used)
    && (forall k :: 0 <= k < r.su ==> r.suList[k] < |a.bfee| && a.bfee[r.suList[k]].used)
  }

  lemma ListOneKeeps(a: Lists, r: Lists, i: nat, minPeriod: nat)
    requires Kept(a, r) && i < |r.bfee| && |r.muList| == MU_MAX
    ensures Kept(a, ListOne(r, i, minPeriod))
  {
  }

  lemma {:induction false} ListKeeps(a: Lists, n: nat, minPeriod: nat)
    requires n <= |a.bfee| && |a.suList| == SU_MAX && |a.muList| == MU_MAX && a.su == 0
    ensures Kept(a, ListUpTo(a, n, minPeriod))
  {
    hide ListOne;
    if n > 0 {
      ListKeeps(a, n - 1, minPeriod);
      ListOneKeeps(a, ListUpTo(a, n - 1, minPeriod), n - 1, minPeriod);
    }
  }

  /** After listing, nobody on the single-user list counts as sounded, and nobody is listed twice. */
  lemma ListedOk(s: State)
    requires Wf(s)
    ensures PeriodOk(WithLists(s, Listed(s)).(phase := Init))
  {
    var r := Reset(s);
    var a := Lists(r.bfee, r.suList, r.muList, 0, 0, 0);
    ListKeeps(a, ENTRIES, s.minPeriod);
    ListedWf(s);
    var l, s1 := Listed(s), WithLists(s, Listed(s)).(phase := Init);
    assert forall i :: 0 <= i < ENTRIES && r.bfee[i].used ==> !r.bfee[i].sounding;
    forall i: nat | InSu(s1, i) ensures !s1.bfee[i].sounding {
      assert l.suList[0] == i ==> l.su > 0;
      assert l.suList[1] == i ==> l.su > 1;
    }
  }

  lemma HandleOk(s: State, scanning: bool)
    requires PeriodOk(s)
    ensures PeriodOk(Handle(s, scanning))
  {
    if s.phase.Init? {
      var l := Listed(s);
      var s1 := WithLists(s, l);
      ListedOk(s);
      assert s1.(phase := Init) == s1;
      PhaseOk(s1, Off, s.running - 1, 0);
      PhaseOk(s1, Init, s.running - 1, s.waitCnt + 1);
      PhaseOk(s1, Init, s.running - 1, 0);
      PhaseOk(s1, Init, s.running, 0);
      SoundOk(s1.(waitCnt := 0));
    } else if s.phase.SuDown? || s.phase.MuDown? || s.phase.TimedOut? {
      SoundOk(s);
    }
  }

  // ---------------------------------------------------------------- every run

  lemma NextOk(s: State, a: Step)
    requires PeriodOk(s)
    ensures PeriodOk(Next(s, a))
  {
    match a
    case Start(scanning) => HandleOk(s, scanning);
    case End(status) => DownOk(s, status);
    case TimeoutTimer =>
      if s.phase.SuStart? || s.phase.MuStart? {
        MarksKept(s, OnTimeout(s));
      }
    case PeriodTimer(late) =>
      PhaseOk(s, Init, 1, s.waitCnt);
      PhaseOk(s, Init, s.running - 1, s.waitCnt);
    case Wake => PhaseOk(s, Init, s.running, s.waitCnt);
    case Reinit =>
    case Env(i, _, _) =>
      if i < ENTRIES {
        MarksKept(s, Next(s, a));
      }
  }

  ghost function Run(s: State, steps: seq<Step>): (r: State)
    requires PeriodOk(s)
    ensures PeriodOk(r)
  {
    if steps == [] then s
    else
      var p := Run(s, steps[..|steps| - 1]);
      NextOk(p, steps[|steps| - 1]);
      Next(p, steps[|steps| - 1])
  }

  /** The state before the first period, with any entries and minimum period that joins have left. */
  function Fresh(bfee: seq<Bfee>, minPeriod: nat): State {
    State(bfee, Off, seq(SU_MAX, _ => NO_ENTRY), seq(MU_MAX, _ => NO_ENTRY), NO_ENTRY, 0, minPeriod, 0, 0, [])
  }

  /**
    In every run, within one period: no single-user entry is sounded twice and only listed ones
    are; multi-user sounding starts at most once, and only after every listed single-user entry.
  */
  lemma {:induction false} SoundedOnce(bfee: seq<Bfee>, minPeriod: nat, steps: seq<Step>)
    requires |bfee| == ENTRIES
    ensures PeriodOk(Fresh(bfee, minPeriod))
    ensures var s := Run(Fresh(bfee, minPeriod), steps);
            && (forall p, q :: 0 <= p < q < |s.log| ==> s.log[p] != s.log[q])
            && (forall i: nat :: Su(i) in s.log ==> InSu(s, i))
            && (forall p :: 0 <= p < |s.log| && s.log[p] == Mu ==>
                  p == |s.log| - 1 && forall i: nat :: InSu(s, i) ==> Su(i) in s.log[..p])
            && (s.phase.SuStart? ==> !s.bfee[s.cur].timeout)
  {
  }

  // ---------------------------------------------------------------- a period ends

  /** Soundings still to be started in this period. */
  function Remaining(s: State): nat
    requires |s.bfee| == ENTRIES && |s.suList| == SU_MAX
  {
    Unsounded(s) + if s.muCnt > 0 then 1 else 0
  }

  predicate Busy(p: Phase) {
    p.SuStart? || p.MuStart?
  }

  /** The next sounding of a shrinking rest is under way, or the period is over. */
  predicate Advanced(s: State, s1: State)
    requires |s.bfee| == |s1.bfee| == ENTRIES && |s.suList| == |s1.suList| == SU_MAX
  {
    || (Busy(s1.phase) && Remaining(s1) < Remaining(s) && s1.running == s.running)
    || (s1.phase == Init && s1.running == s.running - 1)
  }

  lemma {:induction false} SoundAdvances(s: State)
    requires PeriodOk(s)
    ensures PeriodOk(Sound(s))
    ensures var s1 := Sound(s); Advanced(s, s1)
    decreases Unsounded(s), 1
  {
    SoundOk(s);
    var k := NextSu(s);
    if k < SU_MAX {
      var s1 := StartSu(s, s.suList[k]);
      StartSuOk(s);
      if s1.bfee[s1.cur].delete {
        DownAdvances(s1, false);
      }
    }
  }

  /** An answer is recorded and then the next sounding starts from state `c`. */
  lemma DownIsSound(s: State, status: bool) returns (c: State)
    requires PeriodOk(s) && Busy(s.phase)
    ensures PeriodOk(c) && Unsounded(c) == Unsounded(s) && c.muCnt == s.muCnt && c.running == s.running
    ensures Down(s, status) == Sound(c)
  {
    hide Sound;
    if s.phase.MuStart? {
      c := s.(phase := MuDown);
      PhaseOk(s, MuDown, s.running, s.waitCnt);
    } else {
      c := s.(phase := SuDown, bfee := s.bfee[s.cur := Answered(s.bfee[s.cur], status)]);
      MarksKept(s, c);
    }
  }

  /** Every answer either starts the next sounding of a shrinking rest, or ends the period. */
  lemma {:induction false} DownAdvances(s: State, status: bool)
    requires PeriodOk(s) && Busy(s.phase)
    ensures PeriodOk(Down(s, status))
    ensures var s1 := Down(s, status);
            Advanced(s, s1)
    decreases Unsounded(s), 3
  {
    var c := DownIsSound(s, status);
    SoundAdvances(c);
    hide Down, Sound, Unsounded;
  }

  /** So does a timeout: the handler goes on from the state it leaves. */
  lemma TimeoutIsSound(s: State, scanning: bool)
    requires PeriodOk(s) && Busy(s.phase)
    ensures var c := OnTimeout(s);
            && PeriodOk(c) && Unsounded(c) == Unsounded(s) && c.muCnt == s.muCnt && c.running == s.running
            && Handle(c, scanning) == Sound(c)
  {
    hide Sound;
    MarksKept(s, OnTimeout(s));
  }

  /** A sounding that times out is followed by the next one, or by the end of the period. */
  lemma TimeoutAdvances(s: State, scanning: bool)
    requires PeriodOk(s) && Busy(s.phase)
    ensures PeriodOk(OnTimeout(s)) && PeriodOk(Handle(OnTimeout(s), scanning))
    ensures var s1 := Handle(OnTimeout(s), scanning);
            Advanced(s, s1)
  {
    TimeoutIsSound(s, scanning);
    SoundAdvances(OnTimeout(s));
    hide Handle, Sound, Unsounded;
  }

  /** A sounding is under way, or has timed out and waits for the handler. */
  predicate Active(p: Phase) {
    Busy(p) || p.TimedOut?
  }

  /** The steps that get a period ahead: an answer, a timeout, and the handler's turn after one. */
  predicate Ahead(s: State, a: Step) {
    (Busy(s.phase) && (a.End? || a.TimeoutTimer?)) || (s.phase.TimedOut? && a.Start?)
  }

  /** How many such steps an active period still has before it. */
  function Potential(s: State): nat
    requires |s.bfee| == ENTRIES && |s.suList| == SU_MAX
  {
    if !Active(s.phase) then 0 else 2 * Remaining(s) + if Busy(s.phase) then 2 else 1
  }

  /**
    The period is over: finished and counted off; replaced by a new one, which the period timer starts
    if no sounding is counted as running; or gone with the last beamformee.
  */
  predicate Over(s: State, s1: State)
  {
    || (s1.phase == Init && s1.running == s.running - 1)
    || (s1.phase == Init && s.running == 0 && s1.running == 1)
    || (s1.phase == Off && s1.suList == seq(SU_MAX, _ => NO_ENTRY) && s1.muCnt == 0)
  }

  lemma AheadStep(s: State, a: Step)
    requires PeriodOk(s) && Active(s.phase) && Ahead(s, a)
    ensures PeriodOk(Next(s, a)) && Potential(Next(s, a)) < Potential(s)
    ensures if Active(Next(s, a).phase) then Next(s, a).running == s.running else Over(s, Next(s, a))
  {
    hide Unsounded, Sound, Handle, Down;
    match a
    case End(status) => DownAdvances(s, status);
    case TimeoutTimer => TimeoutIsSound(s, false);
    case Start(scanning) =>
      SoundAdvances(s);
      TimedOutSounds(s, scanning);
  }

  lemma TimedOutSounds(s: State, scanning: bool)
    requires Wf(s) && s.phase.TimedOut?
    ensures Handle(s, scanning) == Sound(s)
  {
  }

  /** All other steps, changes of entries and of the minimum period included, get it no further back. */
  lemma OtherStep(s: State, a: Step)
    requires PeriodOk(s) && Active(s.phase) && !Ahead(s, a)
    ensures PeriodOk(Next(s, a))
    ensures if Active(Next(s, a).phase) then Potential(Next(s, a)) == Potential(s) && Next(s, a).running == s.running
            else Over(s, Next(s, a))
  {
    NextOk(s, a);
    if a.Env? && a.i < ENTRIES {
      MarksKept(s, Next(s, a));
    }
  }

  /** The run up to the end of the period. */
  ghost function Play(s: State, steps: seq<Step>): State
    requires PeriodOk(s)
    decreases |steps|
  {
    if steps == [] || !Active(s.phase) then s
    else
      NextOk(s, steps[0]);
      Play(Next(s, steps[0]), steps[1..])
  }

  /** The number of steps on the way that get the period ahead. */
  ghost function Headway(s: State, steps: seq<Step>): nat
    requires PeriodOk(s)
    decreases |steps|
  {
    if steps == [] || !Active(s.phase) then 0
    else
      NextOk(s, steps[0]);
      Headway(Next(s, steps[0]), steps[1..]) + if Ahead(s, steps[0]) then 1 else 0
  }

  /**
    Whatever happens in between, no run takes more steps ahead than two for each sounding that
    remains and two for the one under way; after that many the period is over.
  */
  lemma {:induction false} PeriodEnds(s: State, steps: seq<Step>)
    requires PeriodOk(s) && Active(s.phase)
    ensures Headway(s, steps) <= Potential(s) <= 2 * Remaining(s) + 2
    ensures Headway(s, steps) == Potential(s) ==> Over(s, Play(s, steps))
    ensures Active(Play(s, steps).phase) || Over(s, Play(s, steps))
    decreases |steps|
  {
    assert Wf(s);
    hide Potential, Next, PeriodOk, Remaining, Ahead;
    PotentialBound(s);
    if steps != [] {
      var a := steps[0];
      NextOk(s, a);
      if Ahead(s, a) {
        AheadStep(s, a);
      } else {
        OtherStep(s, a);
      }
      if Active(Next(s, a).phase) {
        PeriodEnds(Next(s, a), steps[1..]);
      }
    }
  }

  lemma PotentialBound(s: State)
    requires PeriodOk(s) && Active(s.phase)
    ensures 1 <= Potential(s) <= 2 * Remaining(s) + 2
  {
  }

  // ---------------------------------------------------------------- fail counts and delete marks

  ghost predicate NewlySounded(s: State, r: State, i: nat) {
    Su(i) in r.log && Su(i) !in s.log
  }

  /** The state behind the answer to a single-user sounding. */
  function AfterAnswer(s: State, status: bool): State
    requires Wf(s) && s.phase.SuStart?
  {
    s.(phase := SuDown, bfee := s.bfee[s.cur := Answered(s.bfee[s.cur], status)])
  }

  lemma AnswerThenSound(s: State, status: bool)
    requires PeriodOk(s) && s.phase.SuStart?
    ensures var c := AfterAnswer(s, status);
            PeriodOk(c) && Unsounded(c) == Unsounded(s) && Down(s, status) == Sound(c)
  {
    hide Sound;
    MarksKept(s, AfterAnswer(s, status));
  }

  /**
    Going on to the next sounding counts no failure. It takes the delete mark off exactly the marked
    entries it sounds on the way, and never waits for the answer of an entry that is being deleted.
  */
  lemma {:induction false} SoundMarks(s: State, i: nat)
    requires PeriodOk(s) && i < ENTRIES
    ensures var r := Sound(s);
            && |r.bfee| == ENTRIES && s.log <= r.log && r.bfee[i].failCnt == s.bfee[i].failCnt
            && (r.bfee[i].delete <==> s.bfee[i].delete && !NewlySounded(s, r, i))
            && (r.phase.SuStart? ==> r.cur < ENTRIES && !r.bfee[r.cur].delete)
    decreases Unsounded(s)
  {
    var k := NextSu(s);
    if k < SU_MAX {
      var s1 := StartSu(s, s.suList[k]);
      StartSuOk(s);
      if s1.bfee[s1.cur].delete {
        AnswerThenSound(s1, false);
        SoundMarks(AfterAnswer(s1, false), i);
        hide Sound, Down, Unsounded, PeriodOk;
      }
    }
  }

  /**
    An answer clears the entry's fail count on success. A failed one takes the delete mark off a marked
    entry and counts, in five bits, against any other. No other entry's count changes.
  */
  lemma AnswerCounts(s: State, status: bool, i: nat)
    requires PeriodOk(s) && s.phase.SuStart? && i < ENTRIES
    ensures var r, b := Down(s, status), s.bfee[i];
            && |r.bfee| == ENTRIES
            && r.bfee[i].failCnt == (if i != s.cur then b.failCnt else if status then 0
                                     else if b.delete then b.failCnt else (b.failCnt + 1) % 32)
            && (r.bfee[i].delete <==> b.delete && (i == s.cur ==> status) && !NewlySounded(s, r, i))
  {
    AnswerThenSound(s, status);
    SoundMarks(AfterAnswer(s, status), i);
    hide Sound, Down, Unsounded, PeriodOk;
  }
}
