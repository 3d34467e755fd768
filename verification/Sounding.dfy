/**
  The beamforming sounding scheduler (version 2) on values: one period lists the beamformees that
  are due, sounds the single-user ones one after the other and the multi-user ones together. The
  handler re-enters itself through the command dispatcher when an entry is only being deleted.
*/
module Sounding {

  const SU_MAX: nat := 2
  const MU_MAX: nat := 6
  const ENTRIES: nat := 8
  const NO_ENTRY: nat := 0xFF

  /** One beamformee entry. `mu` and `su` are its capability bits, `added` the hardware state. */
  datatype Bfee = Bfee(used: bool, added: bool, mu: bool, su: bool, apply: bool, delete: bool, suspend: bool,
                       soundCnt: nat, period: nat, sounding: bool, candidate: bool, timeout: bool, failCnt: nat)

  datatype Phase = Off | Init | SuStart | SuDown | MuStart | MuDown | TimedOut

  /** What has been sounded since the period began. */
  datatype Event = Su(idx: nat) | Mu

  datatype State = State(bfee: seq<Bfee>, phase: Phase, suList: seq<nat>, muList: seq<nat>, cur: nat, muCnt: nat,
                         minPeriod: nat, running: int, waitCnt: nat, log: seq<Event>)

  ghost predicate Wf(s: State) {
    && |s.bfee| == ENTRIES && |s.suList| == SU_MAX && |s.muList| == MU_MAX && s.muCnt <= MU_MAX
    && (forall k :: 0 <= k < s.muCnt ==> s.muList[k] < ENTRIES)
    && (s.phase.SuStart? ==> s.cur < ENTRIES)
  }

  // ---------------------------------------------------------------- choosing who is due

  datatype Lists = Lists(bfee: seq<Bfee>, suList: seq<nat>, muList: seq<nat>, su: nat, mu: nat, notReady: nat)

  /** The smallest period of the entries in use below `n`, as a leave recomputes it. */
  function LeastPeriod(bfee: seq<Bfee>, n: nat): nat
    requires n <= |bfee|
  {
    if n == 0 then 0xFFFF
    else
      var m := LeastPeriod(bfee, n - 1);
      if bfee[n - 1].used && bfee[n - 1].period < m then bfee[n - 1].period else m
  }

  /** _sounding_update_min_period after a leave. */
  function MinPeriod(bfee: seq<Bfee>): nat {
    var m := LeastPeriod(bfee, |bfee|);
    if m == 0xFFFF then 0 else m
  }

  lemma {:induction false} LeastPeriodIs(bfee: seq<Bfee>, n: nat)
    requires n <= |bfee|
    ensures var m := LeastPeriod(bfee, n);
            && m <= 0xFFFF
            && (forall i :: 0 <= i < n && bfee[i].used ==> m <= bfee[i].period)
            && (m < 0xFFFF ==> exists i :: 0 <= i < n && bfee[i].used && bfee[i].period == m)
  {
    if n > 0 {
      LeastPeriodIs(bfee, n - 1);
    }
  }

  /**
    With periods that are neither zero nor 0xFFFF the minimum is a period in use and no larger than
    any, so that restarting an entry's count divides by no zero and leaves it at one at least.
  */
  lemma MinPeriodDivides(bfee: seq<Bfee>, i: nat)
    requires i < |bfee| && bfee[i].used
    requires forall k :: 0 <= k < |bfee| && bfee[k].used ==> 1 <= bfee[k].period < 0xFFFF
    ensures 1 <= MinPeriod(bfee) <= bfee[i].period
    ensures exists k :: 0 <= k < |bfee| && bfee[k].used && bfee[k].period == MinPeriod(bfee)
    ensures InitCount(bfee[i].period, MinPeriod(bfee)) >= 1
  {
    LeastPeriodIs(bfee, |bfee|);
    var p, m := bfee[i].period, MinPeriod(bfee);
    assert p / m >= 1 by { Quotient(p, m); }
  }

  lemma Quotient(p: nat, m: nat)
    requires 1 <= m <= p
    ensures p / m >= 1
  {
  }

  /** The count a listed entry restarts with; the source divides, so a minimum of zero is a fault there. */
  function InitCount(period: nat, minPeriod: nat): nat {
    if minPeriod == 0 then 0 else period / minPeriod
  }

  /** Is the entry due in this period, counting down if it is not? */
  predicate Due(b: Bfee) {
    b.soundCnt <= 1
  }

  function CountDown(b: Bfee): Bfee {
    b.(soundCnt := if b.soundCnt > 0 then b.soundCnt - 1 else 0)
  }

  function Restart(b: Bfee, minPeriod: nat): Bfee {
    b.(candidate := true, soundCnt := InitCount(b.period, minPeriod))
  }

  /** Entry `i` is due: it goes on the list it belongs to, if it may and there is room. */
  function Enlist(a: Lists, i: nat, minPeriod: nat): Lists
    requires i < |a.bfee| && |a.suList| == SU_MAX && |a.muList| == MU_MAX
  {
    var b := a.bfee[i];
    var restarted := a.bfee[i := Restart(b, minPeriod)];
    if b.mu then
      if a.mu >= MU_MAX || !b.apply then a
      else a.(bfee := restarted, muList := a.muList[a.mu := i], mu := a.mu + 1)
    else if b.su && a.su < SU_MAX then
      if b.delete then a.(suList := a.suList[a.su := i], su := a.su + 1)
      else if b.apply && !b.suspend then a.(bfee := restarted, suList := a.suList[a.su := i], su := a.su + 1)
      else a
    else a
  }

  /** One turn of the loop of _sounding_get_list. */
  function ListOne(a: Lists, i: nat, minPeriod: nat): Lists
    requires i < |a.bfee| && |a.suList| == SU_MAX && |a.muList| == MU_MAX
  {
    var b := a.bfee[i];
    if !b.used then a
    else if !b.added then a.(notReady := a.notReady + 1)
    else
      var a1 := a.(bfee := a.bfee[i := CountDown(b)]);
      if Due(b) then Enlist(a1, i, minPeriod) else a1
  }

  function ListUpTo(a: Lists, n: nat, minPeriod: nat): (r: Lists)
    requires n <= |a.bfee| && |a.suList| == SU_MAX && |a.muList| == MU_MAX
    ensures |r.bfee| == |a.bfee| && |r.suList| == SU_MAX && |r.muList| == MU_MAX
  {
    if n == 0 then a else ListOne(ListUpTo(a, n - 1, minPeriod), n - 1, minPeriod)
  }

  /** _sounding_reset_vars. */
  function Reset(s: State): State {
    s.(suList := seq(SU_MAX, _ => NO_ENTRY), muList := seq(MU_MAX, _ => NO_ENTRY), cur := NO_ENTRY, muCnt := 0,
       bfee := seq(|s.bfee|, i requires 0 <= i < |s.bfee| => ResetEntry(s.bfee[i])), log := [])
  }

  function ResetEntry(b: Bfee): Bfee {
    if b.used && b.sounding then b.(sounding := false, candidate := false) else b
  }

  /** _sounding_get_list after the reset. */
  function Listed(s: State): Lists
    requires Wf(s)
  {
    var r := Reset(s);
    ListUpTo(Lists(r.bfee, r.suList, r.muList, 0, 0, 0), ENTRIES, s.minPeriod)
  }

  function WithLists(s: State, l: Lists): State {
    s.(bfee := l.bfee, suList := l.suList, muList := l.muList, cur := NO_ENTRY, muCnt := l.mu, log := [])
  }

  // ---------------------------------------------------------------- the handler and its way back

  function Pending(s: State, k: nat): nat
    requires |s.bfee| == ENTRIES && k < |s.suList|
  {
    if s.suList[k] < ENTRIES && !s.bfee[s.suList[k]].sounding then 1 else 0
  }

  /** The number of listed single-user entries not yet sounded. */
  function Unsounded(s: State): nat
    requires |s.bfee| == ENTRIES && |s.suList| == SU_MAX
  {
    Pending(s, 0) + Pending(s, 1)
  }

  /** Position of the next single-user entry to sound, or SU_MAX. */
  function NextSu(s: State): (k: nat)
    requires |s.bfee| == ENTRIES && |s.suList| == SU_MAX
    ensures k <= SU_MAX && (k < SU_MAX ==> s.suList[k] < ENTRIES && !s.bfee[s.suList[k]].sounding)
    ensures k == SU_MAX <==> Unsounded(s) == 0
  {
    if Pending(s, 0) == 1 then 0 else if Pending(s, 1) == 1 then 1 else 2
  }

  function StartSu(s: State, i: nat): State
    requires i < |s.bfee|
  {
    s.(cur := i, phase := SuStart, bfee := s.bfee[i := s.bfee[i].(sounding := true, timeout := false)],
       log := s.log + [Su(i)])
  }

  predicate InMu(s: State, i: nat)
    requires s.muCnt <= |s.muList|
  {
    exists k :: 0 <= k < s.muCnt && s.muList[k] == i
  }

  function StartMu(s: State): State
    requires s.muCnt <= |s.muList|
  {
    s.(phase := MuStart, muCnt := 0, log := s.log + [Mu],
       bfee := seq(|s.bfee|, i requires 0 <= i < |s.bfee| => if InMu(s, i) then s.bfee[i].(sounding := true) else s.bfee[i]))
  }

  function Finish(s: State): State {
    s.(phase := Init, running := s.running - 1)
  }

  /** The part of _sounding_handler behind the period start. */
  function Sound(s: State): State
    requires Wf(s)
    decreases 0, Unsounded(s), 1
  {
    var k := NextSu(s);
    if k < SU_MAX then
      var s1 := StartSu(s, s.suList[k]);
      if s1.bfee[s1.cur].delete then
        assert Unsounded(s1) < Unsounded(s);
        Down(s1, false)
      else s1
    else if s.muCnt > 0 then StartMu(s)
    else Finish(s)
  }

  /** _sounding_handler; `scanning` says that a site survey is under way. */
  function Handle(s: State, scanning: bool): State
    requires Wf(s)
    decreases if s.phase.Init? then 1 else 0, Unsounded(s), 2
  {
    match s.phase
    case Init =>
      var l := Listed(s);
      var s1 := WithLists(s, l);
      ListedWf(s);
      if l.su + l.mu == 0 then
        if l.notReady == 0 then s1.(waitCnt := 0, phase := Off, running := s.running - 1)
        else if s.waitCnt < 5 then s1.(waitCnt := s.waitCnt + 1, running := s.running - 1)
        else s1.(waitCnt := 0, phase := Off, running := s.running - 1)
      else if scanning then s1.(waitCnt := 0, running := s.running - 1)
      else Sound(s1.(waitCnt := 0))
    case SuDown => Sound(s)
    case MuDown => Sound(s)
    case TimedOut => Sound(s)
    case _ => s
  }

  /** What the answer to a single-user sounding does to its entry. */
  function Answered(b: Bfee, status: bool): Bfee {
    if status then b.(failCnt := 0)
    else if b.delete then b.(delete := false)
    else b.(failCnt := (b.failCnt + 1) % 32)              // a five-bit field
  }

  /** _beamforming_sounding_down. */
  function Down(s: State, status: bool): State
    requires Wf(s)
    decreases 0, Unsounded(s), 3
  {
    match s.phase
    case MuStart => Handle(s.(phase := MuDown), false)
    case SuStart =>
      var b := s.bfee[s.cur];
      if b.timeout then s.(phase := SuDown, bfee := s.bfee[s.cur := b.(timeout := false)])
      else
        var s1 := s.(phase := SuDown, bfee := s.bfee[s.cur := Answered(b, status)]);
        assert Unsounded(s1) == Unsounded(s);
        Handle(s1, false)
    case _ => s
  }

  // ---------------------------------------------------------------- the lists

  /** What holds of the lists while the entries below `n` have been looked at. */
  ghost predicate ListsOk(a: Lists, n: nat) {
    && |a.suList| == SU_MAX && |a.muList| == MU_MAX && a.su <= SU_MAX && a.mu <= MU_MAX
    && (forall k :: 0 <= k < a.su ==> a.suList[k] < n)
    && (forall k :: a.su <= k < SU_MAX ==> a.suList[k] == NO_ENTRY)
    && (forall k :: 0 <= k < a.mu ==> a.muList[k] < n)
    && (forall j, k :: 0 <= j < k < a.su ==> a.suList[j] < a.suList[k])
    && (forall j, k :: 0 <= j < k < a.mu ==> a.muList[j] < a.muList[k])
  }

  /** A turn leaves both lists alone or puts the entry at the end of one of them. */
  lemma ListOneCases(a: Lists, i: nat, minPeriod: nat)
    requires i < |a.bfee| && |a.suList| == SU_MAX && |a.muList| == MU_MAX
    ensures var r := ListOne(a, i, minPeriod);
            || (r.suList == a.suList && r.su == a.su && r.muList == a.muList && r.mu == a.mu)
            || (a.su < SU_MAX && r.suList == a.suList[a.su := i] && r.su == a.su + 1 && r.muList == a.muList && r.mu == a.mu)
            || (a.mu < MU_MAX && r.muList == a.muList[a.mu := i] && r.mu == a.mu + 1 && r.suList == a.suList && r.su == a.su)
  {
  }

  lemma {:induction false} ListUpToOk(a: Lists, n: nat, minPeriod: nat)
    requires n <= |a.bfee| && ListsOk(a, 0) && a.su == 0 && a.mu == 0
    ensures ListsOk(ListUpTo(a, n, minPeriod), n)
  {
    hide ListOne;
    if n > 0 {
      ListUpToOk(a, n - 1, minPeriod);
      ListOneCases(ListUpTo(a, n - 1, minPeriod), n - 1, minPeriod);
    }
  }

  lemma ListedWf(s: State)
    requires Wf(s)
    ensures ListsOk(Listed(s), ENTRIES) && |Listed(s).bfee| == ENTRIES
    ensures Wf(WithLists(s, Listed(s)).(phase := Init)) && Wf(WithLists(s, Listed(s)).(phase := Off))
  {
    var r := Reset(s);
    ListUpToOk(Lists(r.bfee, r.suList, r.muList, 0, 0, 0), ENTRIES, s.minPeriod);
  }

  // ---------------------------------------------------------------- runs

  /** Everything that can happen between joins. */
  datatype Step =
    | Start(scanning: bool)             // BEAMFORMING_CTRL_START_PERIOD
    | End(status: bool)                 // BEAMFORMING_CTRL_END_PERIOD
    | TimeoutTimer
    | PeriodTimer(late: bool)           // `late`: more than three ticks into the same sounding
    | Wake                              // traffic asks for sounding again
    | Reinit                            // the last beamformee has left
    | Env(i: nat, b: Bfee, minPeriod: nat)  // hardware, traffic or a leave rewrites an entry

  /** _sounding_timeout_timer_handler. */
  function OnTimeout(s: State): State
    requires Wf(s)
  {
    match s.phase
    case SuStart => s.(phase := TimedOut, bfee := s.bfee[s.cur := s.bfee[s.cur].(timeout := true)])
    case MuStart => s.(phase := TimedOut)
    case _ => s
  }

  /** _sounding_timer_handler with _sounding_force_stop. */
  function OnPeriod(s: State, late: bool): State {
    if s.phase.Off? then s
    else if s.running == 0 then s.(phase := Init, running := 1)
    else if late && !s.phase.SuStart? && !s.phase.MuStart? then Finish(s)
    else s
  }

  function Next(s: State, a: Step): State
    requires Wf(s)
  {
    match a
    case Start(scanning) => Handle(s, scanning)
    case End(status) => Down(s, status)
    case TimeoutTimer => OnTimeout(s)
    case PeriodTimer(late) => OnPeriod(s, late)
    case Wake => if s.phase.Off? then s.(phase := Init) else s
    case Reinit =>
      s.(suList := seq(SU_MAX, _ => NO_ENTRY), muList := seq(MU_MAX, _ => NO_ENTRY), phase := Off, cur := NO_ENTRY,
         muCnt := 0, minPeriod := 0, log := [])
    case Env(i, b, minPeriod) =>
      if i < ENTRIES then
        s.(bfee := s.bfee[i := b.(sounding := s.bfee[i].sounding, timeout := s.bfee[i].timeout)], minPeriod := minPeriod)
      else s
  }

  // ---------------------------------------------------------------- what every step keeps

  ghost predicate InSu(s: State, i: nat)
    requires |s.suList| == SU_MAX
  {
    i < ENTRIES && (s.suList[0] == i || s.suList[1] == i)
  }

  ghost predicate NoRepeat(log: seq<Event>) {
    forall p, q :: 0 <= p < q < |log| ==> log[p] != log[q]
  }

  /** A listed entry is marked as sounded exactly when the period's log says so. */
  ghost predicate MarksOk(s: State)
    requires |s.bfee| == ENTRIES && |s.suList| == SU_MAX
  {
    && (forall i: nat :: InSu(s, i) ==> (s.bfee[i].sounding <==> Su(i) in s.log))
    && (forall i: nat :: Su(i) in s.log ==> InSu(s, i))
  }

  /** Nothing is sounded twice; multi-user sounding comes last, after every listed single user. */
  ghost predicate LogOk(s: State)
    requires |s.bfee| == ENTRIES && |s.suList| == SU_MAX
  {
    && NoRepeat(s.log)
    && (Mu in s.log ==> s.muCnt == 0 && s.log[|s.log| - 1] == Mu && Unsounded(s) == 0)
  }

  ghost predicate PeriodOk(s: State) {
    && Wf(s)
    && (s.suList[0] == s.suList[1] ==> s.suList[0] >= ENTRIES)
    && MarksOk(s)
    && LogOk(s)
    && (s.phase.SuStart? ==> !s.bfee[s.cur].timeout)
  }
}
