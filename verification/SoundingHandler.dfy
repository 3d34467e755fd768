/**
  The scheduler as the driver runs it: fields updated in place, loops over the entry table, and
  the handler calling back into itself. Every method is proved against the function on values.
*/
module SoundingHandler {
  import opened Sounding
  import opened SoundingLists

  class Beamforming {
    var bfee: seq<Bfee>
    var phase: Phase
    var suList: seq<nat>
    var muList: seq<nat>
    var cur: nat
    var muCnt: nat
    var minPeriod: nat
    var running: int
    var waitCnt: nat
    ghost var log: seq<Event>

    ghost function View(): State
      reads this
    {
      State(bfee, phase, suList, muList, cur, muCnt, minPeriod, running, waitCnt, log)
    }

    constructor (entries: seq<Bfee>)
      requires |entries| == ENTRIES
      ensures Wf(View()) && bfee == entries && phase == Off && log == []
    {
      bfee, phase, cur, muCnt := entries, Off, NO_ENTRY, 0;
      suList, muList := seq(SU_MAX, _ => NO_ENTRY), seq(MU_MAX, _ => NO_ENTRY);
      minPeriod, running, waitCnt, log := 0, 0, 0, [];
    }

    /** _sounding_update_min_period. */
    method UpdateMinPeriod(period: nat, leave: bool)
      modifies this`minPeriod
      ensures minPeriod == if leave then MinPeriod(bfee)
                           else if old(minPeriod) == 0 || period < old(minPeriod) then period
                           else old(minPeriod)
    {
      if leave {
        var least := 0xFFFF;
        for i := 0 to |bfee|
          invariant least == LeastPeriod(bfee, i)
        {
          if bfee[i].used && bfee[i].period < least {
            least := bfee[i].period;
          }
        }
        minPeriod := if least == 0xFFFF then 0 else least;
      } else if minPeriod == 0 || period < minPeriod {
        minPeriod := period;
      }
    }

    /** _sounding_reset_vars. */
    method ResetVars()
      requires Wf(View())
      modifies this
      ensures View() == Reset(old(View()))
    {
      suList, muList := seq(SU_MAX, _ => NO_ENTRY), seq(MU_MAX, _ => NO_ENTRY);
      cur, muCnt, log := NO_ENTRY, 0, [];
      ghost var was := bfee;
      var idx := 0;
      while idx < ENTRIES
        invariant 0 <= idx <= ENTRIES && |bfee| == ENTRIES
        invariant forall i :: 0 <= i < ENTRIES ==> bfee[i] == if i < idx then ResetEntry(was[i]) else was[i]
        invariant View() == old(View()).(suList := suList, muList := muList, cur := cur, muCnt := muCnt, log := log, bfee := bfee)
        invariant suList == seq(SU_MAX, _ => NO_ENTRY) && muList == seq(MU_MAX, _ => NO_ENTRY)
        invariant cur == NO_ENTRY && muCnt == 0 && log == []
      {
        if bfee[idx].used && bfee[idx].sounding {
          bfee := bfee[idx := bfee[idx].(sounding := false, candidate := false)];
        }
        idx := idx + 1;
      }
    }

    /** The loop body of _sounding_get_list for entry `i`. */
    method ListEntry(i: nat, suIdx: nat, muIdx: nat, notReady: nat) returns (su: nat, mu: nat, nr: nat)
      requires |bfee| == ENTRIES && i < ENTRIES && |suList| == SU_MAX && |muList| == MU_MAX
      modifies this`bfee, this`suList, this`muList
      ensures Lists(bfee, suList, muList, su, mu, nr) ==
                ListOne(Lists(old(bfee), old(suList), old(muList), suIdx, muIdx, notReady), i, minPeriod)
    {
      hide Enlist;
      su, mu, nr := suIdx, muIdx, notReady;
      if !bfee[i].used {
        return;
      }
      if !bfee[i].added {
        nr := nr + 1;
        return;
      }
      if bfee[i].soundCnt > 0 {
        bfee := bfee[i := bfee[i].(soundCnt := bfee[i].soundCnt - 1)];
        if bfee[i].soundCnt > 0 {
          return;
        }
      }
      assert bfee == old(bfee)[i := CountDown(old(bfee)[i])];
      su, mu := EnlistEntry(i, su, mu, nr);
    }

    /** The part of the loop body for an entry that is due. */
    method EnlistEntry(i: nat, suIdx: nat, muIdx: nat, ghost nr: nat) returns (su: nat, mu: nat)
      requires |bfee| == ENTRIES && i < ENTRIES && |suList| == SU_MAX && |muList| == MU_MAX
      modifies this`bfee, this`suList, this`muList
      ensures Lists(bfee, suList, muList, su, mu, nr) ==
                Enlist(Lists(old(bfee), old(suList), old(muList), suIdx, muIdx, nr), i, minPeriod)
    {
      su, mu := suIdx, muIdx;
      var b := bfee[i];
      if b.mu {
        if mu < MU_MAX && b.apply {
          bfee := bfee[i := b.(candidate := true, soundCnt := InitCount(b.period, minPeriod))];
          muList := muList[mu := i];
          mu := mu + 1;
        }
      } else if b.su && su < SU_MAX {
        if b.delete {
          suList := suList[su := i];
          su := su + 1;
        } else if b.apply && !b.suspend {
          bfee := bfee[i := b.(candidate := true, soundCnt := InitCount(b.period, minPeriod))];
          suList := suList[su := i];
          su := su + 1;
        }
      }
    }

    /** _sounding_get_list, on reset variables. */
    method GetList() returns (ret: int)
      requires Wf(View()) && suList == seq(SU_MAX, _ => NO_ENTRY) && muList == seq(MU_MAX, _ => NO_ENTRY)
      modifies this`bfee, this`suList, this`muList, this`muCnt
      ensures var l := ListUpTo(old(Lists(bfee, suList, muList, 0, 0, 0)), ENTRIES, minPeriod);
              && bfee == l.bfee && suList == l.suList && muList == l.muList && muCnt == l.mu
              && ret == if l.su + l.mu > 0 then 0 else if l.notReady > 0 then -2 else -1
      ensures forall i: nat :: i < ENTRIES ==> (i in suList <==> OnSu(old(bfee), i))
      ensures forall i: nat :: i < ENTRIES ==> (i in muList <==> OnMu(old(bfee), i))
      ensures forall i: nat :: i < ENTRIES ==> EntryAfter(old(bfee), i, bfee[i], minPeriod)
      ensures ret == if exists i :: 0 <= i < ENTRIES && (WantsSu(old(bfee)[i]) || WantsMu(old(bfee)[i])) then 0
                     else if exists i :: 0 <= i < ENTRIES && Unready(old(bfee)[i]) then -2
                     else -1
    {
      ListsFrom(Lists(bfee, suList, muList, 0, 0, 0), minPeriod);
      SomeBelow(bfee, Unready);
      hide ListUpTo, EntryAfter, OnSu, OnMu, WantsSu, WantsMu;
      var mu, su, notReady := 0, 0, 0;
      var i := 0;
      ghost var a := Lists(bfee, suList, muList, 0, 0, 0);
      while i < ENTRIES
        invariant 0 <= i <= ENTRIES && |bfee| == ENTRIES && |suList| == SU_MAX && |muList| == MU_MAX
        invariant Lists(bfee, suList, muList, su, mu, notReady) == ListUpTo(a, i, minPeriod)
      {
        su, mu, notReady := ListEntry(i, su, mu, notReady);
        i := i + 1;
      }
      muCnt := mu;
      ret := 0;
      if su + mu == 0 {
        ret := if notReady > 0 then -2 else -1;
      }
    }

    /** The search for the next single-user entry that has not been sounded. */
    method FindNext() returns (i: nat)
      requires Wf(View())
      ensures i == NextSu(View())
    {
      i := 0;
      while i < SU_MAX && !(suList[i] < ENTRIES && !bfee[suList[i]].sounding)
        invariant 0 <= i <= SU_MAX
        invariant forall k :: 0 <= k < i ==> Pending(View(), k) == 0
      {
        i := i + 1;
      }
    }

    /** Single-user sounding of the entry at position `i` of the list. */
    method BeginSu(i: nat)
      requires Wf(View()) && i < SU_MAX && suList[i] < ENTRIES
      modifies this
      ensures View() == StartSu(old(View()), old(suList)[i])
    {
      cur := suList[i];
      phase := SuStart;
      bfee := bfee[cur := bfee[cur].(sounding := true)];
      bfee := bfee[cur := bfee[cur].(timeout := false)];
      log := log + [Su(cur)];
    }

    /** The part of _sounding_handler behind the period start. */
    method SoundNext()
      requires Wf(View())
      modifies this
      ensures View() == Sound(old(View()))
      decreases 0, Unsounded(View()), 1
    {
      var i := FindNext();
      if i < SU_MAX {
        ghost var s := View();
        BeginSu(i);
        assert Unsounded(View()) < Unsounded(s);
        if bfee[cur].delete {
          SoundingDown(false);
        }
      } else if muCnt > 0 {
        MarkMu();
      } else {
        running := running - 1;
        phase := Init;
      }
    }

    /** Multi-user sounding: mark every listed entry. */
    method MarkMu()
      requires Wf(View())
      modifies this
      ensures View() == StartMu(old(View()))
    {
      ghost var s := View();
      phase := MuStart;
      log := log + [Mu];
      var i := 0;
      while i < muCnt
        modifies this`bfee
        invariant 0 <= i <= muCnt && |bfee| == ENTRIES
        invariant forall j :: 0 <= j < ENTRIES ==>
                    bfee[j] == if exists k :: 0 <= k < i && s.muList[k] == j then s.bfee[j].(sounding := true) else s.bfee[j]
      {
        bfee := bfee[muList[i] := bfee[muList[i]].(sounding := true)];
        i := i + 1;
      }
      muCnt := 0;
    }

    /** _sounding_handler. */
    method Handler(scanning: bool)
      requires Wf(View())
      modifies this
      ensures View() == Handle(old(View()), scanning)
      decreases if phase.Init? then 1 else 0, Unsounded(View()), 2
    {
      hide EntryAfter, OnSu, OnMu, WantsSu, WantsMu, Unready, ListUpTo;
      ghost var s := View();
      if phase != Init && phase != SuDown && phase != MuDown && phase != TimedOut {
        return;
      }
      if phase == Init {
        ResetVars();
        var ret := GetList();
        ListedWf(s);
        assert View() == WithLists(s, Listed(s));
        if ret == -1 {
          waitCnt, phase, running := 0, Off, running - 1;
          return;
        }
        if ret == -2 {
          if waitCnt < 5 {
            waitCnt := waitCnt + 1;
          } else {
            waitCnt, phase := 0, Off;
          }
          running := running - 1;
          return;
        }
        waitCnt := 0;
        if scanning {
          running := running - 1;
          return;
        }
      }
      SoundNext();
    }

    /** What the answer to a single-user sounding does to its entry. */
    method RecordAnswer(status: bool)
      requires Wf(View()) && phase == SuStart && !bfee[cur].timeout
      modifies this`phase, this`bfee
      ensures phase == SuDown && bfee == old(bfee)[cur := Answered(old(bfee)[cur], status)]
    {
      var b := bfee[cur];
      phase := SuDown;
      if status {
        b := b.(failCnt := 0);
      } else if b.delete {
        b := b.(delete := false);
      } else {
        b := b.(failCnt := (b.failCnt + 1) % 32);
      }
      bfee := bfee[cur := b];
    }

    /** _beamforming_sounding_down. */
    method SoundingDown(status: bool)
      requires Wf(View())
      modifies this
      ensures View() == Down(old(View()), status)
      decreases 0, Unsounded(View()), 3
    {
      ghost var s := View();
      if phase == MuStart {
        phase := MuDown;
        assert Unsounded(View()) == Unsounded(s);
        Handler(false);
      } else if phase == SuStart {
        if bfee[cur].timeout {
          phase := SuDown;
          bfee := bfee[cur := bfee[cur].(timeout := false)];
        } else {
          RecordAnswer(status);
          assert Unsounded(View()) == Unsounded(s);
          Handler(false);
        }
      }
    }
  }
}
