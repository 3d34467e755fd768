/** Whom a sounding period lists, told by the entries alone. */
module SoundingLists {
  import opened Sounding

  predicate DueNow(b: Bfee) {
    b.used && b.added && b.soundCnt <= 1
  }

  predicate WantsSu(b: Bfee) {
    DueNow(b) && !b.mu && b.su && (b.delete || (b.apply && !b.suspend))
  }

  predicate WantsMu(b: Bfee) {
    DueNow(b) && b.mu && b.apply
  }

  predicate Unready(b: Bfee) {
    b.used && !b.added
  }

  /** The entries below `n` that `want`. */
  function Below(bfee: seq<Bfee>, n: nat, want: Bfee -> bool): set<nat> {
    set i: nat | i < n && i < |bfee| && want(bfee[i])
  }

  /** Entry `i` wants to, and fewer than `max` below it do. */
  predicate On(bfee: seq<Bfee>, i: nat, want: Bfee -> bool, max: nat)
    requires i < |bfee|
  {
    want(bfee[i]) && |Below(bfee, i, want)| < max
  }

  predicate OnSu(bfee: seq<Bfee>, i: nat)
    requires i < |bfee|
  {
    On(bfee, i, WantsSu, SU_MAX)
  }

  predicate OnMu(bfee: seq<Bfee>, i: nat)
    requires i < |bfee|
  {
    On(bfee, i, WantsMu, MU_MAX)
  }

  function Least(m: nat, n: nat): nat {
    if m < n then m else n
  }

  lemma Grows(bfee: seq<Bfee>, n: nat, want: Bfee -> bool)
    requires n < |bfee|
    ensures |Below(bfee, n + 1, want)| == |Below(bfee, n, want)| + if want(bfee[n]) then 1 else 0
  {
    if want(bfee[n]) {
      assert Below(bfee, n + 1, want) == Below(bfee, n, want) + {n};
    } else {
      assert Below(bfee, n + 1, want) == Below(bfee, n, want);
    }
  }

  /** A list holds exactly the chosen entries below `n`, each at the position that those below it leave. */
  ghost predicate Holds(was: seq<Bfee>, n: nat, want: Bfee -> bool, max: nat, list: seq<nat>, len: nat)
    requires n <= |was|
  {
    && |list| == max && len == Least(|Below(was, n, want)|, max)
    && (forall k :: 0 <= k < len ==> list[k] < n && On(was, list[k], want, max) && |Below(was, list[k], want)| == k)
    && (forall k :: len <= k < max ==> list[k] == NO_ENTRY)
    && (forall i: nat :: i < n && On(was, i, want, max) ==> i in list[..len])
  }

  lemma HoldsStep(was: seq<Bfee>, n: nat, want: Bfee -> bool, max: nat, list: seq<nat>, len: nat)
    requires n < |was| && Holds(was, n, want, max, list, len)
    ensures On(was, n, want, max) ==> len == |Below(was, n, want)| < max && Holds(was, n + 1, want, max, list[len := n], len + 1)
    ensures !On(was, n, want, max) ==> Holds(was, n + 1, want, max, list, len)
  {
    Grows(was, n, want);
    hide Below;
    if On(was, n, want, max) {
      assert list[len := n][..len + 1] == list[..len] + [n];
    }
  }

  /** What listing makes of an entry: it restarts if it is sounded and not being deleted, else it counts down. */
  predicate EntryAfter(was: seq<Bfee>, i: nat, now: Bfee, minPeriod: nat)
    requires i < |was|
  {
    var b := was[i];
    if OnMu(was, i) || (OnSu(was, i) && !b.delete) then
      now == b.(candidate := true, soundCnt := if minPeriod == 0 then 0 else b.period / minPeriod)
    else if b.used && b.added then now == b.(soundCnt := if b.soundCnt == 0 then 0 else b.soundCnt - 1)
    else now == b
  }

  ghost predicate EntriesAfter(was: seq<Bfee>, n: nat, now: seq<Bfee>, minPeriod: nat)
    requires n <= |was|
  {
    && |now| == |was|
    && (forall i: nat :: i < n ==> EntryAfter(was, i, now[i], minPeriod))
    && (forall i: nat :: n <= i < |was| ==> now[i] == was[i])
  }

  lemma EntryStep(was: seq<Bfee>, n: nat, now: seq<Bfee>, b: Bfee, minPeriod: nat)
    requires n < |was| && EntriesAfter(was, n, now, minPeriod) && EntryAfter(was, n, b, minPeriod)
    ensures EntriesAfter(was, n + 1, now[n := b], minPeriod)
  {
    hide EntryAfter;
  }

  ghost predicate Chosen(was: seq<Bfee>, n: nat, l: Lists, minPeriod: nat)
    requires n <= |was|
  {
    && Holds(was, n, WantsSu, SU_MAX, l.suList, l.su) && Holds(was, n, WantsMu, MU_MAX, l.muList, l.mu)
    && EntriesAfter(was, n, l.bfee, minPeriod)
    && l.notReady == |Below(was, n, Unready)|
  }

  /** One turn of the loop, by what the entry wants and whether there is room. */
  lemma ListOneIs(a: Lists, i: nat, minPeriod: nat, onSu: bool, onMu: bool)
    requires i < |a.bfee| && |a.suList| == SU_MAX && |a.muList| == MU_MAX
    requires onSu == (WantsSu(a.bfee[i]) && a.su < SU_MAX) && onMu == (WantsMu(a.bfee[i]) && a.mu < MU_MAX)
    ensures ListOne(a, i, minPeriod) == Turned(a, i, minPeriod, onSu, onMu)
  {
  }

  function Turned(a: Lists, i: nat, minPeriod: nat, onSu: bool, onMu: bool): Lists
    requires i < |a.bfee| && (onSu ==> a.su < |a.suList|) && (onMu ==> a.mu < |a.muList|)
  {
    var b := a.bfee[i];
    Lists(if onMu || (onSu && !b.delete) then a.bfee[i := Restart(b, minPeriod)]
          else if b.used && b.added then a.bfee[i := CountDown(b)] else a.bfee,
          if onSu then a.suList[a.su := i] else a.suList,
          if onMu then a.muList[a.mu := i] else a.muList,
          a.su + (if onSu then 1 else 0), a.mu + (if onMu then 1 else 0),
          a.notReady + (if Unready(b) then 1 else 0))
  }

  lemma TurnedEntry(was: seq<Bfee>, a: Lists, i: nat, minPeriod: nat)
    requires i < |was| && EntriesAfter(was, i, a.bfee, minPeriod)
    requires (OnSu(was, i) ==> a.su < |a.suList|) && (OnMu(was, i) ==> a.mu < |a.muList|)
    ensures EntriesAfter(was, i + 1, Turned(a, i, minPeriod, OnSu(was, i), OnMu(was, i)).bfee, minPeriod)
  {
    var now := Turned(a, i, minPeriod, OnSu(was, i), OnMu(was, i)).bfee;
    hide OnSu, OnMu;
    assert now == a.bfee[i := now[i]];
    EntryStep(was, i, a.bfee, now[i], minPeriod);
  }

  lemma ChosenStep(was: seq<Bfee>, i: nat, a: Lists, minPeriod: nat)
    requires i < |was| && Chosen(was, i, a, minPeriod)
    ensures Chosen(was, i + 1, ListOne(a, i, minPeriod), minPeriod)
  {
    hide ListOne, Below, WantsSu, WantsMu;
    assert a.bfee[i] == was[i] && |a.bfee| == |was|;
    HoldsStep(was, i, WantsSu, SU_MAX, a.suList, a.su);
    HoldsStep(was, i, WantsMu, MU_MAX, a.muList, a.mu);
    ListOneIs(a, i, minPeriod, OnSu(was, i), OnMu(was, i));
    TurnedEntry(was, a, i, minPeriod);
    Grows(was, i, Unready);
  }

  lemma {:induction false} ListUpToChooses(a: Lists, n: nat, minPeriod: nat)
    requires n <= |a.bfee| && a.su == a.mu == a.notReady == 0
    requires a.suList == seq(SU_MAX, _ => NO_ENTRY) && a.muList == seq(MU_MAX, _ => NO_ENTRY)
    ensures Chosen(a.bfee, n, ListUpTo(a, n, minPeriod), minPeriod)
  {
    if n > 0 {
      ListUpToChooses(a, n - 1, minPeriod);
      ChosenStep(a.bfee, n - 1, ListUpTo(a, n - 1, minPeriod), minPeriod);
    }
  }

  lemma SomeBelow(was: seq<Bfee>, want: Bfee -> bool)
    ensures |Below(was, |was|, want)| > 0 <==> exists i :: 0 <= i < |was| && want(was[i])
  {
    if |Below(was, |was|, want)| > 0 {
      var i :| i in Below(was, |was|, want);
      assert want(was[i]);
    }
    if i :| 0 <= i < |was| && want(was[i]) {
      assert i in Below(was, |was|, want);
    }
  }

  /** Listing from empty lists: who is on them, what becomes of every entry, and what is counted. */
  ghost predicate ListedFrom(was: seq<Bfee>, l: Lists, minPeriod: nat) {
    && |l.bfee| == |was|
    && (forall i: nat :: i < |was| ==> (i in l.suList <==> OnSu(was, i)))
    && (forall i: nat :: i < |was| ==> (i in l.muList <==> OnMu(was, i)))
    && (forall i: nat :: i < |was| ==> EntryAfter(was, i, l.bfee[i], minPeriod))
    && (l.su > 0 <==> exists i :: 0 <= i < |was| && WantsSu(was[i]))
    && (l.mu > 0 <==> exists i :: 0 <= i < |was| && WantsMu(was[i]))
    && l.notReady == |Below(was, |was|, Unready)|
  }

  lemma MemberIffOn(was: seq<Bfee>, want: Bfee -> bool, max: nat, list: seq<nat>, len: nat, i: nat)
    requires i < |was| <= NO_ENTRY && Holds(was, |was|, want, max, list, len)
    ensures i in list <==> On(was, i, want, max)
  {
    hide On, Below;
    assert list[..len] <= list;
  }

  lemma ListsFrom(a: Lists, minPeriod: nat)
    requires |a.bfee| <= NO_ENTRY && a.su == a.mu == a.notReady == 0
    requires a.suList == seq(SU_MAX, _ => NO_ENTRY) && a.muList == seq(MU_MAX, _ => NO_ENTRY)
    ensures ListedFrom(a.bfee, ListUpTo(a, |a.bfee|, minPeriod), minPeriod)
  {
    var was, l := a.bfee, ListUpTo(a, |a.bfee|, minPeriod);
    ListUpToChooses(a, |was|, minPeriod);
    SomeBelow(was, WantsSu);
    SomeBelow(was, WantsMu);
    hide ListUpTo, Below, EntryAfter, On, WantsSu, WantsMu;
    forall i: nat | i < |was| ensures (i in l.suList <==> OnSu(was, i)) && (i in l.muList <==> OnMu(was, i)) {
      hide Holds;
      MemberIffOn(was, WantsSu, SU_MAX, l.suList, l.su, i);
      MemberIffOn(was, WantsMu, MU_MAX, l.muList, l.mu, i);
    }
  }

  /** Ending the last period first changes nobody's claim. */
  lemma ResetKeepsClaims(s: State, i: nat)
    requires i < |s.bfee|
    ensures OnSu(Reset(s).bfee, i) == OnSu(s.bfee, i) && OnMu(Reset(s).bfee, i) == OnMu(s.bfee, i)
  {
    var r := Reset(s).bfee;
    forall k | 0 <= k < |r| ensures WantsSu(r[k]) == WantsSu(s.bfee[k]) && WantsMu(r[k]) == WantsMu(s.bfee[k]) {
    }
    hide WantsSu, WantsMu, Reset;
    assert Below(r, i, WantsSu) == Below(s.bfee, i, WantsSu);
    assert Below(r, i, WantsMu) == Below(s.bfee, i, WantsMu);
  }

  /**
    A period lists entry `i` for single-user sounding exactly if it is due, has no multi-user capability,
    asks for sounding or deletion, and fewer than two such entries come before it; for multi-user
    sounding exactly if it is due, has the capability, asks for it, and fewer than six come before it.
  */
  lemma WhoIsListed(s: State, i: nat)
    requires Wf(s) && i < ENTRIES
    ensures var l := Listed(s);
            && (i in l.suList <==> OnSu(s.bfee, i)) && (i in l.muList <==> OnMu(s.bfee, i))
            && |l.bfee| == ENTRIES && EntryAfter(Reset(s).bfee, i, l.bfee[i], s.minPeriod)
  {
    var r := Reset(s);
    ResetKeepsClaims(s, i);
    ListsFrom(Lists(r.bfee, r.suList, r.muList, 0, 0, 0), s.minPeriod);
    hide EntryAfter, OnSu, OnMu, ListUpTo;
  }
}
