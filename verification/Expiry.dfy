/**
  Expiry of associated stations, on values: what one round of the two-second timer does to one
  station, and what that means over whole runs.
*/
module Expiry {

  datatype Sta = Sta(
    expireTo: nat,       // rounds left
    tries: nat,          // keep_alive_trycnt
    sleeping: bool,      // WIFI_SLEEP_STATE
    aliveChk: bool,      // WIFI_STA_ALIVE_CHK_STATE
    assoc: bool,         // WIFI_ASOC_STATE
    rx: nat,             // data and control packets received
    lastRx: nat)         // the same at the last round

  /** Full timer, active_keep_alive_check and wifi_spec. */
  datatype Config = Config(full: nat, active: bool, wifiSpec: bool)

  datatype Outcome = Gone | Kept(sta: Sta)

  /** rtw_ap_expire_asoc_sta_tick with chk_sta_is_alive. */
  function Ticked(s: Sta, cfg: Config): Sta {
    if s.rx != s.lastRx || s.expireTo == 0 then s.(expireTo := cfg.full, tries := 0, lastRx := s.rx)
    else s.(expireTo := s.expireTo - 1, lastRx := s.rx)
  }

  /** The station after the scan of the association list. */
  function Scanned(s: Sta, cfg: Config): Sta {
    var t := Ticked(s, cfg);
    if t.expireTo > 0 then t
    else if cfg.wifiSpec then t.(expireTo := cfg.full)
    else if t.sleeping && !t.aliveChk then t.(expireTo := cfg.full, aliveChk := true)
    else t
  }

  /** Whether the scan puts it on the list of stations to be checked. */
  predicate Due(s: Sta, cfg: Config) {
    Ticked(s, cfg).expireTo == 0 && !cfg.wifiSpec && (s.sleeping && !s.aliveChk ==> cfg.active)
  }

  /** The check loop of rtw_ap_expire_chk_alive_process; `acked` says how the probe went. */
  function Checked(s: Sta, acked: bool, cfg: Config): Outcome {
    if !s.assoc then Kept(s)
    else if !cfg.active then Gone
    else if acked then Kept(s.(expireTo := cfg.full, tries := 0))
    else if s.tries + 1 <= 3 then Kept(s.(expireTo := 1, tries := s.tries + 1))
    else Gone
  }

  /** One whole round for one station. */
  function Round(s: Sta, acked: bool, cfg: Config): Outcome {
    if Due(s, cfg) then Checked(Scanned(s, cfg), acked, cfg) else Kept(Scanned(s, cfg))
  }

  // ---------------------------------------------------------------- runs of one station

  /** What happens up to a round: packets arrive, the station dozes off or wakes, the probe is answered. */
  datatype Input = Input(packets: nat, sleeping: bool, acked: bool)

  function Before(s: Sta, i: Input): Sta {
    s.(rx := s.rx + i.packets, sleeping := i.sleeping)
  }

  function Run(s: Sta, inputs: seq<Input>, cfg: Config): Outcome {
    if inputs == [] then Kept(s)
    else
      var r := Run(s, inputs[..|inputs| - 1], cfg);
      var i := inputs[|inputs| - 1];
      if r.Gone? then Gone else Round(Before(r.sta, i), i.acked, cfg)
  }

  predicate Silent(i: Input) {
    i.packets == 0 && !i.acked
  }

  predicate Quiet(s: Sta) {
    s.rx == s.lastRx
  }

  predicate Normal(cfg: Config) {
    cfg.full >= 1 && cfg.active && !cfg.wifiSpec
  }

  /** A silent station after `k` rounds: first the timer runs down, then three probes fail. */
  predicate Fading(r: Outcome, e: nat, k: nat) {
    if k < e + 3 then
      && r.Kept? && Quiet(r.sta) && r.sta.assoc
      && (if k < e then r.sta.expireTo == e - k && r.sta.tries == 0 else r.sta.expireTo == 1 && r.sta.tries == k - e + 1)
    else r.Gone?
  }

  lemma FadingStep(s: Sta, e: nat, k: nat, i: Input, cfg: Config)
    requires Normal(cfg) && e >= 1 && k < e + 3 && Fading(Kept(s), e, k) && Silent(i)
    ensures Fading(Round(Before(s, i), i.acked, cfg), e, k + 1)
  {
  }

  /**
    A station with `e` rounds left that stays silent and answers no probe is still there before
    round e + 3 and gone from that round on, asleep or awake.
  */
  lemma {:induction false} RemovedOnTime(s: Sta, inputs: seq<Input>, cfg: Config)
    requires Normal(cfg) && s.expireTo >= 1 && s.tries == 0 && s.assoc && Quiet(s)
    requires forall k :: 0 <= k < |inputs| ==> Silent(inputs[k])
    ensures Fading(Run(s, inputs, cfg), s.expireTo, |inputs|)
    ensures Run(s, inputs, cfg).Gone? <==> |inputs| >= s.expireTo + 3
  {
    hide Round;
    if inputs != [] {
      var n := |inputs| - 1;
      RemovedOnTime(s, inputs[..n], cfg);
      var r := Run(s, inputs[..n], cfg);
      if r.Kept? {
        FadingStep(r.sta, s.expireTo, n, inputs[n], cfg);
      }
    }
  }

  /** A packet since the last round gives the full timer back; so does an answered probe. */
  lemma Restored(s: Sta, acked: bool, cfg: Config)
    requires cfg.full >= 1
    ensures s.rx != s.lastRx ==> Round(s, acked, cfg).Kept?
    ensures s.rx != s.lastRx ==> Round(s, acked, cfg).sta.expireTo == cfg.full && Round(s, acked, cfg).sta.tries == 0
    ensures Due(s, cfg) && s.assoc && cfg.active && acked ==>
              Round(s, acked, cfg) == Kept(Scanned(s, cfg).(expireTo := cfg.full, tries := 0))
  {
  }

  /** Between rounds: at most three failed probes, and while there are some the timer stands at one. */
  predicate Tame(s: Sta) {
    s.assoc && s.tries <= 3 && (s.tries > 0 ==> s.expireTo == 1)
  }

  /** The number of last inputs that were silent. */
  function SilentSuffix(inputs: seq<Input>): nat {
    if inputs == [] || !Silent(inputs[|inputs| - 1]) then 0 else 1 + SilentSuffix(inputs[..|inputs| - 1])
  }

  lemma TameStep(s: Sta, i: Input, cfg: Config)
    requires Normal(cfg) && Tame(s) && Quiet(s)
    ensures var r := Round(Before(s, i), i.acked, cfg);
            && (r.Kept? ==> Tame(r.sta) && Quiet(r.sta) && r.sta.tries <= s.tries + 1)
            && (r.Kept? && r.sta.tries > 0 ==> Silent(i))
            && (r.Gone? ==> Silent(i) && s.tries == 3)
  {
  }

  /**
    No live station is removed: whatever happens in a run, a station that goes has been silent, and
    left its probes unanswered, in the last four rounds at least.
  */
  lemma {:induction false} OnlySilentRemoved(s: Sta, inputs: seq<Input>, cfg: Config)
    requires Normal(cfg) && s.assoc && s.tries == 0 && Quiet(s)
    ensures var r := Run(s, inputs, cfg);
            && (r.Kept? ==> Tame(r.sta) && Quiet(r.sta) && SilentSuffix(inputs) >= r.sta.tries)
            && (r.Gone? ==> exists n :: 4 <= n <= |inputs| && GoneAt(s, inputs, cfg, n) && SilentSuffix(inputs[..n]) >= 4)
  {
    hide Round;
    if inputs != [] {
      var n := |inputs| - 1;
      var i, before := inputs[n], inputs[..n];
      OnlySilentRemoved(s, before, cfg);
      var q, r := Run(s, before, cfg), Run(s, inputs, cfg);
      assert inputs[..|inputs|] == inputs;
      if q.Kept? {
        TameStep(q.sta, i, cfg);
        if r.Gone? {
          SuffixBound(inputs);
          assert GoneAt(s, inputs, cfg, |inputs|);
        }
      } else {
        var m :| 4 <= m <= n && GoneAt(s, before, cfg, m) && SilentSuffix(before[..m]) >= 4;
        assert before[..m] == inputs[..m] && before[..m - 1] == inputs[..m - 1];
        assert GoneAt(s, inputs, cfg, m);
      }
    }
  }

  /** Under wifi_spec no run removes a station, silent or not. */
  lemma {:induction false} SpecNeverRemoves(s: Sta, inputs: seq<Input>, cfg: Config)
    requires cfg.wifiSpec
    ensures Run(s, inputs, cfg).Kept?
  {
    if inputs != [] {
      SpecNeverRemoves(s, inputs[..|inputs| - 1], cfg);
    }
  }

  /** Without active checking and wifi_spec a quiet station goes in the round in which its timer ends, unless it sleeps. */
  lemma PassiveRemoval(s: Sta, i: Input, cfg: Config)
    requires !cfg.active && !cfg.wifiSpec && Quiet(s) && s.assoc && cfg.full >= 1
    ensures Round(Before(s, i), i.acked, cfg).Gone? <==>
            i.packets == 0 && s.expireTo == 1 && (i.sleeping ==> s.aliveChk)
  {
  }

  /** Round `n` is the one in which the station goes. */
  predicate GoneAt(s: Sta, inputs: seq<Input>, cfg: Config, n: nat) {
    1 <= n <= |inputs| && Run(s, inputs[..n - 1], cfg).Kept? && Run(s, inputs[..n], cfg).Gone?
  }

  lemma {:induction false} SuffixBound(inputs: seq<Input>)
    ensures SilentSuffix(inputs) <= |inputs|
  {
    if inputs != [] {
      SuffixBound(inputs[..|inputs| - 1]);
    }
  }
}
