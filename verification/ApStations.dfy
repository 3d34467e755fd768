/**
  Station accounting of the access point, on values: seven per-station flags, seven global
  counters, the HT operation mode and the ERP byte of the beacon that are derived from them.
*/
module ApStations {

  /** The per-station flags; each has a counter num_sta_* of its own. */
  datatype Flag = NoShortPreamble | NonErp | NoShortSlot | NoHt | NoGreenfield | Ht20 | Intolerant40

  /** The num_sta_* fields. */
  datatype Counters = Counters(noShortPreamble: int, nonErp: int, noShortSlot: int, noHt: int, noGreenfield: int,
                               ht20: int, intolerant40: int)

  /** What a joining station announces. */
  datatype Caps = Caps(shortPreamble: bool, nonErp: bool, shortSlot: bool,
                       ht: bool, greenfield: bool, wide: bool, intolerant40: bool)

  /** How the access point is set up. */
  datatype Config = Config(htEnabled: bool, htOption: bool, apWide: bool)

  /** OP_MODE_PURE, OP_MODE_MAY_BE_LEGACY_STAS, OP_MODE_20MHZ_HT_STA_ASSOCED, OP_MODE_MIXED. */
  datatype Protection = Pure | MayBeLegacy | Ht20Assoced | Mixed

  /** The fields of ht_op_mode. */
  datatype OpMode = OpMode(nonGfPresent: bool, nonHtPresent: bool, mode: Protection)

  /** The bits of the ERP byte. */
  datatype Erp = Erp(nonErpPresent: bool, useProtection: bool, barker: bool)

  datatype Ap = Ap(
    sta: map<nat, set<Flag>>,      // flags of every known station
    num: Counters,
    olbcHt: bool,                  // overlapping legacy BSS seen
    widthReq: bool, chReported: bool,
    opMode: OpMode,                // ht_op_mode
    started: bool, erpEnabled: bool, hasErp: bool,
    erp: Erp,                      // data byte of the beacon's ERP element
    warned: bool)                  // the rtw_warn_on of the leave path was hit

  function Get(c: Counters, f: Flag): int {
    match f
    case NoShortPreamble => c.noShortPreamble
    case NonErp => c.nonErp
    case NoShortSlot => c.noShortSlot
    case NoHt => c.noHt
    case NoGreenfield => c.noGreenfield
    case Ht20 => c.ht20
    case Intolerant40 => c.intolerant40
  }

  function Set(c: Counters, f: Flag, v: int): (r: Counters)
    ensures forall g: Flag :: Get(r, g) == if g == f then v else Get(c, g)
  {
    match f
    case NoShortPreamble => c.(noShortPreamble := v)
    case NonErp => c.(nonErp := v)
    case NoShortSlot => c.(noShortSlot := v)
    case NoHt => c.(noHt := v)
    case NoGreenfield => c.(noGreenfield := v)
    case Ht20 => c.(ht20 := v)
    case Intolerant40 => c.(intolerant40 := v)
  }

  // ---------------------------------------------------------------- flags and counters

  function Raise(s: Ap, id: nat, f: Flag): (r: Ap)
    requires id in s.sta
    ensures r.sta.Keys == s.sta.Keys
  {
    if f in s.sta[id] then s
    else s.(sta := s.sta[id := s.sta[id] + {f}], num := Set(s.num, f, Get(s.num, f) + 1))
  }

  function Lower(s: Ap, id: nat, f: Flag): (r: Ap)
    requires id in s.sta
    ensures r.sta.Keys == s.sta.Keys
  {
    if f !in s.sta[id] then s
    else s.(sta := s.sta[id := s.sta[id] - {f}], num := Set(s.num, f, Get(s.num, f) - 1))
  }

  /** The leave path refuses to take num_sta_40mhz_intolerant below zero and warns instead. */
  function LowerIntolerant(s: Ap, id: nat): Ap
    requires id in s.sta
  {
    if Intolerant40 !in s.sta[id] || s.num.intolerant40 > 0 then Lower(s, id, Intolerant40)
    else s.(sta := s.sta[id := s.sta[id] - {Intolerant40}], warned := true)
  }

  // ---------------------------------------------------------------- derived state

  /** update_bcn_erpinfo_ie, reached through update_beacon. */
  function UpdateErp(s: Ap): Ap
  {
    if !s.started || !s.erpEnabled || !s.hasErp then s
    else
      s.(erp := Erp(s.num.nonErp == 1, s.num.nonErp == 1, s.num.noShortPreamble > 0))
  }

  function RaiseErp(s: Ap, id: nat): (r: Ap)
    requires id in s.sta
    ensures r.sta.Keys == s.sta.Keys
  {
    var r := Raise(s, id, NonErp);
    if NonErp !in s.sta[id] && r.num.nonErp == 1 then UpdateErp(r) else r
  }

  function LowerErp(s: Ap, id: nat): (r: Ap)
    requires id in s.sta
    ensures r.sta.Keys == s.sta.Keys
  {
    var r := Lower(s, id, NonErp);
    if NonErp in s.sta[id] && r.num.nonErp == 0 then UpdateErp(r) else r
  }

  /** The protection mode that the counters and the overlap flag call for. */
  function Mode(s: Ap, apWide: bool): Protection
  {
    if s.num.noHt != 0 then Mixed
    else if apWide && s.num.ht20 != 0 then Ht20Assoced
    else if s.olbcHt then MayBeLegacy
    else Pure
  }

  /** The whole ht_op_mode field that they call for. */
  function WantedOpMode(s: Ap, apWide: bool): OpMode
  {
    OpMode(s.num.noGreenfield != 0, s.num.noHt != 0 || s.olbcHt, Mode(s, apWide))
  }

  function UpdateHt(s: Ap, cfg: Config): Ap
  {
    if cfg.htOption then s.(opMode := WantedOpMode(s, cfg.apWide)) else s
  }

  // ---------------------------------------------------------------- the events

  /** start_ap_mode: counters and derived HT state are zeroed. */
  function StartAp(s: Ap): Ap {
    s.(num := Counters(0, 0, 0, 0, 0, 0, 0), olbcHt := false, widthReq := false, chReported := false,
       opMode := OpMode(false, false, Pure), started := false)
  }

  function JoinHt(s: Ap, id: nat, c: Caps): Ap
    requires id in s.sta
  {
    if c.ht then
      var s1 := Lower(s, id, NoHt);
      var s2 := if c.greenfield then s1 else Raise(s1, id, NoGreenfield);
      var s3 := if c.wide then s2 else Raise(s2, id, Ht20);
      if c.intolerant40 then Raise(s3, id, Intolerant40) else s3
    else
      Raise(s, id, NoHt)
  }

  function JoinBasics(s: Ap, id: nat, c: Caps): (r: Ap)
    requires id in s.sta
    ensures r.sta.Keys == s.sta.Keys
  {
    var s1 := if c.shortPreamble then Lower(s, id, NoShortPreamble) else Raise(s, id, NoShortPreamble);
    var s2 := if c.nonErp then RaiseErp(s1, id) else LowerErp(s1, id);
    if c.shortSlot then Lower(s2, id, NoShortSlot) else Raise(s2, id, NoShortSlot)
  }

  /** bss_cap_update_on_sta_join, for a new station or one that joins again. */
  function Join(s: Ap, id: nat, c: Caps, cfg: Config): Ap
  {
    var s0 := if id in s.sta then s else s.(sta := s.sta[id := {}]);
    var s3 := JoinBasics(s0, id, c);
    if cfg.htEnabled then UpdateHt(JoinHt(s3, id, c), cfg) else s3
  }

  /** All flags of the station cleared, each with its counter. */
  function Cleared(s: Ap, id: nat): Ap
    requires id in s.sta
  {
    ClearedHt(Lower(LowerErp(Lower(s, id, NoShortPreamble), id), id, NoShortSlot), id)
  }

  function ClearedHt(s: Ap, id: nat): Ap
    requires id in s.sta
  {
    LowerIntolerant(Lower(Lower(Lower(s, id, NoGreenfield), id, NoHt), id, Ht20), id)
  }

  /** bss_cap_update_on_sta_leave, after which the station is freed. */
  function Leave(s: Ap, id: nat, cfg: Config): Ap
  {
    if id !in s.sta then s
    else
      var s5 := UpdateHt(Cleared(s, id), cfg);
      s5.(sta := s5.sta - {id})
  }

  /** rtw_process_public_act_bsscoex: what a 20/40 coexistence report says. */
  datatype Report = Report(intolerant: bool, width20: bool, channels: bool)

  function Coex(s: Ap, id: nat, r: Report): Ap
  {
    if id !in s.sta then s
    else
      var s1 := if r.intolerant then Raise(s, id, Intolerant40) else if r.width20 then s.(widthReq := true) else s;
      if r.channels then s1.(chReported := true) else s1
  }

  datatype Event =
    | EvJoin(id: nat, caps: Caps)
    | EvLeave(id: nat)
    | EvCoex(id: nat, report: Report)
    | EvOlbc(on: bool)

  function Next(s: Ap, e: Event, cfg: Config): Ap
  {
    match e
    case EvJoin(id, caps) => Join(s, id, caps, cfg)
    case EvLeave(id) => Leave(s, id, cfg)
    case EvCoex(id, report) => Coex(s, id, report)
    case EvOlbc(on) => s.(olbcHt := on)
  }

  // ---------------------------------------------------------------- what the counters count

  ghost function Having(sta: map<nat, set<Flag>>, f: Flag): set<nat> {
    set id | id in sta && f in sta[id]
  }

  /** Every counter is the number of stations with its flag. */
  ghost predicate CountsOk(s: Ap) {
    forall f: Flag :: Get(s.num, f) == |Having(s.sta, f)|
  }

  lemma HavingAdd(sta: map<nat, set<Flag>>, id: nat, f: Flag, g: Flag)
    requires id in sta && f !in sta[id]
    ensures |Having(sta[id := sta[id] + {f}], g)| == |Having(sta, g)| + if g == f then 1 else 0
  {
    var h := Having(sta, g);
    assert Having(sta[id := sta[id] + {f}], g) == if g == f then h + {id} else h;
  }

  lemma HavingRemove(sta: map<nat, set<Flag>>, id: nat, f: Flag, g: Flag)
    requires id in sta && f in sta[id]
    ensures |Having(sta[id := sta[id] - {f}], g)| == |Having(sta, g)| - if g == f then 1 else 0
    ensures |Having(sta, f)| > 0
  {
    var h := Having(sta, g);
    assert id in Having(sta, f);
    assert Having(sta[id := sta[id] - {f}], g) == if g == f then h - {id} else h;
  }

  lemma RaiseOk(s: Ap, id: nat, f: Flag)
    requires CountsOk(s) && id in s.sta
    ensures CountsOk(Raise(s, id, f))
  {
    hide Get, Set;
    if f !in s.sta[id] {
      forall g: Flag ensures Get(Raise(s, id, f).num, g) == |Having(Raise(s, id, f).sta, g)| {
        HavingAdd(s.sta, id, f, g);
      }
    }
  }

  lemma LowerOk(s: Ap, id: nat, f: Flag)
    requires CountsOk(s) && id in s.sta
    ensures CountsOk(Lower(s, id, f))
    ensures f in s.sta[id] ==> Get(s.num, f) > 0
  {
    hide Get, Set;
    if f in s.sta[id] {
      forall g: Flag ensures Get(Lower(s, id, f).num, g) == |Having(Lower(s, id, f).sta, g)| {
        HavingRemove(s.sta, id, f, g);
      }
      HavingRemove(s.sta, id, f, f);
    }
  }

  // ---------------------------------------------------------------- the beacon's ERP bits

  /** The protection bits are both set if some station is non-ERP and both clear otherwise. */
  ghost predicate ErpOk(s: Ap) {
    s.started && s.erpEnabled && s.hasErp ==>
      s.erp.nonErpPresent == s.erp.useProtection == (Having(s.sta, NonErp) != {})
  }

  /** What every event keeps. */
  ghost predicate Inv(s: Ap) {
    CountsOk(s) && ErpOk(s) && !s.warned
  }

  /** Nothing the invariant looks at has changed. */
  lemma InvFrame(s: Ap, r: Ap)
    requires Inv(s) && r.sta == s.sta && r.num == s.num && r.warned == s.warned
    requires r.erp == s.erp && r.started == s.started && r.erpEnabled == s.erpEnabled && r.hasErp == s.hasErp
    ensures Inv(r)
  {
  }

  /** Rewriting a station's flags leaves alone who has a flag that it neither gains nor loses. */
  lemma HavingSame(sta: map<nat, set<Flag>>, id: nat, fs: set<Flag>, g: Flag)
    requires id in sta && (g in fs <==> g in sta[id])
    ensures Having(sta[id := fs], g) == Having(sta, g)
  {
  }

  /** A flag other than the non-ERP one comes or goes. */
  lemma OtherFlagOk(s: Ap, id: nat, f: Flag)
    requires Inv(s) && id in s.sta && f != NonErp
    ensures Inv(Raise(s, id, f)) && Inv(Lower(s, id, f))
  {
    hide Get, Set, CountsOk, Having;
    RaiseOk(s, id, f);
    LowerOk(s, id, f);
    HavingSame(s.sta, id, s.sta[id] + {f}, NonErp);
    HavingSame(s.sta, id, s.sta[id] - {f}, NonErp);
  }

  /** The writer compares the counter with one; with exact counters that is enough. */
  lemma UpdateErpBits(s: Ap)
    requires CountsOk(s) && s.num.nonErp <= 1 && !s.warned
    ensures Inv(UpdateErp(s))
  {
  }

  lemma NonErpCount(s: Ap)
    requires CountsOk(s)
    ensures s.num.nonErp == |Having(s.sta, NonErp)| && (s.num.nonErp == 0 <==> Having(s.sta, NonErp) == {})
  {
  }

  lemma NonErpSet(s: Ap, v: int)
    ensures Set(s.num, NonErp, v).nonErp == v && Get(s.num, NonErp) == s.num.nonErp
  {
  }

  lemma RaiseErpOk(s: Ap, id: nat)
    requires Inv(s) && id in s.sta
    ensures Inv(RaiseErp(s, id))
  {
    hide Get, Set, CountsOk, Having, UpdateErp;
    var r := Raise(s, id, NonErp);
    RaiseOk(s, id, NonErp);
    NonErpCount(s);
    NonErpCount(r);
    NonErpSet(s, s.num.nonErp + 1);
    if NonErp !in s.sta[id] && r.num.nonErp == 1 {
      UpdateErpBits(r);
    }
  }

  lemma LowerErpOk(s: Ap, id: nat)
    requires Inv(s) && id in s.sta
    ensures Inv(LowerErp(s, id))
  {
    hide Get, Set, CountsOk, Having, UpdateErp;
    var r := Lower(s, id, NonErp);
    LowerOk(s, id, NonErp);
    NonErpCount(s);
    NonErpCount(r);
    NonErpSet(s, s.num.nonErp - 1);
    if NonErp in s.sta[id] && r.num.nonErp == 0 {
      UpdateErpBits(r);
    }
  }

  // ---------------------------------------------------------------- every run

  lemma JoinHtOk(s: Ap, id: nat, c: Caps)
    requires Inv(s) && id in s.sta
    ensures Inv(JoinHt(s, id, c))
  {
    hide Inv, Raise, Lower;
    OtherFlagOk(s, id, NoHt);
    var s1 := Lower(s, id, NoHt);
    OtherFlagOk(s1, id, NoGreenfield);
    var s2 := if c.greenfield then s1 else Raise(s1, id, NoGreenfield);
    OtherFlagOk(s2, id, Ht20);
    var s3 := if c.wide then s2 else Raise(s2, id, Ht20);
    OtherFlagOk(s3, id, Intolerant40);
  }

  lemma AddStation(s: Ap, id: nat)
    requires Inv(s) && id !in s.sta
    ensures Inv(s.(sta := s.sta[id := {}]))
  {
    var r := s.(sta := s.sta[id := {}]);
    forall f: Flag ensures Having(r.sta, f) == Having(s.sta, f) {
    }
  }

  lemma JoinOk(s: Ap, id: nat, c: Caps, cfg: Config)
    requires Inv(s)
    ensures Inv(Join(s, id, c, cfg))
  {
    hide Inv, Raise, Lower, RaiseErp, LowerErp, JoinHt;
    if id !in s.sta {
      AddStation(s, id);
    }
    var s0 := if id in s.sta then s else s.(sta := s.sta[id := {}]);
    OtherFlagOk(s0, id, NoShortPreamble);
    var s1 := if c.shortPreamble then Lower(s0, id, NoShortPreamble) else Raise(s0, id, NoShortPreamble);
    RaiseErpOk(s1, id);
    LowerErpOk(s1, id);
    var s2 := if c.nonErp then RaiseErp(s1, id) else LowerErp(s1, id);
    OtherFlagOk(s2, id, NoShortSlot);
    var s3 := if c.shortSlot then Lower(s2, id, NoShortSlot) else Raise(s2, id, NoShortSlot);
    JoinHtOk(s3, id, c);
    InvFrame(JoinHt(s3, id, c), UpdateHt(JoinHt(s3, id, c), cfg));
  }

  lemma LowerIntolerantOk(s: Ap, id: nat)
    requires Inv(s) && id in s.sta
    ensures LowerIntolerant(s, id) == Lower(s, id, Intolerant40) && Inv(LowerIntolerant(s, id))
  {
    hide CountsOk, Having, Set;
    LowerOk(s, id, Intolerant40);
    OtherFlagOk(s, id, Intolerant40);
  }

  /** A station without flags can be forgotten. */
  lemma ForgetStation(s: Ap, id: nat)
    requires Inv(s) && id in s.sta && s.sta[id] == {}
    ensures Inv(s.(sta := s.sta - {id}))
  {
    var r := s.(sta := s.sta - {id});
    forall f: Flag ensures Having(r.sta, f) == Having(s.sta, f) {
    }
  }

  lemma LeaveOk(s: Ap, id: nat, cfg: Config)
    requires Inv(s)
    ensures Inv(Leave(s, id, cfg))
  {
    hide Inv, RaiseErp, LowerErp, LowerIntolerant, Set, UpdateHt, Lower;
    if id in s.sta {
      OtherFlagOk(s, id, NoShortPreamble);
      var s1 := Lower(s, id, NoShortPreamble);
      LowerErpOk(s1, id);
      var s2 := LowerErp(s1, id);
      OtherFlagOk(s2, id, NoShortSlot);
      var s3 := Lower(s2, id, NoShortSlot);
      OtherFlagOk(s3, id, NoGreenfield);
      var s4 := Lower(s3, id, NoGreenfield);
      OtherFlagOk(s4, id, NoHt);
      var s5 := Lower(s4, id, NoHt);
      OtherFlagOk(s5, id, Ht20);
      var s6 := Lower(s5, id, Ht20);
      LowerIntolerantOk(s6, id);
      var s7 := Lower(s6, id, Intolerant40);
      FlagsOfLower(s, id, NoShortPreamble);
      FlagsOfErp(s1, id);
      FlagsOfLower(s2, id, NoShortSlot);
      FlagsOfLower(s3, id, NoGreenfield);
      FlagsOfLower(s4, id, NoHt);
      FlagsOfLower(s5, id, Ht20);
      FlagsOfLower(s6, id, Intolerant40);
      NoFlagsLeft(s.sta[id], s7.sta[id]);
      UpdateHtFrame(s7, cfg);
      InvFrame(s7, UpdateHt(s7, cfg));
      ForgetStation(UpdateHt(s7, cfg), id);
    }
  }

  lemma FlagsOfLower(s: Ap, id: nat, f: Flag)
    requires id in s.sta
    ensures Lower(s, id, f).sta == s.sta[id := s.sta[id] - {f}]
  {
    hide Set, Get;
    if f !in s.sta[id] {
      assert s.sta[id] - {f} == s.sta[id];
    }
  }

  lemma FlagsOfRaise(s: Ap, id: nat, f: Flag)
    requires id in s.sta
    ensures Raise(s, id, f).sta == s.sta[id := s.sta[id] + {f}]
  {
    hide Set, Get;
    if f in s.sta[id] {
      assert s.sta[id] + {f} == s.sta[id];
    }
  }

  lemma FlagsOfErp(s: Ap, id: nat)
    requires id in s.sta
    ensures LowerErp(s, id).sta == s.sta[id := s.sta[id] - {NonErp}]
    ensures RaiseErp(s, id).sta == s.sta[id := s.sta[id] + {NonErp}]
  {
    hide Lower, Raise;
    FlagsOfLower(s, id, NonErp);
    FlagsOfRaise(s, id, NonErp);
  }

  lemma NoFlagsLeft(fs: set<Flag>, gs: set<Flag>)
    requires gs == fs - {NoShortPreamble} - {NonErp} - {NoShortSlot} - {NoGreenfield} - {NoHt} - {Ht20} - {Intolerant40}
    ensures gs == {}
  {
    forall f: Flag ensures f !in gs {
      assert f.NoShortPreamble? || f.NonErp? || f.NoShortSlot? || f.NoGreenfield? || f.NoHt? || f.Ht20? || f.Intolerant40?;
    }
  }

  lemma UpdateHtFrame(s: Ap, cfg: Config)
    ensures UpdateHt(s, cfg) == s.(opMode := UpdateHt(s, cfg).opMode)
  {
  }

  lemma ChannelsOk(s: Ap)
    requires Inv(s)
    ensures Inv(s.(chReported := true))
  {
  }

  lemma CoexOk(s: Ap, id: nat, r: Report)
    requires Inv(s)
    ensures Inv(Coex(s, id, r))
  {
    hide Inv, Raise;
    if id in s.sta {
      if r.intolerant {
        OtherFlagOk(s, id, Intolerant40);
        ChannelsOk(Raise(s, id, Intolerant40));
      } else {
        InvFrame(s, s.(widthReq := true));
        ChannelsOk(s.(widthReq := true));
        ChannelsOk(s);
      }
    }
  }

  lemma NextOk(s: Ap, e: Event, cfg: Config)
    requires Inv(s)
    ensures Inv(Next(s, e, cfg))
  {
    hide Inv, Join, Leave, Coex;
    match e
    case EvJoin(id, caps) => JoinOk(s, id, caps, cfg);
    case EvLeave(id) => LeaveOk(s, id, cfg);
    case EvCoex(id, r) => CoexOk(s, id, r);
    case EvOlbc(on) => InvFrame(s, s.(olbcHt := on));
  }

  function Run(s: Ap, events: seq<Event>, cfg: Config): Ap {
    if events == [] then s else Next(Run(s, events[..|events| - 1], cfg), events[|events| - 1], cfg)
  }

  /** The driver in AP mode with no station yet; `bss` then starts the BSS with its ERP bits clear. */
  function Fresh(s: Ap, barker: bool): Ap {
    StartAp(s).(sta := map[], started := true, erp := Erp(false, false, barker), warned := false)
  }

  /**
    Over every run of joins, rejoins, coexistence reports and leaves each counter is the number of
    stations with its flag, so none is negative, the warning of the leave path is never reached,
    and with ERP on the beacon's protection bits are set exactly while some station is non-ERP.
  */
  lemma {:induction false} CountersExact(s: Ap, barker: bool, events: seq<Event>, cfg: Config)
    ensures var r := Run(Fresh(s, barker), events, cfg);
            && (forall f: Flag :: Get(r.num, f) == |Having(r.sta, f)| >= 0)
            && !r.warned
            && (r.started && r.erpEnabled && r.hasErp ==>
                  r.erp.nonErpPresent == r.erp.useProtection == exists id :: id in r.sta && NonErp in r.sta[id])
  {
    FreshOk(s, barker);
    RunOk(Fresh(s, barker), events, cfg);
    var r := Run(Fresh(s, barker), events, cfg);
    assert Having(r.sta, NonErp) == {} <==> !exists id :: id in r.sta && NonErp in r.sta[id] by {
      if id :| id in r.sta && NonErp in r.sta[id] {
        assert id in Having(r.sta, NonErp);
      }
    }
  }

  lemma FreshOk(s: Ap, barker: bool)
    ensures Inv(Fresh(s, barker))
  {
  }

  lemma {:induction false} RunOk(s: Ap, events: seq<Event>, cfg: Config)
    requires Inv(s)
    ensures Inv(Run(s, events, cfg))
  {
    if events != [] {
      RunOk(s, events[..|events| - 1], cfg);
      NextOk(Run(s, events[..|events| - 1], cfg), events[|events| - 1], cfg);
    }
  }

  // ---------------------------------------------------------------- the operation mode

  ghost predicate Some(s: Ap, f: Flag) {
    exists id :: id in s.sta && f in s.sta[id]
  }

  lemma CountPositive(s: Ap, f: Flag)
    requires CountsOk(s)
    ensures Get(s.num, f) != 0 <==> Some(s, f)
  {
    if id :| id in s.sta && f in s.sta[id] {
      assert id in Having(s.sta, f);
    }
    if Get(s.num, f) != 0 {
      var id :| id in Having(s.sta, f);
    }
  }

  lemma LeaveMode(s: Ap, id: nat, cfg: Config) returns (t: Ap)
    requires id in s.sta && cfg.htOption
    ensures Leave(s, id, cfg) == t.(opMode := WantedOpMode(t, cfg.apWide), sta := t.sta - {id})
  {
    hide Lower, LowerErp, LowerIntolerant, WantedOpMode;
    var s4 := Lower(Lower(Lower(Lower(LowerErp(Lower(s, id, NoShortPreamble), id), id, NoShortSlot), id, NoGreenfield), id, NoHt), id, Ht20);
    t := LowerIntolerant(s4, id);
  }

  /**
    After every join and every leave of a run, whatever came before, the operation mode in force is
    the one the stations then present call for: greenfield and non-HT bits, and the protection mode.
  */
  lemma OpModeTracksStations(s: Ap, barker: bool, events: seq<Event>, e: Event, cfg: Config)
    requires cfg.htOption
    requires (e.EvJoin? && cfg.htEnabled) || (e.EvLeave? && e.id in Run(Fresh(s, barker), events, cfg).sta)
    ensures var r := Next(Run(Fresh(s, barker), events, cfg), e, cfg);
            && r.opMode.nonGfPresent == Some(r, NoGreenfield)
            && r.opMode.nonHtPresent == (Some(r, NoHt) || r.olbcHt)
            && r.opMode.mode ==
               if Some(r, NoHt) then Mixed
               else if cfg.apWide && Some(r, Ht20) then Ht20Assoced
               else if r.olbcHt then MayBeLegacy else Pure
  {
    hide Join, Leave, Run, Fresh, Some, CountsOk;
    var q := Run(Fresh(s, barker), events, cfg);
    var r := Next(q, e, cfg);
    FreshOk(s, barker);
    RunOk(Fresh(s, barker), events, cfg);
    NextOk(q, e, cfg);
    CountPositive(r, NoGreenfield);
    CountPositive(r, NoHt);
    CountPositive(r, Ht20);
    var t: Ap;
    if e.EvJoin? {
      t := JoinMode(q, e.id, e.caps, cfg);
    } else {
      t := LeaveMode(q, e.id, cfg);
    }
  }

  lemma JoinMode(s: Ap, id: nat, c: Caps, cfg: Config) returns (t: Ap)
    requires cfg.htOption && cfg.htEnabled
    ensures Join(s, id, c, cfg) == t.(opMode := WantedOpMode(t, cfg.apWide))
  {
    hide Lower, Raise, LowerErp, RaiseErp, JoinHt, WantedOpMode;
    var s0 := if id in s.sta then s else s.(sta := s.sta[id := {}]);
    var s1 := if c.shortPreamble then Lower(s0, id, NoShortPreamble) else Raise(s0, id, NoShortPreamble);
    var s2 := if c.nonErp then RaiseErp(s1, id) else LowerErp(s1, id);
    var s3 := if c.shortSlot then Lower(s2, id, NoShortSlot) else Raise(s2, id, NoShortSlot);
    t := JoinHt(s3, id, c);
  }

  // ---------------------------------------------------------------- what a join leaves behind

  /** Whether a station has a flag after a join in which it announced `c`, given whether it had it before. */
  predicate FlagAfterJoin(f: Flag, had: bool, c: Caps, htEnabled: bool)
  {
    match f
    case NoShortPreamble => !c.shortPreamble
    case NonErp => c.nonErp
    case NoShortSlot => !c.shortSlot
    case NoHt => if htEnabled then !c.ht else had
    case NoGreenfield => had || (htEnabled && c.ht && !c.greenfield)
    case Ht20 => had || (htEnabled && c.ht && !c.wide)
    case Intolerant40 => had || (htEnabled && c.ht && c.intolerant40)
  }

  /**
    What a join leaves in the station records: four flags follow the latest announcement, while
    greenfield, 20 MHz and intolerance are only ever added, so a station that joins again with
    better HT capabilities keeps counting until it leaves. Other stations are not touched.
  */
  lemma JoinFlags(s: Ap, id: nat, c: Caps, cfg: Config, f: Flag)
    ensures var r := Join(s, id, c, cfg);
            && r.sta.Keys == s.sta.Keys + {id}
            && (forall k :: k in s.sta && k != id ==> r.sta[k] == s.sta[k])
            && (f in r.sta[id] <==> FlagAfterJoin(f, id in s.sta && f in s.sta[id], c, cfg.htEnabled))
  {
    hide Join, Rewrites, AfterBasics, AfterHt, FlagAfterJoin;
    var m := if id in s.sta then s.sta else s.sta[id := {}];
    var r := Join(s, id, c, cfg);
    JoinRewritten(s, id, c, cfg);
    RewriteKeeps(m, r.sta, id, r.sta[id]);
    FlagsFollow(m[id], c, cfg.htEnabled, f);
  }

  lemma JoinRewritten(s: Ap, id: nat, c: Caps, cfg: Config)
    ensures var m := if id in s.sta then s.sta else s.sta[id := {}];
            var fb := AfterBasics(m[id], c);
            Rewrites(m, Join(s, id, c, cfg).sta, id, if cfg.htEnabled then AfterHt(fb, c) else fb)
  {
    hide Raise, Lower, RaiseErp, LowerErp, JoinHt, UpdateHt, Rewrites, AfterHt;
    var s0 := if id in s.sta then s else s.(sta := s.sta[id := {}]);
    var s1 := if c.shortPreamble then Lower(s0, id, NoShortPreamble) else Raise(s0, id, NoShortPreamble);
    FlagRewritten(s0, id, NoShortPreamble);
    var s2 := if c.nonErp then RaiseErp(s1, id) else LowerErp(s1, id);
    ErpRewritten(s1, id);
    RewriteTwice(s0.sta, s1.sta, s2.sta, id, s1.sta[id], s2.sta[id]);
    var s3 := if c.shortSlot then Lower(s2, id, NoShortSlot) else Raise(s2, id, NoShortSlot);
    FlagRewritten(s2, id, NoShortSlot);
    RewriteTwice(s0.sta, s2.sta, s3.sta, id, s2.sta[id], s3.sta[id]);
    if cfg.htEnabled {
      var s4 := JoinHt(s3, id, c);
      JoinHtRewritten(s3, id, c);
      RewriteTwice(s0.sta, s3.sta, s4.sta, id, s3.sta[id], s4.sta[id]);
      UpdateHtFrame(s4, cfg);
    }
  }

  /** The flags of a station after a join, given those before. */
  function AfterBasics(fs: set<Flag>, c: Caps): set<Flag> {
    var f1 := if c.shortPreamble then fs - {NoShortPreamble} else fs + {NoShortPreamble};
    var f2 := if c.nonErp then f1 + {NonErp} else f1 - {NonErp};
    if c.shortSlot then f2 - {NoShortSlot} else f2 + {NoShortSlot}
  }

  function AfterHt(fs: set<Flag>, c: Caps): set<Flag> {
    if c.ht then
      var f1 := fs - {NoHt};
      var f2 := if c.greenfield then f1 else f1 + {NoGreenfield};
      var f3 := if c.wide then f2 else f2 + {Ht20};
      if c.intolerant40 then f3 + {Intolerant40} else f3
    else
      fs + {NoHt}
  }

  lemma FlagsFollow(fs: set<Flag>, c: Caps, ht: bool, f: Flag)
    ensures f in (if ht then AfterHt(AfterBasics(fs, c), c) else AfterBasics(fs, c)) <==> FlagAfterJoin(f, f in fs, c, ht)
  {
  }

  lemma JoinHtRewritten(s: Ap, id: nat, c: Caps)
    requires id in s.sta
    ensures Rewrites(s.sta, JoinHt(s, id, c).sta, id, AfterHt(s.sta[id], c))
  {
    hide Raise, Lower, Rewrites;
    FlagRewritten(s, id, NoHt);
    if c.ht {
      var s1 := Lower(s, id, NoHt);
      FlagRewritten(s1, id, NoGreenfield);
      var s2 := if c.greenfield then s1 else Raise(s1, id, NoGreenfield);
      RewriteTwice(s.sta, s1.sta, s2.sta, id, s1.sta[id], s2.sta[id]);
      FlagRewritten(s2, id, Ht20);
      var s3 := if c.wide then s2 else Raise(s2, id, Ht20);
      RewriteTwice(s.sta, s2.sta, s3.sta, id, s2.sta[id], s3.sta[id]);
      FlagRewritten(s3, id, Intolerant40);
      var s4 := if c.intolerant40 then Raise(s3, id, Intolerant40) else s3;
      RewriteTwice(s.sta, s3.sta, s4.sta, id, s3.sta[id], s4.sta[id]);
    }
  }

  ghost predicate Rewrites(m: map<nat, set<Flag>>, n: map<nat, set<Flag>>, id: nat, fs: set<Flag>): (b: bool)
    ensures b ==> id in m && id in n && n[id] == fs
  {
    id in m && n == m[id := fs]
  }

  lemma FlagRewritten(s: Ap, id: nat, f: Flag)
    requires id in s.sta
    ensures Rewrites(s.sta, Lower(s, id, f).sta, id, s.sta[id] - {f})
    ensures Rewrites(s.sta, Raise(s, id, f).sta, id, s.sta[id] + {f})
    ensures Rewrites(s.sta, s.sta, id, s.sta[id])
  {
    hide Lower, Raise;
    FlagsOfLower(s, id, f);
    FlagsOfRaise(s, id, f);
  }

  lemma ErpRewritten(s: Ap, id: nat)
    requires id in s.sta
    ensures Rewrites(s.sta, LowerErp(s, id).sta, id, s.sta[id] - {NonErp})
    ensures Rewrites(s.sta, RaiseErp(s, id).sta, id, s.sta[id] + {NonErp})
  {
    hide LowerErp, RaiseErp;
    FlagsOfErp(s, id);
  }

  lemma RewriteTwice(m: map<nat, set<Flag>>, n: map<nat, set<Flag>>, o: map<nat, set<Flag>>, id: nat,
                     fs: set<Flag>, gs: set<Flag>)
    requires Rewrites(m, n, id, fs) && Rewrites(n, o, id, gs)
    ensures Rewrites(m, o, id, gs)
  {
  }

  lemma RewriteKeeps(m: map<nat, set<Flag>>, n: map<nat, set<Flag>>, id: nat, fs: set<Flag>)
    requires Rewrites(m, n, id, fs)
    ensures n.Keys == m.Keys && forall k :: k in m && k != id ==> n[k] == m[k]
  {
  }

  // ---------------------------------------------------------------- coexistence reports over runs

  predicate SameNotes(s: Ap, r: Ap) {
    r.widthReq == s.widthReq && r.chReported == s.chReported
  }

  lemma FlagNotes(s: Ap, id: nat, f: Flag)
    requires id in s.sta
    ensures SameNotes(s, Raise(s, id, f)) && SameNotes(s, Lower(s, id, f))
  {
    RaiseFrame(s, id, f);
    LowerFrame(s, id, f);
    hide Raise, Lower;
  }

  lemma RaiseFrame(s: Ap, id: nat, f: Flag)
    requires id in s.sta
    ensures var r := Raise(s, id, f); r == s.(sta := r.sta, num := r.num)
  {
    hide Set, Get;
  }

  lemma LowerFrame(s: Ap, id: nat, f: Flag)
    requires id in s.sta
    ensures var r := Lower(s, id, f); r == s.(sta := r.sta, num := r.num)
  {
    hide Set, Get;
  }

  lemma IntolerantNotes(s: Ap, id: nat)
    requires id in s.sta
    ensures SameNotes(s, LowerIntolerant(s, id))
  {
    hide Lower;
    FlagNotes(s, id, Intolerant40);
  }

  lemma ErpNotes(s: Ap, id: nat)
    requires id in s.sta
    ensures SameNotes(s, RaiseErp(s, id)) && SameNotes(s, LowerErp(s, id))
  {
    hide Raise, Lower;
    FlagNotes(s, id, NonErp);
  }

  lemma JoinNotes(s: Ap, id: nat, c: Caps, cfg: Config)
    ensures SameNotes(s, Join(s, id, c, cfg))
  {
    hide Raise, Lower, RaiseErp, LowerErp;
    var s0 := if id in s.sta then s else s.(sta := s.sta[id := {}]);
    FlagNotes(s0, id, NoShortPreamble);
    var s1 := if c.shortPreamble then Lower(s0, id, NoShortPreamble) else Raise(s0, id, NoShortPreamble);
    ErpNotes(s1, id);
    var s2 := if c.nonErp then RaiseErp(s1, id) else LowerErp(s1, id);
    FlagNotes(s2, id, NoShortSlot);
    JoinHtNotes(JoinBasics(s0, id, c), id, c);
    hide JoinHt;
  }

  lemma JoinHtNotes(s: Ap, id: nat, c: Caps)
    requires id in s.sta
    ensures SameNotes(s, JoinHt(s, id, c))
  {
    hide Raise, Lower;
    FlagNotes(s, id, NoHt);
    var s1 := Lower(s, id, NoHt);
    FlagNotes(s1, id, NoGreenfield);
    var s2 := if c.greenfield then s1 else Raise(s1, id, NoGreenfield);
    FlagNotes(s2, id, Ht20);
    var s3 := if c.wide then s2 else Raise(s2, id, Ht20);
    FlagNotes(s3, id, Intolerant40);
  }

  lemma LeaveNotes(s: Ap, id: nat, cfg: Config)
    ensures SameNotes(s, Leave(s, id, cfg))
  {
    hide Raise, Lower, LowerErp, LowerIntolerant;
    if id in s.sta {
      FlagNotes(s, id, NoShortPreamble);
      var s1 := Lower(s, id, NoShortPreamble);
      ErpNotes(s1, id);
      var s2 := LowerErp(s1, id);
      FlagNotes(s2, id, NoShortSlot);
      var s3 := Lower(s2, id, NoShortSlot);
      FlagNotes(s3, id, NoGreenfield);
      var s4 := Lower(s3, id, NoGreenfield);
      FlagNotes(s4, id, NoHt);
      var s5 := Lower(s4, id, NoHt);
      FlagNotes(s5, id, Ht20);
      IntolerantNotes(Lower(s5, id, Ht20), id);
    }
  }

  /** Event `e` in state `s` is a known station's request for 20 MHz that does not claim intolerance. */
  predicate AsksWidth(s: Ap, e: Event) {
    e.EvCoex? && e.id in s.sta && e.report.width20 && !e.report.intolerant
  }

  /** It is a known station's report of intolerant channels. */
  predicate ReportsChannels(s: Ap, e: Event) {
    e.EvCoex? && e.id in s.sta && e.report.channels
  }

  lemma CoexNotes(s: Ap, id: nat, r: Report)
    ensures var e := EvCoex(id, r);
            && (Coex(s, id, r).widthReq <==> s.widthReq || AsksWidth(s, e))
            && (Coex(s, id, r).chReported <==> s.chReported || ReportsChannels(s, e))
  {
    hide Raise;
    if id in s.sta {
      FlagNotes(s, id, Intolerant40);
    }
  }

  lemma NotesStep(s: Ap, e: Event, cfg: Config)
    ensures Next(s, e, cfg).widthReq <==> s.widthReq || AsksWidth(s, e)
    ensures Next(s, e, cfg).chReported <==> s.chReported || ReportsChannels(s, e)
  {
    hide Join, Leave, Coex;
    match e
    case EvJoin(id, caps) => JoinNotes(s, id, caps, cfg);
    case EvLeave(id) => LeaveNotes(s, id, cfg);
    case EvCoex(id, r) => CoexNotes(s, id, r);
    case EvOlbc(_) =>
  }

  predicate WidthAskedAt(s: Ap, events: seq<Event>, cfg: Config, k: nat) {
    k < |events| && AsksWidth(Run(s, events[..k], cfg), events[k])
  }

  predicate ChannelsReportedAt(s: Ap, events: seq<Event>, cfg: Config, k: nat) {
    k < |events| && ReportsChannels(Run(s, events[..k], cfg), events[k])
  }

  lemma EarlierSame(s: Ap, events: seq<Event>, cfg: Config, n: nat, k: nat)
    requires k < n <= |events|
    ensures WidthAskedAt(s, events[..n], cfg, k) == WidthAskedAt(s, events, cfg, k)
    ensures ChannelsReportedAt(s, events[..n], cfg, k) == ChannelsReportedAt(s, events, cfg, k)
  {
    hide Run, AsksWidth, ReportsChannels;
    assert events[..n][..k] == events[..k];
  }

  lemma WidthSteps(s: Ap, events: seq<Event>, cfg: Config, n: nat)
    requires |events| == n + 1
    ensures (exists k :: WidthAskedAt(s, events, cfg, k)) <==>
            (exists k :: WidthAskedAt(s, events[..n], cfg, k)) || AsksWidth(Run(s, events[..n], cfg), events[n])
  {
    hide Run, AsksWidth;
    if k: nat :| WidthAskedAt(s, events, cfg, k) && k < n {
      EarlierSame(s, events, cfg, n, k);
    }
    if k: nat :| WidthAskedAt(s, events[..n], cfg, k) {
      EarlierSame(s, events, cfg, n, k);
    }
    assert WidthAskedAt(s, events, cfg, n) == AsksWidth(Run(s, events[..n], cfg), events[n]);
  }

  lemma ChannelSteps(s: Ap, events: seq<Event>, cfg: Config, n: nat)
    requires |events| == n + 1
    ensures (exists k :: ChannelsReportedAt(s, events, cfg, k)) <==>
            (exists k :: ChannelsReportedAt(s, events[..n], cfg, k)) || ReportsChannels(Run(s, events[..n], cfg), events[n])
  {
    hide Run, ReportsChannels;
    if k: nat :| ChannelsReportedAt(s, events, cfg, k) && k < n {
      EarlierSame(s, events, cfg, n, k);
    }
    if k: nat :| ChannelsReportedAt(s, events[..n], cfg, k) {
      EarlierSame(s, events, cfg, n, k);
    }
    assert ChannelsReportedAt(s, events, cfg, n) == ReportsChannels(Run(s, events[..n], cfg), events[n]);
  }

  lemma RunStep(s: Ap, events: seq<Event>, cfg: Config)
    requires events != []
    ensures var n := |events| - 1; Run(s, events, cfg) == Next(Run(s, events[..n], cfg), events[n], cfg)
  {
    hide Next;
  }

  /**
    In every run the width request and the channel report are noted exactly from the first report on
    that makes them, by a station known then; nothing takes them back, and an intolerant station's
    wish for 20 MHz is passed over.
  */
  lemma {:induction false} ReportsNoted(s: Ap, events: seq<Event>, cfg: Config)
    ensures Run(s, events, cfg).widthReq <==> s.widthReq || exists k :: WidthAskedAt(s, events, cfg, k)
    ensures Run(s, events, cfg).chReported <==> s.chReported || exists k :: ChannelsReportedAt(s, events, cfg, k)
  {
    if events != [] {
      hide Next, AsksWidth, ReportsChannels, WidthAskedAt, ChannelsReportedAt;
      var n := |events| - 1;
      ReportsNoted(s, events[..n], cfg);
      NotesStep(Run(s, events[..n], cfg), events[n], cfg);
      RunStep(s, events, cfg);
      WidthSteps(s, events, cfg, n);
      ChannelSteps(s, events, cfg, n);
    }
  }

  /** A report of intolerance marks exactly its sender, and no other report marks anyone. */
  lemma CoexMarks(s: Ap, id: nat, r: Report, k: nat)
    requires k in s.sta
    ensures k in Coex(s, id, r).sta
    ensures Coex(s, id, r).sta[k] == if k == id && r.intolerant then s.sta[k] + {Intolerant40} else s.sta[k]
  {
    if id in s.sta {
      FlagRewritten(s, id, Intolerant40);
      hide Raise;
    }
  }
}
