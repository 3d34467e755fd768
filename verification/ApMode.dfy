/**
  The access point's bookkeeping as the driver runs it: fields updated one by one, the operation mode
  as a word with masks and the ERP byte inside the beacon's element buffer, proved against the
  functions on values.
*/
module ApMode {
  import opened SkbBuffer
  import opened ApStations
  import opened BeaconIes
  import E = Elements

  const ERP_INFO: Byte := 42

  // ---------------------------------------------------------------- words and bytes

  /** The fields of ht_op_mode: bits 0 and 1, bit 2, bit 4. */
  function OpModeOf(w: nat): OpMode {
    OpMode(w / 4 % 2 == 1, w / 16 % 2 == 1,
           if w % 4 == 0 then Pure else if w % 4 == 1 then MayBeLegacy else if w % 4 == 2 then Ht20Assoced else Mixed)
  }

  function Number(p: Protection): (n: nat)
    ensures n < 4 && OpModeOf(n).mode == p
  {
    match p case Pure => 0 case MayBeLegacy => 1 case Ht20Assoced => 2 case Mixed => 3
  }

  /** The bits of the word that belong to none of these fields. */
  function OtherBits(w: nat): (nat, nat) {
    (w / 32, w / 8 % 2)
  }

  /** A word put together from its fields. */
  function Word(high: nat, ht: nat, other: nat, gf: nat, mode: nat): nat {
    32 * high + 16 * ht + 8 * other + 4 * gf + mode
  }

  lemma Div2(x: nat, b: nat)
    requires b < 2
    ensures (2 * x + b) / 2 == x && (2 * x + b) % 2 == b
  {
  }

  lemma Div4(x: nat, m: nat)
    requires m < 4
    ensures (4 * x + m) / 4 == x && (4 * x + m) % 4 == m
  {
  }

  lemma Halves(w: nat)
    ensures w / 8 == w / 4 / 2 && w / 16 == w / 8 / 2 && w / 32 == w / 16 / 2
  {
  }

  lemma WordParts(high: nat, ht: nat, other: nat, gf: nat, mode: nat)
    requires ht < 2 && other < 2 && gf < 2 && mode < 4
    ensures var w := Word(high, ht, other, gf, mode);
            w / 32 == high && w / 16 % 2 == ht && w / 8 % 2 == other && w / 4 % 2 == gf && w % 4 == mode
  {
    var z := 2 * high + ht;
    var y := 2 * z + other;
    var x := 2 * y + gf;
    assert Word(high, ht, other, gf, mode) == 4 * x + mode;
    Div4(x, mode);
    Div2(y, gf);
    Div2(z, other);
    Div2(high, ht);
    Halves(Word(high, ht, other, gf, mode));
  }

  /** Every word is put together so. */
  lemma WordOf(w: nat)
    ensures w == Word(w / 32, w / 16 % 2, w / 8 % 2, w / 4 % 2, w % 4)
  {
    Halves(w);
    var x := w / 4;
    var y := x / 2;
    var z := y / 2;
    assert w == 4 * x + w % 4 && x == 2 * y + x % 2 && y == 2 * z + y % 2 && z == 2 * (z / 2) + z % 2;
  }

  /** Setting or clearing bit 2. */
  lemma GreenfieldBit(w: nat)
    ensures w / 4 % 2 == 0 ==> OpModeOf(w + 4) == OpModeOf(w).(nonGfPresent := true) && OtherBits(w + 4) == OtherBits(w)
    ensures w / 4 % 2 == 1 ==> w >= 4 && OpModeOf(w - 4) == OpModeOf(w).(nonGfPresent := false) && OtherBits(w - 4) == OtherBits(w)
  {
    WordOf(w);
    WordParts(w / 32, w / 16 % 2, w / 8 % 2, 1 - w / 4 % 2, w % 4);
  }

  /** Setting or clearing bit 4. */
  lemma NonHtBit(w: nat)
    ensures w / 16 % 2 == 0 ==> OpModeOf(w + 16) == OpModeOf(w).(nonHtPresent := true) && OtherBits(w + 16) == OtherBits(w)
    ensures w / 16 % 2 == 1 ==> w >= 16 && OpModeOf(w - 16) == OpModeOf(w).(nonHtPresent := false) && OtherBits(w - 16) == OtherBits(w)
  {
    WordOf(w);
    WordParts(w / 32, 1 - w / 16 % 2, w / 8 % 2, w / 4 % 2, w % 4);
  }

  /** Replacing bits 0 and 1. */
  lemma ModeBits(w: nat, p: Protection)
    ensures var v := w - w % 4 + Number(p);
            OpModeOf(v) == OpModeOf(w).(mode := p) && OtherBits(v) == OtherBits(w)
  {
    WordOf(w);
    WordParts(w / 32, w / 16 % 2, w / 8 % 2, w / 4 % 2, Number(p));
    NumberMode(p, w - w % 4 + Number(p));
  }

  lemma NumberMode(p: Protection, v: nat)
    requires v % 4 == Number(p)
    ensures OpModeOf(v).mode == p
  {
  }

  /** The fields and the other bits make up the whole word. */
  lemma WordIs(v: nat, w: nat)
    requires OpModeOf(v) == OpModeOf(w) && OtherBits(v) == OtherBits(w)
    ensures v == w
  {
    WordOf(v);
    WordOf(w);
  }

  /** The ERP byte: Non-ERP-Present, Use-Protection and Barker-Preamble are bits 0, 1 and 2. */
  function ErpOf(b: Byte): Erp {
    Erp(b % 2 == 1, b / 2 % 2 == 1, b / 4 % 2 == 1)
  }

  function ErpSet(b: Byte, protect: bool, barker: bool): Byte {
    b - b % 8 + (if protect then 3 else 0) + (if barker then 4 else 0)
  }

  lemma ErpBits(b: Byte, protect: bool, barker: bool)
    ensures ErpOf(ErpSet(b, protect, barker)) == Erp(protect, protect, barker) && ErpSet(b, protect, barker) / 8 == b / 8
  {
  }

  // ---------------------------------------------------------------- the ERP element in a list

  predicate HasErp(es: seq<E.Element>) {
    var k := E.First(es, ERP_INFO);
    k < |es| && es[k].data != []
  }

  function ErpIn(es: seq<E.Element>): Erp {
    if HasErp(es) then ErpOf(es[E.First(es, ERP_INFO)].data[0]) else Erp(false, false, false)
  }

  /** The list with the first byte of its ERP element replaced. */
  function WithErpByte(es: seq<E.Element>, b: Byte): seq<E.Element>
    requires HasErp(es)
  {
    var k := E.First(es, ERP_INFO);
    es[k := es[k].(data := es[k].data[0 := b])]
  }

  lemma ErpReplaced(es: seq<E.Element>, b: Byte)
    requires HasErp(es)
    ensures HasErp(WithErpByte(es, b)) && ErpIn(WithErpByte(es, b)) == ErpOf(b)
  {
    hide ErpOf;
    var k, r := E.First(es, ERP_INFO), WithErpByte(es, b);
    E.FirstIs(r, ERP_INFO, k);
  }

  /** Replacing one data byte of an element replaces one byte of the wire form. */
  lemma ByteReplaced(hd: seq<Byte>, es: seq<E.Element>, k: nat, b: Byte)
    requires E.AllSmall(es) && k < |es| && es[k].data != []
    ensures var e := es[k].(data := es[k].data[0 := b]);
            && E.AllSmall(es[k := e])
            && |hd| + E.Pos(es, k) + 2 < |hd + E.Encode(es)|
            && hd + E.Encode(es[k := e]) == (hd + E.Encode(es))[|hd| + E.Pos(es, k) + 2 := b]
  {
    hide E.Encode;
    var e := es[k].(data := es[k].data[0 := b]);
    var r := es[k := e];
    E.Around(es, k);
    E.Around(r, k);
    assert r[..k] == es[..k] && r[k + 1..] == es[k + 1..];
    OneByte(E.Encode(es[..k]), es[k], b, E.Encode(es[k + 1..]), hd);
  }

  lemma OneByte(x: seq<Byte>, e: E.Element, b: Byte, y: seq<Byte>, hd: seq<Byte>)
    requires E.Small(e) && e.data != []
    ensures hd + (x + E.EncodeOne(e.(data := e.data[0 := b])) + y) == (hd + (x + E.EncodeOne(e) + y))[|hd| + |x| + 2 := b]
  {
  }

  // ---------------------------------------------------------------- the access point

  class AccessPoint {
    const cfg: Config
    const beacon: Bss
    var sta: map<nat, set<Flag>>
    var num: Counters
    var olbcHt: bool
    var widthReq: bool
    var chReported: bool
    var opMode: nat                // ht_op_mode
    var started: bool
    var erpEnabled: bool
    ghost var warned: bool
    ghost var head: seq<Byte>
    ghost var elements: seq<E.Element>

    ghost predicate Valid()
      reads this, beacon, beacon.ies
    {
      |head| == 12 && beacon.Holds(head, elements)
    }

    ghost function View(): Ap
      reads this
    {
      Ap(sta, num, olbcHt, widthReq, chReported, OpModeOf(opMode), started, erpEnabled, HasErp(elements), ErpIn(elements), warned)
    }

    constructor (cfg: Config, beacon: Bss, ghost head: seq<Byte>, ghost elements: seq<E.Element>)
      requires |head| == 12 && beacon.Holds(head, elements)
      ensures Valid() && this.cfg == cfg && this.beacon == beacon && this.elements == elements && sta == map[]
    {
      this.cfg, this.beacon, this.head, this.elements := cfg, beacon, head, elements;
      sta, num, opMode := map[], Counters(0, 0, 0, 0, 0, 0, 0), 0;
      olbcHt, widthReq, chReported, started, erpEnabled, warned := false, false, false, false, false, false;
    }

    /** start_ap_mode, as far as the accounting is concerned. */
    method StartApMode()
      modifies this`started, this`num, this`olbcHt, this`widthReq, this`chReported, this`opMode
      ensures View() == StartAp(old(View())) && opMode == 0
    {
      started := false;
      num := Counters(0, 0, 0, 0, 0, 0, 0);
      olbcHt, widthReq, chReported, opMode := false, false, false, 0;
    }

    method SetFlag(id: nat, f: Flag)
      requires id in sta
      modifies this`sta, this`num
      ensures View() == Raise(old(View()), id, f)
    {
      hide OpModeOf, ErpIn, HasErp;
      if f !in sta[id] {
        sta := sta[id := sta[id] + {f}];
        num := Set(num, f, Get(num, f) + 1);
      }
    }

    method ClearFlag(id: nat, f: Flag)
      requires id in sta
      modifies this`sta, this`num
      ensures View() == Lower(old(View()), id, f)
    {
      hide OpModeOf, ErpIn, HasErp;
      if f in sta[id] {
        sta := sta[id := sta[id] - {f}];
        num := Set(num, f, Get(num, f) - 1);
      }
    }

    /** update_bcn_erpinfo_ie: the first byte of the beacon's ERP element is rewritten in the buffer. */
    method UpdateBcnErpInfo()
      requires Valid()
      modifies this`elements, beacon.ies
      ensures Valid() && View() == UpdateErp(old(View()))
      ensures elements == old(elements) ||
              (HasErp(old(elements)) && exists b: Byte :: elements == WithErpByte(old(elements), b))
    {
      hide E.Encode, E.First, OpModeOf, ErpOf, ErpSet;
      if !started || !erpEnabled {
        return;
      }
      var p, len := beacon.GetIe(ERP_INFO, 12, head, elements);
      if p >= 0 && len > 0 {
        ghost var k := E.First(elements, ERP_INFO);
        beacon.At(head, elements, k);
        ByteAt(k);
        var b := ErpSet(beacon.ies[p + 2], num.nonErp == 1, num.noShortPreamble > 0);
        ErpBits(beacon.ies[p + 2], num.nonErp == 1, num.noShortPreamble > 0);
        ByteReplaced(head, elements, k, b);
        ErpReplaced(elements, b);
        ghost var c := beacon.Content();
        beacon.ies[p + 2] := b;
        assert beacon.Content() == c[p + 2 := b];
        elements := WithErpByte(elements, b);
      }
    }

    /** The first data byte of element `k` in the buffer. */
    lemma ByteAt(k: nat)
      requires Valid() && k < |elements| && elements[k].data != []
      ensures 12 + E.Pos(elements, k) + 2 < beacon.ieLength <= beacon.ies.Length
      ensures beacon.ies[12 + E.Pos(elements, k) + 2] == elements[k].data[0]
    {
      hide E.Encode;
      E.Layout(elements, k);
      var q := E.Pos(elements, k);
      var d := E.Encode(elements)[q + 2..q + 2 + |elements[k].data|];
      assert d[0] == E.Encode(elements)[q + 2];
      assert beacon.Content()[12 + q + 2] == E.Encode(elements)[q + 2];
    }

    /**
      rtw_ht_operation_update: with HT on, the fields become what the counters and the overlap flag
      call for, no other bit changes, and the result is zero exactly when nothing changed.
    */
    method HtOperationUpdate() returns (changes: nat)
      modifies this`opMode
      ensures View() == UpdateHt(old(View()), cfg) && OtherBits(opMode) == OtherBits(old(opMode))
      ensures changes == 0 <==> opMode == old(opMode)
    {
      hide OpModeOf, OtherBits, ErpIn, HasErp;
      changes := 0;
      if !cfg.htOption {
        return;
      }
      var gf, c1 := SwitchGreenfield(opMode, num.noGreenfield != 0);
      var ht, c2 := SwitchNonHt(gf, num.noHt != 0 || olbcHt);
      var mode := Pure;
      if num.noHt != 0 {
        mode := Mixed;
      } else if cfg.apWide && num.ht20 != 0 {
        mode := Ht20Assoced;
      } else if olbcHt {
        mode := MayBeLegacy;
      }
      var op, c3 := WriteMode(ht, mode);
      opMode, changes := op, c1 + c2 + c3;
      if opMode == old(opMode) {
        // no write undoes another
        WordIs(gf, opMode);
        WordIs(ht, opMode);
      }
    }

    /** bss_cap_update_on_sta_join. */
    method OnStaJoin(id: nat, c: Caps)
      requires Valid()
      modifies this, beacon.ies
      ensures Valid() && View() == Join(old(View()), id, c, cfg)
    {
      hide OpModeOf, ErpIn, HasErp, Bss.Holds, JoinBasics, JoinHt, UpdateHt;
      if id !in sta {
        sta := sta[id := {}];
      }
      JoinBasicFlags(id, c);
      if cfg.htEnabled {
        JoinHtFlags(id, c);
        var _ := HtOperationUpdate();
      }
    }

    method JoinBasicFlags(id: nat, c: Caps)
      requires Valid() && id in sta
      modifies this, beacon.ies
      ensures Valid() && View() == JoinBasics(old(View()), id, c)
    {
      hide OpModeOf, ErpIn, HasErp, Bss.Holds, Raise, Lower, RaiseErp, LowerErp;
      if c.shortPreamble {
        ClearFlag(id, NoShortPreamble);
      } else {
        SetFlag(id, NoShortPreamble);
      }
      JoinErp(id, c.nonErp);
      if c.shortSlot {
        ClearFlag(id, NoShortSlot);
      } else {
        SetFlag(id, NoShortSlot);
      }
    }

    method JoinErp(id: nat, nonErp: bool)
      requires Valid() && id in sta
      modifies this, beacon.ies
      ensures Valid() && View() == if nonErp then RaiseErp(old(View()), id) else LowerErp(old(View()), id)
    {
      hide OpModeOf, ErpIn, HasErp, Bss.Holds;
      if nonErp {
        if NonErp !in sta[id] {
          SetFlag(id, NonErp);
          if num.nonErp == 1 {
            UpdateBcnErpInfo();
          }
        }
      } else {
        if NonErp in sta[id] {
          ClearFlag(id, NonErp);
          if num.nonErp == 0 {
            UpdateBcnErpInfo();
          }
        }
      }
    }

    method JoinHtFlags(id: nat, c: Caps)
      requires id in sta
      modifies this`sta, this`num
      ensures View() == JoinHt(old(View()), id, c)
    {
      hide OpModeOf, ErpIn, HasErp;
      if c.ht {
        ClearFlag(id, NoHt);
        if !c.greenfield {
          SetFlag(id, NoGreenfield);
        }
        if !c.wide {
          SetFlag(id, Ht20);
        }
        if c.intolerant40 {
          SetFlag(id, Intolerant40);
        }
      } else {
        SetFlag(id, NoHt);
      }
    }

    /** bss_cap_update_on_sta_leave; afterwards the station is freed. */
    method OnStaLeave(id: nat)
      requires Valid()
      modifies this, beacon.ies
      ensures Valid() && View() == Leave(old(View()), id, cfg)
    {
      hide OpModeOf, ErpIn, HasErp, Bss.Holds, Cleared, UpdateHt;
      if id in sta {
        ClearFlags(id);
        var _ := HtOperationUpdate();
        sta := sta - {id};
      }
    }

    method ClearFlags(id: nat)
      requires Valid() && id in sta
      modifies this, beacon.ies
      ensures Valid() && View() == Cleared(old(View()), id)
    {
      hide OpModeOf, ErpIn, HasErp, Bss.Holds, Lower, LowerErp, ClearedHt;
      ClearFlag(id, NoShortPreamble);
      JoinErp(id, false);
      ClearFlag(id, NoShortSlot);
      ClearHtFlags(id);
    }

    method ClearHtFlags(id: nat)
      requires id in sta
      modifies this`sta, this`num, this`warned
      ensures View() == ClearedHt(old(View()), id)
    {
      hide OpModeOf, ErpIn, HasErp, Lower, LowerIntolerant;
      ClearFlag(id, NoGreenfield);
      ClearFlag(id, NoHt);
      ClearFlag(id, Ht20);
      ClearIntolerant(id);
    }

    method ClearIntolerant(id: nat)
      requires id in sta
      modifies this`sta, this`num, this`warned
      ensures View() == LowerIntolerant(old(View()), id)
    {
      hide OpModeOf, ErpIn, HasErp;
      if Intolerant40 in sta[id] {
        sta := sta[id := sta[id] - {Intolerant40}];
        if num.intolerant40 > 0 {
          num := Set(num, Intolerant40, num.intolerant40 - 1);
        } else {
          warned := true;
        }
      }
    }

    /** rtw_process_public_act_bsscoex. */
    method OnBssCoex(id: nat, r: Report)
      modifies this`sta, this`num, this`widthReq, this`chReported
      ensures View() == Coex(old(View()), id, r)
    {
      hide OpModeOf, ErpIn, HasErp;
      if id in sta {
        if r.intolerant {
          SetFlag(id, Intolerant40);
        } else if r.width20 {
          widthReq := true;
        }
        if r.channels {
          chReported := true;
        }
      }
    }
  }

  // ---------------------------------------------------------------- the writes to the word

  method SwitchGreenfield(w: nat, on: bool) returns (v: nat, changed: nat)
    ensures OpModeOf(v) == OpModeOf(w).(nonGfPresent := on) && OtherBits(v) == OtherBits(w)
    ensures changed == if v == w then 0 else 1
  {
    GreenfieldBit(w);
    hide OpModeOf, OtherBits;
    v, changed := w, 0;
    if w / 4 % 2 == 0 && on {
      v, changed := w + 4, 1;
    } else if w / 4 % 2 == 1 && !on {
      v, changed := w - 4, 1;
    } else {
      GreenfieldIs(w);
    }
  }

  lemma GreenfieldIs(w: nat)
    ensures OpModeOf(w).nonGfPresent == (w / 4 % 2 == 1) && OpModeOf(w).nonHtPresent == (w / 16 % 2 == 1)
  {
  }

  method SwitchNonHt(w: nat, on: bool) returns (v: nat, changed: nat)
    ensures OpModeOf(v) == OpModeOf(w).(nonHtPresent := on) && OtherBits(v) == OtherBits(w)
    ensures changed == if v == w then 0 else 1
  {
    NonHtBit(w);
    hide OpModeOf, OtherBits;
    v, changed := w, 0;
    if w / 16 % 2 == 0 && on {
      v, changed := w + 16, 1;
    } else if w / 16 % 2 == 1 && !on {
      v, changed := w - 16, 1;
    } else {
      GreenfieldIs(w);
    }
  }

  method WriteMode(w: nat, p: Protection) returns (v: nat, changed: nat)
    ensures OpModeOf(v) == OpModeOf(w).(mode := p) && OtherBits(v) == OtherBits(w)
    ensures changed == if v == w then 0 else 1
  {
    ModeBits(w, p);
    hide OpModeOf, OtherBits;
    v, changed := w, 0;
    if w % 4 != Number(p) {
      v, changed := w - w % 4 + Number(p), 1;
    }
  }
}
