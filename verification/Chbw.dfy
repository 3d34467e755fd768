/** Channel and bandwidth requests merged into one group. */
module Chbw {

  /** CHANNEL_WIDTH_*, as the driver numbers them; 160 MHz and the rest have larger numbers. */
  type Width = nat
  const W20: Width := 0
  const W40: Width := 1
  const W80: Width := 2

  datatype Offset = DontCare | Lower | Upper

  datatype Chan = Chan(ch: nat, bw: Width, offset: Offset)

  /** The widths that are merged; the others are reported as unsupported. */
  predicate Usual(c: Chan) {
    c.bw <= W80
  }

  const LOWER_CHANNELS: set<nat> := {36, 44, 52, 60, 100, 108, 116, 124, 132, 140, 149, 157, 165, 173}
  const UPPER_CHANNELS: set<nat> := {40, 48, 56, 64, 104, 112, 120, 128, 136, 144, 153, 161, 169, 177}

  /** rtw_get_offset_by_chbw: whether there is an offset, and the offset, which stays as it was if not. */
  function OffsetFor(ch: nat, bw: Width, offset: Offset): (r: (bool, Offset))
    ensures !r.0 ==> r.1 == offset
    ensures r.0 ==> (r.1 == DontCare <==> bw == W20)
  {
    if bw == W20 then (true, DontCare)
    else if bw >= W80 && ch <= 14 then (false, offset)
    else if 1 <= ch <= 4 then (true, Lower)
    else if 5 <= ch <= 9 then (true, if offset == DontCare then Upper else offset)
    else if 10 <= ch <= 13 then (true, Upper)
    else if ch in LOWER_CHANNELS then (true, Lower)
    else if ch in UPPER_CHANNELS then (true, Upper)
    else (false, offset)
  }

  /** rtw_is_chbw_grouped. */
  predicate Grouped(a: Chan, b: Chan) {
    a.ch == b.ch && (W40 <= a.bw <= W80 && W40 <= b.bw <= W80 ==> a.offset == b.offset)
  }

  /** A group of 40 MHz or more says where its secondary channel is. */
  predicate Carries(g: Chan) {
    g.bw != W20 ==> g.offset != DontCare
  }

  /** The request as rtw_sync_chbw leaves it; one of unsupported width only changes its channel. */
  function Synced(req: Chan, g: Chan): Chan {
    var bw := if req.bw == W80 && g.ch <= 14 then W40 else req.bw;
    if bw > W80 then Chan(g.ch, bw, req.offset)
    else
      var offset := if bw == W20 then DontCare
                    else if g.bw == W20 then OffsetFor(g.ch, bw, req.offset).1
                    else if g.bw <= W80 then g.offset
                    else req.offset;
      Chan(g.ch, if offset == DontCare then W20 else bw, offset)
  }

  /** The group as rtw_sync_chbw leaves it. */
  function Merged(req: Chan, g: Chan): Chan {
    var r := Synced(req, g);
    if r.bw > g.bw then Chan(g.ch, r.bw, r.offset) else g
  }

  /** rtw_sync_chbw. */
  method SyncChbw(req: Chan, g: Chan) returns (req': Chan, g': Chan)
    ensures req' == Synced(req, g) && g' == Merged(req, g)
    ensures Carries(g) && Usual(req) && Usual(g) ==>
              && req'.bw == (if req.bw == W20 || g.bw >= W40 || req.offset != DontCare || HasSecondary(g.ch)
                             then Possible(req.bw, g.ch) else W20)
              && req'.offset == (if req.bw == W20 then DontCare else if g.bw >= W40 then g.offset else Side(g.ch, req.offset))
              && g'.bw == if req'.bw > g.bw then req'.bw else g.bw
  {
    if Carries(g) && Usual(req) && Usual(g) {
      SyncedWidth(req, g);
    }
    hide HasSecondary, Side;
    req', g' := req.(ch := g.ch), g;
    if req'.bw == W80 && g'.ch <= 14 {
      req' := req'.(bw := W40);
    }
    if req'.bw == W80 || req'.bw == W40 {
      if g'.bw == W40 || g'.bw == W80 {
        req' := req'.(offset := g'.offset);
      } else if g'.bw == W20 {
        req' := req'.(offset := OffsetFor(req'.ch, req'.bw, req'.offset).1);
      }
      if req'.offset == DontCare {
        req' := req'.(bw := W20);
      }
    } else if req'.bw == W20 {
      req' := req'.(offset := DontCare);
    }
    if req'.bw > g'.bw {
      g' := g'.(bw := req'.bw, offset := req'.offset);
    }
  }

  // ---------------------------------------------------------------- folding requests

  /** The group after the first `n` requests. */
  function UnionOf(g: Chan, reqs: seq<Chan>, n: nat): Chan
    requires n <= |reqs|
  {
    if n == 0 then g else Merged(reqs[n - 1], UnionOf(g, reqs, n - 1))
  }

  /** Request `i` as it is synced when its turn comes. */
  function Request(g: Chan, reqs: seq<Chan>, i: nat): Chan
    requires i < |reqs|
  {
    Synced(reqs[i], UnionOf(g, reqs, i))
  }

  /** The loop over the interfaces in rtw_ap_chbw_decision, from the second one on. */
  method SyncAll(g: Chan, reqs: seq<Chan>) returns (u: Chan, synced: seq<Chan>)
    ensures u == UnionOf(g, reqs, |reqs|)
    ensures |synced| == |reqs| && forall i :: 0 <= i < |reqs| ==> synced[i] == Request(g, reqs, i)
  {
    u, synced := g, [];
    for i := 0 to |reqs|
      invariant u == UnionOf(g, reqs, i)
      invariant |synced| == i && forall j :: 0 <= j < i ==> synced[j] == Request(g, reqs, j)
    {
      var r;
      r, u := SyncChbw(reqs[i], u);
      synced := synced + [r];
    }
  }

  predicate AllUsual(reqs: seq<Chan>) {
    forall i :: 0 <= i < |reqs| ==> Usual(reqs[i])
  }

  /** One sync: the two end up grouped, and the group is as wide as the wider of them. */
  lemma SyncedOk(req: Chan, g: Chan)
    requires Carries(g) && Usual(req) && Usual(g)
    ensures var r, u := Synced(req, g), Merged(req, g);
            && Usual(r) && Usual(u) && Carries(u) && Grouped(r, u) && u.ch == g.ch && g.bw <= u.bw
            && u.bw == (if r.bw > g.bw then r.bw else g.bw)
            && (g.bw != W20 ==> u.offset == g.offset)
            && r.bw <= req.bw && (r.bw == W20 <==> r.offset == DontCare) && (r.bw == W80 ==> g.ch > 14)
  {
  }

  // ---------------------------------------------------------------- which width and offset come out

  /** The 5 GHz channels, four apart, that pair up into 40 MHz. */
  predicate Paired(ch: nat) {
    (ch % 4 == 0 && (36 <= ch <= 64 || 100 <= ch <= 144)) || (ch % 4 == 1 && 149 <= ch <= 177)
  }

  /** The channel number alone says that there is a secondary channel. */
  predicate HasSecondary(ch: nat) {
    1 <= ch <= 13 || Paired(ch)
  }

  /** The side of the secondary channel: every other pair member up, in the middle of 2.4 GHz as asked. */
  function Side(ch: nat, asked: Offset): Offset {
    if 1 <= ch <= 4 || (Paired(ch) && ch / 4 % 2 == 1) then Lower
    else if 10 <= ch <= 13 || (Paired(ch) && ch / 4 % 2 == 0) || (5 <= ch <= 9 && asked == DontCare) then Upper
    else asked
  }

  lemma PairedIs(ch: nat)
    ensures ch in LOWER_CHANNELS <==> Paired(ch) && ch / 4 % 2 == 1
    ensures ch in UPPER_CHANNELS <==> Paired(ch) && ch / 4 % 2 == 0
  {
  }

  lemma OffsetIs(ch: nat, bw: Width, asked: Offset)
    requires bw == W40 || (bw == W80 && ch > 14)
    ensures OffsetFor(ch, bw, asked) == (HasSecondary(ch), Side(ch, asked))
  {
    PairedIs(ch);
    hide LOWER_CHANNELS, UPPER_CHANNELS;
  }

  /** The width that is left of the one asked for: there is no 80 MHz up to channel 14. */
  function Possible(bw: Width, ch: nat): Width {
    if bw == W80 && ch <= 14 then W40 else bw
  }

  /**
    A request gets the possible width exactly if it asks for 20 MHz, the group is wider than that, it
    brings an offset, or the channel has a secondary one; else it gets 20 MHz.
  */
  lemma SyncedWidth(req: Chan, g: Chan)
    requires Carries(g) && Usual(req) && Usual(g)
    ensures Synced(req, g).bw ==
            if req.bw == W20 || g.bw >= W40 || req.offset != DontCare || HasSecondary(g.ch) then Possible(req.bw, g.ch) else W20
    ensures Synced(req, g).offset ==
            if req.bw == W20 then DontCare else if g.bw >= W40 then g.offset else Side(g.ch, req.offset)
  {
    hide OffsetFor, HasSecondary, Side;
    if req.bw != W20 {
      OffsetIs(g.ch, Possible(req.bw, g.ch), req.offset);
      SideKnown(g.ch, req.offset);
    }
  }

  lemma SideKnown(ch: nat, asked: Offset)
    ensures Side(ch, asked) == DontCare <==> asked == DontCare && !HasSecondary(ch)
  {
    PairedIs(ch);
  }

  /** Later unions only widen, and keep channel and offset. */
  lemma {:induction false} UnionGrows(g: Chan, reqs: seq<Chan>, i: nat, j: nat)
    requires Carries(g) && Usual(g) && AllUsual(reqs) && i <= j <= |reqs|
    ensures var a, b := UnionOf(g, reqs, i), UnionOf(g, reqs, j);
            && Usual(a) && Usual(b) && Carries(a) && Carries(b) && a.ch == b.ch && a.bw <= b.bw
            && (a.bw != W20 ==> a.offset == b.offset)
  {
    hide Merged;
    if i < j {
      UnionGrows(g, reqs, i, j - 1);
      SyncedOk(reqs[j - 1], UnionOf(g, reqs, j - 1));
    } else if i > 0 {
      UnionGrows(g, reqs, i - 1, i - 1);
      SyncedOk(reqs[i - 1], UnionOf(g, reqs, i - 1));
    }
  }

  /**
    Every request ends up grouped with the final union and no wider than it, and syncing it again
    changes neither.
  */
  lemma UnionCovers(g: Chan, reqs: seq<Chan>, i: nat)
    requires Carries(g) && Usual(g) && AllUsual(reqs) && i < |reqs|
    ensures var r, u := Request(g, reqs, i), UnionOf(g, reqs, |reqs|);
            && Carries(u) && Grouped(r, u) && r.bw <= u.bw && r.bw <= reqs[i].bw
            && Synced(r, u) == r && Merged(r, u) == u
  {
    hide UnionOf;
    var a, u := UnionOf(g, reqs, i), UnionOf(g, reqs, |reqs|);
    UnionGrows(g, reqs, 0, i);
    UnionGrows(g, reqs, i + 1, |reqs|);
    SyncedOk(reqs[i], a);
    UnionStep(g, reqs, i);
  }

  lemma UnionStep(g: Chan, reqs: seq<Chan>, i: nat)
    requires i < |reqs|
    ensures UnionOf(g, reqs, i + 1) == Merged(reqs[i], UnionOf(g, reqs, i))
  {
  }

  /** And it is no wider than it has to be: some request, or the group itself, has its width. */
  lemma {:induction false} UnionTight(g: Chan, reqs: seq<Chan>, n: nat)
    requires Carries(g) && Usual(g) && AllUsual(reqs) && n <= |reqs|
    ensures var u := UnionOf(g, reqs, n);
            u == g || exists i :: 0 <= i < n && Request(g, reqs, i) == u
  {
    if n > 0 {
      UnionTight(g, reqs, n - 1);
      UnionGrows(g, reqs, n - 1, n - 1);
      var a := UnionOf(g, reqs, n - 1);
      SyncedOk(reqs[n - 1], a);
      if UnionOf(g, reqs, n) != a {
        assert Request(g, reqs, n - 1) == UnionOf(g, reqs, n);
      }
    }
  }

  /** Request `i` asks for more than 20 MHz and does not need the others to say where. */
  predicate Opens(g: Chan, req: Chan) {
    req.bw >= W40 && (req.offset != DontCare || HasSecondary(g.ch))
  }

  /** The union is wider than 20 MHz exactly if the group was, or one of the requests opens it. */
  lemma {:induction false} UnionWide(g: Chan, reqs: seq<Chan>, n: nat)
    requires Carries(g) && Usual(g) && AllUsual(reqs) && n <= |reqs|
    ensures UnionOf(g, reqs, n).bw >= W40 <==> g.bw >= W40 || exists j :: 0 <= j < n && Opens(g, reqs[j])
  {
    if n > 0 {
      UnionWide(g, reqs, n - 1);
      UnionGrows(g, reqs, 0, n - 1);
      hide Synced, HasSecondary;
      SyncedWidth(reqs[n - 1], UnionOf(g, reqs, n - 1));
      SyncedOk(reqs[n - 1], UnionOf(g, reqs, n - 1));
    }
  }

  /** The width each request gets in the end, by the requests up to it. */
  lemma RequestWidth(g: Chan, reqs: seq<Chan>, i: nat)
    requires Carries(g) && Usual(g) && AllUsual(reqs) && i < |reqs|
    ensures Request(g, reqs, i).bw ==
            if g.bw >= W40 || exists j :: 0 <= j <= i && Opens(g, reqs[j]) then Possible(reqs[i].bw, g.ch) else W20
  {
    UnionWide(g, reqs, i);
    UnionGrows(g, reqs, 0, i);
    hide Synced, HasSecondary, UnionOf;
    SyncedWidth(reqs[i], UnionOf(g, reqs, i));
  }

  /** The union's width is the largest of these and the group's own. */
  lemma UnionWidth(g: Chan, reqs: seq<Chan>)
    requires Carries(g) && Usual(g) && AllUsual(reqs)
    ensures var u := UnionOf(g, reqs, |reqs|);
            && u.ch == g.ch && g.bw <= u.bw && (forall i :: 0 <= i < |reqs| ==> Request(g, reqs, i).bw <= u.bw)
            && (u.bw == g.bw || exists i :: 0 <= i < |reqs| && Request(g, reqs, i).bw == u.bw)
  {
    UnionTight(g, reqs, |reqs|);
    UnionGrows(g, reqs, 0, |reqs|);
    forall i | 0 <= i < |reqs| ensures Request(g, reqs, i).bw <= UnionOf(g, reqs, |reqs|).bw {
      UnionCovers(g, reqs, i);
    }
    hide Synced, UnionOf;
  }

  /** Its offset is the group's if it had one, else that of the first request which opens it. */
  lemma UnionOffset(g: Chan, reqs: seq<Chan>, i: nat)
    requires Carries(g) && Usual(g) && AllUsual(reqs) && i < |reqs|
    requires g.bw == W20 && Opens(g, reqs[i]) && forall j :: 0 <= j < i ==> !Opens(g, reqs[j])
    ensures UnionOf(g, reqs, |reqs|).offset == Side(g.ch, reqs[i].offset)
  {
    var a := UnionOf(g, reqs, i);
    UnionWide(g, reqs, i);
    UnionGrows(g, reqs, 0, i);
    UnionGrows(g, reqs, i + 1, |reqs|);
    SyncedWidth(reqs[i], a);
    SyncedOk(reqs[i], a);
    hide Synced, HasSecondary, UnionOf, Side;
    UnionStep(g, reqs, i);
  }
}
