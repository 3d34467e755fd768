/**
  The two loops of expire_timeout_chk over the association list: the scan that collects the
  stations to be checked and the check that removes them. Together they are one round for every
  station, whatever the others do.
*/
module ExpiryLoops {
  import opened Expiry

  predicate Distinct(ids: seq<nat>) {
    forall i, j :: 0 <= i < j < |ids| ==> ids[i] != ids[j]
  }

  /** The listed stations that stay. */
  function Staying(ids: seq<nat>, gone: set<nat>): (r: seq<nat>)
    ensures forall id :: id in r <==> id in ids && id !in gone
  {
    if ids == [] then [] else (if ids[0] in gone then [] else [ids[0]]) + Staying(ids[1..], gone)
  }

  class StaPriv {
    var sta: map<nat, Sta>
    var asocList: seq<nat>
    var asocListCnt: int

    ghost predicate Valid()
      reads this
    {
      && asocListCnt == |asocList| && Distinct(asocList)
      && forall id :: id in asocList ==> id in sta && sta[id].assoc
    }

    /** rtw_ap_expire_asoc_list_scan. */
    method AsocListScan(cfg: Config) returns (chk: seq<nat>)
      requires Valid()
      modifies this`sta
      ensures sta.Keys == old(sta.Keys) && Distinct(chk)
      ensures forall id :: id in sta ==> sta[id] == if id in asocList then Scanned(old(sta)[id], cfg) else old(sta)[id]
      ensures forall id :: id in chk <==> id in asocList && Due(old(sta)[id], cfg)
    {
      hide Scanned, Due;
      ghost var was := sta;
      chk := [];
      for i := 0 to |asocList|
        invariant sta.Keys == was.Keys && Distinct(chk)
        invariant forall id :: id in sta ==> sta[id] == if id in asocList[..i] then Scanned(was[id], cfg) else was[id]
        invariant forall id :: id in chk <==> id in asocList[..i] && Due(was[id], cfg)
      {
        var id := asocList[i];
        NotYet(asocList, i);
        var s, due := ScanOne(sta[id], cfg);
        sta := sta[id := s];
        if due {
          chk := chk + [id];
        }
      }
      assert asocList[..|asocList|] == asocList;
    }

    /** The body of the scan. */
    static method ScanOne(sta: Sta, cfg: Config) returns (s: Sta, due: bool)
      ensures s == Scanned(sta, cfg) && due == Due(sta, cfg)
    {
      s, due := sta, false;
      var alive := s.lastRx != s.rx;
      s := s.(lastRx := s.rx);
      if alive || s.expireTo == 0 {
        s := s.(expireTo := cfg.full, tries := 0);
      } else {
        s := s.(expireTo := s.expireTo - 1);
      }
      if s.expireTo == 0 {
        if cfg.wifiSpec {
          s := s.(expireTo := cfg.full);
          return;
        }
        if s.sleeping {
          if !s.aliveChk {
            s := s.(expireTo := cfg.full, aliveChk := true);
            if !cfg.active {
              return;
            }
          }
        }
        due := true;
      }
    }

    /** Takes a station off the association list. */
    method Unlink(id: nat)
      requires Distinct(asocList)
      modifies this`asocList, this`asocListCnt
      ensures asocList == Staying(old(asocList), {id}) && Distinct(asocList)
      ensures asocListCnt - |asocList| == old(asocListCnt - |asocList|)
    {
      hide Staying;
      if k :| 0 <= k < |asocList| && asocList[k] == id {
        CutOne(asocList, k);
        asocList := asocList[..k] + asocList[k + 1..];
        asocListCnt := asocListCnt - 1;
      } else {
        NoneCut(asocList, {id});
      }
    }

    /** rtw_ap_expire_chk_alive_process: the check loop, then the loop that frees what it unlinked. */
    method ChkAlive(chk: seq<nat>, acked: set<nat>, cfg: Config) returns (ghost gone: set<nat>)
      requires Valid() && Distinct(chk) && forall id :: id in chk ==> id in asocList
      modifies this
      ensures Valid() && asocList == Staying(old(asocList), gone)
      ensures forall id :: id in gone <==> id in chk && Checked(old(sta)[id], id in acked, cfg).Gone?
      ensures sta.Keys == old(sta.Keys) - gone
      ensures forall id :: id in sta ==> sta[id] == if id in chk then Checked(old(sta)[id], id in acked, cfg).sta else old(sta)[id]
    {
      hide Checked;
      var del;
      del, gone := CheckLoop(chk, acked, cfg);
      FreeAll(del, gone);
    }

    method FreeAll(del: seq<nat>, ghost gone: set<nat>)
      requires forall id :: id in del <==> id in gone
      modifies this`sta
      ensures sta == old(sta) - gone
    {
      ghost var was, freed := sta, {};
      for i := 0 to |del|
        invariant sta == was - freed && forall id :: id in freed <==> id in del[..i]
      {
        freed := freed + {del[i]};
        sta := sta - {del[i]};
        assert del[..i + 1] == del[..i] + [del[i]];
      }
      assert del[..|del|] == del;
      assert freed == gone;
    }

    /** The stations that failed their last probe leave the list; the others are updated. */
    method CheckLoop(chk: seq<nat>, acked: set<nat>, cfg: Config) returns (del: seq<nat>, ghost gone: set<nat>)
      requires Valid() && Distinct(chk) && forall id :: id in chk ==> id in asocList
      modifies this
      ensures asocListCnt == |asocList| && Distinct(asocList) && sta.Keys == old(sta.Keys)
      ensures forall id :: id in gone <==> id in chk && Checked(old(sta)[id], id in acked, cfg).Gone?
      ensures asocList == Staying(old(asocList), gone) && forall id :: id in del <==> id in gone
      ensures forall id :: id in sta && id !in gone ==>
                && sta[id].assoc == old(sta)[id].assoc
                && sta[id] == if id in chk then Checked(old(sta)[id], id in acked, cfg).sta else old(sta)[id]
    {
      hide Checked, Staying, Distinct;
      ghost var was, list := sta, asocList;
      del, gone := [], {};
      NoneCut(asocList, {});
      for i := 0 to |chk|
        invariant asocListCnt == |asocList| && Distinct(asocList) && sta.Keys == was.Keys
        invariant forall id :: id in gone <==> id in chk[..i] && Checked(was[id], id in acked, cfg).Gone?
        invariant forall id :: id in del <==> id in gone
        invariant asocList == Staying(list, gone)
        invariant forall id :: id in sta && id !in gone ==>
                    && sta[id].assoc == was[id].assoc
                    && sta[id] == if id in chk[..i] then Checked(was[id], id in acked, cfg).sta else was[id]
      {
        var id := chk[i];
        NotYet(chk, i);
        var s, keep := CheckOne(sta[id], id in acked, cfg);
        sta := sta[id := s];
        if !keep {
          CutMore(list, gone, id);
          Unlink(id);
          del, gone := del + [id], gone + {id};
        }
      }
      assert chk[..|chk|] == chk;
    }

    static lemma NotYet(ids: seq<nat>, i: nat)
      requires Distinct(ids) && i < |ids|
      ensures ids[i] !in ids[..i] && forall x :: x in ids[..i + 1] <==> x in ids[..i] || x == ids[i]
    {
    }

    static method CheckOne(sta: Sta, acked: bool, cfg: Config) returns (s: Sta, keep: bool)
      ensures keep == Checked(sta, acked, cfg).Kept? && (keep ==> s == Checked(sta, acked, cfg).sta && s.assoc == sta.assoc)
    {
      s := sta;
      if !s.assoc {
        return s, true;
      }
      if cfg.active {
        s := s.(tries := s.tries + 1);
        if acked {
          return s.(expireTo := cfg.full, tries := 0), true;
        } else if s.tries <= 3 {
          return s.(expireTo := 1), true;
        }
      }
      return s.(tries := 0), false;
    }

    /**
      The association part of expire_timeout_chk: every listed station has its round, the list keeps
      its order and loses exactly the stations whose round says so, the count stays its length, and
      no other station is touched.
    */
    method Expire(acked: set<nat>, cfg: Config)
      requires Valid()
      modifies this
      ensures Valid() && asocListCnt == |asocList|
      ensures exists gone: set<nat> :: asocList == Staying(old(asocList), gone)
      ensures forall id :: id in old(asocList) ==>
                var r := Round(old(sta)[id], id in acked, cfg);
                if r.Gone? then id !in asocList && id !in sta else id in asocList && id in sta && sta[id] == r.sta
      ensures forall id :: id in old(sta) && id !in old(asocList) ==> id in sta && sta[id] == old(sta)[id]
      ensures sta.Keys <= old(sta.Keys)
    {
      hide Scanned, Due, Checked, Staying;
      ghost var was, list := sta, asocList;
      var chk := AsocListScan(cfg);
      forall id | id in asocList ensures sta[id].assoc {
        StaysAssoc(was[id], cfg);
      }
      ghost var gone := ChkAlive(chk, acked, cfg);
    }
  }

  lemma StaysAssoc(s: Sta, cfg: Config)
    ensures Scanned(s, cfg).assoc == s.assoc
  {
  }

  lemma {:induction false} NoneCut(ids: seq<nat>, gone: set<nat>)
    requires forall i :: 0 <= i < |ids| ==> ids[i] !in gone
    ensures Staying(ids, gone) == ids
  {
    if ids != [] {
      NoneCut(ids[1..], gone);
    }
  }

  lemma {:induction false} CutOne(ids: seq<nat>, k: nat)
    requires Distinct(ids) && k < |ids|
    ensures Staying(ids, {ids[k]}) == ids[..k] + ids[k + 1..]
    ensures Distinct(ids[..k] + ids[k + 1..])
  {
    hide Staying;
    var x, t := ids[0], ids[1..];
    assert ids == [x] + t;
    StayingCons(x, t, {ids[k]});
    if k == 0 {
      NoneCut(t, {x});
      assert ids[..0] + t == t == [] + t;
    } else {
      CutOne(t, k - 1);
      assert ids[..k] + ids[k + 1..] == [x] + (t[..k - 1] + t[k..]);
    }
  }

  lemma {:induction false} CutMore(ids: seq<nat>, gone: set<nat>, id: nat)
    ensures Staying(Staying(ids, gone), {id}) == Staying(ids, gone + {id})
  {
    if ids != [] {
      CutMore(ids[1..], gone, id);
      CutMoreHead(ids[0], ids[1..], gone, id);
      assert ids == [ids[0]] + ids[1..];
    }
  }

  lemma CutMoreHead(x: nat, ids: seq<nat>, gone: set<nat>, id: nat)
    requires Staying(Staying(ids, gone), {id}) == Staying(ids, gone + {id})
    ensures Staying(Staying([x] + ids, gone), {id}) == Staying([x] + ids, gone + {id})
  {
    hide Staying;
    var t := Staying(ids, gone);
    StayingCons(x, ids, gone);
    StayingCons(x, ids, gone + {id});
    if x in gone {
      assert [] + t == t;
    } else {
      StayingCons(x, t, {id});
    }
  }

  lemma StayingCons(x: nat, ids: seq<nat>, gone: set<nat>)
    ensures Staying([x] + ids, gone) == (if x in gone then [] else [x]) + Staying(ids, gone)
  {
  }
}
