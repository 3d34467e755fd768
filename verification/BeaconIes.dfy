/** The beacon's element buffer and the routines that edit it in place, proved against the lists. */
module BeaconIes {
  import opened SkbBuffer
  import opened Elements
  import Tim

  lemma TwoWrites(b: seq<Byte>, len: nat, at: nat, gone: nat, bytes: seq<Byte>, c: seq<Byte>, d: seq<Byte>)
    requires at + gone <= len <= |b| && len - gone + |bytes| <= |b|
    requires c == Patch(b, at, bytes) && |c| == |b| && d == Patch(c, at + |bytes|, b[at + gone..len])
    ensures |d| == |b| && d[..len - gone + |bytes|] == b[..at] + bytes + b[at + gone..len]
  {
  }

  /** The size of the element buffer of a BSS description. */
  const MAX_IE_SZ: nat := 768

  class Bss {
    const ies: array<Byte>
    var ieLength: nat

    ghost predicate Valid()
      reads this
    {
      ieLength <= ies.Length
    }

    ghost function Content(): (c: seq<Byte>)
      requires Valid()
      reads this, ies
      ensures |c| == ieLength
    {
      ies[..ieLength]
    }

    /** The buffer holds the fixed fields `head` and then this list. */
    ghost predicate Holds(head: seq<Byte>, es: seq<Element>)
      reads this, ies
    {
      Valid() && AllSmall(es) && Content() == head + Encode(es)
    }

    constructor (buf: array<Byte>, len: nat)
      requires len <= buf.Length
      ensures ies == buf && ieLength == len
    {
      ies, ieLength := buf, len;
    }

    /**
      What the editing routines have in common: back up the bytes behind the `gone` ones at `at`,
      write `bytes` there, put the backup behind them and correct IELength.
    */
    method Splice(at: nat, gone: nat, bytes: seq<Byte>)
      requires Valid() && at + gone <= ieLength && ieLength - gone + |bytes| <= ies.Length
      modifies this`ieLength, ies
      ensures Valid() && Content() == old(Content()[..at]) + bytes + old(Content()[at + gone..])
    {
      hide Patch;
      ghost var b, len := ies[..], ieLength;
      var remainder := ies[at + gone..ieLength];
      PutBytes(ies, at, bytes);
      ghost var c := ies[..];
      PutBytes(ies, at + |bytes|, remainder);
      TwoWrites(b, len, at, gone, bytes, c, ies[..]);
      ieLength := ieLength - gone + |bytes|;
      Spliced3(b, ies[..], len, at, gone, bytes);
      assert ies[..ieLength] == ies[..][..ieLength] && old(ies[..ieLength]) == b[..len];
    }

    /** The result in terms of the content before. */
    static lemma Spliced3(b: seq<Byte>, d: seq<Byte>, len: nat, at: nat, gone: nat, bytes: seq<Byte>)
      requires at + gone <= len <= |b| == |d| && len - gone + |bytes| <= |b|
      requires d[..len - gone + |bytes|] == b[..at] + bytes + b[at + gone..len]
      ensures d[..len - gone + |bytes|] == b[..len][..at] + bytes + b[..len][at + gone..]
    {
      assert b[..len][..at] == b[..at] && b[..len][at + gone..] == b[at + gone..len];
    }

    /** The header bytes of element `k`. */
    lemma At(head: seq<Byte>, es: seq<Element>, k: nat)
      requires Holds(head, es) && k < |es|
      ensures var p := |head| + Pos(es, k);
              && p + 2 + |es[k].data| == |head| + Pos(es, k + 1) <= ieLength <= ies.Length
              && ies[p] == es[k].id && ies[p + 1] == |es[k].data|
    {
      hide Encode;
      Layout(es, k);
      var p := |head| + Pos(es, k);
      assert Content()[p] == Encode(es)[p - |head|] && Content()[p + 1] == Encode(es)[p + 1 - |head|];
    }

    /** rtw_get_ie on the list behind the fixed fields; -1 stands for NULL. */
    method GetIe(id: Byte, head: nat, ghost hd: seq<Byte>, ghost es: seq<Element>) returns (p: int, len: nat)
      requires Holds(hd, es) && |hd| == head
      ensures var k := First(es, id);
              if k < |es| then p == head + Pos(es, k) && len == |es[k].data| else p == -1
    {
      hide Encode, Holds, First, AllSmall;
      AllSmallOf(hd, es);
      var i, limit := 0, ieLength - head;
      ghost var k := 0;
      PosEnds(es);
      len := 0;
      while i < limit
        invariant k <= |es| && i == Pos(es, k)
        invariant forall j :: 0 <= j < k ==> es[j].id != id
        decreases |es| - k
      {
        if k == |es| {
          assert false;
        }
        At(hd, es, k);
        if ies[head + i] == id {
          FirstIs(es, id, k);
          return head + i, ies[head + i + 1];
        }
        i := i + ies[head + i + 1] + 2;
        k := k + 1;
      }
      if k < |es| {
        PosMonotone(es, k, |es|);
        assert false;
      }
      FirstIs(es, id, k);
      return -1, 0;
    }

    lemma AllSmallOf(hd: seq<Byte>, es: seq<Element>)
      requires Holds(hd, es)
      ensures Valid() && AllSmall(es) && ieLength == |hd| + |Encode(es)|
    {
    }

    /** A splice at element boundaries. */
    method SpliceElements(at: nat, gone: nat, bytes: seq<Byte>, ghost hd: seq<Byte>, ghost es: seq<Element>,
                          ghost i: nat, ghost j: nat, ghost mid: seq<Element>)
      requires Holds(hd, es) && i <= j <= |es| && AllSmall(mid) && bytes == Encode(mid)
      requires at == |hd| + Pos(es, i) && at + gone == |hd| + Pos(es, j)
      requires ieLength - gone + |bytes| <= ies.Length && at + gone <= ieLength
      modifies this`ieLength, ies
      ensures Holds(hd, es[..i] + mid + es[j..])
    {
      hide Encode;
      Spliced(hd, es, i, j, mid);
      Splice(at, gone, bytes);
    }

    /** rtw_remove_bcn_ie. */
    method RemoveIe(id: Byte, ghost hd: seq<Byte>, ghost es: seq<Element>)
      requires Holds(hd, es) && |hd| == 12
      modifies this`ieLength, ies
      ensures Holds(hd, Remove(es, id))
    {
      hide Encode, First, Holds;
      AllSmallOf(hd, es);
      var p, len := GetIe(id, 12, hd, es);
      if p >= 0 && len > 0 {
        ghost var k := First(es, id);
        At(hd, es, k);
        assert Encode([]) == [] by { EmptyList(); }
        SpliceElements(p, len + 2, [], hd, es, k, k + 1, []);
        assert es[..k] + [] + es[k + 1..] == Remove(es, id);
      }
    }

    static lemma EmptyList()
      ensures Encode([]) == []
    {
    }

    /** The scan of rtw_add_bcn_ie: the last element it looked at, and whether that one is replaced. */
    method FindSlot(id: Byte, ghost hd: seq<Byte>, ghost es: seq<Element>) returns (p: int, len: nat, matched: bool)
      requires Holds(hd, es) && |hd| == 12
      ensures matched <==> Matches(es, id)
      ensures var k := Slot(es, id);
              if matched then p == 12 + Pos(es, k) && len == |es[k].data|
              else if k == 0 then p == -1 else p == 12 + Pos(es, k - 1) && len == |es[k - 1].data|
    {
      hide Encode, Holds, Slot, AllSmall;
      AllSmallOf(hd, es);
      p, len, matched := -1, 0, false;
      var i := 12;
      ghost var k := 0;
      PosEnds(es);
      while i < ieLength
        invariant k <= |es| && i == 12 + Pos(es, k)
        invariant forall j :: 0 <= j < k ==> es[j].id < id
        invariant if k == 0 then p == -1 else p == 12 + Pos(es, k - 1) && len == |es[k - 1].data|
        decreases |es| - k
      {
        if k == |es| {
          assert false;
        }
        At(hd, es, k);
        if ies[i] > id {
          SlotIs(es, id, k);
          return;
        }
        p, len := i, ies[i + 1];
        if ies[i] == id {
          SlotIs(es, id, k);
          return p, len, true;
        }
        i := i + len + 2;
        k := k + 1;
      }
      if k < |es| {
        PosMonotone(es, k, |es|);
        assert false;
      }
      SlotIs(es, id, k);
    }

    /** rtw_add_bcn_ie. Nothing is checked: without room for the result it writes behind the buffer. */
    method AddIe(id: Byte, data: seq<Byte>, ghost hd: seq<Byte>, ghost es: seq<Element>) returns (fits: bool)
      requires Holds(hd, es) && |hd| == 12 && |data| < 256
      modifies this`ieLength, ies
      ensures AllSmall(Add(es, Element(id, data)))
      ensures fits <==> 12 + |Encode(Add(es, Element(id, data)))| <= ies.Length
      ensures fits ==> Holds(hd, Add(es, Element(id, data)))
    {
      hide Encode, Slot, Holds, EncodeOne, AllSmall;
      AllSmallOf(hd, es);
      ghost var k := Slot(es, id);
      ghost var e := Element(id, data);
      var p, len, matched := FindSlot(id, hd, es);
      EncodeSingle(e);
      var bytes := [id, |data|] + data;
      assert bytes == EncodeOne(e) by { OneIs(e); }
      if p < 0 || len == 0 {
        return true;
      }
      if matched {
        At(hd, es, k);
        Spliced(hd, es, k, k + 1, [e]);
        assert es[..k] + [e] + es[k + 1..] == Add(es, e);
        fits := ieLength - (len + 2) + |bytes| <= ies.Length;
        if fits {
          SpliceElements(p, len + 2, bytes, hd, es, k, k + 1, [e]);
        }
      } else {
        At(hd, es, k - 1);
        Spliced(hd, es, k, k, [e]);
        fits := ieLength + |bytes| <= ies.Length;
        if fits {
          SpliceElements(p + len + 2, 0, bytes, hd, es, k, k, [e]);
        }
      }
    }

    static lemma OneIs(e: Element)
      requires Small(e)
      ensures EncodeOne(e) == [e.id, |e.data|] + e.data
    {
    }

    /** What update_BCNTIM needs in the buffer for a TIM of `n` bytes. */
    static function TimNeeds(es: seq<Element>, ieLength: nat, n: nat): int {
      if HasTim(es) then ieLength - SizeOf(es, TIM) + n
      else (if 12 + TimOffset(es) <= ieLength then ieLength else 12 + TimOffset(es)) + n
    }

    /**
      update_BCNTIM: an existing TIM is replaced; without one the new TIM goes in at the computed
      offset, between two elements wherever that offset is a boundary. If the offset is behind the
      end, the TIM follows what is in the buffer there and loses as many bytes at its end. Nothing is
      checked: without room for the result it writes behind the buffer.
    */
    method UpdateTim(bmp: seq<Byte>, ghost hd: seq<Byte>, ghost es: seq<Element>) returns (fits: bool)
      requires Holds(hd, es) && |hd| == 12 && 1 <= |bmp| <= 251 && ies.Length <= MAX_IE_SZ
      modifies this`ieLength, ies
      ensures Tim.MapFor(bmp).offset % 2 == 0 && Tim.MapFor(bmp).offset < 256
      ensures var tim := Element(TIM, Tim.TimData(0, 1, Tim.MapFor(bmp)));
              var off, n := 12 + TimOffset(es), 2 + |tim.data|;
              && Small(tim) && off <= old(ieLength) + 3
              && (fits <==> TimNeeds(es, old(ieLength), n) <= ies.Length)
              && (fits && HasTim(es) ==> Holds(hd, es[First(es, TIM) := tim]))
              && (fits && !HasTim(es) ==> Valid() && ieLength == old(ieLength) + n)
              && (fits && !HasTim(es) && off <= old(ieLength) ==>
                    && Content() == old(Content()[..off]) + EncodeOne(tim) + old(Content()[off..])
                    && forall k: nat :: k <= |es| && TimOffset(es) == Pos(es, k) ==> Holds(hd, es[..k] + [tim] + es[k..]))
              && (fits && !HasTim(es) && off > old(ieLength) ==>
                    Content() == old(Content()) + old(ies[ieLength..off]) + EncodeOne(tim)[..n - (off - old(ieLength))])
    {
      hide Encode, First, Holds, EncodeOne, AllSmall, Pos, TimOffset;
      AllSmallOf(hd, es);
      OffsetBound(es);
      var ie := Tim.SetTimIe(0, 1, bmp);
      ghost var tim := Element(TIM, Tim.TimData(0, 1, Tim.MapFor(bmp)));
      var p, len := GetIe(TIM, 12, hd, es);
      if p >= 0 && len > 0 {
        fits := ReplaceTim(p, len, ie, hd, es, tim);
      } else {
        fits := PlaceTim(ie, hd, es, tim);
      }
    }

    method ReplaceTim(p: nat, len: nat, ie: seq<Byte>, ghost hd: seq<Byte>, ghost es: seq<Element>, ghost tim: Element)
      returns (fits: bool)
      requires Holds(hd, es) && |hd| == 12 && Small(tim) && ie == EncodeOne(tim) && HasTim(es)
      requires p == 12 + Pos(es, First(es, TIM)) && len == |es[First(es, TIM)].data|
      modifies this`ieLength, ies
      ensures fits <==> old(ieLength) - SizeOf(es, TIM) + |ie| <= ies.Length
      ensures fits ==> Holds(hd, es[First(es, TIM) := tim])
    {
      hide Encode, First, Holds, EncodeOne, AllSmall, Pos;
      AllSmallOf(hd, es);
      EncodeSingle(tim);
      ghost var f := First(es, TIM);
      At(hd, es, f);
      fits := ieLength - (len + 2) + |ie| <= ies.Length;
      if fits {
        SpliceElements(p, len + 2, ie, hd, es, f, f + 1, [tim]);
        assert es[..f] + [tim] + es[f + 1..] == es[f := tim];
      }
    }

    /** There is no TIM: the offset is computed from the first SSID and rates elements. */
    method PlaceTim(ie: seq<Byte>, ghost hd: seq<Byte>, ghost es: seq<Element>, ghost tim: Element) returns (fits: bool)
      requires Holds(hd, es) && |hd| == 12 && Small(tim) && ie == EncodeOne(tim) && |ie| >= 3 && ies.Length <= MAX_IE_SZ
      modifies this`ieLength, ies
      ensures var off := 12 + TimOffset(es);
              && (fits <==> (if off <= old(ieLength) then old(ieLength) else off) + |ie| <= ies.Length)
              && (fits ==> Valid() && ieLength == old(ieLength) + |ie|)
              && (fits && off <= old(ieLength) ==>
                    && Content() == old(Content()[..off]) + ie + old(Content()[off..])
                    && forall k: nat :: k <= |es| && TimOffset(es) == Pos(es, k) ==> Holds(hd, es[..k] + [tim] + es[k..]))
              && (fits && off > old(ieLength) ==>
                    && off <= old(ieLength) + |ie|
                    && Content() == old(Content()) + old(ies[ieLength..off]) + ie[..|ie| - (off - old(ieLength))])
    {
      hide Encode, First, Holds, EncodeOne, AllSmall, Pos;
      AllSmallOf(hd, es);
      OffsetBound(es);
      var offset := 12;
      var p, len := GetIe(SSID, 12, hd, es);
      if p >= 0 {
        offset := offset + len + 2;
      }
      p, len := GetIe(RATES, 12, hd, es);
      if p >= 0 {
        offset := offset + len + 2;
      }
      offset := offset + 3;
      if offset <= ieLength {
        fits := ieLength + |ie| <= ies.Length;
        if fits {
          InsertAt(offset, ie, hd, es, tim);
        }
      } else {
        fits := offset + |ie| <= ies.Length;
        if fits {
          InsertBehind(offset, ie);
        }
      }
    }

    /** The offset is a boundary or inside the list. */
    method InsertAt(offset: nat, ie: seq<Byte>, ghost hd: seq<Byte>, ghost es: seq<Element>, ghost tim: Element)
      requires Holds(hd, es) && |hd| == 12 && Small(tim) && ie == EncodeOne(tim)
      requires 12 <= offset <= ieLength && ieLength + |ie| <= ies.Length
      modifies this`ieLength, ies
      ensures Valid() && Content() == old(Content()[..offset]) + ie + old(Content()[offset..])
      ensures forall k: nat :: k <= |es| && offset == 12 + Pos(es, k) ==> Holds(hd, es[..k] + [tim] + es[k..])
    {
      hide Encode, EncodeOne, Pos;
      ghost var c := Content();
      Splice(offset, 0, ie);
      EncodeSingle(tim);
      forall k: nat | k <= |es| && offset == 12 + Pos(es, k) ensures Holds(hd, es[..k] + [tim] + es[k..]) {
        Spliced(hd, es, k, k, [tim]);
      }
    }

    /**
      The offset is behind the end: the length of the rest wraps to almost 2^32, so that no copy of
      it can be allocated, and wraps back when it is added to the new length.
    */
    method InsertBehind(offset: nat, ie: seq<Byte>)
      requires Valid() && ieLength < offset <= ieLength + |ie| && offset + |ie| <= ies.Length <= MAX_IE_SZ
      modifies this`ieLength, ies
      ensures Valid() && ieLength == old(ieLength) + |ie|
      ensures Content() == old(Content()) + old(ies[ieLength..offset]) + ie[..|ie| - (offset - old(ieLength))]
    {
      ghost var b := ies[..];
      var remainder := (ieLength - offset) % 0x1_0000_0000;
      PutBytes(ies, offset, ie);
      ieLength := (offset + |ie| + remainder) % 0x1_0000_0000;
      Behind(b, ies[..], old(ieLength), offset, ie);
      assert ies[..ieLength] == ies[..][..ieLength] && old(ies[..ieLength]) == b[..old(ieLength)];
    }

    static lemma Behind(b: seq<Byte>, c: seq<Byte>, len: nat, offset: nat, ie: seq<Byte>)
      requires len < offset <= len + |ie| && offset + |ie| <= |b| && c == Patch(b, offset, ie)
      ensures c[..len + |ie|] == b[..len] + b[len..offset] + ie[..|ie| - (offset - len)]
    {
    }

    /** The computed offset is at most three bytes behind the end of the list. */
    static lemma OffsetBound(es: seq<Element>)
      requires AllSmall(es)
      ensures TimOffset(es) <= |Encode(es)| + 3
    {
      hide Encode, First, Pos, EncodeOne;
      var i, j := First(es, SSID), First(es, RATES);
      PosEnds(es);
      if i < |es| {
        Around(es, i);
        PosMonotone(es, i + 1, |es|);
        PosMonotone(es, 0, i);
      }
      if j < |es| {
        Around(es, j);
        PosMonotone(es, j + 1, |es|);
        PosMonotone(es, 0, j);
      }
      if i < j < |es| {
        PosMonotone(es, i + 1, j);
      } else if j < i < |es| {
        PosMonotone(es, j + 1, i);
      }
    }
  }
}
