/**
  The traffic indication map of the beacon: the partial virtual bitmap written by rtw_set_tim_ie
  and how a station reads it (section 9.4.2.5 of IEEE 802.11-2020).
*/
module Tim {
  import opened SkbBuffer
  import opened Elements

  // ---------------------------------------------------------------- bitmaps

  predicate BitOf(b: nat, k: nat) {
    if k == 0 then b % 2 == 1 else BitOf(b / 2, k - 1)
  }

  /** rtw_bmp_is_set. */
  predicate IsSet(bmp: seq<Byte>, aid: nat) {
    aid / 8 < |bmp| && BitOf(bmp[aid / 8], aid % 8)
  }

  lemma {:induction false} ZeroBits(k: nat)
    ensures !BitOf(0, k) && (k > 0 ==> !BitOf(1, k))
  {
    if k > 0 {
      ZeroBits(k - 1);
    }
  }

  /** A non-zero number has a set bit. */
  lemma {:induction false} SomeBit(b: nat, width: nat) returns (k: nat)
    requires 0 < b && (width == 0 ==> b < 1) && Fits(b, width)
    ensures k < width && BitOf(b, k)
  {
    if b % 2 == 1 {
      k := 0;
    } else {
      k := SomeBit(b / 2, width - 1);
      k := k + 1;
    }
  }

  predicate Fits(b: nat, width: nat) {
    if width == 0 then b == 0 else Fits(b / 2, width - 1)
  }

  lemma ByteFits(b: Byte)
    ensures Fits(b, 8) && Fits(b / 2, 7)
  {
    assert b / 2 / 2 / 2 / 2 / 2 / 2 / 2 / 2 == 0;
    assert Fits(b / 2 / 2 / 2 / 2 / 2 / 2 / 2 / 2, 0);
    assert Fits(b / 2 / 2 / 2 / 2 / 2 / 2 / 2, 1);
    assert Fits(b / 2 / 2 / 2 / 2 / 2 / 2, 2);
    assert Fits(b / 2 / 2 / 2 / 2 / 2, 3);
    assert Fits(b / 2 / 2 / 2 / 2, 4);
    assert Fits(b / 2 / 2 / 2, 5);
    assert Fits(b / 2 / 2, 6);
    assert Fits(b / 2, 7);
  }

  // ---------------------------------------------------------------- the element

  /** Group traffic flag, number of the first octet, and the octets. */
  datatype Map = Map(group: bool, offset: nat, bits: seq<Byte>)

  /** What the receiver makes of the element's data: bit 0 of the control octet, its upper bits, the rest. */
  function Decode(data: seq<Byte>): Map
    requires |data| >= 4
  {
    Map(data[2] % 2 == 1, data[2] / 2 * 2, data[3..])
  }

  function Octet(t: Map, i: nat): nat {
    if t.offset <= i < t.offset + |t.bits| then t.bits[i - t.offset] else 0
  }

  /** Whether traffic is announced for this association id; id 0 stands for group traffic. */
  predicate Announces(t: Map, aid: nat) {
    if aid == 0 then t.group else BitOf(Octet(t, aid / 8), aid % 8)
  }

  ghost predicate Means(t: Map, bmp: seq<Byte>) {
    t.offset % 2 == 0 && |t.bits| >= 1 && forall aid: nat :: Announces(t, aid) == IsSet(bmp, aid)
  }

  // ---------------------------------------------------------------- the encoder

  predicate Empty(bmp: seq<Byte>) {
    forall i :: 0 <= i < |bmp| ==> bmp[i] == 0
  }

  /** The first octet from `i` on that is not zero, or the number of octets. */
  function FirstFrom(bmp: seq<Byte>, i: nat): (r: nat)
    requires i <= |bmp|
    ensures i <= r <= |bmp| && (r < |bmp| ==> bmp[r] != 0) && forall j :: i <= j < r ==> bmp[j] == 0
    decreases |bmp| - i
  {
    if i == |bmp| || bmp[i] != 0 then i else FirstFrom(bmp, i + 1)
  }

  /** The last octet up to `i` that is not zero, or octet 0. */
  function LastUpTo(bmp: seq<Byte>, i: nat): (r: nat)
    requires i < |bmp|
    ensures r <= i && (r > 0 ==> bmp[r] != 0) && forall j :: r < j <= i ==> bmp[j] == 0
  {
    if i == 0 || bmp[i] != 0 then i else LastUpTo(bmp, i - 1)
  }

  function MapFor(bmp: seq<Byte>): Map
    requires |bmp| >= 1
  {
    if Empty(bmp) then Map(IsSet(bmp, 0), 0, bmp[..1])
    else
      var n1 := FirstFrom(bmp, 0) / 2 * 2;
      Map(IsSet(bmp, 0), n1, bmp[n1..LastUpTo(bmp, |bmp| - 1) + 1])
  }

  lemma FirstBeforeLast(bmp: seq<Byte>)
    requires !Empty(bmp)
    ensures FirstFrom(bmp, 0) < |bmp| && FirstFrom(bmp, 0) / 2 * 2 <= FirstFrom(bmp, 0) <= LastUpTo(bmp, |bmp| - 1)
  {
  }

  function TimData(dtimCount: Byte, dtimPeriod: Byte, t: Map): seq<Byte>
    requires t.offset % 2 == 0 && t.offset < 256
  {
    [dtimCount, dtimPeriod, t.offset + if t.group then 1 else 0] + t.bits
  }

  method NotEmpty(bmp: seq<Byte>) returns (r: bool)
    ensures r <==> !Empty(bmp)
  {
    for i := 0 to |bmp|
      invariant forall j :: 0 <= j < i ==> bmp[j] == 0
    {
      if bmp[i] != 0 {
        return true;
      }
    }
    return false;
  }

  method FirstNonzero(bmp: seq<Byte>) returns (i: nat)
    ensures i == FirstFrom(bmp, 0)
  {
    i := 0;
    while i < |bmp|
      invariant 0 <= i <= |bmp| && FirstFrom(bmp, 0) == FirstFrom(bmp, i)
    {
      if bmp[i] != 0 {
        break;
      }
      i := i + 1;
    }
  }

  method LastNonzero(bmp: seq<Byte>) returns (i: nat)
    requires |bmp| >= 1
    ensures i == LastUpTo(bmp, |bmp| - 1)
  {
    i := |bmp| - 1;
    while i > 0
      invariant 0 <= i < |bmp| && LastUpTo(bmp, |bmp| - 1) == LastUpTo(bmp, i)
    {
      if bmp[i] != 0 {
        break;
      }
      i := i - 1;
    }
  }

  /** rtw_set_tim_ie; a virtual bitmap has at most 251 octets. */
  method SetTimIe(dtimCount: Byte, dtimPeriod: Byte, bmp: seq<Byte>) returns (ie: seq<Byte>)
    requires 1 <= |bmp| <= 251
    ensures var t := MapFor(bmp);
            && t.offset % 2 == 0 && t.offset < 256 && 1 <= |t.bits| <= 251
            && ie == EncodeOne(Element(TIM, TimData(dtimCount, dtimPeriod, t)))
  {
    var n1, n2 := 0, 0;
    var some := NotEmpty(bmp);
    if some {
      var f := FirstNonzero(bmp);
      FirstBeforeLast(bmp);
      n1 := f / 2 * 2;
      n2 := LastNonzero(bmp);
    }
    var bmpLen := n2 - n1 + 1;
    var group := BitOf(bmp[0], 0);
    ie := [TIM, 2 + 1 + bmpLen, dtimCount, dtimPeriod, (if group then 1 else 0) + n1];
    ie := ie + bmp[n1..n1 + bmpLen];
  }

  // ---------------------------------------------------------------- nothing is lost

  lemma OctetKept(bmp: seq<Byte>, i: nat)
    requires |bmp| >= 1
    ensures Octet(MapFor(bmp), i) == if i < |bmp| then bmp[i] else 0
  {
  }

  /** What a station reads from the element is the bitmap, bit for bit, from an even first octet on. */
  lemma RoundTrip(dtimCount: Byte, dtimPeriod: Byte, bmp: seq<Byte>)
    requires 1 <= |bmp| <= 251
    ensures MapFor(bmp).offset % 2 == 0 && MapFor(bmp).offset < 256
    ensures Means(Decode(TimData(dtimCount, dtimPeriod, MapFor(bmp))), bmp)
  {
    var t := MapFor(bmp);
    if !Empty(bmp) {
      FirstBeforeLast(bmp);
    }
    var d := Decode(TimData(dtimCount, dtimPeriod, t));
    assert d == t;
    forall aid: nat ensures Announces(t, aid) == IsSet(bmp, aid) {
      OctetKept(bmp, aid / 8);
      ZeroBits(aid % 8);
    }
  }

  // ---------------------------------------------------------------- how short the map is

  /**
    The one family of bitmaps that is not encoded as short as possible: group traffic and none for
    the ids of the first two octets. The scan takes the group bit in octet 0 for a reason to start
    at octet 0, although the control octet carries it.
  */
  predicate Wasteful(bmp: seq<Byte>) {
    |bmp| > 2 && bmp[0] == 1 && bmp[1] == 0 && FirstFrom(bmp, 2) < |bmp|
  }

  /** An octet with a bit for some station has to be among those sent. */
  lemma MustCover(t: Map, bmp: seq<Byte>, i: nat)
    requires Means(t, bmp) && i < |bmp| && bmp[i] > (if i == 0 then 1 else 0)
    ensures t.offset <= i < t.offset + |t.bits|
  {
    ByteFits(bmp[i]);
    var k;
    if i == 0 {
      k := SomeBit(bmp[i] / 2, 7);
      k := k + 1;
    } else {
      k := SomeBit(bmp[i], 8);
    }
    assert (8 * i + k) / 8 == i && (8 * i + k) % 8 == k;
    assert IsSet(bmp, 8 * i + k);
    assert Announces(t, 8 * i + k);
    ZeroBits(k);
  }

  lemma Shortest(t: Map, bmp: seq<Byte>)
    requires |bmp| >= 1 && Means(t, bmp) && !Wasteful(bmp)
    ensures |MapFor(bmp).bits| <= |t.bits|
  {
    hide Means;
    if !Empty(bmp) && LastUpTo(bmp, |bmp| - 1) > 0 {
      FirstBeforeLast(bmp);
      MustCover(t, bmp, LastUpTo(bmp, |bmp| - 1));
      var f := FirstFrom(bmp, 0);
      if f > 0 || bmp[0] > 1 {
        MustCover(t, bmp, f);
      } else if |bmp| > 1 && bmp[1] != 0 {
        MustCover(t, bmp, 1);
      }
      EvenOffset(t, bmp);
    } else {
      EvenOffset(t, bmp);
    }
  }

  lemma EvenOffset(t: Map, bmp: seq<Byte>)
    requires Means(t, bmp)
    ensures t.offset % 2 == 0 && |t.bits| >= 1
  {
  }

  lemma Shorter(bmp: seq<Byte>) returns (t: Map)
    requires Wasteful(bmp)
    ensures Means(t, bmp) && |t.bits| < |MapFor(bmp).bits|
  {
    var j, n2 := FirstFrom(bmp, 2), LastUpTo(bmp, |bmp| - 1);
    var n := j / 2 * 2;
    t := Map(true, n, bmp[n..n2 + 1]);
    forall aid: nat ensures Announces(t, aid) == IsSet(bmp, aid) {
      ZeroBits(aid % 8);
      assert aid / 8 == 0 ==> aid % 8 == aid;
    }
  }

  /** The encoding is the shortest that a station would read the same way, except in that family. */
  lemma ShortestIff(bmp: seq<Byte>)
    requires |bmp| >= 1
    ensures (forall t: Map :: Means(t, bmp) ==> |MapFor(bmp).bits| <= |t.bits|) <==> !Wasteful(bmp)
  {
    hide Means, MapFor;
    if Wasteful(bmp) {
      var t := Shorter(bmp);
    } else {
      forall t: Map | Means(t, bmp) ensures |MapFor(bmp).bits| <= |t.bits| {
        Shortest(t, bmp);
      }
    }
  }
}
