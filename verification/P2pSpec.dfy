/**
  P2P elements as values: vendor elements whose data is a list of attributes behind the P2P OUI,
  and what deleting an attribute means for them.
*/
module P2pSpec {
  import opened SkbBuffer
  import opened Elements

  const OUI: seq<Byte> := [0x50, 0x6F, 0x9A, 0x09]

  datatype Attr = Attr(id: Byte, data: seq<Byte>)

  /** The 16-bit length field of the attribute that `b` starts with. */
  function Field(b: seq<Byte>): nat
    requires |b| >= 3
  {
    b[1] as nat + 256 * (b[2] as nat)
  }

  /** No whole attribute fits any more. */
  predicate Stuck(b: seq<Byte>) {
    |b| < 3 || 3 + Field(b) > |b|
  }

  function Size(b: seq<Byte>): (n: nat)
    requires !Stuck(b)
    ensures 3 <= n <= |b|
  {
    3 + Field(b)
  }

  /** The attributes of a P2P body. */
  function Attrs(b: seq<Byte>): seq<Attr> {
    if Stuck(b) then [] else [Attr(b[0], b[3..Size(b)])] + Attrs(b[Size(b)..])
  }

  /** What is left behind the last whole attribute. */
  function Rest(b: seq<Byte>): (r: seq<Byte>)
    ensures |r| <= |b|
  {
    if Stuck(b) then b else Rest(b[Size(b)..])
  }

  /** Every attribute with this id left out. */
  function Dropped(attrs: seq<Attr>, id: Byte): seq<Attr> {
    if attrs == [] then [] else (if attrs[0].id == id then [] else [attrs[0]]) + Dropped(attrs[1..], id)
  }

  // ---------------------------------------------------------------- on the bytes

  function Without(b: seq<Byte>, id: Byte): (r: seq<Byte>)
    ensures |r| <= |b|
  {
    if Stuck(b) then b
    else (if b[0] == id then [] else b[..Size(b)]) + Without(b[Size(b)..], id)
  }

  /** Dropping the bytes is dropping the attributes, and nothing else changes. */
  lemma {:induction false} WithoutDrops(b: seq<Byte>, id: Byte)
    ensures Attrs(Without(b, id)) == Dropped(Attrs(b), id) && Rest(Without(b, id)) == Rest(b)
  {
    if !Stuck(b) {
      var n, r := Size(b), Without(b[Size(b)..], id);
      WithoutDrops(b[n..], id);
      if b[0] == id {
        assert Without(b, id) == r;
      } else {
        var w := b[..n] + r;
        assert w[n..] == r && w[3..n] == b[3..n] && w[1] == b[1] && w[2] == b[2];
      }
    }
  }

  /** Offset of the first attribute with this id, or -1. */
  function Find(b: seq<Byte>, id: Byte): (p: int)
    ensures -1 <= p < |b| && (p >= 0 ==> !Stuck(b[p..]) && b[p] == id)
  {
    if Stuck(b) then -1
    else if b[0] == id then assert b[0..] == b; 0
    else
      var n := Size(b);
      var p := Find(b[n..], id);
      if p < 0 then -1 else assert b[n..][p..] == b[n + p..]; n + p
  }

  /** A cut behind the first attribute leaves that one whole. */
  lemma CutBehind(b: seq<Byte>, p: nat, m: nat)
    requires !Stuck(b) && Size(b) <= p && p + m <= |b|
    ensures var n, c := Size(b), b[..p] + b[p + m..];
            && !Stuck(c) && Size(c) == n && c[0] == b[0] && c[..n] == b[..n] && Field(c) == Field(b)
            && c[n..] == b[n..][..p - n] + b[n..][p - n + m..]
  {
  }

  /** The body without its first attribute of this id. */
  function Cut(b: seq<Byte>, id: Byte): (r: seq<Byte>)
    requires Find(b, id) >= 0
    ensures |r| == |b| - Size(b[Find(b, id)..])
  {
    var p := Find(b, id);
    b[..p] + b[p + Size(b[p..])..]
  }

  lemma CutHere(b: seq<Byte>, id: Byte)
    requires Find(b, id) >= 0 && b[0] == id
    ensures !Stuck(b) && Cut(b, id) == b[Size(b)..]
  {
  }

  lemma FindWhole(b: seq<Byte>, id: Byte)
    requires Find(b, id) >= 0
    ensures !Stuck(b)
  {
  }

  lemma FindLater(b: seq<Byte>, id: Byte)
    requires !Stuck(b) && b[0] != id
    ensures var n, f := Size(b), Find(b, id);
            && (f >= 0 <==> Find(b[n..], id) >= 0)
            && (f >= 0 ==> f == n + Find(b[n..], id) && b[f..] == b[n..][f - n..])
  {
  }

  lemma CutLater(b: seq<Byte>, id: Byte)
    requires Find(b, id) >= 0 && b[0] != id
    ensures !Stuck(b) && Find(b[Size(b)..], id) >= 0
    ensures var n, c := Size(b), Cut(b, id);
            && !Stuck(c) && Size(c) == n && c[0] == b[0] && c[..n] == b[..n] && Field(c) == Field(b)
            && c[n..] == Cut(b[n..], id)
  {
    hide Stuck, Size, Find, Field;
    FindWhole(b, id);
    FindLater(b, id);
    CutBehind(b, Find(b, id), Size(b[Find(b, id)..]));
  }

  /** Cutting the first one out leaves the others to be cut. */
  lemma {:induction false} CutFirst(b: seq<Byte>, id: Byte)
    requires Find(b, id) >= 0
    ensures Without(Cut(b, id), id) == Without(b, id)
  {
    hide Stuck, Size, Find, Cut;
    if b[0] == id {
      CutHere(b, id);
    } else {
      CutLater(b, id);
      CutFirst(b[Size(b)..], id);
    }
  }

  lemma {:induction false} NoneLeft(b: seq<Byte>, id: Byte)
    requires Find(b, id) < 0
    ensures Without(b, id) == b
  {
    if !Stuck(b) {
      NoneLeft(b[Size(b)..], id);
    }
  }

  // ---------------------------------------------------------------- the scan and its 16-bit length

  /** The step of rtw_get_p2p_attr: header and data length added in 16 bits. */
  function Step(b: seq<Byte>): nat
    requires |b| >= 3
  {
    (3 + Field(b)) % 0x10000
  }

  /** What rtw_get_p2p_attr finds: nothing, an attribute with the length it takes it to have, or no end. */
  datatype Scan = Missing | Endless | At(pos: nat, n: nat)

  function Later(r: Scan, k: nat): Scan {
    if r.At? then At(k + r.pos, r.n) else r
  }

  function ScanFor(b: seq<Byte>, id: Byte): (r: Scan)
    ensures r.At? ==> r.pos + r.n <= |b|
  {
    if |b| < 3 || Step(b) > |b| then Missing
    else if b[0] == id then At(0, Step(b))
    else if Step(b) == 0 then Endless
    else Later(ScanFor(b[Step(b)..], id), Step(b))
  }

  /** The loop of rtw_get_p2p_attr has stopped after at most `n` attributes. */
  predicate EndsWithin(b: seq<Byte>, id: Byte, n: nat) {
    |b| < 3 || Step(b) > |b| || b[0] == id || (n > 0 && EndsWithin(b[Step(b)..], id, n - 1))
  }

  lemma {:induction false} SpinsForever(b: seq<Byte>, id: Byte, n: nat)
    requires ScanFor(b, id).Endless?
    ensures !EndsWithin(b, id, n)
    decreases n
  {
    if n > 0 {
      if Step(b) == 0 {
        assert b[0..] == b;
        SpinsForever(b, id, n - 1);
      } else {
        SpinsForever(b[Step(b)..], id, n - 1);
      }
    }
  }

  lemma {:induction false} Ends(b: seq<Byte>, id: Byte)
    requires !ScanFor(b, id).Endless?
    ensures EndsWithin(b, id, |b|)
  {
    if |b| >= 3 && Step(b) <= |b| && b[0] != id {
      Ends(b[Step(b)..], id);
      EndsLater(b[Step(b)..], id, |b| - Step(b), |b| - 1);
    }
  }

  lemma {:induction false} EndsLater(b: seq<Byte>, id: Byte, m: nat, n: nat)
    requires EndsWithin(b, id, m) && m <= n
    ensures EndsWithin(b, id, n)
    decreases m
  {
    if |b| >= 3 && Step(b) <= |b| && b[0] != id {
      EndsLater(b[Step(b)..], id, m - 1, n - 1);
    }
  }

  /**
    The scan ends on exactly the bodies that do not bring it to an attribute of another id whose
    length field is 0xFFFD.
  */
  lemma ScanEndsIff(b: seq<Byte>, id: Byte)
    ensures (exists n: nat :: EndsWithin(b, id, n)) <==> !ScanFor(b, id).Endless?
  {
    if ScanFor(b, id).Endless? {
      forall n: nat ensures !EndsWithin(b, id, n) {
        SpinsForever(b, id, n);
      }
    } else {
      Ends(b, id);
      assert exists n: nat :: EndsWithin(b, id, n);
    }
  }

  // ---------------------------------------------------------------- the deletion as it is

  /** How rtw_del_p2p_attr leaves a body, if it comes back at all. */
  datatype Deletion = Hangs | Ended(body: seq<Byte>)

  function Deleted(b: seq<Byte>, id: Byte): (r: Deletion)
    ensures r.Ended? ==> |r.body| <= |b|
    decreases |b|
  {
    match ScanFor(b, id)
    case Missing => Ended(b)
    case Endless => Hangs
    case At(p, n) => if n == 0 then Ended(b) else Deleted(b[..p] + b[p + n..], id)
  }

  /** Behind the whole attributes, the scan ends and matches nothing of positive length. */
  predicate RestOk(b: seq<Byte>, id: Byte) {
    var r := ScanFor(Rest(b), id);
    r.Missing? || (r.At? && r.n == 0)
  }

  /** A whole attribute has no wrapping length, so the scan meets them as they are. */
  lemma {:induction false} ScanWhole(b: seq<Byte>, id: Byte)
    requires |b| < 0x10000
    ensures var f := Find(b, id);
            ScanFor(b, id) == if f >= 0 then At(f, Size(b[f..])) else Later(ScanFor(Rest(b), id), |b| - |Rest(b)|)
  {
    if !Stuck(b) {
      assert Step(b) == Size(b);
      if b[0] == id {
        assert b[0..] == b;
      } else {
        var n := Size(b);
        ScanWhole(b[n..], id);
        FindLater(b, id);
      }
    }
  }

  lemma {:induction false} RestCut(b: seq<Byte>, id: Byte)
    requires Find(b, id) >= 0
    ensures Rest(Cut(b, id)) == Rest(b)
  {
    hide Stuck, Size, Find, Cut;
    if b[0] == id {
      CutHere(b, id);
    } else {
      CutLater(b, id);
      RestCut(b[Size(b)..], id);
    }
  }

  /**
    The deletion drops exactly the attributes with the id if and only if the scan of what follows the
    last whole attribute ends there without a match of positive length.
  */
  lemma {:induction false} DeletedIff(b: seq<Byte>, id: Byte)
    requires |b| < 0x10000
    ensures Deleted(b, id) == Ended(Without(b, id)) <==> RestOk(b, id)
    decreases |b|
  {
    hide Without, Stuck, Size, Find, Rest, ScanFor;
    ScanWhole(b, id);
    if Find(b, id) >= 0 {
      CutFirst(b, id);
      RestCut(b, id);
      DeletedIff(Cut(b, id), id);
    } else {
      NoneLeft(b, id);
    }
  }

  /** The scan does not end: a length field of 0xFFFD under another id. */
  lemma SpinExample()
    ensures ScanFor([7, 0xFD, 0xFF], 1).Endless? && Deleted([7, 0xFD, 0xFF], 1).Hangs?
  {
  }

  /** The scan ends but takes the three bytes for an attribute of one byte, which it removes. */
  lemma WrapExample()
    ensures Deleted([7, 0xFE, 0xFF], 7) == Ended([0xFE, 0xFF]) && Without([7, 0xFE, 0xFF], 7) == [7, 0xFE, 0xFF]
  {
    var b: seq<Byte> := [7, 0xFE, 0xFF];
    var c: seq<Byte> := [0xFE, 0xFF];
    assert Field(b) == 0xFFFE && Step(b) == 1 && Stuck(b);
    assert ScanFor(b, 7) == At(0, 1) && ScanFor(c, 7) == Missing;
    hide ScanFor, Stuck, Step, Field;
    assert b[..0] + b[1..] == c;
    assert Deleted(c, 7) == Ended(c);
  }

  /** Without a wrapping length field behind the whole attributes all is well, whatever the id. */
  lemma UnwrappedRestOk(b: seq<Byte>, id: Byte)
    requires |Rest(b)| < 3 || Field(Rest(b)) < 0xFFFD
    ensures RestOk(b, id)
  {
    RestStuck(b);
  }

  lemma {:induction false} RestStuck(b: seq<Byte>)
    ensures Stuck(Rest(b))
  {
    if !Stuck(b) {
      RestStuck(b[Size(b)..]);
    }
  }

  // ---------------------------------------------------------------- elements

  predicate IsP2p(e: Element): (b: bool)
    ensures b ==> |e.data| >= 4
  {
    e.id == VENDOR && |e.data| >= 4 && e.data[..4] == OUI
  }

  function DropIn(e: Element, id: Byte): (r: Element)
    ensures |r.data| <= |e.data|
  {
    if IsP2p(e) then Element(VENDOR, OUI + Without(e.data[4..], id)) else e
  }

  function DropAll(es: seq<Element>, id: Byte): (r: seq<Element>)
    ensures |r| == |es| && forall i :: 0 <= i < |es| ==> r[i] == DropIn(es[i], id)
  {
    if es == [] then [] else [DropIn(es[0], id)] + DropAll(es[1..], id)
  }

  /**
    Element by element: the same elements in the same order, P2P elements stay P2P elements, their
    attribute lists are the old ones without the id, and what was no attribute stays as it was.
  */
  lemma NestedFilter(es: seq<Element>, id: Byte, i: nat)
    requires i < |es|
    ensures var e, r := es[i], DropAll(es, id)[i];
            && IsP2p(r) == IsP2p(e)
            && (!IsP2p(e) ==> r == e)
            && (IsP2p(e) ==> Attrs(r.data[4..]) == Dropped(Attrs(e.data[4..]), id) && Rest(r.data[4..]) == Rest(e.data[4..]))
  {
    var e := es[i];
    if IsP2p(e) {
      WithoutDrops(e.data[4..], id);
      var w := OUI + Without(e.data[4..], id);
      assert w[..4] == OUI && w[4..] == Without(e.data[4..], id);
    }
  }

  // ---------------------------------------------------------------- element lists as they are left

  predicate HangsIn(e: Element, id: Byte) {
    IsP2p(e) && Deleted(e.data[4..], id).Hangs?
  }

  function Left(e: Element, id: Byte): (r: Element)
    requires !HangsIn(e, id)
    ensures |r.data| <= |e.data|
  {
    if IsP2p(e) then Element(VENDOR, OUI + Deleted(e.data[4..], id).body) else e
  }

  predicate NoneHangs(es: seq<Element>, id: Byte) {
    forall i :: 0 <= i < |es| ==> !HangsIn(es[i], id)
  }

  /** The list as rtw_bss_ex_del_p2p_attr leaves it. */
  function LeftAll(es: seq<Element>, id: Byte): (r: seq<Element>)
    requires NoneHangs(es, id)
    ensures |r| == |es| && forall i :: 0 <= i < |es| ==> r[i] == Left(es[i], id)
  {
    if es == [] then [] else [Left(es[0], id)] + LeftAll(es[1..], id)
  }

  lemma LeftIff(e: Element, id: Byte)
    requires Small(e)
    ensures !HangsIn(e, id) && Left(e, id) == DropIn(e, id) <==> (IsP2p(e) ==> RestOk(e.data[4..], id))
  {
    hide Deleted, Without, RestOk;
    if IsP2p(e) {
      var b := e.data[4..];
      DeletedIff(b, id);
      if Deleted(b, id).Ended? {
        var x, y := OUI + Deleted(b, id).body, OUI + Without(b, id);
        assert x[4..] == Deleted(b, id).body && y[4..] == Without(b, id);
      }
    }
  }

  /** The deletion comes back with the nested filter of the list, if and only if every P2P element is such. */
  lemma NestedFilterIff(es: seq<Element>, id: Byte)
    requires AllSmall(es)
    ensures NoneHangs(es, id) && LeftAll(es, id) == DropAll(es, id) <==>
            forall i :: 0 <= i < |es| && IsP2p(es[i]) ==> RestOk(es[i].data[4..], id)
  {
    hide HangsIn, Left, DropIn, IsP2p, RestOk, DropAll, LeftAll;
    forall i | 0 <= i < |es|
      ensures !HangsIn(es[i], id) && Left(es[i], id) == DropIn(es[i], id) <==> (IsP2p(es[i]) ==> RestOk(es[i].data[4..], id))
    {
      LeftIff(es[i], id);
    }
  }

  lemma LeftAllAppend(a: seq<Element>, b: seq<Element>, id: Byte)
    requires NoneHangs(a, id) && NoneHangs(b, id)
    ensures NoneHangs(a + b, id) && LeftAll(a + b, id) == LeftAll(a, id) + LeftAll(b, id)
  {
  }

  lemma LeftAlone(es: seq<Element>, id: Byte)
    requires forall i :: 0 <= i < |es| ==> !IsP2p(es[i])
    ensures NoneHangs(es, id) && LeftAll(es, id) == es
  {
  }

  /** `Dropped` is the filter: it keeps exactly the others, in order. */
  lemma {:induction false} DroppedIs(attrs: seq<Attr>, id: Byte, a: Attr)
    ensures multiset(Dropped(attrs, id))[a] == if a.id == id then 0 else multiset(attrs)[a]
  {
    if attrs != [] {
      DroppedIs(attrs[1..], id, a);
      assert attrs == [attrs[0]] + attrs[1..];
    }
  }
}
