/**
  Information elements as values: the wire form of an element list, and what the beacon editing
  routines do to the list.
*/
module Elements {
  import opened SkbBuffer

  datatype Element = Element(id: Byte, data: seq<Byte>)

  const SSID: Byte := 0
  const RATES: Byte := 1
  const DS: Byte := 3
  const TIM: Byte := 5
  const VENDOR: Byte := 221

  predicate Small(e: Element) {
    |e.data| < 256
  }

  predicate AllSmall(es: seq<Element>) {
    forall i :: 0 <= i < |es| ==> Small(es[i])
  }

  function EncodeOne(e: Element): (b: seq<Byte>)
    requires Small(e)
    ensures |b| == 2 + |e.data|
  {
    [e.id, |e.data|] + e.data
  }

  function Encode(es: seq<Element>): seq<Byte>
    requires AllSmall(es)
  {
    if es == [] then [] else EncodeOne(es[0]) + Encode(es[1..])
  }

  lemma {:induction false} EncodeAppend(a: seq<Element>, b: seq<Element>)
    requires AllSmall(a) && AllSmall(b)
    ensures AllSmall(a + b) && Encode(a + b) == Encode(a) + Encode(b)
  {
    hide EncodeOne;
    if a == [] {
      assert a + b == b;
    } else {
      EncodeAppend(a[1..], b);
      assert (a + b)[1..] == a[1..] + b;
      assert Encode(a + b) == EncodeOne(a[0]) + (Encode(a[1..]) + Encode(b));
    }
  }

  lemma EncodeSingle(e: Element)
    requires Small(e)
    ensures AllSmall([e]) && Encode([e]) == EncodeOne(e)
  {
  }

  /** Where element `i` starts. */
  function Pos(es: seq<Element>, i: nat): nat
    requires AllSmall(es) && i <= |es|
  {
    |Encode(es[..i])|
  }

  /** An element inside a longer string. */
  lemma Inside(x: seq<Byte>, e: Element, y: seq<Byte>)
    requires Small(e)
    ensures var b, p := x + EncodeOne(e) + y, |x|;
            b[p] == e.id && b[p + 1] == |e.data| && b[p + 2..p + 2 + |e.data|] == e.data
  {
  }

  /** The wire form is the bytes up to, of and after element `i`. */
  lemma Around(es: seq<Element>, i: nat)
    requires AllSmall(es) && i < |es|
    ensures Encode(es) == Encode(es[..i]) + EncodeOne(es[i]) + Encode(es[i + 1..])
    ensures Pos(es, i + 1) == Pos(es, i) + 2 + |es[i].data|
  {
    hide Encode, EncodeOne;
    EncodeAppend(es[..i], [es[i]]);
    EncodeAppend(es[..i] + [es[i]], es[i + 1..]);
    EncodeSingle(es[i]);
    assert es[..i + 1] == es[..i] + [es[i]];
    assert es == es[..i + 1] + es[i + 1..];
  }

  /** The bytes of element `i`. */
  lemma Layout(es: seq<Element>, i: nat)
    requires AllSmall(es) && i < |es|
    ensures var b, p := Encode(es), Pos(es, i);
            && Pos(es, i + 1) == p + 2 + |es[i].data| <= |b|
            && b[p] == es[i].id && b[p + 1] == |es[i].data| && b[p + 2..p + 2 + |es[i].data|] == es[i].data
  {
    hide Encode, EncodeOne;
    Around(es, i);
    Inside(Encode(es[..i]), es[i], Encode(es[i + 1..]));
  }

  /** The wire form splits at every element boundary. */
  lemma Split(es: seq<Element>, i: nat)
    requires AllSmall(es) && i <= |es|
    ensures Pos(es, i) <= |Encode(es)| && Encode(es)[..Pos(es, i)] == Encode(es[..i])
    ensures Encode(es)[Pos(es, i)..] == Encode(es[i..])
  {
    hide Encode;
    assert es == es[..i] + es[i..];
    EncodeAppend(es[..i], es[i..]);
  }

  lemma {:induction false} PosMonotone(es: seq<Element>, i: nat, j: nat)
    requires AllSmall(es) && i <= j <= |es|
    ensures Pos(es, i) + 2 * (j - i) <= Pos(es, j)
    decreases j - i
  {
    hide Encode;
    if i < j {
      Layout(es, i);
      PosMonotone(es, i + 1, j);
    }
  }

  lemma PosEnds(es: seq<Element>)
    requires AllSmall(es)
    ensures Pos(es, 0) == 0 && Pos(es, |es|) == |Encode(es)|
  {
    assert es[..|es|] == es;
  }

  /** Replacing elements i..j by others is replacing their bytes. */
  lemma Spliced(head: seq<Byte>, es: seq<Element>, i: nat, j: nat, mid: seq<Element>)
    requires AllSmall(es) && AllSmall(mid) && i <= j <= |es|
    ensures Pos(es, i) <= Pos(es, j) <= |Encode(es)| && AllSmall(es[..i] + mid + es[j..])
    ensures var c := head + Encode(es);
            c[..|head| + Pos(es, i)] + Encode(mid) + c[|head| + Pos(es, j)..] == head + Encode(es[..i] + mid + es[j..])
  {
    hide Encode;
    Split(es, i);
    Split(es, j);
    PosMonotone(es, i, j);
    EncodeAppend(es[..i], mid);
    EncodeAppend(es[..i] + mid, es[j..]);
    var b, c := Encode(es), head + Encode(es);
    assert c[..|head| + Pos(es, i)] == head + b[..Pos(es, i)];
    assert c[|head| + Pos(es, j)..] == b[Pos(es, j)..];
  }

  // ---------------------------------------------------------------- searching

  /** The first element with this id, or the number of elements. */
  function First(es: seq<Element>, id: Byte): (r: nat)
    ensures r <= |es| && (r < |es| ==> es[r].id == id) && forall i :: 0 <= i < r ==> es[i].id != id
  {
    if es == [] then 0 else if es[0].id == id then 0 else 1 + First(es[1..], id)
  }

  /** The first element whose id is not below this one, or the number of elements. */
  function Slot(es: seq<Element>, id: Byte): (r: nat)
    ensures r <= |es| && (r < |es| ==> es[r].id >= id) && forall i :: 0 <= i < r ==> es[i].id < id
  {
    if es == [] then 0 else if es[0].id >= id then 0 else 1 + Slot(es[1..], id)
  }

  lemma FirstIs(es: seq<Element>, id: Byte, i: nat)
    requires i <= |es| && (i < |es| ==> es[i].id == id) && forall j :: 0 <= j < i ==> es[j].id != id
    ensures First(es, id) == i
  {
  }

  lemma SlotIs(es: seq<Element>, id: Byte, i: nat)
    requires i <= |es| && (i < |es| ==> es[i].id >= id) && forall j :: 0 <= j < i ==> es[j].id < id
    ensures Slot(es, id) == i
  {
  }

  // ---------------------------------------------------------------- adding and removing

  /** The scan of rtw_add_bcn_ie stops at an element that it replaces. */
  predicate Matches(es: seq<Element>, id: Byte) {
    Slot(es, id) < |es| && es[Slot(es, id)].id == id
  }

  /**
    Whether rtw_add_bcn_ie does anything: the element it replaces or, without one, the element it
    goes behind has to exist and must not be empty.
  */
  predicate Addable(es: seq<Element>, id: Byte) {
    var k := Slot(es, id);
    if Matches(es, id) then es[k].data != [] else k > 0 && es[k - 1].data != []
  }

  function Add(es: seq<Element>, e: Element): seq<Element> {
    var k := Slot(es, e.id);
    if !Addable(es, e.id) then es
    else if Matches(es, e.id) then es[k := e]
    else es[..k] + [e] + es[k..]
  }

  /** rtw_remove_bcn_ie: the first element with this id goes, unless it is empty. */
  function Remove(es: seq<Element>, id: Byte): seq<Element> {
    var k := First(es, id);
    if k < |es| && es[k].data != [] then es[..k] + es[k + 1..] else es
  }

  /** Wherever the new element ends up, a search finds it. */
  lemma AddedIsFirst(es: seq<Element>, e: Element)
    requires Addable(es, e.id)
    ensures First(Add(es, e), e.id) == Slot(es, e.id) < |Add(es, e)| && Add(es, e)[Slot(es, e.id)] == e
  {
    var k, r := Slot(es, e.id), Add(es, e);
    assert forall j :: 0 <= j < k ==> r[j] == es[j];
    FirstIs(r, e.id, k);
  }

  lemma InsertThenRemove(es: seq<Element>, e: Element)
    requires Addable(es, e.id) && !Matches(es, e.id)
    ensures Remove(Add(es, e), e.id) == if e.data != [] then es else Add(es, e)
    ensures Add(es, e) != es
  {
    AddedIsFirst(es, e);
    hide First, Slot;
    var k, r := Slot(es, e.id), Add(es, e);
    assert r[..k] == es[..k] && r[k + 1..] == es[k..];
    assert es[..k] + es[k..] == es && |r| == |es| + 1;
  }

  lemma ReplaceThenRemove(es: seq<Element>, e: Element)
    requires Addable(es, e.id) && Matches(es, e.id)
    ensures Remove(Add(es, e), e.id) != es
  {
    AddedIsFirst(es, e);
    hide First, Slot;
    var k, r := Slot(es, e.id), Add(es, e);
    assert r[k] == e && |r| == |es|;
  }

  /**
    Removing undoes adding, for any list and any element, exactly when the addition put in a new,
    non-empty element, or did nothing and there is no non-empty element of that id to remove.
  */
  lemma AddThenRemove(es: seq<Element>, e: Element)
    ensures Remove(Add(es, e), e.id) == es <==>
            if Addable(es, e.id) then !Matches(es, e.id) && e.data != []
            else First(es, e.id) == |es| || es[First(es, e.id)].data == []
  {
    hide First, Slot, Matches;
    if !Addable(es, e.id) {
      var k := First(es, e.id);
      assert Remove(es, e.id) != es ==> |Remove(es, e.id)| < |es|;
    } else if Matches(es, e.id) {
      ReplaceThenRemove(es, e);
    } else {
      InsertThenRemove(es, e);
    }
  }

  /** A scan for `id` gets past the elements with smaller ids and no further than `k`. */
  predicate StopsAt(es: seq<Element>, id: Byte, k: nat) {
    k <= |es| && (forall j :: 0 <= j < k ==> es[j].id < id) && (k < |es| ==> es[k].id >= id)
  }

  /**
    An element whose id is not met goes between the smaller ids at the front and the next larger one,
    provided that the element before it is there and is not empty.
  */
  lemma AddInserts(es: seq<Element>, e: Element, k: nat)
    requires 0 < k <= |es| && (forall j :: 0 <= j < k ==> es[j].id < e.id) && es[k - 1].data != []
    requires k == |es| || es[k].id > e.id
    ensures Add(es, e) == es[..k] + [e] + es[k..]
  {
    hide Slot;
    SlotIs(es, e.id, k);
  }

  lemma AddableAt(es: seq<Element>, id: Byte, k: nat)
    requires StopsAt(es, id, k)
    ensures Matches(es, id) <==> k < |es| && es[k].id == id
    ensures Addable(es, id) <==> if k < |es| && es[k].id == id then es[k].data != [] else k > 0 && es[k - 1].data != []
  {
    hide Slot;
    SlotIs(es, id, k);
  }

  /**
    Adding leaves a list as it is exactly if the scan meets an element of that id that is empty or the
    very one to be added, or meets none and has an empty element or none at all behind it.
  */
  lemma AddKeepsIff(es: seq<Element>, e: Element, k: nat)
    requires StopsAt(es, e.id, k)
    ensures Add(es, e) == es <==>
            if k < |es| && es[k].id == e.id then es[k].data == [] || es[k] == e else k == 0 || es[k - 1].data == []
  {
    hide Slot;
    SlotIs(es, e.id, k);
    AddableAt(es, e.id, k);
    assert Addable(es, e.id) && !Matches(es, e.id) ==> |Add(es, e)| == |es| + 1;
  }

  predicate Ascending(es: seq<Element>) {
    forall i, j :: 0 <= i < j < |es| ==> es[i].id <= es[j].id
  }

  /** A list in ascending order of ids stays in order. */
  lemma AddKeepsOrder(es: seq<Element>, e: Element)
    requires Ascending(es)
    ensures Ascending(Add(es, e))
  {
    var k, r := Slot(es, e.id), Add(es, e);
    hide Slot;
    if Addable(es, e.id) {
      assert forall i :: k <= i < |es| ==> es[i].id >= e.id;
      assert forall i :: 0 <= i < |r| && i != k ==> r[i] == if i < k || |r| == |es| then es[i] else es[i - 1];
      assert r[k] == e;
    }
  }

  /** When removing undoes adding, by the ids and data around the place where the scan stops. */
  lemma AddUndone(es: seq<Element>, e: Element, k: nat)
    requires StopsAt(es, e.id, k)
    ensures Remove(Add(es, e), e.id) == es <==>
            if k < |es| && es[k].id == e.id then es[k].data == []
            else if k > 0 && es[k - 1].data != [] then e.data != []
            else forall i :: 0 <= i < |es| && es[i].id == e.id && (forall j :: 0 <= j < i ==> es[j].id != e.id) ==> es[i].data == []
  {
    AddThenRemove(es, e);
    AddableAt(es, e.id, k);
    hide Slot, Add, Remove, Addable, Matches;
    var f := First(es, e.id);
    if k < |es| && es[k].id == e.id {
      FirstIs(es, e.id, k);
    } else if f < |es| {
      forall i | 0 <= i < |es| && es[i].id == e.id && forall j :: 0 <= j < i ==> es[j].id != e.id ensures i == f {
        FirstIs(es, e.id, i);
      }
    }
  }

  /** When the scan meets an element with that id, only this element changes. */
  lemma AddReplaces(es: seq<Element>, e: Element)
    requires Matches(es, e.id)
    ensures |Add(es, e)| == |es|
    ensures forall i :: 0 <= i < |es| ==>
              Add(es, e)[i] == if i == Slot(es, e.id) && es[i].data != [] then e else es[i]
  {
  }

  /** On a list in ascending order of ids the scan meets every element with that id. */
  lemma {:induction false} MatchesWhenSorted(es: seq<Element>, id: Byte)
    requires forall i, j :: 0 <= i < j < |es| ==> es[i].id <= es[j].id
    ensures Matches(es, id) <==> First(es, id) < |es|
    ensures Matches(es, id) ==> First(es, id) == Slot(es, id)
  {
  }

  // ---------------------------------------------------------------- the TIM element of the beacon

  predicate HasTim(es: seq<Element>) {
    var k := First(es, TIM);
    k < |es| && es[k].data != []
  }

  /** The bytes of the first element with this id, header included. */
  function SizeOf(es: seq<Element>, id: Byte): nat {
    var k := First(es, id);
    if k < |es| then 2 + |es[k].data| else 0
  }

  /** Where update_BCNTIM writes when there is no TIM yet: behind SSID, rates and a DS element of 3 bytes. */
  function TimOffset(es: seq<Element>): nat {
    SizeOf(es, SSID) + SizeOf(es, RATES) + 3
  }

  predicate StartsRight(es: seq<Element>) {
    && |es| >= 3 && es[0].id == SSID && es[1].id == RATES && es[2].id == DS && |es[2].data| == 1
  }

  lemma OffsetRight(es: seq<Element>)
    requires AllSmall(es) && StartsRight(es)
    ensures TimOffset(es) == Pos(es, 3)
  {
    hide Encode, First, EncodeOne, Pos;
    FirstIs(es, SSID, 0);
    FirstIs(es, RATES, 1);
    Around(es, 0);
    Around(es, 1);
    Around(es, 2);
    PosEnds(es);
  }

  /** The list with its first non-empty TIM taken out. */
  function WithoutTim(es: seq<Element>): seq<Element> {
    if HasTim(es) then es[..First(es, TIM)] + es[First(es, TIM) + 1..] else es
  }

  /** The list holds `tim` at `p`, and without its TIM it is `a` up to there and `b` behind. */
  lemma TimAt(r: seq<Element>, tim: Element, p: nat, a: seq<Element>, b: seq<Element>)
    requires r == a + [tim] + b && |a| == p && tim.id == TIM && tim.data != []
    requires forall j :: 0 <= j < p ==> a[j].id != TIM
    ensures HasTim(r) && r[First(r, TIM)] == tim && WithoutTim(r) == a + b
  {
    hide First;
    FirstIs(r, TIM, p);
    assert r[..p] == a && r[p + 1..] == b;
  }

  /** A TIM that is there is replaced: the list holds exactly the new one, and all else as before. */
  lemma TimSwapped(es: seq<Element>, tim: Element)
    requires HasTim(es) && tim.id == TIM && tim.data != []
    ensures var r := es[First(es, TIM) := tim];
            HasTim(r) && r[First(r, TIM)] == tim && WithoutTim(r) == WithoutTim(es)
  {
    var p := First(es, TIM);
    TimAt(es[p := tim], tim, p, es[..p], es[p + 1..]);
  }

  /** Where there is none it is inserted, and all else is as before. */
  lemma TimInserted(es: seq<Element>, tim: Element, k: nat)
    requires !HasTim(es) && tim.id == TIM && tim.data != [] && k <= First(es, TIM)
    ensures var r := es[..k] + [tim] + es[k..];
            HasTim(r) && r[First(r, TIM)] == tim && WithoutTim(r) == WithoutTim(es)
  {
    TimAt(es[..k] + [tim] + es[k..], tim, k, es[..k], es[k..]);
    assert es[..k] + es[k..] == es;
  }
}
