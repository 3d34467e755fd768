/** Deleting a P2P attribute from a BSS description in place: two nested search-and-close-gap loops. */
module P2pIes {
  import opened SkbBuffer
  import opened Elements
  import opened P2pSpec
  import opened BeaconIes

  // ---------------------------------------------------------------- closing a gap

  function Zeros(n: nat): (z: seq<Byte>)
    ensures |z| == n && forall i :: 0 <= i < n ==> z[i] == 0
  {
    seq(n, _ => 0)
  }

  /** `n` bytes at `at` taken out of the first `end` bytes, which end in zeros instead. */
  ghost function Closed(b: seq<Byte>, at: nat, n: nat, end: nat): (r: seq<Byte>)
    requires at + n <= end <= |b|
    ensures |r| == |b|
  {
    b[..at] + b[at + n..end] + Zeros(n) + b[end..]
  }

  /** memmove of what is behind the gap, memset of what that leaves free. */
  method CloseGap(a: array<Byte>, at: nat, n: nat, end: nat)
    requires at + n <= end <= a.Length
    modifies a
    ensures a[..] == Closed(old(a[..]), at, n, end)
  {
    ghost var b := a[..];
    Copy(a, at, at + n, end - at - n);
    ghost var c := a[..];
    var k := end - n;
    while k < end
      invariant end - n <= k <= end
      invariant forall i {:trigger a[i]} :: 0 <= i < a.Length ==> a[i] == if end - n <= i < k then 0 else c[i]
    {
      a[k] := 0;
      k := k + 1;
    }
    ClosedIs(b, c, a[..], at, n, end);
    hide Closed;
  }

  lemma ClosedIs(b: seq<Byte>, c: seq<Byte>, d: seq<Byte>, at: nat, n: nat, end: nat)
    requires at + n <= end <= |b| && c == MovedBytes(b, at, at + n, end - at - n) && |d| == |b|
    requires forall i {:trigger d[i]} :: 0 <= i < |d| ==> d[i] == if end - n <= i < end then 0 else c[i]
    ensures d == Closed(b, at, n, end)
  {
  }

  // ---------------------------------------------------------------- inside one element

  /** Id, length and OUI of a P2P element that takes `len` bytes. */
  function Head(len: nat): (h: seq<Byte>)
    requires 6 <= len <= 257
    ensures |h| == 6
  {
    [VENDOR, len - 2] + OUI
  }

  /** The buffer with a P2P element of body `body` between `pre` and `k` zero bytes. */
  ghost function Framed(pre: seq<Byte>, body: seq<Byte>, k: nat, post: seq<Byte>): seq<Byte>
    requires |body| <= 251
  {
    pre + Head(6 + |body|) + body + Zeros(k) + post
  }

  /** One step of the scan from offset `o`. */
  lemma ScanStep(body: seq<Byte>, o: nat, id: Byte)
    requires o + 3 <= |body|
    ensures var rest, n := body[o..], (body[o + 1] as nat + 256 * (body[o + 2] as nat) + 3) % 0x10000;
            ScanFor(rest, id) == if o + n > |body| then Missing
                                 else if body[o] == id then At(0, n)
                                 else if n == 0 then Endless
                                 else Later(ScanFor(body[o + n..], id), n)
  {
    var rest := body[o..];
    assert rest[0] == body[o] && rest[1] == body[o + 1] && rest[2] == body[o + 2];
    if Step(rest) <= |rest| {
      assert rest[Step(rest)..] == body[o + Step(rest)..];
    }
  }

  lemma ScanOver(body: seq<Byte>, id: Byte)
    requires |body| < 3
    ensures ScanFor(body, id) == Missing
  {
  }

  /**
    rtw_get_p2p_attr on the element of `len` bytes at `ie`; positions count from behind the OUI, and
    `Endless` stands for a call that does not return.
  */
  method GetP2pAttr(a: array<Byte>, ie: nat, len: nat, id: Byte, ghost body: seq<Byte>) returns (r: Scan)
    requires ie + len <= a.Length && len == 6 + |body| && a[ie + 6..ie + len] == body
    ensures r == ScanFor(body, id)
  {
    hide ScanFor;
    if len <= 6 {
      ScanOver(body, id);
      return Missing;
    }
    var o := 0;
    assert body[0..] == body;
    while 6 + o + 3 <= len
      invariant 0 <= o <= |body|
      invariant ScanFor(body, id) == Later(ScanFor(body[o..], id), o)
      decreases |body| - o
    {
      ScanStep(body, o, id);
      assert forall i :: o <= i < o + 3 ==> a[ie + 6 + i] == a[ie + 6..ie + len][i] == body[i];
      var attrLen := (a[ie + 6 + (o + 1)] as nat + 256 * (a[ie + 6 + (o + 2)] as nat) + 3) % 0x10000;
      if 6 + o + attrLen > len {
        return Missing;
      }
      if a[ie + 6 + o] == id {
        return At(o, attrLen);
      }
      if attrLen == 0 {
        return Endless;
      }
      o := o + attrLen;
    }
    ScanOver(body[o..], id);
    return Missing;
  }

  lemma FramedParts(pre: seq<Byte>, body: seq<Byte>, k: nat, post: seq<Byte>)
    requires |body| <= 251
    ensures var b, ie, len := Framed(pre, body, k, post), |pre|, 6 + |body|;
            && |b| == ie + len + k + |post| && b[ie + 6..ie + len] == body && b[ie + 1] == len - 2
            && b[..ie] == pre && b[ie + len + k..] == post
  {
  }

  /** Taking one attribute out: the gap closes inside the element and its length byte follows. */
  lemma CutFramed(pre: seq<Byte>, body: seq<Byte>, k: nat, post: seq<Byte>, f: nat, n: nat)
    requires |body| <= 251 && f + n <= |body|
    ensures var b, ie, len := Framed(pre, body, k, post), |pre|, 6 + |body|;
            && |b| == ie + len + k + |post|
            && Closed(b, ie + 6 + f, n, ie + len)[ie + 1 := len - n - 2] == Framed(pre, body[..f] + body[f + n..], k + n, post)
  {
  }

  /**
    rtw_del_p2p_attr: the element shrinks to what the deletion leaves of its body, and zeros fill what
    it gave up; or the call does not return.
  */
  method DelP2pAttr(a: array<Byte>, ie: nat, len: nat, id: Byte, ghost body: seq<Byte>) returns (hung: bool, r: nat)
    requires ie + len <= a.Length && len == 6 + |body| <= 257
    requires a[..] == Framed(a[..ie], body, 0, a[ie + len..])
    modifies a
    ensures hung == Deleted(body, id).Hangs?
    ensures !hung ==> r == 6 + |Deleted(body, id).body| <= len
    ensures !hung ==> a[..] == Framed(old(a[..ie]), Deleted(body, id).body, len - r, old(a[ie + len..]))
  {
    hide Framed, ScanFor;
    ghost var pre, post, cur := a[..ie], a[ie + len..], body;
    hung, r := false, len;
    while true
      invariant 6 <= r <= len && r == 6 + |cur|
      invariant Deleted(cur, id) == Deleted(body, id)
      invariant a[..] == Framed(pre, cur, len - r, post)
      decreases |cur|
    {
      FramedParts(pre, cur, len - r, post);
      assert a[ie + 6..ie + r] == a[..][ie + 6..ie + r];
      var s := GetP2pAttr(a, ie, r, id, cur);
      if s.Endless? {
        return true, r;
      }
      if s.Missing? || s.n == 0 {
        return;
      }
      DelStep(a, ie, r, s.pos, s.n, pre, cur, len - r, post);
      cur := cur[..s.pos] + cur[s.pos + s.n..];
      r := r - s.n;
    }
  }

  method DelStep(a: array<Byte>, ie: nat, len: nat, f: nat, n: nat,
                 ghost pre: seq<Byte>, ghost cur: seq<Byte>, ghost k: nat, ghost post: seq<Byte>)
    requires |pre| == ie && len == 6 + |cur| <= 257 && a[..] == Framed(pre, cur, k, post)
    requires f + n <= |cur|
    modifies a
    ensures a[..] == Framed(pre, cur[..f] + cur[f + n..], k + n, post)
  {
    hide Framed, Closed;
    ghost var b := a[..];
    FramedParts(pre, cur, k, post);
    CutFramed(pre, cur, k, post, f, n);
    CloseGap(a, ie + 6 + f, n, ie + len);
    LengthKept(b, ie + 6 + f, n, ie + len, ie + 1);
    ghost var c := a[..];
    a[ie + 1] := a[ie + 1] - n;
    assert a[..] == c[ie + 1 := (len - n - 2) as Byte];
  }

  lemma LengthKept(b: seq<Byte>, at: nat, n: nat, end: nat, i: nat)
    requires i < at && at + n <= end <= |b|
    ensures Closed(b, at, n, end)[i] == b[i]
  {
  }

  // ---------------------------------------------------------------- over all elements

  /** The list starts with what rtw_get_p2p_ie takes for a P2P element: it looks at six bytes only. */
  predicate Seen(es: seq<Element>)
    requires AllSmall(es)
  {
    var b := Encode(es);
    |b| >= 6 && b[0] == VENDOR && b[2..6] == OUI
  }

  /** P2P elements are seen, and nothing else is but vendor elements too short to have an OUI and type. */
  lemma SeenIs(es: seq<Element>)
    requires AllSmall(es) && es != []
    ensures IsP2p(es[0]) ==> Seen(es)
    ensures Seen(es) ==> IsP2p(es[0]) || |es[0].data| < 4
  {
    var e, b := es[0], Encode(es);
    if |e.data| >= 4 {
      assert b[0] == e.id && b[2..6] == e.data[..4] by { assert b == EncodeOne(e) + Encode(es[1..]); }
    }
  }

  /** The first list position seen so, or the number of elements. */
  function FirstSeen(es: seq<Element>): (r: nat)
    requires AllSmall(es)
    ensures r <= |es| && (r < |es| ==> Seen(es[r..]))
    ensures forall i {:trigger es[i..]} :: 0 <= i < r ==> !Seen(es[i..])
  {
    if es == [] then 0
    else if Seen(es) then assert es[0..] == es; 0
    else
      var r := FirstSeen(es[1..]);
      assert es[0..] == es && forall i {:trigger es[i..]} :: 1 <= i <= |es| ==> es[i..] == es[1..][i - 1..];
      1 + r
  }

  lemma FirstSeenIs(es: seq<Element>, i: nat)
    requires AllSmall(es) && i <= |es| && (i < |es| ==> Seen(es[i..]))
    requires forall j {:trigger es[j..]} :: 0 <= j < i ==> !Seen(es[j..])
    ensures FirstSeen(es) == i
  {
    hide FirstSeen, Seen;
    var found, given := es[FirstSeen(es)..], es[i..];
  }

  /** rtw_get_p2p_ie on the list of `len` bytes at `at`; -1 stands for NULL. */
  method GetP2pIe(a: array<Byte>, at: nat, len: nat, ghost es: seq<Element>) returns (p: int, n: nat)
    requires at + len <= a.Length && AllSmall(es) && a[at..at + len] == Encode(es) && len <= MAX_IE_SZ
    ensures var j := FirstSeen(es);
            if j < |es| then p == at + Pos(es, j) && n == 2 + |es[j].data| else p == -1
  {
    hide Encode, Pos, FirstSeen;
    var cnt := 0;
    ghost var k, b := 0, a[at..at + len];
    PosEnds(es);
    while cnt + 1 + 4 < len
      invariant k <= |es| && cnt == Pos(es, k)
      invariant forall j {:trigger es[j..]} :: 0 <= j < k ==> !Seen(es[j..])
      decreases |es| - k
    {
      assert cnt + 1 + 4 < MAX_IE_SZ;
      if k == |es| {
        assert false;
      }
      Layout(es, k);
      Split(es, k);
      SubSlice(b, cnt, len, 2, 6);
      SubSlice(a[..], at, at + len, cnt + 2, cnt + 6);
      assert b[cnt] == a[at + cnt] && b[cnt + 1] == a[at + cnt + 1] && b == a[..][at..at + len] && b[cnt..len] == b[cnt..];
      if a[at + cnt] == VENDOR && a[at + cnt + 2..at + cnt + 6] == OUI {
        FirstSeenIs(es, k);
        return at + cnt, a[at + cnt + 1] as nat + 2;
      }
      cnt := cnt + a[at + cnt + 1] as nat + 2;
      k := k + 1;
    }
    TooShort(es, k);
    FirstSeenIs(es, |es|);
    return -1, 0;
  }

  /** Fewer than six bytes are not looked at. */
  lemma TooShort(es: seq<Element>, k: nat)
    requires AllSmall(es) && k <= |es| && Pos(es, k) + 5 >= |Encode(es)|
    ensures forall j {:trigger es[j..]} :: k <= j < |es| ==> !Seen(es[j..])
  {
    hide Encode, Pos;
    forall j {:trigger es[j..]} | k <= j < |es| ensures !Seen(es[j..]) {
      PosMonotone(es, k, j);
      Split(es, j);
    }
  }

  lemma ElementFramed(x: seq<Byte>, e: Element, y: seq<Byte>)
    requires Small(e) && IsP2p(e) && |e.data| <= 255
    ensures x + EncodeOne(e) + y == Framed(x, e.data[4..], 0, y)
  {
  }

  lemma FramedElement(x: seq<Byte>, body: seq<Byte>, k: nat, y: seq<Byte>)
    requires |body| <= 251
    ensures Framed(x, body, k, y) == x + EncodeOne(Element(VENDOR, OUI + body)) + Zeros(k) + y
  {
  }

  /** Element `e` between `x` and `y` shrinks and `y` moves up. */
  method ShrinkElement(a: array<Byte>, p: nat, len: nat, end: nat, id: Byte, ghost x: seq<Byte>, ghost e: Element,
                       ghost y: seq<Byte>, ghost z: seq<Byte>) returns (hung: bool, n: nat)
    requires Small(e) && IsP2p(e) && p == |x| && len == 2 + |e.data| && end == p + len + |y|
    requires a[..] == x + EncodeOne(e) + (y + z)
    modifies a
    ensures hung == HangsIn(e, id)
    ensures !hung ==> Small(Left(e, id)) && n == 2 + |Left(e, id).data| <= len
    ensures !hung ==> a[..] == x + EncodeOne(Left(e, id)) + y + (Zeros(len - n) + z)
  {
    hide EncodeOne, Framed, Deleted, Closed;
    ghost var body := e.data[4..];
    ElementFramed(x, e, y + z);
    FramedParts(x, body, 0, y + z);
    assert a[..p] == a[..][..p] && a[p + len..] == a[..][p + len..];
    hung, n := DelP2pAttr(a, p, len, id, body);
    if hung {
      return;
    }
    FramedElement(x, Deleted(body, id).body, len - n, y + z);
    ghost var w := x + EncodeOne(Left(e, id));
    if n != len {
      MoveUp(w, len - n, y, z);
      CloseGap(a, p + n, len - n, end);
    } else {
      NoGap(w, y, z);
    }
  }

  lemma NoGap(w: seq<Byte>, y: seq<Byte>, z: seq<Byte>)
    ensures w + Zeros(0) + (y + z) == w + y + (Zeros(0) + z)
  {
  }

  /**
    One round of rtw_bss_ex_del_p2p_attr; the result is where the next round starts. An element of
    fewer than six bytes is refused by rtw_get_p2p_attr, so nothing happens to it.
  */
  method DelInElement(bss: Bss, p: nat, len: nat, id: Byte, ghost x: seq<Byte>, ghost e: Element, ghost y: seq<Byte>)
    returns (hung: bool, r: nat)
    requires bss.Valid() && Small(e) && (IsP2p(e) || |e.data| < 4) && p == |x| && len == 2 + |e.data|
    requires bss.Content() == x + EncodeOne(e) + y
    modifies bss`ieLength, bss.ies
    ensures hung == HangsIn(e, id)
    ensures !hung ==> bss.Valid() && Small(Left(e, id)) && r == p + 2 + |Left(e, id).data|
    ensures !hung ==> bss.Content() == x + EncodeOne(Left(e, id)) + y
  {
    hide EncodeOne, Deleted;
    if len < 6 {
      return false, p + len;
    }
    ghost var z := bss.ies[bss.ieLength..];
    assert bss.ies[..] == bss.Content() + z;
    assert bss.ies[..] == x + EncodeOne(e) + (y + z);
    var n;
    hung, n := ShrinkElement(bss.ies, p, len, bss.ieLength, id, x, e, y, z);
    r := p + n;
    if hung {
      return;
    }
    bss.ieLength := bss.ieLength - (len - n);
    ContentIs(bss.ies[..], x + EncodeOne(Left(e, id)) + y, Zeros(len - n) + z);
    assert bss.ies[..bss.ieLength] == bss.ies[..][..bss.ieLength];
  }

  lemma MoveUp(w: seq<Byte>, n: nat, y: seq<Byte>, z: seq<Byte>)
    ensures var b := w + Zeros(n) + (y + z);
            Closed(b, |w|, n, |w| + n + |y|) == w + y + (Zeros(n) + z)
  {
  }

  lemma ContentIs(a: seq<Byte>, c: seq<Byte>, z: seq<Byte>)
    requires a == c + z
    ensures a[..|c|] == c
  {
  }

  /**
    rtw_bss_ex_del_p2p_attr; `head` is 0 for a probe request and 12 otherwise. On every well-formed
    list it comes back unless some P2P element makes the deletion hang, with the list as left.
  */
  method BssDelP2pAttr(bss: Bss, id: Byte, head: nat, ghost hd: seq<Byte>, ghost es: seq<Element>) returns (hung: bool)
    requires bss.Holds(hd, es) && |hd| == head && bss.ieLength <= MAX_IE_SZ
    modifies bss`ieLength, bss.ies
    ensures hung <==> !NoneHangs(es, id)
    ensures !hung ==> bss.Holds(hd, LeftAll(es, id))
  {
    hide Encode, EncodeOne, Left, IsP2p, LeftAll, FirstSeen, HangsIn, Seen;
    var at, iesLen := head, bss.ieLength - head;
    ghost var k, done := 0, [];
    assert es[0..] == es && Encode([]) == [] by { Bss.EmptyList(); }
    while true
      invariant k <= |es| && AllSmall(done) && AllSmall(es[k..]) && NoneHangs(es[..k], id) && done == LeftAll(es[..k], id)
      invariant bss.Valid() && bss.ieLength <= MAX_IE_SZ && bss.Content() == hd + Encode(done) + Encode(es[k..])
      invariant at == head + |Encode(done)| && iesLen == |Encode(es[k..])|
      decreases |es| - k
    {
      ghost var rest := es[k..];
      assert bss.ies[at..at + iesLen] == bss.Content()[at..at + iesLen] == Encode(rest);
      var p, len := GetP2pIe(bss.ies, at, iesLen, rest);
      if p < 0 {
        SkippedAlone(rest, |rest|, id);
        LeftAllAppend(es[..k], rest, id);
        assert rest[..|rest|] == rest && es == es[..k] + rest;
        EncodeAppend(done, rest);
        assert bss.Content() == hd + (Encode(done) + Encode(rest));
        return false;
      }
      ghost var j := FirstSeen(rest);
      ghost var e := rest[j];
      NextElement(hd, done, rest, j);
      SeenIs(rest[j..]);
      assert e == es[k + j];
      var remain := bss.ieLength - (p + len);
      hung, at := DelInElement(bss, p, len, id, hd + Encode(done + rest[..j]), e, Encode(rest[j + 1..]));
      if hung {
        return;
      }
      iesLen := remain;
      DoneMore(es, id, k, j);
      ElementDone(hd, done + rest[..j], Left(e, id), rest[j + 1..]);
      done := done + rest[..j] + [Left(e, id)];
      k := k + j + 1;
      assert es[k..] == rest[j + 1..];
    }
  }

  /** What the search passes over is no P2P element. */
  lemma SkippedAlone(es: seq<Element>, j: nat, id: Byte)
    requires AllSmall(es) && j <= FirstSeen(es)
    ensures NoneHangs(es[..j], id) && LeftAll(es[..j], id) == es[..j]
  {
    hide LeftAll, HangsIn, FirstSeen, Seen, IsP2p;
    forall i | 0 <= i < j ensures !IsP2p(es[i]) {
      SeenIs(es[i..]);
    }
    LeftAlone(es[..j], id);
  }

  /** The content around the next P2P element. */
  lemma NextElement(hd: seq<Byte>, done: seq<Element>, rest: seq<Element>, j: nat)
    requires AllSmall(done) && AllSmall(rest) && j < |rest|
    ensures AllSmall(done + rest[..j]) && |Encode(done + rest[..j])| == |Encode(done)| + Pos(rest, j)
    ensures hd + Encode(done) + Encode(rest) == hd + Encode(done + rest[..j]) + EncodeOne(rest[j]) + Encode(rest[j + 1..])
  {
    hide Encode, EncodeOne;
    EncodeAppend(done, rest[..j]);
    Around(rest, j);
  }

  lemma ElementDone(hd: seq<Byte>, a: seq<Element>, e: Element, rest: seq<Element>)
    requires AllSmall(a) && Small(e) && AllSmall(rest)
    ensures AllSmall(a + [e]) && |Encode(a + [e])| == |Encode(a)| + 2 + |e.data|
    ensures hd + Encode(a) + EncodeOne(e) + Encode(rest) == hd + Encode(a + [e]) + Encode(rest)
  {
    hide Encode, EncodeOne;
    EncodeAppend(a, [e]);
    EncodeSingle(e);
  }

  lemma DoneMore(es: seq<Element>, id: Byte, k: nat, j: nat)
    requires k + j < |es| && AllSmall(es) && NoneHangs(es[..k], id)
    requires j <= FirstSeen(es[k..]) && !HangsIn(es[k + j], id)
    ensures NoneHangs(es[..k + j + 1], id)
    ensures LeftAll(es[..k], id) + es[k..][..j] + [Left(es[k + j], id)] == LeftAll(es[..k + j + 1], id)
  {
    hide LeftAll, Left, IsP2p, FirstSeen, HangsIn;
    var rest := es[k..];
    SkippedAlone(rest, j, id);
    LeftAllAppend(es[..k], rest[..j], id);
    LeftAllAppend(es[..k] + rest[..j], [es[k + j]], id);
    assert es[..k + j + 1] == es[..k] + rest[..j] + [es[k + j]];
    assert LeftAll([es[k + j]], id) == [Left(es[k + j], id)];
  }
}
