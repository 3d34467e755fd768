/**
  The PPPoE branch of nat25_db_handle on real buffers: marking a PADI or PADR with the client's
  address and unmarking the PADO or PADS that answers it, proved against the tag lists.
*/
module PppoeRelay {
  import opened SkbBuffer
  import opened PppoeTags

  /** The buffer holds discovery frame `d`, followed by any padding. */
  ghost predicate Carries(skb: Skb, d: Disc)
    reads skb, skb.buf
  {
    skb.Valid() && DiscOk(d) && Wire(d) <= skb.Frame()
  }

  ghost function TagPos(d: Disc, i: nat): (p: nat)
    requires DiscOk(d) && i <= |d.tags|
    ensures p >= 20
  {
    20 + |Encode(d.tags[..i])|
  }

  // ---------------------------------------------------------------- bytes and tags

  function Word(f: seq<Byte>, i: nat): nat
    requires i + 2 <= |f|
  {
    f[i] as nat * 256 + f[i + 1] as nat
  }

  /** The header fields in the frame. */
  lemma HeaderLayout(d: Disc, f: seq<Byte>)
    requires DiscOk(d) && Wire(d) <= f
    ensures 20 + |Encode(d.tags)| <= |f| && f[20..20 + |Encode(d.tags)|] == Encode(d.tags) && f[..18] == Prefix(d)
    ensures f[..6] == d.dst && f[6..12] == d.src && f[15] == d.code && Word(f, 18) == |Encode(d.tags)|
  {
  }

  /** The tag at position `i` in the frame. */
  lemma Layout(d: Disc, f: seq<Byte>, i: nat)
    requires DiscOk(d) && Wire(d) <= f && i < |d.tags|
    ensures var p, t := TagPos(d, i), d.tags[i];
            && p + 4 + |t.data| == TagPos(d, i + 1) <= 20 + |Encode(d.tags)| <= |f|
            && Word(f, p) == t.kind && Word(f, p + 2) == |t.data| && f[p + 4..p + 4 + |t.data|] == t.data
  {
    hide Encode, Wire, Prefix;
    HeaderLayout(d, f);
    TagLayout(d.tags, i);
    var e, p, t := Encode(d.tags), TagPos(d, i), d.tags[i];
    var n := 4 + |t.data|;
    SubSlice(f, 20, 20 + |e|, p - 20, p - 20 + n);
    assert f[p..p + n] == EncodeTag(t);
    TagParts(f[p..p + n], t);
    assert f[p + 4..p + n] == f[p..p + n][4..];
    assert f[p] == f[p..p + n][0] && f[p + 1] == f[p..p + n][1] && f[p + 2] == f[p..p + n][2] && f[p + 3] == f[p..p + n][3];
  }

  lemma TagParts(b: seq<Byte>, t: Tag)
    requires Small(t) && b == EncodeTag(t)
    ensures Word(b, 0) == t.kind && Word(b, 2) == |t.data| && b[4..] == t.data
  {
  }

  lemma TagLayout(tags: seq<Tag>, i: nat)
    requires AllSmall(tags) && i < |tags|
    ensures var a, n := |Encode(tags[..i])|, 4 + |tags[i].data|;
            && a + n == |Encode(tags[..i + 1])| <= |Encode(tags)|
            && Encode(tags)[a..a + n] == EncodeTag(tags[i])
  {
    hide EncodeTag;
    EncodeAt(tags, i);
    assert tags[..i + 1] == tags[..i] + [tags[i]];
    EncodeAppend(tags[..i], [tags[i]]);
    assert Encode([tags[i]]) == EncodeTag(tags[i]) + Encode([]);
  }

  lemma Shifted<T>(g: seq<T>, f: seq<T>, i: nat, j: nat, n: nat)
    requires i + n <= |g| && j + n <= |f|
    requires forall k {:trigger g[k]} :: i <= k < i + n ==> g[k] == f[k + (j - i)]
    ensures g[i..i + n] == f[j..j + n]
  {
  }

  lemma Glue<T>(s: seq<T>, a: nat, b: nat, c: nat)
    requires a <= b <= c <= |s|
    ensures s[a..c] == s[a..b] + s[b..c]
  {
  }

  /** The part of the frame behind the header is `a`, then `m`, then `c`. */
  ghost predicate Body(f: seq<Byte>, a: seq<Byte>, m: seq<Byte>, c: seq<Byte>) {
    && |f| >= 20 + |a| + |m| + |c|
    && f[20..20 + |a|] == a
    && f[20 + |a|..20 + |a| + |m|] == m
    && f[20 + |a| + |m|..20 + |a| + |m| + |c|] == c
  }

  lemma WireBody(d: Disc, f: seq<Byte>, a: seq<Byte>, m: seq<Byte>, c: seq<Byte>)
    requires DiscOk(d) && Encode(d.tags) == a + m + c
    ensures Wire(d) <= f ==> Body(f, a, m, c) && f[..18] == Prefix(d) && f[18..20] == Be16(|a| + |m| + |c|)
    ensures Body(f, a, m, c) && f[..18] == Prefix(d) && f[18..20] == Be16(|a| + |m| + |c|) ==> Wire(d) <= f
  {
    hide Encode, Prefix, Be16, Wire;
    if Wire(d) <= f {
      WireToBody(d, f, a, m, c);
    }
    if Body(f, a, m, c) && f[..18] == Prefix(d) && f[18..20] == Be16(|a| + |m| + |c|) {
      BodyToWire(d, f, a, m, c);
    }
  }

  lemma WireToBody(d: Disc, f: seq<Byte>, a: seq<Byte>, m: seq<Byte>, c: seq<Byte>)
    requires DiscOk(d) && Encode(d.tags) == a + m + c && Wire(d) <= f
    ensures Body(f, a, m, c) && f[..18] == Prefix(d) && f[18..20] == Be16(|a| + |m| + |c|)
  {
  }

  lemma BodyToWire(d: Disc, f: seq<Byte>, a: seq<Byte>, m: seq<Byte>, c: seq<Byte>)
    requires DiscOk(d) && Encode(d.tags) == a + m + c
    requires Body(f, a, m, c) && f[..18] == Prefix(d) && f[18..20] == Be16(|a| + |m| + |c|)
    ensures Wire(d) <= f
  {
  }

  // ---------------------------------------------------------------- the driver's steps

  method ReadWord(skb: Skb, i: nat) returns (w: nat)
    requires skb.Valid() && i + 2 <= skb.len
    ensures w == Word(skb.Frame(), i)
  {
    w := skb.At(i) as nat * 256 + skb.At(i + 1) as nat;
  }

  /** `Leaves`: the walk reads a tag header behind the end of the frame. */
  datatype Walk = Found(pos: nat) | Absent | Leaves

  /** Where the walk gets from offset `cur` of `plen` tag bytes, whatever these are. */
  function TagWalk(f: seq<Byte>, kind: nat, plen: nat, cur: nat): (w: Walk)
    ensures w.Found? ==> w.pos + 4 <= |f| && Word(f, w.pos) == kind
    decreases plen - cur
  {
    if cur >= plen then Absent
    else if 20 + cur + 4 > |f| then Leaves
    else if Word(f, 20 + cur) == kind then Found(20 + cur)
    else TagWalk(f, kind, plen, cur + 4 + Word(f, 22 + cur))
  }

  /** __nat25_find_pppoe_tag, on any frame with a PPPoE header. */
  method FindTag(skb: Skb, kind: nat) returns (w: Walk)
    requires skb.Valid() && skb.len >= 20
    ensures w == TagWalk(skb.Frame(), kind, Word(skb.Frame(), 18), 0)
  {
    hide Word;
    var plen := ReadWord(skb, 18);
    var cur := 0;
    while cur < plen
      invariant TagWalk(skb.Frame(), kind, plen, 0) == TagWalk(skb.Frame(), kind, plen, cur)
      decreases plen - cur
    {
      if 20 + cur + 4 > skb.len {
        return Leaves;
      }
      var tagType := ReadWord(skb, 20 + cur);
      var tagLen := ReadWord(skb, 22 + cur);
      if tagType == kind {
        return Found(20 + cur);
      }
      cur := cur + 4 + tagLen;
    }
    return Absent;
  }

  /** On a well-formed tag list the walk finds the first tag of the kind, and stays in the frame. */
  lemma WalkFinds(d: Disc, f: seq<Byte>, kind: nat)
    requires DiscOk(d) && Wire(d) <= f
    ensures |f| >= 20 && Word(f, 18) == |Encode(d.tags)|
    ensures var i := First(d.tags, kind);
            TagWalk(f, kind, |Encode(d.tags)|, 0) == if i < |d.tags| then Found(TagPos(d, i)) else Absent
  {
    hide Wire, Prefix, EncodeTag, First, Encode, Word;
    HeaderLayout(d, f);
    NoTags(d);
    WalkFrom(d, f, kind, 0);
  }

  lemma {:induction false} WalkFrom(d: Disc, f: seq<Byte>, kind: nat, k: nat)
    requires DiscOk(d) && Wire(d) <= f && k <= First(d.tags, kind)
    ensures var i := First(d.tags, kind);
            TagWalk(f, kind, |Encode(d.tags)|, TagPos(d, k) - 20) == if i < |d.tags| then Found(TagPos(d, i)) else Absent
    decreases |d.tags| - k
  {
    hide Wire, Prefix, EncodeTag, First, Encode, Word;
    LastTag(d, k);
    if k < |d.tags| {
      Layout(d, f, k);
      if k < First(d.tags, kind) {
        WalkFrom(d, f, kind, k + 1);
      }
    }
  }

  lemma NoTags(d: Disc)
    requires DiscOk(d)
    ensures TagPos(d, 0) == 20 && (|Encode(d.tags)| > 0 <==> d.tags != [])
  {
  }

  /** The end of the tags is reached exactly with the last tag. */
  lemma LastTag(d: Disc, i: nat)
    requires DiscOk(d) && i <= |d.tags|
    ensures TagPos(d, i) - 20 < |Encode(d.tags)| <==> i < |d.tags|
  {
    hide EncodeTag;
    if i == |d.tags| {
      assert d.tags[..i] == d.tags;
    } else {
      EncodeAt(d.tags, i);
    }
  }

  /** Deleting the first tag of kind RELAY from the buffer, header length included. */
  method DeleteTag(skb: Skb, pos: nat, ghost d: Disc, ghost i: nat) returns (ghost d': Disc)
    requires Carries(skb, d) && i < |d.tags| && pos == TagPos(d, i)
    modifies skb`len, skb.buf
    ensures d' == d.(tags := d.tags[..i] + d.tags[i + 1..]) && Carries(skb, d')
    ensures skb.len == old(skb.len) - 4 - |d.tags[i].data|
  {
    hide Wire, Prefix, EncodeTag, Encode, Word, TagPos, Be16, Skb.Frame;
    ghost var f := skb.Frame();
    Layout(d, f, i);
    HeaderLayout(d, f);
    var n := ReadWord(skb, pos + 2);
    var plen := ReadWord(skb, 18);
    var ret := skb.PullAndMerge(pos, 4 + n);
    ghost var cut := skb.Frame();
    d' := d.(tags := d.tags[..i] + d.tags[i + 1..]);
    skb.Write(18, Be16(plen - 4 - n));
    Deleted(d, i, f, cut, skb.Frame());
  }

  /** Cutting `n` bytes out at `p` and rewriting the length field, slice by slice. */
  lemma CutSlices(f: seq<Byte>, cut: seq<Byte>, g: seq<Byte>, w: seq<Byte>, p: nat, n: nat, c: nat)
    requires 20 <= p && p + n + c <= |f| && |w| == 2
    requires cut == f[..p] + f[p + n..] && g == cut[..18] + w + cut[20..]
    ensures |g| == |f| - n && g[..18] == f[..18] && g[18..20] == w
    ensures g[20..p] == f[20..p] && g[p..p + c] == f[p + n..p + n + c]
  {
    assert forall k :: 0 <= k < |g| && !(18 <= k < 20) ==> g[k] == cut[k];
    Shifted(g, f, 20, 20, p - 20);
    Shifted(g, f, p, p + n, c);
  }

  /** Cutting a tag out of the bytes and rewriting the length gives the frame without the tag. */
  lemma Deleted(d: Disc, i: nat, f: seq<Byte>, cut: seq<Byte>, g: seq<Byte>)
    requires DiscOk(d) && i < |d.tags| && Wire(d) <= f && TagPos(d, i + 1) <= |f|
    requires var p, n := TagPos(d, i), 4 + |d.tags[i].data|;
             && p + n == TagPos(d, i + 1) && n <= |Encode(d.tags)| < 0x10000
             && cut == f[..p] + f[p + n..]
             && g == cut[..18] + Be16(|Encode(d.tags)| - n) + cut[20..]
    ensures DiscOk(d.(tags := d.tags[..i] + d.tags[i + 1..])) && Wire(d.(tags := d.tags[..i] + d.tags[i + 1..])) <= g
  {
    hide Encode, Prefix, Be16, EncodeTag, Wire;
    var d' := d.(tags := d.tags[..i] + d.tags[i + 1..]);
    var a, m, c := Encode(d.tags[..i]), EncodeTag(d.tags[i]), Encode(d.tags[i + 1..]);
    DeletedTags(d, i);
    SamePrefix(d, d');
    WireBody(d, f, a, m, c);
    CutSlices(f, cut, g, Be16(|Encode(d.tags)| - |m|), 20 + |a|, |m|, |c|);
    WireBody(d', g, a, [], c);
  }

  lemma SamePrefix(d: Disc, d': Disc)
    requires |d.dst| == 6 && |d.src| == 6 && |d.proto| == 2 && d.sid < 0x10000 && d' == d.(tags := d'.tags)
    ensures Prefix(d') == Prefix(d)
  {
  }

  lemma DeletedTags(d: Disc, i: nat)
    requires DiscOk(d) && i < |d.tags|
    ensures DiscOk(d.(tags := d.tags[..i] + d.tags[i + 1..]))
    ensures Encode(d.tags) == Encode(d.tags[..i]) + EncodeTag(d.tags[i]) + Encode(d.tags[i + 1..])
    ensures Encode(d.tags[..i] + d.tags[i + 1..]) == Encode(d.tags[..i]) + [] + Encode(d.tags[i + 1..])
  {
    hide EncodeTag;
    EncodeAt(d.tags, i);
    EncodeAppend(d.tags[..i], d.tags[i + 1..]);
  }

  // ---------------------------------------------------------------- adding a tag

  /** `Overread`: the tag goes out, followed by bytes from behind the driver's tag buffer. */
  datatype Outcome = Done | Refused | Overread

  /** The network-order length field as the host reads it without converting. */
  function HostWord(n: nat, littleEndian: bool): nat
    requires n < 0x10000
  {
    if littleEndian then (n % 256) * 256 + n / 256 else n
  }

  /** The frame holds the addresses and header of `d`, a length field for `body` and then `body`. */
  ghost predicate CarriesBody(skb: Skb, d: Disc, body: seq<Byte>)
    reads skb, skb.buf
  {
    && skb.Valid() && DiscOk(d) && 20 + |body| <= skb.len
    && skb.Frame()[..18] == Prefix(d)
    && skb.Frame()[18..20] == Be16(|body| % 0x10000)
    && skb.Frame()[20..20 + |body|] == body
  }

  /** The `n` bytes copied when the tag buffer is followed in memory by `beyond`. */
  function Copied(t: Tag, n: nat, beyond: nat -> Byte): (b: seq<Byte>)
    requires Small(t) && 4 + |t.data| <= n
    ensures |b| == n
  {
    EncodeTag(t) + seq<Byte>(n - 4 - |t.data|, beyond)
  }

  /**
    __nat25_add_pppoe_tag; the length of the new tag is read without byte swapping. `beyond` are the
    bytes in memory behind the tag, which are copied too if that length comes out too large.
  */
  method AddTag(skb: Skb, t: Tag, littleEndian: bool, beyond: nat -> Byte, ghost d: Disc) returns (o: Outcome, ghost d': Disc)
    requires Carries(skb, d) && Small(t) && 4 + |t.data| <= TAG_BUF
    requires |Encode(d.tags)| + 4 + |t.data| < 0x10000 - TAG_BUF
    modifies skb`len, skb.buf
    ensures var n := 4 + HostWord(|t.data|, littleEndian);
            && 4 + |t.data| <= n
            && o == (if old(skb.Tailroom()) < n then Refused else if n > 4 + |t.data| then Overread else Done)
            && skb.len == old(skb.len) + (if o.Refused? then 0 else n)
            && (o.Overread? ==> d' == d && CarriesBody(skb, d, Copied(t, n, beyond) + Encode(d.tags)))
    ensures o.Done? ==> d' == d.(tags := [t] + d.tags) && Carries(skb, d')
    ensures o.Refused? ==> d' == d && Carries(skb, d)
  {
    hide Wire, Prefix, EncodeTag, Encode, Word, Be16, Skb.Frame;
    d' := d;
    var n := HostWord(|t.data|, littleEndian) + 4;
    if skb.Tailroom() < n {
      return Refused, d;
    }
    PutFront(skb, Copied(t, n, beyond), d);
    if n == 4 + |t.data| {
      assert Copied(t, n, beyond) == EncodeTag(t);
      FrontWire(d, t, skb.Frame());
      return Done, d.(tags := [t] + d.tags);
    }
    return Overread, d;
  }

  /** The moves and copies of __nat25_add_pppoe_tag put `bytes` in front of the tags. */
  method PutFront(skb: Skb, bytes: seq<Byte>, ghost d: Disc)
    requires Carries(skb, d) && |bytes| <= skb.Tailroom()
    modifies skb`len, skb.buf
    ensures skb.len == old(skb.len) + |bytes| && CarriesBody(skb, d, bytes + Encode(d.tags))
  {
    hide Wire, Prefix, EncodeTag, Encode, Word, Be16, Skb.Frame, MovedBytes;
    var n := |bytes|;
    ghost var f, e := skb.Frame(), Encode(d.tags);
    HeaderLayout(d, f);
    var plen := ReadWord(skb, 18);
    skb.Put(n);
    ghost var f1 := skb.Frame();
    skb.MemMove(20 + n, 20, plen);
    ghost var f2 := skb.Frame();
    skb.Write(18, Be16((plen + n) % 0x10000));
    ghost var f3 := skb.Frame();
    skb.Write(20, bytes);
    AddSlices(f, f1, f2, f3, skb.Frame(), Be16((plen + n) % 0x10000), bytes, |e|);
    Glue(skb.Frame(), 20, 20 + n, 20 + n + |e|);
    assert |bytes + e| == n + |e|;
  }

  /** With the tag and the old tags as its body, the frame is that of the longer list. */
  lemma FrontWire(d: Disc, t: Tag, f: seq<Byte>)
    requires DiscOk(d) && Small(t) && |Encode(d.tags)| + 4 + |t.data| < 0x10000 - TAG_BUF
    requires var body := EncodeTag(t) + Encode(d.tags);
             && |f| >= 20 + |body| && f[..18] == Prefix(d) && f[18..20] == Be16(|body|) && f[20..20 + |body|] == body
    ensures DiscOk(d.(tags := [t] + d.tags)) && Wire(d.(tags := [t] + d.tags)) <= f
  {
    hide Encode, Prefix, Be16, EncodeTag, Wire;
    var d' := d.(tags := [t] + d.tags);
    FrontTag(d.tags, t);
    SamePrefix(d, d');
    BodyToWire(d', f, [], [], Encode(d'.tags));
  }

  lemma FrontTag(tags: seq<Tag>, t: Tag)
    requires AllSmall(tags) && Small(t)
    ensures AllSmall([t] + tags) && Encode([t] + tags) == EncodeTag(t) + Encode(tags) == [] + EncodeTag(t) + Encode(tags)
    ensures Encode(tags) == [] + [] + Encode(tags)
  {
  }

  lemma AddSlices(f: seq<Byte>, f1: seq<Byte>, f2: seq<Byte>, f3: seq<Byte>, g: seq<Byte>, w: seq<Byte>, t: seq<Byte>, e: nat)
    requires |w| == 2 && 20 + e <= |f| && |f1| == |f| + |t| && f <= f1
    requires f2 == MovedBytes(f1, 20 + |t|, 20, e) && f3 == f2[..18] + w + f2[20..] && g == f3[..20] + t + f3[20 + |t|..]
    ensures |g| == |f| + |t| && g[..18] == f[..18] && g[18..20] == w
    ensures g[20..20 + |t|] == t && g[20 + |t|..20 + |t| + e] == f[20..20 + e]
  {
    hide MovedBytes;
    var n, m := |t|, 20 + |t| + e;
    assert f1[..18] == f[..18] && f1[20..20 + e] == f[20..20 + e];
    assert f2 == Patch(f1, 20 + n, f1[20..20 + e]) by { MovedIsPatch(f1, 20 + n, 20, e); }
    assert f3 == Patch(f2, 18, w) && g == Patch(f3, 20, t);
    hide Patch;
    Patched(f1, 20 + n, f1[20..20 + e], 0, 18);
    Patched(f2, 18, w, 0, 18);
    Patched(f3, 20, t, 0, 18);
    Patched(f3, 20, t, 18, 20);
    Patched(f2, 18, w, 20 + n, m);
    Patched(f3, 20, t, 20 + n, m);
    assert g[..18] == g[0..18] && f1[..18] == f1[0..18];
  }

  lemma MovedIsPatch(b: seq<Byte>, dst: nat, src: nat, n: nat)
    requires dst + n <= |b| && src + n <= |b|
    ensures MovedBytes(b, dst, src, n) == Patch(b, dst, b[src..src + n])
  {
  }

  /** Overwriting some bytes: those bytes, and a stretch i..j before or behind them. */
  lemma Patched(b: seq<Byte>, at: nat, x: seq<Byte>, i: nat, j: nat)
    requires at + |x| <= |b| && i <= j <= |b| && (j <= at || at + |x| <= i)
    ensures var p := Patch(b, at, x); |p| == |b| && p[at..at + |x|] == x && p[i..j] == b[i..j]
  {
  }

  // ---------------------------------------------------------------- requests

  /** Is there tail room for the marked tag, counting what removing the old one gives back? */
  predicate Roomy(tags: seq<Tag>, tailroom: int) {
    tailroom >= if Relay(tags) == [] then 12 else 8
  }

  method CopyOut(skb: Skb, at: nat, n: nat) returns (b: seq<Byte>)
    requires skb.Valid() && at + n <= skb.len
    ensures b == skb.Frame()[at..at + n]
  {
    b := skb.buf[skb.off + at..skb.off + at + n];
    assert forall k :: 0 <= k < n ==> b[k] == skb.Frame()[at + k];
  }

  /** Tail room for the tag with the length a little-endian host takes it to have. */
  predicate VeryRoomy(tags: seq<Tag>, tailroom: int) {
    tailroom >= 4 + 256 * (8 + |OldData(tags)|) - if Relay(tags) == [] then 0 else 4 + |OldData(tags)|
  }

  /** The PADI/PADR branch of NAT25_INSERT with relay tagging on. */
  method MarkRequest(skb: Skb, littleEndian: bool, beyond: nat -> Byte, ghost d: Disc) returns (o: Outcome, ghost d': Disc)
    requires Carries(skb, d) && |Encode(d.tags)| < 0x10000 - 2 * TAG_BUF
    modifies skb`len, skb.buf
    ensures o.Done? <==> Fits(d.tags) && !littleEndian && Roomy(d.tags, old(skb.Tailroom()))
    ensures o.Overread? <==> Fits(d.tags) && littleEndian && VeryRoomy(d.tags, old(skb.Tailroom()))
    ensures d' == d.(tags := if o.Done? then Outgoing(d.tags, d.src)
                             else if Fits(d.tags) then WithoutRelay(d.tags)
                             else d.tags)
    ensures !o.Overread? ==> Carries(skb, d')
    ensures o.Overread? ==>
              && DiscOk(d') && |d.src| == 6 && Small(MarkedTag(d.src, OldData(d.tags)))
              && CarriesBody(skb, d', Copied(MarkedTag(d.src, OldData(d.tags)), 4 + 256 * (8 + |OldData(d.tags)|), beyond)
                                      + Encode(d'.tags))
  {
    hide Wire, Prefix, EncodeTag, Encode, Word, Be16, Skb.Frame, First, Relay, OldData, WithoutRelay, Copied;
    HeaderLayout(d, skb.Frame());
    RelayIsOld(d.tags);
    var mac := CopyOut(skb, 6, 6);
    var fits, earlier;
    fits, earlier, d' := TakeRelay(skb, d);
    SwappedLength(8 + |earlier|);
    hide HostWord, CarriesBody;
    if !fits {
      return Refused, d;
    }
    o, d' := AddTag(skb, MarkedTag(mac, earlier), littleEndian, beyond, d');
  }

  lemma SwappedLength(n: nat)
    requires n < 0x10000
    ensures n < 256 ==> HostWord(n, true) == 256 * n
    ensures HostWord(n, false) == n
  {
  }

  /** The old relay tag, if there is one and it fits, is copied out and deleted. */
  method TakeRelay(skb: Skb, ghost d: Disc) returns (fits: bool, earlier: seq<Byte>, ghost d': Disc)
    requires Carries(skb, d)
    modifies skb`len, skb.buf
    ensures fits == Fits(d.tags) && Carries(skb, d')
    ensures d' == d.(tags := if fits then WithoutRelay(d.tags) else d.tags)
    ensures |Encode(d'.tags)| <= |Encode(d.tags)|
    ensures fits ==> earlier == OldData(d.tags)
    ensures |earlier| < 0x10000 - TAG_BUF
    ensures skb.len == old(skb.len) - if fits && Relay(d.tags) != [] then 4 + |OldData(d.tags)| else 0
  {
    hide Wire, Prefix, EncodeTag, Encode, Word, Be16, Skb.Frame, First;
    ghost var f, i := skb.Frame(), First(d.tags, RELAY);
    d', fits, earlier := d, true, [];
    WalkFinds(d, f, RELAY);
    var w := FindTag(skb, RELAY);
    if w.Found? {
      var pos := w.pos;
      Layout(d, f, i);
      var n := ReadWord(skb, pos + 2);
      if n + 4 + 2 + 6 > TAG_BUF {
        return false, [], d;
      }
      earlier := CopyOut(skb, pos + 4, n);
      d' := DeleteTag(skb, pos, d, i);
      DeletedTags(d, i);
    }
  }

  // ---------------------------------------------------------------- replies

  /** Overwriting the destination address. */
  lemma NewDst(d: Disc, f: seq<Byte>, mac: seq<Byte>)
    requires DiscOk(d) && Wire(d) <= f && |mac| == 6
    ensures |f| >= 20 && DiscOk(d.(dst := mac)) && Wire(d.(dst := mac)) <= f[..0] + mac + f[6..]
  {
  }

  /** Removing the eight marking bytes from the relay tag and correcting both length fields. */
  method ShrinkTag(skb: Skb, pos: nat, ghost d: Disc, ghost i: nat) returns (ghost d': Disc)
    requires Carries(skb, d) && i < |d.tags| && pos == TagPos(d, i) && |d.tags[i].data| > 8
    modifies skb`len, skb.buf
    ensures d' == d.(tags := d.tags[..i] + [Tag(d.tags[i].kind, d.tags[i].data[8..])] + d.tags[i + 1..]) && Carries(skb, d')
  {
    hide Wire, Prefix, EncodeTag, Encode, Word, TagPos, Be16, Skb.Frame;
    ghost var f := skb.Frame();
    Layout(d, f, i);
    HeaderLayout(d, f);
    var n := ReadWord(skb, pos + 2);
    var plen := ReadWord(skb, 18);
    var ret := skb.PullAndMerge(pos + 4, 8);
    ghost var f1 := skb.Frame();
    skb.Write(18, Be16(plen - 8));
    ghost var f2 := skb.Frame();
    skb.Write(pos + 2, Be16(n - 8));
    d' := d.(tags := d.tags[..i] + [Tag(d.tags[i].kind, d.tags[i].data[8..])] + d.tags[i + 1..]);
    Shrunk(d, i, f, f1, f2, skb.Frame());
  }

  lemma ShrunkTags(d: Disc, i: nat)
    requires DiscOk(d) && i < |d.tags| && |d.tags[i].data| > 8
    ensures var t' := Tag(d.tags[i].kind, d.tags[i].data[8..]);
            && DiscOk(d.(tags := d.tags[..i] + [t'] + d.tags[i + 1..]))
            && Small(t') && AllSmall(d.tags[..i]) && AllSmall(d.tags[i + 1..])
            && Encode(d.tags) == Encode(d.tags[..i]) + EncodeTag(d.tags[i]) + Encode(d.tags[i + 1..])
            && Encode(d.tags[..i] + [t'] + d.tags[i + 1..]) == Encode(d.tags[..i]) + EncodeTag(t') + Encode(d.tags[i + 1..])
  {
    hide EncodeTag;
    var t' := Tag(d.tags[i].kind, d.tags[i].data[8..]);
    EncodeAt(d.tags, i);
    EncodeAppend(d.tags[..i], [t']);
    EncodeAppend(d.tags[..i] + [t'], d.tags[i + 1..]);
    assert Encode([t']) == EncodeTag(t') + Encode([]);
  }

  lemma Shrunk(d: Disc, i: nat, f: seq<Byte>, f1: seq<Byte>, f2: seq<Byte>, g: seq<Byte>)
    requires DiscOk(d) && i < |d.tags| && Wire(d) <= f && |d.tags[i].data| > 8 && TagPos(d, i + 1) <= |f|
    requires var p, n, e := TagPos(d, i), |d.tags[i].data|, |Encode(d.tags)|;
             && p + 4 + n == TagPos(d, i + 1) && 8 <= e < 0x10000
             && f1 == f[..p + 4] + f[p + 12..]
             && f2 == f1[..18] + Be16(e - 8) + f1[20..]
             && g == f2[..p + 2] + Be16(n - 8) + f2[p + 4..]
    ensures var d' := d.(tags := d.tags[..i] + [Tag(d.tags[i].kind, d.tags[i].data[8..])] + d.tags[i + 1..]);
            DiscOk(d') && Wire(d') <= g
  {
    hide Encode, Prefix, Be16, EncodeTag, Wire;
    var t, t' := d.tags[i], Tag(d.tags[i].kind, d.tags[i].data[8..]);
    var d' := d.(tags := d.tags[..i] + [t'] + d.tags[i + 1..]);
    var a, c := Encode(d.tags[..i]), Encode(d.tags[i + 1..]);
    var n, e := |t.data|, |Encode(d.tags)|;
    ShrunkTags(d, i);
    SamePrefix(d, d');
    WireBody(d, f, a, EncodeTag(t), c);
    var p := 20 + |a|;
    ShrinkBytes(f, f1, f2, g, Be16(e - 8), Be16(n - 8), p);
    ShrinkSlices(f, g, Be16(e - 8), Be16(n - 8), p, n, |c|);
    TagHead(t, t', f, g, p);
    WireBody(d', g, a, EncodeTag(t'), c);
  }

  lemma TagHead(t: Tag, t': Tag, f: seq<Byte>, g: seq<Byte>, p: nat)
    requires Small(t) && |t.data| > 8 && t' == Tag(t.kind, t.data[8..])
    requires var n := |t.data|;
             && p + 4 + n <= |f| && p + n - 4 <= |g| && f[p..p + 4 + n] == EncodeTag(t)
             && g[p..p + 2] == f[p..p + 2] && g[p + 2..p + 4] == Be16(n - 8) && g[p + 4..p + n - 4] == f[p + 12..p + 4 + n]
    ensures g[p..p + |t.data| - 4] == EncodeTag(t')
  {
    hide Be16;
    var n := |t.data|;
    SubSlice(f, p, p + 4 + n, 0, 2);
    SubSlice(f, p, p + 4 + n, 12, 4 + n);
    assert EncodeTag(t)[0..2] == Be16(t.kind) && EncodeTag(t)[12..4 + n] == t.data[8..];
    Glue(g, p, p + 2, p + 4);
    Glue(g, p, p + 4, p + n - 4);
  }

  /** The frame after the shrink, byte by byte. */
  lemma ShrinkBytes(f: seq<Byte>, f1: seq<Byte>, f2: seq<Byte>, g: seq<Byte>, w: seq<Byte>, v: seq<Byte>, p: nat)
    requires |w| == 2 && |v| == 2 && 20 <= p && p + 12 <= |f|
    requires f1 == f[..p + 4] + f[p + 12..] && f2 == f1[..18] + w + f1[20..] && g == f2[..p + 2] + v + f2[p + 4..]
    ensures |g| == |f| - 8 && g[18] == w[0] && g[19] == w[1] && g[p + 2] == v[0] && g[p + 3] == v[1]
    ensures forall k {:trigger g[k]} :: 0 <= k < p + 2 && !(18 <= k < 20) ==> g[k] == f[k]
    ensures forall k {:trigger g[k]} :: p + 4 <= k < |g| ==> g[k] == f[k + 8]
  {
  }

  lemma ShrinkSlices(f: seq<Byte>, g: seq<Byte>, w: seq<Byte>, v: seq<Byte>, p: nat, n: nat, c: nat)
    requires |w| == 2 && |v| == 2 && 20 <= p && n > 8 && p + 4 + n + c <= |f|
    requires |g| == |f| - 8 && g[18] == w[0] && g[19] == w[1] && g[p + 2] == v[0] && g[p + 3] == v[1]
    requires forall k {:trigger g[k]} :: 0 <= k < p + 2 && !(18 <= k < 20) ==> g[k] == f[k]
    requires forall k {:trigger g[k]} :: p + 4 <= k < |g| ==> g[k] == f[k + 8]
    ensures g[..18] == f[..18] && g[18..20] == w && g[20..p] == f[20..p]
    ensures g[p..p + 2] == f[p..p + 2] && g[p + 2..p + 4] == v && g[p + 4..p + n - 4] == f[p + 12..p + 4 + n]
    ensures g[p + n - 4..p + n - 4 + c] == f[p + 4 + n..p + 4 + n + c]
  {
  }

  /** The PADO/PADS branch of NAT25_LOOKUP with relay tagging on. */
  method UnmarkReply(skb: Skb, ghost d: Disc) returns (ret: int, ghost d': Disc)
    requires Carries(skb, d)
    modifies skb`len, skb.buf
    ensures ret == if Recognised(d.tags) then 0 else -1
    ensures Carries(skb, d')
    ensures d' == if Recognised(d.tags) then d.(dst := Incoming(d.tags).1, tags := Incoming(d.tags).0) else d
  {
    hide Wire, Prefix, EncodeTag, Encode, Word, Be16, Skb.Frame, First;
    ghost var f, i := skb.Frame(), First(d.tags, RELAY);
    d' := d;
    WalkFinds(d, f, RELAY);
    var w := FindTag(skb, RELAY);
    if !w.Found? {
      return -1, d;
    }
    var pos := w.pos;
    Layout(d, f, i);
    var n := ReadWord(skb, pos + 2);
    if n < 8 {
      return -1, d;
    }
    var data := CopyOut(skb, pos + 4, 8);
    SubSlice(f, pos + 4, pos + 4 + n, 0, 8);
    assert data == d.tags[i].data[0..8];
    if data[..2] != MAGIC {
      assert d.tags[i].data[..2] == data[..2];
      return -1, d;
    }
    skb.Write(0, data[2..]);
    NewDst(d, f, data[2..]);
    ghost var d1 := d.(dst := data[2..]);
    assert TagPos(d1, i) == TagPos(d, i);
    if n > 8 {
      d' := ShrinkTag(skb, pos, d1, i);
    } else {
      d' := DeleteTag(skb, pos, d1, i);
    }
    return 0, d';
  }
}
