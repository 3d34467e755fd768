/**
  PPPoE discovery tags as values: their wire form, the relay tag that carries the client's MAC
  address towards the access concentrator, and its way back (RFC 2516, Appendix A).
*/
module PppoeTags {
  import opened SkbBuffer

  const RELAY: nat := 0x0110
  const MAGIC: seq<Byte> := [0x81, 0x86]
  const TAG_BUF: nat := 40

  datatype Option<T> = None | Some(value: T)

  datatype Tag = Tag(kind: nat, data: seq<Byte>)

  predicate Small(t: Tag) {
    t.kind < 0x10000 && |t.data| < 0x10000
  }

  predicate AllSmall(tags: seq<Tag>) {
    forall i :: 0 <= i < |tags| ==> Small(tags[i])
  }

  function Be16(n: nat): (b: seq<Byte>)
    requires n < 0x10000
    ensures |b| == 2 && (b[0] as int) * 256 + b[1] as int == n
  {
    [n / 256, n % 256]
  }

  function EncodeTag(t: Tag): (b: seq<Byte>)
    requires Small(t)
    ensures |b| == 4 + |t.data|
  {
    Be16(t.kind) + Be16(|t.data|) + t.data
  }

  function Encode(tags: seq<Tag>): seq<Byte>
    requires AllSmall(tags)
  {
    if tags == [] then [] else EncodeTag(tags[0]) + Encode(tags[1..])
  }

  lemma {:induction false} EncodeAppend(a: seq<Tag>, b: seq<Tag>)
    requires AllSmall(a) && AllSmall(b)
    ensures AllSmall(a + b) && Encode(a + b) == Encode(a) + Encode(b)
  {
    hide EncodeTag;
    if a == [] {
      assert a + b == b;
    } else {
      EncodeAppend(a[1..], b);
      assert (a + b)[1..] == a[1..] + b;
      assert Encode(a + b) == EncodeTag(a[0]) + (Encode(a[1..]) + Encode(b));
    }
  }

  /** The wire form around tag `i`. */
  lemma EncodeAt(tags: seq<Tag>, i: nat)
    requires AllSmall(tags) && i < |tags|
    ensures AllSmall(tags[..i]) && AllSmall(tags[i + 1..])
    ensures Encode(tags) == Encode(tags[..i]) + EncodeTag(tags[i]) + Encode(tags[i + 1..])
  {
    hide EncodeTag, Encode;
    EncodeAppend(tags[..i], [tags[i]]);
    EncodeAppend(tags[..i] + [tags[i]], tags[i + 1..]);
    EncodeSingle(tags[i]);
    assert tags == tags[..i] + [tags[i]] + tags[i + 1..];
  }

  lemma EncodeSingle(t: Tag)
    requires Small(t)
    ensures AllSmall([t]) && Encode([t]) == EncodeTag(t)
  {
  }

  // ---------------------------------------------------------------- the relay tag

  /** Position of the first tag of this kind, or the number of tags. */
  function First(tags: seq<Tag>, kind: nat): (r: nat)
    ensures r <= |tags|
    ensures r < |tags| ==> tags[r].kind == kind
    ensures forall i :: 0 <= i < r ==> tags[i].kind != kind
  {
    if tags == [] then 0 else if tags[0].kind == kind then 0 else 1 + First(tags[1..], kind)
  }

  /** The relay tags of a request: none or one (the first is the one that counts). */
  function Relay(tags: seq<Tag>): seq<Tag> {
    var i := First(tags, RELAY);
    if i < |tags| then [tags[i]] else []
  }

  function WithoutRelay(tags: seq<Tag>): seq<Tag> {
    var i := First(tags, RELAY);
    if i < |tags| then tags[..i] + tags[i + 1..] else tags
  }

  function OldData(tags: seq<Tag>): seq<Byte> {
    var i := First(tags, RELAY);
    if i < |tags| then tags[i].data else []
  }

  /** The tag the bridge puts in front of a PADI or PADR from client `mac`. */
  function MarkedTag(mac: seq<Byte>, earlier: seq<Byte>): Tag {
    Tag(RELAY, MAGIC + mac + earlier)
  }

  /** The old tag must fit the driver's work buffer together with the mark. */
  predicate Fits(tags: seq<Tag>) {
    |OldData(tags)| + 4 + 2 + 6 <= TAG_BUF
  }

  /** Exactly a request whose first relay tag holds more than 28 bytes is refused. */
  lemma FitsIff(tags: seq<Tag>)
    ensures Fits(tags) <==>
            forall i :: 0 <= i < |tags| && tags[i].kind == RELAY && (forall j :: 0 <= j < i ==> tags[j].kind != RELAY)
                        ==> |tags[i].data| <= 28
  {
    hide First;
    forall i | 0 <= i < |tags| && tags[i].kind == RELAY && forall j :: 0 <= j < i ==> tags[j].kind != RELAY
      ensures First(tags, RELAY) == i
    {
      FirstIs(tags, RELAY, i);
    }
  }

  function Outgoing(tags: seq<Tag>, mac: seq<Byte>): seq<Tag> {
    [MarkedTag(mac, OldData(tags))] + WithoutRelay(tags)
  }

  /** What the bridge accepts in a PADO or PADS: a marked relay tag. */
  predicate Recognised(tags: seq<Tag>) {
    var i := First(tags, RELAY);
    i < |tags| && |tags[i].data| >= 8 && tags[i].data[..2] == MAGIC
  }

  /** The tags handed to the client, and the client's address. */
  function Incoming(tags: seq<Tag>): (seq<Tag>, seq<Byte>)
    requires Recognised(tags)
  {
    var i := First(tags, RELAY);
    var d := tags[i].data;
    (tags[..i] + (if |d| > 8 then [Tag(RELAY, d[8..])] else []) + tags[i + 1..], d[2..8])
  }

  lemma FirstIs(tags: seq<Tag>, kind: nat, i: nat)
    requires i < |tags| && tags[i].kind == kind && forall j :: 0 <= j < i ==> tags[j].kind != kind
    ensures First(tags, kind) == i
  {
  }

  lemma MarkedParts(mac: seq<Byte>, earlier: seq<Byte>)
    requires |mac| == 6
    ensures var d := MarkedTag(mac, earlier).data; |d| >= 8 && d[..2] == MAGIC && d[2..8] == mac && d[8..] == earlier
  {
  }

  /** Echoing a marked tag: the client's address and whatever followed it in the tag come back. */
  lemma EchoComesBack(mac: seq<Byte>, earlier: seq<Byte>, before: seq<Tag>, after: seq<Tag>)
    requires |mac| == 6 && First(before, RELAY) == |before|
    ensures var reply := before + [MarkedTag(mac, earlier)] + after;
            && Recognised(reply)
            && Incoming(reply) == (before + (if earlier == [] then [] else [Tag(RELAY, earlier)]) + after, mac)
  {
    hide First;
    var reply := before + [MarkedTag(mac, earlier)] + after;
    assert reply[|before|] == MarkedTag(mac, earlier);
    assert forall i :: 0 <= i < |before| ==> reply[i] == before[i];
    FirstIs(reply, RELAY, |before|);
    MarkedParts(mac, earlier);
    assert reply[..|before|] == before && reply[|before| + 1..] == after;
  }

  /**
    A reply that echoes the marked tag at any position gives the client its own address and, in
    that position, the relay tag it had sent; exactly an empty relay tag does not come back.
  */
  lemma RelayRoundTrip(tags: seq<Tag>, mac: seq<Byte>, before: seq<Tag>, after: seq<Tag>)
    requires |mac| == 6 && First(before, RELAY) == |before|
    ensures var reply := before + [Outgoing(tags, mac)[0]] + after;
            && Recognised(reply)
            && Incoming(reply).1 == mac
            && (Incoming(reply).0 == before + Relay(tags) + after <==> Relay(tags) == [] || OldData(tags) != [])
            && (Relay(tags) != [] && OldData(tags) == [] ==> Incoming(reply).0 == before + after)
  {
    hide First, Recognised, Incoming, MarkedTag, WithoutRelay;
    var earlier := OldData(tags);
    assert Outgoing(tags, mac)[0] == MarkedTag(mac, earlier);
    EchoComesBack(mac, earlier, before, after);
    RelayIsOld(tags);
    hide Relay, OldData, Outgoing;
    if Relay(tags) == [] {
      assert before + [] + after == before + Relay(tags) + after;
    } else {
      Shorter(before, after, Relay(tags)[0]);
    }
  }

  lemma Shorter(before: seq<Tag>, after: seq<Tag>, t: Tag)
    ensures before + [] + after == before + after != before + [t] + after
  {
  }

  lemma RelayIsOld(tags: seq<Tag>)
    ensures if Relay(tags) == [] then OldData(tags) == [] else Relay(tags) == [Tag(RELAY, OldData(tags))]
  {
  }

  /** Every other tag of a request goes out unchanged and in order. */
  lemma OthersKept(tags: seq<Tag>, mac: seq<Byte>)
    ensures Outgoing(tags, mac)[1..] == WithoutRelay(tags)
    ensures Relay(tags) == [] ==> WithoutRelay(tags) == tags
    ensures Relay(tags) != [] ==> exists i :: 0 <= i < |tags| && tags == WithoutRelay(tags)[..i] + Relay(tags) + WithoutRelay(tags)[i..]
  {
    hide First, MarkedTag;
    var i := First(tags, RELAY);
    if i < |tags| {
      assert WithoutRelay(tags)[..i] == tags[..i] && WithoutRelay(tags)[i..] == tags[i + 1..];
      assert tags == WithoutRelay(tags)[..i] + Relay(tags) + WithoutRelay(tags)[i..];
    }
  }

  // ---------------------------------------------------------------- whole discovery frames

  /** A discovery frame up to the end of its tags: addresses, ethertype, header, tags. */
  datatype Disc = Disc(dst: seq<Byte>, src: seq<Byte>, proto: seq<Byte>, verType: Byte, code: Byte, sid: nat, tags: seq<Tag>)

  predicate DiscOk(d: Disc) {
    && |d.dst| == 6 && |d.src| == 6 && |d.proto| == 2 && d.sid < 0x10000
    && AllSmall(d.tags) && |Encode(d.tags)| < 0x10000 - TAG_BUF
  }

  function Prefix(d: Disc): (b: seq<Byte>)
    requires |d.dst| == 6 && |d.src| == 6 && |d.proto| == 2 && d.sid < 0x10000
    ensures |b| == 18
  {
    d.dst + d.src + d.proto + [d.verType, d.code] + Be16(d.sid)
  }

  /** The bytes of the frame; the header's length field counts the tag bytes. */
  function Wire(d: Disc): (b: seq<Byte>)
    requires DiscOk(d)
    ensures |b| == 20 + |Encode(d.tags)|
  {
    Prefix(d) + Be16(|Encode(d.tags)|) + Encode(d.tags)
  }
}
