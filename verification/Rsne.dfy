/**
  The RSN element (section 9.4.2.24 of IEEE 802.11-2020): a version and then any number of its
  optional fields in order. The format as values, with its encoder and its reading.
*/
module Rsne {
  import opened SkbBuffer

  /** A field of fixed size, or a 16-bit count and that many items of fixed size. */
  datatype Kind = One(size: nat) | Several(size: nat, strict: bool)

  datatype Field = Plain(bytes: seq<Byte>) | Many(items: seq<seq<Byte>>)

  /** Group cipher, pairwise ciphers, AKM suites, capabilities, PMKIDs, group management cipher. */
  const FIELDS: seq<Kind> := [One(4), Several(4, false), Several(4, false), One(2), Several(16, true), One(4)]

  datatype Parsed = Bad | Good(fields: seq<Field>, tail: seq<Byte>)

  function Le16(b: seq<Byte>): (n: nat)
    requires |b| >= 2
    ensures n < 0x10000
  {
    b[0] as nat + 256 * (b[1] as nat)
  }

  function Span(size: nat, cnt: nat): (n: nat)
    ensures n == size * cnt
  {
    if cnt == 0 then 0 else size + Span(size, cnt - 1)
  }

  function Chunks(b: seq<Byte>, size: nat, cnt: nat): (items: seq<seq<Byte>>)
    requires |b| == Span(size, cnt)
    ensures |items| == cnt && forall i :: 0 <= i < cnt ==> |items[i]| == size
  {
    if cnt == 0 then [] else [b[..size]] + Chunks(b[size..], size, cnt - 1)
  }

  function Flat(items: seq<seq<Byte>>): seq<Byte> {
    if items == [] then [] else items[0] + Flat(items[1..])
  }

  lemma {:induction false} FlatChunks(b: seq<Byte>, size: nat, cnt: nat)
    requires |b| == Span(size, cnt)
    ensures Flat(Chunks(b, size, cnt)) == b
  {
    if cnt > 0 {
      FlatChunks(b[size..], size, cnt - 1);
      assert Chunks(b, size, cnt)[1..] == Chunks(b[size..], size, cnt - 1);
    }
  }

  lemma {:induction false} ChunksFlat(items: seq<seq<Byte>>, size: nat)
    requires forall i :: 0 <= i < |items| ==> |items[i]| == size
    ensures |Flat(items)| == Span(size, |items|) && Chunks(Flat(items), size, |items|) == items
  {
    if items != [] {
      ChunksFlat(items[1..], size);
      var f := items[0] + Flat(items[1..]);
      assert f[..size] == items[0] && f[size..] == Flat(items[1..]);
    }
  }

  lemma {:induction false} ChunkAt(b: seq<Byte>, size: nat, cnt: nat, i: nat)
    requires |b| == Span(size, cnt) && i < cnt
    ensures Span(size, i) + size <= |b| && Chunks(b, size, cnt)[i] == b[Span(size, i)..Span(size, i) + size]
  {
    if i > 0 {
      ChunkAt(b[size..], size, cnt - 1, i - 1);
      assert Span(size, i) == size + Span(size, i - 1);
      assert Chunks(b, size, cnt)[i] == Chunks(b[size..], size, cnt - 1)[i - 1];
      SubSlice(b, size, |b|, Span(size, i - 1), Span(size, i - 1) + size);
    }
  }

  // ---------------------------------------------------------------- the encoder

  function EncodeField(f: Field): seq<Byte>
    requires f.Many? ==> |f.items| < 0x10000
  {
    match f
    case Plain(bytes) => bytes
    case Many(items) => [|items| % 256, |items| / 256] + Flat(items)
  }

  predicate Fits(f: Field, k: Kind): (b: bool)
    ensures b ==> (f.Many? ==> |f.items| < 0x10000)
  {
    match k
    case One(size) => f.Plain? && |f.bytes| == size
    case Several(size, _) => f.Many? && |f.items| < 0x10000 && forall i :: 0 <= i < |f.items| ==> |f.items[i]| == size
  }

  /** A legal prefix of the optional fields. */
  predicate Legal(fs: seq<Field>, kinds: seq<Kind>): (b: bool)
    ensures b ==> |fs| <= |kinds|
  {
    |fs| <= |kinds| && forall i :: 0 <= i < |fs| ==> Fits(fs[i], kinds[i])
  }

  function Encode(fs: seq<Field>, kinds: seq<Kind>): seq<Byte>
    requires Legal(fs, kinds)
  {
    if fs == [] then [] else EncodeField(fs[0]) + Encode(fs[1..], kinds[1..])
  }

  // ---------------------------------------------------------------- the reading

  /** What rtw_rsne_info_parse makes of the bytes behind the fields it has taken so far. */
  function Parse(b: seq<Byte>, kinds: seq<Kind>): Parsed
    decreases |kinds|
  {
    if kinds == [] then Good([], b)
    else
      match kinds[0]
      case One(size) =>
        if |b| < size then (if b == [] then Good([], b) else Bad)
        else Prefixed([Plain(b[..size])], Parse(b[size..], kinds[1..]))
      case Several(size, strict) =>
        if |b| < 2 then (if b == [] then Good([], b) else Bad)
        else
          var cnt := Le16(b);
          var n := Span(size, cnt);
          if |b| < 2 + n then (if !strict && |b| == 2 then Good([], b) else Bad)
          else Prefixed([Many(Chunks(b[2..2 + n], size, cnt))], Parse(b[2 + n..], kinds[1..]))
  }

  function Prefixed(fs: seq<Field>, p: Parsed): Parsed {
    if p.Bad? then Bad else Good(fs + p.fields, p.tail)
  }

  /**
    What may follow the last field: nothing; behind the ciphers and the AKM suites also a count that
    promises items which are not there; and anything at all behind the very last field.
  */
  predicate TailOk(tail: seq<Byte>, kinds: seq<Kind>) {
    kinds == [] || tail == [] ||
    (kinds[0].Several? && !kinds[0].strict && |tail| == 2 && Span(kinds[0].size, Le16(tail)) > 0)
  }

  predicate Positive(kinds: seq<Kind>) {
    forall i :: 0 <= i < |kinds| ==> kinds[i].size > 0
  }

  lemma FieldRead(f: Field, k: Kind, rest: seq<Byte>, kinds: seq<Kind>)
    requires Fits(f, k) && k.size > 0
    ensures Parse(EncodeField(f) + rest, [k] + kinds) == Prefixed([f], Parse(rest, kinds))
  {
    var b, ks := EncodeField(f) + rest, [k] + kinds;
    assert ks[1..] == kinds;
    match k
    case One(size) =>
      assert b[..size] == f.bytes && b[size..] == rest;
    case Several(size, _) =>
      var cnt := |f.items|;
      ChunksFlat(f.items, size);
      assert Le16(b) == cnt by { assert b[0] == cnt % 256 && b[1] == cnt / 256; }
      var n := Span(size, cnt);
      assert b[2..2 + n] == Flat(f.items) && b[2 + n..] == rest;
  }

  lemma TailRead(tail: seq<Byte>, kinds: seq<Kind>)
    requires Positive(kinds) && TailOk(tail, kinds)
    ensures Parse(tail, kinds) == Good([], tail)
  {
  }

  /** Whatever prefix of the fields is encoded, exactly these fields are read back. */
  lemma {:induction false} ReadsBack(fs: seq<Field>, tail: seq<Byte>, kinds: seq<Kind>)
    requires Positive(kinds) && Legal(fs, kinds) && TailOk(tail, kinds[|fs|..])
    ensures Parse(Encode(fs, kinds) + tail, kinds) == Good(fs, tail)
    decreases |fs|
  {
    hide Parse, EncodeField, Fits, TailOk;
    if fs == [] {
      assert Encode(fs, kinds) + tail == tail;
      assert kinds[0..] == kinds;
      TailRead(tail, kinds);
    } else {
      assert kinds == [kinds[0]] + kinds[1..];
      assert kinds[1..][|fs[1..]|..] == kinds[|fs|..];
      ReadsBack(fs[1..], tail, kinds[1..]);
      FieldRead(fs[0], kinds[0], Encode(fs[1..], kinds[1..]) + tail, kinds[1..]);
      assert Encode(fs, kinds) + tail == EncodeField(fs[0]) + (Encode(fs[1..], kinds[1..]) + tail);
      assert [fs[0]] + fs[1..] == fs;
    }
  }

  /** The first field of an accepted string takes its first `n` bytes. */
  lemma Taken(b: seq<Byte>, kinds: seq<Kind>) returns (f: Field, n: nat)
    requires Parse(b, kinds).Good? && Parse(b, kinds).fields != []
    ensures kinds != [] && Fits(f, kinds[0]) && n <= |b| && EncodeField(f) == b[..n]
    ensures Parse(b, kinds) == Prefixed([f], Parse(b[n..], kinds[1..]))
  {
    match kinds[0]
    case One(size) =>
      f, n := Plain(b[..size]), size;
    case Several(size, _) =>
      var cnt := Le16(b);
      n := 2 + Span(size, cnt);
      f := Many(Chunks(b[2..n], size, cnt));
      ListBytes(b, size);
  }

  lemma ListBytes(b: seq<Byte>, size: nat)
    requires |b| >= 2 && |b| >= 2 + Span(size, Le16(b))
    ensures var cnt := Le16(b);
            var n := Span(size, cnt);
            EncodeField(Many(Chunks(b[2..2 + n], size, cnt))) == b[..2 + n]
  {
    var cnt := Le16(b);
    var n := Span(size, cnt);
    FlatChunks(b[2..2 + n], size, cnt);
    CountBytes(b[0], b[1]);
    hide Span, Chunks, Flat;
    assert b[..2 + n] == [b[0], b[1]] + b[2..2 + n];
  }

  lemma CountBytes(low: Byte, high: Byte)
    ensures (low as nat + 256 * (high as nat)) % 256 == low && (low as nat + 256 * (high as nat)) / 256 == high
  {
  }

  lemma NothingTaken(b: seq<Byte>, kinds: seq<Kind>)
    requires Positive(kinds) && Parse(b, kinds).Good? && Parse(b, kinds).fields == []
    ensures TailOk(b, kinds) && Parse(b, kinds).tail == b
  {
  }

  /** And whatever is accepted is such an encoding. */
  lemma {:induction false} AcceptsOnly(b: seq<Byte>, kinds: seq<Kind>)
    requires Positive(kinds) && Parse(b, kinds).Good?
    ensures var p := Parse(b, kinds);
            Legal(p.fields, kinds) && TailOk(p.tail, kinds[|p.fields|..]) && b == Encode(p.fields, kinds) + p.tail
    decreases |kinds|
  {
    hide Parse, TailOk, EncodeField, Fits;
    var p := Parse(b, kinds);
    if p.fields == [] {
      NothingTaken(b, kinds);
      assert kinds[0..] == kinds;
    } else {
      var f, n := Taken(b, kinds);
      AcceptsOnly(b[n..], kinds[1..]);
      var q := Parse(b[n..], kinds[1..]);
      assert p.fields == [f] + q.fields && p.fields[1..] == q.fields;
      assert kinds[1..][|q.fields|..] == kinds[|p.fields|..];
      assert b == b[..n] + b[n..];
      assert b == EncodeField(f) + (Encode(q.fields, kinds[1..]) + q.tail);
    }
  }

  // ---------------------------------------------------------------- the element

  const RSN: Byte := 48

  function Element(fs: seq<Field>, tail: seq<Byte>): seq<Byte>
    requires Legal(fs, FIELDS) && |Encode(fs, FIELDS)| + |tail| <= 253
  {
    [RSN, 2 + |Encode(fs, FIELDS)| + |tail|, 1, 0] + Encode(fs, FIELDS) + tail
  }

  function ParseElement(ie: seq<Byte>): Parsed {
    if |ie| < 4 || ie[0] != RSN || ie[1] != |ie| - 2 || Le16(ie[2..4]) != 1 then Bad
    else Parse(ie[4..], FIELDS)
  }

  /** Encoding any legal prefix of the fields and reading it gives exactly these fields. */
  lemma ElementReadsBack(fs: seq<Field>, tail: seq<Byte>)
    requires Legal(fs, FIELDS) && TailOk(tail, FIELDS[|fs|..]) && |Encode(fs, FIELDS)| + |tail| <= 253
    ensures ParseElement(Element(fs, tail)) == Good(fs, tail)
  {
    hide Parse, Encode, TailOk, Legal;
    ReadsBack(fs, tail, FIELDS);
    HeaderRead(Encode(fs, FIELDS) + tail);
    var e := Encode(fs, FIELDS) + tail;
    assert Element(fs, tail) == [RSN, 2 + |e|, 1, 0] + e;
  }

  lemma HeaderRead(e: seq<Byte>)
    requires |e| <= 253
    ensures ParseElement([RSN, 2 + |e|, 1, 0] + e) == Parse(e, FIELDS)
  {
    hide Parse;
    var ie := [RSN, 2 + |e|, 1, 0] + e;
    assert ie[2..4] == [1, 0] && ie[4..] == e;
  }

  /** An element is accepted if and only if it is such an encoding. */
  lemma ElementAcceptsIff(ie: seq<Byte>)
    ensures ParseElement(ie).Good? <==>
            exists fs: seq<Field>, tail: seq<Byte> ::
              && Legal(fs, FIELDS) && TailOk(tail, FIELDS[|fs|..]) && |Encode(fs, FIELDS)| + |tail| <= 253
              && ie == Element(fs, tail)
  {
    hide Parse, Encode, Legal, TailOk;
    if ParseElement(ie).Good? {
      var p := ParseElement(ie);
      AcceptsOnly(ie[4..], FIELDS);
      assert ie == [ie[0], ie[1], ie[2], ie[3]] + ie[4..];
      assert ie[2..4][0] == ie[2] && ie[2..4][1] == ie[3];
      assert ie == Element(p.fields, p.tail);
    }
    if fs: seq<Field>, tail: seq<Byte> :| && Legal(fs, FIELDS) && TailOk(tail, FIELDS[|fs|..])
                                          && |Encode(fs, FIELDS)| + |tail| <= 253 && ie == Element(fs, tail) {
      ElementReadsBack(fs, tail);
    }
  }
}
