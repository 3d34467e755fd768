/** The driver's walk over an RSN element and the suites it collects, proved against the format. */
module RsneParser {
  import opened SkbBuffer
  import opened Rsne

  /** struct rsne_info: offsets into the element instead of pointers, -1 for NULL. */
  datatype Info = Info(gcs: int, pcsCnt: nat, pcsList: int, akmCnt: nat, akmList: int, cap: int,
                       pmkidCnt: nat, pmkidList: int, gmcs: int)

  datatype Status = More | Done | Err

  /** Field `i` is at offset `p` of the element, or absent and the offset is -1. */
  predicate PlainAt(ie: seq<Byte>, p: int, size: nat, fs: seq<Field>, i: nat) {
    if i < |fs| then 0 <= p && p + size <= |ie| && fs[i] == Plain(ie[p..p + size]) else p == -1
  }

  /** List `i` has `cnt` items from offset `p` on, or is absent. */
  predicate ListAt(ie: seq<Byte>, p: int, cnt: nat, size: nat, fs: seq<Field>, i: nat) {
    if i < |fs| then
      0 <= p && p + Span(size, cnt) <= |ie| && fs[i] == Many(Chunks(ie[p..p + Span(size, cnt)], size, cnt))
    else p == -1 && cnt == 0
  }

  /** The offsets point at the fields, all inside the element. */
  predicate Points(ie: seq<Byte>, info: Info, fs: seq<Field>) {
    && |fs| <= 6
    && PlainAt(ie, info.gcs, 4, fs, 0)
    && ListAt(ie, info.pcsList, info.pcsCnt, 4, fs, 1)
    && ListAt(ie, info.akmList, info.akmCnt, 4, fs, 2)
    && PlainAt(ie, info.cap, 2, fs, 3)
    && ListAt(ie, info.pmkidList, info.pmkidCnt, 16, fs, 4)
    && PlainAt(ie, info.gmcs, 4, fs, 5)
  }

  // ---------------------------------------------------------------- one field

  method TakeOne(ie: seq<Byte>, pos: nat, size: nat, ghost kinds: seq<Kind>) returns (st: Status, next: nat)
    requires pos <= |ie| && kinds != [] && kinds[0] == One(size) && size > 0
    ensures st == More ==> next == pos + size <= |ie|
    ensures st == More ==> Parse(ie[pos..], kinds) == Prefixed([Plain(ie[pos..next])], Parse(ie[next..], kinds[1..]))
    ensures st == Done ==> Parse(ie[pos..], kinds) == Good([], ie[pos..])
    ensures st == Err ==> Parse(ie[pos..], kinds) == Bad
  {
    if |ie| < pos + size {
      return if |ie| != pos then Err else Done, pos;
    }
    assert ie[pos..][size..] == ie[pos + size..] && ie[pos..][..size] == ie[pos..pos + size];
    return More, pos + size;
  }

  method TakeList(ie: seq<Byte>, pos: nat, size: nat, strict: bool, ghost kinds: seq<Kind>)
    returns (st: Status, cnt: nat, list: nat, next: nat)
    requires pos <= |ie| && kinds != [] && kinds[0] == Several(size, strict)
    ensures st == More ==> list + Span(size, cnt) == next <= |ie|
    ensures st == More ==> Parse(ie[pos..], kinds) == Prefixed([Many(Chunks(ie[list..next], size, cnt))], Parse(ie[next..], kinds[1..]))
    ensures st == Done ==> Parse(ie[pos..], kinds) == Good([], ie[pos..])
    ensures st == Err ==> Parse(ie[pos..], kinds) == Bad
  {
    hide Parse, Span, Chunks;
    cnt, list, next := 0, pos, pos;
    ListShort(ie, pos, size, strict, kinds);
    if |ie| < pos + 2 {
      st := if |ie| != pos then Err else Done;
      return;
    }
    cnt := Le16(ie[pos..pos + 2]);
    list := pos + 2;
    if |ie| < list + size * cnt {
      st := if strict || |ie| != list then Err else Done;
      return;
    }
    next := list + size * cnt;
    ListWhole(ie, pos, size, strict, kinds);
    st := More;
  }

  /** The bytes from `pos` on do not hold a whole list. */
  lemma ListShort(ie: seq<Byte>, pos: nat, size: nat, strict: bool, kinds: seq<Kind>)
    requires pos <= |ie| && kinds != [] && kinds[0] == Several(size, strict)
    ensures |ie| < pos + 2 ==> Parse(ie[pos..], kinds) == if |ie| == pos then Good([], ie[pos..]) else Bad
    ensures pos + 2 <= |ie| && |ie| < pos + 2 + size * Le16(ie[pos..pos + 2]) ==>
              Parse(ie[pos..], kinds) == if !strict && |ie| == pos + 2 then Good([], ie[pos..]) else Bad
  {
    hide Chunks;
  }

  lemma ParseWhole(b: seq<Byte>, size: nat, strict: bool, kinds: seq<Kind>)
    requires kinds != [] && kinds[0] == Several(size, strict) && |b| >= 2 && |b| >= 2 + Span(size, Le16(b))
    ensures var n := Span(size, Le16(b));
            Parse(b, kinds) == Prefixed([Many(Chunks(b[2..2 + n], size, Le16(b)))], Parse(b[2 + n..], kinds[1..]))
  {
    hide Chunks, Span;
  }

  /** They do. */
  lemma ListWhole(ie: seq<Byte>, pos: nat, size: nat, strict: bool, kinds: seq<Kind>)
    requires kinds != [] && kinds[0] == Several(size, strict)
    requires pos + 2 <= |ie| && pos + 2 + Span(size, Le16(ie[pos..pos + 2])) <= |ie|
    ensures var cnt := Le16(ie[pos..pos + 2]);
            var next := pos + 2 + Span(size, cnt);
            Parse(ie[pos..], kinds) == Prefixed([Many(Chunks(ie[pos + 2..next], size, cnt))], Parse(ie[next..], kinds[1..]))
  {
    hide Chunks, Span, Parse;
    var b, cnt := ie[pos..], Le16(ie[pos..pos + 2]);
    var n := Span(size, cnt);
    assert Le16(b) == cnt;
    ParseWhole(b, size, strict, kinds);
    SubSlice(ie, pos, |ie|, 2, 2 + n);
    assert ie[pos..|ie|] == b && b[2 + n..] == ie[pos + 2 + n..];
  }

  // ---------------------------------------------------------------- the whole element

  /** rtw_rsne_info_parse. */
  method RsneInfoParse(ie: seq<Byte>) returns (ok: bool, info: Info)
    ensures ok <==> ParseElement(ie).Good?
    ensures ok ==> Points(ie, info, ParseElement(ie).fields)
  {
    hide Parse, Span, Chunks;
    info := Info(-1, 0, -1, 0, -1, -1, 0, -1, -1);
    if |ie| < 4 || ie[0] != RSN || ie[1] != |ie| - 2 || Le16(ie[2..4]) != 1 {
      return false, info;
    }
    ok, info := FromGroupCipher(ie);
  }

  method FromGroupCipher(ie: seq<Byte>) returns (ok: bool, info: Info)
    requires |ie| >= 4
    ensures var p := Parse(ie[4..], FIELDS); (ok <==> p.Good?) && (ok ==> Points(ie, info, p.fields))
  {
    hide Parse, Span, Chunks;
    info := Info(-1, 0, -1, 0, -1, -1, 0, -1, -1);
    var st, pos := TakeOne(ie, 4, 4, FIELDS);
    if st != More {
      return st == Done, info;
    }
    info := info.(gcs := pos - 4);
    ghost var fs := [Plain(ie[info.gcs..pos])];
    assert FIELDS[1..] == [Several(4, false), Several(4, false), One(2), Several(16, true), One(4)];
    var cnt, list;
    st, cnt, list, pos := TakeList(ie, pos, 4, false, FIELDS[1..]);
    if st != More {
      return st == Done, info;
    }
    info := info.(pcsCnt := cnt, pcsList := list);
    ok, info := FromAkm(ie, pos, info, fs + [Many(Chunks(ie[list..pos], 4, cnt))]);
  }

  /** The walk goes on with the AKM suites, `fs` being the fields so far. */
  method FromAkm(ie: seq<Byte>, start: nat, info0: Info, ghost fs: seq<Field>) returns (ok: bool, info: Info)
    requires start <= |ie| && |fs| == 2 && Points(ie, info0, fs)
    ensures var p := Prefixed(fs, Parse(ie[start..], [Several(4, false), One(2), Several(16, true), One(4)]));
            (ok <==> p.Good?) && (ok ==> Points(ie, info, p.fields))
  {
    hide Parse, Span, Chunks;
    info := info0;
    ghost var kinds := [Several(4, false), One(2), Several(16, true), One(4)];
    assert kinds[1..] == [One(2), Several(16, true), One(4)];
    var st, cnt, list, pos := TakeList(ie, start, 4, false, kinds);
    if st != More {
      return st == Done, info;
    }
    info := info.(akmCnt := cnt, akmList := list);
    ghost var fs1 := fs + [Many(Chunks(ie[list..pos], 4, cnt))];
    st, pos := TakeOne(ie, pos, 2, kinds[1..]);
    if st != More {
      return st == Done, info;
    }
    info := info.(cap := pos - 2);
    ghost var fs2 := fs1 + [Plain(ie[info.cap..pos])];
    assert kinds[1..][1..] == [Several(16, true), One(4)];
    ok, info := FromPmkid(ie, pos, info, fs2);
  }

  method FromPmkid(ie: seq<Byte>, start: nat, info0: Info, ghost fs: seq<Field>) returns (ok: bool, info: Info)
    requires start <= |ie| && |fs| == 4 && Points(ie, info0, fs)
    ensures var p := Prefixed(fs, Parse(ie[start..], [Several(16, true), One(4)]));
            (ok <==> p.Good?) && (ok ==> Points(ie, info, p.fields))
  {
    hide Parse, Span, Chunks;
    info := info0;
    ghost var kinds := [Several(16, true), One(4)];
    assert kinds[1..] == [One(4)] && kinds[1..][1..] == [];
    var st, cnt, list, pos := TakeList(ie, start, 16, true, kinds);
    if st != More {
      return st == Done, info;
    }
    info := info.(pmkidCnt := cnt, pmkidList := list);
    st, pos := TakeOne(ie, pos, 4, kinds[1..]);
    if st != More {
      return st == Done, info;
    }
    info := info.(gmcs := pos - 4);
    NothingMore(ie[pos..]);
    return true, info;
  }

  lemma NothingMore(b: seq<Byte>)
    ensures Parse(b, []) == Good([], b)
  {
  }

  // ---------------------------------------------------------------- suites

  const RSN_OUI: seq<Byte> := [0x00, 0x0f, 0xac]

  /** Suite type to bit number of WPA_CIPHER_*; a mask is the set of its bits. */
  const CIPHERS: map<int, nat> := map[0 := 0, 1 := 1, 2 := 3, 4 := 4, 5 := 2, 6 := 8, 8 := 5, 9 := 6, 10 := 7, 11 := 9, 12 := 10, 13 := 11]
  const BIP_CMAC_128: nat := 8

  /** Suite type to bit number of WLAN_AKM_TYPE_*. */
  const AKMS: map<int, nat> := map[1 := 0, 2 := 1, 3 := 2, 4 := 3, 5 := 4, 6 := 5, 7 := 6, 8 := 7, 9 := 8, 11 := 9, 12 := 10, 14 := 11, 15 := 12, 16 := 13, 17 := 14]

  /** rtw_get_rsn_cipher_suite and rtw_get_akm_suite_bitmap: at most one bit. */
  function SuiteBit(table: map<int, nat>, s: seq<Byte>): set<nat> {
    if |s| == 4 && s[..3] == RSN_OUI && s[3] in table then {table[s[3]]} else {}
  }

  /** The bits of all suites that occur in a list, in whatever order. */
  function Bits(table: map<int, nat>, items: seq<seq<Byte>>): set<nat> {
    set s, b | s in items && b in SuiteBit(table, s) :: b
  }

  lemma BitsMore(table: map<int, nat>, items: seq<seq<Byte>>, i: nat)
    requires i < |items|
    ensures Bits(table, items[..i + 1]) == Bits(table, items[..i]) + SuiteBit(table, items[i])
  {
  }

  /** The loops that OR the suites of a list together. */
  method OrSuites(ie: seq<Byte>, list: nat, cnt: nat, table: map<int, nat>) returns (bits: set<nat>)
    requires list + Span(4, cnt) <= |ie|
    ensures bits == Bits(table, Chunks(ie[list..list + Span(4, cnt)], 4, cnt))
  {
    hide Bits, SuiteBit, Chunks;
    ghost var items := Chunks(ie[list..list + Span(4, cnt)], 4, cnt);
    bits := {};
    NoBits(table);
    for i := 0 to cnt
      invariant bits == Bits(table, items[..i])
    {
      ChunkAt(ie[list..list + Span(4, cnt)], 4, cnt, i);
      SubSlice(ie, list, list + Span(4, cnt), 4 * i, 4 * i + 4);
      bits := bits + SuiteBit(table, ie[list + 4 * i..list + 4 * i + 4]);
      BitsMore(table, items, i);
    }
    assert items[..cnt] == items;
  }

  lemma NoBits(table: map<int, nat>)
    ensures Bits(table, []) == {}
  {
  }

  /** What rtw_parse_wpa2_ie reports. */
  datatype Security = Security(group: set<nat>, pairwise: set<nat>, gmcs: set<nat>, akm: set<nat>, mfp: nat, spp: nat)

  /** The union of the suites in each list; without a group management cipher it is BIP-CMAC-128. */
  function Reported(fs: seq<Field>): Security
    requires Legal(fs, FIELDS)
  {
    Security(
      if |fs| > 0 then SuiteBit(CIPHERS, fs[0].bytes) else {},
      if |fs| > 1 then Bits(CIPHERS, fs[1].items) else {},
      if |fs| > 5 then SuiteBit(CIPHERS, fs[5].bytes) else {BIP_CMAC_128},
      if |fs| > 2 then Bits(AKMS, fs[2].items) else {},
      if |fs| > 3 then Le16(fs[3].bytes) / 64 % 4 else 0,
      if |fs| > 3 then Le16(fs[3].bytes) / 1024 % 4 else 0)
  }

  /** A mask has the bit of type `t` exactly if that suite is listed, and no bit that is not of a type. */
  ghost predicate MaskOf(table: map<int, nat>, items: seq<seq<Byte>>, mask: set<nat>) {
    && (forall t: Byte :: t in table ==> (table[t] in mask <==> RSN_OUI + [t] in items))
    && (forall b :: b in mask ==> exists t: Byte :: t in table && table[t] == b)
  }

  predicate OneToOne(table: map<int, nat>) {
    && (forall t :: t in table ==> 0 <= t < 256)
    && forall t, u :: t in table && u in table && table[t] == table[u] ==> t == u
  }

  /** Bit number back to suite type. */
  lemma Inverted(table: map<int, nat>, types: seq<int>)
    requires forall t :: t in table ==> 0 <= t < 256 && table[t] < |types| && types[table[t]] == t
    ensures OneToOne(table)
  {
  }

  lemma CiphersOneToOne()
    ensures OneToOne(CIPHERS)
  {
    hide OneToOne;
    Inverted(CIPHERS, [0, 1, 5, 2, 4, 8, 9, 10, 6, 11, 12, 13]);
  }

  lemma AkmsOneToOne()
    ensures OneToOne(AKMS)
  {
    hide OneToOne;
    Inverted(AKMS, [1, 2, 3, 4, 5, 6, 7, 8, 9, 11, 12, 14, 15, 16, 17]);
  }

  lemma SuiteOf(s: seq<Byte>)
    requires |s| == 4 && s[..3] == RSN_OUI
    ensures s == RSN_OUI + [s[3]]
  {
  }

  lemma BitsAreMask(table: map<int, nat>, items: seq<seq<Byte>>)
    requires OneToOne(table)
    ensures MaskOf(table, items, Bits(table, items))
  {
    hide RSN_OUI;
    var mask := Bits(table, items);
    forall t: Byte | t in table ensures table[t] in mask <==> RSN_OUI + [t] in items {
      TypeInMask(table, items, t);
    }
    forall b | b in mask ensures exists t: Byte :: t in table && table[t] == b {
      var s :| s in items && b in SuiteBit(table, s);
      assert table[s[3]] == b;
    }
  }

  lemma TypeInMask(table: map<int, nat>, items: seq<seq<Byte>>, t: Byte)
    requires OneToOne(table) && t in table
    ensures table[t] in Bits(table, items) <==> RSN_OUI + [t] in items
  {
    var suite := RSN_OUI + [t];
    assert suite[..3] == RSN_OUI && suite[3] == t;
    assert table[t] in SuiteBit(table, suite);
    if table[t] in Bits(table, items) {
      var s :| s in items && table[t] in SuiteBit(table, s);
      SuiteOf(s);
    }
  }

  lemma SingleMask(table: map<int, nat>, s: seq<Byte>)
    requires OneToOne(table)
    ensures MaskOf(table, [s], SuiteBit(table, s))
  {
    BitsAreMask(table, [s]);
    hide SuiteBit, MaskOf;
    assert Bits(table, [s]) == SuiteBit(table, s);
  }

  /**
    The report, by what the fields hold: every mask by the suites listed; management frame protection
    is bits 6 and 7 and SPP A-MSDU bits 10 and 11 of the capabilities.
  */
  ghost predicate Tells(fs: seq<Field>, r: Security)
    requires Legal(fs, FIELDS)
  {
    && MaskOf(CIPHERS, if |fs| > 0 then [fs[0].bytes] else [], r.group)
    && MaskOf(CIPHERS, if |fs| > 1 then fs[1].items else [], r.pairwise)
    && MaskOf(AKMS, if |fs| > 2 then fs[2].items else [], r.akm)
    && (if |fs| > 5 then MaskOf(CIPHERS, [fs[5].bytes], r.gmcs) else r.gmcs == {BIP_CMAC_128})
    && (if |fs| > 3 then r.mfp == fs[3].bytes[0] / 64 && r.spp == fs[3].bytes[1] / 4 % 4 else r.mfp == r.spp == 0)
  }

  lemma CapBits(b: seq<Byte>)
    requires |b| == 2
    ensures Le16(b) / 64 % 4 == b[0] / 64 && Le16(b) / 1024 % 4 == b[1] / 4 % 4
  {
    var lo, hi := b[0] as int, b[1] as int;
    assert Le16(b) == lo % 64 + 64 * (lo / 64 + 4 * hi);
    assert Le16(b) == lo + 256 * (hi % 4) + 1024 * (hi / 4);
  }

  lemma ReportedTells(fs: seq<Field>)
    requires Legal(fs, FIELDS)
    ensures Tells(fs, Reported(fs))
  {
    CiphersOneToOne();
    AkmsOneToOne();
    hide MaskOf, SuiteBit, OneToOne, CIPHERS, AKMS, Le16;
    BitsAreMask(CIPHERS, if |fs| > 1 then fs[1].items else []);
    BitsAreMask(AKMS, if |fs| > 2 then fs[2].items else []);
    BitsAreMask(CIPHERS, []);
    NoBits(CIPHERS);
    NoBits(AKMS);
    if |fs| > 0 {
      SingleMask(CIPHERS, fs[0].bytes);
    }
    if |fs| > 5 {
      SingleMask(CIPHERS, fs[5].bytes);
    }
    if |fs| > 3 {
      CapBits(fs[3].bytes);
    }
  }

  /** rtw_parse_wpa2_ie. */
  method ParseWpa2Ie(ie: seq<Byte>) returns (ok: bool, r: Security)
    ensures ok <==> ParseElement(ie).Good?
    ensures ok ==> Legal(ParseElement(ie).fields, FIELDS) && r == Reported(ParseElement(ie).fields)
    ensures ok ==> Tells(ParseElement(ie).fields, r)
  {
    hide Parse, Bits, SuiteBit, Chunks, Span, Tells;
    r := Security({}, {}, {BIP_CMAC_128}, {}, 0, 0);
    var info;
    ok, info := RsneInfoParse(ie);
    if !ok {
      return;
    }
    AcceptsOnly(ie[4..], FIELDS);
    if info.gcs >= 0 {
      r := r.(group := SuiteBit(CIPHERS, ie[info.gcs..info.gcs + 4]));
    }
    if info.pcsList >= 0 {
      var bits := OrSuites(ie, info.pcsList, info.pcsCnt, CIPHERS);
      r := r.(pairwise := bits);
    }
    if info.gmcs >= 0 {
      r := r.(gmcs := SuiteBit(CIPHERS, ie[info.gmcs..info.gmcs + 4]));
    }
    if info.akmList >= 0 {
      var bits := OrSuites(ie, info.akmList, info.akmCnt, AKMS);
      r := r.(akm := bits);
    }
    if info.cap >= 0 {
      var cap := Le16(ie[info.cap..info.cap + 2]);
      r := r.(mfp := cap / 64 % 4, spp := cap / 1024 % 4);
    }
    ReportedTells(ParseElement(ie).fields);
  }

  /** Only which suites are listed matters, not where or how often. */
  lemma OrderIrrelevant(table: map<int, nat>, a: seq<seq<Byte>>, b: seq<seq<Byte>>)
    requires forall s :: s in a <==> s in b
    ensures Bits(table, a) == Bits(table, b)
  {
  }
}
