/**
  The NAT2.5 database as values: hash chains of entries, the map they stand for, and what any
  sequence of inserts, lookups, expiry sweeps and cleanups does to that map.
*/
module Nat25Spec {

  type Byte = bv8
  type Mac = seq<Byte>
  type Key = seq<Byte>

  const NAT25_IPV4: Byte := 1
  const NAT25_IPV6: Byte := 2
  const NAT25_PPPOE: Byte := 5
  const MAX_NETWORK_ADDR_LEN: nat := 17
  const HASH_SIZE: nat := 16
  const AGEING_SECONDS: nat := 300
  const WORD: nat := 0x1_0000_0000_0000_0000

  datatype Option<T> = None | Some(value: T)

  // ---------------------------------------------------------------- hashing and ageing

  function XorRange(a: Key, lo: nat, hi: nat): Byte
    requires lo <= hi <= |a|
    decreases hi - lo
  {
    if lo == hi then 0 else a[lo] ^ XorRange(a, lo + 1, hi)
  }

  /** __nat25_network_hash: which bytes are folded depends on the address family. */
  function Hash(a: Key): (h: nat)
    requires |a| == MAX_NETWORK_ADDR_LEN
    ensures h < HASH_SIZE
  {
    var x :=
      if a[0] == NAT25_IPV4 then XorRange(a, 7, 11)
      else if a[0] == NAT25_PPPOE then XorRange(a, 0, 9)
      else if a[0] == NAT25_IPV6 then XorRange(a, 1, 17)
      else XorRange(a, 0, MAX_NETWORK_ADDR_LEN);
    var low := x & 15;
    assert low <= 15;
    low as nat
  }

  /** time_before_eq on jiffies: the difference, taken as a signed word, is not negative. */
  predicate Expired(stamp: nat, now: nat, hz: nat) {
    (now - AGEING_SECONDS * hz - stamp) % WORD < WORD / 2
  }

  /**
    The wrapping comparison is right as long as fewer than half the word's ticks have passed
    since the entry could first expire, and wrong from then on until the counter wraps.
  */
  lemma ExpiredExactly(t: nat, elapsed: nat, hz: nat)
    requires AGEING_SECONDS * hz <= WORD / 2 && elapsed < WORD
    ensures Expired(t % WORD, (t + elapsed) % WORD, hz) <==>
              AGEING_SECONDS * hz <= elapsed < AGEING_SECONDS * hz + WORD / 2
  {
    var q, p := t / WORD, (t + elapsed) / WORD;
    assert p == q || p == q + 1;
  }

  // ---------------------------------------------------------------- chains and tables

  datatype Rec = Rec(mac: Mac, stamp: nat, count: int)
  datatype Item = Item(key: Key, rec: Rec)
  type Chain = seq<Item>
  type Table = seq<Chain>

  ghost predicate Distinct(c: Chain) {
    forall i, j :: 0 <= i < j < |c| ==> c[i].key != c[j].key
  }

  predicate ItemOk(it: Item, h: nat) {
    |it.key| == MAX_NETWORK_ADDR_LEN && Hash(it.key) == h && it.rec.count >= 1
  }

  ghost predicate ChainOk(c: Chain, h: nat) {
    Distinct(c) && forall i :: 0 <= i < |c| ==> ItemOk(c[i], h)
  }

  /** Each key occurs once, in the chain its hash selects, and is in use. */
  ghost predicate TableOk(t: Table) {
    |t| == HASH_SIZE && forall h :: 0 <= h < |t| ==> ChainOk(t[h], h)
  }

  /** Position of the first entry with this key, or the length of the chain. */
  function Index(c: Chain, key: Key): (r: nat)
    ensures r <= |c|
    ensures r < |c| ==> c[r].key == key
    ensures forall i :: 0 <= i < r ==> c[i].key != key
  {
    if c == [] then 0 else if c[0].key == key then 0 else 1 + Index(c[1..], key)
  }

  function Get(c: Chain, key: Key): Option<Rec> {
    if Index(c, key) < |c| then Some(c[Index(c, key)].rec) else None
  }

  lemma GetIs(c: Chain, i: nat)
    requires Distinct(c) && i < |c|
    ensures Get(c, c[i].key) == Some(c[i].rec)
  {
  }

  // ---------------------------------------------------------------- the operations

  function InsertChain(c: Chain, key: Key, mac: Mac, now: nat, alloc: bool): Chain {
    var i := Index(c, key);
    if i < |c| then c[i := Item(key, Rec(mac, now, c[i].rec.count))]
    else if alloc then [Item(key, Rec(mac, now, 1))] + c
    else c
  }

  function LookupChain(c: Chain, key: Key, now: nat, hz: nat): Chain {
    var i := Index(c, key);
    if i < |c| && !Expired(c[i].rec.stamp, now, hz) then
      c[i := Item(key, c[i].rec.(count := c[i].rec.count + 1))]
    else c
  }

  /** What one sweep leaves of one entry. */
  function SweepItem(it: Item, now: nat, hz: nat): Chain {
    if !Expired(it.rec.stamp, now, hz) then [it]
    else if it.rec.count == 1 then []
    else [Item(it.key, it.rec.(count := it.rec.count - 1))]
  }

  function SweepChain(c: Chain, now: nat, hz: nat): Chain {
    if c == [] then [] else SweepChain(c[..|c| - 1], now, hz) + SweepItem(c[|c| - 1], now, hz)
  }

  datatype Op =
    | Insert(key: Key, mac: Mac, now: nat, alloc: bool)
    | Lookup(key: Key, now: nat)
    | Expire(now: nat)
    | Cleanup

  predicate OpOk(op: Op) {
    op.Insert? || op.Lookup? ==> |op.key| == MAX_NETWORK_ADDR_LEN
  }

  function Apply(t: Table, op: Op, hz: nat): Table
    requires |t| == HASH_SIZE && OpOk(op)
  {
    match op
    case Insert(key, mac, now, alloc) => t[Hash(key) := InsertChain(t[Hash(key)], key, mac, now, alloc)]
    case Lookup(key, now) => t[Hash(key) := LookupChain(t[Hash(key)], key, now, hz)]
    case Expire(now) => seq(HASH_SIZE, h requires 0 <= h < |t| => SweepChain(t[h], now, hz))
    case Cleanup => seq(HASH_SIZE, h => [])
  }

  // ---------------------------------------------------------------- the map behind the table

  type Db = map<Key, Rec>

  /** The same operations on the map from network address to (MAC, age, use count). */
  function ApplyDb(m: Db, op: Op, hz: nat): Db {
    match op
    case Insert(key, mac, now, alloc) =>
      if key in m then m[key := Rec(mac, now, m[key].count)]
      else if alloc then m[key := Rec(mac, now, 1)]
      else m
    case Lookup(key, now) =>
      if key in m && !Expired(m[key].stamp, now, hz) then m[key := m[key].(count := m[key].count + 1)] else m
    case Expire(now) =>
      map k | k in m && !(Expired(m[k].stamp, now, hz) && m[k].count == 1) ::
        if Expired(m[k].stamp, now, hz) then m[k].(count := m[k].count - 1) else m[k]
    case Cleanup => map[]
  }

  predicate GoodKey(k: Key) {
    |k| == MAX_NETWORK_ADDR_LEN
  }

  ghost function Keys(t: Table): set<Key> {
    set h, i | 0 <= h < |t| && 0 <= i < |t[h]| :: t[h][i].key
  }

  /** The map that the table represents. */
  ghost function AsDb(t: Table): Db
    requires TableOk(t)
  {
    map k | k in Keys(t) && GoodKey(k) && Get(t[Hash(k)], k).Some? :: Get(t[Hash(k)], k).value
  }

  /** A key is in the map exactly when the chain selected by its hash holds it. */
  lemma AsDbAt(t: Table, k: Key)
    requires TableOk(t)
    ensures k in AsDb(t) <==> GoodKey(k) && Get(t[Hash(k)], k).Some?
    ensures k in AsDb(t) ==> AsDb(t)[k] == Get(t[Hash(k)], k).value
  {
  }

  /** Two descriptions of a table agree when they agree on every key. */
  lemma DbEqual(t: Table, m: Db)
    requires TableOk(t)
    requires forall k :: k in m ==> GoodKey(k) && Get(t[Hash(k)], k) == Some(m[k])
    requires forall k :: GoodKey(k) && k !in m ==> Get(t[Hash(k)], k) == None
    ensures AsDb(t) == m
  {
  }

  // ---------------------------------------------------------------- refinement

  lemma InsertChainOk(c: Chain, h: nat, key: Key, mac: Mac, now: nat, alloc: bool, k: Key)
    requires ChainOk(c, h) && GoodKey(key) && Hash(key) == h
    ensures ChainOk(InsertChain(c, key, mac, now, alloc), h)
    ensures k != key ==> Get(InsertChain(c, key, mac, now, alloc), k) == Get(c, k)
    ensures Get(InsertChain(c, key, mac, now, alloc), key) ==
              if Get(c, key).Some? then Some(Rec(mac, now, Get(c, key).value.count))
              else if alloc then Some(Rec(mac, now, 1))
              else None
  {
    var d, i := InsertChain(c, key, mac, now, alloc), Index(c, key);
    if i < |c| {
      UpdateAt(c, i, Rec(mac, now, c[i].rec.count), k);
    } else if alloc {
      assert d[1..] == c;
    }
  }

  /** Overwriting the record of one entry. */
  lemma UpdateAt(c: Chain, i: nat, rec: Rec, k: Key)
    requires Distinct(c) && i < |c|
    ensures var d := c[i := Item(c[i].key, rec)];
            && Distinct(d)
            && Get(d, c[i].key) == Some(rec)
            && (k != c[i].key ==> Get(d, k) == Get(c, k))
  {
    var d := c[i := Item(c[i].key, rec)];
    assert forall j :: 0 <= j < |c| ==> d[j].key == c[j].key;
    GetIs(d, i);
    var p := Index(c, k);
    if p < |c| {
      GetIs(c, p);
      GetIs(d, p);
    }
  }

  lemma LookupChainOk(c: Chain, h: nat, key: Key, now: nat, hz: nat, k: Key)
    requires ChainOk(c, h)
    ensures ChainOk(LookupChain(c, key, now, hz), h)
    ensures k != key ==> Get(LookupChain(c, key, now, hz), k) == Get(c, k)
    ensures Get(LookupChain(c, key, now, hz), key) ==
              if Get(c, key).Some? && !Expired(Get(c, key).value.stamp, now, hz)
              then Some(Get(c, key).value.(count := Get(c, key).value.count + 1))
              else Get(c, key)
  {
    hide Expired, Hash;
    var i := Index(c, key);
    if i < |c| {
      UpdateAt(c, i, c[i].rec.(count := c[i].rec.count + 1), k);
    }
  }

  function Swept(r: Rec, now: nat, hz: nat): Option<Rec> {
    if !Expired(r.stamp, now, hz) then Some(r)
    else if r.count == 1 then None
    else Some(r.(count := r.count - 1))
  }

  lemma GetAppend(c: Chain, d: Chain, k: Key)
    ensures Get(c + d, k) == if Get(c, k).Some? then Get(c, k) else Get(d, k)
  {
    var p, q := Index(c, k), Index(d, k);
    var r := Index(c + d, k);
    assert p < |c| ==> (c + d)[p].key == k;
    assert q < |d| ==> (c + d)[|c| + q].key == k;
    assert r < |c| ==> c[r].key == k;
    assert |c| <= r < |c| + |d| ==> d[r - |c|].key == k;
  }

  /** A sweep treats the first entry and the rest separately. */
  lemma {:induction false} SweepFront(c: Chain, now: nat, hz: nat)
    requires c != []
    ensures SweepChain(c, now, hz) == SweepItem(c[0], now, hz) + SweepChain(c[1..], now, hz)
  {
    hide Expired;
    if |c| > 1 {
      var init := c[..|c| - 1];
      SweepFront(init, now, hz);
      assert init[1..] == c[1..][..|c| - 2];
    }
  }

  /** What a sweep makes of a single entry, seen through `Get`. */
  lemma SweepItemGet(it: Item, now: nat, hz: nat, k: Key)
    ensures Get([it], k) == if k == it.key then Some(it.rec) else None
    ensures Get(SweepItem(it, now, hz), k) == if k == it.key then Swept(it.rec, now, hz) else None
  {
  }

  lemma {:induction false} SweepGet(c: Chain, now: nat, hz: nat, k: Key)
    requires Distinct(c)
    ensures Get(SweepChain(c, now, hz), k) == if Get(c, k).Some? then Swept(Get(c, k).value, now, hz) else None
  {
    hide Swept, SweepItem, Index;
    if c != [] {
      var init, last := c[..|c| - 1], c[|c| - 1];
      assert c == init + [last];
      SweepGet(init, now, hz, k);
      SweepItemGet(last, now, hz, k);
      GetAppend(init, [last], k);
      GetAppend(SweepChain(init, now, hz), SweepItem(last, now, hz), k);
      assert forall j :: 0 <= j < |init| ==> c[j].key == init[j].key;
    }
  }

  lemma {:induction false} SweepOk(c: Chain, h: nat, now: nat, hz: nat)
    requires ChainOk(c, h)
    ensures ChainOk(SweepChain(c, now, hz), h)
  {
    hide Expired, Hash;
    if c != [] {
      var init, last := c[..|c| - 1], c[|c| - 1];
      SweepOk(init, h, now, hz);
      var s := SweepChain(init, now, hz);
      assert forall j :: 0 <= j < |init| ==> c[j] == init[j];
      forall i | 0 <= i < |s| ensures s[i].key != last.key {
        SweepGet(init, now, hz, s[i].key);
        GetIs(s, i);
      }
    }
  }

  lemma ApplyOk(t: Table, op: Op, hz: nat)
    requires TableOk(t) && OpOk(op)
    ensures TableOk(Apply(t, op, hz))
  {
    match op
    case Insert(key, mac, now, alloc) => InsertChainOk(t[Hash(key)], Hash(key), key, mac, now, alloc, key);
    case Lookup(key, now) => LookupChainOk(t[Hash(key)], Hash(key), key, now, hz, key);
    case Expire(now) =>
      forall h | 0 <= h < HASH_SIZE ensures ChainOk(Apply(t, op, hz)[h], h) {
        SweepOk(t[h], h, now, hz);
      }
    case Cleanup =>
  }

  lemma ApplyGet(t: Table, op: Op, hz: nat, k: Key)
    requires TableOk(t) && OpOk(op) && GoodKey(k)
    ensures TableOk(Apply(t, op, hz))
    ensures Get(Apply(t, op, hz)[Hash(k)], k) ==
              var m := ApplyDb(AsDb(t), op, hz); if k in m then Some(m[k]) else None
  {
    hide Expired, Hash, Index, SweepChain, InsertChain, LookupChain, AsDb, TableOk;
    ApplyOk(t, op, hz);
    AsDbAt(t, k);
    match op
    case Insert(key, mac, now, alloc) =>
      AsDbAt(t, key);
      TableOkAt(t, Hash(key));
      InsertChainOk(t[Hash(key)], Hash(key), key, mac, now, alloc, k);
    case Lookup(key, now) =>
      AsDbAt(t, key);
      TableOkAt(t, Hash(key));
      LookupChainOk(t[Hash(key)], Hash(key), key, now, hz, k);
    case Expire(now) =>
      TableOkAt(t, Hash(k));
      SweepGet(t[Hash(k)], now, hz, k);
    case Cleanup =>
  }

  lemma TableOkAt(t: Table, h: nat)
    requires TableOk(t) && h < HASH_SIZE
    ensures |t| == HASH_SIZE && ChainOk(t[h], h)
  {
  }

  /** Every operation keeps the table well formed and acts on the map as `ApplyDb` says. */
  lemma Refines(t: Table, op: Op, hz: nat)
    requires TableOk(t) && OpOk(op)
    ensures TableOk(Apply(t, op, hz))
    ensures AsDb(Apply(t, op, hz)) == ApplyDb(AsDb(t), op, hz)
  {
    ApplyOk(t, op, hz);
    var m := ApplyDb(AsDb(t), op, hz);
    forall k | k in m ensures GoodKey(k) && Get(Apply(t, op, hz)[Hash(k)], k) == Some(m[k]) {
      AsDbAt(t, k);
      ApplyGet(t, op, hz, k);
    }
    forall k | GoodKey(k) && k !in m ensures Get(Apply(t, op, hz)[Hash(k)], k) == None {
      ApplyGet(t, op, hz, k);
    }
    DbEqual(Apply(t, op, hz), m);
  }

  // ---------------------------------------------------------------- whole runs

  function Empty(): Table {
    seq(HASH_SIZE, h => [])
  }

  predicate OpsOk(ops: seq<Op>) {
    forall i :: 0 <= i < |ops| ==> OpOk(ops[i])
  }

  function RunTable(t: Table, ops: seq<Op>, hz: nat): Table
    requires |t| == HASH_SIZE && OpsOk(ops)
    ensures |RunTable(t, ops, hz)| == HASH_SIZE
  {
    if ops == [] then t else Apply(RunTable(t, ops[..|ops| - 1], hz), ops[|ops| - 1], hz)
  }

  function RunDb(m: Db, ops: seq<Op>, hz: nat): Db {
    if ops == [] then m else ApplyDb(RunDb(m, ops[..|ops| - 1], hz), ops[|ops| - 1], hz)
  }

  /** After any sequence of operations the table is well formed and is the map it should be. */
  lemma {:induction false} RunRefines(t: Table, ops: seq<Op>, hz: nat)
    requires TableOk(t) && OpsOk(ops)
    ensures TableOk(RunTable(t, ops, hz))
    ensures AsDb(RunTable(t, ops, hz)) == RunDb(AsDb(t), ops, hz)
  {
    if ops != [] {
      var init := ops[..|ops| - 1];
      RunRefines(t, init, hz);
      Refines(RunTable(t, init, hz), ops[|ops| - 1], hz);
    }
  }

  /** The operation neither names `k` nor empties the table; sweeps find its record expired. */
  predicate LeavesAlone(op: Op, k: Key, r: Rec, hz: nat) {
    match op
    case Insert(key, _, _, _) => key != k
    case Lookup(key, _) => key != k
    case Expire(now) => Expired(r.stamp, now, hz)
    case Cleanup => false
  }

  function Sweeps(ops: seq<Op>): nat {
    if ops == [] then 0 else Sweeps(ops[..|ops| - 1]) + if ops[|ops| - 1].Expire? then 1 else 0
  }

  /**
    An expired entry with use count n that nobody touches is gone after exactly n sweeps: it is
    still there, with its count reduced, after fewer, and absent from the n-th one on.
  */
  lemma {:induction false} FreedOnNthSweep(m: Db, k: Key, ops: seq<Op>, hz: nat)
    requires k in m && m[k].count >= 1
    requires forall i :: 0 <= i < |ops| ==> LeavesAlone(ops[i], k, m[k], hz)
    ensures k in RunDb(m, ops, hz) <==> Sweeps(ops) < m[k].count
    ensures k in RunDb(m, ops, hz) ==> RunDb(m, ops, hz)[k] == m[k].(count := m[k].count - Sweeps(ops))
  {
    if ops != [] {
      var init, last := ops[..|ops| - 1], ops[|ops| - 1];
      FreedOnNthSweep(m, k, init, hz);
      assert LeavesAlone(last, k, m[k], hz);
    }
  }

  /** A sweep never frees or changes an entry that has not expired. */
  lemma UnexpiredSurvives(t: Table, now: nat, hz: nat, k: Key)
    requires TableOk(t) && k in AsDb(t) && !Expired(AsDb(t)[k].stamp, now, hz)
    ensures TableOk(Apply(t, Expire(now), hz))
    ensures k in AsDb(Apply(t, Expire(now), hz)) && AsDb(Apply(t, Expire(now), hz))[k] == AsDb(t)[k]
  {
    Refines(t, Expire(now), hz);
  }
}
