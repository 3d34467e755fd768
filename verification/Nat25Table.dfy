/**
  The NAT2.5 hash table as the driver keeps it: buckets of entries linked by `next` and by a
  `pprev` link that says where the pointer to an entry is stored. Each method is proved against
  the operation on values of the same name.
*/
module Nat25Table {
  import opened Nat25Spec

  /** Where the pointer to an entry is stored: a bucket, or the `next` field of another entry. */
  datatype Link = Unlinked | Bucket(hash: nat) | NextOf(entry: Entry)

  class Entry {
    const key: Key
    var next: Entry?
    var pprev: Link
    var rec: Rec

    constructor (key: Key, rec: Rec)
      ensures this.key == key && this.rec == rec
    {
      this.key := key;
      this.next := null;
      this.pprev := Unlinked;
      this.rec := rec;
    }

    ghost function Value(): Item
      reads this
    {
      Item(key, rec)
    }
  }

  /** The entries of one chain, as values. */
  ghost function Values(c: seq<Entry>): Chain
    reads c
  {
    seq(|c|, i requires 0 <= i < |c| reads c => c[i].Value())
  }

  ghost predicate AllDiffer(c: seq<Entry>) {
    forall i, j :: 0 <= i < j < |c| ==> c[i] != c[j]
  }

  /** Every entry belongs into bucket `h`. */
  ghost predicate AllHash(h: nat, c: seq<Entry>) {
    forall i :: 0 <= i < |c| ==> GoodKey(c[i].key) && Hash(c[i].key) == h
  }

  /** Bucket `h` starts the doubly linked chain `c`. */
  ghost predicate Linked(buckets: array<Entry?>, h: nat, c: seq<Entry>)
    reads buckets, c
  {
    && h < buckets.Length
    && buckets[h] == (if c == [] then null else c[0])
    && (forall i {:trigger c[i].next} :: 0 <= i < |c| ==> c[i].next == if i + 1 < |c| then c[i + 1] else null)
    && (forall i {:trigger c[i].pprev} :: 0 <= i < |c| ==> c[i].pprev == if i == 0 then Bucket(h) else NextOf(c[i - 1]))
    && AllDiffer(c)
  }

  /** Removing position `i`. */
  function Without<T>(s: seq<T>, i: nat): seq<T>
    requires i < |s|
  {
    s[..i] + s[i + 1..]
  }

  // ---------------------------------------------------------------- one chain

  /** __network_hash_link: put an entry at the head of chain `c`. */
  method HashLink(buckets: array<Entry?>, ent: Entry, h: nat, ghost c: seq<Entry>)
    requires Linked(buckets, h, c) && ent !in c
    modifies buckets, ent`next, ent`pprev, c`pprev
    ensures Linked(buckets, h, [ent] + c)
    ensures forall g :: 0 <= g < buckets.Length && g != h ==> buckets[g] == old(buckets[g])
  {
    ent.next := buckets[h];
    if ent.next != null {
      ent.next.pprev := NextOf(ent);
    }
    buckets[h] := ent;
    ent.pprev := Bucket(h);
  }

  /** What is left to check once the two neighbours have been rewired around position `i`. */
  lemma Relinked(buckets: array<Entry?>, h: nat, c: seq<Entry>, d: seq<Entry>, i: nat)
    requires h < buckets.Length && i < |c| && d == Without(c, i)
    requires buckets[h] == if i > 0 then c[0] else if |c| > 1 then c[1] else null
    requires forall j {:trigger c[j].next} :: 0 <= j < |c| && j != i ==>
               c[j].next == (if j + 1 == i then (if i + 1 < |c| then c[i + 1] else null) else if j + 1 < |c| then c[j + 1] else null)
    requires forall j {:trigger c[j].pprev} :: 0 <= j < |c| && j != i ==>
               c[j].pprev == (if j == i + 1 then (if i == 0 then Bucket(h) else NextOf(c[i - 1])) else if j == 0 then Bucket(h) else NextOf(c[j - 1]))
    requires AllDiffer(c)
    ensures Linked(buckets, h, d)
  {
  }

  /** __network_hash_unlink; `c` is the chain the entry is in and `i` its position there. */
  method HashUnlink(buckets: array<Entry?>, ent: Entry, ghost h: nat, ghost c: seq<Entry>, ghost i: nat)
    requires Linked(buckets, h, c) && i < |c| && c[i] == ent
    modifies buckets, c`next, c`pprev
    ensures Linked(buckets, h, Without(c, i))
    ensures forall g :: 0 <= g < buckets.Length && g != h ==> buckets[g] == old(buckets[g])
  {
    match ent.pprev {
      case Bucket(b) => buckets[b] := ent.next;
      case NextOf(p) => p.next := ent.next;
      case Unlinked => assert false;
    }
    if ent.next != null {
      ent.next.pprev := ent.pprev;
    }
    ent.next := null;
    ent.pprev := Unlinked;
    Relinked(buckets, h, c, Without(c, i), i);
  }

  /** The walk shared by insert, lookup and scdb_findEntry. */
  method FindIn(buckets: array<Entry?>, key: Key, h: nat, ghost c: seq<Entry>) returns (db: Entry?, ghost i: nat)
    requires Linked(buckets, h, c)
    ensures i == Index(Values(c), key)
    ensures db == if i < |c| then c[i] else null
    ensures Get(Values(c), key) == if db == null then None else Some(db.rec)
  {
    db := buckets[h];
    i := 0;
    while db != null
      invariant 0 <= i <= |c|
      invariant db == if i < |c| then c[i] else null
      invariant forall j :: 0 <= j < i ==> c[j].key != key
      decreases |c| - i
    {
      if db.key == key {
        break;
      }
      db := db.next;
      i := i + 1;
    }
    ghost var v := Values(c);
    assert forall j :: 0 <= j < |c| ==> v[j].key == c[j].key;
  }

  /** What a sweep makes of a chain, entry by entry. */
  lemma SweepValues(c: seq<Entry>, now: nat, hz: nat)
    ensures SweepChain(Values(c), now, hz) ==
              if c == [] then [] else SweepItem(c[0].Value(), now, hz) + SweepChain(Values(c[1..]), now, hz)
  {
    hide Expired;
    if c != [] {
      SweepFront(Values(c), now, hz);
      assert Values(c)[1..] == Values(c[1..]);
    }
  }

  /** The first entry of `rest` occurs nowhere else, and its `next` is the one after it. */
  lemma HeadOnce(buckets: array<Entry?>, h: nat, d: seq<Entry>, rest: seq<Entry>)
    requires Linked(buckets, h, d + rest) && rest != []
    ensures rest == [rest[0]] + rest[1..] && rest[0] !in d && rest[0] !in rest[1..]
    ensures rest[0].next == if |rest| == 1 then null else rest[1]
  {
    var c := d + rest;
    assert c[|d|] == rest[0];
    assert forall j :: 0 <= j < |d| ==> c[j] == d[j];
    assert forall j :: 0 <= j < |rest| ==> c[|d| + j] == rest[j];
  }

  lemma ChainHead(buckets: array<Entry?>, h: nat, c: seq<Entry>)
    requires Linked(buckets, h, c)
    ensures h < buckets.Length && buckets[h] == (if c == [] then null else c[0]) && Values([]) == []
  {
  }

  lemma Regroup<T>(a: seq<T>, b: seq<T>, c: seq<T>)
    ensures (a + b) + c == a + (b + c)
  {
  }

  /** The shortcut after chain `c` has shrunk to `live`: cleared exactly if its entry is gone. */
  ghost predicate ShortcutIs(now: Entry?, was: Entry?, c: seq<Entry>, live: seq<Entry>) {
    now == if was in c && was !in live then null else was
  }

  /** The head of `rest` was kept or dropped. */
  lemma ShortcutStep(now: Entry?, now': Entry?, was: Entry?, c: seq<Entry>, d: seq<Entry>, rest: seq<Entry>, d': seq<Entry>)
    requires rest != [] && rest[0] in c && rest[0] !in d && rest[0] !in rest[1..]
    requires d' == d || d' == d + [rest[0]]
    requires ShortcutIs(now, was, c, d + rest)
    requires now' == if d' == d && now == rest[0] then null else now
    ensures ShortcutIs(now', was, c, d' + rest[1..])
  {
  }

  class Nat25 {
    const hz: nat
    const nethash: array<Entry?>
    var scdbEntry: Entry?
    var scdbMac: Mac
    var scdbIp: seq<Byte>
    ghost var chains: seq<seq<Entry>>

    // -------------------------------------------------------------- one chain and the shortcut

    /** Unlink an entry for good, forgetting the shortcut if it points there. */
    method Drop(f: Entry, ghost h: nat, ghost c: seq<Entry>, ghost p: nat)
      requires Linked(nethash, h, c) && p < |c| && c[p] == f
      modifies this`scdbEntry, this`scdbMac, this`scdbIp, nethash, c`next, c`pprev
      ensures Linked(nethash, h, Without(c, p))
      ensures forall g :: 0 <= g < nethash.Length && g != h ==> nethash[g] == old(nethash[g])
      ensures scdbEntry == if old(scdbEntry) == f then null else old(scdbEntry)
    {
      if scdbEntry == f {
        scdbMac := seq(6, _ => 0);
        scdbIp := seq(4, _ => 0);
        scdbEntry := null;
      }
      HashUnlink(nethash, f, h, c, p);
    }

    /** One turn of the inner loop of nat25_db_expire: `kept` has been swept, `rest` has not. */
    method SweepEntry(f: Entry, now: nat, ghost h: nat, ghost kept: seq<Entry>, ghost rest: seq<Entry>)
      returns (ghost kept': seq<Entry>)
      requires Linked(nethash, h, kept + rest) && rest != [] && rest[0] == f
      modifies this`scdbEntry, this`scdbMac, this`scdbIp, nethash, kept`next, kept`pprev, rest`next, rest`pprev, f`rec
      ensures Linked(nethash, h, kept' + rest[1..])
      ensures kept' == kept || kept' == kept + [f]
      ensures Values(kept') == old(Values(kept)) + SweepItem(old(f.Value()), now, hz)
      ensures Values(rest[1..]) == old(Values(rest[1..]))
      ensures forall g :: 0 <= g < nethash.Length && g != h ==> nethash[g] == old(nethash[g])
      ensures scdbEntry == if kept' == kept && old(scdbEntry) == f then null else old(scdbEntry)
    {
      hide Expired;
      HeadOnce(nethash, h, kept, rest);
      kept' := kept + [f];
      assert kept' + rest[1..] == kept + rest;
      if Expired(f.rec.stamp, now, hz) {
        f.rec := f.rec.(count := f.rec.count - 1);
        if f.rec.count == 0 {
          Drop(f, h, kept + rest, |kept|);
          kept' := kept;
          assert Without(kept + rest, |kept|) == kept + rest[1..];
        }
      }
    }

    /** Chain `c` has been swept up to `rest`; `d` is what is left of the part before. */
    ghost predicate Midway(h: nat, now: nat, c: seq<Entry>, swept: Chain, was: Entry?, d: seq<Entry>, rest: seq<Entry>)
      reads this, nethash, d, rest
    {
      && Linked(nethash, h, d + rest)
      && (forall j :: 0 <= j < |d| ==> d[j] in c)
      && (forall j :: 0 <= j < |rest| ==> rest[j] in c)
      && swept == Values(d) + SweepChain(Values(rest), now, hz)
      && ShortcutIs(scdbEntry, was, c, d + rest)
    }

    /** The body of the inner loop. */
    method SweepTurn(f: Entry, now: nat, ghost h: nat, ghost c: seq<Entry>, ghost swept: Chain, ghost was: Entry?,
                     ghost d: seq<Entry>, ghost rest: seq<Entry>)
      returns (g: Entry?, ghost d': seq<Entry>)
      requires Midway(h, now, c, swept, was, d, rest) && rest != [] && rest[0] == f
      modifies this`scdbEntry, this`scdbMac, this`scdbIp, nethash, c
      ensures Midway(h, now, c, swept, was, d', rest[1..])
      ensures g == if |rest| == 1 then null else rest[1]
      ensures forall i :: 0 <= i < nethash.Length && i != h ==> nethash[i] == old(nethash[i])
    {
      hide Expired, SweepChain, SweepItem, Linked, Values, ShortcutIs;
      HeadOnce(nethash, h, d, rest);
      SweepValues(rest, now, hz);
      g := f.next;
      Regroup(Values(d), SweepItem(f.Value(), now, hz), SweepChain(Values(rest[1..]), now, hz));
      ghost var sc := scdbEntry;
      d' := SweepEntry(f, now, h, d, rest);
      ShortcutStep(sc, scdbEntry, was, c, d, rest, d');
    }

    /** The inner loop of nat25_db_expire, on bucket `h` holding chain `c`. */
    method SweepBucket(h: nat, now: nat, ghost c: seq<Entry>) returns (ghost d: seq<Entry>)
      requires Linked(nethash, h, c)
      modifies this`scdbEntry, this`scdbMac, this`scdbIp, nethash, c
      ensures Linked(nethash, h, d) && forall j :: 0 <= j < |d| ==> d[j] in c
      ensures Values(d) == SweepChain(old(Values(c)), now, hz)
      ensures forall g :: 0 <= g < nethash.Length && g != h ==> nethash[g] == old(nethash[g])
      ensures ShortcutIs(scdbEntry, old(scdbEntry), c, d)
    {
      hide Expired, SweepChain, SweepItem, Linked, Values;
      ghost var swept, rest := SweepChain(Values(c), now, hz), c;
      d := [];
      assert d + rest == c;
      ChainHead(nethash, h, c);
      var f := nethash[h];
      while f != null
        invariant Midway(h, now, c, swept, old(scdbEntry), d, rest)
        invariant f == if rest == [] then null else rest[0]
        invariant forall g :: 0 <= g < nethash.Length && g != h ==> nethash[g] == old(nethash[g])
        decreases |rest|
      {
        f, d := SweepTurn(f, now, h, c, swept, old(scdbEntry), d, rest);
        rest := rest[1..];
      }
      SweepValues(rest, now, hz);
      assert d + rest == d;
    }

    /** The inner loop of nat25_db_cleanup. */
    method CleanBucket(h: nat, ghost c: seq<Entry>)
      requires Linked(nethash, h, c)
      modifies this`scdbEntry, this`scdbMac, this`scdbIp, nethash, c`next, c`pprev
      ensures Linked(nethash, h, [])
      ensures forall g :: 0 <= g < nethash.Length && g != h ==> nethash[g] == old(nethash[g])
      ensures scdbEntry == if old(scdbEntry) in c then null else old(scdbEntry)
    {
      ghost var rest := c;
      var f := nethash[h];
      while f != null
        invariant Linked(nethash, h, rest)
        invariant f == if rest == [] then null else rest[0]
        invariant forall j :: 0 <= j < |rest| ==> rest[j] in c
        invariant forall g :: 0 <= g < nethash.Length && g != h ==> nethash[g] == old(nethash[g])
        invariant scdbEntry == if old(scdbEntry) in c && old(scdbEntry) !in rest then null else old(scdbEntry)
        decreases |rest|
      {
        assert rest == [f] + rest[1..] && Without(rest, 0) == rest[1..];
        var g := f.next;
        Drop(f, h, rest, 0);
        rest := rest[1..];
        f := g;
      }
    }

    // -------------------------------------------------------------- the whole table

    ghost predicate Valid()
      reads this, nethash, Nodes()
    {
      && nethash.Length == HASH_SIZE == |chains|
      && (forall h :: 0 <= h < HASH_SIZE ==> Linked(nethash, h, chains[h]))
      && (forall h :: 0 <= h < HASH_SIZE ==> AllHash(h, chains[h]))
    }

    ghost function Nodes(): set<Entry>
      reads this
    {
      set h, i | 0 <= h < |chains| && 0 <= i < |chains[h]| :: chains[h][i]
    }

    /** The shortcut entry is null or still in the table. */
    ghost predicate ShortcutLive()
      reads this
    {
      scdbEntry == null || scdbEntry in Nodes()
    }

    ghost function Contents(): Table
      reads this, Nodes()
    {
      seq(|chains|, h requires 0 <= h < |chains| reads this, Nodes() => Values(chains[h]))
    }

    lemma ValidAt(h: nat)
      requires Valid() && h < HASH_SIZE
      ensures nethash.Length == HASH_SIZE == |chains| == |Contents()|
      ensures Linked(nethash, h, chains[h]) && |Values(chains[h])| == |chains[h]| && Contents()[h] == Values(chains[h])
      ensures forall i :: 0 <= i < |chains[h]| ==> chains[h][i] in Nodes() && Values(chains[h])[i] == chains[h][i].Value()
    {
    }

    /** Chains of different buckets share no entry. */
    lemma ChainsApart(g: nat, h: nat)
      requires Valid() && g < HASH_SIZE && h < HASH_SIZE && g != h
      ensures forall j :: 0 <= j < |chains[g]| ==> chains[g][j] !in chains[h]
    {
    }

    /** Chain `h` of `c` has become `d`; the other chains and their values are as before. */
    lemma ChainReplaced(h: nat, d: seq<Entry>, c: seq<seq<Entry>>, was: Table)
      requires nethash.Length == HASH_SIZE == |c| == |was| && h < HASH_SIZE && chains == c[h := d]
      requires Linked(nethash, h, d) && AllHash(h, d)
      requires forall g :: 0 <= g < HASH_SIZE && g != h ==> Linked(nethash, g, c[g]) && AllHash(g, c[g])
      requires forall g :: 0 <= g < HASH_SIZE && g != h ==> Values(c[g]) == was[g]
      ensures Valid()
      ensures Contents() == was[h := Values(d)]
    {
    }

    /** Overwrite the record at position `i` of the chain that `key` selects. */
    method SetRecord(db: Entry, rec: Rec, ghost h: nat, ghost i: nat)
      requires Valid() && h < HASH_SIZE && i < |chains[h]| && chains[h][i] == db
      modifies db`rec
      ensures Valid()
      ensures Contents() == old(Contents())[h := old(Contents())[h][i := Item(db.key, rec)]]
    {
      hide Hash;
      ghost var c, was := chains, Contents();
      forall g: nat | g < HASH_SIZE && g != h ensures db !in c[g] {
        ChainsApart(g, h);
      }
      assert Linked(nethash, h, c[h]);
      db.rec := rec;
      assert Values(c[h]) == was[h][i := Item(db.key, rec)];
      ChainReplaced(h, c[h], c, was);
    }

    /** Put a new entry at the head of the chain its hash selects. */
    method AddEntry(ent: Entry)
      requires Valid() && GoodKey(ent.key) && ShortcutLive() && ent !in Nodes()
      modifies this`chains, nethash, ent`next, ent`pprev, Nodes()`pprev
      ensures Valid() && ShortcutLive() && Nodes() == {ent} + old(Nodes())
      ensures Contents() == old(Contents())[Hash(ent.key) := [ent.Value()] + old(Contents())[Hash(ent.key)]]
    {
      hide Hash;
      ghost var h, c, was := Hash(ent.key), chains, Contents();
      forall g: nat | g < HASH_SIZE && g != h ensures forall j :: 0 <= j < |c[g]| ==> c[g][j] !in c[h] {
        ChainsApart(g, h);
      }
      HashLink(nethash, ent, Hash(ent.key), c[h]);
      chains := chains[h := [ent] + c[h]];
      assert Values([ent] + c[h]) == [ent.Value()] + was[h];
      ChainReplaced(h, [ent] + c[h], c, was);
      NodesGrow(c, h, ent);
    }

    lemma NodesGrow(c: seq<seq<Entry>>, h: nat, ent: Entry)
      requires h < |c| && chains == c[h := [ent] + c[h]]
      ensures Nodes() == {ent} + set g, j | 0 <= g < |c| && 0 <= j < |c[g]| :: c[g][j]
    {
      assert ent == chains[h][0];
      forall g, j | 0 <= g < |c| && 0 <= j < |c[g]| ensures c[g][j] in Nodes() {
        assert c[g][j] == chains[g][if g == h then j + 1 else j];
      }
      forall e | e in Nodes() ensures e == ent || exists g, j :: 0 <= g < |c| && 0 <= j < |c[g]| && c[g][j] == e {
        var g, j :| 0 <= g < |chains| && 0 <= j < |chains[g]| && chains[g][j] == e;
        assert g != h ==> c[g][j] == e;
        assert g == h && j > 0 ==> c[g][j - 1] == e;
      }
    }

    /** __nat25_db_network_insert. */
    method Insert(mac: Mac, key: Key, now: nat, alloc: bool)
      requires Valid() && GoodKey(key) && ShortcutLive()
      modifies this`chains, nethash, Nodes()
      ensures Valid() && ShortcutLive() && fresh(Nodes() - old(Nodes()))
      ensures Contents() == Apply(old(Contents()), Op.Insert(key, mac, now, alloc), hz)
    {
      hide Hash, Valid, Linked, Values, Contents;
      ghost var h := Hash(key);
      ValidAt(h);
      var db, i := FindIn(nethash, key, Hash(key), chains[h]);
      if db != null {
        SetRecord(db, Rec(mac, now, db.rec.count), h, i);
      } else if alloc {
        var ent := new Entry(key, Rec(mac, now, 1));
        AddEntry(ent);
      } else {
        assert Contents() == old(Contents())[h := old(Contents())[h]];
      }
    }

    /** __nat25_db_network_lookup_and_replace: `dst` is the destination address of the frame. */
    method LookupAndReplace(key: Key, now: nat, dst: Mac) returns (found: bool, newDst: Mac)
      requires Valid() && GoodKey(key) && ShortcutLive()
      modifies Nodes()`rec
      ensures Valid() && ShortcutLive()
      ensures Contents() == Apply(old(Contents()), Op.Lookup(key, now), hz)
      ensures var r := Get(old(Contents())[Hash(key)], key);
              && found == r.Some?
              && newDst == if r.Some? && !Expired(r.value.stamp, now, hz) then r.value.mac else dst
    {
      hide Hash, Expired, Valid, Linked, Values, Contents;
      ghost var h := Hash(key);
      ValidAt(h);
      var db, i := FindIn(nethash, key, Hash(key), chains[h]);
      newDst := dst;
      found := db != null;
      if db != null && !Expired(db.rec.stamp, now, hz) {
        newDst := db.rec.mac;
        SetRecord(db, db.rec.(count := db.rec.count + 1), h, i);
      } else {
        assert Contents() == old(Contents())[h := old(Contents())[h]];
      }
    }

    /** Chain `h` of `c` has shrunk to `d`, and the shortcut has followed. */
    lemma NodesShrink(h: nat, d: seq<Entry>, c: seq<seq<Entry>>, was: Entry?)
      requires h < |c| && chains == c[h := d] && forall j :: 0 <= j < |d| ==> d[j] in c[h]
      requires ShortcutIs(scdbEntry, was, c[h], d)
      requires was == null || exists g, j :: 0 <= g < |c| && 0 <= j < |c[g]| && c[g][j] == was
      ensures Nodes() <= set g, j | 0 <= g < |c| && 0 <= j < |c[g]| :: c[g][j]
      ensures ShortcutLive()
    {
      forall e | e in Nodes() ensures exists g, j :: 0 <= g < |c| && 0 <= j < |c[g]| && c[g][j] == e {
        var g, j :| 0 <= g < |chains| && 0 <= j < |chains[g]| && chains[g][j] == e;
        if g == h {
          assert d[j] in c[h];
          var i :| 0 <= i < |c[h]| && c[h][i] == e;
        } else {
          assert c[g][j] == e;
        }
      }
      if scdbEntry != null {
        var g, j :| 0 <= g < |c| && 0 <= j < |c[g]| && c[g][j] == was;
        if g == h {
          assert was in d;
          var i :| 0 <= i < |d| && d[i] == was;
          assert chains[h][i] == was;
        } else {
          assert chains[g][j] == was;
        }
      }
    }

    method SweepAt(h: nat, now: nat)
      requires Valid() && ShortcutLive() && h < HASH_SIZE
      modifies this, nethash, Nodes()
      ensures Valid() && ShortcutLive() && Nodes() <= old(Nodes())
      ensures Contents() == old(Contents())[h := SweepChain(old(Contents())[h], now, hz)]
    {
      hide Hash, Expired, SweepChain;
      ghost var c, was := chains, Contents();
      forall g: nat | g < HASH_SIZE && g != h ensures forall j :: 0 <= j < |c[g]| ==> c[g][j] !in c[h] {
        ChainsApart(g, h);
      }
      ghost var d := SweepBucket(h, now, c[h]);
      chains := chains[h := d];
      ChainReplaced(h, d, c, was);
      NodesShrink(h, d, c, old(scdbEntry));
    }

    /** nat25_db_expire: one sweep over the whole table. */
    method Expire(now: nat)
      requires Valid() && ShortcutLive()
      modifies this, nethash, Nodes()
      ensures Valid() && ShortcutLive()
      ensures Contents() == Apply(old(Contents()), Op.Expire(now), hz)
    {
      hide Hash, Expired, SweepChain, ShortcutLive, Valid;
      ghost var was := Contents();
      ValidAt(0);
      var i := 0;
      while i < HASH_SIZE
        invariant 0 <= i <= HASH_SIZE
        invariant Valid() && ShortcutLive() && Nodes() <= old(Nodes()) && |Contents()| == |was| == HASH_SIZE
        invariant forall g :: 0 <= g < i ==> Contents()[g] == SweepChain(was[g], now, hz)
        invariant forall g :: i <= g < HASH_SIZE ==> Contents()[g] == was[g]
      {
        SweepAt(i, now);
        i := i + 1;
      }
    }

    method CleanAt(h: nat)
      requires Valid() && ShortcutLive() && h < HASH_SIZE
      modifies this, nethash, Nodes()
      ensures Valid() && ShortcutLive() && Nodes() <= old(Nodes())
      ensures chains == old(chains)[h := []]
    {
      hide Hash;
      ghost var c, was := chains, Contents();
      forall g: nat | g < HASH_SIZE && g != h ensures forall j :: 0 <= j < |c[g]| ==> c[g][j] !in c[h] {
        ChainsApart(g, h);
      }
      CleanBucket(h, c[h]);
      chains := chains[h := []];
      ChainReplaced(h, [], c, was);
      NodesShrink(h, [], c, old(scdbEntry));
    }

    /** nat25_db_cleanup. */
    method Cleanup()
      requires Valid() && ShortcutLive()
      modifies this, nethash, Nodes()
      ensures Valid() && scdbEntry == null && Nodes() == {}
      ensures Contents() == Apply(old(Contents()), Op.Cleanup, hz)
    {
      hide Hash;
      var i := 0;
      while i < HASH_SIZE
        invariant 0 <= i <= HASH_SIZE
        invariant Valid() && ShortcutLive() && Nodes() <= old(Nodes())
        invariant forall g :: 0 <= g < i ==> chains[g] == []
      {
        CleanAt(i);
        i := i + 1;
      }
      assert forall g :: 0 <= g < HASH_SIZE ==> Contents()[g] == [];
    }

    /** An empty table, as the driver starts with. */
    constructor (hz: nat)
      ensures Valid() && ShortcutLive() && this.hz == hz && fresh(nethash)
      ensures Contents() == Empty()
    {
      this.hz := hz;
      nethash := new Entry?[HASH_SIZE](_ => null);
      scdbEntry := null;
      scdbMac := seq(6, _ => 0);
      scdbIp := seq(4, _ => 0);
      chains := seq(HASH_SIZE, _ => []);
    }
  }
}
