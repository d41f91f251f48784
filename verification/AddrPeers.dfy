/** `CAddrMan::Serialize` and `Unserialize` (src/addrman.h), on the contents of the peers
    file: every length that the file states is kept, the bytes of the parts are not. */
module AddrPeers {
  import opened Results
  import opened Ordering
  import opened AddrTables
  import opened AddrMan

  /** What is written of an entry; the rest is in memory only. */
  datatype Saved = Saved(address: Address, source: NetAddr, lastSuccess: int, attempts: int)

  datatype PeersFile = PeersFile(
    version: int,
    keySize: int,
    key: nat,
    nNew: int,
    nTried: int,
    nUBuckets: int,
    news: seq<Saved>,
    tried: seq<Saved>,
    buckets: seq<seq<int>>)

  const BIT_30 := 0x4000_0000

  /** `n ^ (1 << 30)`. */
  function Toggle30(n: int): int {
    if n / BIT_30 % 2 == 0 then n + BIT_30 else n - BIT_30
  }

  lemma {:induction false} ToggleTwice(n: int)
    ensures Toggle30(Toggle30(n)) == n
  {
    assert (n + BIT_30) / BIT_30 == n / BIT_30 + 1;
    assert (n - BIT_30) / BIT_30 == n / BIT_30 - 1;
  }

  // ---- Writing ----

  function Save(i: AddrInfo): Saved {
    Saved(i.address, i.source, i.lastSuccess, i.attempts)
  }

  /** The entries with references, in the order of their ids. */
  function NewIds(info: map<Id, AddrInfo>, order: seq<Id>): (r: seq<Id>)
    ensures forall i :: 0 <= i < |r| ==> r[i] in info
  {
    if order == [] then []
    else
      var last := order[|order| - 1];
      NewIds(info, order[..|order| - 1]) + (if last in info && info[last].refCount != 0 then [last] else [])
  }

  lemma {:induction false} NewIdsIn(info: map<Id, AddrInfo>, order: seq<Id>, n: Id)
    ensures n in NewIds(info, order) <==> n in order && n in info && info[n].refCount != 0
    decreases |order|
  {
    if order != [] {
      var k := |order| - 1;
      NewIdsIn(info, order[..k], n);
      assert order == order[..k] + [order[k]];
    }
  }

  function TriedIds(info: map<Id, AddrInfo>, order: seq<Id>): (r: seq<Id>)
    ensures forall i :: 0 <= i < |r| ==> r[i] in info
  {
    if order == [] then []
    else
      var last := order[|order| - 1];
      TriedIds(info, order[..|order| - 1]) + (if last in info && info[last].inTried then [last] else [])
  }

  lemma {:induction false} TriedIdsIn(info: map<Id, AddrInfo>, order: seq<Id>, n: Id)
    ensures n in TriedIds(info, order) <==> n in order && n in info && info[n].inTried
    decreases |order|
  {
    if order != [] {
      var k := |order| - 1;
      TriedIdsIn(info, order[..k], n);
      assert order == order[..k] + [order[k]];
    }
  }

  function IndexOf(ids: seq<Id>, n: Id): (i: nat)
    requires n in ids
    ensures i < |ids| && ids[i] == n
  {
    if ids[0] == n then 0 else 1 + IndexOf(ids[1..], n)
  }

  /** The new entries first, as their index is what the buckets are written with. */
  function FileIds(info: map<Id, AddrInfo>): seq<Id> {
    NewIds(info, Ascending(info.Keys)) + TriedIds(info, Ascending(info.Keys))
  }

  /** The first `i` positions of a bucket. */
  function BucketList(news: map<Slot, Id>, ids: seq<Id>, bucket: nat, i: nat): seq<int> {
    if i == 0 then []
    else
      var s := Slot(bucket, i - 1);
      BucketList(news, ids, bucket, i - 1) + (if s in news && news[s] in ids then [IndexOf(ids, news[s])] else [])
  }

  function SaveAll(info: map<Id, AddrInfo>, ids: seq<Id>): (r: seq<Saved>)
    requires forall i :: 0 <= i < |ids| ==> ids[i] in info
    ensures |r| == |ids| && forall i :: 0 <= i < |ids| ==> r[i] == Save(info[ids[i]])
  {
    seq(|ids|, i requires 0 <= i < |ids| => Save(info[ids[i]]))
  }

  function Encoded(key: nat, t: Tables): PeersFile {
    var order := Ascending(t.info.Keys);
    var news, tried := NewIds(t.info, order), TriedIds(t.info, order);
    PeersFile(1, 32, key, t.nNew, t.nTried, Toggle30(NEW_BUCKET_COUNT),
      SaveAll(t.info, news), SaveAll(t.info, tried),
      seq(NEW_BUCKET_COUNT, b requires 0 <= b < NEW_BUCKET_COUNT => BucketList(t.news, news, b, BUCKET_SIZE)))
  }

  /** The fixed numbers of a file: version 1, a key of 32 bytes, and 1024 buckets with bit 30 flipped, so that a reader
      that does not know of the flip finds another number. */
  lemma {:induction false} FileHeader(key: nat, t: Tables)
    ensures var f := Encoded(key, t);
      f.version == 1 && f.keySize == 32 && f.nUBuckets == 0x4000_0400 && |f.buckets| == 1024 && Buckets(f) == 1024
  {
  }

  // ---- Reading ----

  /** The file has as many parts as it says. */
  predicate Readable(f: PeersFile) {
    |f.news| == f.nNew && |f.tried| == f.nTried && |f.buckets| == Buckets(f)
  }

  function Buckets(f: PeersFile): int {
    if f.version != 0 then Toggle30(f.nUBuckets) else f.nUBuckets
  }

  /** The positions in the new table can be used as written. */
  predicate Usable(f: PeersFile) {
    f.version == 1 && Buckets(f) == NEW_BUCKET_COUNT
  }

  function Restored(s: Saved, pos: nat): AddrInfo {
    AddrInfo(s.address, s.source, 0, s.lastSuccess, s.attempts, 0, false, pos)
  }

  function WithNew(h: Hashes, t: Tables, f: PeersFile, n: nat): Tables
    requires n < |f.news|
  {
    var i := Restored(f.news[n], |t.random|);
    var t1 := t.(info := t.info[n := i], addr := t.addr[i.address.service.net := n], random := t.random + [n]);
    var us := NewSlot(h, i.address.service, i.source);
    if Usable(f) || us in t.news then t1
    else t1.(info := t.info[n := i.(refCount := 1)], news := t.news[us := n])
  }

  function NewRead(h: Hashes, f: PeersFile, n: nat): Tables
    requires n <= |f.news|
  {
    if n == 0 then NO_TABLES.(nNew := f.nNew, nTried := f.nTried) else WithNew(h, NewRead(h, f, n - 1), f, n - 1)
  }

  function WithTried(h: Hashes, t: Tables, s: Saved): Tables {
    var ks := TriedSlot(h, s.address.service);
    if ks in t.tried then t.(nTried := t.nTried - 1)
    else
      t.(info := t.info[t.idCount := Restored(s, |t.random|).(inTried := true)],
         addr := t.addr[s.address.service.net := t.idCount],
         random := t.random + [t.idCount],
         tried := t.tried[ks := t.idCount],
         idCount := t.idCount + 1)
  }

  function TriedRead(h: Hashes, f: PeersFile, n: nat): Tables
    requires n <= |f.tried|
  {
    if n == 0 then NewRead(h, f, |f.news|).(idCount := |f.news|)
      else WithTried(h, TriedRead(h, f, n - 1), f.tried[n - 1])
  }

  function WithSlot(h: Hashes, t: Tables, f: PeersFile, bucket: nat, index: int): Tables {
    if index < 0 || index >= f.nNew || index !in t.info || !Usable(f) then t
    else
      var s := Slot(bucket, NewPos(h, t.info[index].address.service, bucket));
      if s in t.news || t.info[index].refCount >= NEW_BUCKETS_PER_ADDRESS then t
      else t.(info := t.info[index := t.info[index].(refCount := t.info[index].refCount + 1)],
        news := t.news[s := index])
  }

  function BucketRead(h: Hashes, t: Tables, f: PeersFile, bucket: nat, indexes: seq<int>): Tables {
    if indexes == [] then t
    else
      var n := |indexes| - 1;
      WithSlot(h, BucketRead(h, t, f, bucket, indexes[..n]), f, bucket, indexes[n])
  }

  function BucketsRead(h: Hashes, f: PeersFile, n: nat): Tables
    requires n <= |f.buckets|
  {
    if n == 0 then TriedRead(h, f, |f.tried|)
    else BucketRead(h, BucketsRead(h, f, n - 1), f, n - 1, f.buckets[n - 1])
  }

  // ---- The round trip ----

  /** `names` numbers the entries as they are written. */
  ghost predicate Naming(t: Tables, ids: seq<Id>, names: map<Id, nat>) {
    && names.Keys == t.info.Keys && t.nNew <= |ids| && 0 <= t.nNew
    && (forall i :: 0 <= i < |ids| ==>
      ids[i] in t.info && names[ids[i]] == i && (t.info[ids[i]].inTried <==> i >= t.nNew))
    && (forall n :: n in t.info ==> names[n] < |ids| && ids[names[n]] == n)
  }

  function Reset(i: AddrInfo, pos: nat, ref: int): AddrInfo {
    i.(lastTry := 0, randomPos := pos, refCount := ref)
  }

  /** An index into the entries, renamed, as far as the first `n` of them go. */
  ghost function Upto<K>(m: map<K, Id>, names: map<Id, nat>, n: nat): map<K, Id> {
    map k | k in m && m[k] in names && names[m[k]] < n :: names[m[k]]
  }

  ghost function Filled(news: map<Slot, Id>, names: map<Id, nat>, done: set<Slot>): map<Slot, Id> {
    map s | s in news && news[s] in names && s in done :: names[news[s]]
  }

  ghost predicate Entries(t: Tables, ids: seq<Id>, n: nat, done: set<Slot>, info: map<Id, AddrInfo>) {
    && (forall i: nat :: i in info <==> i < n)
    && n <= |ids|
    && (forall i: nat :: i < n ==>
      ids[i] in t.info && info[i] == Reset(t.info[ids[i]], i, |SlotsOf(t.news, ids[i]) * done|))
  }

  ghost predicate Counting(random: seq<Id>, n: nat) {
    |random| == n && forall i :: 0 <= i < n ==> random[i] == i
  }

  /** The tables after the first `n` entries were read, the new positions in `done` filled. */
  ghost predicate Progress(t: Tables, ids: seq<Id>, names: map<Id, nat>, n: nat, done: set<Slot>, u: Tables) {
    && Entries(t, ids, n, done, u.info)
    && u.addr == Upto(t.addr, names, n)
    && Counting(u.random, n)
    && u.tried == Upto(t.tried, names, n)
    && u.news == Filled(t.news, names, done)
    && u.nNew == t.nNew && u.nTried == t.nTried
  }

  lemma {:induction false} Distinct(ids: seq<Id>, all: set<Id>)
    requires forall i, j :: 0 <= i < j < |ids| ==> ids[i] != ids[j]
    requires forall n :: n in ids <==> n in all
    ensures |ids| == |all|
    decreases |ids|
  {
    if ids == [] {
      assert all == {};
    } else {
      var last := |ids| - 1;
      var rest := all - {ids[last]};
      forall n ensures n in ids[..last] <==> n in rest {
        if n in rest {
          var i :| 0 <= i < |ids| && ids[i] == n;
          assert ids[..last][i] == n;
        }
      }
      Distinct(ids[..last], rest);
    }
  }

  lemma {:induction false} NewIdsAscend(info: map<Id, AddrInfo>, order: seq<Id>)
    requires forall i, j :: 0 <= i < j < |order| ==> order[i] < order[j]
    ensures forall i, j :: 0 <= i < j < |NewIds(info, order)| ==> NewIds(info, order)[i] < NewIds(info, order)[j]
    decreases |order|
  {
    if order != [] {
      var n := |order| - 1;
      NewIdsAscend(info, order[..n]);
      var before := NewIds(info, order[..n]);
      forall i | 0 <= i < |before| ensures before[i] < order[n] {
        NewIdsIn(info, order[..n], before[i]);
        assert before[i] in before;
        var j :| 0 <= j < n && order[..n][j] == before[i];
      }
    }
  }

  lemma {:induction false} TriedIdsAscend(info: map<Id, AddrInfo>, order: seq<Id>)
    requires forall i, j :: 0 <= i < j < |order| ==> order[i] < order[j]
    ensures forall i, j :: 0 <= i < j < |TriedIds(info, order)| ==> TriedIds(info, order)[i] < TriedIds(info, order)[j]
    decreases |order|
  {
    if order != [] {
      var n := |order| - 1;
      TriedIdsAscend(info, order[..n]);
      var before := TriedIds(info, order[..n]);
      forall i | 0 <= i < |before| ensures before[i] < order[n] {
        TriedIdsIn(info, order[..n], before[i]);
        assert before[i] in before;
        var j :| 0 <= j < n && order[..n][j] == before[i];
      }
    }
  }

  /** The entries with references are those not tried. */
  lemma {:induction false} ReferencedAreNew(h: Hashes, t: Tables, n: Id)
    requires Inv(h, t) && n in t.info
    ensures t.info[n].refCount != 0 <==> !t.info[n].inTried
  {
    if t.info[n].inTried {
      TriedUnreferenced(h, t.info, t.news, n);
    }
  }

  lemma {:induction false} CountsAreLengths(h: Hashes, t: Tables)
    requires Inv(h, t)
    ensures |NewIds(t.info, Ascending(t.info.Keys))| == t.nNew
    ensures |TriedIds(t.info, Ascending(t.info.Keys))| == t.nTried
  {
    var order := Ascending(t.info.Keys);
    NewIdsAscend(t.info, order);
    TriedIdsAscend(t.info, order);
    forall n ensures n in NewIds(t.info, order) <==> n in NonTried(t.info) {
      NewIdsIn(t.info, order, n);
      if n in t.info { ReferencedAreNew(h, t, n); }
    }
    forall n ensures n in TriedIds(t.info, order) <==> n in InTried(t.info) {
      TriedIdsIn(t.info, order, n);
    }
    Distinct(NewIds(t.info, order), NonTried(t.info));
    Distinct(TriedIds(t.info, order), InTried(t.info));
  }

  ghost function Names(info: map<Id, AddrInfo>, ids: seq<Id>): map<Id, nat>
    requires forall n :: n in info ==> n in ids
  {
    map n | n in info :: IndexOf(ids, n)
  }

  lemma {:induction false} AllWritten(h: Hashes, t: Tables)
    requires Inv(h, t)
    ensures forall n :: n in FileIds(t.info) <==> n in t.info
    ensures forall i, j :: 0 <= i < j < |FileIds(t.info)| ==> FileIds(t.info)[i] != FileIds(t.info)[j]
  {
    hide Inv, NewIds, TriedIds, Ascending;
    var order := Ascending(t.info.Keys);
    NewIdsAscend(t.info, order);
    TriedIdsAscend(t.info, order);
    var a, b := NewIds(t.info, order), TriedIds(t.info, order);
    forall n ensures n in a + b <==> n in t.info
             ensures !(n in a && n in b)
    {
      NewIdsIn(t.info, order, n);
      TriedIdsIn(t.info, order, n);
      if n in t.info { ReferencedAreNew(h, t, n); }
    }
    forall i, j | 0 <= i < j < |a + b| ensures (a + b)[i] != (a + b)[j] {
      if i < |a| <= j {
        assert a[i] in a && b[j - |a|] in b;
      }
    }
  }

  lemma {:induction false} NamingHolds(h: Hashes, t: Tables, ids: seq<Id>)
    requires Inv(h, t) && ids == FileIds(t.info)
    ensures forall n :: n in t.info ==> n in ids
    ensures Naming(t, ids, Names(t.info, ids))
  {
    hide Inv, NewIds, TriedIds, Ascending;
    AllWritten(h, t);
    CountsAreLengths(h, t);
    var names := Names(t.info, ids);
    var order := Ascending(t.info.Keys);
    var a, b := NewIds(t.info, order), TriedIds(t.info, order);
    forall i | 0 <= i < |ids| ensures ids[i] in t.info && (t.info[ids[i]].inTried <==> i >= t.nNew) {
      assert ids[i] in ids;
      ReferencedAreNew(h, t, ids[i]);
      KindByPlace(t.info, order, i);
    }
  }

  lemma {:induction false} KindByPlace(info: map<Id, AddrInfo>, order: seq<Id>, i: nat)
    requires (forall n :: n in order ==> n in info) && i < |NewIds(info, order) + TriedIds(info, order)|
    requires var n := (NewIds(info, order) + TriedIds(info, order))[i];
             n in info && (info[n].refCount != 0 <==> !info[n].inTried)
    ensures info[(NewIds(info, order) + TriedIds(info, order))[i]].inTried <==> i >= |NewIds(info, order)|
  {
    hide NewIds, TriedIds;
    var a, b := NewIds(info, order), TriedIds(info, order);
    var n := (a + b)[i];
    NewIdsIn(info, order, n);
    TriedIdsIn(info, order, n);
    assert if i < |a| then n == a[i] && a[i] in a else n == b[i - |a|] && b[i - |a|] in b;
  }

  lemma {:induction false} ProgressStart(t: Tables, ids: seq<Id>, names: map<Id, nat>)
    requires Naming(t, ids, names)
    ensures Progress(t, ids, names, 0, {}, NO_TABLES.(nNew := t.nNew, nTried := t.nTried))
  {
  }

  /** The next entry extends an index in which it has one key. */
  lemma {:induction false} UptoNext<K>(m: map<K, Id>, names: map<Id, nat>, n: nat, id: Id, k: K)
    requires id in names && names[id] == n && k in m && m[k] == id
    requires forall x :: x in m && m[x] in names && names[m[x]] == n ==> x == k
    ensures Upto(m, names, n)[k := n] == Upto(m, names, n + 1)
    ensures k !in Upto(m, names, n)
  {
  }

  lemma {:induction false} UptoSame<K>(m: map<K, Id>, names: map<Id, nat>, n: nat)
    requires forall x :: x in m && m[x] in names ==> names[m[x]] != n
    ensures Upto(m, names, n) == Upto(m, names, n + 1)
  {
  }

  lemma {:induction false} AddrNext(h: Hashes, t: Tables, ids: seq<Id>, names: map<Id, nat>, n: nat)
    requires Inv(h, t) && Naming(t, ids, names) && n < |ids|
    ensures Upto(t.addr, names, n)[t.info[ids[n]].address.service.net := n] == Upto(t.addr, names, n + 1)
  {
    WeakParts(h, t, 0);
    hide Inv, Weak;
    UptoNext(t.addr, names, n, ids[n], t.info[ids[n]].address.service.net);
  }

  lemma {:induction false} TriedNext(h: Hashes, t: Tables, ids: seq<Id>, names: map<Id, nat>, n: nat)
    requires Inv(h, t) && Naming(t, ids, names) && n < |ids|
    ensures n < t.nNew ==> Upto(t.tried, names, n) == Upto(t.tried, names, n + 1)
    ensures var ks := TriedSlot(h, t.info[ids[n]].address.service);
      n >= t.nNew ==> ks !in Upto(t.tried, names, n) && Upto(t.tried, names, n)[ks := n] == Upto(t.tried, names, n + 1)
  {
    WeakParts(h, t, 0);
    hide Inv, Weak;
    if n < t.nNew {
      UptoSame(t.tried, names, n);
    } else {
      UptoNext(t.tried, names, n, ids[n], TriedSlot(h, t.info[ids[n]].address.service));
    }
  }

  lemma {:induction false} EntriesNext(t: Tables, ids: seq<Id>, n: nat, info: map<Id, AddrInfo>, i: AddrInfo)
    requires Entries(t, ids, n, {}, info) && n < |ids| && ids[n] in t.info && i == Reset(t.info[ids[n]], n, 0)
    ensures Entries(t, ids, n + 1, {}, info[n := i])
  {
    assert SlotsOf(t.news, ids[n]) * {} == {};
  }

  lemma {:induction false} NamedAt(t: Tables, ids: seq<Id>, names: map<Id, nat>, n: nat)
    requires Naming(t, ids, names) && n < |ids|
    ensures ids[n] in t.info && ids[n] in names && names[ids[n]] == n && (t.info[ids[n]].inTried <==> n >= t.nNew)
  {
  }

  lemma {:induction false} NewStep(h: Hashes, t: Tables, ids: seq<Id>, names: map<Id, nat>, n: nat, u: Tables,
      f: PeersFile)
    requires Inv(h, t) && Naming(t, ids, names) && n < t.nNew && n < |ids| && Progress(t, ids, names, n, {}, u)
    requires ids[n] in t.info && n < |f.news| && f.news[n] == Save(t.info[ids[n]]) && Usable(f)
    ensures Progress(t, ids, names, n + 1, {}, WithNew(h, u, f, n))
  {
    hide Inv, Upto, Filled, TriedSlot, SlotsOf, Naming, Entries;
    AddrNext(h, t, ids, names, n);
    TriedNext(h, t, ids, names, n);
    NamedAt(t, ids, names, n);
    EntriesNext(t, ids, n, u.info, Restored(f.news[n], n));
  }

  lemma {:induction false} TriedStep(h: Hashes, t: Tables, ids: seq<Id>, names: map<Id, nat>, n: nat, u: Tables)
    requires Inv(h, t) && Naming(t, ids, names) && t.nNew <= n < |ids| && Progress(t, ids, names, n, {}, u)
      && u.idCount == n
    ensures ids[n] in t.info
    ensures var u1 := WithTried(h, u, Save(t.info[ids[n]]));
      Progress(t, ids, names, n + 1, {}, u1) && u1.idCount == n + 1
  {
    hide Inv, Upto, Filled, TriedSlot, SlotsOf, Naming, Entries;
    NamedAt(t, ids, names, n);
    AddrNext(h, t, ids, names, n);
    TriedNext(h, t, ids, names, n);
    RefOfTried(h, t, ids[n]);
    EntriesNext(t, ids, n, u.info, Restored(Save(t.info[ids[n]]), n).(inTried := true));
  }

  lemma {:induction false} RefOfTried(h: Hashes, t: Tables, n: Id)
    requires Inv(h, t) && n in t.info && t.info[n].inTried
    ensures t.info[n].refCount == 0
  {
    TriedUnreferenced(h, t.info, t.news, n);
  }

  // ---- The positions of the new table ----

  lemma {:induction false} SlotEntries(t: Tables, ids: seq<Id>, n: nat, done: set<Slot>, info: map<Id, AddrInfo>,
      s: Slot, k: nat)
    requires Entries(t, ids, n, done, info) && k < n && s in t.news && t.news[s] == ids[k] && s !in done
    requires forall i :: 0 <= i < n && ids[i] == ids[k] ==> i == k
    ensures Entries(t, ids, n, done + {s}, info[k := info[k].(refCount := info[k].refCount + 1)])
    ensures info[k].refCount + 1 <= |SlotsOf(t.news, ids[k])|
  {
    hide SlotsOf;
    var mine := SlotsOf(t.news, ids[k]);
    OneMoreSlot(t.news, done, s);
    forall i: nat | i < n && i != k
      ensures SlotsOf(t.news, ids[i]) * (done + {s}) == SlotsOf(t.news, ids[i]) * done
    {
      OtherSlots(t.news, done, s, ids[i]);
    }
    Within(mine * (done + {s}), mine);
  }

  lemma {:induction false} OneMoreSlot(news: map<Slot, Id>, done: set<Slot>, s: Slot)
    requires s in news && s !in done
    ensures |SlotsOf(news, news[s]) * (done + {s})| == |SlotsOf(news, news[s]) * done| + 1
  {
    var mine := SlotsOf(news, news[s]);
    assert mine * (done + {s}) == mine * done + {s};
  }

  lemma {:induction false} OtherSlots(news: map<Slot, Id>, done: set<Slot>, s: Slot, n: Id)
    requires s in news && news[s] != n
    ensures SlotsOf(news, n) * (done + {s}) == SlotsOf(news, n) * done
  {
  }

  lemma {:induction false} Within<T>(a: set<T>, b: set<T>)
    requires a <= b
    ensures |a| <= |b|
    decreases |a|
  {
    if a != {} {
      var x :| x in a;
      Within(a - {x}, b - {x});
    }
  }

  lemma {:induction false} FilledNext(news: map<Slot, Id>, names: map<Id, nat>, done: set<Slot>, s: Slot)
    requires s in news && news[s] in names && s !in done
    ensures Filled(news, names, done)[s := names[news[s]]] == Filled(news, names, done + {s})
    ensures s !in Filled(news, names, done)
  {
  }

  /** Reading one position puts the renamed entry where it was. */
  lemma {:induction false} SlotStep(h: Hashes, t: Tables, ids: seq<Id>, names: map<Id, nat>, done: set<Slot>,
      u: Tables, f: PeersFile, s: Slot)
    requires Inv(h, t) && Naming(t, ids, names) && Progress(t, ids, names, |ids|, done, u) && f.nNew == t.nNew
      && Usable(f)
    requires s in t.news && s !in done
    ensures t.news[s] in names
    ensures Progress(t, ids, names, |ids|, done + {s}, WithSlot(h, u, f, s.bucket, names[t.news[s]]))
  {
    hide Inv, Upto, Filled, SlotsOf, Naming, Entries, NewPos;
    SlotOfNew(h, t, s);
    var n := t.news[s];
    NamedBy(t, ids, names, n);
    var k := names[n];
    EntryOf(t, ids, |ids|, done, u.info, k);
    SlotEntries(t, ids, |ids|, done, u.info, s, k);
    FilledNext(t.news, names, done, s);
    InfoTimes(h, t, n);
  }

  lemma {:induction false} NamedBy(t: Tables, ids: seq<Id>, names: map<Id, nat>, n: Id)
    requires Naming(t, ids, names) && n in t.info
    ensures n in names && names[n] < |ids| && ids[names[n]] == n && (names[n] < t.nNew <==> !t.info[n].inTried)
    ensures forall i :: 0 <= i < |ids| && ids[i] == n ==> i == names[n]
  {
  }

  lemma {:induction false} EntryOf(t: Tables, ids: seq<Id>, n: nat, done: set<Slot>, info: map<Id, AddrInfo>, k: nat)
    requires Entries(t, ids, n, done, info) && k < n
    ensures k in info && ids[k] in t.info && info[k] == Reset(t.info[ids[k]], k, |SlotsOf(t.news, ids[k]) * done|)
  {
  }

  lemma {:induction false} SlotOfNew(h: Hashes, t: Tables, s: Slot)
    requires Inv(h, t) && s in t.news
    ensures t.news[s] in t.info && !t.info[t.news[s]].inTried && s.bucket < NEW_BUCKET_COUNT
    ensures s.pos == NewPos(h, t.info[t.news[s]].address.service, s.bucket) && s.pos < BUCKET_SIZE
  {
  }

  // ---- The file as a whole ----

  /** The entries of the file are those of `t`, in the order of `ids`. */
  ghost predicate FileOf(t: Tables, ids: seq<Id>, f: PeersFile) {
    && f.nNew == t.nNew && f.nTried == t.nTried
    && |f.news| == t.nNew && |f.tried| == t.nTried && |ids| == t.nNew + t.nTried
    && (forall i :: 0 <= i < t.nNew ==> ids[i] in t.info && f.news[i] == Save(t.info[ids[i]]))
    && (forall i :: t.nNew <= i < |ids| ==> ids[i] in t.info && f.tried[i - t.nNew] == Save(t.info[ids[i]]))
  }

  lemma {:induction false} FileCounts(t: Tables, ids: seq<Id>, f: PeersFile)
    requires FileOf(t, ids, f)
    ensures f.nNew == t.nNew == |f.news| && f.nTried == t.nTried == |f.tried| && |ids| == t.nNew + t.nTried
  {
  }

  lemma {:induction false} FileAt(t: Tables, ids: seq<Id>, f: PeersFile, i: nat)
    requires FileOf(t, ids, f) && i < |ids|
    ensures ids[i] in t.info && f.nNew == t.nNew == |f.news| && f.nTried == t.nTried == |f.tried|
    ensures (if i < t.nNew then f.news[i] else f.tried[i - t.nNew]) == Save(t.info[ids[i]])
  {
  }

  lemma {:induction false} FileOfParts(t: Tables, ids: seq<Id>, f: PeersFile, a: seq<Id>, b: seq<Id>)
    requires ids == a + b && |a| == t.nNew == f.nNew && |b| == t.nTried == f.nTried
    requires (forall i :: 0 <= i < |a| ==> a[i] in t.info) && (forall i :: 0 <= i < |b| ==> b[i] in t.info)
    requires f.news == SaveAll(t.info, a) && f.tried == SaveAll(t.info, b)
    ensures FileOf(t, ids, f)
  {
    hide SaveAll;
  }

  lemma {:induction false} FileParts(h: Hashes, t: Tables, ids: seq<Id>, key: nat, f: PeersFile)
    requires Inv(h, t) && ids == FileIds(t.info) && f == Encoded(key, t)
    ensures Usable(f) && Readable(f) && FileOf(t, ids, f) && f.keySize == 32
    ensures |f.buckets| == NEW_BUCKET_COUNT && t.nNew <= |ids|
    ensures forall b :: 0 <= b < NEW_BUCKET_COUNT ==> f.buckets[b] == BucketList(t.news, ids[..t.nNew], b, BUCKET_SIZE)
  {
    hide Inv, NewIds, TriedIds, Ascending, BucketList, SaveAll, FileOf;
    CountsAreLengths(h, t);
    ToggleTwice(NEW_BUCKET_COUNT);
    var order := Ascending(t.info.Keys);
    var a, b := NewIds(t.info, order), TriedIds(t.info, order);
    assert ids[..t.nNew] == a;
    FileOfParts(t, ids, f, a, b);
  }

  lemma {:induction false} NewReadProgress(h: Hashes, t: Tables, ids: seq<Id>, names: map<Id, nat>, f: PeersFile,
      n: nat)
    requires Inv(h, t) && Naming(t, ids, names) && Usable(f) && FileOf(t, ids, f) && n <= |f.news|
    ensures Progress(t, ids, names, n, {}, NewRead(h, f, n))
  {
    hide Inv, Naming, WithNew, Progress, FileOf;
    FileCounts(t, ids, f);
    if n == 0 {
      ProgressStart(t, ids, names);
    } else {
      FileAt(t, ids, f, n - 1);
      NewReadProgress(h, t, ids, names, f, n - 1);
      NewStep(h, t, ids, names, n - 1, NewRead(h, f, n - 1), f);
    }
  }

  lemma {:induction false} ProgressIds(t: Tables, ids: seq<Id>, names: map<Id, nat>, n: nat, done: set<Slot>, u: Tables)
    requires Progress(t, ids, names, n, done, u)
    ensures forall count :: Progress(t, ids, names, n, done, u.(idCount := count))
  {
  }

  lemma {:induction false} TriedReadProgress(h: Hashes, t: Tables, ids: seq<Id>, names: map<Id, nat>, f: PeersFile,
      n: nat)
    requires Inv(h, t) && Naming(t, ids, names) && Usable(f) && FileOf(t, ids, f) && n <= |f.tried|
    ensures Progress(t, ids, names, |f.news| + n, {}, TriedRead(h, f, n)) && TriedRead(h, f, n).idCount == |f.news| + n
  {
    hide Inv, Naming, WithTried, NewRead, Progress, FileOf;
    FileCounts(t, ids, f);
    if n == 0 {
      NewReadProgress(h, t, ids, names, f, |f.news|);
      ProgressIds(t, ids, names, |f.news|, {}, NewRead(h, f, |f.news|));
    } else {
      FileAt(t, ids, f, |f.news| + n - 1);
      TriedReadProgress(h, t, ids, names, f, n - 1);
      TriedStep(h, t, ids, names, |f.news| + n - 1, TriedRead(h, f, n - 1));
    }
  }

  ghost function Before(news: map<Slot, Id>, bucket: nat, i: nat): set<Slot> {
    set s | s in news && (s.bucket < bucket || (s.bucket == bucket && s.pos < i))
  }

  lemma {:induction false} BeforeNext(news: map<Slot, Id>, bucket: nat, i: nat)
    ensures Before(news, bucket, i + 1)
         == Before(news, bucket, i) + (if Slot(bucket, i) in news then {Slot(bucket, i)} else {})
    ensures Slot(bucket, i) !in Before(news, bucket, i)
  {
    forall s | s in Before(news, bucket, i + 1) && s !in Before(news, bucket, i) ensures s == Slot(bucket, i) {}
  }

  lemma {:induction false} IndexIsName(t: Tables, ids: seq<Id>, names: map<Id, nat>, n: Id)
    requires Naming(t, ids, names) && n in t.info && !t.info[n].inTried
    ensures n in ids[..t.nNew] && n in names && IndexOf(ids[..t.nNew], n) == names[n]
  {
    NamedBy(t, ids, names, n);
    assert ids[..t.nNew][names[n]] == n;
  }

  /** Reading the first `i` positions of a bucket as they were written. */
  lemma {:induction false} BucketProgress(h: Hashes, t: Tables, ids: seq<Id>, names: map<Id, nat>, u: Tables,
      f: PeersFile, bucket: nat, i: nat)
    requires Inv(h, t) && Naming(t, ids, names) && Usable(f) && f.nNew == t.nNew
    requires Progress(t, ids, names, |ids|, Before(t.news, bucket, 0), u)
    ensures Progress(t, ids, names, |ids|, Before(t.news, bucket, i),
                     BucketRead(h, u, f, bucket, BucketList(t.news, ids[..t.nNew], bucket, i)))
    ensures BucketRead(h, u, f, bucket, BucketList(t.news, ids[..t.nNew], bucket, i)).idCount == u.idCount
    decreases i
  {
    hide Inv, Progress, Before;
    if i > 0 {
      BucketProgress(h, t, ids, names, u, f, bucket, i - 1);
      BeforeNext(t.news, bucket, i - 1);
      var s := Slot(bucket, i - 1);
      var list := BucketList(t.news, ids[..t.nNew], bucket, i - 1);
      if s in t.news {
        SlotOfNew(h, t, s);
        IndexIsName(t, ids, names, t.news[s]);
        SlotStep(h, t, ids, names, Before(t.news, bucket, i - 1), BucketRead(h, u, f, bucket, list), f, s);
        var list1 := list + [names[t.news[s]]];
        assert list1[..|list1| - 1] == list;
      } else {
        assert list + [] == list;
        assert Before(t.news, bucket, i - 1) + {} == Before(t.news, bucket, i - 1);
      }
    }
  }

  lemma {:induction false} BeforeBucket(h: Hashes, t: Tables, bucket: nat)
    requires Inv(h, t)
    ensures Before(t.news, bucket, BUCKET_SIZE) == Before(t.news, bucket + 1, 0)
    ensures Before(t.news, 0, 0) == {}
    ensures Before(t.news, NEW_BUCKET_COUNT, 0) == t.news.Keys
  {
    forall s | s in t.news ensures s.bucket < NEW_BUCKET_COUNT && s.pos < BUCKET_SIZE {
      SlotOfNew(h, t, s);
    }
  }

  lemma {:induction false} BucketsProgress(h: Hashes, t: Tables, ids: seq<Id>, names: map<Id, nat>, f: PeersFile,
      n: nat)
    requires Inv(h, t) && Naming(t, ids, names) && Usable(f) && f.nNew == t.nNew
    requires |f.buckets| == NEW_BUCKET_COUNT && n <= NEW_BUCKET_COUNT
    requires forall b :: 0 <= b < NEW_BUCKET_COUNT ==> f.buckets[b] == BucketList(t.news, ids[..t.nNew], b, BUCKET_SIZE)
    requires Progress(t, ids, names, |ids|, {}, TriedRead(h, f, |f.tried|))
      && TriedRead(h, f, |f.tried|).idCount == |ids|
    ensures Progress(t, ids, names, |ids|, Before(t.news, n, 0), BucketsRead(h, f, n))
      && BucketsRead(h, f, n).idCount == |ids|
  {
    hide Inv, Progress, Before, Naming, BucketList, BucketRead;
    if n == 0 {
      BeforeBucket(h, t, 0);
    } else {
      BucketsProgress(h, t, ids, names, f, n - 1);
      BucketProgress(h, t, ids, names, BucketsRead(h, f, n - 1), f, n - 1, BUCKET_SIZE);
      BeforeBucket(h, t, n - 1);
    }
  }

  // ---- Pruning ----

  lemma {:induction false} DeletedRandom(t: Tables, id: Id)
    requires RandomOk(t.info, t.random) && id in t.info
    ensures var u := Deleted(t, id); RandomOk(u.info, u.random)
  {
    CanDelete(t.info, t.random, id);
    var i, j := t.info[id].randomPos, |t.random| - 1;
    if i != j {
      SwapRandomOk(t.info, t.random, i, j);
    }
    hide RandomOk;
    var t1 := Swapped(t, i, j);
    DropRandom(t1.info, t1.random, id);
  }

  /** The last loop of `Unserialize`, after `i` ids. */
  function Pruned(t: Tables, order: seq<Id>, i: nat): (u: Tables)
    requires RandomOk(t.info, t.random) && i <= |order|
    ensures RandomOk(u.info, u.random)
  {
    if i == 0 then t
    else
      var u := Pruned(t, order, i - 1);
      var id := order[i - 1];
      if id in u.info && !u.info[id].inTried && u.info[id].refCount == 0 then
        DeletedRandom(u, id);
        Deleted(u, id)
      else u
  }

  lemma {:induction false} NothingPruned(t: Tables, order: seq<Id>, i: nat)
    requires RandomOk(t.info, t.random) && i <= |order|
    requires forall n :: n in t.info && !t.info[n].inTried ==> t.info[n].refCount != 0
    ensures Pruned(t, order, i) == t
  {
    hide RandomOk;
    if i > 0 {
      NothingPruned(t, order, i - 1);
    }
  }

  /** Whatever the file holds, the random order is in order. */
  lemma {:induction false} NewReadRandom(h: Hashes, f: PeersFile, n: nat)
    requires n <= |f.news|
    ensures RandomOk(NewRead(h, f, n).info, NewRead(h, f, n).random)
    ensures forall i :: i in NewRead(h, f, n).info ==> i < n
  {
    if n > 0 {
      NewReadRandom(h, f, n - 1);
    }
  }

  lemma {:induction false} TriedReadRandom(h: Hashes, f: PeersFile, n: nat)
    requires n <= |f.tried|
    ensures RandomOk(TriedRead(h, f, n).info, TriedRead(h, f, n).random)
    ensures forall i :: i in TriedRead(h, f, n).info ==> i < TriedRead(h, f, n).idCount
  {
    if n == 0 {
      NewReadRandom(h, f, |f.news|);
    } else {
      TriedReadRandom(h, f, n - 1);
    }
  }

  lemma {:induction false} BucketReadRandom(h: Hashes, t: Tables, f: PeersFile, bucket: nat, indexes: seq<int>)
    requires RandomOk(t.info, t.random)
    ensures RandomOk(BucketRead(h, t, f, bucket, indexes).info, BucketRead(h, t, f, bucket, indexes).random)
    decreases |indexes|
  {
    if indexes != [] {
      BucketReadRandom(h, t, f, bucket, indexes[..|indexes| - 1]);
    }
  }

  lemma {:induction false} BucketsReadRandom(h: Hashes, f: PeersFile, n: nat)
    requires n <= |f.buckets|
    ensures RandomOk(BucketsRead(h, f, n).info, BucketsRead(h, f, n).random)
  {
    hide RandomOk, BucketRead;
    if n == 0 {
      TriedReadRandom(h, f, |f.tried|);
    } else {
      BucketsReadRandom(h, f, n - 1);
      BucketReadRandom(h, BucketsRead(h, f, n - 1), f, n - 1, f.buckets[n - 1]);
    }
  }

  function Loaded(h: Hashes, f: PeersFile): Tables {
    BucketsReadRandom(h, f, |f.buckets|);
    var t := BucketsRead(h, f, |f.buckets|);
    Pruned(t, Ascending(t.info.Keys), |Ascending(t.info.Keys)|)
  }

  // ---- The theorem ----

  /** The same index under other names. */
  ghost predicate RenamedIndex<K>(m: map<K, Id>, r: map<K, Id>, names: map<Id, nat>) {
    r.Keys == m.Keys && forall k :: k in m ==> m[k] in names && r[k] == names[m[k]]
  }

  /** The same entries under other names; the time of the last try is forgotten. */
  ghost predicate RenamedInfo(a: map<Id, AddrInfo>, b: map<Id, AddrInfo>, names: map<Id, nat>) {
    && names.Keys == a.Keys
    && (forall n, m :: n in names && m in names && names[n] == names[m] ==> n == m)
    && (forall n :: n in a ==> names[n] in b && b[names[n]] == a[n].(lastTry := 0, randomPos := b[names[n]].randomPos))
    && (forall i :: i in b ==> i in names.Values)
  }

  ghost predicate Renamed(t: Tables, u: Tables, names: map<Id, nat>) {
    && RenamedInfo(t.info, u.info, names)
    && RenamedIndex(t.news, u.news, names)
    && RenamedIndex(t.tried, u.tried, names)
    && RenamedIndex(t.addr, u.addr, names)
    && u.nNew == t.nNew && u.nTried == t.nTried
  }

  lemma {:induction false} EntryRead(h: Hashes, t: Tables, ids: seq<Id>, names: map<Id, nat>, info: map<Id, AddrInfo>,
      n: Id)
    requires Inv(h, t) && Naming(t, ids, names) && Entries(t, ids, |ids|, t.news.Keys, info) && n in t.info
    ensures n in names && names[n] in info
      && info[names[n]] == t.info[n].(lastTry := 0, randomPos := info[names[n]].randomPos)
  {
    hide Inv, SlotsOf, Naming, Entries;
    NamedBy(t, ids, names, n);
    EntryOf(t, ids, |ids|, t.news.Keys, info, names[n]);
    AllSlots(t.news, n);
    InfoTimes(h, t, n);
  }

  lemma {:induction false} NamesBijective(t: Tables, ids: seq<Id>, names: map<Id, nat>, info: map<Id, AddrInfo>)
    requires Naming(t, ids, names) && (forall i: nat :: i in info <==> i < |ids|)
    ensures names.Keys == t.info.Keys
    ensures forall n, m :: n in names && m in names && names[n] == names[m] ==> n == m
    ensures forall i :: i in info ==> i in names.Values
  {
    forall n, m | n in names && m in names && names[n] == names[m] ensures n == m {
      assert ids[names[n]] == n && ids[names[m]] == m;
    }
    forall i | i in info ensures i in names.Values {
      assert ids[i] in names && names[ids[i]] == i;
    }
  }

  lemma {:induction false} EntriesRead(h: Hashes, t: Tables, ids: seq<Id>, names: map<Id, nat>, info: map<Id, AddrInfo>)
    requires Inv(h, t) && Naming(t, ids, names) && Entries(t, ids, |ids|, t.news.Keys, info)
    ensures RenamedInfo(t.info, info, names)
  {
    hide Inv, Naming;
    assert forall i: nat :: i in info <==> i < |ids|;
    hide Entries;
    NamesBijective(t, ids, names, info);
    forall n | n in t.info
      ensures names[n] in info && info[names[n]] == t.info[n].(lastTry := 0, randomPos := info[names[n]].randomPos)
    {
      EntryRead(h, t, ids, names, info, n);
    }
  }

  lemma {:induction false} AllSlots(news: map<Slot, Id>, n: Id)
    ensures SlotsOf(news, n) * news.Keys == SlotsOf(news, n)
  {
  }

  lemma {:induction false} IndexRead<K>(m: map<K, Id>, names: map<Id, nat>, n: nat)
    requires forall k :: k in m ==> m[k] in names && names[m[k]] < n
    ensures RenamedIndex(m, Upto(m, names, n), names)
  {
  }

  lemma {:induction false} NewsRead(news: map<Slot, Id>, names: map<Id, nat>)
    requires forall k :: k in news ==> news[k] in names
    ensures RenamedIndex(news, Filled(news, names, news.Keys), names)
  {
  }

  lemma {:induction false} IndexesNamed(h: Hashes, t: Tables, ids: seq<Id>, names: map<Id, nat>)
    requires Inv(h, t) && Naming(t, ids, names)
    ensures forall k :: k in t.news ==> t.news[k] in names
    ensures forall k :: k in t.tried ==> t.tried[k] in names && names[t.tried[k]] < |ids|
    ensures forall k :: k in t.addr ==> t.addr[k] in names && names[t.addr[k]] < |ids|
  {
    hide RandomOk, RefsExact, NonTried, InTried, TimesOk, IdsOk, NewPos, TriedSlot, RefsOk;
  }

  lemma {:induction false} AllRead(h: Hashes, t: Tables, ids: seq<Id>, names: map<Id, nat>, u: Tables)
    requires Inv(h, t) && Naming(t, ids, names) && Progress(t, ids, names, |ids|, t.news.Keys, u)
    ensures Renamed(t, u, names)
  {
    hide Inv, Naming, Entries, RenamedIndex, RenamedInfo;
    EntriesRead(h, t, ids, names, u.info);
    IndexesNamed(h, t, ids, names);
    IndexRead(t.tried, names, |ids|);
    IndexRead(t.addr, names, |ids|);
    NewsRead(t.news, names);
  }

  // ---- A renamed manager is consistent ----

  lemma {:induction false} RenamedAddrOk(a: map<Id, AddrInfo>, b: map<Id, AddrInfo>, addr: map<NetAddr, Id>,
      addr1: map<NetAddr, Id>, names: map<Id, nat>)
    requires RenamedInfo(a, b, names) && RenamedIndex(addr, addr1, names) && AddrOk(a, addr)
    ensures AddrOk(b, addr1)
  {
    forall i | i in b ensures b[i].address.service.net in addr1 && addr1[b[i].address.service.net] == i {
      var n := NameOf(a, b, names, i);
    }
  }

  lemma {:induction false} NameOf(a: map<Id, AddrInfo>, b: map<Id, AddrInfo>, names: map<Id, nat>, i: Id)
      returns (n: Id)
    requires RenamedInfo(a, b, names) && i in b
    ensures n in a && n in names && names[n] == i && b[i] == a[n].(lastTry := 0, randomPos := b[i].randomPos)
  {
    assert i in names.Values;
    n :| n in names && names[n] == i;
  }

  lemma {:induction false} RenamedTriedOk(h: Hashes, a: map<Id, AddrInfo>, b: map<Id, AddrInfo>, tried: map<Slot, Id>,
      tried1: map<Slot, Id>, names: map<Id, nat>)
    requires RenamedInfo(a, b, names) && RenamedIndex(tried, tried1, names) && TriedOk(h, a, tried)
    ensures TriedOk(h, b, tried1)
  {
    hide TriedSlot;
    forall i | i in b && b[i].inTried
      ensures TriedSlot(h, b[i].address.service) in tried1 && tried1[TriedSlot(h, b[i].address.service)] == i
    {
      var n := NameOf(a, b, names, i);
    }
  }

  lemma {:induction false} RenamedNewOk(h: Hashes, a: map<Id, AddrInfo>, b: map<Id, AddrInfo>, news: map<Slot, Id>,
      news1: map<Slot, Id>, names: map<Id, nat>)
    requires RenamedInfo(a, b, names) && RenamedIndex(news, news1, names) && NewOk(h, a, news) && RefsExact(a, news)
      && RefsOk(a, {})
    ensures NewOk(h, b, news1) && RefsExact(b, news1) && RefsOk(b, {})
  {
    hide NewPos, SlotsOf;
    forall i | i in b
      ensures b[i].refCount == |SlotsOf(news1, i)| && (!b[i].inTried ==> 1 <= b[i].refCount <= NEW_BUCKETS_PER_ADDRESS)
    {
      var n := NameOf(a, b, names, i);
      RenamedSlots(news, news1, names, n);
    }
  }

  lemma {:induction false} RenamedSlots(news: map<Slot, Id>, news1: map<Slot, Id>, names: map<Id, nat>, n: Id)
    requires RenamedIndex(news, news1, names) && n in names
    requires forall k, m :: k in names && m in names && names[k] == names[m] ==> k == m
    ensures SlotsOf(news1, names[n]) == SlotsOf(news, n)
  {
  }

  lemma {:induction false} SameCount(a: set<Id>, b: set<Id>, names: map<Id, nat>)
    requires forall n :: n in a ==> n in names && names[n] in b
    requires forall i :: i in b ==> exists n :: n in a && n in names && names[n] == i
    requires forall n, m :: n in names && m in names && names[n] == names[m] ==> n == m
    ensures |a| == |b|
    decreases |a|
  {
    if a == {} {
      assert b == {};
    } else {
      var n :| n in a;
      var b1 := b - {names[n]};
      forall i | i in b1 ensures exists m :: m in a - {n} && m in names && names[m] == i {
        var m :| m in a && m in names && names[m] == i;
        assert m in a - {n};
      }
      SameCount(a - {n}, b1, names);
    }
  }

  lemma {:induction false} RenamedCounts(a: map<Id, AddrInfo>, b: map<Id, AddrInfo>, names: map<Id, nat>)
    requires RenamedInfo(a, b, names) && TimesOk(a)
    ensures |NonTried(b)| == |NonTried(a)| && |InTried(b)| == |InTried(a)| && TimesOk(b)
  {
    forall i | i in b
      ensures b[i].lastTry >= 0 && b[i].lastSuccess >= 0 && (b[i].inTried ==> b[i].lastSuccess != 0)
      ensures exists n :: n in a && n in names && names[n] == i && a[n].inTried == b[i].inTried
    {
      var n := NameOf(a, b, names, i);
    }
    SameCount(NonTried(a), NonTried(b), names);
    SameCount(InTried(a), InTried(b), names);
  }

  lemma {:induction false} RenamedInv(h: Hashes, t: Tables, u: Tables, names: map<Id, nat>)
    requires Inv(h, t) && Renamed(t, u, names) && RandomOk(u.info, u.random) && IdsOk(u.info, u.idCount)
    ensures Inv(h, u)
  {
    hide AddrOk, TriedOk, NewOk, RefsExact, RefsOk, NonTried, InTried, RandomOk, TimesOk, IdsOk, RenamedInfo,
      RenamedIndex;
    RenamedAddrOk(t.info, u.info, t.addr, u.addr, names);
    RenamedTriedOk(h, t.info, u.info, t.tried, u.tried, names);
    RenamedNewOk(h, t.info, u.info, t.news, u.news, names);
    RenamedCounts(t.info, u.info, names);
  }

  // ---- The limits on the counts ----

  lemma {:induction false} OneSlotEach(ids: set<Id>, slots: map<Slot, Id>)
    requires forall n :: n in ids ==> exists s :: s in slots && slots[s] == n
    ensures |ids| <= |slots.Keys|
    decreases |ids|
  {
    if ids != {} {
      var n :| n in ids;
      var s :| s in slots && slots[s] == n;
      forall m | m in ids - {n} ensures exists x :: x in slots - {s} && (slots - {s})[x] == m {
        var x :| x in slots && slots[x] == m;
        assert x in slots - {s};
      }
      OneSlotEach(ids - {n}, slots - {s});
      assert (slots - {s}).Keys == slots.Keys - {s};
    }
  }

  lemma {:induction false} GridSize(slots: set<Slot>, rows: nat)
    requires forall s :: s in slots ==> s.bucket < rows && s.pos < BUCKET_SIZE
    ensures |slots| <= rows * BUCKET_SIZE
    decreases rows
  {
    if rows == 0 {
      assert slots == {};
    } else {
      var row := set s | s in slots && s.bucket == rows - 1;
      RowSize(row, rows - 1, BUCKET_SIZE);
      GridSize(slots - row, rows - 1);
      assert |slots| == |slots - row| + |row| by { assert slots == (slots - row) + row; }
    }
  }

  lemma {:induction false} RowSize(row: set<Slot>, bucket: nat, n: nat)
    requires forall s :: s in row ==> s.bucket == bucket && s.pos < n
    ensures |row| <= n
    decreases n
  {
    if n == 0 {
      assert row == {};
    } else {
      RowSize(row - {Slot(bucket, n - 1)}, bucket, n - 1);
    }
  }

  /** No consistent manager exceeds the limits that `Unserialize` checks. */
  lemma {:induction false} WithinLimits(h: Hashes, t: Tables)
    requires Inv(h, t)
    ensures 0 <= t.nNew <= NEW_BUCKET_COUNT * BUCKET_SIZE && 0 <= t.nTried <= TRIED_BUCKET_COUNT * BUCKET_SIZE
  {
    forall n | n in NonTried(t.info) ensures exists s :: s in t.news && t.news[s] == n {
      assert |SlotsOf(t.news, n)| >= 1;
      var s :| s in SlotsOf(t.news, n);
    }
    OneSlotEach(NonTried(t.info), t.news);
    GridSize(t.news.Keys, NEW_BUCKET_COUNT);
    OneSlotEach(InTried(t.info), t.tried);
    GridSize(t.tried.Keys, TRIED_BUCKET_COUNT);
  }

  lemma {:induction false} ProgressKeys(t: Tables, ids: seq<Id>, names: map<Id, nat>, n: nat, done: set<Slot>,
      u: Tables)
    requires Progress(t, ids, names, n, done, u)
    ensures IdsOk(u.info, n)
  {
  }

  lemma {:induction false} FileRead(h: Hashes, t: Tables, ids: seq<Id>, names: map<Id, nat>, f: PeersFile)
    requires Inv(h, t) && Naming(t, ids, names) && Usable(f) && FileOf(t, ids, f)
    requires |f.buckets| == NEW_BUCKET_COUNT && t.nNew <= |ids|
    requires forall b :: 0 <= b < NEW_BUCKET_COUNT ==> f.buckets[b] == BucketList(t.news, ids[..t.nNew], b, BUCKET_SIZE)
    ensures var u := BucketsRead(h, f, |f.buckets|); Renamed(t, u, names) && Inv(h, u)
  {
    hide Inv, Naming, Progress, Renamed, BucketsRead, TriedRead, RandomOk, FileOf, Usable, Before, BucketList, IdsOk;
    FileCounts(t, ids, f);
    TriedReadProgress(h, t, ids, names, f, |f.tried|);
    BucketsProgress(h, t, ids, names, f, NEW_BUCKET_COUNT);
    BeforeBucket(h, t, 0);
    var u := BucketsRead(h, f, |f.buckets|);
    AllRead(h, t, ids, names, u);
    ProgressKeys(t, ids, names, |ids|, t.news.Keys, u);
    BucketsReadRandom(h, f, |f.buckets|);
    RenamedInv(h, t, u, names);
  }

  /** Writing a consistent manager and reading it back gives a consistent manager with the
      same entries at the same slots of both tables, under other ids: nothing is refused,
      lost or pruned. */
  lemma {:induction false} RoundTrip(h: Hashes, key: nat, t: Tables) returns (names: map<Id, nat>)
    requires Inv(h, t)
    ensures Accepts(Encoded(key, t))
    ensures Renamed(t, Loaded(h, Encoded(key, t)), names) && Inv(h, Loaded(h, Encoded(key, t)))
  {
    hide Inv, Naming, Progress, Renamed, Encoded, BucketsRead, RandomOk, FileOf, Usable;
    var f, ids := Encoded(key, t), FileIds(t.info);
    NamingHolds(h, t, ids);
    names := Names(t.info, ids);
    FileParts(h, t, ids, key, f);
    WithinLimits(h, t);
    FileCounts(t, ids, f);
    BucketsReadRandom(h, f, |f.buckets|);
    var u := BucketsRead(h, f, |f.buckets|);
    FileRead(h, t, ids, names, f);
    forall n | n in u.info && !u.info[n].inTried ensures u.info[n].refCount != 0 {
      ReferencedAreNew(h, u, n);
    }
    NothingPruned(u, Ascending(u.info.Keys), |Ascending(u.info.Keys)|);
  }

  predicate Accepts(f: PeersFile) {
    Readable(f) && f.keySize == 32 && f.nNew <= NEW_BUCKET_COUNT * BUCKET_SIZE
      && f.nTried <= TRIED_BUCKET_COUNT * BUCKET_SIZE
  }

  // ---- The code ----

  lemma {:induction false} NewIdsPrefix(info: map<Id, AddrInfo>, order: seq<Id>, i: nat)
    requires i <= |order|
    ensures NewIds(info, order[..i]) <= NewIds(info, order)
    decreases |order|
  {
    if i < |order| {
      var n := |order| - 1;
      NewIdsPrefix(info, order[..n], i);
      assert order[..n][..i] == order[..i];
    } else {
      assert order[..i] == order;
    }
  }

  lemma {:induction false} TriedIdsPrefix(info: map<Id, AddrInfo>, order: seq<Id>, i: nat)
    requires i <= |order|
    ensures TriedIds(info, order[..i]) <= TriedIds(info, order)
    decreases |order|
  {
    if i < |order| {
      var n := |order| - 1;
      TriedIdsPrefix(info, order[..n], i);
      assert order[..n][..i] == order[..i];
    } else {
      assert order[..i] == order;
    }
  }

  lemma {:induction false} NewIdsTurn(info: map<Id, AddrInfo>, order: seq<Id>, i: nat)
    requires i < |order| && order[i] in info
    requires forall a, b :: 0 <= a < b < |order| ==> order[a] < order[b]
    ensures var before, after := NewIds(info, order[..i]), NewIds(info, order[..i + 1]);
      && after == before + (if info[order[i]].refCount != 0 then [order[i]] else [])
      && (forall x :: 0 <= x < |before| ==> before[x] != order[i])
      && |after| <= |NewIds(info, order)|
  {
    assert order[..i + 1][..i] == order[..i];
    NewIdsPrefix(info, order, i + 1);
    hide NewIds;
    var before := NewIds(info, order[..i]);
    forall x | 0 <= x < |before| ensures before[x] != order[i] {
      NewIdsIn(info, order[..i], before[x]);
      assert before[x] in before;
      var j :| 0 <= j < i && order[..i][j] == before[x];
      assert order[j] < order[i];
    }
  }

  lemma {:induction false} TriedIdsTurn(info: map<Id, AddrInfo>, order: seq<Id>, i: nat)
    requires i < |order| && order[i] in info
    ensures var before, after := TriedIds(info, order[..i]), TriedIds(info, order[..i + 1]);
      && after == before + (if info[order[i]].inTried then [order[i]] else [])
      && |after| <= |TriedIds(info, order)|
  {
    assert order[..i + 1][..i] == order[..i];
    TriedIdsPrefix(info, order, i + 1);
  }

  /** The first loop of `Serialize`: `unk` is its `mapUnkIds`. */
  method SaveNew(info: map<Id, AddrInfo>, order: seq<Id>, nNew: int) returns (news: seq<Saved>, unk: map<Id, int>)
    requires forall i :: 0 <= i < |order| ==> order[i] in info
    requires forall i, j :: 0 <= i < j < |order| ==> order[i] < order[j]
    requires |NewIds(info, order)| == nNew
    ensures news == SaveAll(info, NewIds(info, order))
    ensures forall x :: 0 <= x < nNew ==> NewIds(info, order)[x] in unk && unk[NewIds(info, order)[x]] == x
  {
    var nIds := 0;
    news, unk := [], map[];
    ghost var ids: seq<Id> := [];
    for i := 0 to |order|
      invariant ids == NewIds(info, order[..i])
      invariant nIds == |news| == |ids|
      invariant forall x :: 0 <= x < nIds ==> ids[x] in info && news[x] == Save(info[ids[x]])
      invariant forall x :: 0 <= x < nIds ==> ids[x] in unk && unk[ids[x]] == x
    {
      hide NewIds;
      NewIdsTurn(info, order, i);
      var id := order[i];
      unk := unk[id := nIds];
      if info[id].refCount != 0 {
        assert nIds != nNew;
        news := news + [Save(info[id])];
        nIds := nIds + 1;
        ids := ids + [id];
      }
    }
    assert order[..|order|] == order;
  }

  method SaveTried(info: map<Id, AddrInfo>, order: seq<Id>, nTried: int) returns (tried: seq<Saved>)
    requires forall i :: 0 <= i < |order| ==> order[i] in info
    requires |TriedIds(info, order)| == nTried
    ensures tried == SaveAll(info, TriedIds(info, order))
  {
    var nIds := 0;
    tried := [];
    ghost var ids: seq<Id> := [];
    for i := 0 to |order|
      invariant ids == TriedIds(info, order[..i])
      invariant nIds == |tried| == |ids|
      invariant forall x :: 0 <= x < nIds ==> ids[x] in info && tried[x] == Save(info[ids[x]])
    {
      hide TriedIds;
      TriedIdsTurn(info, order, i);
      var id := order[i];
      if info[id].inTried {
        assert nIds != nTried;
        tried := tried + [Save(info[id])];
        nIds := nIds + 1;
        ids := ids + [id];
      }
    }
    assert order[..|order|] == order;
  }

  method SaveBucket(news: map<Slot, Id>, unk: map<Id, int>, bucket: nat, ghost ids: seq<Id>) returns (list: seq<int>)
    requires forall x :: 0 <= x < |ids| ==> ids[x] in unk && unk[ids[x]] == x
    requires forall s :: s in news ==> news[s] in ids
    ensures list == BucketList(news, ids, bucket, BUCKET_SIZE)
  {
    list := [];
    for i := 0 to BUCKET_SIZE
      invariant list == BucketList(news, ids, bucket, i)
    {
      var s := Slot(bucket, i);
      if s in news {
        assert news[s] == ids[IndexOf(ids, news[s])];
        list := list + [unk[news[s]]];
      }
    }
  }

  /** `Serialize`. */
  method Serialize(m: AddrManager, key: nat) returns (f: PeersFile)
    requires m.Valid()
    ensures f == Encoded(key, m.T())
  {
    hide Ascending, NewIds, TriedIds, BucketList, Inv;
    var order := Ascending(m.info.Keys);
    CountsAreLengths(m.h, m.T());
    forall i | 0 <= i < |order| ensures order[i] in m.info {
      assert order[i] in order;
    }
    var news, unk := SaveNew(m.info, order, m.nNew);
    var tried := SaveTried(m.info, order, m.nTried);
    ghost var ids := NewIds(m.info, order);
    forall s | s in m.news ensures m.news[s] in ids {
      SlotOfNew(m.h, m.T(), s);
      ReferencedAreNew(m.h, m.T(), m.news[s]);
      NewIdsIn(m.info, order, m.news[s]);
    }
    var buckets := [];
    for b := 0 to NEW_BUCKET_COUNT
      invariant |buckets| == b
      invariant forall x :: 0 <= x < b ==> buckets[x] == BucketList(m.news, ids, x, BUCKET_SIZE)
    {
      var list := SaveBucket(m.news, unk, b, ids);
      buckets := buckets + [list];
    }
    f := PeersFile(1, 32, key, m.nNew, m.nTried, Toggle30(NEW_BUCKET_COUNT), news, tried, buckets);
  }

  method ReadNewEntry(m: AddrManager, f: PeersFile, n: nat)
    requires n < |f.news|
    modifies m
    ensures m.T() == WithNew(m.h, old(m.T()), f, n)
  {
    var i := Restored(f.news[n], |m.random|);
    m.info := m.info[n := i];
    m.addr := m.addr[i.address.service.net := n];
    m.random := m.random + [n];
    if !Usable(f) {
      var us := NewSlot(m.h, i.address.service, i.source);
      if us !in m.news {
        m.news := m.news[us := n];
        m.info := m.info[n := m.info[n].(refCount := m.info[n].refCount + 1)];
        assert m.info == old(m.info)[n := i.(refCount := 1)];
      }
    }
  }

  method ReadNew(m: AddrManager, f: PeersFile)
    requires m.T() == NO_TABLES
    modifies m
    ensures m.T() == NewRead(m.h, f, |f.news|)
  {
    hide WithNew;
    m.nNew, m.nTried := f.nNew, f.nTried;
    for n := 0 to |f.news|
      invariant m.T() == NewRead(m.h, f, n)
    {
      ReadNewEntry(m, f, n);
    }
  }

  method ReadTriedEntry(m: AddrManager, s: Saved) returns (lost: bool)
    modifies m
    ensures m.T().(nTried := m.nTried - (if lost then 1 else 0)) == WithTried(m.h, old(m.T()), s)
      && m.nTried == old(m.nTried)
  {
    var i := Restored(s, |m.random|);
    var ks := TriedSlot(m.h, i.address.service);
    lost := ks in m.tried;
    if !lost {
      m.random := m.random + [m.idCount];
      m.info := m.info[m.idCount := i.(inTried := true)];
      m.addr := m.addr[i.address.service.net := m.idCount];
      m.tried := m.tried[ks := m.idCount];
      m.idCount := m.idCount + 1;
    }
  }

  lemma {:induction false} WithTriedCount(h: Hashes, t: Tables, s: Saved, k: int)
    ensures WithTried(h, t.(nTried := t.nTried + k), s) == WithTried(h, t, s).(nTried := WithTried(h, t, s).nTried + k)
  {
  }

  method ReadTried(m: AddrManager, f: PeersFile)
    requires m.T() == NewRead(m.h, f, |f.news|)
    modifies m
    ensures m.T() == TriedRead(m.h, f, |f.tried|)
  {
    hide WithTried, NewRead;
    m.idCount := |f.news|;
    var nLost := 0;
    for n := 0 to |f.tried|
      invariant m.T().(nTried := m.nTried - nLost) == TriedRead(m.h, f, n)
    {
      ghost var t := TriedRead(m.h, f, n);
      WithTriedCount(m.h, t, f.tried[n], nLost);
      assert t.(nTried := t.nTried + nLost) == m.T();
      var lost := ReadTriedEntry(m, f.tried[n]);
      nLost := if lost then nLost + 1 else nLost;
    }
    m.nTried := m.nTried - nLost;
  }

  method ReadBucket(m: AddrManager, f: PeersFile, bucket: nat)
    requires bucket < |f.buckets|
    modifies m
    ensures m.T() == BucketRead(m.h, old(m.T()), f, bucket, f.buckets[bucket])
  {
    var indexes := f.buckets[bucket];
    for n := 0 to |indexes|
      invariant m.T() == BucketRead(m.h, old(m.T()), f, bucket, indexes[..n])
    {
      assert indexes[..n + 1][..n] == indexes[..n];
      var index := indexes[n];
      if 0 <= index < f.nNew && index in m.info {
        var s := Slot(bucket, NewPos(m.h, m.info[index].address.service, bucket));
        if Usable(f) && s !in m.news && m.info[index].refCount < NEW_BUCKETS_PER_ADDRESS {
          m.info := m.info[index := m.info[index].(refCount := m.info[index].refCount + 1)];
          m.news := m.news[s := index];
        }
      }
    }
    assert indexes[..|indexes|] == indexes;
  }

  /** `Unserialize` into a fresh manager that hashes with the key of the file. */
  method Unserialize(family: nat -> Hashes, f: PeersFile) returns (r: Option<AddrManager>)
    ensures r.Some? <==> Accepts(f)
    ensures r.Some? ==> fresh(r.value) && r.value.h == family(f.key) && r.value.T() == Loaded(family(f.key), f)
  {
    hide RandomOk, NewRead, TriedRead, BucketRead, Ascending;
    if !Readable(f) || f.keySize != 32 || f.nNew > NEW_BUCKET_COUNT * BUCKET_SIZE
      || f.nTried > TRIED_BUCKET_COUNT * BUCKET_SIZE {
      return None;
    }
    var m := new AddrManager(family(f.key));
    ReadNew(m, f);
    ReadTried(m, f);
    for b := 0 to |f.buckets|
      invariant m.h == family(f.key) && m.T() == BucketsRead(m.h, f, b)
    {
      ReadBucket(m, f, b);
    }
    BucketsReadRandom(m.h, f, |f.buckets|);
    ghost var t := m.T();
    var order := Ascending(m.info.Keys);
    for i := 0 to |order|
      invariant RandomOk(m.info, m.random) && m.T() == Pruned(t, order, i)
    {
      var id := order[i];
      if id in m.info && !m.info[id].inTried && m.info[id].refCount == 0 {
        DeletedRandom(m.T(), id);
        m.Delete(id);
      }
    }
    r := Some(m);
  }
}
