/** For which peers files reading gives a consistent manager (src/addrman.h). */
module AddrLoaded {
  import opened Ordering
  import opened AddrTables
  import opened AddrPeers

  // ---- What reading always keeps ----

  /** The index knows, of the entries with an address, the one read last. */
  ghost predicate Indexed(info: map<Id, AddrInfo>, addr: map<NetAddr, Id>) {
    && (forall n :: n in info ==> info[n].address.service.net in addr)
    && (forall a :: a in addr ==> addr[a] in info && info[addr[a]].address.service.net == a)
  }

  /** New entries come first, and nothing was tried since the file was written. */
  ghost predicate Ordered(info: map<Id, AddrInfo>, news: nat) {
    forall n :: n in info ==>
      (info[n].inTried <==> n >= news) && info[n].lastTry == 0 && info[n].refCount <= NEW_BUCKETS_PER_ADDRESS
  }

  /** The tables while a file with the given number of new entries is read. */
  ghost predicate Reading(h: Hashes, t: Tables, news: nat) {
    && Indexed(t.info, t.addr) && Ordered(t.info, news)
    && TriedOk(h, t.info, t.tried) && NewOk(h, t.info, t.news) && RefsExact(t.info, t.news)
  }

  lemma {:induction false} NoSlots(news: map<Slot, Id>, info: map<Id, AddrInfo>, n: Id)
    requires n !in info && forall s :: s in news ==> news[s] in info
    ensures SlotsOf(news, n) == {}
  {
  }

  /** A new entry, in one slot or in none. */
  lemma {:induction false} EntryRefs(info: map<Id, AddrInfo>, news: map<Slot, Id>, n: Id, i: AddrInfo, us: Slot)
    requires RefsExact(info, news) && n !in info && forall s :: s in news ==> news[s] in info
    ensures i.refCount == 0 ==> RefsExact(info[n := i], news)
    ensures i.refCount == 1 && us !in news ==> RefsExact(info[n := i], news[us := n])
  {
    hide SlotsOf;
    NoSlots(news, info, n);
    if i.refCount == 1 && us !in news {
      var without := info[n := i.(refCount := 0)];
      assert RefsExact(without, news);
      ListedRefs(without, news, n, us);
      assert without[n := without[n].(refCount := 1)] == info[n := i];
    }
  }

  lemma {:induction false} IndexedMore(info: map<Id, AddrInfo>, addr: map<NetAddr, Id>, n: Id, i: AddrInfo)
    requires Indexed(info, addr) && n !in info
    ensures Indexed(info[n := i], addr[i.address.service.net := n])
  {
  }

  lemma {:induction false} IndexedSame(a: map<Id, AddrInfo>, b: map<Id, AddrInfo>, addr: map<NetAddr, Id>)
    requires Indexed(a, addr) && a.Keys == b.Keys && forall n :: n in a ==> b[n].address == a[n].address
    ensures Indexed(b, addr)
  {
  }

  lemma {:induction false} TriedOkMore(h: Hashes, info: map<Id, AddrInfo>, tried: map<Slot, Id>, n: Id, i: AddrInfo)
    requires TriedOk(h, info, tried) && n !in info
    ensures !i.inTried ==> TriedOk(h, info[n := i], tried)
    ensures i.inTried && TriedSlot(h, i.address.service) !in tried ==>
              TriedOk(h, info[n := i], tried[TriedSlot(h, i.address.service) := n])
  {
    hide TriedSlot;
  }

  lemma {:induction false} TriedOkSame(h: Hashes, a: map<Id, AddrInfo>, tried: map<Slot, Id>, n: Id, ref: int)
    requires TriedOk(h, a, tried) && n in a
    ensures TriedOk(h, a[n := a[n].(refCount := ref)], tried)
  {
    hide TriedSlot;
  }

  lemma {:induction false} NewOkEntry(h: Hashes, info: map<Id, AddrInfo>, news: map<Slot, Id>, n: Id, i: AddrInfo)
    requires NewOk(h, info, news) && n !in info
    ensures NewOk(h, info[n := i], news)
    ensures !i.inTried ==> NewOk(h, info[n := i], news[NewSlot(h, i.address.service, i.source) := n])
  {
    hide NewPos;
  }

  lemma {:induction false} OrderedMore(info: map<Id, AddrInfo>, news: nat, n: Id, i: AddrInfo)
    requires Ordered(info, news) && (i.inTried <==> n >= news) && i.lastTry == 0
    requires i.refCount <= NEW_BUCKETS_PER_ADDRESS
    ensures Ordered(info[n := i], news)
  {
  }

  lemma {:induction false} NewOkIds(h: Hashes, info: map<Id, AddrInfo>, news: map<Slot, Id>)
    requires NewOk(h, info, news)
    ensures forall s :: s in news ==> news[s] in info
  {
  }

  lemma {:induction false} NewEntry(h: Hashes, t: Tables, f: PeersFile, n: nat)
    requires n < |f.news| && Reading(h, t, |f.news|) && n !in t.info
    ensures Reading(h, WithNew(h, t, f, n), |f.news|)
    ensures WithNew(h, t, f, n).info.Keys == t.info.Keys + {n}
  {
    hide RefsExact, Indexed, Ordered, TriedOk, NewOk, Usable, NewSlot;
    var i := Restored(f.news[n], |t.random|);
    var us := NewSlot(h, i.address.service, i.source);
    var r := if Usable(f) || us in t.news then i else i.(refCount := 1);
    NewOkIds(h, t.info, t.news);
    EntryRefs(t.info, t.news, n, r, us);
    IndexedMore(t.info, t.addr, n, r);
    OrderedMore(t.info, |f.news|, n, r);
    TriedOkMore(h, t.info, t.tried, n, r);
    NewOkEntry(h, t.info, t.news, n, r);
  }

  lemma {:induction false} TriedEntry(h: Hashes, t: Tables, s: Saved, news: nat)
    requires Reading(h, t, news) && IdsOk(t.info, t.idCount) && t.idCount >= news
    ensures Reading(h, WithTried(h, t, s), news) && IdsOk(WithTried(h, t, s).info, WithTried(h, t, s).idCount)
    ensures WithTried(h, t, s).idCount >= t.idCount
  {
    hide RefsExact, Indexed, Ordered, TriedOk, NewOk, TriedSlot;
    if TriedSlot(h, s.address.service) !in t.tried {
      var i := Restored(s, |t.random|).(inTried := true);
      NewOkIds(h, t.info, t.news);
      EntryRefs(t.info, t.news, t.idCount, i, Slot(0, 0));
      IndexedMore(t.info, t.addr, t.idCount, i);
      OrderedMore(t.info, news, t.idCount, i);
      TriedOkMore(h, t.info, t.tried, t.idCount, i);
      NewOkEntry(h, t.info, t.news, t.idCount, i);
    }
  }

  lemma {:induction false} SlotEntry(h: Hashes, t: Tables, f: PeersFile, bucket: nat, index: int)
    requires Reading(h, t, |f.news|) && f.nNew == |f.news| && (Usable(f) ==> bucket < NEW_BUCKET_COUNT)
    ensures Reading(h, WithSlot(h, t, f, bucket, index), |f.news|)
    ensures WithSlot(h, t, f, bucket, index) == t.(info := WithSlot(h, t, f, bucket, index).info,
              news := WithSlot(h, t, f, bucket, index).news)
    ensures WithSlot(h, t, f, bucket, index).info.Keys == t.info.Keys
  {
    hide RefsExact, Indexed, TriedOk, NewOk, Usable, NewPos;
    if 0 <= index < f.nNew && index in t.info && Usable(f) {
      var s := Slot(bucket, NewPos(h, t.info[index].address.service, bucket));
      var ref := t.info[index].refCount;
      if s !in t.news && ref < NEW_BUCKETS_PER_ADDRESS {
        var after := t.info[index := t.info[index].(refCount := ref + 1)];
        ListedRefs(t.info, t.news, index, s);
        NewOkMore(h, t.info, t.news, index, ref + 1, s);
        IndexedSame(t.info, after, t.addr);
        TriedOkSame(h, t.info, t.tried, index, ref + 1);
        OrderedMore(t.info, |f.news|, index, after[index]);
      }
    }
  }

  // ---- The whole file ----

  lemma {:induction false} NewReading(h: Hashes, f: PeersFile, n: nat)
    requires n <= |f.news|
    ensures var t := NewRead(h, f, n);
      && Reading(h, t, |f.news|) && (forall i: nat :: i in t.info <==> i < n)
      && t.nNew == f.nNew && t.nTried == f.nTried
  {
    hide Reading, WithNew;
    if n == 0 {
      NothingRead(h, f);
    } else {
      NewReading(h, f, n - 1);
      NewEntry(h, NewRead(h, f, n - 1), f, n - 1);
      NewCounts(h, NewRead(h, f, n - 1), f, n - 1);
    }
  }

  lemma {:induction false} NothingRead(h: Hashes, f: PeersFile)
    ensures Reading(h, NO_TABLES.(nNew := f.nNew, nTried := f.nTried), |f.news|)
  {
  }

  lemma {:induction false} NewCounts(h: Hashes, t: Tables, f: PeersFile, n: nat)
    requires n < |f.news|
    ensures WithNew(h, t, f, n).nNew == t.nNew && WithNew(h, t, f, n).nTried == t.nTried
  {
  }

  /** The state after k tried entries; those that found no slot are taken off the count. */
  ghost predicate TriedCounted(t: Tables, f: PeersFile, k: nat) {
    && IdsOk(t.info, t.idCount) && t.idCount >= |f.news| && (forall i: nat :: i < |f.news| ==> i in t.info)
    && t.nNew == f.nNew && t.nTried + k == f.nTried + |InTried(t.info)|
  }

  lemma {:induction false} TriedReading(h: Hashes, f: PeersFile, k: nat)
    requires k <= |f.tried|
    ensures Reading(h, TriedRead(h, f, k), |f.news|) && TriedCounted(TriedRead(h, f, k), f, k)
  {
    hide Reading, TriedCounted, NewRead, WithTried;
    if k == 0 {
      NoneTried(h, f, NewRead(h, f, |f.news|));
    } else {
      TriedReading(h, f, k - 1);
      TriedEntryAt(h, TriedRead(h, f, k - 1), f, k - 1);
    }
  }

  lemma {:induction false} NoneTried(h: Hashes, f: PeersFile, t: Tables)
    requires t == NewRead(h, f, |f.news|)
    ensures Reading(h, t.(idCount := |f.news|), |f.news|) && TriedCounted(t.(idCount := |f.news|), f, 0)
  {
    hide NewRead, TriedOk, NewOk, RefsExact, Indexed;
    NewReading(h, f, |f.news|);
    assert InTried(t.info) == {};
  }

  lemma {:induction false} TriedEntryAt(h: Hashes, t: Tables, f: PeersFile, k: nat)
    requires k < |f.tried| && Reading(h, t, |f.news|) && TriedCounted(t, f, k)
    ensures Reading(h, WithTried(h, t, f.tried[k]), |f.news|) && TriedCounted(WithTried(h, t, f.tried[k]), f, k + 1)
  {
    hide Reading, TriedSlot;
    TriedEntry(h, t, f.tried[k], |f.news|);
    var r := WithTried(h, t, f.tried[k]);
    if TriedSlot(h, f.tried[k].address.service) !in t.tried {
      assert InTried(r.info) == InTried(t.info) + {t.idCount};
    }
  }

  lemma {:induction false} BucketReading(h: Hashes, t: Tables, f: PeersFile, bucket: nat, indexes: seq<int>)
    requires Reading(h, t, |f.news|) && f.nNew == |f.news| && (Usable(f) ==> bucket < NEW_BUCKET_COUNT)
    ensures var r := BucketRead(h, t, f, bucket, indexes);
      Reading(h, r, |f.news|) && r.info.Keys == t.info.Keys && r == t.(info := r.info, news := r.news)
    decreases |indexes|
  {
    hide Reading, WithSlot;
    if indexes != [] {
      var n := |indexes| - 1;
      BucketReading(h, t, f, bucket, indexes[..n]);
      SlotEntry(h, BucketRead(h, t, f, bucket, indexes[..n]), f, bucket, indexes[n]);
    }
  }

  lemma {:induction false} BucketsReading(h: Hashes, f: PeersFile, n: nat)
    requires Readable(f) && n <= |f.buckets|
    ensures var r, t := BucketsRead(h, f, n), TriedRead(h, f, |f.tried|);
      Reading(h, r, |f.news|) && r.info.Keys == t.info.Keys && r == t.(info := r.info, news := r.news)
  {
    hide Reading, BucketRead, TriedRead;
    if n == 0 {
      TriedReading(h, f, |f.tried|);
    } else {
      BucketsReading(h, f, n - 1);
      BucketReading(h, BucketsRead(h, f, n - 1), f, n - 1, f.buckets[n - 1]);
    }
  }

  ghost function UpTo(m: nat): (r: set<nat>)
    ensures |r| == m && forall i: nat :: i in r <==> i < m
  {
    if m == 0 then {} else UpTo(m - 1) + {m - 1}
  }

  /** The tables before entries without a slot are dropped. */
  ghost predicate Complete(h: Hashes, t: Tables, news: nat) {
    && Reading(h, t, news) && RandomOk(t.info, t.random) && IdsOk(t.info, t.idCount)
    && t.nNew == |NonTried(t.info)| && t.nTried == |InTried(t.info)|
  }

  lemma {:induction false} FileComplete(h: Hashes, f: PeersFile)
    requires Readable(f)
    ensures Complete(h, BucketsRead(h, f, |f.buckets|), |f.news|)
  {
    hide BucketsRead, TriedRead, RandomOk, TriedOk, NewOk, RefsExact, Indexed;
    var t, r := TriedRead(h, f, |f.tried|), BucketsRead(h, f, |f.buckets|);
    TriedReading(h, f, |f.tried|);
    BucketsReading(h, f, |f.buckets|);
    BucketsReadRandom(h, f, |f.buckets|);
    assert NonTried(r.info) == UpTo(|f.news|);
    assert InTried(r.info) == InTried(t.info);
  }

  // ---- Dropping what found no slot ----

  predicate Homeless(info: map<Id, AddrInfo>, n: Id) {
    n in info && !info[n].inTried && info[n].refCount == 0
  }

  ghost function Gone(info: map<Id, AddrInfo>, order: seq<Id>): set<Id> {
    set n | n in order && Homeless(info, n)
  }

  ghost function Nets(info: map<Id, AddrInfo>, ids: set<Id>): set<NetAddr>
    requires forall n :: n in ids ==> n in info
  {
    set n | n in ids :: info[n].address.service.net
  }

  lemma {:induction false} DeletedForm(t: Tables, id: Id)
    requires RandomOk(t.info, t.random) && id in t.info
    ensures var u := Deleted(t, id);
      && Kept(t.info, u.info, {id}) && u.addr == t.addr - {t.info[id].address.service.net}
      && u.news == t.news && u.tried == t.tried && u.idCount == t.idCount
      && u.nTried == t.nTried && u.nNew == t.nNew - 1
  {
    hide RandomOk;
    CanDelete(t.info, t.random, id);
    var i, j := t.info[id].randomPos, |t.random| - 1;
    SwappedKept(t, i, j);
    KeptDrop(t.info, Swapped(t, i, j).info, id);
  }

  /** What dropping the homeless entries of a list leaves. */
  ghost predicate Dropped(t: Tables, u: Tables, gone: set<Id>)
    requires forall n :: n in gone ==> n in t.info
  {
    && Kept(t.info, u.info, gone) && u.addr == t.addr - Nets(t.info, gone)
    && u.news == t.news && u.tried == t.tried && u.idCount == t.idCount
    && u.nTried == t.nTried && u.nNew == t.nNew - |gone|
  }

  lemma {:induction false} PrunedForm(t: Tables, order: seq<Id>, i: nat)
    requires RandomOk(t.info, t.random) && i <= |order| && forall a, b :: 0 <= a < b < |order| ==> order[a] < order[b]
    ensures Dropped(t, Pruned(t, order, i), Gone(t.info, order[..i]))
  {
    hide RandomOk, Dropped, Gone, Homeless, Deleted, Kept;
    GoneIn(t.info, order[..i]);
    if i == 0 {
      NothingDropped(t, order[..0]);
    } else {
      PrunedForm(t, order, i - 1);
      var u, id := Pruned(t, order, i - 1), order[i - 1];
      assert order[..i] == order[..i - 1] + [id];
      assert id !in order[..i - 1];
      GoneMore(t.info, order[..i - 1], id);
      StillHomeless(t, u, Gone(t.info, order[..i - 1]), id);
      if Homeless(t.info, id) {
        CanDelete(u.info, u.random, id);
        DeletedForm(u, id);
        OneMoreDropped(t, u, Deleted(u, id), Gone(t.info, order[..i - 1]), id);
      }
    }
  }

  lemma {:induction false} GoneIn(info: map<Id, AddrInfo>, order: seq<Id>)
    ensures forall n :: n in Gone(info, order) ==> n in info
  {
  }

  lemma {:induction false} NothingDropped(t: Tables, order: seq<Id>)
    requires order == []
    ensures Gone(t.info, order) == {} && Dropped(t, t, {})
  {
    assert Nets(t.info, {}) == {};
  }

  lemma {:induction false} GoneMore(info: map<Id, AddrInfo>, order: seq<Id>, id: Id)
    requires id !in order
    ensures Gone(info, order + [id]) == if Homeless(info, id) then Gone(info, order) + {id} else Gone(info, order)
    ensures id !in Gone(info, order) && (Homeless(info, id) ==> id in info)
  {
  }

  lemma {:induction false} StillHomeless(t: Tables, u: Tables, gone: set<Id>, id: Id)
    requires (forall n :: n in gone ==> n in t.info) && Dropped(t, u, gone) && id !in gone
    ensures Homeless(t.info, id) <==> id in u.info && !u.info[id].inTried && u.info[id].refCount == 0
  {
  }

  lemma {:induction false} OneMoreDropped(t: Tables, u: Tables, v: Tables, gone: set<Id>, id: Id)
    requires (forall n :: n in gone ==> n in t.info) && Dropped(t, u, gone) && id in t.info && id !in gone
    requires Kept(u.info, v.info, {id}) && v.addr == u.addr - {u.info[id].address.service.net}
    requires v.news == u.news && v.tried == u.tried && v.idCount == u.idCount
    requires v.nTried == u.nTried && v.nNew == u.nNew - 1
    ensures Dropped(t, v, gone + {id})
  {
    assert Nets(t.info, gone + {id}) == Nets(t.info, gone) + {t.info[id].address.service.net};
    assert v.addr == t.addr - Nets(t.info, gone + {id});
  }

  // ---- When the result is consistent ----

  /** An entry that has a slot shares its address with no other entry of the file. */
  ghost predicate Apart(info: map<Id, AddrInfo>) {
    forall n, m :: n in info && m in info && n != m && !Homeless(info, n) ==>
      info[n].address.service.net != info[m].address.service.net
  }

  /** The times of an entry that has a slot are possible. */
  ghost predicate Timely(info: map<Id, AddrInfo>) {
    forall n :: n in info && !Homeless(info, n) ==>
      info[n].lastSuccess >= 0 && (info[n].inTried ==> info[n].lastSuccess != 0)
  }

  ghost predicate AllHomeless(info: map<Id, AddrInfo>, gone: set<Id>) {
    (forall n :: n in gone ==> n in info) && (forall n :: n in gone <==> Homeless(info, n))
  }

  lemma {:induction false} ApartIndexed(t: Tables, u: Tables, gone: set<Id>)
    requires AllHomeless(t.info, gone) && Dropped(t, u, gone) && Indexed(t.info, t.addr) && Apart(t.info)
    ensures AddrOk(u.info, u.addr)
  {
    hide Homeless;
    forall n | n in u.info
      ensures u.info[n].address.service.net in u.addr && u.addr[u.info[n].address.service.net] == n
    {
      var a := t.info[n].address.service.net;
      assert t.addr[a] in t.info && t.info[t.addr[a]].address.service.net == a;
      assert a !in Nets(t.info, gone);
    }
    forall a | a in u.addr
      ensures u.addr[a] in u.info && u.info[u.addr[a]].address.service.net == a
    {
      NetsHas(t.info, gone);
      assert t.addr[a] in t.info && t.info[t.addr[a]].address.service.net == a;
    }
  }

  lemma {:induction false} NetsHas(info: map<Id, AddrInfo>, ids: set<Id>)
    requires forall n :: n in ids ==> n in info
    ensures forall n :: n in ids ==> info[n].address.service.net in Nets(info, ids)
  {
  }

  lemma {:induction false} IndexedApart(t: Tables, u: Tables, gone: set<Id>, n: Id, m: Id)
    requires AllHomeless(t.info, gone) && Dropped(t, u, gone) && AddrOk(u.info, u.addr)
    requires n in t.info && m in t.info && n != m && !Homeless(t.info, n)
    ensures t.info[n].address.service.net != t.info[m].address.service.net
  {
    hide Homeless;
    assert n in u.info;
    if m in gone {
      assert t.info[m].address.service.net in Nets(t.info, gone);
    } else {
      assert m in u.info;
    }
  }

  lemma {:induction false} AddressesOk(t: Tables, u: Tables, gone: set<Id>)
    requires AllHomeless(t.info, gone) && Dropped(t, u, gone) && Indexed(t.info, t.addr)
    ensures AddrOk(u.info, u.addr) <==> Apart(t.info)
  {
    hide Homeless, Dropped, Indexed, AddrOk, AllHomeless;
    if Apart(t.info) {
      ApartIndexed(t, u, gone);
    }
    if AddrOk(u.info, u.addr) {
      forall n, m | n in t.info && m in t.info && n != m && !Homeless(t.info, n)
        ensures t.info[n].address.service.net != t.info[m].address.service.net
      {
        IndexedApart(t, u, gone, n, m);
      }
    }
  }

  lemma {:induction false} HoldersStay(h: Hashes, t: Tables, u: Tables, gone: set<Id>)
    requires AllHomeless(t.info, gone) && Dropped(t, u, gone)
    requires TriedOk(h, t.info, t.tried) && NewOk(h, t.info, t.news) && RefsExact(t.info, t.news)
    ensures TriedOk(h, u.info, u.tried) && NewOk(h, u.info, u.news) && RefsExact(u.info, u.news)
  {
    hide TriedSlot, NewPos;
    forall s | s in t.news
      ensures t.news[s] in u.info
    {
      assert s in SlotsOf(t.news, t.news[s]);
    }
  }

  lemma {:induction false} CountsStay(t: Tables, u: Tables, gone: set<Id>)
    requires AllHomeless(t.info, gone) && Dropped(t, u, gone)
    requires t.nNew == |NonTried(t.info)| && t.nTried == |InTried(t.info)|
    ensures u.nNew == |NonTried(u.info)| && u.nTried == |InTried(u.info)|
  {
    SameParts(t, u, gone);
    hide InTried, NonTried, Dropped, AllHomeless;
    assert |NonTried(t.info)| == |NonTried(u.info)| + |gone|;
  }

  lemma {:induction false} SameParts(t: Tables, u: Tables, gone: set<Id>)
    requires AllHomeless(t.info, gone) && Dropped(t, u, gone)
    ensures InTried(u.info) == InTried(t.info) && u.nTried == t.nTried && u.nNew == t.nNew - |gone|
    ensures NonTried(t.info) == NonTried(u.info) + gone && NonTried(u.info) !! gone
  {
  }

  lemma {:induction false} TimesAndRefs(h: Hashes, t: Tables, u: Tables, gone: set<Id>, news: nat)
    requires AllHomeless(t.info, gone) && Dropped(t, u, gone) && Ordered(t.info, news) && IdsOk(t.info, t.idCount)
    requires RefsExact(t.info, t.news)
    ensures TimesOk(u.info) <==> Timely(t.info)
    ensures IdsOk(u.info, u.idCount) && RefsOk(u.info, {})
  {
    hide SlotsOf;
    if TimesOk(u.info) {
      forall n | n in t.info && !Homeless(t.info, n)
        ensures t.info[n].lastSuccess >= 0 && (t.info[n].inTried ==> t.info[n].lastSuccess != 0)
      {
        assert n in u.info;
      }
    }
  }

  /** Reading an accepted file gives a consistent manager exactly when, of the entries read, those that got a slot have
      addresses of their own and possible times. */
  lemma {:induction false} LoadedConsistent(h: Hashes, f: PeersFile)
    requires Accepts(f)
    ensures var t := BucketsRead(h, f, |f.buckets|);
            Inv(h, Loaded(h, f)) <==> Apart(t.info) && Timely(t.info)
  {
    hide BucketsRead, RandomOk, TriedOk, NewOk, RefsExact, Indexed, Ordered, AddrOk, TimesOk, IdsOk, RefsOk, NonTried,
      InTried, Apart, Timely, Dropped, Homeless, Ascending, Gone, AllHomeless, Pruned, Accepts;
    var t := BucketsRead(h, f, |f.buckets|);
    AcceptedReadable(f);
    FileComplete(h, f);
    var order := Ascending(t.info.Keys);
    PrunedForm(t, order, |order|);
    assert order[..|order|] == order;
    AllGone(t.info, order);
    LoadedParts(h, t, Pruned(t, order, |order|), Gone(t.info, order), |f.news|);
  }

  lemma {:induction false} AcceptedReadable(f: PeersFile)
    requires Accepts(f)
    ensures Readable(f)
  {
  }

  lemma {:induction false} LoadedParts(h: Hashes, t: Tables, u: Tables, gone: set<Id>, news: nat)
    requires (forall n :: n in gone ==> n in t.info) && AllHomeless(t.info, gone) && Dropped(t, u, gone)
    requires Complete(h, t, news) && RandomOk(u.info, u.random)
    ensures Inv(h, u) <==> Apart(t.info) && Timely(t.info)
  {
    hide RandomOk, TriedOk, NewOk, RefsExact, Indexed, Ordered, AddrOk, TimesOk, IdsOk, RefsOk, NonTried,
      InTried, Apart, Timely, Dropped, Homeless, AllHomeless;
    AddressesOk(t, u, gone);
    HoldersStay(h, t, u, gone);
    CountsStay(t, u, gone);
    TimesAndRefs(h, t, u, gone, news);
  }

  lemma {:induction false} AllGone(info: map<Id, AddrInfo>, order: seq<Id>)
    requires forall n :: n in order <==> n in info
    ensures AllHomeless(info, Gone(info, order)) && forall n :: n in Gone(info, order) ==> n in info
  {
  }

  /** A file that is accepted and gives an inconsistent manager: one new entry, twice. */
  lemma {:induction false} TwiceTheSame(h: Hashes, s: Saved)
    ensures var f := PeersFile(0, 32, 0, 2, 0, 0, [s, s], [], []);
            Accepts(f) && !Inv(h, Loaded(h, f))
  {
    hide Inv, Loaded, NewSlot;
    var f := PeersFile(0, 32, 0, 2, 0, 0, [s, s], [], []);
    LoadedConsistent(h, f);
    var us := NewSlot(h, s.address.service, s.source);
    var one := WithNew(h, NewRead(h, f, 0), f, 0);
    assert us in one.news && one.info[0].refCount == 1;
    var two := WithNew(h, one, f, 1);
    assert NewRead(h, f, 1) == one && NewRead(h, f, 2) == two;
    var t := BucketsRead(h, f, |f.buckets|);
    assert t == two.(idCount := 2);
    assert !Homeless(t.info, 0) && 1 in t.info && t.info[0].address == t.info[1].address;
  }
}
