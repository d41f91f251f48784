/** The tables of the address manager as values (src/addrman.h): entries by id, the index by
    network address, the random order, and the slots of the "new" and "tried" buckets. A slot
    that holds -1 in the source is absent from its map here. */
module AddrTables {
  const TRIED_BUCKET_COUNT := 256
  const NEW_BUCKET_COUNT := 1024
  const BUCKET_SIZE := 64
  const NEW_BUCKETS_PER_ADDRESS := 8

  type NetAddr = nat
  type Id = nat

  datatype Service = Service(net: NetAddr, port: nat)

  /** `services` holds the positions of the service bits that are set. */
  datatype Address = Address(service: Service, services: set<nat>, time: int)

  datatype AddrInfo = AddrInfo(
    address: Address,
    source: NetAddr,
    lastTry: int,
    lastSuccess: int,
    attempts: int,
    refCount: int,
    inTried: bool,
    randomPos: int)

  datatype Slot = Slot(bucket: nat, pos: nat)

  /** The keyed hashes behind `GetTriedBucket`, `GetNewBucket` and `GetBucketPosition`. */
  datatype Hashes = Hashes(tried: Service -> nat, untried: (NetAddr, NetAddr) -> nat,
      position: (bool, nat, Service) -> nat)

  function NewPos(h: Hashes, service: Service, bucket: nat): nat {
    h.position(true, bucket, service) % BUCKET_SIZE
  }

  function NewSlot(h: Hashes, service: Service, source: NetAddr): Slot {
    var bucket := h.untried(service.net, source) % NEW_BUCKET_COUNT;
    Slot(bucket, NewPos(h, service, bucket))
  }

  function TriedSlot(h: Hashes, service: Service): Slot {
    var bucket := h.tried(service) % TRIED_BUCKET_COUNT;
    Slot(bucket, h.position(false, bucket, service) % BUCKET_SIZE)
  }

  datatype Tables = Tables(
    idCount: nat,
    info: map<Id, AddrInfo>,
    addr: map<NetAddr, Id>,
    random: seq<Id>,
    nTried: int,
    tried: map<Slot, Id>,
    nNew: int,
    news: map<Slot, Id>)

  const NO_TABLES := Tables(0, map[], map[], [], 0, map[], 0, map[])

  // ---- The invariant of `Check_` ----

  ghost predicate AddrOk(info: map<Id, AddrInfo>, addr: map<NetAddr, Id>) {
    && (forall n :: n in info ==> info[n].address.service.net in addr && addr[info[n].address.service.net] == n)
    && (forall a :: a in addr ==> addr[a] in info && info[addr[a]].address.service.net == a)
  }

  ghost predicate RandomOk(info: map<Id, AddrInfo>, random: seq<Id>) {
    && (forall n :: n in info ==> 0 <= info[n].randomPos < |random| && random[info[n].randomPos] == n)
    && (forall i :: 0 <= i < |random| ==> random[i] in info && info[random[i]].randomPos == i)
  }

  ghost predicate TriedOk(h: Hashes, info: map<Id, AddrInfo>, tried: map<Slot, Id>) {
    && (forall s :: s in tried ==>
      tried[s] in info && info[tried[s]].inTried && s == TriedSlot(h, info[tried[s]].address.service))
    && (forall n :: n in info && info[n].inTried ==>
          TriedSlot(h, info[n].address.service) in tried && tried[TriedSlot(h, info[n].address.service)] == n)
  }

  ghost predicate NewOk(h: Hashes, info: map<Id, AddrInfo>, news: map<Slot, Id>) {
    forall s :: s in news ==>
      && news[s] in info && !info[news[s]].inTried
      && s.bucket < NEW_BUCKET_COUNT && s.pos == NewPos(h, info[news[s]].address.service, s.bucket)
  }

  ghost function SlotsOf(news: map<Slot, Id>, n: Id): set<Slot> {
    set s | s in news && news[s] == n
  }

  ghost predicate RefsExact(info: map<Id, AddrInfo>, news: map<Slot, Id>) {
    forall n :: n in info ==> info[n].refCount == |SlotsOf(news, n)|
  }

  ghost function NonTried(info: map<Id, AddrInfo>): set<Id> {
    set n | n in info && !info[n].inTried
  }

  ghost function InTried(info: map<Id, AddrInfo>): set<Id> {
    set n | n in info && info[n].inTried
  }

  ghost predicate TimesOk(info: map<Id, AddrInfo>) {
    forall n :: n in info ==>
      info[n].lastTry >= 0 && info[n].lastSuccess >= 0 && (info[n].inTried ==> info[n].lastSuccess != 0)
  }

  ghost predicate IdsOk(info: map<Id, AddrInfo>, idCount: nat) {
    forall n :: n in info ==> n < idCount
  }

  /** Everything but the bounds on reference counts; `k` entries are still to be counted as new. */
  ghost predicate Weak(h: Hashes, t: Tables, k: int) {
    && AddrOk(t.info, t.addr)
    && RandomOk(t.info, t.random)
    && TriedOk(h, t.info, t.tried)
    && NewOk(h, t.info, t.news)
    && RefsExact(t.info, t.news)
    && t.nNew + k == |NonTried(t.info)|
    && t.nTried == |InTried(t.info)|
    && TimesOk(t.info)
    && IdsOk(t.info, t.idCount)
  }

  /** Every entry not tried, but those in `except`, is in one to eight new slots. */
  ghost predicate RefsOk(info: map<Id, AddrInfo>, except: set<Id>) {
    forall n :: n in info && !info[n].inTried && n !in except ==> 1 <= info[n].refCount <= NEW_BUCKETS_PER_ADDRESS
  }

  ghost predicate Inv(h: Hashes, t: Tables) {
    Weak(h, t, 0) && RefsOk(t.info, {})
  }

  // ---- Creating, swapping, deleting ----

  function Created(t: Tables, address: Address, source: NetAddr): Tables {
    t.(idCount := t.idCount + 1,
       info := t.info[t.idCount := AddrInfo(address, source, 0, 0, 0, 0, false, |t.random|)],
       addr := t.addr[address.service.net := t.idCount],
       random := t.random + [t.idCount])
  }

  function Swapped(t: Tables, i: nat, j: nat): Tables
    requires i < |t.random| && j < |t.random| && t.random[i] in t.info && t.random[j] in t.info
  {
    if i == j then t
    else
      var a, b := t.random[i], t.random[j];
      var info := t.info[a := t.info[a].(randomPos := j)];
      t.(info := info[b := info[b].(randomPos := i)], random := t.random[i := b][j := a])
  }

  /** What `Delete` does after the entry was swapped to the end. */
  function Popped(t: Tables, id: Id): Tables
    requires id in t.info && |t.random| > 0
  {
    t.(random := t.random[..|t.random| - 1],
       addr := t.addr - {t.info[id].address.service.net},
       info := t.info - {id},
       nNew := t.nNew - 1)
  }

  function Deleted(t: Tables, id: Id): Tables
    requires id in t.info && 0 <= t.info[id].randomPos < |t.random|
    requires t.random[t.info[id].randomPos] in t.info && t.random[|t.random| - 1] in t.info
  {
    Popped(Swapped(t, t.info[id].randomPos, |t.random| - 1), id)
  }

  // ---- How the parts of the invariant follow changes of one entry ----

  /** The fields the indexes depend on. */
  ghost predicate SamePlace(a: AddrInfo, b: AddrInfo) {
    a.address.service == b.address.service && a.inTried == b.inTried && a.refCount == b.refCount
  }

  ghost predicate SamePlaces(a: map<Id, AddrInfo>, b: map<Id, AddrInfo>) {
    a.Keys == b.Keys && forall n :: n in a ==> SamePlace(a[n], b[n])
  }

  lemma {:induction false} SamePlacesKeep(h: Hashes, a: map<Id, AddrInfo>, b: map<Id, AddrInfo>, addr: map<NetAddr, Id>,
                                          tried: map<Slot, Id>, news: map<Slot, Id>)
    requires SamePlaces(a, b) && AddrOk(a, addr) && TriedOk(h, a, tried) && NewOk(h, a, news) && RefsExact(a, news)
    ensures AddrOk(b, addr) && TriedOk(h, b, tried) && NewOk(h, b, news) && RefsExact(b, news)
    ensures NonTried(b) == NonTried(a) && InTried(b) == InTried(a)
    ensures forall e :: RefsOk(a, e) ==> RefsOk(b, e)
  {
  }

  lemma {:induction false} SwapRandomOk(info: map<Id, AddrInfo>, random: seq<Id>, i: nat, j: nat)
    requires RandomOk(info, random) && i < |random| && j < |random| && i != j
    ensures random[i] in info && random[j] in info && random[i] != random[j]
    ensures RandomOk(info[random[i] := info[random[i]].(randomPos := j)][random[j] := info[random[j]].(randomPos := i)],
                     random[i := random[j]][j := random[i]])
  {
    var a, b := random[i], random[j];
    assert a != b by { assert info[a].randomPos == i && info[b].randomPos == j; }
    var info1 := info[a := info[a].(randomPos := j)][b := info[b].(randomPos := i)];
    var random1 := random[i := b][j := a];
    forall n | n in info1 ensures 0 <= info1[n].randomPos < |random1| && random1[info1[n].randomPos] == n {
      if n != a && n != b {
        assert info[n].randomPos != i && info[n].randomPos != j;
      }
    }
    forall x | 0 <= x < |random1| ensures random1[x] in info1 && info1[random1[x]].randomPos == x {
      if x != i && x != j {
        assert info[random[x]].randomPos == x;
      }
    }
  }

  lemma {:induction false} SwappedKeeps(h: Hashes, t: Tables, i: nat, j: nat, k: int)
    requires Weak(h, t, k) && i < |t.random| && j < |t.random|
    ensures t.random[i] in t.info && t.random[j] in t.info
    ensures Weak(h, Swapped(t, i, j), k) && SamePlaces(t.info, Swapped(t, i, j).info)
    ensures forall e :: RefsOk(t.info, e) ==> RefsOk(Swapped(t, i, j).info, e)
  {
    hide AddrOk, TriedOk, NewOk, RefsExact, RefsOk, NonTried, InTried, RandomOk, TimesOk, IdsOk;
    RandomIn(t.info, t.random, i);
    RandomIn(t.info, t.random, j);
    if i != j {
      var t1 := Swapped(t, i, j);
      SwapRandomOk(t.info, t.random, i, j);
      SamePlacesKeep(h, t.info, t1.info, t.addr, t.tried, t.news);
      SameTimesKeep(t.info, t1.info, t.idCount);
    }
  }

  lemma {:induction false} RandomIn(info: map<Id, AddrInfo>, random: seq<Id>, i: nat)
    requires RandomOk(info, random) && i < |random|
    ensures random[i] in info
  {
  }

  lemma {:induction false} SameTimesKeep(a: map<Id, AddrInfo>, b: map<Id, AddrInfo>, idCount: nat)
    requires TimesOk(a) && IdsOk(a, idCount) && b.Keys <= a.Keys
    requires forall n :: n in b ==>
      b[n].lastTry == a[n].lastTry && b[n].lastSuccess == a[n].lastSuccess && (b[n].inTried ==> a[n].inTried)
    ensures TimesOk(b) && IdsOk(b, idCount)
  {
  }

  lemma {:induction false} DropAddr(info: map<Id, AddrInfo>, addr: map<NetAddr, Id>, id: Id)
    requires AddrOk(info, addr) && id in info
    ensures AddrOk(info - {id}, addr - {info[id].address.service.net})
  {
  }

  lemma {:induction false} DropRandom(info: map<Id, AddrInfo>, random: seq<Id>, id: Id)
    requires RandomOk(info, random) && id in info && |random| > 0 && info[id].randomPos == |random| - 1
    ensures RandomOk(info - {id}, random[..|random| - 1])
  {
  }

  lemma {:induction false} DropSlots(h: Hashes, info: map<Id, AddrInfo>, tried: map<Slot, Id>, news: map<Slot, Id>,
      id: Id, e: set<Id>)
    requires TriedOk(h, info, tried) && NewOk(h, info, news) && RefsExact(info, news) && RefsOk(info, e + {id})
    requires id in info && !info[id].inTried && info[id].refCount == 0
    ensures TriedOk(h, info - {id}, tried) && NewOk(h, info - {id}, news) && RefsExact(info - {id}, news)
    ensures id in NonTried(info)
    ensures NonTried(info - {id}) == NonTried(info) - {id} && InTried(info - {id}) == InTried(info)
    ensures RefsOk(info - {id}, e)
  {
    RefZeroNotIn(news, id);
  }

  lemma {:induction false} PoppedKeeps(h: Hashes, t: Tables, id: Id, k: int, e: set<Id>)
    requires Weak(h, t, k) && RefsOk(t.info, e + {id}) && id in t.info && !t.info[id].inTried
      && t.info[id].refCount == 0
    requires |t.random| > 0 && t.info[id].randomPos == |t.random| - 1
    ensures Weak(h, Popped(t, id), k)
    ensures RefsOk(Popped(t, id).info, e)
  {
    hide AddrOk, TriedOk, NewOk, RefsExact, RefsOk, NonTried, InTried, RandomOk, TimesOk, IdsOk;
    SameTimesKeep(t.info, t.info - {id}, t.idCount);
    DropAddr(t.info, t.addr, id);
    DropRandom(t.info, t.random, id);
    DropSlots(h, t.info, t.tried, t.news, id, e);
  }

  lemma {:induction false} RefZeroNotIn(news: map<Slot, Id>, id: Id)
    requires |SlotsOf(news, id)| == 0
    ensures forall s :: s in news ==> news[s] != id
  {
    forall s | s in news ensures news[s] != id {
      assert s !in SlotsOf(news, id);
    }
  }

  /** `b` is `a` without the entries `gone`; the others differ in their random position at most. */
  ghost predicate Kept(a: map<Id, AddrInfo>, b: map<Id, AddrInfo>, gone: set<Id>) {
    b.Keys == a.Keys - gone && forall n :: n in b ==> b[n] == a[n].(randomPos := b[n].randomPos)
  }

  lemma {:induction false} WeakParts(h: Hashes, t: Tables, k: int)
    requires Weak(h, t, k)
    ensures RandomOk(t.info, t.random) && NewOk(h, t.info, t.news) && TriedOk(h, t.info, t.tried)
      && AddrOk(t.info, t.addr)
    ensures IdsOk(t.info, t.idCount) && RefsExact(t.info, t.news)
  {
  }

  lemma {:induction false} SwappedKept(t: Tables, i: nat, j: nat)
    requires i < |t.random| && j < |t.random| && t.random[i] in t.info && t.random[j] in t.info
    requires i == j || t.random[i] != t.random[j]
    ensures Kept(t.info, Swapped(t, i, j).info, {})
  {
  }

  lemma {:induction false} KeptDrop(a: map<Id, AddrInfo>, b: map<Id, AddrInfo>, id: Id)
    requires Kept(a, b, {})
    ensures Kept(a, b - {id}, {id})
  {
  }

  lemma {:induction false} CanDelete(info: map<Id, AddrInfo>, random: seq<Id>, id: Id)
    requires RandomOk(info, random) && id in info
    ensures var i, j := info[id].randomPos, |random| - 1;
      && 0 <= i < |random| && random[i] == id && random[j] in info && (i == j || random[i] != random[j])
  {
    PosIn(info, random, random[|random| - 1]);
  }

  lemma {:induction false} DeletedKeeps(h: Hashes, t: Tables, id: Id, k: int, e: set<Id>)
    requires Weak(h, t, k) && RefsOk(t.info, e + {id}) && id in t.info && !t.info[id].inTried
      && t.info[id].refCount == 0
    ensures RandomOk(t.info, t.random)
    ensures Weak(h, Deleted(t, id), k) && Kept(t.info, Deleted(t, id).info, {id})
    ensures Deleted(t, id).news == t.news && Deleted(t, id).tried == t.tried && Deleted(t, id).idCount == t.idCount
    ensures RefsOk(Deleted(t, id).info, e)
  {
    hide Weak, RefsOk, RandomOk, AddrOk, NewOk, TriedOk, IdsOk, RefsExact, SamePlaces, Kept, Swapped;
    WeakParts(h, t, k);
    CanDelete(t.info, t.random, id);
    var i, j := t.info[id].randomPos, |t.random| - 1;
    SwappedKeeps(h, t, i, j, k);
    SwappedKept(t, i, j);
    var t1 := Swapped(t, i, j);
    SwappedEntry(t, i, j);
    PoppedKeeps(h, t1, id, k, e);
    KeptDrop(t.info, t1.info, id);
  }

  lemma {:induction false} SwappedEntry(t: Tables, i: nat, j: nat)
    requires i < |t.random| && j < |t.random| && t.random[i] in t.info && t.random[j] in t.info
    requires i == j || t.random[i] != t.random[j]
    requires t.info[t.random[i]].randomPos == i
    ensures var id, t1 := t.random[i], Swapped(t, i, j);
      && id in t1.info && t1.info[id] == t.info[id].(randomPos := j) && |t1.random| == |t.random|
      && t1.news == t.news && t1.tried == t.tried && t1.idCount == t.idCount
  {
  }

  lemma {:induction false} PosIn(info: map<Id, AddrInfo>, random: seq<Id>, id: Id)
    requires RandomOk(info, random) && id in info
    ensures 0 <= info[id].randomPos < |random| && random[info[id].randomPos] == id && random[|random| - 1] in info
  {
  }

  // ---- Clearing a new slot ----

  function Unreferenced(t: Tables, s: Slot): Tables
    requires s in t.news && t.news[s] in t.info
  {
    var id := t.news[s];
    t.(news := t.news - {s}, info := t.info[id := t.info[id].(refCount := t.info[id].refCount - 1)])
  }

  function Cleared(t: Tables, s: Slot): Tables
    requires RandomOk(t.info, t.random) && (s in t.news ==> t.news[s] in t.info)
  {
    if s !in t.news then t
    else
      var t1 := Unreferenced(t, s);
      if t1.info[t.news[s]].refCount == 0 then Deleted(t1, t.news[s]) else t1
  }

  lemma {:induction false} SlotsLess(news: map<Slot, Id>, s: Slot, n: Id)
    requires s in news
    ensures SlotsOf(news - {s}, n) == SlotsOf(news, n) - (if news[s] == n then {s} else {})
    ensures s in SlotsOf(news, news[s])
  {
  }

  lemma {:induction false} SlotsMore(news: map<Slot, Id>, s: Slot, id: Id, n: Id)
    requires s !in news
    ensures SlotsOf(news[s := id], n) == SlotsOf(news, n) + (if id == n then {s} else {})
  {
  }

  lemma {:induction false} UnreferencedRefs(info: map<Id, AddrInfo>, news: map<Slot, Id>, s: Slot)
    requires RefsExact(info, news) && s in news && news[s] in info
    ensures info[news[s]].refCount > 0
    ensures RefsExact(info[news[s] := info[news[s]].(refCount := info[news[s]].refCount - 1)], news - {s})
  {
    SlotsLess(news, s, news[s]);
    forall n | n in info ensures SlotsOf(news - {s}, n) == SlotsOf(news, n) - (if news[s] == n then {s} else {}) {
      SlotsLess(news, s, n);
    }
  }

  /** Changing reference counts only. */
  lemma {:induction false} SameButRefs(h: Hashes, a: map<Id, AddrInfo>, id: Id, ref: int, addr: map<NetAddr, Id>,
                                       random: seq<Id>, tried: map<Slot, Id>, idCount: nat)
    requires id in a && AddrOk(a, addr) && RandomOk(a, random) && TriedOk(h, a, tried) && TimesOk(a)
      && IdsOk(a, idCount)
    ensures var b := a[id := a[id].(refCount := ref)];
      && AddrOk(b, addr) && RandomOk(b, random) && TriedOk(h, b, tried) && TimesOk(b) && IdsOk(b, idCount)
      && NonTried(b) == NonTried(a) && InTried(b) == InTried(a)
  {
  }

  lemma {:induction false} RefChanges(a: map<Id, AddrInfo>, id: Id, ref: int, e: set<Id>)
    requires id in a && RefsOk(a, e)
    ensures RefsOk(a[id := a[id].(refCount := ref)], e + {id})
    ensures 1 <= ref <= NEW_BUCKETS_PER_ADDRESS ==> RefsOk(a[id := a[id].(refCount := ref)], e - {id})
  {
  }

  lemma {:induction false} NewOkLess(h: Hashes, info: map<Id, AddrInfo>, news: map<Slot, Id>, id: Id, ref: int, s: Slot)
    requires NewOk(h, info, news) && id in info
    ensures NewOk(h, info[id := info[id].(refCount := ref)], news - {s})
  {
  }

  lemma {:induction false} UnreferencedKeeps(h: Hashes, t: Tables, s: Slot, k: int, e: set<Id>)
    requires Weak(h, t, k) && s in t.news && RefsOk(t.info, e)
    ensures t.news[s] in t.info && t.info[t.news[s]].refCount > 0 && !t.info[t.news[s]].inTried
    ensures Weak(h, Unreferenced(t, s), k)
    ensures RefsOk(Unreferenced(t, s).info, e + {t.news[s]})
  {
    hide AddrOk, TriedOk, NewOk, RefsExact, RefsOk, NonTried, InTried, RandomOk, TimesOk, IdsOk;
    SlotEntry(h, t.info, t.news, s);
    var id := t.news[s];
    UnreferencedRefs(t.info, t.news, s);
    SameButRefs(h, t.info, id, t.info[id].refCount - 1, t.addr, t.random, t.tried, t.idCount);
    RefChanges(t.info, id, t.info[id].refCount - 1, e);
    NewOkLess(h, t.info, t.news, id, t.info[id].refCount - 1, s);
  }

  lemma {:induction false} SlotEntry(h: Hashes, info: map<Id, AddrInfo>, news: map<Slot, Id>, s: Slot)
    requires NewOk(h, info, news) && s in news
    ensures news[s] in info && !info[news[s]].inTried && s.bucket < NEW_BUCKET_COUNT
    ensures s.pos == NewPos(h, info[news[s]].address.service, s.bucket)
  {
  }

  /** Clearing a slot keeps everything in order; the only entry that can go is the occupant
      whose last reference this was. */
  lemma {:induction false} ClearedKeeps(h: Hashes, t: Tables, s: Slot, k: int, e: set<Id>)
    requires Weak(h, t, k) && RefsOk(t.info, e) && (s in t.news ==> t.news[s] !in e)
    ensures RandomOk(t.info, t.random) && (s in t.news ==> t.news[s] in t.info && t.info[t.news[s]].refCount > 0)
    ensures Weak(h, Cleared(t, s), k) && Cleared(t, s).news == t.news - {s} && Cleared(t, s).tried == t.tried
    ensures RefsOk(Cleared(t, s).info, e)
    ensures s in t.news ==>
      && (t.info[t.news[s]].refCount == 1 ==> Kept(Unreferenced(t, s).info, Cleared(t, s).info, {t.news[s]}))
      && (t.info[t.news[s]].refCount != 1 ==> Cleared(t, s) == Unreferenced(t, s))
  {
    hide Weak, RandomOk, Kept, AddrOk, NewOk, TriedOk, IdsOk, RefsExact;
    WeakParts(h, t, k);
    if s in t.news {
      UnreferencedKeeps(h, t, s, k, e);
      var t1 := Unreferenced(t, s);
      if t1.info[t.news[s]].refCount == 0 {
        hide RefsOk;
        DeletedKeeps(h, t1, t.news[s], k, e);
      } else {
        assert RefsOk(t1.info, e + {t.news[s]});
      }
    } else {
      assert t.news - {s} == t.news;
    }
  }

  // ---- Moving an entry to the tried table ----

  function Without(news: map<Slot, Id>, id: Id): map<Slot, Id> {
    map s | s in news && news[s] != id :: news[s]
  }

  /** `MakeTried` after its first loop. */
  function Unlisted(t: Tables, id: Id): Tables
    requires id in t.info
  {
    t.(news := Without(t.news, id), info := t.info[id := t.info[id].(refCount := 0)], nNew := t.nNew - 1)
  }

  lemma {:induction false} WithoutRefs(h: Hashes, info: map<Id, AddrInfo>, news: map<Slot, Id>, id: Id)
    requires RefsExact(info, news) && NewOk(h, info, news) && id in info
    ensures RefsExact(info[id := info[id].(refCount := 0)], Without(news, id))
    ensures NewOk(h, info[id := info[id].(refCount := 0)], Without(news, id))
  {
    forall n | n in info ensures SlotsOf(Without(news, id), n) == if n == id then {} else SlotsOf(news, n) {}
  }

  lemma {:induction false} UnlistedKeeps(h: Hashes, t: Tables, id: Id, k: int)
    requires Weak(h, t, k) && RefsOk(t.info, {}) && id in t.info
    ensures Weak(h, Unlisted(t, id), k + 1) && RefsOk(Unlisted(t, id).info, {id})
  {
    hide AddrOk, TriedOk, NewOk, RefsExact, RefsOk, NonTried, InTried, RandomOk, TimesOk, IdsOk;
    SameButRefs(h, t.info, id, 0, t.addr, t.random, t.tried, t.idCount);
    RefChanges(t.info, id, 0, {});
    WithoutRefs(h, t.info, t.news, id);
    assert {} + {id} == {id};
  }

  /** The first half of an eviction: the entry leaves the tried table. */
  function Untried(t: Tables, ks: Slot): Tables
    requires ks in t.tried && t.tried[ks] in t.info
  {
    var id := t.tried[ks];
    t.(info := t.info[id := t.info[id].(inTried := false)], tried := t.tried - {ks}, nTried := t.nTried - 1)
  }

  /** The second half: it enters the new table at a free slot. */
  function Listed(t: Tables, id: Id, us: Slot): Tables
    requires id in t.info
  {
    t.(info := t.info[id := t.info[id].(refCount := 1)], news := t.news[us := id], nNew := t.nNew + 1)
  }

  function Evicted(h: Hashes, t: Tables, ks: Slot): Tables
    requires RandomOk(t.info, t.random) && ks in t.tried && t.tried[ks] in t.info
    requires forall s :: s in t.news ==> t.news[s] in t.info && t.news[s] != t.tried[ks]
  {
    var id := t.tried[ks];
    var us := NewSlot(h, t.info[id].address.service, t.info[id].source);
    Listed(Cleared(Untried(t, ks), us), id, us)
  }

  lemma {:induction false} TriedEntry(h: Hashes, info: map<Id, AddrInfo>, tried: map<Slot, Id>, ks: Slot)
    requires TriedOk(h, info, tried) && ks in tried
    ensures tried[ks] in info && info[tried[ks]].inTried && ks == TriedSlot(h, info[tried[ks]].address.service)
  {
  }

  /** Tried entries hold no new slot. */
  lemma {:induction false} TriedUnreferenced(h: Hashes, info: map<Id, AddrInfo>, news: map<Slot, Id>, id: Id)
    requires NewOk(h, info, news) && RefsExact(info, news) && id in info && info[id].inTried
    ensures info[id].refCount == 0 && forall s :: s in news ==> news[s] in info && news[s] != id
  {
    assert SlotsOf(news, id) == {};
  }

  lemma {:induction false} UntriedIndexes(info: map<Id, AddrInfo>, addr: map<NetAddr, Id>, random: seq<Id>, id: Id,
      idCount: nat)
    requires AddrOk(info, addr) && RandomOk(info, random) && TimesOk(info) && IdsOk(info, idCount) && id in info
      && info[id].inTried
    ensures var b := info[id := info[id].(inTried := false)];
      && AddrOk(b, addr) && RandomOk(b, random) && TimesOk(b) && IdsOk(b, idCount)
      && NonTried(b) == NonTried(info) + {id} && InTried(b) == InTried(info) - {id}
      && id in InTried(info) && id !in NonTried(info)
  {
  }

  lemma {:induction false} UntriedSlots(h: Hashes, info: map<Id, AddrInfo>, tried: map<Slot, Id>, news: map<Slot, Id>,
      ks: Slot, e: set<Id>)
    requires TriedOk(h, info, tried) && NewOk(h, info, news) && RefsExact(info, news) && RefsOk(info, e) && ks in tried
    ensures tried[ks] in info && info[tried[ks]].inTried
    ensures var id := tried[ks]; var b := info[id := info[id].(inTried := false)];
      TriedOk(h, b, tried - {ks}) && NewOk(h, b, news) && RefsExact(b, news) && RefsOk(b, e + {id})
  {
    TriedEntry(h, info, tried, ks);
  }

  lemma {:induction false} UntriedKeeps(h: Hashes, t: Tables, ks: Slot, k: int, e: set<Id>)
    requires Weak(h, t, k) && RefsOk(t.info, e) && ks in t.tried
    ensures t.tried[ks] in t.info
    ensures Weak(h, Untried(t, ks), k + 1) && RefsOk(Untried(t, ks).info, e + {t.tried[ks]})
  {
    hide AddrOk, TriedOk, NewOk, RefsExact, RefsOk, NonTried, InTried, RandomOk, TimesOk, IdsOk;
    UntriedSlots(h, t.info, t.tried, t.news, ks, e);
    UntriedIndexes(t.info, t.addr, t.random, t.tried[ks], t.idCount);
  }

  /** A new reference at a free slot. */
  lemma {:induction false} ListedRefs(info: map<Id, AddrInfo>, news: map<Slot, Id>, id: Id, us: Slot)
    requires RefsExact(info, news) && id in info && us !in news
    ensures RefsExact(info[id := info[id].(refCount := info[id].refCount + 1)], news[us := id])
  {
    forall n | n in info ensures |SlotsOf(news[us := id], n)| == |SlotsOf(news, n)| + (if n == id then 1 else 0) {
      SlotsMore(news, us, id, n);
    }
  }

  lemma {:induction false} NewOkMore(h: Hashes, info: map<Id, AddrInfo>, news: map<Slot, Id>, id: Id, ref: int,
      us: Slot)
    requires NewOk(h, info, news) && id in info && !info[id].inTried
    requires us.bucket < NEW_BUCKET_COUNT && us.pos == NewPos(h, info[id].address.service, us.bucket)
    ensures NewOk(h, info[id := info[id].(refCount := ref)], news[us := id])
  {
  }

  lemma {:induction false} ListedKeeps(h: Hashes, t: Tables, id: Id, us: Slot, k: int, e: set<Id>)
    requires Weak(h, t, k) && RefsOk(t.info, e) && id in t.info && t.info[id].refCount == 0 && !t.info[id].inTried
    requires us !in t.news && us.bucket < NEW_BUCKET_COUNT && us.pos == NewPos(h, t.info[id].address.service, us.bucket)
    ensures Weak(h, Listed(t, id, us), k - 1) && RefsOk(Listed(t, id, us).info, e - {id})
  {
    hide AddrOk, TriedOk, NewOk, RefsExact, RefsOk, NonTried, InTried, RandomOk, TimesOk, IdsOk;
    SameButRefs(h, t.info, id, 1, t.addr, t.random, t.tried, t.idCount);
    RefChanges(t.info, id, 1, e);
    ListedRefs(t.info, t.news, id, us);
    NewOkMore(h, t.info, t.news, id, 1, us);
  }

  /** Evicting moves one entry from tried to new; entries in `e` hold no new slot. */
  lemma {:induction false} EvictedKeeps(h: Hashes, t: Tables, ks: Slot, k: int, e: set<Id>)
    requires Weak(h, t, k) && RefsOk(t.info, e) && ks in t.tried && t.tried[ks] !in e
    requires forall s :: s in t.news ==> t.news[s] !in e
    ensures RandomOk(t.info, t.random) && t.tried[ks] in t.info
    ensures forall s :: s in t.news ==> t.news[s] in t.info && t.news[s] != t.tried[ks]
    ensures Weak(h, Evicted(h, t, ks), k) && RefsOk(Evicted(h, t, ks).info, e)
    ensures Evicted(h, t, ks).tried == t.tried - {ks}
  {
    hide RefsOk, Kept, Weak, AddrOk, TriedOk, NewOk, RefsExact, NonTried, InTried, RandomOk, TimesOk, IdsOk;
    WeakParts(h, t, k);
    var id := t.tried[ks];
    TriedEntry(h, t.info, t.tried, ks);
    TriedUnreferenced(h, t.info, t.news, id);
    var us := NewSlot(h, t.info[id].address.service, t.info[id].source);
    UntriedKeeps(h, t, ks, k, e);
    var t1 := Untried(t, ks);
    ClearedKeeps(h, t1, us, k + 1, e + {id});
    ClearedLeaves(t1, us, id);
    ListedKeeps(h, Cleared(t1, us), id, us, k + 1, e + {id});
    assert e + {id} - {id} == e;
  }

  /** Clearing a slot of another entry does not touch this one. */
  lemma {:induction false} ClearedLeaves(t: Tables, s: Slot, id: Id)
    requires RandomOk(t.info, t.random) && (s in t.news ==> t.news[s] in t.info && t.news[s] != id) && id in t.info
    ensures id in Cleared(t, s).info
      && Cleared(t, s).info[id] == t.info[id].(randomPos := Cleared(t, s).info[id].randomPos)
  {
  }

  /** The end of `MakeTried`. */
  function Placed(t: Tables, id: Id, ks: Slot): Tables
    requires id in t.info
  {
    t.(tried := t.tried[ks := id], nTried := t.nTried + 1, info := t.info[id := t.info[id].(inTried := true)])
  }

  lemma {:induction false} PlacedIndexes(info: map<Id, AddrInfo>, addr: map<NetAddr, Id>, random: seq<Id>, id: Id,
      idCount: nat)
    requires AddrOk(info, addr) && RandomOk(info, random) && TimesOk(info) && IdsOk(info, idCount)
    requires id in info && !info[id].inTried && info[id].lastSuccess != 0
    ensures var b := info[id := info[id].(inTried := true)];
      && AddrOk(b, addr) && RandomOk(b, random) && TimesOk(b) && IdsOk(b, idCount)
      && NonTried(b) == NonTried(info) - {id} && InTried(b) == InTried(info) + {id}
      && id in NonTried(info) && id !in InTried(info)
  {
  }

  lemma {:induction false} PlacedSlots(h: Hashes, info: map<Id, AddrInfo>, tried: map<Slot, Id>, news: map<Slot, Id>,
      id: Id, ks: Slot)
    requires TriedOk(h, info, tried) && NewOk(h, info, news) && RefsExact(info, news) && RefsOk(info, {id})
    requires id in info && !info[id].inTried && info[id].refCount == 0 && ks !in tried
      && ks == TriedSlot(h, info[id].address.service)
    ensures var b := info[id := info[id].(inTried := true)];
      TriedOk(h, b, tried[ks := id]) && NewOk(h, b, news) && RefsExact(b, news) && RefsOk(b, {})
  {
    RefZeroNotIn(news, id);
  }

  lemma {:induction false} PlacedKeeps(h: Hashes, t: Tables, id: Id, ks: Slot)
    requires Weak(h, t, 1) && RefsOk(t.info, {id})
    requires id in t.info && !t.info[id].inTried && t.info[id].refCount == 0 && t.info[id].lastSuccess != 0
    requires ks !in t.tried && ks == TriedSlot(h, t.info[id].address.service)
    ensures Inv(h, Placed(t, id, ks))
  {
    hide AddrOk, TriedOk, NewOk, RefsExact, RefsOk, NonTried, InTried, RandomOk, TimesOk, IdsOk;
    PlacedSlots(h, t.info, t.tried, t.news, id, ks);
    PlacedIndexes(t.info, t.addr, t.random, id, t.idCount);
  }

  function MadeTried(h: Hashes, t: Tables, id: Id): Tables
    requires Weak(h, t, 0) && RefsOk(t.info, {}) && id in t.info && !t.info[id].inTried
  {
    UnlistedReady(h, t, id);
    var t1 := Unlisted(t, id);
    var ks := TriedSlot(h, t.info[id].address.service);
    var t2 := if ks in t1.tried then Evicted(h, t1, ks) else t1;
    Placed(t2, id, ks)
  }

  /** After the first loop the entry is in no slot and can be placed or make room. */
  lemma {:induction false} UnlistedReady(h: Hashes, t: Tables, id: Id)
    requires Weak(h, t, 0) && RefsOk(t.info, {}) && id in t.info && !t.info[id].inTried
    ensures Weak(h, Unlisted(t, id), 1) && RefsOk(Unlisted(t, id).info, {id})
    ensures forall s :: s in Unlisted(t, id).news ==> Unlisted(t, id).news[s] !in {id}
    ensures var t1, ks := Unlisted(t, id), TriedSlot(h, t.info[id].address.service);
      ks in t1.tried ==>
        && RandomOk(t1.info, t1.random) && t1.tried[ks] in t1.info && t1.tried[ks] != id
        && (forall s :: s in t1.news ==> t1.news[s] in t1.info && t1.news[s] != t1.tried[ks])
        && id in Evicted(h, t1, ks).info
        && Evicted(h, t1, ks).info[id] == t1.info[id].(randomPos := Evicted(h, t1, ks).info[id].randomPos)
        && Weak(h, Evicted(h, t1, ks), 1) && RefsOk(Evicted(h, t1, ks).info, {id})
        && ks !in Evicted(h, t1, ks).tried
  {
    hide RefsOk, Kept, Weak, AddrOk, TriedOk, NewOk, RefsExact, NonTried, InTried, RandomOk, TimesOk, IdsOk;
    UnlistedKeeps(h, t, id, 0);
    var t1, ks := Unlisted(t, id), TriedSlot(h, t.info[id].address.service);
    WeakParts(h, t1, 1);
    if ks in t1.tried {
      TriedEntry(h, t1.info, t1.tried, ks);
      EvictedKeeps(h, t1, ks, 1, {id});
      EvictedLeaves(h, t1, ks, id);
    }
  }

  lemma {:induction false} EvictedLeaves(h: Hashes, t: Tables, ks: Slot, id: Id)
    requires RandomOk(t.info, t.random) && ks in t.tried && t.tried[ks] in t.info && id in t.info && id != t.tried[ks]
    requires forall s :: s in t.news ==> t.news[s] in t.info && t.news[s] != t.tried[ks] && t.news[s] != id
    ensures id in Evicted(h, t, ks).info
    ensures Evicted(h, t, ks).info[id] == t.info[id].(randomPos := Evicted(h, t, ks).info[id].randomPos)
  {
    var ev := t.tried[ks];
    var us := NewSlot(h, t.info[ev].address.service, t.info[ev].source);
    ClearedLeaves(Untried(t, ks), us, id);
  }

  /** `MakeTried` on an entry with a successful connection keeps the invariant: none of its
      asserts fires, also when it evicts. */
  lemma {:induction false} MadeTriedKeeps(h: Hashes, t: Tables, id: Id)
    requires Inv(h, t) && id in t.info && !t.info[id].inTried && t.info[id].lastSuccess != 0
    ensures Inv(h, MadeTried(h, t, id))
  {
    hide RefsOk, Kept, Weak, AddrOk, TriedOk, NewOk, RefsExact, NonTried, InTried, RandomOk, TimesOk, IdsOk, Evicted;
    UnlistedReady(h, t, id);
    var t1, ks := Unlisted(t, id), TriedSlot(h, t.info[id].address.service);
    var t2 := if ks in t1.tried then Evicted(h, t1, ks) else t1;
    PlacedKeeps(h, t2, id, ks);
  }

  // ---- The operations ----

  function Max(a: int, b: int): int {
    if a < b then b else a
  }

  predicate IsTerrible(i: AddrInfo, now: int) {
    if i.lastTry != 0 && i.lastTry >= now - 60 then false
    else if i.address.time > now + 10 * 60 then true
    else if i.address.time == 0 || now - i.address.time > 30 * 24 * 60 * 60 then true
    else if i.lastSuccess == 0 && i.attempts >= 3 then true
    else now - i.lastSuccess > 7 * 24 * 60 * 60 && i.attempts >= 10
  }

  function Succeeded(i: AddrInfo, time: int): AddrInfo {
    i.(lastSuccess := time, lastTry := time, attempts := 0)
  }

  /** `Good_`. The random starting bucket does not matter, and an entry that is not tried
      always has a slot. */
  function Good(h: Hashes, t: Tables, service: Service, time: int): Tables
    requires Inv(h, t) && time > 0
  {
    if service.net !in t.addr then t
    else
      EntryAt(h, t, service.net);
      var id := t.addr[service.net];
      var t1 := t.(info := t.info[id := Succeeded(t.info[id], time)]);
      if t.info[id].address.service != service then t
      else if t.info[id].inTried then t1
      else
        SucceededKeeps(h, t, id, time);
        MadeTried(h, t1, id)
  }

  lemma {:induction false} EntryAt(h: Hashes, t: Tables, net: NetAddr)
    requires Inv(h, t) && net in t.addr
    ensures t.addr[net] in t.info && t.info[t.addr[net]].address.service.net == net
  {
  }

  /** Changing nothing but times, attempts and services. */
  lemma {:induction false} ChangedKeeps(h: Hashes, t: Tables, id: Id, i: AddrInfo)
    requires Inv(h, t) && id in t.info
    requires SamePlace(t.info[id], i) && i.randomPos == t.info[id].randomPos
    requires i.lastTry >= 0 && i.lastSuccess >= 0 && (i.inTried ==> i.lastSuccess != 0)
    ensures Inv(h, t.(info := t.info[id := i]))
  {
    hide AddrOk, TriedOk, NewOk, RefsExact, RefsOk, NonTried, InTried;
    SamePlacesKeep(h, t.info, t.info[id := i], t.addr, t.tried, t.news);
  }

  lemma {:induction false} SucceededKeeps(h: Hashes, t: Tables, id: Id, time: int)
    requires Inv(h, t) && id in t.info && time > 0
    ensures Inv(h, t.(info := t.info[id := Succeeded(t.info[id], time)]))
  {
    ChangedKeeps(h, t, id, Succeeded(t.info[id], time));
  }

  lemma {:induction false} GoodKeeps(h: Hashes, t: Tables, service: Service, time: int)
    requires Inv(h, t) && time > 0
    ensures Inv(h, Good(h, t, service, time))
  {
    hide Inv, MadeTried;
    if service.net in t.addr {
      EntryAt(h, t, service.net);
      var id := t.addr[service.net];
      SucceededKeeps(h, t, id, time);
      if t.info[id].address.service == service && !t.info[id].inTried {
        MadeTriedKeeps(h, t.(info := t.info[id := Succeeded(t.info[id], time)]), id);
      }
    }
  }

  lemma {:induction false} CreatedIndexes(info: map<Id, AddrInfo>, addr: map<NetAddr, Id>, random: seq<Id>, id: Id,
      i: AddrInfo)
    requires AddrOk(info, addr) && RandomOk(info, random) && TimesOk(info) && IdsOk(info, id)
    requires i.address.service.net !in addr && !i.inTried && i.randomPos == |random| && i.lastTry == 0
      && i.lastSuccess == 0
    ensures var b := info[id := i];
      && AddrOk(b, addr[i.address.service.net := id]) && RandomOk(b, random + [id]) && TimesOk(b) && IdsOk(b, id + 1)
      && NonTried(b) == NonTried(info) + {id} && InTried(b) == InTried(info) && id !in NonTried(info)
  {
  }

  lemma {:induction false} CreatedSlots(h: Hashes, info: map<Id, AddrInfo>, tried: map<Slot, Id>, news: map<Slot, Id>,
      id: Id, i: AddrInfo)
    requires TriedOk(h, info, tried) && NewOk(h, info, news) && RefsExact(info, news) && RefsOk(info, {}) && id !in info
    requires !i.inTried && i.refCount == 0
    ensures var b := info[id := i];
      TriedOk(h, b, tried) && NewOk(h, b, news) && RefsExact(b, news) && RefsOk(b, {id})
  {
    assert SlotsOf(news, id) == {};
  }

  /** A created entry, its time reduced by the penalty and counted as new. */
  function Entered(t: Tables, address: Address, source: NetAddr, penalty: int): Tables {
    var a := address.(time := Max(0, address.time - penalty));
    Created(t, a, source).(nNew := t.nNew + 1)
  }

  lemma {:induction false} EnteredKeeps(h: Hashes, t: Tables, address: Address, source: NetAddr, penalty: int)
    requires Inv(h, t) && address.service.net !in t.addr
    ensures var t1 := Entered(t, address, source, penalty);
      Weak(h, t1, 0) && RefsOk(t1.info, {t.idCount}) && t.idCount !in t.info
  {
    hide AddrOk, TriedOk, NewOk, RefsExact, RefsOk, NonTried, InTried, RandomOk, TimesOk;
    var i := AddrInfo(address.(time := Max(0, address.time - penalty)), source, 0, 0, 0, 0, false, |t.random|);
    CreatedIndexes(t.info, t.addr, t.random, t.idCount, i);
    CreatedSlots(h, t.info, t.tried, t.news, t.idCount, i);
  }

  /** A reference more, at slot `us`. */
  function Referenced(t: Tables, id: Id, us: Slot): Tables
    requires id in t.info
  {
    t.(info := t.info[id := t.info[id].(refCount := t.info[id].refCount + 1)], news := t.news[us := id])
  }

  lemma {:induction false} ReferencedKeeps(h: Hashes, t: Tables, id: Id, us: Slot)
    requires Weak(h, t, 0) && RefsOk(t.info, {id}) && id in t.info && !t.info[id].inTried
    requires 0 <= t.info[id].refCount < NEW_BUCKETS_PER_ADDRESS
    requires us !in t.news && us.bucket < NEW_BUCKET_COUNT && us.pos == NewPos(h, t.info[id].address.service, us.bucket)
    ensures Inv(h, Referenced(t, id, us))
  {
    hide AddrOk, TriedOk, NewOk, RefsExact, RefsOk, NonTried, InTried, RandomOk, TimesOk, IdsOk;
    var ref := t.info[id].refCount + 1;
    SameButRefs(h, t.info, id, ref, t.addr, t.random, t.tried, t.idCount);
    RefChanges(t.info, id, ref, {id});
    assert {id} - {id} == {};
    ListedRefs(t.info, t.news, id, us);
    NewOkMore(h, t.info, t.news, id, ref, us);
  }

  /** The slot is free, or its occupant may be overwritten. */
  predicate MayTake(t: Tables, id: Id, us: Slot, now: int)
    requires id in t.info && (us in t.news ==> t.news[us] in t.info)
  {
    us !in t.news || IsTerrible(t.info[t.news[us]], now)
      || (t.info[t.news[us]].refCount > 1 && t.info[id].refCount == 0)
  }

  /** The second half of `Add_`. */
  function Inserted(h: Hashes, t: Tables, id: Id, source: NetAddr, now: int): Tables
    requires Weak(h, t, 0) && id in t.info
  {
    WeakParts(h, t, 0);
    var us := NewSlot(h, t.info[id].address.service, source);
    if us in t.news && t.news[us] == id then t
    else if MayTake(t, id, us, now) then
      ClearedLeaves(t, us, id);
      Referenced(Cleared(t, us), id, us)
    else if t.info[id].refCount == 0 then Deleted(t, id)
    else t
  }

  lemma {:induction false} InsertedKeeps(h: Hashes, t: Tables, id: Id, source: NetAddr, now: int)
    requires Weak(h, t, 0) && RefsOk(t.info, {id}) && id in t.info && !t.info[id].inTried
    requires 0 <= t.info[id].refCount < NEW_BUCKETS_PER_ADDRESS
    ensures Inv(h, Inserted(h, t, id, source, now))
  {
    hide AddrOk, TriedOk, NewOk, RefsExact, NonTried, InTried, RandomOk, TimesOk, IdsOk, Weak, Kept, IsTerrible,
      Cleared, Deleted;
    WeakParts(h, t, 0);
    var us := NewSlot(h, t.info[id].address.service, source);
    if us in t.news && t.news[us] == id {
      UnreferencedKeeps(h, t, us, 0, {id});
    } else if MayTake(t, id, us, now) {
      hide RefsOk;
      ClearedKeeps(h, t, us, 0, {id});
      ClearedLeaves(t, us, id);
      ReferencedKeeps(h, Cleared(t, us), id, us);
    } else if t.info[id].refCount == 0 {
      assert {} + {id} == {id};
      DeletedKeeps(h, t, id, 0, {});
    }
  }

  /** What `Add_` notes about an address it knows. */
  function Refreshed(i: AddrInfo, address: Address, penalty: int, now: int): AddrInfo {
    var interval := if now - address.time < 24 * 60 * 60 then 60 * 60 else 24 * 60 * 60;
    var stale := address.time != 0 && (i.address.time == 0 || i.address.time < address.time - interval - penalty);
    i.(address := i.address.(
         time := if stale then Max(0, address.time - penalty) else i.address.time,
         services := i.address.services + address.services))
  }

  /** Whether a known address gets another slot; `lucky` is the outcome of the random test,
      consulted only when the entry has references. */
  predicate MayGrow(i: AddrInfo, address: Address, lucky: bool) {
    && address.time != 0 && (i.address.time == 0 || address.time > i.address.time)
    && !i.inTried && i.refCount != NEW_BUCKETS_PER_ADDRESS && (i.refCount > 0 ==> lucky)
  }

  /** `Add_`. */
  function Added(h: Hashes, t: Tables, address: Address, routable: bool, source: NetAddr, penalty: int, now: int,
      lucky: bool): (Tables, bool)
    requires Inv(h, t)
  {
    if !routable then (t, false)
    else if address.service.net in t.addr then
      EntryAt(h, t, address.service.net);
      var id := t.addr[address.service.net];
      var i := Refreshed(t.info[id], address, penalty, now);
      var t1 := t.(info := t.info[id := i]);
      RefreshedKeeps(h, t, id, address, penalty, now);
      (if MayGrow(i, address, lucky) then Inserted(h, t1, id, source, now) else t1, false)
    else
      EnteredKeeps(h, t, address, source, penalty);
      (Inserted(h, Entered(t, address, source, penalty), t.idCount, source, now), true)
  }

  lemma {:induction false} InfoTimes(h: Hashes, t: Tables, id: Id)
    requires Inv(h, t) && id in t.info
    ensures t.info[id].lastTry >= 0 && t.info[id].lastSuccess >= 0
      && (t.info[id].inTried ==> t.info[id].lastSuccess != 0)
    ensures t.info[id].refCount == |SlotsOf(t.news, id)| && t.info[id].refCount <= NEW_BUCKETS_PER_ADDRESS
  {
    if t.info[id].inTried {
      TriedUnreferenced(h, t.info, t.news, id);
    }
  }

  lemma {:induction false} RefreshedKeeps(h: Hashes, t: Tables, id: Id, address: Address, penalty: int, now: int)
    requires Inv(h, t) && id in t.info
    ensures Inv(h, t.(info := t.info[id := Refreshed(t.info[id], address, penalty, now)]))
  {
    InfoTimes(h, t, id);
    ChangedKeeps(h, t, id, Refreshed(t.info[id], address, penalty, now));
  }

  /** `Add_` keeps the invariant, whatever the clock and the dice say. */
  lemma {:induction false} AddedKeeps(h: Hashes, t: Tables, address: Address, routable: bool, source: NetAddr,
      penalty: int, now: int, lucky: bool)
    requires Inv(h, t)
    ensures Inv(h, Added(h, t, address, routable, source, penalty, now, lucky).0)
  {
    hide Weak, RefsOk, Inserted, Refreshed;
    if routable {
      if address.service.net in t.addr {
        EntryAt(h, t, address.service.net);
        var id := t.addr[address.service.net];
        var i := Refreshed(t.info[id], address, penalty, now);
        var t1 := t.(info := t.info[id := i]);
        RefreshedKeeps(h, t, id, address, penalty, now);
        if MayGrow(i, address, lucky) {
          InfoTimes(h, t1, id);
          MoreExcept(t1.info, id);
          InsertedKeeps(h, t1, id, source, now);
        }
      } else {
        EnteredKeeps(h, t, address, source, penalty);
        InsertedKeeps(h, Entered(t, address, source, penalty), t.idCount, source, now);
      }
    }
  }

  lemma {:induction false} MoreExcept(info: map<Id, AddrInfo>, id: Id)
    requires RefsOk(info, {})
    ensures RefsOk(info, {id})
  {
  }
}
