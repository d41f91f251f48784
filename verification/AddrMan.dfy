/** `CAddrMan` (src/addrman.cpp). Each method does to the tables what the functions of
    `AddrTables` say; the asserts of the source are asserts here. The clock and random draws
    are parameters. */
module AddrMan {
  import opened AddrTables

  const GETADDR_MAX_PCT := 23
  const GETADDR_MAX := 2500

  class AddrManager {
    const h: Hashes
    var idCount: nat
    var info: map<Id, AddrInfo>
    var addr: map<NetAddr, Id>
    var random: seq<Id>
    var nTried: int
    var tried: map<Slot, Id>
    var nNew: int
    var news: map<Slot, Id>

    ghost function T(): Tables
      reads this
    {
      Tables(idCount, info, addr, random, nTried, tried, nNew, news)
    }

    ghost predicate Valid()
      reads this
    {
      Inv(h, T())
    }

    constructor (h: Hashes)
      ensures this.h == h && T() == NO_TABLES && Valid()
    {
      this.h := h;
      idCount, info, addr, random, nTried, tried, nNew, news := 0, map[], map[], [], 0, map[], 0, map[];
      new;
      EmptyInv(h);
    }

    /** `Find`: the id of an entry. */
    method Find(net: NetAddr) returns (found: bool, id: Id)
      requires Valid()
      ensures found <==> net in addr
      ensures found ==> id == addr[net] && id in info
    {
      found := net in addr;
      id := if found then addr[net] else 0;
      if found {
        EntryAt(h, T(), net);
      }
    }

    method Create(address: Address, source: NetAddr) returns (id: Id)
      modifies this
      ensures T() == Created(old(T()), address, source) && id == old(idCount)
    {
      id := idCount;
      idCount := idCount + 1;
      info := info[id := AddrInfo(address, source, 0, 0, 0, 0, false, -1)];
      addr := addr[address.service.net := id];
      info := info[id := info[id].(randomPos := |random|)];
      random := random + [id];
    }

    method SwapRandom(i: nat, j: nat)
      requires i < |random| && j < |random| && random[i] in info && random[j] in info
      modifies this
      ensures T() == Swapped(old(T()), i, j)
    {
      if i == j {
        return;
      }
      var a, b := random[i], random[j];
      info := info[a := info[a].(randomPos := j)];
      info := info[b := info[b].(randomPos := i)];
      random := random[i := b];
      random := random[j := a];
    }

    method Delete(id: Id)
      requires RandomOk(info, random) && id in info && !info[id].inTried && info[id].refCount == 0
      modifies this
      ensures RandomOk(old(info), old(random)) && T() == Deleted(old(T()), id)
    {
      hide RandomOk;
      CanDelete(info, random, id);
      SwapRandom(info[id].randomPos, |random| - 1);
      random := random[..|random| - 1];
      addr := addr - {info[id].address.service.net};
      info := info - {id};
      nNew := nNew - 1;
    }

    /** Clears a position of a new bucket; the only place where entries are deleted, but for
        an insertion that fails. */
    method ClearNew(s: Slot, ghost k: int)
      requires Weak(h, T(), k)
      modifies this
      ensures RandomOk(old(info), old(random)) && (s in old(news) ==> old(news)[s] in old(info))
      ensures T() == Cleared(old(T()), s)
    {
      hide AddrOk, TriedOk, NewOk, RefsExact, NonTried, InTried, TimesOk, IdsOk, Weak, RandomOk, RefsOk;
      WeakParts(h, T(), k);
      if s in news {
        var id := news[s];
        SlotEntry(h, info, news, s);
        UnreferencedRefs(info, news, s);
        assert info[id].refCount > 0;
        AnyExcept(info);
        UnreferencedKeeps(h, T(), s, k, info.Keys);
        info := info[id := info[id].(refCount := info[id].refCount - 1)];
        news := news - {s};
        WeakParts(h, T(), k);
        if info[id].refCount == 0 {
          Delete(id);
        }
      }
    }

    lemma {:induction false} AnyExcept(info: map<Id, AddrInfo>)
      ensures RefsOk(info, info.Keys)
    {
    }

    /** The first loop of `MakeTried`: takes the entry out of all new buckets. */
    method Unlist(id: Id)
      requires Valid() && id in info
      modifies this`info, this`news
      ensures news == Without(old(news), id)
      ensures info == old(info)[id := old(info)[id].(refCount := 0)]
    {
      hide AddrOk, TriedOk, NonTried, InTried, TimesOk, IdsOk, RandomOk, RefsOk, NewPos;
      InfoTimes(h, T(), id);
      ghost var i0, info0, news0 := info[id], info, news;
      for bucket := 0 to NEW_BUCKET_COUNT
        invariant id in info && info == info0[id := i0.(refCount := info[id].refCount)]
        invariant info[id].refCount == |SlotsOf(news, id)|
        invariant forall s :: s in news <==> s in news0 && !(news0[s] == id && s.bucket < bucket)
        invariant forall s :: s in news ==> news[s] == news0[s]
      {
        var s := Slot(bucket, NewPos(h, info[id].address.service, bucket));
        if s in news && news[s] == id {
          SlotsLess(news, s, id);
          news := news - {s};
          info := info[id := info[id].(refCount := info[id].refCount - 1)];
        }
        forall x | x in news && x.bucket == bucket ensures news[x] != id {
          SlotEntry(h, info0, news0, x);
        }
      }
      forall s | s in news ensures news[s] != id {
        SlotEntry(h, info0, news0, s);
      }
      assert SlotsOf(news, id) == {};
      assert news == Without(news0, id);
    }

    method MakeTried(id: Id)
      requires Valid() && id in info && !info[id].inTried
      modifies this
      ensures T() == MadeTried(h, old(T()), id)
    {
      hide AddrOk, TriedOk, NewOk, RefsExact, NonTried, InTried, TimesOk, IdsOk, Weak, RandomOk, RefsOk, Without;
      UnlistedReady(h, T(), id);
      Unlist(id);
      nNew := nNew - 1;
      assert info[id].refCount == 0;
      assert T() == Unlisted(old(T()), id);
      var ks := TriedSlot(h, info[id].address.service);
      if ks in tried {
        Evict(ks, id);
      }
      assert ks !in tried;
      tried := tried[ks := id];
      nTried := nTried + 1;
      info := info[id := info[id].(inTried := true)];
    }

    /** The branch of `MakeTried` that moves the occupant of a tried slot back to new. */
    method Evict(ks: Slot, ghost id: Id)
      requires Weak(h, T(), 1) && RefsOk(info, {id}) && (forall s :: s in news ==> news[s] !in {id})
      requires ks in tried && tried[ks] != id
      modifies this
      ensures RandomOk(old(info), old(random)) && old(tried)[ks] in old(info)
      ensures forall s :: s in old(news) ==> old(news)[s] in old(info) && old(news)[s] != old(tried)[ks]
      ensures T() == Evicted(h, old(T()), ks)
    {
      hide AddrOk, TriedOk, NewOk, RefsExact, NonTried, InTried, TimesOk, IdsOk, Weak, RandomOk, RefsOk;
      EvictedKeeps(h, T(), ks, 1, {id});
      UntriedKeeps(h, T(), ks, 1, {id});
      var ev := tried[ks];
      assert ev in info;
      info := info[ev := info[ev].(inTried := false)];
      tried := tried - {ks};
      nTried := nTried - 1;
      assert T() == Untried(old(T()), ks);
      var us := NewSlot(h, info[ev].address.service, info[ev].source);
      ghost var t1 := T();
      ClearedKeeps(h, t1, us, 2, {id} + {ev});
      ClearNew(us, 2);
      ClearedLeaves(t1, us, ev);
      assert us !in news;
      info := info[ev := info[ev].(refCount := 1)];
      news := news[us := ev];
      nNew := nNew + 1;
    }

    /** The search loop of `Good_`, from a random bucket on. */
    method FindBucket(id: Id, rnd: nat) returns (found: bool)
      requires Valid() && id in info && !info[id].inTried
      ensures found
    {
      hide Inv, NewPos;
      BucketExists(id, rnd);
      var service := info[id].address.service;
      found := false;
      var n := 0;
      while n < NEW_BUCKET_COUNT && !found
        invariant 0 <= n <= NEW_BUCKET_COUNT
        invariant !found ==> forall m :: 0 <= m < n ==> !IsAt(news, id, BucketSlot(h, service, m, rnd))
      {
        found := IsAt(news, id, BucketSlot(h, service, n, rnd));
        n := n + 1;
      }
    }

    lemma {:induction false} BucketExists(id: Id, rnd: nat)
      requires Valid() && id in info && !info[id].inTried
      ensures exists m :: 0 <= m < NEW_BUCKET_COUNT && IsAt(news, id, BucketSlot(h, info[id].address.service, m, rnd))
    {
      hide AddrOk, TriedOk, NonTried, InTried, TimesOk, IdsOk, RandomOk, NewPos;
      var s := SomeSlot(T(), id);
      SlotEntry(h, info, news, s);
      var m := (s.bucket + NEW_BUCKET_COUNT - rnd % NEW_BUCKET_COUNT) % NEW_BUCKET_COUNT;
      assert (m + rnd) % NEW_BUCKET_COUNT == s.bucket;
      assert BucketSlot(h, info[id].address.service, m, rnd) == s;
    }

    lemma {:induction false} SomeSlot(t: Tables, id: Id) returns (s: Slot)
      requires Inv(h, t) && id in t.info && !t.info[id].inTried
      ensures s in t.news && t.news[s] == id
    {
      assert |SlotsOf(t.news, id)| >= 1;
      s :| s in SlotsOf(t.news, id);
    }

    /** `Good_`. */
    method Good(service: Service, time: int, rnd: nat)
      requires Valid() && time > 0
      modifies this
      ensures Valid() && T() == AddrTables.Good(h, old(T()), service, time)
    {
      hide Inv, MadeTried;
      GoodKeeps(h, T(), service, time);
      var known, id := Find(service.net);
      if !known || info[id].address.service != service {
        return;
      }
      SucceededKeeps(h, T(), id, time);
      info := info[id := Succeeded(info[id], time)];
      if info[id].inTried {
        return;
      }
      var found := FindBucket(id, rnd);
      if !found {
        return;
      }
      MakeTried(id);
    }

    /** The second half of `Add_`. */
    method Insert(id: Id, source: NetAddr, now: int)
      requires Weak(h, T(), 0) && RefsOk(info, {id}) && id in info && !info[id].inTried
      modifies this
      ensures T() == Inserted(h, old(T()), id, source, now)
    {
      hide AddrOk, TriedOk, NewOk, RefsExact, NonTried, InTried, TimesOk, IdsOk, Weak, RandomOk, RefsOk, IsTerrible,
        Cleared, Deleted;
      WeakParts(h, T(), 0);
      var us := NewSlot(h, info[id].address.service, source);
      if us !in news || news[us] != id {
        var take := us !in news;
        if !take {
          SlotEntry(h, info, news, us);
          var existing := info[news[us]];
          take := IsTerrible(existing, now) || (existing.refCount > 1 && info[id].refCount == 0);
        }
        if take {
          ghost var t0 := T();
          ClearNew(us, 0);
          ClearedLeaves(t0, us, id);
          info := info[id := info[id].(refCount := info[id].refCount + 1)];
          news := news[us := id];
        } else if info[id].refCount == 0 {
          Delete(id);
        }
      }
    }

    /** `Add_`; `lucky` says that the random test, if made, drew zero. */
    method Add(address: Address, routable: bool, source: NetAddr, penalty: int, now: int, lucky: bool)
        returns (isNew: bool)
      requires Valid()
      modifies this
      ensures Valid() && (T(), isNew) == Added(h, old(T()), address, routable, source, penalty, now, lucky)
    {
      hide Inv, Inserted, Weak, RefsOk;
      AddedKeeps(h, T(), address, routable, source, penalty, now, lucky);
      if !routable {
        return false;
      }
      var known, id := Find(address.service.net);
      if known {
        RefreshedKeeps(h, T(), id, address, penalty, now);
        info := info[id := Refreshed(info[id], address, penalty, now)];
        if !MayGrow(info[id], address, lucky) {
          return false;
        }
        InvReady(h, T(), id);
        isNew := false;
      } else {
        EnteredKeeps(h, T(), address, source, penalty);
        id := Create(address, source);
        info := info[id := info[id].(address := info[id].address.(time := Max(0, info[id].address.time - penalty)))];
        nNew := nNew + 1;
        assert T() == Entered(old(T()), address, source, penalty);
        isNew := true;
      }
      Insert(id, source, now);
    }

    /** `Attempt_`. */
    method Attempt(service: Service, time: int)
      requires Valid() && time >= 0
      modifies this
      ensures Valid()
      ensures T() == if service.net in old(addr) && old(info)[old(addr)[service.net]].address.service == service
                     then old(T()).(info := info) else old(T())
      ensures service.net in old(addr) && old(info)[old(addr)[service.net]].address.service == service ==>
        var id := old(addr)[service.net];
        info == old(info)[id := old(info)[id].(lastTry := time, attempts := old(info)[id].attempts + 1)]
    {
      hide Inv;
      var known, id := Find(service.net);
      if !known || info[id].address.service != service {
        return;
      }
      InfoTimes(h, T(), id);
      ChangedKeeps(h, T(), id, info[id].(lastTry := time, attempts := info[id].attempts + 1));
      info := info[id := info[id].(lastTry := time, attempts := info[id].attempts + 1)];
    }

    /** `Connected_`. */
    method Connected(service: Service, time: int)
      requires Valid()
      modifies this
      ensures Valid()
      ensures T() == old(T()).(info := info) && info.Keys == old(info).Keys
      ensures forall n :: n in info ==>
        info[n] == if service.net in old(addr) && n == old(addr)[service.net] && old(info)[n].address.service == service
                      && time - old(info)[n].address.time > 20 * 60
                   then old(info)[n].(address := old(info)[n].address.(time := time)) else old(info)[n]
    {
      hide Inv;
      var known, id := Find(service.net);
      if !known || info[id].address.service != service {
        return;
      }
      if time - info[id].address.time > 20 * 60 {
        InfoTimes(h, T(), id);
        ChangedKeeps(h, T(), id, info[id].(address := info[id].address.(time := time)));
        info := info[id := info[id].(address := info[id].address.(time := time))];
      }
    }

    /** `GetAddr_`: a random sample of what is known, without repetition and without terrible
        entries, and all of them when the sample is smaller than the limit. Only the random
        order changes. */
    method GetAddr(draw: nat -> nat, now: int) returns (sample: seq<Address>)
      requires Valid()
      modifies this
      ensures Valid() && T() == old(T()).(info := info, random := random) && Kept(old(info), info, {})
      ensures |sample| <= 2500 && 100 * |sample| <= 23 * |random|
      ensures forall i :: 0 <= i < |sample| ==> Sampled(info, addr, sample[i], now)
      ensures forall i, j :: 0 <= i < j < |sample| ==> sample[i].service.net != sample[j].service.net
      ensures |sample| < 2500 && 100 * (|sample| + 1) <= 23 * |random| ==>
        forall n :: n in info && !IsTerrible(info[n], now) ==> info[n].address in sample
    {
      hide IsTerrible, Inv, Kept, Picks, Sampled;
      ghost var t0 := T();
      ghost var chosen: seq<nat> := [];
      sample := [];
      var n := 0;
      GetAddrStart(h, T(), now);
      while n < |random| && |sample| < Limit(|random|)
        invariant 0 <= n <= |random| && |sample| <= Limit(|random|) && |random| == |t0.random|
        invariant Inv(h, T()) && T() == t0.(info := info, random := random) && Kept(t0.info, info, {})
        invariant Picks(info, random, sample, chosen, n, now)
      {
        var pos := draw(n) % (|random| - n) + n;
        GetAddrTurn(h, t0, T(), sample, chosen, n, pos, now);
        SwapRandom(n, pos);
        var i := info[random[n]];
        if !IsTerrible(i, now) {
          sample := sample + [i.address];
          chosen := chosen + [n];
        }
        n := n + 1;
      }
      GetAddrDone(h, T(), sample, chosen, n, now);
    }
  }

  function Limit(size: nat): nat {
    var n := GETADDR_MAX_PCT * size / 100;
    if n > GETADDR_MAX then GETADDR_MAX else n
  }

  ghost predicate Sampled(info: map<Id, AddrInfo>, addr: map<NetAddr, Id>, a: Address, now: int) {
    a.service.net in addr && addr[a.service.net] in info
    && info[addr[a.service.net]].address == a && !IsTerrible(info[addr[a.service.net]], now)
  }

  /** The sample so far: the good ones among the first `n` of the random order. */
  ghost predicate Picks(info: map<Id, AddrInfo>, random: seq<Id>, sample: seq<Address>, chosen: seq<nat>, n: nat,
      now: int) {
    && |sample| == |chosen| && n <= |random|
    && (forall m :: 0 <= m < |random| ==> random[m] in info)
    && (forall i :: 0 <= i < |chosen| ==>
      chosen[i] < n && info[random[chosen[i]]].address == sample[i] && !IsTerrible(info[random[chosen[i]]], now))
    && (forall i, j :: 0 <= i < j < |chosen| ==> chosen[i] < chosen[j])
    && (forall m :: 0 <= m < n && !IsTerrible(info[random[m]], now) ==> m in chosen)
  }

  lemma {:induction false} TerribleAlike(a: AddrInfo, pos: int, now: int)
    ensures IsTerrible(a.(randomPos := pos), now) == IsTerrible(a, now)
  {
  }

  lemma {:induction false} CanSwap(info: map<Id, AddrInfo>, random: seq<Id>, i: nat, j: nat)
    requires RandomOk(info, random) && i < |random| && j < |random|
    ensures i == j || random[i] != random[j]
  {
    assert info[random[i]].randomPos == i && info[random[j]].randomPos == j;
  }

  lemma {:induction false} KeptTwice(a: map<Id, AddrInfo>, b: map<Id, AddrInfo>, c: map<Id, AddrInfo>)
    requires Kept(a, b, {}) && Kept(b, c, {})
    ensures Kept(a, c, {})
  {
  }

  /** Swapping positions from `n` on leaves the sample alone. */
  lemma {:induction false} PicksSwap(t: Tables, sample: seq<Address>, chosen: seq<nat>, n: nat, pos: nat, now: int)
    requires RandomOk(t.info, t.random) && n <= pos < |t.random| && Picks(t.info, t.random, sample, chosen, n, now)
    ensures Picks(Swapped(t, n, pos).info, Swapped(t, n, pos).random, sample, chosen, n, now)
  {
    hide IsTerrible;
    CanSwap(t.info, t.random, n, pos);
    SwappedKept(t, n, pos);
    var t1 := Swapped(t, n, pos);
    forall m | 0 <= m < n
      ensures t1.random[m] == t.random[m] && t1.info[t1.random[m]].address == t.info[t.random[m]].address
      ensures IsTerrible(t1.info[t1.random[m]], now) == IsTerrible(t.info[t.random[m]], now)
    {
      TerribleAlike(t.info[t.random[m]], t1.info[t.random[m]].randomPos, now);
    }
  }

  lemma {:induction false} PicksMore(info: map<Id, AddrInfo>, random: seq<Id>, sample: seq<Address>, chosen: seq<nat>,
      n: nat, now: int)
    requires n < |random| && Picks(info, random, sample, chosen, n, now) && !IsTerrible(info[random[n]], now)
    ensures Picks(info, random, sample + [info[random[n]].address], chosen + [n], n + 1, now)
  {
  }

  lemma {:induction false} PicksDone(info: map<Id, AddrInfo>, addr: map<NetAddr, Id>, random: seq<Id>,
      sample: seq<Address>, chosen: seq<nat>, n: nat, now: int)
    requires AddrOk(info, addr) && RandomOk(info, random) && Picks(info, random, sample, chosen, n, now)
    ensures forall i :: 0 <= i < |sample| ==> Sampled(info, addr, sample[i], now)
    ensures forall i, j :: 0 <= i < j < |sample| ==> sample[i].service.net != sample[j].service.net
    ensures n == |random| ==> forall m :: m in info && !IsTerrible(info[m], now) ==> info[m].address in sample
  {
    hide IsTerrible;
    forall i, j | 0 <= i < j < |sample| ensures sample[i].service.net != sample[j].service.net {
      var a, b := random[chosen[i]], random[chosen[j]];
      CanSwap(info, random, chosen[i], chosen[j]);
      assert addr[info[a].address.service.net] == a && addr[info[b].address.service.net] == b;
    }
    if n == |random| {
      forall m | m in info && !IsTerrible(info[m], now) ensures info[m].address in sample {
        assert random[info[m].randomPos] == m;
        var i :| 0 <= i < |chosen| && chosen[i] == info[m].randomPos;
        assert sample[i] == info[m].address;
      }
    }
  }

  lemma {:induction false} PicksSkip(info: map<Id, AddrInfo>, random: seq<Id>, sample: seq<Address>, chosen: seq<nat>,
      n: nat, now: int)
    requires n < |random| && Picks(info, random, sample, chosen, n, now) && IsTerrible(info[random[n]], now)
    ensures Picks(info, random, sample, chosen, n + 1, now)
  {
    hide IsTerrible;
  }

  lemma {:induction false} GetAddrStart(h: Hashes, t: Tables, now: int)
    requires Inv(h, t)
    ensures Kept(t.info, t.info, {}) && Picks(t.info, t.random, [], [], 0, now)
  {
  }

  lemma {:induction false} GetAddrTurn(h: Hashes, t0: Tables, t: Tables, sample: seq<Address>, chosen: seq<nat>,
      n: nat, pos: nat, now: int)
    requires Inv(h, t) && Kept(t0.info, t.info, {}) && n <= pos < |t.random|
      && Picks(t.info, t.random, sample, chosen, n, now)
    ensures t.random[n] in t.info && t.random[pos] in t.info
    ensures var t1 := Swapped(t, n, pos);
      && Inv(h, t1) && Kept(t0.info, t1.info, {}) && t1.random[n] in t1.info
      && var i := t1.info[t1.random[n]];
      if IsTerrible(i, now) then Picks(t1.info, t1.random, sample, chosen, n + 1, now)
      else Picks(t1.info, t1.random, sample + [i.address], chosen + [n], n + 1, now)
  {
    hide IsTerrible, Picks, Weak, RefsOk, Kept, AddrOk, TriedOk, NewOk, RefsExact, IdsOk, RandomOk;
    WeakParts(h, t, 0);
    RandomIn(t.info, t.random, n);
    RandomIn(t.info, t.random, pos);
    PicksSwap(t, sample, chosen, n, pos, now);
    SwappedKeeps(h, t, n, pos, 0);
    CanSwap(t.info, t.random, n, pos);
    SwappedKept(t, n, pos);
    var t1 := Swapped(t, n, pos);
    KeptTwice(t0.info, t.info, t1.info);
    WeakParts(h, t1, 0);
    RandomIn(t1.info, t1.random, n);
    if IsTerrible(t1.info[t1.random[n]], now) {
      PicksSkip(t1.info, t1.random, sample, chosen, n, now);
    } else {
      PicksMore(t1.info, t1.random, sample, chosen, n, now);
    }
  }

  lemma {:induction false} GetAddrDone(h: Hashes, t: Tables, sample: seq<Address>, chosen: seq<nat>, n: nat, now: int)
    requires Inv(h, t) && Picks(t.info, t.random, sample, chosen, n, now)
    ensures forall i :: 0 <= i < |sample| ==> Sampled(t.info, t.addr, sample[i], now)
    ensures forall i, j :: 0 <= i < j < |sample| ==> sample[i].service.net != sample[j].service.net
    ensures n == |t.random| ==> forall m :: m in t.info && !IsTerrible(t.info[m], now) ==> t.info[m].address in sample
  {
    hide IsTerrible, Picks, Sampled;
    PicksDone(t.info, t.addr, t.random, sample, chosen, n, now);
  }

  predicate IsAt(news: map<Slot, Id>, id: Id, s: Slot) {
    s in news && news[s] == id
  }

  function BucketSlot(h: Hashes, service: Service, n: nat, rnd: nat): Slot {
    var bucket := (n + rnd) % NEW_BUCKET_COUNT;
    Slot(bucket, NewPos(h, service, bucket))
  }

  lemma {:induction false} InvReady(h: Hashes, t: Tables, id: Id)
    requires Inv(h, t)
    ensures Weak(h, t, 0) && RefsOk(t.info, {id})
  {
  }

  lemma {:induction false} EmptyInv(h: Hashes)
    ensures Inv(h, NO_TABLES)
  {
    assert NonTried(map[]) == {} && InTried(map[]) == {};
  }
}
