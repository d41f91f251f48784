/** What the operations of the address manager do to the set of known addresses and to the
    two tables. */
module AddrEffects {
  import opened AddrTables

  /** `Good_` puts a known, untried address at its tried slot; the entry that was there moves
      to its own new slot, and nothing else changes in either table. */
  lemma {:induction false} GoodMoves(h: Hashes, t: Tables, service: Service, time: int)
    requires Inv(h, t) && time > 0 && service.net in t.addr
    ensures t.addr[service.net] in t.info
    ensures var id := t.addr[service.net];
      t.info[id].address.service == service && !t.info[id].inTried ==>
        var t1, ks := Good(h, t, service, time), TriedSlot(h, service);
        && t1.tried == t.tried[ks := id]
        && (ks !in t.tried ==> t1.news == Without(t.news, id))
        && (ks in t.tried ==>
              && t.tried[ks] in t.info
              && var ev := t.info[t.tried[ks]];
              t1.news == Without(t.news, id)[NewSlot(h, ev.address.service, ev.source) := t.tried[ks]])
  {
    hide MadeTried, Without;
    EntryAt(h, t, service.net);
    var id := t.addr[service.net];
    SucceededKeeps(h, t, id, time);
    if t.info[id].address.service == service && !t.info[id].inTried {
      hide Inv;
      MadeTriedTables(h, t.(info := t.info[id := Succeeded(t.info[id], time)]), id);
    }
  }

  lemma {:induction false} MadeTriedTables(h: Hashes, t: Tables, id: Id)
    requires Inv(h, t) && id in t.info && !t.info[id].inTried
    ensures var t1, ks := MadeTried(h, t, id), TriedSlot(h, t.info[id].address.service);
      && t1.tried == t.tried[ks := id]
      && (ks !in t.tried ==> t1.news == Without(t.news, id))
      && (ks in t.tried ==>
            && t.tried[ks] in t.info && t.tried[ks] != id
            && var ev := t.info[t.tried[ks]];
            t1.news == Without(t.news, id)[NewSlot(h, ev.address.service, ev.source) := t.tried[ks]])
  {
    hide RefsOk, Kept, Weak, AddrOk, TriedOk, NewOk, RefsExact, RandomOk, Without;
    UnlistedReady(h, t, id);
    var t1, ks := Unlisted(t, id), TriedSlot(h, t.info[id].address.service);
    if ks in t.tried {
      EvictedTables(h, t1, ks, 1, {id});
    }
  }

  lemma {:induction false} EvictedTables(h: Hashes, t: Tables, ks: Slot, k: int, e: set<Id>)
    requires Weak(h, t, k) && RefsOk(t.info, e) && ks in t.tried && t.tried[ks] !in e
    requires forall s :: s in t.news ==> t.news[s] !in e
    ensures RandomOk(t.info, t.random) && t.tried[ks] in t.info
    ensures forall s :: s in t.news ==> t.news[s] in t.info && t.news[s] != t.tried[ks]
    ensures Evicted(h, t, ks).tried == t.tried - {ks}
    ensures var ev := t.info[t.tried[ks]];
      Evicted(h, t, ks).news == t.news[NewSlot(h, ev.address.service, ev.source) := t.tried[ks]]
  {
    hide RefsOk, Kept, Weak, AddrOk, TriedOk, NewOk, RefsExact, RandomOk;
    EvictedKeeps(h, t, ks, k, e);
    UntriedKeeps(h, t, ks, k, e);
    var id := t.tried[ks];
    var us := NewSlot(h, t.info[id].address.service, t.info[id].source);
    ClearedKeeps(h, Untried(t, ks), us, k + 1, e + {id});
    assert (t.news - {us})[us := id] == t.news[us := id];
  }

  /** An insertion loses only the entry itself, when it finds no slot, or a terrible entry
      whose only slot it takes. */
  lemma {:induction false} InsertedForgets(h: Hashes, t: Tables, id: Id, source: NetAddr, now: int, n: Id)
    requires Weak(h, t, 0) && RefsOk(t.info, {id}) && id in t.info && !t.info[id].inTried && n in t.info
    ensures var us := NewSlot(h, t.info[id].address.service, source);
      || (n in Inserted(h, t, id, source, now).info
        && Inserted(h, t, id, source, now).info[n].address == t.info[n].address)
      || (n == id && t.info[id].refCount == 0)
      || (us in t.news && t.news[us] == n && n != id && t.info[n].refCount == 1 && IsTerrible(t.info[n], now))
  {
    hide AddrOk, TriedOk, NewOk, RefsExact, RandomOk, Weak, IsTerrible, RefsOk;
    WeakParts(h, t, 0);
    var us := NewSlot(h, t.info[id].address.service, source);
    if us in t.news && t.news[us] == id {
    } else if MayTake(t, id, us, now) {
      ClearedLeaves(t, us, id);
      ClearedKeeps(h, t, us, 0, {id});
    } else if t.info[id].refCount == 0 {
      assert {} + {id} == {id};
      DeletedKeeps(h, t, id, 0, {});
    }
  }

  ghost predicate Knows(t: Tables, net: NetAddr) {
    net in t.addr && t.addr[net] in t.info
  }

  /** Under the invariant an address is known exactly when some entry has it. */
  lemma {:induction false} KnownByEntry(h: Hashes, t: Tables, n: Id)
    requires Inv(h, t) && n in t.info
    ensures Knows(t, t.info[n].address.service.net) && t.addr[t.info[n].address.service.net] == n
  {
  }

  /** `Add_` never forgets an address, except a terrible one that has no other slot. */
  lemma {:induction false} AddForgetsOnlyTerrible(h: Hashes, t: Tables, address: Address, routable: bool,
      source: NetAddr,
                                                  penalty: int, now: int, lucky: bool, net: NetAddr)
    requires Inv(h, t) && Knows(t, net)
    ensures var r := Added(h, t, address, routable, source, penalty, now, lucky);
      Knows(r.0, net)
        || (net != address.service.net && t.info[t.addr[net]].refCount == 1 && IsTerrible(t.info[t.addr[net]], now))
  {
    hide Weak, RefsOk, Inserted, Refreshed, IsTerrible;
    AddedKeeps(h, t, address, routable, source, penalty, now, lucky);
    var r := Added(h, t, address, routable, source, penalty, now, lucky);
    EntryAt(h, t, net);
    var n := t.addr[net];
    if routable {
      if address.service.net in t.addr {
        EntryAt(h, t, address.service.net);
        var id := t.addr[address.service.net];
        var i := Refreshed(t.info[id], address, penalty, now);
        var t1 := t.(info := t.info[id := i]);
        RefreshedKeeps(h, t, id, address, penalty, now);
        RefreshedAddress(t.info[id], address, penalty, now);
        if MayGrow(i, address, lucky) {
          InfoTimes(h, t1, id);
          HasReference(h, t1, id);
          MoreExcept(t1.info, id);
          InsertedForgets(h, t1, id, source, now, n);
          AddKept(h, t, r.0, n, net);
        }
      } else {
        EnteredKeeps(h, t, address, source, penalty);
        InsertedForgets(h, Entered(t, address, source, penalty), t.idCount, source, now, n);
        AddKept(h, t, r.0, n, net);
      }
    }
  }

  lemma {:induction false} HasReference(h: Hashes, t: Tables, id: Id)
    requires Inv(h, t) && id in t.info && !t.info[id].inTried
    ensures t.info[id].refCount >= 1
  {
  }

  lemma {:induction false} RefreshedAddress(i: AddrInfo, address: Address, penalty: int, now: int)
    ensures var j := Refreshed(i, address, penalty, now);
      j.address.service == i.address.service && j.refCount == i.refCount && j.inTried == i.inTried
  {
  }

  lemma {:induction false} AddKept(h: Hashes, t: Tables, t1: Tables, n: Id, net: NetAddr)
    requires Inv(h, t1) && n in t.info && t.info[n].address.service.net == net
    ensures n in t1.info && t1.info[n].address.service == t.info[n].address.service ==> Knows(t1, net)
  {
    if n in t1.info && t1.info[n].address.service == t.info[n].address.service {
      KnownByEntry(h, t1, n);
    }
  }

  // ---- What becomes of every entry ----

  /** What is known about an address, wherever it is filed. */
  ghost predicate SameProfile(a: AddrInfo, b: AddrInfo) {
    && a.address == b.address && a.source == b.source
    && a.lastTry == b.lastTry && a.lastSuccess == b.lastSuccess && a.attempts == b.attempts
  }

  /** The occupant of a slot that has no other. */
  ghost predicate OnlyAt(t: Tables, s: Slot, n: Id) {
    s in t.news && t.news[s] == n && n in t.info && t.info[n].refCount == 1
  }

  /** Every entry but the occupant of one slot that has no other stays, with all that is known of it. */
  ghost predicate AllBut(t: Tables, t1: Tables, s: Slot, except: set<Id>) {
    forall n :: n in t.info && n !in except ==>
      && (n in t1.info <==> !OnlyAt(t, s, n))
      && (n in t1.info ==> SameProfile(t.info[n], t1.info[n]))
  }

  lemma {:induction false} ClearedAllBut(h: Hashes, t: Tables, s: Slot, k: int, e: set<Id>)
    requires Weak(h, t, k) && RefsOk(t.info, e) && (s in t.news ==> t.news[s] !in e)
    ensures RandomOk(t.info, t.random) && (s in t.news ==> t.news[s] in t.info)
    ensures AllBut(t, Cleared(t, s), s, {})
  {
    hide Weak, RandomOk, RefsOk, Cleared;
    ClearedKeeps(h, t, s, k, e);
    if s !in t.news {
      NothingCleared(t, s);
    }
  }

  lemma {:induction false} NothingCleared(t: Tables, s: Slot)
    requires RandomOk(t.info, t.random) && s !in t.news
    ensures Cleared(t, s) == t
  {
  }

  /** An entry takes a slot of another one, or a free one. */
  lemma {:induction false} Taken(h: Hashes, t: Tables, id: Id, us: Slot)
    requires Weak(h, t, 0) && RefsOk(t.info, {id}) && id in t.info && (us in t.news ==> t.news[us] != id)
    ensures RandomOk(t.info, t.random) && (us in t.news ==> t.news[us] in t.info) && id in Cleared(t, us).info
    ensures var r := Referenced(Cleared(t, us), id, us);
      && id in r.info
      && r.info[id] == t.info[id].(refCount := t.info[id].refCount + 1, randomPos := r.info[id].randomPos)
      && r.news == t.news[us := id] && r.tried == t.tried && AllBut(t, r, us, {id})
  {
    hide Weak, RefsOk, RandomOk, Cleared;
    ClearedKeeps(h, t, us, 0, {id});
    ClearedLeaves(t, us, id);
    ClearedAllBut(h, t, us, 0, {id});
    assert (t.news - {us})[us := id] == t.news[us := id];
  }

  /** The slots: 1024 new and 256 tried buckets of 64 positions, chosen by the hashes of address and source, and of the
      service. */
  lemma {:induction false} SlotsAre(h: Hashes, service: Service, source: NetAddr)
    ensures NewSlot(h, service, source).bucket == h.untried(service.net, source) % 1024
    ensures var us := NewSlot(h, service, source); us.pos == h.position(true, us.bucket, service) % 64
    ensures TriedSlot(h, service).bucket == h.tried(service) % 256
    ensures var ks := TriedSlot(h, service); ks.pos == h.position(false, ks.bucket, service) % 64
  {
  }

  /** A routable address that is not known is learned exactly when its new slot is free, or its occupant is terrible or
      has another slot; it is filed there, and no other slot changes. Otherwise nothing changes. */
  lemma {:induction false} AddLearns(h: Hashes, t: Tables, address: Address, source: NetAddr, penalty: int, now: int,
      lucky: bool)
    requires Inv(h, t) && address.service.net !in t.addr
    ensures forall s :: s in t.news ==> t.news[s] in t.info
    ensures var r := Added(h, t, address, true, source, penalty, now, lucky);
      var us, id := NewSlot(h, address.service, source), t.idCount;
      var fits := us !in t.news || IsTerrible(t.info[t.news[us]], now) || t.info[t.news[us]].refCount > 1;
      && r.1 && (Knows(r.0, address.service.net) <==> fits)
      && (!fits ==> r.0 == t.(idCount := t.idCount + 1))
      && (fits ==>
            && id !in t.info && id in r.0.info && r.0.addr[address.service.net] == id
            && r.0.info[id].address == address.(time := Max(0, address.time - penalty))
            && r.0.info[id].source == source && r.0.info[id].refCount == 1 && !r.0.info[id].inTried
            && r.0.info[id].lastTry == 0 && r.0.info[id].lastSuccess == 0 && r.0.info[id].attempts == 0
            && r.0.news == t.news[us := id] && r.0.tried == t.tried && AllBut(t, r.0, us, {}))
  {
    hide Weak, RefsOk, RandomOk, IsTerrible, Cleared, Referenced, Deleted, AddrOk, NewOk, TriedOk, RefsExact, AllBut;
    var t1, id, us := Entered(t, address, source, penalty), t.idCount, NewSlot(h, address.service, source);
    WeakParts(h, t, 0);
    OldIds(h, t);
    EnteredKeeps(h, t, address, source, penalty);
    WeakParts(h, t1, 0);
    AddedKeeps(h, t, address, true, source, penalty, now, lucky);
    if MayTake(t1, id, us, now) {
      Taken(h, t1, id, us);
      AllOld(t, t1, Referenced(Cleared(t1, us), id, us), us);
      KnownByEntry(h, Referenced(Cleared(t1, us), id, us), id);
    } else {
      ComesAndGoes(h, t, address, source, penalty);
      Forgotten(h, t, address.service.net);
    }
  }

  lemma {:induction false} Forgotten(h: Hashes, t: Tables, net: NetAddr)
    requires net !in t.addr
    ensures !Knows(t.(idCount := t.idCount + 1), net)
  {
  }

  /** A new entry hides nothing. */
  lemma {:induction false} AllOld(t: Tables, t1: Tables, t2: Tables, us: Slot)
    requires t.idCount !in t.info && t1.news == t.news && t.idCount in t1.info
    requires t1.info == t.info[t.idCount := t1.info[t.idCount]]
    requires AllBut(t1, t2, us, {t.idCount})
    ensures AllBut(t, t2, us, {})
  {
  }

  lemma {:induction false} OldIds(h: Hashes, t: Tables)
    requires Inv(h, t)
    ensures t.idCount !in t.info && forall s :: s in t.news ==> t.news[s] in t.info && t.news[s] != t.idCount
  {
  }

  lemma {:induction false} ComesAndGoes(h: Hashes, t: Tables, address: Address, source: NetAddr, penalty: int)
    requires Inv(h, t) && address.service.net !in t.addr
    ensures var t1 := Entered(t, address, source, penalty);
      RandomOk(t1.info, t1.random) && Deleted(t1, t.idCount) == t.(idCount := t.idCount + 1)
  {
    hide Weak, RefsOk, RandomOk, AddrOk, NewOk, TriedOk, RefsExact, Deleted;
    OldIds(h, t);
    EnteredKeeps(h, t, address, source, penalty);
    WeakParts(h, Entered(t, address, source, penalty), 0);
    CreatedThenDeleted(t, address, source, penalty);
  }

  lemma {:induction false} CreatedThenDeleted(t: Tables, address: Address, source: NetAddr, penalty: int)
    requires t.idCount !in t.info && address.service.net !in t.addr
    ensures Deleted(Entered(t, address, source, penalty), t.idCount) == t.(idCount := t.idCount + 1)
  {
    var t1 := Entered(t, address, source, penalty);
    assert t1.random[|t.random|] == t.idCount && t1.random[..|t.random|] == t.random;
    assert t1.info - {t.idCount} == t.info;
    assert t1.addr - {address.service.net} == t.addr;
  }

  /** A known address: its services are joined, its time follows the announced one with the penalty, and it gains the
      slot for this source exactly when it may and the slot is free or its occupant terrible. */
  lemma {:induction false} AddRefreshes(h: Hashes, t: Tables, address: Address, source: NetAddr, penalty: int, now: int,
      lucky: bool)
    requires Inv(h, t) && address.service.net in t.addr
    ensures t.addr[address.service.net] in t.info && forall s :: s in t.news ==> t.news[s] in t.info
    ensures var r := Added(h, t, address, true, source, penalty, now, lucky);
      var id := t.addr[address.service.net];
      var was, us := t.info[id], NewSlot(h, t.info[id].address.service, source);
      var gap := if now - address.time < 86400 then 3600 else 86400;
      var time := if address.time != 0 && (was.address.time == 0 || was.address.time < address.time - gap - penalty)
                  then Max(0, address.time - penalty) else was.address.time;
      var grows :=
        && address.time != 0 && (time == 0 || address.time > time)
        && !was.inTried && was.refCount < 8 && lucky
        && (us !in t.news || (t.news[us] != id && IsTerrible(t.info[t.news[us]], now)));
      && !r.1 && id in r.0.info
      && r.0.info[id].address == Address(was.address.service, was.address.services + address.services, time)
      && SameProfile(was.(address := r.0.info[id].address), r.0.info[id])
      && r.0.info[id].refCount == was.refCount + (if grows then 1 else 0)
      && r.0.news == (if grows then t.news[us := id] else t.news) && r.0.tried == t.tried
      && if grows then AllBut(t, r.0, us, {id}) else r.0 == t.(info := t.info[id := r.0.info[id]])
  {
    hide Weak, RefsOk, RandomOk, IsTerrible, Cleared, AddrOk, NewOk, TriedOk, RefsExact;
    EntryAt(h, t, address.service.net);
    OldIds(h, t);
    var id := t.addr[address.service.net];
    var i := Refreshed(t.info[id], address, penalty, now);
    var t1, us := t.(info := t.info[id := i]), NewSlot(h, t.info[id].address.service, source);
    RefreshedKeeps(h, t, id, address, penalty, now);
    InfoTimes(h, t, id);
    WeakParts(h, t1, 0);
    if MayGrow(i, address, lucky) {
      HasReference(h, t, id);
      MoreExcept(t1.info, id);
      GrowsSlot(h, t, id, i, us, source, now);
    } else if !t.info[id].inTried {
      HasReference(h, t, id);
    }
  }

  lemma {:induction false} GrowsSlot(h: Hashes, t: Tables, id: Id, i: AddrInfo, us: Slot, source: NetAddr, now: int)
    requires id in t.info && t.info[id].refCount > 0 && i.refCount == t.info[id].refCount && !i.inTried
    requires i.address.service == t.info[id].address.service && us == NewSlot(h, i.address.service, source)
    requires forall s :: s in t.news ==> t.news[s] in t.info
    requires Weak(h, t.(info := t.info[id := i]), 0) && RefsOk(t.info[id := i], {id})
    ensures var t1 := t.(info := t.info[id := i]);
      var takes := us !in t.news || (t.news[us] != id && IsTerrible(t.info[t.news[us]], now));
      var r := Inserted(h, t1, id, source, now);
      if takes
      then && id in r.info && r.info[id] == i.(refCount := i.refCount + 1, randomPos := r.info[id].randomPos)
           && r.news == t.news[us := id] && r.tried == t.tried && AllBut(t, r, us, {id})
      else r == t1
  {
    hide Weak, RefsOk, RandomOk, IsTerrible, Cleared, Referenced, NewOk, TriedOk, AddrOk, RefsExact, AllBut;
    var t1 := t.(info := t.info[id := i]);
    WeakParts(h, t1, 0);
    if us in t.news && t.news[us] == id {
    } else if MayTake(t1, id, us, now) {
      Taken(h, t1, id, us);
      AllSame(t, t1, Referenced(Cleared(t1, us), id, us), us, id);
    }
  }

  lemma {:induction false} AllSame(t: Tables, t1: Tables, t2: Tables, us: Slot, id: Id)
    requires id in t.info && t1.news == t.news && id in t1.info && t1.info == t.info[id := t1.info[id]]
    requires AllBut(t1, t2, us, {id})
    ensures AllBut(t, t2, us, {id})
  {
  }

  /** Addresses that cannot be routed to are not added. */
  lemma {:induction false} UnroutableIgnored(h: Hashes, t: Tables, address: Address, source: NetAddr, penalty: int,
      now: int, lucky: bool)
    requires Inv(h, t)
    ensures Added(h, t, address, false, source, penalty, now, lucky) == (t, false)
  {
  }

  // ---- Success ----

  /** An eviction keeps every entry but the last reference of the slot that it takes. */
  lemma {:induction false} EvictedAllBut(h: Hashes, t: Tables, ks: Slot, k: int, e: set<Id>)
    requires Weak(h, t, k) && RefsOk(t.info, e) && ks in t.tried && t.tried[ks] !in e
    requires forall s :: s in t.news ==> t.news[s] !in e
    ensures RandomOk(t.info, t.random) && t.tried[ks] in t.info
    ensures forall s :: s in t.news ==> t.news[s] in t.info && t.news[s] != t.tried[ks]
    ensures var r, n := Evicted(h, t, ks), t.tried[ks];
      && AllBut(t, r, NewSlot(h, t.info[n].address.service, t.info[n].source), {})
      && n in r.info && !r.info[n].inTried && r.info[n].refCount == 1
  {
    hide RefsOk, Kept, Weak, AddrOk, TriedOk, NewOk, RefsExact, RandomOk, Cleared;
    EvictedKeeps(h, t, ks, k, e);
    UntriedKeeps(h, t, ks, k, e);
    var id := t.tried[ks];
    var us, t1 := NewSlot(h, t.info[id].address.service, t.info[id].source), Untried(t, ks);
    ClearedAllBut(h, t1, us, k + 1, e + {id});
    ClearedLeaves(t1, us, id);
  }

  /** `MakeTried` on every entry. */
  lemma {:induction false} MadeTriedEntries(h: Hashes, t: Tables, id: Id)
    requires Inv(h, t) && id in t.info && !t.info[id].inTried
    ensures var r, ks := MadeTried(h, t, id), TriedSlot(h, t.info[id].address.service);
      && id in r.info && r.info[id].inTried && SameProfile(t.info[id], r.info[id])
      && (ks !in t.tried ==> forall n :: n in t.info ==> n in r.info && SameProfile(t.info[n], r.info[n]))
      && (ks in t.tried ==>
            && t.tried[ks] in t.info
            && var ev := t.info[t.tried[ks]];
            AllBut(t, r, NewSlot(h, ev.address.service, ev.source), {id}))
  {
    hide RefsOk, Kept, Weak, AddrOk, TriedOk, NewOk, RefsExact, RandomOk, Without, Evicted;
    UnlistedReady(h, t, id);
    var t1, ks := Unlisted(t, id), TriedSlot(h, t.info[id].address.service);
    if ks in t.tried {
      EvictedAllBut(h, t1, ks, 1, {id});
      var ev := t.info[t.tried[ks]];
      UnlistedOnly(h, t, id, NewSlot(h, ev.address.service, ev.source));
      assert t1.info[t.tried[ks]] == ev;
    }
  }

  lemma {:induction false} UnlistedOnly(h: Hashes, t: Tables, id: Id, s: Slot)
    requires id in t.info
    ensures forall n :: n in t.info && n != id ==> OnlyAt(t, s, n) == OnlyAt(Unlisted(t, id), s, n)
  {
  }

  /** A success is noted for the known service only: it is then tried, with no failed attempt since. Nothing else is
      forgotten but the entry whose last new slot an evicted one takes over. */
  lemma {:induction false} GoodNotes(h: Hashes, t: Tables, service: Service, time: int)
    requires Inv(h, t) && time > 0
    ensures var r := Good(h, t, service, time);
      if service.net !in t.addr then r == t
      else
        && t.addr[service.net] in t.info
        && var id := t.addr[service.net];
        if t.info[id].address.service != service then r == t
        else
          && id in r.info && r.info[id].inTried && r.info[id].address == t.info[id].address
          && r.info[id].source == t.info[id].source && r.info[id].attempts == 0
          && r.info[id].lastSuccess == time && r.info[id].lastTry == time
          && (t.info[id].inTried ==> r == t.(info := t.info[id := r.info[id]]))
          && (!t.info[id].inTried ==> OthersAfterGood(h, t, r, id))
  {
    hide MadeTried, Inv, OthersAfterGood, SameProfile;
    if service.net in t.addr {
      EntryAt(h, t, service.net);
      var id := t.addr[service.net];
      var t1 := t.(info := t.info[id := Succeeded(t.info[id], time)]);
      SucceededKeeps(h, t, id, time);
      if t.info[id].address.service == service && !t.info[id].inTried {
        MadeTriedEntries(h, t1, id);
        ProfileParts(t1.info[id], MadeTried(h, t1, id).info[id]);
        OthersSame(h, t, t1, MadeTried(h, t1, id), id);
      }
    }
  }

  ghost predicate OthersAfterGood(h: Hashes, t: Tables, r: Tables, id: Id) {
    && id in t.info
    && var ks := TriedSlot(h, t.info[id].address.service);
    && (ks !in t.tried ==> forall n :: n in t.info && n != id ==> n in r.info && SameProfile(t.info[n], r.info[n]))
    && (ks in t.tried && t.tried[ks] in t.info ==>
          var ev := t.info[t.tried[ks]]; AllBut(t, r, NewSlot(h, ev.address.service, ev.source), {id}))
  }

  lemma {:induction false} ProfileParts(a: AddrInfo, b: AddrInfo)
    requires SameProfile(a, b)
    ensures b.address == a.address && b.source == a.source && b.attempts == a.attempts
    ensures b.lastSuccess == a.lastSuccess && b.lastTry == a.lastTry
  {
  }

  lemma {:induction false} OthersSame(h: Hashes, t: Tables, t1: Tables, r: Tables, id: Id)
    requires id in t.info && id in t1.info && t1 == t.(info := t.info[id := t1.info[id]])
    requires t1.info[id].address == t.info[id].address && t1.info[id].source == t.info[id].source
    requires OthersAfterGood(h, t1, r, id)
    ensures OthersAfterGood(h, t, r, id)
  {
    forall n, s | n in t.info && n != id ensures OnlyAt(t, s, n) == OnlyAt(t1, s, n) {}
  }

  // ---- Healthy addresses ----

  /** Terrible: not tried within the last minute, and from the future, unseen for thirty days, never reached in three
      attempts, or not reached for a week in ten. */
  lemma {:induction false} TerribleMeans(i: AddrInfo, now: int)
    ensures IsTerrible(i, now) <==>
      && (i.lastTry == 0 || now - i.lastTry > 60)
      && (|| i.address.time - now > 600 || i.address.time == 0 || now - i.address.time > 30 * 86400
          || (i.attempts >= 3 && i.lastSuccess == 0) || (i.attempts >= 10 && now - i.lastSuccess > 7 * 86400))
  {
  }

  /** Seen within thirty days, not from the future, and reached within a week. */
  predicate Healthy(i: AddrInfo, now: int) {
    && i.address.time != 0 && now - i.address.time <= 30 * 86400 && i.address.time <= now + 600
    && i.lastSuccess != 0 && now - i.lastSuccess <= 7 * 86400
  }

  /** `Add_` never forgets an address that is healthy, nor one that is tried right now. */
  lemma {:induction false} HealthyStays(h: Hashes, t: Tables, address: Address, routable: bool, source: NetAddr,
      penalty: int, now: int, lucky: bool, net: NetAddr)
    requires Inv(h, t) && Knows(t, net)
    requires var i := t.info[t.addr[net]]; Healthy(i, now) || (i.lastTry != 0 && now - i.lastTry <= 60)
    ensures Knows(Added(h, t, address, routable, source, penalty, now, lucky).0, net)
  {
    hide Inv, Added;
    AddForgetsOnlyTerrible(h, t, address, routable, source, penalty, now, lucky, net);
  }
}
