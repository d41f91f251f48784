/** `CCoinsViewDB` and `CCoinsViewCache` as linked objects: caches stacked on a database,
    each filling itself on reads and writing back on `Flush` (src/coins.cpp, src/txdb.cpp). */
module CoinsViews {
  import opened Results
  import opened Coins
  import opened Sidechain
  import opened Ledger
  import opened CacheLayer

  /** The loop of `CCoinsViewCache::BatchWrite` over sidechains or events, in whatever
      order the hash map yields them; `ok` is false when an assert fires. */
  method WriteEntries<K(!new), V(==)>(mine: map<K, Entry<V>>, child: map<K, Entry<V>>)
      returns (ok: bool, r: map<K, Entry<V>>)
    ensures ok <==> MayWriteAll(mine, child)
    ensures ok ==> Written(mine, r, child)
  {
    r := mine;
    var todo := child.Keys;
    while todo != {}
      invariant todo <= child.Keys
      invariant forall k :: Get(r, k) == if k in child && k !in todo then WriteEntry(Get(mine, k), child[k])
        else Get(mine, k)
      invariant forall k :: k in child && k !in todo ==> MayWrite(Get(mine, k), child[k])
      decreases |todo|
    {
      var k :| k in todo;
      var e := child[k];
      if !MayWrite(Get(r, k), e) {
        return false, r;
      }
      match e.flag {
        case Fresh => r := r[k := e];
        case Dirty => r := r[k := e];
        case Erased => if k in r { r := r[k := r[k].(flag := Erased)]; }
        case Default =>
      }
      todo := todo - {k};
    }
    ok := true;
  }

  /** The same loop over coins; under the invariant its assert cannot fire. */
  method WriteCoinsEntries(mine: CoinsCache, child: CoinsCache) returns (r: CoinsCache)
    requires forall h :: h in child ==> MayWriteCoins(Get(mine, h), child[h])
    ensures CoinsWritten(mine, r, child)
  {
    r := mine;
    var todo := child.Keys;
    while todo != {}
      invariant todo <= child.Keys
      invariant forall h :: Get(r, h) == if h in child && h !in todo then WriteCoins(Get(mine, h), child[h])
        else Get(mine, h)
      decreases |todo|
    {
      var h :| h in todo;
      var e := child[h];
      assert Get(r, h) == Get(mine, h);
      if e.dirty {
        if h !in r {
          if !IsPruned(e.coins) {
            assert e.isNew;
            r := r[h := CoinsEntry(e.coins, true, true)];
          }
        } else if r[h].isNew && IsPruned(e.coins) {
          r := r - {h};
        } else {
          r := r[h := CoinsEntry(e.coins, true, r[h].isNew)];
        }
      }
      todo := todo - {h};
    }
  }

  // ---- The database at the bottom ----

  function DbEntry<V>(mine: Option<V>, e: Entry<V>): Option<V> {
    match e.flag
    case Fresh => Some(e.value)
    case Dirty => Some(e.value)
    case Erased => None
    case Default => mine
  }

  function DbCoins(mine: Option<CCoins>, e: CoinsEntry): Option<CCoins> {
    if !e.dirty then mine else if IsPruned(e.coins) then None else Some(e.coins)
  }

  /** `CCoinsViewDB::BatchWrite` for sidechains or events. */
  method WriteDb<K, V>(mine: map<K, V>, child: map<K, Entry<V>>) returns (r: map<K, V>)
    ensures forall k :: Get(r, k) == if k in child then DbEntry(Get(mine, k), child[k]) else Get(mine, k)
  {
    r := mine;
    var todo := child.Keys;
    while todo != {}
      invariant todo <= child.Keys
      invariant forall k :: Get(r, k) == if k in child && k !in todo then DbEntry(Get(mine, k), child[k])
        else Get(mine, k)
      decreases |todo|
    {
      var k :| k in todo;
      match child[k].flag {
        case Fresh => r := r[k := child[k].value];
        case Dirty => r := r[k := child[k].value];
        case Erased => r := r - {k};
        case Default =>
      }
      todo := todo - {k};
    }
  }

  method WriteDbCoins(mine: CoinMap, child: CoinsCache) returns (r: CoinMap)
    ensures forall h :: Get(r, h) == if h in child then DbCoins(Get(mine, h), child[h]) else Get(mine, h)
  {
    r := mine;
    var todo := child.Keys;
    while todo != {}
      invariant todo <= child.Keys
      invariant forall h :: Get(r, h) == if h in child && h !in todo then DbCoins(Get(mine, h), child[h])
        else Get(mine, h)
      decreases |todo|
    {
      var h :| h in todo;
      if child[h].dirty {
        r := if IsPruned(child[h].coins) then r - {h} else r[h := child[h].coins];
      }
      todo := todo - {h};
    }
  }

  lemma {:induction false} DbRefines<K, V>(mine: map<K, V>, child: map<K, Entry<V>>, r: map<K, V>)
    requires EntriesOk(child, mine, None)
    requires forall k :: Get(r, k) == if k in child then DbEntry(Get(mine, k), child[k]) else Get(mine, k)
    ensures r == Overlay(mine, child)
  {
    forall k ensures Get(r, k) == Get(Overlay(mine, child), k) {}
    MapsEqual(r, Overlay(mine, child));
  }

  lemma {:induction false} DbCoinsRefines(mine: CoinMap, child: CoinsCache, r: CoinMap)
    requires AllGood(mine) && CoinsEntriesOk(child, mine, None)
    requires forall h :: Get(r, h) == if h in child then DbCoins(Get(mine, h), child[h]) else Get(mine, h)
    ensures r == OverlayCoins(mine, child) && AllGood(r)
  {
    forall h ensures Get(r, h) == Get(OverlayCoins(mine, child), h) {}
    MapsEqual(r, OverlayCoins(mine, child));
  }

  class CoinsViewDb {
    var coins: CoinMap
    var scs: ScMap
    var events: EventMap

    constructor ()
      ensures coins == map[] && scs == map[] && events == map[]
    {
      coins, scs, events := map[], map[], map[];
    }

    method BatchWrite(childCoins: CoinsCache, childScs: ScCache, childEvents: EventCache)
      requires AllGood(coins) && CoinsEntriesOk(childCoins, coins, None)
      requires EntriesOk(childScs, scs, None) && EntriesOk(childEvents, events, None)
      modifies this
      ensures coins == OverlayCoins(old(coins), childCoins) && AllGood(coins)
      ensures scs == Overlay(old(scs), childScs)
      ensures events == Overlay(old(events), childEvents)
    {
      var c := WriteDbCoins(coins, childCoins);
      DbCoinsRefines(coins, childCoins, c);
      var s := WriteDb(scs, childScs);
      DbRefines(scs, childScs, s);
      var e := WriteDb(events, childEvents);
      DbRefines(events, childEvents, e);
      coins, scs, events := c, s, e;
    }
  }

  /** A cache over another cache, or over the database when `base` is null. `view` is what
      clients see, as plain maps. */
  class CoinsViewCache {
    var base: CoinsViewCache?
    var db: CoinsViewDb
    var hasModifier: bool
    var cacheCoins: CoinsCache
    var cacheScs: ScCache
    var cacheEvents: EventCache
    ghost var view: State
    /** This cache and the caches below it. */
    ghost var Chain: set<CoinsViewCache>

    ghost function Entries(): Layer
      reads this
    {
      Layer(cacheCoins, cacheScs, cacheEvents)
    }

    /** The view below: that of the base, or the database itself. */
    ghost function Below(): State
      reads this, base, db
    {
      if base == null then State(db.scs, db.events, db.coins) else base.view
    }

    ghost function BaseKeys(): Local
      reads this, base
    {
      if base == null then Database else KeysOf(base.Entries())
    }

    /** The chain of bases is well linked. */
    ghost predicate Linked()
      reads this, Chain, db
      decreases Chain, 0
    {
      && this in Chain
      && (base != null ==>
            base in Chain && base.Chain < Chain && this !in base.Chain && base.db == db && base.Valid())
    }

    ghost predicate Valid()
      reads this, Chain, db
      ensures Valid() ==> this in Chain
      decreases Chain, 1
    {
      && Linked()
      && LayerOk(Entries(), Below(), BaseKeys())
      && view == LayerView(Below(), Entries())
    }

    /** No fresh entry is shown by what is below. */
    ghost predicate FlushOk()
      reads this, base, db
    {
      FreshAreNew(Entries(), Below())
    }

    /** Between operations no modifier is out, fresh entries are new to what is below, and an
        erased event record that is opened again starts from nothing. */
    ghost predicate Ready()
      reads this, base, Chain, db
    {
      Valid() && !hasModifier && FlushOk() && TidyEvents(cacheEvents)
    }

    /** Nothing that is below has been erased here, as in a cache that connects blocks. */
    ghost predicate Growing()
      reads this, base, db
    {
      TidyScs(cacheScs) && Below().scs.Keys <= view.scs.Keys
    }

    constructor OnDb(db: CoinsViewDb)
      requires AllGood(db.coins)
      ensures Valid() && base == null && !hasModifier && Chain == {this} && this.db == db
      ensures view == State(db.scs, db.events, db.coins)
      ensures Entries() == EMPTY_LAYER
    {
      base, this.db, hasModifier := null, db, false;
      cacheCoins, cacheScs, cacheEvents := map[], map[], map[];
      view := State(db.scs, db.events, db.coins);
      Chain := {this};
      EmptyLayerOk(State(db.scs, db.events, db.coins), Database);
    }

    constructor OnCache(base: CoinsViewCache)
      requires base.Valid()
      ensures Valid() && this.base == base && !hasModifier && Chain == base.Chain + {this} && db == base.db
      ensures view == base.view
      ensures Entries() == EMPTY_LAYER
    {
      this.base, db, hasModifier := base, base.db, false;
      cacheCoins, cacheScs, cacheEvents := map[], map[], map[];
      view := base.view;
      Chain := base.Chain + {this};
      LayerViewGood(base.Entries(), base.Below(), base.BaseKeys());
      EmptyLayerOk(base.view, KeysOf(base.Entries()));
    }

    /** Every change to this cache goes through here. */
    method SetEntries(coins: CoinsCache, scs: ScCache, events: EventCache)
      requires Valid() && LayerOk(Layer(coins, scs, events), Below(), BaseKeys())
      modifies this`cacheCoins, this`cacheScs, this`cacheEvents, this`view
      ensures Valid() && Below() == old(Below())
      ensures cacheCoins == coins && cacheScs == scs && cacheEvents == events
      ensures view == LayerView(Below(), Entries())
    {
      hide LayerOk, LayerView;
      cacheCoins, cacheScs, cacheEvents := coins, scs, events;
      view := LayerView(Below(), Entries());
    }

    method SetModifier(b: bool)
      requires Valid()
      modifies this`hasModifier
      ensures Valid() && Below() == old(Below()) && hasModifier == b
    {
      hasModifier := b;
    }

    // ---- Reads fill the caches on the way down ----

    /** A base that fills its own cache does not disturb this one. */
    twostate lemma BaseFilled()
      requires old(Valid()) && unchanged(this) && unchanged(old(db)) && base != null
      requires base.Valid() && unchanged(base`Chain, base`db) && base.view == old(base.view)
      requires Filled(old(base.Entries()), base.Entries())
      ensures Valid()
    {
      FilledGrows(old(base.Entries()), base.Entries());
      LayerOkGrow(Entries(), Below(), old(BaseKeys()), BaseKeys());
    }

    lemma {:induction false} BelowGood()
      requires Valid()
      ensures AllGood(Below().coins)
    {
    }

    lemma {:induction false} ViewGood()
      requires Valid()
      ensures AllGood(view.coins)
    {
      LayerViewGood(Entries(), Below(), BaseKeys());
    }

    /** `base->GetCoins`: the database's record, or what the base caches for `h`. */
    method FetchCoinsBelow(h: Hash) returns (found: Option<CCoins>)
      requires Valid()
      modifies (Chain - {this})`cacheCoins, (Chain - {this})`cacheScs, (Chain - {this})`cacheEvents,
        (Chain - {this})`view
      ensures Valid() && Below() == old(Below())
      ensures if found.Some? then SameCoins(found.value, Below().coins, h) && Trimmed(found.value.vout)
        else h !in Below().coins
      ensures found.Some? ==> IsLocal(LocalCoins(BaseKeys()), h)
      decreases Chain, 0
    {
      hide LayerOk, LayerView;
      if base == null {
        BelowGood();
        return Get(db.coins, h);
      }
      var b := base.FetchCoins(h);
      BaseFilled();
      found := if b.Some? then Some(b.value.coins) else None;
    }

    /** `FetchCoins`, which `GetCoins`, `AccessCoins` and `HaveCoins` share. */
    method FetchCoins(h: Hash) returns (e: Option<CoinsEntry>)
      requires Valid()
      modifies Chain`cacheCoins, Chain`cacheScs, Chain`cacheEvents, Chain`view
      ensures Valid() && Below() == old(Below()) && view == old(view)
      ensures Filled(old(Entries()), Entries())
      ensures cacheScs == old(cacheScs) && cacheEvents == old(cacheEvents)
      ensures e == Get(cacheCoins, h)
      ensures cacheCoins == if e.Some? then old(cacheCoins)[h := e.value] else old(cacheCoins)
      ensures h in old(cacheCoins) ==> e == Some(old(cacheCoins)[h])
      ensures if e.Some? then SameCoins(e.value.coins, view.coins, h) && Trimmed(e.value.coins.vout)
        else h !in view.coins
      ensures e.None? ==> h !in Below().coins
      ensures old(FlushOk()) ==> FlushOk()
      decreases Chain, 1
    {
      if h in cacheCoins {
        return Some(cacheCoins[h]);
      }
      var found := FetchCoinsBelow(h);
      if found.None? {
        return None;
      }
      e := Some(CoinsEntry(found.value, false, IsPruned(found.value)));
      FillCoins(Entries(), Below(), BaseKeys(), h, e.value);
      SetEntries(cacheCoins[h := e.value], cacheScs, cacheEvents);
    }

    /** `base->GetSidechain`. */
    method FetchSidechainBelow(id: ScId) returns (found: Option<CSidechain>)
      requires Valid()
      modifies (Chain - {this})`cacheCoins, (Chain - {this})`cacheScs, (Chain - {this})`cacheEvents,
        (Chain - {this})`view
      ensures Valid() && Below() == old(Below())
      ensures found == Get(Below().scs, id)
      ensures found.Some? ==> IsLocal(LocalScs(BaseKeys()), id)
      decreases Chain, 0
    {
      hide LayerOk, LayerView;
      if base == null {
        return Get(db.scs, id);
      }
      found := base.GetSidechain(id);
      BaseFilled();
    }

    /** `GetSidechain`, and `HaveSidechain` when only `found.Some?` is used. */
    method GetSidechain(id: ScId) returns (found: Option<CSidechain>)
      requires Valid()
      modifies Chain`cacheCoins, Chain`cacheScs, Chain`cacheEvents, Chain`view
      ensures Valid() && Below() == old(Below()) && view == old(view)
      ensures found == Get(view.scs, id)
      ensures Filled(old(Entries()), Entries())
      ensures found.Some? ==> id in cacheScs && !cacheScs[id].flag.Erased? && cacheScs[id].value == found.value
      ensures found.None? ==> if id in cacheScs then cacheScs[id].flag.Erased? else id !in Below().scs
      ensures old(TidyScs(cacheScs)) ==> TidyScs(cacheScs)
      ensures old(TidyEvents(cacheEvents)) ==> TidyEvents(cacheEvents)
      ensures old(FlushOk()) ==> FlushOk()
      decreases Chain, 1
    {
      if id in cacheScs {
        return if cacheScs[id].flag.Erased? then None else Some(cacheScs[id].value);
      }
      found := FetchSidechainBelow(id);
      if found.Some? {
        FillSc(Entries(), Below(), BaseKeys(), id);
        SetEntries(cacheCoins, cacheScs[id := Entry(found.value, Default)], cacheEvents);
        FilledKeeps(old(Entries()), Entries(), Below());
      }
    }

    /** `base->GetSidechainEvents`. */
    method FetchSidechainEventsBelow(k: int) returns (found: Option<ScEvents>)
      requires Valid()
      modifies (Chain - {this})`cacheCoins, (Chain - {this})`cacheScs, (Chain - {this})`cacheEvents,
        (Chain - {this})`view
      ensures Valid() && Below() == old(Below())
      ensures found == Get(Below().events, k)
      ensures found.Some? ==> IsLocal(LocalEvents(BaseKeys()), k)
      decreases Chain, 0
    {
      hide LayerOk, LayerView;
      if base == null {
        return Get(db.events, k);
      }
      found := base.GetSidechainEvents(k);
      BaseFilled();
    }

    /** `GetSidechainEvents`, and `HaveSidechainEvents` when only `found.Some?` is used. */
    method GetSidechainEvents(k: int) returns (found: Option<ScEvents>)
      requires Valid()
      modifies Chain`cacheCoins, Chain`cacheScs, Chain`cacheEvents, Chain`view
      ensures Valid() && Below() == old(Below()) && view == old(view)
      ensures found == Get(view.events, k)
      ensures Filled(old(Entries()), Entries())
      ensures found.Some? ==> k in cacheEvents && !cacheEvents[k].flag.Erased? && cacheEvents[k].value == found.value
      ensures found.None? ==> if k in cacheEvents then cacheEvents[k].flag.Erased? else k !in Below().events
      ensures old(TidyScs(cacheScs)) ==> TidyScs(cacheScs)
      ensures old(TidyEvents(cacheEvents)) ==> TidyEvents(cacheEvents)
      ensures old(FlushOk()) ==> FlushOk()
      decreases Chain, 1
    {
      if k in cacheEvents {
        return if cacheEvents[k].flag.Erased? then None else Some(cacheEvents[k].value);
      }
      found := FetchSidechainEventsBelow(k);
      if found.Some? {
        FillEvents(Entries(), Below(), BaseKeys(), k);
        SetEntries(cacheCoins, cacheScs, cacheEvents[k := Entry(found.value, Default)]);
        FilledKeeps(old(Entries()), Entries(), Below());
      }
    }

    // ---- Writes ----

    /** `ModifySidechain`: a cached entry to write through, made fresh when nothing is below. */
    method ModifySidechain(id: ScId) returns (e: Entry<CSidechain>)
      requires Valid()
      modifies Chain`cacheCoins, Chain`cacheScs, Chain`cacheEvents, Chain`view
      ensures Valid() && Below() == old(Below())
      ensures cacheScs == old(cacheScs)[id := e] && cacheCoins == old(cacheCoins) && cacheEvents == old(cacheEvents)
      ensures id in old(cacheScs) ==> e == old(cacheScs)[id]
      ensures id !in old(cacheScs) ==>
        e == if id in Below().scs then Entry(Below().scs[id], Default) else Entry(DEFAULT_SC, Fresh)
      ensures id in old(cacheScs) || id in Below().scs ==> view == old(view)
      ensures id !in old(cacheScs) && id !in Below().scs ==> view == old(view).(scs := old(view).scs[id := DEFAULT_SC])
      ensures if e.flag.Erased? then id !in view.scs else id in view.scs && view.scs[id] == e.value
      ensures id in old(view).scs ==> view == old(view)
      ensures old(FlushOk()) && e.flag.Fresh? ==> id !in Below().scs
      ensures old(TidyScs(cacheScs)) ==> TidyScs(cacheScs)
      ensures old(TidyEvents(cacheEvents)) ==> TidyEvents(cacheEvents)
      ensures old(FlushOk()) ==> FlushOk()
    {
      if id in cacheScs {
        return cacheScs[id];
      }
      var found := FetchSidechainBelow(id);
      if found.Some? {
        e := Entry(found.value, Default);
        FillSc(Entries(), Below(), BaseKeys(), id);
      } else {
        e := Entry(DEFAULT_SC, Fresh);
        PutSc(Entries(), Below(), BaseKeys(), id, e);
      }
      StoreScKeeps(Entries(), Below(), id, e);
      SetEntries(cacheCoins, cacheScs[id := e], cacheEvents);
    }

    /** An assignment through the iterator that `ModifySidechain` gave. */
    method StoreSidechain(id: ScId, e: Entry<CSidechain>)
      requires Valid() && id in cacheScs && !e.flag.Default?
      modifies this`cacheCoins, this`cacheScs, this`cacheEvents, this`view
      ensures Valid() && Below() == old(Below())
      ensures cacheScs == old(cacheScs)[id := e] && cacheCoins == old(cacheCoins) && cacheEvents == old(cacheEvents)
      ensures view == old(view).(scs := if e.flag.Erased? then old(view).scs - {id} else old(view).scs[id := e.value])
      ensures old(TidyScs(cacheScs)) && !e.flag.Erased? ==> TidyScs(cacheScs)
      ensures old(FlushOk()) && (e.flag.Fresh? ==> id !in Below().scs) ==> FlushOk()
    {
      StoreScKeeps(Entries(), Below(), id, e);
      PutSc(Entries(), Below(), BaseKeys(), id, e);
      SetEntries(cacheCoins, cacheScs[id := e], cacheEvents);
    }

    /** `ModifySidechainEvents`: a cached entry to write through, made fresh when nothing is below. */
    method ModifySidechainEvents(k: int) returns (e: Entry<ScEvents>)
      requires Valid()
      modifies Chain`cacheCoins, Chain`cacheScs, Chain`cacheEvents, Chain`view
      ensures Valid() && Below() == old(Below())
      ensures cacheEvents == old(cacheEvents)[k := e] && cacheCoins == old(cacheCoins) && cacheScs == old(cacheScs)
      ensures k in old(cacheEvents) ==> e == old(cacheEvents)[k]
      ensures k !in old(cacheEvents) ==>
        e == if k in Below().events then Entry(Below().events[k], Default) else Entry(NO_EVENTS, Fresh)
      ensures k in old(cacheEvents) || k in Below().events ==> view == old(view)
      ensures k !in old(cacheEvents) && k !in Below().events ==>
        view == old(view).(events := old(view).events[k := NO_EVENTS])
      ensures if e.flag.Erased? then k !in view.events else k in view.events && view.events[k] == e.value
      ensures k in old(view).events ==> view == old(view)
      ensures old(FlushOk()) && e.flag.Fresh? ==> k !in Below().events
      ensures old(TidyScs(cacheScs)) ==> TidyScs(cacheScs)
      ensures old(TidyEvents(cacheEvents)) ==> TidyEvents(cacheEvents)
      ensures old(FlushOk()) ==> FlushOk()
    {
      if k in cacheEvents {
        return cacheEvents[k];
      }
      var found := FetchSidechainEventsBelow(k);
      if found.Some? {
        e := Entry(found.value, Default);
        FillEvents(Entries(), Below(), BaseKeys(), k);
      } else {
        e := Entry(NO_EVENTS, Fresh);
        PutEvents(Entries(), Below(), BaseKeys(), k, e);
      }
      StoreEventsKeeps(Entries(), Below(), k, e);
      SetEntries(cacheCoins, cacheScs, cacheEvents[k := e]);
    }

    /** An assignment through the iterator that `ModifySidechainEvents` gave. */
    method StoreSidechainEvents(k: int, e: Entry<ScEvents>)
      requires Valid() && k in cacheEvents && !e.flag.Default?
      modifies this`cacheCoins, this`cacheScs, this`cacheEvents, this`view
      ensures Valid() && Below() == old(Below())
      ensures cacheEvents == old(cacheEvents)[k := e] && cacheCoins == old(cacheCoins) && cacheScs == old(cacheScs)
      ensures view == old(view).(
        events := if e.flag.Erased? then old(view).events - {k} else old(view).events[k := e.value])
      ensures old(TidyEvents(cacheEvents)) && (e.flag.Erased? ==> e.value.IsNull()) ==> TidyEvents(cacheEvents)
      ensures old(FlushOk()) && (e.flag.Fresh? ==> k !in Below().events) ==> FlushOk()
    {
      StoreEventsKeeps(Entries(), Below(), k, e);
      PutEvents(Entries(), Below(), BaseKeys(), k, e);
      SetEntries(cacheCoins, cacheScs, cacheEvents[k := e]);
    }

    /** `ModifyCoins`, up to the `CCoinsModifier` it returns. */
    method ModifyCoins(h: Hash) returns (c: CCoins)
      requires Valid() && !hasModifier
      modifies Chain`cacheCoins, Chain`cacheScs, Chain`cacheEvents, Chain`view, this`hasModifier
      ensures Valid() && Below() == old(Below()) && view == old(view) && hasModifier
      ensures cacheScs == old(cacheScs) && cacheEvents == old(cacheEvents)
      ensures h in cacheCoins && cacheCoins[h].dirty && cacheCoins[h].coins == c
      ensures SameCoins(c, view.coins, h) && Trimmed(c.vout)
      ensures old(FlushOk()) ==> FlushOk()
    {
      hide LayerOk, LayerView, CoinsEntriesOk;
      var e := FetchCoins(h);
      if e.None? {
        NewCoins(Entries(), Below(), BaseKeys(), h);
        SetEntries(cacheCoins[h := CoinsEntry(EMPTY, true, true)], cacheScs, cacheEvents);
        c := EMPTY;
      } else {
        DirtyCoins(Entries(), Below(), BaseKeys(), h);
        SetEntries(cacheCoins[h := cacheCoins[h].(dirty := true)], cacheScs, cacheEvents);
        c := e.value.coins;
      }
      SetModifier(true);
    }

    /** The destructor of `CCoinsModifier`, when the client has made the coins `c`. */
    method ReleaseModifier(h: Hash, c: CCoins)
      requires Valid() && hasModifier && h in cacheCoins && cacheCoins[h].dirty
      modifies this`cacheCoins, this`cacheScs, this`cacheEvents, this`view, this`hasModifier
      ensures Valid() && Below() == old(Below()) && !hasModifier
      ensures cacheScs == old(cacheScs) && cacheEvents == old(cacheEvents)
      ensures view == old(view).(coins := PutCoins(old(view).coins, h, Cleanup(c)))
      ensures old(FlushOk()) ==> FlushOk()
    {
      ReleaseCoins(Entries(), Below(), BaseKeys(), h, c);
      SetEntries(Released(cacheCoins, h, c), cacheScs, cacheEvents);
      SetModifier(false);
    }

    // ---- Writing back ----

    /** `BatchWrite`: takes over the entries of a child; `ok` is false when an assert fires. */
    method BatchWrite(childCoins: CoinsCache, childScs: ScCache, childEvents: EventCache) returns (ok: bool)
      requires Valid() && LayerOk(Layer(childCoins, childScs, childEvents), view, KeysOf(Entries()))
      modifies this`cacheCoins, this`cacheScs, this`cacheEvents, this`view
      ensures Valid() && Below() == old(Below())
      ensures ok <==> !hasModifier && FreshAreNew(Layer(childCoins, childScs, childEvents), old(view))
      ensures ok ==> view == LayerView(old(view), Layer(childCoins, childScs, childEvents))
    {
      if hasModifier {
        return false;
      }
      forall h | h in childCoins ensures MayWriteCoins(Get(cacheCoins, h), childCoins[h]) {
        MayAlwaysWriteCoins(cacheCoins, childCoins, view.coins, h);
      }
      ghost var child := Layer(childCoins, childScs, childEvents);
      var c := WriteCoinsEntries(cacheCoins, childCoins);
      var okScs, s := WriteEntries(cacheScs, childScs);
      var okEvents, e := WriteEntries(cacheEvents, childEvents);
      MayWriteIffNew(Entries(), child, Below());
      ok := okScs && okEvents;
      if ok {
        WriteLayerRefines(Entries(), Layer(c, s, e), child, Below(), BaseKeys());
        SetEntries(c, s, e);
      }
    }

    /** Empties the cache after its entries have reached what is below. */
    method Clear()
      requires Linked() && AllGood(Below().coins)
      modifies this`cacheCoins, this`cacheScs, this`cacheEvents, this`view
      ensures Valid() && view == Below() && Below() == old(Below()) && Entries() == EMPTY_LAYER
    {
      hide LayerOk, LayerView;
      cacheCoins, cacheScs, cacheEvents := map[], map[], map[];
      view := Below();
      EmptyLayerOk(Below(), BaseKeys());
    }

    method FlushToDb()
      requires Valid() && base == null
      modifies this`cacheCoins, this`cacheScs, this`cacheEvents, this`view, db
      ensures Valid() && view == old(view) && Below() == old(view) && Entries() == EMPTY_LAYER
    {
      LayerViewGood(Entries(), Below(), BaseKeys());
      db.BatchWrite(cacheCoins, cacheScs, cacheEvents);
      Clear();
    }

    method FlushToCache() returns (ok: bool)
      requires Valid() && base != null
      modifies Chain`cacheCoins, Chain`cacheScs, Chain`cacheEvents, Chain`view
      ensures ok <==> !base.hasModifier && old(FlushOk())
      ensures ok ==> Valid() && view == old(view) && Below() == old(view) && Entries() == EMPTY_LAYER
      ensures base.Valid() && base.Below() == old(base.Below())
    {
      LayerViewGood(Entries(), Below(), BaseKeys());
      ok := base.BatchWrite(cacheCoins, cacheScs, cacheEvents);
      if ok {
        Clear();
      }
    }

    /** `Flush`: what is below shows afterwards what this cache showed before. `ok` is false
        when an assert of `BatchWrite` fires, which happens exactly when a fresh entry is
        shown by the cache below; a database accepts everything. */
    method Flush() returns (ok: bool)
      requires Valid()
      modifies Chain`cacheCoins, Chain`cacheScs, Chain`cacheEvents, Chain`view, db
      ensures ok <==> base == null || (!base.hasModifier && old(FlushOk()))
      ensures ok ==> Valid() && view == old(view) && Below() == old(view) && Entries() == EMPTY_LAYER
      ensures base != null ==> base.Valid() && base.Below() == old(base.Below()) && unchanged(db)
    {
      if base == null {
        FlushToDb();
        ok := true;
      } else {
        ok := FlushToCache();
      }
    }
  }
}
