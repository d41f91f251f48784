/** One write-back layer of `CCoinsViewCache` as values: the entries and flags of
    src/coins.h, what a layer makes of the view below it, and what `BatchWrite` does to
    each entry. */
module CacheLayer {
  import opened Results
  import opened Coins
  import opened Sidechain
  import opened Ledger

  datatype Flag = Default | Dirty | Fresh | Erased

  /** `CSidechainsCacheEntry` and `CSidechainEventsCacheEntry`. */
  datatype Entry<+V> = Entry(value: V, flag: Flag)

  /** `CCoinsCacheEntry`. */
  datatype CoinsEntry = CoinsEntry(coins: CCoins, dirty: bool, isNew: bool)

  type CoinsCache = map<Hash, CoinsEntry>

  function Get<K, V>(m: map<K, V>, k: K): Option<V> {
    if k in m then Some(m[k]) else None
  }

  // ---- Sidechains and events ----

  /** The view of a layer over the view of its base. */
  function Overlay<K, V>(below: map<K, V>, cache: map<K, Entry<V>>): map<K, V> {
    map k | k in below.Keys + cache.Keys && (k in cache ==> !cache[k].flag.Erased?) ::
      if k in cache then cache[k].value else below[k]
  }

  /** The keys of the base's own cache; a database holds all its keys itself. */
  predicate IsLocal<K(==)>(local: Option<set<K>>, k: K) {
    local.None? || k in local.value
  }

  /** Unmodified entries agree with the view below; whatever the view below shows for a
      cached key, the base has in its own cache. */
  ghost predicate EntriesOk<K, V>(cache: map<K, Entry<V>>, below: map<K, V>, local: Option<set<K>>) {
    && (forall k :: k in cache && k in below ==> IsLocal(local, k))
    && (forall k :: k in cache && cache[k].flag.Default? ==> k in below && below[k] == cache[k].value)
  }

  /** What `BatchWrite` makes of the base's entry `mine` when the child holds `e`. */
  function WriteEntry<V>(mine: Option<Entry<V>>, e: Entry<V>): Option<Entry<V>> {
    match e.flag
    case Fresh => Some(e)
    case Dirty => Some(e)
    case Erased => if mine.Some? then Some(mine.value.(flag := Erased)) else None
    case Default => mine
  }

  /** The asserts of `BatchWrite`. */
  predicate MayWrite<V(==)>(mine: Option<Entry<V>>, e: Entry<V>) {
    && (e.flag.Fresh? ==> mine.None? || mine.value.flag.Erased?)
    && (e.flag.Default? ==> mine.Some? && mine.value.value == e.value)
  }

  ghost predicate MayWriteAll<K, V>(mine: map<K, Entry<V>>, child: map<K, Entry<V>>) {
    forall k :: k in child ==> MayWrite(Get(mine, k), child[k])
  }

  /** A fresh entry must not meet a live entry in the base's own cache. */
  ghost predicate Flushable<K, V>(child: map<K, Entry<V>>, mine: map<K, Entry<V>>) {
    forall k :: k in child && child[k].flag.Fresh? && k in mine ==> mine[k].flag.Erased?
  }

  /** `c` is `c0` after writing the entries of `child`. */
  ghost predicate Written<K(!new), V>(c0: map<K, Entry<V>>, c: map<K, Entry<V>>, child: map<K, Entry<V>>) {
    forall k :: Get(c, k) == if k in child then WriteEntry(Get(c0, k), child[k]) else Get(c0, k)
  }

  /** Given the invariant the other asserts hold, so `Flushable` decides alone. */
  lemma {:induction false} MayWriteIffFlushable<K, V>(child: map<K, Entry<V>>, mine: map<K, Entry<V>>, below: map<K, V>)
    requires EntriesOk(child, Overlay(below, mine), Some(mine.Keys))
    ensures MayWriteAll(mine, child) <==> Flushable(child, mine)
  {
    forall k | k in child && child[k].flag.Default? ensures MayWrite(Get(mine, k), child[k]) {
      assert k in Overlay(below, mine);
    }
    if MayWriteAll(mine, child) {
      forall k | k in child && child[k].flag.Fresh? && k in mine ensures mine[k].flag.Erased? {
        assert MayWrite(Get(mine, k), child[k]);
      }
    }
  }

  /** Writing a child's entries into its base shows in the base what the child showed, and
      leaves the base's entries in order over its own base. */
  lemma {:induction false} WriteRefines<K(!new),
      V>(mine: map<K, Entry<V>>, c: map<K, Entry<V>>, child: map<K, Entry<V>>,
                                              below: map<K, V>, local: Option<set<K>>)
    requires EntriesOk(mine, below, local)
    requires EntriesOk(child, Overlay(below, mine), Some(mine.Keys))
    requires Written(mine, c, child)
    ensures Overlay(below, c) == Overlay(Overlay(below, mine), child)
    ensures EntriesOk(c, below, local)
  {
    var v := Overlay(below, mine);
    var v1 := Overlay(v, child);
    forall k ensures Get(Overlay(below, c), k) == Get(v1, k) {
      assert Get(c, k) == (if k in child then WriteEntry(Get(mine, k), child[k]) else Get(mine, k));
    }
    MapsEqual(Overlay(below, c), v1);
    forall k | k in c && k in below ensures IsLocal(local, k) {
      assert Get(c, k) == (if k in child then WriteEntry(Get(mine, k), child[k]) else Get(mine, k));
      assert k in mine || k in v;
    }
    forall k | k in c && c[k].flag.Default? ensures k in below && below[k] == c[k].value {
      assert Get(c, k) == (if k in child then WriteEntry(Get(mine, k), child[k]) else Get(mine, k));
    }
  }

  lemma {:induction false} MapsEqual<K, V>(a: map<K, V>, b: map<K, V>)
    requires forall k :: Get(a, k) == Get(b, k)
    ensures a == b
  {
    forall k ensures k in a <==> k in b { assert Get(a, k) == Get(b, k); }
    forall k | k in a ensures a[k] == b[k] { assert Get(a, k) == Get(b, k); }
  }

  /** Changing a cached entry changes the view at that key only. */
  lemma {:induction false} OverlayUpdate<K, V>(below: map<K, V>, cache: map<K, Entry<V>>, k: K, e: Entry<V>)
    ensures !e.flag.Erased? ==> Overlay(below, cache[k := e]) == Overlay(below, cache)[k := e.value]
    ensures e.flag.Erased? ==> Overlay(below, cache[k := e]) == Overlay(below, cache) - {k}
  {
  }

  /** Filling the cache from the base changes nothing. */
  lemma {:induction false} OverlayFill<K, V>(below: map<K, V>, cache: map<K, Entry<V>>, k: K)
    requires k in below && k !in cache
    ensures Overlay(below, cache[k := Entry(below[k], Default)]) == Overlay(below, cache)
  {
  }

  // ---- Coins ----

  function OverlayCoins(below: CoinMap, cache: CoinsCache): CoinMap {
    map h | h in below.Keys + cache.Keys && (h in cache ==> !IsPruned(cache[h].coins)) ::
      if h in cache then cache[h].coins else below[h]
  }

  ghost predicate SameCoins(c: CCoins, below: CoinMap, h: Hash) {
    if h in below then c == below[h] else IsPruned(c)
  }

  ghost predicate AllGood(coins: CoinMap) {
    forall h :: h in coins ==> Trimmed(coins[h].vout) && !IsPruned(coins[h])
  }

  ghost predicate EntryOk(h: Hash, e: CoinsEntry, below: CoinMap, local: Option<set<Hash>>) {
    && Trimmed(e.coins.vout)
    && (if e.isNew then h !in below else IsLocal(local, h))
    && (!e.dirty ==> SameCoins(e.coins, below, h))
  }

  ghost predicate CoinsEntriesOk(cache: CoinsCache, below: CoinMap, local: Option<set<Hash>>) {
    forall h :: h in cache ==> EntryOk(h, cache[h], below, local)
  }

  function WriteCoins(mine: Option<CoinsEntry>, e: CoinsEntry): Option<CoinsEntry> {
    if !e.dirty then mine
    else if mine.None? then (if IsPruned(e.coins) then None else Some(CoinsEntry(e.coins, true, true)))
    else if mine.value.isNew && IsPruned(e.coins) then None
    else Some(CoinsEntry(e.coins, true, mine.value.isNew))
  }

  predicate MayWriteCoins(mine: Option<CoinsEntry>, e: CoinsEntry) {
    e.dirty && mine.None? && !IsPruned(e.coins) ==> e.isNew
  }

  ghost predicate CoinsWritten(c0: CoinsCache, c: CoinsCache, child: CoinsCache) {
    forall h :: Get(c, h) == if h in child then WriteCoins(Get(c0, h), child[h]) else Get(c0, h)
  }

  /** Under the invariant the assert on fresh coins cannot fire. */
  lemma {:induction false} MayAlwaysWriteCoins(mine: CoinsCache, child: CoinsCache, view: CoinMap, h: Hash)
    requires CoinsEntriesOk(child, view, Some(mine.Keys)) && h in child
    ensures MayWriteCoins(Get(mine, h), child[h])
  {
  }

  lemma {:induction false} WriteCoinsRefines(mine: CoinsCache, c: CoinsCache, child: CoinsCache, below: CoinMap,
      local: Option<set<Hash>>)
    requires AllGood(below) && CoinsEntriesOk(mine, below, local)
    requires CoinsEntriesOk(child, OverlayCoins(below, mine), Some(mine.Keys))
    requires CoinsWritten(mine, c, child)
    ensures OverlayCoins(below, c) == OverlayCoins(OverlayCoins(below, mine), child)
    ensures CoinsEntriesOk(c, below, local)
  {
    hide IsPruned, Trimmed;
    var v := OverlayCoins(below, mine);
    forall h ensures Get(OverlayCoins(below, c), h) == Get(OverlayCoins(v, child), h) {
      WriteCoinsRefinesAt(mine, c, child, below, local, h);
    }
    MapsEqual(OverlayCoins(below, c), OverlayCoins(v, child));
    forall h | h in c ensures EntryOk(h, c[h], below, local) {
      assert Get(c, h) == (if h in child then WriteCoins(Get(mine, h), child[h]) else Get(mine, h));
      assert h in child ==> EntryOk(h, child[h], v, Some(mine.Keys));
      assert h in mine ==> EntryOk(h, mine[h], below, local);
    }
  }

  lemma {:induction false} WriteCoinsRefinesAt(mine: CoinsCache, c: CoinsCache, child: CoinsCache, below: CoinMap,
      local: Option<set<Hash>>, h: Hash)
    requires AllGood(below) && CoinsEntriesOk(mine, below, local)
    requires CoinsEntriesOk(child, OverlayCoins(below, mine), Some(mine.Keys))
    requires CoinsWritten(mine, c, child)
    ensures Get(OverlayCoins(below, c), h) == Get(OverlayCoins(OverlayCoins(below, mine), child), h)
  {
    assert Get(c, h) == (if h in child then WriteCoins(Get(mine, h), child[h]) else Get(mine, h));
  }

  lemma {:induction false} OverlayCoinsUpdate(below: CoinMap, cache: CoinsCache, h: Hash, e: CoinsEntry)
    ensures OverlayCoins(below, cache[h := e]) == PutCoins(OverlayCoins(below, cache), h, e.coins)
  {
  }

  /** Dropping a pruned entry that the base does not show changes nothing. */
  lemma {:induction false} OverlayCoinsDrop(below: CoinMap, cache: CoinsCache, h: Hash)
    requires h in cache && IsPruned(cache[h].coins) && h !in below
    ensures OverlayCoins(below, cache - {h}) == OverlayCoins(below, cache)
  {
  }

  lemma {:induction false} OverlayCoinsFill(below: CoinMap, cache: CoinsCache, h: Hash, c: CCoins, e: CoinsEntry)
    requires AllGood(below) && h !in cache && e.coins == c && SameCoins(c, below, h)
    ensures OverlayCoins(below, cache[h := e]) == OverlayCoins(below, cache)
  {
  }

  // ---- A whole layer ----

  type ScCache = map<ScId, Entry<CSidechain>>
  type EventCache = map<int, Entry<ScEvents>>

  datatype Layer = Layer(coins: CoinsCache, scs: ScCache, events: EventCache)

  const EMPTY_LAYER := Layer(map[], map[], map[])

  /** Which keys the base holds itself. */
  datatype Local = Database | Cached(coins: set<Hash>, scs: set<ScId>, events: set<int>)

  function LocalCoins(l: Local): Option<set<Hash>> {
    if l.Database? then None else Some(l.coins)
  }

  function LocalScs(l: Local): Option<set<ScId>> {
    if l.Database? then None else Some(l.scs)
  }

  function LocalEvents(l: Local): Option<set<int>> {
    if l.Database? then None else Some(l.events)
  }

  function KeysOf(l: Layer): Local {
    Cached(l.coins.Keys, l.scs.Keys, l.events.Keys)
  }

  ghost predicate LayerOk(l: Layer, below: State, local: Local) {
    && AllGood(below.coins)
    && CoinsEntriesOk(l.coins, below.coins, LocalCoins(local))
    && EntriesOk(l.scs, below.scs, LocalScs(local))
    && EntriesOk(l.events, below.events, LocalEvents(local))
  }

  ghost function LayerView(below: State, l: Layer): State {
    State(Overlay(below.scs, l.scs), Overlay(below.events, l.events), OverlayCoins(below.coins, l.coins))
  }

  lemma {:induction false} EmptyLayerOk(below: State, local: Local)
    requires AllGood(below.coins)
    ensures LayerOk(EMPTY_LAYER, below, local) && LayerView(below, EMPTY_LAYER) == below
  {
    assert OverlayCoins(below.coins, map[]) == below.coins;
    assert Overlay(below.scs, map[]) == below.scs;
    assert Overlay(below.events, map[]) == below.events;
  }

  ghost predicate Grows(a: Local, b: Local) {
    a == b || (a.Cached? && b.Cached? && a.coins <= b.coins && a.scs <= b.scs && a.events <= b.events)
  }

  /** A base that fills its own cache does not disturb the layer above. */
  lemma {:induction false} LayerOkGrow(l: Layer, below: State, a: Local, b: Local)
    requires LayerOk(l, below, a) && Grows(a, b)
    ensures LayerOk(l, below, b)
  {
  }

  lemma {:induction false} LayerViewGood(l: Layer, below: State, local: Local)
    requires LayerOk(l, below, local)
    ensures AllGood(LayerView(below, l).coins)
  {
    OverlayCoinsGood(below.coins, l.coins, LocalCoins(local));
  }

  lemma {:induction false} OverlayCoinsGood(below: CoinMap, cache: CoinsCache, local: Option<set<Hash>>)
    requires AllGood(below) && CoinsEntriesOk(cache, below, local)
    ensures AllGood(OverlayCoins(below, cache))
  {
  }

  /** Putting an entry for `h` that agrees with the view changes nothing. */
  lemma {:induction false} FillCoins(l: Layer, below: State, local: Local, h: Hash, e: CoinsEntry)
    requires LayerOk(l, below, local) && h !in l.coins
    requires SameCoins(e.coins, below.coins, h) && Trimmed(e.coins.vout) && (e.isNew <==> IsPruned(e.coins))
    requires h in below.coins ==> IsLocal(LocalCoins(local), h)
    ensures LayerOk(l.(coins := l.coins[h := e]), below, local)
    ensures LayerView(below, l.(coins := l.coins[h := e])) == LayerView(below, l)
  {
    OverlayCoinsFill(below.coins, l.coins, h, e.coins, e);
  }

  lemma {:induction false} FillSc(l: Layer, below: State, local: Local, id: ScId)
    requires LayerOk(l, below, local) && id !in l.scs && id in below.scs && IsLocal(LocalScs(local), id)
    ensures LayerOk(l.(scs := l.scs[id := Entry(below.scs[id], Default)]), below, local)
    ensures LayerView(below, l.(scs := l.scs[id := Entry(below.scs[id], Default)])) == LayerView(below, l)
  {
    OverlayFill(below.scs, l.scs, id);
  }

  lemma {:induction false} FillEvents(l: Layer, below: State, local: Local, k: int)
    requires LayerOk(l, below, local) && k !in l.events && k in below.events && IsLocal(LocalEvents(local), k)
    ensures LayerOk(l.(events := l.events[k := Entry(below.events[k], Default)]), below, local)
    ensures LayerView(below, l.(events := l.events[k := Entry(below.events[k], Default)])) == LayerView(below, l)
  {
    OverlayFill(below.events, l.events, k);
  }

  /** Overwriting a cached entry, or adding one the base does not show. */
  lemma {:induction false} PutSc(l: Layer, below: State, local: Local, id: ScId, e: Entry<CSidechain>)
    requires LayerOk(l, below, local) && !e.flag.Default? && (id in l.scs || id !in below.scs)
    ensures var l1 := l.(scs := l.scs[id := e]);
      && LayerOk(l1, below, local)
      && LayerView(below, l1) == LayerView(below, l).(scs :=
           if e.flag.Erased? then LayerView(below, l).scs - {id} else LayerView(below, l).scs[id := e.value])
  {
    OverlayUpdate(below.scs, l.scs, id, e);
  }

  lemma {:induction false} PutEvents(l: Layer, below: State, local: Local, k: int, e: Entry<ScEvents>)
    requires LayerOk(l, below, local) && !e.flag.Default? && (k in l.events || k !in below.events)
    ensures var l1 := l.(events := l.events[k := e]);
      && LayerOk(l1, below, local)
      && LayerView(below, l1) == LayerView(below, l).(events :=
           if e.flag.Erased? then LayerView(below, l).events - {k} else LayerView(below, l).events[k := e.value])
  {
    OverlayUpdate(below.events, l.events, k, e);
  }

  lemma {:induction false} CoinsOkUpdate(cache: CoinsCache, below: CoinMap, local: Option<set<Hash>>, h: Hash,
      e: CoinsEntry)
    requires CoinsEntriesOk(cache, below, local) && h in cache
    requires e.dirty && e.isNew == cache[h].isNew && Trimmed(e.coins.vout)
    ensures CoinsEntriesOk(cache[h := e], below, local) && CoinsEntriesOk(cache - {h}, below, local)
  {
  }

  /** Marking a cached entry dirty changes nothing that clients see. */
  lemma {:induction false} DirtyCoins(l: Layer, below: State, local: Local, h: Hash)
    requires LayerOk(l, below, local) && h in l.coins
    ensures LayerOk(l.(coins := l.coins[h := l.coins[h].(dirty := true)]), below, local)
    ensures LayerView(below, l.(coins := l.coins[h := l.coins[h].(dirty := true)])) == LayerView(below, l)
  {
    var e := l.coins[h].(dirty := true);
    CoinsOkUpdate(l.coins, below.coins, LocalCoins(local), h, e);
    OverlayCoinsSame(below.coins, l.coins, h, e);
  }

  lemma {:induction false} OverlayCoinsSame(below: CoinMap, cache: CoinsCache, h: Hash, e: CoinsEntry)
    requires h in cache && e.coins == cache[h].coins
    ensures OverlayCoins(below, cache[h := e]) == OverlayCoins(below, cache)
  {
  }

  /** An empty entry for a transaction the base does not show. */
  lemma {:induction false} NewCoins(l: Layer, below: State, local: Local, h: Hash)
    requires LayerOk(l, below, local) && h !in l.coins && h !in below.coins
    ensures LayerOk(l.(coins := l.coins[h := CoinsEntry(EMPTY, true, true)]), below, local)
    ensures LayerView(below, l.(coins := l.coins[h := CoinsEntry(EMPTY, true, true)])) == LayerView(below, l)
  {
    OverlayCoinsFill(below.coins, l.coins, h, EMPTY, CoinsEntry(EMPTY, true, true));
  }

  /** What the destructor of `CCoinsModifier` leaves at `h`. */
  function Released(cache: CoinsCache, h: Hash, c: CCoins): CoinsCache
    requires h in cache
  {
    if cache[h].isNew && IsPruned(Cleanup(c)) then cache - {h} else cache[h := cache[h].(coins := Cleanup(c))]
  }

  lemma {:induction false} ReleaseCoins(l: Layer, below: State, local: Local, h: Hash, c: CCoins)
    requires LayerOk(l, below, local) && h in l.coins && l.coins[h].dirty
    ensures LayerOk(l.(coins := Released(l.coins, h, c)), below, local)
    ensures LayerView(below, l.(coins := Released(l.coins, h, c)))
         == LayerView(below, l).(coins := PutCoins(LayerView(below, l).coins, h, Cleanup(c)))
  {
    var e := l.coins[h].(coins := Cleanup(c));
    TrimIsTrim(c.vout);
    CoinsOkUpdate(l.coins, below.coins, LocalCoins(local), h, e);
    OverlayCoinsUpdate(below.coins, l.coins, h, e);
    if l.coins[h].isNew && IsPruned(Cleanup(c)) {
      OverlayCoinsDrop(below.coins, l.coins[h := e], h);
      assert l.coins[h := e] - {h} == l.coins - {h};
    }
  }

  /** No fresh entry is shown by the base. */
  ghost predicate NoneShown<K, V>(child: map<K, Entry<V>>, shown: map<K, V>) {
    forall k :: k in child && child[k].flag.Fresh? ==> k !in shown
  }

  ghost predicate FreshAreNew(l: Layer, below: State) {
    NoneShown(l.scs, below.scs) && NoneShown(l.events, below.events)
  }

  lemma {:induction false} FlushableIffNew<K, V>(child: map<K, Entry<V>>, mine: map<K, Entry<V>>, below: map<K, V>)
    requires EntriesOk(child, Overlay(below, mine), Some(mine.Keys))
    ensures Flushable(child, mine) <==> NoneShown(child, Overlay(below, mine))
  {
    var v := Overlay(below, mine);
    if Flushable(child, mine) {
      forall k | k in child && child[k].flag.Fresh? ensures k !in v {
        assert k in v ==> IsLocal(Some(mine.Keys), k);
      }
    }
    if NoneShown(child, v) {
      forall k | k in child && child[k].flag.Fresh? && k in mine ensures mine[k].flag.Erased? {
        assert k !in v;
      }
    }
  }

  /** `b` is `a` with more unmodified entries. */
  ghost predicate Filled(a: Layer, b: Layer) {
    && (forall h :: h in a.coins ==> h in b.coins && b.coins[h] == a.coins[h])
    && (forall k :: k in a.scs ==> k in b.scs && b.scs[k] == a.scs[k])
    && (forall k :: k in b.scs && k !in a.scs ==> b.scs[k].flag.Default?)
    && (forall k :: k in a.events ==> k in b.events && b.events[k] == a.events[k])
    && (forall k :: k in b.events && k !in a.events ==> b.events[k].flag.Default?)
  }

  lemma {:induction false} FilledGrows(a: Layer, b: Layer)
    requires Filled(a, b)
    ensures Grows(KeysOf(a), KeysOf(b))
  {
    forall h | h in a.coins.Keys ensures h in b.coins.Keys { assert h in a.coins; }
    forall k | k in a.scs.Keys ensures k in b.scs.Keys { assert k in a.scs; }
    forall k | k in a.events.Keys ensures k in b.events.Keys { assert k in a.events; }
  }

  /** An erased sidechain entry that is opened again starts from nothing. */
  ghost predicate TidyScs(scs: ScCache) {
    forall k :: k in scs && scs[k].flag.Erased? ==> scs[k].value.balance == 0 && scs[k].value.immature == map[]
  }

  ghost predicate TidyEvents(events: EventCache) {
    forall k :: k in events && events[k].flag.Erased? ==> events[k].value.IsNull()
  }

  lemma {:induction false} StoreScKeeps(l: Layer, below: State, id: ScId, e: Entry<CSidechain>)
    ensures var l1 := l.(scs := l.scs[id := e]);
      && (TidyScs(l.scs) && !e.flag.Erased? ==> TidyScs(l1.scs))
      && (FreshAreNew(l, below) && (e.flag.Fresh? ==> id !in below.scs) ==> FreshAreNew(l1, below))
  {
  }

  lemma {:induction false} StoreEventsKeeps(l: Layer, below: State, k: int, e: Entry<ScEvents>)
    ensures var l1 := l.(events := l.events[k := e]);
      && (TidyEvents(l.events) && (e.flag.Erased? ==> e.value.IsNull()) ==> TidyEvents(l1.events))
      && (FreshAreNew(l, below) && (e.flag.Fresh? ==> k !in below.events) ==> FreshAreNew(l1, below))
  {
  }

  /** `mine` after taking over the entries of `child`. */
  ghost predicate LayerWritten(mine: Layer, l: Layer, child: Layer) {
    CoinsWritten(mine.coins, l.coins, child.coins) && Written(mine.scs, l.scs, child.scs)
      && Written(mine.events, l.events, child.events)
  }

  /** Writing back makes the base show what the child showed. */
  lemma {:induction false} WriteLayerRefines(mine: Layer, l: Layer, child: Layer, below: State, local: Local)
    requires LayerOk(mine, below, local) && LayerOk(child, LayerView(below, mine), KeysOf(mine))
    requires LayerWritten(mine, l, child)
    ensures LayerOk(l, below, local) && LayerView(below, l) == LayerView(LayerView(below, mine), child)
  {
    WriteCoinsRefines(mine.coins, l.coins, child.coins, below.coins, LocalCoins(local));
    WriteRefines(mine.scs, l.scs, child.scs, below.scs, LocalScs(local));
    WriteRefines(mine.events, l.events, child.events, below.events, LocalEvents(local));
  }

  /** The asserts of `BatchWrite` hold exactly when no fresh entry is shown by the base. */
  lemma {:induction false} MayWriteIffNew(mine: Layer, child: Layer, below: State)
    requires LayerOk(child, LayerView(below, mine), KeysOf(mine))
    ensures MayWriteAll(mine.scs, child.scs) && MayWriteAll(mine.events, child.events)
       <==> FreshAreNew(child, LayerView(below, mine))
  {
    var v := LayerView(below, mine);
    assert MayWriteAll(mine.scs, child.scs) <==> NoneShown(child.scs, v.scs) by {
      MayWriteIffFlushable(child.scs, mine.scs, below.scs);
      FlushableIffNew(child.scs, mine.scs, below.scs);
    }
    assert MayWriteAll(mine.events, child.events) <==> NoneShown(child.events, v.events) by {
      MayWriteIffFlushable(child.events, mine.events, below.events);
      FlushableIffNew(child.events, mine.events, below.events);
    }
  }

  lemma {:induction false} FilledKeeps(a: Layer, b: Layer, below: State)
    requires Filled(a, b)
    ensures TidyScs(a.scs) ==> TidyScs(b.scs)
    ensures TidyEvents(a.events) ==> TidyEvents(b.events)
    ensures FreshAreNew(a, below) ==> FreshAreNew(b, below)
  {
  }
}
