/** What every step of block connection keeps: amounts match the maturing sets, each
    living sidechain is scheduled to cease exactly once, and the asserts of
    `HandleSidechainEvents` cannot fire. */
module LedgerInvariant {
  import opened Results
  import opened Coins
  import opened Sidechain
  import opened Ledger

  // ---- What a list of outputs adds up to ----

  function CreationIds(crs: seq<CreationOut>): set<ScId> {
    if crs == [] then {} else {crs[0].scId} + CreationIds(crs[1..])
  }

  /** No sidechain is created twice. */
  predicate NoDuplicates(crs: seq<CreationOut>) {
    crs != [] ==> crs[0].scId !in CreationIds(crs[1..]) && NoDuplicates(crs[1..])
  }

  function ForwardIds(fts: seq<ForwardOut>): set<ScId> {
    if fts == [] then {} else {fts[0].scId} + ForwardIds(fts[1..])
  }

  /** The sum forwarded to one sidechain. */
  function Owed(fts: seq<ForwardOut>, id: ScId): int {
    if fts == [] then 0
    else (if fts[0].scId == id then fts[0].value else 0) + Owed(fts[1..], id)
  }

  predicate Positive(fts: seq<ForwardOut>) {
    forall i :: 0 <= i < |fts| ==> fts[i].value > 0
  }

  /** `Bump`, leaving the record alone when there is nothing to add. */
  function BumpBy(sc: CSidechain, k: int, v: int): CSidechain {
    if v == 0 then sc else Bump(sc, k, v)
  }

  /** What CheckTransaction and checkTxSemanticValidity guarantee. */
  predicate ValidTx(tx: Tx) {
    && (forall i :: 0 <= i < |tx.creations| ==> tx.creations[i].value > 0 && tx.creations[i].epochLength >= 1)
    && Positive(tx.forwards)
    && (tx.coinBase ==> tx.creations == [] && tx.forwards == [])
  }

  // ---- The invariant ----

  /** Coins as every view holds them. */
  predicate GoodCoins(c: CCoins) {
    c.vout != [] && Trimmed(c.vout) && c.height != 0
  }

  ghost predicate CoinsOk(coins: CoinMap) {
    forall h :: h in coins ==> GoodCoins(coins[h])
  }

  ghost predicate NonNull(ev: EventMap) {
    forall k :: k in ev ==> !ev[k].IsNull()
  }

  ghost predicate EventsOk(ev: EventMap, done: int) {
    NonNull(ev) && forall k :: k in ev ==> k > done
  }

  /** `done` is the last height whose events were handled, `cur` the height of the
      block being connected or just connected. */
  ghost predicate ScOk(sc: CSidechain, done: int, cur: int, maturity: nat) {
    && Created(sc) && sc.creationBlockHeight <= cur
    && sc.balance >= 0
    && (sc.lastEpoch == EPOCH_NULL <==> sc.lastCertHash == NULL_HASH)
    && forall k :: k in sc.immature ==> sc.immature[k] > 0 && done < k <= cur + maturity
  }

  ghost predicate ScsOk(scs: ScMap, done: int, cur: int, maturity: nat) {
    forall id :: id in scs ==> ScOk(scs[id], done, cur, maturity)
  }

  /** A sidechain matures at a height exactly when it has an immature amount there. */
  ghost predicate MaturingOk(scs: ScMap, ev: EventMap) {
    forall k, id {:trigger id in At(ev, k).maturing} :: id in At(ev, k).maturing <==> id in scs && k in scs[id].immature
  }

  /** A sidechain that has not ceased is in the ceasing set of its ceasing height and
      in no other; a ceased one is in none. */
  ghost predicate CeasingOk(scs: ScMap, ev: EventMap, done: int) {
    forall k, id {:trigger id in At(ev, k).ceasing} :: id in At(ev, k).ceasing <==>
      id in scs && k == CeasingHeight(scs[id]) && k > done
  }

  ghost predicate HasCert(scs: ScMap, id: ScId) {
    id in scs && scs[id].lastEpoch != EPOCH_NULL
  }

  /** The coins left from a last certificate know where its backward transfers start. */
  ghost predicate CertsOk(scs: ScMap, coins: CoinMap) {
    && (forall id :: HasCert(scs, id) && scs[id].lastCertHash in coins ==>
          var c := coins[scs[id].lastCertHash]; c.bwtMaturityHeight != 0 && c.firstBwtPos >= 0)
    && (forall a, b :: HasCert(scs, a) && HasCert(scs, b) && a != b ==> scs[a].lastCertHash != scs[b].lastCertHash)
  }

  ghost predicate Inv(s: State, done: int, cur: int, maturity: nat) {
    && ScsOk(s.scs, done, cur, maturity)
    && EventsOk(s.events, done)
    && MaturingOk(s.scs, s.events)
    && CeasingOk(s.scs, s.events, done)
    && CoinsOk(s.coins)
    && CertsOk(s.scs, s.coins)
  }

  /** No certificate of this hash is on record: distinct objects have distinct hashes. */
  ghost predicate FreshHash(scs: ScMap, h: Hash) {
    h != NULL_HASH && forall id :: id in scs ==> scs[id].lastCertHash != h
  }

  // ---- Event maps ----

  /** Event maps without empty records are determined by their sets. */
  lemma {:induction false} EventsExtensional(a: EventMap, b: EventMap)
    requires NonNull(a) && NonNull(b)
    requires forall k :: At(a, k) == At(b, k)
    ensures a == b
  {
    forall k ensures k in a <==> k in b {
      assert At(a, k) == At(b, k);
    }
    forall k | k in a ensures a[k] == b[k] {
      assert At(a, k) == At(b, k);
    }
  }

  /** `ev1` is `ev` with `ids` maturing at `k0` and the sidechains `news` ceasing. */
  ghost predicate Scheduled(ev: EventMap, ev1: EventMap, scs: ScMap, k0: int, ids: set<ScId>, news: set<ScId>) {
    && (forall k :: At(ev1, k).maturing == At(ev, k).maturing + (if k == k0 then ids else {}))
    && (forall k, id {:trigger id in At(ev1, k).ceasing} :: id in At(ev1, k).ceasing <==>
          id in At(ev, k).ceasing || (id in news && id in scs && k == FirstCeasingHeight(scs[id])))
  }

  lemma {:induction false} ScheduledCompose(ev: EventMap, mid: EventMap, ev1: EventMap, scs: ScMap, k0: int,
                         ids: set<ScId>, news: set<ScId>, ids': set<ScId>, news': set<ScId>)
    requires Scheduled(ev, mid, scs, k0, ids, news) && Scheduled(mid, ev1, scs, k0, ids', news')
    ensures Scheduled(ev, ev1, scs, k0, ids + ids', news + news')
  {
  }

  lemma {:induction false} ScheduleCreationForm(ev: EventMap, scs: ScMap, id: ScId, k: int)
    requires NonNull(ev) && id in scs
    ensures var ev1 := AddCeasing(AddMaturing(ev, k, id), FirstCeasingHeight(scs[id]), id);
            NonNull(ev1) && Scheduled(ev, ev1, scs, k, {id}, {id})
  {
    var mid := AddMaturing(ev, k, id);
    assert NonNull(mid) && Scheduled(ev, mid, scs, k, {id}, {});
  }

  lemma {:induction false} ScheduleCreationsForm(ev: EventMap, scs: ScMap, crs: seq<CreationOut>, k: int)
    requires NonNull(ev)
    ensures ScheduleCreations(ev, scs, crs, k).Ok? <==> CreationIds(crs) <= scs.Keys
    ensures ScheduleCreations(ev, scs, crs, k).Ok? ==>
      var ev1 := ScheduleCreations(ev, scs, crs, k).value;
      NonNull(ev1) && Scheduled(ev, ev1, scs, k, CreationIds(crs), CreationIds(crs))
    decreases |crs|
  {
    if crs != [] && crs[0].scId in scs {
      var id := crs[0].scId;
      var mid := AddCeasing(AddMaturing(ev, k, id), FirstCeasingHeight(scs[id]), id);
      ScheduleCreationForm(ev, scs, id, k);
      var rest := CreationIds(crs[1..]);
      ScheduleCreationsForm(mid, scs, crs[1..], k);
      if rest <= scs.Keys {
        ScheduledCompose(ev, mid, ScheduleCreations(mid, scs, crs[1..], k).value, scs, k, {id}, {id}, rest, rest);
      }
    }
  }

  lemma {:induction false} ScheduleForwardsForm(ev: EventMap, scs: ScMap, fts: seq<ForwardOut>, k: int)
    requires NonNull(ev)
    ensures ScheduleForwards(ev, scs, fts, k).Ok? <==> ForwardIds(fts) <= scs.Keys
    ensures ScheduleForwards(ev, scs, fts, k).Ok? ==>
      var ev1 := ScheduleForwards(ev, scs, fts, k).value;
      NonNull(ev1) && Scheduled(ev, ev1, scs, k, ForwardIds(fts), {})
    decreases |fts|
  {
    if fts != [] && fts[0].scId in scs {
      var mid := AddMaturing(ev, k, fts[0].scId);
      assert NonNull(mid) && Scheduled(ev, mid, scs, k, {fts[0].scId}, {});
      ScheduleForwardsForm(mid, scs, fts[1..], k);
    }
  }

  // ---- Creations and forward transfers ----

  lemma {:induction false} AddCreationsForm(scs: ScMap, crs: seq<CreationOut>, txHash: Hash, blockHash: Hash,
                                            height: int, maturity: nat)
    requires AddCreations(scs, crs, txHash, blockHash, height, maturity).Ok?
    ensures var r := AddCreations(scs, crs, txHash, blockHash, height, maturity).value;
      && r.Keys == scs.Keys + CreationIds(crs)
      && scs.Keys !! CreationIds(crs)
      && NoDuplicates(crs)
      && (forall id :: id in scs ==> r[id] == scs[id])
      && (forall i :: 0 <= i < |crs| ==>
            crs[i].scId in r && r[crs[i].scId] == NewSidechain(crs[i], txHash, blockHash, height, maturity))
    decreases |crs|
  {
    if crs != [] {
      var mid := scs[crs[0].scId := NewSidechain(crs[0], txHash, blockHash, height, maturity)];
      AddCreationsForm(mid, crs[1..], txHash, blockHash, height, maturity);
      var r := AddCreations(scs, crs, txHash, blockHash, height, maturity).value;
      assert r[crs[0].scId] == mid[crs[0].scId];
      forall i | 0 <= i < |crs|
        ensures crs[i].scId in r && r[crs[i].scId] == NewSidechain(crs[i], txHash, blockHash, height, maturity)
      {
        if i > 0 { assert crs[i] == crs[1..][i - 1]; }
      }
    }
  }

  lemma {:induction false} CreationIdAt(crs: seq<CreationOut>, id: ScId) returns (i: nat)
    requires id in CreationIds(crs)
    ensures i < |crs| && crs[i].scId == id
  {
    if crs[0].scId == id {
      i := 0;
    } else {
      i := CreationIdAt(crs[1..], id);
      i := i + 1;
    }
  }

  lemma {:induction false} OwedPositive(fts: seq<ForwardOut>, id: ScId)
    requires Positive(fts)
    ensures Owed(fts, id) >= 0
    ensures id in ForwardIds(fts) <==> Owed(fts, id) > 0
  {
    if fts != [] {
      OwedPositive(fts[1..], id);
    }
  }

  lemma {:induction false} BumpTwice(sc: CSidechain, k: int, v: int, w: int)
    requires v > 0 && w >= 0
    ensures BumpBy(Bump(sc, k, v), k, w) == BumpBy(sc, k, v + w)
  {
    assert Bump(Bump(sc, k, v), k, w).immature == Bump(sc, k, v + w).immature;
  }

  /** Forward transfers add up, per sidechain, in any number. */
  lemma {:induction false} AddForwardsForm(scs: ScMap, fts: seq<ForwardOut>, k: int)
    requires Positive(fts)
    ensures AddForwards(scs, fts, k).Ok? <==> ForwardIds(fts) <= scs.Keys
    ensures AddForwards(scs, fts, k).Ok? ==>
      var r := AddForwards(scs, fts, k).value;
      r.Keys == scs.Keys && forall id :: id in scs ==> r[id] == BumpBy(scs[id], k, Owed(fts, id))
    decreases |fts|
  {
    if fts != [] && fts[0].scId in scs {
      var id0, v := fts[0].scId, fts[0].value;
      var mid := scs[id0 := Bump(scs[id0], k, v)];
      AddForwardsForm(mid, fts[1..], k);
      if AddForwards(scs, fts, k).Ok? {
        var r := AddForwards(scs, fts, k).value;
        forall id | id in scs ensures r[id] == BumpBy(scs[id], k, Owed(fts, id)) {
          if id == id0 {
            OwedPositive(fts[1..], id0);
            BumpTwice(scs[id0], k, v, Owed(fts[1..], id0));
          }
        }
      }
    }
  }
}
