/** Every step of `ConnectBlock` is undone exactly by the matching step of
    `DisconnectBlock`. */
module LedgerUndo {
  import opened Results
  import opened Coins
  import opened Sidechain
  import opened Ledger
  import opened Ordering
  import opened LedgerInvariant
  import opened LedgerSteps

  // ---- Coins ----

  lemma {:induction false} RestoreUndoesSpendOne(coins: CoinMap, o: OutPoint)
    requires CoinsOk(coins) && SpendOne(coins, o).Ok?
    ensures var r := SpendOne(coins, o).value; RestoreInput(r.0, o, r.1) == Ok(coins)
  {
    var c := coins[o.hash];
    var d := Spend(c, o.n);
    var r := SpendOne(coins, o).value;
    var c0 := CoinsAt(r.0, o.hash);
    UndoSpend(c, o.n, c0);
    CleanupTrimmed(c);
    TrimmedPrunedIsEmpty(c);
    assert PutCoins(r.0, o.hash, c) == coins;
  }

  /** `UpdateCoins` followed by the restoring loop of `DisconnectBlock`. */
  lemma {:induction false} RestoreUndoesSpend(coins: CoinMap, vin: seq<OutPoint>)
    requires CoinsOk(coins) && SpendInputs(coins, vin).Ok?
    ensures var r := SpendInputs(coins, vin).value; RestoreInputs(r.0, vin, r.1) == Ok(coins)
    decreases |vin|
  {
    SpendInputsKeeps(coins, vin);
    if vin != [] {
      var n := |vin| - 1;
      var before := SpendInputs(coins, vin[..n]).value;
      SpendInputsKeeps(coins, vin[..n]);
      RestoreUndoesSpendOne(before.0, vin[n]);
      RestoreUndoesSpend(coins, vin[..n]);
      var r := SpendInputs(coins, vin).value;
      assert r.1[..n] == before.1 && r.1[n] == SpendOne(before.0, vin[n]).value.1;
    }
  }

  lemma {:induction false} RemoveUndoesAdd(coins: CoinMap, h: Hash, c: CCoins)
    requires h !in coins
    ensures RemoveOutputs(PutCoins(coins, h, c), h, c) == Ok(coins)
  {
    assert PutCoins(coins, h, c) - {h} == coins;
  }

  lemma {:induction false} RemoveTxCoinsUndoes(coins: CoinMap, tx: Tx, height: int, r: CoinMap, undo: seq<TxInUndo>)
    requires CoinsOk(coins) && tx.hash !in coins && AddTxCoins(coins, tx, height) == Ok((r, undo))
    ensures RemoveTxCoins(r, tx, undo, height) == Ok(coins)
  {
    if tx.coinBase {
      RemoveUndoesAdd(coins, tx.hash, FromTx(tx, height));
    } else {
      SpendInputsKeeps(coins, tx.vin);
      var spent := SpendInputs(coins, tx.vin).value.0;
      RemoveUndoesAdd(spent, tx.hash, FromTx(tx, height));
      RestoreUndoesSpend(coins, tx.vin);
    }
  }

  // ---- Sidechain amounts ----

  lemma {:induction false} DecrementUndoesBump(sc: CSidechain, k: int, v: int, w: int)
    requires v > 0 && w >= 0 && (k in sc.immature ==> sc.immature[k] > 0)
    ensures Decrement(BumpBy(sc, k, v + w), k, v) == Ok(BumpBy(sc, k, w))
  {
    var b := BumpBy(sc, k, v + w).immature;
    if w == 0 && k !in sc.immature {
      assert b - {k} == sc.immature;
    } else {
      assert b[k := b[k] - v] == BumpBy(sc, k, w).immature;
    }
  }

  ghost predicate Bumped(created: ScMap, scs1: ScMap, fts: seq<ForwardOut>, k: int) {
    && ForwardIds(fts) <= created.Keys
    && scs1.Keys == created.Keys
    && (forall id :: id in created ==> scs1[id] == BumpBy(created[id], k, Owed(fts, id)))
  }

  /** Reverting takes the transfers one by one, in any number per sidechain. */
  lemma {:induction false} RevertForwardsUndoes(created: ScMap, scs1: ScMap, fts: seq<ForwardOut>, k: int)
    requires Positive(fts) && Bumped(created, scs1, fts, k)
    requires forall id :: id in created && k in created[id].immature ==> created[id].immature[k] > 0
    ensures RevertForwards(scs1, fts, k) == Ok(created)
    decreases |fts|
  {
    hide Decrement, Bump;
    if fts == [] {
      assert scs1 == created;
    } else {
      var id, v := fts[0].scId, fts[0].value;
      OwedPositive(fts[1..], id);
      DecrementUndoesBump(created[id], k, v, Owed(fts[1..], id));
      var next := scs1[id := BumpBy(created[id], k, Owed(fts[1..], id))];
      assert Bumped(created, next, fts[1..], k);
      RevertForwardsUndoes(created, next, fts[1..], k);
    }
  }

  ghost predicate JustCreated(scs: ScMap, created: ScMap, crs: seq<CreationOut>, k: int) {
    && created.Keys == scs.Keys + CreationIds(crs)
    && scs.Keys !! CreationIds(crs)
    && (forall id :: id in scs ==> created[id] == scs[id])
    && (forall i :: 0 <= i < |crs| ==>
          crs[i].scId in created && created[crs[i].scId].immature == map[k := crs[i].value]
          && created[crs[i].scId].balance == 0)
  }

  lemma {:induction false} RevertCreationsUndoes(scs: ScMap, created: ScMap, crs: seq<CreationOut>, k: int)
    requires NoDuplicates(crs) && JustCreated(scs, created, crs, k)
    ensures RevertCreations(created, crs, k) == Ok(scs)
    decreases |crs|
  {
    if crs == [] {
      assert created == scs;
    } else {
      var id := crs[0].scId;
      var next := created - {id};
      assert JustCreated(scs, next, crs[1..], k) by {
        forall i | 0 <= i < |crs[1..]|
          ensures var id1 := crs[1..][i].scId;
            id1 in next && next[id1].immature == map[k := crs[1..][i].value] && next[id1].balance == 0
        {
          assert crs[1..][i] == crs[i + 1];
          CreationIdIn(crs[1..], i);
        }
      }
      RevertCreationsUndoes(scs, next, crs[1..], k);
    }
  }

  lemma {:induction false} CreationIdIn(crs: seq<CreationOut>, i: nat)
    requires i < |crs|
    ensures crs[i].scId in CreationIds(crs)
  {
    if i > 0 {
      CreationIdIn(crs[1..], i - 1);
    }
  }

  lemma {:induction false} CreatedPositive(scs: ScMap, created: ScMap, scs1: ScMap, tx: Tx, blockHash: Hash,
      height: int, maturity: nat)
    requires height >= 1 && ValidTx(tx) && ScsOk(scs, height - 1, height, maturity)
    requires ScsApplied(scs, created, scs1, tx, blockHash, height, maturity)
    ensures forall id :: id in created && height + maturity in created[id].immature ==>
      created[id].immature[height + maturity] > 0
  {
    var k := height + maturity;
    forall id | id in created && k in created[id].immature ensures created[id].immature[k] > 0 {
      CreatedSidechain(scs, created, scs1, tx, blockHash, height, maturity, id);
      assert id in scs ==> ScOk(scs[id], height - 1, height, maturity);
    }
  }

  lemma {:induction false} RevertScsUndoes(scs: ScMap, created: ScMap, scs1: ScMap, tx: Tx, blockHash: Hash,
      height: int, maturity: nat)
    requires height >= 1 && ValidTx(tx) && ScsOk(scs, height - 1, height, maturity)
    requires ScsApplied(scs, created, scs1, tx, blockHash, height, maturity)
    ensures RevertForwards(scs1, tx.forwards, height + maturity) == Ok(created)
    ensures RevertCreations(created, tx.creations, height + maturity) == Ok(scs)
  {
    hide RevertForwards, RevertCreations, ScsOk;
    var k := height + maturity;
    CreatedPositive(scs, created, scs1, tx, blockHash, height, maturity);
    RevertForwardsUndoes(created, scs1, tx.forwards, k);
    RevertCreationsUndoes(scs, created, tx.creations, k);
  }

  // ---- Scheduled events of a transaction ----

  /** `ev1` is `ev` without `ids` maturing at `k0` and without the sidechains `news` ceasing. */
  ghost predicate Cancelled(ev: EventMap, ev1: EventMap, scs: ScMap, k0: int, ids: set<ScId>, news: set<ScId>) {
    && (forall k :: At(ev1, k).maturing == At(ev, k).maturing - (if k == k0 then ids else {}))
    && (forall k, id {:trigger id in At(ev1, k).ceasing} :: id in At(ev1, k).ceasing <==>
          id in At(ev, k).ceasing && !(id in news && id in scs && k == FirstCeasingHeight(scs[id])))
  }

  lemma {:induction false} CancelledCompose(ev: EventMap, mid: EventMap, ev1: EventMap, scs: ScMap, k0: int,
                         ids: set<ScId>, news: set<ScId>, ids': set<ScId>, news': set<ScId>)
    requires Cancelled(ev, mid, scs, k0, ids, news) && Cancelled(mid, ev1, scs, k0, ids', news')
    ensures Cancelled(ev, ev1, scs, k0, ids + ids', news + news')
  {
    forall k, id ensures id in At(ev1, k).ceasing <==>
      id in At(ev, k).ceasing && !(id in news + news' && id in scs && k == FirstCeasingHeight(scs[id]))
    {
      assert id in At(mid, k).ceasing <==>
        id in At(ev, k).ceasing && !(id in news && id in scs && k == FirstCeasingHeight(scs[id]));
    }
  }

  lemma {:induction false} CancelForwardsForm(ev: EventMap, scs: ScMap, fts: seq<ForwardOut>, k: int)
    requires NonNull(ev)
    ensures NonNull(CancelForwards(ev, fts, k))
    ensures Cancelled(ev, CancelForwards(ev, fts, k), scs, k, ForwardIds(fts), {})
    decreases |fts|
  {
    if fts != [] {
      var mid := DropMaturing(ev, k, fts[0].scId);
      assert NonNull(mid) && Cancelled(ev, mid, scs, k, {fts[0].scId}, {});
      CancelForwardsForm(mid, scs, fts[1..], k);
      CancelledCompose(ev, mid, CancelForwards(ev, fts, k), scs, k, {fts[0].scId}, {}, ForwardIds(fts[1..]), {});
    }
  }

  ghost predicate AllCeasing(ev: EventMap, scs: ScMap, news: set<ScId>) {
    forall id :: id in news ==> id in scs && id in At(ev, FirstCeasingHeight(scs[id])).ceasing
  }

  lemma {:induction false} CancelCreationForm(ev: EventMap, scs: ScMap, id: ScId, k: int)
    requires NonNull(ev) && id in scs && id in At(ev, FirstCeasingHeight(scs[id])).ceasing
    ensures FirstCeasingHeight(scs[id]) in DropMaturing(ev, k, id)
    ensures var ev1 := DropCeasing(DropMaturing(ev, k, id), FirstCeasingHeight(scs[id]), id);
      NonNull(ev1) && Cancelled(ev, ev1, scs, k, {id}, {id})
  {
    var mid := DropMaturing(ev, k, id);
    assert NonNull(mid) && Cancelled(ev, mid, scs, k, {id}, {});
  }

  lemma {:induction false} CancelCreationsForm(ev: EventMap, scs: ScMap, crs: seq<CreationOut>, k: int)
    requires NonNull(ev) && NoDuplicates(crs) && AllCeasing(ev, scs, CreationIds(crs))
    ensures CancelCreations(ev, scs, crs, k).Ok?
    ensures var ev1 := CancelCreations(ev, scs, crs, k).value;
      NonNull(ev1) && Cancelled(ev, ev1, scs, k, CreationIds(crs), CreationIds(crs))
    decreases |crs|
  {
    if crs != [] {
      var id, rest := crs[0].scId, CreationIds(crs[1..]);
      CancelCreationForm(ev, scs, id, k);
      var mid := DropCeasing(DropMaturing(ev, k, id), FirstCeasingHeight(scs[id]), id);
      assert AllCeasing(mid, scs, rest) by {
        forall id1 | id1 in rest ensures id1 in At(mid, FirstCeasingHeight(scs[id1])).ceasing {
          assert id1 in At(ev, FirstCeasingHeight(scs[id1])).ceasing;
        }
      }
      CancelCreationsForm(mid, scs, crs[1..], k);
      CancelledCompose(ev, mid, CancelCreations(ev, scs, crs, k).value, scs, k, {id}, {id}, rest, rest);
    }
  }

  /** The record at `k` without the ids `gone`: where several transfers of a block share
      one entry, the first cancel already removes it. */
  function Without(ev: EventMap, k: int, gone: set<ScId>): EventMap {
    Put(ev, k, At(ev, k).(maturing := At(ev, k).maturing - gone))
  }

  /** Cancelling the events of a transaction, when some of its maturing entries may be
      gone already, restores the earlier events up to those entries. */
  lemma {:induction false} CancelUndoesSchedule(ev: EventMap, ev1: EventMap, scs: ScMap, scs1: ScMap, tx: Tx, k: int,
      gone: set<ScId>)
    requires NonNull(ev) && EventsApplied(ev, ev1, scs1, tx, k) && NoDuplicates(tx.creations)
    requires CreationIds(tx.creations) <= scs1.Keys
    requires forall j, id :: id in At(ev, j).ceasing ==> id !in CreationIds(tx.creations)
    ensures var mid := CancelForwards(Without(ev1, k, gone), tx.forwards, k);
      var ids := CreationIds(tx.creations) + ForwardIds(tx.forwards);
      CancelCreations(mid, scs1, tx.creations, k) == Ok(Without(ev, k, gone + ids))
  {
    var start := Without(ev1, k, gone);
    var mid := CancelForwards(start, tx.forwards, k);
    var news, fwds := CreationIds(tx.creations), ForwardIds(tx.forwards);
    CancelForwardsForm(start, scs1, tx.forwards, k);
    assert AllCeasing(mid, scs1, news) by {
      forall id | id in news ensures id in At(mid, FirstCeasingHeight(scs1[id])).ceasing {
        assert id in At(ev1, FirstCeasingHeight(scs1[id])).ceasing;
        assert id in At(start, FirstCeasingHeight(scs1[id])).ceasing;
      }
    }
    CancelCreationsForm(mid, scs1, tx.creations, k);
    var r := CancelCreations(mid, scs1, tx.creations, k).value;
    CancelledSame(ev, ev1, start, mid, r, scs1, k, gone, fwds, news);
    EventsExtensional(r, Without(ev, k, gone + (news + fwds)));
  }

  lemma {:induction false} CancelledSame(ev: EventMap, ev1: EventMap, start: EventMap, mid: EventMap, r: EventMap,
      scs1: ScMap, k: int,
                      gone: set<ScId>, fwds: set<ScId>, news: set<ScId>)
    requires Scheduled(ev, ev1, scs1, k, news + fwds, news) && start == Without(ev1, k, gone)
    requires Cancelled(start, mid, scs1, k, fwds, {}) && Cancelled(mid, r, scs1, k, news, news)
    requires forall j, id :: id in At(ev, j).ceasing ==> id !in news
    ensures forall j :: At(r, j) == At(Without(ev, k, gone + (news + fwds)), j)
  {
    forall j ensures At(r, j) == At(Without(ev, k, gone + (news + fwds)), j) {
      assert At(r, j).maturing == At(mid, j).maturing - (if j == k then news else {});
      assert At(r, j).ceasing == At(ev, j).ceasing by {
        forall id ensures id in At(r, j).ceasing <==> id in At(ev, j).ceasing {
          assert id in At(mid, j).ceasing <==> id in At(start, j).ceasing;
          assert id in At(start, j).ceasing <==> id in At(ev1, j).ceasing;
          assert id in At(ev, j).ceasing ==> id !in news;
        }
      }
    }
  }

  // ---- One transaction ----

  function TxIds(tx: Tx): set<ScId> {
    CreationIds(tx.creations) + ForwardIds(tx.forwards)
  }

  lemma {:induction false} WithoutNothing(ev: EventMap, k: int)
    requires NonNull(ev)
    ensures Without(ev, k, {}) == ev
  {
    EventsExtensional(Without(ev, k, {}), ev);
  }

  lemma {:induction false} OldAreNotCreated(s: State, created: ScMap, scs1: ScMap, tx: Tx, blockHash: Hash, height: int,
      maturity: nat)
    requires CeasingOk(s.scs, s.events, height - 1) && ScsApplied(s.scs, created, scs1, tx, blockHash, height, maturity)
    requires EventsOk(s.events, height - 1)
    ensures forall j, id :: id in At(s.events, j).ceasing ==> id !in CreationIds(tx.creations)
    ensures NonNull(s.events) && NoDuplicates(tx.creations) && CreationIds(tx.creations) <= scs1.Keys
  {
    forall j, id | id in At(s.events, j).ceasing ensures id !in CreationIds(tx.creations) {
      assert id in s.scs;
    }
  }

  lemma {:induction false} RevertScOutputsUndoes(s: State, created: ScMap, scs1: ScMap, ev1: EventMap, tx: Tx,
      blockHash: Hash,
                              height: int, maturity: nat, gone: set<ScId>)
    requires height >= 1 && ValidTx(tx) && Inv(s, height - 1, height, maturity)
    requires ScsApplied(s.scs, created, scs1, tx, blockHash, height, maturity)
    requires EventsApplied(s.events, ev1, scs1, tx, height + maturity)
    ensures RevertScOutputs(scs1, Without(ev1, height + maturity, gone), tx, height, maturity)
         == Ok((s.scs, Without(s.events, height + maturity, gone + TxIds(tx))))
  {
    hide ScsOk, EventsOk, MaturingOk, CoinsOk, CertsOk, CancelForwards, CancelCreations, RevertForwards,
      RevertCreations, ScsApplied, EventsApplied, Without, CeasingOk;
    var k := height + maturity;
    OldAreNotCreated(s, created, scs1, tx, blockHash, height, maturity);
    CancelUndoesSchedule(s.events, ev1, s.scs, scs1, tx, k, gone);
    RevertScsUndoes(s.scs, created, scs1, tx, blockHash, height, maturity);
  }

  /** The state with the entries `gone` missing at the maturity height. */
  function Lacking(s: State, k: int, gone: set<ScId>): State {
    s.(events := Without(s.events, k, gone))
  }

  /** `DisconnectTx` undoes `ConnectTx`, also when entries it shares with transactions
      undone before are gone. */
  lemma {:induction false} DisconnectTxUndoes(s: State, tx: Tx, blockHash: Hash, height: int, maturity: nat,
      gone: set<ScId>, s1: State, undo: TxUndo)
    requires height >= 1 && ValidTx(tx) && tx.hash !in s.coins && Inv(s, height - 1, height, maturity)
    requires ConnectTx(s, tx, blockHash, height, maturity) == Ok((s1, undo))
    ensures DisconnectTx(Lacking(s1, height + maturity, gone), tx, undo, height, maturity)
         == Ok(Lacking(s, height + maturity, gone + TxIds(tx)))
  {
    var c := AddTxCoins(s.coins, tx, height).value;
    RemoveTxCoinsUndoes(s.coins, tx, height, c.0, c.1);
    if tx.coinBase {
      assert gone + TxIds(tx) == gone;
    } else {
      var r := ApplyScOutputs(s.scs, s.events, tx, blockHash, height, maturity).value;
      var created := ApplyScOutputsForm(s.scs, s.events, tx, blockHash, height, maturity);
      RevertScOutputsUndoes(s, created, r.0, r.1, tx, blockHash, height, maturity, gone);
    }
  }

  // ---- One certificate ----

  lemma {:induction false} CancelCertUndoes(scs: ScMap, ev: EventMap, cert: Cert, sc: CSidechain, cur: int, done: int)
    requires NonNull(ev) && CeasingOk(scs, ev, done) && cert.scId in scs && sc == scs[cert.scId]
    requires Created(sc) && cert.epoch == sc.lastEpoch + 1
    requires cur == CeasingHeight(sc) > done
    ensures CancelCert(MovedCeasing(ev, cur, sc.epochLength, cert.scId), WithCert(sc, cert), cert) == Ok(ev)
  {
    var id, l := cert.scId, sc.epochLength;
    var ev1 := MovedCeasing(ev, cur, l, id);
    CeasingHeightAfterCert(sc, WithCert(sc, cert));
    assert id in At(ev, cur).ceasing && id !in At(ev, cur + l).ceasing;
    assert id in At(ev1, cur + l).ceasing;
    var r := AddCeasing(DropCeasing(ev1, cur + l, id), cur, id);
    MoveBack(ev, cur, l, id);
    EventsExtensional(r, ev);
  }

  lemma {:induction false} MoveBack(ev: EventMap, cur: int, l: int, id: ScId)
    requires NonNull(ev) && l != 0 && id in At(ev, cur).ceasing && id !in At(ev, cur + l).ceasing
    ensures var r := AddCeasing(DropCeasing(MovedCeasing(ev, cur, l, id), cur + l, id), cur, id);
      NonNull(r) && forall k :: At(r, k) == At(ev, k)
  {
    var ev1 := MovedCeasing(ev, cur, l, id);
    var mid := DropCeasing(ev1, cur + l, id);
    assert At(mid, cur + l).ceasing == At(ev, cur + l).ceasing;
    assert At(mid, cur).ceasing + {id} == At(ev, cur).ceasing;
  }

  lemma {:induction false} CertCoinsUndo(coins: CoinMap, cert: Cert, c: CCoins)
    requires CoinsOk(coins) && cert.hash !in coins && SpendInputs(coins, cert.vin).Ok?
    ensures var spent := SpendInputs(coins, cert.vin).value;
      && RemoveOutputs(PutCoins(spent.0, cert.hash, c), cert.hash, c) == Ok(spent.0)
      && RestoreInputs(spent.0, cert.vin, spent.1) == Ok(coins)
  {
    SpendInputsKeeps(coins, cert.vin);
    RemoveUndoesAdd(SpendInputs(coins, cert.vin).value.0, cert.hash, c);
    RestoreUndoesSpend(coins, cert.vin);
  }

  lemma {:induction false} CertEventsUndo(s: State, cert: Cert, height: int, maturity: nat, ev1: EventMap)
    requires Inv(s, height - 1, height, maturity) && CertApplicable(s, cert, height)
    requires ScheduleCert(s.events, s.scs[cert.scId], cert) == Ok(ev1)
    ensures CancelCert(ev1, WithCert(s.scs[cert.scId], cert), cert) == Ok(s.events)
  {
    var sc := s.scs[cert.scId];
    assert ScOk(sc, height - 1, height, maturity);
    CertFindsCeasingRecord(s, cert, height, maturity);
    CancelCertUndoes(s.scs, s.events, cert, sc, CeasingHeight(sc), height - 1);
  }

  lemma {:induction false} InvCoins(s: State, done: int, cur: int, maturity: nat)
    requires Inv(s, done, cur, maturity)
    ensures CoinsOk(s.coins)
  {
  }

  lemma {:induction false} DisconnectCertUndoes(s: State, cert: Cert, height: int, maturity: nat)
    requires height >= 1 && cert.hash !in s.coins && Inv(s, height - 1, height, maturity)
    requires ConnectCert(s, cert, height).Ok?
    ensures var r := ConnectCert(s, cert, height).value;
      DisconnectCert(r.0, cert, r.1, height) == Ok(s)
  {
    hide Inv, CoinsOk, PutCoins, SpendInputs, RestoreInputs, RemoveOutputs, ScheduleCert, CancelCert, BwtTotal,
      FromCert, StateAtHeight;
    InvCoins(s, height - 1, height, maturity);
    var r := ConnectCert(s, cert, height).value;
    var sc := s.scs[cert.scId];
    CertEventsUndo(s, cert, height, maturity, r.0.events);
    CertCoinsUndo(s.coins, cert, FromCert(cert, height, CertMaturity(sc, height)));
    assert CertMaturity(WithCert(sc, cert), height) == CertMaturity(sc, height);
    assert WithoutCert(WithCert(sc, cert), cert, r.1) == sc;
    assert s.scs[cert.scId := WithCert(sc, cert)][cert.scId := sc] == s.scs;
  }

  // ---- The events of the height ----

  lemma {:induction false} UnmatureUndoes(scs: ScMap, ids: set<ScId>, height: int, matured: map<ScId, int>)
    requires CanMature(scs, ids, height)
    requires matured == map id | id in ids :: scs[id].immature[height]
    requires forall id :: id in ids ==> scs[id].immature[height] > 0 && scs[id].balance >= 0
    ensures CanUnmature(MatureAll(scs, ids, height), matured)
    ensures UnmatureAll(MatureAll(scs, ids, height), matured, height) == scs
  {
    var m := MatureAll(scs, ids, height);
    var back := UnmatureAll(m, matured, height);
    forall id | id in scs ensures back[id] == scs[id] {
      if id in ids {
        var sc := scs[id];
        assert (sc.immature - {height})[height := sc.immature[height]] == sc.immature;
      }
    }
  }

  /** Restoring the certificate of one sidechain, the others still void. */
  lemma {:induction false} RestoreOneCert(coins: CoinMap, hs: set<Hash>, h: Hash)
    requires CoinsOk(coins) && h !in hs
    ensures var outs := if h in coins then VoidedOuts(coins[h]) else [];
      var r := RestoreFrom(CoinsAt(VoidedAll(coins, hs + {h}), h), outs, |outs|);
      r.Ok? && PutCoins(VoidedAll(coins, hs + {h}), h, Cleanup(r.value)) == VoidedAll(coins, hs)
  {
    VoidedOneMore(coins, hs, h);
    var before := VoidedAll(coins, hs);
    var all := VoidedAll(coins, hs + {h});
    if h in coins {
      var c := coins[h];
      RestoreUndoesVoid(c, CoinsAt(all, h));
      CleanupTrimmed(c);
      TrimmedPrunedIsEmpty(c);
      assert PutCoins(all, h, c) == before;
    } else {
      assert PutCoins(all, h, Cleanup(EMPTY)) == before;
    }
  }

  ghost predicate UndoRecords(coins: CoinMap, scs: ScMap, ids: seq<ScId>, voided: seq<VoidedCert>) {
    |voided| == |ids| && forall i :: 0 <= i < |ids| ==> voided[i] == VoidedCert(ids[i], OutsOf(coins, scs, ids[i]))
  }

  lemma {:induction false} CertHashesCons(scs: ScMap, ids: seq<ScId>)
    requires ids != []
    ensures CertHashes(scs, ids) == CertHashes(scs, ids[1..]) + (if HasCert(scs, ids[0])
      then {scs[ids[0]].lastCertHash} else {})
  {
    forall i | 0 < i < |ids| && HasCert(scs, ids[i]) ensures scs[ids[i]].lastCertHash in CertHashes(scs, ids[1..]) {
      assert ids[1..][i - 1] == ids[i];
    }
  }

  lemma {:induction false} VoidableTail(coins: CoinMap, scs: ScMap, ids: seq<ScId>, voided: seq<VoidedCert>)
    requires ids != [] && Voidable(scs, coins, ids) && UndoRecords(coins, scs, ids, voided)
    ensures Voidable(scs, coins, ids[1..]) && UndoRecords(coins, scs, ids[1..], voided[1..])
    ensures HasCert(scs, ids[0]) ==> scs[ids[0]].lastCertHash !in CertHashes(scs, ids[1..])
  {
    if HasCert(scs, ids[0]) {
      forall i | 0 <= i < |ids[1..]| && HasCert(scs, ids[1..][i])
        ensures scs[ids[1..][i]].lastCertHash != scs[ids[0]].lastCertHash
      {
        assert ids[1..][i] == ids[i + 1] && ids[0] != ids[i + 1];
      }
    }
  }

  /** Restoring the certificates in order undoes voiding them all. */
  lemma {:induction false} RestoreCertsUndoes(coins: CoinMap, scs: ScMap, ids: seq<ScId>, voided: seq<VoidedCert>)
    requires CoinsOk(coins) && Voidable(scs, coins, ids) && UndoRecords(coins, scs, ids, voided)
    requires forall id :: HasCert(scs, id) ==> scs[id].lastCertHash != NULL_HASH
    ensures RestoreCerts(VoidedAll(coins, CertHashes(scs, ids)), scs, voided) == Ok(coins)
    decreases |ids|
  {
    if ids == [] {
      assert VoidedAll(coins, CertHashes(scs, ids)) == coins;
    } else {
      var id, rest := ids[0], CertHashes(scs, ids[1..]);
      CertHashesCons(scs, ids);
      VoidableTail(coins, scs, ids, voided);
      RestoreCertsUndoes(coins, scs, ids[1..], voided[1..]);
      RestoreCertsStep(coins, scs, id, rest, voided);
    }
  }

  lemma {:induction false} RestoreCertsStep(coins: CoinMap, scs: ScMap, id: ScId, rest: set<Hash>,
      voided: seq<VoidedCert>)
    requires CoinsOk(coins) && id in scs && voided != [] && voided[0] == VoidedCert(id, OutsOf(coins, scs, id))
    requires HasCert(scs, id) ==> scs[id].lastCertHash !in rest && scs[id].lastCertHash != NULL_HASH
    ensures var hs := rest + (if HasCert(scs, id) then {scs[id].lastCertHash} else {});
      RestoreCerts(VoidedAll(coins, hs), scs, voided) == RestoreCerts(VoidedAll(coins, rest), scs, voided[1..])
  {
    if HasCert(scs, id) {
      RestoreOneCert(coins, rest, scs[id].lastCertHash);
    } else {
      assert rest + {} == rest;
    }
  }

  lemma {:induction false} RevertEventsUnfolds(s: State, scs: ScMap, coins: CoinMap, undo: EventsUndo, height: int)
    requires CanUnmature(scs, undo.matured) && UnmatureAll(scs, undo.matured, height) == s.scs
    requires RestoreCerts(coins, s.scs, undo.voided) == Ok(s.coins)
    requires var back := set i | 0 <= i < |undo.voided| :: undo.voided[i].scId;
      Put(s.events - {height}, height, ScEvents(back, undo.matured.Keys)) == s.events
    ensures RevertEvents(State(scs, s.events - {height}, coins), undo, height) == Ok(s)
  {
  }

  /** `RevertSidechainEvents` undoes `HandleSidechainEvents`: balances, immature amounts,
      the event record and every voided certificate. */
  lemma {:induction false} RevertUndoesHandle(s: State, height: int, maturity: nat)
    requires Inv(s, height - 1, height, maturity)
    ensures HandleEvents(s, height).Ok?
    ensures var r := HandleEvents(s, height).value; RevertEvents(r.0, r.1, height) == Ok(s)
  {
    MaturingCanMature(s, height, maturity);
    var e := At(s.events, height);
    var scs, ids := MatureAll(s.scs, e.maturing, height), Ascending(e.ceasing);
    HandleEventsForm(s, height, maturity, scs, ids);
    var voided, matured := VoidCerts(s.coins, scs, ids).value.1, MaturedAmounts(s, height);
    HandledScs(s, height, maturity, scs, matured);
    HandledRecords(s, height, maturity, scs, ids, voided);
    CertsRestored(s, height, maturity, scs, ids, voided);
    RevertRecord(s.events, height, e, ids, voided, matured);
    RevertEventsUnfolds(s, scs, VoidedAll(s.coins, CertHashes(scs, ids)), EventsUndo(matured, voided), height);
  }

  lemma {:induction false} HandledScs(s: State, height: int, maturity: nat, scs: ScMap, matured: map<ScId, int>)
    requires Inv(s, height - 1, height, maturity) && CanMature(s.scs, At(s.events, height).maturing, height)
    requires scs == MatureAll(s.scs, At(s.events, height).maturing, height) && matured == MaturedAmounts(s, height)
    ensures CanUnmature(scs, matured) && UnmatureAll(scs, matured, height) == s.scs
    ensures matured.Keys == At(s.events, height).maturing
  {
    AmountsPositive(s, height, maturity);
    UnmatureUndoes(s.scs, At(s.events, height).maturing, height, matured);
  }

  lemma {:induction false} HandledRecords(s: State, height: int, maturity: nat, scs: ScMap, ids: seq<ScId>,
      voided: seq<VoidedCert>)
    requires Inv(s, height - 1, height, maturity) && CanMature(s.scs, At(s.events, height).maturing, height)
    requires scs == MatureAll(s.scs, At(s.events, height).maturing, height)
      && ids == Ascending(At(s.events, height).ceasing)
    requires VoidCerts(s.coins, scs, ids).Ok? && voided == VoidCerts(s.coins, scs, ids).value.1
    ensures |voided| == |ids| && forall i :: 0 <= i < |ids| ==> voided[i].scId == ids[i]
  {
    CeasingVoidable(s, height, maturity);
    VoidCertsUndo(s.coins, scs, ids);
  }

  lemma {:induction false} CertsRestored(s: State, height: int, maturity: nat, scs: ScMap, ids: seq<ScId>,
      voided: seq<VoidedCert>)
    requires Inv(s, height - 1, height, maturity) && CanMature(s.scs, At(s.events, height).maturing, height)
    requires scs == MatureAll(s.scs, At(s.events, height).maturing, height)
      && ids == Ascending(At(s.events, height).ceasing)
    requires VoidCerts(s.coins, scs, ids).Ok? && voided == VoidCerts(s.coins, scs, ids).value.1
    ensures RestoreCerts(VoidedAll(s.coins, CertHashes(scs, ids)), s.scs, voided) == Ok(s.coins)
  {
    CeasingVoidable(s, height, maturity);
    HandledCoins(s, height, maturity, At(s.events, height).maturing, scs, ids, voided);
  }

  lemma {:induction false} HandledCoins(s: State, height: int, maturity: nat, maturing: set<ScId>, scs: ScMap,
      ids: seq<ScId>, voided: seq<VoidedCert>)
    requires ScsOk(s.scs, height - 1, height, maturity) && CoinsOk(s.coins) && CertsOk(s.scs, s.coins)
    requires CanMature(s.scs, maturing, height) && scs == MatureAll(s.scs, maturing, height)
    requires Voidable(scs, s.coins, ids) && VoidCerts(s.coins, scs, ids).Ok?
      && voided == VoidCerts(s.coins, scs, ids).value.1
    ensures RestoreCerts(VoidedAll(s.coins, CertHashes(scs, ids)), s.scs, voided) == Ok(s.coins)
  {
    hide CertsOk, CoinsOk, MatureAll, VoidedAll, CertHashes, VoidCerts, RestoreCerts, Voidable, ScsOk;
    CertHashesSet(s.scs, height - 1, height, maturity);
    RevertCoins(s.scs, scs, s.coins, maturing, height, ids, voided);
  }

  lemma {:induction false} AmountsPositive(s: State, height: int, maturity: nat)
    requires Inv(s, height - 1, height, maturity) && CanMature(s.scs, At(s.events, height).maturing, height)
    ensures forall id :: id in At(s.events, height).maturing ==>
      s.scs[id].immature[height] > 0 && s.scs[id].balance >= 0
  {
    forall id | id in At(s.events, height).maturing ensures s.scs[id].immature[height] > 0 && s.scs[id].balance >= 0 {
      assert ScOk(s.scs[id], height - 1, height, maturity);
    }
  }

  lemma {:induction false} CertHashesSet(scs: ScMap, done: int, cur: int, maturity: nat)
    requires ScsOk(scs, done, cur, maturity)
    ensures forall id :: HasCert(scs, id) ==> scs[id].lastCertHash != NULL_HASH
  {
    forall id | HasCert(scs, id) ensures scs[id].lastCertHash != NULL_HASH {
      assert ScOk(scs[id], done, cur, maturity);
    }
  }

  lemma {:induction false} RevertCoins(scs0: ScMap, scs: ScMap, coins: CoinMap, maturing: set<ScId>, height: int,
      ids: seq<ScId>, voided: seq<VoidedCert>)
    requires CoinsOk(coins) && CertsOk(scs0, coins)
    requires CanMature(scs0, maturing, height) && scs == MatureAll(scs0, maturing, height)
    requires forall id :: HasCert(scs0, id) ==> scs0[id].lastCertHash != NULL_HASH
    requires Voidable(scs, coins, ids) && VoidCerts(coins, scs, ids).Ok? && voided == VoidCerts(coins, scs, ids).value.1
    ensures RestoreCerts(VoidedAll(coins, CertHashes(scs, ids)), scs0, voided) == Ok(coins)
  {
    hide CertsOk, CoinsOk, MatureAll, VoidedAll, CertHashes, VoidCerts, RestoreCerts, Voidable, OutsOf;
    VoidCertsUndo(coins, scs, ids);
    MaturedSame(scs0, scs, coins, ids, maturing, height);
    RestoreCertsUndoes(coins, scs0, ids, voided);
  }

  /** Maturing amounts changes nothing that voiding looks at. */
  lemma {:induction false} MaturedSame(scs: ScMap, scs1: ScMap, coins: CoinMap, ids: seq<ScId>, maturing: set<ScId>,
      height: int)
    requires CanMature(scs, maturing, height) && scs1 == MatureAll(scs, maturing, height)
    requires CertsOk(scs, coins)
    ensures CertHashes(scs1, ids) == CertHashes(scs, ids)
    ensures forall id :: OutsOf(coins, scs1, id) == OutsOf(coins, scs, id)
    ensures Voidable(scs1, coins, ids) ==> Voidable(scs, coins, ids)
  {
    forall id ensures HasCert(scs1, id) <==> HasCert(scs, id)
              ensures id in scs ==> scs1[id].lastCertHash == scs[id].lastCertHash
              ensures id in scs ==> scs1[id].lastEpoch == scs[id].lastEpoch
    {
      if id in scs {
        assert scs1[id] == if id in maturing then Matured(scs[id], height) else scs[id];
      }
    }
  }

  lemma {:induction false} RevertRecord(ev: EventMap, height: int, e: ScEvents, ids: seq<ScId>,
      voided: seq<VoidedCert>, matured: map<ScId, int>)
    requires NonNull(ev) && e == At(ev, height) && ids == Ascending(e.ceasing)
    requires |voided| == |ids| && forall i :: 0 <= i < |ids| ==> voided[i].scId == ids[i]
    requires matured.Keys == e.maturing
    ensures var back := set i | 0 <= i < |voided| :: voided[i].scId;
      Put(ev - {height}, height, ScEvents(back, matured.Keys)) == ev
  {
    var back := set i | 0 <= i < |voided| :: voided[i].scId;
    assert back == e.ceasing by {
      forall id | id in e.ceasing ensures id in back {
        assert id in ids;
        var i :| 0 <= i < |ids| && ids[i] == id;
        assert voided[i].scId == id;
      }
      forall id | id in back ensures id in e.ceasing {
        var i :| 0 <= i < |voided| && voided[i].scId == id;
        assert ids[i] in ids;
      }
    }
    if height in ev {
      assert (ev - {height})[height := e] == ev;
    } else {
      assert ev - {height} - {height} == ev;
    }
  }
}
