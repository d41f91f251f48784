/** Each step of `ConnectBlock` keeps the invariant of the ledger. */
module LedgerSteps {
  import opened Results
  import opened Coins
  import opened Sidechain
  import opened Ledger
  import opened Ordering
  import opened LedgerInvariant

  // ---- Coins ----

  /** `after` holds no coins that `before` lacks, with the same metadata. */
  ghost predicate Shrinks(before: CoinMap, after: CoinMap) {
    forall h :: h in after ==> h in before && after[h] == before[h].(vout := after[h].vout)
  }

  lemma {:induction false} SpendInputsKeeps(coins: CoinMap, vin: seq<OutPoint>)
    requires CoinsOk(coins) && SpendInputs(coins, vin).Ok?
    ensures var r := SpendInputs(coins, vin).value;
            CoinsOk(r.0) && Shrinks(coins, r.0) && |r.1| == |vin|
    decreases |vin|
  {
    if vin != [] {
      var n := |vin| - 1;
      SpendInputsKeeps(coins, vin[..n]);
      var before := SpendInputs(coins, vin[..n]).value.0;
      var c := before[vin[n].hash];
      TrimIsTrim(c.vout[vin[n].n := Spent]);
      TrimmedPrunedIsEmpty(Spend(c, vin[n].n));
    }
  }

  lemma {:induction false} PutCoinsKeeps(coins: CoinMap, h: Hash, c: CCoins)
    requires CoinsOk(coins) && Trimmed(c.vout) && c.height != 0
    ensures CoinsOk(PutCoins(coins, h, c))
  {
    TrimmedPrunedIsEmpty(c);
  }

  lemma {:induction false} CertsOkShrink(scs: ScMap, coins: CoinMap, coins': CoinMap)
    requires CertsOk(scs, coins) && Shrinks(coins, coins')
    ensures CertsOk(scs, coins')
  {
  }

  // ---- Transactions ----

  /** What `AddCreations` and `AddForwards` do to the sidechains, in closed form. */
  ghost predicate ScsApplied(scs: ScMap, created: ScMap, scs1: ScMap, tx: Tx, blockHash: Hash, height: int,
      maturity: nat) {
    && created.Keys == scs.Keys + CreationIds(tx.creations)
    && scs.Keys !! CreationIds(tx.creations)
    && NoDuplicates(tx.creations)
    && (forall id :: id in scs ==> created[id] == scs[id])
    && (forall i :: 0 <= i < |tx.creations| ==>
          tx.creations[i].scId in created
          && created[tx.creations[i].scId] == NewSidechain(tx.creations[i], tx.hash, blockHash, height, maturity))
    && ForwardIds(tx.forwards) <= created.Keys
    && scs1.Keys == created.Keys
    && (forall id :: id in created ==> scs1[id] == BumpBy(created[id], height + maturity, Owed(tx.forwards, id)))
  }

  ghost predicate EventsApplied(ev: EventMap, ev1: EventMap, scs1: ScMap, tx: Tx, k: int) {
    && NonNull(ev1)
    && Scheduled(ev, ev1, scs1, k, CreationIds(tx.creations) + ForwardIds(tx.forwards), CreationIds(tx.creations))
  }

  lemma {:induction false} ScsForm(scs: ScMap, created: ScMap, scs1: ScMap, tx: Tx, blockHash: Hash, height: int,
      maturity: nat)
    requires ValidTx(tx)
    requires AddCreations(scs, tx.creations, tx.hash, blockHash, height, maturity) == Ok(created)
    requires AddForwards(created, tx.forwards, height + maturity) == Ok(scs1)
    ensures ScsApplied(scs, created, scs1, tx, blockHash, height, maturity)
  {
    AddCreationsForm(scs, tx.creations, tx.hash, blockHash, height, maturity);
    AddForwardsForm(created, tx.forwards, height + maturity);
  }

  lemma {:induction false} EventsForm(ev: EventMap, mid: EventMap, ev1: EventMap, scs1: ScMap, tx: Tx, k: int)
    requires NonNull(ev)
    requires ScheduleCreations(ev, scs1, tx.creations, k) == Ok(mid)
    requires ScheduleForwards(mid, scs1, tx.forwards, k) == Ok(ev1)
    ensures EventsApplied(ev, ev1, scs1, tx, k)
  {
    var news, ids := CreationIds(tx.creations), ForwardIds(tx.forwards);
    ScheduleCreationsForm(ev, scs1, tx.creations, k);
    ScheduleForwardsForm(mid, scs1, tx.forwards, k);
    ScheduledCompose(ev, mid, ev1, scs1, k, news, news, ids, {});
    assert news + {} == news;
  }

  lemma {:induction false} ApplyScOutputsForm(scs: ScMap, ev: EventMap, tx: Tx, blockHash: Hash, height: int,
      maturity: nat)
    returns (created: ScMap)
    requires ValidTx(tx) && NonNull(ev)
    requires ApplyScOutputs(scs, ev, tx, blockHash, height, maturity).Ok?
    ensures var r := ApplyScOutputs(scs, ev, tx, blockHash, height, maturity).value;
      && ScsApplied(scs, created, r.0, tx, blockHash, height, maturity)
      && EventsApplied(ev, r.1, r.0, tx, height + maturity)
  {
    hide ValidTx, NonNull, ScsApplied, EventsApplied, AddCreations, AddForwards, ScheduleForwards, ScheduleCreations;
    created := AddCreations(scs, tx.creations, tx.hash, blockHash, height, maturity).value;
    var r := ApplyScOutputs(scs, ev, tx, blockHash, height, maturity).value;
    var mid := ScheduleCreations(ev, r.0, tx.creations, height + maturity).value;
    ScsForm(scs, created, r.0, tx, blockHash, height, maturity);
    EventsForm(ev, mid, r.1, r.0, tx, height + maturity);
  }

  lemma {:induction false} BumpKeeps(sc: CSidechain, height: int, maturity: nat, v: int)
    requires v >= 0 && ScOk(sc, height - 1, height, maturity)
    ensures var sc1 := BumpBy(sc, height + maturity, v);
      && ScOk(sc1, height - 1, height, maturity)
      && sc1.immature.Keys == sc.immature.Keys + (if v > 0 then {height + maturity} else {})
      && CeasingHeight(sc1) == CeasingHeight(sc) && FirstCeasingHeight(sc1) == FirstCeasingHeight(sc)
  {
  }

  lemma {:induction false} NewKeeps(cr: CreationOut, txHash: Hash, blockHash: Hash, height: int, maturity: nat)
    requires cr.value > 0 && cr.epochLength >= 1 && height >= 1
    ensures var sc := NewSidechain(cr, txHash, blockHash, height, maturity);
      && ScOk(sc, height - 1, height, maturity)
      && sc.immature.Keys == {height + maturity}
      && CeasingHeight(sc) > height
      && CeasingHeight(sc) == FirstCeasingHeight(sc)
  {
    CeasingHeightAfterCreation(NewSidechain(cr, txHash, blockHash, height, maturity));
  }

  ghost predicate IsNew(sc: CSidechain, height: int, maturity: nat) {
    && ScOk(sc, height - 1, height, maturity)
    && sc.immature.Keys == {height + maturity}
    && CeasingHeight(sc) > height
    && CeasingHeight(sc) == FirstCeasingHeight(sc)
    && sc.lastEpoch == EPOCH_NULL && sc.lastCertHash == NULL_HASH
  }

  /** A sidechain after the creations: an old one unchanged, or a new one. */
  lemma {:induction false} CreatedSidechain(scs: ScMap, created: ScMap, scs1: ScMap, tx: Tx, blockHash: Hash,
      height: int, maturity: nat, id: ScId)
    requires height >= 1 && ValidTx(tx)
    requires ScsApplied(scs, created, scs1, tx, blockHash, height, maturity) && id in created
    ensures if id in scs then created[id] == scs[id]
      else id in CreationIds(tx.creations) && IsNew(created[id], height, maturity)
  {
    if id !in scs {
      var i := CreationIdAt(tx.creations, id);
      NewKeeps(tx.creations[i], tx.hash, blockHash, height, maturity);
    }
  }

  /** A sidechain of the new state: an old one with more to come, or a new one. */
  lemma {:induction false} TxSidechain(scs: ScMap, created: ScMap, scs1: ScMap, tx: Tx, blockHash: Hash, height: int,
      maturity: nat, id: ScId)
    requires height >= 1 && ValidTx(tx) && ScsOk(scs, height - 1, height, maturity)
    requires ScsApplied(scs, created, scs1, tx, blockHash, height, maturity) && id in scs1
    ensures if id in scs then created[id] == scs[id]
      else id in CreationIds(tx.creations) && IsNew(created[id], height, maturity)
    ensures ScOk(scs1[id], height - 1, height, maturity)
    ensures scs1[id] == created[id].(immature := scs1[id].immature)
    ensures CeasingHeight(scs1[id]) == CeasingHeight(created[id])
      && FirstCeasingHeight(scs1[id]) == FirstCeasingHeight(created[id])
    ensures scs1[id].immature.Keys ==
      created[id].immature.Keys + (if id in ForwardIds(tx.forwards) then {height + maturity} else {})
  {
    CreatedSidechain(scs, created, scs1, tx, blockHash, height, maturity, id);
    OwedPositive(tx.forwards, id);
    BumpKeeps(created[id], height, maturity, Owed(tx.forwards, id));
  }

  lemma {:induction false} TxKeepsMaturing(s: State, created: ScMap, scs1: ScMap, ev1: EventMap, tx: Tx,
      blockHash: Hash, height: int, maturity: nat)
    requires height >= 1 && ValidTx(tx) && ScsOk(s.scs, height - 1, height, maturity) && MaturingOk(s.scs, s.events)
    requires ScsApplied(s.scs, created, scs1, tx, blockHash, height, maturity)
    requires EventsApplied(s.events, ev1, scs1, tx, height + maturity)
    ensures MaturingOk(scs1, ev1)
  {
    forall k, id ensures id in At(ev1, k).maturing <==> id in scs1 && k in scs1[id].immature {
      assert id in At(s.events, k).maturing <==> id in s.scs && k in s.scs[id].immature;
      if id in scs1 {
        TxSidechain(s.scs, created, scs1, tx, blockHash, height, maturity, id);
      }
    }
  }

  lemma {:induction false} TxKeepsCeasing(s: State, created: ScMap, scs1: ScMap, ev1: EventMap, tx: Tx,
      blockHash: Hash, height: int, maturity: nat)
    requires height >= 1 && ValidTx(tx) && ScsOk(s.scs, height - 1, height, maturity)
      && CeasingOk(s.scs, s.events, height - 1)
    requires ScsApplied(s.scs, created, scs1, tx, blockHash, height, maturity)
    requires EventsApplied(s.events, ev1, scs1, tx, height + maturity)
    ensures CeasingOk(scs1, ev1, height - 1)
  {
    forall k, id ensures id in At(ev1, k).ceasing <==> id in scs1 && k == CeasingHeight(scs1[id]) && k > height - 1 {
      var before, after := id in At(s.events, k).ceasing, id in At(ev1, k).ceasing;
      assert after <==> before || (id in CreationIds(tx.creations) && id in scs1 && k == FirstCeasingHeight(scs1[id]));
      assert before <==> id in s.scs && k == CeasingHeight(s.scs[id]) && k > height - 1;
      if id in scs1 {
        TxSidechain(s.scs, created, scs1, tx, blockHash, height, maturity, id);
      }
    }
  }

  lemma {:induction false} TxKeepsScs(scs: ScMap, created: ScMap, scs1: ScMap, tx: Tx, blockHash: Hash, height: int,
      maturity: nat)
    requires height >= 1 && ValidTx(tx) && ScsOk(scs, height - 1, height, maturity)
    requires ScsApplied(scs, created, scs1, tx, blockHash, height, maturity)
    ensures ScsOk(scs1, height - 1, height, maturity)
  {
    forall id | id in scs1 ensures ScOk(scs1[id], height - 1, height, maturity) {
      TxSidechain(scs, created, scs1, tx, blockHash, height, maturity, id);
    }
  }

  /** Records without contents do not exist, and contents lie in the future. */
  lemma {:induction false} EventsInFuture(scs: ScMap, ev: EventMap, done: int, cur: int, maturity: nat)
    requires NonNull(ev) && ScsOk(scs, done, cur, maturity) && MaturingOk(scs, ev) && CeasingOk(scs, ev, done)
    ensures EventsOk(ev, done)
  {
    forall k | k in ev ensures k > done {
      var r := At(ev, k);
      assert r == ev[k] && !r.IsNull();
      if r.maturing != {} {
        var id :| id in r.maturing;
        assert id in At(ev, k).maturing;
        assert ScOk(scs[id], done, cur, maturity) && k in scs[id].immature;
      } else {
        var id :| id in r.ceasing;
        assert id in At(ev, k).ceasing;
      }
    }
  }

  lemma {:induction false} TxKeepsScheduling(s: State, created: ScMap, scs1: ScMap, ev1: EventMap, tx: Tx,
      blockHash: Hash, height: int, maturity: nat)
    requires height >= 1 && ValidTx(tx) && Inv(s, height - 1, height, maturity)
    requires ScsApplied(s.scs, created, scs1, tx, blockHash, height, maturity)
    requires EventsApplied(s.events, ev1, scs1, tx, height + maturity)
    ensures ScsOk(scs1, height - 1, height, maturity)
    ensures MaturingOk(scs1, ev1) && CeasingOk(scs1, ev1, height - 1)
    ensures EventsOk(ev1, height - 1)
  {
    TxKeepsScs(s.scs, created, scs1, tx, blockHash, height, maturity);
    TxKeepsMaturing(s, created, scs1, ev1, tx, blockHash, height, maturity);
    TxKeepsCeasing(s, created, scs1, ev1, tx, blockHash, height, maturity);
    EventsInFuture(scs1, ev1, height - 1, height, maturity);
  }

  lemma {:induction false} CertsOkWith(scs: ScMap, scs1: ScMap, coins: CoinMap, h: Hash, c: CCoins)
    requires CertsOk(scs, coins) && FreshHash(scs, h)
    requires forall id :: HasCert(scs1, id) ==> HasCert(scs, id) && scs1[id].lastCertHash == scs[id].lastCertHash
    ensures CertsOk(scs1, PutCoins(coins, h, c))
  {
    forall id | HasCert(scs1, id) && scs1[id].lastCertHash in PutCoins(coins, h, c)
      ensures PutCoins(coins, h, c)[scs1[id].lastCertHash] == coins[scs[id].lastCertHash]
    {
      assert HasCert(scs, id) && scs[id].lastCertHash != h;
    }
  }

  /** Adding the outputs of a transaction keeps the coins in order and touches no
      certificate on record. */
  lemma {:induction false} AddOutputsKeeps(scs: ScMap, scs1: ScMap, coins: CoinMap, tx: Tx, height: int)
    requires height != 0 && CoinsOk(coins) && CertsOk(scs, coins) && FreshHash(scs, tx.hash)
    requires forall id :: HasCert(scs1, id) ==> HasCert(scs, id) && scs1[id].lastCertHash == scs[id].lastCertHash
    ensures CoinsOk(PutCoins(coins, tx.hash, FromTx(tx, height)))
    ensures CertsOk(scs1, PutCoins(coins, tx.hash, FromTx(tx, height)))
  {
    SpendableTrimmed(tx.vout);
    PutCoinsKeeps(coins, tx.hash, FromTx(tx, height));
    CertsOkWith(scs, scs1, coins, tx.hash, FromTx(tx, height));
  }

  lemma {:induction false} AddTxCoinsKeeps(scs: ScMap, scs1: ScMap, coins: CoinMap, tx: Tx, height: int, r: CoinMap,
      undo: seq<TxInUndo>)
    requires height != 0 && CoinsOk(coins) && CertsOk(scs, coins) && FreshHash(scs, tx.hash)
    requires forall id :: HasCert(scs1, id) ==> HasCert(scs, id) && scs1[id].lastCertHash == scs[id].lastCertHash
    requires AddTxCoins(coins, tx, height) == Ok((r, undo))
    ensures CoinsOk(r) && CertsOk(scs1, r)
  {
    if tx.coinBase {
      AddOutputsKeeps(scs, scs1, coins, tx, height);
    } else {
      var spent := SpendInputs(coins, tx.vin).value.0;
      SpendInputsKeeps(coins, tx.vin);
      CertsOkShrink(scs, coins, spent);
      AddOutputsKeeps(scs, scs1, spent, tx, height);
    }
  }

  /** The certificates on record and the ceasing heights that `scs1` inherits from `scs`. */
  ghost predicate Inherits(scs: ScMap, scs1: ScMap) {
    && scs.Keys <= scs1.Keys
    && (forall id :: id in scs1 ==> scs1[id].lastCertHash == if id in scs then scs[id].lastCertHash else NULL_HASH)
    && (forall id :: id in scs ==>
      scs1[id].lastEpoch == scs[id].lastEpoch && CeasingHeight(scs1[id]) == CeasingHeight(scs[id]))
  }

  lemma {:induction false} ConnectTxKeeps(s: State, tx: Tx, blockHash: Hash, height: int, maturity: nat)
    requires height >= 1 && ValidTx(tx) && FreshHash(s.scs, tx.hash)
    requires Inv(s, height - 1, height, maturity)
    requires ConnectTx(s, tx, blockHash, height, maturity).Ok?
    ensures var s1 := ConnectTx(s, tx, blockHash, height, maturity).value.0;
      Inv(s1, height - 1, height, maturity) && Inherits(s.scs, s1.scs)
  {
    var c := AddTxCoins(s.coins, tx, height).value;
    if tx.coinBase {
      AddTxCoinsKeeps(s.scs, s.scs, s.coins, tx, height, c.0, c.1);
    } else {
      var r := ApplyScOutputs(s.scs, s.events, tx, blockHash, height, maturity).value;
      var created := ApplyScOutputsForm(s.scs, s.events, tx, blockHash, height, maturity);
      TxKeepsScheduling(s, created, r.0, r.1, tx, blockHash, height, maturity);
      TxInherits(s.scs, created, r.0, tx, blockHash, height, maturity);
      AddTxCoinsKeeps(s.scs, r.0, s.coins, tx, height, c.0, c.1);
    }
  }

  lemma {:induction false} TxInherits(scs: ScMap, created: ScMap, scs1: ScMap, tx: Tx, blockHash: Hash, height: int,
      maturity: nat)
    requires height >= 1 && ValidTx(tx) && ScsOk(scs, height - 1, height, maturity)
    requires ScsApplied(scs, created, scs1, tx, blockHash, height, maturity)
    ensures Inherits(scs, scs1)
    ensures forall id :: HasCert(scs1, id) ==> HasCert(scs, id) && scs1[id].lastCertHash == scs[id].lastCertHash
  {
    forall id | id in scs1
      ensures scs1[id].lastCertHash == if id in scs then scs[id].lastCertHash else NULL_HASH
      ensures if id in scs
              then scs1[id].lastEpoch == scs[id].lastEpoch && CeasingHeight(scs1[id]) == CeasingHeight(scs[id])
              else scs1[id].lastEpoch == EPOCH_NULL
    {
      TxSidechain(scs, created, scs1, tx, blockHash, height, maturity, id);
    }
  }

  // ---- Certificates ----

  function MovedCeasing(ev: EventMap, cur: int, step: int, id: ScId): EventMap {
    AddCeasing(DropCeasing(ev, cur, id), cur + step, id)
  }

  /** An applicable certificate finds its sidechain scheduled to cease: the failure
      "finds not prevCeasingHeight to remove" is unreachable. */
  lemma {:induction false} CertFindsCeasingRecord(s: State, cert: Cert, height: int, maturity: nat)
    requires Inv(s, height - 1, height, maturity) && CertApplicable(s, cert, height)
    ensures var sc := s.scs[cert.scId];
      && height < CeasingHeight(sc)
      && CeasingHeight(sc) == StartHeightForEpoch(sc, cert.epoch + 1) + SafeguardMargin(sc) + 1
      && cert.scId in At(s.events, CeasingHeight(sc)).ceasing
      && ScheduleCert(s.events, sc, cert) == Ok(MovedCeasing(s.events, CeasingHeight(sc), sc.epochLength, cert.scId))
  {
  }

  lemma {:induction false} CertMaturityIsSet(sc: CSidechain, height: int)
    requires Created(sc) && height >= sc.creationBlockHeight
    ensures CertMaturity(sc, height) > height >= 0
  {
    EpochBounds(sc, height);
  }

  /** The ceasing record of the certificate's sidechain moves by one epoch; no other does. */
  lemma {:induction false} CertKeepsCeasing(scs: ScMap, ev: EventMap, scs1: ScMap, ev1: EventMap, cert: Cert,
      cur: int, done: int)
    requires cert.scId in scs && Created(scs[cert.scId]) && scs[cert.scId].epochLength > 0
    requires cur == CeasingHeight(scs[cert.scId]) > done && cert.epoch == scs[cert.scId].lastEpoch + 1
    requires CeasingOk(scs, ev, done)
    requires scs1 == scs[cert.scId := WithCert(scs[cert.scId], cert)]
    requires ev1 == MovedCeasing(ev, cur, scs[cert.scId].epochLength, cert.scId)
    ensures CeasingOk(scs1, ev1, done)
  {
    CeasingHeightAfterCert(scs[cert.scId], scs1[cert.scId]);
    var mid := DropCeasing(ev, cur, cert.scId);
    forall k, id ensures id in At(ev1, k).ceasing <==> id in scs1 && k == CeasingHeight(scs1[id]) && k > done {
      assert id in At(ev, k).ceasing <==> id in scs && k == CeasingHeight(scs[id]) && k > done;
      assert id in At(mid, k).ceasing <==> id in At(ev, k).ceasing && id != cert.scId;
      assert id in At(ev1, k).ceasing <==>
        id in At(mid, k).ceasing || (id == cert.scId && k == cur + scs[cert.scId].epochLength);
    }
  }

  lemma {:induction false} CertKeepsMaturing(scs: ScMap, ev: EventMap, scs1: ScMap, ev1: EventMap, cert: Cert, cur: int)
    requires cert.scId in scs && MaturingOk(scs, ev) && NonNull(ev)
    requires scs1 == scs[cert.scId := WithCert(scs[cert.scId], cert)]
    requires ev1 == MovedCeasing(ev, cur, scs[cert.scId].epochLength, cert.scId)
    ensures MaturingOk(scs1, ev1) && NonNull(ev1)
  {
    forall k ensures At(ev1, k).maturing == At(ev, k).maturing {}
    forall k, id ensures id in At(ev1, k).maturing <==> id in scs1 && k in scs1[id].immature {
      assert id in At(ev, k).maturing <==> id in scs && k in scs[id].immature;
    }
  }

  lemma {:induction false} CertKeepsScheduling(s: State, scs1: ScMap, ev1: EventMap, cert: Cert, cur: int,
      height: int, maturity: nat)
    requires cert.hash != NULL_HASH && cert.scId in s.scs && Inv(s, height - 1, height, maturity)
    requires cert.epoch == s.scs[cert.scId].lastEpoch + 1 && BwtTotal(cert) <= s.scs[cert.scId].balance
    requires cur == CeasingHeight(s.scs[cert.scId]) > height
    requires scs1 == s.scs[cert.scId := WithCert(s.scs[cert.scId], cert)]
    requires ev1 == MovedCeasing(s.events, cur, s.scs[cert.scId].epochLength, cert.scId)
    ensures ScsOk(scs1, height - 1, height, maturity) && EventsOk(ev1, height - 1)
    ensures MaturingOk(scs1, ev1) && CeasingOk(scs1, ev1, height - 1)
  {
    assert ScOk(s.scs[cert.scId], height - 1, height, maturity);
    CertKeepsScs(s.scs, scs1, cert, height - 1, height, maturity);
    CertKeepsMaturing(s.scs, s.events, scs1, ev1, cert, cur);
    CertKeepsCeasing(s.scs, s.events, scs1, ev1, cert, cur, height - 1);
    EventsInFuture(scs1, ev1, height - 1, height, maturity);
  }

  lemma {:induction false} CertKeepsScs(scs: ScMap, scs1: ScMap, cert: Cert, done: int, cur: int, maturity: nat)
    requires cert.hash != NULL_HASH && cert.scId in scs && ScsOk(scs, done, cur, maturity)
    requires cert.epoch == scs[cert.scId].lastEpoch + 1 && BwtTotal(cert) <= scs[cert.scId].balance
    requires scs1 == scs[cert.scId := WithCert(scs[cert.scId], cert)]
    ensures ScsOk(scs1, done, cur, maturity)
  {
    assert ScOk(scs[cert.scId], done, cur, maturity);
    assert ScOk(WithCert(scs[cert.scId], cert), done, cur, maturity);
  }

  lemma {:induction false} CertKeepsCerts(scs: ScMap, scs1: ScMap, coins: CoinMap, cert: Cert, c: CCoins)
    requires cert.scId in scs && CertsOk(scs, coins) && FreshHash(scs, cert.hash)
    requires c.bwtMaturityHeight != 0 && c.firstBwtPos >= 0
    requires scs1 == scs[cert.scId := WithCert(scs[cert.scId], cert)]
    ensures CertsOk(scs1, PutCoins(coins, cert.hash, c))
  {
    var coins1 := PutCoins(coins, cert.hash, c);
    forall id | HasCert(scs1, id) && scs1[id].lastCertHash in coins1
      ensures coins1[scs1[id].lastCertHash].bwtMaturityHeight != 0 && coins1[scs1[id].lastCertHash].firstBwtPos >= 0
    {
      if id != cert.scId {
        assert HasCert(scs, id) && scs[id].lastCertHash != cert.hash;
      }
    }
    forall a, b | HasCert(scs1, a) && HasCert(scs1, b) && a != b
      ensures scs1[a].lastCertHash != scs1[b].lastCertHash
    {
      assert a != cert.scId ==> HasCert(scs, a);
      assert b != cert.scId ==> HasCert(scs, b);
    }
  }

  lemma {:induction false} ConnectCertKeeps(s: State, cert: Cert, height: int, maturity: nat)
    requires height >= 1 && FreshHash(s.scs, cert.hash)
    requires Inv(s, height - 1, height, maturity)
    requires ConnectCert(s, cert, height).Ok?
    ensures var s1 := ConnectCert(s, cert, height).value.0;
      && Inv(s1, height - 1, height, maturity)
      && s.scs.Keys == s1.scs.Keys
      && (forall id :: id in s.scs ==> s1.scs[id].lastCertHash in {s.scs[id].lastCertHash, cert.hash})
  {
    var s1 := ConnectCert(s, cert, height).value.0;
    var sc := s.scs[cert.scId];
    var spent := SpendInputs(s.coins, cert.vin).value.0;
    var c := FromCert(cert, height, CertMaturity(sc, height));
    SpendInputsKeeps(s.coins, cert.vin);
    CertsOkShrink(s.scs, s.coins, spent);
    SpendableTrimmed(cert.vout);
    PutCoinsKeeps(spent, cert.hash, c);
    CertMaturityIsSet(sc, height);
    CertFindsCeasingRecord(s, cert, height, maturity);
    CertKeepsScheduling(s, s1.scs, s1.events, cert, CeasingHeight(sc), height, maturity);
    CertKeepsCerts(s.scs, s1.scs, spent, cert, c);
  }

  // ---- Events of the block's height ----

  ghost function CertHashes(scs: ScMap, ids: seq<ScId>): set<Hash> {
    set i | 0 <= i < |ids| && HasCert(scs, ids[i]) :: scs[ids[i]].lastCertHash
  }

  /** The coins once the certificates `hs` are void. */
  ghost function VoidedAll(coins: CoinMap, hs: set<Hash>): CoinMap {
    map h | h in coins && !(h in hs && IsPruned(Voided(coins[h]))) ::
      if h in hs then Voided(coins[h]) else coins[h]
  }

  ghost function OutsOf(coins: CoinMap, scs: ScMap, id: ScId): seq<TxInUndo> {
    if HasCert(scs, id) && scs[id].lastCertHash in coins then VoidedOuts(coins[scs[id].lastCertHash]) else []
  }

  ghost predicate Distinct(ids: seq<ScId>) {
    forall i, j :: 0 <= i < j < |ids| ==> ids[i] != ids[j]
  }

  /** Certificates of ceasing sidechains whose null epochs have null hashes. */
  ghost predicate Voidable(scs: ScMap, coins: CoinMap, ids: seq<ScId>) {
    && CertsOk(scs, coins) && Distinct(ids)
    && forall i :: 0 <= i < |ids| ==>
         ids[i] in scs && (scs[ids[i]].lastEpoch == EPOCH_NULL ==> scs[ids[i]].lastCertHash == NULL_HASH)
  }

  lemma {:induction false} CertHashesSnoc(scs: ScMap, ids: seq<ScId>)
    requires ids != []
    ensures var n := |ids| - 1;
      CertHashes(scs, ids) == CertHashes(scs, ids[..n]) + (if HasCert(scs, ids[n]) then {scs[ids[n]].lastCertHash}
        else {})
  {
    var n := |ids| - 1;
    forall i | 0 <= i < n ensures ids[..n][i] == ids[i] {}
  }

  lemma {:induction false} CertHashFresh(scs: ScMap, coins: CoinMap, ids: seq<ScId>)
    requires ids != [] && Voidable(scs, coins, ids) && HasCert(scs, ids[|ids| - 1])
    ensures scs[ids[|ids| - 1]].lastCertHash !in CertHashes(scs, ids[..|ids| - 1])
  {
    var n := |ids| - 1;
    forall i | 0 <= i < n && HasCert(scs, ids[i]) ensures scs[ids[i]].lastCertHash != scs[ids[n]].lastCertHash {
      assert ids[i] != ids[n];
    }
  }

  lemma {:induction false} VoidCertsCoins(coins: CoinMap, scs: ScMap, ids: seq<ScId>)
    requires Voidable(scs, coins, ids)
    ensures VoidCerts(coins, scs, ids).Ok?
    ensures VoidCerts(coins, scs, ids).value.0 == VoidedAll(coins, CertHashes(scs, ids))
    decreases |ids|
  {
    if ids == [] {
      assert VoidedAll(coins, CertHashes(scs, ids)) == coins;
    } else {
      var n := |ids| - 1;
      VoidCertsCoins(coins, scs, ids[..n]);
      CertHashesSnoc(scs, ids);
      if HasCert(scs, ids[n]) {
        CertHashFresh(scs, coins, ids);
        VoidedOneMore(coins, CertHashes(scs, ids[..n]), scs[ids[n]].lastCertHash);
      }
    }
  }

  lemma {:induction false} VoidCertsUndo(coins: CoinMap, scs: ScMap, ids: seq<ScId>)
    requires Voidable(scs, coins, ids) && VoidCerts(coins, scs, ids).Ok?
    ensures var v := VoidCerts(coins, scs, ids).value.1;
      |v| == |ids| && forall i :: 0 <= i < |ids| ==> v[i] == VoidedCert(ids[i], OutsOf(coins, scs, ids[i]))
    decreases |ids|
  {
    if ids != [] {
      var n := |ids| - 1;
      VoidCertsUndo(coins, scs, ids[..n]);
      VoidCertsCoins(coins, scs, ids[..n]);
      if HasCert(scs, ids[n]) {
        CertHashFresh(scs, coins, ids);
        VoidedOneMore(coins, CertHashes(scs, ids[..n]), scs[ids[n]].lastCertHash);
      }
    }
  }

  lemma {:induction false} VoidedOneMore(coins: CoinMap, hs: set<Hash>, h: Hash)
    requires h !in hs
    ensures h !in coins ==> VoidedAll(coins, hs + {h}) == VoidedAll(coins, hs) && h !in VoidedAll(coins, hs)
    ensures h in coins ==> h in VoidedAll(coins, hs) && VoidedAll(coins, hs)[h] == coins[h]
    ensures h in coins ==> VoidedAll(coins, hs + {h}) == PutCoins(VoidedAll(coins, hs), h, Voided(coins[h]))
  {
  }

  /** Under the invariant the sidechains maturing at a height have an amount there. */
  lemma {:induction false} MaturingCanMature(s: State, height: int, maturity: nat)
    requires Inv(s, height - 1, height, maturity)
    ensures CanMature(s.scs, At(s.events, height).maturing, height)
  {
    forall id | id in At(s.events, height).maturing ensures id in s.scs && height in s.scs[id].immature {}
  }

  /** ... and the certificates of those ceasing can be voided: no assert of
      `HandleSidechainEvents` fires. */
  lemma {:induction false} CeasingVoidable(s: State, height: int, maturity: nat)
    requires Inv(s, height - 1, height, maturity)
    ensures CanMature(s.scs, At(s.events, height).maturing, height)
    ensures var e := At(s.events, height);
      Voidable(MatureAll(s.scs, e.maturing, height), s.coins, Ascending(e.ceasing))
  {
    MaturingCanMature(s, height, maturity);
    var e := At(s.events, height);
    var scs := MatureAll(s.scs, e.maturing, height);
    var ids := Ascending(e.ceasing);
    MaturedCertsOk(s.scs, scs, s.coins, e.maturing, height);
    forall i | 0 <= i < |ids|
      ensures ids[i] in scs && (scs[ids[i]].lastEpoch == EPOCH_NULL ==> scs[ids[i]].lastCertHash == NULL_HASH)
    {
      assert ids[i] in At(s.events, height).ceasing;
      assert ScOk(s.scs[ids[i]], height - 1, height, maturity);
    }
  }

  ghost function MaturedAmounts(s: State, height: int): map<ScId, int>
    requires CanMature(s.scs, At(s.events, height).maturing, height)
  {
    map id | id in At(s.events, height).maturing :: s.scs[id].immature[height]
  }

  lemma {:induction false} HandleEventsForm(s: State, height: int, maturity: nat, scs: ScMap, ids: seq<ScId>)
    requires Inv(s, height - 1, height, maturity)
    requires CanMature(s.scs, At(s.events, height).maturing, height)
    requires scs == MatureAll(s.scs, At(s.events, height).maturing, height)
    requires ids == Ascending(At(s.events, height).ceasing)
    ensures VoidCerts(s.coins, scs, ids).Ok?
    ensures HandleEvents(s, height) ==
      Ok((State(scs, s.events - {height}, VoidedAll(s.coins, CertHashes(scs, ids))),
          EventsUndo(MaturedAmounts(s, height), VoidCerts(s.coins, scs, ids).value.1)))
  {
    assert Voidable(scs, s.coins, ids) by { CeasingVoidable(s, height, maturity); }
    VoidCertsCoins(s.coins, scs, ids);
    HandleEventsUnfolds(s, height, scs, ids);
  }

  lemma {:induction false} HandleEventsUnfolds(s: State, height: int, scs: ScMap, ids: seq<ScId>)
    requires CanMature(s.scs, At(s.events, height).maturing, height)
    requires scs == MatureAll(s.scs, At(s.events, height).maturing, height)
    requires ids == Ascending(At(s.events, height).ceasing)
    requires VoidCerts(s.coins, scs, ids).Ok?
    ensures HandleEvents(s, height) ==
      Ok((State(scs, s.events - {height}, VoidCerts(s.coins, scs, ids).value.0),
          EventsUndo(MaturedAmounts(s, height), VoidCerts(s.coins, scs, ids).value.1)))
  {
    if height !in s.events {
      assert scs == s.scs && ids == [];
      assert s.events - {height} == s.events;
      assert MaturedAmounts(s, height) == map[];
    }
  }

  lemma {:induction false} VoidedKeepsCoins(coins: CoinMap, hs: set<Hash>)
    requires CoinsOk(coins)
    ensures CoinsOk(VoidedAll(coins, hs)) && Shrinks(coins, VoidedAll(coins, hs))
  {
    forall h | h in VoidedAll(coins, hs) ensures GoodCoins(VoidedAll(coins, hs)[h]) {
      var c := coins[h];
      if h in hs && 0 <= c.firstBwtPos < |c.vout| {
        TrimIsTrim(c.vout[..c.firstBwtPos]);
        TrimmedPrunedIsEmpty(Voided(c));
      }
    }
  }

  lemma {:induction false} HandleEventsKeeps(s: State, height: int, maturity: nat)
    requires Inv(s, height - 1, height, maturity)
    ensures HandleEvents(s, height).Ok?
    ensures var s1 := HandleEvents(s, height).value.0;
      Inv(s1, height, height, maturity) && s1.scs.Keys == s.scs.Keys && Inherits(s.scs, s1.scs)
  {
    hide Inv, HandleEvents, VoidedAll, CertHashes, VoidCerts;
    MaturingCanMature(s, height, maturity);
    var e := At(s.events, height);
    var scs, ids := MatureAll(s.scs, e.maturing, height), Ascending(e.ceasing);
    HandleEventsForm(s, height, maturity, scs, ids);
    HandledKeeps(s, height, maturity, scs, CertHashes(scs, ids));
  }

  lemma {:induction false} HandledKeeps(s: State, height: int, maturity: nat, scs: ScMap, hs: set<Hash>)
    requires Inv(s, height - 1, height, maturity)
    requires CanMature(s.scs, At(s.events, height).maturing, height)
    requires scs == MatureAll(s.scs, At(s.events, height).maturing, height)
    ensures Inv(State(scs, s.events - {height}, VoidedAll(s.coins, hs)), height, height, maturity)
    ensures Inherits(s.scs, scs)
  {
    hide CertsOk, CeasingOk, MaturingOk, EventsOk, ScsOk, CoinsOk, VoidedAll;
    MatureKeepsScheduling(s, scs, s.events - {height}, height, maturity);
    VoidedKeepsCoins(s.coins, hs);
    assert CertsOk(scs, VoidedAll(s.coins, hs)) by {
      MaturedCertsOk(s.scs, scs, s.coins, At(s.events, height).maturing, height);
      CertsOkShrink(scs, s.coins, VoidedAll(s.coins, hs));
    }
  }

  lemma {:induction false} CertsOkSame(scs: ScMap, scs1: ScMap, coins: CoinMap)
    requires CertsOk(scs, coins)
    requires forall id :: HasCert(scs1, id) ==> HasCert(scs, id) && scs1[id].lastCertHash == scs[id].lastCertHash
    ensures CertsOk(scs1, coins)
  {
  }

  lemma {:induction false} MaturedCertsOk(scs: ScMap, scs1: ScMap, coins: CoinMap, ids: set<ScId>, height: int)
    requires CertsOk(scs, coins) && CanMature(scs, ids, height) && scs1 == MatureAll(scs, ids, height)
    ensures CertsOk(scs1, coins)
  {
    forall id | HasCert(scs1, id) ensures HasCert(scs, id) && scs1[id].lastCertHash == scs[id].lastCertHash {
      assert scs1[id] == if id in ids then Matured(scs[id], height) else scs[id];
    }
    CertsOkSame(scs, scs1, coins);
  }

  lemma {:induction false} MatureKeepsScheduling(s: State, scs: ScMap, ev: EventMap, height: int, maturity: nat)
    requires Inv(s, height - 1, height, maturity)
    requires CanMature(s.scs, At(s.events, height).maturing, height)
    requires scs == MatureAll(s.scs, At(s.events, height).maturing, height)
    requires ev == s.events - {height}
    ensures ScsOk(scs, height, height, maturity) && EventsOk(ev, height)
    ensures MaturingOk(scs, ev) && CeasingOk(scs, ev, height)
  {
    MatureKeepsScs(s.scs, s.events, scs, height, maturity);
    MatureKeepsMaturing(s.scs, s.events, scs, ev, height);
    MatureKeepsCeasing(s.scs, s.events, scs, ev, height);
    EventsInFuture(scs, ev, height, height, maturity);
  }

  lemma {:induction false} MatureKeepsScs(scs: ScMap, ev: EventMap, scs1: ScMap, height: int, maturity: nat)
    requires ScsOk(scs, height - 1, height, maturity) && MaturingOk(scs, ev)
    requires CanMature(scs, At(ev, height).maturing, height)
    requires scs1 == MatureAll(scs, At(ev, height).maturing, height)
    ensures ScsOk(scs1, height, height, maturity)
  {
    forall id | id in scs1 ensures ScOk(scs1[id], height, height, maturity) {
      assert ScOk(scs[id], height - 1, height, maturity);
      assert id in At(ev, height).maturing <==> height in scs[id].immature;
    }
  }

  lemma {:induction false} MatureKeepsMaturing(scs: ScMap, ev: EventMap, scs1: ScMap, ev1: EventMap, height: int)
    requires MaturingOk(scs, ev) && CanMature(scs, At(ev, height).maturing, height)
    requires scs1 == MatureAll(scs, At(ev, height).maturing, height) && ev1 == ev - {height}
    ensures MaturingOk(scs1, ev1)
  {
    forall k, id ensures id in At(ev1, k).maturing <==> id in scs1 && k in scs1[id].immature {
      assert id in At(ev, k).maturing <==> id in scs && k in scs[id].immature;
      assert id in scs ==> (id in At(ev, height).maturing <==> height in scs[id].immature);
    }
  }

  lemma {:induction false} MatureKeepsCeasing(scs: ScMap, ev: EventMap, scs1: ScMap, ev1: EventMap, height: int)
    requires CeasingOk(scs, ev, height - 1) && CanMature(scs, At(ev, height).maturing, height)
    requires scs1 == MatureAll(scs, At(ev, height).maturing, height) && ev1 == ev - {height}
    ensures CeasingOk(scs1, ev1, height)
  {
    forall k, id ensures id in At(ev1, k).ceasing <==> id in scs1 && k == CeasingHeight(scs1[id]) && k > height {
      assert id in At(ev, k).ceasing <==> id in scs && k == CeasingHeight(scs[id]) && k > height - 1;
      assert id in scs ==> CeasingHeight(scs1[id]) == CeasingHeight(scs[id]);
    }
  }
}
