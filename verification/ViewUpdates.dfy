/** The operations of `CCoinsViewCache` on sidechains, scheduled events and coins
    (src/coins.cpp), each shown to do to the view of a cache what the functions of `Ledger`
    do to plain maps. */
module ViewUpdates {
  import opened Results
  import opened Coins
  import opened Sidechain
  import opened Ledger
  import opened CacheLayer
  import opened CoinsViews

  // ---- Creations and forward transfers ----

  /** One turn of the creation loop of `UpdateScInfo`. */
  method CreateSidechain(v: CoinsViewCache, cr: CreationOut, txHash: Hash, blockHash: Hash, height: int, maturity: nat)
    returns (ok: bool)
    requires v.Ready() && v.Growing()
    modifies v.Chain`cacheCoins, v.Chain`cacheScs, v.Chain`cacheEvents, v.Chain`view
    ensures v.Ready() && v.Growing() && v.Below() == old(v.Below())
    ensures ok <==> cr.scId !in old(v.view).scs
    ensures ok ==>
      v.view == old(v.view).(scs := old(v.view).scs[cr.scId := NewSidechain(cr, txHash, blockHash, height, maturity)])
  {
    hide CoinsViewCache.Valid, CoinsViewCache.FlushOk, TidyEvents;
    var found := v.GetSidechain(cr.scId);
    if found.Some? {
      return false;
    }
    assert cr.scId !in v.Below().scs;
    var e := v.ModifySidechain(cr.scId);
    ghost var mid := v.view;
    assert e.value.balance == 0 && e.value.immature == map[];
    var sc := e.value.(
      creationBlockHash := blockHash, creationBlockHeight := height, creationTxHash := txHash,
      lastEpoch := EPOCH_NULL, lastCertHash := NULL_HASH, epochLength := cr.epochLength, data := cr.data,
      immature := e.value.immature[height + maturity := cr.value]);
    assert sc == NewSidechain(cr, txHash, blockHash, height, maturity);
    assert mid.scs[cr.scId := sc] == old(v.view).scs[cr.scId := sc];
    v.StoreSidechain(cr.scId, Entry(sc, Fresh));
    ok := true;
  }

  /** `HaveSidechain`, `ModifySidechain` and an assignment that keeps a fresh entry fresh
      when `keepFresh` is set. */
  method ChangeSidechain(v: CoinsViewCache, id: ScId, sc: CSidechain, keepFresh: bool)
    requires v.Ready() && id in v.view.scs
    modifies v.Chain`cacheCoins, v.Chain`cacheScs, v.Chain`cacheEvents, v.Chain`view
    ensures v.Ready() && v.Below() == old(v.Below()) && (old(v.Growing()) ==> v.Growing())
    ensures v.view == old(v.view).(scs := old(v.view).scs[id := sc])
  {
    hide CoinsViewCache.Valid, CoinsViewCache.FlushOk, TidyEvents;
    var e := v.ModifySidechain(id);
    v.StoreSidechain(id, Entry(sc, if e.flag.Fresh? && keepFresh then Fresh else Dirty));
  }

  /** The creation loop of `UpdateScInfo`. */
  method CreateAll(v: CoinsViewCache, crs: seq<CreationOut>, txHash: Hash, blockHash: Hash, height: int, maturity: nat)
    returns (ok: bool)
    requires v.Ready() && v.Growing()
    modifies v.Chain`cacheCoins, v.Chain`cacheScs, v.Chain`cacheEvents, v.Chain`view
    ensures v.Ready() && v.Growing() && v.Below() == old(v.Below())
    ensures var r := AddCreations(old(v.view).scs, crs, txHash, blockHash, height, maturity);
      (ok <==> r.Ok?) && (ok ==> v.view == old(v.view).(scs := r.value))
  {
    hide CoinsViewCache.Valid, CoinsViewCache.FlushOk, TidyEvents;
    ghost var r := AddCreations(v.view.scs, crs, txHash, blockHash, height, maturity);
    for i := 0 to |crs|
      invariant v.Ready() && v.Growing() && v.Below() == old(v.Below())
      invariant v.view == old(v.view).(scs := v.view.scs)
      invariant AddCreations(v.view.scs, crs[i..], txHash, blockHash, height, maturity) == r
    {
      assert crs[i..][0] == crs[i] && crs[i..][1..] == crs[i + 1..];
      ok := CreateSidechain(v, crs[i], txHash, blockHash, height, maturity);
      if !ok {
        return;
      }
    }
    ok := true;
  }

  /** The forward transfer loop of `UpdateScInfo`. */
  method ForwardAll(v: CoinsViewCache, fts: seq<ForwardOut>, k: int) returns (ok: bool)
    requires v.Ready()
    modifies v.Chain`cacheCoins, v.Chain`cacheScs, v.Chain`cacheEvents, v.Chain`view
    ensures v.Ready() && v.Below() == old(v.Below()) && (old(v.Growing()) ==> v.Growing())
    ensures var r := AddForwards(old(v.view).scs, fts, k);
      (ok <==> r.Ok?) && (ok ==> v.view == old(v.view).(scs := r.value))
  {
    hide CoinsViewCache.Valid, CoinsViewCache.FlushOk, TidyEvents;
    ghost var r := AddForwards(v.view.scs, fts, k);
    for i := 0 to |fts|
      invariant v.Ready() && v.Below() == old(v.Below()) && (old(v.Growing()) ==> v.Growing())
      invariant v.view == old(v.view).(scs := v.view.scs)
      invariant AddForwards(v.view.scs, fts[i..], k) == r
    {
      assert fts[i..][0] == fts[i] && fts[i..][1..] == fts[i + 1..];
      var found := v.GetSidechain(fts[i].scId);
      if found.None? {
        return false;
      }
      ChangeSidechain(v, fts[i].scId, Bump(found.value, k, fts[i].value), true);
    }
    ok := true;
  }

  /** `UpdateScInfo` for a transaction. */
  method UpdateScInfo(v: CoinsViewCache, tx: Tx, blockHash: Hash, height: int, maturity: nat) returns (ok: bool)
    requires v.Ready() && v.Growing()
    modifies v.Chain`cacheCoins, v.Chain`cacheScs, v.Chain`cacheEvents, v.Chain`view
    ensures v.Ready() && v.Growing() && v.Below() == old(v.Below())
    ensures var c := AddCreations(old(v.view).scs, tx.creations, tx.hash, blockHash, height, maturity);
      && (ok <==> c.Ok? && AddForwards(c.value, tx.forwards, height + maturity).Ok?)
      && (ok ==> v.view == old(v.view).(scs := AddForwards(c.value, tx.forwards, height + maturity).value))
  {
    hide CoinsViewCache.Valid, CoinsViewCache.FlushOk, TidyEvents;
    ok := CreateAll(v, tx.creations, tx.hash, blockHash, height, maturity);
    if ok {
      ok := ForwardAll(v, tx.forwards, height + maturity);
    }
  }

  /** The forward transfer loop of `RevertTxOutputs`. */
  method RevertForwardsOf(v: CoinsViewCache, fts: seq<ForwardOut>, k: int) returns (ok: bool)
    requires v.Ready()
    modifies v.Chain`cacheCoins, v.Chain`cacheScs, v.Chain`cacheEvents, v.Chain`view
    ensures v.Ready() && v.Below() == old(v.Below())
    ensures var r := RevertForwards(old(v.view).scs, fts, k);
      (ok <==> r.Ok?) && (ok ==> v.view == old(v.view).(scs := r.value))
  {
    hide CoinsViewCache.Valid, CoinsViewCache.FlushOk, TidyEvents;
    ghost var r := RevertForwards(v.view.scs, fts, k);
    for i := 0 to |fts|
      invariant v.Ready() && v.Below() == old(v.Below())
      invariant v.view == old(v.view).(scs := v.view.scs)
      invariant RevertForwards(v.view.scs, fts[i..], k) == r
    {
      assert fts[i..][0] == fts[i] && fts[i..][1..] == fts[i + 1..];
      var found := v.GetSidechain(fts[i].scId);
      if found.None? {
        return false;
      }
      var sc := Decrement(found.value, k, fts[i].value);
      if sc.Err? {
        return false;
      }
      ChangeSidechain(v, fts[i].scId, sc.value, false);
    }
    ok := true;
  }

  /** The entry of a sidechain whose creation is reverted. */
  method EraseSidechain(v: CoinsViewCache, id: ScId, sc: CSidechain)
    requires v.Ready() && id in v.view.scs
    modifies v.Chain`cacheCoins, v.Chain`cacheScs, v.Chain`cacheEvents, v.Chain`view
    ensures v.Ready() && v.Below() == old(v.Below())
    ensures v.view == old(v.view).(scs := old(v.view).scs - {id})
  {
    hide CoinsViewCache.Valid, CoinsViewCache.FlushOk, TidyEvents;
    var _ := v.ModifySidechain(id);
    v.StoreSidechain(id, Entry(sc, Erased));
  }

  /** Reverting the creation of a sidechain that the base shows and creating it again in the same cache gives an entry
      that is fresh, though the base has it: the assert of `BatchWrite` (src/coins.cpp:587-590) fires. */
  method RecreatedCannotFlush(v: CoinsViewCache, id: ScId, erased: CSidechain, again: CSidechain) returns (ok: bool)
    requires v.Ready() && v.base != null && id in v.view.scs && id in v.Below().scs
    modifies v.Chain`cacheCoins, v.Chain`cacheScs, v.Chain`cacheEvents, v.Chain`view, v.db
    ensures !ok
  {
    hide CoinsViewCache.Valid, TidyEvents;
    EraseSidechain(v, id, erased);
    var _ := v.ModifySidechain(id);
    v.StoreSidechain(id, Entry(again, Fresh));
    assert v.cacheScs[id].flag.Fresh? && id in v.Below().scs;
    assert !v.FlushOk();
    ok := v.Flush();
  }

  /** The creation loop of `RevertTxOutputs`. */
  method RevertCreationsOf(v: CoinsViewCache, crs: seq<CreationOut>, k: int) returns (ok: bool)
    requires v.Ready()
    modifies v.Chain`cacheCoins, v.Chain`cacheScs, v.Chain`cacheEvents, v.Chain`view
    ensures v.Ready() && v.Below() == old(v.Below())
    ensures var r := RevertCreations(old(v.view).scs, crs, k);
      (ok <==> r.Ok?) && (ok ==> v.view == old(v.view).(scs := r.value))
  {
    hide CoinsViewCache.Valid, CoinsViewCache.FlushOk, TidyEvents;
    ghost var r := RevertCreations(v.view.scs, crs, k);
    for i := 0 to |crs|
      invariant v.Ready() && v.Below() == old(v.Below())
      invariant v.view == old(v.view).(scs := v.view.scs)
      invariant RevertCreations(v.view.scs, crs[i..], k) == r
    {
      assert crs[i..][0] == crs[i] && crs[i..][1..] == crs[i + 1..];
      var found := v.GetSidechain(crs[i].scId);
      if found.None? {
        return false;
      }
      var sc := Decrement(found.value, k, crs[i].value);
      if sc.Err? || sc.value.balance > 0 {
        return false;
      }
      EraseSidechain(v, crs[i].scId, sc.value);
    }
    ok := true;
  }

  /** `RevertTxOutputs`. */
  method RevertTxOutputs(v: CoinsViewCache, tx: Tx, height: int, maturity: nat) returns (ok: bool)
    requires v.Ready()
    modifies v.Chain`cacheCoins, v.Chain`cacheScs, v.Chain`cacheEvents, v.Chain`view
    ensures v.Ready() && v.Below() == old(v.Below())
    ensures var c := RevertForwards(old(v.view).scs, tx.forwards, height + maturity);
      && (ok <==> c.Ok? && RevertCreations(c.value, tx.creations, height + maturity).Ok?)
      && (ok ==> v.view == old(v.view).(scs := RevertCreations(c.value, tx.creations, height + maturity).value))
  {
    hide CoinsViewCache.Valid, CoinsViewCache.FlushOk, TidyEvents;
    ok := RevertForwardsOf(v, tx.forwards, height + maturity);
    if ok {
      ok := RevertCreationsOf(v, tx.creations, height + maturity);
    }
  }

  // ---- Scheduled events ----

  /** Opens the record of height `k` and adds to it. */
  method ScheduleAt(v: CoinsViewCache, k: int, ceasing: set<ScId>, maturing: set<ScId>)
    requires v.Ready() && ceasing + maturing != {}
    modifies v.Chain`cacheCoins, v.Chain`cacheScs, v.Chain`cacheEvents, v.Chain`view
    ensures v.Ready() && v.Below() == old(v.Below()) && (old(v.Growing()) ==> v.Growing())
    ensures var r := At(old(v.view).events, k);
      v.view == old(v.view).(events := old(v.view).events[k := ScEvents(r.ceasing + ceasing, r.maturing + maturing)])
  {
    hide CoinsViewCache.Valid, CoinsViewCache.FlushOk;
    var e := v.ModifySidechainEvents(k);
    ghost var mid := v.view;
    var r := ScEvents(e.value.ceasing + ceasing, e.value.maturing + maturing);
    assert e.value == At(old(v.view).events, k);
    assert mid.events[k := r] == old(v.view).events[k := r];
    v.StoreSidechainEvents(k, Entry(r, if e.flag.Fresh? then Fresh else Dirty));
  }

  /** Takes from the record of height `k`, erasing it when nothing is left. */
  method CancelAt(v: CoinsViewCache, k: int, ceasing: set<ScId>, maturing: set<ScId>)
    requires v.Ready() && k in v.view.events
    modifies v.Chain`cacheCoins, v.Chain`cacheScs, v.Chain`cacheEvents, v.Chain`view
    ensures v.Ready() && v.Below() == old(v.Below()) && (old(v.Growing()) ==> v.Growing())
    ensures var r := old(v.view).events[k];
      v.view == old(v.view).(events := Put(old(v.view).events, k, ScEvents(r.ceasing - ceasing, r.maturing - maturing)))
  {
    hide CoinsViewCache.Valid, CoinsViewCache.FlushOk, TidyEvents;
    var e := v.ModifySidechainEvents(k);
    var r := ScEvents(e.value.ceasing - ceasing, e.value.maturing - maturing);
    v.StoreSidechainEvents(k, Entry(r, if r.IsNull() then Erased else Dirty));
  }

  method ScheduleMaturing(v: CoinsViewCache, k: int, id: ScId)
    requires v.Ready()
    modifies v.Chain`cacheCoins, v.Chain`cacheScs, v.Chain`cacheEvents, v.Chain`view
    ensures v.Ready() && v.Below() == old(v.Below()) && (old(v.Growing()) ==> v.Growing())
    ensures v.view == old(v.view).(events := AddMaturing(old(v.view).events, k, id))
  {
    hide CoinsViewCache.Valid, CoinsViewCache.FlushOk, TidyEvents;
    ScheduleAt(v, k, {}, {id});
    ghost var r := At(old(v.view).events, k);
    assert ScEvents(r.ceasing + {}, r.maturing + {id}) == r.(maturing := r.maturing + {id});
  }

  method ScheduleCeasing(v: CoinsViewCache, k: int, id: ScId)
    requires v.Ready()
    modifies v.Chain`cacheCoins, v.Chain`cacheScs, v.Chain`cacheEvents, v.Chain`view
    ensures v.Ready() && v.Below() == old(v.Below()) && (old(v.Growing()) ==> v.Growing())
    ensures v.view == old(v.view).(events := AddCeasing(old(v.view).events, k, id))
  {
    hide CoinsViewCache.Valid, CoinsViewCache.FlushOk, TidyEvents;
    ScheduleAt(v, k, {id}, {});
    ghost var r := At(old(v.view).events, k);
    assert ScEvents(r.ceasing + {id}, r.maturing + {}) == r.(ceasing := r.ceasing + {id});
  }

  /** Cancelling a maturing amount is not an error when the record is already gone. */
  method CancelMaturing(v: CoinsViewCache, k: int, id: ScId)
    requires v.Ready()
    modifies v.Chain`cacheCoins, v.Chain`cacheScs, v.Chain`cacheEvents, v.Chain`view
    ensures v.Ready() && v.Below() == old(v.Below()) && (old(v.Growing()) ==> v.Growing())
    ensures v.view == old(v.view).(events := DropMaturing(old(v.view).events, k, id))
  {
    hide CoinsViewCache.Valid, CoinsViewCache.FlushOk, TidyEvents;
    var found := v.GetSidechainEvents(k);
    if found.None? {
      assert v.view.events - {k} == v.view.events;
      return;
    }
    CancelAt(v, k, {}, {id});
    ghost var r := old(v.view).events[k];
    assert ScEvents(r.ceasing - {}, r.maturing - {id}) == r.(maturing := r.maturing - {id});
  }

  method CancelCeasing(v: CoinsViewCache, k: int, id: ScId) returns (ok: bool)
    requires v.Ready()
    modifies v.Chain`cacheCoins, v.Chain`cacheScs, v.Chain`cacheEvents, v.Chain`view
    ensures v.Ready() && v.Below() == old(v.Below()) && (old(v.Growing()) ==> v.Growing())
    ensures ok <==> k in old(v.view).events
    ensures ok ==> v.view == old(v.view).(events := DropCeasing(old(v.view).events, k, id))
  {
    hide CoinsViewCache.Valid, CoinsViewCache.FlushOk, TidyEvents;
    var found := v.GetSidechainEvents(k);
    if found.None? {
      return false;
    }
    CancelAt(v, k, {id}, {});
    ghost var r := old(v.view).events[k];
    assert ScEvents(r.ceasing - {id}, r.maturing - {}) == r.(ceasing := r.ceasing - {id});
    ok := true;
  }

  /** `ScheduleSidechainEvent` for every creation of a transaction. */
  method ScheduleCreationsOf(v: CoinsViewCache, crs: seq<CreationOut>, k: int) returns (ok: bool)
    requires v.Ready()
    modifies v.Chain`cacheCoins, v.Chain`cacheScs, v.Chain`cacheEvents, v.Chain`view
    ensures v.Ready() && v.Below() == old(v.Below()) && (old(v.Growing()) ==> v.Growing())
    ensures var r := ScheduleCreations(old(v.view).events, old(v.view).scs, crs, k);
      (ok <==> r.Ok?) && (ok ==> v.view == old(v.view).(events := r.value))
  {
    hide CoinsViewCache.Valid, CoinsViewCache.FlushOk, TidyEvents;
    hide AddMaturing, AddCeasing, FirstCeasingHeight;
    ghost var r := ScheduleCreations(v.view.events, v.view.scs, crs, k);
    for i := 0 to |crs|
      invariant v.Ready() && v.Below() == old(v.Below()) && (old(v.Growing()) ==> v.Growing())
      invariant v.view == old(v.view).(events := v.view.events)
      invariant ScheduleCreations(v.view.events, v.view.scs, crs[i..], k) == r
    {
      assert crs[i..][0] == crs[i] && crs[i..][1..] == crs[i + 1..];
      var found := v.GetSidechain(crs[i].scId);
      if found.None? {
        return false;
      }
      ScheduleMaturing(v, k, crs[i].scId);
      ScheduleCeasing(v, FirstCeasingHeight(found.value), crs[i].scId);
    }
    ok := true;
  }

  /** `ScheduleSidechainEvent` for every forward transfer of a transaction. */
  method ScheduleForwardsOf(v: CoinsViewCache, fts: seq<ForwardOut>, k: int) returns (ok: bool)
    requires v.Ready()
    modifies v.Chain`cacheCoins, v.Chain`cacheScs, v.Chain`cacheEvents, v.Chain`view
    ensures v.Ready() && v.Below() == old(v.Below()) && (old(v.Growing()) ==> v.Growing())
    ensures var r := ScheduleForwards(old(v.view).events, old(v.view).scs, fts, k);
      (ok <==> r.Ok?) && (ok ==> v.view == old(v.view).(events := r.value))
  {
    hide CoinsViewCache.Valid, CoinsViewCache.FlushOk, TidyEvents;
    hide AddMaturing;
    ghost var r := ScheduleForwards(v.view.events, v.view.scs, fts, k);
    for i := 0 to |fts|
      invariant v.Ready() && v.Below() == old(v.Below()) && (old(v.Growing()) ==> v.Growing())
      invariant v.view == old(v.view).(events := v.view.events)
      invariant ScheduleForwards(v.view.events, v.view.scs, fts[i..], k) == r
    {
      assert fts[i..][0] == fts[i] && fts[i..][1..] == fts[i + 1..];
      var found := v.GetSidechain(fts[i].scId);
      if found.None? {
        return false;
      }
      ScheduleMaturing(v, k, fts[i].scId);
    }
    ok := true;
  }

  /** `CancelSidechainEvent` for every forward transfer of a transaction. */
  method CancelForwardsOf(v: CoinsViewCache, fts: seq<ForwardOut>, k: int)
    requires v.Ready()
    modifies v.Chain`cacheCoins, v.Chain`cacheScs, v.Chain`cacheEvents, v.Chain`view
    ensures v.Ready() && v.Below() == old(v.Below()) && (old(v.Growing()) ==> v.Growing())
    ensures v.view == old(v.view).(events := CancelForwards(old(v.view).events, fts, k))
  {
    hide CoinsViewCache.Valid, CoinsViewCache.FlushOk, TidyEvents;
    hide DropMaturing;
    ghost var r := CancelForwards(v.view.events, fts, k);
    for i := 0 to |fts|
      invariant v.Ready() && v.Below() == old(v.Below()) && (old(v.Growing()) ==> v.Growing())
      invariant v.view == old(v.view).(events := v.view.events)
      invariant CancelForwards(v.view.events, fts[i..], k) == r
    {
      assert fts[i..][0] == fts[i] && fts[i..][1..] == fts[i + 1..];
      CancelMaturing(v, k, fts[i].scId);
    }
  }

  /** `CancelSidechainEvent` for every creation of a transaction. */
  method CancelCreationsOf(v: CoinsViewCache, crs: seq<CreationOut>, k: int) returns (ok: bool)
    requires v.Ready()
    modifies v.Chain`cacheCoins, v.Chain`cacheScs, v.Chain`cacheEvents, v.Chain`view
    ensures v.Ready() && v.Below() == old(v.Below()) && (old(v.Growing()) ==> v.Growing())
    ensures var r := CancelCreations(old(v.view).events, old(v.view).scs, crs, k);
      (ok <==> r.Ok?) && (ok ==> v.view == old(v.view).(events := r.value))
  {
    hide CoinsViewCache.Valid, CoinsViewCache.FlushOk, TidyEvents;
    hide DropMaturing, DropCeasing, FirstCeasingHeight;
    ghost var r := CancelCreations(v.view.events, v.view.scs, crs, k);
    for i := 0 to |crs|
      invariant v.Ready() && v.Below() == old(v.Below()) && (old(v.Growing()) ==> v.Growing())
      invariant v.view == old(v.view).(events := v.view.events)
      invariant CancelCreations(v.view.events, v.view.scs, crs[i..], k) == r
    {
      assert crs[i..][0] == crs[i] && crs[i..][1..] == crs[i + 1..];
      var found := v.GetSidechain(crs[i].scId);
      if found.None? {
        return false;
      }
      CancelMaturing(v, k, crs[i].scId);
      ok := CancelCeasing(v, FirstCeasingHeight(found.value), crs[i].scId);
      if !ok {
        return;
      }
    }
    ok := true;
  }

  // ---- Certificates ----

  /** `UpdateScInfo` for a certificate; the result is what the undo record keeps. */
  method UpdateScInfoCert(v: CoinsViewCache, cert: Cert) returns (r: Result<(int, Hash)>)
    requires v.Ready()
    modifies v.Chain`cacheCoins, v.Chain`cacheScs, v.Chain`cacheEvents, v.Chain`view
    ensures v.Ready() && v.Below() == old(v.Below()) && (old(v.Growing()) ==> v.Growing())
    ensures r.Ok? <==> cert.scId in old(v.view).scs && old(v.view).scs[cert.scId].balance >= BwtTotal(cert)
    ensures r.Ok? ==>
      var sc := old(v.view).scs[cert.scId];
      r.value == (sc.lastEpoch, sc.lastCertHash)
        && v.view == old(v.view).(scs := old(v.view).scs[cert.scId := WithCert(sc, cert)])
  {
    hide CoinsViewCache.Valid, CoinsViewCache.FlushOk, TidyEvents;
    hide BwtTotal;
    var found := v.GetSidechain(cert.scId);
    if found.None? || found.value.balance < BwtTotal(cert) {
      return Err;
    }
    ChangeSidechain(v, cert.scId, WithCert(found.value, cert), false);
    r := Ok((found.value.lastEpoch, found.value.lastCertHash));
  }

  /** `RevertCertOutputs`. */
  method RevertCertOutputs(v: CoinsViewCache, cert: Cert, undo: TxUndo) returns (ok: bool)
    requires v.Ready()
    modifies v.Chain`cacheCoins, v.Chain`cacheScs, v.Chain`cacheEvents, v.Chain`view
    ensures v.Ready() && v.Below() == old(v.Below()) && (old(v.Growing()) ==> v.Growing())
    ensures ok <==> cert.scId in old(v.view).scs
    ensures ok ==>
      v.view == old(v.view).(scs := old(v.view).scs[cert.scId := WithoutCert(old(v.view).scs[cert.scId], cert, undo)])
  {
    hide CoinsViewCache.Valid, CoinsViewCache.FlushOk, TidyEvents;
    hide BwtTotal;
    var found := v.GetSidechain(cert.scId);
    if found.None? {
      return false;
    }
    ChangeSidechain(v, cert.scId, WithoutCert(found.value, cert, undo), false);
    ok := true;
  }

  /** `ScheduleSidechainEvent` for a certificate. */
  method ScheduleCertEvent(v: CoinsViewCache, cert: Cert) returns (ok: bool)
    requires v.Ready()
    modifies v.Chain`cacheCoins, v.Chain`cacheScs, v.Chain`cacheEvents, v.Chain`view
    ensures v.Ready() && v.Below() == old(v.Below()) && (old(v.Growing()) ==> v.Growing())
    ensures ok <==>
      cert.scId in old(v.view).scs && ScheduleCert(old(v.view).events, old(v.view).scs[cert.scId], cert).Ok?
    ensures ok ==>
      v.view == old(v.view).(events := ScheduleCert(old(v.view).events, old(v.view).scs[cert.scId], cert).value)
  {
    hide CoinsViewCache.Valid, CoinsViewCache.FlushOk, TidyEvents;
    hide DropCeasing, AddCeasing, StartHeightForEpoch, SafeguardMargin;
    var found := v.GetSidechain(cert.scId);
    if found.None? {
      return false;
    }
    var cur := StartHeightForEpoch(found.value, cert.epoch + 1) + SafeguardMargin(found.value) + 1;
    ok := CancelCeasing(v, cur, cert.scId);
    if ok {
      ScheduleCeasing(v, cur + found.value.epochLength, cert.scId);
    }
  }

  /** `CancelSidechainEvent` for a certificate. */
  method CancelCertEvent(v: CoinsViewCache, cert: Cert) returns (ok: bool)
    requires v.Ready()
    modifies v.Chain`cacheCoins, v.Chain`cacheScs, v.Chain`cacheEvents, v.Chain`view
    ensures v.Ready() && v.Below() == old(v.Below()) && (old(v.Growing()) ==> v.Growing())
    ensures ok <==> cert.scId in old(v.view).scs && CancelCert(old(v.view).events, old(v.view).scs[cert.scId], cert).Ok?
    ensures ok ==>
      v.view == old(v.view).(events := CancelCert(old(v.view).events, old(v.view).scs[cert.scId], cert).value)
  {
    hide CoinsViewCache.Valid, CoinsViewCache.FlushOk, TidyEvents;
    hide DropCeasing, AddCeasing, StartHeightForEpoch, SafeguardMargin;
    var found := v.GetSidechain(cert.scId);
    if found.None? {
      return false;
    }
    var cur := StartHeightForEpoch(found.value, cert.epoch + 2) + SafeguardMargin(found.value) + 1;
    ok := CancelCeasing(v, cur, cert.scId);
    if ok {
      ScheduleCeasing(v, cur - found.value.epochLength, cert.scId);
    }
  }
}
