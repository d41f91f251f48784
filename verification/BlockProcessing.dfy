/** `ConnectBlock` and `DisconnectBlock` (src/main.cpp) over a cache, down to the tip cache
    they are flushed into: the cached node does what the plain-map ledger does. */
module BlockProcessing {
  import opened Results
  import opened Coins
  import opened Sidechain
  import opened Ledger
  import opened Ordering
  import opened CacheLayer
  import opened CoinsViews
  import opened ViewUpdates
  import opened LedgerTheorems

  // ---- Coins ----

  /** One turn of the spending loop of `UpdateCoins`. */
  method SpendCoin(v: CoinsViewCache, o: OutPoint) returns (r: Result<TxInUndo>)
    requires v.Ready()
    modifies v.Chain`cacheCoins, v.Chain`cacheScs, v.Chain`cacheEvents, v.Chain`view, v`hasModifier
    ensures v.Ready() && v.Below() == old(v.Below()) && (old(v.Growing()) ==> v.Growing())
    ensures var s := SpendOne(old(v.view).coins, o);
      && (r.Ok? <==> s.Ok?)
      && (r.Ok? ==> v.view == old(v.view).(coins := s.value.0) && r.value == s.value.1)
  {
    hide CoinsViewCache.Valid, CoinsViewCache.FlushOk, TidyEvents;
    var c := v.ModifyCoins(o.hash);
    if !IsAvailable(c, o.n) {
      ReleaseUnchanged(v, o.hash, c);
      return Err;
    }
    assert o.hash in v.view.coins;
    var d := Spend(c, o.n);
    TrimIsTrim(c.vout[o.n := Spent]);
    CleanupTrimmed(d);
    v.ReleaseModifier(o.hash, d);
    r := Ok(MakeUndo(c.vout[o.n], d));
  }

  /** A modifier that goes out of scope with nothing changed. */
  method ReleaseUnchanged(v: CoinsViewCache, h: Hash, c: CCoins)
    requires v.Valid() && v.FlushOk() && TidyEvents(v.cacheEvents)
    requires v.hasModifier && h in v.cacheCoins && v.cacheCoins[h].dirty && SameCoins(c, v.view.coins, h)
      && Trimmed(c.vout)
    modifies v`cacheCoins, v`cacheScs, v`cacheEvents, v`view, v`hasModifier
    ensures v.Ready() && v.Below() == old(v.Below()) && (old(v.Growing()) ==> v.Growing())
    ensures v.view == old(v.view)
  {
    CleanupTrimmed(c);
    v.ViewGood();
    assert PutCoins(v.view.coins, h, c) == v.view.coins;
    hide CoinsViewCache.Valid, CoinsViewCache.FlushOk, TidyEvents;
    v.ReleaseModifier(h, c);
  }

  method SpendAll(v: CoinsViewCache, vin: seq<OutPoint>) returns (r: Result<seq<TxInUndo>>)
    requires v.Ready()
    modifies v.Chain`cacheCoins, v.Chain`cacheScs, v.Chain`cacheEvents, v.Chain`view, v`hasModifier
    ensures v.Ready() && v.Below() == old(v.Below()) && (old(v.Growing()) ==> v.Growing())
    ensures var s := SpendInputs(old(v.view).coins, vin);
      && (r.Ok? <==> s.Ok?)
      && (r.Ok? ==> v.view == old(v.view).(coins := s.value.0) && r.value == s.value.1)
  {
    hide CoinsViewCache.Valid, CoinsViewCache.FlushOk, TidyEvents;
    hide SpendOne;
    var undos := [];
    for i := 0 to |vin|
      invariant v.Ready() && v.Below() == old(v.Below()) && (old(v.Growing()) ==> v.Growing())
      invariant v.view == old(v.view).(coins := v.view.coins)
      invariant SpendInputs(old(v.view).coins, vin[..i]) == Ok((v.view.coins, undos))
    {
      assert vin[..i + 1][..i] == vin[..i];
      var u := SpendCoin(v, vin[i]);
      if u.Err? {
        SpendInputsFails(old(v.view).coins, vin, i + 1);
        return Err;
      }
      undos := undos + [u.value];
    }
    assert vin[..|vin|] == vin;
    r := Ok(undos);
  }

  lemma {:induction false} SpendInputsFails(coins: CoinMap, vin: seq<OutPoint>, i: nat)
    requires i <= |vin| && SpendInputs(coins, vin[..i]).Err?
    ensures SpendInputs(coins, vin).Err?
    decreases |vin|
  {
    if i < |vin| {
      var n := |vin| - 1;
      assert vin[..n][..i] == vin[..i];
      SpendInputsFails(coins, vin[..n], i);
    } else {
      assert vin[..i] == vin;
    }
  }

  /** `ModifyCoins(hash)->From(...)`. */
  method AddOutputs(v: CoinsViewCache, h: Hash, c: CCoins)
    requires v.Ready() && Trimmed(c.vout)
    modifies v.Chain`cacheCoins, v.Chain`cacheScs, v.Chain`cacheEvents, v.Chain`view, v`hasModifier
    ensures v.Ready() && v.Below() == old(v.Below()) && (old(v.Growing()) ==> v.Growing())
    ensures v.view == old(v.view).(coins := PutCoins(old(v.view).coins, h, c))
  {
    hide CoinsViewCache.Valid, CoinsViewCache.FlushOk, TidyEvents;
    CleanupTrimmed(c);
    var _ := v.ModifyCoins(h);
    v.ReleaseModifier(h, c);
  }

  /** The first block of `DisconnectBlock`'s loops: the outputs must match and go away. */
  method RemoveOutputsOf(v: CoinsViewCache, h: Hash, expected: CCoins) returns (ok: bool)
    requires v.Ready()
    modifies v.Chain`cacheCoins, v.Chain`cacheScs, v.Chain`cacheEvents, v.Chain`view, v`hasModifier
    ensures v.Ready() && v.Below() == old(v.Below()) && (old(v.Growing()) ==> v.Growing())
    ensures var r := RemoveOutputs(old(v.view).coins, h, expected);
      (ok <==> r.Ok?) && (ok ==> v.view == old(v.view).(coins := r.value))
  {
    hide CoinsViewCache.Valid, CoinsViewCache.FlushOk, TidyEvents;
    var c := v.ModifyCoins(h);
    v.ViewGood();
    assert h in v.view.coins ==> !IsPruned(v.view.coins[h]);
    ok := c == expected || (IsPruned(c) && IsPruned(expected));
    v.ReleaseModifier(h, EMPTY);
  }

  /** `ApplyTxInUndo`. */
  method RestoreCoin(v: CoinsViewCache, o: OutPoint, undo: TxInUndo) returns (ok: bool)
    requires v.Ready()
    modifies v.Chain`cacheCoins, v.Chain`cacheScs, v.Chain`cacheEvents, v.Chain`view, v`hasModifier
    ensures v.Ready() && v.Below() == old(v.Below()) && (old(v.Growing()) ==> v.Growing())
    ensures var r := RestoreInput(old(v.view).coins, o, undo);
      (ok <==> r.Ok?) && (ok ==> v.view == old(v.view).(coins := r.value))
  {
    hide CoinsViewCache.Valid, CoinsViewCache.FlushOk, TidyEvents;
    var c := v.ModifyCoins(o.hash);
    SameAsAbsent(c, v.view.coins, o.hash, undo, o.n);
    var d := ApplyUndo(c, undo, o.n);
    if d.Err? {
      ReleaseUnchanged(v, o.hash, c);
      return false;
    }
    v.ReleaseModifier(o.hash, d.value);
    ok := true;
  }

  /** Whatever empty record a cache holds for an absent transaction, undoing treats it alike. */
  lemma {:induction false} SameAsAbsent(c: CCoins, coins: CoinMap, h: Hash, undo: TxInUndo, pos: nat)
    requires SameCoins(c, coins, h) && Trimmed(c.vout)
    ensures ApplyUndo(c, undo, pos) == ApplyUndo(CoinsAt(coins, h), undo, pos)
  {
    TrimmedPrunedIsEmpty(c);
    assert h !in coins ==> c.vout == [] && IsPruned(EMPTY) && EMPTY.vout == [];
  }

  method RestoreAll(v: CoinsViewCache, vin: seq<OutPoint>, undo: seq<TxInUndo>) returns (ok: bool)
    requires v.Ready()
    modifies v.Chain`cacheCoins, v.Chain`cacheScs, v.Chain`cacheEvents, v.Chain`view, v`hasModifier
    ensures v.Ready() && v.Below() == old(v.Below()) && (old(v.Growing()) ==> v.Growing())
    ensures var r := RestoreInputs(old(v.view).coins, vin, undo);
      (ok <==> r.Ok?) && (ok ==> v.view == old(v.view).(coins := r.value))
  {
    hide CoinsViewCache.Valid, CoinsViewCache.FlushOk, TidyEvents;
    hide RestoreInput;
    if |vin| != |undo| {
      return false;
    }
    ghost var r := RestoreInputs(v.view.coins, vin, undo);
    var i := |vin|;
    assert vin[..i] == vin && undo[..i] == undo;
    while i > 0
      invariant 0 <= i <= |vin|
      invariant v.Ready() && v.Below() == old(v.Below()) && (old(v.Growing()) ==> v.Growing())
      invariant v.view == old(v.view).(coins := v.view.coins)
      invariant RestoreInputs(v.view.coins, vin[..i], undo[..i]) == r
    {
      i := i - 1;
      assert vin[..i + 1][..i] == vin[..i] && undo[..i + 1][..i] == undo[..i];
      ok := RestoreCoin(v, vin[i], undo[i]);
      if !ok {
        return;
      }
    }
    ok := true;
  }

  // ---- The events of a height ----

  lemma {:induction false} MatureOneMore(scs: ScMap, ids: set<ScId>, id: ScId, height: int)
    requires CanMature(scs, ids, height) && id !in ids && id in scs && height in scs[id].immature
    ensures CanMature(scs, ids + {id}, height)
    ensures MatureAll(scs, ids, height)[id := Matured(scs[id], height)] == MatureAll(scs, ids + {id}, height)
    ensures AmountsAt(scs, ids, height)[id := scs[id].immature[height]] == AmountsAt(scs, ids + {id}, height)
  {
  }

  lemma {:induction false} MaturesLast(scs: ScMap, ids: set<ScId>, id: ScId, height: int)
    requires CanMature(scs, ids, height) && id !in ids
    ensures Get(MatureAll(scs, ids, height), id) == Get(scs, id)
  {
  }

  ghost function AmountsAt(scs: ScMap, ids: set<ScId>, height: int): map<ScId, int>
    requires CanMature(scs, ids, height)
  {
    map id | id in ids :: scs[id].immature[height]
  }

  /** The maturing loop of `HandleSidechainEvents`. */
  method MatureAmounts(v: CoinsViewCache, ids: set<ScId>, height: int) returns (r: Result<map<ScId, int>>)
    requires v.Ready()
    modifies v.Chain`cacheCoins, v.Chain`cacheScs, v.Chain`cacheEvents, v.Chain`view
    ensures v.Ready() && v.Below() == old(v.Below()) && (old(v.Growing()) ==> v.Growing())
    ensures r.Ok? <==> CanMature(old(v.view).scs, ids, height)
    ensures r.Ok? ==> v.view == old(v.view).(scs := MatureAll(old(v.view).scs, ids, height))
    ensures r.Ok? ==> r.value == AmountsAt(old(v.view).scs, ids, height)
  {
    hide CoinsViewCache.Valid, CoinsViewCache.FlushOk, TidyEvents;
    ghost var scs := v.view.scs;
    var todo := ids;
    var amounts: map<ScId, int> := map[];
    assert ids - todo == {} && MatureAll(scs, {}, height) == scs;
    while todo != {}
      invariant todo <= ids
      invariant v.Ready() && v.Below() == old(v.Below()) && (old(v.Growing()) ==> v.Growing())
      invariant CanMature(scs, ids - todo, height)
      invariant v.view == old(v.view).(scs := MatureAll(scs, ids - todo, height))
      invariant amounts == AmountsAt(scs, ids - todo, height)
      decreases |todo|
    {
      hide MatureAll, Matured, AmountsAt;
      var id :| id in todo;
      var found := v.GetSidechain(id);
      MaturesLast(scs, ids - todo, id, height);
      if found.None? || height !in found.value.immature {
        return Err;
      }
      MatureOneMore(scs, ids - todo, id, height);
      assert ids - todo + {id} == ids - (todo - {id});
      ChangeSidechain(v, id, Matured(found.value, height), false);
      amounts := amounts[id := found.value.immature[height]];
      todo := todo - {id};
    }
    assert ids - todo == ids;
    r := Ok(amounts);
  }

  /** One turn of the ceasing loop of `HandleSidechainEvents`. */
  method VoidCert(v: CoinsViewCache, id: ScId) returns (r: Result<VoidedCert>)
    requires v.Ready()
    modifies v.Chain`cacheCoins, v.Chain`cacheScs, v.Chain`cacheEvents, v.Chain`view, v`hasModifier
    ensures v.Ready() && v.Below() == old(v.Below()) && (old(v.Growing()) ==> v.Growing())
    ensures var s := VoidOne(old(v.view).coins, old(v.view).scs, id);
      && (r.Ok? <==> s.Ok?)
      && (r.Ok? ==> v.view == old(v.view).(coins := s.value.0) && r.value == s.value.1)
  {
    hide CoinsViewCache.Valid, CoinsViewCache.FlushOk, TidyEvents;
    hide Voided, VoidedOuts;
    var found := v.GetSidechain(id);
    if found.None? {
      return Err;
    }
    var sc := found.value;
    if sc.lastEpoch == EPOCH_NULL {
      return if sc.lastCertHash != NULL_HASH then Err else Ok(VoidedCert(id, []));
    }
    var have := HaveCoins(v, sc.lastCertHash);
    if !have {
      return Ok(VoidedCert(id, []));
    }
    var c := v.ModifyCoins(sc.lastCertHash);
    if c.bwtMaturityHeight == 0 {
      ReleaseUnchanged(v, sc.lastCertHash, c);
      return Err;
    }
    var d, outs := VoidBackwardTransfers(c);
    VoidedTrimmed(c);
    CleanupTrimmed(d);
    v.ReleaseModifier(sc.lastCertHash, d);
    r := Ok(VoidedCert(id, outs));
  }

  lemma {:induction false} VoidedTrimmed(c: CCoins)
    requires Trimmed(c.vout)
    ensures Trimmed(Voided(c).vout)
  {
    if 0 <= c.firstBwtPos < |c.vout| {
      TrimIsTrim(c.vout[..c.firstBwtPos]);
    }
  }

  /** `HaveCoins`. */
  method HaveCoins(v: CoinsViewCache, h: Hash) returns (have: bool)
    requires v.Ready()
    modifies v.Chain`cacheCoins, v.Chain`cacheScs, v.Chain`cacheEvents, v.Chain`view
    ensures v.Ready() && v.Below() == old(v.Below()) && (old(v.Growing()) ==> v.Growing())
    ensures v.view == old(v.view) && (have <==> h in v.view.coins)
  {
    hide CoinsViewCache.Valid, CoinsViewCache.FlushOk, TidyEvents;
    var e := v.FetchCoins(h);
    v.ViewGood();
    if e.Some? {
      TrimmedPrunedIsEmpty(e.value.coins);
    }
    have := e.Some? && e.value.coins.vout != [];
  }

  lemma {:induction false} VoidCertsFails(coins: CoinMap, scs: ScMap, ids: seq<ScId>, i: nat)
    requires i <= |ids| && VoidCerts(coins, scs, ids[..i]).Err?
    ensures VoidCerts(coins, scs, ids).Err?
    decreases |ids|
  {
    if i < |ids| {
      var n := |ids| - 1;
      assert ids[..n][..i] == ids[..i];
      VoidCertsFails(coins, scs, ids[..n], i);
    } else {
      assert ids[..i] == ids;
    }
  }

  /** The ceasing loop of `HandleSidechainEvents`. */
  method VoidAll(v: CoinsViewCache, ids: seq<ScId>) returns (r: Result<seq<VoidedCert>>)
    requires v.Ready()
    modifies v.Chain`cacheCoins, v.Chain`cacheScs, v.Chain`cacheEvents, v.Chain`view, v`hasModifier
    ensures v.Ready() && v.Below() == old(v.Below()) && (old(v.Growing()) ==> v.Growing())
    ensures var s := VoidCerts(old(v.view).coins, old(v.view).scs, ids);
      && (r.Ok? <==> s.Ok?)
      && (r.Ok? ==> v.view == old(v.view).(coins := s.value.0) && r.value == s.value.1)
  {
    hide CoinsViewCache.Valid, CoinsViewCache.FlushOk, TidyEvents;
    var voided := [];
    ghost var coins, scs := v.view.coins, v.view.scs;
    for i := 0 to |ids|
      invariant v.Ready() && v.Below() == old(v.Below()) && (old(v.Growing()) ==> v.Growing())
      invariant v.view == old(v.view).(coins := v.view.coins)
      invariant VoidCerts(coins, scs, ids[..i]) == Ok((v.view.coins, voided))
    {
      hide VoidOne;
      assert ids[..i + 1][..i] == ids[..i];
      var one := VoidCert(v, ids[i]);
      if one.Err? {
        VoidCertsFails(coins, scs, ids, i + 1);
        return Err;
      }
      voided := voided + [one.value];
    }
    assert ids[..|ids|] == ids;
    r := Ok(voided);
  }

  /** `HandleSidechainEvents`; `Err` is a failed assert. The record of the height is erased
      with its contents left in the entry, so the cache is fit for flushing, not for
      scheduling at that height again. */
  method HandleSidechainEvents(v: CoinsViewCache, height: int) returns (r: Result<EventsUndo>)
    requires v.Ready()
    modifies v.Chain`cacheCoins, v.Chain`cacheScs, v.Chain`cacheEvents, v.Chain`view, v`hasModifier
    ensures v.Valid() && !v.hasModifier && v.FlushOk() && v.Below() == old(v.Below())
    ensures var s := HandleEvents(old(v.view), height);
      && (r.Ok? <==> s.Ok?)
      && (r.Ok? ==> v.view == s.value.0 && r.value == s.value.1)
  {
    hide CoinsViewCache.Valid, CoinsViewCache.FlushOk, TidyEvents;
    hide CanMature, MatureAll, VoidCerts, Ascending;
    var found := v.GetSidechainEvents(height);
    if found.None? {
      return Ok(EventsUndo(map[], []));
    }
    var matured := MatureAmounts(v, found.value.maturing, height);
    if matured.Err? {
      return Err;
    }
    var voided := VoidAll(v, Ascending(found.value.ceasing));
    if voided.Err? {
      return Err;
    }
    var e := v.ModifySidechainEvents(height);
    v.StoreSidechainEvents(height, e.(flag := Erased));
    r := Ok(EventsUndo(matured.value, voided.value));
  }

  lemma {:induction false} UnmatureOneMore(scs: ScMap, matured: map<ScId, int>, ids: set<ScId>, id: ScId, height: int)
    requires id in scs && id in matured && id !in ids && ids <= matured.Keys
    ensures UnmatureAll(scs, Restricted(matured, ids), height)[id := Unmatured(scs[id], height, matured[id])]
         == UnmatureAll(scs, Restricted(matured, ids + {id}), height)
    ensures matured[id] <= 0 ==>
      UnmatureAll(scs, Restricted(matured, ids), height) == UnmatureAll(scs, Restricted(matured, ids + {id}), height)
  {
  }

  ghost function Restricted(m: map<ScId, int>, ids: set<ScId>): map<ScId, int> {
    map id | id in m && id in ids :: m[id]
  }

  lemma {:induction false} UnmatureStart(scs: ScMap, matured: map<ScId, int>, height: int)
    ensures UnmatureAll(scs, Restricted(matured, {}), height) == scs
    ensures Restricted(matured, matured.Keys) == matured
  {
  }

  lemma {:induction false} UnmatureKeys(scs: ScMap, matured: map<ScId, int>, ids: set<ScId>, height: int, id: ScId)
    requires id !in ids
    ensures Get(UnmatureAll(scs, Restricted(matured, ids), height), id) == Get(scs, id)
  {
  }

  /** The maturing loop of `RevertSidechainEvents`. */
  method UnmatureAmounts(v: CoinsViewCache, matured: map<ScId, int>, height: int) returns (ok: bool)
    requires v.Ready()
    modifies v.Chain`cacheCoins, v.Chain`cacheScs, v.Chain`cacheEvents, v.Chain`view
    ensures v.Ready() && v.Below() == old(v.Below()) && (old(v.Growing()) ==> v.Growing())
    ensures ok <==> CanUnmature(old(v.view).scs, matured)
    ensures ok ==> v.view == old(v.view).(scs := UnmatureAll(old(v.view).scs, matured, height))
  {
    hide CoinsViewCache.Valid, CoinsViewCache.FlushOk, TidyEvents;
    hide UnmatureAll, Unmatured, Restricted;
    ghost var scs := v.view.scs;
    var todo := matured.Keys;
    UnmatureStart(scs, matured, height);
    assert matured.Keys - todo == {};
    while todo != {}
      invariant todo <= matured.Keys
      invariant v.Ready() && v.Below() == old(v.Below()) && (old(v.Growing()) ==> v.Growing())
      invariant forall id :: id in matured && id !in todo ==>
        id in scs && (matured[id] > 0 ==> scs[id].balance >= matured[id])
      invariant v.view == old(v.view).(scs := UnmatureAll(scs, Restricted(matured, matured.Keys - todo), height))
      decreases |todo|
    {
      var id :| id in todo;
      var found := v.GetSidechain(id);
      UnmatureKeys(scs, matured, matured.Keys - todo, height, id);
      assert found == Get(scs, id);
      if found.None? || (matured[id] > 0 && found.value.balance < matured[id]) {
        return false;
      }
      UnmatureOneMore(scs, matured, matured.Keys - todo, id, height);
      assert matured.Keys - todo + {id} == matured.Keys - (todo - {id});
      if matured[id] > 0 {
        ChangeSidechain(v, id, Unmatured(found.value, height, matured[id]), false);
      }
      todo := todo - {id};
    }
    assert matured.Keys - todo == matured.Keys;
    ok := true;
  }

  /** Whatever empty record a cache holds for absent coins, restoring treats it alike. */
  lemma {:induction false} RestoresAlike(c: CCoins, coins: CoinMap, h: Hash, outs: seq<TxInUndo>)
    requires SameCoins(c, coins, h) && Trimmed(c.vout)
    ensures var r, s := RestoreFrom(c, outs, |outs|), RestoreFrom(CoinsAt(coins, h), outs, |outs|);
      (r.Ok? <==> s.Ok?) && (r.Ok? ==> PutCoins(coins, h, Cleanup(r.value)) == PutCoins(coins, h, Cleanup(s.value)))
  {
    if h !in coins {
      TrimmedPrunedIsEmpty(c);
      if outs == [] {
        assert IsPruned(Cleanup(c)) && IsPruned(Cleanup(EMPTY));
      } else {
        var n := |outs| - 1;
        assert IsPruned(c) && IsPruned(EMPTY);
        assert RestoreOne(c, outs[n], n) == RestoreOne(EMPTY, outs[n], n);
      }
    }
  }

  /** One turn of the ceasing loop of `RevertSidechainEvents`. */
  method UnvoidCert(v: CoinsViewCache, cert: VoidedCert) returns (ok: bool)
    requires v.Ready()
    modifies v.Chain`cacheCoins, v.Chain`cacheScs, v.Chain`cacheEvents, v.Chain`view, v`hasModifier
    ensures v.Ready() && v.Below() == old(v.Below()) && (old(v.Growing()) ==> v.Growing())
    ensures var s := UnvoidOne(old(v.view).coins, old(v.view).scs, cert);
      (ok <==> s.Ok?) && (ok ==> v.view == old(v.view).(coins := s.value))
  {
    hide CoinsViewCache.Valid, CoinsViewCache.FlushOk, TidyEvents;
    var found := v.GetSidechain(cert.scId);
    if found.None? {
      return false;
    }
    if found.value.lastEpoch == EPOCH_NULL {
      return true;
    }
    var h := found.value.lastCertHash;
    if h == NULL_HASH {
      return false;
    }
    var c := v.ModifyCoins(h);
    RestoresAlike(c, v.view.coins, h, cert.outs);
    var d := RestoreVoidedOuts(c, cert.outs);
    if d.Err? {
      ReleaseUnchanged(v, h, c);
      return false;
    }
    v.ReleaseModifier(h, d.value);
    ok := true;
  }

  /** The ceasing loop of `RevertSidechainEvents`. */
  method UnvoidAll(v: CoinsViewCache, voided: seq<VoidedCert>) returns (ok: bool, ceasing: set<ScId>)
    requires v.Ready()
    modifies v.Chain`cacheCoins, v.Chain`cacheScs, v.Chain`cacheEvents, v.Chain`view, v`hasModifier
    ensures v.Ready() && v.Below() == old(v.Below()) && (old(v.Growing()) ==> v.Growing())
    ensures var r := RestoreCerts(old(v.view).coins, old(v.view).scs, voided);
      (ok <==> r.Ok?) && (ok ==> v.view == old(v.view).(coins := r.value))
    ensures ok ==> ceasing == set i | 0 <= i < |voided| :: voided[i].scId
  {
    hide CoinsViewCache.Valid, CoinsViewCache.FlushOk, TidyEvents;
    hide UnvoidOne;
    ghost var r := RestoreCerts(v.view.coins, v.view.scs, voided);
    ceasing := {};
    for i := 0 to |voided|
      invariant v.Ready() && v.Below() == old(v.Below()) && (old(v.Growing()) ==> v.Growing())
      invariant v.view == old(v.view).(coins := v.view.coins)
      invariant RestoreCerts(v.view.coins, v.view.scs, voided[i..]) == r
      invariant ceasing == set j | 0 <= j < i :: voided[j].scId
    {
      assert voided[i..][0] == voided[i] && voided[i..][1..] == voided[i + 1..];
      ok := UnvoidCert(v, voided[i]);
      if !ok {
        return;
      }
      ceasing := ceasing + {voided[i].scId};
    }
    ok := true;
  }

  /** `RevertSidechainEvents`. Re-creating the record of a height that is below and was erased
      in this very cache would make a fresh entry that cannot be flushed. */
  method RevertSidechainEvents(v: CoinsViewCache, undo: EventsUndo, height: int) returns (ok: bool)
    requires v.Ready() && (height in v.Below().events ==> height in v.view.events)
    modifies v.Chain`cacheCoins, v.Chain`cacheScs, v.Chain`cacheEvents, v.Chain`view, v`hasModifier
    ensures v.Ready() && v.Below() == old(v.Below()) && (old(v.Growing()) ==> v.Growing())
    ensures var r := RevertEvents(old(v.view), undo, height);
      (ok <==> r.Ok?) && (ok ==> v.view == r.value)
  {
    hide CoinsViewCache.Valid, CoinsViewCache.FlushOk, TidyEvents;
    hide CanUnmature, UnmatureAll, RestoreCerts;
    var found := v.GetSidechainEvents(height);
    if found.Some? {
      return false;
    }
    ok := UnmatureAmounts(v, undo.matured, height);
    if !ok {
      return;
    }
    var ceasing;
    ok, ceasing := UnvoidAll(v, undo.voided);
    if ok {
      RecreateRecord(v, height, ScEvents(ceasing, undo.matured.Keys));
    }
  }

  method RecreateRecord(v: CoinsViewCache, height: int, record: ScEvents)
    requires v.Ready() && height !in v.Below().events && height !in v.view.events
    modifies v.Chain`cacheCoins, v.Chain`cacheScs, v.Chain`cacheEvents, v.Chain`view
    ensures v.Ready() && v.Below() == old(v.Below()) && (old(v.Growing()) ==> v.Growing())
    ensures v.view == old(v.view).(events := Put(old(v.view).events, height, record))
  {
    hide CoinsViewCache.Valid, CoinsViewCache.FlushOk, TidyEvents;
    if record.IsNull() {
      assert v.view.events - {height} == v.view.events;
    } else {
      var _ := v.ModifySidechainEvents(height);
      assert v.view.events[height := record] == old(v.view).events[height := record];
      v.StoreSidechainEvents(height, Entry(record, Fresh));
    }
  }

  // ---- Transactions and certificates ----

  /** `HaveScRequirements`. */
  method CheckScRequirements(v: CoinsViewCache, tx: Tx, height: int) returns (ok: bool)
    requires v.Ready()
    modifies v.Chain`cacheCoins, v.Chain`cacheScs, v.Chain`cacheEvents, v.Chain`view
    ensures v.Ready() && v.Below() == old(v.Below()) && (old(v.Growing()) ==> v.Growing())
    ensures v.view == old(v.view) && (ok <==> HaveScRequirements(v.view, tx, height))
  {
    hide CoinsViewCache.Valid, CoinsViewCache.FlushOk, TidyEvents;
    hide StateAtHeight;
    for i := 0 to |tx.creations|
      invariant v.Ready() && v.Below() == old(v.Below()) && (old(v.Growing()) ==> v.Growing())
      invariant v.view == old(v.view)
      invariant forall j :: 0 <= j < i ==> tx.creations[j].scId !in v.view.scs
    {
      var found := v.GetSidechain(tx.creations[i].scId);
      if found.Some? {
        return false;
      }
    }
    for i := 0 to |tx.forwards|
      invariant v.Ready() && v.Below() == old(v.Below()) && (old(v.Growing()) ==> v.Growing())
      invariant v.view == old(v.view)
      invariant forall j :: 0 <= j < i ==> ForwardAllowed(v.view.scs, tx, height, tx.forwards[j].scId)
    {
      var found := v.GetSidechain(tx.forwards[i].scId);
      var allowed;
      if found.Some? {
        allowed := found.value.epochLength != 0 && StateAtHeight(found.value, height).Alive?;
      } else {
        allowed := exists j :: 0 <= j < |tx.creations| && tx.creations[j].scId == tx.forwards[i].scId;
      }
      assert allowed <==> ForwardAllowed(v.view.scs, tx, height, tx.forwards[i].scId);
      if !allowed {
        return false;
      }
    }
    ok := true;
  }

  predicate ForwardAllowed(scs: ScMap, tx: Tx, height: int, id: ScId) {
    if id in scs
    then scs[id].epochLength != 0 && StateAtHeight(scs[id], height).Alive?
    else exists j :: 0 <= j < |tx.creations| && tx.creations[j].scId == id
  }

  /** The maturity check of `CheckTxInputs`. */
  method CheckInputsMature(v: CoinsViewCache, vin: seq<OutPoint>, height: int) returns (ok: bool)
    requires v.Ready()
    modifies v.Chain`cacheCoins, v.Chain`cacheScs, v.Chain`cacheEvents, v.Chain`view
    ensures v.Ready() && v.Below() == old(v.Below()) && (old(v.Growing()) ==> v.Growing())
    ensures v.view == old(v.view) && (ok <==> InputsMature(v.view.coins, vin, height))
  {
    hide CoinsViewCache.Valid, CoinsViewCache.FlushOk, TidyEvents, OutputMature;
    for i := 0 to |vin|
      invariant v.Ready() && v.Below() == old(v.Below()) && (old(v.Growing()) ==> v.Growing())
      invariant v.view == old(v.view)
      invariant forall j :: 0 <= j < i && vin[j].hash in v.view.coins ==>
                  OutputMature(v.view.coins[vin[j].hash], vin[j].n, height)
    {
      var e := v.FetchCoins(vin[i].hash);
      v.ViewGood();
      if e.Some? {
        TrimmedPrunedIsEmpty(e.value.coins);
        if e.value.coins.vout != [] && !OutputMature(e.value.coins, vin[i].n, height) {
          return false;
        }
      }
    }
    ok := true;
  }

  /** The body of the transaction loop of `ConnectBlock`. */
  method ConnectTx(v: CoinsViewCache, tx: Tx, blockHash: Hash, height: int, maturity: nat) returns (r: Result<TxUndo>)
    requires v.Ready() && v.Growing()
    modifies v.Chain`cacheCoins, v.Chain`cacheScs, v.Chain`cacheEvents, v.Chain`view, v`hasModifier
    ensures v.Ready() && v.Growing() && v.Below() == old(v.Below())
    ensures var s := Ledger.ConnectTx(old(v.view), tx, blockHash, height, maturity);
      && (r.Ok? <==> s.Ok?)
      && (r.Ok? ==> v.view == s.value.0 && r.value == s.value.1)
  {
    hide CoinsViewCache.Valid, CoinsViewCache.FlushOk, TidyEvents;
    hide InputsMature, SpendInputs, HaveScRequirements, AddCreations, AddForwards, ScheduleCreations,
      ScheduleForwards, PutCoins;
    var spent: Result<seq<TxInUndo>> := Ok([]);
    if !tx.coinBase {
      var ok := CheckScRequirements(v, tx, height);
      if !ok {
        return Err;
      }
      ok := CheckInputsMature(v, tx.vin, height);
      if !ok {
        return Err;
      }
      spent := SpendAll(v, tx.vin);
      if spent.Err? {
        return Err;
      }
    }
    SpendableTrimmed(tx.vout);
    AddOutputs(v, tx.hash, FromTx(tx, height));
    if !tx.coinBase {
      var ok := ApplyScOutputsOf(v, tx, blockHash, height, maturity);
      if !ok {
        return Err;
      }
    }
    r := Ok(TxUndo(spent.value, EPOCH_NULL, NULL_HASH));
  }

  method ApplyScOutputsOf(v: CoinsViewCache, tx: Tx, blockHash: Hash, height: int, maturity: nat) returns (ok: bool)
    requires v.Ready() && v.Growing()
    modifies v.Chain`cacheCoins, v.Chain`cacheScs, v.Chain`cacheEvents, v.Chain`view
    ensures v.Ready() && v.Growing() && v.Below() == old(v.Below())
    ensures var r := ApplyScOutputs(old(v.view).scs, old(v.view).events, tx, blockHash, height, maturity);
      && (ok <==> r.Ok?)
      && (ok ==> v.view == old(v.view).(scs := r.value.0, events := r.value.1))
  {
    hide CoinsViewCache.Valid, CoinsViewCache.FlushOk, TidyEvents;
    hide AddCreations, AddForwards, ScheduleCreations, ScheduleForwards;
    ok := UpdateScInfo(v, tx, blockHash, height, maturity);
    if ok {
      ok := ScheduleCreationsOf(v, tx.creations, height + maturity);
      if ok {
        ok := ScheduleForwardsOf(v, tx.forwards, height + maturity);
      }
    }
  }

  /** The body of the transaction loop of `DisconnectBlock`. */
  method DisconnectTx(v: CoinsViewCache, tx: Tx, undo: TxUndo, height: int, maturity: nat) returns (ok: bool)
    requires v.Ready()
    modifies v.Chain`cacheCoins, v.Chain`cacheScs, v.Chain`cacheEvents, v.Chain`view, v`hasModifier
    ensures v.Ready() && v.Below() == old(v.Below())
    ensures var r := Ledger.DisconnectTx(old(v.view), tx, undo, height, maturity);
      (ok <==> r.Ok?) && (ok ==> v.view == r.value)
  {
    hide CoinsViewCache.Valid, CoinsViewCache.FlushOk, TidyEvents;
    hide RemoveOutputs, RestoreInputs, RevertScOutputs;
    ok := RemoveOutputsOf(v, tx.hash, FromTx(tx, height));
    if !ok {
      return;
    }
    ok := RevertScOutputsOf(v, tx, height, maturity);
    if !ok {
      return;
    }
    if !tx.coinBase {
      ok := RestoreAll(v, tx.vin, undo.prevouts);
    }
  }

  method RevertScOutputsOf(v: CoinsViewCache, tx: Tx, height: int, maturity: nat) returns (ok: bool)
    requires v.Ready()
    modifies v.Chain`cacheCoins, v.Chain`cacheScs, v.Chain`cacheEvents, v.Chain`view
    ensures v.Ready() && v.Below() == old(v.Below())
    ensures var r := RevertScOutputs(old(v.view).scs, old(v.view).events, tx, height, maturity);
      && (ok <==> r.Ok?)
      && (ok ==> v.view == old(v.view).(scs := r.value.0, events := r.value.1))
  {
    hide CoinsViewCache.Valid, CoinsViewCache.FlushOk, TidyEvents;
    hide CancelForwards, CancelCreations, RevertForwards, RevertCreations;
    CancelForwardsOf(v, tx.forwards, height + maturity);
    ok := CancelCreationsOf(v, tx.creations, height + maturity);
    if ok {
      ok := RevertTxOutputs(v, tx, height, maturity);
    }
  }

  /** `IsCertApplicableToState`. */
  method CheckCert(v: CoinsViewCache, cert: Cert, height: int) returns (ok: bool)
    requires v.Ready()
    modifies v.Chain`cacheCoins, v.Chain`cacheScs, v.Chain`cacheEvents, v.Chain`view
    ensures v.Ready() && v.Below() == old(v.Below()) && (old(v.Growing()) ==> v.Growing())
    ensures v.view == old(v.view) && (ok <==> CertApplicable(v.view, cert, height))
  {
    hide CoinsViewCache.Valid, CoinsViewCache.FlushOk, TidyEvents;
    hide StateAtHeight, StartHeightForEpoch, SafeguardMargin, BwtTotal;
    var found := v.GetSidechain(cert.scId);
    if found.None? {
      return false;
    }
    var sc := found.value;
    if sc.epochLength == 0 || cert.epoch < 0 || cert.epoch != sc.lastEpoch + 1 || !cert.endBlockOk {
      return false;
    }
    var start := StartHeightForEpoch(sc, cert.epoch + 1);
    if !(start <= height <= start + SafeguardMargin(sc)) || !StateAtHeight(sc, height).Alive? {
      return false;
    }
    ok := BwtTotal(cert) <= sc.balance && cert.proofOk;
  }

  /** The body of the certificate loop of `ConnectBlock`. */
  method ConnectCert(v: CoinsViewCache, cert: Cert, height: int) returns (r: Result<TxUndo>)
    requires v.Ready()
    modifies v.Chain`cacheCoins, v.Chain`cacheScs, v.Chain`cacheEvents, v.Chain`view, v`hasModifier
    ensures v.Ready() && v.Below() == old(v.Below()) && (old(v.Growing()) ==> v.Growing())
    ensures var s := Ledger.ConnectCert(old(v.view), cert, height);
      && (r.Ok? <==> s.Ok?)
      && (r.Ok? ==> v.view == s.value.0 && r.value == s.value.1)
  {
    hide CoinsViewCache.Valid, CoinsViewCache.FlushOk, TidyEvents;
    hide InputsMature, SpendInputs, PutCoins, FromCert, CertMaturity, ScheduleCert, BwtTotal, StateAtHeight,
      StartHeightForEpoch, SafeguardMargin;
    var ok := CheckCert(v, cert, height);
    if !ok {
      return Err;
    }
    ok := CheckInputsMature(v, cert.vin, height);
    if !ok {
      return Err;
    }
    var spent := SpendAll(v, cert.vin);
    if spent.Err? {
      return Err;
    }
    var found := v.GetSidechain(cert.scId);
    FromCertTrimmed(cert, height, CertMaturity(found.value, height));
    AddOutputs(v, cert.hash, FromCert(cert, height, CertMaturity(found.value, height)));
    var replaced := UpdateScInfoCert(v, cert);
    assert replaced.Ok?;
    SchedulesAlike(v.view.events, found.value, WithCert(found.value, cert), cert);
    ok := ScheduleCertEvent(v, cert);
    if !ok {
      return Err;
    }
    r := Ok(TxUndo(spent.value, replaced.value.0, replaced.value.1));
  }

  lemma {:induction false} FromCertTrimmed(cert: Cert, height: int, maturityHeight: int)
    ensures Trimmed(FromCert(cert, height, maturityHeight).vout)
  {
    SpendableTrimmed(cert.vout);
  }

  lemma {:induction false} SchedulesAlike(ev: EventMap, a: CSidechain, b: CSidechain, cert: Cert)
    requires a.creationBlockHeight == b.creationBlockHeight && a.epochLength == b.epochLength
    ensures ScheduleCert(ev, a, cert) == ScheduleCert(ev, b, cert)
  {
    assert SafeguardMargin(a) == SafeguardMargin(b);
    assert StartHeightForEpoch(a, cert.epoch + 1) == StartHeightForEpoch(b, cert.epoch + 1);
  }

  /** The body of the certificate loop of `DisconnectBlock`. */
  method DisconnectCert(v: CoinsViewCache, cert: Cert, undo: TxUndo, height: int) returns (ok: bool)
    requires v.Ready()
    modifies v.Chain`cacheCoins, v.Chain`cacheScs, v.Chain`cacheEvents, v.Chain`view, v`hasModifier
    ensures v.Ready() && v.Below() == old(v.Below()) && (old(v.Growing()) ==> v.Growing())
    ensures var r := Ledger.DisconnectCert(old(v.view), cert, undo, height);
      (ok <==> r.Ok?) && (ok ==> v.view == r.value)
  {
    hide CoinsViewCache.Valid, CoinsViewCache.FlushOk, TidyEvents;
    hide RemoveOutputs, FromCert, CertMaturity, CancelCert, RestoreInputs, BwtTotal;
    var found := v.GetSidechain(cert.scId);
    if found.None? || found.value.epochLength == 0 {
      return false;
    }
    ok := RemoveOutputsOf(v, cert.hash, FromCert(cert, height, CertMaturity(found.value, height)));
    if !ok {
      return;
    }
    ok := CancelCertEvent(v, cert);
    if !ok {
      return;
    }
    ok := RevertCertOutputs(v, cert, undo);
    if ok {
      ok := RestoreAll(v, cert.vin, undo.prevouts);
    }
  }

  // ---- Blocks ----

  lemma {:induction false} ConnectTxsFails(s: State, txs: seq<Tx>, blockHash: Hash, height: int, maturity: nat, i: nat)
    requires i <= |txs| && ConnectTxs(s, txs[..i], blockHash, height, maturity).Err?
    ensures ConnectTxs(s, txs, blockHash, height, maturity).Err?
    decreases |txs|
  {
    hide Ledger.ConnectTx;
    if i < |txs| {
      var n := |txs| - 1;
      assert txs[..n][..i] == txs[..i];
      ConnectTxsFails(s, txs[..n], blockHash, height, maturity, i);
    } else {
      assert txs[..i] == txs;
    }
  }

  lemma {:induction false} ConnectCertsFails(s: State, certs: seq<Cert>, height: int, i: nat)
    requires i <= |certs| && ConnectCerts(s, certs[..i], height).Err?
    ensures ConnectCerts(s, certs, height).Err?
    decreases |certs|
  {
    hide Ledger.ConnectCert;
    if i < |certs| {
      var n := |certs| - 1;
      assert certs[..n][..i] == certs[..i];
      ConnectCertsFails(s, certs[..n], height, i);
    } else {
      assert certs[..i] == certs;
    }
  }

  method ConnectAllTxs(v: CoinsViewCache, txs: seq<Tx>, blockHash: Hash, height: int, maturity: nat)
      returns (r: Result<seq<TxUndo>>)
    requires v.Ready() && v.Growing()
    modifies v.Chain`cacheCoins, v.Chain`cacheScs, v.Chain`cacheEvents, v.Chain`view, v`hasModifier
    ensures v.Ready() && v.Growing() && v.Below() == old(v.Below())
    ensures var s := ConnectTxs(old(v.view), txs, blockHash, height, maturity);
      && (r.Ok? <==> s.Ok?)
      && (r.Ok? ==> v.view == s.value.0 && r.value == s.value.1)
  {
    hide CoinsViewCache.Valid, CoinsViewCache.FlushOk, TidyEvents;
    hide Ledger.ConnectTx;
    var undos := [];
    for i := 0 to |txs|
      invariant v.Ready() && v.Growing() && v.Below() == old(v.Below())
      invariant ConnectTxs(old(v.view), txs[..i], blockHash, height, maturity) == Ok((v.view, undos))
    {
      assert txs[..i + 1][..i] == txs[..i];
      var u := ConnectTx(v, txs[i], blockHash, height, maturity);
      if u.Err? {
        ConnectTxsFails(old(v.view), txs, blockHash, height, maturity, i + 1);
        return Err;
      }
      undos := undos + [u.value];
    }
    assert txs[..|txs|] == txs;
    r := Ok(undos);
  }

  method ConnectAllCerts(v: CoinsViewCache, certs: seq<Cert>, height: int) returns (r: Result<seq<TxUndo>>)
    requires v.Ready()
    modifies v.Chain`cacheCoins, v.Chain`cacheScs, v.Chain`cacheEvents, v.Chain`view, v`hasModifier
    ensures v.Ready() && v.Below() == old(v.Below()) && (old(v.Growing()) ==> v.Growing())
    ensures var s := ConnectCerts(old(v.view), certs, height);
      && (r.Ok? <==> s.Ok?)
      && (r.Ok? ==> v.view == s.value.0 && r.value == s.value.1)
  {
    hide CoinsViewCache.Valid, CoinsViewCache.FlushOk, TidyEvents;
    hide Ledger.ConnectCert;
    var undos := [];
    for i := 0 to |certs|
      invariant v.Ready() && v.Below() == old(v.Below()) && (old(v.Growing()) ==> v.Growing())
      invariant ConnectCerts(old(v.view), certs[..i], height) == Ok((v.view, undos))
    {
      assert certs[..i + 1][..i] == certs[..i];
      var u := ConnectCert(v, certs[i], height);
      if u.Err? {
        ConnectCertsFails(old(v.view), certs, height, i + 1);
        return Err;
      }
      undos := undos + [u.value];
    }
    assert certs[..|certs|] == certs;
    r := Ok(undos);
  }

  /** The check that no unspent transaction or certificate is overwritten. */
  method CheckNoOverwrite(v: CoinsViewCache, b: Block) returns (ok: bool)
    requires v.Ready()
    modifies v.Chain`cacheCoins, v.Chain`cacheScs, v.Chain`cacheEvents, v.Chain`view
    ensures v.Ready() && v.Below() == old(v.Below()) && (old(v.Growing()) ==> v.Growing())
    ensures v.view == old(v.view) && (ok <==> NoOverwrite(v.view, b))
  {
    hide CoinsViewCache.Valid, CoinsViewCache.FlushOk, TidyEvents;
    for i := 0 to |b.txs|
      invariant v.Ready() && v.Below() == old(v.Below()) && (old(v.Growing()) ==> v.Growing())
      invariant v.view == old(v.view)
      invariant forall j :: 0 <= j < i ==> b.txs[j].hash !in v.view.coins
    {
      var have := HaveCoins(v, b.txs[i].hash);
      if have {
        return false;
      }
    }
    for i := 0 to |b.certs|
      invariant v.Ready() && v.Below() == old(v.Below()) && (old(v.Growing()) ==> v.Growing())
      invariant v.view == old(v.view)
      invariant forall j :: 0 <= j < i ==> b.certs[j].hash !in v.view.coins
    {
      var have := HaveCoins(v, b.certs[i].hash);
      if have {
        return false;
      }
    }
    ok := true;
  }

  /** `ConnectBlock` on a cache. */
  method ConnectBlock(v: CoinsViewCache, b: Block, height: int, maturity: nat) returns (r: Result<BlockUndo>)
    requires v.Ready() && v.Growing()
    modifies v.Chain`cacheCoins, v.Chain`cacheScs, v.Chain`cacheEvents, v.Chain`view, v`hasModifier
    ensures v.Valid() && !v.hasModifier && v.FlushOk() && v.Below() == old(v.Below())
    ensures var s := Ledger.ConnectBlock(old(v.view), b, height, maturity);
      && (r.Ok? <==> s.Ok?)
      && (r.Ok? ==> v.view == s.value.0 && r.value == s.value.1)
  {
    hide CoinsViewCache.Valid, CoinsViewCache.FlushOk, TidyEvents;
    hide NoOverwrite, ConnectTxs, ConnectCerts, HandleEvents;
    var ok := CheckNoOverwrite(v, b);
    if !ok {
      return Err;
    }
    var txUndos := ConnectAllTxs(v, b.txs, b.hash, height, maturity);
    if txUndos.Err? {
      return Err;
    }
    var certUndos := ConnectAllCerts(v, b.certs, height);
    if certUndos.Err? {
      return Err;
    }
    var events := HandleSidechainEvents(v, height);
    if events.Err? {
      return Err;
    }
    r := Ok(BlockUndo(txUndos.value, certUndos.value, events.value.matured, events.value.voided));
  }

  method DisconnectAllTxs(v: CoinsViewCache, txs: seq<Tx>, undos: seq<TxUndo>, height: int, maturity: nat)
      returns (ok: bool)
    requires v.Ready()
    modifies v.Chain`cacheCoins, v.Chain`cacheScs, v.Chain`cacheEvents, v.Chain`view, v`hasModifier
    ensures v.Ready() && v.Below() == old(v.Below())
    ensures var r := DisconnectTxs(old(v.view), txs, undos, height, maturity);
      (ok <==> r.Ok?) && (ok ==> v.view == r.value)
  {
    hide CoinsViewCache.Valid, CoinsViewCache.FlushOk, TidyEvents;
    hide Ledger.DisconnectTx;
    if |txs| != |undos| {
      return false;
    }
    ghost var r := DisconnectTxs(v.view, txs, undos, height, maturity);
    var i := |txs|;
    assert txs[..i] == txs && undos[..i] == undos;
    while i > 0
      invariant 0 <= i <= |txs|
      invariant v.Ready() && v.Below() == old(v.Below())
      invariant DisconnectTxs(v.view, txs[..i], undos[..i], height, maturity) == r
    {
      i := i - 1;
      assert txs[..i + 1][..i] == txs[..i] && undos[..i + 1][..i] == undos[..i];
      ok := DisconnectTx(v, txs[i], undos[i], height, maturity);
      if !ok {
        return;
      }
    }
    ok := true;
  }

  method DisconnectAllCerts(v: CoinsViewCache, certs: seq<Cert>, undos: seq<TxUndo>, height: int) returns (ok: bool)
    requires v.Ready()
    modifies v.Chain`cacheCoins, v.Chain`cacheScs, v.Chain`cacheEvents, v.Chain`view, v`hasModifier
    ensures v.Ready() && v.Below() == old(v.Below())
    ensures var r := DisconnectCerts(old(v.view), certs, undos, height);
      (ok <==> r.Ok?) && (ok ==> v.view == r.value)
  {
    hide CoinsViewCache.Valid, CoinsViewCache.FlushOk, TidyEvents;
    hide Ledger.DisconnectCert;
    if |certs| != |undos| {
      return false;
    }
    ghost var r := DisconnectCerts(v.view, certs, undos, height);
    var i := |certs|;
    assert certs[..i] == certs && undos[..i] == undos;
    while i > 0
      invariant 0 <= i <= |certs|
      invariant v.Ready() && v.Below() == old(v.Below())
      invariant DisconnectCerts(v.view, certs[..i], undos[..i], height) == r
    {
      i := i - 1;
      assert certs[..i + 1][..i] == certs[..i] && undos[..i + 1][..i] == undos[..i];
      ok := DisconnectCert(v, certs[i], undos[i], height);
      if !ok {
        return;
      }
    }
    ok := true;
  }

  /** `DisconnectBlock` on a cache. */
  method DisconnectBlock(v: CoinsViewCache, b: Block, undo: BlockUndo, height: int, maturity: nat) returns (ok: bool)
    requires v.Ready() && (height in v.Below().events ==> height in v.view.events)
    modifies v.Chain`cacheCoins, v.Chain`cacheScs, v.Chain`cacheEvents, v.Chain`view, v`hasModifier
    ensures v.Ready() && v.Below() == old(v.Below())
    ensures var r := Ledger.DisconnectBlock(old(v.view), b, undo, height, maturity);
      (ok <==> r.Ok?) && (ok ==> v.view == r.value)
  {
    hide CoinsViewCache.Valid, CoinsViewCache.FlushOk, TidyEvents;
    hide RevertEvents, DisconnectTxs, DisconnectCerts;
    ok := RevertSidechainEvents(v, EventsUndo(undo.matured, undo.voided), height);
    if !ok {
      return;
    }
    ok := DisconnectAllCerts(v, b.certs, undo.certUndos, height);
    if ok {
      ok := DisconnectAllTxs(v, b.txs, undo.txUndos, height, maturity);
    }
  }

  // ---- The tip of the chain ----

  /** A cache just put on top of `tip`. */
  method OnTop(tip: CoinsViewCache) returns (v: CoinsViewCache)
    requires tip.Valid()
    ensures fresh(v) && v.Chain == tip.Chain + {v} && v.base == tip && v.db == tip.db
    ensures v.Ready() && v.Growing() && v.view == tip.view && v.Below() == tip.view
  {
    hide LayerOk, LayerView;
    v := new CoinsViewCache.OnCache(tip);
  }

  /** `ConnectTip`: the block is applied to a cache of its own and flushed; the flush never
      trips an assert, and a block that does not connect leaves the tip as it was. */
  method ConnectTip(tip: CoinsViewCache, b: Block, height: int, maturity: nat) returns (r: Result<BlockUndo>)
    requires tip.Valid() && !tip.hasModifier
    modifies tip.Chain`cacheCoins, tip.Chain`cacheScs, tip.Chain`cacheEvents, tip.Chain`view, tip.db
    ensures tip.Valid()
    ensures var s := Ledger.ConnectBlock(old(tip.view), b, height, maturity);
      && (r.Ok? <==> s.Ok?)
      && (if r.Ok? then tip.view == s.value.0 && r.value == s.value.1 else tip.view == old(tip.view))
  {
    hide LayerOk, LayerView, CoinsViewCache.FlushOk, CoinsViewCache.Growing, Ledger.ConnectBlock;
    var v := OnTop(tip);
    r := ConnectBlock(v, b, height, maturity);
    if r.Ok? {
      var ok := v.Flush();
      assert ok;
    }
  }

  /** `DisconnectTip`. */
  method DisconnectTip(tip: CoinsViewCache, b: Block, undo: BlockUndo, height: int, maturity: nat) returns (ok: bool)
    requires tip.Valid() && !tip.hasModifier
    modifies tip.Chain`cacheCoins, tip.Chain`cacheScs, tip.Chain`cacheEvents, tip.Chain`view, tip.db
    ensures tip.Valid()
    ensures var s := Ledger.DisconnectBlock(old(tip.view), b, undo, height, maturity);
      && (ok <==> s.Ok?)
      && tip.view == if ok then s.value else old(tip.view)
  {
    hide LayerOk, LayerView, CoinsViewCache.FlushOk, CoinsViewCache.Growing, Ledger.DisconnectBlock;
    var v := OnTop(tip);
    ok := DisconnectBlock(v, b, undo, height, maturity);
    assert v.Linked();
    if ok {
      var flushed := v.Flush();
      assert flushed;
    }
  }

  // ---- Runs ----

  lemma {:induction false} RunSnoc(steps: seq<Step>, i: nat, maturity: nat, node: Node)
    requires i < |steps| && Run(FRESH_NODE, steps[..i], maturity) == Ok(node)
    ensures Run(FRESH_NODE, steps[..i + 1], maturity) == Take(node, steps[i], maturity)
  {
    assert steps[..i + 1][..i] == steps[..i];
  }

  lemma {:induction false} ValidRunPrefix(steps: seq<Step>, i: nat, maturity: nat)
    requires i <= |steps| && ValidRun(FRESH_NODE, steps, maturity)
    ensures ValidRun(FRESH_NODE, steps[..i], maturity)
    decreases |steps|
  {
    if i < |steps| {
      assert steps[..|steps| - 1][..i] == steps[..i];
      ValidRunPrefix(steps[..|steps| - 1], i, maturity);
    } else {
      assert steps[..i] == steps;
    }
  }

  /** One step of the node on its caches. */
  method TakeStep(tip: CoinsViewCache, blocks: seq<Block>, undos: seq<BlockUndo>, step: Step, maturity: nat)
    returns (ok: bool, blocks1: seq<Block>, undos1: seq<BlockUndo>)
    requires tip.Valid() && !tip.hasModifier
    modifies tip.Chain`cacheCoins, tip.Chain`cacheScs, tip.Chain`cacheEvents, tip.Chain`view, tip.db
    ensures tip.Valid()
    ensures var r := Take(Node(old(tip.view), blocks, undos), step, maturity);
      (ok <==> r.Ok?) && (ok ==> r.value == Node(tip.view, blocks1, undos1))
  {
    hide CoinsViewCache.Valid, Ledger.ConnectBlock, Ledger.DisconnectBlock;
    ok, blocks1, undos1 := true, blocks, undos;
    match step {
      case Connect(b) =>
        var r := ConnectTip(tip, b, |blocks| + 1, maturity);
        if r.Ok? {
          blocks1, undos1 := blocks + [b], undos + [r.value];
        }
      case Disconnect =>
        if blocks != [] && |undos| == |blocks| {
          var n := |blocks| - 1;
          ok := DisconnectTip(tip, blocks[n], undos[n], n + 1, maturity);
          blocks1, undos1 := blocks[..n], undos[..n];
        }
    }
  }

  /** A node that starts empty and takes any valid run of steps through its caches never
      fails, shows the state of the plain-map ledger after the same run, and hence that of
      connecting its active chain from scratch. */
  method RunNode(tip: CoinsViewCache, steps: seq<Step>, maturity: nat)
      returns (blocks: seq<Block>, undos: seq<BlockUndo>)
    requires tip.Valid() && !tip.hasModifier && tip.view == EMPTY_STATE
    requires ValidRun(FRESH_NODE, steps, maturity)
    modifies tip.Chain`cacheCoins, tip.Chain`cacheScs, tip.Chain`cacheEvents, tip.Chain`view, tip.db
    ensures tip.Valid()
    ensures Run(FRESH_NODE, steps, maturity) == Ok(Node(tip.view, blocks, undos))
    ensures Replay(blocks, maturity) == Ok(tip.view)
  {
    hide CoinsViewCache.Valid, Take, ValidRun;
    blocks, undos := [], [];
    for i := 0 to |steps|
      invariant tip.Valid() && !tip.hasModifier
      invariant Run(FRESH_NODE, steps[..i], maturity) == Ok(Node(tip.view, blocks, undos))
    {
      ghost var node := Node(tip.view, blocks, undos);
      RunSnoc(steps, i, maturity, node);
      ValidRunPrefix(steps, i + 1, maturity);
      RunConsistent(steps[..i + 1], maturity);
      var ok;
      ok, blocks, undos := TakeStep(tip, blocks, undos, steps[i], maturity);
    }
    assert steps[..|steps|] == steps;
    ReorganisationsLeaveNoTrace(steps, maturity);
  }
}
