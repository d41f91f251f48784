/** Whole blocks, chains and runs with reorganisations. */
module LedgerRun {
  import opened Results
  import opened Coins
  import opened Sidechain
  import opened Ledger
  import opened LedgerInvariant
  import opened LedgerSteps
  import opened LedgerUndo

  // ---- Blocks ----

  /** Amounts and lengths in range, and no two objects with one hash. */
  ghost predicate ValidBlock(scs: ScMap, b: Block) {
    && (forall i :: 0 <= i < |b.txs| ==> ValidTx(b.txs[i]) && FreshHash(scs, b.txs[i].hash))
    && (forall i :: 0 <= i < |b.certs| ==> FreshHash(scs, b.certs[i].hash))
    && (forall i, j :: 0 <= i < j < |b.txs| ==> b.txs[i].hash != b.txs[j].hash)
    && (forall i, j :: 0 <= i < j < |b.certs| ==> b.certs[i].hash != b.certs[j].hash)
    && (forall i, j :: 0 <= i < |b.txs| && 0 <= j < |b.certs| ==> b.txs[i].hash != b.certs[j].hash)
  }

  ghost predicate ValidTxs(scs: ScMap, txs: seq<Tx>) {
    && (forall i :: 0 <= i < |txs| ==> ValidTx(txs[i]) && FreshHash(scs, txs[i].hash))
    && (forall i, j :: 0 <= i < j < |txs| ==> txs[i].hash != txs[j].hash)
  }

  ghost predicate ValidCerts(scs: ScMap, certs: seq<Cert>) {
    && (forall i :: 0 <= i < |certs| ==> FreshHash(scs, certs[i].hash))
    && (forall i, j :: 0 <= i < j < |certs| ==> certs[i].hash != certs[j].hash)
  }

  ghost function TxHashes(txs: seq<Tx>): set<Hash> {
    set i | 0 <= i < |txs| :: txs[i].hash
  }

  ghost function CertHashSet(certs: seq<Cert>): set<Hash> {
    set i | 0 <= i < |certs| :: certs[i].hash
  }

  lemma {:induction false} InheritsTrans(a: ScMap, b: ScMap, c: ScMap)
    requires Inherits(a, b) && Inherits(b, c)
    ensures Inherits(a, c)
  {
  }

  lemma {:induction false} FreshInherited(scs: ScMap, scs1: ScMap, h: Hash)
    requires Inherits(scs, scs1) && FreshHash(scs, h)
    ensures FreshHash(scs1, h)
  {
  }

  lemma {:induction false} ConnectTxKeys(s: State, tx: Tx, blockHash: Hash, height: int, maturity: nat)
    requires CoinsOk(s.coins) && ConnectTx(s, tx, blockHash, height, maturity).Ok?
    ensures ConnectTx(s, tx, blockHash, height, maturity).value.0.coins.Keys <= s.coins.Keys + {tx.hash}
  {
    if !tx.coinBase {
      SpendInputsKeeps(s.coins, tx.vin);
    }
  }

  lemma {:induction false} ConnectTxsKeeps(s: State, txs: seq<Tx>, blockHash: Hash, height: int, maturity: nat)
    requires height >= 1 && ValidTxs(s.scs, txs) && Inv(s, height - 1, height, maturity)
    requires ConnectTxs(s, txs, blockHash, height, maturity).Ok?
    ensures var r := ConnectTxs(s, txs, blockHash, height, maturity).value;
      && Inv(r.0, height - 1, height, maturity) && Inherits(s.scs, r.0.scs)
      && r.0.coins.Keys <= s.coins.Keys + TxHashes(txs)
      && |r.1| == |txs|
    decreases |txs|
  {
    if txs != [] {
      var n := |txs| - 1;
      ConnectTxsKeeps(s, txs[..n], blockHash, height, maturity);
      var before := ConnectTxs(s, txs[..n], blockHash, height, maturity).value.0;
      FreshInherited(s.scs, before.scs, txs[n].hash);
      ConnectTxKeeps(before, txs[n], blockHash, height, maturity);
      var after := ConnectTx(before, txs[n], blockHash, height, maturity).value.0;
      InheritsTrans(s.scs, before.scs, after.scs);
      ConnectTxKeys(before, txs[n], blockHash, height, maturity);
      assert TxHashes(txs) == TxHashes(txs[..n]) + {txs[n].hash} by { TxHashesSnoc(txs); }
    }
  }

  lemma {:induction false} TxHashesSnoc(txs: seq<Tx>)
    requires txs != []
    ensures TxHashes(txs) == TxHashes(txs[..|txs| - 1]) + {txs[|txs| - 1].hash}
  {
    var n := |txs| - 1;
    forall i | 0 <= i < n ensures txs[i].hash in TxHashes(txs[..n]) {
      assert txs[..n][i] == txs[i];
    }
  }

  ghost function AllIds(txs: seq<Tx>): set<ScId> {
    if txs == [] then {} else TxIds(txs[|txs| - 1]) + AllIds(txs[..|txs| - 1])
  }

  ghost predicate NotInCoins(coins: CoinMap, txs: seq<Tx>) {
    forall i :: 0 <= i < |txs| ==> txs[i].hash !in coins
  }

  lemma {:induction false} ValidTxsPrefix(scs: ScMap, coins: CoinMap, coins1: CoinMap, txs: seq<Tx>)
    requires txs != [] && ValidTxs(scs, txs) && NotInCoins(coins, txs)
    requires coins1.Keys <= coins.Keys + TxHashes(txs[..|txs| - 1])
    ensures ValidTxs(scs, txs[..|txs| - 1]) && NotInCoins(coins, txs[..|txs| - 1])
    ensures ValidTx(txs[|txs| - 1]) && FreshHash(scs, txs[|txs| - 1].hash) && txs[|txs| - 1].hash !in coins1
  {
    assert txs[|txs| - 1].hash !in TxHashes(txs[..|txs| - 1]);
  }

  lemma {:induction false} DisconnectTxsStep(x: State, y: State, txs: seq<Tx>, undos: seq<TxUndo>, last: TxUndo,
      height: int, maturity: nat)
    requires txs != [] && |undos| == |txs| - 1
    requires DisconnectTx(x, txs[|txs| - 1], last, height, maturity) == Ok(y)
    ensures DisconnectTxs(x, txs, undos + [last], height, maturity)
         == DisconnectTxs(y, txs[..|txs| - 1], undos, height, maturity)
  {
    assert (undos + [last])[..|txs| - 1] == undos;
  }

  lemma {:induction false} ConnectTxsSplits(s: State, txs: seq<Tx>, blockHash: Hash, height: int, maturity: nat,
      s1: State, undos: seq<TxUndo>)
    returns (before: State, undos0: seq<TxUndo>, last: TxUndo)
    requires txs != [] && ConnectTxs(s, txs, blockHash, height, maturity) == Ok((s1, undos))
    ensures ConnectTxs(s, txs[..|txs| - 1], blockHash, height, maturity) == Ok((before, undos0))
    ensures ConnectTx(before, txs[|txs| - 1], blockHash, height, maturity) == Ok((s1, last))
    ensures undos == undos0 + [last]
  {
    var n := |txs| - 1;
    var p := ConnectTxs(s, txs[..n], blockHash, height, maturity).value;
    before, undos0 := p.0, p.1;
    last := ConnectTx(before, txs[n], blockHash, height, maturity).value.1;
  }

  lemma {:induction false} AllIdsSplit(gone: set<ScId>, txs: seq<Tx>)
    requires txs != []
    ensures gone + TxIds(txs[|txs| - 1]) + AllIds(txs[..|txs| - 1]) == gone + AllIds(txs)
  {
  }

  /** The state before the last transaction. */
  lemma {:induction false} TxsBefore(s: State, txs: seq<Tx>, blockHash: Hash, height: int, maturity: nat,
      before: State, undos0: seq<TxUndo>)
    requires height >= 1 && ValidTxs(s.scs, txs) && Inv(s, height - 1, height, maturity)
    requires txs != [] && NotInCoins(s.coins, txs)
    requires ConnectTxs(s, txs[..|txs| - 1], blockHash, height, maturity) == Ok((before, undos0))
    ensures Inv(before, height - 1, height, maturity) && |undos0| == |txs| - 1
    ensures ValidTx(txs[|txs| - 1]) && txs[|txs| - 1].hash !in before.coins
    ensures ValidTxs(s.scs, txs[..|txs| - 1]) && NotInCoins(s.coins, txs[..|txs| - 1])
  {
    ConnectTxsKeeps(s, txs[..|txs| - 1], blockHash, height, maturity);
    ValidTxsPrefix(s.scs, s.coins, before.coins, txs);
  }

  /** Undoing the last transaction of a list. */
  lemma {:induction false} LastTxUndone(txs: seq<Tx>, blockHash: Hash, height: int, maturity: nat, gone: set<ScId>,
                     before: State, undos0: seq<TxUndo>, s1: State, last: TxUndo)
    requires height >= 1 && txs != [] && |undos0| == |txs| - 1 && Inv(before, height - 1, height, maturity)
    requires ValidTx(txs[|txs| - 1]) && txs[|txs| - 1].hash !in before.coins
    requires ConnectTx(before, txs[|txs| - 1], blockHash, height, maturity) == Ok((s1, last))
    ensures var k := height + maturity;
      DisconnectTxs(Lacking(s1, k, gone), txs, undos0 + [last], height, maturity)
        == DisconnectTxs(Lacking(before, k, gone + TxIds(txs[|txs| - 1])), txs[..|txs| - 1], undos0, height, maturity)
  {
    var k, tx := height + maturity, txs[|txs| - 1];
    DisconnectTxUndoes(before, tx, blockHash, height, maturity, gone, s1, last);
    DisconnectTxsStep(Lacking(s1, k, gone), Lacking(before, k, gone + TxIds(tx)), txs, undos0, last, height, maturity);
  }

  /** Undoing the transactions of a block last to first. */
  lemma {:induction false} DisconnectTxsUndoes(s: State, txs: seq<Tx>, blockHash: Hash, height: int, maturity: nat,
                                               gone: set<ScId>, s1: State, undos: seq<TxUndo>)
    requires height >= 1 && ValidTxs(s.scs, txs) && Inv(s, height - 1, height, maturity)
    requires NotInCoins(s.coins, txs)
    requires ConnectTxs(s, txs, blockHash, height, maturity) == Ok((s1, undos))
    ensures DisconnectTxs(Lacking(s1, height + maturity, gone), txs, undos, height, maturity)
         == Ok(Lacking(s, height + maturity, gone + AllIds(txs)))
    decreases |txs|
  {
    if txs == [] {
      assert gone + AllIds(txs) == gone;
    } else {
      var n := |txs| - 1;
      var before, undos0, last := ConnectTxsSplits(s, txs, blockHash, height, maturity, s1, undos);
      TxsBefore(s, txs, blockHash, height, maturity, before, undos0);
      LastTxUndone(txs, blockHash, height, maturity, gone, before, undos0, s1, last);
      DisconnectTxsUndoes(s, txs[..n], blockHash, height, maturity, gone + TxIds(txs[n]), before, undos0);
      AllIdsSplit(gone, txs);
    }
  }

  ghost predicate OnlyNewCerts(scs: ScMap, scs1: ScMap, hs: set<Hash>) {
    && scs1.Keys == scs.Keys
    && forall id :: id in scs ==> scs1[id].lastCertHash == scs[id].lastCertHash || scs1[id].lastCertHash in hs
  }

  lemma {:induction false} CertHashSetSnoc(certs: seq<Cert>)
    requires certs != []
    ensures CertHashSet(certs) == CertHashSet(certs[..|certs| - 1]) + {certs[|certs| - 1].hash}
  {
    var n := |certs| - 1;
    forall i | 0 <= i < n ensures certs[i].hash in CertHashSet(certs[..n]) {
      assert certs[..n][i] == certs[i];
    }
  }

  lemma {:induction false} ConnectCertKeys(s: State, cert: Cert, height: int)
    requires CoinsOk(s.coins) && ConnectCert(s, cert, height).Ok?
    ensures ConnectCert(s, cert, height).value.0.coins.Keys <= s.coins.Keys + {cert.hash}
  {
    SpendInputsKeeps(s.coins, cert.vin);
  }

  lemma {:induction false} ConnectCertsKeeps(s: State, certs: seq<Cert>, height: int, maturity: nat)
    requires height >= 1 && ValidCerts(s.scs, certs) && Inv(s, height - 1, height, maturity)
    requires ConnectCerts(s, certs, height).Ok?
    ensures var r := ConnectCerts(s, certs, height).value;
      && Inv(r.0, height - 1, height, maturity) && OnlyNewCerts(s.scs, r.0.scs, CertHashSet(certs))
      && r.0.coins.Keys <= s.coins.Keys + CertHashSet(certs)
      && |r.1| == |certs|
    decreases |certs|
  {
    if certs != [] {
      var n := |certs| - 1;
      ConnectCertsKeeps(s, certs[..n], height, maturity);
      var before := ConnectCerts(s, certs[..n], height).value.0;
      assert FreshHash(before.scs, certs[n].hash) by { CertFresh(s.scs, before.scs, certs); }
      ConnectCertKeeps(before, certs[n], height, maturity);
      ConnectCertKeys(before, certs[n], height);
      CertHashSetSnoc(certs);
    }
  }

  lemma {:induction false} CertFresh(scs: ScMap, scs1: ScMap, certs: seq<Cert>)
    requires certs != [] && ValidCerts(scs, certs) && OnlyNewCerts(scs, scs1, CertHashSet(certs[..|certs| - 1]))
    ensures FreshHash(scs1, certs[|certs| - 1].hash)
  {
    var n := |certs| - 1;
    assert FreshHash(scs, certs[n].hash);
    assert certs[n].hash !in CertHashSet(certs[..n]);
  }

  ghost predicate CertsNotInCoins(coins: CoinMap, certs: seq<Cert>) {
    forall i :: 0 <= i < |certs| ==> certs[i].hash !in coins
  }

  lemma {:induction false} ValidCertsPrefix(scs: ScMap, coins: CoinMap, coins1: CoinMap, certs: seq<Cert>)
    requires certs != [] && ValidCerts(scs, certs) && CertsNotInCoins(coins, certs)
    requires coins1.Keys <= coins.Keys + CertHashSet(certs[..|certs| - 1])
    ensures ValidCerts(scs, certs[..|certs| - 1]) && CertsNotInCoins(coins, certs[..|certs| - 1])
    ensures certs[|certs| - 1].hash !in coins1
  {
    assert certs[|certs| - 1].hash !in CertHashSet(certs[..|certs| - 1]);
  }

  lemma {:induction false} DisconnectCertsStep(x: State, y: State, certs: seq<Cert>, undos: seq<TxUndo>, last: TxUndo,
      height: int)
    requires certs != [] && |undos| == |certs| - 1
    requires DisconnectCert(x, certs[|certs| - 1], last, height) == Ok(y)
    ensures DisconnectCerts(x, certs, undos + [last], height) == DisconnectCerts(y, certs[..|certs| - 1], undos, height)
  {
    assert (undos + [last])[..|certs| - 1] == undos;
  }

  lemma {:induction false} CertsBefore(s: State, certs: seq<Cert>, height: int, maturity: nat)
    requires height >= 1 && ValidCerts(s.scs, certs) && Inv(s, height - 1, height, maturity)
    requires certs != [] && CertsNotInCoins(s.coins, certs) && ConnectCerts(s, certs[..|certs| - 1], height).Ok?
    ensures var n := |certs| - 1;
      var before := ConnectCerts(s, certs[..n], height).value;
      && Inv(before.0, height - 1, height, maturity) && |before.1| == n && certs[n].hash !in before.0.coins
      && ValidCerts(s.scs, certs[..n]) && CertsNotInCoins(s.coins, certs[..n])
  {
    var n := |certs| - 1;
    ConnectCertsKeeps(s, certs[..n], height, maturity);
    ValidCertsPrefix(s.scs, s.coins, ConnectCerts(s, certs[..n], height).value.0.coins, certs);
  }

  lemma {:induction false} DisconnectCertsUndoes(s: State, certs: seq<Cert>, height: int, maturity: nat, s1: State,
      undos: seq<TxUndo>)
    requires height >= 1 && ValidCerts(s.scs, certs) && Inv(s, height - 1, height, maturity)
    requires CertsNotInCoins(s.coins, certs)
    requires ConnectCerts(s, certs, height) == Ok((s1, undos))
    ensures DisconnectCerts(s1, certs, undos, height) == Ok(s)
    decreases |certs|
  {
    if certs != [] {
      var n := |certs| - 1;
      var before := ConnectCerts(s, certs[..n], height).value;
      var last := ConnectCert(before.0, certs[n], height).value.1;
      CertsBefore(s, certs, height, maturity);
      DisconnectCertUndoes(before.0, certs[n], height, maturity);
      DisconnectCertsStep(s1, before.0, certs, before.1, last, height);
      DisconnectCertsUndoes(s, certs[..n], height, maturity, before.0, before.1);
    }
  }

  lemma {:induction false} InvForNextBlock(s: State, height: int, maturity: nat)
    requires Inv(s, height - 1, height - 1, maturity)
    ensures Inv(s, height - 1, height, maturity)
    ensures At(s.events, height + maturity).maturing == {}
  {
    forall id | id in s.scs ensures ScOk(s.scs[id], height - 1, height, maturity) {
      assert ScOk(s.scs[id], height - 1, height - 1, maturity);
    }
    forall id | id in s.scs ensures height + maturity !in s.scs[id].immature {
      assert ScOk(s.scs[id], height - 1, height - 1, maturity);
    }
    var late := At(s.events, height + maturity).maturing;
    forall id ensures id !in late {}
  }

  lemma {:induction false} CertsValidAfterTxs(s: State, b: Block, t: State)
    requires ValidBlock(s.scs, b) && NoOverwrite(s, b) && Inherits(s.scs, t.scs)
    requires t.coins.Keys <= s.coins.Keys + TxHashes(b.txs)
    ensures ValidCerts(t.scs, b.certs) && CertsNotInCoins(t.coins, b.certs)
  {
    forall i | 0 <= i < |b.certs| ensures FreshHash(t.scs, b.certs[i].hash) && b.certs[i].hash !in t.coins {
      FreshInherited(s.scs, t.scs, b.certs[i].hash);
      assert b.certs[i].hash !in TxHashes(b.txs);
    }
  }

  /** The state after the transactions of a block. */
  lemma {:induction false} AfterTxs(s: State, b: Block, height: int, maturity: nat, t: State, undos: seq<TxUndo>)
    requires height >= 1 && ValidBlock(s.scs, b) && Inv(s, height - 1, height - 1, maturity)
    requires NoOverwrite(s, b) && ConnectTxs(s, b.txs, b.hash, height, maturity) == Ok((t, undos))
    ensures Inv(t, height - 1, height, maturity) && Inherits(s.scs, t.scs)
    ensures ValidCerts(t.scs, b.certs) && CertsNotInCoins(t.coins, b.certs)
  {
    InvForNextBlock(s, height, maturity);
    ConnectTxsKeeps(s, b.txs, b.hash, height, maturity);
    CertsValidAfterTxs(s, b, t);
  }

  lemma {:induction false} AfterCerts(t: State, b: Block, height: int, maturity: nat, c: State, undos: seq<TxUndo>)
    requires height >= 1 && Inv(t, height - 1, height, maturity) && ValidCerts(t.scs, b.certs)
    requires ConnectCerts(t, b.certs, height) == Ok((c, undos))
    ensures Inv(c, height - 1, height, maturity)
    ensures HandleEvents(c, height).Ok? && Inv(HandleEvents(c, height).value.0, height, height, maturity)
  {
    ConnectCertsKeeps(t, b.certs, height, maturity);
    HandleEventsKeeps(c, height, maturity);
  }

  /** A connected block keeps the invariant; once its transactions and certificates are
      accepted its events are handled without a failed assert. */
  lemma {:induction false} ConnectBlockKeeps(s: State, b: Block, height: int, maturity: nat)
    requires height >= 1 && ValidBlock(s.scs, b) && Inv(s, height - 1, height - 1, maturity)
    requires NoOverwrite(s, b) && ConnectTxs(s, b.txs, b.hash, height, maturity).Ok?
    requires ConnectCerts(ConnectTxs(s, b.txs, b.hash, height, maturity).value.0, b.certs, height).Ok?
    ensures ConnectBlock(s, b, height, maturity).Ok?
    ensures Inv(ConnectBlock(s, b, height, maturity).value.0, height, height, maturity)
  {
    var t := ConnectTxs(s, b.txs, b.hash, height, maturity).value;
    var c := ConnectCerts(t.0, b.certs, height).value;
    AfterTxs(s, b, height, maturity, t.0, t.1);
    AfterCerts(t.0, b, height, maturity, c.0, c.1);
    BlockUnfolds(s, b, height, maturity, t, c);
  }

  lemma {:induction false} BlockUnfolds(s: State, b: Block, height: int, maturity: nat, t: (State, seq<TxUndo>),
      c: (State, seq<TxUndo>))
    requires NoOverwrite(s, b) && ConnectTxs(s, b.txs, b.hash, height, maturity) == Ok(t)
    requires ConnectCerts(t.0, b.certs, height) == Ok(c) && HandleEvents(c.0, height).Ok?
    ensures var e := HandleEvents(c.0, height).value;
      ConnectBlock(s, b, height, maturity) == Ok((e.0, BlockUndo(t.1, c.1, e.1.matured, e.1.voided)))
  {
  }

  lemma {:induction false} WithoutAbsent(ev: EventMap, k: int, gone: set<ScId>)
    requires NonNull(ev) && At(ev, k).maturing == {}
    ensures Without(ev, k, gone) == ev
  {
    EventsExtensional(Without(ev, k, gone), ev);
  }

  lemma {:induction false} TxsUndone(s: State, b: Block, height: int, maturity: nat, t: State, undos: seq<TxUndo>)
    requires height >= 1 && ValidBlock(s.scs, b) && Inv(s, height - 1, height - 1, maturity)
    requires NoOverwrite(s, b) && ConnectTxs(s, b.txs, b.hash, height, maturity) == Ok((t, undos))
    requires NonNull(t.events)
    ensures DisconnectTxs(t, b.txs, undos, height, maturity) == Ok(s)
  {
    var k := height + maturity;
    InvForNextBlock(s, height, maturity);
    DisconnectTxsUndoes(s, b.txs, b.hash, height, maturity, {}, t, undos);
    WithoutNothing(t.events, k);
    WithoutAbsent(s.events, k, {} + AllIds(b.txs));
  }

  /** `DisconnectBlock` undoes `ConnectBlock` exactly: coins, sidechains and events. */
  lemma {:induction false} DisconnectUndoesConnect(s: State, b: Block, height: int, maturity: nat)
    requires height >= 1 && ValidBlock(s.scs, b) && Inv(s, height - 1, height - 1, maturity)
    requires ConnectBlock(s, b, height, maturity).Ok?
    ensures var r := ConnectBlock(s, b, height, maturity).value;
      DisconnectBlock(r.0, b, r.1, height, maturity) == Ok(s)
  {
    var t := ConnectTxs(s, b.txs, b.hash, height, maturity).value;
    var c := ConnectCerts(t.0, b.certs, height).value;
    AfterTxs(s, b, height, maturity, t.0, t.1);
    AfterCerts(t.0, b, height, maturity, c.0, c.1);
    BlockUnfolds(s, b, height, maturity, t, c);
    RevertUndoesHandle(c.0, height, maturity);
    DisconnectCertsUndoes(t.0, b.certs, height, maturity, c.0, c.1);
    TxsUndone(s, b, height, maturity, t.0, t.1);
  }
}
