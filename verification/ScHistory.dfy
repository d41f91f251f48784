/** What the record of a sidechain says about the active chain, over every run: who created it, which certificates it
    accepted and when, and which amounts are still maturing. */
module ScHistory {
  import opened Results
  import opened Coins
  import opened Sidechain
  import opened Ledger
  import opened LedgerInvariant
  import opened LedgerSteps
  import opened LedgerRun
  import opened LedgerTheorems

  // ---- One transaction ----

  /** The amount maturing at a height. */
  function Pending(scs: ScMap, id: ScId, k: int): int {
    if id in scs && k in scs[id].immature then scs[id].immature[k] else 0
  }

  /** Nothing but the immature amounts differs. */
  ghost predicate SameButImmature(scs: ScMap, scs1: ScMap, id: ScId) {
    id in scs && id in scs1 && scs1[id] == scs[id].(immature := scs1[id].immature)
  }

  /** The record of a sidechain without certificates, created by `cr`. */
  ghost predicate RecordOf(sc: CSidechain, cr: CreationOut, txHash: Hash, blockHash: Hash, height: int) {
    && sc.creationBlockHash == blockHash && sc.creationBlockHeight == height && sc.creationTxHash == txHash
    && sc.epochLength == cr.epochLength && sc.data == cr.data
  }

  ghost predicate Untouched(sc: CSidechain) {
    sc.balance == 0 && sc.lastEpoch == EPOCH_NULL && sc.lastCertHash == NULL_HASH
  }

  ghost predicate Creates(tx: Tx, j: nat, id: ScId) {
    j < |tx.creations| && tx.creations[j].scId == id
  }

  /** A new sidechain, recorded as its creation says. */
  ghost predicate NewIn(scs1: ScMap, id: ScId, txs: seq<Tx>, i: nat, j: nat, blockHash: Hash, height: int) {
    && i < |txs| && Creates(txs[i], j, id) && id in scs1 && Untouched(scs1[id])
    && RecordOf(scs1[id], txs[i].creations[j], txs[i].hash, blockHash, height)
  }

  lemma {:induction false} TxRecord(s: State, tx: Tx, blockHash: Hash, height: int, maturity: nat, s1: State,
      undo: TxUndo, id: ScId)
    requires ValidTx(tx) && NonNull(s.events) && ConnectTx(s, tx, blockHash, height, maturity) == Ok((s1, undo))
    ensures id in s.scs ==> SameButImmature(s.scs, s1.scs, id) && forall j :: !Creates(tx, j, id)
    ensures id !in s.scs && id in s1.scs ==> exists j :: NewIn(s1.scs, id, [tx], 0, j, blockHash, height)
    ensures id !in s1.scs ==> id !in s.scs && NamesNot(tx, id)
  {
    hide HaveScRequirements, AddTxCoins, ApplyScOutputs;
    if !tx.coinBase {
      var created := ApplyScOutputsForm(s.scs, s.events, tx, blockHash, height, maturity);
      if id in s1.scs && id !in s.scs {
        var j := CreationIdAt(tx.creations, id);
        assert NewIn(s1.scs, id, [tx], 0, j, blockHash, height);
      }
      CreationsListed(tx.creations, id);
      ForwardsListed(tx.forwards, id);
    }
  }

  lemma {:induction false} CreationsListed(crs: seq<CreationOut>, id: ScId)
    ensures id !in CreationIds(crs) ==> forall j :: 0 <= j < |crs| ==> crs[j].scId != id
  {
    if crs != [] {
      CreationsListed(crs[1..], id);
      assert forall j :: 0 < j < |crs| ==> crs[j] == crs[1..][j - 1];
    }
  }

  lemma {:induction false} ForwardsListed(fts: seq<ForwardOut>, id: ScId)
    ensures id !in ForwardIds(fts) ==> forall j :: 0 <= j < |fts| ==> fts[j].scId != id
  {
    if fts != [] {
      ForwardsListed(fts[1..], id);
      assert forall j :: 0 < j < |fts| ==> fts[j] == fts[1..][j - 1];
    }
  }

  lemma {:induction false} AppliedPending(scs: ScMap, created: ScMap, scs1: ScMap, tx: Tx, blockHash: Hash, height: int,
      maturity: nat, id: ScId, k: int)
    requires ValidTx(tx) && ScsApplied(scs, created, scs1, tx, blockHash, height, maturity)
    ensures Pending(scs1, id, k) == Pending(scs, id, k) + if k == height + maturity then ReceivedTx(tx, id) else 0
  {
    OwedPositive(tx.forwards, id);
    if id !in created || id in scs {
      CreatedValueAbsent(tx.creations, id);
    } else {
      var i := CreationIdAt(tx.creations, id);
      CreatedValueOnce(tx.creations, id, i);
    }
  }

  /** What a transaction sends to a sidechain is pending, `maturity` blocks later. */
  lemma {:induction false} TxPending(s: State, tx: Tx, blockHash: Hash, height: int, maturity: nat, s1: State,
      undo: TxUndo, id: ScId, k: int)
    requires ValidTx(tx) && NonNull(s.events) && ConnectTx(s, tx, blockHash, height, maturity) == Ok((s1, undo))
    ensures Pending(s1.scs, id, k)
         == Pending(s.scs, id, k) + if k == height + maturity then ReceivedTx(tx, id) else 0
  {
    hide HaveScRequirements, AddTxCoins, ApplyScOutputs, ScsApplied;
    if !tx.coinBase {
      var created := ApplyScOutputsForm(s.scs, s.events, tx, blockHash, height, maturity);
      AppliedPending(s.scs, created, s1.scs, tx, blockHash, height, maturity, id, k);
    }
  }

  // ---- The transactions of a block ----

  ghost predicate TxsRecorded(scs: ScMap, txs: seq<Tx>, blockHash: Hash, height: int, scs1: ScMap, id: ScId) {
    && (id in scs ==> SameButImmature(scs, scs1, id) && forall i, j :: 0 <= i < |txs| ==> !Creates(txs[i], j, id))
    && (id !in scs && id in scs1 ==> exists i, j :: NewIn(scs1, id, txs, i, j, blockHash, height))
    && (id !in scs1 ==> id !in scs && NoneFor(txs, id))
  }

  lemma {:induction false} TxsRecordedStep(scs: ScMap, mid: ScMap, scs1: ScMap, txs: seq<Tx>, blockHash: Hash,
      height: int, id: ScId)
    requires txs != [] && TxsRecorded(scs, txs[..|txs| - 1], blockHash, height, mid, id)
    requires TxsRecorded(mid, [txs[|txs| - 1]], blockHash, height, scs1, id)
    ensures TxsRecorded(scs, txs, blockHash, height, scs1, id)
  {
    hide RecordOf, Untouched, NamesNot;
    var n := |txs| - 1;
    var last := [txs[n]];
    assert last[0] == txs[n];
    assert forall i :: 0 <= i < n ==> txs[i] == txs[..n][i];
    if id !in scs && id in mid {
      var i, j :| NewIn(mid, id, txs[..n], i, j, blockHash, height);
      NewStays(mid, scs1, id, txs, i, j, blockHash, height);
    } else if id !in scs && id in scs1 {
      var i, j :| NewIn(scs1, id, last, i, j, blockHash, height);
      assert NewIn(scs1, id, txs, n, j, blockHash, height);
    }
  }

  lemma {:induction false} NewStays(mid: ScMap, scs1: ScMap, id: ScId, txs: seq<Tx>, i: nat, j: nat, blockHash: Hash,
      height: int)
    requires txs != [] && NewIn(mid, id, txs[..|txs| - 1], i, j, blockHash, height) && SameButImmature(mid, scs1, id)
    ensures NewIn(scs1, id, txs, i, j, blockHash, height)
  {
  }

  lemma {:induction false} TxsRecord(s: State, txs: seq<Tx>, blockHash: Hash, height: int, maturity: nat, s1: State,
      undos: seq<TxUndo>, id: ScId)
    requires height >= 1 && ValidTxs(s.scs, txs) && Inv(s, height - 1, height, maturity)
    requires ConnectTxs(s, txs, blockHash, height, maturity) == Ok((s1, undos))
    ensures TxsRecorded(s.scs, txs, blockHash, height, s1.scs, id)
    decreases |txs|
  {
    hide ConnectTx, Inv, ValidTx, NewIn, Creates;
    if txs != [] {
      var n := |txs| - 1;
      var before, undos0, last := ConnectTxsSplits(s, txs, blockHash, height, maturity, s1, undos);
      TxsPrefixNonNull(s, txs, blockHash, height, maturity, before, undos0);
      TxsRecord(s, txs[..n], blockHash, height, maturity, before, undos0, id);
      TxRecord(before, txs[n], blockHash, height, maturity, s1, last, id);
      assert [txs[n]][0] == txs[n];
      TxsRecordedStep(s.scs, before.scs, s1.scs, txs, blockHash, height, id);
    }
  }

  lemma {:induction false} TxsPending(s: State, txs: seq<Tx>, blockHash: Hash, height: int, maturity: nat, s1: State,
      undos: seq<TxUndo>, id: ScId, k: int)
    requires height >= 1 && ValidTxs(s.scs, txs) && Inv(s, height - 1, height, maturity)
    requires ConnectTxs(s, txs, blockHash, height, maturity) == Ok((s1, undos))
    ensures Pending(s1.scs, id, k)
         == Pending(s.scs, id, k) + if k == height + maturity then Received(txs, id) else 0
    decreases |txs|
  {
    hide ConnectTx, Inv, ValidTx, Pending, ReceivedTx;
    if txs != [] {
      var n := |txs| - 1;
      var before, undos0, last := ConnectTxsSplits(s, txs, blockHash, height, maturity, s1, undos);
      TxsPrefixNonNull(s, txs, blockHash, height, maturity, before, undos0);
      TxsPending(s, txs[..n], blockHash, height, maturity, before, undos0, id, k);
      TxPending(before, txs[n], blockHash, height, maturity, s1, last, id, k);
    }
  }

  // ---- The certificates of a block ----

  function CertsFor(certs: seq<Cert>, id: ScId): seq<Cert> {
    if certs == [] then []
    else
      var last := certs[|certs| - 1];
      CertsFor(certs[..|certs| - 1], id) + if last.scId == id then [last] else []
  }

  /** The certificate for epoch `n`, connected in the safeguard of the next epoch. */
  ghost predicate Timely(sc: CSidechain, cert: Cert, n: int, height: int) {
    && cert.epoch == n && cert.endBlockOk && cert.proofOk
    && var start := sc.creationBlockHeight + (n + 1) * sc.epochLength;
       start <= height <= start + sc.epochLength / 5
  }

  ghost predicate AllTimely(sc: CSidechain, certs: seq<Cert>, height: int) {
    forall n :: 0 <= n < |certs| ==> Timely(sc, certs[n], sc.lastEpoch + 1 + n, height)
  }

  ghost function LastHash(certs: seq<Cert>, otherwise: Hash): Hash {
    if certs == [] then otherwise else certs[|certs| - 1].hash
  }

  /** The record after some certificates. */
  ghost predicate Certified(scs: ScMap, certs: seq<Cert>, height: int, scs1: ScMap, id: ScId) {
    && (id in scs <==> id in scs1)
    && var mine := CertsFor(certs, id);
    && (id !in scs ==> mine == [])
    && (id in scs ==>
          && AllTimely(scs[id], mine, height)
          && scs1[id] == scs[id].(lastEpoch := scs[id].lastEpoch + |mine|,
                                  lastCertHash := LastHash(mine, scs[id].lastCertHash),
                                  balance := scs[id].balance - Withdrawn(certs, id)))
  }

  lemma {:induction false} CertIsTimely(sc: CSidechain, cert: Cert, s: State, height: int, maturity: nat)
    requires CertApplicable(s, cert, height) && sc == s.scs[cert.scId] && ScOk(sc, height - 1, height, maturity)
    ensures Timely(sc, cert, sc.lastEpoch + 1, height)
  {
  }

  lemma {:induction false} OneCertified(s: State, cert: Cert, height: int, maturity: nat, s1: State, undo: TxUndo,
      id: ScId)
    requires Inv(s, height - 1, height, maturity) && ConnectCert(s, cert, height) == Ok((s1, undo))
    ensures Certified(s.scs, [cert], height, s1.scs, id)
  {
    hide CertApplicable, Timely, StateAtHeight, MaturingOk, CeasingOk, CertsOk, EventsOk, CoinsOk;
    assert [cert][..0] == [];
    assert CertsFor([], id) == [] && Withdrawn([], id) == 0;
    assert CertApplicable(s, cert, height) && cert.scId in s.scs by { ApplicableExists(s, cert, height); }
    assert ScOk(s.scs[cert.scId], height - 1, height, maturity);
    CertIsTimely(s.scs[cert.scId], cert, s, height, maturity);
    if id == cert.scId {
      assert cert.epoch == s.scs[id].lastEpoch + 1 by { TimelyEpoch(s.scs[id], cert, s.scs[id].lastEpoch + 1, height); }
    }
  }

  lemma {:induction false} TimelyEpoch(sc: CSidechain, cert: Cert, n: int, height: int)
    requires Timely(sc, cert, n, height)
    ensures cert.epoch == n
  {
  }

  lemma {:induction false} ApplicableExists(s: State, cert: Cert, height: int)
    requires ConnectCert(s, cert, height).Ok?
    ensures CertApplicable(s, cert, height) && cert.scId in s.scs
  {
  }

  lemma {:induction false} CertifiedStep(scs: ScMap, mid: ScMap, scs1: ScMap, certs: seq<Cert>, height: int, id: ScId)
    requires certs != [] && Certified(scs, certs[..|certs| - 1], height, mid, id)
    requires Certified(mid, [certs[|certs| - 1]], height, scs1, id)
    ensures Certified(scs, certs, height, scs1, id)
  {
    hide Timely;
    var n := |certs| - 1;
    assert [certs[n]][..0] == [];
    assert CertsFor([], id) == [] && Withdrawn([], id) == 0;
    var before, one := CertsFor(certs[..n], id), CertsFor([certs[n]], id);
    assert CertsFor(certs, id) == before + one;
    if id in scs {
      TimelyStep(scs[id], mid[id], before, one, height);
    }
  }

  lemma {:induction false} TimelyStep(sc: CSidechain, mid: CSidechain, a: seq<Cert>, b: seq<Cert>, height: int)
    requires AllTimely(sc, a, height) && AllTimely(mid, b, height)
    requires mid == sc.(lastEpoch := sc.lastEpoch + |a|, lastCertHash := mid.lastCertHash, balance := mid.balance)
    ensures AllTimely(sc, a + b, height)
  {
    forall n | 0 <= n < |a + b| ensures Timely(sc, (a + b)[n], sc.lastEpoch + 1 + n, height) {
      if n < |a| {
        assert (a + b)[n] == a[n];
      } else {
        assert Timely(mid, b[n - |a|], mid.lastEpoch + 1 + (n - |a|), height);
      }
    }
  }

  lemma {:induction false} CertsRecord(s: State, certs: seq<Cert>, height: int, maturity: nat, s1: State,
      undos: seq<TxUndo>, id: ScId)
    requires height >= 1 && ValidCerts(s.scs, certs) && Inv(s, height - 1, height, maturity)
    requires ConnectCerts(s, certs, height) == Ok((s1, undos))
    ensures Certified(s.scs, certs, height, s1.scs, id)
    decreases |certs|
  {
    hide ConnectCert, Inv, Timely;
    if certs == [] {
      assert CertsFor([], id) == [] && Withdrawn([], id) == 0;
    } else {
      var n := |certs| - 1;
      var before := ConnectCerts(s, certs[..n], height).value;
      var last := ConnectCert(before.0, certs[n], height).value;
      ConnectCertsKeeps(s, certs[..n], height, maturity);
      CertsRecord(s, certs[..n], height, maturity, before.0, before.1, id);
      OneCertified(before.0, certs[n], height, maturity, s1, last.1, id);
      CertifiedStep(s.scs, before.0.scs, s1.scs, certs, height, id);
    }
  }

  // ---- A block ----

  /** The events of a height turn what is pending there into balance. */
  lemma {:induction false} EventsRecord(s: State, height: int, maturity: nat, s1: State, undo: EventsUndo, id: ScId)
    requires Inv(s, height - 1, height, maturity) && HandleEvents(s, height) == Ok((s1, undo))
    ensures id in s.scs <==> id in s1.scs
    ensures id in s.scs ==>
      s1.scs[id] == s.scs[id].(balance := s.scs[id].balance + Pending(s.scs, id, height),
                               immature := s.scs[id].immature - {height})
  {
    hide VoidCerts, CeasingOk, CertsOk, CoinsOk, ScsOk;
    if id in s.scs {
      assert id in At(s.events, height).maturing <==> height in s.scs[id].immature;
      if height !in s.scs[id].immature {
        assert s.scs[id].immature - {height} == s.scs[id].immature;
      }
    }
  }

  /** The parts of a block that connected, with the invariant between them. */
  lemma {:induction false} BlockParts(s: State, b: Block, height: int, maturity: nat)
    returns (t: (State, seq<TxUndo>), c: (State, seq<TxUndo>), e: (State, EventsUndo))
    requires height >= 1 && ValidBlock(s.scs, b) && Inv(s, height - 1, height - 1, maturity)
    requires ConnectBlock(s, b, height, maturity).Ok?
    ensures Inv(s, height - 1, height, maturity) && ValidTxs(s.scs, b.txs)
    ensures ConnectTxs(s, b.txs, b.hash, height, maturity) == Ok(t)
    ensures Inv(t.0, height - 1, height, maturity) && ValidCerts(t.0.scs, b.certs)
    ensures ConnectCerts(t.0, b.certs, height) == Ok(c)
    ensures Inv(c.0, height - 1, height, maturity) && HandleEvents(c.0, height) == Ok(e)
    ensures ConnectBlock(s, b, height, maturity).value.0 == e.0
  {
    hide Inv, ConnectTxs, ConnectCerts, HandleEvents;
    t := ConnectTxs(s, b.txs, b.hash, height, maturity).value;
    c := ConnectCerts(t.0, b.certs, height).value;
    e := HandleEvents(c.0, height).value;
    InvForNextBlock(s, height, maturity);
    AfterTxs(s, b, height, maturity, t.0, t.1);
    AfterCerts(t.0, b, height, maturity, c.0, c.1);
  }

  /** What one block does to one sidechain: the record is inherited or new, its certificates are the next ones, amounts
      sent to it are pending for `maturity` blocks, and those due are in its balance. */
  ghost predicate Moved(s: State, b: Block, height: int, maturity: nat, s1: State, id: ScId) {
    && (id in s.scs ==> id in s1.scs && SameCreation(s.scs[id], s1.scs[id]) && !CreatedIn(b, id))
    && (id !in s.scs ==> (id in s1.scs <==> CreatedIn(b, id)))
    && (id !in s.scs && id in s1.scs ==> exists i, j :: CreatedAs(s1.scs[id], b, i, j, id, height))
    && (id !in s1.scs ==> NoneFor(b.txs, id) && CertsFor(b.certs, id) == [])
    && (id in s1.scs ==>
          && var mine := CertsFor(b.certs, id);
          && var epoch, hash := if id in s.scs then s.scs[id].lastEpoch else EPOCH_NULL,
                                if id in s.scs then s.scs[id].lastCertHash else NULL_HASH;
          && (forall n :: 0 <= n < |mine| ==> Timely(s1.scs[id], mine[n], epoch + 1 + n, height))
          && s1.scs[id].lastEpoch == epoch + |mine| && s1.scs[id].lastCertHash == LastHash(mine, hash))
  }

  ghost predicate SameCreation(a: CSidechain, b: CSidechain) {
    && a.creationBlockHash == b.creationBlockHash && a.creationBlockHeight == b.creationBlockHeight
    && a.creationTxHash == b.creationTxHash && a.epochLength == b.epochLength && a.data == b.data
  }

  ghost predicate CreatedIn(b: Block, id: ScId) {
    exists i, j :: 0 <= i < |b.txs| && Creates(b.txs[i], j, id)
  }

  ghost predicate CreatedAs(sc: CSidechain, b: Block, i: nat, j: nat, id: ScId, height: int) {
    && i < |b.txs| && Creates(b.txs[i], j, id)
    && RecordOf(sc, b.txs[i].creations[j], b.txs[i].hash, b.hash, height)
  }

  lemma {:induction false} BlockMoves(s: State, b: Block, height: int, maturity: nat, id: ScId)
    requires height >= 1 && ValidBlock(s.scs, b) && Inv(s, height - 1, height - 1, maturity)
    requires ConnectBlock(s, b, height, maturity).Ok?
    ensures Moved(s, b, height, maturity, ConnectBlock(s, b, height, maturity).value.0, id)
  {
    hide ConnectBlock, ConnectTxs, ConnectCerts, HandleEvents, Inv, Moved;
    var t, c, e := BlockParts(s, b, height, maturity);
    TxsRecord(s, b.txs, b.hash, height, maturity, t.0, t.1, id);
    CertsRecord(t.0, b.certs, height, maturity, c.0, c.1, id);
    EventsRecord(c.0, height, maturity, e.0, e.1, id);
    MovedByParts(s, b, height, maturity, t.0, c.0, e.0, id);
  }

  lemma {:induction false} MovedByParts(s: State, b: Block, height: int, maturity: nat, t: State, c: State, e: State,
      id: ScId)
    requires TxsRecorded(s.scs, b.txs, b.hash, height, t.scs, id) && Certified(t.scs, b.certs, height, c.scs, id)
    requires id in c.scs <==> id in e.scs
    requires id in e.scs ==> e.scs[id] == c.scs[id].(balance := e.scs[id].balance, immature := e.scs[id].immature)
    ensures Moved(s, b, height, maturity, e, id)
  {
    hide NamesNot, CertsFor, Withdrawn;
    if id !in s.scs && id in t.scs {
      var i, j :| NewIn(t.scs, id, b.txs, i, j, b.hash, height);
      assert CreatedAs(e.scs[id], b, i, j, id, height);
    }
    if CreatedIn(b, id) {
      var i, j :| 0 <= i < |b.txs| && Creates(b.txs[i], j, id);
      assert !NoneFor(b.txs, id) by { assert !NamesNot(b.txs[i], id) by { CreationNames(b.txs[i], j, id); } }
    }
    if id in e.scs {
      SameTimes(t.scs[id], e.scs[id], CertsFor(b.certs, id), height);
    }
  }

  lemma {:induction false} CreationNames(tx: Tx, j: nat, id: ScId)
    requires Creates(tx, j, id)
    ensures !NamesNot(tx, id)
  {
  }

  lemma {:induction false} SameTimes(sc: CSidechain, sc1: CSidechain, certs: seq<Cert>, height: int)
    requires AllTimely(sc, certs, height) && SameCreation(sc, sc1)
    ensures forall n :: 0 <= n < |certs| ==> Timely(sc1, certs[n], sc.lastEpoch + 1 + n, height)
  {
  }

  lemma {:induction false} BlockPending(s: State, b: Block, height: int, maturity: nat, id: ScId, k: int)
    requires height >= 1 && ValidBlock(s.scs, b) && Inv(s, height - 1, height - 1, maturity)
    requires ConnectBlock(s, b, height, maturity).Ok?
    ensures Pending(ConnectBlock(s, b, height, maturity).value.0.scs, id, k)
         == if k == height then 0
            else Pending(s.scs, id, k) + if k == height + maturity then Received(b.txs, id) else 0
  {
    hide ConnectBlock, ConnectTxs, ConnectCerts, HandleEvents, Inv;
    var t, c, e := BlockParts(s, b, height, maturity);
    TxsPending(s, b.txs, b.hash, height, maturity, t.0, t.1, id, k);
    CertsRecord(t.0, b.certs, height, maturity, c.0, c.1, id);
    EventsRecord(c.0, height, maturity, e.0, e.1, id);
  }

  function Balance(scs: ScMap, id: ScId): int {
    if id in scs then scs[id].balance else 0
  }

  lemma {:induction false} BlockBalance(s: State, b: Block, height: int, maturity: nat, id: ScId)
    requires height >= 1 && ValidBlock(s.scs, b) && Inv(s, height - 1, height - 1, maturity)
    requires ConnectBlock(s, b, height, maturity).Ok?
    ensures Balance(ConnectBlock(s, b, height, maturity).value.0.scs, id)
         == Balance(s.scs, id) + Pending(s.scs, id, height) + (if maturity == 0 then Received(b.txs, id) else 0)
            - Withdrawn(b.certs, id)
  {
    hide ConnectBlock, ConnectTxs, ConnectCerts, HandleEvents, Inv;
    var t, c, e := BlockParts(s, b, height, maturity);
    TxsRecord(s, b.txs, b.hash, height, maturity, t.0, t.1, id);
    TxsPending(s, b.txs, b.hash, height, maturity, t.0, t.1, id, height);
    CertsRecord(t.0, b.certs, height, maturity, c.0, c.1, id);
    EventsRecord(c.0, height, maturity, e.0, e.1, id);
    assert Balance(t.0.scs, id) == Balance(s.scs, id) by {
      if id !in s.scs && id in t.0.scs {
        var i, j :| NewIn(t.0.scs, id, b.txs, i, j, b.hash, height);
      }
    }
    if id !in t.0.scs {
      NoneWithdrawn(b.certs, id);
    }
  }

  lemma {:induction false} NoneWithdrawn(certs: seq<Cert>, id: ScId)
    requires CertsFor(certs, id) == []
    ensures Withdrawn(certs, id) == 0
  {
    if certs != [] {
      NoneWithdrawn(certs[..|certs| - 1], id);
    }
  }

  // ---- The chain ----

  /** The certificates of a sidechain on a chain, with the heights of their blocks. */
  function CertsOnChain(blocks: seq<Block>, id: ScId): seq<(Cert, int)> {
    if blocks == [] then []
    else
      var n := |blocks| - 1;
      CertsOnChain(blocks[..n], id) + Dated(CertsFor(blocks[n].certs, id), n + 1)
  }

  function Dated(certs: seq<Cert>, height: int): seq<(Cert, int)> {
    seq(|certs|, i requires 0 <= i < |certs| => (certs[i], height))
  }

  ghost predicate CreatedOn(blocks: seq<Block>, id: ScId) {
    exists i :: 0 <= i < |blocks| && CreatedIn(blocks[i], id)
  }

  ghost predicate CreatedAt(sc: CSidechain, blocks: seq<Block>, i: nat, j: nat, k: nat, id: ScId) {
    i < |blocks| && CreatedAs(sc, blocks[i], j, k, id, i + 1)
  }

  /** A sidechain exists exactly when the chain creates it, and its record is that of the creation. */
  ghost predicate CreationRemembered(scs: ScMap, blocks: seq<Block>, id: ScId) {
    && (id in scs <==> CreatedOn(blocks, id))
    && (id in scs ==> exists i, j, k :: CreatedAt(scs[id], blocks, i, j, k, id))
  }

  /** One certificate per epoch, without a gap, each in time and with its checks passed; the last one is on record. */
  ghost predicate CertsRemembered(scs: ScMap, blocks: seq<Block>, id: ScId) {
    var cs := CertsOnChain(blocks, id);
    && (id !in scs ==> cs == [])
    && (id in scs ==>
          && scs[id].lastEpoch == |cs| - 1
          && scs[id].lastCertHash == (if cs == [] then NULL_HASH else cs[|cs| - 1].0.hash)
          && forall n :: 0 <= n < |cs| ==> Timely(scs[id], cs[n].0, n, cs[n].1))
  }

  lemma {:induction false} CreationStep(s: State, blocks: seq<Block>, maturity: nat, s1: State, id: ScId)
    requires blocks != [] && CreationRemembered(s.scs, blocks[..|blocks| - 1], id)
    requires Moved(s, blocks[|blocks| - 1], |blocks|, maturity, s1, id)
    ensures CreationRemembered(s1.scs, blocks, id)
  {
    hide CreatedIn, RecordOf, NoneFor, Timely;
    var n := |blocks| - 1;
    assert forall i :: 0 <= i < n ==> blocks[i] == blocks[..n][i];
    if id in s.scs {
      var i: nat, j: nat, k: nat :| CreatedAt(s.scs[id], blocks[..n], i, j, k, id);
      assert CreatedAt(s1.scs[id], blocks, i, j, k, id) by {
        SameRecord(s.scs[id], s1.scs[id], blocks[i], j, k, id, i + 1);
      }
      var c :| 0 <= c < n && CreatedIn(blocks[..n][c], id);
      assert CreatedIn(blocks[c], id);
    } else if id in s1.scs {
      var j, k :| CreatedAs(s1.scs[id], blocks[n], j, k, id, n + 1);
      assert CreatedAt(s1.scs[id], blocks, n, j, k, id);
      assert CreatedIn(blocks[n], id);
    }
  }

  lemma {:induction false} SameRecord(a: CSidechain, b: CSidechain, block: Block, j: nat, k: nat, id: ScId, height: int)
    requires SameCreation(a, b) && CreatedAs(a, block, j, k, id, height)
    ensures CreatedAs(b, block, j, k, id, height)
  {
  }

  lemma {:induction false} CertsStep(s: State, blocks: seq<Block>, maturity: nat, s1: State, id: ScId)
    requires blocks != [] && CertsRemembered(s.scs, blocks[..|blocks| - 1], id)
    requires Moved(s, blocks[|blocks| - 1], |blocks|, maturity, s1, id)
    ensures CertsRemembered(s1.scs, blocks, id)
  {
    hide CreatedIn, CreatedAs, NoneFor, Timely;
    var n := |blocks| - 1;
    var before, mine := CertsOnChain(blocks[..n], id), CertsFor(blocks[n].certs, id);
    var cs := CertsOnChain(blocks, id);
    assert cs == before + Dated(mine, n + 1);
    if id in s1.scs {
      forall i | 0 <= i < |cs| ensures Timely(s1.scs[id], cs[i].0, i, cs[i].1) {
        if i < |before| {
          SameTime(s.scs[id], s1.scs[id], before[i].0, i, before[i].1);
        } else {
          assert Timely(s1.scs[id], mine[i - |before|], |before| + (i - |before|), n + 1);
        }
      }
    }
  }

  lemma {:induction false} SameTime(a: CSidechain, b: CSidechain, cert: Cert, n: int, height: int)
    requires SameCreation(a, b) && Timely(a, cert, n, height)
    ensures Timely(b, cert, n, height)
  {
  }

  /** The node one block earlier. */
  lemma {:induction false} OneBlockBack(node: Node, maturity: nat) returns (prev: Node)
    requires Consistent(node, maturity) && node.blocks != []
    ensures Consistent(prev, maturity) && prev.blocks == node.blocks[..|node.blocks| - 1]
    ensures var n := |prev.blocks|;
      && Inv(prev.state, n, n, maturity) && ValidBlock(prev.state.scs, node.blocks[n])
      && ConnectBlock(prev.state, node.blocks[n], n + 1, maturity).Ok?
      && ConnectBlock(prev.state, node.blocks[n], n + 1, maturity).value.0 == node.state
  {
    hide Inv, ValidBlock, ConnectBlock;
    var n := |node.blocks| - 1;
    prev := Node(Replay(node.blocks[..n], maturity).value, node.blocks[..n], node.undos[..n]);
    ConsistentInv(prev, maturity);
  }

  lemma {:induction false} ChainRemembered(node: Node, maturity: nat, id: ScId)
    requires Consistent(node, maturity)
    ensures CreationRemembered(node.state.scs, node.blocks, id) && CertsRemembered(node.state.scs, node.blocks, id)
    decreases |node.blocks|
  {
    hide Inv, ValidBlock, ConnectBlock, Moved;
    if node.blocks != [] {
      var prev := OneBlockBack(node, maturity);
      var n := |prev.blocks|;
      ChainRemembered(prev, maturity, id);
      BlockMoves(prev.state, node.blocks[n], n + 1, maturity, id);
      CreationStep(prev.state, node.blocks, maturity, node.state, id);
      CertsStep(prev.state, node.blocks, maturity, node.state, id);
    }
  }

  // ---- Amounts over the chain ----

  function Inflow(blocks: seq<Block>, id: ScId): int {
    if blocks == [] then 0 else Inflow(blocks[..|blocks| - 1], id) + Received(blocks[|blocks| - 1].txs, id)
  }

  function Outflow(blocks: seq<Block>, id: ScId): int {
    if blocks == [] then 0 else Outflow(blocks[..|blocks| - 1], id) + Withdrawn(blocks[|blocks| - 1].certs, id)
  }

  /** What matures at a height: all that the block `maturity` heights earlier sent. */
  function Due(blocks: seq<Block>, id: ScId, k: int, maturity: nat): int {
    if 1 <= k - maturity <= |blocks| < k then Received(blocks[k - maturity - 1].txs, id) else 0
  }

  lemma {:induction false} PendingIsDue(node: Node, maturity: nat, id: ScId, k: int)
    requires Consistent(node, maturity)
    ensures Pending(node.state.scs, id, k) == Due(node.blocks, id, k, maturity)
    decreases |node.blocks|
  {
    hide Inv, ValidBlock, ConnectBlock, Received;
    if node.blocks != [] {
      var prev := OneBlockBack(node, maturity);
      PendingIsDue(prev, maturity, id, k);
      BlockPending(prev.state, node.blocks[|prev.blocks|], |prev.blocks| + 1, maturity, id, k);
    }
  }

  /** The blocks whose transfers have matured. */
  function MatureBlocks(blocks: seq<Block>, maturity: nat): seq<Block> {
    if |blocks| < maturity then [] else blocks[..|blocks| - maturity]
  }

  lemma {:induction false} BalanceIsMature(node: Node, maturity: nat, id: ScId)
    requires Consistent(node, maturity)
    ensures Balance(node.state.scs, id) == Inflow(MatureBlocks(node.blocks, maturity), id) - Outflow(node.blocks, id)
    decreases |node.blocks|
  {
    hide Inv, ValidBlock, ConnectBlock, Received, Withdrawn, Pending;
    if node.blocks == [] {
      assert MatureBlocks([], maturity) == [];
      assert Inflow([], id) == 0 && Outflow([], id) == 0 && Balance(EMPTY_STATE.scs, id) == 0;
    } else {
      var prev := OneBlockBack(node, maturity);
      var n := |prev.blocks|;
      BalanceIsMature(prev, maturity, id);
      PendingIsDue(prev, maturity, id, n + 1);
      BlockBalance(prev.state, node.blocks[n], n + 1, maturity, id);
      OneMoreMature(node.blocks, maturity, id);
    }
  }

  lemma {:induction false} OneMoreMature(blocks: seq<Block>, maturity: nat, id: ScId)
    requires blocks != []
    ensures var n := |blocks| - 1;
      Inflow(MatureBlocks(blocks, maturity), id)
        == Inflow(MatureBlocks(blocks[..n], maturity), id) + Due(blocks[..n], id, n + 1, maturity)
           + if maturity == 0 then Received(blocks[n].txs, id) else 0
  {
    var n := |blocks| - 1;
    var m := n - maturity;
    if m >= 0 {
      var now := MatureBlocks(blocks, maturity);
      assert now[..m] == blocks[..m];
      if maturity == 0 {
        assert MatureBlocks(blocks[..n], maturity) == blocks[..n];
      } else {
        assert MatureBlocks(blocks[..n], maturity) == blocks[..m];
        assert blocks[..n][m] == blocks[m];
      }
    }
  }

  /**
   * Over every run: a sidechain exists exactly when the active chain creates it, with the parameters of that creation;
   * its certificates on the chain are those of the epochs from zero, each connected within the safeguard of the epoch
   * after its own and with its checks passed; what the chain sent to it is pending for `maturity` blocks and in its
   * balance afterwards, less what the certificates withdrew.
   */
  lemma {:induction false} RecordTellsHistory(steps: seq<Step>, maturity: nat, id: ScId, k: int)
    requires ValidRun(FRESH_NODE, steps, maturity)
    ensures Run(FRESH_NODE, steps, maturity).Ok?
    ensures var node := Run(FRESH_NODE, steps, maturity).value;
      && CreationRemembered(node.state.scs, node.blocks, id)
      && CertsRemembered(node.state.scs, node.blocks, id)
      && Pending(node.state.scs, id, k) == Due(node.blocks, id, k, maturity)
      && Balance(node.state.scs, id) == Inflow(MatureBlocks(node.blocks, maturity), id) - Outflow(node.blocks, id)
  {
    RunConsistent(steps, maturity);
    var node := Run(FRESH_NODE, steps, maturity).value;
    ChainRemembered(node, maturity, id);
    PendingIsDue(node, maturity, id, k);
    BalanceIsMature(node, maturity, id);
  }
}
