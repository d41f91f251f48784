/** The chain state as plain maps: what `CCoinsViewCache` promises to its clients,
    without caching. Every operation of src/coins.cpp that touches sidechains,
    scheduled events or certificate coins, in the order in which `ConnectBlock` and
    `DisconnectBlock` (src/main.cpp) use them. A missing key is an absent record;
    coins without any unspent output are absent. */
module Ledger {
  import opened Results
  import opened Coins
  import opened Sidechain
  import opened Ordering

  type CoinMap = map<Hash, CCoins>
  type ScMap = map<ScId, CSidechain>
  type EventMap = map<int, ScEvents>

  datatype State = State(scs: ScMap, events: EventMap, coins: CoinMap)

  const EMPTY_STATE := State(map[], map[], map[])

  datatype OutPoint = OutPoint(hash: Hash, n: nat)
  datatype CreationOut = CreationOut(scId: ScId, value: int, epochLength: int, data: seq<nat>)
  datatype ForwardOut = ForwardOut(scId: ScId, value: int)

  datatype Tx = Tx(
    hash: Hash,
    coinBase: bool,
    version: int,
    vin: seq<OutPoint>,
    vout: seq<TxOut>,
    creations: seq<CreationOut>,
    forwards: seq<ForwardOut>)

  /** `endBlockOk` is the outcome of the checks of the end-epoch block against the
      active chain, `proofOk` that of the proof verifier. */
  datatype Cert = Cert(
    hash: Hash,
    scId: ScId,
    epoch: int,
    version: int,
    vin: seq<OutPoint>,
    vout: seq<TxOut>,
    firstBwtPos: nat,
    endBlockOk: bool,
    proofOk: bool)

  datatype Block = Block(hash: Hash, txs: seq<Tx>, certs: seq<Cert>)

  /** The epoch and hash are meaningful for certificates only. */
  datatype TxUndo = TxUndo(prevouts: seq<TxInUndo>, replacedEpoch: int, replacedHash: Hash)
  datatype VoidedCert = VoidedCert(scId: ScId, outs: seq<TxInUndo>)

  datatype BlockUndo = BlockUndo(
    txUndos: seq<TxUndo>,
    certUndos: seq<TxUndo>,
    matured: map<ScId, int>,
    voided: seq<VoidedCert>)

  // ---- Events ----

  function At(ev: EventMap, k: int): ScEvents {
    if k in ev then ev[k] else NO_EVENTS
  }

  /** Writes a record, dropping it when nothing is scheduled any more. */
  function Put(ev: EventMap, k: int, r: ScEvents): EventMap {
    if r.IsNull() then ev - {k} else ev[k := r]
  }

  function AddMaturing(ev: EventMap, k: int, id: ScId): EventMap {
    Put(ev, k, At(ev, k).(maturing := At(ev, k).maturing + {id}))
  }

  function AddCeasing(ev: EventMap, k: int, id: ScId): EventMap {
    Put(ev, k, At(ev, k).(ceasing := At(ev, k).ceasing + {id}))
  }

  function DropMaturing(ev: EventMap, k: int, id: ScId): EventMap {
    Put(ev, k, At(ev, k).(maturing := At(ev, k).maturing - {id}))
  }

  function DropCeasing(ev: EventMap, k: int, id: ScId): EventMap {
    Put(ev, k, At(ev, k).(ceasing := At(ev, k).ceasing - {id}))
  }

  // ---- Coins ----

  function PutCoins(coins: CoinMap, h: Hash, c: CCoins): CoinMap {
    if IsPruned(c) then coins - {h} else coins[h := c]
  }

  function CoinsAt(coins: CoinMap, h: Hash): CCoins {
    if h in coins then coins[h] else EMPTY
  }

  /** Outputs with unspendable scripts are never recorded (`ClearUnspendable`). */
  function Spendable(vout: seq<TxOut>): seq<TxOut> {
    Trim(seq(|vout|, i requires 0 <= i < |vout| =>
      if vout[i].Out? && IsUnspendable(vout[i].script) then Spent else vout[i]))
  }

  lemma {:induction false} SpendableTrimmed(vout: seq<TxOut>)
    ensures Trimmed(Spendable(vout))
  {
    TrimIsTrim(seq(|vout|, i requires 0 <= i < |vout| =>
      if vout[i].Out? && IsUnspendable(vout[i].script) then Spent else vout[i]));
  }

  function FromTx(tx: Tx, height: int): CCoins {
    CCoins(tx.coinBase, Spendable(tx.vout), height, tx.version, BWT_POS_UNSET, 0)
  }

  function FromCert(cert: Cert, height: int, bwtMaturityHeight: int): CCoins {
    CCoins(false, Spendable(cert.vout), height, cert.version, cert.firstBwtPos, bwtMaturityHeight)
  }

  function SpendOne(coins: CoinMap, o: OutPoint): Result<(CoinMap, TxInUndo)> {
    if o.hash !in coins || !IsAvailable(coins[o.hash], o.n) then Err
    else
      var c := coins[o.hash];
      var d := Spend(c, o.n);
      Ok((PutCoins(coins, o.hash, d), MakeUndo(c.vout[o.n], d)))
  }

  /** The maturity check of `CheckTxInputs`; an input without coins is refused elsewhere. */
  predicate InputsMature(coins: CoinMap, vin: seq<OutPoint>, height: int) {
    forall i :: 0 <= i < |vin| && vin[i].hash in coins ==> OutputMature(coins[vin[i].hash], vin[i].n, height)
  }

  /** The first loop of `UpdateCoins`. */
  function SpendInputs(coins: CoinMap, vin: seq<OutPoint>): Result<(CoinMap, seq<TxInUndo>)> {
    if vin == [] then Ok((coins, []))
    else
      var n := |vin| - 1;
      var before :- SpendInputs(coins, vin[..n]);
      var after :- SpendOne(before.0, vin[n]);
      Ok((after.0, before.1 + [after.1]))
  }

  function RestoreInput(coins: CoinMap, o: OutPoint, undo: TxInUndo): Result<CoinMap> {
    var c :- ApplyUndo(CoinsAt(coins, o.hash), undo, o.n);
    Ok(PutCoins(coins, o.hash, Cleanup(c)))
  }

  /** The restoring loop of `DisconnectBlock`, last input first. */
  function RestoreInputs(coins: CoinMap, vin: seq<OutPoint>, undo: seq<TxInUndo>): Result<CoinMap>
    decreases |vin|
  {
    if |vin| != |undo| then Err
    else if vin == [] then Ok(coins)
    else
      var n := |vin| - 1;
      var c :- RestoreInput(coins, vin[n], undo[n]);
      RestoreInputs(c, vin[..n], undo[..n])
  }

  /** `DisconnectBlock` removes outputs only when they match the block. */
  function RemoveOutputs(coins: CoinMap, h: Hash, expected: CCoins): Result<CoinMap> {
    var c := CoinsAt(coins, h);
    if c == expected || (IsPruned(c) && IsPruned(expected)) then Ok(coins - {h}) else Err
  }

  // ---- Creations and forward transfers ----

  function NewSidechain(cr: CreationOut, txHash: Hash, blockHash: Hash, height: int, maturity: nat): CSidechain {
    CSidechain(blockHash, height, txHash, EPOCH_NULL, NULL_HASH, 0, cr.epochLength, cr.data,
               map[height + maturity := cr.value])
  }

  function AddCreations(scs: ScMap, crs: seq<CreationOut>, txHash: Hash, blockHash: Hash,
                        height: int, maturity: nat): Result<ScMap>
    decreases |crs|
  {
    if crs == [] then Ok(scs)
    else if crs[0].scId in scs then Err
    else
      var sc := NewSidechain(crs[0], txHash, blockHash, height, maturity);
      AddCreations(scs[crs[0].scId := sc], crs[1..], txHash, blockHash, height, maturity)
  }

  function Bump(sc: CSidechain, k: int, v: int): CSidechain {
    sc.(immature := sc.immature[k := (if k in sc.immature then sc.immature[k] else 0) + v])
  }

  function AddForwards(scs: ScMap, fts: seq<ForwardOut>, k: int): Result<ScMap>
    decreases |fts|
  {
    if fts == [] then Ok(scs)
    else if fts[0].scId !in scs then Err
    else AddForwards(scs[fts[0].scId := Bump(scs[fts[0].scId], k, fts[0].value)], fts[1..], k)
  }

  /** `DecrementImmatureAmount`. */
  function Decrement(sc: CSidechain, k: int, v: int): Result<CSidechain> {
    if k !in sc.immature || sc.immature[k] < v then Err
    else if sc.immature[k] == v then Ok(sc.(immature := sc.immature - {k}))
    else Ok(sc.(immature := sc.immature[k := sc.immature[k] - v]))
  }

  /** The first loop of `RevertTxOutputs`. */
  function RevertForwards(scs: ScMap, fts: seq<ForwardOut>, k: int): Result<ScMap>
    decreases |fts|
  {
    if fts == [] then Ok(scs)
    else if fts[0].scId !in scs then Err
    else
      var sc :- Decrement(scs[fts[0].scId], k, fts[0].value);
      RevertForwards(scs[fts[0].scId := sc], fts[1..], k)
  }

  /** The second loop of `RevertTxOutputs`. */
  function RevertCreations(scs: ScMap, crs: seq<CreationOut>, k: int): Result<ScMap>
    decreases |crs|
  {
    if crs == [] then Ok(scs)
    else if crs[0].scId !in scs then Err
    else
      var sc :- Decrement(scs[crs[0].scId], k, crs[0].value);
      if sc.balance > 0 then Err
      else RevertCreations(scs - {crs[0].scId}, crs[1..], k)
  }

  /** The ceasing height scheduled at creation, and cancelled with it. */
  function FirstCeasingHeight(sc: CSidechain): int {
    StartHeightForEpoch(sc, 1) + SafeguardMargin(sc) + 1
  }

  function ScheduleCreations(ev: EventMap, scs: ScMap, crs: seq<CreationOut>, k: int): Result<EventMap>
    decreases |crs|
  {
    if crs == [] then Ok(ev)
    else if crs[0].scId !in scs then Err
    else
      var id := crs[0].scId;
      ScheduleCreations(AddCeasing(AddMaturing(ev, k, id), FirstCeasingHeight(scs[id]), id), scs, crs[1..], k)
  }

  function ScheduleForwards(ev: EventMap, scs: ScMap, fts: seq<ForwardOut>, k: int): Result<EventMap>
    decreases |fts|
  {
    if fts == [] then Ok(ev)
    else if fts[0].scId !in scs then Err
    else ScheduleForwards(AddMaturing(ev, k, fts[0].scId), scs, fts[1..], k)
  }

  function CancelForwards(ev: EventMap, fts: seq<ForwardOut>, k: int): EventMap
    decreases |fts|
  {
    if fts == [] then ev
    else CancelForwards(DropMaturing(ev, k, fts[0].scId), fts[1..], k)
  }

  function CancelCreations(ev: EventMap, scs: ScMap, crs: seq<CreationOut>, k: int): Result<EventMap>
    decreases |crs|
  {
    if crs == [] then Ok(ev)
    else if crs[0].scId !in scs then Err
    else
      var ceasing := FirstCeasingHeight(scs[crs[0].scId]);
      var ev1 := DropMaturing(ev, k, crs[0].scId);
      if ceasing !in ev1 then Err
      else CancelCreations(DropCeasing(ev1, ceasing, crs[0].scId), scs, crs[1..], k)
  }

  /** `HaveScRequirements`. */
  predicate HaveScRequirements(s: State, tx: Tx, height: int) {
    && (forall i :: 0 <= i < |tx.creations| ==> tx.creations[i].scId !in s.scs)
    && (forall i :: 0 <= i < |tx.forwards| ==>
          var id := tx.forwards[i].scId;
          if id in s.scs
          then s.scs[id].epochLength != 0 && StateAtHeight(s.scs[id], height).Alive?
          else exists j :: 0 <= j < |tx.creations| && tx.creations[j].scId == id)
  }

  // ---- Certificates ----

  function SumOuts(vout: seq<TxOut>): nat {
    if vout == [] then 0
    else SumOuts(vout[..|vout| - 1]) + (if vout[|vout| - 1].Out? then vout[|vout| - 1].value else 0)
  }

  function BwtTotal(cert: Cert): nat {
    if cert.firstBwtPos <= |cert.vout| then SumOuts(cert.vout[cert.firstBwtPos..]) else 0
  }

  /** `isEpochDataValid` and `IsCertApplicableToState`. */
  predicate CertApplicable(s: State, cert: Cert, height: int) {
    && cert.scId in s.scs
    && var sc := s.scs[cert.scId];
    && sc.epochLength != 0
    && cert.epoch >= 0
    && cert.epoch == sc.lastEpoch + 1
    && cert.endBlockOk
    && var start := StartHeightForEpoch(sc, cert.epoch + 1);
    && start <= height <= start + SafeguardMargin(sc)
    && StateAtHeight(sc, height).Alive?
    && BwtTotal(cert) <= sc.balance
    && cert.proofOk
  }

  function CertMaturity(sc: CSidechain, height: int): int
    requires sc.epochLength != 0
  {
    StartHeightForEpoch(sc, EpochFor(sc, height) + 1) + SafeguardMargin(sc)
  }

  /** `UpdateScInfo` for a certificate. */
  function WithCert(sc: CSidechain, cert: Cert): CSidechain {
    sc.(balance := sc.balance - BwtTotal(cert), lastEpoch := cert.epoch, lastCertHash := cert.hash)
  }

  /** `RevertCertOutputs`. */
  function WithoutCert(sc: CSidechain, cert: Cert, undo: TxUndo): CSidechain {
    sc.(balance := sc.balance + BwtTotal(cert), lastEpoch := undo.replacedEpoch, lastCertHash := undo.replacedHash)
  }

  /** `ScheduleSidechainEvent` for a certificate. */
  function ScheduleCert(ev: EventMap, sc: CSidechain, cert: Cert): Result<EventMap> {
    var cur := StartHeightForEpoch(sc, cert.epoch + 1) + SafeguardMargin(sc) + 1;
    var next := cur + sc.epochLength;
    if cur !in ev then Err
    else Ok(AddCeasing(DropCeasing(ev, cur, cert.scId), next, cert.scId))
  }

  /** `CancelSidechainEvent` for a certificate. */
  function CancelCert(ev: EventMap, sc: CSidechain, cert: Cert): Result<EventMap> {
    var cur := StartHeightForEpoch(sc, cert.epoch + 2) + SafeguardMargin(sc) + 1;
    var restored := cur - sc.epochLength;
    if cur !in ev then Err
    else Ok(AddCeasing(DropCeasing(ev, cur, cert.scId), restored, cert.scId))
  }

  // ---- Events of a height ----

  function Matured(sc: CSidechain, height: int): CSidechain
    requires height in sc.immature
  {
    sc.(balance := sc.balance + sc.immature[height], immature := sc.immature - {height})
  }

  predicate CanMature(scs: ScMap, ids: set<ScId>, height: int) {
    forall id :: id in ids ==> id in scs && height in scs[id].immature
  }

  function MatureAll(scs: ScMap, ids: set<ScId>, height: int): ScMap
    requires CanMature(scs, ids, height)
  {
    map id | id in scs :: if id in ids then Matured(scs[id], height) else scs[id]
  }

  /** Voids the last certificate of a ceasing sidechain; `Err` is a failed assert. */
  function VoidOne(coins: CoinMap, scs: ScMap, id: ScId): Result<(CoinMap, VoidedCert)> {
    if id !in scs then Err
    else
      var sc := scs[id];
      if sc.lastEpoch == EPOCH_NULL then
        if sc.lastCertHash != NULL_HASH then Err else Ok((coins, VoidedCert(id, [])))
      else if sc.lastCertHash !in coins then Ok((coins, VoidedCert(id, [])))
      else
        var c := coins[sc.lastCertHash];
        if c.bwtMaturityHeight == 0 then Err
        else Ok((PutCoins(coins, sc.lastCertHash, Voided(c)), VoidedCert(id, VoidedOuts(c))))
  }

  function VoidCerts(coins: CoinMap, scs: ScMap, ids: seq<ScId>): Result<(CoinMap, seq<VoidedCert>)> {
    if ids == [] then Ok((coins, []))
    else
      var n := |ids| - 1;
      var before :- VoidCerts(coins, scs, ids[..n]);
      var one :- VoidOne(before.0, scs, ids[n]);
      Ok((one.0, before.1 + [one.1]))
  }

  datatype EventsUndo = EventsUndo(matured: map<ScId, int>, voided: seq<VoidedCert>)

  /** `HandleSidechainEvents`. */
  function HandleEvents(s: State, height: int): Result<(State, EventsUndo)> {
    if height !in s.events then Ok((s, EventsUndo(map[], [])))
    else
      var e := s.events[height];
      if !CanMature(s.scs, e.maturing, height) then Err
      else
        var scs := MatureAll(s.scs, e.maturing, height);
        var matured := map id | id in e.maturing :: s.scs[id].immature[height];
        var v :- VoidCerts(s.coins, scs, Ascending(e.ceasing));
        Ok((State(scs, s.events - {height}, v.0), EventsUndo(matured, v.1)))
  }

  function Unmatured(sc: CSidechain, height: int, amount: int): CSidechain {
    if amount > 0 then Bump(sc.(balance := sc.balance - amount), height, amount) else sc
  }

  predicate CanUnmature(scs: ScMap, matured: map<ScId, int>) {
    forall id :: id in matured ==> id in scs && (matured[id] > 0 ==> scs[id].balance >= matured[id])
  }

  function UnmatureAll(scs: ScMap, matured: map<ScId, int>, height: int): ScMap {
    map id | id in scs :: if id in matured then Unmatured(scs[id], height, matured[id]) else scs[id]
  }

  /** Gives a voided certificate its backward transfers back. */
  function UnvoidOne(coins: CoinMap, scs: ScMap, cert: VoidedCert): Result<CoinMap> {
    if cert.scId !in scs then Err
    else
      var sc := scs[cert.scId];
      if sc.lastEpoch == EPOCH_NULL then Ok(coins)
      else if sc.lastCertHash == NULL_HASH then Err
      else
        var c :- RestoreFrom(CoinsAt(coins, sc.lastCertHash), cert.outs, |cert.outs|);
        Ok(PutCoins(coins, sc.lastCertHash, Cleanup(c)))
  }

  function RestoreCerts(coins: CoinMap, scs: ScMap, voided: seq<VoidedCert>): Result<CoinMap>
    decreases |voided|
  {
    if voided == [] then Ok(coins)
    else
      var c :- UnvoidOne(coins, scs, voided[0]);
      RestoreCerts(c, scs, voided[1..])
  }

  /** `RevertSidechainEvents`. */
  function RevertEvents(s: State, undo: EventsUndo, height: int): Result<State> {
    if height in s.events || !CanUnmature(s.scs, undo.matured) then Err
    else
      var scs := UnmatureAll(s.scs, undo.matured, height);
      var coins :- RestoreCerts(s.coins, scs, undo.voided);
      var ids := set i | 0 <= i < |undo.voided| :: undo.voided[i].scId;
      Ok(State(scs, Put(s.events, height, ScEvents(ids, undo.matured.Keys)), coins))
  }

  // ---- Blocks ----

  /** `UpdateScInfo` and the two scheduling loops for one transaction. */
  function ApplyScOutputs(scs: ScMap, ev: EventMap, tx: Tx, blockHash: Hash, height: int, maturity: nat)
    : Result<(ScMap, EventMap)>
  {
    var created :- AddCreations(scs, tx.creations, tx.hash, blockHash, height, maturity);
    var scs1 :- AddForwards(created, tx.forwards, height + maturity);
    var mid :- ScheduleCreations(ev, scs1, tx.creations, height + maturity);
    var ev1 :- ScheduleForwards(mid, scs1, tx.forwards, height + maturity);
    Ok((scs1, ev1))
  }

  /** The two cancelling loops and `RevertTxOutputs` for one transaction. */
  function RevertScOutputs(scs: ScMap, ev: EventMap, tx: Tx, height: int, maturity: nat): Result<(ScMap, EventMap)> {
    var mid := CancelForwards(ev, tx.forwards, height + maturity);
    var ev1 :- CancelCreations(mid, scs, tx.creations, height + maturity);
    var created :- RevertForwards(scs, tx.forwards, height + maturity);
    var scs1 :- RevertCreations(created, tx.creations, height + maturity);
    Ok((scs1, ev1))
  }

  /** `UpdateCoins` for a transaction. */
  function AddTxCoins(coins: CoinMap, tx: Tx, height: int): Result<(CoinMap, seq<TxInUndo>)> {
    var spent :- if tx.coinBase then Ok((coins, [])) else SpendInputs(coins, tx.vin);
    Ok((PutCoins(spent.0, tx.hash, FromTx(tx, height)), spent.1))
  }

  function RemoveTxCoins(coins: CoinMap, tx: Tx, undo: seq<TxInUndo>, height: int): Result<CoinMap> {
    var removed :- RemoveOutputs(coins, tx.hash, FromTx(tx, height));
    if tx.coinBase then Ok(removed) else RestoreInputs(removed, tx.vin, undo)
  }

  /** The undo record of a coinbase is empty and never written by the source. */
  function ConnectTx(s: State, tx: Tx, blockHash: Hash, height: int, maturity: nat): Result<(State, TxUndo)> {
    var c :- AddTxCoins(s.coins, tx, height);
    var undo := TxUndo(c.1, EPOCH_NULL, NULL_HASH);
    if tx.coinBase then Ok((s.(coins := c.0), undo))
    else if !HaveScRequirements(s, tx, height) || !InputsMature(s.coins, tx.vin, height) then Err
    else
      var r :- ApplyScOutputs(s.scs, s.events, tx, blockHash, height, maturity);
      Ok((State(r.0, r.1, c.0), undo))
  }

  function DisconnectTx(s: State, tx: Tx, undo: TxUndo, height: int, maturity: nat): Result<State> {
    var r :- RevertScOutputs(s.scs, s.events, tx, height, maturity);
    var coins :- RemoveTxCoins(s.coins, tx, undo.prevouts, height);
    Ok(State(r.0, r.1, coins))
  }

  function ConnectCert(s: State, cert: Cert, height: int): Result<(State, TxUndo)> {
    if !CertApplicable(s, cert, height) || !InputsMature(s.coins, cert.vin, height) then Err
    else
      var sc := s.scs[cert.scId];
      var spent :- SpendInputs(s.coins, cert.vin);
      var coins := PutCoins(spent.0, cert.hash, FromCert(cert, height, CertMaturity(sc, height)));
      var ev :- ScheduleCert(s.events, sc, cert);
      Ok((State(s.scs[cert.scId := WithCert(sc, cert)], ev, coins), TxUndo(spent.1, sc.lastEpoch, sc.lastCertHash)))
  }

  function DisconnectCert(s: State, cert: Cert, undo: TxUndo, height: int): Result<State> {
    if cert.scId !in s.scs || s.scs[cert.scId].epochLength == 0 then Err
    else
      var sc := s.scs[cert.scId];
      var coins :- RemoveOutputs(s.coins, cert.hash, FromCert(cert, height, CertMaturity(sc, height)));
      var ev :- CancelCert(s.events, sc, cert);
      var restored :- RestoreInputs(coins, cert.vin, undo.prevouts);
      Ok(State(s.scs[cert.scId := WithoutCert(sc, cert, undo)], ev, restored))
  }

  function ConnectTxs(s: State, txs: seq<Tx>, blockHash: Hash, height: int, maturity: nat): Result<(State,
      seq<TxUndo>)> {
    if txs == [] then Ok((s, []))
    else
      var n := |txs| - 1;
      var before :- ConnectTxs(s, txs[..n], blockHash, height, maturity);
      var after :- ConnectTx(before.0, txs[n], blockHash, height, maturity);
      Ok((after.0, before.1 + [after.1]))
  }

  function ConnectCerts(s: State, certs: seq<Cert>, height: int): Result<(State, seq<TxUndo>)> {
    if certs == [] then Ok((s, []))
    else
      var n := |certs| - 1;
      var before :- ConnectCerts(s, certs[..n], height);
      var after :- ConnectCert(before.0, certs[n], height);
      Ok((after.0, before.1 + [after.1]))
  }

  /** The check of `ConnectBlock` that no unspent transaction is overwritten. */
  predicate NoOverwrite(s: State, b: Block) {
    && (forall i :: 0 <= i < |b.txs| ==> b.txs[i].hash !in s.coins)
    && (forall i :: 0 <= i < |b.certs| ==> b.certs[i].hash !in s.coins)
  }

  function ConnectBlock(s: State, b: Block, height: int, maturity: nat): Result<(State, BlockUndo)> {
    if !NoOverwrite(s, b) then Err
    else
      var t :- ConnectTxs(s, b.txs, b.hash, height, maturity);
      var c :- ConnectCerts(t.0, b.certs, height);
      var e :- HandleEvents(c.0, height);
      Ok((e.0, BlockUndo(t.1, c.1, e.1.matured, e.1.voided)))
  }

  function DisconnectTxs(s: State, txs: seq<Tx>, undos: seq<TxUndo>, height: int, maturity: nat): Result<State>
    decreases |txs|
  {
    if |txs| != |undos| then Err
    else if txs == [] then Ok(s)
    else
      var n := |txs| - 1;
      var t :- DisconnectTx(s, txs[n], undos[n], height, maturity);
      DisconnectTxs(t, txs[..n], undos[..n], height, maturity)
  }

  function DisconnectCerts(s: State, certs: seq<Cert>, undos: seq<TxUndo>, height: int): Result<State>
    decreases |certs|
  {
    if |certs| != |undos| then Err
    else if certs == [] then Ok(s)
    else
      var n := |certs| - 1;
      var t :- DisconnectCert(s, certs[n], undos[n], height);
      DisconnectCerts(t, certs[..n], undos[..n], height)
  }

  function DisconnectBlock(s: State, b: Block, undo: BlockUndo, height: int, maturity: nat): Result<State> {
    var e :- RevertEvents(s, EventsUndo(undo.matured, undo.voided), height);
    var c :- DisconnectCerts(e, b.certs, undo.certUndos, height);
    DisconnectTxs(c, b.txs, undo.txUndos, height, maturity)
  }
}
