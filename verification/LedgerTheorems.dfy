/** What holds over every run: reorganisations leave no trace, sidechain funds are
    conserved, and a sidechain ceases exactly once. */
module LedgerTheorems {
  import opened Results
  import opened Sums
  import opened Coins
  import opened Sidechain
  import opened Ledger
  import opened LedgerInvariant
  import opened LedgerSteps
  import opened LedgerUndo
  import opened LedgerRun

  // ---- Conservation of sidechain funds ----

  /** Balance plus everything still maturing. */
  ghost function Funds(scs: ScMap, id: ScId): int {
    if id in scs then scs[id].balance + Total(scs[id].immature) else 0
  }

  function CreatedValue(crs: seq<CreationOut>, id: ScId): int {
    if crs == [] then 0
    else (if crs[0].scId == id then crs[0].value else 0) + CreatedValue(crs[1..], id)
  }

  function ReceivedTx(tx: Tx, id: ScId): int {
    CreatedValue(tx.creations, id) + Owed(tx.forwards, id)
  }

  function Received(txs: seq<Tx>, id: ScId): int {
    if txs == [] then 0
    else Received(txs[..|txs| - 1], id) + ReceivedTx(txs[|txs| - 1], id)
  }

  function Withdrawn(certs: seq<Cert>, id: ScId): int {
    if certs == [] then 0
    else
      var last := certs[|certs| - 1];
      Withdrawn(certs[..|certs| - 1], id) + (if last.scId == id then BwtTotal(last) else 0)
  }

  /** What a chain paid into a sidechain, by creation and forward transfers, less what
      its certificates paid out. */
  function Net(blocks: seq<Block>, id: ScId): int {
    if blocks == [] then 0
    else
      var b := blocks[|blocks| - 1];
      Net(blocks[..|blocks| - 1], id) + Received(b.txs, id) - Withdrawn(b.certs, id)
  }

  lemma {:induction false} CreatedValueAbsent(crs: seq<CreationOut>, id: ScId)
    requires id !in CreationIds(crs)
    ensures CreatedValue(crs, id) == 0
  {
    if crs != [] {
      CreatedValueAbsent(crs[1..], id);
    }
  }

  lemma {:induction false} CreatedValueOnce(crs: seq<CreationOut>, id: ScId, i: nat)
    requires NoDuplicates(crs) && i < |crs| && crs[i].scId == id
    ensures CreatedValue(crs, id) == crs[i].value
  {
    if i == 0 {
      CreatedValueAbsent(crs[1..], id);
    } else {
      CreationIdIn(crs[1..], i - 1);
      CreatedValueOnce(crs[1..], id, i - 1);
    }
  }

  lemma {:induction false} TotalSingle(k: int, v: int)
    ensures Total(map[k := v]) == v
  {
    var m := map[k := v];
    TotalMinus(m, k);
    assert m - {k} == map[];
  }

  lemma {:induction false} FundsOfBump(sc: CSidechain, k: int, v: int)
    ensures var sc1 := BumpBy(sc, k, v); sc1.balance + Total(sc1.immature) == sc.balance + Total(sc.immature) + v
  {
    TotalPut(sc.immature, k, (if k in sc.immature then sc.immature[k] else 0) + v);
  }

  lemma {:induction false} TxConserves(scs: ScMap, created: ScMap, scs1: ScMap, tx: Tx, blockHash: Hash, height: int,
      maturity: nat, id: ScId)
    requires ValidTx(tx) && ScsApplied(scs, created, scs1, tx, blockHash, height, maturity)
    ensures Funds(scs1, id) == Funds(scs, id) + ReceivedTx(tx, id)
  {
    OwedPositive(tx.forwards, id);
    if id !in created {
      CreatedValueAbsent(tx.creations, id);
    } else {
      FundsOfBump(created[id], height + maturity, Owed(tx.forwards, id));
      if id in scs {
        CreatedValueAbsent(tx.creations, id);
      } else {
        var i := CreationIdAt(tx.creations, id);
        CreatedValueOnce(tx.creations, id, i);
        TotalSingle(height + maturity, tx.creations[i].value);
      }
    }
  }

  lemma {:induction false} ConnectTxConserves(s: State, tx: Tx, blockHash: Hash, height: int, maturity: nat,
      s1: State, undo: TxUndo, id: ScId)
    requires ValidTx(tx) && NonNull(s.events)
    requires ConnectTx(s, tx, blockHash, height, maturity) == Ok((s1, undo))
    ensures Funds(s1.scs, id) == Funds(s.scs, id) + ReceivedTx(tx, id)
  {
    if !tx.coinBase {
      var created := ApplyScOutputsForm(s.scs, s.events, tx, blockHash, height, maturity);
      TxConserves(s.scs, created, s1.scs, tx, blockHash, height, maturity, id);
    }
  }

  lemma {:induction false} ConnectTxsConserves(s: State, txs: seq<Tx>, blockHash: Hash, height: int, maturity: nat,
      s1: State, undos: seq<TxUndo>, id: ScId)
    requires height >= 1 && ValidTxs(s.scs, txs) && Inv(s, height - 1, height, maturity)
    requires ConnectTxs(s, txs, blockHash, height, maturity) == Ok((s1, undos))
    ensures Funds(s1.scs, id) == Funds(s.scs, id) + Received(txs, id)
    decreases |txs|
  {
    if txs != [] {
      var n := |txs| - 1;
      var before, undos0, last := ConnectTxsSplits(s, txs, blockHash, height, maturity, s1, undos);
      assert NonNull(before.events) && ValidTx(txs[n]) by {
        TxsPrefixNonNull(s, txs, blockHash, height, maturity, before, undos0);
      }
      ConnectTxConserves(before, txs[n], blockHash, height, maturity, s1, last, id);
      ConnectTxsConserves(s, txs[..n], blockHash, height, maturity, before, undos0, id);
    }
  }

  lemma {:induction false} TxsPrefixNonNull(s: State, txs: seq<Tx>, blockHash: Hash, height: int, maturity: nat,
      before: State, undos0: seq<TxUndo>)
    requires height >= 1 && ValidTxs(s.scs, txs) && Inv(s, height - 1, height, maturity) && txs != []
    requires ConnectTxs(s, txs[..|txs| - 1], blockHash, height, maturity) == Ok((before, undos0))
    ensures NonNull(before.events) && ValidTx(txs[|txs| - 1])
  {
    ConnectTxsKeeps(s, txs[..|txs| - 1], blockHash, height, maturity);
  }

  lemma {:induction false} ConnectCertsConserves(s: State, certs: seq<Cert>, height: int, s1: State,
      undos: seq<TxUndo>, id: ScId)
    requires ConnectCerts(s, certs, height) == Ok((s1, undos))
    ensures Funds(s1.scs, id) == Funds(s.scs, id) - Withdrawn(certs, id)
    decreases |certs|
  {
    if certs != [] {
      var n := |certs| - 1;
      var before := ConnectCerts(s, certs[..n], height).value;
      ConnectCertsConserves(s, certs[..n], height, before.0, before.1, id);
    }
  }

  lemma {:induction false} MaturingConserves(scs: ScMap, ids: set<ScId>, height: int, id: ScId)
    requires CanMature(scs, ids, height)
    ensures Funds(MatureAll(scs, ids, height), id) == Funds(scs, id)
  {
    if id in scs && id in ids {
      TotalMinus(scs[id].immature, height);
    }
  }

  lemma {:induction false} HandleConserves(s: State, height: int, s1: State, undo: EventsUndo, id: ScId)
    requires HandleEvents(s, height) == Ok((s1, undo))
    ensures Funds(s1.scs, id) == Funds(s.scs, id)
  {
    if height in s.events {
      MaturingConserves(s.scs, s.events[height].maturing, height, id);
    }
  }

  lemma {:induction false} BlockConserves(s: State, b: Block, height: int, maturity: nat, id: ScId)
    requires height >= 1 && ValidBlock(s.scs, b) && Inv(s, height - 1, height - 1, maturity)
    requires ConnectBlock(s, b, height, maturity).Ok?
    ensures Funds(ConnectBlock(s, b, height, maturity).value.0.scs, id)
         == Funds(s.scs, id) + Received(b.txs, id) - Withdrawn(b.certs, id)
  {
    var t := ConnectTxs(s, b.txs, b.hash, height, maturity).value;
    var c := ConnectCerts(t.0, b.certs, height).value;
    var e := HandleEvents(c.0, height).value;
    InvForNextBlock(s, height, maturity);
    ConnectTxsConserves(s, b.txs, b.hash, height, maturity, t.0, t.1, id);
    ConnectCertsConserves(t.0, b.certs, height, c.0, c.1, id);
    HandleConserves(c.0, height, e.0, e.1, id);
  }

  // ---- Runs ----

  /** The chain state of a node with the active chain and its undo data. */
  datatype Node = Node(state: State, blocks: seq<Block>, undos: seq<BlockUndo>)

  const FRESH_NODE := Node(EMPTY_STATE, [], [])

  /** The state obtained by connecting a chain from scratch, block `i` at height `i + 1`. */
  function Replay(blocks: seq<Block>, maturity: nat): Result<State> {
    if blocks == [] then Ok(EMPTY_STATE)
    else
      var n := |blocks| - 1;
      var s :- Replay(blocks[..n], maturity);
      var r :- ConnectBlock(s, blocks[n], n + 1, maturity);
      Ok(r.0)
  }

  datatype Step = Connect(block: Block) | Disconnect

  /** A block that does not connect is dropped; a tip that does not disconnect stops the node. */
  function Take(node: Node, step: Step, maturity: nat): Result<Node> {
    match step
    case Connect(b) =>
      (match ConnectBlock(node.state, b, |node.blocks| + 1, maturity)
       case Ok(r) => Ok(Node(r.0, node.blocks + [b], node.undos + [r.1]))
       case Err => Ok(node))
    case Disconnect =>
      if node.blocks == [] || |node.undos| != |node.blocks| then Ok(node)
      else
        var n := |node.blocks| - 1;
        var s :- DisconnectBlock(node.state, node.blocks[n], node.undos[n], n + 1, maturity);
        Ok(Node(s, node.blocks[..n], node.undos[..n]))
  }

  function Run(node: Node, steps: seq<Step>, maturity: nat): Result<Node> {
    if steps == [] then Ok(node)
    else
      var before :- Run(node, steps[..|steps| - 1], maturity);
      Take(before, steps[|steps| - 1], maturity)
  }

  /** Every block offered to the node is valid for the state it meets. */
  ghost predicate ValidRun(node: Node, steps: seq<Step>, maturity: nat) {
    steps != [] ==>
      var n := |steps| - 1;
      && ValidRun(node, steps[..n], maturity)
      && (Run(node, steps[..n], maturity).Ok? && steps[n].Connect? ==>
            ValidBlock(Run(node, steps[..n], maturity).value.state.scs, steps[n].block))
  }

  /** The node's state and undo data are those of connecting its chain from scratch. */
  ghost predicate Consistent(node: Node, maturity: nat)
    decreases |node.blocks|
  {
    && |node.undos| == |node.blocks|
    && if node.blocks == [] then node.state == EMPTY_STATE
       else
         var n := |node.blocks| - 1;
         && Replay(node.blocks[..n], maturity).Ok?
         && var s := Replay(node.blocks[..n], maturity).value;
         && Consistent(Node(s, node.blocks[..n], node.undos[..n]), maturity)
         && ValidBlock(s.scs, node.blocks[n])
         && ConnectBlock(s, node.blocks[n], n + 1, maturity) == Ok((node.state, node.undos[n]))
  }

  lemma {:induction false} EmptyInv(maturity: nat)
    ensures Inv(EMPTY_STATE, 0, 0, maturity)
  {
  }

  lemma {:induction false} ConsistentInv(node: Node, maturity: nat)
    requires Consistent(node, maturity)
    ensures Inv(node.state, |node.blocks|, |node.blocks|, maturity)
    ensures Replay(node.blocks, maturity) == Ok(node.state)
    decreases |node.blocks|
  {
    if node.blocks == [] {
      EmptyInv(maturity);
    } else {
      var n := |node.blocks| - 1;
      var s := Replay(node.blocks[..n], maturity).value;
      ConsistentInv(Node(s, node.blocks[..n], node.undos[..n]), maturity);
      ConnectBlockKeeps(s, node.blocks[n], n + 1, maturity);
    }
  }

  lemma {:induction false} ConnectConsistent(node: Node, b: Block, maturity: nat, s1: State, undo: BlockUndo)
    requires Consistent(node, maturity) && ValidBlock(node.state.scs, b)
    requires ConnectBlock(node.state, b, |node.blocks| + 1, maturity) == Ok((s1, undo))
    ensures Consistent(Node(s1, node.blocks + [b], node.undos + [undo]), maturity)
  {
    ConsistentInv(node, maturity);
    var next := Node(s1, node.blocks + [b], node.undos + [undo]);
    assert next.blocks[..|node.blocks|] == node.blocks && next.undos[..|node.blocks|] == node.undos;
  }

  /** One step keeps the node consistent, and a consistent node never fails to disconnect. */
  lemma {:induction false} TakeConsistent(node: Node, step: Step, maturity: nat)
    requires Consistent(node, maturity)
    requires step.Connect? ==> ValidBlock(node.state.scs, step.block)
    ensures Take(node, step, maturity).Ok? && Consistent(Take(node, step, maturity).value, maturity)
  {
    hide ValidBlock, Inv, ConnectBlock, DisconnectBlock;
    match step
    case Connect(b) =>
      var r := ConnectBlock(node.state, b, |node.blocks| + 1, maturity);
      if r.Ok? {
        ConnectConsistent(node, b, maturity, r.value.0, r.value.1);
      }
    case Disconnect =>
      if node.blocks != [] {
        var n := |node.blocks| - 1;
        var s := Replay(node.blocks[..n], maturity).value;
        ConsistentInv(Node(s, node.blocks[..n], node.undos[..n]), maturity);
        DisconnectUndoesConnect(s, node.blocks[n], n + 1, maturity);
      }
  }

  lemma {:induction false} RunConsistent(steps: seq<Step>, maturity: nat)
    requires ValidRun(FRESH_NODE, steps, maturity)
    ensures Run(FRESH_NODE, steps, maturity).Ok? && Consistent(Run(FRESH_NODE, steps, maturity).value, maturity)
    decreases |steps|
  {
    if steps != [] {
      var n := |steps| - 1;
      RunConsistent(steps[..n], maturity);
      TakeConsistent(Run(FRESH_NODE, steps[..n], maturity).value, steps[n], maturity);
    }
  }

  /** After any run of connected and disconnected blocks the state is the one obtained by
      connecting the active chain from scratch, it satisfies the invariant, and no
      disconnection ever failed. */
  lemma {:induction false} ReorganisationsLeaveNoTrace(steps: seq<Step>, maturity: nat)
    requires ValidRun(FRESH_NODE, steps, maturity)
    ensures Run(FRESH_NODE, steps, maturity).Ok?
    ensures var node := Run(FRESH_NODE, steps, maturity).value;
      && Replay(node.blocks, maturity) == Ok(node.state)
      && Inv(node.state, |node.blocks|, |node.blocks|, maturity)
  {
    RunConsistent(steps, maturity);
    ConsistentInv(Run(FRESH_NODE, steps, maturity).value, maturity);
  }

  lemma {:induction false} FundsStep(node: Node, maturity: nat, id: ScId) returns (prev: Node)
    requires Consistent(node, maturity) && node.blocks != []
    ensures Consistent(prev, maturity) && prev.blocks == node.blocks[..|node.blocks| - 1]
    ensures var b := node.blocks[|node.blocks| - 1];
      Funds(node.state.scs, id) == Funds(prev.state.scs, id) + Received(b.txs, id) - Withdrawn(b.certs, id)
  {
    var n := |node.blocks| - 1;
    var s := Replay(node.blocks[..n], maturity).value;
    prev := Node(s, node.blocks[..n], node.undos[..n]);
    ConsistentInv(prev, maturity);
    BlockConserves(s, node.blocks[n], n + 1, maturity, id);
  }

  lemma {:induction false} FundsAreNet(node: Node, maturity: nat, id: ScId)
    requires Consistent(node, maturity)
    ensures Funds(node.state.scs, id) == Net(node.blocks, id)
    decreases |node.blocks|
  {
    if node.blocks != [] {
      var prev := FundsStep(node, maturity, id);
      FundsAreNet(prev, maturity, id);
    }
  }

  /** Funds over every run: balance plus immature amounts is what the active chain paid in
      less what its certificates paid out, and no balance is negative. */
  lemma {:induction false} FundsConserved(steps: seq<Step>, maturity: nat, id: ScId)
    requires ValidRun(FRESH_NODE, steps, maturity)
    ensures Run(FRESH_NODE, steps, maturity).Ok?
    ensures var node := Run(FRESH_NODE, steps, maturity).value;
      && Funds(node.state.scs, id) == Net(node.blocks, id)
      && (id in node.state.scs ==> node.state.scs[id].balance >= 0)
  {
    RunConsistent(steps, maturity);
    var node := Run(FRESH_NODE, steps, maturity).value;
    FundsAreNet(node, maturity, id);
    ConsistentInv(node, maturity);
    assert id in node.state.scs ==> ScOk(node.state.scs[id], |node.blocks|, |node.blocks|, maturity);
  }

  // ---- Ceasing ----

  ghost predicate CeasedAt(sc: CSidechain, height: int) {
    sc.epochLength != 0 && StateAtHeight(sc, height).Ceased?
  }

  ghost predicate AliveAt(sc: CSidechain, height: int) {
    sc.epochLength != 0 && StateAtHeight(sc, height).Alive?
  }

  /** Over every run, a sidechain is reported ceased at the tip exactly when its ceasing
      height is reached, and it sits in the ceasing set of that height exactly until then,
      and never in another. */
  lemma {:induction false} CeasingSetIsExact(steps: seq<Step>, maturity: nat, id: ScId, k: int)
    requires ValidRun(FRESH_NODE, steps, maturity)
    ensures Run(FRESH_NODE, steps, maturity).Ok?
    ensures var node := Run(FRESH_NODE, steps, maturity).value;
      id in node.state.scs ==>
        var sc, tip := node.state.scs[id], |node.blocks|;
        && (CeasedAt(sc, tip) <==> tip >= CeasingHeight(sc))
        && (AliveAt(sc, tip) <==> tip < CeasingHeight(sc))
        && (id in At(node.state.events, k).ceasing <==> AliveAt(sc, tip) && k == CeasingHeight(sc))
  {
    ReorganisationsLeaveNoTrace(steps, maturity);
    var node := Run(FRESH_NODE, steps, maturity).value;
    if id in node.state.scs {
      var sc, tip := node.state.scs[id], |node.blocks|;
      assert ScOk(sc, tip, tip, maturity);
      CeasedFromCeasingHeight(sc, tip);
      assert id in At(node.state.events, k).ceasing <==> k == CeasingHeight(sc) && k > tip;
    }
  }

  /** Certificates leave a sidechain alone whose ceasing height is past. */
  lemma {:induction false} CertsKeepCeased(s: State, certs: seq<Cert>, height: int, maturity: nat, id: ScId)
    requires height >= 1 && ValidCerts(s.scs, certs) && Inv(s, height - 1, height, maturity)
    requires ConnectCerts(s, certs, height).Ok? && id in s.scs && CeasingHeight(s.scs[id]) <= height
    ensures var r := ConnectCerts(s, certs, height).value.0; id in r.scs && r.scs[id] == s.scs[id]
    decreases |certs|
  {
    hide MaturingOk, CeasingOk, CertsOk, EventsOk, CoinsOk, StateAtHeight;
    if certs != [] {
      var n := |certs| - 1;
      CertsKeepCeased(s, certs[..n], height, maturity, id);
      ConnectCertsKeeps(s, certs[..n], height, maturity);
      var before := ConnectCerts(s, certs[..n], height).value.0;
      CertFindsCeasingRecord(before, certs[n], height, maturity);
    }
  }

  // ---- No funds for a ceased sidechain ----

  /** No creation and no forward transfer of the transactions names the sidechain. */
  ghost predicate NoneFor(txs: seq<Tx>, id: ScId) {
    forall i :: 0 <= i < |txs| ==> NamesNot(txs[i], id)
  }

  ghost predicate NamesNot(tx: Tx, id: ScId) {
    && (forall j :: 0 <= j < |tx.creations| ==> tx.creations[j].scId != id)
    && (forall j :: 0 <= j < |tx.forwards| ==> tx.forwards[j].scId != id)
  }

  lemma {:induction false} OwedAbsent(fts: seq<ForwardOut>, id: ScId)
    requires forall j :: 0 <= j < |fts| ==> fts[j].scId != id
    ensures Owed(fts, id) == 0
  {
    if fts != [] {
      OwedAbsent(fts[1..], id);
    }
  }

  lemma {:induction false} NoneCreated(crs: seq<CreationOut>, id: ScId)
    requires forall j :: 0 <= j < |crs| ==> crs[j].scId != id
    ensures id !in CreationIds(crs)
  {
    if crs != [] {
      NoneCreated(crs[1..], id);
    }
  }

  lemma {:induction false} NothingReceived(tx: Tx, id: ScId)
    requires NamesNot(tx, id)
    ensures ReceivedTx(tx, id) == 0
  {
    NoneCreated(tx.creations, id);
    CreatedValueAbsent(tx.creations, id);
    OwedAbsent(tx.forwards, id);
  }

  /** A transaction that connects does not name a ceased sidechain, and leaves its record alone. */
  lemma {:induction false} TxAvoidsCeased(s: State, tx: Tx, blockHash: Hash, height: int, maturity: nat, s1: State,
      undo: TxUndo, id: ScId)
    requires ValidTx(tx) && NonNull(s.events) && ConnectTx(s, tx, blockHash, height, maturity) == Ok((s1, undo))
    requires id in s.scs && CeasedAt(s.scs[id], height)
    ensures NamesNot(tx, id) && id in s1.scs && s1.scs[id] == s.scs[id]
  {
    hide StateAtHeight;
    if !tx.coinBase {
      var created := ApplyScOutputsForm(s.scs, s.events, tx, blockHash, height, maturity);
      OwedAbsent(tx.forwards, id);
    }
  }

  lemma {:induction false} TxsAvoidCeased(s: State, txs: seq<Tx>, blockHash: Hash, height: int, maturity: nat,
      s1: State, undos: seq<TxUndo>, id: ScId)
    requires height >= 1 && ValidTxs(s.scs, txs) && Inv(s, height - 1, height, maturity)
    requires ConnectTxs(s, txs, blockHash, height, maturity) == Ok((s1, undos))
    requires id in s.scs && CeasedAt(s.scs[id], height)
    ensures NoneFor(txs, id) && Received(txs, id) == 0 && id in s1.scs && s1.scs[id] == s.scs[id]
    decreases |txs|
  {
    hide NamesNot, StateAtHeight, ConnectTx, Inv, ReceivedTx;
    if txs != [] {
      var n := |txs| - 1;
      var before, undos0, last := ConnectTxsSplits(s, txs, blockHash, height, maturity, s1, undos);
      TxsPrefixNonNull(s, txs, blockHash, height, maturity, before, undos0);
      TxsAvoidCeased(s, txs[..n], blockHash, height, maturity, before, undos0, id);
      TxAvoidsCeased(before, txs[n], blockHash, height, maturity, s1, last, id);
      NothingReceived(txs[n], id);
      assert forall i :: 0 <= i < n ==> txs[i] == txs[..n][i];
    }
  }

  /** No block pays into a sidechain that is ceased at its height, and none pays out of one. */
  lemma {:induction false} CeasedReceivesNothing(s: State, b: Block, height: int, maturity: nat, id: ScId)
    requires height >= 1 && ValidBlock(s.scs, b) && Inv(s, height - 1, height - 1, maturity)
    requires ConnectBlock(s, b, height, maturity).Ok?
    requires id in s.scs && CeasedAt(s.scs[id], height)
    ensures NoneFor(b.txs, id) && Received(b.txs, id) == 0 && Withdrawn(b.certs, id) == 0
    ensures Funds(ConnectBlock(s, b, height, maturity).value.0.scs, id) == Funds(s.scs, id)
  {
    hide StateAtHeight, ConnectTxs, ConnectCerts, HandleEvents, NoneFor, Received, Withdrawn;
    var t := ConnectTxs(s, b.txs, b.hash, height, maturity).value;
    var c := ConnectCerts(t.0, b.certs, height).value;
    InvForNextBlock(s, height, maturity);
    assert ScOk(s.scs[id], height - 1, height, maturity);
    TxsAvoidCeased(s, b.txs, b.hash, height, maturity, t.0, t.1, id);
    CeasedFromCeasingHeight(s.scs[id], height);
    AfterTxs(s, b, height, maturity, t.0, t.1);
    CertsKeepCeased(t.0, b.certs, height, maturity, id);
    ConnectCertsConserves(t.0, b.certs, height, c.0, c.1, id);
    BlockConserves(s, b, height, maturity, id);
  }

  /** A ceased sidechain stays ceased: no later block moves its last epoch. */
  lemma {:induction false} CeasedStaysCeased(s: State, b: Block, height: int, maturity: nat, id: ScId)
    requires height >= 1 && ValidBlock(s.scs, b) && Inv(s, height - 1, height - 1, maturity)
    requires ConnectBlock(s, b, height, maturity).Ok?
    requires id in s.scs && CeasedAt(s.scs[id], height - 1)
    ensures var s1 := ConnectBlock(s, b, height, maturity).value.0;
      id in s1.scs && s1.scs[id].lastEpoch == s.scs[id].lastEpoch && CeasedAt(s1.scs[id], height)
  {
    hide MaturingOk, CeasingOk, CertsOk, EventsOk, CoinsOk, ConnectTxs, ConnectCerts, HandleEvents, StateAtHeight,
      CeasingHeight;
    var t := ConnectTxs(s, b.txs, b.hash, height, maturity).value;
    var c := ConnectCerts(t.0, b.certs, height).value;
    assert ScOk(s.scs[id], height - 1, height - 1, maturity);
    CeasedFromCeasingHeight(s.scs[id], height - 1);
    AfterTxs(s, b, height, maturity, t.0, t.1);
    CertsKeepCeased(t.0, b.certs, height, maturity, id);
    AfterCerts(t.0, b, height, maturity, c.0, c.1);
    HandleEventsKeeps(c.0, height, maturity);
    var s1 := ConnectBlock(s, b, height, maturity).value.0;
    assert ScOk(s1.scs[id], height, height, maturity);
    CeasedFromCeasingHeight(s1.scs[id], height);
  }

  lemma {:induction false} CeasedStep(node: Node, maturity: nat, id: ScId) returns (prev: Node)
    requires Consistent(node, maturity) && node.blocks != []
    ensures Consistent(prev, maturity) && prev.blocks == node.blocks[..|node.blocks| - 1]
    ensures id in prev.state.scs && CeasedAt(prev.state.scs[id], |node.blocks| - 1) ==>
      && id in node.state.scs && CeasedAt(node.state.scs[id], |node.blocks|)
      && node.state.scs[id].lastEpoch == prev.state.scs[id].lastEpoch
      && Funds(node.state.scs, id) == Funds(prev.state.scs, id)
  {
    var n := |node.blocks| - 1;
    var s := Replay(node.blocks[..n], maturity).value;
    prev := Node(s, node.blocks[..n], node.undos[..n]);
    ConsistentInv(prev, maturity);
    if id in s.scs && CeasedAt(s.scs[id], n) {
      CeasedStaysCeased(s, node.blocks[n], n + 1, maturity, id);
      CeasedLater(s.scs[id], n, maturity);
      CeasedReceivesNothing(s, node.blocks[n], n + 1, maturity, id);
    }
  }

  lemma {:induction false} CeasedLater(sc: CSidechain, height: int, maturity: nat)
    requires ScOk(sc, height, height, maturity) && CeasedAt(sc, height)
    ensures CeasedAt(sc, height + 1)
  {
    CeasedFromCeasingHeight(sc, height);
    CeasedFromCeasingHeight(sc, height + 1);
  }

  /** ... for every extension of the chain, and its funds never change again. */
  lemma {:induction false} CeasedForever(node: Node, maturity: nat, id: ScId, i: nat, s: State)
    requires Consistent(node, maturity) && i <= |node.blocks| && Replay(node.blocks[..i], maturity) == Ok(s)
    requires id in s.scs && CeasedAt(s.scs[id], i)
    ensures id in node.state.scs && CeasedAt(node.state.scs[id], |node.blocks|)
    ensures node.state.scs[id].lastEpoch == s.scs[id].lastEpoch && Funds(node.state.scs, id) == Funds(s.scs, id)
    decreases |node.blocks|
  {
    hide StateAtHeight, Inv, ConnectBlock, ValidBlock;
    if i == |node.blocks| {
      assert node.blocks[..i] == node.blocks;
      assert node.state == s by { ConsistentInv(node, maturity); }
    } else {
      var prev := CeasedStep(node, maturity, id);
      assert prev.blocks[..i] == node.blocks[..i];
      CeasedForever(prev, maturity, id, i, s);
    }
  }

  /** The backward transfers of an accepted certificate become spendable one block before
      the height at which its sidechain would cease: the last safeguard block may still
      spend what the next one voids. */
  lemma {:induction false} BwtMatureOneBlockBeforeCeasing(s: State, cert: Cert, height: int, maturity: nat)
    requires Inv(s, height - 1, height, maturity) && CertApplicable(s, cert, height)
    ensures CertMaturity(s.scs[cert.scId], height) == CeasingHeight(WithCert(s.scs[cert.scId], cert)) - 1
  {
    var sc := s.scs[cert.scId];
    assert ScOk(sc, height - 1, height, maturity);
    var e := EpochFor(sc, height);
    StartIsMonotone(sc, 0, cert.epoch + 1);
    EpochBounds(sc, height);
    StartIsMonotone(sc, cert.epoch + 1, cert.epoch + 2);
    if e < cert.epoch + 1 {
      StartIsMonotone(sc, e + 1, cert.epoch + 1);
    } else if e > cert.epoch + 1 {
      StartIsMonotone(sc, cert.epoch + 2, e);
    }
  }
}
