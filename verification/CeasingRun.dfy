/** The height at which backward transfers can be spent and still be voided, and a chain where both happen. */
module CeasingRun {
  import opened Results
  import opened Coins
  import opened Sidechain
  import opened Ledger
  import opened Ordering
  import opened LedgerInvariant
  import opened LedgerRun
  import opened LedgerTheorems

  /** While the certificate is its sidechain's last one, its backward transfers may be spent from a living sidechain at
      exactly one height: the last before the sidechain ceases and voids them. */
  lemma {:induction false} SpendableWhileAlive(s: State, cert: Cert, height: int, maturity: nat, pos: nat, k: int)
    requires Inv(s, height - 1, height, maturity) && CertApplicable(s, cert, height)
    requires IsFromCert(cert.version) && pos >= cert.firstBwtPos && k >= height
    ensures var sc := s.scs[cert.scId];
            var c, after := FromCert(cert, height, CertMaturity(sc, height)), WithCert(sc, cert);
            OutputMature(c, pos, k) && AliveAt(after, k) <==> k == CeasingHeight(after) - 1
  {
    var sc := s.scs[cert.scId];
    assert ScOk(sc, height - 1, height, maturity);
    BwtMatureOneBlockBeforeCeasing(s, cert, height, maturity);
    CeasedFromCeasingHeight(WithCert(sc, cert), k);
  }

  // ----- a chain -----

  /** Blocks that connect one after the other, each valid for the state it meets. */
  ghost predicate Grows(blocks: seq<Block>, maturity: nat, s: State) {
    if blocks == [] then s == EMPTY_STATE
    else
      var n := |blocks| - 1;
      exists before :: Grows(blocks[..n], maturity, before) && Extends(before, blocks[n], n + 1, maturity, s)
  }

  ghost predicate Extends(before: State, b: Block, height: int, maturity: nat, s: State) {
    && ValidBlock(before.scs, b)
    && ConnectBlock(before, b, height, maturity).Ok? && ConnectBlock(before, b, height, maturity).value.0 == s
  }

  lemma {:induction false} GrowsOne(blocks: seq<Block>, maturity: nat, s: State, b: Block, t: State)
    requires Grows(blocks, maturity, s) && Extends(s, b, |blocks| + 1, maturity, t)
    ensures Grows(blocks + [b], maturity, t)
  {
    var all := blocks + [b];
    assert all[..|all| - 1] == blocks;
  }

  const IDLE := Block(0, [], [])

  function Idle(n: nat): (r: seq<Block>)
    ensures |r| == n
  {
    if n == 0 then [] else Idle(n - 1) + [IDLE]
  }

  lemma {:induction false} IdleExtends(s: State, height: int, maturity: nat)
    requires height !in s.events
    ensures Extends(s, IDLE, height, maturity, s)
  {
  }

  /** Blocks without contents change nothing when no events are due. */
  lemma {:induction false} GrowsIdle(blocks: seq<Block>, maturity: nat, s: State, n: nat)
    requires Grows(blocks, maturity, s) && forall k :: |blocks| < k <= |blocks| + n ==> k !in s.events
    ensures Grows(blocks + Idle(n), maturity, s)
  {
    hide Grows, Extends;
    if n == 0 {
      assert blocks + Idle(0) == blocks;
    } else {
      GrowsIdle(blocks, maturity, s, n - 1);
      IdleExtends(s, |blocks| + n, maturity);
      GrowsOne(blocks + Idle(n - 1), maturity, s, IDLE, s);
      assert blocks + Idle(n) == blocks + Idle(n - 1) + [IDLE];
    }
  }

  // ----- its blocks -----

  const MATURITY := 2
  const ID: ScId := 7
  const CREATION := CreationOut(ID, 10, 5, [])
  const REWARD := Tx(1, true, 1, [], [Out(10, [])], [], [])
  const CREATE := Tx(2, false, 1, [OutPoint(1, 0)], [], [CREATION], [])
  const CERT := Cert(3, ID, 0, SC_CERT_VERSION, [], [Out(4, []), Out(6, [])], 0, true, true)
  const SPEND := Tx(4, false, 1, [OutPoint(3, 0)], [Out(4, [])], [], [])

  // ----- and its states -----

  const REWARDED := State(map[], map[], map[1 := CCoins(true, [Out(10, [])], 1, 1, BWT_POS_UNSET, 0)])
  const YOUNG := CSidechain(0, 101, 2, EPOCH_NULL, NULL_HASH, 0, 5, [], map[103 := 10])
  const CREATED := State(map[ID := YOUNG], map[103 := ScEvents({}, {ID}), 108 := ScEvents({ID}, {})], map[])
  const GROWN := YOUNG.(balance := 10, immature := map[])
  const READY := State(map[ID := GROWN], map[108 := ScEvents({ID}, {})], map[])
  const CERTIFIED_SC := GROWN.(balance := 0, lastEpoch := 0, lastCertHash := 3)
  const CERT_COINS := CCoins(false, [Out(4, []), Out(6, [])], 106, SC_CERT_VERSION, 0, 112)
  const CERTIFIED := State(map[ID := CERTIFIED_SC], map[113 := ScEvents({ID}, {})], map[3 := CERT_COINS])
  const SPENT_COINS := CCoins(false, [Out(4, [])], 112, 1, BWT_POS_UNSET, 0)
  const HALF_SPENT := CERTIFIED.(coins := map[3 := CERT_COINS.(vout := [Spent, Out(6, [])]), 4 := SPENT_COINS])
  const VOIDED := State(map[ID := CERTIFIED_SC], map[], map[4 := SPENT_COINS])

  // ----- connecting them -----

  /** A block with one transaction. */
  lemma {:induction false} OneTx(s: State, tx: Tx, height: int, maturity: nat, t: State, undo: TxUndo)
    requires tx.hash !in s.coins && ConnectTx(s, tx, 0, height, maturity) == Ok((t, undo)) && height !in t.events
    ensures ConnectBlock(s, Block(0, [tx], []), height, maturity).Ok?
    ensures ConnectBlock(s, Block(0, [tx], []), height, maturity).value.0 == t
  {
    assert [tx][..0] == [];
    assert ConnectTxs(s, [], 0, height, maturity) == Ok((s, []));
  }

  lemma {:induction false} NoneUnspendable(vout: seq<TxOut>)
    requires Trimmed(vout) && forall i :: 0 <= i < |vout| ==> vout[i].Out? && !IsUnspendable(vout[i].script)
    ensures Spendable(vout) == vout
  {
    var same := seq(|vout|, i requires 0 <= i < |vout| =>
      if vout[i].Out? && IsUnspendable(vout[i].script) then Spent else vout[i]);
    assert same == vout;
    TrimUnique(vout, vout);
  }

  lemma {:induction false} RewardConnects()
    ensures Extends(EMPTY_STATE, Block(0, [REWARD], []), 1, MATURITY, REWARDED)
  {
    NoneUnspendable(REWARD.vout);
    var c := FromTx(REWARD, 1);
    assert !IsPruned(c) by {
      assert c.vout[0].Out?;
    }
    OneTx(EMPTY_STATE, REWARD, 1, MATURITY, REWARDED, TxUndo([], EPOCH_NULL, NULL_HASH));
  }

  /** Spending the only output of coins leaves nothing. */
  lemma {:induction false} SpendOnly(coins: CoinMap, o: OutPoint, out: TxOut, c: CCoins)
    requires coins == map[o.hash := c] && o.n == 0 && c.vout == [out] && out.Out?
    ensures SpendInputs(coins, [o]).Ok? && SpendInputs(coins, [o]).value.0 == map[]
  {
    assert [o][..0] == [];
    assert c.vout[0 := Spent] == [Spent];
    TrimUnique([Spent], []);
    assert coins - {o.hash} == map[];
  }

  lemma {:induction false} CreateConnects()
    ensures Extends(REWARDED, Block(0, [CREATE], []), 101, MATURITY, CREATED)
  {
    var c := REWARDED.coins[1];
    SpendOnly(REWARDED.coins, OutPoint(1, 0), Out(10, []), c);
    var spent := SpendInputs(REWARDED.coins, CREATE.vin).value;
    CreatedCoins(spent.0);
    CreatedSidechain();
    OneTx(REWARDED, CREATE, 101, MATURITY, CREATED, TxUndo(spent.1, EPOCH_NULL, NULL_HASH));
  }

  lemma {:induction false} CreatedCoins(coins: CoinMap)
    requires coins == map[]
    ensures PutCoins(coins, 2, FromTx(CREATE, 101)) == map[]
  {
    NoneUnspendable([]);
  }

  lemma {:induction false} CreatedSidechain()
    ensures ApplyScOutputs(map[], map[], CREATE, 0, 101, MATURITY) == Ok((CREATED.scs, CREATED.events))
  {
    assert [CREATION][1..] == [];
    assert AddCreations(map[], [CREATION], 2, 0, 101, MATURITY) == Ok(map[ID := YOUNG]);
    assert FirstCeasingHeight(YOUNG) == 108;
    var ev := AddMaturing(map[], 103, ID);
    assert {} + {ID} == {ID};
    assert ev == map[103 := ScEvents({}, {ID})];
    assert AddCeasing(ev, 108, ID) == CREATED.events;
    assert ScheduleCreations(map[], map[ID := YOUNG], [CREATION], 103) == Ok(CREATED.events);
  }

  lemma {:induction false} AmountMatures()
    ensures Extends(CREATED, IDLE, 103, MATURITY, READY)
  {
    var e := CREATED.events[103];
    assert MatureAll(CREATED.scs, e.maturing, 103) == READY.scs by {
      assert YOUNG.immature - {103} == map[];
    }
    assert CREATED.events - {103} == READY.events;
    assert Ascending({}) == [];
  }

  lemma {:induction false} CertConnects()
    ensures Extends(READY, Block(0, [], [CERT]), 106, MATURITY, CERTIFIED)
  {
    assert CERT.vout[0..] == [Out(4, []), Out(6, [])];
    CertTotal();
    CertHeights();
    NoneUnspendable(CERT.vout);
    var c := FromCert(CERT, 106, 112);
    assert !IsPruned(c) by {
      assert c.vout[0].Out?;
    }
    assert [CERT][..0] == [];
    assert ScheduleCert(READY.events, GROWN, CERT) == Ok(CERTIFIED.events) by {
      var ev := DropCeasing(READY.events, 108, ID);
      assert {ID} - {ID} == {} && {} + {ID} == {ID};
      assert ev == map[];
      assert AddCeasing(ev, 113, ID) == CERTIFIED.events;
    }
    assert ConnectCert(READY, CERT, 106).Ok? && ConnectCert(READY, CERT, 106).value.0 == CERTIFIED;
    assert ConnectCerts(READY, [], 106) == Ok((READY, []));
  }

  lemma {:induction false} CertTotal()
    ensures BwtTotal(CERT) == 10
  {
    var v := [Out(4, []), Out(6, [])];
    assert CERT.vout[0..] == v;
    assert v[..1] == [Out(4, [])] && [Out(4, [])][..0] == [];
    assert SumOuts([Out(4, [])]) == 4;
  }

  lemma {:induction false} CertHeights()
    ensures CertMaturity(GROWN, 106) == 112 && StateAtHeight(GROWN, 106).Alive? && SafeguardMargin(GROWN) == 1
  {
    assert EpochFor(GROWN, 106) == 1;
  }

  lemma {:induction false} HalfSpent() returns (undo: seq<TxInUndo>)
    ensures AddTxCoins(CERTIFIED.coins, SPEND, 112) == Ok((HALF_SPENT.coins, undo))
  {
    var after := CERT_COINS.(vout := [Spent, Out(6, [])]);
    assert Spend(CERT_COINS, 0) == after by {
      assert CERT_COINS.vout[0 := Spent] == [Spent, Out(6, [])];
      TrimUnique([Spent, Out(6, [])], [Spent, Out(6, [])]);
    }
    assert !IsPruned(after) by {
      assert after.vout[1].Out?;
    }
    assert [OutPoint(3, 0)][..0] == [];
    var half := CERTIFIED.coins[3 := after];
    assert SpendInputs(CERTIFIED.coins, SPEND.vin).Ok? && SpendInputs(CERTIFIED.coins, SPEND.vin).value.0 == half;
    NoneUnspendable(SPEND.vout);
    var c := FromTx(SPEND, 112);
    assert !IsPruned(c) by {
      assert c.vout[0].Out?;
    }
    assert half[4 := c] == HALF_SPENT.coins;
    undo := SpendInputs(CERTIFIED.coins, SPEND.vin).value.1;
  }

  lemma {:induction false} SpendConnects()
    ensures Extends(CERTIFIED, Block(0, [SPEND], []), 112, MATURITY, HALF_SPENT)
  {
    hide AddTxCoins;
    var undo := HalfSpent();
    assert OutputMature(CERT_COINS, 0, 112);
    OneTx(CERTIFIED, SPEND, 112, MATURITY, HALF_SPENT, TxUndo(undo, EPOCH_NULL, NULL_HASH));
  }

  lemma {:induction false} RestIsVoided()
    ensures Extends(HALF_SPENT, IDLE, 113, MATURITY, VOIDED)
  {
    var coins, scs := HALF_SPENT.coins, HALF_SPENT.scs;
    assert HALF_SPENT.events - {113} == VOIDED.events;
    assert MatureAll(scs, {}, 113) == scs;
    OnlyOne(ID);
    VoidsRest();
    assert [ID][..0] == [];
    assert VoidCerts(coins, scs, []) == Ok((coins, []));
    assert VoidCerts(coins, scs, [ID]).Ok? && VoidCerts(coins, scs, [ID]).value.0 == VOIDED.coins;
  }

  lemma {:induction false} VoidsRest()
    ensures VoidOne(HALF_SPENT.coins, HALF_SPENT.scs, ID).Ok?
    ensures VoidOne(HALF_SPENT.coins, HALF_SPENT.scs, ID).value.0 == VOIDED.coins
  {
    var c := HALF_SPENT.coins[3];
    assert Voided(c).vout == [] by {
      assert c.vout[..0] == [];
    }
    assert HALF_SPENT.coins - {3} == VOIDED.coins;
  }

  lemma {:induction false} OnlyOne(id: ScId)
    ensures Ascending({id}) == [id]
  {
    assert Min({id}) == id;
    assert {id} - {id} == {};
    assert Ascending({}) == [];
  }

  // ----- the chain -----

  lemma {:induction false} GrowsReplays(blocks: seq<Block>, maturity: nat, s: State)
    requires Grows(blocks, maturity, s)
    ensures Replay(blocks, maturity) == Ok(s)
    decreases |blocks|
  {
    hide ConnectBlock, ValidBlock;
    if blocks != [] {
      var n := |blocks| - 1;
      var before :| Grows(blocks[..n], maturity, before) && Extends(before, blocks[n], n + 1, maturity, s);
      GrowsReplays(blocks[..n], maturity, before);
    }
  }

  lemma {:induction false} ToReady() returns (chain: seq<Block>)
    ensures |chain| == 105 && Grows(chain, MATURITY, READY)
  {
    hide Grows, Extends;
    Nothing();
    RewardConnects();
    GrowsOne([], MATURITY, EMPTY_STATE, Block(0, [REWARD], []), REWARDED);
    chain := [] + [Block(0, [REWARD], [])];
    GrowsIdle(chain, MATURITY, REWARDED, 99);
    chain := chain + Idle(99);
    CreateConnects();
    GrowsOne(chain, MATURITY, REWARDED, Block(0, [CREATE], []), CREATED);
    chain := chain + [Block(0, [CREATE], [])];
    GrowsIdle(chain, MATURITY, CREATED, 1);
    chain := chain + Idle(1);
    AmountMatures();
    GrowsOne(chain, MATURITY, CREATED, IDLE, READY);
    chain := chain + [IDLE];
    GrowsIdle(chain, MATURITY, READY, 2);
    chain := chain + Idle(2);
  }

  lemma {:induction false} Nothing()
    ensures Grows([], MATURITY, EMPTY_STATE)
  {
  }

  lemma {:induction false} ToCertified() returns (chain: seq<Block>)
    ensures |chain| == 111 && Grows(chain, MATURITY, CERTIFIED)
  {
    hide Grows, Extends;
    chain := ToReady();
    CertConnects();
    GrowsOne(chain, MATURITY, READY, Block(0, [], [CERT]), CERTIFIED);
    chain := chain + [Block(0, [], [CERT])];
    GrowsIdle(chain, MATURITY, CERTIFIED, 5);
    chain := chain + Idle(5);
  }

  /** A chain in which block 112 spends one backward transfer of a living sidechain's last certificate, and block 113
      voids the other: what was spent stays spent. */
  lemma {:induction false} SpentThenVoided() returns (chain: seq<Block>)
    ensures |chain| == 113 && chain[111].txs == [SPEND]
    ensures Replay(chain[..111], MATURITY) == Ok(CERTIFIED)
    ensures IsAvailable(CERTIFIED.coins[3], 0) && IsAvailable(CERTIFIED.coins[3], 1)
    ensures Replay(chain[..112], MATURITY) == Ok(HALF_SPENT)
    ensures AliveAt(HALF_SPENT.scs[ID], 112) && IsAvailable(HALF_SPENT.coins[3], 1) && 4 in HALF_SPENT.coins
    ensures Replay(chain, MATURITY) == Ok(VOIDED) && Grows(chain, MATURITY, VOIDED)
    ensures CeasedAt(VOIDED.scs[ID], 113) && 3 !in VOIDED.coins && 4 in VOIDED.coins
  {
    hide Grows, Extends, Replay, StateAtHeight;
    var start := ToCertified();
    GrowsReplays(start, MATURITY, CERTIFIED);
    SpendConnects();
    GrowsOne(start, MATURITY, CERTIFIED, Block(0, [SPEND], []), HALF_SPENT);
    var next := start + [Block(0, [SPEND], [])];
    GrowsReplays(next, MATURITY, HALF_SPENT);
    RestIsVoided();
    GrowsOne(next, MATURITY, HALF_SPENT, IDLE, VOIDED);
    chain := next + [IDLE];
    GrowsReplays(chain, MATURITY, VOIDED);
    assert chain[..111] == start && chain[..112] == next;
    Ceases();
  }

  lemma {:induction false} Ceases()
    ensures AliveAt(CERTIFIED_SC, 112) && CeasedAt(CERTIFIED_SC, 113)
  {
    CeasedFromCeasingHeight(CERTIFIED_SC, 112);
    CeasedFromCeasingHeight(CERTIFIED_SC, 113);
  }
}
