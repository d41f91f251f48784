/** The coins of the ledger as a flat set of unspent outputs: which outputs are there after a block and after every run,
    said through the blocks alone, and how old a spent output must be. */
module UtxoSet {
  import opened Results
  import opened Coins
  import opened Sidechain
  import opened Ledger
  import opened Ordering
  import opened LedgerInvariant
  import opened LedgerSteps
  import opened LedgerRun
  import opened LedgerTheorems
  import opened ScHistory

  /** One unspent output with what is known of its transaction or certificate. */
  datatype Coin = Coin(out: TxOut, coinBase: bool, height: int, version: int, firstBwtPos: int, maturesAt: int)

  function CoinOf(c: CCoins, n: nat): Coin
    requires n < |c.vout|
  {
    Coin(c.vout[n], c.coinBase, c.height, c.version, c.firstBwtPos, c.bwtMaturityHeight)
  }

  /** The output is unspent. */
  ghost predicate Shows(coins: CoinMap, p: OutPoint, coin: Coin) {
    p.hash in coins && p.n < |coins[p.hash].vout| && coins[p.hash].vout[p.n].Out? && coin == CoinOf(coins[p.hash], p.n)
  }

  ghost predicate Unspent(coins: CoinMap, p: OutPoint) {
    exists coin :: Shows(coins, p, coin)
  }

  // ---- What a block holds ----

  /** A transaction or certificate: what it spends and what it makes. */
  datatype Item = Item(
    hash: Hash,
    inputs: seq<OutPoint>,
    vout: seq<TxOut>,
    coinBase: bool,
    version: int,
    firstBwtPos: int,
    maturesAt: int)

  function OfTx(tx: Tx): Item {
    Item(tx.hash, if tx.coinBase then [] else tx.vin, tx.vout, tx.coinBase, tx.version, -1, 0)
  }

  /** The backward transfers of a certificate mature with the safeguard of the second epoch after its own. */
  function OfCert(sc: CSidechain, cert: Cert): Item {
    Item(cert.hash, cert.vin, cert.vout, false, cert.version, cert.firstBwtPos,
         sc.creationBlockHeight + (cert.epoch + 2) * sc.epochLength + sc.epochLength / 5)
  }

  function TxItems(txs: seq<Tx>): seq<Item> {
    if txs == [] then [] else TxItems(txs[..|txs| - 1]) + [OfTx(txs[|txs| - 1])]
  }

  function CertItems(scs: ScMap, certs: seq<Cert>): seq<Item> {
    if certs == [] then []
    else
      var last := certs[|certs| - 1];
      CertItems(scs, certs[..|certs| - 1]) + if last.scId in scs then [OfCert(scs[last.scId], last)] else []
  }

  function Items(scs: ScMap, b: Block): seq<Item> {
    TxItems(b.txs) + CertItems(scs, b.certs)
  }

  /** The item makes the output: unspendable ones are not recorded. */
  ghost predicate Makes(item: Item, height: int, p: OutPoint, coin: Coin) {
    && p.hash == item.hash && Recorded(item.vout, p.n)
    && coin == Coin(item.vout[p.n], item.coinBase, height, item.version, item.firstBwtPos, item.maturesAt)
  }

  ghost predicate Recorded(vout: seq<TxOut>, n: nat) {
    n < |vout| && vout[n].Out? && !IsUnspendable(vout[n].script)
  }

  ghost predicate MadeBy(items: seq<Item>, height: int, p: OutPoint, coin: Coin) {
    exists i :: 0 <= i < |items| && Makes(items[i], height, p, coin)
  }

  ghost predicate SpentBy(items: seq<Item>, p: OutPoint) {
    exists i :: 0 <= i < |items| && p in items[i].inputs
  }

  ghost predicate AllDistinct<T>(s: seq<T>) {
    forall i, j :: 0 <= i < j < |s| ==> s[i] != s[j]
  }

  /** No output is spent twice. */
  ghost predicate SpendsOnce(items: seq<Item>) {
    && (forall i :: 0 <= i < |items| ==> AllDistinct(items[i].inputs))
    && (forall i, j, p :: 0 <= i < j < |items| && p in items[i].inputs ==> p !in items[j].inputs)
  }

  /** A coinbase output is spent after a hundred blocks, a backward transfer at its height. */
  ghost predicate Ripe(coin: Coin, n: nat, height: int) {
    && (coin.coinBase ==> height - coin.height >= 100)
    && (!coin.coinBase && coin.version % 128 == 123 && 0 <= coin.firstBwtPos <= n ==> height >= coin.maturesAt)
  }

  ghost predicate RipeIn(coins: CoinMap, p: OutPoint, height: int) {
    exists coin :: Shows(coins, p, coin) && Ripe(coin, p.n, height)
  }

  /** The output was there, or is made by the block, and is old enough to be spent. */
  ghost predicate SourceOf(coins: CoinMap, items: seq<Item>, height: int, p: OutPoint, coin: Coin) {
    (Shows(coins, p, coin) || MadeBy(items, height, p, coin)) && Ripe(coin, p.n, height)
  }

  ghost predicate HasSource(coins: CoinMap, items: seq<Item>, height: int, p: OutPoint) {
    exists coin :: SourceOf(coins, items, height, p, coin)
  }

  /** The outputs after some items: what was there or was made, and was not spent. */
  ghost predicate ItemsShow(coins: CoinMap, items: seq<Item>, height: int, coins1: CoinMap) {
    && (forall p, coin :: Shows(coins1, p, coin) <==>
          !SpentBy(items, p) && (Shows(coins, p, coin) || MadeBy(items, height, p, coin)))
    && (forall p :: SpentBy(items, p) ==> HasSource(coins, items, height, p))
    && SpendsOnce(items)
  }

  // ---- Spending ----

  lemma {:induction false} TrimShows(v: seq<TxOut>, n: nat)
    ensures n < |Trim(v)| && Trim(v)[n].Out? <==> n < |v| && v[n].Out?
    ensures n < |Trim(v)| ==> n < |v| && Trim(v)[n] == v[n]
  {
    TrimIsTrim(v);
  }

  lemma {:induction false} SpendShows(coins: CoinMap, o: OutPoint, r: (CoinMap, TxInUndo), p: OutPoint, coin: Coin)
    requires SpendOne(coins, o) == Ok(r)
    ensures Shows(r.0, p, coin) <==> Shows(coins, p, coin) && p != o
  {
    hide Trim;
    var c := coins[o.hash];
    TrimShows(c.vout[o.n := Spent], p.n);
  }

  lemma {:induction false} SpendableIffShown(coins: CoinMap, o: OutPoint)
    ensures SpendOne(coins, o).Ok? <==> Unspent(coins, o)
  {
    if SpendOne(coins, o).Ok? {
      assert Shows(coins, o, CoinOf(coins[o.hash], o.n));
    }
  }

  /** Inputs can be spent exactly when they are distinct and unspent, and just they are gone. */
  lemma {:induction false} InputsShow(coins: CoinMap, vin: seq<OutPoint>)
    ensures SpendInputs(coins, vin).Ok? <==>
      AllDistinct(vin) && forall i :: 0 <= i < |vin| ==> Unspent(coins, vin[i])
    ensures SpendInputs(coins, vin).Ok? ==>
      forall p, coin :: Shows(SpendInputs(coins, vin).value.0, p, coin) <==> Shows(coins, p, coin) && p !in vin
    decreases |vin|
  {
    hide SpendOne, Shows;
    if vin != [] {
      var n := |vin| - 1;
      InputsShow(coins, vin[..n]);
      var before := SpendInputs(coins, vin[..n]);
      assert forall i :: 0 <= i < n ==> vin[..n][i] == vin[i];
      assert forall p :: p in vin <==> p in vin[..n] || p == vin[n];
      if before.Ok? {
        SpendableIffShown(before.value.0, vin[n]);
        var after := SpendOne(before.value.0, vin[n]);
        if after.Ok? {
          assert AllDistinct(vin) by { assert vin[n] !in vin[..n]; }
          forall p, coin
            ensures Shows(SpendInputs(coins, vin).value.0, p, coin) <==> Shows(coins, p, coin) && p !in vin
          {
            SpendShows(before.value.0, vin[n], after.value, p, coin);
          }
        } else {
          assert AllDistinct(vin) ==> vin[n] !in vin[..n];
        }
      } else {
        assert AllDistinct(vin) ==> AllDistinct(vin[..n]);
      }
    }
  }

  lemma {:induction false} SpendKeepsKeys(coins: CoinMap, vin: seq<OutPoint>)
    requires SpendInputs(coins, vin).Ok?
    ensures SpendInputs(coins, vin).value.0.Keys <= coins.Keys
    decreases |vin|
  {
    if vin != [] {
      SpendKeepsKeys(coins, vin[..|vin| - 1]);
    }
  }

  // ---- New outputs ----

  lemma {:induction false} RecordedShows(vout: seq<TxOut>, n: nat)
    ensures n < |Spendable(vout)| && Spendable(vout)[n].Out? <==> Recorded(vout, n)
    ensures Recorded(vout, n) ==> Spendable(vout)[n] == vout[n]
  {
    hide Trim;
    TrimShows(seq(|vout|, i requires 0 <= i < |vout| =>
      if vout[i].Out? && IsUnspendable(vout[i].script) then Spent else vout[i]), n);
  }

  lemma {:induction false} PutShows(coins: CoinMap, h: Hash, c: CCoins, p: OutPoint, coin: Coin)
    requires h !in coins
    ensures Shows(PutCoins(coins, h, c), p, coin) <==>
      if p.hash == h then p.n < |c.vout| && c.vout[p.n].Out? && coin == CoinOf(c, p.n) else Shows(coins, p, coin)
  {
  }

  /** The coins that record an item. */
  ghost predicate Records(c: CCoins, item: Item, height: int) {
    c == CCoins(item.coinBase, Spendable(item.vout), height, item.version, item.firstBwtPos, item.maturesAt)
  }

  /** One item: its inputs were there and are gone, its outputs are new. */
  ghost predicate OneShows(coins: CoinMap, item: Item, height: int, coins1: CoinMap) {
    && AllDistinct(item.inputs)
    && (forall p :: p in item.inputs ==> RipeIn(coins, p, height))
    && (forall p, coin :: Shows(coins1, p, coin) <==>
          Makes(item, height, p, coin) || (Shows(coins, p, coin) && p !in item.inputs))
  }

  lemma {:induction false} ItemShown(coins: CoinMap, item: Item, height: int, spent: CoinMap, c: CCoins)
    requires item.hash !in coins && SpendInputs(coins, item.inputs).Ok?
    requires spent == SpendInputs(coins, item.inputs).value.0
    requires InputsMature(coins, item.inputs, height) && Records(c, item, height)
    ensures OneShows(coins, item, height, PutCoins(spent, item.hash, c))
  {
    hide SpendInputs, PutCoins, Spendable, Shows, InputsMature, Ripe, Recorded;
    InputsShow(coins, item.inputs);
    SpendKeepsKeys(coins, item.inputs);
    forall p, coin ensures Shows(PutCoins(spent, item.hash, c), p, coin) <==>
        Makes(item, height, p, coin) || (Shows(coins, p, coin) && p !in item.inputs)
    {
      PutShows(spent, item.hash, c, p, coin);
      RecordedShows(item.vout, p.n);
      ShowsHash(coins, p, coin);
    }
    forall p | p in item.inputs ensures RipeIn(coins, p, height) {
      var i :| 0 <= i < |item.inputs| && item.inputs[i] == p;
      assert Unspent(coins, item.inputs[i]);
      var coin :| Shows(coins, p, coin);
      MatureIsRipe(coins, item.inputs, height, p, coin);
    }
  }

  lemma {:induction false} ShowsHash(coins: CoinMap, p: OutPoint, coin: Coin)
    ensures Shows(coins, p, coin) ==> p.hash in coins
  {
  }

  /** The maturity check of the inputs, on outputs. */
  lemma {:induction false} MatureIsRipe(coins: CoinMap, vin: seq<OutPoint>, height: int, p: OutPoint, coin: Coin)
    requires InputsMature(coins, vin, height) && p in vin && Shows(coins, p, coin)
    ensures Ripe(coin, p.n, height)
  {
    var i :| 0 <= i < |vin| && vin[i] == p;
    assert OutputMature(coins[vin[i].hash], vin[i].n, height);
  }

  lemma {:induction false} TxShown(s: State, tx: Tx, blockHash: Hash, height: int, maturity: nat, s1: State,
      undo: TxUndo)
    requires tx.hash !in s.coins && ConnectTx(s, tx, blockHash, height, maturity) == Ok((s1, undo))
    ensures OneShows(s.coins, OfTx(tx), height, s1.coins)
  {
    hide PutCoins, HaveScRequirements, ApplyScOutputs, OneShows, Spendable;
    var item := OfTx(tx);
    if tx.coinBase {
      assert SpendInputs(s.coins, []) == Ok((s.coins, []));
    }
    var spent := SpendInputs(s.coins, item.inputs).value.0;
    ItemShown(s.coins, item, height, spent, FromTx(tx, height));
  }

  /** The maturity height of a certificate's backward transfers. */
  lemma {:induction false} MaturesAt(s: State, cert: Cert, height: int, maturity: nat)
    requires Inv(s, height - 1, height, maturity) && CertApplicable(s, cert, height)
    ensures CertMaturity(s.scs[cert.scId], height) == OfCert(s.scs[cert.scId], cert).maturesAt
  {
    hide MaturingOk, CeasingOk, CertsOk, EventsOk, CoinsOk, StateAtHeight, CertMaturity;
    BwtMatureOneBlockBeforeCeasing(s, cert, height, maturity);
    assert ScOk(s.scs[cert.scId], height - 1, height, maturity);
  }

  lemma {:induction false} CertShown(s: State, cert: Cert, height: int, maturity: nat, s1: State, undo: TxUndo)
    requires Inv(s, height - 1, height, maturity) && cert.hash !in s.coins
    requires ConnectCert(s, cert, height) == Ok((s1, undo))
    ensures cert.scId in s.scs && OneShows(s.coins, OfCert(s.scs[cert.scId], cert), height, s1.coins)
  {
    hide PutCoins, OneShows, Spendable, CertMaturity, Inv, CertApplicable, InputsMature;
    ApplicableExists(s, cert, height);
    MaturesAt(s, cert, height, maturity);
    var item := OfCert(s.scs[cert.scId], cert);
    var spent := SpendInputs(s.coins, item.inputs).value.0;
    ItemShown(s.coins, item, height, spent, FromCert(cert, height, CertMaturity(s.scs[cert.scId], height)));
  }

  // ---- One item after another ----

  lemma {:induction false} SpentSnoc(items: seq<Item>, p: OutPoint)
    requires items != []
    ensures SpentBy(items, p) <==> SpentBy(items[..|items| - 1], p) || p in items[|items| - 1].inputs
  {
    var n := |items| - 1;
    assert forall i :: 0 <= i < n ==> items[..n][i] == items[i];
  }

  lemma {:induction false} MadeSnoc(items: seq<Item>, height: int, p: OutPoint, coin: Coin)
    requires items != []
    ensures MadeBy(items, height, p, coin) <==>
      MadeBy(items[..|items| - 1], height, p, coin) || Makes(items[|items| - 1], height, p, coin)
  {
    var n := |items| - 1;
    assert forall i :: 0 <= i < n ==> items[..n][i] == items[i];
  }

  lemma {:induction false} SourceHolds(coins: CoinMap, items: seq<Item>, height: int, p: OutPoint, coin: Coin)
    requires Shows(coins, p, coin) || MadeBy(items, height, p, coin)
    requires Ripe(coin, p.n, height)
    ensures HasSource(coins, items, height, p)
  {
    assert SourceOf(coins, items, height, p, coin);
  }

  lemma {:induction false} SourceGrows(coins: CoinMap, items: seq<Item>, height: int, p: OutPoint)
    requires items != [] && HasSource(coins, items[..|items| - 1], height, p)
    ensures HasSource(coins, items, height, p)
  {
    var coin :| SourceOf(coins, items[..|items| - 1], height, p, coin);
    MadeSnoc(items, height, p, coin);
    assert SourceOf(coins, items, height, p, coin);
  }

  /** What is spent is not of a new hash. */
  lemma {:induction false} SourceHash(coins: CoinMap, items: seq<Item>, height: int, p: OutPoint, h: Hash)
    requires HasSource(coins, items, height, p) && h !in coins
    requires forall i :: 0 <= i < |items| ==> items[i].hash != h
    ensures p.hash != h
  {
    var coin :| SourceOf(coins, items, height, p, coin);
  }

  /** The hashes of the items are new, and no two are the same. */
  ghost predicate NewHashes(coins: CoinMap, items: seq<Item>) {
    && (forall i :: 0 <= i < |items| ==> items[i].hash !in coins)
    && (forall i, j :: 0 <= i < j < |items| ==> items[i].hash != items[j].hash)
  }

  /** What the last item spends was there before it. */
  lemma {:induction false} LastSources(coins: CoinMap, items: seq<Item>, height: int, mid: CoinMap, p: OutPoint)
    requires items != [] && ItemsShow(coins, items[..|items| - 1], height, mid) && RipeIn(mid, p, height)
    ensures HasSource(coins, items[..|items| - 1], height, p) && !SpentBy(items[..|items| - 1], p)
  {
    hide Shows, Ripe, SpentBy, MadeBy, HasSource, SpendsOnce;
    var coin :| Shows(mid, p, coin) && Ripe(coin, p.n, height);
    SourceHolds(coins, items[..|items| - 1], height, p, coin);
  }

  /** What the last item makes, none has spent. */
  lemma {:induction false} NotSpentBefore(coins: CoinMap, items: seq<Item>, height: int, mid: CoinMap, p: OutPoint,
      coin: Coin)
    requires items != [] && NewHashes(coins, items) && ItemsShow(coins, items[..|items| - 1], height, mid)
    requires forall q :: q in items[|items| - 1].inputs ==> RipeIn(mid, q, height)
    requires Makes(items[|items| - 1], height, p, coin)
    ensures !SpentBy(items, p)
  {
    hide Shows, RipeIn, SpentBy, MadeBy, HasSource, Recorded, SpendsOnce;
    var n := |items| - 1;
    SpentSnoc(items, p);
    if SpentBy(items[..n], p) {
      SourceHash(coins, items[..n], height, p, items[n].hash);
    } else if p in items[n].inputs {
      LastSources(coins, items, height, mid, p);
      SourceHash(coins, items[..n], height, p, items[n].hash);
    }
  }

  lemma {:induction false} OnceMore(coins: CoinMap, items: seq<Item>, height: int, mid: CoinMap)
    requires items != [] && ItemsShow(coins, items[..|items| - 1], height, mid)
    requires AllDistinct(items[|items| - 1].inputs)
    requires forall q :: q in items[|items| - 1].inputs ==> RipeIn(mid, q, height)
    ensures SpendsOnce(items)
  {
    hide Shows, RipeIn, MadeBy, HasSource, AllDistinct;
    var n := |items| - 1;
    assert forall i :: 0 <= i < n ==> items[..n][i] == items[i];
    forall i, p | 0 <= i < n && p in items[i].inputs ensures p !in items[n].inputs {
      assert p in items[..n][i].inputs;
      if p in items[n].inputs {
        LastSources(coins, items, height, mid, p);
      }
    }
  }

  lemma {:induction false} ItemsShowStep(coins: CoinMap, items: seq<Item>, height: int, mid: CoinMap, coins1: CoinMap)
    requires items != [] && NewHashes(coins, items) && ItemsShow(coins, items[..|items| - 1], height, mid)
    requires OneShows(mid, items[|items| - 1], height, coins1)
    ensures ItemsShow(coins, items, height, coins1)
  {
    hide Shows, RipeIn, SpentBy, MadeBy, HasSource, Makes, AllDistinct, SpendsOnce, NewHashes;
    var n := |items| - 1;
    OnceMore(coins, items, height, mid);
    forall p | SpentBy(items, p) ensures HasSource(coins, items, height, p) {
      SpentSnoc(items, p);
      if p in items[n].inputs {
        LastSources(coins, items, height, mid, p);
      }
      SourceGrows(coins, items, height, p);
    }
    forall p, coin ensures Shows(coins1, p, coin) <==>
        !SpentBy(items, p) && (Shows(coins, p, coin) || MadeBy(items, height, p, coin))
    {
      SpentSnoc(items, p);
      MadeSnoc(items, height, p, coin);
      if Makes(items[n], height, p, coin) {
        NotSpentBefore(coins, items, height, mid, p, coin);
      }
    }
  }

  // ---- A block ----

  lemma {:induction false} TxItemsAt(txs: seq<Tx>)
    ensures |TxItems(txs)| == |txs| && forall i :: 0 <= i < |txs| ==> TxItems(txs)[i] == OfTx(txs[i])
    decreases |txs|
  {
    if txs != [] {
      TxItemsAt(txs[..|txs| - 1]);
    }
  }

  lemma {:induction false} NothingShows(coins: CoinMap, height: int)
    ensures ItemsShow(coins, [], height, coins)
  {
  }

  lemma {:induction false} TxItemsAreNew(s: State, txs: seq<Tx>)
    requires ValidTxs(s.scs, txs) && NotInCoins(s.coins, txs)
    ensures NewHashes(s.coins, TxItems(txs))
  {
    TxItemsAt(txs);
  }

  lemma {:induction false} TxsShown(s: State, txs: seq<Tx>, blockHash: Hash, height: int, maturity: nat, s1: State,
      undos: seq<TxUndo>)
    requires height >= 1 && ValidTxs(s.scs, txs) && Inv(s, height - 1, height, maturity) && NotInCoins(s.coins, txs)
    requires ConnectTxs(s, txs, blockHash, height, maturity) == Ok((s1, undos))
    ensures ItemsShow(s.coins, TxItems(txs), height, s1.coins)
    decreases |txs|
  {
    hide Inv, ConnectTx, OneShows, ItemsShow, NewHashes;
    var items := TxItems(txs);
    if txs == [] {
      NothingShows(s.coins, height);
    } else {
      var n := |txs| - 1;
      var before, undos0, last := ConnectTxsSplits(s, txs, blockHash, height, maturity, s1, undos);
      TxsBefore(s, txs, blockHash, height, maturity, before, undos0);
      TxsShown(s, txs[..n], blockHash, height, maturity, before, undos0);
      TxShown(before, txs[n], blockHash, height, maturity, s1, last);
      assert items[..|items| - 1] == TxItems(txs[..n]);
      TxItemsAreNew(s, txs);
      ItemsShowStep(s.coins, items, height, before.coins, s1.coins);
    }
  }

  /** The items of certificates depend on their sidechains' creation only. */
  lemma {:induction false} CertItemsSame(scs: ScMap, scs1: ScMap, certs: seq<Cert>)
    requires forall i :: 0 <= i < |certs| && certs[i].scId in scs ==>
      certs[i].scId in scs1 && SameCreation(scs[certs[i].scId], scs1[certs[i].scId])
    requires forall i :: 0 <= i < |certs| ==> certs[i].scId in scs
    ensures CertItems(scs, certs) == CertItems(scs1, certs)
    decreases |certs|
  {
    if certs != [] {
      CertItemsSame(scs, scs1, certs[..|certs| - 1]);
    }
  }

  lemma {:induction false} CertItemsAt(scs: ScMap, certs: seq<Cert>)
    requires forall i :: 0 <= i < |certs| ==> certs[i].scId in scs
    ensures |CertItems(scs, certs)| == |certs|
    ensures forall i :: 0 <= i < |certs| ==> CertItems(scs, certs)[i] == OfCert(scs[certs[i].scId], certs[i])
    decreases |certs|
  {
    if certs != [] {
      CertItemsAt(scs, certs[..|certs| - 1]);
    }
  }

  lemma {:induction false} CertKnown(s: State, cert: Cert, height: int)
    requires ConnectCert(s, cert, height).Ok?
    ensures var scs := ConnectCert(s, cert, height).value.0.scs;
      && cert.scId in s.scs && scs.Keys == s.scs.Keys
      && forall id :: id in s.scs ==> SameCreation(s.scs[id], scs[id])
  {
  }

  /** Every certificate that connects belongs to a known sidechain, whose creation stays as it is. */
  lemma {:induction false} CertsKnown(s: State, certs: seq<Cert>, height: int, maturity: nat, s1: State,
      undos: seq<TxUndo>)
    requires height >= 1 && ValidCerts(s.scs, certs) && Inv(s, height - 1, height, maturity)
    requires ConnectCerts(s, certs, height) == Ok((s1, undos))
    ensures forall i :: 0 <= i < |certs| ==> certs[i].scId in s.scs
    ensures forall id :: id in s.scs ==> id in s1.scs && SameCreation(s.scs[id], s1.scs[id])
    decreases |certs|
  {
    hide Inv, ConnectCert;
    if certs != [] {
      var n := |certs| - 1;
      var before := ConnectCerts(s, certs[..n], height).value;
      ConnectCertsKeeps(s, certs[..n], height, maturity);
      CertsKnown(s, certs[..n], height, maturity, before.0, before.1);
      CertKnown(before.0, certs[n], height);
      assert forall i :: 0 <= i < n ==> certs[..n][i] == certs[i];
    }
  }

  lemma {:induction false} CertsShown(coins: CoinMap, items: seq<Item>, s: State, certs: seq<Cert>, height: int,
      maturity: nat, s1: State, undos: seq<TxUndo>)
    requires height >= 1 && ValidCerts(s.scs, certs) && Inv(s, height - 1, height, maturity)
    requires CertsNotInCoins(s.coins, certs) && NewHashes(coins, items + CertItems(s.scs, certs))
    requires ItemsShow(coins, items, height, s.coins) && ConnectCerts(s, certs, height) == Ok((s1, undos))
    ensures ItemsShow(coins, items + CertItems(s.scs, certs), height, s1.coins)
    decreases |certs|
  {
    hide Shows, Inv, ConnectCert, OneShows, MadeBy, SpentBy, HasSource, SpendsOnce, SameCreation;
    if certs == [] {
      assert items + CertItems(s.scs, []) == items;
    } else {
      var n := |certs| - 1;
      CertsBefore(s, certs, height, maturity);
      var before := ConnectCerts(s, certs[..n], height).value;
      var last := ConnectCert(before.0, certs[n], height).value;
      CertsKnown(s, certs[..n], height, maturity, before.0, before.1);
      CertShown(before.0, certs[n], height, maturity, s1, last.1);
      var all, early := items + CertItems(s.scs, certs), items + CertItems(s.scs, certs[..n]);
      LastCertItem(s.scs, before.0.scs, certs);
      assert certs[n].scId in s.scs by { CertsKnown(s, certs, height, maturity, s1, undos); }
      assert all == early + [OfCert(before.0.scs[certs[n].scId], certs[n])];
      assert all[..|all| - 1] == early;
      assert NewHashes(coins, early);
      CertsShown(coins, items, s, certs[..n], height, maturity, before.0, before.1);
      ItemsShowStep(coins, all, height, before.0.coins, s1.coins);
    }
  }

  lemma {:induction false} LastCertItem(scs: ScMap, mid: ScMap, certs: seq<Cert>)
    requires certs != [] && forall id :: id in scs ==> id in mid && SameCreation(scs[id], mid[id])
    ensures var last := certs[|certs| - 1];
      last.scId in scs ==>
        CertItems(scs, certs) == CertItems(scs, certs[..|certs| - 1]) + [OfCert(mid[last.scId], last)]
  {
  }

  // ---- Voided backward transfers ----

  /** The sidechain ceases at this height, and the output is a backward transfer of its last certificate. */
  ghost predicate Voids(sc: CSidechain, height: int, p: OutPoint, coin: Coin) {
    && sc.creationBlockHeight + (sc.lastEpoch + 2) * sc.epochLength + sc.epochLength / 5 + 1 == height
    && sc.lastEpoch != EPOCH_NULL && sc.lastCertHash == p.hash && 0 <= coin.firstBwtPos <= p.n
  }

  ghost predicate VoidedAt(scs: ScMap, height: int, p: OutPoint, coin: Coin) {
    exists id :: id in scs && Voids(scs[id], height, p, coin)
  }

  lemma {:induction false} VoidedShows(coins: CoinMap, hs: set<Hash>, p: OutPoint, coin: Coin)
    ensures Shows(VoidedAll(coins, hs), p, coin) <==>
      Shows(coins, p, coin) && !(p.hash in hs && 0 <= coin.firstBwtPos <= p.n)
  {
    hide Trim;
    if p.hash in coins {
      var c := coins[p.hash];
      if 0 <= c.firstBwtPos < |c.vout| {
        TrimShows(c.vout[..c.firstBwtPos], p.n);
      }
    }
  }

  lemma {:induction false} SameCeasing(a: CSidechain, b: CSidechain)
    requires b == a.(balance := b.balance, immature := b.immature)
    ensures CeasingHeight(a) == CeasingHeight(b)
  {
  }

  lemma {:induction false} CeasingHashes(s: State, height: int, maturity: nat, scs: ScMap, ids: seq<ScId>, h: Hash)
    requires Inv(s, height - 1, height, maturity) && CanMature(s.scs, At(s.events, height).maturing, height)
    requires scs == MatureAll(s.scs, At(s.events, height).maturing, height)
    requires ids == Ascending(At(s.events, height).ceasing)
    ensures h in CertHashes(scs, ids) <==>
      exists id :: id in scs && CeasingHeight(scs[id]) == height && HasCert(scs, id) && scs[id].lastCertHash == h
  {
    hide MaturingOk, ScsOk, EventsOk, CoinsOk, CertsOk, StartHeightForEpoch, SafeguardMargin;
    var ceasing := At(s.events, height).ceasing;
    forall id | id in scs ensures CeasingHeight(scs[id]) == CeasingHeight(s.scs[id]) {
      SameCeasing(s.scs[id], scs[id]);
    }
    assert forall id :: id in ceasing <==> id in s.scs && CeasingHeight(s.scs[id]) == height;
    if h in CertHashes(scs, ids) {
      var i :| 0 <= i < |ids| && HasCert(scs, ids[i]) && scs[ids[i]].lastCertHash == h;
      assert ids[i] in ceasing;
    }
    if id :| id in scs && CeasingHeight(scs[id]) == height && HasCert(scs, id) && scs[id].lastCertHash == h {
      assert id in ids;
    }
  }

  lemma {:induction false} EventsShow(s: State, height: int, maturity: nat, s1: State, undo: EventsUndo, p: OutPoint,
      coin: Coin)
    requires Inv(s, height - 1, height, maturity) && HandleEvents(s, height) == Ok((s1, undo))
    ensures Shows(s1.coins, p, coin) <==> Shows(s.coins, p, coin) && !VoidedAt(s1.scs, height, p, coin)
  {
    hide HandleEvents, Shows, CertHashes, VoidedAll, MaturingOk, EventsOk, CoinsOk, CertsOk, CeasingOk;
    MaturingCanMature(s, height, maturity);
    var e := At(s.events, height);
    var scs, ids := MatureAll(s.scs, e.maturing, height), Ascending(e.ceasing);
    HandleEventsForm(s, height, maturity, scs, ids);
    CeasingHashes(s, height, maturity, scs, ids, p.hash);
    VoidedShows(s.coins, CertHashes(scs, ids), p, coin);
    forall id | id in scs
      ensures Voids(scs[id], height, p, coin) <==>
        && CeasingHeight(scs[id]) == height && HasCert(scs, id) && scs[id].lastCertHash == p.hash
        && 0 <= coin.firstBwtPos <= p.n
    {
      assert ScOk(s.scs[id], height - 1, height, maturity);
    }
  }

  // ---- Blocks ----

  /**
   * The unspent outputs after a block are those that were there or that it makes, unless it spends them or voids them
   * with a ceasing sidechain; what it spends was there or is made by it, is old enough, and is spent once.
   */
  ghost predicate BlockShows(coins: CoinMap, b: Block, height: int, s1: State) {
    var items := Items(s1.scs, b);
    && (forall p, coin :: Shows(s1.coins, p, coin) <==>
          && !SpentBy(items, p) && !VoidedAt(s1.scs, height, p, coin)
          && (Shows(coins, p, coin) || MadeBy(items, height, p, coin)))
    && (forall p :: SpentBy(items, p) ==> HasSource(coins, items, height, p))
    && SpendsOnce(items)
  }

  lemma {:induction false} ItemsAreNew(s: State, b: Block, scs: ScMap)
    requires ValidBlock(s.scs, b) && NoOverwrite(s, b) && forall i :: 0 <= i < |b.certs| ==> b.certs[i].scId in scs
    ensures NewHashes(s.coins, TxItems(b.txs) + CertItems(scs, b.certs))
  {
    TxItemsAt(b.txs);
    CertItemsAt(scs, b.certs);
  }

  lemma {:induction false} BlockShown(s: State, b: Block, height: int, maturity: nat)
    requires height >= 1 && ValidBlock(s.scs, b) && Inv(s, height - 1, height - 1, maturity)
    requires ConnectBlock(s, b, height, maturity).Ok?
    ensures BlockShows(s.coins, b, height, ConnectBlock(s, b, height, maturity).value.0)
  {
    hide Inv, ConnectTxs, ConnectCerts, HandleEvents, ItemsShow, SameCreation, NewHashes, BlockShows;
    var t, c, e := BlockParts(s, b, height, maturity);
    TxsShown(s, b.txs, b.hash, height, maturity, t.0, t.1);
    AfterTxs(s, b, height, maturity, t.0, t.1);
    CertsKnown(t.0, b.certs, height, maturity, c.0, c.1);
    ItemsAreNew(s, b, t.0.scs);
    CertsShown(s.coins, TxItems(b.txs), t.0, b.certs, height, maturity, c.0, c.1);
    forall id | id in c.0.scs ensures id in e.0.scs && SameCreation(c.0.scs[id], e.0.scs[id]) {
      EventsRecord(c.0, height, maturity, e.0, e.1, id);
      SameParts(c.0.scs[id], e.0.scs[id]);
    }
    LaterItems(t.0.scs, c.0.scs, e.0.scs, b.certs);
    WithVoided(s.coins, b, height, maturity, c.0, e.0, e.1);
  }

  lemma {:induction false} SameParts(a: CSidechain, b: CSidechain)
    requires b == a.(balance := b.balance, immature := b.immature)
    ensures SameCreation(a, b)
  {
  }

  lemma {:induction false} LaterItems(a: ScMap, b: ScMap, c: ScMap, certs: seq<Cert>)
    requires forall i :: 0 <= i < |certs| ==> certs[i].scId in a
    requires forall id :: id in a ==> id in b && SameCreation(a[id], b[id])
    requires forall id :: id in b ==> id in c && SameCreation(b[id], c[id])
    ensures CertItems(a, certs) == CertItems(c, certs)
  {
    CertItemsSame(a, c, certs);
  }

  lemma {:induction false} WithVoided(coins: CoinMap, b: Block, height: int, maturity: nat, c: State, e: State,
      undo: EventsUndo)
    requires ItemsShow(coins, Items(e.scs, b), height, c.coins)
    requires Inv(c, height - 1, height, maturity) && HandleEvents(c, height) == Ok((e, undo))
    ensures BlockShows(coins, b, height, e)
  {
    hide Inv, HandleEvents, Shows, SpentBy, MadeBy, VoidedAt, HasSource, SpendsOnce, Items;
    forall p, coin ensures Shows(e.coins, p, coin) <==> Shows(c.coins, p, coin) && !VoidedAt(e.scs, height, p, coin) {
      EventsShow(c, height, maturity, e, undo, p, coin);
    }
  }

  // ---- The chain ----

  /** The sidechains after the first `n` blocks. */
  ghost function ScsAt(blocks: seq<Block>, n: nat, maturity: nat): ScMap
    requires n <= |blocks|
  {
    match Replay(blocks[..n], maturity)
    case Ok(s) => s.scs
    case Err => map[]
  }

  ghost predicate MadeAt(blocks: seq<Block>, i: nat, maturity: nat, p: OutPoint, coin: Coin)
    requires i < |blocks|
  {
    MadeBy(Items(ScsAt(blocks, i + 1, maturity), blocks[i]), i + 1, p, coin)
  }

  ghost predicate SpentAt(blocks: seq<Block>, j: nat, maturity: nat, p: OutPoint)
    requires j < |blocks|
  {
    SpentBy(Items(ScsAt(blocks, j + 1, maturity), blocks[j]), p)
  }

  ghost predicate GoneAt(blocks: seq<Block>, j: nat, maturity: nat, p: OutPoint, coin: Coin)
    requires j < |blocks|
  {
    SpentAt(blocks, j, maturity, p) || VoidedAt(ScsAt(blocks, j + 1, maturity), j + 1, p, coin)
  }

  /** Block `i` makes the output, and no block from there on before `n` spends or voids it. */
  ghost predicate Lives(blocks: seq<Block>, i: nat, n: nat, maturity: nat, p: OutPoint, coin: Coin)
    requires n <= |blocks|
  {
    i < n && MadeAt(blocks, i, maturity, p, coin) && forall j :: i <= j < n ==> !GoneAt(blocks, j, maturity, p, coin)
  }

  ghost predicate LivesOn(blocks: seq<Block>, maturity: nat, p: OutPoint, coin: Coin) {
    exists i :: Lives(blocks, i, |blocks|, maturity, p, coin)
  }

  /** Nothing is said about later blocks. */
  lemma {:induction false} PrefixSame(blocks: seq<Block>, n: nat, i: nat, maturity: nat, p: OutPoint, coin: Coin)
    requires i < n <= |blocks|
    ensures MadeAt(blocks[..n], i, maturity, p, coin) == MadeAt(blocks, i, maturity, p, coin)
    ensures SpentAt(blocks[..n], i, maturity, p) == SpentAt(blocks, i, maturity, p)
    ensures GoneAt(blocks[..n], i, maturity, p, coin) == GoneAt(blocks, i, maturity, p, coin)
  {
    hide Replay, MadeBy, SpentBy, VoidedAt, Items;
    assert blocks[..n][..i + 1] == blocks[..i + 1];
  }

  lemma {:induction false} LivesPrefix(blocks: seq<Block>, n: nat, i: nat, m: nat, maturity: nat, p: OutPoint,
      coin: Coin)
    requires m <= n <= |blocks|
    ensures Lives(blocks[..n], i, m, maturity, p, coin) == Lives(blocks, i, m, maturity, p, coin)
  {
    hide MadeAt, GoneAt;
    forall j | i <= j < m
      ensures GoneAt(blocks[..n], j, maturity, p, coin) == GoneAt(blocks, j, maturity, p, coin)
      ensures MadeAt(blocks[..n], j, maturity, p, coin) == MadeAt(blocks, j, maturity, p, coin)
    {
      PrefixSame(blocks, n, j, maturity, p, coin);
    }
  }

  /** One block more. */
  lemma {:induction false} LivesStep(blocks: seq<Block>, maturity: nat, p: OutPoint, coin: Coin)
    requires blocks != []
    ensures var n := |blocks| - 1;
      LivesOn(blocks, maturity, p, coin) <==>
        !GoneAt(blocks, n, maturity, p, coin)
        && (LivesOn(blocks[..n], maturity, p, coin) || MadeAt(blocks, n, maturity, p, coin))
  {
    hide MadeAt, GoneAt;
    var n := |blocks| - 1;
    if LivesOn(blocks, maturity, p, coin) {
      var i: nat :| Lives(blocks, i, |blocks|, maturity, p, coin);
      if i < n {
        LivesPrefix(blocks, n, i, n, maturity, p, coin);
        assert Lives(blocks[..n], i, n, maturity, p, coin);
      }
    }
    if !GoneAt(blocks, n, maturity, p, coin) {
      if LivesOn(blocks[..n], maturity, p, coin) {
        var i: nat :| Lives(blocks[..n], i, n, maturity, p, coin);
        LivesPrefix(blocks, n, i, n, maturity, p, coin);
        assert Lives(blocks, i, |blocks|, maturity, p, coin);
      } else if MadeAt(blocks, n, maturity, p, coin) {
        assert Lives(blocks, n, |blocks|, maturity, p, coin);
      }
    }
  }

  /** The sidechains after the whole chain. */
  lemma {:induction false} ScsAtTip(node: Node, maturity: nat)
    requires Consistent(node, maturity)
    ensures ScsAt(node.blocks, |node.blocks|, maturity) == node.state.scs
  {
    hide Inv;
    ConsistentInv(node, maturity);
    assert node.blocks[..|node.blocks|] == node.blocks;
  }

  /** The unspent outputs are exactly those made on the chain and not spent or voided since. */
  lemma {:induction false} CoinsLive(node: Node, maturity: nat, p: OutPoint, coin: Coin)
    requires Consistent(node, maturity)
    ensures Shows(node.state.coins, p, coin) <==> LivesOn(node.blocks, maturity, p, coin)
    decreases |node.blocks|
  {
    hide Inv, ValidBlock, ConnectBlock, Consistent, SpentBy, MadeBy, VoidedAt, HasSource, SpendsOnce, Items, ScsAt;
    if node.blocks == [] {
      NoCoins(node, maturity, p, coin);
    } else {
      var prev := OneBlockBack(node, maturity);
      var n := |prev.blocks|;
      CoinsLive(prev, maturity, p, coin);
      BlockShown(prev.state, node.blocks[n], n + 1, maturity);
      ScsAtTip(node, maturity);
      LivesStep(node.blocks, maturity, p, coin);
    }
  }

  lemma {:induction false} NoCoins(node: Node, maturity: nat, p: OutPoint, coin: Coin)
    requires Consistent(node, maturity) && node.blocks == []
    ensures !Shows(node.state.coins, p, coin)
  {
  }

  /** The coin that block `j` spends was made by block `i`, and lived until then. */
  ghost predicate SpentFrom(blocks: seq<Block>, i: nat, j: nat, maturity: nat, p: OutPoint, coin: Coin)
    requires j < |blocks|
  {
    && i <= j && MadeAt(blocks, i, maturity, p, coin) && coin.height == i + 1 && Ripe(coin, p.n, j + 1)
    && forall k :: i <= k < j ==> !GoneAt(blocks, k, maturity, p, coin)
  }

  lemma {:induction false} MadeAtHeight(items: seq<Item>, height: int, p: OutPoint, coin: Coin)
    requires MadeBy(items, height, p, coin)
    ensures coin.height == height
  {
  }

  /** The last block of a chain. */
  lemma {:induction false} LastSpends(node: Node, maturity: nat, p: OutPoint) returns (i: nat, coin: Coin)
    requires Consistent(node, maturity) && node.blocks != []
    requires SpentAt(node.blocks, |node.blocks| - 1, maturity, p)
    ensures SpentFrom(node.blocks, i, |node.blocks| - 1, maturity, p, coin)
  {
    hide Inv, ValidBlock, ConnectBlock, Consistent, SpentBy, MadeBy, VoidedAt, SpendsOnce, Items, ScsAt, Shows, Ripe,
      GoneAt;
    var prev := OneBlockBack(node, maturity);
    var n := |prev.blocks|;
    BlockShown(prev.state, node.blocks[n], n + 1, maturity);
    ScsAtTip(node, maturity);
    assert HasSource(prev.state.coins, Items(node.state.scs, node.blocks[n]), n + 1, p);
    coin :| SourceOf(prev.state.coins, Items(node.state.scs, node.blocks[n]), n + 1, p, coin);
    if Shows(prev.state.coins, p, coin) {
      CoinsLive(prev, maturity, p, coin);
      i :| Lives(prev.blocks, i, n, maturity, p, coin);
      LivesPrefix(node.blocks, n, i, n, maturity, p, coin);
    } else {
      i := n;
    }
    MadeAtHeight(Items(ScsAt(node.blocks, i + 1, maturity), node.blocks[i]), i + 1, p, coin);
  }

  lemma {:induction false} SpendsLive(node: Node, maturity: nat, j: nat, p: OutPoint)
    requires Consistent(node, maturity) && j < |node.blocks| && SpentAt(node.blocks, j, maturity, p)
    ensures exists i, coin :: SpentFrom(node.blocks, i, j, maturity, p, coin)
    decreases |node.blocks|
  {
    hide Inv, ValidBlock, ConnectBlock, Consistent, SpentAt, MadeAt, GoneAt, Ripe;
    var n := |node.blocks| - 1;
    if j == n {
      var i, coin := LastSpends(node, maturity, p);
      assert SpentFrom(node.blocks, i, j, maturity, p, coin);
    } else {
      var prev := OneBlockBack(node, maturity);
      PrefixSame(node.blocks, n, j, maturity, p, Coin(Spent, false, 0, 0, 0, 0));
      SpendsLive(prev, maturity, j, p);
      var i: nat, coin :| SpentFrom(prev.blocks, i, j, maturity, p, coin);
      forall k | i <= k <= j
        ensures MadeAt(node.blocks, k, maturity, p, coin) == MadeAt(prev.blocks, k, maturity, p, coin)
        ensures GoneAt(node.blocks, k, maturity, p, coin) == GoneAt(prev.blocks, k, maturity, p, coin)
      {
        PrefixSame(node.blocks, n, k, maturity, p, coin);
      }
      assert SpentFrom(node.blocks, i, j, maturity, p, coin);
    }
  }

  /**
   * Over every run: an output is unspent exactly when a block of the active chain made it and none since has spent or
   * voided it; and every output that a block spends was made by a block of the chain, was not spent or voided in
   * between, and had waited: a hundred blocks for a coinbase, until its maturity for a backward transfer.
   */
  lemma {:induction false} CoinsTellHistory(steps: seq<Step>, maturity: nat, p: OutPoint, coin: Coin, j: nat)
    requires ValidRun(FRESH_NODE, steps, maturity)
    ensures Run(FRESH_NODE, steps, maturity).Ok?
    ensures var node := Run(FRESH_NODE, steps, maturity).value;
      && (Shows(node.state.coins, p, coin) <==> LivesOn(node.blocks, maturity, p, coin))
      && (j < |node.blocks| && SpentAt(node.blocks, j, maturity, p) ==>
            exists i, source :: SpentFrom(node.blocks, i, j, maturity, p, source))
  {
    hide Consistent, SpentAt, SpentFrom, LivesOn, Shows;
    RunConsistent(steps, maturity);
    var node := Run(FRESH_NODE, steps, maturity).value;
    CoinsLive(node, maturity, p, coin);
    if j < |node.blocks| && SpentAt(node.blocks, j, maturity, p) {
      SpendsLive(node, maturity, j, p);
    }
  }
}
