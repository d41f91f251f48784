/** The value of the outputs of a certificate: what it takes from its sidechain is what voiding it would take back. */
module BwtValue {
  import opened Coins
  import opened Sidechain
  import opened Ledger

  function Worth(o: TxOut): nat {
    if o.Out? then o.value else 0
  }

  lemma {:induction false} SumOne(o: TxOut)
    ensures SumOuts([o]) == Worth(o)
  {
    assert [o][..0] == [];
  }

  lemma {:induction false} SumConcat(a: seq<TxOut>, b: seq<TxOut>)
    ensures SumOuts(a + b) == SumOuts(a) + SumOuts(b)
    decreases |b|
  {
    if b == [] {
      assert a + b == a;
    } else {
      var n := |b| - 1;
      SumConcat(a, b[..n]);
      assert (a + b)[..|a + b| - 1] == a + b[..n];
    }
  }

  lemma {:induction false} SumSpent(v: seq<TxOut>)
    requires forall i :: 0 <= i < |v| ==> v[i].Spent?
    ensures SumOuts(v) == 0
    decreases |v|
  {
    if v != [] {
      SumSpent(v[..|v| - 1]);
    }
  }

  lemma {:induction false} SumTrim(v: seq<TxOut>)
    ensures SumOuts(Trim(v)) == SumOuts(v)
  {
    hide Trim;
    TrimIsTrim(v);
    var t := Trim(v);
    assert v == t + v[|t|..];
    SumConcat(t, v[|t|..]);
    SumSpent(v[|t|..]);
  }

  /** The value of outputs that are never recorded. */
  function Burnt(vout: seq<TxOut>): nat {
    if vout == [] then 0
    else
      var last := vout[|vout| - 1];
      Burnt(vout[..|vout| - 1]) + if last.Out? && IsUnspendable(last.script) then last.value else 0
  }

  /** The outputs as they are recorded, before trailing ones are dropped. */
  function Cleared(vout: seq<TxOut>): (r: seq<TxOut>)
    ensures |r| == |vout| && Spendable(vout) == Trim(r)
  {
    seq(|vout|, i requires 0 <= i < |vout| => if vout[i].Out? && IsUnspendable(vout[i].script) then Spent else vout[i])
  }

  lemma {:induction false} SumCleared(vout: seq<TxOut>)
    ensures SumOuts(vout) == SumOuts(Cleared(vout)) + Burnt(vout)
    decreases |vout|
  {
    hide Trim;
    if vout != [] {
      var n := |vout| - 1;
      SumCleared(vout[..n]);
      assert Cleared(vout)[..n] == Cleared(vout[..n]);
    }
  }

  /** What voiding leaves is worth what stands before the backward transfers. */
  lemma {:induction false} VoidedWorth(c: CCoins, vout: seq<TxOut>)
    requires 0 <= c.firstBwtPos <= |vout| && c.vout == Trim(vout)
    ensures SumOuts(Voided(c).vout) == SumOuts(vout[..c.firstBwtPos])
  {
    hide Trim;
    var pos, kept := c.firstBwtPos, Trim(vout);
    TrimIsTrim(vout);
    if pos < |kept| {
      assert kept[..pos] == vout[..pos];
      SumTrim(vout[..pos]);
    } else {
      assert vout[..pos] == kept + vout[|kept|..pos];
      SumConcat(kept, vout[|kept|..pos]);
      SumSpent(vout[|kept|..pos]);
    }
  }

  function BackwardTransfers(cert: Cert): seq<TxOut> {
    if cert.firstBwtPos <= |cert.vout| then cert.vout[cert.firstBwtPos..] else []
  }

  /** A certificate takes from the balance exactly the coins that voiding it would remove, and what it burns. */
  lemma {:induction false} WithdrawnIsVoidable(sc: CSidechain, cert: Cert, height: int, bwtMaturityHeight: int)
    ensures var coins := FromCert(cert, height, bwtMaturityHeight);
      sc.balance - WithCert(sc, cert).balance
        == SumOuts(coins.vout) - SumOuts(Voided(coins).vout) + Burnt(BackwardTransfers(cert))
  {
    hide Trim, Spendable;
    var coins, clear := FromCert(cert, height, bwtMaturityHeight), Cleared(cert.vout);
    var pos := cert.firstBwtPos;
    SumTrim(clear);
    if pos <= |cert.vout| {
      VoidedWorth(coins, clear);
      assert clear == clear[..pos] + clear[pos..];
      SumConcat(clear[..pos], clear[pos..]);
      assert clear[pos..] == Cleared(cert.vout[pos..]);
      SumCleared(cert.vout[pos..]);
    } else {
      TrimIsTrim(clear);
    }
  }

  /** Spendable outputs: the withdrawal is the value of the backward transfers, neither more nor less. */
  lemma {:induction false} NothingBurnt(vout: seq<TxOut>)
    requires forall i :: 0 <= i < |vout| && vout[i].Out? ==> !IsUnspendable(vout[i].script)
    ensures Burnt(vout) == 0
    decreases |vout|
  {
    if vout != [] {
      NothingBurnt(vout[..|vout| - 1]);
    }
  }

  /** A certificate with change: only the outputs from its first backward transfer on are withdrawn. */
  lemma {:induction false} ChangeStays(sc: CSidechain, cert: Cert, change: seq<TxOut>, transfers: seq<TxOut>)
    requires cert.vout == change + transfers && cert.firstBwtPos == |change|
    ensures WithCert(sc, cert) == sc.(balance := sc.balance - SumOuts(transfers), lastEpoch := cert.epoch,
                                      lastCertHash := cert.hash)
    ensures SumOuts(cert.vout) == SumOuts(change) + SumOuts(transfers)
  {
    assert cert.vout[|change|..] == transfers;
    SumConcat(change, transfers);
  }
}
