/** `CCoins`: the unspent outputs of one transaction or certificate
    (src/coins.h, src/coins.cpp), and the undo records that restore them
    (src/undo.h). */
module Coins {
  import opened Results

  /** A 256-bit identifier; zero is the null hash. */
  type Hash = nat
  const NULL_HASH: Hash := 0

  const BWT_POS_UNSET: int := -1

  type Script = seq<nat>
  const OP_RETURN: nat := 0x6a
  const MAX_SCRIPT_SIZE: nat := 10000

  predicate IsUnspendable(script: Script) {
    (|script| > 0 && script[0] == OP_RETURN) || |script| > MAX_SCRIPT_SIZE
  }

  /** A spent output is `Spent` (the source sets its value to -1 and clears its script). */
  datatype TxOut = Spent | Out(value: nat, script: Script)

  datatype CCoins = CCoins(
    coinBase: bool,
    vout: seq<TxOut>,
    height: int,
    version: int,
    firstBwtPos: int,
    bwtMaturityHeight: int)

  const EMPTY := CCoins(false, [], 0, 0, BWT_POS_UNSET, 0)

  /** Restores one output; carries the metadata only when it was the last one. */
  datatype TxInUndo = TxInUndo(
    txout: TxOut,
    coinBase: bool,
    height: int,
    version: int,
    firstBwtPos: int,
    bwtMaturityHeight: int)

  predicate IsPruned(c: CCoins) {
    forall i :: 0 <= i < |c.vout| ==> c.vout[i].Spent?
  }

  predicate IsAvailable(c: CCoins, pos: int) {
    0 <= pos < |c.vout| && c.vout[pos].Out?
  }

  const COINBASE_MATURITY := 100
  const SC_CERT_VERSION := -5

  /** `CCoins::IsFromCert`, decided on seven bits, since no more may be left of a stored version. */
  predicate IsFromCert(version: int) {
    version % 128 == SC_CERT_VERSION % 128
  }

  /** `CCoins::isOutputMature`. The comparison of positions is unsigned, so an unset one is out of reach. */
  predicate OutputMature(c: CCoins, pos: nat, height: int) {
    if c.coinBase then height >= c.height + COINBASE_MATURITY
    else IsFromCert(c.version) && 0 <= c.firstBwtPos <= pos ==> height >= c.bwtMaturityHeight
  }

  /** No spent output at the end of the vector. */
  predicate Trimmed(vout: seq<TxOut>) {
    vout != [] ==> vout[|vout| - 1].Out?
  }

  /** The longest trimmed prefix: what `Cleanup` leaves. */
  function Trim(vout: seq<TxOut>): seq<TxOut> {
    if vout != [] && vout[|vout| - 1].Spent? then Trim(vout[..|vout| - 1]) else vout
  }

  ghost predicate IsTrimOf(r: seq<TxOut>, vout: seq<TxOut>) {
    && Trimmed(r) && r <= vout
    && forall i :: |r| <= i < |vout| ==> vout[i].Spent?
  }

  lemma {:induction false} TrimIsTrim(vout: seq<TxOut>)
    ensures IsTrimOf(Trim(vout), vout)
  {
    if vout != [] && vout[|vout| - 1].Spent? {
      TrimIsTrim(vout[..|vout| - 1]);
    }
  }

  /** `Trim` is the only trimmed prefix after which everything is spent. */
  lemma {:induction false} TrimUnique(vout: seq<TxOut>, r: seq<TxOut>)
    requires IsTrimOf(r, vout)
    ensures Trim(vout) == r
  {
    TrimIsTrim(vout);
    var t := Trim(vout);
    assert r == [] || r[|r| - 1] == vout[|r| - 1];
    assert t == [] || t[|t| - 1] == vout[|t| - 1];
  }

  function Cleanup(c: CCoins): CCoins {
    c.(vout := Trim(c.vout))
  }

  /** `CCoins::Cleanup`: pops spent outputs off the end. */
  method CleanupLoop(vout: seq<TxOut>) returns (r: seq<TxOut>)
    ensures r == Trim(vout)
  {
    r := vout;
    while |r| > 0 && r[|r| - 1].Spent?
      invariant r <= vout && Trim(r) == Trim(vout)
    {
      r := r[..|r| - 1];
    }
  }

  lemma {:induction false} CleanupTrimmed(c: CCoins)
    requires Trimmed(c.vout)
    ensures Cleanup(c) == c
  {
  }

  lemma {:induction false} TrimmedPrunedIsEmpty(c: CCoins)
    requires Trimmed(c.vout)
    ensures IsPruned(c) <==> c.vout == []
  {
  }

  /** `CCoins::Spend`: nothing happens when the output is not available. */
  function Spend(c: CCoins, pos: int): CCoins {
    if IsAvailable(c, pos) then Cleanup(c.(vout := c.vout[pos := Spent])) else c
  }

  /** `CTxInUndo(coins->vout[pos])`, completed with the metadata of the coins
      left over (`after`) when no output remains. */
  function MakeUndo(out: TxOut, after: CCoins): TxInUndo {
    if |after.vout| == 0
    then TxInUndo(out, after.coinBase, after.height, after.version, after.firstBwtPos, after.bwtMaturityHeight)
    else TxInUndo(out, false, 0, 0, BWT_POS_UNSET, 0)
  }

  /** Grows the vector with spent outputs up to at least `n` elements. */
  function Resize(vout: seq<TxOut>, n: nat): (r: seq<TxOut>)
    ensures |r| == if |vout| < n then n else |vout|
    ensures vout <= r && forall i :: |vout| <= i < |r| ==> r[i].Spent?
  {
    if |vout| < n then vout + seq(n - |vout|, _ => Spent) else vout
  }

  function WithMetadata(c: CCoins, undo: TxInUndo): CCoins {
    if undo.height != 0
    then CCoins(undo.coinBase, c.vout, undo.height, undo.version, undo.firstBwtPos, undo.bwtMaturityHeight)
    else c
  }

  /** `ApplyTxInUndo` (src/main.cpp): puts output `pos` back. `Err` is the
      source's unclean result. */
  function ApplyUndo(c: CCoins, undo: TxInUndo, pos: nat): Result<CCoins> {
    if undo.height == 0 && IsPruned(c) then Err
    else
      var d := WithMetadata(c, undo);
      if IsAvailable(d, pos) then Err
      else Ok(d.(vout := Resize(d.vout, pos + 1)[pos := undo.txout]))
  }

  /** Spending an output and undoing it gives the coins back, even when the
      spend drops trailing slots, unless it took the last output of coins recorded
      at height zero: then the undo record looks like one without metadata and is
      refused. `c0` is whatever the view holds when all outputs are gone. */
  lemma {:induction false} UndoSpend(c: CCoins, pos: nat, c0: CCoins)
    requires Trimmed(c.vout) && IsAvailable(c, pos)
    requires if IsPruned(Spend(c, pos)) then c0.vout == [] else c0 == Spend(c, pos)
    ensures var r := ApplyUndo(c0, MakeUndo(c.vout[pos], Spend(c, pos)), pos);
            (r == Ok(c) <==> c.height != 0 || !IsPruned(Spend(c, pos))) && (r == Ok(c) || r == Err)
  {
    var after := Spend(c, pos);
    TrimIsTrim(c.vout[pos := Spent]);
    TrimmedPrunedIsEmpty(after);
    if c.height != 0 || !IsPruned(after) {
      var d := WithMetadata(c0, MakeUndo(c.vout[pos], after));
      var grown := Resize(d.vout, pos + 1);
      assert after.vout <= c.vout[pos := Spent];
      assert pos == |c.vout| - 1 || c.vout[pos := Spent][|c.vout| - 1] == c.vout[|c.vout| - 1];
      assert |after.vout| <= pos || |after.vout| == |c.vout|;
      assert grown[pos := c.vout[pos]] == c.vout by {
        if pos < |c.vout| - 1 {
          assert c.vout[pos := Spent][|c.vout| - 1].Out?;
        }
      }
    }
  }

  /** Coins the undo cannot bring back: a single output recorded at height zero. */
  lemma {:induction false} UndoSpendAtHeightZero(value: nat)
    ensures var c := CCoins(true, [Out(value, [])], 0, 1, BWT_POS_UNSET, 0);
            ApplyUndo(EMPTY, MakeUndo(c.vout[0], Spend(c, 0)), 0) == Err
  {
    var c := CCoins(true, [Out(value, [])], 0, 1, BWT_POS_UNSET, 0);
    assert c.vout[0 := Spent] == [Spent];
    TrimUnique([Spent], []);
    UndoSpend(c, 0, EMPTY);
  }

  // ---- Voiding the backward transfers of a certificate ----

  /** What remains after every backward transfer is spent. */
  function Voided(c: CCoins): CCoins {
    if 0 <= c.firstBwtPos < |c.vout| then c.(vout := Trim(c.vout[..c.firstBwtPos])) else c
  }

  /** The undo record of backward transfer `i`; the last one carries the metadata
      when nothing is left. */
  function VoidedOut(c: CCoins, i: nat): TxInUndo
    requires 0 <= c.firstBwtPos && c.firstBwtPos + i < |c.vout|
  {
    if c.firstBwtPos + i == |c.vout| - 1
    then MakeUndo(c.vout[c.firstBwtPos + i], Voided(c))
    else TxInUndo(c.vout[c.firstBwtPos + i], false, 0, 0, BWT_POS_UNSET, 0)
  }

  function VoidedOuts(c: CCoins): (outs: seq<TxInUndo>)
    ensures |outs| == if 0 <= c.firstBwtPos < |c.vout| then |c.vout| - c.firstBwtPos else 0
    ensures forall i :: 0 <= i < |outs| ==> outs[i] == VoidedOut(c, i)
  {
    if 0 <= c.firstBwtPos < |c.vout|
    then seq(|c.vout| - c.firstBwtPos, i requires 0 <= i < |c.vout| - c.firstBwtPos => VoidedOut(c, i))
    else []
  }

  /** The outputs when the voiding loop is about to treat position `pos`. */
  function VoidedUpTo(c: CCoins, pos: nat): (vout: seq<TxOut>)
    requires 0 <= c.firstBwtPos <= pos <= |c.vout|
    ensures |vout| == |c.vout|
    ensures forall i :: 0 <= i < |vout| ==> vout[i] == if c.firstBwtPos <= i < pos then Spent else c.vout[i]
  {
    c.vout[..c.firstBwtPos] + seq(pos - c.firstBwtPos, _ => Spent) + c.vout[pos..]
  }

  /** One turn of the voiding loop. */
  lemma {:induction false} VoidTurn(c: CCoins, d: CCoins, pos: nat)
    requires Trimmed(c.vout) && 0 <= c.firstBwtPos <= pos < |c.vout|
    requires d == c.(vout := VoidedUpTo(c, pos))
    ensures d.vout[pos] == c.vout[pos]
    ensures pos < |c.vout| - 1 ==> Spend(d, pos) == c.(vout := VoidedUpTo(c, pos + 1))
    ensures pos == |c.vout| - 1 ==> Spend(d, pos) == Voided(c) && |Voided(c).vout| <= pos
  {
    hide Trim, VoidedUpTo;
    var next := VoidedUpTo(c, pos + 1);
    assert next == d.vout[pos := Spent];
    if pos == |c.vout| - 1 {
      AllVoided(c);
    } else {
      NotYetVoided(c, next);
    }
  }

  lemma {:induction false} NotYetVoided(c: CCoins, next: seq<TxOut>)
    requires Trimmed(c.vout) && |next| == |c.vout| > 0 && next[|next| - 1] == c.vout[|next| - 1]
    ensures Trim(next) == next
  {
    TrimUnique(next, next);
  }

  lemma {:induction false} AllVoided(c: CCoins)
    requires 0 <= c.firstBwtPos < |c.vout|
    ensures Trim(VoidedUpTo(c, |c.vout|)) == Trim(c.vout[..c.firstBwtPos])
    ensures |Trim(c.vout[..c.firstBwtPos])| <= c.firstBwtPos
  {
    hide Trim;
    var kept := Trim(c.vout[..c.firstBwtPos]);
    TrimIsTrim(c.vout[..c.firstBwtPos]);
    TrimUnique(VoidedUpTo(c, |c.vout|), kept);
  }

  /** The voiding loop of `HandleSidechainEvents` (src/coins.cpp:1386-1400). */
  method VoidBackwardTransfers(c: CCoins) returns (d: CCoins, outs: seq<TxInUndo>)
    requires Trimmed(c.vout)
    ensures d == Voided(c) && outs == VoidedOuts(c)
  {
    hide Trim, Trimmed, VoidedUpTo;
    d, outs := c, [];
    if c.firstBwtPos < 0 || c.firstBwtPos >= |c.vout| {
      // The comparison is unsigned, so an unset position ends the loop at once.
      return;
    }
    var pos := c.firstBwtPos;
    ghost var n := |c.vout|;
    assert VoidedUpTo(c, pos) == c.vout;
    while pos < |d.vout|
      invariant c.firstBwtPos <= pos <= n
      invariant pos < n ==> d == c.(vout := VoidedUpTo(c, pos))
      invariant pos == n ==> d == Voided(c) && |d.vout| <= pos
      invariant |outs| == pos - c.firstBwtPos
      invariant forall i :: 0 <= i < |outs| ==> outs[i] == VoidedOut(c, i)
      decreases n - pos
    {
      VoidTurn(c, d, pos);
      var out := d.vout[pos];
      d := Spend(d, pos);
      assert MakeUndo(out, d) == VoidedOut(c, pos - c.firstBwtPos);
      outs := outs + [MakeUndo(out, d)];
      pos := pos + 1;
    }
  }

  /** One turn of the restoring loop of `RevertSidechainEvents`
      (src/coins.cpp:1479-1499): record `idx` goes back to `firstBwtPos + idx`. */
  function RestoreOne(c: CCoins, undo: TxInUndo, idx: nat): Result<CCoins> {
    var first := WithMetadata(c, undo).firstBwtPos;
    if first < 0 then Err else ApplyUndo(c, undo, first + idx)
  }

  /** The turns for the records below `idx`, highest first. */
  function RestoreFrom(c: CCoins, outs: seq<TxInUndo>, idx: nat): Result<CCoins>
    requires idx <= |outs|
    decreases idx
  {
    if idx == 0 then Ok(c)
    else
      var e :- RestoreOne(c, outs[idx - 1], idx - 1);
      RestoreFrom(e, outs, idx - 1)
  }

  method RestoreVoidedOuts(c: CCoins, outs: seq<TxInUndo>) returns (r: Result<CCoins>)
    ensures r == RestoreFrom(c, outs, |outs|)
  {
    var d := c;
    var idx := |outs|;
    while idx > 0
      invariant 0 <= idx <= |outs|
      invariant RestoreFrom(d, outs, idx) == RestoreFrom(c, outs, |outs|)
    {
      var next := RestoreOne(d, outs[idx - 1], idx - 1);
      if next.Err? {
        return Err;
      }
      d := next.value;
      idx := idx - 1;
    }
    r := Ok(d);
  }

  /** Restoring undoes voiding exactly: outputs and metadata, also when voiding
      left nothing and the view only holds an empty record `c0`. It is refused
      only when nothing was left of a certificate recorded at height zero. */
  lemma {:induction false} RestoreUndoesVoid(c: CCoins, c0: CCoins)
    requires Trimmed(c.vout) && c.vout != []
    requires if IsPruned(Voided(c)) then c0.vout == [] else c0 == Voided(c)
    ensures var r := RestoreFrom(c0, VoidedOuts(c), |VoidedOuts(c)|);
            (r == Ok(c) <==> c.height != 0 || !IsPruned(Voided(c))) && (r == Ok(c) || r == Err)
  {
    hide RestoreOne, VoidedUpTo, VoidedOut, Trim;
    var outs := VoidedOuts(c);
    TrimmedPrunedIsEmpty(c);
    if |outs| == 0 {
      assert c0 == c;
    } else if c.height == 0 && IsPruned(Voided(c)) {
      RestoreRefused(c, c0);
    } else {
      var e := c.(vout := VoidedUpTo(c, |c.vout| - 1));
      RestoreLast(c, c0);
      RestoreRest(c, e, |outs| - 1, outs);
    }
  }

  /** Without metadata in the last record the first turn is refused. */
  lemma {:induction false} RestoreRefused(c: CCoins, c0: CCoins)
    requires Trimmed(c.vout) && 0 <= c.firstBwtPos < |c.vout| && c.height == 0 && IsPruned(Voided(c)) && c0.vout == []
    ensures RestoreFrom(c0, VoidedOuts(c), |VoidedOuts(c)|) == Err
  {
    var i := |c.vout| - c.firstBwtPos - 1;
    assert VoidedOuts(c)[i] == VoidedOut(c, i);
    TrimIsTrim(c.vout[..c.firstBwtPos]);
    TrimmedPrunedIsEmpty(Voided(c));
    assert VoidedOut(c, i).height == 0;
    assert RestoreOne(c0, VoidedOut(c, i), i) == Err;
  }

  /** The first turn of the restoring loop brings back the metadata, the slots
      that `Cleanup` had dropped and the last backward transfer. */
  lemma {:induction false} RestoreLast(c: CCoins, c0: CCoins)
    requires Trimmed(c.vout) && 0 <= c.firstBwtPos < |c.vout| && (c.height != 0 || !IsPruned(Voided(c)))
    requires if IsPruned(Voided(c)) then c0.vout == [] else c0 == Voided(c)
    ensures var i := |c.vout| - c.firstBwtPos - 1;
            RestoreOne(c0, VoidedOut(c, i), i) == Ok(c.(vout := VoidedUpTo(c, |c.vout| - 1)))
  {
    var pos := |c.vout| - 1;
    var last := MakeUndo(c.vout[pos], Voided(c));
    TrimIsTrim(c.vout[..c.firstBwtPos]);
    TrimmedPrunedIsEmpty(Voided(c));
    var d := WithMetadata(c0, last);
    assert d == c.(vout := Voided(c).vout);
    var grown := Resize(d.vout, pos + 1);
    assert grown[pos := c.vout[pos]] == VoidedUpTo(c, pos);
  }

  /** The remaining turns, from the last but one backward transfer down. */
  lemma {:induction false} RestoreRest(c: CCoins, e: CCoins, idx: nat, outs: seq<TxInUndo>)
    requires Trimmed(c.vout) && 0 <= c.firstBwtPos < |c.vout|
    requires idx < |c.vout| - c.firstBwtPos == |outs|
    requires forall i :: 0 <= i < |outs| ==> outs[i] == VoidedOut(c, i)
    requires e == c.(vout := VoidedUpTo(c, c.firstBwtPos + idx))
    ensures RestoreFrom(e, outs, idx) == Ok(c)
    decreases idx
  {
    hide ApplyUndo, RestoreOne, Trimmed, WithMetadata;
    if idx == 0 {
      assert e.vout == c.vout;
    } else {
      RestoreTurn(c, e, idx);
      RestoreRest(c, c.(vout := VoidedUpTo(c, c.firstBwtPos + idx - 1)), idx - 1, outs);
    }
  }

  lemma {:induction false} RestoreTurn(c: CCoins, e: CCoins, idx: nat)
    requires Trimmed(c.vout) && 0 <= c.firstBwtPos < |c.vout|
    requires 0 < idx < |c.vout| - c.firstBwtPos
    requires e == c.(vout := VoidedUpTo(c, c.firstBwtPos + idx))
    ensures RestoreOne(e, VoidedOut(c, idx - 1), idx - 1)
         == Ok(c.(vout := VoidedUpTo(c, c.firstBwtPos + idx - 1)))
  {
    hide Trim, VoidedOuts, Voided, VoidedUpTo;
    var pos := c.firstBwtPos + idx - 1;
    var undo := VoidedOut(c, idx - 1);
    assert undo == TxInUndo(c.vout[pos], false, 0, 0, BWT_POS_UNSET, 0);
    assert e.vout[|c.vout| - 1].Out? && e.vout[pos].Spent?;
    assert Resize(e.vout, pos + 1) == e.vout;
    assert ApplyUndo(e, undo, pos) == Ok(e.(vout := e.vout[pos := c.vout[pos]]));
    assert e.vout[pos := c.vout[pos]] == VoidedUpTo(c, pos);
  }
}
