/** The entries of a block create no value: what becomes unspent, with the fees, is what was unspent and what came from
    the shielded pool and the sidechains (miner.cpp, primitives/transaction.cpp, primitives/certificate.cpp). */
module BlockValue {
  import Ledger
  import opened Sums
  import opened Mempool
  import opened BlockOrder

  /** The value of all unspent outputs. */
  ghost function Unspent(view: View): int {
    Total(view)
  }

  /** What an entry brings in from elsewhere: from the shielded pool, or by backward transfers from its sidechain; less
      what it sends to the shielded pool and to sidechains. */
  function Outside(e: Entry): int {
    if e.isCert then e.shieldedIn + (if e.firstBwt <= |e.outputs| then SumOf(e.outputs[e.firstBwt..]) else 0)
    else e.shieldedIn - e.shieldedOut - e.crossOut
  }

  function Outsides(pool: Pool, s: seq<Hash>): int
    requires AllIn(pool, s)
  {
    if |s| == 0 then 0 else Outsides(pool, s[..|s| - 1]) + Outside(pool.entries[s[|s| - 1]])
  }

  /** Taking distinct outputs away. */
  lemma {:induction false} Spending(view: View, inputs: seq<OutPoint>)
    requires forall i :: 0 <= i < |inputs| ==> inputs[i] in view
    requires forall i, j :: 0 <= i < j < |inputs| ==> inputs[i] != inputs[j]
    ensures Unspent(view - (set i | 0 <= i < |inputs| :: inputs[i])) == Unspent(view) - ValueIn(view, inputs)
    decreases |inputs|
  {
    var all := set i | 0 <= i < |inputs| :: inputs[i];
    if |inputs| == 0 {
      assert view - all == view;
    } else {
      var n := |inputs| - 1;
      var early := set i | 0 <= i < n :: inputs[..n][i];
      Spending(view, inputs[..n]);
      var rest := view - early;
      assert inputs[n] in rest;
      TotalMinus(rest, inputs[n]);
      assert view - all == rest - {inputs[n]} by {
        assert forall i :: 0 <= i < n ==> inputs[..n][i] == inputs[i];
        assert all == early + {inputs[n]};
      }
    }
  }

  /** The outputs of one hash. */
  ghost function Outputs(hash: Hash, values: seq<nat>): (r: View)
    ensures forall o :: o in r <==> o.hash == hash && o.n < |values|
    ensures forall o :: o in r ==> r[o] == values[o.n]
  {
    if |values| == 0 then map[]
    else
      var n := |values| - 1;
      Outputs(hash, values[..n])[Ledger.OutPoint(hash, n) := values[n]]
  }

  lemma {:induction false} Making(view: View, hash: Hash, values: seq<nat>)
    requires forall o :: o in view ==> o.hash != hash
    ensures Unspent(view + Outputs(hash, values)) == Unspent(view) + SumOf(values)
    decreases |values|
  {
    if |values| == 0 {
      assert view + Outputs(hash, values) == view;
    } else {
      var n := |values| - 1;
      var early, o := view + Outputs(hash, values[..n]), Ledger.OutPoint(hash, n);
      Making(view, hash, values[..n]);
      hide Outputs;
      OneMoreOutput(view, hash, values);
      TotalPut(early, o, values[n]);
    }
  }

  lemma {:induction false} OneMoreOutput(view: View, hash: Hash, values: seq<nat>)
    requires |values| > 0 && forall o :: o in view ==> o.hash != hash
    ensures var n := |values| - 1;
      var early, o := view + Outputs(hash, values[..n]), Ledger.OutPoint(hash, n);
      o !in early && view + Outputs(hash, values) == early[o := values[n]]
  {
    hide SumOf;
  }

  lemma {:induction false} SumSplit(values: seq<nat>, k: nat)
    requires k <= |values|
    ensures SumOf(values) == SumOf(values[..k]) + SumOf(values[k..])
    decreases |values|
  {
    if k == |values| {
      assert values[..k] == values;
    } else {
      var n := |values| - 1;
      SumSplit(values[..n], k);
      assert values[..n][..k] == values[..k] && values[..n][k..] == values[k..][..n - k];
    }
  }

  /** One entry: its inputs go, its outputs come, and the fee is the difference to what it brings in. */
  lemma {:induction false} EntryConserves(view: View, e: Entry)
    requires HaveInputs(view, e) && forall i, j :: 0 <= i < j < |e.inputs| ==> e.inputs[i] != e.inputs[j]
    requires forall o :: o in view ==> o.hash != e.hash
    ensures Unspent(Update(view, e)) + Fee(view, e) == Unspent(view) + Outside(e)
  {
    hide Update, SumOf;
    if e.isCert && e.firstBwt <= |e.outputs| {
      SumSplit(e.outputs, e.firstBwt);
    }
    Spending(view, e.inputs);
    var rest := view - Spends(e);
    Making(rest, e.hash, e.outputs);
    SameViews(Update(view, e), rest + Outputs(e.hash, e.outputs));
  }

  /** A list of entries that find their inputs one after the other. */
  lemma {:induction false} EntriesConserve(pool: Pool, tip: View, s: seq<Hash>)
    requires Consistent(pool) && Unconfirmed(pool, tip) && AllIn(pool, s) && Replays(pool, tip, s)
    requires forall i, j :: 0 <= i < j < |s| ==> s[i] != s[j]
    ensures Unspent(Replay(pool, tip, s)) + Fees(pool, tip, s) == Unspent(tip) + Outsides(pool, s)
    decreases |s|
  {
    hide Update, Fee, Outside, HaveInputs, Unspent;
    if |s| > 0 {
      var n := |s| - 1;
      EntriesConserve(pool, tip, s[..n]);
      var view, e := Replay(pool, tip, s[..n]), pool.entries[s[n]];
      assert EntryOk(pool, s[n]);
      forall o | o in view ensures o.hash != e.hash {
        ReplayKnown(pool, tip, s[..n], o);
      }
      EntryConserves(view, e);
    }
  }
}
