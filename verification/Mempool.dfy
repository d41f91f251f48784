/** The memory pool as block assembly sees it: entries, what they spend and what they wait for (miner.cpp). */
module Mempool {
  import Ledger

  type Hash = nat
  type ScId = nat
  type OutPoint = Ledger.OutPoint

  /**
   * A transaction or certificate of the pool. A transaction is eligible when it is final and no coinbase, a certificate
   * always; outputs from firstBwt on are backward transfers of a certificate; shieldedIn and shieldedOut are what comes
   * from the shielded pool and goes there, crossOut what is sent to sidechains; priority, feeRate and the deltas are
   * given numbers.
   */
  datatype Entry = Entry(
    hash: Hash,
    isCert: bool,
    eligible: bool,
    inputs: seq<OutPoint>,
    outputs: seq<nat>,
    firstBwt: nat,
    forwards: seq<ScId>,
    size: nat,
    sigOps: nat,
    shieldedIn: nat,
    shieldedOut: nat,
    crossOut: nat,
    priority: real,
    feeRate: int,
    priorityDelta: real,
    feeDelta: int)

  /** The pool, the transactions that create its sidechains, and the sidechains of the chain's tip. */
  datatype Pool = Pool(entries: map<Hash, Entry>, creators: map<ScId, Hash>, sidechains: set<ScId>)

  /** Values of the unspent outputs. */
  type View = map<OutPoint, nat>

  /** What admission to the pool grants: entries are filed under their hashes, inputs are distinct and spendable,
      certificates make no forward transfers, and every sidechain is known or about to be. */
  ghost predicate Consistent(pool: Pool) {
    forall h :: h in pool.entries ==> EntryOk(pool, h)
  }

  ghost predicate EntryOk(pool: Pool, h: Hash)
    requires h in pool.entries
  {
    var e := pool.entries[h];
    && e.hash == h
    && (forall i, j :: 0 <= i < j < |e.inputs| ==> e.inputs[i] != e.inputs[j])
    && (forall i :: 0 <= i < |e.inputs| ==> !Unspendable(pool, e, e.inputs[i]))
    && (e.isCert ==> e.eligible && e.forwards == [])
    && (forall i :: 0 <= i < |e.forwards| ==> KnownSidechain(pool, e.forwards[i]))
  }

  /** Of an unconfirmed certificate only other certificates may spend, and only change, no backward transfer. */
  predicate Unspendable(pool: Pool, e: Entry, o: OutPoint) {
    o.hash in pool.entries && pool.entries[o.hash].isCert && (!e.isCert || o.n >= pool.entries[o.hash].firstBwt)
  }

  predicate KnownSidechain(pool: Pool, sc: ScId) {
    sc in pool.sidechains
    || (sc in pool.creators && pool.creators[sc] in pool.entries && !pool.entries[pool.creators[sc]].isCert)
  }

  /** The pool entry that an input waits for, or that a forward transfer waits for, if any. */
  function InputParent(pool: Pool, o: OutPoint): set<Hash> {
    if o.hash in pool.entries then {o.hash} else {}
  }

  function ForwardParent(pool: Pool, h: Hash, sc: ScId): set<Hash> {
    if sc !in pool.sidechains && sc in pool.creators && pool.creators[sc] != h then {pool.creators[sc]} else {}
  }

  function InputParents(pool: Pool, inputs: seq<OutPoint>): (r: set<Hash>)
    ensures forall i :: 0 <= i < |inputs| && inputs[i].hash in pool.entries ==> inputs[i].hash in r
  {
    if |inputs| == 0 then {}
    else InputParents(pool, inputs[..|inputs| - 1]) + InputParent(pool, inputs[|inputs| - 1])
  }

  function ForwardParents(pool: Pool, h: Hash, forwards: seq<ScId>): set<Hash> {
    if |forwards| == 0 then {}
    else ForwardParents(pool, h, forwards[..|forwards| - 1]) + ForwardParent(pool, h, forwards[|forwards| - 1])
  }

  /** Everything in the pool that has to be in the block before the entry. */
  function Parents(pool: Pool, h: Hash): set<Hash> {
    if h in pool.entries
    then InputParents(pool, pool.entries[h].inputs) + ForwardParents(pool, h, pool.entries[h].forwards)
    else {}
  }

  /** The entries that block assembly considers. */
  function Eligible(pool: Pool): set<Hash> {
    set h | h in pool.entries && pool.entries[h].eligible
  }

  // ----- spending -----

  predicate HaveInputs(view: View, e: Entry) {
    forall i :: 0 <= i < |e.inputs| ==> e.inputs[i] in view
  }

  function Spends(e: Entry): set<OutPoint> {
    set i | 0 <= i < |e.inputs| :: e.inputs[i]
  }

  predicate Makes(e: Entry, o: OutPoint) {
    o.hash == e.hash && o.n < |e.outputs|
  }

  /** UpdateCoins: the inputs go, the outputs come. */
  function Update(view: View, e: Entry): (r: View)
    ensures forall o :: o in r <==> Makes(e, o) || (o in view && o !in Spends(e))
    ensures forall o :: o in r ==> r[o] == if Makes(e, o) then e.outputs[o.n] else view[o]
  {
    (view - Spends(e)) + Created(e)
  }

  function Created(e: Entry): (r: View)
    ensures forall o :: o in r <==> Makes(e, o)
    ensures forall o :: o in r ==> Makes(e, o) && r[o] == e.outputs[o.n]
  {
    var all := set i | 0 <= i < |e.outputs| :: Ledger.OutPoint(e.hash, i);
    forall o | Makes(e, o)
      ensures o in all
    {
      assert o == Ledger.OutPoint(e.hash, o.n);
    }
    map o | o in all :: e.outputs[o.n]
  }

  function ValueIn(view: View, inputs: seq<OutPoint>): nat
    requires forall i :: 0 <= i < |inputs| ==> inputs[i] in view
  {
    if |inputs| == 0 then 0 else ValueIn(view, inputs[..|inputs| - 1]) + view[inputs[|inputs| - 1]]
  }

  function SumOf(values: seq<nat>): nat {
    if |values| == 0 then 0 else SumOf(values[..|values| - 1]) + values[|values| - 1]
  }

  /** The outputs of a certificate that are change, all outputs of a transaction. */
  function Change(e: Entry): seq<nat> {
    if e.isCert && e.firstBwt <= |e.outputs| then e.outputs[..e.firstBwt] else e.outputs
  }

  /** GetValueOut of a transaction, GetValueOfChange of a certificate. */
  function ValueOut(e: Entry): nat {
    SumOf(Change(e)) + if e.isCert then 0 else e.shieldedOut + e.crossOut
  }

  /** GetFeeAmount of GetValueIn. */
  function Fee(view: View, e: Entry): int
    requires HaveInputs(view, e)
  {
    ValueIn(view, e.inputs) + e.shieldedIn - ValueOut(e)
  }

  // ----- a block's worth of entries, one after the other -----

  predicate AllIn(pool: Pool, s: seq<Hash>) {
    forall i :: 0 <= i < |s| ==> s[i] in pool.entries
  }

  function Replay(pool: Pool, view: View, s: seq<Hash>): View
    requires AllIn(pool, s)
  {
    if |s| == 0 then view else Update(Replay(pool, view, s[..|s| - 1]), pool.entries[s[|s| - 1]])
  }

  /** Each entry finds all its inputs when its turn comes. */
  predicate Replays(pool: Pool, view: View, s: seq<Hash>)
    requires AllIn(pool, s)
  {
    |s| == 0
    || (Replays(pool, view, s[..|s| - 1]) && HaveInputs(Replay(pool, view, s[..|s| - 1]), pool.entries[s[|s| - 1]]))
  }

  function Fees(pool: Pool, view: View, s: seq<Hash>): int
    requires AllIn(pool, s) && Replays(pool, view, s)
  {
    if |s| == 0 then 0
    else Fees(pool, view, s[..|s| - 1]) + Fee(Replay(pool, view, s[..|s| - 1]), pool.entries[s[|s| - 1]])
  }

  function Sizes(pool: Pool, s: seq<Hash>): nat
    requires AllIn(pool, s)
  {
    if |s| == 0 then 0 else Sizes(pool, s[..|s| - 1]) + pool.entries[s[|s| - 1]].size
  }

  /** The number of inputs squared. */
  function Complexity(e: Entry): nat {
    |e.inputs| * |e.inputs|
  }

  function Complexities(pool: Pool, s: seq<Hash>): nat
    requires AllIn(pool, s)
  {
    if |s| == 0 then 0
    else Complexities(pool, s[..|s| - 1])
         + |pool.entries[s[|s| - 1]].inputs| * |pool.entries[s[|s| - 1]].inputs|
  }

  function Elements(s: seq<Hash>): (r: set<Hash>)
    ensures forall h :: h in r <==> h in s
  {
    set h | h in s
  }

  /** Each entry once, and after everything it waits for. */
  ghost predicate InOrder(pool: Pool, s: seq<Hash>) {
    (forall i, j :: 0 <= i < j < |s| ==> s[i] != s[j])
    && (forall i :: 0 <= i < |s| ==> Parents(pool, s[i]) <= Elements(s[..i]))
  }
}
