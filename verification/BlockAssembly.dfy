/** Assembling a block from the memory pool (miner.cpp). */
module BlockAssembly {
  import opened Results
  import Ordering
  import opened Mempool
  import opened BlockOrder
  import opened Waiting
  import opened Collecting
  import opened Ranking
  import opened BlockValue

  const MAX_BLOCK_SIZE := 2_000_000
  const MAX_BLOCK_SIGOPS := 20_000
  const RESERVED_SIZE := 1000
  const RESERVED_SIGOPS := 100

  datatype Limits = Limits(maxSize: nat, prioritySize: nat, minSize: nat, maxComplexity: nat, relayFee: int)

  function Least(a: nat, b: nat): nat {
    if a < b then a else b
  }

  /** The limits that the options give: never more than MAX_BLOCK_SIZE allows, and room for the coinbase. */
  function LimitsFrom(options: Limits): (r: Limits)
    ensures RESERVED_SIZE <= r.maxSize <= MAX_BLOCK_SIZE - 1000 && r.prioritySize <= r.maxSize && r.minSize <= r.maxSize
    ensures 1000 <= options.maxSize <= MAX_BLOCK_SIZE - 1000 ==> r.maxSize == options.maxSize
    ensures options.maxSize < 1000 ==> r.maxSize == 1000
    ensures options.maxSize > MAX_BLOCK_SIZE - 1000 ==> r.maxSize == MAX_BLOCK_SIZE - 1000
    ensures r.prioritySize == if options.prioritySize <= r.maxSize then options.prioritySize else r.maxSize
    ensures r.minSize == if options.minSize <= r.maxSize then options.minSize else r.maxSize
    ensures r.maxComplexity == options.maxComplexity && r.relayFee == options.relayFee
  {
    var size := Least(MAX_BLOCK_SIZE - 1000, options.maxSize);
    var most := if size < 1000 then 1000 else size;
    Limits(most, Least(most, options.prioritySize), Least(most, options.minSize), options.maxComplexity,
      options.relayFee)
  }

  /** What is asked of other parts: signature operations in redeem scripts, checks of the inputs, the free allowance. */
  datatype Checks = Checks(p2shSigOps: (View, Entry) -> nat, inputs: (View, Entry) -> bool, allowFree: real -> bool)

  /** What a block is assembled from and under. */
  datatype Setting = Setting(pool: Pool, tip: View, limits: Limits, checks: Checks)

  function Sum(s: seq<int>): int {
    if |s| == 0 then 0 else Sum(s[..|s| - 1]) + s[|s| - 1]
  }

  lemma {:induction false} SumStep(s: seq<int>, x: int)
    ensures Sum(s + [x]) == Sum(s) + x
  {
    assert (s + [x])[..|s|] == s;
  }

  lemma {:induction false} SumHead(x: int, s: seq<int>)
    ensures Sum([x] + s) == x + Sum(s)
    decreases |s|
  {
    if |s| > 0 {
      SumHead(x, s[..|s| - 1]);
      assert ([x] + s)[..|s|] == [x] + s[..|s| - 1];
    }
  }

  // ----- the totals -----

  datatype Totals = Totals(size: nat, sigOps: nat, complexity: nat, fees: int)

  predicate IsFree(limits: Limits, e: Entry) {
    e.priorityDelta <= 0.0 && e.feeDelta <= 0 && e.feeRate < limits.relayFee
  }

  predicate OverLimits(limits: Limits, t: Totals, e: Entry) {
    || t.size + e.size >= limits.maxSize
    || t.sigOps + e.sigOps >= MAX_BLOCK_SIGOPS
    || (limits.maxComplexity > 0 && t.complexity + Complexity(e) >= limits.maxComplexity)
  }

  /** No room for the entry: one of the limits is in the way, or it pays too little to grow the block. */
  predicate NoRoom(limits: Limits, t: Totals, e: Entry) {
    OverLimits(limits, t, e) || (IsFree(limits, e) && t.size + e.size >= limits.minSize)
  }

  ghost predicate Grown(t: Totals, u: Totals) {
    t.size <= u.size && t.sigOps <= u.sigOps && t.complexity <= u.complexity
  }

  lemma {:induction false} NoRoomLater(limits: Limits, t: Totals, u: Totals, e: Entry)
    requires NoRoom(limits, t, e) && Grown(t, u)
    ensures NoRoom(limits, u, e)
  {
    hide Complexity;
  }

  /** Checked against the coins, the entry fails. */
  predicate Fails(checks: Checks, view: View, sigOps: nat, e: Entry) {
    !HaveInputs(view, e) || FailsChecks(checks, view, sigOps, e)
  }

  predicate FailsChecks(checks: Checks, view: View, sigOps: nat, e: Entry) {
    sigOps + EntrySigOps(checks, view, e) >= MAX_BLOCK_SIGOPS || !checks.inputs(view, e)
  }

  /** The signature operations of an entry, those of the redeem scripts it spends included. */
  function EntrySigOps(checks: Checks, view: View, e: Entry): nat {
    e.sigOps + checks.p2shSigOps(view, e)
  }

  /** The signature operations of entries chosen one after the other. */
  function SigOpsOf(a: Setting, s: seq<Hash>): nat
    requires AllIn(a.pool, s)
  {
    if |s| == 0 then 0
    else SigOpsOf(a, s[..|s| - 1])
         + a.pool.entries[s[|s| - 1]].sigOps
         + a.checks.p2shSigOps(Replay(a.pool, a.tip, s[..|s| - 1]), a.pool.entries[s[|s| - 1]])
  }

  ghost predicate WithinLimits(limits: Limits, t: Totals, some: bool) {
    && t.size <= limits.maxSize && (some ==> t.size < limits.maxSize)
    && t.sigOps < MAX_BLOCK_SIGOPS
    && (limits.maxComplexity > 0 && some ==> t.complexity < limits.maxComplexity)
  }

  /** The totals are those of the chosen entries. */
  ghost predicate Adds(a: Setting, chosen: seq<Hash>, t: Totals)
    requires AllIn(a.pool, chosen) && Replays(a.pool, a.tip, chosen)
  {
    && t.size == RESERVED_SIZE + Sizes(a.pool, chosen)
    && t.complexity == Complexities(a.pool, chosen)
    && t.fees == Fees(a.pool, a.tip, chosen)
    && t.sigOps == RESERVED_SIGOPS + SigOpsOf(a, chosen)
  }

  /** The totals with one more entry. */
  function Plus(t: Totals, e: Entry, sigOps: nat, fee: int): Totals {
    Totals(t.size + e.size, t.sigOps + sigOps, t.complexity + Complexity(e), t.fees + fee)
  }

  lemma {:induction false} AddsOneMore(a: Setting, chosen: seq<Hash>, t: Totals, h: Hash)
    requires AllIn(a.pool, chosen) && Replays(a.pool, a.tip, chosen) && Adds(a, chosen, t)
    requires h in a.pool.entries && HaveInputs(Replay(a.pool, a.tip, chosen), a.pool.entries[h])
    ensures AllIn(a.pool, chosen + [h]) && Replays(a.pool, a.tip, chosen + [h])
    ensures Replay(a.pool, a.tip, chosen + [h]) == Update(Replay(a.pool, a.tip, chosen), a.pool.entries[h])
    ensures var view, e := Replay(a.pool, a.tip, chosen), a.pool.entries[h];
            Adds(a, chosen + [h], Plus(t, e, EntrySigOps(a.checks, view, e), Fee(view, e)))
  {
    hide Replay, Replays, Fees, Fee, HaveInputs, Update;
    ReplayStep(a.pool, a.tip, chosen, h);
    assert (chosen + [h])[..|chosen|] == chosen;
  }

  /** An entry whose parents are chosen may come next. */
  lemma {:induction false} NextInOrder(pool: Pool, chosen: seq<Hash>, h: Hash)
    requires InOrder(pool, chosen) && h !in chosen && Parents(pool, h) <= Elements(chosen)
    ensures InOrder(pool, chosen + [h])
    ensures Elements(chosen + [h]) == Elements(chosen) + {h}
  {
    hide Parents;
    InsertInOrder(pool, chosen, [], h) by {
      assert chosen + [] == chosen;
    }
    assert chosen + [h] + [] == chosen + [h];
  }

  /** After the first n choices, when everything the entry waits for was chosen, it failed a check. */
  ghost predicate FailsAt(a: Setting, chosen: seq<Hash>, n: nat, e: Entry)
    requires AllIn(a.pool, chosen)
  {
    && n <= |chosen| && Parents(a.pool, e.hash) <= Elements(chosen[..n])
    && Fails(a.checks, Replay(a.pool, a.tip, chosen[..n]), RESERVED_SIGOPS + SigOpsOf(a, chosen[..n]), e)
  }

  ghost predicate FailedOnce(a: Setting, chosen: seq<Hash>, e: Entry)
    requires AllIn(a.pool, chosen)
  {
    exists n: nat :: FailsAt(a, chosen, n, e)
  }

  /** The entry finds no room any more, or failed a check when it was considered. */
  ghost predicate Refused(a: Setting, chosen: seq<Hash>, t: Totals, h: Hash)
    requires AllIn(a.pool, chosen)
  {
    h in a.pool.entries
    && (NoRoom(a.limits, t, a.pool.entries[h]) || FailedOnce(a, chosen, a.pool.entries[h]))
  }

  /** Every entry considered and not chosen was refused. */
  ghost predicate Excused(a: Setting, chosen: seq<Hash>, t: Totals, seen: set<Hash>)
    requires AllIn(a.pool, chosen)
  {
    forall h :: h in seen && h !in chosen ==> Refused(a, chosen, t, h)
  }

  lemma {:induction false} FailedStays(a: Setting, chosen: seq<Hash>, h: Hash, e: Entry)
    requires AllIn(a.pool, chosen) && AllIn(a.pool, chosen + [h]) && FailedOnce(a, chosen, e)
    ensures FailedOnce(a, chosen + [h], e)
  {
    hide Fails, Replay, Parents, SigOpsOf;
    var n: nat :| FailsAt(a, chosen, n, e);
    assert (chosen + [h])[..n] == chosen[..n];
    assert FailsAt(a, chosen + [h], n, e);
  }

  lemma {:induction false} ExcusedLater(a: Setting, chosen: seq<Hash>, t: Totals, u: Totals, seen: set<Hash>, h: Hash)
    requires AllIn(a.pool, chosen) && AllIn(a.pool, chosen + [h]) && Excused(a, chosen, t, seen) && Grown(t, u)
    ensures Excused(a, chosen + [h], u, seen + {h})
  {
    hide NoRoom, FailedOnce, Complexity;
    forall g | g in seen + {h} && g !in chosen + [h]
      ensures Refused(a, chosen + [h], u, g)
    {
      assert (chosen + [h])[|chosen|] == h;
      assert g in seen && g !in chosen;
      var e := a.pool.entries[g];
      if NoRoom(a.limits, t, e) {
        NoRoomLater(a.limits, t, u, e);
      } else {
        FailedStays(a, chosen, h, e);
      }
    }
  }

  // ----- the block -----

  /** The entries of the block, with their fees and signature operations; the coinbase is put in front at the end. */
  datatype Template = Template(vtx: seq<Hash>, vcert: seq<Hash>, vTxFees: seq<int>, vCertFees: seq<int>,
    vTxSigOps: seq<int>, vCertSigOps: seq<int>)

  /** The block so far: its entries are in order, find all their inputs, and are counted in the totals. */
  ghost predicate BlockOk(a: Setting, chosen: seq<Hash>, view: View, totals: Totals, t: Template) {
    && AllIn(a.pool, chosen) && InOrder(a.pool, chosen)
    && Replays(a.pool, a.tip, chosen) && view == Replay(a.pool, a.tip, chosen)
    && t.vtx == Transactions(a.pool, chosen) && t.vcert == Certificates(a.pool, chosen)
    && Adds(a, chosen, totals) && totals.sigOps == RESERVED_SIGOPS + Sum(t.vTxSigOps) + Sum(t.vCertSigOps)
    && totals.fees == Sum(t.vTxFees) + Sum(t.vCertFees)
    && WithinLimits(a.limits, totals, chosen != [])
  }

  function Entered(t: Template, e: Entry, fee: int, sigOps: nat): Template {
    if e.isCert
    then t.(vcert := t.vcert + [e.hash], vCertFees := t.vCertFees + [fee], vCertSigOps := t.vCertSigOps + [sigOps])
    else t.(vtx := t.vtx + [e.hash], vTxFees := t.vTxFees + [fee], vTxSigOps := t.vTxSigOps + [sigOps])
  }

  lemma {:induction false} EnteredSums(t: Template, e: Entry, fee: int, sigOps: nat)
    ensures var r := Entered(t, e, fee, sigOps);
            && Sum(r.vTxFees) + Sum(r.vCertFees) == Sum(t.vTxFees) + Sum(t.vCertFees) + fee
            && Sum(r.vTxSigOps) + Sum(r.vCertSigOps) == Sum(t.vTxSigOps) + Sum(t.vCertSigOps) + sigOps
  {
    hide Sum;
    SumStep(t.vTxFees, fee);
    SumStep(t.vCertFees, fee);
    SumStep(t.vTxSigOps, sigOps);
    SumStep(t.vCertSigOps, sigOps);
  }

  lemma {:induction false} OneMoreEntered(a: Setting, chosen: seq<Hash>, view: View, totals: Totals, t: Template,
      e: Entry, sigOps: nat)
    requires BlockOk(a, chosen, view, totals, t) && sigOps == EntrySigOps(a.checks, view, e)
    requires e.hash in a.pool.entries && a.pool.entries[e.hash] == e && e.hash !in chosen
    requires Parents(a.pool, e.hash) <= Elements(chosen)
    requires HaveInputs(view, e) && !OverLimits(a.limits, totals, e) && totals.sigOps + sigOps < MAX_BLOCK_SIGOPS
    ensures var fee := Fee(view, e);
            BlockOk(a, chosen + [e.hash], Update(view, e), Plus(totals, e, sigOps, fee), Entered(t, e, fee, sigOps))
            && Grown(totals, Plus(totals, e, sigOps, fee))
    ensures Elements(chosen + [e.hash]) == Elements(chosen) + {e.hash}
  {
    hide Replay, Replays, Fees, Fee, HaveInputs, Update, Complexity, Parents, InOrder, Transactions, Certificates,
      Sum, Adds, AllIn, EntrySigOps;
    AddsOneMore(a, chosen, totals, e.hash);
    NextInOrder(a.pool, chosen, e.hash);
    OrderParts(a.pool, chosen, e.hash);
    EnteredSums(t, e, Fee(view, e), sigOps);
  }

  // ----- the coinbase -----

  /** The reward, less what goes to the community funds, plus the fees; then the funds. */
  method Coinbase(reward: int, funds: seq<int>, fees: int) returns (outs: seq<int>)
    ensures |outs| > 0 && Sum(outs) == reward + fees
    ensures forall i :: 1 <= i < |outs| ==> outs[i] > 0
    ensures outs[0] == reward + fees - Sum(outs[1..])
  {
    outs := [reward];
    for i := 0 to |funds|
      invariant |outs| > 0 && outs[0] == reward - Sum(outs[1..])
      invariant forall j :: 1 <= j < |outs| ==> outs[j] > 0
    {
      if funds[i] > 0 {
        SumStep(outs[1..], funds[i]);
        ghost var others := outs[1..];
        outs := outs[0 := outs[0] - funds[i]] + [funds[i]];
        assert outs[1..] == others + [funds[i]];
      }
    }
    ghost var others := outs[1..];
    outs := outs[0 := outs[0] + fees];
    assert outs[1..] == others;
    SumHead(outs[0], outs[1..]);
    assert outs == [outs[0]] + outs[1..];
  }

  /** The state of CreateNewBlock. */
  class Assembler {
    const pool: Pool
    const tip: View
    const limits: Limits
    const checks: Checks
    var view: View
    var vecPriority: seq<Item>
    var vOrphan: seq<Orphan>
    var mapDependers: Dependers
    var totals: Totals
    var fSortedByFee: bool
    var template: Template
    /** The entries in the order they were chosen, those considered, and the turns. */
    ghost var chosen: seq<Hash>
    ghost var seen: set<Hash>
    ghost var log: seq<Turn>

    function Env(): Setting {
      Setting(pool, tip, limits, checks)
    }

    constructor (pool: Pool, tip: View, limits: Limits, checks: Checks)
      ensures this.pool == pool && this.tip == tip && this.limits == limits && this.checks == checks
      ensures view == tip && vecPriority == [] && vOrphan == [] && mapDependers == map[]
      ensures totals == Totals(RESERVED_SIZE, RESERVED_SIGOPS, 0, 0)
      ensures template == Template([], [], [], [], [], [])
      ensures chosen == [] && seen == {} && log == [] && fSortedByFee == (limits.prioritySize == 0)
    {
      this.pool, this.tip, this.limits, this.checks := pool, tip, limits, checks;
      view, vecPriority, vOrphan, mapDependers := tip, [], [], map[];
      totals := Totals(RESERVED_SIZE, RESERVED_SIGOPS, 0, 0);
      fSortedByFee := limits.prioritySize <= 0;
      template := Template([], [], [], [], [], []);
      chosen, seen, log := [], {}, [];
    }

    // ----- collecting -----

    /** Registers a dependency, making the orphan if it is the first. */
    method Depend(h: Hash, parent: Hash, porphan: Option<nat>, ghost base: seq<Orphan>, ghost found: set<Hash>)
      returns (r: Option<nat>)
      requires vOrphan == With(base, h, found) && Linked(vOrphan, mapDependers)
      requires porphan == if found == {} then None else Some(|base|)
      modifies this`vOrphan, this`mapDependers
      ensures vOrphan == With(base, h, found + {parent}) && Linked(vOrphan, mapDependers)
      ensures r == Some(|base|)
    {
      hide Linked;
      OneMoreParent(base, h, found, mapDependers, parent);
      if porphan.None? {
        vOrphan := vOrphan + [Orphan(h, {}, 0.0, 0)];
        r := Some(|vOrphan| - 1);
      } else {
        r := porphan;
      }
      mapDependers := AddDepender(mapDependers, parent, r.value);
      var o := vOrphan[r.value];
      vOrphan := vOrphan[r.value := o.(dependsOn := o.dependsOn + {parent})];
    }

    /** Dependencies through inputs. */
    method GetTxInputsDependencies(e: Entry) returns (ok: bool, porphan: Option<nat>, ghost upto: nat)
      requires Linked(vOrphan, mapDependers)
      modifies this`vOrphan, this`mapDependers
      ensures upto <= |e.inputs| && forall i :: 0 <= i < upto ==> !Unspendable(pool, e, e.inputs[i])
      ensures if ok then upto == |e.inputs| else upto < |e.inputs| && Unspendable(pool, e, e.inputs[upto])
      ensures !ok ==>
        && e.inputs[upto].hash in pool.entries && pool.entries[e.inputs[upto].hash].isCert
        && (e.isCert ==> e.inputs[upto].n >= pool.entries[e.inputs[upto].hash].firstBwt)
      ensures forall i :: 0 <= i < upto && e.inputs[i].hash in pool.entries && pool.entries[e.inputs[i].hash].isCert ==>
        e.isCert && e.inputs[i].n < pool.entries[e.inputs[i].hash].firstBwt
      ensures Linked(vOrphan, mapDependers)
      ensures vOrphan == With(old(vOrphan), e.hash, InputParents(pool, e.inputs[..upto]))
      ensures porphan == if InputParents(pool, e.inputs[..upto]) == {} then None else Some(|old(vOrphan)|)
    {
      hide Linked, With;
      upto := 0;
      ghost var base := vOrphan;
      porphan := None;
      NothingYet(base, e.hash);
      for i := 0 to |e.inputs|
        invariant vOrphan == With(base, e.hash, InputParents(pool, e.inputs[..i])) && Linked(vOrphan, mapDependers)
        invariant porphan == if InputParents(pool, e.inputs[..i]) == {} then None else Some(|base|)
        invariant upto == i && forall j :: 0 <= j < i ==> !Unspendable(pool, e, e.inputs[j])
      {
        assert e.inputs[..i + 1][..i] == e.inputs[..i];
        var o := e.inputs[i];
        ghost var all := InputParents(pool, e.inputs[..i]);
        assert InputParents(pool, e.inputs[..i + 1]) == all + InputParent(pool, o);
        assert all + {} == all;
        if o.hash in pool.entries {
          if Unspendable(pool, e, o) {
            return false, porphan, i;
          }
          porphan := Depend(e.hash, o.hash, porphan, base, all);
        }
        upto := i + 1;
      }
      ok := true;
    }

    /** Dependencies through forward transfers to sidechains that the pool creates. */
    method VerifyForwardTransfersDependencies(e: Entry, before: Option<nat>, ghost base: seq<Orphan>,
        ghost found: set<Hash>)
      returns (ok: bool, porphan: Option<nat>, ghost upto: nat)
      requires vOrphan == With(base, e.hash, found) && Linked(vOrphan, mapDependers)
      requires before == if found == {} then None else Some(|base|)
      modifies this`vOrphan, this`mapDependers
      ensures upto <= |e.forwards|
      ensures forall i :: 0 <= i < upto ==> e.forwards[i] in pool.sidechains || e.forwards[i] in pool.creators
      ensures if ok then upto == |e.forwards|
              else upto < |e.forwards| && e.forwards[upto] !in pool.sidechains && e.forwards[upto] !in pool.creators
      ensures Linked(vOrphan, mapDependers)
      ensures vOrphan == With(base, e.hash, found + ForwardParents(pool, e.hash, e.forwards[..upto]))
      ensures porphan == if found + ForwardParents(pool, e.hash, e.forwards[..upto]) == {} then None else Some(|base|)
    {
      hide Linked, With;
      upto := 0;
      porphan := before;
      assert found + {} == found;
      for i := 0 to |e.forwards|
        invariant vOrphan == With(base, e.hash, found + ForwardParents(pool, e.hash, e.forwards[..i]))
        invariant Linked(vOrphan, mapDependers)
        invariant porphan == if found + ForwardParents(pool, e.hash, e.forwards[..i]) == {} then None else Some(|base|)
        invariant upto == i
        invariant forall j :: 0 <= j < i ==> e.forwards[j] in pool.sidechains || e.forwards[j] in pool.creators
      {
        assert e.forwards[..i + 1][..i] == e.forwards[..i];
        var sc := e.forwards[i];
        ghost var all := found + ForwardParents(pool, e.hash, e.forwards[..i]);
        assert found + ForwardParents(pool, e.hash, e.forwards[..i + 1]) == all + ForwardParent(pool, e.hash, sc);
        assert all + {} == all;
        if sc !in pool.sidechains {
          if sc in pool.creators {
            if pool.creators[sc] != e.hash {
              porphan := Depend(e.hash, pool.creators[sc], porphan, base, all);
            }
          } else {
            return false, porphan, i;
          }
        }
        upto := i + 1;
      }
      ok := true;
    }

    /** Queues an entry that waits for nothing, or notes what the orphan is worth. */
    method AddTxToPriorities(e: Entry, porphan: Option<nat>, ghost base: seq<Orphan>, ghost found: set<Hash>,
        ghost looked: set<Hash>)
      requires e.hash !in looked && found == Parents(pool, e.hash) && Collected(pool, looked, vecPriority, base)
      requires vOrphan == With(base, e.hash, found) && Linked(vOrphan, mapDependers)
      requires porphan == if found == {} then None else Some(|base|)
      requires Priced(pool, vecPriority, base) && Worth(pool, e.hash, e.priority, e.feeRate)
      modifies this`vecPriority, this`vOrphan
      ensures Priced(pool, vecPriority, vOrphan)
      ensures Collected(pool, looked + {e.hash}, vecPriority, vOrphan) && Linked(vOrphan, mapDependers)
    {
      hide Collected, Linked, Parents, Worth;
      if porphan.None? {
        var item := Item(e.priority, e.feeRate, e.hash);
        OneMoreQueued(pool, looked, vecPriority, vOrphan, item);
        vecPriority := vecPriority + [item];
      } else {
        var o := vOrphan[porphan.value].(priority := e.priority, feeRate := e.feeRate);
        OneMoreOrphan(pool, looked, vecPriority, base, o);
        LinkedPriced(base, vOrphan[porphan.value], o, mapDependers);
        vOrphan := vOrphan[porphan.value := o];
        assert vOrphan == base + [o];
      }
    }

    /** One turn of the loops over the pool. */
    method Collect(h: Hash, ghost looked: set<Hash>)
      requires Consistent(pool) && h in Eligible(pool) && h !in looked
      requires Collected(pool, looked, vecPriority, vOrphan) && Linked(vOrphan, mapDependers)
      requires Priced(pool, vecPriority, vOrphan)
      modifies this`vecPriority, this`vOrphan, this`mapDependers
      ensures Collected(pool, looked + {h}, vecPriority, vOrphan) && Linked(vOrphan, mapDependers)
      ensures Priced(pool, vecPriority, vOrphan)
    {
      hide Collected, Linked, With, InputParents, ForwardParents, Priced;
      var e := pool.entries[h];
      assert EntryOk(pool, h);
      ghost var base := vOrphan;
      ghost var upto;
      var ok, porphan;
      ok, porphan, upto := GetTxInputsDependencies(e);
      assert ok && e.inputs[..upto] == e.inputs;
      ghost var found := InputParents(pool, e.inputs);
      if ok && !e.isCert {
        ok, porphan, upto := VerifyForwardTransfersDependencies(e, porphan, base, found);
        assert !ok ==> KnownSidechain(pool, e.forwards[upto]);
        assert ok && e.forwards[..upto] == e.forwards;
      }
      if e.isCert {
        NoForwards(pool, h);
      }
      if ok {
        AddTxToPriorities(e, porphan, base, Parents(pool, h), looked);
      }
    }

    /** GetBlockTxPriorityData and GetBlockCertPriorityData: transactions first, then certificates. */
    method CollectAll()
      requires Consistent(pool) && vecPriority == [] && vOrphan == [] && mapDependers == map[]
      modifies this`vecPriority, this`vOrphan, this`mapDependers
      ensures Selecting(pool, vecPriority, vOrphan, mapDependers, {}, {}) && Priced(pool, vecPriority, vOrphan)
    {
      hide Selecting, Parents, Collected, Linked, Consistent;
      NothingLookedAt(pool);
      var txs := set h | h in pool.entries && !pool.entries[h].isCert;
      var certs := set h | h in pool.entries && pool.entries[h].isCert;
      ghost var looked := CollectSome(Ordering.Ascending(txs), {});
      looked := CollectSome(Ordering.Ascending(certs), looked);
      assert looked == Eligible(pool);
      ReadyToSelect(pool, vecPriority, vOrphan, mapDependers);
    }

    /** The eligible entries of a list that no entry of which was looked at. */
    method CollectSome(hashes: seq<Hash>, ghost before: set<Hash>) returns (ghost looked: set<Hash>)
      requires Consistent(pool)
      requires forall h :: h in hashes ==> h in pool.entries && h !in before
      requires forall i, j :: 0 <= i < j < |hashes| ==> hashes[i] < hashes[j]
      requires Collected(pool, before, vecPriority, vOrphan) && Linked(vOrphan, mapDependers)
      requires Priced(pool, vecPriority, vOrphan)
      modifies this`vecPriority, this`vOrphan, this`mapDependers
      ensures looked == before + (set h | h in hashes && h in Eligible(pool))
      ensures Collected(pool, looked, vecPriority, vOrphan) && Linked(vOrphan, mapDependers)
      ensures Priced(pool, vecPriority, vOrphan)
    {
      hide Collected, Linked, Priced;
      looked := before;
      for i := 0 to |hashes|
        invariant looked == before + (set h | h in hashes[..i] && h in Eligible(pool))
        invariant Collected(pool, looked, vecPriority, vOrphan) && Linked(vOrphan, mapDependers)
        invariant Priced(pool, vecPriority, vOrphan)
      {
        var h := hashes[i];
        assert h in hashes;
        assert hashes[..i + 1] == hashes[..i] + [h];
        if pool.entries[h].eligible {
          Collect(h, looked);
          looked := looked + {h};
        }
      }
      assert hashes[..|hashes|] == hashes;
    }

    // ----- selecting -----

    ghost predicate Valid()
      reads this
    {
      && Consistent(pool) && BlockOk(Env(), chosen, view, totals, template)
      && Selecting(pool, vecPriority, vOrphan, mapDependers, seen, Elements(chosen))
        && Priced(pool, vecPriority, vOrphan)
      && Excused(Env(), chosen, totals, seen) && Logged()
    }

    ghost predicate Logged()
      reads this
    {
      LogOk(pool, chosen, log, seen, fSortedByFee, RESERVED_SIZE, limits.prioritySize, checks.allowFree)
    }

    /** The tests an entry has to pass, in their order; on the way the queue may change to the order by fee. */
    method Decide(e: Entry, item: Item) returns (take: bool, sigOps: nat)
      requires item.feeRate == e.feeRate && item.priority == e.priority
      modifies this`fSortedByFee
      ensures take <==>
        && !OverLimits(limits, totals, e) && !Fails(checks, view, totals.sigOps, e)
        && !(old(fSortedByFee) && e.priorityDelta <= 0.0 && e.feeDelta <= 0 && e.feeRate < limits.relayFee
             && totals.size + e.size >= limits.minSize)
      ensures take ==> sigOps == EntrySigOps(checks, view, e)
      ensures fSortedByFee <==>
        || old(fSortedByFee)
        || (&& totals.size + e.size < limits.maxSize && totals.sigOps + e.sigOps < MAX_BLOCK_SIGOPS
            && (totals.size + e.size >= limits.prioritySize || !checks.allowFree(e.priority)))
    {
      hide Complexity, HaveInputs;
      take, sigOps := false, e.sigOps;
      if totals.size + e.size >= limits.maxSize {
        return;
      }
      if totals.sigOps + sigOps >= MAX_BLOCK_SIGOPS {
        return;
      }
      if fSortedByFee && e.priorityDelta <= 0.0 && e.feeDelta <= 0 && item.feeRate < limits.relayFee
         && totals.size + e.size >= limits.minSize
      {
        return;
      }
      if !fSortedByFee && (totals.size + e.size >= limits.prioritySize || !checks.allowFree(item.priority)) {
        fSortedByFee := true;
      }
      if limits.maxComplexity > 0 && totals.complexity + Complexity(e) >= limits.maxComplexity {
        return;
      }
      if !HaveInputs(view, e) {
        return;
      }
      sigOps := sigOps + checks.p2shSigOps(view, e);
      if totals.sigOps + sigOps >= MAX_BLOCK_SIGOPS {
        return;
      }
      take := checks.inputs(view, e);
    }

    /** Puts the entry into the block. */
    method Enter(e: Entry, sigOps: nat)
      requires Consistent(pool) && BlockOk(Env(), chosen, view, totals, template)
      requires e.hash in pool.entries && pool.entries[e.hash] == e && e.hash !in chosen
      requires Parents(pool, e.hash) <= Elements(chosen)
      requires HaveInputs(view, e) && !OverLimits(limits, totals, e)
      requires sigOps == EntrySigOps(checks, view, e) && totals.sigOps + sigOps < MAX_BLOCK_SIGOPS
      modifies this`view, this`totals, this`template, this`chosen
      ensures BlockOk(Env(), chosen, view, totals, template) && chosen == old(chosen) + [e.hash]
      ensures Elements(chosen) == old(Elements(chosen)) + {e.hash} && Grown(old(totals), totals)
    {
      hide BlockOk, Consistent, HaveInputs, Parents, Fee, Update, OverLimits, Complexity;
      var fee := Fee(view, e);
      OneMoreEntered(Env(), chosen, view, totals, template, e, sigOps);
      view := Update(view, e);
      if e.isCert {
        template := template.(vcert := template.vcert + [e.hash], vCertFees := template.vCertFees + [fee],
          vCertSigOps := template.vCertSigOps + [sigOps]);
      } else {
        template := template.(vtx := template.vtx + [e.hash], vTxFees := template.vTxFees + [fee],
          vTxSigOps := template.vTxSigOps + [sigOps]);
      }
      totals := Plus(totals, e, sigOps, fee);
      chosen := chosen + [e.hash];
    }

    /** Tells the orphans of the entry just chosen. */
    method ReleaseDependers(hash: Hash, ghost before: set<Hash>)
      requires Selecting(pool, vecPriority, vOrphan, mapDependers, seen, before) && Priced(pool, vecPriority, vOrphan)
      requires hash in seen && hash !in before
      modifies this`vecPriority, this`vOrphan
      ensures Selecting(pool, vecPriority, vOrphan, mapDependers, seen, before + {hash})
      ensures Priced(pool, vecPriority, vOrphan)
    {
      hide Consideration, OrphansOk, Registered, Covered, Releasing, QueueOk, AllWait, Priced, Places, SameOrphans;
      StartRelease(pool, vecPriority, vOrphan, seen, before, hash);
      PlacesRegistered(pool, vOrphan, mapDependers, hash);
      ghost var queue, orphans := vecPriority, vOrphan;
      vOrphan, vecPriority := Release(pool, hash, PlacesOf(mapDependers, hash), vOrphan, vecPriority, seen, before);
      EndRelease(pool, queue, vecPriority, orphans, vOrphan, mapDependers, seen, before, hash);
    }

    /** pop_heap and pop_back. */
    method TakeOff(best: nat, ghost before: set<Hash>)
      requires best < |vecPriority| && Selecting(pool, vecPriority, vOrphan, mapDependers, seen, before)
      requires Priced(pool, vecPriority, vOrphan)
      modifies this`vecPriority, this`seen
      ensures Selecting(pool, vecPriority, vOrphan, mapDependers, seen, before) && Priced(pool, vecPriority, vOrphan)
      ensures var item := old(vecPriority)[best];
              seen == old(seen) + {item.hash} && item.hash !in old(seen) && item.hash !in before
              && Parents(pool, item.hash) <= before && Worth(pool, item.hash, item.priority, item.feeRate)
    {
      hide OrphansOk, Registered, Covered, QueueOk, AllWait, Worth, Parents, Eligible;
      TakenOff(pool, vecPriority, best, seen, before);
      seen := seen + {vecPriority[best].hash};
      vecPriority := Without(vecPriority, best);
    }

    /** One turn of the selection loop: the best entry of the queue is chosen or refused. */
    method Consider()
      requires Valid() && |vecPriority| > 0
      modifies this
      ensures Valid() && old(seen) < seen
    {
      hide BlockOk, Consistent, NoRoom, HaveInputs, OverLimits, IsFree, Excused, Parents, Eligible, Selecting, Elements,
        LogOk, BestNow, EndsPriority, Fails, EntrySigOps, Priced, Complexity, AllIn, SigOpsOf, Replay, Worth;
      var best := Best(vecPriority, fSortedByFee);
      var item := vecPriority[best];
      var h := item.hash;
      ghost var turn := Turn(h, fSortedByFee, |chosen|);
      BestIsNext(pool, vecPriority, vOrphan, mapDependers, seen, chosen, best, fSortedByFee);
      TakeOff(best, Elements(chosen));
      assert h in pool.entries by { WorthEntry(pool, item); }
      var e := pool.entries[h];
      assert e.hash == h && item.feeRate == e.feeRate && item.priority == e.priority by {
        FiledUnder(pool, h);
        WorthEntry(pool, item);
      }
      BlockFacts(Env(), chosen, view, totals, template);
      ghost var was, before := totals, chosen;
      EndsByTotals(Env(), chosen, view, totals, template, turn);
      var take, sigOps := Decide(e, item);
      if take {
        PassedNow(limits, checks, totals, view, e);
        Enter(e, sigOps);
        ReleaseDependers(h, Elements(before));
        BlockFacts(Env(), chosen, view, totals, template);
        ExcusedLater(Env(), before, was, totals, old(seen), h);
        TurnDone(pool, before, [h], log, old(seen), turn, fSortedByFee, RESERVED_SIZE, limits.prioritySize,
          checks.allowFree);
      } else {
        RefusedNow(limits, checks, totals, view, e, turn.byFee);
        NowExcused(Env(), chosen, totals, old(seen), h);
        assert before + [] == chosen;
        TurnDone(pool, before, [], log, old(seen), turn, fSortedByFee, RESERVED_SIZE, limits.prioritySize,
          checks.allowFree);
      }
      log := log + [turn];
    }

    /** Takes entries off the queue until it is empty. */
    method Select()
      requires Valid()
      modifies this
      ensures Valid() && AllIn(pool, chosen) && Complete(Env(), chosen, totals)
    {
      hide BlockOk, Consistent, Excused, Eligible, Complete, Priced, LogOk;
      while |vecPriority| > 0
        invariant Valid()
        decreases |Eligible(pool)| - |seen|
      {
        ghost var before := seen;
        Consider();
        Smaller(before, seen, Eligible(pool));
      }
      BlockFacts(Env(), chosen, view, totals, template);
      NothingQueued(Env(), vecPriority, chosen, totals, seen);
    }
  }

  /** Of the entries that are free, none ranks above the best of the queue. */
  lemma {:induction false} BestIsNext(pool: Pool, queue: seq<Item>, orphans: seq<Orphan>, dependers: Dependers,
      seen: set<Hash>, chosen: seq<Hash>, best: nat, byFee: bool)
    requires Selecting(pool, queue, orphans, dependers, seen, Elements(chosen)) && Priced(pool, queue, orphans)
    requires best < |queue| && forall i :: 0 <= i < |queue| ==> !Below(byFee, queue[best], queue[i])
    ensures BestNow(pool, chosen, seen, Turn(queue[best].hash, byFee, |chosen|))
  {
    hide Parents, Eligible, Elements, RanksAtLeast, Below, Priced, InQueue, OrphansOk, Registered, QueueOk, AllWait;
    var h := queue[best].hash;
    Queued(queue, best);
    BestIsBest(pool, queue, orphans, best, byFee, h);
    forall g | g in Eligible(pool) && Parents(pool, g) <= Elements(chosen) && g !in seen && g != h
      ensures g in pool.entries && RanksAtLeast(byFee, pool.entries[h], pool.entries[g])
    {
      BestIsBest(pool, queue, orphans, best, byFee, g);
    }
  }

  lemma {:induction false} Queued(queue: seq<Item>, i: nat)
    requires i < |queue|
    ensures InQueue(queue, queue[i].hash)
  {
  }

  /** Whether an entry ends the order by priority can be told from the totals. */
  lemma {:induction false} EndsByTotals(a: Setting, chosen: seq<Hash>, view: View, t: Totals, block: Template,
      turn: Turn)
    requires BlockOk(a, chosen, view, t, block) && turn.hash in a.pool.entries && turn.before == |chosen|
    ensures EndsPriority(a.pool, chosen, turn, RESERVED_SIZE, a.limits.prioritySize, a.checks.allowFree)
        <==> (t.size + a.pool.entries[turn.hash].size >= a.limits.prioritySize
              || !a.checks.allowFree(a.pool.entries[turn.hash].priority))
  {
    hide Sizes, Complexities, Fees, SigOpsOf, Replay, Replays, InOrder, Transactions, Certificates, Sum;
    assert chosen[..|chosen|] == chosen;
  }

  lemma {:induction false} WorthEntry(pool: Pool, item: Item)
    requires Worth(pool, item.hash, item.priority, item.feeRate)
    ensures item.hash in pool.entries
    ensures pool.entries[item.hash].priority == item.priority && pool.entries[item.hash].feeRate == item.feeRate
  {
  }

  lemma {:induction false} PassedNow(limits: Limits, checks: Checks, t: Totals, view: View, e: Entry)
    requires !OverLimits(limits, t, e) && !Fails(checks, view, t.sigOps, e)
    ensures HaveInputs(view, e) && t.sigOps + EntrySigOps(checks, view, e) < MAX_BLOCK_SIGOPS
    ensures t.size + e.size < limits.maxSize && t.sigOps + e.sigOps < MAX_BLOCK_SIGOPS
  {
    hide HaveInputs, Complexity;
  }

  lemma {:induction false} RefusedNow(limits: Limits, checks: Checks, t: Totals, view: View, e: Entry, byFee: bool)
    requires OverLimits(limits, t, e) || Fails(checks, view, t.sigOps, e)
          || (byFee && e.priorityDelta <= 0.0 && e.feeDelta <= 0 && e.feeRate < limits.relayFee
              && t.size + e.size >= limits.minSize)
    ensures NoRoom(limits, t, e) || Fails(checks, view, t.sigOps, e)
  {
    hide HaveInputs, Complexity;
  }

  lemma {:induction false} NothingYet(base: seq<Orphan>, h: Hash)
    ensures With(base, h, {}) == base
  {
  }

  lemma {:induction false} NothingLookedAt(pool: Pool)
    ensures Collected(pool, {}, [], []) && Linked([], map[])
  {
  }

  lemma {:induction false} NoForwards(pool: Pool, h: Hash)
    requires h in pool.entries && pool.entries[h].forwards == []
    ensures Parents(pool, h) == InputParents(pool, pool.entries[h].inputs)
  {
  }

  lemma {:induction false} OrderParts(pool: Pool, t: seq<Hash>, h: Hash)
    requires AllIn(pool, t) && h in pool.entries
    ensures AllIn(pool, t + [h])
    ensures Transactions(pool, t + [h]) == Transactions(pool, t) + if pool.entries[h].isCert then [] else [h]
    ensures Certificates(pool, t + [h]) == Certificates(pool, t) + if pool.entries[h].isCert then [h] else []
  {
    assert (t + [h])[..|t|] == t;
  }

  lemma {:induction false} NowExcused(a: Setting, chosen: seq<Hash>, t: Totals, seen: set<Hash>, h: Hash)
    requires AllIn(a.pool, chosen) && Excused(a, chosen, t, seen) && h in a.pool.entries
    requires a.pool.entries[h].hash == h && Parents(a.pool, h) <= Elements(chosen)
    requires t.sigOps == RESERVED_SIGOPS + SigOpsOf(a, chosen)
    requires NoRoom(a.limits, t, a.pool.entries[h])
          || Fails(a.checks, Replay(a.pool, a.tip, chosen), t.sigOps, a.pool.entries[h])
    ensures Excused(a, chosen, t, seen + {h})
  {
    hide NoRoom, Fails, Replay, Parents, SigOpsOf;
    var e := a.pool.entries[h];
    assert chosen[..|chosen|] == chosen;
    assert NoRoom(a.limits, t, e) || FailsAt(a, chosen, |chosen|, e);
    assert Refused(a, chosen, t, h);
  }

  lemma {:induction false} FiledUnder(pool: Pool, h: Hash)
    requires Consistent(pool) && h in pool.entries
    ensures pool.entries[h].hash == h
  {
    assert EntryOk(pool, h);
  }

  lemma {:induction false} BlockFacts(a: Setting, chosen: seq<Hash>, view: View, totals: Totals, t: Template)
    requires BlockOk(a, chosen, view, totals, t)
    ensures AllIn(a.pool, chosen) && view == Replay(a.pool, a.tip, chosen)
    ensures totals.sigOps == RESERVED_SIGOPS + SigOpsOf(a, chosen)
  {
  }

  lemma {:induction false} Smaller(a: set<Hash>, b: set<Hash>, all: set<Hash>)
    requires a < b <= all
    ensures |a| < |b| <= |all|
  {
    Subset(a, b);
    Subset(b, all);
    assert b == a + (b - a);
    assert |b| == |a| + |b - a|;
    assert b - a != {};
  }

  lemma {:induction false} Subset(a: set<Hash>, b: set<Hash>)
    requires a <= b
    ensures |a| <= |b|
  {
    assert b == a + (b - a);
  }

  /** Every eligible entry is in the block, was refused, or waits for an entry that is not in the block. */
  ghost predicate Complete(a: Setting, chosen: seq<Hash>, t: Totals)
    requires AllIn(a.pool, chosen)
  {
    forall h :: h in Eligible(a.pool) && h !in chosen && Parents(a.pool, h) <= Elements(chosen) ==>
      Refused(a, chosen, t, h)
  }

  lemma {:induction false} NothingQueued(a: Setting, queue: seq<Item>, chosen: seq<Hash>, t: Totals, seen: set<Hash>)
    requires |queue| == 0 && Covered(a.pool, queue, seen, Elements(chosen))
    requires AllIn(a.pool, chosen) && Excused(a, chosen, t, seen)
    ensures Complete(a, chosen, t)
  {
    hide Parents, Eligible, Refused;
  }

  /** Completeness without missing inputs: an entry left out, whose parents are all in, finds no room any more, or had
      too many signature operations or failed the checks of its inputs when it was considered. */
  ghost predicate StrictlyComplete(a: Setting, chosen: seq<Hash>, t: Totals)
    requires AllIn(a.pool, chosen)
  {
    forall h :: h in Eligible(a.pool) && h !in chosen && Parents(a.pool, h) <= Elements(chosen) ==>
      NoRoom(a.limits, t, a.pool.entries[h]) || exists n: nat :: ChecksFailAt(a, chosen, n, a.pool.entries[h])
  }

  ghost predicate ChecksFailAt(a: Setting, chosen: seq<Hash>, n: nat, e: Entry)
    requires AllIn(a.pool, chosen)
  {
    && n <= |chosen| && Parents(a.pool, e.hash) <= Elements(chosen[..n])
    && FailsChecks(a.checks, Replay(a.pool, a.tip, chosen[..n]), RESERVED_SIGOPS + SigOpsOf(a, chosen[..n]), e)
  }

  /** In a pool without conflicts no entry is refused for missing inputs. */
  lemma {:induction false} NoneMissesInputs(a: Setting, chosen: seq<Hash>, t: Totals)
    requires Consistent(a.pool) && ConflictFree(a.pool, a.tip) && AllIn(a.pool, chosen) && Complete(a, chosen, t)
    ensures StrictlyComplete(a, chosen, t)
  {
    hide NoRoom, FailsChecks, HaveInputs, Replay, Parents, SigOpsOf, ConflictFree;
    forall h | h in Eligible(a.pool) && h !in chosen && Parents(a.pool, h) <= Elements(chosen)
      ensures NoRoom(a.limits, t, a.pool.entries[h]) || exists n: nat :: ChecksFailAt(a, chosen, n, a.pool.entries[h])
    {
      var e := a.pool.entries[h];
      FiledUnder(a.pool, h);
      assert Refused(a, chosen, t, h);
      if !NoRoom(a.limits, t, e) {
        var n: nat :| FailsAt(a, chosen, n, e);
        InputsAtHand(a.pool, a.tip, chosen[..n], h);
        assert ChecksFailAt(a, chosen, n, e);
      }
    }
  }

  /** What is promised of a block, whose entries were chosen in the given order. */
  ghost predicate GoodBlock(a: Setting, chosen: seq<Hash>, b: seq<Hash>) {
    && AllIn(a.pool, chosen) && b == InBlockOrder(a.pool, chosen)
    && InOrder(a.pool, b) && Replays(a.pool, a.tip, b) && ForwardsBacked(a.pool, b)
    && (b != [] ==> RESERVED_SIZE + Sizes(a.pool, b) < a.limits.maxSize)
    && (a.limits.maxComplexity > 0 && b != [] ==> Complexities(a.pool, b) < a.limits.maxComplexity)
  }

  lemma {:induction false} BlockIsGood(a: Setting, chosen: seq<Hash>, view: View, totals: Totals, t: Template)
    requires Consistent(a.pool) && Unconfirmed(a.pool, a.tip) && BlockOk(a, chosen, view, totals, t)
    ensures GoodBlock(a, chosen, t.vtx + t.vcert)
    ensures totals.fees == Fees(a.pool, a.tip, t.vtx + t.vcert)
  {
    hide Replay, Replays, Fees, Transactions, Certificates, Parents, Consistent, Unconfirmed;
    BlockInOrder(a.pool, chosen);
    ForwardsAtHand(a.pool, InBlockOrder(a.pool, chosen));
    BlockReplays(a.pool, a.tip, chosen);
    BlockSizes(a.pool, chosen);
    if |chosen| == 0 {
      NothingToReorder(a.pool, chosen);
    }
  }

  lemma {:induction false} BlockConserves(a: Setting, chosen: seq<Hash>, b: seq<Hash>)
    requires Consistent(a.pool) && Unconfirmed(a.pool, a.tip) && GoodBlock(a, chosen, b)
    ensures Unspent(Replay(a.pool, a.tip, b)) + Fees(a.pool, a.tip, b) == Unspent(a.tip) + Outsides(a.pool, b)
  {
    hide Consistent, Unconfirmed, Replay, Replays, Fees, Unspent, Outsides, Parents;
    EntriesConserve(a.pool, a.tip, b);
  }

  /**
   * CreateNewBlock: a block with transactions before certificates, each once and after everything it waits for, in
   * which every entry finds its inputs, within the limits; no eligible entry is left out without reason, and in every
   * turn the best of those that were free was considered; the coinbase pays out the reward and exactly the fees of the
   * block's entries, so that with it no value is created but the reward.
   */
  method CreateNewBlock(pool: Pool, tip: View, options: Limits, checks: Checks, reward: int, funds: seq<int>)
    returns (block: Template, coinbase: seq<int>, ghost chosen: seq<Hash>, ghost totals: Totals, ghost log: seq<Turn>)
    requires Consistent(pool) && Unconfirmed(pool, tip)
    ensures GoodBlock(Setting(pool, tip, LimitsFrom(options), checks), chosen, block.vtx + block.vcert)
    ensures RESERVED_SIGOPS + Sum(block.vTxSigOps) + Sum(block.vCertSigOps) == totals.sigOps < MAX_BLOCK_SIGOPS
    ensures totals.size == RESERVED_SIZE + Sizes(pool, chosen) && totals.complexity == Complexities(pool, chosen)
    ensures totals.sigOps == RESERVED_SIGOPS + SigOpsOf(Setting(pool, tip, LimitsFrom(options), checks), chosen)
    ensures Complete(Setting(pool, tip, LimitsFrom(options), checks), chosen, totals)
    ensures ConflictFree(pool, tip) ==>
              StrictlyComplete(Setting(pool, tip, LimitsFrom(options), checks), chosen, totals)
    ensures Ranked(pool, chosen, log, RESERVED_SIZE, LimitsFrom(options).prioritySize, checks.allowFree)
    ensures Sum(coinbase) == reward + Fees(pool, tip, block.vtx + block.vcert)
    ensures Unspent(Replay(pool, tip, block.vtx + block.vcert)) + Sum(coinbase)
         == Unspent(tip) + reward + Outsides(pool, block.vtx + block.vcert)
    ensures |block.vTxFees| > 0 && block.vTxFees[0] == -Fees(pool, tip, block.vtx + block.vcert)
    ensures Sum(block.vTxFees) + Sum(block.vCertFees) == 0
  {
    hide Selecting, Complete, GoodBlock, InOrder, Consistent, Unconfirmed, Priced, Replays, Replay, Fees, LimitsFrom,
      StrictlyComplete, ConflictFree, SigOpsOf, Ranked, ModeOk, Unspent, Outsides;
    var assembler := new Assembler(pool, tip, LimitsFrom(options), checks);
    assembler.CollectAll();
    EmptyBlock(assembler.Env());
    NothingLogged(pool, RESERVED_SIZE, LimitsFrom(options).prioritySize, checks.allowFree);
    assembler.Select();
    block := assembler.template;
    chosen, totals, log := assembler.chosen, assembler.totals, assembler.log;
    BlockIsGood(assembler.Env(), chosen, assembler.view, totals, block);
    BlockConserves(assembler.Env(), chosen, block.vtx + block.vcert);
    if ConflictFree(pool, tip) {
      NoneMissesInputs(assembler.Env(), chosen, totals);
    }
    var fees := assembler.totals.fees;
    coinbase := Coinbase(reward, funds, fees);
    SumHead(-fees, block.vTxFees);
    block := block.(vTxFees := [-fees] + block.vTxFees);
  }

  lemma {:induction false} EmptyBlock(a: Setting)
    requires a.limits.maxSize >= RESERVED_SIZE
    ensures BlockOk(a, [], a.tip, Totals(RESERVED_SIZE, RESERVED_SIGOPS, 0, 0), Template([], [], [], [], [], []))
    ensures Excused(a, [], Totals(RESERVED_SIZE, RESERVED_SIGOPS, 0, 0), {})
    ensures Elements([]) == {}
  {
  }
}
