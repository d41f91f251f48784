/** The order in which block assembly considers the entries: always a best one of those that are free to be considered,
    by priority first and by fee later (miner.cpp). */
module Ranking {
  import opened Mempool
  import opened Waiting

  /** One turn of the selection: the entry considered, the order in force, and how many entries were chosen before. */
  datatype Turn = Turn(hash: Hash, byFee: bool, before: nat)

  ghost predicate RanksAtLeast(byFee: bool, a: Entry, b: Entry) {
    if byFee
    then a.feeRate > b.feeRate || (a.feeRate == b.feeRate && a.priority >= b.priority)
    else a.priority > b.priority || (a.priority == b.priority && a.feeRate >= b.feeRate)
  }

  ghost predicate Considered(log: seq<Turn>, h: Hash) {
    exists k :: 0 <= k < |log| && log[k].hash == h
  }

  /** No entry that was free in this turn, and is considered later or never, ranks above the one considered. */
  ghost predicate BestOf(pool: Pool, chosen: seq<Hash>, log: seq<Turn>, k: nat)
    requires k < |log|
  {
    && log[k].hash in pool.entries && log[k].before <= |chosen|
    && forall g :: g in Eligible(pool) && Parents(pool, g) <= Elements(chosen[..log[k].before])
                   && !Considered(log[..k + 1], g) ==>
         RanksAtLeast(log[k].byFee, pool.entries[log[k].hash], pool.entries[g])
  }

  /** The entry ends the order by priority: it would fill the space reserved for it, or is not worth a free ride. */
  ghost predicate EndsPriority(pool: Pool, chosen: seq<Hash>, turn: Turn, reserved: nat, prioritySize: nat,
      allowFree: real -> bool)
  {
    && turn.hash in pool.entries && turn.before <= |chosen| && AllIn(pool, chosen)
    && (reserved + Sizes(pool, chosen[..turn.before]) + pool.entries[turn.hash].size >= prioritySize
        || !allowFree(pool.entries[turn.hash].priority))
  }

  /** By fee from the start, or since an entry ended the order by priority; by priority only while none chosen did. */
  ghost predicate ModeOk(pool: Pool, chosen: seq<Hash>, log: seq<Turn>, k: nat, byFee: bool, reserved: nat,
      prioritySize: nat, allowFree: real -> bool)
    requires k <= |log|
  {
    if byFee
    then
      || prioritySize == 0
      || exists j :: 0 <= j < k && EndsPriority(pool, chosen, log[j], reserved, prioritySize, allowFree)
    else
      && prioritySize > 0
      && forall j :: 0 <= j < k && IsChoice(chosen, log[j]) ==>
           !EndsPriority(pool, chosen, log[j], reserved, prioritySize, allowFree)
  }

  /** The turn in which an entry was chosen. */
  ghost predicate IsChoice(chosen: seq<Hash>, turn: Turn) {
    turn.before < |chosen| && chosen[turn.before] == turn.hash
  }

  /** Every choice was made in a turn of its own. */
  ghost predicate AllLogged(chosen: seq<Hash>, log: seq<Turn>) {
    forall i :: 0 <= i < |chosen| ==> LoggedAt(log, chosen[i], i)
  }

  ghost predicate LoggedAt(log: seq<Turn>, h: Hash, i: nat) {
    exists k :: 0 <= k < |log| && log[k].hash == h && log[k].before == i
  }

  /** The record of a selection. */
  ghost predicate Ranked(pool: Pool, chosen: seq<Hash>, log: seq<Turn>, reserved: nat, prioritySize: nat,
      allowFree: real -> bool)
  {
    && (forall k :: 0 <= k < |log| ==> BestOf(pool, chosen, log, k))
    && (forall k :: 0 <= k < |log| ==>
          ModeOk(pool, chosen, log, k, log[k].byFee, reserved, prioritySize, allowFree))
    && AllLogged(chosen, log)
  }

  lemma {:induction false} BestIsBest(pool: Pool, queue: seq<Item>, orphans: seq<Orphan>, best: nat, byFee: bool,
      g: Hash)
    requires best < |queue| && Priced(pool, queue, orphans) && InQueue(queue, g)
    requires forall i :: 0 <= i < |queue| ==> !Below(byFee, queue[best], queue[i])
    ensures queue[best].hash in pool.entries && g in pool.entries
    ensures RanksAtLeast(byFee, pool.entries[queue[best].hash], pool.entries[g])
  {
    var i :| 0 <= i < |queue| && queue[i].hash == g;
    assert Worth(pool, queue[best].hash, queue[best].priority, queue[best].feeRate);
    assert Worth(pool, queue[i].hash, queue[i].priority, queue[i].feeRate);
  }

  lemma {:induction false} ConsideredSnoc(log: seq<Turn>, turn: Turn, h: Hash)
    ensures Considered(log + [turn], h) <==> Considered(log, h) || h == turn.hash
  {
    var all := log + [turn];
    if Considered(log, h) {
      var k :| 0 <= k < |log| && log[k].hash == h;
      assert all[k].hash == h;
    }
    assert all[|log|] == turn;
  }

  /** One more choice does not change what earlier turns saw. */
  lemma {:induction false} BestStays(pool: Pool, chosen: seq<Hash>, more: seq<Hash>, log: seq<Turn>, turn: Turn, k: nat)
    requires k < |log| && BestOf(pool, chosen, log, k)
    ensures BestOf(pool, chosen + more, log + [turn], k)
  {
    hide Eligible, Parents, RanksAtLeast, Elements;
    assert (chosen + more)[..log[k].before] == chosen[..log[k].before];
    assert (log + [turn])[..k + 1] == log[..k + 1] && (log + [turn])[k] == log[k];
  }

  lemma {:induction false} EndsStays(pool: Pool, chosen: seq<Hash>, more: seq<Hash>, turn: Turn, reserved: nat,
      prioritySize: nat, allowFree: real -> bool)
    requires AllIn(pool, chosen + more) && turn.before <= |chosen|
    ensures EndsPriority(pool, chosen + more, turn, reserved, prioritySize, allowFree)
         == EndsPriority(pool, chosen, turn, reserved, prioritySize, allowFree)
  {
    hide Sizes;
    assert forall i :: 0 <= i < |chosen| ==> (chosen + more)[i] == chosen[i];
    assert (chosen + more)[..turn.before] == chosen[..turn.before];
  }

  lemma {:induction false} ModeStays(pool: Pool, chosen: seq<Hash>, more: seq<Hash>, log: seq<Turn>, turn: Turn, k: nat,
      byFee: bool, reserved: nat, prioritySize: nat, allowFree: real -> bool)
    requires k <= |log| && ModeOk(pool, chosen, log, k, byFee, reserved, prioritySize, allowFree)
    requires AllIn(pool, chosen + more) && (more == [] || more == [turn.hash])
    requires forall j :: 0 <= j < |log| ==> log[j].before <= |chosen| && log[j].hash != turn.hash
    ensures ModeOk(pool, chosen + more, log + [turn], k, byFee, reserved, prioritySize, allowFree)
  {
    hide EndsPriority;
    var all := log + [turn];
    forall j | 0 <= j < |log|
      ensures EndsPriority(pool, chosen + more, all[j], reserved, prioritySize, allowFree)
           == EndsPriority(pool, chosen, log[j], reserved, prioritySize, allowFree)
      ensures IsChoice(chosen + more, all[j]) ==> IsChoice(chosen, log[j])
    {
      EndsStays(pool, chosen, more, log[j], reserved, prioritySize, allowFree);
    }
    if byFee && prioritySize != 0 {
      var j :| 0 <= j < k && EndsPriority(pool, chosen, log[j], reserved, prioritySize, allowFree);
      assert EndsPriority(pool, chosen + more, all[j], reserved, prioritySize, allowFree);
    }
  }

  /** What the selection loop keeps about its record. */
  ghost predicate LogOk(pool: Pool, chosen: seq<Hash>, log: seq<Turn>, seen: set<Hash>, byFee: bool, reserved: nat,
      prioritySize: nat, allowFree: real -> bool)
  {
    && Ranked(pool, chosen, log, reserved, prioritySize, allowFree)
    && ModeOk(pool, chosen, log, |log|, byFee, reserved, prioritySize, allowFree)
    && (forall g :: g in seen <==> Considered(log, g))
  }

  /** The entry of a turn is the best of those that are free. */
  ghost predicate BestNow(pool: Pool, chosen: seq<Hash>, seen: set<Hash>, turn: Turn) {
    && turn.hash in pool.entries && turn.before == |chosen|
    && forall g :: g in Eligible(pool) && Parents(pool, g) <= Elements(chosen) && g !in seen && g != turn.hash ==>
         RanksAtLeast(turn.byFee, pool.entries[turn.hash], pool.entries[g])
  }

  lemma {:induction false} BestLogged(pool: Pool, chosen: seq<Hash>, more: seq<Hash>, log: seq<Turn>, seen: set<Hash>,
      turn: Turn)
    requires BestNow(pool, chosen, seen, turn) && forall g :: g in seen <==> Considered(log, g)
    ensures BestOf(pool, chosen + more, log + [turn], |log|)
  {
    hide Eligible, Parents, RanksAtLeast, Elements;
    assert (chosen + more)[..|chosen|] == chosen;
    var all := log + [turn];
    assert all[..|log| + 1] == all;
    forall g ensures Considered(all, g) <==> g in seen || g == turn.hash {
      ConsideredSnoc(log, turn, g);
    }
  }

  lemma {:induction false} ChoicesLogged(chosen: seq<Hash>, more: seq<Hash>, log: seq<Turn>, turn: Turn)
    requires more == [] || more == [turn.hash]
    requires turn.before == |chosen|
    requires AllLogged(chosen, log)
    ensures AllLogged(chosen + more, log + [turn])
  {
    var all, cs := log + [turn], chosen + more;
    forall i | 0 <= i < |cs| ensures LoggedAt(all, cs[i], i) {
      if i < |chosen| {
        assert LoggedAt(log, chosen[i], i);
        var k :| 0 <= k < |log| && log[k].hash == chosen[i] && log[k].before == i;
        assert all[k] == log[k];
      } else {
        assert all[|log|] == turn;
      }
    }
  }

  /** One turn: an entry that is best is chosen or refused, and the order may change with it. */
  lemma {:induction false} TurnDone(pool: Pool, chosen: seq<Hash>, more: seq<Hash>, log: seq<Turn>, seen: set<Hash>,
      turn: Turn, byFee: bool, reserved: nat, prioritySize: nat, allowFree: real -> bool)
    requires LogOk(pool, chosen, log, seen, turn.byFee, reserved, prioritySize, allowFree)
    requires BestNow(pool, chosen, seen, turn) && turn.hash !in seen
    requires AllIn(pool, chosen + more) && (more == [] || more == [turn.hash])
    requires turn.byFee ==> byFee
    requires !turn.byFee && byFee ==> EndsPriority(pool, chosen, turn, reserved, prioritySize, allowFree)
    requires !byFee && more != [] ==> !EndsPriority(pool, chosen, turn, reserved, prioritySize, allowFree)
    ensures LogOk(pool, chosen + more, log + [turn], seen + {turn.hash}, byFee, reserved, prioritySize, allowFree)
  {
    hide EndsPriority, BestOf, BestNow, ModeOk, Considered;
    var all, n := log + [turn], |log|;
    NotAgain(pool, chosen, log, seen, turn);
    forall k | 0 <= k < |all|
      ensures BestOf(pool, chosen + more, all, k)
      ensures ModeOk(pool, chosen + more, all, k, all[k].byFee, reserved, prioritySize, allowFree)
    {
      if k < n {
        BestStays(pool, chosen, more, log, turn, k);
        ModeStays(pool, chosen, more, log, turn, k, log[k].byFee, reserved, prioritySize, allowFree);
      } else {
        BestLogged(pool, chosen, more, log, seen, turn);
        ModeStays(pool, chosen, more, log, turn, n, turn.byFee, reserved, prioritySize, allowFree);
      }
    }
    NowBefore(pool, chosen, seen, turn);
    ChoicesLogged(chosen, more, log, turn);
    ModeStays(pool, chosen, more, log, turn, n, turn.byFee, reserved, prioritySize, allowFree);
    EndsStays(pool, chosen, more, turn, reserved, prioritySize, allowFree);
    ModeMoves(pool, chosen + more, log, turn, byFee, more != [], reserved, prioritySize, allowFree);
    forall g ensures g in seen + {turn.hash} <==> Considered(all, g) {
      ConsideredSnoc(log, turn, g);
    }
  }

  lemma {:induction false} NowBefore(pool: Pool, chosen: seq<Hash>, seen: set<Hash>, turn: Turn)
    requires BestNow(pool, chosen, seen, turn)
    ensures turn.before == |chosen| && turn.hash in pool.entries
  {
  }

  lemma {:induction false} NotAgain(pool: Pool, chosen: seq<Hash>, log: seq<Turn>, seen: set<Hash>, turn: Turn)
    requires turn.hash !in seen && forall g :: g in seen <==> Considered(log, g)
    requires forall k :: 0 <= k < |log| ==> BestOf(pool, chosen, log, k)
    ensures forall j :: 0 <= j < |log| ==> log[j].before <= |chosen| && log[j].hash != turn.hash
  {
    forall j | 0 <= j < |log| ensures log[j].before <= |chosen| && log[j].hash != turn.hash {
      assert BestOf(pool, chosen, log, j);
      assert Considered(log, log[j].hash);
    }
  }

  /** The order after a turn. */
  lemma {:induction false} ModeMoves(pool: Pool, chosen: seq<Hash>, log: seq<Turn>, turn: Turn, byFee: bool, took: bool,
      reserved: nat, prioritySize: nat, allowFree: real -> bool)
    requires ModeOk(pool, chosen, log + [turn], |log|, turn.byFee, reserved, prioritySize, allowFree)
    requires turn.byFee ==> byFee
    requires !turn.byFee && byFee ==> EndsPriority(pool, chosen, turn, reserved, prioritySize, allowFree)
    requires !byFee && took ==> !EndsPriority(pool, chosen, turn, reserved, prioritySize, allowFree)
    requires IsChoice(chosen, turn) ==> took
    ensures ModeOk(pool, chosen, log + [turn], |log| + 1, byFee, reserved, prioritySize, allowFree)
  {
    hide EndsPriority;
    var all := log + [turn];
    assert all[|log|] == turn;
  }

  lemma {:induction false} NothingLogged(pool: Pool, reserved: nat, prioritySize: nat, allowFree: real -> bool)
    ensures LogOk(pool, [], [], {}, prioritySize == 0, reserved, prioritySize, allowFree)
  {
  }
}
