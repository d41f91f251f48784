/** The priority queue and the entries that wait for others to be chosen first (miner.cpp). */
module Waiting {
  import opened Mempool

  datatype Item = Item(priority: real, feeRate: int, hash: Hash)

  /** COrphan: an entry and what it still waits for. Pointers to orphans are places in the list of orphans. */
  datatype Orphan = Orphan(hash: Hash, dependsOn: set<Hash>, priority: real, feeRate: int)

  type Dependers = map<Hash, seq<nat>>

  predicate InQueue(queue: seq<Item>, h: Hash) {
    exists i :: 0 <= i < |queue| && queue[i].hash == h
  }

  predicate HasOrphan(orphans: seq<Orphan>, h: Hash) {
    exists i :: 0 <= i < |orphans| && orphans[i].hash == h
  }

  // ----- the invariant of the selection loop -----

  /** Queued entries wait for nothing and were not considered yet; none is queued twice. */
  ghost predicate QueueOk(pool: Pool, queue: seq<Item>, seen: set<Hash>, chosen: set<Hash>) {
    && (forall i :: 0 <= i < |queue| ==>
          queue[i].hash in Eligible(pool) && queue[i].hash !in seen && Parents(pool, queue[i].hash) <= chosen)
    && (forall i, j :: 0 <= i < j < |queue| ==> queue[i].hash != queue[j].hash)
  }

  /** There is one orphan for every entry that has parents. */
  ghost predicate OrphansOk(pool: Pool, orphans: seq<Orphan>) {
    && (forall i :: 0 <= i < |orphans| ==> orphans[i].hash in Eligible(pool))
    && (forall i, j :: 0 <= i < j < |orphans| ==> orphans[i].hash != orphans[j].hash)
    && (forall h :: h in Eligible(pool) && Parents(pool, h) != {} ==> HasOrphan(orphans, h))
  }

  /** An orphan waits for those of its parents that are not chosen. */
  ghost predicate Waits(pool: Pool, o: Orphan, chosen: set<Hash>) {
    o.dependsOn == Parents(pool, o.hash) - chosen
  }

  /** An orphan is registered with exactly its parents. */
  ghost predicate Registered(pool: Pool, orphans: seq<Orphan>, dependers: Dependers) {
    && (forall p, k :: p in dependers && 0 <= k < |dependers[p]| ==>
          dependers[p][k] < |orphans| && p in Parents(pool, orphans[dependers[p][k]].hash))
    && (forall i, p :: 0 <= i < |orphans| && p in Parents(pool, orphans[i].hash) ==>
      p in dependers && i in dependers[p])
  }

  /** Every entry that waits for nothing is queued or was considered. */
  ghost predicate Covered(pool: Pool, queue: seq<Item>, seen: set<Hash>, chosen: set<Hash>) {
    forall h :: h in Eligible(pool) && Parents(pool, h) <= chosen ==> h in seen || InQueue(queue, h)
  }

  ghost predicate Consideration(pool: Pool, seen: set<Hash>, chosen: set<Hash>) {
    && chosen <= seen <= Eligible(pool)
    && (forall h :: h in seen ==> Parents(pool, h) <= chosen)
  }

  /** Items and orphans carry the priority and the fee rate of their entries. */
  ghost predicate Priced(pool: Pool, queue: seq<Item>, orphans: seq<Orphan>) {
    && (forall i :: 0 <= i < |queue| ==> Worth(pool, queue[i].hash, queue[i].priority, queue[i].feeRate))
    && (forall i :: 0 <= i < |orphans| ==> Worth(pool, orphans[i].hash, orphans[i].priority, orphans[i].feeRate))
  }

  ghost predicate Worth(pool: Pool, h: Hash, priority: real, feeRate: int) {
    h in pool.entries && pool.entries[h].priority == priority && pool.entries[h].feeRate == feeRate
  }

  // ----- the order of the queue -----

  /** TxPriorityCompare: whether a ranks below b. */
  predicate Below(byFee: bool, a: Item, b: Item) {
    if byFee
    then if a.feeRate == b.feeRate then a.priority < b.priority else a.feeRate < b.feeRate
    else if a.priority == b.priority then a.feeRate < b.feeRate else a.priority < b.priority
  }

  /** What pop_heap brings to the end of a heap: an item that no other ranks above. */
  method Best(queue: seq<Item>, byFee: bool) returns (best: nat)
    requires |queue| > 0
    ensures best < |queue|
    ensures forall i :: 0 <= i < |queue| ==> !Below(byFee, queue[best], queue[i])
    ensures byFee ==> forall i :: 0 <= i < |queue| ==>
              && queue[i].feeRate <= queue[best].feeRate
              && (queue[i].feeRate == queue[best].feeRate ==> queue[i].priority <= queue[best].priority)
    ensures !byFee ==> forall i :: 0 <= i < |queue| ==>
              && queue[i].priority <= queue[best].priority
              && (queue[i].priority == queue[best].priority ==> queue[i].feeRate <= queue[best].feeRate)
  {
    best := 0;
    for i := 1 to |queue|
      invariant best < i && forall j :: 0 <= j < i ==> !Below(byFee, queue[best], queue[j])
    {
      if Below(byFee, queue[best], queue[i]) {
        best := i;
      }
    }
  }

  function Without(queue: seq<Item>, i: nat): (r: seq<Item>)
    requires i < |queue|
    ensures |r| == |queue| - 1
  {
    queue[..i] + queue[i + 1..]
  }

  /** Taking an item off the queue to consider it. */
  lemma {:induction false} TakenOff(pool: Pool, queue: seq<Item>, i: nat, seen: set<Hash>, chosen: set<Hash>)
    requires i < |queue| && QueueOk(pool, queue, seen, chosen) && Covered(pool, queue, seen, chosen)
    requires Consideration(pool, seen, chosen)
    ensures queue[i].hash in Eligible(pool) && queue[i].hash !in seen && Parents(pool, queue[i].hash) <= chosen
    ensures QueueOk(pool, Without(queue, i), seen + {queue[i].hash}, chosen)
    ensures Covered(pool, Without(queue, i), seen + {queue[i].hash}, chosen)
    ensures Consideration(pool, seen + {queue[i].hash}, chosen)
  {
    hide Parents, Eligible;
    var h, rest := queue[i].hash, Without(queue, i);
    assert forall j :: 0 <= j < |rest| ==> rest[j] == if j < i then queue[j] else queue[j + 1];
    forall g | g in Eligible(pool) && Parents(pool, g) <= chosen
      ensures g in seen + {h} || InQueue(rest, g)
    {
      if g !in seen && g != h {
        assert InQueue(queue, g);
        var j :| 0 <= j < |queue| && queue[j].hash == g;
        assert rest[if j < i then j else j - 1].hash == g;
      }
    }
  }

  // ----- an entry was chosen: the ones that waited for it -----

  predicate SameOrphans(a: seq<Orphan>, b: seq<Orphan>) {
    |a| == |b| && forall i :: 0 <= i < |a| ==> a[i].hash == b[i].hash
  }

  /** h is the entry of one of the given orphans. */
  ghost predicate Among(orphans: seq<Orphan>, places: seq<nat>, h: Hash) {
    exists j :: 0 <= j < |places| && places[j] < |orphans| && orphans[places[j]].hash == h
  }

  /** The places are those of orphans that wait for the chosen entry. */
  ghost predicate Places(pool: Pool, orphans: seq<Orphan>, places: seq<nat>, hash: Hash) {
    forall j :: 0 <= j < |places| ==> places[j] < |orphans| && hash in Parents(pool, orphans[places[j]].hash)
  }

  /** What each orphan waits for, when the orphans at the given places know of the new choice. */
  ghost predicate PartlyTold(pool: Pool, orphans: seq<Orphan>, told: seq<nat>, chosen: set<Hash>, hash: Hash) {
    forall i :: 0 <= i < |orphans| ==> Waits(pool, orphans[i], if i in told then chosen + {hash} else chosen)
  }

  /** The queue holds, beside old items, only items of orphans that were told. */
  ghost predicate Origin(pool: Pool, orphans: seq<Orphan>, told: seq<nat>, queue: seq<Item>, chosen: set<Hash>) {
    forall q :: 0 <= q < |queue| ==> Parents(pool, queue[q].hash) <= chosen || Among(orphans, told, queue[q].hash)
  }

  /** Orphans that were told and wait for nothing are queued. */
  ghost predicate Moved(orphans: seq<Orphan>, told: seq<nat>, queue: seq<Item>) {
    forall j :: 0 <= j < |told| && told[j] < |orphans| && orphans[told[j]].dependsOn == {} ==>
      InQueue(queue, orphans[told[j]].hash)
  }

  ghost predicate Releasing(pool: Pool, orphans: seq<Orphan>, told: seq<nat>, queue: seq<Item>,
      seen: set<Hash>, chosen: set<Hash>, hash: Hash) {
    && PartlyTold(pool, orphans, told, chosen, hash)
    && QueueOk(pool, queue, seen, chosen + {hash})
    && Origin(pool, orphans, told, queue, chosen)
    && Moved(orphans, told, queue)
  }

  lemma {:induction false} ToldAgain(pool: Pool, orphans: seq<Orphan>, told: seq<nat>, queue: seq<Item>,
      seen: set<Hash>, chosen: set<Hash>, hash: Hash, i: nat)
    requires Releasing(pool, orphans, told, queue, seen, chosen, hash)
    requires i < |orphans| && i in told
    ensures Releasing(pool, orphans, told + [i], queue, seen, chosen, hash)
    ensures hash !in orphans[i].dependsOn
  {
    hide Parents, Eligible, InQueue, QueueOk;
    var more := told + [i];
    assert forall x :: x in more <==> x in told;
    assert Waits(pool, orphans[i], chosen + {hash});
    forall q | 0 <= q < |queue|
      ensures Parents(pool, queue[q].hash) <= chosen || Among(orphans, more, queue[q].hash)
    {
      AmongMore(orphans, told, i, queue[q].hash);
    }
    forall j | 0 <= j < |more| && more[j] < |orphans| && orphans[more[j]].dependsOn == {}
      ensures InQueue(queue, orphans[more[j]].hash)
    {
      var k :| 0 <= k < |told| && told[k] == more[j];
    }
  }

  lemma {:induction false} AmongMore(orphans: seq<Orphan>, told: seq<nat>, i: nat, h: Hash)
    ensures Among(orphans, told, h) ==> Among(orphans, told + [i], h)
    ensures i < |orphans| && orphans[i].hash == h ==> Among(orphans, told + [i], h)
  {
    var more := told + [i];
    if Among(orphans, told, h) {
      var j :| 0 <= j < |told| && told[j] < |orphans| && orphans[told[j]].hash == h;
      assert more[j] == told[j];
    }
    assert more[|told|] == i;
  }

  function Told(o: Orphan, hash: Hash): Orphan {
    o.(dependsOn := o.dependsOn - {hash})
  }

  function Queued(queue: seq<Item>, o: Orphan): seq<Item> {
    if o.dependsOn == {} then queue + [Item(o.priority, o.feeRate, o.hash)] else queue
  }

  lemma {:induction false} ToldOrphans(pool: Pool, orphans: seq<Orphan>, told: seq<nat>, chosen: set<Hash>,
      hash: Hash, i: nat)
    requires PartlyTold(pool, orphans, told, chosen, hash) && i < |orphans| && i !in told
    ensures PartlyTold(pool, orphans[i := Told(orphans[i], hash)], told + [i], chosen, hash)
  {
    hide Parents;
    var r, more := orphans[i := Told(orphans[i], hash)], told + [i];
    forall x | 0 <= x < |r|
      ensures Waits(pool, r[x], if x in more then chosen + {hash} else chosen)
    {
      assert Waits(pool, orphans[x], if x in told then chosen + {hash} else chosen);
      assert x in more <==> x in told || x == i;
    }
  }

  /** An orphan that waited for the chosen entry is not queued. */
  lemma {:induction false} NotQueued(pool: Pool, orphans: seq<Orphan>, told: seq<nat>, queue: seq<Item>,
      chosen: set<Hash>, hash: Hash, i: nat)
    requires Origin(pool, orphans, told, queue, chosen) && OrphansOk(pool, orphans)
    requires i < |orphans| && i !in told && hash in Parents(pool, orphans[i].hash) && hash !in chosen
    ensures forall q :: 0 <= q < |queue| ==> queue[q].hash != orphans[i].hash
  {
    hide Parents, Eligible;
    forall q | 0 <= q < |queue|
      ensures queue[q].hash != orphans[i].hash
    {
      if Among(orphans, told, queue[q].hash) {
        var j :| 0 <= j < |told| && told[j] < |orphans| && orphans[told[j]].hash == queue[q].hash;
        assert told[j] != i;
      }
    }
  }

  lemma {:induction false} InQueueMore(queue: seq<Item>, o: Orphan, h: Hash)
    ensures InQueue(queue, h) ==> InQueue(Queued(queue, o), h)
    ensures o.dependsOn == {} ==> InQueue(Queued(queue, o), o.hash)
  {
    var r := Queued(queue, o);
    if InQueue(queue, h) {
      var i :| 0 <= i < |queue| && queue[i].hash == h;
      assert r[i] == queue[i];
    }
    assert o.dependsOn == {} ==> r[|queue|].hash == o.hash;
  }

  lemma {:induction false} ToldQueue(pool: Pool, queue: seq<Item>, seen: set<Hash>, now: set<Hash>, o: Orphan)
    requires QueueOk(pool, queue, seen, now)
    requires o.hash in Eligible(pool) && o.hash !in seen && Waits(pool, o, now)
    requires forall q :: 0 <= q < |queue| ==> queue[q].hash != o.hash
    ensures QueueOk(pool, Queued(queue, o), seen, now)
  {
    hide Parents, Eligible;
    if o.dependsOn == {} {
      forall p | p in Parents(pool, o.hash)
        ensures p in now
      {
        assert p in o.dependsOn || p in now;
      }
    }
  }

  lemma {:induction false} ToldOrigin(pool: Pool, orphans: seq<Orphan>, told: seq<nat>, queue: seq<Item>,
      chosen: set<Hash>, i: nat, o: Orphan)
    requires Origin(pool, orphans, told, queue, chosen) && i < |orphans| && o.hash == orphans[i].hash
    ensures Origin(pool, orphans[i := o], told + [i], Queued(queue, o), chosen)
  {
    hide Parents;
    var r := orphans[i := o];
    var items := Queued(queue, o);
    forall q | 0 <= q < |items|
      ensures Parents(pool, items[q].hash) <= chosen || Among(r, told + [i], items[q].hash)
    {
      AmongMore(orphans, told, i, items[q].hash);
      AmongSame(orphans, r, told + [i], items[q].hash);
    }
  }

  lemma {:induction false} AmongSame(a: seq<Orphan>, b: seq<Orphan>, places: seq<nat>, h: Hash)
    requires SameOrphans(a, b)
    ensures Among(a, places, h) ==> Among(b, places, h)
  {
  }

  lemma {:induction false} ToldMoved(orphans: seq<Orphan>, told: seq<nat>, queue: seq<Item>, i: nat, o: Orphan)
    requires Moved(orphans, told, queue) && i < |orphans| && i !in told && o.hash == orphans[i].hash
    ensures Moved(orphans[i := o], told + [i], Queued(queue, o))
  {
    hide InQueue, Queued;
    var r, more := orphans[i := o], told + [i];
    forall j | 0 <= j < |more| && more[j] < |r| && r[more[j]].dependsOn == {}
      ensures InQueue(Queued(queue, o), r[more[j]].hash)
    {
      if j < |told| {
        assert told[j] == more[j] != i;
        assert InQueue(queue, orphans[told[j]].hash);
      }
      InQueueMore(queue, o, r[more[j]].hash);
    }
  }

  lemma {:induction false} ToldFirst(pool: Pool, orphans: seq<Orphan>, told: seq<nat>, queue: seq<Item>,
      seen: set<Hash>, chosen: set<Hash>, hash: Hash, i: nat)
    requires Releasing(pool, orphans, told, queue, seen, chosen, hash) && OrphansOk(pool, orphans)
    requires Consideration(pool, seen, chosen) && hash !in chosen
    requires i < |orphans| && i !in told && hash in Parents(pool, orphans[i].hash)
    ensures hash in orphans[i].dependsOn
    ensures var o := Told(orphans[i], hash);
            Releasing(pool, orphans[i := o], told + [i], Queued(queue, o), seen, chosen, hash)
  {
    var o := Told(orphans[i], hash);
    assert Waits(pool, orphans[i], chosen);
    hide Parents, Eligible, PartlyTold, Origin, Moved, QueueOk, Queued;
    ToldOrphans(pool, orphans, told, chosen, hash, i);
    NotQueued(pool, orphans, told, queue, chosen, hash, i);
    ToldQueue(pool, queue, seen, chosen + {hash}, o);
    ToldOrigin(pool, orphans, told, queue, chosen, i, o);
    ToldMoved(orphans, told, queue, i, o);
  }

  lemma {:induction false} SameOk(pool: Pool, a: seq<Orphan>, b: seq<Orphan>)
    requires SameOrphans(a, b) && OrphansOk(pool, a)
    ensures OrphansOk(pool, b)
  {
    hide Parents, Eligible;
    forall h | HasOrphan(a, h)
      ensures HasOrphan(b, h)
    {
      var i :| 0 <= i < |a| && a[i].hash == h;
      assert b[i].hash == h;
    }
  }

  /** The loop over the orphans registered with the chosen entry; an orphan may be registered more than once. */
  method Release(pool: Pool, hash: Hash, places: seq<nat>, vOrphan: seq<Orphan>, vecPriority: seq<Item>,
      ghost seen: set<Hash>, ghost chosen: set<Hash>) returns (orphans: seq<Orphan>, queue: seq<Item>)
    requires Consideration(pool, seen, chosen) && hash !in chosen && OrphansOk(pool, vOrphan)
    requires Places(pool, vOrphan, places, hash)
    requires Releasing(pool, vOrphan, [], vecPriority, seen, chosen, hash)
    requires Priced(pool, vecPriority, vOrphan)
    ensures Priced(pool, queue, orphans)
    ensures SameOrphans(vOrphan, orphans) && vecPriority <= queue
    ensures Releasing(pool, orphans, places, queue, seen, chosen, hash)
  {
    hide Parents, Eligible, Releasing, Consideration, OrphansOk, Worth;
    orphans, queue := vOrphan, vecPriority;
    for k := 0 to |places|
      invariant SameOrphans(vOrphan, orphans) && vecPriority <= queue && Priced(pool, queue, orphans)
      invariant Releasing(pool, orphans, places[..k], queue, seen, chosen, hash)
    {
      var i := places[k];
      assert places[..k + 1] == places[..k] + [i];
      SameOk(pool, vOrphan, orphans);
      if i in places[..k] {
        ToldAgain(pool, orphans, places[..k], queue, seen, chosen, hash, i);
      } else {
        ToldFirst(pool, orphans, places[..k], queue, seen, chosen, hash, i);
      }
      if orphans[i].dependsOn != {} {
        var o := orphans[i].(dependsOn := orphans[i].dependsOn - {hash});
        assert i in places[..k] ==> o == orphans[i] && orphans[i := o] == orphans;
        orphans := orphans[i := o];
        if o.dependsOn == {} {
          queue := queue + [Item(o.priority, o.feeRate, o.hash)];
        }
      }
    }
    assert places[..|places|] == places;
  }

  // ----- one round of the selection loop -----

  ghost predicate AllWait(pool: Pool, orphans: seq<Orphan>, chosen: set<Hash>) {
    forall i :: 0 <= i < |orphans| ==> Waits(pool, orphans[i], chosen)
  }

  /** The invariant of the selection loop. */
  ghost predicate Selecting(pool: Pool, queue: seq<Item>, orphans: seq<Orphan>, dependers: Dependers,
      seen: set<Hash>, chosen: set<Hash>) {
    && QueueOk(pool, queue, seen, chosen) && Covered(pool, queue, seen, chosen) && Consideration(pool, seen, chosen)
    && OrphansOk(pool, orphans) && AllWait(pool, orphans, chosen) && Registered(pool, orphans, dependers)
  }

  lemma {:induction false} StartRelease(pool: Pool, queue: seq<Item>, orphans: seq<Orphan>, seen: set<Hash>,
      chosen: set<Hash>, hash: Hash)
    requires QueueOk(pool, queue, seen, chosen) && AllWait(pool, orphans, chosen)
    ensures Releasing(pool, orphans, [], queue, seen, chosen, hash)
  {
    hide Parents, Eligible;
  }

  function PlacesOf(dependers: Dependers, hash: Hash): seq<nat> {
    if hash in dependers then dependers[hash] else []
  }

  lemma {:induction false} PlacesRegistered(pool: Pool, orphans: seq<Orphan>, dependers: Dependers, hash: Hash)
    requires Registered(pool, orphans, dependers)
    ensures Places(pool, orphans, PlacesOf(dependers, hash), hash)
    ensures forall i :: 0 <= i < |orphans| && hash in Parents(pool, orphans[i].hash) ==> i in PlacesOf(dependers, hash)
  {
    hide Parents;
  }

  lemma {:induction false} NowAllWait(pool: Pool, orphans: seq<Orphan>, places: seq<nat>, chosen: set<Hash>, hash: Hash)
    requires PartlyTold(pool, orphans, places, chosen, hash)
    requires forall i :: 0 <= i < |orphans| && hash in Parents(pool, orphans[i].hash) ==> i in places
    ensures AllWait(pool, orphans, chosen + {hash})
  {
    hide Parents;
    forall i | 0 <= i < |orphans|
      ensures Waits(pool, orphans[i], chosen + {hash})
    {
      assert Waits(pool, orphans[i], if i in places then chosen + {hash} else chosen);
    }
  }

  lemma {:induction false} NowCovered(pool: Pool, before: seq<Item>, queue: seq<Item>, orphans: seq<Orphan>,
      places: seq<nat>,
      seen: set<Hash>, chosen: set<Hash>, hash: Hash)
    requires Covered(pool, before, seen, chosen) && before <= queue && OrphansOk(pool, orphans)
    requires AllWait(pool, orphans, chosen + {hash}) && Moved(orphans, places, queue)
    requires forall i :: 0 <= i < |orphans| && hash in Parents(pool, orphans[i].hash) ==> i in places
    ensures Covered(pool, queue, seen, chosen + {hash})
  {
    hide Parents, Eligible;
    forall h | h in Eligible(pool) && Parents(pool, h) <= chosen + {hash}
      ensures h in seen || InQueue(queue, h)
    {
      if hash in Parents(pool, h) {
        assert HasOrphan(orphans, h);
        var i :| 0 <= i < |orphans| && orphans[i].hash == h;
        assert Waits(pool, orphans[i], chosen + {hash});
        var j :| 0 <= j < |places| && places[j] == i;
      } else {
        assert Parents(pool, h) <= chosen;
        if InQueue(before, h) {
          var q :| 0 <= q < |before| && before[q].hash == h;
          assert queue[q] == before[q];
        }
      }
    }
  }

  /** After the orphans of a chosen entry were told, the invariant holds for the longer selection. */
  lemma {:induction false} EndRelease(pool: Pool, before: seq<Item>, queue: seq<Item>, was: seq<Orphan>,
      orphans: seq<Orphan>,
      dependers: Dependers, seen: set<Hash>, chosen: set<Hash>, hash: Hash)
    requires Selecting(pool, before, was, dependers, seen, chosen) && hash in seen
    requires SameOrphans(was, orphans) && before <= queue
    requires Releasing(pool, orphans, PlacesOf(dependers, hash), queue, seen, chosen, hash)
    ensures Selecting(pool, queue, orphans, dependers, seen, chosen + {hash})
  {
    hide Parents, Eligible, QueueOk, Covered, OrphansOk, AllWait, Moved, PartlyTold, PlacesOf, Origin;
    SameOk(pool, was, orphans);
    StillRegistered(pool, was, orphans, dependers);
    PlacesRegistered(pool, orphans, dependers, hash);
    NowAllWait(pool, orphans, PlacesOf(dependers, hash), chosen, hash);
    NowCovered(pool, before, queue, orphans, PlacesOf(dependers, hash), seen, chosen, hash);
  }

  lemma {:induction false} StillRegistered(pool: Pool, was: seq<Orphan>, orphans: seq<Orphan>, dependers: Dependers)
    requires SameOrphans(was, orphans) && Registered(pool, was, dependers)
    ensures Registered(pool, orphans, dependers)
  {
    hide Parents;
  }
}
