/** Sorting the pool into entries that can be queued and entries that have to wait (miner.cpp). */
module Collecting {
  import opened Mempool
  import opened Waiting

  /** The orphans, with one for h once something it waits for was found. */
  function With(base: seq<Orphan>, h: Hash, found: set<Hash>): seq<Orphan> {
    if found == {} then base else base + [Orphan(h, found, 0.0, 0)]
  }

  /** An orphan is registered with exactly what it depends on. */
  ghost predicate Linked(orphans: seq<Orphan>, dependers: Dependers) {
    && (forall p, k :: p in dependers && 0 <= k < |dependers[p]| ==>
          dependers[p][k] < |orphans| && p in orphans[dependers[p][k]].dependsOn)
    && (forall i, p :: 0 <= i < |orphans| && p in orphans[i].dependsOn ==> p in dependers && i in dependers[p])
  }

  function AddDepender(dependers: Dependers, parent: Hash, place: nat): Dependers {
    dependers[parent := PlacesOf(dependers, parent) + [place]]
  }

  lemma {:induction false} OneMoreParent(base: seq<Orphan>, h: Hash, found: set<Hash>, dependers: Dependers,
      parent: Hash)
    requires Linked(With(base, h, found), dependers)
    ensures Linked(With(base, h, found + {parent}), AddDepender(dependers, parent, |base|))
  {
    var n := |base|;
    var a, b, d := With(base, h, found), With(base, h, found + {parent}), AddDepender(dependers, parent, n);
    assert forall i :: 0 <= i < n ==> a[i] == base[i] && b[i] == base[i];
    forall p, k | p in d && 0 <= k < |d[p]|
      ensures d[p][k] < |b| && p in b[d[p][k]].dependsOn
    {
      if p != parent || k < |d[p]| - 1 {
        assert d[p][k] == dependers[p][k];
      }
    }
    forall i, p | 0 <= i < |b| && p in b[i].dependsOn
      ensures p in d && i in d[p]
    {
      if i < n {
        assert p in a[i].dependsOn;
      } else if p == parent {
        assert d[p][|d[p]| - 1] == n;
      } else {
        assert p in a[i].dependsOn;
      }
    }
  }

  /** The entries looked at so far are queued if they wait for nothing, and orphans otherwise. */
  ghost predicate Collected(pool: Pool, looked: set<Hash>, queue: seq<Item>, orphans: seq<Orphan>) {
    && (forall i :: 0 <= i < |queue| ==> queue[i].hash in looked && Parents(pool, queue[i].hash) == {})
    && (forall i, j :: 0 <= i < j < |queue| ==> queue[i].hash != queue[j].hash)
    && (forall i :: 0 <= i < |orphans| ==>
          orphans[i].hash in looked && orphans[i].dependsOn == Parents(pool, orphans[i].hash))
    && (forall i, j :: 0 <= i < j < |orphans| ==> orphans[i].hash != orphans[j].hash)
    && (forall h :: h in looked ==> if Parents(pool, h) == {} then InQueue(queue, h) else HasOrphan(orphans, h))
  }

  lemma {:induction false} OneMoreQueued(pool: Pool, looked: set<Hash>, queue: seq<Item>, orphans: seq<Orphan>,
      item: Item)
    requires Collected(pool, looked, queue, orphans) && item.hash !in looked && Parents(pool, item.hash) == {}
    ensures Collected(pool, looked + {item.hash}, queue + [item], orphans)
  {
    hide Parents;
    var r := queue + [item];
    forall h | h in looked + {item.hash}
      ensures if Parents(pool, h) == {} then InQueue(r, h) else HasOrphan(orphans, h)
    {
      if h == item.hash {
        assert r[|queue|].hash == h;
      } else if Parents(pool, h) == {} {
        var i :| 0 <= i < |queue| && queue[i].hash == h;
        assert r[i].hash == h;
      }
    }
  }

  lemma {:induction false} OneMoreOrphan(pool: Pool, looked: set<Hash>, queue: seq<Item>, orphans: seq<Orphan>,
      o: Orphan)
    requires Collected(pool, looked, queue, orphans) && o.hash !in looked
    requires o.dependsOn == Parents(pool, o.hash) != {}
    ensures Collected(pool, looked + {o.hash}, queue, orphans + [o])
  {
    hide Parents;
    var r := orphans + [o];
    forall h | h in looked + {o.hash}
      ensures if Parents(pool, h) == {} then InQueue(queue, h) else HasOrphan(r, h)
    {
      if h == o.hash {
        assert r[|orphans|].hash == h;
      } else if Parents(pool, h) != {} {
        var i :| 0 <= i < |orphans| && orphans[i].hash == h;
        assert r[i].hash == h;
      }
    }
  }

  /** Registration does not depend on what an orphan is worth. */
  lemma {:induction false} LinkedPriced(base: seq<Orphan>, o: Orphan, priced: Orphan, dependers: Dependers)
    requires Linked(base + [o], dependers) && priced.dependsOn == o.dependsOn
    ensures Linked(base + [priced], dependers)
  {
    var a, b := base + [o], base + [priced];
    assert forall i :: 0 <= i < |a| ==> a[i].dependsOn == b[i].dependsOn;
  }

  /** When every eligible entry was looked at, selection may start. */
  lemma {:induction false} ReadyToSelect(pool: Pool, queue: seq<Item>, orphans: seq<Orphan>, dependers: Dependers)
    requires Collected(pool, Eligible(pool), queue, orphans) && Linked(orphans, dependers)
    ensures Selecting(pool, queue, orphans, dependers, {}, {})
  {
    hide Parents, Eligible;
    forall i | 0 <= i < |orphans|
      ensures Waits(pool, orphans[i], {})
    {
      assert Parents(pool, orphans[i].hash) - {} == Parents(pool, orphans[i].hash);
    }
    forall h | h in Eligible(pool) && Parents(pool, h) <= {}
      ensures InQueue(queue, h)
    {
      assert Parents(pool, h) == {};
    }
  }
}
