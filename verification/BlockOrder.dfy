/** A block lists its transactions before its certificates; entries are chosen in a mixed order (miner.cpp, block.h). */
module BlockOrder {
  import opened Mempool

  function Transactions(pool: Pool, s: seq<Hash>): (r: seq<Hash>)
    requires AllIn(pool, s)
    ensures AllIn(pool, r)
  {
    if |s| == 0 then []
    else Transactions(pool, s[..|s| - 1]) + (if pool.entries[s[|s| - 1]].isCert then [] else [s[|s| - 1]])
  }

  function Certificates(pool: Pool, s: seq<Hash>): (r: seq<Hash>)
    requires AllIn(pool, s)
    ensures AllIn(pool, r)
  {
    if |s| == 0 then []
    else Certificates(pool, s[..|s| - 1]) + (if pool.entries[s[|s| - 1]].isCert then [s[|s| - 1]] else [])
  }

  function InBlockOrder(pool: Pool, s: seq<Hash>): (r: seq<Hash>)
    requires AllIn(pool, s)
    ensures AllIn(pool, r)
  {
    Transactions(pool, s) + Certificates(pool, s)
  }

  /** No output of a pool entry is in the chain yet. */
  ghost predicate Unconfirmed(pool: Pool, view: View) {
    forall o :: o in view ==> o.hash !in pool.entries
  }

  lemma {:induction false} ReplayKnown(pool: Pool, view: View, s: seq<Hash>, o: OutPoint)
    requires Consistent(pool) && AllIn(pool, s) && o in Replay(pool, view, s)
    ensures o in view || o.hash in s
    decreases |s|
  {
    if |s| > 0 {
      var last := s[|s| - 1];
      assert EntryOk(pool, last);
      if !Makes(pool.entries[last], o) {
        ReplayKnown(pool, view, s[..|s| - 1], o);
      }
    }
  }

  lemma {:induction false} SameValueIn(v: View, w: View, inputs: seq<OutPoint>)
    requires forall i :: 0 <= i < |inputs| ==> inputs[i] in v && inputs[i] in w && v[inputs[i]] == w[inputs[i]]
    ensures ValueIn(v, inputs) == ValueIn(w, inputs)
    decreases |inputs|
  {
    if |inputs| > 0 {
      SameValueIn(v, w, inputs[..|inputs| - 1]);
    }
  }

  /** An entry that does not use what the one before it made may as well come first. */
  lemma {:induction false} Swap(v: View, c: Entry, e: Entry)
    requires HaveInputs(v, c) && HaveInputs(Update(v, c), e)
    requires c.hash != e.hash
    requires forall o :: o in Spends(e) ==> o.hash != c.hash
    requires forall o :: o in v ==> o.hash != e.hash
    ensures HaveInputs(v, e) && HaveInputs(Update(v, e), c)
    ensures Update(Update(v, c), e) == Update(Update(v, e), c)
    ensures Fee(v, e) == Fee(Update(v, c), e) && Fee(v, c) == Fee(Update(v, e), c)
  {
    hide Update;
    forall i | 0 <= i < |e.inputs|
      ensures e.inputs[i] in v && e.inputs[i] !in Spends(c) && Update(v, c)[e.inputs[i]] == v[e.inputs[i]]
    {
      assert e.inputs[i] in Spends(e);
    }
    forall i | 0 <= i < |c.inputs|
      ensures c.inputs[i] in Update(v, e) && Update(v, e)[c.inputs[i]] == v[c.inputs[i]]
    {
      assert c.inputs[i] in Spends(c);
    }
    SameValueIn(v, Update(v, c), e.inputs);
    SameValueIn(v, Update(v, e), c.inputs);
    SameViews(Update(Update(v, c), e), Update(Update(v, e), c));
  }

  lemma {:induction false} SameViews(a: View, b: View)
    requires forall o :: o in a <==> o in b
    requires forall o :: o in a ==> a[o] == b[o]
    ensures a == b
  {
  }

  lemma {:induction false} ReplayStep(pool: Pool, view: View, s: seq<Hash>, h: Hash)
    requires AllIn(pool, s) && h in pool.entries
    ensures AllIn(pool, s + [h])
    ensures Replay(pool, view, s + [h]) == Update(Replay(pool, view, s), pool.entries[h])
    ensures Replays(pool, view, s + [h]) <==>
      Replays(pool, view, s) && HaveInputs(Replay(pool, view, s), pool.entries[h])
    ensures Replays(pool, view, s + [h]) ==>
              Fees(pool, view, s + [h]) == Fees(pool, view, s) + Fee(Replay(pool, view, s), pool.entries[h])
  {
    assert (s + [h])[..|s|] == s;
  }

  /** A transaction chosen after some certificates may as well be put before them. */
  lemma {:induction false} MoveBefore(pool: Pool, view: View, a: seq<Hash>, certs: seq<Hash>, h: Hash)
    requires Consistent(pool) && Unconfirmed(pool, view)
    requires h in pool.entries && !pool.entries[h].isCert
    requires AllIn(pool, a) && AllIn(pool, certs) && AllIn(pool, a + certs) && h !in a + certs
    requires forall i :: 0 <= i < |certs| ==> pool.entries[certs[i]].isCert
    requires Replays(pool, view, a + certs) && HaveInputs(Replay(pool, view, a + certs), pool.entries[h])
    ensures AllIn(pool, a + [h] + certs) && Replays(pool, view, a + [h] + certs)
    ensures Replay(pool, view, a + [h] + certs) == Update(Replay(pool, view, a + certs), pool.entries[h])
    ensures Fees(pool, view, a + [h] + certs)
         == Fees(pool, view, a + certs) + Fee(Replay(pool, view, a + certs), pool.entries[h])
    decreases |certs|
  {
    hide Replay, Replays, Fees, Fee, Update, HaveInputs;
    if |certs| == 0 {
      assert a + certs == a && a + [h] + certs == a + [h];
      ReplayStep(pool, view, a, h);
    } else {
      var n := |certs| - 1;
      var cs, last := certs[..n], certs[n];
      assert a + certs == (a + cs) + [last];
      assert a + [h] + certs == (a + [h] + cs) + [last];
      assert forall x :: x in a + cs ==> x in a + certs;
      assert (a + certs)[|a| + n] == last;
      ReplayStep(pool, view, a + cs, last);
      var v := Replay(pool, view, a + cs);
      SwapInPool(pool, view, a + cs, last, h);
      MoveBefore(pool, view, a, cs, h);
      ReplayStep(pool, view, a + [h] + cs, last);
    }
  }

  /** Swap, for a transaction after a certificate. */
  lemma {:induction false} SwapInPool(pool: Pool, view: View, s: seq<Hash>, cert: Hash, h: Hash)
    requires Consistent(pool) && Unconfirmed(pool, view) && AllIn(pool, s)
    requires h in pool.entries && !pool.entries[h].isCert && cert in pool.entries && pool.entries[cert].isCert
    requires h !in s
    requires var v := Replay(pool, view, s);
             HaveInputs(v, pool.entries[cert]) && HaveInputs(Update(v, pool.entries[cert]), pool.entries[h])
    ensures var v, c, e := Replay(pool, view, s), pool.entries[cert], pool.entries[h];
            HaveInputs(v, e) && HaveInputs(Update(v, e), c) && Update(Update(v, c), e) == Update(Update(v, e), c)
            && Fee(v, e) == Fee(Update(v, c), e) && Fee(v, c) == Fee(Update(v, e), c)
  {
    hide Replay, Update, Fee, HaveInputs;
    var v, c, e := Replay(pool, view, s), pool.entries[cert], pool.entries[h];
    assert EntryOk(pool, h) && EntryOk(pool, cert);
    forall o | o in v
      ensures o.hash != e.hash
    {
      ReplayKnown(pool, view, s, o);
    }
    Swap(v, c, e);
  }

  /** The block, transactions first, replays as the entries did when they were chosen: same coins, same fees. */
  lemma {:induction false} BlockReplays(pool: Pool, view: View, s: seq<Hash>)
    requires Consistent(pool) && Unconfirmed(pool, view) && AllIn(pool, s) && Replays(pool, view, s)
    requires forall i, j :: 0 <= i < j < |s| ==> s[i] != s[j]
    ensures Replays(pool, view, InBlockOrder(pool, s))
    ensures Replay(pool, view, InBlockOrder(pool, s)) == Replay(pool, view, s)
    ensures Fees(pool, view, InBlockOrder(pool, s)) == Fees(pool, view, s)
    decreases |s|
  {
    hide Replay, Replays, Fees, Fee, Update, HaveInputs, Consistent, Unconfirmed, InBlockOrder, Transactions,
      Certificates, AllIn;
    if |s| == 0 {
      NothingToReorder(pool, s);
    } else {
      var n := |s| - 1;
      var t, h := s[..n], s[n];
      assert s == t + [h];
      FrontIn(pool, s);
      ReplayStep(pool, view, t, h);
      BlockReplays(pool, view, t);
      OneMore(pool, view, t, h);
    }
  }

  lemma {:induction false} NothingToReorder(pool: Pool, s: seq<Hash>)
    requires AllIn(pool, s) && |s| == 0
    ensures InBlockOrder(pool, s) == s
  {
  }

  lemma {:induction false} FrontIn(pool: Pool, s: seq<Hash>)
    requires AllIn(pool, s) && |s| > 0
    ensures AllIn(pool, s[..|s| - 1]) && s[|s| - 1] in pool.entries
  {
  }

  lemma {:induction false} OneMore(pool: Pool, view: View, t: seq<Hash>, h: Hash)
    requires Consistent(pool) && Unconfirmed(pool, view) && AllIn(pool, t) && h in pool.entries && h !in t
    requires Replays(pool, view, t) && HaveInputs(Replay(pool, view, t), pool.entries[h])
    requires Replays(pool, view, InBlockOrder(pool, t))
    requires Replay(pool, view, InBlockOrder(pool, t)) == Replay(pool, view, t)
    requires Fees(pool, view, InBlockOrder(pool, t)) == Fees(pool, view, t)
    ensures AllIn(pool, t + [h]) && Replays(pool, view, InBlockOrder(pool, t + [h]))
    ensures Replay(pool, view, InBlockOrder(pool, t + [h])) == Update(Replay(pool, view, t), pool.entries[h])
    ensures Fees(pool, view, InBlockOrder(pool, t + [h]))
         == Fees(pool, view, t) + Fee(Replay(pool, view, t), pool.entries[h])
  {
    hide Replay, Replays, Fees, Fee, Update, HaveInputs, Consistent, Unconfirmed, InBlockOrder, Transactions,
      Certificates;
    OrderStep(pool, t, h);
    Partition(pool, t);
    var txs, certs := Transactions(pool, t), Certificates(pool, t);
    if pool.entries[h].isCert {
      ReplayStep(pool, view, txs + certs, h);
    } else {
      MoveBefore(pool, view, txs, certs, h);
    }
  }

  lemma {:induction false} OrderStep(pool: Pool, t: seq<Hash>, h: Hash)
    requires AllIn(pool, t) && h in pool.entries
    ensures AllIn(pool, t + [h]) && InBlockOrder(pool, t) == Transactions(pool, t) + Certificates(pool, t)
    ensures InBlockOrder(pool, t + [h]) ==
              if pool.entries[h].isCert then Transactions(pool, t) + Certificates(pool, t) + [h]
              else Transactions(pool, t) + [h] + Certificates(pool, t)
  {
    var s := t + [h];
    assert s[..|t|] == t;
    if pool.entries[h].isCert {
      assert Transactions(pool, s) == Transactions(pool, t);
    } else {
      assert Certificates(pool, s) == Certificates(pool, t);
    }
  }

  /** The two parts hold exactly the entries of their kind. */
  lemma {:induction false} Partition(pool: Pool, s: seq<Hash>)
    requires AllIn(pool, s)
    ensures forall h :: h in Transactions(pool, s) <==> h in s && !pool.entries[h].isCert
    ensures forall h :: h in Certificates(pool, s) <==> h in s && pool.entries[h].isCert
    decreases |s|
  {
    if |s| > 0 {
      Partition(pool, s[..|s| - 1]);
      assert s == s[..|s| - 1] + [s[|s| - 1]];
    }
  }

  // ----- parents in block order -----

  lemma {:induction false} InputParentsKind(pool: Pool, inputs: seq<OutPoint>, p: Hash)
    requires forall i :: 0 <= i < |inputs| && inputs[i].hash in pool.entries ==> !pool.entries[inputs[i].hash].isCert
    requires p in InputParents(pool, inputs)
    ensures p in pool.entries && !pool.entries[p].isCert
    decreases |inputs|
  {
    var last := inputs[|inputs| - 1];
    if p !in InputParent(pool, last) {
      InputParentsKind(pool, inputs[..|inputs| - 1], p);
    }
  }

  lemma {:induction false} ForwardParentsKind(pool: Pool, h: Hash, forwards: seq<ScId>, p: Hash)
    requires forall i :: 0 <= i < |forwards| ==> KnownSidechain(pool, forwards[i])
    requires p in ForwardParents(pool, h, forwards)
    ensures p in pool.entries && !pool.entries[p].isCert
    decreases |forwards|
  {
    var last := forwards[|forwards| - 1];
    if p in ForwardParent(pool, h, last) {
      assert KnownSidechain(pool, last);
    } else {
      ForwardParentsKind(pool, h, forwards[..|forwards| - 1], p);
    }
  }

  /** A transaction waits for transactions only. */
  lemma {:induction false} ParentsOfTransaction(pool: Pool, h: Hash, p: Hash)
    requires Consistent(pool) && h in pool.entries && !pool.entries[h].isCert && p in Parents(pool, h)
    ensures p in pool.entries && !pool.entries[p].isCert
  {
    hide InputParents, ForwardParents;
    assert EntryOk(pool, h);
    var e := pool.entries[h];
    if p in InputParents(pool, e.inputs) {
      InputParentsKind(pool, e.inputs, p);
    } else {
      ForwardParentsKind(pool, h, e.forwards, p);
    }
  }

  lemma {:induction false} InsertInOrder(pool: Pool, a: seq<Hash>, b: seq<Hash>, h: Hash)
    requires InOrder(pool, a + b) && h !in a + b && Parents(pool, h) <= Elements(a)
    ensures InOrder(pool, a + [h] + b)
  {
    hide Parents;
    var s, r := a + b, a + [h] + b;
    forall i | 0 <= i < |r|
      ensures Parents(pool, r[i]) <= Elements(r[..i])
    {
      if i < |a| {
        assert r[i] == s[i] && r[..i] == s[..i];
      } else if i == |a| {
        assert r[..i] == a;
      } else {
        assert r[i] == s[i - 1] && r[..i] == a + [h] + b[..i - 1 - |a|] && s[..i - 1] == a + b[..i - 1 - |a|];
      }
    }
    forall i, j | 0 <= i < j < |r|
      ensures r[i] != r[j]
    {
      assert r[i] == if i < |a| then s[i] else if i == |a| then h else s[i - 1];
      assert r[j] == if j < |a| then s[j] else if j == |a| then h else s[j - 1];
    }
  }

  lemma {:induction false} InOrderFront(pool: Pool, t: seq<Hash>, h: Hash)
    requires InOrder(pool, t + [h])
    ensures InOrder(pool, t) && h !in t && Parents(pool, h) <= Elements(t)
  {
    hide Parents;
    var s := t + [h];
    assert s[|t|] == h && s[..|t|] == t;
    forall i | 0 <= i < |t|
      ensures Parents(pool, t[i]) <= Elements(t[..i])
    {
      assert s[i] == t[i] && s[..i] == t[..i];
    }
    forall i, j | 0 <= i < j < |t|
      ensures t[i] != t[j]
    {
      assert s[i] == t[i] && s[j] == t[j];
    }
  }

  /** In the block, too, every entry comes once and after everything it waits for. */
  lemma {:induction false} BlockInOrder(pool: Pool, s: seq<Hash>)
    requires Consistent(pool) && AllIn(pool, s) && InOrder(pool, s)
    ensures InOrder(pool, InBlockOrder(pool, s))
    decreases |s|
  {
    hide Consistent, InOrder, InBlockOrder, Transactions, Certificates, Parents;
    if |s| == 0 {
      NothingToReorder(pool, s);
    } else {
      var t, h := s[..|s| - 1], s[|s| - 1];
      assert s == t + [h];
      InOrderFront(pool, t, h);
      BlockInOrder(pool, t);
      OrderStep(pool, t, h);
      Partition(pool, t);
      var txs, certs := Transactions(pool, t), Certificates(pool, t);
      if pool.entries[h].isCert {
        assert txs + certs + [h] == (txs + certs) + [h] + [];
        assert (txs + certs) + [] == txs + certs;
        InsertInOrder(pool, txs + certs, [], h);
      } else {
        forall p | p in Parents(pool, h)
          ensures p in txs
        {
          ParentsOfTransaction(pool, h, p);
        }
        InsertInOrder(pool, txs, certs, h);
      }
    }
  }

  // ----- sums in block order -----

  lemma {:induction false} SizesAppend(pool: Pool, a: seq<Hash>, b: seq<Hash>)
    requires AllIn(pool, a) && AllIn(pool, b)
    ensures AllIn(pool, a + b) && Sizes(pool, a + b) == Sizes(pool, a) + Sizes(pool, b)
    ensures Complexities(pool, a + b) == Complexities(pool, a) + Complexities(pool, b)
    decreases |b|
  {
    hide Complexity;
    if |b| == 0 {
      assert a + b == a;
    } else {
      var n := |b| - 1;
      SizesAppend(pool, a, b[..n]);
      assert (a + b)[..|a| + n] == a + b[..n];
    }
  }

  /** The order does not matter for sizes and complexities. */
  lemma {:induction false} BlockSizes(pool: Pool, s: seq<Hash>)
    requires AllIn(pool, s)
    ensures Sizes(pool, InBlockOrder(pool, s)) == Sizes(pool, s)
    ensures Complexities(pool, InBlockOrder(pool, s)) == Complexities(pool, s)
    decreases |s|
  {
    hide Complexity, InBlockOrder, Transactions, Certificates, Sizes, Complexities;
    if |s| == 0 {
      NothingToReorder(pool, s);
    } else {
      var t, h := s[..|s| - 1], s[|s| - 1];
      assert s == t + [h];
      BlockSizes(pool, t);
      OrderStep(pool, t, h);
      var txs, certs := Transactions(pool, t), Certificates(pool, t);
      SizesAppend(pool, t, [h]);
      SizesAppend(pool, txs, certs);
      SizesAppend(pool, txs + certs, [h]);
      SizesAppend(pool, txs, [h]);
      SizesAppend(pool, txs + [h], certs);
    }
  }

  // ----- inputs at hand -----

  /** What the pool keeps up while entries come and go: every input is made by a pool entry or is in the chain, and no
      two entries spend the same output. */
  ghost predicate ConflictFree(pool: Pool, tip: View) {
    && (forall h, o :: h in pool.entries && o in Spends(pool.entries[h]) ==>
          if o.hash in pool.entries then Makes(pool.entries[o.hash], o) else o in tip)
    && (forall g, h, o :: g in pool.entries && h in pool.entries && g != h && o in Spends(pool.entries[g]) ==>
          o !in Spends(pool.entries[h]))
  }

  /** An output that is there or gets made, and that nobody spends, is there in the end. */
  lemma {:induction false} ReplayHas(pool: Pool, view: View, s: seq<Hash>, o: OutPoint)
    requires AllIn(pool, s) && (o in view || (o.hash in s && Makes(pool.entries[o.hash], o)))
    requires forall i :: 0 <= i < |s| ==> o !in Spends(pool.entries[s[i]])
    ensures o in Replay(pool, view, s)
    decreases |s|
  {
    hide Update, Spends;
    if |s| > 0 {
      var n := |s| - 1;
      if !Makes(pool.entries[s[n]], o) {
        assert s == s[..n] + [s[n]];
        ReplayHas(pool, view, s[..n], o);
      }
    }
  }

  /** An entry whose parents were chosen finds all its inputs. */
  lemma {:induction false} InputsAtHand(pool: Pool, tip: View, s: seq<Hash>, h: Hash)
    requires Consistent(pool) && ConflictFree(pool, tip) && AllIn(pool, s)
    requires h in pool.entries && h !in s && Parents(pool, h) <= Elements(s)
    ensures HaveInputs(Replay(pool, tip, s), pool.entries[h])
  {
    hide Replay, ForwardParents, InputParents;
    var e := pool.entries[h];
    forall i | 0 <= i < |e.inputs|
      ensures e.inputs[i] in Replay(pool, tip, s)
    {
      var o := e.inputs[i];
      assert o in Spends(e);
      assert o.hash in pool.entries ==> o.hash in InputParents(pool, e.inputs);
      ReplayHas(pool, tip, s, o);
    }
  }

  // ----- forward transfers -----

  lemma {:induction false} ForwardParentListed(pool: Pool, h: Hash, forwards: seq<ScId>, j: nat)
    requires j < |forwards|
    ensures ForwardParent(pool, h, forwards[j]) <= ForwardParents(pool, h, forwards)
    decreases |forwards|
  {
    if j < |forwards| - 1 {
      ForwardParentListed(pool, h, forwards[..|forwards| - 1], j);
    }
  }

  /** The sidechain of every forward transfer is known at the tip, or is created by its own transaction or by one that
      stands before it in the block. */
  ghost predicate ForwardsBacked(pool: Pool, b: seq<Hash>)
    requires AllIn(pool, b)
  {
    forall i, j :: 0 <= i < |b| && 0 <= j < |pool.entries[b[i]].forwards| ==>
      Backed(pool, b, i, pool.entries[b[i]].forwards[j])
  }

  ghost predicate Backed(pool: Pool, b: seq<Hash>, i: nat, sc: ScId)
    requires i < |b|
  {
    sc in pool.sidechains || (sc in pool.creators && pool.creators[sc] in b[..i + 1])
  }

  lemma {:induction false} ForwardsAtHand(pool: Pool, b: seq<Hash>)
    requires Consistent(pool) && AllIn(pool, b) && InOrder(pool, b)
    ensures ForwardsBacked(pool, b)
  {
    hide InputParents, ForwardParents;
    forall i, j | 0 <= i < |b| && 0 <= j < |pool.entries[b[i]].forwards|
      ensures Backed(pool, b, i, pool.entries[b[i]].forwards[j])
    {
      var e := pool.entries[b[i]];
      assert EntryOk(pool, b[i]) && KnownSidechain(pool, e.forwards[j]);
      ForwardParentListed(pool, b[i], e.forwards, j);
      assert b[..i + 1] == b[..i] + [b[i]];
    }
  }
}
