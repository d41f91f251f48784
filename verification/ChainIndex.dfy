/** The tree of block index entries, its skip pointers and the active chain (chain.cpp, chain.h). */
module ChainIndex {
  import opened Powers

  type Hash = nat

  // ----- heights the skip pointers jump to -----

  /** Bitwise "and" of two natural numbers. */
  function And(a: nat, b: nat): (r: nat)
    ensures r <= a && r <= b
  {
    if a == 0 || b == 0 then 0 else 2 * And(a / 2, b / 2) + (if a % 2 == 1 && b % 2 == 1 then 1 else 0)
  }

  function InvertLowestOne(n: nat): nat {
    if n == 0 then 0 else And(n, n - 1)
  }

  function SkipHeight(height: nat): nat {
    if height < 2 then 0
    else if height % 2 == 1 then InvertLowestOne(InvertLowestOne(height - 1)) + 1
    else InvertLowestOne(height)
  }

  /** Whether the walk from height w to height t follows the skip pointer, if it is set: not when the skip pointer of
      the height below leads further without going too far. */
  predicate Jumps(w: nat, t: nat)
    requires w > 0
  {
    var s, p := SkipHeight(w), SkipHeight(w - 1);
    s == t || (s > t && !(p < s - 2 && p >= t))
  }

  lemma {:induction false} AndSelf(n: nat)
    ensures And(n, n) == n
  {
    if n > 0 {
      AndSelf(n / 2);
    }
  }

  /** Clearing the lowest one bit of odd * 2^k takes away exactly 2^k. */
  lemma {:induction false} InvertLowestOneClears(odd: nat, k: nat)
    requires odd % 2 == 1
    ensures odd * Pow2(k) > 0
    ensures InvertLowestOne(odd * Pow2(k)) == odd * Pow2(k) - Pow2(k)
  {
    var n := odd * Pow2(k);
    if k == 0 {
      AndSelf(odd / 2);
      assert (odd - 1) / 2 == odd / 2;
    } else {
      InvertLowestOneClears(odd, k - 1);
      var m := odd * Pow2(k - 1);
      assert n == 2 * m;
      assert (n - 1) / 2 == m - 1 && (n - 1) % 2 == 1;
      assert n / 2 == m;
      if m == 1 {
        assert And(m, m - 1) == 0;
      }
    }
  }

  /** Every skip goes back to a lower height. */
  lemma {:induction false} SkipsBack(height: nat)
    requires height > 0
    ensures SkipHeight(height) < height
  {
    if height >= 2 && height % 2 == 1 {
      var m := height - 1;
      var k := And(m, m - 1);
      assert k <= m - 1;
      assert InvertLowestOne(k) <= k;
    }
  }

  /** The turns of GetAncestor's loop when every skip pointer is set. */
  function Turns(w: nat, t: nat): nat
    requires t <= w
    decreases w
  {
    if w == t then 0
    else
      SkipsBack(w);
      if Jumps(w, t) then 1 + Turns(SkipHeight(w), t) else 1 + Turns(w - 1, t)
  }

  // ----- index entries -----

  /** An entry's parent and height are written once, when the entry is made; skip is written by BuildSkip. */
  class BlockIndex {
    const hash: Hash
    const prev: BlockIndex?
    const height: int
    var skip: BlockIndex?

    constructor (hash: Hash, parent: BlockIndex?)
      ensures this.hash == hash && prev == parent && skip == null
      ensures height == if parent == null then 0 else parent.height + 1
    {
      this.hash := hash;
      prev := parent;
      height := if parent == null then 0 else parent.height + 1;
      skip := null;
    }

    /** The ancestor at the given height, following skip pointers where they help; turns counts the loop's turns. */
    method GetAncestor(target: int) returns (r: BlockIndex?, ghost turns: nat)
      requires Linked(this) && SkipsOk(this)
      ensures r == Ancestor(this, target) && SkipsOk(this)
      ensures 0 <= target <= height && SkipsSet(this) ==> turns == Turns(height, target)
      ensures target > height || target < 0 ==> turns == 0
    {
      turns := 0;
      if target > height || target < 0 {
        LineShape(this);
        return null, 0;
      }
      var walk: BlockIndex := this;
      var heightWalk := height;
      while heightWalk > target
        invariant Linked(walk) && SkipsOk(walk) && SkipsOk(this)
        invariant heightWalk == walk.height >= target >= 0
        invariant Ancestor(walk, target) == Ancestor(this, target)
        invariant SkipsSet(this) ==> SkipsSet(walk) && turns + Turns(heightWalk, target) == Turns(height, target)
        invariant old(SkipsSet(this)) == SkipsSet(this)
      {
        LineShape(walk);
        LineHas(walk);
        SkipsBack(heightWalk);
        turns := turns + 1;
        var heightSkip := SkipHeight(heightWalk);
        if walk.skip != null && Jumps(heightWalk, target) {
          AncestorLinked(walk, heightSkip, target);
          AncestorSet(walk, heightSkip);
          walk := walk.skip;
          heightWalk := heightSkip;
        } else {
          AncestorLinked(walk, heightWalk - 1, target);
          AncestorSet(walk, heightWalk - 1);
          walk := walk.prev;
          heightWalk := heightWalk - 1;
        }
      }
      r := walk;
    }

    /** Sets the skip pointer; the skip pointers of the ancestors may be set or not. */
    method BuildSkip()
      requires Linked(this) && SkipsOk(this)
      modifies this
      ensures SkipsOk(this)
      ensures prev != null ==> skip != null && skip == Ancestor(this, SkipHeight(height))
      ensures prev == null ==> skip == old(skip)
    {
      LineShape(this);
      if prev != null {
        SkipsBack(height);
        AncestorLinked(this, height - 1, SkipHeight(height));
        var s, _ := prev.GetAncestor(SkipHeight(height));
        AncestorAt(this, SkipHeight(height));
        assert SkipsOk(prev);
        NotOwnAncestor(this);
        assert forall a :: a in Line(prev) ==> a != this && SkipOk(a);
        skip := s;
        assert forall a :: a in Line(prev) ==> SkipOk(a);
        assert SkipOk(this);
        assert Line(this) == Line(prev) + [this];
      }
    }
  }

  /** Heights count the steps back to a root. */
  ghost predicate Linked(b: BlockIndex)
    decreases if b.height < 0 then 0 else b.height
  {
    if b.prev == null then b.height == 0
    else b.height > 0 && b.prev.height == b.height - 1 && Linked(b.prev)
  }

  /** The entries from the root to b, found by following parents. */
  ghost function Line(b: BlockIndex): seq<BlockIndex>
    requires Linked(b)
    decreases if b.height < 0 then 0 else b.height
  {
    if b.prev == null then [b] else Line(b.prev) + [b]
  }

  /** The plain walk along parents. */
  ghost function Ancestor(b: BlockIndex, target: int): BlockIndex?
    requires Linked(b)
    decreases if b.height < 0 then 0 else b.height
  {
    if b.height == target then b
    else if b.prev == null then null
    else Ancestor(b.prev, target)
  }

  /** Every skip pointer that is set leads to the ancestor at the skip height. */
  ghost predicate SkipsOk(b: BlockIndex)
    requires Linked(b)
    reads Line(b)
  {
    forall a :: a in Line(b) ==> SkipOk(a)
  }

  /** Every entry with a parent has its skip pointer set. */
  ghost predicate SkipsSet(b: BlockIndex)
    requires Linked(b)
    reads Line(b)
  {
    forall a :: a in Line(b) ==> a.prev == null || a.skip != null
  }

  lemma {:induction false} AncestorSet(b: BlockIndex, mid: int)
    requires Linked(b) && 0 <= mid <= b.height
    ensures var m := Ancestor(b, mid); m != null && Linked(m) && (SkipsSet(b) ==> SkipsSet(m))
  {
    AncestorAt(b, mid);
    LineShape(b);
    assert forall a :: a in Line(b)[..mid + 1] ==> a in Line(b);
  }

  ghost predicate SkipOk(a: BlockIndex)
    reads a
  {
    a.skip != null ==> Linked(a) && a.height > 0 && a.skip == Ancestor(a, SkipHeight(a.height))
  }

  lemma {:induction false} LineShape(b: BlockIndex)
    requires Linked(b)
    ensures b.height >= 0 && |Line(b)| == b.height + 1
    ensures forall i :: 0 <= i <= b.height ==> Line(b)[i].height == i
    ensures b.height > 0 ==> b.prev != null && Line(b)[..b.height] == Line(b.prev)
    ensures Line(b)[b.height] == b
    ensures forall t :: t > b.height || t < 0 ==> Ancestor(b, t) == null
    decreases if b.height < 0 then 0 else b.height
  {
    if b.prev != null {
      LineShape(b.prev);
    }
  }

  lemma {:induction false} NotOwnAncestor(b: BlockIndex)
    requires Linked(b) && b.prev != null
    ensures b !in Line(b.prev)
  {
    LineShape(b.prev);
  }

  lemma {:induction false} LineHas(b: BlockIndex)
    requires Linked(b)
    ensures b in Line(b)
  {
  }

  /** The walk and the line agree, and the line up to an ancestor is the ancestor's own line. */
  lemma {:induction false} AncestorAt(b: BlockIndex, t: int)
    requires Linked(b) && 0 <= t <= b.height
    ensures |Line(b)| == b.height + 1
    ensures Ancestor(b, t) == Line(b)[t]
    ensures Linked(Line(b)[t]) && Line(b)[t].height == t && Line(Line(b)[t]) == Line(b)[..t + 1]
    decreases b.height
  {
    LineShape(b);
    if t < b.height {
      AncestorAt(b.prev, t);
      LineShape(b.prev);
      assert Line(b)[t] == Line(b.prev)[t];
      assert Line(b)[..t + 1] == Line(b.prev)[..t + 1];
    } else {
      assert Line(b)[..t + 1] == Line(b);
    }
  }

  /** Going to an intermediate ancestor first does not change where a walk ends. */
  lemma {:induction false} AncestorLinked(b: BlockIndex, mid: int, t: int)
    requires Linked(b) && SkipsOk(b) && 0 <= t <= mid <= b.height
    ensures b.prev != null || mid == b.height
    ensures var m := Ancestor(b, mid);
            m != null && m.height == mid && Linked(m) && SkipsOk(m) && Ancestor(m, t) == Ancestor(b, t)
            && (mid == b.height - 1 ==> m == b.prev)
  {
    LineShape(b);
    AncestorAt(b, mid);
    AncestorAt(b, t);
    var m := Ancestor(b, mid);
    AncestorAt(m, t);
    assert Line(m)[t] == Line(b)[t];
    assert forall a :: a in Line(m) ==> a in Line(b);
    if mid == b.height - 1 {
      assert Line(b)[..b.height] == Line(b.prev);
      LineShape(b.prev);
      assert Line(b)[mid] == Line(b.prev)[mid];
    }
  }

  // ----- the index of all known blocks -----

  /** mapBlockIndex: every known header's entry, by hash. */
  class BlockTree {
    var index: map<Hash, BlockIndex>

    /** Every entry is found under its own hash, with all its ancestors, and every skip pointer is right. */
    ghost predicate Valid()
      reads this, index.Values
    {
      forall h :: h in index ==> Filed(index, h)
    }

    constructor ()
      ensures Valid() && index == map[]
    {
      index := map[];
    }

    /** Adds a header; a known header's entry is returned as it is, an unknown parent makes a root. */
    method AddToBlockIndex(hash: Hash, hashPrev: Hash) returns (b: BlockIndex)
      requires Valid()
      requires hash != hashPrev
      modifies this
      ensures Valid()
      ensures index == old(index)[hash := b] && b.hash == hash
      ensures Linked(b)
      ensures hash in old(index) ==> b == old(index)[hash]
      ensures hash !in old(index) ==> fresh(b)
      ensures hash !in old(index) && hashPrev in old(index) ==>
                Line(b) == Line(old(index)[hashPrev]) + [b] && b.skip == Ancestor(b, SkipHeight(b.height))
      ensures hash !in old(index) && hashPrev !in old(index) ==> Line(b) == [b]
    {
      hide SkipHeight, Ancestor, Line, Linked;
      if hash in index {
        assert Filed(index, hash);
        return index[hash];
      }
      ghost var was := index;
      if hashPrev in index {
        assert Filed(index, hashPrev);
      }
      b := NewEntry(hash, if hashPrev in index then index[hashPrev] else null, index.Values);
      index := index[hash := b];
      forall h | h in index
        ensures Filed(index, h)
      {
        if h != hash {
          assert Filed(was, h);
        }
      }
    }
  }

  /** A new entry, with its skip pointer if it has a parent. */
  method NewEntry(hash: Hash, parent: BlockIndex?, ghost known: set<BlockIndex>) returns (b: BlockIndex)
    requires parent != null ==> Linked(parent) && forall a :: a in Line(parent) ==> a in known && SkipOk(a)
    ensures fresh(b) && b.hash == hash && Linked(b)
    ensures Line(b) == (if parent == null then [] else Line(parent)) + [b]
    ensures parent != null ==> b.skip == Ancestor(b, SkipHeight(b.height))
    ensures SkipOk(b) && (b.prev == null || b.skip != null)
  {
    b := new BlockIndex(hash, parent);
    if parent != null {
      LineShape(parent);
    }
    b.BuildSkip();
    LineHas(b);
  }

  /** The entry filed under h. */
  ghost predicate Filed(index: map<Hash, BlockIndex>, h: Hash)
    requires h in index
    reads index.Values
  {
    var b := index[h];
    b.hash == h && Linked(b)
    && (forall a :: a in Line(b) ==> a.hash in index && index[a.hash] == a)
    && (forall a :: a in Line(b) ==> SkipOk(a) && (a.prev == null || a.skip != null))
  }
}
