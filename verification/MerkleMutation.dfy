/** What the mutation flag of the Merkle tree is for: lists of transactions without the flag are determined by their
    root; a list shares its root with a shorter one exactly when two nodes at the end of a level, other than the last
    two of all, are the same. */
module MerkleMutation {
  import opened MerkleTree
  import opened MerkleRoot

  // ---- Heights of hashes ----

  /** A hash of `d` rounds over transaction hashes, which are no hashes of pairs. */
  ghost predicate AtHeight(H: Combine, v: Hash, d: nat)
    decreases d
  {
    if d == 0 then forall x, y :: H(x, y) != v
    else exists x, y :: H(x, y) == v && AtHeight(H, x, d - 1) && AtHeight(H, y, d - 1)
  }

  ghost predicate AllAt(H: Combine, s: seq<Hash>, d: nat) {
    forall i :: 0 <= i < |s| ==> AtHeight(H, s[i], d)
  }

  lemma {:induction false} OneHeight(H: Combine, v: Hash, d: nat, e: nat)
    requires Injective(H) && AtHeight(H, v, d) && AtHeight(H, v, e)
    ensures d == e
    decreases d
  {
    if d > 0 && e > 0 {
      var x, y :| H(x, y) == v && AtHeight(H, x, d - 1) && AtHeight(H, y, d - 1);
      var a, b :| H(a, b) == v && AtHeight(H, a, e - 1) && AtHeight(H, b, e - 1);
      OneHeight(H, x, d - 1, e - 1);
    }
  }

  lemma {:induction false} UpHeight(H: Combine, s: seq<Hash>, d: nat)
    requires AllAt(H, s, d)
    ensures AllAt(H, Up(H, s), d + 1)
  {
    hide AtHeight;
    var up := Up(H, s);
    forall i | 0 <= i < |up| ensures AtHeight(H, up[i], d + 1) {
      PairHeight(H, s[2 * i], s[if 2 * i + 1 < |s| then 2 * i + 1 else 2 * i], d);
    }
  }

  lemma {:induction false} PairHeight(H: Combine, x: Hash, y: Hash, d: nat)
    requires AtHeight(H, x, d) && AtHeight(H, y, d)
    ensures AtHeight(H, H(x, y), d + 1)
  {
  }

  lemma {:induction false} RootHeight(H: Combine, s: seq<Hash>, d: nat) returns (e: nat)
    requires |s| > 0 && AllAt(H, s, d)
    ensures e >= d && (|s| > 1 ==> e > d) && AtHeight(H, Root(H, s), e)
    decreases |s|
  {
    hide AtHeight;
    if |s| == 1 {
      e := d;
    } else {
      UpHeight(H, s, d);
      e := RootHeight(H, Up(H, s), d + 1);
    }
  }

  // ---- Lists determined by their roots ----

  /** On some level of more than two nodes the last two are a pair of the same. */
  predicate Aliased(H: Combine, s: seq<Hash>)
    decreases |s|
  {
    |s| > 2 && (SameEnd(s) || Aliased(H, Up(H, s)))
  }

  /** The two nodes below the root are the same. */
  predicate Twins(H: Combine, s: seq<Hash>)
    decreases |s|
  {
    if |s| <= 2 then SameEnd(s) else Twins(H, Up(H, s))
  }

  /** What the flag says. */
  lemma {:induction false} FlagMeans(H: Combine, s: seq<Hash>)
    ensures Mutated(H, s) <==> Aliased(H, s) || Twins(H, s)
    decreases |s|
  {
    if |s| > 2 {
      FlagMeans(H, Up(H, s));
    } else if |s| == 2 {
      assert |Up(H, s)| == 1;
    }
  }

  /** A level without a pair of the same at its end is determined by the next one. */
  lemma {:induction false} LevelDetermined(H: Combine, a: seq<Hash>, b: seq<Hash>)
    requires Injective(H) && Up(H, a) == Up(H, b) && (|a| == |b| || (!SameEnd(a) && !SameEnd(b)))
    ensures a == b
  {
    var up := Up(H, a);
    forall i | 0 <= i < |up|
      ensures a[2 * i] == b[2 * i]
      ensures a[if 2 * i + 1 < |a| then 2 * i + 1 else 2 * i] == b[if 2 * i + 1 < |b| then 2 * i + 1 else 2 * i]
    {
      assert Up(H, a)[i] == Up(H, b)[i];
    }
    var last := |up| - 1;
    if |up| > 0 {
      assert a[2 * last] == b[2 * last];
    }
    assert |a| == |b|;
    forall k | 0 <= k < |a| ensures a[k] == b[k] {
      assert k == if k % 2 == 0 then 2 * (k / 2) else 2 * (k / 2) + 1;
      assert 0 <= k / 2 < |up|;
    }
  }

  lemma {:induction false} DeterminedFrom(H: Combine, a: seq<Hash>, b: seq<Hash>, d: nat)
    requires Injective(H) && |a| > 0 && |b| > 0 && AllAt(H, a, d) && AllAt(H, b, d)
    requires !Aliased(H, a) && !Aliased(H, b) && Root(H, a) == Root(H, b)
    ensures a == b
    decreases |a| + |b|
  {
    hide AtHeight, Up, Injective;
    if |a| > 1 && |b| > 1 {
      UpHeight(H, a, d);
      UpHeight(H, b, d);
      Shrinks(H, a);
      Shrinks(H, b);
      DeterminedFrom(H, Up(H, a), Up(H, b), d + 1);
      LevelDetermined(H, a, b);
    } else {
      var e := RootHeight(H, a, d);
      var f := RootHeight(H, b, d);
      OneHeight(H, Root(H, a), e, f);
      if |a| == 1 && |b| > 1 {
        OneHeight(H, a[0], d, f);
      } else if |b| == 1 && |a| > 1 {
        OneHeight(H, b[0], d, e);
      }
    }
  }

  lemma {:induction false} Shrinks(H: Combine, s: seq<Hash>)
    requires |s| > 1
    ensures 0 < |Up(H, s)| < |s|
  {
  }

  /** Without the flag, and even with twins below the root, the root determines the transactions. */
  lemma {:induction false} RootDetermines(H: Combine, a: seq<Hash>, b: seq<Hash>)
    requires Injective(H) && |a| > 0 && |b| > 0 && AllAt(H, a, 0) && AllAt(H, b, 0)
    requires !Aliased(H, a) && !Aliased(H, b) && Root(H, a) == Root(H, b)
    ensures a == b
  {
    DeterminedFrom(H, a, b, 0);
  }

  // ---- Lists that share their roots ----

  /** An even prefix goes up on its own. */
  lemma {:induction false} UpPrefix(H: Combine, s: seq<Hash>, j: nat)
    requires 2 * j <= |s|
    ensures Up(H, s[..2 * j]) == Up(H, s)[..j]
  {
    var a, b := Up(H, s[..2 * j]), Up(H, s)[..j];
    assert |a| == |b| == j;
    forall i | 0 <= i < j ensures a[i] == b[i] {}
  }

  /** The second of two equal last nodes does not matter. */
  lemma {:induction false} EndDropped(H: Combine, s: seq<Hash>)
    requires SameEnd(s)
    ensures Up(H, s[..|s| - 1]) == Up(H, s)
  {
    var a, b := Up(H, s[..|s| - 1]), Up(H, s);
    forall i | 0 <= i < |b| ensures a[i] == b[i] {}
  }

  lemma {:induction false} HalfOf(H: Combine, s: seq<Hash>, j: nat)
    requires 0 < j < |Up(H, s)|
    ensures 1 < 2 * j < |s|
  {
  }

  /** Such a list has a shorter prefix with the same root. */
  lemma {:induction false} HasShorter(H: Combine, s: seq<Hash>) returns (k: nat)
    requires Aliased(H, s)
    ensures 1 < k < |s| && Root(H, s[..k]) == Root(H, s)
    decreases |s|
  {
    hide Up;
    Shrinks(H, s);
    if SameEnd(s) {
      k := |s| - 1;
      EndDropped(H, s);
    } else {
      var j := HasShorter(H, Up(H, s));
      k := 2 * j;
      HalfOf(H, s, j);
      UpPrefix(H, s, j);
    }
  }

  /** A list with the same root that is determined by it. */
  lemma {:induction false} Reduced(H: Combine, s: seq<Hash>) returns (k: nat)
    requires |s| > 0
    ensures 0 < k <= |s| && Root(H, s[..k]) == Root(H, s) && !Aliased(H, s[..k])
    decreases |s|
  {
    hide Root, Aliased;
    if Aliased(H, s) {
      var j := HasShorter(H, s);
      k := Reduced(H, s[..j]);
      assert s[..j][..k] == s[..k];
    } else {
      k := |s|;
      assert s[..k] == s;
    }
  }

  /** A shorter list of transactions has the same root. */
  ghost predicate SharesRoot(H: Combine, s: seq<Hash>, t: seq<Hash>)
    requires |s| > 0
  {
    0 < |t| < |s| && AllAt(H, t, 0) && Root(H, t) == Root(H, s)
  }

  /** A list shares its root with a shorter one exactly when it is aliased; the flag is then always set, and otherwise
      set only for twins below the root. */
  lemma {:induction false} FlagIsComplete(H: Combine, s: seq<Hash>)
    requires Injective(H) && |s| > 0 && AllAt(H, s, 0)
    ensures (exists t :: SharesRoot(H, s, t)) <==> Aliased(H, s)
    ensures Mutated(H, s) <==> (exists t :: SharesRoot(H, s, t)) || Twins(H, s)
  {
    hide Root, Injective, AtHeight, Aliased, Twins, Mutated;
    FlagMeans(H, s);
    if Aliased(H, s) {
      var k := HasShorter(H, s);
      assert SharesRoot(H, s, s[..k]);
    } else if t :| SharesRoot(H, s, t) {
      var k := Reduced(H, t);
      RootDetermines(H, t[..k], s);
    }
  }

  /** Twins: the flag is set for a transaction given twice, though no shorter list has its root. */
  lemma {:induction false} TwinsFlagged(H: Combine, x: Hash)
    requires Injective(H) && AtHeight(H, x, 0)
    ensures Mutated(H, [x, x]) && forall t :: !SharesRoot(H, [x, x], t)
  {
    hide AtHeight, Injective;
    var s := [x, x];
    assert SameEnd(s) && !Aliased(H, s);
    FlagIsComplete(H, s);
  }

  /** Distinct transactions never set the flag. */
  lemma {:induction false} DistinctNotFlagged(H: Combine, s: seq<Hash>)
    requires Injective(H) && DistinctHashes(s)
    ensures !Mutated(H, s)
    decreases |s|
  {
    hide Injective;
    if |s| > 1 {
      DistinctUp(H, s);
      DistinctNotFlagged(H, Up(H, s));
    }
  }

  lemma {:induction false} DistinctUp(H: Combine, s: seq<Hash>)
    requires Injective(H) && DistinctHashes(s)
    ensures DistinctHashes(Up(H, s))
  {
    var up := Up(H, s);
    forall i, j | 0 <= i < j < |up| ensures up[i] != up[j] {
      assert s[2 * i] != s[2 * j];
    }
  }
}
