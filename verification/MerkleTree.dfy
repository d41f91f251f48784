/** Partial Merkle trees as values: what `CPartialMerkleTree` (src/merkleblock.cpp) writes for
    a node and what it reads back. The hash of two nodes is a parameter. */
module MerkleTree {
  import opened Powers

  type Hash = nat
  type Combine = (Hash, Hash) -> Hash

  /** `CalcTreeWidth`. */
  function Width(n: nat, height: nat): nat {
    (n + Pow2(height) - 1) / Pow2(height)
  }

  /** A node exists exactly when its first leaf does. */
  lemma {:induction false} WidthBound(n: nat, height: nat, pos: nat)
    ensures pos < Width(n, height) <==> pos * Pow2(height) < n
  {
    var p := Pow2(height);
    var w := Width(n, height);
    assert n + p - 1 == w * p + (n + p - 1) % p;
    if pos < w {
      assert pos * p <= (w - 1) * p;
      assert (w - 1) * p == w * p - p;
    } else {
      assert pos * p >= w * p;
    }
  }

  predicate IsNode(n: nat, height: nat, pos: nat) {
    pos * Pow2(height) < n
  }

  lemma {:induction false} Children(n: nat, height: nat, pos: nat)
    requires height > 0
    ensures IsNode(n, height, pos) <==> IsNode(n, height - 1, 2 * pos)
    ensures 2 * pos + 1 < Width(n, height - 1) <==> IsNode(n, height - 1, 2 * pos + 1)
    ensures IsNode(n, height - 1, 2 * pos + 1) ==> IsNode(n, height, pos)
  {
    WidthBound(n, height - 1, 2 * pos + 1);
    var p := Pow2(height - 1);
    assert pos * (2 * p) == 2 * pos * p;
    assert (2 * pos + 1) * p == 2 * pos * p + p;
  }

  /** `CalcHash`. */
  function NodeHash(H: Combine, height: nat, pos: nat, txids: seq<Hash>): Hash
    requires IsNode(|txids|, height, pos)
    decreases height
  {
    if height == 0 then
      assert Pow2(0) == 1; txids[pos]
    else
      Children(|txids|, height, pos);
      var left := NodeHash(H, height - 1, 2 * pos, txids);
      var right := if 2 * pos + 1 < Width(|txids|, height - 1) then NodeHash(H, height - 1, 2 * pos + 1, txids)
        else left;
      H(left, right)
  }

  /** The leaves below a node. */
  function First(height: nat, pos: nat): nat {
    pos * Pow2(height)
  }

  function End(n: nat, height: nat, pos: nat): nat {
    if (pos + 1) * Pow2(height) < n then (pos + 1) * Pow2(height) else n
  }

  /** Some leaf below the node is matched. */
  predicate Matched(height: nat, pos: nat, mask: seq<bool>) {
    exists p :: First(height, pos) <= p < End(|mask|, height, pos) && mask[p]
  }

  // ---- What is written for a node ----

  function Bits(height: nat, pos: nat, mask: seq<bool>): seq<bool>
    decreases height
  {
    if height == 0 || !Matched(height, pos, mask) then [Matched(height, pos, mask)]
    else
      [true] + Bits(height - 1, 2 * pos, mask) +
        (if 2 * pos + 1 < Width(|mask|, height - 1) then Bits(height - 1, 2 * pos + 1, mask) else [])
  }

  function Hashes(H: Combine, height: nat, pos: nat, txids: seq<Hash>, mask: seq<bool>): seq<Hash>
    requires |mask| == |txids| && IsNode(|txids|, height, pos)
    decreases height
  {
    if height == 0 || !Matched(height, pos, mask) then [NodeHash(H, height, pos, txids)]
    else
      Children(|txids|, height, pos);
      Hashes(H, height - 1, 2 * pos, txids, mask) +
        (if 2 * pos + 1 < Width(|txids|, height - 1) then Hashes(H, height - 1, 2 * pos + 1, txids, mask) else [])
  }

  /** The matched leaves from `a` to `b`. */
  function Selected(txids: seq<Hash>, mask: seq<bool>, a: nat, b: nat): seq<Hash>
    requires a <= b <= |txids| == |mask|
    decreases b
  {
    if a == b then [] else Selected(txids, mask, a, b - 1) + (if mask[b - 1] then [txids[b - 1]] else [])
  }

  function Places(mask: seq<bool>, a: nat, b: nat): seq<nat>
    requires a <= b <= |mask|
    decreases b
  {
    if a == b then [] else Places(mask, a, b - 1) + (if mask[b - 1] then [b - 1] else [])
  }

  // ---- What is read for a node ----

  /** The state of a traversal: how much was used, what was matched and where, and whether
      anything was wrong. */
  datatype Reading = Reading(bitsUsed: nat, hashUsed: nat, matches: seq<Hash>, places: seq<nat>, bad: bool)

  /** `TraverseAndExtract` for a tree of `n` transactions: the hash of the node, 0 on overflow. */
  function Extract(H: Combine, n: nat, height: nat, pos: nat, bits: seq<bool>, hashes: seq<Hash>, r: Reading): (Hash,
      Reading)
    decreases height
  {
    if r.bitsUsed >= |bits| then (0, r.(bad := true))
    else
      var flag := bits[r.bitsUsed];
      var r1 := r.(bitsUsed := r.bitsUsed + 1);
      if height == 0 || !flag then
        if r1.hashUsed >= |hashes| then (0, r1.(bad := true))
        else
          var hash := hashes[r1.hashUsed];
          var r2 := r1.(hashUsed := r1.hashUsed + 1);
          (hash, if height == 0 && flag then r2.(matches := r2.matches + [hash], places := r2.places + [pos]) else r2)
      else
        var left := Extract(H, n, height - 1, 2 * pos, bits, hashes, r1);
        if 2 * pos + 1 < Width(n, height - 1) then
          var right := Extract(H, n, height - 1, 2 * pos + 1, bits, hashes, left.1);
          (H(left.0, right.0), if right.0 == left.0 then right.1.(bad := true) else right.1)
        else (H(left.0, left.0), left.1)
  }

  // ---- Distinct nodes have distinct hashes ----

  ghost predicate Injective(H: Combine) {
    forall a, b, c, d :: H(a, b) == H(c, d) ==> a == c && b == d
  }

  ghost predicate DistinctHashes(txids: seq<Hash>) {
    forall i, j :: 0 <= i < j < |txids| ==> txids[i] != txids[j]
  }

  lemma {:induction false} SameHashSameNode(H: Combine, height: nat, a: nat, b: nat, txids: seq<Hash>)
    requires Injective(H) && DistinctHashes(txids) && IsNode(|txids|, height, a) && IsNode(|txids|, height, b)
    requires NodeHash(H, height, a, txids) == NodeHash(H, height, b, txids)
    ensures a == b
    decreases height
  {
    if height == 0 {
      assert Pow2(0) == 1;
    } else {
      Children(|txids|, height, a);
      Children(|txids|, height, b);
      SameHashSameNode(H, height - 1, 2 * a, 2 * b, txids);
    }
  }

  // ---- Reading what was written ----

  /** The leaves of a node are those of its children. */
  lemma {:induction false} LeavesSplit(n: nat, height: nat, pos: nat)
    requires height > 0 && IsNode(n, height, pos)
    ensures First(height, pos) == First(height - 1, 2 * pos) < n
    ensures IsNode(n, height - 1, 2 * pos + 1) ==>
      && End(n, height - 1, 2 * pos) == First(height - 1, 2 * pos + 1)
      && End(n, height, pos) == End(n, height - 1, 2 * pos + 1)
    ensures !IsNode(n, height - 1, 2 * pos + 1) ==> End(n, height, pos) == End(n, height - 1, 2 * pos)
  {
    var p := Pow2(height - 1);
    assert pos * (2 * p) == 2 * pos * p;
    assert (2 * pos + 1) * p == 2 * pos * p + p;
    assert (2 * pos + 2) * p == 2 * pos * p + 2 * p;
    assert (pos + 1) * (2 * p) == 2 * pos * p + 2 * p;
  }

  lemma {:induction false} LeavesInOrder(n: nat, height: nat, pos: nat)
    requires IsNode(n, height, pos)
    ensures First(height, pos) < End(n, height, pos) <= n
  {
    assert (pos + 1) * Pow2(height) == pos * Pow2(height) + Pow2(height);
  }

  lemma {:induction false} SelectedSplit(txids: seq<Hash>, mask: seq<bool>, a: nat, b: nat, c: nat)
    requires a <= b <= c <= |txids| == |mask|
    ensures Selected(txids, mask, a, c) == Selected(txids, mask, a, b) + Selected(txids, mask, b, c)
    decreases c
  {
    if b < c {
      SelectedSplit(txids, mask, a, b, c - 1);
    }
  }

  lemma {:induction false} PlacesSplit(mask: seq<bool>, a: nat, b: nat, c: nat)
    requires a <= b <= c <= |mask|
    ensures Places(mask, a, c) == Places(mask, a, b) + Places(mask, b, c)
    decreases c
  {
    if b < c {
      PlacesSplit(mask, a, b, c - 1);
    }
  }

  lemma {:induction false} SelectedNone(txids: seq<Hash>, mask: seq<bool>, a: nat, b: nat)
    requires a <= b <= |txids| == |mask| && forall p :: a <= p < b ==> !mask[p]
    ensures Selected(txids, mask, a, b) == [] && Places(mask, a, b) == []
    decreases b
  {
    if a < b {
      SelectedNone(txids, mask, a, b - 1);
    }
  }

  /** `part` is read next from `all`. */
  ghost predicate Next<T>(all: seq<T>, used: nat, part: seq<T>) {
    used + |part| <= |all| && forall i :: 0 <= i < |part| ==> all[used + i] == part[i]
  }

  lemma {:induction false} NextSplit<T>(all: seq<T>, used: nat, a: seq<T>, b: seq<T>)
    requires Next(all, used, a + b)
    ensures Next(all, used, a) && Next(all, used + |a|, b)
  {
    forall i | 0 <= i < |a| ensures all[used + i] == a[i] { assert (a + b)[i] == a[i]; }
    forall i | 0 <= i < |b| ensures all[used + |a| + i] == b[i] { assert (a + b)[|a| + i] == b[i]; }
  }

  lemma {:induction false} NextFirst<T>(all: seq<T>, used: nat, part: seq<T>)
    requires Next(all, used, part) && part != []
    ensures used < |all| && all[used] == part[0]
  {
    assert all[used + 0] == part[0];
  }

  function Expected(H: Combine, height: nat, pos: nat, txids: seq<Hash>, mask: seq<bool>, r: Reading): (Hash, Reading)
    requires |mask| == |txids| && IsNode(|txids|, height, pos)
  {
    LeavesInOrder(|txids|, height, pos);
    var a, b := First(height, pos), End(|txids|, height, pos);
    (NodeHash(H, height, pos, txids),
     Reading(r.bitsUsed + |Bits(height, pos, mask)|, r.hashUsed + |Hashes(H, height, pos, txids, mask)|,
             r.matches + Selected(txids, mask, a, b), r.places + Places(mask, a, b), r.bad))
  }

  lemma {:induction false} ReadLeaf(H: Combine, height: nat, pos: nat, txids: seq<Hash>, mask: seq<bool>,
      bits: seq<bool>, hashes: seq<Hash>, r: Reading)
    requires |mask| == |txids| && IsNode(|txids|, height, pos) && (height == 0 || !Matched(height, pos, mask))
    requires Next(bits, r.bitsUsed, Bits(height, pos, mask))
      && Next(hashes, r.hashUsed, Hashes(H, height, pos, txids, mask))
    ensures Extract(H, |txids|, height, pos, bits, hashes, r) == Expected(H, height, pos, txids, mask, r)
  {
    LeavesInOrder(|txids|, height, pos);
    NextFirst(bits, r.bitsUsed, Bits(height, pos, mask));
    NextFirst(hashes, r.hashUsed, Hashes(H, height, pos, txids, mask));
    var a, b := First(height, pos), End(|txids|, height, pos);
    if Matched(height, pos, mask) {
      assert Pow2(0) == 1 && a == pos && b == pos + 1;
      assert Selected(txids, mask, pos, pos) == [] && Places(mask, pos, pos) == [];
      assert Selected(txids, mask, pos, pos + 1) == [txids[pos]] && Places(mask, pos, pos + 1) == [pos];
    } else {
      SelectedNone(txids, mask, a, b);
      assert r.matches + [] == r.matches && r.places + [] == r.places;
    }
  }

  /** A node that was written is read back: its hash, its matches in order, and nothing more is used. */
  lemma {:induction false} ReadNode(H: Combine, height: nat, pos: nat, txids: seq<Hash>, mask: seq<bool>,
      bits: seq<bool>, hashes: seq<Hash>, r: Reading)
    requires Injective(H) && DistinctHashes(txids) && |mask| == |txids| && IsNode(|txids|, height, pos)
    requires Next(bits, r.bitsUsed, Bits(height, pos, mask))
      && Next(hashes, r.hashUsed, Hashes(H, height, pos, txids, mask))
    ensures Extract(H, |txids|, height, pos, bits, hashes, r) == Expected(H, height, pos, txids, mask, r)
    decreases height
  {
    if height == 0 || !Matched(height, pos, mask) {
      ReadLeaf(H, height, pos, txids, mask, bits, hashes, r);
    } else {
      ReadInner(H, height, pos, txids, mask, bits, hashes, r);
    }
  }

  /** What is expected of a node follows from what is expected of its children. */
  lemma {:induction false} ExpectedInner(H: Combine, height: nat, pos: nat, txids: seq<Hash>, mask: seq<bool>,
      r: Reading)
    requires |mask| == |txids| && IsNode(|txids|, height, pos) && height > 0 && Matched(height, pos, mask)
    ensures IsNode(|txids|, height - 1, 2 * pos)
    ensures var left := Expected(H, height - 1, 2 * pos, txids, mask, r.(bitsUsed := r.bitsUsed + 1));
      if 2 * pos + 1 < Width(|txids|, height - 1) then
        && IsNode(|txids|, height - 1, 2 * pos + 1)
        && var right := Expected(H, height - 1, 2 * pos + 1, txids, mask, left.1);
        Expected(H, height, pos, txids, mask, r) == (H(left.0, right.0), right.1)
      else Expected(H, height, pos, txids, mask, r) == (H(left.0, left.0), left.1)
  {
    hide Matched, First, End, Width, IsNode, Selected, Places;
    var n := |txids|;
    Children(n, height, pos);
    LeavesSplit(n, height, pos);
    LeavesInOrder(n, height - 1, 2 * pos);
    LeavesInOrder(n, height, pos);
    var a, m, b := First(height, pos), End(n, height - 1, 2 * pos), End(n, height, pos);
    if 2 * pos + 1 < Width(n, height - 1) {
      LeavesInOrder(n, height - 1, 2 * pos + 1);
      SelectedSplit(txids, mask, a, m, b);
      PlacesSplit(mask, a, m, b);
      assert r.matches + Selected(txids, mask, a, m) + Selected(txids, mask, m, b) == r.matches + Selected(txids,
        mask, a, b);
      assert r.places + Places(mask, a, m) + Places(mask, m, b) == r.places + Places(mask, a, b);
    }
  }

  lemma {:induction false} ReadInner(H: Combine, height: nat, pos: nat, txids: seq<Hash>, mask: seq<bool>,
      bits: seq<bool>, hashes: seq<Hash>, r: Reading)
    requires Injective(H) && DistinctHashes(txids) && |mask| == |txids| && IsNode(|txids|, height, pos)
    requires height > 0 && Matched(height, pos, mask)
    requires Next(bits, r.bitsUsed, Bits(height, pos, mask))
      && Next(hashes, r.hashUsed, Hashes(H, height, pos, txids, mask))
    ensures Extract(H, |txids|, height, pos, bits, hashes, r) == Expected(H, height, pos, txids, mask, r)
    decreases height, 0
  {
    hide Matched, Width, IsNode, Next, Injective, DistinctHashes, Bits, Hashes, NodeHash, Extract, Expected;
    ExpectedInner(H, height, pos, txids, mask, r);
    ReadParts(H, height, pos, txids, mask, bits, hashes, r);
    ExtractInner(H, |txids|, height, pos, bits, hashes, r);
    var r1 := r.(bitsUsed := r.bitsUsed + 1);
    var left := Expected(H, height - 1, 2 * pos, txids, mask, r1);
    ExpectedHash(H, height - 1, 2 * pos, txids, mask, r1);
    ReadNode(H, height - 1, 2 * pos, txids, mask, bits, hashes, r1);
    if 2 * pos + 1 < Width(|txids|, height - 1) {
      ReadNode(H, height - 1, 2 * pos + 1, txids, mask, bits, hashes, left.1);
      ExpectedHash(H, height - 1, 2 * pos + 1, txids, mask, left.1);
      NodesDiffer(H, height - 1, 2 * pos, 2 * pos + 1, txids);
    }
  }

  lemma {:induction false} ExpectedHash(H: Combine, height: nat, pos: nat, txids: seq<Hash>, mask: seq<bool>,
      r: Reading)
    requires |mask| == |txids| && IsNode(|txids|, height, pos)
    ensures var e := Expected(H, height, pos, txids, mask, r);
      && e.0 == NodeHash(H, height, pos, txids)
      && e.1.bitsUsed == r.bitsUsed + |Bits(height, pos, mask)|
      && e.1.hashUsed == r.hashUsed + |Hashes(H, height, pos, txids, mask)|
  {
  }

  lemma {:induction false} ExtractInner(H: Combine, n: nat, height: nat, pos: nat, bits: seq<bool>, hashes: seq<Hash>,
      r: Reading)
    requires height > 0 && r.bitsUsed < |bits| && bits[r.bitsUsed]
    ensures var left := Extract(H, n, height - 1, 2 * pos, bits, hashes, r.(bitsUsed := r.bitsUsed + 1));
      Extract(H, n, height, pos, bits, hashes, r) ==
        if 2 * pos + 1 < Width(n, height - 1) then
          var right := Extract(H, n, height - 1, 2 * pos + 1, bits, hashes, left.1);
          (H(left.0, right.0), if right.0 == left.0 then right.1.(bad := true) else right.1)
        else (H(left.0, left.0), left.1)
  {
  }

  lemma {:induction false} NodesDiffer(H: Combine, height: nat, a: nat, b: nat, txids: seq<Hash>)
    requires Injective(H) && DistinctHashes(txids) && IsNode(|txids|, height, a) && IsNode(|txids|, height, b) && a != b
    ensures NodeHash(H, height, a, txids) != NodeHash(H, height, b, txids)
  {
    if NodeHash(H, height, a, txids) == NodeHash(H, height, b, txids) {
      SameHashSameNode(H, height, a, b, txids);
    }
  }

  /** The parts of a node are read one after the other. */
  lemma {:induction false} ReadParts(H: Combine, height: nat, pos: nat, txids: seq<Hash>, mask: seq<bool>,
      bits: seq<bool>, hashes: seq<Hash>, r: Reading)
    requires |mask| == |txids| && IsNode(|txids|, height, pos) && height > 0 && Matched(height, pos, mask)
    requires Next(bits, r.bitsUsed, Bits(height, pos, mask))
      && Next(hashes, r.hashUsed, Hashes(H, height, pos, txids, mask))
    ensures IsNode(|txids|, height - 1, 2 * pos) && r.bitsUsed < |bits| && bits[r.bitsUsed]
    ensures var leftBits, leftHashes := Bits(height - 1, 2 * pos, mask), Hashes(H, height - 1, 2 * pos, txids, mask);
      && Next(bits, r.bitsUsed + 1, leftBits) && Next(hashes, r.hashUsed, leftHashes)
      && (2 * pos + 1 < Width(|txids|, height - 1) ==>
            && IsNode(|txids|, height - 1, 2 * pos + 1)
            && Next(bits, r.bitsUsed + 1 + |leftBits|, Bits(height - 1, 2 * pos + 1, mask))
            && Next(hashes, r.hashUsed + |leftHashes|, Hashes(H, height - 1, 2 * pos + 1, txids, mask)))
  {
    hide Matched, Width, IsNode, Next, NodeHash;
    Children(|txids|, height, pos);
    var leftBits, leftHashes := Bits(height - 1, 2 * pos, mask), Hashes(H, height - 1, 2 * pos, txids, mask);
    if 2 * pos + 1 < Width(|txids|, height - 1) {
      NextSplit(bits, r.bitsUsed, [true] + leftBits, Bits(height - 1, 2 * pos + 1, mask));
      NextSplit(hashes, r.hashUsed, leftHashes, Hashes(H, height - 1, 2 * pos + 1, txids, mask));
    } else {
      assert [true] + leftBits + [] == [true] + leftBits && leftHashes + [] == leftHashes;
    }
    NextSplit(bits, r.bitsUsed, [true], leftBits);
    NextFirst(bits, r.bitsUsed, [true]);
  }

  // ---- Whatever leads to the true root is true ----

  /** From `r` to `e` the traversal found transactions of the leaves `a` to `b`, in order. */
  ghost predicate Found(txids: seq<Hash>, r: Reading, e: Reading, a: nat, b: nat) {
    && |r.places| == |r.matches| && |e.places| == |e.matches| && b <= |txids|
    && r.places <= e.places && r.matches <= e.matches
    && (forall i :: |r.places| <= i < |e.places| ==> a <= e.places[i] < b && e.matches[i] == txids[e.places[i]])
    && (forall i, j :: |r.places| <= i < j < |e.places| ==> e.places[i] < e.places[j])
  }

  lemma {:induction false} FoundBoth(txids: seq<Hash>, r: Reading, l: Reading, e: Reading, a: nat, m: nat, b: nat)
    requires a <= m <= b && Found(txids, r, l, a, m) && Found(txids, l, e, m, b)
    ensures Found(txids, r, e, a, b)
  {
    forall i | |r.places| <= i < |e.places| ensures a <= e.places[i] < b && e.matches[i] == txids[e.places[i]] {
      if i < |l.places| {
        assert e.places[i] == l.places[i] && e.matches[i] == l.matches[i];
      }
    }
    forall i, j | |r.places| <= i < j < |e.places| ensures e.places[i] < e.places[j] {
      if i < |l.places| { assert e.places[i] == l.places[i]; }
      if j < |l.places| { assert e.places[j] == l.places[j]; }
    }
  }

  /** A problem is never forgotten. */
  lemma {:induction false} BadStays(H: Combine, n: nat, height: nat, pos: nat, bits: seq<bool>, hashes: seq<Hash>,
      r: Reading)
    ensures r.bad ==> Extract(H, n, height, pos, bits, hashes, r).1.bad
    decreases height
  {
    if r.bitsUsed < |bits| && height > 0 && bits[r.bitsUsed] {
      var r1 := r.(bitsUsed := r.bitsUsed + 1);
      BadStays(H, n, height - 1, 2 * pos, bits, hashes, r1);
      var left := Extract(H, n, height - 1, 2 * pos, bits, hashes, r1);
      if 2 * pos + 1 < Width(n, height - 1) {
        BadStays(H, n, height - 1, 2 * pos + 1, bits, hashes, left.1);
      }
    }
  }

  lemma {:induction false} SoundNode(H: Combine, height: nat, pos: nat, txids: seq<Hash>, bits: seq<bool>,
      hashes: seq<Hash>, r: Reading)
    requires Injective(H) && IsNode(|txids|, height, pos) && |r.places| == |r.matches|
    requires var e := Extract(H, |txids|, height, pos, bits, hashes, r);
      !e.1.bad && e.0 == NodeHash(H, height, pos, txids)
    ensures Found(txids, r, Extract(H, |txids|, height, pos, bits, hashes, r).1, First(height, pos),
      End(|txids|, height, pos))
    decreases height
  {
    LeavesInOrder(|txids|, height, pos);
    if r.bitsUsed < |bits| && height > 0 && bits[r.bitsUsed] {
      SoundInner(H, height, pos, txids, bits, hashes, r);
    } else {
      assert Pow2(0) == 1;
    }
  }

  lemma {:induction false} SoundInner(H: Combine, height: nat, pos: nat, txids: seq<Hash>, bits: seq<bool>,
      hashes: seq<Hash>, r: Reading)
    requires Injective(H) && IsNode(|txids|, height, pos) && |r.places| == |r.matches|
    requires height > 0 && r.bitsUsed < |bits| && bits[r.bitsUsed]
    requires var e := Extract(H, |txids|, height, pos, bits, hashes, r);
      !e.1.bad && e.0 == NodeHash(H, height, pos, txids)
    ensures Found(txids, r, Extract(H, |txids|, height, pos, bits, hashes, r).1, First(height, pos),
      End(|txids|, height, pos))
    decreases height, 0
  {
    hide First, End, Found, Width, IsNode;
    var n := |txids|;
    Children(n, height, pos);
    LeavesSplit(n, height, pos);
    LeavesInOrder(n, height - 1, 2 * pos);
    ExtractInner(H, n, height, pos, bits, hashes, r);
    var r1 := r.(bitsUsed := r.bitsUsed + 1);
    var left := Extract(H, n, height - 1, 2 * pos, bits, hashes, r1);
    if 2 * pos + 1 < Width(n, height - 1) {
      LeavesInOrder(n, height - 1, 2 * pos + 1);
      var right := Extract(H, n, height - 1, 2 * pos + 1, bits, hashes, left.1);
      BadStays(H, n, height - 1, 2 * pos + 1, bits, hashes, left.1);
      SoundNode(H, height - 1, 2 * pos, txids, bits, hashes, r1);
      FoundLengths(txids, r1, left.1, First(height - 1, 2 * pos), End(n, height - 1, 2 * pos));
      SoundNode(H, height - 1, 2 * pos + 1, txids, bits, hashes, left.1);
      FoundBoth(txids, r1, left.1, right.1, First(height, pos), End(n, height - 1, 2 * pos), End(n, height, pos));
      FoundFrom(txids, r, r1, right.1, First(height, pos), End(n, height, pos));
    } else {
      SoundNode(H, height - 1, 2 * pos, txids, bits, hashes, r1);
      FoundFrom(txids, r, r1, left.1, First(height, pos), End(n, height, pos));
    }
  }

  lemma {:induction false} FoundLengths(txids: seq<Hash>, r: Reading, e: Reading, a: nat, b: nat)
    requires Found(txids, r, e, a, b)
    ensures |e.places| == |e.matches|
  {
  }

  lemma {:induction false} FoundFrom(txids: seq<Hash>, r: Reading, r1: Reading, e: Reading, a: nat, b: nat)
    requires Found(txids, r1, e, a, b) && r1.places == r.places && r1.matches == r.matches
    ensures Found(txids, r, e, a, b)
  {
  }

  // ---- How much is written ----

  /** Never more hashes than leaves, never fewer bits than hashes. */
  lemma {:induction false} HashesWithinLeaves(H: Combine, height: nat, pos: nat, txids: seq<Hash>, mask: seq<bool>)
    requires |mask| == |txids| && IsNode(|txids|, height, pos)
    ensures 1 <= |Hashes(H, height, pos, txids, mask)| <= End(|txids|, height, pos) - First(height, pos)
    decreases height
  {
    hide Matched;
    LeavesInOrder(|txids|, height, pos);
    if height > 0 && Matched(height, pos, mask) {
      Children(|txids|, height, pos);
      LeavesSplit(|txids|, height, pos);
      HashesWithinLeaves(H, height - 1, 2 * pos, txids, mask);
      if 2 * pos + 1 < Width(|txids|, height - 1) {
        HashesWithinLeaves(H, height - 1, 2 * pos + 1, txids, mask);
      }
    }
  }

  /** The number of matched leaves below a node. */
  function Matches(mask: seq<bool>, height: nat, pos: nat): nat
    requires IsNode(|mask|, height, pos)
  {
    LeavesInOrder(|mask|, height, pos);
    |Places(mask, First(height, pos), End(|mask|, height, pos))|
  }

  lemma {:induction false} MatchesSplit(mask: seq<bool>, height: nat, pos: nat)
    requires height > 0 && IsNode(|mask|, height, pos)
    ensures IsNode(|mask|, height - 1, 2 * pos)
    ensures Matches(mask, height, pos) ==
      if 2 * pos + 1 < Width(|mask|, height - 1)
      then (Children(|mask|, height, pos); Matches(mask, height - 1, 2 * pos) + Matches(mask, height - 1, 2 * pos + 1))
      else Matches(mask, height - 1, 2 * pos)
  {
    Children(|mask|, height, pos);
    LeavesSplit(|mask|, height, pos);
    LeavesInOrder(|mask|, height - 1, 2 * pos);
    LeavesInOrder(|mask|, height, pos);
    hide First, End, Width, IsNode;
    if 2 * pos + 1 < Width(|mask|, height - 1) {
      LeavesInOrder(|mask|, height - 1, 2 * pos + 1);
      PlacesSplit(mask, First(height, pos), End(|mask|, height - 1, 2 * pos), End(|mask|, height, pos));
    }
  }

  lemma {:induction false} PlacesOne(mask: seq<bool>, a: nat, b: nat, p: nat)
    requires a <= p < b <= |mask| && mask[p]
    ensures |Places(mask, a, b)| >= 1
    decreases b
  {
    if p < b - 1 {
      PlacesOne(mask, a, b - 1, p);
    }
  }

  lemma {:induction false} MatchedCounts(mask: seq<bool>, height: nat, pos: nat)
    requires IsNode(|mask|, height, pos)
    ensures Matched(height, pos, mask) ==> Matches(mask, height, pos) >= 1
  {
    LeavesInOrder(|mask|, height, pos);
    if Matched(height, pos, mask) {
      var p :| First(height, pos) <= p < End(|mask|, height, pos) && mask[p];
      PlacesOne(mask, First(height, pos), End(|mask|, height, pos), p);
    }
  }

  /** At most one hash per level and matched leaf, and one. */
  lemma {:induction false} HashesPerMatch(H: Combine, height: nat, pos: nat, txids: seq<Hash>, mask: seq<bool>)
    requires |mask| == |txids| && IsNode(|txids|, height, pos)
    ensures |Hashes(H, height, pos, txids, mask)| <= 1 + Matches(mask, height, pos) * height
    decreases height
  {
    hide Matches, Matched, Width, IsNode, NodeHash;
    if height > 0 && Matched(height, pos, mask) {
      MatchesSplit(mask, height, pos);
      MatchedCounts(mask, height, pos);
      Children(|txids|, height, pos);
      HashesPerMatch(H, height - 1, 2 * pos, txids, mask);
      var l := Matches(mask, height - 1, 2 * pos);
      if 2 * pos + 1 < Width(|txids|, height - 1) {
        HashesPerMatch(H, height - 1, 2 * pos + 1, txids, mask);
        PerLevel(l, Matches(mask, height - 1, 2 * pos + 1), height);
      } else {
        PerLevel(l, 0, height);
      }
    }
  }

  lemma {:induction false} PerLevel(l: nat, r: nat, height: nat)
    requires l + r >= 1 && height >= 1
    ensures 1 + l * (height - 1) + (1 + r * (height - 1)) <= 1 + (l + r) * height
  {
    assert (l + r) * height == l * (height - 1) + r * (height - 1) + (l + r);
  }

  /** The traversed nodes that have only one child. */
  function Singles(height: nat, pos: nat, mask: seq<bool>): nat
    decreases height
  {
    if height == 0 || !Matched(height, pos, mask) then 0
    else if 2 * pos + 1 < Width(|mask|, height - 1)
    then Singles(height - 1, 2 * pos, mask) + Singles(height - 1, 2 * pos + 1, mask)
    else 1 + Singles(height - 1, 2 * pos, mask)
  }

  /** The number of flag bits exactly: twice the hashes less one, and one more for every node
      on the way that has a single child. */
  lemma {:induction false} BitsCounted(H: Combine, height: nat, pos: nat, txids: seq<Hash>, mask: seq<bool>)
    requires |mask| == |txids| && IsNode(|txids|, height, pos)
    ensures |Bits(height, pos, mask)| == 2 * |Hashes(H, height, pos, txids, mask)| - 1 + Singles(height, pos, mask)
    decreases height
  {
    hide Matched, Width;
    if height > 0 && Matched(height, pos, mask) {
      Children(|txids|, height, pos);
      BitsCounted(H, height - 1, 2 * pos, txids, mask);
      if 2 * pos + 1 < Width(|txids|, height - 1) {
        BitsCounted(H, height - 1, 2 * pos + 1, txids, mask);
      }
    }
  }
}
