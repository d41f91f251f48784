/** The Merkle root of a block, level by level (src/primitives/block.cpp): the tree with its duplicated last nodes, what
    its mutation flag means, and branches. It is the root that partial trees are checked against. */
module MerkleRoot {
  import opened Powers
  import opened MerkleTree

  // ---- Levels ----

  /** The next level: neighbours are paired, an odd last node with itself. */
  function Up(H: Combine, s: seq<Hash>): (r: seq<Hash>)
    ensures |r| == (|s| + 1) / 2
    ensures forall i :: 0 <= i < |r| ==> r[i] == H(s[2 * i], s[if 2 * i + 1 < |s| then 2 * i + 1 else 2 * i])
  {
    seq((|s| + 1) / 2, i requires 0 <= i < (|s| + 1) / 2 =>
      H(s[2 * i], s[if 2 * i + 1 < |s| then 2 * i + 1 else 2 * i]))
  }

  function Root(H: Combine, s: seq<Hash>): Hash
    requires |s| > 0
    decreases |s|
  {
    if |s| == 1 then s[0] else Root(H, Up(H, s))
  }

  predicate SameEnd(s: seq<Hash>) {
    |s| > 1 && |s| % 2 == 0 && s[|s| - 2] == s[|s| - 1]
  }

  /** On some level the last two nodes are a pair of the same. */
  predicate Mutated(H: Combine, s: seq<Hash>)
    decreases |s|
  {
    |s| > 1 && (SameEnd(s) || Mutated(H, Up(H, s)))
  }

  /** All levels one after the other. */
  function Levels(H: Combine, s: seq<Hash>): seq<Hash>
    decreases |s|
  {
    if |s| <= 1 then s else s + Levels(H, Up(H, s))
  }

  /** The inner loop: one level is put behind the others. */
  method AddLevel(H: Combine, tree: seq<Hash>, j: nat, nSize: nat) returns (more: seq<Hash>, mutated: bool)
    requires j + nSize == |tree| && nSize > 1
    ensures more == tree + Up(H, tree[j..]) && mutated == SameEnd(tree[j..])
  {
    more, mutated := tree, false;
    ghost var level := tree[j..];
    var i := 0;
    while i < nSize
      invariant i % 2 == 0 && 0 <= i <= nSize + 1 && |more| == |tree| + i / 2 && tree <= more
      invariant forall k :: 0 <= k < i / 2 ==> more[|tree| + k] == Up(H, level)[k]
      invariant mutated == (i >= nSize && SameEnd(level))
    {
      var i2 := if i + 1 < nSize - 1 then i + 1 else nSize - 1;
      if i2 == i + 1 && i2 + 1 == nSize && more[j + i] == more[j + i2] {
        mutated := true;
      }
      assert more[j + i] == level[i] && more[j + i2] == level[i2];
      more := more + [H(more[j + i], more[j + i2])];
      i := i + 2;
    }
    assert more == tree + Up(H, level);
  }

  lemma {:induction false} OneLevel(H: Combine, s: seq<Hash>)
    requires |s| > 1
    ensures Levels(H, s) == s + Levels(H, Up(H, s)) && Root(H, s) == Root(H, Up(H, s))
    ensures Mutated(H, s) <==> SameEnd(s) || Mutated(H, Up(H, s))
  {
  }

  lemma {:induction false} LastLevel(H: Combine, s: seq<Hash>)
    requires |s| <= 1
    ensures Levels(H, s) == s && !Mutated(H, s) && (s != [] ==> Root(H, s) == s[0])
  {
  }

  /** `BuildMerkleTree`: the levels, the root (0 for no transactions), and the mutation flag. */
  method BuildMerkleTree(H: Combine, txids: seq<Hash>) returns (tree: seq<Hash>, root: Hash, mutated: bool)
    ensures tree == Levels(H, txids)
    ensures root == if txids == [] then 0 else Root(H, txids)
    ensures mutated == Mutated(H, txids)
  {
    hide Up, Levels, Root, Mutated, SameEnd;
    tree, mutated := txids, false;
    var j, nSize := 0, |txids|;
    assert tree[j..] == txids && tree[..j] == [];
    while nSize > 1
      invariant 0 <= j && 0 <= nSize && j + nSize == |tree| && (txids == [] <==> nSize == 0)
      invariant tree[..j] + Levels(H, tree[j..]) == Levels(H, txids)
      invariant nSize > 0 ==> Root(H, tree[j..]) == Root(H, txids)
      invariant mutated || Mutated(H, tree[j..]) <==> Mutated(H, txids)
      decreases nSize
    {
      ghost var early, level := tree[..j], tree[j..];
      var same;
      OneLevel(H, level);
      tree, same := AddLevel(H, tree, j, nSize);
      mutated := mutated || same;
      j := j + nSize;
      nSize := (nSize + 1) / 2;
      assert tree[..j] == early + level && tree[j..] == Up(H, level);
      assert early + (level + Levels(H, Up(H, level))) == early + level + Levels(H, Up(H, level));
    }
    LastLevel(H, tree[j..]);
    assert tree[..j] + tree[j..] == tree;
    root := if |tree| == 0 then 0 else tree[|tree| - 1];
  }

  // ---- The root of the recursive tree ----

  function Level(H: Combine, s: seq<Hash>, k: nat): seq<Hash> {
    if k == 0 then s else Up(H, Level(H, s, k - 1))
  }

  lemma {:induction false} NextWidth(n: nat, k: nat)
    ensures Width(n, k + 1) == (Width(n, k) + 1) / 2
  {
    hide Width, IsNode;
    var w, v := Width(n, k), Width(n, k + 1);
    forall pos: nat ensures pos < v <==> 2 * pos < w {
      Children(n, k + 1, pos);
      WidthBound(n, k + 1, pos);
      WidthBound(n, k, 2 * pos);
      assert IsNode(n, k + 1, pos) == (pos < v) && IsNode(n, k, 2 * pos) == (2 * pos < w) by {
        NodeWidth(n, k + 1, pos);
        NodeWidth(n, k, 2 * pos);
      }
    }
    assert !(2 * v < w);
    assert v > 0 ==> 2 * (v - 1) < w by {
      if v > 0 { assert v - 1 < v; }
    }
  }

  lemma {:induction false} NodeWidth(n: nat, k: nat, pos: nat)
    ensures IsNode(n, k, pos) <==> pos < Width(n, k)
  {
    WidthBound(n, k, pos);
  }

  /** The levels hold the hashes of the nodes. */
  lemma {:induction false} LevelIsNodes(H: Combine, txids: seq<Hash>, k: nat)
    ensures |Level(H, txids, k)| == Width(|txids|, k)
    ensures forall pos :: 0 <= pos < Width(|txids|, k) ==>
      IsNode(|txids|, k, pos) && Level(H, txids, k)[pos] == NodeHash(H, k, pos, txids)
  {
    hide Width, IsNode;
    var n := |txids|;
    if k == 0 {
      Leaves(n);
    } else {
      LevelIsNodes(H, txids, k - 1);
      NextWidth(n, k - 1);
      var below, level := Level(H, txids, k - 1), Level(H, txids, k);
      forall pos: nat | pos < Width(n, k) ensures IsNode(n, k, pos) && level[pos] == NodeHash(H, k, pos, txids) {
        NodeWidth(n, k, pos);
        Children(n, k, pos);
      }
    }
    forall pos: nat | pos < Width(n, k) ensures IsNode(n, k, pos) {
      NodeWidth(n, k, pos);
    }
  }

  lemma {:induction false} Leaves(n: nat)
    ensures Width(n, 0) == n && forall pos: nat :: IsNode(n, 0, pos) <==> pos < n
  {
    assert Pow2(0) == 1;
  }

  lemma {:induction false} RootOfLevel(H: Combine, txids: seq<Hash>, k: nat)
    requires |txids| > 0 && forall i :: 0 <= i < k ==> Width(|txids|, i) > 1
    ensures |Level(H, txids, k)| > 0 && Root(H, Level(H, txids, k)) == Root(H, txids)
  {
    hide Width, Up;
    if k > 0 {
      RootOfLevel(H, txids, k - 1);
      LevelIsNodes(H, txids, k - 1);
    }
  }

  /** The hash at the top of the recursive tree is the Merkle root. */
  lemma {:induction false} TopIsRoot(H: Combine, txids: seq<Hash>, height: nat)
    requires |txids| > 0 && Width(|txids|, height) == 1 && forall i :: 0 <= i < height ==> Width(|txids|, i) > 1
    ensures IsNode(|txids|, height, 0) && NodeHash(H, height, 0, txids) == Root(H, txids)
  {
    hide Width, IsNode, NodeHash;
    RootOfLevel(H, txids, height);
    LevelIsNodes(H, txids, height);
    NodeWidth(|txids|, height, 0);
  }

  // ---- Branches ----

  /** The other node of a pair; the last node of an odd level is its own. */
  function Other(s: seq<Hash>, i: nat): Hash
    requires i < |s|
  {
    if i % 2 == 1 then s[i - 1] else if i + 1 < |s| then s[i + 1] else s[i]
  }

  function Branch(H: Combine, s: seq<Hash>, i: nat): seq<Hash>
    requires i < |s|
    decreases |s|
  {
    if |s| == 1 then [] else [Other(s, i)] + Branch(H, Up(H, s), i / 2)
  }

  /** What stands where in the levels. */
  lemma {:induction false} LevelsNext(H: Combine, s: seq<Hash>, tree: seq<Hash>, j: nat)
    requires |s| > 1 && j <= |tree| && tree[j..] == Levels(H, s)
    ensures j + |s| <= |tree| && tree[j + |s|..] == Levels(H, Up(H, s))
    ensures forall i :: 0 <= i < |s| ==> tree[j + i] == s[i]
  {
    hide Up;
    assert tree[j + |s|..] == tree[j..][|s|..];
    forall i | 0 <= i < |s| ensures tree[j + i] == s[i] {
      assert tree[j..][i] == s[i];
    }
  }

  lemma {:induction false} BranchNext(H: Combine, s: seq<Hash>, i: nat, branch: seq<Hash>, all: seq<Hash>)
    requires |s| > 1 && i < |s| && branch + Branch(H, s, i) == all
    ensures i / 2 < |Up(H, s)| && branch + [Other(s, i)] + Branch(H, Up(H, s), i / 2) == all
  {
    var rest := Branch(H, Up(H, s), i / 2);
    assert branch + ([Other(s, i)] + rest) == branch + [Other(s, i)] + rest;
  }

  /** `GetMerkleBranch`, on the tree that was built. */
  method GetMerkleBranch(H: Combine, txids: seq<Hash>, nIndex: nat) returns (branch: seq<Hash>)
    requires nIndex < |txids|
    ensures branch == Branch(H, txids, nIndex)
  {
    hide Levels, Up, Branch, Root, Mutated;
    var tree, _, _ := BuildMerkleTree(H, txids);
    branch := [];
    var j, index, nSize := 0, nIndex, |txids|;
    ghost var level, all := txids, Branch(H, txids, nIndex);
    assert tree[0..] == tree && branch + all == all;
    while nSize > 1
      invariant 0 <= j <= |tree| && 0 <= index < nSize == |level| && tree[j..] == Levels(H, level)
      invariant branch + Branch(H, level, index) == all
      decreases nSize
    {
      LevelsNext(H, level, tree, j);
      BranchNext(H, level, index, branch, all);
      var flipped := if index % 2 == 0 then index + 1 else index - 1;
      var i := if flipped < nSize - 1 then flipped else nSize - 1;
      branch := branch + [tree[j + i]];
      index, j, level, nSize := index / 2, j + nSize, Up(H, level), (nSize + 1) / 2;
    }
    BranchEnds(H, level, branch, all);
  }

  lemma {:induction false} BranchEnds(H: Combine, s: seq<Hash>, branch: seq<Hash>, all: seq<Hash>)
    requires |s| == 1 && branch + Branch(H, s, 0) == all
    ensures branch == all
  {
    assert branch + [] == branch;
  }

  function Climb(H: Combine, hash: Hash, branch: seq<Hash>, index: nat): Hash
    decreases |branch|
  {
    if branch == [] then hash
    else Climb(H, if index % 2 == 1 then H(branch[0], hash) else H(hash, branch[0]), branch[1..], index / 2)
  }

  /** `CheckMerkleBranch`; -1 stands for no index. */
  method CheckMerkleBranch(H: Combine, hash: Hash, branch: seq<Hash>, nIndex: int) returns (r: Hash)
    requires nIndex >= -1
    ensures r == if nIndex == -1 then 0 else Climb(H, hash, branch, nIndex)
  {
    if nIndex == -1 {
      return 0;
    }
    r := hash;
    var index := nIndex;
    for k := 0 to |branch|
      invariant 0 <= index && Climb(H, r, branch[k..], index) == Climb(H, hash, branch, nIndex)
    {
      assert branch[k..][1..] == branch[k + 1..];
      if index % 2 == 1 {
        r := H(branch[k], r);
      } else {
        r := H(r, branch[k]);
      }
      index := index / 2;
    }
  }

  /** The branch of a transaction leads to the root. */
  lemma {:induction false} BranchLeadsToRoot(H: Combine, s: seq<Hash>, i: nat)
    requires i < |s|
    ensures Climb(H, s[i], Branch(H, s, i), i) == Root(H, s)
    decreases |s|
  {
    if |s| > 1 {
      BranchLeadsToRoot(H, Up(H, s), i / 2);
      assert ([Other(s, i)] + Branch(H, Up(H, s), i / 2))[1..] == Branch(H, Up(H, s), i / 2);
      assert i == if i % 2 == 1 then 2 * (i / 2) + 1 else 2 * (i / 2);
    }
  }
}
