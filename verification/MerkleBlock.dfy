/** `CPartialMerkleTree` (src/merkleblock.cpp, src/merkleblock.h): building, packing the flag
    bits into bytes, unpacking and extracting. */
module MerkleBlock {
  import opened Results
  import opened Powers
  import opened MerkleTree
  import opened MerkleRoot

  const MAX_BLOCK_SIZE := 2_000_000

  // ---- The height of the tree ----

  lemma {:induction false} PowGrows(height: nat)
    ensures Pow2(height) > height
  {
    if height > 0 {
      PowGrows(height - 1);
    }
  }

  function HeightFrom(n: nat, height: nat): (r: nat)
    ensures r >= height && Width(n, r) <= 1
    decreases if n > height then n - height else 0
  {
    if Width(n, height) <= 1 then height
    else
      PowGrows(height);
      WidthBound(n, height, 1);
      HeightFrom(n, height + 1)
  }

  function TreeHeight(n: nat): nat {
    HeightFrom(n, 0)
  }

  lemma {:induction false} HeightIsLeast(n: nat, height: nat)
    ensures forall k :: height <= k < HeightFrom(n, height) ==> Width(n, k) > 1
    decreases if n > height then n - height else 0
  {
    hide Width;
    if Width(n, height) > 1 {
      PowGrows(height);
      WidthBound(n, height, 1);
      HeightIsLeast(n, height + 1);
    }
  }

  /** The height is the first at which a single node is left, and the hash of that node is the Merkle root. */
  lemma {:induction false} TopOfTree(H: Combine, txids: seq<Hash>)
    requires |txids| > 0
    ensures Width(|txids|, TreeHeight(|txids|)) == 1
    ensures forall k :: 0 <= k < TreeHeight(|txids|) ==> Width(|txids|, k) > 1
    ensures IsNode(|txids|, TreeHeight(|txids|), 0)
    ensures NodeHash(H, TreeHeight(|txids|), 0, txids) == Root(H, txids)
  {
    hide NodeHash;
    var n := |txids|;
    HeightIsLeast(n, 0);
    WidthBound(n, TreeHeight(n), 0);
    hide Width, IsNode, HeightFrom;
    TopIsRoot(H, txids, TreeHeight(n));
  }

  lemma {:induction false} RootCoversAll(n: nat)
    requires n > 0
    ensures IsNode(n, TreeHeight(n), 0) && First(TreeHeight(n), 0) == 0 && End(n, TreeHeight(n), 0) == n
  {
    WidthBound(n, TreeHeight(n), 1);
  }

  // ---- Bits and bytes ----

  function Bit(k: nat): bv8
    requires k < 8
  {
    match k case 0 => 1 case 1 => 2 case 2 => 4 case 3 => 8 case 4 => 16 case 5 => 32 case 6 => 64 case _ => 128
  }

  function IsSet(b: bv8, k: nat): bool
    requires k < 8
  {
    b & Bit(k) != 0
  }

  lemma {:induction false} SetBit(b: bv8, k: nat, j: nat)
    requires k < 8 && j < 8
    ensures IsSet(b | Bit(k), j) <==> (k == j || IsSet(b, j))
    ensures !IsSet(0, j)
  {
  }

  function Unpacked(bytes: seq<bv8>): (bits: seq<bool>)
    ensures |bits| == 8 * |bytes| && forall p :: 0 <= p < |bits| ==> bits[p] == IsSet(bytes[p / 8], p % 8)
  {
    seq(8 * |bytes|, p requires 0 <= p < 8 * |bytes| => IsSet(bytes[p / 8], p % 8))
  }

  /** The writing half of `SerializationOp`. */
  method Pack(bits: seq<bool>) returns (bytes: seq<bv8>)
    ensures |bytes| == (|bits| + 7) / 8
    ensures bits <= Unpacked(bytes)
    ensures forall p :: |bits| <= p < 8 * |bytes| ==> !Unpacked(bytes)[p]
  {
    hide IsSet, Bit;
    bytes := seq((|bits| + 7) / 8, _ => 0);
    forall p | 0 <= p < 8 * |bytes| ensures !IsSet(bytes[p / 8], p % 8) {
      SetBit(0, 0, p % 8);
    }
    for p := 0 to |bits|
      invariant |bytes| == (|bits| + 7) / 8
      invariant forall q :: 0 <= q < p ==> IsSet(bytes[q / 8], q % 8) == bits[q]
      invariant forall q :: p <= q < 8 * |bytes| ==> !IsSet(bytes[q / 8], q % 8)
    {
      if bits[p] {
        ghost var before := bytes;
        bytes := bytes[p / 8 := bytes[p / 8] | Bit(p % 8)];
        forall q | 0 <= q < 8 * |bytes| ensures IsSet(bytes[q / 8], q % 8) == (q == p || IsSet(before[q / 8], q % 8)) {
          SetBit(before[p / 8], p % 8, q % 8);
        }
      }
    }
  }

  /** The reading half. */
  method Unpack(bytes: seq<bv8>) returns (bits: seq<bool>)
    ensures bits == Unpacked(bytes)
  {
    bits := [];
    for p := 0 to 8 * |bytes|
      invariant |bits| == p && forall q :: 0 <= q < p ==> bits[q] == IsSet(bytes[q / 8], q % 8)
    {
      bits := bits + [IsSet(bytes[p / 8], p % 8)];
    }
  }

  // ---- Extraction ----

  const START := Reading(0, 0, [], [], false)

  /** `ExtractMatches`: the root, or nothing when the tree is malformed. */
  function Extracted(H: Combine, n: nat, bits: seq<bool>, hashes: seq<Hash>, bad: bool): (Option<Hash>, seq<Hash>) {
    if n == 0 || n > MAX_BLOCK_SIZE / 60 || |hashes| > n || |bits| < |hashes| then (None, [])
    else
      var e := Extract(H, n, TreeHeight(n), 0, bits, hashes, START.(bad := bad));
      if e.1.bad || (e.1.bitsUsed + 7) / 8 != (|bits| + 7) / 8 || e.1.hashUsed != |hashes| then (None, e.1.matches)
      else (Some(e.0), e.1.matches)
  }

  class PartialMerkleTree {
    const H: Combine
    var nTransactions: nat
    var vBits: seq<bool>
    var vHash: seq<Hash>
    var bad: bool

    /** The method `TraverseAndBuild`. */
    method TraverseAndBuild(height: nat, pos: nat, txids: seq<Hash>, mask: seq<bool>)
      requires nTransactions == |txids| == |mask| && IsNode(|txids|, height, pos)
      modifies this`vBits, this`vHash
      ensures vBits == old(vBits) + Bits(height, pos, mask)
      ensures vHash == old(vHash) + Hashes(H, height, pos, txids, mask)
      decreases height
    {
      hide IsNode, Width, NodeHash, Matched, Bits, Hashes;
      Written(H, height, pos, txids, mask);
      ghost var bits, hashes := vBits, vHash;
      var parentOfMatch := IsMatched(height, pos, mask);
      vBits := vBits + [parentOfMatch];
      if height == 0 || !parentOfMatch {
        vHash := vHash + [NodeHash(H, height, pos, txids)];
      } else {
        TraverseAndBuild(height - 1, 2 * pos, txids, mask);
        ghost var leftBits, leftHashes := Bits(height - 1, 2 * pos, mask), Hashes(H, height - 1, 2 * pos, txids, mask);
        assert vBits == bits + ([true] + leftBits);
        if 2 * pos + 1 < Width(nTransactions, height - 1) {
          TraverseAndBuild(height - 1, 2 * pos + 1, txids, mask);
          assert vBits == bits + ([true] + leftBits + Bits(height - 1, 2 * pos + 1, mask));
          assert vHash == hashes + (leftHashes + Hashes(H, height - 1, 2 * pos + 1, txids, mask));
        }
      }
    }

    constructor (H: Combine, txids: seq<Hash>, mask: seq<bool>)
      requires 0 < |txids| == |mask|
      ensures this.H == H && nTransactions == |txids| && !bad
      ensures vBits == Bits(TreeHeight(|txids|), 0, mask)
      ensures IsNode(|txids|, TreeHeight(|txids|), 0) && vHash == Hashes(H, TreeHeight(|txids|), 0, txids, mask)
    {
      this.H := H;
      nTransactions, vBits, vHash, bad := |txids|, [], [], false;
      new;
      RootCoversAll(|txids|);
      var height := FindHeight(nTransactions);
      TraverseAndBuild(height, 0, txids, mask);
    }

    /** What arrives from the network. */
    constructor Received(H: Combine, nTransactions: nat, vHash: seq<Hash>, vBytes: seq<bv8>)
      ensures this.H == H && this.nTransactions == nTransactions && this.vHash == vHash && vBits == Unpacked(vBytes)
        && !bad
    {
      this.H, this.nTransactions, this.vHash, bad := H, nTransactions, vHash, false;
      var bits := Unpack(vBytes);
      vBits := bits;
    }

    /** The method `TraverseAndExtract`; the counters and the list of matches travel in `r`. */
    method TraverseAndExtract(height: nat, pos: nat, r: Reading) returns (hash: Hash, e: Reading)
      ensures (hash, e) == Extract(H, nTransactions, height, pos, vBits, vHash, r)
      decreases height
    {
      hide Width;
      e := r;
      if e.bitsUsed >= |vBits| {
        return 0, e.(bad := true);
      }
      var parentOfMatch := vBits[e.bitsUsed];
      e := e.(bitsUsed := e.bitsUsed + 1);
      if height == 0 || !parentOfMatch {
        if e.hashUsed >= |vHash| {
          return 0, e.(bad := true);
        }
        hash := vHash[e.hashUsed];
        e := e.(hashUsed := e.hashUsed + 1);
        if height == 0 && parentOfMatch {
          e := e.(matches := e.matches + [hash], places := e.places + [pos]);
        }
        return;
      }
      var left, right;
      left, e := TraverseAndExtract(height - 1, 2 * pos, e);
      if 2 * pos + 1 < Width(nTransactions, height - 1) {
        right, e := TraverseAndExtract(height - 1, 2 * pos + 1, e);
        if right == left {
          e := e.(bad := true);
        }
      } else {
        right := left;
      }
      hash := H(left, right);
    }

    method ExtractMatches() returns (root: Option<Hash>, matches: seq<Hash>)
      modifies this`bad
      ensures (root, matches) == Extracted(H, nTransactions, vBits, vHash, old(bad))
    {
      hide Extract;
      matches := [];
      if nTransactions == 0 || nTransactions > MAX_BLOCK_SIZE / 60 || |vHash| > nTransactions || |vBits| < |vHash| {
        return None, [];
      }
      var height := FindHeight(nTransactions);
      var hash, e := TraverseAndExtract(height, 0, START.(bad := bad));
      matches := e.matches;
      bad := e.bad;
      if bad || (e.bitsUsed + 7) / 8 != (|vBits| + 7) / 8 || e.hashUsed != |vHash| {
        return None, matches;
      }
      root := Some(hash);
    }
  }

  lemma {:induction false} Written(H: Combine, height: nat, pos: nat, txids: seq<Hash>, mask: seq<bool>)
    requires |txids| == |mask| && IsNode(|txids|, height, pos)
    ensures height == 0 || !Matched(height, pos, mask) ==>
      Bits(height, pos, mask) == [Matched(height, pos, mask)]
        && Hashes(H, height, pos, txids, mask) == [NodeHash(H, height, pos, txids)]
    ensures height > 0 ==> IsNode(|txids|, height - 1, 2 * pos)
    ensures height > 0 && Matched(height, pos, mask) && 2 * pos + 1 < Width(|txids|, height - 1) ==>
      && IsNode(|txids|, height - 1, 2 * pos + 1)
      && Bits(height, pos, mask) == [true] + Bits(height - 1, 2 * pos, mask) + Bits(height - 1, 2 * pos + 1, mask)
      && Hashes(H, height, pos, txids, mask) == Hashes(H, height - 1, 2 * pos, txids, mask) + Hashes(H, height - 1,
        2 * pos + 1, txids, mask)
    ensures height > 0 && Matched(height, pos, mask) && 2 * pos + 1 >= Width(|txids|, height - 1) ==>
      && Bits(height, pos, mask) == [true] + Bits(height - 1, 2 * pos, mask)
      && Hashes(H, height, pos, txids, mask) == Hashes(H, height - 1, 2 * pos, txids, mask)
  {
    hide IsNode, Width, NodeHash, Matched;
    if height > 0 {
      Children(|txids|, height, pos);
    }
  }

  /** The loop that finds out whether a node is the parent of a match. */
  method IsMatched(height: nat, pos: nat, mask: seq<bool>) returns (found: bool)
    ensures found == Matched(height, pos, mask)
  {
    found := false;
    var p := First(height, pos);
    while p < (pos + 1) * Pow2(height) && p < |mask|
      invariant First(height, pos) <= p
      invariant found <==> exists q :: First(height, pos) <= q < p && q < End(|mask|, height, pos) && mask[q]
      invariant p <= End(|mask|, height, pos) || p == First(height, pos)
      decreases |mask| - p
    {
      found := found || mask[p];
      p := p + 1;
    }
  }

  method FindHeight(n: nat) returns (height: nat)
    ensures height == TreeHeight(n)
  {
    height := 0;
    while Width(n, height) > 1
      invariant HeightFrom(n, height) == TreeHeight(n)
      decreases if n > height then n - height else 0
    {
      PowGrows(height);
      WidthBound(n, height, 1);
      height := height + 1;
    }
  }

  // ---- The theorems ----

  lemma {:induction false} ReadAll(H: Combine, txids: seq<Hash>, mask: seq<bool>, bits: seq<bool>)
    requires Injective(H) && DistinctHashes(txids) && 0 < |txids| == |mask|
    requires Bits(TreeHeight(|txids|), 0, mask) <= bits
    ensures IsNode(|txids|, TreeHeight(|txids|), 0)
    ensures var height := TreeHeight(|txids|);
      var hashes := Hashes(H, height, 0, txids, mask);
      Extract(H, |txids|, height, 0, bits, hashes, START) ==
        (NodeHash(H, height, 0, txids),
         Reading(|Bits(height, 0, mask)|, |hashes|, Selected(txids, mask, 0, |txids|), Places(mask, 0, |txids|), false))
  {
    hide Bits, Hashes, NodeHash, First, End, IsNode, Injective, DistinctHashes, Selected, Places, Extract, TreeHeight;
    RootCoversAll(|txids|);
    var height := TreeHeight(|txids|);
    var hashes := Hashes(H, height, 0, txids, mask);
    assert Next(bits, 0, Bits(height, 0, mask)) && Next(hashes, 0, hashes);
    ReadNode(H, height, 0, txids, mask, bits, hashes, START);
    assert [] + Selected(txids, mask, 0, |txids|) == Selected(txids, mask, 0, |txids|);
    assert [] + Places(mask, 0, |txids|) == Places(mask, 0, |txids|);
  }

  lemma {:induction false} ExtractsTop(H: Combine, txids: seq<Hash>, mask: seq<bool>, bytes: seq<bv8>)
    requires Injective(H) && DistinctHashes(txids) && 0 < |txids| == |mask| && |txids| <= MAX_BLOCK_SIZE / 60
    requires var bits := Bits(TreeHeight(|txids|), 0, mask);
      |bytes| == (|bits| + 7) / 8 && bits <= Unpacked(bytes)
    ensures IsNode(|txids|, TreeHeight(|txids|), 0)
    ensures Extracted(H, |txids|, Unpacked(bytes), Hashes(H, TreeHeight(|txids|), 0, txids, mask), false)
         == (Some(NodeHash(H, TreeHeight(|txids|), 0, txids)), Selected(txids, mask, 0, |txids|))
  {
    RootCoversAll(|txids|);
    var height := TreeHeight(|txids|);
    var bits := Bits(height, 0, mask);
    HashesWithinLeaves(H, height, 0, txids, mask);
    BitsCounted(H, height, 0, txids, mask);
    ReadAll(H, txids, mask, Unpacked(bytes));
    hide Bits, Hashes, NodeHash, First, End, IsNode, Injective, DistinctHashes, Selected, Places, Extract, Unpacked;
    assert START.(bad := false) == START;
    assert (|bits| + 7) / 8 == (8 * |bytes| + 7) / 8;
  }

  /** Building a tree, packing its bits, and extracting on the other side gives the Merkle root of the block
      and exactly the matched transactions, in order. */
  lemma {:induction false} RoundTrip(H: Combine, txids: seq<Hash>, mask: seq<bool>, bytes: seq<bv8>)
    requires Injective(H) && DistinctHashes(txids) && 0 < |txids| == |mask| && |txids| <= MAX_BLOCK_SIZE / 60
    requires var bits := Bits(TreeHeight(|txids|), 0, mask);
      |bytes| == (|bits| + 7) / 8 && bits <= Unpacked(bytes)
    ensures IsNode(|txids|, TreeHeight(|txids|), 0)
    ensures Extracted(H, |txids|, Unpacked(bytes), Hashes(H, TreeHeight(|txids|), 0, txids, mask), false)
         == (Some(Root(H, txids)), Selected(txids, mask, 0, |txids|))
  {
    hide Bits, Hashes, NodeHash, IsNode, Injective, DistinctHashes, Selected, Extracted, Unpacked, Root, TreeHeight;
    TopOfTree(H, txids);
    ExtractsTop(H, txids, mask, bytes);
  }

  /** A tree is accepted only for a possible number of transactions, with every hash used and no bit too many but the
      padding of the last byte. */
  lemma {:induction false} AcceptedIsTight(H: Combine, n: nat, bits: seq<bool>, hashes: seq<Hash>)
    requires Extracted(H, n, bits, hashes, false).0.Some?
    ensures 0 < n && 60 * n <= MAX_BLOCK_SIZE && |hashes| <= n && |hashes| <= |bits|
    ensures var e := Extract(H, n, TreeHeight(n), 0, bits, hashes, START).1;
      && !e.bad && e.hashUsed == |hashes|
      && (|bits| % 8 == 0 && e.bitsUsed <= |bits| ==> |bits| - e.bitsUsed < 8)
  {
    hide Extract, TreeHeight;
    assert START.(bad := false) == START;
  }

  /** Any tree for as many transactions that leads to the Merkle root of the block reports only transactions
      of the block, at increasing positions. */
  lemma {:induction false} Soundness(H: Combine, txids: seq<Hash>, bits: seq<bool>, hashes: seq<Hash>)
      returns (places: seq<nat>)
    requires Injective(H) && 0 < |txids|
    requires Extracted(H, |txids|, bits, hashes, false).0 == Some(Root(H, txids))
    ensures var matches := Extracted(H, |txids|, bits, hashes, false).1;
      && |places| == |matches|
      && (forall i :: 0 <= i < |places| ==> places[i] < |txids| && matches[i] == txids[places[i]])
      && (forall i, j :: 0 <= i < j < |places| ==> places[i] < places[j])
  {
    RootCoversAll(|txids|);
    TopOfTree(H, txids);
    var height := TreeHeight(|txids|);
    SoundNode(H, height, 0, txids, bits, hashes, START);
    places := Extract(H, |txids|, height, 0, bits, hashes, START).1.places;
  }

  /** The number of hashes is bounded by the transactions, and by one more than the matched
      transactions times the height of the tree. */
  lemma {:induction false} HashBounds(H: Combine, txids: seq<Hash>, mask: seq<bool>)
    requires 0 < |txids| == |mask|
    ensures IsNode(|txids|, TreeHeight(|txids|), 0)
    ensures var count := |Hashes(H, TreeHeight(|txids|), 0, txids, mask)|;
      count <= |txids| && count <= 1 + |Places(mask, 0, |txids|)| * TreeHeight(|txids|)
  {
    RootCoversAll(|txids|);
    HashesWithinLeaves(H, TreeHeight(|txids|), 0, txids, mask);
    HashesPerMatch(H, TreeHeight(|txids|), 0, txids, mask);
  }

  /** The bits number at most twice the hashes less one exactly when no node on the way to a
      match has a single child, and not always. */
  lemma {:induction false} BitBound(H: Combine, txids: seq<Hash>, mask: seq<bool>)
    requires 0 < |txids| == |mask|
    ensures IsNode(|txids|, TreeHeight(|txids|), 0)
    ensures var height := TreeHeight(|txids|);
      |Bits(height, 0, mask)| <= 2 * |Hashes(H, height, 0, txids, mask)| - 1 <==> Singles(height, 0, mask) == 0
  {
    RootCoversAll(|txids|);
    BitsCounted(H, TreeHeight(|txids|), 0, txids, mask);
  }

  lemma {:induction false} BitBoundFails(H: Combine, a: Hash, b: Hash, c: Hash)
    ensures TreeHeight(3) == 2 && IsNode(3, 2, 0)
    ensures |Bits(2, 0, [false, false, true])| == 4 && |Hashes(H, 2, 0, [a, b, c], [false, false, true])| == 2
  {
    hide NodeHash, Matched, First, End, Pow2, Width, IsNode, HeightFrom;
    var mask, txids := [false, false, true], [a, b, c];
    HeightOfThree();
    MaskOfThree();
    assert Bits(1, 0, mask) == [false] && Bits(0, 2, mask) == [true];
    assert Bits(1, 1, mask) == [true, true];
    assert |Hashes(H, 1, 0, txids, mask)| == 1 && |Hashes(H, 0, 2, txids, mask)| == 1;
    assert |Hashes(H, 1, 1, txids, mask)| == 1;
  }

  lemma {:induction false} HeightOfThree()
    ensures TreeHeight(3) == 2 && Width(3, 0) == 3 && Width(3, 1) == 2 && Width(3, 2) == 1
    ensures IsNode(3, 2, 0) && IsNode(3, 1, 0) && IsNode(3, 1, 1) && IsNode(3, 0, 2)
  {
    assert Pow2(0) == 1 && Pow2(1) == 2 && Pow2(2) == 4;
    assert HeightFrom(3, 2) == 2;
  }

  lemma {:induction false} MaskOfThree()
    ensures var mask := [false, false, true];
      Matched(0, 2, mask) && Matched(1, 1, mask) && Matched(2, 0, mask) && !Matched(1, 0, mask)
  {
    var mask := [false, false, true];
    assert Pow2(0) == 1 && Pow2(1) == 2 && Pow2(2) == 4;
    assert mask[2];
    assert First(0, 2) <= 2 < End(3, 0, 2) && First(1, 1) <= 2 < End(3, 1, 1) && First(2, 0) <= 2 < End(3, 2, 0);
  }
}
