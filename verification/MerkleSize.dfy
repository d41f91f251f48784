/** How large a partial Merkle tree gets when it is sent (src/merkleblock.h). */
module MerkleSize {
  import opened Powers
  import opened MerkleTree
  import opened MerkleBlock

  // ---- Single children, level by level ----

  lemma {:induction false} WidthStep(n: nat, height: nat)
    requires height > 0
    ensures Width(n, height) == (Width(n, height - 1) + 1) / 2
  {
    var p, w := Pow2(height - 1), Width(n, height - 1);
    var r := (n + p - 1) % p;
    assert n + p - 1 == w * p + r;
    assert n + 2 * p - 1 == (w + 1) * p + r;
    if (w + 1) % 2 == 0 {
      var k := (w + 1) / 2;
      assert (2 * k) * p == k * (2 * p);
      DivUnique(n + 2 * p - 1, 2 * p, k, r);
    } else {
      var k := w / 2;
      assert (2 * k + 1) * p == k * (2 * p) + p;
      DivUnique(n + 2 * p - 1, 2 * p, k, p + r);
    }
  }

  /** The last node of a level. */
  function Last(n: nat, height: nat): int {
    Width(n, height) - 1
  }

  /** The levels, up to the given one, whose last node is on the way to a match and has a single child, because the
      level below has an odd number of nodes. */
  function OddLevels(height: nat, mask: seq<bool>): nat {
    if height == 0 then 0
    else OddLevels(height - 1, mask) + (if OddBelow(height, mask) then 1 else 0)
  }

  predicate OddBelow(height: nat, mask: seq<bool>)
    requires height > 0
  {
    Width(|mask|, height - 1) % 2 == 1 && Last(|mask|, height) >= 0 && Matched(height, Last(|mask|, height), mask)
  }

  /** A match below the last node of a level is below the last node of the next. */
  lemma {:induction false} MatchedAbove(height: nat, pos: nat, mask: seq<bool>)
    requires height > 0 && Matched(height - 1, pos, mask)
    ensures Matched(height, pos / 2, mask)
  {
    var p :| First(height - 1, pos) <= p < End(|mask|, height - 1, pos) && mask[p];
    var w := Pow2(height - 1);
    var q := pos / 2;
    Halving(pos, w);
    assert First(height, q) <= p < End(|mask|, height, q);
  }

  lemma {:induction false} Halving(pos: nat, w: nat)
    ensures pos / 2 * (2 * w) <= pos * w && (pos + 1) * w <= (pos / 2 + 1) * (2 * w)
  {
    var q := pos / 2;
    assert pos == 2 * q || pos == 2 * q + 1;
    assert (2 * q) * w == q * (2 * w);
    assert (2 * q + 1) * w == q * (2 * w) + w;
    assert (2 * q + 2) * w == (q + 1) * (2 * w);
  }

  lemma {:induction false} NoneOdd(height: nat, mask: seq<bool>)
    requires |mask| > 0 && !Matched(height, Last(|mask|, height), mask)
    ensures OddLevels(height, mask) == 0
  {
    hide Matched, Width;
    if height > 0 {
      WidthStep(|mask|, height);
      SomeNode(|mask|, height - 1);
      if Matched(height - 1, Last(|mask|, height - 1), mask) {
        MatchedAbove(height, Last(|mask|, height - 1), mask);
      } else {
        NoneOdd(height - 1, mask);
      }
    }
  }

  lemma {:induction false} SomeNode(n: nat, height: nat)
    requires n > 0
    ensures Width(n, height) > 0
  {
    WidthBound(n, height, 0);
  }

  /** Only the last node of a level can have a single child. */
  lemma {:induction false} SinglesClosed(height: nat, pos: nat, mask: seq<bool>)
    requires |mask| > 0 && pos < Width(|mask|, height)
    ensures Singles(height, pos, mask) == if pos == Last(|mask|, height) then OddLevels(height, mask) else 0
    decreases height
  {
    hide Matched, Width;
    var n := |mask|;
    if height > 0 && Matched(height, pos, mask) {
      WidthStep(n, height);
      SinglesClosed(height - 1, 2 * pos, mask);
      if 2 * pos + 1 < Width(n, height - 1) {
        SinglesClosed(height - 1, 2 * pos + 1, mask);
      }
    } else if height > 0 && pos == Last(n, height) {
      NoneOdd(height, mask);
    }
  }

  // ---- The size ----

  /** `GetSizeOfCompactSize`. */
  function CompactSize(n: nat): nat {
    if n < 253 then 1 else if n <= 0xFFFF then 3 else if n <= 0xFFFF_FFFF then 5 else 9
  }

  /** The number of transactions, the hashes and the bytes of the flag bits, with their counts. */
  function Size(hashes: nat, bits: nat): nat {
    4 + CompactSize(hashes) + 32 * hashes + CompactSize((bits + 7) / 8) + (bits + 7) / 8
  }

  /** 10 + ceil(32.25 * N). */
  function Announced(hashes: nat): nat {
    10 + (129 * hashes + 3) / 4
  }

  /** The announced bound is kept exactly when counts and flag bytes fit into what a quarter byte per hash leaves; the
      flag bits are twice the hashes less one and one more per odd level. */
  predicate Fits(hashes: nat, odd: nat) {
    var bytes := (2 * hashes + 6 + odd) / 8;
    CompactSize(hashes) + CompactSize(bytes) + bytes <= 6 + (hashes + 3) / 4
  }

  lemma {:induction false} SizeBound(H: Combine, txids: seq<Hash>, mask: seq<bool>)
    requires 0 < |txids| == |mask|
    ensures IsNode(|txids|, TreeHeight(|txids|), 0)
    ensures var height := TreeHeight(|txids|);
            var hashes, bits := |Hashes(H, height, 0, txids, mask)|, |Bits(height, 0, mask)|;
            && bits == 2 * hashes - 1 + OddLevels(height, mask)
            && (Size(hashes, bits) <= Announced(hashes) <==> Fits(hashes, OddLevels(height, mask)))
  {
    hide Bits, Hashes, Width, CompactSize;
    var n, height := |txids|, TreeHeight(|txids|);
    RootCoversAll(n);
    BitsCounted(H, height, 0, txids, mask);
    RootAlone(n);
    SinglesClosed(height, 0, mask);
    HashesWithinLeaves(H, height, 0, txids, mask);
  }

  lemma {:induction false} RootAlone(n: nat)
    requires n > 0
    ensures Width(n, TreeHeight(n)) == 1
  {
    SomeNode(n, TreeHeight(n));
  }

  /** With at most one odd level the bound is kept by every tree a block can have. */
  lemma {:induction false} FewOddLevels(hashes: nat, odd: nat)
    requires 0 < hashes <= 0xFFFF && odd <= 1
    ensures Fits(hashes, odd)
  {
  }

  // ---- A block that breaks the bound ----

  /** When everything is matched, every transaction has its hash. */
  lemma {:induction false} AllHashes(H: Combine, height: nat, pos: nat, txids: seq<Hash>, mask: seq<bool>)
    requires |mask| == |txids| && IsNode(|txids|, height, pos) && forall i :: 0 <= i < |mask| ==> mask[i]
    ensures First(height, pos) <= End(|txids|, height, pos)
    ensures |Hashes(H, height, pos, txids, mask)| == End(|txids|, height, pos) - First(height, pos)
    decreases height
  {
    hide NodeHash, Width;
    AllMatched(height, pos, mask);
    if height == 0 {
      assert Pow2(0) == 1;
    } else {
      Children(|txids|, height, pos);
      AllHashes(H, height - 1, 2 * pos, txids, mask);
      LeavesHalved(|txids|, height, pos);
      if 2 * pos + 1 < Width(|txids|, height - 1) {
        AllHashes(H, height - 1, 2 * pos + 1, txids, mask);
      }
    }
  }

  lemma {:induction false} AllMatched(height: nat, pos: nat, mask: seq<bool>)
    requires IsNode(|mask|, height, pos) && forall i :: 0 <= i < |mask| ==> mask[i]
    ensures Matched(height, pos, mask)
  {
    var p := First(height, pos);
    assert (pos + 1) * Pow2(height) == p + Pow2(height);
    assert mask[p];
  }

  /** The leaves of a node are those of its children. */
  lemma {:induction false} LeavesHalved(n: nat, height: nat, pos: nat)
    requires height > 0 && IsNode(n, height, pos)
    ensures First(height, pos) == First(height - 1, 2 * pos)
    ensures IsNode(n, height - 1, 2 * pos + 1) ==>
              End(n, height - 1, 2 * pos) == First(height - 1, 2 * pos + 1)
              && End(n, height, pos) == End(n, height - 1, 2 * pos + 1)
    ensures !IsNode(n, height - 1, 2 * pos + 1) ==> End(n, height, pos) == End(n, height - 1, 2 * pos) == n
  {
    var w := Pow2(height - 1);
    assert pos * (2 * w) == 2 * pos * w;
    assert (pos + 1) * (2 * w) == (2 * pos + 2) * w == (2 * pos + 1) * w + w;
    assert (2 * pos + 1 + 1) * w == (2 * pos + 2) * w;
  }

  /** The widths of a tree over 1012 transactions, two of them odd. */
  lemma {:induction false} Widths()
    ensures Width(1012, 0) == 1012 && Width(1012, 1) == 506 && Width(1012, 2) == 253 && Width(1012, 3) == 127
    ensures Width(1012, 4) == 64 && Width(1012, 5) == 32 && Width(1012, 6) == 16 && Width(1012, 7) == 8
    ensures Width(1012, 8) == 4 && Width(1012, 9) == 2 && Width(1012, 10) == 1
  {
    assert Width(1012, 0) == 1012 by {
      assert Pow2(0) == 1;
    }
    hide Width;
    WidthStep(1012, 1);
    WidthStep(1012, 2);
    WidthStep(1012, 3);
    WidthStep(1012, 4);
    WidthStep(1012, 5);
    WidthStep(1012, 6);
    WidthStep(1012, 7);
    WidthStep(1012, 8);
    WidthStep(1012, 9);
    WidthStep(1012, 10);
  }

  lemma {:induction false} HeightOf1012()
    ensures TreeHeight(1012) == 10
  {
    hide Width;
    Widths();
    assert HeightFrom(1012, 10) == 10 && HeightFrom(1012, 9) == 10 && HeightFrom(1012, 8) == 10;
    assert HeightFrom(1012, 7) == 10 && HeightFrom(1012, 6) == 10 && HeightFrom(1012, 5) == 10;
    assert HeightFrom(1012, 4) == 10 && HeightFrom(1012, 3) == 10 && HeightFrom(1012, 2) == 10;
    assert HeightFrom(1012, 1) == 10;
  }

  lemma {:induction false} OddLevelsOf1012(mask: seq<bool>)
    requires |mask| == 1012 && forall i :: 0 <= i < |mask| ==> mask[i]
    ensures OddLevels(10, mask) == 2
  {
    hide Width, Matched, IsNode;
    Widths();
    LastIsNode(3, mask);
    LastIsNode(4, mask);
    assert !OddBelow(1, mask) && !OddBelow(2, mask) && OddBelow(3, mask) && OddBelow(4, mask);
    assert OddLevels(0, mask) == 0 && OddLevels(1, mask) == 0 && OddLevels(2, mask) == 0;
    assert OddLevels(3, mask) == 1 && OddLevels(4, mask) == 2 && OddLevels(5, mask) == 2;
    assert OddLevels(6, mask) == 2 && OddLevels(7, mask) == 2 && OddLevels(8, mask) == 2;
    assert OddLevels(9, mask) == 2;
  }

  lemma {:induction false} LastIsNode(height: nat, mask: seq<bool>)
    requires |mask| > 0 && forall i :: 0 <= i < |mask| ==> mask[i]
    ensures Last(|mask|, height) >= 0 && Matched(height, Last(|mask|, height), mask)
  {
    SomeNode(|mask|, height);
    WidthBound(|mask|, height, Last(|mask|, height));
    AllMatched(height, Last(|mask|, height), mask);
  }

  /** The input: 1012 transactions, all matched, take 32648 bytes where 32647 are announced. */
  lemma {:induction false} SizeBoundFails(H: Combine, txids: seq<Hash>, mask: seq<bool>)
    requires |txids| == |mask| == 1012 && forall i :: 0 <= i < |mask| ==> mask[i]
    ensures TreeHeight(1012) == 10 && IsNode(1012, 10, 0)
    ensures var hashes, bits := |Hashes(H, 10, 0, txids, mask)|, |Bits(10, 0, mask)|;
            hashes == 1012 && bits == 2025 && Size(hashes, bits) == 32648 && Announced(hashes) == 32647
  {
    hide Bits, Hashes, Width, OddLevels;
    HeightOf1012();
    RootCoversAll(1012);
    SizeBound(H, txids, mask);
    AllHashes(H, 10, 0, txids, mask);
    OddLevelsOf1012(mask);
  }
}
