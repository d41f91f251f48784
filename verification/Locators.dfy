/** Block locators: what a peer sends to say which chain it is on, and what the receiver finds in it. */
module Locators {
  import opened Powers
  import opened ChainIndex
  import opened ActiveChain

  // ----- the heights a locator lists -----

  /** The heights from h on, when size entries are listed already and the next step goes back by step. */
  function LocatorFrom(h: nat, step: nat, size: nat): (r: seq<nat>)
    requires step > 0
    ensures |r| > 0 && r[0] == h
    ensures forall i :: 0 <= i < |r| ==> r[i] <= h
    decreases h
  {
    if h == 0 then [0]
    else [h] + LocatorFrom(NextHeight(h, step), if size + 1 > 10 then 2 * step else step, size + 1)
  }

  function NextHeight(h: nat, step: nat): (r: nat)
    ensures step > 0 && h > 0 ==> r < h
  {
    if h > step then h - step else 0
  }

  /** How far entry k lies behind the first one. */
  function Back(k: nat): nat {
    if k <= 10 then k else 9 + Pow2(k - 10)
  }

  /** The step from entry k to the next. */
  function Step(k: nat): (r: nat)
    ensures r > 0 && Back(k + 1) == Back(k) + r
  {
    if k <= 10 then 1 else Pow2(k - 10)
  }

  /** r lists the heights from entry k on: each where Back puts it, only the last being zero. */
  ghost predicate Entries(r: seq<nat>, h: nat, k: nat) {
    && |r| > 0
    && (forall i :: 0 <= i < |r| ==> r[i] == NextHeight(h, Back(k + i)))
    && (forall i :: 0 <= i < |r| - 1 ==> r[i] > 0)
    && r[|r| - 1] == 0
  }

  lemma {:induction false} EntriesFrom(rest: seq<nat>, h: nat, k: nat)
    requires Entries(rest, h, k + 1) && NextHeight(h, Back(k)) > 0
    ensures Entries([NextHeight(h, Back(k))] + rest, h, k)
  {
    hide Back, NextHeight;
    var r := [NextHeight(h, Back(k))] + rest;
    forall i | 0 <= i < |r|
      ensures r[i] == NextHeight(h, Back(k + i))
    {
      if i > 0 {
        assert r[i] == rest[i - 1];
        assert k + i == k + 1 + (i - 1);
      }
    }
  }

  lemma {:induction false} LocatorEntries(h: nat, k: nat)
    ensures Entries(LocatorFrom(NextHeight(h, Back(k)), Step(k), k), h, k)
    decreases NextHeight(h, Back(k))
  {
    hide Entries;
    var now := NextHeight(h, Back(k));
    if now > 0 {
      assert Step(k + 1) == if k + 1 > 10 then 2 * Step(k) else Step(k);
      assert NextHeight(now, Step(k)) == NextHeight(h, Back(k + 1));
      LocatorEntries(h, k + 1);
      EntriesFrom(LocatorFrom(NextHeight(h, Back(k + 1)), Step(k + 1), k + 1), h, k);
    } else {
      LastEntry(h, k);
    }
  }

  lemma {:induction false} LastEntry(h: nat, k: nat)
    requires NextHeight(h, Back(k)) == 0
    ensures Entries([0], h, k)
  {
  }

  /** The heights listed for a block at height h. */
  function LocatorHeights(h: nat): (r: seq<nat>)
    ensures |r| > 0 && r[0] == h && forall i :: 0 <= i < |r| ==> r[i] <= h
  {
    LocatorFrom(h, 1, 0)
  }

  /** Entry i lies Back(i) behind the block; the last entry, and no other, is the root. */
  lemma {:induction false} LocatorShape(h: nat)
    ensures forall i :: 0 <= i < |LocatorHeights(h)| ==> LocatorHeights(h)[i] == NextHeight(h, Back(i))
    ensures forall i :: 0 <= i < |LocatorHeights(h)| - 1 ==> LocatorHeights(h)[i] > 0
    ensures LocatorHeights(h)[|LocatorHeights(h)| - 1] == 0
  {
    LocatorEntries(h, 0);
  }

  lemma {:induction false} BackGrows(i: nat, j: nat)
    requires i < j
    ensures Back(i) < Back(j)
    decreases j
  {
    assert Back(j) == Back(j - 1) + Step(j - 1);
    if i < j - 1 {
      BackGrows(i, j - 1);
    }
  }

  lemma {:induction false} LocatorDecreases(h: nat, i: nat, j: nat)
    requires i < j < |LocatorHeights(h)|
    ensures LocatorHeights(h)[i] > LocatorHeights(h)[j]
  {
    LocatorShape(h);
    BackGrows(i, j);
  }

  /** The length of a locator is logarithmic in the height. */
  lemma {:induction false} LocatorLength(h: nat)
    ensures h <= 10 ==> |LocatorHeights(h)| == h + 1
    ensures h > 10 ==> |LocatorHeights(h)| >= 12
    ensures h > 10 ==> Pow2(|LocatorHeights(h)| - 12) < h - 9 <= Pow2(|LocatorHeights(h)| - 11)
  {
    LocatorShape(h);
    var n := |LocatorHeights(h)|;
    assert LocatorHeights(h)[n - 1] == NextHeight(h, Back(n - 1)) == 0;
    if n >= 2 {
      assert LocatorHeights(h)[n - 2] == NextHeight(h, Back(n - 2)) > 0;
    }
    if h > 10 && n < 12 {
      BackTen(n - 1);
    }
  }

  lemma {:induction false} BackTen(k: nat)
    requires k <= 10
    ensures Back(k) <= 10
  {
  }

  // ----- building a locator -----

  ghost function Hashes(line: seq<BlockIndex?>): (r: seq<Hash>)
    requires forall i :: 0 <= i < |line| ==> line[i] != null
    ensures |r| == |line| && forall i :: 0 <= i < |line| ==> r[i] == line[i].hash
  {
    seq(|line|, i requires 0 <= i < |line| => line[i].hash)
  }

  /** The members of line at the given places. */
  ghost function Pick(line: seq<Hash>, places: seq<nat>): (r: seq<Hash>)
    requires forall i :: 0 <= i < |places| ==> places[i] < |line|
    ensures |r| == |places| && forall i :: 0 <= i < |r| ==> r[i] == line[places[i]]
  {
    seq(|places|, i requires 0 <= i < |places| => line[places[i]])
  }

  /** The locator of the last member of a line of hashes. */
  ghost function Locator(line: seq<Hash>): (r: seq<Hash>)
    requires |line| > 0
  {
    Pick(line, LocatorHeights(|line| - 1))
  }

  /** The ancestor at a height: from the chain if possible, along the skip pointers otherwise. */
  method StepBack(chain: Chain, p: BlockIndex, height: nat) returns (r: BlockIndex)
    requires chain.Valid() && Linked(p) && height < p.height && (chain.Contains(p) || SkipsOk(p))
    ensures |Line(p)| == p.height + 1 && r == Line(p)[height] && r.height == height && Linked(r)
    ensures Line(r) == Line(p)[..height + 1]
    ensures chain.Contains(r) || SkipsOk(r)
  {
    AncestorAt(p, height);
    if chain.Contains(p) {
      LineHeights(chain.vChain);
      PrefixIsLine(chain.vChain, p);
      r := chain.At(height);
      assert Line(p)[height] == chain.vChain[..p.height + 1][height];
    } else {
      var a, _ := p.GetAncestor(height);
      AncestorLinked(p, height, height);
      r := a;
    }
  }

  lemma {:induction false} NextPlace(h: nat, step: nat, places: seq<nat>, n: nat)
    requires step > 0 && n <= |places| && LocatorFrom(h, step, n) == places[n..]
    ensures n < |places| && places[n] == h
    ensures h == 0 ==> n + 1 == |places|
    ensures h > 0 ==> LocatorFrom(NextHeight(h, step), if n + 1 > 10 then 2 * step else step, n + 1) == places[n + 1..]
  {
    assert places[n..][0] == places[n];
    assert places[n + 1..] == places[n..][1..];
  }

  /** The loop of GetLocator. */
  method ListBack(chain: Chain, tip: BlockIndex) returns (have: seq<Hash>)
    requires chain.Valid() && Linked(tip) && (chain.Contains(tip) || SkipsOk(tip))
    ensures have == Locator(Hashes(Line(tip)))
  {
    hide Line, Linked, IsLine, LocatorFrom, Hashes, SkipsOk, Chain.Contains, NextHeight;
    TipLine(tip);
    ghost var line := Line(tip);
    ghost var places := LocatorFrom(tip.height, 1, 0);
    var step := 1;
    var p := tip;
    have := [];
    while true
      invariant Linked(p) && 0 <= p.height < |line| && Line(p) == line[..p.height + 1]
      invariant step > 0 && |have| <= |places|
      invariant LocatorFrom(p.height, step, |have|) == places[|have|..]
      invariant forall i :: 0 <= i < |have| ==> places[i] < |line| && have[i] == line[places[i]].hash
      invariant chain.Contains(p) || SkipsOk(p)
      decreases p.height
    {
      TipLine(p);
      NextPlace(p.height, step, places, |have|);
      assert line[..p.height + 1][p.height] == p;
      have := have + [p.hash];
      if p.height == 0 {
        break;
      }
      var height := NextHeight(p.height, step);
      p := StepBack(chain, p, height);
      if |have| > 10 {
        step := step * 2;
      }
    }
  }

  /** CChain::GetLocator for the given block, or for the tip when there is none given. */
  method GetLocator(chain: Chain, start: BlockIndex?) returns (have: seq<Hash>)
    requires chain.Valid() && (start != null ==> Linked(start) && SkipsOk(start))
    ensures start == null && chain.vChain == [] ==> have == []
    ensures start != null ==> have == Locator(Hashes(Line(start)))
    ensures start == null && chain.vChain != [] ==>
              (forall i :: 0 <= i < |chain.vChain| ==> chain.vChain[i] != null) && have == Locator(Hashes(chain.vChain))
  {
    LineHeights(chain.vChain);
    var p := start;
    if p == null {
      p := chain.Tip();
    }
    if p == null {
      have := [];
    } else {
      have := ListBack(chain, p);
    }
  }

  // ----- reading a locator -----

  ghost function IndexOf(s: seq<Hash>, x: Hash): (i: nat)
    requires x in s
    ensures i < |s| && s[i] == x
  {
    if s[0] == x then 0 else 1 + IndexOf(s[1..], x)
  }

  /** The height of the first hash of the locator that is on the chain of hashes; 0 when none is. */
  ghost function FirstKnown(ours: seq<Hash>, locator: seq<Hash>): (r: nat)
    ensures ours != [] ==> r < |ours|
  {
    if locator == [] then 0
    else if locator[0] in ours then IndexOf(ours, locator[0])
    else FirstKnown(ours, locator[1..])
  }

  /** The first block of the locator that is on the chain, or the chain's root. */
  method FindForkInGlobalIndex(tree: BlockTree, chain: Chain, locator: seq<Hash>) returns (r: BlockIndex?)
    requires tree.Valid() && chain.Valid()
    requires forall x :: x in chain.vChain && x != null ==> x.hash in tree.index && tree.index[x.hash] == x
    ensures r == null <==> chain.vChain == []
    ensures forall i :: 0 <= i < |chain.vChain| ==> chain.vChain[i] != null
    ensures r != null ==> r == chain.vChain[FirstKnown(Hashes(chain.vChain), locator)]
  {
    LineHeights(chain.vChain);
    ghost var ours := Hashes(chain.vChain);
    var i := 0;
    while i < |locator|
      invariant 0 <= i <= |locator|
      invariant FirstKnown(ours, locator) == FirstKnown(ours, locator[i..])
    {
      var hash := locator[i];
      assert locator[i..][0] == hash && locator[i..][1..] == locator[i + 1..];
      if hash in tree.index {
        assert Filed(tree.index, hash);
        var b := tree.index[hash];
        if chain.Contains(b) {
          assert hash in ours by {
            assert ours[b.height] == hash;
          }
          return b;
        }
      }
      i := i + 1;
    }
    r := chain.At(0);
  }

  /** f is the last height at which the two lines agree; hashes name blocks with their whole line. */
  ghost predicate ForkAt(theirs: seq<Hash>, ours: seq<Hash>, f: nat) {
    && f < |theirs| && f < |ours|
    && (forall i :: 0 <= i <= f ==> theirs[i] == ours[i])
    && (forall i, j :: 0 <= i < |theirs| && 0 <= j < |ours| && theirs[i] == ours[j] ==> i == j && i <= f)
  }

  /** What FirstKnown finds is the first listed place that is not above the fork. */
  lemma {:induction false} FirstKnownIs(theirs: seq<Hash>, ours: seq<Hash>, f: nat, places: seq<nat>, k: nat)
    requires ForkAt(theirs, ours, f) && forall i :: 0 <= i < |places| ==> places[i] < |theirs|
    requires k < |places| && places[k] <= f && forall i :: 0 <= i < k ==> places[i] > f
    ensures FirstKnown(ours, Pick(theirs, places)) == places[k]
    decreases k
  {
    var locator := Pick(theirs, places);
    assert locator[0] == theirs[places[0]];
    if k == 0 {
      assert ours[places[0]] == locator[0];
      var _ := IndexOf(ours, locator[0]);
    } else {
      assert locator[0] !in ours;
      assert locator[1..] == Pick(theirs, places[1..]);
      FirstKnownIs(theirs, ours, f, places[1..], k - 1);
    }
  }

  /** The first listed height not above f. */
  lemma {:induction false} FirstBelow(h: nat, f: nat, n: nat) returns (k: nat)
    requires f <= h && n < |LocatorHeights(h)| && LocatorHeights(h)[n] <= f
    ensures k < |LocatorHeights(h)| && LocatorHeights(h)[k] <= f
    ensures forall i :: 0 <= i < k ==> LocatorHeights(h)[i] > f
    decreases n
  {
    if n == 0 || LocatorHeights(h)[n - 1] > f {
      k := n;
      forall i | 0 <= i < k
        ensures LocatorHeights(h)[i] > f
      {
        if i < n - 1 {
          LocatorDecreases(h, i, n - 1);
        }
      }
    } else {
      k := FirstBelow(h, f, n - 1);
    }
  }

  /** A peer's locator leads to a common block no further below the fork than the fork is below the peer's tip. */
  lemma {:induction false} LocatorFindsFork(theirs: seq<Hash>, ours: seq<Hash>, f: nat)
    requires ForkAt(theirs, ours, f)
    ensures FirstKnown(ours, Locator(theirs)) <= f
    ensures f - FirstKnown(ours, Locator(theirs)) <= |theirs| - 1 - f
    ensures |theirs| - 1 - f <= 11 ==> FirstKnown(ours, Locator(theirs)) == f
  {
    var h := |theirs| - 1;
    var places := LocatorHeights(h);
    LocatorShape(h);
    var k := FirstBelow(h, f, |places| - 1);
    FirstKnownIs(theirs, ours, f, places, k);
    if k > 0 {
      assert places[k - 1] == NextHeight(h, Back(k - 1)) > f;
      assert places[k] == NextHeight(h, Back(k));
      assert Back(k) == Back(k - 1) + Step(k - 1);
      assert Step(k - 1) <= Back(k - 1) + 1;
    }
  }
}
