/** The active chain as a vector indexed by height, its forks and its locators (chain.cpp, chain.h). */
module ActiveChain {
  import opened ChainIndex

  /** The vector holds exactly the line of its last entry. */
  ghost predicate IsLine(v: seq<BlockIndex?>) {
    v == [] || (v[|v| - 1] != null && Linked(v[|v| - 1]) && v == Line(v[|v| - 1]))
  }

  /** std::vector::resize: cut off, or filled up with null pointers. */
  function Resize(v: seq<BlockIndex?>, n: nat): (r: seq<BlockIndex?>)
    ensures |r| == n
    ensures forall i :: 0 <= i < n ==> r[i] == if i < |v| then v[i] else null
  {
    if n <= |v| then v[..n] else v + seq(n - |v|, _ => null)
  }

  /** A line's prefix ending in b is b's own line. */
  lemma {:induction false} PrefixIsLine(v: seq<BlockIndex?>, b: BlockIndex)
    requires IsLine(v) && Linked(b) && 0 <= b.height < |v| && v[b.height] == b
    ensures v[..b.height + 1] == Line(b)
  {
    LineShape(v[|v| - 1]);
    AncestorAt(v[|v| - 1], b.height);
  }

  /** In a line every entry sits at its own height. */
  lemma {:induction false} LineHeights(v: seq<BlockIndex?>)
    requires IsLine(v)
    ensures forall i :: 0 <= i < |v| ==> v[i] != null && v[i].height == i && Linked(v[i])
  {
    if v != [] {
      forall i | 0 <= i < |v|
        ensures v[i] != null && v[i].height == i && Linked(v[i])
      {
        LineShape(v[|v| - 1]);
        AncestorAt(v[|v| - 1], i);
      }
    }
  }

  class Chain {
    var vChain: seq<BlockIndex?>

    ghost predicate Valid()
      reads this
    {
      IsLine(vChain)
    }

    constructor ()
      ensures Valid() && vChain == []
    {
      vChain := [];
    }

    function Height(): int
      reads this
    {
      |vChain| - 1
    }

    function At(height: int): BlockIndex?
      reads this
    {
      if height < 0 || height > Height() then null else vChain[height]
    }

    function Tip(): BlockIndex?
      reads this
    {
      if Height() >= 0 then At(Height()) else null
    }

    /** One look at the entry's height decides whether it is in the chain. */
    predicate Contains(b: BlockIndex)
      requires Valid()
      reads this
      ensures Contains(b) <==> b in vChain
    {
      LineHeights(vChain);
      At(b.height) == b
    }

    /** The successor in the chain, if b is in it and is not the tip. */
    function Next(b: BlockIndex): (r: BlockIndex?)
      requires Valid()
      reads this
      ensures r != null <==> b in vChain && b != Tip()
      ensures r != null ==> r in vChain && r.prev == b
    {
      LineHeights(vChain);
      if Contains(b) then
        LineParents(vChain, b.height + 1);
        At(b.height + 1)
      else null
    }

    /** Rebuilds the vector, writing only down to the first entry that is already in place. */
    method SetTip(tip: BlockIndex?)
      requires Valid() && (tip != null ==> Linked(tip))
      modifies this
      ensures Valid()
      ensures vChain == if tip == null then [] else Line(tip)
    {
      if tip == null {
        vChain := [];
        return;
      }
      hide Line, Linked, IsLine;
      ghost var was := vChain;
      TipLine(tip);
      ghost var line: seq<BlockIndex?> := Line(tip);
      vChain := Resize(vChain, tip.height + 1);
      ghost var resized := vChain;
      var p: BlockIndex? := tip;
      ghost var top := tip.height;
      while p != null && vChain[p.height] != p
        invariant -1 <= top <= tip.height && |vChain| == |line|
        invariant if top == -1 then p == null else p != null && p.height == top && p == line[top]
        invariant forall i :: top < i < |line| ==> vChain[i] == line[i]
        invariant forall i :: 0 <= i <= top ==> vChain[i] == resized[i]
        decreases top
      {
        StepDown(tip, top);
        vChain := vChain[p.height := p];
        p := p.prev;
        top := top - 1;
      }
      if p != null {
        InPlace(was, tip, p);
      }
      assert forall i :: 0 <= i < |line| ==> vChain[i] == line[i];
    }

    /** The last block that the chain and b's line have in common: they share exactly its line. */
    method FindFork(b: BlockIndex) returns (r: BlockIndex?)
      requires Valid() && Linked(b) && SkipsOk(b)
      ensures r == null ==> forall x :: x in Line(b) ==> x !in vChain
      ensures r != null ==> Linked(r) && (forall x :: x in Line(b) && x in vChain <==> x in Line(r))
    {
      hide Line, Linked, IsLine, SkipsOk, Ancestor, Contains;
      r := b;
      TipLine(b);
      AncestorsDiffer(vChain, b);
      if b.height > Height() {
        var a, _ := b.GetAncestor(Height());
        r := a;
        AncestorOrNone(b, Height());
      }
      ghost var top := if r == null then -1 else r.height;
      while r != null && !Contains(r)
        invariant -1 <= top <= b.height
        invariant if top == -1 then r == null else r != null && r.height == top && r == Line(b)[top]
        invariant forall x :: x in Line(b)[top + 1..] ==> x !in vChain
        decreases top
      {
        StepDown(b, top);
        assert Line(b)[top..] == [r] + Line(b)[top + 1..];
        r := r.prev;
        top := top - 1;
      }
      assert Line(b) == Line(b)[..top + 1] + Line(b)[top + 1..];
      if r != null {
        SharedLine(vChain, b, r);
      }
    }
  }

  lemma {:induction false} TipLine(tip: BlockIndex)
    requires Linked(tip)
    ensures tip.height >= 0 && |Line(tip)| == tip.height + 1 && Line(tip)[tip.height] == tip && IsLine(Line(tip))
  {
    LineShape(tip);
  }

  lemma {:induction false} StepDown(tip: BlockIndex, top: nat)
    requires Linked(tip) && |Line(tip)| == tip.height + 1 && top <= tip.height
    ensures var p := Line(tip)[top].prev;
            if top == 0 then p == null else p != null && p.height == top - 1 && p == Line(tip)[top - 1]
  {
    AncestorAt(tip, top);
    LineShape(tip);
    if top > 0 {
      LineParents(Line(tip), top);
    }
  }

  lemma {:induction false} AncestorOrNone(b: BlockIndex, t: int)
    requires Linked(b) && t <= b.height
    ensures t < 0 ==> Ancestor(b, t) == null
    ensures t >= 0 ==> t < |Line(b)| && Ancestor(b, t) == Line(b)[t] && Line(b)[t].height == t
  {
    LineShape(b);
    if t >= 0 {
      AncestorAt(b, t);
    }
  }

  /** An entry of b's line that is in the chain brings its whole line. */
  lemma {:induction false} SharedLine(v: seq<BlockIndex?>, b: BlockIndex, r: BlockIndex)
    requires IsLine(v) && Linked(b) && r in v && 0 <= r.height < |Line(b)| && r == Line(b)[r.height]
    ensures Linked(r) && Line(r) == Line(b)[..r.height + 1] && forall x :: x in Line(r) ==> x in v
  {
    LineShape(b);
    AncestorAt(b, r.height);
    LineHeights(v);
    PrefixIsLine(v, r);
  }

  /** Entries above the chain's height are not in it. */
  lemma {:induction false} AncestorsDiffer(v: seq<BlockIndex?>, b: BlockIndex)
    requires IsLine(v) && Linked(b)
    ensures |Line(b)| == b.height + 1
    ensures |v| <= |Line(b)| ==> forall x :: x in Line(b)[|v|..] ==> x !in v
  {
    LineHeights(v);
    LineShape(b);
  }

  lemma {:induction false} LineParents(v: seq<BlockIndex?>, i: int)
    requires IsLine(v) && i > 0
    ensures i < |v| ==> v[i] != null && v[i].prev == v[i - 1]
  {
    if i < |v| {
      var last := v[|v| - 1];
      LineShape(last);
      AncestorAt(last, i);
      AncestorAt(last, i - 1);
      LineShape(Line(last)[i]);
      LineShape(Line(last)[i].prev);
      assert Line(Line(last)[i])[..i] == Line(last)[..i];
      assert Line(last)[..i][i - 1] == Line(last)[i - 1];
    }
  }

  /** An entry of the tip's line already in place has its whole line in place. */
  lemma {:induction false} InPlace(was: seq<BlockIndex?>, tip: BlockIndex, p: BlockIndex)
    requires IsLine(was) && Linked(tip) && 0 <= p.height <= tip.height
    requires |Line(tip)| == tip.height + 1 && Line(tip)[p.height] == p
    requires Resize(was, tip.height + 1)[p.height] == p
    ensures forall i :: 0 <= i <= p.height ==> Resize(was, tip.height + 1)[i] == Line(tip)[i]
  {
    AncestorAt(tip, p.height);
    PrefixIsLine(was, p);
    assert was[..p.height + 1] == Line(tip)[..p.height + 1];
    forall i | 0 <= i <= p.height
      ensures Resize(was, tip.height + 1)[i] == Line(tip)[i]
    {
      assert was[..p.height + 1][i] == Line(tip)[..p.height + 1][i];
    }
  }
}
