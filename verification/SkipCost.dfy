/** How many turns the walk along skip pointers takes (chain.cpp): at most quadratic in the length of the height. */
module SkipCost {
  import opened Powers
  import opened ChainIndex

  // ----- one turn -----

  /** Clearing a bit does not add to a number. */
  lemma {:induction false} ClearLess(n: nat)
    ensures InvertLowestOne(n) <= n && (n > 0 ==> InvertLowestOne(n) < n)
  {
  }

  /** Every positive number is an odd one times a power of two. */
  lemma {:induction false} Decompose(n: nat) returns (c: nat, k: nat)
    requires n > 0
    ensures n == (2 * c + 1) * Pow2(k) && InvertLowestOne(n) == n - Pow2(k) == 2 * c * Pow2(k)
    ensures n % 2 == 0 ==> k > 0
    decreases n
  {
    hide Pow2, InvertLowestOne;
    if n % 2 == 1 {
      c, k := n / 2, 0;
      PowSmall();
    } else {
      c, k := Decompose(n / 2);
      Doubled(c, k);
      k := k + 1;
    }
    InvertLowestOneClears(2 * c + 1, k);
    Split(c, Pow2(k));
  }

  lemma {:induction false} Doubled(c: nat, k: nat)
    ensures (2 * c + 1) * Pow2(k + 1) == 2 * ((2 * c + 1) * Pow2(k))
  {
  }

  lemma {:induction false} Split(c: nat, p: nat)
    ensures (2 * c + 1) * p == 2 * c * p + p
  {
  }

  lemma {:induction false} PowSmall()
    ensures Pow2(0) == 1 && Pow2(1) == 2 && Pow2(2) == 4 && Pow2(3) == 8
  {
  }

  lemma {:induction false} OddSkip(v: nat)
    requires v % 2 == 0 && v > 0
    ensures SkipHeight(v + 1) == InvertLowestOne(InvertLowestOne(v)) + 1
    ensures SkipHeight(v) == InvertLowestOne(v)
    ensures InvertLowestOne(v) % 2 == 0 && InvertLowestOne(InvertLowestOne(v)) % 2 == 0
  {
    hide InvertLowestOne;
    ClearEven(v);
    ClearEven(InvertLowestOne(v));
  }

  lemma {:induction false} ClearEven(v: nat)
    requires v % 2 == 0
    ensures InvertLowestOne(v) % 2 == 0
  {
    if v > 0 {
      hide Pow2, InvertLowestOne;
      var c, k := Decompose(v);
      EvenProduct(c, k);
    }
  }

  lemma {:induction false} EvenProduct(c: nat, k: nat)
    ensures 2 * c * Pow2(k) % 2 == 0
  {
    assert 2 * c * Pow2(k) == 2 * (c * Pow2(k));
  }

  /** At an odd height the skip is taken unless it goes too far. */
  lemma {:induction false} OddTurn(v: nat, t: nat)
    requires v % 2 == 0 && v > 0 && t <= v
    ensures SkipHeight(v + 1) < v + 1
    ensures SkipHeight(v + 1) >= t ==> Turns(v + 1, t) == 1 + Turns(SkipHeight(v + 1), t)
    ensures SkipHeight(v + 1) < t ==> Turns(v + 1, t) == 1 + Turns(v, t)
  {
    hide InvertLowestOne, SkipHeight;
    OddSkip(v);
    SkipsBack(v + 1);
    ClearLess(InvertLowestOne(v));
  }

  lemma {:induction false} ClearTwo(x: nat)
    requires x % 2 == 1
    ensures InvertLowestOne(2 * x) == 2 * x - 2 && InvertLowestOne(4 * x) == 4 * x - 4
  {
    hide Pow2, InvertLowestOne;
    PowSmall();
    InvertLowestOneClears(x, 1);
    InvertLowestOneClears(x, 2);
  }

  /** Below a multiple of eight the skips are short. */
  lemma {:induction false} BelowEight(v: nat, c: nat)
    requires v == 8 * c && c > 0
    ensures SkipHeight(v - 1) == v - 7
  {
    hide InvertLowestOne, SkipHeight;
    Odd(2 * c);
    Odd(c);
    TwoClears(4 * c - 1, 2 * c - 1);
  }

  lemma {:induction false} TwoClears(x: nat, y: nat)
    requires x % 2 == 1 && y % 2 == 1 && x == 2 * y + 1
    ensures SkipHeight(2 * x + 1) == 2 * x - 5
  {
    hide InvertLowestOne, SkipHeight;
    ClearTwo(x);
    ClearTwo(y);
    OddSkip(2 * x);
    assert InvertLowestOne(2 * x) == 4 * y;
  }

  lemma {:induction false} Odd(n: nat)
    requires n > 0
    ensures (2 * n - 1) % 2 == 1
  {
  }

  /** Below an odd multiple of four the next lowest bit is cleared. */
  lemma {:induction false} BelowFour(v: nat, c: nat)
    requires v == 4 * (2 * c + 1)
    ensures SkipHeight(v - 1) == InvertLowestOne(v - 4) + 1
  {
    hide InvertLowestOne, SkipHeight;
    Odd(2 * c + 1);
    ClearTwo(2 * (2 * c + 1) - 1);
    OddSkip(v - 2);
  }

  /** Where the skip of the height below leads from an even height, by the lowest bit of the height. */
  lemma {:induction false} BelowEven(v: nat, c: nat, k: nat)
    requires v == (2 * c + 1) * Pow2(k) && k > 0
    ensures k >= 3 ==> SkipHeight(v - 1) == v - 7 && Pow2(k) >= 8
    ensures k == 2 ==> SkipHeight(v - 1) == InvertLowestOne(v - Pow2(k)) + 1
    ensures k == 1 && c > 0 ==> SkipHeight(v - 1) == InvertLowestOne(InvertLowestOne(v - Pow2(k))) + 1
    ensures v - Pow2(k) == 2 * c * Pow2(k)
  {
    hide Pow2, InvertLowestOne, SkipHeight;
    Split(c, Pow2(k));
    PowSmall();
    if k >= 3 {
      PowAdd(k - 3, 3);
      PowMonotone(3, k);
      var d := (2 * c + 1) * Pow2(k - 3);
      Regroup(2 * c + 1, Pow2(k - 3), 8);
      BelowEight(v, d);
    } else if k == 2 {
      BelowFour(v, c);
    } else if c > 0 {
      OddSkip(v - 2);
    }
  }

  lemma {:induction false} Regroup(a: nat, b: nat, c: nat)
    ensures a * (b * c) == (a * b) * c
  {
  }

  /** At an even height, when the skip of the next height would go too far and its own does not, it is taken. */
  lemma {:induction false} EvenJump(v: nat, c: nat, k: nat, t: nat)
    requires v == (2 * c + 1) * Pow2(k) && k > 0
    requires InvertLowestOne(v - Pow2(k)) + 1 < t <= v - Pow2(k)
    ensures Turns(v, t) == 1 + Turns(v - Pow2(k), t)
  {
    hide Pow2, InvertLowestOne, SkipHeight;
    BelowEven(v, c, k);
    EvenSkip(v, c, k);
    ClearLess(InvertLowestOne(v - Pow2(k)));
  }

  lemma {:induction false} EvenSkip(v: nat, c: nat, k: nat)
    requires v == (2 * c + 1) * Pow2(k) && k > 0
    ensures v % 2 == 0 && v > 0 && SkipHeight(v) == v - Pow2(k)
  {
    hide Pow2, InvertLowestOne;
    InvertLowestOneClears(2 * c + 1, k);
    Doubled(c, k - 1);
    OddSkip(v);
  }

  // ----- within a block below a multiple of a power of two -----

  function BlockCost(m: nat): nat {
    m * (m + 2)
  }

  lemma {:induction false} BlockCostGrows(i: nat, m: nat)
    requires i <= m
    ensures BlockCost(i) <= BlockCost(m)
  {
    MulMonotone(i, m, i + 2);
    MulMonotone(i + 2, m + 2, m);
  }

  lemma {:induction false} BlockCostNext(m: nat)
    requires m >= 2
    ensures BlockCost(m - 1) + m + 3 <= BlockCost(m)
  {
  }

  /** A multiple of a power of two, less a smaller power: its two lowest bits. */
  lemma {:induction false} LowBits(q: nat, m: nat, e: nat)
    requires q > 0 && 0 < e < m
    ensures q * Pow2(m) >= Pow2(m) >= Pow2(e + 1) == 2 * Pow2(e)
    ensures exists c: nat :: q * Pow2(m) - Pow2(e) == (2 * c + 1) * Pow2(e)
    ensures InvertLowestOne(q * Pow2(m) - Pow2(e)) == q * Pow2(m) - Pow2(e + 1)
  {
    hide InvertLowestOne, Pow2;
    var r := q * Pow2(m - e - 1);
    PowAdd(m - e - 1, e + 1);
    PowStep(e);
    PowMonotone(e + 1, m);
    MulMonotone(1, q, Pow2(m));
    MulMonotone(1, Pow2(m - e - 1), q);
    Regroup(q, Pow2(m - e - 1), Pow2(e + 1));
    Halves(r, Pow2(e));
    InvertLowestOneClears(2 * (r - 1) + 1, e);
  }

  lemma {:induction false} PowStep(e: nat)
    ensures Pow2(e + 1) == 2 * Pow2(e)
  {
  }

  lemma {:induction false} Halves(r: nat, p: nat)
    requires r > 0
    ensures r * (2 * p) - p == (2 * (r - 1) + 1) * p
  {
  }

  /** Clearing the lowest bit of a multiple takes away at least the factor. */
  lemma {:induction false} ClearAtLeast(q: nat, m: nat)
    requires q > 0
    ensures q * Pow2(m) >= Pow2(m) && InvertLowestOne(q * Pow2(m)) <= q * Pow2(m) - Pow2(m)
    decreases q
  {
    hide InvertLowestOne, Pow2;
    MulMonotone(1, q, Pow2(m));
    if q % 2 == 1 {
      InvertLowestOneClears(q, m);
    } else {
      PowStep(m);
      Regroup(q / 2, 2, Pow2(m));
      ClearAtLeast(q / 2, m + 1);
    }
  }

  /** The first turn from a multiple to a height in the block below it is a single step. */
  lemma {:induction false} IntoBlock(q: nat, m: nat, t: nat)
    requires q > 0 && m > 0 && q * Pow2(m) - Pow2(m) < t < q * Pow2(m)
    ensures Turns(q * Pow2(m), t) == 1 + Turns(q * Pow2(m) - 1, t)
  {
    hide InvertLowestOne, Pow2, SkipHeight;
    var u := q * Pow2(m);
    ClearAtLeast(q, m);
    PowStep(m - 1);
    Regroup(q, 2, Pow2(m - 1));
    EvenTimes(q, Pow2(m - 1));
    OddSkip(u);
  }

  lemma {:induction false} EvenTimes(q: nat, p: nat)
    ensures (q * 2) * p % 2 == 0
  {
    assert (q * 2) * p == 2 * (q * p);
  }

  /** From the height just above a multiple less a power: the odd heights of the block, two bits further at a time. */
  lemma {:induction false} OddBlock(q: nat, m: nat, e: nat, t: nat)
    requires q > 0 && 0 < e < m && Pow2(e) <= q * Pow2(m)
    requires q * Pow2(m) - Pow2(m) < t <= q * Pow2(m) - Pow2(e) + 1
    ensures Turns(q * Pow2(m) - Pow2(e) + 1, t) <= m - e + 3 + BlockCost(m - 1)
    decreases m, 0, m - e
  {
    hide InvertLowestOne, Pow2, SkipHeight, Turns, BlockCost;
    var u := q * Pow2(m);
    var v := u - Pow2(e);
    LowBits(q, m, e);
    var c: nat :| v == (2 * c + 1) * Pow2(e);
    EvenSkip(v, c, e);
    OddSkip(v);
    if t == v + 1 {
      NoTurns(t);
    } else {
      OddTurn(v, t);
      if SkipHeight(v + 1) >= t {
        OddSkipped(q, m, e, t);
      } else {
        OddStepped(q, m, e, t, c);
      }
    }
  }

  lemma {:induction false} NoTurns(t: nat)
    ensures Turns(t, t) == 0
  {
  }

  /** The skip from an odd height of the block stays among them, or ends the walk. */
  lemma {:induction false} OddSkipped(q: nat, m: nat, e: nat, t: nat)
    requires q > 0 && 0 < e < m && Pow2(e) < q * Pow2(m) && q * Pow2(m) - Pow2(m) < t <= q * Pow2(m) - Pow2(e)
    requires SkipHeight(q * Pow2(m) - Pow2(e) + 1) == InvertLowestOne(InvertLowestOne(q * Pow2(m) - Pow2(e))) + 1 >= t
    ensures Turns(SkipHeight(q * Pow2(m) - Pow2(e) + 1), t) <= m - e + 2 + BlockCost(m - 1)
    decreases m, 0, m - e - 1
  {
    hide InvertLowestOne, Pow2, SkipHeight, Turns, BlockCost;
    var u := q * Pow2(m);
    LowBits(q, m, e);
    var s := u - Pow2(e + 1);
    ClearLess(s);
    if e + 1 < m {
      LowBits(q, m, e + 1);
      if e + 2 < m {
        OddBlock(q, m, e + 2, t);
      } else {
        NoTurns(t);
      }
    } else {
      NoTurns(t);
    }
  }

  /** Otherwise the walk goes on in a smaller block. */
  lemma {:induction false} OddStepped(q: nat, m: nat, e: nat, t: nat, c: nat)
    requires q > 0 && 0 < e < m && Pow2(e) < q * Pow2(m) && q * Pow2(m) - Pow2(m) < t <= q * Pow2(m) - Pow2(e)
    requires q * Pow2(m) - Pow2(e) == (2 * c + 1) * Pow2(e)
    requires InvertLowestOne(InvertLowestOne(q * Pow2(m) - Pow2(e))) + 1 < t
    ensures Turns(q * Pow2(m) - Pow2(e), t) <= 1 + BlockCost(m - 1)
    decreases m, 0, 0
  {
    hide InvertLowestOne, Pow2, SkipHeight, Turns, BlockCost;
    var u := q * Pow2(m);
    var v := u - Pow2(e);
    LowBits(q, m, e);
    var s := u - Pow2(e + 1);
    if s >= t {
      EvenJump(v, c, e, t);
      LowBits(q, m, e + 1);
      var d: nat :| s == (2 * d + 1) * Pow2(e + 1);
      PowStep(e + 1);
      BlockTurns(2 * d + 1, e + 1, t);
      BlockCostGrows(e + 1, m - 1);
    } else {
      BlockTurns(2 * c + 1, e, t);
      BlockCostGrows(e, m - 1);
    }
  }

  /** Within the block below a multiple of a power of two. */
  lemma {:induction false} BlockTurns(q: nat, m: nat, t: nat)
    requires q > 0 && q * Pow2(m) - Pow2(m) < t <= q * Pow2(m)
    ensures Turns(q * Pow2(m), t) <= BlockCost(m)
    decreases m, 1, 0
  {
    hide InvertLowestOne, Pow2, SkipHeight, Turns, BlockCost;
    var u := q * Pow2(m);
    NoTurns(t);
    PowSmall();
    if t < u && m > 0 {
      IntoBlock(q, m, t);
      if m >= 2 {
        PowMonotone(1, m);
        MulMonotone(1, q, Pow2(m));
        OddBlock(q, m, 1, t);
        BlockCostNext(m);
      } else {
        BlockCostOne();
      }
    }
  }

  lemma {:induction false} BlockCostOne()
    ensures BlockCost(1) >= 1
  {
  }

  // ----- the whole walk -----

  /** The number of bits set. */
  function Ones(n: nat): nat {
    if n == 0 then 0
    else
      ClearLess(n);
      1 + Ones(InvertLowestOne(n))
  }

  lemma {:induction false} OnesOfMultiple(q: nat, j: nat, k: nat)
    requires j <= k && q * Pow2(j) < Pow2(k)
    ensures Ones(q * Pow2(j)) <= k - j
    decreases q
  {
    hide InvertLowestOne, Pow2;
    if q > 0 {
      MulMonotone(1, q, Pow2(j));
      if j == k {
        assert false;
      }
      PowStep(j);
      Regroup(q / 2, 2, Pow2(j));
      if q % 2 == 1 {
        InvertLowestOneClears(q, j);
        Split(q / 2, Pow2(j));
        OnesOfMultiple(q / 2, j + 1, k);
      } else {
        OnesOfMultiple(q / 2, j + 1, k);
      }
    }
  }

  lemma {:induction false} OnesBound(n: nat, k: nat)
    requires n < Pow2(k)
    ensures Ones(n) <= k
  {
    PowSmall();
    OnesOfMultiple(n, 0, k);
  }

  /** The height without its lowest bit. */
  function Even(w: nat): nat {
    w - w % 2
  }

  lemma {:induction false} InBlock(v: nat, c: nat, k: nat, t: nat, n: nat)
    requires v == (2 * c + 1) * Pow2(k) && v - Pow2(k) < t <= v < Pow2(n)
    ensures Turns(v, t) <= BlockCost(n)
  {
    hide Pow2, Turns, BlockCost;
    MulMonotone(1, 2 * c + 1, Pow2(k));
    BlockTurns(2 * c + 1, k, t);
    if k > n {
      PowMonotone(n, k);
    }
    BlockCostGrows(k, n);
  }

  /** From an odd height whose skip goes too far, two turns lead into a block. */
  lemma {:induction false} OddDown(v: nat, t: nat, n: nat)
    requires v % 2 == 0 && 0 < v < Pow2(n) && t <= v && InvertLowestOne(InvertLowestOne(v)) + 1 < t
    ensures Turns(v, t) <= 1 + BlockCost(n)
  {
    hide InvertLowestOne, Pow2, Turns, BlockCost;
    var c, k := Decompose(v);
    var s := v - Pow2(k);
    if s >= t {
      EvenJump(v, c, k, t);
      var d, j := Decompose(s);
      InBlock(s, d, j, t, n);
    } else {
      InBlock(v, c, k, t, n);
    }
  }

  /** At an even height whose skip does not go too far: it is taken, or the next height's is. */
  lemma {:induction false} EvenTurn(w: nat, c: nat, k: nat, t: nat)
    requires w == (2 * c + 1) * Pow2(k) && k > 0 && t <= w - Pow2(k)
    ensures w - Pow2(k) == InvertLowestOne(w)
    ensures Jumps(w, t) ==> Turns(w, t) == 1 + Turns(w - Pow2(k), t)
    ensures !Jumps(w, t) ==> t <= SkipHeight(w - 1) < w && Turns(w, t) == 2 + Turns(SkipHeight(w - 1), t)
    ensures !Jumps(w, t) ==> k <= 2 && SkipHeight(w - 1) % 2 == 1 && c > 0
  {
    hide InvertLowestOne, Pow2, SkipHeight, Turns;
    EvenSkip(w, c, k);
    BelowEven(w, c, k);
    OddSkip(w);
    TurnOnce(w, t);
    if !Jumps(w, t) {
      NextSkip(w, t);
    }
  }

  lemma {:induction false} TurnOnce(w: nat, t: nat)
    requires t < w
    ensures SkipHeight(w) < w
    ensures Jumps(w, t) ==> Turns(w, t) == 1 + Turns(SkipHeight(w), t)
    ensures !Jumps(w, t) ==> Turns(w, t) == 1 + Turns(w - 1, t)
  {
    hide SkipHeight;
    SkipsBack(w);
  }

  lemma {:induction false} NextSkip(w: nat, t: nat)
    requires w % 2 == 0 && w > 4 && t <= SkipHeight(w - 1) < w - 4
    ensures Turns(w - 1, t) == 1 + Turns(SkipHeight(w - 1), t) && SkipHeight(w - 1) % 2 == 1
  {
    hide InvertLowestOne, SkipHeight, Turns;
    OddSkip(w - 2);
    OddTurn(w - 2, t);
  }

  lemma {:induction false} FewerOnes(n: nat)
    ensures Ones(InvertLowestOne(n)) <= Ones(n) && (n > 0 ==> Ones(InvertLowestOne(n)) == Ones(n) - 1)
  {
    hide InvertLowestOne;
    assert InvertLowestOne(0) == 0 by {
      ClearLess(0);
    }
  }

  /** Two turns at an even height clear two bits at least. */
  lemma {:induction false} TwoFewerOnes(w: nat, c: nat, k: nat)
    requires w == (2 * c + 1) * Pow2(k) && 0 < k <= 2 && c > 0 && w - Pow2(k) == InvertLowestOne(w)
    requires SkipHeight(w - 1) % 2 == 1
    ensures Ones(Even(SkipHeight(w - 1))) + 2 <= Ones(w)
  {
    hide InvertLowestOne, Pow2, SkipHeight, Ones;
    BelowEven(w, c, k);
    MulMonotone(1, c, Pow2(k));
    FewerOnes(w);
    FewerOnes(InvertLowestOne(w));
    FewerOnes(InvertLowestOne(InvertLowestOne(w)));
  }

  lemma {:induction false} AnyTurns(w: nat, t: nat, n: nat)
    requires t <= w < Pow2(n)
    ensures Turns(w, t) <= Ones(Even(w)) + 2 + BlockCost(n)
    decreases w
  {
    hide InvertLowestOne, Pow2, SkipHeight, Turns, BlockCost, Ones;
    NoTurns(t);
    if w == t {
    } else if w == 1 {
      FirstTurn();
    } else if w % 2 == 1 {
      var v := w - 1;
      OddSkip(v);
      OddTurn(v, t);
      if SkipHeight(w) >= t {
        AnyTurns(SkipHeight(w), t, n);
        FewerOnes(v);
        FewerOnes(InvertLowestOne(v));
      } else {
        OddDown(v, t, n);
      }
    } else {
      var c, k := Decompose(w);
      if w - Pow2(k) < t {
        InBlock(w, c, k, t, n);
      } else {
        EvenTurn(w, c, k, t);
        OddSkip(w);
        FewerOnes(w);
        if Jumps(w, t) {
          AnyTurns(w - Pow2(k), t, n);
        } else {
          TwoFewerOnes(w, c, k);
          AnyTurns(SkipHeight(w - 1), t, n);
        }
      }
    }
  }

  lemma {:induction false} FirstTurn()
    ensures Turns(1, 0) == 1
  {
    assert SkipHeight(1) == 0;
  }

  /** A walk from a height below 2^n takes at most (n + 1)(n + 2) turns, wherever it leads. */
  lemma {:induction false} FewTurns(w: nat, t: nat, n: nat)
    requires t <= w < Pow2(n)
    ensures Turns(w, t) <= (n + 1) * (n + 2)
  {
    AnyTurns(w, t, n);
    OnesBound(Even(w), n);
  }

  // ----- the bound is tight -----

  /** The turns from 2^m to height two. */
  function PowerCost(m: nat): int {
    (m + 1) * (m + 1) / 4 + m - 2
  }

  lemma {:induction false} PowerCostNext(m: nat)
    requires m >= 2
    ensures PowerCost(m) == PowerCost(m - 1) + (m - 1) / 2 + 2
  {
    if m % 2 == 0 {
      EvenSquares(m / 2);
    } else {
      OddSquares(m / 2);
    }
  }

  lemma {:induction false} EvenSquares(k: nat)
    ensures (2 * k + 1) * (2 * k + 1) / 4 == k * k + k && 2 * k * (2 * k) / 4 == k * k
  {
    assert (2 * k + 1) * (2 * k + 1) == 4 * (k * k + k) + 1;
    assert 2 * k * (2 * k) == 4 * (k * k);
  }

  lemma {:induction false} OddSquares(k: nat)
    ensures (2 * k + 2) * (2 * k + 2) / 4 == k * k + 2 * k + 1 && (2 * k + 1) * (2 * k + 1) / 4 == k * k + k
  {
    EvenSquares(k);
    assert (2 * k + 2) * (2 * k + 2) == 4 * (k * k + 2 * k + 1);
  }

  lemma {:induction false} ClearPower(m: nat)
    ensures InvertLowestOne(Pow2(m)) == 0
  {
    hide InvertLowestOne, Pow2;
    InvertLowestOneClears(1, m);
  }

  /** From 2^m less an odd power, and one: two bits at a time down to the next power of two. */
  lemma {:induction false} Ladder(m: nat, e: nat)
    requires e % 2 == 1 && e < m && Pow2(e) < Pow2(m)
    ensures Pow2(m) - Pow2(e) + 1 >= 2 && Pow2(m - 1) >= 2
    ensures Turns(Pow2(m) - Pow2(e) + 1, 2) == (m - e) / 2 + 1 + Turns(Pow2(m - 1), 2)
    decreases m - e
  {
    hide InvertLowestOne, Pow2, SkipHeight, Turns;
    LadderRoom(m, e);
    if e + 2 < m {
      LadderRoom(m, e + 2);
      LadderSkip(m, e);
      Ladder(m, e + 2);
    } else if e + 2 == m {
      LadderEnd(m);
    } else {
      LadderStop(m);
    }
  }

  /** The bits of the heights of the ladder. */
  lemma {:induction false} LadderRoom(m: nat, e: nat)
    requires 0 < e < m
    ensures Pow2(m) == 2 * Pow2(m - 1) && Pow2(m - 1) >= Pow2(e) >= 2
    ensures (Pow2(m) - Pow2(e)) % 2 == 0
    ensures InvertLowestOne(Pow2(m) - Pow2(e)) == Pow2(m) - Pow2(e + 1)
    ensures SkipHeight(Pow2(m) - Pow2(e) + 1) == InvertLowestOne(Pow2(m) - Pow2(e + 1)) + 1
  {
    hide InvertLowestOne, Pow2, SkipHeight;
    PowSmall();
    PowMonotone(1, e);
    PowMonotone(e, m - 1);
    PowStep(m - 1);
    LowBits(1, m, e);
    assert 1 * Pow2(m) == Pow2(m);
    var c: nat :| Pow2(m) - Pow2(e) == (2 * c + 1) * Pow2(e);
    EvenSkip(Pow2(m) - Pow2(e), c, e);
    OddSkip(Pow2(m) - Pow2(e));
  }

  lemma {:induction false} LadderSkip(m: nat, e: nat)
    requires 0 < e && e + 2 < m
    ensures Pow2(m) - Pow2(e) >= 2 && Pow2(m) - Pow2(e + 2) >= 1
    ensures Turns(Pow2(m) - Pow2(e) + 1, 2) == 1 + Turns(Pow2(m) - Pow2(e + 2) + 1, 2)
  {
    hide InvertLowestOne, Pow2, SkipHeight, Turns;
    LadderRoom(m, e + 1);
    var s := Pow2(m) - Pow2(e + 2) + 1;
    LadderRoom(m, e + 2);
    LadderRoom(m, e);
    var v := Pow2(m) - Pow2(e);
    assert SkipHeight(v + 1) == s;
    OddTurn(v, 2);
  }

  lemma {:induction false} LadderEnd(m: nat)
    requires m >= 3
    ensures Pow2(m) - Pow2(m - 2) >= 2 && Pow2(m - 1) >= 2
    ensures Turns(Pow2(m) - Pow2(m - 2) + 1, 2) == 2 + Turns(Pow2(m - 1), 2)
  {
    hide InvertLowestOne, Pow2, SkipHeight, Turns;
    LadderRoom(m, m - 2);
    LadderRoom(m, m - 1);
    PowStep(m - 2);
    ClearPower(m - 1);
    var v := Pow2(m) - Pow2(m - 2);
    OddTurn(v, 2);
    LowBits(1, m, m - 2);
    assert 1 * Pow2(m) == Pow2(m);
    var c: nat :| v == (2 * c + 1) * Pow2(m - 2);
    EvenJump(v, c, m - 2, 2);
  }

  lemma {:induction false} LadderStop(m: nat)
    requires m >= 2
    ensures Pow2(m) - Pow2(m - 1) == Pow2(m - 1) >= 2
    ensures Turns(Pow2(m) - Pow2(m - 1) + 1, 2) == 1 + Turns(Pow2(m - 1), 2)
  {
    hide InvertLowestOne, Pow2, SkipHeight, Turns;
    LadderRoom(m, m - 1);
    ZeroClear();
    OddTurn(Pow2(m - 1), 2);
  }

  lemma {:induction false} ZeroClear()
    ensures InvertLowestOne(0) == 0
  {
  }

  lemma {:induction false} PowerTurns(m: nat)
    requires m >= 1
    ensures Pow2(m) >= 2 && Turns(Pow2(m), 2) == PowerCost(m)
    decreases m
  {
    hide InvertLowestOne, Pow2, SkipHeight, Turns, PowerCost;
    PowSmall();
    PowMonotone(1, m);
    if m == 1 {
      NoTurns(2);
      PowerCostOne();
    } else {
      PowMonotone(2, m);
      IntoBlock(1, m, 2);
      Ladder(m, 1);
      PowerTurns(m - 1);
      PowerCostNext(m);
    }
  }

  lemma {:induction false} PowerCostOne()
    ensures PowerCost(1) == 0
  {
  }

  /** From 2^n less a power of two, from the third on: one bit at a time up to the highest. */
  lemma {:induction false} ManySkips(n: nat, j: nat)
    requires 3 <= j < n
    ensures Pow2(n) - Pow2(j) >= 2 && Pow2(n - 1) >= 2
    ensures Turns(Pow2(n) - Pow2(j), 2) == n - 1 - j + Turns(Pow2(n - 1), 2)
    decreases n - j
  {
    hide InvertLowestOne, Pow2, SkipHeight, Turns;
    PowSmall();
    PowMonotone(1, n - 1);
    PowMonotone(1, j);
    PowStep(n - 1);
    LowBits(1, n, j);
    if j + 1 < n {
      PowStep(j + 1);
      PowMonotone(j + 2, n);
      PowMonotone(1, j + 1);
      var c: nat :| Pow2(n) - Pow2(j) == (2 * c + 1) * Pow2(j);
      EvenTurn(Pow2(n) - Pow2(j), c, j, 2);
      ManySkips(n, j + 1);
    }
  }

  /** The walk is not logarithmic: from 2^n - 8 to height two it takes this many turns, 110 of them for n = 18. */
  lemma {:induction false} ManyTurns(n: nat)
    requires n >= 4
    ensures Pow2(n) >= 10 && Turns(Pow2(n) - 8, 2) == n * n / 4 + 2 * n - 7
  {
    hide Pow2, Turns;
    PowSmall();
    PowStep(3);
    PowMonotone(4, n);
    ManySkips(n, 3);
    PowerTurns(n - 1);
  }

  /** No multiple of the length of the height, with any constant, bounds the turns. */
  lemma {:induction false} NotLogarithmic(c: nat, d: nat) returns (n: nat)
    ensures n >= 4 && Pow2(n) >= 10 && Turns(Pow2(n) - 8, 2) > c * n + d
  {
    hide Pow2, Turns;
    n := 4 * (c + d + 4);
    ManyTurns(n);
    assert n * n == 4 * ((c + d + 4) * n);
    assert (c + d + 4) * n == c * n + d * n + 4 * n;
    MulMonotone(1, n, d);
  }

  /** For an entry of the index: the ancestor is found in at most (n + 1)(n + 2) turns from a height below 2^n. */
  method FindAncestor(tree: BlockTree, h: Hash, target: nat, ghost n: nat) returns (r: BlockIndex?, ghost turns: nat)
    requires tree.Valid() && h in tree.index && tree.index[h].height < Pow2(n)
    ensures Linked(tree.index[h]) && r == Ancestor(tree.index[h], target)
    ensures turns <= (n + 1) * (n + 2)
  {
    var b := tree.index[h];
    assert Filed(tree.index, h);
    LineShape(b);
    if target <= b.height {
      FewTurns(b.height, target, n);
    }
    r, turns := b.GetAncestor(target);
  }
}
