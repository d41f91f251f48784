/** Positional notation, most significant digit first. */
module Digits {
  import opened Powers

  function Pow(b: nat, n: nat): nat {
    if n == 0 then 1 else b * Pow(b, n - 1)
  }

  ghost predicate AreDigits(b: nat, s: seq<nat>) {
    forall i :: 0 <= i < |s| ==> s[i] < b
  }

  /** The number that digits stand for. */
  function Number(b: nat, s: seq<nat>): nat {
    if s == [] then 0 else Number(b, s[..|s| - 1]) * b + s[|s| - 1]
  }

  /** The digits of a number, without leading zeroes. */
  function DigitsOf(b: nat, v: nat): (s: seq<nat>)
    requires b > 1
    ensures forall i :: 0 <= i < |s| ==> s[i] < b
    decreases v
  {
    if v == 0 then [] else
      DivLess(v, b);
      DigitsOf(b, v / b) + [v % b]
  }

  lemma {:induction false} DivLess(v: nat, b: nat)
    requires v > 0 && b > 1
    ensures v / b < v
  {
    assert v == (v / b) * b + v % b;
    MulMonotone(2, b, v / b);
  }

  lemma {:induction false} NumberAppend(b: nat, s: seq<nat>, d: nat)
    ensures Number(b, s + [d]) == Number(b, s) * b + d
  {
    assert (s + [d])[..|s|] == s;
  }

  lemma {:induction false} DivBack(v: nat, b: nat)
    requires b > 0
    ensures v / b * b + v % b == v
  {
  }

  lemma {:induction false} NoDigits(b: nat)
    requires b > 1
    ensures DigitsOf(b, 0) == [] && Number(b, []) == 0
  {
  }

  lemma {:induction false} LastDigit(b: nat, v: nat)
    requires b > 1 && v > 0
    ensures DigitsOf(b, v) == DigitsOf(b, v / b) + [v % b]
  {
  }

  lemma {:induction false} NumberOfDigits(b: nat, v: nat)
    requires b > 1
    ensures Number(b, DigitsOf(b, v)) == v
    decreases v
  {
    hide DigitsOf, Number;
    if v == 0 {
      NoDigits(b);
    } else {
      var q, r := v / b, v % b;
      DivLess(v, b);
      LastDigit(b, v);
      NumberOfDigits(b, q);
      NumberAppend(b, DigitsOf(b, q), r);
      DivBack(v, b);
    }
  }

  lemma {:induction false} NoLeadingZero(b: nat, v: nat)
    requires b > 1 && v > 0
    ensures DigitsOf(b, v) != [] && DigitsOf(b, v)[0] != 0
    decreases v
  {
    if v < b {
      DivUnique(v, b, 0, v);
    } else {
      DivLess(v, b);
      QuotientPositive(v, b);
      NoLeadingZero(b, v / b);
    }
  }

  lemma {:induction false} QuotientPositive(v: nat, b: nat)
    requires b > 0 && v >= b
    ensures v / b > 0
  {
    assert v == (v / b) * b + v % b;
  }

  /** Digits without a leading zero are those of their number. */
  lemma {:induction false} DigitsUnique(b: nat, s: seq<nat>)
    requires b > 1 && AreDigits(b, s) && (s != [] ==> s[0] != 0)
    ensures DigitsOf(b, Number(b, s)) == s
    decreases |s|
  {
    if s != [] {
      var n := |s| - 1;
      var v := Number(b, s[..n]);
      DigitsUnique(b, s[..n]);
      DivUnique(Number(b, s), b, v, s[n]);
      PositiveNumber(b, s);
      assert s == s[..n] + [s[n]];
    }
  }

  lemma {:induction false} PositiveNumber(b: nat, s: seq<nat>)
    requires b > 1 && s != [] && s[0] != 0
    ensures Number(b, s) > 0
    decreases |s|
  {
    var n := |s| - 1;
    if n > 0 {
      PositiveNumber(b, s[..n]);
      MulMonotone(1, b, Number(b, s[..n]));
    }
  }

  lemma {:induction false} LeadingZeroes(b: nat, zeroes: seq<nat>, s: seq<nat>)
    requires forall i :: 0 <= i < |zeroes| ==> zeroes[i] == 0
    ensures Number(b, zeroes + s) == Number(b, s)
    decreases |s|
  {
    if s == [] {
      AllZero(b, zeroes);
      assert zeroes + s == zeroes;
    } else {
      var n := |s| - 1;
      LeadingZeroes(b, zeroes, s[..n]);
      assert (zeroes + s)[..|zeroes| + n] == zeroes + s[..n];
    }
  }

  lemma {:induction false} AllZero(b: nat, s: seq<nat>)
    requires forall i :: 0 <= i < |s| ==> s[i] == 0
    ensures Number(b, s) == 0
    decreases |s|
  {
    if s != [] {
      AllZero(b, s[..|s| - 1]);
    }
  }

  lemma {:induction false} NumberBound(b: nat, s: seq<nat>)
    requires b > 1 && AreDigits(b, s)
    ensures Number(b, s) < Pow(b, |s|)
    decreases |s|
  {
    if s != [] {
      var n := |s| - 1;
      NumberBound(b, s[..n]);
      MulMonotone(Number(b, s[..n]) + 1, Pow(b, n), b);
      assert (Number(b, s[..n]) + 1) * b == Number(b, s[..n]) * b + b;
    }
  }

  lemma {:induction false} PowMore(b: nat, m: nat, n: nat)
    ensures Pow(b, m + n) == Pow(b, m) * Pow(b, n)
    decreases n
  {
    if n > 0 {
      PowMore(b, m, n - 1);
      assert Pow(b, m) * (b * Pow(b, n - 1)) == b * (Pow(b, m) * Pow(b, n - 1));
    }
  }

  lemma {:induction false} PowGrows(b: nat, m: nat, n: nat)
    requires b >= 1 && m <= n
    ensures 1 <= Pow(b, m) <= Pow(b, n)
    decreases n
  {
    if m < n {
      PowGrows(b, m, n - 1);
      MulMonotone(1, b, Pow(b, n - 1));
    } else if n > 0 {
      PowGrows(b, m - 1, n - 1);
      MulMonotone(1, b, Pow(b, n - 1));
    }
  }

  // ---- Multiplying by one base and adding, in the other ----

  /** The number in the last `k` digits. */
  function Tail(b: nat, s: seq<nat>, k: nat): nat
    requires k <= |s|
  {
    if k == 0 then 0 else s[|s| - k] * Pow(b, k - 1) + Tail(b, s, k - 1)
  }

  lemma {:induction false} TailSame(b: nat, s: seq<nat>, t: seq<nat>, k: nat)
    requires |s| == |t| && k <= |s| && forall i :: |s| - k <= i < |s| ==> s[i] == t[i]
    ensures Tail(b, s, k) == Tail(b, t, k)
  {
    if k > 0 {
      TailSame(b, s, t, k - 1);
    }
  }

  lemma {:induction false} TailDrop(b: nat, s: seq<nat>, k: nat)
    requires s != [] && 0 < k <= |s|
    ensures Tail(b, s, k) == Tail(b, s[..|s| - 1], k - 1) * b + s[|s| - 1]
    decreases k
  {
    if k > 1 {
      TailDrop(b, s, k - 1);
      var front := s[..|s| - 1];
      assert s[|s| - k] == front[|front| - (k - 1)];
      var x, p, y := s[|s| - k], Pow(b, k - 2), Tail(b, front, k - 2);
      assert x * (b * p) == (x * p) * b;
      assert (x * p + y) * b == (x * p) * b + y * b;
    } else {
      assert Pow(b, 0) == 1;
    }
  }

  lemma {:induction false} WholeTail(b: nat, s: seq<nat>)
    ensures Tail(b, s, |s|) == Number(b, s)
    decreases |s|
  {
    if s != [] {
      TailDrop(b, s, |s|);
      WholeTail(b, s[..|s| - 1]);
    }
  }

  lemma {:induction false} CarryStep(t: nat, p: nat, carry: nat, x: nat, m: nat, b: nat, t0: nat, c: nat, add: nat)
    requires b > 0 && t + carry * p == t0 * m + add && c == carry + m * x
    ensures (c % b) * p + t + (c / b) * (b * p) == (x * p + t0) * m + add
  {
    assert c == (c / b) * b + c % b;
    assert (c / b) * (b * p) == ((c / b) * b) * p;
    assert c * p == carry * p + (m * x) * p;
    assert (x * p + t0) * m == (m * x) * p + t0 * m;
  }

  /** The inner loop of both conversions: the buffer becomes its number times `m` plus `add`;
      `carry` is what does not fit. */
  method MultiplyAdd(buf: array<nat>, b: nat, m: nat, add: nat) returns (carry: nat)
    requires b > 1 && AreDigits(b, buf[..])
    modifies buf
    ensures AreDigits(b, buf[..])
    ensures Number(b, buf[..]) + carry * Pow(b, buf.Length) == old(Number(b, buf[..])) * m + add
  {
    hide Number;
    ghost var s := buf[..];
    carry := add;
    var k := 0;
    while k < buf.Length
      invariant 0 <= k <= buf.Length
      invariant forall i :: 0 <= i < buf.Length - k ==> buf[i] == s[i]
      invariant AreDigits(b, buf[..])
      invariant Tail(b, buf[..], k) + carry * Pow(b, k) == Tail(b, s, k) * m + add
    {
      var i := buf.Length - 1 - k;
      ghost var before := buf[..];
      var c := carry + m * buf[i];
      CarryStep(Tail(b, before, k), Pow(b, k), carry, s[i], m, b, Tail(b, s, k), c, add);
      buf[i] := c % b;
      TailSame(b, before, buf[..], k);
      carry := c / b;
      k := k + 1;
    }
    WholeTail(b, buf[..]);
    WholeTail(b, s);
  }

  /** When the result has room, nothing is left over. */
  lemma {:induction false} NothingCarried(x: nat, carry: nat, p: nat, v: nat)
    requires x + carry * p == v && v < p
    ensures carry == 0 && x == v
  {
    if carry > 0 {
      MulMonotone(1, carry, p);
    }
  }
}
