/** Positional notation, most significant digit first. */
module Digits {

  function Pow(b: nat, e: nat): nat {
    if e == 0 then 1 else b * Pow(b, e - 1)
  }

  function Eval(base: nat, d: seq<nat>): nat {
    if d == [] then 0 else Eval(base, d[..|d| - 1]) * base + d[|d| - 1]
  }

  predicate AreDigits(base: nat, d: seq<nat>) {
    forall i :: 0 <= i < |d| ==> d[i] < base
  }

  lemma {:induction false} PowPositive(b: nat, e: nat)
    requires b > 0
    ensures Pow(b, e) > 0
    decreases e
  {
    if e > 0 {
      PowPositive(b, e - 1);
      MulPositive(b, Pow(b, e - 1));
    }
  }

  lemma MulPositive(a: nat, b: nat)
    requires a > 0 && b > 0
    ensures a * b > 0
  {
  }

  lemma MulMono(a: nat, b: nat, c: nat)
    requires a <= b
    ensures a * c <= b * c
  {
  }

  lemma {:induction false} PowAdd(b: nat, m: nat, n: nat)
    ensures Pow(b, m + n) == Pow(b, m) * Pow(b, n)
    decreases m
  {
    if m > 0 {
      PowAdd(b, m - 1, n);
      calc {
        Pow(b, m + n);
        b * Pow(b, m - 1 + n);
        b * (Pow(b, m - 1) * Pow(b, n));
        { MulAssoc(b, Pow(b, m - 1), Pow(b, n)); }
        Pow(b, m) * Pow(b, n);
      }
    }
  }

  lemma MulAssoc(a: nat, b: nat, c: nat)
    ensures a * (b * c) == (a * b) * c
  {
  }

  lemma {:induction false} PowMono(b: nat, m: nat, n: nat)
    requires b > 0 && m <= n
    ensures Pow(b, m) <= Pow(b, n)
    decreases n
  {
    if m < n {
      PowMono(b, m, n - 1);
      PowPositive(b, n - 1);
      MulMono(1, b, Pow(b, n - 1));
    }
  }

  lemma {:induction false} PowMul(b: nat, m: nat, n: nat)
    ensures Pow(Pow(b, m), n) == Pow(b, m * n)
    decreases n
  {
    if n > 0 {
      PowMul(b, m, n - 1);
      PowAdd(b, m, m * (n - 1));
      assert m * n == m + m * (n - 1);
    }
  }

  lemma {:induction false} PowBaseMono(a: nat, b: nat, n: nat)
    requires a <= b
    ensures Pow(a, n) <= Pow(b, n)
    decreases n
  {
    if n > 0 {
      PowBaseMono(a, b, n - 1);
      MulMono(a, b, Pow(a, n - 1));
      MulMono(Pow(a, n - 1), Pow(b, n - 1), b);
    }
  }

  lemma {:induction false} EvalConcat(base: nat, a: seq<nat>, b: seq<nat>)
    ensures Eval(base, a + b) == Eval(base, a) * Pow(base, |b|) + Eval(base, b)
    decreases |b|
  {
    if b == [] {
      assert a + b == a;
    } else {
      var n := |b| - 1;
      EvalConcat(base, a, b[..n]);
      assert (a + b)[..|a + b| - 1] == a + b[..n];
      var x, p, y := Eval(base, a), Pow(base, n), Eval(base, b[..n]);
      Distribute(x, p, y, base);
    }
  }

  lemma Distribute(x: nat, p: nat, y: nat, base: nat)
    ensures (x * p + y) * base == x * (base * p) + y * base
  {
  }

  lemma StepBound(e: nat, x: nat, base: nat, p: nat)
    requires e < p && x < base
    ensures e * base + x < base * p
  {
    MulMono(e + 1, p, base);
    assert (e + 1) * base == e * base + base;
  }

  lemma {:induction false} EvalBound(base: nat, d: seq<nat>)
    requires base > 0 && AreDigits(base, d)
    ensures Eval(base, d) < Pow(base, |d|)
    decreases |d|
  {
    if d != [] {
      var n := |d| - 1;
      EvalBound(base, d[..n]);
      StepBound(Eval(base, d[..n]), d[n], base, Pow(base, n));
    }
  }

  /** Without leading zero, the value decides the number of digits. */
  lemma EvalAtLeast(base: nat, d: seq<nat>)
    requires base > 0 && d != [] && d[0] != 0
    ensures Eval(base, d) >= Pow(base, |d| - 1)
  {
    assert d == [d[0]] + d[1..];
    EvalConcat(base, [d[0]], d[1..]);
    assert [d[0]][..0] == [];
    MulMono(1, d[0], Pow(base, |d| - 1));
  }

  lemma DivModUnique(base: nat, a: nat, x: nat, b: nat, y: nat)
    requires x < base && y < base && a * base + x == b * base + y
    ensures a == b && x == y
  {
    if a < b {
      MulMono(a + 1, b, base);
    } else if b < a {
      MulMono(b + 1, a, base);
    }
  }

  /** Equal values of equal length have equal digits. */
  lemma {:induction false} EvalInjective(base: nat, a: seq<nat>, b: seq<nat>)
    requires AreDigits(base, a) && AreDigits(base, b) && |a| == |b| && Eval(base, a) == Eval(base, b)
    ensures a == b
    decreases |a|
  {
    if a != [] {
      var n := |a| - 1;
      DivModUnique(base, Eval(base, a[..n]), a[n], Eval(base, b[..n]), b[n]);
      EvalInjective(base, a[..n], b[..n]);
      assert a == a[..n] + [a[n]] && b == b[..n] + [b[n]];
    }
  }

  predicate NoLeadingZero(d: seq<nat>) {
    d == [] || d[0] != 0
  }

  lemma ShorterIsSmaller(base: nat, a: seq<nat>, b: seq<nat>)
    requires base > 0 && AreDigits(base, a) && |a| < |b| && NoLeadingZero(b)
    ensures Eval(base, a) < Eval(base, b)
  {
    EvalBound(base, a);
    EvalAtLeast(base, b);
    PowMono(base, |a|, |b| - 1);
  }

  /** The shortest notation of a number is unique. */
  lemma ShortestUnique(base: nat, a: seq<nat>, b: seq<nat>)
    requires base > 0 && AreDigits(base, a) && AreDigits(base, b) && NoLeadingZero(a) && NoLeadingZero(b)
    requires Eval(base, a) == Eval(base, b)
    ensures a == b
  {
    if |a| < |b| {
      ShorterIsSmaller(base, a, b);
    } else if |b| < |a| {
      ShorterIsSmaller(base, b, a);
    } else {
      EvalInjective(base, a, b);
    }
  }

  function Zeros(n: nat): seq<nat> {
    seq(n, _ => 0)
  }

  lemma {:induction false} EvalZeros(base: nat, n: nat)
    ensures Eval(base, Zeros(n)) == 0
    decreases n
  {
    if n > 0 {
      EvalZeros(base, n - 1);
      assert Zeros(n)[..n - 1] == Zeros(n - 1);
    }
  }

  lemma LeadingZeros(base: nat, n: nat, d: seq<nat>)
    ensures Eval(base, Zeros(n) + d) == Eval(base, d)
  {
    EvalConcat(base, Zeros(n), d);
    EvalZeros(base, n);
  }

  // ---------------------------------------------------------------------
  // Comparing powers of two bases

  lemma {:induction false} PowStrict(a: nat, b: nat, n: nat)
    requires a < b && n > 0
    ensures Pow(a, n) < Pow(b, n)
    decreases n
  {
    if n == 1 {
      assert Pow(a, 1) == a * Pow(a, 0) == a;
      assert Pow(b, 1) == b * Pow(b, 0) == b;
    } else {
      PowStrict(a, b, n - 1);
      MulMono(a, b, Pow(a, n - 1));
      PowPositive(b, n - 1);
      ScaleStrict(Pow(a, n - 1), Pow(b, n - 1), b);
    }
  }

  lemma ScaleStrict(x: nat, y: nat, b: nat)
    requires x < y && b > 0
    ensures b * x < b * y
  {
  }

  /** If a^q <= b^p and p * n <= q * s then a^n <= b^s: a logarithm bounded by a fraction. */
  lemma PowersCompared(a: nat, b: nat, p: nat, q: nat, n: nat, s: nat)
    requires a > 0 && b > 0 && q > 0 && Pow(a, q) <= Pow(b, p) && p * n <= q * s
    ensures Pow(a, n) <= Pow(b, s)
  {
    hide Pow;
    if Pow(a, n) > Pow(b, s) {
      PowStrict(Pow(b, s), Pow(a, n), q);
      assert Pow(Pow(a, n), q) == Pow(Pow(a, q), n) by {
        PowMul(a, n, q);
        PowMul(a, q, n);
        Commute(n, q);
      }
      assert Pow(Pow(a, q), n) <= Pow(b, p * n) by {
        PowBaseMono(Pow(a, q), Pow(b, p), n);
        PowMul(b, p, n);
      }
      assert Pow(b, p * n) <= Pow(Pow(b, s), q) by {
        PowMono(b, p * n, q * s);
        PowMul(b, s, q);
        Commute(s, q);
      }
    }
  }

  lemma Commute(a: nat, b: nat)
    ensures a * b == b * a
  {
  }

  // ---------------------------------------------------------------------
  // The shortest notation

  lemma DivFacts(v: nat, base: nat)
    requires base > 1
    ensures v / base >= 0 && v % base < base && v == (v / base) * base + v % base
    ensures v > 0 ==> v / base < v
  {
    if v > 0 && v / base >= v {
      MulMono(v, v / base, base);
      MulMono(2, base, v);
      Commute(base, v);
    }
  }

  function ToDigits(base: nat, v: nat): seq<nat>
    requires base > 1
    decreases v
  {
    if v == 0 then []
    else
      DivFacts(v, base);
      ToDigits(base, v / base) + [v % base]
  }

  lemma EvalSnoc(base: nat, d: seq<nat>, x: nat)
    ensures Eval(base, d + [x]) == Eval(base, d) * base + x
  {
    assert (d + [x])[..|d|] == d;
  }

  lemma {:induction false} ToDigitsFacts(base: nat, v: nat)
    requires base > 1
    ensures AreDigits(base, ToDigits(base, v)) && NoLeadingZero(ToDigits(base, v)) && Eval(base, ToDigits(base, v)) == v
    ensures v > 0 ==> ToDigits(base, v) != []
    decreases v
  {
    hide Eval;
    if v == 0 {
      EvalEmpty(base);
    } else {
      DivFacts(v, base);
      var q, r := v / base, v % base;
      ToDigitsFacts(base, q);
      ToDigitsStep(base, v);
      EvalSnoc(base, ToDigits(base, q), r);
      if q == 0 {
        LoneDigit(base, v);
      }
    }
  }

  lemma EvalEmpty(base: nat)
    ensures Eval(base, []) == 0
  {
  }

  lemma ToDigitsStep(base: nat, v: nat)
    requires base > 1 && v > 0
    ensures ToDigits(base, v) == ToDigits(base, v / base) + [v % base]
  {
  }

  lemma LoneDigit(base: nat, v: nat)
    requires base > 1 && v > 0 && v / base == 0
    ensures v % base != 0 && ToDigits(base, v / base) == []
  {
    DivFacts(v, base);
  }

  /** Any notation without leading zero is the shortest one. */
  lemma IsToDigits(base: nat, d: seq<nat>)
    requires base > 1 && AreDigits(base, d) && NoLeadingZero(d)
    ensures ToDigits(base, Eval(base, d)) == d
  {
    ToDigitsFacts(base, Eval(base, d));
    ShortestUnique(base, ToDigits(base, Eval(base, d)), d);
  }

  function LeadingZeroCount(d: seq<nat>): (z: nat)
    ensures z <= |d| && NoLeadingZero(d[z..]) && forall i :: 0 <= i < z ==> d[i] == 0
  {
    if d == [] || d[0] != 0 then 0
    else
      var z := LeadingZeroCount(d[1..]);
      assert d[z + 1..] == d[1..][z..];
      assert forall i :: 0 < i < z + 1 ==> d[i] == d[1..][i - 1];
      z + 1
  }

  lemma StripZeros(base: nat, d: seq<nat>)
    ensures var z := LeadingZeroCount(d); d == Zeros(z) + d[z..] && Eval(base, d) == Eval(base, d[z..])
  {
    var z := LeadingZeroCount(d);
    assert d == Zeros(z) + d[z..];
    LeadingZeros(base, z, d[z..]);
  }

  lemma LeadingZeroCountIs(d: seq<nat>, z: nat)
    requires z <= |d| && NoLeadingZero(d[z..]) && forall i :: 0 <= i < z ==> d[i] == 0
    ensures LeadingZeroCount(d) == z
  {
    var y := LeadingZeroCount(d);
    assert y < |d| ==> d[y..][0] == d[y];
    assert z < |d| ==> d[z..][0] == d[z];
  }
}
