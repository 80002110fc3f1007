/** The field with 1024 elements: polynomials over bits, modulo x^10 + x^8 + x^5 + x + 1. Its element x is
    primitive, so that different powers of it below 1023 are independent. */
module Field1024 {
  import D = Digits

  type elem = bv10

  function Plus(a: elem, b: elem): elem {
    a ^ b
  }

  function Pick(w: elem, bit: elem, k: elem): elem {
    if w & bit != 0 then k else 0
  }

  /** Times x. */
  function Up(w: elem): elem {
    ((w & 0x1ff) * 2) ^ ((w >> 9) * 0x123)
  }

  /** Times x^n. */
  function Raised(n: nat, w: elem): elem {
    if n == 0 then w else Up(Raised(n - 1, w))
  }

  lemma PlusLaws(a: elem, b: elem, c: elem)
    ensures Plus(a, b) == Plus(b, a) && Plus(a, a) == 0 && Plus(a, 0) == a && Plus(0, a) == a
    ensures Plus(Plus(a, b), c) == Plus(a, Plus(b, c)) && (Plus(a, b) == 0 <==> a == b)
  {
  }

  lemma UpLinear(a: elem, b: elem)
    ensures Up(Plus(a, b)) == Plus(Up(a), Up(b)) && Up(0) == 0
  {
  }

  lemma UpInjective(a: elem)
    requires Up(a) == 0
    ensures a == 0
  {
  }

  lemma {:induction false} RaisedLinear(n: nat, a: elem, b: elem)
    ensures Raised(n, Plus(a, b)) == Plus(Raised(n, a), Raised(n, b)) && Raised(n, 0) == 0
  {
    hide Up, Plus;
    if n > 0 {
      RaisedLinear(n - 1, a, b);
      UpLinear(Raised(n - 1, a), Raised(n - 1, b));
    }
  }

  lemma {:induction false} RaisedZero(n: nat, a: elem)
    requires Raised(n, a) == 0
    ensures a == 0
  {
    hide Up;
    if n > 0 {
      UpInjective(Raised(n - 1, a));
      RaisedZero(n - 1, a);
    }
  }

  lemma RaisedInjective(n: nat, a: elem, b: elem)
    requires Raised(n, a) == Raised(n, b)
    ensures a == b
  {
    hide Raised, Plus;
    RaisedLinear(n, a, b);
    PlusLaws(Raised(n, a), Raised(n, b), 0);
    RaisedZero(n, Plus(a, b));
    PlusLaws(a, b, 0);
  }

  lemma {:induction false} RaisedAdd(m: nat, n: nat, w: elem)
    ensures Raised(m + n, w) == Raised(m, Raised(n, w))
    decreases m
  {
    hide Up;
    if m > 0 {
      RaisedAdd(m - 1, n, w);
    }
  }

  // ---------------------------------------------------------------------
  // Products

  /** One more bit of w: what is there moves up, and k is added if the bit is set. */
  function Next(a: elem, w: elem, bit: elem, k: elem): elem {
    Plus(Up(a), Pick(w, bit, k))
  }

  /** The upper half of the bits of w times k, and then all of them. */
  function HighTimes(w: elem, k: elem): elem {
    Next(Next(Next(Next(Pick(w, 512, k), w, 256, k), w, 128, k), w, 64, k), w, 32, k)
  }

  function Times(w: elem, k: elem): elem {
    Next(Next(Next(Next(Next(HighTimes(w, k), w, 16, k), w, 8, k), w, 4, k), w, 2, k), w, 1, k)
  }

  lemma NextHigh(w: elem)
    ensures Pick(w, 512, 1) == w >> 9 && Next(w >> 9, w, 256, 1) == w >> 8 && Next(w >> 8, w, 128, 1) == w >> 7
    ensures Next(w >> 7, w, 64, 1) == w >> 6 && Next(w >> 6, w, 32, 1) == w >> 5
  {
  }

  lemma NextLow(w: elem)
    ensures Next(w >> 5, w, 16, 1) == w >> 4 && Next(w >> 4, w, 8, 1) == w >> 3
  {
  }

  lemma NextLowest(w: elem)
    ensures Next(w >> 3, w, 4, 1) == w >> 2 && Next(w >> 2, w, 2, 1) == w >> 1
  {
  }

  lemma NextLast(w: elem)
    ensures Next(w >> 1, w, 1, 1) == w
  {
  }

  lemma TimesOne(w: elem)
    ensures Times(w, 1) == w
  {
    hide Next, Pick;
    NextHigh(w);
    NextLow(w);
    NextLowest(w);
    NextLast(w);
  }

  lemma NextRaised(n: nat, a: elem, w: elem, bit: elem, k: elem)
    ensures Raised(n, Next(a, w, bit, k)) == Next(Raised(n, a), w, bit, Raised(n, k))
  {
    hide Plus, Up;
    RaisedLinear(n, Up(a), Pick(w, bit, k));
    RaisedAdd(n, 1, a);
    RaisedAdd(1, n, a);
    assert Raised(1, a) == Up(Raised(0, a)) && Raised(1, Raised(n, a)) == Up(Raised(0, Raised(n, a)));
  }

  lemma HighRaised(n: nat, w: elem, k: elem)
    ensures Raised(n, HighTimes(w, k)) == HighTimes(w, Raised(n, k))
  {
    hide Next, Raised;
    RaisedLinear(n, 0, 0);
    var a := Pick(w, 512, k);
    assert Raised(n, a) == Pick(w, 512, Raised(n, k));
    NextRaised(n, a, w, 256, k);
    var b := Next(a, w, 256, k);
    NextRaised(n, b, w, 128, k);
    var c := Next(b, w, 128, k);
    NextRaised(n, c, w, 64, k);
    NextRaised(n, Next(c, w, 64, k), w, 32, k);
  }

  lemma TimesRaised(n: nat, w: elem, k: elem)
    ensures Raised(n, Times(w, k)) == Times(w, Raised(n, k))
  {
    hide Next, Raised, HighTimes;
    var a := HighTimes(w, k);
    HighRaised(n, w, k);
    NextRaised(n, a, w, 16, k);
    var b := Next(a, w, 16, k);
    NextRaised(n, b, w, 8, k);
    var c := Next(b, w, 8, k);
    NextRaised(n, c, w, 4, k);
    var d := Next(c, w, 4, k);
    NextRaised(n, d, w, 2, k);
    NextRaised(n, Next(d, w, 2, k), w, 1, k);
  }

  /** Raising is multiplying by a power of x. */
  lemma RaisedIsTimes(n: nat, w: elem)
    ensures Raised(n, w) == Times(w, Raised(n, 1))
  {
    hide Raised, Times;
    TimesOne(w);
    TimesRaised(n, w, 1);
  }

  /** k is x^n. */
  predicate IsPower(n: nat, k: elem) {
    Raised(n, 1) == k
  }

  lemma PowerAdd(m: nat, n: nat, j: elem, k: elem)
    requires IsPower(m, j) && IsPower(n, k)
    ensures IsPower(m + n, Times(k, j))
  {
    hide Raised, Times;
    RaisedAdd(m, n, 1);
    RaisedIsTimes(m, k);
  }

  lemma SquareFacts()
    ensures Times(0x2, 0x2) == 0x4 && Times(0x4, 0x4) == 0x10 && Times(0x10, 0x10) == 0x100
    ensures Times(0x100, 0x100) == 0x119 && Times(0x119, 0x119) == 0x58 && Times(0x58, 0x58) == 0xef
    ensures Times(0xef, 0xef) == 0x346 && Times(0x346, 0x346) == 0x1e5
    ensures Times(0x1e5, 0x1e5) == 0x21b && Times(0x21b, 0x21b) == 0x2
  {
  }

  lemma Squares()
    ensures IsPower(1, 0x2) && IsPower(4, 0x10) && IsPower(8, 0x100) && IsPower(16, 0x119) && IsPower(32, 0x58)
    ensures IsPower(64, 0xef) && IsPower(256, 0x1e5) && IsPower(1024, 0x2)
  {
    assert IsPower(1, 0x2) by {
      assert Raised(1, 1) == Up(Raised(0, 1));
    }
    hide Times, IsPower;
    SquareFacts();
    PowerAdd(1, 1, 0x2, 0x2);
    PowerAdd(2, 2, 0x4, 0x4);
    PowerAdd(4, 4, 0x10, 0x10);
    PowerAdd(8, 8, 0x100, 0x100);
    PowerAdd(16, 16, 0x119, 0x119);
    PowerAdd(32, 32, 0x58, 0x58);
    PowerAdd(64, 64, 0xef, 0xef);
    PowerAdd(128, 128, 0x346, 0x346);
    PowerAdd(256, 256, 0x1e5, 0x1e5);
    PowerAdd(512, 512, 0x21b, 0x21b);
  }

  lemma OtherFacts()
    ensures Times(0x58, 0x2) == 0xb0 && Times(0x10, 0x2) == 0x20 && Times(0x119, 0x100) == 0x3f0
    ensures Times(0x3f0, 0x20) == 0xb && Times(0xef, 0xb) == 0x36a
    ensures Times(0x119, 0x20) == 0x7e && Times(0xef, 0x7e) == 0x1f1 && Times(0x1e5, 0x1f1) == 0x36
    ensures Times(0x3f0, 0x2) == 0x2c3 && Times(0x2c3, 0x2) == 0xa5
  {
  }

  lemma Powers()
    ensures IsPower(24, 0x3f0) && IsPower(25, 0x2c3) && IsPower(26, 0xa5)
    ensures IsPower(33, 0xb0) && IsPower(93, 0x36a) && IsPower(341, 0x36)
  {
    hide Times, IsPower;
    Squares();
    OtherFacts();
    PowerAdd(1, 32, 0x2, 0x58);
    PowerAdd(1, 4, 0x2, 0x10);
    PowerAdd(8, 16, 0x100, 0x119);
    PowerAdd(5, 24, 0x20, 0x3f0);
    PowerAdd(29, 64, 0xb, 0xef);
    PowerAdd(5, 16, 0x20, 0x119);
    PowerAdd(21, 64, 0x7e, 0xef);
    PowerAdd(85, 256, 0x1f1, 0x1e5);
    PowerAdd(1, 24, 0x2, 0x3f0);
    PowerAdd(1, 25, 0x2, 0x2c3);
  }

  // ---------------------------------------------------------------------
  // The order of x is 1023

  lemma FullOrder(w: elem)
    ensures Raised(1023, w) == w
  {
    Squares();
    hide Raised;
    RaisedIsTimes(1024, w);
    RaisedIsTimes(1, w);
    RaisedAdd(1, 1023, w);
    RaisedInjective(1, Raised(1023, w), w);
  }

  lemma Kernel33(w: elem)
    requires Times(w, 0xb0) == w
    ensures w == 0
  {
  }

  lemma Kernel93(w: elem)
    requires Times(w, 0x36a) == w
    ensures w == 0
  {
  }

  lemma Kernel341(w: elem)
    requires Times(w, 0x36) == w
    ensures w == 0
  {
  }

  lemma {:induction false} FixedMultiple(g: nat, q: nat, w: elem)
    requires Raised(g, w) == w
    ensures Raised(g * q, w) == w
    decreases q
  {
    hide Raised;
    if q == 0 {
      RaisedNone(w);
    } else {
      FixedMultiple(g, q - 1, w);
      assert g * q == g + g * (q - 1);
      RaisedAdd(g, g * (q - 1), w);
    }
  }

  lemma RaisedNone(w: elem)
    ensures Raised(0, w) == w
  {
  }

  /** Euclid's algorithm on the numbers of steps that bring w back. */
  lemma {:induction false} FixedDivisor(n: nat, w: elem) returns (g: nat)
    requires 0 < n && Raised(n, w) == w
    ensures 0 < g <= n && 1023 % g == 0 && Raised(g, w) == w
    decreases n
  {
    hide Raised;
    if 1023 % n == 0 {
      g := n;
    } else {
      var m := 1023 % n;
      FullOrder(w);
      FixedMultiple(n, 1023 / n, w);
      assert 1023 == m + n * (1023 / n);
      RaisedAdd(m, n * (1023 / n), w);
      g := FixedDivisor(m, w);
    }
  }

  predicate OnlyDivisors(k: nat) {
    k == 0 || ((1023 % k == 0 ==> k == 1 || k == 3 || k == 11 || k == 31) && OnlyDivisors(k - 1))
  }

  lemma {:induction false} DivisorIs(k: nat, g: nat)
    requires OnlyDivisors(k) && 0 < g <= k && 1023 % g == 0
    ensures g == 1 || g == 3 || g == 11 || g == 31
  {
    if g < k {
      DivisorIs(k - 1, g);
    }
  }

  /** A proper divisor of 1023 divides 33, 93 or 341. */
  lemma ProperDivisor(g: nat) returns (q: nat)
    requires 0 < g < 1023 && 1023 % g == 0
    ensures g * q == 33 || g * q == 93 || g * q == 341
  {
    assert OnlyDivisors(8);
    assert OnlyDivisors(16);
    assert OnlyDivisors(24);
    assert OnlyDivisors(32);
    hide OnlyDivisors;
    if g <= 32 {
      DivisorIs(32, g);
      q := if g == 1 then 33 else if g == 3 then 11 else if g == 11 then 3 else 3;
    } else {
      q := 1;
      var r := 1023 / g;
      Quotient(g, r);
      DivisorIs(32, r);
    }
  }

  lemma Quotient(g: nat, q: nat)
    requires g > 32 && 1023 % g == 0 && q == 1023 / g
    ensures 0 < q <= 32 && 1023 % q == 0 && g * q == 1023
  {
    assert g * q == 1023;
    if q > 32 {
      Larger(g, q);
    }
    Remainderless(g, q);
  }

  lemma Larger(g: nat, q: nat)
    requires g > 32 && q > 32
    ensures g * q > 1023
  {
  }

  lemma Remainderless(g: nat, q: nat)
    requires q > 0
    ensures (g * q) % q == 0
  {
    D.DivModUnique(q, (g * q) / q, (g * q) % q, g, 0);
  }

  /** Fewer than 1023 steps bring nothing but zero back. */
  lemma NoShorter(n: nat, w: elem)
    requires 0 < n < 1023 && Raised(n, w) == w
    ensures w == 0
  {
    hide Raised;
    var g := FixedDivisor(n, w);
    var q := ProperDivisor(g);
    FixedMultiple(g, q, w);
    Kernels(g * q, w);
  }

  lemma Kernels(n: nat, w: elem)
    requires (n == 33 || n == 93 || n == 341) && Raised(n, w) == w
    ensures w == 0
  {
    hide Raised, Times;
    Powers();
    RaisedIsTimes(n, w);
    if n == 33 {
      Kernel33(w);
    } else if n == 93 {
      Kernel93(w);
    } else {
      Kernel341(w);
    }
  }

  /** The determinant of three different powers does not vanish: a combination of them that is zero for three
      neighbouring exponents is trivial. */
  lemma ThreeTerms(a: nat, b: nat, u: elem, v: elem, t: elem)
    requires 0 < b < a < 1023
    requires Plus(Plus(u, v), t) == 0
    requires Plus(Plus(Raised(a, u), Raised(b, v)), t) == 0
    requires Plus(Plus(Raised(a, Raised(a, u)), Raised(b, Raised(b, v))), t) == 0
    ensures u == 0 && v == 0 && t == 0
  {
    hide Raised, Plus;
    var w := Plus(Raised(a, u), u);
    SameDifference(u, v, Raised(a, u), Raised(b, v), t);
    SameDifference(Raised(a, u), Raised(b, v), Raised(a, Raised(a, u)), Raised(b, Raised(b, v)), t);
    RaisedLinear(a, Raised(a, u), u);
    RaisedLinear(b, Raised(b, v), v);
    SameRaised(a, b, w);
    BackAgain(a, u);
    BackAgain(b, v);
    Nothing(t);
  }

  lemma SameRaised(a: nat, b: nat, w: elem)
    requires 0 < b < a < 1023 && Raised(a, w) == Raised(b, w)
    ensures w == 0
  {
    hide Raised;
    RaisedAdd(b, a - b, w);
    RaisedInjective(b, Raised(a - b, w), w);
    NoShorter(a - b, w);
  }

  lemma BackAgain(a: nat, u: elem)
    requires 0 < a < 1023 && Plus(Raised(a, u), u) == 0
    ensures u == 0
  {
    hide Raised, Plus;
    PlusLaws(Raised(a, u), u, 0);
    NoShorter(a, u);
  }

  lemma Nothing(t: elem)
    ensures Plus(Plus(0, 0), t) == t
  {
  }

  lemma SameDifference(a: elem, b: elem, c: elem, d: elem, t: elem)
    requires Plus(Plus(a, b), t) == 0 && Plus(Plus(c, d), t) == 0
    ensures Plus(c, a) == Plus(d, b)
  {
  }
}
