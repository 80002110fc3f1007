/** The distance of the Bech32 code: up to three wrong symbols within a window of 1023 are noticed. The generator
    has three roots that are neighbouring powers of one primitive element of the field with 1024 elements. */
module Bech32Errors {
  import opened Bech32
  import opened Field1024
  import T = Bech32Text

  // ---------------------------------------------------------------------
  // Symbols as elements of the field, strings of symbols as polynomials

  function Embed(s: byte): elem {
    ((s & 1) as elem) ^ (((s >> 1) & 1) as elem * 0xe) ^ (((s >> 2) & 1) as elem * 0x54) ^
    (((s >> 3) & 1) as elem * 0x358) ^ (((s >> 4) & 1) as elem * 0xbf)
  }

  lemma EmbedLinear(a: byte, b: byte)
    ensures Embed(XorByte(a, b)) == Plus(Embed(a), Embed(b)) && Embed(0) == 0
  {
  }

  lemma EmbedZero(a: byte)
    requires a < 32 && Embed(a) == 0
    ensures a == 0
  {
  }

  /** The polynomial with these coefficients at x^r. */
  function Value(r: nat, v: seq<byte>): elem {
    if v == [] then 0 else Plus(Raised(r, Value(r, v[..|v| - 1])), Embed(v[|v| - 1]))
  }

  lemma {:induction false} ValueLinear(r: nat, v: seq<byte>, w: seq<byte>)
    requires |v| == |w|
    ensures Value(r, XorSeq(v, w)) == Plus(Value(r, v), Value(r, w))
    decreases |v|
  {
    hide Raised, Plus, Embed, XorByte;
    if v == [] {
      PlusLaws(0, 0, 0);
    } else {
      var n := |v| - 1;
      ValueLinear(r, v[..n], w[..n]);
      assert XorSeq(v, w)[..n] == XorSeq(v[..n], w[..n]);
      RaisedLinear(r, Value(r, v[..n]), Value(r, w[..n]));
      EmbedLinear(v[n], w[n]);
      Rearranged(Raised(r, Value(r, v[..n])), Raised(r, Value(r, w[..n])), Embed(v[n]), Embed(w[n]));
    }
  }

  lemma Rearranged(a: elem, b: elem, c: elem, d: elem)
    ensures Plus(Plus(a, b), Plus(c, d)) == Plus(Plus(a, c), Plus(b, d))
  {
    hide Plus;
    PlusLaws(a, b, Plus(c, d));
    PlusLaws(b, c, d);
    PlusLaws(c, b, d);
    PlusLaws(a, c, Plus(b, d));
  }

  lemma {:induction false} ValueCons(r: nat, a: byte, v: seq<byte>)
    ensures Value(r, [a] + v) == Plus(Raised(r * |v|, Embed(a)), Value(r, v))
    decreases |v|
  {
    hide Raised, Plus, Embed;
    RaisedLinear(r, 0, 0);
    if v == [] {
      assert ([a] + v)[..0] == [];
      RaisedNone(Embed(a));
      PlusLaws(Embed(a), 0, 0);
    } else {
      var n := |v| - 1;
      ValueCons(r, a, v[..n]);
      assert ([a] + v)[..n + 1] == [a] + v[..n];
      RaisedLinear(r, Raised(r * n, Embed(a)), Value(r, v[..n]));
      assert r * |v| == r + r * n;
      RaisedAdd(r, r * n, Embed(a));
      PlusLaws(Raised(r * |v|, Embed(a)), Raised(r, Value(r, v[..n])), Embed(v[n]));
    }
  }

  // ---------------------------------------------------------------------
  // Roots of the generator

  function When(on: bool, k: bv32): bv32 {
    if on then k else 0
  }

  predicate Has(s: byte, bit: byte) {
    s & bit != 0
  }

  /** What the step adds for a leading coefficient s. */
  function FoldBits(s: byte): bv32 {
    var c2 := XorBits(When(Has(s, 1), GENERATOR1), When(Has(s, 2), GENERATOR2));
    var c3 := XorBits(c2, When(Has(s, 4), GENERATOR4));
    var c4 := XorBits(c3, When(Has(s, 8), GENERATOR8));
    XorBits(c4, When(Has(s, 16), GENERATOR16))
  }

  lemma WhenXor(p: bool, q: bool, k: bv32)
    ensures When(p != q, k) == XorBits(When(p, k), When(q, k))
  {
    hide XorBits;
    XorLaws(k, k);
    XorLaws(0, k);
    XorLaws(0, 0);
  }

  lemma BitXor(a: byte, b: byte)
    ensures (Has(XorByte(a, b), 1) <==> Has(a, 1) != Has(b, 1)) && (Has(XorByte(a, b), 2) <==> Has(a, 2) != Has(b, 2))
    ensures (Has(XorByte(a, b), 4) <==> Has(a, 4) != Has(b, 4)) && (Has(XorByte(a, b), 8) <==> Has(a, 8) != Has(b, 8))
    ensures Has(XorByte(a, b), 16) <==> Has(a, 16) != Has(b, 16)
  {
  }

  /** Sums of sums, pairwise. */
  lemma Pairwise(a: bv32, b: bv32, c: bv32, d: bv32)
    ensures XorBits(XorBits(a, b), XorBits(c, d)) == XorBits(XorBits(a, c), XorBits(b, d))
  {
    hide XorBits;
    XorAssoc(a, b, XorBits(c, d));
    XorAssoc(b, c, d);
    XorLaws(b, c);
    XorAssoc(c, b, d);
    XorAssoc(a, c, XorBits(b, d));
  }

  lemma FoldLinear(a: byte, b: byte)
    ensures FoldBits(XorByte(a, b)) == XorBits(FoldBits(a), FoldBits(b))
  {
    hide XorBits, XorByte, When, Has;
    BitXor(a, b);
    var a0, b0 := When(Has(a, 1), GENERATOR1), When(Has(b, 1), GENERATOR1);
    var a1, b1 := When(Has(a, 2), GENERATOR2), When(Has(b, 2), GENERATOR2);
    var a2, b2 := When(Has(a, 4), GENERATOR4), When(Has(b, 4), GENERATOR4);
    var a3, b3 := When(Has(a, 8), GENERATOR8), When(Has(b, 8), GENERATOR8);
    var a4, b4 := When(Has(a, 16), GENERATOR16), When(Has(b, 16), GENERATOR16);
    WhenXor(Has(a, 1), Has(b, 1), GENERATOR1);
    WhenXor(Has(a, 2), Has(b, 2), GENERATOR2);
    WhenXor(Has(a, 4), Has(b, 4), GENERATOR4);
    WhenXor(Has(a, 8), Has(b, 8), GENERATOR8);
    WhenXor(Has(a, 16), Has(b, 16), GENERATOR16);
    Pairwise(a0, b0, a1, b1);
    Pairwise(XorBits(a0, a1), XorBits(b0, b1), a2, b2);
    Pairwise(XorBits(XorBits(a0, a1), a2), XorBits(XorBits(b0, b1), b2), a3, b3);
    Pairwise(XorBits(XorBits(XorBits(a0, a1), a2), a3), XorBits(XorBits(XorBits(b0, b1), b2), b3), a4, b4);
  }

  lemma DownXor(a: bv32, b: bv32)
    ensures Down(XorBits(a, b)) == XorBits(Down(a), Down(b)) && Low5(XorBits(a, b)) == XorByte(Low5(a), Low5(b))
  {
  }

  lemma {:induction false} ShiftedXor(a: bv32, b: bv32, n: nat)
    ensures Shifted(XorBits(a, b), n) == XorBits(Shifted(a, n), Shifted(b, n))
  {
    hide XorBits, Down;
    if n > 0 {
      ShiftedXor(a, b, n - 1);
      DownXor(Shifted(a, n - 1), Shifted(b, n - 1));
    }
  }

  lemma GroupXor(a: bv32, b: bv32, i: nat)
    requires i < 6
    ensures Group(XorBits(a, b), i) == XorByte(Group(a, i), Group(b, i))
  {
    hide XorBits, XorByte, Shifted, Low5;
    ShiftedXor(a, b, 5 - i);
    DownXor(Shifted(a, 5 - i), Shifted(b, 5 - i));
  }

  lemma GroupsXor(a: bv32, b: bv32)
    ensures Groups(XorBits(a, b)) == XorSeq(Groups(a), Groups(b))
  {
    hide Group, XorBits, XorByte;
    forall i | 0 <= i < 6
      ensures Group(XorBits(a, b), i) == XorByte(Group(a, i), Group(b, i))
    {
      GroupXor(a, b, i);
    }
  }

  /** Everything but the leading coefficient. */
  function Rest(c: bv32): bv32 {
    c & 0x1ff_ffff
  }

  lemma DownMoved(c: bv32, x: byte)
    requires x < 32
    ensures Down(MovedBits(c, x)) == Rest(c) && Low5(MovedBits(c, x)) == x
  {
  }

  function Meet(a: bv32, b: bv32): bv32 {
    a & b
  }

  lemma {:induction false} ShiftedMeet(a: bv32, b: bv32, n: nat)
    ensures Shifted(Meet(a, b), n) == Meet(Shifted(a, n), Shifted(b, n))
  {
    hide Meet, Down;
    if n > 0 {
      ShiftedMeet(a, b, n - 1);
      DownMeet(Shifted(a, n - 1), Shifted(b, n - 1));
    }
  }

  lemma DownMeet(a: bv32, b: bv32)
    ensures Down(Meet(a, b)) == Meet(Down(a), Down(b))
  {
  }

  lemma LowMeet(a: bv32, b: bv32)
    requires Low5(b) == 31
    ensures Low5(Meet(a, b)) == Low5(a)
  {
  }

  lemma {:induction false} DownShifted(c: bv32, n: nat)
    ensures Shifted(Down(c), n) == Shifted(c, n + 1)
  {
    hide Down;
    if n > 0 {
      DownShifted(c, n - 1);
    }
  }

  lemma MaskOnes()
    ensures forall n :: 0 <= n < 5 ==> Low5(Shifted(0x1ff_ffff, n)) == 31
  {
    assert Shifted(0x1ff_ffff, 1) == 0xf_ffff;
    assert Shifted(0x1ff_ffff, 2) == 0x7fff;
    assert Shifted(0x1ff_ffff, 3) == 0x3ff;
    assert Shifted(0x1ff_ffff, 4) == 0x1f;
  }

  lemma GroupMoved(c: bv32, x: byte, i: nat)
    requires i < 6 && x < 32
    ensures Group(MovedBits(c, x), i) == if i < 5 then Group(c, i + 1) else x
  {
    hide MovedBits, Down, Low5, Shifted, Meet, Rest;
    var m := MovedBits(c, x);
    DownMoved(c, x);
    if i < 5 {
      var n := 4 - i;
      DownShifted(m, n);
      RestIs(c);
      ShiftedMeet(c, 0x1ff_ffff, n);
      MaskOnes();
      LowMeet(Shifted(c, n), Shifted(0x1ff_ffff, n));
    } else {
      ShiftedNone(m);
    }
  }

  lemma RestIs(c: bv32)
    ensures Rest(c) == Meet(c, 0x1ff_ffff)
  {
  }

  lemma ShiftedNone(c: bv32)
    ensures Shifted(c, 0) == c
  {
  }

  lemma StepSplit(c: bv32, x: byte)
    requires c < 0x4000_0000
    ensures StepBits(c, x) == XorBits(MovedBits(c, x), FoldBits(Group(c, 0)))
  {
    hide MovedBits, Group, Added, XorBits, When, FoldBits, Has, LeadBit;
    LeadIs(c);
    FoldSplit(MovedBits(c, x), Group(c, 0));
  }

  lemma LeadIs(c: bv32)
    requires c < 0x4000_0000
    ensures var s := Group(c, 0);
      && LeadBit(c, 1) == Has(s, 1) && LeadBit(c, 2) == Has(s, 2) && LeadBit(c, 4) == Has(s, 4)
      && LeadBit(c, 8) == Has(s, 8) && LeadBit(c, 16) == Has(s, 16)
  {
    assert Shifted(c, 5) == c >> 25 by {
      hide Down;
      assert Shifted(c, 1) == Down(c);
      assert Shifted(c, 3) == Down(Down(Shifted(c, 1)));
      assert Shifted(c, 5) == Down(Down(Shifted(c, 3)));
      FiveDown(c);
    }
    hide Shifted;
  }

  lemma FiveDown(c: bv32)
    ensures Down(Down(Down(Down(Down(c))))) == c >> 25
  {
  }

  lemma AddIfOn(k: bv32, c: bv32)
    ensures AddIfBits(true, k, c) == XorBits(c, k) && AddIfBits(false, k, c) == c
  {
  }

  lemma AddIfSplit(on: bool, k: bv32, c: bv32)
    ensures AddIfBits(on, k, c) == XorBits(c, When(on, k))
  {
    hide AddIfBits, XorBits;
    AddIfOn(k, c);
    XorLaws(c, 0);
  }

  lemma FoldSplit(c: bv32, s: byte)
    ensures Added(Has(s, 1), Has(s, 2), Has(s, 4), Has(s, 8), Has(s, 16), c) == XorBits(c, FoldBits(s))
  {
    hide XorBits, AddIfBits, When, Has;
    var s0, s1 := When(Has(s, 1), GENERATOR1), When(Has(s, 2), GENERATOR2);
    var s2, s3 := When(Has(s, 4), GENERATOR4), When(Has(s, 8), GENERATOR8);
    var c1 := XorBits(c, s0);
    var c2 := XorBits(c1, s1);
    var c3 := XorBits(c2, s2);
    AddIfSplit(Has(s, 1), GENERATOR1, c);
    AddIfSplit(Has(s, 2), GENERATOR2, c1);
    AddIfSplit(Has(s, 4), GENERATOR4, c2);
    AddIfSplit(Has(s, 8), GENERATOR8, c3);
    AddIfSplit(Has(s, 16), GENERATOR16, XorBits(c3, s3));
    XorAssoc(c, s0, s1);
    XorAssoc(c, XorBits(s0, s1), s2);
    XorAssoc(c, XorBits(XorBits(s0, s1), s2), s3);
    XorAssoc(c, XorBits(XorBits(XorBits(s0, s1), s2), s3), When(Has(s, 16), GENERATOR16));
  }

  lemma GroupsStep(c: bv32, x: byte)
    requires c < 0x4000_0000 && x < 32
    ensures Groups(StepBits(c, x)) == XorSeq(Groups(c)[1..] + [x], Groups(FoldBits(Group(c, 0))))
  {
    hide Group, XorBits, XorByte, MovedBits, StepBits, FoldBits;
    StepSplit(c, x);
    GroupsXor(MovedBits(c, x), FoldBits(Group(c, 0)));
    forall i | 0 <= i < 6
      ensures Group(MovedBits(c, x), i) == if i < 5 then Group(c, i + 1) else x
    {
      GroupMoved(c, x, i);
    }
    assert Groups(MovedBits(c, x)) == Groups(c)[1..] + [x];
  }

  /** x^r is a root: folding a leading coefficient away does not change the value there. */
  ghost predicate IsRoot(r: nat) {
    forall s: byte :: s < 32 ==> Agrees(r, s)
  }

  ghost predicate Agrees(r: nat, s: byte) {
    Value(r, Groups(FoldBits(s))) == Raised(6 * r, Embed(s))
  }

  lemma AgreesXor(r: nat, a: byte, b: byte)
    requires Agrees(r, a) && Agrees(r, b)
    ensures Agrees(r, XorByte(a, b))
  {
    hide Value, Groups, FoldBits, Raised, Embed, Plus, XorBits, XorByte, XorSeq;
    FoldLinear(a, b);
    GroupsXor(FoldBits(a), FoldBits(b));
    GroupsSize(FoldBits(a));
    GroupsSize(FoldBits(b));
    ValueLinear(r, Groups(FoldBits(a)), Groups(FoldBits(b)));
    EmbedLinear(a, b);
    RaisedLinear(6 * r, Embed(a), Embed(b));
  }

  lemma GroupsSize(c: bv32)
    ensures |Groups(c)| == 6
  {
  }

  lemma BitsOf(s: byte)
    requires s < 32
    ensures s == XorByte(XorByte(XorByte(XorByte(s & 1, s & 2), s & 4), s & 8), s & 16)
    ensures (s & 1 == 0 || s & 1 == 1) && (s & 2 == 0 || s & 2 == 2) && (s & 4 == 0 || s & 4 == 4)
    ensures (s & 8 == 0 || s & 8 == 8) && (s & 16 == 0 || s & 16 == 16)
  {
  }

  /** A root is one if folding the five single bits agrees. */
  lemma RootByBits(r: nat)
    requires Agrees(r, 1) && Agrees(r, 2) && Agrees(r, 4) && Agrees(r, 8) && Agrees(r, 16)
    ensures IsRoot(r)
  {
    assert XorByte(1, 1) == 0;
    AgreesXor(r, 1, 1);
    hide Agrees, XorByte;
    forall s: byte | s < 32
      ensures Agrees(r, s)
    {
      BitsOf(s);
      AgreesXor(r, s & 1, s & 2);
      AgreesXor(r, XorByte(s & 1, s & 2), s & 4);
      AgreesXor(r, XorByte(XorByte(s & 1, s & 2), s & 4), s & 8);
      AgreesXor(r, XorByte(XorByte(XorByte(s & 1, s & 2), s & 4), s & 8), s & 16);
    }
  }

  /** Six coefficients at the point k. */
  function SixTerms(k: elem, c: bv32): elem {
    Term(k, Term(k, Term(k, Term(k, Term(k, Embed(Group(c, 0)), c, 1), c, 2), c, 3), c, 4), c, 5)
  }

  function Term(k: elem, h: elem, c: bv32, i: nat): elem
    requires i < 6
  {
    Plus(Times(h, k), Embed(Group(c, i)))
  }

  lemma ValueNext(r: nat, k: elem, c: bv32, i: nat)
    requires i < 6 && IsPower(r, k)
    ensures |Groups(c)| == 6 && Value(r, Groups(c)[..i + 1]) == Term(k, Value(r, Groups(c)[..i]), c, i)
  {
    hide Raised, Plus, Times, Embed, Group;
    var v := Groups(c)[..i + 1];
    assert v[..i] == Groups(c)[..i];
    RaisedIsTimes(r, Value(r, v[..i]));
  }

  lemma ValueIsSixTerms(r: nat, k: elem, c: bv32)
    requires IsPower(r, k)
    ensures Value(r, Groups(c)) == SixTerms(k, c)
  {
    hide Value, Term, IsPower, Group, Embed;
    ValueFirst(r, c);
    ValueNext(r, k, c, 1);
    ValueNext(r, k, c, 2);
    ValueNext(r, k, c, 3);
    ValueNext(r, k, c, 4);
    ValueNext(r, k, c, 5);
    assert Groups(c)[..6] == Groups(c);
  }

  lemma ValueFirst(r: nat, c: bv32)
    ensures |Groups(c)| == 6 && Value(r, Groups(c)[..1]) == Embed(Group(c, 0))
  {
    hide Raised, Plus, Embed, Group;
    var v := Groups(c)[..1];
    assert v[..0] == [];
    RaisedLinear(r, 0, 0);
    PlusLaws(Embed(Group(c, 0)), 0, 0);
  }

  lemma AgreesAt(r: nat, k: elem, k6: elem, s: byte)
    requires IsPower(r, k) && IsPower(6 * r, k6) && SixTerms(k, FoldBits(s)) == Times(Embed(s), k6)
    ensures Agrees(r, s)
  {
    hide Value, Raised, SixTerms, Times, Embed, FoldBits;
    ValueIsSixTerms(r, k, FoldBits(s));
    RaisedIsTimes(6 * r, Embed(s));
  }

  lemma SixthPower(r: nat, k: elem, k2: elem, k4: elem, k6: elem)
    requires IsPower(r, k) && Times(k, k) == k2 && Times(k2, k2) == k4 && Times(k4, k2) == k6
    ensures IsPower(6 * r, k6)
  {
    hide IsPower, Times;
    PowerAdd(r, r, k, k);
    PowerAdd(2 * r, 2 * r, k2, k2);
    PowerAdd(2 * r, 4 * r, k2, k4);
  }

  /** Evaluation from the leading coefficient on, with the intermediate results given. */
  lemma Chain(k: elem, c: bv32, h0: elem, h1: elem, h2: elem, h3: elem, h4: elem, h5: elem)
    requires Embed(Group(c, 0)) == h0 && Term(k, h0, c, 1) == h1 && Term(k, h1, c, 2) == h2
    requires Term(k, h2, c, 3) == h3 && Term(k, h3, c, 4) == h4 && Term(k, h4, c, 5) == h5
    ensures SixTerms(k, c) == h5
  {
    hide Term, Embed, Group;
  }

  lemma FoldFacts()
    ensures FoldBits(0) == 0 && FoldBits(1) == GENERATOR1 && FoldBits(2) == GENERATOR2 && FoldBits(4) == GENERATOR4
    ensures FoldBits(8) == GENERATOR8 && FoldBits(16) == GENERATOR16
  {
  }

  lemma Root24()
    ensures SixTerms(0x3f0, FoldBits(1)) == Times(Embed(1), 0x2ba)
    ensures SixTerms(0x3f0, FoldBits(2)) == Times(Embed(2), 0x2ba)
    ensures SixTerms(0x3f0, FoldBits(4)) == Times(Embed(4), 0x2ba)
  {
    FoldFacts();
    hide FoldBits, SixTerms;
    Chain(0x3f0, GENERATOR1, 0x3b2, 0x7d, 0x7d, 0x7c, 0xd4, 0x2ba);
    Chain(0x3f0, GENERATOR2, 0xb0, 0x2e6, 0x2e6, 0x2e8, 0x17b, 0x1a5);
    Chain(0x3f0, GENERATOR4, 0x303, 0x28d, 0x28d, 0x2d9, 0x3a7, 0x2b0);
  }

  lemma Root24High()
    ensures SixTerms(0x3f0, FoldBits(8)) == Times(Embed(8), 0x2ba)
    ensures SixTerms(0x3f0, FoldBits(16)) == Times(Embed(16), 0x2ba)
  {
    FoldFacts();
    hide FoldBits, SixTerms;
    Chain(0x3f0, GENERATOR8, 0x3bd, 0xaf, 0xaf, 0x3f7, 0x66, 0x1c9);
    Chain(0x3f0, GENERATOR16, 0xea, 0x3b9, 0x3b9, 0x306, 0x264, 0xb8);
  }

  lemma Powers24()
    ensures Times(0x3f0, 0x3f0) == 0x24d && Times(0x24d, 0x24d) == 0xb9 && Times(0xb9, 0x24d) == 0x2ba
  {
  }

  lemma Root25()
    ensures SixTerms(0x2c3, FoldBits(1)) == Times(Embed(1), 0xa6)
    ensures SixTerms(0x2c3, FoldBits(2)) == Times(Embed(2), 0xa6)
    ensures SixTerms(0x2c3, FoldBits(4)) == Times(Embed(4), 0xa6)
  {
    FoldFacts();
    hide FoldBits, SixTerms;
    Chain(0x2c3, GENERATOR1, 0x3b2, 0x1d5, 0x3ad, 0x69, 0x3df, 0xa6);
    Chain(0x2c3, GENERATOR2, 0xb0, 0x10, 0xa, 0x23e, 0x2b6, 0x3c7);
    Chain(0x2c3, GENERATOR4, 0x303, 0xe0, 0x6c, 0x3be, 0x1ed, 0x226);
  }

  lemma Root25High()
    ensures SixTerms(0x2c3, FoldBits(8)) == Times(Embed(8), 0xa6)
    ensures SixTerms(0x2c3, FoldBits(16)) == Times(Embed(16), 0xa6)
  {
    FoldFacts();
    hide FoldBits, SixTerms;
    Chain(0x2c3, GENERATOR8, 0x3bd, 0x63, 0x208, 0xf8, 0x140, 0x32e);
    Chain(0x2c3, GENERATOR16, 0xea, 0x252, 0x2ba, 0xf3, 0x2e5, 0x23b);
  }

  lemma Powers25()
    ensures Times(0x2c3, 0x2c3) == 0x372 && Times(0x372, 0x372) == 0x1d6 && Times(0x1d6, 0x372) == 0xa6
  {
  }

  lemma Root26()
    ensures SixTerms(0xa5, FoldBits(1)) == Times(Embed(1), 0x98)
    ensures SixTerms(0xa5, FoldBits(2)) == Times(Embed(2), 0x98)
    ensures SixTerms(0xa5, FoldBits(4)) == Times(Embed(4), 0x98)
  {
    FoldFacts();
    hide FoldBits, SixTerms;
    Chain(0xa5, GENERATOR1, 0x3b2, 0x285, 0xaa, 0x137, 0x193, 0x98);
    Chain(0xa5, GENERATOR2, 0xb0, 0xdf, 0x38f, 0x6f, 0x3b4, 0x2b3);
    Chain(0xa5, GENERATOR4, 0x303, 0x119, 0x1d6, 0x21a, 0x94, 0x1db);
  }

  lemma Root26High()
    ensures SixTerms(0xa5, FoldBits(8)) == Times(Embed(8), 0x98)
    ensures SixTerms(0xa5, FoldBits(16)) == Times(Embed(16), 0x98)
  {
    FoldFacts();
    hide FoldBits, SixTerms;
    Chain(0xa5, GENERATOR8, 0x3bd, 0x1fb, 0x2, 0x246, 0x2fb, 0x44);
    Chain(0xa5, GENERATOR16, 0xea, 0x184, 0x1c, 0x16e, 0x22b, 0x3b8);
  }

  lemma Powers26()
    ensures Times(0xa5, 0xa5) == 0x2ad && Times(0x2ad, 0x2ad) == 0x3aa && Times(0x3aa, 0x2ad) == 0x98
  {
  }

  lemma Roots()
    ensures IsRoot(24) && IsRoot(25) && IsRoot(26)
  {
    hide IsPower, SixTerms, Times, Embed, FoldBits, IsRoot, Agrees;
    Powers();
    Root24();
    Root24High();
    Powers24();
    SixthPower(24, 0x3f0, 0x24d, 0xb9, 0x2ba);
    RootFrom(24, 0x3f0, 0x2ba);
    Root25();
    Root25High();
    Powers25();
    SixthPower(25, 0x2c3, 0x372, 0x1d6, 0xa6);
    RootFrom(25, 0x2c3, 0xa6);
    Root26();
    Root26High();
    Powers26();
    SixthPower(26, 0xa5, 0x2ad, 0x3aa, 0x98);
    RootFrom(26, 0xa5, 0x98);
  }

  lemma RootFrom(r: nat, k: elem, k6: elem)
    requires IsPower(r, k) && IsPower(6 * r, k6)
    requires SixTerms(k, FoldBits(1)) == Times(Embed(1), k6) && SixTerms(k, FoldBits(2)) == Times(Embed(2), k6)
    requires SixTerms(k, FoldBits(4)) == Times(Embed(4), k6) && SixTerms(k, FoldBits(8)) == Times(Embed(8), k6)
    requires SixTerms(k, FoldBits(16)) == Times(Embed(16), k6)
    ensures IsRoot(r)
  {
    hide IsPower, SixTerms, Times, Embed, FoldBits, IsRoot, Agrees;
    AgreesAt(r, k, k6, 1);
    AgreesAt(r, k, k6, 2);
    AgreesAt(r, k, k6, 4);
    AgreesAt(r, k, k6, 8);
    AgreesAt(r, k, k6, 16);
    RootByBits(r);
  }

  // ---------------------------------------------------------------------
  // Remainders and values

  /** At a root the step is evaluation: times x^r, plus the new coefficient. */
  lemma StepValue(r: nat, c: bv32, x: byte)
    requires IsRoot(r) && c < 0x4000_0000 && x < 32
    ensures Value(r, Groups(StepBits(c, x))) == Plus(Raised(r, Value(r, Groups(c))), Embed(x))
  {
    hide StepBits, Raised, Plus, Embed, FoldBits, Group, XorByte, Agrees;
    var s, rest := Group(c, 0), Groups(c)[1..] + [x];
    GroupsStep(c, x);
    GroupSmall(c);
    ValueLinear(r, rest, Groups(FoldBits(s)));
    AgreesMeans(r, s);
    ValueCons(r, s, rest);
    assert [s] + rest == Groups(c) + [x];
    assert (Groups(c) + [x])[..6] == Groups(c);
    PlusLaws(Value(r, rest), Raised(6 * r, Embed(s)), 0);
  }

  lemma GroupSmall(c: bv32)
    ensures Group(c, 0) < 32
  {
    hide Shifted;
    ShiftBack(Shifted(c, 5));
  }

  lemma AgreesMeans(r: nat, s: byte)
    requires IsRoot(r) && s < 32
    ensures Value(r, Groups(FoldBits(s))) == Raised(6 * r, Embed(s))
  {
    assert Agrees(r, s);
  }

  /** At a root a string of symbols has the value of its remainder. */
  lemma {:induction false} RunValue(r: nat, v: seq<byte>)
    requires IsRoot(r) && Fives(v)
    ensures Value(r, v) == Value(r, Groups(Run(ZERO, v).bits))
    decreases |v|
  {
    hide Step, StepBits, Raised, Plus, Embed, IsRoot, Run, Groups, Small;
    RunStep(ZERO, v, 0);
    if v == [] {
      assert v[..0] == [];
      NoValue(r);
    } else {
      var n := |v| - 1;
      RunValue(r, v[..n]);
      RunStep(ZERO, v, n);
      assert v[..n + 1] == v;
      var c := Run(ZERO, v[..n]);
      SmallMeans(c);
      RunSmall(ZERO, v[..n]);
      StepAsBits(c, v[n]);
      StepValue(r, c.bits, v[n]);
    }
  }

  lemma SmallMeans(c: Word)
    ensures Small(ZERO) && (Small(c) ==> c.bits < 0x4000_0000)
  {
  }

  lemma NoValue(r: nat)
    ensures Value(r, Groups(ZERO.bits)) == 0
  {
    hide Raised, Embed;
    GroupsXor(0, 0);
    GroupsSize(0);
    XorLaws(0, 0);
    ValueLinear(r, Groups(0), Groups(0));
    PlusLaws(Value(r, Groups(0)), 0, 0);
  }

  // ---------------------------------------------------------------------
  // Three errors

  lemma ValueStep(r: nat, d: seq<byte>, k: nat)
    requires k < |d|
    ensures Value(r, d[..k + 1]) == Plus(Raised(r, Value(r, d[..k])), Embed(d[k]))
  {
    assert d[..k + 1][..k] == d[..k];
  }

  /** What a coefficient is worth at x^r, k places further on. */
  function Far(r: nat, k: nat, w: elem): elem {
    Raised(r * k, w)
  }

  lemma FarStep(r: nat, k: nat, w: elem)
    ensures Far(r, 0, w) == w && Far(r, k + 1, w) == Raised(r, Far(r, k, w))
  {
    hide Raised;
    assert r * 0 == 0 && r * (k + 1) == r + r * k;
    RaisedNone(w);
    RaisedAdd(r, r * k, w);
  }

  lemma FarAdd(r: nat, j: nat, k: nat, w: elem)
    ensures Far(r, j + k, w) == Far(r, j, Far(r, k, w))
  {
    hide Raised;
    assert r * (j + k) == r * j + r * k;
    RaisedAdd(r * j, r * k, w);
  }

  lemma FarLinear(r: nat, k: nat, a: elem, b: elem)
    ensures Far(r, k, Plus(a, b)) == Plus(Far(r, k, a), Far(r, k, b)) && Far(r, k, 0) == 0
  {
    RaisedLinear(r * k, a, b);
  }

  lemma FarZero(r: nat, k: nat, a: elem)
    requires Far(r, k, a) == 0
    ensures a == 0
  {
    RaisedZero(r * k, a);
  }

  /** Zeros only carry on the value of what is before them. */
  lemma {:induction false} ValueZeros(r: nat, d: seq<byte>, k: nat, j: nat)
    requires k <= j <= |d| && forall i :: k <= i < j ==> d[i] == 0
    ensures Value(r, d[..j]) == Far(r, j - k, Value(r, d[..k]))
    decreases j
  {
    hide Raised, Plus, Embed, Value, Far;
    if k == j {
      FarStep(r, 0, Value(r, d[..k]));
    } else {
      ValueZeros(r, d, k, j - 1);
      ValueStep(r, d, j - 1);
      EmbedLinear(0, 0);
      PlusLaws(Raised(r, Value(r, d[..j - 1])), 0, 0);
      FarStep(r, j - 1 - k, Value(r, d[..k]));
    }
  }

  /** Nothing but zeros outside three places. */
  ghost predicate OnlyAt(d: seq<byte>, p: nat, q: nat, t: nat) {
    p < q < t < |d| && forall i :: 0 <= i < |d| && i != p && i != q && i != t ==> d[i] == 0
  }

  /** The three coefficients, each worth what its distance makes it. */
  function Sum3(r: nat, a: nat, b: nat, x: elem, y: elem, z: elem): elem {
    Plus(Plus(Far(r, a, x), Far(r, b, y)), z)
  }

  /** What the value comes to at the third place. */
  lemma ValueOfThree(r: nat, d: seq<byte>, p: nat, q: nat, t: nat)
    requires OnlyAt(d, p, q, t) && Value(r, d) == 0
    ensures Sum3(r, t - p, t - q, Embed(d[p]), Embed(d[q]), Embed(d[t])) == 0
  {
    hide Sum3, Plus, Embed, Value, Far;
    FirstPlace(r, d, p);
    SecondPlace(r, d, p, q);
    ThirdPlace(r, d, p, q, t);
    LastPlace(r, d, t + 1);
  }

  lemma LastPlace(r: nat, d: seq<byte>, k: nat)
    requires k <= |d| && (forall i :: k <= i < |d| ==> d[i] == 0) && Value(r, d) == 0
    ensures Value(r, d[..k]) == 0
  {
    hide Far, Value;
    assert d[..|d|] == d;
    ValueZeros(r, d, k, |d|);
    FarZero(r, |d| - k, Value(r, d[..k]));
  }

  lemma FirstPlace(r: nat, d: seq<byte>, p: nat)
    requires p < |d| && forall i :: 0 <= i < p ==> d[i] == 0
    ensures Value(r, d[..p + 1]) == Embed(d[p])
  {
    hide Raised, Plus, Embed, Value, Far;
    ValueNothing(r);
    assert d[..0] == [];
    ValueZeros(r, d, 0, p);
    FarLinear(r, p, 0, 0);
    RaisedLinear(r, 0, 0);
    ValueStep(r, d, p);
    PlusLaws(Embed(d[p]), 0, 0);
  }

  lemma ValueNothing(r: nat)
    ensures Value(r, []) == 0
  {
  }

  lemma SecondPlace(r: nat, d: seq<byte>, p: nat, q: nat)
    requires p < q < |d| && (forall i :: p < i < q ==> d[i] == 0) && Value(r, d[..p + 1]) == Embed(d[p])
    ensures Value(r, d[..q + 1]) == Plus(Far(r, q - p, Embed(d[p])), Embed(d[q]))
  {
    hide Raised, Plus, Embed, Value, Far;
    ValueZeros(r, d, p + 1, q);
    ValueStep(r, d, q);
    FarStep(r, q - p - 1, Embed(d[p]));
  }

  lemma ThirdPlace(r: nat, d: seq<byte>, p: nat, q: nat, t: nat)
    requires p < q < t < |d| && forall i :: q < i < t ==> d[i] == 0
    requires Value(r, d[..q + 1]) == Plus(Far(r, q - p, Embed(d[p])), Embed(d[q]))
    ensures Value(r, d[..t + 1]) == Sum3(r, t - p, t - q, Embed(d[p]), Embed(d[q]), Embed(d[t]))
  {
    hide Raised, Plus, Embed, Value, Far;
    ValueZeros(r, d, q + 1, t);
    ValueStep(r, d, t);
    FarStep(r, t - q - 1, Value(r, d[..q + 1]));
    FarLinear(r, t - q, Far(r, q - p, Embed(d[p])), Embed(d[q]));
    FarAdd(r, t - q, q - p, Embed(d[p]));
  }

  /** No word of weight one to three, within the window, has the remainder zero. */
  lemma NoLightWord(d: seq<byte>, p: nat, q: nat, t: nat)
    requires Fives(d) && OnlyAt(d, p, q, t) && t - p < 1023 && Run(ZERO, d) == ZERO
    ensures d[p] == 0 && d[q] == 0 && d[t] == 0
  {
    hide Raised, Plus, Embed, Value, Run, IsRoot, Far;
    Roots();
    ZeroAt(24, d, p, q, t);
    ZeroAt(25, d, p, q, t);
    ZeroAt(26, d, p, q, t);
    var a, b := t - p, t - q;
    var x, y := Embed(d[p]), Embed(d[q]);
    NextExponent(24, a, x);
    NextExponent(25, a, x);
    NextExponent(24, b, y);
    NextExponent(25, b, y);
    ThreeTerms(a, b, Far(24, a, x), Far(24, b, y), Embed(d[t]));
    FarZero(24, a, x);
    FarZero(24, b, y);
    EmbedZero(d[p]);
    EmbedZero(d[q]);
    EmbedZero(d[t]);
  }

  lemma NextExponent(r: nat, a: nat, x: elem)
    ensures Far(r + 1, a, x) == Raised(a, Far(r, a, x))
  {
    hide Raised;
    assert (r + 1) * a == a + r * a;
    RaisedAdd(a, r * a, x);
  }

  lemma ZeroAt(r: nat, d: seq<byte>, p: nat, q: nat, t: nat)
    requires IsRoot(r) && Fives(d) && OnlyAt(d, p, q, t) && Run(ZERO, d) == ZERO
    ensures Sum3(r, t - p, t - q, Embed(d[p]), Embed(d[q]), Embed(d[t])) == 0
  {
    hide Sum3, Embed, Value, Run, IsRoot;
    RunValue(r, d);
    NoValue(r);
    ValueOfThree(r, d, p, q, t);
  }

  /** Up to three wrong symbols of a valid data part, anywhere in a window of 1023, are noticed. */
  lemma ThreeErrorsDetected(hrp: seq<byte>, v: seq<byte>, w: seq<byte>, p: nat, q: nat, t: nat)
    requires Fives(v) && Fives(w) && |v| == |w| && v != w && p < q < t < |v| && t - p < 1023
    requires forall i :: 0 <= i < |v| && i != p && i != q && i != t ==> v[i] == w[i]
    requires Verifies(hrp, v)
    ensures !Verifies(hrp, w)
  {
    hide Run, Step, XorBits, Expanded, XorSeq, Verifies;
    if Verifies(hrp, w) {
      SameRemainder(hrp, v, w);
      Differences(v, w);
      NoLightWord(XorSeq(v, w), p, q, t);
    }
  }

  lemma SameRemainder(hrp: seq<byte>, v: seq<byte>, w: seq<byte>)
    requires |v| == |w| && Verifies(hrp, v) && Verifies(hrp, w)
    ensures Run(ZERO, XorSeq(v, w)) == ZERO
  {
    hide Run, Step, XorBits, Expanded;
    var c := Remainder(hrp, []);
    RunAppend(hrp, [], v);
    RunAppend(hrp, [], w);
    assert [] + v == v && [] + w == w;
    RunLinear(c, c, v, w);
    XorLaws(c.bits, c.bits);
    XorLaws(1, 1);
  }

  lemma Differences(v: seq<byte>, w: seq<byte>)
    requires Fives(v) && Fives(w) && |v| == |w|
    ensures |XorSeq(v, w)| == |v| && Fives(XorSeq(v, w)) && forall i :: 0 <= i < |v| ==>
      (XorSeq(v, w)[i] == 0 <==> v[i] == w[i])
  {
    forall i | 0 <= i < |v|
      ensures XorByte(v[i], w[i]) < 32 && (XorByte(v[i], w[i]) == 0 <==> v[i] == w[i])
    {
      XorFive(v[i], w[i]);
      assert v[i] == w[i] ==> XorByte(v[i], w[i]) == 0;
    }
  }

  /** A text that is accepted is not accepted any more with up to three of its data characters replaced by any
      others, the separator apart, unless only their case is different. */
  lemma ThreeCharactersRefused(s: seq<byte>, w: seq<byte>, p: nat, q: nat, t: nat)
    requires T.WellFormed(s) && |w| == |s| && T.LastOne(s) < p < q < t < |s|
    requires forall i :: 0 <= i < |s| && i != p && i != q && i != t ==> w[i] == s[i]
    requires w[p] != T.ONE && w[q] != T.ONE && w[t] != T.ONE
    requires T.RevOf(w[p]) != T.RevOf(s[p]) || T.RevOf(w[q]) != T.RevOf(s[q]) || T.RevOf(w[t]) != T.RevOf(s[t])
    ensures !T.WellFormed(w)
  {
    hide Verifies, T.RevOf, T.Lowered, T.Symbols, T.AllSymbols, T.Printable, T.MixedCase, T.LastOne, Fives;
    var pos := T.LastOne(s);
    SymbolsOf(s[pos + 1..]);
    SameSeparator(s, w, pos);
    assert w[..pos] == s[..pos];
    if T.WellFormed(w) {
      var k := pos + 1;
      SymbolsOf(w[k..]);
      ThreeErrorsDetected(T.Lowered(s[..pos]), T.Symbols(s[k..]), T.Symbols(w[k..]), p - k, q - k, t - k);
    }
  }

  lemma SymbolsOf(s: seq<byte>)
    requires T.AllSymbols(s)
    ensures |T.Symbols(s)| == |s| && Fives(T.Symbols(s))
    ensures forall i :: 0 <= i < |s| ==> T.RevOf(s[i]).Some? && T.RevOf(s[i]).value == T.Symbols(s)[i]
  {
    hide T.RevOf;
    SymbolsFives(s);
  }

  lemma SameSeparator(s: seq<byte>, w: seq<byte>, pos: nat)
    requires |w| == |s| && pos == T.LastOne(s) && w[pos] == s[pos]
    requires forall i :: pos < i < |s| ==> w[i] == s[i] || w[i] != T.ONE
    ensures T.LastOne(w) == pos
  {
    T.LastOneFound(s);
    T.LastOneIs(w, pos);
  }

  lemma SymbolsFives(s: seq<byte>)
    requires T.AllSymbols(s)
    ensures Fives(T.Symbols(s))
  {
    hide T.RevOf;
    forall i | 0 <= i < |s|
      ensures T.RevOf(s[i]).value < 32
    {
      T.CharRev(s[i]);
    }
  }

  // ---------------------------------------------------------------------
  // The human-readable part

  /** A byte is its high and its low bits. */
  lemma PartsTell(a: byte, b: byte)
    requires High(a) == High(b) && Low(a) == Low(b)
    ensures a == b
  {
  }

  lemma ExpandedAt(hrp: seq<byte>, i: nat)
    requires i < |hrp|
    ensures |Expanded(hrp)| == 2 * |hrp| + 1 && Expanded(hrp)[i] == High(hrp[i])
    ensures Expanded(hrp)[|hrp|] == 0 && Expanded(hrp)[|hrp| + 1 + i] == Low(hrp[i])
  {
  }

  /** Different human-readable parts enter the checksum differently. */
  lemma ExpandedInjective(a: seq<byte>, b: seq<byte>)
    requires Expanded(a) == Expanded(b)
    ensures a == b
  {
    hide High, Low;
    assert |Expanded(a)| == 2 * |a| + 1 && |Expanded(b)| == 2 * |b| + 1;
    forall i | 0 <= i < |a|
      ensures a[i] == b[i]
    {
      ExpandedAt(a, i);
      ExpandedAt(b, i);
      PartsTell(a[i], b[i]);
    }
  }

  /** Two parts that differ in one character differ in at most two places, which are not both alike. */
  lemma ExpandedDiffers(a: seq<byte>, b: seq<byte>, i: nat)
    requires i < |a| == |b| && a[i] != b[i] && forall k :: 0 <= k < |a| && k != i ==> a[k] == b[k]
    ensures |Expanded(a)| == |Expanded(b)| == 2 * |a| + 1
    ensures forall k :: 0 <= k < 2 * |a| + 1 && k != i && k != |a| + 1 + i ==> Expanded(a)[k] == Expanded(b)[k]
    ensures Expanded(a)[i] != Expanded(b)[i] || Expanded(a)[|a| + 1 + i] != Expanded(b)[|a| + 1 + i]
  {
    hide High, Low;
    ExpandedAt(a, i);
    ExpandedAt(b, i);
    if High(a[i]) == High(b[i]) && Low(a[i]) == Low(b[i]) {
      PartsTell(a[i], b[i]);
    }
  }

  /** A wrong character of the prefix, and a wrong symbol of the data with it, are noticed. */
  lemma PrefixErrorDetected(a: seq<byte>, b: seq<byte>, v: seq<byte>, w: seq<byte>, i: nat, j: nat)
    requires i < |a| == |b| && a[i] != b[i] && forall k :: 0 <= k < |a| && k != i ==> a[k] == b[k]
    requires j < |v| == |w| && (forall k :: 0 <= k < |v| && k != j ==> v[k] == w[k]) && Fives(v) && Fives(w)
    requires 2 * |a| + 1 + |v| <= 1023 && Verifies(a, v)
    ensures !Verifies(b, w)
  {
    hide Run, Step, XorBits, Expanded, XorSeq;
    if Verifies(b, w) {
      ExpandedDiffers(a, b, i);
      ExpandedFives(a);
      ExpandedFives(b);
      var x, y := Expanded(a) + v, Expanded(b) + w;
      Differences(x, y);
      RunLinear(Word(1), Word(1), x, y);
      XorLaws(1, 1);
      var d := XorSeq(x, y);
      var p, q, t := i, |a| + 1 + i, 2 * |a| + 1 + j;
      assert forall k :: 0 <= k < |d| && k != p && k != q && k != t ==> x[k] == y[k];
      NoLightWord(d, p, q, t);
    }
  }

  /** A text that is accepted is not accepted any more with one character of its human-readable part replaced by any
      other, not only in case, whether or not one of its data characters is replaced as well. */
  lemma PrefixCharacterRefused(s: seq<byte>, w: seq<byte>, i: nat, j: nat)
    requires T.WellFormed(s) && |w| == |s| && i < T.LastOne(s) < j < |s| && w[j] != T.ONE
    requires T.LowerCase(w[i]) != T.LowerCase(s[i])
    requires forall k :: 0 <= k < |s| && k != i && k != j ==> w[k] == s[k]
    ensures !T.WellFormed(w)
  {
    hide Verifies, T.RevOf, T.Symbols, T.AllSymbols, T.Printable, T.MixedCase, T.LastOne, Fives, T.LowerCase;
    var pos := T.LastOne(s);
    SymbolsOf(s[pos + 1..]);
    SameSeparator(s, w, pos);
    if T.WellFormed(w) {
      var k := pos + 1;
      SymbolsOf(w[k..]);
      var v, u := T.Symbols(s[k..]), T.Symbols(w[k..]);
      assert forall n :: 0 <= n < |v| && n != j - k ==> s[k..][n] == w[k..][n] && v[n] == u[n];
      PrefixErrorDetected(T.Lowered(s[..pos]), T.Lowered(w[..pos]), v, u, i, j - k);
    }
  }
}
