/** The Bech32 text encoding and its checksum. */
module Bech32 {

  type byte = bv8

  /** Six coefficients of five bits, packed. */
  datatype Word = Word(bits: bv32)

  function XorBits(a: bv32, b: bv32): bv32 {
    a ^ b
  }

  function Xor(a: Word, b: Word): Word {
    Word(XorBits(a.bits, b.bits))
  }

  // ---------------------------------------------------------------------
  // The checksum step

  /** A multiple of the generator's remainder, added on a condition. */
  function AddIf(on: bool, k: bv32, c: Word): Word {
    if on then Word(XorBits(c.bits, k)) else c
  }

  function MovedBits(c: bv32, v: byte): bv32 {
    ((c & 0x1ff_ffff) << 5) ^ (v as bv32)
  }

  /** The packed coefficients moved up by one place, v in the last. */
  function Moved(c: Word, v: byte): Word {
    Word(MovedBits(c.bits, v))
  }

  /** A bit of the leading coefficient. */
  predicate LeadBit(c: bv32, bit: bv32) {
    (c >> 25) & bit != 0
  }

  /** Bit n of the leading coefficient. */
  predicate Lead(c: Word, n: nat)
    requires n < 5
  {
    if n == 0 then LeadBit(c.bits, 1)
    else if n == 1 then LeadBit(c.bits, 2)
    else if n == 2 then LeadBit(c.bits, 4)
    else if n == 3 then LeadBit(c.bits, 8)
    else LeadBit(c.bits, 16)
  }

  /** The generator times each power of two, without its leading coefficient. */
  const GENERATOR1: bv32 := 0x3b6a_57b2
  const GENERATOR2: bv32 := 0x2650_8e6d
  const GENERATOR4: bv32 := 0x1ea1_19fa
  const GENERATOR8: bv32 := 0x3d42_33dd
  const GENERATOR16: bv32 := 0x2a14_62b3

  function Multiple(n: nat): bv32
    requires n < 5
  {
    if n == 0 then GENERATOR1
    else if n == 1 then GENERATOR2
    else if n == 2 then GENERATOR4
    else if n == 3 then GENERATOR8
    else GENERATOR16
  }

  /** The multiples for the bits below n of the leading coefficient of c, added to r. */
  function Folded(c: Word, n: nat, r: Word): Word
    requires n <= 5
  {
    if n == 0 then r else AddIf(Lead(c, n - 1), Multiple(n - 1), Folded(c, n - 1, r))
  }

  /** One coefficient more: c(x) * x + v modulo the generator. */
  function Step(c: Word, v: byte): Word {
    Folded(c, 5, Moved(c, v))
  }

  lemma AddIfLinear(a: bool, b: bool, k: bv32, c: Word, d: Word)
    ensures AddIf(a != b, k, Xor(c, d)) == Xor(AddIf(a, k, c), AddIf(b, k, d))
  {
    XorTwice(c.bits, d.bits, k);
    hide XorBits;
  }

  lemma XorTwice(c: bv32, d: bv32, k: bv32)
    ensures XorBits(c, d) == XorBits(XorBits(c, k), XorBits(d, k))
    ensures XorBits(XorBits(c, d), k) == XorBits(XorBits(c, k), d) == XorBits(c, XorBits(d, k))
  {
    hide XorBits;
    XorLaws(d, k);
    XorLaws(k, d);
    XorAssoc(c, d, k);
    XorAssoc(c, k, d);
    XorAssoc(XorBits(c, k), k, d);
    XorAssoc(c, k, k);
    XorLaws(k, k);
    XorLaws(c, c);
  }

  lemma XorLaws(c: bv32, d: bv32)
    ensures XorBits(c, d) == XorBits(d, c) && XorBits(c, c) == 0 && XorBits(c, 0) == c
  {
  }

  lemma XorAssoc(c: bv32, d: bv32, k: bv32)
    ensures XorBits(XorBits(c, d), k) == XorBits(c, XorBits(d, k))
  {
  }

  lemma LeadBitsLow(c: bv32, d: bv32)
    ensures LeadBit(XorBits(c, d), 1) == (LeadBit(c, 1) != LeadBit(d, 1))
    ensures LeadBit(XorBits(c, d), 2) == (LeadBit(c, 2) != LeadBit(d, 2))
    ensures LeadBit(XorBits(c, d), 4) == (LeadBit(c, 4) != LeadBit(d, 4))
  {
  }

  lemma LeadBitsHigh(c: bv32, d: bv32)
    ensures LeadBit(XorBits(c, d), 8) == (LeadBit(c, 8) != LeadBit(d, 8))
    ensures LeadBit(XorBits(c, d), 16) == (LeadBit(c, 16) != LeadBit(d, 16))
  {
  }

  lemma LeadLinear(c: Word, d: Word, n: nat)
    requires n < 5
    ensures Lead(Xor(c, d), n) == (Lead(c, n) != Lead(d, n))
  {
    hide LeadBit, XorBits;
    LeadBitsLow(c.bits, d.bits);
    LeadBitsHigh(c.bits, d.bits);
  }

  lemma MovedBitsLinear(c: bv32, d: bv32, v: byte, w: byte)
    ensures MovedBits(XorBits(c, d), v ^ w) == XorBits(MovedBits(c, v), MovedBits(d, w))
  {
  }

  lemma MovedLinear(c: Word, d: Word, v: byte, w: byte)
    ensures Moved(Xor(c, d), v ^ w) == Xor(Moved(c, v), Moved(d, w))
  {
    hide MovedBits, XorBits;
    MovedBitsLinear(c.bits, d.bits, v, w);
  }

  lemma {:induction false} FoldedLinear(c: Word, d: Word, n: nat, r: Word, t: Word)
    requires n <= 5
    ensures Folded(Xor(c, d), n, Xor(r, t)) == Xor(Folded(c, n, r), Folded(d, n, t))
    decreases n
  {
    hide Lead, AddIf, Xor, Multiple;
    if n > 0 {
      FoldedLinear(c, d, n - 1, r, t);
      LeadLinear(c, d, n - 1);
      AddIfLinear(Lead(c, n - 1), Lead(d, n - 1), Multiple(n - 1), Folded(c, n - 1, r), Folded(d, n - 1, t));
    }
  }

  /** The step is linear over exclusive or. */
  lemma StepLinear(c: Word, d: Word, v: byte, w: byte)
    ensures Step(Xor(c, d), v ^ w) == Xor(Step(c, v), Step(d, w))
  {
    hide Moved, Xor, Folded;
    MovedLinear(c, d, v, w);
    FoldedLinear(c, d, 5, Moved(c, v), Moved(d, w));
  }

  function AddIfBits(on: bool, k: bv32, c: bv32): bv32 {
    if on then c ^ k else c
  }

  /** The multiples that are wanted, added one after the other. */
  function Added(p: bool, q: bool, r: bool, s: bool, t: bool, c: bv32): bv32 {
    var c2 := AddIfBits(q, GENERATOR2, AddIfBits(p, GENERATOR1, c));
    var c4 := AddIfBits(s, GENERATOR8, AddIfBits(r, GENERATOR4, c2));
    AddIfBits(t, GENERATOR16, c4)
  }

  /** The same step written out on the bits. */
  function StepBits(c: bv32, v: byte): bv32 {
    Added(LeadBit(c, 1), LeadBit(c, 2), LeadBit(c, 4), LeadBit(c, 8), LeadBit(c, 16), MovedBits(c, v))
  }

  lemma AddIfAsBits(on: bool, k: bv32, c: Word)
    ensures AddIf(on, k, c).bits == AddIfBits(on, k, c.bits)
  {
  }

  lemma FoldedStep(c: Word, n: nat, r: Word)
    requires n < 5
    ensures Folded(c, n + 1, r) == AddIf(Lead(c, n), Multiple(n), Folded(c, n, r)) && Folded(c, 0, r) == r
  {
    hide AddIf, Lead, Multiple;
  }

  lemma StepAsBits(c: Word, v: byte)
    ensures Step(c, v).bits == StepBits(c.bits, v)
  {
    hide Folded, AddIf, MovedBits, AddIfBits;
    var r := Moved(c, v);
    FoldedStep(c, 0, r);
    FoldedStep(c, 1, r);
    FoldedStep(c, 2, r);
    FoldedStep(c, 3, r);
    FoldedStep(c, 4, r);
    AddIfAsBits(Lead(c, 0), Multiple(0), r);
    AddIfAsBits(Lead(c, 1), Multiple(1), Folded(c, 1, r));
    AddIfAsBits(Lead(c, 2), Multiple(2), Folded(c, 2, r));
    AddIfAsBits(Lead(c, 3), Multiple(3), Folded(c, 3, r));
    AddIfAsBits(Lead(c, 4), Multiple(4), Folded(c, 4, r));
  }

  lemma StepBitsInjective(c: bv32)
    requires c < 0x4000_0000 && StepBits(c, 0) == 0
    ensures c == 0
  {
  }

  lemma StepBitsBound(c: bv32, v: byte)
    requires c < 0x4000_0000 && v < 32
    ensures StepBits(c, v) < 0x4000_0000
  {
  }

  /** The state is a polynomial of degree below six. */
  predicate Small(c: Word) {
    c.bits < 0x4000_0000
  }

  const ZERO: Word := Word(0)

  lemma StepInjective(c: Word, d: Word, v: byte)
    requires Small(c) && Small(d) && Step(c, v) == Step(d, v)
    ensures c == d
  {
    var x := Xor(c, d);
    hide Step;
    XorLaws(c.bits, d.bits);
    XorSmall(c.bits, d.bits);
    StepLinear(c, d, v, v);
    assert v ^ v == 0;
    XorLaws(Step(c, v).bits, Step(c, v).bits);
    StepAsBits(x, 0);
    StepBitsInjective(x.bits);
    XorZero(c.bits, d.bits);
  }

  lemma XorSmall(c: bv32, d: bv32)
    requires c < 0x4000_0000 && d < 0x4000_0000
    ensures XorBits(c, d) < 0x4000_0000
  {
  }

  lemma XorZero(c: bv32, d: bv32)
    requires XorBits(c, d) == 0
    ensures c == d
  {
  }

  lemma StepSmall(c: Word, v: byte)
    requires Small(c) && v < 32
    ensures Small(Step(c, v))
  {
    hide Step, StepBits;
    StepAsBits(c, v);
    StepBitsBound(c.bits, v);
  }

  // ---------------------------------------------------------------------
  // Runs of steps

  function Run(c: Word, v: seq<byte>): Word
    decreases |v|
  {
    if v == [] then c else Run(Step(c, v[0]), v[1..])
  }

  predicate Fives(v: seq<byte>) {
    forall i :: 0 <= i < |v| ==> v[i] < 32
  }

  function XorByte(a: byte, b: byte): byte {
    a ^ b
  }

  function XorSeq(v: seq<byte>, w: seq<byte>): seq<byte>
    requires |v| == |w|
  {
    seq(|v|, i requires 0 <= i < |v| => XorByte(v[i], w[i]))
  }

  lemma {:induction false} RunLinear(c: Word, d: Word, v: seq<byte>, w: seq<byte>)
    requires |v| == |w|
    ensures Run(Xor(c, d), XorSeq(v, w)) == Xor(Run(c, v), Run(d, w))
    decreases |v|
  {
    hide Step, Xor;
    if v != [] {
      StepLinear(c, d, v[0], w[0]);
      RunLinear(Step(c, v[0]), Step(d, w[0]), v[1..], w[1..]);
      assert XorSeq(v, w)[1..] == XorSeq(v[1..], w[1..]);
    }
  }

  lemma {:induction false} RunConcat(c: Word, v: seq<byte>, w: seq<byte>)
    ensures Run(c, v + w) == Run(Run(c, v), w)
    decreases |v|
  {
    hide Step;
    if v == [] {
      assert v + w == w;
    } else {
      RunConcat(Step(c, v[0]), v[1..], w);
      assert (v + w)[1..] == v[1..] + w;
    }
  }

  lemma {:induction false} RunSmall(c: Word, v: seq<byte>)
    requires Small(c) && Fives(v)
    ensures Small(Run(c, v))
    decreases |v|
  {
    hide Step, Small;
    if v != [] {
      StepSmall(c, v[0]);
      RunSmall(Step(c, v[0]), v[1..]);
    }
  }

  /** What follows a difference never makes it go away. */
  lemma {:induction false} RunInjective(c: Word, d: Word, v: seq<byte>)
    requires Small(c) && Small(d) && Fives(v) && Run(c, v) == Run(d, v)
    ensures c == d
    decreases |v|
  {
    hide Step, Small;
    if v != [] {
      StepSmall(c, v[0]);
      StepSmall(d, v[0]);
      RunInjective(Step(c, v[0]), Step(d, v[0]), v[1..]);
      StepInjective(c, d, v[0]);
    }
  }

  /** 2^(5k) */
  function Room(k: nat): bv32
    requires k <= 5
  {
    if k == 0 then 1 else if k == 1 then 0x20 else if k == 2 then 0x400 else if k == 3 then 0x8000
    else if k == 4 then 0x10_0000 else 0x200_0000
  }

  function Append5(c: bv32, v: byte): bv32 {
    (c << 5) ^ (v as bv32)
  }

  lemma StepRoomy(c: bv32, v: byte, k: nat)
    requires k <= 5 && c < Room(k) && v < 32
    ensures StepBits(c, v) == Append5(c, v)
    ensures k < 5 ==> StepBits(c, v) < Room(k + 1)
    ensures StepBits(c, v) == 0 ==> c == 0 && v == 0
  {
  }

  /** From zero, the first six coefficients just fill the six places. */
  lemma {:induction false} RunShort(v: seq<byte>)
    requires |v| <= 6 && Fives(v)
    ensures |v| < 6 ==> Run(ZERO, v).bits < Room(|v|)
    ensures Run(ZERO, v) == ZERO ==> forall i :: 0 <= i < |v| ==> v[i] == 0
    decreases |v|
  {
    hide Step, StepBits;
    if v != [] {
      var n := |v| - 1;
      RunShort(v[..n]);
      RunConcat(ZERO, v[..n], [v[n]]);
      assert v[..n] + [v[n]] == v;
      var c := Run(ZERO, v[..n]);
      assert Run(c, [v[n]]) == Run(Step(c, v[n]), [v[n]][1..]) == Step(c, v[n]);
      StepAsBits(c, v[n]);
      StepRoomy(c.bits, v[n], n);
    }
  }

  /** Different symbols in at most six places lead to different states. */
  lemma ShortDiffers(c: Word, v: seq<byte>, w: seq<byte>)
    requires |v| == |w| <= 6 && Fives(v) && Fives(w) && Run(c, v) == Run(c, w)
    ensures v == w
  {
    hide Step, Run, XorBits;
    var e := XorSeq(v, w);
    RunLinear(c, c, v, w);
    XorLaws(c.bits, c.bits);
    XorLaws(Run(c, v).bits, Run(c, v).bits);
    forall i | 0 <= i < |v|
      ensures e[i] < 32 && (e[i] == 0 ==> v[i] == w[i])
    {
      XorFive(v[i], w[i]);
    }
    RunShort(e);
  }

  lemma XorFive(a: byte, b: byte)
    requires a < 32 && b < 32
    ensures a ^ b < 32 && (a ^ b == 0 ==> a == b)
  {
  }

  // ---------------------------------------------------------------------
  // Checksums of data parts

  function High(c: byte): byte {
    c >> 5
  }

  function Low(c: byte): byte {
    c & 0x1f
  }

  /** The human-readable part as it enters the checksum: high bits, a zero, low bits. */
  function Expanded(hrp: seq<byte>): seq<byte> {
    seq(|hrp|, i requires 0 <= i < |hrp| => High(hrp[i])) + [0] + seq(|hrp|, i requires 0 <= i < |hrp| => Low(hrp[i]))
  }

  function Remainder(hrp: seq<byte>, values: seq<byte>): Word {
    Run(Word(1), Expanded(hrp) + values)
  }

  predicate Verifies(hrp: seq<byte>, values: seq<byte>) {
    Remainder(hrp, values) == Word(1)
  }

  lemma ExpandedFives(hrp: seq<byte>)
    ensures Fives(Expanded(hrp))
  {
    forall i | 0 <= i < |hrp|
      ensures High(hrp[i]) < 32 && Low(hrp[i]) < 32
    {
      ByteParts(hrp[i]);
    }
  }

  lemma ByteParts(c: byte)
    ensures High(c) < 32 && Low(c) < 32
  {
  }

  /** Any change within six neighbouring symbols of a valid data part, at whatever length, is noticed. */
  lemma BurstDetected(hrp: seq<byte>, before: seq<byte>, x: seq<byte>, y: seq<byte>, after: seq<byte>)
    requires Fives(before) && Fives(x) && Fives(y) && Fives(after) && |x| == |y| <= 6 && x != y
    requires Verifies(hrp, before + x + after)
    ensures !Verifies(hrp, before + y + after)
  {
    hide Run, Step, Small;
    var c := Remainder(hrp, before);
    RunParts(hrp, before, x, after);
    RunParts(hrp, before, y, after);
    if Run(Run(c, x), after) == Run(Run(c, y), after) {
      StartSmall(hrp, before);
      RunSmall(c, x);
      RunSmall(c, y);
      RunInjective(Run(c, x), Run(c, y), after);
      ShortDiffers(c, x, y);
    }
  }

  lemma StartSmall(hrp: seq<byte>, values: seq<byte>)
    requires Fives(values)
    ensures Small(Remainder(hrp, values))
  {
    ExpandedFives(hrp);
    RunSmall(Word(1), Expanded(hrp) + values);
  }

  lemma RunParts(hrp: seq<byte>, before: seq<byte>, x: seq<byte>, after: seq<byte>)
    ensures Remainder(hrp, before + x + after) == Run(Run(Remainder(hrp, before), x), after)
  {
    hide Run, Expanded;
    var e := Expanded(hrp);
    assert e + (before + x + after) == e + before + (x + after);
    RunConcat(Word(1), e + before, x + after);
    RunConcat(Remainder(hrp, before), x, after);
  }

  const NONE: seq<byte> := [0, 0, 0, 0, 0, 0]

  /** The six symbols that make the remainder one. */
  function Checksum(hrp: seq<byte>, values: seq<byte>): seq<byte> {
    Groups(XorBits(Remainder(hrp, values + NONE).bits, 1))
  }

  /** Without the last n groups of five bits. */
  function Shifted(mod: bv32, n: nat): bv32 {
    if n == 0 then mod else Down(Shifted(mod, n - 1))
  }

  function Down(t: bv32): bv32 {
    t >> 5
  }

  function Low5(mod: bv32): byte {
    (mod & 31) as byte
  }

  function Group(mod: bv32, i: nat): byte
    requires i < 6
  {
    Low5(Shifted(mod, 5 - i))
  }

  function Groups(mod: bv32): seq<byte> {
    seq(6, i requires 0 <= i < 6 => Group(mod, i))
  }

  /** The first k groups of mod. */
  function Top(mod: bv32, k: nat): bv32
    requires k <= 6
  {
    Shifted(mod, 6 - k)
  }

  lemma TopStep(mod: bv32, k: nat)
    requires k < 6 && mod < 0x4000_0000
    ensures Group(mod, k) < 32 && StepBits(Top(mod, k), Group(mod, k)) == Top(mod, k + 1) && Top(mod, 0) == 0
  {
    hide StepBits, Low5, Shifted, Append5, Room, Down, Group, Top;
    TopRoom(mod, k);
    TopRoom(mod, 0);
    TopNext(mod, k);
    ShiftBack(Top(mod, k + 1));
    StepRoomy(Top(mod, k), Group(mod, k), k);
  }

  lemma TopNext(mod: bv32, k: nat)
    requires k < 6
    ensures Top(mod, k) == Down(Top(mod, k + 1)) && Group(mod, k) == Low5(Top(mod, k + 1)) && Top(mod, 6) == mod
  {
    hide Down, Low5;
  }

  lemma {:induction false} TopRoom(mod: bv32, k: nat)
    requires k < 6 && mod < 0x4000_0000
    ensures Top(mod, k) < Room(k) && (k == 0 ==> Top(mod, k) == 0)
    decreases 6 - k
  {
    hide Shifted, Room, Down, Top;
    TopNext(mod, k);
    if k < 5 {
      TopRoom(mod, k + 1);
    }
    Roomy(Top(mod, k + 1), k);
  }

  lemma Roomy(t: bv32, k: nat)
    requires k < 6 && (if k < 5 then t < Room(k + 1) else t < 0x4000_0000)
    ensures Down(t) < Room(k) && (k == 0 ==> Down(t) == 0)
  {
  }

  lemma ShiftBack(t: bv32)
    ensures Append5(Down(t), Low5(t)) == t && Low5(t) < 32
  {
  }

  lemma {:induction false} RunGroups(mod: bv32, k: nat)
    requires k <= 6 && mod < 0x4000_0000
    ensures Fives(Groups(mod)[..k]) && Run(ZERO, Groups(mod)[..k]).bits == Top(mod, k)
    decreases k
  {
    hide Step, StepBits, Group, Top;
    if k > 0 {
      RunGroups(mod, k - 1);
      var v, g := Groups(mod)[..k - 1], Group(mod, k - 1);
      assert Groups(mod)[..k] == v + [g];
      RunConcat(ZERO, v, [g]);
      var c := Run(ZERO, v);
      assert Run(c, [g]) == Run(Step(c, g), [g][1..]) == Step(c, g);
      StepAsBits(c, g);
      TopStep(mod, k - 1);
    } else {
      TopStep(mod, 0);
    }
  }

  /** With its checksum appended a data part verifies. */
  lemma ChecksumVerifies(hrp: seq<byte>, values: seq<byte>)
    requires Fives(values)
    ensures |Checksum(hrp, values)| == 6 && Fives(Checksum(hrp, values))
    ensures Verifies(hrp, values + Checksum(hrp, values))
  {
    hide Run, Step, Groups, XorBits, NONE, Small;
    var c := Remainder(hrp, values);
    NoneFacts();
    RunAppend(hrp, values, NONE);
    var m := Run(c, NONE);
    var sum := Checksum(hrp, values);
    RunAppend(hrp, values, sum);
    StartSmall(hrp, values + NONE);
    FlipSmall(m);
    GroupsFacts(XorBits(m.bits, 1));
    NoneXor(sum);
    RunLinear(c, ZERO, NONE, sum);
    XorLaws(c.bits, 0);
    FlipBack(m.bits);
  }

  lemma NoneFacts()
    ensures |NONE| == 6 && Fives(NONE)
  {
  }

  lemma NoneXor(sum: seq<byte>)
    requires |sum| == 6 == |NONE|
    ensures XorSeq(NONE, sum) == sum
  {
    forall i | 0 <= i < 6
      ensures XorByte(NONE[i], sum[i]) == sum[i]
    {
      XorNothing(sum[i]);
    }
  }

  lemma GroupsFacts(mod: bv32)
    requires mod < 0x4000_0000
    ensures |Groups(mod)| == 6 && Fives(Groups(mod)) && Run(ZERO, Groups(mod)) == Word(mod)
  {
    hide Run, Group;
    RunGroups(mod, 6);
    assert Groups(mod)[..6] == Groups(mod);
  }

  lemma FlipSmall(m: Word)
    requires Small(m)
    ensures XorBits(m.bits, 1) < 0x4000_0000
  {
  }

  lemma FlipBack(m: bv32)
    ensures XorBits(m, XorBits(m, 1)) == 1
  {
    hide XorBits;
    XorAssoc(m, m, 1);
    XorLaws(m, m);
    XorLaws(0, 1);
    XorLaws(1, 0);
  }

  lemma XorNothing(b: byte)
    ensures XorByte(0, b) == b
  {
  }

  lemma RunAppend(hrp: seq<byte>, values: seq<byte>, more: seq<byte>)
    ensures Remainder(hrp, values + more) == Run(Remainder(hrp, values), more)
  {
    hide Run, Expanded;
    assert Expanded(hrp) + (values + more) == Expanded(hrp) + values + more;
    RunConcat(Word(1), Expanded(hrp) + values, more);
  }

  /** Only the computed checksum verifies. */
  lemma ChecksumUnique(hrp: seq<byte>, values: seq<byte>, sum: seq<byte>)
    requires Fives(values) && |sum| == 6 && Fives(sum) && Verifies(hrp, values + sum)
    ensures sum == Checksum(hrp, values)
  {
    hide Run, Checksum;
    ChecksumVerifies(hrp, values);
    RunAppend(hrp, values, sum);
    RunAppend(hrp, values, Checksum(hrp, values));
    ShortDiffers(Remainder(hrp, values), sum, Checksum(hrp, values));
  }

  // ---------------------------------------------------------------------
  // The computations

  /** One round of the loop in PolyMod. */
  method PolyStep(c: bv32, v: byte) returns (r: bv32)
    ensures r == StepBits(c, v)
  {
    hide MovedBits, AddIfBits;
    var c0 := c >> 25;
    r := MovedBits(c, v);
    r := AddIfBits(c0 & 1 != 0, GENERATOR1, r);
    r := AddIfBits(c0 & 2 != 0, GENERATOR2, r);
    r := AddIfBits(c0 & 4 != 0, GENERATOR4, r);
    r := AddIfBits(c0 & 8 != 0, GENERATOR8, r);
    r := AddIfBits(c0 & 16 != 0, GENERATOR16, r);
  }

  method PolyMod(v: seq<byte>) returns (c: bv32)
    ensures c == Run(Word(1), v).bits
  {
    hide Step, StepBits, Run;
    c := 1;
    RunStep(Word(1), v, 0);
    for i := 0 to |v|
      invariant c == Run(Word(1), v[..i]).bits
    {
      RunStep(Word(1), v, i);
      StepAsBits(Word(c), v[i]);
      c := PolyStep(c, v[i]);
    }
    assert v[..|v|] == v;
  }

  lemma RunStep(c: Word, v: seq<byte>, i: nat)
    requires i <= |v|
    ensures Run(c, v[..0]) == c && (i < |v| ==> Run(c, v[..i + 1]) == Step(Run(c, v[..i]), v[i]))
  {
    hide Step;
    if i < |v| {
      assert v[..i + 1] == v[..i] + [v[i]];
      RunConcat(c, v[..i], [v[i]]);
      var d := Run(c, v[..i]);
      assert Run(d, [v[i]]) == Run(Step(d, v[i]), [v[i]][1..]);
    }
  }

  method ExpandHRP(hrp: seq<byte>) returns (r: seq<byte>)
    ensures r == Expanded(hrp)
  {
    hide High, Low;
    var n := |hrp|;
    var ret := new byte[2 * n + 1](i => 0);
    for i := 0 to n
      invariant forall j :: 0 <= j < i ==> ret[j] == High(hrp[j]) && ret[n + 1 + j] == Low(hrp[j])
    {
      ret[i] := High(hrp[i]);
      ret[i + n + 1] := Low(hrp[i]);
    }
    ret[n] := 0;
    r := ret[..];
  }

  method VerifyChecksum(hrp: seq<byte>, values: seq<byte>) returns (ok: bool)
    ensures ok == Verifies(hrp, values)
  {
    hide Run, Expanded;
    var e := ExpandHRP(hrp);
    var c := PolyMod(e + values);
    ok := c == 1;
  }

  method CreateChecksum(hrp: seq<byte>, values: seq<byte>) returns (sum: seq<byte>)
    ensures sum == Checksum(hrp, values)
  {
    hide Run, Expanded, Group;
    var e := ExpandHRP(hrp);
    var c := PolyMod(e + values + NONE);
    assert e + values + NONE == e + (values + NONE);
    var mod := XorBits(c, 1);
    sum := [];
    for i := 0 to 6
      invariant sum == Groups(mod)[..i]
    {
      sum := sum + [Group(mod, i)];
    }
  }
}
