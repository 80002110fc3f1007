/** Fixed-width unsigned integers held as 32-bit limbs: the in-place operators and the integers they
    compute. The width is a parameter of the object; every result is reduced modulo 2^(32 * width). */
module BaseUint {
  import opened Bits
  import opened Digits
  import opened Limbs

  method CopyOf(s: array<nat>) returns (r: array<nat>)
    ensures fresh(r) && r[..] == s[..]
  {
    r := new nat[s.Length](i requires 0 <= i < s.Length reads s => s[i]);
  }

  class UInt {
    const pn: array<nat>

    ghost predicate Valid()
      reads pn
    {
      AreLimbs(pn[..])
    }

    ghost function Value(): nat
      reads pn
    {
      Val(pn[..])
    }

    ghost function Modulus(): nat {
      Pow(B, pn.Length)
    }

    constructor Zero(width: nat)
      ensures fresh(pn) && pn.Length == width && Valid() && Value() == 0
    {
      pn := new nat[width](i => 0);
      new;
      ValAllZero(pn[..]);
    }

    constructor Copy(b: UInt)
      requires b.Valid()
      ensures fresh(pn) && pn[..] == b.pn[..] && Valid() && Value() == b.Value()
    {
      var limbs := CopyOf(b.pn);
      pn := limbs;
    }

    method Clear()
      modifies pn
      ensures Valid() && Value() == 0 && forall j :: 0 <= j < pn.Length ==> pn[j] == 0
    {
      for i := 0 to pn.Length
        invariant forall j :: 0 <= j < i ==> pn[j] == 0
      {
        pn[i] := 0;
      }
      ValAllZero(pn[..]);
    }

    /** Assignment from a 64-bit number. */
    method Assign(b: nat)
      requires b < B * B && pn.Length >= 2
      modifies pn
      ensures Valid() && Value() == b
    {
      pn[0] := b % B;
      pn[1] := b / B;
      for i := 2 to pn.Length
        invariant pn[0] == b % B && pn[1] == b / B && forall j :: 2 <= j < i ==> pn[j] == 0
      {
        pn[i] := 0;
      }
      TwoLimbs(pn[..]);
      ValAllZero(pn[2..]);
    }

    method Low64() returns (r: nat)
      requires Valid() && pn.Length >= 2
      ensures r == Value() % (B * B)
    {
      hide Pow, Or;
      TwoTo32();
      OrDisjoint(pn[0], pn[1], 32);
      r := Or(pn[0], pn[1] * B);
      TwoLimbs(pn[..]);
      RemainderOf(Value(), B * B, Val(pn[2..]), r);
    }

    /** One round of the left shift: the two pieces of limb i. */
    method ShiftLeftLimb(a: seq<nat>, k: nat, s: nat, i: nat)
      requires s < 32 && AreLimbs(a) && |a| == pn.Length && i < |a|
      requires forall j :: 0 <= j < |a| ==> pn[j] == ShlAt(a, k, s, i, j)
      modifies pn
      ensures forall j :: 0 <= j < |a| ==> pn[j] == ShlAt(a, k, s, i + 1, j)
    {
      hide Low, High, Or;
      PiecesFit(a[i], if i > 0 then a[i - 1] else 0, s);
      PiecesFit(0, a[i], s);
      OrZero(High(a[i], s));
      OrZero(Low(a[i], s));
      if i + k + 1 < pn.Length && s != 0 {
        pn[i + k + 1] := Or(pn[i + k + 1], High(a[i], s));
      }
      if i + k < pn.Length {
        pn[i + k] := Or(pn[i + k], Low(a[i], s));
      }
    }

    method ShiftLeft(shift: nat)
      requires Valid()
      modifies pn
      ensures Valid() && Modulus() > 0
      ensures Value() == (old(Value()) * Pow(2, shift)) % Modulus()
    {
      hide Low, High, Or, Val, Pow, ShlAt;
      var limbs := CopyOf(pn);
      var a := limbs[..];
      Clear();
      var k, s := shift / 32, shift % 32;
      ShlStart(a, k, s);
      for i := 0 to pn.Length
        invariant forall j :: 0 <= j < |a| ==> pn[j] == ShlAt(a, k, s, i, j)
      {
        ShiftLeftLimb(a, k, s, i);
      }
      ShlLimbs(a, k, s, pn[..]);
      ShlVal(a, k, s, pn[..]);
    }

    /** One round of the right shift: the two pieces of limb i. */
    method ShiftRightLimb(a: seq<nat>, k: nat, s: nat, i: nat)
      requires s < 32 && AreLimbs(a) && |a| == pn.Length && i < |a|
      requires forall j :: 0 <= j < |a| ==> pn[j] == ShrAt(a, k, s, i, j)
      modifies pn
      ensures forall j :: 0 <= j < |a| ==> pn[j] == ShrAt(a, k, s, i + 1, j)
    {
      hide Low, Above, Or;
      DownPieces(if i > 0 then a[i - 1] else 0, a[i], s);
      OrZero(Low(a[i], 32 - s));
      OrZero(Above(a[i], s));
      if i - k - 1 >= 0 && s != 0 {
        pn[i - k - 1] := Or(pn[i - k - 1], Low(a[i], 32 - s));
      }
      if i - k >= 0 {
        pn[i - k] := Or(pn[i - k], Above(a[i], s));
      }
    }

    method ShiftRight(shift: nat)
      requires Valid()
      modifies pn
      ensures Valid() && Pow(2, shift) > 0
      ensures Value() == old(Value()) / Pow(2, shift)
    {
      hide Low, Above, Or, Val, Pow, ShrAt;
      var limbs := CopyOf(pn);
      var a := limbs[..];
      Clear();
      var k, s := shift / 32, shift % 32;
      ShrStart(a, k, s);
      for i := 0 to pn.Length
        invariant forall j :: 0 <= j < |a| ==> pn[j] == ShrAt(a, k, s, i, j)
      {
        ShiftRightLimb(a, k, s, i);
      }
      ShrLimbs(a, k, s, pn[..]);
      ShrVal(a, k, s, pn[..]);
    }

    method AddAssign(b: UInt)
      requires Valid() && b.Valid() && b.pn.Length == pn.Length
      modifies pn
      ensures Valid() && Modulus() > 0
      ensures Value() == (old(Value()) + old(b.Value())) % Modulus()
    {
      hide Val, Pow;
      ghost var a0, b0 := pn[..], b.pn[..];
      var carry: nat := 0;
      AddStart(a0, b0);
      for i := 0 to pn.Length
        invariant AreLimbs(pn[..]) && carry <= 1
        invariant forall j :: i <= j < pn.Length ==> pn[j] == a0[j] && b.pn[j] == b0[j]
        invariant Val(pn[..i]) + carry * Pow(B, i) == Val(a0[..i]) + Val(b0[..i])
      {
        ghost var before := pn[..];
        var n: nat := carry + pn[i] + b.pn[i];
        pn[i] := n % B;
        AddStep(before, a0, b0, i, carry);
        assert pn[..] == before[i := n % B];
        assert pn[..i] == before[..i] && pn[..i + 1] == before[i := n % B][..i + 1];
        carry := n / B;
      }
      assert pn[..pn.Length] == pn[..] && a0[..pn.Length] == a0 && b0[..pn.Length] == b0;
      Reduced(pn[..], carry, a0, b0);
    }

    /** The one's complement. */
    method Complement() returns (r: UInt)
      requires Valid()
      ensures fresh(r) && fresh(r.pn) && r.pn.Length == pn.Length && r.Valid()
      ensures r.Value() == Modulus() - 1 - Value()
    {
      r := new UInt.Zero(pn.Length);
      for i := 0 to pn.Length
        invariant pn[..] == old(pn[..])
        invariant forall j :: 0 <= j < i ==> r.pn[j] == B - 1 - pn[j]
      {
        r.pn[i] := B - 1 - pn[i];
      }
      ComplementVal(pn[..], r.pn[..]);
    }

    method Increment()
      requires Valid()
      modifies pn
      ensures Valid() && Modulus() > 0 && Value() == (old(Value()) + 1) % Modulus()
    {
      hide Val, Pow;
      ghost var a0 := pn[..];
      var i: nat := 0;
      while i < pn.Length
        invariant i <= pn.Length
        invariant forall j :: 0 <= j < i ==> a0[j] == B - 1 && pn[j] == 0
        invariant forall j :: i <= j < pn.Length ==> pn[j] == a0[j]
      {
        pn[i] := (pn[i] + 1) % B;
        if pn[i] != 0 {
          break;
        }
        i := i + 1;
      }
      IncrementVal(a0, pn[..], i);
    }

    method Negate() returns (r: UInt)
      requires Valid()
      ensures fresh(r) && fresh(r.pn) && r.pn.Length == pn.Length && r.Valid()
      ensures Modulus() > 0 && r.Value() == (Modulus() - Value()) % Modulus()
    {
      hide Val, Pow;
      r := Complement();
      r.Increment();
    }

    /** Subtraction, wrapping below zero; the operand may be the object itself. */
    method SubAssign(b: UInt)
      requires Valid() && b.Valid() && b.pn.Length == pn.Length
      modifies pn
      ensures Valid()
      ensures Value() == old(Value()) - old(b.Value()) + (if old(Value()) >= old(b.Value()) then 0 else Modulus())
    {
      hide Val, Pow;
      ValBound(pn[..]);
      ValBound(b.pn[..]);
      ghost var v, w := Value(), b.Value();
      var minus := b.Negate();
      AddAssign(minus);
      WrapSub(v, w, Modulus());
    }

    method MulSmall(b32: nat)
      requires Valid() && b32 < B
      modifies pn
      ensures Valid() && Modulus() > 0
      ensures Value() == (old(Value()) * b32) % Modulus()
    {
      hide Val, Pow, ScaleDone;
      ghost var a0 := pn[..];
      var carry: nat := 0;
      ScaleStart(a0, b32);
      for i := 0 to pn.Length
        invariant AreLimbs(pn[..]) && carry < B
        invariant forall j :: i <= j < pn.Length ==> pn[j] == a0[j]
        invariant ScaleDone(a0, pn[..], b32, i, carry)
      {
        ghost var before := pn[..];
        var n: nat := carry + b32 * pn[i];
        FitsDouble(carry, 0, b32, pn[i]);
        var low: nat := n % B;
        pn[i] := low;
        ScaleStep(a0, before, b32, i, carry);
        assert pn[..] == before[i := low];
        carry := n / B;
      }
      ScaleEnd(a0, pn[..], b32, carry);
    }

    ghost predicate AllZero()
      reads pn
    {
      forall k :: 0 <= k < pn.Length ==> pn[k] == 0
    }

    /** One row of the schoolbook product: limb j of the multiplicand times all of b, added in place.
        What is carried out of the top limb is lost. When b is this very number, it is zero by now. */
    method MulRow(x: nat, j: nat, b: UInt) returns (ghost lost: nat)
      requires Valid() && b.Valid() && b.pn.Length == pn.Length && x < B && j < pn.Length
      requires b.pn == pn ==> AllZero()
      modifies pn
      ensures Valid() && b.Valid() && (b.pn == pn ==> AllZero())
      ensures b.pn != pn ==> Value() + lost * Modulus() == old(Value()) + Row(Pow(B, j), x, b.Value())
    {
      hide Val, Pow, Row, RowDone;
      ghost var p0 := pn[..];
      var carry: nat := 0;
      var i: nat := 0;
      RowStart(p0, b.pn[..], x, j);
      while i + j < pn.Length
        invariant i + j <= pn.Length && AreLimbs(pn[..]) && carry < B
        invariant forall k :: i + j <= k < pn.Length ==> pn[k] == p0[k]
        invariant b.pn == pn ==> AllZero() && carry == 0
        invariant b.pn != pn ==> RowDone(p0, pn[..], b.pn[..], x, j, i, carry)
      {
        ghost var before := pn[..];
        FitsDouble(carry, pn[i + j], x, b.pn[i]);
        var n: nat := carry + pn[i + j] + x * b.pn[i];
        var low: nat := n % B;
        pn[i + j] := low;
        if b.pn != pn {
          RowStep(p0, before, b.pn[..], x, j, i, carry);
          assert pn[..] == before[i + j := low];
        }
        carry := n / B;
        i := i + 1;
      }
      lost := carry + x * Val(b.pn[i..]);
      if b.pn != pn {
        RowEnd(p0, pn[..], b.pn[..], x, j, i, carry);
      }
    }

    /** The product modulo the width. Multiplying a number in place by itself is the exception: the
        operand has been zeroed by the time it is read, and the result is zero. */
    method MulAssign(b: UInt)
      requires Valid() && b.Valid() && b.pn.Length == pn.Length
      modifies pn
      ensures Valid() && Modulus() > 0
      ensures b.pn != pn ==> Value() == (old(Value()) * b.Value()) % Modulus()
      ensures b.pn == pn ==> Value() == 0
    {
      hide Val, Pow, Row;
      var limbs := CopyOf(pn);
      var a := limbs[..];
      Clear();
      ghost var lost: nat := 0;
      ScaleStart(a, 0);
      for j := 0 to pn.Length
        invariant Valid() && b.Valid() && (b.pn == pn ==> AllZero())
        invariant b.pn != pn ==> b.pn[..] == old(b.pn[..])
        invariant b.pn != pn ==> Value() + lost * Modulus() == Val(a[..j]) * b.Value()
      {
        ghost var more := MulRow(a[j], j, b);
        ProductStep(a, j, b.Value(), lost, more, Modulus());
        lost := lost + more;
      }
      assert a[..pn.Length] == a;
      ValBound(pn[..]);
      if b.pn != pn {
        RemainderOf(Val(a) * b.Value(), Modulus(), lost, Value());
      } else {
        ValAllZero(pn[..]);
      }
    }

    method CompareTo(b: UInt) returns (order: int)
      requires Valid() && b.Valid() && b.pn.Length == pn.Length
      ensures order == if Value() < b.Value() then -1 else if Value() > b.Value() then 1 else 0
    {
      hide Val;
      var i := pn.Length;
      while i > 0
        invariant 0 <= i <= pn.Length && pn[i..] == b.pn[i..]
      {
        i := i - 1;
        if pn[i] < b.pn[i] {
          ValLess(pn[..], b.pn[..], i);
          return -1;
        }
        if pn[i] > b.pn[i] {
          ValLess(b.pn[..], pn[..], i);
          return 1;
        }
      }
      assert pn[..] == pn[0..] && b.pn[..] == b.pn[0..];
      return 0;
    }

    /** Sets the quotient's bit number shift, where it and everything below is zero. */
    method SetQuotientBit(shift: nat)
      requires Valid() && ClearThrough(pn[..], shift)
      modifies pn
      ensures Valid() && Value() == old(Value()) + Pow(2, shift)
      ensures pn[..] == old(pn[..])[shift / 32 := old(pn[shift / 32]) + Pow(2, shift % 32)]
    {
      hide Val, Pow, Or, BitsClear;
      ghost var q := pn[..];
      var j, r := shift / 32, shift % 32;
      BitsClearWidth(q, j, r);
      SetBit(q, j, r);
      pn[j] := Or(pn[j], Pow(2, r));
      assert pn[..] == q[j := Or(q[j], Pow(2, r))];
    }

    /** One round of the long division: if the shifted divisor fits the remainder, subtract it and set
        the quotient's bit; then shift the divisor back by one. */
    method DivRound(num: UInt, div: UInt, shift: nat, ghost n0: nat, ghost d: nat)
      requires Valid() && num.Valid() && div.Valid() && pn.Length == num.pn.Length == div.pn.Length
      requires pn != num.pn && pn != div.pn && num.pn != div.pn
      requires div.Value() == Scaled(d, shift) && Dividing(n0, d, Value(), num.Value(), shift + 1)
      requires ClearThrough(pn[..], shift)
      modifies pn, num.pn, div.pn
      ensures Valid() && num.Valid() && div.Valid() && Dividing(n0, d, Value(), num.Value(), shift)
      ensures shift > 0 ==> div.Value() == Scaled(d, shift - 1) && ClearThrough(pn[..], shift - 1)
    {
      hide Val, Pow, ClearThrough, Dividing, Scaled;
      ghost var q, rest := pn[..], num.Value();
      RoundDone(n0, d, Val(q), rest, shift);
      ClearThroughWidth(q, shift);
      var order := num.CompareTo(div);
      if order >= 0 {
        num.SubAssign(div);
        SetQuotientBit(shift);
      }
      ClearNext(q, shift, pn[..]);
      div.ShiftRight(1);
      HalfOf(d, shift);
    }

    /** Quotient of the division; dividing by zero is refused, leaving this number zero. */
    method DivAssign(b: UInt) returns (ok: bool)
      requires Valid() && b.Valid() && b.pn.Length == pn.Length
      modifies pn
      ensures Valid() && (ok <==> old(b.Value()) != 0)
      ensures ok ==> Value() == old(Value()) / old(b.Value())
      ensures !ok ==> Value() == 0
    {
      hide Val, Pow, ClearThrough, Dividing, Scaled;
      ghost var n0, d := Value(), b.Value();
      var div := new UInt.Copy(b);
      var num := new UInt.Copy(this);
      Clear();
      var numBits := num.Bits();
      var divBits := div.Bits();
      if divBits == 0 {
        return false;
      }
      ok := true;
      if divBits > numBits {
        SmallerByBits(n0, numBits, d, divBits);
        return;
      }
      var shift: int := numBits - divBits;
      Aligned(n0, numBits, d, divBits, pn.Length);
      div.ShiftLeft(shift);
      ZeroClear(pn[..], shift);
      while shift >= 0
        invariant -1 <= shift < 32 * pn.Length && Valid() && num.Valid() && div.Valid()
        invariant Dividing(n0, d, Value(), num.Value(), shift + 1)
        invariant shift >= 0 ==> div.Value() == Scaled(d, shift) && ClearThrough(pn[..], shift)
      {
        DivRound(num, div, shift, n0, d);
        shift := shift - 1;
      }
      Divided(n0, d, Value(), num.Value());
    }

    /** The number of bits up to the highest one set. */
    method Bits() returns (bits: nat)
      requires Valid()
      ensures bits <= 32 * pn.Length && (bits == 0 <==> Value() == 0)
      ensures bits > 0 ==> Pow(2, bits - 1) <= Value() < Pow(2, bits)
    {
      hide Val, Pow;
      var pos: nat := pn.Length;
      while pos > 0
        invariant pos <= pn.Length && forall j :: pos <= j < pn.Length ==> pn[j] == 0
      {
        pos := pos - 1;
        if pn[pos] != 0 {
          var nbits := HighestBit(pn[pos]);
          TopBit(pn[..], pos, nbits);
          return 32 * pos + nbits + 1;
        }
      }
      ValAllZero(pn[..]);
      return 0;
    }
  }

  lemma TwoLimbs(s: seq<nat>)
    requires |s| >= 2
    ensures Val(s) == s[0] + B * s[1] + (B * B) * Val(s[2..])
  {
    assert s[1..][1..] == s[2..];
  }

  lemma OrZero(x: nat)
    ensures Or(0, x) == x == Or(x, 0)
  {
  }

  lemma ShlStart(a: seq<nat>, k: nat, s: nat)
    requires s <= 32
    ensures forall j :: 0 <= j < |a| ==> ShlAt(a, k, s, 0, j) == 0
  {
  }

  lemma ShrStart(a: seq<nat>, k: nat, s: nat)
    requires s <= 32
    ensures forall j :: 0 <= j < |a| ==> ShrAt(a, k, s, 0, j) == 0
  {
  }

  lemma AddStart(a: seq<nat>, b: seq<nat>)
    ensures Val(a[..0]) == Val(b[..0]) == 0
  {
  }

  /** One column of an addition. */
  lemma AddStep(r: seq<nat>, a: seq<nat>, b: seq<nat>, i: nat, carry: nat)
    requires |r| == |a| == |b| && i < |r| && AreLimbs(r) && r[i] == a[i]
    requires Val(r[..i]) + carry * Pow(B, i) == Val(a[..i]) + Val(b[..i])
    ensures var n := carry + a[i] + b[i];
      Val(r[i := n % B][..i + 1]) + n / B * Pow(B, i + 1) == Val(a[..i + 1]) + Val(b[..i + 1])
  {
    hide Val, Pow;
    var n := carry + a[i] + b[i];
    ValSnoc(a, i);
    ValSnoc(b, i);
    var r' := r[i := n % B];
    ValSnoc(r', i);
    assert r'[..i] == r[..i];
    PowStep(B, i);
    Column(n, Pow(B, i));
    SpreadSum(Pow(B, i), carry, a[i], b[i]);
  }

  lemma SpreadSum(p: nat, x: nat, y: nat, z: nat)
    ensures p * (x + y + z) == x * p + p * y + p * z
  {
  }

  lemma Reduced(r: seq<nat>, carry: nat, a: seq<nat>, b: seq<nat>)
    requires AreLimbs(r) && Val(r) + carry * Pow(B, |r|) == Val(a) + Val(b)
    ensures Pow(B, |r|) > 0 && Val(r) == (Val(a) + Val(b)) % Pow(B, |r|)
  {
    hide Val, Pow;
    ValBound(r);
    RemainderOf(Val(a) + Val(b), Pow(B, |r|), carry, Val(r));
  }

  lemma {:induction false} ComplementVal(s: seq<nat>, r: seq<nat>)
    requires AreLimbs(s) && |r| == |s| && forall j :: 0 <= j < |s| ==> r[j] == B - 1 - s[j]
    ensures AreLimbs(r) && Val(r) == Pow(B, |s|) - 1 - Val(s)
    decreases |s|
  {
    if s != [] {
      ComplementVal(s[1..], r[1..]);
    }
  }

  lemma {:induction false} AllOnes(s: seq<nat>)
    requires forall j :: 0 <= j < |s| ==> s[j] == B - 1
    ensures Val(s) == Pow(B, |s|) - 1
    decreases |s|
  {
    if s != [] {
      AllOnes(s[1..]);
    }
  }

  /** Limbs below i have wrapped to zero, limb i (if there is one) has gone up by one. */
  lemma IncrementVal(a: seq<nat>, r: seq<nat>, i: nat)
    requires AreLimbs(a) && |r| == |a| && i <= |a|
    requires forall j :: 0 <= j < i ==> a[j] == B - 1 && r[j] == 0
    requires i < |a| ==> r[i] == (a[i] + 1) % B && r[i] != 0
    requires forall j :: i < j < |a| ==> r[j] == a[j]
    ensures AreLimbs(r) && Pow(B, |a|) > 0 && Val(r) == (Val(a) + 1) % Pow(B, |a|)
  {
    hide Val, Pow;
    AllOnes(a[..i]);
    ValAllZero(r[..i]);
    ValBound(a);
    ValBound(r);
    if i < |a| {
      assert a[i] != B - 1;
      IncrementedLimb(a, r, i);
      RemainderOf(Val(a) + 1, Pow(B, |a|), 0, Val(r));
    } else {
      assert a[..i] == a && r[..i] == r;
      RemainderOf(Val(a) + 1, Pow(B, |a|), 1, 0);
    }
  }

  lemma IncrementedLimb(a: seq<nat>, r: seq<nat>, i: nat)
    requires i < |a| == |r| && r[i] == a[i] + 1 && a[i + 1..] == r[i + 1..]
    requires Val(a[..i]) == Pow(B, i) - 1 && Val(r[..i]) == 0
    ensures Val(r) == Val(a) + 1
  {
    hide Val, Pow;
    ValSplit(a, i);
    ValSplit(r, i);
    assert a[i..][1..] == a[i + 1..] && r[i..][1..] == r[i + 1..];
    LimbUp(a[i..], r[i..]);
    OneMore(Pow(B, i), Val(a[i..]));
  }

  lemma OneMore(p: nat, v: nat)
    ensures p * (v + 1) == p * v + p
  {
  }

  lemma LimbUp(a: seq<nat>, r: seq<nat>)
    requires |r| == |a| > 0 && r[0] == a[0] + 1 && a[1..] == r[1..]
    ensures Val(r) == Val(a) + 1
  {
  }

  lemma WrapSub(v: nat, w: nat, m: nat)
    requires v < m && w < m
    ensures (v + (m - w) % m) % m == v - w + (if v >= w then 0 else m)
  {
    if w == 0 {
      RemainderOf(m, m, 1, 0);
      RemainderOf(v, m, 0, v);
    } else {
      RemainderOf(m - w, m, 0, m - w);
      RemainderOf(v + m - w, m, if v >= w then 1 else 0, v - w + (if v >= w then 0 else m));
    }
  }

  /** The first i limbs have been multiplied. */
  ghost predicate ScaleDone(a: seq<nat>, r: seq<nat>, b: nat, i: nat, carry: nat) {
    |r| == |a| && i <= |a| && Val(r[..i]) + carry * Pow(B, i) == b * Val(a[..i])
  }

  lemma ScaleStart(a: seq<nat>, b: nat)
    ensures ScaleDone(a, a, b, 0, 0) && Val(a[..0]) == 0
  {
  }

  lemma ScaleEnd(a: seq<nat>, r: seq<nat>, b: nat, carry: nat)
    requires ScaleDone(a, r, b, |a|, carry) && AreLimbs(r)
    ensures Pow(B, |a|) > 0 && Val(r) == (Val(a) * b) % Pow(B, |a|)
  {
    hide Val, Pow;
    assert r[..|a|] == r && a[..|a|] == a;
    ValBound(r);
    RemainderOf(Val(a) * b, Pow(B, |a|), carry, Val(r));
  }

  /** A product of limbs with two limbs added still fits 64 bits, and its carry fits a limb. */
  lemma FitsDouble(carry: nat, x: nat, y: nat, z: nat)
    requires carry < B && x < B && y < B && z < B
    ensures carry + x + y * z < B * B
    ensures (carry + x + y * z) / B < B
  {
    MulMono(y, B - 1, z);
    assert y * z <= (B - 1) * (B - 1);
  }

  lemma ScaleStep(a: seq<nat>, r: seq<nat>, b: nat, i: nat, carry: nat)
    requires ScaleDone(a, r, b, i, carry) && i < |r| && r[i] == a[i]
    ensures var n := carry + b * a[i]; ScaleDone(a, r[i := n % B], b, i + 1, n / B)
  {
    hide Val, Pow;
    var n := carry + b * a[i];
    ValSnoc(a, i);
    var r' := r[i := n % B];
    ValSnoc(r', i);
    assert r'[..i] == r[..i];
    PowStep(B, i);
    Column(n, Pow(B, i));
    SpreadProduct(Pow(B, i), carry, b, a[i], Val(a[..i]));
  }

  lemma SpreadProduct(p: nat, carry: nat, b: nat, x: nat, v: nat)
    ensures p * (carry + b * x) + b * v == carry * p + b * (v + p * x)
  {
    assert p * (carry + b * x) == p * carry + p * (b * x);
    assert p * (b * x) == b * (p * x);
  }

  /** What a row adds: limb x, at the place worth p, times v. */
  function Row(p: nat, x: nat, v: nat): nat {
    p * x * v
  }

  /** The columns 0..i of row j have been added. */
  ghost predicate RowDone(p0: seq<nat>, p: seq<nat>, b: seq<nat>, x: nat, j: nat, i: nat, carry: nat) {
    i <= |b| && i + j <= |p| && |p| == |p0| &&
    Val(p[..i + j]) + carry * Pow(B, i + j) == Val(p0[..i + j]) + Row(Pow(B, j), x, Val(b[..i]))
  }

  lemma RowStart(p0: seq<nat>, b: seq<nat>, x: nat, j: nat)
    requires j <= |p0|
    ensures RowDone(p0, p0, b, x, j, 0, 0)
  {
    ScaleStart(b, 0);
  }

  lemma RowStep(p0: seq<nat>, p: seq<nat>, b: seq<nat>, x: nat, j: nat, i: nat, carry: nat)
    requires RowDone(p0, p, b, x, j, i, carry) && i + j < |p| && i < |b| && p[i + j] == p0[i + j]
    ensures var n := carry + p[i + j] + x * b[i]; RowDone(p0, p[i + j := n % B], b, x, j, i + 1, n / B)
  {
    var n := carry + p[i + j] + x * b[i];
    var p' := p[i + j := n % B];
    hide Val, Pow, Row;
    ValSnoc(p0, i + j);
    ValSnoc(b, i);
    ValSnoc(p', i + j);
    assert p'[..i + j] == p[..i + j];
    PowStep(B, i + j);
    PowAdd(B, j, i);
    assert i + 1 + j == i + j + 1;
    RowNumbers(Val(p[..i + j]), Val(p0[..i + j]), carry, p[i + j], x, b[i], Pow(B, j), Pow(B, i), Val(b[..i]));
  }

  lemma RowNumbers(v: nat, v0: nat, carry: nat, y: nat, x: nat, z: nat, pj: nat, pi: nat, w: nat)
    requires v + carry * (pj * pi) == v0 + Row(pj, x, w)
    ensures var p, n := pj * pi, carry + y + x * z;
      v + p * (n % B) + n / B * (B * p) == v0 + p * y + Row(pj, x, w + pi * z)
  {
    Column(carry + y + x * z, pj * pi);
    RowSpread(pj * pi, carry, y, x, z, pj, pi, w);
  }

  lemma RowSpread(p: nat, carry: nat, y: nat, x: nat, z: nat, pj: nat, pi: nat, v: nat)
    requires p == pj * pi
    ensures p * (carry + y + x * z) + pj * x * v == carry * p + p * y + pj * x * (v + pi * z)
  {
    assert p * (carry + y + x * z) == p * carry + p * y + p * (x * z);
    calc {
      pj * x * (v + pi * z);
      pj * x * v + pj * x * (pi * z);
      { assert pj * x * (pi * z) == (pj * pi) * (x * z); }
      pj * x * v + p * (x * z);
    }
  }

  lemma RowComplete(p0: seq<nat>, p: seq<nat>, b: seq<nat>, x: nat, j: nat, i: nat, carry: nat)
    requires RowDone(p0, p, b, x, j, i, carry) && i + j == |p|
    ensures Val(p) + carry * Pow(B, |p|) == Val(p0) + Row(Pow(B, j), x, Val(b[..i]))
  {
    hide Val, Pow, Row;
    assert p[..|p|] == p && p0[..|p|] == p0;
  }

  lemma RowEnd(p0: seq<nat>, p: seq<nat>, b: seq<nat>, x: nat, j: nat, i: nat, carry: nat)
    requires i + j == |p| == |b| && RowDone(p0, p, b, x, j, i, carry)
    ensures Val(p) + (carry + x * Val(b[i..])) * Pow(B, |p|) == Val(p0) + Row(Pow(B, j), x, Val(b))
  {
    hide Val, Pow, Row, RowDone;
    RowComplete(p0, p, b, x, j, i, carry);
    ValSplit(b, i);
    PowAdd(B, j, i);
    EndSpread(Val(p), Val(p0), Pow(B, |p|), Pow(B, j), Pow(B, i), x, Val(b), Val(b[..i]), Val(b[i..]), carry);
  }

  lemma EndSpread(v: nat, v0: nat, p: nat, pj: nat, pi: nat, x: nat, w: nat, lo: nat, hi: nat, carry: nat)
    requires p == pj * pi && w == lo + pi * hi && v + carry * p == v0 + Row(pj, x, lo)
    ensures v + (carry + x * hi) * p == v0 + Row(pj, x, w)
  {
    calc {
      pj * x * w;
      pj * x * (lo + pi * hi);
      pj * x * lo + pj * x * (pi * hi);
      { assert pj * x * (pi * hi) == x * hi * (pj * pi); }
      pj * x * lo + x * hi * p;
    }
    assert (carry + x * hi) * p == carry * p + x * hi * p;
  }

  lemma ProductStep(a: seq<nat>, j: nat, v: nat, lost: nat, more: nat, m: nat)
    requires j < |a|
    ensures Val(a[..j + 1]) * v == Val(a[..j]) * v + Row(Pow(B, j), a[j], v)
    ensures (lost + more) * m == lost * m + more * m
  {
    ValSnoc(a, j);
    hide Val, Pow;
    assert (Val(a[..j]) + Pow(B, j) * a[j]) * v == Val(a[..j]) * v + Pow(B, j) * a[j] * v;
  }

  predicate BitSet(x: nat, n: nat) {
    PowPositive(2, n);
    x / Pow(2, n) % 2 == 1
  }

  /** The position of the highest bit set in a limb. */
  method HighestBit(x: nat) returns (n: nat)
    requires 0 < x < B
    ensures n < 32 && Pow(2, n) <= x < Pow(2, n + 1)
  {
    hide Pow, BitSet;
    TwoTo32();
    n := 31;
    while n > 0
      invariant n < 32 && x < Pow(2, n + 1)
    {
      BitSetMeans(x, n);
      if BitSet(x, n) {
        return;
      }
      n := n - 1;
    }
  }

  lemma BitSetMeans(x: nat, n: nat)
    requires x < Pow(2, n + 1)
    ensures BitSet(x, n) <==> x >= Pow(2, n)
  {
    var p := Pow(2, n);
    PowPositive(2, n);
    if x >= p {
      RemainderOf(x, p, 1, x - p);
    } else {
      RemainderOf(x, p, 0, x);
    }
  }

  lemma TopBit(a: seq<nat>, pos: nat, n: nat)
    requires AreLimbs(a) && pos < |a| && (forall j :: pos < j < |a| ==> a[j] == 0)
    requires n < 32 && Pow(2, n) <= a[pos] < Pow(2, n + 1)
    ensures Pow(2, 32 * pos + n) <= Val(a) < Pow(2, 32 * pos + n + 1)
    ensures Val(a) > 0
  {
    hide Val, Pow;
    TopLimb(a, pos);
    LimbPow(pos);
    PowAdd(2, 32 * pos, n);
    PowAdd(2, 32 * pos, n + 1);
    PowPositive(2, 32 * pos + n);
    MulMono(Pow(2, n), a[pos], Pow(B, pos));
    MulMono(a[pos] + 1, Pow(2, n + 1), Pow(B, pos));
  }

  // ---------------------------------------------------------------------
  // Long division

  /** d shifted up by t bits. */
  function Scaled(d: nat, t: nat): nat {
    d * Pow(2, t)
  }

  /** q quotient so far, the remainder below d * 2^t. */
  ghost predicate Dividing(n0: nat, d: nat, q: nat, rest: nat, t: nat) {
    n0 == q * d + rest && rest < Scaled(d, t)
  }

  /** Bits 0 to t are zero. */
  ghost predicate ClearThrough(q: seq<nat>, t: nat) {
    BitsClear(q, t / 32, t % 32)
  }

  lemma BitsClearWidth(q: seq<nat>, j: nat, r: nat)
    requires BitsClear(q, j, r)
    ensures j < |q|
  {
  }

  lemma ClearThroughWidth(q: seq<nat>, t: nat)
    requires ClearThrough(q, t)
    ensures t / 32 < |q|
  {
  }

  lemma ZeroClear(q: seq<nat>, t: nat)
    requires t / 32 < |q| && forall i :: 0 <= i < |q| ==> q[i] == 0
    ensures ClearThrough(q, t)
  {
    assert IsTimes(q[t / 32], 0, t % 32);
  }

  lemma ClearNext(q: seq<nat>, t: nat, q': seq<nat>)
    requires ClearThrough(q, t) && t / 32 < |q| == |q'|
    requires q' == q || q' == q[t / 32 := q[t / 32] + Pow(2, t % 32)]
    ensures t > 0 ==> ClearThrough(q', t - 1)
  {
    hide BitsClear, Pow;
    ClearBelow(q, t / 32, t % 32, q');
  }

  lemma RoundDone(n0: nat, d: nat, q: nat, rest: nat, t: nat)
    requires Dividing(n0, d, q, rest, t + 1)
    ensures rest >= Scaled(d, t) ==> Dividing(n0, d, q + Pow(2, t), rest - Scaled(d, t), t)
    ensures rest < Scaled(d, t) ==> Dividing(n0, d, q, rest, t)
  {
    var p := Pow(2, t);
    assert d * (2 * p) == d * p + d * p;
    assert (q + p) * d == q * d + d * p;
  }

  lemma HalfOf(d: nat, t: nat)
    ensures Pow(2, 1) == 2
    ensures t > 0 ==> Scaled(d, t) / 2 == Scaled(d, t - 1)
  {
    if t > 0 {
      assert d * Pow(2, t) == 2 * (d * Pow(2, t - 1));
    }
  }

  lemma SmallerByBits(n: nat, nb: nat, d: nat, db: nat)
    requires nb < db && d >= Pow(2, db - 1) && (if nb == 0 then n == 0 else n < Pow(2, nb))
    ensures d > 0 && n / d == 0
  {
    hide Pow;
    PowPositive(2, db - 1);
    PowMono(2, nb, db - 1);
    RemainderOf(n, d, 0, n);
  }

  lemma Aligned(n: nat, nb: nat, d: nat, db: nat, width: nat)
    requires 0 < db <= nb <= 32 * width && n < Pow(2, nb) && Pow(2, db - 1) <= d < Pow(2, db)
    ensures Pow(B, width) > 0 && (d * Pow(2, nb - db)) % Pow(B, width) == Scaled(d, nb - db)
    ensures Dividing(n, d, 0, n, nb - db + 1)
  {
    hide Pow;
    PowPositive(B, width);
    PowPositive(2, nb - db);
    PowAdd(2, db, nb - db);
    PowAdd(2, db - 1, nb - db + 1);
    MulMono(Pow(2, db - 1), d, Pow(2, nb - db + 1));
    MulMono(d, Pow(2, db), Pow(2, nb - db));
    ScaleStrict(d, Pow(2, db), Pow(2, nb - db));
    PowMono(2, nb, 32 * width);
    LimbPow(width);
    RemainderOf(d * Pow(2, nb - db), Pow(B, width), 0, d * Pow(2, nb - db));
  }

  lemma Divided(n0: nat, d: nat, q: nat, rest: nat)
    requires Dividing(n0, d, q, rest, 0)
    ensures d > 0 && q == n0 / d
  {
    RemainderOf(n0, d, q, rest);
  }
}
