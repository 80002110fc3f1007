/** Difficulty targets in compact form, and the work a block's target stands for. */
module Difficulty {
  import opened BaseUint
  import opened Digits
  import opened Limbs

  const WIDTH: nat := 8

  // The 32-bit compact form: a byte of exponent, a sign bit, 23 bits of mantissa.

  function Exponent(c: nat): nat {
    c / 0x100_0000
  }

  function Mantissa(c: nat): nat {
    c % 0x80_0000
  }

  predicate SignBit(c: nat) {
    c / 0x80_0000 % 2 == 1
  }

  function Bytes(n: nat): nat {
    Pow(256, n)
  }

  /** The number a compact form stands for: mantissa * 256^(exponent - 3), rounded down. */
  function Meaning(mantissa: nat, exponent: nat): nat {
    PowPositive(256, 3);
    mantissa * Bytes(exponent) / Bytes(3)
  }

  function CompactValue(c: nat): nat {
    Meaning(Mantissa(c), Exponent(c))
  }

  /** Compact forms in concrete terms. */
  lemma CompactVectors()
    ensures CompactValue(0x0112_3456) == 0x12 && CompactValue(0x0312_3456) == 0x12_3456
    ensures CompactValue(0x0412_3456) == 0x1234_5600 && CompactValue(0x0500_9234) == 0x9234_0000
    ensures SignBit(0x04923456) && !SignBit(0x0412_3456)
  {
    ByteFacts(0, 3);
    ByteFacts(0, 4);
    ByteFacts(0, 1);
    assert Bytes(4) == 0x1_0000_0000 && Bytes(5) == 0x100_0000_0000;
  }

  lemma ByteFacts(m: nat, n: nat)
    ensures Bytes(m) > 0 && Bytes(m + n) == Bytes(m) * Bytes(n) && Bytes(n) == Pow(2, 8 * n)
    ensures Bytes(0) == 1 && Bytes(1) == 256 && Bytes(2) == 0x1_0000 && Bytes(3) == 0x100_0000
    ensures Bytes(n + 1) == 256 * Bytes(n)
  {
    PowPositive(256, m);
    PowAdd(256, m, n);
    assert Pow(2, 8) == 256;
    PowMul(2, 8, n);
    assert Pow(256, 0) == 1;
    assert Pow(256, 1) == 256;
    assert Pow(256, 2) == 0x1_0000;
    assert Pow(256, 3) == 0x100_0000;
  }

  lemma MeaningSmall(m: nat, s: nat)
    requires s <= 3
    ensures Bytes(3 - s) > 0 && Meaning(m, s) == m / Bytes(3 - s)
  {
    hide Bytes;
    ByteFacts(3 - s, s);
    ByteFacts(s, 3 - s);
    var p, q := Bytes(s), Bytes(3 - s);
    DivModOf(m, q);
    CancelFactor(m / q, m % q, p, q);
    RemainderOf(m * p, Bytes(3), m / q, m % q * p);
  }

  lemma CancelFactor(h: nat, r: nat, p: nat, q: nat)
    requires r < q && p > 0
    ensures (h * q + r) * p == r * p + (p * q) * h && r * p < p * q
  {
    assert (h * q + r) * p == h * q * p + r * p;
    assert h * q * p == (p * q) * h;
    ScaleStrict(r, q, p);
  }

  lemma MeaningLarge(m: nat, s: nat)
    requires s >= 3
    ensures Meaning(m, s) == m * Bytes(s - 3)
  {
    hide Bytes;
    ByteFacts(3, s - 3);
    MulRotate(m, Bytes(3), Bytes(s - 3));
    RemainderOf(m * Bytes(s), Bytes(3), m * Bytes(s - 3), 0);
  }

  lemma WidthInBytes()
    ensures Pow(B, WIDTH) == Bytes(32)
  {
    hide Pow;
    LimbPow(WIDTH);
    ByteFacts(0, 32);
  }

  lemma BytesMono(m: nat, n: nat)
    requires m <= n
    ensures Bytes(m) <= Bytes(n)
  {
    PowMono(256, m, n);
  }

  /** A number of k bytes shifted up by t bytes outgrows 32 bytes exactly when k + t does. */
  lemma Outgrows(m: nat, k: nat, t: nat)
    requires k > 0 && Bytes(k - 1) <= m < Bytes(k)
    ensures m * Bytes(t) >= Bytes(32) <==> k + t > 32
  {
    hide Bytes;
    ByteFacts(t, 0);
    if k + t > 32 {
      ByteFacts(k - 1, t);
      MulMono(Bytes(k - 1), m, Bytes(t));
      BytesMono(32, k - 1 + t);
    } else {
      ByteFacts(k, t);
      ScaleStrict(m, Bytes(k), Bytes(t));
      BytesMono(k + t, 32);
    }
  }

  /** The overflow flag says that the number does not fit 256 bits. */
  lemma OverflowExact(m: nat, s: nat)
    requires 0 < m < 0x80_0000 && s >= 3
    ensures Meaning(m, s) >= Pow(B, WIDTH) <==> s > 34 || (m > 0xff && s > 33) || (m > 0xffff && s > 32)
  {
    hide Bytes, Pow;
    ByteFacts(0, 0);
    WidthInBytes();
    MeaningLarge(m, s);
    Outgrows(m, if m > 0xffff then 3 else if m > 0xff then 2 else 1, s - 3);
  }

  /** Decoding a compact target: the number it stands for, modulo 2^256, with the flags exact. */
  method SetCompact(target: UInt, c: nat) returns (negative: bool, overflow: bool)
    requires target.pn.Length == WIDTH && c < B
    modifies target.pn
    ensures target.Valid() && Pow(B, WIDTH) > 0
    ensures target.Value() == CompactValue(c) % Pow(B, WIDTH)
    ensures negative <==> CompactValue(c) != 0 && SignBit(c)
    ensures overflow <==> CompactValue(c) >= Pow(B, WIDTH)
  {
    hide Bytes, Pow, Meaning, Val;
    PowPositive(B, WIDTH);
    var size, word := Exponent(c), Mantissa(c);
    ghost var whole := word;
    if size <= 3 {
      MeaningSmall(word, size);
      word := word / Bytes(3 - size);
      target.Assign(word);
      SmallFits(whole, word, 3 - size);
      RemainderOf(word, Pow(B, WIDTH), 0, word);
    } else {
      MeaningLarge(word, size);
      target.Assign(word);
      target.ShiftLeft(8 * (size - 3));
      ByteFacts(size - 3, size - 3);
      ZeroTimes(word, Bytes(size - 3));
      if word > 0 {
        OverflowExact(word, size);
      }
    }
    negative := word != 0 && SignBit(c);
    overflow := word != 0 && (size > 34 || (word > 0xff && size > 33) || (word > 0xffff && size > 32));
  }

  lemma SmallFits(whole: nat, word: nat, t: nat)
    requires Bytes(t) > 0 && whole < 0x80_0000 && word == whole / Bytes(t)
    ensures word <= whole && word < Pow(B, WIDTH)
  {
    hide Bytes, Pow;
    DivModOf(whole, Bytes(t));
    MulMono(1, Bytes(t), whole / Bytes(t));
    WidthInBytes();
    BytesMono(3, 32);
    ByteFacts(0, 0);
  }

  lemma ZeroTimes(m: nat, p: nat)
    requires p > 0
    ensures m * p == 0 <==> m == 0
  {
    MulMono(1, p, m);
  }

  // ---------------------------------------------------------------------
  // Encoding

  /** v takes n bytes. */
  predicate TakesBytes(v: nat, n: nat) {
    if n == 0 then v == 0 else Bytes(n - 1) <= v < Bytes(n)
  }

  lemma BitsToBytes(v: nat, bits: nat)
    requires if bits == 0 then v == 0 else Pow(2, bits - 1) <= v < Pow(2, bits)
    ensures TakesBytes(v, (bits + 7) / 8)
  {
    hide Pow, Bytes;
    var n := (bits + 7) / 8;
    if bits > 0 {
      ByteFacts(0, n - 1);
      ByteFacts(0, n);
      PowMono(2, 8 * (n - 1), bits - 1);
      PowMono(2, bits, 8 * n);
    }
  }

  /** The top three of v's n bytes, filled up with zeros when there are fewer. */
  function TopThree(v: nat, n: nat): nat {
    PowPositive(256, n);
    v * Bytes(3) / Bytes(n)
  }

  lemma TopThreeShort(v: nat, n: nat)
    requires n <= 3
    ensures TopThree(v, n) == v * Bytes(3 - n)
  {
    hide Bytes;
    ByteFacts(n, 3 - n);
    MulRotate(v, Bytes(n), Bytes(3 - n));
    RemainderOf(v * Bytes(3), Bytes(n), v * Bytes(3 - n), 0);
  }

  lemma TopThreeLong(v: nat, n: nat)
    requires n >= 3
    ensures Bytes(n - 3) > 0 && TopThree(v, n) == v / Bytes(n - 3)
  {
    hide Bytes;
    ByteFacts(n - 3, 3);
    ByteFacts(3, n - 3);
    var p, q := Bytes(3), Bytes(n - 3);
    DivModOf(v, q);
    CancelFactor(v / q, v % q, p, q);
    RemainderOf(v * p, Bytes(n), v / q, v % q * p);
  }

  lemma TopThreeBounds(v: nat, n: nat)
    requires TakesBytes(v, n)
    ensures n == 0 ==> TopThree(v, n) == 0
    ensures n > 0 ==> 0x1_0000 <= TopThree(v, n) < 0x100_0000
  {
    hide Bytes;
    ByteFacts(n, 3);
    var p := Bytes(n);
    DivModOf(v * Bytes(3), p);
    if n > 0 {
      ByteFacts(n - 1, 3);
      ByteFacts(n, 2);
      BoundQuotient(v, p, v * Bytes(3) / p, Bytes(n - 1));
    }
  }

  lemma BoundQuotient(v: nat, p: nat, q: nat, low: nat)
    requires p > 0 && p == 256 * low && low <= v < p && q == v * 0x100_0000 / p
    ensures 0x1_0000 <= q < 0x100_0000
  {
    DivModOf(v * 0x100_0000, p);
    if q >= 0x100_0000 {
      MulMono(0x100_0000, q, p);
    }
    if q < 0x1_0000 {
      MulMono(q + 1, 0x1_0000, p);
    }
  }

  lemma TopThreeNext(v: nat, n: nat)
    ensures TopThree(v, n) / 256 == TopThree(v, n + 1)
  {
    hide Bytes;
    ByteFacts(n, n);
    var x, p := v * Bytes(3), Bytes(n);
    DivModOf(x, p);
    DivModOf(x / p, 256);
    var q, r, t := x / p / 256, x / p % 256, x % p;
    calc {
      x;
      (q * 256 + r) * p + t;
      { assert (q * 256 + r) * p == (256 * p) * q + r * p; }
      (256 * p) * q + (r * p + t);
    }
    MulMono(r, 255, p);
    RemainderOf(x, 256 * p, q, r * p + t);
  }

  /** Mantissa and exponent as they end up in the compact form. */
  ghost predicate Encodes(v: nat, m: nat, n: nat) {
    m == TopThree(v, n) && (v == 0 ==> m == 0 && n == 0) && (v > 0 ==> 0x8000 <= m < 0x80_0000)
  }

  lemma EncodesExact(v: nat, m: nat, n: nat)
    requires Encodes(v, m, n) && n <= 3
    ensures Meaning(m, n) == v && m % Bytes3Less(n) == 0
  {
    hide Bytes;
    TopThreeShort(v, n);
    ByteFacts(3 - n, n);
    MulAssoc(v, Bytes(3 - n), Bytes(n));
    RemainderOf(v * Bytes(3), Bytes(3), v, 0);
    RemainderOf(m, Bytes(3 - n), v, 0);
  }

  function Bytes3Less(n: nat): (p: nat)
    requires n <= 3
    ensures p > 0
  {
    PowPositive(256, 3 - n);
    Bytes(3 - n)
  }

  /** Nothing that the compact form can express lies between the encoded number and v. */
  lemma EncodesGreatest(v: nat, m: nat, n: nat, w: nat, s: nat)
    requires Encodes(v, m, n) && w < 0x80_0000
    ensures Meaning(m, n) <= v
    ensures Meaning(w, s) <= v ==> Meaning(w, s) <= Meaning(m, n)
  {
    if n <= 3 {
      EncodesExact(v, m, n);
    } else {
      hide Bytes, Meaning;
      TopThreeLong(v, n);
      MeaningLarge(m, n);
      var t := Bytes(n - 3);
      DivModOf(v, t);
      if s >= n {
        MeaningLarge(w, s);
        ByteFacts(n - 3, s - n);
        MulRotate(w, t, Bytes(s - n));
        WholeSteps(w * Bytes(s - n), v, t);
      } else {
        SmallerExponent(w, s, m, n);
      }
    }
  }

  lemma WholeSteps(k: nat, v: nat, t: nat)
    requires t > 0
    ensures t * k <= v ==> t * k <= v / t * t
  {
    DivModOf(v, t);
    if t * k <= v && k > v / t {
      MulMono(v / t + 1, k, t);
    }
    if k <= v / t {
      MulMono(k, v / t, t);
    }
  }

  /** A full mantissa with the greater exponent is the greater number. */
  lemma FullMantissa(w: nat, s: nat, m: nat, n: nat)
    requires s < n && w < 0x80_0000 && m >= 0x8000
    ensures w * Bytes(s) < m * Bytes(n)
  {
    hide Bytes;
    ByteFacts(s, 0);
    ByteFacts(n, n - 1);
    BytesMono(s, n - 1);
    ScaleStrict(w, 0x80_0000, Bytes(s));
    MulMono(0x8000, m, Bytes(n));
  }

  lemma SmallerExponent(w: nat, s: nat, m: nat, n: nat)
    requires s < n && w < 0x80_0000 && m >= 0x8000
    ensures Meaning(w, s) <= Meaning(m, n)
  {
    hide Bytes;
    FullMantissa(w, s, m, n);
    QuotientMono(w * Bytes(s), m * Bytes(n));
  }

  lemma QuotientMono(x: nat, y: nat)
    requires x < y
    ensures Bytes(3) > 0 && x / Bytes(3) <= y / Bytes(3)
  {
    ByteFacts(0, 0);
  }

  /** The form the encoder produces: a full mantissa, nothing lost below the units. */
  predicate Normal(c: nat) {
    var m, n := Mantissa(c), Exponent(c);
    (m == 0 ==> n == 0) && (m > 0 ==> m >= 0x8000) && (n <= 3 ==> m % Bytes3Less(n) == 0)
  }

  /** The three highest of so many bytes. */
  method HighBytes(v: UInt, size: nat) returns (word: nat)
    requires v.Valid() && v.pn.Length == WIDTH && TakesBytes(v.Value(), size)
    ensures word == TopThree(v.Value(), size)
  {
    hide Bytes, Pow, Val, TopThree, TakesBytes;
    ghost var x := v.Value();
    TopThreeBounds(x, size);
    TakesBytesZero(x, size);
    if size <= 3 {
      var low := v.Low64();
      ShortFits(x, size);
      TopThreeShort(x, size);
      word := low * Bytes(3 - size);
    } else {
      var bn := new UInt.Copy(v);
      ByteFacts(0, size - 3);
      TopThreeLong(x, size);
      bn.ShiftRight(8 * (size - 3));
      word := bn.Low64();
    }
  }

  /** Mantissa and exponent of a number, the mantissa clear of the sign bit. */
  method TopWord(v: UInt) returns (word: nat, size: nat)
    requires v.Valid() && v.pn.Length == WIDTH
    ensures Encodes(v.Value(), word, size) && size < 256
  {
    hide Bytes, Pow, Val, TopThree, TakesBytes;
    ghost var x := v.Value();
    var bits := v.Bits();
    size := (bits + 7) / 8;
    BitsToBytes(x, bits);
    word := HighBytes(v, size);
    TopThreeBounds(x, size);
    TakesBytesZero(x, size);
    TopThreeNext(x, size);
    if word >= 0x80_0000 {
      word := word / 256;
      size := size + 1;
    }
  }

  /** Encoding: the greatest number not above v that the compact form can express, normalised. */
  method GetCompact(v: UInt, negative: bool) returns (c: nat)
    requires v.Valid() && v.pn.Length == WIDTH
    ensures c < B && Normal(c) && CompactValue(c) <= v.Value()
    ensures forall other: nat :: CompactValue(other) <= v.Value() ==> CompactValue(other) <= CompactValue(c)
    ensures SignBit(c) <==> negative && Mantissa(c) != 0
  {
    hide Bytes, Pow, Meaning, Val, Normal, Encodes, Mantissa, Exponent, SignBit;
    var word, size := TopWord(v);
    EncodesBelow(v.Value(), word, size);
    assert word < 0x80_0000 && size < 256;
    var sign := if negative && word != 0 then 0x80_0000 else 0;
    c := word + sign + size * 0x100_0000;
    Fields(word, sign, size);
    EncodesNormal(v.Value(), word, size, c);
    EncodesGreatest(v.Value(), word, size, 0, 0);
    forall other: nat | CompactValue(other) <= v.Value()
      ensures CompactValue(other) <= CompactValue(c)
    {
      MantissaBound(other);
      EncodesGreatest(v.Value(), word, size, Mantissa(other), Exponent(other));
    }
  }

  lemma MantissaBound(c: nat)
    ensures Mantissa(c) < 0x80_0000
  {
  }

  lemma EncodesBelow(v: nat, m: nat, n: nat)
    requires Encodes(v, m, n)
    ensures m < 0x80_0000
  {
  }

  lemma EncodesNormal(v: nat, m: nat, n: nat, c: nat)
    requires Encodes(v, m, n) && Mantissa(c) == m && Exponent(c) == n
    ensures Normal(c)
  {
    hide Bytes, TopThree;
    if n <= 3 {
      EncodesExact(v, m, n);
    }
  }

  lemma TakesBytesZero(v: nat, n: nat)
    requires TakesBytes(v, n)
    ensures v == 0 <==> n == 0
  {
    if n > 0 {
      PowPositive(256, n - 1);
    }
  }

  lemma ShortFits(v: nat, n: nat)
    requires TakesBytes(v, n) && n <= 3
    ensures v < B * B && v % (B * B) == v
  {
    hide Bytes;
    ByteFacts(0, 0);
    BytesMono(n, 3);
  }

  lemma Fields(word: nat, sign: nat, size: nat)
    requires word < 0x80_0000 && (sign == 0 || sign == 0x80_0000) && size < 256
    ensures var c := word + sign + size * 0x100_0000;
      c < B && Mantissa(c) == word && Exponent(c) == size && (SignBit(c) <==> sign != 0)
  {
  }

  /** Normalised forms of one sign that stand for the same number are the same form. */
  lemma NormalUnique(c: nat, d: nat)
    requires Normal(c) && Normal(d) && SignBit(c) == SignBit(d) && CompactValue(c) == CompactValue(d)
    ensures c == d
  {
    hide Bytes, Meaning, Normal, Mantissa, Exponent, SignBit;
    NormalWhole(c);
    NormalWhole(d);
    NormalParts(c);
    NormalParts(d);
    SameExponent(Mantissa(c), Exponent(c), Mantissa(d), Exponent(d));
    Rebuilt(c);
    Rebuilt(d);
  }

  lemma NormalParts(c: nat)
    requires Normal(c)
    ensures var m := Mantissa(c); m < 0x80_0000 && (m == 0 ==> Exponent(c) == 0) && (m > 0 ==> m >= 0x8000)
  {
  }

  lemma Rebuilt(c: nat)
    ensures c == Mantissa(c) + (if SignBit(c) then 0x80_0000 else 0) + Exponent(c) * 0x100_0000
  {
  }

  lemma SameExponent(m: nat, n: nat, w: nat, s: nat)
    requires m < 0x80_0000 && w < 0x80_0000 && m * Bytes(n) == w * Bytes(s)
    requires (m == 0 ==> n == 0) && (m > 0 ==> m >= 0x8000)
    requires (w == 0 ==> s == 0) && (w > 0 ==> w >= 0x8000)
    ensures n == s && m == w
  {
    hide Bytes;
    ByteFacts(n, 0);
    ByteFacts(s, 0);
    ZeroTimes(m, Bytes(n));
    ZeroTimes(w, Bytes(s));
    if m > 0 {
      if s < n {
        FullMantissa(w, s, m, n);
      } else if n < s {
        FullMantissa(m, n, w, s);
      }
    }
    SameFactor(m, w, Bytes(n));
  }

  lemma SameFactor(m: nat, w: nat, p: nat)
    requires p > 0 && m * p == w * p
    ensures m == w
  {
    RemainderOf(m * p, p, m, 0);
    RemainderOf(w * p, p, w, 0);
  }

  lemma NormalWhole(c: nat)
    requires Normal(c)
    ensures Bytes(3) * CompactValue(c) == Mantissa(c) * Bytes(Exponent(c))
  {
    hide Bytes;
    var m, n := Mantissa(c), Exponent(c);
    if n <= 3 {
      MeaningSmall(m, n);
      ByteFacts(3 - n, n);
      var p := Bytes(3 - n);
      DivModOf(m, p);
      MulRotate(Bytes(n), m / p, p);
    } else {
      MeaningLarge(m, n);
      ByteFacts(3, n - 3);
      MulRotate(m, Bytes(3), Bytes(n - 3));
    }
  }

  /** d is what encoding v with a sign yields (the promises of GetCompact). */
  ghost predicate IsCompactOf(d: nat, v: nat, negative: bool) {
    && Normal(d) && CompactValue(d) <= v && (SignBit(d) <==> negative && Mantissa(d) != 0)
    && forall other: nat :: CompactValue(other) <= v ==> CompactValue(other) <= CompactValue(d)
  }

  /** A form that stands for a number of 256 bits in the way the encoder writes it. */
  predicate Canonical(c: nat) {
    Normal(c) && CompactValue(c) < Pow(B, WIDTH) && (Mantissa(c) == 0 ==> !SignBit(c))
  }

  lemma NormalPositive(c: nat)
    requires Normal(c)
    ensures CompactValue(c) == 0 <==> Mantissa(c) == 0
  {
    hide Bytes, Meaning, Normal, Mantissa, Exponent;
    NormalWhole(c);
    ByteFacts(3, 0);
    ByteFacts(Exponent(c), 0);
    ZeroTimes(CompactValue(c), Bytes(3));
    ZeroTimes(Mantissa(c), Bytes(Exponent(c)));
  }

  /** What decoding and encoding make of a form is canonical, and it is the form itself exactly if that is. */
  lemma Recoded(c: nat, d: nat)
    requires Pow(B, WIDTH) > 0
    requires IsCompactOf(d, CompactValue(c) % Pow(B, WIDTH), CompactValue(c) != 0 && SignBit(c))
    ensures Canonical(d) && (d == c <==> Canonical(c))
  {
    hide Normal, SignBit, Meaning, Mantissa, Exponent, Pow;
    var p := Pow(B, WIDTH);
    DivModOf(CompactValue(c), p);
    if Canonical(c) {
      RemainderOf(CompactValue(c), p, 0, CompactValue(c));
      assert CompactValue(c) <= CompactValue(d);
      NormalPositive(c);
      NormalPositive(d);
      NormalUnique(c, d);
    }
  }

  /** Decoding a form into a number and encoding the number again. */
  method Recode(target: UInt, c: nat) returns (d: nat)
    requires target.pn.Length == WIDTH && c < B
    modifies target.pn
    ensures Canonical(d) && (d == c <==> Canonical(c))
  {
    hide Normal, SignBit, Meaning, Mantissa, Exponent, Pow, Canonical;
    var negative, overflow := SetCompact(target, c);
    d := GetCompact(target, negative);
    Recoded(c, d);
  }

  // ---------------------------------------------------------------------
  // Work

  /** The work a block's target stands for: none for a target that is negative, too large or zero,
      otherwise 2^256 / (target + 1). */
  function Work(c: nat): nat {
    var t := CompactValue(c);
    if t == 0 || SignBit(c) || t >= Pow(B, WIDTH) then 0 else Pow(B, WIDTH) / (t + 1)
  }

  /** A target is never all ones, so that adding one to it does not wrap to a zero divisor. */
  lemma TargetNotAllOnes(c: nat)
    ensures CompactValue(c) + 1 != Pow(B, WIDTH)
  {
    hide Bytes, Pow, Meaning;
    var m, s := Mantissa(c), Exponent(c);
    WidthInBytes();
    ByteFacts(31, 1);
    BytesMono(3, 31);
    ByteFacts(0, 0);
    if s <= 3 {
      MeaningSmall(m, s);
      DivModOf(m, Bytes(3 - s));
      MulMono(1, Bytes(3 - s), m / Bytes(3 - s));
    } else {
      MeaningLarge(m, s);
      ByteFacts(s - 4, s - 4);
      MulRotate(m, 256, Bytes(s - 4));
    }
  }

  /** The formula with the complement, free of wrap-around. */
  lemma WorkSteps(t: nat, m: nat)
    requires 0 < t && t + 1 < m
    ensures (t + 1) % m == t + 1 && ((m - 1 - t) / (t + 1) + 1) % m == m / (t + 1)
  {
    var q, r := (m - 1 - t) / (t + 1), (m - 1 - t) % (t + 1);
    DivModOf(m - 1 - t, t + 1);
    RemainderOf(t + 1, m, 0, t + 1);
    assert m == r + (t + 1) * (q + 1);
    RemainderOf(m, t + 1, q + 1, r);
    MulMono(2, t + 1, q + 1);
    RemainderOf(q + 1, m, 0, q + 1);
  }

  lemma RemainderSmall(v: nat, m: nat)
    requires m > 0
    ensures v < m ==> v % m == v
  {
    if v < m {
      RemainderOf(v, m, 0, v);
    }
  }

  /** The work of a block, computed within 256 bits; its division never meets a zero divisor. */
  method GetBlockProof(nBits: nat) returns (proof: UInt)
    requires nBits < B
    ensures fresh(proof) && proof.Valid() && proof.pn.Length == WIDTH && proof.Value() == Work(nBits)
  {
    hide Pow, Val, Meaning, Bytes;
    var target := new UInt.Zero(WIDTH);
    var negative, overflow := SetCompact(target, nBits);
    ghost var t, m := target.Value(), Pow(B, WIDTH);
    RemainderSmall(CompactValue(nBits), m);
    var zero := new UInt.Zero(WIDTH);
    var order := target.CompareTo(zero);
    if negative || overflow || order == 0 {
      return zero;
    }
    var one := new UInt.Zero(WIDTH);
    one.Assign(1);
    proof := target.Complement();
    target.AddAssign(one);
    TargetNotAllOnes(nBits);
    WorkSteps(t, m);
    var ok := proof.DivAssign(target);
    assert ok;
    proof.AddAssign(one);
  }

  /** A harder target (a smaller number) stands for at least as much work. */
  lemma HarderIsMoreWork(c: nat, d: nat)
    requires 0 < CompactValue(c) <= CompactValue(d) && !SignBit(c)
    ensures Work(c) >= Work(d)
  {
    hide Pow, Meaning;
    var m, t, u := Pow(B, WIDTH), CompactValue(c), CompactValue(d);
    if u < m {
      DivModOf(m, t + 1);
      DivModOf(m, u + 1);
      if m / (t + 1) < m / (u + 1) {
        MulMono(m / (t + 1) + 1, m / (u + 1), u + 1);
        MulMono(t + 1, u + 1, m / (t + 1) + 1);
      }
    }
  }
}
