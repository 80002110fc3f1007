/** Base58 text encoding of byte strings: schoolbook base conversion in a buffer whose size is computed
    from a rational bound on a logarithm. */
module Base58 {
  import opened Options
  import opened Digits

  // ---------------------------------------------------------------------
  // One step of the conversion: buffer = buffer * factor + ch

  lemma CarryStep(base: nat, factor: nat, p: nat, carry: nat, digit: nat, below: nat, belowWas: nat, ch: nat)
    requires base > 0
    requires below + carry * p == belowWas * factor + ch
    ensures var c := carry + factor * digit;
            ((c % base) * p + below) + (c / base) * (base * p) == (digit * p + belowWas) * factor + ch
  {
    var c := carry + factor * digit;
    assert c == (c / base) * base + c % base;
    calc {
      ((c % base) * p + below) + (c / base) * (base * p);
      { MulAssoc(c / base, base, p); }
      (c % base) * p + (c / base) * base * p + below;
      c * p + below;
      carry * p + factor * digit * p + below;
      { assert factor * digit * p == digit * p * factor; }
      digit * p * factor + belowWas * factor + ch;
      (digit * p + belowWas) * factor + ch;
    }
  }

  lemma ConsEval(base: nat, s: seq<nat>, k: nat)
    requires k < |s|
    ensures Eval(base, s[k..]) == s[k] * Pow(base, |s| - k - 1) + Eval(base, s[k + 1..])
  {
    assert s[k..] == [s[k]] + s[k + 1..];
    EvalConcat(base, [s[k]], s[k + 1..]);
    assert [s[k]][..0] == [];
  }

  lemma ZeroFront(base: nat, s: seq<nat>, k: nat)
    requires k <= |s| && forall i :: 0 <= i < k ==> s[i] == 0
    ensures Eval(base, s) == Eval(base, s[k..])
  {
    assert s == Zeros(k) + s[k..];
    LeadingZeros(base, k, s[k..]);
  }

  lemma NoCarryLeft(carry: nat, p: nat, rest: nat, total: nat)
    requires rest + carry * p == total < p
    ensures carry == 0
  {
    if carry > 0 {
      MulMono(1, carry, p);
    }
  }

  /** The state of the loop: the last `i` digits are converted, the others untouched, and the carry makes
      up for the difference. */
  ghost predicate Carried(base: nat, factor: nat, ch: nat, s: seq<nat>, t: seq<nat>, i: nat, carry: nat) {
    && |t| == |s| && i <= |s| && AreDigits(base, t)
    && t[..|s| - i] == s[..|s| - i]
    && Eval(base, t[|s| - i..]) + carry * Pow(base, i) == Eval(base, s[|s| - i..]) * factor + ch
  }

  lemma CarriedStep(base: nat, factor: nat, ch: nat, s: seq<nat>, t: seq<nat>, i: nat, carry: nat)
    requires base > 0 && Carried(base, factor, ch, s, t, i, carry) && i < |s|
    ensures |t| == |s|
    ensures var k, c := |s| - 1 - i, NextCarry(carry, factor, t[|s| - 1 - i]);
            Carried(base, factor, ch, s, t[k := LowDigit(c, base)], i + 1, HighCarry(c, base))
  {
    var k := |s| - 1 - i;
    var c := carry + factor * t[k];
    var u := t[k := c % base];
    assert t[k] == t[..|s| - i][k] == s[k];
    CarryStep(base, factor, Pow(base, i), carry, s[k], Eval(base, t[|s| - i..]), Eval(base, s[|s| - i..]), ch);
    assert u[k + 1..] == t[|s| - i..];
    assert u[..k] == t[..|s| - i][..k] == s[..|s| - i][..k] == s[..k];
    ConsEval(base, u, k);
    ConsEval(base, s, k);
  }

  lemma DoneFull(base: nat, factor: nat, ch: nat, s: seq<nat>, t: seq<nat>, carry: nat)
    requires Carried(base, factor, ch, s, t, |s|, carry) && Eval(base, s) * factor + ch < Pow(base, |s|)
    ensures carry == 0 && Eval(base, t) == Eval(base, s) * factor + ch
  {
    assert t[0..] == t && s[0..] == s;
    hide Eval, Pow;
    NoCarryLeft(carry, Pow(base, |s|), Eval(base, t), Eval(base, s) * factor + ch);
  }

  lemma FrontUntouched(base: nat, factor: nat, ch: nat, s: seq<nat>, t: seq<nat>, i: nat, carry: nat, length: nat)
    requires Carried(base, factor, ch, s, t, i, carry) && length <= i
    requires forall k :: 0 <= k < |s| - length ==> s[k] == 0
    ensures forall k :: 0 <= k < |s| - i ==> s[k] == 0 && t[k] == 0
  {
    assert forall k :: 0 <= k < |s| - i ==> t[k] == t[..|s| - i][k] == s[..|s| - i][k] == s[k];
  }

  lemma DoneEarly(base: nat, factor: nat, ch: nat, s: seq<nat>, t: seq<nat>, i: nat)
    requires Carried(base, factor, ch, s, t, i, 0)
    requires forall k :: 0 <= k < |s| - i ==> s[k] == 0 && t[k] == 0
    ensures Eval(base, t) == Eval(base, s) * factor + ch
  {
    ZeroFront(base, s, |s| - i);
    ZeroFront(base, t, |s| - i);
  }

  lemma CarriedDone(base: nat, factor: nat, ch: nat, s: seq<nat>, t: seq<nat>, i: nat, carry: nat, length: nat)
    requires Carried(base, factor, ch, s, t, i, carry) && length <= |s| && i <= |s| == |t|
    requires (carry == 0 && i >= length) || i == |s|
    requires forall k :: 0 <= k < |s| - length ==> s[k] == 0
    requires Scaled(base, s, factor, ch) < Pow(base, |s|)
    ensures carry == 0 && Eval(base, t) == Scaled(base, s, factor, ch)
    ensures forall k :: 0 <= k < |s| - i ==> t[k] == 0
  {
    hide Eval, Pow, Carried;
    if i == |s| {
      DoneFull(base, factor, ch, s, t, carry);
    } else {
      FrontUntouched(base, factor, ch, s, t, i, carry, length);
      DoneEarly(base, factor, ch, s, t, i);
    }
  }

  function NextCarry(carry: nat, factor: nat, digit: nat): nat {
    carry + factor * digit
  }

  function LowDigit(c: nat, base: nat): nat
    requires base > 0
  {
    c % base
  }

  function HighCarry(c: nat, base: nat): nat
    requires base > 0
  {
    c / base
  }

  function Scaled(base: nat, s: seq<nat>, factor: nat, ch: nat): nat {
    Eval(base, s) * factor + ch
  }

  method CarryInto(buf: array<nat>, k: nat, base: nat, factor: nat, carry0: nat) returns (carry: nat)
    requires k < buf.Length && base > 0
    modifies buf
    ensures carry == HighCarry(NextCarry(carry0, factor, old(buf[k])), base)
    ensures buf[..] == old(buf[..])[k := LowDigit(NextCarry(carry0, factor, old(buf[k])), base)]
  {
    carry := carry0 + factor * buf[k];
    buf[k] := carry % base;
    carry := carry / base;
  }

  /** The inner loops of both directions. The buffer holds the number most significant digit first, with
      only its last `length` digits in use; if the result fits the buffer, no carry is left over. */
  method MultiplyAdd(buf: array<nat>, base: nat, factor: nat, ch: nat, length: nat) returns (newLength: nat)
    requires base > 0 && AreDigits(base, buf[..]) && length <= buf.Length
    requires forall k :: 0 <= k < buf.Length - length ==> buf[k] == 0
    requires Scaled(base, buf[..], factor, ch) < Pow(base, buf.Length)
    modifies buf
    ensures AreDigits(base, buf[..]) && newLength <= buf.Length
    ensures forall k :: 0 <= k < buf.Length - newLength ==> buf[k] == 0
    ensures Eval(base, buf[..]) == Scaled(base, old(buf[..]), factor, ch)
  {
    hide Eval, Pow, Carried, NextCarry, AreDigits, LowDigit, HighCarry, Scaled;
    ghost var s := buf[..];
    var n, i: nat := buf.Length, 0;
    var carry: nat := ch;
    CarriedStart(base, factor, ch, s);
    while (carry != 0 || i < length) && i < n
      invariant 0 <= i <= n
      invariant Carried(base, factor, ch, s, buf[..], i, carry)
    {
      CarriedStep(base, factor, ch, s, buf[..], i, carry);
      carry := CarryInto(buf, n - 1 - i, base, factor, carry);
      i := i + 1;
    }
    newLength := i;
    CarriedDone(base, factor, ch, s, buf[..], i, carry, length);
    CarriedDigits(base, factor, ch, s, buf[..], i, carry);
    assert carry == 0;
  }

  lemma CarriedStart(base: nat, factor: nat, ch: nat, s: seq<nat>)
    requires AreDigits(base, s)
    ensures Carried(base, factor, ch, s, s, 0, ch)
  {
    assert s[|s|..] == [];
  }

  lemma CarriedDigits(base: nat, factor: nat, ch: nat, s: seq<nat>, t: seq<nat>, i: nat, carry: nat)
    requires Carried(base, factor, ch, s, t, i, carry)
    ensures AreDigits(base, t)
  {
  }

  // ---------------------------------------------------------------------
  // The alphabet

  /** The digits, range by range: all alphanumeric characters except 0, I, O and l. */
  function CharOf(d: nat): char
    requires d < 58
  {
    if d < 9 then '1' + d as char
    else if d < 17 then 'A' + (d - 9) as char
    else if d < 22 then 'J' + (d - 17) as char
    else if d < 33 then 'P' + (d - 22) as char
    else if d < 44 then 'a' + (d - 33) as char
    else 'm' + (d - 44) as char
  }

  /** The decoding table, range by range. */
  function DigitOf(c: char): Option<nat> {
    if '1' <= c <= '9' then Some((c - '1') as int)
    else if 'A' <= c <= 'H' then Some((c - 'A') as int + 9)
    else if 'J' <= c <= 'N' then Some((c - 'J') as int + 17)
    else if 'P' <= c <= 'Z' then Some((c - 'P') as int + 22)
    else if 'a' <= c <= 'k' then Some((c - 'a') as int + 33)
    else if 'm' <= c <= 'z' then Some((c - 'm') as int + 44)
    else None
  }

  const DIGITS: string := "123456789"
  const CAPITALS: string := "ABCDEFGHJKLMNPQRSTUVWXYZ"
  const SMALL: string := "abcdefghijkmnopqrstuvwxyz"

  /** The digits are the characters of the alphabet, in order. */
  lemma AlphabetAt(d: nat)
    requires d < 58
    ensures CharOf(d) == (DIGITS + CAPITALS + SMALL)[d]
  {
    if d < 9 {
      assert d == 0 || d == 1 || d == 2 || d == 3 || d == 4 || d == 5 || d == 6 || d == 7 || d == 8;
    } else if d < 33 {
      CapitalAt(d - 9);
    } else {
      SmallAt(d - 33);
    }
  }

  lemma CapitalAt(k: nat)
    requires k < 24
    ensures CharOf(k + 9) == CAPITALS[k]
  {
    if k < 8 {
      assert k == 0 || k == 1 || k == 2 || k == 3 || k == 4 || k == 5 || k == 6 || k == 7;
    } else if k < 16 {
      assert k == 8 || k == 9 || k == 10 || k == 11 || k == 12 || k == 13 || k == 14 || k == 15;
    } else {
      assert k == 16 || k == 17 || k == 18 || k == 19 || k == 20 || k == 21 || k == 22 || k == 23;
    }
  }

  lemma SmallAt(k: nat)
    requires k < 25
    ensures CharOf(k + 33) == SMALL[k]
  {
    if k < 8 {
      assert k == 0 || k == 1 || k == 2 || k == 3 || k == 4 || k == 5 || k == 6 || k == 7;
    } else if k < 16 {
      assert k == 8 || k == 9 || k == 10 || k == 11 || k == 12 || k == 13 || k == 14 || k == 15;
    } else {
      assert k == 16 || k == 17 || k == 18 || k == 19 || k == 20 || k == 21 || k == 22 || k == 23 || k == 24;
    }
  }

  lemma DigitOfCharOf(d: nat)
    requires d < 58
    ensures DigitOf(CharOf(d)) == Some(d)
  {
  }

  lemma CharOfDigitOf(c: char)
    requires DigitOf(c).Some?
    ensures DigitOf(c).value < 58 && CharOf(DigitOf(c).value) == c
  {
  }

  // ---------------------------------------------------------------------
  // What encoding and decoding mean

  function Chars(d: seq<nat>): string
    requires AreDigits(58, d)
  {
    seq(|d|, i requires 0 <= i < |d| => CharOf(d[i]))
  }

  predicate InAlphabet(s: string) {
    forall i :: 0 <= i < |s| ==> DigitOf(s[i]).Some?
  }

  function DigitsOf(s: string): seq<nat>
    requires InAlphabet(s)
  {
    seq(|s|, i requires 0 <= i < |s| => DigitOf(s[i]).value)
  }

  lemma DigitsOfDigits(s: string)
    requires InAlphabet(s)
    ensures AreDigits(58, DigitsOf(s)) && Chars(DigitsOf(s)) == s
  {
    forall i | 0 <= i < |s|
      ensures DigitOf(s[i]).value < 58 && CharOf(DigitOf(s[i]).value) == s[i]
    {
      CharOfDigitOf(s[i]);
    }
  }

  lemma CharsInAlphabet(d: seq<nat>)
    requires AreDigits(58, d)
    ensures InAlphabet(Chars(d)) && DigitsOf(Chars(d)) == d
  {
    forall i | 0 <= i < |d|
      ensures DigitOf(Chars(d)[i]) == Some(d[i])
    {
      DigitOfCharOf(d[i]);
    }
  }

  /** Leading zeros followed by the shortest notation of the same number in another base. */
  function Convert(from: nat, to: nat, d: seq<nat>): (r: seq<nat>)
    requires from > 1 && to > 1
    ensures AreDigits(to, r)
  {
    ToDigitsFacts(to, Eval(from, d));
    Zeros(LeadingZeroCount(d)) + ToDigits(to, Eval(from, d))
  }

  lemma ConvertFacts(from: nat, to: nat, d: seq<nat>)
    requires from > 1 && to > 1
    ensures Eval(to, Convert(from, to, d)) == Eval(from, d)
    ensures LeadingZeroCount(Convert(from, to, d)) == LeadingZeroCount(d)
  {
    var z, e := LeadingZeroCount(d), ToDigits(to, Eval(from, d));
    ToDigitsFacts(to, Eval(from, d));
    LeadingZeros(to, z, e);
    assert (Zeros(z) + e)[z..] == e;
    LeadingZeroCountIs(Zeros(z) + e, z);
  }

  /** Converting there and back gives the same digits, leading zeros included. */
  lemma ConvertBack(from: nat, to: nat, d: seq<nat>)
    requires from > 1 && to > 1 && AreDigits(from, d)
    ensures Convert(to, from, Convert(from, to, d)) == d
  {
    ConvertFacts(from, to, d);
    var z := LeadingZeroCount(d);
    StripZeros(from, d);
    IsToDigits(from, d[z..]);
  }

  /** The text of a byte string. */
  function Encoded(bytes: seq<nat>): string {
    Chars(Convert(256, 58, bytes))
  }

  lemma EvalFour(base: nat, a: nat, b: nat, c: nat, d: nat)
    ensures Eval(base, [a, b, c, d]) == ((a * base + b) * base + c) * base + d
  {
    var s := [a, b, c, d];
    assert s[..3] == [a, b, c] && [a, b, c][..2] == [a, b] && [a, b][..1] == [a] && [a][..0] == [];
    assert Eval(base, [a]) == a;
    assert Eval(base, [a, b]) == a * base + b;
    assert Eval(base, [a, b, c]) == (a * base + b) * base + c;
  }

  /** A zero byte and three bytes 62 are written 1a3gV. */
  lemma EncodedVector()
    ensures Encoded([0, 0x62, 0x62, 0x62]) == "1a3gV"
  {
    var bytes, d := [0, 0x62, 0x62, 0x62], [33, 2, 39, 28];
    EvalFour(256, 0, 0x62, 0x62, 0x62);
    EvalFour(58, 33, 2, 39, 28);
    hide Eval, ToDigits;
    IsToDigits(58, d);
    LeadingZeroCountIs(bytes, 1);
    assert Zeros(1) == [0];
    assert Convert(256, 58, bytes) == [0] + d;
  }

  predicate IsSpace(c: char) {
    c == ' ' || '\t' <= c <= '\r'
  }

  function TrimLeft(s: string): string {
    if s != [] && IsSpace(s[0]) then TrimLeft(s[1..]) else s
  }

  function TrimRight(s: string): string {
    if s != [] && IsSpace(s[|s| - 1]) then TrimRight(s[..|s| - 1]) else s
  }

  /** The text without surrounding white space, if it is all in the alphabet, stands for these bytes. */
  function Decoded(s: string): Option<seq<nat>> {
    var t := TrimRight(TrimLeft(s));
    if InAlphabet(t) then Some(Convert(58, 256, DigitsOf(t))) else None
  }

  lemma NoSpaceInside(s: string)
    requires InAlphabet(s)
    ensures TrimRight(TrimLeft(s)) == s
  {
  }

  /** Decoding an encoded byte string gives it back. */
  lemma DecodeEncoded(bytes: seq<nat>)
    requires AreDigits(256, bytes)
    ensures Decoded(Encoded(bytes)) == Some(bytes)
  {
    var d := Convert(256, 58, bytes);
    CharsInAlphabet(d);
    NoSpaceInside(Chars(d));
    ConvertBack(256, 58, bytes);
  }

  /** Encoding what an accepted text decodes to gives the text back, without surrounding white space. */
  lemma EncodeDecoded(s: string)
    requires Decoded(s).Some?
    ensures AreDigits(256, Decoded(s).value) && Encoded(Decoded(s).value) == TrimRight(TrimLeft(s))
  {
    var t := TrimRight(TrimLeft(s));
    DigitsOfDigits(t);
    ConvertBack(58, 256, DigitsOf(t));
  }

  // ---------------------------------------------------------------------
  // The buffer sizes suffice

  lemma ByteBound(n: nat)
    ensures Pow(256, n) <= Pow(58, n * 138 / 100 + 1)
  {
    assert Pow(256, 8) <= Pow(58, 11);
    hide Pow;
    PowersCompared(256, 58, 11, 8, n, n * 138 / 100 + 1);
  }

  lemma CharPowersSmall()
    ensures Pow(58, 16) == 16400152899115243850138976256 && Pow(58, 7) == 2207984167552
    ensures Pow(256, 13) == 20282409603651670423947251286016
  {
    assert Pow(58, 4) == 11316496 && Pow(58, 3) == 195112 && Pow(256, 3) == 16777216 && Pow(256, 1) == 256;
    hide Pow;
    PowAdd(58, 4, 4);
    PowAdd(58, 8, 8);
    PowAdd(58, 4, 3);
    PowAdd(256, 3, 3);
    PowAdd(256, 6, 6);
    PowAdd(256, 12, 1);
  }

  /** 58^71 <= 256^52, by repeated squaring. */
  lemma CharPowers()
    ensures Pow(58, 71) <= Pow(256, 52)
  {
    hide Pow;
    CharPowersSmall();
    PowAdd(58, 16, 16);
    PowAdd(58, 32, 32);
    PowAdd(58, 64, 7);
    PowAdd(256, 13, 13);
    PowAdd(256, 26, 26);
  }

  lemma CharBound(n: nat)
    ensures Pow(58, n) <= Pow(256, n * 733 / 1000 + 1)
  {
    hide Pow;
    CharPowers();
    PowersCompared(58, 256, 52, 71, n, n * 733 / 1000 + 1);
  }

  /** A prefix of the input always fits the buffer sized for all of it. */
  lemma PrefixFits(base: nat, to: nat, d: seq<nat>, k: nat, size: nat)
    requires base > 1 && AreDigits(base, d) && k <= |d| && Pow(base, |d|) <= Pow(to, size)
    ensures Eval(base, d[..k]) < Pow(to, size)
  {
    EvalBound(base, d[..k]);
    PowMono(base, k, |d|);
  }

  // ---------------------------------------------------------------------
  // The conversion loop

  /** Feeds all digits of one base into a buffer of the other base. */
  method ConvertInto(buf: array<nat>, base: nat, factor: nat, d: seq<nat>) returns (length: nat)
    requires base > 1 && factor > 1 && AreDigits(factor, d) && Pow(factor, |d|) <= Pow(base, buf.Length)
    requires forall k :: 0 <= k < buf.Length ==> buf[k] == 0
    modifies buf
    ensures AreDigits(base, buf[..]) && length <= buf.Length && Eval(base, buf[..]) == Eval(factor, d)
    ensures forall k :: 0 <= k < buf.Length - length ==> buf[k] == 0
  {
    hide Eval, Pow, Scaled;
    length := 0;
    assert buf[..] == Zeros(buf.Length);
    EvalZeros(base, buf.Length);
    EvalEmpty(factor);
    assert d[..0] == [];
    var k := 0;
    while k < |d|
      invariant 0 <= k <= |d| && length <= buf.Length && AreDigits(base, buf[..])
      invariant Eval(base, buf[..]) == Eval(factor, d[..k])
      invariant forall j :: 0 <= j < buf.Length - length ==> buf[j] == 0
    {
      assert d[..k + 1] == d[..k] + [d[k]];
      EvalSnoc(factor, d[..k], d[k]);
      ScaledIs(base, buf[..], factor, d[k]);
      PrefixFits(factor, base, d, k + 1, buf.Length);
      length := MultiplyAdd(buf, base, factor, d[k], length);
      k := k + 1;
    }
    assert d[..|d|] == d;
  }

  lemma ScaledIs(base: nat, s: seq<nat>, factor: nat, ch: nat)
    ensures Scaled(base, s, factor, ch) == Eval(base, s) * factor + ch
  {
  }

  /** Skips the leading zeros of the used part of a buffer. */
  method SkipZeros(buf: array<nat>, base: nat, length: nat) returns (d: seq<nat>)
    requires base > 1 && AreDigits(base, buf[..]) && length <= buf.Length
    requires forall k :: 0 <= k < buf.Length - length ==> buf[k] == 0
    ensures d == ToDigits(base, Eval(base, buf[..]))
  {
    hide Eval, ToDigits;
    var it := buf.Length - length;
    while it < buf.Length && buf[it] == 0
      invariant 0 <= it <= buf.Length && forall k :: 0 <= k < it ==> buf[k] == 0
    {
      it := it + 1;
    }
    d := buf[it..];
    ZeroFront(base, buf[..], it);
    assert buf[..][it..] == d;
    IsToDigits(base, d);
  }

  /** The whole conversion in a fresh buffer. */
  method ConvertAll(base: nat, factor: nat, d: seq<nat>, size: nat) returns (r: seq<nat>)
    requires base > 1 && factor > 1 && AreDigits(factor, d) && Pow(factor, |d|) <= Pow(base, size)
    ensures r == ToDigits(base, Eval(factor, d))
  {
    hide Eval, ToDigits, Pow;
    var buf := new nat[size](_ => 0);
    var length := ConvertInto(buf, base, factor, d);
    r := SkipZeros(buf, base, length);
  }

  method CountZeros(d: seq<nat>) returns (zeroes: nat)
    ensures zeroes == LeadingZeroCount(d)
  {
    zeroes := 0;
    while zeroes < |d| && d[zeroes] == 0
      invariant 0 <= zeroes <= |d| && forall i :: 0 <= i < zeroes ==> d[i] == 0
    {
      zeroes := zeroes + 1;
    }
    LeadingZeroCountIs(d, zeroes);
  }

  method Translate(zeroes: nat, d: seq<nat>) returns (str: string)
    requires AreDigits(58, d)
    ensures str == Chars(Zeros(zeroes) + d)
  {
    str := seq(zeroes, _ => '1');
    ghost var all := Zeros(zeroes) + d;
    for i := 0 to |d|
      invariant str == Chars(all[..zeroes + i])
    {
      assert all[..zeroes + i + 1] == all[..zeroes + i] + [d[i]];
      str := str + [CharOf(d[i])];
    }
    assert all[..zeroes + |d|] == all;
  }

  method EncodeBase58(bytes: seq<nat>) returns (str: string)
    requires AreDigits(256, bytes)
    ensures str == Encoded(bytes)
  {
    hide Eval, ToDigits, Pow, Chars;
    var zeroes := CountZeros(bytes);
    StripZeros(256, bytes);
    var rest := bytes[zeroes..];
    ByteBound(|rest|);
    var d := ConvertAll(58, 256, rest, |rest| * 138 / 100 + 1);
    ToDigitsFacts(58, Eval(256, bytes));
    str := Translate(zeroes, d);
  }

  // ---------------------------------------------------------------------
  // Decoding

  lemma {:induction false} TrimLeftIs(s: string, k: nat)
    requires k <= |s| && (forall i :: 0 <= i < k ==> IsSpace(s[i])) && (k < |s| ==> !IsSpace(s[k]))
    ensures TrimLeft(s) == s[k..]
    decreases k
  {
    if k > 0 {
      TrimLeftIs(s[1..], k - 1);
      assert s[1..][k - 1..] == s[k..];
    }
  }

  lemma {:induction false} TrimRightIs(s: string, k: nat)
    requires k <= |s| && (forall i :: k <= i < |s| ==> IsSpace(s[i])) && (k > 0 ==> !IsSpace(s[k - 1]))
    ensures TrimRight(s) == s[..k]
    decreases |s|
  {
    if k < |s| {
      TrimRightIs(s[..|s| - 1], k);
      assert s[..|s| - 1][..k] == s[..k];
    } else {
      assert s[..k] == s;
    }
  }

  /** Trimming keeps everything up to a character that is no space. */
  lemma {:induction false} TrimRightKeeps(s: string, k: nat)
    requires k < |s| && !IsSpace(s[k])
    ensures k < |TrimRight(s)| <= |s| && TrimRight(s) == s[..|TrimRight(s)|]
    decreases |s|
  {
    if IsSpace(s[|s| - 1]) {
      TrimRightKeeps(s[..|s| - 1], k);
      assert s[..|s| - 1][..|TrimRight(s)|] == s[..|TrimRight(s)|];
    }
  }

  /** A text with a character outside the alphabet before its end is refused. */
  lemma Refused(s: string, e: nat, k: nat)
    requires e <= k < |s| && DigitOf(s[e]).None? && !IsSpace(s[k])
    ensures !InAlphabet(TrimRight(s))
  {
    TrimRightKeeps(s, k);
    assert TrimRight(s)[e] == s[e];
  }

  /** Reads digits into the buffer up to a space, the end or a character outside the alphabet. However the
      text goes on, the carry loop leaves no carry behind. */
  method ReadInto(buf: array<nat>, s: string) returns (ok: bool, e: nat, length: nat)
    requires Pow(58, |s|) <= Pow(256, buf.Length) && forall k :: 0 <= k < buf.Length ==> buf[k] == 0
    modifies buf
    ensures e <= |s| && InAlphabet(s[..e])
    ensures ok ==> e < |s| ==> IsSpace(s[e])
    ensures !ok ==> e < |s| && DigitOf(s[e]).None? && !IsSpace(s[e])
    ensures AreDigits(256, buf[..]) && length <= buf.Length && Eval(256, buf[..]) == Eval(58, DigitsOf(s[..e]))
    ensures forall k :: 0 <= k < buf.Length - length ==> buf[k] == 0
  {
    hide Eval, Pow, Scaled, DigitOf, IsSpace;
    length, e := 0, 0;
    assert buf[..] == Zeros(buf.Length);
    EvalZeros(256, buf.Length);
    EvalEmpty(58);
    assert DigitsOf(s[..0]) == [];
    while e < |s| && !IsSpace(s[e])
      invariant 0 <= e <= |s| && InAlphabet(s[..e]) && length <= buf.Length && AreDigits(256, buf[..])
      invariant Eval(256, buf[..]) == Eval(58, DigitsOf(s[..e]))
      invariant forall k :: 0 <= k < buf.Length - length ==> buf[k] == 0
    {
      var digit := DigitOf(s[e]);
      if digit.None? {
        return false, e, length;
      }
      DigitRead(s, e, buf.Length);
      ScaledIs(256, buf[..], 58, digit.value);
      length := MultiplyAdd(buf, 256, 58, digit.value, length);
      e := e + 1;
    }
    ok := true;
  }

  /** One more digit of a text fits a buffer that is large enough for the whole text. */
  lemma DigitRead(s: string, e: nat, size: nat)
    requires e < |s| && InAlphabet(s[..e]) && DigitOf(s[e]).Some? && Pow(58, |s|) <= Pow(256, size)
    ensures InAlphabet(s[..e + 1])
    ensures Eval(58, DigitsOf(s[..e + 1])) == Eval(58, DigitsOf(s[..e])) * 58 + DigitOf(s[e]).value < Pow(256, size)
  {
    hide Eval, Pow, DigitOf;
    assert s[..e + 1] == s[..e] + [s[e]];
    assert DigitsOf(s[..e + 1]) == DigitsOf(s[..e]) + [DigitOf(s[e]).value];
    EvalSnoc(58, DigitsOf(s[..e]), DigitOf(s[e]).value);
    DigitsOfDigits(s[..e + 1]);
    EvalBound(58, DigitsOf(s[..e + 1]));
    PowMono(58, e + 1, |s|);
  }

  method SkipOnes(s: string) returns (zeroes: nat)
    ensures zeroes <= |s| && (forall i :: 0 <= i < zeroes ==> s[i] == '1') && (zeroes < |s| ==> s[zeroes] != '1')
  {
    zeroes := 0;
    while zeroes < |s| && s[zeroes] == '1'
      invariant 0 <= zeroes <= |s| && forall i :: 0 <= i < zeroes ==> s[i] == '1'
    {
      zeroes := zeroes + 1;
    }
  }

  method SkipSpaces(s: string, start: nat) returns (e: nat)
    requires start <= |s|
    ensures start <= e <= |s| && (forall i :: start <= i < e ==> IsSpace(s[i])) && (e < |s| ==> !IsSpace(s[e]))
  {
    e := start;
    while e < |s| && IsSpace(s[e])
      invariant start <= e <= |s| && forall i :: start <= i < e ==> IsSpace(s[i])
    {
      e := e + 1;
    }
  }

  /** Accepts exactly the texts in the alphabet, surrounding white space aside, and gives their bytes. */
  method DecodeBase58(str: string) returns (r: Option<seq<nat>>)
    ensures r == Decoded(str)
  {
    hide Convert, TrimRight, Eval, Pow, ToDigits, IsSpace, DigitOf, InAlphabet;
    var k := SkipSpaces(str, 0);
    TrimLeftIs(str, k);
    var t := str[k..];
    var zeroes := SkipOnes(t);
    var s := t[zeroes..];
    var buf := new nat[|s| * 733 / 1000 + 1](_ => 0);
    CharBound(|s|);
    var ok, e, length := ReadInto(buf, s);
    if !ok {
      Refused(t, zeroes + e, zeroes + e);
      return None;
    }
    var f := SkipSpaces(s, e);
    if f < |s| {
      SpaceRefused(t, zeroes + e, zeroes + f);
      return None;
    }
    var bytes := SkipZeros(buf, 256, length);
    OnesThenDigits(t, zeroes, s, e);
    r := Some(Zeros(zeroes) + bytes);
  }

  /** Leading ones are leading zeros of what a text stands for. */
  lemma OnesThenDigits(t: string, zeroes: nat, s: string, e: nat)
    requires zeroes <= |t| && s == t[zeroes..] && e <= |s| && (forall i :: 0 <= i < zeroes ==> t[i] == '1')
    requires zeroes < |t| ==> t[zeroes] != '1'
    requires InAlphabet(s[..e]) && forall i :: e <= i < |s| ==> IsSpace(s[i])
    ensures InAlphabet(TrimRight(t))
    ensures Convert(58, 256, DigitsOf(TrimRight(t))) == Zeros(zeroes) + ToDigits(256, Eval(58, DigitsOf(s[..e])))
  {
    hide Eval, ToDigits, Convert, DigitOf, IsSpace, TrimRight, DigitsOf, InAlphabet;
    OnesInAlphabet(t, zeroes, s, e);
    TrimRightExact(t, zeroes + e);
    OnesConverted(t[..zeroes + e], zeroes);
    assert t[..zeroes + e][zeroes..] == s[..e];
  }

  lemma OnesInAlphabet(t: string, zeroes: nat, s: string, e: nat)
    requires zeroes <= |t| && s == t[zeroes..] && e <= |s| && (forall i :: 0 <= i < zeroes ==> t[i] == '1')
    requires InAlphabet(s[..e]) && forall i :: e <= i < |s| ==> IsSpace(s[i])
    ensures InAlphabet(t[..zeroes + e]) && forall i :: zeroes + e <= i < |t| ==> IsSpace(t[i])
  {
    hide DigitOf, IsSpace;
    OneIsZero();
    forall i | 0 <= i < zeroes + e
      ensures DigitOf(t[i]).Some?
    {
      if i >= zeroes {
        assert t[i] == s[..e][i - zeroes];
      }
    }
    forall i | zeroes + e <= i < |t|
      ensures IsSpace(t[i])
    {
      assert t[i] == s[i - zeroes];
    }
  }

  lemma OneIsZero()
    ensures forall c :: DigitOf(c) == Some(0) <==> c == '1'
  {
  }

  lemma OnesConverted(u: string, zeroes: nat)
    requires InAlphabet(u) && zeroes <= |u| && (forall i :: 0 <= i < zeroes ==> u[i] == '1')
    requires zeroes < |u| ==> u[zeroes] != '1'
    ensures InAlphabet(u[zeroes..])
    ensures Convert(58, 256, DigitsOf(u)) == Zeros(zeroes) + ToDigits(256, Eval(58, DigitsOf(u[zeroes..])))
  {
    hide Eval, ToDigits, DigitOf;
    OneIsZero();
    var d := DigitsOf(u);
    assert d[zeroes..] == DigitsOf(u[zeroes..]);
    LeadingZeroCountIs(d, zeroes);
    StripZeros(58, d);
  }

  lemma SpaceRefused(s: string, e: nat, f: nat)
    requires e <= f < |s| && IsSpace(s[e]) && !IsSpace(s[f])
    ensures !InAlphabet(TrimRight(s))
  {
    Refused(s, e, f);
  }

  lemma TrimRightExact(s: string, e: nat)
    requires e <= |s| && InAlphabet(s[..e]) && forall i :: e <= i < |s| ==> IsSpace(s[i])
    ensures TrimRight(s) == s[..e]
  {
    if e > 0 {
      assert s[..e][e - 1] == s[e - 1];
    }
    TrimRightIs(s, e);
  }

  /** The two directions undo each other. */
  method EncodeThenDecode(bytes: seq<nat>) returns (r: Option<seq<nat>>)
    requires AreDigits(256, bytes)
    ensures r == Some(bytes)
  {
    var str := EncodeBase58(bytes);
    r := DecodeBase58(str);
    DecodeEncoded(bytes);
  }
}
