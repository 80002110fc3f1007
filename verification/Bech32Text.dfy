/** Bech32 strings: a human-readable part, a separator, data symbols and their checksum. */
module Bech32Text {
  import opened Bech32
  import opened Options

  const ONE: byte := 0x31

  /** The character for a five-bit symbol: qpzry9x8gf2tvdw0s3jn54khce6mua7l. */
  function CharOf(v: byte): byte {
    if v == 0 then 113 else if v == 1 then 112 else if v == 2 then 122 else if v == 3 then 114
    else if v == 4 then 121 else if v == 5 then 57 else if v == 6 then 120 else if v == 7 then 56
    else if v == 8 then 103 else if v == 9 then 102 else if v == 10 then 50 else if v == 11 then 116
    else if v == 12 then 118 else if v == 13 then 100 else if v == 14 then 119 else if v == 15 then 48
    else if v == 16 then 115 else if v == 17 then 51 else if v == 18 then 106 else if v == 19 then 110
    else if v == 20 then 53 else if v == 21 then 52 else if v == 22 then 107 else if v == 23 then 104
    else if v == 24 then 99 else if v == 25 then 101 else if v == 26 then 54 else if v == 27 then 109
    else if v == 28 then 117 else if v == 29 then 97 else if v == 30 then 55
    else 108
  }

  predicate IsLower(c: byte) {
    0x61 <= c <= 0x7a
  }

  predicate IsUpper(c: byte) {
    0x41 <= c <= 0x5a
  }

  function LowerCase(c: byte): byte {
    if IsUpper(c) then c - 0x41 + 0x61 else c
  }

  /** The symbol for a lower-case character. */
  function RevLower(c: byte): Option<byte> {
    if c == 48 then Some(15) else if c == 50 then Some(10) else if c == 51 then Some(17) else if c == 52 then Some(21)
    else if c == 53 then Some(20) else if c == 54 then Some(26) else if c == 55 then Some(30)
    else if c == 56 then Some(7)
    else if c == 57 then Some(5) else if c == 97 then Some(29) else if c == 99 then Some(24)
    else if c == 100 then Some(13)
    else if c == 101 then Some(25) else if c == 102 then Some(9) else if c == 103 then Some(8)
    else if c == 104 then Some(23)
    else if c == 106 then Some(18) else if c == 107 then Some(22) else if c == 108 then Some(31)
    else if c == 109 then Some(27)
    else if c == 110 then Some(19) else if c == 112 then Some(1) else if c == 113 then Some(0)
    else if c == 114 then Some(3)
    else if c == 115 then Some(16) else if c == 116 then Some(11) else if c == 117 then Some(28)
    else if c == 118 then Some(12)
    else if c == 119 then Some(14) else if c == 120 then Some(6) else if c == 121 then Some(4)
    else if c == 122 then Some(2)
    else None
  }

  /** The symbol for a character of either case. */
  function RevOf(c: byte): Option<byte> {
    RevLower(LowerCase(c))
  }

  ghost predicate GoodChar(v: byte) {
    RevLower(CharOf(v)) == Some(v) && CharOf(v) != ONE && 33 <= CharOf(v) <= 126 && !IsUpper(CharOf(v))
  }

  lemma GoodChars0(v: byte)
    requires v < 8
    ensures GoodChar(v)
  {
  }

  lemma GoodChars1(v: byte)
    requires 8 <= v < 16
    ensures GoodChar(v)
  {
  }

  lemma GoodChars2(v: byte)
    requires 16 <= v < 24
    ensures GoodChar(v)
  {
  }

  lemma GoodChars3(v: byte)
    requires 24 <= v < 32
    ensures GoodChar(v)
  {
  }

  lemma RevChar(v: byte)
    requires v < 32
    ensures RevOf(CharOf(v)) == Some(v) && CharOf(v) != ONE && 33 <= CharOf(v) <= 126 && !IsUpper(CharOf(v))
  {
    hide CharOf, RevLower;
    assert GoodChar(v) by {
      hide GoodChar;
      if v < 8 {
        GoodChars0(v);
      } else if v < 16 {
        GoodChars1(v);
      } else if v < 24 {
        GoodChars2(v);
      } else {
        GoodChars3(v);
      }
    }
  }

  ghost predicate GoodRev(c: byte) {
    RevLower(c).Some? ==> RevLower(c).value < 32 && CharOf(RevLower(c).value) == c
  }

  lemma GoodDigits(c: byte)
    requires c < 0x61
    ensures GoodRev(c)
  {
  }

  lemma GoodLetters(c: byte)
    requires 0x61 <= c < 0x70
    ensures GoodRev(c)
  {
  }

  lemma GoodLettersHigh(c: byte)
    requires 0x70 <= c
    ensures GoodRev(c)
  {
  }

  lemma CharRev(c: byte)
    requires RevOf(c).Some?
    ensures RevOf(c).value < 32 && CharOf(RevOf(c).value) == LowerCase(c)
  {
    hide CharOf, RevLower;
    var l := LowerCase(c);
    assert GoodRev(l) by {
      hide GoodRev;
      if l < 0x61 {
        GoodDigits(l);
      } else if l < 0x70 {
        GoodLetters(l);
      } else {
        GoodLettersHigh(l);
      }
    }
  }

  // ---------------------------------------------------------------------
  // What the encoder writes and the decoder accepts

  function Chars(v: seq<byte>): seq<byte> {
    seq(|v|, i requires 0 <= i < |v| => CharOf(v[i]))
  }

  function Encoded(hrp: seq<byte>, values: seq<byte>): seq<byte> {
    hrp + [ONE] + Chars(values + Checksum(hrp, values))
  }

  predicate Printable(s: seq<byte>) {
    forall i :: 0 <= i < |s| ==> 33 <= s[i] <= 126
  }

  predicate MixedCase(s: seq<byte>) {
    (exists i :: 0 <= i < |s| && IsLower(s[i])) && (exists i :: 0 <= i < |s| && IsUpper(s[i]))
  }

  /** The position of the last separator, or -1. */
  function LastOne(s: seq<byte>): (pos: int)
    ensures -1 <= pos < |s|
  {
    if s == [] then -1 else if s[|s| - 1] == ONE then |s| - 1 else LastOne(s[..|s| - 1])
  }

  function Lowered(s: seq<byte>): seq<byte> {
    seq(|s|, i requires 0 <= i < |s| => LowerCase(s[i]))
  }

  predicate AllSymbols(s: seq<byte>) {
    forall i :: 0 <= i < |s| ==> RevOf(s[i]).Some?
  }

  function Symbols(s: seq<byte>): seq<byte>
    requires AllSymbols(s)
  {
    seq(|s|, i requires 0 <= i < |s| => RevOf(s[i]).value)
  }

  predicate WellFormed(s: seq<byte>) {
    var pos := LastOne(s);
    && Printable(s) && !MixedCase(s) && |s| <= 90 && 0 < pos && pos + 7 <= |s|
    && AllSymbols(s[pos + 1..]) && Verifies(Lowered(s[..pos]), Symbols(s[pos + 1..]))
  }

  /** The human-readable part and the data of an accepted string, nothing for any other. */
  function Decoded(s: seq<byte>): (seq<byte>, seq<byte>) {
    if !WellFormed(s) then ([], [])
    else
      var pos := LastOne(s);
      (Lowered(s[..pos]), Symbols(s[pos + 1..])[..|s| - 7 - pos])
  }

  lemma {:induction false} LastOneIs(s: seq<byte>, pos: nat)
    requires pos < |s| && s[pos] == ONE && forall i :: pos < i < |s| ==> s[i] != ONE
    ensures LastOne(s) == pos
    decreases |s|
  {
    if pos < |s| - 1 {
      LastOneIs(s[..|s| - 1], pos);
    }
  }

  lemma {:induction false} LastOneFound(s: seq<byte>)
    ensures LastOne(s) >= 0 ==> s[LastOne(s)] == ONE
    ensures forall i :: LastOne(s) < i < |s| ==> s[i] != ONE
    decreases |s|
  {
    if s != [] {
      LastOneFound(s[..|s| - 1]);
    }
  }

  lemma CharsBack(v: seq<byte>)
    requires Fives(v)
    ensures AllSymbols(Chars(v)) && Symbols(Chars(v)) == v && Printable(Chars(v))
    ensures forall i :: 0 <= i < |v| ==> Chars(v)[i] != ONE && !IsUpper(Chars(v)[i])
  {
    hide CharOf, RevOf, IsUpper;
    forall i | 0 <= i < |v|
      ensures RevOf(CharOf(v[i])) == Some(v[i]) && 33 <= CharOf(v[i]) <= 126 && CharOf(v[i]) != ONE
      ensures !IsUpper(CharOf(v[i]))
    {
      RevChar(v[i]);
    }
  }

  lemma LoweredSame(s: seq<byte>)
    requires forall i :: 0 <= i < |s| ==> !IsUpper(s[i])
    ensures Lowered(s) == s
  {
  }

  /** Decoding inverts encoding, for every non-empty human-readable part of printable characters without
      upper-case letters and every data part, up to ninety characters in all. */
  lemma DecodeEncoded(hrp: seq<byte>, values: seq<byte>)
    requires hrp != [] && Printable(hrp) && (forall i :: 0 <= i < |hrp| ==> !IsUpper(hrp[i]))
    requires Fives(values) && |hrp| + 1 + |values| + 6 <= 90
    ensures Decoded(Encoded(hrp, values)) == (hrp, values)
  {
    hide CharOf, RevOf, IsUpper, IsLower, LastOne, Verifies, Checksum;
    var all := values + Checksum(hrp, values);
    ChecksumVerifies(hrp, values);
    CharsBack(all);
    var s, pos := Encoded(hrp, values), |hrp|;
    OneFacts();
    EncodedParts(hrp, values);
    LastOneIs(s, pos);
    LoweredSame(hrp);
    assert all[..|s| - 7 - pos] == values;
  }

  lemma OneFacts()
    ensures 33 <= ONE <= 126 && !IsUpper(ONE) && LowerCase(ONE) == ONE
  {
  }

  lemma EncodedParts(hrp: seq<byte>, values: seq<byte>)
    ensures var s := Encoded(hrp, values);
      && |s| == |hrp| + 1 + |values + Checksum(hrp, values)| && s[..|hrp|] == hrp && s[|hrp|] == ONE
      && s[|hrp| + 1..] == Chars(values + Checksum(hrp, values))
  {
    hide CharOf, Checksum;
  }

  /** An accepted string is, but for case, the encoding of what it decodes to. */
  lemma EncodeDecoded(s: seq<byte>)
    requires Decoded(s).0 != []
    ensures Encoded(Decoded(s).0, Decoded(s).1) == Lowered(s)
  {
    hide CharOf, RevOf, LowerCase, LastOne, Verifies, Checksum, Printable, MixedCase;
    var pos := LastOne(s);
    var hrp, all := Lowered(s[..pos]), Symbols(s[pos + 1..]);
    var values, sum := all[..|all| - 6], all[|all| - 6..];
    forall i | 0 <= i < |all|
      ensures all[i] < 32 && CharOf(all[i]) == LowerCase(s[pos + 1 + i])
    {
      CharRev(s[pos + 1 + i]);
    }
    assert values + sum == all;
    ChecksumUnique(hrp, values, sum);
    LastOneFound(s);
    OneFacts();
    assert Encoded(hrp, values) == hrp + [ONE] + Chars(all);
  }

  // ---------------------------------------------------------------------
  // The codec

  method Encode(hrp: seq<byte>, values: seq<byte>) returns (s: seq<byte>)
    requires Fives(values)
    ensures s == Encoded(hrp, values)
  {
    hide CharOf, Checksum;
    var sum := CreateChecksum(hrp, values);
    var combined := values + sum;
    s := hrp + [ONE];
    for i := 0 to |combined|
      invariant s == hrp + [ONE] + Chars(combined)[..i]
    {
      s := s + [CharOf(combined[i])];
    }
  }

  /** Refuses characters that cannot be printed and strings that mix cases. */
  method CheckText(s: seq<byte>) returns (ok: bool)
    ensures ok == (Printable(s) && !MixedCase(s))
  {
    hide IsLower, IsUpper;
    var lower, upper := false, false;
    for i := 0 to |s|
      invariant forall j :: 0 <= j < i ==> 33 <= s[j] <= 126
      invariant lower == exists j :: 0 <= j < i && IsLower(s[j])
      invariant upper == exists j :: 0 <= j < i && IsUpper(s[j])
    {
      var c := s[i];
      if c < 33 || c > 126 {
        return false;
      }
      lower := lower || IsLower(c);
      upper := upper || IsUpper(c);
    }
    ok := !(lower && upper);
  }

  method FindLastOne(s: seq<byte>) returns (pos: int)
    ensures pos == LastOne(s)
  {
    pos := |s| - 1;
    assert s[..|s|] == s;
    while pos >= 0 && s[pos] != ONE
      invariant -1 <= pos < |s| && LastOne(s) == LastOne(s[..pos + 1])
    {
      assert s[..pos + 1][..pos] == s[..pos];
      pos := pos - 1;
    }
    assert pos >= 0 ==> s[..pos + 1][pos] == ONE;
  }

  method Decode(s: seq<byte>) returns (hrp: seq<byte>, data: seq<byte>)
    ensures (hrp, data) == Decoded(s)
  {
    hide Printable, MixedCase, RevOf, LowerCase, Verifies, LastOne;
    var text := CheckText(s);
    if !text {
      return [], [];
    }
    var pos := FindLastOne(s);
    if |s| > 90 || pos == -1 || pos == 0 || pos + 7 > |s| {
      return [], [];
    }
    var values: seq<byte> := [];
    ghost var tail := s[pos + 1..];
    for i := 0 to |s| - 1 - pos
      invariant |values| == i && AllSymbols(tail[..i]) && values == Symbols(tail[..i])
    {
      var rev := RevOf(s[i + pos + 1]);
      assert tail[i] == s[i + pos + 1];
      assert tail[..i + 1] == tail[..i] + [tail[i]];
      if rev.None? {
        return [], [];
      }
      values := values + [rev.value];
    }
    hrp := [];
    for i := 0 to pos
      invariant hrp == Lowered(s[..i])
    {
      hrp := hrp + [LowerCase(s[i])];
    }
    assert tail[..|tail|] == tail;
    var ok := VerifyChecksum(hrp, values);
    if !ok {
      return [], [];
    }
    data := values[..|values| - 6];
  }
}
