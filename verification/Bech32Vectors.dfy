/** What the encoder writes, in concrete terms: the shortest test vector of BIP 173 and the character set. */
module Bech32Vectors {
  import opened Bech32
  import opened Bech32Text

  /** Three more steps of the checksum. */
  lemma Three(w: seq<byte>, k: nat, c: bv32, c1: bv32, c2: bv32, c3: bv32)
    requires k + 3 <= |w| && Run(Word(1), w[..k]) == Word(c)
    requires StepBits(c, w[k]) == c1 && StepBits(c1, w[k + 1]) == c2 && StepBits(c2, w[k + 2]) == c3
    ensures Run(Word(1), w[..k + 3]) == Word(c3)
  {
    hide Step, StepBits, Run;
    RunStep(Word(1), w, k);
    RunStep(Word(1), w, k + 1);
    RunStep(Word(1), w, k + 2);
    StepAsBits(Word(c), w[k]);
    StepAsBits(Word(c1), w[k + 1]);
    StepAsBits(Word(c2), w[k + 2]);
  }

  /** The five-bit groups of a number, one after the other. */
  lemma GroupsAre(mod: bv32, g: seq<byte>)
    requires |g| == 6
    requires Low5(Down(Down(Down(Down(Down(mod)))))) == g[0] && Low5(Down(Down(Down(Down(mod))))) == g[1]
    requires Low5(Down(Down(Down(mod)))) == g[2] && Low5(Down(Down(mod))) == g[3]
    requires Low5(Down(mod)) == g[4] && Low5(mod) == g[5]
    ensures Groups(mod) == g
  {
    hide Low5, Down;
    assert Shifted(mod, 1) == Down(mod);
    assert Shifted(mod, 2) == Down(Shifted(mod, 1));
    assert Shifted(mod, 3) == Down(Shifted(mod, 2));
    assert Shifted(mod, 4) == Down(Shifted(mod, 3));
    assert Shifted(mod, 5) == Down(Shifted(mod, 4));
  }

  lemma SumIs(hrp: seq<byte>, values: seq<byte>, w: seq<byte>, mod: bv32, g: seq<byte>)
    requires w == Expanded(hrp) + (values + NONE) && Run(Word(1), w) == Word(mod) && Groups(XorBits(mod, 1)) == g
    ensures Checksum(hrp, values) == g
  {
    hide Run, Groups, XorBits;
  }

  const A: seq<byte> := [97]
  const A_WORD: seq<byte> := [3, 0, 1, 0, 0, 0, 0, 0, 0]

  lemma ShortRun1()
    ensures Run(Word(1), A_WORD[..9]) == Word(0x15cc_fe9e)
  {
    RunStep(Word(1), A_WORD, 0);
    hide Run;
    Three(A_WORD, 0, 0x1, 0x23, 0x460, 0x8c01);
    Three(A_WORD, 3, 0x8c01, 0x11_8020, 0x230_0400, 0x3d6a_d7b2);
    Three(A_WORD, 6, 0x3d6a_d7b2, 0x2fd_30b9, 0x24cc_4092, 0x15cc_fe9e);
  }

  lemma ShortSum()
    ensures Checksum(A, []) == [10, 28, 25, 31, 20, 31]
  {
    ShortRun1();
    hide Run, Groups;
    GroupsAre(0x15cc_fe9f, [10, 28, 25, 31, 20, 31]);
    assert A_WORD[..9] == A_WORD == Expanded(A) + ([] + NONE);
    SumIs(A, [], A_WORD, 0x15cc_fe9e, [10, 28, 25, 31, 20, 31]);
  }

  /** The text a12uel5l. */
  lemma ShortText()
    ensures Encoded(A, []) == [97, 49, 50, 117, 101, 108, 53, 108]
  {
    hide Checksum;
    ShortSum();
  }

  const CHARSET: string := "qpzry9x8gf2tvdw0s3jn54khce6mua7l"

  lemma Symbols0(i: nat)
    requires 0 <= i < 8
    ensures CharOf(i as byte) as int == CHARSET[i] as int
  {
    assert i == 0 || i == 1 || i == 2 || i == 3 || i == 4 || i == 5 || i == 6 || i == 7;
  }

  lemma Symbols8(i: nat)
    requires 8 <= i < 16
    ensures CharOf(i as byte) as int == CHARSET[i] as int
  {
    assert i == 8 || i == 9 || i == 10 || i == 11 || i == 12 || i == 13 || i == 14 || i == 15;
  }

  lemma Symbols16(i: nat)
    requires 16 <= i < 20
    ensures CharOf(i as byte) as int == CHARSET[i] as int
  {
    assert i == 16 || i == 17 || i == 18 || i == 19;
  }

  lemma Symbols20(i: nat)
    requires 20 <= i < 24
    ensures CharOf(i as byte) as int == CHARSET[i] as int
  {
    assert i == 20 || i == 21 || i == 22 || i == 23;
  }

  lemma Symbols24(i: nat)
    requires 24 <= i < 28
    ensures CharOf(i as byte) as int == CHARSET[i] as int
  {
    assert i == 24 || i == 25 || i == 26 || i == 27;
  }

  lemma Symbols28(i: nat)
    requires 28 <= i < 32
    ensures CharOf(i as byte) as int == CHARSET[i] as int
  {
    assert i == 28 || i == 29 || i == 30 || i == 31;
  }

  /** The characters of the symbols are those of the character set, in order. */
  lemma Alphabet(i: nat)
    requires i < 32
    ensures CharOf(i as byte) as int == CHARSET[i] as int
  {
    hide CharOf;
    if i < 8 {
      Symbols0(i);
    } else if i < 16 {
      Symbols8(i);
    } else if i < 20 {
      Symbols16(i);
    } else if i < 24 {
      Symbols20(i);
    } else if i < 28 {
      Symbols24(i);
    } else {
      Symbols28(i);
    }
  }
}
