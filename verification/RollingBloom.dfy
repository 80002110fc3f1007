/** The rolling Bloom filter: cells of two bits that remember in which of three generations they were
    last set, so that old entries can be forgotten a generation at a time. */
module RollingBloom {

  type Key = seq<bv8>

  // ---------------------------------------------------------------------
  // Bits of a word

  predicate Test(d: bv64, bit: bv6) {
    (d >> bit) & 1 != 0
  }

  function And(a: bv64, b: bv64): bv64 {
    a & b
  }

  function Or(a: bv64, b: bv64): bv64 {
    a | b
  }

  function Xor(a: bv64, b: bv64): bv64 {
    a ^ b
  }

  function Not(a: bv64): bv64 {
    !a
  }

  /** A single bit, set or not. */
  function At(bit: bv6, on: bool): bv64 {
    (if on then 1 as bv64 else 0) << bit
  }

  lemma TestAnd(a: bv64, b: bv64, bit: bv6)
    ensures Test(And(a, b), bit) == (Test(a, bit) && Test(b, bit))
  {
    assert Test(a & b, bit) == (Test(a, bit) && Test(b, bit));
    hide Test;
  }

  lemma TestOr(a: bv64, b: bv64, bit: bv6)
    ensures Test(Or(a, b), bit) == (Test(a, bit) || Test(b, bit))
  {
    assert Test(a | b, bit) == (Test(a, bit) || Test(b, bit));
    hide Test;
  }

  lemma TestXor(a: bv64, b: bv64, bit: bv6)
    ensures Test(Xor(a, b), bit) == (Test(a, bit) != Test(b, bit))
  {
    assert Test(a ^ b, bit) == (Test(a, bit) != Test(b, bit));
    hide Test;
  }

  lemma TestNot(a: bv64, bit: bv6)
    ensures Test(Not(a), bit) == !Test(a, bit)
  {
  }

  lemma TestAt(bit: bv6, on: bool, other: bv6)
    ensures Test(At(bit, on), other) == (on && bit == other)
  {
  }

  /** All ones or all zeros. */
  function Mask(on: bool): bv64 {
    if on then 0xffff_ffff_ffff_ffff else 0
  }

  lemma TestMask(on: bool, bit: bv6)
    ensures Test(Mask(on), bit) == on
  {
  }

  // ---------------------------------------------------------------------
  // Cells

  /** The generation in a cell: one bit in each of two neighbouring words; zero if it is unset. */
  function Gen(d1: bv64, d2: bv64, bit: bv6): nat {
    (if Test(d1, bit) then 1 else 0) + (if Test(d2, bit) then 2 else 0)
  }

  function WipeMask(d1: bv64, d2: bv64, g: nat): bv64 {
    Or(Xor(d1, Mask(g % 2 == 1)), Xor(d2, Mask(g / 2 == 1)))
  }

  /** Clearing a generation clears its cells and no others. */
  lemma WipedCell(d1: bv64, d2: bv64, g: nat, bit: bv6)
    requires 1 <= g <= 3
    ensures var mask := WipeMask(d1, d2, g);
      Gen(And(d1, mask), And(d2, mask), bit) == if Gen(d1, d2, bit) == g then 0 else Gen(d1, d2, bit)
  {
    hide Test, Mask, And, Or, Xor;
    var m1, m2 := Mask(g % 2 == 1), Mask(g / 2 == 1);
    var mask := WipeMask(d1, d2, g);
    TestAnd(d1, mask, bit);
    TestAnd(d2, mask, bit);
    TestOr(Xor(d1, m1), Xor(d2, m2), bit);
    TestXor(d1, m1, bit);
    TestXor(d2, m2, bit);
    TestMask(g % 2 == 1, bit);
    TestMask(g / 2 == 1, bit);
  }

  function WithBit(d: bv64, bit: bv6, on: bool): bv64 {
    Or(And(d, Not(At(bit, true))), At(bit, on))
  }

  lemma WithBitIs(d: bv64, bit: bv6, on: bool, other: bv6)
    ensures Test(WithBit(d, bit, on), other) == if other == bit then on else Test(d, other)
  {
    hide Test, And, Or, Not, At;
    var one := At(bit, true);
    TestOr(And(d, Not(one)), At(bit, on), other);
    TestAnd(d, Not(one), other);
    TestNot(one, other);
    TestAt(bit, true, other);
    TestAt(bit, on, other);
  }

  /** The generation so many before g. */
  function Earlier(g: nat, age: nat): nat
    requires 1 <= g <= 3 && age <= 2
  {
    (g + 2 - age) % 3 + 1
  }

  function NextGeneration(g: nat): nat {
    if g + 1 == 4 then 1 else g + 1
  }

  /** Two generations ago is the one that is used next. */
  lemma AgesByOne(g: nat, age: nat)
    requires 1 <= g <= 3 && age <= 2
    ensures if age == 2 then Earlier(g, age) == NextGeneration(g)
            else Earlier(g, age) == Earlier(NextGeneration(g), age + 1) != NextGeneration(g)
  {
  }

  // ---------------------------------------------------------------------
  // Positions

  function BitOf(h: bv32): bv6 {
    (h & 0x3f) as bv6
  }

  /** The word pair: the lowest bit of the position is ignored. */
  function PairOf(h: bv32, size: nat): (p: nat)
    requires size > 0 && size % 2 == 0
    ensures p % 2 == 0 && p + 1 < size
  {
    var pos := (h >> 6) as nat % size;
    pos - pos % 2
  }

  function CellOf(d: seq<bv64>, h: bv32): nat
    requires |d| > 0 && |d| % 2 == 0
  {
    CellAt(d, PairOf(h, |d|), BitOf(h))
  }

  ghost predicate Paired(d: seq<bv64>) {
    |d| > 0 && |d| % 2 == 0
  }

  function CellAt(d: seq<bv64>, p: nat, bit: bv6): nat
    requires p + 1 < |d|
  {
    Gen(d[p], d[p + 1], bit)
  }

  /** Some of the hashes lead to this cell. */
  ghost predicate Touched(hs: seq<bv32>, size: nat, p: nat, bit: bv6)
    requires size > 0 && size % 2 == 0
  {
    exists m :: 0 <= m < |hs| && PairOf(hs[m], size) == p && BitOf(hs[m]) == bit
  }

  /** The cells of these hashes are set to g, and all others are as they were. */
  ghost predicate SetExactly(d: seq<bv64>, e: seq<bv64>, hs: seq<bv32>, g: nat) {
    Paired(d) && |e| == |d| &&
    forall p: nat, bit: bv6 :: p % 2 == 0 && p + 1 < |d| ==>
      CellAt(e, p, bit) == if Touched(hs, |d|, p, bit) then g else CellAt(d, p, bit)
  }

  /** Wiping turns the cells of generation g, and only those, to zero. */
  ghost predicate Wiped(d: seq<bv64>, e: seq<bv64>, g: nat) {
    |e| == |d| &&
    forall p: nat, bit: bv6 :: p % 2 == 0 && p + 1 < |d| ==>
      CellAt(e, p, bit) == if CellAt(d, p, bit) == g then 0 else CellAt(d, p, bit)
  }

  // ---------------------------------------------------------------------
  // The filter

  /** Generations since the key that is back places from the end of the log went in; c entries have
      gone into the current generation, and each earlier one had n. */
  function Age(back: nat, c: nat, n: nat): nat {
    if back <= c then 0 else if back <= c + n then 1 else if back <= c + 2 * n then 2 else 3
  }

  type HashFunction = (nat, bv32, Key) -> bv32

  /** The hashes of a key. */
  datatype Hasher = Hasher(hash: HashFunction, tweak: bv32, funcs: nat) {
    function Of(key: Key): (hs: seq<bv32>)
      ensures |hs| == funcs
    {
      seq(funcs, n requires 0 <= n => hash(n, tweak, key))
    }
  }

  /** The place in the log of the last key that touches a cell, or -1. */
  ghost function LastTouch(log: seq<Key>, f: Hasher, size: nat, p: nat, bit: bv6): (i: int)
    requires size > 0 && size % 2 == 0
    ensures -1 <= i < |log|
  {
    if log == [] then -1
    else if Touched(f.Of(log[|log| - 1]), size, p, bit) then |log| - 1
    else LastTouch(log[..|log| - 1], f, size, p, bit)
  }

  /** The generation a cell should show: that of the last key that touches it, or none if there is no such key in
      the current and the two previous generations. */
  ghost function Wanted(log: seq<Key>, f: Hasher, size: nat, g: nat, c: nat, n: nat, p: nat, bit: bv6): nat
    requires size > 0 && size % 2 == 0 && 1 <= g <= 3
  {
    var i := LastTouch(log, f, size, p, bit);
    if i < 0 || Age(|log| - i, c, n) > 2 then 0 else Earlier(g, Age(|log| - i, c, n))
  }

  /** Every cell shows what it should. */
  ghost predicate Exact(d: seq<bv64>, log: seq<Key>, f: Hasher, g: nat, c: nat, n: nat) {
    Paired(d) && 1 <= g <= 3 &&
    forall p: nat, bit: bv6 :: p % 2 == 0 && p + 1 < |d| ==>
      CellAt(d, p, bit) == Wanted(log, f, |d|, g, c, n, p, bit)
  }

  /** Starting a new generation: every cell ages by one, and those of the oldest are wiped. */
  lemma CellsAge(d: seq<bv64>, e: seq<bv64>, log: seq<Key>, f: Hasher, g: nat, n: nat)
    requires Exact(d, log, f, g, n, n) && Wiped(d, e, NextGeneration(g))
    ensures Exact(e, log, f, NextGeneration(g), 0, n)
  {
    hide CellAt, LastTouch, Earlier;
    forall p: nat, bit: bv6 | p % 2 == 0 && p + 1 < |d|
      ensures CellAt(e, p, bit) == Wanted(log, f, |d|, NextGeneration(g), 0, n, p, bit)
    {
      assert CellAt(d, p, bit) == Wanted(log, f, |d|, g, n, n, p, bit);
      var i := LastTouch(log, f, |d|, p, bit);
      if i >= 0 && Age(|log| - i, n, n) <= 2 {
        AgesByOne(g, Age(|log| - i, n, n));
      }
    }
  }

  lemma KeyAdded(d: seq<bv64>, e: seq<bv64>, log: seq<Key>, key: Key, f: Hasher, g: nat, c: nat, n: nat)
    requires Exact(d, log, f, g, c, n) && SetExactly(d, e, f.Of(key), g)
    ensures Exact(e, log + [key], f, g, c + 1, n)
  {
    hide CellAt, Touched;
    var log' := log + [key];
    assert log'[..|log|] == log;
    forall p: nat, bit: bv6 | p % 2 == 0 && p + 1 < |d|
      ensures CellAt(e, p, bit) == Wanted(log', f, |d|, g, c + 1, n, p, bit)
    {
      assert CellAt(d, p, bit) == Wanted(log, f, |d|, g, c, n, p, bit);
    }
  }

  lemma NoneSet(d: seq<bv64>, f: Hasher, n: nat)
    requires Paired(d) && forall i :: 0 <= i < |d| ==> d[i] == 0
    ensures Exact(d, [], f, 1, 0, n)
  {
    forall p: nat, bit: bv6 | p % 2 == 0 && p + 1 < |d|
      ensures CellAt(d, p, bit) == 0
    {
      ZeroTest(bit);
    }
  }

  lemma ZeroTest(bit: bv6)
    ensures !Test(0, bit)
  {
  }

  lemma ExactPaired(d: seq<bv64>, log: seq<Key>, f: Hasher, g: nat, c: nat, n: nat)
    requires Exact(d, log, f, g, c, n)
    ensures Paired(d) && 1 <= g <= 3
  {
  }

  lemma WipeOne(d: seq<bv64>, e: seq<bv64>, g: nat, p: nat)
    requires |e| == |d| && p + 1 < |d| && 1 <= g <= 3
    requires var mask := WipeMask(d[p], d[p + 1], g); e[p] == And(d[p], mask) && e[p + 1] == And(d[p + 1], mask)
    ensures forall bit :: CellAt(e, p, bit) == if CellAt(d, p, bit) == g then 0 else CellAt(d, p, bit)
  {
    hide Gen, And, WipeMask;
    forall bit
      ensures CellAt(e, p, bit) == if CellAt(d, p, bit) == g then 0 else CellAt(d, p, bit)
    {
      WipedCell(d[p], d[p + 1], g, bit);
    }
  }

  /** Setting one cell to g, after those of some hashes. */
  lemma SetOne(d: seq<bv64>, e: seq<bv64>, e': seq<bv64>, hs: seq<bv32>, g: nat, h: bv32)
    requires SetExactly(d, e, hs, g) && 1 <= g <= 3
    requires var p, bit := PairOf(h, |e|), BitOf(h);
      e' == e[p := WithBit(e[p], bit, g % 2 == 1)][p + 1 := WithBit(e[p + 1], bit, g / 2 == 1)]
    ensures SetExactly(d, e', hs + [h], g)
  {
    hide Test, WithBit, BitOf, Touched;
    var p, bit := PairOf(h, |d|), BitOf(h);
    forall q: nat, other: bv6 | q % 2 == 0 && q + 1 < |d|
      ensures CellAt(e', q, other) == if Touched(hs + [h], |d|, q, other) then g else CellAt(d, q, other)
    {
      if q == p {
        WithBitIs(e[p], bit, g % 2 == 1, other);
        WithBitIs(e[p + 1], bit, g / 2 == 1, other);
      }
      TouchedMore(hs, h, |d|, q, other);
      assert CellAt(e, q, other) == if Touched(hs, |d|, q, other) then g else CellAt(d, q, other);
    }
  }

  lemma TouchedMore(hs: seq<bv32>, h: bv32, size: nat, p: nat, bit: bv6)
    requires size > 0 && size % 2 == 0
    ensures Touched(hs + [h], size, p, bit) <==> Touched(hs, size, p, bit) || (PairOf(h, size) == p && BitOf(h) == bit)
  {
    hide BitOf;
    var more := hs + [h];
    assert more[|hs|] == h;
    if Touched(hs, size, p, bit) {
      var m :| 0 <= m < |hs| && PairOf(hs[m], size) == p && BitOf(hs[m]) == bit;
      assert more[m] == hs[m];
    }
  }

  lemma NoneTouched(d: seq<bv64>, g: nat)
    requires Paired(d)
    ensures SetExactly(d, d, [], g)
  {
    hide CellAt;
  }

  lemma CellSet(d: seq<bv64>, h: bv32)
    requires Paired(d)
    ensures var p := PairOf(h, |d|); CellOf(d, h) != 0 <==> Test(Or(d[p], d[p + 1]), BitOf(h))
  {
    hide Test, Or, BitOf;
    var p := PairOf(h, |d|);
    TestOr(d[p], d[p + 1], BitOf(h));
  }

  /** One of the last keys of the log touches the cell of this hash. */
  ghost predicate Covered(log: seq<Key>, count: nat, f: Hasher, size: nat, h: bv32)
    requires size > 0 && size % 2 == 0
  {
    exists i :: 0 <= i < |log| && |log| - count <= i && Touched(f.Of(log[i]), size, PairOf(h, size), BitOf(h))
  }

  /** One of the last keys is this one. */
  ghost predicate Lately(log: seq<Key>, key: Key, count: nat) {
    exists i :: 0 <= i < |log| && |log| - count <= i && log[i] == key
  }

  lemma {:induction false} LastTouchIs(log: seq<Key>, f: Hasher, size: nat, p: nat, bit: bv6)
    requires size > 0 && size % 2 == 0
    ensures var i := LastTouch(log, f, size, p, bit);
      && (i >= 0 ==> Touched(f.Of(log[i]), size, p, bit))
      && (forall j :: i < j < |log| ==> !Touched(f.Of(log[j]), size, p, bit))
    decreases |log|
  {
    hide Touched;
    if log != [] {
      LastTouchIs(log[..|log| - 1], f, size, p, bit);
    }
  }

  /** A cell is set if and only if a key of the current or the two previous generations touches it. */
  lemma SetIffCovered(d: seq<bv64>, log: seq<Key>, f: Hasher, g: nat, c: nat, n: nat, h: bv32)
    requires Exact(d, log, f, g, c, n)
    ensures CellOf(d, h) != 0 <==> Covered(log, c + 2 * n, f, |d|, h)
  {
    hide CellAt, Touched, BitOf, LastTouch;
    var p, bit := PairOf(h, |d|), BitOf(h);
    assert CellAt(d, p, bit) == Wanted(log, f, |d|, g, c, n, p, bit);
    LastTouchIs(log, f, |d|, p, bit);
    var i := LastTouch(log, f, |d|, p, bit);
    if i >= 0 {
      assert Touched(f.Of(log[i]), |d|, p, bit);
    }
  }

  /** A key's own hashes touch its cells. */
  lemma RecentCovered(log: seq<Key>, count: nat, f: Hasher, size: nat, key: Key, m: nat)
    requires size > 0 && size % 2 == 0 && Lately(log, key, count) && m < f.funcs
    ensures Covered(log, count, f, size, f.Of(key)[m])
  {
    hide BitOf;
    var i :| 0 <= i < |log| && |log| - count <= i && log[i] == key;
    assert Touched(f.Of(log[i]), size, PairOf(f.Of(key)[m], size), BitOf(f.Of(key)[m]));
  }

  class RollingBloomFilter {
    const hash: HashFunction
    const nEntriesPerGeneration: nat
    const nHashFuncs: nat
    const data: array<bv64>
    var nEntriesThisGeneration: nat
    var nGeneration: nat
    var nTweak: bv32
    ghost var log: seq<Key>

    ghost predicate Valid()
      reads this, data
    {
      && nEntriesPerGeneration > 0 && nEntriesThisGeneration <= nEntriesPerGeneration && 1 <= nGeneration <= 3
      && Exact(data[..], log, F(), nGeneration, nEntriesThisGeneration, nEntriesPerGeneration)
    }

    ghost function F(): Hasher
      reads this
    {
      Hasher(hash, nTweak, nHashFuncs)
    }

    /** The number of hash functions and of cells come from the false-positive rate asked for. */
    constructor (hash: HashFunction, nElements: nat, nHashFuncs: nat, nFilterBits: nat, tweak: bv32)
      requires nElements > 0 && nFilterBits > 0
      ensures Valid() && fresh(data) && log == [] && nElements <= 2 * nEntriesPerGeneration
      ensures this.hash == hash && this.nHashFuncs == nHashFuncs
    {
      this.hash, this.nHashFuncs := hash, nHashFuncs;
      nEntriesPerGeneration := (nElements + 1) / 2;
      data := new bv64[(nFilterBits + 63) / 64 * 2];
      nEntriesThisGeneration, nGeneration, nTweak, log := 0, 1, tweak, [];
      new;
      Reset(tweak);
    }

    method Reset(tweak: bv32)
      requires nEntriesPerGeneration > 0 && Paired(data[..])
      modifies this, data
      ensures Valid() && log == [] && nTweak == tweak && forall i :: 0 <= i < data.Length ==> data[i] == 0
    {
      hide Exact;
      ClearCells();
      nTweak, nEntriesThisGeneration, nGeneration, log := tweak, 0, 1, [];
      NoneSet(data[..], F(), nEntriesPerGeneration);
    }

    method ClearCells()
      modifies data
      ensures forall i :: 0 <= i < data.Length ==> data[i] == 0
    {
      for i := 0 to data.Length
        invariant forall j :: 0 <= j < i ==> data[j] == 0
      {
        data[i] := 0;
      }
    }

    /** Clears the cells of the generation that is about to be used again. */
    method Wipe(g: nat)
      requires 1 <= g <= 3 && Paired(data[..])
      modifies data
      ensures Wiped(old(data[..]), data[..], g)
    {
      hide Gen, And, WipeMask;
      ghost var d := data[..];
      var p: nat := 0;
      while p < data.Length
        invariant p % 2 == 0 && p <= data.Length
        invariant forall q :: p <= q < data.Length ==> data[q] == d[q]
        invariant forall q: nat, bit: bv6 :: q % 2 == 0 && q + 1 < |d| && q < p ==>
          CellAt(data[..], q, bit) == if CellAt(d, q, bit) == g then 0 else CellAt(d, q, bit)
      {
        ghost var before := data[..];
        var mask := WipeMask(data[p], data[p + 1], g);
        data[p], data[p + 1] := And(data[p], mask), And(data[p + 1], mask);
        WipeOne(d, data[..], g, p);
        assert forall q :: 0 <= q < p ==> data[..][q] == before[q];
        p := p + 2;
      }
    }

    /** Sets the cells of a key to the current generation. */
    method SetCells(key: Key)
      requires 1 <= nGeneration <= 3 && Paired(data[..])
      modifies data
      ensures SetExactly(old(data[..]), data[..], F().Of(key), nGeneration)
    {
      hide CellAt, WithBit, PairOf, BitOf, SetExactly;
      ghost var d, hs := data[..], F().Of(key);
      NoneTouched(d, nGeneration);
      for n := 0 to nHashFuncs
        invariant SetExactly(d, data[..], hs[..n], nGeneration)
      {
        var h := hash(n, nTweak, key);
        var p, bit := PairOf(h, data.Length), BitOf(h);
        ghost var before := data[..];
        data[p], data[p + 1] :=
          WithBit(data[p], bit, nGeneration % 2 == 1), WithBit(data[p + 1], bit, nGeneration / 2 == 1);
        assert data[..] == before[p := data[p]][p + 1 := data[p + 1]];
        SetOne(d, before, data[..], hs[..n], nGeneration, h);
        assert hs[..n + 1] == hs[..n] + [h];
      }
      assert hs[..nHashFuncs] == hs;
    }

    method Insert(key: Key)
      requires Valid()
      modifies this, data
      ensures Valid() && log == old(log) + [key] && nTweak == old(nTweak)
    {
      hide Exact, Wiped, SetExactly;
      ExactPaired(data[..], log, F(), nGeneration, nEntriesThisGeneration, nEntriesPerGeneration);
      if nEntriesThisGeneration == nEntriesPerGeneration {
        nEntriesThisGeneration := 0;
        ghost var d, g := data[..], nGeneration;
        nGeneration := NextGeneration(nGeneration);
        Wipe(nGeneration);
        CellsAge(d, data[..], log, F(), g, nEntriesPerGeneration);
        ExactPaired(data[..], log, F(), nGeneration, 0, nEntriesPerGeneration);
      }
      ghost var d := data[..];
      SetCells(key);
      KeyAdded(d, data[..], log, key, F(), nGeneration, nEntriesThisGeneration, nEntriesPerGeneration);
      nEntriesThisGeneration := nEntriesThisGeneration + 1;
      log := log + [key];
    }

    /** Whether all cells of the key are set: if and only if every one of them is touched by a key of the current or
        the two previous generations, and so certainly if the key is one of those. */
    method Contains(key: Key) returns (found: bool)
      requires Valid()
      ensures Paired(data[..])
      ensures found <==> forall m :: 0 <= m < nHashFuncs ==>
        Covered(log, nEntriesThisGeneration + 2 * nEntriesPerGeneration, F(), data.Length, hash(m, nTweak, key))
      ensures Lately(log, key, nEntriesThisGeneration + 2 * nEntriesPerGeneration) ==> found
    {
      hide CellOf, Exact, Test, Or, BitOf, Lately, Covered, PairOf;
      ghost var count := nEntriesThisGeneration + 2 * nEntriesPerGeneration;
      ExactPaired(data[..], log, F(), nGeneration, nEntriesThisGeneration, nEntriesPerGeneration);
      for n := 0 to nHashFuncs
        invariant forall m :: 0 <= m < n ==> Covered(log, count, F(), data.Length, hash(m, nTweak, key))
      {
        var h := hash(n, nTweak, key);
        var p, bit := PairOf(h, data.Length), BitOf(h);
        CellSet(data[..], h);
        SetIffCovered(data[..], log, F(), nGeneration, nEntriesThisGeneration, nEntriesPerGeneration, h);
        if !Test(Or(data[p], data[p + 1]), bit) {
          if Lately(log, key, count) {
            RecentCovered(log, count, F(), data.Length, key, n);
          }
          return false;
        }
      }
      return true;
    }
  }
}
