/** Numbers as sequences of 32-bit limbs, least significant first, and what limb operations mean for
    them. */
module Limbs {
  import opened Bits
  import opened Digits

  const B: nat := 0x1_0000_0000

  predicate AreLimbs(s: seq<nat>) {
    forall i :: 0 <= i < |s| ==> s[i] < B
  }

  function Val(s: seq<nat>): nat {
    if s == [] then 0 else s[0] + B * Val(s[1..])
  }

  lemma {:induction false} ValBound(s: seq<nat>)
    requires AreLimbs(s)
    ensures Val(s) < Pow(B, |s|)
    decreases |s|
  {
    if s != [] {
      ValBound(s[1..]);
    }
  }

  lemma {:induction false} ValSplit(s: seq<nat>, k: nat)
    requires k <= |s|
    ensures Val(s) == Val(s[..k]) + Pow(B, k) * Val(s[k..])
    decreases k
  {
    if k > 0 {
      ValSplit(s[1..], k - 1);
      assert s[1..][..k - 1] == s[..k][1..];
      assert s[1..][k - 1..] == s[k..];
      MulAssoc(B, Pow(B, k - 1), Val(s[k..]));
    } else {
      assert s[0..] == s;
    }
  }

  lemma {:induction false} ValUpdate(s: seq<nat>, j: nat, x: nat)
    requires j < |s|
    ensures Val(s[j := x]) + s[j] * Pow(B, j) == Val(s) + x * Pow(B, j)
    decreases j
  {
    if j > 0 {
      ValUpdate(s[1..], j - 1, x);
      assert s[j := x][1..] == s[1..][j - 1 := x];
      ScaleByB(x, Pow(B, j - 1));
      ScaleByB(s[j], Pow(B, j - 1));
    } else {
      assert s[0 := x][1..] == s[1..];
    }
  }

  lemma ScaleByB(x: nat, p: nat)
    ensures x * (B * p) == B * (x * p)
  {
  }

  lemma {:induction false} ValZeros(n: nat, s: seq<nat>)
    ensures Val(Zeros(n) + s) == Pow(B, n) * Val(s)
    decreases n
  {
    if n == 0 {
      assert Zeros(0) + s == s;
    } else {
      ValZeros(n - 1, s);
      assert (Zeros(n) + s)[1..] == Zeros(n - 1) + s;
      MulAssoc(B, Pow(B, n - 1), Val(s));
    }
  }

  lemma {:induction false} ValAllZero(s: seq<nat>)
    requires forall i :: 0 <= i < |s| ==> s[i] == 0
    ensures Val(s) == 0
    decreases |s|
  {
    if s != [] {
      ValAllZero(s[1..]);
    }
  }

  lemma TwoTo32()
    ensures Pow(2, 32) == B && Pow(2, 0) == 1 && Pow(2, 1) == 2
  {
    assert Pow(2, 4) == 16;
    assert Pow(2, 0) == 1 && Pow(2, 1) == 2;
    hide Pow;
    PowAdd(2, 4, 4);
    PowAdd(2, 8, 8);
    PowAdd(2, 16, 16);
  }

  lemma PowStep(b: nat, k: nat)
    ensures Pow(b, 0) == 1 && Pow(b, k + 1) == b * Pow(b, k)
  {
  }

  lemma {:induction false} LimbPow(k: nat)
    ensures Pow(B, k) == Pow(2, 32 * k)
    decreases k
  {
    hide Pow;
    PowStep(2, 0);
    PowStep(B, if k == 0 then 0 else k - 1);
    if k > 0 {
      LimbPow(k - 1);
      PowAdd(2, 32, 32 * (k - 1));
      TwoTo32();
    }
  }

  // ---------------------------------------------------------------------
  // Bits of a limb

  /** Numbers without a bit in common: one below a power of two, the other a multiple of it. */
  lemma {:induction false} OrDisjoint(a: nat, m: nat, s: nat)
    requires a < Pow(2, s)
    ensures Or(a, m * Pow(2, s)) == a + m * Pow(2, s) == Or(m * Pow(2, s), a)
    decreases s
  {
    if s > 0 {
      var b := m * Pow(2, s - 1);
      assert m * Pow(2, s) == 2 * b;
      OrDisjoint(a / 2, m, s - 1);
    }
  }

  lemma Pow2Facts(s: nat)
    requires s <= 32
    ensures Pow(2, s) > 0 && Pow(2, 32 - s) > 0 && Pow(2, s) * Pow(2, 32 - s) == B
  {
    hide Pow;
    PowPositive(2, s);
    PowPositive(2, 32 - s);
    PowAdd(2, s, 32 - s);
    TwoTo32();
  }

  /** What a left shift by s bits keeps of a limb, and what it pushes into the next one. */
  function Low(x: nat, s: nat): nat {
    (x * Pow(2, s)) % B
  }

  function High(x: nat, s: nat): nat
    requires s <= 32
  {
    Pow2Facts(32 - s);
    x / Pow(2, 32 - s)
  }

  /** The low s bits. */
  function LowBits(x: nat, s: nat): nat
    requires s <= 32
  {
    Pow2Facts(s);
    x % Pow(2, s)
  }

  lemma LowHigh(x: nat, s: nat)
    requires x < B && s <= 32
    ensures Low(x, s) + B * High(x, s) == x * Pow(2, s)
    ensures High(x, s) < Pow(2, s)
    ensures Low(x, s) == LowBits(x, 32 - s) * Pow(2, s) < B
  {
    var p, q := Pow(2, s), Pow(2, 32 - s);
    Pow2Facts(s);
    Pow2Facts(32 - s);
    DivModOf(x, q);
    SplitShift(x, p, q);
  }

  lemma DivModOf(x: nat, q: nat)
    requires q > 0
    ensures x == (x / q) * q + x % q && x % q < q && x / q >= 0
  {
  }

  lemma SplitShift(x: nat, p: nat, q: nat)
    requires p > 0 && q > 0 && p * q == B && x < B
    requires x == (x / q) * q + x % q && x % q < q
    ensures (x * p) % B == (x % q) * p < B
    ensures x * p == (x % q) * p + B * (x / q)
    ensures x / q < p
  {
    var h, r := x / q, x % q;
    calc {
      x * p;
      (h * q + r) * p;
      h * q * p + r * p;
      { assert h * q * p == h * (p * q); }
      h * B + r * p;
    }
    ScaleStrict(r, q, p);
    assert p * r == r * p;
    RemainderIs(x * p, h, r * p);
    if h >= p {
      MulMono(p, h, q);
    }
  }

  lemma RemainderIs(v: nat, h: nat, r: nat)
    requires v == B * h + r && r < B
    ensures v % B == r && v / B == h
  {
  }

  // ---------------------------------------------------------------------
  // Shifting left

  /** All limbs shifted left by s < 32 bits, c entering from below: one limb more. */
  function Up(a: seq<nat>, s: nat, c: nat): seq<nat>
    requires s <= 32
  {
    if a == [] then [c] else [Low(a[0], s) + c] + Up(a[1..], s, High(a[0], s))
  }

  lemma {:induction false} UpAt(a: seq<nat>, s: nat, c: nat, j: nat)
    requires s <= 32 && j <= |a|
    ensures |Up(a, s, c)| == |a| + 1
    ensures Up(a, s, c)[j] == (if j < |a| then Low(a[j], s) else 0) + (if j == 0 then c else High(a[j - 1], s))
    decreases |a|
  {
    hide Low, High;
    if a != [] {
      UpAt(a[1..], s, High(a[0], s), if j == 0 then 0 else j - 1);
    }
  }

  lemma {:induction false} UpVal(a: seq<nat>, s: nat, c: nat)
    requires s <= 32 && AreLimbs(a)
    ensures Val(Up(a, s, c)) == Val(a) * Pow(2, s) + c
    decreases |a|
  {
    hide Low, High, Pow;
    if a != [] {
      UpVal(a[1..], s, High(a[0], s));
      LowHigh(a[0], s);
      assert Up(a, s, c)[1..] == Up(a[1..], s, High(a[0], s));
      ShiftedSum(a[0], Val(a[1..]), Pow(2, s));
    } else {
      assert [c][1..] == [];
    }
  }

  lemma ShiftedSum(x: nat, v: nat, p: nat)
    ensures (x + B * v) * p == x * p + B * (v * p)
  {
  }

  /** What limb j holds once the first i limbs have been shifted into place. */
  function ShlAt(a: seq<nat>, k: nat, s: nat, i: nat, j: nat): nat
    requires s <= 32 && i <= |a|
  {
    (if k <= j < i + k then Low(a[j - k], s) else 0) + (if k < j <= i + k then High(a[j - k - 1], s) else 0)
  }

  /** Limbs each holding its shifted pieces: the value times 2^(32k + s), modulo the width. */
  lemma ShlVal(a: seq<nat>, k: nat, s: nat, r: seq<nat>)
    requires s <= 32 && AreLimbs(a) && |r| == |a|
    requires forall j :: 0 <= j < |r| ==> r[j] == ShlAt(a, k, s, |a|, j)
    ensures Pow(B, |a|) > 0 && Val(r) == (Val(a) * Pow(2, 32 * k + s)) % Pow(B, |a|)
  {
    hide Low, High, Pow, Val, Up, AreLimbs;
    var body := Up(a, s, 0);
    var all := Zeros(k) + body;
    UpAt(a, s, 0, 0);
    forall j | 0 <= j < |r|
      ensures all[j] == r[j]
    {
      if j >= k {
        UpAt(a, s, 0, j - k);
      }
    }
    assert all[..|a|] == r;
    ValSplit(all, |a|);
    ValZeros(k, body);
    UpVal(a, s, 0);
    ShlLimbs(a, k, s, r);
    ValBound(r);
    LimbPow(k);
    PowAdd(2, 32 * k, s);
    MulRotate(Pow(B, k), Val(a), Pow(2, s));
    RemainderOf(Val(all), Pow(B, |a|), Val(all[|a|..]), Val(r));
  }

  lemma MulRotate(x: nat, y: nat, z: nat)
    ensures x * (y * z) == y * (x * z)
  {
  }

  lemma RemainderOf(v: nat, m: nat, q: nat, r: nat)
    requires v == r + m * q && r < m
    ensures v % m == r && v / m == q
  {
    DivModUnique(m, v / m, v % m, q, r);
  }

  lemma PiecesFit(x: nat, y: nat, s: nat)
    requires s <= 32 && x < B && y < B
    ensures Or(High(y, s), Low(x, s)) == Low(x, s) + High(y, s) < B
    ensures s == 0 ==> High(y, s) == 0
  {
    hide Pow, Or;
    LowHigh(x, s);
    LowHigh(y, s);
    Pow2Facts(s);
    OrDisjoint(High(y, s), LowBits(x, 32 - s), s);
    PiecesBelow(LowBits(x, 32 - s), High(y, s), Pow(2, s), Pow(2, 32 - s));
    TwoTo32();
  }

  lemma PiecesBelow(l: nat, h: nat, p: nat, q: nat)
    requires p > 0 && p * q == B && l < q && h < p
    ensures l * p + h < B
  {
    MulMono(l + 1, q, p);
  }

  lemma ShlLimbs(a: seq<nat>, k: nat, s: nat, r: seq<nat>)
    requires s <= 32 && AreLimbs(a) && |r| == |a|
    requires forall j :: 0 <= j < |r| ==> r[j] == ShlAt(a, k, s, |a|, j)
    ensures AreLimbs(r)
  {
    hide Low, High;
    forall j | 0 <= j < |r|
      ensures r[j] < B
    {
      PiecesFit(if k <= j then a[j - k] else 0, if k < j then a[j - k - 1] else 0, s);
    }
  }

  // ---------------------------------------------------------------------
  // Shifting right

  /** The high part of a limb after a right shift by s bits. */
  function Above(x: nat, s: nat): nat
    requires s <= 32
  {
    Pow2Facts(s);
    x / Pow(2, s)
  }

  /** All limbs shifted right by s < 32 bits. */
  function Down(a: seq<nat>, s: nat): seq<nat>
    requires s <= 32
  {
    if a == [] then []
    else [Above(a[0], s) + (if |a| > 1 then Low(a[1], 32 - s) else 0)] + Down(a[1..], s)
  }

  lemma {:induction false} DownAt(a: seq<nat>, s: nat, j: nat)
    requires s <= 32 && j < |a|
    ensures |Down(a, s)| == |a|
    ensures Down(a, s)[j] == Above(a[j], s) + (if j + 1 < |a| then Low(a[j + 1], 32 - s) else 0)
    decreases |a|
  {
    hide Low, Above;
    if |a| > 1 {
      DownAt(a[1..], s, if j == 0 then 0 else j - 1);
    }
  }

  function FirstBits(a: seq<nat>, s: nat): nat
    requires s <= 32
  {
    if a == [] then 0 else LowBits(a[0], s)
  }

  lemma {:induction false} DownVal(a: seq<nat>, s: nat)
    requires s <= 32 && AreLimbs(a)
    ensures Val(a) == Val(Down(a, s)) * Pow(2, s) + FirstBits(a, s)
    ensures FirstBits(a, s) < Pow(2, s)
    decreases |a|
  {
    hide Low, Above, LowBits, Pow;
    Pow2Facts(s);
    if a != [] {
      DownVal(a[1..], s);
      assert Down(a, s)[1..] == Down(a[1..], s);
      AboveParts(a[0], s);
      var piece := if |a| > 1 then Low(a[1], 32 - s) else 0;
      if |a| > 1 {
        LowHigh(a[1], 32 - s);
        BroughtDown(LowBits(a[1], s), s);
      }
      DownStep(Above(a[0], s), piece, Val(Down(a[1..], s)), Pow(2, s), FirstBits(a[1..], s));
    }
  }

  lemma DownStep(above: nat, piece: nat, rest: nat, p: nat, bits: nat)
    requires piece * p == B * bits
    ensures (above + piece + B * rest) * p == above * p + B * (rest * p + bits)
  {
    assert (above + piece + B * rest) * p == above * p + piece * p + B * rest * p;
  }

  lemma AboveParts(x: nat, s: nat)
    requires s <= 32
    ensures x == Above(x, s) * Pow(2, s) + LowBits(x, s) && LowBits(x, s) < Pow(2, s)
  {
    Pow2Facts(s);
    DivModOf(x, Pow(2, s));
  }

  lemma BroughtDown(l: nat, s: nat)
    requires s <= 32
    ensures l * Pow(2, 32 - s) * Pow(2, s) == B * l
  {
    hide Pow;
    Pow2Facts(s);
    MulAssoc(l, Pow(2, 32 - s), Pow(2, s));
  }

  /** What limb j holds once the first i limbs have been shifted down into place. */
  function ShrAt(a: seq<nat>, k: nat, s: nat, i: nat, j: nat): nat
    requires s <= 32 && i <= |a|
  {
    (if j + k < i then Above(a[j + k], s) else 0) + (if j + k + 1 < i then Low(a[j + k + 1], 32 - s) else 0)
  }

  lemma DownPieces(x: nat, y: nat, s: nat)
    requires s <= 32 && x < B && y < B
    ensures Or(Above(x, s), Low(y, 32 - s)) == Above(x, s) + Low(y, 32 - s) < B
    ensures s == 0 ==> Low(y, 32 - s) == 0
  {
    hide Pow, Or;
    PiecesFit(y, x, 32 - s);
    LowHigh(y, 32 - s);
    AboveParts(y, s);
    TwoTo32();
  }

  lemma ShrLimbs(a: seq<nat>, k: nat, s: nat, r: seq<nat>)
    requires s <= 32 && AreLimbs(a) && |r| == |a|
    requires forall j :: 0 <= j < |r| ==> r[j] == ShrAt(a, k, s, |a|, j)
    ensures AreLimbs(r)
  {
    hide Low, Above;
    forall j | 0 <= j < |r|
      ensures r[j] < B
    {
      DownPieces(if j + k < |a| then a[j + k] else 0, if j + k + 1 < |a| then a[j + k + 1] else 0, s);
    }
  }

  /** Limbs each holding the pieces shifted down: the value divided by 2^(32k + s). */
  lemma ShrVal(a: seq<nat>, k: nat, s: nat, r: seq<nat>)
    requires s <= 32 && AreLimbs(a) && |r| == |a|
    requires forall j :: 0 <= j < |r| ==> r[j] == ShrAt(a, k, s, |a|, j)
    ensures Pow(2, 32 * k + s) > 0 && Val(r) == Val(a) / Pow(2, 32 * k + s)
  {
    hide Low, Above, LowBits, Pow, Val, AreLimbs, FirstBits;
    PowPositive(2, 32 * k + s);
    PowAdd(2, 32 * k, s);
    LimbPow(k);
    Pow2Facts(s);
    if k >= |a| {
      ValAllZero(r);
      ValBound(a);
      PowMono(B, |a|, k);
      PowPositive(B, k);
      MulMono(1, Pow(2, s), Pow(B, k));
      RemainderOf(Val(a), Pow(2, 32 * k + s), 0, Val(a));
    } else {
      ShrSome(a, k, s, r);
    }
  }

  lemma ShrSome(a: seq<nat>, k: nat, s: nat, r: seq<nat>)
    requires s <= 32 && AreLimbs(a) && |r| == |a| && k < |a|
    requires forall j :: 0 <= j < |r| ==> r[j] == ShrAt(a, k, s, |a|, j)
    ensures Pow(2, 32 * k + s) > 0 && Val(r) == Val(a) / Pow(2, 32 * k + s)
  {
    hide Low, Above, LowBits, Pow, Val, FirstBits;
    PowPositive(2, 32 * k + s);
    var high := a[k..];
    var down := Down(high, s);
    DownAt(high, s, 0);
    forall j | 0 <= j < |r|
      ensures r[j] == if j < |down| then down[j] else 0
    {
      if j < |down| {
        DownAt(high, s, j);
      }
    }
    assert r[..|down|] == down;
    ValSplit(r, |down|);
    ValAllZero(r[|down|..]);
    ValSplit(a, k);
    ValBound(a[..k]);
    DownVal(high, s);
    LimbPow(k);
    PowAdd(2, 32 * k, s);
    Recombine(Val(a[..k]), Pow(B, k), Val(down), Pow(2, s), FirstBits(high, s));
    RemainderOf(Val(a), Pow(2, 32 * k + s), Val(down), Val(a[..k]) + Pow(B, k) * FirstBits(high, s));
  }

  lemma Recombine(lo: nat, p: nat, q: nat, t: nat, r: nat)
    requires lo < p && r < t
    ensures lo + p * (q * t + r) == (lo + p * r) + (p * t) * q
    ensures lo + p * r < p * t
  {
    assert p * (q * t + r) == p * (q * t) + p * r;
    MulAssoc(p, t, q);
    MulMono(r + 1, t, p);
  }

  // ---------------------------------------------------------------------
  // Carries

  lemma ValSnoc(s: seq<nat>, i: nat)
    requires i < |s|
    ensures Val(s[..i + 1]) == Val(s[..i]) + Pow(B, i) * s[i]
  {
    ValSplit(s[..i + 1], i);
    assert s[..i + 1][..i] == s[..i];
    assert s[..i + 1][i..] == [s[i]];
    assert Val([s[i]]) == s[i] + B * Val([]);
  }

  /** One column: n is split into the limb that stays and the carry that goes on. */
  lemma Column(n: nat, p: nat)
    ensures p * n == p * (n % B) + (n / B) * (B * p)
  {
    DivModOf(n, B);
    var q, r := n / B, n % B;
    calc {
      p * n;
      p * (q * B + r);
      p * (q * B) + p * r;
      { assert p * (q * B) == q * (B * p); }
      p * r + q * (B * p);
    }
  }

  // ---------------------------------------------------------------------
  // Comparison

  lemma ValLess(a: seq<nat>, b: seq<nat>, i: nat)
    requires AreLimbs(a) && AreLimbs(b) && |a| == |b| && i < |a|
    requires a[i + 1..] == b[i + 1..] && a[i] < b[i]
    ensures Val(a) < Val(b)
  {
    hide Pow;
    ValSplit(a, i);
    ValSplit(b, i);
    ValBound(a[..i]);
    assert a[i..][1..] == a[i + 1..] && b[i..][1..] == b[i + 1..];
    assert Val(a[i..]) < Val(b[i..]);
    hide Val;
    TopDecides(Val(a[..i]), Val(a[i..]), Val(b[i..]), Pow(B, i));
  }

  lemma TopDecides(lo: nat, u: nat, w: nat, p: nat)
    requires lo < p && u < w
    ensures lo + p * u < p * w
  {
    MulMono(u + 1, w, p);
  }

  /** The value of limbs of which pos is the highest that is not zero. */
  lemma TopLimb(a: seq<nat>, pos: nat)
    requires AreLimbs(a) && pos < |a| && forall j :: pos < j < |a| ==> a[j] == 0
    ensures Pow(B, pos) * a[pos] <= Val(a) < Pow(B, pos) * (a[pos] + 1)
  {
    hide Pow;
    ValSplit(a, pos);
    ValBound(a[..pos]);
    ValAllZero(a[pos + 1..]);
    assert a[pos..][1..] == a[pos + 1..];
    assert Val(a[pos..]) == a[pos];
    assert Pow(B, pos) * (a[pos] + 1) == Pow(B, pos) * a[pos] + Pow(B, pos);
  }

  // ---------------------------------------------------------------------
  // Setting one bit of a limb

  /** The bits up to and including number r of limb j, and all limbs below it, are zero. */
  ghost predicate BitsClear(q: seq<nat>, j: nat, r: nat) {
    j < |q| && (forall i :: 0 <= i < j ==> q[i] == 0) && exists m: nat :: IsTimes(q[j], m, r)
  }

  /** x is m times 2^(r + 1). */
  predicate IsTimes(x: nat, m: nat, r: nat) {
    x == m * Pow(2, r + 1)
  }

  /** Setting bit r of limb j where it and everything below is zero adds 2^(32j + r). */
  lemma SetBit(q: seq<nat>, j: nat, r: nat)
    requires AreLimbs(q) && BitsClear(q, j, r) && r < 32
    ensures var q' := q[j := Or(q[j], Pow(2, r))]; AreLimbs(q') && Val(q') == Val(q) + Pow(2, 32 * j + r)
    ensures var q' := q[j := Or(q[j], Pow(2, r))]; q'[j] == q[j] + Pow(2, r)
  {
    hide Or, Val;
    var m: nat :| IsTimes(q[j], m, r);
    OneBit(m, r);
    BitFits(m, r);
    hide Pow, IsTimes;
    ValUpdate(q, j, q[j] + Pow(2, r));
    LimbPow(j);
    PowAdd(2, 32 * j, r);
    SplitProduct(q[j], Pow(2, r), Pow(B, j));
  }

  lemma SplitProduct(x: nat, y: nat, p: nat)
    ensures (x + y) * p == x * p + p * y
  {
  }

  lemma OneBit(m: nat, r: nat)
    ensures Or(m * Pow(2, r + 1), Pow(2, r)) == m * Pow(2, r + 1) + Pow(2, r)
  {
    hide Pow, Or;
    PowStep(2, r);
    PowPositive(2, r);
    OrDisjoint(Pow(2, r), m, r + 1);
  }

  lemma BitFits(m: nat, r: nat)
    requires r < 32 && m * Pow(2, r + 1) < B
    ensures m * Pow(2, r + 1) + Pow(2, r) < B
  {
    hide Pow;
    Pow2Facts(r + 1);
    PowStep(2, r);
    var p, q := Pow(2, r + 1), Pow(2, 31 - r);
    if m >= q {
      MulMono(q, m, p);
    }
    MulMono(m + 1, q, p);
    assert (m + 1) * p == m * p + p && q * p == p * q;
  }

  lemma ClearBelow(q: seq<nat>, j: nat, r: nat, q': seq<nat>)
    requires BitsClear(q, j, r) && r < 32 && |q'| == |q|
    requires q' == q || q' == q[j := q[j] + Pow(2, r)]
    ensures r > 0 ==> BitsClear(q', j, r - 1)
    ensures r == 0 && j > 0 ==> BitsClear(q', j - 1, 31)
  {
    hide Pow;
    PowStep(2, r);
    if r > 0 {
      var m: nat :| IsTimes(q[j], m, r);
      assert m * Pow(2, r + 1) == (2 * m) * Pow(2, r);
      assert (2 * m + 1) * Pow(2, r) == (2 * m) * Pow(2, r) + Pow(2, r);
      if q' == q {
        assert IsTimes(q'[j], 2 * m, r - 1);
      } else {
        assert IsTimes(q'[j], 2 * m + 1, r - 1);
      }
    } else if j > 0 {
      assert IsTimes(q'[j - 1], 0, 31);
    }
  }
}
