/** Selections from a pool of candidate inputs as vectors of include/omit decisions, the sums over
    them, and the order in which a depth-first search meets them. */
module Selection {
  import opened CashTypes
  import opened Options

  /** A candidate input. */
  datatype InputCash = InputCash(outpoint: OutPoint, value: int, effectiveValue: int, fee: int, longTermFee: int) {
    function Waste(): int {
      fee - longTermFee
    }
  }

  type Pool = seq<InputCash>

  /** Decisions about the first inputs of a pool: true includes, false omits. */
  type Choice = seq<bool>

  /** What an input contributes to a sum. */
  datatype Measure = EffectiveValue | Waste | Value

  function Weight(u: InputCash, m: Measure): int {
    match m
    case EffectiveValue => u.effectiveValue
    case Waste => u.Waste()
    case Value => u.value
  }

  function Sum(pool: Pool, m: Measure, c: Choice): int
    requires |c| <= |pool|
  {
    if c == [] then 0
    else
      var k := |c| - 1;
      Sum(pool, m, c[..k]) + if c[k] then Weight(pool[k], m) else 0
  }

  /** The sum over all inputs from position `k` on. */
  function Tail(pool: Pool, m: Measure, k: nat): int
    requires k <= |pool|
    decreases |pool| - k
  {
    if k == |pool| then 0 else Weight(pool[k], m) + Tail(pool, m, k + 1)
  }

  predicate Extends(c: Choice, s: Choice) {
    |s| <= |c| && c[..|s|] == s
  }

  lemma SumSnoc(pool: Pool, m: Measure, s: Choice, b: bool)
    requires |s| < |pool|
    ensures Sum(pool, m, s + [b]) == Sum(pool, m, s) + if b then Weight(pool[|s|], m) else 0
  {
    assert (s + [b])[..|s|] == s;
  }

  predicate NonNegativeFrom(pool: Pool, m: Measure, k: nat) {
    forall i :: k <= i < |pool| ==> Weight(pool[i], m) >= 0
  }

  /** Completing a selection adds at least nothing and at most everything that is left. */
  lemma {:induction false} ExtensionBounds(pool: Pool, m: Measure, s: Choice, c: Choice)
    requires |c| <= |pool| && Extends(c, s) && NonNegativeFrom(pool, m, |s|)
    ensures Sum(pool, m, s) <= Sum(pool, m, c) <= Sum(pool, m, s) + Tail(pool, m, |s|) - Tail(pool, m, |c|)
    decreases |c|
  {
    if |c| == |s| {
      assert c == s;
    } else {
      var k := |c| - 1;
      ExtensionBounds(pool, m, s, c[..k]);
    }
  }

  /** Spending an extra input costs its fee surplus and all of its value: never a gain if every input is
      worth its long-term fee. */
  lemma {:induction false} ExtensionCost(pool: Pool, s: Choice, c: Choice)
    requires |c| <= |pool| && Extends(c, s)
    requires forall i :: |s| <= i < |pool| ==> pool[i].effectiveValue + pool[i].Waste() >= 0
    ensures Sum(pool, Measure.Waste, s) + Sum(pool, EffectiveValue, s)
         <= Sum(pool, Measure.Waste, c) + Sum(pool, EffectiveValue, c)
    decreases |c|
  {
    if |c| == |s| {
      assert c == s;
    } else {
      ExtensionCost(pool, s, c[..|c| - 1]);
    }
  }

  lemma {:induction false} SumUpdate(pool: Pool, m: Measure, c: Choice, i: nat, b: bool)
    requires i < |c| <= |pool|
    ensures Sum(pool, m, c[i := b])
         == Sum(pool, m, c) + (if b then Weight(pool[i], m) else 0) - (if c[i] then Weight(pool[i], m) else 0)
    decreases |c|
  {
    var k := |c| - 1;
    if i == k {
      assert c[i := b][..k] == c[..k];
    } else {
      SumUpdate(pool, m, c[..k], i, b);
      assert c[i := b][..k] == c[..k][i := b];
    }
  }

  /** The selection padded with omissions. */
  function Padded(s: Choice, n: nat): (r: Choice)
    requires |s| <= n
    ensures |r| == n && Extends(r, s)
  {
    s + seq(n - |s|, _ => false)
  }

  lemma {:induction false} SumPadded(pool: Pool, m: Measure, s: Choice, n: nat)
    requires |s| <= n <= |pool|
    ensures Sum(pool, m, Padded(s, n)) == Sum(pool, m, s)
    decreases n
  {
    if n == |s| {
      assert Padded(s, n) == s;
    } else {
      SumPadded(pool, m, s, n - 1);
      assert Padded(s, n)[..n - 1] == Padded(s, n - 1);
    }
  }

  // ---------------------------------------------------------------------
  // Depth-first order, inclusion before omission

  /** The complete selection `c` lies in a branch that is left of node `s`. */
  ghost predicate Before(c: Choice, s: Choice)
    requires |s| <= |c|
  {
    s != [] &&
    var k := |s| - 1;
    Before(c, s[..k]) || (c[..k] == s[..k] && c[k] && !s[k])
  }

  lemma BeforeSnoc(c: Choice, s: Choice, b: bool)
    requires |s| < |c|
    ensures Before(c, s + [b]) <==> Before(c, s) || (Extends(c, s) && c[|s|] && !b)
  {
    assert (s + [b])[..|s|] == s;
  }

  lemma ExtendsSnoc(c: Choice, s: Choice, b: bool)
    requires |s| < |c|
    ensures Extends(c, s + [b]) <==> Extends(c, s) && c[|s|] == b
  {
    assert c[..|s| + 1] == c[..|s|] + [c[|s|]];
    if Extends(c, s + [b]) {
      assert c[..|s|] == (s + [b])[..|s|] == s;
    }
  }

  /** Nodes of a complete binary decision tree of the given depth. */
  function TreeSize(depth: nat): nat {
    if depth == 0 then 1 else 1 + 2 * TreeSize(depth - 1)
  }

  /** What is left of a node stays left of the nodes below it. */
  lemma {:induction false} BeforeBelow(c: Choice, s: Choice, k: nat)
    requires k <= |s| <= |c| && Before(c, s[..k])
    ensures Before(c, s)
    decreases |s|
  {
    if k == |s| {
      assert s[..k] == s;
    } else {
      assert s[..|s| - 1][..k] == s[..k];
      BeforeBelow(c, s[..|s| - 1], k);
    }
  }

  // ---------------------------------------------------------------------
  // Rearranged pools

  function Total(pool: Pool, m: Measure): int {
    if pool == [] then 0 else Total(pool[..|pool| - 1], m) + Weight(pool[|pool| - 1], m)
  }

  lemma {:induction false} TotalConcat(a: Pool, b: Pool, m: Measure)
    ensures Total(a + b, m) == Total(a, m) + Total(b, m)
    decreases |b|
  {
    if b == [] {
      assert a + b == a;
    } else {
      TotalConcat(a, b[..|b| - 1], m);
      assert (a + b)[..|a + b| - 1] == a + b[..|b| - 1];
    }
  }

  function Without(pool: Pool, k: nat): Pool
    requires k < |pool|
  {
    pool[..k] + pool[k + 1..]
  }

  lemma TotalOne(u: InputCash, m: Measure)
    ensures Total([u], m) == Weight(u, m)
  {
    assert [u][..0] == [];
  }

  lemma RemoveOne(pool: Pool, k: nat, m: Measure)
    requires k < |pool|
    ensures multiset(Without(pool, k)) == multiset(pool) - multiset{pool[k]}
    ensures Total(pool, m) == Total(Without(pool, k), m) + Weight(pool[k], m)
  {
    var left, right := pool[..k], pool[k + 1..];
    assert pool == left + ([pool[k]] + right);
    TotalConcat(left, right, m);
    TotalConcat(left, [pool[k]] + right, m);
    TotalConcat([pool[k]], right, m);
    TotalOne(pool[k], m);
  }

  lemma {:induction false} TotalPermuted(a: Pool, b: Pool, m: Measure)
    requires multiset(a) == multiset(b)
    ensures Total(a, m) == Total(b, m)
    decreases |a|
  {
    assert |a| == |multiset(a)| == |b|;
    if a != [] {
      SameMembers(a, b);
      assert a[0] in b;
      var k :| 0 <= k < |b| && b[k] == a[0];
      RemoveOne(a, 0, m);
      RemoveOne(b, k, m);
      TotalPermuted(Without(a, 0), Without(b, k), m);
    }
  }

  lemma {:induction false} TailIsTotal(pool: Pool, m: Measure, k: nat)
    requires k <= |pool|
    ensures Tail(pool, m, k) == Total(pool[k..], m)
    decreases |pool| - k
  {
    if k < |pool| {
      TailIsTotal(pool, m, k + 1);
      assert pool[k..] == [pool[k]] + pool[k + 1..];
      TotalConcat([pool[k]], pool[k + 1..], m);
      TotalOne(pool[k], m);
    }
  }

  lemma SameTail(a: Pool, b: Pool, m: Measure)
    requires multiset(a) == multiset(b)
    ensures Tail(a, m, 0) == Tail(b, m, 0)
  {
    TotalPermuted(a, b, m);
    TailIsTotal(a, m, 0);
    TailIsTotal(b, m, 0);
    assert a[0..] == a && b[0..] == b;
  }

  lemma SameMembers(a: Pool, b: Pool)
    requires multiset(a) == multiset(b)
    ensures forall u :: u in a <==> u in b
  {
    assert forall u :: u in a <==> u in multiset(a);
    assert forall u :: u in b <==> u in multiset(b);
  }

  /** No two places of the pool hold the same outpoint. */
  ghost predicate DistinctOutpoints(pool: Pool) {
    forall i, j :: 0 <= i < j < |pool| ==> pool[i].outpoint != pool[j].outpoint
  }

  lemma TwiceIn(pool: Pool, i: nat, j: nat)
    requires i < j < |pool| && pool[i] == pool[j]
    ensures multiset(pool)[pool[i]] >= 2
  {
    assert pool == pool[..i] + ([pool[i]] + (pool[i + 1..j] + ([pool[j]] + pool[j + 1..])));
  }

  lemma {:induction false} OnceIn(pool: Pool, u: InputCash)
    requires DistinctOutpoints(pool)
    ensures multiset(pool)[u] <= 1
    decreases |pool|
  {
    if pool != [] {
      var n := |pool| - 1;
      assert pool == pool[..n] + [pool[n]];
      OnceIn(pool[..n], u);
      assert pool[n] == u ==> u !in pool[..n];
    }
  }

  lemma PartIsIn(pool: Pool, part: Pool, u: InputCash)
    requires multiset(part) <= multiset(pool) && u in part
    ensures u in pool
  {
    assert u in multiset(part);
    assert u in multiset(pool);
  }

  lemma DistinctPart(pool: Pool, part: Pool)
    requires multiset(part) <= multiset(pool) && DistinctOutpoints(pool)
    ensures DistinctOutpoints(part)
  {
    forall i, j | 0 <= i < j < |part|
      ensures part[i].outpoint != part[j].outpoint
    {
      if part[i] == part[j] {
        TwiceIn(part, i, j);
        OnceIn(pool, part[i]);
      } else {
        PartIsIn(pool, part, part[i]);
        PartIsIn(pool, part, part[j]);
      }
    }
  }

  predicate Descending(pool: Pool) {
    forall i, j :: 0 <= i < j < |pool| ==> pool[i].effectiveValue >= pool[j].effectiveValue
  }

  /** Leaving out one of the largest inputs of a descending pool. */
  lemma WithoutLargest(b: Pool, k: nat)
    requires Descending(b) && k < |b| && b[k].effectiveValue == b[0].effectiveValue
    ensures Descending(Without(b, k))
    ensures forall i :: 0 <= i < |b| - 1 ==> Without(b, k)[i].effectiveValue == b[i + 1].effectiveValue
  {
    var r := Without(b, k);
    assert forall i :: 0 <= i < |r| ==> r[i] == b[if i < k then i else i + 1];
  }

  /** Two descending arrangements of the same inputs show the same values. */
  lemma {:induction false} SameValues(a: Pool, b: Pool)
    requires Descending(a) && Descending(b) && multiset(a) == multiset(b)
    ensures |a| == |b| && forall i :: 0 <= i < |a| ==> a[i].effectiveValue == b[i].effectiveValue
    decreases |a|
  {
    assert |a| == |multiset(a)| == |b|;
    if a != [] {
      SameMembers(a, b);
      assert a[0] in b && b[0] in a;
      var k :| 0 <= k < |b| && b[k] == a[0];
      WithoutLargest(a, 0);
      WithoutLargest(b, k);
      RemoveOne(a, 0, EffectiveValue);
      RemoveOne(b, k, EffectiveValue);
      hide Without, Descending;
      SameValues(Without(a, 0), Without(b, k));
      forall i | 0 < i < |a|
        ensures a[i].effectiveValue == b[i].effectiveValue
      {
        assert Without(a, 0)[i - 1].effectiveValue == Without(b, k)[i - 1].effectiveValue;
      }
    }
  }

  /** Where a value belongs in a descending pool. */
  function Position(pool: Pool, v: int): (k: nat)
    ensures k <= |pool|
    ensures forall i :: 0 <= i < k ==> pool[i].effectiveValue >= v
    ensures k < |pool| ==> pool[k].effectiveValue < v
    decreases |pool|
  {
    if pool == [] then 0
    else
      var n := |pool| - 1;
      var k := Position(pool[..n], v);
      if k < n then k else if pool[n].effectiveValue < v then n else n + 1
  }

  function Inserted(pool: Pool, u: InputCash): Pool {
    var k := Position(pool, u.effectiveValue);
    pool[..k] + [u] + pool[k..]
  }

  lemma InsertedOrder(pool: Pool, u: InputCash)
    requires Descending(pool)
    ensures Descending(Inserted(pool, u))
  {
    var r, k := Inserted(pool, u), Position(pool, u.effectiveValue);
    assert forall i :: 0 <= i < |r| ==> r[i] == if i < k then pool[i] else if i == k then u else pool[i - 1];
    assert forall i :: k <= i < |pool| ==> pool[i].effectiveValue <= pool[k].effectiveValue;
  }

  lemma InsertedMembers(pool: Pool, u: InputCash)
    ensures multiset(Inserted(pool, u)) == multiset(pool) + multiset{u}
  {
    var k := Position(pool, u.effectiveValue);
    assert pool == pool[..k] + pool[k..];
  }

  /** Stands for the library sort; the order among equal values is not promised. */
  method SortDescending(pool: Pool) returns (r: Pool)
    ensures multiset(r) == multiset(pool) && |r| == |pool| && Descending(r)
  {
    r := [];
    for i := 0 to |pool|
      invariant multiset(r) == multiset(pool[..i]) && Descending(r)
    {
      InsertedOrder(r, pool[i]);
      InsertedMembers(r, pool[i]);
      r := Inserted(r, pool[i]);
      assert pool[..i + 1] == pool[..i] + [pool[i]];
    }
    assert pool[..|pool|] == pool;
    assert |r| == |multiset(r)| == |pool|;
  }

  /** The inputs a selection includes. */
  function Chosen(pool: Pool, c: Choice): set<InputCash>
    requires |c| <= |pool|
  {
    set i | 0 <= i < |c| && c[i] :: pool[i]
  }

  /** Insertion into a set ordered by outpoint: a second input for the same outpoint is dropped. */
  function InsertInput(s: set<InputCash>, u: InputCash): set<InputCash> {
    if exists v :: v in s && v.outpoint == u.outpoint then s else s + {u}
  }

  method Collect(pool: Pool, best: Choice) returns (outSet: set<InputCash>, valueRet: int)
    requires |best| == |pool|
    ensures valueRet == Sum(pool, Value, best)
    ensures DistinctOutpoints(pool) ==> outSet == Chosen(pool, best)
  {
    outSet, valueRet := {}, 0;
    for i := 0 to |best|
      invariant valueRet == Sum(pool, Value, best[..i])
      invariant DistinctOutpoints(pool) ==> outSet == Chosen(pool, best[..i])
    {
      assert best[..i + 1] == best[..i] + [best[i]];
      SumSnoc(pool, Value, best[..i], best[i]);
      if best[i] {
        outSet := InsertInput(outSet, pool[i]);
        valueRet := valueRet + pool[i].value;
      }
    }
    assert best[..|best|] == best;
  }
}
