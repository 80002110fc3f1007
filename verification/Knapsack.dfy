/** The stochastic fallback selection, for every outcome of its random choices. */
module Knapsack {
  import opened CashTypes
  import opened Options
  import opened Selection

  const MIN_CHANGE: int := 1000000

  /** Random rearrangement by swaps. */
  method Shuffle(pool: Pool) returns (r: Pool)
    ensures multiset(r) == multiset(pool)
  {
    r := pool;
    for i := 0 to |pool|
      invariant |r| == |pool| && multiset(r) == multiset(pool)
    {
      var j :| 0 <= j <= i;
      r := r[i := r[j]][j := r[i]];
    }
  }

  ghost predicate PositiveValues(pool: Pool) {
    forall u :: u in pool ==> u.value > 0
  }

  /** A selection that reaches the target, with its true sum. */
  ghost predicate Reaches(values: Pool, target: int, c: Choice, total: int) {
    |c| == |values| && total == Sum(values, Value, c) && target <= total
  }

  /** Without one of its inputs the selection would miss the target. */
  ghost predicate Tight(values: Pool, target: int, c: Choice, total: int) {
    exists i :: 0 <= i < |c| && i < |values| && c[i] && total - values[i].value < target
  }

  /** The best so far is everything, or tight. */
  ghost predicate Promising(values: Pool, target: int, c: Choice, total: int) {
    PositiveValues(values) && 0 < target && (c == AllIn(|values|) || Tight(values, target, c, total))
  }

  /** One pass over the inputs, putting in those drawn or all that are not in yet, each taken out again if the
      target is reached. */
  method Pass(values: Pool, totalLower: int, target: int, first: bool, included0: Choice, total0: int, vfBest0: Choice,
              nBest0: int)
    returns (included: Choice, total: int, reached: bool, vfBest: Choice, nBest: int)
    requires totalLower == Sum(values, Value, AllIn(|values|)) && Reaches(values, target, vfBest0, nBest0)
    requires |included0| == |values| && total0 == Sum(values, Value, included0)
    requires first ==> forall k :: 0 <= k < |included0| ==> !included0[k]
    ensures |included| == |values| && total == Sum(values, Value, included)
    ensures Reaches(values, target, vfBest, nBest) && nBest <= nBest0
    ensures !reached ==> vfBest == vfBest0 && nBest == nBest0
    ensures !first && !reached ==> included == AllIn(|values|)
    ensures Promising(values, target, vfBest0, nBest0) && total0 < target ==>
      total < target && (reached ==> Tight(values, target, vfBest, nBest))
  {
    hide Tight, PositiveValues, Promising;
    included, total, reached, vfBest, nBest := included0, total0, false, vfBest0, nBest0;
    ghost var good := Promising(values, target, vfBest0, nBest0) && total0 < target;
    for i := 0 to |values|
      invariant |included| == |values| && total == Sum(values, Value, included)
      invariant first ==> forall k :: i <= k < |included| ==> !included[k]
      invariant Reaches(values, target, vfBest, nBest) && nBest <= nBest0
      invariant good ==> total < target && (reached ==> Tight(values, target, vfBest, nBest))
      invariant !reached ==> vfBest == vfBest0 && nBest == nBest0
      invariant !first && !reached ==> forall k :: 0 <= k < i ==> included[k]
    {
      var draw: bool := *;
      if (if first then draw else !included[i]) {
        SumUpdate(values, Value, included, i, true);
        assert included[i := true][i := false] == included;
        total := total + values[i].value;
        included := included[i := true];
        if total >= target {
          if good {
            TightNow(values, totalLower, target, included, total, vfBest, nBest, i, reached, vfBest0, nBest0);
          }
          reached := true;
          if total < nBest {
            nBest := total;
            vfBest := included;
          }
          total := total - values[i].value;
          included := included[i := false];
        }
      }
    }
  }

  /** One repetition: inputs are put in at random, and if that does not reach the target then all the others. If
      everything was best before, or the best was tight, the best is tight now. */
  method FillOnce(values: Pool, totalLower: int, target: int, vfBest0: Choice, nBest0: int)
    returns (vfBest: Choice, nBest: int)
    requires totalLower == Sum(values, Value, AllIn(|values|)) && target <= totalLower
    requires Reaches(values, target, vfBest0, nBest0)
    ensures Reaches(values, target, vfBest, nBest) && nBest <= nBest0
    ensures Promising(values, target, vfBest0, nBest0) ==> Tight(values, target, vfBest, nBest)
  {
    hide Tight, Promising, Sum;
    if Promising(values, target, vfBest0, nBest0) {
      PromisingTarget(values, target, vfBest0, nBest0);
    }
    SumPadded(values, Value, [], |values|);
    SumNone(values);
    var included, total, reached := Padded([], |values|), 0, false;
    included, total, reached, vfBest, nBest := Pass(values, totalLower, target, true, included, total, vfBest0, nBest0);
    if !reached {
      included, total, reached, vfBest, nBest :=
        Pass(values, totalLower, target, false, included, total, vfBest, nBest);
    }
  }

  lemma PromisingTarget(values: Pool, target: int, c: Choice, total: int)
    requires Promising(values, target, c, total)
    ensures target > 0
  {
  }

  lemma SumNone(values: Pool)
    ensures Sum(values, Value, []) == 0
  {
  }

  /** Repeated randomised greedy filling. Whatever is drawn, the answer is a selection that reaches the
      target, with its true sum; for positive amounts one of its inputs cannot be left out. */
  method ApproximateBestSubset(values: Pool, totalLower: int, target: int, iterations: nat)
    returns (vfBest: Choice, nBest: int)
    requires totalLower == Sum(values, Value, AllIn(|values|)) && target <= totalLower
    ensures |vfBest| == |values| && nBest == Sum(values, Value, vfBest)
    ensures target <= nBest <= totalLower
    ensures PositiveValues(values) && 0 < target && 0 < iterations ==> Tight(values, target, vfBest, nBest)
  {
    hide Tight, PositiveValues, Sum;
    vfBest, nBest := AllIn(|values|), totalLower;
    if PositiveValues(values) && 0 < target == nBest {
      ExactIsTight(values, target, vfBest);
    }
    var rep := 0;
    while rep < iterations && nBest != target
      invariant Reaches(values, target, vfBest, nBest) && nBest <= totalLower
      invariant rep == 0 ==> vfBest == AllIn(|values|)
      invariant PositiveValues(values) && 0 < target && (rep > 0 || nBest == target) ==>
        Tight(values, target, vfBest, nBest)
    {
      vfBest, nBest := FillOnce(values, totalLower, target, vfBest, nBest);
      rep := rep + 1;
    }
  }

  /** The moment the target is reached: the input just put in cannot be left out. */
  lemma TightNow(values: Pool, totalLower: int, target: int, included: Choice, total: int, vfBest: Choice, nBest: int,
                 i: nat, reached: bool, vfBest0: Choice, nBest0: int)
    requires totalLower == Sum(values, Value, AllIn(|values|)) && Promising(values, target, vfBest0, nBest0)
    requires Reaches(values, target, vfBest0, nBest0) && (!reached ==> vfBest == vfBest0 && nBest == nBest0)
    requires i < |included| == |values| && included[i] && total == Sum(values, Value, included)
    requires total - values[i].value < target
    requires reached ==> Tight(values, target, vfBest, nBest)
    ensures if total < nBest then Tight(values, target, included, total) else Tight(values, target, vfBest, nBest)
  {
    if total >= nBest && !Tight(values, target, vfBest, nBest) {
      AllIsMost(values, included);
    }
  }

  lemma AllIsMost(values: Pool, c: Choice)
    requires |c| == |values| && PositiveValues(values)
    ensures Sum(values, Value, c) <= Sum(values, Value, AllIn(|values|))
  {
    ExtensionBounds(values, Value, [], c);
    TailIsTotal(values, Value, 0);
    SumAllIn(values, Value, |values|);
    assert values[0..] == values == values[..|values|];
  }

  /** With nothing to spare every input is needed. */
  lemma ExactIsTight(values: Pool, target: int, c: Choice)
    requires PositiveValues(values) && 0 < target && c == AllIn(|values|) && Sum(values, Value, c) == target
    ensures Tight(values, target, c, target)
  {
    assert values != [];
    assert values[0] in values;
    assert c[0];
  }

  function AllIn(n: nat): Choice {
    seq(n, _ => true)
  }

  lemma {:induction false} SumAllIn(pool: Pool, m: Measure, n: nat)
    requires n <= |pool|
    ensures Sum(pool, m, AllIn(n)) == Total(pool[..n], m)
    decreases n
  {
    if n > 0 {
      SumAllIn(pool, m, n - 1);
      assert AllIn(n)[..n - 1] == AllIn(n - 1);
      assert pool[..n][..n - 1] == pool[..n - 1];
    }
  }

  /** The included inputs, in pool order. */
  function Picked(pool: Pool, c: Choice): Pool
    requires |c| <= |pool|
  {
    if c == [] then []
    else
      var k := |c| - 1;
      Picked(pool, c[..k]) + if c[k] then [pool[k]] else []
  }

  lemma {:induction false} PickedTotal(pool: Pool, c: Choice)
    requires |c| <= |pool|
    ensures Total(Picked(pool, c), Value) == Sum(pool, Value, c)
    decreases |c|
  {
    if c != [] {
      var k := |c| - 1;
      PickedTotal(pool, c[..k]);
      TotalConcat(Picked(pool, c[..k]), if c[k] then [pool[k]] else [], Value);
      TotalOne(pool[k], Value);
    }
  }

  lemma {:induction false} PickedPart(pool: Pool, c: Choice)
    requires |c| <= |pool|
    ensures multiset(Picked(pool, c)) <= multiset(pool[..|c|])
    decreases |c|
  {
    if c != [] {
      var k := |c| - 1;
      PickedPart(pool, c[..k]);
      var part := if c[k] then [pool[k]] else [];
      assert Picked(pool, c) == Picked(pool, c[..k]) + part;
      hide Picked;
      assert pool[..|c|] == pool[..k] + [pool[k]];
      assert multiset(part) <= multiset([pool[k]]);
    }
  }

  lemma {:induction false} PickedSet(pool: Pool, c: Choice)
    requires |c| <= |pool|
    ensures (set u | u in Picked(pool, c)) == Chosen(pool, c)
    decreases |c|
  {
    if c != [] {
      PickedSet(pool, c[..|c| - 1]);
      assert Chosen(pool, c) == Chosen(pool, c[..|c| - 1]) + if c[|c| - 1] then {pool[|c| - 1]} else {};
    }
  }

  /** Collects an included part of a pool that is itself part of the candidates. */
  method Take(pool: Pool, c: Choice, ghost pool0: Pool)
    returns (outSet: set<InputCash>, valueRet: int, ghost chosen: Pool)
    requires |c| == |pool| && multiset(pool) <= multiset(pool0)
    ensures multiset(chosen) <= multiset(pool0)
    ensures valueRet == Total(chosen, Value) == Sum(pool, Value, c)
    ensures DistinctOutpoints(pool0) ==> outSet == set u | u in chosen
    ensures forall i :: 0 <= i < |c| && c[i] ==> pool[i] in chosen
  {
    outSet, valueRet := Collect(pool, c);
    chosen := Picked(pool, c);
    PickedTotal(pool, c);
    PickedPart(pool, c);
    PickedSet(pool, c);
    assert forall i :: 0 <= i < |c| && c[i] ==> pool[i] in Chosen(pool, c);
    assert pool[..|c|] == pool;
    if DistinctOutpoints(pool0) {
      DistinctPart(pool0, pool);
    }
  }

  lemma {:induction false} PartNoMore(part: Pool, pool: Pool)
    requires multiset(part) <= multiset(pool) && PositiveValues(pool)
    ensures Total(part, Value) <= Total(pool, Value)
    decreases |pool|
  {
    if part == [] {
      TotalNonNegative(pool);
    } else {
      assert part[0] in multiset(part);
      assert part[0] in pool;
      var k :| 0 <= k < |pool| && pool[k] == part[0];
      RemoveOne(part, 0, Value);
      RemoveOne(pool, k, Value);
      PartNoMore(Without(part, 0), Without(pool, k));
    }
  }

  lemma {:induction false} TotalNonNegative(pool: Pool)
    requires PositiveValues(pool)
    ensures Total(pool, Value) >= 0
    decreases |pool|
  {
    if pool != [] {
      TotalNonNegative(pool[..|pool| - 1]);
      assert pool[|pool| - 1] in pool;
    }
  }

  /** Inputs seen so far, split into those below target plus minimum change and the larger ones. */
  ghost predicate Split(seen: Pool, lower: Pool, larger: Pool, lowest: Option<InputCash>, target: int) {
    && multiset(seen) == multiset(lower) + multiset(larger)
    && (forall u :: u in lower ==> u.value < target + MIN_CHANGE)
    && (forall u :: u in larger ==> u.value >= target + MIN_CHANGE)
    && (lowest.None? <==> larger == [])
    && (lowest.Some? ==> lowest.value in larger && forall u :: u in larger ==> lowest.value.value <= u.value)
  }

  lemma SplitLower(seen: Pool, lower: Pool, larger: Pool, lowest: Option<InputCash>, target: int, u: InputCash)
    requires Split(seen, lower, larger, lowest, target) && u.value < target + MIN_CHANGE
    ensures Split(seen + [u], lower + [u], larger, lowest, target)
  {
  }

  lemma SplitLarger(seen: Pool, lower: Pool, larger: Pool, lowest: Option<InputCash>, target: int, u: InputCash)
    requires Split(seen, lower, larger, lowest, target) && u.value >= target + MIN_CHANGE
    ensures Split(seen + [u], lower, larger + [u],
                  if lowest.None? || u.value < lowest.value.value then Some(u) else lowest, target)
  {
    var larger' := larger + [u];
    assert larger'[|larger|] == u;
    assert forall x :: x in larger' <==> x in larger || x == u;
  }

  /** No single input that reaches target plus minimum change would have been less. */
  ghost predicate NoCheaper(pool: Pool, target: int, value: int) {
    forall u :: u in pool && u.value >= target + MIN_CHANGE ==> value <= u.value
  }

  lemma LowestIsCheapest(pool: Pool, lower: Pool, larger: Pool, lowest: Option<InputCash>, target: int)
    requires Split(pool, lower, larger, lowest, target)
    ensures lowest.Some? ==> NoCheaper(pool, target, lowest.value.value)
    ensures lowest.None? ==> forall value :: NoCheaper(pool, target, value)
  {
    forall u | u in pool && u.value >= target + MIN_CHANGE
      ensures u in larger
    {
      assert u in multiset(pool);
      assert u !in lower;
      assert multiset(lower)[u] == 0;
      assert u in multiset(larger);
    }
  }

  lemma Cheaper(pool: Pool, target: int, value: int, less: int)
    requires NoCheaper(pool, target, value) && less <= value
    ensures NoCheaper(pool, target, less)
  {
  }

  lemma TargetCheapest(pool: Pool, target: int)
    ensures NoCheaper(pool, target, target)
  {
  }

  lemma Takes(u: InputCash, pool: Pool)
    requires u in pool
    ensures multiset([u]) <= multiset(pool) && Total([u], Value) == u.value
  {
    TotalOne(u, Value);
    assert u in multiset(pool);
  }

  /** One of the inputs cannot be left out without less than target and minimum change remaining. */
  ghost predicate Needed(chosen: Pool, target: int, value: int) {
    exists u :: u in chosen && value - u.value < target + MIN_CHANGE
  }

  lemma TightIsNeeded(values: Pool, target: int, c: Choice, value: int, chosen: Pool)
    requires |c| == |values| && (Tight(values, target, c, value) || Tight(values, target + MIN_CHANGE, c, value))
    requires forall i :: 0 <= i < |c| && c[i] ==> values[i] in chosen
    ensures Needed(chosen, target, value)
  {
  }

  lemma OneIsNeeded(u: InputCash, target: int)
    requires target > 0
    ensures Needed([u], target, u.value)
  {
    assert u in [u];
  }

  /** Succeeds exactly when the pool reaches the target (positive amounts), with inputs of the pool and
      their true sum. Change below the minimum is left only if the whole pool could not avoid it, and one of the
      inputs cannot be left out. */
  method KnapsackSolver(target: int, pool0: Pool)
    returns (ok: bool, outSet: set<InputCash>, valueRet: int, ghost chosen: Pool)
    ensures ok ==>
              && multiset(chosen) <= multiset(pool0)
              && valueRet == Total(chosen, Value) >= target
              && (DistinctOutpoints(pool0) ==> outSet == set u | u in chosen)
    ensures PositiveValues(pool0) ==> (ok <==> Total(pool0, Value) >= target)
    ensures PositiveValues(pool0) && ok && 0 < valueRet - target < MIN_CHANGE ==>
              Total(pool0, Value) < target + MIN_CHANGE
    ensures ok ==> NoCheaper(pool0, target, valueRet)
    ensures PositiveValues(pool0) && 0 < target && ok ==> Needed(chosen, target, valueRet)
  {
    hide Split, NoCheaper, Needed, Tight;
    var pool := Shuffle(pool0);
    SameMembers(pool0, pool);
    TargetCheapest(pool0, target);
    var exact, lower, totalLower, lowest, larger := Partition(target, pool);
    if exact.None? {
      SplitPermuted(pool, pool0, lower, larger, lowest, target);
      LowestIsCheapest(pool0, lower, larger, lowest, target);
      SplitParts(pool0, lower, larger, lowest, target);
    }
    if exact.Some? {
      ok, outSet, valueRet, chosen := true, {exact.value}, exact.value.value, [exact.value];
      Takes(exact.value, pool0);
      if target > 0 {
        OneIsNeeded(exact.value, target);
      }
    } else if totalLower == target {
      SumAllIn(lower, Value, |lower|);
      assert lower[..|lower|] == lower;
      outSet, valueRet, chosen := Take(lower, AllIn(|lower|), pool0);
      ok := true;
      if PositiveValues(pool0) && target > 0 {
        PositivePart(lower, pool0);
        ExactIsTight(lower, target, AllIn(|lower|));
        TightIsNeeded(lower, target, AllIn(|lower|), target, chosen);
      }
    } else if totalLower < target && lowest.None? {
      ok, outSet, valueRet, chosen := false, {}, 0, [];
      TotalPermuted(pool0, lower, Value);
    } else if totalLower < target {
      ok, outSet, valueRet, chosen := true, {lowest.value}, lowest.value.value, [lowest.value];
      Takes(lowest.value, pool0);
      if target > 0 {
        OneIsNeeded(lowest.value, target);
      }
    } else {
      outSet, valueRet, chosen := SolveSubset(target, lower, totalLower, lowest, larger, pool0);
      ok := true;
    }
    if ok && PositiveValues(pool0) {
      PartNoMore(chosen, pool0);
    }
  }

  lemma PositivePart(part: Pool, pool: Pool)
    requires multiset(part) <= multiset(pool) && PositiveValues(pool)
    ensures PositiveValues(part)
  {
    forall u | u in part
      ensures u.value > 0
    {
      PartIsIn(pool, part, u);
    }
  }

  lemma SplitNone(target: int)
    ensures Split([], [], [], None, target)
  {
  }

  lemma SplitPermuted(a: Pool, b: Pool, lower: Pool, larger: Pool, lowest: Option<InputCash>, target: int)
    requires Split(a, lower, larger, lowest, target) && multiset(a) == multiset(b)
    ensures Split(b, lower, larger, lowest, target)
  {
  }

  lemma SplitParts(pool: Pool, lower: Pool, larger: Pool, lowest: Option<InputCash>, target: int)
    requires Split(pool, lower, larger, lowest, target)
    ensures multiset(lower) <= multiset(pool)
    ensures lowest.None? ==> multiset(pool) == multiset(lower)
    ensures lowest.Some? ==> lowest.value in pool && lowest.value.value >= target + MIN_CHANGE
  {
    if lowest.Some? {
      assert lowest.value in multiset(larger);
      assert lowest.value in multiset(pool);
    }
  }

  /** One pass over the candidates: stops at an exact match, otherwise splits them and remembers the
      smallest of the larger ones. */
  method Partition(target: int, pool: Pool)
    returns (exact: Option<InputCash>, lower: Pool, totalLower: int, lowest: Option<InputCash>, ghost larger: Pool)
    ensures exact.Some? ==> exact.value in pool && exact.value.value == target
    ensures exact.None? ==> Split(pool, lower, larger, lowest, target) && totalLower == Total(lower, Value)
  {
    exact, lowest, lower, totalLower, larger := None, None, [], 0, [];
    SplitNone(target);
    hide Split;
    for i := 0 to |pool|
      invariant Split(pool[..i], lower, larger, lowest, target)
      invariant totalLower == Total(lower, Value)
    {
      var cash := pool[i];
      assert pool[..i + 1] == pool[..i] + [cash];
      if cash.value == target {
        return Some(cash), lower, totalLower, lowest, larger;
      } else if cash.value < target + MIN_CHANGE {
        TotalConcat(lower, [cash], Value);
        TotalOne(cash, Value);
        SplitLower(pool[..i], lower, larger, lowest, target, cash);
        lower := lower + [cash];
        totalLower := totalLower + cash.value;
      } else {
        SplitLarger(pool[..i], lower, larger, lowest, target, cash);
        larger := larger + [cash];
        if lowest.None? || cash.value < lowest.value.value {
          lowest := Some(cash);
        }
      }
    }
    assert pool[..|pool|] == pool;
  }

  /** The lower inputs exceed the target: approximate, then prefer the smallest larger input if the
      approximation leaves too little change or costs no less. */
  method SolveSubset(target: int, lower: Pool, totalLower: int, lowest: Option<InputCash>, ghost larger: Pool,
                     ghost pool0: Pool)
    returns (outSet: set<InputCash>, valueRet: int, ghost chosen: Pool)
    requires Split(pool0, lower, larger, lowest, target)
    requires totalLower == Total(lower, Value) > target
    ensures multiset(chosen) <= multiset(pool0)
    ensures valueRet == Total(chosen, Value) >= target
    ensures DistinctOutpoints(pool0) ==> outSet == set u | u in chosen
    ensures 0 < valueRet - target < MIN_CHANGE ==> Total(pool0, Value) < target + MIN_CHANGE
    ensures NoCheaper(pool0, target, valueRet)
    ensures PositiveValues(pool0) && 0 < target ==> Needed(chosen, target, valueRet)
  {
    SplitParts(pool0, lower, larger, lowest, target);
    LowestIsCheapest(pool0, lower, larger, lowest, target);
    hide Split, NoCheaper, Needed, Tight, PositiveValues;
    var values := SortDescending(lower);
    if PositiveValues(pool0) {
      PositivePart(values, pool0);
    }
    TotalPermuted(lower, values, Value);
    SumAllIn(values, Value, |values|);
    assert values[..|values|] == values;
    var vfBest, nBest := ApproximateBestSubset(values, totalLower, target, 1000);
    if nBest != target && totalLower >= target + MIN_CHANGE {
      vfBest, nBest := ApproximateBestSubset(values, totalLower, target + MIN_CHANGE, 1000);
    }
    if lowest.Some? && ((nBest != target && nBest < target + MIN_CHANGE) || lowest.value.value <= nBest) {
      outSet, valueRet, chosen := {lowest.value}, lowest.value.value, [lowest.value];
      Takes(lowest.value, pool0);
      if target > 0 {
        OneIsNeeded(lowest.value, target);
      }
    } else {
      outSet, valueRet, chosen := Take(values, vfBest, pool0);
      if PositiveValues(pool0) && target > 0 {
        TightIsNeeded(values, target, vfBest, nBest, chosen);
      }
      if lowest.None? {
        TotalPermuted(pool0, values, Value);
      } else {
        Cheaper(pool0, target, lowest.value.value, valueRet);
      }
    }
  }
}
