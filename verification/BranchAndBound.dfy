/** Branch-and-bound selection of inputs: a depth-first search over include/omit decisions with four
    pruning rules and running sums. */
module BranchAndBound {
  import opened CashTypes
  import opened Options
  import opened Selection

  const CASH: int := 100000000
  const MAX_MONEY: int := 20000000 * CASH
  const TOTAL_TRIES: nat := 100000

  // ---------------------------------------------------------------------
  // What the search looks for

  /** A complete selection whose effective value lies in the target range. */
  ghost predicate Fits(pool: Pool, target: int, costOfChange: int, c: Choice) {
    |c| == |pool| && target <= Sum(pool, EffectiveValue, c) <= target + costOfChange
  }

  /** The waste of a selection: fee surplus of its inputs plus its excess over the target. */
  function TotalWaste(pool: Pool, target: int, c: Choice): int
    requires |c| <= |pool|
  {
    Sum(pool, Measure.Waste, c) + Sum(pool, EffectiveValue, c) - target
  }

  /** Conditions on the fees under which every pruning rule is sound: each input is worth at least its
      long-term fee, fee surpluses do not change sign within the pool, and inputs alike in effective
      value and fee are alike in long-term fee. */
  ghost predicate FeesConsistent(pool: Pool) {
    && (forall u :: u in pool ==> u.effectiveValue + u.Waste() >= 0)
    && (forall u, v :: u in pool && v in pool && u.Waste() > 0 ==> v.Waste() >= 0)
    && (forall u, v :: u in pool && v in pool && u.effectiveValue == v.effectiveValue && u.fee == v.fee
          ==> u.longTermFee == v.longTermFee)
  }

  ghost predicate Positive(pool: Pool) {
    forall u :: u in pool ==> u.effectiveValue > 0
  }

  /** Running sums that agree with the selection they describe. */
  ghost predicate Accounted(pool: Pool, s: Choice, value: int, available: int, waste: int) {
    && |s| <= |pool|
    && value == Sum(pool, EffectiveValue, s)
    && available == Tail(pool, EffectiveValue, |s|)
    && waste == Sum(pool, Measure.Waste, s)
  }

  /** Every fitting selection left of `s` is at least as wasteful as the bar. */
  ghost predicate Settled(pool: Pool, target: int, costOfChange: int, s: Choice, bar: int)
    requires |s| <= |pool|
  {
    forall c :: Fits(pool, target, costOfChange, c) && Before(c, s) ==> bar <= TotalWaste(pool, target, c)
  }

  /** The same, for the branch of `s` as well. */
  ghost predicate SettledThrough(pool: Pool, target: int, costOfChange: int, s: Choice, bar: int)
    requires |s| <= |pool|
  {
    forall c :: Fits(pool, target, costOfChange, c) && (Before(c, s) || Extends(c, s))
                ==> bar <= TotalWaste(pool, target, c)
  }

  // ---------------------------------------------------------------------
  // The pruning rules

  /** Cutting off a branch that cannot reach the target, that overshoots the range, or that is already
      more wasteful than the best selection, loses nothing. */
  lemma CutLosesNothing(pool: Pool, target: int, costOfChange: int, s: Choice, bar: int)
    requires |s| <= |pool| && Positive(pool) && FeesConsistent(pool)
    requires Settled(pool, target, costOfChange, s, bar)
    requires
      || Sum(pool, EffectiveValue, s) + Tail(pool, EffectiveValue, |s|) < target
      || Sum(pool, EffectiveValue, s) > target + costOfChange
      || (Sum(pool, Measure.Waste, s) >= bar && |pool| > 0 && pool[0].Waste() > 0)
    ensures SettledThrough(pool, target, costOfChange, s, bar)
  {
    forall c | Fits(pool, target, costOfChange, c) && Extends(c, s)
      ensures bar <= TotalWaste(pool, target, c)
    {
      ExtensionBounds(pool, EffectiveValue, s, c);
      if Sum(pool, Measure.Waste, s) >= bar && |pool| > 0 && pool[0].Waste() > 0 {
        ExtensionBounds(pool, Measure.Waste, s, c);
      }
    }
  }

  /** Not adding inputs to a selection that already fits loses nothing once it has been compared. */
  lemma FitLosesNothing(pool: Pool, target: int, costOfChange: int, s: Choice, bar: int, bar': int)
    requires |s| <= |pool| && FeesConsistent(pool)
    requires Settled(pool, target, costOfChange, s, bar)
    requires bar' <= bar && bar' <= TotalWaste(pool, target, s)
    ensures SettledThrough(pool, target, costOfChange, s, bar')
  {
    forall c | Fits(pool, target, costOfChange, c) && Extends(c, s)
      ensures bar' <= TotalWaste(pool, target, c)
    {
      ExtensionCost(pool, s, c);
    }
  }

  /** Two selections that differ by exchanging two neighbours alike in value and waste are equivalent. */
  lemma ExchangeEqual(pool: Pool, m: Measure, c: Choice, k: nat)
    requires 1 <= k < |c| == |pool| && !c[k - 1] && c[k]
    requires Weight(pool[k - 1], m) == Weight(pool[k], m)
    ensures Sum(pool, m, c[k - 1 := true][k := false]) == Sum(pool, m, c)
  {
    SumUpdate(pool, m, c, k - 1, true);
    SumUpdate(pool, m, c[k - 1 := true], k, false);
  }

  /** Omitting an input whose equal predecessor was omitted loses nothing: including it instead would
      give a selection equivalent to one already met. */
  lemma SkipLosesNothing(pool: Pool, target: int, costOfChange: int, s: Choice, bar: int)
    requires 1 <= |s| < |pool| && FeesConsistent(pool)
    requires !s[|s| - 1]
    requires pool[|s|].effectiveValue == pool[|s| - 1].effectiveValue && pool[|s|].fee == pool[|s| - 1].fee
    requires Settled(pool, target, costOfChange, s, bar)
    ensures Settled(pool, target, costOfChange, s + [false], bar)
  {
    var k := |s|;
    forall c | Fits(pool, target, costOfChange, c) && Before(c, s + [false])
      ensures bar <= TotalWaste(pool, target, c)
    {
      BeforeSnoc(c, s, false);
      if !Before(c, s) {
        assert c[k - 1] == c[..k][k - 1] == s[k - 1];
        var c' := c[k - 1 := true][k := false];
        ExchangeEqual(pool, EffectiveValue, c, k);
        ExchangeEqual(pool, Measure.Waste, c, k);
        assert c'[..k - 1] == c[..k - 1] == c[..k][..k - 1] == s[..k - 1];
        assert Before(c', s);
      }
    }
  }

  lemma DescendKeeps(pool: Pool, target: int, costOfChange: int, s: Choice, bar: int)
    requires |s| < |pool| && Settled(pool, target, costOfChange, s, bar)
    ensures Settled(pool, target, costOfChange, s + [true], bar)
  {
    forall c | Fits(pool, target, costOfChange, c) && Before(c, s + [true])
      ensures bar <= TotalWaste(pool, target, c)
    {
      BeforeSnoc(c, s, true);
    }
  }

  lemma PopKeeps(pool: Pool, target: int, costOfChange: int, s: Choice, bar: int)
    requires |s| < |pool| && SettledThrough(pool, target, costOfChange, s + [false], bar)
    ensures SettledThrough(pool, target, costOfChange, s, bar)
  {
    forall c | Fits(pool, target, costOfChange, c) && (Before(c, s) || Extends(c, s))
      ensures bar <= TotalWaste(pool, target, c)
    {
      BeforeSnoc(c, s, false);
      ExtendsSnoc(c, s, false);
    }
  }

  lemma FlipKeeps(pool: Pool, target: int, costOfChange: int, s: Choice, bar: int)
    requires |s| < |pool| && SettledThrough(pool, target, costOfChange, s + [true], bar)
    ensures Settled(pool, target, costOfChange, s + [false], bar)
  {
    forall c | Fits(pool, target, costOfChange, c) && Before(c, s + [false])
      ensures bar <= TotalWaste(pool, target, c)
    {
      BeforeSnoc(c, s, false);
      BeforeSnoc(c, s, true);
      ExtendsSnoc(c, s, true);
    }
  }

  // ---------------------------------------------------------------------
  // How far the search gets

  /** The search goes no deeper: the target is out of reach, passed or met. */
  predicate Stops(pool: Pool, target: int, costOfChange: int, s: Choice)
    requires |s| <= |pool|
  {
    var value := Sum(pool, EffectiveValue, s);
    value + Tail(pool, EffectiveValue, |s|) < target || value > target + costOfChange || value >= target
  }

  /** The next input is like its predecessor, which was omitted. */
  predicate Skips(pool: Pool, s: Choice) {
    && 1 <= |s| < |pool| && !s[|s| - 1]
    && pool[|s|].effectiveValue == pool[|s| - 1].effectiveValue && pool[|s|].fee == pool[|s| - 1].fee
  }

  /** Nodes of the branch of `s` that have to be visited. */
  function Nodes(pool: Pool, target: int, costOfChange: int, s: Choice): (n: nat)
    requires |s| <= |pool|
    ensures 1 <= n <= TreeSize(|pool| - |s|)
    decreases |pool| - |s|
  {
    if |s| == |pool| || Stops(pool, target, costOfChange, s) then 1
    else
      1 + Nodes(pool, target, costOfChange, s + [false]) +
      if Skips(pool, s) then 0 else Nodes(pool, target, costOfChange, s + [true])
  }

  /** Nodes to be visited once the branch of `s` is done. */
  function Later(pool: Pool, target: int, costOfChange: int, s: Choice): nat
    requires |s| <= |pool|
  {
    if s == [] then 0
    else
      var p := s[..|s| - 1];
      Later(pool, target, costOfChange, p) + if s[|s| - 1] then Nodes(pool, target, costOfChange, p + [false]) else 0
  }

  /** Nodes to be visited in the branch of `s` until the selection `c` is settled: met, cut off with a stop above
      it, or passed over for its equal. */
  function Until(pool: Pool, target: int, costOfChange: int, s: Choice, c: Choice): (n: nat)
    requires |c| == |pool| && |s| <= |pool|
    ensures n >= 1
    decreases |pool| - |s|
  {
    if |s| == |pool| || Stops(pool, target, costOfChange, s) || (Skips(pool, s) && c[|s|]) then 1
    else if c[|s|] then 1 + Until(pool, target, costOfChange, s + [true], c)
    else
      1 + Until(pool, target, costOfChange, s + [false], c) +
      if Skips(pool, s) then 0 else Nodes(pool, target, costOfChange, s + [true])
  }

  /** A node that the rules lead to. */
  ghost predicate Live(pool: Pool, target: int, costOfChange: int, s: Choice) {
    |s| <= |pool| && forall k :: 0 <= k < |s| ==> LiveAt(pool, target, costOfChange, s, k)
  }

  ghost predicate LiveAt(pool: Pool, target: int, costOfChange: int, s: Choice, k: nat)
    requires k < |s| <= |pool|
  {
    !Stops(pool, target, costOfChange, s[..k]) && (Skips(pool, s[..k]) ==> !s[k])
  }

  lemma LiveSnoc(pool: Pool, target: int, costOfChange: int, s: Choice, b: bool)
    requires Live(pool, target, costOfChange, s) && |s| < |pool|
    requires !Stops(pool, target, costOfChange, s) && (Skips(pool, s) ==> !b)
    ensures Live(pool, target, costOfChange, s + [b])
  {
    hide Stops, Skips;
    var t := s + [b];
    forall k | 0 <= k < |t|
      ensures LiveAt(pool, target, costOfChange, t, k)
    {
      assert t[..k] == s[..k];
      assert k < |s| ==> LiveAt(pool, target, costOfChange, s, k);
      assert s[..|s|] == s;
    }
  }

  lemma LivePop(pool: Pool, target: int, costOfChange: int, s: Choice)
    requires Live(pool, target, costOfChange, s) && s != []
    ensures var p := s[..|s| - 1];
      && Live(pool, target, costOfChange, p) && !Stops(pool, target, costOfChange, p)
      && (s[|s| - 1] ==> Live(pool, target, costOfChange, p + [false]))
  {
    hide Stops, Skips;
    var p := s[..|s| - 1];
    assert LiveAt(pool, target, costOfChange, s, |s| - 1);
    forall k | 0 <= k < |p|
      ensures LiveAt(pool, target, costOfChange, p, k)
    {
      assert p[..k] == s[..k] && LiveAt(pool, target, costOfChange, s, k);
    }
    LiveSnoc(pool, target, costOfChange, p, false);
  }

  lemma LaterSnoc(pool: Pool, target: int, costOfChange: int, s: Choice, b: bool)
    requires |s| < |pool|
    ensures Later(pool, target, costOfChange, s + [b]) ==
      Later(pool, target, costOfChange, s) + if b then Nodes(pool, target, costOfChange, s + [false]) else 0
  {
    hide Nodes;
    assert (s + [b])[..|s|] == s;
  }

  lemma {:induction false} LaterBelow(pool: Pool, target: int, costOfChange: int, s: Choice, k: nat)
    requires k <= |s| <= |pool|
    ensures Later(pool, target, costOfChange, s) >= Later(pool, target, costOfChange, s[..k])
    decreases |s|
  {
    hide Nodes;
    if k < |s| {
      LaterBelow(pool, target, costOfChange, s[..|s| - 1], k);
      assert s[..|s| - 1][..k] == s[..k];
    } else {
      assert s[..k] == s;
    }
  }

  /** A selection that a node has not left behind is not settled before that node is visited: nodes `k` levels
      down on the way to both. */
  lemma {:induction false} NotPassed(pool: Pool, target: int, costOfChange: int, s: Choice, c: Choice, k: nat)
    requires Live(pool, target, costOfChange, s) && |c| == |pool| && k <= |s|
    requires Extends(c, s[..k]) && !Before(c, s)
    ensures var p := s[..k];
      Until(pool, target, costOfChange, p, c)
        + Nodes(pool, target, costOfChange, s) + Later(pool, target, costOfChange, s) >
      Nodes(pool, target, costOfChange, p) + Later(pool, target, costOfChange, p)
    decreases |s| - k
  {
    var p := s[..k];
    if k == |s| {
      assert p == s;
    } else {
      var b := s[k];
      assert LiveAt(pool, target, costOfChange, s, k);
      assert s[..k + 1] == p + [b];
      LaterSnoc(pool, target, costOfChange, p, b);
      LaterBelow(pool, target, costOfChange, s, k + 1);
      BeforeSnoc(c, p, b);
      ExtendsSnoc(c, p, b);
      if Before(c, p + [b]) {
        BeforeBelow(c, s, k + 1);
      }
      if c[k] == b {
        NotPassed(pool, target, costOfChange, s, c, k + 1);
      }
    }
  }

  /** After so many tries a selection that could be settled within them is left behind. */
  lemma Passed(pool: Pool, target: int, costOfChange: int, s: Choice, c: Choice, tries: nat)
    requires Live(pool, target, costOfChange, s) && |c| == |pool|
    requires tries + Nodes(pool, target, costOfChange, s) + Later(pool, target, costOfChange, s) <=
      Nodes(pool, target, costOfChange, [])
    requires Until(pool, target, costOfChange, [], c) <= tries
    ensures Before(c, s)
  {
    hide Nodes, Until;
    if !Before(c, s) {
      assert s[..0] == [] && c[..0] == [];
      NotPassed(pool, target, costOfChange, s, c, 0);
    }
  }

  // ---------------------------------------------------------------------
  // The search

  /** A recorded best selection: it fits and its waste is the best waste. */
  ghost predicate Recorded(pool: Pool, target: int, costOfChange: int, best: Choice, bestWaste: int) {
    && bestWaste <= MAX_MONEY
    && (best == [] && |pool| > 0 ==> bestWaste == MAX_MONEY)
    && (best != [] ==> Fits(pool, target, costOfChange, best) && TotalWaste(pool, target, best) == bestWaste)
  }

  /** The waste below which the search still has to find something. */
  ghost function Bar(found: bool, bestWaste: int): int {
    if found then bestWaste else bestWaste + 1
  }

  /** Walks back over omitted inputs to the last included one and omits it. */
  method Backtrack(pool: Pool, s0: Choice, value0: int, available0: int, waste0: int,
                   ghost target: int, ghost costOfChange: int, ghost bar: int)
    returns (s: Choice, value: int, available: int, waste: int)
    requires Accounted(pool, s0, value0, available0, waste0) && Live(pool, target, costOfChange, s0)
    ensures Accounted(pool, s, value, available, waste) && Live(pool, target, costOfChange, s)
    ensures s != [] ==>
      Nodes(pool, target, costOfChange, s) + Later(pool, target, costOfChange, s) ==
      Later(pool, target, costOfChange, s0)
    ensures SettledThrough(pool, target, costOfChange, s0, bar) ==>
              if s == [] then SettledThrough(pool, target, costOfChange, [], bar)
              else Settled(pool, target, costOfChange, s, bar)
  {
    hide Settled, SettledThrough, Live, Nodes;
    s, value, available, waste := s0, value0, available0, waste0;
    while s != [] && !s[|s| - 1]
      invariant Accounted(pool, s, value, available, waste) && Live(pool, target, costOfChange, s)
      invariant SettledThrough(pool, target, costOfChange, s0, bar) ==>
                  SettledThrough(pool, target, costOfChange, s, bar)
      invariant Later(pool, target, costOfChange, s) == Later(pool, target, costOfChange, s0)
      decreases |s|
    {
      ghost var t := s;
      s := s[..|s| - 1];
      assert t == s + [false];
      SumSnoc(pool, EffectiveValue, s, false);
      SumSnoc(pool, Measure.Waste, s, false);
      LivePop(pool, target, costOfChange, t);
      LaterSnoc(pool, target, costOfChange, s, false);
      if SettledThrough(pool, target, costOfChange, t, bar) {
        PopKeeps(pool, target, costOfChange, s, bar);
      }
      available := available + pool[|s|].effectiveValue;
    }
    if s == [] {
      return;
    }
    ghost var p := s[..|s| - 1];
    assert s == p + [true];
    SumSnoc(pool, EffectiveValue, p, true);
    SumSnoc(pool, EffectiveValue, p, false);
    SumSnoc(pool, Measure.Waste, p, true);
    SumSnoc(pool, Measure.Waste, p, false);
    LivePop(pool, target, costOfChange, s);
    LaterSnoc(pool, target, costOfChange, p, true);
    LaterSnoc(pool, target, costOfChange, p, false);
    if SettledThrough(pool, target, costOfChange, s, bar) {
      FlipKeeps(pool, target, costOfChange, p, bar);
    }
    s := s[|s| - 1 := false];
    assert s == p + [false];
    var utxo := pool[|s| - 1];
    value := value - utxo.effectiveValue;
    waste := waste - (utxo.fee - utxo.longTermFee);
  }

  /** Moves forward: includes the next input, or omits it if its equal predecessor was omitted. */
  method Forward(pool: Pool, s0: Choice, value0: int, available0: int, waste0: int,
                 ghost target: int, ghost costOfChange: int, ghost bar: int)
    returns (s: Choice, value: int, available: int, waste: int)
    requires Accounted(pool, s0, value0, available0, waste0) && |s0| < |pool|
    requires Live(pool, target, costOfChange, s0) && !Stops(pool, target, costOfChange, s0)
    ensures Accounted(pool, s, value, available, waste) && Live(pool, target, costOfChange, s) && s != []
    ensures 1 + Nodes(pool, target, costOfChange, s) + Later(pool, target, costOfChange, s) ==
      Nodes(pool, target, costOfChange, s0) + Later(pool, target, costOfChange, s0)
    ensures FeesConsistent(pool) && Settled(pool, target, costOfChange, s0, bar) ==>
              Settled(pool, target, costOfChange, s, bar)
  {
    hide Settled, FeesConsistent, Live, Stops;
    s, value, waste := s0, value0, waste0;
    var utxo := pool[|s|];
    available := available0 - utxo.effectiveValue;
    var skip := s != [] && !s[|s| - 1]
                && utxo.effectiveValue == pool[|s| - 1].effectiveValue && utxo.fee == pool[|s| - 1].fee;
    LiveSnoc(pool, target, costOfChange, s, !skip);
    LaterSnoc(pool, target, costOfChange, s, !skip);
    SumSnoc(pool, EffectiveValue, s, !skip);
    SumSnoc(pool, Measure.Waste, s, !skip);
    if FeesConsistent(pool) && Settled(pool, target, costOfChange, s, bar) {
      if skip {
        SkipLosesNothing(pool, target, costOfChange, s, bar);
      } else {
        DescendKeeps(pool, target, costOfChange, s, bar);
      }
    }
    if skip {
      s := s + [false];
    } else {
      s := s + [true];
      value := value + utxo.effectiveValue;
      waste := waste + (utxo.fee - utxo.longTermFee);
    }
  }

  /** No selection that fits is less wasteful than the best one found, of those that can be settled in so many
      tries. */
  ghost predicate BestWithin(pool: Pool, target: int, costOfChange: int, best: Choice, bestWaste: int, tries: nat) {
    forall c :: Fits(pool, target, costOfChange, c) && Until(pool, target, costOfChange, [], c) <= tries ==>
      Beaten(pool, target, best, bestWaste, c)
  }

  ghost predicate Beaten(pool: Pool, target: int, best: Choice, bestWaste: int, c: Choice)
    requires |c| == |pool|
  {
    && bestWaste <= TotalWaste(pool, target, c)
    && (best == [] && |pool| > 0 ==> bestWaste < TotalWaste(pool, target, c))
  }

  lemma AtRoot(pool: Pool, target: int, costOfChange: int, bar: int)
    ensures Live(pool, target, costOfChange, []) && Later(pool, target, costOfChange, []) == 0
    ensures Settled(pool, target, costOfChange, [], bar)
  {
  }

  lemma AllBeaten(pool: Pool, target: int, costOfChange: int, best: Choice, bestWaste: int, found: bool, tries: nat)
    requires |pool| > 0 ==> found == (best != [])
    requires SettledThrough(pool, target, costOfChange, [], Bar(found, bestWaste))
    ensures forall c :: Fits(pool, target, costOfChange, c) ==> Beaten(pool, target, best, bestWaste, c)
    ensures BestWithin(pool, target, costOfChange, best, bestWaste, tries)
  {
    hide Until;
    forall c | Fits(pool, target, costOfChange, c)
      ensures Beaten(pool, target, best, bestWaste, c)
    {
      assert c[..0] == [];
    }
  }

  lemma SettledBeats(pool: Pool, target: int, costOfChange: int, best: Choice, bestWaste: int, found: bool, s: Choice,
                     tries: nat)
    requires |pool| > 0 ==> found == (best != [])
    requires Live(pool, target, costOfChange, s)
    requires tries + Nodes(pool, target, costOfChange, s) + Later(pool, target, costOfChange, s) <=
      Nodes(pool, target, costOfChange, [])
    requires Settled(pool, target, costOfChange, s, Bar(found, bestWaste))
    ensures BestWithin(pool, target, costOfChange, best, bestWaste, tries)
  {
    hide Nodes, Until, Later, Live;
    forall c | Fits(pool, target, costOfChange, c) && Until(pool, target, costOfChange, [], c) <= tries
      ensures Beaten(pool, target, best, bestWaste, c)
    {
      Passed(pool, target, costOfChange, s, c, tries);
    }
  }

  /** The search loop. Whatever the number of tries, a result fits the range, and for consistent fees no fitting
      selection that can be settled within the tries is less wasteful. The search exhausts the tree if it may take
      as many tries as the rules leave nodes, and then no fitting selection is less wasteful at all. */
  method Search(pool: Pool, target: int, costOfChange: int, available0: int, tries: nat)
    returns (best: Choice, bestWaste: int, exhausted: bool)
    requires Positive(pool) && available0 == Tail(pool, EffectiveValue, 0)
    ensures Recorded(pool, target, costOfChange, best, bestWaste)
    ensures tries >= Nodes(pool, target, costOfChange, []) ==> exhausted
    ensures FeesConsistent(pool) ==> BestWithin(pool, target, costOfChange, best, bestWaste, tries)
    ensures exhausted && FeesConsistent(pool) ==>
              forall c :: Fits(pool, target, costOfChange, c) ==> Beaten(pool, target, best, bestWaste, c)
  {
    hide Settled, SettledThrough, Live, Nodes, Later, Until, FeesConsistent;
    var n := |pool|;
    var s: Choice, value, available, waste := [], 0, available0, 0;
    best, bestWaste, exhausted := [], MAX_MONEY, false;
    ghost var found := false;
    var i := 0;
    AtRoot(pool, target, costOfChange, Bar(found, bestWaste));
    while i < tries
      invariant 0 <= i <= tries
      invariant Accounted(pool, s, value, available, waste)
      invariant Recorded(pool, target, costOfChange, best, bestWaste)
      invariant Live(pool, target, costOfChange, s)
      invariant i + Nodes(pool, target, costOfChange, s) + Later(pool, target, costOfChange, s) <=
                Nodes(pool, target, costOfChange, [])
      invariant if n == 0 then bestWaste == MAX_MONEY else found == (best != [])
      invariant FeesConsistent(pool) ==> Settled(pool, target, costOfChange, s, Bar(found, bestWaste))
    {
      var backtrack := false;
      if value + available < target || value > target + costOfChange
         || (waste > bestWaste && pool[0].fee - pool[0].longTermFee > 0) {
        backtrack := true;
        if FeesConsistent(pool) {
          CutLosesNothing(pool, target, costOfChange, s, Bar(found, bestWaste));
        }
      } else if value >= target {
        ghost var wasBar := Bar(found, bestWaste);
        waste := waste + (value - target);
        if waste <= bestWaste {
          best := Padded(s, n);
          bestWaste := waste;
          found := true;
          SumPadded(pool, EffectiveValue, s, n);
          SumPadded(pool, Measure.Waste, s, n);
        }
        waste := waste - (value - target);
        backtrack := true;
        if FeesConsistent(pool) {
          FitLosesNothing(pool, target, costOfChange, s, wasBar, Bar(found, bestWaste));
        }
      }
      ghost var bar := Bar(found, bestWaste);
      if backtrack {
        s, value, available, waste := Backtrack(pool, s, value, available, waste, target, costOfChange, bar);
        if s == [] {
          exhausted := true;
          if FeesConsistent(pool) {
            AllBeaten(pool, target, costOfChange, best, bestWaste, found, tries);
          }
          break;
        }
      } else {
        s, value, available, waste := Forward(pool, s, value, available, waste, target, costOfChange, bar);
      }
      i := i + 1;
    }
    if !exhausted && FeesConsistent(pool) {
      SettledBeats(pool, target, costOfChange, best, bestWaste, found, s, tries);
    }
  }

  // ---------------------------------------------------------------------
  // The entry point

  ghost predicate LeastWaste(pool: Pool, target: int, costOfChange: int, best: Choice) {
    && Fits(pool, target, costOfChange, best)
    && forall c :: Fits(pool, target, costOfChange, c) ==> TotalWaste(pool, target, best) <= TotalWaste(pool, target, c)
  }

  /** Some selection fits with a waste that is a valid amount of money. */
  ghost predicate Affordable(pool: Pool, target: int, costOfChange: int) {
    exists c :: Fits(pool, target, costOfChange, c) && TotalWaste(pool, target, c) <= MAX_MONEY
  }

  /** Whatever fits, has a valid waste and can be settled within the tries is found, or something as good. */
  ghost predicate NoneBetter(pool: Pool, target: int, costOfChange: int, ok: bool, best: Choice)
    requires ok ==> |best| == |pool|
  {
    forall c ::
      Fits(pool, target, costOfChange, c) && TotalWaste(pool, target, c) <= MAX_MONEY && |pool| > 0 &&
      Until(pool, target, costOfChange, [], c) <= TOTAL_TRIES ==>
        ok && TotalWaste(pool, target, best) <= TotalWaste(pool, target, c)
  }

  /** What the search promises, as the caller sees it. */
  lemma Outcome(pool: Pool, target: int, costOfChange: int, best: Choice, bestWaste: int)
    requires Recorded(pool, target, costOfChange, best, bestWaste)
    ensures BestWithin(pool, target, costOfChange, best, bestWaste, TOTAL_TRIES) ==>
      NoneBetter(pool, target, costOfChange, best != [], best)
    ensures (forall c :: Fits(pool, target, costOfChange, c) ==> Beaten(pool, target, best, bestWaste, c)) ==>
      && (best != [] ==> LeastWaste(pool, target, costOfChange, best))
      && (best != [] <==> |pool| > 0 && Affordable(pool, target, costOfChange))
    ensures best != [] ==> Fits(pool, target, costOfChange, best) && |best| == |pool|
  {
    hide Until, Sum;
  }

  lemma TailStep(pool: Pool, i: nat)
    requires i <= |pool|
    ensures Tail(pool, EffectiveValue, i) ==
      if i < |pool| then pool[i].effectiveValue + Tail(pool, EffectiveValue, i + 1) else 0
  {
  }

  lemma OutOfReach(pool: Pool, target: int, costOfChange: int)
    requires Positive(pool) && Tail(pool, EffectiveValue, 0) < target
    ensures !Affordable(pool, target, costOfChange) && NoneBetter(pool, target, costOfChange, false, [])
    ensures Nodes(pool, target, costOfChange, []) == 1
  {
    forall c
      ensures !Fits(pool, target, costOfChange, c)
    {
      if |c| == |pool| {
        ExtensionBounds(pool, EffectiveValue, [], c);
      }
    }
  }

  /** Chooses inputs worth the target plus fees, and at most the cost of change more. For consistent fees nothing
      that can be settled within the tries wastes less. If the search was exhausted, as it is when the rules leave
      no more nodes than tries and so always for up to 15 inputs, the choice has the least waste of all fitting
      ones, and the call fails only if there is none of valid waste or the pool is empty: an empty pool fails even
      when the empty selection would fit. */
  method SelectCashBnB(pool0: Pool, targetValue: int, costOfChange: int, notInputFees: int)
    returns (ok: bool, pool: Pool, outSet: set<InputCash>, valueRet: int, ghost best: Choice, ghost exhausted: bool)
    requires Positive(pool0)
    ensures multiset(pool) == multiset(pool0) && |pool| == |pool0|
    ensures ok ==>
              && Descending(pool)
              && Fits(pool, targetValue + notInputFees, costOfChange, best)
              && valueRet == Sum(pool, Value, best)
              && (DistinctOutpoints(pool0) ==> outSet == Chosen(pool, best))
    ensures Tail(pool0, EffectiveValue, 0) >= targetValue + notInputFees ==> Descending(pool)
    ensures |pool0| <= 15 ==> exhausted
    ensures Nodes(pool, targetValue + notInputFees, costOfChange, []) <= TOTAL_TRIES ==> exhausted
    ensures Positive(pool) && (ok ==> |best| == |pool|)
    ensures FeesConsistent(pool0) ==> NoneBetter(pool, targetValue + notInputFees, costOfChange, ok, best)
    ensures exhausted && FeesConsistent(pool0) ==>
              && (ok ==> LeastWaste(pool, targetValue + notInputFees, costOfChange, best))
              && (ok <==> |pool| > 0 && Affordable(pool, targetValue + notInputFees, costOfChange))
  {
    hide FeesConsistent, DistinctOutpoints, Descending, Until, Nodes, LeastWaste, Affordable, NoneBetter, BestWithin;
    hide Recorded, Beaten, Fits, Sum, Chosen, Positive, Tail;
    var actualTarget := notInputFees + targetValue;
    var available := 0;
    for i := 0 to |pool0|
      invariant available + Tail(pool0, EffectiveValue, i) == Tail(pool0, EffectiveValue, 0)
    {
      TailStep(pool0, i);
      available := available + pool0[i].effectiveValue;
    }
    TailStep(pool0, |pool0|);
    if available < actualTarget {
      OutOfReach(pool0, actualTarget, costOfChange);
      return false, pool0, {}, 0, [], true;
    }
    pool := SortDescending(pool0);
    Rearranged(pool0, pool);
    if |pool| <= 15 {
      SmallTree(|pool|);
    }
    var bestSelection, bestWaste, ended := Search(pool, actualTarget, costOfChange, available, TOTAL_TRIES);
    best, exhausted := bestSelection, ended;
    Outcome(pool, actualTarget, costOfChange, best, bestWaste);
    if bestSelection == [] {
      return false, pool, {}, 0, best, exhausted;
    }
    outSet, valueRet := Collect(pool, bestSelection);
    ok := true;
  }

  /** A rearranged pool has the same total, the same positivity and the same fee consistency. */
  lemma Rearranged(a: Pool, b: Pool)
    requires multiset(a) == multiset(b)
    ensures Tail(a, EffectiveValue, 0) == Tail(b, EffectiveValue, 0)
    ensures Positive(a) <==> Positive(b)
    ensures FeesConsistent(a) <==> FeesConsistent(b)
    ensures DistinctOutpoints(a) ==> DistinctOutpoints(b)
  {
    SameTail(a, b, EffectiveValue);
    SameMembers(a, b);
    if DistinctOutpoints(a) {
      DistinctPart(a, b);
    }
  }

  lemma SmallTree(n: nat)
    requires n <= 15
    ensures TreeSize(n) <= TOTAL_TRIES
  {
    TreeSizeMonotone(n, 15);
    assert TreeSize(15) == 65535;
  }

  lemma {:induction false} TreeSizeMonotone(m: nat, n: nat)
    requires m <= n
    ensures TreeSize(m) <= TreeSize(n)
    decreases n
  {
    if m < n {
      TreeSizeMonotone(m, n - 1);
    }
  }

  // ---------------------------------------------------------------------
  // A pool that only skipping equal inputs makes searchable

  /** Four inputs of 7 units, m of 5 and one of 2, largest first, all with the same fees. */
  ghost predicate SevensFivesTwo(pool: Pool, unit: int, m: nat) {
    && |pool| == m + 5 && unit > 0
    && (forall i :: 0 <= i < |pool| ==>
          pool[i].effectiveValue == (if i < 4 then 7 else if i < m + 4 then 5 else 2) * unit)
    && (forall i :: 0 <= i < |pool| ==> pool[i].fee == pool[0].fee && pool[i].longTermFee == pool[i].fee)
  }

  /** The four of 7 and the one of 2. */
  function SevensAndTwo(m: nat): (c: Choice)
    ensures |c| == m + 5
  {
    [true, true, true, true] + seq(m, _ => false) + [true]
  }

  lemma {:induction false} SumSevens(pool: Pool, unit: int, m: nat, k: nat)
    requires SevensFivesTwo(pool, unit, m) && k <= m + 5
    ensures Sum(pool, EffectiveValue, SevensAndTwo(m)[..k]) ==
      (if k <= 4 then 7 * k else if k <= m + 4 then 28 else 30) * unit
    ensures Sum(pool, Measure.Waste, SevensAndTwo(m)[..k]) == 0
    decreases k
  {
    if k > 0 {
      SumSevens(pool, unit, m, k - 1);
      var c := SevensAndTwo(m);
      assert c[..k][..k - 1] == c[..k - 1];
    }
  }

  lemma {:induction false} TailSevens(pool: Pool, unit: int, m: nat, k: nat)
    requires SevensFivesTwo(pool, unit, m) && k <= m + 4
    ensures Tail(pool, EffectiveValue, k) >= (if k < 4 then 7 * (4 - k) + 2 else 2) * unit
    decreases m + 4 - k
  {
    if k < m + 4 {
      TailSevens(pool, unit, m, k + 1);
    }
  }

  /** Having omitted the first of 5, the search runs past the others, one node each. */
  lemma {:induction false} UntilSevens(pool: Pool, unit: int, m: nat, costOfChange: int, k: nat)
    requires SevensFivesTwo(pool, unit, m) && m > 0 && 0 <= costOfChange < 3 * unit && k <= m + 5
    ensures Until(pool, 30 * unit, costOfChange, SevensAndTwo(m)[..k], SevensAndTwo(m)) ==
      m + 6 - k + if k <= 4 then 1 else 0
    decreases m + 5 - k
  {
    var c := SevensAndTwo(m);
    SumSevens(pool, unit, m, k);
    if k < m + 5 {
      UntilSevens(pool, unit, m, costOfChange, k + 1);
      TailSevens(pool, unit, m, k);
      assert c[..k + 1] == c[..k] + [c[k]];
      if k == 4 {
        SumSnoc(pool, EffectiveValue, c[..4], true);
      }
    }
  }

  lemma SevensFit(pool: Pool, unit: int, m: nat, costOfChange: int)
    requires SevensFivesTwo(pool, unit, m) && 0 <= costOfChange
    ensures Fits(pool, 30 * unit, costOfChange, SevensAndTwo(m))
    ensures TotalWaste(pool, 30 * unit, SevensAndTwo(m)) == 0 && FeesConsistent(pool)
  {
    SumSevens(pool, unit, m, m + 5);
    assert SevensAndTwo(m)[..m + 5] == SevensAndTwo(m);
  }

  lemma SortedSevens(sorted: Pool, pool: Pool, unit: int, m: nat)
    requires SevensFivesTwo(sorted, unit, m) && multiset(pool) == multiset(sorted)
    ensures Descending(pool) ==> SevensFivesTwo(pool, unit, m)
    ensures Positive(pool) && Tail(pool, EffectiveValue, 0) >= 30 * unit
  {
    TailSevens(sorted, unit, m, 0);
    SameTail(sorted, pool, EffectiveValue);
    SameMembers(sorted, pool);
    if Descending(pool) {
      SameValues(sorted, pool);
      forall i | 0 <= i < |pool|
        ensures pool[i].fee == sorted[0].fee && pool[i].longTermFee == pool[i].fee
      {
        assert pool[i] in sorted;
      }
    }
  }

  lemma IsFound(pool: Pool, target: int, costOfChange: int, ok: bool, best: Choice, c: Choice)
    requires ok ==> |best| == |pool|
    requires NoneBetter(pool, target, costOfChange, ok, best) && |pool| > 0
    requires Fits(pool, target, costOfChange, c) && TotalWaste(pool, target, c) <= MAX_MONEY
    requires Until(pool, target, costOfChange, [], c) <= TOTAL_TRIES
    ensures ok
  {
  }

  /** From any pool of four inputs of 7, up to 99993 of 5 and one of 2, without fee surplus, 30 is selected,
      although the decision tree is out of all proportion to the tries. */
  method SelectThirty(pool0: Pool, ghost sorted: Pool, unit: int, ghost m: nat, costOfChange: int) returns (ok: bool)
    requires SevensFivesTwo(sorted, unit, m) && multiset(pool0) == multiset(sorted)
    requires 0 < m <= TOTAL_TRIES - 7 && 0 <= costOfChange < 3 * unit
    ensures ok
  {
    hide Fits, FeesConsistent, Until, Nodes, Sum, NoneBetter, LeastWaste;
    hide Descending, SevensFivesTwo;
    SortedSevens(sorted, pool0, unit, m);
    SevensFit(sorted, unit, m, costOfChange);
    Rearranged(sorted, pool0);
    var pool, outSet, valueRet;
    ghost var best, exhausted;
    ok, pool, outSet, valueRet, best, exhausted := SelectCashBnB(pool0, 30 * unit, costOfChange, 0);
    SortedSevens(sorted, pool, unit, m);
    SevensFit(pool, unit, m, costOfChange);
    UntilSevens(pool, unit, m, costOfChange, 0);
    assert SevensAndTwo(m)[..0] == [];
    IsFound(pool, 30 * unit, costOfChange, ok, best, SevensAndTwo(m));
  }
}
