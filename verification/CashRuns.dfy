/** Runs of a cache stack of any height against the reference: one plain map and one best-block hash per
    level, top first. */
module CashRuns {
  import opened CashTypes
  import opened Options
  import opened CashView

  type Coins = map<OutPoint, Cash>

  /** One client action. Adds and spends go to the top cache; reads, uncaching, best-block queries and
      flushes may go to any level, counted from the top. Push opens a new cache on top of the stack and
      Drop throws the top cache away without flushing it. */
  datatype Op =
    | AddOp(o: OutPoint, cash: Cash, overwrite: bool)
    | SpendOp(o: OutPoint)
    | ReadOp(depth: nat, o: OutPoint)
    | UncacheOp(depth: nat, o: OutPoint)
    | FlushOp(depth: nat)
    | SetBestOp(hash: uint256)
    | GetBestOp(depth: nat)
    | PushOp
    | DropOp

  // ---------------------------------------------------------------------
  // The stack

  function Height(v: View): nat {
    if v.Store? then 0 else 1 + Height(v.base)
  }

  function BestBlock(v: View): uint256 {
    if v.Store? then v.best
    else if v.hashBlock == 0 then BestBlock(v.base)
    else v.hashBlock
  }

  /** The view after GetBestBlock: every cache that had no hash of its own keeps a copy. */
  function AfterGetBest(v: View): (r: View)
    ensures r.Cache? <==> v.Cache?
  {
    if v.Cache? && v.hashBlock == 0 then v.(base := AfterGetBest(v.base), hashBlock := BestBlock(v.base))
    else v
  }

  ghost function AtDepth(v: View, depth: nat, op: Op): Option<View>
    requires op.ReadOp? || op.GetBestOp? || op.UncacheOp? || op.FlushOp?
    requires if op.UncacheOp? || op.FlushOp? then depth < Height(v) else depth <= Height(v)
  {
    if depth > 0 then
      match AtDepth(v.base, depth - 1, op)
      case None => None
      case Some(b) => Some(v.(base := b))
    else match op
      case ReadOp(_, o) => Some(AfterGet(v, o))
      case GetBestOp(_) => Some(AfterGetBest(v))
      case UncacheOp(_, o) => Some(Uncache(v, o))
      case FlushOp(_) => Flush(v)
  }

  /** One action on the stack; None is an exception. */
  ghost function Step(v: View, op: Op): Option<View>
    requires InReach(Height(v), op)
  {
    match op
    case AddOp(o, cash, overwrite) => Add(v, o, cash, overwrite)
    case SpendOp(o) => Some(Spend(v, o))
    case SetBestOp(h) => Some(v.(hashBlock := h))
    case PushOp => Some(Cache(map[], 0, 0, v))
    case DropOp => Some(v.base)
    case _ => AtDepth(v, op.depth, op)
  }

  /** The action addresses a level that exists, and never adds a spent record. */
  predicate InReach(height: nat, op: Op) {
    match op
    case AddOp(_, cash, _) => height > 0 && !cash.IsSpent()
    case SpendOp(_) => height > 0
    case SetBestOp(_) => height > 0
    case ReadOp(d, _) => d <= height
    case GetBestOp(d) => d <= height
    case UncacheOp(d, _) => d < height
    case FlushOp(d) => d < height
    case PushOp => true
    case DropOp => height > 0
  }

  // ---------------------------------------------------------------------
  // The reference

  /** The reference: the coins of every level, the best-block hash each level has of its own, and whether
      the lowest level is the database. */
  datatype Ref = Ref(levels: seq<Coins>, hashes: seq<uint256>, isDatabase: bool)

  ghost predicate Proper(r: Ref) {
    |r.levels| == |r.hashes| > 0
  }

  /** The hash that a level shows: its own or the nearest one below. */
  function BestOf(hashes: seq<uint256>): uint256 {
    if hashes == [] then 0 else if hashes[0] != 0 || |hashes| == 1 then hashes[0] else BestOf(hashes[1..])
  }

  /** Asking for it, every level without a hash down to the first that has one keeps a copy. */
  function Learned(hashes: seq<uint256>): (r: seq<uint256>)
    ensures |r| == |hashes|
  {
    if |hashes| <= 1 || hashes[0] != 0 then hashes else [BestOf(hashes)] + Learned(hashes[1..])
  }

  /** What an action on a level does to the hashes. A flush hands the level's own hash on, null or not; only
      the store ignores a null one. */
  function HashStep(hashes: seq<uint256>, depth: nat, op: Op): (r: seq<uint256>)
    requires depth <= |hashes| && (op.FlushOp? ==> depth + 1 < |hashes|)
    ensures |r| == |hashes|
  {
    if op.GetBestOp? then hashes[..depth] + Learned(hashes[depth..])
    else if op.FlushOp? && (hashes[depth] != 0 || depth + 2 < |hashes|) then hashes[depth + 1 := hashes[depth]]
    else hashes
  }

  function RefStep(r: Ref, op: Op): (r': Ref)
    requires Proper(r) && InReach(|r.levels| - 1, op)
    ensures Proper(r')
  {
    var hashes :=
      match op
      case SetBestOp(h) => r.hashes[0 := h]
      case PushOp => [0] + r.hashes
      case DropOp => r.hashes[1..]
      case GetBestOp(d) => HashStep(r.hashes, d, op)
      case FlushOp(d) => HashStep(r.hashes, d, op)
      case _ => r.hashes;
    Ref(CoinStep(r.levels, op), hashes, r.isDatabase)
  }

  /** One action on plain maps. Only the client's own adds and spends change the top map; a flush
      copies one level over the next lower one. */
  function CoinStep(levels: seq<Coins>, op: Op): seq<Coins>
    requires |levels| > 0 && InReach(|levels| - 1, op)
  {
    match op
    case AddOp(o, cash, _) =>
      if IsUnspendable(cash.out.script) then levels else levels[0 := levels[0][o := cash]]
    case SpendOp(o) => levels[0 := levels[0] - {o}]
    case FlushOp(d) => levels[d + 1 := levels[d]]
    case PushOp => [levels[0]] + levels
    case DropOp => levels[1..]
    case _ => levels
  }

  /** What a caller must respect, in terms of the reference alone: the action exists, and an output
      added without the overwrite flag is not unspent at the top. */
  ghost predicate Allowed(r: Ref, op: Op) {
    && Proper(r) && InReach(|r.levels| - 1, op)
    && (op.AddOp? && !op.overwrite && !IsUnspendable(op.cash.out.script) ==> op.o !in r.levels[0])
  }

  /** A level flushed into the database has a best-block hash of its own. */
  predicate Told(r: Ref, op: Op) {
    op.FlushOp? && r.isDatabase && op.depth + 2 == |r.hashes| ==> r.hashes[op.depth] != 0
  }

  ghost predicate Legal(r: Ref, op: Op) {
    Allowed(r, op) && Told(r, op)
  }

  ghost predicate LegalRun(r: Ref, ops: seq<Op>)
    decreases |ops|
  {
    ops == [] || (Legal(r, ops[0]) && LegalRun(RefStep(r, ops[0]), ops[1..]))
  }

  ghost function RefRun(r: Ref, ops: seq<Op>): Ref
    requires LegalRun(r, ops)
    decreases |ops|
  {
    if ops == [] then r else RefRun(RefStep(r, ops[0]), ops[1..])
  }

  /** What the levels of a stack show, top first. */
  function Shown(v: View): Coins {
    if v.Store? then map o | o in v.coins && Coin(v, o).Some? :: Coin(v, o).value
    else map o | o in Shown(v.base).Keys + v.entries.Keys && Coin(v, o).Some? :: Coin(v, o).value
  }

  function Levels(v: View): (r: seq<Coins>)
    ensures |r| == Height(v) + 1
  {
    [Shown(v)] + if v.Store? then [] else Levels(v.base)
  }

  function Hashes(v: View): (r: seq<uint256>)
    ensures |r| == Height(v) + 1
  {
    if v.Store? then [v.best] else [v.hashBlock] + Hashes(v.base)
  }

  function OnDatabase(v: View): bool {
    if v.Store? then v.isDatabase else OnDatabase(v.base)
  }

  /** The reference that a stack stands for. */
  function RefOf(v: View): (r: Ref)
    ensures Proper(r)
  {
    Ref(Levels(v), Hashes(v), OnDatabase(v))
  }

  lemma {:induction false} BestOfHashes(v: View)
    ensures BestOf(Hashes(v)) == BestBlock(v)
  {
    if v.Cache? {
      BestOfHashes(v.base);
      assert Hashes(v)[1..] == Hashes(v.base);
    }
  }

  lemma {:induction false} LearnedHashes(v: View)
    ensures Hashes(AfterGetBest(v)) == Learned(Hashes(v)) && OnDatabase(AfterGetBest(v)) == OnDatabase(v)
  {
    if v.Cache? && v.hashBlock == 0 {
      LearnedHashes(v.base);
      BestOfHashes(v);
      assert Hashes(v)[1..] == Hashes(v.base);
    }
  }

  lemma {:induction false} FetchHashes(v: View, o: OutPoint)
    requires v.Cache?
    ensures Hashes(Fetch(v, o)) == Hashes(v) && OnDatabase(Fetch(v, o)) == OnDatabase(v)
  {
    if o !in v.entries && v.base.Cache? {
      FetchHashes(v.base, o);
    }
  }

  lemma FlushHashes(v: View)
    requires v.Cache? && Flush(v).Some?
    ensures var w := Flush(v).value;
      Hashes(w) == HashStep(Hashes(v), 0, FlushOp(0)) && OnDatabase(w) == OnDatabase(v)
  {
    hide Written, Merged, AnyMisapplied, SumUsage;
    var w := Flush(v).value;
    if v.base.Cache? {
      TwoHashes(v);
      TwoHashes(w);
    }
  }

  lemma TwoHashes(v: View)
    requires v.Cache? && v.base.Cache?
    ensures Hashes(v) == [v.hashBlock, v.base.hashBlock] + Hashes(v.base.base)
    ensures OnDatabase(v) == OnDatabase(v.base.base)
  {
    var rest := Hashes(v.base.base);
    HashesOf(v);
    HashesOf(v.base);
    hide Hashes, OnDatabase;
    Joined(v.hashBlock, v.base.hashBlock, rest);
  }

  lemma HashesOf(v: View)
    requires v.Cache?
    ensures Hashes(v) == [v.hashBlock] + Hashes(v.base) && OnDatabase(v) == OnDatabase(v.base)
  {
  }

  lemma Joined(a: uint256, b: uint256, rest: seq<uint256>)
    ensures [a] + ([b] + rest) == [a, b] + rest
  {
  }

  lemma {:induction false} ShownIsCoin(v: View, o: OutPoint)
    ensures Find(Shown(v), o) == Coin(v, o)
  {
    if v.Cache? {
      ShownIsCoin(v.base, o);
    }
  }

  lemma ShownFromCoins(v: View, m: Coins)
    requires forall o :: Find(m, o) == Coin(v, o)
    ensures Shown(v) == m
  {
    forall o
      ensures Find(Shown(v), o) == Find(m, o)
    {
      ShownIsCoin(v, o);
    }
    assert forall o :: o in m <==> Find(m, o).Some?;
    assert forall o :: o in Shown(v) <==> Find(Shown(v), o).Some?;
    assert m.Keys == Shown(v).Keys;
    assert forall o :: o in m ==> Find(m, o) == Some(m[o]) && Find(Shown(v), o) == Some(Shown(v)[o]);
  }

  lemma SameCoinsSameShown(v: View, w: View)
    requires SameCoins(v, w)
    ensures Shown(v) == Shown(w)
  {
    forall o
      ensures Find(Shown(w), o) == Coin(v, o)
    {
      ShownIsCoin(w, o);
    }
    ShownFromCoins(v, Shown(w));
  }

  // ---------------------------------------------------------------------
  // One action

  /** A cache over an equivalent base is an equivalent cache. */
  lemma Rebase(v: View, b: View)
    requires v.Cache? && Inv(v) && Inv(b) && SameCoins(v.base, b)
    ensures Inv(v.(base := b)) && SameCoins(v, v.(base := b))
  {
  }

  lemma {:induction false} FetchLevels(v: View, o: OutPoint)
    requires v.Cache? && Inv(v)
    ensures Levels(Fetch(v, o)) == Levels(v)
  {
    FetchKeeps(v, o);
    SameCoinsSameShown(v, Fetch(v, o));
    if o !in v.entries && v.base.Cache? {
      FetchLevels(v.base, o);
    }
  }

  lemma {:induction false} GetBestKeeps(v: View)
    requires Inv(v)
    ensures Inv(AfterGetBest(v)) && SameCoins(v, AfterGetBest(v))
    ensures Levels(AfterGetBest(v)) == Levels(v)
    ensures BestBlock(AfterGetBest(v)) == BestBlock(v)
  {
    if v.Cache? && v.hashBlock == 0 {
      GetBestKeeps(v.base);
    }
    SameCoinsSameShown(v, AfterGetBest(v));
  }

  lemma FlushShown(v: View)
    requires v.Cache? && Inv(v) && CanFlush(v)
    ensures Flush(v).Some? && Flush(v).value.Cache? && Shown(Flush(v).value) == Shown(v) == Shown(Flush(v).value.base)
    ensures if v.base.Cache? then Flush(v).value.base.Cache? && Flush(v).value.base.base == v.base.base
            else Flush(v).value.base.Store?
  {
    hide Inv, Flush, Shown;
    FlushKeeps(v);
    SameCoinsSameShown(Flush(v).value, v);
    SameCoinsSameShown(Flush(v).value.base, v);
  }

  lemma FlushLevels(v: View)
    requires v.Cache? && Inv(v) && CanFlush(v)
    ensures Flush(v).Some? && Levels(Flush(v).value) == Levels(v)[1 := Levels(v)[0]]
  {
    hide Inv, Flush, Shown;
    FlushShown(v);
    var w := Flush(v).value;
    assert Levels(w) == [Shown(v)] + Levels(w.base);
    assert Levels(v) == [Shown(v)] + Levels(v.base);
  }

  ghost predicate Refines(v: View, w: View, depth: nat, op: Op)
    requires depth <= Height(v) && (op.FlushOp? ==> depth < Height(v))
  {
    && Inv(w)
    && SameCoins(v, w)
    && Levels(w) == (if op.FlushOp? then Levels(v)[depth + 1 := Levels(v)[depth]] else Levels(v))
    && Hashes(w) == HashStep(Hashes(v), depth, op) && OnDatabase(w) == OnDatabase(v)
  }

  /** The flush at a depth can go ahead. */
  ghost predicate Goes(v: View, depth: nat, op: Op)
    requires op.FlushOp? ==> depth < Height(v)
  {
    op.FlushOp? && OnDatabase(v) && depth + 1 == Height(v) ==> Hashes(v)[depth] != 0
  }

  lemma HereRefines(v: View, op: Op)
    requires Inv(v)
    requires op.ReadOp? || op.GetBestOp? || op.UncacheOp? || op.FlushOp?
    requires op.UncacheOp? || op.FlushOp? ==> v.Cache?
    ensures AtDepth(v, 0, op).Some? <==> Goes(v, 0, op)
    ensures Goes(v, 0, op) ==> Refines(v, AtDepth(v, 0, op).value, 0, op)
  {
    match op
    case ReadOp(_, o) =>
      if v.Cache? {
        FetchKeeps(v, o);
        FetchLevels(v, o);
        FetchHashes(v, o);
      }
    case GetBestOp(_) =>
      GetBestKeeps(v);
      LearnedHashes(v);
      assert Hashes(v)[..0] + Learned(Hashes(v)[0..]) == Learned(Hashes(v)) by {
        assert Hashes(v)[0..] == Hashes(v);
      }
    case UncacheOp(_, o) =>
      UncacheKeeps(v, o);
      SameCoinsSameShown(v, Uncache(v, o));
    case FlushOp(_) =>
      FlushHere(v);
  }

  lemma FlushHere(v: View)
    requires v.Cache? && Inv(v)
    ensures Flush(v).Some? <==> Goes(v, 0, FlushOp(0))
    ensures Goes(v, 0, FlushOp(0)) ==> Refines(v, Flush(v).value, 0, FlushOp(0))
  {
    hide Flush, Inv, Shown;
    FlushKeeps(v);
    assert v.base.Store? <==> Height(v.base) == 0;
    assert OnDatabase(v) == OnDatabase(v.base);
    if CanFlush(v) {
      FlushLevels(v);
      FlushHashes(v);
    }
  }

  lemma HashStepBelow(h: uint256, hs: seq<uint256>, depth: nat, op: Op)
    requires depth <= |hs| && (op.FlushOp? ==> depth + 1 < |hs|)
    ensures HashStep([h] + hs, depth + 1, op) == [h] + HashStep(hs, depth, op)
  {
    hide Learned;
    if op.GetBestOp? {
      SplitBelow(h, hs, depth);
      assert [h] + hs[..depth] + Learned(hs[depth..]) == [h] + (hs[..depth] + Learned(hs[depth..]));
    } else if op.FlushOp? {
      SetBelow(h, hs, depth + 1, hs[depth]);
    }
  }

  lemma SplitBelow(h: uint256, hs: seq<uint256>, k: nat)
    requires k <= |hs|
    ensures ([h] + hs)[..k + 1] == [h] + hs[..k] && ([h] + hs)[k + 1..] == hs[k..]
  {
  }

  lemma SetBelow(h: uint256, hs: seq<uint256>, k: nat, x: uint256)
    requires k < |hs|
    ensures ([h] + hs)[k + 1 := x] == [h] + hs[k := x]
  {
  }

  /** A cache cannot tell that something happened below it. */
  lemma BelowRefines(v: View, b: View, depth: nat, op: Op)
    requires v.Cache? && Inv(v) && depth <= Height(v.base)
    requires op.FlushOp? ==> depth < Height(v.base)
    requires Refines(v.base, b, depth, op)
    ensures Refines(v, v.(base := b), depth + 1, op)
  {
    Rebase(v, b);
    SameCoinsSameShown(v, v.(base := b));
    assert Levels(v) == [Shown(v)] + Levels(v.base);
    hide HashStep, SameCoins, Inv, Shown, Hashes, OnDatabase;
    HashesOf(v);
    HashesOf(v.(base := b));
    HashStepBelow(v.hashBlock, Hashes(v.base), depth, op);
  }

  lemma GoesBelow(v: View, depth: nat, op: Op)
    requires v.Cache? && depth > 0 && (op.FlushOp? ==> depth < Height(v))
    ensures Goes(v, depth, op) <==> Goes(v.base, depth - 1, op)
  {
    HashesOf(v);
    hide Hashes;
  }

  lemma {:induction false} AtDepthRefines(v: View, depth: nat, op: Op)
    requires Inv(v)
    requires op.ReadOp? || op.GetBestOp? || op.UncacheOp? || op.FlushOp?
    requires if op.UncacheOp? || op.FlushOp? then depth < Height(v) else depth <= Height(v)
    ensures AtDepth(v, depth, op).Some? <==> Goes(v, depth, op)
    ensures Goes(v, depth, op) ==> Refines(v, AtDepth(v, depth, op).value, depth, op)
  {
    hide HashStep, SameCoins, Refines, Goes;
    if depth > 0 {
      GoesBelow(v, depth, op);
      AtDepthRefines(v.base, depth - 1, op);
      if Goes(v, depth, op) {
        BelowRefines(v, AtDepth(v.base, depth - 1, op).value, depth - 1, op);
      }
    } else {
      HereRefines(v, op);
    }
  }

  lemma AddShown(v: View, o: OutPoint, cash: Cash, overwrite: bool)
    requires v.Cache? && Inv(v) && !IsUnspendable(cash.out.script) && (overwrite || Coin(v, o).None?)
    requires !cash.IsSpent()
    ensures Add(v, o, cash, overwrite).Some? && Shown(Add(v, o, cash, overwrite).value) == Shown(v)[o := cash]
  {
    hide Inv, Add;
    AddKeeps(v, o, cash, overwrite);
    var w := Add(v, o, cash, overwrite).value;
    forall p
      ensures Find(Shown(v)[o := cash], p) == Coin(w, p)
    {
      ShownIsCoin(v, p);
    }
    ShownFromCoins(w, Shown(v)[o := cash]);
  }

  lemma AddRefines(v: View, o: OutPoint, cash: Cash, overwrite: bool)
    requires v.Cache? && Inv(v) && Allowed(RefOf(v), AddOp(o, cash, overwrite))
    ensures Add(v, o, cash, overwrite).Some?
    ensures var w := Add(v, o, cash, overwrite).value;
            Inv(w) && RefOf(w) == RefStep(RefOf(v), AddOp(o, cash, overwrite))
  {
    if !IsUnspendable(cash.out.script) {
      ShownIsCoin(v, o);
      AddKeeps(v, o, cash, overwrite);
      AddShown(v, o, cash, overwrite);
    }
    hide Inv, Shown;
  }

  lemma SpendShown(v: View, o: OutPoint)
    requires v.Cache? && Inv(v)
    ensures Shown(Spend(v, o)) == Shown(v) - {o}
  {
    hide Inv, Spend;
    SpendKeeps(v, o);
    var w := Spend(v, o);
    forall p
      ensures Find(Shown(v) - {o}, p) == Coin(w, p)
    {
      ShownIsCoin(v, p);
    }
    ShownFromCoins(w, Shown(v) - {o});
  }

  lemma SpendRefines(v: View, o: OutPoint)
    requires v.Cache? && Inv(v)
    ensures Inv(Spend(v, o)) && RefOf(Spend(v, o)) == RefStep(RefOf(v), SpendOp(o))
  {
    hide Inv, Shown, Spend, Fetch;
    SpendKeeps(v, o);
    FetchLevels(v, o);
    FetchHashes(v, o);
    SpendShown(v, o);
    SpendBase(v, o);
    assert Levels(Spend(v, o))[1..] == Levels(Fetch(v, o))[1..];
  }

  lemma SpendBase(v: View, o: OutPoint)
    requires v.Cache?
    ensures Spend(v, o).Cache? && Fetch(v, o).Cache? && Spend(v, o).base == Fetch(v, o).base
    ensures Spend(v, o).hashBlock == Fetch(v, o).hashBlock
  {
  }

  lemma SetBestRefines(v: View, h: uint256)
    requires v.Cache? && Inv(v)
    ensures Inv(v.(hashBlock := h)) && RefOf(v.(hashBlock := h)) == RefStep(RefOf(v), SetBestOp(h))
  {
    assert SameCoins(v, v.(hashBlock := h));
    SameCoinsSameShown(v, v.(hashBlock := h));
  }

  lemma PushRefines(v: View)
    requires Inv(v)
    ensures Inv(Cache(map[], 0, 0, v)) && RefOf(Cache(map[], 0, 0, v)) == RefStep(RefOf(v), PushOp)
  {
    var w := Cache(map[], 0, 0, v);
    assert SameCoins(v, w);
    SameCoinsSameShown(v, w);
  }

  /** An allowed action succeeds if and only if it does not flush a level without a best block into the
      database. It then keeps the invariant and does to every level what it does to the reference. */
  lemma StepRefines(v: View, op: Op)
    requires Inv(v) && Allowed(RefOf(v), op)
    ensures Step(v, op).Some? <==> Told(RefOf(v), op)
    ensures Told(RefOf(v), op) ==> Inv(Step(v, op).value) && RefOf(Step(v, op).value) == RefStep(RefOf(v), op)
  {
    hide HashStep, SameCoins, Shown;
    match op
    case AddOp(o, cash, overwrite) => AddRefines(v, o, cash, overwrite);
    case SpendOp(o) => SpendRefines(v, o);
    case SetBestOp(h) => SetBestRefines(v, h);
    case PushOp => PushRefines(v);
    case DropOp =>
      assert Levels(v)[1..] == Levels(v.base) && Hashes(v)[1..] == Hashes(v.base);
    case ReadOp(d, o) =>
      AtDepthRefines(v, d, op);
      NoHashStep(Hashes(v), d, op);
    case UncacheOp(d, o) =>
      AtDepthRefines(v, d, op);
      NoHashStep(Hashes(v), d, op);
    case _ => AtDepthRefines(v, op.depth, op);
  }

  lemma NoHashStep(hashes: seq<uint256>, depth: nat, op: Op)
    requires (op.ReadOp? || op.UncacheOp?) && depth <= |hashes|
    ensures HashStep(hashes, depth, op) == hashes
  {
  }

  // ---------------------------------------------------------------------
  // Whole runs

  ghost function Run(v: View, ops: seq<Op>): Option<View>
    decreases |ops|
  {
    if ops == [] then Some(v)
    else if !InReach(Height(v), ops[0]) then None
    else match Step(v, ops[0])
         case None => None
         case Some(w) => Run(w, ops[1..])
  }

  /** The cache stack refines the reference: over every legal run nothing fails, the invariant holds at
      the end, and every level shows exactly the coins of its plain map and the best block of its hashes. */
  lemma {:induction false} RunRefines(v: View, ops: seq<Op>)
    requires Inv(v) && LegalRun(RefOf(v), ops)
    ensures Run(v, ops).Some? && Inv(Run(v, ops).value)
    ensures RefOf(Run(v, ops).value) == RefRun(RefOf(v), ops)
    ensures BestBlock(Run(v, ops).value) == BestOf(RefRun(RefOf(v), ops).hashes)
    decreases |ops|
  {
    if ops != [] {
      StepRefines(v, ops[0]);
      RunRefines(Step(v, ops[0]).value, ops[1..]);
    }
    BestOfHashes(Run(v, ops).value);
  }

  /** The client's own adds and spends, applied to one plain map. */
  function FlatRun(m: Coins, ops: seq<Op>): Coins
    decreases |ops|
  {
    if ops == [] then m
    else
      var op := ops[0];
      var m' :=
        if op.AddOp? && !IsUnspendable(op.cash.out.script) then m[op.o := op.cash]
        else if op.SpendOp? then m - {op.o}
        else m;
      FlatRun(m', ops[1..])
  }

  lemma {:induction false} TopIsFlat(r: Ref, ops: seq<Op>)
    requires Proper(r) && LegalRun(r, ops) && DropOp !in ops
    ensures |RefRun(r, ops).levels| > 0 && RefRun(r, ops).levels[0] == FlatRun(r.levels[0], ops)
    decreases |ops|
  {
    if ops != [] {
      TopIsFlat(RefStep(r, ops[0]), ops[1..]);
    }
  }

  /** However reads, uncaching and flushes at any level are mixed in, the top of the stack shows one
      flat map under the client's adds and spends. */
  lemma TopShowsFlatMap(v: View, ops: seq<Op>, o: OutPoint)
    requires Inv(v) && LegalRun(RefOf(v), ops) && DropOp !in ops
    ensures Run(v, ops).Some?
    ensures Coin(Run(v, ops).value, o) == Find(FlatRun(Shown(v), ops), o)
  {
    RunRefines(v, ops);
    TopIsFlat(RefOf(v), ops);
    ShownIsCoin(Run(v, ops).value, o);
  }

  /** A flush that goes ahead also hands the best-block hash down, with one gap: a cache that never learned
      a hash overwrites that of a parent cache with the null hash. The parent ends up at this view's best
      block exactly when the flushed hash is not null, the parent is a store, or the parent's own hash is
      null or no different from the one below it. */
  lemma FlushBestBlock(v: View)
    requires v.Cache? && Inv(v)
    ensures Flush(v).Some? <==> CanFlush(v)
    ensures CanFlush(v) ==>
      (BestBlock(Flush(v).value.base) == BestBlock(v) <==>
         || v.hashBlock != 0
         || v.base.Store?
         || v.base.hashBlock == 0
         || v.base.hashBlock == BestBlock(v.base.base))
  {
    FlushKeeps(v);
  }

  /** Asking for the best block first closes the gap. The flush then fails only if it goes to the database
      and no best block is known at all. */
  lemma AskThenFlush(v: View)
    requires v.Cache? && Inv(v)
    ensures var w := AfterGetBest(v);
      && (Flush(w).None? <==> v.base.Store? && v.base.isDatabase && BestBlock(v) == 0)
      && (BestBlock(v) != 0 ==> BestBlock(Flush(w).value.base) == BestBlock(v))
  {
    GetBestKeeps(v);
    assert AfterGetBest(v).hashBlock == BestBlock(v);
    FlushBestBlock(AfterGetBest(v));
  }

  /** The gap is real: a parent at block 7 over a store at block 5 falls back to block 5. */
  lemma FlushBestBlockGap()
    ensures var parent := Cache(map[], 7, 0, Store(map[], 5, true));
            var v := Cache(map[], 0, 0, parent);
            && Inv(v) && BestBlock(v) == 7
            && Flush(v).Some? && BestBlock(Flush(v).value.base) == 5
  {
    var parent := Cache(map[], 7, 0, Store(map[], 5, true));
    var v := Cache(map[], 0, 0, parent);
    FlushKeeps(v);
  }
}
