/** A stack of write-back caches over a store, as values: what every operation does to the whole
    stack, the invariant all of them keep, and the reference they refine: one plain map per level. */
module CashView {
  import opened CashTypes
  import opened Options

  /** The store at the bottom is the database or a plain map in memory. */
  datatype View =
    | Store(coins: map<OutPoint, Cash>, best: uint256, isDatabase: bool)
    | Cache(entries: CashMap, hashBlock: uint256, usage: int, base: View)

  // ---------------------------------------------------------------------
  // The operations

  /** The record a view hands out for `o`, if its GetCash answers true. A store answers true for every
      record it holds, even a spent one; a cache only for an unspent one. */
  function Answer(v: View, o: OutPoint): Option<Cash> {
    match v
    case Store(coins, _, _) => Find(coins, o)
    case Cache(entries, _, _, base) =>
      if o in entries then entries[o].cash.Visible()
      else match Answer(base, o)
           case None => None
           case Some(c) => c.Visible()
  }

  /** The view after its GetCash: every cache on the way down that missed `o` now holds a copy. */
  function AfterGet(v: View, o: OutPoint): View {
    if v.Store? then v else Fetch(v, o)
  }

  function Fetch(v: View, o: OutPoint): (r: View)
    requires v.Cache?
    ensures r.Cache?
  {
    if o in v.entries then v
    else
      var base' := if v.base.Store? then v.base else Fetch(v.base, o);
      match Answer(v.base, o)
      case None => v.(base := base')
      case Some(c) =>
        v.(base := base', entries := v.entries[o := Entry(c, false, c.IsSpent())],
           usage := v.usage + c.MemoryUsage())
  }

  /** AddCash; None stands for the exception "Adding new cash that replaces non-pruned entry". */
  function Add(v: View, o: OutPoint, cash: Cash, overwrite: bool): Option<View>
    requires v.Cache? && !cash.IsSpent()
  {
    if IsUnspendable(cash.out.script) then Some(v)
    else
      var was := if o in v.entries then v.entries[o] else Entry(EMPTY_CASH, false, false);
      if !overwrite && !was.cash.IsSpent() then None
      else
        var makeFresh := !overwrite && !was.isDirty;
        Some(v.(entries := v.entries[o := Entry(cash, true, was.isFresh || makeFresh)],
                usage := v.usage - was.cash.MemoryUsage() + cash.MemoryUsage()))
  }

  /** The view after SpendCash. */
  function Spend(v: View, o: OutPoint): View
    requires v.Cache?
  {
    var f := Fetch(v, o);
    if o !in f.entries then f
    else
      var e := f.entries[o];
      var usage' := f.usage - e.cash.MemoryUsage();
      if e.isFresh then f.(entries := f.entries - {o}, usage := usage')
      else f.(entries := f.entries[o := Entry(EMPTY_CASH, true, false)], usage := usage')
  }

  function Uncache(v: View, o: OutPoint): View
    requires v.Cache?
  {
    if o in v.entries && !v.entries[o].isDirty && !v.entries[o].isFresh then
      v.(entries := v.entries - {o}, usage := v.usage - v.entries[o].cash.MemoryUsage())
    else v
  }

  /** What a child's entry leaves at the same place of its parent cache. */
  function MergeEntry(ours: Option<Entry>, child: Entry): Option<Entry> {
    if !child.isDirty then ours
    else match ours
         case None =>
           if child.isFresh && child.cash.IsSpent() then None
           else Some(Entry(child.cash, true, child.isFresh))
         case Some(u) =>
           if u.isFresh && child.cash.IsSpent() then None
           else Some(Entry(child.cash, true, u.isFresh))
  }

  /** The condition of the exception "FRESH flag misapplied". */
  predicate Misapplied(ours: Option<Entry>, child: Entry) {
    child.isDirty && child.isFresh && ours.Some? && !ours.value.cash.IsSpent()
  }

  function MergeAt(ours: CashMap, child: CashMap, o: OutPoint): Option<Entry> {
    if o in child then MergeEntry(Find(ours, o), child[o]) else Find(ours, o)
  }

  function Merged(ours: CashMap, child: CashMap): CashMap {
    map o | o in ours.Keys + child.Keys && MergeAt(ours, child, o).Some? :: MergeAt(ours, child, o).value
  }

  predicate AnyMisapplied(ours: CashMap, child: CashMap) {
    exists o :: o in child && Misapplied(Find(ours, o), child[o])
  }

  /** The record a store keeps after a batch: the database erases spent ones, a plain map keeps them. */
  function WrittenAt(v: View, child: CashMap, o: OutPoint): Option<Cash>
    requires v.Store?
  {
    if o in child && child[o].isDirty then
      if child[o].cash.IsSpent() && v.isDatabase then None else Some(child[o].cash)
    else Find(v.coins, o)
  }

  function Written(v: View, child: CashMap): map<OutPoint, Cash>
    requires v.Store?
  {
    map o | o in v.coins.Keys + child.Keys && WrittenAt(v, child, o).Some? :: WrittenAt(v, child, o).value
  }

  /** BatchWrite into a view. None stands for the "FRESH flag misapplied" exception of a cache, and for
      the database's assertion that the best block is not null. */
  ghost function BatchWrite(v: View, child: CashMap, hash: uint256): Option<View> {
    match v
    case Store(_, best, isDatabase) =>
      if isDatabase && hash == 0 then None
      else Some(Store(Written(v, child), if hash == 0 then best else hash, isDatabase))
    case Cache(entries, _, usage, base) =>
      if AnyMisapplied(entries, child) then None
      else
        var m := Merged(entries, child);
        Some(Cache(m, hash, usage + SumUsage(m) - SumUsage(entries), base))
  }

  ghost function Flush(v: View): Option<View>
    requires v.Cache?
  {
    match BatchWrite(v.base, v.entries, v.hashBlock)
    case None => None
    case Some(base') => Some(v.(entries := map[], usage := 0, base := base'))
  }

  // ---------------------------------------------------------------------
  // Meaning and invariant

  /** The unspent record a view shows for `o`. */
  function Coin(v: View, o: OutPoint): Option<Cash> {
    match v
    case Store(coins, _, _) => if o in coins then coins[o].Visible() else None
    case Cache(entries, _, _, base) => if o in entries then entries[o].cash.Visible() else Coin(base, o)
  }

  /** A clean entry agrees with the view below; a FRESH entry has nothing unspent below it. */
  predicate EntryOk(e: Entry, below: Option<Cash>) {
    && (!e.isDirty ==> e.cash.Visible() == below)
    && (e.isFresh ==> below.None?)
  }

  ghost predicate Inv(v: View) {
    v.Cache? ==>
      && Inv(v.base)
      && v.usage == SumUsage(v.entries)
      && forall o :: o in v.entries ==> EntryOk(v.entries[o], Coin(v.base, o))
  }

  ghost predicate SameCoins(v: View, w: View) {
    forall o :: Coin(v, o) == Coin(w, o)
  }

  // ---------------------------------------------------------------------
  // Each operation keeps the invariant and does to the coins what it is for

  lemma {:induction false} AnswerIsCoin(v: View, o: OutPoint)
    ensures v.Cache? ==> Answer(v, o) == Coin(v, o)
    ensures Answer(v, o).Some? ==> Answer(v, o).value.Visible() == Coin(v, o)
    ensures Answer(v, o).None? ==> Coin(v, o).None?
  {
    if v.Cache? {
      AnswerIsCoin(v.base, o);
    }
  }

  /** Reading through a stack changes nothing that any reader can see, at any level. */
  lemma {:induction false} FetchKeeps(v: View, o: OutPoint)
    requires v.Cache? && Inv(v)
    ensures Inv(Fetch(v, o)) && SameCoins(v, Fetch(v, o))
    ensures SameCoins(v.base, Fetch(v, o).base)
    ensures Fetch(v, o).hashBlock == v.hashBlock
    ensures o in Fetch(v, o).entries ==> Fetch(v, o).entries[o].cash.Visible() == Coin(v, o)
    ensures o !in Fetch(v, o).entries ==> Coin(v, o).None?
    ensures Coin(v, o).Some? ==> o in Fetch(v, o).entries
    ensures forall p :: p != o ==> Find(Fetch(v, o).entries, p) == Find(v.entries, p)
  {
    if o !in v.entries {
      AnswerIsCoin(v.base, o);
      if v.base.Cache? {
        FetchKeeps(v.base, o);
      }
      var a := Answer(v.base, o);
      if a.Some? {
        SumUsageStore(v.entries, o, Entry(a.value, false, a.value.IsSpent()));
      }
    }
  }

  /** AddCash succeeds and keeps the invariant exactly when its caller allowed an overwrite or the
      output is not currently unspent in this view. */
  lemma AddKeeps(v: View, o: OutPoint, cash: Cash, overwrite: bool)
    requires v.Cache? && Inv(v) && !cash.IsSpent() && !IsUnspendable(cash.out.script)
    ensures (Add(v, o, cash, overwrite).Some? && Inv(Add(v, o, cash, overwrite).value))
       <==> (overwrite || Coin(v, o).None?)
    ensures Add(v, o, cash, overwrite).Some? ==>
              && Add(v, o, cash, overwrite).value.Cache?
              && Add(v, o, cash, overwrite).value.base == v.base
              && forall p :: Coin(Add(v, o, cash, overwrite).value, p) == if p == o then Some(cash) else Coin(v, p)
  {
    var r := Add(v, o, cash, overwrite);
    if r.Some? {
      SumUsageStore(v.entries, o, r.value.entries[o]);
      assert r.value.entries[o].isFresh ==> !overwrite || o in v.entries;
      if o !in v.entries && !overwrite {
        assert !EntryOk(r.value.entries[o], Coin(v.base, o)) <==> Coin(v, o).Some?;
      }
    }
  }

  /** Why the caller's condition matters: an output added as new over an unspent one that is not in
      this cache comes back, with its old contents, as soon as the new one is spent. */
  lemma MisusedAddResurrects(v: View, o: OutPoint, cash: Cash)
    requires v.Cache? && Inv(v) && !cash.IsSpent() && !IsUnspendable(cash.out.script)
    requires o !in v.entries && Coin(v, o).Some?
    ensures Add(v, o, cash, false).Some?
    ensures Coin(Add(v, o, cash, false).value, o) == Some(cash)
    ensures Coin(Spend(Add(v, o, cash, false).value, o), o) == Coin(v, o)
  {
  }

  lemma SpendKeeps(v: View, o: OutPoint)
    requires v.Cache? && Inv(v)
    ensures Inv(Spend(v, o)) && Spend(v, o).Cache?
    ensures forall p :: Coin(Spend(v, o), p) == if p == o then None else Coin(v, p)
    ensures SameCoins(v.base, Spend(v, o).base)
  {
    var f := Fetch(v, o);
    FetchKeeps(v, o);
    if o in f.entries {
      SumUsageSplit(f.entries, o);
      SumUsageStore(f.entries, o, Entry(EMPTY_CASH, true, false));
    }
  }

  lemma UncacheKeeps(v: View, o: OutPoint)
    requires v.Cache? && Inv(v)
    ensures Inv(Uncache(v, o)) && SameCoins(v, Uncache(v, o))
    ensures Uncache(v, o).Cache? && Uncache(v, o).base == v.base
    ensures forall p :: p != o ==> Find(Uncache(v, o).entries, p) == Find(v.entries, p)
    ensures o in Uncache(v, o).entries <==> o in v.entries && (v.entries[o].isDirty || v.entries[o].isFresh)
  {
    if o in v.entries {
      SumUsageSplit(v.entries, o);
    }
  }

  /** The flag rules of BatchWrite: dropping, creating, erasing or overwriting the parent's entry leaves
      the parent showing what the child showed, with flags that are right against the grandparent. */
  lemma MergeEntryRight(ours: Option<Entry>, child: Entry, below: Option<Cash>, shown: Option<Cash>)
    requires ours.Some? ==> EntryOk(ours.value, below)
    requires shown == if ours.Some? then ours.value.cash.Visible() else below
    requires EntryOk(child, shown)
    ensures !Misapplied(ours, child)
    ensures var m := MergeEntry(ours, child);
            && (m.Some? ==> EntryOk(m.value, below))
            && (if m.Some? then m.value.cash.Visible() else below) == child.cash.Visible()
  {
  }

  /** The database below must be told a best block. */
  predicate CanFlush(v: View) {
    v.Cache? && (v.base.Store? && v.base.isDatabase ==> v.hashBlock != 0)
  }

  /** Flushing never throws, and fails only for want of a best block: the parent ends up showing what the
      child showed and the child, now empty, still shows it. */
  lemma FlushKeeps(v: View)
    requires v.Cache? && Inv(v)
    ensures Flush(v).Some? <==> CanFlush(v)
    ensures CanFlush(v) ==>
              && Flush(v).value.Cache? && Flush(v).value.entries == map[] && Flush(v).value.usage == 0
              && Inv(Flush(v).value) && SameCoins(Flush(v).value, v)
              && SameCoins(Flush(v).value.base, v)
              && (v.base.Cache? ==> Flush(v).value.base.Cache? && Flush(v).value.base.base == v.base.base)
              && (v.base.Store? ==> Flush(v).value.base.Store? && Flush(v).value.base.isDatabase == v.base.isDatabase)
  {
    var b := v.base;
    if b.Cache? {
      forall o | o in v.entries
        ensures !Misapplied(Find(b.entries, o), v.entries[o])
      {
        MergeEntryRight(Find(b.entries, o), v.entries[o], Coin(b.base, o), Coin(b, o));
      }
      var b' := Flush(v).value.base;
      forall o
        ensures o in b'.entries ==> EntryOk(b'.entries[o], Coin(b.base, o))
        ensures Coin(b', o) == Coin(v, o)
      {
        if o in v.entries {
          MergeEntryRight(Find(b.entries, o), v.entries[o], Coin(b.base, o), Coin(b, o));
        }
        assert Find(b'.entries, o) == MergeAt(b.entries, v.entries, o);
      }
    } else if CanFlush(v) {
      var b' := Flush(v).value.base;
      forall o
        ensures Coin(b', o) == Coin(v, o)
      {
        assert Find(b'.coins, o) == WrittenAt(b, v.entries, o);
      }
    }
  }
}
