/** The view objects themselves: a store and write-back caches that update their maps in place. Every
    method is tied to the operation of module CashView on the value of the whole stack. */
module CashCache {
  import opened CashTypes
  import opened Options
  import V = CashView
  import R = CashRuns

  /** What the disk holds: records, the best block (null while a write is under way) and then the block
      written towards and the one written from. */
  datatype Disk = Disk(coins: map<OutPoint, Cash>, best: uint256, heads: seq<uint256>)

  /** The block that a write starts from: the best one, or that of the write it continues. */
  function OldTip(d: Disk): uint256 {
    if d.best == 0 && |d.heads| == 2 then d.heads[1] else d.best
  }

  /** The assertions of the database: the new best block is not null, and a write that was interrupted is
      continued towards the same block. */
  predicate Accepts(d: Disk, hash: uint256) {
    hash != 0 && (d.best == 0 && |d.heads| == 2 ==> d.heads[0] == hash)
  }

  /** At any moment of a write the disk is marked with where it comes from and goes to, and every record is
      the old or the new one; or the write is complete. */
  ghost predicate Recoverable(was: Disk, batch: CashMap, hash: uint256, d: Disk) {
    var v := V.Store(was.coins, was.best, true);
    || d == Disk(V.Written(v, batch), hash, [])
    || (d.best == 0 && d.heads == [hash, OldTip(was)] && HalfWritten(v, batch, d.coins))
  }

  ghost predicate HalfWritten(v: V.View, batch: CashMap, coins: map<OutPoint, Cash>) {
    v.Store? && forall o :: Find(coins, o) == Find(v.coins, o) || Find(coins, o) == V.WrittenAt(v, batch, o)
  }

  /** Writing the same batch again completes a write that was interrupted at any moment. */
  lemma WriteAgain(was: Disk, batch: CashMap, hash: uint256, d: Disk)
    requires Recoverable(was, batch, hash, d) && Accepts(was, hash)
    ensures Accepts(d, hash) && V.Written(V.Store(d.coins, d.best, true), batch) ==
                                V.Written(V.Store(was.coins, was.best, true), batch)
    ensures d.best == 0 ==> OldTip(d) == OldTip(was)
  {
    var v, w := V.Store(was.coins, was.best, true), V.Store(d.coins, d.best, true);
    forall o
      ensures Find(V.Written(w, batch), o) == Find(V.Written(v, batch), o)
    {
      assert Find(V.Written(v, batch), o) == V.WrittenAt(v, batch, o);
      assert Find(V.Written(w, batch), o) == V.WrittenAt(w, batch, o);
    }
    MapFromFind(V.Written(w, batch), V.Written(v, batch));
  }

  type Changes = map<OutPoint, Option<Cash>>

  function ChangedAt(coins: map<OutPoint, Cash>, changes: Changes, o: OutPoint): Option<Cash> {
    if o in changes then changes[o] else Find(coins, o)
  }

  /** One atomic write of collected changes. */
  function Changed(coins: map<OutPoint, Cash>, changes: Changes): map<OutPoint, Cash> {
    map o | o in coins.Keys + changes.Keys && ChangedAt(coins, changes, o).Some? :: ChangedAt(coins, changes, o).value
  }

  lemma ChangedMore(coins: map<OutPoint, Cash>, changes: Changes, o: OutPoint, c: Option<Cash>)
    ensures Changed(coins, changes[o := c]) ==
            if c.Some? then Changed(coins, changes)[o := c.value] else Changed(coins, changes) - {o}
  {
    var m := Changed(coins, changes[o := c]);
    var w := if c.Some? then Changed(coins, changes)[o := c.value] else Changed(coins, changes) - {o};
    forall p
      ensures Find(m, p) == Find(w, p)
    {
    }
    MapFromFind(m, w);
  }

  lemma ChangedNone(coins: map<OutPoint, Cash>)
    ensures Changed(coins, map[]) == coins
  {
    MapFromFind(Changed(coins, map[]), coins);
  }

  class CashStore {
    var coins: map<OutPoint, Cash>
    var best: uint256
    var heads: seq<uint256>
    const isDatabase: bool
    /** Whether the batch is large enough to be written after so many entries. */
    const full: nat -> bool
    /** The states that the disk has gone through. */
    ghost var trace: seq<Disk>

    constructor (coins: map<OutPoint, Cash>, best: uint256, isDatabase: bool, full: nat -> bool)
      ensures Value() == V.Store(coins, best, isDatabase) && heads == []
    {
      this.coins, this.best, this.heads, this.trace := coins, best, [], [];
      this.isDatabase, this.full := isDatabase, full;
    }

    function Value(): V.View
      reads this
    {
      V.Store(coins, best, isDatabase)
    }

    function OnDisk(): Disk
      reads this
    {
      Disk(coins, best, heads)
    }

    /** Writes the dirty entries in any order. False is a failed assertion of the database. */
    method BatchWrite(batch: CashMap, hash: uint256) returns (ok: bool)
      modifies this
      ensures ok <==> (isDatabase ==> Accepts(old(OnDisk()), hash))
      ensures !ok ==> OnDisk() == old(OnDisk())
      ensures ok ==> Some(Value()) == V.BatchWrite(old(Value()), batch, hash)
      ensures ok ==> heads == if isDatabase then [] else old(heads)
      ensures isDatabase ==> Went(old(trace), trace, old(OnDisk()), batch, hash)
    {
      if isDatabase {
        ok := WriteDatabase(batch, hash);
      } else {
        WriteMap(batch, hash);
        ok := true;
      }
    }

    /** Into a plain map, which keeps spent records and ignores a null best block. */
    method WriteMap(batch: CashMap, hash: uint256)
      requires !isDatabase
      modifies this`coins, this`best
      ensures Some(Value()) == V.BatchWrite(old(Value()), batch, hash)
    {
      hide PartlyWritten, V.Written;
      ghost var was := Value();
      var todo := batch;
      PartlyWrittenNone(was, batch);
      while todo != map[]
        invariant PartlyWritten(was, batch, todo, coins) && best == was.best
        decreases |todo|
      {
        var o :| o in todo;
        PartlyWrittenStep(was, batch, todo, coins, o);
        if todo[o].isDirty {
          coins := coins[o := todo[o].cash];
        }
        todo := todo - {o};
      }
      PartlyWrittenDone(was, batch, coins);
      if hash != 0 {
        best := hash;
      }
    }

    /** Into the database, in batches: the first removes the best block and marks the write as under way,
        the last one undoes that. */
    method WriteDatabase(batch: CashMap, hash: uint256) returns (ok: bool)
      requires isDatabase
      modifies this
      ensures ok <==> Accepts(old(OnDisk()), hash)
      ensures !ok ==> OnDisk() == old(OnDisk())
      ensures ok ==> Some(Value()) == V.BatchWrite(old(Value()), batch, hash) && heads == []
      ensures Went(old(trace), trace, old(OnDisk()), batch, hash)
    {
      hide Recoverable, HalfWritten, PartlyWritten, V.Written, Changed, Went;
      WentNowhere(trace, OnDisk(), batch, hash);
      if hash == 0 {
        return false;
      }
      var oldTip := best;
      if oldTip == 0 && |heads| == 2 {
        if heads[0] != hash {
          return false;
        }
        oldTip := heads[1];
      }
      ghost var was, disk := Value(), OnDisk();
      var changes: Changes := map[];
      var todo, count := batch, 0;
      PartlyWrittenNone(was, batch);
      ChangedNone(coins);
      while todo != map[]
        invariant PartlyWritten(was, batch, todo, Changed(coins, changes))
        invariant Went(old(trace), trace, disk, batch, hash)
        decreases |todo|
      {
        var o :| o in todo;
        PartlyWrittenStep(was, batch, todo, Changed(coins, changes), o);
        if todo[o].isDirty {
          var c := if todo[o].cash.IsSpent() then None else Some(todo[o].cash);
          ChangedMore(coins, changes, o, c);
          changes := changes[o := c];
        }
        count := count + 1;
        todo := todo - {o};
        if full(count) {
          ghost var before := trace;
          WriteChanges(changes, 0, [hash, oldTip]);
          ChangedNone(coins);
          changes := map[];
          PartIsRecoverable(disk, batch, todo, hash, OnDisk());
          WentOn(old(trace), before, disk, batch, hash, OnDisk());
        }
      }
      ghost var before := trace;
      WriteChanges(changes, hash, []);
      PartlyWrittenDone(was, batch, coins);
      DoneIsRecoverable(disk, batch, hash, OnDisk());
      WentOn(old(trace), before, disk, batch, hash, OnDisk());
      ok := true;
    }

    /** One atomic write, with the two markers. */
    method WriteChanges(changes: Changes, best': uint256, heads': seq<uint256>)
      modifies this
      ensures OnDisk() == Disk(Changed(old(coins), changes), best', heads') && trace == old(trace) + [OnDisk()]
    {
      coins, best, heads := Changed(coins, changes), best', heads';
      trace := trace + [OnDisk()];
    }
  }

  /** The states the disk has gone through since are recoverable. */
  ghost predicate Went(from: seq<Disk>, to: seq<Disk>, was: Disk, batch: CashMap, hash: uint256) {
    |from| <= |to| && to[..|from|] == from && forall i :: |from| <= i < |to| ==> Recoverable(was, batch, hash, to[i])
  }

  lemma WentNowhere(trace: seq<Disk>, was: Disk, batch: CashMap, hash: uint256)
    ensures Went(trace, trace, was, batch, hash)
  {
  }

  lemma WentOn(from: seq<Disk>, to: seq<Disk>, was: Disk, batch: CashMap, hash: uint256, d: Disk)
    requires Went(from, to, was, batch, hash) && Recoverable(was, batch, hash, d)
    ensures Went(from, to + [d], was, batch, hash)
  {
  }

  lemma PartIsRecoverable(was: Disk, batch: CashMap, todo: CashMap, hash: uint256, d: Disk)
    requires PartlyWritten(V.Store(was.coins, was.best, true), batch, todo, d.coins)
    requires d.best == 0 && d.heads == [hash, OldTip(was)]
    ensures Recoverable(was, batch, hash, d)
  {
  }

  lemma DoneIsRecoverable(was: Disk, batch: CashMap, hash: uint256, d: Disk)
    requires d == Disk(V.Written(V.Store(was.coins, was.best, true), batch), hash, [])
    ensures Recoverable(was, batch, hash, d)
  {
  }

  lemma PartlyWrittenNone(was: V.View, batch: CashMap)
    requires was.Store?
    ensures PartlyWritten(was, batch, batch, was.coins)
  {
  }

  /** The entries still to do are untouched in the store; the others are written. */
  ghost predicate PartlyWritten(was: V.View, batch: CashMap, todo: CashMap, coins: map<OutPoint, Cash>) {
    && was.Store?
    && (forall o :: o in todo ==> o in batch && todo[o] == batch[o])
    && forall o :: Find(coins, o) == if o in todo then Find(was.coins, o) else V.WrittenAt(was, batch, o)
  }

  lemma PartlyWrittenStep(was: V.View, batch: CashMap, todo: CashMap, coins: map<OutPoint, Cash>, o: OutPoint)
    requires PartlyWritten(was, batch, todo, coins) && o in todo
    ensures var coins' :=
              if !todo[o].isDirty then coins
              else if todo[o].cash.IsSpent() && was.isDatabase then coins - {o}
              else coins[o := todo[o].cash];
            PartlyWritten(was, batch, todo - {o}, coins')
    ensures |todo - {o}| < |todo|
  {
    MapRemoveSmaller(todo, o);
  }

  lemma PartlyWrittenDone(was: V.View, batch: CashMap, coins: map<OutPoint, Cash>)
    requires PartlyWritten(was, batch, map[], coins)
    ensures coins == V.Written(was, batch)
  {
    MapFromFind(coins, V.Written(was, batch));
  }

  /** CCashViewCache. A cache stands directly on the store or on another cache. */
  class CashViewCache {
    var entries: CashMap
    var hashBlock: uint256
    var usage: int
    const base: CashViewCache?
    const store: CashStore
    ghost const repr: set<object>

    ghost predicate Valid()
      decreases repr
    {
      && this in repr
      && store in repr
      && if base == null then repr == {this, store}
         else base in repr && base.repr < repr && repr == {this} + base.repr && this !in base.repr && base.Valid()
    }

    /** The value of the whole stack below and including this cache. */
    ghost function Value(): (v: V.View)
      requires Valid()
      reads repr
      ensures v.Cache? && v.entries == entries && v.hashBlock == hashBlock && v.usage == usage
      decreases repr
    {
      V.Cache(entries, hashBlock, usage, BaseValue())
    }

    ghost function BaseValue(): V.View
      requires Valid()
      reads repr - {this}
      decreases repr, 0
    {
      if base == null then store.Value() else base.Value()
    }

    constructor OverStore(store: CashStore)
      ensures Valid() && fresh(repr - {store}) && this.store == store && base == null
      ensures Value() == V.Cache(map[], 0, 0, old(store.Value()))
    {
      this.entries, this.hashBlock, this.usage := map[], 0, 0;
      this.base, this.store := null, store;
      this.repr := {this, store};
    }

    constructor OverCache(base: CashViewCache)
      requires base.Valid()
      ensures Valid() && fresh(repr - base.repr) && this.base == base
      ensures Value() == V.Cache(map[], 0, 0, old(base.Value()))
    {
      this.entries, this.hashBlock, this.usage := map[], 0, 0;
      this.base, this.store := base, base.store;
      this.repr := {this} + base.repr;
    }

    method FetchCash(o: OutPoint) returns (e: Option<Entry>)
      requires Valid()
      modifies repr
      ensures Value() == V.Fetch(old(Value()), o)
      ensures e == Find(entries, o)
      decreases repr, 0
    {
      if o in entries {
        return Some(entries[o]);
      }
      var found: Option<Cash>;
      if base == null {
        found := Find(store.coins, o);
      } else {
        found := base.GetCash(o);
      }
      match found
      case None => e := None;
      case Some(tmp) =>
        entries := entries[o := Entry(tmp, false, tmp.IsSpent())];
        usage := usage + tmp.MemoryUsage();
        e := Some(entries[o]);
    }

    /** Answers with the record only if it is unspent. */
    method GetCash(o: OutPoint) returns (r: Option<Cash>)
      requires Valid()
      modifies repr
      ensures Value() == V.AfterGet(old(Value()), o)
      ensures r == V.Answer(old(Value()), o)
      decreases repr
    {
      var e := FetchCash(o);
      r := if e.Some? then e.value.cash.Visible() else None;
    }

    /** False is the exception for replacing an unspent entry; the entry is then as it was, but its
        memory has already been taken off the account. */
    method AddCash(o: OutPoint, cash: Cash, possibleOverwrite: bool) returns (ok: bool)
      requires Valid() && !cash.IsSpent()
      modifies this
      ensures ok <==> V.Add(old(Value()), o, cash, possibleOverwrite).Some?
      ensures ok ==> Some(Value()) == V.Add(old(Value()), o, cash, possibleOverwrite)
      ensures !ok ==> o in entries && Value() == old(Value()).(usage := old(usage) - entries[o].cash.MemoryUsage())
    {
      if IsUnspendable(cash.out.script) {
        return true;
      }
      var inserted := o !in entries;
      if inserted {
        entries := entries[o := Entry(EMPTY_CASH, false, false)];
      }
      var makeFresh := false;
      if !inserted {
        usage := usage - entries[o].cash.MemoryUsage();
      }
      if !possibleOverwrite {
        if !entries[o].cash.IsSpent() {
          return false;
        }
        makeFresh := !entries[o].isDirty;
      }
      entries := entries[o := Entry(cash, true, entries[o].isFresh || makeFresh)];
      usage := usage + cash.MemoryUsage();
      assert entries == old(entries)[o := entries[o]];
      ok := true;
    }

    /** Answers whether the cache held a record, even a spent one, after looking for it below. */
    method SpendCash(o: OutPoint) returns (r: bool, moved: Cash)
      requires Valid()
      modifies repr
      ensures Value() == V.Spend(old(Value()), o)
      ensures r <==> o in V.Fetch(old(Value()), o).entries
      ensures r ==> moved == V.Fetch(old(Value()), o).entries[o].cash
    {
      moved := EMPTY_CASH;
      var e := FetchCash(o);
      if e.None? {
        return false, moved;
      }
      usage := usage - e.value.cash.MemoryUsage();
      moved := e.value.cash;
      if e.value.isFresh {
        entries := entries - {o};
      } else {
        entries := entries[o := Entry(EMPTY_CASH, true, false)];
      }
      r := true;
    }

    method AccessCash(o: OutPoint) returns (c: Cash)
      requires Valid()
      modifies repr
      ensures Value() == V.Fetch(old(Value()), o)
      ensures V.Inv(old(Value())) ==> c.Visible() == V.Coin(old(Value()), o)
    {
      var e := FetchCash(o);
      if V.Inv(old(Value())) {
        V.FetchKeeps(old(Value()), o);
      }
      c := if e.Some? then e.value.cash else EMPTY_CASH;
    }

    method HaveCash(o: OutPoint) returns (r: bool)
      requires Valid()
      modifies repr
      ensures Value() == V.Fetch(old(Value()), o)
      ensures r <==> V.Coin(old(Value()), o).Some?
    {
      V.AnswerIsCoin(Value(), o);
      var e := FetchCash(o);
      r := e.Some? && !e.value.cash.IsSpent();
    }

    method GetBestBlock() returns (h: uint256)
      requires Valid()
      modifies repr
      ensures Value() == R.AfterGetBest(old(Value()))
      ensures h == R.BestBlock(old(Value()))
      decreases repr
    {
      if hashBlock == 0 {
        var below: uint256;
        if base == null {
          below := store.best;
        } else {
          below := base.GetBestBlock();
        }
        hashBlock := below;
      }
      h := hashBlock;
    }

    method SetBestBlock(h: uint256)
      requires Valid()
      modifies this
      ensures Value() == V.Cache(old(entries), h, old(usage), old(BaseValue()))
    {
      hashBlock := h;
    }

    /** The body of the merge loop for one dirty or clean entry of the child. */
    method MergeOne(o: OutPoint, child: Entry) returns (ok: bool)
      modifies this`entries, this`usage
      ensures ok <==> !V.Misapplied(Find(old(entries), o), child)
      ensures ok ==> entries == MergeInto(old(entries), o, child)
      ensures ok ==> usage == old(usage) + SumUsage(entries) - SumUsage(old(entries))
    {
      MergeUsage(entries, o, child);
      if child.isDirty {
        if o !in entries {
          if !(child.isFresh && child.cash.IsSpent()) {
            entries := entries[o := Entry(child.cash, true, child.isFresh)];
            usage := usage + child.cash.MemoryUsage();
          }
        } else {
          if child.isFresh && !entries[o].cash.IsSpent() {
            return false;
          }
          if entries[o].isFresh && child.cash.IsSpent() {
            usage := usage - entries[o].cash.MemoryUsage();
            entries := entries - {o};
          } else {
            usage := usage - entries[o].cash.MemoryUsage();
            entries := entries[o := Entry(child.cash, true, entries[o].isFresh)];
            usage := usage + child.cash.MemoryUsage();
          }
        }
      }
      ok := true;
    }

    method MergeAll(batch: CashMap) returns (ok: bool)
      modifies this`entries, this`usage
      ensures ok <==> !V.AnyMisapplied(old(entries), batch)
      ensures ok ==> entries == V.Merged(old(entries), batch)
      ensures ok ==> usage == old(usage) + SumUsage(entries) - SumUsage(old(entries))
    {
      ghost var was := entries;
      var todo := batch;
      while todo != map[]
        invariant PartlyMerged(was, batch, todo, entries)
        invariant usage == old(usage) + SumUsage(entries) - SumUsage(was)
        decreases |todo|
      {
        var o :| o in todo;
        PartlyMergedStep(was, batch, todo, entries, o);
        var merged := MergeOne(o, todo[o]);
        if !merged {
          return false;
        }
        todo := todo - {o};
      }
      PartlyMergedDone(was, batch, entries);
      ok := true;
    }

    /** Merges a child's entries, in any order. False is the exception for a misapplied FRESH flag; it
        comes exactly when some entry deserves it. */
    method BatchWrite(batch: CashMap, hash: uint256) returns (ok: bool)
      requires Valid()
      modifies this
      ensures ok <==> V.BatchWrite(old(Value()), batch, hash).Some?
      ensures ok ==> Some(Value()) == V.BatchWrite(old(Value()), batch, hash)
    {
      ok := MergeAll(batch);
      if ok {
        hashBlock := hash;
      }
    }

    method Flush() returns (ok: bool)
      requires Valid()
      modifies repr
      ensures ok ==> Some(Value()) == V.Flush(old(Value()))
      ensures old(store.heads) == [] || base != null ==>
        (ok <==> V.Flush(old(Value())).Some?) && (V.Inv(old(Value())) ==> (ok <==> V.CanFlush(old(Value()))))
    {
      if V.Inv(Value()) {
        V.FlushKeeps(Value());
      }
      if base == null {
        ok := store.BatchWrite(entries, hashBlock);
      } else {
        ok := base.BatchWrite(entries, hashBlock);
      }
      if !ok {
        return;
      }
      entries := map[];
      usage := 0;
    }

    method Uncache(o: OutPoint)
      requires Valid()
      modifies this
      ensures Value() == V.Uncache(old(Value()), o)
    {
      if o in entries && !entries[o].isDirty && !entries[o].isFresh {
        usage := usage - entries[o].cash.MemoryUsage();
        entries := entries - {o};
      }
    }

    /** Adds all outputs of a transaction. With `check` the view is asked before each addition, so the
        call always succeeds; without it the caller vouches that no output of a transaction other than
        a cashbase is currently unspent. */
    method AddTransaction(tx: Transaction, height: nat, check: bool) returns (ok: bool)
      requires Valid() && V.Inv(Value())
      requires forall i :: 0 <= i < |tx.vout| ==> tx.vout[i].value != -1
      modifies repr
      ensures check || tx.IsCashBase() || NoneUnspent(old(Value()), tx, 0) ==>
                && ok && V.Inv(Value())
                && forall p :: V.Coin(Value(), p) == AfterOutputs(old(Value()), tx, height, |tx.vout|, p)
    {
      ghost var was := Value();
      ghost var legal := check || tx.IsCashBase() || NoneUnspent(was, tx, 0);
      var i := 0;
      while i < |tx.vout|
        invariant 0 <= i <= |tx.vout|
        invariant legal ==> PartlyAdded(was, Value(), tx, height, i)
      {
        var o := OutPoint(tx.id, i);
        var cash := Cash(tx.vout[i], tx.IsCashBase(), height);
        ghost var before := Value();
        var overwrite := tx.IsCashBase();
        if check {
          overwrite := HaveCash(o);
        }
        if legal {
          PartlyAddedStep(was, before, Value(), tx, height, i, overwrite);
        }
        var added := AddCash(o, cash, overwrite);
        if !added {
          return false;
        }
        i := i + 1;
      }
      ok := true;
    }
  }

  predicate Spendable(out: TxOut) {
    !IsUnspendable(out.script)
  }

  ghost predicate NoneUnspent(v: V.View, tx: Transaction, from: nat) {
    forall i :: from <= i < |tx.vout| && Spendable(tx.vout[i]) ==> V.Coin(v, OutPoint(tx.id, i)).None?
  }

  /** What a view shows at `p` once the first `count` outputs of a transaction are added to it. */
  ghost function AfterOutputs(v: V.View, tx: Transaction, height: nat, count: nat, p: OutPoint): Option<Cash>
    requires count <= |tx.vout|
  {
    if p.hash == tx.id && p.n < count && Spendable(tx.vout[p.n]) then
      Some(Cash(tx.vout[p.n], tx.IsCashBase(), height))
    else V.Coin(v, p)
  }

  ghost predicate PartlyAdded(was: V.View, now: V.View, tx: Transaction, height: nat, count: nat)
    requires count <= |tx.vout|
  {
    && now.Cache? && V.Inv(now)
    && forall p :: V.Coin(now, p) == AfterOutputs(was, tx, height, count, p)
  }

  lemma PartlyAddedStep(was: V.View, before: V.View, asked: V.View, tx: Transaction, height: nat, i: nat,
                        overwrite: bool)
    requires i < |tx.vout| && tx.vout[i].value != -1
    requires PartlyAdded(was, before, tx, height, i)
    requires asked == before || asked == V.Fetch(before, OutPoint(tx.id, i))
    requires overwrite || V.Coin(before, OutPoint(tx.id, i)).None? || !Spendable(tx.vout[i])
    ensures asked.Cache?
    ensures var r := V.Add(asked, OutPoint(tx.id, i), Cash(tx.vout[i], tx.IsCashBase(), height), overwrite);
            r.Some? && PartlyAdded(was, r.value, tx, height, i + 1)
  {
    var o := OutPoint(tx.id, i);
    V.FetchKeeps(before, o);
    if Spendable(tx.vout[i]) {
      V.AddKeeps(asked, o, Cash(tx.vout[i], tx.IsCashBase(), height), overwrite);
    }
  }

  /** The entries still to do are untouched in the parent; the others are merged without an exception. */
  ghost predicate PartlyMerged(was: CashMap, batch: CashMap, todo: CashMap, entries: CashMap) {
    && (forall o :: o in todo ==> o in batch && todo[o] == batch[o])
    && (forall o :: o in batch && o !in todo ==> !V.Misapplied(Find(was, o), batch[o]))
    && forall o :: Find(entries, o) == if o in todo then Find(was, o) else V.MergeAt(was, batch, o)
  }

  function MergeInto(entries: CashMap, o: OutPoint, child: Entry): CashMap {
    var m := V.MergeEntry(Find(entries, o), child);
    if m.Some? then entries[o := m.value] else entries - {o}
  }

  lemma PartlyMergedStep(was: CashMap, batch: CashMap, todo: CashMap, entries: CashMap, o: OutPoint)
    requires PartlyMerged(was, batch, todo, entries) && o in todo
    ensures Find(entries, o) == Find(was, o)
    ensures if V.Misapplied(Find(entries, o), todo[o]) then V.AnyMisapplied(was, batch)
            else PartlyMerged(was, batch, todo - {o}, MergeInto(entries, o, todo[o]))
    ensures |todo - {o}| < |todo|
  {
    MapRemoveSmaller(todo, o);
    if !V.Misapplied(Find(entries, o), todo[o]) {
      forall p
        ensures Find(MergeInto(entries, o, todo[o]), p)
             == if p in todo - {o} then Find(was, p) else V.MergeAt(was, batch, p)
      {
      }
    } else {
      assert o in batch && V.Misapplied(Find(was, o), batch[o]);
    }
  }

  lemma PartlyMergedDone(was: CashMap, batch: CashMap, entries: CashMap)
    requires PartlyMerged(was, batch, map[], entries)
    ensures !V.AnyMisapplied(was, batch)
    ensures entries == V.Merged(was, batch)
  {
    MapFromFind(entries, V.Merged(was, batch));
  }

  lemma MergeUsage(entries: CashMap, o: OutPoint, child: Entry)
    ensures var m := MergeInto(entries, o, child);
            SumUsage(m) == SumUsage(entries)
              - (if o in entries then entries[o].cash.MemoryUsage() else 0)
              + (if o in m then m[o].cash.MemoryUsage() else 0)
    ensures o !in entries ==> entries - {o} == entries
    ensures o in entries ==> entries[o := entries[o]] == entries
  {
    if o in entries {
      SumUsageSplit(entries, o);
      assert entries[o := entries[o]] == entries;
    } else {
      assert entries - {o} == entries;
    }
    var r := V.MergeEntry(Find(entries, o), child);
    if r.Some? {
      SumUsageStore(entries, o, r.value);
    }
  }

  lemma MapFromFind<K, T>(m: map<K, T>, w: map<K, T>)
    requires forall k :: Find(m, k) == Find(w, k)
    ensures m == w
  {
    assert forall k :: k in m <==> Find(m, k).Some?;
    assert forall k :: k in w <==> Find(w, k).Some?;
    assert m.Keys == w.Keys;
    assert forall k :: k in m ==> Find(m, k) == Some(m[k]) && Find(w, k) == Some(w[k]);
  }
}
