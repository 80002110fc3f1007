/** One shard of the LRU cache: reference counts, the two lists, the charge in use, and evictions. */
module LruCache {
  import opened Options
  import opened HandleTable
  import opened LruRing

  function Charges(s: seq<Handle>): nat {
    if s == [] then 0 else s[0].charge + Charges(s[1..])
  }

  lemma {:induction false} DropFacts(s: seq<Handle>, e: Handle)
    requires NoRepeats(s)
    ensures NoRepeats(Drop(s, e)) && forall x :: x in Drop(s, e) <==> x in s && x != e
    ensures Charges(Drop(s, e)) == Charges(s) - (if e in s then e.charge else 0)
    ensures e !in s ==> Drop(s, e) == s
    decreases |s|
  {
    if s != [] {
      DropFacts(s[1..], e);
      assert s[0] !in s[1..];
      assert forall x :: x in s <==> x == s[0] || x in s[1..];
      if s[0] != e {
        PushFacts(s[0], Drop(s[1..], e));
      }
    }
  }

  lemma PushFacts(x: Handle, s: seq<Handle>)
    requires NoRepeats(s) && x !in s
    ensures NoRepeats([x] + s) && Charges([x] + s) == x.charge + Charges(s)
    ensures forall y :: y in [x] + s <==> y == x || y in s
  {
    assert ([x] + s)[1..] == s;
  }

  lemma {:induction false} AppendFacts(s: seq<Handle>, e: Handle)
    requires NoRepeats(s) && e !in s
    ensures NoRepeats(s + [e]) && forall x :: x in s + [e] <==> x in s || x == e
    ensures Charges(s + [e]) == Charges(s) + e.charge
    decreases |s|
  {
    if s != [] {
      AppendFacts(s[1..], e);
      assert (s + [e])[1..] == s[1..] + [e];
    } else {
      assert [e][1..] == [];
    }
  }

  /** A shard's state beside its table. freed lists the entries in the order their deleters ran; held
      counts the handles that clients have, made lists all entries ever created. */
  datatype Shard = Shard(usage: int, lru: seq<Handle>, inUse: seq<Handle>, refs: map<Handle, nat>, inCache: set<Handle>,
                         freed: seq<Handle>, held: multiset<Handle>, made: seq<Handle>)

  /** Each cached entry is on exactly one list: on lru just when the cache has its only reference. */
  ghost predicate Listed(s: Shard) {
    && NoRepeats(s.lru) && NoRepeats(s.inUse)
    && (forall e :: e in s.lru <==> e in s.inCache && e in s.refs && s.refs[e] == 1)
    && (forall e :: e in s.inUse <==> e in s.inCache && e in s.refs && s.refs[e] > 1)
  }

  /** Reference counts: one for each handle held, one for the cache. */
  ghost predicate Counted(s: Shard) {
    && (forall e :: e in s.refs ==> s.refs[e] > 0 && s.refs[e] == s.held[e] + (if e in s.inCache then 1 else 0))
    && (forall e :: e in s.held ==> e in s.refs)
    && (forall e :: e in s.inCache ==> e in s.refs)
  }

  /** The table finds exactly the cached entries; limbo has just been taken out of the table. */
  ghost predicate Tabled(s: Shard, c: map<Slot, Handle>, limbo: Option<Handle>) {
    && (forall t :: t in c ==> SlotOf(c[t]) == t && c[t] in s.inCache)
    && (forall e :: e in s.inCache ==> (Some(e) == limbo || (SlotOf(e) in c && c[SlotOf(e)] == e)))
    && (limbo.Some? ==> limbo.value in s.inCache && (forall t :: t in c ==> c[t] != limbo.value))
  }

  /** Every entry ever made is either alive or has been freed, once. */
  ghost predicate Accounted(s: Shard) {
    && NoRepeats(s.freed)
    && (forall a :: 0 <= a < |s.made| ==> s.made[a].address == a)
    && (forall e :: e in s.made <==> e in s.refs || e in s.freed)
    && (forall e :: e in s.freed ==> e !in s.refs)
  }

  ghost predicate Inv(s: Shard, c: map<Slot, Handle>, limbo: Option<Handle>) {
    Listed(s) && Counted(s) && Tabled(s, c, limbo) && Accounted(s) && s.usage == Charges(s.lru) + Charges(s.inUse)
  }

  // ---------------------------------------------------------------------
  // Reference counting

  function Refd(s: Shard, e: Handle): Shard
    requires e in s.refs
  {
    var s1 := if s.refs[e] == 1 && e in s.inCache
              then s.(lru := Drop(s.lru, e), inUse := Drop(s.inUse, e) + [e]) else s;
    s1.(refs := s.refs[e := s.refs[e] + 1])
  }

  function Unrefd(s: Shard, e: Handle): Shard
    requires e in s.refs && s.refs[e] > 0
  {
    if s.refs[e] == 1 then s.(refs := s.refs - {e}, freed := s.freed + [e])
    else
      var s1 := s.(refs := s.refs[e := s.refs[e] - 1]);
      if e in s.inCache && s.refs[e] == 2
      then s1.(lru := Drop(s.lru, e) + [e], inUse := Drop(s.inUse, e)) else s1
  }

  /** Taking an entry that has left the table out of the cache. */
  function Erased(s: Shard, e: Handle): Shard
    requires e in s.refs && s.refs[e] > 0
  {
    Unrefd(Uncached(s, e), e)
  }

  lemma TabledSame(s: Shard, s': Shard, c: map<Slot, Handle>, limbo: Option<Handle>)
    requires Tabled(s, c, limbo) && s'.inCache == s.inCache
    ensures Tabled(s', c, limbo)
  {
  }

  lemma AccountedSame(s: Shard, s': Shard)
    requires Accounted(s) && s'.refs.Keys == s.refs.Keys && s'.made == s.made && s'.freed == s.freed
    ensures Accounted(s')
  {
    hide NoRepeats;
  }

  /** Handing out one more reference, or taking one back that is not the last. */
  lemma CountedStep(s: Shard, s': Shard, e: Handle, up: bool)
    requires Counted(s) && e in s.refs && s'.inCache == s.inCache
    requires if up then s'.held == s.held + multiset{e}
             else s.held[e] > 0 && s.refs[e] > 1 && s'.held == s.held - multiset{e}
    requires s'.refs == s.refs[e := if up then s.refs[e] + 1 else s.refs[e] - 1]
    ensures Counted(s')
  {
  }

  /** On a second reference a cached entry moves to the in-use list. */
  lemma BusyListed(s: Shard, e: Handle)
    requires Listed(s) && e in s.inCache && e in s.refs && s.refs[e] > 0
    ensures var s' := Refd(s, e); Listed(s') && Charges(s'.lru) + Charges(s'.inUse) == Charges(s.lru) + Charges(s.inUse)
  {
    hide Drop, Charges, NoRepeats;
    DropFacts(s.lru, e);
    DropFacts(s.inUse, e);
    AppendFacts(Drop(s.inUse, e), e);
  }

  /** When only the cache's reference is left the entry becomes the newest on the LRU list. */
  lemma IdleListed(s: Shard, e: Handle)
    requires Listed(s) && e in s.refs && s.refs[e] > 1
    ensures var s' := Unrefd(s, e);
      Listed(s') && Charges(s'.lru) + Charges(s'.inUse) == Charges(s.lru) + Charges(s.inUse)
  {
    hide Drop, Charges, NoRepeats;
    DropFacts(s.lru, e);
    DropFacts(s.inUse, e);
    AppendFacts(Drop(s.lru, e), e);
  }

  lemma RefdFacts(s: Shard, e: Handle)
    requires e in s.refs
    ensures var s' := Refd(s, e);
      && s'.refs == s.refs[e := s.refs[e] + 1] && s'.refs.Keys == s.refs.Keys
      && s' == s.(lru := s'.lru, inUse := s'.inUse, refs := s'.refs)
  {
  }

  lemma UnrefdFacts(s: Shard, e: Handle)
    requires e in s.refs && s.refs[e] > 0
    ensures var s' := Unrefd(s, e);
      && s' == s.(lru := s'.lru, inUse := s'.inUse, refs := s'.refs, freed := s'.freed)
      && (s.refs[e] == 1 ==> s'.refs == s.refs - {e} && s'.lru == s.lru && s'.inUse == s.inUse)
      && (s.refs[e] > 1 ==> s'.refs == s.refs[e := s.refs[e] - 1] && s'.refs.Keys == s.refs.Keys && s'.freed == s.freed)
  {
  }

  lemma LookupKeeps(s: Shard, c: map<Slot, Handle>, e: Handle)
    requires Inv(s, c, None) && e in s.inCache
    ensures e in s.refs && Inv(Refd(s, e).(held := s.held + multiset{e}), c, None)
  {
    CachedAlive(s, e);
    hide Listed, Counted, Tabled, Accounted, Refd;
    RefdFacts(s, e);
    var s' := Refd(s, e).(held := s.held + multiset{e});
    BusyListed(s, e);
    HeldListed(Refd(s, e), s');
    CountedStep(s, s', e, true);
    TabledSame(s, s', c, None);
    AccountedSame(s, s');
  }

  lemma CachedAlive(s: Shard, e: Handle)
    requires Counted(s) && (e in s.inCache || s.held[e] > 0)
    ensures e in s.refs && s.refs[e] > 0 && s.refs[e] == s.held[e] + (if e in s.inCache then 1 else 0)
  {
    if s.held[e] > 0 {
      assert e in s.held;
    }
  }

  lemma HeldListed(s: Shard, s': Shard)
    requires Listed(s) && s' == s.(held := s'.held)
    ensures Listed(s')
  {
  }

  /** The last reference, to an entry that is not in the cache. */
  lemma FreeKeeps(s: Shard, c: map<Slot, Handle>, e: Handle)
    requires Listed(s) && Accounted(s) && e in s.refs && s.refs[e] == 1 && e !in s.inCache
    ensures var s' := Unrefd(s, e); Listed(s') && Accounted(s')
  {
    var s' := Unrefd(s, e);
    assert e in s.made;
    assert forall x :: x in s'.freed <==> x in s.freed || x == e;
  }

  lemma CountedFree(s: Shard, s': Shard, e: Handle)
    requires Counted(s) && e in s.refs && s.refs[e] == 1 && e !in s.inCache && s'.inCache == s.inCache
    requires s'.held == s.held - multiset{e} && s'.refs == s.refs - {e}
    ensures Counted(s')
  {
  }

  lemma ReleaseKeeps(s: Shard, c: map<Slot, Handle>, e: Handle)
    requires Inv(s, c, None) && s.held[e] > 0
    ensures e in s.refs && s.refs[e] > 0 && (s.refs[e] == 1 ==> e !in s.inCache)
    ensures Inv(Unrefd(s, e).(held := s.held - multiset{e}), c, None)
  {
    CachedAlive(s, e);
    hide Listed, Counted, Tabled, Accounted, Unrefd;
    UnrefdFacts(s, e);
    var s' := Unrefd(s, e).(held := s.held - multiset{e});
    TabledSame(s, s', c, None);
    if s.refs[e] == 1 {
      FreeKeeps(s, c, e);
      CountedFree(s, s', e);
      AccountedSame(Unrefd(s, e), s');
    } else {
      IdleListed(s, e);
      CountedStep(s, s', e, false);
      AccountedSame(s, s');
    }
    HeldListed(Unrefd(s, e), s');
  }

  /** An entry with its cache membership taken away, before its reference is dropped. */
  function Uncached(s: Shard, e: Handle): Shard {
    s.(lru := Drop(s.lru, e), inUse := Drop(s.inUse, e), inCache := s.inCache - {e}, usage := s.usage - e.charge)
  }

  lemma UncachedListed(s: Shard, e: Handle)
    requires Listed(s) && e in s.inCache && e in s.refs && s.refs[e] > 0
    ensures var s' := Uncached(s, e);
      Listed(s') && Charges(s'.lru) + Charges(s'.inUse) == Charges(s.lru) + Charges(s.inUse) - e.charge
  {
    hide Drop, Charges, NoRepeats;
    DropFacts(s.lru, e);
    DropFacts(s.inUse, e);
  }

  lemma UncachedTabled(s: Shard, c: map<Slot, Handle>, e: Handle, s': Shard)
    requires Tabled(s, c, Some(e)) && s'.inCache == s.inCache - {e}
    ensures Tabled(s', c, None)
  {
  }

  /** Dropping the cache's reference together with the membership keeps the counts right. */
  lemma UncachedCounted(s: Shard, e: Handle, s': Shard)
    requires Counted(s) && e in s.inCache && e in s.refs && s'.inCache == s.inCache - {e} && s'.held == s.held
    requires s'.refs == if s.refs[e] == 1 then s.refs - {e} else s.refs[e := s.refs[e] - 1]
    ensures Counted(s')
  {
  }

  lemma EraseKeeps(s: Shard, c: map<Slot, Handle>, e: Handle)
    requires Inv(s, c, Some(e))
    ensures e in s.refs && s.refs[e] > 0 && Inv(Erased(s, e), c, None)
  {
    CachedAlive(s, e);
    hide Listed, Counted, Tabled, Accounted, Drop, Charges, Unrefd;
    var s1, s' := Uncached(s, e), Erased(s, e);
    UnrefdFacts(s1, e);
    UncachedListed(s, e);
    UncachedTabled(s, c, e, s');
    UncachedCounted(s, e, s');
    AccountedSame(s, s1);
    if s.refs[e] == 1 {
      FreeKeeps(s1, c, e);
    } else {
      IdleListed(s1, e);
      AccountedSame(s1, s');
    }
  }

  // ---------------------------------------------------------------------
  // Insertion and removal

  function Made(s: Shard, e: Handle): Shard {
    s.(refs := s.refs[e := 1], held := s.held + multiset{e}, made := s.made + [e])
  }

  /** The cache takes a reference of its own. */
  function Cached(s: Shard, e: Handle): Shard {
    s.(refs := s.refs[e := 2], inCache := s.inCache + {e}, inUse := s.inUse + [e], usage := s.usage + e.charge)
  }

  lemma MadeAnew(s: Shard, e: Handle)
    requires Listed(s) && Counted(s) && Accounted(s) && e.address == |s.made|
    ensures e !in s.refs && e !in s.freed && e !in s.inCache && e !in s.held && e !in s.lru && e !in s.inUse
  {
    hide NoRepeats;
  }

  lemma MakeKeeps(s: Shard, c: map<Slot, Handle>, e: Handle)
    requires Inv(s, c, None) && e.address == |s.made|
    ensures Inv(Made(s, e), c, None) && e !in s.inCache
  {
    hide NoRepeats, Charges;
    MadeAnew(s, e);
    MadeAccounted(s, e);
    hide Accounted;
  }

  lemma MadeAccounted(s: Shard, e: Handle)
    requires Accounted(s) && e.address == |s.made| && e !in s.freed
    ensures Accounted(Made(s, e))
  {
    hide NoRepeats;
    var s' := Made(s, e);
    assert forall x :: x in s'.made <==> x in s.made || x == e;
  }

  lemma CacheKeeps(s: Shard, c: map<Slot, Handle>, e: Handle)
    requires Inv(s, c, None) && e in s.refs && s.refs[e] == 1 && e !in s.inCache
    ensures Inv(Cached(s, e), c[SlotOf(e) := e], Find(c, SlotOf(e)))
  {
    var s' := Cached(s, e);
    CachedListed(s, e);
    CachedTabled(s, c, e);
    CachedCounted(s, e);
    hide Listed, Counted, Tabled, Accounted, Charges;
    AccountedSame(s, s');
  }

  lemma CachedListed(s: Shard, e: Handle)
    requires Listed(s) && e in s.refs && s.refs[e] == 1 && e !in s.inCache
    ensures var s' := Cached(s, e); Listed(s') && Charges(s'.inUse) == Charges(s.inUse) + e.charge
  {
    hide NoRepeats, Charges;
    AppendFacts(s.inUse, e);
  }

  lemma CachedTabled(s: Shard, c: map<Slot, Handle>, e: Handle)
    requires Tabled(s, c, None) && e !in s.inCache
    ensures Tabled(Cached(s, e), c[SlotOf(e) := e], Find(c, SlotOf(e)))
  {
  }

  lemma CachedCounted(s: Shard, e: Handle)
    requires Counted(s) && e in s.refs && s.refs[e] == 1 && e !in s.inCache
    ensures Counted(Cached(s, e))
  {
  }

  /** An entry taken out of the table is in limbo until it has left the cache. */
  lemma LimboKeeps(s: Shard, c: map<Slot, Handle>, t: Slot)
    requires Inv(s, c, None)
    ensures Inv(s, c - {t}, Find(c, t))
  {
    hide Listed, Counted, Accounted, Charges;
    if t in c {
      assert c[t] in s.inCache;
    } else {
      assert c - {t} == c;
    }
  }

  /** An entry that has left the table is still on a list. */
  lemma CachedOnList(s: Shard, c: map<Slot, Handle>, e: Handle)
    requires Inv(s, c, Some(e))
    ensures e in s.lru || e in s.inUse
  {
    CachedAlive(s, e);
  }

  lemma NotListed(s: Shard, c: map<Slot, Handle>, e: Handle)
    requires Inv(s, c, None) && e !in s.inCache
    ensures e !in s.lru && e !in s.inUse
  {
  }

  /** An entry in use is idle, or on the other list, by its count. */
  lemma ListedByCount(s: Shard, c: map<Slot, Handle>, e: Handle)
    requires Inv(s, c, None) && e in s.inCache && e in s.refs
    ensures (s.refs[e] == 1 ==> e in s.lru) && (s.refs[e] == 2 ==> e in s.inUse)
  {
  }

  lemma EmptyInv(s: Shard)
    requires s == Shard(0, [], [], map[], {}, [], multiset{}, [])
    ensures Inv(s, map[], None)
  {
  }

  /** Every entry alive has links, and entries are numbered in the order they are made. */
  ghost predicate Numbered(linked: set<Handle>, alive: set<Handle>, n: nat) {
    alive <= linked && forall e :: e in linked ==> e.address < n
  }

  lemma CountChanged(linked: set<Handle>, refs: map<Handle, nat>, n: nat, e: Handle, count: nat)
    requires Numbered(linked, refs.Keys, n) && e in refs
    ensures e in linked && Numbered(linked, (refs - {e}).Keys, n) && Numbered(linked, refs[e := count].Keys, n)
  {
  }

  lemma NewNumber(linked: set<Handle>, refs: map<Handle, nat>, n: nat, e: Handle)
    requires Numbered(linked, refs.Keys, n) && e.address == n
    ensures e !in linked && Numbered(linked + {e}, refs[e := 1].Keys, n + 1)
  {
  }

  class Cache {
    var capacity: nat
    var usage: int
    var refs: map<Handle, nat>
    var inCache: set<Handle>
    var allocations: nat
    const lists: Lists
    const table: Table
    ghost var freed: seq<Handle>
    ghost var held: multiset<Handle>
    ghost var made: seq<Handle>

    ghost function State(): Shard
      reads this, lists
    {
      Shard(usage, lists.lru, lists.inUse, refs, inCache, freed, held, made)
    }

    /** Every entry that is alive has links. */
    ghost predicate Linked()
      reads this, lists, lists.ring
    {
      lists.Valid() && Numbered(lists.links.Keys, refs.Keys, allocations)
    }

    ghost predicate ValidBut(limbo: Option<Handle>)
      reads this, lists, lists.ring, table, table.list, table.nodes
    {
      table.Valid() && Linked() && allocations == |made| && Inv(State(), table.contents, limbo)
    }

    ghost predicate Valid()
      reads this, lists, lists.ring, table, table.list, table.nodes
    {
      ValidBut(None)
    }

    constructor (capacity: nat)
      ensures Valid() && fresh(table) && fresh(table.list) && fresh(table.nodes) && fresh(lists) && fresh(lists.ring)
      ensures this.capacity == capacity && usage == 0 && made == []
    {
      hide Inv, Lists.Valid, Table.Valid;
      this.capacity, usage, allocations := capacity, 0, 0;
      refs, inCache := map[], {};
      lists := new Lists();
      table := new Table();
      freed, held, made := [], multiset{}, [];
      new;
      EmptyInv(State());
    }

    method Ref(e: Handle)
      requires e in refs && Linked() && (refs[e] == 1 && e in inCache ==> e in lists.lru)
      modifies this`refs, lists, lists.ring
      ensures State() == Refd(old(State()), e) && Linked() && lists.ring == old(lists.ring)
    {
      hide Lists.Valid, Drop, Numbered;
      if refs[e] == 1 && e in inCache {
        lists.Remove(e);
        lists.Append(false, e);
      }
      CountChanged(lists.links.Keys, refs, allocations, e, refs[e] + 1);
      refs := refs[e := refs[e] + 1];
    }

    /** Drops a reference; the last one runs the deleter. */
    method Unref(e: Handle)
      requires e in refs && refs[e] > 0 && Linked() && (refs[e] == 2 && e in inCache ==> e in lists.inUse)
      modifies this`refs, this`freed, lists, lists.ring
      ensures State() == Unrefd(old(State()), e) && Linked() && lists.ring == old(lists.ring)
    {
      hide Lists.Valid, Drop, Numbered;
      CountChanged(lists.links.Keys, refs, allocations, e, refs[e] - 1);
      var left := refs[e] - 1;
      if left == 0 {
        refs, freed := refs - {e}, freed + [e];
      } else {
        refs := refs[e := left];
        if e in inCache && left == 1 {
          lists.Remove(e);
          lists.Append(true, e);
        }
      }
    }

    /** Finishes removing an entry that has left the table. */
    method FinishErase(e: Option<Handle>) returns (erased: bool)
      requires ValidBut(e)
      modifies this`refs, this`freed, this`inCache, this`usage, lists, lists.ring
      ensures Valid() && erased == e.Some? && lists.ring == old(lists.ring)
      ensures e.Some? ==> e.value in old(refs) && old(refs[e.value]) > 0 && State() == Erased(old(State()), e.value)
      ensures e.None? ==> State() == old(State())
    {
      hide Inv, Drop, Unrefd, Lists.Valid, Table.Valid, Numbered;
      if e.Some? {
        var h := e.value;
        EraseKeeps(State(), table.contents, h);
        CachedOnList(State(), table.contents, h);
        lists.Remove(h);
        inCache, usage := inCache - {h}, usage - h.charge;
        Unref(h);
      }
      return e.Some?;
    }

    method Lookup(key: Key, hash: nat) returns (e: Option<Handle>)
      requires Valid()
      modifies this`refs, this`held, lists, lists.ring
      ensures Valid() && e == Find(table.contents, Slot(key, hash)) && inCache == old(inCache) && freed == old(freed)
      ensures held == old(held) + (if e.Some? then multiset{e.value} else multiset{})
      ensures e.Some? ==> lists.lru == Drop(old(lists.lru), e.value)
      ensures e.None? ==> State() == old(State())
      ensures lists.ring == old(lists.ring)
    {
      hide Inv, Drop, Table.Valid, Refd, Lists.Valid, Numbered;
      e := table.Lookup(key, hash);
      FoundCached(State(), table.contents, Slot(key, hash));
      if e.Some? {
        ListedByCount(State(), table.contents, e.value);
        LookupKeeps(State(), table.contents, e.value);
        LookupLru(State(), table.contents, e.value);
        RefdFacts(State(), e.value);
        Ref(e.value);
        held := held + multiset{e.value};
      }
    }

    /** Gives a handle back; an entry that is cached and no longer held becomes the newest for eviction,
        one that is not cached any more is freed with its last handle. */
    method Release(e: Handle)
      requires Valid() && held[e] > 0
      modifies this`refs, this`freed, this`held, lists, lists.ring
      ensures Valid() && held == old(held) - multiset{e} && inCache == old(inCache) && usage == old(usage)
      ensures freed == old(freed) + (if old(held)[e] == 1 && e !in inCache then [e] else [])
      ensures lists.lru == old(lists.lru) + (if old(held)[e] == 1 && e in inCache then [e] else [])
      ensures lists.ring == old(lists.ring)
    {
      hide Inv, Drop, Unrefd, Table.Valid, Lists.Valid, Numbered;
      UnrefdBasics(State(), table.contents, e);
      if e in inCache {
        ListedByCount(State(), table.contents, e);
      }
      ReleaseKeeps(State(), table.contents, e);
      ReleaseEffect(State(), table.contents, e);
      Unref(e);
      held := held - multiset{e};
    }

    method Erase(key: Key, hash: nat)
      requires Valid()
      modifies this`refs, this`freed, this`inCache, this`usage, lists, lists.ring
      modifies table, table.list, table.nodes
      ensures Valid() && table.contents == old(table.contents) - {Slot(key, hash)}
      ensures freed == old(freed) + WouldFree(Find(old(table.contents), Slot(key, hash)), held)
      ensures table.list == old(table.list) && table.nodes == old(table.nodes) && lists.ring == old(lists.ring)
    {
      hide Inv, Drop, Erased, Table.Valid, Lists.Valid, Numbered;
      LimboKeeps(State(), table.contents, Slot(key, hash));
      var e := table.Remove(key, hash);
      if e.Some? {
        EraseEffect(State(), table.contents, e.value);
      }
      var _ := FinishErase(e);
    }

    /** Evicts the entry that has gone unused the longest. */
    method EvictOldest()
      requires Valid() && lists.lru != []
      modifies this`refs, this`freed, this`inCache, this`usage, lists, lists.ring
      modifies table, table.list, table.nodes
      ensures Valid() && table.contents == old(table.contents) - {SlotOf(old(lists.lru)[0])}
      ensures lists.lru == old(lists.lru)[1..] && lists.inUse == old(lists.inUse)
      ensures freed == old(freed) + [old(lists.lru)[0]]
      ensures usage == old(usage) - old(lists.lru)[0].charge && inCache == old(inCache) - {old(lists.lru)[0]}
      ensures table.list == old(table.list) && table.nodes == old(table.nodes) && lists.ring == old(lists.ring)
    {
      hide Inv, Drop, Erased, Table.Valid, Lists.Valid, Numbered;
      var oldest := lists.Oldest();
      var e := oldest.value;
      OldestTabled(State(), table.contents);
      assert refs[e] == 1;
      LimboKeeps(State(), table.contents, SlotOf(e));
      var removed := table.Remove(e.key, e.hash);
      OldestEffect(State(), table.contents, e);
      var erased := FinishErase(removed);
      assert erased;
    }

    /** One more eviction. */
    method EvictNext(ghost was: Shard, ghost c: map<Slot, Handle>, ghost gone: seq<Handle>)
      requires Valid() && lists.lru != [] && Gone(was, c, State(), table.contents, gone)
      modifies this`refs, this`freed, this`inCache, this`usage, lists, lists.ring
      modifies table, table.list, table.nodes
      ensures Valid() && Gone(was, c, State(), table.contents, gone + [old(lists.lru)[0]])
      ensures usage == old(usage) - old(lists.lru)[0].charge && |lists.lru| < |old(lists.lru)|
      ensures table.list == old(table.list) && table.nodes == old(table.nodes) && lists.ring == old(lists.ring)
    {
      hide Inv, Lists.Valid, Numbered, Table.Valid, Gone;
      ghost var s, d := State(), table.contents;
      EvictOldest();
      GoneNext(was, c, s, d, gone, State(), table.contents);
    }

    /** Evictions happen oldest first, and only as long as the cache is over its capacity. */
    method EvictDown() returns (ghost evicted: seq<Handle>)
      requires Valid()
      modifies this`refs, this`freed, this`inCache, this`usage, lists, lists.ring
      modifies table, table.list, table.nodes
      ensures Valid() && Gone(old(State()), old(table.contents), State(), table.contents, evicted)
      ensures usage <= capacity || lists.lru == []
      ensures evicted != [] ==> usage + evicted[|evicted| - 1].charge > capacity
      ensures table.list == old(table.list) && table.nodes == old(table.nodes) && lists.ring == old(lists.ring)
    {
      hide Inv, Lists.Valid, Numbered, Table.Valid, Gone;
      evicted := [];
      NoneGone(State(), table.contents);
      var oldest := lists.Oldest();
      while usage > capacity && oldest.Some?
        invariant table.list == old(table.list) && table.nodes == old(table.nodes) && lists.ring == old(lists.ring)
        invariant oldest == EntryAt(lists.lru, 0)
        invariant Valid() && Gone(old(State()), old(table.contents), State(), table.contents, evicted)
        invariant evicted != [] ==> usage + evicted[|evicted| - 1].charge > capacity
        decreases |lists.lru|
      {
        ghost var e := lists.lru[0];
        EvictNext(old(State()), old(table.contents), evicted);
        evicted := evicted + [e];
        oldest := lists.Oldest();
      }
    }

    /** Creates an entry, held by the caller. */
    method Allocate(key: Key, hash: nat, value: nat, charge: nat) returns (e: Handle)
      requires Valid()
      modifies this`allocations, this`refs, this`held, this`made, lists, lists.ring
      ensures Valid() && e == Handle(|old(made)|, key, hash, value, charge)
      ensures State() == Made(old(State()), e) && e !in inCache && refs[e] == 1 && fresh(lists.ring - old(lists.ring))
    {
      hide Inv, Lists.Valid, Numbered, Table.Valid;
      e := Handle(allocations, key, hash, value, charge);
      MakeKeeps(State(), table.contents, e);
      NewNumber(lists.links.Keys, refs, allocations, e);
      lists.Add(e);
      allocations := allocations + 1;
      refs, held, made := refs[e := 1], held + multiset{e}, made + [e];
    }

    /** The cache takes a reference of its own to an entry. */
    method Adopt(e: Handle)
      requires Linked() && e in refs && e !in lists.lru && e !in lists.inUse
      modifies this`refs, this`inCache, this`usage, lists, lists.ring
      ensures Linked() && State() == Cached(old(State()), e) && lists.ring == old(lists.ring)
    {
      hide Lists.Valid, Numbered;
      CountChanged(lists.links.Keys, refs, allocations, e, 2);
      lists.Append(false, e);
      refs, inCache, usage := refs[e := 2], inCache + {e}, usage + e.charge;
    }

    /** The cache takes an entry in; what had the same key and hash leaves it. */
    method TakeIn(e: Handle)
      requires Valid() && e in refs && refs[e] == 1 && e !in inCache
      modifies this`refs, this`inCache, this`usage, this`freed, lists, lists.ring
      modifies table, table.list, table.nodes
      ensures Valid() && table.contents == old(table.contents)[SlotOf(e) := e]
      ensures var displaced := Find(old(table.contents), SlotOf(e));
        && freed == old(freed) + WouldFree(displaced, held)
        && lists.lru == if displaced.Some? then Drop(old(lists.lru), displaced.value) else old(lists.lru)
      ensures lists.ring == old(lists.ring)
      ensures (table.list == old(table.list) || fresh(table.list)) && fresh(table.nodes - old(table.nodes))
    {
      hide Inv, Drop, Erased, Table.Valid, Lists.Valid, Numbered;
      CacheKeeps(State(), table.contents, e);
      NotListed(State(), table.contents, e);
      Adopt(e);
      var displaced := table.Insert(e);
      if displaced.Some? {
        EraseEffect(State(), table.contents, displaced.value);
      }
      var _ := FinishErase(displaced);
    }

    /** Inserts an entry and returns the handle. */
    method Insert(key: Key, hash: nat, value: nat, charge: nat) returns (e: Handle, ghost evicted: seq<Handle>)
      requires Valid()
      modifies this, lists, lists.ring, table, table.list, table.nodes
      ensures Valid() && capacity == old(capacity)
      ensures e == Handle(|old(made)|, key, hash, value, charge)
      ensures made == old(made) + [e] && held == old(held) + multiset{e}
      ensures capacity == 0 ==> e !in inCache && table.contents == old(table.contents) - Slots(evicted)
      ensures capacity > 0 ==> table.contents == old(table.contents)[Slot(key, hash) := e] - Slots(evicted)
      ensures usage <= capacity || lists.lru == []
      ensures evicted != [] ==> usage + evicted[|evicted| - 1].charge > capacity
      ensures var displaced := if capacity > 0 then Find(old(table.contents), Slot(key, hash)) else None;
        && freed == old(freed) + WouldFree(displaced, held) + evicted
        && (if displaced.Some? then Drop(old(lists.lru), displaced.value) else old(lists.lru)) == evicted + lists.lru
      ensures (table.list == old(table.list) || fresh(table.list)) && fresh(table.nodes - old(table.nodes))
      ensures fresh(lists.ring - old(lists.ring))
    {
      hide Inv, Drop, Table.Valid, Slots, Set, Lists.Valid, Numbered;
      e := Allocate(key, hash, value, charge);
      if capacity > 0 {
        TakeIn(e);
      }
      evicted := EvictDown();
    }

    /** Drops everything that no client holds. */
    method Prune()
      requires Valid()
      modifies this`refs, this`freed, this`inCache, this`usage, lists, lists.ring
      modifies table, table.list, table.nodes
      ensures Valid() && lists.lru == []
      ensures Gone(old(State()), old(table.contents), State(), table.contents, old(lists.lru))
      ensures table.list == old(table.list) && table.nodes == old(table.nodes) && lists.ring == old(lists.ring)
    {
      hide Inv, Lists.Valid, Numbered, Table.Valid, Gone;
      ghost var evicted := [];
      NoneGone(State(), table.contents);
      var oldest := lists.Oldest();
      while oldest.Some?
        invariant table.list == old(table.list) && table.nodes == old(table.nodes) && lists.ring == old(lists.ring)
        invariant oldest == EntryAt(lists.lru, 0)
        invariant Valid() && Gone(old(State()), old(table.contents), State(), table.contents, evicted)
        decreases |lists.lru|
      {
        ghost var e := lists.lru[0];
        EvictNext(old(State()), old(table.contents), evicted);
        evicted := evicted + [e];
        oldest := lists.Oldest();
      }
      AllGone(old(State()), old(table.contents), State(), table.contents, evicted);
    }

    /** The destructor drops the cache's own reference to everything idle. It refuses exactly if a client
        still holds a cached entry; with no handle out at all, every entry ever made is then freed, once. */
    method Destroy() returns (ok: bool)
      requires Valid()
      modifies this`refs, this`freed, this`inCache, lists, lists.ring
      ensures ok <==> forall e :: e in old(inCache) ==> old(held)[e] == 0
      ensures ok ==> inCache == {} && freed == old(freed) + old(lists.lru) && NoRepeats(freed)
      ensures held == multiset{} ==> ok && forall e :: e in made <==> e in freed
    {
      hide Inv, Drop, Set, NoRepeats, Lists.Valid, Numbered, Table.Valid;
      ghost var was, i := State(), 0;
      ToBeFreed(was, table.contents);
      var any := lists.AnyInUse();
      if any {
        return false;
      }
      TakeSet(was.lru, 0);
      var at := lists.Oldest();
      while at.Some?
        invariant i <= |was.lru| && at == EntryAt(was.lru, i) && Linked() && lists.ring == old(lists.ring)
        invariant lists.lru == was.lru && lists.inUse == was.inUse && held == was.held && made == was.made
        invariant inCache == was.inCache - Set(was.lru[..i]) && freed == was.freed + was.lru[..i]
        invariant forall k :: i <= k < |was.lru| ==> var e := was.lru[k]; e in inCache && e in refs && refs[e] == 1
        decreases |was.lru| - i
      {
        var e := at.value;
        at := lists.After(e, i);
        TakeSet(was.lru, i);
        assert e in inCache;
        inCache := inCache - {e};
        assert refs[e] == 1;
        Unref(e);
        i := i + 1;
      }
      assert was.lru[..|was.lru|] == was.lru;
      ok := true;
    }
  }

  lemma TakeSet(s: seq<Handle>, i: nat)
    requires NoRepeats(s) && i <= |s|
    ensures Set(s[..0]) == {} && (i < |s| ==> Set(s[..i + 1]) == Set(s[..i]) + {s[i]})
    ensures forall k, j :: 0 <= k < j < |s| ==> s[k] != s[j]
  {
    if i < |s| {
      assert s[..i + 1] == s[..i] + [s[i]];
    }
  }

  /** What the destructor finds. */
  lemma ToBeFreed(s: Shard, c: map<Slot, Handle>)
    requires Inv(s, c, None)
    ensures NoRepeats(s.lru) && NoRepeats(s.freed + s.lru)
    ensures forall k :: 0 <= k < |s.lru| ==> s.lru[k] in s.inCache && s.lru[k] in s.refs && s.refs[s.lru[k]] == 1
    ensures s.inUse == [] <==> forall e :: e in s.inCache ==> s.held[e] == 0
    ensures s.inUse == [] ==> s.inCache == Set(s.lru) && s.inCache - Set(s.lru) == {}
    ensures s.held == multiset{} ==> s.inUse == [] && forall e :: e in s.made <==> e in s.freed + s.lru
  {
    hide Charges, Tabled;
    assert forall k :: 0 <= k < |s.lru| ==> s.lru[k] in s.lru;
    if s.inUse != [] {
      assert s.inUse[0] in s.inUse;
    }
    forall e | e in s.inCache
      ensures e in s.lru || e in s.inUse
      ensures e in s.inUse <==> s.held[e] > 0
    {
      CachedAlive(s, e);
    }
  }

  function Slots(s: seq<Handle>): set<Slot> {
    set e | e in s :: SlotOf(e)
  }

  function Set(s: seq<Handle>): set<Handle> {
    set e | e in s
  }

  /** These entries, the oldest idle ones, have been evicted and freed, oldest first, and nothing else. */
  ghost predicate Gone(was: Shard, c: map<Slot, Handle>, s: Shard, d: map<Slot, Handle>, gone: seq<Handle>) {
    && was.lru == gone + s.lru && s.freed == was.freed + gone && s.inUse == was.inUse
    && d == c - Slots(gone) && s.inCache == was.inCache - Set(gone)
  }

  lemma NoneGone(s: Shard, c: map<Slot, Handle>)
    ensures Gone(s, c, s, c, [])
  {
    SlotsSnoc([], c, s.inCache);
  }

  lemma GoneNext(was: Shard, c: map<Slot, Handle>, s: Shard, d: map<Slot, Handle>, gone: seq<Handle>, t: Shard,
                 d': map<Slot, Handle>)
    requires Gone(was, c, s, d, gone) && s.lru != [] && t.lru == s.lru[1..] && t.freed == s.freed + [s.lru[0]]
    requires t.inUse == s.inUse && d' == d - {SlotOf(s.lru[0])} && t.inCache == s.inCache - {s.lru[0]}
    ensures Gone(was, c, t, d', gone + [s.lru[0]])
  {
    hide Slots, Set, SlotOf;
    var more := gone + [s.lru[0]];
    SlotsSnoc(more, c, was.inCache);
    assert more[..|gone|] == gone;
    assert more + s.lru[1..] == gone + s.lru;
  }

  lemma AllGone(was: Shard, c: map<Slot, Handle>, s: Shard, d: map<Slot, Handle>, gone: seq<Handle>)
    requires Gone(was, c, s, d, gone) && s.lru == []
    ensures gone == was.lru
  {
  }

  lemma SlotsSnoc(s: seq<Handle>, c: map<Slot, Handle>, cached: set<Handle>)
    ensures s == [] ==> c - Slots(s) == c && cached - Set(s) == cached
    ensures s != [] ==> var p, e := s[..|s| - 1], s[|s| - 1];
      c - Slots(s) == c - Slots(p) - {SlotOf(e)} && cached - Set(s) == cached - Set(p) - {e}
  {
    if s != [] {
      var p, e := s[..|s| - 1], s[|s| - 1];
      assert forall x :: x in s <==> x in p || x == e;
      assert Slots(s) == Slots(p) + {SlotOf(e)};
    }
  }

  /** What is freed when an entry leaves the cache: the entry, unless a client holds it. */
  function WouldFree(e: Option<Handle>, held: multiset<Handle>): seq<Handle> {
    if e.Some? && held[e.value] == 0 then [e.value] else []
  }

  lemma EraseEffect(s: Shard, c: map<Slot, Handle>, e: Handle)
    requires Inv(s, c, Some(e))
    ensures e in s.refs && s.refs[e] > 0
    ensures Erased(s, e).freed == s.freed + WouldFree(Some(e), s.held) && Erased(s, e).lru == Drop(s.lru, e)
    ensures Erased(s, e).held == s.held && Erased(s, e).made == s.made
  {
    hide Drop, Charges, Listed;
    CachedAlive(s, e);
  }

  /** The oldest idle entry is in the table under its own key, referenced by the cache alone. */
  lemma OldestTabled(s: Shard, c: map<Slot, Handle>)
    requires Inv(s, c, None) && s.lru != []
    ensures var e := s.lru[0]; Find(c, SlotOf(e)) == Some(e) && e in s.refs && s.refs[e] == 1
  {
    hide Charges, NoRepeats;
    assert s.lru[0] in s.lru;
  }

  lemma OldestEffect(s: Shard, c: map<Slot, Handle>, e: Handle)
    requires Inv(s, c, Some(e)) && s.lru != [] && e == s.lru[0]
    ensures e in s.refs && s.refs[e] == 1
    ensures var s' := Erased(s, e);
      && s'.lru == s.lru[1..] && s'.inUse == s.inUse && s'.freed == s.freed + [e]
      && s'.usage == s.usage - e.charge && s'.inCache == s.inCache - {e}
  {
    hide Charges;
    assert e in s.lru && e !in s.inUse;
    DropFacts(s.inUse, e);
    DropFacts(s.lru[1..], e);
    assert e !in s.lru[1..];
  }

  /** An entry's deleter has run exactly if it was created and neither the cache nor a client refers to
      it; the cached entries are those the table finds, on one of the lists, charged in full. */
  lemma FreedExactly(s: Shard, c: map<Slot, Handle>, e: Handle)
    requires Inv(s, c, None)
    ensures e in s.freed <==> e in s.made && e !in s.inCache && s.held[e] == 0
    ensures NoRepeats(s.freed)
    ensures e in s.inCache <==> Find(c, SlotOf(e)) == Some(e)
    ensures e in s.lru <==> e in s.inCache && s.held[e] == 0
    ensures e in s.inUse <==> e in s.inCache && s.held[e] > 0
  {
    hide Charges, NoRepeats;
    if e in s.inCache || s.held[e] > 0 {
      CachedAlive(s, e);
    }
  }

  lemma UnrefdBasics(s: Shard, c: map<Slot, Handle>, e: Handle)
    requires Inv(s, c, None) && s.held[e] > 0
    ensures e in s.refs && s.refs[e] > 0
    ensures Unrefd(s, e).inCache == s.inCache && Unrefd(s, e).usage == s.usage
  {
    CachedAlive(s, e);
  }

  lemma FoundCached(s: Shard, c: map<Slot, Handle>, t: Slot)
    requires Inv(s, c, None)
    ensures t in c ==> c[t] in s.inCache && c[t] in s.refs && s.refs[c[t]] > 0 && SlotOf(c[t]) == t
  {
  }

  lemma LookupLru(s: Shard, c: map<Slot, Handle>, e: Handle)
    requires Inv(s, c, None) && e in s.inCache && e in s.refs
    ensures Refd(s, e).lru == Drop(s.lru, e)
  {
    hide Drop, Charges;
    DropFacts(s.lru, e);
  }

  lemma ReleaseEffect(s: Shard, c: map<Slot, Handle>, e: Handle)
    requires Inv(s, c, None) && s.held[e] > 0 && e in s.refs && s.refs[e] > 0
    ensures var s' := Unrefd(s, e);
      && s'.freed == s.freed + (if s.held[e] == 1 && e !in s.inCache then [e] else [])
      && s'.lru == s.lru + (if s.held[e] == 1 && e in s.inCache then [e] else [])
  {
    hide Drop, Charges;
    DropFacts(s.lru, e);
  }
}
