/** What the calls of the address manager change, told from the tables before and after alone: which slots
    hold which entries, which entries are still there, and what is noted about them. */
module AddrEffects {
  import opened Options
  import opened AddrTables
  import opened AddrKeeps
  import opened AddrOps
  import opened AddrClient

  /** An entry with all that is noted about its address; where it is kept may be different. */
  predicate SameNotes(i: Info, j: Info) {
    j == i.(randomPos := j.randomPos, refCount := j.refCount, inTried := j.inTried)
  }

  /** All entries but these are still there, with the same notes, and no others. */
  ghost predicate Survive(s: Tables, t: Tables, gone: set<Id>) {
    t.info.Keys == s.info.Keys - gone && forall x :: x in t.info ==> SameNotes(s.info[x], t.info[x])
  }

  ghost predicate SameRest(s: Tables, t: Tables) {
    t.idCount == s.idCount && t.lastGood == s.lastGood && t.collisions == s.collisions
  }

  lemma SurviveTrans(s: Tables, t: Tables, u: Tables, a: set<Id>, b: set<Id>)
    requires Survive(s, t, a) && Survive(t, u, b)
    ensures Survive(s, u, a + b)
  {
  }

  /** The entry that loses its only slot of the new table when this one is cleared. */
  function Orphans(s: Tables, slot: Slot): set<Id> {
    if slot in s.newTable && s.newTable[slot] in s.info && s.info[s.newTable[slot]].refCount == 1
    then {s.newTable[slot]} else {}
  }

  lemma DeleteSurvive(s: Tables, id: Id)
    requires CanDelete(s, id)
    ensures Survive(s, Delete(s, id), {id}) && SameRest(s, Delete(s, id))
    ensures Delete(s, id).newTable == s.newTable && Delete(s, id).triedTable == s.triedTable
  {
    hide SwapRandom;
    SwapSame(s, s.info[id].randomPos, |s.random| - 1);
    DeleteIsCut(s, id);
    DeleteOthers(s, id);
  }

  lemma DropSurvive(s: Tables, slot: Slot)
    requires slot in s.newTable && s.newTable[slot] in s.info
    ensures Survive(s, DropReference(s, slot), {}) && SameRest(s, DropReference(s, slot))
  {
  }

  lemma ClearSurvive(s: Tables, slot: Slot)
    requires CanClear(s, slot)
    ensures Survive(s, ClearNew(s, slot), Orphans(s, slot)) && SameRest(s, ClearNew(s, slot))
    ensures ClearNew(s, slot).newTable == s.newTable - {slot} && ClearNew(s, slot).triedTable == s.triedTable
  {
    hide Delete, CanDelete, Survive;
    if slot in s.newTable {
      var id, t := s.newTable[slot], DropReference(s, slot);
      DropSurvive(s, slot);
      if s.info[id].refCount == 1 {
        DeleteSurvive(t, id);
        SurviveTrans(s, t, Delete(t, id), {}, {id});
        assert {} + {id} == {id};
      }
    } else {
      assert s.newTable - {slot} == s.newTable;
      SurviveAll(s);
    }
  }

  lemma SurviveAll(s: Tables)
    ensures Survive(s, s, {})
  {
  }

  // ---------------------------------------------------------------------
  // Moving to the tried table

  /** A slot of the new table afterwards: the entry that moves has left, and the one it evicts is at its place. */
  function SlotAfter(env: Env, s: Tables, id: Id, k: Slot): Option<Id>
    requires id in s.info
  {
    var e := Find(s.triedTable, s.info[id].TriedSlot(env));
    if e.Some? && e.value in s.info && s.info[e.value].NewSlot(env, s.info[e.value].source) == k then e
    else if Find(s.newTable, k) == Some(id) then None
    else Find(s.newTable, k)
  }

  /** The entry deleted because the evicted one takes its only slot. */
  function Overwritten(env: Env, s: Tables, id: Id): set<Id>
    requires id in s.info
  {
    var e := Find(s.triedTable, s.info[id].TriedSlot(env));
    if e.Some? && e.value in s.info then Orphans(s, s.info[e.value].NewSlot(env, s.info[e.value].source)) - {id} else {}
  }

  /** An entry has gone to its slot of the tried table, and whatever was there back to the new table. */
  ghost predicate MovedToTried(env: Env, s: Tables, t: Tables, id: Id)
    requires id in s.info
  {
    && t.triedTable == s.triedTable[s.info[id].TriedSlot(env) := id] && SameRest(s, t)
    && (forall k :: Find(t.newTable, k) == SlotAfter(env, s, id, k)) && Survive(s, t, Overwritten(env, s, id))
  }

  lemma LeaveNewSurvive(s: Tables, id: Id)
    requires id in s.info
    ensures var t := LeaveNew(s, id);
      && Survive(s, t, {}) && SameRest(s, t) && t.triedTable == s.triedTable
      && (forall k :: Find(t.newTable, k) == if Find(s.newTable, k) == Some(id) then None else Find(s.newTable, k))
      && (forall x :: x in s.info && x != id ==> t.info[x] == s.info[x])
  {
  }

  lemma LeaveTriedSurvive(s: Tables, slot: Slot)
    requires slot in s.triedTable && s.triedTable[slot] in s.info
    ensures var t, e := LeaveTried(s, slot), s.triedTable[slot];
      && Survive(s, t, {}) && SameRest(s, t) && t.newTable == s.newTable && t.triedTable == s.triedTable - {slot}
      && (forall x :: x in s.info && x != e ==> t.info[x] == s.info[x])
  {
  }

  lemma ReturnSurvive(s: Tables, id: Id, slot: Slot)
    requires id in s.info
    ensures var t := Return(s, id, slot);
      Survive(s, t, {}) && SameRest(s, t) && t.newTable == s.newTable[slot := id] && t.triedTable == s.triedTable
  {
  }

  lemma EnterTriedSurvive(s: Tables, id: Id, slot: Slot)
    requires id in s.info
    ensures var t := EnterTried(s, id, slot);
      Survive(s, t, {}) && SameRest(s, t) && t.newTable == s.newTable && t.triedTable == s.triedTable[slot := id]
  {
  }

  /** Eviction from a slot of the tried table. */
  lemma EvictSurvive(env: Env, s: Tables, slot: Slot)
    requires CanEvict(env, s, slot) && slot in s.triedTable
    ensures var e := s.triedTable[slot];
      && e in s.info
      && var t, to := Evict(env, s, slot), s.info[e].NewSlot(env, s.info[e].source);
         && Survive(s, t, Orphans(LeaveTried(s, slot), to)) && SameRest(s, t)
         && t.newTable == s.newTable[to := e] && t.triedTable == s.triedTable - {slot}
  {
    hide Survive, ClearNew, CanClear, LeaveTried, Return, Info.NewSlot, Orphans;
    EvictIs(env, s, slot);
    var e := s.triedTable[slot];
    var to, t := s.info[e].NewSlot(env, s.info[e].source), LeaveTried(s, slot);
    LeaveTriedSurvive(s, slot);
    ClearSurvive(t, to);
    var u := ClearNew(t, to);
    ReturnSurvive(u, e, to);
    SurviveTrans(s, t, u, {}, Orphans(t, to));
    SurviveTrans(s, u, Return(u, e, to), {} + Orphans(t, to), {});
    assert {} + Orphans(t, to) + {} == Orphans(t, to);
    assert (s.newTable - {to})[to := e] == s.newTable[to := e];
  }

  lemma RivalIs(env: Env, s: Tables, id: Id, slot: Slot, k: Slot)
    requires Inv(env, s) && id in s.info && !s.info[id].inTried && slot in s.triedTable
    ensures s.triedTable[slot] in s.info && s.triedTable[slot] != id && Find(s.newTable, k) != Some(s.triedTable[slot])
  {
  }

  /** The entry that the evicted one drives out is the one that has its place before the move. */
  lemma SameOrphans(s: Tables, t: Tables, u: Tables, id: Id, e: Id, to: Slot)
    requires Find(s.newTable, to) != Some(e) && u.newTable == t.newTable
    requires Find(t.newTable, to) == if Find(s.newTable, to) == Some(id) then None else Find(s.newTable, to)
    requires t.info.Keys == s.info.Keys == u.info.Keys
    requires forall x :: x in s.info && x != id ==> t.info[x] == s.info[x]
    requires forall x :: x in t.info && x != e ==> u.info[x] == t.info[x]
    ensures Orphans(u, to) == Orphans(s, to) - {id}
  {
  }

  lemma SurviveKeys(s: Tables, t: Tables)
    requires Survive(s, t, {})
    ensures t.info.Keys == s.info.Keys
  {
    assert s.info.Keys - {} == s.info.Keys;
  }

  lemma NotRefsNewSlot(env: Env, i: Info, j: Info)
    requires SameNotes(i, j)
    ensures j.TriedSlot(env) == i.TriedSlot(env) && j.NewSlot(env, j.source) == i.NewSlot(env, i.source)
  {
  }

  lemma MovedIntro(env: Env, s: Tables, t: Tables, id: Id, e: Option<Id>)
    requires id in s.info && e == Find(s.triedTable, s.info[id].TriedSlot(env)) && (e.Some? ==> e.value in s.info)
    requires t.triedTable == s.triedTable[s.info[id].TriedSlot(env) := id] && SameRest(s, t)
    requires forall k ::
      Find(t.newTable, k) ==
      if e.Some? && s.info[e.value].NewSlot(env, s.info[e.value].source) == k then e
      else if Find(s.newTable, k) == Some(id) then None else Find(s.newTable, k)
    requires Survive(s, t,
      if e.Some? then Orphans(s, s.info[e.value].NewSlot(env, s.info[e.value].source)) - {id} else {})
    ensures MovedToTried(env, s, t, id)
  {
    hide Survive, SameRest, Orphans, Info.TriedSlot, Info.NewSlot, Find;
  }

  lemma MakeTriedMoves(env: Env, s: Tables, id: Id)
    requires Inv(env, s) && id in s.info && !s.info[id].inTried && CanMakeTried(env, s, id)
    ensures MovedToTried(env, s, MakeTried(env, s, id), id)
  {
    hide *;
    var slot, t := s.info[id].TriedSlot(env), LeaveNew(s, id);
    LeaveNewSurvive(s, id);
    CanMakeTriedElim(env, s, id);
    MakeTriedIs(env, s, id);
    if slot in s.triedTable {
      MakeTriedEvicts(env, s, id);
    } else {
      EvictNothing(env, t, slot);
      EnterTriedSurvive(t, id, slot);
      FindAbsent(s.triedTable, slot);
      var none: set<Id> := {};
      SurviveTrans(s, t, EnterTried(t, id, slot), none, none);
      SameRestTrans(s, t, EnterTried(t, id, slot));
      assert none + none == none;
      MovedIntro(env, s, MakeTried(env, s, id), id, None);
    }
  }

  lemma FindAbsent(t: Table, k: Slot)
    ensures Find(t, k) == if k in t then Some(t[k]) else None
  {
  }

  lemma SameRestTrans(s: Tables, t: Tables, u: Tables)
    requires SameRest(s, t) && SameRest(t, u)
    ensures SameRest(s, u)
  {
  }

  lemma CanMakeTriedElim(env: Env, s: Tables, id: Id)
    requires CanMakeTried(env, s, id)
    ensures id in s.info && CanEvict(env, LeaveNew(s, id), s.info[id].TriedSlot(env))
    ensures id in Evict(env, LeaveNew(s, id), s.info[id].TriedSlot(env)).info
  {
  }

  lemma SurviveNotes(s: Tables, t: Tables, x: Id)
    requires Survive(s, t, {}) && x in s.info
    ensures x in t.info && SameNotes(s.info[x], t.info[x])
  {
  }

  lemma FindUpdated(t: Table, to: Slot, e: Id)
    ensures forall k :: Find(t[to := e], k) == if k == to then Some(e) else Find(t, k)
  {
    var u := t[to := e];
    forall k
      ensures Find(u, k) == if k == to then Some(e) else Find(t, k)
    {
    }
  }

  lemma MakeTriedEvicts(env: Env, s: Tables, id: Id)
    requires Inv(env, s) && id in s.info && !s.info[id].inTried && CanMakeTried(env, s, id)
    requires s.info[id].TriedSlot(env) in s.triedTable
    ensures MovedToTried(env, s, MakeTried(env, s, id), id)
  {
    hide *;
    var slot, t, e := s.info[id].TriedSlot(env), LeaveNew(s, id), s.triedTable[s.info[id].TriedSlot(env)];
    LeaveNewSurvive(s, id);
    CanMakeTriedElim(env, s, id);
    MakeTriedIs(env, s, id);
    RivalIs(env, s, id, slot, slot);
    SurviveNotes(s, t, e);
    NotRefsNewSlot(env, s.info[e], t.info[e]);
    var to := s.info[e].NewSlot(env, s.info[e].source);
    RivalIs(env, s, id, slot, to);
    SurviveKeys(s, t);
    LeaveTriedSurvive(t, slot);
    SurviveKeys(t, LeaveTried(t, slot));
    SameOrphans(s, t, LeaveTried(t, slot), id, e, to);
    EvictSurvive(env, t, slot);
    var u := Evict(env, t, slot);
    EnterTriedSurvive(u, id, slot);
    SurviveTrans(s, t, u, {}, Orphans(s, to) - {id});
    SurviveTrans(s, u, EnterTried(u, id, slot), {} + (Orphans(s, to) - {id}), {});
    assert {} + (Orphans(s, to) - {id}) + {} == Orphans(s, to) - {id};
    SameRestTrans(s, t, u);
    SameRestTrans(s, u, EnterTried(u, id, slot));
    assert (s.triedTable - {slot})[slot := id] == s.triedTable[slot := id];
    FindAbsent(s.triedTable, slot);
    FindUpdated(t.newTable, to, e);
    MovedIntro(env, s, MakeTried(env, s, id), id, Some(e));
  }

  // ---------------------------------------------------------------------
  // Good

  /** What a success changes: for an address and port that is not known, only the time of the last success. A
      known entry has it noted. If it was new and its slot of the tried table is free, or need not be tested first,
      it moves there; if the slot has to be tested it is put down as pending, as long as fewer than ten are. */
  ghost predicate GoodDone(env: Env, s: Tables, addr: Service, testBeforeEvict: bool, time: int, t: Tables) {
    && t.lastGood == time
    && ((forall x :: x in s.info ==> s.info[x].service != addr) ==> t == s.(lastGood := time))
    && (forall id :: id in s.info && s.info[id].service == addr ==>
          GoodFor(env, s, id, testBeforeEvict, time, t))
  }

  ghost predicate GoodFor(env: Env, s: Tables, id: Id, testBeforeEvict: bool, time: int, t: Tables)
    requires id in s.info
  {
    var i, occupied := s.info[id], s.info[id].TriedSlot(env) in s.triedTable;
    var noted := s.info[id := i.(lastSuccess := time, lastTry := time, attempts := 0)];
    if i.inTried then t == s.(info := noted, lastGood := time)
    else if testBeforeEvict && occupied then
      t == s.(info := noted, lastGood := time,
              collisions := if |s.collisions| < 10 then s.collisions + {id} else s.collisions)
    else MovedToTried(env, s.(info := noted, lastGood := time), t, id)
  }

  lemma FoundExact(env: Env, s: Tables, addr: Service)
    requires Inv(env, s)
    ensures FindExact(s, addr).None? ==> forall x :: x in s.info ==> s.info[x].service != addr
    ensures FindExact(s, addr).Some? ==>
      && FindExact(s, addr).value in s.info
      && forall x :: x in s.info ==> (s.info[x].service == addr <==> x == FindExact(s, addr).value)
  {
    forall x | x in s.info && s.info[x].service == addr
      ensures FindExact(s, addr) == Some(x)
    {
      assert Find(s.ids, s.info[x].service.addr) == Some(x);
    }
  }

  lemma MovedRest(env: Env, s: Tables, t: Tables, id: Id)
    requires id in s.info && MovedToTried(env, s, t, id)
    ensures t.lastGood == s.lastGood && t.collisions == s.collisions
  {
  }

  lemma GoodDoes(env: Env, s: Tables, addr: Service, testBeforeEvict: bool, time: int)
    requires Inv(env, s) && time > 0
    ensures GoodDone(env, s, addr, testBeforeEvict, time, Good(env, s, addr, testBeforeEvict, time))
  {
    hide Inv, MakeTried, CanMakeTried, InSomeBucket, MovedToTried, Info.TriedSlot, FindExact;
    FoundExact(env, s, addr);
    var found := FindExact(s, addr);
    if found.Some? {
      var id := found.value;
      GoodReady(env, s, id, time);
      if !s.info[id].inTried {
        AlwaysInSomeBucket(env, s, id);
        var s1 := s.(lastGood := time, info := s.info[id := Succeeded(s.info[id], time)]);
        MakeTriedMoves(env, s1, id);
        MovedRest(env, s1, MakeTried(env, s1, id), id);
      }
    }
  }

  /** A moved entry is tried, in its slot there and in none of the new table; the evicted one is in its place in
      the new table and nowhere else. */
  lemma MovedMeans(env: Env, s: Tables, t: Tables, id: Id)
    requires Inv(env, s) && Inv(env, t) && id in s.info && !s.info[id].inTried && MovedToTried(env, s, t, id)
    ensures id in t.info && t.info[id].inTried && t.info[id].refCount == 0 && Slots(t.newTable, id) == {}
    ensures Find(t.triedTable, t.info[id].TriedSlot(env)) == Some(id)
    ensures var e := Find(s.triedTable, s.info[id].TriedSlot(env));
      e.Some? ==> e.value in t.info && !t.info[e.value].inTried && t.info[e.value].refCount == 1
  {
    var slot := s.info[id].TriedSlot(env);
    assert t.triedTable[slot] == id;
    assert t.info[id].refCount == |Slots(t.newTable, id)|;
    if slot in s.triedTable {
      var e := s.triedTable[slot];
      EvictedIs(env, s, t, id, e);
    }
  }

  lemma NewAt(env: Env, t: Tables, k: Slot)
    requires Inv(env, t) && k in t.newTable
    ensures var e := t.newTable[k];
      e in t.info && !t.info[e].inTried && t.info[e].refCount == |Slots(t.newTable, e)|
  {
  }

  lemma SlotIs(env: Env, s: Tables, t: Tables, id: Id, k: Slot)
    requires id in s.info && MovedToTried(env, s, t, id)
    ensures Find(t.newTable, k) == SlotAfter(env, s, id, k)
  {
  }

  lemma EvictedIs(env: Env, s: Tables, t: Tables, id: Id, e: Id)
    requires Inv(env, s) && Inv(env, t) && id in s.info && !s.info[id].inTried && MovedToTried(env, s, t, id)
    requires Find(s.triedTable, s.info[id].TriedSlot(env)) == Some(e)
    ensures e in t.info && !t.info[e].inTried && t.info[e].refCount == 1
  {
    hide Inv, MovedToTried, Info.TriedSlot, Info.NewSlot;
    var slot := s.info[id].TriedSlot(env);
    RivalIs(env, s, id, slot, slot);
    var to := s.info[e].NewSlot(env, s.info[e].source);
    forall k
      ensures Find(t.newTable, k) == Some(e) <==> k == to
    {
      RivalIs(env, s, id, slot, k);
      SlotIs(env, s, t, id, k);
    }
    assert Find(t.newTable, to) == Some(e);
    forall k | k in Slots(t.newTable, e)
      ensures k == to
    {
      assert Find(t.newTable, k) == Some(e);
    }
    assert Slots(t.newTable, e) == {to};
    NewAt(env, t, to);
  }

  // ---------------------------------------------------------------------
  // Add

  /** Whether an entry without a reference, or with one more to come, may take a slot of the new table: it is free,
      or what is in it is not worth keeping or can do without. */
  predicate MayTake(s: Tables, slot: Slot, bare: bool, now: int) {
    slot !in s.newTable ||
    (s.newTable[slot] in s.info &&
     (s.info[s.newTable[slot]].IsTerrible(now) || (s.info[s.newTable[slot]].refCount > 1 && bare)))
  }

  /** An entry has taken a slot of the new table; what was in it is deleted if it had no other. */
  ghost predicate TookSlot(s: Tables, t: Tables, id: Id, slot: Slot) {
    && t.newTable == s.newTable[slot := id] && t.triedTable == s.triedTable && SameRest(s, t)
    && Survive(s, t, Orphans(s, slot))
  }

  lemma AddReferenceSurvive(s: Tables, id: Id, slot: Slot)
    requires id in s.info
    ensures var t := AddReference(s, id, slot);
      Survive(s, t, {}) && SameRest(s, t) && t.newTable == s.newTable[slot := id] && t.triedTable == s.triedTable
  {
  }

  lemma TakesSlot(s: Tables, id: Id, slot: Slot)
    requires CanClear(s, slot) && id in ClearNew(s, slot).info
    ensures TookSlot(s, AddReference(ClearNew(s, slot), id, slot), id, slot)
  {
    hide Survive, Orphans, ClearNew, CanClear, AddReference;
    var t := ClearNew(s, slot);
    ClearSurvive(s, slot);
    AddReferenceSurvive(t, id, slot);
    SurviveTrans(s, t, AddReference(t, id, slot), Orphans(s, slot), {});
    assert Orphans(s, slot) + {} == Orphans(s, slot);
    assert (s.newTable - {slot})[slot := id] == s.newTable[slot := id];
  }

  /** Looking for a place: taken if it may be; an entry left without any is deleted. */
  ghost predicate PlaceDone(env: Env, s: Tables, id: Id, source: NetAddr, now: int, t: Tables)
    requires id in s.info
  {
    var slot, bare := s.info[id].NewSlot(env, source), s.info[id].refCount == 0;
    if Find(s.newTable, slot) == Some(id) then t == s
    else if MayTake(s, slot, bare, now) then TookSlot(s, t, id, slot)
    else if bare then
      t.newTable == s.newTable && t.triedTable == s.triedTable && SameRest(s, t) && Survive(s, t, {id})
    else t == s
  }

  lemma SlotKnown(env: Env, s: Tables, limbo: set<Id>, slot: Slot)
    requires Partial(env, s, limbo, 0) && slot in s.newTable
    ensures s.newTable[slot] in s.info
  {
  }

  lemma PlaceDoes(env: Env, s: Tables, id: Id, source: NetAddr, now: int, limbo: set<Id>)
    requires Partial(env, s, limbo, 0) && limbo <= {id}
    requires id in s.info && !s.info[id].inTried && s.info[id].refCount < NEW_BUCKETS_PER_ADDRESS
    ensures PlaceDone(env, s, id, source, now, Place(env, s, id, source, now, limbo))
  {
    hide Partial, ClearNew, CanClear, Delete, CanDelete, AddReference, TookSlot, Survive, SameRest, Info.NewSlot;
    hide Info.IsTerrible, Info.PlaceIn;
    var slot := s.info[id].NewSlot(env, source);
    NewSlotPlace(env, s.info[id], source);
    if slot in s.newTable {
      SlotKnown(env, s, limbo, slot);
    }
    if Find(s.newTable, slot) != Some(id) {
      if Takes(s, id, slot, now) {
        PlaceReady(env, s, id, slot, limbo);
        TakesSlot(s, id, slot);
      } else if s.info[id].refCount == 0 {
        DeleteReady(env, s, id, limbo);
        DeleteSurvive(s, id);
      }
    }
  }

  /** The notes of a new entry: as announced, the time less the penalty, nothing tried yet. */
  predicate NotesOf(i: Info, a: Address, source: NetAddr, penalty: int) {
    && i.service == a.service && i.services == a.services && i.source == source
    && i.time == (if a.time >= penalty then a.time - penalty else 0)
    && i.lastTry == i.lastCountAttempt == i.lastSuccess == i.attempts == 0
  }

  /** What an announcement of an address not known does: if its slot for the source may be taken the entry is
      there, new, with this one reference; otherwise everything is as it was but for the number used up. */
  ghost predicate AddNewDone(env: Env, s: Tables, a: Address, source: NetAddr, penalty: int, later: int, t: Tables) {
    var id := Id(s.idCount);
    var slot := NewInfo(a, source).NewSlot(env, source);
    && t.idCount == s.idCount + 1 && t.triedTable == s.triedTable && t.lastGood == s.lastGood
    && t.collisions == s.collisions && (forall x :: x in s.info && x in t.info ==> SameNotes(s.info[x], t.info[x]))
    && if MayTake(s, slot, true, later) then
         && t.newTable == s.newTable[slot := id] && t.info.Keys == s.info.Keys - Orphans(s, slot) + {id}
         && NotesOf(t.info[id], a, source, penalty)
       else t.newTable == s.newTable && t.info.Keys == s.info.Keys
  }

  lemma AnnouncedIs(s: Tables, a: Address, source: NetAddr, penalty: int)
    ensures var t, id := Announced(s, a, source, penalty), Id(s.idCount);
      && t.idCount == s.idCount + 1 && t.triedTable == s.triedTable && t.newTable == s.newTable
      && t.lastGood == s.lastGood && t.collisions == s.collisions && t.info.Keys == s.info.Keys + {id}
      && NotesOf(t.info[id], a, source, penalty) && t.info[id].refCount == 0
      && (forall x :: x in s.info && x != id ==> t.info[x] == s.info[x])
  {
  }

  lemma NewNumber(env: Env, s: Tables, slot: Slot)
    requires Inv(env, s)
    ensures Id(s.idCount) !in s.info && (slot in s.newTable ==> s.newTable[slot] in s.info)
  {
  }

  lemma AddNewDoes(env: Env, s: Tables, a: Address, source: NetAddr, penalty0: int, now: int, later: int, lucky: bool)
    requires Inv(env, s) && env.routable(a.service.addr) && a.service.addr !in s.ids
    ensures var penalty := if a.service.addr == source then 0 else penalty0;
      var r := Add(env, s, a, source, penalty0, now, later, lucky);
      r.1 && AddNewDone(env, s, a, source, penalty, later, r.0)
  {
    hide Partial, Inv, Place, Announced, PlaceDone, AddNewDone, NotesOf;
    var penalty := if a.service.addr == source then 0 else penalty0;
    var u, id := Announced(s, a, source, penalty), Id(s.idCount);
    AnnouncedKeeps(env, s, a, source, penalty);
    AnnouncedIs(s, a, source, penalty);
    PlaceDoes(env, u, id, source, later, {id});
    NewNumber(env, s, NewInfo(a, source).NewSlot(env, source));
    AnnouncedThenPlaced(env, s, u, a, source, penalty, later, Place(env, u, id, source, later, {id}));
  }

  /** The announced entry, which has no reference yet, looks for its place. */
  lemma AnnouncedThenPlaced(env: Env, s: Tables, u: Tables, a: Address, source: NetAddr, penalty: int, later: int,
                            t: Tables)
    requires var id := Id(s.idCount);
      && u.idCount == s.idCount + 1 && u.triedTable == s.triedTable && u.newTable == s.newTable
      && u.lastGood == s.lastGood && u.collisions == s.collisions && u.info.Keys == s.info.Keys + {id}
      && id !in s.info && NotesOf(u.info[id], a, source, penalty) && u.info[id].refCount == 0
      && (forall x :: x in s.info ==> u.info[x] == s.info[x])
      && PlaceDone(env, u, id, source, later, t)
    requires var slot := NewInfo(a, source).NewSlot(env, source); slot in s.newTable ==> s.newTable[slot] in s.info
    ensures AddNewDone(env, s, a, source, penalty, later, t)
  {
    hide Info.NewSlot, Info.IsTerrible;
    var id := Id(s.idCount);
    var slot := u.info[id].NewSlot(env, source);
    NewSlotOf(env, u.info[id], a, source);
    assert s.info.Keys + {id} - {id} == s.info.Keys;
    assert id !in Orphans(s, slot) && Orphans(u, slot) == Orphans(s, slot);
    assert s.info.Keys + {id} - Orphans(s, slot) == s.info.Keys - Orphans(s, slot) + {id};
  }

  lemma NewSlotOf(env: Env, i: Info, a: Address, source: NetAddr)
    requires i.service == a.service
    ensures i.NewSlot(env, source) == NewInfo(a, source).NewSlot(env, source)
  {
  }

  /** What an announcement of a known address does: services are added, the time is brought forward if it is more
      than an hour old, or a day for an address not seen today. If there is no news, the entry is tried, has all
      eight references or loses the draw, that is all; otherwise it looks for a place in another bucket. */
  ghost predicate AddKnownDone(env: Env, s: Tables, id: Id, a: Address, source: NetAddr, penalty: int, now: int,
                               later: int, lucky: bool, t: Tables)
    requires id in s.info
  {
    var i := s.info[id];
    var stale := i.time == 0 || i.time + (if now - a.time < 86400 then 3600 else 86400) + penalty < a.time;
    var time := if a.time != 0 && stale then if a.time >= penalty then a.time - penalty else 0 else i.time;
    var noted := s.(info := s.info[id := i.(time := time, services := i.services | a.services)]);
    if a.time != 0 && (time == 0 || time < a.time) && !i.inTried && i.refCount < 8 && lucky
    then PlaceDone(env, noted, id, source, later, t)
    else t == noted
  }

  lemma AddKnownDoes(env: Env, s: Tables, a: Address, source: NetAddr, penalty0: int, now: int, later: int,
                     lucky: bool)
    requires Inv(env, s) && env.routable(a.service.addr) && a.service.addr in s.ids
    ensures var penalty := if a.service.addr == source then 0 else penalty0;
      var r, id := Add(env, s, a, source, penalty0, now, later, lucky), s.ids[a.service.addr];
      !r.1 && id in s.info && AddKnownDone(env, s, id, a, source, penalty, now, later, lucky, r.0)
  {
    hide Partial, Inv, Place, PlaceDone;
    var penalty := if a.service.addr == source then 0 else penalty0;
    var id := s.ids[a.service.addr];
    KnownRefs(env, s, a.service.addr);
    RefreshKeeps(env, s, id, a, penalty, now);
    var j := Refreshed(s.info[id], a, penalty, now);
    if !Ignored(j, a, lucky) {
      InvIsPartial(env, s.(info := s.info[id := j]));
      PlaceDoes(env, s.(info := s.info[id := j]), id, source, later, {});
    }
  }

  /** What an announcement does, and its answer. */
  ghost predicate AddDone(env: Env, s: Tables, a: Address, source: NetAddr, penalty0: int, now: int, later: int,
                          lucky: bool, t: Tables, isNew: bool) {
    var penalty, address := if a.service.addr == source then 0 else penalty0, a.service.addr;
    if !env.routable(address) then t == s && !isNew
    else if address in s.ids then
      !isNew && s.ids[address] in s.info &&
      AddKnownDone(env, s, s.ids[address], a, source, penalty, now, later, lucky, t)
    else isNew && AddNewDone(env, s, a, source, penalty, later, t)
  }

  lemma AddDoes(env: Env, s: Tables, a: Address, source: NetAddr, penalty0: int, now: int, later: int, lucky: bool)
    requires Inv(env, s)
    ensures var r := Add(env, s, a, source, penalty0, now, later, lucky);
      AddDone(env, s, a, source, penalty0, now, later, lucky, r.0, r.1)
  {
    hide Inv, AddKnownDone, AddNewDone, Place;
    if env.routable(a.service.addr) {
      if a.service.addr in s.ids {
        AddKnownDoes(env, s, a, source, penalty0, now, later, lucky);
      } else {
        AddNewDoes(env, s, a, source, penalty0, now, later, lucky);
      }
    }
  }

  lemma KnownRefs(env: Env, s: Tables, a: NetAddr)
    requires Inv(env, s) && a in s.ids
    ensures s.ids[a] in s.info && s.info[s.ids[a]].refCount <= NEW_BUCKETS_PER_ADDRESS
    ensures !s.info[s.ids[a]].inTried ==> s.info[s.ids[a]].refCount > 0
  {
  }

  /** An address that is not known, whose slot for the source may be taken, is known afterwards, with one reference
      and in that slot. */
  lemma AddedIsKnown(env: Env, s: Tables, t: Tables, a: Address, source: NetAddr, penalty: int, later: int)
    requires Inv(env, s) && Inv(env, t) && AddNewDone(env, s, a, source, penalty, later, t)
    requires MayTake(s, NewInfo(a, source).NewSlot(env, source), true, later)
    ensures var id, slot := Id(s.idCount), NewInfo(a, source).NewSlot(env, source);
      && Find(t.ids, a.service.addr) == Some(id) && t.info[id].refCount == 1 && !t.info[id].inTried
      && Slots(t.newTable, id) == {slot}
  {
    hide Inv, Info.NewSlot, Info.IsTerrible, Orphans;
    var id, slot := Id(s.idCount), NewInfo(a, source).NewSlot(env, source);
    forall k | k in s.newTable
      ensures s.newTable[k] != id
    {
      NewNumber(env, s, k);
    }
    assert Slots(t.newTable, id) == {slot};
    NewAt(env, t, slot);
    FoundByAddress(env, t, id);
  }

  lemma FoundByAddress(env: Env, t: Tables, id: Id)
    requires Inv(env, t) && id in t.info
    ensures Find(t.ids, t.info[id].service.addr) == Some(id)
  {
  }

  // ---------------------------------------------------------------------
  // Notes about one entry

  lemma AttemptDoes(env: Env, s: Tables, addr: Service, countFailure: bool, time: int)
    requires Inv(env, s)
    ensures var t := Attempt(s, addr, countFailure, time);
      && ((forall x :: x in s.info ==> s.info[x].service != addr) ==> t == s)
      && (forall id :: id in s.info && s.info[id].service == addr ==>
            var i := s.info[id];
            t == s.(info := s.info[id :=
              if countFailure && i.lastCountAttempt < s.lastGood
              then i.(lastTry := time, lastCountAttempt := time, attempts := i.attempts + 1)
              else i.(lastTry := time)]))
  {
    hide Inv, FindExact;
    FoundExact(env, s, addr);
  }

  lemma ConnectedDoes(env: Env, s: Tables, addr: Service, time: int)
    requires Inv(env, s)
    ensures var t := Connected(s, addr, time);
      && ((forall x :: x in s.info ==> s.info[x].service != addr) ==> t == s)
      && (forall id :: id in s.info && s.info[id].service == addr ==>
            t == if time > s.info[id].time + 1200 then s.(info := s.info[id := s.info[id].(time := time)]) else s)
  {
    hide Inv, FindExact;
    FoundExact(env, s, addr);
  }

  lemma SetServicesDoes(env: Env, s: Tables, addr: Service, services: bv64)
    requires Inv(env, s)
    ensures var t := SetServices(s, addr, services);
      && ((forall x :: x in s.info ==> s.info[x].service != addr) ==> t == s)
      && (forall id :: id in s.info && s.info[id].service == addr ==>
            t == s.(info := s.info[id := s.info[id].(services := services)]))
  {
    hide Inv, FindExact;
    FoundExact(env, s, addr);
  }

  // ---------------------------------------------------------------------
  // Resolving a collision

  /** What becomes of a pending collision. It is forgotten if the entry is gone or its address no longer valid, or if
      the one in its slot has succeeded within four hours; it stays pending if that one has not been tried within
      four hours, or only within the last minute; otherwise, and if the slot is free, the entry moves to the tried
      table and is no longer pending. */
  ghost predicate ResolveDone(env: Env, s: Tables, id: Id, clock: Readings, t: Tables) {
    if id !in s.info || !env.valid(s.info[id].service.addr) then t == s.(collisions := s.collisions - {id})
    else
      var rival := Find(s.triedTable, s.info[id].TriedSlot(env));
      if rival.Some? && rival.value in s.info && clock.success < s.info[rival.value].lastSuccess + 14400
      then t == s.(collisions := s.collisions - {id})
      else if rival.Some? && rival.value in s.info &&
        !(s.info[rival.value].lastTry + 60 < clock.minute && clock.attempt < s.info[rival.value].lastTry + 14400)
      then t == s
      else
        && GoodFor(env, s, id, false, clock.move, t.(collisions := s.collisions))
        && t.collisions == s.collisions - {id}
  }

  lemma ResolveOneDoes(env: Env, s: Tables, id: Id, clock: Readings)
    requires Inv(env, s) && clock.move > 0
    ensures ResolveDone(env, s, id, clock, ResolveOne(env, s, id, clock))
  {
    hide Inv, Good, GoodFor, Info.TriedSlot;
    if id in s.info && Judge(env, s, id, clock).Move? {
      GoodDoes(env, s, s.info[id].service, false, clock.move);
      var u := Good(env, s, s.info[id].service, false, clock.move);
      GoodKeepsPending(env, s, id, clock.move, u);
      TriedKnown(env, s, s.info[id].TriedSlot(env));
      assert u.(collisions := u.collisions - {id}).(collisions := s.collisions) == u;
    } else if id in s.info {
      TriedKnown(env, s, s.info[id].TriedSlot(env));
    }
  }

  lemma TriedKnown(env: Env, s: Tables, slot: Slot)
    requires Inv(env, s)
    ensures slot in s.triedTable ==> s.triedTable[slot] in s.info
  {
  }

  lemma GoodKeepsPending(env: Env, s: Tables, id: Id, time: int, u: Tables)
    requires id in s.info && GoodFor(env, s, id, false, time, u)
    ensures u.collisions == s.collisions
  {
  }

  /** Pending collisions are resolved one after the other. */
  lemma ResolveDoes(env: Env, s: Tables, order: seq<Id>, clock: seq<Readings>, k: nat)
    requires Inv(env, s) && |clock| == |order| && Sound(clock) && k < |order|
    ensures Resolve(env, s, order[..0], clock[..0]) == s
    ensures ResolveDone(env, Resolve(env, s, order[..k], clock[..k]), order[k], clock[k],
                        Resolve(env, s, order[..k + 1], clock[..k + 1]))
  {
    hide Inv, ResolveOne, ResolveDone;
    assert order[..k + 1][..k] == order[..k] && clock[..k + 1][..k] == clock[..k];
    ResolveOneDoes(env, Resolve(env, s, order[..k], clock[..k]), order[k], clock[k]);
  }

  // ---------------------------------------------------------------------
  // Entries not worth keeping

  /** An entry tried within the last minute is never terrible. Any other is, if it claims to be seen more than ten
      minutes from now, has no time or none within thirty days, has failed three times without ever succeeding, or
      ten times without success in a week. */
  lemma TerribleExactly(i: Info, now: int)
    ensures i.lastTry != 0 && now <= i.lastTry + 60 ==> !i.IsTerrible(now)
    ensures i.lastTry == 0 || now > i.lastTry + 60 ==>
      (i.IsTerrible(now) <==>
       || i.time > now + 600 || i.time == 0 || now > i.time + 2592000
       || (i.lastSuccess == 0 && i.attempts >= 3) || (now > i.lastSuccess + 604800 && i.attempts >= 10))
  {
  }

  // ---------------------------------------------------------------------
  // The shuffle of GetAddr

  /** Any entries can come out of the shuffle, in any order. */
  lemma {:induction false} AnyFront(env: Env, s: Tables, front: seq<Id>) returns (draws: seq<nat>)
    requires Inv(env, s) && (forall id :: id in front ==> id in s.info)
    requires forall i, j :: 0 <= i < j < |front| ==> front[i] != front[j]
    ensures |draws| == |front| && ValidDraws(s, draws) && |Shuffled(env, s, draws).random| >= |front|
    ensures Shuffled(env, s, draws).random[..|front|] == front
    ensures Shuffled(env, s, draws).info.Keys == s.info.Keys
    decreases |front|
  {
    hide Inv, SwapRandom, CanSwap;
    if front == [] {
      draws := [];
    } else {
      var k := |front| - 1;
      var before := AnyFront(env, s, front[..k]);
      var t := Shuffled(env, s, before);
      var p := Listed(env, t, front[k]);
      assert forall q :: 0 <= q < k ==> t.random[q] == t.random[..k][q] == front[..k][q];
      draws := before + [p];
      assert draws[..k] == before;
      ShuffleStep(env, t, k, p);
      SwapFront(t, k, p);
      assert front == front[..k] + [front[k]];
    }
  }

  lemma SwapFront(t: Tables, k: nat, p: nat)
    requires CanSwap(t, k, p) && k <= p < |t.random|
    ensures SwapRandom(t, k, p).random[..k + 1] == t.random[..k] + [t.random[p]]
    ensures SwapRandom(t, k, p).info.Keys == t.info.Keys
  {
  }

  lemma Listed(env: Env, t: Tables, id: Id) returns (p: nat)
    requires Inv(env, t) && id in t.info
    ensures p < |t.random| && t.random[p] == id
  {
    p := t.info[id].randomPos;
  }
}
