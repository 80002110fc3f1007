/** The operations clients call on the address manager, as functions of its tables, the clock and the
    random draws, and the invariant over all of them. */
module AddrOps {
  import opened Options
  import opened AddrTables
  import opened AddrKeeps

  // ---------------------------------------------------------------------
  // Moving an entry from the new to the tried table

  /** An entry just taken out of the tried table goes into an empty slot of the new table. */
  function Return(s: Tables, id: Id, slot: Slot): Tables
    requires id in s.info
  {
    s.(info := s.info[id := s.info[id].(refCount := 1)], newTable := s.newTable[slot := id], nNew := s.nNew + 1)
  }

  predicate CanEvict(env: Env, s: Tables, slot: Slot) {
    slot in s.triedTable ==>
      (var id := s.triedTable[slot];
       id in s.info &&
       var to := s.info[id].NewSlot(env, s.info[id].source);
       CanClear(LeaveTried(s, slot), to) && id in ClearNew(LeaveTried(s, slot), to).info)
  }

  /** Makes room in a slot of the tried table: its entry goes back to the new table, replacing whatever
      is in its slot there. */
  function Evict(env: Env, s: Tables, slot: Slot): Tables
    requires CanEvict(env, s, slot)
  {
    if slot !in s.triedTable then s
    else
      var id := s.triedTable[slot];
      var to := s.info[id].NewSlot(env, s.info[id].source);
      Return(ClearNew(LeaveTried(s, slot), to), id, to)
  }

  /** The assertions of MakeTried: after leaving the new table the entry has no reference left. */
  predicate CanMakeTried(env: Env, s: Tables, id: Id) {
    && id in s.info && s.info[id].refCount == |Slots(s.newTable, id)|
    && var slot := s.info[id].TriedSlot(env);
       CanEvict(env, LeaveNew(s, id), slot) && id in Evict(env, LeaveNew(s, id), slot).info
  }

  function MakeTried(env: Env, s: Tables, id: Id): Tables
    requires CanMakeTried(env, s, id)
  {
    var slot := s.info[id].TriedSlot(env);
    EnterTried(Evict(env, LeaveNew(s, id), slot), id, slot)
  }

  lemma LimboHasNoSlot(s: Tables, limbo: set<Id>, x: Id, slot: Slot)
    requires RefsOk(s, limbo) && x in limbo && slot in s.newTable
    ensures s.newTable[slot] != x
  {
    assert slot in Slots(s.newTable, s.newTable[slot]);
  }

  /** An entry is the same but for its place in the random order. */
  predicate Same(s: Tables, t: Tables, x: Id) {
    x in s.info && x in t.info && t.info[x] == s.info[x].(randomPos := t.info[x].randomPos)
  }

  lemma ClearLimbo(env: Env, s: Tables, slot: Slot, limbo: set<Id>, off: int, x: Id)
    requires Partial(env, s, limbo, off) && x in limbo && CanClear(s, slot)
    requires OnlyCleared(s, ClearNew(s, slot), slot)
    ensures Same(s, ClearNew(s, slot), x)
  {
    if slot in s.newTable {
      LimboHasNoSlot(s, limbo, x, slot);
    }
  }

  lemma NewCountIndexes(s: Tables, n: int)
    requires MapsOk(s) && RandomOk(s) && TimesOk(s)
    ensures MapsOk(s.(nNew := n)) && RandomOk(s.(nNew := n)) && TimesOk(s.(nNew := n))
  {
  }

  lemma NewCountTables(env: Env, s: Tables, n: int, limbo: set<Id>)
    requires TriedOk(env, s) && NewOk(env, s) && RefsOk(s, limbo)
    ensures TriedOk(env, s.(nNew := n)) && NewOk(env, s.(nNew := n)) && RefsOk(s.(nNew := n), limbo)
  {
  }

  lemma NewCount(env: Env, s: Tables, limbo: set<Id>, off: int)
    requires Partial(env, s, limbo, off)
    ensures Partial(env, s.(nNew := s.nNew + 1), limbo, off - 1)
  {
    hide MapsOk, RandomOk, TriedOk, NewOk, RefsOk, TimesOk;
    NewCountIndexes(s, s.nNew + 1);
    NewCountTables(env, s, s.nNew + 1, limbo);
  }

  lemma LimboIsBare(env: Env, s: Tables, limbo: set<Id>, off: int, id: Id)
    requires Partial(env, s, limbo, off) && id in limbo
    ensures id in s.info && s.info[id].refCount == 0 < NEW_BUCKETS_PER_ADDRESS && !s.info[id].inTried
  {
  }

  lemma ReturnIs(s: Tables, id: Id, slot: Slot)
    requires id in s.info && s.info[id].refCount == 0
    ensures Return(s, id, slot) == AddReference(s, id, slot).(nNew := AddReference(s, id, slot).nNew + 1)
  {
  }

  lemma ReturnKeeps(env: Env, s: Tables, id: Id, slot: Slot, limbo: set<Id>, off: int)
    requires Partial(env, s, limbo, off) && id in limbo && id in s.info && slot !in s.newTable
    requires slot.bucket < NEW_BUCKET_COUNT && s.info[id].PlaceIn(env, slot.bucket) == slot
    ensures Partial(env, Return(s, id, slot), limbo - {id}, off - 1)
  {
    hide *;
    LimboIsBare(env, s, limbo, off, id);
    AddRefKeeps(env, s, id, slot, limbo, off);
    ReturnIs(s, id, slot);
    NewCount(env, AddReference(s, id, slot), limbo - {id}, off);
  }

  lemma LeaveTriedFacts(env: Env, s: Tables, slot: Slot, x: Id)
    requires TriedOk(env, s) && slot in s.triedTable && x in s.info && x != s.triedTable[slot]
    ensures Same(s, LeaveTried(s, slot), x)
  {
  }

  lemma ReturnFacts(s: Tables, id: Id, slot: Slot, x: Id)
    requires id in s.info && x in s.info && x != id
    ensures Same(s, Return(s, id, slot), x)
  {
  }

  lemma SameChain(s: Tables, t: Tables, u: Tables, x: Id)
    requires Same(s, t, x) && Same(t, u, x)
    ensures Same(s, u, x)
  {
  }

  lemma PlaceStays(env: Env, s: Tables, t: Tables, id: Id)
    requires Same(s, t, id)
    ensures var to := s.info[id].NewSlot(env, s.info[id].source);
            to.bucket < NEW_BUCKET_COUNT && t.info[id].PlaceIn(env, to.bucket) == to
  {
  }

  lemma LeftTried(s: Tables, slot: Slot)
    requires slot in s.triedTable && s.triedTable[slot] in s.info
    ensures var id, t := s.triedTable[slot], LeaveTried(s, slot);
            && id in t.info && t.info[id].service == s.info[id].service && t.info[id].source == s.info[id].source
            && t.triedTable == s.triedTable - {slot}
  {
  }

  lemma SameNewSlot(env: Env, i: Info, j: Info)
    requires i.service == j.service && i.source == j.source
    ensures i.NewSlot(env, i.source) == j.NewSlot(env, j.source)
  {
  }

  lemma ClearedFacts(s: Tables, t: Tables, slot: Slot)
    requires OnlyCleared(s, t, slot)
    ensures slot !in t.newTable && t.triedTable == s.triedTable
  {
  }

  lemma ReturnTables(s: Tables, id: Id, slot: Slot)
    requires id in s.info
    ensures Return(s, id, slot).triedTable == s.triedTable
  {
  }

  lemma EvictOne(env: Env, s: Tables, slot: Slot, limbo: set<Id>, off: int)
    requires Partial(env, s, limbo, off) && slot in s.triedTable && s.triedTable[slot] in s.info
    ensures var id := s.triedTable[slot];
            var to := s.info[id].NewSlot(env, s.info[id].source);
            var t := LeaveTried(s, slot);
            && id !in limbo && CanClear(t, to) && id in ClearNew(t, to).info
            && var u := ClearNew(t, to);
               && Partial(env, Return(u, id, to), limbo, off)
               && u.triedTable == s.triedTable - {slot}
  {
    hide *;
    var id := s.triedTable[slot];
    var to := s.info[id].NewSlot(env, s.info[id].source);
    var t := LeaveTried(s, slot);
    LeaveTriedKeeps(env, s, slot, limbo, off);
    LeftTried(s, slot);
    ClearKeeps(env, t, to, limbo + {id}, off + 1);
    var u := ClearNew(t, to);
    ClearLimbo(env, t, to, limbo + {id}, off + 1, id);
    ClearedFacts(t, u, to);
    SameIn(t, u, id);
    PlaceStays(env, t, u, id);
    SameNewSlot(env, s.info[id], t.info[id]);
    ReturnKeeps(env, u, id, to, limbo + {id}, off + 1);
    assert limbo + {id} - {id} == limbo;
  }

  lemma SameIn(s: Tables, t: Tables, x: Id)
    requires Same(s, t, x)
    ensures x in s.info && x in t.info
  {
  }

  lemma EvictLimbo(env: Env, s: Tables, slot: Slot, limbo: set<Id>, off: int, x: Id)
    requires Partial(env, s, limbo, off) && x in limbo && x in s.info
    requires CanEvict(env, s, slot)
    ensures Same(s, Evict(env, s, slot), x)
  {
    if slot in s.triedTable {
      var id := s.triedTable[slot];
      var to := s.info[id].NewSlot(env, s.info[id].source);
      var t := LeaveTried(s, slot);
      LeaveTriedKeeps(env, s, slot, limbo, off);
      LeaveTriedFacts(env, s, slot, x);
      hide *;
      ClearKeeps(env, t, to, limbo + {id}, off + 1);
      ClearLimbo(env, t, to, limbo + {id}, off + 1, x);
      var u := ClearNew(t, to);
      SameIn(t, u, x);
      ReturnFacts(u, id, to, x);
      SameChain(s, t, u, x);
      SameChain(s, u, Return(u, id, to), x);
      EvictIs(env, s, slot);
    } else {
      assert s.info[x] == s.info[x].(randomPos := s.info[x].randomPos);
    }
  }

  lemma EvictIs(env: Env, s: Tables, slot: Slot)
    requires CanEvict(env, s, slot) && slot in s.triedTable
    ensures var id := s.triedTable[slot];
            && id in s.info
            && var to := s.info[id].NewSlot(env, s.info[id].source);
               var t := LeaveTried(s, slot);
               CanClear(t, to) && id in ClearNew(t, to).info && Evict(env, s, slot) == Return(ClearNew(t, to), id, to)
  {
  }

  lemma CanEvictIntro(env: Env, s: Tables, slot: Slot)
    requires slot in s.triedTable && s.triedTable[slot] in s.info
    requires var id := s.triedTable[slot];
             var to := s.info[id].NewSlot(env, s.info[id].source);
             CanClear(LeaveTried(s, slot), to) && id in ClearNew(LeaveTried(s, slot), to).info
    ensures CanEvict(env, s, slot)
  {
  }

  lemma EvictNothing(env: Env, s: Tables, slot: Slot)
    requires slot !in s.triedTable
    ensures CanEvict(env, s, slot) && Evict(env, s, slot) == s && s.triedTable - {slot} == s.triedTable
  {
  }

  lemma TriedIsKnown(env: Env, s: Tables, slot: Slot, limbo: set<Id>, off: int)
    requires Partial(env, s, limbo, off) && slot in s.triedTable
    ensures s.triedTable[slot] in s.info
  {
  }

  lemma EvictKeeps(env: Env, s: Tables, slot: Slot, limbo: set<Id>, off: int)
    requires Partial(env, s, limbo, off)
    ensures CanEvict(env, s, slot)
    ensures Partial(env, Evict(env, s, slot), limbo, off)
    ensures Evict(env, s, slot).triedTable == s.triedTable - {slot}
  {
    hide *;
    if slot in s.triedTable {
      TriedIsKnown(env, s, slot, limbo, off);
      EvictOne(env, s, slot, limbo, off);
      CanEvictIntro(env, s, slot);
      EvictIs(env, s, slot);
      var id := s.triedTable[slot];
      var to := s.info[id].NewSlot(env, s.info[id].source);
      ReturnTables(ClearNew(LeaveTried(s, slot), to), id, to);
    } else {
      EvictNothing(env, s, slot);
    }
  }

  lemma LeftNew(s: Tables, id: Id)
    requires id in s.info
    ensures var t := LeaveNew(s, id);
            && id in t.info && t.info[id].service == s.info[id].service && t.triedTable == s.triedTable
            && t.info[id].lastSuccess == s.info[id].lastSuccess
  {
  }

  lemma MakeTriedIs(env: Env, s: Tables, id: Id)
    requires CanMakeTried(env, s, id)
    ensures var slot := s.info[id].TriedSlot(env);
            MakeTried(env, s, id) == EnterTried(Evict(env, LeaveNew(s, id), slot), id, slot)
            && MakeTried(env, s, id).triedTable == Evict(env, LeaveNew(s, id), slot).triedTable[slot := id]
  {
  }

  /** The assertions of MakeTried hold and the tables are consistent again when it is done. An occupied
      slot of the tried table stays occupied. */
  lemma MakeTriedKeeps(env: Env, s: Tables, id: Id)
    requires Inv(env, s) && id in s.info && !s.info[id].inTried && s.info[id].lastSuccess != 0
    ensures CanMakeTried(env, s, id)
    ensures Inv(env, MakeTried(env, s, id))
    ensures MakeTried(env, s, id).triedTable == s.triedTable[s.info[id].TriedSlot(env) := id]
  {
    assert s.info[id].refCount == |Slots(s.newTable, id)|;
    MakeTriedSteps(env, s, id);
    hide *;
    CanMakeTriedIntro(env, s, id);
    MakeTriedIs(env, s, id);
  }

  lemma CanMakeTriedIntro(env: Env, s: Tables, id: Id)
    requires id in s.info && s.info[id].refCount == |Slots(s.newTable, id)|
    requires CanEvict(env, LeaveNew(s, id), s.info[id].TriedSlot(env))
    requires id in Evict(env, LeaveNew(s, id), s.info[id].TriedSlot(env)).info
    ensures CanMakeTried(env, s, id)
  {
  }

  lemma TriedSlotStays(env: Env, s: Tables, i: Info, t: Tables, id: Id)
    requires Same(s, t, id) && s.info[id].service == i.service && s.info[id].lastSuccess == i.lastSuccess
    ensures t.info[id].TriedSlot(env) == i.TriedSlot(env) && t.info[id].lastSuccess == i.lastSuccess
  {
  }

  lemma MakeTriedSteps(env: Env, s: Tables, id: Id)
    requires Inv(env, s) && id in s.info && !s.info[id].inTried && s.info[id].lastSuccess != 0
    ensures var slot := s.info[id].TriedSlot(env);
            && CanEvict(env, LeaveNew(s, id), slot)
            && var t := Evict(env, LeaveNew(s, id), slot);
               && id in t.info && Inv(env, EnterTried(t, id, slot))
               && t.triedTable[slot := id] == s.triedTable[slot := id]
  {
    hide *;
    var slot, t := s.info[id].TriedSlot(env), LeaveNew(s, id);
    LeaveNewKeeps(env, s, id);
    LeftNew(s, id);
    EvictKeeps(env, t, slot, {id}, 1);
    var u := Evict(env, t, slot);
    EvictLimbo(env, t, slot, {id}, 1, id);
    SameIn(t, u, id);
    TriedSlotStays(env, t, s.info[id], u, id);
    EnterTriedKeeps(env, u, id, slot, {id}, 1);
    assert {id} - {id} == {};
    assert (s.triedTable - {slot})[slot := id] == s.triedTable[slot := id];
    InvIsPartial(env, EnterTried(u, id, slot));
  }

  lemma InvIsPartial(env: Env, s: Tables)
    ensures Inv(env, s) <==> Partial(env, s, {}, 0)
  {
  }
}
