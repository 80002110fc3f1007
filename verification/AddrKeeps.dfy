/** Every internal operation on the tables keeps their invariant, up to the entries that are between two
    places at that moment. */
module AddrKeeps {
  import opened Options
  import opened AddrTables

  lemma SetCountUpdate(info: map<Id, Info>, id: Id, i: Info)
    requires id in info
    ensures i.inTried == info[id].inTried ==>
              TriedIds(info[id := i]) == TriedIds(info) && NewIds(info[id := i]) == NewIds(info)
    ensures i.inTried && !info[id].inTried ==>
              TriedIds(info[id := i]) == TriedIds(info) + {id} && NewIds(info[id := i]) == NewIds(info) - {id}
              && id !in TriedIds(info) && id in NewIds(info)
    ensures !i.inTried && info[id].inTried ==>
              TriedIds(info[id := i]) == TriedIds(info) - {id} && NewIds(info[id := i]) == NewIds(info) + {id}
              && id in TriedIds(info) && id !in NewIds(info)
  {
  }

  lemma CreateMaps(s: Tables, a: Address, source: NetAddr)
    requires MapsOk(s) && a.service.addr !in s.ids
    ensures MapsOk(Create(s, a, source))
  {
    assert Id(s.idCount) !in s.info;
  }

  lemma CreateRandom(s: Tables, a: Address, source: NetAddr)
    requires MapsOk(s) && RandomOk(s)
    ensures RandomOk(Create(s, a, source))
  {
    assert Id(s.idCount) !in s.info;
    var t := Create(s, a, source);
    assert forall k :: 0 <= k < |s.random| ==> t.random[k] == s.random[k] != Id(s.idCount);
  }

  lemma SetCountInsert(info: map<Id, Info>, id: Id, i: Info)
    requires id !in info && !i.inTried
    ensures TriedIds(info[id := i]) == TriedIds(info) && NewIds(info[id := i]) == NewIds(info) + {id}
    ensures id !in NewIds(info)
  {
  }

  lemma CreateCounts(s: Tables, a: Address, source: NetAddr)
    requires MapsOk(s) && CountsOk(s, 0)
    ensures CountsOk(Create(s, a, source), 1)
  {
    var id := Id(s.idCount);
    assert id !in s.info;
    SetCountInsert(s.info, id, Create(s, a, source).info[id]);
  }

  lemma CreateTried(env: Env, s: Tables, a: Address, source: NetAddr)
    requires MapsOk(s) && TriedOk(env, s) && TimesOk(s)
    ensures TriedOk(env, Create(s, a, source)) && TimesOk(Create(s, a, source))
  {
    assert Id(s.idCount) !in s.info;
  }

  lemma CreateNew(env: Env, s: Tables, a: Address, source: NetAddr)
    requires MapsOk(s) && NewOk(env, s)
    ensures NewOk(env, Create(s, a, source))
  {
    assert Id(s.idCount) !in s.info;
  }

  lemma CreateRefs(env: Env, s: Tables, a: Address, source: NetAddr)
    requires MapsOk(s) && NewOk(env, s) && RefsOk(s, {})
    ensures RefsOk(Create(s, a, source), {Id(s.idCount)})
  {
    assert Id(s.idCount) !in s.info;
    assert Slots(s.newTable, Id(s.idCount)) == {};
  }

  lemma CreateKeeps(env: Env, s: Tables, a: Address, source: NetAddr)
    requires Inv(env, s) && a.service.addr !in s.ids
    ensures Partial(env, Create(s, a, source), {Id(s.idCount)}, 1)
  {
    CreateMaps(s, a, source);
    CreateRandom(s, a, source);
    CreateCounts(s, a, source);
    CreateTried(env, s, a, source);
    CreateNew(env, s, a, source);
    CreateRefs(env, s, a, source);
  }

  /** The same entries in the same places: only statistics or places in the random order differ. */
  ghost predicate Alike(s: Tables, t: Tables) {
    && t.idCount == s.idCount && t.ids == s.ids
    && t.triedTable == s.triedTable && t.newTable == s.newTable && t.nTried == s.nTried && t.nNew == s.nNew
    && t.info.Keys == s.info.Keys
    && forall id :: id in t.info ==> AlikeInfo(s.info[id], t.info[id])
  }

  predicate AlikeInfo(i: Info, j: Info) {
    j.service == i.service && j.source == i.source && j.refCount == i.refCount && j.inTried == i.inTried
  }

  lemma AlikeTables(env: Env, s: Tables, t: Tables)
    requires Alike(s, t) && MapsOk(s) && TriedOk(env, s) && NewOk(env, s)
    ensures MapsOk(t) && TriedOk(env, t) && NewOk(env, t)
  {
    assert forall id :: id in t.info ==> t.info[id].TriedSlot(env) == s.info[id].TriedSlot(env);
    assert forall slot :: slot in s.triedTable ==> AlikeInfo(s.info[s.triedTable[slot]], t.info[s.triedTable[slot]]);
    assert forall slot :: slot in s.newTable ==> AlikeInfo(s.info[s.newTable[slot]], t.info[s.newTable[slot]]);
  }

  lemma AlikeCounts(s: Tables, t: Tables, limbo: set<Id>, off: int)
    requires Alike(s, t) && RefsOk(s, limbo) && CountsOk(s, off)
    ensures RefsOk(t, limbo) && CountsOk(t, off)
  {
    assert TriedIds(t.info) == TriedIds(s.info);
    assert NewIds(t.info) == NewIds(s.info);
  }

  lemma AlikeKeeps(env: Env, s: Tables, t: Tables, limbo: set<Id>, off: int)
    requires Alike(s, t) && Partial(env, s, limbo, off) && RandomOk(t) && TimesOk(t)
    ensures Partial(env, t, limbo, off)
  {
    AlikeTables(env, s, t);
    AlikeCounts(s, t, limbo, off);
  }

  lemma SwapRandomOrder(s: Tables, p: int, q: int)
    requires RandomOk(s) && 0 <= p < |s.random| && 0 <= q < |s.random|
    ensures CanSwap(s, p, q) && RandomOk(SwapRandom(s, p, q))
    ensures SwapRandom(s, p, q).info[s.random[p]].randomPos == q
  {
    var t := SwapRandom(s, p, q);
    if p != q {
      var a, b := s.random[p], s.random[q];
      assert a != b;
      forall id | id in t.info
        ensures 0 <= t.info[id].randomPos < |t.random| && t.random[t.info[id].randomPos] == id
      {
        assert id != a && id != b ==> t.info[id] == s.info[id];
      }
      forall k | 0 <= k < |t.random|
        ensures t.random[k] in t.info && t.info[t.random[k]].randomPos == k
      {
        assert k != p && k != q ==> t.random[k] == s.random[k] && s.random[k] != a && s.random[k] != b;
      }
    }
  }

  /** The same entries, but for their place in the random order. */
  ghost predicate SameButPlaces(a: map<Id, Info>, b: map<Id, Info>) {
    a.Keys == b.Keys && forall x :: x in b ==> b[x] == a[x].(randomPos := b[x].randomPos)
  }

  lemma SetPlaceSame(info: map<Id, Info>, id: Id, p: int)
    requires id in info
    ensures SameButPlaces(info, SetPlace(info, id, p))
  {
  }

  lemma SameTrans(a: map<Id, Info>, b: map<Id, Info>, c: map<Id, Info>)
    requires SameButPlaces(a, b) && SameButPlaces(b, c)
    ensures SameButPlaces(a, c)
  {
  }

  lemma SwapSame(s: Tables, p: int, q: int)
    requires CanSwap(s, p, q)
    ensures SameButPlaces(s.info, SwapRandom(s, p, q).info)
  {
    if p != q {
      var a, b := s.random[p], s.random[q];
      SetPlaceSame(s.info, a, q);
      SetPlaceSame(SetPlace(s.info, a, q), b, p);
      SameTrans(s.info, SetPlace(s.info, a, q), SetPlace(SetPlace(s.info, a, q), b, p));
    }
  }

  lemma SwapAlike(s: Tables, p: int, q: int)
    requires CanSwap(s, p, q)
    ensures Alike(s, SwapRandom(s, p, q))
    ensures TimesOk(s) ==> TimesOk(SwapRandom(s, p, q))
    ensures |SwapRandom(s, p, q).random| == |s.random|
  {
    SwapSame(s, p, q);
    var t := SwapRandom(s, p, q);
    assert forall id :: id in t.info ==> t.info[id] == s.info[id].(randomPos := t.info[id].randomPos);
  }

  /** Swapping two places of the random order only swaps the two entries' notes of their place. */
  lemma SwapKeeps(env: Env, s: Tables, p: int, q: int, limbo: set<Id>, off: int)
    requires Partial(env, s, limbo, off) && 0 <= p < |s.random| && 0 <= q < |s.random|
    ensures CanSwap(s, p, q)
    ensures Partial(env, SwapRandom(s, p, q), limbo, off)
    ensures Alike(s, SwapRandom(s, p, q))
  {
    SwapRandomOrder(s, p, q);
    SwapAlike(s, p, q);
    AlikeKeeps(env, s, SwapRandom(s, p, q), limbo, off);
  }

  lemma CutMaps(t: Tables, id: Id)
    requires MapsOk(t) && id in t.info && |t.random| > 0
    ensures MapsOk(CutLast(t, id))
  {
  }

  lemma CutRandom(t: Tables, id: Id)
    requires RandomOk(t) && id in t.info && t.info[id].randomPos == |t.random| - 1
    ensures RandomOk(CutLast(t, id))
  {
    var u := CutLast(t, id);
    assert forall k :: 0 <= k < |u.random| ==> u.random[k] == t.random[k] != id;
  }

  lemma CutTables(env: Env, t: Tables, id: Id)
    requires TriedOk(env, t) && NewOk(env, t) && TimesOk(t)
    requires id in t.info && |t.random| > 0 && !t.info[id].inTried && Slots(t.newTable, id) == {}
    ensures TriedOk(env, CutLast(t, id)) && NewOk(env, CutLast(t, id)) && TimesOk(CutLast(t, id))
  {
    assert forall slot :: slot in t.newTable && t.newTable[slot] == id ==> slot in Slots(t.newTable, id);
  }

  lemma CutCounts(t: Tables, id: Id, limbo: set<Id>, off: int)
    requires RefsOk(t, limbo) && CountsOk(t, off) && id in limbo && |t.random| > 0
    ensures RefsOk(CutLast(t, id), limbo - {id}) && CountsOk(CutLast(t, id), off)
  {
    var u := CutLast(t, id);
    assert TriedIds(u.info) == TriedIds(t.info);
    assert NewIds(u.info) == NewIds(t.info) - {id};
  }

  lemma CutKeeps(env: Env, t: Tables, id: Id, limbo: set<Id>, off: int)
    requires Partial(env, t, limbo, off) && id in limbo && id in t.info && t.info[id].randomPos == |t.random| - 1
    ensures Partial(env, CutLast(t, id), limbo - {id}, off)
  {
    assert !t.info[id].inTried && Slots(t.newTable, id) == {};
    CutMaps(t, id);
    CutRandom(t, id);
    CutTables(env, t, id);
    CutCounts(t, id, limbo, off);
  }

  lemma MoveLast(env: Env, s: Tables, id: Id, limbo: set<Id>, off: int) returns (t: Tables)
    requires Partial(env, s, limbo, off) && id in limbo
    ensures CanDelete(s, id) && t == SwapRandom(s, s.info[id].randomPos, |s.random| - 1)
    ensures Partial(env, t, limbo, off) && id in t.info && t.info[id].randomPos == |t.random| - 1
    ensures t.triedTable == s.triedTable && t.newTable == s.newTable && |t.random| == |s.random|
  {
    var p, q := s.info[id].randomPos, |s.random| - 1;
    SwapRandomOrder(s, p, q);
    SwapAlike(s, p, q);
    t := SwapRandom(s, p, q);
    AlikeKeeps(env, s, t, limbo, off);
  }

  lemma DeleteIsCut(s: Tables, id: Id)
    requires CanDelete(s, id)
    ensures var t := SwapRandom(s, s.info[id].randomPos, |s.random| - 1);
            && id in t.info && |t.random| > 0 && Delete(s, id) == CutLast(t, id)
            && Delete(s, id).triedTable == s.triedTable && Delete(s, id).newTable == s.newTable
  {
  }

  lemma DeleteKeeps(env: Env, s: Tables, id: Id, limbo: set<Id>, off: int)
    requires Partial(env, s, limbo, off) && id in limbo
    ensures CanDelete(s, id)
    ensures Partial(env, Delete(s, id), limbo - {id}, off)
    ensures Delete(s, id).triedTable == s.triedTable && Delete(s, id).newTable == s.newTable
  {
    hide *;
    var t := MoveLast(env, s, id, limbo, off);
    DeleteIsCut(s, id);
    CutKeeps(env, t, id, limbo, off);
  }

  // Taking away one reference

  /** Changing an entry without moving it in the indexes or in the tried table. */
  lemma UpdateMaps(s: Tables, id: Id, i: Info, t: Tables)
    requires MapsOk(s) && id in s.info && i.service == s.info[id].service
    requires t.info == s.info[id := i] && t.idCount == s.idCount && t.ids == s.ids
    ensures MapsOk(t)
  {
  }

  lemma UpdateRandom(s: Tables, id: Id, i: Info, t: Tables)
    requires RandomOk(s) && id in s.info && i.randomPos == s.info[id].randomPos
    requires t.info == s.info[id := i] && t.random == s.random
    ensures RandomOk(t)
  {
  }

  lemma UpdateTried(env: Env, s: Tables, id: Id, i: Info, t: Tables)
    requires TriedOk(env, s) && id in s.info && i.service == s.info[id].service && i.inTried == s.info[id].inTried
    requires t.info == s.info[id := i] && t.triedTable == s.triedTable
    ensures TriedOk(env, t)
  {
    assert i.TriedSlot(env) == s.info[id].TriedSlot(env);
  }

  lemma UpdateTimes(s: Tables, id: Id, i: Info, t: Tables)
    requires TimesOk(s) && id in s.info && i.lastTry >= 0 && i.lastSuccess >= 0 && (i.inTried ==> i.lastSuccess != 0)
    requires t.info == s.info[id := i]
    ensures TimesOk(t)
  {
  }

  /** The new table may lose slots and gain a slot of the changed entry. */
  lemma UpdateNew(env: Env, s: Tables, id: Id, i: Info, t: Tables)
    requires NewOk(env, s) && id in s.info && i.service == s.info[id].service
    requires t.info == s.info[id := i]
    requires forall slot :: slot in t.newTable ==>
               || (slot in s.newTable && t.newTable[slot] == s.newTable[slot] &&
                   (t.newTable[slot] == id ==> !i.inTried))
               || (t.newTable[slot] == id && !i.inTried && slot.bucket < NEW_BUCKET_COUNT &&
                   i.PlaceIn(env, slot.bucket) == slot)
    ensures NewOk(env, t)
  {
    assert forall b :: i.PlaceIn(env, b) == s.info[id].PlaceIn(env, b);
  }

  lemma SlotsRemoved(t: Table, slot: Slot)
    requires slot in t
    ensures slot in Slots(t, t[slot]) && Slots(t - {slot}, t[slot]) == Slots(t, t[slot]) - {slot}
    ensures forall id :: id != t[slot] ==> Slots(t - {slot}, id) == Slots(t, id)
  {
    forall id | id != t[slot]
      ensures Slots(t - {slot}, id) == Slots(t, id)
    {
    }
  }

  lemma DropRefs(env: Env, s: Tables, slot: Slot, limbo: set<Id>)
    requires NewOk(env, s) && RefsOk(s, limbo) && slot in s.newTable
    ensures var id := s.newTable[slot];
            && id !in limbo
            && RefsOk(DropReference(s, slot), if s.info[id].refCount == 1 then limbo + {id} else limbo)
  {
    SlotsRemoved(s.newTable, slot);
  }

  lemma DropCounts(s: Tables, slot: Slot, off: int)
    requires CountsOk(s, off) && slot in s.newTable && s.newTable[slot] in s.info
    ensures CountsOk(DropReference(s, slot), off)
  {
    var id := s.newTable[slot];
    SetCountUpdate(s.info, id, s.info[id].(refCount := s.info[id].refCount - 1));
  }

  lemma DropKeeps(env: Env, s: Tables, slot: Slot, limbo: set<Id>, off: int)
    requires Partial(env, s, limbo, off) && slot in s.newTable
    ensures s.newTable[slot] in s.info && s.newTable[slot] !in limbo && s.info[s.newTable[slot]].refCount > 0
    ensures Partial(env, DropReference(s, slot),
                    if s.info[s.newTable[slot]].refCount == 1 then limbo + {s.newTable[slot]} else limbo, off)
  {
    var id := s.newTable[slot];
    var i, t := s.info[id].(refCount := s.info[id].refCount - 1), DropReference(s, slot);
    UpdateMaps(s, id, i, t);
    UpdateRandom(s, id, i, t);
    UpdateTried(env, s, id, i, t);
    UpdateTimes(s, id, i, t);
    UpdateNew(env, s, id, i, t);
    DropRefs(env, s, slot, limbo);
    DropCounts(s, slot, off);
  }

  /** Entries other than `gone` are as they were, but for their place in the random order. */
  ghost predicate OthersKept(s: Tables, t: Tables, gone: Id) {
    forall x :: x in s.info && x != gone ==>
      x in t.info && t.info[x] == s.info[x].(randomPos := t.info[x].randomPos)
  }

  lemma CutOthers(s: Tables, t: Tables, id: Id)
    requires id in t.info && |t.random| > 0 && SameButPlaces(s.info, t.info)
    ensures OthersKept(s, CutLast(t, id), id)
  {
    assert forall x :: x in s.info ==> x in t.info && t.info[x] == s.info[x].(randomPos := t.info[x].randomPos);
  }

  lemma DeleteOthers(s: Tables, id: Id)
    requires CanDelete(s, id)
    ensures OthersKept(s, Delete(s, id), id)
    ensures Delete(s, id).idCount == s.idCount
    ensures Delete(s, id).lastGood == s.lastGood && Delete(s, id).collisions == s.collisions
  {
    hide OthersKept, SameButPlaces;
    SwapSame(s, s.info[id].randomPos, |s.random| - 1);
    DeleteIsCut(s, id);
    CutOthers(s, SwapRandom(s, s.info[id].randomPos, |s.random| - 1), id);
  }

  lemma DropFacts(s: Tables, slot: Slot)
    requires slot in s.newTable && s.newTable[slot] in s.info
    ensures var t := DropReference(s, slot);
            && OthersKept(s, t, s.newTable[slot])
            && t.newTable == s.newTable - {slot} && t.triedTable == s.triedTable && t.idCount == s.idCount
            && t.lastGood == s.lastGood && t.collisions == s.collisions
            && s.newTable[slot] in t.info && t.info[s.newTable[slot]].refCount == s.info[s.newTable[slot]].refCount - 1
  {
  }

  /** What clearing a slot leaves alone. */
  ghost predicate OnlyCleared(s: Tables, t: Tables, slot: Slot) {
    && t.newTable == s.newTable - {slot} && t.triedTable == s.triedTable && t.idCount == s.idCount
    && t.lastGood == s.lastGood && t.collisions == s.collisions
    && if slot in s.newTable then OthersKept(s, t, s.newTable[slot]) else t == s
  }

  lemma OthersTrans(s: Tables, t: Tables, u: Tables, id: Id)
    requires OthersKept(s, t, id) && OthersKept(t, u, id)
    ensures OthersKept(s, u, id)
  {
  }

  lemma ClearLast(env: Env, s: Tables, slot: Slot, limbo: set<Id>, off: int)
    requires slot in s.newTable && s.newTable[slot] in s.info && s.info[s.newTable[slot]].refCount == 1
    requires Partial(env, DropReference(s, slot), limbo + {s.newTable[slot]}, off) && s.newTable[slot] !in limbo
    ensures CanDelete(DropReference(s, slot), s.newTable[slot])
    ensures Partial(env, Delete(DropReference(s, slot), s.newTable[slot]), limbo, off)
    ensures OnlyCleared(s, Delete(DropReference(s, slot), s.newTable[slot]), slot)
  {
    hide *;
    var id, t := s.newTable[slot], DropReference(s, slot);
    DropFacts(s, slot);
    DeleteKeeps(env, t, id, limbo + {id}, off);
    assert limbo + {id} - {id} == limbo;
    DeleteOthers(t, id);
    OthersTrans(s, t, Delete(t, id), id);
    OnlyClearedIntro(s, Delete(t, id), slot);
  }

  lemma OnlyClearedIntro(s: Tables, t: Tables, slot: Slot)
    requires slot in s.newTable && OthersKept(s, t, s.newTable[slot])
    requires t.newTable == s.newTable - {slot} && t.triedTable == s.triedTable && t.idCount == s.idCount
    requires t.lastGood == s.lastGood && t.collisions == s.collisions
    ensures OnlyCleared(s, t, slot)
  {
  }

  lemma ClearOne(env: Env, s: Tables, slot: Slot, limbo: set<Id>, off: int)
    requires Partial(env, s, limbo, off) && slot in s.newTable
    ensures s.newTable[slot] in s.info && s.info[s.newTable[slot]].refCount > 0
    ensures var t := DropReference(s, slot);
            if s.info[s.newTable[slot]].refCount == 1 then
              CanDelete(t, s.newTable[slot])
              && Partial(env, Delete(t, s.newTable[slot]), limbo, off)
              && OnlyCleared(s, Delete(t, s.newTable[slot]), slot)
            else Partial(env, t, limbo, off) && OnlyCleared(s, t, slot)
  {
    hide *;
    DropKeeps(env, s, slot, limbo, off);
    DropFacts(s, slot);
    if s.info[s.newTable[slot]].refCount == 1 {
      ClearLast(env, s, slot, limbo, off);
    } else {
      OnlyClearedIntro(s, DropReference(s, slot), slot);
    }
  }

  /** Clearing a slot of the new table keeps the invariant, deletes its entry if that was its last
      reference, and touches no other entry and no other slot. */
  lemma ClearKeeps(env: Env, s: Tables, slot: Slot, limbo: set<Id>, off: int)
    requires Partial(env, s, limbo, off)
    ensures CanClear(s, slot)
    ensures Partial(env, ClearNew(s, slot), limbo, off)
    ensures OnlyCleared(s, ClearNew(s, slot), slot)
  {
    hide MapsOk, RandomOk, TriedOk, NewOk, RefsOk, CountsOk, TimesOk, Delete, CanDelete, Partial;
    if slot in s.newTable {
      ClearOne(env, s, slot, limbo, off);
    } else {
      assert s.newTable - {slot} == s.newTable;
    }
  }

  // Adding a reference

  lemma SlotsAdded(t: Table, slot: Slot, id: Id)
    requires slot !in t
    ensures slot !in Slots(t, id) && Slots(t[slot := id], id) == Slots(t, id) + {slot}
    ensures forall x :: x != id ==> Slots(t[slot := id], x) == Slots(t, x)
  {
    forall x | x != id
      ensures Slots(t[slot := id], x) == Slots(t, x)
    {
    }
  }

  lemma AddRefRefs(s: Tables, id: Id, slot: Slot, limbo: set<Id>)
    requires RefsOk(s, limbo)
    requires id in s.info && !s.info[id].inTried && slot !in s.newTable && s.info[id].refCount < NEW_BUCKETS_PER_ADDRESS
    ensures RefsOk(AddReference(s, id, slot), limbo - {id})
  {
    SlotsAdded(s.newTable, slot, id);
  }

  lemma AddRefCounts(s: Tables, id: Id, slot: Slot, off: int)
    requires CountsOk(s, off) && id in s.info
    ensures CountsOk(AddReference(s, id, slot), off)
  {
    SetCountUpdate(s.info, id, s.info[id].(refCount := s.info[id].refCount + 1));
  }

  lemma AddRefNew(env: Env, s: Tables, id: Id, slot: Slot)
    requires NewOk(env, s) && id in s.info && !s.info[id].inTried
    requires slot.bucket < NEW_BUCKET_COUNT && s.info[id].PlaceIn(env, slot.bucket) == slot
    ensures NewOk(env, AddReference(s, id, slot))
  {
    UpdateNew(env, s, id, s.info[id].(refCount := s.info[id].refCount + 1), AddReference(s, id, slot));
  }

  lemma AddRefKeeps(env: Env, s: Tables, id: Id, slot: Slot, limbo: set<Id>, off: int)
    requires Partial(env, s, limbo, off)
    requires id in s.info && !s.info[id].inTried && slot !in s.newTable && s.info[id].refCount < NEW_BUCKETS_PER_ADDRESS
    requires slot.bucket < NEW_BUCKET_COUNT && s.info[id].PlaceIn(env, slot.bucket) == slot
    ensures Partial(env, AddReference(s, id, slot), limbo - {id}, off)
  {
    var i, t := s.info[id].(refCount := s.info[id].refCount + 1), AddReference(s, id, slot);
    UpdateMaps(s, id, i, t);
    UpdateRandom(s, id, i, t);
    UpdateTried(env, s, id, i, t);
    UpdateTimes(s, id, i, t);
    AddRefNew(env, s, id, slot);
    AddRefRefs(s, id, slot, limbo);
    AddRefCounts(s, id, slot, off);
  }

  // Moving between the tables

  lemma LeaveNewCounts(s: Tables, id: Id, off: int)
    requires RefsOk(s, {}) && CountsOk(s, off) && id in s.info && !s.info[id].inTried
    ensures RefsOk(LeaveNew(s, id), {id}) && CountsOk(LeaveNew(s, id), off + 1)
  {
    var t := LeaveNew(s, id);
    assert Slots(t.newTable, id) == {};
    forall x | x != id
      ensures Slots(t.newTable, x) == Slots(s.newTable, x)
    {
    }
    SetCountUpdate(s.info, id, t.info[id]);
  }

  lemma LeaveNewKeeps(env: Env, s: Tables, id: Id)
    requires Inv(env, s) && id in s.info && !s.info[id].inTried
    ensures Partial(env, LeaveNew(s, id), {id}, 1)
    ensures LeaveNew(s, id).info[id].refCount == 0
  {
    var t := LeaveNew(s, id);
    UpdateMaps(s, id, t.info[id], t);
    UpdateRandom(s, id, t.info[id], t);
    UpdateTried(env, s, id, t.info[id], t);
    UpdateTimes(s, id, t.info[id], t);
    UpdateNew(env, s, id, t.info[id], t);
    LeaveNewCounts(s, id, 0);
  }

  lemma LeaveTriedTable(env: Env, s: Tables, slot: Slot)
    requires TriedOk(env, s) && slot in s.triedTable
    ensures TriedOk(env, LeaveTried(s, slot))
  {
  }

  lemma LeaveTriedRefs(env: Env, s: Tables, slot: Slot, limbo: set<Id>)
    requires TriedOk(env, s) && RefsOk(s, limbo) && slot in s.triedTable
    ensures s.triedTable[slot] !in limbo
    ensures RefsOk(LeaveTried(s, slot), limbo + {s.triedTable[slot]})
  {
  }

  lemma LeaveTriedCounts(env: Env, s: Tables, slot: Slot, off: int)
    requires TriedOk(env, s) && CountsOk(s, off) && slot in s.triedTable
    ensures CountsOk(LeaveTried(s, slot), off + 1)
  {
    var id := s.triedTable[slot];
    SetCountUpdate(s.info, id, s.info[id].(inTried := false));
  }

  lemma LeaveTriedKeeps(env: Env, s: Tables, slot: Slot, limbo: set<Id>, off: int)
    requires Partial(env, s, limbo, off) && slot in s.triedTable
    ensures s.triedTable[slot] in s.info && s.triedTable[slot] !in limbo
    ensures Partial(env, LeaveTried(s, slot), limbo + {s.triedTable[slot]}, off + 1)
  {
    var id, t := s.triedTable[slot], LeaveTried(s, slot);
    UpdateMaps(s, id, t.info[id], t);
    UpdateRandom(s, id, t.info[id], t);
    LeaveTriedTable(env, s, slot);
    UpdateTimes(s, id, t.info[id], t);
    UpdateNew(env, s, id, t.info[id], t);
    LeaveTriedRefs(env, s, slot, limbo);
    LeaveTriedCounts(env, s, slot, off);
  }

  lemma EnterTriedTable(env: Env, s: Tables, id: Id, slot: Slot)
    requires TriedOk(env, s) && id in s.info && !s.info[id].inTried
    requires slot == s.info[id].TriedSlot(env) && slot !in s.triedTable
    ensures TriedOk(env, EnterTried(s, id, slot))
  {
    assert EnterTried(s, id, slot).info[id].TriedSlot(env) == slot;
  }

  lemma EnterTriedRefs(s: Tables, id: Id, slot: Slot, limbo: set<Id>)
    requires RefsOk(s, limbo) && id in limbo
    ensures RefsOk(EnterTried(s, id, slot), limbo - {id})
  {
  }

  lemma EnterTriedCounts(s: Tables, id: Id, slot: Slot, off: int)
    requires CountsOk(s, off) && id in s.info && !s.info[id].inTried
    ensures CountsOk(EnterTried(s, id, slot), off - 1)
  {
    SetCountUpdate(s.info, id, s.info[id].(inTried := true));
  }

  lemma EnterTriedKeeps(env: Env, s: Tables, id: Id, slot: Slot, limbo: set<Id>, off: int)
    requires Partial(env, s, limbo, off) && id in limbo && id in s.info && s.info[id].lastSuccess != 0
    requires slot == s.info[id].TriedSlot(env) && slot !in s.triedTable
    ensures Partial(env, EnterTried(s, id, slot), limbo - {id}, off - 1)
  {
    var t := EnterTried(s, id, slot);
    assert Slots(s.newTable, id) == {};
    assert forall x :: x in s.newTable && s.newTable[x] == id ==> x in Slots(s.newTable, id);
    UpdateMaps(s, id, t.info[id], t);
    UpdateRandom(s, id, t.info[id], t);
    EnterTriedTable(env, s, id, slot);
    UpdateTimes(s, id, t.info[id], t);
    UpdateNew(env, s, id, t.info[id], t);
    EnterTriedRefs(s, id, slot, limbo);
    EnterTriedCounts(s, id, slot, off);
  }
}
