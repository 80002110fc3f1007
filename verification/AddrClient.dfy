/** What clients do to the address manager: each call as a function of its tables, the clock and the
    random draws; every call keeps the tables consistent. */
module AddrClient {
  import opened Options
  import opened AddrTables
  import opened AddrKeeps
  import opened AddrOps

  /** New statistics for an entry: same address, references and places. */
  predicate Restated(i: Info, j: Info) {
    && AlikeInfo(i, j) && j.randomPos == i.randomPos
    && j.lastTry >= 0 && j.lastSuccess >= 0 && (j.inTried ==> j.lastSuccess != 0)
  }

  lemma RestateKeeps(env: Env, s: Tables, id: Id, j: Info, limbo: set<Id>, off: int)
    requires Partial(env, s, limbo, off) && id in s.info && Restated(s.info[id], j)
    ensures Partial(env, s.(info := s.info[id := j]), limbo, off)
  {
    var t := s.(info := s.info[id := j]);
    UpdateMaps(s, id, j, t);
    UpdateRandom(s, id, j, t);
    UpdateTried(env, s, id, j, t);
    UpdateTimes(s, id, j, t);
    UpdateNew(env, s, id, j, t);
    RestateCounts(s, id, j, limbo, off);
  }

  lemma RestateCounts(s: Tables, id: Id, j: Info, limbo: set<Id>, off: int)
    requires RefsOk(s, limbo) && CountsOk(s, off) && id in s.info && AlikeInfo(s.info[id], j)
    ensures RefsOk(s.(info := s.info[id := j]), limbo) && CountsOk(s.(info := s.info[id := j]), off)
  {
    SetCountUpdate(s.info, id, j);
  }

  lemma StatisticsOk(env: Env, s: Tables, id: Id)
    requires Inv(env, s) && id in s.info
    ensures Restated(s.info[id], s.info[id]) && s.info[id].refCount <= NEW_BUCKETS_PER_ADDRESS
  {
  }

  lemma RestateFound(env: Env, s: Tables, id: Id, j: Info)
    requires Inv(env, s) && id in s.info && Restated(s.info[id], j)
    ensures Inv(env, s.(info := s.info[id := j]))
  {
    hide *;
    InvIsPartial(env, s);
    RestateKeeps(env, s, id, j, {}, 0);
    InvIsPartial(env, s.(info := s.info[id := j]));
  }

  // What is not part of the tables proper

  function Noted(s: Tables, time: int, pending: set<Id>): Tables {
    s.(lastGood := time, collisions := pending)
  }

  lemma NotedIndexes(s: Tables, time: int, pending: set<Id>)
    requires MapsOk(s) && RandomOk(s) && TimesOk(s)
    ensures MapsOk(Noted(s, time, pending)) && RandomOk(Noted(s, time, pending)) && TimesOk(Noted(s, time, pending))
  {
  }

  lemma NotedTables(env: Env, s: Tables, time: int, pending: set<Id>)
    requires TriedOk(env, s) && NewOk(env, s) && RefsOk(s, {}) && CountsOk(s, 0)
    ensures TriedOk(env, Noted(s, time, pending)) && NewOk(env, Noted(s, time, pending))
    ensures RefsOk(Noted(s, time, pending), {}) && CountsOk(Noted(s, time, pending), 0)
  {
  }

  lemma NotedKeeps(env: Env, s: Tables, time: int, pending: set<Id>)
    requires Inv(env, s)
    ensures Inv(env, Noted(s, time, pending))
  {
    hide MapsOk, RandomOk, TriedOk, NewOk, RefsOk, CountsOk, TimesOk;
    NotedIndexes(s, time, pending);
    NotedTables(env, s, time, pending);
  }

  lemma LastGoodKeeps(env: Env, s: Tables, time: int)
    requires Inv(env, s)
    ensures Inv(env, s.(lastGood := time))
  {
    assert s.(lastGood := time) == Noted(s, time, s.collisions);
    hide *;
    NotedKeeps(env, s, time, s.collisions);
  }

  lemma CollisionsKeep(env: Env, s: Tables, pending: set<Id>)
    requires Inv(env, s)
    ensures Inv(env, s.(collisions := pending))
  {
    assert s.(collisions := pending) == Noted(s, s.lastGood, pending);
    hide *;
    NotedKeeps(env, s, s.lastGood, pending);
  }

  /** The entry for exactly this address and port. */
  function FindExact(s: Tables, addr: Service): Option<Id> {
    if addr.addr in s.ids && s.ids[addr.addr] in s.info && s.info[s.ids[addr.addr]].service == addr
    then Some(s.ids[addr.addr]) else None
  }

  // ---------------------------------------------------------------------
  // Good

  function Succeeded(i: Info, time: int): Info {
    i.(lastSuccess := time, lastTry := time, attempts := 0)
  }

  /** The entry is found in some bucket of the new table. */
  predicate InSomeBucket(env: Env, s: Tables, id: Id)
    requires id in s.info
  {
    exists b :: 0 <= b < NEW_BUCKET_COUNT && Find(s.newTable, s.info[id].PlaceIn(env, b)) == Some(id)
  }

  /** An entry that is not tried is always found: the bail-out of Good for entries that are in no bucket
      is never taken. */
  lemma AlwaysInSomeBucket(env: Env, s: Tables, id: Id)
    requires Inv(env, s) && id in s.info && !s.info[id].inTried
    ensures InSomeBucket(env, s, id)
  {
    assert |Slots(s.newTable, id)| > 0;
    var slot :| slot in Slots(s.newTable, id);
    assert s.info[id].PlaceIn(env, slot.bucket) == slot;
    assert Find(s.newTable, s.info[id].PlaceIn(env, slot.bucket)) == Some(id);
  }

  ghost function Good(env: Env, s: Tables, addr: Service, testBeforeEvict: bool, time: int): Tables
    requires Inv(env, s) && time > 0
  {
    var s0 := s.(lastGood := time);
    match FindExact(s, addr)
    case None => s0
    case Some(id) =>
      var s1 := s0.(info := s.info[id := Succeeded(s.info[id], time)]);
      var slot := s.info[id].TriedSlot(env);
      if s.info[id].inTried || !InSomeBucket(env, s, id) then s1
      else if testBeforeEvict && slot in s.triedTable then
        if |s.collisions| < TRIED_COLLISION_SIZE then s1.(collisions := s.collisions + {id}) else s1
      else
        GoodReady(env, s, id, time);
        MakeTried(env, s1, id)
  }

  lemma GoodReady(env: Env, s: Tables, id: Id, time: int)
    requires Inv(env, s) && id in s.info && time > 0
    ensures var s1 := s.(lastGood := time, info := s.info[id := Succeeded(s.info[id], time)]);
            && Inv(env, s1)
            && (!s.info[id].inTried ==>
                 && CanMakeTried(env, s1, id) && Inv(env, MakeTried(env, s1, id))
                 && MakeTried(env, s1, id).triedTable == s.triedTable[s.info[id].TriedSlot(env) := id])
  {
    hide *;
    var s0, j := s.(lastGood := time), Succeeded(s.info[id], time);
    SucceededFacts(env, s.info[id], time);
    LastGoodKeeps(env, s, time);
    RestateFound(env, s0, id, j);
    var s1 := s.(lastGood := time, info := s.info[id := j]);
    assert s0.(info := s.info[id := j]) == s1;
    if !s.info[id].inTried {
      MakeTriedKeeps(env, s1, id);
    }
  }

  lemma SucceededFacts(env: Env, i: Info, time: int)
    requires time > 0
    ensures var j := Succeeded(i, time);
            && Restated(i, j) && j.inTried == i.inTried && j.lastSuccess == time != 0
            && j.TriedSlot(env) == i.TriedSlot(env)
  {
  }

  /** No occupied slot of the tried table becomes empty. */
  predicate TriedGrows(s: Tables, t: Tables) {
    s.triedTable.Keys <= t.triedTable.Keys
  }

  lemma GoodKeeps(env: Env, s: Tables, addr: Service, testBeforeEvict: bool, time: int)
    requires Inv(env, s) && time > 0
    ensures Inv(env, Good(env, s, addr, testBeforeEvict, time))
    ensures TriedGrows(s, Good(env, s, addr, testBeforeEvict, time))
  {
    hide Inv, MakeTried, CanMakeTried, Succeeded, InSomeBucket;
    var found := FindExact(s, addr);
    LastGoodKeeps(env, s, time);
    if found.Some? {
      GoodReady(env, s, found.value, time);
      var s1 := s.(lastGood := time, info := s.info[found.value := Succeeded(s.info[found.value], time)]);
      CollisionsKeep(env, s1, s.collisions + {found.value});
    }
  }

  // ---------------------------------------------------------------------
  // Add

  function Max(a: int, b: int): int { if a >= b then a else b }

  const DAY: int := 24 * 60 * 60

  /** What a repeated announcement changes in a known entry. */
  function Refreshed(i: Info, a: Address, penalty: int, now: int): Info {
    var interval := if now - a.time < DAY then 60 * 60 else DAY;
    var time :=
      if a.time != 0 && (i.time == 0 || i.time < a.time - interval - penalty) then Max(0, a.time - penalty)
      else i.time;
    i.(time := time, services := i.services | a.services)
  }

  /** A known entry is not entered into another bucket if the announcement is no news, or the entry is
      tried, has all its references or loses the draw, which gets harder with every reference. */
  predicate Ignored(i: Info, a: Address, lucky: bool) {
    || a.time == 0 || (i.time != 0 && a.time <= i.time)
    || i.inTried
    || i.refCount == NEW_BUCKETS_PER_ADDRESS
    || (i.refCount > 0 && !lucky)
  }

  /** Whether the entry takes a slot of the new table. */
  predicate Takes(s: Tables, id: Id, slot: Slot, now: int)
    requires id in s.info && (slot in s.newTable ==> s.newTable[slot] in s.info)
  {
    slot in s.newTable ==>
      var existing := s.info[s.newTable[slot]];
      existing.IsTerrible(now) || (existing.refCount > 1 && s.info[id].refCount == 0)
  }

  /** Enters an entry into its slot for this source, if it may take it; an entry left without any
      reference is deleted. */
  ghost function Place(env: Env, s: Tables, id: Id, source: NetAddr, now: int, limbo: set<Id>): Tables
    requires Partial(env, s, limbo, 0) && limbo <= {id}
    requires id in s.info && !s.info[id].inTried && s.info[id].refCount < NEW_BUCKETS_PER_ADDRESS
  {
    var slot := s.info[id].NewSlot(env, source);
    if Find(s.newTable, slot) == Some(id) then s
    else if Takes(s, id, slot, now) then
      PlaceReady(env, s, id, slot, limbo);
      AddReference(ClearNew(s, slot), id, slot)
    else if s.info[id].refCount == 0 then
      DeleteReady(env, s, id, limbo);
      Delete(s, id)
    else s
  }

  lemma DeleteReady(env: Env, s: Tables, id: Id, limbo: set<Id>)
    requires Partial(env, s, limbo, 0) && limbo <= {id} && id in s.info && !s.info[id].inTried
    requires s.info[id].refCount == 0
    ensures limbo == {id} && CanDelete(s, id) && Inv(env, Delete(s, id)) && Delete(s, id).triedTable == s.triedTable
  {
    assert id in limbo;
    assert limbo == {id};
    hide *;
    DeleteKeeps(env, s, id, limbo, 0);
    assert {id} - {id} == {};
    InvIsPartial(env, Delete(s, id));
  }

  lemma ClearOther(env: Env, s: Tables, id: Id, slot: Slot, limbo: set<Id>)
    requires Partial(env, s, limbo, 0) && id in s.info && Find(s.newTable, slot) != Some(id)
    ensures CanClear(s, slot) && Same(s, ClearNew(s, slot), id) && slot !in ClearNew(s, slot).newTable
    ensures Partial(env, ClearNew(s, slot), limbo, 0) && ClearNew(s, slot).triedTable == s.triedTable
  {
    hide Partial, ClearNew, CanClear;
    ClearKeeps(env, s, slot, limbo, 0);
    assert s.info[id] == s.info[id].(randomPos := s.info[id].randomPos);
  }

  lemma SameFacts(env: Env, s: Tables, t: Tables, id: Id, b: nat)
    requires Same(s, t, id)
    ensures t.info[id].PlaceIn(env, b) == s.info[id].PlaceIn(env, b)
    ensures t.info[id].inTried == s.info[id].inTried && t.info[id].refCount == s.info[id].refCount
  {
  }

  lemma PlaceReady(env: Env, s: Tables, id: Id, slot: Slot, limbo: set<Id>)
    requires Partial(env, s, limbo, 0) && limbo <= {id} && Find(s.newTable, slot) != Some(id)
    requires id in s.info && !s.info[id].inTried && s.info[id].refCount < NEW_BUCKETS_PER_ADDRESS
    requires slot.bucket < NEW_BUCKET_COUNT && s.info[id].PlaceIn(env, slot.bucket) == slot
    ensures CanClear(s, slot) && id in ClearNew(s, slot).info
    ensures Inv(env, AddReference(ClearNew(s, slot), id, slot))
    ensures AddReference(ClearNew(s, slot), id, slot).triedTable == s.triedTable
  {
    hide Partial, Inv, ClearNew, CanClear, Find, Info.PlaceIn, Same;
    ClearOther(env, s, id, slot, limbo);
    var t := ClearNew(s, slot);
    SameIn(s, t, id);
    SameFacts(env, s, t, id, slot.bucket);
    AddRefKeeps(env, t, id, slot, limbo, 0);
    assert limbo - {id} == {};
    InvIsPartial(env, AddReference(t, id, slot));
  }

  lemma NewSlotPlace(env: Env, i: Info, source: NetAddr)
    ensures var slot := i.NewSlot(env, source);
            slot.bucket < NEW_BUCKET_COUNT && i.PlaceIn(env, slot.bucket) == slot
  {
  }

  lemma PlaceKeeps(env: Env, s: Tables, id: Id, source: NetAddr, now: int, limbo: set<Id>)
    requires Partial(env, s, limbo, 0) && limbo <= {id}
    requires id in s.info && !s.info[id].inTried && s.info[id].refCount < NEW_BUCKETS_PER_ADDRESS
    ensures Inv(env, Place(env, s, id, source, now, limbo))
    ensures Place(env, s, id, source, now, limbo).triedTable == s.triedTable
  {
    var slot := s.info[id].NewSlot(env, source);
    NewSlotPlace(env, s.info[id], source);
    if Find(s.newTable, slot) == Some(id) {
      assert slot in Slots(s.newTable, id);
      assert limbo == {};
    } else if Takes(s, id, slot, now) {
      PlaceReady(env, s, id, slot, limbo);
    } else if s.info[id].refCount == 0 {
      DeleteReady(env, s, id, limbo);
    } else {
      assert limbo == {};
    }
  }

  /** A new entry as Add leaves it before looking for a slot: counted, but without any reference. */
  function Announced(s: Tables, a: Address, source: NetAddr, penalty: int): Tables {
    var t := Create(s, a, source);
    var id := Id(s.idCount);
    t.(info := t.info[id := t.info[id].(time := Max(0, t.info[id].time - penalty))], nNew := t.nNew + 1)
  }

  lemma CreatedFacts(s: Tables, a: Address, source: NetAddr, penalty: int)
    ensures var t, id := Create(s, a, source), Id(s.idCount);
            && id in t.info && t.triedTable == s.triedTable
            && var j := t.info[id].(time := Max(0, t.info[id].time - penalty));
               && Restated(t.info[id], j) && !j.inTried && j.refCount == 0
               && var u := t.(info := t.info[id := j]); Announced(s, a, source, penalty) == u.(nNew := u.nNew + 1)
  {
  }

  lemma AnnouncedKeeps(env: Env, s: Tables, a: Address, source: NetAddr, penalty: int)
    requires Inv(env, s) && a.service.addr !in s.ids
    ensures var t, id := Announced(s, a, source, penalty), Id(s.idCount);
            && Partial(env, t, {id}, 0) && t.triedTable == s.triedTable
            && id in t.info && !t.info[id].inTried && t.info[id].refCount == 0
  {
    hide *;
    CreatedFacts(s, a, source, penalty);
    var t, id := Create(s, a, source), Id(s.idCount);
    var j := t.info[id].(time := Max(0, t.info[id].time - penalty));
    var u := t.(info := t.info[id := j]);
    CreateKeeps(env, s, a, source);
    RestateKeeps(env, t, id, j, {id}, 1);
    NewCount(env, u, {id}, 1);
  }

  /** What an announcement does, and whether it brought a new entry. The clock is read for the entry's time
      and again for the quality of the entry in its place. */
  ghost function Add(env: Env, s: Tables, a: Address, source: NetAddr, penalty0: int, now: int, later: int,
                     lucky: bool): (Tables, bool)
    requires Inv(env, s)
  {
    var penalty := if a.service.addr == source then 0 else penalty0;
    if !env.routable(a.service.addr) then (s, false)
    else if a.service.addr in s.ids then
      var id := s.ids[a.service.addr];
      var j := Refreshed(s.info[id], a, penalty, now);
      var t := s.(info := s.info[id := j]);
      RefreshKeeps(env, s, id, a, penalty, now);
      if Ignored(j, a, lucky) then (t, false)
      else (Place(env, t, id, source, later, {}), false)
    else
      AnnouncedKeeps(env, s, a, source, penalty);
      (Place(env, Announced(s, a, source, penalty), Id(s.idCount), source, later, {Id(s.idCount)}), true)
  }

  lemma RefreshKeeps(env: Env, s: Tables, id: Id, a: Address, penalty: int, now: int)
    requires Inv(env, s) && id in s.info
    ensures var j := Refreshed(s.info[id], a, penalty, now);
            && Inv(env, s.(info := s.info[id := j]))
            && (!j.inTried && j.refCount != NEW_BUCKETS_PER_ADDRESS ==> j.refCount < NEW_BUCKETS_PER_ADDRESS)
  {
    hide Inv;
    StatisticsOk(env, s, id);
    RestateFound(env, s, id, Refreshed(s.info[id], a, penalty, now));
  }

  lemma AddKeeps(env: Env, s: Tables, a: Address, source: NetAddr, penalty0: int, now: int, later: int, lucky: bool)
    requires Inv(env, s)
    ensures Inv(env, Add(env, s, a, source, penalty0, now, later, lucky).0)
    ensures Add(env, s, a, source, penalty0, now, later, lucky).0.triedTable == s.triedTable
  {
    var penalty := if a.service.addr == source then 0 else penalty0;
    if env.routable(a.service.addr) {
      if a.service.addr in s.ids {
        var id := s.ids[a.service.addr];
        var j := Refreshed(s.info[id], a, penalty, now);
        RefreshKeeps(env, s, id, a, penalty, now);
        if !Ignored(j, a, lucky) {
          PlaceKeeps(env, s.(info := s.info[id := j]), id, source, later, {});
        }
      } else {
        AnnouncedKeeps(env, s, a, source, penalty);
        PlaceKeeps(env, Announced(s, a, source, penalty), Id(s.idCount), source, later, {Id(s.idCount)});
      }
    }
  }

  // ---------------------------------------------------------------------
  // Attempt, Connected, SetServices, GetAddr

  function Attempted(s: Tables, i: Info, countFailure: bool, time: int): Info {
    if countFailure && i.lastCountAttempt < s.lastGood then
      i.(lastTry := time, lastCountAttempt := time, attempts := i.attempts + 1)
    else i.(lastTry := time)
  }

  function Attempt(s: Tables, addr: Service, countFailure: bool, time: int): Tables {
    match FindExact(s, addr)
    case None => s
    case Some(id) => s.(info := s.info[id := Attempted(s, s.info[id], countFailure, time)])
  }

  function Connected(s: Tables, addr: Service, time: int): Tables {
    match FindExact(s, addr)
    case None => s
    case Some(id) =>
      if time - s.info[id].time > 20 * 60 then s.(info := s.info[id := s.info[id].(time := time)]) else s
  }

  function SetServices(s: Tables, addr: Service, services: bv64): Tables {
    match FindExact(s, addr)
    case None => s
    case Some(id) => s.(info := s.info[id := s.info[id].(services := services)])
  }

  lemma AttemptKeeps(env: Env, s: Tables, addr: Service, countFailure: bool, time: int)
    requires Inv(env, s) && time >= 0
    ensures Inv(env, Attempt(s, addr, countFailure, time))
  {
    hide Inv;
    var found := FindExact(s, addr);
    if found.Some? {
      StatisticsOk(env, s, found.value);
      RestateFound(env, s, found.value, Attempted(s, s.info[found.value], countFailure, time));
    }
  }

  lemma ConnectedKeeps(env: Env, s: Tables, addr: Service, time: int)
    requires Inv(env, s)
    ensures Inv(env, Connected(s, addr, time))
  {
    hide Inv;
    var found := FindExact(s, addr);
    if found.Some? {
      StatisticsOk(env, s, found.value);
      RestateFound(env, s, found.value, s.info[found.value].(time := time));
    }
  }

  lemma SetServicesKeeps(env: Env, s: Tables, addr: Service, services: bv64)
    requires Inv(env, s)
    ensures Inv(env, SetServices(s, addr, services))
  {
    hide Inv;
    var found := FindExact(s, addr);
    if found.Some? {
      StatisticsOk(env, s, found.value);
      RestateFound(env, s, found.value, s.info[found.value].(services := services));
    }
  }

  /** The draws of GetAddr: the k-th picks a place from the k-th on. */
  predicate ValidDraws(s: Tables, draws: seq<nat>) {
    |draws| <= |s.random| && forall k :: 0 <= k < |draws| ==> k <= draws[k] < |s.random|
  }

  /** The swaps GetAddr makes in the random order, one for each place it looks at. */
  ghost function Shuffled(env: Env, s: Tables, draws: seq<nat>): (t: Tables)
    requires Inv(env, s) && ValidDraws(s, draws)
    ensures Inv(env, t) && |t.random| == |s.random|
    ensures t.triedTable == s.triedTable && t.newTable == s.newTable
    decreases |draws|
  {
    if draws == [] then s
    else
      var k := |draws| - 1;
      var t := Shuffled(env, s, draws[..k]);
      ShuffleStep(env, t, k, draws[k]);
      SwapRandom(t, k, draws[k])
  }

  lemma ShuffleStep(env: Env, t: Tables, p: int, q: int)
    requires Inv(env, t) && 0 <= p < |t.random| && 0 <= q < |t.random|
    ensures CanSwap(t, p, q) && Inv(env, SwapRandom(t, p, q)) && |SwapRandom(t, p, q).random| == |t.random|
    ensures SwapRandom(t, p, q).triedTable == t.triedTable && SwapRandom(t, p, q).newTable == t.newTable
  {
    SwapKeeps(env, t, p, q, {}, 0);
  }

  // ---------------------------------------------------------------------
  // Resolving collisions

  const REPLACEMENT: int := REPLACEMENT_HOURS * 60 * 60

  /** What becomes of a pending collision. */
  datatype Verdict = Forget | Wait | Move

  /** The clock as it is read for one collision: against the rival's last success, twice against its last
      attempt, and for the move. */
  datatype Readings = Readings(success: int, attempt: int, minute: int, move: int)

  function Judge(env: Env, s: Tables, id: Id, clock: Readings): Verdict
    requires id in s.info
  {
    var slot := s.info[id].TriedSlot(env);
    if !env.valid(s.info[id].service.addr) then Forget
    else if slot in s.triedTable && s.triedTable[slot] in s.info then
      var rival := s.info[s.triedTable[slot]];
      if clock.success - rival.lastSuccess < REPLACEMENT then Forget
      else if clock.attempt - rival.lastTry < REPLACEMENT && clock.minute - rival.lastTry > 60 then Move
      else Wait
    else Move
  }

  ghost function ResolveOne(env: Env, s: Tables, id: Id, clock: Readings): Tables
    requires Inv(env, s) && clock.move > 0
  {
    if id !in s.info then s.(collisions := s.collisions - {id})
    else match Judge(env, s, id, clock)
      case Forget => s.(collisions := s.collisions - {id})
      case Wait => s
      case Move =>
        var t := Good(env, s, s.info[id].service, false, clock.move);
        t.(collisions := t.collisions - {id})
  }

  lemma ResolveOneKeeps(env: Env, s: Tables, id: Id, clock: Readings)
    requires Inv(env, s) && clock.move > 0
    ensures Inv(env, ResolveOne(env, s, id, clock)) && TriedGrows(s, ResolveOne(env, s, id, clock))
  {
    hide Inv, Good, Judge;
    CollisionsKeep(env, s, s.collisions - {id});
    if id in s.info && Judge(env, s, id, clock).Move? {
      GoodKeeps(env, s, s.info[id].service, false, clock.move);
      var t := Good(env, s, s.info[id].service, false, clock.move);
      CollisionsKeep(env, t, t.collisions - {id});
    }
  }

  /** Moves are recorded at positive times. */
  predicate Sound(clock: seq<Readings>) {
    forall i :: 0 <= i < |clock| ==> clock[i].move > 0
  }

  function FirstReadings(clock: nat -> Readings, n: nat): (r: seq<Readings>)
    requires forall i: nat :: clock(i).move > 0
    ensures |r| == n && Sound(r) && forall i :: 0 <= i < n ==> r[i] == clock(i)
  {
    seq(n, (i: nat) => clock(i))
  }

  /** All pending collisions, in the order given. */
  ghost function Resolve(env: Env, s: Tables, order: seq<Id>, clock: seq<Readings>): (t: Tables)
    requires Inv(env, s) && |clock| == |order| && Sound(clock)
    ensures Inv(env, t) && TriedGrows(s, t)
    decreases |order|
  {
    if order == [] then s
    else
      var n := |order| - 1;
      var t := Resolve(env, s, order[..n], clock[..n]);
      ResolveOneKeeps(env, t, order[n], clock[n]);
      ResolveOne(env, t, order[n], clock[n])
  }

  lemma ResolveNone(env: Env, s: Tables, clock: nat -> Readings)
    requires Inv(env, s) && forall i: nat :: clock(i).move > 0
    ensures Resolve(env, s, [], FirstReadings(clock, 0)) == s
  {
  }

  lemma ResolveMore(env: Env, s: Tables, order: seq<Id>, id: Id, clock: nat -> Readings)
    requires Inv(env, s) && forall i: nat :: clock(i).move > 0
    ensures var n := |order|;
      Resolve(env, s, order + [id], FirstReadings(clock, n + 1)) ==
      ResolveOne(env, Resolve(env, s, order, FirstReadings(clock, n)), id, clock(n))
  {
    hide Inv, ResolveOne;
    var more, read := order + [id], FirstReadings(clock, |order| + 1);
    assert more[..|order|] == order && read[..|order|] == FirstReadings(clock, |order|);
  }
}
