/** The address manager object: its methods update the tables in place, step by step, and are tied to the
    operations on the tables as a value. */
module AddrMan {
  import opened Options
  import opened AddrTables
  import opened AddrKeeps
  import opened AddrOps
  import C = AddrClient
  import E = AddrEffects

  /** The new table without the slots of an entry in the first buckets. */
  ghost function Cleared(t: Table, id: Id, buckets: nat): Table {
    map slot | slot in t && !(t[slot] == id && slot.bucket < buckets) :: t[slot]
  }

  ghost function SlotsBelow(t: Table, id: Id, buckets: nat): set<Slot> {
    set slot | slot in t && t[slot] == id && slot.bucket < buckets
  }

  lemma BucketHit(t: Table, id: Id, slot: Slot)
    requires slot in t && t[slot] == id
    requires forall x :: x in t && t[x] == id && x.bucket == slot.bucket ==> x == slot
    ensures Cleared(t, id, slot.bucket + 1) == Cleared(t, id, slot.bucket) - {slot}
    ensures |SlotsBelow(t, id, slot.bucket + 1)| == |SlotsBelow(t, id, slot.bucket)| + 1
  {
    assert SlotsBelow(t, id, slot.bucket + 1) == SlotsBelow(t, id, slot.bucket) + {slot};
  }

  lemma BucketMiss(t: Table, id: Id, b: nat)
    requires forall x :: x in t && t[x] == id ==> x.bucket != b
    ensures Cleared(t, id, b + 1) == Cleared(t, id, b)
    ensures SlotsBelow(t, id, b + 1) == SlotsBelow(t, id, b)
  {
  }

  /** One more bucket: the entry's only possible place in it. */
  lemma ClearBucket(env: Env, s: Tables, id: Id, b: nat)
    requires NewOk(env, s) && id in s.info
    ensures var slot := s.info[id].PlaceIn(env, b);
            if Find(Cleared(s.newTable, id, b), slot) == Some(id) then
              && Cleared(s.newTable, id, b + 1) == Cleared(s.newTable, id, b) - {slot}
              && |SlotsBelow(s.newTable, id, b + 1)| == |SlotsBelow(s.newTable, id, b)| + 1
            else
              && Cleared(s.newTable, id, b + 1) == Cleared(s.newTable, id, b)
              && |SlotsBelow(s.newTable, id, b + 1)| == |SlotsBelow(s.newTable, id, b)|
  {
    var slot, t := s.info[id].PlaceIn(env, b), s.newTable;
    assert forall x :: x in t && t[x] == id && x.bucket == b ==> x == slot;
    if Find(t, slot) == Some(id) {
      assert slot in Cleared(t, id, b);
      BucketHit(t, id, slot);
    } else {
      BucketMiss(t, id, b);
    }
  }

  lemma AllCleared(env: Env, s: Tables, id: Id)
    requires NewOk(env, s) && id in s.info
    ensures SlotsBelow(s.newTable, id, NEW_BUCKET_COUNT) == Slots(s.newTable, id)
    ensures Cleared(s.newTable, id, NEW_BUCKET_COUNT) == LeaveNew(s, id).newTable
  {
  }

  /** The state of the loop over the buckets of the new table. */
  ghost function LoopState(s: Tables, id: Id, b: nat): Tables
    requires id in s.info
  {
    s.(newTable := Cleared(s.newTable, id, b), info := Dereferenced(s.info, id, |SlotsBelow(s.newTable, id, b)|))
  }

  lemma LoopStart(s: Tables, id: Id)
    requires id in s.info
    ensures LoopState(s, id, 0) == s
  {
    assert SlotsBelow(s.newTable, id, 0) == {};
    assert Cleared(s.newTable, id, 0) == s.newTable;
    assert Dereferenced(s.info, id, 0) == s.info;
  }

  lemma LoopStep(env: Env, s: Tables, id: Id, b: nat)
    requires Inv(env, s) && id in s.info
    ensures var t := LoopState(s, id, b);
            && id in t.info
            && var slot := t.info[id].PlaceIn(env, b);
               LoopState(s, id, b + 1) ==
                 if slot in t.newTable && t.newTable[slot] == id then
                   t.(newTable := t.newTable - {slot},
                      info := t.info[id := t.info[id].(refCount := t.info[id].refCount - 1)])
                 else t
  {
    hide *;
    InvNew(env, s);
    ClearBucket(env, s, id, b);
    DereferencedFacts(env, s.info, id, |SlotsBelow(s.newTable, id, b)|, b);
    LoopStateIs(s, id, b);
    LoopStateIs(s, id, b + 1);
    FoundAt(Cleared(s.newTable, id, b), s.info[id].PlaceIn(env, b), id);
  }

  lemma InvNew(env: Env, s: Tables)
    requires Inv(env, s)
    ensures NewOk(env, s)
  {
  }

  lemma FoundAt(t: Table, slot: Slot, id: Id)
    ensures Find(t, slot) == Some(id) <==> slot in t && t[slot] == id
  {
  }

  lemma LoopStateIs(s: Tables, id: Id, b: nat)
    requires id in s.info
    ensures LoopState(s, id, b)
         == s.(newTable := Cleared(s.newTable, id, b),
               info := Dereferenced(s.info, id, |SlotsBelow(s.newTable, id, b)|))
  {
  }

  lemma LoopEnd(env: Env, s: Tables, id: Id)
    requires Inv(env, s) && id in s.info
    ensures var t := LoopState(s, id, NEW_BUCKET_COUNT); t.(nNew := t.nNew - 1) == LeaveNew(s, id)
  {
    hide Inv, Cleared, SlotsBelow;
    InvNew(env, s);
    AllCleared(env, s, id);
  }

  class CAddrMan {
    const env: Env
    var idCount: int
    var info: map<Id, Info>
    var ids: map<NetAddr, Id>
    var random: seq<Id>
    var nTried: int
    var triedTable: Table
    var nNew: int
    var newTable: Table
    var lastGood: int
    var collisions: set<Id>

    function Value(): Tables
      reads this
    {
      Tables(idCount, info, ids, random, nTried, triedTable, nNew, newTable, lastGood, collisions)
    }

    /** As Clear leaves it, under a new key. */
    constructor (env: Env)
      ensures this.env == env && Value() == EMPTY
    {
      this.env := env;
      idCount, info, ids, random := 0, map[], map[], [];
      nTried, triedTable, nNew, newTable := 0, map[], 0, map[];
      lastGood, collisions := 1, {};
    }

    method Create(a: Address, source: NetAddr) returns (id: Id)
      modifies this
      ensures Value() == AddrTables.Create(old(Value()), a, source) && id == Id(old(idCount))
    {
      id := Id(idCount);
      idCount := idCount + 1;
      info := info[id := NewInfo(a, source)];
      ids := ids[a.service.addr := id];
      info := info[id := info[id].(randomPos := |random|)];
      random := random + [id];
      assert info == old(info)[id := info[id]];
    }

    method SwapRandom(p: int, q: int)
      requires CanSwap(Value(), p, q)
      modifies this
      ensures Value() == AddrTables.SwapRandom(old(Value()), p, q)
    {
      if p == q {
        return;
      }
      var id1, id2 := random[p], random[q];
      info := info[id1 := info[id1].(randomPos := q)];
      info := info[id2 := info[id2].(randomPos := p)];
      random := random[p := id2];
      random := random[q := id1];
    }

    method Delete(id: Id)
      requires CanDelete(Value(), id)
      modifies this
      ensures Value() == AddrTables.Delete(old(Value()), id)
    {
      SwapRandom(info[id].randomPos, |random| - 1);
      DeleteIsCut(old(Value()), id);
      random := random[..|random| - 1];
      ids := ids - {info[id].service.addr};
      info := info - {id};
      nNew := nNew - 1;
    }

    method ClearNew(slot: Slot)
      requires CanClear(Value(), slot)
      modifies this
      ensures Value() == AddrTables.ClearNew(old(Value()), slot)
    {
      if slot in newTable {
        var id := newTable[slot];
        info := info[id := info[id].(refCount := info[id].refCount - 1)];
        newTable := newTable - {slot};
        if info[id].refCount == 0 {
          Delete(id);
        }
      }
    }

    /** Takes an entry out of every bucket of the new table, one bucket after the other. */
    method LeaveNew(id: Id)
      requires Inv(env, Value()) && id in info
      modifies this
      ensures Value() == AddrTables.LeaveNew(old(Value()), id)
    {
      hide Inv, LoopState;
      ghost var s := Value();
      LoopStart(s, id);
      var bucket := 0;
      while bucket < NEW_BUCKET_COUNT
        invariant 0 <= bucket <= NEW_BUCKET_COUNT
        invariant Value() == LoopState(s, id, bucket)
      {
        LoopStep(env, s, id, bucket);
        var slot := info[id].PlaceIn(env, bucket);
        if slot in newTable && newTable[slot] == id {
          newTable := newTable - {slot};
          info := info[id := info[id].(refCount := info[id].refCount - 1)];
        }
        bucket := bucket + 1;
      }
      LoopEnd(env, s, id);
      nNew := nNew - 1;
    }

    method MakeTried(id: Id)
      requires Inv(env, Value()) && id in info && !info[id].inTried && info[id].lastSuccess != 0
      modifies this
      ensures CanMakeTried(env, old(Value()), id) && Value() == AddrOps.MakeTried(env, old(Value()), id)
    {
      hide Inv, CanMakeTried, AddrTables.LeaveNew, AddrTables.ClearNew, CanClear, Info.TriedSlot, Info.NewSlot;
      ghost var s := Value();
      MakeTriedKeeps(env, s, id);
      MakeTriedSteps(env, s, id);
      MakeTriedIs(env, s, id);
      LeftNew(s, id);
      var slot := info[id].TriedSlot(env);
      LeaveNew(id);
      EvictFrom(slot);
      triedTable := triedTable[slot := id];
      nTried := nTried + 1;
      info := info[id := info[id].(inTried := true)];
    }

    /** Makes room in a slot of the tried table. */
    method EvictFrom(slot: Slot)
      requires CanEvict(env, Value(), slot)
      modifies this
      ensures Value() == Evict(env, old(Value()), slot)
    {
      if slot in triedTable {
        hide CanEvict, Evict, AddrTables.ClearNew, CanClear;
        EvictIs(env, Value(), slot);
        var id := triedTable[slot];
        var to := info[id].NewSlot(env, info[id].source);
        info := info[id := info[id].(inTried := false)];
        triedTable := triedTable - {slot};
        nTried := nTried - 1;
        ClearNew(to);
        info := info[id := info[id].(refCount := 1)];
        newTable := newTable[to := id];
        nNew := nNew + 1;
      }
    }

    /** Looks through the buckets of the new table from a random one on. */
    method FindBucket(id: Id, start: nat) returns (found: bool)
      requires id in info
      ensures found <==> C.InSomeBucket(env, Value(), id)
    {
      found := false;
      var n := 0;
      while n < NEW_BUCKET_COUNT
        invariant 0 <= n <= NEW_BUCKET_COUNT
        invariant forall k :: 0 <= k < n ==> Find(newTable, info[id].PlaceIn(env, BucketAt(k, start))) != Some(id)
      {
        var b := BucketAt(n, start);
        if Find(newTable, info[id].PlaceIn(env, b)) == Some(id) {
          return true;
        }
        n := n + 1;
      }
      forall b | 0 <= b < NEW_BUCKET_COUNT
        ensures Find(newTable, info[id].PlaceIn(env, b)) != Some(id)
      {
        RotateBack(b, start);
      }
    }

    method Good(addr: Service, testBeforeEvict: bool, time: int)
      requires Inv(env, Value()) && time > 0
      modifies this
      ensures Value() == C.Good(env, old(Value()), addr, testBeforeEvict, time)
      ensures E.GoodDone(env, old(Value()), addr, testBeforeEvict, time, Value()) && Inv(env, Value())
    {
      hide Inv, C.InSomeBucket, Info.TriedSlot, CanMakeTried, E.GoodDone;
      ghost var s := Value();
      E.GoodDoes(env, s, addr, testBeforeEvict, time);
      C.GoodKeeps(env, s, addr, testBeforeEvict, time);
      lastGood := time;
      var found := C.FindExact(Value(), addr);
      if found.None? {
        return;
      }
      var id := found.value;
      C.GoodReady(env, s, id, time);
      var slot := info[id].TriedSlot(env);
      var start: nat := *;
      var here := FindBucket(id, start);
      BucketsSame(env, s, Value(), id);
      info := info[id := C.Succeeded(info[id], time)];
      if info[id].inTried || !here {
        return;
      }
      if testBeforeEvict && slot in triedTable {
        if |collisions| < TRIED_COLLISION_SIZE {
          collisions := collisions + {id};
        }
      } else {
        C.SucceededFacts(env, s.info[id], time);
        MakeTried(id);
      }
    }

    method Place(id: Id, source: NetAddr, now: int, ghost limbo: set<Id>)
      requires Partial(env, Value(), limbo, 0) && limbo <= {id}
      requires id in info && !info[id].inTried && info[id].refCount < NEW_BUCKETS_PER_ADDRESS
      modifies this
      ensures Value() == C.Place(env, old(Value()), id, source, now, limbo)
    {
      hide Partial, Info.NewSlot, Info.PlaceIn, Info.IsTerrible, AddrTables.ClearNew, AddrTables.Delete, CanClear;
      hide CanDelete;
      ghost var s := Value();
      var slot := info[id].NewSlot(env, source);
      C.NewSlotPlace(env, info[id], source);
      if slot in newTable {
        SlotsKnown(env, s, limbo, slot);
      }
      if !(slot in newTable && newTable[slot] == id) {
        var insert := slot !in newTable;
        if !insert {
          var existing := info[newTable[slot]];
          if existing.IsTerrible(now) || (existing.refCount > 1 && info[id].refCount == 0) {
            insert := true;
          }
        }
        if insert {
          C.PlaceReady(env, s, id, slot, limbo);
          ClearNew(slot);
          info := info[id := info[id].(refCount := info[id].refCount + 1)];
          newTable := newTable[slot := id];
        } else if info[id].refCount == 0 {
          C.DeleteReady(env, s, id, limbo);
          Delete(id);
        }
      }
    }

    method Add(a: Address, source: NetAddr, penalty0: int, now: int, later: int) returns (isNew: bool,
               ghost lucky: bool)
      requires Inv(env, Value())
      modifies this
      ensures (Value(), isNew) == C.Add(env, old(Value()), a, source, penalty0, now, later, lucky)
      ensures E.AddDone(env, old(Value()), a, source, penalty0, now, later, lucky, Value(), isNew)
      ensures Inv(env, Value())
    {
      hide Partial, C.Place, E.AddDone;
      ghost var s := Value();
      var draw: bool := *;
      lucky := draw;
      C.AddKeeps(env, s, a, source, penalty0, now, later, lucky);
      E.AddDoes(env, s, a, source, penalty0, now, later, lucky);
      if !env.routable(a.service.addr) {
        return false, lucky;
      }
      var penalty := if a.service.addr == source then 0 else penalty0;
      if a.service.addr in ids {
        var id := ids[a.service.addr];
        AddressKnown(env, s, a.service.addr);
        C.RefreshKeeps(env, s, id, a, penalty, now);
        info := info[id := C.Refreshed(info[id], a, penalty, now)];
        if C.Ignored(info[id], a, draw) {
          return false, lucky;
        }
        Place(id, source, later, {});
        isNew := false;
      } else {
        C.AnnouncedKeeps(env, s, a, source, penalty);
        var id := Create(a, source);
        info := info[id := info[id].(time := C.Max(0, info[id].time - penalty))];
        nNew := nNew + 1;
        Place(id, source, later, {id});
        isNew := true;
      }
    }

    method Attempt(addr: Service, countFailure: bool, time: int)
      requires Inv(env, Value()) && time >= 0
      modifies this
      ensures Value() == C.Attempt(old(Value()), addr, countFailure, time) && Inv(env, Value())
    {
      hide Inv;
      C.AttemptKeeps(env, Value(), addr, countFailure, time);
      var found := C.FindExact(Value(), addr);
      if found.Some? {
        var id := found.value;
        info := info[id := C.Attempted(Value(), info[id], countFailure, time)];
      }
    }

    method Connected(addr: Service, time: int)
      requires Inv(env, Value())
      modifies this
      ensures Value() == C.Connected(old(Value()), addr, time) && Inv(env, Value())
    {
      hide Inv;
      C.ConnectedKeeps(env, Value(), addr, time);
      var found := C.FindExact(Value(), addr);
      if found.Some? && time - info[found.value].time > 20 * 60 {
        info := info[found.value := info[found.value].(time := time)];
      }
    }

    method SetServices(addr: Service, services: bv64)
      requires Inv(env, Value())
      modifies this
      ensures Value() == C.SetServices(old(Value()), addr, services) && Inv(env, Value())
    {
      hide Inv;
      C.SetServicesKeeps(env, Value(), addr, services);
      var found := C.FindExact(Value(), addr);
      if found.Some? {
        info := info[found.value := info[found.value].(services := services)];
      }
    }

    /** Draws one of the places from the n-th on, swaps it to the n-th and looks at the entry there. */
    method LookAt(n: nat, clock: nat -> int) returns (pos: nat, seen: seq<Address>)
      requires Inv(env, Value()) && n < |random|
      modifies this
      ensures n <= pos < |random| == |old(random)|
      ensures CanSwap(old(Value()), n, pos) && Value() == AddrTables.SwapRandom(old(Value()), n, pos)
      ensures Picked(Value(), n + 1, clock) == Picked(old(Value()), n, clock) + seen
      ensures |seen| <= 1 && Inv(env, Value())
    {
      hide Inv, AddrTables.SwapRandom, CanSwap;
      pos :| n <= pos < |random|;
      ghost var before := Value();
      C.ShuffleStep(env, before, n, pos);
      SwapRandom(n, pos);
      PickedStays(before, n, pos, clock);
      InRandom(env, Value(), n);
      var ai := info[random[n]];
      seen := if ai.IsTerrible(clock(n)) then [] else [Address(ai.service, ai.services, ai.time)];
    }

    /** Shuffles the front of the random order and returns the addresses met that are not terrible, until
        there are enough of them or all have been looked at. The clock is read for each. */
    method GetAddr(clock: nat -> int) returns (out: seq<Address>, ghost draws: seq<nat>)
      requires Inv(env, Value())
      modifies this
      ensures C.ValidDraws(old(Value()), draws) && Value() == C.Shuffled(env, old(Value()), draws)
      ensures |draws| <= |random| && out == Picked(Value(), |draws|, clock)
      ensures |out| <= EnoughAddresses(|random|) && (|out| == EnoughAddresses(|random|) || |draws| == |random|)
      ensures Inv(env, Value())
    {
      hide Inv, AddrTables.SwapRandom, CanSwap, EnoughAddresses;
      ghost var s := Value();
      out, draws := [], [];
      var nNodes := EnoughAddresses(|random|);
      var n := 0;
      while n < |random|
        invariant 0 <= n == |draws| <= |random| == |s.random|
        invariant C.ValidDraws(s, draws) && Value() == C.Shuffled(env, s, draws)
        invariant out == Picked(Value(), n, clock)
        invariant |out| <= nNodes
      {
        if |out| >= nNodes {
          break;
        }
        var pos, seen := LookAt(n, clock);
        ghost var more := draws + [pos];
        assert more[..|more| - 1] == draws;
        ShuffledMore(env, s, more);
        draws := more;
        out := out + seen;
        n := n + 1;
      }
    }

    method ResolveOne(id: Id, clock: C.Readings)
      requires Inv(env, Value()) && clock.move > 0
      modifies this
      ensures Value() == C.ResolveOne(env, old(Value()), id, clock) && Inv(env, Value())
      ensures E.ResolveDone(env, old(Value()), id, clock, Value())
    {
      hide Inv, C.Good, C.Judge, E.ResolveDone, E.GoodDone;
      E.ResolveOneDoes(env, Value(), id, clock);
      C.ResolveOneKeeps(env, Value(), id, clock);
      if id !in info {
        collisions := collisions - {id};
      } else {
        var verdict := C.Judge(env, Value(), id, clock);
        if verdict.Forget? {
          collisions := collisions - {id};
        } else if verdict.Move? {
          Good(info[id].service, false, clock.move);
          collisions := collisions - {id};
        }
      }
    }

    /** Resolves the pending collisions in the order of their ids. */
    method ResolveCollisions(clock: nat -> C.Readings) returns (ghost order: seq<Id>)
      requires Inv(env, Value()) && forall i: nat :: clock(i).move > 0
      modifies this
      ensures Ascending(order) && (set id | id in order) == old(collisions)
      ensures Value() == C.Resolve(env, old(Value()), order, C.FirstReadings(clock, |order|)) && Inv(env, Value())
    {
      hide Inv, C.ResolveOne, C.Resolve, C.FirstReadings, InOrder, Ascending;
      ghost var s := Value();
      order := [];
      C.ResolveNone(env, s, clock);
      InOrderStart(s.collisions);
      var todo, k: nat := collisions, 0;
      while todo != {}
        invariant Value() == C.Resolve(env, s, order, C.FirstReadings(clock, |order|)) && Inv(env, Value())
        invariant k == |order|
        invariant InOrder(s.collisions, order, todo)
        decreases |todo|
      {
        var id := Least(todo);
        ResolveOne(id, clock(k));
        InOrderStep(s.collisions, order, todo, id);
        C.ResolveMore(env, s, order, id, clock);
        order, k := order + [id], k + 1;
        todo := todo - {id};
      }
      InOrderDone(s.collisions, order);
    }
  }

  /** The ids already handled, in ascending order, come before those still to do. */
  ghost predicate InOrder(all: set<Id>, order: seq<Id>, todo: set<Id>) {
    && Ascending(order)
    && (forall id, x :: id in order && x in todo ==> id.n < x.n)
    && (set id | id in order) + todo == all
  }

  lemma InOrderStart(all: set<Id>)
    ensures InOrder(all, [], all)
  {
    assert (set id: Id | id in []) == {};
  }

  lemma InOrderDone(all: set<Id>, order: seq<Id>)
    requires InOrder(all, order, {})
    ensures Ascending(order) && (set id | id in order) == all
  {
  }

  lemma InOrderStep(all: set<Id>, order: seq<Id>, todo: set<Id>, id: Id)
    requires InOrder(all, order, todo) && id in todo && forall x :: x in todo ==> id.n <= x.n
    ensures InOrder(all, order + [id], todo - {id})
  {
    assert (set x | x in order + [id]) == (set x | x in order) + {id};
  }

  ghost predicate Ascending(order: seq<Id>) {
    forall i, j :: 0 <= i < j < |order| ==> order[i].n < order[j].n
  }

  method Least(s: set<Id>) returns (id: Id)
    requires s != {}
    ensures id in s && forall x :: x in s ==> id.n <= x.n
  {
    id :| id in s;
    var rest := s - {id};
    while rest != {}
      invariant id in s && rest <= s
      invariant forall x :: x in s && x !in rest ==> id.n <= x.n
      decreases |rest|
    {
      var y :| y in rest;
      if y.n < id.n {
        id := y;
      }
      rest := rest - {y};
    }
  }

  /** How many addresses are enough: 23 percent of all, and at most 2500. */
  function EnoughAddresses(size: nat): nat {
    var n := GETADDR_MAX_PCT * size / 100;
    if n > GETADDR_MAX then GETADDR_MAX else n
  }

  /** The addresses at the front of the random order that are not terrible. */
  function Picked(s: Tables, n: nat, clock: nat -> int): seq<Address>
    requires n <= |s.random|
  {
    if n == 0 then []
    else
      var id := s.random[n - 1];
      var before := Picked(s, n - 1, clock);
      if id in s.info && !s.info[id].IsTerrible(clock(n - 1)) then
        before + [Address(s.info[id].service, s.info[id].services, s.info[id].time)]
      else before
  }

  lemma ShuffledMore(env: Env, s: Tables, draws: seq<nat>)
    requires Inv(env, s) && C.ValidDraws(s, draws) && draws != []
    ensures var k := |draws| - 1;
            && C.ValidDraws(s, draws[..k])
            && var t := C.Shuffled(env, s, draws[..k]);
               CanSwap(t, k, draws[k]) && C.Shuffled(env, s, draws) == SwapRandom(t, k, draws[k])
  {
    hide Inv, SwapRandom, CanSwap;
    C.ShuffleStep(env, C.Shuffled(env, s, draws[..|draws| - 1]), |draws| - 1, draws[|draws| - 1]);
  }

  lemma TerribleStays(i: Info, p: int, now: int)
    ensures i.(randomPos := p).IsTerrible(now) == i.IsTerrible(now)
  {
  }

  lemma {:induction false} PickedSame(s: Tables, t: Tables, n: nat, clock: nat -> int)
    requires n <= |s.random| && n <= |t.random| && SameButPlaces(s.info, t.info)
    requires forall k :: 0 <= k < n ==> t.random[k] == s.random[k]
    ensures Picked(t, n, clock) == Picked(s, n, clock)
    decreases n
  {
    if n > 0 {
      PickedSame(s, t, n - 1, clock);
      var id := s.random[n - 1];
      if id in s.info {
        assert id in t.info && t.info[id] == s.info[id].(randomPos := t.info[id].randomPos);
        TerribleStays(s.info[id], t.info[id].randomPos, clock(n - 1));
      }
    }
  }

  /** Swaps further back leave the front as it was. */
  lemma PickedStays(s: Tables, p: nat, q: nat, clock: nat -> int)
    requires p <= q < |s.random| && CanSwap(s, p, q)
    ensures |SwapRandom(s, p, q).random| == |s.random|
    ensures Picked(SwapRandom(s, p, q), p, clock) == Picked(s, p, clock)
  {
    SwapSame(s, p, q);
    SwapAlike(s, p, q);
    FrontStays(s, p, q);
    hide *;
    PickedSame(s, SwapRandom(s, p, q), p, clock);
  }

  lemma FrontStays(s: Tables, p: nat, q: nat)
    requires p <= q < |s.random| && CanSwap(s, p, q)
    ensures forall k :: 0 <= k < p ==> SwapRandom(s, p, q).random[k] == s.random[k]
  {
  }

  lemma InRandom(env: Env, s: Tables, n: nat)
    requires Inv(env, s) && n < |s.random|
    ensures s.random[n] in s.info
  {
  }

  lemma SlotsKnown(env: Env, s: Tables, limbo: set<Id>, slot: Slot)
    requires Partial(env, s, limbo, 0) && slot in s.newTable
    ensures s.newTable[slot] in s.info
  {
  }

  lemma AddressKnown(env: Env, s: Tables, a: NetAddr)
    requires Inv(env, s) && a in s.ids
    ensures s.ids[a] in s.info
  {
  }

  lemma RotateBack(b: int, start: nat)
    requires 0 <= b < NEW_BUCKET_COUNT
    ensures var k := (b - start) % NEW_BUCKET_COUNT; 0 <= k < NEW_BUCKET_COUNT && BucketAt(k, start) == b
  {
  }

  /** The n-th bucket looked at. */
  function BucketAt(n: nat, start: nat): nat {
    (n + start) % NEW_BUCKET_COUNT
  }

  lemma BucketsSame(env: Env, s: Tables, t: Tables, id: Id)
    requires id in s.info && t.info == s.info && t.newTable == s.newTable
    ensures C.InSomeBucket(env, s, id) <==> C.InSomeBucket(env, t, id)
  {
  }

  ghost function Dereferenced(info: map<Id, Info>, id: Id, n: nat): map<Id, Info>
    requires id in info
  {
    info[id := info[id].(refCount := info[id].refCount - n)]
  }

  lemma DereferencedFacts(env: Env, info: map<Id, Info>, id: Id, n: nat, b: nat)
    requires id in info
    ensures var d := Dereferenced(info, id, n);
            && id in d && d[id].PlaceIn(env, b) == info[id].PlaceIn(env, b)
            && d[id := d[id].(refCount := d[id].refCount - 1)] == Dereferenced(info, id, n + 1)
    ensures Dereferenced(info, id, 0) == info
  {
  }
}
