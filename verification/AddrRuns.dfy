/** Runs of client calls on the address manager, and what its own consistency check says about them. */
module AddrRuns {
  import opened Options
  import opened AddrTables
  import opened AddrKeeps
  import opened AddrOps
  import opened AddrClient

  /** A client call with its draws and the clock readings it makes. */
  datatype Op =
    | AddOp(a: Address, source: NetAddr, penalty: int, now: int, later: int, lucky: bool)
    | GoodOp(addr: Service, testBeforeEvict: bool, time: int)
    | AttemptOp(addr: Service, countFailure: bool, time: int)
    | ConnectedOp(addr: Service, time: int)
    | SetServicesOp(addr: Service, services: bv64)
    | GetAddrOp(draws: seq<nat>)
    | ResolveOp(order: seq<Id>, clock: seq<Readings>)

  /** Clock readings are positive times, and draws are in range. */
  predicate Legal(s: Tables, op: Op) {
    match op
    case GoodOp(_, _, time) => time > 0
    case AttemptOp(_, _, time) => time >= 0
    case GetAddrOp(draws) => ValidDraws(s, draws)
    case ResolveOp(order, clock) => |clock| == |order| && Sound(clock)
    case _ => true
  }

  ghost function AddStep(env: Env, s: Tables, op: Op): Tables
    requires Inv(env, s) && op.AddOp?
  {
    Add(env, s, op.a, op.source, op.penalty, op.now, op.later, op.lucky).0
  }

  ghost function GoodStep(env: Env, s: Tables, op: Op): Tables
    requires Inv(env, s) && op.GoodOp? && op.time > 0
  {
    Good(env, s, op.addr, op.testBeforeEvict, op.time)
  }

  ghost function GetAddrStep(env: Env, s: Tables, op: Op): Tables
    requires Inv(env, s) && op.GetAddrOp? && ValidDraws(s, op.draws)
  {
    Shuffled(env, s, op.draws)
  }

  ghost function ResolveStep(env: Env, s: Tables, op: Op): Tables
    requires Inv(env, s) && op.ResolveOp? && |op.clock| == |op.order| && Sound(op.clock)
  {
    Resolve(env, s, op.order, op.clock)
  }

  function NoteStep(s: Tables, op: Op): Tables
    requires op.AttemptOp? || op.ConnectedOp? || op.SetServicesOp?
  {
    match op
    case AttemptOp(addr, count, time) => Attempt(s, addr, count, time)
    case ConnectedOp(addr, time) => Connected(s, addr, time)
    case SetServicesOp(addr, services) => SetServices(s, addr, services)
  }

  ghost function Step(env: Env, s: Tables, op: Op): Tables
    requires Inv(env, s) && Legal(s, op)
  {
    match op
    case AddOp(_, _, _, _, _, _) => AddStep(env, s, op)
    case GoodOp(_, _, _) => GoodStep(env, s, op)
    case GetAddrOp(_) => GetAddrStep(env, s, op)
    case ResolveOp(_, _) => ResolveStep(env, s, op)
    case _ => NoteStep(s, op)
  }

  lemma StepKeeps(env: Env, s: Tables, op: Op)
    requires Inv(env, s) && Legal(s, op)
    ensures Inv(env, Step(env, s, op)) && TriedGrows(s, Step(env, s, op))
  {
    hide Inv, Add, Good, Shuffled, Resolve;
    match op
    case AddOp(a, source, penalty, now, later, lucky) => AddKeeps(env, s, a, source, penalty, now, later, lucky);
    case GoodOp(addr, test, time) => GoodKeeps(env, s, addr, test, time);
    case AttemptOp(addr, count, time) => AttemptKeeps(env, s, addr, count, time);
    case ConnectedOp(addr, time) => ConnectedKeeps(env, s, addr, time);
    case SetServicesOp(addr, services) => SetServicesKeeps(env, s, addr, services);
    case GetAddrOp(draws) =>
    case ResolveOp(order, clock) =>
  }

  ghost predicate LegalRun(env: Env, s: Tables, ops: seq<Op>)
    requires Inv(env, s)
    decreases |ops|
  {
    ops == [] || (Legal(s, ops[0]) && (StepKeeps(env, s, ops[0]); LegalRun(env, Step(env, s, ops[0]), ops[1..])))
  }

  ghost function Run(env: Env, s: Tables, ops: seq<Op>): Tables
    requires Inv(env, s) && LegalRun(env, s, ops)
    decreases |ops|
  {
    if ops == [] then s
    else
      StepKeeps(env, s, ops[0]);
      Run(env, Step(env, s, ops[0]), ops[1..])
  }

  lemma EmptyInv(env: Env)
    ensures Inv(env, EMPTY)
  {
    assert TriedIds(EMPTY.info) == {} && NewIds(EMPTY.info) == {};
  }

  /** Over every run the tables stay consistent, and an occupied slot of the tried table is never
      emptied. */
  lemma {:induction false} RunKeeps(env: Env, s: Tables, ops: seq<Op>)
    requires Inv(env, s) && LegalRun(env, s, ops)
    ensures Inv(env, Run(env, s, ops)) && TriedGrows(s, Run(env, s, ops))
    decreases |ops|
  {
    hide Inv, Step;
    if ops != [] {
      StepKeeps(env, s, ops[0]);
      RunKeeps(env, Step(env, s, ops[0]), ops[1..]);
    }
  }

  // ---------------------------------------------------------------------
  // The consistency check

  /** Looking up an address that is not there answers 0. */
  function Looked(ids: map<NetAddr, Id>, a: NetAddr): Id {
    if a in ids then ids[a] else Id(0)
  }

  /** What is tested about one entry, by error code. */
  ghost predicate EntryChecked(s: Tables, id: Id)
    requires id in s.info
  {
    var i := s.info[id];
    && (i.inTried ==> i.lastSuccess != 0 && i.refCount == 0)                 // -1, -2
    && (!i.inTried ==> 0 < i.refCount <= NEW_BUCKETS_PER_ADDRESS)            // -3, -4
    && Looked(s.ids, i.service.addr) == id                                  // -5
    && 0 <= i.randomPos < |s.random| && s.random[i.randomPos] == id         // -14
    && i.lastTry >= 0 && i.lastSuccess >= 0                                 // -6, -8
  }

  /** Everything the check tests, by error code. */
  ghost predicate Checked(env: Env, s: Tables) {
    && |s.random| == s.nTried + s.nNew                                      // -7
    && (forall id :: id in s.info ==> EntryChecked(s, id))
    && |TriedIds(s.info)| == s.nTried && |NewIds(s.info)| == s.nNew         // -9, -10
    && (forall slot :: slot in s.triedTable ==>                             // -11, -17, -18
          && s.triedTable[slot] in TriedIds(s.info)
          && s.info[s.triedTable[slot]].TriedSlot(env) == slot)
    && (forall id :: id in TriedIds(s.info) ==> id in s.triedTable.Values)  // -13
    && (forall slot :: slot in s.newTable ==>                               // -12, -19
          && slot.bucket < NEW_BUCKET_COUNT
          && s.newTable[slot] in NewIds(s.info)
          && s.info[s.newTable[slot]].PlaceIn(env, slot.bucket) == slot)
    && (forall id :: id in NewIds(s.info) ==> |Slots(s.newTable, id)| == s.info[id].refCount)  // -12, -15
  }

  /** Three things the check does not test: that no address is left without an entry, that the entry
      numbered 0 can be found by its address, and that ids are among the numbers given out. */
  ghost predicate NoStrays(s: Tables) {
    AddressesLead(s) && FirstFound(s) && IdsGiven(s)
  }

  ghost predicate AddressesLead(s: Tables) {
    forall a :: a in s.ids ==> s.ids[a] in s.info && s.info[s.ids[a]].service.addr == a
  }

  ghost predicate FirstFound(s: Tables) {
    Id(0) in s.info ==> s.info[Id(0)].service.addr in s.ids
  }

  ghost predicate IdsGiven(s: Tables) {
    s.idCount >= 0 && forall id :: id in s.info ==> 0 <= id.n < s.idCount
  }

  function Elements(r: seq<Id>): set<Id> {
    set id | id in r
  }

  lemma {:induction false} ElementsAtMost(r: seq<Id>)
    ensures |Elements(r)| <= |r|
    decreases |r|
  {
    if r != [] {
      var n := |r| - 1;
      ElementsAtMost(r[..n]);
      assert r == r[..n] + [r[n]];
      assert Elements(r) == Elements(r[..n]) + {r[n]};
    }
  }

  ghost predicate NoRepeats(r: seq<Id>) {
    forall i, j :: 0 <= i < j < |r| ==> r[i] != r[j]
  }

  lemma {:induction false} NoRepeatsCount(r: seq<Id>)
    requires NoRepeats(r)
    ensures |Elements(r)| == |r|
    decreases |r|
  {
    if r != [] {
      var n := |r| - 1;
      NoRepeatsCount(r[..n]);
      assert r == r[..n] + [r[n]];
      assert Elements(r) == Elements(r[..n]) + {r[n]};
    }
  }

  lemma SubsetSize(a: set<Id>, b: set<Id>)
    requires a <= b
    ensures |a| <= |b|
  {
    assert b == a + (b - a);
  }

  /** A sequence no longer than the set it covers lists exactly that set, each element once. */
  lemma {:induction false} CoverIsExact(r: seq<Id>, all: set<Id>)
    requires all <= Elements(r) && |r| == |all|
    ensures Elements(r) == all && NoRepeats(r)
    decreases |r|
  {
    if r == [] {
    } else {
      var n := |r| - 1;
      var rest := all - {r[n]};
      assert r == r[..n] + [r[n]];
      assert Elements(r) == Elements(r[..n]) + {r[n]};
      assert rest <= Elements(r[..n]);
      ElementsAtMost(r[..n]);
      SubsetSize(rest, Elements(r[..n]));
      assert r[n] in all;
      CoverIsExact(r[..n], rest);
      assert forall i :: 0 <= i < n ==> r[i] == r[..n][i] && r[i] in Elements(r[..n]);
    }
  }

  lemma EntriesSplit(info: map<Id, Info>)
    ensures |TriedIds(info)| + |NewIds(info)| == |info.Keys|
  {
    assert TriedIds(info) + NewIds(info) == info.Keys;
    assert TriedIds(info) !! NewIds(info);
  }

  lemma RandomListsAll(s: Tables)
    requires RandomOk(s)
    ensures |s.random| == |s.info.Keys|
  {
    assert NoRepeats(s.random);
    NoRepeatsCount(s.random);
    assert Elements(s.random) == s.info.Keys;
  }

  lemma InvEntries(env: Env, s: Tables)
    requires MapsOk(s) && RandomOk(s) && RefsOk(s, {}) && TimesOk(s)
    ensures forall id :: id in s.info ==> EntryChecked(s, id)
  {
  }

  lemma InvTables(env: Env, s: Tables)
    requires TriedOk(env, s) && NewOk(env, s)
    ensures forall slot :: slot in s.triedTable ==>
              s.triedTable[slot] in TriedIds(s.info) && s.info[s.triedTable[slot]].TriedSlot(env) == slot
    ensures forall id :: id in TriedIds(s.info) ==> id in s.triedTable.Values
    ensures forall slot :: slot in s.newTable ==>
              && slot.bucket < NEW_BUCKET_COUNT && s.newTable[slot] in NewIds(s.info)
              && s.info[s.newTable[slot]].PlaceIn(env, slot.bucket) == slot
  {
    forall id | id in TriedIds(s.info)
      ensures id in s.triedTable.Values
    {
      assert s.triedTable[s.info[id].TriedSlot(env)] == id;
    }
  }

  lemma InvCounts(s: Tables)
    requires RandomOk(s) && RefsOk(s, {}) && CountsOk(s, 0)
    ensures |s.random| == s.nTried + s.nNew && |TriedIds(s.info)| == s.nTried && |NewIds(s.info)| == s.nNew
    ensures forall id :: id in NewIds(s.info) ==> |Slots(s.newTable, id)| == s.info[id].refCount
  {
    RandomListsAll(s);
    EntriesSplit(s.info);
  }

  lemma InvNoStrays(s: Tables)
    requires MapsOk(s)
    ensures NoStrays(s)
  {
  }

  lemma InvChecked(env: Env, s: Tables)
    requires Inv(env, s)
    ensures Checked(env, s) && NoStrays(s)
  {
    hide EntryChecked, MapsOk, RandomOk, TriedOk, NewOk, RefsOk, CountsOk, TimesOk, TriedIds, NewIds, Slots, NoStrays;
    InvNoStrays(s);
    InvCounts(s);
    InvEntries(env, s);
    InvTables(env, s);
  }

  lemma CheckedRandom(env: Env, s: Tables)
    requires Checked(env, s)
    ensures RandomOk(s)
  {
    EntriesSplit(s.info);
    assert forall id :: id in s.info ==> EntryChecked(s, id);
    assert s.info.Keys <= Elements(s.random);
    CoverIsExact(s.random, s.info.Keys);
    forall k | 0 <= k < |s.random|
      ensures s.random[k] in s.info && s.info[s.random[k]].randomPos == k
    {
      assert s.random[k] in Elements(s.random);
      assert EntryChecked(s, s.random[k]);
    }
  }

  lemma CheckedTables(env: Env, s: Tables)
    requires Checked(env, s)
    ensures TriedOk(env, s) && NewOk(env, s)
  {
    forall id | id in s.info && s.info[id].inTried
      ensures Find(s.triedTable, s.info[id].TriedSlot(env)) == Some(id)
    {
      assert id in TriedIds(s.info);
      var slot :| slot in s.triedTable && s.triedTable[slot] == id;
    }
  }

  lemma CheckedRefs(env: Env, s: Tables)
    requires Checked(env, s)
    ensures RefsOk(s, {})
  {
    forall id | id in s.info
      ensures s.info[id].refCount == |Slots(s.newTable, id)|
    {
      assert EntryChecked(s, id);
      if s.info[id].inTried {
        assert forall slot :: slot in s.newTable ==> s.newTable[slot] in NewIds(s.info);
        assert Slots(s.newTable, id) == {};
      } else {
        assert id in NewIds(s.info);
      }
    }
    assert forall id :: id in s.info ==> EntryChecked(s, id);
  }

  lemma CheckedRest(env: Env, s: Tables)
    requires Checked(env, s) && NoStrays(s)
    ensures MapsOk(s) && CountsOk(s, 0) && TimesOk(s)
  {
    assert forall id :: id in s.info ==> EntryChecked(s, id);
  }

  /** The invariant is exactly what the program's own check tests, plus the three facts it leaves out. */
  lemma InvIffChecked(env: Env, s: Tables)
    ensures Inv(env, s) <==> Checked(env, s) && NoStrays(s)
  {
    hide Checked, NoStrays, MapsOk, RandomOk, TriedOk, NewOk, RefsOk, CountsOk, TimesOk;
    if Inv(env, s) {
      InvChecked(env, s);
    }
    if Checked(env, s) && NoStrays(s) {
      CheckedRandom(env, s);
      CheckedTables(env, s);
      CheckedRefs(env, s);
      CheckedRest(env, s);
    }
  }

  /** Tables with one tried entry, for a given index by address and count of numbers given out. */
  function OneTried(env: Env, a: Address, ids: map<NetAddr, Id>, idCount: int): Tables {
    var i := NewInfo(a, a.service.addr).(lastSuccess := 1, inTried := true, randomPos := 0);
    EMPTY.(idCount := idCount, info := map[Id(0) := i], ids := ids, random := [Id(0)], nTried := 1,
           triedTable := map[i.TriedSlot(env) := Id(0)])
  }

  lemma OneTriedChecked(env: Env, a: Address, ids: map<NetAddr, Id>, idCount: int)
    requires Looked(ids, a.service.addr) == Id(0)
    ensures Checked(env, OneTried(env, a, ids, idCount))
  {
    var s := OneTried(env, a, ids, idCount);
    assert TriedIds(s.info) == {Id(0)} && NewIds(s.info) == {};
    assert s.triedTable[s.info[Id(0)].TriedSlot(env)] == Id(0);
  }

  /** Each of the three can be the only thing that is wrong, and the check passes. */
  lemma StraysUnchecked(env: Env, a: Address)
    ensures var s := EMPTY.(ids := map[a.service.addr := Id(0)]);
      Checked(env, s) && !AddressesLead(s) && FirstFound(s) && IdsGiven(s)
    ensures var s := OneTried(env, a, map[], 1);
      Checked(env, s) && AddressesLead(s) && !FirstFound(s) && IdsGiven(s)
    ensures var s := OneTried(env, a, map[a.service.addr := Id(0)], 0);
      Checked(env, s) && AddressesLead(s) && FirstFound(s) && !IdsGiven(s)
  {
    OneTriedChecked(env, a, map[], 1);
    OneTriedChecked(env, a, map[a.service.addr := Id(0)], 0);
    assert Id(0) in OneTried(env, a, map[a.service.addr := Id(0)], 0).info;
    assert a.service.addr in EMPTY.(ids := map[a.service.addr := Id(0)]).ids;
    assert TriedIds(EMPTY.info) == {} && NewIds(EMPTY.info) == {};
  }

  /** The tables as Clear leaves them. */
  ghost function EmptyTables(env: Env): (s: Tables)
    ensures Inv(env, s) && s == EMPTY
  {
    EmptyInv(env);
    EMPTY
  }

  /** Over every run of client calls from an empty manager, the program's own check passes. */
  lemma CheckPasses(env: Env, ops: seq<Op>)
    requires LegalRun(env, EmptyTables(env), ops)
    ensures Checked(env, Run(env, EmptyTables(env), ops))
  {
    hide *;
    RunKeeps(env, EmptyTables(env), ops);
    InvChecked(env, Run(env, EmptyTables(env), ops));
  }
}
