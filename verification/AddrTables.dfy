/** The address manager's tables as a value: what each internal operation does to them, and the
    invariant its own consistency check describes. */
module AddrTables {
  import opened Options

  // ---------------------------------------------------------------------
  // Addresses and the world around the tables

  datatype NetAddr = NetAddr(ip: nat)

  datatype Service = Service(addr: NetAddr, port: nat)

  /** An announced address: where it is, what it offers and when it was last seen. */
  datatype Address = Address(service: Service, services: bv64, time: int)

  const TRIED_BUCKET_COUNT: nat := 256
  const NEW_BUCKET_COUNT: nat := 1024
  const BUCKET_SIZE: nat := 64
  const NEW_BUCKETS_PER_ADDRESS: int := 8
  const HORIZON_DAYS: int := 30
  const RETRIES: int := 3
  const MAX_FAILURES: int := 10
  const MIN_FAIL_DAYS: int := 7
  const REPLACEMENT_HOURS: int := 4
  const GETADDR_MAX_PCT: int := 23
  const GETADDR_MAX: int := 2500
  const TRIED_COLLISION_SIZE: nat := 10

  /** The keyed hashes and the address classification, all of them arbitrary. */
  datatype Env = Env(
    triedHash: Service -> nat,
    newHash: (Service, NetAddr) -> nat,
    positionHash: (bool, nat, Service) -> nat,
    routable: NetAddr -> bool,
    valid: NetAddr -> bool)

  /** The number under which an entry is known; numbers are given out in order. */
  datatype Id = Id(n: int)

  datatype Slot = Slot(bucket: nat, pos: nat)

  datatype Info = Info(
    service: Service, services: bv64, time: int, source: NetAddr,
    lastTry: int, lastCountAttempt: int, lastSuccess: int, attempts: int,
    refCount: int, inTried: bool, randomPos: int)
  {
    function TriedSlot(env: Env): Slot {
      var b := env.triedHash(service) % TRIED_BUCKET_COUNT;
      Slot(b, env.positionHash(false, b, service) % BUCKET_SIZE)
    }

    /** The one place this entry can have in a given bucket of the new table. */
    function PlaceIn(env: Env, bucket: nat): Slot {
      Slot(bucket, env.positionHash(true, bucket, service) % BUCKET_SIZE)
    }

    function NewSlot(env: Env, src: NetAddr): Slot {
      PlaceIn(env, env.newHash(service, src) % NEW_BUCKET_COUNT)
    }

    predicate IsTerrible(now: int) {
      if lastTry != 0 && lastTry >= now - 60 then false
      else
        || time > now + 10 * 60
        || time == 0 || now - time > HORIZON_DAYS * 24 * 60 * 60
        || (lastSuccess == 0 && attempts >= RETRIES)
        || (now - lastSuccess > MIN_FAIL_DAYS * 24 * 60 * 60 && attempts >= MAX_FAILURES)
    }
  }

  function NewInfo(a: Address, source: NetAddr): Info {
    Info(a.service, a.services, a.time, source, 0, 0, 0, 0, 0, false, -1)
  }

  type Table = map<Slot, Id>

  /** Entries by id, ids by address, the random order, both bucket tables (a slot that is not in the map
      is empty), the counters and the pending collisions. */
  datatype Tables = Tables(
    idCount: int, info: map<Id, Info>, ids: map<NetAddr, Id>, random: seq<Id>,
    nTried: int, triedTable: Table, nNew: int, newTable: Table,
    lastGood: int, collisions: set<Id>)

  const EMPTY: Tables := Tables(0, map[], map[], [], 0, map[], 0, map[], 1, {})

  // ---------------------------------------------------------------------
  // The internal operations

  function Create(s: Tables, a: Address, source: NetAddr): Tables {
    var id := Id(s.idCount);
    s.(idCount := s.idCount + 1,
       info := s.info[id := NewInfo(a, source).(randomPos := |s.random|)],
       ids := s.ids[a.service.addr := id],
       random := s.random + [id])
  }

  predicate CanSwap(s: Tables, p: int, q: int) {
    p != q ==> 0 <= p < |s.random| && 0 <= q < |s.random| && s.random[p] in s.info && s.random[q] in s.info
  }

  function SetPlace(info: map<Id, Info>, id: Id, p: int): map<Id, Info>
    requires id in info
  {
    info[id := info[id].(randomPos := p)]
  }

  function SwapRandom(s: Tables, p: int, q: int): Tables
    requires CanSwap(s, p, q)
  {
    if p == q then s
    else
      var a, b := s.random[p], s.random[q];
      s.(info := SetPlace(SetPlace(s.info, a, q), b, p), random := s.random[p := b][q := a])
  }

  /** The assertions of Delete. */
  predicate CanDelete(s: Tables, id: Id) {
    && id in s.info && !s.info[id].inTried && s.info[id].refCount == 0
    && |s.random| > 0 && CanSwap(s, s.info[id].randomPos, |s.random| - 1)
  }

  /** Cuts off an entry that is last in the random order. */
  function CutLast(t: Tables, id: Id): Tables
    requires id in t.info && |t.random| > 0
  {
    t.(random := t.random[..|t.random| - 1], ids := t.ids - {t.info[id].service.addr}, info := t.info - {id},
       nNew := t.nNew - 1)
  }

  function Delete(s: Tables, id: Id): Tables
    requires CanDelete(s, id)
  {
    CutLast(SwapRandom(s, s.info[id].randomPos, |s.random| - 1), id)
  }

  /** Takes one reference away from the entry in a slot of the new table. */
  function DropReference(s: Tables, slot: Slot): Tables
    requires slot in s.newTable && s.newTable[slot] in s.info
  {
    var id := s.newTable[slot];
    s.(info := s.info[id := s.info[id].(refCount := s.info[id].refCount - 1)], newTable := s.newTable - {slot})
  }

  predicate CanClear(s: Tables, slot: Slot) {
    slot in s.newTable ==>
      && s.newTable[slot] in s.info && s.info[s.newTable[slot]].refCount > 0
      && (s.info[s.newTable[slot]].refCount == 1 ==> CanDelete(DropReference(s, slot), s.newTable[slot]))
  }

  function ClearNew(s: Tables, slot: Slot): Tables
    requires CanClear(s, slot)
  {
    if slot !in s.newTable then s
    else
      var t := DropReference(s, slot);
      if t.info[s.newTable[slot]].refCount == 0 then Delete(t, s.newTable[slot]) else t
  }

  /** Enters an entry into an empty slot of the new table. */
  function AddReference(s: Tables, id: Id, slot: Slot): Tables
    requires id in s.info
  {
    s.(info := s.info[id := s.info[id].(refCount := s.info[id].refCount + 1)], newTable := s.newTable[slot := id])
  }

  /** Takes an entry out of all its slots of the new table and off the account. */
  function LeaveNew(s: Tables, id: Id): Tables
    requires id in s.info
  {
    s.(info := s.info[id := s.info[id].(refCount := s.info[id].refCount - |Slots(s.newTable, id)|)],
       newTable := map slot | slot in s.newTable && s.newTable[slot] != id :: s.newTable[slot],
       nNew := s.nNew - 1)
  }

  /** Takes the entry in a slot of the tried table out of it. */
  function LeaveTried(s: Tables, slot: Slot): Tables
    requires slot in s.triedTable && s.triedTable[slot] in s.info
  {
    var id := s.triedTable[slot];
    s.(info := s.info[id := s.info[id].(inTried := false)], triedTable := s.triedTable - {slot}, nTried := s.nTried - 1)
  }

  function EnterTried(s: Tables, id: Id, slot: Slot): Tables
    requires id in s.info
  {
    s.(info := s.info[id := s.info[id].(inTried := true)], triedTable := s.triedTable[slot := id],
       nTried := s.nTried + 1)
  }

  // ---------------------------------------------------------------------
  // The invariant

  function Slots(t: Table, id: Id): set<Slot> {
    set slot | slot in t && t[slot] == id
  }

  function TriedIds(info: map<Id, Info>): set<Id> {
    set id | id in info && info[id].inTried
  }

  function NewIds(info: map<Id, Info>): set<Id> {
    set id | id in info && !info[id].inTried
  }

  /** Ids and addresses name each other; ids are never reused. */
  ghost predicate MapsOk(s: Tables) {
    && s.idCount >= 0
    && (forall id :: id in s.info ==> 0 <= id.n < s.idCount && Find(s.ids, s.info[id].service.addr) == Some(id))
    && (forall a :: a in s.ids ==> s.ids[a] in s.info && s.info[s.ids[a]].service.addr == a)
  }

  /** The random order lists every id once, and every entry knows its place. */
  ghost predicate RandomOk(s: Tables) {
    && (forall id :: id in s.info ==> 0 <= s.info[id].randomPos < |s.random| && s.random[s.info[id].randomPos] == id)
    && (forall k :: 0 <= k < |s.random| ==> s.random[k] in s.info && s.info[s.random[k]].randomPos == k)
  }

  /** A tried entry sits in its hashed slot and nowhere else. */
  ghost predicate TriedOk(env: Env, s: Tables) {
    && (forall id :: id in s.info && s.info[id].inTried ==> Find(s.triedTable, s.info[id].TriedSlot(env)) == Some(id))
    && (forall slot :: slot in s.triedTable ==>
          && s.triedTable[slot] in s.info && s.info[s.triedTable[slot]].inTried
          && s.info[s.triedTable[slot]].TriedSlot(env) == slot)
  }

  /** Slots of the new table hold entries that are not tried, at their hashed position. */
  ghost predicate NewOk(env: Env, s: Tables) {
    forall slot :: slot in s.newTable ==>
      && slot.bucket < NEW_BUCKET_COUNT
      && s.newTable[slot] in s.info && !s.info[s.newTable[slot]].inTried
      && s.info[s.newTable[slot]].PlaceIn(env, slot.bucket) == slot
  }

  /** Reference counts count the occupied slots of the new table: none for a tried entry, 1 to 8 for any
      other, except that the entries in `limbo` have none for the moment. */
  ghost predicate RefsOk(s: Tables, limbo: set<Id>) {
    && limbo <= s.info.Keys
    && forall id :: id in s.info ==>
         && s.info[id].refCount == |Slots(s.newTable, id)| <= NEW_BUCKETS_PER_ADDRESS
         && (s.info[id].inTried ==> s.info[id].refCount == 0 && id !in limbo)
         && (!s.info[id].inTried ==> (s.info[id].refCount == 0 <==> id in limbo))
  }

  /** The counters are exact, but for `off` new entries that are not counted for the moment. */
  ghost predicate CountsOk(s: Tables, off: int) {
    && s.nTried == |TriedIds(s.info)|
    && s.nNew + off == |NewIds(s.info)|
  }

  ghost predicate TimesOk(s: Tables) {
    forall id :: id in s.info ==>
      && s.info[id].lastTry >= 0 && s.info[id].lastSuccess >= 0
      && (s.info[id].inTried ==> s.info[id].lastSuccess != 0)
  }

  ghost predicate Partial(env: Env, s: Tables, limbo: set<Id>, off: int) {
    && MapsOk(s) && RandomOk(s) && TriedOk(env, s) && NewOk(env, s)
    && RefsOk(s, limbo) && CountsOk(s, off) && TimesOk(s)
  }

  ghost predicate Inv(env: Env, s: Tables) {
    Partial(env, s, {}, 0)
  }
}
