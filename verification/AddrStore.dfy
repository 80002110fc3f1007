/** Saving the address manager and loading it again. Only the entries and, by bucket, their order in the
    new table are written; everything else is rebuilt. */
module AddrStore {
  import opened AddrKeeps
  import opened AddrMan
  import opened AddrRuns
  import opened AddrTables
  import opened Options

  /** What is written of an entry. */
  datatype Record =
    Record(service: Service, services: bv64, time: int, source: NetAddr, lastSuccess: int, attempts: int)

  datatype Saved = Saved(
    version: nat, keySize: nat, nNew: int, nTried: int, uBuckets: int,
    news: seq<Record>, trieds: seq<Record>, buckets: seq<seq<int>>)

  function RecordOf(i: Info): Record {
    Record(i.service, i.services, i.time, i.source, i.lastSuccess, i.attempts)
  }

  function InfoOf(r: Record, pos: int, inTried: bool): Info {
    Info(r.service, r.services, r.time, r.source, 0, 0, r.lastSuccess, r.attempts, 0, inTried, pos)
  }

  /** Flips bit 30, so that readers of the first format notice the change. */
  function Flip30(n: int): int {
    if n / 0x4000_0000 % 2 == 1 then n - 0x4000_0000 else n + 0x4000_0000
  }

  // ---------------------------------------------------------------------
  // The order in which entries are written

  function NatOf(n: int): nat {
    if n < 0 then 0 else n
  }

  predicate IsNew(info: map<Id, Info>, id: Id) {
    id in info && info[id].refCount != 0
  }

  predicate IsTried(info: map<Id, Info>, id: Id) {
    id in info && info[id].inTried
  }

  /** The entries with references among the first n ids, in order. */
  function NewList(info: map<Id, Info>, n: nat): seq<Id> {
    if n == 0 then [] else NewList(info, n - 1) + (if IsNew(info, Id(n - 1)) then [Id(n - 1)] else [])
  }

  function TriedList(info: map<Id, Info>, n: nat): seq<Id> {
    if n == 0 then [] else TriedList(info, n - 1) + (if IsTried(info, Id(n - 1)) then [Id(n - 1)] else [])
  }

  lemma {:induction false} NewListFacts(info: map<Id, Info>, n: nat)
    ensures NoRepeats(NewList(info, n))
    ensures forall id :: id in NewList(info, n) <==> 0 <= id.n < n && IsNew(info, id)
    decreases n
  {
    hide IsNew;
    if n > 0 {
      NewListFacts(info, n - 1);
      SnocFacts(NewList(info, n - 1), Id(n - 1));
    }
  }

  lemma {:induction false} TriedListFacts(info: map<Id, Info>, n: nat)
    ensures NoRepeats(TriedList(info, n))
    ensures forall id :: id in TriedList(info, n) <==> 0 <= id.n < n && IsTried(info, id)
    decreases n
  {
    hide IsTried;
    if n > 0 {
      TriedListFacts(info, n - 1);
      SnocFacts(TriedList(info, n - 1), Id(n - 1));
    }
  }

  lemma SnocFacts(r: seq<Id>, x: Id)
    requires NoRepeats(r) && x !in r
    ensures NoRepeats(r + [x]) && forall id :: id in r + [x] <==> id in r || id == x
  {
  }

  /** The number under which a new entry is written is the number of new entries before it. */
  lemma {:induction false} NewListIndex(info: map<Id, Info>, id: Id, n: nat)
    requires IsNew(info, id) && 0 <= id.n < n
    ensures |NewList(info, id.n)| < |NewList(info, n)| && NewList(info, n)[|NewList(info, id.n)|] == id
    decreases n
  {
    hide IsNew;
    if id.n < n - 1 {
      NewListIndex(info, id, n - 1);
    } else {
      assert id == Id(n - 1);
    }
  }

  // ---------------------------------------------------------------------
  // What is written

  function Records(info: map<Id, Info>, r: seq<Id>): seq<Record>
    requires forall id :: id in r ==> id in info
  {
    seq(|r|, k requires 0 <= k < |r| => RecordOf(info[r[k]]))
  }

  /** The occupied slots of a bucket of the new table, among the first k. */
  function Occupied(t: Table, bucket: nat, k: nat): seq<Slot> {
    if k == 0 then [] else
      Occupied(t, bucket, k - 1) + (if Slot(bucket, k - 1) in t then [Slot(bucket, k - 1)] else [])
  }

  lemma {:induction false} OccupiedFacts(t: Table, bucket: nat, k: nat)
    ensures forall slot :: slot in Occupied(t, bucket, k) <==> slot in t && slot.bucket == bucket && slot.pos < k
    ensures forall i, j :: 0 <= i < j < |Occupied(t, bucket, k)| ==>
      Occupied(t, bucket, k)[i] != Occupied(t, bucket, k)[j]
    decreases k
  {
    if k > 0 {
      OccupiedFacts(t, bucket, k - 1);
    }
  }

  function Indexes(info: map<Id, Info>, t: Table, slots: seq<Slot>): seq<int>
    requires forall slot :: slot in slots ==> slot in t
  {
    seq(|slots|, k requires 0 <= k < |slots| => |NewList(info, NatOf(t[slots[k]].n))|)
  }

  function BucketIndexes(s: Tables, bucket: nat): seq<int> {
    OccupiedFacts(s.newTable, bucket, BUCKET_SIZE);
    Indexes(s.info, s.newTable, Occupied(s.newTable, bucket, BUCKET_SIZE))
  }

  function News(s: Tables): (r: seq<Id>)
    ensures forall id :: id in r ==> id in s.info
  {
    NewListFacts(s.info, NatOf(s.idCount));
    NewList(s.info, NatOf(s.idCount))
  }

  function Trieds(s: Tables): (r: seq<Id>)
    ensures forall id :: id in r ==> id in s.info
  {
    TriedListFacts(s.info, NatOf(s.idCount));
    TriedList(s.info, NatOf(s.idCount))
  }

  function Stored(s: Tables): Saved {
    Saved(1, 32, s.nNew, s.nTried, Flip30(NEW_BUCKET_COUNT), Records(s.info, News(s)), Records(s.info, Trieds(s)),
          seq(NEW_BUCKET_COUNT, b requires 0 <= b => BucketIndexes(s, b)))
  }

  lemma NewsAre(env: Env, s: Tables)
    requires MapsOk(s) && RefsOk(s, {}) && CountsOk(s, 0)
    ensures |News(s)| == s.nNew && NoRepeats(News(s))
    ensures forall id :: id in News(s) <==> id in s.info && !s.info[id].inTried
  {
    NewListFacts(s.info, NatOf(s.idCount));
    hide NewList;
    assert Elements(News(s)) == NewIds(s.info);
    NoRepeatsCount(News(s));
  }

  lemma TriedsAre(env: Env, s: Tables)
    requires MapsOk(s) && CountsOk(s, 0)
    ensures |Trieds(s)| == s.nTried && NoRepeats(Trieds(s))
    ensures forall id :: id in Trieds(s) <==> id in s.info && s.info[id].inTried
  {
    TriedListFacts(s.info, NatOf(s.idCount));
    hide TriedList;
    assert Elements(Trieds(s)) == TriedIds(s.info);
    NoRepeatsCount(Trieds(s));
  }

  /** All entries, in the order in which loading numbers them. */
  function Order(s: Tables): seq<Id> {
    News(s) + Trieds(s)
  }

  /** Every entry once, the tried ones from a number on. */
  ghost predicate Ordered(s: Tables, order: seq<Id>, from: nat) {
    && NoRepeats(order) && (forall id :: id in order <==> id in s.info)
    && (forall k :: 0 <= k < |order| ==> order[k] in s.info && (s.info[order[k]].inTried <==> k >= from))
  }

  /** On consistent tables the counters are the lengths of the two lists, which together are all entries. */
  lemma OrderIs(env: Env, s: Tables)
    requires Inv(env, s)
    ensures |News(s)| == s.nNew && |Trieds(s)| == s.nTried && |Order(s)| == s.nNew + s.nTried
    ensures Ordered(s, Order(s), |News(s)|)
  {
    InvParts(env, s);
    hide *;
    NewsAre(env, s);
    TriedsAre(env, s);
    OrderJoins(s, News(s), Trieds(s));
  }

  lemma InvParts(env: Env, s: Tables)
    requires Inv(env, s)
    ensures MapsOk(s) && RandomOk(s) && TriedOk(env, s) && NewOk(env, s) && RefsOk(s, {}) && CountsOk(s, 0)
    ensures TimesOk(s)
  {
  }

  lemma OrderJoins(s: Tables, a: seq<Id>, b: seq<Id>)
    requires a == News(s) && b == Trieds(s) && NoRepeats(a) && NoRepeats(b)
    requires forall id :: id in a <==> id in s.info && !s.info[id].inTried
    requires forall id :: id in b <==> id in s.info && s.info[id].inTried
    ensures Ordered(s, Order(s), |a|) && |Order(s)| == |a| + |b|
  {
    hide News, Trieds, NoRepeats;
    JoinFacts(a, b);
    forall k | 0 <= k < |Order(s)|
      ensures Order(s)[k] in s.info && (s.info[Order(s)[k]].inTried <==> k >= |a|)
    {
      if k < |a| {
        assert a[k] in a;
      } else {
        assert Order(s)[k] == b[k - |a|] && b[k - |a|] in b;
      }
    }
  }

  lemma JoinFacts(a: seq<Id>, b: seq<Id>)
    requires NoRepeats(a) && NoRepeats(b) && forall id :: id in a ==> id !in b
    ensures NoRepeats(a + b) && forall id :: id in a + b <==> id in a || id in b
  {
    var r := a + b;
    forall i, j | 0 <= i < j < |r|
      ensures r[i] != r[j]
    {
      if i < |a| <= j {
        assert r[i] in a && r[j] in b;
      }
    }
  }

  // ---------------------------------------------------------------------
  // Loading entries

  /** Entries base to n are there, numbered and listed in order. */
  ghost predicate Numbered(t: Tables, base: int, n: int) {
    && base <= n && |t.random| == n - base && (forall k :: 0 <= k < |t.random| ==> t.random[k] == Id(base + k))
    && (forall j :: j in t.info <==> base <= j.n < n)
    && (forall j :: j in t.info ==> t.info[j].randomPos == j.n - base)
  }

  lemma NumberedRandom(t: Tables, base: int, n: int)
    requires Numbered(t, base, n)
    ensures RandomOk(t)
  {
  }

  /** The same entry, but for what is only kept in memory. */
  predicate Restored(i: Info, j: Info) {
    && j.service == i.service && j.services == i.services && j.time == i.time && j.source == i.source
    && j.lastSuccess == i.lastSuccess && j.attempts == i.attempts && j.lastTry == 0 && j.lastCountAttempt == 0
  }

  /** The first n entries of an order have been loaded as entries 0 to n. */
  ghost predicate Loaded(s: Tables, order: seq<Id>, t: Tables, n: nat) {
    && n <= |order| && Numbered(t, 0, n)
    && EntriesRestored(s, order, t.info) && Indexed(t.info, t.ids)
  }

  ghost predicate EntriesRestored(s: Tables, order: seq<Id>, info: map<Id, Info>) {
    forall j :: j in info ==> 0 <= j.n < |order| && order[j.n] in s.info && Restored(s.info[order[j.n]], info[j])
  }

  lemma EntriesStep(s: Tables, order: seq<Id>, info: map<Id, Info>, j: Id, i: Info)
    requires EntriesRestored(s, order, info) && 0 <= j.n < |order| && order[j.n] in s.info
    requires Restored(s.info[order[j.n]], i)
    ensures EntriesRestored(s, order, info[j := i])
  {
  }

  /** Entries and addresses name each other. */
  ghost predicate Indexed(info: map<Id, Info>, ids: map<NetAddr, Id>) {
    && (forall j :: j in info ==> info[j].service.addr in ids && ids[info[j].service.addr] == j)
    && (forall a :: a in ids ==> ids[a] in info && info[ids[a]].service.addr == a)
  }

  lemma IndexedStep(info: map<Id, Info>, ids: map<NetAddr, Id>, id: Id, i: Info)
    requires Indexed(info, ids) && id !in info && i.service.addr !in ids
    ensures Indexed(info[id := i], ids[i.service.addr := id])
  {
  }

  function TakeEntry(t: Tables, n: int, r: Record, inTried: bool): Tables {
    t.(info := t.info[Id(n) := InfoOf(r, |t.random|, inTried)], ids := t.ids[r.service.addr := Id(n)],
       random := t.random + [Id(n)])
  }

  lemma TakeNumbers(t: Tables, base: int, n: int, r: Record, inTried: bool)
    requires Numbered(t, base, n)
    ensures Numbered(TakeEntry(t, n, r, inTried), base, n + 1)
  {
  }

  /** Different entries of consistent tables have different addresses. */
  lemma OtherAddress(s: Tables, a: Id, b: Id)
    requires MapsOk(s) && a in s.info && b in s.info && a != b
    ensures s.info[a].service.addr != s.info[b].service.addr
  {
  }

  lemma TakeLoads(s: Tables, order: seq<Id>, t: Tables, n: nat, inTried: bool)
    requires MapsOk(s) && NoRepeats(order) && Loaded(s, order, t, n) && n < |order| && order[n] in s.info
    ensures Loaded(s, order, TakeEntry(t, n, RecordOf(s.info[order[n]]), inTried), n + 1)
  {
    var r := RecordOf(s.info[order[n]]);
    var t' := TakeEntry(t, n, r, inTried);
    TakeNumbers(t, 0, n, r, inTried);
    TakeAddress(s, order, t, n);
    IndexedStep(t.info, t.ids, Id(n), InfoOf(r, |t.random|, inTried));
    EntriesStep(s, order, t.info, Id(n), InfoOf(r, |t.random|, inTried));
    hide MapsOk, NoRepeats, Indexed, EntriesRestored, Numbered;
  }

  lemma TakeAddress(s: Tables, order: seq<Id>, t: Tables, n: nat)
    requires MapsOk(s) && NoRepeats(order) && Loaded(s, order, t, n) && n < |order| && order[n] in s.info
    ensures s.info[order[n]].service.addr !in t.ids && Id(n) !in t.info
  {
    hide MapsOk;
    var a := s.info[order[n]].service.addr;
    if a in t.ids {
      OtherAddress(s, order[t.ids[a].n], order[n]);
    }
  }

  // ---------------------------------------------------------------------
  // Loading the tables

  /** Entries from a number on are the tried ones. */
  ghost predicate Flagged(info: map<Id, Info>, from: nat) {
    forall j :: j in info ==> (info[j].inTried <==> j.n >= from)
  }

  /** The tried entries loaded so far are in their slots, and nothing else is. */
  ghost predicate TriedFilled(env: Env, s: Tables, order: seq<Id>, tried: Table, from: nat, n: nat) {
    && n <= |order| && (forall k :: 0 <= k < |order| ==> order[k] in s.info)
    && (forall k :: from <= k < n ==> Find(tried, s.info[order[k]].TriedSlot(env)) == Some(Id(k)))
    && (forall slot :: slot in tried ==>
          from <= tried[slot].n < n && s.info[order[tried[slot].n]].TriedSlot(env) == slot)
  }

  lemma OtherTriedSlot(env: Env, s: Tables, a: Id, b: Id)
    requires TriedOk(env, s) && a in s.info && b in s.info && a != b && s.info[a].inTried && s.info[b].inTried
    ensures s.info[a].TriedSlot(env) != s.info[b].TriedSlot(env)
  {
  }

  /** A tried entry of consistent tables always finds its slot free. */
  lemma FillTried(env: Env, s: Tables, order: seq<Id>, tried: Table, from: nat, n: nat)
    requires TriedOk(env, s) && NoRepeats(order) && TriedFilled(env, s, order, tried, from, n) && from <= n < |order|
    requires forall k :: from <= k <= n ==> s.info[order[k]].inTried
    ensures var slot := s.info[order[n]].TriedSlot(env);
      slot !in tried && TriedFilled(env, s, order, tried[slot := Id(n)], from, n + 1)
  {
    TriedSlotFree(env, s, order, tried, from, n);
    hide TriedOk, NoRepeats;
    FillStep(env, s, order, tried, from, n, s.info[order[n]].TriedSlot(env));
  }

  lemma FillStep(env: Env, s: Tables, order: seq<Id>, tried: Table, from: nat, n: nat, slot: Slot)
    requires TriedFilled(env, s, order, tried, from, n) && from <= n < |order|
    requires slot == s.info[order[n]].TriedSlot(env) && slot !in tried
    ensures TriedFilled(env, s, order, tried[slot := Id(n)], from, n + 1)
  {
    var tried' := tried[slot := Id(n)];
    forall k | from <= k < n + 1
      ensures Find(tried', s.info[order[k]].TriedSlot(env)) == Some(Id(k))
    {
      if k < n {
        assert Find(tried, s.info[order[k]].TriedSlot(env)) == Some(Id(k));
      }
    }
  }

  lemma TriedSlotFree(env: Env, s: Tables, order: seq<Id>, tried: Table, from: nat, n: nat)
    requires TriedOk(env, s) && NoRepeats(order) && TriedFilled(env, s, order, tried, from, n) && from <= n < |order|
    requires forall k :: from <= k <= n ==> s.info[order[k]].inTried
    ensures s.info[order[n]].TriedSlot(env) !in tried
  {
    hide TriedOk;
    var slot := s.info[order[n]].TriedSlot(env);
    if slot in tried {
      OtherTriedSlot(env, s, order[tried[slot].n], order[n]);
    }
  }

  /** The slots done so far hold the same entries as before, under their new numbers. */
  ghost predicate Placed(s: Tables, order: seq<Id>, table: Table, done: set<Slot>) {
    && table.Keys == done <= s.newTable.Keys
    && (forall slot :: slot in done ==> 0 <= table[slot].n < |order| && order[table[slot].n] == s.newTable[slot])
  }

  ghost predicate RefsCounted(info: map<Id, Info>, table: Table) {
    forall j :: j in info ==> info[j].refCount == |Slots(table, j)|
  }

  lemma RefsAdded(info: map<Id, Info>, table: Table, j: Id, slot: Slot)
    requires RefsCounted(info, table) && j in info && slot !in table
    ensures RefsCounted(info[j := info[j].(refCount := info[j].refCount + 1)], table[slot := j])
  {
    SlotsAdded(table, slot, j);
  }

  /** An entry has fewer slots while one of them is still to be filled. */
  lemma RoomLeft(s: Tables, order: seq<Id>, table: Table, done: set<Slot>, slot: Slot, k: nat)
    requires Placed(s, order, table, done) && slot in s.newTable && slot !in done && k < |order|
    requires order[k] == s.newTable[slot]
    ensures |Slots(table, Id(k))| < |Slots(s.newTable, s.newTable[slot])|
  {
    var a, b := Slots(table, Id(k)), Slots(s.newTable, s.newTable[slot]);
    assert forall x :: x in a ==> x in b && x != slot;
    SlotsFewer(a, b - {slot});
  }

  lemma SlotsFewer(a: set<Slot>, b: set<Slot>)
    requires forall x :: x in a ==> x in b
    ensures |a| <= |b|
  {
    assert b == a + (b - a);
  }

  /** Loading is under way: n entries have been read, and the slots in done filled again. */
  ghost predicate Loading(env: Env, s: Tables, t: Tables, n: nat, done: set<Slot>) {
    && Loaded(s, Order(s), t, n) && Flagged(t.info, |News(s)|)
    && TriedFilled(env, s, Order(s), t.triedTable, |News(s)|, n)
    && Placed(s, Order(s), t.newTable, done) && RefsCounted(t.info, t.newTable)
  }

  /** The number written for a slot leads to the entry that was in it. */
  lemma IndexLeads(env: Env, s: Tables, slot: Slot)
    requires Inv(env, s) && slot in s.newTable
    ensures var k := |NewList(s.info, NatOf(s.newTable[slot].n))|;
      k < s.nNew == |News(s)| && k < |Order(s)| && Order(s)[k] == s.newTable[slot]
  {
    var id := s.newTable[slot];
    OrderIs(env, s);
    assert id in s.info && !s.info[id].inTried;
    NewListIndex(s.info, id, s.idCount);
  }

  /** What loading finds for the number written for a slot: the slot, free, and room for a reference. */
  lemma PlaceFinds(env: Env, s: Tables, t: Tables, n: nat, done: set<Slot>, slot: Slot)
    requires Inv(env, s) && Loading(env, s, t, n, done) && slot in s.newTable && slot !in done && n >= s.nNew
    ensures var k := |NewList(s.info, NatOf(s.newTable[slot].n))|;
      && k < s.nNew && Id(k) in t.info && t.info[Id(k)].PlaceIn(env, slot.bucket) == slot
      && slot !in t.newTable && t.info[Id(k)].refCount < NEW_BUCKETS_PER_ADDRESS
  {
    IndexLeads(env, s, slot);
    var id := s.newTable[slot];
    var k := |NewList(s.info, id.n)|;
    hide NewList, Order;
    RoomLeft(s, Order(s), t.newTable, done, slot, k);
    assert Restored(s.info[id], t.info[Id(k)]);
  }

  lemma PlaceLoads(env: Env, s: Tables, t: Tables, n: nat, done: set<Slot>, slot: Slot)
    requires Inv(env, s) && Loading(env, s, t, n, done) && slot in s.newTable && slot !in done && n >= s.nNew
    ensures var j := Id(|NewList(s.info, NatOf(s.newTable[slot].n))|);
      j in t.info && Loading(env, s, AddReference(t, j, slot), n, done + {slot})
  {
    hide *;
    PlaceFinds(env, s, t, n, done, slot);
    IndexLeads(env, s, slot);
    var j := Id(|NewList(s.info, NatOf(s.newTable[slot].n))|);
    LoadingParts(env, s, t, n, done);
    RefsAdded(t.info, t.newTable, j, slot);
    PlacedStep(s, Order(s), t.newTable, done, slot, j.n);
    ReferenceLoads(s, Order(s), t, n, j, slot, |News(s)|);
    ReferenceIs(t, j, slot);
    LoadingIntro(env, s, AddReference(t, j, slot), n, done + {slot});
  }

  lemma LoadingParts(env: Env, s: Tables, t: Tables, n: nat, done: set<Slot>)
    requires Loading(env, s, t, n, done)
    ensures Loaded(s, Order(s), t, n) && Flagged(t.info, |News(s)|)
    ensures TriedFilled(env, s, Order(s), t.triedTable, |News(s)|, n)
    ensures Placed(s, Order(s), t.newTable, done) && RefsCounted(t.info, t.newTable)
  {
  }

  lemma LoadingIntro(env: Env, s: Tables, t: Tables, n: nat, done: set<Slot>)
    requires Loaded(s, Order(s), t, n) && Flagged(t.info, |News(s)|)
    requires TriedFilled(env, s, Order(s), t.triedTable, |News(s)|, n)
    requires Placed(s, Order(s), t.newTable, done) && RefsCounted(t.info, t.newTable)
    ensures Loading(env, s, t, n, done)
  {
  }

  lemma PlacedStep(s: Tables, order: seq<Id>, table: Table, done: set<Slot>, slot: Slot, k: nat)
    requires Placed(s, order, table, done) && slot in s.newTable && k < |order| && order[k] == s.newTable[slot]
    ensures Placed(s, order, table[slot := Id(k)], done + {slot})
  {
  }

  lemma ReferenceIs(t: Tables, j: Id, slot: Slot)
    requires j in t.info
    ensures var u := AddReference(t, j, slot);
      && u.info == t.info[j := t.info[j].(refCount := t.info[j].refCount + 1)]
      && u.newTable == t.newTable[slot := j] && u.triedTable == t.triedTable
      && u.random == t.random && u.ids == t.ids && u.info.Keys == t.info.Keys
      && (forall x :: x in t.info ==> u.info[x].randomPos == t.info[x].randomPos)
  {
  }

  lemma ReferenceLoads(s: Tables, order: seq<Id>, t: Tables, n: nat, j: Id, slot: Slot, from: nat)
    requires Loaded(s, order, t, n) && Flagged(t.info, from) && j in t.info
    ensures Loaded(s, order, AddReference(t, j, slot), n) && Flagged(AddReference(t, j, slot).info, from)
  {
    hide *;
    var u, i := AddReference(t, j, slot), t.info[j].(refCount := t.info[j].refCount + 1);
    LoadedParts(s, order, t, n);
    ReferenceIs(t, j, slot);
    InfoStep(s, order, t.info, t.ids, j, i, from);
    NumberedSame(t, u, 0, n);
    LoadedIntro(s, order, u, n);
  }

  lemma LoadedParts(s: Tables, order: seq<Id>, t: Tables, n: nat)
    requires Loaded(s, order, t, n)
    ensures n <= |order| && Numbered(t, 0, n) && EntriesRestored(s, order, t.info) && Indexed(t.info, t.ids)
  {
  }

  lemma LoadedIntro(s: Tables, order: seq<Id>, t: Tables, n: nat)
    requires n <= |order| && Numbered(t, 0, n) && EntriesRestored(s, order, t.info) && Indexed(t.info, t.ids)
    ensures Loaded(s, order, t, n)
  {
  }

  lemma InfoStep(s: Tables, order: seq<Id>, info: map<Id, Info>, ids: map<NetAddr, Id>, j: Id, i: Info, from: nat)
    requires EntriesRestored(s, order, info) && Indexed(info, ids) && Flagged(info, from) && j in info
    requires i == info[j].(refCount := i.refCount)
    ensures EntriesRestored(s, order, info[j := i]) && Indexed(info[j := i], ids) && Flagged(info[j := i], from)
  {
    EntriesStep(s, order, info, j, i);
    hide EntriesRestored;
  }

  lemma NumberedSame(t: Tables, u: Tables, base: int, n: int)
    requires Numbered(t, base, n) && u.random == t.random && u.info.Keys == t.info.Keys
    requires forall j :: j in t.info ==> u.info[j].randomPos == t.info[j].randomPos
    ensures Numbered(u, base, n)
  {
  }

  // ---------------------------------------------------------------------
  // The loaded tables

  predicate SameEntry(i: Info, j: Info) {
    Restored(i, j) && j.refCount == i.refCount && j.inTried == i.inTried
  }

  ghost predicate SameEntries(s: Tables, order: seq<Id>, info: map<Id, Info>) {
    forall j :: j in info ==> 0 <= j.n < |order| && order[j.n] in s.info && SameEntry(s.info[order[j.n]], info[j])
  }

  ghost predicate SameSlots(order: seq<Id>, a: Table, b: Table) {
    && (forall slot :: slot in a <==> slot in b)
    && (forall slot :: slot in b ==> 0 <= b[slot].n < |order| && order[b[slot].n] == a[slot])
  }

  /** The same entries in the same slots, entry k standing for the k-th in order; only what is kept in
      memory alone starts afresh. */
  ghost predicate Reloaded(s: Tables, t: Tables) {
    && Ordered(s, Order(s), |News(s)|) && Numbered(t, 0, |Order(s)|) && SameEntries(s, Order(s), t.info)
    && SameSlots(Order(s), s.newTable, t.newTable) && SameSlots(Order(s), s.triedTable, t.triedTable)
    && t.nNew == s.nNew && t.nTried == s.nTried
  }

  lemma SlotsSame(order: seq<Id>, a: Table, b: Table, k: nat)
    requires SameSlots(order, a, b) && NoRepeats(order) && k < |order|
    ensures Slots(b, Id(k)) == Slots(a, order[k])
  {
    forall slot
      ensures slot in Slots(b, Id(k)) <==> slot in Slots(a, order[k])
    {
      if slot in a && a[slot] == order[k] {
        assert b[slot].n == k;
        assert b[slot] == Id(k);
      }
    }
  }

  lemma PlacedSame(s: Tables, order: seq<Id>, table: Table)
    requires Placed(s, order, table, s.newTable.Keys)
    ensures SameSlots(order, s.newTable, table)
  {
  }

  lemma TriedSame(env: Env, s: Tables, order: seq<Id>, tried: Table, from: nat)
    requires TriedOk(env, s) && TriedFilled(env, s, order, tried, from, |order|) && Ordered(s, order, from)
    ensures SameSlots(order, s.triedTable, tried)
  {
    hide NoRepeats;
    forall slot | slot in s.triedTable
      ensures slot in tried
    {
      var id := s.triedTable[slot];
      assert id in order;
      var k :| 0 <= k < |order| && order[k] == id;
    }
  }

  /** Every entry that has been loaded counts the same references as before. */
  lemma EntriesSame(s: Tables, order: seq<Id>, info: map<Id, Info>, table: Table, from: nat)
    requires RefsOk(s, {}) && Ordered(s, order, from) && EntriesRestored(s, order, info) && Flagged(info, from)
    requires RefsCounted(info, table) && SameSlots(order, s.newTable, table)
    ensures SameEntries(s, order, info)
  {
    hide NoRepeats, SameSlots, Slots;
    forall j | j in info
      ensures 0 <= j.n < |order| && order[j.n] in s.info && SameEntry(s.info[order[j.n]], info[j])
    {
      SlotsSame(order, s.newTable, table, j.n);
    }
  }

  lemma LoadingReloads(env: Env, s: Tables, t: Tables)
    requires Inv(env, s) && Loading(env, s, t, |Order(s)|, s.newTable.Keys) && t.nNew == s.nNew && t.nTried == s.nTried
    ensures Reloaded(s, t)
  {
    hide *;
    OrderIs(env, s);
    InvParts(env, s);
    LoadingParts(env, s, t, |Order(s)|, s.newTable.Keys);
    LoadedParts(s, Order(s), t, |Order(s)|);
    PlacedSame(s, Order(s), t.newTable);
    EntriesSame(s, Order(s), t.info, t.newTable, |News(s)|);
    TriedSame(env, s, Order(s), t.triedTable, |News(s)|);
    ReloadedIntro(s, t);
  }

  lemma ReloadedIntro(s: Tables, t: Tables)
    requires Ordered(s, Order(s), |News(s)|) && Numbered(t, 0, |Order(s)|) && SameEntries(s, Order(s), t.info)
    requires SameSlots(Order(s), s.newTable, t.newTable) && SameSlots(Order(s), s.triedTable, t.triedTable)
    requires t.nNew == s.nNew && t.nTried == s.nTried
    ensures Reloaded(s, t)
  {
  }

  lemma ReloadedParts(s: Tables, t: Tables)
    requires Reloaded(s, t)
    ensures Ordered(s, Order(s), |News(s)|) && Numbered(t, 0, |Order(s)|) && SameEntries(s, Order(s), t.info)
    ensures SameSlots(Order(s), s.newTable, t.newTable) && SameSlots(Order(s), s.triedTable, t.triedTable)
  {
  }

  /** Nothing is lost: no loaded entry is without a place. */
  lemma NothingUnused(s: Tables, order: seq<Id>, info: map<Id, Info>)
    requires RefsOk(s, {}) && SameEntries(s, order, info)
    ensures AllUsed(info)
  {
  }

  // ---------------------------------------------------------------------
  // The loaded tables are consistent

  function IdsFrom(a: nat, n: nat): seq<Id> {
    seq(n, k requires 0 <= k => Id(a + k))
  }

  lemma CountsRebuilt(s: Tables, order: seq<Id>, info: map<Id, Info>, from: nat)
    requires Ordered(s, order, from) && SameEntries(s, order, info) && from <= |order|
    requires forall j :: j in info <==> 0 <= j.n < |order|
    ensures |NewIds(info)| == from && |TriedIds(info)| == |order| - from
  {
    hide NoRepeats;
    var a, b := IdsFrom(0, from), IdsFrom(from, |order| - from);
    forall j
      ensures j in Elements(a) <==> j in NewIds(info)
      ensures j in Elements(b) <==> j in TriedIds(info)
    {
      if 0 <= j.n < from {
        assert a[j.n] == j;
      } else if 0 <= j.n < |order| {
        assert b[j.n - from] == j;
      }
    }
    assert Elements(a) == NewIds(info) && Elements(b) == TriedIds(info);
    IdsDistinct(0, from);
    IdsDistinct(from, |order| - from);
    NoRepeatsCount(a);
    NoRepeatsCount(b);
  }

  lemma IdsDistinct(a: nat, n: nat)
    ensures NoRepeats(IdsFrom(a, n)) && |IdsFrom(a, n)| == n
  {
  }

  lemma TriedRebuilt(env: Env, s: Tables, t: Tables, order: seq<Id>, from: nat)
    requires TriedOk(env, s) && Ordered(s, order, from) && SameEntries(s, order, t.info)
    requires SameSlots(order, s.triedTable, t.triedTable)
    requires Numbered(t, 0, |order|)
    ensures TriedOk(env, t)
  {
    NumberedKeys(t, 0, |order|);
    OrderedParts(s, order, from);
    hide Numbered, Ordered, TriedOk, SameEntries, SameSlots, NoRepeats;
    forall j | j in t.info && t.info[j].inTried
      ensures Find(t.triedTable, t.info[j].TriedSlot(env)) == Some(j)
    {
      TriedEntryBack(env, s, t, order, j);
    }
    forall slot | slot in t.triedTable
      ensures t.triedTable[slot] in t.info && t.info[t.triedTable[slot]].inTried
      ensures t.info[t.triedTable[slot]].TriedSlot(env) == slot
    {
      TriedSlotBack(env, s, t, order, slot);
    }
    TriedIntro(env, t);
  }

  lemma TriedIntro(env: Env, t: Tables)
    requires forall j :: j in t.info && t.info[j].inTried ==> Find(t.triedTable, t.info[j].TriedSlot(env)) == Some(j)
    requires forall slot :: slot in t.triedTable ==>
      && t.triedTable[slot] in t.info && t.info[t.triedTable[slot]].inTried
      && t.info[t.triedTable[slot]].TriedSlot(env) == slot
    ensures TriedOk(env, t)
  {
  }

  lemma TriedEntryBack(env: Env, s: Tables, t: Tables, order: seq<Id>, j: Id)
    requires TriedOk(env, s) && NoRepeats(order) && SameEntries(s, order, t.info)
    requires SameSlots(order, s.triedTable, t.triedTable)
    requires j in t.info && t.info[j].inTried
    ensures Find(t.triedTable, t.info[j].TriedSlot(env)) == Some(j)
  {
    var id := order[j.n];
    assert SameEntry(s.info[id], t.info[j]);
    var slot := t.info[j].TriedSlot(env);
    assert Find(s.triedTable, slot) == Some(id);
    assert order[t.triedTable[slot].n] == id;
  }

  lemma TriedSlotBack(env: Env, s: Tables, t: Tables, order: seq<Id>, slot: Slot)
    requires TriedOk(env, s) && SameEntries(s, order, t.info) && SameSlots(order, s.triedTable, t.triedTable)
    requires (forall j :: j in t.info <==> 0 <= j.n < |order|) && slot in t.triedTable
    ensures t.triedTable[slot] in t.info && t.info[t.triedTable[slot]].inTried
    ensures t.info[t.triedTable[slot]].TriedSlot(env) == slot
  {
    var j := t.triedTable[slot];
    assert SameEntry(s.info[order[j.n]], t.info[j]);
  }

  lemma NumberedKeys(t: Tables, base: int, n: int)
    requires Numbered(t, base, n)
    ensures forall j :: j in t.info <==> base <= j.n < n
  {
  }

  lemma NewRebuilt(env: Env, s: Tables, t: Tables, order: seq<Id>)
    requires NewOk(env, s) && SameEntries(s, order, t.info) && SameSlots(order, s.newTable, t.newTable)
    requires Numbered(t, 0, |order|)
    ensures NewOk(env, t)
  {
    NumberedKeys(t, 0, |order|);
    hide Numbered;
    forall slot | slot in t.newTable
      ensures slot.bucket < NEW_BUCKET_COUNT && t.newTable[slot] in t.info && !t.info[t.newTable[slot]].inTried
      ensures t.info[t.newTable[slot]].PlaceIn(env, slot.bucket) == slot
    {
      var j := t.newTable[slot];
      assert j in t.info;
      assert SameEntry(s.info[order[j.n]], t.info[j]);
    }
  }

  lemma RefsRebuilt(s: Tables, t: Tables, order: seq<Id>)
    requires RefsOk(s, {}) && NoRepeats(order) && SameEntries(s, order, t.info)
    requires SameSlots(order, s.newTable, t.newTable)
    ensures RefsOk(t, {})
  {
    hide NoRepeats, SameSlots, Slots;
    forall j | j in t.info
      ensures t.info[j].refCount == |Slots(t.newTable, j)| <= NEW_BUCKETS_PER_ADDRESS
      ensures t.info[j].inTried ==> t.info[j].refCount == 0
      ensures !t.info[j].inTried ==> t.info[j].refCount != 0
    {
      SlotsSame(order, s.newTable, t.newTable, j.n);
      assert SameEntry(s.info[order[j.n]], t.info[j]);
    }
  }

  lemma TimesRebuilt(s: Tables, t: Tables, order: seq<Id>)
    requires TimesOk(s) && SameEntries(s, order, t.info)
    ensures TimesOk(t)
  {
  }

  lemma MapsRebuilt(s: Tables, t: Tables, order: seq<Id>)
    requires Indexed(t.info, t.ids) && Numbered(t, 0, |order|) && t.idCount == |order|
    ensures MapsOk(t)
  {
  }

  /** The loaded tables pass every check. */
  lemma ReloadedInv(env: Env, s: Tables, t: Tables)
    requires Inv(env, s) && Reloaded(s, t) && Indexed(t.info, t.ids) && t.idCount == |Order(s)|
    ensures Inv(env, t)
  {
    hide *;
    OrderIs(env, s);
    InvParts(env, s);
    ReloadedParts(s, t);
    var order := Order(s);
    OrderedParts(s, order, |News(s)|);
    NumberedKeys(t, 0, |order|);
    NumberedRandom(t, 0, |order|);
    MapsRebuilt(s, t, order);
    TriedRebuilt(env, s, t, order, |News(s)|);
    NewRebuilt(env, s, t, order);
    RefsRebuilt(s, t, order);
    CountsRebuilt(s, order, t.info, |News(s)|);
    TimesRebuilt(s, t, order);
    CountsIntro(s, t);
    InvIntro(env, t);
  }

  lemma OrderedParts(s: Tables, order: seq<Id>, from: nat)
    requires Ordered(s, order, from)
    ensures NoRepeats(order)
  {
  }

  lemma CountsIntro(s: Tables, t: Tables)
    requires |NewIds(t.info)| == s.nNew && |TriedIds(t.info)| == s.nTried && Reloaded(s, t)
    ensures CountsOk(t, 0)
  {
  }

  lemma InvIntro(env: Env, t: Tables)
    requires MapsOk(t) && RandomOk(t) && TriedOk(env, t) && NewOk(env, t) && RefsOk(t, {}) && CountsOk(t, 0)
    requires TimesOk(t)
    ensures Inv(env, t)
  {
  }

  // ---------------------------------------------------------------------
  // Reading one entry

  lemma NoSlots(table: Table, j: Id)
    requires table.Keys == {}
    ensures Slots(table, j) == {}
  {
  }

  /** One entry more, none of the slots of the new table having been filled yet. */
  lemma EntryLoads(env: Env, s: Tables, t: Tables, n: nat, inTried: bool)
    requires Inv(env, s) && Loading(env, s, t, n, {}) && n < |Order(s)| && (inTried <==> n >= |News(s)|)
    ensures Order(s)[n] in s.info
    ensures var u := TakeEntry(t, n, RecordOf(s.info[Order(s)[n]]), inTried);
      && Loaded(s, Order(s), u, n + 1) && Flagged(u.info, |News(s)|)
      && Placed(s, Order(s), u.newTable, {}) && RefsCounted(u.info, u.newTable)
  {
    hide *;
    OrderIs(env, s);
    InvParts(env, s);
    LoadingParts(env, s, t, n, {});
    OrderedAt(s, Order(s), |News(s)|, n);
    var r := RecordOf(s.info[Order(s)[n]]);
    TakeLoads(s, Order(s), t, n, inTried);
    LoadedParts(s, Order(s), t, n);
    NumberedKeys(t, 0, n);
    PlacedNone(s, Order(s), t.newTable);
    TakeIs(t, n, r, inTried);
    TakeFlags(t.info, t.newTable, Id(n), InfoOf(r, |t.random|, inTried), |News(s)|);
  }

  lemma OrderedAt(s: Tables, order: seq<Id>, from: nat, n: nat)
    requires Ordered(s, order, from) && n < |order|
    ensures order[n] in s.info && NoRepeats(order)
  {
  }

  lemma PlacedNone(s: Tables, order: seq<Id>, table: Table)
    requires Placed(s, order, table, {})
    ensures table.Keys == {}
  {
  }

  lemma TakeFlags(info: map<Id, Info>, table: Table, j: Id, i: Info, from: nat)
    requires Flagged(info, from) && RefsCounted(info, table) && table.Keys == {} && j !in info
    requires i.refCount == 0 && (i.inTried <==> j.n >= from)
    ensures Flagged(info[j := i], from) && RefsCounted(info[j := i], table)
  {
    NoSlots(table, j);
  }

  lemma TakeIs(t: Tables, n: int, r: Record, inTried: bool)
    ensures var u := TakeEntry(t, n, r, inTried);
      && u.info == t.info[Id(n) := InfoOf(r, |t.random|, inTried)]
      && u.newTable == t.newTable && u.triedTable == t.triedTable
    ensures var i := InfoOf(r, |t.random|, inTried); i.refCount == 0 && i.inTried == inTried
  {
  }

  lemma NewLoads(env: Env, s: Tables, t: Tables, n: nat)
    requires Inv(env, s) && Loading(env, s, t, n, {}) && n < |News(s)|
    ensures n < |Order(s)| && Order(s)[n] in s.info && Order(s)[n] == News(s)[n]
    ensures Loading(env, s, TakeEntry(t, n, RecordOf(s.info[Order(s)[n]]), false), n + 1, {})
  {
    EntryLoads(env, s, t, n, false);
    LoadingParts(env, s, t, n, {});
    hide News, Inv, Loading, Loaded, Flagged, Placed, RefsCounted;
    var u := TakeEntry(t, n, RecordOf(s.info[Order(s)[n]]), false);
    LoadingIntro(env, s, u, n + 1, {});
  }

  /** The number -1 stands for an empty slot. */
  const NOBODY: int := -1

  function TakeTried(env: Env, t: Tables, n: int, r: Record): Tables {
    var u := TakeEntry(t, n, r, true);
    if n == NOBODY then u else u.(triedTable := t.triedTable[InfoOf(r, 0, true).TriedSlot(env) := Id(n)])
  }

  /** A tried entry is in its slot unless its number is the one that stands for an empty slot; numbers below
      zero are those of tried entries. */
  ghost predicate TriedPlaced(env: Env, t: Tables) {
    && (forall j :: j in t.info && j.n < 0 ==> t.info[j].inTried)
    && (forall j :: j in t.info && t.info[j].inTried && j.n != NOBODY ==>
          Find(t.triedTable, t.info[j].TriedSlot(env)) == Some(j))
    && (forall slot :: slot in t.triedTable ==> t.triedTable[slot].n != NOBODY)
  }

  /** Every tried entry is in its hashed slot. */
  ghost predicate AllPlaced(env: Env, t: Tables) {
    forall j :: j in t.info && t.info[j].inTried ==> Find(t.triedTable, t.info[j].TriedSlot(env)) == Some(j)
  }

  lemma PlacedButNobody(env: Env, t: Tables)
    requires TriedPlaced(env, t)
    ensures AllPlaced(env, t) <==> Id(NOBODY) !in t.info
  {
    if Id(NOBODY) in t.info {
      assert Find(t.triedTable, t.info[Id(NOBODY)].TriedSlot(env)) != Some(Id(NOBODY));
    }
  }

  /** The tried slots that records hash to. */
  function TriedSlots(env: Env, rs: seq<Record>): set<Slot> {
    set r | r in rs :: InfoOf(r, 0, true).TriedSlot(env)
  }

  /** A file announces fewer than zero new entries, and its tried entries fall into so many different slots that
      numbering them from there reaches -1. */
  predicate SlotLost(env: Env, f: Saved) {
    f.nNew < 0 && NatOf(f.nTried) <= |f.trieds| && |TriedSlots(env, f.trieds[..NatOf(f.nTried)])| >= -f.nNew
  }

  /** While numbers below zero are given out, each goes to a slot of its own. */
  ghost predicate Counting(base: int, idCount: int, taken: set<Slot>, slots: set<Slot>) {
    base < 0 ==>
      if idCount < 0 then idCount == base + |slots| && taken == slots else |slots| >= -base
  }

  lemma CountingStep(env: Env, base: int, n: int, taken: set<Slot>, rs: seq<Record>, k: nat)
    requires k < |rs| && Counting(base, n, taken, TriedSlots(env, rs[..k]))
    ensures var slot := InfoOf(rs[k], 0, true).TriedSlot(env);
      Counting(base, if slot in taken then n else n + 1,
               if slot in taken || n == NOBODY then taken else taken + {slot}, TriedSlots(env, rs[..k + 1]))
  {
    var slot := InfoOf(rs[k], 0, true).TriedSlot(env);
    var a, b := TriedSlots(env, rs[..k]), TriedSlots(env, rs[..k + 1]);
    assert b == a + {slot} by {
      assert rs[..k + 1] == rs[..k] + [rs[k]];
    }
    if slot in a {
      assert b == a;
    }
  }

  lemma TakePlaced(env: Env, t: Tables, n: int, r: Record)
    requires TriedPlaced(env, t) && Id(n) !in t.info && InfoOf(r, 0, true).TriedSlot(env) !in t.triedTable
    ensures TriedPlaced(env, TakeTried(env, t, n, r))
  {
    var u := TakeTried(env, t, n, r);
    assert u.info[Id(n)].TriedSlot(env) == InfoOf(r, 0, true).TriedSlot(env);
  }

  lemma NewPlaced(env: Env, t: Tables, n: int, r: Record)
    requires TriedPlaced(env, t) && Id(n) !in t.info && n >= 0
    ensures TriedPlaced(env, TakeEntry(t, n, r, false))
  {
  }

  lemma ReferencePlaced(env: Env, t: Tables, j: Id, slot: Slot)
    requires TriedPlaced(env, t) && j in t.info
    ensures TriedPlaced(env, AddReference(t, j, slot))
  {
  }

  lemma DeletePlaced(env: Env, s: Tables, id: Id)
    requires RandomOk(s) && id in s.info && !s.info[id].inTried && s.info[id].refCount == 0 && TriedPlaced(env, s)
    ensures CanDelete(s, id) && TriedPlaced(env, Delete(s, id))
  {
    DeleteRandom(s, id);
    var p, q := s.info[id].randomPos, |s.random| - 1;
    SwapSame(s, p, q);
    var t := SwapRandom(s, p, q);
    hide SwapRandom;
    DeleteIsCut(s, id);
    hide RandomOk, Delete;
  }

  lemma PlacedEq(env: Env, t: Tables, u: Tables)
    requires TriedPlaced(env, t) && u.info == t.info && u.triedTable == t.triedTable
    ensures TriedPlaced(env, u)
  {
  }

  // Which records get the slots

  /** The slot a record asks for: that of a tried entry, or the one in the new table by its first source. */
  function SlotFor(env: Env, r: Record, inTried: bool): Slot {
    if inTried then InfoOf(r, 0, true).TriedSlot(env) else InfoOf(r, 0, false).NewSlot(env, r.source)
  }

  ghost predicate Asked(env: Env, rs: seq<Record>, inTried: bool, slot: Slot) {
    exists k :: 0 <= k < |rs| && SlotFor(env, rs[k], inTried) == slot
  }

  ghost predicate First(env: Env, rs: seq<Record>, inTried: bool, k: nat)
    requires k < |rs|
  {
    forall j :: 0 <= j < k ==> SlotFor(env, rs[j], inTried) != SlotFor(env, rs[k], inTried)
  }

  /** The entry that was read from a record; a new one has one reference. */
  predicate Copied(i: Info, r: Record, inTried: bool) {
    i == InfoOf(r, i.randomPos, inTried).(refCount := i.refCount) && (inTried || i.refCount == 1)
  }

  /** Exactly the slots that records ask for are taken, each by the first record that asks for it. */
  ghost predicate Served(env: Env, rs: seq<Record>, inTried: bool, table: map<Slot, Id>, info: map<Id, Info>) {
    && (forall slot :: slot in table ==> Asked(env, rs, inTried, slot))
    && (forall k :: 0 <= k < |rs| ==> SlotFor(env, rs[k], inTried) in table)
    && (forall k :: 0 <= k < |rs| && First(env, rs, inTried, k) ==>
          var id := table[SlotFor(env, rs[k], inTried)]; id in info && Copied(info[id], rs[k], inTried))
  }

  /** An entry of the new table with references is in a slot. */
  ghost predicate Seated(table: map<Slot, Id>, info: map<Id, Info>) {
    forall j :: j in info && !info[j].inTried && info[j].refCount != 0 ==>
      exists slot :: slot in table && table[slot] == j
  }

  ghost predicate TriedServed(env: Env, rs: seq<Record>, t: Tables) {
    Served(env, rs, true, t.triedTable, t.info)
  }

  ghost predicate NewServed(env: Env, rs: seq<Record>, t: Tables) {
    Served(env, rs, false, t.newTable, t.info) && Seated(t.newTable, t.info)
  }

  /** One more record: the earlier ones are first as before, and it is first if nobody asked for its slot. */
  lemma FirstMore(env: Env, rs: seq<Record>, r: Record, inTried: bool, k: nat)
    requires k <= |rs|
    ensures k < |rs| ==> (rs + [r])[k] == rs[k] && (First(env, rs + [r], inTried, k) ==> First(env, rs, inTried, k))
    ensures Asked(env, rs, inTried, SlotFor(env, r, inTried)) ==> !First(env, rs + [r], inTried, |rs|)
  {
    hide SlotFor;
    var all := rs + [r];
    assert forall j :: 0 <= j < |rs| ==> all[j] == rs[j];
  }

  lemma AskedMore(env: Env, rs: seq<Record>, r: Record, inTried: bool, slot: Slot)
    requires Asked(env, rs, inTried, slot) || slot == SlotFor(env, r, inTried)
    ensures Asked(env, rs + [r], inTried, slot)
  {
    hide SlotFor;
    var all := rs + [r];
    if slot == SlotFor(env, r, inTried) {
      assert all[|rs|] == r;
    } else {
      var k :| 0 <= k < |rs| && SlotFor(env, rs[k], inTried) == slot;
      assert all[k] == rs[k];
    }
  }

  /** A record whose slot is taken changes nothing for the others. */
  lemma ServedRefused(env: Env, rs: seq<Record>, r: Record, inTried: bool, table: map<Slot, Id>, info: map<Id, Info>)
    requires Served(env, rs, inTried, table, info) && SlotFor(env, r, inTried) in table
    ensures Served(env, rs + [r], inTried, table, info)
  {
    hide Copied, SlotFor, First, Asked;
    var all := rs + [r];
    forall k | 0 <= k < |all| && First(env, all, inTried, k)
      ensures k < |rs| && all[k] == rs[k] && First(env, rs, inTried, k)
    {
      FirstMore(env, rs, r, inTried, k);
    }
    forall slot | slot in table
      ensures Asked(env, all, inTried, slot)
    {
      AskedMore(env, rs, r, inTried, slot);
    }
  }

  /** A record whose slot is free gets it. */
  lemma ServedNext(env: Env, rs: seq<Record>, r: Record, inTried: bool, table: map<Slot, Id>, info: map<Id, Info>,
                   id: Id, i: Info)
    requires Served(env, rs, inTried, table, info) && SlotFor(env, r, inTried) !in table
    requires id !in info && Copied(i, r, inTried)
    ensures Served(env, rs + [r], inTried, table[SlotFor(env, r, inTried) := id], info[id := i])
  {
    hide Copied, SlotFor, First, Asked;
    var all, now := rs + [r], table[SlotFor(env, r, inTried) := id];
    forall k | 0 <= k < |rs|
      ensures all[k] == rs[k] && (First(env, all, inTried, k) ==> First(env, rs, inTried, k))
    {
      FirstMore(env, rs, r, inTried, k);
    }
    forall slot | slot in now
      ensures Asked(env, all, inTried, slot)
    {
      AskedMore(env, rs, r, inTried, slot);
    }
  }

  lemma ServedMore(env: Env, rs: seq<Record>, inTried: bool, table: map<Slot, Id>, info: map<Id, Info>,
                   now: map<Id, Info>)
    requires Served(env, rs, inTried, table, info)
    requires forall j :: j in info && (inTried ==> info[j].inTried) && (!inTried ==> info[j].refCount == 1) ==>
      j in now && now[j] == info[j].(randomPos := now[j].randomPos, refCount := now[j].refCount)
      && (!inTried ==> now[j].refCount == 1)
    ensures Served(env, rs, inTried, table, now)
  {
    hide SlotFor, First, Asked;
    forall k | 0 <= k < |rs| && First(env, rs, inTried, k)
      ensures var id := table[SlotFor(env, rs[k], inTried)]; id in now && Copied(now[id], rs[k], inTried)
    {
      var id := table[SlotFor(env, rs[k], inTried)];
      assert Copied(info[id], rs[k], inTried);
    }
  }

  /** No entry is lost or changed, and those that are added are tried ones. */
  ghost predicate OnlyTriedAdded(was: map<Id, Info>, now: map<Id, Info>) {
    && (forall j :: j in was ==> j in now && now[j] == was[j])
    && (forall j :: j in now && j !in was ==> now[j].inTried)
  }

  /** The same entries but for their numbers of references. */
  ghost predicate OnlyReferred(was: map<Id, Info>, now: map<Id, Info>) {
    was.Keys == now.Keys && forall j :: j in now ==> now[j] == was[j].(refCount := now[j].refCount)
  }

  lemma NewServedMore(env: Env, rs: seq<Record>, t: Tables, u: Tables)
    requires NewServed(env, rs, t) && u.newTable == t.newTable && OnlyTriedAdded(t.info, u.info)
    ensures NewServed(env, rs, u)
  {
    ServedMore(env, rs, false, t.newTable, t.info, u.info);
    hide Served;
  }

  lemma TriedServedReferred(env: Env, rs: seq<Record>, t: Tables, u: Tables)
    requires TriedServed(env, rs, t) && u.triedTable == t.triedTable && OnlyReferred(t.info, u.info)
    ensures TriedServed(env, rs, u)
  {
    ServedMore(env, rs, true, t.triedTable, t.info, u.info);
  }

  lemma NewServedStep(env: Env, rs: seq<Record>, t: Tables, r: Record)
    requires NewServed(env, rs, t) && Id(|rs|) !in t.info
    ensures var id, slot, u := Id(|rs|), SlotFor(env, r, false), TakeEntry(t, |rs|, r, false);
      NewServed(env, rs + [r], if slot in t.newTable then u else AddReference(u, id, slot))
  {
    var id, slot, u := Id(|rs|), SlotFor(env, r, false), TakeEntry(t, |rs|, r, false);
    hide SlotFor, Served;
    if slot in t.newTable {
      ServedMore(env, rs, false, t.newTable, t.info, u.info);
      ServedRefused(env, rs, r, false, t.newTable, u.info);
    } else {
      var v := AddReference(u, id, slot);
      ServedNext(env, rs, r, false, t.newTable, t.info, id, v.info[id]);
      assert v.info == t.info[id := v.info[id]];
      SeatedNext(t.newTable, t.info, slot, id, v.info[id]);
    }
  }

  lemma SeatedNext(table: map<Slot, Id>, info: map<Id, Info>, slot: Slot, id: Id, i: Info)
    requires Seated(table, info) && slot !in table
    ensures Seated(table[slot := id], info[id := i])
  {
    var now := table[slot := id];
    assert now[slot] == id;
    forall j | j in info && !info[j].inTried && info[j].refCount != 0
      ensures exists x :: x in now && now[x] == j
    {
      var x :| x in table && table[x] == j;
      assert now[x] == j;
    }
  }

  lemma TriedServedStep(env: Env, rs: seq<Record>, t: Tables, n: int, r: Record)
    requires TriedServed(env, rs, t)
    ensures SlotFor(env, r, true) in t.triedTable ==> TriedServed(env, rs + [r], t)
    ensures SlotFor(env, r, true) !in t.triedTable && Id(n) !in t.info && n != NOBODY ==>
      TriedServed(env, rs + [r], TakeTried(env, t, n, r))
  {
    if SlotFor(env, r, true) in t.triedTable {
      ServedRefused(env, rs, r, true, t.triedTable, t.info);
    } else if Id(n) !in t.info && n != NOBODY {
      ServedNext(env, rs, r, true, t.triedTable, t.info, Id(n), InfoOf(r, |t.random|, true));
    }
  }

  lemma NewServedPruned(env: Env, rs: seq<Record>, t: Tables, u: Tables, n: int)
    requires NewServed(env, rs, t) && u.newTable == t.newTable && Pruned(t.info, u.info, n)
    ensures NewServed(env, rs, u)
  {
    ServedMore(env, rs, false, t.newTable, t.info, u.info);
    hide Served;
  }

  lemma TriedServedPruned(env: Env, rs: seq<Record>, t: Tables, u: Tables, n: int)
    requires TriedServed(env, rs, t) && u.triedTable == t.triedTable && Pruned(t.info, u.info, n)
    ensures TriedServed(env, rs, u)
  {
    ServedMore(env, rs, true, t.triedTable, t.info, u.info);
  }

  lemma NoneServed(env: Env, t: Tables)
    requires t.info == map[] && t.newTable == map[]
    ensures NewServed(env, [], t)
  {
  }

  lemma NoneTriedServed(env: Env, t: Tables)
    requires t.triedTable == map[]
    ensures TriedServed(env, [], t)
  {
  }

  lemma NewServedEq(env: Env, rs: seq<Record>, t: Tables, u: Tables)
    requires NewServed(env, rs, t) && u.info == t.info && u.newTable == t.newTable
    ensures NewServed(env, rs, u)
  {
    hide Served, Seated;
  }

  lemma TriedServedEq(env: Env, rs: seq<Record>, t: Tables, u: Tables)
    requires TriedServed(env, rs, t) && u.info == t.info && u.triedTable == t.triedTable
    ensures TriedServed(env, rs, u)
  {
    hide Served;
  }

  lemma SlotAsked(env: Env, t: Tables, n: int, r: Record)
    ensures Id(n) in TakeEntry(t, n, r, false).info
    ensures TakeEntry(t, n, r, false).info[Id(n)].NewSlot(env, r.source) == SlotFor(env, r, false)
  {
  }

  lemma TriedAdds(env: Env, t: Tables, n: int, r: Record)
    requires Id(n) !in t.info
    ensures TakeTried(env, t, n, r).newTable == t.newTable
    ensures OnlyTriedAdded(t.info, TakeTried(env, t, n, r).info)
  {
  }

  lemma OnlyTriedTrans(a: map<Id, Info>, b: map<Id, Info>, c: map<Id, Info>)
    requires OnlyTriedAdded(a, b) && OnlyTriedAdded(b, c)
    ensures OnlyTriedAdded(a, c)
  {
  }

  lemma OnlyReferredTrans(a: map<Id, Info>, b: map<Id, Info>, c: map<Id, Info>)
    requires OnlyReferred(a, b) && OnlyReferred(b, c)
    ensures OnlyReferred(a, c)
  {
  }

  lemma ReferenceRefers(t: Tables, j: Id, slot: Slot)
    requires j in t.info
    ensures OnlyReferred(t.info, AddReference(t, j, slot).info)
  {
  }

  lemma NothingChanged(info: map<Id, Info>)
    ensures OnlyTriedAdded(info, info) && OnlyReferred(info, info)
  {
  }

  lemma TriedLoads(env: Env, s: Tables, t: Tables, n: nat)
    requires Inv(env, s) && Loading(env, s, t, n, {}) && |News(s)| <= n < |Order(s)|
    ensures Order(s)[n] in s.info && Order(s)[n] == Trieds(s)[n - |News(s)|]
    ensures var r := RecordOf(s.info[Order(s)[n]]);
      InfoOf(r, 0, true).TriedSlot(env) !in t.triedTable && Loading(env, s, TakeTried(env, t, n, r), n + 1, {})
  {
    EntryLoads(env, s, t, n, true);
    LoadingParts(env, s, t, n, {});
    OrderIs(env, s);
    InvParts(env, s);
    hide News, Trieds, Inv, Loading, Loaded, Flagged, Placed, RefsCounted, TriedFilled, MapsOk, RefsOk, TriedOk;
    hide NewOk, RandomOk, NoRepeats;
    var r := RecordOf(s.info[Order(s)[n]]);
    OrderedParts(s, Order(s), |News(s)|);
    FillTried(env, s, Order(s), t.triedTable, |News(s)|, n);
    var u, v := TakeEntry(t, n, r, true), TakeTried(env, t, n, r);
    TakeTriedAt(env, t, n, r);
    hide TakeTried, TakeEntry;
    LoadedSame(s, Order(s), u, v, n + 1);
    LoadingIntro(env, s, v, n + 1, {});
  }

  lemma TakeTriedAt(env: Env, t: Tables, n: nat, r: Record)
    ensures var u, v := TakeEntry(t, n, r, true), TakeTried(env, t, n, r);
      && v.info == u.info && v.ids == u.ids && v.random == u.random && v.newTable == u.newTable
      && v.triedTable == t.triedTable[InfoOf(r, 0, true).TriedSlot(env) := Id(n)]
  {
  }

  lemma LoadedSame(s: Tables, order: seq<Id>, u: Tables, v: Tables, n: nat)
    requires Loaded(s, order, u, n) && v.info == u.info && v.ids == u.ids && v.random == u.random
    ensures Loaded(s, order, v, n)
  {
  }

  lemma NothingLoaded(env: Env, s: Tables, t: Tables)
    requires Inv(env, s) && t.info == map[] && t.ids == map[] && t.random == [] && t.triedTable == map[]
    requires t.newTable == map[]
    ensures Loading(env, s, t, 0, {})
  {
    OrderIs(env, s);
  }

  lemma RandomPlace(s: Tables, id: Id)
    requires RandomOk(s) && id in s.info
    ensures 0 <= s.info[id].randomPos < |s.random| && s.random[s.info[id].randomPos] == id
  {
  }

  lemma DeleteFlags(s: Tables, id: Id)
    requires CanDelete(s, id)
    ensures Delete(s, id).info.Keys == s.info.Keys - {id}
    ensures forall x :: x in Delete(s, id).info ==>
      Delete(s, id).info[x] == s.info[x].(randomPos := Delete(s, id).info[x].randomPos)
  {
    SwapSame(s, s.info[id].randomPos, |s.random| - 1);
    hide SwapRandom;
  }

  lemma DeleteRandom(s: Tables, id: Id)
    requires RandomOk(s) && id in s.info && !s.info[id].inTried && s.info[id].refCount == 0
    ensures CanDelete(s, id) && RandomOk(Delete(s, id)) && Delete(s, id).info.Keys == s.info.Keys - {id}
    ensures forall x :: x in Delete(s, id).info ==>
      Delete(s, id).info[x] == s.info[x].(randomPos := Delete(s, id).info[x].randomPos)
  {
    hide RandomOk, SwapRandom, Delete, CutLast;
    var p, q := s.info[id].randomPos, |s.random| - 1;
    RandomPlace(s, id);
    SwapRandomOrder(s, p, q);
    DeleteIsCut(s, id);
    SwapSize(s, p, q);
    CutRandom(SwapRandom(s, p, q), id);
    DeleteFlags(s, id);
  }

  lemma SwapSize(s: Tables, p: int, q: int)
    requires CanSwap(s, p, q)
    ensures |SwapRandom(s, p, q).random| == |s.random|
  {
  }

  // ---------------------------------------------------------------------
  // Saving

  ghost predicate Written(info: map<Id, Info>, list: seq<Id>, records: seq<Record>) {
    |records| == |list| && forall k :: 0 <= k < |list| ==> list[k] in info && records[k] == RecordOf(info[list[k]])
  }

  lemma WrittenIs(info: map<Id, Info>, list: seq<Id>, records: seq<Record>)
    requires Written(info, list, records) && forall id :: id in list ==> id in info
    ensures records == Records(info, list)
  {
  }

  /** The assertion in the loop: as long as there is an entry to write, fewer have been written than counted. */
  lemma BelowCount(env: Env, s: Tables, n: nat)
    requires Inv(env, s) && n < s.idCount
    ensures IsNew(s.info, Id(n)) ==> |NewList(s.info, n)| < s.nNew
    ensures IsTried(s.info, Id(n)) ==> |TriedList(s.info, n)| < s.nTried
  {
    OrderIs(env, s);
    NewListGrows(s.info, n, s.idCount);
    TriedListGrows(s.info, n, s.idCount);
    hide Inv, Ordered, Order;
  }

  lemma {:induction false} NewListGrows(info: map<Id, Info>, n: nat, m: nat)
    requires n <= m
    ensures |NewList(info, n)| <= |NewList(info, m)|
    ensures n < m && IsNew(info, Id(n)) ==> |NewList(info, n)| < |NewList(info, m)|
    decreases m
  {
    hide IsNew;
    if n < m {
      NewListGrows(info, n, m - 1);
    }
  }

  lemma {:induction false} TriedListGrows(info: map<Id, Info>, n: nat, m: nat)
    requires n <= m
    ensures |TriedList(info, n)| <= |TriedList(info, m)|
    ensures n < m && IsTried(info, Id(n)) ==> |TriedList(info, n)| < |TriedList(info, m)|
    decreases m
  {
    hide IsTried;
    if n < m {
      TriedListGrows(info, n, m - 1);
    }
  }

  lemma IdsGiven(env: Env, s: Tables)
    requires Inv(env, s)
    ensures s.idCount >= 0
  {
  }

  lemma NewsWritten(s: Tables, records: seq<Record>)
    requires s.idCount >= 0 && Written(s.info, NewList(s.info, s.idCount), records)
    ensures records == Records(s.info, News(s))
  {
    hide Written, NewList, Records;
    WrittenIs(s.info, News(s), records);
  }

  lemma TriedsWritten(s: Tables, records: seq<Record>)
    requires s.idCount >= 0 && Written(s.info, TriedList(s.info, s.idCount), records)
    ensures records == Records(s.info, Trieds(s))
  {
    hide Written, TriedList, Records;
    WrittenIs(s.info, Trieds(s), records);
  }

  /** Every id below n is given the number of new entries before it. */
  ghost predicate Given(info: map<Id, Info>, unkIds: map<Id, int>, n: int) {
    forall id :: id in info && id.n < n ==> id in unkIds && unkIds[id] == |NewList(info, NatOf(id.n))|
  }

  lemma GivenNext(info: map<Id, Info>, unkIds: map<Id, int>, n: nat)
    requires Given(info, unkIds, n)
    ensures Given(info, if Id(n) in info then unkIds[Id(n) := |NewList(info, n)|] else unkIds, n + 1)
  {
    hide NewList;
  }

  lemma NoneGiven(env: Env, s: Tables)
    requires Inv(env, s)
    ensures Given(s.info, map[], 0)
  {
  }

  lemma NewListNext(info: map<Id, Info>, n: nat)
    ensures NewList(info, 0) == []
    ensures NewList(info, n + 1) == if IsNew(info, Id(n)) then NewList(info, n) + [Id(n)] else NewList(info, n)
  {
  }

  /** The entries with references, in order, and the number given to each. */
  method WriteNew(env: Env, s: Tables) returns (news: seq<Record>, unkIds: map<Id, int>)
    requires Inv(env, s)
    ensures news == Records(s.info, News(s))
    ensures Given(s.info, unkIds, s.idCount)
  {
    hide Inv, Given, NewList, Written, News, Records, RecordOf;
    IdsGiven(env, s);
    NoneGiven(env, s);
    news, unkIds := [], map[];
    var nIds := 0;
    NewListNext(s.info, 0);
    NoneWritten(s.info);
    for n := 0 to s.idCount
      invariant Written(s.info, NewList(s.info, n), news) && nIds == |NewList(s.info, n)|
      invariant Given(s.info, unkIds, n)
    {
      GivenNext(s.info, unkIds, n);
      NewListNext(s.info, n);
      if Id(n) in s.info {
        unkIds := unkIds[Id(n) := nIds];
        if s.info[Id(n)].refCount != 0 {
          BelowCount(env, s, n);
          assert nIds != s.nNew;
          WrittenNext(s.info, NewList(s.info, n), news, Id(n));
          news := news + [RecordOf(s.info[Id(n)])];
          nIds := nIds + 1;
        }
      }
    }
    NewsWritten(s, news);
  }

  lemma NoneWritten(info: map<Id, Info>)
    ensures Written(info, [], [])
  {
  }

  lemma WrittenNext(info: map<Id, Info>, list: seq<Id>, records: seq<Record>, id: Id)
    requires Written(info, list, records) && id in info
    ensures Written(info, list + [id], records + [RecordOf(info[id])])
  {
  }

  lemma TriedListNext(info: map<Id, Info>, n: nat)
    ensures TriedList(info, 0) == []
    ensures TriedList(info, n + 1) == if IsTried(info, Id(n)) then TriedList(info, n) + [Id(n)] else TriedList(info, n)
  {
  }

  method WriteTried(env: Env, s: Tables) returns (trieds: seq<Record>)
    requires Inv(env, s)
    ensures trieds == Records(s.info, Trieds(s))
  {
    hide Inv, TriedList, Written, Trieds, Records, RecordOf;
    IdsGiven(env, s);
    trieds := [];
    var nIds := 0;
    TriedListNext(s.info, 0);
    NoneWritten(s.info);
    for n := 0 to s.idCount
      invariant Written(s.info, TriedList(s.info, n), trieds) && nIds == |TriedList(s.info, n)|
    {
      TriedListNext(s.info, n);
      if Id(n) in s.info && s.info[Id(n)].inTried {
        BelowCount(env, s, n);
        assert nIds != s.nTried;
        WrittenNext(s.info, TriedList(s.info, n), trieds, Id(n));
        trieds := trieds + [RecordOf(s.info[Id(n)])];
        nIds := nIds + 1;
      }
    }
    TriedsWritten(s, trieds);
  }

  /** The numbers of the entries in a bucket, by position. */
  method WriteBucket(env: Env, s: Tables, unkIds: map<Id, int>, bucket: nat) returns (indexes: seq<int>)
    requires Inv(env, s)
    requires Given(s.info, unkIds, s.idCount)
    ensures indexes == BucketIndexes(s, bucket)
  {
    hide Inv, NewList;
    indexes := [];
    for i := 0 to BUCKET_SIZE
      invariant |indexes| == |Occupied(s.newTable, bucket, i)|
      invariant forall k :: 0 <= k < |indexes| ==> Occupied(s.newTable, bucket, i)[k] in s.newTable
      invariant forall k :: 0 <= k < |indexes| ==>
        indexes[k] == |NewList(s.info, NatOf(s.newTable[Occupied(s.newTable, bucket, i)[k]].n))|
    {
      if Slot(bucket, i) in s.newTable {
        SlotKnown(env, s, Slot(bucket, i));
        indexes := indexes + [unkIds[s.newTable[Slot(bucket, i)]]];
      }
    }
    OccupiedFacts(s.newTable, bucket, BUCKET_SIZE);
  }

  lemma SlotKnown(env: Env, s: Tables, slot: Slot)
    requires Inv(env, s) && slot in s.newTable
    ensures s.newTable[slot] in s.info && s.newTable[slot].n < s.idCount
  {
  }

  method Serialize(m: CAddrMan) returns (f: Saved)
    requires Inv(m.env, m.Value())
    ensures f == Stored(m.Value())
  {
    hide Inv, News, Trieds, BucketIndexes, NewList, Records;
    var s := m.Value();
    var news, unkIds := WriteNew(m.env, s);
    var trieds := WriteTried(m.env, s);
    var buckets: seq<seq<int>> := [];
    for b := 0 to NEW_BUCKET_COUNT
      invariant |buckets| == b && forall k :: 0 <= k < b ==> buckets[k] == BucketIndexes(s, k)
    {
      var indexes := WriteBucket(m.env, s, unkIds, b);
      buckets := buckets + [indexes];
    }
    f := Saved(1, 32, s.nNew, s.nTried, Flip30(NEW_BUCKET_COUNT), news, trieds, buckets);
  }

  // ---------------------------------------------------------------------
  // Loading

  /** The file was written from consistent tables under the same key. */
  ghost predicate SavedFrom(env: Env, f: Saved, s: Tables) {
    Inv(env, s) && f == Stored(s)
  }

  lemma SavedFacts(env: Env, f: Saved, s: Tables)
    requires SavedFrom(env, f, s)
    ensures f.version == 1 && f.keySize == 32 && Flip30(f.uBuckets) == NEW_BUCKET_COUNT == |f.buckets|
    ensures f.nNew == s.nNew == |News(s)| == |f.news| && f.nTried == s.nTried == |Trieds(s)| == |f.trieds|
    ensures |Order(s)| == f.nNew + f.nTried
    ensures forall k :: 0 <= k < |f.news| ==> News(s)[k] in s.info && f.news[k] == RecordOf(s.info[News(s)[k]])
    ensures forall k :: 0 <= k < |f.trieds| ==> Trieds(s)[k] in s.info && f.trieds[k] == RecordOf(s.info[Trieds(s)[k]])
    ensures forall b :: 0 <= b < NEW_BUCKET_COUNT ==> f.buckets[b] == BucketIndexes(s, b)
  {
    hide Inv, News, Trieds, BucketIndexes, Ordered, Order, Records;
    OrderIs(env, s);
    RecordsAre(s.info, News(s));
    RecordsAre(s.info, Trieds(s));
    StoredBuckets(s);
  }

  lemma RecordsAre(info: map<Id, Info>, r: seq<Id>)
    requires forall id :: id in r ==> id in info
    ensures |Records(info, r)| == |r|
    ensures forall k :: 0 <= k < |r| ==> r[k] in info && Records(info, r)[k] == RecordOf(info[r[k]])
  {
  }

  lemma StoredBuckets(s: Tables)
    ensures |Stored(s).buckets| == NEW_BUCKET_COUNT && Flip30(Stored(s).uBuckets) == NEW_BUCKET_COUNT
    ensures forall b :: 0 <= b < NEW_BUCKET_COUNT ==> Stored(s).buckets[b] == BucketIndexes(s, b)
  {
    hide News, Trieds, BucketIndexes, Records;
  }

  method TakeIn(m: CAddrMan, n: int, r: Record, inTried: bool)
    modifies m
    ensures m.Value() == TakeEntry(old(m.Value()), n, r, inTried)
  {
    m.info := m.info[Id(n) := InfoOf(r, |m.random|, inTried)];
    m.ids := m.ids[r.service.addr := Id(n)];
    m.random := m.random + [Id(n)];
  }

  method Refer(m: CAddrMan, id: Id, slot: Slot)
    requires id in m.info
    modifies m
    ensures m.Value() == AddReference(old(m.Value()), id, slot)
  {
    m.info := m.info[id := m.info[id].(refCount := m.info[id].refCount + 1)];
    m.newTable := m.newTable[slot := id];
  }

  lemma ReferenceNumbers(t: Tables, j: Id, slot: Slot, base: int, n: int)
    requires Numbered(t, base, n) && j in t.info
    ensures Numbered(AddReference(t, j, slot), base, n)
  {
    hide Numbered;
    ReferenceIs(t, j, slot);
    NumberedSame(t, AddReference(t, j, slot), base, n);
  }

  /** A new entry is numbered; without usable places it gets the one its source leads to, if that is free. */
  method ReadOneNew(m: CAddrMan, r: Record, n: nat, usable: bool, ghost rs: seq<Record>, ghost s: Tables,
                    ghost wf: bool)
    requires Numbered(m.Value(), 0, n) && TriedPlaced(m.env, m.Value())
    requires !usable ==> |rs| == n && NewServed(m.env, rs, m.Value())
    requires wf ==> usable && Inv(m.env, s) && n < |News(s)| && Loading(m.env, s, m.Value(), n, {})
    requires wf ==> News(s)[n] in s.info && r == RecordOf(s.info[News(s)[n]])
    modifies m
    ensures Numbered(m.Value(), 0, n + 1) && TriedPlaced(m.env, m.Value())
    ensures wf ==> Loading(m.env, s, m.Value(), n + 1, {})
    ensures !usable ==> NewServed(m.env, rs + [r], m.Value())
    ensures m.nNew == old(m.nNew) && m.nTried == old(m.nTried) && m.triedTable == old(m.triedTable)
  {
    hide Loading, Numbered, TakeEntry, AddReference, TriedPlaced, Inv, News, Order, RecordOf, NewServed, SlotFor;
    if wf {
      NewLoads(m.env, s, m.Value(), n);
    }
    NumberedKeys(m.Value(), 0, n);
    if !usable {
      NewServedStep(m.env, rs, m.Value(), r);
      SlotAsked(m.env, m.Value(), n, r);
    }
    NewPlaced(m.env, m.Value(), n, r);
    TakeNumbers(m.Value(), 0, n, r, false);
    TakeCounters(m.Value(), n, r, false);
    TakeIn(m, n, r, false);
    if !usable {
      var slot := m.info[Id(n)].NewSlot(m.env, r.source);
      if slot !in m.newTable {
        ReferenceNumbers(m.Value(), Id(n), slot, 0, n + 1);
        ReferenceCounters(m.Value(), Id(n), slot);
        ReferencePlaced(m.env, m.Value(), Id(n), slot);
        Refer(m, Id(n), slot);
      }
    }
  }

  /** The entries of the new table. When their places cannot be used each gets one by its first source. */
  method ReadNew(m: CAddrMan, f: Saved, usable: bool, ghost s: Tables) returns (ok: bool)
    requires m.Value().info == map[] && m.Value().ids == map[] && m.Value().random == []
    requires m.Value().triedTable == map[] && m.Value().newTable == map[]
    modifies m
    ensures ok <==> NatOf(f.nNew) <= |f.news|
    ensures ok ==> Numbered(m.Value(), 0, NatOf(f.nNew)) && TriedPlaced(m.env, m.Value())
    ensures m.triedTable == map[]
    ensures ok && !usable ==> NewServed(m.env, f.news[..NatOf(f.nNew)], m.Value())
    ensures usable && SavedFrom(m.env, f, s) ==> ok && f.nNew >= 0 && Loading(m.env, s, m.Value(), f.nNew, {})
    ensures m.nNew == old(m.nNew) && m.nTried == old(m.nTried)
  {
    hide Loading, Numbered, SavedFrom, Stored, TriedPlaced, Inv, News, Order, RecordOf, NewServed;
    ghost var wf := usable && SavedFrom(m.env, f, s);
    if wf {
      SavedFacts(m.env, f, s);
      SavedInv(m.env, f, s);
      NothingLoaded(m.env, s, m.Value());
    }
    NoneNumbered(m.env, m.Value(), 0);
    NoneServed(m.env, m.Value());
    assert f.news[..0] == [];
    for n := 0 to NatOf(f.nNew)
      invariant Numbered(m.Value(), 0, n) && m.nNew == old(m.nNew) && m.nTried == old(m.nTried)
      invariant TriedPlaced(m.env, m.Value()) && m.triedTable == map[] && n <= |f.news|
      invariant wf ==> Loading(m.env, s, m.Value(), n, {})
      invariant !usable ==> NewServed(m.env, f.news[..n], m.Value())
    {
      if n >= |f.news| {
        return false;
      }
      assert f.news[..n + 1] == f.news[..n] + [f.news[n]];
      ReadOneNew(m, f.news[n], n, usable, f.news[..n], s, wf);
    }
    ok := true;
  }

  lemma SavedInv(env: Env, f: Saved, s: Tables)
    requires SavedFrom(env, f, s)
    ensures Inv(env, s)
  {
  }

  lemma NoneNumbered(env: Env, t: Tables, base: int)
    requires t.info == map[] && t.random == [] && t.triedTable == map[]
    ensures Numbered(t, base, base) && TriedPlaced(env, t)
  {
  }

  lemma TakeCounters(t: Tables, n: int, r: Record, inTried: bool)
    ensures var u := TakeEntry(t, n, r, inTried);
      && u.nNew == t.nNew && u.nTried == t.nTried && u.idCount == t.idCount && Id(n) in u.info
      && u.newTable == t.newTable && u.triedTable == t.triedTable
  {
  }

  lemma ReferenceCounters(t: Tables, j: Id, slot: Slot)
    requires j in t.info
    ensures var u := AddReference(t, j, slot);
      u.nNew == t.nNew && u.nTried == t.nTried && u.idCount == t.idCount && u.triedTable == t.triedTable
  {
  }

  /** A tried entry goes back to its hashed slot; if that is taken, the entry is lost. */
  method ReadOneTried(m: CAddrMan, r: Record, ghost base: int, ghost rs: seq<Record>, ghost s: Tables, ghost wf: bool)
    returns (kept: bool)
    requires Numbered(m.Value(), base, m.idCount) && TriedPlaced(m.env, m.Value())
    requires wf ==> Inv(m.env, s) && |News(s)| <= m.idCount < |Order(s)| && Loading(m.env, s, m.Value(), m.idCount, {})
    requires wf ==> Order(s)[m.idCount] in s.info && r == RecordOf(s.info[Order(s)[m.idCount]])
    modifies m
    ensures Numbered(m.Value(), base, m.idCount) && m.idCount >= old(m.idCount) && TriedPlaced(m.env, m.Value())
    ensures wf ==> kept && m.idCount == old(m.idCount) + 1 && Loading(m.env, s, m.Value(), m.idCount, {})
    ensures m.nNew == old(m.nNew) && m.nTried == old(m.nTried)
    ensures var slot, n, taken := InfoOf(r, 0, true).TriedSlot(m.env), old(m.idCount), old(m.triedTable.Keys);
      && m.idCount == (if slot in taken then n else n + 1) && (kept <==> slot !in taken)
      && m.triedTable.Keys == if slot in taken || n == NOBODY then taken else taken + {slot}
    ensures m.newTable == old(m.newTable) && OnlyTriedAdded(old(m.info), m.info)
    ensures old(TriedServed(m.env, rs, m.Value())) && (kept ==> old(m.idCount) != NOBODY) ==>
      TriedServed(m.env, rs + [r], m.Value())
  {
    hide *;
    ghost var n, t := m.idCount, m.Value();
    var slot := InfoOf(r, 0, true).TriedSlot(m.env);
    if wf {
      TriedLoads(m.env, s, t, n);
    }
    ValueTables(m);
    ValueCounters(m);
    NothingChanged(m.info);
    SlotForTried(m.env, r);
    kept := slot !in m.triedTable;
    if TriedServed(m.env, rs, t) {
      TriedServedStep(m.env, rs, t, n, r);
    }
    if kept {
      NumberedKeys(t, base, n);
      TriedAdds(m.env, t, n, r);
      TakePlaced(m.env, t, n, r);
      TakeNumbers(t, base, n, r, true);
      EnterNext(m, r, slot);
      TakeTriedIs(m.env, t, n, r);
      ghost var v := TakeTried(m.env, t, n, r);
      NumberedEq(TakeEntry(t, n, r, true), m.Value(), base, n + 1);
      PlacedEq(m.env, v, m.Value());
      if wf {
        LoadingEq(m.env, s, v, m.Value(), n + 1, {});
      }
      ValueCounters(m);
      ValueTables(m);
      if TriedServed(m.env, rs + [r], v) {
        TriedServedEq(m.env, rs + [r], v, m.Value());
      }
    }
  }

  lemma ValueTables(m: CAddrMan)
    ensures m.Value().triedTable == m.triedTable && m.Value().newTable == m.newTable && m.Value().info == m.info
  {
  }

  lemma SlotForTried(env: Env, r: Record)
    ensures SlotFor(env, r, true) == InfoOf(r, 0, true).TriedSlot(env)
  {
  }

  lemma ValueCounters(m: CAddrMan)
    ensures m.Value().nNew == m.nNew && m.Value().nTried == m.nTried && m.Value().idCount == m.idCount
  {
  }

  /** The tried entries, in order, numbered from the id count on. */
  method ReadTried(m: CAddrMan, f: Saved, ghost base: int, ghost s: Tables) returns (ok: bool, lost: nat)
    requires Numbered(m.Value(), base, m.idCount) && TriedPlaced(m.env, m.Value())
    requires Counting(base, m.idCount, m.triedTable.Keys, {})
    modifies m
    ensures ok <==> NatOf(f.nTried) <= |f.trieds|
    ensures ok ==> Numbered(m.Value(), base, m.idCount) && m.idCount >= old(m.idCount) && TriedPlaced(m.env, m.Value())
    ensures ok ==> Counting(base, m.idCount, m.triedTable.Keys, TriedSlots(m.env, f.trieds[..NatOf(f.nTried)]))
    ensures m.newTable == old(m.newTable) && OnlyTriedAdded(old(m.info), m.info)
    ensures ok && old(m.triedTable) == map[] && (old(m.idCount) > NOBODY || m.idCount <= NOBODY) ==>
      TriedServed(m.env, f.trieds[..NatOf(f.nTried)], m.Value())
    ensures SavedFrom(m.env, f, s) && old(m.idCount) == f.nNew >= 0 &&
            old(Loading(m.env, s, m.Value(), NatOf(f.nNew), {})) ==>
      ok && lost == 0 && m.idCount == |Order(s)| && Loading(m.env, s, m.Value(), |Order(s)|, {})
    ensures m.nNew == old(m.nNew) && m.nTried == old(m.nTried)
  {
    hide Loading, Numbered, SavedFrom, Stored, News, Trieds, Order, Inv, TriedPlaced, Counting, TriedSlots;
    hide TriedServed, OnlyTriedAdded;
    NoSlotsYet(m.env, f.trieds);
    NothingChanged(m.info);
    assert f.trieds[..0] == [];
    if m.triedTable == map[] {
      NoneTriedServed(m.env, m.Value());
    }
    ghost var wf :=
      SavedFrom(m.env, f, s) && m.idCount == f.nNew >= 0 && Loading(m.env, s, m.Value(), NatOf(f.nNew), {});
    if wf {
      SavedFacts(m.env, f, s);
      SavedInv(m.env, f, s);
    }
    lost := 0;
    for n := 0 to NatOf(f.nTried)
      invariant Numbered(m.Value(), base, m.idCount) && m.nNew == old(m.nNew) && m.nTried == old(m.nTried)
      invariant m.idCount >= old(m.idCount) && TriedPlaced(m.env, m.Value()) && n <= |f.trieds|
      invariant Counting(base, m.idCount, m.triedTable.Keys, TriedSlots(m.env, f.trieds[..n]))
      invariant wf ==> lost == 0 && m.idCount == f.nNew + n && Loading(m.env, s, m.Value(), f.nNew + n, {})
      invariant m.newTable == old(m.newTable) && OnlyTriedAdded(old(m.info), m.info)
      invariant old(m.triedTable) == map[] && (old(m.idCount) > NOBODY || m.idCount <= NOBODY) ==>
        TriedServed(m.env, f.trieds[..n], m.Value())
    {
      if n >= |f.trieds| {
        return false, lost;
      }
      if wf {
        OrderTried(s, m.idCount);
      }
      CountingStep(m.env, base, m.idCount, m.triedTable.Keys, f.trieds, n);
      assert f.trieds[..n + 1] == f.trieds[..n] + [f.trieds[n]];
      ghost var info := m.info;
      var kept := ReadOneTried(m, f.trieds[n], base, f.trieds[..n], s, wf);
      OnlyTriedTrans(old(m.info), info, m.info);
      if !kept {
        lost := lost + 1;
      }
    }
    ok := true;
  }

  lemma NoSlotsYet(env: Env, rs: seq<Record>)
    ensures TriedSlots(env, rs[..0]) == {}
  {
  }

  lemma OrderTried(s: Tables, n: nat)
    requires |News(s)| <= n < |Order(s)|
    ensures n - |News(s)| < |Trieds(s)| && Order(s)[n] == Trieds(s)[n - |News(s)|]
  {
    hide News, Trieds;
  }

  method EnterNext(m: CAddrMan, r: Record, slot: Slot)
    requires slot == InfoOf(r, 0, true).TriedSlot(m.env)
    modifies m
    ensures m.Value() == TakeTried(m.env, old(m.Value()), old(m.idCount), r).(idCount := old(m.idCount) + 1)
  {
    TakeIn(m, m.idCount, r, true);
    if m.idCount != NOBODY {
      m.triedTable := m.triedTable[slot := Id(m.idCount)];
    }
    m.idCount := m.idCount + 1;
  }

  lemma TakeTriedIs(env: Env, t: Tables, n: int, r: Record)
    ensures var u, v := TakeEntry(t, n, r, true), TakeTried(env, t, n, r);
      && v.info == u.info && v.random == u.random && v.nNew == t.nNew && v.nTried == t.nTried
    ensures var slot := InfoOf(r, 0, true).TriedSlot(env);
      TakeTried(env, t, n, r).triedTable.Keys == if n == NOBODY then t.triedTable.Keys else t.triedTable.Keys + {slot}
  {
  }

  lemma NumberedEq(t: Tables, u: Tables, base: int, n: int)
    requires Numbered(t, base, n) && u.info == t.info && u.random == t.random
    ensures Numbered(u, base, n)
  {
  }

  lemma LoadingEq(env: Env, s: Tables, t: Tables, u: Tables, n: nat, done: set<Slot>)
    requires Loading(env, s, t, n, done) && u.info == t.info && u.random == t.random && u.ids == t.ids
    requires u.triedTable == t.triedTable && u.newTable == t.newTable
    ensures Loading(env, s, u, n, done)
  {
    LoadingParts(env, s, t, n, done);
    hide Order, News, TriedFilled, Placed, RefsCounted, Flagged;
    LoadedSame(s, Order(s), t, u, n);
    hide Loaded;
  }

  // The new table's places

  /** The slots of the buckets before b and the first k of bucket b. */
  ghost function Done(s: Tables, b: nat, k: nat): set<Slot>
    requires k <= |Occupied(s.newTable, b, BUCKET_SIZE)|
  {
    set slot | slot in s.newTable && (slot.bucket < b || slot in Occupied(s.newTable, b, BUCKET_SIZE)[..k])
  }

  lemma DoneStep(s: Tables, b: nat, k: nat)
    requires k < |Occupied(s.newTable, b, BUCKET_SIZE)|
    ensures var slot := Occupied(s.newTable, b, BUCKET_SIZE)[k];
      slot in s.newTable && slot.bucket == b && slot !in Done(s, b, k) && Done(s, b, k + 1) == Done(s, b, k) + {slot}
  {
    OccupiedFacts(s.newTable, b, BUCKET_SIZE);
    var list := Occupied(s.newTable, b, BUCKET_SIZE);
    hide Occupied;
    assert list[k] in list;
    assert list[..k + 1] == list[..k] + [list[k]];
  }

  lemma DoneBucket(env: Env, s: Tables, b: nat)
    requires NewOk(env, s)
    ensures Done(s, 0, 0) == {}
    ensures Done(s, b + 1, 0) == Done(s, b, |Occupied(s.newTable, b, BUCKET_SIZE)|)
    ensures Done(s, NEW_BUCKET_COUNT, 0) == s.newTable.Keys
  {
    OccupiedFacts(s.newTable, b, BUCKET_SIZE);
    var list := Occupied(s.newTable, b, BUCKET_SIZE);
    hide Occupied;
    assert list[..|list|] == list;
    forall slot
      ensures slot in Done(s, b + 1, 0) <==> slot in Done(s, b, |list|)
      ensures slot in Done(s, NEW_BUCKET_COUNT, 0) <==> slot in s.newTable.Keys
    {
      if slot in s.newTable {
        assert s.info[s.newTable[slot]].PlaceIn(env, slot.bucket) == slot;
      }
    }
  }

  /** An entry with room for a reference has been given its place in the bucket, if that was free. */
  ghost predicate Admitted(env: Env, t: Tables, u: Tables, id: Id, bucket: nat) {
    id in t.info &&
    (if t.info[id].PlaceIn(env, bucket) !in t.newTable && t.info[id].refCount < NEW_BUCKETS_PER_ADDRESS then
       u == AddReference(t, id, t.info[id].PlaceIn(env, bucket))
     else u == t)
  }

  /** One number from a bucket's list: the entry gets its place in the bucket if that is free. */
  method ReadPlace(m: CAddrMan, bucket: nat, index: int, usable: bool, ghost base: int, n: int)
    requires Numbered(m.Value(), base, n) && base <= 0 && m.nNew <= n && TriedPlaced(m.env, m.Value())
    modifies m
    ensures Numbered(m.Value(), base, n) && m.nNew == old(m.nNew) && m.nTried == old(m.nTried)
    ensures m.idCount == old(m.idCount)
    ensures TriedPlaced(m.env, m.Value())
    ensures 0 <= index < m.nNew ==> Id(index) in old(m.info)
    ensures if usable && 0 <= index < m.nNew then Admitted(m.env, old(m.Value()), m.Value(), Id(index), bucket)
            else m.Value() == old(m.Value())
    ensures m.triedTable == old(m.triedTable) && OnlyReferred(old(m.info), m.info)
  {
    NumberedKeys(m.Value(), base, n);
    NothingChanged(m.info);
    hide Numbered, TriedPlaced, OnlyReferred;
    if 0 <= index < m.nNew {
      var id := Id(index);
      var slot := m.info[id].PlaceIn(m.env, bucket);
      if usable && slot !in m.newTable && m.info[id].refCount < NEW_BUCKETS_PER_ADDRESS {
        ReferenceNumbers(m.Value(), id, slot, base, n);
        ReferenceCounters(m.Value(), id, slot);
        ReferencePlaced(m.env, m.Value(), id, slot);
        ReferenceRefers(m.Value(), id, slot);
        Refer(m, id, slot);
      }
    }
  }

  method ReadBucket(m: CAddrMan, bucket: nat, indexes: seq<int>, usable: bool, ghost base: int, n: int,
                    ghost s: Tables, ghost wf: bool)
    requires Numbered(m.Value(), base, n) && base <= 0 && m.nNew <= n && TriedPlaced(m.env, m.Value())
    requires wf ==>
      usable && Inv(m.env, s) && n == |Order(s)| && m.nNew == s.nNew && indexes == BucketIndexes(s, bucket)
    requires wf ==> Loading(m.env, s, m.Value(), n, Done(s, bucket, 0))
    modifies m
    ensures Numbered(m.Value(), base, n) && m.nNew == old(m.nNew) && m.nTried == old(m.nTried)
    ensures m.idCount == old(m.idCount)
    ensures TriedPlaced(m.env, m.Value())
    ensures wf ==> Loading(m.env, s, m.Value(), n, Done(s, bucket + 1, 0))
    ensures m.triedTable == old(m.triedTable) && OnlyReferred(old(m.info), m.info)
    ensures !usable ==> m.Value() == old(m.Value())
  {
    hide Numbered, Inv, Loading, Order, Done, AddReference, BucketIndexes, Occupied, NewList, TriedPlaced;
    hide OnlyReferred;
    NothingChanged(m.info);
    ghost var list := Occupied(s.newTable, bucket, BUCKET_SIZE);
    if wf {
      BucketIndexesAre(s, bucket);
    }
    for k := 0 to |indexes|
      invariant Numbered(m.Value(), base, n) && m.nNew == old(m.nNew) && m.nTried == old(m.nTried)
      invariant m.idCount == old(m.idCount)
      invariant TriedPlaced(m.env, m.Value())
      invariant wf ==> k <= |list| && Loading(m.env, s, m.Value(), n, Done(s, bucket, k))
      invariant m.triedTable == old(m.triedTable) && OnlyReferred(old(m.info), m.info)
      invariant !usable ==> m.Value() == old(m.Value())
    {
      if wf {
        DoneStep(s, bucket, k);
        OrderAtLeast(m.env, s);
        PlaceFinds(m.env, s, m.Value(), n, Done(s, bucket, k), list[k]);
        PlaceLoads(m.env, s, m.Value(), n, Done(s, bucket, k), list[k]);
      }
      ghost var info := m.info;
      ReadPlace(m, bucket, indexes[k], usable, base, n);
      OnlyReferredTrans(old(m.info), info, m.info);
    }
    if wf {
      BucketDone(m.env, s, bucket);
    }
  }

  lemma BucketIndexesAre(s: Tables, bucket: nat)
    ensures var list := Occupied(s.newTable, bucket, BUCKET_SIZE);
      && |BucketIndexes(s, bucket)| == |list|
      && (forall k :: 0 <= k < |list| ==>
            list[k] in s.newTable && BucketIndexes(s, bucket)[k] == |NewList(s.info, NatOf(s.newTable[list[k]].n))|)
  {
    OccupiedFacts(s.newTable, bucket, BUCKET_SIZE);
    hide Occupied, NewList;
  }

  lemma OrderAtLeast(env: Env, s: Tables)
    requires Inv(env, s)
    ensures |Order(s)| >= s.nNew
  {
    hide Inv, Ordered, Order;
    OrderIs(env, s);
  }

  lemma BucketDone(env: Env, s: Tables, bucket: nat)
    requires Inv(env, s)
    ensures Done(s, 0, 0) == {} && Done(s, NEW_BUCKET_COUNT, 0) == s.newTable.Keys
    ensures Done(s, bucket + 1, 0) == Done(s, bucket, |Occupied(s.newTable, bucket, BUCKET_SIZE)|)
  {
    InvParts(env, s);
    hide Done, NewOk, Inv, Occupied;
    DoneBucket(env, s, bucket);
  }

  method ReadBuckets(m: CAddrMan, f: Saved, uBuckets: int, usable: bool, ghost base: int, ghost s: Tables,
                     ghost wf: bool)
    returns (ok: bool)
    requires Numbered(m.Value(), base, m.idCount) && base <= 0 && m.nNew <= m.idCount && TriedPlaced(m.env, m.Value())
    requires wf ==>
      usable && uBuckets == NEW_BUCKET_COUNT && SavedFrom(m.env, f, s) && m.idCount == |Order(s)| && m.nNew == s.nNew
    requires wf ==> Loading(m.env, s, m.Value(), |Order(s)|, {})
    modifies m
    ensures ok <==> NatOf(uBuckets) <= |f.buckets|
    ensures ok ==> Numbered(m.Value(), base, m.idCount) && TriedPlaced(m.env, m.Value())
    ensures m.nNew == old(m.nNew) && m.nTried == old(m.nTried) && m.idCount == old(m.idCount)
    ensures wf ==> ok && Loading(m.env, s, m.Value(), |Order(s)|, s.newTable.Keys)
    ensures m.triedTable == old(m.triedTable) && OnlyReferred(old(m.info), m.info)
    ensures !usable ==> m.Value() == old(m.Value())
  {
    hide Numbered, Inv, Loading, Order, Done, Occupied, SavedFrom, News, Trieds, BucketIndexes, TriedPlaced;
    hide OnlyReferred;
    NothingChanged(m.info);
    var n := m.idCount;
    if wf {
      SavedFacts(m.env, f, s);
      SavedInv(m.env, f, s);
      BucketDone(m.env, s, 0);
    }
    for b := 0 to NatOf(uBuckets)
      invariant Numbered(m.Value(), base, n) && m.nNew == old(m.nNew) && m.nTried == old(m.nTried) && m.idCount == n
      invariant TriedPlaced(m.env, m.Value()) && b <= |f.buckets|
      invariant wf ==> Loading(m.env, s, m.Value(), |Order(s)|, Done(s, b, 0))
      invariant m.triedTable == old(m.triedTable) && OnlyReferred(old(m.info), m.info)
      invariant !usable ==> m.Value() == old(m.Value())
    {
      if b >= |f.buckets| {
        return false;
      }
      ghost var info := m.info;
      ReadBucket(m, b, f.buckets[b], usable, base, n, s, wf);
      OnlyReferredTrans(old(m.info), info, m.info);
    }
    ok := true;
  }

  ghost predicate AllUsed(info: map<Id, Info>) {
    forall id :: id in info ==> info[id].inTried || info[id].refCount != 0
  }

  predicate IsUsed(i: Info) {
    i.inTried || i.refCount != 0
  }

  /** Of the entries numbered below n those without a place are gone, and nothing else. */
  ghost predicate Pruned(was: map<Id, Info>, now: map<Id, Info>, n: int) {
    && (forall j :: j in now <==> j in was && (j.n >= n || IsUsed(was[j])))
    && (forall j :: j in now ==> now[j] == was[j].(randomPos := now[j].randomPos))
  }

  lemma PruneStep(env: Env, was: map<Id, Info>, t: Tables, n: int)
    requires RandomOk(t) && Pruned(was, t.info, n) && TriedPlaced(env, t)
    ensures var id := Id(n);
      if id in t.info && !t.info[id].inTried && t.info[id].refCount == 0 then
        && CanDelete(t, id) && RandomOk(AddrTables.Delete(t, id)) && TriedPlaced(env, AddrTables.Delete(t, id))
        && Pruned(was, AddrTables.Delete(t, id).info, n + 1)
      else Pruned(was, t.info, n + 1)
  {
    hide RandomOk, CanDelete, AddrTables.Delete, TriedPlaced;
    var id := Id(n);
    assert forall j: Id :: j.n == n <==> j == id;
    if id in t.info && !t.info[id].inTried && t.info[id].refCount == 0 {
      DeleteRandom(t, id);
      DeletePlaced(env, t, id);
    }
  }

  lemma NumberedPruned(t: Tables, base: int, n: int)
    requires Numbered(t, base, n)
    ensures base <= n && Pruned(t.info, t.info, base)
  {
  }

  lemma PrunedAll(t: Tables, base: int, n: int, now: map<Id, Info>)
    requires Numbered(t, base, n) && Pruned(t.info, now, n)
    ensures AllUsed(now) && forall j :: j in now <==> j in t.info && IsUsed(t.info[j])
    ensures forall j :: j in now ==> j.n >= base
  {
  }

  lemma UsedAt(info: map<Id, Info>, id: Id)
    requires AllUsed(info) && id in info
    ensures info[id].inTried || info[id].refCount != 0
  {
  }

  /** Drops the entries that got no place, and no others. */
  method Prune(m: CAddrMan, base: int)
    requires Numbered(m.Value(), base, m.idCount) && TriedPlaced(m.env, m.Value())
    modifies m
    ensures RandomOk(m.Value()) && AllUsed(m.info) && TriedPlaced(m.env, m.Value())
    ensures forall j :: j in m.info <==> j in old(m.info) && IsUsed(old(m.info)[j])
    ensures forall j :: j in m.info ==> j.n >= base
    ensures old(AllUsed(m.info)) ==> m.Value() == old(m.Value())
    ensures m.newTable == old(m.newTable) && m.triedTable == old(m.triedTable)
    ensures Pruned(old(m.info), m.info, m.idCount)
  {
    hide Numbered, RandomOk, CanDelete, AddrTables.Delete, Pruned, AllUsed, TriedPlaced;
    ghost var was := m.Value();
    NumberedRandom(was, base, m.idCount);
    NumberedPruned(was, base, m.idCount);
    for n := base to m.idCount
      invariant RandomOk(m.Value()) && TriedPlaced(m.env, m.Value()) && m.idCount == was.idCount
      invariant Pruned(was.info, m.info, n) && m.newTable == was.newTable && m.triedTable == was.triedTable
      invariant AllUsed(was.info) ==> m.Value() == was
    {
      var id := Id(n);
      PruneStep(m.env, was.info, m.Value(), n);
      if id in m.info && !m.info[id].inTried && m.info[id].refCount == 0 {
        if AllUsed(was.info) {
          UsedAt(m.info, id);
        }
        DeleteTables(m.Value(), id);
        m.Delete(id);
      }
    }
    PrunedAll(was, base, m.idCount, m.info);
  }

  lemma DeleteTables(t: Tables, id: Id)
    requires CanDelete(t, id)
    ensures var u := AddrTables.Delete(t, id);
      u.idCount == t.idCount && u.newTable == t.newTable && u.triedTable == t.triedTable
  {
  }

  /** As Clear leaves the manager; pending collisions are not touched. */
  method Clear(m: CAddrMan)
    modifies m
    ensures m.Value() == EMPTY.(collisions := old(m.collisions))
  {
    m.random, m.idCount, m.nTried, m.nNew, m.lastGood := [], 0, 0, 0, 1;
    m.newTable, m.triedTable, m.info, m.ids := map[], map[], map[], map[];
  }

  function UBuckets(f: Saved): int {
    if f.version != 0 then Flip30(f.uBuckets) else f.uBuckets
  }

  /** The places in the file are those of this version and of as many buckets. */
  predicate Usable(f: Saved) {
    f.version == 1 && UBuckets(f) == NEW_BUCKET_COUNT
  }

  /** The file has the right key size, no more entries than there are slots, and all that it announces. */
  predicate Readable(f: Saved) {
    && f.keySize == 32 && f.nNew <= NEW_BUCKET_COUNT * BUCKET_SIZE && f.nTried <= TRIED_BUCKET_COUNT * BUCKET_SIZE
    && NatOf(f.nNew) <= |f.news| && NatOf(f.nTried) <= |f.trieds| && NatOf(UBuckets(f)) <= |f.buckets|
  }

  /** The lowest number given to an entry. */
  function Base(f: Saved): int {
    if f.nNew < 0 then f.nNew else 0
  }

  /** Reads the new entries and then the tried ones, numbered on from the announced number of new ones. */
  method ReadEntries(m: CAddrMan, f: Saved, usable: bool, ghost s: Tables, ghost wf: bool) returns (ok: bool)
    requires m.Value().info == map[] && m.Value().ids == map[] && m.Value().random == []
    requires m.Value().triedTable == map[] && m.Value().newTable == map[]
    requires wf ==> usable && SavedFrom(m.env, f, s) && m.nTried == f.nTried
    modifies m
    ensures ok <==> NatOf(f.nNew) <= |f.news| && NatOf(f.nTried) <= |f.trieds|
    ensures ok ==> Numbered(m.Value(), Base(f), m.idCount) && m.idCount >= f.nNew && TriedPlaced(m.env, m.Value())
    ensures ok ==> (f.nNew <= NOBODY < m.idCount <==> SlotLost(m.env, f))
    ensures wf ==> ok && m.idCount == |Order(s)| && Loading(m.env, s, m.Value(), |Order(s)|, {}) && m.nTried == s.nTried
    ensures m.nNew == old(m.nNew)
    ensures ok && !usable ==> NewServed(m.env, f.news[..NatOf(f.nNew)], m.Value())
    ensures ok && !SlotLost(m.env, f) ==> TriedServed(m.env, f.trieds[..NatOf(f.nTried)], m.Value())
  {
    hide Numbered, Inv, Loading, Order, SavedFrom, News, Trieds, TriedPlaced, Counting, TriedSlots, SlotLost;
    hide NewServed, TriedServed, OnlyTriedAdded;
    if wf {
      SavedFacts(m.env, f, s);
      SavedInv(m.env, f, s);
    }
    ok := ReadNew(m, f, usable, s);
    if !ok {
      return;
    }
    ghost var t := m.Value();
    m.idCount := f.nNew;
    Rebased(t, f.nNew);
    NumberedEq(t, m.Value(), Base(f), f.nNew);
    PlacedEq(m.env, t, m.Value());
    if wf {
      LoadingEq(m.env, s, t, m.Value(), f.nNew, {});
    }
    NoneCounted(Base(f), f.nNew, m.triedTable);
    var lost: nat;
    ok, lost := ReadTried(m, f, Base(f), s);
    if !ok {
      return;
    }
    LostExactly(m.env, m.idCount, m.triedTable.Keys, f);
    if !usable {
      NewServedMore(m.env, f.news[..NatOf(f.nNew)], t, m.Value());
    }
    t := m.Value();
    m.nTried := m.nTried - lost;
    if !usable {
      NewServedEq(m.env, f.news[..NatOf(f.nNew)], t, m.Value());
    }
    if !SlotLost(m.env, f) {
      TriedServedEq(m.env, f.trieds[..NatOf(f.nTried)], t, m.Value());
    }
    NumberedEq(t, m.Value(), Base(f), m.idCount);
    PlacedEq(m.env, t, m.Value());
    if wf {
      LoadingEq(m.env, s, t, m.Value(), |Order(s)|, {});
    }
  }

  /** Loading a file. What was saved from consistent tables comes back: the same addresses in the same
      slots of both tables with the same reference counts, consistent again, nothing lost. From any other file
      a tried entry goes without a slot exactly if SlotLost, and otherwise each slot goes to the first record that
      asks for it; so it does in the new table when the places in the file cannot be used. */
  method Unserialize(m: CAddrMan, f: Saved, ghost s: Tables) returns (ok: bool)
    modifies m
    ensures ok <==> Readable(f)
    ensures ok ==> RandomOk(m.Value()) && AllUsed(m.info) && TriedPlaced(m.env, m.Value())
    ensures ok && f.nNew >= 0 ==> forall j :: j in m.info ==> j.n >= 0
    ensures ok ==> (AllPlaced(m.env, m.Value()) <==> !SlotLost(m.env, f))
    ensures ok && !SlotLost(m.env, f) ==> TriedServed(m.env, f.trieds[..NatOf(f.nTried)], m.Value())
    ensures ok && !Usable(f) ==> NewServed(m.env, f.news[..NatOf(f.nNew)], m.Value())
    ensures SavedFrom(m.env, f, s) ==> ok && Reloaded(s, m.Value()) && Inv(m.env, m.Value())
  {
    hide Numbered, Inv, Loading, Order, SavedFrom, News, Trieds, Reloaded, RandomOk, AllUsed, TriedPlaced, AllPlaced;
    hide IsUsed, SlotLost, Flip30, NewServed, TriedServed, OnlyReferred, Pruned;
    Clear(m);
    ghost var wf := SavedFrom(m.env, f, s);
    if wf {
      SavedFacts(m.env, f, s);
      SavedSizes(m.env, f, s);
      SavedInv(m.env, f, s);
    }
    if f.keySize != 32 {
      return false;
    }
    m.nNew, m.nTried := f.nNew, f.nTried;
    var uBuckets := UBuckets(f);
    if m.nNew > NEW_BUCKET_COUNT * BUCKET_SIZE || m.nTried > TRIED_BUCKET_COUNT * BUCKET_SIZE {
      return false;
    }
    var usable := Usable(f);
    ok := ReadEntries(m, f, usable, s, wf);
    if !ok {
      return;
    }
    ghost var t := m.Value();
    ok := ReadBuckets(m, f, uBuckets, usable, Base(f), s, wf);
    if !ok {
      return;
    }
    if !SlotLost(m.env, f) {
      TriedServedReferred(m.env, f.trieds[..NatOf(f.nTried)], t, m.Value());
    }
    t := m.Value();
    if wf {
      AllBack(m.env, s, m.Value());
    }
    NobodyUsed(m.env, m.Value(), Base(f), m.idCount);
    Prune(m, Base(f));
    PlacedButNobody(m.env, m.Value());
    if !usable {
      NewServedPruned(m.env, f.news[..NatOf(f.nNew)], t, m.Value(), m.idCount);
    }
    if !SlotLost(m.env, f) {
      TriedServedPruned(m.env, f.trieds[..NatOf(f.nTried)], t, m.Value(), m.idCount);
    }
  }

  lemma NoneCounted(base: int, n: int, tried: map<Slot, Id>)
    requires base == (if n < 0 then n else 0) && tried == map[]
    ensures Counting(base, n, tried.Keys, {})
  {
  }

  /** The number -1 has been given out exactly if the file says so. */
  lemma LostExactly(env: Env, n: int, taken: set<Slot>, f: Saved)
    requires NatOf(f.nTried) <= |f.trieds| && n >= f.nNew
    requires Counting(Base(f), n, taken, TriedSlots(env, f.trieds[..NatOf(f.nTried)]))
    ensures f.nNew <= NOBODY < n <==> SlotLost(env, f)
  {
    hide TriedSlots;
  }

  lemma NobodyUsed(env: Env, t: Tables, base: int, n: int)
    requires Numbered(t, base, n) && TriedPlaced(env, t)
    ensures Id(NOBODY) in t.info && IsUsed(t.info[Id(NOBODY)]) <==> base <= NOBODY < n
  {
    NumberedKeys(t, base, n);
  }

  /** The shortest such file: fewer than zero new entries by one, and one tried entry. */
  function ShortFile(r: Record): Saved {
    Saved(0, 32, -1, 1, 0, [], [r], [])
  }

  /** Its one entry is loaded as tried and is in no slot. */
  method LoadShortFile(m: CAddrMan, r: Record, ghost s: Tables) returns (ok: bool)
    modifies m
    ensures ok && !AllPlaced(m.env, m.Value())
  {
    ShortFileLoses(m.env, r);
    ok := Unserialize(m, ShortFile(r), s);
  }

  lemma ShortFileLoses(env: Env, r: Record)
    ensures Readable(ShortFile(r)) && SlotLost(env, ShortFile(r))
  {
    var f := ShortFile(r);
    assert f.trieds[..1] == [r];
    assert TriedSlots(env, [r]) == {InfoOf(r, 0, true).TriedSlot(env)};
  }

  lemma Rebased(t: Tables, n: int)
    requires Numbered(t, 0, NatOf(n))
    ensures Numbered(t, if n < 0 then n else 0, n)
  {
  }

  /** When all has been read back nothing is left to prune. */
  lemma AllBack(env: Env, s: Tables, t: Tables)
    requires Inv(env, s) && Loading(env, s, t, |Order(s)|, s.newTable.Keys)
    requires t.nNew == s.nNew && t.nTried == s.nTried && t.idCount == |Order(s)|
    ensures AllUsed(t.info) && Reloaded(s, t) && Inv(env, t)
  {
    hide *;
    LoadingReloads(env, s, t);
    ReloadedParts(s, t);
    InvParts(env, s);
    NothingUnused(s, Order(s), t.info);
    LoadingParts(env, s, t, |Order(s)|, s.newTable.Keys);
    LoadedParts(s, Order(s), t, |Order(s)|);
    ReloadedInv(env, s, t);
  }

  // The tables never hold more than their size

  function AllSlots(buckets: nat): set<Slot> {
    if buckets == 0 then {} else AllSlots(buckets - 1) + BucketSlots(buckets - 1, BUCKET_SIZE)
  }

  function BucketSlots(b: nat, k: nat): set<Slot> {
    if k == 0 then {} else BucketSlots(b, k - 1) + {Slot(b, k - 1)}
  }

  lemma {:induction false} BucketSlotsCount(b: nat, k: nat)
    ensures |BucketSlots(b, k)| <= k && forall p: nat :: p < k ==> Slot(b, p) in BucketSlots(b, k)
    decreases k
  {
    if k > 0 {
      BucketSlotsCount(b, k - 1);
    }
  }

  lemma {:induction false} AllSlotsCount(buckets: nat)
    ensures |AllSlots(buckets)| <= buckets * BUCKET_SIZE
    decreases buckets
  {
    if buckets > 0 {
      AllSlotsCount(buckets - 1);
      BucketSlotsCount(buckets - 1, BUCKET_SIZE);
      hide BucketSlots;
    }
  }

  lemma {:induction false} AllSlotsHave(buckets: nat, slot: Slot)
    requires slot.bucket < buckets && slot.pos < BUCKET_SIZE
    ensures slot in AllSlots(buckets)
    decreases buckets
  {
    if slot.bucket < buckets - 1 {
      AllSlotsHave(buckets - 1, slot);
    } else {
      BucketSlotsCount(buckets - 1, BUCKET_SIZE);
      hide BucketSlots;
      assert slot == Slot(buckets - 1, slot.pos);
    }
  }

  /** Entries that each have a slot of their own are no more than the slots. */
  lemma {:induction false} IdsFewer(ids: set<Id>, t: Table)
    requires forall id :: id in ids ==> Slots(t, id) != {}
    ensures |ids| <= |t.Keys|
    decreases ids
  {
    if ids != {} {
      var id :| id in ids;
      var slot :| slot in Slots(t, id);
      var t' := t - {slot};
      forall x | x in ids - {id}
        ensures Slots(t', x) != {}
      {
        var y :| y in Slots(t, x);
        assert y in Slots(t', x);
      }
      IdsFewer(ids - {id}, t');
      assert t'.Keys == t.Keys - {slot};
    }
  }

  lemma TableFits(t: Table, buckets: nat)
    requires forall slot :: slot in t ==> slot.bucket < buckets && slot.pos < BUCKET_SIZE
    ensures |t.Keys| <= buckets * BUCKET_SIZE
  {
    AllSlotsCount(buckets);
    hide AllSlots;
    forall slot | slot in t.Keys
      ensures slot in AllSlots(buckets)
    {
      AllSlotsHave(buckets, slot);
    }
    SlotsFewer(t.Keys, AllSlots(buckets));
  }

  lemma SavedSizes(env: Env, f: Saved, s: Tables)
    requires SavedFrom(env, f, s)
    ensures f.nNew <= NEW_BUCKET_COUNT * BUCKET_SIZE && f.nTried <= TRIED_BUCKET_COUNT * BUCKET_SIZE
  {
    InvParts(env, s);
    NewFits(env, s);
    TriedFits(env, s);
  }

  lemma NewFits(env: Env, s: Tables)
    requires NewOk(env, s) && RefsOk(s, {}) && CountsOk(s, 0)
    ensures s.nNew <= NEW_BUCKET_COUNT * BUCKET_SIZE
  {
    forall slot | slot in s.newTable
      ensures slot.bucket < NEW_BUCKET_COUNT && slot.pos < BUCKET_SIZE
    {
      assert s.info[s.newTable[slot]].PlaceIn(env, slot.bucket) == slot;
    }
    TableFits(s.newTable, NEW_BUCKET_COUNT);
    forall id | id in NewIds(s.info)
      ensures Slots(s.newTable, id) != {}
    {
      assert s.info[id].refCount == |Slots(s.newTable, id)|;
    }
    IdsFewer(NewIds(s.info), s.newTable);
  }

  lemma TriedFits(env: Env, s: Tables)
    requires TriedOk(env, s) && CountsOk(s, 0)
    ensures s.nTried <= TRIED_BUCKET_COUNT * BUCKET_SIZE
  {
    TableFits(s.triedTable, TRIED_BUCKET_COUNT);
    forall id | id in TriedIds(s.info)
      ensures Slots(s.triedTable, id) != {}
    {
      assert s.info[id].TriedSlot(env) in Slots(s.triedTable, id);
    }
    IdsFewer(TriedIds(s.info), s.triedTable);
  }
}
