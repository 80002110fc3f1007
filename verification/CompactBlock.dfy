/** Rebuilding a block from its compact form, the pool of known transactions and the missing ones. */
module CompactBlock {
  import opened Options

  datatype Hash = Hash(n: nat)

  datatype ShortId = ShortId(n: nat)

  datatype Tx = Tx(hash: Hash, witnessHash: Hash, isNull: bool)

  type Header = nat

  /** A transaction sent along, with its distance from the one sent before it. */
  datatype Prefilled = Prefilled(index: nat, tx: Tx)

  datatype Compact = Compact(header: Option<Header>, shortIds: seq<ShortId>, prefilled: seq<Prefilled>)

  /** A known transaction under the hash its short id is computed from. */
  datatype Known = Known(hash: Hash, tx: Tx)

  datatype Status = Ok | Invalid | Failed | CheckBlockFailed

  const MAX_TX_COUNT: nat := 4_000_000 / 40
  const MAX_INDEX: nat := 65535
  /** How many positions 16 bits tell apart. */
  const POSITIONS: nat := 65536
  /** A position as 16 bits hold it. */
  function Low16(p: nat): nat {
    p % POSITIONS
  }

  const MAX_IN_BUCKET: nat := 12

  type Slots = seq<Option<Tx>>

  // ---------------------------------------------------------------------
  // Empty and filled slots

  function Empty(s: Slots): nat {
    if s == [] then 0 else Empty(s[..|s| - 1]) + (if s[|s| - 1].None? then 1 else 0)
  }

  lemma {:induction false} EmptyUpdate(s: Slots, p: nat, x: Option<Tx>)
    requires p < |s|
    ensures Empty(s[p := x]) == Empty(s) - (if s[p].None? then 1 else 0) + (if x.None? then 1 else 0)
    decreases |s|
  {
    var n := |s| - 1;
    if p < n {
      EmptyUpdate(s[..n], p, x);
      assert s[p := x][..n] == s[..n][p := x];
    } else {
      assert s[p := x][..n] == s[..n];
    }
  }

  lemma {:induction false} EmptyAll(s: Slots)
    requires forall p :: 0 <= p < |s| ==> s[p].None?
    ensures Empty(s) == |s|
    decreases |s|
  {
    if s != [] {
      EmptyAll(s[..|s| - 1]);
    }
  }

  lemma EmptyPrefix(s: Slots, p: nat)
    requires p <= |s|
    ensures Empty(s[..0]) == 0 && Empty(s[..|s|]) == Empty(s)
    ensures p < |s| ==> Empty(s[..p + 1]) == Empty(s[..p]) + (if s[p].None? then 1 else 0)
  {
    assert s[..|s|] == s;
    if p < |s| {
      assert s[..p + 1][..p] == s[..p];
    }
  }

  lemma {:induction false} EmptyMonotone(s: Slots, p: nat, q: nat)
    requires p <= q <= |s|
    ensures Empty(s[..p]) <= Empty(s[..q])
    ensures p < q && s[p].None? ==> Empty(s[..p]) < Empty(s[..q])
    decreases q - p
  {
    if p < q {
      EmptyPrefix(s, p);
      EmptyMonotone(s, p + 1, q);
    }
  }

  /** p is the empty slot that has exactly i empty ones before it. */
  ghost predicate IsSlot(s: Slots, i: nat, p: nat) {
    p < |s| && s[p].None? && Empty(s[..p]) == i
  }

  lemma SlotUnique(s: Slots, i: nat, j: nat, p: nat, q: nat)
    requires IsSlot(s, i, p) && IsSlot(s, j, q)
    ensures i < j ==> p < q
    ensures i == j <==> p == q
  {
    if p < q {
      EmptyMonotone(s, p, q);
    } else if q < p {
      EmptyMonotone(s, q, p);
    }
  }

  // ---------------------------------------------------------------------
  // Prefilled transactions

  /** Where the i-th prefilled transaction goes. */
  function PrefilledAt(pre: seq<Prefilled>, i: nat): nat
    requires i < |pre|
  {
    if i == 0 then pre[0].index else PrefilledAt(pre, i - 1) + pre[i].index + 1
  }

  /** Positions sent as distances from the one before come out again. */
  lemma {:induction false} DistancesBack(pre: seq<Prefilled>, at: seq<nat>, i: nat)
    requires i < |pre| == |at| && pre[0].index == at[0]
    requires forall k :: 0 < k < |at| ==> at[k - 1] < at[k] && pre[k].index == at[k] - at[k - 1] - 1
    ensures PrefilledAt(pre, i) == at[i]
  {
    if i > 0 {
      DistancesBack(pre, at, i - 1);
    }
  }

  lemma {:induction false} PrefilledIncreasing(pre: seq<Prefilled>, i: nat, j: nat)
    requires i < j < |pre|
    ensures PrefilledAt(pre, i) < PrefilledAt(pre, j)
    decreases j
  {
    if i < j - 1 {
      PrefilledIncreasing(pre, i, j - 1);
    }
  }

  /** The slots once the first k prefilled transactions have been put in. */
  ghost predicate PrefilledIn(s: Slots, pre: seq<Prefilled>, k: nat) {
    && k <= |pre| && |s| == Empty(s) + k
    && (forall i :: 0 <= i < k ==> PrefilledAt(pre, i) < |s| && s[PrefilledAt(pre, i)] == Some(pre[i].tx))
    && (forall p :: 0 <= p < |s| && s[p].Some? ==> exists i :: 0 <= i < k && PrefilledAt(pre, i) == p)
  }

  lemma PrefillOne(s: Slots, pre: seq<Prefilled>, k: nat)
    requires PrefilledIn(s, pre, k) && k < |pre| && PrefilledAt(pre, k) < |s|
    ensures PrefilledIn(s[PrefilledAt(pre, k) := Some(pre[k].tx)], pre, k + 1)
  {
    hide PrefilledAt, Empty;
    var p := PrefilledAt(pre, k);
    forall i | 0 <= i < k
      ensures PrefilledAt(pre, i) < p
    {
      PrefilledIncreasing(pre, i, k);
    }
    assert s[p].None?;
    EmptyUpdate(s, p, Some(pre[k].tx));
    var s' := s[p := Some(pre[k].tx)];
    forall q | 0 <= q < |s'| && s'[q].Some?
      ensures exists i :: 0 <= i < k + 1 && PrefilledAt(pre, i) == q
    {
      if q == p {
        assert PrefilledAt(pre, k) == q;
      } else {
        var i :| 0 <= i < k && PrefilledAt(pre, i) == q;
        assert i < k + 1;
      }
    }
  }

  // ---------------------------------------------------------------------
  // Short ids

  type Ids = map<ShortId, nat>

  ghost predicate Distinct(shortIds: seq<ShortId>) {
    forall i, j :: 0 <= i < j < |shortIds| ==> shortIds[i] != shortIds[j]
  }

  /** The first k short ids have been mapped to the first k empty slots, whose positions are kept in 16 bits;
      as many entries as short ids mean that no two are alike. */
  ghost predicate Mapped(s: Slots, shortIds: seq<ShortId>, ids: Ids, slots: seq<nat>, k: nat) {
    && |slots| == k <= |shortIds| && |ids| <= k && (|ids| == k <==> Distinct(shortIds[..k]))
    && (forall i :: 0 <= i < k ==> IsSlot(s, i, slots[i]))
    && Listed(shortIds, ids, k, |s|)
    && (|ids| == k ==> Numbered(shortIds, ids, slots, k))
  }

  /** Every id is listed with the position of its own slot. */
  ghost predicate Numbered(shortIds: seq<ShortId>, ids: Ids, slots: seq<nat>, k: nat)
    requires |slots| == k <= |shortIds|
  {
    forall i :: 0 <= i < k ==> shortIds[i] in ids && ids[shortIds[i]] == Low16(slots[i])
  }

  /** The ids listed are the first k, and their positions are in range. */
  ghost predicate Listed(shortIds: seq<ShortId>, ids: Ids, k: nat, size: nat)
    requires k <= |shortIds|
  {
    && (forall i :: 0 <= i < k ==> shortIds[i] in ids)
    && (forall id :: id in ids ==> id in shortIds[..k] && ids[id] < size)
  }

  lemma MapOne(s: Slots, shortIds: seq<ShortId>, ids: Ids, slots: seq<nat>, k: nat, p: nat)
    requires Mapped(s, shortIds, ids, slots, k) && k < |shortIds| && IsSlot(s, k, p)
    ensures Mapped(s, shortIds, ids[shortIds[k] := Low16(p)], slots + [p], k + 1)
  {
    hide IsSlot, Distinct, Listed, Numbered, Low16;
    IsSlotMeans(s, k, p);
    LowSmaller(p);
    KeysGrow(ids, shortIds[k], Low16(p));
    assert shortIds[..k + 1] == shortIds[..k] + [shortIds[k]];
    DistinctSnoc(shortIds[..k], shortIds[k]);
    ListOne(shortIds, ids, k, |s|, Low16(p));
    if shortIds[k] !in ids && |ids| == k {
      NumberOne(shortIds, ids, slots, k, p);
    }
  }

  lemma LowSmaller(p: nat)
    ensures Low16(p) <= p && (p < POSITIONS <==> Low16(p) == p)
  {
  }

  lemma NumberOne(shortIds: seq<ShortId>, ids: Ids, slots: seq<nat>, k: nat, p: nat)
    requires |slots| == k < |shortIds| && Numbered(shortIds, ids, slots, k) && shortIds[k] !in ids
    ensures Numbered(shortIds, ids[shortIds[k] := Low16(p)], slots + [p], k + 1)
  {
    hide Low16;
  }

  lemma ListOne(shortIds: seq<ShortId>, ids: Ids, k: nat, size: nat, p: nat)
    requires k < |shortIds| && Listed(shortIds, ids, k, size) && p < size
    ensures Listed(shortIds, ids[shortIds[k] := p], k + 1, size)
    ensures shortIds[k] in ids <==> shortIds[k] in shortIds[..k]
  {
    assert shortIds[..k + 1] == shortIds[..k] + [shortIds[k]];
  }

  lemma KeysGrow(ids: Ids, id: ShortId, p: nat)
    ensures ids[id := p].Keys == ids.Keys + {id} && |ids[id := p]| == |ids| + if id in ids then 0 else 1
  {
    if id in ids {
      assert ids[id := p].Keys == ids.Keys;
    }
  }

  lemma DistinctSnoc(a: seq<ShortId>, x: ShortId)
    ensures Distinct(a + [x]) <==> Distinct(a) && x !in a
  {
    var b := a + [x];
    assert forall i :: 0 <= i < |a| ==> b[i] == a[i];
    if x in a {
      var i :| 0 <= i < |a| && a[i] == x;
      assert b[i] == b[|a|];
    }
  }

  lemma IsSlotMeans(s: Slots, i: nat, p: nat)
    requires IsSlot(s, i, p)
    ensures p < |s| && s[p].None?
  {
  }

  // ---------------------------------------------------------------------
  // Matching known transactions

  /** A known transaction as it is met: from the extra pool its witness hash is compared before a second
      match counts. */
  datatype Sighting = Sighting(known: Known, comparing: bool)

  /** A slot during matching, and whether it has had a match. */
  datatype Cell = Cell(have: bool, tx: Option<Tx>)

  predicate Hits(short: Hash -> ShortId, ids: Ids, k: Known, p: nat) {
    short(k.hash) in ids && ids[short(k.hash)] == p
  }

  /** The first match fills a slot, a second one empties it again for good. */
  function Touched(c: Cell, tx: Tx, comparing: bool): Cell {
    if !c.have then Cell(true, Some(tx))
    else if c.tx.Some? && (!comparing || c.tx.value.witnessHash != tx.witnessHash) then Cell(true, None)
    else c
  }

  function CellAfter(short: Hash -> ShortId, ids: Ids, seen: seq<Sighting>, p: nat, at: Option<Tx>): Cell {
    if seen == [] then Cell(false, at)
    else
      var last := seen[|seen| - 1];
      var c := CellAfter(short, ids, seen[..|seen| - 1], p, at);
      if Hits(short, ids, last.known, p) then Touched(c, last.known.tx, last.comparing) else c
  }

  function Tagged(list: seq<Known>, comparing: bool): (r: seq<Sighting>)
    ensures |r| == |list| && forall i :: 0 <= i < |list| ==> r[i] == Sighting(list[i], comparing)
  {
    seq(|list|, i requires 0 <= i < |list| => Sighting(list[i], comparing))
  }

  /** The first transaction met for a position. */
  ghost predicate FirstHit(short: Hash -> ShortId, ids: Ids, seen: seq<Sighting>, p: nat, f: nat) {
    && f < |seen| && Hits(short, ids, seen[f].known, p)
    && forall j :: 0 <= j < f ==> !Hits(short, ids, seen[j].known, p)
  }

  /** Every later one is from the extra pool and has the same witness hash. */
  ghost predicate Undisputed(short: Hash -> ShortId, ids: Ids, seen: seq<Sighting>, p: nat, f: nat)
    requires f < |seen|
  {
    forall j :: f < j < |seen| && Hits(short, ids, seen[j].known, p) ==>
      seen[j].comparing && seen[j].known.tx.witnessHash == seen[f].known.tx.witnessHash
  }

  lemma CellMeans(short: Hash -> ShortId, ids: Ids, seen: seq<Sighting>, p: nat, at: Option<Tx>)
    ensures var c := CellAfter(short, ids, seen, p, at);
      && (!c.have <==> forall j :: 0 <= j < |seen| ==> !Hits(short, ids, seen[j].known, p))
      && (!c.have ==> c.tx == at)
      && (forall f: nat :: FirstHit(short, ids, seen, p, f) ==>
            c.tx == if Undisputed(short, ids, seen, p, f) then Some(seen[f].known.tx) else None)
  {
    hide CellAfter, Hits, Undisputed;
    CellHave(short, ids, seen, p, at);
    forall f: nat | FirstHit(short, ids, seen, p, f)
      ensures f < |seen| && CellAfter(short, ids, seen, p, at).tx ==
              if Undisputed(short, ids, seen, p, f) then Some(seen[f].known.tx) else None
    {
      CellFirst(short, ids, seen, p, at, f);
    }
  }

  lemma {:induction false} CellHave(short: Hash -> ShortId, ids: Ids, seen: seq<Sighting>, p: nat, at: Option<Tx>)
    ensures var c := CellAfter(short, ids, seen, p, at);
      && (!c.have <==> forall j :: 0 <= j < |seen| ==> !Hits(short, ids, seen[j].known, p))
      && (!c.have ==> c.tx == at)
    decreases |seen|
  {
    hide Hits;
    if seen != [] {
      var front := seen[..|seen| - 1];
      CellHave(short, ids, front, p, at);
      assert forall j :: 0 <= j < |front| ==> seen[j] == front[j];
    }
  }

  lemma {:induction false} CellFirst(short: Hash -> ShortId, ids: Ids, seen: seq<Sighting>, p: nat, at: Option<Tx>,
                                     f: nat)
    requires FirstHit(short, ids, seen, p, f)
    ensures CellAfter(short, ids, seen, p, at) ==
            Cell(true, if Undisputed(short, ids, seen, p, f) then Some(seen[f].known.tx) else None)
    decreases |seen|
  {
    hide Hits, CellAfter;
    var n := |seen| - 1;
    var front := seen[..n];
    CellStep(short, ids, seen, p, at);
    assert forall j :: 0 <= j < n ==> seen[j] == front[j];
    if f < n {
      CellFirst(short, ids, front, p, at, f);
    } else {
      CellHave(short, ids, front, p, at);
    }
  }

  lemma CellStep(short: Hash -> ShortId, ids: Ids, seen: seq<Sighting>, p: nat, at: Option<Tx>)
    requires seen != []
    ensures var last := seen[|seen| - 1]; var c := CellAfter(short, ids, seen[..|seen| - 1], p, at);
      CellAfter(short, ids, seen, p, at) ==
      if Hits(short, ids, last.known, p) then Touched(c, last.known.tx, last.comparing) else c
  {
  }

  lemma CellNext(short: Hash -> ShortId, ids: Ids, seen: seq<Sighting>, p: nat, at: Option<Tx>, next: Sighting)
    ensures var c := CellAfter(short, ids, seen, p, at);
      CellAfter(short, ids, seen + [next], p, at) ==
      if Hits(short, ids, next.known, p) then Touched(c, next.known.tx, next.comparing) else c
  {
    assert (seen + [next])[..|seen|] == seen;
  }

  lemma {:induction false} FirstHitExists(short: Hash -> ShortId, ids: Ids, seen: seq<Sighting>, p: nat, k: nat)
    returns (f: nat)
    requires k < |seen| && Hits(short, ids, seen[k].known, p)
    ensures f <= k && FirstHit(short, ids, seen, p, f)
    decreases k
  {
    if j :| 0 <= j < k && Hits(short, ids, seen[j].known, p) {
      f := FirstHitExists(short, ids, seen, p, j);
    } else {
      f := k;
    }
  }

  // How many slots are filled by a match

  function Taken(have: seq<bool>, s: Slots): nat
    requires |have| == |s|
  {
    if s == [] then 0
    else Taken(have[..|s| - 1], s[..|s| - 1]) + (if have[|s| - 1] && s[|s| - 1].Some? then 1 else 0)
  }

  lemma {:induction false} TakenUpdate(have: seq<bool>, s: Slots, p: nat, h: bool, x: Option<Tx>)
    requires |have| == |s| && p < |s|
    ensures Taken(have[p := h], s[p := x]) ==
            Taken(have, s) - (if have[p] && s[p].Some? then 1 else 0) + (if h && x.Some? then 1 else 0)
    decreases |s|
  {
    var n := |s| - 1;
    if p < n {
      TakenUpdate(have[..n], s[..n], p, h, x);
      assert s[p := x][..n] == s[..n][p := x] && have[p := h][..n] == have[..n][p := h];
    } else {
      assert s[p := x][..n] == s[..n] && have[p := h][..n] == have[..n];
    }
  }

  lemma {:induction false} TakenNone(have: seq<bool>, s: Slots)
    requires |have| == |s| && forall p :: 0 <= p < |s| ==> !have[p]
    ensures Taken(have, s) == 0
    decreases |s|
  {
    if s != [] {
      TakenNone(have[..|s| - 1], s[..|s| - 1]);
    }
  }

  /** When matches go to slots that were empty only, those taken are those no longer empty. */
  lemma {:induction false} TakenEmpty(have: seq<bool>, start: Slots, s: Slots)
    requires |have| == |s| == |start|
    requires forall p :: 0 <= p < |s| ==> if have[p] then start[p].None? else s[p] == start[p]
    ensures Taken(have, s) + Empty(s) == Empty(start)
    decreases |s|
  {
    if s != [] {
      TakenEmpty(have[..|s| - 1], start[..|s| - 1], s[..|s| - 1]);
    }
  }

  lemma {:induction false} NoneEmpty(s: Slots)
    ensures Empty(s) == 0 <==> forall p :: 0 <= p < |s| ==> s[p].Some?
    decreases |s|
  {
    if s != [] {
      var front := s[..|s| - 1];
      NoneEmpty(front);
      assert forall p :: 0 <= p < |front| ==> front[p] == s[p];
    }
  }

  /** Every slot is as the sightings so far leave it. */
  ghost predicate AsSeen(short: Hash -> ShortId, ids: Ids, seen: seq<Sighting>, start: Slots, have: seq<bool>,
                         s: Slots) {
    |have| == |s| == |start| &&
    forall p :: 0 <= p < |s| ==> Cell(have[p], s[p]) == CellAfter(short, ids, seen, p, start[p])
  }

  lemma AsSeenNone(short: Hash -> ShortId, ids: Ids, start: Slots)
    ensures AsSeen(short, ids, [], start, seq(|start|, i => false), start)
    ensures Taken(seq(|start|, i => false), start) == 0
  {
    TakenNone(seq(|start|, i => false), start);
  }

  lemma SeenOne(short: Hash -> ShortId, ids: Ids, seen: seq<Sighting>, start: Slots, have: seq<bool>, s: Slots,
                next: Sighting)
    requires AsSeen(short, ids, seen, start, have, s) && forall id :: id in ids ==> ids[id] < |s|
    ensures short(next.known.hash) !in ids ==> AsSeen(short, ids, seen + [next], start, have, s)
    ensures short(next.known.hash) in ids ==>
      var p := ids[short(next.known.hash)]; var c := Touched(Cell(have[p], s[p]), next.known.tx, next.comparing);
      && AsSeen(short, ids, seen + [next], start, have[p := c.have], s[p := c.tx])
      && Taken(have[p := c.have], s[p := c.tx]) ==
         Taken(have, s) - (if have[p] && s[p].Some? then 1 else 0) + (if c.have && c.tx.Some? then 1 else 0)
  {
    hide CellAfter, Taken;
    forall p | 0 <= p < |s|
      ensures var c := CellAfter(short, ids, seen, p, start[p]);
        CellAfter(short, ids, seen + [next], p, start[p]) ==
        if Hits(short, ids, next.known, p) then Touched(c, next.known.tx, next.comparing) else c
    {
      CellNext(short, ids, seen, p, start[p], next);
    }
    if short(next.known.hash) in ids {
      var p := ids[short(next.known.hash)];
      var c := Touched(Cell(have[p], s[p]), next.known.tx, next.comparing);
      TakenUpdate(have, s, p, c.have, c.tx);
    }
  }

  // ---------------------------------------------------------------------
  // What ends up in a slot

  /** The first known transaction with a short id. */
  ghost predicate FirstMatch(short: Hash -> ShortId, known: seq<Known>, id: ShortId, f: nat) {
    && f < |known| && short(known[f].hash) == id
    && forall j :: 0 <= j < f ==> short(known[j].hash) != id
  }

  /** No other transaction of the pool has that short id, and all of the extra pool that have it have the same
      witness hash. */
  ghost predicate Uncontested(short: Hash -> ShortId, pool: seq<Known>, extra: seq<Known>, id: ShortId, f: nat) {
    f < |pool + extra| &&
    forall j :: f < j < |pool + extra| && short((pool + extra)[j].hash) == id ==>
      j >= |pool| && (pool + extra)[j].tx.witnessHash == (pool + extra)[f].tx.witnessHash
  }

  /** A slot is filled only with the first known transaction that has its short id, and it is filled if that
      one is uncontested; in particular if it is the only one. */
  ghost predicate SlotRight(short: Hash -> ShortId, pool: seq<Known>, extra: seq<Known>, id: ShortId, x: Option<Tx>) {
    && (x.Some? ==> exists f: nat :: FirstMatch(short, pool + extra, id, f) && (pool + extra)[f].tx == x.value)
    && (forall f: nat :: FirstMatch(short, pool + extra, id, f) && Uncontested(short, pool, extra, id, f) ==>
          x == Some((pool + extra)[f].tx))
  }

  /** A position belongs to one short id. */
  ghost predicate Owns(short: Hash -> ShortId, ids: Ids, id: ShortId, p: nat) {
    forall k: Known :: Hits(short, ids, k, p) <==> short(k.hash) == id
  }

  /** Reading of the pool and of the extra pool may stop early, but only when every slot is filled. */
  lemma SeenRight(short: Hash -> ShortId, ids: Ids, pool: seq<Known>, a: nat, extra: seq<Known>, b: nat,
                  id: ShortId, p: nat)
    requires a <= |pool| && b <= |extra| && Owns(short, ids, id, p)
    requires a < |pool| ==> CellAfter(short, ids, Tagged(pool[..a], false), p, None).tx.Some?
    requires var seen := Tagged(pool[..a], false) + Tagged(extra[..b], true);
      b < |extra| ==> CellAfter(short, ids, seen, p, None).tx.Some?
    ensures var seen := Tagged(pool[..a], false) + Tagged(extra[..b], true);
      SlotRight(short, pool, extra, id, CellAfter(short, ids, seen, p, None).tx)
  {
    hide CellAfter, Tagged, Owns, Uncontested;
    var seen := Tagged(pool[..a], false) + Tagged(extra[..b], true);
    var x := CellAfter(short, ids, seen, p, None).tx;
    if x.Some? {
      var f := FilledByFirst(short, ids, pool, a, extra, b, id, p, x);
    }
    forall f: nat | FirstMatch(short, pool + extra, id, f) && Uncontested(short, pool, extra, id, f)
      ensures x == Some((pool + extra)[f].tx)
    {
      MatchIsSeen(short, ids, pool, a, extra, b, id, p, f, x);
    }
  }

  /** Where the g-th of the transactions read is among all known ones. */
  function Origin(pool: seq<Known>, a: nat, g: nat): int {
    if g < a then g else |pool| + g - a
  }

  lemma OriginIs(pool: seq<Known>, a: nat, extra: seq<Known>, b: nat, g: nat)
    requires a <= |pool| && b <= |extra| && g < a + b
    ensures 0 <= Origin(pool, a, g) < |pool + extra|
    ensures (Tagged(pool[..a], false) + Tagged(extra[..b], true))[g] ==
            Sighting((pool + extra)[Origin(pool, a, g)], Origin(pool, a, g) >= |pool|)
  {
  }

  /** The first hit among the transactions read is the first match of all. */
  lemma SeenIsFirst(short: Hash -> ShortId, ids: Ids, pool: seq<Known>, a: nat, extra: seq<Known>, b: nat,
                    id: ShortId, p: nat, g: nat)
    requires a <= |pool| && b <= |extra| && Owns(short, ids, id, p)
    requires a < |pool| ==> CellAfter(short, ids, Tagged(pool[..a], false), p, None).tx.Some?
    requires FirstHit(short, ids, Tagged(pool[..a], false) + Tagged(extra[..b], true), p, g)
    ensures var f := Origin(pool, a, g); f >= 0 && FirstMatch(short, pool + extra, id, f)
    ensures a < |pool| ==> g < a
  {
    hide CellAfter, Tagged, Hits;
    var first := Tagged(pool[..a], false);
    var seen := first + Tagged(extra[..b], true);
    var known := pool + extra;
    OriginIs(pool, a, extra, b, g);
    assert short(seen[g].known.hash) == id by {
      assert Hits(short, ids, seen[g].known, p);
    }
    if a < |pool| {
      CellMeans(short, ids, first, p, None);
      var k :| 0 <= k < |first| && Hits(short, ids, first[k].known, p);
      assert seen[k] == first[k];
    }
    forall j | 0 <= j < Origin(pool, a, g)
      ensures short(known[j].hash) != id
    {
      var h: nat := if j < a then j else j - |pool| + a;
      OriginIs(pool, a, extra, b, h);
      assert !Hits(short, ids, seen[h].known, p);
    }
  }

  lemma FilledByFirst(short: Hash -> ShortId, ids: Ids, pool: seq<Known>, a: nat, extra: seq<Known>, b: nat,
                      id: ShortId, p: nat, x: Option<Tx>) returns (f: nat)
    requires a <= |pool| && b <= |extra| && Owns(short, ids, id, p)
    requires a < |pool| ==> CellAfter(short, ids, Tagged(pool[..a], false), p, None).tx.Some?
    requires var seen := Tagged(pool[..a], false) + Tagged(extra[..b], true);
      x == CellAfter(short, ids, seen, p, None).tx && x.Some?
    ensures FirstMatch(short, pool + extra, id, f) && (pool + extra)[f].tx == x.value
  {
    hide CellAfter, Tagged, Hits, Owns, Undisputed;
    var seen := Tagged(pool[..a], false) + Tagged(extra[..b], true);
    CellMeans(short, ids, seen, p, None);
    var k :| 0 <= k < |seen| && Hits(short, ids, seen[k].known, p);
    var g := FirstHitExists(short, ids, seen, p, k);
    SeenIsFirst(short, ids, pool, a, extra, b, id, p, g);
    OriginIs(pool, a, extra, b, g);
    f := Origin(pool, a, g);
  }

  /** An uncontested first match has been read, and fills the slot. */
  lemma MatchIsSeen(short: Hash -> ShortId, ids: Ids, pool: seq<Known>, a: nat, extra: seq<Known>, b: nat,
                    id: ShortId, p: nat, f: nat, x: Option<Tx>)
    requires a <= |pool| && b <= |extra| && Owns(short, ids, id, p)
    requires FirstMatch(short, pool + extra, id, f) && Uncontested(short, pool, extra, id, f)
    requires a < |pool| ==> CellAfter(short, ids, Tagged(pool[..a], false), p, None).tx.Some?
    requires var seen := Tagged(pool[..a], false) + Tagged(extra[..b], true);
      (b < |extra| ==> x.Some?) && x == CellAfter(short, ids, seen, p, None).tx
    ensures x == Some((pool + extra)[f].tx)
  {
    hide CellAfter, Tagged, Hits;
    var seen := Tagged(pool[..a], false) + Tagged(extra[..b], true);
    var known := pool + extra;
    CellMeans(short, ids, seen, p, None);
    var k := SomeHit(short, ids, pool, a, extra, b, id, p, f, x);
    var g := FirstHitExists(short, ids, seen, p, k);
    SeenIsFirst(short, ids, pool, a, extra, b, id, p, g);
    assert Origin(pool, a, g) == f;
    OriginIs(pool, a, extra, b, g);
    forall j | g < j < |seen| && Hits(short, ids, seen[j].known, p)
      ensures seen[j].comparing && seen[j].known.tx.witnessHash == seen[g].known.tx.witnessHash
    {
      OriginIs(pool, a, extra, b, j);
      assert f < Origin(pool, a, j) && short(known[Origin(pool, a, j)].hash) == id;
    }
    assert Undisputed(short, ids, seen, p, g);
  }

  lemma SomeHit(short: Hash -> ShortId, ids: Ids, pool: seq<Known>, a: nat, extra: seq<Known>, b: nat,
                id: ShortId, p: nat, f: nat, x: Option<Tx>) returns (k: nat)
    requires a <= |pool| && b <= |extra| && Owns(short, ids, id, p) && FirstMatch(short, pool + extra, id, f)
    requires a < |pool| ==> CellAfter(short, ids, Tagged(pool[..a], false), p, None).tx.Some?
    requires var seen := Tagged(pool[..a], false) + Tagged(extra[..b], true);
      (b < |extra| ==> x.Some?) && x == CellAfter(short, ids, seen, p, None).tx
    ensures var seen := Tagged(pool[..a], false) + Tagged(extra[..b], true);
      k < |seen| && Hits(short, ids, seen[k].known, p)
  {
    hide CellAfter, Tagged, Hits;
    var first := Tagged(pool[..a], false);
    var seen := first + Tagged(extra[..b], true);
    if a < |pool| {
      CellMeans(short, ids, first, p, None);
      k :| 0 <= k < |first| && Hits(short, ids, first[k].known, p);
      assert seen[k] == first[k];
    } else if b < |extra| {
      CellMeans(short, ids, seen, p, None);
      k :| 0 <= k < |seen| && Hits(short, ids, seen[k].known, p);
    } else {
      k := f;
      OriginIs(pool, a, extra, b, k);
      assert short(seen[k].known.hash) == id;
    }
  }

  /** Some known transaction has the i-th short id. */
  ghost predicate Candidate(short: Hash -> ShortId, shortIds: seq<ShortId>, known: seq<Known>, i: nat, tx: Tx) {
    i < |shortIds| && exists k :: 0 <= k < |known| && short(known[k].hash) == shortIds[i] && known[k].tx == tx
  }

  /** What fills a slot is a known transaction with the slot's short id. */
  ghost predicate Justified(short: Hash -> ShortId, shortIds: seq<ShortId>, known: seq<Known>, slots: seq<nat>,
                            s: Slots) {
    |slots| == |shortIds| &&
    forall i :: 0 <= i < |slots| && slots[i] < |s| && s[slots[i]].Some? ==>
      Candidate(short, shortIds, known, i, s[slots[i]].value)
  }

  // ---------------------------------------------------------------------
  // What a rebuilt block is

  /** The filled slots agree with the transactions of a block. */
  ghost predicate Agrees(s: Slots, vtx: seq<Tx>) {
    |s| == |vtx| && forall p :: 0 <= p < |s| && s[p].Some? ==> s[p].value == vtx[p]
  }

  /** The transactions that have to be asked for. */
  function Missing(s: Slots, vtx: seq<Tx>): seq<Tx>
    requires |s| == |vtx|
  {
    if s == [] then [] else
      Missing(s[..|s| - 1], vtx[..|s| - 1]) + (if s[|s| - 1].None? then [vtx[|s| - 1]] else [])
  }

  /** The prefilled transactions are in their places in the block. */
  ghost predicate Describes(c: Compact, vtx: seq<Tx>) {
    |vtx| == |c.shortIds| + |c.prefilled| &&
    forall i :: 0 <= i < |c.prefilled| ==>
      PrefilledAt(c.prefilled, i) < |vtx| && vtx[PrefilledAt(c.prefilled, i)] == c.prefilled[i].tx
  }

  /** Every known transaction that has a short id of the block is the block's transaction in that slot. */
  ghost predicate Genuine(short: Hash -> ShortId, shortIds: seq<ShortId>, known: seq<Known>, slots: seq<nat>,
                          vtx: seq<Tx>) {
    |slots| == |shortIds| &&
    forall i, k :: 0 <= i < |slots| && 0 <= k < |known| && short(known[k].hash) == shortIds[i] ==>
      slots[i] < |vtx| && known[k].tx == vtx[slots[i]]
  }

  lemma {:induction false} SlotExists(s: Slots, p: nat, i: nat)
    requires p < |s| && s[p].None? && i == Empty(s[..p])
    ensures i < Empty(s)
  {
    EmptyPrefix(s, p);
    EmptyMonotone(s, p + 1, |s|);
  }

  /** With genuine matches only, what has been filled in is right. */
  lemma GenuineAgrees(short: Hash -> ShortId, c: Compact, known: seq<Known>, ids: Ids, slots: seq<nat>, s0: Slots,
                      s: Slots, vtx: seq<Tx>)
    requires PrefilledIn(s0, c.prefilled, |c.prefilled|) && Empty(s0) == |c.shortIds|
    requires Mapped(s0, c.shortIds, ids, slots, |c.shortIds|) && |s| == |s0|
    requires forall p :: 0 <= p < |s| && s0[p].Some? ==> s[p] == s0[p]
    requires Justified(short, c.shortIds, known, slots, s)
    requires Describes(c, vtx) && Genuine(short, c.shortIds, known, slots, vtx)
    ensures Agrees(s, vtx)
  {
    forall p | 0 <= p < |s| && s[p].Some?
      ensures s[p].value == vtx[p]
    {
      if s0[p].None? {
        var i := Empty(s0[..p]);
        SlotExists(s0, p, i);
        SlotUnique(s0, i, i, p, slots[i]);
        assert Candidate(short, c.shortIds, known, i, s[p].value);
      }
    }
  }

  /** A compact block that cannot be right: no header, no transactions or too many, a null transaction, or a
      prefilled one whose position does not fit 16 bits or is beyond what the short ids and the prefilled
      ones before it reach. */
  ghost predicate Bogus(c: Compact) {
    || c.header.None? || (c.shortIds == [] && c.prefilled == [])
    || |c.shortIds| + |c.prefilled| > MAX_TX_COUNT || BadPrefilled(c, |c.prefilled|)
  }

  /** Every position that 16 bits can hold is prefilled, and there is a short id to find a place for. */
  predicate Endless(c: Compact) {
    |c.prefilled| == POSITIONS && c.shortIds != []
  }

  ghost predicate BadPrefilled(c: Compact, k: nat) {
    exists i :: 0 <= i < k && i < |c.prefilled| && BadAt(c, i)
  }

  ghost predicate BadAt(c: Compact, i: nat)
    requires i < |c.prefilled|
  {
    || c.prefilled[i].tx.isNull || PrefilledAt(c.prefilled, i) > MAX_INDEX
    || PrefilledAt(c.prefilled, i) > |c.shortIds| + i
  }

  // ---------------------------------------------------------------------
  // Finding the slots

  /** Only positions that fit 16 bits are filled. */
  ghost predicate LowFilled(s: Slots) {
    forall p :: POSITIONS <= p < |s| ==> s[p].None?
  }

  /** Every offset that 16 bits can hold leads the first short id to a filled slot. */
  ghost predicate Blocked(s: Slots) {
    |s| >= POSITIONS && forall p :: 0 <= p < POSITIONS ==> s[p].Some?
  }

  lemma {:induction false} EmptyAbove(s: Slots, n: nat)
    requires LowFilled(s) && POSITIONS <= n <= |s|
    ensures Empty(s[..n]) == Empty(s[..POSITIONS]) + (n - POSITIONS)
    decreases n
  {
    if n > POSITIONS {
      EmptyAbove(s, n - 1);
      EmptyPrefix(s, n - 1);
    }
  }

  /** When the offset wraps, the search is back where it began and has found nothing. */
  lemma WrapBlocks(s: Slots, i: nat)
    requires LowFilled(s) && i + POSITIONS <= |s| && Empty(s[..i + POSITIONS]) == i && s[i + MAX_INDEX].Some?
    ensures i == 0 && Blocked(s)
  {
    hide Empty;
    EmptyAbove(s, i + POSITIONS);
    NoneEmpty(s[..POSITIONS]);
    assert forall p :: 0 <= p < POSITIONS ==> s[p] == s[..POSITIONS][p];
  }

  lemma PrefilledLow(c: Compact, s: Slots)
    requires PrefilledIn(s, c.prefilled, |c.prefilled|) && !BadPrefilled(c, |c.prefilled|)
    ensures LowFilled(s) && (Blocked(s) <==> |c.prefilled| == POSITIONS)
  {
    hide Empty, PrefilledAt;
    forall i | 0 <= i < |c.prefilled|
      ensures PrefilledAt(c.prefilled, i) <= MAX_INDEX
    {
      assert !BadAt(c, i);
    }
    assert s[..|s|] == s;
    if |s| >= POSITIONS {
      EmptyAbove(s, |s|);
      NoneEmpty(s[..POSITIONS]);
      assert forall p :: 0 <= p < POSITIONS ==> s[p] == s[..POSITIONS][p];
    }
  }

  function InBucket(ids: set<ShortId>, bucket: ShortId -> nat, b: nat): set<ShortId> {
    set id | id in ids && bucket(id) == b
  }

  ghost function Elements(shortIds: seq<ShortId>): set<ShortId> {
    set id | id in shortIds
  }

  /** More than a dozen of the short ids fall into one bucket of the hash table. */
  ghost predicate Crowded(shortIds: seq<ShortId>, bucket: ShortId -> nat) {
    exists b :: |InBucket(Elements(shortIds), bucket, b)| > MAX_IN_BUCKET
  }

  ghost predicate Roomy(ids: set<ShortId>, bucket: ShortId -> nat) {
    forall b :: |InBucket(ids, bucket, b)| <= MAX_IN_BUCKET
  }

  lemma RoomyOne(ids: set<ShortId>, bucket: ShortId -> nat, id: ShortId)
    requires Roomy(ids, bucket) && |InBucket(ids + {id}, bucket, bucket(id))| <= MAX_IN_BUCKET
    ensures Roomy(ids + {id}, bucket)
  {
    forall b
      ensures |InBucket(ids + {id}, bucket, b)| <= MAX_IN_BUCKET
    {
      if b != bucket(id) {
        assert InBucket(ids + {id}, bucket, b) == InBucket(ids, bucket, b);
      }
    }
  }

  lemma CrowdedEarly(shortIds: seq<ShortId>, bucket: ShortId -> nat, ids: set<ShortId>, b: nat)
    requires ids <= Elements(shortIds) && |InBucket(ids, bucket, b)| > MAX_IN_BUCKET
    ensures Crowded(shortIds, bucket)
  {
    SubsetSize(InBucket(ids, bucket, b), InBucket(Elements(shortIds), bucket, b));
  }

  lemma {:induction false} SubsetSize(a: set<ShortId>, b: set<ShortId>)
    requires a <= b
    ensures |a| <= |b|
    decreases a
  {
    if x :| x in a {
      SubsetSize(a - {x}, b - {x});
    }
  }

  lemma MappedKeys(s: Slots, shortIds: seq<ShortId>, ids: Ids, slots: seq<nat>, k: nat)
    requires Mapped(s, shortIds, ids, slots, k)
    ensures |slots| == k <= |shortIds| && ids.Keys == Elements(shortIds[..k]) <= Elements(shortIds)
    ensures k == |shortIds| ==> ids.Keys == Elements(shortIds) && (|ids| == k <==> Distinct(shortIds))
  {
    hide IsSlot, Distinct;
    assert forall id :: id in shortIds[..k] ==> id in ids;
    if k == |shortIds| {
      assert shortIds[..k] == shortIds;
    }
  }

  /** One mapped short id. */
  lemma MappedAt(s: Slots, shortIds: seq<ShortId>, ids: Ids, slots: seq<nat>, k: nat, i: nat)
    requires Mapped(s, shortIds, ids, slots, k) && i < k
    ensures |slots| == k <= |shortIds| && IsSlot(s, i, slots[i]) && slots[i] < |s| && s[slots[i]].None?
    ensures shortIds[i] in ids && (|ids| == k ==> ids[shortIds[i]] == Low16(slots[i]))
  {
    hide Distinct, Empty;
  }

  /** The search for the next free slot, the offset kept in 16 bits. When the offset wraps the search is back
      where it began, and would go on for ever. */
  method FindFree(s: Slots, i: nat, offset0: nat) returns (ended: bool, offset: nat)
    requires LowFilled(s) && i + offset0 < |s| && offset0 < POSITIONS && Empty(s[..i + offset0]) == i < Empty(s)
    ensures ended ==> offset < POSITIONS && IsSlot(s, i, i + offset) && i + offset < |s| && s[i + offset].None?
    ensures ended ==> Empty(s[..i + offset + 1]) == i + 1
    ensures !ended ==> i == 0 && Blocked(s)
  {
    hide Empty, LowFilled, Blocked;
    offset := offset0;
    while s[i + offset].Some?
      invariant i + offset < |s| && offset < POSITIONS && Empty(s[..i + offset]) == i
      decreases |s| - offset
    {
      EmptyPrefix(s, i + offset);
      if offset == MAX_INDEX {
        WrapBlocks(s, i);
        return false, 0;
      }
      offset := offset + 1;
      EmptyPrefix(s, |s|);
    }
    EmptyPrefix(s, i + offset);
    ended := true;
  }

  /** Finds for every short id the slot it stands for. The search does not end if all positions are taken; it
      fails when two ids are alike or when too many of them fall into one bucket. */
  method MapShortIds(s: Slots, shortIds: seq<ShortId>, bucket: ShortId -> nat)
    returns (ended: bool, ok: bool, ids: Ids, ghost slots: seq<nat>)
    requires Empty(s) == |shortIds| && LowFilled(s)
    ensures ended <==> shortIds == [] || !Blocked(s)
    ensures ended ==> (ok <==> Distinct(shortIds) && !Crowded(shortIds, bucket))
    ensures ended && ok ==> Mapped(s, shortIds, ids, slots, |shortIds|) && |ids| == |shortIds|
  {
    hide Mapped, Empty, InBucket, Roomy, Distinct, Crowded, Blocked, LowFilled, IsSlot, Elements;
    ids, slots, ended := map[], [], true;
    var offset: nat := 0;
    MappedNone(s, shortIds);
    RoomyNone(bucket);
    EmptyPrefix(s, 0);
    for i := 0 to |shortIds|
      invariant i + offset <= |s| && offset < POSITIONS && Empty(s[..i + offset]) == i
      invariant Mapped(s, shortIds, ids, slots, i) && Roomy(ids.Keys, bucket)
      invariant ended && |slots| == i && (i > 0 ==> !Blocked(s))
    {
      EmptyPrefix(s, |s|);
      ended, offset := FindFree(s, i, offset);
      if !ended {
        return false, false, ids, slots;
      }
      var p: nat := i + offset;
      if i == 0 {
        NotBlocked(s, p);
      }
      MapStep(s, shortIds, bucket, ids, slots, i, p);
      ids, slots := ids[shortIds[i] := Low16(p)], slots + [p];
      if |InBucket(ids.Keys, bucket, bucket(shortIds[i]))| > MAX_IN_BUCKET {
        return true, false, ids, slots;
      }
    }
    MappedKeys(s, shortIds, ids, slots, |shortIds|);
    RoomyMeans(shortIds, bucket);
    ok := |ids| == |shortIds|;
  }

  lemma MapStep(s: Slots, shortIds: seq<ShortId>, bucket: ShortId -> nat, ids: Ids, slots: seq<nat>, k: nat, p: nat)
    requires Mapped(s, shortIds, ids, slots, k) && k < |shortIds| && IsSlot(s, k, p) && Roomy(ids.Keys, bucket)
    ensures var ids' := ids[shortIds[k] := Low16(p)];
      && Mapped(s, shortIds, ids', slots + [p], k + 1)
      && if |InBucket(ids'.Keys, bucket, bucket(shortIds[k]))| > MAX_IN_BUCKET then Crowded(shortIds, bucket)
         else Roomy(ids'.Keys, bucket)
  {
    hide Mapped, InBucket, Roomy, Crowded, IsSlot, Elements;
    var ids' := ids[shortIds[k] := Low16(p)];
    MapOne(s, shortIds, ids, slots, k, p);
    KeysGrow(ids, shortIds[k], Low16(p));
    if |InBucket(ids'.Keys, bucket, bucket(shortIds[k]))| > MAX_IN_BUCKET {
      MappedKeys(s, shortIds, ids', slots + [p], k + 1);
      CrowdedEarly(shortIds, bucket, ids'.Keys, bucket(shortIds[k]));
    } else {
      RoomyOne(ids.Keys, bucket, shortIds[k]);
    }
  }

  lemma RoomyNone(bucket: ShortId -> nat)
    ensures Roomy({}, bucket)
  {
    assert forall b :: InBucket({}, bucket, b) == {};
  }

  lemma RoomyMeans(shortIds: seq<ShortId>, bucket: ShortId -> nat)
    ensures Roomy(Elements(shortIds), bucket) <==> !Crowded(shortIds, bucket)
  {
  }

  lemma NotBlocked(s: Slots, p: nat)
    requires p < POSITIONS && p < |s| && s[p].None?
    ensures !Blocked(s)
  {
  }

  /** The positions kept are the slots found if and only if 16 bits suffice for all positions. */
  lemma SlotsRight(s: Slots, shortIds: seq<ShortId>, ids: Ids, slots: seq<nat>)
    requires Mapped(s, shortIds, ids, slots, |shortIds|) && |ids| == |shortIds| == Empty(s) && LowFilled(s)
    ensures (forall i :: 0 <= i < |shortIds| ==> ids[shortIds[i]] == slots[i]) <==> |s| <= POSITIONS
  {
    hide Mapped, Empty, Distinct, IsSlot, LowFilled, Elements;
    MappedKeys(s, shortIds, ids, slots, |shortIds|);
    forall i | 0 <= i < |shortIds|
      ensures slots[i] < |s| && shortIds[i] in ids && ids[shortIds[i]] == Low16(slots[i])
    {
      MappedAt(s, shortIds, ids, slots, |shortIds|, i);
    }
    if |s| > POSITIONS {
      var i := LastSlot(s, shortIds, ids, slots);
      assert ids[shortIds[i]] != slots[i];
    }
  }

  lemma LastSlot(s: Slots, shortIds: seq<ShortId>, ids: Ids, slots: seq<nat>) returns (i: nat)
    requires Mapped(s, shortIds, ids, slots, |shortIds|) && |shortIds| == Empty(s) && LowFilled(s) && |s| > POSITIONS
    ensures i < |shortIds| == |slots| && slots[i] == |s| - 1
  {
    hide Empty, Mapped;
    var p := |s| - 1;
    i := Empty(s[..p]);
    SlotExists(s, p, i);
    MappedAt(s, shortIds, ids, slots, |shortIds|, i);
    SlotUnique(s, i, i, p, slots[i]);
  }

  /** One prefilled transaction and 65536 short ids: the last id leads to the prefilled slot, and a match for
      it takes the place of what was sent along. */
  lemma LastIdWraps(s: Slots, shortIds: seq<ShortId>, ids: Ids, slots: seq<nat>, short: Hash -> ShortId, k: Known)
    requires |s| == POSITIONS + 1 && s[0].Some? && (forall p :: 0 < p < |s| ==> s[p].None?)
    requires |shortIds| == POSITIONS && Mapped(s, shortIds, ids, slots, POSITIONS) && |ids| == POSITIONS
    requires short(k.hash) == shortIds[MAX_INDEX]
    ensures slots[MAX_INDEX] == POSITIONS && ids[shortIds[MAX_INDEX]] == 0
    ensures CellAfter(short, ids, [Sighting(k, false)], 0, s[0]) == Cell(true, Some(k.tx))
  {
    hide Empty, Distinct, Mapped, CellAfter;
    EmptyFront(s, POSITIONS);
    MappedAt(s, shortIds, ids, slots, POSITIONS, MAX_INDEX);
    CellNone(short, ids, 0, s[0]);
    SlotUnique(s, MAX_INDEX, MAX_INDEX, POSITIONS, slots[MAX_INDEX]);
    CellNext(short, ids, [], 0, s[0], Sighting(k, false));
    assert [] + [Sighting(k, false)] == [Sighting(k, false)];
  }

  lemma {:induction false} AdjacentAt(pre: seq<Prefilled>, i: nat)
    requires i < |pre| && forall k :: 0 <= k < |pre| ==> pre[k].index == 0
    ensures PrefilledAt(pre, i) == i
  {
    if i > 0 {
      AdjacentAt(pre, i - 1);
    }
  }

  /** A message that is not refused and for which the search for a place never ends. */
  lemma EndlessAccepted(header: Header, id: ShortId, tx: Tx)
    requires !tx.isNull
    ensures var c := Compact(Some(header), [id], seq(POSITIONS, _ => Prefilled(0, tx))); !Bogus(c) && Endless(c)
  {
    var c := Compact(Some(header), [id], seq(POSITIONS, _ => Prefilled(0, tx)));
    forall i | 0 <= i < POSITIONS
      ensures !BadAt(c, i)
    {
      AdjacentAt(c.prefilled, i);
    }
  }

  lemma CellNone(short: Hash -> ShortId, ids: Ids, p: nat, at: Option<Tx>)
    ensures CellAfter(short, ids, [], p, at) == Cell(false, at)
  {
  }

  lemma {:induction false} EmptyFront(s: Slots, n: nat)
    requires 1 <= n <= |s| && s[0].Some? && forall p :: 0 < p < n ==> s[p].None?
    ensures Empty(s[..n]) == n - 1
    decreases n
  {
    EmptyPrefix(s, 0);
    if n > 1 {
      EmptyFront(s, n - 1);
    }
    EmptyPrefix(s, n - 1);
  }

  lemma MappedSlots(s: Slots, shortIds: seq<ShortId>, ids: Ids, slots: seq<nat>)
    requires Mapped(s, shortIds, ids, slots, |shortIds|)
    ensures |slots| == |shortIds| && forall i :: 0 <= i < |slots| ==> IsSlot(s, i, slots[i])
  {
  }

  lemma AsSeenSizes(short: Hash -> ShortId, ids: Ids, seen: seq<Sighting>, start: Slots, have: seq<bool>, s: Slots)
    requires AsSeen(short, ids, seen, start, have, s)
    ensures |have| == |s| == |start|
  {
  }

  lemma MappedNone(s: Slots, shortIds: seq<ShortId>)
    ensures Mapped(s, shortIds, map[], [], 0)
  {
  }

  lemma PrefilledNone(s: Slots, pre: seq<Prefilled>)
    requires forall p :: 0 <= p < |s| ==> s[p].None?
    ensures PrefilledIn(s, pre, 0)
  {
    EmptyAll(s);
  }

  lemma PrefilledStep(pre: seq<Prefilled>, i: nat)
    requires i < |pre|
    ensures PrefilledAt(pre, i) == (if i == 0 then -1 else PrefilledAt(pre, i - 1)) + pre[i].index + 1
  {
  }

  lemma PrefilledEmpty(s: Slots, c: Compact)
    requires PrefilledIn(s, c.prefilled, |c.prefilled|) && |s| == |c.shortIds| + |c.prefilled|
    ensures Empty(s) == |c.shortIds|
  {
  }

  /** With positions that fit, every slot belongs to its short id, and no prefilled one to any. */
  lemma SlotsOwned(short: Hash -> ShortId, s: Slots, shortIds: seq<ShortId>, ids: Ids, slots: seq<nat>, i: nat)
    requires Mapped(s, shortIds, ids, slots, |shortIds|) && |ids| == |shortIds| && |s| <= POSITIONS && i < |shortIds|
    ensures slots[i] < |s| && s[slots[i]].None? && Owns(short, ids, shortIds[i], slots[i])
  {
    hide IsSlot, Mapped;
    MappedAt(s, shortIds, ids, slots, |shortIds|, i);
    forall k: Known
      ensures Hits(short, ids, k, slots[i]) <==> short(k.hash) == shortIds[i]
    {
      if short(k.hash) in ids {
        var j := IdAt(s, shortIds, ids, slots, short(k.hash));
        SlotUnique(s, i, j, slots[i], slots[j]);
      }
    }
  }

  lemma IdAt(s: Slots, shortIds: seq<ShortId>, ids: Ids, slots: seq<nat>, id: ShortId) returns (j: nat)
    requires Mapped(s, shortIds, ids, slots, |shortIds|) && |ids| == |shortIds| && |s| <= POSITIONS && id in ids
    ensures j < |shortIds| == |slots| && shortIds[j] == id && ids[id] == slots[j] && IsSlot(s, j, slots[j])
  {
    hide IsSlot, Mapped;
    MappedKeys(s, shortIds, ids, slots, |shortIds|);
    assert id in Elements(shortIds);
    j :| 0 <= j < |shortIds| && shortIds[j] == id;
    MappedAt(s, shortIds, ids, slots, |shortIds|, j);
  }

  lemma PrefilledUnhit(short: Hash -> ShortId, s: Slots, shortIds: seq<ShortId>, ids: Ids, slots: seq<nat>, k: Known,
                       p: nat)
    requires Mapped(s, shortIds, ids, slots, |shortIds|) && |ids| == |shortIds| && |s| <= POSITIONS
    requires p < |s| && s[p].Some?
    ensures !Hits(short, ids, k, p)
  {
    if short(k.hash) in ids {
      var j := IdAt(s, shortIds, ids, slots, short(k.hash));
      IsSlotMeans(s, j, slots[j]);
    }
  }

  lemma MappedRange(s: Slots, shortIds: seq<ShortId>, ids: Ids, slots: seq<nat>)
    requires Mapped(s, shortIds, ids, slots, |shortIds|)
    ensures forall id :: id in ids ==> ids[id] < |s|
  {
  }

  /** The transactions read so far leave the prefilled slots alone, and fill as many others as are counted. */
  lemma SeenCounted(short: Hash -> ShortId, shortIds: seq<ShortId>, ids: Ids, slots: seq<nat>, seen: seq<Sighting>,
                    start: Slots, have: seq<bool>, s: Slots)
    requires Mapped(start, shortIds, ids, slots, |shortIds|) && |ids| == |shortIds| == Empty(start)
    requires |start| <= POSITIONS && AsSeen(short, ids, seen, start, have, s)
    ensures forall p :: 0 <= p < |s| && start[p].Some? ==> s[p] == start[p]
    ensures Taken(have, s) + Empty(s) == |ids|
    ensures Taken(have, s) == |ids| ==> forall p :: 0 <= p < |s| ==> s[p].Some?
  {
    hide Mapped, Empty, Taken, CellAfter, Hits;
    forall p | 0 <= p < |s|
      ensures if have[p] then start[p].None? else s[p] == start[p]
    {
      CellMeans(short, ids, seen, p, start[p]);
      if start[p].Some? {
        forall j | 0 <= j < |seen|
          ensures !Hits(short, ids, seen[j].known, p)
        {
          PrefilledUnhit(short, start, shortIds, ids, slots, seen[j].known, p);
        }
      }
    }
    TakenEmpty(have, start, s);
    NoneEmpty(s);
  }

  /** What is read of the pool and the extra pool leaves every slot right. */
  lemma SlotsFilled(short: Hash -> ShortId, shortIds: seq<ShortId>, ids: Ids, slots: seq<nat>, pool: seq<Known>, a: nat,
                    extra: seq<Known>, b: nat, start: Slots, have1: seq<bool>, s1: Slots, have: seq<bool>, s: Slots)
    requires Mapped(start, shortIds, ids, slots, |shortIds|) && |ids| == |shortIds| == Empty(start)
    requires |start| <= POSITIONS && a <= |pool| && b <= |extra|
    requires AsSeen(short, ids, Tagged(pool[..a], false), start, have1, s1)
    requires AsSeen(short, ids, Tagged(pool[..a], false) + Tagged(extra[..b], true), start, have, s)
    requires a < |pool| ==> Taken(have1, s1) == |ids|
    requires b < |extra| ==> Taken(have, s) == |ids|
    ensures |slots| == |shortIds|
    ensures forall i :: 0 <= i < |shortIds| ==>
      slots[i] < |s| && SlotRight(short, pool, extra, shortIds[i], s[slots[i]])
  {
    hide Mapped, Empty, Taken, CellAfter, Tagged, SlotRight;
    MappedKeys(start, shortIds, ids, slots, |shortIds|);
    SeenCounted(short, shortIds, ids, slots, Tagged(pool[..a], false), start, have1, s1);
    SeenCounted(short, shortIds, ids, slots, Tagged(pool[..a], false) + Tagged(extra[..b], true), start, have, s);
    forall i | 0 <= i < |shortIds|
      ensures slots[i] < |s| && SlotRight(short, pool, extra, shortIds[i], s[slots[i]])
    {
      SlotsOwned(short, start, shortIds, ids, slots, i);
      SeenRight(short, ids, pool, a, extra, b, shortIds[i], slots[i]);
    }
  }

  lemma RightIsJustified(short: Hash -> ShortId, shortIds: seq<ShortId>, pool: seq<Known>, extra: seq<Known>,
                         slots: seq<nat>, s: Slots)
    requires |slots| == |shortIds|
    requires forall i :: 0 <= i < |shortIds| ==>
      slots[i] < |s| && SlotRight(short, pool, extra, shortIds[i], s[slots[i]])
    ensures Justified(short, shortIds, pool + extra, slots, s)
  {
    hide SlotRight, Candidate;
    forall i | 0 <= i < |slots| && s[slots[i]].Some?
      ensures Candidate(short, shortIds, pool + extra, i, s[slots[i]].value)
    {
      RightIsCandidate(short, shortIds, pool, extra, i, s[slots[i]]);
    }
  }

  lemma RightIsCandidate(short: Hash -> ShortId, shortIds: seq<ShortId>, pool: seq<Known>, extra: seq<Known>,
                         i: nat, x: Option<Tx>)
    requires i < |shortIds| && SlotRight(short, pool, extra, shortIds[i], x) && x.Some?
    ensures Candidate(short, shortIds, pool + extra, i, x.value)
  {
    var f: nat :| FirstMatch(short, pool + extra, shortIds[i], f) && (pool + extra)[f].tx == x.value;
  }

  lemma GenuineAll(short: Hash -> ShortId, c: Compact, known: seq<Known>, ids: Ids, slots: seq<nat>, s0: Slots,
                   s: Slots)
    requires PrefilledIn(s0, c.prefilled, |c.prefilled|) && Empty(s0) == |c.shortIds|
    requires Mapped(s0, c.shortIds, ids, slots, |c.shortIds|) && |s| == |s0|
    requires forall p :: 0 <= p < |s| && s0[p].Some? ==> s[p] == s0[p]
    requires Justified(short, c.shortIds, known, slots, s)
    ensures forall vtx :: Describes(c, vtx) && Genuine(short, c.shortIds, known, slots, vtx) ==> Agrees(s, vtx)
  {
    hide *;
    forall vtx | Describes(c, vtx) && Genuine(short, c.shortIds, known, slots, vtx)
      ensures Agrees(s, vtx)
    {
      GenuineAgrees(short, c, known, ids, slots, s0, s, vtx);
    }
  }

  /** The i-th transaction of a block filled up from a list in order. */
  function FilledAt(s: Slots, more: seq<Tx>, i: nat): Tx
    requires i < |s| && Empty(s[..i]) <= |more| && (s[i].None? ==> Empty(s[..i]) < |more|)
  {
    if s[i].Some? then s[i].value else more[Empty(s[..i])]
  }

  lemma {:induction false} MissingAt(s: Slots, vtx: seq<Tx>, i: nat)
    requires |s| == |vtx|
    ensures |Missing(s, vtx)| == Empty(s)
    ensures i < |s| && s[i].None? ==> Empty(s[..i]) < Empty(s) && Missing(s, vtx)[Empty(s[..i])] == vtx[i]
    decreases |s|
  {
    if s != [] {
      var n := |s| - 1;
      MissingAt(s[..n], vtx[..n], i);
      if i < n {
        assert s[..n][..i] == s[..i];
      }
    }
  }

  /** The verdict on a whole block. */
  datatype Check = Accepted | MaybeCorrupt | Rejected

  class PartiallyDownloadedBlock {
    const pool: seq<Known>
    var header: Option<Header>
    var txnAvailable: Slots
    var prefilledCount: nat
    var mempoolCount: int
    ghost var start: Slots
    ghost var slots: seq<nat>

    constructor (pool: seq<Known>)
      ensures this.pool == pool && header.None? && txnAvailable == [] && mempoolCount == 0
    {
      this.pool := pool;
      header, txnAvailable, prefilledCount, mempoolCount := None, [], 0, 0;
    }

    /** Puts the prefilled transactions into their slots. */
    method Prefill(c: Compact) returns (ok: bool)
      modifies this`txnAvailable
      ensures ok <==> !BadPrefilled(c, |c.prefilled|)
      ensures ok ==>
        |txnAvailable| == |c.shortIds| + |c.prefilled| && PrefilledIn(txnAvailable, c.prefilled, |c.prefilled|)
    {
      hide PrefilledAt, PrefilledIn, Empty;
      txnAvailable := seq(|c.shortIds| + |c.prefilled|, i => None);
      var last := -1;
      PrefilledNone(txnAvailable, c.prefilled);
      for i := 0 to |c.prefilled|
        invariant |txnAvailable| == |c.shortIds| + |c.prefilled| && PrefilledIn(txnAvailable, c.prefilled, i)
        invariant last == if i == 0 then -1 else PrefilledAt(c.prefilled, i - 1)
        invariant !BadPrefilled(c, i)
      {
        PrefilledStep(c.prefilled, i);
        if c.prefilled[i].tx.isNull {
          assert BadAt(c, i);
          return false;
        }
        last := last + c.prefilled[i].index + 1;
        if last > MAX_INDEX {
          assert BadAt(c, i);
          return false;
        }
        if last > |c.shortIds| + i {
          assert BadAt(c, i);
          return false;
        }
        PrefillOne(txnAvailable, c.prefilled, i);
        txnAvailable := txnAvailable[last := Some(c.prefilled[i].tx)];
      }
      ok := true;
    }

    /** Looks known transactions up by short id. A second match empties the slot again. Reading ends with the
        list, or earlier when as many slots are taken as there are short ids. */
    method MatchList(short: Hash -> ShortId, ids: Ids, list: seq<Known>, comparing: bool, have0: seq<bool>,
                     ghost seen: seq<Sighting>) returns (have: seq<bool>, ghost n: nat)
      requires AsSeen(short, ids, seen, start, have0, txnAvailable) && forall id :: id in ids ==> ids[id] < |start|
      requires mempoolCount == Taken(have0, txnAvailable)
      modifies this`txnAvailable, this`mempoolCount
      ensures n <= |list| && AsSeen(short, ids, seen + Tagged(list[..n], comparing), start, have, txnAvailable)
      ensures mempoolCount == Taken(have, txnAvailable) && (n < |list| ==> mempoolCount == |ids|)
    {
      hide AsSeen, Taken, Tagged;
      have, n := have0, 0;
      AsSeenSizes(short, ids, seen, start, have, txnAvailable);
      assert seen + Tagged(list[..0], comparing) == seen;
      for i := 0 to |list|
        invariant n == i && |have| == |txnAvailable| == |start|
        invariant AsSeen(short, ids, seen + Tagged(list[..i], comparing), start, have, txnAvailable)
        invariant mempoolCount == Taken(have, txnAvailable)
      {
        var e := list[i];
        var id := short(e.hash);
        SeenOne(short, ids, seen + Tagged(list[..i], comparing), start, have, txnAvailable, Sighting(e, comparing));
        assert seen + Tagged(list[..i], comparing) + [Sighting(e, comparing)] ==
               seen + Tagged(list[..i + 1], comparing);
        if id in ids {
          var p := ids[id];
          if !have[p] {
            txnAvailable := txnAvailable[p := Some(e.tx)];
            have := have[p := true];
            mempoolCount := mempoolCount + 1;
          } else if txnAvailable[p].Some? && (!comparing || txnAvailable[p].value.witnessHash != e.tx.witnessHash) {
            txnAvailable := txnAvailable[p := None];
            mempoolCount := mempoolCount - 1;
            assert have[p := true] == have;
          } else {
            assert have[p := have[p]] == have && txnAvailable[p := txnAvailable[p]] == txnAvailable;
          }
        }
        n := n + 1;
        if mempoolCount == |ids| {
          break;
        }
      }
    }

    /** Sets up the slots of a block and fills those it can. None means that it does not return. */
    method InitData(c: Compact, extra: seq<Known>, short: Hash -> ShortId, bucket: ShortId -> nat)
      returns (r: Option<Status>)
      requires header.None? && txnAvailable == [] && mempoolCount == 0
      modifies this
      ensures r == Some(Invalid) <==> Bogus(c)
      ensures r == None <==> !Bogus(c) && Endless(c)
      ensures r == Some(Ok) <==>
        !Bogus(c) && !Endless(c) && Distinct(c.shortIds) && !Crowded(c.shortIds, bucket)
      ensures r == Some(Ok) && |c.shortIds| + |c.prefilled| <= POSITIONS ==>
        && Started(c)
        && (forall i :: 0 <= i < |c.shortIds| ==>
              slots[i] < |txnAvailable| && SlotRight(short, pool, extra, c.shortIds[i], txnAvailable[slots[i]]))
        && (forall vtx :: Describes(c, vtx) && Genuine(short, c.shortIds, pool + extra, slots, vtx) ==>
              Agrees(txnAvailable, vtx))
    {
      hide Mapped, PrefilledIn, Empty, Describes, Genuine, Agrees, AsSeen, Taken, Tagged, SlotRight;
      hide BadPrefilled, Blocked, LowFilled, Distinct, Crowded, Justified;
      if c.header.None? || (c.shortIds == [] && c.prefilled == []) {
        return Some(Invalid);
      }
      if |c.shortIds| + |c.prefilled| > MAX_TX_COUNT {
        return Some(Invalid);
      }
      header := c.header;
      var ok := Prefill(c);
      if !ok {
        return Some(Invalid);
      }
      prefilledCount := |c.prefilled|;
      start := txnAvailable;
      PrefilledEmpty(start, c);
      PrefilledLow(c, start);
      var ended, unique, ids, places := MapShortIds(txnAvailable, c.shortIds, bucket);
      if !ended {
        return None;
      }
      if !unique {
        return Some(Failed);
      }
      slots := places;
      MappedRange(start, c.shortIds, ids, slots);
      AsSeenNone(short, ids, start);
      var have := seq(|txnAvailable|, i => false);
      ghost var a, b: nat;
      have, a := MatchList(short, ids, pool, false, have, []);
      assert [] + Tagged(pool[..a], false) == Tagged(pool[..a], false);
      ghost var have1, s1 := have, txnAvailable;
      have, b := MatchList(short, ids, extra, true, have, Tagged(pool[..a], false));
      if |start| <= POSITIONS {
        SlotsFilled(short, c.shortIds, ids, slots, pool, a, extra, b, start, have1, s1, have, txnAvailable);
        SeenCounted(short, c.shortIds, ids, slots, Tagged(pool[..a], false) + Tagged(extra[..b], true), start, have,
                    txnAvailable);
        AsSeenSizes(short, ids, Tagged(pool[..a], false) + Tagged(extra[..b], true), start, have, txnAvailable);
        RightIsJustified(short, c.shortIds, pool, extra, slots, txnAvailable);
        GenuineAll(short, c, pool + extra, ids, slots, start, txnAvailable);
        MappedSlots(start, c.shortIds, ids, slots);
      }
      return Some(Ok);
    }

    /** Completes the block with the transactions that were missing, in order; this works once. */
    method FillBlock(missing: seq<Tx>, check: seq<Tx> -> Check) returns (status: Status, vtx: seq<Tx>)
      requires header.Some?
      modifies this`header, this`txnAvailable
      ensures |missing| < Empty(old(txnAvailable)) ==> status == Invalid
      ensures |missing| >= Empty(old(txnAvailable)) ==> header.None? && txnAvailable == []
      ensures |missing| > Empty(old(txnAvailable)) ==> status == Invalid
      ensures |missing| == Empty(old(txnAvailable)) ==>
        status == match check(vtx) { case Accepted => Ok case MaybeCorrupt => Failed case Rejected => CheckBlockFailed }
      ensures forall block :: Agrees(old(txnAvailable), block) && missing == Missing(old(txnAvailable), block) ==>
        vtx == block && |missing| == Empty(old(txnAvailable))
    {
      hide Empty, Missing, Agrees;
      ghost var s := txnAvailable;
      vtx := [];
      var offset: nat := 0;
      EmptyPrefix(s, 0);
      for i := 0 to |txnAvailable|
        invariant |txnAvailable| == |s| && forall p :: i <= p < |s| ==> txnAvailable[p] == s[p]
        invariant |vtx| == i && offset == Empty(s[..i]) <= |missing| && header == old(header)
        invariant forall p :: 0 <= p < i ==> Empty(s[..p]) <= |missing| && (s[p].None? ==> Empty(s[..p]) < |missing|) &&
                                             vtx[p] == FilledAt(s, missing, p)
      {
        EmptyPrefix(s, i);
        if txnAvailable[i].None? {
          if |missing| <= offset {
            ShortOf(s, missing, i);
            return Invalid, vtx;
          }
          vtx := vtx + [missing[offset]];
          offset := offset + 1;
        } else {
          vtx := vtx + [txnAvailable[i].value];
          txnAvailable := txnAvailable[i := None];
        }
      }
      EmptyPrefix(s, |s|);
      FilledRight(s, missing, vtx);
      header, txnAvailable := None, [];
      if |missing| != offset {
        return Invalid, vtx;
      }
      match check(vtx) {
        case Accepted => return Ok, vtx;
        case MaybeCorrupt => return Failed, vtx;
        case Rejected => return CheckBlockFailed, vtx;
      }
    }

    /** The slots are set up: prefilled transactions distinct and in place, short ids in order on the
        others, and the number of those that are filled counted. */
    ghost predicate Started(c: Compact)
      reads this
    {
      && header == c.header && |txnAvailable| == |start| == |c.shortIds| + |c.prefilled|
      && PrefilledIn(start, c.prefilled, |c.prefilled|) && prefilledCount == |c.prefilled|
      && (forall p :: 0 <= p < |start| && start[p].Some? ==> txnAvailable[p] == start[p])
      && |slots| == |c.shortIds| && (forall i :: 0 <= i < |slots| ==> IsSlot(start, i, slots[i]))
      && 0 <= mempoolCount && Empty(txnAvailable) + mempoolCount == |c.shortIds|
    }
  }

  lemma ShortOf(s: Slots, missing: seq<Tx>, i: nat)
    requires i < |s| && s[i].None? && |missing| <= Empty(s[..i])
    ensures |missing| < Empty(s)
    ensures forall block :: Agrees(s, block) ==> missing != Missing(s, block)
  {
    hide Empty, Missing;
    SlotExists(s, i, Empty(s[..i]));
    forall block | Agrees(s, block)
      ensures missing != Missing(s, block)
    {
      MissingAt(s, block, 0);
    }
  }

  lemma FilledRight(s: Slots, missing: seq<Tx>, vtx: seq<Tx>)
    requires |vtx| == |s|
    requires forall p :: 0 <= p < |s| ==> Empty(s[..p]) <= |missing| && (s[p].None? ==> Empty(s[..p]) < |missing|) &&
                                          vtx[p] == FilledAt(s, missing, p)
    ensures forall block :: Agrees(s, block) && missing == Missing(s, block) ==> vtx == block && |missing| == Empty(s)
  {
    hide Empty, Missing;
    forall block | Agrees(s, block) && missing == Missing(s, block)
      ensures vtx == block && |missing| == Empty(s)
    {
      MissingAt(s, block, 0);
      forall p | 0 <= p < |s|
        ensures vtx[p] == block[p]
      {
        MissingAt(s, block, p);
      }
    }
  }

  // ---------------------------------------------------------------------
  // Making the compact form

  /** The hash that a transaction's short id is computed from. */
  function IdHash(tx: Tx, useWitness: bool): Hash {
    if useWitness then tx.witnessHash else tx.hash
  }

  /** The coinbase is sent along, everything else by short id. */
  method MakeCompact(header: Header, vtx: seq<Tx>, useWitness: bool, short: Hash -> ShortId) returns (c: Compact)
    requires vtx != []
    ensures Describes(c, vtx) && c.header == Some(header) && |c.shortIds| == |vtx| - 1
    ensures c.prefilled == [Prefilled(0, vtx[0])]
    ensures forall i :: 0 <= i < |c.shortIds| ==>
      c.shortIds[i] == short(IdHash(vtx[i + 1], useWitness))
    ensures !vtx[0].isNull && |vtx| <= MAX_TX_COUNT ==> !Bogus(c) && !Endless(c)
  {
    var ids: seq<ShortId> := [];
    for i := 1 to |vtx|
      invariant |ids| == i - 1
      invariant forall j :: 0 <= j < i - 1 ==>
        ids[j] == short(IdHash(vtx[j + 1], useWitness))
    {
      ids := ids + [short(IdHash(vtx[i], useWitness))];
    }
    c := Compact(Some(header), ids, [Prefilled(0, vtx[0])]);
  }

  // ---------------------------------------------------------------------
  // From the sender to the rebuilt block

  /** No known transaction has the short id of another one in the block. */
  ghost predicate NoFalseMatch(short: Hash -> ShortId, known: seq<Known>, vtx: seq<Tx>, useWitness: bool) {
    forall i, k :: 0 < i < |vtx| && 0 <= k < |known| && short(known[k].hash) == short(IdHash(vtx[i], useWitness)) ==>
      known[k].tx == vtx[i]
  }

  lemma SlotsFollow(s: Slots, tx: Tx, i: nat, p: nat)
    requires PrefilledIn(s, [Prefilled(0, tx)], 1) && IsSlot(s, i, p)
    ensures p == i + 1
  {
    hide Empty;
    assert PrefilledAt([Prefilled(0, tx)], 0) == 0;
    EmptyFront(s, p);
  }

  lemma MatchesGenuine(short: Hash -> ShortId, shortIds: seq<ShortId>, known: seq<Known>, slots: seq<nat>, vtx: seq<Tx>,
                       useWitness: bool)
    requires NoFalseMatch(short, known, vtx, useWitness) && |slots| == |shortIds| == |vtx| - 1
    requires forall i :: 0 <= i < |slots| ==> slots[i] == i + 1 && shortIds[i] == short(IdHash(vtx[i + 1], useWitness))
    ensures Genuine(short, shortIds, known, slots, vtx)
  {
  }

  /** A block sent in compact form and completed with what the receiver finds missing. If positions fit 16 bits it
      is rebuilt, unless its short ids collide or crowd, or a known transaction matches falsely. */
  method SendAndRebuild(header: Header, vtx: seq<Tx>, useWitness: bool, pool: seq<Known>, extra: seq<Known>,
                        short: Hash -> ShortId, bucket: ShortId -> nat, check: seq<Tx> -> Check)
    returns (started: Option<Status>, status: Status, rebuilt: seq<Tx>)
    requires vtx != []
    ensures !vtx[0].isNull && |vtx| <= MAX_TX_COUNT ==> (started == Some(Ok) <==>
      var ids := seq(|vtx| - 1, i requires 0 <= i < |vtx| - 1 => short(IdHash(vtx[i + 1], useWitness)));
      Distinct(ids) && !Crowded(ids, bucket))
    ensures started == Some(Ok) && |vtx| <= POSITIONS && NoFalseMatch(short, pool + extra, vtx, useWitness) ==>
      rebuilt == vtx && (status == Ok <==> check(vtx) == Accepted)
  {
    hide Empty, PrefilledIn, Distinct, Crowded, Genuine, Agrees, Describes, Missing, NoFalseMatch, SlotRight, Bogus;
    var c := MakeCompact(header, vtx, useWitness, short);
    assert c.shortIds == seq(|vtx| - 1, i requires 0 <= i < |vtx| - 1 => short(IdHash(vtx[i + 1], useWitness)));
    var block := new PartiallyDownloadedBlock(pool);
    started := block.InitData(c, extra, short, bucket);
    if started != Some(Ok) || |vtx| > POSITIONS {
      return started, Invalid, [];
    }
    forall i | 0 <= i < |block.slots|
      ensures block.slots[i] == i + 1
    {
      SlotsFollow(block.start, vtx[0], i, block.slots[i]);
    }
    if NoFalseMatch(short, pool + extra, vtx, useWitness) {
      MatchesGenuine(short, c.shortIds, pool + extra, block.slots, vtx, useWitness);
    }
    status, rebuilt := block.FillBlock(Missing(block.txnAvailable, vtx), check);
  }
}
