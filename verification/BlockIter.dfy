/** Reading a block: the iterator over its entries. */
module BlockIter {
  import opened BlockBuilder
  import opened BlockFormat
  import opened Options

  // ---------------------------------------------------------------------
  // Facts about a formed block

  ghost predicate IsEntry(l: Layout, i: nat) {
    Sized(l) && i < |l.entries|
  }

  /** Decoding at an entry of a formed block. */
  lemma FormedEntry(b: Opened, l: Layout, interval: nat, i: nat) returns (keyAt: nat)
    requires Formed(b, l, interval) && IsEntry(l, i)
    ensures var e, shared := l.entries[i], l.shared[i];
      && shared <= |e.key| && l.off[i] < l.off[i + 1] <= b.restarts
      && keyAt + (|e.key| - shared) + |e.value| == l.off[i + 1]
      && DecodeEntry(b.data, l.off[i], b.restarts) == Some(Header(keyAt, shared, |e.key| - shared, |e.value|))
      && b.data[keyAt..keyAt + (|e.key| - shared)] == e.key[shared..]
      && b.data[l.off[i + 1] - |e.value|..l.off[i + 1]] == e.value
      && (if i == 0 then shared == 0
          else shared <= |l.entries[i - 1].key| && e.key[..shared] == l.entries[i - 1].key[..shared])
  {
    hide DecodeEntry, EntryBytes, EntryHead, RestartPoint, RestartLaid;
    assert EntryLaid(b.data[..b.restarts], l, i);
    var e, shared := l.entries[i], l.shared[i];
    var s := EntryBytes(shared, e.key, e.value);
    WithinStands(b.data, b.restarts, l.off[i], s);
    EntryRoundTrip(b.data, l.off[i], b.restarts, shared, e.key, e.value);
    keyAt := l.off[i] + |EntryHead(shared, e.key, e.value)|;
  }

  lemma WithinStands(data: seq<byte>, n: nat, p: nat, s: seq<byte>)
    requires n <= |data| && Stands(data[..n], p, s)
    ensures Stands(data, p, s) && p + |s| <= n
  {
    assert data[..n][p..p + |s|] == data[p..p + |s|];
  }

  lemma {:induction false} OffsetsIncrease(b: Opened, l: Layout, interval: nat, i: nat, k: nat)
    requires Formed(b, l, interval) && i <= k <= |l.entries|
    ensures Sized(l) && l.off[i] <= l.off[k] <= b.restarts && (i < k ==> l.off[i] < l.off[k])
    ensures l.off[|l.entries|] == b.restarts
    decreases k - i
  {
    hide DecodeEntry, EntryBytes, RestartPoint, RestartLaid, EntryLaid;
    if i < k {
      var _ := FormedEntry(b, l, interval, i);
      OffsetsIncrease(b, l, interval, i + 1, k);
    } else if k < |l.entries| {
      var _ := FormedEntry(b, l, interval, k);
    }
  }

  lemma {:induction false} RestartsIncrease(l: Layout, interval: nat, j: nat, k: nat)
    requires Sized(l) && j <= k < |l.restart| && interval > 0
    requires forall m :: 0 <= m < |l.restart| ==> RestartLaid(l, interval, m)
    ensures l.restart[j] <= l.restart[k] && (j < k ==> l.restart[j] < l.restart[k])
    decreases k - j
  {
    if j < k {
      assert RestartLaid(l, interval, k);
      RestartsIncrease(l, interval, j, k - 1);
    }
  }

  /** A restart point is the start of an entry that shares nothing with its predecessor. */
  lemma FormedRestart(b: Opened, l: Layout, interval: nat, j: nat)
    requires Formed(b, l, interval) && j < b.numRestarts
    ensures Sized(l) && l.restart[j] <= |l.entries| && RestartPoint(b, j) == l.off[l.restart[j]]
    ensures l.entries != [] ==> l.restart[j] < |l.entries| && l.shared[l.restart[j]] == 0
    ensures l.entries == [] ==> j == 0
    ensures j == 0 ==> l.restart[j] == 0
  {
    hide EntryLaid, RestartPoint;
    assert RestartLaid(l, interval, j);
  }

  // ---------------------------------------------------------------------
  // Positions

  datatype Cursor = Cursor(current: nat, restartIndex: nat, key: Key, valueAt: nat, valueLength: nat)

  /** n bytes of memory from p on: the block's own, and past its end whatever is there. */
  function Memory(data: seq<byte>, outside: nat -> byte, p: nat, n: nat): (s: seq<byte>)
    ensures |s| == n && (p + n <= |data| ==> s == data[p..p + n])
  {
    seq(n, (i: nat) => if p + i < |data| then data[p + i] else outside(p + i))
  }

  /** The cursor's value is the one the header at its offset announces. */
  ghost predicate Shows(b: Opened, c: Cursor) {
    GoodBlock(b) &&
    match DecodeEntry(b.data, c.current, b.restarts)
    case None => false
    case Some(h) => c.valueAt == h.keyAt + h.nonShared && c.valueLength == h.valueLength
  }

  /** On any bytes the next entry's offset, in 32 bits, lies further on and not past the entries. The value
      itself lies among the entries if and only if the lengths in the header add up without wrapping. */
  lemma ShownAdvances(b: Opened, c: Cursor)
    requires Shows(b, c)
    ensures c.current < (c.valueAt + c.valueLength) % LIMIT <= b.restarts
    ensures var h := DecodeEntry(b.data, c.current, b.restarts).value;
      c.valueAt + c.valueLength <= b.restarts <==> Fits(h)
  {
    hide DecodeEntry;
    var h := DecodeEntry(b.data, c.current, b.restarts).value;
    WrapsTo(h.keyAt, h.nonShared + h.valueLength);
  }

  lemma WrapsTo(a: nat, n: nat)
    requires a + n % LIMIT < LIMIT
    ensures (a + n) % LIMIT == a + n % LIMIT
  {
  }

  /** The cursor stands on entry i. Its restart index is that of the entry's restart interval, or of the
      one before when the entry is itself a restart. */
  ghost predicate At(b: Opened, l: Layout, i: nat, c: Cursor) {
    && GoodBlock(b) && IsEntry(l, i)
    && c.current == l.off[i] < b.restarts && c.key == l.entries[i].key
    && c.valueAt + c.valueLength == l.off[i + 1] <= b.restarts && c.valueLength == |l.entries[i].value|
    && b.data[c.valueAt..c.valueAt + c.valueLength] == l.entries[i].value
    && c.restartIndex < b.numRestarts && RestartPoint(b, c.restartIndex) <= c.current
    && (c.restartIndex + 1 < b.numRestarts ==> RestartPoint(b, c.restartIndex + 1) >= c.current)
  }

  ghost predicate AtEnd(b: Opened, c: Cursor) {
    b.Block? && c.current == b.restarts && c.restartIndex == b.numRestarts
  }

  /** Parsing from here reads entry i next, if there is one. */
  ghost predicate Ready(b: Opened, l: Layout, i: nat, c: Cursor) {
    && GoodBlock(b) && Sized(l) && i <= |l.entries|
    && c.valueAt + c.valueLength == l.off[i]
    && c.restartIndex < b.numRestarts && RestartPoint(b, c.restartIndex) <= l.off[i]
    && (i < |l.entries| ==> l.shared[i] <= |c.key| && l.shared[i] <= |l.entries[i].key| &&
                            c.key[..l.shared[i]] == l.entries[i].key[..l.shared[i]])
  }

  lemma ReadyAfter(b: Opened, l: Layout, interval: nat, i: nat, c: Cursor)
    requires Formed(b, l, interval) && At(b, l, i, c)
    ensures Ready(b, l, i + 1, c)
  {
    hide DecodeEntry, RestartPoint, Laid;
    FormedSized(b, l, interval);
    if i + 1 < |l.entries| {
      var _ := FormedEntry(b, l, interval, i + 1);
    }
    OffsetsIncrease(b, l, interval, i, i + 1);
  }

  lemma FormedSized(b: Opened, l: Layout, interval: nat)
    requires Formed(b, l, interval)
    ensures Sized(l) && l.off[|l.entries|] == b.restarts && GoodBlock(b) && |l.restart| == b.numRestarts
  {
  }

  lemma ReadyAtRestart(b: Opened, l: Layout, interval: nat, j: nat, c: Cursor)
    requires Formed(b, l, interval) && j < b.numRestarts
    requires c.restartIndex == j && c.key == [] && c.valueAt == RestartPoint(b, j) && c.valueLength == 0
    ensures Sized(l) && |l.restart| == b.numRestarts && Ready(b, l, l.restart[j], c)
  {
    hide RestartPoint, Laid;
    FormedSized(b, l, interval);
    FormedRestart(b, l, interval, j);
  }

  /** One step of the parser on a formed block, before the restart index is brought up. */
  lemma ParseRight(b: Opened, l: Layout, interval: nat, i: nat, c: Cursor, outside: nat -> byte)
    requires Formed(b, l, interval) && Ready(b, l, i, c) && i < |l.entries|
    ensures l.off[i] < b.restarts
    ensures var h := DecodeEntry(b.data, l.off[i], b.restarts);
      && h.Some? && h.value.shared <= |c.key|
      && c.key[..h.value.shared] + Memory(b.data, outside, h.value.keyAt, h.value.nonShared) == l.entries[i].key
      && h.value.keyAt + h.value.nonShared + h.value.valueLength == l.off[i + 1] <= |b.data|
      && h.value.valueLength == |l.entries[i].value|
      && b.data[h.value.keyAt + h.value.nonShared..l.off[i + 1]] == l.entries[i].value
  {
    hide DecodeEntry, RestartPoint, Formed, Extent, Fits, Memory;
    var keyAt := FormedEntry(b, l, interval, i);
    var e, shared := l.entries[i], l.shared[i];
    assert e.key[..shared] + e.key[shared..] == e.key;
  }

  class Iter {
    const b: Opened
    const lt: (Key, Key) -> bool
    const outside: nat -> byte
    var current: nat
    var restartIndex: nat
    var key: Key
    var valueAt: nat
    var valueLength: nat
    var corrupt: bool

    ghost function Here(): Cursor
      reads this
    {
      Cursor(current, restartIndex, key, valueAt, valueLength)
    }

    /** True of every iterator, whatever the block's bytes. */
    ghost predicate Ok()
      reads this
    {
      && GoodBlock(b) && current <= b.restarts
      && (current < b.restarts ==> restartIndex < b.numRestarts && Shows(b, Here()))
    }

    constructor (b: Opened, lt: (Key, Key) -> bool, outside: nat -> byte)
      requires GoodBlock(b)
      ensures Ok() && this.b == b && this.lt == lt && AtEnd(b, Here()) && !corrupt
    {
      this.b, this.lt, this.outside := b, lt, outside;
      current, restartIndex := b.restarts, b.numRestarts;
      key, valueAt, valueLength, corrupt := [], 0, 0, false;
    }

    function NextEntryOffset(): nat
      reads this
    {
      (valueAt + valueLength) % LIMIT
    }

    method CorruptionError()
      requires GoodBlock(b)
      modifies this
      ensures Ok() && corrupt && AtEnd(b, Here())
    {
      current, restartIndex, corrupt := b.restarts, b.numRestarts, true;
      key, valueAt, valueLength := [], 0, 0;
    }

    method SeekToRestartPoint(index: nat)
      requires GoodBlock(b) && index < b.numRestarts
      modifies this`key, this`restartIndex, this`valueAt, this`valueLength
      ensures restartIndex == index && key == [] && valueAt == RestartPoint(b, index) && valueLength == 0
    {
      key, restartIndex := [], index;
      valueAt, valueLength := RestartPoint(b, index), 0;
    }

    method AdvanceRestartIndex()
      requires GoodBlock(b) && restartIndex < b.numRestarts
      modifies this`restartIndex
      ensures restartIndex < b.numRestarts
      ensures old(RestartPoint(b, restartIndex) <= current) ==> RestartPoint(b, restartIndex) <= current
      ensures restartIndex + 1 < b.numRestarts ==> RestartPoint(b, restartIndex + 1) >= current
    {
      while restartIndex + 1 < b.numRestarts && RestartPoint(b, restartIndex + 1) < current
        invariant restartIndex < b.numRestarts
        invariant old(RestartPoint(b, restartIndex) <= current) ==> RestartPoint(b, restartIndex) <= current
      {
        restartIndex := restartIndex + 1;
      }
    }

    /** Moves to the entry that starts where the current one ends. */
    method ParseNextKey(ghost l: Layout, ghost interval: nat, ghost i: nat) returns (more: bool)
      requires GoodBlock(b) && restartIndex < b.numRestarts
      modifies this
      ensures Ok() && (more <==> current < b.restarts)
      ensures more ==> current == old(NextEntryOffset()) < NextEntryOffset() <= b.restarts && corrupt == old(corrupt)
      ensures !more ==> AtEnd(b, Here())
      ensures Formed(b, l, interval) && old(Ready(b, l, i, Here())) ==>
        corrupt == old(corrupt) && (if i < |l.entries| then At(b, l, i, Here()) else AtEnd(b, Here()))
    {
      hide RestartPoint, DecodeEntry, Formed, Ready, At, Memory, Extent, Fits;
      ghost var c := Here();
      ghost var wf := Formed(b, l, interval) && Ready(b, l, i, c);
      if wf {
        ParseStart(b, l, interval, i, c, outside);
      }
      current := NextEntryOffset();
      if current >= b.restarts {
        current, restartIndex := b.restarts, b.numRestarts;
        return false;
      }
      var h := DecodeEntry(b.data, current, b.restarts);
      if h.None? || |key| < h.value.shared {
        CorruptionError();
        return false;
      }
      key := key[..h.value.shared] + Memory(b.data, outside, h.value.keyAt, h.value.nonShared);
      valueAt, valueLength := h.value.keyAt + h.value.nonShared, h.value.valueLength;
      AdvanceRestartIndex();
      ShownAdvances(b, Here());
      if wf {
        ParseDone(b, l, interval, i, c, Here(), outside);
      }
      return true;
    }

    method Next(ghost l: Layout, ghost interval: nat, ghost i: nat)
      requires Ok() && current < b.restarts
      modifies this
      ensures Ok()
      ensures Formed(b, l, interval) && old(At(b, l, i, Here())) ==>
        corrupt == old(corrupt) && (if i + 1 < |l.entries| then At(b, l, i + 1, Here()) else AtEnd(b, Here()))
    {
      hide RestartPoint, Formed, Ready, At;
      if Formed(b, l, interval) && At(b, l, i, Here()) {
        ReadyAfter(b, l, interval, i, Here());
      }
      var _ := ParseNextKey(l, interval, i + 1);
    }

    method SeekToFirst(ghost l: Layout, ghost interval: nat)
      requires GoodBlock(b)
      modifies this
      ensures Ok()
      ensures Formed(b, l, interval) ==>
        corrupt == old(corrupt) && (if l.entries != [] then At(b, l, 0, Here()) else AtEnd(b, Here()))
    {
      hide RestartPoint, Formed, Ready, At;
      SeekToRestartPoint(0);
      if Formed(b, l, interval) {
        ReadyAtRestart(b, l, interval, 0, Here());
        FormedRestart(b, l, interval, 0);
      }
      var _ := ParseNextKey(l, interval, 0);
    }

    /** Parses on until the entry that ends at the given offset; on a formed block that is entry
        to - 1, the scan having started before entry from. */
    method ScanUntil(stop: nat, ghost l: Layout, ghost interval: nat, ghost from: nat, ghost to: nat)
      requires GoodBlock(b) && restartIndex < b.numRestarts
      modifies this
      ensures Ok()
      ensures Formed(b, l, interval) && old(Ready(b, l, from, Here())) && Reaches(l, from, to, stop) ==>
        corrupt == old(corrupt) && (if from < to then At(b, l, to - 1, Here()) else AtEnd(b, Here()))
    {
      hide RestartPoint, Formed, Ready, At, Reaches, Shows;
      ghost var wf := Formed(b, l, interval) && Ready(b, l, from, Here()) && Reaches(l, from, to, stop);
      ghost var k: nat := from;
      var go := true;
      while go
        invariant go ==> restartIndex < b.numRestarts
        invariant !go ==> Ok()
        invariant wf ==> corrupt == old(corrupt)
        invariant wf && go ==> Ready(b, l, k, Here()) && Reaches(l, k, to, stop) && (k < to <==> from < to)
        invariant wf && !go ==> if from < to then At(b, l, to - 1, Here()) else AtEnd(b, Here())
        decreases go, b.restarts - NextEntryOffset()
      {
        var more := ParseNextKey(l, interval, k);
        go := more && NextEntryOffset() < stop;
        if wf {
          ReachesStep(b, l, interval, k, to, stop, Here());
        }
        k := k + 1;
      }
    }

    method SeekToLast(ghost l: Layout, ghost interval: nat)
      requires GoodBlock(b)
      modifies this
      ensures Ok()
      ensures Formed(b, l, interval) ==>
        corrupt == old(corrupt) && (if l.entries != [] then At(b, l, |l.entries| - 1, Here()) else AtEnd(b, Here()))
    {
      hide RestartPoint, Formed, Ready, At, Reaches;
      SeekToRestartPoint(b.numRestarts - 1);
      ghost var from: nat := 0;
      if Formed(b, l, interval) {
        ReadyAtRestart(b, l, interval, b.numRestarts - 1, Here());
        FormedRestart(b, l, interval, b.numRestarts - 1);
        from := l.restart[b.numRestarts - 1];
        ReachesEnd(b, l, interval, from);
      }
      ScanUntil(b.restarts, l, interval, from, |l.entries|);
    }

    /** Steps back: to a restart point before the current entry, then forward to the entry that ends
        where the current one starts. */
    method Prev(ghost l: Layout, ghost interval: nat, ghost i: nat)
      requires Ok() && current < b.restarts
      modifies this
      ensures Ok()
      ensures Formed(b, l, interval) && old(At(b, l, i, Here())) ==>
        corrupt == old(corrupt) && (if i > 0 then At(b, l, i - 1, Here()) else AtEnd(b, Here()))
    {
      hide RestartPoint, Formed, Ready, At, Reaches;
      var original := current;
      ghost var wf := Formed(b, l, interval) && At(b, l, i, Here());
      ghost var r := restartIndex;
      if wf {
        PrevStart(b, l, interval, i, Here());
      }
      while RestartPoint(b, restartIndex) >= original
        invariant restartIndex <= r && current == original && corrupt == old(corrupt) && restartIndex < b.numRestarts
        decreases restartIndex
      {
        if restartIndex == 0 {
          current, restartIndex := b.restarts, b.numRestarts;
          return;
        }
        restartIndex := restartIndex - 1;
      }
      SeekToRestartPoint(restartIndex);
      ghost var from: nat := 0;
      if wf {
        ReadyAtRestart(b, l, interval, restartIndex, Here());
        from := l.restart[restartIndex];
        PrevReaches(b, l, interval, i, restartIndex);
      }
      ScanUntil(original, l, interval, from, i);
    }

    /** The binary search: the last restart point whose key is below the target, or the first one. */
    method FindRestart(target: Key, ghost l: Layout, ghost interval: nat) returns (ok: bool, left: nat)
      requires GoodBlock(b)
      ensures ok ==> left < b.numRestarts
      ensures Formed(b, l, interval) ==> ok && (left == 0 || RestartBelow(lt, l, left, target))
      ensures Formed(b, l, interval) && IsOrder(lt) && Increasing(lt, l.entries) ==>
        forall j :: left < j < b.numRestarts ==> !RestartBelow(lt, l, j, target)
    {
      hide RestartPoint, Formed, DecodeEntry, RestartBelow, Extent, Fits, Memory, IsOrder, Increasing;
      ghost var sorted := Formed(b, l, interval) && IsOrder(lt) && Increasing(lt, l.entries);
      left := 0;
      var right := b.numRestarts - 1;
      while left < right
        invariant left <= right < b.numRestarts
        invariant Formed(b, l, interval) ==> left == 0 || RestartBelow(lt, l, left, target)
        invariant sorted ==> forall j :: right < j < b.numRestarts ==> !RestartBelow(lt, l, j, target)
      {
        var mid := (left + right + 1) / 2;
        var h := DecodeEntry(b.data, RestartPoint(b, mid), b.restarts);
        if Formed(b, l, interval) {
          RestartKey(b, l, interval, mid, lt, target, outside);
        }
        if h.None? || h.value.shared != 0 {
          return false, left;
        }
        if lt(Memory(b.data, outside, h.value.keyAt, h.value.nonShared), target) {
          left := mid;
        } else {
          if sorted {
            NoneBelowAfter(b, l, interval, mid, lt, target);
          }
          right := mid - 1;
        }
      }
      ok := true;
    }

    /** Moves to the first entry whose key is not below the target. */
    method Seek(target: Key, ghost l: Layout, ghost interval: nat)
      requires Ok()
      modifies this
      ensures Ok()
      ensures Formed(b, l, interval) && IsOrder(lt) && Increasing(lt, l.entries) ==>
        corrupt == old(corrupt) &&
        var k := Lower(lt, l.entries, target); if k < |l.entries| then At(b, l, k, Here()) else AtEnd(b, Here())
    {
      hide RestartPoint, Formed, Ready, At, RestartBelow, IsOrder, Increasing, Lower;
      ghost var wf := Formed(b, l, interval) && IsOrder(lt) && Increasing(lt, l.entries);
      var ok, left := FindRestart(target, l, interval);
      if !ok {
        CorruptionError();
        return;
      }
      SeekToRestartPoint(left);
      ghost var k: nat := 0;
      if wf {
        ReadyAtRestart(b, l, interval, left, Here());
        k := l.restart[left];
        BelowRestart(b, l, interval, left, lt, target);
      }
      LowerIs(lt, l.entries, target);
      while true
        invariant restartIndex < b.numRestarts && (wf ==> corrupt == old(corrupt))
        invariant wf ==> Ready(b, l, k, Here()) && k <= Lower(lt, l.entries, target)
        decreases b.restarts - NextEntryOffset()
      {
        var more := ParseNextKey(l, interval, k);
        if !more {
          if wf {
            EndNotAt(b, l, k, Here());
          }
          return;
        }
        if wf {
          SeekStep(b, l, interval, k, lt, target, Here());
        }
        if !lt(key, target) {
          return;
        }
        k := k + 1;
      }
    }
  }

  /** Scanning from entry k ends at stop with entry to - 1. */
  ghost predicate Reaches(l: Layout, k: nat, to: nat, stop: nat) {
    Sized(l) && k <= to <= |l.entries| && l.off[to] == stop && (k == to ==> to == |l.entries|)
  }

  lemma ReachesStep(b: Opened, l: Layout, interval: nat, k: nat, to: nat, stop: nat, c: Cursor)
    requires Formed(b, l, interval) && Reaches(l, k, to, stop)
    requires if k < |l.entries| then At(b, l, k, c) else AtEnd(b, c)
    ensures k <= to <= |l.entries| && (k == to ==> k == |l.entries|)
    ensures k < to ==> At(b, l, k, c) && Ready(b, l, k + 1, c)
    ensures k < to ==> ((c.valueAt + c.valueLength) % LIMIT < stop <==> k + 1 < to)
    ensures k + 1 < to ==> Reaches(l, k + 1, to, stop)
    ensures k == to ==> AtEnd(b, c)
    ensures k < |l.entries| ==> c.current < b.restarts
    ensures k == |l.entries| ==> c.current == b.restarts
  {
    hide RestartPoint, Formed, Ready;
    if k < to {
      ReadyAfter(b, l, interval, k, c);
      OffsetsIncrease(b, l, interval, k + 1, to);
    }
  }

  lemma ReachesEnd(b: Opened, l: Layout, interval: nat, from: nat)
    requires Formed(b, l, interval) && from <= |l.entries| && (l.entries != [] ==> from < |l.entries|)
    ensures Reaches(l, from, |l.entries|, b.restarts)
  {
    FormedSized(b, l, interval);
  }

  lemma PrevStart(b: Opened, l: Layout, interval: nat, i: nat, c: Cursor)
    requires Formed(b, l, interval) && At(b, l, i, c)
    ensures Sized(l) && c.current == l.off[i] && i < |l.entries|
    ensures i == 0 ==> c.current == 0
    ensures i > 0 ==> RestartPoint(b, 0) < c.current
  {
    hide RestartPoint;
    FormedRestart(b, l, interval, 0);
    OffsetsIncrease(b, l, interval, 0, i);
  }

  lemma PrevReaches(b: Opened, l: Layout, interval: nat, i: nat, r: nat)
    requires Formed(b, l, interval) && IsEntry(l, i) && r < b.numRestarts && RestartPoint(b, r) < l.off[i]
    ensures r < |l.restart| && l.restart[r] < i && Reaches(l, l.restart[r], i, l.off[i])
  {
    hide RestartPoint, Laid;
    FormedSized(b, l, interval);
    FormedRestart(b, l, interval, r);
    if l.restart[r] >= i {
      OffsetsIncrease(b, l, interval, i, l.restart[r]);
    }
  }

  // ---------------------------------------------------------------------
  // Seeking

  /** The number of entries whose keys are below the target, in a sorted block. */
  ghost function Lower(lt: (Key, Key) -> bool, entries: seq<Pair>, target: Key): nat {
    if entries == [] || !lt(entries[0].key, target) then 0 else 1 + Lower(lt, entries[1..], target)
  }

  lemma {:induction false} LowerIs(lt: (Key, Key) -> bool, entries: seq<Pair>, target: Key)
    ensures var k := Lower(lt, entries, target);
      && k <= |entries| && (forall i :: 0 <= i < k ==> lt(entries[i].key, target))
      && (k < |entries| ==> !lt(entries[k].key, target))
    decreases |entries|
  {
    if entries != [] && lt(entries[0].key, target) {
      LowerIs(lt, entries[1..], target);
    }
  }

  ghost predicate RestartBelow(lt: (Key, Key) -> bool, l: Layout, j: nat, target: Key) {
    j < |l.restart| && l.restart[j] < |l.entries| && lt(l.entries[l.restart[j]].key, target)
  }

  /** The key at a restart point is written in full. */
  lemma RestartKey(b: Opened, l: Layout, interval: nat, j: nat, lt: (Key, Key) -> bool, target: Key,
                   outside: nat -> byte)
    requires Formed(b, l, interval) && 0 < j < b.numRestarts
    ensures var h := DecodeEntry(b.data, RestartPoint(b, j), b.restarts);
      && h.Some? && h.value.shared == 0
      && (lt(Memory(b.data, outside, h.value.keyAt, h.value.nonShared), target) <==> RestartBelow(lt, l, j, target))
  {
    hide RestartPoint, DecodeEntry, Extent, Fits, Memory;
    FormedSized(b, l, interval);
    FormedRestart(b, l, interval, j);
    var keyAt := FormedEntry(b, l, interval, l.restart[j]);
    assert l.entries[l.restart[j]].key[0..] == l.entries[l.restart[j]].key;
  }

  /** If the key at a restart point is not below the target, none after it is. */
  lemma NoneBelowAfter(b: Opened, l: Layout, interval: nat, m: nat, lt: (Key, Key) -> bool, target: Key)
    requires Formed(b, l, interval) && m < b.numRestarts && IsOrder(lt) && Increasing(lt, l.entries)
    requires !RestartBelow(lt, l, m, target)
    ensures forall j :: m <= j < b.numRestarts ==> !RestartBelow(lt, l, j, target)
  {
    hide RestartPoint, RestartLaid, EntryLaid;
    FormedSized(b, l, interval);
    FormedRestart(b, l, interval, m);
    forall j | m < j < b.numRestarts
      ensures !RestartBelow(lt, l, j, target)
    {
      FormedRestart(b, l, interval, j);
      RestartsIncrease(l, interval, m, j);
    }
  }

  lemma BelowRestart(b: Opened, l: Layout, interval: nat, j: nat, lt: (Key, Key) -> bool, target: Key)
    requires Formed(b, l, interval) && j < b.numRestarts && IsOrder(lt) && Increasing(lt, l.entries)
    requires j == 0 || RestartBelow(lt, l, j, target)
    ensures j < |l.restart| && l.restart[j] <= Lower(lt, l.entries, target)
  {
    hide RestartPoint, Laid;
    FormedSized(b, l, interval);
    FormedRestart(b, l, interval, j);
    var r := l.restart[j];
    forall i | 0 <= i < r
      ensures lt(l.entries[i].key, target)
    {
      assert lt(l.entries[i].key, l.entries[r].key);
    }
    LowerAtLeast(lt, l.entries, target, r);
  }

  lemma {:induction false} LowerAtLeast(lt: (Key, Key) -> bool, entries: seq<Pair>, target: Key, r: nat)
    requires r <= |entries| && forall i :: 0 <= i < r ==> lt(entries[i].key, target)
    ensures r <= Lower(lt, entries, target)
    decreases r
  {
    if r > 0 {
      LowerAtLeast(lt, entries[1..], target, r - 1);
    }
  }

  lemma SeekStep(b: Opened, l: Layout, interval: nat, k: nat, lt: (Key, Key) -> bool, target: Key, c: Cursor)
    requires Formed(b, l, interval) && c.current < b.restarts && k <= |l.entries| && k <= Lower(lt, l.entries, target)
    requires if k < |l.entries| then At(b, l, k, c) else AtEnd(b, c)
    ensures At(b, l, k, c) && Ready(b, l, k + 1, c)
    ensures lt(c.key, target) ==> k + 1 <= Lower(lt, l.entries, target)
    ensures !lt(c.key, target) ==> k == Lower(lt, l.entries, target) < |l.entries|
  {
    hide RestartPoint, Formed, Ready;
    LowerIs(lt, l.entries, target);
    ReadyAfter(b, l, interval, k, c);
  }

  lemma EndNotAt(b: Opened, l: Layout, k: nat, c: Cursor)
    requires AtEnd(b, c)
    ensures !At(b, l, k, c)
  {
  }

  /** What the parser finds on a formed block: the end, or an entry it can decode. */
  lemma ParseStart(b: Opened, l: Layout, interval: nat, i: nat, c: Cursor, outside: nat -> byte)
    requires Formed(b, l, interval) && Ready(b, l, i, c)
    ensures Sized(l) && i <= |l.entries| && c.valueAt + c.valueLength == l.off[i] < LIMIT
    ensures i < |l.entries| <==> l.off[i] < b.restarts
    ensures i < |l.entries| ==>
      var h := DecodeEntry(b.data, l.off[i], b.restarts); h.Some? && h.value.shared <= |c.key|
    ensures RestartPoint(b, c.restartIndex) <= l.off[i]
  {
    hide DecodeEntry, RestartPoint, Extent, Fits, Memory;
    if i < |l.entries| {
      ParseRight(b, l, interval, i, c, outside);
    }
  }

  lemma ParseDone(b: Opened, l: Layout, interval: nat, i: nat, c: Cursor, c': Cursor, outside: nat -> byte)
    requires Formed(b, l, interval) && Ready(b, l, i, c) && i < |l.entries| && c'.current == l.off[i]
    requires var h := DecodeEntry(b.data, l.off[i], b.restarts);
      && h.Some? && h.value.shared <= |c.key|
      && c'.key == c.key[..h.value.shared] + Memory(b.data, outside, h.value.keyAt, h.value.nonShared)
      && c'.valueAt == h.value.keyAt + h.value.nonShared && c'.valueLength == h.value.valueLength
    requires c'.restartIndex < b.numRestarts && RestartPoint(b, c'.restartIndex) <= c'.current
    requires c'.restartIndex + 1 < b.numRestarts ==> RestartPoint(b, c'.restartIndex + 1) >= c'.current
    ensures At(b, l, i, c')
  {
    hide DecodeEntry, RestartPoint, Extent, Fits, Memory, Formed;
    ParseRight(b, l, interval, i, c, outside);
    OffsetsIncrease(b, l, interval, i, i + 1);
  }

  /** Walking a formed block from its first entry gives back exactly the entries it was built from. */
  method ReadAll(it: Iter, ghost l: Layout, ghost interval: nat) returns (pairs: seq<Pair>)
    requires it.Ok() && Formed(it.b, l, interval)
    modifies it
    ensures pairs == l.entries && it.corrupt == old(it.corrupt)
  {
    hide RestartPoint, Formed;
    pairs := [];
    it.SeekToFirst(l, interval);
    while it.current < it.b.restarts
      invariant it.Ok() && |pairs| <= |l.entries| && pairs == l.entries[..|pairs|] && it.corrupt == old(it.corrupt)
      invariant if |pairs| < |l.entries| then At(it.b, l, |pairs|, it.Here()) else AtEnd(it.b, it.Here())
      decreases |l.entries| - |pairs|
    {
      ghost var i := |pairs|;
      pairs := pairs + [Pair(it.key, it.b.data[it.valueAt..it.valueAt + it.valueLength])];
      it.Next(l, interval, i);
    }
  }

  /** Any pairs with increasing keys, put into a block, come out of it again: all of them, in order. */
  method BuildAndRead(interval: nat, lt: (Key, Key) -> bool, pairs: seq<Pair>, outside: nat -> byte)
    returns (block: seq<byte>, result: seq<Pair>)
    requires interval >= 1 && IsOrder(lt) && Increasing(lt, pairs)
    ensures |block| < LIMIT ==> result == pairs
  {
    hide IsOrder, Built, Formed, Open;
    var builder := new Builder(interval, lt);
    for i := 0 to |pairs|
      invariant builder.Valid() && !builder.finished && builder.lt == lt && builder.layout.entries == pairs[..i]
      invariant fresh(builder)
    {
      BuiltFacts(interval, builder.buffer, builder.restarts, builder.counter, builder.lastKey, builder.layout);
      builder.Add(pairs[i].key, pairs[i].value);
    }
    block := builder.Finish();
    result := [];
    if |block| < LIMIT {
      FormedSized(Open(block), builder.layout, builder.interval);
      var it := new Iter(Open(block), lt, outside);
      result := ReadAll(it, builder.layout, builder.interval);
    }
  }

  /** From every entry but the last, Next and then Prev come back to the same entry. */
  method NextThenPrev(it: Iter, ghost l: Layout, ghost interval: nat, ghost i: nat)
    requires it.Ok() && Formed(it.b, l, interval) && At(it.b, l, i, it.Here()) && i + 1 < |l.entries|
    modifies it
    ensures At(it.b, l, i, it.Here()) && it.corrupt == old(it.corrupt)
    ensures it.current == old(it.current) && it.key == old(it.key)
    ensures it.valueAt == old(it.valueAt) && it.valueLength == old(it.valueLength)
  {
    hide RestartPoint, Formed;
    it.Next(l, interval, i);
    it.Prev(l, interval, i + 1);
  }
}
