/** Building a block: prefix compression against the previous key, restarted at fixed intervals. */
module BlockBuilder {
  import opened BlockFormat
  import opened Options

  /** A strict total order on keys: the comparator. */
  ghost predicate IsOrder(lt: (Key, Key) -> bool) {
    && (forall a: Key :: !lt(a, a))
    && (forall a: Key, b: Key, c: Key :: lt(a, b) && lt(b, c) ==> lt(a, c))
    && (forall a: Key, b: Key :: lt(a, b) || a == b || lt(b, a))
  }

  ghost predicate Increasing(lt: (Key, Key) -> bool, entries: seq<Pair>) {
    forall i, j :: 0 <= i < j < |entries| ==> lt(entries[i].key, entries[j].key)
  }

  lemma IncreasingSnoc(lt: (Key, Key) -> bool, entries: seq<Pair>, e: Pair)
    requires IsOrder(lt) && Increasing(lt, entries)
    requires entries == [] || lt(entries[|entries| - 1].key, e.key)
    ensures Increasing(lt, entries + [e])
  {
    var n := |entries|;
    forall i | 0 <= i < n
      ensures lt(entries[i].key, e.key)
    {
      if i < n - 1 {
        assert lt(entries[i].key, entries[n - 1].key);
      }
    }
  }

  /** The layout after one more entry. */
  function Appended(l: Layout, e: Pair, shared: nat, restarted: bool, end: nat): Layout {
    Layout(l.entries + [e], l.off + [end], l.shared + [shared],
           if restarted then l.restart + [|l.entries|] else l.restart)
  }

  lemma EntryKept(buffer: seq<byte>, l: Layout, i: nat, more: seq<byte>, l': Layout)
    requires Sized(l) && Sized(l') && i < |l.entries| && EntryLaid(buffer, l, i)
    requires l.entries <= l'.entries && l.off <= l'.off && l.shared <= l'.shared
    ensures EntryLaid(buffer + more, l', i)
  {
    hide EntryBytes;
    var e, shared := l.entries[i], l.shared[i];
    StandsInside(buffer, l.off[i], EntryBytes(shared, e.key, e.value), [], more);
    assert [] + buffer + more == buffer + more;
    assert l'.entries[i] == e && l'.shared[i] == shared && l'.off[i] == l.off[i] && l'.off[i + 1] == l.off[i + 1];
    if i > 0 {
      assert l'.entries[i - 1] == l.entries[i - 1];
    }
  }

  /** What the builder keeps about the entries it has been given. */
  ghost predicate Counted(l: Layout, interval: nat, counter: nat) {
    Sized(l) && counter == |l.entries| - l.restart[|l.restart| - 1] && counter <= interval
  }

  lemma RestartKept(l: Layout, interval: nat, counter: nat, e: Pair, shared: nat, end: nat, l': Layout, j: nat)
    requires Counted(l, interval, counter) && interval > 0 && Sized(l') && j < |l'.restart|
    requires forall k :: 0 <= k < |l.restart| ==> RestartLaid(l, interval, k)
    requires l' == Appended(l, e, shared, counter == interval, end)
    requires l.entries == [] || counter == interval ==> shared == 0
    ensures RestartLaid(l', interval, j)
  {
    var last := |l.restart| - 1;
    if j <= last {
      assert RestartLaid(l, interval, j);
      if l.entries == [] {
        assert RestartLaid(l, interval, last);
      }
    } else {
      assert RestartLaid(l, interval, last);
    }
  }

  /** One entry more keeps the region laid out. */
  lemma AddLays(buffer: seq<byte>, l: Layout, interval: nat, counter: nat, e: Pair, shared: nat)
    requires Laid(buffer, l, interval) && Counted(l, interval, counter)
    requires shared <= |e.key| < LIMIT && |e.value| < LIMIT
    requires l.entries == [] || counter == interval ==> shared == 0
    requires l.entries != [] ==>
      var p := l.entries[|l.entries| - 1].key; shared <= |p| && p[..shared] == e.key[..shared]
    ensures var more := EntryBytes(shared, e.key, e.value);
      var l' := Appended(l, e, shared, counter == interval, |buffer| + |more|);
      Laid(buffer + more, l', interval) && Counted(l', interval, if counter == interval then 1 else counter + 1)
  {
    hide EntryBytes, EntryLaid, RestartLaid;
    var more := EntryBytes(shared, e.key, e.value);
    var l' := Appended(l, e, shared, counter == interval, |buffer| + |more|);
    var n := |l.entries|;
    forall i | 0 <= i < n + 1
      ensures EntryLaid(buffer + more, l', i)
    {
      if i < n {
        EntryKept(buffer, l, i, more, l');
      } else {
        LastLaid(buffer, l, e, shared, counter == interval);
      }
    }
    forall j | 0 <= j < |l'.restart|
      ensures RestartLaid(l', interval, j)
    {
      RestartKept(l, interval, counter, e, shared, |buffer| + |more|, l', j);
    }
  }

  lemma LastLaid(buffer: seq<byte>, l: Layout, e: Pair, shared: nat, restarted: bool)
    requires Sized(l) && l.off[|l.entries|] == |buffer|
    requires shared <= |e.key| < LIMIT && |e.value| < LIMIT && (l.entries == [] ==> shared == 0)
    requires l.entries != [] ==>
      var p := l.entries[|l.entries| - 1].key; shared <= |p| && p[..shared] == e.key[..shared]
    ensures var more := EntryBytes(shared, e.key, e.value);
      EntryLaid(buffer + more, Appended(l, e, shared, restarted, |buffer| + |more|), |l.entries|)
  {
    hide EntryBytes;
    var more := EntryBytes(shared, e.key, e.value);
    assert (buffer + more)[|buffer|..|buffer| + |more|] == more;
  }

  method CommonPrefix(a: Key, b: Key) returns (shared: nat)
    ensures shared <= |a| && shared <= |b| && a[..shared] == b[..shared]
    ensures shared < |a| && shared < |b| ==> a[shared] != b[shared]
  {
    shared := 0;
    var minLength := if |a| < |b| then |a| else |b|;
    while shared < minLength && a[shared] == b[shared]
      invariant shared <= minLength && a[..shared] == b[..shared]
    {
      shared := shared + 1;
    }
  }

  /** Away from restart points an entry shares as much with its predecessor as it can. */
  ghost predicate Compressed(l: Layout) {
    Sized(l) && forall i :: 0 < i < |l.entries| && i !in l.restart ==> SharesAll(l, i)
  }

  ghost predicate SharesAll(l: Layout, i: nat)
    requires Sized(l) && 0 < i < |l.entries|
  {
    var a, b, n := l.entries[i - 1].key, l.entries[i].key, l.shared[i];
    n <= |a| && n <= |b| && a[..n] == b[..n] && (n < |a| && n < |b| ==> a[n] != b[n])
  }

  lemma CompressedMore(l: Layout, e: Pair, shared: nat, restarted: bool, end: nat)
    requires Compressed(l)
    requires !restarted && l.entries != [] ==>
      var a, b := l.entries[|l.entries| - 1].key, e.key;
      shared <= |a| && shared <= |b| && a[..shared] == b[..shared] &&
      (shared < |a| && shared < |b| ==> a[shared] != b[shared])
    ensures Compressed(Appended(l, e, shared, restarted, end))
  {
    var l', n := Appended(l, e, shared, restarted, end), |l.entries|;
    assert restarted ==> l'.restart[|l.restart|] == n;
    forall i | 0 < i < |l'.entries| && i !in l'.restart
      ensures SharesAll(l', i)
    {
      if i < n {
        assert SharesAll(l, i);
      }
    }
  }

  /** Restart offsets as recorded, in 32 bits. */
  ghost predicate Recorded(buffer: seq<byte>, restarts: seq<nat>, l: Layout) {
    |restarts| == |l.restart| &&
    forall j :: 0 <= j < |restarts| ==> l.restart[j] < |l.off| && restarts[j] == l.off[l.restart[j]] <= |buffer|
  }

  /** The builder's state tells where its entries are. As long as the buffer stays below 4 GiB, lengths
      and offsets fit their 32-bit fields. */
  ghost predicate Built(interval: nat, buffer: seq<byte>, restarts: seq<nat>, counter: nat, lastKey: Key, l: Layout) {
    && interval > 0 && Counted(l, interval, counter) && |restarts| == |l.restart|
    && lastKey == (if l.entries == [] then [] else l.entries[|l.entries| - 1].key)
    && (l.entries == [] <==> buffer == [])
    && (|buffer| < LIMIT ==> Laid(buffer, l, interval) && |lastKey| <= |buffer| && Recorded(buffer, restarts, l))
  }

  lemma BuiltFacts(interval: nat, buffer: seq<byte>, restarts: seq<nat>, counter: nat, lastKey: Key, l: Layout)
    requires Built(interval, buffer, restarts, counter, lastKey, l)
    ensures counter <= interval && (buffer == [] <==> l.entries == [])
    ensures l.entries != [] ==> lastKey == l.entries[|l.entries| - 1].key
  {
  }

  lemma StartBuilt(interval: nat)
    requires interval > 0
    ensures Built(interval, [], [0], 0, [], Layout([], [0], [], [0]))
  {
  }

  lemma RecordKept(buffer: seq<byte>, restarts: seq<nat>, l: Layout, e: Pair, shared: nat, restarted: bool,
                   more: seq<byte>)
    requires Recorded(buffer, restarts, l) && Sized(l) && l.off[|l.entries|] == |buffer| < LIMIT
    ensures Recorded(buffer + more, if restarted then restarts + [|buffer| % LIMIT] else restarts,
                     Appended(l, e, shared, restarted, |buffer| + |more|))
  {
  }

  /** Adding an entry, whether or not compression restarts at it. */
  lemma AddBuilds(interval: nat, buffer: seq<byte>, restarts: seq<nat>, counter: nat, lastKey: Key, l: Layout,
                  e: Pair, shared: nat, more: seq<byte>)
    requires Built(interval, buffer, restarts, counter, lastKey, l) && shared <= |e.key| && shared <= |lastKey|
    requires lastKey[..shared] == e.key[..shared] && (counter == interval ==> shared == 0)
    requires |more| > |e.value| + |e.key| - shared
    requires shared < LIMIT && |e.key| - shared < LIMIT && |e.value| < LIMIT ==>
      more == EntryBytes(shared, e.key, e.value)
    ensures var restarted := counter == interval;
      Built(interval, buffer + more, if restarted then restarts + [|buffer| % LIMIT] else restarts,
            if restarted then 1 else counter + 1, e.key, Appended(l, e, shared, restarted, |buffer + more|))
  {
    hide Laid, Recorded, EntryBytes;
    if |buffer + more| < LIMIT {
      AddLays(buffer, l, interval, counter, e, shared);
      LaidEnds(buffer, l, interval);
      RecordKept(buffer, restarts, l, e, shared, counter == interval, more);
    }
  }

  lemma LaidEnds(buffer: seq<byte>, l: Layout, interval: nat)
    requires Laid(buffer, l, interval)
    ensures Sized(l) && l.off[|l.entries|] == |buffer|
  {
  }

  /** A number as it is written, in 32 bits. */
  function PutVarint32(v: nat): seq<byte> {
    EncodeVarint32(v % LIMIT)
  }

  function WrittenHead(shared: nat, nonShared: nat, valueLength: nat): seq<byte> {
    PutVarint32(shared) + (PutVarint32(nonShared) + PutVarint32(valueLength))
  }

  /** What is appended for an entry: the lengths, the unshared key bytes, the value. */
  function WrittenEntry(shared: nat, key: Key, value: seq<byte>): seq<byte>
    requires shared <= |key|
  {
    WrittenHead(shared, |key| - shared, |value|) + (key[shared..] + value)
  }

  lemma PutRight(v: nat)
    ensures |PutVarint32(v)| > 0
    ensures v < LIMIT ==> PutVarint32(v) == Varint(v)
  {
    hide EncodeVarint32, Varint;
    EncodesVarint(v % LIMIT);
  }

  lemma HeadRight(a: nat, b: nat, c: nat)
    ensures |WrittenHead(a, b, c)| > 0
    ensures a < LIMIT && b < LIMIT && c < LIMIT ==> WrittenHead(a, b, c) == Varint(a) + (Varint(b) + Varint(c))
  {
    hide PutVarint32, Varint;
    PutRight(a);
    PutRight(b);
    PutRight(c);
  }

  /** Once the lengths fit 32 bits that is the entry. */
  lemma WrittenRight(shared: nat, key: Key, value: seq<byte>)
    requires shared <= |key|
    ensures |WrittenEntry(shared, key, value)| > |value| + |key| - shared
    ensures shared < LIMIT && |key| - shared < LIMIT && |value| < LIMIT ==>
      WrittenEntry(shared, key, value) == EntryBytes(shared, key, value)
  {
    hide WrittenHead, Varint;
    HeadRight(shared, |key| - shared, |value|);
  }

  class Builder {
    const interval: nat
    const lt: (Key, Key) -> bool
    var buffer: seq<byte>
    var restarts: seq<nat>
    var counter: nat
    var finished: bool
    var lastKey: Key
    ghost var layout: Layout

    ghost predicate Valid()
      reads this
    {
      IsOrder(lt) && Increasing(lt, layout.entries) && Compressed(layout) &&
      (!finished ==> Built(interval, buffer, restarts, counter, lastKey, layout)) && interval > 0
    }

    constructor (interval: nat, lt: (Key, Key) -> bool)
      requires interval >= 1 && IsOrder(lt)
      ensures Valid() && !finished && layout.entries == [] && this.interval == interval && this.lt == lt
    {
      this.interval, this.lt := interval, lt;
      buffer, restarts, counter, finished, lastKey := [], [0], 0, false, [];
      layout := Layout([], [0], [], [0]);
      StartBuilt(interval);
    }

    method Reset()
      requires Valid()
      modifies this
      ensures Valid() && !finished && layout.entries == []
    {
      buffer, restarts, counter, finished, lastKey := [], [0], 0, false, [];
      layout := Layout([], [0], [], [0]);
      StartBuilt(interval);
    }

    method Add(key: Key, value: seq<byte>)
      requires Valid() && !finished
      requires buffer == [] || lt(lastKey, key)
      modifies this
      ensures Valid() && !finished && layout.entries == old(layout.entries) + [Pair(key, value)]
      ensures |buffer| > |old(buffer)|
    {
      hide IsOrder, Increasing, Built, WrittenEntry, EntryBytes, Compressed;
      BuiltFacts(interval, buffer, restarts, counter, lastKey, layout);
      ghost var was, recorded, before, l := counter, restarts, buffer, layout;
      var shared: nat := 0;
      if counter < interval {
        shared := CommonPrefix(lastKey, key);
      } else {
        restarts := restarts + [|buffer| % LIMIT];
        counter := 0;
      }
      var more := WrittenEntry(shared, key, value);
      WrittenRight(shared, key, value);
      buffer := buffer + more;
      IncreasingSnoc(lt, l.entries, Pair(key, value));
      AddBuilds(interval, before, recorded, was, lastKey, l, Pair(key, value), shared, more);
      CompressedMore(l, Pair(key, value), shared, was == interval, |buffer|);
      lastKey := lastKey[..shared] + key[shared..];
      assert lastKey == key;
      counter := counter + 1;
      layout := Appended(l, Pair(key, value), shared, was == interval, |buffer|);
    }

    /** The finished block: entries, restart array, number of restarts. */
    method Finish() returns (block: seq<byte>)
      requires Valid() && !finished
      modifies this
      ensures Valid() && finished && layout == old(layout) && block == buffer
      ensures |block| < LIMIT ==> Formed(Open(block), layout, interval) && Increasing(lt, layout.entries)
    {
      hide IsOrder, Increasing, Laid, Fixed32;
      ghost var entries := buffer;
      for i := 0 to |restarts|
        invariant restarts == old(restarts) && layout == old(layout) && finished == old(finished)
        invariant buffer == entries + RestartBytes(restarts[..i])
      {
        buffer := buffer + Fixed32(restarts[i]);
        assert restarts[..i + 1][..i] == restarts[..i];
      }
      assert restarts[..|restarts|] == restarts;
      buffer := buffer + Fixed32(|restarts|);
      finished := true;
      if |buffer| < LIMIT {
        FinishedOpens(entries, restarts, layout, interval);
      }
      return buffer;
    }
  }
}
