/** The bytes of a table block: varints, entries with shared key prefixes, and the restart array. */
module BlockFormat {
  import opened Options
  import opened Digits

  type byte = n: nat | n < 256

  const LIMIT: nat := 0x1_0000_0000

  // ---------------------------------------------------------------------
  // Variable-length integers

  /** Seven bits a byte, least significant first, the top bit set on all bytes but the last. */
  function Varint(v: nat): (s: seq<byte>)
    ensures |s| > 0
  {
    if v < 128 then [v] else [128 + v % 128] + Varint(v / 128)
  }

  /** The encoder, one branch for each length. */
  function EncodeVarint32(v: nat): (s: seq<byte>)
    requires v < LIMIT
  {
    if v < 0x80 then [v]
    else if v < 0x4000 then [128 + v % 128, v / 0x80]
    else if v < 0x20_0000 then [128 + v % 128, 128 + v / 0x80 % 128, v / 0x4000]
    else if v < 0x1000_0000 then [128 + v % 128, 128 + v / 0x80 % 128, 128 + v / 0x4000 % 128, v / 0x20_0000]
    else [128 + v % 128, 128 + v / 0x80 % 128, 128 + v / 0x4000 % 128, 128 + v / 0x20_0000 % 128, v / 0x1000_0000]
  }

  lemma EncodesVarint(v: nat)
    requires v < LIMIT
    ensures EncodeVarint32(v) == Varint(v)
  {
    VarintStep(v);
    VarintStep(v / 0x80);
    VarintStep(v / 0x4000);
    VarintStep(v / 0x20_0000);
    VarintStep(v / 0x1000_0000);
    hide Varint;
    DivChain(v);
  }

  lemma DivChain(v: nat)
    ensures v / 0x80 / 128 == v / 0x4000 && v / 0x4000 / 128 == v / 0x20_0000 && v / 0x20_0000 / 128 == v / 0x1000_0000
  {
  }

  lemma VarintStep(v: nat)
    ensures Varint(v) == if v < 128 then [v] else [128 + v % 128] + Varint(v / 128)
  {
  }

  datatype Parsed = Parsed(value: nat, next: nat)

  /** What byte number k contributes, in 32 bits. */
  function Piece(b: byte, k: nat): nat {
    b % 128 * Pow(128, k) % LIMIT
  }

  /** The decoder after k bytes, with what they gave in acc. */
  function VarintFrom(data: seq<byte>, p: nat, limit: nat, k: nat, acc: nat): Option<Parsed>
    requires limit <= |data|
    decreases 5 - k
  {
    if k > 4 || p >= limit then None
    else if data[p] >= 128 then VarintFrom(data, p + 1, limit, k + 1, acc + Piece(data[p], k))
    else Some(Parsed(acc + Piece(data[p], k), p + 1))
  }

  /** v seen from byte number k on. */
  function Above(v: nat, k: nat): nat {
    v * Pow(128, k)
  }

  lemma {:induction false} VarintRead(data: seq<byte>, p: nat, limit: nat, k: nat, acc: nat, v: nat)
    requires k <= 4 && Above(v, k) < LIMIT
    requires p + |Varint(v)| <= limit <= |data| && data[p..p + |Varint(v)|] == Varint(v)
    ensures VarintFrom(data, p, limit, k, acc) == Some(Parsed(acc + Above(v, k), p + |Varint(v)|))
    decreases 5 - k
  {
    hide Pow, Piece, Above, Varint;
    var s := Varint(v);
    VarintStep(v);
    assert data[p] == s[0] by {
      assert data[p..p + |s|][0] == data[p];
    }
    VarintPieces(v, k, data[p]);
    if v >= 128 {
      assert s[1..] == Varint(v / 128);
      assert data[p + 1..p + |s|] == data[p..p + |s|][1..];
      VarintRead(data, p + 1, limit, k + 1, acc + Piece(data[p], k), v / 128);
    }
  }

  lemma VarintPieces(v: nat, k: nat, b: byte)
    requires k <= 4 && Above(v, k) < LIMIT && b % 128 == v % 128
    ensures v < 128 ==> Piece(b, k) == Above(v, k)
    ensures v >= 128 ==> k < 4 && Piece(b, k) + Above(v / 128, k + 1) == Above(v, k)
  {
    assert Pow(128, 4) == 0x1000_0000;
    var p := Pow(128, k);
    assert Pow(128, k + 1) == 128 * p;
    hide Pow;
    SplitSeven(v, p);
  }

  lemma SplitSeven(v: nat, p: nat)
    requires v * p < LIMIT
    ensures v % 128 * p % LIMIT == v % 128 * p && v % 128 * p + v / 128 * (128 * p) == v * p
  {
    MulMono(v % 128, v, p);
    assert v == v / 128 * 128 + v % 128;
    assert (v / 128 * 128 + v % 128) * p == v / 128 * (128 * p) + v % 128 * p;
  }

  function VarintAt(data: seq<byte>, p: nat, limit: nat): Option<Parsed>
    requires limit <= |data|
  {
    VarintFrom(data, p, limit, 0, 0)
  }

  /** The decoder's loop. */
  method GetVarint32(data: seq<byte>, start: nat, limit: nat) returns (r: Option<Parsed>)
    requires limit <= |data|
    ensures r == VarintAt(data, start, limit)
  {
    hide Pow;
    var p: nat, k: nat, result: nat := start, 0, 0;
    while k <= 4 && p < limit
      invariant VarintFrom(data, start, limit, 0, 0) == VarintFrom(data, p, limit, k, result)
      decreases 5 - k
    {
      var b := data[p];
      result := result + Piece(b, k);
      p := p + 1;
      if b < 128 {
        return Some(Parsed(result, p));
      }
      k := k + 1;
    }
    return None;
  }

  /** Reading an encoded number gives it back and stops right after it. */
  lemma VarintRoundTrip(data: seq<byte>, p: nat, limit: nat, v: nat)
    requires v < LIMIT
    requires p + |Varint(v)| <= limit <= |data| && data[p..p + |Varint(v)|] == Varint(v)
    ensures VarintAt(data, p, limit) == Some(Parsed(v, p + |Varint(v)|))
  {
    hide Varint, VarintFrom;
    AboveNone(v);
    VarintRead(data, p, limit, 0, 0, v);
  }

  lemma AboveNone(v: nat)
    ensures Above(v, 0) == v
  {
  }

  // ---------------------------------------------------------------------
  // Fixed-width integers

  function Fixed32(v: nat): (s: seq<byte>)
    ensures |s| == 4
  {
    [v % 0x100, v / 0x100 % 0x100, v / 0x1_0000 % 0x100, v / 0x100_0000 % 0x100]
  }

  function DecodeFixed32(data: seq<byte>, p: nat): (v: nat)
    requires p + 4 <= |data|
    ensures v < LIMIT
  {
    var a: nat, b: nat, c: nat, d: nat := data[p], data[p + 1], data[p + 2], data[p + 3];
    a + 0x100 * b + 0x1_0000 * c + 0x100_0000 * d
  }

  lemma FixedRoundTrip(data: seq<byte>, p: nat, v: nat)
    requires p + 4 <= |data| && data[p..p + 4] == Fixed32(v) && v < LIMIT
    ensures DecodeFixed32(data, p) == v
  {
    var s := data[p..p + 4];
    assert data[p] == s[0] && data[p + 1] == s[1] && data[p + 2] == s[2] && data[p + 3] == s[3];
    assert v / 0x1_0000 == v / 0x100 / 0x100 && v / 0x100_0000 == v / 0x1_0000 / 0x100;
  }

  // ---------------------------------------------------------------------
  // Entries

  type Key = seq<byte>

  /** An entry: lengths of the shared and unshared key parts and of the value, then those bytes. */
  function EntryBytes(shared: nat, key: Key, value: seq<byte>): seq<byte>
    requires shared <= |key|
  {
    EntryHead(shared, key, value) + (key[shared..] + value)
  }

  function EntryHead(shared: nat, key: Key, value: seq<byte>): seq<byte>
    requires shared <= |key|
  {
    Varint(shared) + (Varint(|key| - shared) + Varint(|value|))
  }

  datatype Header = Header(keyAt: nat, shared: nat, nonShared: nat, valueLength: nat)

  /** The format in concrete terms: low bytes first, seven bits a byte, and the order of the lengths. */
  lemma FormatVectors()
    ensures Fixed32(0x0403_0201) == [1, 2, 3, 4] && Varint(300) == [172, 2]
    ensures EntryBytes(1, [97, 98, 99], [100]) == [1, 2, 1, 98, 99, 100]
  {
    assert Varint(2) == [2];
  }

  /** The three lengths at p, in one byte each when they all are below 128. */
  function DecodeLengths(data: seq<byte>, p: nat, limit: nat): Option<Header>
    requires limit <= |data| && p + 3 <= limit
  {
    if data[p] < 128 && data[p + 1] < 128 && data[p + 2] < 128 then
      Some(Header(p + 3, data[p], data[p + 1], data[p + 2]))
    else
      match VarintAt(data, p, limit)
      case None => None
      case Some(a) =>
        match VarintAt(data, a.next, limit)
        case None => None
        case Some(b) =>
          match VarintAt(data, b.next, limit)
          case None => None
          case Some(c) => Some(Header(c.next, a.value, b.value, c.value))
  }

  /** The number of key and value bytes, as 32 bits hold it. */
  function Extent(h: Header): nat {
    (h.nonShared + h.valueLength) % LIMIT
  }

  ghost predicate Fits(h: Header) {
    h.nonShared + h.valueLength < LIMIT
  }

  /** The entry's header at p, if its extent reaches no further than the limit. The extent is a 32-bit sum,
      so what is accepted ends within the limit exactly if the two lengths add up without wrapping. */
  function DecodeEntry(data: seq<byte>, p: nat, limit: nat): (r: Option<Header>)
    requires limit <= |data| && limit < LIMIT
    ensures r.Some? ==> p + 3 <= r.value.keyAt && r.value.keyAt + Extent(r.value) <= limit
    ensures r.Some? ==> (r.value.keyAt + r.value.nonShared + r.value.valueLength <= limit <==> Fits(r.value))
  {
    if p + 3 > limit then None
    else
      DecodeLengthsAdvance(data, p, limit);
      match DecodeLengths(data, p, limit)
      case None => None
      case Some(h) => if limit - h.keyAt < Extent(h) then None else Some(h)
  }

  /** Seven bytes that are accepted although the entry they announce ends far outside. */
  lemma WrappedEntry()
    ensures var data := [0, 0xFF, 0xFF, 0xFF, 0xFF, 0x0F, 1]; var h := Header(7, 0, 0xFFFF_FFFF, 1);
      DecodeEntry(data, 0, 7) == Some(h) && !Fits(h) && h.keyAt + h.nonShared + h.valueLength > 7
  {
    var data: seq<byte> := [0, 0xFF, 0xFF, 0xFF, 0xFF, 0x0F, 1];
    assert Pow(128, 0) == 1 && Pow(128, 1) == 0x80 && Pow(128, 2) == 0x4000;
    assert Pow(128, 3) == 0x20_0000 && Pow(128, 4) == 0x1000_0000;
    assert VarintAt(data, 0, 7) == Some(Parsed(0, 1));
    assert VarintAt(data, 1, 7) == Some(Parsed(0xFFFF_FFFF, 6)) by {
      assert VarintFrom(data, 5, 7, 4, 0xFFF_FFFF) == Some(Parsed(0xFFFF_FFFF, 6));
      assert VarintFrom(data, 4, 7, 3, 0x1F_FFFF) == VarintFrom(data, 5, 7, 4, 0xFFF_FFFF);
      assert VarintFrom(data, 3, 7, 2, 0x3FFF) == VarintFrom(data, 4, 7, 3, 0x1F_FFFF);
      assert VarintFrom(data, 2, 7, 1, 0x7F) == VarintFrom(data, 3, 7, 2, 0x3FFF);
    }
    assert VarintAt(data, 6, 7) == Some(Parsed(1, 7));
  }

  lemma DecodeLengthsAdvance(data: seq<byte>, p: nat, limit: nat)
    requires limit <= |data| && p + 3 <= limit
    ensures var h := DecodeLengths(data, p, limit); h.Some? ==> p + 3 <= h.value.keyAt <= limit
  {
    hide VarintFrom;
    VarintAdvances(data, p, limit, 0, 0);
    var a := VarintAt(data, p, limit);
    if a.Some? {
      VarintAdvances(data, a.value.next, limit, 0, 0);
      var b := VarintAt(data, a.value.next, limit);
      if b.Some? {
        VarintAdvances(data, b.value.next, limit, 0, 0);
      }
    }
  }

  lemma {:induction false} VarintAdvances(data: seq<byte>, p: nat, limit: nat, k: nat, acc: nat)
    requires limit <= |data|
    ensures var r := VarintFrom(data, p, limit, k, acc); r.Some? ==> p < r.value.next <= limit
    decreases 5 - k
  {
    hide Piece;
    if k <= 4 && p < limit && data[p] >= 128 {
      VarintAdvances(data, p + 1, limit, k + 1, acc + Piece(data[p], k));
    }
  }

  /** The bytes of s stand at p. */
  ghost predicate Stands(data: seq<byte>, p: nat, s: seq<byte>) {
    p + |s| <= |data| && data[p..p + |s|] == s
  }

  lemma StandsSplit(data: seq<byte>, p: nat, s: seq<byte>, t: seq<byte>)
    requires Stands(data, p, s + t)
    ensures Stands(data, p, s) && Stands(data, p + |s|, t)
  {
    assert data[p..p + |s|] == (s + t)[..|s|];
    assert data[p + |s|..p + |s| + |t|] == (s + t)[|s|..];
  }

  lemma OneByte(v: nat)
    ensures v < 128 <==> Varint(v)[0] < 128
    ensures v < 128 ==> Varint(v) == [v]
  {
  }

  /** Both paths of the header decoder read back the lengths that were written. */
  lemma LengthsRoundTrip(data: seq<byte>, p: nat, limit: nat, a: nat, b: nat, c: nat)
    requires a < LIMIT && b < LIMIT && c < LIMIT
    requires Stands(data, p, Varint(a) + (Varint(b) + Varint(c)))
    requires p + |Varint(a) + (Varint(b) + Varint(c))| <= limit <= |data|
    ensures p + 3 <= limit
    ensures DecodeLengths(data, p, limit) == Some(Header(p + |Varint(a) + (Varint(b) + Varint(c))|, a, b, c))
  {
    hide Varint, VarintAt, Stands;
    StandsSplit(data, p, Varint(a), Varint(b) + Varint(c));
    StandsSplit(data, p + |Varint(a)|, Varint(b), Varint(c));
    LengthRead(data, p, limit, a);
    LengthRead(data, p + |Varint(a)|, limit, b);
    LengthRead(data, p + |Varint(a)| + |Varint(b)|, limit, c);
  }

  lemma LengthRead(data: seq<byte>, p: nat, limit: nat, v: nat)
    requires v < LIMIT && Stands(data, p, Varint(v)) && p + |Varint(v)| <= limit <= |data|
    ensures VarintAt(data, p, limit) == Some(Parsed(v, p + |Varint(v)|))
    ensures v < 128 <==> data[p] < 128
    ensures v < 128 ==> |Varint(v)| == 1 && data[p] == v
  {
    VarintRoundTrip(data, p, limit, v);
    assert data[p] == data[p..p + |Varint(v)|][0];
    OneByte(v);
    hide Varint, VarintAt;
  }

  /** Decoding at an entry finds its lengths, its key's own bytes and its value. */
  lemma EntryRoundTrip(data: seq<byte>, p: nat, limit: nat, shared: nat, key: Key, value: seq<byte>)
    requires shared <= |key| < LIMIT && |value| < LIMIT
    requires Stands(data, p, EntryBytes(shared, key, value))
    requires p + |EntryBytes(shared, key, value)| <= limit <= |data| && limit < LIMIT
    ensures var h := p + |EntryHead(shared, key, value)|;
      && DecodeEntry(data, p, limit) == Some(Header(h, shared, |key| - shared, |value|))
      && Stands(data, h, key[shared..]) && Stands(data, h + |key| - shared, value)
      && h + |key| - shared + |value| == p + |EntryBytes(shared, key, value)|
  {
    hide Varint, Stands, DecodeLengths;
    var head := EntryHead(shared, key, value);
    StandsSplit(data, p, head, key[shared..] + value);
    StandsSplit(data, p + |head|, key[shared..], value);
    LengthsRoundTrip(data, p, limit, shared, |key| - shared, |value|);
  }

  // ---------------------------------------------------------------------
  // Blocks

  datatype Pair = Pair(key: Key, value: seq<byte>)

  /** Where everything is: entry i starts at off[i] and shares a prefix of shared[i] bytes with its
      predecessor; restart[j] is the number of the entry at restart point j. */
  datatype Layout = Layout(entries: seq<Pair>, off: seq<nat>, shared: seq<nat>, restart: seq<nat>)

  ghost predicate Sized(l: Layout) {
    |l.off| == |l.entries| + 1 && |l.shared| == |l.entries| && |l.restart| > 0
  }

  ghost predicate EntryLaid(buffer: seq<byte>, l: Layout, i: nat)
    requires Sized(l) && i < |l.entries|
  {
    var e, shared := l.entries[i], l.shared[i];
    && shared <= |e.key| < LIMIT && |e.value| < LIMIT
    && Stands(buffer, l.off[i], EntryBytes(shared, e.key, e.value))
    && l.off[i + 1] == l.off[i] + |EntryBytes(shared, e.key, e.value)|
    && (if i == 0 then shared == 0
        else shared <= |l.entries[i - 1].key| && e.key[..shared] == l.entries[i - 1].key[..shared])
  }

  ghost predicate RestartLaid(l: Layout, interval: nat, j: nat)
    requires Sized(l) && j < |l.restart|
  {
    && (if j == 0 then l.restart[j] == 0 else l.restart[j] == l.restart[j - 1] + interval)
    && (if l.entries == [] then j == 0 else l.restart[j] < |l.entries| && l.shared[l.restart[j]] == 0)
  }

  /** The entry region of a block: entries end to end, a restart every interval entries. */
  ghost predicate Laid(buffer: seq<byte>, l: Layout, interval: nat) {
    && Sized(l) && interval > 0
    && l.off[0] == 0 && l.off[|l.entries|] == |buffer|
    && (forall i :: 0 <= i < |l.entries| ==> EntryLaid(buffer, l, i))
    && (forall j :: 0 <= j < |l.restart| ==> RestartLaid(l, interval, j))
  }

  function RestartBytes(rs: seq<nat>): (s: seq<byte>)
    ensures |s| == 4 * |rs|
  {
    if rs == [] then [] else RestartBytes(rs[..|rs| - 1]) + Fixed32(rs[|rs| - 1])
  }

  lemma {:induction false} RestartByteAt(rs: seq<nat>, j: nat)
    requires j < |rs|
    ensures Stands(RestartBytes(rs), 4 * j, Fixed32(rs[j]))
    decreases |rs|
  {
    var last := |rs| - 1;
    if j < last {
      RestartByteAt(rs[..last], j);
    }
  }

  /** What a block's bytes say about their layout. */
  datatype Opened = Corrupt | Empty | Block(data: seq<byte>, restarts: nat, numRestarts: nat)

  /** Where the restarts begin, counted from the end. It is kept in 32 bits, as is one more than their number;
      either way all of them are inside the block. */
  function RestartsAt(size: nat, n: nat): (p: nat)
    requires 4 * n + 4 <= size && n < LIMIT
    ensures p < LIMIT && p + 4 * n + 4 <= size && (size < LIMIT ==> p + 4 * n + 4 == size)
  {
    (size - (1 + n) % LIMIT * 4) % LIMIT
  }

  /** The number of restarts is the last word. */
  function Open(data: seq<byte>): (b: Opened)
    ensures b.Block? ==> b.data == data && GoodBlock(b)
    ensures b.Block? && |data| < LIMIT ==> b.restarts + 4 * b.numRestarts + 4 == |data|
  {
    if |data| < 4 then Corrupt
    else
      var n := DecodeFixed32(data, |data| - 4);
      if n > (|data| - 4) / 4 then Corrupt
      else if n == 0 then Empty
      else Block(data, RestartsAt(|data|, n), n)
  }

  ghost predicate GoodBlock(b: Opened) {
    b.Block? && b.numRestarts > 0 && b.restarts < LIMIT && b.restarts + 4 * b.numRestarts + 4 <= |b.data|
  }

  function RestartPoint(b: Opened, j: nat): (p: nat)
    requires GoodBlock(b) && j < b.numRestarts
    ensures p < LIMIT
  {
    DecodeFixed32(b.data, b.restarts + 4 * j)
  }

  /** An opened block with the given layout. */
  ghost predicate Formed(b: Opened, l: Layout, interval: nat) {
    && GoodBlock(b)
    && Laid(b.data[..b.restarts], l, interval) && |l.restart| == b.numRestarts
    && (forall j :: 0 <= j < b.numRestarts ==> l.restart[j] < |l.off| && RestartPoint(b, j) == l.off[l.restart[j]])
  }

  lemma StandsInside(s: seq<byte>, p: nat, t: seq<byte>, before: seq<byte>, after: seq<byte>)
    requires Stands(s, p, t)
    ensures Stands(before + s + after, |before| + p, t)
  {
    assert (before + s + after)[|before| + p..|before| + p + |t|] == s[p..p + |t|];
  }

  /** A finished buffer opens with the layout it was built with. */
  lemma FinishedOpens(buffer: seq<byte>, rs: seq<nat>, l: Layout, interval: nat)
    requires Laid(buffer, l, interval) && |rs| == |l.restart|
    requires forall j :: 0 <= j < |rs| ==> l.restart[j] < |l.off| && rs[j] == l.off[l.restart[j]] <= |buffer|
    requires |buffer| + 4 * |rs| + 4 < LIMIT
    ensures var b := Open(buffer + RestartBytes(rs) + Fixed32(|rs|));
      b.Block? && b.restarts == |buffer| && Formed(b, l, interval)
  {
    hide Laid, Fixed32, DecodeFixed32, RestartBytes, RestartPoint;
    var data := buffer + RestartBytes(rs) + Fixed32(|rs|);
    LaidSized(buffer, l, interval);
    OpenedAs(buffer, rs);
    var b := Open(data);
    assert data[..b.restarts] == buffer;
    forall j | 0 <= j < b.numRestarts
      ensures l.restart[j] < |l.off| && RestartPoint(b, j) == l.off[l.restart[j]]
    {
      RestartPointIs(buffer, rs, j);
    }
  }

  lemma OpenedAs(buffer: seq<byte>, rs: seq<nat>)
    requires 0 < |rs| && |buffer| + 4 * |rs| + 4 < LIMIT
    ensures var data := buffer + RestartBytes(rs) + Fixed32(|rs|); Open(data) == Block(data, |buffer|, |rs|)
  {
    hide Fixed32, DecodeFixed32, RestartBytes, RestartsAt;
    NumRestartsAt(buffer + RestartBytes(rs), |rs|);
  }

  lemma RestartPointIs(buffer: seq<byte>, rs: seq<nat>, j: nat)
    requires j < |rs| && rs[j] < LIMIT && |buffer| < LIMIT
    ensures RestartPoint(Block(buffer + RestartBytes(rs) + Fixed32(|rs|), |buffer|, |rs|), j) == rs[j]
  {
    hide Fixed32, DecodeFixed32, Stands, RestartBytes;
    RestartByteAt(rs, j);
    StandsInside(RestartBytes(rs), 4 * j, Fixed32(rs[j]), buffer, Fixed32(|rs|));
    FixedAt(buffer + RestartBytes(rs) + Fixed32(|rs|), |buffer| + 4 * j, rs[j]);
  }

  lemma LaidSized(buffer: seq<byte>, l: Layout, interval: nat)
    requires Laid(buffer, l, interval)
    ensures Sized(l)
  {
  }

  lemma FixedAt(data: seq<byte>, p: nat, v: nat)
    requires Stands(data, p, Fixed32(v)) && v < LIMIT
    ensures p + 4 <= |data| && DecodeFixed32(data, p) == v
  {
    FixedRoundTrip(data, p, v);
  }

  lemma NumRestartsAt(s: seq<byte>, n: nat)
    requires n < LIMIT
    ensures var data := s + Fixed32(n); DecodeFixed32(data, |data| - 4) == n
  {
    var data := s + Fixed32(n);
    assert data[|s|..|s| + 4] == Fixed32(n);
    FixedRoundTrip(data, |s|, n);
  }
}
