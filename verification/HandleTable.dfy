/** The hash table of cache entries: an array of chains that doubles as it fills up. */
module HandleTable {
  import opened Bits
  import opened Options

  type Key = seq<nat>

  /** A cache entry: its address and the fields that never change. */
  datatype Handle = Handle(address: nat, key: Key, hash: nat, value: nat, charge: nat)

  datatype Slot = Slot(key: Key, hash: nat)

  function SlotOf(e: Handle): Slot {
    Slot(e.key, e.hash)
  }

  function Bucket(hash: nat, length: nat): (i: nat)
    requires length > 0
    ensures i < length
  {
    And(hash, length - 1)
  }

  type Chains = seq<seq<Handle>>

  ghost predicate InPlace(list: Chains, i: nat, e: Handle)
    requires |list| > 0
  {
    Bucket(e.hash, |list|) == i
  }

  /** Every chained entry hangs in its own bucket and is what the map holds under its key and hash. */
  ghost predicate ChainsMapped(list: Chains, m: map<Slot, Handle>) {
    |list| > 0 &&
    forall i, p :: 0 <= i < |list| && 0 <= p < |list[i]| ==>
      InPlace(list, i, list[i][p]) && SlotOf(list[i][p]) in m && m[SlotOf(list[i][p])] == list[i][p]
  }

  ghost predicate MapChained(list: Chains, m: map<Slot, Handle>) {
    |list| > 0 && forall t :: t in m ==> SlotOf(m[t]) == t && m[t] in list[Bucket(t.hash, |list|)]
  }

  ghost predicate NoRepeats<T>(s: seq<T>) {
    forall p, q :: 0 <= p < q < |s| ==> s[p] != s[q]
  }

  /** The chains hold exactly the map's entries, each once. */
  ghost predicate Holds(list: Chains, m: map<Slot, Handle>) {
    ChainsMapped(list, m) && MapChained(list, m) && forall i :: 0 <= i < |list| ==> NoRepeats(list[i])
  }

  function Count(list: Chains): nat {
    if list == [] then 0 else Count(list[..|list| - 1]) + |list[|list| - 1]|
  }

  lemma {:induction false} CountUpdate(list: Chains, i: nat, chain: seq<Handle>)
    requires i < |list|
    ensures Count(list[i := chain]) + |list[i]| == Count(list) + |chain|
    decreases |list|
  {
    var n := |list| - 1;
    if i < n {
      CountUpdate(list[..n], i, chain);
      assert list[i := chain][..n] == list[..n][i := chain];
    } else {
      assert list[i := chain][..n] == list[..n];
    }
  }

  lemma {:induction false} CountEmpty(list: Chains)
    requires forall i :: 0 <= i < |list| ==> list[i] == []
    ensures Count(list) == 0
    decreases |list|
  {
    if list != [] {
      CountEmpty(list[..|list| - 1]);
    }
  }

  // ---------------------------------------------------------------------
  // What the operations do to the map

  /** A search that runs off the chain means the map has no such entry. */
  lemma NotInChain(list: Chains, m: map<Slot, Handle>, t: Slot)
    requires Holds(list, m)
    requires forall p :: 0 <= p < |list[Bucket(t.hash, |list|)]| ==> SlotOf(list[Bucket(t.hash, |list|)][p]) != t
    ensures t !in m
  {
    hide NoRepeats, Bucket;
  }

  lemma AppendHolds(list: Chains, m: map<Slot, Handle>, e: Handle)
    requires Holds(list, m) && SlotOf(e) !in m
    ensures var i := Bucket(e.hash, |list|); Holds(list[i := list[i] + [e]], m[SlotOf(e) := e])
  {
    hide Bucket;
    var i := Bucket(e.hash, |list|);
    var list', m' := list[i := list[i] + [e]], m[SlotOf(e) := e];
    assert ChainsMapped(list', m');
    forall t | t in m'
      ensures SlotOf(m'[t]) == t && m'[t] in list'[Bucket(t.hash, |list'|)]
    {
      if t == SlotOf(e) {
        assert list'[i][|list[i]|] == e;
      } else {
        assert t in m && m[t] in list[Bucket(t.hash, |list|)];
      }
    }
  }

  lemma ReplaceHolds(list: Chains, m: map<Slot, Handle>, e: Handle, p: nat)
    requires Holds(list, m) && p < |list[Bucket(e.hash, |list|)]|
    requires SlotOf(list[Bucket(e.hash, |list|)][p]) == SlotOf(e)
    ensures var i := Bucket(e.hash, |list|); Holds(list[i := list[i][p := e]], m[SlotOf(e) := e])
  {
    hide Bucket;
    var i := Bucket(e.hash, |list|);
    var chain := list[i];
    var list', m' := list[i := chain[p := e]], m[SlotOf(e) := e];
    forall q | 0 <= q < |chain| && q != p
      ensures SlotOf(chain[q]) != SlotOf(e)
    {
      assert chain[q] != chain[p];
    }
    assert ChainsMapped(list', m');
    forall t | t in m'
      ensures SlotOf(m'[t]) == t && m'[t] in list'[Bucket(t.hash, |list'|)]
    {
      if t == SlotOf(e) {
        assert list'[i][p] == e;
      } else {
        InUpdated(list[Bucket(t.hash, |list|)], p, e, m[t]);
      }
    }
  }

  lemma InUpdated(s: seq<Handle>, p: nat, e: Handle, x: Handle)
    requires x in s
    ensures p < |s| && s[p] != x ==> x in s[p := e]
  {
    var q :| 0 <= q < |s| && s[q] == x;
    if p < |s| && s[p] != x {
      assert s[p := e][q] == x;
    }
  }

  function Without<T>(s: seq<T>, p: nat): seq<T>
    requires p < |s|
  {
    s[..p] + s[p + 1..]
  }

  lemma WithoutFacts(s: seq<Handle>, p: nat)
    requires p < |s| && NoRepeats(s)
    ensures NoRepeats(Without(s, p)) && forall x :: x in Without(s, p) <==> x in s && x != s[p]
  {
    var r := Without(s, p);
    forall x | x in s && x != s[p]
      ensures x in r
    {
      var q :| 0 <= q < |s| && s[q] == x;
      assert r[if q < p then q else q - 1] == x;
    }
    forall x | x in r
      ensures x in s && x != s[p]
    {
      var q :| 0 <= q < |r| && r[q] == x;
      assert s[if q < p then q else q + 1] == x;
    }
  }

  lemma RemoveHolds(list: Chains, m: map<Slot, Handle>, t: Slot, p: nat)
    requires Holds(list, m) && p < |list[Bucket(t.hash, |list|)]| && SlotOf(list[Bucket(t.hash, |list|)][p]) == t
    ensures var i := Bucket(t.hash, |list|); Holds(list[i := Without(list[i], p)], m - {t})
  {
    hide Bucket, Without, NoRepeats;
    var i := Bucket(t.hash, |list|);
    var shorter := Without(list[i], p);
    var list', m' := list[i := shorter], m - {t};
    WithoutFacts(list[i], p);
    forall j, q | 0 <= j < |list'| && 0 <= q < |list'[j]|
      ensures InPlace(list', j, list'[j][q]) && SlotOf(list'[j][q]) in m' && m'[SlotOf(list'[j][q])] == list'[j][q]
    {
      var x := list'[j][q];
      if j == i {
        assert x in shorter;
      }
      assert x in list[j] && x != m[t];
    }
    forall u | u in m'
      ensures SlotOf(m'[u]) == u && m'[u] in list'[Bucket(u.hash, |list'|)]
    {
      assert m[u] in list[Bucket(u.hash, |list|)] && m[u] != m[t];
    }
  }

  // ---------------------------------------------------------------------
  // Rehashing

  /** Moving an entry to the front of its chain in the new list. */
  lemma PushHolds(list: Chains, m: map<Slot, Handle>, e: Handle)
    requires Holds(list, m) && SlotOf(e) !in m
    ensures var i := Bucket(e.hash, |list|); Holds(list[i := [e] + list[i]], m[SlotOf(e) := e])
  {
    hide Bucket;
    var i := Bucket(e.hash, |list|);
    var list', m' := list[i := [e] + list[i]], m[SlotOf(e) := e];
    assert ChainsMapped(list', m');
    forall t | t in m'
      ensures SlotOf(m'[t]) == t && m'[t] in list'[Bucket(t.hash, |list'|)]
    {
      if t == SlotOf(e) {
        assert list'[i][0] == e;
      } else {
        assert t in m && m[t] in list[Bucket(t.hash, |list|)];
      }
    }
  }

  ghost predicate Before(j: nat, q: nat, i: nat, p: nat) {
    j < i || (j == i && q < p)
  }

  /** The entries of the old list before position p of chain i, and no others, have been moved. */
  ghost predicate MovedUpTo(list: Chains, m: map<Slot, Handle>, moved: map<Slot, Handle>, i: nat, p: nat) {
    && (forall t :: t in moved ==> t in m && moved[t] == m[t])
    && (forall j, q :: 0 <= j < |list| && 0 <= q < |list[j]| ==> (SlotOf(list[j][q]) in moved <==> Before(j, q, i, p)))
  }

  lemma MoveOne(list: Chains, m: map<Slot, Handle>, moved: map<Slot, Handle>, i: nat, p: nat)
    requires Holds(list, m) && MovedUpTo(list, m, moved, i, p) && i < |list| && p < |list[i]|
    ensures var e := list[i][p]; SlotOf(e) !in moved && MovedUpTo(list, m, moved[SlotOf(e) := e], i, p + 1)
  {
    hide Bucket;
    var e := list[i][p];
    forall j, q | 0 <= j < |list| && 0 <= q < |list[j]| && SlotOf(list[j][q]) == SlotOf(e)
      ensures j == i && q == p
    {
      assert list[j][q] == m[SlotOf(e)] == e;
      assert InPlace(list, j, e) && InPlace(list, i, e);
      assert NoRepeats(list[i]);
    }
    assert !Before(i, p, i, p);
  }

  lemma NextChain(list: Chains, m: map<Slot, Handle>, moved: map<Slot, Handle>, i: nat)
    requires i < |list| && MovedUpTo(list, m, moved, i, |list[i]|)
    ensures MovedUpTo(list, m, moved, i + 1, 0)
  {
  }

  lemma AllMoved(list: Chains, m: map<Slot, Handle>, moved: map<Slot, Handle>)
    requires Holds(list, m) && MovedUpTo(list, m, moved, |list|, 0)
    ensures moved == m
  {
    hide Bucket;
    forall t | t in m
      ensures t in moved
    {
      var chain := list[Bucket(t.hash, |list|)];
      var q :| 0 <= q < |chain| && chain[q] == m[t];
      assert Before(Bucket(t.hash, |list|), q, |list|, 0);
    }
  }

  // ---------------------------------------------------------------------
  // Entries linked into chains

  class Node {
    const handle: Handle
    var nextHash: Node?

    constructor (handle: Handle)
      ensures this.handle == handle && nextHash == null
    {
      this.handle, nextHash := handle, null;
    }
  }

  type NodeChains = seq<seq<Node>>

  function Handles(nodes: seq<Node>): seq<Handle> {
    seq(|nodes|, p requires 0 <= p < |nodes| => nodes[p].handle)
  }

  function AllHandles(chains: NodeChains): (list: Chains)
    ensures |list| == |chains| && forall i :: 0 <= i < |list| ==> |list[i]| == |chains[i]|
  {
    seq(|chains|, i requires 0 <= i < |chains| => Handles(chains[i]))
  }

  /** Where each node leads. */
  ghost function NextHashes(nodes: set<Node>): map<Node, Node?>
    reads nodes
  {
    map n | n in nodes :: n.nextHash
  }

  lemma NextHashAt(nodes: set<Node>, node: Node)
    ensures node in nodes ==> node in NextHashes(nodes) && NextHashes(nodes)[node] == node.nextHash
    ensures NextHashes(nodes + {node}) == NextHashes(nodes)[node := node.nextHash]
    ensures node !in nodes ==> node !in NextHashes(nodes)
  {
  }

  /** The node at a place of a chain, null at its end. */
  function Nth(chain: seq<Node>, p: nat): Node? {
    if p < |chain| then chain[p] else null
  }

  /** The link to the p-th place of a chain belongs to the node before, null standing for the bucket. */
  function Prior(chain: seq<Node>, p: nat): Node?
    requires p <= |chain|
  {
    if p == 0 then null else chain[p - 1]
  }

  /** From place p on, each node leads to the next one, the last to none. */
  ghost predicate Leads(first: Node?, next: map<Node, Node?>, chain: seq<Node>, p: nat) {
    first == Nth(chain, p) && forall k :: p <= k < |chain| ==> chain[k] in next && next[chain[k]] == Nth(chain, k + 1)
  }

  /** Each bucket leads through the nodes of its chain. */
  ghost predicate Links(heads: seq<Node?>, next: map<Node, Node?>, chains: NodeChains) {
    |chains| == |heads| && forall i :: 0 <= i < |chains| ==> Leads(heads[i], next, chains[i], 0)
  }

  /** A node that is in a place is in no other. */
  ghost predicate Apart(chains: NodeChains) {
    forall i, p, j, q ::
      0 <= i < |chains| && 0 <= p < |chains[i]| && 0 <= j < |chains| && 0 <= q < |chains[j]| && (i != j || p != q) ==>
        chains[i][p] != chains[j][q]
  }

  lemma HoldsApart(chains: NodeChains, m: map<Slot, Handle>)
    requires Holds(AllHandles(chains), m)
    ensures Apart(chains)
  {
    hide Bucket;
    var list := AllHandles(chains);
    forall i, p, j, q |
      0 <= i < |chains| && 0 <= p < |chains[i]| && 0 <= j < |chains| && 0 <= q < |chains[j]| && (i != j || p != q)
      ensures chains[i][p] != chains[j][q]
    {
      assert InPlace(list, i, list[i][p]) && InPlace(list, j, list[j][q]);
      assert NoRepeats(list[i]);
    }
  }

  lemma HandlesUpdate(chains: NodeChains, i: nat, chain: seq<Node>)
    requires i < |chains|
    ensures AllHandles(chains[i := chain]) == AllHandles(chains)[i := Handles(chain)]
  {
  }

  /** A chain that begins with the first p nodes of another and whose rest is already linked. */
  ghost predicate Rejoins(was: seq<Node>, next: map<Node, Node?>, chain: seq<Node>, p: nat, x: Node?) {
    && p <= |was| && p <= |chain| && chain[..p] == was[..p] && Leads(x, next, chain, p)
    && (forall k :: p <= k < |chain| ==> chain[k] !in was[..p])
  }

  /** Redirecting one link replaces the rest of its chain and no other. */
  lemma Relinked(heads: seq<Node?>, next: map<Node, Node?>, chains: NodeChains, i: nat, p: nat, x: Node?,
                 chain: seq<Node>)
    requires Links(heads, next, chains) && Apart(chains) && i < |chains| && Rejoins(chains[i], next, chain, p, x)
    ensures var b := Prior(chains[i], p);
      Links(if b == null then heads[i := x] else heads, if b == null then next else next[b := x], chains[i := chain])
  {
    var b := Prior(chains[i], p);
    var heads', next' := if b == null then heads[i := x] else heads, if b == null then next else next[b := x];
    RelinkedChain(heads[i], next, chains[i], p, x, chain);
    forall j | 0 <= j < |chains| && j != i
      ensures Leads(heads'[j], next', chains[j], 0)
    {
      assert forall k :: 0 <= k < |chains[j]| ==> chains[j][k] != b;
    }
  }

  lemma RelinkedChain(first: Node?, next: map<Node, Node?>, was: seq<Node>, p: nat, x: Node?, chain: seq<Node>)
    requires Leads(first, next, was, 0) && NoRepeats(was) && Rejoins(was, next, chain, p, x)
    ensures var b := Prior(was, p);
      Leads(if b == null then x else first, if b == null then next else next[b := x], chain, 0)
  {
    forall k | 0 <= k < p
      ensures chain[k] == was[k]
    {
      assert chain[..p][k] == was[..p][k];
    }
    if p > 0 {
      assert was[..p][p - 1] == was[p - 1];
    }
  }

  /** A new node joins the links, leading where the one it replaces did. */
  lemma Joined(heads: seq<Node?>, next: map<Node, Node?>, chains: NodeChains, i: nat, p: nat, node: Node)
    requires Links(heads, next, chains) && Apart(chains) && i < |chains| && p <= |chains[i]| && node !in next
    ensures p < |chains[i]| ==> chains[i][p] in next
    ensures var next' := next[node := if p < |chains[i]| then next[chains[i][p]] else null];
      Links(heads, next', chains) && Rejoins(chains[i], next', WithNode(chains[i], p, node), p, node)
  {
  }

  /** The chain with a node in the place of the p-th, or at its end. */
  function WithNode(chain: seq<Node>, p: nat, node: Node): seq<Node>
    requires p <= |chain|
  {
    if p < |chain| then chain[p := node] else chain + [node]
  }

  lemma Skipped(next: map<Node, Node?>, chain: seq<Node>, p: nat, first: Node?)
    requires Leads(first, next, chain, 0) && NoRepeats(chain) && p < |chain|
    ensures chain[p] in next && Rejoins(chain, next, Without(chain, p), p, next[chain[p]])
  {
    var shorter := Without(chain, p);
    assert shorter[..p] == chain[..p];
    assert forall k :: p <= k < |shorter| ==> shorter[k] == chain[k + 1];
    NotBefore(chain, p);
    hide NoRepeats, Without;
  }

  lemma NotBefore(chain: seq<Node>, p: nat)
    requires NoRepeats(chain) && p < |chain|
    ensures forall k :: p <= k < |chain| ==> chain[k] !in chain[..p]
  {
  }

  /** What the new node does to the map. */
  lemma JoinHolds(chains: NodeChains, m: map<Slot, Handle>, i: nat, p: nat, node: Node)
    requires Holds(AllHandles(chains), m) && i == Bucket(node.handle.hash, |chains|) && p <= |chains[i]|
    requires if p < |chains[i]| then SlotOf(chains[i][p].handle) == SlotOf(node.handle) else SlotOf(node.handle) !in m
    ensures var chains' := chains[i := WithNode(chains[i], p, node)];
      && Holds(AllHandles(chains'), m[SlotOf(node.handle) := node.handle])
      && Count(AllHandles(chains')) == Count(AllHandles(chains)) + if p < |chains[i]| then 0 else 1
  {
    hide Bucket, Count, Holds;
    var list, h := AllHandles(chains), node.handle;
    HandlesUpdate(chains, i, WithNode(chains[i], p, node));
    CountUpdate(list, i, Handles(WithNode(chains[i], p, node)));
    if p < |chains[i]| {
      ReplaceHolds(list, m, h, p);
      assert Handles(chains[i][p := node]) == list[i][p := h];
    } else {
      AppendHolds(list, m, h);
      assert Handles(chains[i] + [node]) == list[i] + [h];
    }
  }

  lemma SkipHolds(chains: NodeChains, m: map<Slot, Handle>, t: Slot, i: nat, p: nat)
    requires Holds(AllHandles(chains), m) && i == Bucket(t.hash, |chains|) && p < |chains[i]|
    requires SlotOf(chains[i][p].handle) == t
    ensures var chains' := chains[i := Without(chains[i], p)];
      Holds(AllHandles(chains'), m - {t}) && Count(AllHandles(chains')) + 1 == Count(AllHandles(chains))
  {
    hide Bucket, Count, Holds;
    var list := AllHandles(chains);
    HandlesUpdate(chains, i, Without(chains[i], p));
    CountUpdate(list, i, Handles(Without(chains[i], p)));
    RemoveHolds(list, m, t, p);
    assert Handles(Without(chains[i], p)) == Without(list[i], p);
  }

  /** From bucket i on, the links are still as they were. */
  ghost predicate Left(heads: seq<Node?>, next: map<Node, Node?>, chains: NodeChains, i: nat) {
    |chains| == |heads| && forall j :: i <= j < |chains| ==> Leads(heads[j], next, chains[j], 0)
  }

  lemma LeftAt(heads: seq<Node?>, next: map<Node, Node?>, chains: NodeChains, i: nat)
    requires Left(heads, next, chains, i) && i < |chains|
    ensures Left(heads, next, chains, i + 1) && Leads(heads[i], next, chains[i], 0)
  {
  }

  lemma LeftAll(heads: seq<Node?>, next: map<Node, Node?>, chains: NodeChains)
    requires Links(heads, next, chains)
    ensures Left(heads, next, chains, 0)
  {
  }

  lemma NothingLinked(heads: seq<Node?>, next: map<Node, Node?>, chains: NodeChains)
    requires |chains| == |heads| && forall i :: 0 <= i < |heads| ==> heads[i] == null && chains[i] == []
    ensures Links(heads, next, chains)
  {
  }

  /** Redirecting a node's link leaves the nodes after it linked, and the chains still to come. */
  lemma LeadsOn(heads: seq<Node?>, next: map<Node, Node?>, chains: NodeChains, i: nat, p: nat, h: Node, x: Node?)
    requires Apart(chains) && i < |chains| && Left(heads, next, chains, i + 1) && Leads(h, next, chains[i], p)
    ensures p < |chains[i]| && chains[i][p] == h && h in next
    ensures Left(heads, next[h := x], chains, i + 1) && Leads(next[h], next[h := x], chains[i], p + 1)
  {
    assert forall j, q :: i < j < |chains| && 0 <= q < |chains[j]| ==> chains[j][q] != chains[i][p];
  }

  lemma LeadsEnd(next: map<Node, Node?>, chain: seq<Node>, p: nat)
    requires Leads(null, next, chain, p) && p <= |chain|
    ensures p == |chain|
  {
  }

  lemma HandleAt(chains: NodeChains, i: nat, p: nat)
    requires i < |chains| && p < |chains[i]|
    ensures AllHandles(chains)[i][p] == chains[i][p].handle
  {
  }

  /** A node that has not been moved goes to the front of its new chain. */
  lemma Pushed(heads: seq<Node?>, next: map<Node, Node?>, chains: NodeChains, m: map<Slot, Handle>, i: nat, h: Node)
    requires Links(heads, next, chains) && Holds(AllHandles(chains), m) && SlotOf(h.handle) !in m && h in next
    requires |chains| > 0 && i == Bucket(h.handle.hash, |chains|)
    ensures var chains' := chains[i := [h] + chains[i]];
      && |heads| == |chains| && Links(heads[i := h], next[h := heads[i]], chains')
      && Holds(AllHandles(chains'), m[SlotOf(h.handle) := h.handle])
      && Count(AllHandles(chains')) == Count(AllHandles(chains)) + 1
  {
    hide Bucket, Count;
    var list := AllHandles(chains);
    forall j, q | 0 <= j < |chains| && 0 <= q < |chains[j]|
      ensures chains[j][q] != h
    {
      assert list[j][q] == chains[j][q].handle;
    }
    hide Holds;
    HandlesUpdate(chains, i, [h] + chains[i]);
    assert Handles([h] + chains[i]) == [h.handle] + list[i];
    CountUpdate(list, i, [h.handle] + list[i]);
    PushHolds(list, m, h.handle);
  }

  class Table {
    var elems: nat
    var list: array<Node?>
    ghost var chains: NodeChains
    ghost var nodes: set<Node>
    ghost var contents: map<Slot, Handle>

    /** The links run through the chains, which hold the map. */
    ghost predicate Linked()
      reads this, list, nodes
    {
      && Links(list[..], NextHashes(nodes), chains) && Holds(AllHandles(chains), contents)
      && elems == Count(AllHandles(chains))
    }

    /** No more entries than buckets. */
    ghost predicate Valid()
      reads this, list, nodes
    {
      Linked() && elems <= list.Length
    }

    constructor ()
      ensures Valid() && contents == map[] && fresh(list) && fresh(nodes)
    {
      elems, list := 0, new Node?[4](_ => null);
      chains, nodes, contents := seq(4, _ => []), {}, map[];
      new;
      CountEmpty(AllHandles(chains));
    }

    /** The bucket, and the link that leads to the entry with this key and hash or ends the chain. */
    method FindPointer(key: Key, hash: nat) returns (i: nat, before: Node?, at: Node?, ghost p: nat)
      requires Valid()
      ensures |chains| == list.Length > 0 && i == Bucket(hash, list.Length) && p <= |chains[i]|
      ensures before == Prior(chains[i], p) && at == Nth(chains[i], p) && (at != null ==> at in nodes)
      ensures before != null ==> before in nodes
      ensures at != null <==> Slot(key, hash) in contents
      ensures at != null ==> at.handle == contents[Slot(key, hash)] && SlotOf(at.handle) == Slot(key, hash)
    {
      hide Bucket, Count;
      i, before := Bucket(hash, list.Length), null;
      at, p := list[i], 0;
      ghost var chain := chains[i];
      while at != null && (at.handle.hash != hash || key != at.handle.key)
        invariant p <= |chain| && before == Prior(chain, p) && at == Nth(chain, p)
        invariant forall q :: 0 <= q < p ==> SlotOf(chain[q].handle) != Slot(key, hash)
        decreases |chain| - p
      {
        assert chain[p] in NextHashes(nodes);
        before, at, p := at, at.nextHash, p + 1;
      }
      if at == null {
        NotInChain(AllHandles(chains), contents, Slot(key, hash));
      } else {
        assert AllHandles(chains)[i][p] == at.handle;
      }
    }

    method Lookup(key: Key, hash: nat) returns (e: Option<Handle>)
      requires Valid()
      ensures e == Find(contents, Slot(key, hash))
    {
      var _, _, at, _ := FindPointer(key, hash);
      return if at != null then Some(at.handle) else None;
    }

    /** Redirects the link before a place of a chain. */
    method Store(i: nat, before: Node?, x: Node?, ghost p: nat, ghost chain: seq<Node>)
      requires Links(list[..], NextHashes(nodes), chains) && Apart(chains) && i < list.Length
      requires Rejoins(chains[i], NextHashes(nodes), chain, p, x) && before == Prior(chains[i], p)
      requires before != null ==> before in nodes
      modifies this`chains, list, nodes
      ensures Links(list[..], NextHashes(nodes), chains) && chains == old(chains)[i := chain]
    {
      hide Links, Apart, Rejoins;
      ghost var heads, next := list[..], NextHashes(nodes);
      LinksSize(heads, next, chains);
      Relinked(heads, next, chains, i, p, x, chain);
      chains := chains[i := chain];
      if before == null {
        list[i] := x;
      } else {
        before.nextHash := x;
      }
      assert list[..] == if before == null then heads[i := x] else heads;
      assert NextHashes(nodes) == if before == null then next else next[before := x];
    }

    /** Puts an entry in, displacing the one with the same key and hash. */
    method Insert(h: Handle) returns (displaced: Option<Handle>)
      requires Valid()
      modifies this, list, nodes
      ensures Valid() && contents == old(contents)[SlotOf(h) := h]
      ensures displaced == Find(old(contents), SlotOf(h))
      ensures (list == old(list) || fresh(list)) && fresh(nodes - old(nodes))
    {
      hide Bucket, Count, Holds, AllHandles, Links, Apart, Rejoins, NextHashes;
      var i, before, at, p := FindPointer(h.key, h.hash);
      var node := new Node(h);
      ghost var next := NextHashes(nodes);
      NextHashAt(nodes, node);
      if at != null {
        NextHashAt(nodes, at);
      }
      HoldsApart(chains, contents);
      Joined(list[..], next, chains, i, p, node);
      JoinHolds(chains, contents, i, p, node);
      node.nextHash := if at == null then null else at.nextHash;
      NextHashAt(nodes, node);
      nodes := nodes + {node};
      Store(i, before, node, p, WithNode(chains[i], p, node));
      contents := contents[SlotOf(h) := h];
      if at != null {
        return Some(at.handle);
      }
      elems := elems + 1;
      if elems > list.Length {
        Resize();
      }
      return None;
    }

    method Remove(key: Key, hash: nat) returns (removed: Option<Handle>)
      requires Valid()
      modifies this, list, nodes
      ensures Valid() && contents == old(contents) - {Slot(key, hash)}
      ensures removed == Find(old(contents), Slot(key, hash))
      ensures list == old(list) && nodes == old(nodes)
    {
      hide Bucket, Count, Holds, AllHandles, Apart, Rejoins;
      var i, before, at, p := FindPointer(key, hash);
      if at == null {
        assert contents - {Slot(key, hash)} == contents;
        return None;
      }
      HoldsApart(chains, contents);
      ApartChain(chains, i);
      Skipped(NextHashes(nodes), chains[i], p, list[i]);
      SkipHolds(chains, contents, Slot(key, hash), i, p);
      Store(i, before, at.nextHash, p, Without(chains[i], p));
      contents := contents - {Slot(key, hash)};
      elems := elems - 1;
      return Some(at.handle);
    }

    /** Moves the nodes of one chain to the fronts of their new ones. */
    method MoveChain(newList: array<Node?>, i: nat, count0: nat, ghost chains0: NodeChains,
                     ghost moved0: map<Slot, Handle>)
      returns (count: nat, ghost newChains: NodeChains, ghost moved: map<Slot, Handle>)
      requires newList != list && newList.Length > 0 && i < list.Length && Holds(AllHandles(chains), contents)
      requires Links(newList[..], NextHashes(nodes), chains0) && Holds(AllHandles(chains0), moved0)
      requires Count(AllHandles(chains0)) == count0 && MovedUpTo(AllHandles(chains), contents, moved0, i, 0)
      requires Left(list[..], NextHashes(nodes), chains, i)
      modifies newList, nodes
      ensures Links(newList[..], NextHashes(nodes), newChains) && Holds(AllHandles(newChains), moved)
      ensures |chains| == list.Length && Count(AllHandles(newChains)) == count == count0 + |chains[i]|
      ensures MovedUpTo(AllHandles(chains), contents, moved, i + 1, 0)
      ensures Left(list[..], NextHashes(nodes), chains, i + 1)
    {
      hide Bucket, Count, Holds, MovedUpTo, AllHandles, Apart, Links, Leads, Left;
      ghost var was, p: nat := AllHandles(chains), 0;
      HoldsApart(chains, contents);
      LeftSize(list[..], NextHashes(nodes), chains, i);
      LeftAt(list[..], NextHashes(nodes), chains, i);
      count, newChains, moved := count0, chains0, moved0;
      var h := list[i];
      while h != null
        invariant p <= |chains[i]| && Leads(h, NextHashes(nodes), chains[i], p) && MovedUpTo(was, contents, moved, i, p)
        invariant Links(newList[..], NextHashes(nodes), newChains) && Holds(AllHandles(newChains), moved)
        invariant Count(AllHandles(newChains)) == count == count0 + p
        invariant Left(list[..], NextHashes(nodes), chains, i + 1)
        decreases |chains[i]| - p
      {
        ghost var heads, next := newList[..], NextHashes(nodes);
        var following := h.nextHash;
        var j := Bucket(h.handle.hash, newList.Length);
        LinksSize(heads, next, newChains);
        LeadsOn(list[..], next, chains, i, p, h, heads[j]);
        MoveOne(was, contents, moved, i, p);
        HandleAt(chains, i, p);
        Pushed(heads, next, newChains, moved, j, h);
        h.nextHash := newList[j];
        newList[j] := h;
        assert newList[..] == heads[j := h] && NextHashes(nodes) == next[h := heads[j]];
        newChains, moved := newChains[j := [h] + newChains[j]], moved[SlotOf(h.handle) := h.handle];
        h, p, count := following, p + 1, count + 1;
      }
      LeadsEnd(NextHashes(nodes), chains[i], p);
      NextChain(was, contents, moved, i);
    }

    /** Rehashes into the next power of two that has room; the map stays the same. */
    method Resize()
      requires Linked()
      modifies this, nodes
      ensures Valid() && contents == old(contents) && elems == old(elems) && fresh(list) && nodes == old(nodes)
    {
      hide Bucket, Count, Holds, MovedUpTo, AllHandles, Links, Left;
      var newLength := 4;
      while newLength < elems {
        newLength := newLength * 2;
      }
      var newList := new Node?[newLength](_ => null);
      ghost var newChains: NodeChains := seq(newLength, _ => []);
      ghost var moved: map<Slot, Handle>, was := map[], AllHandles(chains);
      NothingLinked(newList[..], NextHashes(nodes), newChains);
      NothingMoved(AllHandles(newChains), was, contents);
      CountEmpty(AllHandles(newChains));
      LinksSize(list[..], NextHashes(nodes), chains);
      LeftAll(list[..], NextHashes(nodes), chains);
      CountPrefixes(was, 0);
      var count := 0;
      for i := 0 to list.Length
        invariant unchanged(this) && newList.Length == newLength
        invariant Links(newList[..], NextHashes(nodes), newChains) && Holds(AllHandles(newChains), moved)
        invariant Count(AllHandles(newChains)) == count == Count(was[..i])
        invariant MovedUpTo(was, contents, moved, i, 0) && Left(list[..], NextHashes(nodes), chains, i)
      {
        CountPrefixes(was, i);
        count, newChains, moved := MoveChain(newList, i, count, newChains, moved);
      }
      AllMoved(was, contents, moved);
      CountPrefixes(was, |was|);
      assert elems == count;
      list, chains := newList, newChains;
    }
  }

  lemma LeftSize(heads: seq<Node?>, next: map<Node, Node?>, chains: NodeChains, i: nat)
    requires Left(heads, next, chains, i)
    ensures |heads| == |chains|
  {
  }

  lemma LinksSize(heads: seq<Node?>, next: map<Node, Node?>, chains: NodeChains)
    requires Links(heads, next, chains)
    ensures |heads| == |chains|
  {
  }

  lemma ApartChain(chains: NodeChains, i: nat)
    requires Apart(chains) && i < |chains|
    ensures NoRepeats(chains[i])
  {
  }

  lemma NothingMoved(newList: Chains, list: Chains, m: map<Slot, Handle>)
    requires |newList| > 0 && forall i :: 0 <= i < |newList| ==> newList[i] == []
    ensures Holds(newList, map[]) && MovedUpTo(list, m, map[], 0, 0)
  {
  }

  lemma CountPrefixes(list: Chains, i: nat)
    requires i <= |list|
    ensures Count(list[..0]) == 0 && Count(list[..|list|]) == Count(list)
    ensures i < |list| ==> Count(list[..i + 1]) == Count(list[..i]) + |list[i]|
  {
    assert list[..|list|] == list;
    if i < |list| {
      assert list[..i + 1][..i] == list[..i];
    }
  }
}
