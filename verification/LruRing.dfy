/** The circular doubly linked lists of cache entries. */
module LruRing {
  import opened HandleTable
  import opened Options

  /** The links of an entry, or of a list. */
  class Link {
    const entry: Option<Handle>
    var next: Link
    var prev: Link

    constructor (entry: Option<Handle>)
      ensures this.entry == entry && next == prev == this
    {
      this.entry, next, prev := entry, this, this;
    }
  }

  /** Where each link leads. */
  ghost function Nexts(ring: set<Link>): (next: map<Link, Link>)
    reads ring
    ensures next.Keys == ring
  {
    map e | e in ring :: e.next
  }

  ghost function Prevs(ring: set<Link>): (prev: map<Link, Link>)
    reads ring
    ensures prev.Keys == ring
  {
    map e | e in ring :: e.prev
  }

  lemma LinkAt(ring: set<Link>, e: Link)
    requires e in ring
    ensures Nexts(ring)[e] == e.next && Prevs(ring)[e] == e.prev
  {
  }

  lemma OneMore(ring: set<Link>, e: Link)
    ensures Nexts(ring + {e}) == Nexts(ring)[e := e.next] && Prevs(ring + {e}) == Prevs(ring)[e := e.prev]
  {
  }

  /** Counting from a list's own link through its entries and back. */
  function At(head: Link, list: seq<Link>, i: nat): Link {
    if 0 < i <= |list| then list[i - 1] else head
  }

  /** The i-th leads to the next one and back. */
  ghost predicate Neighbours(head: Link, list: seq<Link>, i: nat, next: map<Link, Link>, prev: map<Link, Link>) {
    var a, b := At(head, list, i), At(head, list, i + 1);
    a in next && next[a] == b && b in prev && prev[b] == a
  }

  /** Following the links in either direction leads through the entries of the list in order. */
  ghost predicate Ring(head: Link, list: seq<Link>, next: map<Link, Link>, prev: map<Link, Link>) {
    forall i :: 0 <= i <= |list| ==> Neighbours(head, list, i, next, prev)
  }

  lemma AtDistinct(head: Link, list: seq<Link>, i: nat, j: nat)
    requires NoRepeats(list) && head !in list && i <= |list| + 1 && j <= |list| + 1
    ensures At(head, list, i) == At(head, list, j) ==> i == j || (i + j == |list| + 1 && (i == 0 || j == 0))
  {
  }

  lemma AtWithout(head: Link, list: seq<Link>, k: nat, i: nat)
    requires k < |list| && i <= |list|
    ensures At(head, Without(list, k), i) == At(head, list, if i <= k then i else i + 1)
  {
  }

  /** What unlinking an entry does to the links. */
  lemma UnlinkedRing(head: Link, list: seq<Link>, k: nat, next: map<Link, Link>, prev: map<Link, Link>)
    requires Ring(head, list, next, prev) && NoRepeats(list) && head !in list && k < |list|
    ensures list[k] in next && list[k] in prev
    ensures var a, b := prev[list[k]], next[list[k]]; Ring(head, Without(list, k), next[a := b], prev[b := a])
  {
    assert Neighbours(head, list, k, next, prev) && Neighbours(head, list, k + 1, next, prev);
    var a, b := prev[list[k]], next[list[k]];
    var next', prev', shorter := next[a := b], prev[b := a], Without(list, k);
    forall i | 0 <= i < |list|
      ensures Neighbours(head, shorter, i, next', prev')
    {
      AtWithout(head, list, k, i);
      AtWithout(head, list, k, i + 1);
      var j := if i <= k then i else i + 1;
      assert Neighbours(head, list, j, next, prev);
      AtDistinct(head, list, j, k);
      AtDistinct(head, list, k + 2, j + 1);
    }
  }

  /** What putting an entry in just before the list's own link does. */
  lemma AppendedRing(head: Link, list: seq<Link>, e: Link, next: map<Link, Link>, prev: map<Link, Link>)
    requires Ring(head, list, next, prev) && NoRepeats(list) && head !in list && e !in list && e != head
    ensures head in prev && Ring(head, list + [e], next[e := head][prev[head] := e], prev[e := prev[head]][head := e])
  {
    var n := |list|;
    assert Neighbours(head, list, n, next, prev);
    var next', prev', longer := next[e := head][prev[head] := e], prev[e := prev[head]][head := e], list + [e];
    forall i | 0 <= i <= n + 1
      ensures Neighbours(head, longer, i, next', prev')
    {
      if i < n {
        assert Neighbours(head, list, i, next, prev);
        AtDistinct(head, list, i, n);
        AtDistinct(head, list, i + 1, n + 1);
      }
    }
  }

  /** Links changed elsewhere do not matter. */
  lemma RingKept(head: Link, list: seq<Link>, next: map<Link, Link>, prev: map<Link, Link>, a: Link, x: Link, b: Link,
                 y: Link)
    requires Ring(head, list, next, prev) && a != head && a !in list && b != head && b !in list
    ensures Ring(head, list, next[a := x], prev[b := y])
  {
    var next', prev' := next[a := x], prev[b := y];
    forall i | 0 <= i <= |list|
      ensures Neighbours(head, list, i, next', prev')
    {
      assert Neighbours(head, list, i, next, prev);
    }
  }

  /** Takes an entry out of the list it is on. */
  method Unlink(e: Link, ghost ring: set<Link>)
    requires e in ring && Nexts(ring)[e] in ring && Prevs(ring)[e] in ring
    modifies ring
    ensures Nexts(ring) == old(Nexts(ring)[Prevs(ring)[e] := Nexts(ring)[e]])
    ensures Prevs(ring) == old(Prevs(ring)[Nexts(ring)[e] := Prevs(ring)[e]])
  {
    e.next.prev := e.prev;
    e.prev.next := e.next;
  }

  /** Makes an entry the newest of a list. */
  method LinkBefore(list: Link, e: Link, ghost ring: set<Link>)
    requires list in ring && e in ring && Prevs(ring)[list] in ring && e != list && e != Prevs(ring)[list]
    modifies ring
    ensures Nexts(ring) == old(Nexts(ring)[e := list][Prevs(ring)[list] := e])
    ensures Prevs(ring) == old(Prevs(ring)[e := Prevs(ring)[list]][list := e])
  {
    e.next := list;
    e.prev := list.prev;
    e.prev.next := e;
    e.next.prev := e;
  }

  // ---------------------------------------------------------------------
  // The two lists of a cache

  /** The list with an entry unlinked. */
  function Drop(s: seq<Handle>, e: Handle): seq<Handle> {
    if s == [] then [] else if s[0] == e then Drop(s[1..], e) else [s[0]] + Drop(s[1..], e)
  }

  lemma {:induction false} DropAbsent(s: seq<Handle>, e: Handle)
    requires e !in s
    ensures Drop(s, e) == s
    decreases |s|
  {
    if s != [] {
      DropAbsent(s[1..], e);
    }
  }

  lemma {:induction false} DropIsWithout(s: seq<Handle>, k: nat)
    requires NoRepeats(s) && k < |s|
    ensures Drop(s, s[k]) == Without(s, k)
    decreases |s|
  {
    if k == 0 {
      DropAbsent(s[1..], s[0]);
    } else {
      DropIsWithout(s[1..], k - 1);
      assert Without(s, k) == [s[0]] + Without(s[1..], k - 1);
    }
  }

  /** The lists' own links and those of all entries. */
  datatype Owners = Owners(lru: Link, inUse: Link, links: map<Handle, Link>)

  /** Every link has one owner. */
  ghost predicate Own(o: Owners) {
    o.lru != o.inUse && o.lru.entry == o.inUse.entry == None && forall e :: e in o.links ==> o.links[e].entry == Some(e)
  }

  /** The links of the entries on a list. */
  function LinksOf(links: map<Handle, Link>, s: seq<Handle>): (r: seq<Link>)
    requires forall e :: e in s ==> e in links
  {
    seq(|s|, i requires 0 <= i < |s| => links[s[i]])
  }

  ghost predicate OnList(head: Link, links: map<Handle, Link>, s: seq<Handle>, next: map<Link, Link>,
                         prev: map<Link, Link>) {
    NoRepeats(s) && (forall e :: e in s ==> e in links) && Ring(head, LinksOf(links, s), next, prev)
  }

  /** Following the links of either list leads through its entries, and no entry is on both. */
  ghost predicate Threaded(o: Owners, lru: seq<Handle>, inUse: seq<Handle>, next: map<Link, Link>,
                           prev: map<Link, Link>) {
    && Own(o) && OnList(o.lru, o.links, lru, next, prev) && OnList(o.inUse, o.links, inUse, next, prev)
    && forall e :: e in lru ==> e !in inUse
  }

  lemma LinksDistinct(o: Owners, head: Link, s: seq<Handle>)
    requires Own(o) && NoRepeats(s) && (forall e :: e in s ==> e in o.links) && (head == o.lru || head == o.inUse)
    ensures NoRepeats(LinksOf(o.links, s)) && head !in LinksOf(o.links, s)
  {
  }

  /** Unlinking an entry takes it off its list. */
  lemma OffList(o: Owners, head: Link, s: seq<Handle>, e: Handle, next: map<Link, Link>, prev: map<Link, Link>)
    requires Own(o) && OnList(head, o.links, s, next, prev) && (head == o.lru || head == o.inUse) && e in s
    ensures var l := o.links[e]; l in next && l in prev
    ensures var a, b := prev[o.links[e]], next[o.links[e]];
      && (a == head || a in LinksOf(o.links, s)) && (b == head || b in LinksOf(o.links, s))
      && OnList(head, o.links, Drop(s, e), next[a := b], prev[b := a])
  {
    hide Own, Ring, Drop;
    var k :| 0 <= k < |s| && s[k] == e;
    var list := LinksOf(o.links, s);
    LinksDistinct(o, head, s);
    UnlinkedRing(head, list, k, next, prev);
    Around(head, list, k, next, prev);
    DropIsWithout(s, k);
    WithoutFacts(s, k);
    assert LinksOf(o.links, Without(s, k)) == Without(list, k);
  }

  lemma Around(head: Link, list: seq<Link>, k: nat, next: map<Link, Link>, prev: map<Link, Link>)
    requires Ring(head, list, next, prev) && k < |list|
    ensures list[k] in next && (next[list[k]] == head || next[list[k]] in list)
    ensures list[k] in prev && (prev[list[k]] == head || prev[list[k]] in list)
  {
    assert Neighbours(head, list, k, next, prev) && Neighbours(head, list, k + 1, next, prev);
  }

  /** What a list's links are not shared with. */
  lemma NotShared(o: Owners, head: Link, s: seq<Handle>, other: Link, t: seq<Handle>, l: Link)
    requires Own(o) && (forall e :: e in s ==> e in o.links) && (forall e :: e in t ==> e in o.links && e !in s)
    requires head != other && (head == o.lru || head == o.inUse) && (other == o.lru || other == o.inUse)
    requires l == head || l in LinksOf(o.links, s)
    ensures l != other && l !in LinksOf(o.links, t)
  {
  }

  lemma TakenOff(o: Owners, head: Link, s: seq<Handle>, other: Link, t: seq<Handle>, e: Handle, next: map<Link, Link>,
                 prev: map<Link, Link>)
    requires Own(o) && OnList(head, o.links, s, next, prev) && OnList(other, o.links, t, next, prev)
    requires head != other && (head == o.lru || head == o.inUse) && (other == o.lru || other == o.inUse)
    requires e in s && forall x :: x in t ==> x !in s
    ensures o.links[e] in next && o.links[e] in prev && Drop(t, e) == t
    ensures var a, b := prev[o.links[e]], next[o.links[e]];
      && (a == head || a in LinksOf(o.links, s)) && (b == head || b in LinksOf(o.links, s))
      && OnList(head, o.links, Drop(s, e), next[a := b], prev[b := a])
      && OnList(other, o.links, t, next[a := b], prev[b := a])
  {
    OffList(o, head, s, e, next, prev);
    var a, b := prev[o.links[e]], next[o.links[e]];
    NotShared(o, head, s, other, t, a);
    NotShared(o, head, s, other, t, b);
    RingKept(other, LinksOf(o.links, t), next, prev, a, b, b, a);
    DropAbsent(t, e);
  }

  /** Putting an entry in at the end of a list. */
  lemma PutOn(o: Owners, head: Link, s: seq<Handle>, other: Link, t: seq<Handle>, e: Handle, next: map<Link, Link>,
              prev: map<Link, Link>)
    requires Own(o) && OnList(head, o.links, s, next, prev) && OnList(other, o.links, t, next, prev)
    requires head != other && (head == o.lru || head == o.inUse) && (other == o.lru || other == o.inUse)
    requires e in o.links && e !in s && e !in t && forall x :: x in t ==> x !in s
    ensures head in prev && (prev[head] == head || prev[head] in LinksOf(o.links, s)) && prev[head] != o.links[e]
    ensures var l := o.links[e]; var next', prev' := next[l := head][prev[head] := l], prev[l := prev[head]][head := l];
      OnList(head, o.links, s + [e], next', prev') && OnList(other, o.links, t, next', prev')
  {
    hide Ring;
    var l, list := o.links[e], LinksOf(o.links, s);
    LinksDistinct(o, head, s);
    Last(head, list, next, prev);
    AppendedRing(head, list, l, next, prev);
    NotShared(o, head, s, other, t, prev[head]);
    NotShared(o, head, s, other, t, head);
    RingKept(other, LinksOf(o.links, t), next, prev, l, head, l, prev[head]);
    RingKept(other, LinksOf(o.links, t), next[l := head], prev[l := prev[head]], prev[head], l, head, l);
    assert LinksOf(o.links, s + [e]) == list + [l];
  }

  lemma Last(head: Link, list: seq<Link>, next: map<Link, Link>, prev: map<Link, Link>)
    requires Ring(head, list, next, prev)
    ensures head in next && next[head] == (if list == [] then head else list[0])
    ensures head in prev && (prev[head] == head || prev[head] in list)
  {
    assert Neighbours(head, list, 0, next, prev) && Neighbours(head, list, |list|, next, prev);
  }

  lemma Dropped(s: seq<Handle>, e: Handle)
    requires NoRepeats(s)
    ensures forall x :: x in Drop(s, e) <==> x in s && x != e
  {
    hide Drop;
    if e in s {
      var k :| 0 <= k < |s| && s[k] == e;
      DropIsWithout(s, k);
      WithoutFacts(s, k);
    } else {
      DropAbsent(s, e);
    }
  }

  /** The links as they are, and both lists. */
  datatype Rings = Rings(o: Owners, ring: set<Link>, lru: seq<Handle>, inUse: seq<Handle>, next: map<Link, Link>,
                         prev: map<Link, Link>)

  /** Following the links of either list leads through it. */
  ghost predicate Linked(r: Rings) {
    && r.next.Keys == r.prev.Keys == r.ring && r.o.lru in r.ring && r.o.inUse in r.ring
    && (forall e :: e in r.o.links ==> r.o.links[e] in r.ring) && Threaded(r.o, r.lru, r.inUse, r.next, r.prev)
  }

  lemma NoneLinked(r: Rings)
    requires r.o.lru != r.o.inUse && r.o.lru.entry == r.o.inUse.entry == None && r.o.links == map[]
    requires r.lru == r.inUse == []
    requires r.next.Keys == r.prev.Keys == r.ring && r.o.lru in r.ring && r.o.inUse in r.ring
    requires r.next[r.o.lru] == r.prev[r.o.lru] == r.o.lru && r.next[r.o.inUse] == r.prev[r.o.inUse] == r.o.inUse
    ensures Linked(r)
  {
  }

  /** Unlinking an entry takes it off the one list it is on. */
  lemma Unlinked(r: Rings, e: Handle)
    requires Linked(r) && (e in r.lru || e in r.inUse)
    ensures e in r.o.links && r.o.links[e] in r.ring && r.ring == r.next.Keys == r.prev.Keys
    ensures var a, b := r.prev[r.o.links[e]], r.next[r.o.links[e]];
      && a in r.ring && b in r.ring
      && Linked(r.(lru := Drop(r.lru, e), inUse := Drop(r.inUse, e), next := r.next[a := b], prev := r.prev[b := a]))
    ensures e !in Drop(r.lru, e) && e !in Drop(r.inUse, e)
  {
    hide Ring, Drop;
    if e in r.lru {
      TakenOff(r.o, r.o.lru, r.lru, r.o.inUse, r.inUse, e, r.next, r.prev);
    } else {
      TakenOff(r.o, r.o.inUse, r.inUse, r.o.lru, r.lru, e, r.next, r.prev);
    }
    Dropped(r.lru, e);
    Dropped(r.inUse, e);
  }

  /** Putting an entry in makes it the newest of either list. */
  lemma Appended(r: Rings, e: Handle, idle: bool)
    requires Linked(r) && e in r.o.links && e !in r.lru && e !in r.inUse
    ensures var l, h := r.o.links[e], if idle then r.o.lru else r.o.inUse;
      && r.ring == r.next.Keys == r.prev.Keys && h in r.ring && r.prev[h] in r.ring
      && l in r.ring && l != h && l != r.prev[h]
      && Linked(r.(lru := if idle then r.lru + [e] else r.lru, inUse := if idle then r.inUse else r.inUse + [e],
                   next := r.next[l := h][r.prev[h] := l], prev := r.prev[l := r.prev[h]][h := l]))
  {
    hide Ring;
    if idle {
      PutOn(r.o, r.o.lru, r.lru, r.o.inUse, r.inUse, e, r.next, r.prev);
    } else {
      PutOn(r.o, r.o.inUse, r.inUse, r.o.lru, r.lru, e, r.next, r.prev);
    }
  }

  /** The list's own link leads to its oldest entry, and each entry to the one after it. */
  lemma Follow(r: Rings, i: nat)
    requires Linked(r)
    ensures r.o.lru in r.ring && r.o.inUse in r.ring && r.next.Keys == r.ring
    ensures r.next[r.o.inUse] == r.o.inUse <==> r.inUse == []
    ensures r.next[r.o.lru].entry == EntryAt(r.lru, 0)
    ensures i < |r.lru| ==>
      && r.lru[i] in r.o.links && r.o.links[r.lru[i]] in r.ring
      && r.next[r.o.links[r.lru[i]]].entry == EntryAt(r.lru, i + 1)
  {
    var list := LinksOf(r.o.links, r.lru);
    LinksDistinct(r.o, r.o.inUse, r.inUse);
    Last(r.o.lru, list, r.next, r.prev);
    Last(r.o.inUse, LinksOf(r.o.links, r.inUse), r.next, r.prev);
    if i < |r.lru| {
      assert list[i] == r.o.links[r.lru[i]] && Neighbours(r.o.lru, list, i + 1, r.next, r.prev);
    }
  }

  /** An entry by its age on a list, none beyond the newest. */
  function EntryAt(s: seq<Handle>, i: nat): Option<Handle> {
    if i < |s| then Some(s[i]) else None
  }

  /** Links of a new entry, on no list yet. */
  lemma NewLink(r: Rings, e: Handle, l: Link)
    requires Linked(r) && e !in r.o.links && l.entry == Some(e)
    ensures Linked(r.(o := r.o.(links := r.o.links[e := l]), ring := r.ring + {l}, next := r.next[l := l],
                      prev := r.prev[l := l]))
  {
    hide Ring;
    var links := r.o.links[e := l];
    assert LinksOf(links, r.lru) == LinksOf(r.o.links, r.lru) && LinksOf(links, r.inUse) == LinksOf(r.o.links, r.inUse);
    RingKept(r.o.lru, LinksOf(links, r.lru), r.next, r.prev, l, l, l, l);
    RingKept(r.o.inUse, LinksOf(links, r.inUse), r.next, r.prev, l, l, l, l);
  }

  /** The links of a cache's entries and its two lists. */
  class Lists {
    const lruList: Link
    const inUseList: Link
    var links: map<Handle, Link>
    ghost var ring: set<Link>
    ghost var lru: seq<Handle>
    ghost var inUse: seq<Handle>

    ghost function Now(): Rings
      reads this, ring
    {
      Rings(Owners(lruList, inUseList, links), ring, lru, inUse, Nexts(ring), Prevs(ring))
    }

    ghost predicate Valid()
      reads this, ring
    {
      Linked(Now())
    }

    constructor ()
      ensures Valid() && fresh(ring) && links == map[] && lru == inUse == []
    {
      lruList := new Link(None);
      inUseList := new Link(None);
      links, lru, inUse := map[], [], [];
      new;
      ring := {lruList, inUseList};
      NoneLinked(Now());
    }

    /** Makes links for a new entry. */
    method Add(e: Handle)
      requires Valid() && e !in links
      modifies this`links, this`ring
      ensures Valid() && links.Keys == old(links.Keys) + {e} && fresh(ring - old(ring))
    {
      hide Linked, Nexts, Prevs;
      var link := new Link(Some(e));
      NewLink(Now(), e, link);
      OneMore(ring, link);
      links, ring := links[e := link], ring + {link};
    }

    /** Takes an entry off the list it is on. */
    method Remove(e: Handle)
      requires Valid() && (e in lru || e in inUse)
      modifies this`lru, this`inUse, ring
      ensures Valid() && lru == Drop(old(lru), e) && inUse == Drop(old(inUse), e)
      ensures e in links && e !in lru && e !in inUse
    {
      hide Linked, Nexts, Prevs, Drop;
      Unlinked(Now(), e);
      Unlink(links[e], ring);
      lru, inUse := Drop(lru, e), Drop(inUse, e);
    }

    /** Makes an entry the newest on a list. */
    method Append(idle: bool, e: Handle)
      requires Valid() && e in links && e !in lru && e !in inUse
      modifies this`lru, this`inUse, ring
      ensures Valid() && lru == (if idle then old(lru) + [e] else old(lru))
      ensures inUse == if idle then old(inUse) else old(inUse) + [e]
    {
      hide Linked, Nexts, Prevs;
      Appended(Now(), e, idle);
      LinkBefore(if idle then lruList else inUseList, links[e], ring);
      lru, inUse := if idle then lru + [e] else lru, if idle then inUse else inUse + [e];
    }

    /** The entry that has been idle the longest. */
    method Oldest() returns (e: Option<Handle>)
      requires Valid()
      ensures e == EntryAt(lru, 0)
    {
      hide Linked, Nexts, Prevs;
      Follow(Now(), 0);
      LinkAt(ring, lruList);
      e := lruList.next.entry;
    }

    method AnyInUse() returns (any: bool)
      requires Valid()
      ensures any <==> inUse != []
    {
      hide Linked, Nexts, Prevs;
      Follow(Now(), 0);
      LinkAt(ring, inUseList);
      any := inUseList.next != inUseList;
    }

    /** The idle entry next in age. */
    method After(e: Handle, ghost i: nat) returns (r: Option<Handle>)
      requires Valid() && i < |lru| && lru[i] == e
      ensures r == EntryAt(lru, i + 1)
    {
      hide Linked, Nexts, Prevs;
      Follow(Now(), i);
      LinkAt(ring, links[e]);
      r := links[e].next.entry;
    }
  }
}
