/** The block tree with its skip pointers, and the active chain. */
module Chain {
  import opened Bits

  // ---------------------------------------------------------------------
  // Skip heights

  /** The largest power of two that divides a positive number. */
  function LowestOne(n: nat): nat
    requires n > 0
  {
    if n % 2 == 1 then 1 else 2 * LowestOne(n / 2)
  }

  /** Clears the lowest one-bit. */
  function InvertLowestOne(n: nat): (r: nat)
    ensures n > 0 ==> r < n
  {
    if n == 0 then 0 else And(n, n - 1)
  }

  lemma {:induction false} AndSelf(n: nat)
    ensures And(n, n) == n
    decreases n
  {
    if n > 0 {
      AndSelf(n / 2);
    }
  }

  lemma {:induction false} InvertsLowestOne(n: nat)
    requires n > 0
    ensures InvertLowestOne(n) == n - LowestOne(n)
    decreases n
  {
    if n % 2 == 1 {
      assert (n - 1) / 2 == n / 2;
      AndSelf(n / 2);
    } else {
      InvertsLowestOne(n / 2);
      assert (n - 1) / 2 == n / 2 - 1;
    }
  }

  /** The height a skip pointer jumps back to. */
  function GetSkipHeight(height: int): (r: nat)
    ensures height >= 1 ==> r < height
    ensures height < 2 ==> r == 0
  {
    if height < 2 then 0
    else if height % 2 == 1 then InvertLowestOne(InvertLowestOne(height - 1)) + 1
    else InvertLowestOne(height)
  }

  /** A skip goes back by the lowest power of two in the height, or for an odd height by the two lowest in the one
      before it. */
  lemma SkipsBack(height: nat)
    requires height >= 2
    ensures height % 2 == 0 ==> GetSkipHeight(height) == height - LowestOne(height)
    ensures height % 2 == 1 ==>
      var h: int := height - 1 - LowestOne(height - 1);
      GetSkipHeight(height) == if h <= 0 then 1 else h - LowestOne(h) + 1
  {
    InvertsLowestOne(if height % 2 == 0 then height else height - 1);
    if height % 2 == 1 {
      var h := InvertLowestOne(height - 1);
      if h > 0 {
        InvertsLowestOne(h);
      }
    }
  }

  // ---------------------------------------------------------------------
  // The block tree

  class BlockIndex {
    const pprev: BlockIndex?
    const nHeight: int
    var pskip: BlockIndex?
    /** This block and all before it. */
    ghost const lineage: set<BlockIndex>

    /** A block on top of another one, or a first block; its skip pointer is not built yet. */
    constructor (prev: BlockIndex?)
      requires prev != null ==> prev.Linked()
      ensures pprev == prev && pskip == null && Linked()
    {
      pprev := prev;
      nHeight := if prev == null then 0 else prev.nHeight + 1;
      pskip := null;
      lineage := {this} + if prev == null then {} else prev.lineage;
    }

    /** Heights count the predecessors down to a first block. */
    ghost predicate Linked()
      decreases nHeight
    {
      && nHeight >= 0
      && (pprev == null <==> nHeight == 0)
      && (pprev == null ==> lineage == {this})
      && (pprev != null ==> pprev.nHeight == nHeight - 1 && pprev.Linked())
      && (pprev != null ==> this !in pprev.lineage && lineage == {this} + pprev.lineage)
    }

    /** The block at a height, found by walking back one block at a time. */
    ghost function Ancestor(height: int): BlockIndex
      requires Linked() && 0 <= height <= nHeight
      decreases nHeight
    {
      if height == nHeight then this else pprev.Ancestor(height)
    }

    /** A skip pointer is either not built or leads to the block at the skip height. */
    ghost predicate SkipOk()
      requires Linked()
      reads this
    {
      pskip != null ==> pskip == Ancestor(GetSkipHeight(nHeight))
    }

    ghost predicate SkipsOk()
      requires Linked()
      reads lineage
      decreases nHeight
    {
      SkipOk() && (pprev != null ==> pprev.SkipsOk())
    }

    /** Jumps by skip pointers where they help; answers what the one-step walk would. */
    method GetAncestor(height: int) returns (r: BlockIndex?)
      requires Linked() && SkipsOk()
      ensures height < 0 || height > nHeight ==> r == null
      ensures 0 <= height <= nHeight ==> r == Ancestor(height)
    {
      if height > nHeight || height < 0 {
        return null;
      }
      var walk := this;
      var heightWalk := nHeight;
      while heightWalk > height
        invariant height <= heightWalk <= nHeight && walk == Ancestor(heightWalk)
        invariant SkipsOk()
      {
        AncestorFacts(this, heightWalk);
        var heightSkip := GetSkipHeight(heightWalk);
        var heightSkipPrev := GetSkipHeight(heightWalk - 1);
        if walk.pskip != null
           && (heightSkip == height
               || (heightSkip > height && !(heightSkipPrev < heightSkip - 2 && heightSkipPrev >= height))) {
          SkipsOkBelow(this, heightWalk);
          AncestorOfAncestor(this, heightWalk, heightSkip);
          walk := walk.pskip;
          heightWalk := heightSkip;
        } else {
          assert walk.pprev != null;
          AncestorOfAncestor(this, heightWalk, heightWalk - 1);
          walk := walk.pprev;
          heightWalk := heightWalk - 1;
        }
      }
      return walk;
    }

    method BuildSkip()
      requires Linked() && (pprev != null ==> pprev.SkipsOk())
      modifies this
      ensures pprev != null ==> pskip == Ancestor(GetSkipHeight(nHeight))
      ensures pprev == null ==> pskip == old(pskip)
      ensures old(SkipOk()) ==> SkipsOk()
    {
      if pprev != null {
        var skip := pprev.GetAncestor(GetSkipHeight(nHeight));
        pskip := skip;
      }
    }
  }

  lemma {:induction false} AncestorFacts(b: BlockIndex, h: int)
    requires b.Linked() && 0 <= h <= b.nHeight
    ensures b.Ancestor(h).nHeight == h && b.Ancestor(h).Linked() && b.Ancestor(h) in b.lineage
    decreases b.nHeight
  {
    if h < b.nHeight {
      AncestorFacts(b.pprev, h);
    }
  }

  lemma {:induction false} AncestorOfAncestor(b: BlockIndex, h: int, k: int)
    requires b.Linked() && 0 <= k <= h <= b.nHeight
    ensures b.Ancestor(h).Linked() && b.Ancestor(h).nHeight == h
    ensures b.Ancestor(h).Ancestor(k) == b.Ancestor(k)
    decreases b.nHeight
  {
    AncestorFacts(b, h);
    if h < b.nHeight {
      AncestorOfAncestor(b.pprev, h, k);
    }
  }

  lemma {:induction false} SkipsOkBelow(b: BlockIndex, h: int)
    requires b.Linked() && b.SkipsOk() && 0 <= h <= b.nHeight
    ensures b.Ancestor(h).Linked() && b.Ancestor(h).SkipsOk()
    decreases b.nHeight
  {
    if h < b.nHeight {
      SkipsOkBelow(b.pprev, h);
    }
  }

  // ---------------------------------------------------------------------
  // The active chain

  /** The highest block on both branches, or null if they share none. */
  ghost predicate IsLastCommon(a: BlockIndex, b: BlockIndex, r: BlockIndex?)
    requires a.Linked() && b.Linked()
  {
    && (r != null ==> 0 <= r.nHeight <= a.nHeight && r.nHeight <= b.nHeight
                      && r == a.Ancestor(r.nHeight) == b.Ancestor(r.nHeight))
    && forall h :: (if r == null then 0 else r.nHeight + 1) <= h <= a.nHeight && h <= b.nHeight
                   ==> a.Ancestor(h) != b.Ancestor(h)
  }

  lemma LastCommonUnique(a: BlockIndex, b: BlockIndex, r: BlockIndex?, q: BlockIndex?)
    requires a.Linked() && b.Linked() && IsLastCommon(a, b, r) && IsLastCommon(a, b, q)
    ensures r == q
  {
  }

  /** Branches that meet share everything below. */
  lemma {:induction false} SharedBelow(a: BlockIndex, b: BlockIndex, h: int, k: int)
    requires a.Linked() && b.Linked() && 0 <= k <= h <= a.nHeight && h <= b.nHeight && a.Ancestor(h) == b.Ancestor(h)
    ensures a.Ancestor(k) == b.Ancestor(k)
  {
    AncestorOfAncestor(a, h, k);
    AncestorOfAncestor(b, h, k);
  }

  /** Brings both blocks to one height, then walks both back until they meet. */
  method LastCommonAncestor(a: BlockIndex, b: BlockIndex) returns (r: BlockIndex?)
    requires a.Linked() && b.Linked() && a.SkipsOk() && b.SkipsOk()
    ensures IsLastCommon(a, b, r)
  {
    var pa: BlockIndex?, pb: BlockIndex? := a, b;
    if a.nHeight > b.nHeight {
      pa := a.GetAncestor(b.nHeight);
    } else if b.nHeight > a.nHeight {
      pb := b.GetAncestor(a.nHeight);
    }
    ghost var h := if a.nHeight > b.nHeight then b.nHeight else a.nHeight;
    while pa != pb && pa != null && pb != null
      invariant -1 <= h <= a.nHeight && h <= b.nHeight
      invariant if h < 0 then pa == null && pb == null else pa == a.Ancestor(h) && pb == b.Ancestor(h)
      invariant forall k :: h < k <= a.nHeight && k <= b.nHeight ==> a.Ancestor(k) != b.Ancestor(k)
      decreases h
    {
      AncestorFacts(a, h);
      AncestorFacts(b, h);
      if h > 0 {
        AncestorOfAncestor(a, h, h - 1);
        AncestorOfAncestor(b, h, h - 1);
      }
      pa := pa.pprev;
      pb := pb.pprev;
      h := h - 1;
    }
    if h >= 0 {
      AncestorFacts(a, h);
    }
    r := pa;
  }

  function Max(a: int, b: int): int { if a >= b then a else b }

  /** How far back the k-th step of a locator goes: one block for the first eleven, then twice as far
      every time. */
  function LocatorStep(k: nat): nat {
    if k <= 10 then 1 else 2 * LocatorStep(k - 1)
  }

  predicate SteppedBack(from: BlockIndex, to: BlockIndex, k: nat) {
    to.nHeight == Max(from.nHeight - LocatorStep(k), 0) < from.nHeight
  }

  ghost predicate IsBranch(chain: seq<BlockIndex?>) {
    chain != [] ==>
      var tip := chain[|chain| - 1];
      && tip != null && tip.Linked() && tip.nHeight == |chain| - 1
      && forall i :: 0 <= i < |chain| ==> chain[i] == tip.Ancestor(i)
  }

  /** Once a slot is right, all slots below it are. */
  lemma KeptBelow(chain: seq<BlockIndex?>, tip: BlockIndex, h: int)
    requires IsBranch(chain) && tip.Linked() && 0 <= h <= tip.nHeight && h < |chain| && chain[h] == tip.Ancestor(h)
    ensures forall i :: 0 <= i <= h ==> chain[i] == tip.Ancestor(i)
  {
    var was := chain[|chain| - 1];
    forall i | 0 <= i <= h
      ensures chain[i] == tip.Ancestor(i)
    {
      SharedBelow(tip, was, h, i);
    }
  }

  class ActiveChain {
    var vChain: seq<BlockIndex?>

    /** Slot i holds the tip's ancestor at height i. */
    ghost predicate Valid()
      reads this
    {
      IsBranch(vChain)
    }

    constructor ()
      ensures Valid() && vChain == []
    {
      vChain := [];
    }

    function At(height: int): BlockIndex?
      reads this
    {
      if height < 0 || height >= |vChain| then null else vChain[height]
    }

    function Tip(): BlockIndex?
      reads this
    {
      if vChain == [] then null else vChain[|vChain| - 1]
    }

    predicate Contains(b: BlockIndex)
      reads this
    {
      At(b.nHeight) == b
    }

    /** Rewrites slots from the new tip down and stops at the first slot that is already right. */
    method SetTip(tip: BlockIndex?)
      requires Valid() && (tip != null ==> tip.Linked())
      modifies this
      ensures Valid()
      ensures Tip() == tip && (tip != null ==> |vChain| == tip.nHeight + 1)
    {
      if tip == null {
        vChain := [];
        return;
      }
      ghost var was := vChain;
      var size := tip.nHeight + 1;
      vChain := if size <= |vChain| then vChain[..size] else vChain + seq(size - |vChain|, _ => null);
      ghost var resized := vChain;
      var pindex: BlockIndex? := tip;
      ghost var h := tip.nHeight;
      while pindex != null && vChain[pindex.nHeight] != pindex
        invariant -1 <= h <= tip.nHeight && |vChain| == size
        invariant if h < 0 then pindex == null else pindex != null && pindex == tip.Ancestor(h) && pindex.nHeight == h
        invariant forall i :: h < i < size ==> vChain[i] == tip.Ancestor(i)
        invariant forall i :: 0 <= i <= h ==> vChain[i] == resized[i]
        decreases h
      {
        vChain := vChain[pindex.nHeight := pindex];
        if h > 0 {
          AncestorOfAncestor(tip, h, h - 1);
        }
        AncestorFacts(tip, h);
        pindex := pindex.pprev;
        h := h - 1;
      }
      if pindex != null {
        assert was[h] == pindex;
        KeptBelow(was, tip, h);
      }
      AncestorFacts(tip, tip.nHeight);
    }

    /** The highest block of the active chain that is the given block or before it. */
    method FindFork(b: BlockIndex) returns (r: BlockIndex?)
      requires Valid() && b.Linked() && b.SkipsOk()
      ensures Tip() == null ==> r == null
      ensures Tip() != null ==> IsLastCommon(Tip(), b, r)
      ensures r != null ==> Contains(r)
    {
      var pindex: BlockIndex? := b;
      if b.nHeight > |vChain| - 1 {
        pindex := b.GetAncestor(|vChain| - 1);
      }
      ghost var h := if b.nHeight > |vChain| - 1 then |vChain| - 1 else b.nHeight;
      while pindex != null && !Contains(pindex)
        invariant -1 <= h <= b.nHeight && h < |vChain|
        invariant if h < 0 then pindex == null else pindex == b.Ancestor(h)
        invariant vChain != [] ==>
                    forall k :: h < k <= b.nHeight && k < |vChain| ==> vChain[|vChain| - 1].Ancestor(k) != b.Ancestor(k)
        decreases h
      {
        AncestorFacts(b, h);
        if h > 0 {
          AncestorOfAncestor(b, h, h - 1);
        }
        pindex := pindex.pprev;
        h := h - 1;
      }
      if h >= 0 {
        AncestorFacts(b, h);
      }
      r := pindex;
    }

    /** The ancestor of a block at a lower height, straight from the chain if the block is on it. */
    method GoBack(ghost start: BlockIndex, pindex: BlockIndex, height: int) returns (r: BlockIndex)
      requires Valid() && start.Linked() && start.SkipsOk()
      requires 0 <= height < pindex.nHeight <= start.nHeight && pindex == start.Ancestor(pindex.nHeight)
      ensures r.nHeight == height && r == start.Ancestor(height)
    {
      AncestorOfAncestor(start, pindex.nHeight, height);
      AncestorFacts(start, height);
      SkipsOkBelow(start, pindex.nHeight);
      if Contains(pindex) {
        SharedBelow(start, vChain[|vChain| - 1], pindex.nHeight, height);
        r := vChain[height];
      } else {
        r := pindex.GetAncestor(height);
      }
    }

    /** The blocks a locator names: from a block back to the first one, in steps that grow. */
    method GetLocator(start0: BlockIndex?) returns (have: seq<BlockIndex>)
      requires Valid() && (start0 != null ==> start0.Linked() && start0.SkipsOk())
      requires start0 == null && Tip() != null ==> Tip().SkipsOk()
      ensures var start := if start0 == null then Tip() else start0;
              if start == null then have == []
              else
                && start.Linked() && have != [] && have[0] == start && have[|have| - 1].nHeight == 0
                && (forall i :: 0 <= i < |have| ==>
                      0 <= have[i].nHeight <= start.nHeight && have[i] == start.Ancestor(have[i].nHeight))
                && forall i, j :: 0 <= i < j < |have| && j == i + 1 ==> SteppedBack(have[i], have[j], i)
    {
      have := [];
      var start: BlockIndex? := if start0 == null then Tip() else start0;
      if start == null {
        return;
      }
      var pindex: BlockIndex := start;
      var step: int := 1;
      while true
        invariant 0 <= pindex.nHeight <= start.nHeight && pindex == start.Ancestor(pindex.nHeight)
        invariant step == LocatorStep(|have|) >= 1
        invariant have == [] ==> pindex == start
        invariant have != [] ==> have[0] == start && SteppedBack(have[|have| - 1], pindex, |have| - 1)
        invariant forall i :: 0 <= i < |have| ==>
          0 <= have[i].nHeight <= start.nHeight && have[i] == start.Ancestor(have[i].nHeight)
        invariant forall i, j :: 0 <= i < j < |have| && j == i + 1 ==> SteppedBack(have[i], have[j], i)
        invariant start.SkipsOk()
        decreases pindex.nHeight
      {
        have := have + [pindex];
        if pindex.nHeight == 0 {
          break;
        }
        var height := Max(pindex.nHeight - step, 0);
        pindex := GoBack(start, pindex, height);
        if |have| > 10 {
          step := step * 2;
        }
      }
    }
  }

  /** The fork point with the active chain is the last common ancestor with its tip. */
  method ForkIsLastCommon(chain: ActiveChain, b: BlockIndex) returns (fork: BlockIndex?, common: BlockIndex?)
    requires chain.Valid() && chain.Tip() != null && chain.Tip().SkipsOk() && b.Linked() && b.SkipsOk()
    ensures fork == common
    ensures chain.Tip().Ancestor(0) == b.Ancestor(0) ==> fork != null
  {
    fork := chain.FindFork(b);
    common := LastCommonAncestor(chain.Tip(), b);
    LastCommonUnique(chain.Tip(), b, fork, common);
  }
}
