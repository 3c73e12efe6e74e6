/** Block trees with skip pointers, and the active chain. */
module Chains {
  import opened Limbs
  import opened SkipHeights

  // ----- blocks -----

  /** A block of the tree. Its pointers are set once, when it is added to the index. */
  class BlockIndex {
    const pprev: BlockIndex?
    const height: nat
    const pskip: BlockIndex?

    /** Heights count from the root. */
    ghost predicate Rooted()
      decreases height
    {
      if pprev == null then height == 0 else height == pprev.height + 1 && pprev.Rooted()
    }

    /** The ancestor at a height, by going from parent to parent. */
    ghost function At(h: nat): BlockIndex
      requires Rooted() && h <= height
      decreases height
    {
      if h == height then this else pprev.At(h)
    }

    /** From here to the root, the skip pointers lead to the ancestors at the right heights; the root has none. */
    ghost predicate Valid()
      decreases height
    {
      && Rooted()
      && if pprev == null then pskip == null else pskip == pprev.At(GetSkipHeight(height)) && pprev.Valid()
    }

    /** Add a block: set its height, and build its skip pointer through those of its ancestors. */
    constructor (pprev: BlockIndex?)
      requires pprev != null ==> pprev.Valid()
      ensures Valid() && this.pprev == pprev
    {
      var skip: BlockIndex? := null;
      var h := if pprev == null then 0 else pprev.height + 1;
      if pprev != null {
        ghost var steps;
        skip, steps := pprev.GetAncestor(GetSkipHeight(h));
      }
      this.pprev := pprev;
      height := h;
      pskip := skip;
    }

    lemma AtFacts(h: nat)
      requires Rooted() && h <= height
      ensures At(h).Rooted() && At(h).height == h && (Valid() ==> At(h).Valid())
      decreases height
    {
      if h < height {
        pprev.AtFacts(h);
      }
    }

    /** Ancestors of ancestors. */
    lemma AtAt(h: nat, k: nat)
      requires Rooted() && k <= h <= height
      ensures At(h).Rooted() && At(h).height == h && At(h).At(k) == At(k)
      decreases height
    {
      if h < height {
        pprev.AtAt(h, k);
      }
    }

    lemma AtTop()
      requires Rooted()
      ensures At(height) == this
    {
    }

    /** Where the pointers of an ancestor lead. */
    lemma Steps(at: nat)
      requires Valid() && 0 < at <= height
      ensures At(at).pprev == At(at - 1) && GetSkipHeight(at) < at && At(at).pskip == At(GetSkipHeight(at))
    {
      AtFacts(at);
      AtAt(at, at - 1);
      AtAt(at, GetSkipHeight(at));
    }

    /** The ancestor at a height, by skip pointers where they help, in a number of steps that grows with the
        square of the number of bits of the height. */
    method GetAncestor(h: int) returns (r: BlockIndex?, ghost steps: nat)
      requires Valid()
      ensures r == if 0 <= h <= height then At(h) else null
      ensures steps <= Length(height) * Length(height) + 1
    {
      steps := 0;
      if h > height || h < 0 {
        return null, 0;
      }
      hide At, GetSkipHeight, Valid, Length, StepsFrom;
      AtTop();
      FewSteps(height, h);
      var walk: BlockIndex := this;
      var at := height;
      while at > h
        invariant h <= at <= height && walk == At(at) && steps + StepsFrom(at, h) == StepsFrom(height, h)
        decreases at
      {
        Steps(at);
        OneStep(at, h);
        steps := steps + 1;
        var skip := GetSkipHeight(at);
        var skipPrev := GetSkipHeight(at - 1);
        if walk.pskip != null && (skip == h || (skip > h && !(skipPrev < skip - 2 && skipPrev >= h))) {
          walk := walk.pskip;
          at := skip;
        } else {
          walk := walk.pprev;
          at := at - 1;
        }
      }
      return walk, steps;
    }
  }

  /** From some height up, two blocks have no common ancestor. */
  ghost predicate DifferAbove(a: BlockIndex, b: BlockIndex, h: nat)
    requires a.Rooted() && b.Rooted()
  {
    forall k :: h < k <= a.height && k <= b.height ==> a.At(k) != b.At(k)
  }

  lemma DifferUp(a: BlockIndex, b: BlockIndex, h: nat)
    requires a.Rooted() && b.Rooted() && h <= a.height && h <= b.height && a.At(h) != b.At(h)
    ensures forall k :: h <= k <= a.height && k <= b.height ==> a.At(k) != b.At(k)
  {
    forall k | h <= k <= a.height && k <= b.height ensures a.At(k) != b.At(k) {
      a.AtAt(k, h);
      b.AtAt(k, h);
    }
  }

  /** The highest common ancestor of two blocks of one tree. */
  method LastCommonAncestor(a: BlockIndex, b: BlockIndex) returns (r: BlockIndex)
    requires a.Valid() && b.Valid() && a.At(0) == b.At(0)
    ensures r.height <= a.height && r.height <= b.height && r == a.At(r.height) == b.At(r.height)
    ensures DifferAbove(a, b, r.height)
  {
    var pa: BlockIndex, pb: BlockIndex := a, b;
    a.AtTop();
    b.AtTop();
    hide BlockIndex.At, BlockIndex.Valid, GetSkipHeight;
    ghost var at: nat := if a.height < b.height then a.height else b.height;
    ghost var steps;
    if pa.height > pb.height {
      pa, steps := pa.GetAncestor(pb.height);
    } else if pb.height > pa.height {
      pb, steps := pb.GetAncestor(pa.height);
    }
    while pa != pb
      invariant at <= a.height && at <= b.height && pa == a.At(at) && pb == b.At(at) && DifferAbove(a, b, at)
      decreases at
    {
      DifferUp(a, b, at);
      a.Steps(at);
      b.Steps(at);
      while pa.pskip != pb.pskip
        invariant 0 < at <= a.height && at <= b.height && pa == a.At(at) && pb == b.At(at) && pa != pb && DifferAbove(a, b, at)
        invariant pa.pskip == a.At(GetSkipHeight(at)) && pb.pskip == b.At(GetSkipHeight(at)) && GetSkipHeight(at) < at
        invariant pa.pprev == a.At(at - 1) && pb.pprev == b.At(at - 1)
        decreases at
      {
        at := GetSkipHeight(at);
        DifferUp(a, b, at);
        pa, pb := pa.pskip, pb.pskip;
        a.Steps(at);
        b.Steps(at);
      }
      DifferUp(a, b, at);
      pa, pb := pa.pprev, pb.pprev;
      at := at - 1;
    }
    a.AtFacts(at);
    r := pa;
  }

  /** How far back the entries of a locator are: one by one at first, and then in steps that double. */
  ghost function Offset(i: nat): nat {
    if i <= 10 then i else 9 + Pow2(i - 10)
  }

  function Back(height: nat, offset: nat): nat {
    if height > offset then height - offset else 0
  }

  ghost function StepAt(n: nat): nat {
    if n <= 10 then 1 else Pow2(n - 10)
  }

  lemma BackLess(height: nat, step: nat)
    requires height > 0 && step > 0
    ensures Back(height, step) < height
  {
  }

  lemma NextOffset(height: nat, n: nat)
    ensures Offset(n + 1) == Offset(n) + StepAt(n) && StepAt(n) >= 1
    ensures Back(height, Offset(n + 1)) == Back(Back(height, Offset(n)), StepAt(n))
    ensures StepAt(n + 1) == if n >= 10 then StepAt(n) * 2 else StepAt(n)
  {
  }

  /** There are not many entries, as the last but one is not the root. */
  lemma FewEntries(height: nat, n: nat)
    requires n > 12 && Back(height, Offset(n - 2)) > 0
    ensures 9 + Pow2(n - 12) < height
  {
  }

  /** Blocks to name to a peer: from a block back to the root, in steps that double after the first ones. */
  method LocatorEntries(index: BlockIndex?) returns (have: seq<BlockIndex>)
    requires index != null ==> index.Valid()
    ensures index == null <==> have == []
    ensures index != null ==> have[0] == index && have[|have| - 1] == index.At(0)
    ensures forall i :: 0 <= i < |have| ==> have[i].height <= index.height && have[i] == index.At(have[i].height)
    ensures forall i :: 0 <= i < |have| - 1 ==> have[i + 1].height < have[i].height
    ensures forall i :: 0 <= i < |have| ==> have[i].height == Back(index.height, Offset(i))
    ensures |have| > 12 ==> 9 + Pow2(|have| - 12) < index.height
  {
    hide BlockIndex.Valid, Pow2, Offset, Back, StepAt, Entry;
    have := [];
    if index == null {
      return;
    }
    FirstEntry(index);
    var step: nat := 1;
    var at: BlockIndex := index;
    while true
      invariant step == StepAt(|have|) && Entry(index, at, |have|)
      invariant forall i :: 0 <= i < |have| ==> Entry(index, have[i], i) && have[i].height > 0
      invariant if have == [] then at == index else have[0] == index
      decreases at.height
    {
      have := have + [at];
      if at.height == 0 {
        break;
      }
      var height := Back(at.height, step);
      NextEntry(index, at, |have| - 1, step);
      ghost var steps;
      at, steps := at.GetAncestor(height);
      if |have| > 10 {
        step := step * 2;
      }
    }
    AllEntries(index, have);
  }

  /** Entry `i` of the locator of a block. */
  ghost predicate Entry(index: BlockIndex, b: BlockIndex, i: nat)
    requires index.Rooted()
  {
    b.height == Back(index.height, Offset(i)) <= index.height && b == index.At(b.height)
  }

  lemma FirstEntry(index: BlockIndex)
    requires index.Valid()
    ensures index.Rooted() && Entry(index, index, 0) && StepAt(0) == 1
  {
    index.AtTop();
  }

  lemma NextEntry(index: BlockIndex, b: BlockIndex, i: nat, step: nat)
    requires index.Valid() && index.Rooted() && Entry(index, b, i) && b.height > 0 && step == StepAt(i)
    ensures b.Valid() && Back(b.height, step) < b.height
    ensures Entry(index, b.At(Back(b.height, step)), i + 1) && b.At(Back(b.height, step)).height == Back(b.height, step)
    ensures StepAt(i + 1) == if i >= 10 then step * 2 else step
  {
    hide BlockIndex.At, BlockIndex.Valid, Offset, Back, StepAt;
    NextOffset(index.height, i);
    BackLess(b.height, step);
    index.AtFacts(b.height);
    index.AtAt(b.height, Back(b.height, step));
    index.AtFacts(Back(b.height, step));
  }

  lemma AllEntries(index: BlockIndex, have: seq<BlockIndex>)
    requires index.Rooted() && have != [] && have[|have| - 1].height == 0
    requires forall i :: 0 <= i < |have| ==> Entry(index, have[i], i)
    requires forall i :: 0 <= i < |have| - 1 ==> have[i].height > 0
    ensures have[|have| - 1] == index.At(0)
    ensures forall i :: 0 <= i < |have| ==> have[i].height <= index.height && have[i] == index.At(have[i].height)
    ensures forall i :: 0 <= i < |have| - 1 ==> have[i + 1].height < have[i].height
    ensures forall i :: 0 <= i < |have| ==> have[i].height == Back(index.height, Offset(i))
    ensures |have| > 12 ==> 9 + Pow2(|have| - 12) < index.height
  {
    hide BlockIndex.At, Pow2, Offset, Back, StepAt;
    forall i | 0 <= i < |have| - 1 ensures have[i + 1].height < have[i].height {
      assert Entry(index, have[i], i) && Entry(index, have[i + 1], i + 1);
      NextOffset(index.height, i);
      BackLess(have[i].height, StepAt(i));
    }
    if |have| > 12 {
      assert Entry(index, have[|have| - 2], |have| - 2);
      FewEntries(index.height, |have|);
    }
  }

  // ----- the active chain -----

  /** Each block is the parent of the next. */
  ghost predicate IsChain(s: seq<BlockIndex?>) {
    forall i :: 0 <= i < |s| ==> LinkOk(s, i)
  }

  ghost predicate LinkOk(s: seq<BlockIndex?>, i: nat)
    requires i < |s|
  {
    s[i] != null && s[i].Rooted() && s[i].height == i && (i > 0 ==> s[i].pprev == s[i - 1])
  }

  /** What is below a block of the chain are its ancestors. */
  lemma BelowIn(s: seq<BlockIndex?>, i: nat, k: nat)
    requires IsChain(s) && k <= i < |s|
    ensures s[i] != null && s[i].Rooted() && s[i].height == i && s[k] == s[i].At(k)
    decreases i
  {
    assert LinkOk(s, i);
    if k < i {
      BelowIn(s, i - 1, k);
    }
  }

  /** An array of blocks by height. */
  class Chain {
    var blocks: seq<BlockIndex?>

    ghost predicate Valid()
      reads this
    {
      IsChain(blocks)
    }

    constructor ()
      ensures Valid() && blocks == []
    {
      blocks := [];
    }

    function BlockAt(h: int): BlockIndex?
      reads this
    {
      if 0 <= h < |blocks| then blocks[h] else null
    }

    predicate Contains(b: BlockIndex)
      reads this
    {
      BlockAt(b.height) == b
    }

    /** Make the chain end in a block. What is shared with the chain before is not gone through again. */
    method SetTip(block: BlockIndex)
      requires Valid() && block.Rooted()
      modifies this
      ensures Valid() && |blocks| == block.height + 1 && forall i :: 0 <= i <= block.height ==> blocks[i] == block.At(i)
    {
      hide BlockIndex.At;
      ghost var was := blocks;
      var n := block.height + 1;
      blocks := if n <= |blocks| then blocks[..n] else blocks + seq(n - |blocks|, i => null);
      block.AtTop();
      var at: BlockIndex? := block;
      ghost var h: int := block.height;
      while at != null && blocks[at.height] != at
        invariant -1 <= h <= block.height && |blocks| == n
        invariant if h == -1 then at == null else at != null && at == block.At(h) && at.height == h
        invariant forall i :: h < i < n ==> blocks[i] == block.At(i)
        invariant forall i :: 0 <= i <= h ==> blocks[i] == if i < |was| then was[i] else null
        decreases h
      {
        blocks := blocks[at.height := at];
        Parent(block, h);
        at := at.pprev;
        h := h - 1;
      }
      if at != null {
        forall i | 0 <= i <= h ensures blocks[i] == block.At(i) {
          BelowIn(was, h, i);
          block.AtAt(h, i);
        }
      }
      forall i | 0 <= i < n ensures LinkOk(blocks, i) {
        block.AtFacts(i);
        if i > 0 {
          Parent(block, i);
        }
      }
    }

    /** The highest ancestor of a block that is in the chain, if any. */
    method FindFork(index: BlockIndex?) returns (r: BlockIndex?)
      requires Valid() && (index != null ==> index.Valid())
      ensures index == null ==> r == null
      ensures r != null ==> index != null && r.height <= index.height && r == index.At(r.height) && Contains(r)
      ensures index != null ==> forall k :: (if r == null then 0 else r.height + 1) <= k <= index.height ==> !Contains(index.At(k))
    {
      if index == null {
        return null;
      }
      index.AtTop();
      hide BlockIndex.At, BlockIndex.Valid;
      r := index;
      ghost var h: int := index.height;
      if index.height > |blocks| - 1 {
        ghost var steps;
        r, steps := index.GetAncestor(|blocks| - 1);
        h := |blocks| - 1;
        if h >= 0 {
          index.AtFacts(h);
        }
        forall k | h < k <= index.height ensures !Contains(index.At(k)) {
          index.AtFacts(k);
        }
      }
      while r != null && !Contains(r)
        invariant -1 <= h <= index.height && if h == -1 then r == null else r == index.At(h) && r.height == h
        invariant forall k :: h < k <= index.height ==> !Contains(index.At(k))
        decreases h
      {
        Parent(index, h);
        r := r.pprev;
        h := h - 1;
      }
    }
  }

  lemma Parent(block: BlockIndex, h: nat)
    requires block.Rooted() && h <= block.height
    ensures if h == 0 then block.At(h).pprev == null
            else block.At(h).pprev == block.At(h - 1) && block.At(h - 1).height == h - 1
  {
    block.AtFacts(h);
    if h > 0 {
      block.AtFacts(h - 1);
      block.AtAt(h, h - 1);
    }
  }
}
