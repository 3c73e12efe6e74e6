/** Finding or improving a linearization for a cluster. */
module Linearizing {
  import opened Collections
  import opened FeeFracs
  import opened Graphs
  import opened ClosedSets
  import opened Chunkings
  import opened Improvement
  import opened LinearizationChunkings
  import opened Merging
  import opened Searching
  import opened SearchFinders
  import opened AncestorFinders
  import Limbs

  /** `ret` followed by what it leaves of any linearization is as good as that linearization. */
  ghost predicate OptimalSoFar(g: Graph, ret: seq<nat>) {
    forall other :: IsLinearization(g, g.used, other) ==>
      StillAsGood(g, ret, Filter(other, g.used - Elements(ret)), other)
  }

  lemma NothingTaken(g: Graph)
    ensures OptimalSoFar(g, [])
  {
    hide StillAsGood, Filter, Distinct, Topological;
    forall other: seq<nat> | IsLinearization(g, g.used, other) ensures StillAsGood(g, [], Filter(other, g.used - Elements<nat>([])), other) {
      StartAsGood(g, other);
      assert g.used - Elements<nat>([]) == Elements(other);
    }
  }

  lemma RemainderOf(g: Graph, other: seq<nat>, todo: set<nat>)
    requires g.Cluster() && IsLinearization(g, g.used, other) && todo <= g.used
    ensures IsLinearization(g, todo, Filter(other, todo)) && AllSized(g, Filter(other, todo))
  {
    hide Filter, Topological, Distinct, AllSized;
    FilterLinearization(g, g.used, other, todo);
    assert g.used * todo == todo;
    LinearizationSized(g, Filter(other, todo));
  }

  /** Taking a closed set of the highest feerate keeps up with every linearization. */
  lemma StayOptimal(g: Graph, ret: seq<nat>, t: set<nat>)
    requires g.Cluster() && OptimalSoFar(g, ret) && BestClosed(g, g.used - Elements(ret), t)
    requires Elements(ret + TopoSort(g, t)) == Elements(ret) + t
    ensures OptimalSoFar(g, ret + TopoSort(g, t))
  {
    hide StillAsGood, Filter, TopoSort, BestClosed, FrontIsBetter, Distinct, Topological, AllSized, Graph.Cluster;
    var todo := g.used - Elements(ret);
    assert g.used - Elements(ret + TopoSort(g, t)) == todo - t;
    forall other | IsLinearization(g, g.used, other)
      ensures StillAsGood(g, ret + TopoSort(g, t), Filter(other, todo - t), other)
    {
      RemainderOf(g, other, todo);
      forall slope: FeeFrac | slope.size > 0 ensures FrontIsBetter(g, Filter(other, todo), t, slope) {
        BestClosedInFront(g, todo, Filter(other, todo), t, slope);
      }
      BestWithin(g, todo, t);
      StayAsGood(g, ret, other, todo, t);
    }
  }

  lemma BestWithin(g: Graph, todo: set<nat>, t: set<nat>)
    requires BestClosed(g, todo, t)
    ensures t <= todo && t != {} && Closed(g, todo, t)
  {
  }

  lemma FinishOptimal(g: Graph, ret: seq<nat>)
    requires g.Cluster() && PartialOrder(g, ret) && Elements(ret) == g.used && OptimalSoFar(g, ret)
    ensures Optimal(g, ret)
  {
    hide StillAsGood, Filter, AsGood, PartialOrder, Graph.Cluster, Distinct, Topological;
    assert g.used - Elements(ret) == {};
    forall other | IsLinearization(g, g.used, other) ensures AsGood(g, ret, other) {
      FinishAsGood(g, ret, other);
    }
  }

  // ----- the two ways a chosen set improves the old linearization -----

  lemma BestImproves(g: Graph, todo: set<nat>, r: seq<nat>, t: set<nat>)
    requires g.Cluster() && todo <= g.used && IsLinearization(g, todo, r) && BestClosed(g, todo, t)
    ensures ImprovesFront(g, r, t)
  {
    hide BestClosed, FrontIsBetter, Distinct, Topological, AllSized, Graph.Cluster;
    LinearizationSized(g, r);
    forall slope: FeeFrac | slope.size > 0 ensures FrontIsBetter(g, r, t, slope) {
      BestClosedInFront(g, todo, r, t, slope);
    }
  }

  lemma IntersectionImproves(g: Graph, todo: set<nat>, r: seq<nat>, s: set<nat>, k: nat)
    requires g.Cluster() && todo <= g.used && IsLinearization(g, todo, r) && ChunksOf(g, r) != []
    requires s != {} && Closed(g, todo, s)
    requires Gain(SeqFee(g, ChunksOf(g, r)[0]), FeeRate(g, s)) <= 0
    requires ShortestIntersection(g, ChunksOf(g, r), s, k)
    ensures var t := Intersection(ChunksOf(g, r), s, k); t != {} && Closed(g, todo, t) && ImprovesFront(g, r, t)
  {
    hide Gain, SeqFee, FeeRate, Flatten, FrontIsBetter, ChunksOf, NonIncreasing, Distinct, Topological, AllSized, Graph.Cluster;
    var cs := ChunksOf(g, r);
    LinearizationSized(g, r);
    ChunksOfIsChunking(g, r);
    CoveredClosed(g, todo, r, cs, k);
    forall slope: FeeFrac | slope.size > 0 ensures FrontIsBetter(g, r, Intersection(cs, s, k), slope) {
      IntersectionInFront(g, r, cs, s, k, slope);
    }
  }

  // ----- how good a chosen set is in any case -----

  /** No ancestor set, within what remains, has a higher feerate than `t`. */
  ghost predicate AncestorsBelow(g: Graph, todo: set<nat>, t: set<nat>) {
    forall i :: i in todo ==> Gain(FeeRate(g, g.Anc(i) * todo), FeeRate(g, t)) <= 0
  }

  lemma BetterThanAncestors(g: Graph, todo: set<nat>, s: set<nat>, t: set<nat>)
    requires g.Cluster() && todo <= g.used && s <= todo && t <= todo && s != {} && t != {}
    requires AncestorsBelow(g, todo, s) && Gain(FeeRate(g, s), FeeRate(g, t)) <= 0
    ensures AncestorsBelow(g, todo, t)
  {
    hide Gain, FeeRate;
    FeeRateSize(g, s);
    FeeRateSize(g, t);
    forall i | i in todo ensures Gain(FeeRate(g, g.Anc(i) * todo), FeeRate(g, t)) <= 0 {
      FeeRateSize(g, g.Anc(i) * todo);
      GainTransDown(FeeRate(g, g.Anc(i) * todo), FeeRate(g, s), FeeRate(g, t));
    }
  }

  lemma BestAncestors(g: Graph, todo: set<nat>, r: SetInfo)
    requires BestOk(g, todo, r) && forall i :: i in todo ==> !Greater(FeeRate(g, g.Anc(i) * todo), r.feerate)
    ensures AncestorsBelow(g, todo, r.transactions)
  {
    hide Gain, FeeRate, Greater, Closed;
    forall i | i in todo ensures Gain(FeeRate(g, g.Anc(i) * todo), FeeRate(g, r.transactions)) <= 0 {
      GreaterNotBelow(FeeRate(g, g.Anc(i) * todo), r.feerate);
    }
  }

  lemma BetterInfo(g: Graph, todo: set<nat>, s: SetInfo, t: SetInfo)
    requires g.Cluster() && todo <= g.used && BestOk(g, todo, s) && BestOk(g, todo, t)
    requires AncestorsBelow(g, todo, s.transactions) && Gain(s.feerate, t.feerate) <= 0
    ensures AncestorsBelow(g, todo, t.transactions)
  {
    hide Gain, FeeRate, AncestorsBelow;
    BetterThanAncestors(g, todo, s.transactions, t.transactions);
  }

  lemma FoundInfo(g: Graph, todo: set<nat>, s: SetInfo, t: SetInfo)
    requires g.Cluster() && todo <= g.used && BestOk(g, todo, s) && BestOk(g, todo, t)
    requires AncestorsBelow(g, todo, s.transactions) && AtLeastAsGood(t, s)
    ensures AncestorsBelow(g, todo, t.transactions)
  {
    hide Gain, FeeRate, AncestorsBelow, Greater, BestOk;
    if t != s {
      GreaterNotBelow(t.feerate, s.feerate);
      BetterInfo(g, todo, s, t);
    }
  }

  /** The parts in which an order was put together: each is closed in what the ones before it leave, and no ancestor
      set in there has a higher feerate. */
  ghost predicate PutTogether(g: Graph, lin: seq<nat>, parts: seq<seq<nat>>) {
    && Flatten(parts) == lin
    && forall k :: 0 <= k < |parts| ==> PartOk(g, g.used - Elements(Flatten(parts[..k])), parts[k])
  }

  ghost predicate PartOk(g: Graph, todo: set<nat>, part: seq<nat>) {
    part != [] && Distinct(part) && Closed(g, todo, Elements(part)) && AncestorsBelow(g, todo, Elements(part))
  }

  lemma OneMorePart(g: Graph, lin: seq<nat>, parts: seq<seq<nat>>, t: set<nat>)
    requires g.Cluster() && PutTogether(g, lin, parts)
    requires t != {} && Closed(g, g.used - Elements(lin), t) && AncestorsBelow(g, g.used - Elements(lin), t)
    ensures PutTogether(g, lin + TopoSort(g, t), parts + [TopoSort(g, t)])
  {
    hide AncestorsBelow, Topological, Graph.Cluster, TopoSort, Flatten;
    ClosedWithin(g, g.used - Elements(lin), t);
    var part := TopoSort(g, t);
    TopoSortLinearizes(g, t);
    var next := parts + [part];
    var x :| x in t;
    assert x in Elements(part);
    assert next[..|parts|] == parts;
    FlattenLast(next);
    forall k | 0 <= k < |next| ensures PartOk(g, g.used - Elements(Flatten(next[..k])), next[k]) {
      assert next[..k] == if k < |parts| then parts[..k] else parts;
    }
  }

  lemma NoParts(g: Graph, maxIterations: nat)
    ensures PutTogether(g, [], []) && BestAfforded(g, [], maxIterations)
  {
  }

  /** No ancestor set has a higher feerate than the first chunk. */
  ghost predicate FirstChunkAbove(g: Graph, lin: seq<nat>) {
    ChunksOf(g, lin) != [] && forall i :: i in g.used ==> Gain(FeeRate(g, g.Anc(i)), SeqFee(g, ChunksOf(g, lin)[0])) <= 0
  }

  /** The first chunk is at least as good as what is put in front. */
  lemma FirstOf(g: Graph, lin: seq<nat>, parts: seq<seq<nat>>) returns (first: FeeFrac)
    requires g.Cluster() && g.used != {} && IsLinearization(g, g.used, lin) && PutTogether(g, lin, parts)
    ensures parts != [] && PartOk(g, g.used, parts[0])
    ensures ChunksOf(g, lin) != [] && first == SeqFee(g, ChunksOf(g, lin)[0])
    ensures first.size > 0 && Gain(SeqFee(g, parts[0]), first) <= 0
  {
    hide Gain, FeeRate, SeqFee, ChunksOf, Topological, Graph.Acyclic, AncestorsBelow;
    var x :| x in g.used;
    assert x in Elements(lin);
    var part, cs := parts[0], ChunksOf(g, lin);
    assert Flatten(parts[..0]) == [] && g.used - Elements<nat>([]) == g.used;
    assert PartOk(g, g.used, part);
    assert lin[..|part|] == part;
    LinearizationSized(g, lin);
    ChunksOfIsChunking(g, lin);
    FirstChunkBest(g, lin, cs, |part|);
    FirstSized(g, lin, cs);
    first := SeqFee(g, cs[0]);
  }

  lemma FirstPart(g: Graph, lin: seq<nat>, parts: seq<seq<nat>>)
    requires g.Cluster() && g.used != {} && IsLinearization(g, g.used, lin) && PutTogether(g, lin, parts)
    ensures parts != [] && FirstChunkAbove(g, lin)
  {
    hide Gain, FeeRate, SeqFee, ChunksOf, Topological, Graph.Acyclic, PutTogether, PartOk;
    var first := FirstOf(g, lin, parts);
    FirstPartBelow(g, parts[0], first);
  }

  lemma FirstSized(g: Graph, lin: seq<nat>, cs: seq<seq<nat>>)
    requires AllSized(g, lin) && IsChunking(g, lin, cs) && cs != []
    ensures SeqFee(g, cs[0]).size > 0
  {
    hide SeqFee, Gain;
    assert IsChunk(g, cs[0]) && cs[0] <= lin;
    assert AllSized(g, cs[0]);
    SizedPositive(g, cs[0]);
  }

  lemma FirstPartBelow(g: Graph, part: seq<nat>, first: FeeFrac)
    requires g.Cluster() && PartOk(g, g.used, part) && Gain(SeqFee(g, part), first) <= 0
    ensures first.size > 0 ==> forall i :: i in g.used ==> Gain(FeeRate(g, g.Anc(i)), first) <= 0
  {
    hide Gain, FeeRate, SeqFee, Graph.Acyclic;
    var t := Elements(part);
    SeqFeeIsFeeRate(g, part);
    assert part[0] in t;
    FeeRateSize(g, t);
    forall i | i in g.used && first.size > 0 ensures Gain(FeeRate(g, g.Anc(i)), first) <= 0 {
      assert g.Anc(i) * g.used == g.Anc(i);
      FeeRateSize(g, g.Anc(i));
      GainTransDown(FeeRate(g, g.Anc(i)), FeeRate(g, t), first);
    }
  }

  // ----- how many iterations are enough -----

  /** Iterations that are enough to complete the searches of the first `k` rounds, for `n` transactions that have `sets`
      closed sets: the cost of the start, in each round that of the search and of starting it, and as much again as the
      last search takes, since it gets half of what remains. */
  function Budget(n: nat, k: nat, sets: nat): nat {
    (n * n + 63) / 64 + k * ((n + 3) / 4 + sets) + sets
  }

  lemma BudgetGrows(n: nat, k: nat, k': nat, a: nat, b: nat)
    requires a <= b && k <= k'
    ensures Budget(n, k, a) <= Budget(n, k', b)
  {
    var x, y := (n + 3) / 4 + a, (n + 3) / 4 + b;
    assert k * x <= k' * x <= k' * y;
  }

  /** What `k` rounds leave of the iterations. */
  ghost predicate LeftAfter(n: nat, k: nat, sets: nat, maxIterations: nat, left: nat) {
    left + Budget(n, k, sets) >= maxIterations + sets
  }

  lemma NextRound(n: nat, k: nat, sets: nat, maxIterations: nat, left: nat, left': nat, base: nat, some: nat)
    requires LeftAfter(n, k, sets, maxIterations, left) && base <= (n + 3) / 4 && some <= sets && left' + base + some >= left
    ensures LeftAfter(n, k + 1, sets, maxIterations, left')
    ensures maxIterations >= Budget(n, k + 1, sets) ==> left >= base + 2 * some
  {
    var step := (n + 3) / 4 + sets;
    assert (k + 1) * step == k * step + step;
  }

  /** A part is a closed set of the highest feerate in what the parts before it leave. */
  ghost predicate BestPart(g: Graph, parts: seq<seq<nat>>, k: nat)
    requires k < |parts|
  {
    BestClosed(g, g.used - Elements(Flatten(parts[..k])), Elements(parts[k]))
  }

  /** Parts are the best ones as far as there are iterations to complete the searches for them. */
  ghost predicate BestAfforded(g: Graph, parts: seq<seq<nat>>, maxIterations: nat) {
    forall k :: 0 <= k < |parts| && maxIterations >= Budget(|g.used|, k + 1, |AllClosed(g, g.used)|) ==> BestPart(g, parts, k)
  }

  lemma OneMoreBest(g: Graph, lin: seq<nat>, parts: seq<seq<nat>>, t: set<nat>, maxIterations: nat)
    requires g.Cluster() && Flatten(parts) == lin && BestAfforded(g, parts, maxIterations) && t <= g.used
    requires maxIterations >= Budget(|g.used|, |parts| + 1, |AllClosed(g, g.used)|) ==> BestClosed(g, g.used - Elements(lin), t)
    ensures BestAfforded(g, parts + [TopoSort(g, t)], maxIterations)
  {
    hide BestClosed, Topological, Graph.Cluster, TopoSort, Flatten, Budget, Between;
    TopoSortLinearizes(g, t);
    var next := parts + [TopoSort(g, t)];
    forall k | 0 <= k < |next| && maxIterations >= Budget(|g.used|, k + 1, |AllClosed(g, g.used)|) ensures BestPart(g, next, k) {
      assert next[..k] == if k < |parts| then parts[..k] else parts;
      assert k < |parts| ==> BestPart(g, parts, k);
    }
  }

  /** No closed set has a higher feerate than the first chunk. */
  ghost predicate FirstChunkBestClosed(g: Graph, lin: seq<nat>) {
    ChunksOf(g, lin) != [] && forall u :: Closed(g, g.used, u) && u != {} ==> Gain(FeeRate(g, u), SeqFee(g, ChunksOf(g, lin)[0])) <= 0
  }

  lemma BestPartFirst(g: Graph, lin: seq<nat>, parts: seq<seq<nat>>)
    requires g.Cluster() && g.used != {} && IsLinearization(g, g.used, lin) && PutTogether(g, lin, parts) && parts != []
    requires BestPart(g, parts, 0)
    ensures FirstChunkBestClosed(g, lin)
  {
    hide Gain, FeeRate, SeqFee, ChunksOf, Topological, Graph.Acyclic, Closed, AncestorsBelow;
    var first := FirstOf(g, lin, parts);
    var part := parts[0];
    var t := Elements(part);
    assert Flatten(parts[..0]) == [] && g.used - Elements<nat>([]) == g.used;
    SeqFeeIsFeeRate(g, part);
    ClosedWithin(g, g.used, t);
    FeeRateSize(g, t);
    forall u | Closed(g, g.used, u) && u != {} ensures Gain(FeeRate(g, u), first) <= 0 {
      ClosedWithin(g, g.used, u);
      FeeRateSize(g, u);
      GainTransDown(FeeRate(g, u), FeeRate(g, t), first);
    }
  }

  /** What is kept about the old linearization, which may be absent. */
  ghost predicate OldOk(g: Graph, c: LinearizationChunking, oldLin: seq<nat>, ret: seq<nat>)
    reads c
  {
    && c.g == g
    && if oldLin == [] then c.Valid() && c.todo == {} else IsLinearization(g, g.used, oldLin) && Follows(g, c, oldLin, ret)
  }

  lemma OldParts(g: Graph, c: LinearizationChunking, oldLin: seq<nat>, ret: seq<nat>)
    requires OldOk(g, c, oldLin, ret) && g.used - Elements(ret) != {}
    ensures c.Valid() && c.g == g && (c.NumChunksLeft() == 0 <==> oldLin == [])
    ensures oldLin != [] ==> c.todo == g.used - Elements(ret) && IsLinearization(g, g.used - Elements(ret), c.Remaining())
  {
    hide ChunksOf, Filter, Distinct, Topological, StillAsGood;
    c.ChunksLeft();
    if oldLin != [] {
      WhatFollows(g, c, oldLin, ret);
    }
  }

  /** The best of the remaining ancestor sets and the first chunk of the old linearization. */
  method InitialBest(g: Graph, anc: AncestorCandidateFinder, c: LinearizationChunking, ghost oldLin: seq<nat>, ghost ret: seq<nat>)
    returns (best: SetInfo)
    requires anc.Valid() && anc.g == g && anc.todo == g.used - Elements(ret) != {}
    requires g.Cluster() && OldOk(g, c, oldLin, ret)
    ensures BestOk(g, anc.todo, best) && AncestorsBelow(g, anc.todo, best.transactions)
    ensures oldLin != [] ==> c.Valid() && c.NumChunksLeft() > 0 && Gain(c.GetChunk(0).feerate, best.feerate) <= 0
  {
    hide AncestorsBelow, BestOk, Gain, FeeRate, Filter, ChunksOf, Distinct, Topological, OldOk, Graph.Cluster, Greater, SeqFee, Closed;
    OldParts(g, c, oldLin, ret);
    best := anc.FindCandidateSet();
    BestAncestors(g, anc.todo, best);
    if c.NumChunksLeft() > 0 {
      var prefix := c.GetChunk(0);
      FirstChunkOk(g, c, anc.todo);
      BestSized(g, anc.todo, prefix);
      GainFlip(prefix.feerate, prefix.feerate);
      GreaterNotBelow(best.feerate, prefix.feerate);
      if !prefix.feerate.IsEmpty() && !Greater(best.feerate, prefix.feerate) {
        BetterInfo(g, anc.todo, best, prefix);
        best := prefix;
      }
    }
  }

  lemma BestSized(g: Graph, todo: set<nat>, info: SetInfo)
    requires g.Cluster() && todo <= g.used && BestOk(g, todo, info)
    ensures info.feerate.size > 0
  {
    hide FeeRate;
    FeeRateSize(g, info.transactions);
  }

  lemma FirstChunkOk(g: Graph, c: LinearizationChunking, todo: set<nat>)
    requires g.Cluster() && c.Valid() && c.g == g && c.todo == todo != {} && IsLinearization(g, todo, c.Remaining())
    ensures c.NumChunksLeft() > 0 && BestOk(g, todo, c.GetChunk(0))
    ensures ChunksOf(g, c.Remaining()) != [] && c.GetChunk(0) == Info(g, ChunksOf(g, c.Remaining())[0])
  {
    hide FeeRate, Filter, ChunksOf, Distinct, Topological, SeqFee;
    FirstInfo(c);
    c.RemainingSized();
    var cs := ChunksOf(g, c.Remaining());
    ChunksOfIsChunking(g, c.Remaining());
    FirstClosed(g, todo, c.Remaining(), cs);
    assert IsChunk(g, cs[0]);
    assert cs[0][0] in Elements(cs[0]);
  }

  /** Cut a set that may not be the best by the chunks of the old linearization. */
  method Intersect(g: Graph, c: LinearizationChunking, ghost todo: set<nat>, best: SetInfo) returns (t: SetInfo)
    requires g.Cluster() && todo <= g.used && todo != {} && c.Valid() && c.g == g && c.todo == todo
    requires IsLinearization(g, todo, c.Remaining()) && BestOk(g, todo, best)
    requires c.NumChunksLeft() > 0 && Gain(c.GetChunk(0).feerate, best.feerate) <= 0
    ensures BestOk(g, todo, t) && ImprovesFront(g, c.Remaining(), t.transactions) && Gain(best.feerate, t.feerate) <= 0
  {
    hide Gain, FeeRate, Filter, ChunksOf, Distinct, Topological, SeqFee, Graph.Cluster, ImprovesFront, Closed, ShortestIntersection, Intersection;
    FirstChunkOk(g, c, todo);
    InfoWithin(g, todo, best);
    ghost var k;
    t, k := c.IntersectPrefixes(best);
    IntersectionImproves(g, todo, c.Remaining(), best.transactions, k);
    ShortestIsHigh(g, ChunksOf(g, c.Remaining()), best.transactions, k);
  }

  lemma ShortestIsHigh(g: Graph, cs: seq<seq<nat>>, s: set<nat>, k: nat)
    requires ShortestIntersection(g, cs, s, k)
    ensures Gain(FeeRate(g, s), FeeRate(g, Intersection(cs, s, k))) <= 0
  {
    hide Gain, FeeRate;
    GainFlip(FeeRate(g, s), FeeRate(g, Intersection(cs, s, k)));
  }

  /** Ask the search finder for something better, with up to half of the remaining iterations. */
  method TrySearch(g: Graph, src: SearchCandidateFinder?, todo: set<nat>, best: SetInfo, left: nat)
    returns (r: SetInfo, left': nat, complete: bool)
    requires g.Cluster() && todo <= g.used && todo != {} && BestOk(g, todo, best)
    requires src != null ==> src.Valid() && src.source == g && src.Left() == todo
    ensures BestOk(g, todo, r) && AtLeastAsGood(r, best) && left' <= left && (src == null ==> left' == left)
    ensures complete ==> BestClosed(g, todo, r.transactions)
    ensures var base, sets := (|todo| + 3) / 4, |AllClosed(g, todo)|;
      left' + base + sets >= left && (src != null && left >= base + 2 * sets ==> complete)
  {
    hide Between, BestOk, BestClosed, Graph.Cluster, Greater, SortedCopy;
    InfoClosed(g, todo, best);
    FewClosed(g, todo);
    var doneNow, maxNow := 0, 0;
    r, left' := best, left;
    if src != null {
      var base := (|todo| + 3) / 4;
      if left' > base {
        left' := left' - base;
        maxNow := (left' + 1) / 2;
        NothingLeft(src.order);
        r, doneNow := src.FindCandidateSet(maxNow, best);
        left' := left' - doneNow;
      }
    }
    complete := doneNow != maxNow;
  }

  lemma NothingLeft(order: seq<nat>)
    ensures Restore(order, {}) == {}
  {
  }

  /** What the finders and the old linearization hold is what `ret` has not yet taken. */
  ghost predicate Working(g: Graph, anc: AncestorCandidateFinder, src: SearchCandidateFinder?, c: LinearizationChunking,
                          oldLin: seq<nat>, ret: seq<nat>)
    reads anc, src, c
  {
    && anc.Valid() && anc.g == g && anc.todo == g.used - Elements(ret)
    && (src != null ==> src.Valid() && src.source == g && src.Left() == anc.todo)
    && OldOk(g, c, oldLin, ret)
  }

  /** Choose the next set to put in the order. */
  method NextBest(g: Graph, anc: AncestorCandidateFinder, src: SearchCandidateFinder?, c: LinearizationChunking,
                  left: nat, ghost oldLin: seq<nat>, ghost ret: seq<nat>)
    returns (t: set<nat>, left': nat, complete: bool)
    requires g.Cluster() && Working(g, anc, src, c, oldLin, ret) && g.used - Elements(ret) != {}
    ensures t != {} && t <= g.used - Elements(ret) && Closed(g, g.used - Elements(ret), t) && left' <= left
    ensures oldLin != [] ==> ImprovesFront(g, c.Remaining(), t)
    ensures complete ==> BestClosed(g, g.used - Elements(ret), t)
    ensures AncestorsBelow(g, g.used - Elements(ret), t) && (src == null ==> left' == left)
    ensures var todo := g.used - Elements(ret); var base, sets := (|todo| + 3) / 4, |AllClosed(g, todo)|;
      left' + base + sets >= left && (src != null && left >= base + 2 * sets ==> complete)
  {
    hide AncestorsBelow, AtLeastAsGood, Between, Gain, FeeRate, Filter, ChunksOf, OldOk, Graph.Cluster, Greater, BestOk, BestClosed, ImprovesFront, IsLinearization, SortedCopy;
    OldParts(g, c, oldLin, ret);
    var first := InitialBest(g, anc, c, oldLin, ret);
    var best;
    best, left', complete := TrySearch(g, src, anc.todo, first, left);
    InfoClosed(g, anc.todo, best);
    FoundInfo(g, anc.todo, first, best);
    if !complete {
      if c.NumChunksLeft() > 0 {
        FirstBelow(g, anc.todo, c.GetChunk(0).feerate, first, best, c);
        var cut := Intersect(g, c, anc.todo, best);
        BetterInfo(g, anc.todo, best, cut);
        InfoClosed(g, anc.todo, cut);
        best := cut;
      }
    } else if oldLin != [] {
      BestImproves(g, anc.todo, c.Remaining(), best.transactions);
    }
    t := best.transactions;
    ClosedWithin(g, anc.todo, t);
  }

  lemma InfoClosed(g: Graph, todo: set<nat>, info: SetInfo)
    requires BestOk(g, todo, info)
    ensures info.transactions != {} && Closed(g, todo, info.transactions)
  {
  }

  lemma FirstBelow(g: Graph, todo: set<nat>, prefix: FeeFrac, first: SetInfo, best: SetInfo, c: LinearizationChunking)
    requires g.Cluster() && todo <= g.used && todo != {} && BestOk(g, todo, first) && BestOk(g, todo, best) && AtLeastAsGood(best, first)
    requires c.Valid() && c.g == g && c.todo == todo && IsLinearization(g, todo, c.Remaining())
    requires c.NumChunksLeft() > 0 && prefix == c.GetChunk(0).feerate && Gain(prefix, first.feerate) <= 0
    ensures Gain(prefix, best.feerate) <= 0
  {
    hide Gain, FeeRate, BestOk, Greater, IsLinearization, Graph.Cluster;
    FirstChunkOk(g, c, todo);
    BestSized(g, todo, c.GetChunk(0));
    BestSized(g, todo, first);
    BestSized(g, todo, best);
    if best != first {
      GreaterNotBelow(best.feerate, first.feerate);
      GainTransDown(prefix, first.feerate, best.feerate);
    }
  }

  /** Remove a set from what the old linearization, if there is one, still holds. */
  method AdvanceOld(g: Graph, c: LinearizationChunking, ghost oldLin: seq<nat>, ghost ret: seq<nat>, t: set<nat>)
    requires g.Cluster() && OldOk(g, c, oldLin, ret) && t != {} && t <= g.used - Elements(ret)
    requires oldLin != [] ==> ImprovesFront(g, c.Remaining(), t)
    modifies c
    ensures OldOk(g, c, oldLin, ret + TopoSort(g, t))
  {
    hide Gain, Filter, ChunksOf, Graph.Cluster, ImprovesFront, IsLinearization, TopoSort, StillAsGood, Infos, AllSized, Distinct;
    OldParts(g, c, oldLin, ret);
    if c.NumChunksLeft() > 0 {
      Advance(g, c, oldLin, ret, t);
    }
  }

  method StartOld(g: Graph, oldLin: seq<nat>) returns (c: LinearizationChunking)
    requires g.Cluster() && (oldLin == [] || IsLinearization(g, g.used, oldLin))
    ensures fresh(c) && OldOk(g, c, oldLin, [])
  {
    hide Filter, ChunksOf, StillAsGood, Infos;
    if oldLin == [] {
      c := new LinearizationChunking(g, oldLin);
    } else {
      c := Start(g, oldLin);
    }
  }

  /** What the completed order guarantees. */
  ghost predicate Linearized(g: Graph, oldLin: seq<nat>, lin: seq<nat>, optimal: bool) {
    && IsLinearization(g, g.used, lin)
    && (oldLin != [] ==> AsGood(g, lin, oldLin))
    && (optimal ==> Optimal(g, lin))
  }

  lemma Completed(g: Graph, c: LinearizationChunking, oldLin: seq<nat>, ret: seq<nat>, t: set<nat>, optimal: bool)
    requires g.Cluster() && PartialOrder(g, ret + TopoSort(g, t)) && Elements(ret + TopoSort(g, t)) == g.used
    requires t == g.used - Elements(ret) && OldOk(g, c, oldLin, ret)
    requires oldLin != [] ==> ImprovesFront(g, c.Remaining(), t)
    requires optimal ==> OptimalSoFar(g, ret + TopoSort(g, t))
    ensures Linearized(g, oldLin, ret + TopoSort(g, t), optimal)
  {
    hide TopoSort, ImprovesFront, AsGood, OptimalSoFar, Graph.Cluster, Optimal, Closed, Distinct, Topological, Follows;
    if oldLin != [] {
      FinishFollowing(g, c, oldLin, ret, t);
    }
    if optimal {
      FinishOptimal(g, ret + TopoSort(g, t));
    }
  }

  lemma NothingToOrder(g: Graph, oldLin: seq<nat>)
    requires g.Cluster() && g.used == {} && (oldLin == [] || IsLinearization(g, g.used, oldLin))
    ensures Linearized(g, oldLin, [], true)
  {
    hide AsGood, Graph.Cluster, Distinct, Topological;
    forall other | IsLinearization(g, g.used, other) ensures AsGood(g, [], other) {
      NothingToMerge(g, other);
    }
    EmptyOrder(g);
  }

  lemma TakeFrom(used: set<nat>, done: set<nat>, todo: set<nat>, t: set<nat>, done': set<nat>)
    requires todo == used - done && t <= todo && t != {} && done' == done + t <= used
    ensures todo - t == used - done' && |todo - t| < |todo|
    ensures todo - t == {} ==> t == used - done && done' == used
  {
    SubsetCount(todo - t, todo);
  }

  /** Mark a chosen set as done everywhere, or report that nothing remains. */
  method Take(g: Graph, anc: AncestorCandidateFinder, src: SearchCandidateFinder?, c: LinearizationChunking,
              ghost oldLin: seq<nat>, ghost ret: seq<nat>, t: set<nat>) returns (allDone: bool)
    requires g.Cluster() && Working(g, anc, src, c, oldLin, ret)
    requires t != {} && t <= g.used - Elements(ret) && Elements(ret + TopoSort(g, t)) == Elements(ret) + t <= g.used
    requires oldLin != [] ==> ImprovesFront(g, c.Remaining(), t)
    modifies anc, src, c
    ensures allDone <==> t == g.used - Elements(ret)
    ensures !allDone ==> Working(g, anc, src, c, oldLin, ret + TopoSort(g, t))
  {
    hide TopoSort, ImprovesFront, Graph.Cluster, OldOk, Elements, AncestorCandidateFinder.Valid, SearchCandidateFinder.Valid, Restore;
    TakeFrom(g.used, Elements(ret), anc.todo, t, Elements(ret + TopoSort(g, t)));
    anc.MarkDone(t);
    if anc.todo == {} {
      return true;
    }
    if src != null {
      src.MarkDone(t);
    }
    AdvanceOld(g, c, oldLin, ret, t);
    return false;
  }

  /** Set up the finders, the search one only if the iterations allow for it. */
  method StartWork(g: Graph, maxIterations: nat, oldLin: seq<nat>)
    returns (anc: AncestorCandidateFinder, src: SearchCandidateFinder?, c: LinearizationChunking, left: nat)
    requires g.Cluster() && (oldLin == [] || IsLinearization(g, g.used, oldLin))
    ensures fresh(anc) && fresh(c) && (src != null ==> fresh(src))
    ensures Working(g, anc, src, c, oldLin, []) && left <= maxIterations
    ensures var startCost := (|g.used| * |g.used| + 63) / 64;
      if maxIterations > startCost then src != null && left == maxIterations - startCost else src == null && left == maxIterations
  {
    hide Graph.Cluster, IsLinearization, OldOk, AncestorCandidateFinder.Valid, SearchCandidateFinder.Valid, Restore;
    left := maxIterations;
    anc := new AncestorCandidateFinder(g);
    src := null;
    var startCost := (|g.used| * |g.used| + 63) / 64;
    if left > startCost {
      left := left - startCost;
      src := new SearchCandidateFinder(g);
    }
    c := StartOld(g, oldLin);
    assert g.used - Elements<nat>([]) == g.used;
  }

  /** Adding a chosen set to the order, step by step. */
  lemma TakeStep(g: Graph, c: LinearizationChunking, oldLin: seq<nat>, lin: seq<nat>, t: set<nat>, optimal: bool)
    requires g.Cluster() && PartialOrder(g, lin) && OldOk(g, c, oldLin, lin)
    requires t != {} && t <= g.used - Elements(lin) && Closed(g, g.used - Elements(lin), t)
    requires oldLin != [] ==> ImprovesFront(g, c.Remaining(), t)
    requires optimal ==> OptimalSoFar(g, lin) && BestClosed(g, g.used - Elements(lin), t)
    ensures PartialOrder(g, lin + TopoSort(g, t)) && (optimal ==> OptimalSoFar(g, lin + TopoSort(g, t)))
    ensures Elements(lin + TopoSort(g, t)) == Elements(lin) + t <= g.used
    ensures |g.used - Elements(lin + TopoSort(g, t))| < |g.used - Elements(lin)|
    ensures g.used - Elements(lin + TopoSort(g, t)) == {} <==> t == g.used - Elements(lin)
    ensures t == g.used - Elements(lin) ==> Linearized(g, oldLin, lin + TopoSort(g, t), optimal)
  {
    hide TopoSort, ImprovesFront, OptimalSoFar, Graph.Cluster, PartialOrder, Linearized, OldOk, BestClosed, Closed, Elements;
    ExtendOrder(g, lin, t);
    if optimal {
      StayOptimal(g, lin, t);
    }
    TakeFrom(g.used, Elements(lin), g.used - Elements(lin), t, Elements(lin + TopoSort(g, t)));
    if t == g.used - Elements(lin) {
      Completed(g, c, oldLin, lin, t, optimal);
    }
  }

  lemma WorkingOld(g: Graph, anc: AncestorCandidateFinder, src: SearchCandidateFinder?, c: LinearizationChunking, oldLin: seq<nat>, ret: seq<nat>)
    requires Working(g, anc, src, c, oldLin, ret)
    ensures OldOk(g, c, oldLin, ret)
  {
  }

  /** A round uses up no more than it may, and its search is completed if there are iterations enough for it. */
  lemma RoundDone(g: Graph, lin: seq<nat>, k: nat, maxIterations: nat, left: nat, left': nat)
    requires g.Cluster() && PartialOrder(g, lin) && LeftAfter(|g.used|, k, |AllClosed(g, g.used)|, maxIterations, left)
    requires left' + (|g.used - Elements(lin)| + 3) / 4 + |AllClosed(g, g.used - Elements(lin))| >= left
    ensures LeftAfter(|g.used|, k + 1, |AllClosed(g, g.used)|, maxIterations, left')
    ensures maxIterations >= Budget(|g.used|, k + 1, |AllClosed(g, g.used)|) ==>
      var todo := g.used - Elements(lin); left >= (|todo| + 3) / 4 + 2 * |AllClosed(g, todo)|
  {
    hide Between, Budget, LeftAfter, Closed, IsLinearization, Graph.Cluster, Elements;
    FewerClosed(g, g.used, Elements(lin));
    SubsetCount(g.used - Elements(lin), g.used);
    NextRound(|g.used|, k, |AllClosed(g, g.used)|, maxIterations, left, left',
              (|g.used - Elements(lin)| + 3) / 4, |AllClosed(g, g.used - Elements(lin))|);
  }

  lemma NoCost(g: Graph, maxIterations: nat)
    requires g.used == {}
    ensures CostWithin(g, 0, maxIterations, 0)
  {
  }

  lemma CostIs(g: Graph, rounds: nat, maxIterations: nat, left: nat)
    requires LeftAfter(|g.used|, rounds, |AllClosed(g, g.used)|, maxIterations, left) && g.used != {} && left <= maxIterations
    requires var startCost := (|g.used| * |g.used| + 63) / 64;
      if maxIterations > startCost then left <= maxIterations - startCost else left == maxIterations
    ensures CostWithin(g, rounds, maxIterations, maxIterations - left)
  {
  }

  lemma AtStart(g: Graph, maxIterations: nat, left: nat)
    requires var startCost := (|g.used| * |g.used| + 63) / 64; maxIterations > startCost ==> left == maxIterations - startCost
    requires maxIterations <= (|g.used| * |g.used| + 63) / 64 ==> left == maxIterations
    ensures LeftAfter(|g.used|, 0, |AllClosed(g, g.used)|, maxIterations, left)
  {
  }

  lemma NeedsSearch(g: Graph, k: nat, maxIterations: nat)
    requires maxIterations >= Budget(|g.used|, k, |AllClosed(g, g.used)|)
    ensures maxIterations > (|g.used| * |g.used| + 63) / 64
  {
    FewClosed(g, g.used);
  }

  /** No more rounds than transactions, and no more closed sets than sets. */
  lemma EnoughForAll(g: Graph, rounds: nat)
    requires rounds <= |g.used|
    ensures var n, sets := |g.used|, |AllClosed(g, g.used)|;
      Budget(n, rounds, sets) <= Budget(n, n, sets) <= Budget(n, n, Limbs.Pow2(n))
  {
    hide Budget, Between;
    var n, sets := |g.used|, |AllClosed(g, g.used)|;
    FewClosed(g, g.used);
    BudgetGrows(n, rounds, n, sets, sets);
    BudgetGrows(n, n, n, sets, Limbs.Pow2(n));
  }

  lemma LessBudget(n: nat, k: nat, sets: nat)
    ensures Budget(n, k, sets) <= Budget(n, k + 1, sets)
  {
    BudgetGrows(n, k, k + 1, sets, sets);
  }

  /** What is spent: nothing if there is no search, and otherwise the cost of the start and at most what the rounds may take. */
  ghost predicate CostWithin(g: Graph, rounds: nat, maxIterations: nat, cost: nat) {
    var startCost := (|g.used| * |g.used| + 63) / 64;
    if g.used == {} || maxIterations <= startCost then cost == 0
    else cost >= startCost && cost + |AllClosed(g, g.used)| <= Budget(|g.used|, rounds, |AllClosed(g, g.used)|)
  }

  lemma LinearizedOrder(g: Graph, oldLin: seq<nat>, lin: seq<nat>, optimal: bool)
    requires Linearized(g, oldLin, lin, optimal)
    ensures IsLinearization(g, g.used, lin)
  {
  }

  /** What follows for the first chunk. */
  lemma FirstChunks(g: Graph, lin: seq<nat>, parts: seq<seq<nat>>, maxIterations: nat)
    requires g.Cluster() && g.used != {} && IsLinearization(g, g.used, lin) && PutTogether(g, lin, parts)
    requires BestAfforded(g, parts, maxIterations)
    ensures FirstChunkAbove(g, lin)
    ensures maxIterations >= Budget(|g.used|, 1, |AllClosed(g, g.used)|) ==> FirstChunkBestClosed(g, lin)
  {
    hide Budget, Between, IsLinearization, Graph.Cluster, PutTogether, FirstChunkAbove, FirstChunkBestClosed, BestPart;
    FirstPart(g, lin, parts);
    if maxIterations >= Budget(|g.used|, 1, |AllClosed(g, g.used)|) {
      assert BestPart(g, parts, 0);
      BestPartFirst(g, lin, parts);
    }
  }

  /** Find a linearization, or improve the old one. It is put together from sets that are as good as any ancestor set
      that remains; and as good as any closed set that remains, as far as the iterations allow to complete the searches. */
  method Linearize(g: Graph, maxIterations: nat, oldLin: seq<nat>)
    returns (lin: seq<nat>, optimal: bool, cost: nat, ghost parts: seq<seq<nat>>)
    requires g.Cluster() && (oldLin == [] || IsLinearization(g, g.used, oldLin))
    ensures Linearized(g, oldLin, lin, optimal) && cost <= maxIterations
    ensures PutTogether(g, lin, parts) && BestAfforded(g, parts, maxIterations)
    ensures CostWithin(g, |parts|, maxIterations, cost)
    ensures maxIterations >= Budget(|g.used|, |g.used|, |AllClosed(g, g.used)|) ==> optimal
    ensures maxIterations >= Budget(|g.used|, |g.used|, Limbs.Pow2(|g.used|)) ==> optimal
    ensures g.used != {} ==> FirstChunkAbove(g, lin)
    ensures g.used != {} && maxIterations >= Budget(|g.used|, 1, |AllClosed(g, g.used)|) ==> FirstChunkBestClosed(g, lin)
  {
    hide TopoSort, ImprovesFront, OptimalSoFar, Graph.Cluster, PartialOrder, Linearized, IsLinearization, OldOk, BestClosed, Closed,
      Elements, Working, PutTogether, AncestorsBelow, FirstChunkAbove, FirstChunkBestClosed, Budget, LeftAfter, Between, BestAfforded,
      CostWithin;
    parts := [];
    NoParts(g, maxIterations);
    if g.used == {} {
      NothingToOrder(g, oldLin);
      assert CostWithin(g, 0, maxIterations, 0) by { NoCost(g, maxIterations); }
      return [], true, 0, [];
    }
    lin, optimal := [], true;
    var anc, src, c, left := StartWork(g, maxIterations, oldLin);
    ghost var n, sets := |g.used|, |AllClosed(g, g.used)|;
    AtStart(g, maxIterations, left);
    EmptyOrder(g);
    NothingTaken(g);
    assert g.used - Elements<nat>([]) == g.used;
    ghost var startCost := (n * n + 63) / 64;
    while true
      invariant fresh(anc) && fresh(c) && (src != null ==> fresh(src))
      invariant Working(g, anc, src, c, oldLin, lin) && g.used - Elements(lin) != {}
      invariant PartialOrder(g, lin) && 0 <= left <= maxIterations
      invariant optimal ==> OptimalSoFar(g, lin)
      invariant PutTogether(g, lin, parts) && BestAfforded(g, parts, maxIterations)
      invariant if maxIterations > startCost then src != null && left <= maxIterations - startCost else src == null && left == maxIterations
      invariant LeftAfter(n, |parts|, sets, maxIterations, left)
      invariant maxIterations >= Budget(n, |parts|, sets) ==> optimal
      invariant |parts| + |g.used - Elements(lin)| <= n
      decreases |g.used - Elements(lin)|
    {
      var t, left', complete := NextBest(g, anc, src, c, left, oldLin, lin);
      optimal := optimal && complete;
      WorkingOld(g, anc, src, c, oldLin, lin);
      TakeStep(g, c, oldLin, lin, t, optimal);
      RoundDone(g, lin, |parts|, maxIterations, left, left');
      LessBudget(n, |parts|, sets);
      if maxIterations >= Budget(n, |parts| + 1, sets) {
        NeedsSearch(g, |parts| + 1, maxIterations);
      }
      OneMorePart(g, lin, parts, t);
      assert Flatten(parts) == lin by { Together(g, lin, parts); }
      OneMoreBest(g, lin, parts, t, maxIterations);
      var allDone := Take(g, anc, src, c, oldLin, lin, t);
      lin, left, parts := lin + TopoSort(g, t), left', parts + [TopoSort(g, t)];
      if allDone {
        break;
      }
    }
    cost := maxIterations - left;
    CostIs(g, |parts|, maxIterations, left);
    EnoughForAll(g, |parts|);
    LinearizedOrder(g, oldLin, lin, optimal);
    FirstChunks(g, lin, parts, maxIterations);
  }

  lemma Together(g: Graph, lin: seq<nat>, parts: seq<seq<nat>>)
    requires PutTogether(g, lin, parts)
    ensures Flatten(parts) == lin
  {
  }
}
