/** Merging two linearizations of one cluster into one that is as good as both. */
module Merging {
  import opened Collections
  import opened FeeFracs
  import opened Graphs
  import opened Chunkings
  import opened Improvement
  import opened LinearizationChunkings

  /** The first chunks of what remains of a linearization form a closed set. */
  lemma CoveredClosed(g: Graph, todo: set<nat>, r: seq<nat>, cs: seq<seq<nat>>, k: nat)
    requires IsLinearization(g, todo, r) && Flatten(cs) == r && k <= |cs|
    ensures Closed(g, todo, Covered(cs, k))
  {
    FlattenSplit(cs, k);
    assert r[..|Flatten(cs[..k])|] == Flatten(cs[..k]);
    PrefixClosed(g, todo, r, |Flatten(cs[..k])|);
  }

  lemma FirstClosed(g: Graph, todo: set<nat>, r: seq<nat>, cs: seq<seq<nat>>)
    requires IsLinearization(g, todo, r) && Flatten(cs) == r && cs != []
    ensures Closed(g, todo, Elements(cs[0]))
  {
    CoveredClosed(g, todo, r, cs, 1);
    CoveredNone(cs);
    CoveredStep(cs, 0);
    assert {} + Elements(cs[0]) == Elements(cs[0]);
  }

  /** The better first chunk, cut by the chunks of the other side, improves both sides. */
  lemma MergeStep(g: Graph, todo: set<nat>, own: seq<nat>, other: seq<nat>, k: nat)
    requires g.Cluster() && todo <= g.used && todo != {}
    requires IsLinearization(g, todo, own) && IsLinearization(g, todo, other)
    requires ChunksOf(g, own) != [] && ChunksOf(g, other) != []
    requires Gain(SeqFee(g, ChunksOf(g, other)[0]), SeqFee(g, ChunksOf(g, own)[0])) <= 0
    requires ShortestIntersection(g, ChunksOf(g, other), Elements(ChunksOf(g, own)[0]), k)
    ensures var t := Intersection(ChunksOf(g, other), Elements(ChunksOf(g, own)[0]), k);
      && t != {} && Closed(g, todo, t)
      && forall slope: FeeFrac :: slope.size > 0 ==> FrontIsBetter(g, own, t, slope) && FrontIsBetter(g, other, t, slope)
  {
    hide Gain, SeqFee, FeeRate, Flatten, FrontIsBetter, ChunksOf, NonIncreasing;
    var co, cs := ChunksOf(g, own), ChunksOf(g, other);
    LinearizationSized(g, own);
    LinearizationSized(g, other);
    ChunksOfIsChunking(g, own);
    ChunksOfIsChunking(g, other);
    var s := Elements(co[0]);
    var t := Intersection(cs, s, k);
    FirstClosed(g, todo, own, co);
    CoveredClosed(g, todo, other, cs, k);
    assert IsChunk(g, co[0]);
    assert co[0][0] in s;
    FirstFee(g, own, co);
    forall slope: FeeFrac | slope.size > 0
      ensures FrontIsBetter(g, own, t, slope) && FrontIsBetter(g, other, t, slope)
    {
      PartOfFirstChunk(g, own, co, t, slope);
      IntersectionInFront(g, other, cs, s, k, slope);
    }
  }

  lemma FirstFee(g: Graph, r: seq<nat>, cs: seq<seq<nat>>)
    requires Distinct(r) && Flatten(cs) == r && cs != []
    ensures SeqFee(g, cs[0]) == FeeRate(g, Elements(cs[0]))
  {
    hide SeqFee, FeeRate;
    SplitDistinct(cs[0], Flatten(cs[1..]));
    SeqFeeIsFeeRate(g, cs[0]);
  }

  /** Find the set to output: the best remaining chunk, intersected with the other side. */
  method NextSet(c1: LinearizationChunking, c2: LinearizationChunking, ghost todo: set<nat>) returns (t: set<nat>)
    requires c1.g.Cluster() && todo <= c1.g.used && todo != {}
    requires c1.Valid() && c2.Valid() && c1.g == c2.g && c1.todo == c2.todo == todo
    requires IsLinearization(c1.g, todo, c1.Remaining()) && IsLinearization(c1.g, todo, c2.Remaining())
    ensures t != {} && t <= todo && Closed(c1.g, todo, t)
    ensures ImprovesFront(c1.g, c1.Remaining(), t) && ImprovesFront(c1.g, c2.Remaining(), t)
  {
    hide Gain, SeqFee, FeeRate, ChunksOf, Filter, FrontIsBetter, IsLinearization, ShortestIntersection, Intersection;
    FirstInfo(c1);
    FirstInfo(c2);
    var first1, first2 := c1.GetChunk(0), c2.GetChunk(0);
    GainFlip(first2.feerate, first1.feerate);
    if Higher(first2.feerate, first1.feerate) {
      var best, k := c1.IntersectPrefixes(first2);
      MergeStep(c1.g, todo, c2.Remaining(), c1.Remaining(), k);
      return best.transactions;
    } else {
      var best, k := c2.IntersectPrefixes(first1);
      MergeStep(c1.g, todo, c1.Remaining(), c2.Remaining(), k);
      return best.transactions;
    }
  }

  method MergeLinearizations(g: Graph, lin1: seq<nat>, lin2: seq<nat>) returns (ret: seq<nat>)
    requires g.Cluster()
    requires IsLinearization(g, g.used, lin1) && IsLinearization(g, g.used, lin2)
    ensures IsLinearization(g, g.used, ret)
    ensures AsGood(g, ret, lin1) && AsGood(g, ret, lin2)
  {
    hide TopoSort, AsGood, IsLinearization, ImprovesFront, Graph.Cluster, Follows, PartialOrder, Elements;
    var c1 := Start(g, lin1);
    var c2 := Start(g, lin2);
    ret := [];
    EmptyOrder(g);
    if g.used == {} {
      NothingToMerge(g, lin1);
      NothingToMerge(g, lin2);
      return;
    }
    while true
      invariant c1 != c2 && fresh(c1) && fresh(c2)
      invariant Follows(g, c1, lin1, ret) && Follows(g, c2, lin2, ret)
      invariant PartialOrder(g, ret) && g.used - Elements(ret) != {}
      decreases |g.used - Elements(ret)|
    {
      ghost var todo := g.used - Elements(ret);
      WhatFollows(g, c1, lin1, ret);
      WhatFollows(g, c2, lin2, ret);
      var t := NextSet(c1, c2, todo);
      ExtendOrder(g, ret, t);
      if c1.todo == t {
        assert Elements(ret) + t == g.used;
        FinishFollowing(g, c1, lin1, ret, t);
        FinishFollowing(g, c2, lin2, ret, t);
      }
      Advance(g, c1, lin1, ret, t);
      ghost var before := ret;
      ret := ret + TopoSort(g, t);
      WhatFollows(g, c1, lin1, ret);
      c1.ChunksLeft();
      if c1.NumChunksLeft() == 0 {
        return;
      }
      Advance(g, c2, lin2, before, t);
      assert |g.used - Elements(ret)| < |todo| by {
        SubsetCount(g.used - Elements(ret), todo);
      }
    }
  }

  lemma NothingToMerge(g: Graph, lin: seq<nat>)
    requires g.Cluster() && IsLinearization(g, g.used, lin) && g.used == {}
    ensures IsLinearization(g, g.used, []) && AsGood(g, [], lin)
  {
    hide AsGood, Graph.Cluster;
    LinearizationSize(g, lin);
    LinearizationSized(g, []);
    DominanceIsAsGood(g, [], []);
  }

  lemma LinearizationSize(g: Graph, lin: seq<nat>)
    requires IsLinearization(g, g.used, lin)
    ensures |lin| == |g.used|
  {
    DistinctCount(lin);
  }

  lemma WhatFollows(g: Graph, c: LinearizationChunking, lin: seq<nat>, ret: seq<nat>)
    requires Follows(g, c, lin, ret) && IsLinearization(g, g.used, lin)
    ensures c.Valid() && c.g == g && c.todo == g.used - Elements(ret)
    ensures IsLinearization(g, g.used - Elements(ret), c.Remaining())
  {
    hide StillAsGood, Distinct, Topological, ChunksOf, Infos, AllSized;
    FilterLinearization(g, g.used, lin, c.todo);
    assert g.used * c.todo == c.todo;
  }

  lemma EmptyOrder(g: Graph)
    ensures PartialOrder(g, []) && Elements<nat>([]) == {}
  {
  }

  lemma FirstInfo(c: LinearizationChunking)
    requires c.Valid() && c.todo != {}
    ensures ChunksOf(c.g, c.Remaining()) != [] && c.NumChunksLeft() > 0
    ensures c.GetChunk(0) == Info(c.g, ChunksOf(c.g, c.Remaining())[0])
    ensures c.GetChunk(0).feerate == FeeRate(c.g, c.GetChunk(0).transactions)
    ensures c.GetChunk(0).transactions <= c.todo
  {
    hide FeeRate, SeqFee, ChunksOf, Filter;
    c.ChunksLeft();
    c.RemainingSized();
    assert c.chunks[c.skip..][0] == c.GetChunk(0);
    var cs := ChunksOf(c.g, c.Remaining());
    ChunksOfIsChunking(c.g, c.Remaining());
    FirstFee(c.g, c.Remaining(), cs);
    assert c.Remaining() == cs[0] + Flatten(cs[1..]);
  }
}
