/** Why moving the right set to the front of a linearization never makes it worse. */
module Improvement {
  import opened Collections
  import opened FeeFracs
  import opened Graphs
  import opened Chunkings

  // ----- a set in topological order -----

  /** Fewer ancestors come first; ties are broken by position. */
  predicate Before(g: Graph, a: nat, b: nat) {
    |g.Anc(a)| < |g.Anc(b)| || (|g.Anc(a)| == |g.Anc(b)| && a < b)
  }

  lemma BeforeTotal(g: Graph, a: nat, b: nat)
    requires a != b && !Before(g, a, b)
    ensures Before(g, b, a)
  {
  }

  lemma BeforeTrans(g: Graph, a: nat, b: nat, c: nat)
    requires Before(g, a, b) && Before(g, b, c)
    ensures Before(g, a, c)
  {
  }

  /** `x` comes before every other member of `s`. */
  predicate IsLeast(g: Graph, s: set<nat>, x: nat) {
    x in s && forall y :: y in s && y != x ==> Before(g, x, y)
  }

  lemma {:induction false} LeastExists(g: Graph, s: set<nat>)
    requires s != {}
    ensures exists x :: IsLeast(g, s, x)
  {
    hide Before;
    var x :| x in s;
    if s == {x} {
      assert IsLeast(g, s, x);
    } else {
      LeastExists(g, s - {x});
      var m :| IsLeast(g, s - {x}, m);
      var least := if Before(g, x, m) then x else m;
      forall y | y in s && y != least ensures Before(g, least, y) {
        if y == x {
          BeforeTotal(g, x, m);
        } else if y != m {
          assert y in s - {x};
          if least == x {
            BeforeTrans(g, x, m, y);
          }
        }
      }
      assert IsLeast(g, s, least);
    }
  }

  /** The members of a set, sorted as `AppendTopo` sorts them. */
  function TopoSort(g: Graph, s: set<nat>): seq<nat> {
    if s == {} then [] else
    LeastExists(g, s);
    var x :| x in s && IsLeast(g, s, x);
    [x] + TopoSort(g, s - {x})
  }

  /** Sorting by ancestor count orders a set topologically. */
  lemma {:induction false} TopoSortLinearizes(g: Graph, s: set<nat>)
    requires g.Cluster() && s <= g.used
    ensures IsLinearization(g, s, TopoSort(g, s))
    ensures forall i, j :: 0 <= i < j < |TopoSort(g, s)| ==> Before(g, TopoSort(g, s)[i], TopoSort(g, s)[j])
  {
    if s != {} {
      hide Before, Graph.Cluster;
      LeastExists(g, s);
      var list := TopoSort(g, s);
      var x, rest := list[0], list[1..];
      TopoSortLinearizes(g, s - {x});
      assert rest == TopoSort(g, s - {x}) && IsLeast(g, s, x);
      assert list == [x] + rest;
      LeastInFront(g, s, x, rest);
    }
  }

  lemma LeastInFront(g: Graph, s: set<nat>, x: nat, rest: seq<nat>)
    requires g.Cluster() && s <= g.used && IsLeast(g, s, x) && IsLinearization(g, s - {x}, rest)
    ensures IsLinearization(g, s, [x] + rest)
    ensures forall j :: 0 <= j < |rest| ==> Before(g, x, rest[j])
  {
    forall j | 0 <= j < |rest| ensures rest[j] != x && rest[j] !in g.Anc(x) && Before(g, x, rest[j]) {
      assert rest[j] in Elements(rest);
      if rest[j] in g.Anc(x) {
        ProperAncestors(g, x, rest[j]);
      }
    }
    assert Elements([x] + rest) == {x} + Elements(rest);
  }

  // ----- moving a set to the front -----

  /** If the part of `t` beyond a prefix rises, then `t` in front makes up for that prefix. */
  lemma MoveUp(g: Graph, r: seq<nat>, t: set<nat>, n: nat, slope: FeeFrac)
    requires Distinct(r) && t <= Elements(r) && n <= |r|
    requires Gain(FeeRate(g, t - Elements(r[..n])), slope) >= 0
    ensures Gain(SeqFee(g, r[..n]), slope)
         <= Gain(FeeRate(g, t), slope) + BestGain(Fees(g, Filter(r, Elements(r) - t)), slope)
  {
    hide Gain, FeeRate, Filter, BestGain, Total, Elements;
    var keep := Elements(r) - t;
    var p := Elements(r[..n]);
    PrefixFilter(r, n, keep);
    var kept, rest := Filter(r[..n], keep), Filter(r, keep);
    PrefixGain(Fees(g, rest), |kept|, slope);
    assert Fees(g, rest)[..|kept|] == Fees(g, rest[..|kept|]);
    KeptFee(g, r, n, t);
    SeqFeeIsFeeRate(g, r[..n]);
    GainSplit(g, p + t, t, slope);
    GainSplit(g, p + t, p, slope);
    assert p + t - t == p - t && p + t - p == t - p;
  }

  lemma PrefixFilter(r: seq<nat>, n: nat, keep: set<nat>)
    requires n <= |r|
    ensures |Filter(r[..n], keep)| <= |Filter(r, keep)|
    ensures Filter(r, keep)[..|Filter(r[..n], keep)|] == Filter(r[..n], keep)
  {
    assert r == r[..n] + r[n..];
    FilterConcat(r[..n], r[n..], keep);
  }

  lemma KeptFee(g: Graph, r: seq<nat>, n: nat, t: set<nat>)
    requires Distinct(r) && n <= |r|
    ensures SeqFee(g, Filter(r[..n], Elements(r) - t)) == FeeRate(g, Elements(r[..n]) - t)
    ensures Distinct(r[..n])
  {
    hide FeeRate, Filter, SeqFee;
    var keep := Elements(r) - t;
    FilterDistinct(r[..n], keep);
    SeqFeeIsFeeRate(g, Filter(r[..n], keep));
    assert forall x :: x in r[..n] ==> x in r;
    assert Elements(Filter(r[..n], keep)) == Elements(r[..n]) - t;
  }

  /** `r`, or `t` followed by the rest of `r`: the latter is nowhere worse for this slope. */
  ghost predicate FrontIsBetter(g: Graph, r: seq<nat>, t: set<nat>, slope: FeeFrac) {
    BestGain([FeeRate(g, t)] + Fees(g, Filter(r, Elements(r) - t)), slope) >= BestGain(Fees(g, r), slope)
  }

  lemma FrontGain(f: FeeFrac, rest: seq<FeeFrac>, slope: FeeFrac)
    ensures BestGain([f] + rest, slope) >= Gain(f, slope) + BestGain(rest, slope)
  {
    assert ([f] + rest)[1..] == rest;
  }

  /** The prefix of `r` that ends with its first `n` chunks. */
  ghost function Covered(cs: seq<seq<nat>>, n: nat): set<nat>
    requires n <= |cs|
  {
    Elements(Flatten(cs[..n]))
  }

  /** The best prefix ends with a chunk. */
  lemma BestChunkPrefix(g: Graph, r: seq<nat>, cs: seq<seq<nat>>, slope: FeeFrac) returns (j: nat, n: nat)
    requires AllSized(g, r) && IsChunking(g, r, cs) && slope.size > 0
    ensures j <= |cs| && n <= |r| && r[..n] == Flatten(cs[..j])
    ensures Gain(SeqFee(g, r[..n]), slope) == BestGain(Fees(g, r), slope)
    ensures j == 0 ==> BestGain(Fees(g, r), slope) == 0
  {
    hide Gain, SeqFee, Total, NonIncreasing, BestGain, IsChunk, Flatten;
    j := BestPrefix(ChunkFees(g, cs), slope);
    ChunkGain(g, cs, slope);
    FlattenSplit(cs, j);
    n := |Flatten(cs[..j])|;
    assert r[..n] == Flatten(cs[..j]);
    SizedParts(g, Flatten(cs[..j]), Flatten(cs[j..]));
    ChunkGain(g, cs[..j], slope);
    assert ChunkFees(g, cs[..j]) == ChunkFees(g, cs)[..j];
    if j == 0 {
      EmptyGain(g, slope);
    }
  }

  lemma EmptyGain(g: Graph, slope: FeeFrac)
    ensures Gain(Total([]), slope) == 0 && Gain(EMPTY, slope) == 0 && FeeRate(g, {}) == EMPTY
  {
  }

  /** Moving part of the first chunk to the front leaves the diagram where it was. */
  lemma PartOfFirstChunk(g: Graph, r: seq<nat>, cs: seq<seq<nat>>, t: set<nat>, slope: FeeFrac)
    requires AllSized(g, r) && Distinct(r) && IsChunking(g, r, cs) && cs != []
    requires t <= Elements(cs[0]) && slope.size > 0
    ensures FrontIsBetter(g, r, t, slope)
  {
    hide Gain, FeeRate, Filter, Total, NonIncreasing, IsChunk, SeqFee;
    var j, n := BestChunkPrefix(g, r, cs, slope);
    if j > 0 {
      assert cs[..j][0] == cs[0];
      assert Flatten(cs[..j]) == cs[0] + Flatten(cs[..j][1..]);
      assert t - Elements(r[..n]) == {};
      assert t <= Elements(r) by {
        assert r == r[..n] + r[n..];
      }
      EmptyGain(g, slope);
      MoveUp(g, r, t, n, slope);
      FrontGain(FeeRate(g, t), Fees(g, Filter(r, Elements(r) - t)), slope);
    }
  }

  /** What `s` has in common with the first `n` chunks. */
  ghost function Intersection(cs: seq<seq<nat>>, s: set<nat>, n: nat): set<nat>
    requires n <= |cs|
  {
    s * Covered(cs, n)
  }

  /** The intersection with the first `n` chunks is the first that is not below `s`. */
  ghost predicate ShortestIntersection(g: Graph, cs: seq<seq<nat>>, s: set<nat>, n: nat) {
    && n <= |cs|
    && (s != {} ==> Intersection(cs, s, n) != {})
    && Gain(FeeRate(g, Intersection(cs, s, n)), FeeRate(g, s)) >= 0
    && forall m :: 0 <= m < n ==>
         Intersection(cs, s, m) == {} || Gain(FeeRate(g, Intersection(cs, s, m)), FeeRate(g, s)) < 0
  }

  lemma CoveredMonotone(cs: seq<seq<nat>>, m: nat, n: nat)
    requires m <= n <= |cs|
    ensures Covered(cs, m) <= Covered(cs, n)
  {
    assert cs[..n] == cs[..m] + cs[m..n];
    FlattenConcat(cs[..m], cs[m..n]);
  }

  /** The guarantee of `IntersectPrefixes`. */
  lemma IntersectionInFront(g: Graph, r: seq<nat>, cs: seq<seq<nat>>, s: set<nat>, k: nat, slope: FeeFrac)
    requires AllSized(g, r) && Distinct(r) && IsChunking(g, r, cs) && cs != []
    requires s != {} && s <= Elements(r) && slope.size > 0
    requires Gain(SeqFee(g, cs[0]), FeeRate(g, s)) <= 0
    requires ShortestIntersection(g, cs, s, k)
    ensures FrontIsBetter(g, r, Intersection(cs, s, k), slope)
  {
    hide Gain, FeeRate, Filter, Total, IsChunk, SeqFee, Flatten, Elements, NonIncreasing, AllSized, BestGain;
    var t := Intersection(cs, s, k);
    var j, n := BestChunkPrefix(g, r, cs, slope);
    SetSized(g, r, s);
    if Gain(FeeRate(g, s), slope) <= 0 {
      ChunksBelow(g, r, cs, FeeRate(g, s), slope);
    } else {
      BeyondPrefix(g, r, cs, s, k, j, slope);
      MoveUp(g, r, t, n, slope);
      FrontGain(FeeRate(g, t), Fees(g, Filter(r, Elements(r) - t)), slope);
    }
  }

  lemma SetSized(g: Graph, r: seq<nat>, s: set<nat>)
    requires AllSized(g, r) && s <= Elements(r)
    ensures FeeRate(g, s).size >= 0 && (s != {} ==> FeeRate(g, s).size > 0)
  {
    hide FeeRate;
    forall i | i in s ensures g.Fee(i).size > 0 {
      assert i in r;
    }
    FeeRateSize(g, s);
  }

  /** If the first chunk is not above `mid` and `mid` not above the line, no prefix rises. */
  lemma ChunksBelow(g: Graph, r: seq<nat>, cs: seq<seq<nat>>, mid: FeeFrac, slope: FeeFrac)
    requires AllSized(g, r) && IsChunking(g, r, cs) && cs != [] && mid.size > 0 && slope.size > 0
    requires Gain(SeqFee(g, cs[0]), mid) <= 0 && Gain(mid, slope) <= 0
    ensures BestGain(Fees(g, r), slope) == 0
  {
    hide Gain, SeqFee, Total, Flatten;
    var fs := ChunkFees(g, cs);
    ChunkGain(g, cs, slope);
    ChunkFeesPositive(g, cs);
    GainTransDown(fs[0], mid, slope);
    forall i | 0 <= i < |fs| ensures Gain(fs[i], slope) <= 0 {
      if i > 0 {
        GainTransDown(fs[i], fs[0], slope);
      }
    }
    AllBelow(fs, slope);
  }

  lemma BeyondPrefix(g: Graph, r: seq<nat>, cs: seq<seq<nat>>, s: set<nat>, k: nat, j: nat, slope: FeeFrac)
    requires AllSized(g, r) && Flatten(cs) == r && j <= |cs|
    requires s != {} && s <= Elements(r) && slope.size > 0
    requires Gain(FeeRate(g, s), slope) > 0
    requires ShortestIntersection(g, cs, s, k)
    ensures Gain(FeeRate(g, Intersection(cs, s, k) - Covered(cs, j)), slope) >= 0
  {
    hide Gain, FeeRate, Flatten, Elements, AllSized;
    var t := Intersection(cs, s, k);
    var mid := FeeRate(g, s);
    SetSized(g, r, s);
    SetSized(g, r, t - Covered(cs, j));
    EmptyGain(g, slope);
    EmptyGain(g, mid);
    if k <= j {
      CoveredMonotone(cs, k, j);
      assert t - Covered(cs, j) == {};
    } else {
      CoveredMonotone(cs, j, k);
      var u := Intersection(cs, s, j);
      assert t - Covered(cs, j) == t - u && u <= t;
      GainSplit(g, t, u, mid);
      assert Gain(FeeRate(g, t - u), mid) >= 0;
      GainTrans(FeeRate(g, t - u), mid, slope);
    }
  }

  /** No non-empty closed subset of `s` has a higher feerate than `t`. */
  ghost predicate BestClosed(g: Graph, s: set<nat>, t: set<nat>) {
    Closed(g, s, t) && t != {} &&
    forall u :: Closed(g, s, u) && u != {} ==> Gain(FeeRate(g, u), FeeRate(g, t)) <= 0
  }

  /** Moving a closed set of the highest feerate to the front needs no intersection. */
  lemma BestClosedInFront(g: Graph, s: set<nat>, r: seq<nat>, t: set<nat>, slope: FeeFrac)
    requires AllSized(g, r) && IsLinearization(g, s, r) && BestClosed(g, s, t) && slope.size > 0
    ensures FrontIsBetter(g, r, t, slope)
  {
    hide Gain, FeeRate, Filter, Total, Elements, BestGain, AllSized, Distinct, Topological;
    var n := BestPrefix(Fees(g, r), slope);
    assert Fees(g, r)[..n] == Fees(g, r[..n]);
    var p := Elements(r[..n]);
    PrefixClosed(g, s, r, n);
    PrefixFee(g, r, n);
    SetSized(g, r, t);
    SetSized(g, r, p);
    SetSized(g, r, t - p);
    EmptyGain(g, slope);
    if Gain(FeeRate(g, t), slope) <= 0 {
      if p != {} {
        GainTransDown(FeeRate(g, p), FeeRate(g, t), slope);
      }
    } else {
      CommonClosed(g, s, t, p);
      GainTrans(FeeRate(g, t - p), FeeRate(g, t), slope);
      MoveUp(g, r, t, n, slope);
      FrontGain(FeeRate(g, t), Fees(g, Filter(r, Elements(r) - t)), slope);
    }
  }

  lemma PrefixFee(g: Graph, r: seq<nat>, n: nat)
    requires Distinct(r) && n <= |r|
    ensures SeqFee(g, r[..n]) == FeeRate(g, Elements(r[..n]))
  {
    hide FeeRate, SeqFee;
    SeqFeeIsFeeRate(g, r[..n]);
  }

  lemma CommonClosed(g: Graph, s: set<nat>, t: set<nat>, p: set<nat>)
    requires BestClosed(g, s, t) && Closed(g, s, p)
    ensures Gain(FeeRate(g, t - p), FeeRate(g, t)) >= 0
  {
    hide Gain, FeeRate;
    var mid := FeeRate(g, t);
    assert Closed(g, s, t * p);
    GainSplit(g, t, t * p, mid);
    assert t - t * p == t - p;
    GainFlip(mid, mid);
    EmptyGain(g, mid);
    if t * p != {} {
      assert Gain(FeeRate(g, t * p), mid) <= 0;
    }
  }

  // ----- orders that are as good as others -----

  /** The feerate diagram of `a` is nowhere below that of `b`. */
  ghost predicate AsGood(g: Graph, a: seq<nat>, b: seq<nat>) {
    && AllSized(g, a) && AllSized(g, b)
    && Positive(ChunkFees(g, ChunksOf(g, a))) && Positive(ChunkFees(g, ChunksOf(g, b)))
    && NoWorse(ChunkFees(g, ChunksOf(g, a)), ChunkFees(g, ChunksOf(g, b)))
  }

  /** No linearization has a feerate diagram that is anywhere above that of `lin`. */
  ghost predicate Optimal(g: Graph, lin: seq<nat>) {
    forall other :: IsLinearization(g, g.used, other) ==> AsGood(g, lin, other)
  }

  /** For orders of the same transactions, diagrams compare as prefix gains do. */
  lemma DominanceIsAsGood(g: Graph, a: seq<nat>, b: seq<nat>)
    requires AllSized(g, a) && AllSized(g, b) && Distinct(a) && Distinct(b) && Elements(a) == Elements(b)
    ensures Dominates(Fees(g, a), Fees(g, b)) <==> AsGood(g, a, b)
  {
    hide Gain, SeqFee, ChunksOf, Flatten, NonIncreasing, BestGain, NoWorse, Total, FeeRate, AllSized, Distinct;
    var ca, cb := ChunksOf(g, a), ChunksOf(g, b);
    ChunksOfIsChunking(g, a);
    ChunksOfIsChunking(g, b);
    ChunkFeesPositive(g, ca);
    ChunkFeesPositive(g, cb);
    SeqFeeIsFeeRate(g, a);
    SeqFeeIsFeeRate(g, b);
    ChunkGain(g, ca, FeeFrac(0, 1));
    ChunkGain(g, cb, FeeFrac(0, 1));
    forall slope: FeeFrac | slope.size > 0
      ensures BestGain(ChunkFees(g, ca), slope) == BestGain(Fees(g, a), slope)
      ensures BestGain(ChunkFees(g, cb), slope) == BestGain(Fees(g, b), slope)
    {
      ChunkGain(g, ca, slope);
      ChunkGain(g, cb, slope);
    }
    DominanceIsNoWorse(ChunkFees(g, ca), ChunkFees(g, cb));
  }

  /** After `done`, putting `t` next and then the rest of `r` is no worse than `r` itself. */
  lemma AppendFront(g: Graph, done: seq<nat>, r: seq<nat>, t: set<nat>, order: seq<nat>, slope: FeeFrac)
    requires FrontIsBetter(g, r, t, slope) && SeqFee(g, order) == FeeRate(g, t)
    ensures BestGain(Fees(g, done + order + Filter(r, Elements(r) - t)), slope)
         >= BestGain(Fees(g, done + r), slope)
  {
    hide Gain, FeeRate, Filter, BestGain, Elements, Total;
    var rest := Filter(r, Elements(r) - t);
    var fd, fo, fr, f := Fees(g, done), Fees(g, order), Fees(g, rest), FeeRate(g, t);
    FeesConcat(g, done, r);
    BestGainConcat(fd, Fees(g, r), slope);
    assert done + order + rest == done + (order + rest);
    FeesConcat(g, done, order + rest);
    FeesConcat(g, order, rest);
    BestGainConcat(fd, fo + fr, slope);
    BestGainConcat(fo, fr, slope);
    BestGainConcat([f], fr, slope);
    OneGain(f, slope);
  }

  lemma OneGain(f: FeeFrac, slope: FeeFrac)
    ensures BestGain([f], slope) == if Gain(f, slope) > 0 then Gain(f, slope) else 0
    ensures Total([f]) == f
  {
    assert [f][1..] == [];
  }

  // ----- building an order set by set -----

  /** `ret` orders a closed part of the graph. */
  ghost predicate PartialOrder(g: Graph, ret: seq<nat>) {
    Closed(g, g.used, Elements(ret)) && IsLinearization(g, Elements(ret), ret)
  }

  /** Appending a closed part of what remains extends the order. */
  lemma ExtendOrder(g: Graph, ret: seq<nat>, t: set<nat>)
    requires g.Cluster() && PartialOrder(g, ret) && Closed(g, g.used - Elements(ret), t)
    ensures PartialOrder(g, ret + TopoSort(g, t))
    ensures Elements(ret + TopoSort(g, t)) == Elements(ret) + t <= g.used
  {
    hide TopoSort;
    var order := TopoSort(g, t);
    TopoSortLinearizes(g, t);
    var done := Elements(ret);
    assert Elements(ret + order) == done + t;
    assert done + t - done == t;
    ConcatLinearization(g, done + t, done, ret, order);
  }

  /** What remains of `lin`, put behind `ret`, is as good as `lin`. */
  ghost predicate StillAsGood(g: Graph, ret: seq<nat>, rest: seq<nat>, lin: seq<nat>) {
    Dominates(Fees(g, ret + rest), Fees(g, lin))
  }

  lemma StayAsGood(g: Graph, ret: seq<nat>, lin: seq<nat>, todo: set<nat>, t: set<nat>)
    requires g.Cluster() && t <= todo <= g.used
    requires Elements(Filter(lin, todo)) == todo
    requires StillAsGood(g, ret, Filter(lin, todo), lin)
    requires forall slope: FeeFrac :: slope.size > 0 ==> FrontIsBetter(g, Filter(lin, todo), t, slope)
    ensures StillAsGood(g, ret + TopoSort(g, t), Filter(lin, todo - t), lin)
  {
    hide TopoSort, Filter, BestGain, FeeRate, FrontIsBetter, SeqFee;
    var r, order := Filter(lin, todo), TopoSort(g, t);
    TopoSortLinearizes(g, t);
    SeqFeeIsFeeRate(g, order);
    FilterFilter(lin, todo, todo - t);
    assert todo * (todo - t) == todo - t;
    forall slope: FeeFrac | slope.size > 0
      ensures BestGain(Fees(g, ret + order + Filter(lin, todo - t)), slope) >= BestGain(Fees(g, lin), slope)
    {
      assert FrontIsBetter(g, r, t, slope);
      AppendFront(g, ret, r, t, order, slope);
    }
  }

  lemma StartAsGood(g: Graph, lin: seq<nat>)
    ensures StillAsGood(g, [], Filter(lin, Elements(lin)), lin)
  {
    FilterAll(lin, Elements(lin));
    assert [] + lin == lin;
  }

  lemma FinishAsGood(g: Graph, ret: seq<nat>, lin: seq<nat>)
    requires g.Cluster() && PartialOrder(g, ret) && Elements(ret) == g.used && IsLinearization(g, g.used, lin)
    requires StillAsGood(g, ret, Filter(lin, {}), lin)
    ensures IsLinearization(g, g.used, ret) && AsGood(g, ret, lin)
  {
    hide AsGood, AllSized, BestGain, Topological, Distinct;
    FilterAll(lin, {});
    assert ret + [] == ret;
    LinearizationSized(g, ret);
    LinearizationSized(g, lin);
    DominanceIsAsGood(g, ret, lin);
  }

  lemma LinearizationSized(g: Graph, lin: seq<nat>)
    requires g.Cluster() && Elements(lin) <= g.used
    ensures AllSized(g, lin)
  {
    assert forall i :: 0 <= i < |lin| ==> lin[i] in Elements(lin);
  }
}
