/** One pass of post-linearization, on groups as sequences: what it does and what it keeps. */
module PostPasses {
  import opened Collections
  import opened FeeFracs
  import opened Graphs
  import opened Chunkings
  import opened Components

  /** Everything that some member of `c` depends on. */
  ghost function Deps(g: Graph, c: seq<nat>): set<nat> {
    set i, a | i in c && a in g.Anc(i) :: a
  }

  /** Move a group forward over groups of lower feerate, merging it with those it depends on. */
  ghost function Insert(g: Graph, gs: seq<seq<nat>>, c: seq<nat>): seq<seq<nat>>
    decreases |gs|
  {
    if gs == [] || !Higher(SeqFee(g, c), SeqFee(g, gs[|gs| - 1])) then gs + [c] else
    var p, front := gs[|gs| - 1], gs[..|gs| - 1];
    if Deps(g, c) !! Elements(p) then Insert(g, front, c) + [p] else Insert(g, front, p + c)
  }

  /** The groups after a pass over a linearization. */
  ghost function PassGroups(g: Graph, lin: seq<nat>): seq<seq<nat>> {
    if lin == [] then [] else
    Insert(g, PassGroups(g, lin[..|lin| - 1]), [lin[|lin| - 1]])
  }

  // ----- groups are chunks -----

  ghost predicate AllChunks(g: Graph, gs: seq<seq<nat>>) {
    forall i :: 0 <= i < |gs| ==> IsChunk(g, gs[i]) && AllSized(g, gs[i])
  }

  /** No group has a lower feerate than `f`. */
  ghost predicate NoneBelow(g: Graph, gs: seq<seq<nat>>, f: FeeFrac) {
    forall i :: 0 <= i < |gs| ==> Gain(SeqFee(g, gs[i]), f) >= 0
  }

  lemma GroupSized(g: Graph, c: seq<nat>)
    requires IsChunk(g, c) && AllSized(g, c)
    ensures SeqFee(g, c).size > 0
  {
    hide SeqFee;
    SizedPositive(g, c);
  }

  lemma MergeGroup(g: Graph, p: seq<nat>, c: seq<nat>)
    requires IsChunk(g, p) && AllSized(g, p) && IsChunk(g, c) && AllSized(g, c)
    requires Higher(SeqFee(g, c), SeqFee(g, p))
    ensures IsChunk(g, p + c) && AllSized(g, p + c)
    ensures SeqFee(g, p + c) == SeqFee(g, p).Plus(SeqFee(g, c))
    ensures Gain(SeqFee(g, p + c), SeqFee(g, p)) > 0
  {
    hide Gain, SeqFee;
    GainFlip(SeqFee(g, c), SeqFee(g, p));
    MergeChunks(g, p, c);
    SeqFeeConcat(g, p, c);
    GainMediant(SeqFee(g, p), SeqFee(g, c));
  }

  lemma {:induction false} InsertChunks(g: Graph, gs: seq<seq<nat>>, c: seq<nat>)
    requires AllChunks(g, gs) && IsChunk(g, c) && AllSized(g, c)
    ensures AllChunks(g, Insert(g, gs, c))
    decreases |gs|
  {
    hide SeqFee, IsChunk, AllSized, Deps, Higher;
    if gs != [] && Higher(SeqFee(g, c), SeqFee(g, gs[|gs| - 1])) {
      var p, front := gs[|gs| - 1], gs[..|gs| - 1];
      if Deps(g, c) !! Elements(p) {
        InsertChunks(g, front, c);
      } else {
        MergeGroup(g, p, c);
        InsertChunks(g, front, p + c);
      }
    }
  }

  /** A lower bound on all feerates survives. */
  lemma {:induction false} InsertNoneBelow(g: Graph, gs: seq<seq<nat>>, c: seq<nat>, f: FeeFrac)
    requires AllChunks(g, gs) && IsChunk(g, c) && AllSized(g, c) && f.size > 0
    requires NoneBelow(g, gs, f) && Gain(SeqFee(g, c), f) >= 0
    ensures NoneBelow(g, Insert(g, gs, c), f)
    decreases |gs|
  {
    hide SeqFee, IsChunk, AllSized, Deps, Higher, Gain;
    if gs != [] && Higher(SeqFee(g, c), SeqFee(g, gs[|gs| - 1])) {
      var p, front := gs[|gs| - 1], gs[..|gs| - 1];
      if Deps(g, c) !! Elements(p) {
        InsertNoneBelow(g, front, c, f);
      } else {
        MergeGroup(g, p, c);
        GainPlus(SeqFee(g, p), SeqFee(g, c), f);
        InsertNoneBelow(g, front, p + c, f);
      }
    }
  }

  /** Groups stay in order of non-increasing feerate. */
  lemma {:induction false} InsertNonIncreasing(g: Graph, gs: seq<seq<nat>>, c: seq<nat>)
    requires AllChunks(g, gs) && IsChunk(g, c) && AllSized(g, c) && NonIncreasing(ChunkFees(g, gs))
    ensures NonIncreasing(ChunkFees(g, Insert(g, gs, c)))
    decreases |gs|
  {
    hide SeqFee, IsChunk, AllSized, Deps, Higher, Gain;
    if gs == [] {
      OneNonIncreasing(g, c);
    } else {
      var p, front := gs[|gs| - 1], gs[..|gs| - 1];
      assert ChunkFees(g, front) == ChunkFees(g, gs)[..|front|];
      GainFlip(SeqFee(g, c), SeqFee(g, p));
      if !Higher(SeqFee(g, c), SeqFee(g, p)) {
        AppendNonIncreasing(g, gs, c);
      } else if Deps(g, c) !! Elements(p) {
        InsertNonIncreasing(g, front, c);
        GroupSized(g, p);
        FrontNotBelow(g, gs);
        InsertNoneBelow(g, front, c, SeqFee(g, p));
        AppendBelow(g, Insert(g, front, c), p);
      } else {
        MergeGroup(g, p, c);
        InsertNonIncreasing(g, front, p + c);
      }
    }
  }

  lemma OneNonIncreasing(g: Graph, c: seq<nat>)
    ensures NonIncreasing(ChunkFees(g, [] + [c]))
  {
  }

  lemma AppendNonIncreasing(g: Graph, gs: seq<seq<nat>>, c: seq<nat>)
    requires AllChunks(g, gs) && IsChunk(g, c) && AllSized(g, c) && NonIncreasing(ChunkFees(g, gs)) && gs != []
    requires Gain(SeqFee(g, c), SeqFee(g, gs[|gs| - 1])) <= 0
    ensures NonIncreasing(ChunkFees(g, gs + [c]))
  {
    hide SeqFee, IsChunk, AllSized, Gain, NonIncreasing;
    var fs := ChunkFees(g, gs);
    forall i | 0 <= i < |fs| ensures fs[i].size > 0 {
      GroupSized(g, gs[i]);
    }
    GroupSized(g, c);
    NonIncreasingAppend(fs, SeqFee(g, c));
    ChunkFeesAppend(g, gs, c);
  }

  lemma FrontNotBelow(g: Graph, gs: seq<seq<nat>>)
    requires NonIncreasing(ChunkFees(g, gs)) && gs != []
    ensures NoneBelow(g, gs[..|gs| - 1], SeqFee(g, gs[|gs| - 1]))
  {
    hide SeqFee, Gain;
    var fs := ChunkFees(g, gs);
    forall i | 0 <= i < |gs| - 1 ensures Gain(SeqFee(g, gs[i]), SeqFee(g, gs[|gs| - 1])) >= 0 {
      assert Gain(fs[|fs| - 1], fs[i]) <= 0;
      GainFlip(fs[|fs| - 1], fs[i]);
      GainFlip(fs[i], fs[|fs| - 1]);
    }
  }

  lemma AppendBelow(g: Graph, gs: seq<seq<nat>>, p: seq<nat>)
    requires NonIncreasing(ChunkFees(g, gs)) && NoneBelow(g, gs, SeqFee(g, p))
    ensures NonIncreasing(ChunkFees(g, gs + [p]))
  {
    hide SeqFee, Gain;
    ChunkFeesAppend(g, gs, p);
    forall i | 0 <= i < |gs| ensures Gain(SeqFee(g, p), SeqFee(g, gs[i])) <= 0 {
      GainFlip(SeqFee(g, p), SeqFee(g, gs[i]));
    }
  }

  // ----- the order stays a linearization -----

  lemma FlattenAppend(gs: seq<seq<nat>>, c: seq<nat>)
    ensures Flatten(gs + [c]) == Flatten(gs) + c
  {
    FlattenConcat(gs, [c]);
    FlattenOne(c);
  }

  /** Inserting a group keeps an order that is a linearization one, followed by anything. */
  lemma {:induction false} InsertLinearizes(g: Graph, s: set<nat>, gs: seq<seq<nat>>, c: seq<nat>, rest: seq<nat>)
    requires IsLinearization(g, s, Flatten(gs) + c + rest)
    ensures IsLinearization(g, s, Flatten(Insert(g, gs, c)) + rest)
    decreases |gs|
  {
    hide SeqFee, Higher, Distinct, Topological, Elements, Deps, Flatten;
    if gs == [] || !Higher(SeqFee(g, c), SeqFee(g, gs[|gs| - 1])) {
      FlattenAppend(gs, c);
    } else {
      var p, front := gs[|gs| - 1], gs[..|gs| - 1];
      FlattenLast(gs);
      var x := Flatten(front);
      if Deps(g, c) !! Elements(p) {
        SwapLinearization(g, s, x, p, c, rest);
        assert x + c + p + rest == x + c + (p + rest);
        InsertLinearizes(g, s, front, c, p + rest);
        FlattenAppend(Insert(g, front, c), p);
        assert Flatten(Insert(g, front, c)) + (p + rest) == Flatten(Insert(g, gs, c)) + rest;
      } else {
        assert Flatten(gs) + c + rest == x + (p + c) + rest;
        InsertLinearizes(g, s, front, p + c, rest);
      }
    }
  }

  lemma SwapLinearization(g: Graph, s: set<nat>, x: seq<nat>, p: seq<nat>, c: seq<nat>, rest: seq<nat>)
    requires IsLinearization(g, s, x + p + c + rest) && Deps(g, c) !! Elements(p)
    ensures IsLinearization(g, s, x + c + p + rest)
  {
    var a, b := x + p + c + rest, x + c + p + rest;
    forall i, j | 0 <= i < j < |b| ensures b[i] != b[j] && b[j] !in g.Anc(b[i]) {
      var k := MovedIndex(|x|, |p|, |c|, i);
      var m := MovedIndex(|x|, |p|, |c|, j);
      assert a[k] == b[i] && a[m] == b[j];
      if |x| <= i < |x| + |c| <= j < |x| + |c| + |p| {
        assert b[i] in c && b[j] in Elements(p);
        assert b[j] !in Deps(g, c);
      }
    }
    assert Elements(a) == Elements(x) + Elements(p) + Elements(c) + Elements(rest);
    assert Elements(b) == Elements(x) + Elements(c) + Elements(p) + Elements(rest);
  }

  /** Where the element at `i` was before two neighbouring runs were swapped. */
  ghost function MovedIndex(x: nat, p: nat, c: nat, i: nat): nat {
    if i < x || i >= x + c + p then i else if i < x + c then i + p else i - c
  }

  // ----- groups stay connected -----

  ghost predicate AllConnected(g: Graph, gs: seq<seq<nat>>) {
    forall i :: 0 <= i < |gs| ==> Connected(g, Elements(gs[i])) && Elements(gs[i]) <= g.used
  }

  /** Two connected sets with a dependency between them are connected together. */
  lemma ConnectedUnion(g: Graph, a: set<nat>, b: set<nat>, x: nat, y: nat)
    requires g.Valid() && a <= g.used && b <= g.used && Connected(g, a) && Connected(g, b)
    requires x in a && y in b && x in g.Anc(y)
    ensures Connected(g, a + b)
  {
    assert y in g.Desc(x);
    forall d | Detached(g, a + b, d) && d != {} ensures d == a + b {
      assert d == d * a + d * b;
      assert Detached(g, a, d * a) && Detached(g, b, d * b);
      assert x in d <==> y in d by {
        assert y in g.Desc(x) * (a + b) && x in g.Anc(y) * (a + b);
      }
      assert d * a == {} || d * a == a;
      assert d * b == {} || d * b == b;
      assert x in d * a <==> x in d;
      assert y in d * b <==> y in d;
    }
  }

  lemma MergeConnected(g: Graph, p: seq<nat>, c: seq<nat>)
    requires g.Valid() && Elements(p) <= g.used && Elements(c) <= g.used
    requires Connected(g, Elements(p)) && Connected(g, Elements(c)) && !(Deps(g, c) !! Elements(p))
    ensures Connected(g, Elements(p + c)) && Elements(p + c) <= g.used
  {
    hide Connected, Graph.Valid;
    var x :| x in Deps(g, c) && x in Elements(p);
    var y :| y in c && x in g.Anc(y);
    ConnectedUnion(g, Elements(p), Elements(c), x, y);
    assert Elements(p + c) == Elements(p) + Elements(c);
  }

  lemma {:induction false} InsertConnected(g: Graph, gs: seq<seq<nat>>, c: seq<nat>)
    requires g.Valid() && AllConnected(g, gs) && Connected(g, Elements(c)) && Elements(c) <= g.used
    ensures AllConnected(g, Insert(g, gs, c))
    decreases |gs|
  {
    hide SeqFee, Higher, Deps, Connected, Graph.Valid, Elements;
    if gs != [] && Higher(SeqFee(g, c), SeqFee(g, gs[|gs| - 1])) {
      var p, front := gs[|gs| - 1], gs[..|gs| - 1];
      if Deps(g, c) !! Elements(p) {
        InsertConnected(g, front, c);
      } else {
        MergeConnected(g, p, c);
        InsertConnected(g, front, p + c);
      }
    }
  }

  // ----- the diagram never gets worse -----

  lemma OneBestGain(f: FeeFrac, slope: FeeFrac)
    ensures BestGain([f], slope) == if Gain(f, slope) > 0 then Gain(f, slope) else 0
  {
    assert [f][1..] == [];
  }

  lemma PairBestGain(a: FeeFrac, b: FeeFrac, slope: FeeFrac)
    ensures var best := if Gain(b, slope) > 0 then Gain(a, slope) + Gain(b, slope) else Gain(a, slope);
      BestGain([a, b], slope) == if best > 0 then best else 0
  {
    hide Gain;
    OneBestGain(b, slope);
    assert [a, b][1..] == [b];
  }

  lemma ConcatMono(xs: seq<FeeFrac>, a: seq<FeeFrac>, b: seq<FeeFrac>, slope: FeeFrac)
    requires BestGain(a, slope) >= BestGain(b, slope)
    ensures BestGain(xs + a, slope) >= BestGain(xs + b, slope)
  {
    hide BestGain, Gain, Total;
    BestGainConcat(xs, a, slope);
    BestGainConcat(xs, b, slope);
  }

  lemma AppendMono(a: seq<FeeFrac>, b: seq<FeeFrac>, f: FeeFrac, slope: FeeFrac)
    requires BestGain(a, slope) >= BestGain(b, slope) && Total(a) == Total(b)
    ensures BestGain(a + [f], slope) >= BestGain(b + [f], slope)
    ensures Total(a + [f]) == Total(b + [f])
  {
    hide BestGain, Gain, Total;
    BestGainConcat(a, [f], slope);
    BestGainConcat(b, [f], slope);
    TotalConcat(a, [f]);
    TotalConcat(b, [f]);
  }

  /** Neither swapping a group with one of higher feerate behind it nor merging the two loses. */
  lemma NeighbourGain(p: FeeFrac, c: FeeFrac, slope: FeeFrac)
    requires p.size > 0 && c.size > 0 && slope.size > 0 && Gain(c, p) > 0
    ensures BestGain([c, p], slope) >= BestGain([p, c], slope)
    ensures BestGain([p.Plus(c)], slope) >= BestGain([p, c], slope)
    ensures Total([c, p]) == Total([p, c]) == Total([p.Plus(c)])
  {
    PairTotal(p, c);
    PairTotal(c, p);
    TotalOne(p.Plus(c));
    hide Gain, Total, BestGain;
    PairBestGain(p, c, slope);
    PairBestGain(c, p, slope);
    OneBestGain(p.Plus(c), slope);
    GainPlus(p, c, slope);
    if Gain(p, slope) >= 0 {
      GainTrans(c, p, slope);
    }
  }

  lemma PairTotal(a: FeeFrac, b: FeeFrac)
    ensures Total([a, b]) == a.Plus(b)
  {
    assert [a, b][1..] == [b];
    TotalOne(b);
  }

  lemma {:induction false} InsertGain(g: Graph, gs: seq<seq<nat>>, c: seq<nat>, slope: FeeFrac)
    requires AllChunks(g, gs) && IsChunk(g, c) && AllSized(g, c) && slope.size > 0
    ensures BestGain(ChunkFees(g, Insert(g, gs, c)), slope) >= BestGain(ChunkFees(g, gs + [c]), slope)
    ensures Total(ChunkFees(g, Insert(g, gs, c))) == Total(ChunkFees(g, gs + [c]))
    decreases |gs|
  {
    hide SeqFee, IsChunk, AllSized, Deps, Higher, Gain, BestGain, Total;
    if gs != [] && Higher(SeqFee(g, c), SeqFee(g, gs[|gs| - 1])) {
      var p, front := gs[|gs| - 1], gs[..|gs| - 1];
      var xs, fp, fc := ChunkFees(g, front), SeqFee(g, p), SeqFee(g, c);
      GroupSized(g, p);
      GroupSized(g, c);
      GainFlip(fc, fp);
      NeighbourGain(fp, fc, slope);
      assert ChunkFees(g, gs + [c]) == xs + [fp, fc];
      if Deps(g, c) !! Elements(p) {
        InsertGain(g, front, c, slope);
        ChunkFeesAppend(g, Insert(g, front, c), p);
        ChunkFeesAppend(g, front, c);
        AppendMono(ChunkFees(g, Insert(g, front, c)), xs + [fc], fp, slope);
        assert xs + [fc] + [fp] == xs + [fc, fp];
        ConcatMono(xs, [fc, fp], [fp, fc], slope);
        TotalConcat(xs, [fc, fp]);
        TotalConcat(xs, [fp, fc]);
      } else {
        MergeGroup(g, p, c);
        InsertGain(g, front, p + c, slope);
        ChunkFeesAppend(g, front, p + c);
        ConcatMono(xs, [fp.Plus(fc)], [fp, fc], slope);
        TotalConcat(xs, [fp.Plus(fc)]);
        TotalConcat(xs, [fp, fc]);
      }
    }
  }

  // ----- a whole pass -----

  /** What a pass over a prefix of a linearization has established. */
  ghost predicate PassOk(g: Graph, lin: seq<nat>, gs: seq<seq<nat>>) {
    && AllChunks(g, gs) && NonIncreasing(ChunkFees(g, gs)) && AllConnected(g, gs)
    && IsLinearization(g, Elements(lin), Flatten(gs))
  }

  lemma {:induction false} PassGroupsOk(g: Graph, lin: seq<nat>)
    requires g.Valid() && AllSized(g, lin) && Elements(lin) <= g.used && IsLinearization(g, Elements(lin), lin)
    ensures PassOk(g, lin, PassGroups(g, lin))
  {
    hide SeqFee, IsChunk, Graph.Valid, Connected, Insert, NonIncreasing, Flatten;
    if lin == [] {
      NoGroups(g);
    } else {
      var front, i := lin[..|lin| - 1], lin[|lin| - 1];
      var gs := PassGroups(g, front);
      PrefixLinearizes(g, lin, |lin| - 1);
      PassGroupsOk(g, front);
      SingleGroup(g, lin, i);
      InsertChunks(g, gs, [i]);
      InsertNonIncreasing(g, gs, [i]);
      InsertConnected(g, gs, [i]);
      NextLinearizes(g, lin, Flatten(gs));
      assert Flatten(gs) + [i] + [] == Flatten(gs) + [i];
      InsertLinearizes(g, Elements(lin), gs, [i], []);
      assert Flatten(Insert(g, gs, [i])) + [] == Flatten(Insert(g, gs, [i]));
    }
  }

  lemma NoGroups(g: Graph)
    ensures PassOk(g, [], [])
  {
  }

  lemma PrefixLinearizes(g: Graph, lin: seq<nat>, n: nat)
    requires AllSized(g, lin) && Elements(lin) <= g.used && IsLinearization(g, Elements(lin), lin) && n <= |lin|
    ensures AllSized(g, lin[..n]) && Elements(lin[..n]) <= g.used && IsLinearization(g, Elements(lin[..n]), lin[..n])
  {
    assert forall x :: x in lin[..n] ==> x in lin;
  }

  lemma SingleGroup(g: Graph, lin: seq<nat>, i: nat)
    requires AllSized(g, lin) && i in lin && Elements(lin) <= g.used
    ensures IsChunk(g, [i]) && AllSized(g, [i]) && Connected(g, Elements([i])) && Elements([i]) <= g.used
  {
    assert Elements([i]) == {i};
    forall d | Detached(g, {i}, d) && d != {} ensures d == {i} {
      var x :| x in d;
      assert x == i;
    }
  }

  /** The groups so far and then the next transaction form a linearization. */
  lemma NextLinearizes(g: Graph, lin: seq<nat>, flat: seq<nat>)
    requires lin != [] && IsLinearization(g, Elements(lin), lin)
    requires IsLinearization(g, Elements(lin[..|lin| - 1]), flat)
    ensures IsLinearization(g, Elements(lin), flat + [lin[|lin| - 1]])
  {
    var n, next := |lin| - 1, flat + [lin[|lin| - 1]];
    forall k | 0 <= k < |flat| ensures flat[k] != lin[n] && lin[n] !in g.Anc(flat[k]) {
      assert flat[k] in Elements(flat);
      var m :| 0 <= m < n && lin[..n][m] == flat[k];
    }
    assert lin == lin[..n] + [lin[n]];
    assert Elements(next) == Elements(flat) + {lin[n]};
    assert Elements(lin) == Elements(lin[..n]) + {lin[n]};
  }

  lemma {:induction false} PassGain(g: Graph, lin: seq<nat>, slope: FeeFrac)
    requires g.Valid() && AllSized(g, lin) && Elements(lin) <= g.used && IsLinearization(g, Elements(lin), lin)
    requires slope.size > 0
    ensures BestGain(ChunkFees(g, PassGroups(g, lin)), slope) >= BestGain(Fees(g, lin), slope)
    ensures Total(ChunkFees(g, PassGroups(g, lin))) == Total(Fees(g, lin))
  {
    hide SeqFee, IsChunk, Graph.Valid, Connected, Insert, NonIncreasing, BestGain, Gain, Flatten, Total, Topological, Distinct;
    if lin != [] {
      var front, i := lin[..|lin| - 1], lin[|lin| - 1];
      var gs := PassGroups(g, front);
      PrefixLinearizes(g, lin, |lin| - 1);
      PassGroupsOk(g, front);
      PassGain(g, front, slope);
      SingleGroup(g, lin, i);
      InsertGain(g, gs, [i], slope);
      ChunkFeesAppend(g, gs, [i]);
      SeqFeeOne(g, i);
      AppendMono(ChunkFees(g, gs), Fees(g, front), g.Fee(i), slope);
      assert Fees(g, lin) == Fees(g, front) + [g.Fee(i)];
    } else {
      assert ChunkFees(g, []) == Fees(g, lin);
    }
  }

  /** A pass gives a linearization that is as good, and whose chunks are its groups. */
  lemma PassImproves(g: Graph, lin: seq<nat>)
    requires g.Valid() && AllSized(g, lin) && Elements(lin) <= g.used && IsLinearization(g, Elements(lin), lin)
    ensures IsLinearization(g, Elements(lin), Flatten(PassGroups(g, lin)))
    ensures AllSized(g, Flatten(PassGroups(g, lin)))
    ensures Dominates(Fees(g, Flatten(PassGroups(g, lin))), Fees(g, lin))
    ensures ChunksOf(g, Flatten(PassGroups(g, lin))) == PassGroups(g, lin)
    ensures AllConnected(g, PassGroups(g, lin))
  {
    hide SeqFee, IsChunk, Graph.Valid, Connected, BestGain, Gain, Flatten, PassGroups, Total, Topological, Distinct, NonIncreasing, ChunksOf;
    var gs := PassGroups(g, lin);
    PassGroupsOk(g, lin);
    SameSized(g, lin, Flatten(gs));
    forall slope: FeeFrac | slope.size > 0 ensures BestGain(Fees(g, Flatten(gs)), slope) >= BestGain(Fees(g, lin), slope) {
      ChunkGain(g, gs, slope);
      PassGain(g, lin, slope);
    }
    ChunksOfIsChunking(g, Flatten(gs));
    ChunkingUnique(g, Flatten(gs), ChunksOf(g, Flatten(gs)), gs);
  }

  lemma SameSized(g: Graph, a: seq<nat>, b: seq<nat>)
    requires AllSized(g, a) && Elements(b) == Elements(a)
    ensures AllSized(g, b)
  {
    forall k | 0 <= k < |b| ensures g.Fee(b[k]).size > 0 {
      assert b[k] in Elements(b);
      assert b[k] in a;
    }
  }
}
