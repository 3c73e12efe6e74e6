/** Moving a leaf to the end of an order, perhaps with a higher fee, and post-linearizing gives an order
    that is as good as the first one. */
module MovedLeaves {
  import opened Collections
  import opened FeeFracs
  import opened Graphs
  import opened Chunkings
  import opened Components
  import opened Improvement
  import opened PostPasses
  import opened Mirrors

  // ----- a transaction that nothing depends on stays a group of its own -----

  ghost predicate Avoids(g: Graph, t: nat, list: seq<nat>) {
    forall x :: x in list ==> t !in g.Anc(x)
  }

  /** Inserting a group goes as if the group of `t` were not there. */
  lemma {:induction false} InsertAround(g: Graph, x: seq<seq<nat>>, t: nat, y: seq<seq<nat>>, c: seq<nat>)
    returns (x': seq<seq<nat>>, y': seq<seq<nat>>)
    requires AllChunks(g, x + [[t]] + y) && NonIncreasing(ChunkFees(g, x + [[t]] + y)) && IsChunk(g, c) && AllSized(g, c)
    requires (forall i :: 0 <= i < |y| ==> Avoids(g, t, y[i])) && Avoids(g, t, c)
    ensures Insert(g, x + [[t]] + y, c) == x' + [[t]] + y' && Insert(g, x + y, c) == x' + y'
    decreases |y|
  {
    hide SeqFee, Gain, IsChunk, AllSized, Deps, Higher, NonIncreasing, Avoids;
    var gs, hs := x + [[t]] + y, x + y;
    if y == [] {
      assert gs == x + [[t]] && hs == x && gs[..|gs| - 1] == x;
      if Higher(SeqFee(g, c), SeqFee(g, [t])) {
        NoDependency(g, t, c);
        x', y' := Insert(g, x, c), [];
        assert x' + [[t]] + y' == x' + [[t]] && x' + y' == x';
      } else {
        StaysBehind(g, x, t, c);
        x', y' := x, [c];
      }
    } else {
      var p, front := y[|y| - 1], y[..|y| - 1];
      assert gs[|gs| - 1] == p && hs[|hs| - 1] == p;
      assert gs[..|gs| - 1] == x + [[t]] + front && hs[..|hs| - 1] == x + front;
      FrontOf(g, gs);
      if !Higher(SeqFee(g, c), SeqFee(g, p)) {
        x', y' := x, y + [c];
        assert gs + [c] == x + [[t]] + y' && hs + [c] == x + y';
      } else if Deps(g, c) !! Elements(p) {
        var y1;
        x', y1 := InsertAround(g, x, t, front, c);
        y' := y1 + [p];
        assert x' + [[t]] + y1 + [p] == x' + [[t]] + y' && x' + y1 + [p] == x' + y';
      } else {
        MergeGroup(g, p, c);
        AvoidsBoth(g, t, p, c);
        x', y' := InsertAround(g, x, t, front, p + c);
      }
    }
  }

  lemma FrontOf(g: Graph, gs: seq<seq<nat>>)
    requires gs != [] && AllChunks(g, gs) && NonIncreasing(ChunkFees(g, gs))
    ensures AllChunks(g, gs[..|gs| - 1]) && NonIncreasing(ChunkFees(g, gs[..|gs| - 1]))
    ensures IsChunk(g, gs[|gs| - 1]) && AllSized(g, gs[|gs| - 1])
  {
    hide SeqFee, IsChunk, AllSized, Gain;
    assert ChunkFees(g, gs[..|gs| - 1]) == ChunkFees(g, gs)[..|gs| - 1];
  }

  lemma NoDependency(g: Graph, t: nat, c: seq<nat>)
    requires Avoids(g, t, c)
    ensures Deps(g, c) !! Elements([t])
  {
  }

  lemma AvoidsBoth(g: Graph, t: nat, p: seq<nat>, c: seq<nat>)
    requires Avoids(g, t, p) && Avoids(g, t, c)
    ensures Avoids(g, t, p + c)
  {
  }

  /** What is not above `t` is not above what comes before it. */
  lemma StaysBehind(g: Graph, x: seq<seq<nat>>, t: nat, c: seq<nat>)
    requires AllChunks(g, x + [[t]]) && NonIncreasing(ChunkFees(g, x + [[t]])) && IsChunk(g, c) && AllSized(g, c)
    requires !Higher(SeqFee(g, c), SeqFee(g, [t]))
    ensures Insert(g, x, c) == x + [c]
  {
    hide SeqFee, Gain, IsChunk, AllSized, Deps, Higher;
    if x != [] {
      var gs, n := x + [[t]], |x|;
      var fs := ChunkFees(g, gs);
      assert gs[n] == [t] && gs[n - 1] == x[n - 1];
      assert Gain(fs[n], fs[n - 1]) <= 0;
      GroupSized(g, gs[n]);
      GroupSized(g, gs[n - 1]);
      GroupSized(g, c);
      GainFlip(SeqFee(g, c), SeqFee(g, [t]));
      GainFlip(SeqFee(g, c), SeqFee(g, x[n - 1]));
      GainTransDown(SeqFee(g, c), fs[n], fs[n - 1]);
    }
  }

  lemma {:induction false} PassAround(g: Graph, t: nat, list: seq<nat>) returns (x: seq<seq<nat>>, y: seq<seq<nat>>)
    requires g.Valid() && AllSized(g, [t] + list) && Elements([t] + list) <= g.used
    requires IsLinearization(g, Elements([t] + list), [t] + list) && Avoids(g, t, list)
    ensures PassGroups(g, [t] + list) == x + [[t]] + y && PassGroups(g, list) == x + y
    decreases |list|
  {
    hide SeqFee, IsChunk, Graph.Valid, Connected, Insert, NonIncreasing, Flatten, Gain;
    var all := [t] + list;
    if list == [] {
      JustOne(g, t);
      x, y := [], [];
      assert all == [t] && [] + [[t]] + [] == [[t]];
    } else {
      var front, i := list[..|list| - 1], list[|list| - 1];
      assert all[..|all| - 1] == [t] + front && all[|all| - 1] == i;
      PrefixLinearizes(g, all, |all| - 1);
      var x0, y0 := PassAround(g, t, front);
      PassGroupsOk(g, [t] + front);
      SingleGroup(g, all, i);
      GroupsAvoid(g, t, front, x0, y0);
      x, y := InsertAround(g, x0, t, y0, [i]);
    }
  }

  lemma JustOne(g: Graph, t: nat)
    ensures PassGroups(g, [t]) == [[t]] && PassGroups(g, []) == []
  {
    assert [t][..0] == [];
  }

  lemma GroupsAvoid(g: Graph, t: nat, list: seq<nat>, x: seq<seq<nat>>, y: seq<seq<nat>>)
    requires g.Valid() && AllSized(g, [t] + list) && Elements([t] + list) <= g.used
    requires IsLinearization(g, Elements([t] + list), [t] + list) && Avoids(g, t, list) && PassGroups(g, list) == x + y
    ensures forall i :: 0 <= i < |y| ==> Avoids(g, t, y[i])
  {
    hide SeqFee, IsChunk, Graph.Valid, Connected, PassGroups, NonIncreasing;
    WithoutFirst(g, t, list);
    PassGroupsOk(g, list);
    forall i, e | 0 <= i < |y| && e in y[i] ensures t !in g.Anc(e) {
      InGroup(x + y, |x| + i, e);
      assert e in Elements(list);
    }
  }

  lemma {:induction false} InGroup(gs: seq<seq<nat>>, k: nat, e: nat)
    requires k < |gs| && e in gs[k]
    ensures e in Elements(Flatten(gs))
  {
    if k > 0 {
      InGroup(gs[1..], k - 1, e);
    }
  }

  lemma WithoutFirst(g: Graph, t: nat, list: seq<nat>)
    requires AllSized(g, [t] + list) && Elements([t] + list) <= g.used && IsLinearization(g, Elements([t] + list), [t] + list)
    ensures AllSized(g, list) && Elements(list) <= g.used && IsLinearization(g, Elements(list), list)
  {
    var all := [t] + list;
    assert forall i :: 0 <= i < |list| ==> list[i] == all[i + 1];
  }

  // ----- gains -----

  /** Something comes better before what is not above it than after. */
  lemma LateGain(f: FeeFrac, ys: seq<FeeFrac>, slope: FeeFrac)
    requires f.size > 0 && Positive(ys) && slope.size > 0 && forall i :: 0 <= i < |ys| ==> Gain(ys[i], f) <= 0
    ensures BestGain([f] + ys, slope) >= BestGain(ys + [f], slope)
    ensures Total([f] + ys) == Total(ys + [f])
  {
    hide Gain, Total, BestGain;
    BestGainConcat([f], ys, slope);
    BestGainConcat(ys, [f], slope);
    OneBestGain(f, slope);
    TotalOne(f);
    TotalConcat([f], ys);
    TotalConcat(ys, [f]);
    PrefixGain(ys, |ys|, slope);
    assert ys[..|ys|] == ys;
    if Gain(f, slope) < 0 {
      forall i | 0 <= i < |ys| ensures Gain(ys[i], slope) <= 0 {
        GainTransDown(ys[i], f, slope);
      }
      AllBelow(ys, slope);
    }
  }

  /** A pass that begins with `t` is as good as the rest followed by `t`. */
  lemma AroundGain(g: Graph, t: nat, list: seq<nat>, slope: FeeFrac)
    requires g.Valid() && AllSized(g, [t] + list) && Elements([t] + list) <= g.used && slope.size > 0
    requires IsLinearization(g, Elements([t] + list), [t] + list) && Avoids(g, t, list)
    ensures BestGain(ChunkFees(g, PassGroups(g, [t] + list)), slope) >= BestGain(Fees(g, list + [t]), slope)
    ensures Total(ChunkFees(g, PassGroups(g, [t] + list))) == Total(Fees(g, list + [t]))
  {
    hide SeqFee, IsChunk, Graph.Valid, Connected, PassGroups, Flatten, Gain, BestGain, Total, IsLinearization, AllSized, Elements;
    var x, y := PassAround(g, t, list);
    var xs, ys, f := ChunkFees(g, x), ChunkFees(g, y), g.Fee(t);
    PassGroupsOk(g, [t] + list);
    SeqFeeOne(g, t);
    assert ChunkFees(g, x + [[t]] + y) == xs + ([f] + ys);
    assert ChunkFees(g, x + y) + [f] == xs + (ys + [f]);
    AfterGroup(g, x, t, y);
    LateGain(f, ys, slope);
    ConcatMono(xs, [f] + ys, ys + [f], slope);
    TotalConcat(xs, [f] + ys);
    TotalConcat(xs, ys + [f]);
    WithoutFirst(g, t, list);
    PassGain(g, list, slope);
    AppendMono(ChunkFees(g, x + y), Fees(g, list), f, slope);
    assert Fees(g, list + [t]) == Fees(g, list) + [f];
  }

  lemma AfterGroup(g: Graph, x: seq<seq<nat>>, t: nat, y: seq<seq<nat>>)
    requires AllChunks(g, x + [[t]] + y) && NonIncreasing(ChunkFees(g, x + [[t]] + y)) && SeqFee(g, [t]) == g.Fee(t)
    ensures g.Fee(t).size > 0 && Positive(ChunkFees(g, y))
    ensures forall i :: 0 <= i < |y| ==> Gain(ChunkFees(g, y)[i], g.Fee(t)) <= 0
  {
    hide SeqFee, IsChunk, AllSized, Gain;
    var gs, n := x + [[t]] + y, |x|;
    var fs := ChunkFees(g, gs);
    assert gs[n] == [t];
    GroupSized(g, gs[n]);
    forall i | 0 <= i < |y| ensures SeqFee(g, y[i]).size > 0 && Gain(SeqFee(g, y[i]), g.Fee(t)) <= 0 {
      assert gs[n + 1 + i] == y[i];
      GroupSized(g, gs[n + 1 + i]);
      assert Gain(fs[n + 1 + i], fs[n]) <= 0;
    }
  }

  /** What a pass has reached it never loses. */
  lemma {:induction false} PassOn(g: Graph, first: seq<nat>, rest: seq<nat>, slope: FeeFrac)
    requires g.Valid() && AllSized(g, first + rest) && Elements(first + rest) <= g.used && slope.size > 0
    requires IsLinearization(g, Elements(first + rest), first + rest)
    ensures BestGain(ChunkFees(g, PassGroups(g, first + rest)), slope) >= BestGain(ChunkFees(g, PassGroups(g, first)) + Fees(g, rest), slope)
    ensures Total(ChunkFees(g, PassGroups(g, first + rest))) == Total(ChunkFees(g, PassGroups(g, first)) + Fees(g, rest))
    decreases |rest|
  {
    hide SeqFee, IsChunk, Graph.Valid, Connected, Insert, NonIncreasing, BestGain, Gain, Flatten, Total, Topological, Distinct;
    var all := first + rest;
    if rest == [] {
      assert all == first && ChunkFees(g, PassGroups(g, first)) + Fees(g, rest) == ChunkFees(g, PassGroups(g, first));
    } else {
      var front, i := rest[..|rest| - 1], rest[|rest| - 1];
      assert all[..|all| - 1] == first + front && all[|all| - 1] == i;
      var gs := PassGroups(g, first + front);
      PrefixLinearizes(g, all, |all| - 1);
      PassOn(g, first, front, slope);
      PassGroupsOk(g, first + front);
      SingleGroup(g, all, i);
      InsertGain(g, gs, [i], slope);
      ChunkFeesAppend(g, gs, [i]);
      SeqFeeOne(g, i);
      var fs := ChunkFees(g, PassGroups(g, first));
      AppendMono(ChunkFees(g, gs), fs + Fees(g, front), g.Fee(i), slope);
      assert fs + Fees(g, rest) == fs + Fees(g, front) + [g.Fee(i)];
    }
  }

  lemma BothMono(a: seq<FeeFrac>, b: seq<FeeFrac>, rest: seq<FeeFrac>, slope: FeeFrac)
    requires BestGain(a, slope) >= BestGain(b, slope) && Total(a) == Total(b)
    ensures BestGain(a + rest, slope) >= BestGain(b + rest, slope)
  {
    hide BestGain, Gain, Total;
    BestGainConcat(a, rest, slope);
    BestGainConcat(b, rest, slope);
  }

  /** A pass that meets `t` first is as good as an order that has it later, after what does not depend on it. */
  lemma EarlyPass(g: Graph, t: nat, a: seq<nat>, b: seq<nat>)
    requires g.Valid() && AllSized(g, [t] + a + b) && Elements([t] + a + b) <= g.used
    requires IsLinearization(g, Elements([t] + a + b), [t] + a + b) && Avoids(g, t, a)
    ensures Dominates(Fees(g, ForwardPass(g, [t] + a + b)), Fees(g, a + [t] + b))
  {
    hide SeqFee, IsChunk, Graph.Valid, Connected, PassGroups, Flatten, Gain, BestGain, Total, Topological, Distinct, NonIncreasing, Avoids;
    var all := [t] + a + b;
    assert all[..1 + |a|] == [t] + a;
    PrefixLinearizes(g, all, 1 + |a|);
    PassGroupsOk(g, all);
    var gs := PassGroups(g, all);
    SameSized(g, all, Flatten(gs));
    assert Fees(g, a + [t] + b) == Fees(g, a + [t]) + Fees(g, b);
    forall slope: FeeFrac | slope.size > 0 ensures BestGain(Fees(g, Flatten(gs)), slope) >= BestGain(Fees(g, a + [t] + b), slope) {
      AroundGain(g, t, a, slope);
      PassOn(g, [t] + a, b, slope);
      BothMono(ChunkFees(g, PassGroups(g, [t] + a)), Fees(g, a + [t]), Fees(g, b), slope);
      ChunkGain(g, gs, slope);
    }
  }

  // ----- in the order itself -----

  lemma LeafFirst(m: Graph, s: set<nat>, t: nat, a: seq<nat>, b: seq<nat>)
    requires IsLinearization(m, s, a + [t] + b) && m.Anc(t) <= {t}
    ensures IsLinearization(m, s, [t] + a + b) && Avoids(m, t, a)
  {
    var l := a + [t] + b;
    assert forall i :: 0 <= i < |a| ==> a[i] == l[i];
    assert l[|a|] == t;
    assert Deps(m, [t]) !! Elements(a);
    assert [] + a + [t] + b == l && [] + [t] + a + b == [t] + a + b;
    SwapLinearization(m, s, [], a, [t], b);
  }

  lemma ReverseMoved(u: seq<nat>, t: nat, v: seq<nat>)
    ensures Reverse(u + [t] + v) == Reverse(v) + [t] + Reverse(u)
    ensures Reverse(u + v + [t]) == [t] + Reverse(v) + Reverse(u)
  {
    hide Reverse;
    ReverseConcat(u + [t], v);
    ReverseConcat(u, [t]);
    ReverseConcat(u + v, [t]);
    ReverseConcat(u, v);
    ReverseShort(t);
    assert Reverse(v) + ([t] + Reverse(u)) == Reverse(v) + [t] + Reverse(u);
    assert [t] + (Reverse(v) + Reverse(u)) == [t] + Reverse(v) + Reverse(u);
  }

  /** The pass from the back undoes moving a leaf to the end, or does better. */
  lemma LeafBackward(g: Graph, t: nat, u: seq<nat>, v: seq<nat>)
    requires g.Cluster() && IsLinearization(g, g.used, u + [t] + v) && g.Desc(t) <= {t}
    ensures IsLinearization(g, g.used, u + v + [t])
    ensures IsLinearization(g, g.used, BackwardPass(g, u + v + [t]))
    ensures Dominates(Fees(g, BackwardPass(g, u + v + [t])), Fees(g, u + [t] + v))
  {
    hide SeqFee, PassGroups, Flatten, Distinct, Topological, Mirror, Dominates, AllSized, Graph.Cluster, Graph.Valid, Reverse, Avoids;
    var lin, moved, m := u + [t] + v, u + v + [t], Mirror(g);
    var a, b := Reverse(v), Reverse(u);
    ReverseMoved(u, t, v);
    PassInput(g, lin, true);
    MirrorUsed(g);
    MirrorAt(g, t);
    LeafFirst(m, g.used, t, a, b);
    BackLinearizes(g, moved);
    PassInput(g, moved, true);
    EarlyPass(m, t, a, b);
    PassImproves(m, Reverse(moved));
    var flat := ForwardPass(m, Reverse(moved));
    ReverseTwice(flat);
    var out := Reverse(flat);
    assert out == BackwardPass(g, moved);
    BackLinearizes(g, out);
    SeqFeeIsFeeRate(g, out);
    SeqFeeIsFeeRate(g, lin);
    MirrorDominates(g, out, lin);
  }

  // ----- raising the fee -----

  /** The same graph with another feerate for `t`. */
  function WithFee(g: Graph, t: nat, f: FeeFrac): Graph
    requires t < |g.entries|
  {
    g.(entries := g.entries[t := g.entries[t].(feerate := f)])
  }

  lemma WithFeeSame(g: Graph, t: nat, f: FeeFrac, lin: seq<nat>)
    requires g.Cluster() && t in g.used && f.size > 0 && IsLinearization(g, g.used, lin)
    ensures var h := WithFee(g, t, f); h.Cluster() && h.used == g.used && h.Desc(t) == g.Desc(t) && IsLinearization(h, g.used, lin)
    ensures forall i :: WithFee(g, t, f).Fee(i) == if i == t then f else g.Fee(i)
  {
    var h := WithFee(g, t, f);
    assert forall i :: h.Anc(i) == g.Anc(i) && h.Desc(i) == g.Desc(i);
  }

  lemma {:induction false} RaisedGain(g: Graph, h: Graph, lin: seq<nat>, slope: FeeFrac)
    requires slope.size > 0 && forall i :: h.Fee(i).size == g.Fee(i).size && h.Fee(i).fee >= g.Fee(i).fee
    ensures BestGain(Fees(h, lin), slope) >= BestGain(Fees(g, lin), slope)
    ensures SeqFee(h, lin).size == SeqFee(g, lin).size && SeqFee(h, lin).fee >= SeqFee(g, lin).fee
  {
    if lin != [] {
      var x := lin[0];
      RaisedGain(g, h, lin[1..], slope);
      assert Fees(g, lin)[1..] == Fees(g, lin[1..]) && Fees(h, lin)[1..] == Fees(h, lin[1..]);
      RaisedOne(g.Fee(x), h.Fee(x), slope);
    }
  }

  lemma RaisedOne(f: FeeFrac, f': FeeFrac, slope: FeeFrac)
    requires slope.size > 0 && f'.size == f.size && f'.fee >= f.fee
    ensures Gain(f', slope) >= Gain(f, slope)
  {
    assert (f'.fee - f.fee) * slope.size >= 0;
  }

  // ----- the guarantee -----

  /** The diagram of `a` in one graph is nowhere below the diagram of `b` in another. */
  ghost predicate AsGoodAcross(h: Graph, a: seq<nat>, g: Graph, b: seq<nat>) {
    var fa, fb := ChunkFees(h, ChunksOf(h, a)), ChunkFees(g, ChunksOf(g, b));
    Positive(fa) && Positive(fb) && NoWorse(fa, fb)
  }

  lemma AcrossFrom(h: Graph, a: seq<nat>, g: Graph, b: seq<nat>)
    requires AllSized(h, a) && AllSized(g, b) && SeqFee(h, a).size == SeqFee(g, b).size && SeqFee(h, a).fee >= SeqFee(g, b).fee
    requires Dominates(Fees(h, a), Fees(g, b))
    ensures AsGoodAcross(h, a, g, b)
  {
    hide SeqFee, Gain, BestGain, Total, AtSize, ChunksOf, Flatten, IsChunk, AllSized, NonIncreasing;
    var ca, cb := ChunksOf(h, a), ChunksOf(g, b);
    var fa, fb := ChunkFees(h, ca), ChunkFees(g, cb);
    ChunksOfIsChunking(h, a);
    ChunksOfIsChunking(g, b);
    ChunkFeesPositive(h, ca);
    ChunkFeesPositive(g, cb);
    var any := FeeFrac(0, 1);
    ChunkGain(h, ca, any);
    ChunkGain(g, cb, any);
    forall slope: FeeFrac | slope.size > 0 ensures BestGain(fa, slope) >= BestGain(fb, slope) {
      ChunkGain(h, ca, slope);
      ChunkGain(g, cb, slope);
    }
    forall x: real | x >= 0.0 ensures AtSize(fa, x) >= AtSize(fb, x) {
      DominatedPoint(fa, fb, x);
    }
  }

  lemma DominatesTrans(a: seq<FeeFrac>, b: seq<FeeFrac>, c: seq<FeeFrac>)
    requires Dominates(a, b) && Dominates(b, c)
    ensures Dominates(a, c)
  {
    hide BestGain;
    forall slope: FeeFrac | slope.size > 0 ensures BestGain(a, slope) >= BestGain(c, slope) {
      assert BestGain(a, slope) >= BestGain(b, slope) && BestGain(b, slope) >= BestGain(c, slope);
    }
  }

  lemma LeafKept(h: Graph, t: nat, u: seq<nat>, v: seq<nat>)
    requires h.Cluster() && IsLinearization(h, h.used, u + [t] + v) && h.Desc(t) <= {t}
    ensures IsLinearization(h, h.used, u + v + [t]) && IsLinearization(h, h.used, PostLinearized(h, u + v + [t]))
    ensures Dominates(Fees(h, PostLinearized(h, u + v + [t])), Fees(h, u + [t] + v))
  {
    hide Dominates, SeqFee, Distinct, Topological, BackwardPass, PassGroups, Flatten, ChunksOf, Connected;
    LeafBackward(h, t, u, v);
    var back := BackwardPass(h, u + v + [t]);
    LinearizationSized(h, back);
    PassImproves(h, back);
    DominatesTrans(Fees(h, PostLinearized(h, u + v + [t])), Fees(h, back), Fees(h, u + [t] + v));
  }

  /** Moving a leaf to the end, with the same or a higher fee, and post-linearizing never makes the diagram worse. */
  lemma MovedLeaf(g: Graph, t: nat, f: FeeFrac, u: seq<nat>, v: seq<nat>)
    requires g.Cluster() && IsLinearization(g, g.used, u + [t] + v) && t in g.used && t < |g.entries| && g.Desc(t) <= {t}
    requires f.size == g.Fee(t).size && f.fee >= g.Fee(t).fee
    ensures var h := WithFee(g, t, f);
      && h.Cluster() && IsLinearization(h, h.used, PostLinearized(h, u + v + [t]))
      && AsGoodAcross(h, PostLinearized(h, u + v + [t]), g, u + [t] + v)
  {
    hide Dominates, SeqFee, Distinct, Topological, PostLinearized, WithFee, AsGoodAcross, BestGain;
    var h, lin := WithFee(g, t, f), u + [t] + v;
    WithFeeSame(g, t, f, lin);
    LeafKept(h, t, u, v);
    var out := PostLinearized(h, u + v + [t]);
    LinearizationSized(h, out);
    LinearizationSized(g, lin);
    SeqFeeIsFeeRate(h, out);
    SeqFeeIsFeeRate(h, lin);
    RaisedGain(g, h, lin, FeeFrac(0, 1));
    RaisedDominates(g, h, lin);
    DominatesTrans(Fees(h, out), Fees(h, lin), Fees(g, lin));
    AcrossFrom(h, out, g, lin);
  }

  lemma RaisedDominates(g: Graph, h: Graph, lin: seq<nat>)
    requires forall i :: h.Fee(i).size == g.Fee(i).size && h.Fee(i).fee >= g.Fee(i).fee
    ensures Dominates(Fees(h, lin), Fees(g, lin))
  {
    forall slope: FeeFrac | slope.size > 0 ensures BestGain(Fees(h, lin), slope) >= BestGain(Fees(g, lin), slope) {
      RaisedGain(g, h, lin, slope);
    }
  }
}
