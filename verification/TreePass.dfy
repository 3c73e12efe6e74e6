/** On graphs in the shape of a tree, one pass of post-linearization finds an order that is optimal. */
module TreePasses {
  import opened Collections
  import opened FeeFracs
  import opened Graphs
  import opened Chunkings
  import opened Components
  import opened LinearizationChunkings
  import opened PostPasses

  /** Of two descendants of a transaction, one descends from the other. */
  ghost predicate Chained(g: Graph) {
    forall y, a, b :: y in g.used && a in g.Desc(y) && b in g.Desc(y) ==> a in g.Anc(b) || b in g.Anc(a)
  }

  // ----- children -----

  /** A descendant with nothing in between. */
  ghost predicate IsChild(g: Graph, y: nat, c: nat) {
    c in g.Desc(y) && c != y && g.Desc(y) * g.Anc(c) <= {y, c}
  }

  ghost predicate OneChildEach(g: Graph) {
    forall y, a, b :: y in g.used && IsChild(g, y, a) && IsChild(g, y, b) ==> a == b
  }

  /** The way to a descendant begins with a child. */
  lemma {:induction false} ChildTowards(g: Graph, y: nat, a: nat) returns (c: nat)
    requires g.Valid() && g.Acyclic() && y in g.used && a in g.Desc(y) && a != y
    ensures IsChild(g, y, c) && a in g.Desc(c)
    decreases |g.Desc(y) * g.Anc(a)|
  {
    if g.Desc(y) * g.Anc(a) <= {y, a} {
      c := a;
    } else {
      var z :| z in g.Desc(y) * g.Anc(a) && z != y && z != a;
      assert a in g.used && z in g.used;
      ProperAncestors(g, a, z);
      assert g.Anc(z) <= g.Anc(a);
      assert a in g.Desc(y) * g.Anc(a) && a !in g.Desc(y) * g.Anc(z);
      SubsetCount(g.Desc(y) * g.Anc(z), g.Desc(y) * g.Anc(a));
      c := ChildTowards(g, y, z);
      assert c in g.used && c in g.Anc(z) && c in g.Anc(a);
    }
  }

  lemma {:induction false} ChainBelow(g: Graph, y: nat, a: nat, b: nat)
    requires g.Valid() && g.Acyclic() && OneChildEach(g) && y in g.used && a in g.Desc(y) && b in g.Desc(y)
    ensures a in g.Anc(b) || b in g.Anc(a)
    decreases |g.Desc(y)|
  {
    assert a in g.used && b in g.used;
    if a != y && b != y {
      var c := ChildTowards(g, y, a);
      var d := ChildTowards(g, y, b);
      assert c == d;
      FewerBelow(g, y, c);
      ChainBelow(g, c, a, b);
    }
  }

  lemma FewerBelow(g: Graph, y: nat, c: nat)
    requires g.Valid() && g.Acyclic() && y in g.used && c in g.Desc(y) && c != y
    ensures c in g.used && |g.Desc(c)| < |g.Desc(y)|
  {
    assert c in g.used && y in g.Anc(c);
    forall x | x in g.Desc(c) ensures x in g.Desc(y) {
      assert c in g.Anc(x) && g.Anc(c) <= g.Anc(x);
    }
    ProperAncestors(g, c, y);
    assert y in g.Desc(y) && y !in g.Desc(c);
    SubsetCount(g.Desc(c), g.Desc(y));
  }

  lemma SameChild(g: Graph, y: nat, a: nat, b: nat)
    requires IsChild(g, y, a) && IsChild(g, y, b) && a in g.Anc(b)
    ensures a == b
  {
    assert a in g.Desc(y) * g.Anc(b);
  }

  /** That every transaction has at most one child says just that descendants form chains. */
  lemma OneChildIsChained(g: Graph)
    requires g.Valid() && g.Acyclic()
    ensures OneChildEach(g) <==> Chained(g)
  {
    if OneChildEach(g) {
      forall y, a, b | y in g.used && a in g.Desc(y) && b in g.Desc(y) ensures a in g.Anc(b) || b in g.Anc(a) {
        ChainBelow(g, y, a, b);
      }
    }
    if Chained(g) {
      forall y, a, b | y in g.used && IsChild(g, y, a) && IsChild(g, y, b) ensures a == b {
        assert a in g.Desc(y) && b in g.Desc(y);
        if b in g.Anc(a) {
          SameChild(g, y, b, a);
        } else {
          SameChild(g, y, a, b);
        }
      }
    }
  }

  // ----- groups that are trees -----

  /** All of a group are ancestors of its last transaction. */
  ghost predicate Rooted(g: Graph, c: seq<nat>) {
    c != [] && Elements(c) <= g.Anc(c[|c| - 1])
  }

  /** No closed part of a group has a higher feerate than the group. */
  ghost predicate Tight(g: Graph, c: seq<nat>) {
    forall t :: Closed(g, Elements(c), t) ==> Gain(FeeRate(g, t), SeqFee(g, c)) <= 0
  }

  /** No closed part without the last transaction has a higher feerate than `f`. */
  ghost predicate Under(g: Graph, c: seq<nat>, f: FeeFrac)
    requires c != []
  {
    forall t :: Closed(g, Elements(c), t) && c[|c| - 1] !in t ==> Gain(FeeRate(g, t), f) <= 0
  }

  lemma PartSize(g: Graph, c: seq<nat>, t: set<nat>)
    requires AllSized(g, c) && t <= Elements(c)
    ensures FeeRate(g, t).size >= 0
  {
    assert Sized(g, t);
    FeeRateSize(g, t);
  }

  lemma SingleTree(g: Graph, i: nat, f: FeeFrac)
    requires g.Valid() && i in g.used
    ensures Rooted(g, [i]) && Tight(g, [i]) && Under(g, [i], f)
  {
    assert Elements([i]) == {i};
    FeeRateEmpty(g);
    SeqFeeIsFeeRate(g, [i]);
    forall t | Closed(g, Elements([i]), t) ensures t == {} || t == {i} {
      assert t != {} ==> i in t;
    }
    GainFlip(SeqFee(g, [i]), SeqFee(g, [i]));
  }

  lemma UnderHigher(g: Graph, c: seq<nat>, f: FeeFrac, f': FeeFrac)
    requires c != [] && AllSized(g, c) && Under(g, c, f) && f.size > 0 && f'.size > 0 && Gain(f, f') <= 0
    ensures Under(g, c, f')
  {
    hide Gain, FeeRate, AllSized;
    forall t | Closed(g, Elements(c), t) && c[|c| - 1] !in t ensures Gain(FeeRate(g, t), f') <= 0 {
      PartSize(g, c, t);
      GainTransDown(FeeRate(g, t), f, f');
    }
  }

  // ----- merging -----

  lemma Dependency(g: Graph, p: seq<nat>, c: seq<nat>) returns (y: nat, x: nat)
    requires !(Deps(g, c) !! Elements(p))
    ensures y in p && x in c && y in g.Anc(x)
  {
    y :| y in Deps(g, c) && y in Elements(p);
    x :| x in c && y in g.Anc(x);
  }

  lemma DependsOnLast(g: Graph, y: nat, s: nat, x: nat, r: nat)
    requires g.Valid() && Chained(g) && y in g.used && s in g.used && x in g.used && r in g.used
    requires y in g.Anc(s) && y in g.Anc(x) && x in g.Anc(r) && x !in g.Anc(s)
    ensures g.Anc(s) <= g.Anc(r)
  {
    assert s in g.Desc(y) && x in g.Desc(y);
    assert s in g.Anc(x);
  }

  /** If something of `c` depends on something of `p`, then it depends on the last of `p`. */
  lemma MergeRooted(g: Graph, p: seq<nat>, c: seq<nat>)
    requires g.Valid() && Chained(g) && Rooted(g, p) && Rooted(g, c) && Elements(p) <= g.used && Elements(c) <= g.used
    requires !(Deps(g, c) !! Elements(p)) && forall x :: x in c ==> x !in g.Anc(p[|p| - 1])
    ensures Rooted(g, p + c)
  {
    hide Graph.Valid, Chained, Deps;
    var s, r := p[|p| - 1], c[|c| - 1];
    var y, x := Dependency(g, p, c);
    assert s in Elements(p) && r in Elements(c) && x in Elements(c);
    DependsOnLast(g, y, s, x, r);
    assert Elements(p + c) == Elements(p) + Elements(c) && (p + c)[|p + c| - 1] == r;
  }

  /** A closed part of the merged group without its last transaction does not beat `p`. */
  lemma MergedPart(g: Graph, p: seq<nat>, c: seq<nat>, t: set<nat>)
    requires c != [] && Distinct(p + c) && Tight(g, p) && Under(g, c, SeqFee(g, p))
    requires Closed(g, Elements(p + c), t) && c[|c| - 1] !in t
    ensures Gain(FeeRate(g, t), SeqFee(g, p)) <= 0
  {
    hide Gain, FeeRate, SeqFee;
    var tp, tc := t * Elements(p), t * Elements(c);
    assert Elements(p + c) == Elements(p) + Elements(c);
    SplitDistinct(p, c);
    assert Closed(g, Elements(p), tp) && Closed(g, Elements(c), tc);
    assert t == tp + tc;
    FeeRateUnion(g, tp, tc);
    GainPlus(FeeRate(g, tp), FeeRate(g, tc), SeqFee(g, p));
  }

  lemma MergedUnder(g: Graph, p: seq<nat>, c: seq<nat>, f: FeeFrac)
    requires c != [] && Distinct(p + c) && AllSized(g, p + c) && Tight(g, p) && Under(g, c, SeqFee(g, p))
    requires SeqFee(g, p).size > 0 && f.size > 0 && Gain(SeqFee(g, p), f) <= 0
    ensures Under(g, p + c, f)
  {
    hide Gain, FeeRate, SeqFee, Tight, AllSized, Distinct;
    forall t | Closed(g, Elements(p + c), t) && (p + c)[|p + c| - 1] !in t ensures Gain(FeeRate(g, t), f) <= 0 {
      MergedPart(g, p, c, t);
      PartSize(g, p + c, t);
      GainTransDown(FeeRate(g, t), SeqFee(g, p), f);
    }
  }

  lemma MergedTight(g: Graph, p: seq<nat>, c: seq<nat>)
    requires Rooted(g, p + c) && c != [] && Distinct(p + c) && AllSized(g, p + c) && Tight(g, p) && Under(g, c, SeqFee(g, p))
    requires SeqFee(g, p).size > 0 && SeqFee(g, p + c).size > 0 && Gain(SeqFee(g, p), SeqFee(g, p + c)) <= 0
    ensures Tight(g, p + c)
  {
    hide Gain, FeeRate, SeqFee, AllSized, Distinct;
    MergedUnder(g, p, c, SeqFee(g, p + c));
    var last := (p + c)[|p + c| - 1];
    forall t | Closed(g, Elements(p + c), t) ensures Gain(FeeRate(g, t), SeqFee(g, p + c)) <= 0 {
      if last in t {
        assert t == Elements(p + c);
        SeqFeeIsFeeRate(g, p + c);
        GainFlip(SeqFee(g, p + c), SeqFee(g, p + c));
      }
    }
  }

  // ----- inserting -----

  ghost predicate IsTree(g: Graph, c: seq<nat>) {
    Rooted(g, c) && Tight(g, c)
  }

  ghost predicate AllTrees(g: Graph, gs: seq<seq<nat>>) {
    forall i :: 0 <= i < |gs| ==> IsTree(g, gs[i])
  }

  /** A group that moves forward: it beats nothing before it without its last transaction. */
  ghost predicate Moving(g: Graph, gs: seq<seq<nat>>, c: seq<nat>) {
    && IsChunk(g, c) && AllSized(g, c) && IsTree(g, c)
    && (gs != [] ==> Under(g, c, SeqFee(g, gs[|gs| - 1])))
  }

  lemma Neighbours(g: Graph, s: set<nat>, x: seq<nat>, p: seq<nat>, c: seq<nat>, rest: seq<nat>)
    requires IsLinearization(g, s, x + p + c + rest) && p != []
    ensures Distinct(p + c) && Elements(p) <= s && Elements(c) <= s
    ensures forall e :: e in c ==> e !in g.Anc(p[|p| - 1])
  {
    var l, n := x + p + c + rest, |x| + |p|;
    assert forall i :: 0 <= i < |p + c| ==> (p + c)[i] == l[|x| + i];
    assert forall i :: 0 <= i < |p| ==> p[i] == l[|x| + i];
    assert forall i :: 0 <= i < |c| ==> c[i] == l[n + i];
    forall e | e in c ensures e !in g.Anc(p[|p| - 1]) {
      var i :| 0 <= i < |c| && c[i] == e;
      assert l[n - 1] == p[|p| - 1] && l[n + i] == e;
    }
  }

  lemma MergeMoving(g: Graph, s: set<nat>, gs: seq<seq<nat>>, c: seq<nat>, rest: seq<nat>)
    requires g.Valid() && Chained(g) && s <= g.used && gs != [] && AllChunks(g, gs) && AllTrees(g, gs)
    requires NonIncreasing(ChunkFees(g, gs)) && Moving(g, gs, c)
    requires IsLinearization(g, s, Flatten(gs[..|gs| - 1]) + gs[|gs| - 1] + c + rest)
    requires Higher(SeqFee(g, c), SeqFee(g, gs[|gs| - 1])) && !(Deps(g, c) !! Elements(gs[|gs| - 1]))
    ensures Moving(g, gs[..|gs| - 1], gs[|gs| - 1] + c)
  {
    hide SeqFee, Gain, Graph.Valid, Chained, IsChunk, AllSized, Tight, Higher, Deps, Elements, IsLinearization, FeeRate, Rooted;
    var p, front := gs[|gs| - 1], gs[..|gs| - 1];
    assert IsTree(g, p) && IsChunk(g, p) && AllSized(g, p);
    assert p != [] && c != [] by { RootedNotEmpty(g, p); RootedNotEmpty(g, c); }
    Neighbours(g, s, Flatten(front), p, c, rest);
    MergeGroup(g, p, c);
    MergeRooted(g, p, c);
    GroupSized(g, p);
    GroupSized(g, p + c);
    GainFlip(SeqFee(g, p + c), SeqFee(g, p));
    MergedTight(g, p, c);
    if front != [] {
      LastTwo(g, gs);
      GroupSized(g, front[|front| - 1]);
      MergedUnder(g, p, c, SeqFee(g, front[|front| - 1]));
    }
  }

  lemma RootedNotEmpty(g: Graph, c: seq<nat>)
    requires Rooted(g, c)
    ensures c != []
  {
  }

  lemma LastTwo(g: Graph, gs: seq<seq<nat>>)
    requires |gs| > 1 && NonIncreasing(ChunkFees(g, gs))
    ensures Gain(SeqFee(g, gs[|gs| - 1]), SeqFee(g, gs[|gs| - 2])) <= 0
  {
    var fs := ChunkFees(g, gs);
    assert Gain(fs[|gs| - 1], fs[|gs| - 2]) <= 0;
  }

  lemma SwapMoving(g: Graph, gs: seq<seq<nat>>, c: seq<nat>)
    requires gs != [] && AllChunks(g, gs) && NonIncreasing(ChunkFees(g, gs)) && Moving(g, gs, c)
    ensures Moving(g, gs[..|gs| - 1], c)
  {
    hide SeqFee, Gain, IsChunk, AllSized, IsTree, NonIncreasing;
    var p, front := gs[|gs| - 1], gs[..|gs| - 1];
    if front != [] {
      LastTwo(g, gs);
      GroupSized(g, p);
      GroupSized(g, front[|front| - 1]);
      assert c != [] by { ChunkNotEmpty(g, c); }
      UnderHigher(g, c, SeqFee(g, p), SeqFee(g, front[|front| - 1]));
    }
  }

  lemma ChunkNotEmpty(g: Graph, c: seq<nat>)
    requires IsChunk(g, c)
    ensures c != []
  {
  }

  lemma {:induction false} InsertTrees(g: Graph, s: set<nat>, gs: seq<seq<nat>>, c: seq<nat>, rest: seq<nat>)
    requires g.Valid() && Chained(g) && s <= g.used && AllChunks(g, gs) && AllTrees(g, gs)
    requires NonIncreasing(ChunkFees(g, gs)) && Moving(g, gs, c) && IsLinearization(g, s, Flatten(gs) + c + rest)
    ensures AllTrees(g, Insert(g, gs, c))
    decreases |gs|
  {
    hide SeqFee, Gain, Graph.Valid, Chained, IsChunk, AllSized, IsTree, Higher, Deps, Elements, IsLinearization, Flatten, Under;
    if gs != [] && Higher(SeqFee(g, c), SeqFee(g, gs[|gs| - 1])) {
      var p, front := gs[|gs| - 1], gs[..|gs| - 1];
      FlattenLast(gs);
      assert ChunkFees(g, front) == ChunkFees(g, gs)[..|front|];
      var x := Flatten(front);
      if Deps(g, c) !! Elements(p) {
        SwapLinearization(g, s, x, p, c, rest);
        assert x + c + p + rest == x + c + (p + rest);
        SwapMoving(g, gs, c);
        InsertTrees(g, s, front, c, p + rest);
      } else {
        MergeMoving(g, s, gs, c, rest);
        assert x + p + c + rest == x + (p + c) + rest;
        InsertTrees(g, s, front, p + c, rest);
      }
    }
  }

  lemma {:induction false} PassTrees(g: Graph, lin: seq<nat>)
    requires g.Valid() && Chained(g) && AllSized(g, lin) && Elements(lin) <= g.used && IsLinearization(g, Elements(lin), lin)
    ensures AllTrees(g, PassGroups(g, lin))
  {
    hide SeqFee, IsChunk, Graph.Valid, Chained, Connected, Insert, NonIncreasing, Flatten, IsTree, Under, Gain;
    if lin != [] {
      var front, i := lin[..|lin| - 1], lin[|lin| - 1];
      var gs := PassGroups(g, front);
      PrefixLinearizes(g, lin, |lin| - 1);
      PassGroupsOk(g, front);
      PassTrees(g, front);
      SingleGroup(g, lin, i);
      NextLinearizes(g, lin, Flatten(gs));
      assert Flatten(gs) + [i] + [] == Flatten(gs) + [i];
      assert Moving(g, gs, [i]) by { SingleMoving(g, gs, i); }
      InsertTrees(g, Elements(lin), gs, [i], []);
    }
  }

  lemma SingleMoving(g: Graph, gs: seq<seq<nat>>, i: nat)
    requires g.Valid() && i in g.used && IsChunk(g, [i]) && AllSized(g, [i])
    ensures Moving(g, gs, [i])
  {
    SingleTree(g, i, if gs == [] then EMPTY else SeqFee(g, gs[|gs| - 1]));
  }

  // ----- nothing beats such groups -----

  /** What a closed part of a group gains: at most all of the group, or nothing. */
  lemma PartGain(g: Graph, c: seq<nat>, t: set<nat>, slope: FeeFrac)
    requires AllSized(g, c) && Distinct(c) && Tight(g, c) && Closed(g, Elements(c), t) && SeqFee(g, c).size > 0 && slope.size > 0
    ensures Gain(SeqFee(g, c), slope) <= 0 ==> Gain(FeeRate(g, t), slope) <= 0
    ensures Gain(SeqFee(g, c), slope) >= 0 ==> Gain(FeeRate(g, t), slope) <= Gain(SeqFee(g, c), slope)
  {
    hide Gain, FeeRate, SeqFee, AllSized, Distinct;
    var fc, ft, fr := SeqFee(g, c), FeeRate(g, t), FeeRate(g, Elements(c) - t);
    PartSize(g, c, t);
    PartSize(g, c, Elements(c) - t);
    SeqFeeIsFeeRate(g, c);
    FeeRateSplit(g, Elements(c), t);
    GainPlus(ft, fr, slope);
    GainPlus(ft, fr, fc);
    GainFlip(fc, fc);
    if Gain(fc, slope) <= 0 {
      GainTransDown(ft, fc, slope);
    }
    if Gain(fc, slope) >= 0 {
      GainTrans(fr, fc, slope);
    }
  }

  lemma {:induction false} ClosedGain(g: Graph, gs: seq<seq<nat>>, t: set<nat>, slope: FeeFrac)
    requires AllChunks(g, gs) && AllTrees(g, gs) && NonIncreasing(ChunkFees(g, gs)) && Distinct(Flatten(gs)) && slope.size > 0
    requires Closed(g, Elements(Flatten(gs)), t)
    ensures Gain(FeeRate(g, t), slope) <= BestGain(ChunkFees(g, gs), slope)
  {
    hide Gain, FeeRate, SeqFee, IsChunk, AllSized, Distinct, Rooted, Tight, NonIncreasing, Closed;
    if gs == [] {
      NoPart(g, t, slope);
    } else {
      var c, rest := gs[0], gs[1..];
      var fs := ChunkFees(g, gs);
      assert fs[1..] == ChunkFees(g, rest) && fs[0] == SeqFee(g, c);
      SplitDistinct(c, Flatten(rest));
      SplitPart(g, c, Flatten(rest), t);
      var tc, tr := t * Elements(c), t * Elements(Flatten(rest));
      assert IsTree(g, c);
      TailNonIncreasing(fs);
      ClosedGain(g, rest, tr, slope);
      GroupSized(g, c);
      PartGain(g, c, tc, slope);
      FeeRateUnion(g, tc, tr);
      GainPlus(FeeRate(g, tc), FeeRate(g, tr), slope);
      if Gain(SeqFee(g, c), slope) < 0 {
        AllLower(g, gs, slope);
      }
    }
  }

  lemma NoPart(g: Graph, t: set<nat>, slope: FeeFrac)
    requires Closed(g, Elements([]), t)
    ensures Gain(FeeRate(g, t), slope) == 0
  {
    assert t == {};
  }

  lemma SplitPart(g: Graph, a: seq<nat>, b: seq<nat>, t: set<nat>)
    requires Closed(g, Elements(a + b), t) && Elements(a) !! Elements(b)
    ensures Closed(g, Elements(a), t * Elements(a)) && Closed(g, Elements(b), t * Elements(b))
    ensures t == t * Elements(a) + t * Elements(b) && t * Elements(a) !! t * Elements(b)
  {
    assert Elements(a + b) == Elements(a) + Elements(b);
  }

  lemma TailNonIncreasing(fs: seq<FeeFrac>)
    requires fs != [] && NonIncreasing(fs)
    ensures NonIncreasing(fs[1..])
  {
  }

  lemma AllLower(g: Graph, gs: seq<seq<nat>>, slope: FeeFrac)
    requires gs != [] && AllChunks(g, gs) && NonIncreasing(ChunkFees(g, gs)) && slope.size > 0
    requires Gain(SeqFee(g, gs[0]), slope) < 0
    ensures BestGain(ChunkFees(g, gs[1..]), slope) == 0
  {
    hide SeqFee, Gain, IsChunk, AllSized;
    var fs := ChunkFees(g, gs);
    assert ChunkFees(g, gs[1..]) == fs[1..];
    GroupSized(g, gs[0]);
    forall i | 0 <= i < |fs[1..]| ensures Gain(fs[1..][i], slope) <= 0 {
      GroupSized(g, gs[i + 1]);
      assert Gain(fs[i + 1], fs[0]) <= 0;
      GainTransDown(fs[i + 1], fs[0], slope);
    }
    AllBelow(fs[1..], slope);
  }

  /** A pass over a linearization of a graph in which descendants form chains is as good as anything. */
  lemma TreePassBest(g: Graph, lin: seq<nat>, other: seq<nat>)
    requires g.Valid() && Chained(g) && AllSized(g, lin) && Elements(lin) == g.used
    requires IsLinearization(g, g.used, lin) && IsLinearization(g, g.used, other)
    ensures Dominates(Fees(g, Flatten(PassGroups(g, lin))), Fees(g, other))
  {
    hide SeqFee, IsChunk, Graph.Valid, Connected, BestGain, Gain, Flatten, PassGroups, Total, NonIncreasing, Chained, FeeRate, IsTree;
    var gs := PassGroups(g, lin);
    PassGroupsOk(g, lin);
    PassTrees(g, lin);
    forall slope: FeeFrac | slope.size > 0 ensures BestGain(Fees(g, Flatten(gs)), slope) >= BestGain(Fees(g, other), slope) {
      var n := BestPrefix(Fees(g, other), slope);
      assert Fees(g, other)[..n] == Fees(g, other[..n]);
      SeqFeeTotal(g, other[..n]);
      SeqFeeIsFeeRate(g, other[..n]);
      PrefixClosed(g, g.used, other, n);
      ClosedGain(g, gs, Elements(other[..n]), slope);
      SameSized(g, lin, Flatten(gs));
      ChunkGain(g, gs, slope);
    }
  }
}
