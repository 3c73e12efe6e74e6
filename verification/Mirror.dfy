/** The graph seen from the back: parents and children, and high and low feerates, exchanged. */
module Mirrors {
  import opened Collections
  import opened FeeFracs
  import opened Graphs
  import opened Chunkings
  import opened Components
  import opened Improvement
  import opened PostPasses

  function Negate(f: FeeFrac): FeeFrac { FeeFrac(-f.fee, f.size) }

  function MirrorEntry(e: Entry): Entry { Entry(Negate(e.feerate), e.descendants, e.ancestors) }

  function Mirror(g: Graph): Graph {
    Graph(seq(|g.entries|, i requires 0 <= i < |g.entries| => MirrorEntry(g.entries[i])), g.used)
  }

  function Reverse<T>(s: seq<T>): seq<T> {
    seq(|s|, i requires 0 <= i < |s| => s[|s| - 1 - i])
  }

  lemma MirrorAt(g: Graph, i: nat)
    ensures Mirror(g).Fee(i) == Negate(g.Fee(i))
    ensures Mirror(g).Anc(i) == g.Desc(i) && Mirror(g).Desc(i) == g.Anc(i)
  {
  }

  lemma MirrorValid(g: Graph)
    requires g.Valid()
    ensures Mirror(g).Valid()
  {
    var m := Mirror(g);
    forall i | i in g.used ensures i in m.Anc(i) && m.Anc(i) <= m.used && m.Desc(i) <= m.used && i < |m.entries| {
      MirrorAt(g, i);
    }
    forall i, j | i in g.used && j in g.used ensures j in m.Anc(i) <==> i in m.Desc(j) {
      MirrorAt(g, i);
      MirrorAt(g, j);
    }
    forall i, j, k | i in g.used && j in m.Anc(i) && k in m.Anc(j) ensures k in m.Anc(i) {
      MirrorAt(g, i);
      MirrorAt(g, j);
      assert i in g.Anc(j) && j in g.Anc(k);
      assert i in g.Anc(k);
    }
  }

  lemma ReverseTwice<T>(s: seq<T>)
    ensures Reverse(Reverse(s)) == s
  {
  }

  lemma ReverseConcat<T>(a: seq<T>, b: seq<T>)
    ensures Reverse(a + b) == Reverse(b) + Reverse(a)
  {
  }

  lemma ReverseShort(x: nat)
    ensures Reverse([x]) == [x] && Reverse<nat>([]) == []
  {
  }

  lemma ReverseElements(s: seq<nat>)
    ensures Elements(Reverse(s)) == Elements(s)
  {
    forall x | x in s ensures x in Reverse(s) {
      var k :| 0 <= k < |s| && s[k] == x;
      assert Reverse(s)[|s| - 1 - k] == x;
    }
  }

  lemma MirrorSized(g: Graph, lin: seq<nat>)
    requires AllSized(g, lin)
    ensures AllSized(Mirror(g), Reverse(lin))
  {
    forall k | 0 <= k < |lin| ensures Mirror(g).Fee(Reverse(lin)[k]).size > 0 {
      MirrorAt(g, Reverse(lin)[k]);
    }
  }

  /** Seen from the back, a linearization is one of the mirrored graph, and the other way around. */
  lemma MirrorLinearizes(g: Graph, s: set<nat>, lin: seq<nat>)
    requires g.Valid() && s <= g.used
    ensures IsLinearization(g, s, lin) <==> IsLinearization(Mirror(g), s, Reverse(lin))
  {
    hide Mirror;
    ReverseElements(lin);
    var r := Reverse(lin);
    if IsLinearization(g, s, lin) {
      forall i, j | 0 <= i < j < |r| ensures r[i] != r[j] && r[j] !in Mirror(g).Anc(r[i]) {
        MirrorPair(g, s, lin, |r| - 1 - j, |r| - 1 - i);
      }
    }
    if IsLinearization(Mirror(g), s, r) {
      forall i, j | 0 <= i < j < |lin| ensures lin[i] != lin[j] && lin[j] !in g.Anc(lin[i]) {
        assert r[|r| - 1 - j] == lin[j] && r[|r| - 1 - i] == lin[i];
        MirrorPair(g, s, lin, i, j);
      }
    }
  }

  lemma MirrorPair(g: Graph, s: set<nat>, lin: seq<nat>, i: nat, j: nat)
    requires g.Valid() && s <= g.used && Elements(lin) == s && i < |lin| && j < |lin|
    ensures lin[j] in g.Anc(lin[i]) <==> lin[i] in Mirror(g).Anc(lin[j])
  {
    hide Mirror;
    assert lin[i] in Elements(lin) && lin[j] in Elements(lin);
    MirrorAt(g, lin[j]);
  }

  lemma MirrorConnected(g: Graph, s: set<nat>)
    requires Connected(Mirror(g), s)
    ensures Connected(g, s)
  {
    hide Mirror;
    forall d | Detached(g, s, d) && d != {} ensures d == s {
      forall i | i in d ensures Mirror(g).Anc(i) * s <= d && Mirror(g).Desc(i) * s <= d {
        MirrorAt(g, i);
      }
      assert Detached(Mirror(g), s, d);
    }
  }

  // ----- gains and chunks -----

  lemma NegateGain(a: FeeFrac, b: FeeFrac)
    ensures Gain(Negate(a), Negate(b)) == -Gain(a, b)
  {
  }

  lemma NegatePlus(a: FeeFrac, b: FeeFrac)
    ensures Negate(a.Plus(b)) == Negate(b).Plus(Negate(a)) && Negate(EMPTY) == EMPTY
  {
  }

  lemma {:induction false} MirrorSeqFee(g: Graph, lin: seq<nat>)
    ensures SeqFee(Mirror(g), Reverse(lin)) == Negate(SeqFee(g, lin))
  {
    hide SeqFee, Mirror, Reverse, Negate;
    if lin == [] {
      NegatePlus(EMPTY, EMPTY);
      ReverseShort(0);
      SeqFeeNone(g);
      SeqFeeNone(Mirror(g));
    } else {
      assert lin == [lin[0]] + lin[1..];
      ReverseConcat([lin[0]], lin[1..]);
      ReverseShort(lin[0]);
      assert Reverse(lin) == Reverse(lin[1..]) + [lin[0]];
      NegatePlus(g.Fee(lin[0]), SeqFee(g, lin[1..]));
      MirrorSeqFee(g, lin[1..]);
      SeqFeeConcat(g, [lin[0]], lin[1..]);
      SeqFeeConcat(Mirror(g), Reverse(lin[1..]), [lin[0]]);
      SeqFeeOne(g, lin[0]);
      SeqFeeOne(Mirror(g), lin[0]);
      MirrorAt(g, lin[0]);
    }
  }

  /** The best prefix of an order is the whole without the worst suffix. */
  lemma {:induction false} MirrorGain(g: Graph, lin: seq<nat>, slope: FeeFrac)
    ensures BestGain(Fees(g, lin), slope)
         == Gain(SeqFee(g, lin), slope) + BestGain(Fees(Mirror(g), Reverse(lin)), Negate(slope))
  {
    hide SeqFee, Mirror, Gain, Negate, Reverse;
    if lin == [] {
      ReverseShort(0);
      SeqFeeNone(g);
      EmptyGain(g, slope);
    } else {
      var x, rest := lin[0], lin[1..];
      var m, r, neg := Mirror(g), Reverse(rest), Negate(slope);
      assert lin == [x] + rest;
      ReverseConcat([x], rest);
      ReverseShort(x);
      MirrorGain(g, rest, slope);
      FeesConcat(m, r, [x]);
      assert Fees(m, [x]) == [m.Fee(x)];
      BestGainConcat(Fees(m, r), [m.Fee(x)], neg);
      OneBestGain(m.Fee(x), neg);
      MirrorAt(g, x);
      NegateGain(g.Fee(x), slope);
      MirrorSeqFee(g, rest);
      SeqFeeTotal(m, r);
      NegateGain(SeqFee(g, rest), slope);
      SeqFeeConcat(g, [x], rest);
      SeqFeeOne(g, x);
      GainPlus(g.Fee(x), SeqFee(g, rest), slope);
      assert Fees(g, lin)[1..] == Fees(g, rest);
    }
  }

  lemma MirrorDominates(g: Graph, a: seq<nat>, b: seq<nat>)
    requires Dominates(Fees(Mirror(g), Reverse(a)), Fees(Mirror(g), Reverse(b)))
    requires SeqFee(g, a) == SeqFee(g, b)
    ensures Dominates(Fees(g, a), Fees(g, b))
  {
    hide BestGain, Gain, SeqFee, Mirror, Reverse;
    forall slope: FeeFrac | slope.size > 0 ensures BestGain(Fees(g, a), slope) >= BestGain(Fees(g, b), slope) {
      MirrorGain(g, a, slope);
      MirrorGain(g, b, slope);
      assert Negate(slope).size > 0;
    }
  }

  lemma MirrorChunk(g: Graph, c: seq<nat>)
    requires IsChunk(Mirror(g), c)
    ensures IsChunk(g, Reverse(c))
  {
    hide SeqFee, Mirror, Gain, Negate;
    var r := Reverse(c);
    forall k | 0 < k < |r| ensures Gain(SeqFee(g, r[k..]), SeqFee(g, r[..k])) > 0 {
      var n := |c| - k;
      assert c == c[..n] + c[n..];
      ReverseConcat(c[..n], c[n..]);
      assert r[..k] == Reverse(c[n..]) && r[k..] == Reverse(c[..n]);
      ReverseTwice(c[..n]);
      ReverseTwice(c[n..]);
      MirrorSeqFee(g, r[..k]);
      MirrorSeqFee(g, r[k..]);
      NegateGain(SeqFee(g, r[..k]), SeqFee(g, r[k..]));
      GainFlip(SeqFee(g, r[..k]), SeqFee(g, r[k..]));
    }
  }

  /** The groups of the mirrored order, seen from the front. */
  function MirrorGroups(gs: seq<seq<nat>>): seq<seq<nat>> {
    seq(|gs|, i requires 0 <= i < |gs| => Reverse(gs[|gs| - 1 - i]))
  }

  lemma {:induction false} FlattenMirror(gs: seq<seq<nat>>)
    ensures Flatten(MirrorGroups(gs)) == Reverse(Flatten(gs))
  {
    if gs != [] {
      FlattenMirror(gs[1..]);
      assert MirrorGroups(gs) == MirrorGroups(gs[1..]) + [Reverse(gs[0])];
      FlattenAppend(MirrorGroups(gs[1..]), Reverse(gs[0]));
      ReverseConcat(gs[0], Flatten(gs[1..]));
    }
  }

  lemma MirrorNonIncreasing(g: Graph, gs: seq<seq<nat>>)
    requires NonIncreasing(ChunkFees(Mirror(g), gs))
    ensures NonIncreasing(ChunkFees(g, MirrorGroups(gs)))
  {
    hide SeqFee, Mirror, Gain, Negate, Reverse;
    var ms, n := MirrorGroups(gs), |gs|;
    var fs := ChunkFees(Mirror(g), gs);
    forall i, j | 0 <= i < j < n ensures Gain(SeqFee(g, ms[j]), SeqFee(g, ms[i])) <= 0 {
      var a, b := gs[n - 1 - i], gs[n - 1 - j];
      assert Gain(fs[n - 1 - i], fs[n - 1 - j]) <= 0;
      ReverseTwice(a);
      ReverseTwice(b);
      MirrorSeqFee(g, Reverse(a));
      MirrorSeqFee(g, Reverse(b));
      NegateGain(SeqFee(g, ms[i]), SeqFee(g, ms[j]));
      GainFlip(SeqFee(g, ms[i]), SeqFee(g, ms[j]));
    }
  }

  /** A chunking of the mirrored order is a chunking of the order. */
  lemma MirrorChunking(g: Graph, lin: seq<nat>, gs: seq<seq<nat>>)
    requires IsChunking(Mirror(g), lin, gs)
    ensures IsChunking(g, Reverse(lin), MirrorGroups(gs))
  {
    hide Flatten, IsChunk, NonIncreasing, SeqFee, Mirror;
    FlattenMirror(gs);
    MirrorNonIncreasing(g, gs);
    forall i | 0 <= i < |gs| ensures IsChunk(g, MirrorGroups(gs)[i]) {
      MirrorChunk(g, gs[|gs| - 1 - i]);
    }
  }

  // ----- passes -----

  /** The graph and the order as a pass sees them. */
  ghost function PassGraph(g: Graph, rev: bool): Graph { if rev then Mirror(g) else g }

  ghost function PassOrder(lin: seq<nat>, rev: bool): seq<nat> { if rev then Reverse(lin) else lin }

  lemma PassInput(g: Graph, lin: seq<nat>, rev: bool)
    requires g.Cluster() && IsLinearization(g, g.used, lin)
    ensures var m, p := PassGraph(g, rev), PassOrder(lin, rev);
      && m.Valid() && m.used == g.used && AllSized(m, p) && Elements(p) == g.used && IsLinearization(m, Elements(p), p)
      && |p| == |lin|
  {
    hide Mirror, Distinct, Topological;
    LinearizationSized(g, lin);
    if rev {
      MirrorValid(g);
      MirrorSized(g, lin);
      MirrorLinearizes(g, g.used, lin);
      ReverseElements(lin);
      MirrorUsed(g);
    }
  }

  lemma MirrorUsed(g: Graph)
    ensures Mirror(g).used == g.used && |Mirror(g).entries| == |g.entries|
  {
  }

  lemma BackLinearizes(g: Graph, out: seq<nat>)
    requires g.Cluster() && IsLinearization(Mirror(g), g.used, Reverse(out))
    ensures IsLinearization(g, g.used, out)
  {
    hide Mirror, Distinct, Topological;
    MirrorLinearizes(g, g.used, out);
  }

  /** What a pass from front to back makes of an order. */
  ghost function ForwardPass(g: Graph, lin: seq<nat>): seq<nat> {
    Flatten(PassGroups(g, lin))
  }

  /** What a pass from back to front makes of an order. */
  ghost function BackwardPass(g: Graph, lin: seq<nat>): seq<nat> {
    Reverse(Flatten(PassGroups(Mirror(g), Reverse(lin))))
  }

  ghost function PostLinearized(g: Graph, lin: seq<nat>): seq<nat> {
    ForwardPass(g, BackwardPass(g, lin))
  }
}
