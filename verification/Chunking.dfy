/** Chunkings: how a linearization falls into groups of non-increasing feerate. */
module Chunkings {
  import opened FeeFracs
  import opened Graphs

  // ----- small facts about gains -----

  lemma GainFlip(a: FeeFrac, b: FeeFrac)
    ensures Gain(a, b) == -Gain(b, a) && Gain(a, a) == 0
    ensures Higher(a, b) <==> Gain(a, b) > 0
    ensures Lower(a, b) <==> Gain(a, b) < 0
  {
  }

  lemma GainMediant(a: FeeFrac, b: FeeFrac)
    ensures Gain(b, a.Plus(b)) == Gain(b, a)
    ensures Gain(a.Plus(b), a) == Gain(b, a)
    ensures Gain(a.Plus(b), b) == Gain(a, b)
    ensures Gain(a, a.Plus(b)) == Gain(a, b)
  {
  }

  lemma GainSlopePlus(x: FeeFrac, a: FeeFrac, b: FeeFrac)
    ensures Gain(x, a.Plus(b)) == Gain(x, a) + Gain(x, b)
  {
  }

  // ----- what a chunking is -----

  predicate AllSized(g: Graph, list: seq<nat>) {
    forall i :: 0 <= i < |list| ==> g.Fee(list[i]).size > 0
  }

  lemma SizedPositive(g: Graph, list: seq<nat>)
    requires AllSized(g, list)
    ensures Positive(Fees(g, list)) && SeqFee(g, list).size >= 0
    ensures list != [] ==> SeqFee(g, list).size > 0
  {
    TotalPositive(Fees(g, list));
  }

  /** However a chunk is cut in two, its second part has the strictly higher feerate. */
  ghost predicate IsChunk(g: Graph, c: seq<nat>) {
    c != [] && forall k :: 0 < k < |c| ==> Gain(SeqFee(g, c[k..]), SeqFee(g, c[..k])) > 0
  }

  function Flatten(cs: seq<seq<nat>>): seq<nat> {
    if cs == [] then [] else cs[0] + Flatten(cs[1..])
  }

  function ChunkFees(g: Graph, cs: seq<seq<nat>>): seq<FeeFrac> {
    seq(|cs|, i requires 0 <= i < |cs| => SeqFee(g, cs[i]))
  }

  /** `cs` cuts `list` into chunks of non-increasing feerate. */
  ghost predicate IsChunking(g: Graph, list: seq<nat>, cs: seq<seq<nat>>) {
    && Flatten(cs) == list
    && (forall i :: 0 <= i < |cs| ==> IsChunk(g, cs[i]))
    && NonIncreasing(ChunkFees(g, cs))
  }

  lemma {:induction false} FlattenConcat(a: seq<seq<nat>>, b: seq<seq<nat>>)
    ensures Flatten(a + b) == Flatten(a) + Flatten(b)
  {
    if a == [] {
      assert a + b == b;
    } else {
      assert (a + b)[1..] == a[1..] + b;
      FlattenConcat(a[1..], b);
    }
  }

  lemma FlattenOne(c: seq<nat>)
    ensures Flatten([c]) == c
  {
    assert Flatten([c]) == c + Flatten([c][1..]);
  }

  lemma FlattenLast(cs: seq<seq<nat>>)
    requires cs != []
    ensures Flatten(cs) == Flatten(cs[..|cs| - 1]) + cs[|cs| - 1]
  {
    var last := cs[|cs| - 1];
    assert cs == cs[..|cs| - 1] + [last];
    FlattenConcat(cs[..|cs| - 1], [last]);
    FlattenOne(last);
  }

  lemma FlattenSplit(cs: seq<seq<nat>>, k: nat)
    requires k <= |cs|
    ensures Flatten(cs) == Flatten(cs[..k]) + Flatten(cs[k..])
  {
    assert cs == cs[..k] + cs[k..];
    FlattenConcat(cs[..k], cs[k..]);
  }

  /** Appending a chunk of strictly higher feerate to a chunk gives a chunk. */
  lemma MergeChunks(g: Graph, a: seq<nat>, b: seq<nat>)
    requires AllSized(g, a) && AllSized(g, b) && IsChunk(g, a) && IsChunk(g, b)
    requires Gain(SeqFee(g, b), SeqFee(g, a)) > 0
    ensures IsChunk(g, a + b)
  {
    var c := a + b;
    forall k | 0 < k < |c| ensures Gain(SeqFee(g, c[k..]), SeqFee(g, c[..k])) > 0 {
      if k < |a| {
        assert c[..k] == a[..k] && c[k..] == a[k..] + b;
        MergeCutFirst(g, a, b, k);
      } else if k == |a| {
        assert c[..k] == a && c[k..] == b;
      } else {
        assert c[..k] == a + b[..k - |a|] && c[k..] == b[k - |a|..];
        MergeCutSecond(g, a, b, k - |a|);
      }
    }
  }

  lemma MergeCutFirst(g: Graph, a: seq<nat>, b: seq<nat>, k: nat)
    requires AllSized(g, a) && AllSized(g, b) && b != [] && 0 < k < |a|
    requires Gain(SeqFee(g, a[k..]), SeqFee(g, a[..k])) > 0
    requires Gain(SeqFee(g, b), SeqFee(g, a)) > 0
    ensures Gain(SeqFee(g, a[k..] + b), SeqFee(g, a[..k])) > 0
  {
    var p, r, fa, fb := SeqFee(g, a[..k]), SeqFee(g, a[k..]), SeqFee(g, a), SeqFee(g, b);
    SizedPositive(g, a[..k]);
    SizedPositive(g, a);
    SizedPositive(g, b);
    assert a == a[..k] + a[k..];
    SeqFeeConcat(g, a[..k], a[k..]);
    GainMediant(p, r);
    GainTrans(fb, fa, p);
    SeqFeeConcat(g, a[k..], b);
    GainPlus(r, fb, p);
  }

  lemma MergeCutSecond(g: Graph, a: seq<nat>, b: seq<nat>, k: nat)
    requires AllSized(g, a) && AllSized(g, b) && a != [] && 0 < k < |b|
    requires Gain(SeqFee(g, b[k..]), SeqFee(g, b[..k])) > 0
    requires Gain(SeqFee(g, b), SeqFee(g, a)) > 0
    ensures Gain(SeqFee(g, b[k..]), SeqFee(g, a + b[..k])) > 0
  {
    var p, r, fa, fb := SeqFee(g, b[..k]), SeqFee(g, b[k..]), SeqFee(g, a), SeqFee(g, b);
    SizedPositive(g, b[k..]);
    SizedPositive(g, a);
    SizedPositive(g, b);
    assert b == b[..k] + b[k..];
    SeqFeeConcat(g, b[..k], b[k..]);
    GainMediant(p, r);
    GainTrans(r, fb, fa);
    SeqFeeConcat(g, a, b[..k]);
    GainSlopePlus(r, fa, p);
  }

  // ----- chunking from scratch -----

  /** Add a chunk at the end, absorbing final chunks while they have lower feerate. */
  function Push(g: Graph, cs: seq<seq<nat>>, c: seq<nat>): seq<seq<nat>>
    decreases |cs|
  {
    if cs != [] && Higher(SeqFee(g, c), SeqFee(g, cs[|cs| - 1]))
    then Push(g, cs[..|cs| - 1], cs[|cs| - 1] + c)
    else cs + [c]
  }

  /** The chunking of a list, computed one transaction at a time. */
  function ChunksOf(g: Graph, list: seq<nat>): seq<seq<nat>> {
    if list == [] then []
    else Push(g, ChunksOf(g, list[..|list| - 1]), [list[|list| - 1]])
  }

  lemma ChunksOfAppend(g: Graph, list: seq<nat>, i: nat)
    ensures ChunksOf(g, list + [i]) == Push(g, ChunksOf(g, list), [i])
  {
    assert (list + [i])[..|list|] == list;
  }

  lemma SizedParts(g: Graph, a: seq<nat>, b: seq<nat>)
    requires AllSized(g, a + b)
    ensures AllSized(g, a) && AllSized(g, b)
  {
    assert forall i :: 0 <= i < |a| ==> (a + b)[i] == a[i];
    assert forall i :: 0 <= i < |b| ==> (a + b)[|a| + i] == b[i];
  }

  lemma {:induction false} PushIsChunking(g: Graph, cs: seq<seq<nat>>, c: seq<nat>)
    requires IsChunking(g, Flatten(cs), cs) && IsChunk(g, c)
    requires AllSized(g, Flatten(cs) + c)
    ensures IsChunking(g, Flatten(cs) + c, Push(g, cs, c))
    decreases |cs|
  {
    hide Gain, SeqFee;
    if cs == [] {
      FlattenOne(c);
      assert Push(g, cs, c) == [c];
    } else {
      var front, last := cs[..|cs| - 1], cs[|cs| - 1];
      FlattenLast(cs);
      SizedParts(g, Flatten(cs), c);
      SizedParts(g, Flatten(front), last);
      GainFlip(SeqFee(g, c), SeqFee(g, last));
      if Higher(SeqFee(g, c), SeqFee(g, last)) {
        MergeChunks(g, last, c);
        assert Flatten(front) + (last + c) == Flatten(cs) + c;
        assert ChunkFees(g, front) == ChunkFees(g, cs)[..|front|];
        PushIsChunking(g, front, last + c);
      } else {
        PushAtEnd(g, cs, c);
      }
    }
  }

  lemma NonIncreasingAppend(fs: seq<FeeFrac>, f: FeeFrac)
    requires Positive(fs) && NonIncreasing(fs) && fs != [] && f.size > 0
    requires Gain(f, fs[|fs| - 1]) <= 0
    ensures NonIncreasing(fs + [f])
  {
    forall i | 0 <= i < |fs| ensures Gain(f, fs[i]) <= 0 {
      if i < |fs| - 1 {
        GainTransDown(f, fs[|fs| - 1], fs[i]);
      }
    }
  }

  lemma PushAtEnd(g: Graph, cs: seq<seq<nat>>, c: seq<nat>)
    requires IsChunking(g, Flatten(cs), cs) && IsChunk(g, c) && cs != []
    requires AllSized(g, Flatten(cs)) && AllSized(g, c)
    requires Gain(SeqFee(g, c), SeqFee(g, cs[|cs| - 1])) <= 0
    ensures IsChunking(g, Flatten(cs) + c, cs + [c])
  {
    hide Gain, SeqFee, Flatten, NonIncreasing, ChunkFees;
    FlattenConcat(cs, [c]);
    FlattenOne(c);
    ChunkFeesAppend(g, cs, c);
    SizedPositive(g, c);
    ChunkFeesPositive(g, cs);
    NonIncreasingAppend(ChunkFees(g, cs), SeqFee(g, c));
  }

  lemma ChunkFeesAppend(g: Graph, cs: seq<seq<nat>>, c: seq<nat>)
    ensures ChunkFees(g, cs + [c]) == ChunkFees(g, cs) + [SeqFee(g, c)]
    ensures cs != [] ==> ChunkFees(g, cs)[|cs| - 1] == SeqFee(g, cs[|cs| - 1])
  {
  }

  lemma ChunkFeesPositive(g: Graph, cs: seq<seq<nat>>)
    requires AllSized(g, Flatten(cs)) && forall i :: 0 <= i < |cs| ==> IsChunk(g, cs[i])
    ensures |ChunkFees(g, cs)| == |cs| && Positive(ChunkFees(g, cs))
  {
    forall i | 0 <= i < |cs| ensures SeqFee(g, cs[i]).size > 0 {
      ChunkSized(g, cs, i);
    }
  }

  lemma ChunkSized(g: Graph, cs: seq<seq<nat>>, i: nat)
    requires AllSized(g, Flatten(cs)) && i < |cs| && cs[i] != []
    ensures AllSized(g, cs[i]) && SeqFee(g, cs[i]).size > 0
  {
    hide SeqFee, AllSized;
    FlattenSplit(cs, i);
    assert Flatten(cs[i..]) == cs[i] + Flatten(cs[i..][1..]);
    SizedParts(g, Flatten(cs[..i]), Flatten(cs[i..]));
    SizedParts(g, cs[i], Flatten(cs[i..][1..]));
    SizedPositive(g, cs[i]);
  }

  /** The chunks computed from scratch are a chunking. */
  lemma {:induction false} ChunksOfIsChunking(g: Graph, list: seq<nat>)
    requires AllSized(g, list)
    ensures IsChunking(g, list, ChunksOf(g, list))
  {
    if list != [] {
      var front := list[..|list| - 1];
      ChunksOfIsChunking(g, front);
      assert list == front + [list[|list| - 1]];
      PushIsChunking(g, ChunksOf(g, front), [list[|list| - 1]]);
    }
  }

  // ----- uniqueness -----

  /** Where no chunk rises above a line, no prefix does. */
  lemma {:induction false} PrefixBelow(g: Graph, cs: seq<seq<nat>>, slope: FeeFrac, n: nat)
    requires AllSized(g, Flatten(cs)) && slope.size > 0 && n <= |Flatten(cs)|
    requires forall i :: 0 <= i < |cs| ==> IsChunk(g, cs[i]) && Gain(SeqFee(g, cs[i]), slope) <= 0
    ensures Gain(SeqFee(g, Flatten(cs)[..n]), slope) <= 0
  {
    var list := Flatten(cs);
    if cs == [] || n == 0 {
      assert list[..n] == [];
    } else {
      var c := cs[0];
      ChunkSized(g, cs, 0);
      if n < |c| {
        assert list[..n] == c[..n];
        ChunkPrefixLower(g, c, n);
        SizedPositive(g, c[..n]);
        GainTransDown(SeqFee(g, c[..n]), SeqFee(g, c), slope);
      } else {
        assert AllSized(g, Flatten(cs[1..])) by {
          forall i | 0 <= i < |Flatten(cs[1..])| ensures g.Fee(Flatten(cs[1..])[i]).size > 0 {
            assert list[|c| + i] == Flatten(cs[1..])[i];
          }
        }
        PrefixBelow(g, cs[1..], slope, n - |c|);
        assert list[..n] == c + Flatten(cs[1..])[..n - |c|];
        SeqFeeConcat(g, c, Flatten(cs[1..])[..n - |c|]);
        GainPlus(SeqFee(g, c), SeqFee(g, Flatten(cs[1..])[..n - |c|]), slope);
      }
    }
  }

  lemma ChunkPrefixLower(g: Graph, c: seq<nat>, n: nat)
    requires IsChunk(g, c) && 0 < n < |c|
    ensures Gain(SeqFee(g, c[..n]), SeqFee(g, c)) < 0
  {
    assert c == c[..n] + c[n..];
    SeqFeeConcat(g, c[..n], c[n..]);
    GainMediant(SeqFee(g, c[..n]), SeqFee(g, c[n..]));
    GainFlip(SeqFee(g, c[..n]), SeqFee(g, c[n..]));
  }

  /** The first chunk is the shortest among the non-empty prefixes of highest feerate. */
  lemma FirstChunkBest(g: Graph, list: seq<nat>, cs: seq<seq<nat>>, n: nat)
    requires AllSized(g, list) && IsChunking(g, list, cs) && 0 < n <= |list|
    ensures cs != [] && |cs[0]| <= |list| && list[..|cs[0]|] == cs[0]
    ensures Gain(SeqFee(g, list[..n]), SeqFee(g, cs[0])) <= 0
    ensures n < |cs[0]| ==> Gain(SeqFee(g, list[..n]), SeqFee(g, cs[0])) < 0
  {
    var fs := ChunkFees(g, cs);
    ChunkSized(g, cs, 0);
    forall i | 0 <= i < |cs| ensures Gain(SeqFee(g, cs[i]), fs[0]) <= 0 {
      GainFlip(fs[0], fs[0]);
      assert SeqFee(g, cs[i]) == fs[i];
    }
    PrefixBelow(g, cs, fs[0], n);
    if n < |cs[0]| {
      assert list[..n] == cs[0][..n];
      ChunkPrefixLower(g, cs[0], n);
    }
  }

  lemma FirstChunkNoLonger(g: Graph, list: seq<nat>, cs: seq<seq<nat>>, ds: seq<seq<nat>>)
    requires AllSized(g, list) && IsChunking(g, list, cs) && IsChunking(g, list, ds) && list != []
    ensures cs != [] && ds != [] && |ds[0]| <= |cs[0]|
  {
    FirstChunkBest(g, list, cs, 1);
    FirstChunkBest(g, list, ds, 1);
    var k := |cs[0]|;
    var d := ds[0];
    if k < |d| {
      FirstChunkBest(g, list, cs, |d|);
      assert d[..k] == cs[0];
      assert d == d[..k] + d[k..];
      SeqFeeConcat(g, d[..k], d[k..]);
      GainMediant(SeqFee(g, d[..k]), SeqFee(g, d[k..]));
    }
  }

  lemma TailIsChunking(g: Graph, list: seq<nat>, cs: seq<seq<nat>>)
    requires IsChunking(g, list, cs) && cs != []
    ensures |cs[0]| <= |list| && IsChunking(g, list[|cs[0]|..], cs[1..])
  {
    assert ChunkFees(g, cs[1..]) == ChunkFees(g, cs)[1..];
  }

  /** A list has one chunking. */
  lemma {:induction false} ChunkingUnique(g: Graph, list: seq<nat>, cs: seq<seq<nat>>, ds: seq<seq<nat>>)
    requires AllSized(g, list) && IsChunking(g, list, cs) && IsChunking(g, list, ds)
    ensures cs == ds
    decreases |cs|
  {
    if list == [] {
      EmptyChunking(g, list, cs);
      EmptyChunking(g, list, ds);
    } else {
      FirstChunkNoLonger(g, list, cs, ds);
      FirstChunkNoLonger(g, list, ds, cs);
      FirstChunkBest(g, list, cs, 1);
      FirstChunkBest(g, list, ds, 1);
      assert cs[0] == ds[0];
      TailIsChunking(g, list, cs);
      TailIsChunking(g, list, ds);
      ChunkingUnique(g, list[|cs[0]|..], cs[1..], ds[1..]);
      assert cs == [cs[0]] + cs[1..] && ds == [ds[0]] + ds[1..];
    }
  }

  lemma EmptyChunking(g: Graph, list: seq<nat>, cs: seq<seq<nat>>)
    requires IsChunking(g, list, cs)
    ensures cs == [] <==> list == []
  {
    assert Flatten(cs) == if cs == [] then [] else cs[0] + Flatten(cs[1..]);
  }

  /** Dropping the first chunk of a list leaves the other chunks as they were. */
  lemma ChunksOfTail(g: Graph, list: seq<nat>)
    requires AllSized(g, list) && list != []
    ensures var cs := ChunksOf(g, list);
      && cs != [] && |cs[0]| <= |list| && list[..|cs[0]|] == cs[0]
      && ChunksOf(g, list[|cs[0]|..]) == cs[1..]
  {
    var cs := ChunksOf(g, list);
    ChunksOfIsChunking(g, list);
    FirstChunkBest(g, list, cs, 1);
    TailIsChunking(g, list, cs);
    ChunksOfIsChunking(g, list[|cs[0]|..]);
    ChunkingUnique(g, list[|cs[0]|..], ChunksOf(g, list[|cs[0]|..]), cs[1..]);
  }

  // ----- chunks and gains -----

  /** Inside a chunk no prefix gains more than nothing or everything. */
  lemma ChunkSolid(g: Graph, c: seq<nat>, slope: FeeFrac)
    requires AllSized(g, c) && IsChunk(g, c) && slope.size > 0
    ensures BestGain(Fees(g, c), slope)
         == if Gain(SeqFee(g, c), slope) > 0 then Gain(SeqFee(g, c), slope) else 0
  {
    hide Gain, SeqFee;
    var fs := Fees(g, c);
    var n := BestPrefix(fs, slope);
    PrefixGain(fs, |fs|, slope);
    assert fs[..|fs|] == fs;
    assert fs[..n] == Fees(g, c[..n]);
    assert Gain(SeqFee(g, c[..n]), slope) == BestGain(fs, slope) by { SeqFeeTotal(g, c[..n]); }
    SeqFeeTotal(g, c);
    if 0 < n < |c| && BestGain(fs, slope) > 0 {
      SizedPositive(g, c[..n]);
      SizedPositive(g, c[n..]);
      GainTrans(SeqFee(g, c[n..]), SeqFee(g, c[..n]), slope);
      assert c == c[..n] + c[n..];
      SeqFeeConcat(g, c[..n], c[n..]);
      GainPlus(SeqFee(g, c[..n]), SeqFee(g, c[n..]), slope);
    } else if n == 0 {
      NoGain(slope);
    }
  }

  lemma SeqFeeTotal(g: Graph, c: seq<nat>)
    ensures SeqFee(g, c) == Total(Fees(g, c))
  {
  }

  lemma NoGain(slope: FeeFrac)
    ensures Gain(Total([]), slope) == 0
  {
  }

  /** Only the ends of chunks matter for how high prefixes rise. */
  lemma {:induction false} ChunkGain(g: Graph, cs: seq<seq<nat>>, slope: FeeFrac)
    requires AllSized(g, Flatten(cs)) && slope.size > 0
    requires forall i :: 0 <= i < |cs| ==> IsChunk(g, cs[i])
    ensures BestGain(Fees(g, Flatten(cs)), slope) == BestGain(ChunkFees(g, cs), slope)
    ensures SeqFee(g, Flatten(cs)) == Total(ChunkFees(g, cs))
  {
    if cs != [] {
      var c, rest := cs[0], Flatten(cs[1..]);
      ChunkSized(g, cs, 0);
      assert AllSized(g, rest) by {
        forall i | 0 <= i < |rest| ensures g.Fee(rest[i]).size > 0 {
          assert Flatten(cs)[|c| + i] == rest[i];
        }
      }
      ChunkGain(g, cs[1..], slope);
      ChunkSolid(g, c, slope);
      FeesConcat(g, c, rest);
      BestGainConcat(Fees(g, c), Fees(g, rest), slope);
      SeqFeeConcat(g, c, rest);
      assert ChunkFees(g, cs)[1..] == ChunkFees(g, cs[1..]);
    }
  }
}
