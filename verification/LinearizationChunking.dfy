/** The chunking of what remains of a linearization while subsets are removed from it. */
module LinearizationChunkings {
  import opened Collections
  import opened FeeFracs
  import opened Graphs
  import opened Chunkings
  import opened Improvement

  /** A set of transactions together with their aggregate feerate. */
  datatype SetInfo = SetInfo(transactions: set<nat>, feerate: FeeFrac)

  const EMPTY_INFO := SetInfo({}, EMPTY)

  /** The set and feerate of a chunk. */
  function Info(g: Graph, c: seq<nat>): SetInfo {
    SetInfo(Elements(c), SeqFee(g, c))
  }

  function Infos(g: Graph, cs: seq<seq<nat>>): seq<SetInfo> {
    seq(|cs|, i requires 0 <= i < |cs| => Info(g, cs[i]))
  }

  function Join(a: SetInfo, b: SetInfo): SetInfo {
    SetInfo(a.transactions + b.transactions, a.feerate.Plus(b.feerate))
  }

  lemma InfoOne(g: Graph, i: nat)
    ensures Info(g, [i]) == SetInfo({i}, g.Fee(i))
  {
    hide SeqFee;
    SeqFeeOne(g, i);
    assert Elements([i]) == {i};
  }

  lemma InfoConcat(g: Graph, a: seq<nat>, b: seq<nat>)
    ensures Info(g, a + b) == Join(Info(g, b), Info(g, a))
  {
    hide SeqFee;
    SeqFeeConcat(g, a, b);
    assert Elements(a + b) == Elements(b) + Elements(a);
  }

  /** Compute the feerates of the chunks of a linearization. */
  method ChunkLinearization(g: Graph, linearization: seq<nat>) returns (ret: seq<FeeFrac>)
    ensures ret == ChunkFees(g, ChunksOf(g, linearization))
  {
    hide SeqFee;
    ret := [];
    ghost var cs := [];
    for n := 0 to |linearization|
      invariant cs == ChunksOf(g, linearization[..n]) && ret == ChunkFees(g, cs)
    {
      var chunk := g.Fee(linearization[n]);
      ghost var c, before := [linearization[n]], cs;
      assert SeqFee(g, c) == chunk by { SeqFeeOne(g, linearization[n]); }
      while ret != [] && Higher(chunk, ret[|ret| - 1])
        invariant ret == ChunkFees(g, cs) && chunk == SeqFee(g, c)
        invariant Push(g, cs, c) == Push(g, before, [linearization[n]])
        decreases |ret|
      {
        SeqFeeConcat(g, cs[|cs| - 1], c);
        chunk := chunk.Plus(ret[|ret| - 1]);
        c := cs[|cs| - 1] + c;
        ret, cs := ret[..|ret| - 1], cs[..|cs| - 1];
      }
      ret, cs := ret + [chunk], cs + [c];
      assert linearization[..n + 1][..n] == linearization[..n];
    }
    assert linearization[..|linearization|] == linearization;
  }

  /** Add one transaction to the chunks so far, absorbing final chunks of lower feerate. */
  method Absorb(g: Graph, chunks: seq<SetInfo>, idx: nat, ghost cs: seq<seq<nat>>) returns (r: seq<SetInfo>)
    requires chunks == Infos(g, cs)
    ensures r == Infos(g, Push(g, cs, [idx]))
  {
    hide SeqFee, Elements;
    r := chunks;
    var add := SetInfo({idx}, g.Fee(idx));
    InfoOne(g, idx);
    ghost var c, left := [idx], cs;
    while r != [] && Higher(add.feerate, r[|r| - 1].feerate)
      invariant r == Infos(g, left) && add == Info(g, c)
      invariant Push(g, left, c) == Push(g, cs, [idx])
      decreases |r|
    {
      InfoConcat(g, left[|left| - 1], c);
      add := Join(add, r[|r| - 1]);
      c := left[|left| - 1] + c;
      r, left := r[..|r| - 1], left[..|left| - 1];
    }
    r := r + [add];
  }

  // ----- removing the first chunk -----

  /** If exactly a prefix is removed, the remaining list is the tail behind it. */
  lemma FilterTail(c: seq<nat>, rest: seq<nat>, keep: set<nat>)
    requires Elements(c) !! keep && Elements(rest) <= keep
    ensures Filter(c + rest, keep) == rest
  {
    FilterConcat(c, rest, keep);
    FilterAll(c, keep);
    FilterAll(rest, keep);
  }

  /** Whatever was interspersed, dropping as many entries as the first chunk has loses nothing. */
  lemma DropFirstChunk(list: seq<nat>, todo: set<nat>, c: seq<nat>, keep: set<nat>)
    requires c <= Filter(list, todo) && keep <= todo && Elements(c) !! keep
    ensures |c| <= |list| && Filter(list[|c|..], keep) == Filter(list, keep)
  {
    var pre, post := list[..|c|], list[|c|..];
    assert list == pre + post;
    FilterConcat(pre, post, todo);
    FilterConcat(pre, post, keep);
    var kept := Filter(pre, todo);
    assert kept <= c;
    forall x | x in pre ensures x !in keep {
      if x in todo {
        assert x in kept;
        var k :| 0 <= k < |kept| && kept[k] == x;
        assert c[k] == x;
        assert x in Elements(c);
      }
    }
    FilterAll(pre, keep);
  }

  lemma SplitDistinct(a: seq<nat>, b: seq<nat>)
    requires Distinct(a + b)
    ensures Distinct(a) && Distinct(b) && Elements(a) !! Elements(b)
    ensures Elements(a + b) == Elements(a) + Elements(b)
  {
    assert forall i :: 0 <= i < |a| ==> (a + b)[i] == a[i];
    assert forall i :: 0 <= i < |b| ==> (a + b)[|a| + i] == b[i];
  }

  /** Removing the first chunk of a list leaves its tail, with the other chunks. */
  lemma FilterFirstChunk(g: Graph, r: seq<nat>, keep: set<nat>)
    requires Distinct(r) && AllSized(g, r) && r != []
    requires ChunksOf(g, r) != [] && keep == Elements(r) - Elements(ChunksOf(g, r)[0])
    ensures var c := ChunksOf(g, r)[0]; c <= r && |Elements(c)| == |c|
    ensures ChunksOf(g, Filter(r, keep)) == ChunksOf(g, r)[1..]
  {
    hide ChunksOf, Filter;
    ChunksOfTail(g, r);
    var c := ChunksOf(g, r)[0];
    var rest := r[|c|..];
    assert r == c + rest;
    SplitDistinct(c, rest);
    FilterTail(c, rest, keep);
    DistinctCount(c);
  }

  /** Removing exactly the first chunk: the fast path needs no rechunking. */
  lemma RemoveFirstChunk(g: Graph, original: seq<nat>, list: seq<nat>, todo: set<nat>, subset: set<nat>)
    requires Distinct(original) && AllSized(g, original) && todo <= Elements(original)
    requires Filter(list, todo) == Filter(original, todo) != []
    requires var cs := ChunksOf(g, Filter(original, todo)); cs != [] && Elements(cs[0]) == subset
    ensures |subset| <= |list|
    ensures Filter(list[|subset|..], todo - subset) == Filter(original, todo - subset)
    ensures ChunksOf(g, Filter(original, todo - subset)) == ChunksOf(g, Filter(original, todo))[1..]
  {
    hide ChunksOf, Filter;
    var r := Filter(original, todo);
    var keep := todo - subset;
    assert AllSized(g, r) by { assert forall i :: 0 <= i < |r| ==> r[i] in r; }
    FilterDistinct(original, todo);
    assert Elements(r) == todo;
    FilterFirstChunk(g, r, keep);
    assert todo * keep == keep;
    FilterFilter(list, todo, keep);
    FilterFilter(original, todo, keep);
    DropFirstChunk(list, todo, ChunksOf(g, r)[0], keep);
  }

  class LinearizationChunking {
    const g: Graph
    ghost const original: seq<nat>
    /** The linearization started from, possibly with a removed prefix stripped. */
    var linearization: seq<nat>
    /** Chunk sets and their feerates, of what remains of the linearization. */
    var chunks: seq<SetInfo>
    /** How large a prefix of `chunks` corresponds to removed transactions. */
    var skip: nat
    /** Which transactions remain in the linearization. */
    var todo: set<nat>

    /** What remains of the linearization. */
    ghost function Remaining(): seq<nat>
      reads this
    {
      Filter(original, todo)
    }

    ghost predicate Tracks()
      reads this
    {
      && Distinct(original) && AllSized(g, original)
      && todo <= Elements(original)
      && Filter(linearization, todo) == Remaining()
    }

    /** The chunks held are those of the remaining linearization, chunked from scratch. */
    ghost predicate Valid()
      reads this
    {
      && Tracks()
      && skip <= |chunks|
      && chunks[skip..] == Infos(g, ChunksOf(g, Remaining()))
    }

    constructor (g: Graph, lin: seq<nat>)
      requires Distinct(lin) && AllSized(g, lin)
      ensures Valid() && this.g == g && original == lin && todo == Elements(lin)
    {
      this.g := g;
      original := lin;
      linearization := lin;
      chunks := [];
      skip := 0;
      todo := Elements(lin);
      new;
      BuildChunks();
    }

    /** Chop off the initial part of `linearization` that is already done. */
    method StripDone()
      requires Tracks()
      modifies this`linearization
      ensures Tracks()
    {
      while linearization != [] && linearization[0] !in todo
        invariant Filter(linearization, todo) == old(Filter(linearization, todo))
      {
        linearization := linearization[1..];
      }
    }

    /** Fill `chunks`, and remove the done prefix of `linearization`. */
    method BuildChunks()
      requires Tracks() && chunks == [] && skip == 0
      modifies this`linearization, this`chunks
      ensures Valid()
    {
      hide SeqFee, Elements, Push, AllSized, Distinct;
      StripDone();
      var lin := linearization;
      ghost var cs := ChunksOf(g, []);
      assert lin[..0] == [] && Filter(lin[..0], todo) == [];
      for n := 0 to |lin|
        invariant linearization == lin && chunks == Infos(g, cs)
        invariant cs == ChunksOf(g, Filter(lin[..n], todo))
      {
        hide Filter, ChunksOf;
        var idx := lin[n];
        assert lin[..n + 1] == lin[..n] + [idx];
        FilterAppend(lin[..n], idx, todo);
        if idx in todo {
          ChunksOfAppend(g, Filter(lin[..n], todo), idx);
          chunks := Absorb(g, chunks, idx, cs);
          cs := Push(g, cs, [idx]);
        }
      }
      assert lin[..|lin|] == lin;
    }

    /** How many chunks remain. */
    function NumChunksLeft(): nat
      requires skip <= |chunks|
      reads this
    {
      |chunks| - skip
    }

    /** Chunk 0 is the highest-feerate prefix of what remains. */
    function GetChunk(n: nat): SetInfo
      requires skip <= |chunks| && n < NumChunksLeft()
      reads this
    {
      chunks[n + skip]
    }

    /** Chunks are left as long as transactions are. */
    lemma ChunksLeft()
      requires Valid()
      ensures NumChunksLeft() == |ChunksOf(g, Remaining())|
      ensures NumChunksLeft() == 0 <==> todo == {}
    {
      assert |chunks[skip..]| == |chunks| - skip;
      RemainingSized();
      ChunksOfIsChunking(g, Remaining());
      EmptyChunking(g, Remaining(), ChunksOf(g, Remaining()));
      if todo != {} {
        var x :| x in todo;
        assert x in Remaining();
      } else {
        FilterAll(original, todo);
      }
    }

    lemma RemainingSized()
      requires Tracks()
      ensures AllSized(g, Remaining()) && Distinct(Remaining()) && Elements(Remaining()) == todo
    {
      FilterDistinct(original, todo);
      forall i | 0 <= i < |Remaining()| ensures g.Fee(Remaining()[i]).size > 0 {
        assert Remaining()[i] in Remaining();
        assert Remaining()[i] in original;
      }
    }

    /** The two ways to remove a subset: skip the first chunk, or chunk what is left again. */
    method MarkDone(subset: set<nat>)
      requires Valid() && subset != {} && subset <= todo
      modifies this
      ensures Valid() && todo == old(todo) - subset
    {
      hide ChunksOf, Filter, SeqFee, AllSized, Distinct;
      ghost var cs := ChunksOf(g, Remaining());
      ChunksLeft();
      FilterFilter(linearization, todo, todo - subset);
      FilterFilter(original, todo, todo - subset);
      assert todo * (todo - subset) == todo - subset;
      if GetChunk(0).transactions == subset {
        assert chunks[skip..][0] == GetChunk(0);
        assert chunks[skip + 1..] == chunks[skip..][1..] == Infos(g, cs[1..]);
        RemoveFirstChunk(g, original, linearization, todo, subset);
        todo := todo - subset;
        skip := skip + 1;
        linearization := linearization[|subset|..];
      } else {
        todo := todo - subset;
        chunks := [];
        skip := 0;
        BuildChunks();
      }
    }

    /** Cut `subset` by the first `k` remaining chunks, for the least `k` that leaves its feerate as high. */
    method IntersectPrefixes(subset: SetInfo) returns (r: SetInfo, ghost k: nat)
      requires Valid() && subset.transactions <= todo
      requires subset.feerate == FeeRate(g, subset.transactions)
      ensures ShortestIntersection(g, ChunksOf(g, Remaining()), subset.transactions, k)
      ensures r.transactions == Intersection(ChunksOf(g, Remaining()), subset.transactions, k)
      ensures r.feerate == FeeRate(g, r.transactions)
    {
      hide ChunksOf, Filter, FeeRate, SeqFee, Gain, Flatten;
      ghost var cs, s := ChunksOf(g, Remaining()), subset.transactions;
      ChunksLeft();
      var accumulator := EMPTY_INFO;
      CoveredNone(cs);
      assert Intersection(cs, s, 0) == {};
      FeeRateEmpty(g);
      GainFlip(subset.feerate, subset.feerate);
      for i := 0 to NumChunksLeft()
        invariant accumulator == SetInfo(Intersection(cs, s, i), FeeRate(g, Intersection(cs, s, i)))
        invariant forall m :: 0 <= m <= i ==>
          Intersection(cs, s, m) == {} || Gain(FeeRate(g, Intersection(cs, s, m)), FeeRate(g, s)) < 0
      {
        assert GetChunk(i) == chunks[skip..][i] == Info(g, cs[i]);
        CoveredStep(cs, i);
        ghost var t := Intersection(cs, s, i);
        var toAdd := GetChunk(i).transactions * subset.transactions;
        assert Intersection(cs, s, i + 1) == t + toAdd;
        assert toAdd == {} ==> t + toAdd == t;
        if toAdd != {} {
          accumulator := accumulator.(transactions := accumulator.transactions + toAdd);
          if accumulator.transactions == subset.transactions {
            return subset, i + 1;
          }
          RemainingSized();
          ChunksOfIsChunking(g, Remaining());
          CoveredDisjoint(Remaining(), cs, i);
          FeeRateUnion(g, t, toAdd);
          accumulator := accumulator.(feerate := accumulator.feerate.Plus(FeeRate(g, toAdd)));
          GainFlip(accumulator.feerate, subset.feerate);
          if !Lower(accumulator.feerate, subset.feerate) {
            return accumulator, i + 1;
          }
        }
      }
      CoveredAll(cs);
      RemainingSized();
      ChunksOfIsChunking(g, Remaining());
      assert Intersection(cs, s, |cs|) == s;
      return subset, |cs|;
    }
  }

  lemma CoveredNone(cs: seq<seq<nat>>)
    ensures Covered(cs, 0) == {}
  {
  }

  lemma CoveredAll(cs: seq<seq<nat>>)
    ensures Covered(cs, |cs|) == Elements(Flatten(cs))
  {
    assert cs[..|cs|] == cs;
  }

  lemma CoveredStep(cs: seq<seq<nat>>, i: nat)
    requires i < |cs|
    ensures Covered(cs, i + 1) == Covered(cs, i) + Elements(cs[i])
  {
    assert cs[..i + 1] == cs[..i] + [cs[i]];
    FlattenConcat(cs[..i], [cs[i]]);
    FlattenOne(cs[i]);
  }

  lemma CoveredDisjoint(r: seq<nat>, cs: seq<seq<nat>>, i: nat)
    requires Distinct(r) && Flatten(cs) == r && i < |cs|
    ensures Covered(cs, i) !! Elements(cs[i])
  {
    FlattenSplit(cs, i);
    SplitDistinct(Flatten(cs[..i]), Flatten(cs[i..]));
    assert Flatten(cs[i..]) == cs[i] + Flatten(cs[i..][1..]);
  }

  // ----- following a linearization while another order is built -----

  /** `c` holds what `ret` has not yet taken of `lin`; `ret` and then that is as good as `lin`. */
  ghost predicate Follows(g: Graph, c: LinearizationChunking, lin: seq<nat>, ret: seq<nat>)
    reads c
  {
    && c.Valid() && c.g == g && c.original == lin
    && c.todo == g.used - Elements(ret)
    && StillAsGood(g, ret, c.Remaining(), lin)
  }

  ghost predicate ImprovesFront(g: Graph, r: seq<nat>, t: set<nat>) {
    forall slope: FeeFrac :: slope.size > 0 ==> FrontIsBetter(g, r, t, slope)
  }

  method Start(g: Graph, lin: seq<nat>) returns (c: LinearizationChunking)
    requires g.Cluster() && IsLinearization(g, g.used, lin)
    ensures fresh(c) && Follows(g, c, lin, [])
  {
    hide Filter, ChunksOf, StillAsGood, Infos;
    LinearizationSized(g, lin);
    c := new LinearizationChunking(g, lin);
    StartAsGood(g, lin);
  }

  /** Put `t` next in the order that is being built, and remove it from `c`. */
  method Advance(g: Graph, c: LinearizationChunking, ghost lin: seq<nat>, ghost ret: seq<nat>, t: set<nat>)
    requires g.Cluster() && Follows(g, c, lin, ret)
    requires t != {} && t <= g.used - Elements(ret)
    requires ImprovesFront(g, c.Remaining(), t)
    modifies c
    ensures Elements(ret + TopoSort(g, t)) == Elements(ret) + t
    ensures Follows(g, c, lin, ret + TopoSort(g, t))
  {
    hide Filter, ChunksOf, StillAsGood, FrontIsBetter, TopoSort, Infos;
    TopoSortLinearizes(g, t);
    assert Elements(ret + TopoSort(g, t)) == Elements(ret) + t;
    c.RemainingSized();
    StayAsGood(g, ret, lin, c.todo, t);
    c.MarkDone(t);
    assert g.used - Elements(ret) - t == g.used - (Elements(ret) + t);
  }

  /** Putting all of what remains next completes an order that is as good as `lin`. */
  lemma FinishFollowing(g: Graph, c: LinearizationChunking, lin: seq<nat>, ret: seq<nat>, t: set<nat>)
    requires g.Cluster() && IsLinearization(g, g.used, lin) && PartialOrder(g, ret + TopoSort(g, t))
    requires Follows(g, c, lin, ret) && t == g.used - Elements(ret)
    requires ImprovesFront(g, c.Remaining(), t) && Elements(ret + TopoSort(g, t)) == g.used
    ensures IsLinearization(g, g.used, ret + TopoSort(g, t)) && AsGood(g, ret + TopoSort(g, t), lin)
  {
    hide AsGood, StillAsGood, ChunksOf, Infos, Filter, Topological, Distinct, TopoSort, FrontIsBetter, Graph.Cluster, Closed;
    c.RemainingSized();
    StayAsGood(g, ret, lin, t, t);
    assert t - t == {};
    FinishAsGood(g, ret + TopoSort(g, t), lin);
  }
}
