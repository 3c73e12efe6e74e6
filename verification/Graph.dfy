/** Finite sets of positions, as the bit sets of the source. */
module NatSets {

  predicate IsLowest(s: set<nat>, x: nat) {
    x in s && forall y :: y in s ==> x <= y
  }

  predicate IsHighest(s: set<nat>, x: nat) {
    x in s && forall y :: y in s ==> y <= x
  }

  /** The lowest element: bit sets are always traversed from it upwards. */
  function First(s: set<nat>): (x: nat)
    requires s != {}
    ensures x in s && forall y :: y in s ==> x <= y
  {
    LowestExists(s);
    var x :| x in s && IsLowest(s, x);
    x
  }

  /** The highest element. */
  function Last(s: set<nat>): (x: nat)
    requires s != {}
    ensures x in s && forall y :: y in s ==> y <= x
  {
    HighestExists(s);
    var x :| x in s && IsHighest(s, x);
    x
  }

  lemma {:induction false} LowestExists(s: set<nat>)
    requires s != {}
    ensures exists x :: IsLowest(s, x)
  {
    var x :| x in s;
    if s == {x} {
      assert IsLowest(s, x);
    } else {
      LowestExists(s - {x});
      var m :| IsLowest(s - {x}, m);
      assert forall y :: y in s ==> y == x || y in s - {x};
      assert IsLowest(s, if x <= m then x else m);
    }
  }

  lemma {:induction false} HighestExists(s: set<nat>)
    requires s != {}
    ensures exists x :: IsHighest(s, x)
  {
    var x :| x in s;
    if s == {x} {
      assert IsHighest(s, x);
    } else {
      HighestExists(s - {x});
      var m :| IsHighest(s - {x}, m);
      assert forall y :: y in s ==> y == x || y in s - {x};
      assert IsHighest(s, if x >= m then x else m);
    }
  }
}

/** Transaction graphs as values: what the linearization algorithms read. */
module Graphs {
  import opened Collections
  import opened NatSets
  import opened FeeFracs

  datatype Entry = Entry(feerate: FeeFrac, ancestors: set<nat>, descendants: set<nat>)

  datatype Graph = Graph(entries: seq<Entry>, used: set<nat>) {
    function Fee(i: nat): FeeFrac {
      if i < |entries| then entries[i].feerate else EMPTY
    }

    function Anc(i: nat): set<nat> {
      if i < |entries| then entries[i].ancestors else {}
    }

    function Desc(i: nat): set<nat> {
      if i < |entries| then entries[i].descendants else {}
    }

    /** Ancestors and descendants are mutually inverse, reflexive and transitive. */
    ghost predicate Valid() {
      && (forall i :: i in used ==> i < |entries|)
      && (forall i :: i in used ==> i in Anc(i) && Anc(i) <= used && Desc(i) <= used)
      && (forall i, j :: i in used && j in used ==> (j in Anc(i) <==> i in Desc(j)))
      && (forall i, j :: i in used && j in Anc(i) ==> Anc(j) <= Anc(i))
    }

    ghost predicate Acyclic() {
      forall i :: i in used ==> Anc(i) * Desc(i) == {i}
    }

    /** What every linearization algorithm is given: an acyclic graph of non-empty transactions. */
    ghost predicate Cluster() {
      Valid() && Acyclic() && forall i :: i in used ==> Fee(i).size > 0
    }
  }

  // ----- feerates of sets and sequences -----

  /** The aggregate feerate of a set of transactions. */
  function FeeRate(g: Graph, s: set<nat>): FeeFrac {
    if s == {} then EMPTY else
    var x := First(s);
    g.Fee(x).Plus(FeeRate(g, s - {x}))
  }

  function Fees(g: Graph, list: seq<nat>): seq<FeeFrac> {
    seq(|list|, i requires 0 <= i < |list| => g.Fee(list[i]))
  }

  function SeqFee(g: Graph, list: seq<nat>): FeeFrac {
    Total(Fees(g, list))
  }

  lemma FirstStays(s: set<nat>, x: nat)
    requires x in s && First(s) != x
    ensures s - {x} != {} && First(s - {x}) == First(s)
  {
    hide First;
    assert First(s) in s - {x};
  }

  lemma {:induction false} FeeRateAdd(g: Graph, s: set<nat>, x: nat)
    requires x in s
    ensures FeeRate(g, s) == g.Fee(x).Plus(FeeRate(g, s - {x}))
  {
    hide First;
    var f := First(s);
    if f != x {
      FirstStays(s, x);
      FeeRateAdd(g, s - {f}, x);
      assert s - {f} - {x} == s - {x} - {f};
    }
  }

  lemma FeeRateEmpty(g: Graph)
    ensures FeeRate(g, {}) == EMPTY
  {
  }

  lemma {:induction false} FeeRateUnion(g: Graph, a: set<nat>, b: set<nat>)
    requires a !! b
    ensures FeeRate(g, a + b) == FeeRate(g, a).Plus(FeeRate(g, b))
  {
    hide FeeRate;
    FeeRateEmpty(g);
    if a == {} {
      assert a + b == b;
    } else {
      var x :| x in a;
      FeeRateUnion(g, a - {x}, b);
      FeeRateAdd(g, a + b, x);
      FeeRateAdd(g, a, x);
      assert a + b - {x} == (a - {x}) + b;
    }
  }

  /** Splitting a set at a subset splits its feerate. */
  lemma FeeRateSplit(g: Graph, s: set<nat>, part: set<nat>)
    requires part <= s
    ensures FeeRate(g, s) == FeeRate(g, part).Plus(FeeRate(g, s - part))
  {
    hide FeeRate;
    FeeRateUnion(g, part, s - part);
    assert part + (s - part) == s;
  }

  /** Splitting a set at a subset splits its gain. */
  lemma GainSplit(g: Graph, s: set<nat>, part: set<nat>, slope: FeeFrac)
    requires part <= s
    ensures Gain(FeeRate(g, s), slope)
         == Gain(FeeRate(g, part), slope) + Gain(FeeRate(g, s - part), slope)
  {
    hide FeeRate;
    FeeRateSplit(g, s, part);
    GainPlus(FeeRate(g, part), FeeRate(g, s - part), slope);
  }

  ghost predicate Sized(g: Graph, s: set<nat>) {
    forall i :: i in s ==> g.Fee(i).size > 0
  }

  lemma {:induction false} FeeRateSize(g: Graph, s: set<nat>)
    requires Sized(g, s)
    ensures FeeRate(g, s).size >= 0
    ensures s != {} ==> FeeRate(g, s).size > 0
  {
    if s != {} {
      FeeRateSize(g, s - {First(s)});
    }
  }

  /** If every member's gain has a sign, so has the set's. */
  lemma {:induction false} GainSign(g: Graph, s: set<nat>, slope: FeeFrac)
    ensures (forall i :: i in s ==> Gain(g.Fee(i), slope) >= 0) ==> Gain(FeeRate(g, s), slope) >= 0
    ensures (forall i :: i in s ==> Gain(g.Fee(i), slope) <= 0) ==> Gain(FeeRate(g, s), slope) <= 0
    ensures (forall i :: i in s ==> Gain(g.Fee(i), slope) > 0) && s != {} ==> Gain(FeeRate(g, s), slope) > 0
  {
    if s != {} {
      var x := First(s);
      GainSign(g, s - {x}, slope);
      GainPlus(g.Fee(x), FeeRate(g, s - {x}), slope);
    }
  }

  lemma FeesConcat(g: Graph, a: seq<nat>, b: seq<nat>)
    ensures Fees(g, a + b) == Fees(g, a) + Fees(g, b)
  {
  }

  lemma SeqFeeOne(g: Graph, i: nat)
    ensures SeqFee(g, [i]) == g.Fee(i)
  {
    assert Fees(g, [i]) == [g.Fee(i)];
    TotalOne(g.Fee(i));
  }

  lemma SeqFeeConcat(g: Graph, a: seq<nat>, b: seq<nat>)
    ensures SeqFee(g, a + b) == SeqFee(g, a).Plus(SeqFee(g, b))
  {
    FeesConcat(g, a, b);
    TotalConcat(Fees(g, a), Fees(g, b));
  }

  /** A sequence without repetitions has the feerate of its set. */
  lemma {:induction false} SeqFeeIsFeeRate(g: Graph, list: seq<nat>)
    requires Distinct(list)
    ensures SeqFee(g, list) == FeeRate(g, Elements(list))
  {
    hide FeeRate, SeqFee;
    if list == [] {
      FeeRateEmpty(g);
      SeqFeeNone(g);
      assert Elements(list) == {};
    } else {
      SeqFeeIsFeeRate(g, list[1..]);
      FeeRateAdd(g, Elements(list), list[0]);
      assert Elements(list) - {list[0]} == Elements(list[1..]);
      assert list == [list[0]] + list[1..];
      SeqFeeConcat(g, [list[0]], list[1..]);
      SeqFeeOne(g, list[0]);
    }
  }

  lemma SeqFeeNone(g: Graph)
    ensures SeqFee(g, []) == EMPTY
  {
  }

  // ----- topology -----

  /** `s` holds, with each member, all its ancestors that are within `within`. */
  ghost predicate Closed(g: Graph, within: set<nat>, s: set<nat>) {
    s <= within && forall i :: i in s ==> g.Anc(i) * within <= s
  }

  /** No transaction comes before one of its ancestors. */
  ghost predicate Topological(g: Graph, list: seq<nat>) {
    forall i, j :: 0 <= i < j < |list| ==> list[j] !in g.Anc(list[i])
  }

  /** `list` orders exactly the transactions of `s`, each after its ancestors. */
  ghost predicate IsLinearization(g: Graph, s: set<nat>, list: seq<nat>) {
    Distinct(list) && Elements(list) == s && Topological(g, list)
  }

  lemma ProperAncestors(g: Graph, i: nat, j: nat)
    requires g.Valid() && g.Acyclic()
    requires i in g.used && j in g.Anc(i) && i != j
    ensures i !in g.Anc(j) && |g.Anc(j)| < |g.Anc(i)|
  {
    assert j !in g.Anc(i) * g.Desc(i);
    SubsetCount(g.Anc(j), g.Anc(i));
  }

  /** A prefix of a linearization is closed. */
  lemma PrefixClosed(g: Graph, s: set<nat>, list: seq<nat>, n: nat)
    requires IsLinearization(g, s, list) && n <= |list|
    ensures Closed(g, s, Elements(list[..n]))
  {
    forall i, a | i in Elements(list[..n]) && a in g.Anc(i) * s
      ensures a in Elements(list[..n])
    {
      assert a in list;
      var k :| 0 <= k < |list| && list[k] == a;
      var m :| 0 <= m < n && list[m] == i;
      assert k < n;
      assert list[..n][k] == a;
    }
  }

  // ----- keeping part of a list -----

  /** The members of `list` that are in `keep`, in order. */
  function Filter(list: seq<nat>, keep: set<nat>): (r: seq<nat>)
    ensures forall x :: x in r <==> x in list && x in keep
    ensures |r| <= |list|
  {
    if list == [] then []
    else if list[0] in keep then [list[0]] + Filter(list[1..], keep)
    else Filter(list[1..], keep)
  }

  lemma {:induction false} FilterConcat(a: seq<nat>, b: seq<nat>, keep: set<nat>)
    ensures Filter(a + b, keep) == Filter(a, keep) + Filter(b, keep)
  {
    if a == [] {
      assert a + b == b;
    } else {
      assert (a + b)[1..] == a[1..] + b;
      FilterConcat(a[1..], b, keep);
    }
  }

  lemma FilterAppend(list: seq<nat>, x: nat, keep: set<nat>)
    ensures Filter(list + [x], keep) == if x in keep then Filter(list, keep) + [x] else Filter(list, keep)
  {
    FilterConcat(list, [x], keep);
    assert [x][1..] == [];
    assert Filter([x], keep) == if x in keep then [x] + Filter([x][1..], keep) else Filter([x][1..], keep);
  }

  lemma {:induction false} FilterAll(list: seq<nat>, keep: set<nat>)
    ensures Elements(list) <= keep ==> Filter(list, keep) == list
    ensures Elements(list) !! keep ==> Filter(list, keep) == []
  {
    if list != [] {
      assert list[0] in Elements(list);
      assert Elements(list[1..]) <= Elements(list);
      FilterAll(list[1..], keep);
    }
  }

  lemma {:induction false} FilterFilter(list: seq<nat>, k1: set<nat>, k2: set<nat>)
    ensures Filter(Filter(list, k1), k2) == Filter(list, k1 * k2)
  {
    if list != [] {
      FilterFilter(list[1..], k1, k2);
      if list[0] in k1 {
        assert Filter(list, k1)[1..] == Filter(list[1..], k1);
      }
    }
  }

  lemma {:induction false} FilterDistinct(list: seq<nat>, keep: set<nat>)
    requires Distinct(list)
    ensures Distinct(Filter(list, keep))
  {
    if list != [] {
      FilterDistinct(list[1..], keep);
      if list[0] in keep {
        var r := Filter(list[1..], keep);
        assert forall k :: 0 <= k < |r| ==> r[k] in list[1..];
      }
    }
  }

  lemma {:induction false} FilterTopological(g: Graph, list: seq<nat>, keep: set<nat>)
    requires Topological(g, list)
    ensures Topological(g, Filter(list, keep))
  {
    if list != [] {
      FilterTopological(g, list[1..], keep);
      if list[0] in keep {
        var r := Filter(list[1..], keep);
        forall k | 0 <= k < |r| ensures r[k] !in g.Anc(list[0]) {
          assert r[k] in list[1..];
        }
      }
    }
  }

  /** What remains of a linearization is a linearization of what remains. */
  lemma FilterLinearization(g: Graph, s: set<nat>, list: seq<nat>, keep: set<nat>)
    requires IsLinearization(g, s, list)
    ensures IsLinearization(g, s * keep, Filter(list, keep))
  {
    FilterDistinct(list, keep);
    FilterTopological(g, list, keep);
  }

  /** A closed set followed by a linearization of the rest is a linearization. */
  lemma ConcatLinearization(g: Graph, s: set<nat>, t: set<nat>, a: seq<nat>, b: seq<nat>)
    requires Closed(g, s, t)
    requires IsLinearization(g, t, a) && IsLinearization(g, s - t, b)
    ensures IsLinearization(g, s, a + b)
  {
    assert forall k :: 0 <= k < |a| ==> a[k] in Elements(a);
    assert forall k :: 0 <= k < |b| ==> b[k] in Elements(b);
    assert Elements(a + b) == Elements(a) + Elements(b);
  }
}
