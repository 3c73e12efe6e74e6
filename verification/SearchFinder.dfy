/** The candidate finder that searches a copy of the graph sorted by feerate. */
module SearchFinders {
  import opened Collections
  import opened NatSets
  import opened FeeFracs
  import opened Graphs
  import opened ClosedSets
  import opened DepGraphs
  import opened Improvement
  import opened LinearizationChunkings
  import opened Searching
  import Limbs

  // ----- a graph and its moved copy -----

  lemma InImage(mapping: seq<nat>, s: set<nat>, whole: set<nat>, i: nat)
    requires Injective(mapping, whole) && s <= whole && i in whole
    ensures mapping[i] in Image(mapping, s) <==> i in s
  {
  }

  lemma {:induction false} ImageFee(g: Graph, mapping: seq<nat>, g': Graph, s: set<nat>)
    requires IsRemapped(g, mapping, g') && s <= g.used
    ensures FeeRate(g', Image(mapping, s)) == FeeRate(g, s)
  {
    hide FeeRate;
    FeeRateEmpty(g);
    FeeRateEmpty(g');
    if s == {} {
      assert Image(mapping, s) == {};
    } else {
      var x :| x in s;
      ImageFee(g, mapping, g', s - {x});
      FeeRateAdd(g, s, x);
      ImageRemove(g, mapping, s, x);
      FeeRateAdd(g', Image(mapping, s), mapping[x]);
    }
  }

  lemma ImageRemove(g: Graph, mapping: seq<nat>, s: set<nat>, x: nat)
    requires Injective(mapping, g.used) && s <= g.used && x in s
    ensures mapping[x] in Image(mapping, s) && Image(mapping, s) - {mapping[x]} == Image(mapping, s - {x})
  {
  }

  lemma ImageClosed(g: Graph, mapping: seq<nat>, g': Graph, within: set<nat>, s: set<nat>)
    requires g.Valid() && IsRemapped(g, mapping, g') && s <= g.used && within <= g.used
    ensures Closed(g, within, s) <==> Closed(g', Image(mapping, within), Image(mapping, s))
  {
    if Closed(g, within, s) {
      forall x, a | x in Image(mapping, s) && a in g'.Anc(x) * Image(mapping, within) ensures a in Image(mapping, s) {
        var i :| i in s && i < |mapping| && mapping[i] == x;
        var b :| b in within && b < |mapping| && mapping[b] == a;
        InImage(mapping, g.Anc(i), g.used, b);
        assert b in g.Anc(i) * within;
      }
    }
    if Closed(g', Image(mapping, within), Image(mapping, s)) {
      forall i | i in s ensures i in within {
        assert mapping[i] in Image(mapping, s);
        InImage(mapping, within, g.used, i);
      }
      forall i, a | i in s && a in g.Anc(i) * within ensures a in s {
        assert mapping[i] in Image(mapping, s);
        assert mapping[a] in g'.Anc(mapping[i]) * Image(mapping, within);
        InImage(mapping, s, g.used, a);
      }
    }
  }

  lemma RemappedAlone(g: Graph, mapping: seq<nat>, g': Graph, i: nat)
    requires g.Cluster() && IsRemapped(g, mapping, g') && i in g.used
    ensures g'.Anc(mapping[i]) * g'.Desc(mapping[i]) == {mapping[i]}
  {
    var x := mapping[i];
    assert i in g.Anc(i) * g.Desc(i);
    forall y ensures y in g'.Anc(x) * g'.Desc(x) <==> y == x {
      if y in g'.Anc(x) * g'.Desc(x) {
        var a :| a in g.Anc(i) && a < |mapping| && mapping[a] == y;
        InImage(mapping, g.Desc(i), g.used, a);
        assert a in g.Anc(i) * g.Desc(i);
      }
    }
  }

  lemma RemappedCluster(g: Graph, mapping: seq<nat>, g': Graph, h: History)
    requires g.Cluster() && IsRemapped(g, mapping, g') && Agrees(g', h)
    ensures g'.Cluster()
  {
    hide Agrees, Graph.Valid, Graph.Acyclic;
    AgreesValid(g', h);
    forall x | x in g'.used ensures g'.Anc(x) * g'.Desc(x) == {x} && g'.Fee(x).size > 0 {
      var i :| i in g.used && i < |mapping| && mapping[i] == x;
      RemappedAlone(g, mapping, g', i);
    }
    AloneIsAcyclic(g');
  }

  lemma AloneIsAcyclic(g: Graph)
    requires forall x :: x in g.used ==> g.Anc(x) * g.Desc(x) == {x}
    ensures g.Acyclic()
  {
  }

  // ----- sorting by feerate -----

  /** Higher feerate first, then smaller size, then lower position. */
  predicate FeeBefore(g: Graph, a: nat, b: nat) {
    Greater(g.Fee(a), g.Fee(b)) || (!Greater(g.Fee(b), g.Fee(a)) && a < b)
  }

  lemma FeeBeforeTrans(g: Graph, a: nat, b: nat, c: nat)
    requires g.Fee(a).size > 0 && g.Fee(b).size > 0 && g.Fee(c).size > 0
    requires FeeBefore(g, a, b) && FeeBefore(g, b, c)
    ensures FeeBefore(g, a, c)
  {
    hide Gain;
    var x, y, z := g.Fee(a), g.Fee(b), g.Fee(c);
    GreaterIsGain(x, y);
    GreaterIsGain(y, x);
    GreaterIsGain(y, z);
    GreaterIsGain(z, y);
    GreaterIsGain(x, z);
    GreaterIsGain(z, x);
    GainFlips(x, y);
    GainFlips(y, z);
    GainFlips(x, z);
    GainTrans(x, y, z);
    if Gain(y, z) == 0 {
      GainTransDown(x, y, z);
    }
  }

  lemma GainFlips(a: FeeFrac, b: FeeFrac)
    ensures Gain(a, b) == -Gain(b, a)
  {
  }

  lemma FeeBeforeTotal(g: Graph, a: nat, b: nat)
    requires a != b && !FeeBefore(g, a, b)
    ensures FeeBefore(g, b, a)
  {
  }

  lemma FeeBeforeGain(g: Graph, a: nat, b: nat)
    requires FeeBefore(g, a, b)
    ensures Gain(g.Fee(b), g.Fee(a)) <= 0
  {
    GreaterIsGain(g.Fee(a), g.Fee(b));
    GreaterIsGain(g.Fee(b), g.Fee(a));
    GainFlips(g.Fee(a), g.Fee(b));
  }

  ghost predicate FeeSorted(g: Graph, order: seq<nat>) {
    forall i, j :: 0 <= i < j < |order| ==> FeeBefore(g, order[i], order[j])
  }

  /** The member of `s` that comes first. */
  method FirstByFee(g: Graph, s: set<nat>) returns (best: nat)
    requires s != {} && forall i :: i in s ==> g.Fee(i).size > 0
    ensures best in s && forall i :: i in s && i != best ==> FeeBefore(g, best, i)
  {
    hide FeeBefore, First;
    best := First(s);
    var done, rest := {best}, s - {best};
    while rest != {}
      invariant done + rest == s && done !! rest && best in done
      invariant forall i :: i in done && i != best ==> FeeBefore(g, best, i)
      decreases rest
    {
      var t := First(rest);
      if FeeBefore(g, t, best) {
        forall i | i in done ensures FeeBefore(g, t, i) {
          if i != best {
            FeeBeforeTrans(g, t, best, i);
          }
        }
        best := t;
      } else {
        FeeBeforeTotal(g, t, best);
      }
      done, rest := done + {t}, rest - {t};
    }
  }

  /** Positions sorted by decreasing feerate. */
  method SortByFee(g: Graph, s: set<nat>) returns (order: seq<nat>)
    requires forall i :: i in s ==> g.Fee(i).size > 0
    ensures Distinct(order) && Elements(order) == s && FeeSorted(g, order)
  {
    hide FeeBefore;
    order := [];
    var rest := s;
    while rest != {}
      invariant rest <= s && Elements(order) == s - rest
      invariant Distinct(order) && FeeSorted(g, order)
      invariant forall k, r :: 0 <= k < |order| && r in rest ==> order[k] != r && FeeBefore(g, order[k], r)
      decreases rest
    {
      var next := FirstByFee(g, rest);
      assert Elements(order + [next]) == Elements(order) + {next};
      order, rest := order + [next], rest - {next};
    }
  }

  /** The inverse of a list of positions. */
  method Invert(order: seq<nat>, n: nat) returns (mapping: seq<nat>)
    requires Distinct(order) && forall k :: 0 <= k < |order| ==> order[k] < n
    ensures |mapping| == n && forall k :: 0 <= k < |order| ==> mapping[order[k]] == k
  {
    mapping := seq(n, _ => 0);
    for i := 0 to |order|
      invariant |mapping| == n && forall k :: 0 <= k < i ==> mapping[order[k]] == k
    {
      mapping := mapping[order[i] := i];
    }
  }

  // ----- the finder -----

  /** `order` and `mapping` are inverse, and `mapping` moves `source` to the sorted graph `g`. */
  ghost predicate SortedCopy(source: Graph, order: seq<nat>, mapping: seq<nat>, g: Graph) {
    && source.Cluster() && g.Cluster() && SortedByFee(g) && IsRemapped(source, mapping, g)
    && (forall x :: x in g.used ==> x < |order|)
    && forall i :: i in source.used ==> mapping[i] < |order| && order[mapping[i]] == i
  }

  lemma SortedPositions(source: Graph, order: seq<nat>, mapping: seq<nat>)
    requires source.Valid() && Distinct(order) && Elements(order) == source.used
    requires |mapping| == |source.entries| && forall k :: 0 <= k < |order| ==> order[k] < |mapping| && mapping[order[k]] == k
    ensures Injective(mapping, source.used)
    ensures forall i :: i in source.used ==> mapping[i] < |order| && order[mapping[i]] == i
  {
    forall i | i in source.used ensures i < |mapping| && mapping[i] < |order| && order[mapping[i]] == i {
      assert i in order;
      var k :| 0 <= k < |order| && order[k] == i;
    }
  }

  lemma CopyIsSorted(source: Graph, order: seq<nat>, mapping: seq<nat>, g: Graph)
    requires IsRemapped(source, mapping, g) && FeeSorted(source, order)
    requires forall i :: i in source.used ==> mapping[i] < |order| && order[mapping[i]] == i
    ensures SortedByFee(g)
  {
    hide Gain, FeeBefore;
    forall x, y | x in g.used && y in g.used && x < y ensures Gain(g.Fee(y), g.Fee(x)) <= 0 {
      var i :| i in source.used && i < |mapping| && mapping[i] == x;
      var j :| j in source.used && j < |mapping| && mapping[j] == y;
      assert FeeBefore(source, order[x], order[y]);
      FeeBeforeGain(source, i, j);
    }
  }

  function Restore(order: seq<nat>, s: set<nat>): set<nat> {
    Image(order, s)
  }

  lemma RestoreImage(source: Graph, order: seq<nat>, mapping: seq<nat>, g: Graph, s: set<nat>)
    requires SortedCopy(source, order, mapping, g)
    ensures s <= source.used ==> Restore(order, Image(mapping, s)) == s
    ensures s <= g.used ==> Restore(order, s) <= source.used && Image(mapping, Restore(order, s)) == s
  {
    hide Graph.Cluster, SortedByFee;
    if s <= source.used {
      forall i ensures i in Restore(order, Image(mapping, s)) <==> i in s {
        if i in s {
          assert mapping[i] in Image(mapping, s);
        }
      }
    }
    if s <= g.used {
      forall x | x in s ensures order[x] in source.used && mapping[order[x]] == x {
        var i :| i in source.used && i < |mapping| && mapping[i] == x;
      }
      forall x ensures x in Image(mapping, Restore(order, s)) <==> x in s {
        if x in s {
          assert order[x] in Restore(order, s);
        }
      }
    }
  }

  /** A best closed set of the copy is one of the source. */
  lemma BestMovesBack(source: Graph, order: seq<nat>, mapping: seq<nat>, g: Graph, todo: set<nat>, t: set<nat>)
    requires SortedCopy(source, order, mapping, g) && todo <= source.used && t <= source.used
    requires BestClosed(g, Image(mapping, todo), Image(mapping, t))
    ensures BestClosed(source, todo, t)
  {
    hide Gain, FeeRate, Closed, SortedByFee, IsRemapped;
    ImageClosed(source, mapping, g, todo, t);
    ImageFee(source, mapping, g, t);
    assert t != {} by { EmptyImage(mapping); }
    forall u | Closed(source, todo, u) && u != {} ensures Gain(FeeRate(source, u), FeeRate(source, t)) <= 0 {
      ClosedWithin(source, todo, u);
      ImageClosed(source, mapping, g, todo, u);
      ImageFee(source, mapping, g, u);
      NonEmptyImage(source, mapping, g, u);
    }
  }

  lemma EmptyImage(mapping: seq<nat>)
    ensures Image(mapping, {}) == {}
  {
  }

  lemma NonEmptyImage(source: Graph, mapping: seq<nat>, g: Graph, u: set<nat>)
    requires IsRemapped(source, mapping, g) && u <= source.used && u != {}
    ensures Image(mapping, u) != {}
  {
    var x :| x in u;
    assert mapping[x] in Image(mapping, u);
  }

  class SearchCandidateFinder {
    const source: Graph
    /** `order[k]` is the original position of the transaction sorted to position `k`. */
    const order: seq<nat>
    /** `mapping[i]` is the sorted position of the transaction at original position `i`. */
    const mapping: seq<nat>
    /** The graph with transactions in decreasing individual feerate order. */
    const g: Graph
    /** Which transactions are left to do, in sorted positions. */
    var todo: set<nat>

    ghost predicate Valid()
      reads this
    {
      SortedCopy(source, order, mapping, g) && todo <= g.used
    }

    /** What is left to do, in original positions. */
    ghost function Left(): set<nat>
      reads this
    {
      Restore(order, todo)
    }

    constructor (source: Graph)
      requires source.Cluster()
      ensures Valid() && this.source == source && Left() == source.used
    {
      hide Graph.Acyclic, FeeSorted, SortedByFee, FeeRate, Agrees;
      var order := SortByFee(source, source.used);
      assert forall k :: 0 <= k < |order| ==> order[k] in Elements(order);
      var mapping := Invert(order, |source.entries|);
      SortedPositions(source, order, mapping);
      var copy := new DepGraph.Remap(source, mapping, |order|);
      var g := copy.View();
      CopyIsSorted(source, order, mapping, g);
      RemappedCluster(source, mapping, g, copy.history);
      CopyWithin(source, order, mapping, g);
      this.source, this.order, this.mapping, this.g := source, order, mapping, g;
      todo := g.used;
      RestoreImage(source, order, mapping, g, source.used);
    }

    /** Find a closed subset of what remains, of high feerate; the highest, if not cut short. */
    method FindCandidateSet(maxIterations: nat, given: SetInfo) returns (best: SetInfo, iterations: nat)
      requires Valid() && todo != {}
      requires given == EMPTY_INFO || BestOk(source, Left(), given)
      ensures BestOk(source, Left(), best) && iterations <= maxIterations
      ensures given != EMPTY_INFO ==> AtLeastAsGood(best, given)
      ensures iterations < maxIterations ==> BestClosed(source, Left(), best.transactions)
      ensures iterations < |AllClosed(source, Left())| <= Limbs.Pow2(|Left()|)
    {
      hide Graph.Cluster, FeeRate, Closed, Greater, BestClosed, SortedByFee, IsRemapped, Between;
      var start := given.(transactions := Image(mapping, given.transactions));
      RestoreImage(source, order, mapping, g, todo);
      if given == EMPTY_INFO {
        EmptyImage(mapping);
      } else {
        MoveInfo(source, order, mapping, g, Left(), given);
        InfoWithin(source, Left(), given);
        RestoreImage(source, order, mapping, g, given.transactions);
      }
      SortedSearchable();
      best, iterations := FindBest(g, todo, maxIterations, start);
      SameClosed(source, order, mapping, g, todo);
      FewClosed(source, Left());
      var back := best.(transactions := Restore(order, best.transactions));
      MoveInfoBack(source, order, mapping, g, Left(), best);
      if iterations < maxIterations {
        BestMovesBack(source, order, mapping, g, Left(), back.transactions);
      }
      best := back;
    }

    lemma SortedSearchable()
      requires Valid()
      ensures Searchable(g, todo)
    {
    }

    /** Go on with what is left once some transactions are in the order. */
    method MarkDone(done: set<nat>)
      requires Valid() && done != {} && done <= Left()
      modifies this
      ensures Valid() && Left() == old(Left()) - done
    {
      hide Graph.Cluster, SortedByFee;
      RestoreImage(source, order, mapping, g, todo);
      RestoreMinus(source, order, mapping, g, todo, done);
      todo := todo - Image(mapping, done);
    }
  }

  /** The copy has no more closed sets than the source. */
  lemma SameClosed(source: Graph, order: seq<nat>, mapping: seq<nat>, g: Graph, todo: set<nat>)
    requires SortedCopy(source, order, mapping, g) && todo <= g.used
    ensures |AllClosed(g, todo)| <= |AllClosed(source, Restore(order, todo))|
  {
    hide Graph.Valid, Graph.Acyclic, SortedByFee, Closed, IsRemapped, Restore;
    var f := (c: set<nat>) => Restore(order, c);
    var left := Restore(order, todo);
    RestoreImage(source, order, mapping, g, todo);
    forall c | c in AllClosed(g, todo) ensures f(c) in AllClosed(source, left) && Image(mapping, f(c)) == c {
      RestoreImage(source, order, mapping, g, c);
      ImageClosed(source, mapping, g, left, f(c));
      ClosedWithin(source, left, f(c));
    }
    InjectionCount(AllClosed(g, todo), AllClosed(source, left), f);
  }

  lemma CopyWithin(source: Graph, order: seq<nat>, mapping: seq<nat>, g: Graph)
    requires IsRemapped(source, mapping, g)
    requires forall i :: i in source.used ==> mapping[i] < |order| && order[mapping[i]] == i
    ensures forall x :: x in g.used ==> x < |order|
  {
  }

  lemma MoveInfo(source: Graph, order: seq<nat>, mapping: seq<nat>, g: Graph, todo: set<nat>, info: SetInfo)
    requires SortedCopy(source, order, mapping, g) && todo <= source.used && BestOk(source, todo, info)
    ensures BestOk(g, Image(mapping, todo), info.(transactions := Image(mapping, info.transactions)))
  {
    hide FeeRate, SortedByFee, IsRemapped;
    ImageFee(source, mapping, g, info.transactions);
    ImageClosed(source, mapping, g, todo, info.transactions);
    NonEmptyImage(source, mapping, g, info.transactions);
  }

  lemma InfoWithin(source: Graph, todo: set<nat>, info: SetInfo)
    requires BestOk(source, todo, info)
    ensures info.transactions <= todo
  {
  }

  lemma MoveInfoBack(source: Graph, order: seq<nat>, mapping: seq<nat>, g: Graph, todo: set<nat>, info: SetInfo)
    requires SortedCopy(source, order, mapping, g) && todo <= source.used && BestOk(g, Image(mapping, todo), info)
    requires Image(mapping, todo) <= g.used
    ensures var back := info.(transactions := Restore(order, info.transactions));
      BestOk(source, todo, back) && back.transactions <= source.used && Image(mapping, back.transactions) == info.transactions
  {
    hide FeeRate, SortedByFee, IsRemapped;
    ClosedWithin(g, Image(mapping, todo), info.transactions);
    RestoreImage(source, order, mapping, g, info.transactions);
    var t := Restore(order, info.transactions);
    ImageFee(source, mapping, g, t);
    ImageClosed(source, mapping, g, todo, t);
    EmptyImage(mapping);
  }

  lemma RestoreMinus(source: Graph, order: seq<nat>, mapping: seq<nat>, g: Graph, todo: set<nat>, done: set<nat>)
    requires SortedCopy(source, order, mapping, g) && todo <= g.used && done <= Restore(order, todo)
    ensures Restore(order, todo - Image(mapping, done)) == Restore(order, todo) - done
  {
    hide Graph.Cluster, SortedByFee;
    RestoreImage(source, order, mapping, g, todo);
    forall x | x in todo ensures x in Image(mapping, done) <==> order[x] in done {
      var i :| i in source.used && i < |mapping| && mapping[i] == x;
      assert order[x] == i;
    }
  }
}
