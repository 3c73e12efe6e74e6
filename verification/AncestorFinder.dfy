/** The candidate finder that keeps the feerates of the remaining ancestor sets up to date. */
module AncestorFinders {
  import opened NatSets
  import opened FeeFracs
  import opened Graphs
  import opened LinearizationChunkings
  import opened Searching

  class AncestorCandidateFinder {
    const g: Graph
    /** Which transactions are left to include. */
    var todo: set<nat>
    /** Ancestor-set feerates, up to date for positions in `todo` only. */
    var ancFees: seq<FeeFrac>

    /** What was updated step by step is what recomputing would give. */
    ghost predicate Valid()
      reads this
    {
      && g.Cluster() && todo <= g.used && |ancFees| == |g.entries|
      && forall j :: j in todo ==> ancFees[j] == FeeRate(g, g.Anc(j) * todo)
    }

    constructor (g: Graph)
      requires g.Cluster()
      ensures Valid() && this.g == g && todo == g.used
    {
      hide FeeRate, First;
      var fees := seq(|g.entries|, _ => EMPTY);
      var rest := g.used;
      while rest != {}
        invariant rest <= g.used && |fees| == |g.entries|
        invariant forall x, y :: x in g.used - rest && y in rest ==> x < y
        invariant forall x :: x in g.used - rest ==> fees[x] == FeeRate(g, g.Anc(x))
        decreases rest
      {
        var i := First(rest);
        var ancToAdd := g.Anc(i);
        var ancFee := EMPTY;
        assert i in ancToAdd;
        var first := First(ancToAdd);
        if first < i {
          assert first in g.used - rest;
          ancFee := fees[first];
          FeeRateSplit(g, ancToAdd, g.Anc(first));
          ancToAdd := ancToAdd - g.Anc(first);
        }
        ancFee := ancFee.Plus(FeeRate(g, ancToAdd));
        fees := fees[i := ancFee];
        rest := rest - {i};
      }
      this.g := g;
      todo := g.used;
      ancFees := fees;
      forall j | j in g.used ensures g.Anc(j) * g.used == g.Anc(j) {
      }
    }

    /** Some transactions are in the order now: no ancestor set counts them any more. */
    method MarkDone(select: set<nat>)
      requires Valid() && select != {} && select <= todo
      modifies this
      ensures Valid() && todo == old(todo) - select
    {
      hide FeeRate, First, Graph.Acyclic;
      todo := todo - select;
      var rest := select;
      ghost var left := todo;
      assert old(todo) == left + rest;
      while rest != {}
        invariant rest <= select && todo == left && g.Cluster() && left <= g.used && |ancFees| == |g.entries|
        invariant forall j :: j in left ==> ancFees[j] == FeeRate(g, g.Anc(j) * (left + rest))
        decreases rest
      {
        var i := First(rest);
        TakeOut(i, left + (rest - {i}), left + rest);
        rest := rest - {i};
      }
      assert left + {} == left;
    }

    /** Take one transaction out of the ancestor sets of its remaining descendants. */
    method TakeOut(i: nat, ghost after: set<nat>, ghost before: set<nat>)
      requires g.Cluster() && todo <= g.used && |ancFees| == |g.entries| && i in g.used
      requires i in before && i !in todo && after == before - {i}
      requires forall j :: j in todo ==> ancFees[j] == FeeRate(g, g.Anc(j) * before)
      modifies this`ancFees
      ensures |ancFees| == |g.entries|
      ensures forall j :: j in todo ==> ancFees[j] == FeeRate(g, g.Anc(j) * after)
    {
      hide FeeRate, First;
      var fee := g.Fee(i);
      var all := g.Desc(i) * todo;
      var rest := all;
      while rest != {}
        invariant rest <= all && |ancFees| == |g.entries|
        invariant forall j :: j in todo && (j in rest || j !in all) ==> ancFees[j] == FeeRate(g, g.Anc(j) * before)
        invariant forall j :: j in all && j !in rest ==> ancFees[j] == FeeRate(g, g.Anc(j) * after)
        decreases rest
      {
        var j := First(rest);
        FeeRateAdd(g, g.Anc(j) * before, i);
        assert g.Anc(j) * before - {i} == g.Anc(j) * after;
        ancFees := ancFees[j := ancFees[j].Minus(fee)];
        rest := rest - {j};
      }
      forall j | j in todo && j !in all ensures g.Anc(j) * before == g.Anc(j) * after {
      }
    }

    /** The best remaining ancestor set: highest feerate, then smallest. */
    method FindCandidateSet() returns (r: SetInfo)
      requires Valid() && todo != {}
      ensures BestOk(g, todo, r)
      ensures exists i :: i in todo && r.transactions == g.Anc(i) * todo
      ensures forall i :: i in todo ==> !Greater(FeeRate(g, g.Anc(i) * todo), r.feerate)
    {
      hide FeeRate, First, Greater, Graph.Acyclic;
      var best := First(todo);
      var done, rest := {best}, todo - {best};
      NotGreaterSelf(ancFees[best]);
      while rest != {}
        invariant done + rest == todo && best in done
        invariant forall i :: i in done ==> !Greater(ancFees[i], ancFees[best])
        decreases rest
      {
        var i := First(rest);
        if Greater(ancFees[i], ancFees[best]) {
          forall k | k in done ensures !Greater(ancFees[k], ancFees[i]) {
            if Greater(ancFees[k], ancFees[i]) {
              AncestorsSized(i);
              AncestorsSized(k);
              AncestorsSized(best);
              GreaterTrans(ancFees[k], ancFees[i], ancFees[best]);
            }
          }
          NotGreaterSelf(ancFees[i]);
          best := i;
        }
        done, rest := done + {i}, rest - {i};
      }
      r := SetInfo(g.Anc(best) * todo, ancFees[best]);
      AncestorsClosed(g, todo, best);
    }

    lemma AncestorsSized(i: nat)
      requires Valid() && i in todo
      ensures ancFees[i].size > 0
    {
      hide FeeRate;
      assert i in g.Anc(i) * todo;
      FeeRateSize(g, g.Anc(i) * todo);
    }
  }

  lemma NotGreaterSelf(f: FeeFrac)
    ensures !Greater(f, f)
  {
  }

  lemma AncestorsClosed(g: Graph, todo: set<nat>, i: nat)
    requires g.Valid() && todo <= g.used && i in todo
    ensures Closed(g, todo, g.Anc(i) * todo) && g.Anc(i) * todo != {}
  {
    assert i in g.Anc(i) * todo;
  }
}
