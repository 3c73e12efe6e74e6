/** Post-linearization in place: groups as linked lists of entries, merged and swapped. */
module PostLinearizing {
  import opened Collections
  import opened FeeFracs
  import opened Graphs
  import opened Chunkings
  import opened Components
  import opened Improvement
  import opened LinearizationChunkings
  import opened PostPasses
  import opened Mirrors
  import opened TreePasses

  /** Information about transaction t is in entry t + 1, the sentinel in entry 0. */
  datatype TxEntry = TxEntry(
    prevTx: nat, firstTx: nat, prevGroup: nat, group: set<nat>, deps: set<nat>, feerate: FeeFrac)

  const SENTINEL: nat := 0
  const NO_PREV_TX: nat := 0

  // ----- what the linked lists represent -----

  /** The entry of the last transaction of a group. */
  ghost function Tail(c: seq<nat>): nat
    requires c != []
  {
    c[|c| - 1] + 1
  }

  /** The entry of the last transaction of group `k`; the sentinel before the first and after
      the last group. */
  ghost function TailAt(gs: seq<seq<nat>>, k: int): nat {
    if 0 <= k < |gs| && gs[k] != [] then Tail(gs[k]) else SENTINEL
  }

  /** Each transaction of a group leads to the one before it, and the last holds its summary. */
  ghost predicate GroupOk(g: Graph, es: seq<TxEntry>, c: seq<nat>) {
    && c != [] && Distinct(c)
    && (forall j :: 0 <= j < |c| ==> c[j] + 1 < |es|)
    && (forall j :: 0 <= j < |c| ==> es[c[j] + 1].prevTx == if j == 0 then NO_PREV_TX else c[j - 1] + 1)
    && es[Tail(c)].firstTx == c[0] + 1
    && es[Tail(c)].group == Elements(c) && es[Tail(c)].deps == Deps(g, c) && es[Tail(c)].feerate == SeqFee(g, c)
  }

  /** Each group leads to the one before it, in a circle through the sentinel. */
  ghost predicate CircleOk(es: seq<TxEntry>, gs: seq<seq<nat>>) {
    forall k :: 0 <= k <= |gs| ==> TailAt(gs, k) < |es| && es[TailAt(gs, k)].prevGroup == TailAt(gs, k - 1)
  }

  ghost predicate Separate(gs: seq<seq<nat>>) {
    forall i, j :: 0 <= i < j < |gs| ==> Elements(gs[i]) !! Elements(gs[j])
  }

  /** The entries represent the groups `gs`, in order. */
  ghost predicate Represents(g: Graph, es: seq<TxEntry>, gs: seq<seq<nat>>) {
    && |es| > 0 && es[SENTINEL].feerate == EMPTY
    && (forall k :: 0 <= k < |gs| ==> GroupOk(g, es, gs[k]))
    && CircleOk(es, gs) && Separate(gs)
  }

  /** Entries may differ in where they lead to in the circle of groups. */
  ghost predicate SameGroups(es: seq<TxEntry>, es': seq<TxEntry>) {
    |es'| == |es| && forall i :: 0 <= i < |es| ==> es'[i] == es[i].(prevGroup := es'[i].prevGroup)
  }

  lemma GroupStays(g: Graph, es: seq<TxEntry>, es': seq<TxEntry>, c: seq<nat>)
    requires GroupOk(g, es, c) && |es'| == |es|
    requires forall j :: 0 <= j < |c| ==> es'[c[j] + 1] == es[c[j] + 1].(prevGroup := es'[c[j] + 1].prevGroup)
    ensures GroupOk(g, es', c)
  {
    hide Deps, SeqFee;
    assert Tail(c) == c[|c| - 1] + 1;
  }

  lemma TailIn(gs: seq<seq<nat>>, k: nat)
    requires k < |gs| && gs[k] != []
    ensures TailAt(gs, k) == Tail(gs[k]) > 0 && TailAt(gs, k) - 1 in Elements(gs[k])
  {
  }

  /** Different groups have different tails. */
  lemma TailsDiffer(g: Graph, es: seq<TxEntry>, gs: seq<seq<nat>>, i: int, j: int)
    requires Represents(g, es, gs) && 0 <= i <= |gs| && 0 <= j <= |gs| && i != j
    ensures TailAt(gs, i) != TailAt(gs, j)
  {
    hide Deps, SeqFee, CircleOk;
    if i < |gs| {
      assert GroupOk(g, es, gs[i]);
      TailIn(gs, i);
    }
    if j < |gs| {
      assert GroupOk(g, es, gs[j]);
      TailIn(gs, j);
    }
  }

  // ----- a new group at the end -----

  lemma AppendRepresents(g: Graph, es: seq<TxEntry>, es': seq<TxEntry>, gs: seq<seq<nat>>, idx: nat)
    requires Represents(g, es, gs) && idx + 1 < |es| && |es'| == |es|
    requires forall k :: 0 <= k < |gs| ==> idx !in Elements(gs[k])
    requires es'[idx + 1] == TxEntry(NO_PREV_TX, idx + 1, es[SENTINEL].prevGroup, {idx}, g.Anc(idx), g.Fee(idx))
    requires es'[SENTINEL] == es[SENTINEL].(prevGroup := idx + 1)
    requires forall i :: 0 < i < |es| && i != idx + 1 ==> es'[i] == es[i]
    ensures Represents(g, es', gs + [[idx]])
  {
    hide SeqFee, CircleOk;
    var gs' := gs + [[idx]];
    assert GroupOk(g, es', [idx]) by {
      SeqFeeOne(g, idx);
      assert Deps(g, [idx]) == g.Anc(idx);
      assert Elements([idx]) == {idx};
    }
    forall k | 0 <= k < |gs| ensures GroupOk(g, es', gs[k]) {
      assert forall j :: 0 <= j < |gs[k]| ==> gs[k][j] in Elements(gs[k]);
      GroupStays(g, es, es', gs[k]);
    }
    assert Separate(gs');
    AppendCircle(g, es, es', gs, idx);
  }

  lemma AppendCircle(g: Graph, es: seq<TxEntry>, es': seq<TxEntry>, gs: seq<seq<nat>>, idx: nat)
    requires Represents(g, es, gs) && idx + 1 < |es| && |es'| == |es|
    requires forall k :: 0 <= k < |gs| ==> idx !in Elements(gs[k])
    requires es'[idx + 1].prevGroup == es[SENTINEL].prevGroup && es'[SENTINEL].prevGroup == idx + 1
    requires forall i :: 0 < i < |es| && i != idx + 1 ==> es'[i] == es[i]
    ensures CircleOk(es', gs + [[idx]])
  {
    hide GroupOk, Separate, CircleOk;
    NoneEmpty(g, es, gs);
    assert CircleOk(es', gs + [[idx]]) by {
      AppendCircleAt(es, es', gs, idx);
    }
  }

  lemma NoneEmpty(g: Graph, es: seq<TxEntry>, gs: seq<seq<nat>>)
    requires Represents(g, es, gs)
    ensures forall k :: 0 <= k < |gs| ==> gs[k] != []
  {
    hide Deps, SeqFee, CircleOk, Separate;
    forall k | 0 <= k < |gs| ensures gs[k] != [] {
      assert GroupOk(g, es, gs[k]);
    }
  }

  lemma AppendCircleAt(es: seq<TxEntry>, es': seq<TxEntry>, gs: seq<seq<nat>>, idx: nat)
    requires CircleOk(es, gs) && idx + 1 < |es| && |es'| == |es| && forall k :: 0 <= k < |gs| ==> gs[k] != []
    requires forall k :: 0 <= k < |gs| ==> idx !in Elements(gs[k])
    requires es'[idx + 1].prevGroup == es[SENTINEL].prevGroup && es'[SENTINEL].prevGroup == idx + 1
    requires forall i :: 0 < i < |es| && i != idx + 1 ==> es'[i] == es[i]
    ensures CircleOk(es', gs + [[idx]])
  {
    hide Tail, Elements;
    var gs' := gs + [[idx]];
    forall k | 0 <= k <= |gs'| ensures TailAt(gs', k) < |es'| && es'[TailAt(gs', k)].prevGroup == TailAt(gs', k - 1) {
      assert k < |gs| ==> gs'[k] == gs[k];
      assert 0 < k <= |gs| ==> gs'[k - 1] == gs[k - 1];
      if k < |gs| {
        TailIn(gs, k);
        assert TailAt(gs', k) == TailAt(gs, k) && TailAt(gs', k - 1) == TailAt(gs, k - 1);
      } else if k == |gs| {
        NewTail(gs, idx);
        assert TailAt(gs', k - 1) == TailAt(gs, k - 1) && TailAt(gs, k) == SENTINEL;
      } else {
        NewTail(gs, idx);
      }
    }
  }

  lemma NewTail(gs: seq<seq<nat>>, idx: nat)
    ensures TailAt(gs + [[idx]], |gs|) == idx + 1 && TailAt(gs + [[idx]], |gs| + 1) == SENTINEL
  {
  }

  // ----- merging a group with the one before it -----

  lemma DepsConcat(g: Graph, p: seq<nat>, c: seq<nat>)
    ensures Deps(g, p + c) == Deps(g, c) + Deps(g, p)
  {
  }

  /** What merging group `p` into the group `c` behind it does to the entries. */
  ghost predicate MergedEntries(es: seq<TxEntry>, es': seq<TxEntry>, p: seq<nat>, c: seq<nat>)
    requires p != [] && c != []
  {
    var t, q, f := Tail(c), Tail(p), c[0] + 1;
    && |es'| == |es| && t < |es| && q < |es| && f < |es|
    && es'[t] == TxEntry(if f == t then q else es[t].prevTx, es[q].firstTx, es[q].prevGroup,
                         es[t].group + es[q].group, es[t].deps + es[q].deps, es[t].feerate.Plus(es[q].feerate))
    && (f != t ==> es'[f] == es[f].(prevTx := q))
    && forall i :: 0 <= i < |es| && i != t && i != f ==> es'[i] == es[i]
  }

  lemma MergedChain(g: Graph, es: seq<TxEntry>, es': seq<TxEntry>, p: seq<nat>, c: seq<nat>, j: nat)
    requires GroupOk(g, es, p) && GroupOk(g, es, c) && Elements(p) !! Elements(c) && MergedEntries(es, es', p, c)
    requires j < |p + c|
    ensures (p + c)[j] + 1 < |es'|
    ensures es'[(p + c)[j] + 1].prevTx == if j == 0 then NO_PREV_TX else (p + c)[j - 1] + 1
  {
    hide Deps, SeqFee;
    assert c[0] in Elements(c) && c[|c| - 1] in Elements(c);
    if j < |p| {
      assert p[j] in Elements(p);
      assert es'[p[j] + 1] == es[p[j] + 1];
    } else if j > |p| {
      assert c[j - |p|] != c[0];
      assert es'[c[j - |p|] + 1].prevTx == es[c[j - |p|] + 1].prevTx;
    }
  }

  lemma MergedSummary(g: Graph, es: seq<TxEntry>, es': seq<TxEntry>, p: seq<nat>, c: seq<nat>)
    requires GroupOk(g, es, p) && GroupOk(g, es, c) && MergedEntries(es, es', p, c)
    ensures var e := es'[Tail(c)];
      e.firstTx == p[0] + 1 && e.group == Elements(p + c) && e.deps == Deps(g, p + c) && e.feerate == SeqFee(g, p + c)
  {
    hide Deps, SeqFee;
    DepsConcat(g, p, c);
    SeqFeeConcat(g, p, c);
    assert Elements(p + c) == Elements(c) + Elements(p);
  }

  lemma MergedGroup(g: Graph, es: seq<TxEntry>, es': seq<TxEntry>, p: seq<nat>, c: seq<nat>)
    requires GroupOk(g, es, p) && GroupOk(g, es, c) && Elements(p) !! Elements(c) && MergedEntries(es, es', p, c)
    ensures GroupOk(g, es', p + c)
  {
    hide Deps, SeqFee, MergedEntries;
    var d := p + c;
    assert Distinct(d) by {
      assert forall j :: 0 <= j < |p| ==> p[j] in Elements(p);
      assert forall j :: 0 <= j < |c| ==> c[j] in Elements(c);
    }
    forall j | 0 <= j < |d| ensures d[j] + 1 < |es'| && es'[d[j] + 1].prevTx == if j == 0 then NO_PREV_TX else d[j - 1] + 1 {
      MergedChain(g, es, es', p, c, j);
    }
    MergedSummary(g, es, es', p, c);
    assert Tail(d) == Tail(c) && d[0] == p[0];
  }

  lemma MergeRepresents(g: Graph, es: seq<TxEntry>, es': seq<TxEntry>, a: seq<seq<nat>>, p: seq<nat>, c: seq<nat>, b: seq<seq<nat>>)
    requires Represents(g, es, a + [p, c] + b) && p != [] && c != [] && MergedEntries(es, es', p, c)
    ensures Represents(g, es', a + [p + c] + b)
  {
    hide Deps, SeqFee, CircleOk, MergedEntries, GroupOk;
    var gs, gs' := a + [p, c] + b, a + [p + c] + b;
    assert gs[|a|] == p && gs[|a| + 1] == c;
    MergedGroup(g, es, es', p, c);
    forall k | 0 <= k < |gs'| ensures GroupOk(g, es', gs'[k]) {
      if k != |a| {
        var m := if k < |a| then k else k + 1;
        assert gs'[k] == gs[m];
        OtherGroup(g, es, es', p, c, gs[m]);
      }
    }
    MergeSeparate(a, p, c, b);
    MergeCircle(g, es, es', a, p, c, b);
    MergeSentinel(es, es', p, c);
  }

  lemma MergeSentinel(es: seq<TxEntry>, es': seq<TxEntry>, p: seq<nat>, c: seq<nat>)
    requires p != [] && c != [] && MergedEntries(es, es', p, c)
    ensures |es'| == |es| > 0 && es'[SENTINEL].feerate == es[SENTINEL].feerate
  {
  }

  lemma OtherGroup(g: Graph, es: seq<TxEntry>, es': seq<TxEntry>, p: seq<nat>, c: seq<nat>, d: seq<nat>)
    requires GroupOk(g, es, d) && p != [] && c != [] && MergedEntries(es, es', p, c) && Elements(c) !! Elements(d)
    ensures GroupOk(g, es', d)
  {
    assert c[0] in Elements(c) && c[|c| - 1] in Elements(c);
    assert forall j :: 0 <= j < |d| ==> d[j] in Elements(d);
    GroupStays(g, es, es', d);
  }

  lemma MergeSeparate(a: seq<seq<nat>>, p: seq<nat>, c: seq<nat>, b: seq<seq<nat>>)
    requires Separate(a + [p, c] + b)
    ensures Separate(a + [p + c] + b)
  {
    var gs, gs' := a + [p, c] + b, a + [p + c] + b;
    assert gs[|a|] == p && gs[|a| + 1] == c;
    assert Elements(p + c) == Elements(p) + Elements(c);
    forall i, j | 0 <= i < j < |gs'| ensures Elements(gs'[i]) !! Elements(gs'[j]) {
      if i == |a| {
        assert gs'[j] == gs[j + 1];
      } else if j == |a| {
        assert gs'[i] == gs[i];
      } else {
        assert gs'[i] == gs[if i < |a| then i else i + 1] && gs'[j] == gs[if j < |a| then j else j + 1];
      }
    }
  }

  lemma MergeCircle(g: Graph, es: seq<TxEntry>, es': seq<TxEntry>, a: seq<seq<nat>>, p: seq<nat>, c: seq<nat>, b: seq<seq<nat>>)
    requires Represents(g, es, a + [p, c] + b) && p != [] && c != [] && MergedEntries(es, es', p, c)
    ensures CircleOk(es', a + [p + c] + b)
  {
    hide Deps, SeqFee, GroupOk;
    var gs, gs', n := a + [p, c] + b, a + [p + c] + b, |a|;
    assert gs[n] == p && gs[n + 1] == c && gs'[n] == p + c;
    assert TailAt(gs, n) == Tail(p) && TailAt(gs, n + 1) == Tail(c) && TailAt(gs', n) == Tail(c);
    forall k | 0 <= k <= |gs'| ensures TailAt(gs', k) < |es'| && es'[TailAt(gs', k)].prevGroup == TailAt(gs', k - 1) {
      if k == n {
        assert TailAt(gs', k - 1) == TailAt(gs, k - 1);
      } else {
        var m := if k < n then k else k + 1;
        assert TailAt(gs', k) == TailAt(gs, m);
        assert TailAt(gs', k - 1) == TailAt(gs, m - 1);
        TailsDiffer(g, es, gs, m, n + 1);
        assert es'[TailAt(gs, m)].prevGroup == es[TailAt(gs, m)].prevGroup;
      }
    }
  }

  // ----- swapping a group with the one before it -----

  /** What exchanging `p` and the group `c` behind it does to the entries. */
  ghost predicate SwappedEntries(es: seq<TxEntry>, es': seq<TxEntry>, gs: seq<seq<nat>>, n: nat) {
    var preprev, q, t, next := TailAt(gs, n - 1), TailAt(gs, n), TailAt(gs, n + 1), TailAt(gs, n + 2);
    && SameGroups(es, es') && q < |es| && t < |es| && next < |es|
    && es'[next].prevGroup == q && es'[q].prevGroup == t && es'[t].prevGroup == preprev
    && forall i :: 0 <= i < |es| && i != next && i != q && i != t ==> es'[i].prevGroup == es[i].prevGroup
  }

  lemma SwapRepresents(g: Graph, es: seq<TxEntry>, es': seq<TxEntry>, a: seq<seq<nat>>, p: seq<nat>, c: seq<nat>, b: seq<seq<nat>>)
    requires Represents(g, es, a + [p, c] + b) && SwappedEntries(es, es', a + [p, c] + b, |a|)
    ensures Represents(g, es', a + [c, p] + b)
  {
    hide Deps, SeqFee, CircleOk, GroupOk;
    var gs, gs', n := a + [p, c] + b, a + [c, p] + b, |a|;
    assert gs[n] == p && gs[n + 1] == c && gs'[n] == c && gs'[n + 1] == p;
    forall k | 0 <= k < |gs'| ensures GroupOk(g, es', gs'[k]) {
      var m := SwapIndex(n, k);
      assert gs'[k] == gs[m];
      GroupFollows(g, es, es', gs[m]);
    }
    forall i, j | 0 <= i < j < |gs'| ensures Elements(gs'[i]) !! Elements(gs'[j]) {
      assert gs'[i] == gs[SwapIndex(n, i)] && gs'[j] == gs[SwapIndex(n, j)];
    }
    SwapCircle(g, es, es', a, p, c, b);
  }

  ghost function SwapIndex(n: nat, k: int): int {
    if k == n then n + 1 else if k == n + 1 then n else k
  }

  lemma GroupFollows(g: Graph, es: seq<TxEntry>, es': seq<TxEntry>, c: seq<nat>)
    requires GroupOk(g, es, c) && SameGroups(es, es')
    ensures GroupOk(g, es', c)
  {
    GroupStays(g, es, es', c);
  }

  lemma SwapCircle(g: Graph, es: seq<TxEntry>, es': seq<TxEntry>, a: seq<seq<nat>>, p: seq<nat>, c: seq<nat>, b: seq<seq<nat>>)
    requires Represents(g, es, a + [p, c] + b) && SwappedEntries(es, es', a + [p, c] + b, |a|)
    ensures CircleOk(es', a + [c, p] + b)
  {
    hide Deps, SeqFee, GroupOk;
    var gs, gs', n := a + [p, c] + b, a + [c, p] + b, |a|;
    forall k | 0 <= k <= |gs'| ensures TailAt(gs', k) < |es'| && es'[TailAt(gs', k)].prevGroup == TailAt(gs', k - 1) {
      SwapTail(a, p, c, b, k);
      SwapTail(a, p, c, b, k - 1);
      var m := SwapIndex(n, k);
      assert TailAt(gs, m) < |es|;
      if k != n && k != n + 1 && k != n + 2 {
        TailsDiffer(g, es, gs, m, n);
        TailsDiffer(g, es, gs, m, n + 1);
        TailsDiffer(g, es, gs, m, n + 2);
        assert es'[TailAt(gs, m)].prevGroup == es[TailAt(gs, m)].prevGroup;
      } else {
        TailsDiffer(g, es, gs, n, n + 1);
        TailsDiffer(g, es, gs, n, n + 2);
        TailsDiffer(g, es, gs, n + 1, n + 2);
      }
    }
  }

  lemma SwapTail(a: seq<seq<nat>>, p: seq<nat>, c: seq<nat>, b: seq<seq<nat>>, k: int)
    ensures TailAt(a + [c, p] + b, k) == TailAt(a + [p, c] + b, SwapIndex(|a|, k))
  {
  }

  // ----- one pass -----

  lemma NeighbourTails(a: seq<seq<nat>>, p: seq<nat>, c: seq<nat>, b: seq<seq<nat>>)
    requires p != [] && c != []
    ensures var gs := a + [p, c] + b;
      && TailAt(gs, |a| - 1) == TailAt(a, |a| - 1) && TailAt(gs, |a|) == Tail(p)
      && TailAt(gs, |a| + 1) == Tail(c) && TailAt(gs, |a| + 2) == TailAt(b, 0)
  {
  }

  lemma LastGroup(g: Graph, es: seq<TxEntry>, left: seq<seq<nat>>, c: seq<nat>, right: seq<seq<nat>>)
    requires Represents(g, es, left + [c] + right)
    ensures GroupOk(g, es, c) && Tail(c) < |es| && TailAt(left, |left| - 1) < |es|
    ensures es[Tail(c)].prevGroup == TailAt(left, |left| - 1)
    ensures left == [] ==> es[TailAt(left, |left| - 1)].feerate == EMPTY
    ensures left != [] ==> GroupOk(g, es, left[|left| - 1]) && TailAt(left, |left| - 1) == Tail(left[|left| - 1])
    ensures left != [] ==> left == left[..|left| - 1] + [left[|left| - 1]]
    ensures left != [] ==> left + [c] + right == left[..|left| - 1] + [left[|left| - 1], c] + right
  {
    hide Deps, SeqFee;
    var gs, n := left + [c] + right, |left|;
    assert gs[n] == c;
    assert TailAt(gs, n) == Tail(c) && TailAt(gs, n - 1) == TailAt(left, n - 1);
    if left != [] {
      assert gs[n - 1] == left[n - 1];
    }
  }

  /** Merge the group at `cur` with the one before it. */
  method Merge(ghost g: Graph, es: seq<TxEntry>, cur: nat, prev: nat,
               ghost a: seq<seq<nat>>, ghost p: seq<nat>, ghost c: seq<nat>, ghost b: seq<seq<nat>>)
    returns (es': seq<TxEntry>, prev': nat)
    requires Represents(g, es, a + [p, c] + b) && GroupOk(g, es, p) && GroupOk(g, es, c)
    requires cur == Tail(c) && prev == Tail(p)
    ensures Represents(g, es', a + [p + c] + b) && |es'| == |es| && prev' == TailAt(a, |a| - 1)
  {
    hide Deps, SeqFee, Represents, Elements;
    es' := es;
    es' := es'[cur := es'[cur].(group := es'[cur].group + es'[prev].group)];
    es' := es'[cur := es'[cur].(deps := es'[cur].deps + es'[prev].deps)];
    es' := es'[cur := es'[cur].(feerate := es'[cur].feerate.Plus(es'[prev].feerate))];
    var first := es'[cur].firstTx;
    es' := es'[first := es'[first].(prevTx := prev)];
    es' := es'[cur := es'[cur].(firstTx := es'[prev].firstTx)];
    prev' := es'[prev].prevGroup;
    es' := es'[cur := es'[cur].(prevGroup := prev')];
    TailsApart(g, es, a, p, c, b);
    assert MergedEntries(es, es', p, c);
    MergeRepresents(g, es, es', a, p, c, b);
  }

  lemma TailsApart(g: Graph, es: seq<TxEntry>, a: seq<seq<nat>>, p: seq<nat>, c: seq<nat>, b: seq<seq<nat>>)
    requires Represents(g, es, a + [p, c] + b) && p != [] && c != []
    ensures Tail(c) != Tail(p) && c[0] + 1 != Tail(p) && Tail(c) > 0 && Tail(p) > 0
    ensures Tail(p) < |es| && Tail(c) < |es| && es[Tail(p)].prevGroup == TailAt(a, |a| - 1)
    ensures TailAt(b, 0) < |es| && TailAt(b, 0) != Tail(p) && TailAt(b, 0) != Tail(c)
  {
    hide Deps, SeqFee;
    var gs := a + [p, c] + b;
    assert gs[|a|] == p && gs[|a| + 1] == c;
    NeighbourTails(a, p, c, b);
    TailsDiffer(g, es, gs, |a|, |a| + 1);
    TailsDiffer(g, es, gs, |a|, |a| + 2);
    TailsDiffer(g, es, gs, |a| + 1, |a| + 2);
    assert c[0] in Elements(c) && p[|p| - 1] in Elements(p);
  }

  /** Swap the group at `cur` with the one before it. */
  method Swap(ghost g: Graph, es: seq<TxEntry>, cur: nat, prev: nat, next: nat,
              ghost a: seq<seq<nat>>, ghost p: seq<nat>, ghost c: seq<nat>, ghost b: seq<seq<nat>>)
    returns (es': seq<TxEntry>, preprev: nat)
    requires Represents(g, es, a + [p, c] + b) && p != [] && c != []
    requires cur == Tail(c) && prev == Tail(p) && next == TailAt(b, 0)
    ensures Represents(g, es', a + [c, p] + b) && |es'| == |es| && preprev == TailAt(a, |a| - 1)
  {
    hide Deps, SeqFee, Represents;
    TailsApart(g, es, a, p, c, b);
    NeighbourTails(a, p, c, b);
    es' := es;
    preprev := es'[prev].prevGroup;
    es' := es'[next := es'[next].(prevGroup := prev)];
    es' := es'[prev := es'[prev].(prevGroup := cur)];
    es' := es'[cur := es'[cur].(prevGroup := preprev)];
    assert SwappedEntries(es, es', a + [p, c] + b, |a|);
    SwapRepresents(g, es, es', a, p, c, b);
  }

  /** Move the last group forward as long as it has a higher feerate than the one before it. */
  method Settle(ghost g: Graph, entries: seq<TxEntry>, idx: nat, ghost gs: seq<seq<nat>>) returns (es: seq<TxEntry>)
    requires Represents(g, entries, gs + [[idx]])
    ensures |es| == |entries| && Represents(g, es, Insert(g, gs, [idx]))
  {
    hide Deps, SeqFee, Represents, GroupOk, Elements;
    es := entries;
    ghost var left, c, right := gs, [idx], [];
    assert left + [c] + right == gs + [[idx]];
    LastGroup(g, es, left, c, right);
    var cur, next := idx + 1, SENTINEL;
    var prev := es[cur].prevGroup;
    while Higher(es[cur].feerate, es[prev].feerate)
      invariant |es| == |entries| && c != [] && Represents(g, es, left + [c] + right)
      invariant cur == Tail(c) < |es| && prev == TailAt(left, |left| - 1) < |es| && next == TailAt(right, 0)
      invariant Insert(g, left, c) + right == Insert(g, gs, [idx])
      decreases |left|
    {
      LastGroup(g, es, left, c, right);
      NotAboveNothing(es[cur].feerate);
      ghost var a, p := left[..|left| - 1], left[|left| - 1];
      GroupParts(g, es, c);
      GroupParts(g, es, p);
      if es[cur].deps !! es[prev].group {
        var preprev;
        es, preprev := Swap(g, es, cur, prev, next, a, p, c, right);
        next, prev := prev, preprev;
        assert a + [c, p] + right == a + [c] + ([p] + right);
        assert Insert(g, left, c) + right == Insert(g, a, c) + ([p] + right);
        left, right := a, [p] + right;
      } else {
        es, prev := Merge(g, es, cur, prev, a, p, c, right);
        left, c := a, p + c;
      }
      LastGroup(g, es, left, c, right);
    }
    LastGroup(g, es, left, c, right);
    GroupParts(g, es, c);
    if left != [] {
      GroupParts(g, es, left[|left| - 1]);
    }
    assert Insert(g, left, c) == left + [c];
  }

  lemma NotAboveNothing(f: FeeFrac)
    ensures !Higher(f, EMPTY)
  {
  }

  lemma GroupParts(g: Graph, es: seq<TxEntry>, c: seq<nat>)
    requires GroupOk(g, es, c)
    ensures c != [] && Tail(c) < |es|
    ensures es[Tail(c)].group == Elements(c) && es[Tail(c)].deps == Deps(g, c) && es[Tail(c)].feerate == SeqFee(g, c)
  {
  }

  // ----- reading the groups back -----

  /** The last `done` transactions of `flat` are written, from the back or, reversed, from the front. */
  ghost predicate Written(lin: seq<nat>, flat: seq<nat>, rev: bool, done: nat) {
    && |lin| == |flat| && done <= |flat|
    && forall x :: |flat| - done <= x < |flat| ==> lin[if rev then |flat| - 1 - x else x] == flat[x]
  }

  lemma WrittenAll(lin: seq<nat>, flat: seq<nat>, rev: bool)
    requires Written(lin, flat, rev, |flat|)
    ensures lin == if rev then Reverse(flat) else flat
  {
    if rev {
      forall x | 0 <= x < |lin| ensures lin[x] == Reverse(flat)[x] {
        assert lin[|flat| - 1 - (|flat| - 1 - x)] == flat[|flat| - 1 - x];
      }
    }
  }

  /** Where the transactions of a group are in the whole order. */
  lemma FlattenAt(gs: seq<seq<nat>>, k: nat, j: nat)
    requires k < |gs| && j < |gs[k]|
    ensures var n := |Flatten(gs[..k])|; n + j < |Flatten(gs)| && Flatten(gs)[n + j] == gs[k][j]
    ensures |Flatten(gs)| == |Flatten(gs[..k])| + |gs[k]| + |Flatten(gs[k + 1..])|
  {
    FlattenSplit(gs, k);
    assert Flatten(gs[k..]) == gs[k] + Flatten(gs[k..][1..]);
    assert gs[k..][1..] == gs[k + 1..];
  }

  lemma FlattenFrom(gs: seq<seq<nat>>, k: nat)
    requires k < |gs|
    ensures |Flatten(gs[k..])| == |gs[k]| + |Flatten(gs[k + 1..])|
    ensures |Flatten(gs)| == |Flatten(gs[..k])| + |Flatten(gs[k..])|
  {
    FlattenSplit(gs, k);
    assert Flatten(gs[k..]) == gs[k] + Flatten(gs[k..][1..]);
    assert gs[k..][1..] == gs[k + 1..];
  }

  /** Write the transactions of group `k`, from its last to its first. */
  method WriteGroup(ghost g: Graph, es: seq<TxEntry>, lin: array<nat>, rev: bool, curGroup: nat, done: nat,
                    ghost gs: seq<seq<nat>>, ghost k: nat) returns (done': nat)
    requires k < |gs| && GroupOk(g, es, gs[k]) && curGroup == Tail(gs[k])
    requires done == |Flatten(gs[k + 1..])| && Written(lin[..], Flatten(gs), rev, done)
    modifies lin
    ensures done' == |Flatten(gs[k..])| && Written(lin[..], Flatten(gs), rev, done')
  {
    hide Deps, SeqFee, Flatten, Elements;
    ghost var c, flat := gs[k], Flatten(gs);
    FlattenFrom(gs, k);
    FlattenAt(gs, k, |c| - 1);
    done' := done;
    var curTx := curGroup;
    ghost var m := |c|;
    while curTx != NO_PREV_TX
      invariant 0 <= m <= |c| && curTx == if m == 0 then NO_PREV_TX else c[m - 1] + 1
      invariant done' == done + (|c| - m) && Written(lin[..], flat, rev, done')
      decreases m
    {
      FlattenAt(gs, k, m - 1);
      if rev {
        lin[done'] := curTx - 1;
      } else {
        lin[lin.Length - (done' + 1)] := curTx - 1;
      }
      done' := done' + 1;
      curTx := es[curTx].prevTx;
      m := m - 1;
    }
  }

  /** Convert the entries back to a linearization, overwriting the existing one. */
  method WriteBack(ghost g: Graph, es: seq<TxEntry>, lin: array<nat>, rev: bool, ghost gs: seq<seq<nat>>)
    requires Represents(g, es, gs) && lin.Length == |Flatten(gs)|
    modifies lin
    ensures lin[..] == if rev then Reverse(Flatten(gs)) else Flatten(gs)
  {
    hide Deps, SeqFee, Flatten, Elements, GroupOk;
    ghost var k := |gs|;
    var curGroup := es[SENTINEL].prevGroup;
    var done := 0;
    assert gs[k..] == [] && Flatten([]) == [] by { FlattenNone(); }
    assert TailAt(gs, |gs|) == SENTINEL;
    while curGroup != SENTINEL
      invariant 0 <= k <= |gs| && curGroup == TailAt(gs, k - 1)
      invariant done == |Flatten(gs[k..])| && Written(lin[..], Flatten(gs), rev, done)
      decreases k
    {
      GroupParts(g, es, gs[k - 1]);
      done := WriteGroup(g, es, lin, rev, curGroup, done, gs, k - 1);
      k := k - 1;
      assert TailAt(gs, k) == curGroup;
      curGroup := es[curGroup].prevGroup;
    }
    CircleEnds(g, es, gs, k);
    assert gs[0..] == gs;
    WrittenAll(lin[..], Flatten(gs), rev);
  }

  lemma CircleEnds(g: Graph, es: seq<TxEntry>, gs: seq<seq<nat>>, k: nat)
    requires Represents(g, es, gs) && k <= |gs|
    ensures TailAt(gs, k - 1) == SENTINEL <==> k == 0
  {
    hide Deps, SeqFee, CircleOk;
    assert k > 0 ==> GroupOk(g, es, gs[k - 1]);
  }

  lemma FlattenNone()
    ensures Flatten([]) == []
  {
  }

  // ----- the passes -----

  /** The next transaction is in none of the groups so far. */
  lemma NextIsNew(g: Graph, p: seq<nat>, i: nat)
    requires g.Valid() && AllSized(g, p) && Elements(p) <= g.used && IsLinearization(g, Elements(p), p) && i < |p|
    ensures forall k :: 0 <= k < |PassGroups(g, p[..i])| ==> p[i] !in Elements(PassGroups(g, p[..i])[k])
    ensures PassGroups(g, p[..i + 1]) == Insert(g, PassGroups(g, p[..i]), [p[i]])
  {
    hide SeqFee, Insert, Graph.Valid, IsChunk, Connected;
    var gs := PassGroups(g, p[..i]);
    PrefixLinearizes(g, p, i);
    PassGroupsOk(g, p[..i]);
    assert p[..i + 1][..i] == p[..i];
    forall k, x | 0 <= k < |gs| && x in Elements(gs[k]) ensures x in Elements(p[..i]) {
      var j :| 0 <= j < |gs[k]| && gs[k][j] == x;
      FlattenAt(gs, k, j);
      assert x in Elements(Flatten(gs));
    }
    assert p[i] !in Elements(p[..i]);
  }

  /** Build the groups of a pass over `lin`. */
  method BuildGroups(g: Graph, lin: array<nat>, rev: bool, entries: seq<TxEntry>) returns (es: seq<TxEntry>)
    requires g.Cluster() && IsLinearization(g, g.used, lin[..])
    requires |entries| == |g.entries| + 1 && entries[SENTINEL].feerate == EMPTY
    ensures |es| == |entries| && Represents(PassGraph(g, rev), es, PassGroups(PassGraph(g, rev), PassOrder(lin[..], rev)))
  {
    hide SeqFee, Deps, Represents, Insert, Mirror, Graph.Valid, IsLinearization, AllSized;
    ghost var m, p := PassGraph(g, rev), PassOrder(lin[..], rev);
    PassInput(g, lin[..], rev);
    es := entries[SENTINEL := entries[SENTINEL].(prevGroup := SENTINEL)];
    NoneRepresented(m, es);
    assert p[..0] == [];
    for i := 0 to lin.Length
      invariant |es| == |entries| && Represents(m, es, PassGroups(m, p[..i]))
    {
      var idx := lin[if rev then lin.Length - 1 - i else i];
      assert idx == p[i] && idx in Elements(p);
      PositionInRange(g, idx);
      NextIsNew(m, p, i);
      MirrorAt(g, idx);
      es := NewGroup(m, es, idx, if rev then g.Desc(idx) else g.Anc(idx),
                     if rev then Negate(g.Fee(idx)) else g.Fee(idx), PassGroups(m, p[..i]));
      es := Settle(m, es, idx, PassGroups(m, p[..i]));
    }
    assert p[..lin.Length] == p;
  }

  lemma PositionInRange(g: Graph, idx: nat)
    requires g.Cluster() && idx in g.used
    ensures idx < |g.entries|
  {
  }

  lemma NoneRepresented(g: Graph, es: seq<TxEntry>)
    requires |es| > 0 && es[SENTINEL].feerate == EMPTY && es[SENTINEL].prevGroup == SENTINEL
    ensures Represents(g, es, PassGroups(g, []))
  {
  }

  /** Insert a new group containing just `idx` at the back of the list of groups. */
  method NewGroup(ghost g: Graph, entries: seq<TxEntry>, idx: nat, deps: set<nat>, fee: FeeFrac, ghost gs: seq<seq<nat>>)
    returns (es: seq<TxEntry>)
    requires Represents(g, entries, gs) && idx + 1 < |entries| && deps == g.Anc(idx) && fee == g.Fee(idx)
    requires forall k :: 0 <= k < |gs| ==> idx !in Elements(gs[k])
    ensures |es| == |entries| && Represents(g, es, gs + [[idx]])
  {
    hide GroupOk, CircleOk, Separate, Elements;
    var cur := idx + 1;
    es := entries[cur := TxEntry(NO_PREV_TX, cur, entries[SENTINEL].prevGroup, {idx}, deps, fee)];
    es := es[SENTINEL := es[SENTINEL].(prevGroup := cur)];
    AppendRepresents(g, entries, es, gs, idx);
  }

  /** What one pass guarantees: an order as good as before, whose chunks are connected. */
  ghost predicate PassGuarantee(g: Graph, before: seq<nat>, after: seq<nat>) {
    && IsLinearization(g, g.used, after) && AsGood(g, after, before)
    && forall k :: 0 <= k < |ChunksOf(g, after)| ==> Connected(g, Elements(ChunksOf(g, after)[k]))
  }

  lemma ForwardGuarantee(g: Graph, lin: seq<nat>)
    requires g.Cluster() && IsLinearization(g, g.used, lin)
    ensures PassGuarantee(g, lin, Flatten(PassGroups(g, lin)))
  {
    hide SeqFee, PassGroups, Flatten, ChunksOf, AsGood, Connected, Distinct, Topological;
    LinearizationSized(g, lin);
    PassImproves(g, lin);
    DominanceIsAsGood(g, Flatten(PassGroups(g, lin)), lin);
  }

  lemma BackwardGuarantee(g: Graph, lin: seq<nat>)
    requires g.Cluster() && IsLinearization(g, g.used, lin)
    ensures PassGuarantee(g, lin, Reverse(Flatten(PassGroups(Mirror(g), Reverse(lin)))))
  {
    hide SeqFee, PassGroups, Flatten, ChunksOf, AsGood, Connected, Distinct, Topological, Mirror, Dominates, NonIncreasing, AllSized, Graph.Cluster, Graph.Valid;
    var m, r := Mirror(g), Reverse(lin);
    PassInput(g, lin, true);
    MirrorUsed(g);
    var gs := PassGroups(m, r);
    var flat := Flatten(gs);
    PassImproves(m, r);
    ReverseTwice(flat);
    ReverseElements(flat);
    var out := Reverse(flat);
    BackLinearizes(g, out);
    LinearizationSized(g, out);
    LinearizationSized(g, lin);
    SeqFeeIsFeeRate(g, out);
    SeqFeeIsFeeRate(g, lin);
    MirrorDominates(g, out, lin);
    DominanceIsAsGood(g, out, lin);
    BackwardChunks(g, flat, gs);
    forall k | 0 <= k < |ChunksOf(g, out)| ensures Connected(g, Elements(ChunksOf(g, out)[k])) {
      ReverseElements(gs[|gs| - 1 - k]);
      MirrorConnected(g, Elements(gs[|gs| - 1 - k]));
    }
  }

  lemma BackwardChunks(g: Graph, flat: seq<nat>, gs: seq<seq<nat>>)
    requires AllSized(g, Reverse(flat)) && AllSized(Mirror(g), flat) && ChunksOf(Mirror(g), flat) == gs
    ensures ChunksOf(g, Reverse(flat)) == MirrorGroups(gs)
  {
    hide SeqFee, Flatten, ChunksOf, Mirror, NonIncreasing, IsChunk, AllSized;
    ChunksOfIsChunking(Mirror(g), flat);
    MirrorChunking(g, flat, gs);
    ChunksOfIsChunking(g, Reverse(flat));
    ChunkingUnique(g, Reverse(flat), ChunksOf(g, Reverse(flat)), MirrorGroups(gs));
  }

  /** One pass: from back to front if `rev`, and from front to back otherwise. */
  method Pass(g: Graph, lin: array<nat>, rev: bool, entries: seq<TxEntry>) returns (es: seq<TxEntry>)
    requires g.Cluster() && IsLinearization(g, g.used, lin[..])
    requires |entries| == |g.entries| + 1 && entries[SENTINEL].feerate == EMPTY
    modifies lin
    ensures lin[..] == if rev then BackwardPass(g, old(lin[..])) else ForwardPass(g, old(lin[..]))
    ensures PassGuarantee(g, old(lin[..]), lin[..])
    ensures |es| == |entries| && es[SENTINEL].feerate == EMPTY
  {
    hide SeqFee, PassGroups, Mirror, AsGood, IsLinearization, PassGuarantee, GroupOk, CircleOk, Separate, Graph.Cluster, Graph.Valid, AllSized;
    ghost var before := lin[..];
    ghost var m, p := PassGraph(g, rev), PassOrder(before, rev);
    PassInput(g, before, rev);
    es := BuildGroups(g, lin, rev, entries);
    SameLength(m, p);
    WriteBack(m, es, lin, rev, PassGroups(m, p));
    if rev {
      BackwardGuarantee(g, before);
    } else {
      ForwardGuarantee(g, before);
    }
  }

  lemma SameLength(g: Graph, lin: seq<nat>)
    requires g.Valid() && AllSized(g, lin) && Elements(lin) <= g.used && IsLinearization(g, Elements(lin), lin)
    ensures |Flatten(PassGroups(g, lin))| == |lin|
  {
    hide SeqFee, PassGroups, Flatten, IsChunk, Connected, Graph.Valid, Topological, Elements;
    PassGroupsOk(g, lin);
    DistinctCount(lin);
    DistinctCount(Flatten(PassGroups(g, lin)));
  }

  /** Improve a given linearization in two passes. */
  method PostLinearize(g: Graph, lin: array<nat>)
    requires g.Cluster() && IsLinearization(g, g.used, lin[..])
    modifies lin
    ensures lin[..] == PostLinearized(g, old(lin[..]))
    ensures IsLinearization(g, g.used, lin[..]) && AsGood(g, lin[..], old(lin[..]))
    ensures forall k :: 0 <= k < |ChunksOf(g, lin[..])| ==> Connected(g, Elements(ChunksOf(g, lin[..])[k]))
    ensures OneChildEach(g) || OneParentEach(g) ==> Optimal(g, lin[..])
  {
    hide ChunksOf, AsGood, Connected, Distinct, Topological, Graph.Cluster, BackwardPass, ForwardPass, Optimal, OneChildEach, OneParentEach;
    ghost var first := lin[..];
    var entries := seq(|g.entries| + 1, _ => TxEntry(0, 0, 0, {}, {}, EMPTY));
    entries := Pass(g, lin, true, entries);
    ghost var second := lin[..];
    entries := Pass(g, lin, false, entries);
    AsGoodTrans(g, lin[..], second, first);
    if OneChildEach(g) || OneParentEach(g) {
      TreeOptimal(g, first);
    }
  }

  // ----- trees -----

  ghost predicate OneParentEach(g: Graph) {
    forall y, a, b :: y in g.used && a in g.used && b in g.used && IsChild(g, a, y) && IsChild(g, b, y) ==> a == b
  }

  lemma MirrorTree(g: Graph)
    requires g.Valid() && g.Acyclic() && OneParentEach(g)
    ensures Mirror(g).Valid() && Chained(Mirror(g))
  {
    var m := Mirror(g);
    MirrorValid(g);
    forall i | i in m.used ensures m.Anc(i) * m.Desc(i) == {i} {
      MirrorAt(g, i);
    }
    forall y, a, b | y in m.used && IsChild(m, y, a) && IsChild(m, y, b) ensures a == b {
      MirrorChild(g, y, a);
      MirrorChild(g, y, b);
    }
    OneChildIsChained(m);
  }

  lemma MirrorChild(g: Graph, y: nat, a: nat)
    requires g.Valid() && y in g.used && IsChild(Mirror(g), y, a)
    ensures a in g.used && IsChild(g, a, y)
  {
    hide Mirror;
    MirrorAt(g, y);
    MirrorAt(g, a);
    assert g.Desc(a) * g.Anc(y) == g.Anc(y) * g.Desc(a) <= {y, a} == {a, y};
  }

  lemma ForwardOptimal(g: Graph, lin: seq<nat>)
    requires g.Cluster() && IsLinearization(g, g.used, lin) && OneChildEach(g)
    ensures Optimal(g, ForwardPass(g, lin))
  {
    hide SeqFee, PassGroups, Flatten, AsGood, Distinct, Topological, Chained, OneChildEach, Dominates;
    OneChildIsChained(g);
    LinearizationSized(g, lin);
    PassImproves(g, lin);
    forall other | IsLinearization(g, g.used, other) ensures AsGood(g, ForwardPass(g, lin), other) {
      TreePassBest(g, lin, other);
      LinearizationSized(g, other);
      DominanceIsAsGood(g, ForwardPass(g, lin), other);
    }
  }

  lemma BackwardOptimal(g: Graph, lin: seq<nat>)
    requires g.Cluster() && IsLinearization(g, g.used, lin) && OneParentEach(g)
    ensures Optimal(g, BackwardPass(g, lin))
  {
    hide SeqFee, AsGood, Distinct, Topological, Chained, Dominates, Mirror, PassGroups, Flatten, Reverse, PassGuarantee, Graph.Valid;
    MirrorTree(g);
    MirrorUsed(g);
    PassInput(g, lin, true);
    BackwardLinearizes(g, lin);
    var out := BackwardPass(g, lin);
    ReverseTwice(Flatten(PassGroups(Mirror(g), Reverse(lin))));
    forall other | IsLinearization(g, g.used, other) ensures AsGood(g, out, other) {
      PassInput(g, other, true);
      TreePassBest(Mirror(g), Reverse(lin), Reverse(other));
      LinearizationSized(g, out);
      LinearizationSized(g, other);
      SeqFeeIsFeeRate(g, out);
      SeqFeeIsFeeRate(g, other);
      MirrorDominates(g, out, other);
      DominanceIsAsGood(g, out, other);
    }
  }

  lemma BackwardLinearizes(g: Graph, lin: seq<nat>)
    requires g.Cluster() && IsLinearization(g, g.used, lin)
    ensures IsLinearization(g, g.used, BackwardPass(g, lin))
  {
    hide Mirror, PassGroups, Flatten, Reverse, AsGood, ChunksOf;
    BackwardGuarantee(g, lin);
  }

  /** If all transactions have at most one child, or all have at most one parent, the result is optimal. */
  lemma TreeOptimal(g: Graph, lin: seq<nat>)
    requires g.Cluster() && IsLinearization(g, g.used, lin) && (OneChildEach(g) || OneParentEach(g))
    ensures Optimal(g, PostLinearized(g, lin))
  {
    hide AsGood, Distinct, Topological, BackwardPass, OneChildEach, OneParentEach, PassGroups, Flatten, ChunksOf;
    var back := BackwardPass(g, lin);
    BackwardLinearizes(g, lin);
    if OneChildEach(g) {
      ForwardOptimal(g, back);
    } else {
      BackwardOptimal(g, lin);
      ForwardGuarantee(g, back);
      forall other | IsLinearization(g, g.used, other) ensures AsGood(g, PostLinearized(g, lin), other) {
        AsGoodTrans(g, PostLinearized(g, lin), back, other);
      }
    }
  }

  lemma AsGoodTrans(g: Graph, a: seq<nat>, b: seq<nat>, c: seq<nat>)
    requires AsGood(g, a, b) && AsGood(g, b, c)
    ensures AsGood(g, a, c)
  {
    hide ChunksOf, AtSize, AllSized;
    var fa, fb, fc := ChunkFees(g, ChunksOf(g, a)), ChunkFees(g, ChunksOf(g, b)), ChunkFees(g, ChunksOf(g, c));
    forall x: real | x >= 0.0 ensures AtSize(fa, x) >= AtSize(fc, x) {
      assert AtSize(fa, x) >= AtSize(fb, x) && AtSize(fb, x) >= AtSize(fc, x);
    }
  }
}
