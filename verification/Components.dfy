/** Connected components within a subset of a graph. */
module Components {
  import opened NatSets
  import opened Graphs

  /** `s` holds, with each member, everything in `within` related to it in either direction. */
  ghost predicate Detached(g: Graph, within: set<nat>, s: set<nat>) {
    s <= within && forall i :: i in s ==> g.Anc(i) * within <= s && g.Desc(i) * within <= s
  }

  /** The least detached part of `within` that contains `tx`. */
  ghost predicate IsComponent(g: Graph, within: set<nat>, tx: nat, s: set<nat>) {
    tx in s && Detached(g, within, s) &&
    forall d :: Detached(g, within, d) && tx in d ==> s <= d
  }

  /** A set that is one component of itself. */
  ghost predicate Connected(g: Graph, s: set<nat>) {
    forall d :: Detached(g, s, d) && d != {} ==> d == s
  }

  /** Everything related to a member of `s`. */
  function Related(g: Graph, s: set<nat>): set<nat> {
    set i, x | i in s && x in g.Anc(i) + g.Desc(i) :: x
  }

  /** What the search for a component keeps: `ret` is found, and `front` not yet expanded. */
  ghost predicate Growing(g: Graph, todo: set<nat>, tx: nat, ret: set<nat>, front: set<nat>) {
    && ret <= todo && front <= todo
    && tx in ret + front
    && (forall i :: i in ret - front ==> g.Anc(i) * todo <= ret && g.Desc(i) * todo <= ret)
    && forall d :: Detached(g, todo, d) && tx in d ==> ret + front <= d
  }

  lemma GrowStep(g: Graph, todo: set<nat>, tx: nat, ret: set<nat>, front: set<nat>)
    requires g.Valid() && todo <= g.used && Growing(g, todo, tx, ret, front)
    requires front <= ret || ret == {}
    ensures var next := (ret + Related(g, front)) * todo;
      ret <= next && Growing(g, todo, tx, next, next - ret)
  {
    hide Related, Graph.Valid;
    var next := (ret + Related(g, front)) * todo;
    RelatedGrows(g, todo, front);
    forall i | i in next - (next - ret) ensures g.Anc(i) * todo <= next && g.Desc(i) * todo <= next {
      assert i in ret;
      if i !in front {
        assert i in ret - front;
      }
    }
    forall d | Detached(g, todo, d) && tx in d ensures next <= d {
      RelatedStays(g, todo, d, front);
    }
  }

  method GetConnectedComponent(g: Graph, todo: set<nat>, tx: nat) returns (ret: set<nat>)
    requires g.Valid() && todo <= g.used && tx in todo
    ensures IsComponent(g, todo, tx, ret)
  {
    hide Graph.Valid, Related, Detached;
    var toAdd := {tx};
    ret := {};
    while toAdd != {}
      invariant Growing(g, todo, tx, ret, toAdd)
      invariant toAdd <= ret || ret == {}
      decreases todo - ret, toAdd
    {
      GrowStep(g, todo, tx, ret, toAdd);
      var before := ret;
      ret := (ret + Related(g, toAdd)) * todo;
      toAdd := ret - before;
      if toAdd != {} {
        assert todo - ret < todo - before;
      } else {
        assert ret == before;
      }
    }
    GrownIsDetached(g, todo, tx, ret);
  }

  lemma GrownIsDetached(g: Graph, todo: set<nat>, tx: nat, ret: set<nat>)
    requires Growing(g, todo, tx, ret, {})
    ensures IsComponent(g, todo, tx, ret)
  {
    assert ret - {} == ret && ret + {} == ret;
  }

  lemma RelatedGrows(g: Graph, todo: set<nat>, s: set<nat>)
    requires g.Valid() && s <= todo <= g.used
    ensures s <= Related(g, s) * todo
    ensures forall i :: i in s ==> g.Anc(i) * todo <= Related(g, s) && g.Desc(i) * todo <= Related(g, s)
  {
    forall i | i in s ensures i in Related(g, s) {
      assert i in g.Anc(i) + g.Desc(i);
    }
    forall i, x | i in s && x in g.Anc(i) + g.Desc(i) ensures x in Related(g, s) {
    }
  }

  lemma RelatedStays(g: Graph, todo: set<nat>, d: set<nat>, s: set<nat>)
    requires Detached(g, todo, d) && s <= d
    ensures Related(g, s) * todo <= d
  {
  }

  /** The component that contains the first transaction of `todo`, if any. */
  method FindConnectedComponent(g: Graph, todo: set<nat>) returns (ret: set<nat>)
    requires g.Valid() && todo <= g.used
    ensures todo == {} ==> ret == {}
    ensures todo != {} ==> IsComponent(g, todo, First(todo), ret)
  {
    if todo == {} {
      return todo;
    }
    ret := GetConnectedComponent(g, todo, First(todo));
  }

  /** Determine if a subset is connected. */
  method IsConnected(g: Graph, subset: set<nat>) returns (b: bool)
    requires g.Valid() && subset <= g.used
    ensures b <==> Connected(g, subset)
  {
    var component := FindConnectedComponent(g, subset);
    b := component == subset;
    if subset != {} && b {
      forall d | Detached(g, subset, d) && d != {} ensures d == subset {
        Complement(g, subset, d);
        assert First(subset) !in d ==> subset <= subset - d;
      }
    }
  }

  /** What is left when a detached part is taken away is detached too. */
  lemma Complement(g: Graph, within: set<nat>, d: set<nat>)
    requires g.Valid() && within <= g.used && Detached(g, within, d)
    ensures Detached(g, within, within - d)
  {
  }

  lemma DetachedTrans(g: Graph, within: set<nat>, mid: set<nat>, d: set<nat>)
    requires Detached(g, within, mid) && Detached(g, mid, d)
    ensures Detached(g, within, d)
  {
  }

  lemma DetachedClosed(g: Graph, within: set<nat>, d: set<nat>, c: set<nat>)
    requires Detached(g, within, d) && Closed(g, within, c)
    ensures Closed(g, within, d) && Closed(g, within, c * d)
  {
  }
}
