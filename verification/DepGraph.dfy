/** The dependency graph that is built and changed in place. */
module DepGraphs {
  import opened NatSets
  import opened FeeFracs
  import opened Graphs

  // ----- reachability, by paths -----

  /** Position `k` of a walk and the next are joined by an edge. */
  ghost predicate IsEdge(edges: set<(nat, nat)>, p: seq<nat>, k: nat) {
    k + 1 < |p| && (p[k], p[k + 1]) in edges
  }

  /** A walk from `a` to `b` along edges. */
  ghost predicate IsPath(edges: set<(nat, nat)>, p: seq<nat>, a: nat, b: nat) {
    && p != [] && p[0] == a && p[|p| - 1] == b
    && forall k :: 0 <= k < |p| - 1 ==> IsEdge(edges, p, k)
  }

  /** The reflexive-transitive closure of `edges`. */
  ghost predicate Reach(edges: set<(nat, nat)>, a: nat, b: nat) {
    exists p :: IsPath(edges, p, a, b)
  }

  lemma ReachSelf(edges: set<(nat, nat)>, a: nat)
    ensures Reach(edges, a, a)
  {
    assert IsPath(edges, [a], a, a);
  }

  lemma ReachTrans(edges: set<(nat, nat)>, a: nat, b: nat, c: nat)
    requires Reach(edges, a, b) && Reach(edges, b, c)
    ensures Reach(edges, a, c)
  {
    var p :| IsPath(edges, p, a, b);
    var q :| IsPath(edges, q, b, c);
    var r := p + q[1..];
    forall k | 0 <= k < |r| - 1 ensures IsEdge(edges, r, k) {
      if k < |p| - 1 {
        assert IsEdge(edges, p, k);
      } else {
        assert IsEdge(edges, q, k - (|p| - 1));
      }
    }
    assert IsPath(edges, r, a, c);
  }

  lemma ReachMore(edges: set<(nat, nat)>, more: set<(nat, nat)>, a: nat, b: nat)
    requires edges <= more && Reach(edges, a, b)
    ensures Reach(more, a, b)
  {
    var p :| IsPath(edges, p, a, b);
    forall k | 0 <= k < |p| - 1 ensures IsEdge(more, p, k) {
      assert IsEdge(edges, p, k);
    }
    assert IsPath(more, p, a, b);
  }

  lemma ReachEdge(edges: set<(nat, nat)>, a: nat, b: nat)
    requires (a, b) in edges
    ensures Reach(edges, a, b)
  {
    assert IsPath(edges, [a, b], a, b);
  }

  lemma PathEnds(edges: set<(nat, nat)>, p: seq<nat>, a: nat, b: nat)
    requires IsPath(edges, p, a, b)
    ensures |p| == 1 || ((a, p[1]) in edges && (p[|p| - 2], b) in edges)
  {
    if |p| > 1 {
      assert IsEdge(edges, p, 0) && IsEdge(edges, p, |p| - 2);
    }
  }

  /** A walk that enters or leaves a vertex without edges does not leave it. */
  lemma ReachIsolated(edges: set<(nat, nat)>, a: nat, b: nat, x: nat)
    requires forall e :: e in edges ==> e.0 != x && e.1 != x
    requires Reach(edges, a, b) && (a == x || b == x)
    ensures a == b
  {
    var p :| IsPath(edges, p, a, b);
    PathEnds(edges, p, a, b);
  }

  /** Edges from each of `parents` to one child. */
  function NewEdges(parents: set<nat>, child: nat): set<(nat, nat)> {
    set p | p in parents :: (p, child)
  }

  /** What becomes reachable when edges into one child are added. */
  ghost predicate ReachVia(edges: set<(nat, nat)>, parents: set<nat>, child: nat, a: nat, b: nat) {
    (exists p :: p in parents && Reach(edges, a, p)) && Reach(edges, child, b)
  }

  lemma {:induction false} PathWithNewEdges(edges: set<(nat, nat)>, parents: set<nat>, child: nat, path: seq<nat>, a: nat, b: nat)
    requires IsPath(edges + NewEdges(parents, child), path, a, b)
    ensures Reach(edges, a, b) || ReachVia(edges, parents, child, a, b)
    decreases |path|
  {
    ReachSelf(edges, a);
    if |path| > 1 {
      var x, rest := path[1], path[1..];
      var all := edges + NewEdges(parents, child);
      PathEnds(all, path, a, b);
      forall k | 0 <= k < |rest| - 1 ensures IsEdge(all, rest, k) {
        assert IsEdge(all, path, k + 1);
      }
      assert IsPath(all, rest, x, b);
      PathWithNewEdges(edges, parents, child, rest, x, b);
      if (a, x) in edges {
        ReachEdge(edges, a, x);
        if Reach(edges, x, b) {
          ReachTrans(edges, a, x, b);
        } else {
          var p :| p in parents && Reach(edges, x, p);
          ReachTrans(edges, a, x, p);
        }
      }
    }
  }

  lemma ReachWithNewEdges(edges: set<(nat, nat)>, parents: set<nat>, child: nat, a: nat, b: nat)
    ensures Reach(edges + NewEdges(parents, child), a, b)
       <==> Reach(edges, a, b) || ReachVia(edges, parents, child, a, b)
  {
    var all := edges + NewEdges(parents, child);
    if Reach(all, a, b) {
      var path :| IsPath(all, path, a, b);
      PathWithNewEdges(edges, parents, child, path, a, b);
    }
    if Reach(edges, a, b) {
      ReachMore(edges, all, a, b);
    }
    if ReachVia(edges, parents, child, a, b) {
      var p :| p in parents && Reach(edges, a, p);
      ReachMore(edges, all, a, p);
      ReachMore(edges, all, child, b);
      ReachEdge(all, p, child);
      ReachTrans(all, a, p, child);
      ReachTrans(all, a, child, b);
    }
  }

  // ----- graphs that agree with a history of edges -----

  /** Which transaction sits where, and every dependency that was ever added between them. */
  datatype History = History(ids: map<nat, nat>, next: nat, edges: set<(nat, nat)>)

  ghost predicate HistoryOk(g: Graph, h: History) {
    && h.ids.Keys == g.used
    && (forall i :: i in g.used ==> i < |g.entries| && h.ids[i] < h.next)
    && (forall i, j :: i in g.used && j in g.used && h.ids[i] == h.ids[j] ==> i == j)
    && (forall e :: e in h.edges ==> e.0 < h.next && e.1 < h.next)
  }

  /** `j` is an ancestor of `i` just when it is present and a path of added dependencies leads
      from it to `i`, and a descendant just when one leads back. */
  ghost predicate AgreesAt(g: Graph, h: History, i: nat, j: nat)
    requires g.used <= h.ids.Keys && i in g.used
  {
    && (j in g.Anc(i) <==> j in g.used && Reach(h.edges, h.ids[j], h.ids[i]))
    && (j in g.Desc(i) <==> j in g.used && Reach(h.edges, h.ids[i], h.ids[j]))
  }

  /** Ancestors and descendants are those by paths through every dependency ever added. */
  ghost predicate Agrees(g: Graph, h: History) {
    HistoryOk(g, h) && forall i, j :: i in g.used ==> AgreesAt(g, h, i, j)
  }

  /** Such graphs are reflexive and transitive, with ancestors and descendants mutually inverse. */
  lemma AgreesValid(g: Graph, h: History)
    requires Agrees(g, h)
    ensures g.Valid()
  {
    hide Reach;
    forall i | i in g.used ensures i in g.Anc(i) {
      ReachSelf(h.edges, h.ids[i]);
      assert AgreesAt(g, h, i, i);
    }
    forall i, j | i in g.used
      ensures j in g.Anc(i) ==> j in g.used && i in g.Desc(j)
      ensures j in g.Desc(i) ==> j in g.used && i in g.Anc(j)
    {
      assert AgreesAt(g, h, i, j);
      assert j in g.used ==> AgreesAt(g, h, j, i);
    }
    forall i, j, k | i in g.used && j in g.Anc(i) && k in g.Anc(j) ensures k in g.Anc(i) {
      assert AgreesAt(g, h, i, j) && AgreesAt(g, h, j, k) && AgreesAt(g, h, i, k);
      ReachTrans(h.edges, h.ids[k], h.ids[j], h.ids[i]);
    }
  }

  // ----- adding, linking and removing -----

  /** `g'` is `g` with the transactions of `anc` made ancestors of those of `des`. */
  ghost predicate Linked(g: Graph, g': Graph, anc: set<nat>, des: set<nat>) {
    && g'.used == g.used && |g'.entries| == |g.entries|
    && forall k :: 0 <= k < |g.entries| ==> g'.entries[k] == Entry(
         g.entries[k].feerate,
         if k in des then g.entries[k].ancestors + anc else g.entries[k].ancestors,
         if k in anc then g.entries[k].descendants + des else g.entries[k].descendants)
  }

  /** The ancestors of parents that are not already ancestors of the child. */
  ghost predicate NewAncestors(g: Graph, parents: set<nat>, child: nat, anc: set<nat>) {
    forall x :: x in anc <==> x !in g.Anc(child) && exists p :: p in parents && x in g.Anc(p)
  }

  function IdsOf(h: History, s: set<nat>): set<nat>
    requires s <= h.ids.Keys
  {
    set i | i in s :: h.ids[i]
  }

  function WithDependencies(h: History, parents: set<nat>, child: nat): History
    requires parents <= h.ids.Keys && child in h.ids
  {
    h.(edges := h.edges + NewEdges(IdsOf(h, parents), h.ids[child]))
  }

  /** Which pairs of present transactions become related by new dependencies. */
  lemma RelatedByLink(g: Graph, h: History, parents: set<nat>, child: nat, anc: set<nat>, j: nat, i: nat)
    requires Agrees(g, h) && parents <= g.used && child in g.used && i in g.used && j in g.used
    requires NewAncestors(g, parents, child, anc)
    ensures Reach(WithDependencies(h, parents, child).edges, h.ids[j], h.ids[i])
       <==> j in g.Anc(i) || (j in anc && i in g.Desc(child))
  {
    hide Reach;
    var ids := IdsOf(h, parents);
    ReachWithNewEdges(h.edges, ids, h.ids[child], h.ids[j], h.ids[i]);
    assert AgreesAt(g, h, i, j) && AgreesAt(g, h, child, i) && AgreesAt(g, h, child, j);
    if j in anc && i in g.Desc(child) {
      var p :| p in parents && j in g.Anc(p);
      assert AgreesAt(g, h, p, j);
      assert h.ids[p] in ids;
    }
    if ReachVia(h.edges, ids, h.ids[child], h.ids[j], h.ids[i]) {
      var q :| q in ids && Reach(h.edges, h.ids[j], q);
      var p :| p in parents && h.ids[p] == q;
      assert AgreesAt(g, h, p, j);
      if j !in anc {
        assert j in g.Anc(child);
        ReachTrans(h.edges, h.ids[j], h.ids[child], h.ids[i]);
      }
    }
  }

  lemma LinkAgrees(g: Graph, g': Graph, h: History, parents: set<nat>, child: nat, anc: set<nat>)
    requires Agrees(g, h) && parents <= g.used && child in g.used
    requires NewAncestors(g, parents, child, anc) && Linked(g, g', anc, g.Desc(child))
    ensures Agrees(g', WithDependencies(h, parents, child))
  {
    hide Reach;
    var h' := WithDependencies(h, parents, child);
    AncestorsUsed(g, h, parents, anc, child);
    forall i, j | i in g.used ensures AgreesAt(g', h', i, j) {
      assert AgreesAt(g, h, i, j);
      if j in g.used {
        RelatedByLink(g, h, parents, child, anc, j, i);
        RelatedByLink(g, h, parents, child, anc, i, j);
        LinkedAt(g, g', anc, g.Desc(child), i, j);
        LinkFlip(g, h, i, j);
      }
    }
    assert HistoryOk(g', h') by { HistoryGrows(g, g', h, parents, child); }
  }

  lemma LinkFlip(g: Graph, h: History, i: nat, j: nat)
    requires Agrees(g, h) && i in g.used && j in g.used
    ensures i in g.Anc(j) <==> j in g.Desc(i)
    ensures j in g.Anc(i) <==> i in g.Desc(j)
  {
    hide Reach;
    assert AgreesAt(g, h, i, j) && AgreesAt(g, h, j, i);
  }

  lemma LinkedAt(g: Graph, g': Graph, anc: set<nat>, des: set<nat>, i: nat, j: nat)
    requires Linked(g, g', anc, des) && i < |g.entries|
    ensures j in g'.Anc(i) <==> j in g.Anc(i) || (i in des && j in anc)
    ensures j in g'.Desc(i) <==> j in g.Desc(i) || (i in anc && j in des)
  {
  }

  lemma HistoryGrows(g: Graph, g': Graph, h: History, parents: set<nat>, child: nat)
    requires HistoryOk(g, h) && parents <= g.used && child in g.used
    requires g'.used == g.used && |g'.entries| == |g.entries|
    ensures HistoryOk(g', WithDependencies(h, parents, child))
  {
  }

  lemma AncestorsUsed(g: Graph, h: History, parents: set<nat>, anc: set<nat>, child: nat)
    requires Agrees(g, h) && parents <= g.used && child in g.used && NewAncestors(g, parents, child, anc)
    ensures anc <= g.used && g.Desc(child) <= g.used
  {
    hide Reach;
    forall x | x in anc ensures x in g.used {
      var p :| p in parents && x in g.Anc(p);
      assert AgreesAt(g, h, p, x);
    }
    forall x | x in g.Desc(child) ensures x in g.used {
      assert AgreesAt(g, h, child, x);
    }
  }

  /** A new transaction, in place of nothing or of an unused entry, is related to itself only. */
  lemma AddAgrees(g: Graph, g': Graph, h: History, i: nat, f: FeeFrac)
    requires Agrees(g, h) && i !in g.used && i < |g'.entries| && |g.entries| <= |g'.entries|
    requires g'.used == g.used + {i} && g'.entries[i] == Entry(f, {i}, {i})
    requires forall k :: 0 <= k < |g.entries| && k != i ==> g'.entries[k] == g.entries[k]
    ensures Agrees(g', History(h.ids[i := h.next], h.next + 1, h.edges))
  {
    hide Reach;
    var h' := History(h.ids[i := h.next], h.next + 1, h.edges);
    assert h'.ids.Keys == g'.used;
    forall a, b | a in g'.used ensures AgreesAt(g', h', a, b) {
      if a == i || b == i {
        if b in g'.used {
          NewIsAlone(h, h'.ids[a], h'.ids[b]);
        }
        assert a != i ==> AgreesAt(g, h, a, b) && g'.entries[a] == g.entries[a];
      } else {
        assert AgreesAt(g, h, a, b) && g'.entries[a] == g.entries[a];
      }
    }
  }

  lemma NewIsAlone(h: History, a: nat, b: nat)
    requires forall e :: e in h.edges ==> e.0 < h.next && e.1 < h.next
    requires a == h.next || b == h.next
    ensures Reach(h.edges, a, b) <==> a == b
    ensures Reach(h.edges, b, a) <==> a == b
  {
    hide Reach;
    ReachSelf(h.edges, h.next);
    if Reach(h.edges, a, b) {
      ReachIsolated(h.edges, a, b, h.next);
    }
    if Reach(h.edges, b, a) {
      ReachIsolated(h.edges, b, a, h.next);
    }
  }

  /** Dropping transactions from sight leaves the relations between the others. */
  lemma RemoveAgrees(g: Graph, g': Graph, h: History, del: set<nat>)
    requires Agrees(g, h) && g'.used == g.used - del
    requires |g'.entries| <= |g.entries| && forall k :: k in g'.used ==> k < |g'.entries|
    requires forall k :: k in g'.used ==>
      g'.entries[k] == Entry(g.entries[k].feerate, g.entries[k].ancestors * g'.used, g.entries[k].descendants * g'.used)
    ensures Agrees(g', h.(ids := h.ids - del))
  {
    hide Reach;
    forall i, j | i in g'.used ensures AgreesAt(g', h.(ids := h.ids - del), i, j) {
      assert AgreesAt(g, h, i, j);
    }
  }

  // ----- reduced parents, and graphs moved to other positions -----

  /** `parents` are proper ancestors of `i` that together have all of its proper ancestors, and
      none of them is an ancestor of another. */
  ghost predicate IsReduction(g: Graph, i: nat, parents: set<nat>) {
    && parents <= g.Anc(i) - {i}
    && (forall a :: a in g.Anc(i) - {i} ==> CoveredBy(g, parents, a))
    && (forall p, q :: p in parents && q in parents && p != q ==> p !in g.Anc(q))
  }

  ghost predicate CoveredBy(g: Graph, parents: set<nat>, a: nat) {
    exists p :: p in parents && a in g.Anc(p)
  }

  /** Replacing ancestors of a parent by that parent covers what was covered. */
  lemma StaysCovered(g: Graph, parents: set<nat>, parent: nat, a: nat)
    requires g.Valid() && parent in g.used && CoveredBy(g, parents, a)
    ensures CoveredBy(g, parents - g.Anc(parent) + {parent}, a)
  {
    var p :| p in parents && a in g.Anc(p);
    var cover := if p in g.Anc(parent) then parent else p;
    assert cover in parents - g.Anc(parent) + {parent} && a in g.Anc(cover);
  }

  method GetReducedParents(g: Graph, i: nat) returns (parents: set<nat>)
    requires g.Valid() && i in g.used
    ensures IsReduction(g, i, parents)
  {
    hide First, CoveredBy, Graph.Valid;
    ProperWithin(g, i);
    parents := g.Anc(i) - {i};
    var rest := parents;
    while rest != {}
      invariant parents <= g.Anc(i) - {i} && rest <= g.Anc(i) - {i}
      invariant forall a :: a in g.Anc(i) - {i} ==> CoveredBy(g, parents, a)
      invariant forall p, q :: p in parents && q in parents && q !in rest && p != q ==> p !in g.Anc(q)
      decreases rest
    {
      var parent := First(rest);
      if parent in parents {
        forall a | a in g.Anc(i) - {i} ensures CoveredBy(g, parents - g.Anc(parent) + {parent}, a) {
          StaysCovered(g, parents, parent, a);
        }
        parents := parents - g.Anc(parent) + {parent};
      }
      rest := rest - {parent};
    }
  }

  lemma ProperWithin(g: Graph, i: nat)
    requires g.Valid() && i in g.used
    ensures g.Anc(i) <= g.used
    ensures forall a :: a in g.Anc(i) - {i} ==> CoveredBy(g, g.Anc(i) - {i}, a)
  {
    forall a | a in g.Anc(i) - {i} ensures CoveredBy(g, g.Anc(i) - {i}, a) {
      assert a in g.Anc(a);
    }
  }

  /** The positions that a set moves to. */
  function Image(mapping: seq<nat>, s: set<nat>): set<nat> {
    set i | i in s && i < |mapping| :: mapping[i]
  }

  ghost predicate Injective(mapping: seq<nat>, s: set<nat>) {
    && (forall i :: i in s ==> i < |mapping|)
    && forall i, j :: i in s && j in s && mapping[i] == mapping[j] ==> i == j
  }

  /** `g'` is `g` with every transaction moved to the position `mapping` gives it. */
  ghost predicate IsRemapped(g: Graph, mapping: seq<nat>, g': Graph) {
    && Injective(mapping, g.used)
    && g'.used == Image(mapping, g.used)
    && forall i :: i in g.used ==>
         && g'.Fee(mapping[i]) == g.Fee(i)
         && g'.Anc(mapping[i]) == Image(mapping, g.Anc(i))
         && g'.Desc(mapping[i]) == Image(mapping, g.Desc(i))
  }

  /** The edge from `p` to `i`, between the positions they move to. */
  ghost predicate MovedEdge(g: Graph, mapping: seq<nat>, e: (nat, nat), p: nat, i: nat) {
    i in g.used && p in g.Anc(i) && p < |mapping| && i < |mapping| && e == (mapping[p], mapping[i])
  }

  /** Every edge joins a moved ancestor to a moved descendant. */
  ghost predicate EdgesSound(g: Graph, mapping: seq<nat>, edges: set<(nat, nat)>) {
    forall e :: e in edges ==> exists p, i :: MovedEdge(g, mapping, e, p, i)
  }

  /** An edge leads into `i` from a proper ancestor that has `a` as its ancestor. */
  ghost predicate EntersFrom(g: Graph, mapping: seq<nat>, edges: set<(nat, nat)>, i: nat, a: nat, p: nat) {
    && p in g.Anc(i) && p != i && a in g.Anc(p)
    && p < |mapping| && i < |mapping| && (mapping[p], mapping[i]) in edges
  }

  /** All proper ancestors of `i` are reached through edges into `i`. */
  ghost predicate EdgesCover(g: Graph, mapping: seq<nat>, edges: set<(nat, nat)>, i: nat) {
    forall a :: a in g.Anc(i) && a != i ==> exists p :: EntersFrom(g, mapping, edges, i, a, p)
  }

  lemma {:induction false} MovedPath(g: Graph, mapping: seq<nat>, edges: set<(nat, nat)>, path: seq<nat>, j: nat, i: nat)
    requires g.Valid() && Injective(mapping, g.used) && EdgesSound(g, mapping, edges)
    requires i in g.used && j in g.used && IsPath(edges, path, mapping[j], mapping[i])
    ensures j in g.Anc(i)
    decreases |path|
  {
    if |path| > 1 {
      PathEnds(edges, path, mapping[j], mapping[i]);
      var p, k :| MovedEdge(g, mapping, (mapping[j], path[1]), p, k);
      assert p == j;
      var rest := path[1..];
      forall n | 0 <= n < |rest| - 1 ensures IsEdge(edges, rest, n) {
        assert IsEdge(edges, path, n + 1);
      }
      MovedPath(g, mapping, edges, rest, k, i);
    }
  }

  lemma {:induction false} MovedReach(g: Graph, mapping: seq<nat>, edges: set<(nat, nat)>, j: nat, i: nat)
    requires g.Valid() && g.Acyclic() && Injective(mapping, g.used)
    requires forall k :: k in g.used ==> EdgesCover(g, mapping, edges, k)
    requires i in g.used && j in g.Anc(i)
    ensures Reach(edges, mapping[j], mapping[i])
    decreases |g.Anc(i)|
  {
    hide Reach, EdgesCover, Graph.Valid, Graph.Acyclic, Injective;
    ProperWithin(g, i);
    WithinMapping(g, mapping, i);
    if i == j {
      ReachSelf(edges, mapping[i]);
    } else {
      var p := StepDown(g, mapping, edges, j, i);
      assert p < |mapping|;
      MovedReach(g, mapping, edges, j, p);
      ReachEdge(edges, mapping[p], mapping[i]);
      ReachTrans(edges, mapping[j], mapping[p], mapping[i]);
    }
  }

  lemma WithinMapping(g: Graph, mapping: seq<nat>, i: nat)
    requires g.Valid() && Injective(mapping, g.used) && i in g.used
    ensures i < |mapping| && forall a :: a in g.Anc(i) ==> a < |mapping|
  {
  }

  lemma StepDown(g: Graph, mapping: seq<nat>, edges: set<(nat, nat)>, j: nat, i: nat) returns (p: nat)
    requires g.Valid() && g.Acyclic()
    requires i in g.used && j in g.Anc(i) && j != i && EdgesCover(g, mapping, edges, i)
    ensures p in g.used && EntersFrom(g, mapping, edges, i, j, p) && |g.Anc(p)| < |g.Anc(i)|
  {
    hide Graph.Valid, Graph.Acyclic;
    p :| EntersFrom(g, mapping, edges, i, j, p);
    ProperAncestors(g, i, p);
    ProperWithin(g, i);
  }

  /** Moving reduced parents is enough to move all ancestors and descendants. */
  lemma RemapAgrees(g: Graph, mapping: seq<nat>, g': Graph, h: History)
    requires g.Valid() && g.Acyclic() && Injective(mapping, g.used)
    requires g'.used == Image(mapping, g.used) && Agrees(g', h)
    requires forall x :: x in g'.used ==> h.ids[x] == x
    requires EdgesSound(g, mapping, h.edges)
    requires forall i :: i in g.used ==> EdgesCover(g, mapping, h.edges, i)
    requires forall i :: i in g.used ==> g'.Fee(mapping[i]) == g.Fee(i)
    ensures IsRemapped(g, mapping, g')
  {
    hide Reach, EdgesSound, EdgesCover;
    forall i | i in g.used
      ensures g'.Anc(mapping[i]) == Image(mapping, g.Anc(i)) && g'.Desc(mapping[i]) == Image(mapping, g.Desc(i))
    {
      forall x ensures x in g'.Anc(mapping[i]) <==> x in Image(mapping, g.Anc(i)) {
        RemapAt(g, mapping, g', h, i, x);
      }
      forall x ensures x in g'.Desc(mapping[i]) <==> x in Image(mapping, g.Desc(i)) {
        RemapAt(g, mapping, g', h, i, x);
      }
    }
  }

  lemma RemapAt(g: Graph, mapping: seq<nat>, g': Graph, h: History, i: nat, x: nat)
    requires g.Valid() && g.Acyclic() && Injective(mapping, g.used)
    requires g'.used == Image(mapping, g.used) && Agrees(g', h)
    requires forall x :: x in g'.used ==> h.ids[x] == x
    requires EdgesSound(g, mapping, h.edges) && i in g.used
    requires forall i :: i in g.used ==> EdgesCover(g, mapping, h.edges, i)
    ensures x in g'.Anc(mapping[i]) <==> x in Image(mapping, g.Anc(i))
    ensures x in g'.Desc(mapping[i]) <==> x in Image(mapping, g.Desc(i))
  {
    hide Reach, EdgesSound, EdgesCover;
    assert mapping[i] in g'.used;
    assert AgreesAt(g', h, mapping[i], x);
    if x in g'.used {
      var j :| j in g.used && j < |mapping| && mapping[j] == x;
      MovedIff(g, mapping, h.edges, j, i);
      MovedIff(g, mapping, h.edges, i, j);
    }
  }

  lemma MovedIff(g: Graph, mapping: seq<nat>, edges: set<(nat, nat)>, j: nat, i: nat)
    requires g.Valid() && g.Acyclic() && Injective(mapping, g.used) && EdgesSound(g, mapping, edges)
    requires forall k :: k in g.used ==> EdgesCover(g, mapping, edges, k)
    requires i in g.used && j in g.used
    ensures Reach(edges, mapping[j], mapping[i]) <==> j in g.Anc(i)
  {
    hide EdgesSound, EdgesCover;
    if j in g.Anc(i) {
      MovedReach(g, mapping, edges, j, i);
    }
    if Reach(edges, mapping[j], mapping[i]) {
      var path :| IsPath(edges, path, mapping[j], mapping[i]);
      MovedPath(g, mapping, edges, path, j, i);
    }
  }

  /** The transactions sit at their new positions, with sound edges between them so far. */
  ghost predicate Moved(src: Graph, mapping: seq<nat>, g: Graph, h: History) {
    && Injective(mapping, src.used) && g.used == Image(mapping, src.used)
    && h.ids.Keys == g.used && (forall x :: x in g.used ==> h.ids[x] == x)
    && (forall i :: i in src.used ==> g.Fee(mapping[i]) == src.Fee(i))
    && EdgesSound(src, mapping, h.edges)
  }

  lemma UnlinkedAgrees(g: Graph, h: History)
    requires h.ids.Keys == g.used && (forall x :: x in g.used ==> h.ids[x] == x) && h.edges == {}
    requires forall x :: x in g.used ==> x < |g.entries| && g.entries[x].ancestors == {x} && g.entries[x].descendants == {x}
    requires h.next == |g.entries|
    ensures Agrees(g, h)
  {
    hide Reach;
    forall i, j | i in g.used ensures AgreesAt(g, h, i, j) {
      if j in g.used {
        ReachSelf(h.edges, i);
        if Reach(h.edges, j, i) {
          ReachIsolated(h.edges, j, i, i);
        }
        if Reach(h.edges, i, j) {
          ReachIsolated(h.edges, i, j, i);
        }
      }
    }
  }

  lemma ParentsWithin(src: Graph, mapping: seq<nat>, i: nat, parents: set<nat>)
    requires src.Valid() && Injective(mapping, src.used) && i in src.used && IsReduction(src, i, parents)
    ensures i < |mapping| && mapping[i] in Image(mapping, src.used)
    ensures Image(mapping, parents) <= Image(mapping, src.used)
  {
  }

  lemma LinkStep(src: Graph, mapping: seq<nat>, h: History, h': History, i: nat, parents: set<nat>, done: set<nat>)
    requires src.Valid() && Injective(mapping, src.used) && i in src.used && IsReduction(src, i, parents)
    requires h.ids.Keys == Image(mapping, src.used) && forall x :: x in h.ids ==> h.ids[x] == x
    requires Image(mapping, parents) <= h.ids.Keys && mapping[i] in h.ids
    requires h' == WithDependencies(h, Image(mapping, parents), mapping[i])
    requires EdgesSound(src, mapping, h.edges) && forall k :: k in done ==> EdgesCover(src, mapping, h.edges, k)
    ensures EdgesSound(src, mapping, h'.edges)
    ensures forall k :: k in done + {i} ==> EdgesCover(src, mapping, h'.edges, k)
  {
    hide Graph.Valid;
    assert IdsOf(h, Image(mapping, parents)) == Image(mapping, parents);
    NewEdgesSound(src, mapping, h.edges, i, parents);
    forall k, a | k in done && a in src.Anc(k) && a != k ensures exists p :: EntersFrom(src, mapping, h'.edges, k, a, p) {
      assert EdgesCover(src, mapping, h.edges, k);
      var p :| EntersFrom(src, mapping, h.edges, k, a, p);
      assert EntersFrom(src, mapping, h'.edges, k, a, p);
    }
    forall a | a in src.Anc(i) && a != i ensures exists p :: EntersFrom(src, mapping, h'.edges, i, a, p) {
      assert CoveredBy(src, parents, a);
      var p :| p in parents && a in src.Anc(p);
      WithinMapping(src, mapping, i);
      assert (mapping[p], mapping[i]) in NewEdges(Image(mapping, parents), mapping[i]);
      assert EntersFrom(src, mapping, h'.edges, i, a, p);
    }
  }

  lemma NewEdgesSound(src: Graph, mapping: seq<nat>, edges: set<(nat, nat)>, i: nat, parents: set<nat>)
    requires src.Valid() && Injective(mapping, src.used) && i in src.used && i < |mapping| && IsReduction(src, i, parents)
    requires EdgesSound(src, mapping, edges)
    ensures EdgesSound(src, mapping, edges + NewEdges(Image(mapping, parents), mapping[i]))
  {
    hide Graph.Valid;
    forall e | e in NewEdges(Image(mapping, parents), mapping[i]) ensures exists p, k :: MovedEdge(src, mapping, e, p, k) {
      var p :| p in parents && p < |mapping| && mapping[p] == e.0;
      assert MovedEdge(src, mapping, e, p, i);
    }
  }

  /** The positions that are not in use. */
  function Available(used: set<nat>, capacity: nat): (r: set<nat>)
    ensures forall k: nat :: k in r <==> k < capacity && k !in used
  {
    set k: nat | k < capacity && k !in used
  }

  class DepGraph {
    /** Data for each position, used or not. */
    var entries: seq<Entry>
    /** Which positions are used. */
    var used: set<nat>
    ghost var history: History

    function View(): Graph
      reads this
    {
      Graph(entries, used)
    }

    ghost predicate Valid()
      reads this
    {
      Agrees(View(), history)
    }

    constructor ()
      ensures Valid() && View() == Graph([], {}) && history == History(map[], 0, {})
    {
      entries, used := [], {};
      history := History(map[], 0, {});
    }

    /** The graph `src` with every transaction moved to the position `mapping` gives it. */
    constructor Remap(src: Graph, mapping: seq<nat>, range: nat)
      requires src.Valid() && src.Acyclic() && Injective(mapping, src.used)
      requires forall i :: i in src.used ==> mapping[i] < range
      ensures Valid() && |entries| == range && IsRemapped(src, mapping, View())
    {
      entries := seq(range, _ => Entry(EMPTY, {}, {}));
      used := {};
      history := History(map[], range, {});
      new;
      PlaceTransactions(src, mapping);
      LinkTransactions(src, mapping);
    }

    /** Add every transaction of `src` at its new position, unconnected. */
    method PlaceTransactions(src: Graph, mapping: seq<nat>)
      requires Injective(mapping, src.used) && used == {} && history == History(map[], |entries|, {})
      requires forall i :: i in src.used ==> mapping[i] < |entries|
      modifies this
      ensures Valid() && |entries| == old(|entries|) && Moved(src, mapping, View(), history)
    {
      hide First, Agrees;
      var rest, done := src.used, {};
      while rest != {}
        invariant rest !! done && rest + done == src.used && |entries| == old(|entries|)
        invariant used == Image(mapping, done) && history == old(history)
        invariant forall x :: x in used ==> x < |entries| && entries[x].ancestors == {x} && entries[x].descendants == {x}
        invariant forall i :: i in done ==> entries[mapping[i]].feerate == src.Fee(i)
        decreases rest
      {
        var i := First(rest);
        var x := mapping[i];
        entries := entries[x := Entry(src.Fee(i), {x}, {x})];
        assert Image(mapping, done + {i}) == used + {x};
        used := used + {x};
        rest, done := rest - {i}, done + {i};
      }
      assert done == src.used;
      history := history.(ids := map x | x in used :: x);
      UnlinkedAgrees(View(), history);
    }

    /** Fill in dependencies by mapping reduced parents. */
    method LinkTransactions(src: Graph, mapping: seq<nat>)
      requires Valid() && src.Valid() && src.Acyclic() && Injective(mapping, src.used)
      requires Moved(src, mapping, View(), history)
      modifies this
      ensures Valid() && |entries| == old(|entries|) && IsRemapped(src, mapping, View())
    {
      hide First, Agrees, IsReduction, EdgesCover, EdgesSound, Graph.Valid, Graph.Acyclic, IsRemapped;
      var rest, done := src.used, {};
      while rest != {}
        invariant rest !! done && rest + done == src.used && |entries| == old(|entries|)
        invariant Valid() && Moved(src, mapping, View(), history)
        invariant forall i :: i in done ==> EdgesCover(src, mapping, history.edges, i)
        decreases rest
      {
        var i := First(rest);
        var parents := GetReducedParents(src, i);
        ParentsWithin(src, mapping, i, parents);
        ghost var h := history;
        AddDependencies(Image(mapping, parents), mapping[i]);
        LinkStep(src, mapping, h, history, i, parents, done);
        rest, done := rest - {i}, done + {i};
      }
      assert done == src.used;
      RemapAgrees(src, mapping, View(), history);
    }

    /** Add a new unconnected transaction in the first available position. */
    method AddTransaction(f: FeeFrac, capacity: nat) returns (i: nat)
      requires Valid()
      requires Available(used, capacity) != {}
      modifies this
      ensures Valid() && history == History(old(history.ids)[i := old(history.next)], old(history.next) + 1, old(history.edges))
      ensures i < capacity && i !in old(used) && forall k :: 0 <= k < i ==> k in old(used)
      ensures used == old(used) + {i} && View().Fee(i) == f
      ensures forall k :: k in old(used) ==> View().Fee(k) == old(View()).Fee(k)
    {
      hide Agrees;
      ghost var g := View();
      var available := Available(used, capacity);
      i := First(available);
      PositionBound(g, history, i, capacity);
      if i == |entries| {
        entries := entries + [Entry(f, {i}, {i})];
      } else {
        entries := entries[i := Entry(f, {i}, {i})];
      }
      used := used + {i};
      AddAgrees(g, View(), history, i, f);
      history := History(history.ids[i := history.next], history.next + 1, history.edges);
      PositionsWithin(g, old(history));
    }

    /** Remove positions; relations between survivors stay as they were. */
    method RemoveTransactions(del: set<nat>)
      requires Valid()
      modifies this
      ensures Valid() && history == old(history).(ids := old(history).ids - del)
      ensures used == old(used) - del && (entries != [] ==> |entries| - 1 in used)
      ensures forall k :: k in used ==> View().Fee(k) == old(View()).Fee(k)
    {
      hide Agrees;
      ghost var g := View();
      PositionsWithin(g, history);
      used := used - del;
      while entries != [] && |entries| - 1 !in used
        invariant entries <= old(entries) && used == old(used) - del && history == old(history)
        invariant forall k :: k in used ==> k < |entries|
        decreases |entries|
      {
        entries := entries[..|entries| - 1];
      }
      ghost var kept := entries;
      var n := 0;
      while n < |entries|
        invariant |entries| == |kept| && used == old(used) - del && history == old(history) && n <= |entries|
        invariant forall k :: 0 <= k < n ==>
          entries[k] == Entry(kept[k].feerate, kept[k].ancestors * used, kept[k].descendants * used)
        invariant forall k :: n <= k < |entries| ==> entries[k] == kept[k]
      {
        entries := entries[n := Entry(entries[n].feerate, entries[n].ancestors * used, entries[n].descendants * used)];
        n := n + 1;
      }
      RemoveAgrees(g, View(), history, del);
      history := history.(ids := history.ids - del);
    }

    /** Add multiple parents to a specified child. */
    method AddDependencies(parents: set<nat>, child: nat)
      requires Valid() && child in used && parents <= used
      modifies this
      ensures Valid() && history == WithDependencies(old(history), parents, child)
      ensures used == old(used) && |entries| == old(|entries|) && forall k :: View().Fee(k) == old(View()).Fee(k)
    {
      hide Agrees, Reach;
      ghost var g, h := View(), history;
      var parAnc := CollectNewAncestors(parents, child);
      AncestorsWithin(g, h, parents, parAnc, child);
      history := WithDependencies(history, parents, child);
      if parAnc == {} {
        assert Linked(g, g, {}, g.Desc(child)) by { LinkNothing(g, g.Desc(child)); }
        LinkAgrees(g, g, h, parents, child, parAnc);
        return;
      }
      var chlDes := entries[child].descendants;
      assert chlDes == g.Desc(child);
      AddToEntries(parAnc, chlDes);
      LinkAgrees(g, View(), h, parents, child, parAnc);
    }

    method CollectNewAncestors(parents: set<nat>, child: nat) returns (parAnc: set<nat>)
      requires Valid() && child in used && parents <= used
      ensures NewAncestors(View(), parents, child, parAnc)
    {
      hide Agrees, First;
      AgreesValid(View(), history);
      parAnc := {};
      var rest := parents - View().Anc(child);
      while rest != {}
        invariant rest <= parents
        invariant forall x :: x in parAnc <==> exists p :: p in parents - View().Anc(child) - rest && x in View().Anc(p)
      {
        var par := First(rest);
        parAnc := parAnc + View().Anc(par);
        rest := rest - {par};
      }
      parAnc := parAnc - View().Anc(child);
    }

    method AddToEntries(anc: set<nat>, des: set<nat>)
      requires (forall k :: k in anc ==> k < |entries|) && (forall k :: k in des ==> k < |entries|)
      modifies this`entries
      ensures Linked(old(View()), View(), anc, des)
    {
      hide First;
      ghost var e := entries;
      var rest := anc;
      while rest != {}
        invariant rest <= anc && |entries| == |e|
        invariant forall k :: 0 <= k < |e| ==>
          entries[k] == if k in anc - rest then e[k].(descendants := e[k].descendants + des) else e[k]
      {
        var a := First(rest);
        entries := entries[a := entries[a].(descendants := entries[a].descendants + des)];
        rest := rest - {a};
      }
      ghost var m := entries;
      rest := des;
      while rest != {}
        invariant rest <= des && |entries| == |e|
        invariant forall k :: 0 <= k < |e| ==>
          entries[k] == if k in des - rest then m[k].(ancestors := m[k].ancestors + anc) else m[k]
      {
        var d := First(rest);
        entries := entries[d := entries[d].(ancestors := entries[d].ancestors + anc)];
        rest := rest - {d};
      }
    }
  }

  lemma LinkNothing(g: Graph, des: set<nat>)
    ensures Linked(g, g, {}, des)
  {
    forall k | 0 <= k < |g.entries| ensures g.entries[k].ancestors + {} == g.entries[k].ancestors {
    }
  }

  lemma AncestorsWithin(g: Graph, h: History, parents: set<nat>, anc: set<nat>, child: nat)
    requires Agrees(g, h) && parents <= g.used && child in g.used && NewAncestors(g, parents, child, anc)
    ensures child in h.ids && parents <= h.ids.Keys && child < |g.entries|
    ensures forall k :: k in anc || k in g.Desc(child) ==> k < |g.entries|
  {
    AncestorsUsed(g, h, parents, anc, child);
  }

  lemma PositionsWithin(g: Graph, h: History)
    requires Agrees(g, h)
    ensures forall k :: k in g.used ==> k < |g.entries|
  {
  }

  lemma PositionBound(g: Graph, h: History, i: nat, capacity: nat)
    requires Agrees(g, h) && i in Available(g.used, capacity) && forall k :: k in Available(g.used, capacity) ==> i <= k
    ensures i <= |g.entries| && forall k :: 0 <= k < i ==> k in g.used
  {
    forall k: nat | k < i ensures k in g.used {
      assert k !in Available(g.used, capacity);
    }
    assert |g.entries| !in g.used;
  }
}
