/** How many topologically closed sets there are: a measure of what a search for one of them has to go through. */
module ClosedSets {
  import opened Collections
  import opened Graphs
  import Limbs

  lemma {:induction false} InjectionCount(a: set<set<nat>>, b: set<set<nat>>, f: set<nat> -> set<nat>)
    requires forall c :: c in a ==> f(c) in b
    requires forall c, d :: c in a && d in a && f(c) == f(d) ==> c == d
    ensures |a| <= |b|
  {
    if a != {} {
      var c :| c in a;
      InjectionCount(a - {c}, b - {f(c)}, f);
    }
  }

  /** The closed sets that lie between what is included and what is not excluded. */
  ghost function Between(g: Graph, todo: set<nat>, inc: set<nat>, und: set<nat>): set<set<nat>> {
    set c: set<nat> | c <= todo && Closed(g, todo, c) && inc <= c <= inc + und
  }

  /** All closed sets, the empty one among them. */
  ghost function AllClosed(g: Graph, todo: set<nat>): set<set<nat>> {
    Between(g, todo, {}, todo)
  }

  /** A branch allows at least what it includes. */
  lemma SomeBetween(g: Graph, todo: set<nat>, inc: set<nat>, und: set<nat>)
    requires Closed(g, todo, inc)
    ensures |Between(g, todo, inc, und)| >= 1
  {
    assert inc in Between(g, todo, inc, und);
  }

  /** A branch within another one allows no more than that. */
  lemma FewerBetween(g: Graph, todo: set<nat>, inc: set<nat>, und: set<nat>, inc': set<nat>, und': set<nat>)
    requires inc <= inc' && inc' + und' <= inc + und
    ensures |Between(g, todo, inc', und')| <= |Between(g, todo, inc, und)|
  {
    SubsetCount(Between(g, todo, inc', und'), Between(g, todo, inc, und));
  }

  /** No set is allowed both with a transaction included and with it excluded. */
  lemma SplitBetween(g: Graph, todo: set<nat>, inc: set<nat>, und: set<nat>, split: nat)
    requires g.Valid() && todo <= g.used && split in und && split !in inc && und <= todo
    requires Closed(g, todo, inc + und)
    ensures |Between(g, todo, inc, und - g.Desc(split))| + |Between(g, todo, inc + g.Anc(split) * todo, und - g.Anc(split) * todo)|
         <= |Between(g, todo, inc, und)|
  {
    hide Closed;
    var anc := g.Anc(split) * todo;
    var a, b := Between(g, todo, inc, und - g.Desc(split)), Between(g, todo, inc + anc, und - anc);
    assert split in anc && split in g.Desc(split);
    assert a !! b;
    assert anc <= inc + und by { InClosed(g, todo, inc + und, split); }
    assert a + b <= Between(g, todo, inc, und);
    SubsetCount(a + b, Between(g, todo, inc, und));
  }

  lemma InClosed(g: Graph, todo: set<nat>, s: set<nat>, i: nat)
    requires Closed(g, todo, s) && i in s
    ensures g.Anc(i) * todo <= s
  {
  }

  /** Two parts that have nothing in common have no closed set in common but the empty one. */
  lemma PartsBetween(g: Graph, todo: set<nat>, whole: set<nat>, part: set<nat>)
    requires part <= whole
    ensures |Between(g, todo, {}, part)| + |Between(g, todo, {}, whole - part)| <= |Between(g, todo, {}, whole)| + 1
  {
    var a, b := Between(g, todo, {}, part), Between(g, todo, {}, whole - part);
    assert a * b <= {{}} by {
      forall c | c in a * b ensures c == {} {
        assert c <= part && c <= whole - part;
      }
    }
    SubsetCount(a * b, {{}});
    SubsetCount(a + b, Between(g, todo, {}, whole));
    assert |a + b| == |a| + |b| - |a * b|;
  }

  lemma NothingBetween(g: Graph, todo: set<nat>)
    ensures |Between(g, todo, {}, {})| == 1
  {
    assert Closed(g, todo, {});
    assert forall c :: c in Between(g, todo, {}, {}) ==> c == {};
    assert Between(g, todo, {}, {}) == {{}};
  }

  ghost function Subsets(s: set<nat>): set<set<nat>> {
    set c: set<nat> | c <= s
  }

  lemma {:induction false} SubsetsCount(s: set<nat>)
    ensures |Subsets(s)| <= Limbs.Pow2(|s|)
  {
    hide Subsets;
    if s == {} {
      OneSubset();
    } else {
      var x :| x in s;
      SubsetsCount(s - {x});
      SubsetsDouble(s, x);
    }
  }

  lemma OneSubset()
    ensures |Subsets({})| <= 1
  {
    forall c | c in Subsets({}) ensures c in {{}} {
      assert c == {};
    }
    SubsetCount(Subsets({}), {{}});
  }

  lemma SubsetsDouble(s: set<nat>, x: nat)
    requires x in s
    ensures |Subsets(s)| <= 2 * |Subsets(s - {x})|
  {
    var with := set c | c in Subsets(s) && x in c;
    WithCount(s, x, with);
    assert Subsets(s) <= Subsets(s - {x}) + with;
    SubsetCount(Subsets(s), Subsets(s - {x}) + with);
  }

  lemma WithCount(s: set<nat>, x: nat, with: set<set<nat>>)
    requires forall c :: c in with ==> c <= s && x in c
    ensures |with| <= |Subsets(s - {x})|
  {
    var f := (c: set<nat>) => c - {x};
    forall c, d | c in with && d in with && f(c) == f(d) ensures c == d {
      assert c == f(c) + {x} && d == f(d) + {x};
    }
    InjectionCount(with, Subsets(s - {x}), f);
  }

  /** There are no more closed sets than subsets. */
  lemma FewClosed(g: Graph, todo: set<nat>)
    ensures 1 <= |AllClosed(g, todo)| <= Limbs.Pow2(|todo|)
  {
    SomeBetween(g, todo, {}, todo);
    SubsetsCount(todo);
    SubsetCount(AllClosed(g, todo), Subsets(todo));
  }

  /** What is closed without a closed set is closed together with it. */
  lemma FewerClosed(g: Graph, within: set<nat>, done: set<nat>)
    requires Closed(g, within, done)
    ensures |AllClosed(g, within - done)| <= |AllClosed(g, within)|
  {
    var f := (c: set<nat>) => c + done;
    forall c | c in AllClosed(g, within - done) ensures f(c) in AllClosed(g, within) {
      assert Closed(g, within, c + done) by {
        forall i | i in c + done ensures g.Anc(i) * within <= c + done {
          if i in c {
            assert g.Anc(i) * (within - done) <= c;
          }
        }
      }
    }
    forall c, d | c in AllClosed(g, within - done) && d in AllClosed(g, within - done) && f(c) == f(d) ensures c == d {
      assert c == f(c) - done && d == f(d) - done;
    }
    InjectionCount(AllClosed(g, within - done), AllClosed(g, within), f);
  }
}
