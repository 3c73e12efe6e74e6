/** The branch-and-bound search for a closed set of the highest feerate, on a graph whose
    positions are in order of non-increasing feerate. */
module Searching {
  import opened Collections
  import opened NatSets
  import opened FeeFracs
  import opened Graphs
  import opened ClosedSets
  import opened Chunkings
  import opened Components
  import opened Improvement
  import opened LinearizationChunkings

  /** A set of included transactions, a set of undecided ones, and a bound on what they allow. */
  datatype WorkItem = WorkItem(inc: SetInfo, und: set<nat>, pot: FeeFrac)

  datatype State = State(queue: seq<WorkItem>, best: SetInfo, imp: set<nat>)

  /** Positions are in order of non-increasing individual feerate. */
  ghost predicate SortedByFee(g: Graph) {
    forall i, j :: i in g.used && j in g.used && i < j ==> Gain(g.Fee(j), g.Fee(i)) <= 0
  }

  ghost predicate Searchable(g: Graph, todo: set<nat>) {
    g.Cluster() && SortedByFee(g) && todo <= g.used
  }

  // ----- what a work item stands for -----

  /** A set lies between what is included and what is not excluded. */
  ghost predicate Compatible(inc: set<nat>, und: set<nat>, c: set<nat>) {
    inc <= c <= inc + und
  }

  /** Some closed set that this branch allows is at least as good as `c`. */
  ghost predicate Hope(g: Graph, todo: set<nat>, inc: set<nat>, und: set<nat>, c: set<nat>) {
    exists d :: Closed(g, todo, d) && d != {} && Compatible(inc, und, d) && Gain(FeeRate(g, d), FeeRate(g, c)) >= 0
  }

  /** `best` already is as good as `c`, or some work item has hope of it. */
  ghost predicate Pursued(g: Graph, todo: set<nat>, best: SetInfo, queue: seq<WorkItem>, c: set<nat>) {
    || Gain(FeeRate(g, c), best.feerate) <= 0
    || exists i :: 0 <= i < |queue| && Hope(g, todo, queue[i].inc.transactions, queue[i].und, c)
  }

  ghost predicate IsInfo(g: Graph, info: SetInfo) {
    info.feerate == FeeRate(g, info.transactions)
  }

  ghost predicate BestOk(g: Graph, todo: set<nat>, best: SetInfo) {
    IsInfo(g, best) && Closed(g, todo, best.transactions) && best.transactions != {}
  }

  /** No compatible set beats both the bound and `best`. */
  ghost predicate PotBound(g: Graph, inc: set<nat>, und: set<nat>, pot: FeeFrac, best: SetInfo) {
    forall c :: Compatible(inc, und, c) ==>
      Gain(FeeRate(g, c), pot) <= 0 || Gain(FeeRate(g, c), best.feerate) <= 0
  }

  /** An included and an undecided set, together closed, both within what is left to do. */
  ghost predicate BranchOk(g: Graph, todo: set<nat>, inc: SetInfo, und: set<nat>) {
    && IsInfo(g, inc) && Closed(g, todo, inc.transactions)
    && und <= todo && inc.transactions !! und && Closed(g, todo, inc.transactions + und)
  }

  ghost predicate ItemOk(g: Graph, todo: set<nat>, best: SetInfo, w: WorkItem) {
    && BranchOk(g, todo, w.inc, w.und) && w.und != {}
    && (w.inc.transactions != {} ==>
          && w.pot.size > 0
          && Gain(w.inc.feerate, best.feerate) <= 0
          && PotBound(g, w.inc.transactions, w.und, w.pot, best))
  }

  /** The transactions left to do whose feerate is higher than that of `best`. */
  ghost predicate ImpOk(g: Graph, todo: set<nat>, best: SetInfo, imp: set<nat>) {
    forall i :: i in imp <==> i in todo && Gain(g.Fee(i), best.feerate) > 0
  }

  ghost predicate StateOk(g: Graph, todo: set<nat>, st: State) {
    && BestOk(g, todo, st.best) && ImpOk(g, todo, st.best, st.imp)
    && forall i :: 0 <= i < |st.queue| ==> ItemOk(g, todo, st.best, st.queue[i])
  }

  // ----- sizes -----

  lemma Sizes(g: Graph, todo: set<nat>, s: set<nat>)
    requires Searchable(g, todo) && s <= todo
    ensures FeeRate(g, s).size >= 0 && (s != {} ==> FeeRate(g, s).size > 0)
  {
    hide FeeRate;
    FeeRateSize(g, s);
  }

  lemma BestSize(g: Graph, todo: set<nat>, best: SetInfo)
    requires Searchable(g, todo) && BestOk(g, todo, best)
    ensures best.feerate.size > 0
  {
    hide FeeRate;
    Sizes(g, todo, best.transactions);
  }

  // ----- improving best keeps everything -----

  lemma BetterBest(g: Graph, todo: set<nat>, old_: SetInfo, new_: SetInfo, c: set<nat>)
    requires Searchable(g, todo) && BestOk(g, todo, old_) && BestOk(g, todo, new_)
    requires Gain(old_.feerate, new_.feerate) <= 0 && c <= todo
    ensures Gain(FeeRate(g, c), old_.feerate) <= 0 ==> Gain(FeeRate(g, c), new_.feerate) <= 0
  {
    hide Gain, FeeRate, Searchable;
    Sizes(g, todo, c);
    BestSize(g, todo, old_);
    BestSize(g, todo, new_);
    GainTransDown(FeeRate(g, c), old_.feerate, new_.feerate);
  }

  lemma ItemStaysOk(g: Graph, todo: set<nat>, old_: SetInfo, new_: SetInfo, w: WorkItem)
    requires Searchable(g, todo) && BestOk(g, todo, old_) && BestOk(g, todo, new_)
    requires Gain(old_.feerate, new_.feerate) <= 0 && ItemOk(g, todo, old_, w)
    ensures ItemOk(g, todo, new_, w)
  {
    hide Gain, FeeRate, Searchable, Closed, BestOk;
    BranchWithin(g, todo, w.inc, w.und);
    BetterBest(g, todo, old_, new_, w.inc.transactions);
    forall c | Compatible(w.inc.transactions, w.und, c)
      ensures Gain(FeeRate(g, c), old_.feerate) <= 0 ==> Gain(FeeRate(g, c), new_.feerate) <= 0
    {
      BetterBest(g, todo, old_, new_, c);
    }
  }

  lemma BranchWithin(g: Graph, todo: set<nat>, inc: SetInfo, und: set<nat>)
    requires BranchOk(g, todo, inc, und)
    ensures inc.transactions + und <= todo
  {
  }

  lemma StaysPursued(g: Graph, todo: set<nat>, st: State, st': State, c: set<nat>)
    requires Searchable(g, todo) && BestOk(g, todo, st.best) && BestOk(g, todo, st'.best)
    requires Gain(st.best.feerate, st'.best.feerate) <= 0 && c <= todo
    requires forall w :: w in st.queue ==> w in st'.queue
    requires Pursued(g, todo, st.best, st.queue, c)
    ensures Pursued(g, todo, st'.best, st'.queue, c)
  {
    hide Gain, FeeRate, Searchable, Closed, BestOk, Hope;
    BetterBest(g, todo, st.best, st'.best, c);
    if Gain(FeeRate(g, c), st.best.feerate) > 0 {
      var i :| 0 <= i < |st.queue| && Hope(g, todo, st.queue[i].inc.transactions, st.queue[i].und, c);
      assert st.queue[i] in st'.queue;
    }
  }

  // ----- the potential of a work item -----

  /** Taking away what rises and adding what does not rise gives nothing that rises. */
  lemma Exchange(g: Graph, pot: set<nat>, c: set<nat>, slope: FeeFrac)
    requires Gain(FeeRate(g, pot), slope) <= 0
    requires forall e :: e in pot - c ==> Gain(g.Fee(e), slope) >= 0
    requires forall e :: e in c - pot ==> Gain(g.Fee(e), slope) <= 0
    ensures Gain(FeeRate(g, c), slope) <= 0
  {
    hide Gain, FeeRate;
    GainSplit(g, pot, pot * c, slope);
    GainSplit(g, c, pot * c, slope);
    assert pot - pot * c == pot - c && c - pot * c == c - pot;
    GainSign(g, pot - c, slope);
    GainSign(g, c - pot, slope);
  }

  /** What the greedy loop of the potential arrives at. */
  ghost predicate Greedy(g: Graph, inc: set<nat>, und: set<nat>, imp: set<nat>, pot: set<nat>) {
    && inc <= pot <= inc + imp * und
    && (forall e :: e in pot - inc ==> Gain(g.Fee(e), FeeRate(g, pot)) > 0)
    && (forall e :: e in imp * und - pot ==> Gain(g.Fee(e), FeeRate(g, pot)) <= 0)
  }

  lemma GreedyBound(g: Graph, todo: set<nat>, best: SetInfo, inc: set<nat>, und: set<nat>, imp: set<nat>, pot: set<nat>, c: set<nat>)
    requires Searchable(g, todo) && BestOk(g, todo, best) && ImpOk(g, todo, best, imp)
    requires inc != {} && inc + und <= todo && inc !! und && Greedy(g, inc, und, imp, pot)
    requires Compatible(inc, und, c)
    ensures Gain(FeeRate(g, c), FeeRate(g, pot)) <= 0 || Gain(FeeRate(g, c), best.feerate) <= 0
  {
    hide Gain, FeeRate, Graph.Valid, Graph.Acyclic, Closed;
    var phi, beta := FeeRate(g, pot), best.feerate;
    Sizes(g, todo, pot);
    BestSize(g, todo, best);
    GainFlip(phi, phi);
    GainFlip(phi, beta);
    if Gain(beta, phi) <= 0 {
      forall e | e in c - pot ensures Gain(g.Fee(e), phi) <= 0 {
        if e !in imp {
          GainTransDown(g.Fee(e), beta, phi);
        }
      }
      Exchange(g, pot, c, phi);
    } else {
      forall e | e in c - pot ensures Gain(g.Fee(e), beta) <= 0 {
        if e in imp {
          GainTransDown(g.Fee(e), phi, beta);
        }
      }
      Exchange(g, pot, c, beta);
    }
  }

  /** Adding a transaction that rises above the set keeps all added ones above it. */
  lemma GreedyStep(g: Graph, inc: set<nat>, pot: set<nat>, e: nat)
    requires e !in pot && inc <= pot && FeeRate(g, pot).size > 0 && g.Fee(e).size > 0
    requires Gain(g.Fee(e), FeeRate(g, pot)) > 0
    requires forall x :: x in pot - inc ==> Gain(g.Fee(e), g.Fee(x)) <= 0 && g.Fee(x).size > 0
    ensures FeeRate(g, pot + {e}) == FeeRate(g, pot).Plus(g.Fee(e))
    ensures forall x :: x in pot + {e} - inc ==> Gain(g.Fee(x), FeeRate(g, pot + {e})) > 0
  {
    hide Gain, FeeRate;
    FeeRateAdd(g, pot + {e}, e);
    assert pot + {e} - {e} == pot;
    var phi, f := FeeRate(g, pot), g.Fee(e);
    var next := phi.Plus(f);
    GainMediant(phi, f);
    forall x | x in pot + {e} - inc ensures Gain(g.Fee(x), next) > 0 {
      if x != e {
        GainFlip(f, g.Fee(x));
        GainFlip(g.Fee(x), f);
        GainFlip(f, next);
        AboveNext(g.Fee(x), f, next);
      }
    }
  }

  lemma AboveNext(x: FeeFrac, f: FeeFrac, next: FeeFrac)
    requires x.size > 0 && f.size > 0 && next.size > 0
    requires Gain(x, f) >= 0 && Gain(f, next) > 0
    ensures Gain(x, next) > 0
  {
    GainTrans(x, f, next);
  }

  /** Drop from `imp` the transactions that no longer have a higher feerate than `best`. */
  method UpdateImp(g: Graph, todo: set<nat>, imp0: set<nat>, best: SetInfo) returns (imp: set<nat>)
    requires Searchable(g, todo) && BestOk(g, todo, best) && imp0 <= todo
    requires forall i :: i in todo && Gain(g.Fee(i), best.feerate) > 0 ==> i in imp0
    ensures ImpOk(g, todo, best, imp)
  {
    hide Gain, FeeRate, Graph.Valid, Graph.Acyclic, First, Last;
    BestSize(g, todo, best);
    imp := imp0;
    while imp != {}
      invariant imp <= todo
      invariant forall i :: i in todo && Gain(g.Fee(i), best.feerate) > 0 ==> i in imp
    {
      var check := Last(imp);
      GainFlip(g.Fee(check), best.feerate);
      if Higher(g.Fee(check), best.feerate) {
        forall i | i in imp ensures Gain(g.Fee(i), best.feerate) > 0 {
          if i != check {
            GainFlip(g.Fee(i), g.Fee(check));
            AboveNext(g.Fee(i), g.Fee(check), best.feerate);
          }
        }
        break;
      }
      imp := imp - {check};
    }
  }

  /** The best feerate of any superset of `inc`, ignoring topology and what cannot beat best. */
  method Potential(g: Graph, todo: set<nat>, inc: SetInfo, und: set<nat>, imp: set<nat>) returns (pot: SetInfo)
    requires Searchable(g, todo) && IsInfo(g, inc) && inc.transactions != {}
    requires inc.transactions + und <= todo && inc.transactions !! und
    ensures IsInfo(g, pot) && Greedy(g, inc.transactions, und, imp, pot.transactions)
  {
    hide Gain, FeeRate, Graph.Valid, Graph.Acyclic, First;
    pot := inc;
    var rest := imp * und;
    while rest != {}
      invariant IsInfo(g, pot) && rest <= imp * und
      invariant pot.transactions == inc.transactions + (imp * und - rest)
      invariant forall x, y :: x in imp * und - rest && y in rest ==> x < y
      invariant forall x :: x in pot.transactions - inc.transactions ==> Gain(g.Fee(x), FeeRate(g, pot.transactions)) > 0
    {
      var pos := First(rest);
      Sizes(g, todo, pot.transactions);
      GainFlip(g.Fee(pos), pot.feerate);
      if !Higher(g.Fee(pos), pot.feerate) {
        forall e | e in rest ensures Gain(g.Fee(e), pot.feerate) <= 0 {
          if e != pos {
            GainTransDown(g.Fee(e), g.Fee(pos), pot.feerate);
          }
        }
        break;
      }
      GreedyStep(g, inc.transactions, pot.transactions, pos);
      rest := rest - {pos};
      pot := SetInfo(pot.transactions + {pos}, pot.feerate.Plus(g.Fee(pos)));
    }
  }

  /** Include every transaction of the potential whose ancestors all belong to it. */
  method JumpAhead(g: Graph, todo: set<nat>, inc: set<nat>, pot: set<nat>) returns (next: set<nat>)
    requires g.Valid() && todo <= g.used && inc <= pot <= todo && Closed(g, todo, inc)
    ensures inc <= next <= pot && Closed(g, todo, next)
  {
    hide First;
    next := inc;
    var rest := pot - inc;
    while rest != {}
      invariant rest <= pot && inc <= next <= pot && Closed(g, todo, next)
    {
      var pos := First(rest);
      var ancTodo := g.Anc(pos) * todo;
      if ancTodo <= pot {
        next := next + ancTodo;
      }
      rest := rest - {pos};
    }
  }

  /** Whatever a branch allows, it allows with the jumped-ahead transactions added. */
  lemma JumpKeepsHope(g: Graph, todo: set<nat>, best: SetInfo, inc: SetInfo, und: set<nat>, imp: set<nat>,
                      pot: set<nat>, next: set<nat>, c: set<nat>)
    requires Searchable(g, todo) && BestOk(g, todo, best) && ImpOk(g, todo, best, imp)
    requires BranchOk(g, todo, inc, und) && inc.transactions != {}
    requires Greedy(g, inc.transactions, und, imp, pot)
    requires inc.transactions <= next <= pot && Closed(g, todo, next)
    requires c <= todo && c != {} && Hope(g, todo, inc.transactions, und, c)
    ensures Gain(FeeRate(g, c), best.feerate) <= 0 || Hope(g, todo, next, und - next, c)
  {
    hide Gain, FeeRate, Graph.Valid, Graph.Acyclic;
    var d :| Closed(g, todo, d) && d != {} && Compatible(inc.transactions, und, d) && Gain(FeeRate(g, d), FeeRate(g, c)) >= 0;
    GreedyBound(g, todo, best, inc.transactions, und, imp, pot, d);
    Sizes(g, todo, c);
    Sizes(g, todo, d);
    Sizes(g, todo, pot);
    BestSize(g, todo, best);
    var f := FeeRate(g, c);
    GainFlip(FeeRate(g, d), f);
    if Gain(FeeRate(g, d), best.feerate) <= 0 {
      GainTransDown(f, FeeRate(g, d), best.feerate);
    } else {
      GainTransDown(f, FeeRate(g, d), FeeRate(g, pot));
      GainFlip(FeeRate(g, pot), f);
      RisingUnion(g, todo, inc.transactions, pot, next, d, f);
      assert Closed(g, todo, d + next) && Compatible(next, und - next, d + next);
    }
  }

  /** Adding to `d` transactions that rise above a line does not lower it with respect to it. */
  lemma RisingUnion(g: Graph, todo: set<nat>, inc: set<nat>, pot: set<nat>, next: set<nat>, d: set<nat>, f: FeeFrac)
    requires Searchable(g, todo) && next <= pot <= todo && inc <= d && inc <= pot && pot != {} && f.size > 0
    requires forall e :: e in pot - inc ==> Gain(g.Fee(e), FeeRate(g, pot)) > 0
    requires Gain(FeeRate(g, pot), f) >= 0
    ensures Gain(FeeRate(g, d + next), f) >= Gain(FeeRate(g, d), f)
  {
    hide Gain, FeeRate, Graph.Valid, Graph.Acyclic, Closed;
    Sizes(g, todo, pot);
    forall e | e in next - d ensures Gain(g.Fee(e), f) >= 0 {
      GainTrans(g.Fee(e), FeeRate(g, pot), f);
    }
    GainSign(g, next - d, f);
    GainSplit(g, d + next, d, f);
    assert d + next - d == next - d;
  }

  /** If nothing of the potential is left undecided, nothing better than `inc` is allowed. */
  lemma NoPotential(g: Graph, todo: set<nat>, best: SetInfo, inc: set<nat>, und: set<nat>, imp: set<nat>,
                    pot: set<nat>, best': SetInfo, c: set<nat>)
    requires Searchable(g, todo) && BestOk(g, todo, best) && BestOk(g, todo, best') && ImpOk(g, todo, best, imp)
    requires inc != {} && inc + und <= todo && inc !! und && Greedy(g, inc, und, imp, pot)
    requires Gain(best.feerate, best'.feerate) <= 0 && Gain(FeeRate(g, pot), best'.feerate) <= 0
    requires c <= todo && c != {} && Hope(g, todo, inc, und, c)
    ensures Gain(FeeRate(g, c), best'.feerate) <= 0
  {
    hide Gain, FeeRate, Graph.Valid, Graph.Acyclic, Closed;
    var d :| Closed(g, todo, d) && d != {} && Compatible(inc, und, d) && Gain(FeeRate(g, d), FeeRate(g, c)) >= 0;
    GreedyBound(g, todo, best, inc, und, imp, pot, d);
    Sizes(g, todo, c);
    Sizes(g, todo, d);
    Sizes(g, todo, pot);
    BestSize(g, todo, best');
    BetterBest(g, todo, best, best', d);
    GainFlip(FeeRate(g, d), FeeRate(g, c));
    if Gain(FeeRate(g, d), FeeRate(g, pot)) <= 0 {
      GainTransDown(FeeRate(g, d), FeeRate(g, pot), best'.feerate);
    }
    GainTransDown(FeeRate(g, c), FeeRate(g, d), best'.feerate);
  }

  lemma SameSizeSameSet(g: Graph, todo: set<nat>, part: set<nat>, whole: set<nat>)
    requires Searchable(g, todo) && part <= whole <= todo
    requires FeeRate(g, part).size == FeeRate(g, whole).size
    ensures part == whole
  {
    hide FeeRate;
    FeeRateSplit(g, whole, part);
    Sizes(g, todo, whole - part);
  }

  // ----- adding a work item -----

  ghost predicate AtLeastAsGood(a: SetInfo, b: SetInfo) {
    a == b || Greater(a.feerate, b.feerate)
  }

  /** Every closed set that the branch has hope of is pursued. */
  ghost predicate Handled(g: Graph, todo: set<nat>, inc: set<nat>, und: set<nat>, best: SetInfo, queue: seq<WorkItem>) {
    forall c :: Closed(g, todo, c) && c != {} && Hope(g, todo, inc, und, c) ==> Pursued(g, todo, best, queue, c)
  }

  lemma GreaterNotBelow(a: FeeFrac, b: FeeFrac)
    ensures Greater(a, b) ==> Gain(b, a) <= 0
    ensures !Greater(a, b) ==> Gain(a, b) <= 0
  {
  }

  lemma NewBest(g: Graph, todo: set<nat>, st: State, best: SetInfo)
    requires Searchable(g, todo) && StateOk(g, todo, st) && BestOk(g, todo, best)
    requires AtLeastAsGood(best, st.best)
    ensures Gain(st.best.feerate, best.feerate) <= 0
    ensures forall i :: 0 <= i < |st.queue| ==> ItemOk(g, todo, best, st.queue[i])
    ensures forall i :: i in todo && Gain(g.Fee(i), best.feerate) > 0 ==> i in st.imp
  {
    hide Gain, FeeRate, Graph.Valid, Graph.Acyclic, Closed, PotBound, BranchOk;
    GreaterNotBelow(best.feerate, st.best.feerate);
    GainFlip(best.feerate, best.feerate);
    forall i | 0 <= i < |st.queue| ensures ItemOk(g, todo, best, st.queue[i]) {
      ItemStaysOk(g, todo, st.best, best, st.queue[i]);
    }
    BestSize(g, todo, st.best);
    BestSize(g, todo, best);
    forall i | i in todo && Gain(g.Fee(i), best.feerate) > 0 ensures Gain(g.Fee(i), st.best.feerate) > 0 {
      if Gain(g.Fee(i), st.best.feerate) <= 0 {
        GainTransDown(g.Fee(i), st.best.feerate, best.feerate);
      }
    }
  }

  lemma JumpBranch(g: Graph, todo: set<nat>, inc: SetInfo, und: set<nat>, next: set<nat>)
    requires BranchOk(g, todo, inc, und) && inc.transactions <= next <= inc.transactions + und
    requires Closed(g, todo, next)
    ensures BranchOk(g, todo, SetInfo(next, inc.feerate.Plus(FeeRate(g, next - inc.transactions))), und - next)
  {
    hide FeeRate;
    FeeRateSplit(g, next, inc.transactions);
    assert next + (und - next) == inc.transactions + und;
  }

  /** An item allows only what a branch allows. */
  ghost predicate Narrower(inc: set<nat>, und: set<nat>, w: WorkItem) {
    inc <= w.inc.transactions && w.inc.transactions + w.und <= inc + und
  }

  /** Add an item to explore if it may lead to something better than `best`, possibly improving
      it before doing so, and update `best` and `imp`. */
  method AddItem(g: Graph, todo: set<nat>, st: State, inc: SetInfo, und: set<nat>, ghost capacity: nat) returns (st': State)
    requires Searchable(g, todo) && StateOk(g, todo, st) && BranchOk(g, todo, inc, und)
    requires |st.queue| < capacity
    ensures StateOk(g, todo, st') && AtLeastAsGood(st'.best, st.best)
    ensures st.queue <= st'.queue && |st'.queue| <= |st.queue| + 1
    ensures |st'.queue| > |st.queue| ==> st'.queue[|st.queue|].und <= und && Narrower(inc.transactions, und, st'.queue[|st.queue|])
    ensures Handled(g, todo, inc.transactions, und, st'.best, st'.queue)
  {
    hide Gain, FeeRate, Graph.Valid, Graph.Acyclic, Closed, Greedy, PotBound, Hope;
    BranchWithin(g, todo, inc, und);
    Sizes(g, todo, inc.transactions);
    EmptyIncluded(g, inc);
    if inc.feerate.IsEmpty() {
      if und == {} {
        NoBranch(g, todo, inc.transactions, st.best, st.queue);
        return st;
      }
      st' := st.(queue := st.queue + [WorkItem(inc, und, EMPTY)]);
      LastPursued(g, todo, st'.best, st.queue, WorkItem(inc, und, EMPTY));
    } else {
      var pot := Potential(g, todo, inc, und, st.imp);
      PotentialWithin(g, inc.transactions, und, st.imp, pot.transactions);
      var next := JumpAhead(g, todo, inc.transactions, pot.transactions);
      var inc' := SetInfo(next, inc.feerate.Plus(FeeRate(g, next - inc.transactions)));
      var und' := und - next;
      JumpBranch(g, todo, inc, und, next);
      var best, imp := st.best, st.imp;
      if Greater(inc'.feerate, best.feerate) {
        best := inc';
        NewBest(g, todo, st, best);
        imp := UpdateImp(g, todo, imp, best);
      } else {
        NewBest(g, todo, st, best);
      }
      IncludedBelow(inc', st.best, best);
      if pot.feerate.size == inc'.feerate.size {
        SameSizeSameSet(g, todo, next, pot.transactions);
        st' := State(st.queue, best, imp);
        NoPotentialHandled(g, todo, st.best, inc.transactions, und, st.imp, pot.transactions, best, st.queue);
      } else {
        var w := WorkItem(inc', und', pot.feerate);
        NewItem(g, todo, st.best, best, inc, und, st.imp, pot.transactions, w);
        st' := State(st.queue + [w], best, imp);
        JumpHandled(g, todo, st.best, best, inc, und, st.imp, pot.transactions, st.queue, w);
      }
    }
  }

  lemma EmptyIncluded(g: Graph, inc: SetInfo)
    requires IsInfo(g, inc) && (inc.transactions != {} ==> inc.feerate.size > 0)
    ensures inc.feerate.IsEmpty() <==> inc.transactions == {}
  {
  }

  lemma PotentialWithin(g: Graph, inc: set<nat>, und: set<nat>, imp: set<nat>, pot: set<nat>)
    requires Greedy(g, inc, und, imp, pot)
    ensures inc <= pot <= inc + und
  {
  }

  lemma IncludedBelow(inc: SetInfo, old_: SetInfo, best: SetInfo)
    requires best == if Greater(inc.feerate, old_.feerate) then inc else old_
    ensures Gain(inc.feerate, best.feerate) <= 0
  {
  }

  lemma NoBranch(g: Graph, todo: set<nat>, inc: set<nat>, best: SetInfo, queue: seq<WorkItem>)
    requires inc == {}
    ensures Handled(g, todo, inc, {}, best, queue)
  {
    hide Gain, FeeRate, Closed, Pursued;
  }

  lemma LastPursued(g: Graph, todo: set<nat>, best: SetInfo, queue: seq<WorkItem>, w: WorkItem)
    ensures Handled(g, todo, w.inc.transactions, w.und, best, queue + [w])
  {
    hide Gain, FeeRate, Closed, Hope;
    forall c | Hope(g, todo, w.inc.transactions, w.und, c) ensures Pursued(g, todo, best, queue + [w], c) {
      assert (queue + [w])[|queue|] == w;
    }
  }

  lemma NoPotentialHandled(g: Graph, todo: set<nat>, old_: SetInfo, inc: set<nat>, und: set<nat>, imp: set<nat>,
                           pot: set<nat>, best: SetInfo, queue: seq<WorkItem>)
    requires Searchable(g, todo) && BestOk(g, todo, old_) && BestOk(g, todo, best) && ImpOk(g, todo, old_, imp)
    requires inc != {} && inc + und <= todo && inc !! und && Greedy(g, inc, und, imp, pot)
    requires Gain(old_.feerate, best.feerate) <= 0 && Gain(FeeRate(g, pot), best.feerate) <= 0
    ensures Handled(g, todo, inc, und, best, queue)
  {
    hide Gain, FeeRate, Searchable, BestOk, Greedy, Hope;
    forall c | Closed(g, todo, c) && c != {} && Hope(g, todo, inc, und, c) ensures Pursued(g, todo, best, queue, c) {
      NoPotential(g, todo, old_, inc, und, imp, pot, best, c);
    }
  }

  lemma NewItem(g: Graph, todo: set<nat>, old_: SetInfo, best: SetInfo, inc: SetInfo, und: set<nat>, imp: set<nat>,
                pot: set<nat>, w: WorkItem)
    requires Searchable(g, todo) && BestOk(g, todo, old_) && BestOk(g, todo, best) && ImpOk(g, todo, old_, imp)
    requires BranchOk(g, todo, inc, und) && inc.transactions != {} && Greedy(g, inc.transactions, und, imp, pot)
    requires inc.transactions <= w.inc.transactions <= pot && w.und == und - w.inc.transactions
    requires BranchOk(g, todo, w.inc, w.und) && w.pot == FeeRate(g, pot) && w.inc.transactions != pot
    requires Gain(old_.feerate, best.feerate) <= 0 && Gain(w.inc.feerate, best.feerate) <= 0
    ensures ItemOk(g, todo, best, w)
  {
    hide Gain, FeeRate, Searchable, BestOk, Closed, ImpOk;
    BranchWithin(g, todo, inc, und);
    assert pot - w.inc.transactions <= w.und;
    Sizes(g, todo, pot);
    forall c | Compatible(w.inc.transactions, w.und, c)
      ensures Gain(FeeRate(g, c), w.pot) <= 0 || Gain(FeeRate(g, c), best.feerate) <= 0
    {
      GreedyBound(g, todo, old_, inc.transactions, und, imp, pot, c);
      BetterBest(g, todo, old_, best, c);
    }
  }

  lemma JumpHandled(g: Graph, todo: set<nat>, old_: SetInfo, best: SetInfo, inc: SetInfo, und: set<nat>, imp: set<nat>,
                    pot: set<nat>, queue: seq<WorkItem>, w: WorkItem)
    requires Searchable(g, todo) && BestOk(g, todo, old_) && BestOk(g, todo, best) && ImpOk(g, todo, old_, imp)
    requires BranchOk(g, todo, inc, und) && inc.transactions != {} && Greedy(g, inc.transactions, und, imp, pot)
    requires inc.transactions <= w.inc.transactions <= pot && w.und == und - w.inc.transactions
    requires Closed(g, todo, w.inc.transactions) && Gain(old_.feerate, best.feerate) <= 0
    ensures Handled(g, todo, inc.transactions, und, best, queue + [w])
  {
    hide Gain, FeeRate, Searchable, BestOk, Greedy, Hope, ImpOk, BranchOk, Pursued;
    LastPursued(g, todo, best, queue, w);
    forall c | Closed(g, todo, c) && c != {} && Hope(g, todo, inc.transactions, und, c)
      ensures Pursued(g, todo, best, queue + [w], c)
    {
      JumpKeepsHope(g, todo, old_, inc, und, imp, pot, w.inc.transactions, c);
      BetterBest(g, todo, old_, best, c);
      if Gain(FeeRate(g, c), best.feerate) <= 0 {
        AlreadyGood(g, todo, best, queue + [w], c);
      }
    }
  }

  lemma AlreadyGood(g: Graph, todo: set<nat>, best: SetInfo, queue: seq<WorkItem>, c: set<nat>)
    requires Gain(FeeRate(g, c), best.feerate) <= 0
    ensures Pursued(g, todo, best, queue, c)
  {
  }

  // ----- splitting a work item -----

  /** How many undecided transactions including or excluding `t` leaves, the larger first. */
  function SplitCounts(g: Graph, und: set<nat>, t: nat): (nat, nat) {
    var a, b := |und - g.Anc(t)|, |und - g.Desc(t)|;
    if a < b then (b, a) else (a, b)
  }

  predicate FewerCounts(a: (nat, nat), b: (nat, nat)) {
    a.0 < b.0 || (a.0 == b.0 && a.1 < b.1)
  }

  /** The first of the candidates that leaves the smallest search space. */
  method ChooseSplit(g: Graph, und: set<nat>, select: set<nat>) returns (split: nat)
    requires select != {}
    ensures split in select
    ensures forall t :: t in select ==> !FewerCounts(SplitCounts(g, und, t), SplitCounts(g, und, split))
    ensures forall t :: t in select && SplitCounts(g, und, t) == SplitCounts(g, und, split) ==> split <= t
  {
    hide First, SplitCounts;
    split := First(select);
    var done, rest := {split}, select - {split};
    while rest != {}
      invariant done + rest == select && split in done
      invariant forall t, r :: t in done && r in rest ==> t < r
      invariant forall t :: t in done ==> !FewerCounts(SplitCounts(g, und, t), SplitCounts(g, und, split))
      invariant forall t :: t in done && SplitCounts(g, und, t) == SplitCounts(g, und, split) ==> split <= t
      decreases rest
    {
      var t := First(rest);
      if FewerCounts(SplitCounts(g, und, t), SplitCounts(g, und, split)) {
        split := t;
      }
      done, rest := done + {t}, rest - {t};
    }
  }

  /** A set that rises above `best` must be hoped for by one of the two halves. */
  lemma SplitHope(g: Graph, todo: set<nat>, inc: set<nat>, und: set<nat>, split: nat, c: set<nat>)
    requires g.Valid() && todo <= g.used && split in und && und <= todo
    requires Hope(g, todo, inc, und, c)
    ensures Hope(g, todo, inc, und - g.Desc(split), c)
         || Hope(g, todo, inc + g.Anc(split) * todo, und - g.Anc(split) * todo, c)
  {
    hide Gain, FeeRate;
    var d :| Closed(g, todo, d) && d != {} && Compatible(inc, und, d) && Gain(FeeRate(g, d), FeeRate(g, c)) >= 0;
    if split in d {
      assert Compatible(inc + g.Anc(split) * todo, und - g.Anc(split) * todo, d);
    } else {
      forall x | x in d ensures x !in g.Desc(split) {
        assert x in g.Desc(split) ==> split in g.Anc(x) * todo;
      }
      assert Compatible(inc, und - g.Desc(split), d);
    }
  }

  lemma SplitBranches(g: Graph, todo: set<nat>, inc: SetInfo, und: set<nat>, split: nat)
    requires g.Valid() && todo <= g.used && split in und && BranchOk(g, todo, inc, und)
    ensures BranchOk(g, todo, inc, und - g.Desc(split))
    ensures var anc := g.Anc(split) * todo;
      BranchOk(g, todo, SetInfo(inc.transactions + anc, inc.feerate.Plus(FeeRate(g, anc - inc.transactions))), und - anc)
    ensures und - g.Desc(split) < und && und - g.Anc(split) * todo < und
  {
    hide FeeRate;
    var anc := g.Anc(split) * todo;
    assert split in g.Desc(split) && split in anc;
    forall i, a | i in inc.transactions + (und - g.Desc(split)) && a in g.Anc(i) * todo
      ensures a in inc.transactions + (und - g.Desc(split))
    {
      if i in inc.transactions {
        assert a in inc.transactions;
      } else {
        assert a in inc.transactions + und;
        assert a in g.Desc(split) ==> i in g.Desc(split);
      }
    }
    FeeRateUnion(g, inc.transactions, anc - inc.transactions);
    assert inc.transactions + (anc - inc.transactions) == inc.transactions + anc;
    assert inc.transactions + anc + (und - anc) == inc.transactions + und;
  }

  /** When a work item is discarded, `best` is as good as all it has hope of. */
  lemma Discard(g: Graph, todo: set<nat>, st: State, w: WorkItem)
    requires Searchable(g, todo) && StateOk(g, todo, st) && ItemOk(g, todo, st.best, w)
    requires if w.inc.transactions != {} then w.und * st.imp == {} || !Greater(w.pot, st.best.feerate)
             else !Greater(g.Fee(First(w.und)), st.best.feerate)
    ensures Handled(g, todo, w.inc.transactions, w.und, st.best, st.queue)
  {
    hide Gain, FeeRate, Searchable, First, Closed, PotBound, BestOk;
    forall c | Closed(g, todo, c) && c != {} && Hope(g, todo, w.inc.transactions, w.und, c)
      ensures Pursued(g, todo, st.best, st.queue, c)
    {
      var d :| Closed(g, todo, d) && d != {} && Compatible(w.inc.transactions, w.und, d) && Gain(FeeRate(g, d), FeeRate(g, c)) >= 0;
      NothingBetter(g, todo, st, w, d);
      assert c <= todo && d <= todo by { ClosedWithin(g, todo, c); ClosedWithin(g, todo, d); }
      Sizes(g, todo, c);
      Sizes(g, todo, d);
      BestSize(g, todo, st.best);
      GainFlip(FeeRate(g, d), FeeRate(g, c));
      GainTransDown(FeeRate(g, c), FeeRate(g, d), st.best.feerate);
    }
  }

  lemma ClosedWithin(g: Graph, todo: set<nat>, c: set<nat>)
    requires Closed(g, todo, c)
    ensures c <= todo
  {
  }

  lemma NothingBetter(g: Graph, todo: set<nat>, st: State, w: WorkItem, d: set<nat>)
    requires Searchable(g, todo) && StateOk(g, todo, st) && ItemOk(g, todo, st.best, w)
    requires if w.inc.transactions != {} then w.und * st.imp == {} || !Greater(w.pot, st.best.feerate)
             else !Greater(g.Fee(First(w.und)), st.best.feerate)
    requires Compatible(w.inc.transactions, w.und, d)
    ensures Gain(FeeRate(g, d), st.best.feerate) <= 0
  {
    hide Gain, FeeRate, Graph.Valid, Graph.Acyclic, First, Closed;
    var beta := st.best.feerate;
    BestSize(g, todo, st.best);
    BranchWithin(g, todo, w.inc, w.und);
    Sizes(g, todo, d);
    if w.inc.transactions == {} {
      var first := First(w.und);
      GreaterNotBelow(g.Fee(first), beta);
      forall e | e in d ensures Gain(g.Fee(e), beta) <= 0 {
        if e != first {
          GainTransDown(g.Fee(e), g.Fee(first), beta);
        }
      }
      GainSign(g, d, beta);
    } else if w.und * st.imp == {} {
      forall e | e in d - w.inc.transactions ensures Gain(g.Fee(e), beta) <= 0 {
        assert e !in w.und * st.imp;
      }
      GainSplit(g, d, w.inc.transactions, beta);
      GainSign(g, d - w.inc.transactions, beta);
    } else {
      GreaterNotBelow(w.pot, beta);
      if Gain(FeeRate(g, d), w.pot) <= 0 {
        GainTransDown(FeeRate(g, d), w.pot, beta);
      }
    }
  }

  lemma ItemParts(g: Graph, todo: set<nat>, best: SetInfo, w: WorkItem)
    requires Searchable(g, todo) && ItemOk(g, todo, best, w)
    ensures BranchOk(g, todo, w.inc, w.und) && w.und != {} && w.und <= todo
    ensures w.inc.feerate.IsEmpty() <==> w.inc.transactions == {}
  {
    hide Gain, FeeRate;
    BranchWithin(g, todo, w.inc, w.und);
    Sizes(g, todo, w.inc.transactions);
    FeeRateEmpty(g);
  }

  lemma GreaterTrans(a: FeeFrac, b: FeeFrac, c: FeeFrac)
    requires a.size > 0 && b.size > 0 && c.size > 0 && Greater(a, b) && Greater(b, c)
    ensures Greater(a, c)
  {
    hide Gain;
    GreaterIsGain(a, b);
    GreaterIsGain(b, c);
    GreaterIsGain(a, c);
    GainTrans(a, b, c);
    if Gain(a, b) == 0 && Gain(b, c) == 0 {
      GainTransDown(a, b, c);
    }
  }

  lemma GreaterIsGain(a: FeeFrac, b: FeeFrac)
    ensures Greater(a, b) <==> Gain(a, b) > 0 || (Gain(a, b) == 0 && a.size < b.size)
  {
  }

  lemma AtLeastTrans(g: Graph, todo: set<nat>, a: SetInfo, b: SetInfo, c: SetInfo)
    requires Searchable(g, todo) && BestOk(g, todo, a) && BestOk(g, todo, b) && BestOk(g, todo, c)
    requires AtLeastAsGood(a, b) && AtLeastAsGood(b, c)
    ensures AtLeastAsGood(a, c)
  {
    hide Searchable, BestOk, Greater;
    BestSize(g, todo, a);
    BestSize(g, todo, b);
    BestSize(g, todo, c);
    if a != b && b != c {
      GreaterTrans(a.feerate, b.feerate, c.feerate);
    }
  }

  /** What one half handled stays handled, and the other half handles the rest. */
  lemma BothHandled(g: Graph, todo: set<nat>, st1: State, st': State, w: WorkItem, split: nat)
    requires Searchable(g, todo) && split in w.und && w.und <= todo
    requires BestOk(g, todo, st1.best) && BestOk(g, todo, st'.best) && AtLeastAsGood(st'.best, st1.best)
    requires st1.queue <= st'.queue
    requires Handled(g, todo, w.inc.transactions, w.und - g.Desc(split), st1.best, st1.queue)
    requires Handled(g, todo, w.inc.transactions + g.Anc(split) * todo, w.und - g.Anc(split) * todo, st'.best, st'.queue)
    ensures Handled(g, todo, w.inc.transactions, w.und, st'.best, st'.queue)
  {
    hide Gain, FeeRate, Graph.Valid, Graph.Acyclic, BestOk, Hope, Pursued, Greater;
    GreaterNotBelow(st'.best.feerate, st1.best.feerate);
    GainFlip(st1.best.feerate, st1.best.feerate);
    forall c | Closed(g, todo, c) && c != {} && Hope(g, todo, w.inc.transactions, w.und, c)
      ensures Pursued(g, todo, st'.best, st'.queue, c)
    {
      SplitHope(g, todo, w.inc.transactions, w.und, split, c);
      if Hope(g, todo, w.inc.transactions, w.und - g.Desc(split), c) {
        StaysPursued(g, todo, st1, st', c);
      }
    }
  }

  lemma StateParts(g: Graph, todo: set<nat>, st: State)
    requires StateOk(g, todo, st)
    ensures BestOk(g, todo, st.best)
    ensures forall i :: 0 <= i < |st.queue| ==> ItemOk(g, todo, st.best, st.queue[i])
  {
  }

  lemma RoomForBoth(und: set<nat>, less: set<nat>)
    requires less < und
    ensures |und| > 0 && (less != {} ==> |und| > 1)
  {
    SubsetCount(less, und);
  }

  /** New items go behind the others, and leave the fewer undecided the further back they are. */
  lemma NewItemsFit(q: seq<WorkItem>, q1: seq<WorkItem>, q2: seq<WorkItem>, und: set<nat>, a: set<nat>, b: set<nat>)
    requires q <= q1 <= q2 && |q1| <= |q| + 1 && |q2| <= |q1| + 1 && a < und && b < und
    requires |q1| > |q| ==> q1[|q|].und <= a
    requires |q2| > |q1| ==> q2[|q1|].und <= b
    ensures forall i :: |q| <= i < |q2| ==> i + |q2[i].und| <= |q| + |und|
  {
    forall i | |q| <= i < |q2| ensures i + |q2[i].und| <= |q| + |und| {
      assert i < |q1| ==> q2[i] == q1[|q|];
      SubsetCount(q2[i].und, und);
    }
  }

  // ----- how long the search takes -----

  /** How many times the items can be split, and what comes of them, before nothing is left to split: there is one
      split less than there are closed sets that an item allows. */
  ghost function Splits(g: Graph, todo: set<nat>, queue: seq<WorkItem>): int {
    if queue == [] then 0 else Splits(g, todo, queue[..|queue| - 1]) + SplitsOf(g, todo, queue[|queue| - 1])
  }

  ghost function SplitsOf(g: Graph, todo: set<nat>, w: WorkItem): int {
    |Between(g, todo, w.inc.transactions, w.und)| - 1
  }

  lemma NoSplits(g: Graph, todo: set<nat>)
    ensures Splits(g, todo, []) == 0
  {
  }

  lemma SplitsAdd(g: Graph, todo: set<nat>, queue: seq<WorkItem>, w: WorkItem)
    ensures Splits(g, todo, queue + [w]) == Splits(g, todo, queue) + SplitsOf(g, todo, w)
  {
    assert (queue + [w])[..|queue|] == queue;
  }

  lemma {:induction false} SplitsFirst(g: Graph, todo: set<nat>, queue: seq<WorkItem>)
    requires queue != []
    ensures Splits(g, todo, queue) == SplitsOf(g, todo, queue[0]) + Splits(g, todo, queue[1..])
  {
    hide SplitsOf;
    if |queue| > 1 {
      var front := queue[..|queue| - 1];
      SplitsFirst(g, todo, front);
      assert front[1..] == queue[1..][..|queue| - 2];
    }
  }

  lemma {:induction false} SplitsPositive(g: Graph, todo: set<nat>, best: SetInfo, queue: seq<WorkItem>)
    requires forall i :: 0 <= i < |queue| ==> ItemOk(g, todo, best, queue[i])
    ensures Splits(g, todo, queue) >= 0
  {
    hide Closed, Gain, FeeRate, PotBound, Between;
    if queue != [] {
      SplitsPositive(g, todo, best, queue[..|queue| - 1]);
      var w := queue[|queue| - 1];
      SomeBetween(g, todo, w.inc.transactions, w.und);
    }
  }

  /** What is queued for a branch takes less than there are sets that the branch allows. */
  lemma SplitsAdded(g: Graph, todo: set<nat>, q: seq<WorkItem>, q': seq<WorkItem>, inc: set<nat>, und: set<nat>)
    requires q <= q' && |q'| <= |q| + 1 && Closed(g, todo, inc)
    requires |q'| > |q| ==> Narrower(inc, und, q'[|q|])
    ensures Splits(g, todo, q') < Splits(g, todo, q) + |Between(g, todo, inc, und)|
  {
    hide Closed, Between;
    SomeBetween(g, todo, inc, und);
    if |q'| > |q| {
      var w := q'[|q|];
      assert q' == q + [w];
      SplitsAdd(g, todo, q, w);
      FewerBetween(g, todo, inc, und, w.inc.transactions, w.und);
    } else {
      assert q' == q;
    }
  }

  /** Splitting an item leaves one split less to do. */
  lemma SplitPaid(g: Graph, todo: set<nat>, q: seq<WorkItem>, q1: seq<WorkItem>, q2: seq<WorkItem>, inc: SetInfo, und: set<nat>, split: nat)
    requires g.Valid() && todo <= g.used && BranchOk(g, todo, inc, und) && split in und
    requires q <= q1 <= q2 && |q1| <= |q| + 1 && |q2| <= |q1| + 1
    requires |q1| > |q| ==> Narrower(inc.transactions, und - g.Desc(split), q1[|q|])
    requires |q2| > |q1| ==> Narrower(inc.transactions + g.Anc(split) * todo, und - g.Anc(split) * todo, q2[|q1|])
    ensures Splits(g, todo, q2) + 1 <= Splits(g, todo, q) + |Between(g, todo, inc.transactions, und)| - 1
  {
    hide Closed, Between, Splits, Narrower;
    assert Closed(g, todo, inc.transactions + g.Anc(split) * todo) by { SplitBranches(g, todo, inc, und, split); }
    SplitsAdded(g, todo, q, q1, inc.transactions, und - g.Desc(split));
    SplitsAdded(g, todo, q1, q2, inc.transactions + g.Anc(split) * todo, und - g.Anc(split) * todo);
    SplitBetween(g, todo, inc.transactions, und, split);
  }

  /** Split a work item in two: one with a transaction and its ancestors included, and one with
      that transaction and its descendants excluded; unless it cannot lead to an improvement. */
  method Split(g: Graph, todo: set<nat>, st: State, w: WorkItem, ghost capacity: nat) returns (st': State, performed: bool)
    requires Searchable(g, todo) && StateOk(g, todo, st) && ItemOk(g, todo, st.best, w)
    requires |st.queue| + |w.und| <= capacity
    ensures StateOk(g, todo, st') && AtLeastAsGood(st'.best, st.best)
    ensures st.queue <= st'.queue && (!performed ==> st' == st)
    ensures forall i :: |st.queue| <= i < |st'.queue| ==> i + |st'.queue[i].und| <= |st.queue| + |w.und|
    ensures performed ==> Splits(g, todo, st'.queue) < Splits(g, todo, st.queue) + SplitsOf(g, todo, w)
    ensures Handled(g, todo, w.inc.transactions, w.und, st'.best, st'.queue)
  {
    hide Gain, FeeRate, Graph.Acyclic, Closed, First, ItemOk, StateOk, Handled, BestOk, Narrower, Splits, Between;
    ItemParts(g, todo, st.best, w);
    var first := First(w.und);
    if !w.inc.feerate.IsEmpty() {
      if w.und * st.imp == {} || !Greater(w.pot, st.best.feerate) {
        Discard(g, todo, st, w);
        return st, false;
      }
    } else if !Greater(g.Fee(first), st.best.feerate) {
      Discard(g, todo, st, w);
      return st, false;
    }
    var select := w.und * g.Anc(first);
    assert first in select;
    var split := ChooseSplit(g, w.und, select);
    SplitBranches(g, todo, w.inc, w.und, split);
    RoomForBoth(w.und, w.und - g.Desc(split));
    var st1 := AddItem(g, todo, st, w.inc, w.und - g.Desc(split), capacity);
    StateParts(g, todo, st1);
    assert |st1.queue| > |st.queue| ==> |w.und| > 1 by {
      if |st1.queue| > |st.queue| {
        ItemParts(g, todo, st1.best, st1.queue[|st.queue|]);
      }
    }
    var anc := g.Anc(split) * todo;
    var inc := SetInfo(w.inc.transactions + anc, w.inc.feerate.Plus(FeeRate(g, anc - w.inc.transactions)));
    st' := AddItem(g, todo, st1, inc, w.und - anc, capacity);
    performed := true;
    NewItemsFit(st.queue, st1.queue, st'.queue, w.und, w.und - g.Desc(split), w.und - anc);
    SplitPaid(g, todo, st.queue, st1.queue, st'.queue, w.inc, w.und, split);
    StateParts(g, todo, st);
    StateParts(g, todo, st1);
    StateParts(g, todo, st');
    BothHandled(g, todo, st1, st', w, split);
    AtLeastTrans(g, todo, st'.best, st1.best, st.best);
  }

  // ----- the search -----

  /** Every non-empty closed set is matched by `best` or may still be matched. */
  ghost predicate Explored(g: Graph, todo: set<nat>, st: State) {
    forall c :: Closed(g, todo, c) && c != {} ==> Pursued(g, todo, st.best, st.queue, c)
  }

  /** Taking one item off the queue and handling it loses nothing. */
  lemma ExploreStep(g: Graph, todo: set<nat>, st: State, w: WorkItem, st1: State, st': State)
    requires Searchable(g, todo) && BestOk(g, todo, st.best) && BestOk(g, todo, st'.best)
    requires Explored(g, todo, st) && st1.best == st.best && AtLeastAsGood(st'.best, st1.best)
    requires st1.queue <= st'.queue && forall x :: x in st.queue ==> x == w || x in st1.queue
    requires Handled(g, todo, w.inc.transactions, w.und, st'.best, st'.queue)
    ensures Explored(g, todo, st')
  {
    hide Gain, FeeRate, Searchable, BestOk, Hope, Greater;
    GreaterNotBelow(st'.best.feerate, st.best.feerate);
    GainFlip(st.best.feerate, st.best.feerate);
    forall c | Closed(g, todo, c) && c != {} ensures Pursued(g, todo, st'.best, st'.queue, c) {
      BetterBest(g, todo, st.best, st'.best, c);
      if Gain(FeeRate(g, c), st.best.feerate) > 0 {
        var i :| 0 <= i < |st.queue| && Hope(g, todo, st.queue[i].inc.transactions, st.queue[i].und, c);
        if st.queue[i] != w {
          assert st.queue[i] in st1.queue;
          StaysPursued(g, todo, st1, st', c);
        }
      }
    }
  }

  /** Items fit into the queue together with all that processing them depth-first adds. */
  ghost predicate Fits(queue: seq<WorkItem>, capacity: nat) {
    forall i :: 0 <= i < |queue| ==> i + |queue[i].und| <= capacity
  }

  /** With nothing left to explore, `best` has the highest feerate of all closed sets. */
  lemma ExploredAll(g: Graph, todo: set<nat>, st: State)
    requires BestOk(g, todo, st.best) && Explored(g, todo, st) && st.queue == []
    ensures BestClosed(g, todo, st.best.transactions)
  {
    hide Gain, FeeRate, Closed, Hope;
    forall c | Closed(g, todo, c) && c != {} ensures Gain(FeeRate(g, c), FeeRate(g, st.best.transactions)) <= 0 {
      assert Pursued(g, todo, st.best, st.queue, c);
    }
  }

  ghost predicate StartItem(g: Graph, todo: set<nat>, w: WorkItem) {
    w.inc == EMPTY_INFO && w.und != {} && Closed(g, todo, w.und)
  }

  /** Some item, or what is not yet covered by items, has hope of `c`. */
  ghost predicate Coming(g: Graph, todo: set<nat>, queue: seq<WorkItem>, toCover: set<nat>, c: set<nat>) {
    || (exists i :: 0 <= i < |queue| && Hope(g, todo, queue[i].inc.transactions, queue[i].und, c))
    || Hope(g, todo, {}, toCover, c)
  }

  lemma WholeHope(g: Graph, todo: set<nat>, c: set<nat>)
    requires Closed(g, todo, c) && c != {}
    ensures Hope(g, todo, {}, todo, c)
  {
    hide Gain, FeeRate;
    GainFlip(FeeRate(g, c), FeeRate(g, c));
    assert Compatible({}, todo, c);
  }

  lemma ComponentParts(g: Graph, todo: set<nat>, toCover: set<nat>, component: set<nat>)
    requires g.Valid() && todo <= g.used && Detached(g, todo, toCover) && toCover != {}
    requires IsComponent(g, toCover, First(toCover), component)
    ensures component != {} && component <= toCover && Detached(g, todo, component) && Closed(g, todo, component)
    ensures Detached(g, todo, toCover - component)
  {
    hide First;
    DetachedTrans(g, todo, toCover, component);
    DetachedClosed(g, todo, component, component);
    Complement(g, toCover, component);
    DetachedTrans(g, todo, toCover, toCover - component);
  }

  /** Of a closed set that spans components, the part in one of them is as good as the whole. */
  lemma ComponentHope(g: Graph, todo: set<nat>, toCover: set<nat>, component: set<nat>, c: set<nat>)
    requires Detached(g, todo, component) && Detached(g, todo, toCover - component) && component <= toCover
    requires Hope(g, todo, {}, toCover, c)
    ensures Hope(g, todo, {}, component, c) || Hope(g, todo, {}, toCover - component, c)
  {
    hide Gain, FeeRate;
    var d :| Closed(g, todo, d) && d != {} && Compatible({}, toCover, d) && Gain(FeeRate(g, d), FeeRate(g, c)) >= 0;
    var a, b := d * component, d * (toCover - component);
    DetachedClosed(g, todo, component, d);
    DetachedClosed(g, todo, toCover - component, d);
    GainSplit(g, d, a, FeeRate(g, c));
    EmptyGain(g, FeeRate(g, c));
    assert d - a == b;
    assert Compatible({}, component, a) && Compatible({}, toCover - component, b);
    if a != {} && Gain(FeeRate(g, a), FeeRate(g, c)) >= 0 {
      assert Hope(g, todo, {}, component, c);
    } else {
      assert Gain(FeeRate(g, b), FeeRate(g, c)) >= 0 && b != {};
    }
  }

  lemma CoverStep(g: Graph, todo: set<nat>, queue: seq<WorkItem>, toCover: set<nat>, component: set<nat>, c: set<nat>)
    requires Detached(g, todo, component) && Detached(g, todo, toCover - component) && component <= toCover
    requires Coming(g, todo, queue, toCover, c)
    ensures Coming(g, todo, queue + [WorkItem(EMPTY_INFO, component, EMPTY)], toCover - component, c)
  {
    hide Gain, FeeRate, Hope, Detached;
    var w := WorkItem(EMPTY_INFO, component, EMPTY);
    var q := queue + [w];
    if exists i :: 0 <= i < |queue| && Hope(g, todo, queue[i].inc.transactions, queue[i].und, c) {
      var i :| 0 <= i < |queue| && Hope(g, todo, queue[i].inc.transactions, queue[i].und, c);
      assert q[i] == queue[i];
    } else {
      ComponentHope(g, todo, toCover, component, c);
      assert q[|queue|] == w;
    }
  }

  lemma StartExplored(g: Graph, todo: set<nat>, st: State)
    requires Searchable(g, todo) && BestOk(g, todo, st.best) && ImpOk(g, todo, st.best, st.imp)
    requires forall i :: 0 <= i < |st.queue| ==> StartItem(g, todo, st.queue[i])
    requires forall c :: Closed(g, todo, c) && c != {} ==> Coming(g, todo, st.queue, {}, c)
    ensures StateOk(g, todo, st) && Explored(g, todo, st)
  {
    hide Gain, FeeRate, Graph.Valid, Graph.Acyclic;
    FeeRateEmpty(g);
    forall i | 0 <= i < |st.queue| ensures ItemOk(g, todo, st.best, st.queue[i]) {
      assert {} + st.queue[i].und == st.queue[i].und;
    }
  }

  lemma PartCount(whole: set<nat>, part: set<nat>)
    requires part <= whole && part != {}
    ensures 0 < |part| <= |whole| && |whole - part| + |part| == |whole|
  {
    assert (whole - part) + part == whole;
  }

  lemma NotYetCovered(g: Graph, todo: set<nat>, c: set<nat>)
    requires Hope(g, todo, {}, todo, c)
    ensures Coming(g, todo, [], todo, c)
  {
  }

  lemma AllDetached(g: Graph, todo: set<nat>)
    ensures Detached(g, todo, todo)
  {
  }

  /** One work item per connected component; without a given set, best is the first of them. */
  method StartQueue(g: Graph, todo: set<nat>, best0: SetInfo, ghost capacity: nat) returns (st: State)
    requires Searchable(g, todo) && todo != {} && |todo| <= capacity
    requires best0 == EMPTY_INFO || BestOk(g, todo, best0)
    ensures StateOk(g, todo, st) && Explored(g, todo, st) && Fits(st.queue, capacity)
    ensures Splits(g, todo, st.queue) < |AllClosed(g, todo)|
    ensures best0 != EMPTY_INFO ==> st.best == best0
  {
    hide Gain, FeeRate, Graph.Valid, Graph.Acyclic, Hope, First, Detached, IsComponent, Closed, Coming, Between, Splits;
    assert Splits(g, todo, []) == 0 by { NoSplits(g, todo); }
    var best, queue := best0, [];
    var toCover := todo;
    AllDetached(g, todo);
    forall c | Closed(g, todo, c) && c != {} ensures Coming(g, todo, queue, toCover, c) {
      WholeHope(g, todo, c);
      NotYetCovered(g, todo, c);
    }
    while toCover != {}
      invariant toCover <= todo && Detached(g, todo, toCover)
      invariant best == EMPTY_INFO || BestOk(g, todo, best)
      invariant best == EMPTY_INFO ==> toCover == todo
      invariant best0 != EMPTY_INFO ==> best == best0
      invariant forall i :: 0 <= i < |queue| ==> StartItem(g, todo, queue[i])
      invariant |queue| + |toCover| <= |todo| && Fits(queue, |todo|)
      invariant Splits(g, todo, queue) + |Between(g, todo, {}, toCover)| <= |AllClosed(g, todo)|
      invariant forall c :: Closed(g, todo, c) && c != {} ==> Coming(g, todo, queue, toCover, c)
      decreases |toCover|
    {
      var component := FindConnectedComponent(g, toCover);
      ComponentParts(g, todo, toCover, component);
      PartCount(toCover, component);
      if best.feerate.IsEmpty() {
        assert best == EMPTY_INFO by {
          if best != EMPTY_INFO {
            BestSize(g, todo, best);
          }
        }
        best := SetInfo(component, FeeRate(g, component));
      }
      forall c | Closed(g, todo, c) && c != {}
        ensures Coming(g, todo, queue + [WorkItem(EMPTY_INFO, component, EMPTY)], toCover - component, c)
      {
        CoverStep(g, todo, queue, toCover, component, c);
      }
      SplitsAdd(g, todo, queue, WorkItem(EMPTY_INFO, component, EMPTY));
      PartsBetween(g, todo, toCover, component);
      queue := queue + [WorkItem(EMPTY_INFO, component, EMPTY)];
      toCover := toCover - component;
    }
    NothingBetween(g, todo);
    var imp := UpdateImp(g, todo, todo, best);
    st := State(queue, best, imp);
    StartExplored(g, todo, st);
  }

  /** What the work loop keeps. */
  ghost predicate Searched(g: Graph, todo: set<nat>, capacity: nat, st: State) {
    StateOk(g, todo, st) && Explored(g, todo, st) && Fits(st.queue, capacity)
  }

  lemma SplitsWithout(g: Graph, todo: set<nat>, best: SetInfo, queue: seq<WorkItem>, k: nat, rest: seq<WorkItem>)
    requires k < |queue| && (k == 0 || k == |queue| - 1) && ItemOk(g, todo, best, queue[k])
    requires rest == if k == 0 then queue[1..] else queue[..k]
    ensures Splits(g, todo, queue) == Splits(g, todo, rest) + SplitsOf(g, todo, queue[k])
    ensures SplitsOf(g, todo, queue[k]) >= 0
  {
    hide Closed, Gain, FeeRate, PotBound, Between;
    SomeBetween(g, todo, queue[k].inc.transactions, queue[k].und);
    if k == 0 {
      SplitsFirst(g, todo, queue);
    }
  }

  /** Take the item at `k`, the first or the last, off the queue and split it. */
  method Process(g: Graph, todo: set<nat>, capacity: nat, st: State, k: nat) returns (st': State, performed: bool)
    requires Searchable(g, todo) && Searched(g, todo, capacity, st)
    requires k < |st.queue| && (k == 0 || k == |st.queue| - 1)
    requires |st.queue| - 1 + |st.queue[k].und| <= capacity
    ensures Searched(g, todo, capacity, st') && AtLeastAsGood(st'.best, st.best)
    ensures |st'.queue| >= |st.queue| - 1 && (!performed ==> |st'.queue| == |st.queue| - 1)
    ensures Splits(g, todo, st'.queue) + (if performed then 1 else 0) <= Splits(g, todo, st.queue)
  {
    hide Searchable, ItemOk, BestOk, ImpOk, Explored, Handled, AtLeastAsGood, Splits, SplitsOf;
    var w := st.queue[k];
    var queue := if k == 0 then st.queue[1..] else st.queue[..k];
    assert forall x :: x in st.queue ==> x == w || x in queue by {
      assert st.queue == if k == 0 then [w] + queue else queue + [w];
    }
    var st1 := st.(queue := queue);
    SplitsWithout(g, todo, st.best, st.queue, k, queue);
    st', performed := Split(g, todo, st1, w, capacity);
    ExploreStep(g, todo, st, w, st1, st');
  }

  lemma SwapKeeps(g: Graph, todo: set<nat>, capacity: nat, st: State, st': State)
    requires Searched(g, todo, capacity, st) && |st.queue| > 1 && |todo| < capacity
    requires st' == st.(queue := st.queue[0 := st.queue[1]][1 := st.queue[0]])
    ensures Searched(g, todo, capacity, st') && Splits(g, todo, st'.queue) == Splits(g, todo, st.queue)
  {
    hide Gain, FeeRate, Closed, Hope, BestOk, ImpOk, Splits, SplitsOf;
    SplitsFirst(g, todo, st.queue);
    SplitsFirst(g, todo, st.queue[1..]);
    SplitsFirst(g, todo, st'.queue);
    SplitsFirst(g, todo, st'.queue[1..]);
    assert st.queue[1..][1..] == st'.queue[1..][1..];
    forall i | 0 <= i < |st'.queue| ensures ItemOk(g, todo, st.best, st'.queue[i]) && i + |st'.queue[i].und| <= capacity {
      var j := if i == 0 then 1 else if i == 1 then 0 else i;
      assert st'.queue[i] == st.queue[j];
      ItemCount(g, todo, st.best, st.queue[j]);
    }
    forall c | Closed(g, todo, c) && c != {} ensures Pursued(g, todo, st'.best, st'.queue, c) {
      assert Pursued(g, todo, st.best, st.queue, c);
      if Gain(FeeRate(g, c), st.best.feerate) > 0 {
        var i :| 0 <= i < |st.queue| && Hope(g, todo, st.queue[i].inc.transactions, st.queue[i].und, c);
        assert st'.queue[if i == 0 then 1 else if i == 1 then 0 else i] == st.queue[i];
      }
    }
  }

  lemma ItemCount(g: Graph, todo: set<nat>, best: SetInfo, w: WorkItem)
    requires ItemOk(g, todo, best, w)
    ensures |w.und| <= |todo|
  {
    SubsetCount(w.und, todo);
  }

  /** Search for a closed set of high feerate, with a limit on the number of splits. There are never as many splits as
      there are closed sets, so that a limit as large as that is not reached. */
  method FindBest(g: Graph, todo: set<nat>, maxIterations: nat, best0: SetInfo) returns (best: SetInfo, iterations: nat)
    requires Searchable(g, todo) && todo != {}
    requires best0 == EMPTY_INFO || BestOk(g, todo, best0)
    ensures BestOk(g, todo, best) && iterations <= maxIterations
    ensures best0 != EMPTY_INFO ==> AtLeastAsGood(best, best0)
    ensures iterations < maxIterations ==> BestClosed(g, todo, best.transactions)
    ensures iterations < |AllClosed(g, todo)|
  {
    hide Searchable, ItemOk, BestOk, ImpOk, Explored, Handled, Greater, Splits, Between;
    var capacity := if 2 * |todo| > 256 then 2 * |todo| else 256;
    var st := StartQueue(g, todo, best0, capacity);
    ghost var start := st.best;
    var left: nat := maxIterations;
    while st.queue != []
      invariant Searched(g, todo, capacity, st) && AtLeastAsGood(st.best, start) && left <= maxIterations
      invariant maxIterations - left + Splits(g, todo, st.queue) < |AllClosed(g, todo)|
      decreases left, |st.queue|
    {
      var swap: bool := *;
      if |st.queue| > 1 && swap {
        var swapped := st.(queue := st.queue[0 := st.queue[1]][1 := st.queue[0]]);
        SwapKeeps(g, todo, capacity, st, swapped);
        st := swapped;
      }
      ghost var leftBefore, sizeBefore := left, |st.queue|;
      var performed;
      while |st.queue| - 1 + |st.queue[0].und| > capacity
        invariant Searched(g, todo, capacity, st) && AtLeastAsGood(st.best, start) && st.queue != []
        invariant maxIterations - left + Splits(g, todo, st.queue) < |AllClosed(g, todo)|
        invariant left < leftBefore || (left == leftBefore && |st.queue| <= sizeBefore)
        decreases left, |st.queue|
      {
        if left == 0 {
          break;
        }
        ItemCount(g, todo, st.best, st.queue[0]);
        ghost var before := st;
        st, performed := Process(g, todo, capacity, st, |st.queue| - 1);
        AtLeastStep(g, todo, st, before, start);
        if performed {
          left := left - 1;
        }
      }
      if left == 0 {
        break;
      }
      ghost var before := st;
      st, performed := Process(g, todo, capacity, st, 0);
      AtLeastStep(g, todo, st, before, start);
      if performed {
        left := left - 1;
      }
    }
    best, iterations := st.best, maxIterations - left;
    SplitsPositive(g, todo, st.best, st.queue);
    if iterations < maxIterations {
      ExploredAll(g, todo, st);
    }
  }

  lemma AtLeastStep(g: Graph, todo: set<nat>, st': State, st: State, start: SetInfo)
    requires Searchable(g, todo) && StateOk(g, todo, st') && StateOk(g, todo, st) && BestOk(g, todo, start)
    requires AtLeastAsGood(st'.best, st.best) && AtLeastAsGood(st.best, start)
    ensures AtLeastAsGood(st'.best, start)
  {
    hide Searchable, BestOk, Greater, ItemOk;
    AtLeastTrans(g, todo, st'.best, st.best, start);
  }
}
