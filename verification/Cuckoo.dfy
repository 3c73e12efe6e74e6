/** A cache of fixed size, in which each element has eight slots and moves others when they are taken. */
module CuckooCaches {
  import opened Collections

  const WAYS := 8

  /** The value of a slot that was never filled. */
  const EMPTY: nat := 0

  /** The eight slots of an element, from its hashes. */
  function Locs(loc: (nat, nat) -> nat, e: nat): (r: seq<nat>)
    ensures |r| == WAYS && forall k :: 0 <= k < WAYS ==> r[k] == loc(k, e)
  {
    seq(WAYS, k requires 0 <= k => loc(k, e))
  }

  /** Every element is in a slot of its own, and just once. */
  ghost predicate Placed(loc: (nat, nat) -> nat, table: seq<nat>) {
    && (forall i :: 0 <= i < |table| && table[i] != EMPTY ==> i in Locs(loc, table[i]))
    && (forall i, j :: 0 <= i < j < |table| && table[i] != EMPTY ==> table[i] != table[j])
  }

  /** An element is carried, to be placed: it is nowhere in the table. */
  ghost predicate Carried(table: seq<nat>, e: nat) {
    e == EMPTY || e !in table
  }

  /** Put the carried element into one of its slots, and carry what was there. */
  lemma Swap(loc: (nat, nat) -> nat, table: seq<nat>, e: nat, l: nat)
    requires Placed(loc, table) && Carried(table, e) && l < |table| && l in Locs(loc, e)
    ensures Placed(loc, table[l := e]) && Carried(table[l := e], table[l])
    ensures multiset(table[l := e]) + multiset{table[l]} == multiset(table) + multiset{e}
  {
    SwapCarried(loc, table, e, l);
    hide Placed;
    assert multiset(table[l := e]) == multiset(table) - multiset{table[l]} + multiset{e};
  }

  lemma SwapCarried(loc: (nat, nat) -> nat, table: seq<nat>, e: nat, l: nat)
    requires Placed(loc, table) && Carried(table, e) && l < |table| && l in Locs(loc, e)
    ensures Placed(loc, table[l := e]) && Carried(table[l := e], table[l])
  {
    hide Locs;
    var next, x := table[l := e], table[l];
    assert forall i :: 0 <= i < |next| ==> next[i] == if i == l then e else table[i];
    assert x != EMPTY ==> forall i :: 0 <= i < |next| ==> next[i] != x;
  }

  class Cache {
    const loc: (nat, nat) -> nat
    const size: nat
    const depthLimit: nat
    const epochSize: nat
    var table: seq<nat>
    /** Slots that may be overwritten. */
    var erasable: seq<bool>
    /** Slots whose elements are of the current epoch. */
    var epoch: seq<bool>
    var epochCounter: nat

    ghost predicate Valid()
      reads this
    {
      && size == |table| == |erasable| == |epoch| && size >= 2 && depthLimit >= 1 && epochSize >= 1
      && (forall k, e :: loc(k, e) < size) && Placed(loc, table)
    }

    /** `depth` is the logarithm of the size as it comes out of floating-point arithmetic, which may round it up. */
    constructor (newSize: nat, depth: nat, loc: (nat, nat) -> nat)
      requires depth >= 1 && forall k, e :: loc(k, e) < Max(2, newSize)
      ensures Valid() && this.loc == loc && size == Max(2, newSize) && depthLimit == depth && epochSize == EpochSize(size)
      ensures epochCounter == epochSize && forall i :: 0 <= i < size ==> table[i] == EMPTY && erasable[i]
    {
      var n := Max(2, newSize);
      size := n;
      this.loc := loc;
      depthLimit := depth;
      epochSize := EpochSize(n);
      table, erasable, epoch := seq(n, i => EMPTY), seq(n, i => true), seq(n, i => false);
      epochCounter := EpochSize(n);
    }

    /** It is time to look at the epoch, and it is full. */
    ghost predicate Full()
      requires size == |erasable| == |epoch|
      reads this
    {
      epochCounter == 0 && |Live(epoch, erasable, size)| >= epochSize
    }

    /** The slots that may be overwritten once the epoch was looked at: a full one gives up those that are not of it. */
    ghost function Free(): (r: seq<bool>)
      requires size == |erasable| == |epoch|
      reads this
      ensures |r| == size
    {
      if Full() then GivenUp(erasable, epoch) else erasable
    }

    lemma FreeSlots()
      requires size == |erasable| == |epoch|
      ensures StartsFree(erasable, epoch, Free())
    {
    }

    /** The slots of the current epoch once it was looked at. */
    ghost function Epochs(): (r: seq<bool>)
      requires size == |erasable| == |epoch|
      reads this
      ensures |r| == size
    {
      if Full() then seq(size, i => false) else epoch
    }

    /** From time to time: when the current epoch is full, give up the epoch before it. */
    method EpochCheck()
      requires Valid()
      modifies this`erasable, this`epoch, this`epochCounter
      ensures Valid() && erasable == old(Free()) && epoch == old(Epochs())
      ensures old(epochCounter) != 0 ==> epochCounter == old(epochCounter) - 1
      ensures old(epochCounter) == 0 ==> 1 <= epochCounter <= epochSize
      ensures old(epochCounter) == 0 ==>
        epochCounter == if old(Full()) then epochSize else Max(1, Max(epochSize / 16, epochSize - |Live(epoch, erasable, size)|))
    {
      if epochCounter != 0 {
        epochCounter := epochCounter - 1;
        return;
      }
      var unused := 0;
      for i := 0 to size
        invariant epoch == old(epoch) && erasable == old(erasable) && unused == |Live(epoch, erasable, i)|
      {
        LiveNext(epoch, erasable, i);
        unused := unused + if epoch[i] && !erasable[i] then 1 else 0;
      }
      if unused >= epochSize {
        for i := 0 to size
          invariant |epoch| == |erasable| == size
          invariant forall k :: 0 <= k < i ==> !epoch[k] && erasable[k] == (old(erasable)[k] || !old(epoch)[k])
          invariant forall k :: i <= k < size ==> epoch[k] == old(epoch)[k] && erasable[k] == old(erasable)[k]
        {
          if epoch[i] {
            epoch := epoch[i := false];
          } else {
            erasable := erasable[i := true];
          }
        }
        epochCounter := epochSize;
        assert erasable == GivenUp(old(erasable), old(epoch));
      } else {
        epochCounter := Max(1, Max(epochSize / 16, epochSize - unused));
      }
    }

    /** The first of some slots that has an element, or the number of slots. */
    method FindIn(locs: seq<nat>, e: nat) returns (k: nat)
      requires Valid() && forall i :: 0 <= i < |locs| ==> locs[i] < size
      ensures k <= |locs| && (k < |locs| ==> table[locs[k]] == e)
      ensures k == |locs| ==> forall i :: 0 <= i < |locs| ==> table[locs[i]] != e
    {
      k := 0;
      while k < |locs|
        invariant k <= |locs| && forall i :: 0 <= i < k ==> table[locs[i]] != e
      {
        if table[locs[k]] == e {
          return;
        }
        k := k + 1;
      }
    }

    /** Looking in its slots finds an element just if it is in the table. */
    lemma InOwnSlots(e: nat)
      requires Valid() && e != EMPTY
      ensures e in table <==> exists k :: 0 <= k < WAYS && table[Locs(loc, e)[k]] == e
    {
      if e in table {
        var i :| 0 <= i < |table| && table[i] == e;
        assert i in Locs(loc, e);
      }
    }

    /** Whether an element is in the cache; if so its slot may be given up. */
    method Contains(e: nat, erase: bool) returns (r: bool)
      requires Valid()
      modifies this`erasable
      ensures Valid() && (e != EMPTY ==> (r <==> e in table)) && (r ==> e in table)
      ensures !erase || !r ==> erasable == old(erasable)
      ensures erase && r ==> exists k :: 0 <= k < WAYS && var l := Locs(loc, e)[k];
        l < size && table[l] == e && erasable == old(erasable)[l := true]
    {
      var locs := Locs(loc, e);
      var k := FindIn(locs, e);
      if e != EMPTY {
        InOwnSlots(e);
      }
      if k < |locs| {
        if erase {
          erasable := erasable[locs[k] := true];
        }
        return true;
      }
      return false;
    }

    /** Insert an element. It takes a slot that may be overwritten, or else moves others until one of them does. All
        of them and the new one stay, except for one at most: one that may be overwritten, unless there were as many
        moves as are allowed. */
    method Insert(e: nat) returns (ghost lost: nat, ghost slots: seq<nat>)
      requires Valid()
      modifies this`table, this`erasable, this`epoch, this`epochCounter
      ensures Valid() && multiset(table) + multiset{lost} == multiset(old(table)) + multiset{e}
      ensures if InOwn(loc, old(table), e) then lost == e && table == old(table) && MarkedAt(loc, e, table, old(Free()), erasable, old(Epochs()), epoch)
              else Walked(loc, old(Free()), depthLimit, Hand(old(table), old(Epochs()), e, true), slots, Hand(table, epoch, lost, true), erasable)
      ensures e != EMPTY ==> (InOwn(loc, old(table), e) <==> e in old(table))
      ensures |slots| <= depthLimit && |Changed(old(table), table)| <= depthLimit
      ensures e != EMPTY && |slots| < depthLimit ==> e in table
      ensures e !in old(table) && |slots| < depthLimit ==> Overwritable(old(table), old(erasable), old(epoch), lost)
      ensures e !in old(table) && (exists k :: 0 <= k < WAYS && old(erasable)[Locs(loc, e)[k]]) ==>
        e in table && exists k :: 0 <= k < WAYS && lost == old(table)[Locs(loc, e)[k]]
    {
      hide Placed, Changed, Overwritable, Untouched, AtLeast, NoneErasable, Carried, Walked, MarkedAt, Free, Epochs;
      FreeSlots();
      EpochCheck();
      StartUntouched(table, old(erasable), old(epoch), erasable);
      NothingChanged(table);
      if e != EMPTY {
        InOwnSlots(e);
      }
      var locs := Locs(loc, e);
      var k := FindIn(locs, e);
      if k < |locs| {
        Marked(loc, e, table, erasable, epoch, k);
        Keep(locs[k], true);
        return e, [];
      }
      StartCarried(e);
      lost, slots := Displace(e, old(erasable), old(epoch));
      NotNone(old(erasable), Locs(loc, e));
    }

    /** Place an element that is nowhere, moving others. */
    method Displace(e: nat, ghost wasErasable: seq<bool>, ghost wasEpoch: seq<bool>) returns (ghost lost: nat, ghost slots: seq<nat>)
      requires Valid() && Carried(table, e) && (e != EMPTY ==> e !in table) && |wasErasable| == |wasEpoch| == size
      requires Untouched(table, wasErasable, wasEpoch, table, erasable) && AtLeast(wasErasable, erasable)
      modifies this`table, this`erasable, this`epoch
      ensures Valid() && multiset(table) + multiset{lost} == multiset(old(table)) + multiset{e}
      ensures Walked(loc, old(erasable), depthLimit, Hand(old(table), old(epoch), e, true), slots, Hand(table, epoch, lost, true), erasable)
      ensures |slots| <= depthLimit && |Changed(old(table), table)| <= depthLimit
      ensures |slots| < depthLimit ==> Overwritable(old(table), wasErasable, wasEpoch, lost) && (e !in old(table) ==> e in table)
      ensures if |slots| > 0 then NoneErasable(wasErasable, Locs(loc, e))
              else exists k :: 0 <= k < WAYS && lost == old(table)[Locs(loc, e)[k]]
    {
      hide Placed, Changed, Overwritable, Untouched, AtLeast, NoneErasable, Carried, Walked, Walking, NextLoc;
      NothingChanged(table);
      var locs, k := Locs(loc, e), 0;
      var carried, lastLoc, lastEpoch := e, size, true;
      slots := [];
      ghost var start := Hand(table, epoch, e, true);
      NotWalked(loc, erasable, start);
      for depth := 0 to depthLimit
        invariant Valid() && Carried(table, carried) && locs == Locs(loc, carried)
        invariant multiset(table) + multiset{carried} == multiset(old(table)) + multiset{e}
        invariant |Changed(old(table), table)| <= depth && |slots| == depth && erasable == old(erasable)
        invariant lastLoc == LastSlot(slots, size) && Walking(loc, erasable, start, slots, Hand(table, epoch, carried, lastEpoch))
        invariant Untouched(old(table), wasErasable, wasEpoch, table, erasable)
        invariant if depth == 0 then carried == e && table == old(table) && AtLeast(wasErasable, erasable)
                  else NoneErasable(wasErasable, Locs(loc, e))
        invariant carried == e || e in table
      {
        k := FindErasable(locs);
        if k < |locs| {
          Swap(loc, table, carried, locs[k]);
          ChangeOne(old(table), table, locs[k], carried);
          lost := table[locs[k]];
          StaysIn(table, locs[k], carried, e);
          UntouchedAt(old(table), wasErasable, wasEpoch, table, erasable, locs[k]);
          Arrived(loc, erasable, depthLimit, start, slots, Hand(table, epoch, carried, lastEpoch), k);
          table := table[locs[k] := carried];
          Keep(locs[k], lastEpoch);
          return;
        }
        WalkOn(loc, erasable, start, slots, Hand(table, epoch, carried, lastEpoch));
        lastLoc := NextLoc(locs, lastLoc);
        slots := slots + [lastLoc];
        Swap(loc, table, carried, lastLoc);
        ChangeOne(old(table), table, lastLoc, carried);
        StaysIn(table, lastLoc, carried, e);
        UntouchedSwap(old(table), wasErasable, wasEpoch, table, erasable, lastLoc, carried);
        if depth == 0 {
          FewerErasable(wasErasable, erasable, locs);
        }
        var moved, movedEpoch := table[lastLoc], epoch[lastLoc];
        table := table[lastLoc := carried];
        epoch := epoch[lastLoc := lastEpoch];
        carried, lastEpoch := moved, movedEpoch;
        locs := Locs(loc, carried);
      }
      lost := carried;
      GaveUp(loc, erasable, depthLimit, start, slots, Hand(table, epoch, carried, lastEpoch));
    }

    /** An element that is in none of its slots is nowhere. */
    lemma StartCarried(e: nat)
      requires Valid() && forall i :: 0 <= i < WAYS ==> table[Locs(loc, e)[i]] != e
      ensures Carried(table, e) && (e != EMPTY ==> e !in table)
    {
      if e != EMPTY {
        InOwnSlots(e);
      }
    }

    /** Do not give up a slot. */
    method Keep(l: nat, e: bool)
      requires Valid() && l < size
      modifies this`erasable, this`epoch
      ensures Valid() && erasable == old(erasable)[l := false] && epoch == old(epoch)[l := e]
    {
      erasable := erasable[l := false];
      epoch := epoch[l := e];
    }

    /** The first of some slots that may be overwritten, or the number of slots. */
    method FindErasable(locs: seq<nat>) returns (k: nat)
      requires Valid() && forall i :: 0 <= i < |locs| ==> locs[i] < size
      ensures k <= |locs| && (k < |locs| ==> erasable[locs[k]])
      ensures forall i :: 0 <= i < k ==> !erasable[locs[i]]
    {
      k := 0;
      while k < |locs|
        invariant k <= |locs| && forall i :: 0 <= i < k ==> !erasable[locs[i]]
      {
        if erasable[locs[k]] {
          return;
        }
        k := k + 1;
      }
    }
  }

  // ----- the walk of the elements that move -----

  /** The table with the epoch flags, and an element that is carried with its flag. */
  datatype Hand = Hand(table: seq<nat>, epoch: seq<bool>, carried: nat, flag: bool)

  /** Put the carried element into a slot, and carry on with the one that was there. */
  ghost function Exchange(s: Hand, l: nat): Hand
    requires l < |s.table| == |s.epoch|
  {
    Hand(s.table[l := s.carried], s.epoch[l := s.flag], s.table[l], s.epoch[l])
  }

  /** The slot after the last one, among those of an element; the second one if that is not among them. */
  function NextLoc(locs: seq<nat>, last: nat): (r: nat)
    requires |locs| == WAYS
    ensures r in locs
  {
    locs[(1 + IndexOf(locs, last)) % WAYS]
  }

  ghost function LastSlot(slots: seq<nat>, none: nat): nat {
    if slots == [] then none else slots[|slots| - 1]
  }

  /** From one state to another, elements move through the given slots. None of them has a slot that may be
      overwritten, and each moves on to the slot after the one from which it drove out another. */
  ghost predicate Walking(loc: (nat, nat) -> nat, free: seq<bool>, start: Hand, slots: seq<nat>, s: Hand)
    requires forall k, e :: loc(k, e) < |free|
    decreases |slots|
  {
    && |start.table| == |start.epoch| == |s.table| == |s.epoch| == |free|
    && if slots == [] then s == start else
      var before, l := slots[..|slots| - 1], slots[|slots| - 1];
      exists was :: Walking(loc, free, start, before, was) && Stepped(loc, free, was, LastSlot(before, |free|), l, s)
  }

  ghost predicate Stepped(loc: (nat, nat) -> nat, free: seq<bool>, was: Hand, last: nat, l: nat, s: Hand)
    requires (forall k, e :: loc(k, e) < |free|) && |was.table| == |was.epoch| == |free|
  {
    NoneErasable(free, Locs(loc, was.carried)) && l == NextLoc(Locs(loc, was.carried), last) && s == Exchange(was, l)
  }

  /** After the walk, the last element takes the first of its slots that may be overwritten, or is lost if there
      were as many moves as are allowed. */
  ghost predicate Walked(loc: (nat, nat) -> nat, free: seq<bool>, depth: nat, start: Hand, slots: seq<nat>, end: Hand, erasable: seq<bool>)
    requires forall k, e :: loc(k, e) < |free|
  {
    exists s :: Walking(loc, free, start, slots, s) &&
      if |slots| >= depth then end == s.(flag := true) && erasable == free
      else exists k :: 0 <= k < WAYS && FirstFree(free, Locs(loc, s.carried), k) && var l := Locs(loc, s.carried)[k];
        end == Exchange(s, l).(flag := true) && erasable == free[l := false]
  }

  ghost predicate FirstFree(free: seq<bool>, locs: seq<nat>, k: nat)
    requires forall i :: 0 <= i < |locs| ==> locs[i] < |free|
  {
    k < |locs| && free[locs[k]] && forall i :: 0 <= i < k ==> !free[locs[i]]
  }

  lemma NotWalked(loc: (nat, nat) -> nat, free: seq<bool>, start: Hand)
    requires (forall k, e :: loc(k, e) < |free|) && |start.table| == |start.epoch| == |free|
    ensures Walking(loc, free, start, [], start)
  {
  }

  lemma WalkOn(loc: (nat, nat) -> nat, free: seq<bool>, start: Hand, slots: seq<nat>, s: Hand)
    requires (forall k, e :: loc(k, e) < |free|) && Walking(loc, free, start, slots, s)
    requires forall i :: 0 <= i < WAYS ==> !free[Locs(loc, s.carried)[i]]
    ensures |s.table| == |s.epoch| == |free|
    ensures var l := NextLoc(Locs(loc, s.carried), LastSlot(slots, |free|)); l < |free| && Walking(loc, free, start, slots + [l], Exchange(s, l))
  {
    hide NextLoc;
    var l := NextLoc(Locs(loc, s.carried), LastSlot(slots, |free|));
    var next := slots + [l];
    assert next[..|next| - 1] == slots && next[|next| - 1] == l;
    assert |s.table| == |s.epoch| == |free|;
    assert l < |free|;
    assert Stepped(loc, free, s, LastSlot(slots, |free|), l, Exchange(s, l));
  }

  lemma Arrived(loc: (nat, nat) -> nat, free: seq<bool>, depth: nat, start: Hand, slots: seq<nat>, s: Hand, k: nat)
    requires (forall k, e :: loc(k, e) < |free|) && Walking(loc, free, start, slots, s) && |slots| < depth
    requires k < WAYS && FirstFree(free, Locs(loc, s.carried), k)
    ensures |s.table| == |s.epoch| == |free|
    ensures var l := Locs(loc, s.carried)[k];
      Walked(loc, free, depth, start, slots, Exchange(s, l).(flag := true), free[l := false])
  {
    hide NextLoc;
  }

  lemma GaveUp(loc: (nat, nat) -> nat, free: seq<bool>, depth: nat, start: Hand, slots: seq<nat>, s: Hand)
    requires (forall k, e :: loc(k, e) < |free|) && Walking(loc, free, start, slots, s) && |slots| >= depth
    ensures Walked(loc, free, depth, start, slots, s.(flag := true), free)
  {
    hide NextLoc;
  }

  /** An element is in one of its slots. */
  ghost predicate InOwn(loc: (nat, nat) -> nat, table: seq<nat>, e: nat)
    requires forall k, e :: loc(k, e) < |table|
  {
    exists k :: 0 <= k < WAYS && table[Locs(loc, e)[k]] == e
  }

  /** The slot of an element is not given up, and is of the current epoch. */
  ghost predicate MarkedAt(loc: (nat, nat) -> nat, e: nat, table: seq<nat>, free: seq<bool>, erasable: seq<bool>, was: seq<bool>, epoch: seq<bool>) {
    exists k :: 0 <= k < WAYS && var l := Locs(loc, e)[k];
      l < |table| == |free| == |was| && table[l] == e && erasable == free[l := false] && epoch == was[l := true]
  }

  lemma Marked(loc: (nat, nat) -> nat, e: nat, table: seq<nat>, free: seq<bool>, was: seq<bool>, k: nat)
    requires |table| == |free| == |was| && k < WAYS && Locs(loc, e)[k] < |table| && table[Locs(loc, e)[k]] == e
    ensures var l := Locs(loc, e)[k]; MarkedAt(loc, e, table, free, free[l := false], was, was[l := true])
  {
  }

  /** Those that may be overwritten, and those that are not of the current epoch. */
  ghost function GivenUp(erasable: seq<bool>, epoch: seq<bool>): (r: seq<bool>)
    requires |erasable| == |epoch|
    ensures |r| == |erasable| && forall i :: 0 <= i < |r| ==> r[i] == (erasable[i] || !epoch[i])
  {
    seq(|erasable|, i requires 0 <= i < |erasable| => erasable[i] || !epoch[i])
  }

  /** What looking at the epoch may do to the slots that may be overwritten. */
  ghost predicate StartsFree(was: seq<bool>, epoch: seq<bool>, free: seq<bool>) {
    |was| == |epoch| == |free| && (free == was || forall i :: 0 <= i < |was| ==> free[i] == (was[i] || !epoch[i]))
  }

  /** The slots of the current epoch that are in use. */
  ghost function Live(epoch: seq<bool>, erasable: seq<bool>, n: nat): set<nat>
    requires n <= |epoch| && n <= |erasable|
  {
    set i: nat | i < n && epoch[i] && !erasable[i]
  }

  lemma LiveNext(epoch: seq<bool>, erasable: seq<bool>, n: nat)
    requires n < |epoch| && n < |erasable|
    ensures |Live(epoch, erasable, n + 1)| == |Live(epoch, erasable, n)| + if epoch[n] && !erasable[n] then 1 else 0
  {
    var some := if epoch[n] && !erasable[n] then {n} else {};
    assert Live(epoch, erasable, n + 1) == Live(epoch, erasable, n) + some;
  }

  /** The slots that have something else than before. */
  ghost function Changed(before: seq<nat>, after: seq<nat>): set<nat>
    requires |before| == |after|
  {
    set i: nat | i < |before| && before[i] != after[i]
  }

  lemma ChangeOne(before: seq<nat>, table: seq<nat>, l: nat, e: nat)
    requires |before| == |table| && l < |table|
    ensures |Changed(before, table[l := e])| <= |Changed(before, table)| + 1
  {
    assert Changed(before, table[l := e]) <= Changed(before, table) + {l};
    SubsetCount(Changed(before, table[l := e]), Changed(before, table) + {l});
  }

  /** Putting something into a slot and carrying what was there does not lose sight of an element. */
  lemma StaysIn(table: seq<nat>, l: nat, carried: nat, e: nat)
    requires l < |table| && (carried == e || e in table)
    ensures table[l] == e || e in table[l := carried]
  {
    if carried == e {
      assert table[l := carried][l] == e;
    } else {
      var i :| 0 <= i < |table| && table[i] == e;
      assert i != l ==> table[l := carried][i] == e;
    }
  }

  lemma NothingChanged(table: seq<nat>)
    ensures |Changed(table, table)| == 0
  {
    assert Changed(table, table) == {};
  }

  /** Slots that may be overwritten have what they had, and were given up or are of an epoch that is over. */
  ghost predicate Untouched(before: seq<nat>, wasErasable: seq<bool>, wasEpoch: seq<bool>, table: seq<nat>, erasable: seq<bool>)
    requires |before| == |wasErasable| == |wasEpoch| == |table| == |erasable|
  {
    forall i :: 0 <= i < |table| && erasable[i] ==> table[i] == before[i] && (wasErasable[i] || !wasEpoch[i])
  }

  ghost predicate AtLeast(before: seq<bool>, after: seq<bool>)
    requires |before| == |after|
  {
    forall i :: 0 <= i < |before| && before[i] ==> after[i]
  }

  ghost predicate NoneErasable(erasable: seq<bool>, locs: seq<nat>)
    requires forall k :: 0 <= k < |locs| ==> locs[k] < |erasable|
  {
    forall k :: 0 <= k < |locs| ==> !erasable[locs[k]]
  }

  lemma StartUntouched(table: seq<nat>, wasErasable: seq<bool>, wasEpoch: seq<bool>, erasable: seq<bool>)
    requires |wasErasable| == |wasEpoch| == |table| == |erasable| && StartsFree(wasErasable, wasEpoch, erasable)
    ensures Untouched(table, wasErasable, wasEpoch, table, erasable) && AtLeast(wasErasable, erasable)
  {
  }

  lemma UntouchedSwap(before: seq<nat>, wasErasable: seq<bool>, wasEpoch: seq<bool>, table: seq<nat>, erasable: seq<bool>, l: nat, e: nat)
    requires |before| == |wasErasable| == |wasEpoch| == |table| == |erasable| && l < |table| && !erasable[l]
    requires Untouched(before, wasErasable, wasEpoch, table, erasable)
    ensures Untouched(before, wasErasable, wasEpoch, table[l := e], erasable)
  {
  }

  lemma UntouchedAt(before: seq<nat>, wasErasable: seq<bool>, wasEpoch: seq<bool>, table: seq<nat>, erasable: seq<bool>, l: nat)
    requires |before| == |wasErasable| == |wasEpoch| == |table| == |erasable| && l < |table| && erasable[l]
    requires Untouched(before, wasErasable, wasEpoch, table, erasable)
    ensures table[l] == before[l] && Overwritable(before, wasErasable, wasEpoch, table[l])
  {
  }

  lemma FewerErasable(before: seq<bool>, after: seq<bool>, locs: seq<nat>)
    requires |before| == |after| && AtLeast(before, after) && forall k :: 0 <= k < |locs| ==> locs[k] < |after| && !after[locs[k]]
    ensures NoneErasable(before, locs)
  {
  }

  lemma NotNone(erasable: seq<bool>, locs: seq<nat>)
    requires forall k :: 0 <= k < |locs| ==> locs[k] < |erasable|
    ensures NoneErasable(erasable, locs) <==> forall k :: 0 <= k < |locs| ==> !erasable[locs[k]]
  {
  }

  /** What may be overwritten: it was given up, or is given up with an epoch that is over. */
  ghost predicate Overwritable(table: seq<nat>, erasable: seq<bool>, epoch: seq<bool>, x: nat)
    requires |table| == |erasable| == |epoch|
  {
    exists i :: 0 <= i < |table| && table[i] == x && (erasable[i] || !epoch[i])
  }

  /** What inserting does to the set of elements: it gains the new one at most, and loses one at most. */
  lemma GainsAndLoses(before: seq<nat>, e: nat, after: seq<nat>, lost: nat)
    requires multiset(after) + multiset{lost} == multiset(before) + multiset{e}
    ensures forall x :: x in after ==> x in before || x == e
    ensures forall x :: (x in before || x == e) && x != lost ==> x in after
  {
    forall x ensures x in after ==> x in before || x == e
      ensures (x in before || x == e) && x != lost ==> x in after
    {
      assert (x in after <==> multiset(after)[x] > 0) && (x in before <==> multiset(before)[x] > 0);
      assert (multiset(after) + multiset{lost})[x] == (multiset(before) + multiset{e})[x];
    }
  }

  function IndexOf(locs: seq<nat>, l: nat): (k: nat)
    ensures k <= |locs| && (k < |locs| ==> locs[k] == l) && l !in locs[..k]
  {
    if locs == [] then 0 else if locs[0] == l then 0 else 1 + IndexOf(locs[1..], l)
  }

  /** 45 percent of the slots, where the product wraps at 32 bits. */
  function EpochSize(size: nat): nat { Max(1, 45 * size % 0x1_0000_0000 / 100) }
}
