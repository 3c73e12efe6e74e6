/** The consistency check that the address manager runs on itself. */
module AddrChecks {
  import opened Collections
  import opened AddrTables

  // ----- what the check establishes -----

  ghost predicate EntryChecked(e: Info, id: nat, addrs: map<Service, nat>, random: seq<nat>) {
    && (if e.inTried then e.lastSuccess != 0 && e.refCount == 0 else 0 < e.refCount <= NEW_PER_ADDRESS)
    && e.addr in addrs && addrs[e.addr] == id
    && 0 <= e.randomPos < |random| && random[e.randomPos] == id
    && e.lastTry >= 0 && e.lastSuccess >= 0
  }

  ghost predicate EntriesChecked(infos: map<nat, Info>, addrs: map<Service, nat>, random: seq<nat>) {
    forall id :: id in infos ==> EntryChecked(infos[id], id, addrs, random)
  }

  /** The tried slots and the tried entries correspond to each other. */
  ghost predicate TriedChecked(h: Hashing, infos: map<nat, Info>, tried: map<Slot, nat>) {
    && (forall s :: s in tried ==> TriedAt(h, infos, tried, s))
    && (forall id :: id in infos && infos[id].inTried ==> HasSlot(tried, id))
  }

  ghost predicate HasSlot(tried: map<Slot, nat>, id: nat) {
    exists s :: s in tried && tried[s] == id
  }

  /** The new entries are in slots of their own, as often as they say. */
  ghost predicate NewChecked(h: Hashing, infos: map<nat, Info>, news: map<Slot, nat>) {
    && (forall s :: s in news ==> NewAt(h, infos, news, s))
    && (forall id :: id in infos && !infos[id].inTried ==> |SlotsOf(news, id)| == infos[id].refCount)
  }

  ghost function Nets(h: Hashing, infos: map<nat, Info>): set<nat> {
    set id | id in infos :: h.network(infos[id].addr)
  }

  /** The counts per network are right for the networks that have counts, which are enough of them. */
  ghost predicate NetsChecked(h: Hashing, infos: map<nat, Info>, counts: map<nat, Counts>) {
    |Nets(h, infos)| <= |counts| && forall net :: net in counts ==> NetOk(h, infos, counts, {}, net)
  }

  // ----- the entries -----

  /** What is gathered from the entries gone through so far. */
  ghost predicate Gathered(h: Hashing, seen: map<nat, Info>, setTried: set<nat>, mapNew: map<nat, int>, local: map<nat, Counts>) {
    && setTried == Bag(seen, {}, true)
    && mapNew.Keys == Bag(seen, {}, false) && (forall id :: id in mapNew ==> id in seen && mapNew[id] == seen[id].refCount)
    && local.Keys == Nets(h, seen) && forall net :: NetOk(h, seen, local, {}, net)
  }

  lemma GatherOne(h: Hashing, seen: map<nat, Info>, setTried: set<nat>, mapNew: map<nat, int>, local: map<nat, Counts>, id: nat, e: Info)
    requires Gathered(h, seen, setTried, mapNew, local) && id !in seen
    ensures Gathered(h, seen[id := e], if e.inTried then setTried + {id} else setTried,
                     if e.inTried then mapNew else mapNew[id := e.refCount], Bump(local, h.network(e.addr), e.inTried, 1))
  {
    hide Bag, InBag, NetOk, Nets, Bump;
    BagOne(seen, id, e, true);
    BagOne(seen, id, e, false);
    assert forall x :: x in mapNew ==> x in seen && x != id;
    LocalOne(h, seen, local, id, e, seen[id := e], Bump(local, h.network(e.addr), e.inTried, 1));
    NetsOne(h, seen, id, e);
    BumpKeys(local, h.network(e.addr), e.inTried);
  }

  lemma BumpKeys(local: map<nat, Counts>, net: nat, isTried: bool)
    ensures Bump(local, net, isTried, 1).Keys == local.Keys + {net}
  {
  }

  lemma BagOne(seen: map<nat, Info>, id: nat, e: Info, isTried: bool)
    requires id !in seen
    ensures Bag(seen[id := e], {}, isTried) == Bag(seen, {}, isTried) + if e.inTried == isTried then {id} else {}
  {
    var seen' := seen[id := e];
    assert forall x :: x in seen' <==> x in seen || x == id;
    assert forall x :: x != id ==> (InBag(seen, {}, isTried, x) <==> InBag(seen', {}, isTried, x));
  }

  lemma LocalOne(h: Hashing, seen: map<nat, Info>, local: map<nat, Counts>, id: nat, e: Info, seen': map<nat, Info>, local': map<nat, Counts>)
    requires id !in seen && forall net :: NetOk(h, seen, local, {}, net)
    requires seen' == seen[id := e] && local' == Bump(local, h.network(e.addr), e.inTried, 1)
    ensures forall net :: NetOk(h, seen', local', {}, net)
  {
    hide NetBag;
    OthersUpdate(seen, id, e);
    forall net ensures NetOk(h, seen', local', {}, net) {
      assert NetOk(h, seen, local, {}, net);
      NetBagChange(h, seen, seen', {}, {}, id, e, 1, true, net);
      NetBagChange(h, seen, seen', {}, {}, id, e, 1, false, net);
    }
  }

  lemma NetsOne(h: Hashing, seen: map<nat, Info>, id: nat, e: Info)
    requires id !in seen
    ensures Nets(h, seen[id := e]) == Nets(h, seen) + {h.network(e.addr)}
  {
    var seen' := seen[id := e];
    assert id in seen' && forall x :: x in seen ==> x in seen' && seen'[x] == seen[x];
    assert Nets(h, seen) <= Nets(h, seen');
    assert h.network(seen'[id].addr) in Nets(h, seen');
  }

  lemma GatherNone(h: Hashing)
    ensures Gathered(h, map[], {}, map[], map[])
  {
    assert forall t :: Bag(map[], {}, t) == {};
    assert forall t, net :: NetBag(h, map[], {}, t, net) == {};
  }

  /** Go through the entries, in any order. */
  method CheckEntries(h: Hashing, infos: map<nat, Info>, addrs: map<Service, nat>, random: seq<nat>)
    returns (code: int, setTried: set<nat>, mapNew: map<nat, int>, local: map<nat, Counts>)
    ensures code == 0 <==> EntriesChecked(infos, addrs, random)
    ensures code == 0 ==> Gathered(h, infos, setTried, mapNew, local)
  {
    hide Gathered, Bump;
    setTried, mapNew, local := {}, map[], map[];
    GatherNone(h);
    ghost var seen: map<nat, Info> := map[];
    var left := infos.Keys;
    while left != {}
      invariant left <= infos.Keys && seen.Keys == infos.Keys - left && (forall x :: x in seen ==> seen[x] == infos[x])
      invariant Gathered(h, seen, setTried, mapNew, local)
      invariant forall x :: x in seen ==> EntryChecked(infos[x], x, addrs, random)
      decreases |left|
    {
      var id :| id in left;
      var e := infos[id];
      code := CheckEntry(e, id, addrs, random);
      if code != 0 {
        return;
      }
      GatherOne(h, seen, setTried, mapNew, local, id, e);
      if e.inTried {
        setTried := setTried + {id};
      } else {
        mapNew := mapNew[id := e.refCount];
      }
      local := Bump(local, h.network(e.addr), e.inTried, 1);
      left := left - {id};
      seen := seen[id := e];
    }
    assert seen == infos;
    code := 0;
  }

  method CheckEntry(e: Info, id: nat, addrs: map<Service, nat>, random: seq<nat>) returns (code: int)
    ensures code == 0 <==> EntryChecked(e, id, addrs, random)
  {
    if e.inTried {
      if e.lastSuccess == 0 { return -1; }
      if e.refCount != 0 { return -2; }
    } else {
      if e.refCount < 0 || e.refCount > NEW_PER_ADDRESS { return -3; }
      if e.refCount == 0 { return -4; }
    }
    if e.addr !in addrs || addrs[e.addr] != id { return -5; }
    if e.randomPos < 0 || e.randomPos >= |random| || random[e.randomPos] != id { return -14; }
    if e.lastTry < 0 { return -6; }
    if e.lastSuccess < 0 { return -8; }
    return 0;
  }

  // ----- the tables -----

  /** A slot comes before slot `i` of bucket `n`. */
  ghost predicate Before(s: Slot, n: int, i: int) {
    s.bucket < n || (s.bucket == n && s.pos < i)
  }

  /** The part of a table that has been gone through. */
  ghost predicate Part(done: map<Slot, nat>, table: map<Slot, nat>, n: int, i: int) {
    && (forall s :: s in done <==> s in table && Before(s, n, i))
    && (forall s :: s in done ==> done[s] == table[s])
  }

  ghost predicate Fits(table: map<Slot, nat>, buckets: nat) {
    forall s :: s in table ==> 0 <= s.bucket < buckets && 0 <= s.pos < BUCKET_SIZE
  }

  lemma PartNext(done: map<Slot, nat>, table: map<Slot, nat>, n: nat, i: nat)
    requires Part(done, table, n, i) && i < BUCKET_SIZE
    ensures var s := Slot(n, i); s !in done && Part(if s in table then done[s := table[s]] else done, table, n, i + 1)
  {
  }

  lemma PartRow(done: map<Slot, nat>, table: map<Slot, nat>, buckets: nat, n: nat)
    requires Part(done, table, n, BUCKET_SIZE) && Fits(table, buckets)
    ensures Part(done, table, n + 1, 0)
  {
  }

  lemma PartAll(done: map<Slot, nat>, table: map<Slot, nat>, buckets: nat)
    requires Part(done, table, buckets, 0) && Fits(table, buckets)
    ensures done == table
  {
  }

  /** So far, every slot has a tried entry of its own, and `setTried` are the tried entries that are still to come. */
  ghost predicate TriedSoFar(h: Hashing, infos: map<nat, Info>, done: map<Slot, nat>, setTried: set<nat>) {
    && (forall s :: s in done ==> TriedAt(h, infos, done, s))
    && forall id :: id in setTried <==> InBag(infos, {}, true, id) && !HasSlot(done, id)
  }

  method CheckTried(h: Hashing, infos: map<nat, Info>, tried: map<Slot, nat>, setTried0: set<nat>) returns (code: int, setTried: set<nat>)
    requires Fits(tried, TRIED_BUCKETS) && setTried0 == Bag(infos, {}, true)
    ensures code == 0 && setTried == {} <==> TriedChecked(h, infos, tried)
  {
    hide Part, TriedSoFar, Fits, Bag, TriedChecked;
    setTried := setTried0;
    ghost var done: map<Slot, nat> := map[];
    StartTried(h, infos, tried);
    for n := 0 to TRIED_BUCKETS
      invariant Part(done, tried, n, 0) && TriedSoFar(h, infos, done, setTried)
    {
      for i := 0 to BUCKET_SIZE
        invariant Part(done, tried, n, i) && TriedSoFar(h, infos, done, setTried)
      {
        PartNext(done, tried, n, i);
        var s := Slot(n, i);
        if s in tried {
          NextTried(h, infos, tried, done, setTried, n, i);
          var id := tried[s];
          if id !in setTried {
            return -11, setTried;
          }
          if id !in infos || h.triedBucket(infos[id].addr) != n {
            return -17, setTried;
          }
          if h.position(false, n, infos[id].addr) != i {
            return -18, setTried;
          }
          setTried := setTried - {id};
          done := done[s := id];
        }
      }
      PartRow(done, tried, TRIED_BUCKETS, n);
    }
    PartAll(done, tried, TRIED_BUCKETS);
    EndTried(h, infos, tried, setTried);
    code := 0;
  }

  lemma StartTried(h: Hashing, infos: map<nat, Info>, tried: map<Slot, nat>)
    requires Fits(tried, TRIED_BUCKETS)
    ensures Part(map[], tried, 0, 0) && TriedSoFar(h, infos, map[], Bag(infos, {}, true))
  {
  }

  lemma NextTried(h: Hashing, infos: map<nat, Info>, tried: map<Slot, nat>, done: map<Slot, nat>, setTried: set<nat>, n: nat, i: nat)
    requires TriedSoFar(h, infos, done, setTried) && Part(done, tried, n, i) && Slot(n, i) in tried
    ensures var s := Slot(n, i); var id := tried[s];
      if id in setTried && id in infos && s == h.TriedSlot(infos[id].addr)
      then TriedSoFar(h, infos, done[s := id], setTried - {id}) else !TriedChecked(h, infos, tried)
  {
    var s := Slot(n, i);
    var id := tried[s];
    if id in setTried && id in infos && s == h.TriedSlot(infos[id].addr) {
      NextTriedOk(h, infos, done, setTried, s, id);
    }
  }

  lemma NextTriedOk(h: Hashing, infos: map<nat, Info>, done: map<Slot, nat>, setTried: set<nat>, s: Slot, id: nat)
    requires TriedSoFar(h, infos, done, setTried) && s !in done && id in setTried && id in infos && s == h.TriedSlot(infos[id].addr)
    ensures TriedSoFar(h, infos, done[s := id], setTried - {id})
  {
    var next := done[s := id];
    forall p | p in next ensures TriedAt(h, infos, next, p) {
      assert p != s ==> TriedAt(h, infos, done, p);
    }
    assert s in next && next[s] == id;
    forall x ensures x in setTried - {id} <==> InBag(infos, {}, true, x) && !HasSlot(next, x) {
      if HasSlot(done, x) {
        var p :| p in done && done[p] == x;
        assert p in next && next[p] == x;
      }
    }
  }

  lemma EndTried(h: Hashing, infos: map<nat, Info>, tried: map<Slot, nat>, setTried: set<nat>)
    requires TriedSoFar(h, infos, tried, setTried)
    ensures setTried == {} <==> TriedChecked(h, infos, tried)
  {
    if TriedChecked(h, infos, tried) {
      assert forall id :: id !in setTried;
      assert setTried == {};
    } else {
      var id :| id in infos && infos[id].inTried && !HasSlot(tried, id);
      assert InBag(infos, {}, true, id);
    }
  }

  /** So far, every slot has a new entry of its own, and `mapNew` says how many more slots are due to each. */
  ghost predicate NewSoFar(h: Hashing, infos: map<nat, Info>, done: map<Slot, nat>, mapNew: map<nat, int>) {
    && (forall s :: s in done ==> NewAt(h, infos, done, s))
    && (forall id :: DueAt(infos, done, mapNew, id))
  }

  ghost predicate DueAt(infos: map<nat, Info>, done: map<Slot, nat>, mapNew: map<nat, int>, id: nat) {
    var isNew := id in infos && !infos[id].inTried;
    && (isNew ==> |SlotsOf(done, id)| <= infos[id].refCount)
    && (id in mapNew <==> isNew && |SlotsOf(done, id)| < infos[id].refCount)
    && (id in mapNew ==> mapNew[id] == infos[id].refCount - |SlotsOf(done, id)|)
  }

  method CheckNew(h: Hashing, infos: map<nat, Info>, news: map<Slot, nat>, mapNew0: map<nat, int>) returns (code: int, mapNew: map<nat, int>)
    requires Fits(news, NEW_BUCKETS) && mapNew0.Keys == Bag(infos, {}, false)
    requires forall id :: id in mapNew0 ==> id in infos && mapNew0[id] == infos[id].refCount > 0
    ensures code == 0 && mapNew == map[] <==> NewChecked(h, infos, news)
  {
    hide Part, NewSoFar, Fits, NewChecked;
    mapNew := mapNew0;
    ghost var done: map<Slot, nat> := map[];
    StartNew(h, infos, news, mapNew);
    for n := 0 to NEW_BUCKETS
      invariant Part(done, news, n, 0) && NewSoFar(h, infos, done, mapNew)
    {
      for i := 0 to BUCKET_SIZE
        invariant Part(done, news, n, i) && NewSoFar(h, infos, done, mapNew)
      {
        PartNext(done, news, n, i);
        var s := Slot(n, i);
        if s in news {
          NextNew(h, infos, news, done, mapNew, n, i);
          var id := news[s];
          if id !in mapNew {
            return -12, mapNew;
          }
          if id !in infos || h.position(true, n, infos[id].addr) != i {
            return -19, mapNew;
          }
          mapNew := if mapNew[id] - 1 == 0 then mapNew - {id} else mapNew[id := mapNew[id] - 1];
          done := done[s := id];
        }
      }
      PartRow(done, news, NEW_BUCKETS, n);
    }
    PartAll(done, news, NEW_BUCKETS);
    EndNew(h, infos, news, mapNew);
    code := 0;
  }

  lemma StartNew(h: Hashing, infos: map<nat, Info>, news: map<Slot, nat>, mapNew: map<nat, int>)
    requires Fits(news, NEW_BUCKETS) && mapNew.Keys == Bag(infos, {}, false)
    requires forall id :: id in mapNew ==> id in infos && mapNew[id] == infos[id].refCount > 0
    ensures Part(map[], news, 0, 0) && NewSoFar(h, infos, map[], mapNew)
  {
    forall id ensures DueAt(infos, map[], mapNew, id) {
      assert SlotsOf(map[], id) == {};
      assert id in mapNew <==> id in Bag(infos, {}, false);
    }
  }

  lemma NextNew(h: Hashing, infos: map<nat, Info>, news: map<Slot, nat>, done: map<Slot, nat>, mapNew: map<nat, int>, n: nat, i: nat)
    requires NewSoFar(h, infos, done, mapNew) && Part(done, news, n, i) && Slot(n, i) in news && n < NEW_BUCKETS
    ensures var s := Slot(n, i); var id := news[s];
      if id in mapNew && id in infos && h.position(true, n, infos[id].addr) == i
      then NewSoFar(h, infos, done[s := id], if mapNew[id] - 1 == 0 then mapNew - {id} else mapNew[id := mapNew[id] - 1])
      else !NewChecked(h, infos, news)
  {
    var s := Slot(n, i);
    var id := news[s];
    if id in mapNew && id in infos && h.position(true, n, infos[id].addr) == i {
      NextNewOk(h, infos, done, mapNew, s, id);
    } else {
      assert DueAt(infos, done, mapNew, id);
      MoreSlots(news, done, s);
    }
  }

  lemma MoreSlots(news: map<Slot, nat>, done: map<Slot, nat>, s: Slot)
    requires s in news && s !in done && forall p :: p in done ==> p in news && done[p] == news[p]
    ensures |SlotsOf(done, news[s])| < |SlotsOf(news, news[s])|
  {
    var a, b := SlotsOf(done, news[s]), SlotsOf(news, news[s]);
    assert a + {s} <= b;
    SubsetCount(a + {s}, b);
  }

  lemma NextNewOk(h: Hashing, infos: map<nat, Info>, done: map<Slot, nat>, mapNew: map<nat, int>, s: Slot, id: nat)
    requires NewSoFar(h, infos, done, mapNew) && s !in done && 0 <= s.bucket < NEW_BUCKETS
    requires id in mapNew && id in infos && s.pos == h.position(true, s.bucket, infos[id].addr)
    ensures NewSoFar(h, infos, done[s := id], if mapNew[id] - 1 == 0 then mapNew - {id} else mapNew[id := mapNew[id] - 1])
  {
    var next, left := done[s := id], if mapNew[id] - 1 == 0 then mapNew - {id} else mapNew[id := mapNew[id] - 1];
    assert DueAt(infos, done, mapNew, id);
    forall p | p in next ensures NewAt(h, infos, next, p) {
      assert p != s ==> NewAt(h, infos, done, p);
    }
    SlotsAdd(done, s, id);
    hide SlotsOf;
    forall x ensures DueAt(infos, next, left, x) {
      assert DueAt(infos, done, mapNew, x);
    }
  }

  lemma EndNew(h: Hashing, infos: map<nat, Info>, news: map<Slot, nat>, mapNew: map<nat, int>)
    requires NewSoFar(h, infos, news, mapNew)
    ensures mapNew == map[] <==> NewChecked(h, infos, news)
  {
    hide SlotsOf;
    forall id ensures id in mapNew <==> id in infos && !infos[id].inTried && |SlotsOf(news, id)| != infos[id].refCount {
      assert DueAt(infos, news, mapNew, id);
    }
    if NewChecked(h, infos, news) {
      assert mapNew.Keys == {};
    }
  }

  /** Compare the counts per network. */
  method CheckNets(h: Hashing, infos: map<nat, Info>, counts: map<nat, Counts>, local: map<nat, Counts>) returns (code: int)
    requires local.Keys == Nets(h, infos) && forall net :: NetOk(h, infos, local, {}, net)
    ensures code == 0 <==> NetsChecked(h, infos, counts)
  {
    hide Nets, NetBag;
    assert |local| == |local.Keys| && |counts| == |counts.Keys|;
    if |counts| < |local| {
      return -20;
    }
    var left := counts.Keys;
    while left != {}
      invariant left <= counts.Keys
      invariant forall net :: net in counts && net !in left ==> NetOk(h, infos, counts, {}, net)
      decreases |left|
    {
      var net :| net in left;
      assert NetOk(h, infos, local, {}, net);
      if CountOf(local, net) != counts[net] {
        return -21;
      }
      left := left - {net};
    }
    return 0;
  }

  // ----- the whole check -----

  /** What the check establishes about the whole state. */
  ghost predicate Checked(h: Hashing, infos: map<nat, Info>, addrs: map<Service, nat>, random: seq<nat>, tried: map<Slot, nat>, triedCount: int,
                          news: map<Slot, nat>, newCount: int, counts: map<nat, Counts>)
  {
    && |random| == triedCount + newCount && EntriesChecked(infos, addrs, random)
    && |Bag(infos, {}, true)| == triedCount && |Bag(infos, {}, false)| == newCount
    && TriedChecked(h, infos, tried) && NewChecked(h, infos, news)
    && h.key != 0 && NetsChecked(h, infos, counts)
  }

  method CheckAll(h: Hashing, infos: map<nat, Info>, addrs: map<Service, nat>, random: seq<nat>, tried: map<Slot, nat>, triedCount: int,
                  news: map<Slot, nat>, newCount: int, counts: map<nat, Counts>) returns (code: int)
    requires Fits(tried, TRIED_BUCKETS) && Fits(news, NEW_BUCKETS)
    ensures code == 0 <==> Checked(h, infos, addrs, random, tried, triedCount, news, newCount, counts)
  {
    hide Fits, TriedChecked, NewChecked, NetsChecked, EntryChecked, NetOk, Nets, Bag;
    if |random| != triedCount + newCount {
      return -7;
    }
    var entries, setTried, mapNew, local := CheckEntries(h, infos, addrs, random);
    if entries != 0 {
      return entries;
    }
    if |setTried| != triedCount {
      return -9;
    }
    if |mapNew| != newCount {
      assert |mapNew| == |mapNew.Keys|;
      return -10;
    }
    assert |mapNew| == |mapNew.Keys|;
    var ofTried, triedLeft := CheckTried(h, infos, tried, setTried);
    if ofTried != 0 {
      return ofTried;
    }
    NewCounts(infos, addrs, random, mapNew);
    var ofNew, newLeft := CheckNew(h, infos, news, mapNew);
    if ofNew != 0 {
      return ofNew;
    }
    if triedLeft != {} {
      return -13;
    }
    if newLeft != map[] {
      return -15;
    }
    if h.key == 0 {
      return -16;
    }
    code := CheckNets(h, infos, counts, local);
  }

  lemma NewCounts(infos: map<nat, Info>, addrs: map<Service, nat>, random: seq<nat>, mapNew: map<nat, int>)
    requires EntriesChecked(infos, addrs, random) && mapNew.Keys == Bag(infos, {}, false)
    requires forall id :: id in mapNew ==> id in infos && mapNew[id] == infos[id].refCount
    ensures forall id :: id in mapNew ==> mapNew[id] > 0
  {
    forall id | id in mapNew ensures mapNew[id] > 0 {
      assert id in Bag(infos, {}, false) && EntryChecked(infos[id], id, addrs, random);
    }
  }

  /** A consistent state passes. */
  lemma ConsistentIsChecked(h: Hashing, infos: map<nat, Info>, addrs: map<Service, nat>, random: seq<nat>, nextId: nat,
                            tried: map<Slot, nat>, triedCount: int, news: map<Slot, nat>, newCount: int, counts: map<nat, Counts>)
    requires h.InRange() && h.key != 0 && IndexOk(infos, addrs, random, nextId) && TablesOk(h, infos, tried, news, {})
    requires CountersOk(h, infos, newCount, triedCount, counts, {})
    ensures Checked(h, infos, addrs, random, tried, triedCount, news, newCount, counts)
    ensures Fits(tried, TRIED_BUCKETS) && Fits(news, NEW_BUCKETS)
  {
    assert EntriesChecked(infos, addrs, random) by {
      forall id | id in infos ensures EntryChecked(infos[id], id, addrs, random) {
        assert IndexAt(infos, addrs, random, nextId, id) && TableAt(h, infos[id], id, tried, news, {});
      }
    }
    RandomCount(infos, addrs, random, nextId);
    BagsSplit(infos);
    ConsistentTables(h, infos, tried, news);
    ConsistentNets(h, infos, newCount, triedCount, counts);
  }

  lemma BagsSplit(infos: map<nat, Info>)
    ensures |infos| == |Bag(infos, {}, true)| + |Bag(infos, {}, false)|
  {
    assert infos.Keys == Bag(infos, {}, true) + Bag(infos, {}, false);
    assert Bag(infos, {}, true) !! Bag(infos, {}, false);
  }

  lemma ConsistentTables(h: Hashing, infos: map<nat, Info>, tried: map<Slot, nat>, news: map<Slot, nat>)
    requires h.InRange() && TablesOk(h, infos, tried, news, {})
    ensures TriedChecked(h, infos, tried) && NewChecked(h, infos, news) && Fits(tried, TRIED_BUCKETS) && Fits(news, NEW_BUCKETS)
  {
    assert forall s :: s in tried ==> TriedAt(h, infos, tried, s);
    assert forall s :: s in news ==> NewAt(h, infos, news, s);
    forall id | id in infos
      ensures infos[id].inTried ==> HasSlot(tried, id)
      ensures !infos[id].inTried ==> |SlotsOf(news, id)| == infos[id].refCount
    {
      assert TableAt(h, infos[id], id, tried, news, {});
    }
  }

  // ----- how much the check finds out -----

  /** For the networks that have counts, passing says just that all counts are right. */
  lemma NetsExact(h: Hashing, infos: map<nat, Info>, counts: map<nat, Counts>)
    ensures (forall net :: NetOk(h, infos, counts, {}, net)) <==> NetsChecked(h, infos, counts) && Nets(h, infos) <= counts.Keys
  {
    if forall net :: NetOk(h, infos, counts, {}, net) {
      forall net | net in Nets(h, infos) ensures net in counts {
        var id :| id in infos && h.network(infos[id].addr) == net;
        assert id in NetBag(h, infos, {}, infos[id].inTried, net);
        assert NetOk(h, infos, counts, {}, net);
      }
      SubsetCount(Nets(h, infos), counts.Keys);
    }
    if Nets(h, infos) <= counts.Keys {
      forall net | net !in counts ensures NetOk(h, infos, counts, {}, net) {
        assert forall id :: id in infos ==> h.network(infos[id].addr) in Nets(h, infos);
        assert NetBag(h, infos, {}, false, net) == {} && NetBag(h, infos, {}, true, net) == {};
      }
    }
  }

  ghost function Image<T(!new)>(m: map<nat, T>): set<T> {
    set id | id in m :: m[id]
  }

  lemma ImageWithout<T(!new)>(m: map<nat, T>, x: nat)
    requires x in m
    ensures Image(m) == Image(m - {x}) + {m[x]} && (m - {x}).Keys == m.Keys - {x}
  {
    forall t | t in Image(m) ensures t in Image(m - {x}) + {m[x]} {
      var id :| id in m && m[id] == t;
      assert id != x ==> id in m - {x} && (m - {x})[id] == t;
    }
    forall t | t in Image(m - {x}) ensures t in Image(m) {
      var id :| id in m - {x} && (m - {x})[id] == t;
      assert id in m && m[id] == t;
    }
  }

  /** Images under something that can be undone are as many. */
  lemma {:induction false} ImageCount<T(!new)>(m: map<nat, T>, back: map<T, nat>)
    requires forall id :: id in m ==> m[id] in back && back[m[id]] == id
    ensures |Image(m)| == |m.Keys|
    decreases m.Keys
  {
    if m.Keys != {} {
      var x :| x in m.Keys;
      ImageWithout(m, x);
      ImageCount(m - {x}, back);
      hide Image;
      assert m[x] !in Image(m - {x}) by { NotAgain(m, back, x); }
    } else {
      assert Image(m) == {};
    }
  }

  lemma NotAgain<T(!new)>(m: map<nat, T>, back: map<T, nat>, x: nat)
    requires x in m && forall id :: id in m ==> m[id] in back && back[m[id]] == id
    ensures m[x] !in Image(m - {x})
  {
  }

  /** An entry for every address, if there are as many. */
  lemma AddressesKnown(infos: map<nat, Info>, addrs: map<Service, nat>)
    requires forall id :: id in infos ==> infos[id].addr in addrs && addrs[infos[id].addr] == id
    ensures (forall a :: a in addrs ==> addrs[a] in infos && infos[addrs[a]].addr == a) <==> |addrs| == |infos|
  {
    var m := map id | id in infos :: infos[id].addr;
    var known := Image(m);
    ImageCount(m, addrs);
    assert m.Keys == infos.Keys && |m| == |m.Keys| && |infos| == |infos.Keys| && |addrs| == |addrs.Keys|;
    assert known <= addrs.Keys;
    SubsetCount(known, addrs.Keys);
    if |addrs| == |infos| {
      forall a | a in addrs ensures addrs[a] in infos && infos[addrs[a]].addr == a {
        assert a in known;
        var id :| id in m && m[id] == a;
      }
    }
    if forall a :: a in addrs ==> addrs[a] in infos && infos[addrs[a]].addr == a {
      forall a | a in addrs ensures a in known {
        assert addrs[a] in m && m[addrs[a]] == a;
      }
      assert known == addrs.Keys;
    }
  }

  /** With as many places in the random order as entries, each place has the entry that says so. */
  lemma PlacesTaken(infos: map<nat, Info>, random: seq<nat>)
    requires forall id :: id in infos ==> 0 <= infos[id].randomPos < |random| && random[infos[id].randomPos] == id
    requires |random| == |infos|
    ensures forall k :: 0 <= k < |random| ==> RandomAt(infos, random, k)
  {
    var m: map<nat, nat> := map id | id in infos :: infos[id].randomPos;
    var taken := Image(m);
    var back: map<nat, nat> := map k: nat | k < |random| :: random[k];
    ImageCount(m, back);
    assert m.Keys == infos.Keys && |m| == |m.Keys| && |infos| == |infos.Keys|;
    var all := Below(|random|);
    CountBelow(|random|);
    assert taken <= all;
    SubsetCount(taken, all);
    forall k | 0 <= k < |random| ensures RandomAt(infos, random, k) {
      assert k in all && k in taken;
      var id :| id in m && m[id] == k;
    }
  }

  ghost function Below(n: nat): set<nat> {
    if n == 0 then {} else Below(n - 1) + {n - 1}
  }

  lemma {:induction false} CountBelow(n: nat)
    ensures |Below(n)| == n && forall k: nat :: k in Below(n) <==> k < n
  {
    if n > 0 {
      CountBelow(n - 1);
    }
  }

  /** A state passes, and in addition has as many addresses as entries and counts for every network that has
      entries, just if it is consistent. */
  lemma CheckedExactly(h: Hashing, infos: map<nat, Info>, addrs: map<Service, nat>, random: seq<nat>, nextId: nat,
                       tried: map<Slot, nat>, triedCount: int, news: map<Slot, nat>, newCount: int, counts: map<nat, Counts>)
    requires h.InRange() && forall id :: id in infos ==> id < nextId
    ensures Checked(h, infos, addrs, random, tried, triedCount, news, newCount, counts)
            && |addrs| == |infos| && Nets(h, infos) <= counts.Keys
       <==> h.key != 0 && IndexOk(infos, addrs, random, nextId) && TablesOk(h, infos, tried, news, {})
            && CountersOk(h, infos, newCount, triedCount, counts, {})
  {
    hide Hashing.InRange, Nets, NetsChecked, CountersOk, IndexOk, TablesOk, Checked;
    if h.key != 0 && IndexOk(infos, addrs, random, nextId) && TablesOk(h, infos, tried, news, {})
       && CountersOk(h, infos, newCount, triedCount, counts, {}) {
      ConsistentIsChecked(h, infos, addrs, random, nextId, tried, triedCount, news, newCount, counts);
      IndexCount(infos, addrs, random, nextId);
      CountedNets(h, infos, newCount, triedCount, counts);
    }
    if Checked(h, infos, addrs, random, tried, triedCount, news, newCount, counts) && |addrs| == |infos| && Nets(h, infos) <= counts.Keys {
      CheckedIsConsistent(h, infos, addrs, random, nextId, tried, triedCount, news, newCount, counts);
    }
  }

  lemma IndexCount(infos: map<nat, Info>, addrs: map<Service, nat>, random: seq<nat>, nextId: nat)
    requires IndexOk(infos, addrs, random, nextId)
    ensures |addrs| == |infos|
  {
    assert forall id :: id in infos ==> IndexAt(infos, addrs, random, nextId, id);
    AddressesKnown(infos, addrs);
  }

  lemma CountedNets(h: Hashing, infos: map<nat, Info>, newCount: int, triedCount: int, counts: map<nat, Counts>)
    requires CountersOk(h, infos, newCount, triedCount, counts, {})
    ensures Nets(h, infos) <= counts.Keys
  {
    hide Nets, NetOk, NetsChecked, Bag;
    NetsExact(h, infos, counts);
  }

  lemma CheckedIsConsistent(h: Hashing, infos: map<nat, Info>, addrs: map<Service, nat>, random: seq<nat>, nextId: nat,
                            tried: map<Slot, nat>, triedCount: int, news: map<Slot, nat>, newCount: int, counts: map<nat, Counts>)
    requires forall id :: id in infos ==> id < nextId
    requires Checked(h, infos, addrs, random, tried, triedCount, news, newCount, counts) && |addrs| == |infos| && Nets(h, infos) <= counts.Keys
    ensures h.key != 0 && IndexOk(infos, addrs, random, nextId) && TablesOk(h, infos, tried, news, {})
    ensures CountersOk(h, infos, newCount, triedCount, counts, {})
  {
    hide Nets, NetOk, NetsChecked, TriedChecked, NewChecked, TablesOk, Bag, EntryChecked;
    NetsExact(h, infos, counts);
    BagsSplit(infos);
    CheckedTables(h, infos, addrs, random, tried, news);
    CheckedIndex(infos, addrs, random, nextId);
  }

  lemma CheckedIndex(infos: map<nat, Info>, addrs: map<Service, nat>, random: seq<nat>, nextId: nat)
    requires EntriesChecked(infos, addrs, random) && |addrs| == |infos| == |random| && forall id :: id in infos ==> id < nextId
    ensures IndexOk(infos, addrs, random, nextId)
  {
    assert forall id :: id in infos ==> EntryChecked(infos[id], id, addrs, random);
    AddressesKnown(infos, addrs);
    PlacesTaken(infos, random);
  }

  lemma CheckedTables(h: Hashing, infos: map<nat, Info>, addrs: map<Service, nat>, random: seq<nat>, tried: map<Slot, nat>, news: map<Slot, nat>)
    requires EntriesChecked(infos, addrs, random) && TriedChecked(h, infos, tried) && NewChecked(h, infos, news)
    ensures TablesOk(h, infos, tried, news, {})
  {
    forall id | id in infos ensures TableAt(h, infos[id], id, tried, news, {}) {
      assert EntryChecked(infos[id], id, addrs, random);
      if infos[id].inTried {
        var s :| s in tried && tried[s] == id;
        assert TriedAt(h, infos, tried, s);
      }
    }
  }

  /** One tried entry, in its slot, and first in the random order. */
  ghost predicate LoneEntry(e: Info) {
    e.inTried && e.lastSuccess > 0 && e.refCount == 0 && e.randomPos == 0 && e.lastTry >= 0
  }

  /** The check of the counts per network has a gap: a network that has an entry but no counts is not noticed if
      another network has counts, which are zero. No run of operations leads to such a state, as they keep
      `CountersOk`; `NetsExact` says what else would have to be compared. */
  lemma NetsGap(h: Hashing, e: Info, other: nat)
    requires h.key != 0 && LoneEntry(e) && h.network(e.addr) != other
    ensures Checked(h, map[0 := e], map[e.addr := 0], [0], map[h.TriedSlot(e.addr) := 0], 1, map[], 0, map[other := Counts(0, 0)])
    ensures !NetOk(h, map[0 := e], map[other := Counts(0, 0)], {}, h.network(e.addr))
  {
    var infos, counts, net := map[0 := e], map[other := Counts(0, 0)], h.network(e.addr);
    LoneChecked(h, e);
    NetsOne(h, map[], 0, e);
    assert Nets(h, map[]) == {};
    assert map[][0 := e] == infos;
    assert forall t :: NetBag(h, infos, {}, t, other) == {};
    assert InBag(infos, {}, true, 0);
    assert NetBag(h, infos, {}, true, net) == {0};
  }

  /** Everything about one entry but the counts per network. */
  lemma LoneChecked(h: Hashing, e: Info)
    requires LoneEntry(e)
    ensures var infos, tried := map[0 := e], map[h.TriedSlot(e.addr) := 0];
      && EntriesChecked(infos, map[e.addr := 0], [0]) && TriedChecked(h, infos, tried) && NewChecked(h, infos, map[])
      && |Bag(infos, {}, true)| == 1 && |Bag(infos, {}, false)| == 0
  {
    var infos, tried := map[0 := e], map[h.TriedSlot(e.addr) := 0];
    assert h.TriedSlot(e.addr) in tried && tried[h.TriedSlot(e.addr)] == 0;
    assert HasSlot(tried, 0);
    assert Bag(infos, {}, true) == {0} && Bag(infos, {}, false) == {};
  }

  /** Nor does the check notice an address for which there is no entry. */
  lemma AddressGap(h: Hashing, e: Info, stale: Service)
    requires h.key != 0 && LoneEntry(e) && stale != e.addr
    ensures var infos, addrs := map[0 := e], map[e.addr := 0, stale := 1];
      && Checked(h, infos, addrs, [0], map[h.TriedSlot(e.addr) := 0], 1, map[], 0, map[h.network(e.addr) := Counts(0, 1)])
      && addrs[stale] !in infos
  {
    var infos, addrs, net := map[0 := e], map[e.addr := 0, stale := 1], h.network(e.addr);
    var counts := map[net := Counts(0, 1)];
    LoneChecked(h, e);
    assert EntryChecked(e, 0, addrs, [0]);
    NetsOne(h, map[], 0, e);
    assert Nets(h, map[]) == {};
    assert map[][0 := e] == infos;
    assert InBag(infos, {}, true, 0);
    assert NetBag(h, infos, {}, true, net) == {0} && NetBag(h, infos, {}, false, net) == {};
    assert Nets(h, infos) == {net};
  }

  /** Every network that has entries has counts. */
  lemma ConsistentNets(h: Hashing, infos: map<nat, Info>, newCount: int, triedCount: int, counts: map<nat, Counts>)
    requires CountersOk(h, infos, newCount, triedCount, counts, {})
    ensures NetsChecked(h, infos, counts)
  {
    NetsExact(h, infos, counts);
  }
}
