/** The address manager: tables of new and of tried addresses over one set of entries. */
module AddrMans {
  import opened Collections
  import NatSets
  import opened AddrTables
  import opened AddrChecks

  const HORIZON := 30 * 24 * 3600
  const RETRIES := 3
  const MAX_FAILURES := 10
  const MIN_FAIL := 7 * 24 * 3600
  const REPLACEMENT := 4 * 3600
  const MAX_COLLISIONS := 10
  const TEST_WINDOW := 40 * 60

  predicate IsTerrible(e: Info, now: int) {
    if now - e.lastTry <= 60 then false
    else if e.time > now + 600 then true
    else if now - e.time > HORIZON then true
    else if e.lastSuccess == 0 && e.attempts >= RETRIES then true
    else now - e.lastSuccess > MIN_FAIL && e.attempts >= MAX_FAILURES
  }

  /** What may be missing in the middle of an operation: `loose` entries may be in no slot, `moving`
      ones are not counted, and `refill` slots will be filled again. */
  datatype Slack = Slack(loose: set<nat>, moving: set<nat>, refill: set<Slot>)

  class AddrMan {
    const h: Hashing
    var nextId: nat
    var infos: map<nat, Info>
    var addrs: map<Service, nat>
    var random: seq<nat>
    var triedCount: int
    var tried: map<Slot, nat>
    var newCount: int
    var news: map<Slot, nat>
    var lastGood: int
    var collisions: set<nat>
    var counts: map<nat, Counts>

    /** Everything is consistent, up to what may be missing for the moment. */
    ghost predicate Ok(k: Slack)
      reads this
    {
      && h.InRange() && IndexOk(infos, addrs, random, nextId)
      && TablesOk(h, infos, tried, news, k.loose)
      && CountersOk(h, infos, newCount, triedCount, counts, k.moving)
      && CollisionsOk(h, infos, tried.Keys + k.refill, collisions, nextId)
    }

    ghost predicate Valid()
      reads this
    {
      Ok(Slack({}, {}, {}))
    }

    constructor (h: Hashing)
      requires h.InRange()
      ensures Valid() && infos == map[] && this.h == h
    {
      this.h := h;
      nextId, infos, addrs, random := 0, map[], map[], [];
      triedCount, tried, newCount, news := 0, map[], 0, map[];
      lastGood, collisions, counts := 1, {}, map[];
      EmptyCounters(h);
    }

    /** Change what an entry says about its address, and nothing else. */
    method Touch(id: nat, e: Info, ghost k: Slack)
      requires Ok(k) && id in infos
      requires e == infos[id].(services := e.services, time := e.time, lastTry := e.lastTry, lastCountAttempt := e.lastCountAttempt,
                               lastSuccess := e.lastSuccess, attempts := e.attempts)
      requires e.lastTry >= 0 && e.lastSuccess >= 0 && (e.inTried ==> e.lastSuccess > 0)
      modifies this`infos
      ensures Ok(k) && infos == old(infos)[id := e]
    {
      hide Hashing.InRange, IndexOk, TablesOk, CountersOk, CollisionsOk, OthersSame, SameButPos, AllSame, Bump;
      IndexTouch(infos, addrs, random, nextId, id, e);
      TablesTouch(h, infos, tried, news, k.loose, id, e);
      CountersTouch(h, infos, newCount, triedCount, counts, k.moving, id, e);
      CollisionsKept(h, infos, tried.Keys + k.refill, collisions, nextId, infos[id := e], tried.Keys + k.refill, nextId);
      infos := infos[id := e];
    }

    /** Make an entry for an address, in no table yet. */
    method Create(addr: Service, source: nat, services: set<nat>, time: int) returns (id: nat)
      requires Valid() && addr !in addrs
      modifies this
      ensures Ok(Slack({id}, {}, {})) && id !in old(infos) && id !in collisions
      ensures infos == old(infos)[id := Info(addr, source, services, time, 0, 0, 0, 0, 0, false, |old(random)|)]
      ensures tried == old(tried) && news == old(news) && collisions == old(collisions) && lastGood == old(lastGood)
    {
      hide Hashing.InRange, IndexOk, TablesOk, CountersOk, CollisionsOk, OthersSame, SameButPos, AllSame, Bump;
      id := nextId;
      var e := Info(addr, source, services, time, 0, 0, 0, 0, 0, false, |random|);
      IndexCreate(infos, addrs, random, nextId, e);
      TablesCreate(h, infos, tried, news, {}, id, e);
      OthersUpdate(infos, id, e);
      CountersChange(h, infos, infos[id := e], newCount, triedCount, counts, {}, {}, id, e, 1);
      CollisionsKept(h, infos, tried.Keys + {}, collisions, nextId, infos[id := e], tried.Keys + {}, nextId + 1);
      NotInCollisions(h, infos, tried.Keys + {}, collisions, nextId);
      nextId := nextId + 1;
      infos, addrs, random := infos[id := e], addrs[addr := id], random + [id];
      newCount, counts := newCount + 1, Bump(counts, h.network(addr), false, 1);
      assert {} + {id} == {id};
    }

    method SwapRandom(i: nat, j: nat, ghost k: Slack)
      requires Ok(k) && i < |random| && j < |random|
      modifies this`infos, this`random
      ensures Ok(k) && AllSame(old(infos), infos)
      ensures |random| == |old(random)| && random == old(random)[i := old(random)[j]][j := old(random)[i]]
    {
      hide Hashing.InRange, IndexOk, TablesOk, CountersOk, CollisionsOk, OthersSame, SameButPos, AllSame, Bump;
      IndexSwap(infos, addrs, random, nextId, i, j);
      var (infos', random') := Swapped(infos, random, i, j);
      PosIrrelevant(h, infos, infos', tried, news, k.loose, newCount, triedCount, counts, k.moving, collisions);
      infos, random := infos', random';
    }

    /** Remove an entry that is in no table. */
    method Delete(id: nat, ghost k: Slack)
      requires Ok(k) && id in infos && !infos[id].inTried && infos[id].refCount == 0 && id !in k.moving
      modifies this
      ensures Ok(k.(loose := k.loose - {id})) && infos.Keys == old(infos).Keys - {id} && OthersSame(old(infos), infos, id)
      ensures tried == old(tried) && news == old(news) && collisions == old(collisions) && nextId == old(nextId)
      ensures lastGood == old(lastGood)
    {
      hide Hashing.InRange, IndexOk, TablesOk, CountersOk, CollisionsOk, OthersSame, SameButPos, AllSame, Bump;
      IndexEntry(infos, addrs, random, nextId, id);
      SwapRandom(infos[id].randomPos, |random| - 1, k);
      SwappedOthers(old(infos), infos, id);
      DeleteLast(id, k);
    }

    /** The same, of the entry that is last in the random order. */
    method DeleteLast(id: nat, ghost k: Slack)
      requires Ok(k) && id in infos && !infos[id].inTried && infos[id].refCount == 0 && id !in k.moving
      requires random != [] && random[|random| - 1] == id
      modifies this
      ensures Ok(k.(loose := k.loose - {id})) && id !in infos && infos == old(infos) - {id}
      ensures tried == old(tried) && news == old(news) && collisions == old(collisions) && nextId == old(nextId)
      ensures lastGood == old(lastGood)
    {
      hide Hashing.InRange, IndexOk, TablesOk, CountersOk, CollisionsOk, OthersSame, SameButPos, AllSame, Bump;
      LastInOrder(infos, addrs, random, nextId);
      OthersUpdate(infos, id, infos[id]);
      var e := infos[id];
      IndexDelete(infos, addrs, random, nextId, id);
      TablesDelete(h, infos, tried, news, k.loose, id);
      CountersChange(h, infos, infos - {id}, newCount, triedCount, counts, k.moving, k.moving, id, e, -1);
      CollisionsKept(h, infos, tried.Keys + k.refill, collisions, nextId, infos - {id}, tried.Keys + k.refill, nextId);
      var c, n, r, a, i := Bump(counts, h.network(e.addr), false, -1), newCount - 1, random[..|random| - 1], addrs - {e.addr}, infos - {id};
      counts := c;
      newCount := n;
      random := r;
      addrs := a;
      infos := i;
    }

    /** Empty a slot of the new table; an entry that is left with no slot is deleted. */
    method ClearNew(s: Slot, ghost k: Slack)
      requires Ok(k) && (s in news ==> news[s] !in k.loose && news[s] !in k.moving)
      modifies this
      ensures Ok(k) && news == old(news) - {s} && tried == old(tried) && collisions == old(collisions)
      ensures lastGood == old(lastGood) && nextId == old(nextId)
      ensures if s in old(news) then OthersSame(old(infos), infos, old(news)[s]) else infos == old(infos)
      ensures infos.Keys <= old(infos).Keys
    {
      hide Hashing.InRange, IndexOk, TablesOk, CountersOk, CollisionsOk, OthersSame, SameButPos, AllSame, Bump;
      if s in news {
        var id := news[s];
        DropSlot(s, k);
        OthersUpdate(old(infos), id, infos[id]);
        ghost var now := infos;
        if infos[id].refCount == 0 {
          Delete(id, k.(loose := k.loose + {id}));
          assert k.loose + {id} - {id} == k.loose;
          OthersTrans(old(infos), now, infos, id);
        }
      }
    }

    /** Empty a slot of the new table, and count it off. */
    method DropSlot(s: Slot, ghost k: Slack)
      requires Ok(k) && s in news
      modifies this`infos, this`news
      ensures old(news)[s] in old(infos)
      ensures var id, e := old(news)[s], old(infos)[old(news)[s]];
        && e.refCount > 0 && !e.inTried && infos == old(infos)[id := e.(refCount := e.refCount - 1)] && news == old(news) - {s}
        && Ok(if infos[id].refCount > 0 then k else k.(loose := k.loose + {id}))
    {
      hide Hashing.InRange, IndexOk, TablesOk, CountersOk, CollisionsOk, OthersSame, SameButPos, AllSame, Bump;
      var id := news[s];
      NewEntry(h, infos, tried, news, k.loose, s);
      var e := infos[id].(refCount := infos[id].refCount - 1);
      IndexTouch(infos, addrs, random, nextId, id, e);
      TablesDrop(h, infos, tried, news, k.loose, s, e);
      CountersTouch(h, infos, newCount, triedCount, counts, k.moving, id, e);
      CollisionsKept(h, infos, tried.Keys + k.refill, collisions, nextId, infos[id := e], tried.Keys + k.refill, nextId);
      infos, news := infos[id := e], news - {s};
    }

    /** Remove an entry from all slots of the new table. */
    method LeaveNew(id: nat)
      requires Valid() && id in infos && !infos[id].inTried
      modifies this`infos, this`news
      ensures Ok(Slack({id}, {}, {})) && infos == old(infos)[id := old(infos)[id].(refCount := 0)]
    {
      hide Hashing.InRange, IndexOk, TablesOk, CountersOk, CollisionsOk, OthersSame, SameButPos, AllSame, Bump;
      var addr, start := infos[id].addr, h.newBucket(infos[id].addr, infos[id].source);
      Loosen(h, infos, tried, news, id);
      NewBucketInRange(h, addr, infos[id].source);
      var n := 0;
      while n < NEW_BUCKETS
        invariant n <= NEW_BUCKETS && Ok(Slack({id}, {}, {})) && id in infos
        invariant infos == old(infos)[id := old(infos)[id].(refCount := infos[id].refCount)]
        invariant forall m :: 0 <= m < n ==> MissesAt(h, news, addr, start, m, id)
        decreases NEW_BUCKETS - n
      {
        var s := h.NewSlot(addr, (start + n) % NEW_BUCKETS);
        if s in news && news[s] == id {
          ghost var before := news;
          DropSlot(s, Slack({id}, {}, {}));
          assert {id} + {id} == {id};
          assert forall m :: MissesAt(h, before, addr, start, m, id) ==> MissesAt(h, news, addr, start, m, id);
          if infos[id].refCount == 0 {
            return;
          }
        }
        n := n + 1;
      }
      AllVisited(h, infos, tried, news, {id}, id, start);
    }

    /** Stop counting an entry as new. */
    method Uncount(id: nat, ghost k: Slack)
      requires Ok(k) && id in infos && !infos[id].inTried && id !in k.moving
      modifies this`newCount, this`counts
      ensures Ok(k.(moving := k.moving + {id}))
    {
      hide Hashing.InRange, IndexOk, TablesOk, CountersOk, CollisionsOk, OthersSame, SameButPos, AllSame, Bump;
      var e := infos[id];
      OthersRefl(infos, id);
      CountersChange(h, infos, infos, newCount, triedCount, counts, k.moving, k.moving + {id}, id, e, -1);
      newCount, counts := newCount - 1, Bump(counts, h.network(e.addr), false, -1);
    }

    /** Take the entry out of a tried slot, which will be filled again. */
    method TakeOut(s: Slot, ghost id: nat) returns (old_id: nat)
      requires Ok(Slack({id}, {id}, {})) && s in tried && id in infos && !infos[id].inTried
      modifies this
      ensures Ok(Slack({id, old_id}, {id, old_id}, {s})) && old_id == old(tried)[s] != id && old_id in old(infos)
      ensures infos == old(infos)[old_id := old(infos)[old_id].(inTried := false)] && infos[old_id].refCount == 0
      ensures tried == old(tried) - {s} && news == old(news) && collisions == old(collisions)
      ensures lastGood == old(lastGood) && nextId == old(nextId)
    {
      hide Hashing.InRange, IndexOk, TablesOk, CountersOk, CollisionsOk, OthersSame, SameButPos, AllSame, Bump;
      old_id := tried[s];
      TriedEntry(h, infos, tried, news, {id}, s);
      var e := infos[old_id].(inTried := false);
      IndexTouch(infos, addrs, random, nextId, old_id, e);
      TablesEvict(h, infos, tried, news, {id}, s, e);
      OthersUpdate(infos, old_id, e);
      CountersChange(h, infos, infos[old_id := e], newCount, triedCount, counts, {id}, {id, old_id}, old_id, infos[old_id], -1);
      CollisionsKept(h, infos, tried.Keys + {}, collisions, nextId, infos[old_id := e], (tried - {s}).Keys + {s}, nextId);
      assert {id} + {old_id} == {id, old_id};
      triedCount, counts := triedCount - 1, Bump(counts, h.network(e.addr), true, -1);
      infos, tried := infos[old_id := e], tried - {s};
    }

    /** Put an entry that was taken out of the tried table into its new slot, deleting whatever is there. */
    method PutBack(id: nat, ghost k: Slack)
      requires Ok(k) && id in k.loose && id in k.moving && id in infos && !infos[id].inTried && infos[id].refCount == 0
      requires forall x :: x in k.loose || x in k.moving ==> x in infos && !infos[x].inTried && infos[x].refCount == 0
      modifies this
      ensures Ok(k.(loose := k.loose - {id}, moving := k.moving - {id}))
      ensures tried == old(tried) && collisions == old(collisions) && lastGood == old(lastGood) && nextId == old(nextId)
      ensures forall x :: x in k.loose && x != id ==> x in infos && SameButPos(old(infos)[x], infos[x])
      ensures infos.Keys <= old(infos).Keys && MovedBack(h, infos, news, id, old(infos)[id])
    {
      hide Hashing.InRange, IndexOk, TablesOk, CountersOk, CollisionsOk, OthersSame, SameButPos, AllSame, Bump;
      var bucket := h.newBucket(infos[id].addr, infos[id].source);
      var s := h.NewSlot(infos[id].addr, bucket);
      NewBucketInRange(h, infos[id].addr, infos[id].source);
      ghost var was := infos;
      forall x | x in k.loose || x in k.moving ensures s in news ==> news[s] != x {
        NoSlots(h, infos, tried, news, k.loose, x, s);
      }
      ghost var other := if s in news then news[s] else id;
      ClearNew(s, k);
      forall x | x in k.loose ensures x in infos && SameButPos(was[x], infos[x]) {
        OthersAt(was, infos, other, x);
      }
      SameButPosIs(was[id], infos[id]);
      AddSlot(s, id, k);
      Recount(id, k.(loose := k.loose - {id}));
    }

    /** Put an entry into an empty slot of the new table, and count it. */
    method AddSlot(s: Slot, id: nat, ghost k: Slack)
      requires Ok(k) && s !in news && id in infos && !infos[id].inTried && infos[id].refCount < NEW_PER_ADDRESS
      requires 0 <= s.bucket < NEW_BUCKETS && s == h.NewSlot(infos[id].addr, s.bucket)
      modifies this`infos, this`news
      ensures Ok(k.(loose := k.loose - {id})) && news == old(news)[s := id]
      ensures infos == old(infos)[id := old(infos)[id].(refCount := old(infos)[id].refCount + 1)]
    {
      hide Hashing.InRange, IndexOk, TablesOk, CountersOk, CollisionsOk, OthersSame, SameButPos, AllSame, Bump;
      var e := infos[id].(refCount := infos[id].refCount + 1);
      IndexTouch(infos, addrs, random, nextId, id, e);
      TablesAdd(h, infos, tried, news, k.loose, s, id, e);
      CountersTouch(h, infos, newCount, triedCount, counts, k.moving, id, e);
      CollisionsKept(h, infos, tried.Keys + k.refill, collisions, nextId, infos[id := e], tried.Keys + k.refill, nextId);
      infos, news := infos[id := e], news[s := id];
    }

    /** Count an entry as new again. */
    method Recount(id: nat, ghost k: Slack)
      requires Ok(k) && id in infos && !infos[id].inTried && id in k.moving
      modifies this`newCount, this`counts
      ensures Ok(k.(moving := k.moving - {id}))
    {
      hide Hashing.InRange, IndexOk, TablesOk, CountersOk, CollisionsOk, OthersSame, SameButPos, AllSame, Bump;
      var e := infos[id];
      OthersRefl(infos, id);
      CountersChange(h, infos, infos, newCount, triedCount, counts, k.moving, k.moving - {id}, id, e, 1);
      newCount, counts := newCount + 1, Bump(counts, h.network(e.addr), false, 1);
    }

    /** Put an entry into its tried slot, which is empty. */
    method EnterTried(id: nat, ghost refill: set<Slot>)
      requires Ok(Slack({id}, {id}, refill)) && id in infos && !infos[id].inTried && infos[id].refCount == 0 && infos[id].lastSuccess > 0
      requires h.TriedSlot(infos[id].addr) !in tried && refill <= {h.TriedSlot(infos[id].addr)}
      modifies this`infos, this`tried, this`triedCount, this`counts
      ensures Valid() && infos == old(infos)[id := old(infos)[id].(inTried := true)]
      ensures tried == old(tried)[h.TriedSlot(old(infos)[id].addr) := id]
    {
      hide Hashing.InRange, IndexOk, TablesOk, CountersOk, CollisionsOk, OthersSame, SameButPos, AllSame, Bump;
      var e := infos[id].(inTried := true);
      var tried' := tried[h.TriedSlot(e.addr) := id];
      IndexTouch(infos, addrs, random, nextId, id, e);
      TablesTry(h, infos, tried, news, {id}, id, e);
      OthersUpdate(infos, id, e);
      CountersChange(h, infos, infos[id := e], newCount, triedCount, counts, {id}, {}, id, e, 1);
      CollisionsKept(h, infos, tried.Keys + refill, collisions, nextId, infos[id := e], tried'.Keys + {}, nextId);
      assert {id} - {id} == {};
      triedCount, counts := triedCount + 1, Bump(counts, h.network(e.addr), true, 1);
      infos, tried := infos[id := e], tried';
    }

    /** Move a new entry to the tried table; an entry that is in its slot there goes back to the new table. */
    method MakeTried(id: nat)
      requires Valid() && id in infos && !infos[id].inTried && infos[id].lastSuccess > 0
      modifies this
      ensures Valid() && id in infos && tried == old(tried)[h.TriedSlot(old(infos)[id].addr) := id]
      ensures infos[id] == old(infos)[id].(refCount := 0, inTried := true, randomPos := infos[id].randomPos)
      ensures Evicted(h, old(infos), old(tried), h.TriedSlot(old(infos)[id].addr), infos, news)
      ensures collisions == old(collisions) && lastGood == old(lastGood) && nextId == old(nextId) && infos.Keys <= old(infos).Keys
    {
      hide Hashing.InRange, IndexOk, TablesOk, CountersOk, CollisionsOk, OthersSame, SameButPos, AllSame, Bump, Evicted;
      LeaveNew(id);
      ghost var left := infos[id];
      Uncount(id, Slack({id}, {}, {}));
      assert {} + {id} == {id};
      var s := h.TriedSlot(infos[id].addr);
      MakeSpace(s, id);
      ghost var cleared := infos;
      EnterTried(id, {s});
      EvictedStays(h, old(infos), old(tried), s, cleared, news, id, left, infos[id]);
    }

    /** Make a tried slot empty, for an entry to enter it. */
    method MakeSpace(s: Slot, ghost id: nat)
      requires Ok(Slack({id}, {id}, {})) && id in infos && !infos[id].inTried && infos[id].refCount == 0
      modifies this
      ensures Ok(Slack({id}, {id}, {s})) && tried == old(tried) - {s} && infos.Keys <= old(infos).Keys
      ensures id in infos && infos[id] == old(infos)[id].(randomPos := infos[id].randomPos)
      ensures Evicted(h, old(infos), old(tried), s, infos, news) && (s in old(tried) ==> old(tried)[s] != id)
      ensures collisions == old(collisions) && lastGood == old(lastGood) && nextId == old(nextId)
    {
      hide Hashing.InRange, IndexOk, TablesOk, CountersOk, CollisionsOk, OthersSame, SameButPos, AllSame, Bump;
      if s in tried {
        var old_id := TakeOut(s, id);
        ghost var was := infos;
        PutBack(old_id, Slack({id, old_id}, {id, old_id}, {s}));
        SameButPosIs(was[id], infos[id]);
        assert {id, old_id} - {old_id} == {id};
      } else {
        CollisionsKept(h, infos, tried.Keys + {}, collisions, nextId, infos, tried.Keys + {s}, nextId);
      }
    }

    /** The id of an address, if it is known. */
    method Find(addr: Service) returns (found: bool, id: nat)
      requires Valid()
      ensures found <==> addr in addrs
      ensures found ==> id == addrs[addr] && id in infos && infos[id].addr == addr
    {
      found := addr in addrs;
      id := if found then addrs[addr] else 0;
    }

    /** Tell about an address: it is put into one slot of the new table, if that is empty or has a worse entry. */
    method AddSingle(addr: Service, services: set<nat>, time: int, source: nat, timePenalty: int, now: int) returns (inserted: bool)
      requires Valid()
      modifies this
      ensures Valid() && tried == old(tried) && collisions == old(collisions) && lastGood == old(lastGood)
      ensures !h.routable(addr) ==> !inserted && infos == old(infos)
      ensures if inserted then addr in addrs && news == old(news)[h.NewSlot(addr, h.newBucket(addr, source)) := addrs[addr]]
              else news == old(news) && infos.Keys == old(infos).Keys
      ensures addr !in old(addrs) && inserted ==> var e, late := infos[addrs[addr]], Penalty(addr, source, timePenalty);
        e == Info(addr, source, services, Max(0, time - late), 0, 0, 0, 0, 1, false, e.randomPos)
      ensures h.routable(addr) && addr !in old(addrs) ==>
        (inserted <==> FreeFor(old(infos), old(news), h.NewSlot(addr, h.newBucket(addr, source)), now))
      ensures h.routable(addr) && addr in old(addrs) ==> var id := old(addrs)[addr];
        id in infos && id in old(infos) && Told(old(infos)[id], services, time, Penalty(addr, source, timePenalty), now, infos[id])
    {
      hide Hashing.InRange, IndexOk, TablesOk, CountersOk, CollisionsOk, OthersSame, SameButPos, AllSame, Bump, IsTerrible;
      if !h.routable(addr) {
        return false;
      }
      var penalty := Penalty(addr, source, timePenalty);
      var found, id := Find(addr);
      if found {
        var go := Refresh(id, services, time, penalty, now);
        if !go {
          return false;
        }
        EntryFacts(h, infos, tried, news, {}, id);
        inserted := Insert(id, source, now, {});
      } else {
        if h.NewSlot(addr, h.newBucket(addr, source)) in news {
          NewEntry(h, infos, tried, news, {}, h.NewSlot(addr, h.newBucket(addr, source)));
        }
        id := Create(addr, source, services, Max(0, time - penalty));
        inserted := Insert(id, source, now, {id});
        assert old(infos).Keys + {id} - {id} == old(infos).Keys;
      }
      if inserted {
        IndexEntry(infos, addrs, random, nextId, id);
      }
    }

    /** Update a known entry; whether it may get one more slot. */
    method Refresh(id: nat, services: set<nat>, time: int, penalty: int, now: int) returns (go: bool)
      requires Valid() && id in infos
      modifies this`infos
      ensures Valid() && id in infos && infos == old(infos)[id := infos[id]]
      ensures infos[id] == old(infos)[id].(services := infos[id].services, time := infos[id].time)
      ensures Told(old(infos)[id], services, time, penalty, now, infos[id])
      ensures go ==> infos[id].time < time && !infos[id].inTried && infos[id].refCount < NEW_PER_ADDRESS
    {
      hide Hashing.InRange, IndexOk, TablesOk, CountersOk, CollisionsOk, OthersSame, SameButPos, AllSame, Bump;
      EntryFacts(h, infos, tried, news, {}, id);
      var e := infos[id];
      var interval := if now - time < 24 * 3600 then 3600 else 24 * 3600;
      if e.time < time - interval - penalty {
        e := e.(time := Max(0, time - penalty));
      }
      e := e.(services := e.services + services);
      Touch(id, e, Slack({}, {}, {}));
      if time <= e.time || e.inTried || e.refCount == NEW_PER_ADDRESS {
        return false;
      }
      if e.refCount > 0 {
        // the more slots it has, the less likely it gets another
        go := *;
      } else {
        go := true;
      }
    }

    /** Put an entry into its slot for a source, unless there is a better one. */
    method Insert(id: nat, source: nat, now: int, ghost loose: set<nat>) returns (inserted: bool)
      requires Ok(Slack(loose, {}, {})) && loose <= {id} && id in infos && !infos[id].inTried && infos[id].refCount < NEW_PER_ADDRESS
      modifies this
      ensures Valid() && tried == old(tried) && collisions == old(collisions) && lastGood == old(lastGood)
      ensures var s := h.NewSlot(old(infos)[id].addr, h.newBucket(old(infos)[id].addr, source));
        && (inserted <==> MayTake(old(infos), old(news), s, id, now))
        && (if inserted then
              && id in infos && news == old(news)[s := id]
              && infos[id] == old(infos)[id].(refCount := old(infos)[id].refCount + 1, randomPos := infos[id].randomPos)
            else if old(infos)[id].refCount > 0 then news == old(news) && infos == old(infos)
            else news == old(news) && infos.Keys == old(infos).Keys - {id})
    {
      hide Hashing.InRange, IndexOk, TablesOk, CountersOk, CollisionsOk, OthersSame, SameButPos, AllSame, Bump;
      var bucket := h.newBucket(infos[id].addr, source);
      var s := h.NewSlot(infos[id].addr, bucket);
      NewBucketInRange(h, infos[id].addr, source);
      EntryFacts(h, infos, tried, news, loose, id);
      inserted := s !in news;
      if inserted || news[s] != id {
        if !inserted {
          NewEntry(h, infos, tried, news, loose, s);
          var existing := infos[news[s]];
          if IsTerrible(existing, now) || (existing.refCount > 1 && infos[id].refCount == 0) {
            inserted := true;
          }
        }
        if inserted {
          ghost var was := infos;
          ghost var other := if s in news then news[s] else id;
          ClearNew(s, Slack(loose, {}, {}));
          OthersAt(was, infos, other, id);
          SameButPosIs(was[id], infos[id]);
          AddSlot(s, id, Slack(loose, {}, {}));
          assert loose - {id} == {};
        } else if infos[id].refCount == 0 {
          Delete(id, Slack(loose, {}, {}));
          assert loose - {id} == {};
        } else {
          NotLoose(h, infos, tried, news, loose, id);
        }
      } else {
        NewEntry(h, infos, tried, news, loose, s);
        NotLoose(h, infos, tried, news, loose, id);
      }
    }

    /** Tell about several addresses. Unless one is added, the new table and the addresses known are the same. */
    method Add(entries: seq<(Service, set<nat>, int)>, source: nat, timePenalty: int, now: int) returns (added: bool)
      requires Valid()
      modifies this
      ensures Valid() && tried == old(tried) && collisions == old(collisions)
      ensures !added ==> news == old(news) && infos.Keys == old(infos).Keys
      ensures added ==> exists i :: 0 <= i < |entries| && h.routable(entries[i].0)
      ensures |entries| == 1 && h.routable(entries[0].0) && entries[0].0 !in old(addrs) ==>
        (added <==> FreeFor(old(infos), old(news), h.NewSlot(entries[0].0, h.newBucket(entries[0].0, source)), now))
    {
      hide Ok, FreeFor;
      added := false;
      for i := 0 to |entries|
        invariant Valid() && tried == old(tried) && collisions == old(collisions)
        invariant !added ==> news == old(news) && infos.Keys == old(infos).Keys
        invariant added ==> exists k :: 0 <= k < i && h.routable(entries[k].0)
        invariant i == 0 ==> infos == old(infos) && addrs == old(addrs) && !added
        invariant i == 1 && h.routable(entries[0].0) && entries[0].0 !in old(addrs) ==>
          (added <==> FreeFor(old(infos), old(news), h.NewSlot(entries[0].0, h.newBucket(entries[0].0, source)), now))
      {
        var inserted := AddSingle(entries[i].0, entries[i].1, entries[i].2, source, timePenalty, now);
        added := added || inserted;
      }
    }

    /** A connection to an address succeeded: move it to the tried table, or note that its slot there is taken. */
    method Good(addr: Service, testBeforeEvict: bool, time: int) returns (moved: bool)
      requires Valid() && time > 0
      modifies this
      ensures Valid() && tried.Keys >= old(tried).Keys && nextId == old(nextId) && infos.Keys <= old(infos).Keys
      ensures lastGood == time
      ensures moved <==> addr in old(addrs) && Promoted(h, old(infos), old(tried), old(addrs)[addr], testBeforeEvict)
      ensures moved ==> addr in addrs && infos[addrs[addr]].inTried && tried == old(tried)[h.TriedSlot(addr) := addrs[addr]]
      ensures moved ==> Evicted(h, old(infos), old(tried), h.TriedSlot(addr), infos, news)
      ensures (addr in addrs <==> addr in old(addrs)) && (addr in addrs ==> addrs[addr] == old(addrs)[addr] && addrs[addr] in infos)
      ensures addr in addrs ==> var e := infos[addrs[addr]]; e.addr == addr && e.lastSuccess == time && e.lastTry == time && e.attempts == 0
      ensures !moved ==> tried == old(tried) && addrs == old(addrs) && infos == if addr !in addrs then old(infos)
        else old(infos)[addrs[addr] := old(infos)[addrs[addr]].(lastSuccess := time, lastTry := time, attempts := 0)]
      ensures collisions == if addr in old(addrs) && Collides(h, old(infos), old(tried), old(addrs)[addr], testBeforeEvict)
          && |old(collisions)| < MAX_COLLISIONS then old(collisions) + {old(addrs)[addr]} else old(collisions)
    {
      hide Hashing.InRange, IndexOk, TablesOk, CountersOk, CollisionsOk, OthersSame, SameButPos, AllSame, Bump, Evicted;
      lastGood := time;
      var found, id := Find(addr);
      if !found {
        return false;
      }
      IndexEntry(infos, addrs, random, nextId, id);
      EntryFacts(h, infos, tried, news, {}, id);
      Touch(id, infos[id].(lastSuccess := time, lastTry := time, attempts := 0), Slack({}, {}, {}));
      if infos[id].inTried {
        return false;
      }
      if infos[id].refCount <= 0 {
        return false;
      }
      ghost var touched := infos[id];
      if h.TriedSlot(addr) in tried {
        TriedEntry(h, infos, tried, news, {}, h.TriedSlot(addr));
      }
      moved := Promote(id, testBeforeEvict);
      if moved {
        EvictedStays(h, old(infos), old(tried), h.TriedSlot(addr), infos, news, id, touched, infos[id]);
        assert infos[id := infos[id]] == infos;
      }
    }

    /** Move a new entry to the tried table, or note that its slot there is taken. */
    method Promote(id: nat, testBeforeEvict: bool) returns (moved: bool)
      requires Valid() && id in infos && !infos[id].inTried && infos[id].lastSuccess > 0
      modifies this
      ensures Valid() && tried.Keys >= old(tried).Keys && nextId == old(nextId) && infos.Keys <= old(infos).Keys
      ensures var addr := old(infos)[id].addr; var s := h.TriedSlot(addr);
        if testBeforeEvict && s in old(tried) then
          && !moved && tried == old(tried) && infos == old(infos) && addrs == old(addrs) && lastGood == old(lastGood)
          && collisions == if |old(collisions)| < MAX_COLLISIONS then old(collisions) + {id} else old(collisions)
        else
          && moved && id in infos && addr in addrs && addrs[addr] == id && lastGood == old(lastGood)
          && infos[id] == old(infos)[id].(refCount := 0, inTried := true, randomPos := infos[id].randomPos)
          && collisions == old(collisions) && tried == old(tried)[s := id] && Evicted(h, old(infos), old(tried), s, infos, news)
    {
      hide Hashing.InRange, IndexOk, TablesOk, CountersOk, CollisionsOk, OthersSame, SameButPos, AllSame, Bump;
      IndexEntry(infos, addrs, random, nextId, id);
      if testBeforeEvict && h.TriedSlot(infos[id].addr) in tried {
        if |collisions| < MAX_COLLISIONS {
          NewCollision(h, infos, tried.Keys + {}, collisions, nextId, id);
          collisions := collisions + {id};
        }
        return false;
      }
      MakeTried(id);
      IndexEntry(infos, addrs, random, nextId, id);
      return true;
    }

    method Attempt(addr: Service, countFailure: bool, time: int)
      requires Valid() && time >= 0
      modifies this`infos
      ensures Valid() && (addr !in addrs ==> infos == old(infos))
      ensures addr in addrs ==> var e := old(infos)[addrs[addr]];
        infos == old(infos)[addrs[addr] := if countFailure && e.lastCountAttempt < lastGood
          then e.(lastTry := time, lastCountAttempt := time, attempts := e.attempts + 1) else e.(lastTry := time)]
    {
      hide Hashing.InRange, IndexOk, TablesOk, CountersOk, CollisionsOk, OthersSame, SameButPos, AllSame, Bump;
      var found, id := Find(addr);
      if found {
        EntryFacts(h, infos, tried, news, {}, id);
        var e := infos[id].(lastTry := time);
        if countFailure && e.lastCountAttempt < lastGood {
          e := e.(lastCountAttempt := time, attempts := e.attempts + 1);
        }
        Touch(id, e, Slack({}, {}, {}));
      }
    }

    method Connected(addr: Service, time: int)
      requires Valid()
      modifies this`infos
      ensures Valid() && (addr !in addrs ==> infos == old(infos))
      ensures addr in addrs ==> var e := old(infos)[addrs[addr]];
        infos == old(infos)[addrs[addr] := e.(time := if time - e.time > 20 * 60 then time else e.time)]
    {
      hide Hashing.InRange, IndexOk, TablesOk, CountersOk, CollisionsOk, OthersSame, SameButPos, AllSame, Bump;
      var found, id := Find(addr);
      if found && time - infos[id].time > 20 * 60 {
        EntryFacts(h, infos, tried, news, {}, id);
        Touch(id, infos[id].(time := time), Slack({}, {}, {}));
      }
    }

    method SetServices(addr: Service, services: set<nat>)
      requires Valid()
      modifies this`infos
      ensures Valid()
      ensures infos == if addr in addrs then old(infos)[addrs[addr] := old(infos)[addrs[addr]].(services := services)] else old(infos)
    {
      hide Hashing.InRange, IndexOk, TablesOk, CountersOk, CollisionsOk, OthersSame, SameButPos, AllSame, Bump;
      var found, id := Find(addr);
      if found {
        EntryFacts(h, infos, tried, news, {}, id);
        Touch(id, infos[id].(services := services), Slack({}, {}, {}));
      }
    }

    /** Some known addresses, picked at random. */
    method GetAddr(maxAddresses: nat, maxPct: nat, network: Option<nat>, filtered: bool, now: int) returns (r: seq<Service>)
      requires Valid()
      modifies this`infos, this`random
      ensures Valid() && AllSame(old(infos), infos)
      ensures WithinLimits(|old(random)|, maxAddresses, maxPct, |r|)
      ensures forall i, j :: 0 <= i < j < |r| ==> r[i] != r[j]
      ensures forall i :: 0 <= i < |r| ==> r[i] in addrs && (network.Some? ==> h.netClass(r[i]) == network.value)
      ensures forall i :: 0 <= i < |r| && filtered ==> !IsTerrible(infos[addrs[r[i]]], now)
      ensures WithinLimits(|old(random)|, maxAddresses, maxPct, |r| + 1) ==>
        forall id :: id in infos && Suits(h, infos, network, filtered, now, id) ==> infos[id].addr in r
    {
      hide Hashing.InRange, IndexOk, TablesOk, CountersOk, CollisionsOk, OthersSame, SameButPos, AllSame, Bump, IsTerrible, HowMany, Suits;
      var nodes := HowMany(|random|, maxAddresses, maxPct);
      r := [];
      ghost var ids: seq<nat> := [];
      SameRefl(infos);
      var n := 0;
      while n < |random| && |r| < nodes
        invariant n <= |random| == |old(random)| && |r| <= nodes && Valid() && AllSame(old(infos), infos)
        invariant |ids| == |r| && forall i :: 0 <= i < |ids| ==> Picked(infos, random[..n], ids[i], r[i])
        invariant forall i, j :: 0 <= i < j < |ids| ==> ids[i] != ids[j]
        invariant forall i :: 0 <= i < |ids| ==> Suits(h, infos, network, filtered, now, ids[i])
        invariant forall k :: 0 <= k < n && Suits(h, infos, network, filtered, now, random[k]) ==> random[k] in ids
      {
        var k :| n <= k < |random|;
        ghost var was, first := infos, random[..n];
        SwapRandom(n, k, Slack({}, {}, {}));
        assert random[..n] == first;
        SameTrans(old(infos), was, infos);
        forall i | 0 <= i < |ids| ensures Picked(infos, random[..n], ids[i], r[i]) && Suits(h, infos, network, filtered, now, ids[i]) {
          StillPicked(h, was, infos, random[..n], ids[i], r[i], network, filtered, now);
        }
        forall k | 0 <= k < n && Suits(h, infos, network, filtered, now, random[k]) ensures random[k] in ids {
          SuitsSame(h, was, infos, network, filtered, now, first[k]);
        }
        RandomEntry(infos, addrs, random, nextId, n);
        var id := random[n];
        var e := infos[id];
        assert random[..n + 1] == random[..n] + [id];
        SuitsIs(h, infos, network, filtered, now, id);
        if (network.Some? ==> h.netClass(e.addr) == network.value) && (filtered ==> !IsTerrible(e, now)) {
          r := r + [e.addr];
          ids := ids + [id];
        }
        n := n + 1;
      }
      Listed(h, infos, addrs, random, nextId, network, filtered, now, ids, r, random[..n]);
      if |r| < nodes {
        forall id | id in infos && Suits(h, infos, network, filtered, now, id) ensures infos[id].addr in r {
          AllListed(h, infos, addrs, random, nextId, network, filtered, now, ids, r, id);
        }
      }
    }

    /** Settle the collisions for which there is reason to. Each has its turn, in the order of the ids. */
    method ResolveCollisions(now: int) returns (ghost order: seq<nat>, ghost states: seq<Snapshot>)
      requires Valid() && now > 0
      modifies this
      ensures Valid() && tried.Keys >= old(tried).Keys
      ensures Resolved(h, now, old(collisions), collisions, order, states)
      ensures |states| == |order| + 1 && states[0] == Snapshot(old(infos), old(tried)) && states[|order|] == Snapshot(infos, tried)
      ensures forall id :: old(collisions) == {id} ==>
        && (id in collisions <==> Kept(h, Snapshot(old(infos), old(tried)), id, now))
        && Turn(h, Snapshot(old(infos), old(tried)), id, now, Snapshot(infos, tried))
    {
      hide Ok, NatSets.First, Turn, Kept, Resolving, Resolved;
      var left := collisions;
      order, states := [], [Snapshot(infos, tried)];
      NoTurns(h, now, collisions, states[0]);
      while left != {}
        invariant Valid() && tried.Keys >= old(tried).Keys && left <= collisions && |states| == |order| + 1
        invariant Resolving(h, now, old(collisions), left, collisions, order, states)
        invariant states[0] == Snapshot(old(infos), old(tried)) && states[|order|] == Snapshot(infos, tried)
        decreases |left|
      {
        var id := NatSets.First(left);
        ghost var before := collisions;
        assert left - {id} + {id} == left;
        left := left - {id};
        TakeTurn(id, now);
        NextTurn(h, now, old(collisions), left, id, before, collisions, order, states, Snapshot(infos, tried));
        order, states := order + [id], states + [Snapshot(infos, tried)];
      }
      OneTurn(h, now, old(collisions), collisions, order, states);
    }

    /** The turn of one collision. */
    method TakeTurn(id: nat, now: int)
      requires Valid() && now > 0 && id in collisions
      modifies this
      ensures Valid() && tried.Keys >= old(tried).Keys
      ensures collisions == if Kept(h, Snapshot(old(infos), old(tried)), id, now) then old(collisions) else old(collisions) - {id}
      ensures Turn(h, Snapshot(old(infos), old(tried)), id, now, Snapshot(infos, tried))
    {
      hide Hashing.InRange, IndexOk, TablesOk, CountersOk, CollisionsOk, OthersSame, SameButPos, AllSame, Bump, Turn, Kept;
      var erase := ResolveOne(id, now);
      if erase {
        FewerCollisions(h, infos, tried.Keys + {}, collisions, nextId, id);
        collisions := collisions - {id};
      }
    }

    /** Settle one collision if there is reason to; whether it is settled. */
    method ResolveOne(id: nat, now: int) returns (erase: bool)
      requires Valid() && now > 0 && id in collisions
      modifies this
      ensures Valid() && tried.Keys >= old(tried).Keys && collisions == old(collisions)
      ensures erase <==> !Kept(h, Snapshot(old(infos), old(tried)), id, now)
      ensures Turn(h, Snapshot(old(infos), old(tried)), id, now, Snapshot(infos, tried))
    {
      hide Hashing.InRange, IndexOk, TablesOk, CountersOk, CollisionsOk, OthersSame, SameButPos, AllSame, Bump;
      if id !in infos {
        return true;
      }
      IndexEntry(infos, addrs, random, nextId, id);
      var e := infos[id];
      var s := h.TriedSlot(e.addr);
      if !h.valid(e.addr) {
        return true;
      }
      if s in tried {
        TriedEntry(h, infos, tried, news, {}, s);
        var other := infos[tried[s]];
        if now - other.lastSuccess < REPLACEMENT {
          return true;
        }
        if now - other.lastTry < REPLACEMENT {
          if now - other.lastTry > 60 {
            Replace(id, now);
            return true;
          }
        } else if now - e.lastSuccess > TEST_WINDOW {
          Replace(id, now);
          return true;
        }
        return false;
      }
      Replace(id, now);
      return true;
    }

    /** Move an entry to the tried table, whatever is in its slot there. */
    method Replace(id: nat, now: int)
      requires Valid() && now > 0 && id in infos
      modifies this
      ensures Valid() && tried.Keys >= old(tried).Keys && collisions == old(collisions)
      ensures InPlace(h, Snapshot(old(infos), old(tried)), id, now, Snapshot(infos, tried))
    {
      hide Hashing.InRange, IndexOk, TablesOk, CountersOk, CollisionsOk, OthersSame, SameButPos, AllSame, Bump;
      IndexEntry(infos, addrs, random, nextId, id);
      InSlot(h, infos, tried, news, {}, id);
      var addr := infos[id].addr;
      var moved := Good(addr, false, now);
      IndexEntry(infos, addrs, random, nextId, id);
      InSlot(h, infos, tried, news, {}, id);
    }

    /** An entry that a collision would evict. It is always found. */
    method SelectTriedCollision() returns (r: Option<Info>)
      requires Valid()
      modifies this`collisions
      ensures Valid() && collisions <= old(collisions)
      ensures r.Some? ==> exists id :: id in collisions && WouldEvict(h, infos, tried, id, r.value)
      ensures r.None? ==> old(collisions) == {} || exists id :: id in old(collisions) && id !in infos
    {
      hide Hashing.InRange, IndexOk, TablesOk, CountersOk, CollisionsOk, OthersSame, SameButPos, AllSame, Bump;
      if collisions == {} {
        return None;
      }
      var id := AnyOf(collisions);
      if id !in infos {
        FewerCollisions(h, infos, tried.Keys + {}, collisions, nextId, id);
        collisions := collisions - {id};
        return None;
      }
      CollidesWith(h, infos, tried, collisions, nextId, id);
      var s := h.TriedSlot(infos[id].addr);
      TriedEntry(h, infos, tried, news, {}, s);
      assert WouldEvict(h, infos, tried, id, infos[tried[s]]);
      return Some(infos[tried[s]]);
    }

    /** The check that the manager runs on itself. It finds nothing, unless the secret key is null. */
    method CheckAddrman() returns (code: int)
      requires Valid()
      ensures code == 0 <==> h.key != 0
    {
      if h.key != 0 {
        ConsistentIsChecked(h, infos, addrs, random, nextId, tried, triedCount, news, newCount, counts);
      }
      ConsistentTables(h, infos, tried, news);
      code := CheckAll(h, infos, addrs, random, tried, triedCount, news, newCount, counts);
    }

    /** Any run of operations keeps everything consistent, and never empties a tried slot. */
    method Run(ops: seq<Op>)
      requires Valid() && forall i :: 0 <= i < |ops| ==> ops[i].TimeOk()
      modifies this
      ensures Valid() && tried.Keys >= old(tried).Keys
    {
      for i := 0 to |ops|
        invariant Valid() && tried.Keys >= old(tried).Keys
      {
        Apply(ops[i]);
      }
    }

    method Apply(op: Op)
      requires Valid() && op.TimeOk()
      modifies this
      ensures Valid() && tried.Keys >= old(tried).Keys
    {
      hide Ok;
      match op {
        case Add(entries, source, penalty, now) => var _ := Add(entries, source, penalty, now);
        case Good(addr, time) => var _ := Good(addr, true, time);
        case Attempt(addr, count, time) => Attempt(addr, count, time);
        case Connected(addr, time) => Connected(addr, time);
        case SetServices(addr, services) => SetServices(addr, services);
        case GetAddr(max, pct, network, filtered, now) => var _ := GetAddr(max, pct, network, filtered, now);
        case ResolveCollisions(now) => var _, _ := ResolveCollisions(now);
        case SelectTriedCollision => var _ := SelectTriedCollision();
      }
    }
  }

  /** A public operation, with the time and what a caller passes. */
  datatype Op =
    | Add(entries: seq<(Service, set<nat>, int)>, source: nat, timePenalty: int, now: int)
    | Good(addr: Service, time: int)
    | Attempt(addr: Service, countFailure: bool, time: int)
    | Connected(addr: Service, time: int)
    | SetServices(addr: Service, services: set<nat>)
    | GetAddr(maxAddresses: nat, maxPct: nat, network: Option<nat>, filtered: bool, now: int)
    | ResolveCollisions(now: int)
    | SelectTriedCollision
  {
    predicate TimeOk() {
      (Good? ==> time > 0) && (Attempt? ==> time >= 0) && (ResolveCollisions? ==> now > 0)
    }
  }

  // ----- what the operations decide -----

  /** A source that announces itself is not penalized. */
  function Penalty(addr: Service, source: nat, timePenalty: int): int { if addr.ip == source then 0 else timePenalty }

  /** What hearing of a known address changes: services are added, and the time moves if it is old enough. */
  ghost predicate Told(e: Info, services: set<nat>, time: int, penalty: int, now: int, e': Info) {
    && e'.services == e.services + services && e'.inTried == e.inTried
    && e'.time == if e.time < time - (if now - time < 24 * 3600 then 3600 else 24 * 3600) - penalty then Max(0, time - penalty) else e.time
  }

  /** An entry may take a slot that is empty, or that has a terrible entry or one with other slots. */
  ghost predicate MayTake(infos: map<nat, Info>, news: map<Slot, nat>, s: Slot, id: nat, now: int)
    requires id in infos
  {
    || s !in news
    || (news[s] != id && news[s] in infos
        && (IsTerrible(infos[news[s]], now) || (infos[news[s]].refCount > 1 && infos[id].refCount == 0)))
  }

  /** A slot that an entry without slots may take: the entry in it is terrible or has other slots. */
  ghost predicate FreeFor(infos: map<nat, Info>, news: map<Slot, nat>, s: Slot, now: int) {
    s in news ==> news[s] in infos && (IsTerrible(infos[news[s]], now) || infos[news[s]].refCount > 1)
  }

  /** An entry that was tried is back in its own slot of the new table. */
  ghost predicate MovedBack(h: Hashing, infos: map<nat, Info>, news: map<Slot, nat>, id: nat, e: Info) {
    && id in infos && infos[id] == e.(inTried := false, refCount := 1, randomPos := infos[id].randomPos)
    && var s := h.NewSlot(e.addr, h.newBucket(e.addr, e.source)); s in news && news[s] == id
  }

  /** If a tried slot had an entry, it is moved back. */
  ghost predicate Evicted(h: Hashing, before: map<nat, Info>, tried: map<Slot, nat>, s: Slot, infos: map<nat, Info>, news: map<Slot, nat>) {
    s in tried ==> tried[s] in before && MovedBack(h, infos, news, tried[s], before[tried[s]])
  }

  lemma EvictedStays(h: Hashing, before: map<nat, Info>, tried: map<Slot, nat>, s: Slot, infos: map<nat, Info>, news: map<Slot, nat>,
                     id: nat, left: Info, e: Info)
    requires Evicted(h, before[id := left], tried, s, infos, news) && (s in tried ==> tried[s] != id)
    ensures Evicted(h, before, tried, s, infos[id := e], news)
  {
  }

  /** A new entry whose tried slot is taken, if that is to be tested first. */
  ghost predicate Collides(h: Hashing, infos: map<nat, Info>, tried: map<Slot, nat>, id: nat, testBeforeEvict: bool) {
    id in infos && !infos[id].inTried && testBeforeEvict && h.TriedSlot(infos[id].addr) in tried
  }

  /** A new entry that may take its tried slot at once. */
  ghost predicate Promoted(h: Hashing, infos: map<nat, Info>, tried: map<Slot, nat>, id: nat, testBeforeEvict: bool) {
    id in infos && !infos[id].inTried && !(testBeforeEvict && h.TriedSlot(infos[id].addr) in tried)
  }

  /** A collision is decided for the new entry: the old one has not been reached for a while. */
  ghost predicate Replaces(h: Hashing, infos: map<nat, Info>, tried: map<Slot, nat>, id: nat, now: int)
    requires id in infos
  {
    var s := h.TriedSlot(infos[id].addr);
    h.valid(infos[id].addr) && (s in tried && tried[s] in infos ==>
      var other := infos[tried[s]];
      && now - other.lastSuccess >= REPLACEMENT
      && if now - other.lastTry < REPLACEMENT then now - other.lastTry > 60 else now - infos[id].lastSuccess > TEST_WINDOW)
  }

  /** A collision is decided for one of the two, or is about no valid address. */
  ghost predicate Settled(h: Hashing, infos: map<nat, Info>, tried: map<Slot, nat>, id: nat, now: int)
    requires id in infos
  {
    var s := h.TriedSlot(infos[id].addr);
    || Replaces(h, infos, tried, id, now) || !h.valid(infos[id].addr)
    || (s in tried && tried[s] in infos && now - infos[tried[s]].lastSuccess < REPLACEMENT)
  }

  /** The entries and the tried table at some time. */
  datatype Snapshot = Snapshot(infos: map<nat, Info>, tried: map<Slot, nat>)

  /** A collision that stays: there is an entry for it, and nothing has been decided. */
  ghost predicate Kept(h: Hashing, a: Snapshot, id: nat, now: int) {
    id in a.infos && !Settled(h, a.infos, a.tried, id, now)
  }

  /** An entry has taken its tried slot, and an entry that was there is new again. */
  ghost predicate InPlace(h: Hashing, a: Snapshot, id: nat, now: int, b: Snapshot)
    requires id in a.infos
  {
    var s := h.TriedSlot(a.infos[id].addr);
    && id in b.infos && b.infos[id].addr == a.infos[id].addr && b.infos[id].inTried && b.infos[id].lastSuccess == now
    && b.tried == a.tried[s := id]
    && (s in a.tried && a.tried[s] != id ==> a.tried[s] in b.infos && !b.infos[a.tried[s]].inTried)
  }

  /** What the turn of one collision changes: an entry that replaces another takes its slot, and otherwise nothing. */
  ghost predicate Turn(h: Hashing, a: Snapshot, id: nat, now: int, b: Snapshot) {
    if id in a.infos && Replaces(h, a.infos, a.tried, id, now) then InPlace(h, a, id, now, b) else b == a
  }

  ghost predicate Increasing(order: seq<nat>) {
    forall i, j :: 0 <= i < j < |order| ==> order[i] < order[j]
  }

  /** Every collision has one turn, from one state to the next, and is kept just if its turn decides nothing. */
  ghost predicate Resolved(h: Hashing, now: int, before: set<nat>, after: set<nat>, order: seq<nat>, states: seq<Snapshot>) {
    && Increasing(order) && Elements(order) == before && after <= before && |states| == |order| + 1
    && (forall k :: 0 <= k < |order| ==> Turn(h, states[k], order[k], now, states[k + 1]))
    && (forall k :: 0 <= k < |order| ==> (order[k] in after <==> Kept(h, states[k], order[k], now)))
  }

  /** The same for those that had their turn, while the ones that are `left` have not. */
  ghost predicate Resolving(h: Hashing, now: int, before: set<nat>, left: set<nat>, after: set<nat>, order: seq<nat>, states: seq<Snapshot>) {
    && Elements(order) + left == before && (forall k, x :: 0 <= k < |order| && x in left ==> order[k] < x)
    && left <= after <= before && Resolved(h, now, before - left, after - left, order, states)
  }

  lemma NoTurns(h: Hashing, now: int, before: set<nat>, a: Snapshot)
    ensures Resolving(h, now, before, before, before, [], [a])
  {
    assert before - before == {} == Elements<nat>([]);
  }

  lemma NextTurn(h: Hashing, now: int, before: set<nat>, left: set<nat>, id: nat, was: set<nat>, after: set<nat>,
                 order: seq<nat>, states: seq<Snapshot>, b: Snapshot)
    requires Resolving(h, now, before, left + {id}, was, order, states) && id !in left && forall x :: x in left ==> id < x
    requires after == if Kept(h, states[|order|], id, now) then was else was - {id}
    requires Turn(h, states[|order|], id, now, b)
    ensures Resolving(h, now, before, left, after, order + [id], states + [b])
  {
    hide Turn, Kept;
    var order', states' := order + [id], states + [b];
    assert Elements(order') == Elements(order) + {id};
    assert forall k :: 0 <= k < |order| ==> order[k] in Elements(order);
    assert before - left == Elements(order') by {
      assert before - (left + {id}) == Elements(order);
    }
    forall k | 0 <= k < |order'|
      ensures Turn(h, states'[k], order'[k], now, states'[k + 1])
      ensures order'[k] in after - left <==> Kept(h, states'[k], order'[k], now)
    {
      assert k < |order| ==> (order[k] in was - (left + {id}) <==> Kept(h, states[k], order[k], now));
    }
  }

  /** The last turn is over, and if there was only one, it went from the first state to the last. */
  lemma OneTurn(h: Hashing, now: int, before: set<nat>, after: set<nat>, order: seq<nat>, states: seq<Snapshot>)
    requires Resolving(h, now, before, {}, after, order, states)
    ensures Resolved(h, now, before, after, order, states)
    ensures forall id :: before == {id} ==>
      |order| == 1 && (id in after <==> Kept(h, states[0], id, now)) && Turn(h, states[0], id, now, states[1])
  {
    hide Turn, Kept;
    assert before - {} == before && after - {} == after;
    forall id | before == {id}
      ensures |order| == 1 && (id in after <==> Kept(h, states[0], id, now)) && Turn(h, states[0], id, now, states[1])
    {
      assert id in Elements(order);
      assert forall k :: 0 <= k < |order| ==> order[k] in Elements(order);
      DistinctCount(order);
      assert order[0] == id;
    }
  }

  lemma InSlot(h: Hashing, infos: map<nat, Info>, tried: map<Slot, nat>, news: map<Slot, nat>, loose: set<nat>, id: nat)
    requires TablesOk(h, infos, tried, news, loose) && id in infos
    ensures infos[id].inTried ==> h.TriedSlot(infos[id].addr) in tried && tried[h.TriedSlot(infos[id].addr)] == id
  {
    assert TableAt(h, infos[id], id, tried, news, loose);
  }

  method AnyOf(ids: set<nat>) returns (id: nat)
    requires ids != {}
    ensures id in ids
  {
    id :| id in ids;
  }

  lemma FewerCollisions(h: Hashing, infos: map<nat, Info>, occupied: set<Slot>, collisions: set<nat>, nextId: nat, id: nat)
    requires CollisionsOk(h, infos, occupied, collisions, nextId)
    ensures CollisionsOk(h, infos, occupied, collisions - {id}, nextId)
  {
  }

  /** `e` is in the tried slot of the entry `id`. */
  ghost predicate WouldEvict(h: Hashing, infos: map<nat, Info>, tried: map<Slot, nat>, id: nat, e: Info) {
    id in infos && var s := h.TriedSlot(infos[id].addr); s in tried && tried[s] in infos && e == infos[tried[s]]
  }

  lemma CollidesWith(h: Hashing, infos: map<nat, Info>, tried: map<Slot, nat>, collisions: set<nat>, nextId: nat, id: nat)
    requires CollisionsOk(h, infos, tried.Keys + {}, collisions, nextId) && id in collisions && id in infos
    ensures h.TriedSlot(infos[id].addr) in tried
  {
  }

  ghost predicate WithinLimits(size: nat, maxAddresses: nat, maxPct: nat, n: nat) {
    n <= size && (maxAddresses != 0 ==> n <= maxAddresses) && (maxPct != 0 ==> n * 100 <= maxPct * size)
  }

  /** The largest number within all limits; a limit of zero is none. */
  function HowMany(size: nat, maxAddresses: nat, maxPct: nat): (n: nat)
    ensures WithinLimits(size, maxAddresses, maxPct, n)
    ensures forall m: nat :: WithinLimits(size, maxAddresses, maxPct, m) ==> m <= n
  {
    var pct := if maxPct < 100 then maxPct else 100;
    var some := if maxPct != 0 then pct * size / 100 else size;
    assert maxPct != 0 ==> some * 100 <= pct * size && pct * size <= maxPct * size && pct * size <= 100 * size by {
      if maxPct != 0 {
        Scale(pct, maxPct, size);
        Scale(pct, 100, size);
      }
    }
    if maxAddresses != 0 && maxAddresses < some then maxAddresses else some
  }

  lemma Scale(a: nat, b: nat, n: nat)
    requires a <= b
    ensures a * n <= b * n
  {
  }

  /** An entry that is among the first `n` of the random order, and its address. */
  ghost predicate Picked(infos: map<nat, Info>, first: seq<nat>, id: nat, addr: Service) {
    id in first && id in infos && infos[id].addr == addr
  }

  lemma StillPicked(h: Hashing, a: map<nat, Info>, b: map<nat, Info>, first: seq<nat>, id: nat, addr: Service, network: Option<nat>, filtered: bool, now: int)
    requires AllSame(a, b) && Picked(a, first, id, addr) && Suits(h, a, network, filtered, now, id)
    ensures Picked(b, first, id, addr) && Suits(h, b, network, filtered, now, id)
  {
    assert SameButPos(a[id], b[id]);
  }

  lemma SameRefl(a: map<nat, Info>)
    ensures AllSame(a, a)
  {
  }

  lemma SameTrans(a: map<nat, Info>, b: map<nat, Info>, c: map<nat, Info>)
    requires AllSame(a, b) && AllSame(b, c)
    ensures AllSame(a, c)
  {
    forall x | x in a ensures SameButPos(a[x], c[x]) {
      assert SameButPos(a[x], b[x]) && SameButPos(b[x], c[x]);
    }
  }

  lemma RandomEntry(infos: map<nat, Info>, addrs: map<Service, nat>, random: seq<nat>, nextId: nat, n: nat)
    requires IndexOk(infos, addrs, random, nextId) && n < |random|
    ensures random[n] in infos && random[n] !in random[..n]
  {
    assert RandomAt(infos, random, n);
    forall k | 0 <= k < n ensures random[k] != random[n] {
      assert RandomAt(infos, random, k);
    }
  }

  lemma SuitsSame(h: Hashing, a: map<nat, Info>, b: map<nat, Info>, network: Option<nat>, filtered: bool, now: int, id: nat)
    requires AllSame(a, b)
    ensures Suits(h, a, network, filtered, now, id) <==> Suits(h, b, network, filtered, now, id)
  {
    assert id in a ==> SameButPos(a[id], b[id]);
  }

  lemma SuitsIs(h: Hashing, infos: map<nat, Info>, network: Option<nat>, filtered: bool, now: int, id: nat)
    requires id in infos
    ensures Suits(h, infos, network, filtered, now, id) <==>
      (network.Some? ==> h.netClass(infos[id].addr) == network.value) && (filtered ==> !IsTerrible(infos[id], now))
  {
  }

  /** What is listed are different known addresses that suit. */
  lemma Listed(h: Hashing, infos: map<nat, Info>, addrs: map<Service, nat>, random: seq<nat>, nextId: nat, network: Option<nat>,
               filtered: bool, now: int, ids: seq<nat>, r: seq<Service>, first: seq<nat>)
    requires IndexOk(infos, addrs, random, nextId) && |ids| == |r|
    requires forall i :: 0 <= i < |ids| ==> Picked(infos, first, ids[i], r[i]) && Suits(h, infos, network, filtered, now, ids[i])
    requires forall i, j :: 0 <= i < j < |ids| ==> ids[i] != ids[j]
    ensures forall i, j :: 0 <= i < j < |r| ==> r[i] != r[j]
    ensures forall i :: 0 <= i < |r| ==> r[i] in addrs && addrs[r[i]] in infos && (network.Some? ==> h.netClass(r[i]) == network.value)
    ensures forall i :: 0 <= i < |r| && filtered ==> !IsTerrible(infos[addrs[r[i]]], now)
  {
    hide IndexOk, IsTerrible;
    forall i | 0 <= i < |r| ensures r[i] in addrs && addrs[r[i]] == ids[i] && infos[ids[i]].addr == r[i] {
      IndexEntry(infos, addrs, random, nextId, ids[i]);
    }
  }

  /** Once the whole random order has been gone through, every entry that suits is listed. */
  lemma AllListed(h: Hashing, infos: map<nat, Info>, addrs: map<Service, nat>, random: seq<nat>, nextId: nat, network: Option<nat>,
                  filtered: bool, now: int, ids: seq<nat>, r: seq<Service>, id: nat)
    requires IndexOk(infos, addrs, random, nextId) && Suits(h, infos, network, filtered, now, id) && |ids| == |r|
    requires forall i :: 0 <= i < |ids| ==> Picked(infos, random[..|random|], ids[i], r[i])
    requires forall k :: 0 <= k < |random| && Suits(h, infos, network, filtered, now, random[k]) ==> random[k] in ids
    ensures infos[id].addr in r
  {
    hide IsTerrible;
    assert IndexAt(infos, addrs, random, nextId, id);
    var k := infos[id].randomPos;
    assert random[k] == id;
    var i :| 0 <= i < |ids| && ids[i] == id;
    assert Picked(infos, random[..|random|], ids[i], r[i]);
  }

  ghost predicate Suits(h: Hashing, infos: map<nat, Info>, network: Option<nat>, filtered: bool, now: int, id: nat) {
    && id in infos && (network.Some? ==> h.netClass(infos[id].addr) == network.value)
    && (filtered ==> !IsTerrible(infos[id], now))
  }

  lemma NewCollision(h: Hashing, infos: map<nat, Info>, occupied: set<Slot>, collisions: set<nat>, nextId: nat, id: nat)
    requires CollisionsOk(h, infos, occupied, collisions, nextId) && id in infos && id < nextId && h.TriedSlot(infos[id].addr) in occupied
    ensures CollisionsOk(h, infos, occupied, collisions + {id}, nextId)
  {
  }

  lemma EntryFacts(h: Hashing, infos: map<nat, Info>, tried: map<Slot, nat>, news: map<Slot, nat>, loose: set<nat>, id: nat)
    requires TablesOk(h, infos, tried, news, loose) && id in infos
    ensures var e := infos[id]; e.lastTry >= 0 && e.lastSuccess >= 0 && (e.inTried ==> e.lastSuccess > 0)
    ensures var e := infos[id]; 0 <= e.refCount <= NEW_PER_ADDRESS && (!e.inTried && id !in loose ==> e.refCount > 0)
  {
    assert TableAt(h, infos[id], id, tried, news, loose);
  }

  lemma NotLoose(h: Hashing, infos: map<nat, Info>, tried: map<Slot, nat>, news: map<Slot, nat>, loose: set<nat>, id: nat)
    requires TablesOk(h, infos, tried, news, loose) && loose <= {id} && id in infos && infos[id].refCount != 0
    ensures TablesOk(h, infos, tried, news, {})
  {
    forall x | x in infos ensures TableAt(h, infos[x], x, tried, news, {}) {
      assert TableAt(h, infos[x], x, tried, news, loose);
    }
  }

  lemma NoSlots(h: Hashing, infos: map<nat, Info>, tried: map<Slot, nat>, news: map<Slot, nat>, loose: set<nat>, id: nat, s: Slot)
    requires TablesOk(h, infos, tried, news, loose) && id in infos && !infos[id].inTried && infos[id].refCount == 0
    ensures s in news ==> news[s] != id
  {
    assert TableAt(h, infos[id], id, tried, news, loose);
    assert s in news ==> s in SlotsOf(news, news[s]);
  }

  lemma OthersAt(a: map<nat, Info>, b: map<nat, Info>, id: nat, x: nat)
    requires x in a && (a == b || (OthersSame(a, b, id) && x != id))
    ensures x in b && SameButPos(a[x], b[x])
  {
  }

  lemma SameButPosIs(e: Info, e': Info)
    requires SameButPos(e, e')
    ensures e' == e.(randomPos := e'.randomPos)
  {
  }

  /** The `m`-th bucket from `start` does not have the entry. */
  ghost predicate MissesAt(h: Hashing, news: map<Slot, nat>, addr: Service, start: nat, m: nat, id: nat) {
    var s := h.NewSlot(addr, (start + m) % NEW_BUCKETS);
    s in news ==> news[s] != id
  }

  lemma Loosen(h: Hashing, infos: map<nat, Info>, tried: map<Slot, nat>, news: map<Slot, nat>, id: nat)
    requires TablesOk(h, infos, tried, news, {})
    ensures TablesOk(h, infos, tried, news, {id})
  {
    forall x | x in infos ensures TableAt(h, infos[x], x, tried, news, {id}) {
      assert TableAt(h, infos[x], x, tried, news, {});
    }
  }

  /** Going once through all buckets finds every slot of an entry. */
  lemma AllVisited(h: Hashing, infos: map<nat, Info>, tried: map<Slot, nat>, news: map<Slot, nat>, loose: set<nat>, id: nat, start: nat)
    requires TablesOk(h, infos, tried, news, loose) && id in infos && !infos[id].inTried && start < NEW_BUCKETS
    requires forall m :: 0 <= m < NEW_BUCKETS ==> MissesAt(h, news, infos[id].addr, start, m, id)
    ensures infos[id].refCount == 0
  {
    TableEntry(h, infos, tried, news, loose, id);
    forall s ensures s !in SlotsOf(news, id) {
      assert s in news && news[s] == id ==> NewAt(h, infos, news, s);
      if 0 <= s.bucket < NEW_BUCKETS {
        var m := if s.bucket >= start then s.bucket - start else s.bucket - start + NEW_BUCKETS;
        assert (start + m) % NEW_BUCKETS == s.bucket;
        assert MissesAt(h, news, infos[id].addr, start, m, id);
      }
    }
    assert SlotsOf(news, id) == {};
  }

  lemma NewBucketInRange(h: Hashing, addr: Service, source: nat)
    requires h.InRange()
    ensures h.newBucket(addr, source) < NEW_BUCKETS
  {
  }

  lemma OthersRefl(infos: map<nat, Info>, id: nat)
    ensures OthersSame(infos, infos, id)
  {
  }

  lemma TriedEntry(h: Hashing, infos: map<nat, Info>, tried: map<Slot, nat>, news: map<Slot, nat>, loose: set<nat>, s: Slot)
    requires TablesOk(h, infos, tried, news, loose) && s in tried
    ensures TriedAt(h, infos, tried, s)
  {
  }

  lemma IndexEntry(infos: map<nat, Info>, addrs: map<Service, nat>, random: seq<nat>, nextId: nat, id: nat)
    requires IndexOk(infos, addrs, random, nextId) && id in infos
    ensures IndexAt(infos, addrs, random, nextId, id)
  {
  }

  lemma SwappedOthers(a: map<nat, Info>, b: map<nat, Info>, id: nat)
    requires AllSame(a, b)
    ensures OthersSame(a, b - {id}, id) && a.Keys == b.Keys && (id in a ==> SameButPos(a[id], b[id]))
  {
  }

  lemma LastInOrder(infos: map<nat, Info>, addrs: map<Service, nat>, random: seq<nat>, nextId: nat)
    requires IndexOk(infos, addrs, random, nextId) && random != []
    ensures RandomAt(infos, random, |random| - 1)
  {
  }

  lemma NotInCollisions(h: Hashing, infos: map<nat, Info>, occupied: set<Slot>, collisions: set<nat>, nextId: nat)
    requires CollisionsOk(h, infos, occupied, collisions, nextId)
    ensures nextId !in collisions
  {
  }

  lemma NewEntry(h: Hashing, infos: map<nat, Info>, tried: map<Slot, nat>, news: map<Slot, nat>, loose: set<nat>, s: Slot)
    requires TablesOk(h, infos, tried, news, loose) && s in news
    ensures NewAt(h, infos, news, s) && infos[news[s]].refCount > 0
  {
    assert NewAt(h, infos, news, s);
    assert TableAt(h, infos[news[s]], news[s], tried, news, loose);
    assert s in SlotsOf(news, news[s]);
  }

  lemma EmptyCounters(h: Hashing)
    ensures CountersOk(h, map[], 0, 0, map[], {})
  {
    assert forall t :: Bag(map[], {}, t) == {};
    assert forall t, net :: NetBag(h, map[], {}, t, net) == {};
  }
}
