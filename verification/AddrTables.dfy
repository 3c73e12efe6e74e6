/** The redundant indexes of the address manager, as values, and what keeps them consistent. */
module AddrTables {

  const TRIED_BUCKETS := 256
  const NEW_BUCKETS := 1024
  const BUCKET_SIZE := 64
  const NEW_PER_ADDRESS := 8

  /** An address with its port, by which entries are found. */
  datatype Service = Service(ip: nat, port: nat)

  datatype Info = Info(
    addr: Service, source: nat, services: set<nat>, time: int, lastTry: int, lastCountAttempt: int, lastSuccess: int, attempts: int,
    refCount: int, inTried: bool, randomPos: int)

  /** A place in a table. A place that is empty is not in the map for the table. */
  datatype Slot = Slot(bucket: int, pos: int)

  datatype Counts = Counts(nNew: int, nTried: int)

  /** What the secret key and the map of network groups make of an address. */
  datatype Hashing = Hashing(
    key: nat, triedBucket: Service -> nat, newBucket: (Service, nat) -> nat, position: (bool, int, Service) -> nat,
    network: Service -> nat, netClass: Service -> nat, routable: Service -> bool, valid: Service -> bool)
  {
    ghost predicate InRange() {
      && (forall a :: triedBucket(a) < TRIED_BUCKETS)
      && (forall a, s :: newBucket(a, s) < NEW_BUCKETS)
      && (forall isNew, b, a :: position(isNew, b, a) < BUCKET_SIZE)
    }

    function TriedSlot(a: Service): Slot {
      Slot(triedBucket(a), position(false, triedBucket(a), a))
    }

    function NewSlot(a: Service, bucket: int): Slot {
      Slot(bucket, position(true, bucket, a))
    }
  }

  // ----- ids, addresses and the random order -----

  ghost predicate IndexAt(infos: map<nat, Info>, addrs: map<Service, nat>, random: seq<nat>, nextId: nat, id: nat)
    requires id in infos
  {
    var e := infos[id];
    0 <= id < nextId && e.addr in addrs && addrs[e.addr] == id && 0 <= e.randomPos < |random| && random[e.randomPos] == id
  }

  ghost predicate RandomAt(infos: map<nat, Info>, random: seq<nat>, k: int)
    requires 0 <= k < |random|
  {
    random[k] in infos && infos[random[k]].randomPos == k
  }

  /** Addresses and ids, and ids and positions of the random order, are inverse to each other. */
  ghost predicate IndexOk(infos: map<nat, Info>, addrs: map<Service, nat>, random: seq<nat>, nextId: nat) {
    && nextId >= 0
    && (forall id :: id in infos ==> IndexAt(infos, addrs, random, nextId, id))
    && (forall a :: a in addrs ==> addrs[a] in infos && infos[addrs[a]].addr == a)
    && (forall k :: 0 <= k < |random| ==> RandomAt(infos, random, k))
  }

  // ----- the tables -----

  ghost function SlotsOf(news: map<Slot, nat>, id: nat): set<Slot> {
    set s | s in news && news[s] == id
  }

  /** A tried entry is in its slot; a new one has as many slots as its count says, of which it
      needs at least one unless it is `loose`. */
  ghost predicate TableAt(h: Hashing, e: Info, id: nat, tried: map<Slot, nat>, news: map<Slot, nat>, loose: set<nat>) {
    && e.lastTry >= 0 && e.lastSuccess >= 0
    && if e.inTried then
         e.refCount == 0 && e.lastSuccess > 0 && h.TriedSlot(e.addr) in tried && tried[h.TriedSlot(e.addr)] == id
       else
         e.refCount == |SlotsOf(news, id)| <= NEW_PER_ADDRESS && (id in loose || e.refCount > 0)
  }

  ghost predicate TriedAt(h: Hashing, infos: map<nat, Info>, tried: map<Slot, nat>, s: Slot)
    requires s in tried
  {
    var id := tried[s];
    id in infos && infos[id].inTried && s == h.TriedSlot(infos[id].addr)
  }

  ghost predicate NewAt(h: Hashing, infos: map<nat, Info>, news: map<Slot, nat>, s: Slot)
    requires s in news
  {
    var id := news[s];
    id in infos && !infos[id].inTried && 0 <= s.bucket < NEW_BUCKETS && s == h.NewSlot(infos[id].addr, s.bucket)
  }

  ghost predicate TablesOk(h: Hashing, infos: map<nat, Info>, tried: map<Slot, nat>, news: map<Slot, nat>, loose: set<nat>) {
    && (forall id :: id in infos ==> TableAt(h, infos[id], id, tried, news, loose))
    && (forall s :: s in tried ==> TriedAt(h, infos, tried, s))
    && (forall s :: s in news ==> NewAt(h, infos, news, s))
  }

  // ----- the counters -----

  ghost function Bag(infos: map<nat, Info>, moving: set<nat>, isTried: bool): set<nat> {
    set id | id in infos && InBag(infos, moving, isTried, id)
  }

  ghost predicate InBag(infos: map<nat, Info>, moving: set<nat>, isTried: bool, id: nat) {
    id in infos && id !in moving && infos[id].inTried == isTried
  }

  ghost function NetBag(h: Hashing, infos: map<nat, Info>, moving: set<nat>, isTried: bool, net: nat): set<nat> {
    set id | id in infos && InBag(infos, moving, isTried, id) && h.network(infos[id].addr) == net
  }

  function CountOf(counts: map<nat, Counts>, net: nat): Counts {
    if net in counts then counts[net] else Counts(0, 0)
  }

  function Bump(counts: map<nat, Counts>, net: nat, isTried: bool, delta: int): map<nat, Counts> {
    var c := CountOf(counts, net);
    counts[net := if isTried then c.(nTried := c.nTried + delta) else c.(nNew := c.nNew + delta)]
  }

  ghost predicate NetOk(h: Hashing, infos: map<nat, Info>, counts: map<nat, Counts>, moving: set<nat>, net: nat) {
    CountOf(counts, net) == Counts(|NetBag(h, infos, moving, false, net)|, |NetBag(h, infos, moving, true, net)|)
  }

  /** All counts are right, if entries that are being moved count nowhere. */
  ghost predicate CountersOk(h: Hashing, infos: map<nat, Info>, newCount: int, triedCount: int, counts: map<nat, Counts>, moving: set<nat>) {
    && newCount == |Bag(infos, moving, false)| && triedCount == |Bag(infos, moving, true)|
    && forall net :: NetOk(h, infos, counts, moving, net)
  }

  /** Entries that wait for a tried slot find it occupied. */
  ghost predicate CollisionsOk(h: Hashing, infos: map<nat, Info>, occupied: set<Slot>, collisions: set<nat>, nextId: nat) {
    forall id :: id in collisions ==> id < nextId && (id in infos ==> h.TriedSlot(infos[id].addr) in occupied)
  }

  /** They do so as long as no tried slot becomes empty and no id is used again. */
  lemma CollisionsKept(h: Hashing, infos: map<nat, Info>, occupied: set<Slot>, collisions: set<nat>, nextId: nat,
                       infos': map<nat, Info>, occupied': set<Slot>, nextId': nat)
    requires CollisionsOk(h, infos, occupied, collisions, nextId) && nextId <= nextId' && occupied <= occupied'
    requires forall x :: x in infos' && x < nextId ==> x in infos && infos'[x].addr == infos[x].addr
    ensures CollisionsOk(h, infos', occupied', collisions, nextId')
  {
  }

  // ----- changes that concern one predicate only -----

  ghost predicate SameButPos(e: Info, e': Info) {
    e' == e.(randomPos := e'.randomPos)
  }

  /** `b` has the entries of `a` except perhaps `id`, at any position of the random order. */
  ghost predicate OthersSame(a: map<nat, Info>, b: map<nat, Info>, id: nat) {
    && (forall x :: x in b && x != id ==> x in a)
    && (forall x :: x in a && x != id ==> x in b && SameButPos(a[x], b[x]))
  }

  lemma OthersTrans(a: map<nat, Info>, b: map<nat, Info>, c: map<nat, Info>, id: nat)
    requires OthersSame(a, b, id) && OthersSame(b, c, id)
    ensures OthersSame(a, c, id)
  {
  }

  lemma OthersUpdate(a: map<nat, Info>, id: nat, e: Info)
    ensures OthersSame(a, a[id := e], id) && OthersSame(a, a - {id}, id)
  {
  }

  ghost predicate AllSame(a: map<nat, Info>, b: map<nat, Info>) {
    a.Keys == b.Keys && forall x :: x in a ==> SameButPos(a[x], b[x])
  }

  lemma PosIrrelevant(h: Hashing, a: map<nat, Info>, b: map<nat, Info>, tried: map<Slot, nat>, news: map<Slot, nat>, loose: set<nat>,
                      newCount: int, triedCount: int, counts: map<nat, Counts>, moving: set<nat>, collisions: set<nat>)
    requires AllSame(a, b)
    ensures TablesOk(h, a, tried, news, loose) ==> TablesOk(h, b, tried, news, loose)
    ensures CountersOk(h, a, newCount, triedCount, counts, moving) ==> CountersOk(h, b, newCount, triedCount, counts, moving)
    ensures forall occupied, next :: CollisionsOk(h, a, occupied, collisions, next) ==> CollisionsOk(h, b, occupied, collisions, next)
  {
    if TablesOk(h, a, tried, news, loose) {
      forall id | id in b ensures TableAt(h, b[id], id, tried, news, loose) {
        assert TableAt(h, a[id], id, tried, news, loose);
      }
      forall s | s in tried ensures TriedAt(h, b, tried, s) {
        assert TriedAt(h, a, tried, s);
      }
      forall s | s in news ensures NewAt(h, b, news, s) {
        assert NewAt(h, a, news, s);
      }
    }
    BagsSame(h, a, b, moving);
    if CountersOk(h, a, newCount, triedCount, counts, moving) {
      forall net ensures NetOk(h, b, counts, moving, net) {
        assert NetOk(h, a, counts, moving, net);
      }
    }
  }

  lemma BagsSame(h: Hashing, a: map<nat, Info>, b: map<nat, Info>, moving: set<nat>)
    requires a.Keys == b.Keys && forall x :: x in a ==> a[x].addr == b[x].addr && a[x].inTried == b[x].inTried
    ensures forall t :: Bag(a, moving, t) == Bag(b, moving, t)
    ensures forall t, net :: NetBag(h, a, moving, t, net) == NetBag(h, b, moving, t, net)
  {
    assert forall t, x :: InBag(a, moving, t, x) <==> InBag(b, moving, t, x);
    assert forall t :: Bag(a, moving, t) == Bag(b, moving, t);
    assert forall t, net :: NetBag(h, a, moving, t, net) == NetBag(h, b, moving, t, net);
  }

  // ----- changes to the index -----

  /** Changing anything but address and position leaves the index alone. */
  lemma IndexTouch(infos: map<nat, Info>, addrs: map<Service, nat>, random: seq<nat>, nextId: nat, id: nat, e: Info)
    requires IndexOk(infos, addrs, random, nextId) && id in infos && e.addr == infos[id].addr && e.randomPos == infos[id].randomPos
    ensures IndexOk(infos[id := e], addrs, random, nextId)
  {
    var b := infos[id := e];
    forall x | x in b ensures IndexAt(b, addrs, random, nextId, x) {
      assert IndexAt(infos, addrs, random, nextId, x);
    }
    forall k | 0 <= k < |random| ensures RandomAt(b, random, k) {
      assert RandomAt(infos, random, k);
    }
  }

  lemma IndexCreate(infos: map<nat, Info>, addrs: map<Service, nat>, random: seq<nat>, nextId: nat, e: Info)
    requires IndexOk(infos, addrs, random, nextId) && e.addr !in addrs && e.randomPos == |random|
    ensures nextId !in infos
    ensures IndexOk(infos[nextId := e], addrs[e.addr := nextId], random + [nextId], nextId + 1)
  {
    assert nextId in infos ==> IndexAt(infos, addrs, random, nextId, nextId);
    var b, addrs', random' := infos[nextId := e], addrs[e.addr := nextId], random + [nextId];
    forall x | x in b ensures IndexAt(b, addrs', random', nextId + 1, x) {
      assert x != nextId ==> IndexAt(infos, addrs, random, nextId, x);
    }
    forall k | 0 <= k < |random'| ensures RandomAt(b, random', k) {
      assert k < |random| ==> RandomAt(infos, random, k);
    }
  }

  /** Exchange two positions of the random order. */
  function Swapped(infos: map<nat, Info>, random: seq<nat>, i: nat, j: nat): (r: (map<nat, Info>, seq<nat>))
    requires i < |random| && j < |random| && random[i] in infos && random[j] in infos
  {
    if i == j then (infos, random) else
    var a, b := random[i], random[j];
    var infos1 := infos[a := infos[a].(randomPos := j)];
    (infos1[b := infos1[b].(randomPos := i)], random[i := b][j := a])
  }

  lemma IndexSwap(infos: map<nat, Info>, addrs: map<Service, nat>, random: seq<nat>, nextId: nat, i: nat, j: nat)
    requires IndexOk(infos, addrs, random, nextId) && i < |random| && j < |random|
    ensures random[i] in infos && random[j] in infos
    ensures var (infos', random') := Swapped(infos, random, i, j);
      IndexOk(infos', addrs, random', nextId) && AllSame(infos, infos') && |random'| == |random| && random'[i] == random[j]
  {
    assert RandomAt(infos, random, i) && RandomAt(infos, random, j);
    var (infos', random') := Swapped(infos, random, i, j);
    forall x | x in infos' ensures IndexAt(infos', addrs, random', nextId, x) {
      assert IndexAt(infos, addrs, random, nextId, x);
    }
    forall k | 0 <= k < |random'| ensures RandomAt(infos', random', k) {
      assert RandomAt(infos, random, k);
    }
  }

  /** Remove the entry at the end of the random order. */
  lemma IndexDelete(infos: map<nat, Info>, addrs: map<Service, nat>, random: seq<nat>, nextId: nat, id: nat)
    requires IndexOk(infos, addrs, random, nextId) && id in infos && infos[id].randomPos == |random| - 1
    ensures |random| > 0
    ensures IndexOk(infos - {id}, addrs - {infos[id].addr}, random[..|random| - 1], nextId)
  {
    assert IndexAt(infos, addrs, random, nextId, id);
    var b, addrs', random' := infos - {id}, addrs - {infos[id].addr}, random[..|random| - 1];
    forall x | x in b ensures IndexAt(b, addrs', random', nextId, x) {
      assert IndexAt(infos, addrs, random, nextId, x);
    }
    forall k | 0 <= k < |random'| ensures RandomAt(b, random', k) {
      assert RandomAt(infos, random, k);
    }
  }

  /** The random order has every entry just once. */
  lemma {:induction false} RandomCount(infos: map<nat, Info>, addrs: map<Service, nat>, random: seq<nat>, nextId: nat)
    requires IndexOk(infos, addrs, random, nextId)
    ensures |random| == |infos|
    decreases |random|
  {
    if random == [] {
      forall x: nat ensures x !in infos.Keys {
        NoEntry(infos, addrs, nextId, x);
      }
      assert infos.Keys == {};
    } else {
      var id := random[|random| - 1];
      assert RandomAt(infos, random, |random| - 1);
      IndexDelete(infos, addrs, random, nextId, id);
      RandomCount(infos - {id}, addrs - {infos[id].addr}, random[..|random| - 1], nextId);
      assert infos.Keys == (infos - {id}).Keys + {id};
    }
  }

  lemma NoEntry(infos: map<nat, Info>, addrs: map<Service, nat>, nextId: nat, x: nat)
    requires IndexOk(infos, addrs, [], nextId)
    ensures x !in infos
  {
  }

  // ----- changes to the counters -----

  /** One entry begins (`delta` 1) or ceases (`delta` -1) to count. */
  lemma CountersChange(h: Hashing, a: map<nat, Info>, b: map<nat, Info>, newCount: int, triedCount: int, counts: map<nat, Counts>,
                       before: set<nat>, after: set<nat>, id: nat, e: Info, delta: int)
    requires CountersOk(h, a, newCount, triedCount, counts, before) && OthersSame(a, b, id)
    requires forall x :: x != id ==> (x in before <==> x in after)
    requires delta == 1 ==> (id in a ==> id in before) && id in b && id !in after && b[id] == e
    requires delta == -1 ==> (id in b ==> id in after) && id in a && id !in before && a[id] == e
    requires delta == 1 || delta == -1
    ensures CountersOk(h, b, newCount + (if e.inTried then 0 else delta), triedCount + (if e.inTried then delta else 0),
                       Bump(counts, h.network(e.addr), e.inTried, delta), after)
  {
    BagChange(a, b, before, after, id, e, delta, true);
    BagChange(a, b, before, after, id, e, delta, false);
    var counts' := Bump(counts, h.network(e.addr), e.inTried, delta);
    forall net ensures NetOk(h, b, counts', after, net) {
      assert NetOk(h, a, counts, before, net);
      NetBagChange(h, a, b, before, after, id, e, delta, true, net);
      NetBagChange(h, a, b, before, after, id, e, delta, false, net);
    }
  }

  lemma BagChange(a: map<nat, Info>, b: map<nat, Info>, before: set<nat>, after: set<nat>, id: nat, e: Info, delta: int, isTried: bool)
    requires OthersSame(a, b, id) && forall x :: x != id ==> (x in before <==> x in after)
    requires delta == 1 ==> (id in a ==> id in before) && id in b && id !in after && b[id] == e
    requires delta == -1 ==> (id in b ==> id in after) && id in a && id !in before && a[id] == e
    requires delta == 1 || delta == -1
    ensures |Bag(b, after, isTried)| == |Bag(a, before, isTried)| + if e.inTried == isTried then delta else 0
  {
    hide SameButPos, InBag;
    OthersInBag(a, b, before, after, id, isTried);
    SetChange(Bag(a, before, isTried), Bag(b, after, isTried), id);
    assert InBag(a, before, isTried, id) <==> delta == -1 && e.inTried == isTried by { InBagIs(a, before, isTried, id); }
    assert InBag(b, after, isTried, id) <==> delta == 1 && e.inTried == isTried by { InBagIs(b, after, isTried, id); }
  }

  lemma InBagIs(infos: map<nat, Info>, moving: set<nat>, isTried: bool, id: nat)
    ensures InBag(infos, moving, isTried, id) <==> id in infos && id !in moving && infos[id].inTried == isTried
  {
  }

  lemma OthersInBag(a: map<nat, Info>, b: map<nat, Info>, before: set<nat>, after: set<nat>, id: nat, isTried: bool)
    requires OthersSame(a, b, id) && forall x :: x != id ==> (x in before <==> x in after)
    ensures forall k :: k != id ==> (InBag(a, before, isTried, k) <==> InBag(b, after, isTried, k))
    ensures forall k :: k != id && k in a && k in b ==> a[k].addr == b[k].addr
  {
    forall k | k != id ensures InBag(a, before, isTried, k) <==> InBag(b, after, isTried, k) {
      assert k in a <==> k in b;
      assert k in a ==> SameButPos(a[k], b[k]);
    }
  }

  lemma SetChange(x: set<nat>, y: set<nat>, id: nat)
    requires forall k :: k != id ==> (k in x <==> k in y)
    ensures |y| + (if id in x then 1 else 0) == |x| + (if id in y then 1 else 0)
  {
    assert forall k :: k in x - {id} ==> k in x && k != id && k in y;
    assert forall k :: k in y - {id} ==> k in y && k != id && k in x;
    assert x - {id} == y - {id};
    assert id in x ==> x == (x - {id}) + {id};
    assert id in y ==> y == (y - {id}) + {id};
    assert id !in x ==> x == x - {id};
    assert id !in y ==> y == y - {id};
  }

  lemma NetBagChange(h: Hashing, a: map<nat, Info>, b: map<nat, Info>, before: set<nat>, after: set<nat>, id: nat, e: Info, delta: int, isTried: bool, net: nat)
    requires OthersSame(a, b, id) && forall x :: x != id ==> (x in before <==> x in after)
    requires delta == 1 ==> (id in a ==> id in before) && id in b && id !in after && b[id] == e
    requires delta == -1 ==> (id in b ==> id in after) && id in a && id !in before && a[id] == e
    requires delta == 1 || delta == -1
    ensures |NetBag(h, b, after, isTried, net)|
         == |NetBag(h, a, before, isTried, net)| + if e.inTried == isTried && h.network(e.addr) == net then delta else 0
  {
    hide SameButPos, InBag;
    OthersInBag(a, b, before, after, id, isTried);
    SetChange(NetBag(h, a, before, isTried, net), NetBag(h, b, after, isTried, net), id);
    assert InBag(a, before, isTried, id) <==> delta == -1 && e.inTried == isTried by { InBagIs(a, before, isTried, id); }
    assert InBag(b, after, isTried, id) <==> delta == 1 && e.inTried == isTried by { InBagIs(b, after, isTried, id); }
  }

  /** Changes to an entry that do not concern the counters. */
  lemma CountersTouch(h: Hashing, infos: map<nat, Info>, newCount: int, triedCount: int, counts: map<nat, Counts>, moving: set<nat>, id: nat, e: Info)
    requires CountersOk(h, infos, newCount, triedCount, counts, moving) && id in infos
    requires e.addr == infos[id].addr && (e.inTried == infos[id].inTried || id in moving)
    ensures CountersOk(h, infos[id := e], newCount, triedCount, counts, moving)
  {
    var b := infos[id := e];
    assert forall t :: Bag(infos, moving, t) == Bag(b, moving, t);
    forall net ensures NetOk(h, b, counts, moving, net) {
      assert NetOk(h, infos, counts, moving, net);
      assert forall t :: NetBag(h, infos, moving, t, net) == NetBag(h, b, moving, t, net);
    }
  }

  // ----- changes to the tables -----

  /** What must be checked after a change to one entry, and to the slots that hold it. */
  lemma TablesFrom(h: Hashing, infos: map<nat, Info>, tried: map<Slot, nat>, news: map<Slot, nat>, loose: set<nat>,
                   infos': map<nat, Info>, tried': map<Slot, nat>, news': map<Slot, nat>, loose': set<nat>, id: nat)
    requires TablesOk(h, infos, tried, news, loose) && OthersSame(infos, infos', id)
    requires id in infos' ==> TableAt(h, infos'[id], id, tried', news', loose')
    requires forall x :: x != id ==> SlotsOf(news', x) == SlotsOf(news, x) && (x in loose ==> x in loose')
    requires forall s :: s in tried && tried[s] != id ==> s in tried' && tried'[s] == tried[s]
    requires forall s :: s in tried' && tried'[s] != id ==> s in tried && tried[s] == tried'[s]
    requires forall s :: s in tried' && tried'[s] == id ==> TriedAt(h, infos', tried', s)
    requires forall s :: s in news' && news'[s] == id ==> NewAt(h, infos', news', s)
    ensures TablesOk(h, infos', tried', news', loose')
  {
    hide SlotsOf;
    forall x | x in infos' ensures TableAt(h, infos'[x], x, tried', news', loose') {
      if x != id {
        assert SameButPos(infos[x], infos'[x]) && TableAt(h, infos[x], x, tried, news, loose);
      }
    }
    forall s | s in tried' ensures TriedAt(h, infos', tried', s) {
      if tried'[s] != id {
        assert TriedAt(h, infos, tried, s) && SameButPos(infos[tried[s]], infos'[tried[s]]);
      }
    }
    forall s | s in news' ensures NewAt(h, infos', news', s) {
      if news'[s] != id {
        SlotIn(news', s);
        SlotIs(news, s, news'[s]);
        assert NewAt(h, infos, news, s) && SameButPos(infos[news[s]], infos'[news[s]]);
      }
    }
  }

  lemma SlotIn(news: map<Slot, nat>, s: Slot)
    requires s in news
    ensures s in SlotsOf(news, news[s])
  {
  }

  lemma SlotIs(news: map<Slot, nat>, s: Slot, id: nat)
    requires s in SlotsOf(news, id)
    ensures s in news && news[s] == id
  {
  }

  lemma TableEntry(h: Hashing, infos: map<nat, Info>, tried: map<Slot, nat>, news: map<Slot, nat>, loose: set<nat>, id: nat)
    requires TablesOk(h, infos, tried, news, loose) && id in infos
    ensures TableAt(h, infos[id], id, tried, news, loose)
    ensures infos[id].inTried ==> SlotsOf(news, id) == {}
    ensures forall s :: s in tried && tried[s] == id ==> infos[id].inTried && s == h.TriedSlot(infos[id].addr)
    ensures forall s :: s in news && news[s] == id ==> NewAt(h, infos, news, s)
  {
    forall s | s in tried && tried[s] == id ensures infos[id].inTried && s == h.TriedSlot(infos[id].addr) {
      assert TriedAt(h, infos, tried, s);
    }
    forall s | s in news && news[s] == id ensures !infos[id].inTried {
      assert NewAt(h, infos, news, s);
    }
  }

  /** Changes to an entry that do not concern the tables. */
  lemma TablesTouch(h: Hashing, infos: map<nat, Info>, tried: map<Slot, nat>, news: map<Slot, nat>, loose: set<nat>, id: nat, e: Info)
    requires TablesOk(h, infos, tried, news, loose) && id in infos
    requires e.addr == infos[id].addr && e.inTried == infos[id].inTried && e.refCount == infos[id].refCount
    requires e.lastTry >= 0 && e.lastSuccess >= 0 && (e.inTried ==> e.lastSuccess > 0)
    ensures TablesOk(h, infos[id := e], tried, news, loose)
  {
    TableEntry(h, infos, tried, news, loose, id);
    TablesFrom(h, infos, tried, news, loose, infos[id := e], tried, news, loose, id);
  }

  lemma TablesCreate(h: Hashing, infos: map<nat, Info>, tried: map<Slot, nat>, news: map<Slot, nat>, loose: set<nat>, id: nat, e: Info)
    requires TablesOk(h, infos, tried, news, loose) && id !in infos
    requires !e.inTried && e.refCount == 0 && e.lastTry >= 0 && e.lastSuccess >= 0
    ensures TablesOk(h, infos[id := e], tried, news, loose + {id})
  {
    assert forall s :: s in news ==> NewAt(h, infos, news, s);
    assert forall s :: s in tried ==> TriedAt(h, infos, tried, s);
    assert SlotsOf(news, id) == {};
    TablesFrom(h, infos, tried, news, loose, infos[id := e], tried, news, loose + {id}, id);
  }

  lemma SlotsDrop(news: map<Slot, nat>, s: Slot)
    requires s in news
    ensures s in SlotsOf(news, news[s]) && SlotsOf(news - {s}, news[s]) == SlotsOf(news, news[s]) - {s}
    ensures |SlotsOf(news - {s}, news[s])| == |SlotsOf(news, news[s])| - 1
    ensures forall x :: x != news[s] ==> SlotsOf(news - {s}, x) == SlotsOf(news, x)
  {
  }

  lemma SlotsAdd(news: map<Slot, nat>, s: Slot, id: nat)
    requires s !in news
    ensures s !in SlotsOf(news, id) && SlotsOf(news[s := id], id) == SlotsOf(news, id) + {s}
    ensures |SlotsOf(news[s := id], id)| == |SlotsOf(news, id)| + 1
    ensures forall x :: x != id ==> SlotsOf(news[s := id], x) == SlotsOf(news, x)
  {
  }

  /** Empty a slot of the new table, and count it off. */
  lemma TablesDrop(h: Hashing, infos: map<nat, Info>, tried: map<Slot, nat>, news: map<Slot, nat>, loose: set<nat>, s: Slot, e: Info)
    requires TablesOk(h, infos, tried, news, loose) && s in news && news[s] in infos
    requires e == infos[news[s]].(refCount := infos[news[s]].refCount - 1)
    ensures e.refCount >= 0 && !e.inTried
    ensures TablesOk(h, infos[news[s] := e], tried, news - {s}, if e.refCount > 0 then loose else loose + {news[s]})
  {
    hide SlotsOf;
    var id, news' := news[s], news - {s};
    TableEntry(h, infos, tried, news, loose, id);
    SlotsDrop(news, s);
    TablesFrom(h, infos, tried, news, loose, infos[id := e], tried, news', if e.refCount > 0 then loose else loose + {id}, id);
  }

  /** Put an entry into an empty slot of the new table, and count it. */
  lemma TablesAdd(h: Hashing, infos: map<nat, Info>, tried: map<Slot, nat>, news: map<Slot, nat>, loose: set<nat>, s: Slot, id: nat, e: Info)
    requires TablesOk(h, infos, tried, news, loose) && s !in news && id in infos
    requires 0 <= s.bucket < NEW_BUCKETS && s == h.NewSlot(infos[id].addr, s.bucket)
    requires !infos[id].inTried && infos[id].refCount < NEW_PER_ADDRESS && e == infos[id].(refCount := infos[id].refCount + 1)
    ensures TablesOk(h, infos[id := e], tried, news[s := id], loose - {id})
  {
    hide SlotsOf;
    var news' := news[s := id];
    TableEntry(h, infos, tried, news, loose, id);
    SlotsAdd(news, s, id);
    TablesFrom(h, infos, tried, news, loose, infos[id := e], tried, news', loose - {id}, id);
  }

  lemma TablesDelete(h: Hashing, infos: map<nat, Info>, tried: map<Slot, nat>, news: map<Slot, nat>, loose: set<nat>, id: nat)
    requires TablesOk(h, infos, tried, news, loose) && id in infos && !infos[id].inTried && infos[id].refCount == 0
    ensures TablesOk(h, infos - {id}, tried, news, loose - {id})
  {
    TableEntry(h, infos, tried, news, loose, id);
    assert forall s :: s in news && news[s] == id ==> s in SlotsOf(news, id);
    TablesFrom(h, infos, tried, news, loose, infos - {id}, tried, news, loose - {id}, id);
  }

  /** Take an entry out of its tried slot. */
  lemma TablesEvict(h: Hashing, infos: map<nat, Info>, tried: map<Slot, nat>, news: map<Slot, nat>, loose: set<nat>, s: Slot, e: Info)
    requires TablesOk(h, infos, tried, news, loose) && s in tried && tried[s] in infos
    requires e == infos[tried[s]].(inTried := false)
    ensures TablesOk(h, infos[tried[s] := e], tried - {s}, news, loose + {tried[s]}) && e.refCount == 0 && e.lastSuccess > 0
  {
    var id := tried[s];
    TableEntry(h, infos, tried, news, loose, id);
    assert forall p :: p in news && news[p] == id ==> p in SlotsOf(news, id);
    TablesFrom(h, infos, tried, news, loose, infos[id := e], tried - {s}, news, loose + {id}, id);
  }

  /** Put an entry that is in no slot into its tried slot. */
  lemma TablesTry(h: Hashing, infos: map<nat, Info>, tried: map<Slot, nat>, news: map<Slot, nat>, loose: set<nat>, id: nat, e: Info)
    requires TablesOk(h, infos, tried, news, loose) && id in infos && h.TriedSlot(infos[id].addr) !in tried
    requires !infos[id].inTried && infos[id].refCount == 0 && infos[id].lastSuccess > 0 && e == infos[id].(inTried := true)
    ensures TablesOk(h, infos[id := e], tried[h.TriedSlot(e.addr) := id], news, loose - {id})
  {
    TableEntry(h, infos, tried, news, loose, id);
    assert forall p :: p in news && news[p] == id ==> p in SlotsOf(news, id);
    TablesFrom(h, infos, tried, news, loose, infos[id := e], tried[h.TriedSlot(e.addr) := id], news, loose - {id}, id);
  }
}
