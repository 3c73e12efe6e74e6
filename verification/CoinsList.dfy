/** Cache entries, and the doubly linked list that joins the flagged ones. */
module CoinsLists {
  import opened Collections

  datatype OutPoint = OutPoint(txid: nat, n: nat)

  /** A spent coin is nulled out; an unspent one has an amount and a script of some size. */
  datatype Coin = Spent | Unspent(value: nat, height: nat, coinbase: bool, usage: nat, unspendable: bool) {
    function DynamicMemoryUsage(): nat { if Spent? then 0 else usage }
  }

  /** A pointer of the list: to nothing, to the sentinel, or to the entry of an outpoint. */
  datatype Link = Null | Sentinel | Node(o: OutPoint)

  datatype Entry = Entry(coin: Coin, isDirty: bool, isFresh: bool, prev: Link, next: Link) {
    predicate Flagged() { isDirty || isFresh }
  }

  /** Entries by outpoint, and the two pointers of the sentinel. */
  datatype Table = Table(entries: map<OutPoint, Entry>, first: Link, last: Link)

  ghost function LinkAt(list: seq<OutPoint>, i: int): Link {
    if 0 <= i < |list| then Node(list[i]) else Sentinel
  }

  /** The entry at position `i` of the list points to its neighbours. */
  ghost predicate LinksOk(t: Table, list: seq<OutPoint>, i: int)
    requires 0 <= i < |list|
  {
    && list[i] in t.entries
    && t.entries[list[i]].prev == LinkAt(list, i - 1) && t.entries[list[i]].next == LinkAt(list, i + 1)
  }

  /** An entry is in the list just when it is flagged, and otherwise points nowhere. */
  ghost predicate MemberOk(t: Table, list: seq<OutPoint>, o: OutPoint)
    requires o in t.entries
  {
    && (o in list <==> t.entries[o].Flagged())
    && (!t.entries[o].Flagged() ==> t.entries[o].prev == t.entries[o].next == Null)
  }

  /** The list goes through exactly the flagged entries, the same way in both directions. */
  ghost predicate ListOk(t: Table, list: seq<OutPoint>) {
    && Distinct(list)
    && t.first == LinkAt(list, 0) && t.last == LinkAt(list, |list| - 1)
    && (forall o :: o in t.entries ==> MemberOk(t, list, o))
    && (forall i :: 0 <= i < |list| ==> LinksOk(t, list, i))
  }

  /** Write the `next` pointer of what `at` points to. */
  function SetNext(t: Table, at: Link, to: Link): Table
    requires at.Node? ==> at.o in t.entries
  {
    match at
    case Null => t
    case Sentinel => t.(first := to)
    case Node(o) => t.(entries := t.entries[o := t.entries[o].(next := to)])
  }

  /** Write the `prev` pointer of what `at` points to. */
  function SetPrev(t: Table, at: Link, to: Link): Table
    requires at.Node? ==> at.o in t.entries
  {
    match at
    case Null => t
    case Sentinel => t.(last := to)
    case Node(o) => t.(entries := t.entries[o := t.entries[o].(prev := to)])
  }

  /** Set flags of an entry, linking it in at the end if it had none. */
  function AddFlags(t: Table, o: OutPoint, isDirty: bool, isFresh: bool): Table
    requires o in t.entries && (isDirty || isFresh)
    requires t.entries[o].Flagged() || (t.last.Node? ==> t.last.o in t.entries)
  {
    var linked :=
      if t.entries[o].Flagged() then t else
      var t1 := t.(entries := t.entries[o := t.entries[o].(prev := t.last, next := Sentinel)]);
      var back := t1.entries[o].prev;
      SetNext(t1.(last := Node(o)), back, Node(o));
    var e := linked.entries[o];
    linked.(entries := linked.entries[o := e.(isDirty := e.isDirty || isDirty, isFresh := e.isFresh || isFresh)])
  }

  /** Clear all flags of an entry, taking it out of the list. */
  function SetClean(t: Table, o: OutPoint): Table
    requires o in t.entries
    requires t.entries[o].Flagged() ==>
      && (t.entries[o].next.Node? ==> t.entries[o].next.o in t.entries)
      && (t.entries[o].prev.Node? ==> t.entries[o].prev.o in t.entries)
  {
    var e := t.entries[o];
    if !e.Flagged() then t else
    var t2 := SetNext(SetPrev(t, e.next, e.prev), e.prev, e.next);
    t2.(entries := t2.entries[o := t2.entries[o].(isDirty := false, isFresh := false, prev := Null, next := Null)])
  }

  /** Erasing an entry from the map runs its destructor, which unlinks it. */
  function Erase(t: Table, o: OutPoint): Table
    requires o in t.entries
    requires t.entries[o].Flagged() ==>
      && (t.entries[o].next.Node? ==> t.entries[o].next.o in t.entries)
      && (t.entries[o].prev.Node? ==> t.entries[o].prev.o in t.entries)
  {
    var t1 := SetClean(t, o);
    t1.(entries := t1.entries - {o})
  }

  /** Entries agree in everything but list pointers. */
  ghost predicate SameButLinks(e: Entry, e': Entry) {
    e'.coin == e.coin && e'.isDirty == e.isDirty && e'.isFresh == e.isFresh
  }

  ghost predicate OthersSame(t: Table, t': Table, o: OutPoint) {
    forall x :: x in t.entries && x != o ==> x in t'.entries && SameButLinks(t.entries[x], t'.entries[x])
  }

  lemma LastKnown(t: Table, list: seq<OutPoint>)
    requires ListOk(t, list)
    ensures t.last.Node? ==> list != [] && t.last.o == list[|list| - 1] && t.last.o in t.entries
  {
    assert list != [] ==> LinksOk(t, list, |list| - 1);
  }

  /** What linking in a new entry leaves at each place. */
  lemma AddFlagsAt(t: Table, list: seq<OutPoint>, o: OutPoint, isDirty: bool, isFresh: bool, i: nat)
    requires ListOk(t, list) && o in t.entries && (isDirty || isFresh) && !t.entries[o].Flagged() && i <= |list|
    ensures t.last.Node? ==> t.last.o in t.entries
    ensures LinksOk(AddFlags(t, o, isDirty, isFresh), list + [o], i)
  {
    LastKnown(t, list);
    assert MemberOk(t, list, o);
    if i < |list| {
      assert LinksOk(t, list, i);
      assert list[i] in list;
      assert i < |list| - 1 ==> list[i] != list[|list| - 1];
    }
  }

  lemma AddFlagsOthers(t: Table, list: seq<OutPoint>, o: OutPoint, isDirty: bool, isFresh: bool)
    requires ListOk(t, list) && o in t.entries && (isDirty || isFresh)
    ensures t.last.Node? ==> t.last.o in t.entries
    ensures var t', e := AddFlags(t, o, isDirty, isFresh), t.entries[o];
      && t'.entries.Keys == t.entries.Keys && OthersSame(t, t', o)
      && t'.entries[o].coin == e.coin
      && t'.entries[o].isDirty == (e.isDirty || isDirty) && t'.entries[o].isFresh == (e.isFresh || isFresh)
      && forall x :: x in t.entries && x != o && x !in list ==> t'.entries[x] == t.entries[x]
  {
    LastKnown(t, list);
    assert list != [] ==> list[|list| - 1] in list;
  }

  lemma AddFlagsOk(t: Table, list: seq<OutPoint>, o: OutPoint, isDirty: bool, isFresh: bool)
    requires ListOk(t, list) && o in t.entries && (isDirty || isFresh)
    ensures t.last.Node? ==> t.last.o in t.entries
    ensures ListOk(AddFlags(t, o, isDirty, isFresh), if t.entries[o].Flagged() then list else list + [o])
  {
    LastKnown(t, list);
    var t', e := AddFlags(t, o, isDirty, isFresh), t.entries[o];
    assert MemberOk(t, list, o);
    if e.Flagged() {
      forall i | 0 <= i < |list| ensures LinksOk(t', list, i) {
        assert LinksOk(t, list, i);
      }
      forall x | x in t'.entries ensures MemberOk(t', list, x) {
        assert MemberOk(t, list, x);
      }
    } else {
      AddFlagsOthers(t, list, o, isDirty, isFresh);
      forall i | 0 <= i < |list + [o]| ensures LinksOk(t', list + [o], i) {
        AddFlagsAt(t, list, o, isDirty, isFresh, i);
      }
      forall x | x in t'.entries ensures MemberOk(t', list + [o], x) {
        assert MemberOk(t, list, x);
      }
    }
  }

  /** A list without its entry at `k`. */
  ghost function Without(list: seq<OutPoint>, k: nat): seq<OutPoint>
    requires k < |list|
  {
    list[..k] + list[k + 1..]
  }

  lemma Neighbours(t: Table, list: seq<OutPoint>, k: nat)
    requires ListOk(t, list) && k < |list|
    ensures list[k] in t.entries
    ensures var e := t.entries[list[k]];
      && e.Flagged() && e.prev == LinkAt(list, k - 1) && e.next == LinkAt(list, k + 1)
      && (e.next.Node? ==> e.next.o in t.entries && e.next.o != list[k])
      && (e.prev.Node? ==> e.prev.o in t.entries && e.prev.o != list[k])
  {
    assert LinksOk(t, list, k) && list[k] in list && MemberOk(t, list, list[k]);
    assert k > 0 ==> LinksOk(t, list, k - 1);
    assert k + 1 < |list| ==> LinksOk(t, list, k + 1);
  }

  lemma SetCleanAt(t: Table, list: seq<OutPoint>, k: nat, j: nat)
    requires ListOk(t, list) && k < |list| && j < |list| && j != k && list[k] in t.entries
    requires var e := t.entries[list[k]]; (e.next.Node? ==> e.next.o in t.entries) && (e.prev.Node? ==> e.prev.o in t.entries)
    ensures list[j] in t.entries && list[j] != list[k]
    ensures LinksOk(SetClean(t, list[k]), Without(list, k), if j < k then j else j - 1)
  {
    Neighbours(t, list, k);
    assert LinksOk(t, list, j) && list[j] != list[k];
    assert j != k - 1 && k > 0 ==> list[j] != list[k - 1];
    assert j != k + 1 && k + 1 < |list| ==> list[j] != list[k + 1];
  }

  lemma SetCleanOthers(t: Table, list: seq<OutPoint>, k: nat)
    requires ListOk(t, list) && k < |list| && list[k] in t.entries
    requires var e := t.entries[list[k]]; (e.next.Node? ==> e.next.o in t.entries) && (e.prev.Node? ==> e.prev.o in t.entries)
    ensures var o := list[k]; var t' := SetClean(t, o);
      && t'.entries.Keys == t.entries.Keys && OthersSame(t, t', o)
      && t'.entries[o] == Entry(t.entries[o].coin, false, false, Null, Null)
      && forall x :: x in t.entries && x !in list ==> t'.entries[x] == t.entries[x]
  {
    Neighbours(t, list, k);
    assert k > 0 ==> list[k - 1] in list;
    assert k + 1 < |list| ==> list[k + 1] in list;
  }

  lemma SetCleanEnds(t: Table, list: seq<OutPoint>, k: nat)
    requires ListOk(t, list) && k < |list| && list[k] in t.entries
    requires var e := t.entries[list[k]]; (e.next.Node? ==> e.next.o in t.entries) && (e.prev.Node? ==> e.prev.o in t.entries)
    ensures var t' := SetClean(t, list[k]);
      t'.first == LinkAt(Without(list, k), 0) && t'.last == LinkAt(Without(list, k), |list| - 2)
  {
    hide ListOk, Without;
    Neighbours(t, list, k);
    EndsOf(t, list);
    assert Without(list, k) == list[..k] + list[k + 1..] by { WithoutIs(list, k); }
  }

  lemma WithoutIs(list: seq<OutPoint>, k: nat)
    requires k < |list|
    ensures Without(list, k) == list[..k] + list[k + 1..]
  {
  }

  lemma EndsOf(t: Table, list: seq<OutPoint>)
    requires ListOk(t, list)
    ensures t.first == LinkAt(list, 0) && t.last == LinkAt(list, |list| - 1)
  {
  }

  lemma SetCleanOk(t: Table, list: seq<OutPoint>, k: nat)
    requires ListOk(t, list) && k < |list|
    ensures list[k] in t.entries
    ensures var e := t.entries[list[k]]; (e.next.Node? ==> e.next.o in t.entries) && (e.prev.Node? ==> e.prev.o in t.entries)
    ensures ListOk(SetClean(t, list[k]), Without(list, k))
  {
    hide SetClean, Without, LinkAt;
    Neighbours(t, list, k);
    var o, next := list[k], Without(list, k);
    SetCleanOthers(t, list, k);
    SetCleanEnds(t, list, k);
    WithoutMembers(list, k, o);
    var t' := SetClean(t, o);
    forall i | 0 <= i < |next| ensures LinksOk(t', next, i) {
      SetCleanAt(t, list, k, if i < k then i else i + 1);
    }
    forall x | x in t'.entries ensures MemberOk(t', next, x) {
      WithoutMembers(list, k, x);
      assert MemberOk(t, list, x);
    }
  }

  lemma WithoutMembers(list: seq<OutPoint>, k: nat, x: OutPoint)
    requires Distinct(list) && k < |list|
    ensures x in Without(list, k) <==> x in list && x != list[k]
    ensures Distinct(Without(list, k)) && |Without(list, k)| == |list| - 1
  {
    var next := Without(list, k);
    assert forall i :: 0 <= i < |next| ==> next[i] == list[if i < k then i else i + 1];
    if x in list && x != list[k] {
      var j :| 0 <= j < |list| && list[j] == x;
      assert next[if j < k then j else j - 1] == x;
    }
  }

  /** Unlinking and then dropping an entry leaves a list of the rest. */
  lemma EraseOk(t: Table, list: seq<OutPoint>, k: nat)
    requires ListOk(t, list) && k < |list|
    ensures list[k] in t.entries
    ensures var e := t.entries[list[k]]; (e.next.Node? ==> e.next.o in t.entries) && (e.prev.Node? ==> e.prev.o in t.entries)
    ensures var t' := Erase(t, list[k]); ListOk(t', Without(list, k)) && t'.entries.Keys == t.entries.Keys - {list[k]}
    ensures OthersSame(t, Erase(t, list[k]), list[k])
  {
    hide SetClean, ListOk, Without;
    SetCleanOk(t, list, k);
    SetCleanOthers(t, list, k);
    EraseUnflagged(SetClean(t, list[k]), Without(list, k), list[k]);
  }

  /** Dropping an entry that is not in the list leaves the list alone. */
  lemma EraseUnflagged(t: Table, list: seq<OutPoint>, o: OutPoint)
    requires ListOk(t, list) && o in t.entries && !t.entries[o].Flagged()
    ensures Erase(t, o) == t.(entries := t.entries - {o}) && ListOk(Erase(t, o), list)
  {
    var t' := Erase(t, o);
    assert MemberOk(t, list, o);
    forall i | 0 <= i < |list| ensures LinksOk(t', list, i) {
      assert LinksOk(t, list, i) && list[i] in list;
    }
    forall x | x in t'.entries ensures MemberOk(t', list, x) {
      assert MemberOk(t, list, x);
    }
  }

  /** Replacing coins, or adding unflagged entries, leaves the list alone. */
  lemma SetCoinOk(t: Table, list: seq<OutPoint>, o: OutPoint, coin: Coin)
    requires ListOk(t, list)
    ensures ListOk(WithCoin(t, o, coin), list)
  {
    var t' := WithCoin(t, o, coin);
    assert o in t.entries ==> MemberOk(t, list, o);
    assert o !in t.entries ==> o !in list by {
      if o in list {
        var i :| 0 <= i < |list| && list[i] == o;
        assert LinksOk(t, list, i);
      }
    }
    forall i | 0 <= i < |list| ensures LinksOk(t', list, i) {
      assert LinksOk(t, list, i);
    }
    forall x | x in t'.entries ensures MemberOk(t', list, x) {
      assert x in t.entries ==> MemberOk(t, list, x);
    }
  }

  /** Put a coin into the entry of `o`, which is created without flags if there is none. */
  function WithCoin(t: Table, o: OutPoint, coin: Coin): Table {
    t.(entries := t.entries[o := if o in t.entries then t.entries[o].(coin := coin) else Entry(coin, false, false, Null, Null)])
  }
}
