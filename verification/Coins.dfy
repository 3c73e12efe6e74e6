/** A stack of write-back caches over a coins database. */
module CoinsCaches {
  import opened Collections
  import opened CoinsLists

  // ----- one entry and what lies below it -----

  /** What an entry may be, given what the view below shows for its outpoint: one of the five
      allowed combinations of flags; FRESH only if nothing is below; equal to below unless DIRTY. */
  ghost predicate EntryOk(e: Entry, below: Coin) {
    && !(!e.isDirty && e.isFresh && !e.coin.Spent?)
    && !(!e.isDirty && !e.isFresh && e.coin.Spent?)
    && !(e.isDirty && e.isFresh && e.coin.Spent?)
    && (e.isFresh ==> below.Spent?)
    && (!e.isDirty ==> e.coin == below)
  }

  // ----- memory usage -----

  ghost function UsageOf(entries: map<OutPoint, Entry>): nat {
    if entries == map[] then 0 else
    var o :| o in entries;
    entries[o].coin.DynamicMemoryUsage() + UsageOf(entries - {o})
  }

  lemma {:induction false} UsageWithout(entries: map<OutPoint, Entry>, o: OutPoint)
    requires o in entries
    ensures UsageOf(entries) == entries[o].coin.DynamicMemoryUsage() + UsageOf(entries - {o})
    decreases |entries|
  {
    var p :| p in entries && UsageOf(entries) == entries[p].coin.DynamicMemoryUsage() + UsageOf(entries - {p});
    if p != o {
      UsageWithout(entries - {p}, o);
      UsageWithout(entries - {o}, p);
      assert entries - {p} - {o} == entries - {o} - {p};
    }
  }

  lemma UsageSame(a: map<OutPoint, Entry>, b: map<OutPoint, Entry>)
    requires a.Keys == b.Keys && forall o :: o in a ==> a[o].coin == b[o].coin
    ensures UsageOf(a) == UsageOf(b)
    decreases |a|
  {
    if a != map[] {
      var o :| o in a;
      UsageWithout(a, o);
      UsageWithout(b, o);
      UsageSame(a - {o}, b - {o});
    } else {
      assert b == map[];
    }
  }

  // ----- operations on a table -----

  /** The flagged entries are linked in some order, and the usage is the sum over all entries. */
  ghost predicate TableOk(t: Table, usage: int) {
    (exists list :: ListOk(t, list)) && usage == UsageOf(t.entries)
  }

  /** The neighbours of a flagged entry are in the table. */
  ghost predicate Reachable(t: Table, o: OutPoint) {
    o in t.entries && (t.entries[o].Flagged() ==>
      && (t.entries[o].next.Node? ==> t.entries[o].next.o in t.entries)
      && (t.entries[o].prev.Node? ==> t.entries[o].prev.o in t.entries))
  }

  lemma IndexOf(t: Table, list: seq<OutPoint>, o: OutPoint) returns (k: nat)
    requires ListOk(t, list) && o in t.entries && t.entries[o].Flagged()
    ensures k < |list| && list[k] == o
  {
    assert MemberOk(t, list, o);
    k :| 0 <= k < |list| && list[k] == o;
  }

  lemma AllReachable(t: Table, usage: int, o: OutPoint)
    requires TableOk(t, usage)
    ensures o in t.entries ==> Reachable(t, o)
    ensures t.last.Node? ==> t.last.o in t.entries
  {
    hide ListOk, UsageOf;
    var list :| ListOk(t, list);
    LastKnown(t, list);
    if o in t.entries && t.entries[o].Flagged() {
      var k := IndexOf(t, list, o);
      Neighbours(t, list, k);
    }
  }

  /** `t'` differs from `t` in the entry of `o` only, and in list pointers. */
  ghost predicate OnlyAt(t: Table, t': Table, o: OutPoint) {
    t'.entries.Keys - {o} == t.entries.Keys - {o} && OthersSame(t, t', o)
  }

  lemma UsageOnlyAt(t: Table, t': Table, o: OutPoint)
    requires OnlyAt(t, t', o)
    ensures UsageOf(t'.entries) - (if o in t'.entries then t'.entries[o].coin.DynamicMemoryUsage() else 0)
         == UsageOf(t.entries) - (if o in t.entries then t.entries[o].coin.DynamicMemoryUsage() else 0)
  {
    var a, b := t.entries - {o}, t'.entries - {o};
    assert a.Keys == b.Keys;
    UsageSame(a, b);
    if o in t.entries {
      UsageWithout(t.entries, o);
    } else {
      assert a == t.entries;
    }
    if o in t'.entries {
      UsageWithout(t'.entries, o);
    } else {
      assert b == t'.entries;
    }
  }

  lemma PutCoinOk(t: Table, usage: int, o: OutPoint, coin: Coin)
    requires TableOk(t, usage)
    ensures OnlyAt(t, WithCoin(t, o, coin), o)
    ensures TableOk(WithCoin(t, o, coin),
      usage - (if o in t.entries then t.entries[o].coin.DynamicMemoryUsage() else 0) + coin.DynamicMemoryUsage())
  {
    hide ListOk, UsageOf;
    var list :| ListOk(t, list);
    SetCoinOk(t, list, o, coin);
    UsageOnlyAt(t, WithCoin(t, o, coin), o);
  }

  lemma FlagOk(t: Table, usage: int, o: OutPoint, isDirty: bool, isFresh: bool)
    requires TableOk(t, usage) && o in t.entries && (isDirty || isFresh)
    requires t.last.Node? ==> t.last.o in t.entries
    ensures var t' := AddFlags(t, o, isDirty, isFresh);
      && TableOk(t', usage) && OnlyAt(t, t', o) && o in t'.entries && t'.entries[o].coin == t.entries[o].coin
      && t'.entries[o].isDirty == (t.entries[o].isDirty || isDirty)
      && t'.entries[o].isFresh == (t.entries[o].isFresh || isFresh)
  {
    hide ListOk, UsageOf, AddFlags;
    var list :| ListOk(t, list);
    AddFlagsOk(t, list, o, isDirty, isFresh);
    AddFlagsOthers(t, list, o, isDirty, isFresh);
    UsageOnlyAt(t, AddFlags(t, o, isDirty, isFresh), o);
  }

  lemma EraseEntryOk(t: Table, usage: int, o: OutPoint)
    requires TableOk(t, usage) && Reachable(t, o)
    ensures TableOk(Erase(t, o), usage - t.entries[o].coin.DynamicMemoryUsage())
    ensures OnlyAt(t, Erase(t, o), o) && o !in Erase(t, o).entries
  {
    hide ListOk, UsageOf, SetClean;
    var list :| ListOk(t, list);
    if t.entries[o].Flagged() {
      var k := IndexOf(t, list, o);
      EraseOk(t, list, k);
    } else {
      EraseUnflagged(t, list, o);
    }
    UsageOnlyAt(t, Erase(t, o), o);
  }

  lemma EmptyTableOk()
    ensures TableOk(Table(map[], Sentinel, Sentinel), 0)
  {
    assert ListOk(Table(map[], Sentinel, Sentinel), []);
  }

  // ----- what operations do to the entry of one outpoint -----

  /** AddCoin marks an entry FRESH only if it replaces nothing that the parent may still show. */
  lemma AddedEntryOk(before: Entry, present: bool, below: Coin, coin: Coin, overwrite: bool, after: Entry)
    requires !coin.Spent? && after.coin == coin && after.isDirty
    requires present ==> EntryOk(before, below)
    requires !present ==> before == Entry(Spent, false, false, Null, Null)
    requires !overwrite ==> before.coin.Spent?
    requires after.isFresh == (before.isFresh || (!overwrite && !before.isDirty))
    ensures EntryOk(after, below) <==> overwrite || present || below.Spent?
  {
  }

  /** Writing a DIRTY entry down keeps the parent in order, and the parent then shows it. */
  lemma WrittenEntryOk(e: Entry, before: Entry, below: Coin, after: Entry)
    requires EntryOk(before, below) && EntryOk(e, before.coin) && e.isDirty
    requires after.coin == e.coin && after.isDirty && after.isFresh == before.isFresh
    ensures !(e.isFresh && !before.coin.Spent?)
    ensures if before.isFresh && e.coin.Spent? then below.Spent? else EntryOk(after, below)
  {
  }

  /** What a view shows: a coin for every outpoint, spent where it has none. */
  type View = v: imap<OutPoint, Coin> | forall o :: o in v ghost witness imap o: OutPoint | true :: Spent

  ghost function With(v: View, o: OutPoint, coin: Coin): View {
    v[o := coin]
  }

  /** The database of unspent coins at the bottom of a stack. */
  class CoinsDB {
    var coins: map<OutPoint, Coin>

    ghost predicate Valid()
      reads this
    {
      forall o :: o in coins ==> !coins[o].Spent?
    }

    ghost function Shown(o: OutPoint): Coin
      reads this
    {
      if o in coins then coins[o] else Spent
    }

    ghost function View(): View
      reads this
    {
      imap o: OutPoint | true :: Shown(o)
    }

    constructor ()
      ensures Valid() && coins == map[]
    {
      coins := map[];
    }

    method WriteEntry(o: OutPoint, e: Entry)
      requires Valid()
      modifies this
      ensures Valid() && forall x :: Shown(x) == if x == o then e.coin else old(Shown(x))
    {
      coins := if e.coin.Spent? then coins - {o} else coins[o := e.coin];
    }
  }

  datatype AddResult = Added | Unspendable | WouldOverwrite

  class CoinsViewCache {
    /** The cache below, or null if the database is. */
    const base: CoinsViewCache?
    const db: CoinsDB
    ghost const depth: nat
    ghost const repr: set<object>
    var table: Table
    /** The recorded dynamic memory usage of the coins held. */
    var cachedUsage: int

    /** How the caches of a stack are put on top of each other. */
    ghost predicate Wired()
      decreases depth
    {
      if base == null then depth == 0 && repr == {this, db}
      else && base.depth + 1 == depth && base.db == db && this !in base.repr
           && repr == {this} + base.repr && base.Wired()
    }

    /** The coin this view shows for an outpoint; a spent one if it has none. */
    ghost function Shown(o: OutPoint): Coin
      requires Wired()
      reads repr
      decreases depth, 1
    {
      if o in table.entries then table.entries[o].coin else Below(o)
    }

    ghost function Below(o: OutPoint): Coin
      requires Wired()
      reads repr
      decreases depth, 0
    {
      if base == null then db.Shown(o) else base.Shown(o)
    }

    /** What this view, and each view below it, shows; the database comes first. */
    ghost function Views(): (r: seq<View>)
      requires Wired()
      reads repr
      ensures |r| == depth + 2
      decreases depth, 1
    {
      BelowViews() + [View()]
    }

    ghost function View(): View
      requires Wired()
      reads repr
      decreases depth, 0
    {
      imap o: OutPoint | true :: Shown(o)
    }

    ghost function BelowViews(): (r: seq<View>)
      requires Wired()
      reads repr
      ensures |r| == depth + 1
      decreases depth, 0
    {
      if base == null then [db.View()] else base.Views()
    }

    /** The view directly below. */
    ghost function NextDown(): object {
      if base == null then db else base
    }

    /** This cache is in order with respect to what is shown below it. */
    ghost predicate OwnOk()
      requires Wired()
      reads repr
    {
      TableOk(table, cachedUsage) && forall o :: o in table.entries ==> EntryOk(table.entries[o], Below(o))
    }

    ghost predicate BelowOk()
      requires Wired()
      reads repr
      decreases depth, 0
    {
      if base == null then db.Valid() else base.Valid()
    }

    ghost predicate Valid()
      reads repr
      decreases depth, 1
    {
      Wired() && OwnOk() && BelowOk()
    }

    /** A cache directly over the database. */
    constructor OverDB(db: CoinsDB)
      requires db.Valid()
      ensures Valid() && base == null && this.db == db && repr == {this, db}
      ensures Views() == [db.View(), db.View()]
    {
      base := null;
      this.db := db;
      depth := 0;
      repr := {this, db};
      table := Table(map[], Sentinel, Sentinel);
      cachedUsage := 0;
      EmptyTableOk();
      new;
      SameAsDown();
    }

    /** A cache over another cache. */
    constructor OverCache(below: CoinsViewCache)
      requires below.Valid()
      ensures Valid() && base == below && repr == {this} + below.repr
      ensures Views() == below.Views() + [below.View()]
    {
      base := below;
      db := below.db;
      depth := below.depth + 1;
      repr := {this} + below.repr;
      table := Table(map[], Sentinel, Sentinel);
      cachedUsage := 0;
      EmptyTableOk();
      new;
      SameAsDown();
    }

    lemma ThisInRepr()
      requires Wired()
      ensures this in repr && NextDown() in repr && (base != null ==> base in base.repr && base.repr <= repr)
      decreases depth
    {
      if base != null {
        base.ThisInRepr();
      }
    }

    /** The coin that the view below has. */
    method GetBelow(o: OutPoint) returns (coin: Coin)
      requires Wired() && BelowOk()
      modifies repr - {this}
      ensures BelowOk() && coin == Below(o)
      ensures BelowViews() == old(BelowViews()) && forall x :: Below(x) == old(Below(x))
      decreases depth, 0
    {
      ThisInRepr();
      if base == null {
        coin := if o in db.coins then db.coins[o] else Spent;
      } else {
        coin := base.GetCoin(o);
      }
    }

    /** If nothing changes here, and nothing changes in what is below, then this view is as it was. */
    twostate lemma OwnStays()
      requires old(Valid()) && Wired() && BelowOk() && unchanged(this)
      requires BelowViews() == old(BelowViews()) && forall x :: Below(x) == old(Below(x))
      ensures Valid() && Views() == old(Views()) && forall x :: Shown(x) == old(Shown(x))
    {
      hide TableOk, EntryOk;
      forall x ensures Shown(x) == old(Shown(x)) {}
      assert View() == old(View());
    }

    /** Put a coin that the view below has into this cache, unmodified. */
    method Insert(o: OutPoint, coin: Coin)
      requires Valid() && o !in table.entries && coin == Below(o) && !coin.Spent?
      modifies this
      ensures Valid() && o in table.entries && !table.entries[o].Flagged() && OnlyAt(old(table), table, o)
      ensures Views() == old(Views()) && forall x :: Shown(x) == old(Shown(x))
    {
      hide TableOk, OnlyAt;
      PutCoinOk(table, cachedUsage, o, coin);
      table := WithCoin(table, o, coin);
      cachedUsage := cachedUsage + coin.DynamicMemoryUsage();
      BelowSame();
      ChangedAt(o);
      BelowViewsSame();
      assert forall x :: Shown(x) == old(Shown(x));
      assert View() == old(View());
    }

    /** Bring the coin of an outpoint into this cache, if there is one below. */
    method FetchCoin(o: OutPoint) returns (found: bool)
      requires Valid()
      modifies repr
      ensures Valid() && found == (o in table.entries) && (!found ==> Shown(o).Spent?)
      ensures if old(o in table.entries) then table == old(table) else found ==> !table.entries[o].Flagged()
      ensures OnlyAt(old(table), table, o)
      ensures Views() == old(Views()) && forall x :: Shown(x) == old(Shown(x))
      decreases depth, 1
    {
      hide TableOk, EntryOk, UsageOf, OnlyAt;
      ThisInRepr();
      OnlyAtSelf(table, o);
      if o in table.entries {
        return true;
      }
      var coin := GetBelow(o);
      OwnStays();
      if coin.Spent? {
        return false;
      }
      Insert(o, coin);
      return true;
    }

    /** The coin of an outpoint, or a spent one. */
    method GetCoin(o: OutPoint) returns (coin: Coin)
      requires Valid()
      modifies repr
      ensures Valid() && coin == Shown(o)
      ensures Views() == old(Views()) && forall x :: Shown(x) == old(Shown(x))
      decreases depth, 2
    {
      var found := FetchCoin(o);
      ThisInRepr();
      coin := if found then table.entries[o].coin else Spent;
    }

    /** After a change to the entry of `o`, this cache is in order if that entry is. */
    twostate lemma ChangedAt(o: OutPoint)
      requires old(Valid()) && Wired() && TableOk(table, cachedUsage)
      requires forall x: object :: x in repr && x != this ==> unchanged(x)
      requires OnlyAt(old(table), table, o)
      requires o in table.entries ==> EntryOk(table.entries[o], Below(o))
      ensures Valid()
      ensures Below(o) == old(Below(o))
      ensures forall x :: x != o ==> Shown(x) == old(Shown(x))
      ensures o !in table.entries ==> Shown(o) == old(Below(o))
    {
      hide TableOk;
      ThisInRepr();
      BelowSame();
      forall x | x in table.entries && x != o ensures EntryOk(table.entries[x], Below(x)) && old(x in table.entries) {
        assert x in table.entries.Keys - {o};
        assert SameButLinks(old(table).entries[x], table.entries[x]);
      }
    }

    twostate lemma BelowSame()
      requires Wired()
      requires forall x: object :: x in repr && x != this ==> unchanged(x)
      ensures forall x :: Below(x) == old(Below(x))
      ensures BelowOk() == old(BelowOk())
    {
      ThisInRepr();
    }

    twostate lemma BelowViewsSame()
      requires Wired()
      requires forall x: object :: x in repr && x != this ==> unchanged(x)
      ensures BelowViews() == old(BelowViews())
    {
      ThisInRepr();
    }

    /** Add a coin. Unless an overwrite is possible, nothing unspent may be shown below. */
    method AddCoin(o: OutPoint, coin: Coin, possibleOverwrite: bool) returns (r: AddResult)
      requires Valid() && !coin.Spent?
      requires possibleOverwrite || o in table.entries || Below(o).Spent?
      modifies this
      ensures Valid()
      ensures r == if coin.unspendable then Unspendable
                   else if !possibleOverwrite && !old(Shown(o)).Spent? then WouldOverwrite
                   else Added
      ensures forall x :: Shown(x) == if x == o && r.Added? then coin else old(Shown(x))
      ensures r.Added? ==> o in table.entries && table.entries[o].isDirty
      ensures r.Added? ==> (table.entries[o].isFresh <==> FreshOnceAdded(old(table), o, possibleOverwrite))
      ensures if r.Added? then OnlyAt(old(table), table, o) else table == old(table)
    {
      hide TableOk, OnlyAt;
      if coin.unspendable {
        return Unspendable;
      }
      var present := o in table.entries;
      var before := if present then table.entries[o] else Entry(Spent, false, false, Null, Null);
      if !possibleOverwrite && !before.coin.Spent? {
        return WouldOverwrite;
      }
      ghost var below := Below(o);
      table, cachedUsage := PutDirty(table, cachedUsage, o, coin, !possibleOverwrite && !before.isDirty);
      AddedEntryOk(before, present, below, coin, possibleOverwrite, table.entries[o]);
      BelowSame();
      ChangedAt(o);
      return Added;
    }

    /** Spend a coin: erase it if it was FRESH, and otherwise keep that it is spent. */
    method SpendCoin(o: OutPoint) returns (ok: bool, moveout: Coin)
      requires Valid()
      modifies repr
      ensures Valid() && BelowViews() == old(BelowViews())
      ensures forall x :: Shown(x) == if x == o then Spent else old(Shown(x))
      ensures if ok then moveout == old(Shown(o)) else old(Shown(o)).Spent?
      ensures o in table.entries ==> table.entries[o].isDirty
      ensures ok ==> (o !in table.entries <==> old(o in table.entries) && old(table).entries[o].isFresh)
      ensures OnlyAt(old(table), table, o)
    {
      hide TableOk, OnlyAt;
      ThisInRepr();
      var found := FetchCoin(o);
      assert old(BelowViews()) == old(Views())[..depth + 1];
      assert BelowViews() == Views()[..depth + 1];
      if !found {
        return false, Spent;
      }
      moveout := table.entries[o].coin;
      assert BelowViews() == Views()[..depth + 1];
      label Fetched:
      ghost var fetched := table;
      SpendHere(o);
      OnlyAtTrans(old(table), fetched, table, o);
      BelowViewsSame@Fetched();
      ok := true;
    }

    method SpendHere(o: OutPoint)
      requires Valid() && o in table.entries
      modifies this
      ensures Valid() && forall x :: Shown(x) == if x == o then Spent else old(Shown(x))
      ensures if old(table).entries[o].isFresh then o !in table.entries else o in table.entries && table.entries[o].isDirty
      ensures OnlyAt(old(table), table, o)
    {
      hide TableOk, OnlyAt;
      var e := table.entries[o];
      ghost var below := Below(o);
      if e.isFresh {
        table, cachedUsage := Drop(table, cachedUsage, o);
      } else {
        table, cachedUsage := PutDirty(table, cachedUsage, o, Spent, false);
      }
      BelowSame();
      ChangedAt(o);
    }

    /** Remove an entry that is not modified. */
    method Uncache(o: OutPoint)
      requires Valid()
      modifies this
      ensures Valid() && forall x :: Shown(x) == old(Shown(x))
      ensures o in table.entries ==> table.entries[o].Flagged() && table == old(table)
      ensures OnlyAt(old(table), table, o)
    {
      hide TableOk, OnlyAt;
      OnlyAtSelf(table, o);
      if o in table.entries && !table.entries[o].isDirty && !table.entries[o].isFresh {
        ghost var below := Below(o);
        table, cachedUsage := Drop(table, cachedUsage, o);
        BelowSame();
        ChangedAt(o);
      }
    }

    /** Take over one modified entry of the cache above. */
    method WriteEntry(o: OutPoint, e: Entry) returns (misapplied: bool)
      requires Valid() && e.isDirty
      modifies this
      ensures misapplied <==> e.isFresh && old(o in table.entries && !table.entries[o].coin.Spent?)
      ensures EntryOk(e, old(Shown(o))) ==> !misapplied && Valid()
      ensures EntryOk(e, old(Shown(o))) ==> forall x :: Shown(x) == if x == o then e.coin else old(Shown(x))
      ensures misapplied ==> table == old(table)
      ensures !misapplied ==> (o in table.entries <==> !e.coin.Spent? || !FreshBefore(old(table), o, e))
      ensures !misapplied && o in table.entries ==>
        table.entries[o].isDirty && table.entries[o].isFresh == FreshBefore(old(table), o, e)
      ensures OnlyAt(old(table), table, o)
    {
      hide TableOk, OnlyAt;
      OnlyAtSelf(table, o);
      ghost var below := Below(o);
      if o !in table.entries {
        if !(e.isFresh && e.coin.Spent?) {
          table, cachedUsage := PutDirty(table, cachedUsage, o, e.coin, e.isFresh);
        }
      } else {
        var us := table.entries[o];
        if e.isFresh && !us.coin.Spent? {
          return true;
        }
        if EntryOk(e, us.coin) {
          WrittenEntryOk(e, us, below, Entry(e.coin, true, us.isFresh, Null, Null));
        }
        if us.isFresh && e.coin.Spent? {
          table, cachedUsage := Drop(table, cachedUsage, o);
        } else {
          table, cachedUsage := PutDirty(table, cachedUsage, o, e.coin, false);
        }
      }
      BelowSame();
      if EntryOk(e, old(Shown(o))) {
        ChangedAt(o);
      }
      return false;
    }

    /** Write one modified entry to the view below; the FRESH check there never fails. */
    method WriteBelow(o: OutPoint, e: Entry)
      requires Wired() && BelowOk() && e.isDirty && EntryOk(e, Below(o))
      modifies NextDown()
      ensures BelowOk() && forall x :: Below(x) == if x == o then e.coin else old(Below(x))
    {
      ThisInRepr();
      if base == null {
        db.WriteEntry(o, e);
      } else {
        var misapplied := base.WriteEntry(o, e);
        assert !misapplied;
      }
    }

    /** What has been written down after the entries of `done` are processed. */
    ghost predicate WrittenDown(entries: map<OutPoint, Entry>, done: seq<OutPoint>, before: OutPoint -> Coin)
      requires Wired()
      reads repr
    {
      BelowOk() && forall x :: Below(x) == if x in done && x in entries && entries[x].isDirty then entries[x].coin else before(x)
    }

    /** Process the next flagged entry: write it down if it is modified. */
    method WriteNext(o: OutPoint, e: Entry, ghost entries: map<OutPoint, Entry>, ghost done: seq<OutPoint>, ghost before: OutPoint -> Coin)
      requires Wired() && WrittenDown(entries, done, before) && o !in done
      requires o in entries && SameButLinks(entries[o], e) && EntryOk(entries[o], before(o))
      modifies NextDown()
      ensures WrittenDown(entries, done + [o], before)
    {
      if e.isDirty {
        WriteBelow(o, e);
      }
    }

    /** Push all modifications down, and wipe this cache. */
    method Flush()
      requires Valid()
      modifies this, NextDown()
      ensures Valid() && forall x :: Shown(x) == old(Shown(x)) == Below(x)
      ensures table.entries == map[]
    {
      hide ListOk, UsageOf, EntryOk, WrittenDown;
      ThisInRepr();
      ghost var t := table;
      ghost var list :| ListOk(t, list);
      ghost var before := BelowNow();
      ghost var n := 0;
      FirstLink(t, list);
      NothingWritten(t.entries, before);
      assert list[..0] == [];
      var it := table.first;
      while it != Sentinel
        invariant table == t && n <= |list| && it == LinkAt(list, n)
        invariant WrittenDown(t.entries, list[..n], before)
        decreases |list| - n
      {
        Neighbours(t, list, n);
        NotYetDone(t, list, n);
        var e := table.entries[it.o];
        assert list[..n + 1] == list[..n] + [it.o];
        WriteNext(it.o, e, t.entries, list[..n], before);
        it := e.next;
        n := n + 1;
      }
      assert list[..n] == list;
      label Written:
      table := Table(map[], Sentinel, Sentinel);
      cachedUsage := 0;
      EmptyTableOk();
      StillWritten@Written(t.entries, list, before);
      forall x ensures BelowOk() && Below(x) == old(Shown(x)) {
        WrittenAt(t.entries, list, before, x);
        DownIsShown(t, list, x, before(x));
      }
    }

    /** The entry after a flagged one, which is erased if it is spent and otherwise unflagged. */
    method NextAndMaybeErase(o: OutPoint, ghost t: Table, ghost left: seq<OutPoint>, ghost done: seq<OutPoint>) returns (next: Link)
      requires left != [] && Syncing(t, table, cachedUsage, left, done)
      requires o == left[0] && o !in done && o in t.entries
      modifies this
      ensures Syncing(t, table, cachedUsage, left[1..], done + [o]) && next == LinkAt(left, 1)
    {
      hide ListOk, UsageOf, SetClean, SyncedAt, Erase;
      Neighbours(table, left, 0);
      assert SyncedAt(t, table, done, o);
      SyncedSame(t, table, done, o);
      next := table.entries[o].next;
      if table.entries[o].coin.Spent? {
        ErasedSyncing(t, table, cachedUsage, left, done);
        table := Erase(table, o);
      } else {
        ClearedSyncing(t, table, cachedUsage, left, done);
        table := SetClean(table, o);
      }
    }

    lemma NothingWritten(entries: map<OutPoint, Entry>, before: OutPoint -> Coin)
      requires Wired() && BelowOk() && forall x :: Below(x) == before(x)
      ensures WrittenDown(entries, [], before)
    {
    }

    lemma WrittenAt(entries: map<OutPoint, Entry>, done: seq<OutPoint>, before: OutPoint -> Coin, x: OutPoint)
      requires Wired() && WrittenDown(entries, done, before)
      ensures BelowOk() && Below(x) == if x in done && x in entries && entries[x].isDirty then entries[x].coin else before(x)
    {
    }

    /** Write a flagged entry down, and then erase or unflag it. */
    method SyncNext(o: OutPoint, ghost t: Table, ghost list: seq<OutPoint>, ghost n: nat, ghost before: OutPoint -> Coin) returns (next: Link)
      requires Wired() && ListOk(t, list) && n < |list| && o == list[n] && Syncing(t, table, cachedUsage, list[n..], list[..n])
      requires WrittenDown(t.entries, list[..n], before) && forall x :: x in t.entries ==> EntryOk(t.entries[x], before(x))
      modifies this, NextDown()
      ensures Syncing(t, table, cachedUsage, list[n + 1..], list[..n + 1]) && WrittenDown(t.entries, list[..n + 1], before)
      ensures next == LinkAt(list, n + 1)
    {
      hide ListOk, UsageOf, EntryOk, SyncedAt, WrittenDown;
      ThisInRepr();
      ghost var left := list[n..];
      Neighbours(table, left, 0);
      Neighbours(t, list, n);
      NotYetDone(t, list, n);
      assert SyncedAt(t, table, list[..n], o);
      SyncedSame(t, table, list[..n], o);
      assert list[..n + 1] == list[..n] + [o] && left[1..] == list[n + 1..];
      WriteNext(o, table.entries[o], t.entries, list[..n], before);
      label Written:
      next := NextAndMaybeErase(o, t, left, list[..n]);
      StillWritten@Written(t.entries, list[..n + 1], before);
    }

    twostate lemma StillWritten(new entries: map<OutPoint, Entry>, new done: seq<OutPoint>, new before: OutPoint -> Coin)
      requires Wired() && old(WrittenDown(entries, done, before))
      requires forall x: object :: x in repr && x != this ==> unchanged(x)
      ensures WrittenDown(entries, done, before)
    {
      BelowSame();
    }

    /** Push all modifications down, and keep what is unspent, unflagged. */
    method Sync()
      requires Valid()
      modifies this, NextDown()
      ensures Valid() && forall x :: Shown(x) == old(Shown(x)) == Below(x)
      ensures table.first == Sentinel
      ensures forall x :: x in table.entries ==> !table.entries[x].Flagged() && !table.entries[x].coin.Spent?
      ensures forall x :: x in table.entries <==> x in old(table.entries) && !old(table.entries)[x].coin.Spent?
    {
      hide ListOk, UsageOf, EntryOk, SyncedAt, Syncing, WrittenDown;
      ThisInRepr();
      ghost var t := table;
      ghost var list :| ListOk(t, list);
      ghost var before := BelowNow();
      ghost var n := 0;
      assert list[0..] == list;
      StartSyncing(t, cachedUsage, list);
      NothingWritten(t.entries, before);
      assert list[..0] == [];
      FirstLink(t, list);
      var it := table.first;
      while it != Sentinel
        invariant n <= |list| && it == LinkAt(list, n) && Syncing(t, table, cachedUsage, list[n..], list[..n])
        invariant WrittenDown(t.entries, list[..n], before)
        decreases |list| - n
      {
        it := SyncNext(it.o, t, list, n, before);
        n := n + 1;
      }
      SyncingList(t, table, cachedUsage, list[n..], list[..n]);
      FirstLink(table, list[n..]);
      assert list[..n] == list && list[n..] == [];
      WrittenAt(t.entries, list, before, OutPoint(0, 0));
      assert TableOk(table, cachedUsage);
      forall x ensures Below(x) == old(Shown(x))
        ensures x in table.entries ==> EntryOk(table.entries[x], Below(x)) && table.entries[x].coin == Below(x)
        ensures x in table.entries ==> !table.entries[x].Flagged() && !table.entries[x].coin.Spent?
        ensures x in table.entries <==> x in t.entries && !t.entries[x].coin.Spent?
      {
        WrittenAt(t.entries, list, before, x);
        SyncedOk(t, table, cachedUsage, list, x, before(x), Below(x));
      }
    }

    // ----- this cache as part of a stack -----

    /** This is the given cache, or above it. */
    ghost predicate Over(c: CoinsViewCache)
      requires Wired()
      decreases depth
    {
      this == c || (base != null && base.Over(c))
    }

    lemma BaseOk()
      requires Wired() && base != null
      ensures base.Wired() && base.depth + 1 == depth && base.db == db && (Valid() ==> base.Valid())
      ensures base.repr <= repr && this !in base.repr && this in repr
      ensures Views() == base.Views() + [View()]
    {
      hide TableOk, EntryOk;
      if Valid() {
        assert BelowOk();
      }
    }

    lemma OverNested(c: CoinsViewCache)
      requires Wired() && Over(c)
      ensures c.Wired() && c.depth <= depth && c.repr <= repr && c.db == db && (Valid() ==> c.Valid())
      ensures Views()[..c.depth + 2] == c.Views()
      decreases depth
    {
      hide Valid, View, Views, Wired;
      if this != c {
        BaseOk();
        base.OverNested(c);
        assert Views()[..c.depth + 2] == base.Views()[..c.depth + 2];
      }
    }

    lemma OverBase(c: CoinsViewCache)
      requires Wired() && Over(c) && c.Wired() && c.depth > 0
      ensures c.base != null && Over(c.base)
      decreases depth
    {
      if this != c {
        base.OverBase(c);
      }
    }

    /** A view is kept in order, and shows what it showed, if a view below it does and nothing between changes. */
    twostate lemma StaysAbove(c: CoinsViewCache)
      requires Wired() && Over(c) && old(Valid())
      requires c.Valid() && forall x :: c.Shown(x) == old(c.Shown(x))
      requires forall x: object :: x in repr && x !in c.repr ==> unchanged(x)
      ensures Valid() && forall x :: Shown(x) == old(Shown(x))
      decreases depth
    {
      hide TableOk, EntryOk;
      OverNested(c);
      if this != c {
        base.OverNested(c);
        base.StaysAbove(c);
        ThisInRepr();
        c.ThisInRepr();
        assert unchanged(this);
        StaysHere();
      }
    }

    /** Then the views above are as they were. */
    twostate lemma ViewsAbove(c: CoinsViewCache)
      requires Wired() && Over(c) && old(Valid())
      requires c.Valid() && forall x :: c.Shown(x) == old(c.Shown(x))
      requires forall x: object :: x in repr && x !in c.repr ==> unchanged(x)
      ensures c.depth <= depth && Views() == c.Views() + old(Views())[c.depth + 2..]
      decreases depth
    {
      hide Shown, Valid, Views, View, Wired;
      OverNested(c);
      if this == c {
        assert Views() == c.Views() + old(Views())[c.depth + 2..];
      } else {
        BaseOk();
        OldBaseOk();
        base.ViewsAbove(c);
        StaysAbove(c);
        SameView();
        assert old(Views())[c.depth + 2..] == old(base.Views())[c.depth + 2..] + [View()];
      }
    }

    twostate lemma SameView()
      requires Wired() && forall x :: Shown(x) == old(Shown(x))
      ensures View() == old(View())
    {
      hide Shown;
    }

    twostate lemma OldBaseOk()
      requires old(Valid()) && base != null
      ensures old(base.Valid()) && old(Views()) == old(base.Views()) + [old(View())]
    {
    }

    twostate lemma StaysHere()
      requires Wired() && base != null && old(Valid()) && unchanged(this)
      requires base.Valid() && forall x :: base.Shown(x) == old(base.Shown(x))
      ensures Valid() && forall x :: Shown(x) == old(Shown(x))
    {
      hide TableOk, EntryOk;
      assert forall x :: Below(x) == old(Below(x));
    }

    lemma TopView(o: OutPoint)
      requires Wired()
      ensures Views()[depth + 1] == View() && View()[o] == Shown(o)
      ensures Shown(o).Spent? ==> o in table.entries || Below(o).Spent?
    {
    }

    twostate lemma SameViews()
      requires Wired() && BelowViews() == old(BelowViews()) && forall x :: Shown(x) == old(Shown(x))
      ensures Views() == old(Views())
    {
      SameView();
    }

    /** What changing one coin here does to the views of the stack. */
    twostate lemma ChangedViews(new o: OutPoint, new coin: Coin)
      requires Wired() && BelowViews() == old(BelowViews())
      requires forall x :: Shown(x) == if x == o then coin else old(Shown(x))
      ensures Views() == old(Views()[depth + 1 := With(View(), o, coin)])
    {
      hide Shown;
      assert View() == With(old(View()), o, coin);
    }

    ghost function DownView(): View
      requires Wired()
      reads repr
    {
      ThisInRepr();
      if base == null then db.View() else base.View()
    }

    /** The views below the one directly below. */
    ghost function DeepViews(): (r: seq<View>)
      requires Wired()
      reads repr
      ensures BelowViews() == r + [DownView()]
    {
      if base == null then [] else base.BelowViews()
    }

    twostate lemma DeepViewsSame()
      requires Wired()
      requires forall x: object :: x in repr && x != this && x != NextDown() ==> unchanged(x)
      ensures DeepViews() == old(DeepViews())
    {
      hide Shown, View, Views, Valid;
      ThisInRepr();
      if base != null {
        base.ThisInRepr();
        base.BelowViewsSame();
      }
    }

    lemma SameAsDown()
      requires Wired() && forall x :: Shown(x) == Below(x)
      ensures View() == DownView()
    {
      if base != null {
        assert forall x :: Shown(x) == base.Shown(x);
      } else {
        assert forall x :: Shown(x) == db.Shown(x);
      }
    }

    /** What pushing modifications down does to the views of the stack. */
    twostate lemma PushedDown()
      requires Wired()
      requires forall x: object :: x in repr && x != this && x != NextDown() ==> unchanged(x)
      requires forall x :: Shown(x) == old(Shown(x)) == Below(x)
      ensures Views() == old(Views()[depth := View()])
    {
      SameView();
      SameAsDown();
      hide Shown, View, DownView, DeepViews, BelowViews, Wired;
      DeepViewsSame();
      assert Views() == DeepViews() + [DownView()] + [View()];
      assert old(Views()) == old(DeepViews()) + [old(DownView())] + [old(View())];
    }

    /** The consistency check that the cache runs on itself; it never finds anything. */
    method SanityCheck() returns (ok: bool)
      requires Valid()
      ensures ok
    {
      hide ListOk, UsageOf;
      var usage, flagged, combinations := CheckEntries(table.entries);
      assert combinations by {
        forall o | o in table.entries ensures FiveCombinations(table.entries[o]) {
          assert EntryOk(table.entries[o], Below(o));
        }
      }
      ghost var list :| ListOk(table, list);
      var linked, integrity := CheckLinks(table, list);
      FlaggedAreLinked(table, list);
      ok := combinations && integrity && linked == flagged && usage == cachedUsage;
    }

    /** What the view below shows now, as a value. */
    ghost function BelowNow(): (f: OutPoint -> Coin)
      requires Wired()
      reads repr
      ensures forall x :: f(x) == Below(x)
      decreases depth, 0
    {
      if base == null then var coins := db.coins; (x => if x in coins then coins[x] else Spent)
      else base.ShownNow()
    }

    ghost function ShownNow(): (f: OutPoint -> Coin)
      requires Wired()
      reads repr
      ensures forall x :: f(x) == Shown(x)
      decreases depth, 1
    {
      var entries, below := table.entries, BelowNow();
      x => if x in entries then entries[x].coin else below(x)
    }
  }

  // ----- checking -----

  predicate FiveCombinations(e: Entry) {
    var attr := (if e.isDirty then 1 else 0) + (if e.isFresh then 2 else 0) + (if e.coin.Spent? then 4 else 0);
    attr != 2 && attr != 4 && attr != 7
  }

  ghost predicate AllCombinationsOk(entries: map<OutPoint, Entry>) {
    forall o :: o in entries ==> FiveCombinations(entries[o])
  }

  ghost function FlaggedOf(entries: map<OutPoint, Entry>): set<OutPoint> {
    set o | o in entries && entries[o].Flagged()
  }

  /** One pass over the entries. */
  method CheckEntries(entries: map<OutPoint, Entry>) returns (usage: nat, flagged: nat, combinations: bool)
    ensures usage == UsageOf(entries) && flagged == |FlaggedOf(entries)|
    ensures combinations <==> AllCombinationsOk(entries)
  {
    hide UsageOf, FlaggedOf, FiveCombinations, AllCombinationsOk;
    usage, flagged, combinations := 0, 0, true;
    var left := entries;
    while left != map[]
      invariant usage + UsageOf(left) == UsageOf(entries)
      invariant flagged + |FlaggedOf(left)| == |FlaggedOf(entries)|
      invariant combinations && AllCombinationsOk(left) <==> AllCombinationsOk(entries)
      decreases |left|
    {
      var o :| o in left;
      UsageWithout(left, o);
      FlaggedWithout(left, o);
      usage := usage + left[o].coin.DynamicMemoryUsage();
      flagged := flagged + if left[o].Flagged() then 1 else 0;
      combinations := combinations && FiveCombinations(left[o]);
      left := left - {o};
    }
    NothingFlagged();
  }

  lemma FlaggedWithout(entries: map<OutPoint, Entry>, o: OutPoint)
    requires o in entries
    ensures |FlaggedOf(entries)| == |FlaggedOf(entries - {o})| + if entries[o].Flagged() then 1 else 0
    ensures AllCombinationsOk(entries) <==> AllCombinationsOk(entries - {o}) && FiveCombinations(entries[o])
  {
    assert FlaggedOf(entries) == FlaggedOf(entries - {o}) + if entries[o].Flagged() then {o} else {};
    var rest := entries - {o};
    assert forall x :: x in rest ==> rest[x] == entries[x];
    assert forall x :: x in entries && x != o ==> x in rest;
  }

  lemma NothingFlagged()
    ensures |FlaggedOf(map[])| == 0 && AllCombinationsOk(map[]) && UsageOf(map[]) == 0
  {
    assert FlaggedOf(map[]) == {};
  }

  function NextOf(t: Table, at: Link): Link
    requires at.Node? ==> at.o in t.entries
  {
    match at case Null => Null case Sentinel => t.first case Node(o) => t.entries[o].next
  }

  function PrevOf(t: Table, at: Link): Link
    requires at.Node? ==> at.o in t.entries
  {
    match at case Null => Null case Sentinel => t.last case Node(o) => t.entries[o].prev
  }

  /** One pass along the list. */
  method CheckLinks(t: Table, ghost list: seq<OutPoint>) returns (linked: nat, integrity: bool)
    requires ListOk(t, list)
    ensures linked == |list| && integrity
  {
    hide ListOk;
    linked, integrity := 0, true;
    FirstLink(t, list);
    var it := t.first;
    while it != Sentinel
      invariant linked <= |list| && it == LinkAt(list, linked) && integrity
      decreases |list| - linked
    {
      Neighbours(t, list, linked);
      BackAndForth(t, list, linked);
      var e := t.entries[it.o];
      integrity := integrity && PrevOf(t, e.next) == it && NextOf(t, e.prev) == it && e.Flagged();
      linked := linked + 1;
      it := e.next;
    }
  }

  lemma BackAndForth(t: Table, list: seq<OutPoint>, k: nat)
    requires ListOk(t, list) && k < |list| && list[k] in t.entries
    requires var e := t.entries[list[k]]; (e.next.Node? ==> e.next.o in t.entries) && (e.prev.Node? ==> e.prev.o in t.entries)
    ensures PrevOf(t, t.entries[list[k]].next) == Node(list[k]) == NextOf(t, t.entries[list[k]].prev)
  {
    assert LinksOk(t, list, k);
    assert k > 0 ==> LinksOk(t, list, k - 1);
    assert k + 1 < |list| ==> LinksOk(t, list, k + 1);
  }

  lemma FlaggedAreLinked(t: Table, list: seq<OutPoint>)
    requires ListOk(t, list)
    ensures |FlaggedOf(t.entries)| == |list|
  {
    DistinctCount(list);
    var linked := Elements(list);
    forall o ensures o in linked <==> o in FlaggedOf(t.entries) {
      if o in list {
        var i :| 0 <= i < |list| && list[i] == o;
        assert LinksOk(t, list, i);
      }
      assert o in t.entries ==> MemberOk(t, list, o);
    }
    assert linked == FlaggedOf(t.entries);
  }

  // ----- syncing -----

  /** An entry while the cache is synced: unspent and unflagged or gone if it was processed. */
  ghost predicate SyncedAt(t: Table, now: Table, done: seq<OutPoint>, x: OutPoint)
  {
    && (x in now.entries ==> x in t.entries)
    && (x in done ==> x in t.entries && (x in now.entries <==> !t.entries[x].coin.Spent?))
    && (x in done && x in now.entries ==> now.entries[x].coin == t.entries[x].coin && !now.entries[x].Flagged())
    && (x !in done && x in t.entries ==> x in now.entries && SameButLinks(t.entries[x], now.entries[x]))
  }

  ghost predicate Syncing(t: Table, now: Table, usage: int, left: seq<OutPoint>, done: seq<OutPoint>)
  {
    ListOk(now, left) && usage == UsageOf(now.entries) && forall x :: SyncedAt(t, now, done, x)
  }

  lemma StartSyncing(t: Table, usage: int, list: seq<OutPoint>)
    requires ListOk(t, list) && usage == UsageOf(t.entries)
    ensures Syncing(t, t, usage, list, [])
  {
  }

  lemma SyncingList(t: Table, now: Table, usage: int, left: seq<OutPoint>, done: seq<OutPoint>)
    requires Syncing(t, now, usage, left, done)
    ensures ListOk(now, left) && usage == UsageOf(now.entries)
  {
  }

  lemma SyncedSame(t: Table, now: Table, done: seq<OutPoint>, x: OutPoint)
    requires SyncedAt(t, now, done, x) && x !in done && x in t.entries
    ensures x in now.entries && SameButLinks(t.entries[x], now.entries[x])
  {
  }

  lemma ErasedSyncing(t: Table, now: Table, usage: int, left: seq<OutPoint>, done: seq<OutPoint>)
    requires left != [] && Syncing(t, now, usage, left, done) && Reachable(now, left[0])
    requires left[0] in t.entries && left[0] !in done && t.entries[left[0]].coin.Spent?
    ensures Syncing(t, Erase(now, left[0]), usage, left[1..], done + [left[0]])
  {
    hide ListOk, UsageOf, SetClean, SyncedAt;
    assert Without(left, 0) == left[1..];
    EraseOk(now, left, 0);
    var o, now' := left[0], Erase(now, left[0]);
    assert SyncedAt(t, now, done, o);
    SyncedSame(t, now, done, o);
    UsageOnlyAt(now, now', o);
    forall x ensures SyncedAt(t, now', done + [o], x) {
      assert SyncedAt(t, now, done, x);
      ErasedAt(t, now, now', done, o, x);
    }
  }

  lemma ErasedAt(t: Table, now: Table, now': Table, done: seq<OutPoint>, o: OutPoint, x: OutPoint)
    requires SyncedAt(t, now, done, x) && o in t.entries && o !in done && t.entries[o].coin.Spent?
    requires now'.entries.Keys == now.entries.Keys - {o} && OthersSame(now, now', o)
    ensures SyncedAt(t, now', done + [o], x)
  {
    assert x in now'.entries <==> x in now.entries && x != o;
  }

  lemma ClearedSyncing(t: Table, now: Table, usage: int, left: seq<OutPoint>, done: seq<OutPoint>)
    requires left != [] && Syncing(t, now, usage, left, done) && Reachable(now, left[0])
    requires left[0] in t.entries && left[0] !in done && !t.entries[left[0]].coin.Spent?
    ensures Syncing(t, SetClean(now, left[0]), usage, left[1..], done + [left[0]])
  {
    hide ListOk, UsageOf, SetClean, SyncedAt;
    assert Without(left, 0) == left[1..];
    SetCleanOk(now, left, 0);
    SetCleanOthers(now, left, 0);
    var o, now' := left[0], SetClean(now, left[0]);
    assert SyncedAt(t, now, done, o);
    SyncedSame(t, now, done, o);
    UsageOnlyAt(now, now', o);
    forall x ensures SyncedAt(t, now', done + [o], x) {
      assert SyncedAt(t, now, done, x);
      ClearedAt(t, now, now', done, o, x);
    }
  }

  lemma ClearedAt(t: Table, now: Table, now': Table, done: seq<OutPoint>, o: OutPoint, x: OutPoint)
    requires SyncedAt(t, now, done, x) && o in t.entries && o !in done && !t.entries[o].coin.Spent?
    requires now'.entries.Keys == now.entries.Keys && OthersSame(now, now', o)
    requires o in now.entries && now'.entries[o] == Entry(t.entries[o].coin, false, false, Null, Null)
    ensures SyncedAt(t, now', done + [o], x)
  {
  }

  /** A synced cache is in order, holds unmodified coins only, and shows what is shown below. */
  lemma SyncedOk(t: Table, now: Table, usage: int, list: seq<OutPoint>, x: OutPoint, before: Coin, below: Coin)
    requires ListOk(t, list) && Syncing(t, now, usage, [], list)
    requires x in t.entries ==> EntryOk(t.entries[x], before)
    requires below == if x in list && x in t.entries && t.entries[x].isDirty then t.entries[x].coin else before
    ensures below == if x in t.entries then t.entries[x].coin else before
    ensures x in now.entries ==> EntryOk(now.entries[x], below) && now.entries[x].coin == below
    ensures x in now.entries ==> !now.entries[x].Flagged() && !now.entries[x].coin.Spent?
    ensures x in now.entries <==> x in t.entries && !t.entries[x].coin.Spent?
  {
    hide UsageOf, Distinct;
    DownIsShown(t, list, x, before);
    assert SyncedAt(t, now, list, x);
    assert x in t.entries ==> MemberOk(t, list, x);
    assert x in now.entries ==> MemberOk(now, [], x);
  }

  lemma FirstLink(t: Table, list: seq<OutPoint>)
    requires ListOk(t, list)
    ensures t.first == LinkAt(list, 0)
  {
  }

  lemma NotYetDone(t: Table, list: seq<OutPoint>, n: nat)
    requires ListOk(t, list) && n < |list|
    ensures list[n] !in list[..n]
  {
  }

  /** After all flagged entries are written down, below shows what was shown above. */
  lemma DownIsShown(t: Table, list: seq<OutPoint>, x: OutPoint, below: Coin)
    requires ListOk(t, list) && (x in t.entries ==> EntryOk(t.entries[x], below))
    ensures (if x in list && x in t.entries && t.entries[x].isDirty then t.entries[x].coin else below)
         == if x in t.entries then t.entries[x].coin else below
  {
    assert x in t.entries ==> MemberOk(t, list, x);
  }

  /** Whether an added coin's entry is FRESH: it was, or nothing may be overwritten and no spentness is unwritten. */
  ghost predicate FreshOnceAdded(t: Table, o: OutPoint, possibleOverwrite: bool) {
    if o in t.entries then t.entries[o].isFresh || (!possibleOverwrite && !t.entries[o].isDirty) else !possibleOverwrite
  }

  /** Whether the entry that takes over `e` may be FRESH: as the one it replaces, or else as `e`. */
  ghost predicate FreshBefore(t: Table, o: OutPoint, e: Entry) {
    if o in t.entries then t.entries[o].isFresh else e.isFresh
  }

  /** Put a coin into an entry, mark it DIRTY and perhaps FRESH, and account for its usage. */
  method PutDirty(t: Table, usage: int, o: OutPoint, coin: Coin, markFresh: bool) returns (t': Table, usage': int)
    requires TableOk(t, usage)
    ensures TableOk(t', usage') && OnlyAt(t, t', o) && o in t'.entries
    ensures t'.entries[o].coin == coin && t'.entries[o].isDirty
    ensures t'.entries[o].isFresh == (markFresh || (o in t.entries && t.entries[o].isFresh))
  {
    hide TableOk, AddFlags;
    usage' := usage - (if o in t.entries then t.entries[o].coin.DynamicMemoryUsage() else 0) + coin.DynamicMemoryUsage();
    PutCoinOk(t, usage, o, coin);
    var t1 := WithCoin(t, o, coin);
    AllReachable(t1, usage', o);
    FlagOk(t1, usage', o, true, false);
    t' := AddFlags(t1, o, true, false);
    OnlyAtTrans(t, t1, t', o);
    if markFresh {
      ghost var t2 := t';
      AllReachable(t2, usage', o);
      FlagOk(t2, usage', o, false, true);
      t' := AddFlags(t', o, false, true);
      OnlyAtTrans(t, t2, t', o);
    }
  }

  lemma OnlyAtTrans(a: Table, b: Table, c: Table, o: OutPoint)
    requires OnlyAt(a, b, o) && OnlyAt(b, c, o)
    ensures OnlyAt(a, c, o)
  {
  }

  lemma OnlyAtSelf(t: Table, o: OutPoint)
    ensures OnlyAt(t, t, o)
  {
  }

  /** Erase an entry, and account for its usage. */
  method Drop(t: Table, usage: int, o: OutPoint) returns (t': Table, usage': int)
    requires TableOk(t, usage) && o in t.entries
    ensures TableOk(t', usage') && OnlyAt(t, t', o) && o !in t'.entries
  {
    hide TableOk, Erase;
    AllReachable(t, usage, o);
    EraseEntryOk(t, usage, o);
    t', usage' := Erase(t, o), usage - t.entries[o].coin.DynamicMemoryUsage();
  }
}
