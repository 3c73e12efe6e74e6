/** Runs of operations on a whole stack of coins caches. */
module CoinsStacks {
  import opened CoinsLists
  import opened CoinsCaches

  /** An operation on a stack. Coins are added and spent at the top; the other operations
      work on the cache that is `down` steps below the top. */
  datatype Op =
    | Add(o: OutPoint, coin: Coin, possibleOverwrite: bool)
    | Spend(o: OutPoint)
    | Get(down: nat, o: OutPoint)
    | Uncache(down: nat, o: OutPoint)
    | Flush(down: nat)
    | Sync(down: nat)
    | Push
    | Pop

  /** What the caller of an operation must see to. */
  ghost predicate Allowed(views: seq<View>, op: Op)
    requires views != []
  {
    match op
    case Add(o, coin, overwrite) => |views| > 1 && !coin.Spent? && (overwrite || views[|views| - 1][o].Spent?)
    case Spend(o) => |views| > 1
    case Get(down, o) => down < |views| - 1
    case Uncache(down, o) => down < |views| - 1
    case Flush(down) => down < |views| - 1
    case Sync(down) => down < |views| - 1
    case Push => true
    case Pop => |views| > 1
  }

  /** The same operation on a stack of plain maps. */
  ghost function Plain(views: seq<View>, op: Op): (r: seq<View>)
    requires views != [] && Allowed(views, op)
    ensures r != []
  {
    var top := |views| - 1;
    match op
    case Add(o, coin, overwrite) => if coin.unspendable then views else views[top := With(views[top], o, coin)]
    case Spend(o) => views[top := With(views[top], o, Spent)]
    case Get(down, o) => views
    case Uncache(down, o) => views
    case Flush(down) => views[top - down - 1 := views[top - down]]
    case Sync(down) => views[top - down - 1 := views[top - down]]
    case Push => views + [views[top]]
    case Pop => views[..top]
  }

  ghost predicate AllAllowed(views: seq<View>, ops: seq<Op>)
    requires views != []
    decreases |ops|
  {
    ops == [] || (Allowed(views, ops[0]) && AllAllowed(Plain(views, ops[0]), ops[1..]))
  }

  ghost function PlainRun(views: seq<View>, ops: seq<Op>): (r: seq<View>)
    requires views != [] && AllAllowed(views, ops)
    ensures r != []
    decreases |ops|
  {
    if ops == [] then views else PlainRun(Plain(views, ops[0]), ops[1..])
  }

  class CoinsStack {
    const db: CoinsDB
    var top: CoinsViewCache?

    ghost function Repr(): set<object>
      reads this
    {
      if top == null then {db} else top.repr
    }

    ghost predicate Valid()
      reads this, Repr()
    {
      this !in Repr() && if top == null then db.Valid() else top.db == db && top.Valid()
    }

    ghost function Views(): (r: seq<View>)
      requires Valid()
      reads this, Repr()
      ensures r != []
    {
      if top == null then [db.View()] else top.Views()
    }

    constructor (db: CoinsDB)
      requires db.Valid()
      ensures Valid() && this.db == db && Views() == [db.View()]
    {
      this.db := db;
      top := null;
    }

    method CacheAt(down: nat) returns (c: CoinsViewCache)
      requires Valid() && down < |Views()| - 1
      ensures top != null && top.Over(c) && c in top.repr && c.depth == top.depth - down
    {
      c := top;
      var k := 0;
      while k < down
        invariant k <= down && top.Over(c) && c.Wired() && c.depth == top.depth - k
      {
        top.OverBase(c);
        c := c.base;
        k := k + 1;
      }
      top.OverNested(c);
      c.ThisInRepr();
    }

    method AddCoin(o: OutPoint, coin: Coin, possibleOverwrite: bool) returns (r: AddResult)
      requires Valid() && Allowed(Views(), Add(o, coin, possibleOverwrite))
      modifies Repr()
      ensures Valid() && Views() == Plain(old(Views()), Add(o, coin, possibleOverwrite))
      ensures r == if coin.unspendable then Unspendable else Added
    {
      hide CoinsViewCache.Shown, CoinsViewCache.View, CoinsViewCache.Views, CoinsViewCache.OwnOk, CoinsViewCache.BelowOk, CoinsViewCache.Wired, CoinsViewCache.Over;
      top.TopView(o);
      top.ThisInRepr();
      r := top.AddCoin(o, coin, possibleOverwrite);
      top.BelowViewsSame();
      if r.Added? {
        top.ChangedViews(o, coin);
      } else {
        top.SameViews();
      }
    }

    method SpendCoin(o: OutPoint) returns (ok: bool, moveout: Coin)
      requires Valid() && Allowed(Views(), Spend(o))
      modifies Repr()
      ensures Valid() && Views() == Plain(old(Views()), Spend(o))
      ensures var was := old(Views())[|old(Views())| - 1][o]; if ok then moveout == was else was.Spent?
    {
      hide CoinsViewCache.Shown, CoinsViewCache.View, CoinsViewCache.Views, CoinsViewCache.OwnOk, CoinsViewCache.BelowOk, CoinsViewCache.Wired, CoinsViewCache.Over;
      top.TopView(o);
      ok, moveout := top.SpendCoin(o);
      top.ChangedViews(o, Spent);
    }

    method GetCoin(down: nat, o: OutPoint) returns (coin: Coin)
      requires Valid() && Allowed(Views(), Get(down, o))
      modifies Repr()
      ensures Valid() && Views() == old(Views()) == Plain(old(Views()), Get(down, o)) && coin == Views()[|Views()| - 1 - down][o]
    {
      hide CoinsViewCache.Shown, CoinsViewCache.View, CoinsViewCache.Views, CoinsViewCache.OwnOk, CoinsViewCache.BelowOk, CoinsViewCache.Wired, CoinsViewCache.Over;
      var c := CacheAt(down);
      top.OverNested(c);
      coin := c.GetCoin(o);
      top.StaysAbove(c);
      top.ViewsAbove(c);
      c.TopView(o);
    }

    method Uncache(down: nat, o: OutPoint)
      requires Valid() && Allowed(Views(), Op.Uncache(down, o))
      modifies Repr()
      ensures Valid() && Views() == old(Views()) == Plain(old(Views()), Op.Uncache(down, o))
    {
      hide CoinsViewCache.Shown, CoinsViewCache.View, CoinsViewCache.Views, CoinsViewCache.OwnOk, CoinsViewCache.BelowOk, CoinsViewCache.Wired, CoinsViewCache.Over;
      var c := CacheAt(down);
      top.OverNested(c);
      c.ThisInRepr();
      c.Uncache(o);
      c.BelowViewsSame();
      c.SameViews();
      top.StaysAbove(c);
      top.ViewsAbove(c);
    }

    method Flush(down: nat)
      requires Valid() && Allowed(Views(), Op.Flush(down))
      modifies Repr()
      ensures Valid() && Views() == Plain(old(Views()), Op.Flush(down))
    {
      hide CoinsViewCache.Shown, CoinsViewCache.View, CoinsViewCache.Views, CoinsViewCache.OwnOk, CoinsViewCache.BelowOk, CoinsViewCache.Wired, CoinsViewCache.Over;
      var c := CacheAt(down);
      top.OverNested(c);
      c.ThisInRepr();
      c.TopView(OutPoint(0, 0));
      c.Flush();
      c.PushedDown();
      top.StaysAbove(c);
      top.ViewsAbove(c);
    }

    method Sync(down: nat)
      requires Valid() && Allowed(Views(), Op.Sync(down))
      modifies Repr()
      ensures Valid() && Views() == Plain(old(Views()), Op.Sync(down))
    {
      hide CoinsViewCache.Shown, CoinsViewCache.View, CoinsViewCache.Views, CoinsViewCache.OwnOk, CoinsViewCache.BelowOk, CoinsViewCache.Wired, CoinsViewCache.Over;
      var c := CacheAt(down);
      top.OverNested(c);
      c.ThisInRepr();
      c.TopView(OutPoint(0, 0));
      c.Sync();
      c.PushedDown();
      top.StaysAbove(c);
      top.ViewsAbove(c);
    }

    /** Put a new cache on top. */
    method Push()
      requires Valid()
      modifies this
      ensures Valid() && Views() == Plain(old(Views()), Op.Push) && fresh(Repr() - old(Repr()))
    {
      hide CoinsViewCache.Shown, CoinsViewCache.View, CoinsViewCache.Views, CoinsViewCache.OwnOk, CoinsViewCache.BelowOk;
      if top == null {
        top := new CoinsViewCache.OverDB(db);
      } else {
        var below := top;
        below.TopView(OutPoint(0, 0));
        top := new CoinsViewCache.OverCache(below);
      }
    }

    /** Discard the cache on top, and what has not been pushed down. */
    method Pop()
      requires Valid() && Allowed(Views(), Op.Pop)
      modifies this
      ensures Valid() && Views() == Plain(old(Views()), Op.Pop) && Repr() <= old(Repr())
    {
      hide CoinsViewCache.Shown, CoinsViewCache.View, CoinsViewCache.OwnOk;
      top.ThisInRepr();
      assert top.BelowOk() && top.BelowViews() == Views()[..|Views()| - 1];
      if top.base != null {
        top.BaseOk();
      }
      top := top.base;
    }

    method Apply(op: Op)
      requires Valid() && Allowed(Views(), op)
      modifies this, Repr()
      ensures Valid() && Views() == Plain(old(Views()), op) && fresh(Repr() - old(Repr()))
    {
      hide Allowed, Plain;
      match op {
        case Add(o, coin, overwrite) => var _ := AddCoin(o, coin, overwrite);
        case Spend(o) => var _, _ := SpendCoin(o);
        case Get(down, o) => var _ := GetCoin(down, o);
        case Uncache(down, o) => Uncache(down, o);
        case Flush(down) => Flush(down);
        case Sync(down) => Sync(down);
        case Push => Push();
        case Pop => Pop();
      }
    }

    /** Any run of operations, on any stack, does to the views what the same operations do to plain maps. */
    method Run(ops: seq<Op>)
      requires Valid() && AllAllowed(Views(), ops)
      modifies this, Repr()
      ensures Valid() && Views() == PlainRun(old(Views()), ops)
    {
      hide Allowed, Plain;
      ghost var start := Views();
      var i := 0;
      while i < |ops|
        invariant i <= |ops| && Valid() && fresh(Repr() - old(Repr()))
        invariant AllAllowed(Views(), ops[i..]) && PlainRun(Views(), ops[i..]) == PlainRun(start, ops)
      {
        assert ops[i..][1..] == ops[i + 1..];
        Apply(ops[i]);
        i := i + 1;
      }
    }
  }
}
