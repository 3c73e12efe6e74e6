/** Making an order topological while retaining it where possible. */
module FixLinearizing {
  import opened Collections
  import opened Graphs

  /** How many entries of `s` come before `elem`: all up to the last ancestor of `elem`. */
  ghost function Place(g: Graph, elem: nat, s: seq<nat>): (k: nat)
    ensures k <= |s|
    ensures forall j :: k <= j < |s| ==> s[j] !in g.Anc(elem)
    ensures k > 0 ==> s[k - 1] in g.Anc(elem)
  {
    if s == [] then 0
    else if s[|s| - 1] in g.Anc(elem) then |s|
    else Place(g, elem, s[..|s| - 1])
  }

  /** Put `elem` right behind the last of its ancestors in `s`. */
  ghost function PutBehind(g: Graph, elem: nat, s: seq<nat>): seq<nat> {
    var k := Place(g, elem, s);
    s[..k] + [elem] + s[k..]
  }

  ghost function Fixed(g: Graph, list: seq<nat>): seq<nat> {
    if list == [] then [] else PutBehind(g, list[0], Fixed(g, list[1..]))
  }

  lemma InsertedDistinct(s: seq<nat>, k: nat, elem: nat)
    requires Distinct(s) && elem !in s && k <= |s|
    ensures Distinct(s[..k] + [elem] + s[k..])
  {
    var r := s[..k] + [elem] + s[k..];
    forall i, j | 0 <= i < j < |r| ensures r[i] != r[j] {
      if i != k && j != k {
        assert r[i] == s[if i < k then i else i - 1] && r[j] == s[if j < k then j else j - 1];
      }
    }
  }

  lemma InsertedElements(s: seq<nat>, k: nat, elem: nat)
    requires k <= |s|
    ensures Elements(s[..k] + [elem] + s[k..]) == Elements(s) + {elem}
  {
    assert s == s[..k] + s[k..];
  }

  lemma PutBehindMembers(g: Graph, elem: nat, s: seq<nat>)
    requires Distinct(s) && elem !in s
    ensures Distinct(PutBehind(g, elem, s)) && |PutBehind(g, elem, s)| == |s| + 1
    ensures Elements(PutBehind(g, elem, s)) == Elements(s) + {elem}
  {
    hide Distinct, Elements, Place;
    InsertedDistinct(s, Place(g, elem, s), elem);
    InsertedElements(s, Place(g, elem, s), elem);
  }

  /** The result has exactly the given transactions. */
  lemma {:induction false} FixedPermutes(g: Graph, list: seq<nat>)
    requires Distinct(list)
    ensures Distinct(Fixed(g, list)) && Elements(Fixed(g, list)) == Elements(list) && |Fixed(g, list)| == |list|
  {
    if list != [] {
      hide PutBehind;
      FixedPermutes(g, list[1..]);
      assert list[0] !in Elements(list[1..]);
      PutBehindMembers(g, list[0], Fixed(g, list[1..]));
      assert Elements(list) == Elements(list[1..]) + {list[0]};
    }
  }

  lemma PutBehindTopological(g: Graph, elem: nat, s: seq<nat>)
    requires g.Valid() && g.Acyclic() && elem in g.used && Elements(s) <= g.used && elem !in s
    requires Topological(g, s)
    ensures Topological(g, PutBehind(g, elem, s))
  {
    var k, r := Place(g, elem, s), PutBehind(g, elem, s);
    forall a | 0 <= a < k ensures elem !in g.Anc(s[a]) {
      assert s[a] in Elements(s) && s[k - 1] in Elements(s);
      assert s[k - 1] in g.Anc(elem);
      if elem in g.Anc(s[a]) {
        assert s[k - 1] in g.Anc(s[a]);
        assert a == k - 1;
        ProperAncestors(g, elem, s[a]);
      }
    }
    forall i, j | 0 <= i < j < |r| ensures r[j] !in g.Anc(r[i]) {
      if i != k && j != k {
        assert r[i] == s[if i < k then i else i - 1] && r[j] == s[if j < k then j else j - 1];
      }
    }
  }

  /** Whatever the order was, the result is topological. */
  lemma {:induction false} FixedLinearizes(g: Graph, list: seq<nat>)
    requires g.Valid() && g.Acyclic() && Elements(list) <= g.used && Distinct(list)
    ensures IsLinearization(g, Elements(list), Fixed(g, list))
  {
    hide Graph.Valid, Graph.Acyclic, PutBehind;
    FixedPermutes(g, list);
    if list != [] {
      var s := Fixed(g, list[1..]);
      FixedLinearizes(g, list[1..]);
      assert list[0] in Elements(list) && list[0] !in Elements(list[1..]);
      assert Elements(list[1..]) <= Elements(list);
      PutBehindTopological(g, list[0], s);
    }
  }

  /** An order that is already topological is left unchanged. */
  lemma {:induction false} FixedKeeps(g: Graph, list: seq<nat>)
    requires Topological(g, list)
    ensures Fixed(g, list) == list
  {
    if list != [] {
      FixedKeeps(g, list[1..]);
      var rest := list[1..];
      assert forall j :: 0 <= j < |rest| ==> rest[j] == list[j + 1];
      assert Place(g, list[0], rest) == 0;
    }
  }

  /** The ancestors of `elem` among the entries from `m` on. */
  ghost function Pending(g: Graph, elem: nat, s: seq<nat>, m: nat): set<nat>
    requires m <= |s|
  {
    g.Anc(elem) * Elements(s[m..])
  }

  lemma PendingAll(g: Graph, elem: nat, s: seq<nat>)
    ensures Pending(g, elem, s, 0) == Elements(s) * g.Anc(elem)
  {
    assert s[0..] == s;
  }

  lemma PendingStep(g: Graph, elem: nat, s: seq<nat>, m: nat)
    requires m < |s| && Distinct(s)
    ensures Pending(g, elem, s, m + 1) == Pending(g, elem, s, m) - {s[m]}
  {
    var rest := s[m + 1..];
    assert s[m..] == [s[m]] + rest;
    assert forall k :: 0 <= k < |rest| ==> rest[k] == s[m + 1 + k];
  }

  lemma PendingPlace(g: Graph, elem: nat, s: seq<nat>, m: nat)
    requires m <= |s|
    ensures Pending(g, elem, s, m) == {} <==> Place(g, elem, s) <= m
  {
    var k := Place(g, elem, s);
    if k <= m {
      forall x | x in s[m..] ensures x !in g.Anc(elem) {
        var j :| 0 <= j < |s[m..]| && s[m..][j] == x;
        assert s[m + j] == x;
      }
    } else {
      assert s[m..][k - 1 - m] == s[k - 1];
      assert s[k - 1] in Pending(g, elem, s, m);
    }
  }

  /** Find the position for `elem`, moving the elements in between forward. */
  method Shift(g: Graph, lin: array<nat>, i: nat, elem: nat, done: set<nat>, ghost s: seq<nat>)
    requires i < lin.Length && |s| == i && Distinct(s) && done == Elements(s)
    requires forall x :: 0 <= x < i ==> lin[lin.Length - i + x] == s[x]
    modifies lin
    ensures forall x :: 0 <= x < lin.Length - 1 - i ==> lin[x] == old(lin[x])
    ensures forall x :: 0 <= x <= i ==> lin[lin.Length - 1 - i + x] == PutBehind(g, elem, s)[x]
  {
    hide Elements, Place, PutBehind, Pending, Distinct;
    var len := lin.Length;
    var j := i;
    var placeBefore := done * g.Anc(elem);
    PendingAll(g, elem, s);
    PutBehindAt(g, elem, s, 0);
    PendingPlace(g, elem, s, 0);
    while placeBefore != {}
      invariant 0 <= j <= i && placeBefore == Pending(g, elem, s, i - j) && Place(g, elem, s) >= i - j
      invariant forall x :: 0 <= x < len - 1 - i ==> lin[x] == old(lin[x])
      invariant forall x :: 0 <= x < i - j ==> lin[len - 1 - i + x] == s[x]
      invariant forall x :: i - j <= x < i ==> lin[len - i + x] == s[x]
      decreases j
    {
      PendingPlace(g, elem, s, i - j);
      var toSwap := lin[len - 1 - (j - 1)];
      assert toSwap == lin[len - i + (i - j)] == s[i - j];
      PendingStep(g, elem, s, i - j);
      placeBefore := placeBefore - {toSwap};
      lin[len - 1 - j] := toSwap;
      j := j - 1;
    }
    PendingPlace(g, elem, s, i - j);
    ghost var k := i - j;
    assert k == Place(g, elem, s);
    lin[len - 1 - j] := elem;
    assert forall x :: 0 <= x < k ==> lin[len - 1 - i + x] == s[x];
    assert forall x :: k <= x < i ==> lin[len - i + x] == s[x];
    forall x | 0 <= x <= i ensures lin[len - 1 - i + x] == PutBehind(g, elem, s)[x] {
      PutBehindAt(g, elem, s, x);
      if x > k {
        assert lin[len - i + (x - 1)] == s[x - 1];
      } else if x < k {
        assert lin[len - 1 - i + x] == s[x];
      }
    }
  }

  lemma PutBehindAt(g: Graph, elem: nat, s: seq<nat>, x: nat)
    requires x <= |s|
    ensures |PutBehind(g, elem, s)| == |s| + 1
    ensures var k := Place(g, elem, s);
      PutBehind(g, elem, s)[x] == if x < k then s[x] else if x == k then elem else s[x - 1]
  {
  }

  /** Move every element backwards until it is placed after all its ancestors. */
  method FixLinearization(g: Graph, lin: array<nat>)
    requires Distinct(lin[..])
    modifies lin
    ensures lin[..] == Fixed(g, old(lin[..])) && Distinct(lin[..]) && Elements(lin[..]) == Elements(old(lin[..]))
    ensures g.Valid() && g.Acyclic() && Elements(old(lin[..])) <= g.used ==> Topological(g, lin[..])
    ensures Topological(g, old(lin[..])) ==> lin[..] == old(lin[..])
  {
    hide Fixed, PutBehind, Elements, Graph.Valid, Graph.Acyclic;
    var done: set<nat> := {};
    var len := lin.Length;
    ghost var list := lin[..];
    FixedNone(g, list);
    ghost var s: seq<nat> := [];
    for i := 0 to len
      invariant forall x :: 0 <= x < len - i ==> lin[x] == list[x]
      invariant |s| == i && s == Fixed(g, list[len - i..])
      invariant forall x :: 0 <= x < i ==> lin[len - i + x] == s[x]
      invariant done == Elements(list[len - i..])
    {
      var elem := lin[len - 1 - i];
      FixedStep(g, list, len - 1 - i);
      Shift(g, lin, i, elem, done, s);
      s := PutBehind(g, elem, s);
      done := done + {elem};
    }
    assert list[0..] == list;
    assert forall x :: 0 <= x < len ==> lin[len - len + x] == s[x];
    assert lin[..] == s;
    FixedConclusions(g, list);
  }

  lemma FixedConclusions(g: Graph, list: seq<nat>)
    requires Distinct(list)
    ensures Distinct(Fixed(g, list)) && Elements(Fixed(g, list)) == Elements(list)
    ensures g.Valid() && g.Acyclic() && Elements(list) <= g.used ==> Topological(g, Fixed(g, list))
    ensures Topological(g, list) ==> Fixed(g, list) == list
  {
    hide Fixed, Graph.Valid, Graph.Acyclic;
    FixedPermutes(g, list);
    if g.Valid() && g.Acyclic() && Elements(list) <= g.used {
      FixedLinearizes(g, list);
    }
    if Topological(g, list) {
      FixedKeeps(g, list);
    }
  }

  lemma FixedNone(g: Graph, list: seq<nat>)
    ensures Fixed(g, list[|list|..]) == [] && Elements(list[|list|..]) == {}
  {
  }

  lemma FixedStep(g: Graph, list: seq<nat>, n: nat)
    requires n < |list| && Distinct(list)
    ensures Fixed(g, list[n..]) == PutBehind(g, list[n], Fixed(g, list[n + 1..]))
    ensures Elements(list[n..]) == Elements(list[n + 1..]) + {list[n]}
    ensures |Fixed(g, list[n..])| == |list| - n && |Fixed(g, list[n + 1..])| == |list| - n - 1
    ensures Distinct(Fixed(g, list[n + 1..])) && Elements(Fixed(g, list[n + 1..])) == Elements(list[n + 1..])
  {
    assert list[n..] == [list[n]] + list[n + 1..];
    FixedPermutes(g, list[n..]);
    FixedPermutes(g, list[n + 1..]);
  }
}
