/** Paying with coins (src/game/game.cpp: removeMoney, addMoney; src/items/item.cpp:
    getWorth, CreateItem).

    Coins lie in containers inside containers. `Collect` walks them with the source's
    worklist; `Pay` takes stacks from the cheapest up, breaks one, gives change and
    falls back on the bank.
  */
module Money {
  import opened Sums

  datatype Kind = Gold | Platinum | Crystal

  function Unit(k: Kind): nat
  {
    match k
    case Gold => 1
    case Platinum => 100
    case Crystal => 10000
  }

  datatype Stack = Stack(kind: Kind, count: nat)

  function Worth(s: Stack): nat
  {
    s.count * Unit(s.kind)
  }

  /** What a slot holds: nothing of interest, a stack of coins (with the identity of its item), or a container. */
  datatype Thing = Other | Coins(id: nat, stack: Stack) | Bag(items: seq<Thing>)

  datatype Entry = Entry(id: nat, stack: Stack)

  // ----- collecting the coins -----

  /** All stacks of coins worth something, at any depth. */
  function Flatten(ts: seq<Thing>): multiset<Entry>
  {
    if ts == [] then multiset{} else FlattenOne(ts[0]) + Flatten(ts[1..])
  }

  function FlattenOne(t: Thing): multiset<Entry>
  {
    match t
    case Other => multiset{}
    case Coins(id, s) => if Worth(s) == 0 then multiset{} else multiset{Entry(id, s)}
    case Bag(items) => Flatten(items)
  }

  /** The order of a multimap by worth; equal keys stay in order of insertion. */
  function Emplace(es: seq<Entry>, e: Entry): (r: seq<Entry>)
    requires Ascending(es)
    ensures Ascending(r) && multiset(r) == multiset(es) + multiset{e}
    ensures r != [] && (r[0] == e || (es != [] && r[0] == es[0]))
  {
    if es == [] then [e]
    else if Worth(e.stack) < Worth(es[0].stack) then
      assert multiset([e] + es) == multiset{e} + multiset(es);
      [e] + es
    else
      var rest := Emplace(es[1..], e);
      assert es == [es[0]] + es[1..];
      [es[0]] + rest
  }

  predicate Ascending(es: seq<Entry>)
  {
    |es| > 1 ==> Worth(es[0].stack) <= Worth(es[1].stack) && Ascending(es[1..])
  }

  function TotalOf(es: seq<Entry>): nat
  {
    if es == [] then 0 else Worth(es[0].stack) + TotalOf(es[1..])
  }

  /** The size of the containers still to be opened, for termination. */
  function Size(ts: seq<Thing>): nat
  {
    if ts == [] then 0 else SizeOne(ts[0]) + Size(ts[1..])
  }

  function SizeOne(t: Thing): nat
  {
    match t
    case Bag(items) => 1 + Size(items)
    case _ => 1
  }

  function FlattenAll(cs: seq<seq<Thing>>): multiset<Entry>
  {
    if cs == [] then multiset{} else Flatten(cs[0]) + FlattenAll(cs[1..])
  }

  function SizeAll(cs: seq<seq<Thing>>): nat
  {
    if cs == [] then 0 else 1 + Size(cs[0]) + SizeAll(cs[1..])
  }

  lemma {:induction false} EmplaceTotal(es: seq<Entry>, e: Entry)
    requires Ascending(es)
    ensures TotalOf(Emplace(es, e)) == TotalOf(es) + Worth(e.stack)
  {
    if es != [] && Worth(e.stack) >= Worth(es[0].stack) {
      EmplaceTotal(es[1..], e);
      assert Emplace(es, e)[1..] == Emplace(es[1..], e);
    } else {
      assert Emplace(es, e)[1..] == es;
    }
  }

  /** What one item adds to the worklist. */
  function Opens(t: Thing): seq<seq<Thing>>
  {
    if t.Bag? then [t.items] else []
  }

  function OpensAll(ts: seq<Thing>): seq<seq<Thing>>
  {
    if ts == [] then [] else Opens(ts[0]) + OpensAll(ts[1..])
  }

  /** The coins directly among the items. */
  function Loose(ts: seq<Thing>): multiset<Entry>
  {
    if ts == [] then multiset{} else LooseOne(ts[0]) + Loose(ts[1..])
  }

  function LooseOne(t: Thing): multiset<Entry>
  {
    if t.Bag? then multiset{} else FlattenOne(t)
  }

  lemma {:induction false} FirstItem(ts: seq<Thing>, k: nat, cs: seq<seq<Thing>>, m: multiset<Entry>)
    requires k < |ts|
    ensures cs + OpensAll(ts[k..]) == (cs + Opens(ts[k])) + OpensAll(ts[k + 1..])
    ensures m + Loose(ts[k..]) == (m + LooseOne(ts[k])) + Loose(ts[k + 1..])
  {
    assert ts[k..][1..] == ts[k + 1..];
  }

  /** Coins are loose or in one of the opened containers. */
  lemma {:induction false} LooseOrInside(ts: seq<Thing>)
    ensures Flatten(ts) == Loose(ts) + FlattenAll(OpensAll(ts))
    ensures SizeAll(OpensAll(ts)) <= Size(ts)
  {
    if ts != [] {
      LooseOrInside(ts[1..]);
      AllConcat(Opens(ts[0]), OpensAll(ts[1..]));
      if ts[0].Bag? {
        assert Opens(ts[0])[1..] == [];
      }
    }
  }

  /** One item: a container joins the worklist, a stack of coins the map. */
  method See(t: Thing, containers: seq<seq<Thing>>, money: seq<Entry>, moneyCount: nat)
    returns (containers': seq<seq<Thing>>, money': seq<Entry>, moneyCount': nat)
    requires Ascending(money) && moneyCount == TotalOf(money)
    ensures Ascending(money') && moneyCount' == TotalOf(money')
    ensures containers' == containers + Opens(t) && multiset(money') == multiset(money) + LooseOne(t)
  {
    containers', money', moneyCount' := containers, money, moneyCount;
    match t
    case Bag(items) =>
      containers' := containers + [items];
    case Coins(id, s) =>
      var worth := Worth(s);
      if worth != 0 {
        EmplaceTotal(money, Entry(id, s));
        moneyCount' := moneyCount + worth;
        money' := Emplace(money, Entry(id, s));
      }
    case Other =>
  }

  /** The items of one container. */
  method Open(container: seq<Thing>, containers: seq<seq<Thing>>, money: seq<Entry>, moneyCount: nat)
    returns (containers': seq<seq<Thing>>, money': seq<Entry>, moneyCount': nat)
    requires Ascending(money) && moneyCount == TotalOf(money)
    ensures Ascending(money') && moneyCount' == TotalOf(money')
    ensures containers' == containers + OpensAll(container)
    ensures multiset(money') == multiset(money) + Loose(container)
  {
    containers', money', moneyCount' := containers, money, moneyCount;
    assert container[0..] == container;
    for k := 0 to |container|
      invariant Ascending(money') && moneyCount' == TotalOf(money')
      invariant containers' + OpensAll(container[k..]) == containers + OpensAll(container)
      invariant multiset(money') + Loose(container[k..]) == multiset(money) + Loose(container)
    {
      hide *;
      FirstItem(container, k, containers', multiset(money'));
      containers', money', moneyCount' := See(container[k], containers', money', moneyCount');
    }
    assert container[|container|..] == [];
    assert OpensAll([]) == [] && Loose([]) == multiset{};
    hide *;
  }

  /** Every coin stack of the tree is found exactly once, cheapest first; the slots themselves are looked through like
      a container. */
  method Collect(slots: seq<Thing>) returns (money: seq<Entry>, moneyCount: nat)
    ensures multiset(money) == Flatten(slots) && Ascending(money) && moneyCount == TotalOf(money)
  {
    assert FlattenAll([]) == multiset{} && TotalOf([]) == 0 && Ascending([]);
    LooseOrInside(slots);
    hide *;
    var containers: seq<seq<Thing>>;
    containers, money, moneyCount := Open(slots, [], [], 0);
    assert [] + OpensAll(slots) == OpensAll(slots);
    var i := 0;
    assert containers[0..] == containers;
    while i < |containers|
      invariant i <= |containers| && Ascending(money) && moneyCount == TotalOf(money)
      invariant multiset(money) + FlattenAll(containers[i..]) == Flatten(slots)
      decreases SizeAll(containers[i..])
    {
      WorkStep(containers, i);
      var container := containers[i];
      DropAppend(containers, OpensAll(container), i + 1);
      Regroup(multiset(money), Loose(container), FlattenAll(containers[i + 1..] + OpensAll(container)));
      containers, money, moneyCount := Open(container, containers, money, moneyCount);
      i := i + 1;
    }
    assert containers[i..] == [];
  }

  lemma {:induction false} DropAppend<T>(a: seq<T>, b: seq<T>, i: nat)
    requires i <= |a|
    ensures (a + b)[i..] == a[i..] + b
  {
  }

  lemma {:induction false} Regroup<T>(a: multiset<T>, b: multiset<T>, c: multiset<T>)
    ensures (a + b) + c == a + (b + c)
  {
  }

  /** Opening the container at i replaces it in the worklist by the containers in it. */
  lemma {:induction false} WorkStep(containers: seq<seq<Thing>>, i: nat)
    requires i < |containers|
    ensures var after := containers[i + 1..] + OpensAll(containers[i]);
      FlattenAll(containers[i..]) == Loose(containers[i]) + FlattenAll(after) &&
        SizeAll(after) < SizeAll(containers[i..])
  {
    var rest := containers[i + 1..];
    assert containers[i..][1..] == rest;
    LooseOrInside(containers[i]);
    AllConcat(rest, OpensAll(containers[i]));
  }

  lemma {:induction false} AllConcat(a: seq<seq<Thing>>, b: seq<seq<Thing>>)
    ensures FlattenAll(a + b) == FlattenAll(a) + FlattenAll(b)
    ensures SizeAll(a + b) == SizeAll(a) + SizeAll(b)
  {
    if a == [] {
      assert a + b == b;
    } else {
      assert (a + b)[1..] == a[1..] + b;
      AllConcat(a[1..], b);
    }
  }

  // ----- what a player owns -----

  /** The stacks of coins a player holds, by item. */
  type Holdings = map<nat, Stack>

  function Worths(h: Holdings): (r: map<nat, nat>)
  {
    map k | k in h :: Worth(h[k])
  }

  ghost function Wealth(h: Holdings): nat
  {
    Sum(Worths(h))
  }

  lemma {:induction false} WealthWithout(h: Holdings, id: nat)
    requires id in h
    ensures Wealth(h) == Worth(h[id]) + Wealth(h - {id})
  {
    SumTake(Worths(h), id);
    assert Worths(h) - {id} == Worths(h - {id});
  }

  lemma {:induction false} WealthWith(h: Holdings, id: nat, s: Stack)
    ensures Wealth(h[id := s]) == Wealth(h) - (if id in h then Worth(h[id]) else 0) + Worth(s)
  {
    SumPut(Worths(h), id, Worth(s));
    assert Worths(h)[id := Worth(s)] == Worths(h[id := s]);
  }

  /** The entries are the stacks worth something, once each. */
  ghost predicate Covers(es: seq<Entry>, h: Holdings)
  {
    forall e :: multiset(es)[e] == if e.id in h && h[e.id] == e.stack && Worth(e.stack) > 0 then 1 else 0
  }

  lemma {:induction false} CoversRest(es: seq<Entry>, h: Holdings)
    requires es != [] && Covers(es, h)
    ensures es[0].id in h && h[es[0].id] == es[0].stack && Worth(es[0].stack) > 0 && Covers(es[1..], h - {es[0].id})
  {
    assert es == [es[0]] + es[1..];
    assert multiset(es)[es[0]] >= 1;
    forall e
      ensures multiset(es[1..])[e] ==
        if e.id in h - {es[0].id} && (h - {es[0].id})[e.id] == e.stack && Worth(e.stack) > 0 then 1 else 0
    {
      assert multiset(es)[e] == multiset(es[1..])[e] + if e == es[0] then 1 else 0;
    }
  }

  lemma {:induction false} CoveredWealth(es: seq<Entry>, h: Holdings)
    requires Covers(es, h)
    ensures TotalOf(es) == Wealth(h)
    decreases |es|
  {
    if es == [] {
      NothingCovered(es, h);
    } else {
      CoversRest(es, h);
      WealthWithout(h, es[0].id);
      CoveredWealth(es[1..], h - {es[0].id});
    }
  }

  lemma {:induction false} NothingCovered(es: seq<Entry>, h: Holdings)
    requires es == [] && Covers(es, h)
    ensures Wealth(h) == 0
    decreases |h|
  {
    if h != map[] {
      var k :| k in h;
      assert multiset(es)[Entry(k, h[k])] == 0;
      WealthWithout(h, k);
      assert Covers(es, h - {k}) by {
        forall e
          ensures multiset(es)[e] ==
            if e.id in h - {k} && (h - {k})[e.id] == e.stack && Worth(e.stack) > 0 then 1 else 0
        {
          assert multiset(es)[e] == 0;
        }
      }
      NothingCovered(es, h - {k});
    }
  }
}
