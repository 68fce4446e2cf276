/** Items in cylinders: tiles, containers and inventories (src/items/cylinder.hpp,
    src/items/item.hpp, and removeThing, updateThing, addThing and queryRemove in
    src/items/containers/container.cpp, src/items/tile.cpp).

    A cylinder holds items by identity; where in its list an item lies is not modelled.
  */
module Cylinders {
  import opened Sums

  const WORD32: nat := 0x1_0000_0000

  /** What must agree for items to be the same goods: the item type with its stacking rules, and the tier. */
  datatype Kind = Kind(id: nat, tier: nat, stackable: bool, stackSize: nat)

  /** The count is one byte wide. */
  datatype Item = Item(kind: Kind, count: nat)

  type Items = map<nat, Item>

  /** Answers of the queries; everything but NoError and NeedExchange is an error to the caller. */
  datatype Reply = NoError | NeedExchange | Refused(code: nat)

  function Amounts(m: Items, k: Kind): map<nat, nat>
  {
    map id | id in m :: if m[id].kind == k then m[id].count else 0
  }

  /** How many of a kind. */
  ghost function Count(m: Items, k: Kind): nat
  {
    Sum(Amounts(m, k))
  }

  function Of(i: Item, k: Kind): nat
  {
    if i.kind == k then i.count else 0
  }

  lemma {:induction false} CountPut(m: Items, id: nat, i: Item, k: Kind)
    ensures Count(m[id := i], k) == Count(m, k) - (if id in m then Of(m[id], k) else 0) + Of(i, k)
  {
    SumPut(Amounts(m, k), id, Of(i, k));
    assert Amounts(m, k)[id := Of(i, k)] == Amounts(m[id := i], k);
  }

  lemma {:induction false} CountTake(m: Items, id: nat, k: Kind)
    requires id in m
    ensures Count(m - {id}, k) == Count(m, k) - Of(m[id], k)
  {
    SumTake(Amounts(m, k), id);
    assert Amounts(m, k) - {id} == Amounts(m - {id}, k);
  }

  /** Counts are bytes, and so are stack sizes; what cannot be stacked is there. */
  predicate ByteItem(i: Item)
  {
    i.count < 256 && if i.kind.stackable then i.kind.stackSize < 256 else 1 <= i.count
  }

  ghost predicate Bytes(m: Items)
  {
    forall id :: id in m ==> ByteItem(m[id])
  }

  /** Coins minted for large sums lie in such stacks. */
  predicate Overfull(i: Item)
  {
    i.kind.stackable && i.count > i.kind.stackSize
  }

  ghost predicate NoneOverfull(m: Items)
  {
    forall id :: id in m ==> !Overfull(m[id])
  }

  /** The room of a stack, a difference of 32 bits. */
  function Room(i: Item): nat
  {
    (i.kind.stackSize - i.count) % WORD32
  }

  function Min(a: nat, b: nat): nat
  {
    if a <= b then a else b
  }

  /** What is lost when m more fall on a stack: the room of an overfull one wraps around and takes everything, and the
      count is cut to its byte. */
  function Spill(on: Item, m: nat): nat
  {
    if Overfull(on) && on.count + m >= 256 then 256 else 0
  }

  lemma {:induction false} FilledCount(on: Item, m: nat)
    requires ByteItem(on) && on.kind.stackable && m < 256
    ensures var n := Min(Room(on), m); (on.count + n) % 256 == on.count + n - Spill(on, m)
    ensures Overfull(on) ==> Room(on) > m
    ensures !Overfull(on) ==> Room(on) == on.kind.stackSize - on.count
  {
    if on.count > on.kind.stackSize {
      assert Room(on) == WORD32 + on.kind.stackSize - on.count;
    }
  }

  class Cylinder {
    var items: Items

    /** queryRemove: every implementation refuses an item that is not here, no item, and more than the stack has. */
    function QueryRemove(id: nat, count: nat, answer: Reply): Reply
      reads this
    {
      if id !in items then Refused(0)
      else if count == 0 || (items[id].kind.stackable && count > items[id].count) then Refused(0)
      else answer
    }

    method AddThing(id: nat, i: Item)
      requires id !in items
      modifies this
      ensures items == old(items)[id := i]
      ensures forall k :: Count(items, k) == old(Count(items, k)) + Of(i, k)
    {
      forall k ensures Count(items[id := i], k) == Count(items, k) + Of(i, k) {
        CountPut(items, id, i, k);
      }
      items := items[id := i];
    }

    /** Part of a stack, or the whole item. */
    method RemoveThing(id: nat, count: nat)
      requires id in items
      modifies this
      ensures old(items)[id].kind.stackable && count < old(items)[id].count ==>
        items == old(items)[id := old(items)[id].(count := old(items)[id].count - count)]
      ensures !old(items)[id].kind.stackable || count == old(items)[id].count ==> items == old(items) - {id}
      ensures old(items)[id].kind.stackable && count <= old(items)[id].count ==>
        forall k :: Count(items, k) == old(Count(items, k)) - Of(old(items)[id].(count := count), k)
      ensures !old(items)[id].kind.stackable ==>
        forall k :: Count(items, k) == old(Count(items, k)) - Of(old(items)[id], k)
    {
      var i := items[id];
      if i.kind.stackable && count != i.count {
        var left := i.(count := if count < i.count then i.count - count else 0);
        forall k ensures Count(items[id := left], k) == Count(items, k) - Of(i, k) + Of(left, k) {
          CountPut(items, id, left, k);
        }
        items := items[id := left];
      } else {
        forall k ensures Count(items - {id}, k) == Count(items, k) - Of(i, k) {
          CountTake(items, id, k);
        }
        items := items - {id};
      }
    }

    /** Sets the count of an item here; the count is cut to its byte. */
    method UpdateThing(id: nat, count: nat)
      requires id in items
      modifies this
      ensures items == old(items)[id := old(items)[id].(count := count % 256)]
      ensures count < 256 ==> count % 256 == count
      ensures forall k :: Count(items, k) == old(Count(items, k)) - Of(old(items)[id], k) + Of(items[id], k)
    {
      var i := items[id].(count := count % 256);
      forall k ensures Count(items[id := i], k) == Count(items, k) - Of(items[id], k) + Of(i, k) {
        CountPut(items, id, i, k);
      }
      items := items[id := i];
    }

    /** At most m more on a stack, as many as it seems to have room for. */
    method Fill(id: nat, m: nat) returns (n: nat)
      requires id in items && items[id].kind.stackable && Bytes(items) && m < 256
      modifies this
      ensures Bytes(items) && n == Min(Room(old(items)[id]), m)
      ensures old(NoneOverfull(items)) ==> NoneOverfull(items)
      ensures items == old(items)[id := old(items)[id].(count := old(items)[id].count + n - Spill(old(items)[id], m))]
      ensures forall k ::
        Count(items, k) ==
        old(Count(items, k)) + Of(items[id].(count := n), k) - Of(items[id].(count := Spill(old(items)[id], m)), k)
    {
      var i := items[id];
      FilledCount(i, m);
      n := Min(Room(i), m);
      UpdateThing(id, i.count + n);
    }
  }

  // ----- two cylinders, possibly the same -----

  /** How many of a kind both hold together. */
  ghost function Held(a: Cylinder, b: Cylinder, k: Kind): nat
    reads a, b
  {
    if a == b then Count(a.items, k) else Count(a.items, k) + Count(b.items, k)
  }

  /** An item lies in one cylinder only. */
  ghost predicate Apart(a: Cylinder, b: Cylinder)
    reads a, b
  {
    a != b ==> forall id :: id in a.items ==> id !in b.items
  }

  ghost predicate BytesBoth(a: Cylinder, b: Cylinder)
    reads a, b
  {
    Bytes(a.items) && Bytes(b.items)
  }

  ghost predicate NoneOverfullBoth(a: Cylinder, b: Cylinder)
    reads a, b
  {
    NoneOverfull(a.items) && NoneOverfull(b.items)
  }
}
