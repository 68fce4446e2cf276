/** Goods moving in and out of a player's hands on the market (src/game/game.cpp:
    removeOfferItems and the delivery loops; withdrawItem in src/creatures/players/player.hpp).

    A purse holds what a player owns: money in the bank, in his bags and on the tile he
    stands on, the supply stash, and the items of his depots, which contain the inbox.
  */
module MarketGoods {
  import opened Cylinders

  const WORD16: nat := 0x1_0000

  datatype Purse = Purse(account: nat, bank: nat, cash: nat, ground: nat, stash: map<Kind, nat>, depot: Items,
      next: nat)

  function Wealth(p: Purse): nat
  {
    p.bank + p.cash + p.ground
  }

  function Stashed(p: Purse, k: Kind): nat
  {
    if k in p.stash then p.stash[k] else 0
  }

  /** How many of a kind the player owns. */
  ghost function Have(p: Purse, k: Kind): nat
  {
    Count(p.depot, k) + Stashed(p, k)
  }

  /** What cannot be stacked lies single; identities from `next` on are unused; the stash takes only stackable items
      without a tier. */
  ghost predicate Stocked(p: Purse)
  {
    && (forall id :: id in p.depot ==> id < p.next && (!p.depot[id].kind.stackable ==> p.depot[id].count == 1))
    && (forall k :: k in p.stash ==> k.stackable && k.tier == 0)
  }

  /** The money and the account stay. */
  predicate SameMoney(p: Purse, q: Purse)
  {
    p.account == q.account && p.bank == q.bank && p.cash == q.cash && p.ground == q.ground
  }

  // ----- taking the goods of an offer -----

  /** The purse afterwards, what is still to be taken, and whether nothing went wrong. */
  datatype Taking = Taking(purse: Purse, left: nat, ok: bool)

  function Plain(k: Kind): Kind
  {
    k.(tier := 0)
  }

  /** The stash is asked by item type alone. */
  function FromStash(p: Purse, k: Kind, amount: nat): Taking
  {
    var s := Stashed(p, Plain(k));
    if s == 0 then Taking(p, amount, true)
    else if amount >= s then Taking(p.(stash := p.stash - {Plain(k)}), amount - s, true)
    else Taking(p.(stash := p.stash[Plain(k) := s - amount]), 0, true)
  }

  function Without(p: Purse, id: nat, n: nat): Purse
    requires id in p.depot && n <= p.depot[id].count
  {
    if n == p.depot[id].count then p.(depot := p.depot - {id})
    else p.(depot := p.depot[id := p.depot[id].(count := p.depot[id].count - n)])
  }

  /** Different items of the kind. */
  ghost predicate Found(p: Purse, k: Kind, found: seq<nat>)
  {
    && (forall i :: 0 <= i < |found| ==> found[i] in p.depot && p.depot[found[i]].kind == k)
    && (forall i, j :: 0 <= i < j < |found| ==> found[i] != found[j])
  }

  /** Stack after stack, until nothing is left to take or a removal fails. */
  ghost function FromStacks(p: Purse, k: Kind, found: seq<nat>, left: nat, fails: set<nat>): Taking
    requires Found(p, k, found)
    decreases |found|
  {
    if found == [] then Taking(p, left, true)
    else
      var n := Min(left, p.depot[found[0]].count);
      if found[0] in fails then Taking(p, left - n, false)
      else if left - n == 0 then Taking(Without(p, found[0], n), 0, true)
      else FromStacks(Without(p, found[0], n), k, found[1..], left - n, fails)
  }

  /** Item after item, as many as the offer has; the counter is 16 bits wide. */
  ghost function FromSingles(p: Purse, k: Kind, found: seq<nat>, amount: nat, count: nat, left: nat,
      fails: set<nat>): Taking
    requires Found(p, k, found)
    decreases |found|
  {
    if found == [] then Taking(p, left, true)
    else
      var c := p.depot[found[0]].count;
      if count + c > amount then Taking(p, left, true)
      else if found[0] in fails then Taking(p, left, false)
      else FromSingles(Without(p, found[0], c), k, found[1..], amount, count + c, (left + WORD16 - 1) % WORD16, fails)
  }

  ghost function RemoveItems(p: Purse, k: Kind, amount: nat, found: seq<nat>, fails: set<nat>): Taking
    requires Found(p, k, found)
  {
    var t := FromStash(p, k, amount);
    if t.left == 0 then t
    else if |found| % WORD16 == 0 then Taking(t.purse, t.left, false)
    else
      var u := if k.stackable then FromStacks(t.purse, k, found, t.left, fails)
        else FromSingles(t.purse, k, found, amount, 0, t.left, fails);
      Taking(u.purse, u.left, u.ok && u.left == 0)
  }

  lemma {:induction false} HaveWithout(p: Purse, id: nat, n: nat, k: Kind)
    requires id in p.depot && n <= p.depot[id].count
    ensures Have(Without(p, id, n), k) == Have(p, k) - (if p.depot[id].kind == k then n else 0)
  {
    CountTake(p.depot, id, k);
    CountPut(p.depot, id, p.depot[id].(count := p.depot[id].count - n), k);
  }

  lemma {:induction false} FoundRest(p: Purse, k: Kind, found: seq<nat>, n: nat)
    requires Found(p, k, found) && found != [] && n <= p.depot[found[0]].count
    ensures Found(Without(p, found[0], n), k, found[1..])
    ensures Stocked(p) && (n == p.depot[found[0]].count || k.stackable) ==> Stocked(Without(p, found[0], n))
    ensures SameMoney(Without(p, found[0], n), p)
  {
  }

  /** The items that can be taken one after the other before a removal fails, counted. */
  function Before(depot: Items, found: seq<nat>, fails: set<nat>): nat
    requires forall i :: 0 <= i < |found| ==> found[i] in depot
  {
    if found == [] || found[0] in fails then 0 else depot[found[0]].count + Before(depot, found[1..], fails)
  }

  function Counted(depot: Items, found: seq<nat>): nat
    requires forall i :: 0 <= i < |found| ==> found[i] in depot
  {
    if found == [] then 0 else depot[found[0]].count + Counted(depot, found[1..])
  }

  /** It is the count of the items up to the first that cannot be removed. */
  lemma {:induction false} BeforeFirstFailure(depot: Items, found: seq<nat>, fails: set<nat>, n: nat)
    requires forall i :: 0 <= i < |found| ==> found[i] in depot
    requires n <= |found| && (forall i :: 0 <= i < n ==> found[i] !in fails) && (n < |found| ==> found[n] in fails)
    ensures Before(depot, found, fails) == Counted(depot, found[..n])
    decreases |found|
  {
    if n > 0 {
      assert found[..n][1..] == found[1..][..n - 1];
      assert forall i :: 0 <= i < |found| - 1 ==> found[1..][i] == found[i + 1];
      BeforeFirstFailure(depot, found[1..], fails, n - 1);
    }
  }

  lemma {:induction false} BeforeRest(p: Purse, k: Kind, found: seq<nat>, n: nat, fails: set<nat>)
    requires Found(p, k, found) && found != [] && n <= p.depot[found[0]].count
    ensures Found(Without(p, found[0], n), k, found[1..])
    ensures Before(Without(p, found[0], n).depot, found[1..], fails) == Before(p.depot, found[1..], fails)
  {
    FoundRest(p, k, found, n);
    BeforeSame(p.depot, Without(p, found[0], n).depot, found[1..], fails);
  }

  lemma {:induction false} BeforeSame(depot: Items, depot': Items, found: seq<nat>, fails: set<nat>)
    requires forall i :: 0 <= i < |found| ==>
      found[i] in depot && found[i] in depot' && depot[found[i]] == depot'[found[i]]
    ensures Before(depot, found, fails) == Before(depot', found, fails)
    decreases |found|
  {
    if found != [] {
      assert forall i :: 0 <= i < |found[1..]| ==> found[1..][i] == found[i + 1];
      BeforeSame(depot, depot', found[1..], fails);
    }
  }

  /** The loop over stacks takes only the kind: all that is wanted, if that much precedes the first failure, and
      otherwise all that precedes it. */
  lemma {:induction false} StacksTake(p: Purse, k: Kind, found: seq<nat>, left: nat, fails: set<nat>, j: Kind)
    requires Found(p, k, found) && Stocked(p) && k.stackable && left > 0
    ensures var t := FromStacks(p, k, found, left, fails); var reached := Before(p.depot, found, fails);
      && Stocked(t.purse) && SameMoney(p, t.purse) && (t.ok && t.left == 0 <==> reached >= left)
      && Have(t.purse, j) == Have(p, j) - (if j == k then Min(left, reached) else 0)
    decreases |found|
  {
    if found != [] && found[0] !in fails {
      var n := Min(left, p.depot[found[0]].count);
      HaveWithout(p, found[0], n, j);
      FoundRest(p, k, found, n);
      BeforeRest(p, k, found, n, fails);
      hide Found, Stocked, Have, Without;
      if left - n != 0 {
        StacksTake(Without(p, found[0], n), k, found[1..], left - n, fails, j);
      }
    }
  }

  /** The loop over single items does the same, and its counter does not wrap. */
  lemma {:induction false} SinglesTake(p: Purse, k: Kind, found: seq<nat>, amount: nat, count: nat, left: nat,
      fails: set<nat>, j: Kind)
    requires Found(p, k, found) && Stocked(p) && !k.stackable && count + left == amount < WORD16
    ensures var t := FromSingles(p, k, found, amount, count, left, fails); var reached := Before(p.depot, found, fails);
      && Stocked(t.purse) && SameMoney(p, t.purse) && (t.ok && t.left == 0 <==> reached >= left)
      && Have(t.purse, j) == Have(p, j) - (if j == k then Min(left, reached) else 0)
    decreases |found|
  {
    if found != [] {
      assert p.depot[found[0]].count == 1;
      if count + 1 <= amount && found[0] !in fails {
        HaveWithout(p, found[0], 1, j);
        FoundRest(p, k, found, 1);
        BeforeRest(p, k, found, 1, fails);
        assert (left + WORD16 - 1) % WORD16 == left - 1;
        hide Found, Stocked, Have, Without;
        SinglesTake(Without(p, found[0], 1), k, found[1..], amount, count + 1, left - 1, fails, j);
      }
    }
  }

  /** What the stash contributes. */
  function StashPart(p: Purse, k: Kind, amount: nat): nat
  {
    Min(Stashed(p, Plain(k)), amount)
  }

  lemma {:induction false} StashTakes(p: Purse, k: Kind, amount: nat, j: Kind)
    requires Stocked(p)
    ensures var t := FromStash(p, k, amount);
      && t.left == amount - StashPart(p, k, amount) && t.purse.depot == p.depot && Stocked(t.purse) &&
        SameMoney(p, t.purse)
      && Have(t.purse, j) == Have(p, j) - (if j == Plain(k) then StashPart(p, k, amount) else 0)
  {
  }

  /** What can be taken of the items found: nothing if their number is a multiple of 2^16. */
  function Reached(p: Purse, found: seq<nat>, fails: set<nat>): nat
    requires forall i :: 0 <= i < |found| ==> found[i] in p.depot
  {
    if |found| % WORD16 == 0 then 0 else Before(p.depot, found, fails)
  }

  /** Whether a removal succeeds, from what lies in stash and depot. */
  predicate Enough(p: Purse, k: Kind, amount: nat, found: seq<nat>, fails: set<nat>)
    requires forall i :: 0 <= i < |found| ==> found[i] in p.depot
  {
    StashPart(p, k, amount) + Reached(p, found, fails) >= amount
  }

  /** What a removal takes of a kind: from the stash without regard to the tier, and the rest of the kind asked for as
      far as it reaches. */
  function Takes(p: Purse, k: Kind, amount: nat, found: seq<nat>, fails: set<nat>, j: Kind): nat
    requires forall i :: 0 <= i < |found| ==> found[i] in p.depot
  {
    var s := StashPart(p, k, amount);
    (if j == Plain(k) then s else 0) + (if j == k then Min(amount - s, Reached(p, found, fails)) else 0)
  }

  /** A removal succeeds exactly if there is enough; either way exactly what is stated leaves, and no money. What a
      failed one took is gone. */
  lemma {:induction false} RemovalTakes(p: Purse, k: Kind, amount: nat, found: seq<nat>, fails: set<nat>, j: Kind)
    requires Found(p, k, found) && Stocked(p) && amount < WORD16
    ensures var t := RemoveItems(p, k, amount, found, fails);
      && Stocked(t.purse) && SameMoney(p, t.purse) && (t.ok <==> Enough(p, k, amount, found, fails))
      && Have(t.purse, j) == Have(p, j) - Takes(p, k, amount, found, fails, j)
  {
    StashTakes(p, k, amount, j);
    var t := FromStash(p, k, amount);
    assert Found(t.purse, k, found);
    if t.left != 0 && |found| % WORD16 != 0 {
      if k.stackable {
        StacksTake(t.purse, k, found, t.left, fails, j);
      } else {
        assert Plain(k) !in p.stash;
        SinglesTake(t.purse, k, found, amount, 0, t.left, fails, j);
      }
    }
    hide Have, FromStacks, FromSingles, Before, Stocked, FromStash;
  }

  /** A failed removal loses nothing exactly if the stash holds none and nothing countable precedes the failure. */
  lemma {:induction false} FailureLosesNothingIff(p: Purse, k: Kind, amount: nat, found: seq<nat>, fails: set<nat>)
    requires Found(p, k, found) && Stocked(p) && amount < WORD16 && !Enough(p, k, amount, found, fails)
    ensures (forall j :: Have(RemoveItems(p, k, amount, found, fails).purse, j) == Have(p, j)) <==>
      Stashed(p, Plain(k)) == 0 && Reached(p, found, fails) == 0
  {
    var after := RemoveItems(p, k, amount, found, fails).purse;
    RemovalTakes(p, k, amount, found, fails, k);
    RemovalTakes(p, k, amount, found, fails, Plain(k));
    hide RemoveItems, Have, Reached, Stashed, Found, Stocked;
    if Stashed(p, Plain(k)) == 0 && Reached(p, found, fails) == 0 {
      forall j ensures Have(after, j) == Have(p, j) {
        RemovalTakes(p, k, amount, found, fails, j);
      }
    }
  }

  /** One item in the stash, two wanted: the removal fails and the item is gone. */
  lemma {:induction false} FailureLosesStash(k: Kind)
    requires k.stackable && k.tier == 0
    ensures var p := Purse(1, 20, 0, 0, map[k := 1], map[], 0);
      !RemoveItems(p, k, 2, [], {}).ok && Have(RemoveItems(p, k, 2, [], {}).purse, k) == Have(p, k) - 1
  {
    var p := Purse(1, 20, 0, 0, map[k := 1], map[], 0);
    assert Plain(k) == k && Stocked(p) && Found(p, k, []);
    RemovalTakes(p, k, 2, [], {}, k);
    hide RemoveItems, Have;
  }

  // ----- delivering goods -----

  /** One item created for a delivery. */
  function Portion(k: Kind, n: nat): nat
  {
    if k.stackable then Min(k.stackSize, n) else Min(1, n)
  }

  function Received(p: Purse, k: Kind, n: nat): Purse
  {
    p.(depot := p.depot[p.next := Item(k, n)], next := p.next + 1)
  }

  predicate Splits(k: Kind)
  {
    k.stackable ==> 1 <= k.stackSize
  }

  function Deliver(p: Purse, k: Kind, n: nat): Purse
    requires Splits(k)
    decreases n
  {
    if n == 0 then p else Deliver(Received(p, k, Portion(k, n)), k, n - Portion(k, n))
  }

  lemma {:induction false} ReceivedOne(p: Purse, k: Kind, n: nat, j: Kind)
    requires Stocked(p) && (k.stackable || n == 1)
    ensures var q := Received(p, k, n);
      Have(q, j) == Have(p, j) + (if j == k then n else 0) && SameMoney(p, q) && Stocked(q)
  {
    CountPut(p.depot, p.next, Item(k, n), j);
  }

  /** A delivery of n is worth exactly n and touches neither the money nor the stash. */
  lemma {:induction false} DeliversExactly(p: Purse, k: Kind, n: nat, j: Kind)
    requires Splits(k) && Stocked(p)
    ensures var q := Deliver(p, k, n);
      Have(q, j) == Have(p, j) + (if j == k then n else 0) && SameMoney(p, q) && Stocked(q)
    decreases n
  {
    if n > 0 {
      var m := Portion(k, n);
      ReceivedOne(p, k, m, j);
      hide Have, Stocked;
      DeliversExactly(Received(p, k, m), k, n - m, j);
    }
  }

  lemma {:induction false} OneStackLess(n: nat, size: nat)
    requires n > 0 && size > 0
    ensures (n + size - 1) / size == 1 + if n <= size then 0 else (n - size + size - 1) / size
    ensures (0 + size - 1) / size == 0
  {
    var q, r := (n - 1) / size, (n - 1) % size;
    assert n - 1 == size * q + r;
    Quotient(n + size - 1, size, q + 1, r);
    if n <= size {
      Quotient(n - 1, size, 0, n - 1);
    } else {
      Quotient(n - size + size - 1, size, q, r);
    }
    Quotient(size - 1, size, 0, size - 1);
  }

  lemma {:induction false} Quotient(x: nat, size: nat, q: nat, r: nat)
    requires size > 0 && r < size && x == size * q + r
    ensures x / size == q
  {
    var p := x / size;
    assert size * p <= x < size * p + size;
    AtMost(size, q, p);
    AtMost(size, p, q);
  }

  lemma {:induction false} Grows(size: nat, a: nat, b: nat)
    requires a <= b
    ensures size * a <= size * b
  {
    if a < b {
      Grows(size, a, b - 1);
      assert size * b == size * (b - 1) + size;
    }
  }

  lemma {:induction false} AtMost(size: nat, a: nat, b: nat)
    requires size * a < size * b + size
    ensures a <= b
  {
    assert size * (b + 1) == size * b + size;
    if a > b {
      Grows(size, b + 1, a);
    }
  }

  /** It arrives in as few items of the kind as their size allows, beside what was there. */
  lemma {:induction false} DeliversStacks(p: Purse, k: Kind, n: nat)
    requires Splits(k) && Stocked(p)
    ensures var q := Deliver(p, k, n);
      && q.stash == p.stash
      && (forall id :: id in p.depot ==> id in q.depot && q.depot[id] == p.depot[id])
      && (forall id :: id in q.depot && id !in p.depot ==>
        q.depot[id].kind == k && 1 <= q.depot[id].count && (k.stackable ==> q.depot[id].count <= k.stackSize))
      && q.next - p.next == (if k.stackable then (n + k.stackSize - 1) / k.stackSize else n)
    decreases n
  {
    if n > 0 {
      if k.stackable {
        OneStackLess(n, k.stackSize);
      }
      DeliversStacks(Received(p, k, Portion(k, n)), k, n - Portion(k, n));
    }
  }
}
