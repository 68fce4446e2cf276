/** Paying and giving change (src/game/game.cpp: removeMoney, addMoney).

    A player owns stacks of coins, lying anywhere in his containers, and a bank
    balance; coins that find no place fall on the tile he stands on. Where a coin is
    put is unseen code: any answer is allowed that adds the coins of that kind and
    leaves the stacks of the other kinds as they are.
  */
module Payment {
  import opened Minting
  import opened Money

  const WORD: nat := 0x1_0000_0000_0000_0000

  datatype Placement = Refused | Placed(after: Holdings)

  /** The stacks of one kind are the same in both. */
  ghost predicate Kept(h: Holdings, h': Holdings, k: Kind)
  {
    && (forall id :: id in h && h[id].kind == k ==> id in h' && h'[id] == h[id])
    && (forall id :: id in h' && h'[id].kind == k ==> id in h && h'[id] == h[id])
  }

  /** Stacks whose coins are worth more than n are the same in both. */
  ghost predicate KeptAbove(h: Holdings, h': Holdings, n: nat)
  {
    forall k :: Unit(k) > n ==> Kept(h, h', k)
  }

  lemma {:induction false} KeptAboveTrans(a: Holdings, b: Holdings, c: Holdings, n: nat)
    requires KeptAbove(a, b, n) && KeptAbove(b, c, n)
    ensures KeptAbove(a, c, n)
  {
    forall k | Unit(k) > n ensures Kept(a, c, k) {
      assert Kept(a, b, k) && Kept(b, c, k);
    }
  }

  lemma {:induction false} KeptBelowToo(h: Holdings, h': Holdings, n: nat, m: nat)
    requires KeptAbove(h, h', n) && n <= m
    ensures KeptAbove(h, h', m)
  {
    forall k | Unit(k) > m ensures Kept(h, h', k) {
      assert Unit(k) > n;
    }
  }

  /** The coins of s were added, to stacks old or new; no other kind changed. */
  ghost predicate Adds(h: Holdings, s: Stack, h': Holdings)
  {
    && Wealth(h') == Wealth(h) + Worth(s)
    && forall k :: k != s.kind ==> Kept(h, h', k)
  }

  lemma {:induction false} KeptItself(h: Holdings, n: nat)
    ensures KeptAbove(h, h, n)
  {
  }

  lemma {:induction false} MintedParts(money: nat)
    ensures StacksWorth(Minted(money)) ==
      StacksWorth(CrystalStacks(Crystals(money))) + StacksWorth(PlatinumStacks(AfterCrystals(money))) +
      StacksWorth(GoldStacks(AfterCrystals(money)))
  {
    hide CrystalStacks, PlatinumStacks, GoldStacks, StacksWorth;
    var left := AfterCrystals(money);
    var cs, ps, gs := CrystalStacks(Crystals(money)), PlatinumStacks(left), GoldStacks(left);
    StacksWorthConcat(cs, ps);
    StacksWorthConcat(cs + ps, gs);
  }

  /** The first stack of crystals. */
  lemma {:induction false} CrystalStep(c: nat)
    requires c > 0
    ensures var n := if c < 100 then c else 100;
      StacksWorth(CrystalStacks(c)) == Worth(Stack(Crystal, Stored(n))) + StacksWorth(CrystalStacks(c - n))
  {
    var n := if c < 100 then c else 100;
    assert CrystalStacks(c)[1..] == CrystalStacks(c - n);
  }

  /** The least number of coins of the given worth that reach the price. */
  function CoinsFor(price: nat, worth: nat): nat
    requires worth > 0
  {
    (price + worth - 1) / worth
  }

  lemma {:induction false} Cancel(a: nat, b: nat, w: int)
    requires a * w < b * w && w >= 0
    ensures a < b && w > 0
  {
    assert (b - a) * w > 0;
  }

  /** Breaking a stack dearer than the price: the change is less than one of its coins. */
  lemma {:induction false} ChangeIsSmall(price: nat, worth: nat, count: nat)
    requires 0 < price < count * worth
    ensures worth > 0
    ensures var n := CoinsFor(price, worth);
      1 <= n <= count && price <= n * worth < price + worth
  {
    Cancel(0, count, worth);
    var n := CoinsFor(price, worth);
    var r := (price + worth - 1) % worth;
    assert price + worth - 1 == n * worth + r;
    Cancel(0, n, worth);
    assert n * worth < (count + 1) * worth;
    Cancel(n, count + 1, worth);
  }

  lemma {:induction false} SmallChange(n: nat)
    requires n < 10000
    ensures n < WORD && Exact(n)
  {
    ExactBelow(n);
  }

  /** A stack of dearer coins is still there. */
  lemma {:induction false} StackKept(h: Holdings, h': Holdings, n: nat, id: nat)
    requires KeptAbove(h, h', n) && id in h && Unit(h[id].kind) > n
    ensures id in h' && h'[id] == h[id]
  {
    assert Kept(h, h', h[id].kind);
  }

  lemma {:induction false} UnitOfStack(s: Stack)
    requires Worth(s) > 0
    ensures s.count > 0 && Worth(s) / s.count == Unit(s.kind) && Worth(s) == s.count * Unit(s.kind) &&
      Unit(s.kind) <= 10000
  {
  }

  lemma {:induction false} WorthHasCoins(s: Stack)
    requires Worth(s) > 0
    ensures s.count > 0
  {
  }

  /** The entries before the i-th are worth the price, and their coins are no dearer than its own. */
  predicate Sufficing(es: seq<Entry>, i: nat, price: nat)
    requires i < |es|
  {
    TotalOf(es[..i]) >= price && forall j :: 0 <= j < i ==> Unit(es[j].stack.kind) <= Unit(es[i].stack.kind)
  }

  lemma {:induction false} TotalUpTo(es: seq<Entry>, j: nat)
    requires j < |es|
    ensures TotalOf(es[..j + 1]) == TotalOf(es[..j]) + Worth(es[j].stack)
  {
    if j > 0 {
      TotalUpTo(es[1..], j - 1);
      assert es[..j + 1][1..] == es[1..][..j] && es[..j][1..] == es[1..][..j - 1];
    }
  }

  lemma {:induction false} TotalGrows(es: seq<Entry>, i: nat, j: nat)
    requires i <= j <= |es|
    ensures TotalOf(es[..i]) <= TotalOf(es[..j])
  {
    if i < j {
      TotalGrows(es, i, j - 1);
      TotalUpTo(es, j - 1);
    }
  }

  /** The entries not yet used are stacks the player still owns, all of them different. */
  lemma {:induction false} StillThere(es: seq<Entry>, j: nat, h: Holdings)
    requires j <= |es| && Covers(es[j..], h)
    ensures forall i :: j <= i < |es| ==> es[i].id in h && h[es[i].id] == es[i].stack
    ensures forall i, k :: j <= i < k < |es| ==> es[i].id != es[k].id
    decreases |es| - j
  {
    if j < |es| {
      CoversRest(es[j..], h);
      assert es[j..][1..] == es[j + 1..];
      StillThere(es, j + 1, h - {es[j].id});
    }
  }

  /** Entries that the others suffice for come after the one under way. */
  lemma {:induction false} OnlyLater(es: seq<Entry>, j: nat, price: nat)
    requires j < |es| && TotalOf(es[..j]) < price
    ensures forall i :: 0 <= i < |es| && Sufficing(es, i, price) ==>
      i > j && Unit(es[j].stack.kind) <= Unit(es[i].stack.kind)
  {
    forall i | 0 <= i < |es| && Sufficing(es, i, price)
      ensures i > j
    {
      if i <= j {
        TotalGrows(es, i, j);
      }
    }
  }

  lemma {:induction false} NeverEnough(es: seq<Entry>, price: nat)
    requires TotalOf(es) < price
    ensures forall i :: 0 <= i < |es| ==> !Sufficing(es, i, price)
  {
    forall i | 0 <= i < |es|
      ensures TotalOf(es[..i]) < price
    {
      TotalGrows(es, i, |es|);
      assert es[..|es|] == es;
    }
  }

  class Player {
    var coins: Holdings
    var ground: Holdings
    var bankBalance: nat
    /** The answers of the player's containers and of the tile. */
    const addToPlayer: (Holdings, Stack) -> Placement
    const addToTile: (Holdings, Stack) -> Holdings

    function PlayerAnswer(h: Holdings, s: Stack): Placement
    {
      addToPlayer(h, s)
    }

    function TileAnswer(h: Holdings, s: Stack): Holdings
    {
      addToTile(h, s)
    }

    /** A coin item is added whole or refused; a tile without limits never refuses. */
    ghost predicate Honest()
    {
      && (forall h, s :: PlayerAnswer(h, s).Placed? ==> Adds(h, s, PlayerAnswer(h, s).after))
      && (forall h, s :: Adds(h, s, TileAnswer(h, s)))
    }

    /** The player's containers take every coin, or none. */
    ghost predicate Roomy()
    {
      forall h, s :: PlayerAnswer(h, s).Placed?
    }

    ghost predicate Full()
    {
      forall h, s :: PlayerAnswer(h, s) == Refused
    }

    ghost function CoinWealth(): nat
      reads this
    {
      Wealth(coins) + Wealth(ground)
    }

    method AddCoins(s: Stack)
      requires Honest()
      modifies `coins, `ground
      ensures CoinWealth() == old(CoinWealth()) + Worth(s)
      ensures KeptAbove(old(coins), coins, Unit(s.kind))
      ensures Wealth(ground) >= old(Wealth(ground))
      // what the player's containers take stays off the tile, and only what they refuse falls on it
      ensures if PlayerAnswer(old(coins), s).Placed? then ground == old(ground) else coins == old(coins)
      ensures (Roomy() ==> ground == old(ground)) && (Full() ==> coins == old(coins))
    {
      var answer := PlayerAnswer(coins, s);
      if answer.Placed? {
        coins := answer.after;
      } else {
        ground := TileAnswer(ground, s);
      }
    }

    /** The player and his tile together receive what the minted stacks are worth; that is the money exactly under the
        stated condition. Stacks of dearer coins are not touched. */
    method AddMoney(money: nat)
      requires Honest() && money < WORD
      modifies `coins, `ground
      ensures CoinWealth() == old(CoinWealth()) + StacksWorth(Minted(money))
      ensures CoinWealth() == old(CoinWealth()) + money <==> Exact(money)
      ensures KeptAbove(old(coins), coins, money)
      ensures Wealth(ground) >= old(Wealth(ground))
      ensures (Roomy() ==> ground == old(ground)) && (Full() ==> coins == old(coins))
    {
      hide *;
      MintedExactIff(money);
      MintedParts(money);
      var crystalCoins := Crystals(money);
      CrystalsAtMost(money);
      var left := AfterCrystals(money);
      AddCrystals(crystalCoins, money);
      ghost var mid := coins;
      AddChange(left, money);
      KeptAboveTrans(old(coins), mid, coins, money);
    }

    /** The crystal coins, in stacks of at most a hundred. */
    method AddCrystals(n: nat, ghost money: nat)
      requires Honest() && (n > 0 ==> 10000 <= money)
      modifies `coins, `ground
      ensures CoinWealth() == old(CoinWealth()) + StacksWorth(CrystalStacks(n))
      ensures KeptAbove(old(coins), coins, money)
      ensures Wealth(ground) >= old(Wealth(ground))
      ensures (Roomy() ==> ground == old(ground)) && (Full() ==> coins == old(coins))
    {
      var crystalCoins := n;
      assert StacksWorth(CrystalStacks(0)) == 0 && Unit(Crystal) == 10000;
      KeptItself(coins, money);
      hide *;
      ghost var total := StacksWorth(CrystalStacks(n));
      while crystalCoins > 0
        invariant 0 <= crystalCoins <= n
        invariant CoinWealth() + StacksWorth(CrystalStacks(crystalCoins)) == old(CoinWealth()) + total
        invariant KeptAbove(old(coins), coins, money) && Wealth(ground) >= old(Wealth(ground))
        invariant (Roomy() ==> ground == old(ground)) && (Full() ==> coins == old(coins))
      {
        var count := if crystalCoins < 100 then crystalCoins else 100;
        ghost var mid := coins;
        AddCoins(Stack(Crystal, Stored(count)));
        CrystalStep(crystalCoins);
        KeptBelowToo(mid, coins, 10000, money);
        KeptAboveTrans(old(coins), mid, coins, money);
        crystalCoins := crystalCoins - count;
      }
    }

    /** The platinum and gold coins left over. */
    method AddChange(change: nat, ghost money: nat)
      requires Honest() && change <= money
      modifies `coins, `ground
      ensures CoinWealth() == old(CoinWealth()) + StacksWorth(PlatinumStacks(change)) + StacksWorth(GoldStacks(change))
      ensures KeptAbove(old(coins), coins, money)
      ensures Wealth(ground) >= old(Wealth(ground))
      ensures (Roomy() ==> ground == old(ground)) && (Full() ==> coins == old(coins))
    {
      hide Wealth, Kept, KeptAbove, Adds, Honest, CoinWealth, Roomy, Full;
      var left := change;
      KeptItself(coins, money);
      var platinumCoins := Platinum16(left);
      if platinumCoins != 0 {
        AddCoins(Stack(Platinum, Stored(platinumCoins)));
        KeptBelowToo(old(coins), coins, 100, money);
        left := left - platinumCoins * 100;
      }
      if left != 0 {
        ghost var mid := coins;
        AddCoins(Stack(Gold, Stored(left)));
        KeptBelowToo(mid, coins, 1, money);
        KeptAboveTrans(old(coins), mid, coins, money);
      }
    }

    /** The coins found in the containers are the stacks the player owns. */
    ghost predicate Carried(slots: seq<Thing>)
      reads `coins
    {
      forall e :: Flatten(slots)[e] == if e.id in coins && coins[e.id] == e.stack && Worth(e.stack) > 0 then 1 else 0
    }

    /** Takes coins off a stack; a stack with none left is gone. */
    method RemoveCoins(id: nat, n: nat)
      requires id in coins && 1 <= n <= coins[id].count
      modifies `coins
      ensures coins ==
        (if n == old(coins)[id].count then old(coins) - {id}
        else old(coins)[id := Stack(old(coins)[id].kind, old(coins)[id].count - n)])
      ensures CoinWealth() == old(CoinWealth()) - n * Unit(old(coins)[id].kind)
    {
      var s := coins[id];
      WealthWithout(coins, id);
      if n == s.count {
        coins := coins - {id};
      } else {
        WealthWith(coins, id, Stack(s.kind, s.count - n));
        assert s.count * Unit(s.kind) == n * Unit(s.kind) + (s.count - n) * Unit(s.kind);
        coins := coins[id := Stack(s.kind, s.count - n)];
      }
    }

    method RemoveStack(id: nat)
      requires id in coins && coins[id].count > 0
      modifies `coins
      ensures coins == old(coins) - {id}
      ensures Wealth(coins) == old(Wealth(coins)) - Worth(old(coins)[id])
      ensures CoinWealth() == old(CoinWealth()) - Worth(old(coins)[id])
    {
      WealthWithout(coins, id);
      RemoveCoins(id, coins[id].count);
    }

    /** The stack is worth more than what is left to pay: give change, then take the coins. */
    method BreakStack(e: Entry, price: nat)
      requires Honest() && e.id in coins && coins[e.id] == e.stack && 0 < price < Worth(e.stack)
      modifies `coins, `ground
      ensures CoinWealth() == old(CoinWealth()) - price && Wealth(ground) >= old(Wealth(ground))
      ensures Roomy() ==> ground == old(ground)
      ensures forall id :: id in old(coins) && id != e.id && Unit(old(coins)[id].kind) >= Unit(e.stack.kind) ==>
        id in coins && coins[id] == old(coins)[id]
    {
      hide *;
      UnitOfStack(e.stack);
      var worth := Worth(e.stack) / e.stack.count;
      var removeCount := CoinsFor(price, worth);
      ChangeIsSmall(price, worth, e.stack.count);
      var change := removeCount * worth - price;
      SmallChange(change);
      AddMoney(change);
      StackKept(old(coins), coins, change, e.id);
      forall id | id in old(coins) && Unit(old(coins)[id].kind) >= Unit(e.stack.kind)
        ensures id in coins && coins[id] == old(coins)[id]
      {
        StackKept(old(coins), coins, change, id);
      }
      RemoveCoins(e.id, removeCount);
    }

    /** The loop over the coins: returns what could not be paid, and then no coin is left. */
    method PayWithCoins(moneyMap: seq<Entry>, price: nat) returns (left: nat)
      requires Honest() && Covers(moneyMap, coins) && price > 0
      modifies `coins, `ground
      ensures CoinWealth() + price == old(CoinWealth()) + left && Wealth(ground) >= old(Wealth(ground))
      ensures left == 0 <==> price <= old(Wealth(coins))
      ensures left > 0 ==> Wealth(coins) == 0 && left == price - old(Wealth(coins))
      ensures Roomy() ==> ground == old(ground)
      // a stack is left alone if those before it suffice and hold no dearer coins
      ensures forall i :: 0 <= i < |moneyMap| && Sufficing(moneyMap, i, price) ==>
        moneyMap[i].id in coins && coins[moneyMap[i].id] == moneyMap[i].stack
    {
      assert moneyMap[0..] == moneyMap && TotalOf(moneyMap[..0]) == 0;
      hide *;
      var money := price;
      for j := 0 to |moneyMap|
        invariant Covers(moneyMap[j..], coins) && 0 < money
        invariant CoinWealth() + price == old(CoinWealth()) + money
        invariant Wealth(coins) + price == old(Wealth(coins)) + money
        invariant TotalOf(moneyMap[..j]) + money == price && (Roomy() ==> ground == old(ground))
      {
        var e := moneyMap[j];
        CoversRest(moneyMap[j..], coins);
        assert moneyMap[j..][1..] == moneyMap[j + 1..];
        var worth := Worth(e.stack);
        WorthHasCoins(e.stack);
        TotalUpTo(moneyMap, j);
        StillThere(moneyMap, j, coins);
        OnlyLater(moneyMap, j, price);
        WealthWithout(coins, e.id);
        if worth < money {
          RemoveStack(e.id);
          money := money - worth;
        } else if worth > money {
          BreakStack(e, money);
          return 0;
        } else {
          RemoveStack(e.id);
          return 0;
        }
      }
      assert moneyMap[|moneyMap|..] == [] && moneyMap[..|moneyMap|] == moneyMap;
      NothingCovered([], coins);
      NeverEnough(moneyMap, price);
      return money;
    }

    /** removeMoney: pays exactly, from the cheapest stacks up and from the bank last, or changes nothing. */
    method RemoveMoney(slots: seq<Thing>, price: nat, useBalance: bool) returns (paid: bool)
      requires Honest() && Carried(slots)
      modifies this
      ensures paid ==> CoinWealth() + bankBalance == old(CoinWealth() + bankBalance) - price
      ensures paid ==>
        bankBalance == old(bankBalance) - (if price > old(Wealth(coins)) then price - old(Wealth(coins)) else 0)
      ensures paid ==> Wealth(ground) >= old(Wealth(ground)) && (Roomy() ==> ground == old(ground))
      ensures !paid ==> coins == old(coins) && ground == old(ground) && bankBalance == old(bankBalance)
      ensures var means := old(Wealth(coins)) + (if useBalance then old(bankBalance) else 0);
        (paid ==> price <= means) && (means < WORD ==> (paid <==> price <= means))
    {
      if price == 0 {
        return true;
      }
      var moneyMap, moneyCount := Collect(slots);
      assert Covers(moneyMap, coins);
      CoveredWealth(moneyMap, coins);
      hide *;
      var balance := if useBalance then bankBalance else 0;
      ModAtMost(moneyCount + balance, WORD);
      if (moneyCount + balance) % WORD < price {
        return false;
      }
      var money := PayWithCoins(moneyMap, price);
      if money > 0 && useBalance && bankBalance >= money {
        bankBalance := bankBalance - money;
      }
      return true;
    }
  }
}
