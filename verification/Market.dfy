/** The market operations on player objects, proved against the rules on the books. */
module Market {
  import opened Cylinders
  import opened MarketGoods
  import opened MarketBooks
  import opened MarketRules
  import opened MarketPlayers

  const WORD64: nat := 0x1_0000_0000_0000_0000

  function U64(n: nat): nat
  {
    n % WORD64
  }

  lemma {:induction false} Fits(n: nat)
    requires n < WORD64
    ensures U64(n) == n
  {
  }

  /** Checked and paid sums do not wrap while all the money there is fits 64 bits. */
  predicate MeansAreExact(b: Books, i: nat)
    requires i in b.purses
  {
    U64(b.purses[i].bank + b.purses[i].cash) == b.purses[i].bank + b.purses[i].cash
  }

  lemma {:induction false} MeansFit(b: Books, i: nat)
    requires i in b.purses && Money(b) < WORD64
    ensures MeansAreExact(b, i)
  {
    MoneyBounds(b, i);
    hide Money;
  }

  lemma {:induction false} RefundFits(b: Books, i: nat, id: nat, n: nat)
    requires i in b.purses && id in b.offers && !b.offers[id].sells && n <= b.offers[id].amount && Money(b) < WORD64
    ensures var price := U64(Price(b.offers[id].price, n));
      price == Price(b.offers[id].price, n) && U64(b.purses[i].bank + price) == b.purses[i].bank + price
  {
    hide Money;
    MoneyBounds(b, i);
    PriceSplit(b.offers[id].price, b.offers[id].amount, n);
    hide Price;
  }

  lemma {:induction false} TotalFits(price: nat, amount: nat)
    requires price <= MAX_PRICE && amount <= MAX_STACKABLE
    ensures U64(Price(price, amount)) == Price(price, amount)
    ensures U64(U64(Price(price, amount)) + Fee(price, amount)) == Price(price, amount) + Fee(price, amount)
  {
    PriceFits(price, amount);
  }

  lemma {:induction false} SellSteps(b: Books, c: Command)
    requires c.Create? && c.player in b.purses && MeansAreExact(b, c.player) &&
      Found(b.purses[c.player], c.kind, c.found)
    ensures var fee := Fee(c.price, c.amount); var p := b.purses[c.player];
      var t := TakeGoods(b, c.player, c.kind, c.amount, c.found, c.fails);
      U64(p.bank + p.cash) == p.bank + p.cash &&
      CreateSell(b, c) == if fee > p.bank + p.cash || !c.locker then b
        else if !t.1 then t.0
        else Posted(Charged(t.0, c.player, fee, fee, c.dropped), c.id, Offer(c.player, true, c.kind, c.amount, c.price))
  {
    hide U64, Fee, TakeGoods, Charged, Posted, Found;
  }

  lemma {:induction false} MoneyStays(p: Purse, q: Purse)
    requires SameMoney(p, q)
    ensures p.bank == q.bank && p.cash == q.cash
  {
  }

  lemma {:induction false} BuySteps(b: Books, c: Command)
    requires c.Create? && c.player in b.purses && MeansAreExact(b, c.player)
    ensures var fee := Fee(c.price, c.amount); var total := Price(c.price, c.amount) + fee; var p := b.purses[c.player];
      U64(p.cash + p.bank) == p.cash + p.bank &&
      CreateBuy(b, c) == if total > p.cash + p.bank then b
        else Posted(Charged(b, c.player, total, fee, c.dropped), c.id,
          Offer(c.player, false, c.kind, c.amount, c.price))
  {
    hide U64, Fee, Price, Charged, Posted;
  }

  lemma {:induction false} CancelSteps(b: Books, i: nat, id: nat, allowed: bool)
    requires SoundOffers(b) && i in b.purses
    ensures if !allowed || id !in b.offers || b.offers[id].owner != i then Do(b, Cancel(i, id, allowed)) == b
      else
        var o := b.offers[id];
        Splits(o.kind) && Do(b, Cancel(i, id, allowed)) ==
          Withdrawn(if o.sells then GiveGoods(b, i, o.kind, o.amount)
            else WithBank(b, i, b.purses[i].bank + Price(o.price, o.amount)), id)
  {
    hide GiveGoods, WithBank, Withdrawn, Price;
    if id in b.offers {
      OfferIsProper(b, id);
    }
  }

  lemma {:induction false} AnyCancel(b: Books, i: nat, id: nat, allowed: bool)
    requires i in b.purses
    ensures Possible(b, Cancel(i, id, allowed))
  {
  }

  lemma {:induction false} AcceptSteps(b: Books, c: Command)
    requires SoundOffers(b) && c.Accept? && Possible(b, c)
    ensures !c.allowed || !CanAccept(b, c.player, c.id, c.amount) ==> Do(b, c) == b
    ensures c.allowed && CanAccept(b, c.player, c.id, c.amount) ==>
      Do(b, c) == if b.offers[c.id].sells then FillSell(b, c) else FillBuy(b, c)
    ensures c.id in b.offers && !b.offers[c.id].sells && !c.locker ==> Do(b, c) == b
  {
    hide TakeGoods, GiveGoods, Reduced, PaidFromBank, Found, FillSell;
  }

  lemma {:induction false} FillBuySteps(b: Books, c: Command)
    requires c.Accept? && c.player in b.purses && c.id in b.offers && c.locker
    requires Splits(b.offers[c.id].kind) && b.offers[c.id].owner in b.purses
    requires Found(b.purses[c.player], b.offers[c.id].kind, c.found)
    ensures var o := b.offers[c.id];
      var t := TakeGoods(b, c.player, o.kind, c.amount, c.found, c.fails);
      FillBuy(b, c) == if !t.1 then t.0
        else Reduced(GiveGoods(WithBank(t.0, c.player, t.0.purses[c.player].bank + Price(o.price, c.amount)), o.owner,
          o.kind, c.amount), c.id, c.amount)
  {
    hide TakeGoods, GiveGoods, Reduced, Found;
  }

  lemma {:induction false} FillSellSteps(b: Books, c: Command)
    requires c.Accept? && c.player in b.purses && c.id in b.offers
    requires Splits(b.offers[c.id].kind) && b.offers[c.id].owner in b.purses
    ensures var o := b.offers[c.id];
      var total := Price(o.price, c.amount);
      var p := b.purses[c.player];
      var given := GiveGoods(PaidFromBank(b, c.player, total, c.dropped), c.player, o.kind, c.amount);
      FillSell(b, c) == if total > p.bank + p.cash then b
        else Reduced(WithBank(given, o.owner, given.purses[o.owner].bank + total), c.id, c.amount)
  {
    hide GiveGoods, Reduced, PaidFromBank;
  }

  /** Taking the goods moves no money. */
  lemma {:induction false} TakenStillSolvent(b: Books, c: Command)
    requires Sound(b) && SoundOffers(b) && c.Accept? && Possible(b, c) && CanAccept(b, c.player, c.id, c.amount) &&
      !b.offers[c.id].sells
    ensures Money(TakeGoods(b, c.player, b.offers[c.id].kind, c.amount, c.found, c.fails).0) == Money(b)
  {
    OfferIsProper(b, c.id);
    hide Sound, SoundOffers, Money, Goods, TakeGoods, Found;
    Taken(b, c.player, b.offers[c.id].kind, c.amount, c.found, c.fails, b.offers[c.id].kind);
  }

  predicate PriceIsExact(b: Books, c: Command)
    requires c.Accept? && c.player in b.purses && c.id in b.offers && b.offers[c.id].owner in b.purses
  {
    var total := Price(b.offers[c.id].price, c.amount);
    var seller := b.purses[b.offers[c.id].owner];
    U64(total) == total &&
      (total <= b.purses[c.player].bank + b.purses[c.player].cash ==> U64(seller.bank + total) == seller.bank + total)
  }

  lemma {:induction false} ExactMeans(b: Books, c: Command)
    requires c.Accept? && c.player in b.purses && c.id in b.offers && b.offers[c.id].owner in b.purses
    requires MeansAreExact(b, c.player) && PriceIsExact(b, c)
    ensures var total := Price(b.offers[c.id].price, c.amount);
      var p, q := b.purses[c.player], b.purses[b.offers[c.id].owner];
      U64(total) == total && U64(p.bank + p.cash) == p.bank + p.cash &&
        (total <= p.bank + p.cash ==> U64(q.bank + total) == q.bank + total)
  {
    hide U64, Price;
  }

  lemma {:induction false} BankSteps(b: Books, i: nat, total: nat, dropped: nat)
    requires i in b.purses
    ensures var bank := b.purses[i].bank;
      if total <= bank then PaidFromBank(b, i, total, dropped) == WithBank(b, i, bank - total)
      else
        var c := WithBank(b, i, 0);
        PaidFromBank(b, i, total, dropped) == Charged(c, i, total - bank, 0, dropped) &&
          c.purses[i].cash == b.purses[i].cash && c.purses[i].bank == 0
  {
    hide Charged;
  }

  /** A buyer who can pay leaves the seller's balance room for the price. */
  lemma {:induction false} SellFits(b: Books, c: Command)
    requires SoundOffers(b) && c.Accept? && c.player in b.purses && CanAccept(b, c.player, c.id, c.amount) &&
      Money(b) < WORD64
    ensures b.offers[c.id].owner in b.purses && PriceIsExact(b, c)
  {
    var o := b.offers[c.id];
    OfferIsProper(b, c.id);
    PriceFits(o.price, c.amount);
    hide Money, Price;
    TwoPurses(b, c.player, o.owner);
  }

  /** What an accepted offer needs to be carried out. */
  lemma {:induction false} ReadyToFill(b: Books, c: Command)
    requires Sound(b) && SoundOffers(b) && c.Accept? && Possible(b, c) && CanAccept(b, c.player, c.id, c.amount) &&
      Money(b) < WORD64
    ensures var o := b.offers[c.id];
      && o.owner in b.purses && Splits(o.kind) && o.owner != c.player && c.amount <= o.amount
      && MeansAreExact(b, c.player)
      && (if o.sells then PriceIsExact(b, c)
          else
            Found(b.purses[c.player], o.kind, c.found) &&
            Money(TakeGoods(b, c.player, o.kind, c.amount, c.found, c.fails).0) < WORD64)
  {
    OfferIsProper(b, c.id);
    MeansFit(b, c.player);
    hide Sound, SoundOffers, Money, TakeGoods, Found, PriceIsExact, MeansAreExact;
    if b.offers[c.id].sells {
      SellFits(b, c);
    } else {
      TakenStillSolvent(b, c);
    }
  }

  class Player {
    const guid: nat
    const account: nat
    var bankBalance: nat
    /** What the coins in the bags, and those on the tile, are worth. */
    var money: nat
    var ground: nat
    var stashItems: map<Kind, nat>
    var depot: Items
    var next: nat

    function Now(): Purse
      reads this
    {
      Purse(account, bankBalance, money, ground, stashItems, depot, next)
    }

    method WithdrawItem(k: Kind, amount: nat) returns (ok: bool)
      modifies this`stashItems
      ensures ok <==> k in old(stashItems) && amount <= old(stashItems)[k]
      ensures stashItems ==
        if !ok then old(stashItems)
        else if amount == old(stashItems)[k] then old(stashItems) - {k}
        else old(stashItems)[k := old(stashItems)[k] - amount]
    {
      if k in stashItems {
        if stashItems[k] > amount {
          stashItems := stashItems[k := stashItems[k] - amount];
        } else if stashItems[k] == amount {
          stashItems := stashItems - {k};
        } else {
          return false;
        }
        return true;
      }
      return false;
    }

    method RemoveItem(id: nat, n: nat)
      requires id in depot && n <= depot[id].count
      modifies this`depot
      ensures Now() == Without(old(Now()), id, n)
    {
      depot := if n == depot[id].count then depot - {id} else depot[id := depot[id].(count := depot[id].count - n)];
    }

    /** The loop over stacks: the count to remove goes down before the removal is tried. */
    method RemoveStacks(k: Kind, found: seq<nat>, amount: nat, fails: set<nat>) returns (removeAmount: nat, ok: bool)
      requires Found(Now(), k, found)
      modifies this`depot
      ensures Taking(Now(), removeAmount, ok) == FromStacks(old(Now()), k, found, amount, fails)
    {
      removeAmount := amount;
      var i := 0;
      assert found[0..] == found;
      while i < |found|
        invariant 0 <= i <= |found| && Found(Now(), k, found[i..])
        invariant FromStacks(Now(), k, found[i..], removeAmount, fails) ==
          FromStacks(old(Now()), k, found, amount, fails)
      {
        var id := found[i];
        assert found[i..][0] == id && found[i..][1..] == found[i + 1..];
        var removeCount := Min(removeAmount, depot[id].count);
        FoundRest(Now(), k, found[i..], removeCount);
        hide Found;
        removeAmount := removeAmount - removeCount;
        if id in fails {
          return removeAmount, false;
        }
        RemoveItem(id, removeCount);
        if removeAmount == 0 {
          return 0, true;
        }
        i := i + 1;
      }
      return removeAmount, true;
    }

    /** The loop over single items, whose counter wraps at 16 bits. */
    method RemoveSingles(k: Kind, found: seq<nat>, amount: nat, left: nat, fails: set<nat>)
        returns (removeAmount: nat, ok: bool)
      requires Found(Now(), k, found)
      modifies this`depot
      ensures Taking(Now(), removeAmount, ok) == FromSingles(old(Now()), k, found, amount, 0, left, fails)
    {
      removeAmount := left;
      var count := 0;
      var i := 0;
      assert found[0..] == found;
      while i < |found|
        invariant 0 <= i <= |found| && 0 <= count && Found(Now(), k, found[i..])
        invariant FromSingles(Now(), k, found[i..], amount, count, removeAmount, fails) ==
          FromSingles(old(Now()), k, found, amount, 0, left, fails)
      {
        var id := found[i];
        assert found[i..][0] == id && found[i..][1..] == found[i + 1..];
        var c := depot[id].count;
        FoundRest(Now(), k, found[i..], c);
        hide Found;
        count := count + c;
        if count > amount {
          return removeAmount, true;
        }
        if id in fails {
          return removeAmount, false;
        }
        RemoveItem(id, c);
        removeAmount := (removeAmount + WORD16 - 1) % WORD16;
        i := i + 1;
      }
      return removeAmount, true;
    }

    method RemoveOfferItems(k: Kind, amount: nat, found: seq<nat>, fails: set<nat>) returns (ok: bool)
      requires Found(Now(), k, found)
      modifies this`stashItems, this`depot
      ensures Now() == RemoveItems(old(Now()), k, amount, found, fails).purse &&
        ok == RemoveItems(old(Now()), k, amount, found, fails).ok
    {
      var removeAmount := amount;
      var stashItemCount := Stashed(Now(), Plain(k));
      if stashItemCount > 0 {
        var done := false;
        if removeAmount > stashItemCount {
          done := WithdrawItem(Plain(k), stashItemCount);
        }
        if done {
          removeAmount := removeAmount - stashItemCount;
        } else {
          done := WithdrawItem(Plain(k), removeAmount);
          if done {
            removeAmount := 0;
          } else {
            return false;
          }
        }
      }
      assert Taking(Now(), removeAmount, true) == FromStash(old(Now()), k, amount);
      if removeAmount > 0 {
        if |found| % WORD16 == 0 {
          return false;
        }
        assert Found(Now(), k, found);
        if k.stackable {
          removeAmount, ok := RemoveStacks(k, found, removeAmount, fails);
        } else {
          removeAmount, ok := RemoveSingles(k, found, amount, removeAmount, fails);
        }
        if !ok {
          return false;
        }
      }
      return removeAmount == 0;
    }

    /** The items of a delivery, created one by one. */
    method Receive(k: Kind, amount: nat)
      requires Splits(k)
      modifies this`depot, this`next
      ensures Now() == Deliver(old(Now()), k, amount)
    {
      var tmpAmount := amount;
      while tmpAmount > 0
        invariant 0 <= tmpAmount && Deliver(Now(), k, tmpAmount) == Deliver(old(Now()), k, amount)
      {
        var count := if k.stackable then Min(k.stackSize, tmpAmount) else 1;
        assert count == Portion(k, tmpAmount);
        depot, next := depot[next := Item(k, count)], next + 1;
        tmpAmount := tmpAmount - count;
      }
    }

    /** removeMoney on totals; PayIsAnyPayment shows that this is what the module Payment proves of it. */
    method RemoveMoney(price: nat, dropped: nat)
      requires price <= money + bankBalance
      modifies this`money, this`ground, this`bankBalance
      ensures PaysFor(old(Now()), price, Now())
      ensures Now() == Pay(old(Now()), price, dropped)
    {
      var coins := Min(money, price);
      var fallen := Min(dropped, money - coins);
      money, ground, bankBalance := money - coins - fallen, ground + fallen, bankBalance - (price - coins);
    }
  }

  class Game {
    const players: map<nat, Player>
    var coins: map<nat, nat>
    var offers: map<nat, Offer>
    /** The books, with the fees the server does not keep. */
    ghost var books: Books

    /** Players are registered under their ids, and the books say what the fields hold. */
    ghost predicate Known()
      reads this, players.Values
    {
      && books.purses.Keys == players.Keys && books.coins == coins && books.offers == offers
      && forall i :: i in players ==> players[i].guid == i && books.purses[i] == players[i].Now()
    }

    constructor (players: map<nat, Player>, coins: map<nat, nat>)
      requires forall i :: i in players ==> players[i].guid == i
      ensures this.players == players && Known() && books.offers == map[] && books.fees == 0 && books.coins == coins
    {
      this.players, this.coins, this.offers := players, coins, map[];
      books := Books(map i | i in players :: players[i].Now(), coins, map[], 0);
    }

    lemma {:induction false} Reads(i: nat)
      requires Known() && i in players
      ensures
        && players[i].guid == i && books.offers == offers && i in books.purses && books.purses[i] == players[i].Now()
        && books.purses[i].bank == players[i].bankBalance && books.purses[i].cash == players[i].money
        && books.purses[i].account == players[i].account
    {
    }

    method TakeFrom(i: nat, k: Kind, amount: nat, found: seq<nat>, fails: set<nat>) returns (ok: bool)
      requires Known() && i in players && Found(books.purses[i], k, found)
      modifies this`coins, this`books, players[i]
      ensures Known() && (books, ok) == TakeGoods(old(books), i, k, amount, found, fails)
    {
      var player := players[i];
      if k.id == STORE_COIN {
        var transferable := if player.account in coins then coins[player.account] else 0;
        if amount > transferable {
          return false;
        }
        coins := coins[player.account := transferable - amount];
        books := books.(coins := coins);
        return true;
      }
      ok := player.RemoveOfferItems(k, amount, found, fails);
      books := WithPurse(books, i, player.Now());
    }

    method GiveTo(i: nat, k: Kind, amount: nat)
      requires Known() && i in players && Splits(k)
      modifies this`coins, this`books, players[i]
      ensures Known() && books == GiveGoods(old(books), i, k, amount)
    {
      var player := players[i];
      if k.id == STORE_COIN {
        coins := coins[player.account := (if player.account in coins then coins[player.account] else 0) + amount];
        books := books.(coins := coins);
      } else {
        player.Receive(k, amount);
        books := WithPurse(books, i, player.Now());
      }
    }

    /** The price leaves the player, part of it as a fee. */
    method Charge(i: nat, price: nat, fee: nat, dropped: nat)
      requires Known() && i in players && price <= players[i].money + players[i].bankBalance
      modifies this`books, players[i]
      ensures Known() && books == Charged(old(books), i, price, fee, dropped)
    {
      players[i].RemoveMoney(price, dropped);
      books := WithPurse(books, i, players[i].Now()).(fees := books.fees + fee);
    }

    method Post(id: nat, o: Offer)
      requires Known()
      modifies this`offers, this`books
      ensures Known() && books == Posted(old(books), id, o)
    {
      offers := offers[id := o];
      books := Posted(books, id, o);
    }

    method Withdraw(id: nat)
      requires Known()
      modifies this`offers, this`books
      ensures Known() && books == Withdrawn(old(books), id)
    {
      offers := offers - {id};
      books := Withdrawn(books, id);
    }

    method SetBankBalance(i: nat, n: nat)
      requires Known() && i in players
      modifies this`books, players[i]
      ensures Known() && books == WithBank(old(books), i, n)
    {
      players[i].bankBalance := n;
      books := WithBank(books, i, n);
    }

    /** No bank balance can overflow: everything there is fits 64 bits. */
    ghost predicate Solvent()
      reads this, players.Values
    {
      Sound(books) && SoundOffers(books) && Money(books) < WORD64
    }

    lemma {:induction false} Affords()
      requires Solvent()
      ensures Sound(books) && SoundOffers(books) && Money(books) < WORD64
    {
    }

    method PlayerCreateMarketOffer(c: Command)
      requires Known() && Solvent() && c.Create? && Possible(books, c)
      modifies this, players[c.player]
      ensures Known() && books == Do(old(books), c) && Outcome(old(books), c, books)
    {
      Affords();
      EveryCommand(books, c);
      if !c.allowed || c.price == 0 || c.price > MAX_PRICE || c.kind.id == 0 || c.amount == 0 ||
         (!c.kind.stackable && c.amount > MAX_SINGLE) || (c.kind.stackable && c.amount > MAX_STACKABLE)
      {
        return;
      }
      Reads(c.player);
      MeansFit(books, c.player);
      if c.sells {
        TakenKeepsMoney(books, c);
      }
      hide Known, Sound, SoundOffers, Money, Found, TakeGoods, CreateSell, CreateBuy;
      var calcFee := c.price / 100 * c.amount;
      var minFee := Min(100000, calcFee);
      var fee := Max(20, minFee);
      if c.sells {
        CreateSellOffer(c, fee);
      } else {
        CreateBuyOffer(c, fee);
      }
    }

    method CreateSellOffer(c: Command, fee: nat)
      requires Known() && c.Create? && c.player in players && fee == Fee(c.price, c.amount) &&
        MeansAreExact(books, c.player)
      requires Found(books.purses[c.player], c.kind, c.found)
      requires SameMoney(books.purses[c.player],
        TakeGoods(books, c.player, c.kind, c.amount, c.found, c.fails).0.purses[c.player])
      modifies this, players[c.player]
      ensures Known() && books == CreateSell(old(books), c)
    {
      hide *;
      Reads(c.player);
      SellSteps(books, c);
      MoneyStays(books.purses[c.player],
        TakeGoods(books, c.player, c.kind, c.amount, c.found, c.fails).0.purses[c.player]);
      if fee > U64(players[c.player].bankBalance + players[c.player].money) || !c.locker {
        return;
      }
      var ok := TakeFrom(c.player, c.kind, c.amount, c.found, c.fails);
      if !ok {
        return;
      }
      Reads(c.player);
      Charge(c.player, fee, fee, c.dropped);
      Post(c.id, Offer(c.player, true, c.kind, c.amount, c.price));
    }

    method CreateBuyOffer(c: Command, fee: nat)
      requires Known() && c.Create? && c.player in players && c.price <= MAX_PRICE && c.amount <= MAX_STACKABLE
      requires fee == Fee(c.price, c.amount) && MeansAreExact(books, c.player)
      modifies this, players[c.player]
      ensures Known() && books == CreateBuy(old(books), c)
    {
      hide *;
      Reads(c.player);
      TotalFits(c.price, c.amount);
      BuySteps(books, c);
      var totalPrice := U64(U64(Price(c.price, c.amount)) + fee);
      if totalPrice > U64(players[c.player].money + players[c.player].bankBalance) {
        return;
      }
      Charge(c.player, totalPrice, fee, c.dropped);
      Post(c.id, Offer(c.player, false, c.kind, c.amount, c.price));
    }

    method PlayerCancelMarketOffer(i: nat, id: nat, allowed: bool)
      requires Known() && Solvent() && i in players
      modifies this, players[i]
      ensures Known() && books == Do(old(books), Cancel(i, id, allowed))
      ensures Outcome(old(books), Cancel(i, id, allowed), books)
    {
      hide *;
      Reads(i);
      Affords();
      AnyCancel(books, i, id, allowed);
      EveryCommand(books, Cancel(i, id, allowed));
      CancelSteps(books, i, id, allowed);
      if !allowed || id !in offers || offers[id].owner != i {
        return;
      }
      GiveBack(i, id);
    }

    /** A cancelled offer returns what it held. */
    method GiveBack(i: nat, id: nat)
      requires Known() && i in players && id in offers && Splits(offers[id].kind) && Money(books) < WORD64
      modifies this, players[i]
      ensures Known()
      ensures var b, o := old(books), old(offers[id]);
        i in b.purses &&
        books == Withdrawn(if o.sells then GiveGoods(b, i, o.kind, o.amount)
          else WithBank(b, i, b.purses[i].bank + Price(o.price, o.amount)), id)
    {
      var offer := offers[id];
      Reads(i);
      if !offer.sells {
        RefundFits(books, i, id, offer.amount);
      }
      hide Known, Money, GiveGoods, WithBank, Withdrawn, U64, Price;
      if offer.sells {
        GiveTo(i, offer.kind, offer.amount);
      } else {
        SetBankBalance(i, U64(players[i].bankBalance + U64(Price(offer.price, offer.amount))));
      }
      Withdraw(id);
    }

    method AcceptOffer(id: nat, amount: nat)
      requires Known() && id in offers && amount <= offers[id].amount
      modifies this`offers, this`books
      ensures Known() && books == Reduced(old(books), id, amount)
    {
      var offer := offers[id];
      if offer.amount - amount == 0 {
        Withdraw(id);
      } else {
        Post(id, offer.(amount := offer.amount - amount));
      }
    }

    /** The checks before an offer is accepted, after those `allowed` stands for. */
    method Acceptable(c: Command) returns (ok: bool)
      requires Known() && c.Accept? && c.player in players && SoundOffers(books)
      ensures ok <==> CanAccept(books, c.player, c.id, c.amount) && (offers[c.id].sells || c.locker)
    {
      Reads(c.player);
      if c.id !in offers {
        return false;
      }
      var offer := offers[c.id];
      OfferIsProper(books, c.id);
      Reads(offer.owner);
      if c.amount == 0 || (!offer.kind.stackable && c.amount > MAX_SINGLE) ||
          (offer.kind.stackable && c.amount > MAX_STACKABLE) ||
         c.amount > offer.amount
      {
        return false;
      }
      if !offer.sells && !c.locker {
        return false;
      }
      return c.player != offer.owner;
    }

    method PlayerAcceptMarketOffer(c: Command)
      requires Known() && Solvent() && c.Accept? && Possible(books, c)
      modifies this, players.Values
      ensures Known() && books == Do(old(books), c) && Outcome(old(books), c, books)
    {
      Affords();
      EveryCommand(books, c);
      AcceptSteps(books, c);
      if CanAccept(books, c.player, c.id, c.amount) {
        ReadyToFill(books, c);
      }
      assert books.offers == offers && books.purses.Keys == players.Keys;
      hide *;
      var ok := Acceptable(c);
      if c.allowed && ok {
        if offers[c.id].sells {
          FillSellOffer(c);
        } else {
          FillBuyOffer(c);
        }
      }
    }

    method FillBuyOffer(c: Command)
      requires Known() && c.Accept? && c.player in players && c.id in offers && c.locker &&
        c.amount <= offers[c.id].amount
      requires !offers[c.id].sells && offers[c.id].owner in players && Splits(offers[c.id].kind)
      requires Found(books.purses[c.player], offers[c.id].kind, c.found)
      requires Money(TakeGoods(books, c.player, offers[c.id].kind, c.amount, c.found, c.fails).0) < WORD64
      modifies this, players[c.player], players[offers[c.id].owner]
      ensures Known() && books == FillBuy(old(books), c)
    {
      hide *;
      var offer := offers[c.id];
      Reads(c.player);
      Reads(offer.owner);
      FillBuySteps(books, c);
      var ok := TakeFrom(c.player, offer.kind, c.amount, c.found, c.fails);
      if ok {
        Reads(c.player);
        PayOut(c.player, c.id, c.amount);
      }
    }

    /** The seller is paid from the escrow of a buy offer, and the goods go to its owner. */
    method PayOut(i: nat, id: nat, amount: nat)
      requires Known() && i in players && id in offers && !offers[id].sells && amount <= offers[id].amount
      requires offers[id].owner in players && Splits(offers[id].kind) && Money(books) < WORD64
      modifies this, players[i], players[offers[id].owner]
      ensures Known()
      ensures var b, o := old(books), old(offers[id]);
        i in b.purses && id in b.offers &&
        books == Reduced(GiveGoods(WithBank(b, i, b.purses[i].bank + Price(o.price, amount)), o.owner, o.kind, amount),
          id, amount)
    {
      var offer := offers[id];
      Reads(i);
      RefundFits(books, i, id, amount);
      hide Known, Money, GiveGoods, WithBank, Reduced, U64, Price;
      SetBankBalance(i, U64(players[i].bankBalance + U64(Price(offer.price, amount))));
      GiveTo(offer.owner, offer.kind, amount);
      Reads(i);
      AcceptOffer(id, amount);
    }

    /** A market purchase is paid from the bank first. */
    method PayForOffer(i: nat, totalPrice: nat, dropped: nat)
      requires Known() && i in players && totalPrice <= players[i].bankBalance + players[i].money
      modifies this`books, players[i]
      ensures Known() && books == PaidFromBank(old(books), i, totalPrice, dropped)
    {
      hide *;
      Reads(i);
      BankSteps(books, i, totalPrice, dropped);
      if totalPrice <= players[i].bankBalance {
        SetBankBalance(i, players[i].bankBalance - totalPrice);
      } else {
        var remainsPrice := totalPrice - players[i].bankBalance;
        SetBankBalance(i, 0);
        Reads(i);
        Charge(i, remainsPrice, 0, dropped);
      }
    }

    method FillSellOffer(c: Command)
      requires Known() && c.Accept? && c.player in players && c.id in offers && c.amount <= offers[c.id].amount
      requires offers[c.id].sells && offers[c.id].owner in players && Splits(offers[c.id].kind)
      requires offers[c.id].owner != c.player && MeansAreExact(books, c.player) && PriceIsExact(books, c)
      modifies this, players[c.player], players[offers[c.id].owner]
      ensures Known() && books == FillSell(old(books), c)
    {
      hide *;
      var offer := offers[c.id];
      var player := players[c.player];
      Reads(c.player);
      Reads(offer.owner);
      ExactMeans(books, c);
      FillSellSteps(books, c);
      var totalPrice := U64(Price(offer.price, c.amount));
      if totalPrice > U64(player.bankBalance + player.money) {
        return;
      }
      PayForOffer(c.player, totalPrice, c.dropped);
      HandOver(c.player, c.id, c.amount, totalPrice);
    }

    /** The buyer receives the goods and the owner of the offer the price. */
    method HandOver(i: nat, id: nat, amount: nat, totalPrice: nat)
      requires Known() && i in players && id in offers && offers[id].owner in players && offers[id].owner != i
      requires Splits(offers[id].kind) && amount <= offers[id].amount
      requires U64(players[offers[id].owner].bankBalance + totalPrice) ==
        players[offers[id].owner].bankBalance + totalPrice
      modifies this, players[i], players[offers[id].owner]
      ensures Known()
      ensures var b, o := old(books), old(offers[id]);
        i in b.purses && o.owner in b.purses && id in b.offers &&
        var given := GiveGoods(b, i, o.kind, amount);
        books == Reduced(WithBank(given, o.owner, given.purses[o.owner].bank + totalPrice), id, amount)
    {
      hide *;
      Reads(i);
      Reads(offers[id].owner);
      GiveTo(i, offers[id].kind, amount);
      PayOwner(id, amount, totalPrice);
    }

    /** The owner of a sell offer receives the price. */
    method PayOwner(id: nat, amount: nat, totalPrice: nat)
      requires Known() && id in offers && offers[id].owner in players && amount <= offers[id].amount
      requires U64(players[offers[id].owner].bankBalance + totalPrice) ==
        players[offers[id].owner].bankBalance + totalPrice
      modifies this`offers, this`books, players[offers[id].owner]
      ensures Known()
      ensures var b, i := old(books), old(offers[id].owner);
        id in b.offers && i in b.purses && books == Reduced(WithBank(b, i, b.purses[i].bank + totalPrice), id, amount)
    {
      var i := offers[id].owner;
      Reads(i);
      hide Known, WithBank, Reduced, U64;
      SetBankBalance(i, U64(players[i].bankBalance + totalPrice));
      Reads(i);
      AcceptOffer(id, amount);
    }
  }
}
