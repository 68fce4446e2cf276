/** What a market command does to each player, offer and account, with the sums written out
    (src/game/game.cpp: playerCreateMarketOffer, playerCancelMarketOffer, playerAcceptMarketOffer).
  */
module MarketPlayers {
  import opened Cylinders
  import opened MarketGoods
  import opened MarketBooks
  import opened MarketRules

  // ----- what is looked at -----

  /** Everybody but these players is as before. */
  predicate OthersStay(b: Books, r: Books, who: set<nat>)
  {
    r.purses.Keys == b.purses.Keys && forall j :: j in b.purses && j !in who ==> r.purses[j] == b.purses[j]
  }

  /** The player has n more of the kind, and as much as before of every other. */
  ghost predicate HasMore(p: Purse, q: Purse, k: Kind, n: nat)
  {
    forall j :: Have(q, j) == Have(p, j) + if j == k then n else 0
  }

  /** What a removal of so many takes has left the player. */
  ghost predicate HasLess(p: Purse, q: Purse, k: Kind, amount: nat, found: seq<nat>, fails: set<nat>)
    requires forall x :: 0 <= x < |found| ==> found[x] in p.depot
  {
    forall j :: Have(q, j) == Have(p, j) - Takes(p, k, amount, found, fails, j)
  }

  /** The fee is a hundredth of the price, rounded down for one, times the amount, but no less than 20 and no more than
      100000. */
  predicate FeeIs(price: nat, amount: nat, fee: nat)
  {
    var hundredth := price / 100 * amount;
    && (hundredth <= 20 ==> fee == 20)
    && (20 <= hundredth <= 100000 ==> fee == hundredth)
    && (100000 <= hundredth ==> fee == 100000)
  }

  predicate AmountIsRight(k: Kind, n: nat)
  {
    1 <= n <= if k.stackable then 64000 else 2000
  }

  predicate IsCoin(k: Kind)
  {
    k.id == 22118
  }

  /** Store coins are added to the account of the player. */
  predicate CoinsArrive(b: Books, r: Books, i: nat, n: nat)
    requires i in b.purses
  {
    var account := b.purses[i].account;
    account in b.coins && r.coins == b.coins[account := b.coins[account] + n]
  }

  /** Coins and bank pay n together, coins first; change may fall on the tile. */
  predicate PaidCoinsFirst(p: Purse, q: Purse, n: nat)
  {
    && q.bank + q.cash + q.ground + n == p.bank + p.cash + p.ground && q.ground >= p.ground
    && q.bank + (if n > p.cash then n - p.cash else 0) == p.bank
  }

  /** The bank pays first, coins the rest. */
  predicate PaidBankFirst(p: Purse, q: Purse, n: nat)
  {
    && q.bank + q.cash + q.ground + n == p.bank + p.cash + p.ground && q.ground >= p.ground
    && q.bank == (if n <= p.bank then p.bank - n else 0) && (n <= p.bank ==> q.cash == p.cash)
  }

  // ----- outcomes -----

  predicate ToBuy(b: Books, c: Command)
    requires c.Accept? && c.player in b.purses && c.id in b.offers
  {
    var o := b.offers[c.id];
    && c.allowed && o.sells && AmountIsRight(o.kind, c.amount) && c.amount <= o.amount && o.owner != c.player
    && o.price * c.amount <= b.purses[c.player].bank + b.purses[c.player].cash
  }

  /** The offer is smaller by what was traded, or gone. */
  predicate OfferShrinks(b: Books, r: Books, id: nat, n: nat)
    requires id in b.offers && n <= b.offers[id].amount
  {
    r.offers ==
    if n == b.offers[id].amount then b.offers - {id}
        else b.offers[id := b.offers[id].(amount := b.offers[id].amount - n)]
  }

  /** The buyer pays the price times the amount and gets the goods, the owner of the offer gets just that. */
  ghost predicate Bought(b: Books, c: Command, r: Books)
    requires c.Accept? && c.player in b.purses && c.id in b.offers && ToBuy(b, c) && b.offers[c.id].owner in b.purses
  {
    var o := b.offers[c.id];
    var n := o.price * c.amount;
    && OthersStay(b, r, {c.player, o.owner}) && r.fees == b.fees && OfferShrinks(b, r, c.id, c.amount)
    && r.purses[o.owner] == b.purses[o.owner].(bank := b.purses[o.owner].bank + n)
    && PaidBankFirst(b.purses[c.player], r.purses[c.player], n)
    && if IsCoin(o.kind) then
         SameGoods(b.purses[c.player], r.purses[c.player]) &&
         CoinsArrive(b, r, c.player, c.amount)
       else
         r.coins == b.coins && HasMore(b.purses[c.player], r.purses[c.player], o.kind, c.amount)
  }

  predicate ToSupply(b: Books, c: Command)
    requires c.Accept? && c.id in b.offers
  {
    var o := b.offers[c.id];
    && c.allowed && c.locker && !o.sells && AmountIsRight(o.kind, c.amount) && c.amount <= o.amount &&
      o.owner != c.player
  }

  /** The supplier gives the goods and gets the price times the amount, which was paid in advance; the owner of the
      offer gets the goods. Without enough goods nothing is sold, and what the removal took is gone. */
  ghost predicate Supplied(b: Books, c: Command, r: Books)
    requires c.Accept? && c.player in b.purses && c.id in b.offers && ToSupply(b, c) && b.offers[c.id].owner in b.purses
    requires Found(b.purses[c.player], b.offers[c.id].kind, c.found)
  {
    var o := b.offers[c.id];
    var p, q := b.purses[c.player], b.purses[o.owner];
    var n := o.price * c.amount;
    && r.fees == b.fees
    && if !Suffices(b, c.player, o.kind, c.amount, c.found, c.fails) then
         r.offers == b.offers && TakenFrom(b, r, c.player, o.kind, c.amount, c.found, c.fails, false)
       else
         && OthersStay(b, r, {c.player, o.owner}) && OfferShrinks(b, r, c.id, c.amount)
         && r.purses[c.player].bank == p.bank + n && r.purses[c.player].cash == p.cash
         && r.purses[c.player].ground == p.ground && SameMoney(q, r.purses[o.owner])
         && if IsCoin(o.kind) then
              SameGoods(p, r.purses[c.player]) && SameGoods(q, r.purses[o.owner]) &&
              CoinsPass(b.coins, r.coins, p.account, q.account, c.amount)
            else
              r.coins == b.coins && HasLess(p, r.purses[c.player], o.kind, c.amount, c.found, c.fails) &&
              HasMore(q, r.purses[o.owner], o.kind, c.amount)
  }

  /** Store coins go from one account to another, or stay if it is the same. */
  predicate CoinsPass(before: map<nat, nat>, after: map<nat, nat>, from: nat, to: nat, n: nat)
  {
    from in before && to in before && n <= before[from] &&
    if from == to then after == before
    else after == before[from := before[from] - n][to := before[to] + n]
  }

  /** The goods, or what a failed removal takes of them, leave the player, and nobody else is touched. */
  ghost predicate TakenFrom(b: Books, r: Books, i: nat, k: Kind, amount: nat, found: seq<nat>, fails: set<nat>,
      ok: bool)
    requires i in b.purses && Found(b.purses[i], k, found)
  {
    && OthersStay(b, r, {i}) && SameMoney(b.purses[i], r.purses[i])
    && if IsCoin(k) then
         r.purses == b.purses && b.purses[i].account in b.coins && (ok ==> amount <= b.coins[b.purses[i].account]) &&
         r.coins ==
         if ok then b.coins[b.purses[i].account := b.coins[b.purses[i].account] - amount] else b.coins
       else
         r.coins == b.coins && HasLess(b.purses[i], r.purses[i], k, amount, found, fails)
  }

  /** The goods arrive with the player, and nobody else is touched. */
  ghost predicate GivenTo(b: Books, r: Books, i: nat, k: Kind, n: nat)
    requires i in b.purses
  {
    && OthersStay(b, r, {i}) && r.offers == b.offers && r.fees == b.fees && SameMoney(b.purses[i], r.purses[i])
    && if IsCoin(k) then
         r.purses == b.purses && CoinsArrive(b, r, i, n)
       else
         r.coins == b.coins && HasMore(b.purses[i], r.purses[i], k, n)
  }

  predicate CanPost(c: Command)
    requires c.Create?
  {
    c.allowed && 1 <= c.price <= 999999999999 && c.kind.id != 0 && AmountIsRight(c.kind, c.amount)
  }

  /** The fee is paid, the goods are in escrow, and the offer is posted; without enough goods only what the removal took
      is gone. */
  ghost predicate SellPosted(b: Books, c: Command, fee: nat, r: Books)
    requires c.Create? && c.player in b.purses && Found(b.purses[c.player], c.kind, c.found)
  {
    if fee > b.purses[c.player].bank + b.purses[c.player].cash || !c.locker then r == b
    else if !Suffices(b, c.player, c.kind, c.amount, c.found, c.fails) then
      r.offers == b.offers && r.fees == b.fees &&
      TakenFrom(b, r, c.player, c.kind, c.amount, c.found, c.fails, false)
    else
      var p := b.purses[c.player];
      && OthersStay(b, r, {c.player}) && PaidCoinsFirst(p, r.purses[c.player], fee) && r.fees == b.fees + fee
      && r.offers == b.offers[c.id := Offer(c.player, true, c.kind, c.amount, c.price)]
      && if IsCoin(c.kind) then
           SameGoods(p, r.purses[c.player]) && p.account in b.coins && c.amount <= b.coins[p.account] &&
           r.coins == b.coins[p.account := b.coins[p.account] - c.amount]
         else
           r.coins == b.coins && HasLess(p, r.purses[c.player], c.kind, c.amount, c.found, c.fails)
  }

  /** The price times the amount and the fee leave the player, and the offer is posted. */
  predicate BuyPosted(b: Books, c: Command, fee: nat, r: Books)
    requires c.Create? && c.player in b.purses
  {
    var p := b.purses[c.player];
    if c.price * c.amount + fee > p.cash + p.bank then r == b
    else
      && OthersStay(b, r, {c.player}) && r.coins == b.coins && r.fees == b.fees + fee
      && SameGoods(p, r.purses[c.player]) && PaidCoinsFirst(p, r.purses[c.player], c.price * c.amount + fee)
      && r.offers == b.offers[c.id := Offer(c.player, false, c.kind, c.amount, c.price)]
  }

  /** The goods come back, or the price times the amount, and the offer is gone. */
  ghost predicate Cancelled(b: Books, id: nat, r: Books)
    requires id in b.offers && b.offers[id].owner in b.purses
  {
    var o := b.offers[id];
    var p := b.purses[o.owner];
    && r.offers == b.offers - {id} && r.fees == b.fees
    && if o.sells then GivenTo(b, r.(offers := b.offers), o.owner, o.kind, o.amount)
       else r.coins == b.coins && r.purses == b.purses[o.owner := p.(bank := p.bank + o.price * o.amount)]
  }

  /** What becomes of the books. */
  ghost predicate Outcome(b: Books, c: Command, r: Books)
    requires SoundOffers(b) && Possible(b, c)
  {
    match c
    case Create(_, sells, _, amount, price, _, _, _, _, _, _) =>
      if !CanPost(c) then r == b
      else exists fee: nat ::
        FeeIs(price, amount, fee) && if sells then SellPosted(b, c, fee, r) else BuyPosted(b, c, fee, r)
    case Cancel(i, id, allowed) =>
      if allowed && id in b.offers && b.offers[id].owner == i then Cancelled(b, id, r) else r == b
    case Accept(_, id, _, _, _, _, _, _) =>
      if id in b.offers && ToBuy(b, c) then Bought(b, c, r)
      else if id in b.offers && ToSupply(b, c) then Supplied(b, c, r)
      else r == b
  }

  // ----- the parts -----

  lemma {:induction false} TakeEffect(b: Books, i: nat, k: Kind, amount: nat, found: seq<nat>, fails: set<nat>)
    requires Sound(b) && i in b.purses && Found(b.purses[i], k, found) && amount < WORD16
    ensures var t := TakeGoods(b, i, k, amount, found, fails);
      && t.0.offers == b.offers && t.0.fees == b.fees && TakenFrom(b, t.0, i, k, amount, found, fails, t.1)
      && (t.1 <==> Suffices(b, i, k, amount, found, fails)) && Sound(t.0)
  {
    Taken(b, i, k, amount, found, fails, k);
    hide Sound, Have, RemoveItems, Enough, Takes, Money, Goods, Stocked, Found, Removed;
    HasAccount(b, i);
    if !IsCoin(k) {
      forall j
        ensures Have(TakeGoods(b, i, k, amount, found, fails).0.purses[i], j) ==
          Have(b.purses[i], j) - Takes(b.purses[i], k, amount, found, fails, j)
      {
        RemovalTakes(b.purses[i], k, amount, found, fails, j);
      }
    }
  }

  lemma {:induction false} GiveEffect(b: Books, i: nat, k: Kind, n: nat)
    requires Sound(b) && i in b.purses && Splits(k)
    ensures GivenTo(b, GiveGoods(b, i, k, n), i, k, n) && Sound(GiveGoods(b, i, k, n))
  {
    hide *;
    Given(b, i, k, n, k);
    HasAccount(b, i);
    if IsCoin(k) {
      GiveCoins(b, i, k, n);
    } else {
      GiveItems(b, i, k, n);
    }
  }

  lemma {:induction false} GiveCoins(b: Books, i: nat, k: Kind, n: nat)
    requires i in b.purses && Splits(k) && IsCoin(k) && b.purses[i].account in b.coins
    ensures GivenTo(b, GiveGoods(b, i, k, n), i, k, n)
  {
    hide Have, Deliver;
  }

  lemma {:induction false} GiveItems(b: Books, i: nat, k: Kind, n: nat)
    requires i in b.purses && Splits(k) && !IsCoin(k) && Stocked(b.purses[i])
    ensures GivenTo(b, GiveGoods(b, i, k, n), i, k, n)
  {
    hide Have, Deliver, Stocked;
    DeliversExactly(b.purses[i], k, n, k);
    forall j
      ensures Have(Deliver(b.purses[i], k, n), j) == Have(b.purses[i], j) + if j == k then n else 0
    {
      DeliversExactly(b.purses[i], k, n, j);
    }
  }

  /** The money of one player changes. */
  predicate OnlyMoney(b: Books, r: Books, i: nat)
    requires i in b.purses
  {
    OthersStay(b, r, {i}) && r.offers == b.offers && r.coins == b.coins && SameGoods(b.purses[i], r.purses[i])
  }

  lemma {:induction false} BankEffect(b: Books, i: nat, total: nat, dropped: nat)
    requires i in b.purses && total <= b.purses[i].bank + b.purses[i].cash
    ensures var c := PaidFromBank(b, i, total, dropped);
      OnlyMoney(b, c, i) && c.fees == b.fees && PaidBankFirst(b.purses[i], c.purses[i], total)
  {
  }

  lemma {:induction false} ChargeEffect(b: Books, i: nat, price: nat, fee: nat, dropped: nat)
    requires i in b.purses && price <= b.purses[i].cash + b.purses[i].bank
    ensures var c := Charged(b, i, price, fee, dropped);
      OnlyMoney(b, c, i) && c.fees == b.fees + fee && PaidCoinsFirst(b.purses[i], c.purses[i], price)
  {
  }

  lemma {:induction false} SameHave(p: Purse, q: Purse)
    requires SameGoods(p, q)
    ensures forall j :: Have(p, j) == Have(q, j)
  {
  }

  lemma {:induction false} FeeOf(price: nat, amount: nat)
    ensures FeeIs(price, amount, Fee(price, amount))
  {
    var x := price / 100 * amount;
    assert Fee(price, amount) == Max(20, Min(100000, x));
  }

  // ----- every command -----

  lemma {:induction false} BoughtParts(b: Books, c: Command, paid: Books, given: Books)
    requires c.Accept? && c.player in b.purses && c.id in b.offers && ToBuy(b, c) && b.offers[c.id].owner in b.purses
    requires OnlyMoney(b, paid, c.player) && paid.fees == b.fees
    requires var n := b.offers[c.id].price * c.amount; PaidBankFirst(b.purses[c.player], paid.purses[c.player], n)
    requires GivenTo(paid, given, c.player, b.offers[c.id].kind, c.amount)
    ensures var o := b.offers[c.id]; var n := o.price * c.amount;
      o.owner in given.purses && c.id in given.offers &&
      Bought(b, c, Reduced(WithBank(given, o.owner, given.purses[o.owner].bank + n), c.id, c.amount))
  {
    hide Have;
    SameHave(b.purses[c.player], paid.purses[c.player]);
  }

  /** The conditions are those of the rules. */
  lemma {:induction false} Conditions(b: Books, c: Command)
    requires SoundOffers(b) && c.player in b.purses && c.Accept? && c.id in b.offers
    ensures b.offers[c.id].owner in b.purses && Splits(b.offers[c.id].kind)
    ensures ToBuy(b, c) <==> Buying(b, c)
    ensures ToSupply(b, c) <==> Supplying(b, c)
  {
    OfferIsProper(b, c.id);
    hide SoundOffers;
  }

  lemma {:induction false} FillSellParts(b: Books, c: Command)
    requires SoundOffers(b) && Possible(b, c) && Buying(b, c)
    ensures var o := b.offers[c.id]; var n := o.price * c.amount;
      && o.owner in b.purses && Splits(o.kind) && n <= b.purses[c.player].bank + b.purses[c.player].cash
      && var given := GiveGoods(PaidFromBank(b, c.player, n, c.dropped), c.player, o.kind, c.amount);
      Do(b, c) == Reduced(WithBank(given, o.owner, given.purses[o.owner].bank + n), c.id, c.amount)
  {
    DoSteps(b, c, COIN);
    hide SoundOffers, Possible, Do, GiveGoods, PaidFromBank, WithBank, Reduced, Drift, CanAccept;
  }

  lemma {:induction false} BoughtOutcome(b: Books, c: Command)
    requires Sound(b) && SoundOffers(b) && c.Accept? && Possible(b, c) && c.id in b.offers && ToBuy(b, c)
    ensures b.offers[c.id].owner in b.purses && Bought(b, c, Do(b, c))
  {
    hide *;
    PossiblePlayer(b, c);
    Conditions(b, c);
    FillSellParts(b, c);
    var o := b.offers[c.id];
    var n := o.price * c.amount;
    var paid := PaidFromBank(b, c.player, n, c.dropped);
    BankEffect(b, c.player, n, c.dropped);
    FromBank(b, c.player, n, c.dropped, COIN);
    GiveEffect(paid, c.player, o.kind, c.amount);
    BoughtParts(b, c, paid, GiveGoods(paid, c.player, o.kind, c.amount));
  }

  lemma {:induction false} PossiblePlayer(b: Books, c: Command)
    requires Possible(b, c)
    ensures c.player in b.purses
    ensures c.Create? && c.sells ==> Found(b.purses[c.player], c.kind, c.found)
    ensures c.Accept? && c.id in b.offers && !b.offers[c.id].sells ==>
      Found(b.purses[c.player], b.offers[c.id].kind, c.found)
  {
    hide Found;
  }

  lemma {:induction false} SuppliedParts(b: Books, c: Command, taken: Books, given: Books)
    requires c.Accept? && c.player in b.purses && c.id in b.offers && ToSupply(b, c) && b.offers[c.id].owner in b.purses
    requires var o := b.offers[c.id];
      && Found(b.purses[c.player], o.kind, c.found) && Suffices(b, c.player, o.kind, c.amount, c.found, c.fails)
      && TakenFrom(b, taken, c.player, o.kind, c.amount, c.found, c.fails, true)
      && taken.offers == b.offers && taken.fees == b.fees
    requires var o := b.offers[c.id]; var n := o.price * c.amount;
      var sold := WithBank(taken, c.player, taken.purses[c.player].bank + n);
      GivenTo(sold, given, o.owner, o.kind, c.amount)
    ensures Supplied(b, c, Reduced(given, c.id, c.amount))
  {
    hide Have, Takes, Found, Suffices;
    var sold := WithBank(taken, c.player, taken.purses[c.player].bank + b.offers[c.id].price * c.amount);
    SameHave(taken.purses[c.player], sold.purses[c.player]);
  }

  lemma {:induction false} FillBuyParts(b: Books, c: Command)
    requires SoundOffers(b) && Possible(b, c) && Supplying(b, c)
    ensures var o := b.offers[c.id]; var n := o.price * c.amount;
      && o.owner in b.purses && Splits(o.kind) && Found(b.purses[c.player], o.kind, c.found) && c.amount < WORD16
      && var t := TakeGoods(b, c.player, o.kind, c.amount, c.found, c.fails);
      Do(b, c) == if !t.1 then t.0
        else
          var sold := WithBank(t.0, c.player, t.0.purses[c.player].bank + n);
          Reduced(GiveGoods(sold, o.owner, o.kind, c.amount), c.id, c.amount)
  {
    DoSteps(b, c, COIN);
    hide SoundOffers, Possible, Do, GiveGoods, TakeGoods, WithBank, Reduced, Drift, Found;
  }

  lemma {:induction false} SuppliedOutcome(b: Books, c: Command)
    requires Sound(b) && SoundOffers(b) && c.Accept? && Possible(b, c) && c.id in b.offers && ToSupply(b, c)
    ensures b.offers[c.id].owner in b.purses && Found(b.purses[c.player], b.offers[c.id].kind, c.found)
    ensures Supplied(b, c, Do(b, c))
  {
    hide *;
    PossiblePlayer(b, c);
    Conditions(b, c);
    FillBuyParts(b, c);
    var o := b.offers[c.id];
    TakeEffect(b, c.player, o.kind, c.amount, c.found, c.fails);
    var t := TakeGoods(b, c.player, o.kind, c.amount, c.found, c.fails);
    if t.1 {
      var bank := t.0.purses[c.player].bank + o.price * c.amount;
      BankSet(t.0, c.player, bank, COIN);
      var sold := WithBank(t.0, c.player, bank);
      GiveEffect(sold, o.owner, o.kind, c.amount);
      SuppliedParts(b, c, t.0, GiveGoods(sold, o.owner, o.kind, c.amount));
    } else {
      NothingSold(b, c, t.0);
    }
  }

  lemma {:induction false} NothingSold(b: Books, c: Command, taken: Books)
    requires c.Accept? && c.player in b.purses && c.id in b.offers && ToSupply(b, c) && b.offers[c.id].owner in b.purses
    requires var o := b.offers[c.id];
      && Found(b.purses[c.player], o.kind, c.found) && !Suffices(b, c.player, o.kind, c.amount, c.found, c.fails)
      && TakenFrom(b, taken, c.player, o.kind, c.amount, c.found, c.fails, false)
      && taken.offers == b.offers && taken.fees == b.fees
    ensures Supplied(b, c, taken)
  {
    hide TakenFrom, Found, Suffices;
  }

  lemma {:induction false} CancelParts(b: Books, i: nat, id: nat, allowed: bool)
    requires SoundOffers(b) && i in b.purses
    ensures if allowed && id in b.offers && b.offers[id].owner == i then
        var o := b.offers[id];
        Splits(o.kind) && Do(b, Cancel(i, id, allowed)) ==
          Withdrawn(if o.sells then GiveGoods(b, i, o.kind, o.amount)
            else WithBank(b, i, b.purses[i].bank + o.price * o.amount), id)
      else Do(b, Cancel(i, id, allowed)) == b
  {
    hide GiveGoods, WithBank, Withdrawn;
    if id in b.offers {
      OfferIsProper(b, id);
      assert Price(b.offers[id].price, b.offers[id].amount) == b.offers[id].price * b.offers[id].amount;
    }
    hide Price;
  }

  lemma {:induction false} CancelledOutcome(b: Books, i: nat, id: nat)
    requires Sound(b) && SoundOffers(b) && i in b.purses && id in b.offers && b.offers[id].owner == i
    ensures Cancelled(b, id, Do(b, Cancel(i, id, true)))
  {
    hide Sound, SoundOffers, GiveGoods, Do, Have, HasMore;
    CancelParts(b, i, id, true);
    var o := b.offers[id];
    if o.sells {
      GiveEffect(b, i, o.kind, o.amount);
      var given := GiveGoods(b, i, o.kind, o.amount);
      assert Withdrawn(given, id).(offers := b.offers) == given;
    }
  }

  lemma {:induction false} CreateParts(b: Books, c: Command)
    requires SoundOffers(b) && Possible(b, c) && c.Create?
    ensures CanPost(c) <==> c.allowed && CanCreate(c.kind, c.amount, c.price)
    ensures Do(b, c) == if !CanPost(c) then b else if c.sells then CreateSell(b, c) else CreateBuy(b, c)
    ensures CanPost(c) ==> c.amount < WORD16
    ensures Price(c.price, c.amount) == c.price * c.amount
  {
    hide CreateSell, CreateBuy, SoundOffers, Possible;
  }

  lemma {:induction false} BuyPostedOutcome(b: Books, c: Command)
    requires c.Create? && !c.sells && c.player in b.purses && CanPost(c)
    ensures BuyPosted(b, c, Fee(c.price, c.amount), CreateBuy(b, c))
  {
    var fee := Fee(c.price, c.amount);
    var total := Price(c.price, c.amount) + fee;
    assert total == c.price * c.amount + fee;
    hide Price, Fee;
    if total <= b.purses[c.player].cash + b.purses[c.player].bank {
      hide Charged;
      ChargeEffect(b, c.player, total, fee, c.dropped);
    }
  }

  lemma {:induction false} SellPostedParts(b: Books, c: Command, fee: nat, taken: Books, paid: Books)
    requires c.Create? && c.player in b.purses && Found(b.purses[c.player], c.kind, c.found) && c.locker
    requires fee <= b.purses[c.player].bank + b.purses[c.player].cash
    requires Suffices(b, c.player, c.kind, c.amount, c.found, c.fails)
    requires TakenFrom(b, taken, c.player, c.kind, c.amount, c.found, c.fails, true)
    requires taken.offers == b.offers && taken.fees == b.fees
    requires OnlyMoney(taken, paid, c.player) && paid.fees == taken.fees + fee
    requires PaidCoinsFirst(taken.purses[c.player], paid.purses[c.player], fee)
    ensures SellPosted(b, c, fee, Posted(paid, c.id, Offer(c.player, true, c.kind, c.amount, c.price)))
  {
    hide Have, Takes, Found, Suffices;
    SameHave(taken.purses[c.player], paid.purses[c.player]);
  }

  lemma {:induction false} SellPostedOutcome(b: Books, c: Command)
    requires Sound(b) && c.Create? && c.sells && Possible(b, c) && c.amount < WORD16
    ensures Found(b.purses[c.player], c.kind, c.found)
    ensures SellPosted(b, c, Fee(c.price, c.amount), CreateSell(b, c))
  {
    PossiblePlayer(b, c);
    var fee := Fee(c.price, c.amount);
    TakeEffect(b, c.player, c.kind, c.amount, c.found, c.fails);
    var t := TakeGoods(b, c.player, c.kind, c.amount, c.found, c.fails);
    hide Sound, Possible, Fee, TakeGoods, Found, Suffices, Charged, Posted, HasLess, IsCoin, Have, Takes;
    if fee <= b.purses[c.player].bank + b.purses[c.player].cash && c.locker && t.1 {
      ChargeEffect(t.0, c.player, fee, fee, c.dropped);
      SellPostedParts(b, c, fee, t.0, Charged(t.0, c.player, fee, fee, c.dropped));
    }
  }

  lemma {:induction false} AcceptNothing(b: Books, c: Command)
    requires SoundOffers(b) && Possible(b, c) && c.Accept?
    requires c.id !in b.offers || (!ToBuy(b, c) && !ToSupply(b, c))
    ensures Do(b, c) == b
  {
    PossiblePlayer(b, c);
    if c.id in b.offers {
      Conditions(b, c);
    }
    hide SoundOffers, Possible, ToBuy, ToSupply, TakeGoods, GiveGoods, Found, CanAccept;
    if c.id !in b.offers {
      OffersOnly(b, c);
    }
    OtherwiseNothing(b, c);
  }

  lemma {:induction false} OffersOnly(b: Books, c: Command)
    requires SoundOffers(b) && c.player in b.purses && c.Accept? && c.id !in b.offers
    ensures !CanAccept(b, c.player, c.id, c.amount)
  {
  }

  /** Every command does to every player, offer and account exactly what is written out above. */
  lemma {:induction false} EveryCommand(b: Books, c: Command)
    requires Sound(b) && SoundOffers(b) && Possible(b, c)
    ensures Outcome(b, c, Do(b, c))
  {
    PossiblePlayer(b, c);
    hide Sound, SoundOffers, Possible, Do, ToBuy, ToSupply, Bought, Supplied, Cancelled, SellPosted, BuyPosted, CanPost,
      FeeIs, Fee, Found;
    match c
    case Create(_, sells, _, amount, price, _, _, _, _, _, _) =>
      CreateParts(b, c);
      FeeOf(price, amount);
      if CanPost(c) {
        if sells {
          SellPostedOutcome(b, c);
        } else {
          BuyPostedOutcome(b, c);
        }
      }
    case Cancel(i, id, allowed) =>
      CancelParts(b, i, id, allowed);
      if allowed && id in b.offers && b.offers[id].owner == i {
        CancelledOutcome(b, i, id);
      }
    case Accept(_, id, _, _, _, _, _, _) =>
      if id in b.offers && ToBuy(b, c) {
        BoughtOutcome(b, c);
      } else if id in b.offers && ToSupply(b, c) {
        SuppliedOutcome(b, c);
      } else {
        AcceptNothing(b, c);
      }
  }
}
