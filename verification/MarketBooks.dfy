/** The books of the market (src/game/game.cpp, src/io/iomarket.cpp).

    Money lies in purses, in open buy offers and in the fees taken; goods lie in purses,
    in open sell offers and, for store coins, in accounts.
  */
module MarketBooks {
  import opened Cylinders
  import opened MarketGoods
  import opened Sums

  const STORE_COIN: nat := 22118
  const COIN: Kind := Kind(STORE_COIN, 0, true, 100)
  const MAX_PRICE: nat := 999999999999
  const MAX_STACKABLE: nat := 64000
  const MAX_SINGLE: nat := 2000

  datatype Offer = Offer(owner: nat, sells: bool, kind: Kind, amount: nat, price: nat)

  datatype Books = Books(purses: map<nat, Purse>, coins: map<nat, nat>, offers: map<nat, Offer>, fees: nat)

  // ----- what is conserved -----

  function Wealths(b: Books): map<nat, nat>
  {
    map i | i in b.purses :: Wealth(b.purses[i])
  }

  function Price(price: nat, amount: nat): nat
  {
    price * amount
  }

  function Escrow(o: Offer): nat
  {
    if o.sells then 0 else Price(o.price, o.amount)
  }

  function Escrows(b: Books): map<nat, nat>
  {
    map i | i in b.offers :: Escrow(b.offers[i])
  }

  /** All money: in purses, paid in advance for open buy offers, and taken as fees. */
  ghost function Money(b: Books): nat
  {
    Sum(Wealths(b)) + Sum(Escrows(b)) + b.fees
  }

  ghost function Haves(b: Books, k: Kind): map<nat, nat>
  {
    map i | i in b.purses :: Have(b.purses[i], k)
  }

  function Listed(o: Offer, k: Kind): nat
  {
    if o.sells && o.kind == k then o.amount else 0
  }

  function Listing(b: Books, k: Kind): map<nat, nat>
  {
    map i | i in b.offers :: Listed(b.offers[i], k)
  }

  /** All goods of a kind: in purses, up for sale, and in accounts. */
  ghost function Goods(b: Books, k: Kind): nat
  {
    Sum(Haves(b, k)) + Sum(Listing(b, k)) + (if k == COIN then Sum(b.coins) else 0)
  }

  function WithPurse(b: Books, i: nat, p: Purse): Books
  {
    b.(purses := b.purses[i := p])
  }

  lemma {:induction false} PursePut(b: Books, i: nat, p: Purse)
    requires i in b.purses
    ensures Money(WithPurse(b, i, p)) == Money(b) - Wealth(b.purses[i]) + Wealth(p)
  {
    SumPut(Wealths(b), i, Wealth(p));
    assert Wealths(b)[i := Wealth(p)] == Wealths(WithPurse(b, i, p));
  }

  lemma {:induction false} PurseGoods(b: Books, i: nat, p: Purse, k: Kind)
    requires i in b.purses
    ensures Goods(WithPurse(b, i, p), k) == Goods(b, k) - Have(b.purses[i], k) + Have(p, k)
  {
    SumPut(Haves(b, k), i, Have(p, k));
    assert Haves(b, k)[i := Have(p, k)] == Haves(WithPurse(b, i, p), k);
  }

  lemma {:induction false} CoinsPut(b: Books, a: nat, n: nat, k: Kind)
    requires a in b.coins
    ensures var c := b.(coins := b.coins[a := n]);
      Money(c) == Money(b) && Goods(c, k) == Goods(b, k) + (if k == COIN then n - b.coins[a] else 0)
  {
    var c := b.(coins := b.coins[a := n]);
    SumPut(b.coins, a, n);
    assert Wealths(c) == Wealths(b) && Escrows(c) == Escrows(b) && Haves(c, k) == Haves(b, k) &&
      Listing(c, k) == Listing(b, k);
  }

  lemma {:induction false} OfferPut(b: Books, i: nat, o: Offer, k: Kind)
    ensures var c := b.(offers := b.offers[i := o]);
      && Money(c) == Money(b) + Escrow(o) - (if i in b.offers then Escrow(b.offers[i]) else 0)
      && Goods(c, k) == Goods(b, k) + Listed(o, k) - (if i in b.offers then Listed(b.offers[i], k) else 0)
  {
    var c := b.(offers := b.offers[i := o]);
    SumPut(Escrows(b), i, Escrow(o));
    SumPut(Listing(b, k), i, Listed(o, k));
    assert Escrows(c) == Escrows(b)[i := Escrow(o)] && Listing(c, k) == Listing(b, k)[i := Listed(o, k)];
    assert Wealths(c) == Wealths(b) && Haves(c, k) == Haves(b, k);
  }

  lemma {:induction false} OfferDrop(b: Books, i: nat, k: Kind)
    requires i in b.offers
    ensures var c := b.(offers := b.offers - {i});
      Money(c) == Money(b) - Escrow(b.offers[i]) && Goods(c, k) == Goods(b, k) - Listed(b.offers[i], k)
  {
    var c := b.(offers := b.offers - {i});
    SumTake(Escrows(b), i);
    SumTake(Listing(b, k), i);
    assert Escrows(c) == Escrows(b) - {i} && Listing(c, k) == Listing(b, k) - {i};
    assert Wealths(c) == Wealths(b) && Haves(c, k) == Haves(b, k);
  }

  // ----- invariants -----

  /** Item types are looked up by their id: store coins are always the same type, and stacks hold something. */
  predicate Typed(k: Kind)
  {
    (k.id == STORE_COIN ==> Plain(k) == COIN) && Splits(k)
  }

  function MaxAmount(k: Kind): nat
  {
    if k.stackable then MAX_STACKABLE else MAX_SINGLE
  }

  predicate Proper(o: Offer)
  {
    Typed(o.kind) && o.kind.id != 0 && 1 <= o.amount <= MaxAmount(o.kind) && 1 <= o.price <= MAX_PRICE
  }

  ghost predicate SoundPurses(b: Books)
  {
    forall i :: i in b.purses ==> Stocked(b.purses[i]) && b.purses[i].account in b.coins
  }

  ghost predicate SoundOffers(b: Books)
  {
    forall i :: i in b.offers ==> Proper(b.offers[i]) && b.offers[i].owner in b.purses
  }

  ghost predicate Sound(b: Books)
  {
    SoundPurses(b) && SoundOffers(b)
  }

  // ----- single changes to the books -----

  /** Only the money differs. */
  predicate SameGoods(p: Purse, q: Purse)
  {
    p.account == q.account && p.stash == q.stash && p.depot == q.depot && p.next == q.next
  }

  lemma {:induction false} Repursed(b: Books, i: nat, q: Purse, j: Kind)
    requires Sound(b) && i in b.purses && SameGoods(b.purses[i], q)
    ensures var c := WithPurse(b, i, q);
      Sound(c) && Money(c) == Money(b) - Wealth(b.purses[i]) + Wealth(q) && Goods(c, j) == Goods(b, j)
  {
    PursePut(b, i, q);
    PurseGoods(b, i, q, j);
    assert Sound(WithPurse(b, i, q));
    hide Money, Goods;
  }

  lemma {:induction false} FeesTaken(b: Books, n: nat, j: Kind)
    requires Sound(b)
    ensures var c := b.(fees := b.fees + n);
      Sound(c) && Money(c) == Money(b) + n && Goods(c, j) == Goods(b, j)
  {
    var c := b.(fees := b.fees + n);
    assert Wealths(c) == Wealths(b) && Escrows(c) == Escrows(b) && Haves(c, j) == Haves(b, j) &&
      Listing(c, j) == Listing(b, j);
  }

  lemma {:induction false} NewOfferSound(b: Books, id: nat, o: Offer)
    requires Sound(b) && Proper(o) && o.owner in b.purses
    ensures Sound(Posted(b, id, o))
  {
  }

  lemma {:induction false} OfferAdded(b: Books, id: nat, o: Offer, j: Kind)
    requires Sound(b) && id !in b.offers && Proper(o) && o.owner in b.purses
    ensures var c := Posted(b, id, o);
      Sound(c) && Money(c) == Money(b) + Escrow(o) && Goods(c, j) == Goods(b, j) + Listed(o, j)
  {
    hide Money, Goods, Sound, Proper;
    OfferPut(b, id, o, j);
    NewOfferSound(b, id, o);
  }

  lemma {:induction false} FewerOffersSound(b: Books, id: nat)
    requires Sound(b)
    ensures Sound(Withdrawn(b, id))
  {
  }

  lemma {:induction false} OfferDropped(b: Books, id: nat, j: Kind)
    requires Sound(b) && id in b.offers
    ensures var c := Withdrawn(b, id);
      Sound(c) && Money(c) == Money(b) - Escrow(b.offers[id]) && Goods(c, j) == Goods(b, j) - Listed(b.offers[id], j)
  {
    hide Money, Goods, Sound;
    OfferDrop(b, id, j);
    FewerOffersSound(b, id);
  }

  function Posted(b: Books, id: nat, o: Offer): Books
  {
    b.(offers := b.offers[id := o])
  }

  function Withdrawn(b: Books, id: nat): Books
  {
    b.(offers := b.offers - {id})
  }

  /** The offer shrinks by what was traded, or is gone. */
  function Reduced(b: Books, id: nat, amount: nat): Books
    requires id in b.offers
  {
    var o := b.offers[id];
    if o.amount <= amount then Withdrawn(b, id) else Posted(b, id, o.(amount := o.amount - amount))
  }

  lemma {:induction false} PriceSplit(price: nat, whole: nat, part: nat)
    requires part <= whole
    ensures Price(price, whole) == Price(price, part) + Price(price, whole - part)
  {
  }

  lemma {:induction false} SmallerOfferSound(b: Books, id: nat, n: nat)
    requires Sound(b) && id in b.offers && 1 <= n <= b.offers[id].amount
    ensures Sound(Posted(b, id, b.offers[id].(amount := n)))
  {
  }

  lemma {:induction false} OfferReduced(b: Books, id: nat, amount: nat, j: Kind)
    requires Sound(b) && id in b.offers && 1 <= amount <= b.offers[id].amount
    ensures var c := Reduced(b, id, amount); var o := b.offers[id];
      && Sound(c) && c.purses == b.purses
      && Money(c) == Money(b) - (if o.sells then 0 else Price(o.price, amount))
      && Goods(c, j) == Goods(b, j) - (if o.sells && o.kind == j then amount else 0)
  {
    hide Money, Goods, Sound, Proper;
    var o := b.offers[id];
    PriceSplit(o.price, o.amount, amount);
    if o.amount == amount {
      OfferDropped(b, id, j);
    } else {
      OfferPut(b, id, o.(amount := o.amount - amount), j);
      SmallerOfferSound(b, id, o.amount - amount);
    }
  }

  // ----- the parts of a command -----

  function Balance(b: Books, account: nat): nat
  {
    if account in b.coins then b.coins[account] else 0
  }

  /** Goods leave a player: store coins from his account, anything else from his stash and depot. */
  ghost function TakeGoods(b: Books, i: nat, k: Kind, amount: nat, found: seq<nat>, fails: set<nat>): (r: (Books, bool))
    requires i in b.purses && Found(b.purses[i], k, found)
    ensures r.0.purses.Keys == b.purses.Keys && r.0.offers == b.offers && r.0.fees == b.fees
  {
    var p := b.purses[i];
    if k.id == STORE_COIN then
      if amount > Balance(b, p.account) then (b, false)
      else (b.(coins := b.coins[p.account := Balance(b, p.account) - amount]), true)
    else
      var t := RemoveItems(p, k, amount, found, fails);
      (WithPurse(b, i, t.purse), t.ok)
  }

  function GiveGoods(b: Books, i: nat, k: Kind, n: nat): (c: Books)
    requires i in b.purses && Splits(k)
    ensures c.purses.Keys == b.purses.Keys && c.offers == b.offers && c.fees == b.fees
  {
    var a := b.purses[i].account;
    if k.id == STORE_COIN then b.(coins := b.coins[a := Balance(b, a) + n])
    else WithPurse(b, i, Deliver(b.purses[i], k, n))
  }

  /** Coins pay first and the bank the rest; part of the change may fall on the tile. */
  function Pay(p: Purse, price: nat, dropped: nat): Purse
  {
    var coins := Min(p.cash, price);
    var d := Min(dropped, p.cash - coins);
    p.(cash := p.cash - coins - d, ground := p.ground + d, bank := p.bank - Min(p.bank, price - coins))
  }

  /** Every outcome of a payment in coins, as `Payment` proves it: the price leaves the total, the bank pays what the
      coins do not, and the tile only gains. */
  predicate PaysFor(p: Purse, price: nat, q: Purse)
  {
    && SameGoods(p, q) && Wealth(q) == Wealth(p) - price && q.ground >= p.ground
    && q.bank == p.bank - (if price > p.cash then price - p.cash else 0)
  }

  /** The outcomes of a payment are exactly those of Pay. */
  lemma {:induction false} PayIsAnyPayment(p: Purse, price: nat, q: Purse)
    requires price <= p.cash + p.bank
    ensures PaysFor(p, price, q) <==> exists dropped: nat :: q == Pay(p, price, dropped)
  {
    if PaysFor(p, price, q) {
      assert q == Pay(p, price, q.ground - p.ground);
    }
  }

  function WithBank(b: Books, i: nat, n: nat): (c: Books)
    requires i in b.purses
    ensures c.purses.Keys == b.purses.Keys && c.offers == b.offers
  {
    WithPurse(b, i, b.purses[i].(bank := n))
  }

  /** The price leaves the player, part of it as a fee. */
  function Charged(b: Books, i: nat, price: nat, fee: nat, dropped: nat): (c: Books)
    requires i in b.purses
    ensures c.purses.Keys == b.purses.Keys && c.offers == b.offers
  {
    WithPurse(b, i, Pay(b.purses[i], price, dropped)).(fees := b.fees + fee)
  }

  lemma {:induction false} BankSet(b: Books, i: nat, n: nat, j: Kind)
    requires Sound(b) && i in b.purses
    ensures var c := WithBank(b, i, n);
      Sound(c) && Money(c) == Money(b) - b.purses[i].bank + n && Goods(c, j) == Goods(b, j)
  {
    hide Sound, Money, Goods;
    Repursed(b, i, b.purses[i].(bank := n), j);
  }

  lemma {:induction false} ChargedOff(b: Books, i: nat, price: nat, fee: nat, dropped: nat, j: Kind)
    requires Sound(b) && i in b.purses && price <= b.purses[i].cash + b.purses[i].bank
    ensures var c := Charged(b, i, price, fee, dropped);
      Sound(c) && Money(c) == Money(b) - price + fee && Goods(c, j) == Goods(b, j)
  {
    hide Sound, Money, Goods;
    var q := Pay(b.purses[i], price, dropped);
    Repursed(b, i, q, j);
    FeesTaken(WithPurse(b, i, q), fee, j);
  }

  function Max(a: nat, b: nat): nat
  {
    if a >= b then a else b
  }

  function Fee(price: nat, amount: nat): nat
  {
    Max(20, Min(100000, price / 100 * amount))
  }

  predicate RightAmount(k: Kind, amount: nat)
  {
    1 <= amount <= MaxAmount(k)
  }

  predicate CanCreate(k: Kind, amount: nat, price: nat)
  {
    1 <= price <= MAX_PRICE && k.id != 0 && RightAmount(k, amount)
  }

  /** Whether the goods of an offer can be taken, from what account, stash and depot hold. */
  predicate Suffices(b: Books, i: nat, k: Kind, amount: nat, found: seq<nat>, fails: set<nat>)
    requires i in b.purses && forall x :: 0 <= x < |found| ==> found[x] in b.purses[i].depot
  {
    if k.id == STORE_COIN then amount <= Balance(b, b.purses[i].account)
    else Enough(b.purses[i], k, amount, found, fails)
  }

  /** How many of a kind leave: store coins all or none, other goods also when the removal fails. */
  function Removed(b: Books, i: nat, k: Kind, amount: nat, found: seq<nat>, fails: set<nat>, j: Kind): nat
    requires i in b.purses && forall x :: 0 <= x < |found| ==> found[x] in b.purses[i].depot
  {
    if k.id == STORE_COIN then (if j == COIN && Suffices(b, i, k, amount, found, fails) then amount else 0)
    else Takes(b.purses[i], k, amount, found, fails, j)
  }

  /** The goods that arrive when goods of a kind are given: store coins have no tier. */
  function Arrives(k: Kind): Kind
  {
    if k.id == STORE_COIN then COIN else k
  }

  lemma {:induction false} PurseSound(b: Books, i: nat, p: Purse)
    requires Sound(b) && i in b.purses && Stocked(p) && p.account == b.purses[i].account
    ensures Sound(WithPurse(b, i, p))
  {
  }

  lemma {:induction false} CoinsSound(b: Books, a: nat, n: nat)
    requires Sound(b)
    ensures Sound(b.(coins := b.coins[a := n]))
  {
  }

  lemma {:induction false} HasAccount(b: Books, i: nat)
    requires Sound(b) && i in b.purses
    ensures b.purses[i].account in b.coins && Stocked(b.purses[i])
  {
  }

  lemma {:induction false} Taken(b: Books, i: nat, k: Kind, amount: nat, found: seq<nat>, fails: set<nat>, j: Kind)
    requires Sound(b) && i in b.purses && Found(b.purses[i], k, found) && amount < WORD16
    ensures var t := TakeGoods(b, i, k, amount, found, fails);
      && Money(t.0) == Money(b) && Sound(t.0) && SameMoney(b.purses[i], t.0.purses[i])
      && (t.1 <==> Suffices(b, i, k, amount, found, fails))
      && Goods(t.0, j) == Goods(b, j) - Removed(b, i, k, amount, found, fails, j)
  {
    hide Money, Goods, Have, RemoveItems, Sound, Stocked, Enough, Takes;
    var p := b.purses[i];
    HasAccount(b, i);
    if k.id == STORE_COIN {
      if amount <= Balance(b, p.account) {
        CoinsPut(b, p.account, b.coins[p.account] - amount, j);
        CoinsSound(b, p.account, b.coins[p.account] - amount);
      }
    } else {
      var t := RemoveItems(p, k, amount, found, fails);
      RemovalTakes(p, k, amount, found, fails, j);
      PursePut(b, i, t.purse);
      PurseGoods(b, i, t.purse, j);
      PurseSound(b, i, t.purse);
    }
  }

  lemma {:induction false} Given(b: Books, i: nat, k: Kind, n: nat, j: Kind)
    requires Sound(b) && i in b.purses && Splits(k)
    ensures var c := GiveGoods(b, i, k, n);
      && Money(c) == Money(b) && Sound(c) && SameMoney(b.purses[i], c.purses[i])
      && Goods(c, j) == Goods(b, j) + (if j == Arrives(k) then n else 0)
  {
    hide Money, Goods, Have, Deliver, Sound, Stocked;
    var p := b.purses[i];
    HasAccount(b, i);
    if k.id == STORE_COIN {
      CoinsPut(b, p.account, b.coins[p.account] + n, j);
      CoinsSound(b, p.account, b.coins[p.account] + n);
    } else {
      var q := Deliver(p, k, n);
      DeliversExactly(p, k, n, j);
      PursePut(b, i, q);
      PurseGoods(b, i, q, j);
      PurseSound(b, i, q);
    }
  }
}
