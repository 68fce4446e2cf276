/** The market as escrow (src/game/game.cpp: playerCreateMarketOffer,
    playerCancelMarketOffer, playerAcceptMarketOffer): what one command makes of the
    books, and what every run keeps.
  */
module MarketRules {
  import opened Cylinders
  import opened MarketGoods
  import opened MarketBooks
  import opened Sums

  // ----- commands -----

  /** `allowed` stands for the checks on the connection, the market window, exhaustion, premium and the number of
      offers; `locker` for the depot locker. The removals that fail are in `fails`; `dropped` is how much change falls
      on the tile. */
  datatype Command =
    | Create(player: nat, sells: bool, kind: Kind, amount: nat, price: nat, allowed: bool, locker: bool,
      found: seq<nat>, fails: set<nat>, dropped: nat, id: nat)
    | Cancel(player: nat, id: nat, allowed: bool)
    | Accept(player: nat, id: nat, amount: nat, allowed: bool, locker: bool, found: seq<nat>, fails: set<nat>,
      dropped: nat)

  /** Commands come from known players; the search finds items of the kind, and a new offer has a new id. */
  ghost predicate Possible(b: Books, c: Command)
  {
    c.player in b.purses &&
    match c
    case Create(i, sells, k, _, _, _, _, found, _, _, id) => Typed(k) && id !in b.offers &&
      (sells ==> Found(b.purses[i], k, found))
    case Cancel(_, _, _) => true
    case Accept(i, id, _, _, _, found, _, _) => id in b.offers && !b.offers[id].sells ==>
      Found(b.purses[i], b.offers[id].kind, found)
  }

  ghost function CreateSell(b: Books, c: Command): Books
    requires c.Create? && c.player in b.purses && Found(b.purses[c.player], c.kind, c.found)
  {
    var p := b.purses[c.player];
    var fee := Fee(c.price, c.amount);
    if fee > p.bank + p.cash || !c.locker then b
    else
      var t := TakeGoods(b, c.player, c.kind, c.amount, c.found, c.fails);
      if !t.1 then t.0
      else Posted(Charged(t.0, c.player, fee, fee, c.dropped), c.id, Offer(c.player, true, c.kind, c.amount, c.price))
  }

  function CreateBuy(b: Books, c: Command): Books
    requires c.Create? && c.player in b.purses
  {
    var p := b.purses[c.player];
    var fee := Fee(c.price, c.amount);
    var total := Price(c.price, c.amount) + fee;
    if total > p.cash + p.bank then b
    else Posted(Charged(b, c.player, total, fee, c.dropped), c.id, Offer(c.player, false, c.kind, c.amount, c.price))
  }

  ghost function DoCancel(b: Books, i: nat, id: nat): Books
    requires SoundOffers(b) && i in b.purses
  {
    if id !in b.offers || b.offers[id].owner != i then b
    else
      var o := b.offers[id];
      Withdrawn(if o.sells then GiveGoods(b, i, o.kind, o.amount)
        else WithBank(b, i, b.purses[i].bank + Price(o.price, o.amount)), id)
  }

  /** Every player has an account object of his own, so the comparison of account objects refuses nobody. */
  ghost predicate CanAccept(b: Books, i: nat, id: nat, amount: nat)
    requires i in b.purses && SoundOffers(b)
  {
    && id in b.offers && RightAmount(b.offers[id].kind, amount) && amount <= b.offers[id].amount
    && b.offers[id].owner != i
  }

  /** Selling to an open buy offer. */
  ghost function FillBuy(b: Books, c: Command): Books
    requires c.Accept? && c.player in b.purses && c.id in b.offers &&
      Found(b.purses[c.player], b.offers[c.id].kind, c.found)
    requires b.offers[c.id].owner in b.purses && Splits(b.offers[c.id].kind)
  {
    var o := b.offers[c.id];
    if !c.locker then b
    else
      var t := TakeGoods(b, c.player, o.kind, c.amount, c.found, c.fails);
      if !t.1 then t.0
      else
        var sold := WithBank(t.0, c.player, t.0.purses[c.player].bank + Price(o.price, c.amount));
        Reduced(GiveGoods(sold, o.owner, o.kind, c.amount), c.id, c.amount)
  }

  /** The bank pays first and coins the rest. */
  function PaidFromBank(b: Books, i: nat, total: nat, dropped: nat): (c: Books)
    requires i in b.purses
    ensures c.purses.Keys == b.purses.Keys && c.offers == b.offers
  {
    var bank := b.purses[i].bank;
    if total <= bank then WithBank(b, i, bank - total)
    else Charged(WithBank(b, i, 0), i, total - bank, 0, dropped)
  }

  /** Buying from an open sell offer. */
  ghost function FillSell(b: Books, c: Command): Books
    requires c.Accept? && c.player in b.purses && c.id in b.offers
    requires b.offers[c.id].owner in b.purses && Splits(b.offers[c.id].kind)
  {
    var o := b.offers[c.id];
    var total := Price(o.price, c.amount);
    var p := b.purses[c.player];
    if total > p.bank + p.cash then b
    else
      var given := GiveGoods(PaidFromBank(b, c.player, total, c.dropped), c.player, o.kind, c.amount);
      Reduced(WithBank(given, o.owner, given.purses[o.owner].bank + total), c.id, c.amount)
  }

  ghost function Do(b: Books, c: Command): Books
    requires SoundOffers(b) && Possible(b, c)
  {
    if !c.allowed then b
    else
      match c
      case Create(_, sells, k, amount, price, _, _, _, _, _, _) =>
        if !CanCreate(k, amount, price) then b else if sells then CreateSell(b, c) else CreateBuy(b, c)
      case Cancel(i, id, _) => DoCancel(b, i, id)
      case Accept(i, id, amount, _, _, _, _, _) =>
        if !CanAccept(b, i, id, amount) then b else if b.offers[id].sells then FillSell(b, c) else FillBuy(b, c)
  }

  // ----- every command keeps the money, and moves goods as stated -----

  /** A sell command that gets as far as taking the goods. */
  ghost predicate Selling(b: Books, c: Command)
    requires c.player in b.purses
  {
    && c.Create? && c.sells && c.allowed && c.locker && CanCreate(c.kind, c.amount, c.price)
    && Fee(c.price, c.amount) <= b.purses[c.player].bank + b.purses[c.player].cash
  }

  /** An acceptance of a buy offer that gets as far as taking the goods. */
  ghost predicate Supplying(b: Books, c: Command)
    requires SoundOffers(b) && c.player in b.purses
  {
    c.Accept? && c.allowed && c.locker && CanAccept(b, c.player, c.id, c.amount) && !b.offers[c.id].sells
  }

  /** An acceptance of a sell offer that is paid. */
  ghost predicate Buying(b: Books, c: Command)
    requires SoundOffers(b) && c.player in b.purses
  {
    && c.Accept? && c.allowed && CanAccept(b, c.player, c.id, c.amount) && b.offers[c.id].sells
    && Price(b.offers[c.id].price, c.amount) <= b.purses[c.player].bank + b.purses[c.player].cash
  }

  ghost predicate Returning(b: Books, c: Command)
  {
    c.Cancel? && c.allowed && c.id in b.offers && b.offers[c.id].owner == c.player && b.offers[c.id].sells
  }

  /** How the total of a kind changes, from the books before the command: what a failed removal loses, and what changes
      its tier. */
  ghost function Drift(b: Books, c: Command, j: Kind): int
    requires SoundOffers(b) && Possible(b, c)
  {
    if Selling(b, c) then
      var enough := Suffices(b, c.player, c.kind, c.amount, c.found, c.fails);
      (if enough && j == c.kind then c.amount else 0) - Removed(b, c.player, c.kind, c.amount, c.found, c.fails, j)
    else if Supplying(b, c) then
      var k := b.offers[c.id].kind;
      var enough := Suffices(b, c.player, k, c.amount, c.found, c.fails);
      (if enough && j == Arrives(k) then c.amount else 0) - Removed(b, c.player, k, c.amount, c.found, c.fails, j)
    else if Buying(b, c) then Untiered(b.offers[c.id].kind, c.amount, j)
    else if Returning(b, c) then Untiered(b.offers[c.id].kind, b.offers[c.id].amount, j)
    else 0
  }

  /** Goods of an offer given away: store coins lose their tier. */
  function Untiered(k: Kind, n: nat, j: Kind): int
  {
    (if j == Arrives(k) then n else 0) - (if j == k then n else 0)
  }

  ghost predicate Keeps(b: Books, c: Books, drift: int, j: Kind)
  {
    Sound(c) && Money(c) == Money(b) && c.purses.Keys == b.purses.Keys && Goods(c, j) == Goods(b, j) + drift
  }

  lemma {:induction false} SellKeeps(b: Books, c: Command, j: Kind)
    requires Sound(b) && SoundOffers(b) && Possible(b, c) && Selling(b, c)
    ensures Keeps(b, CreateSell(b, c), Drift(b, c, j), j)
  {
    hide Sound, SoundOffers, Money, Goods, Found, Suffices, Removed, TakeGoods, Pay, Fee;
    var fee := Fee(c.price, c.amount);
    Taken(b, c.player, c.kind, c.amount, c.found, c.fails, j);
    var t := TakeGoods(b, c.player, c.kind, c.amount, c.found, c.fails);
    if t.1 {
      var charged := Charged(t.0, c.player, fee, fee, c.dropped);
      ChargedOff(t.0, c.player, fee, fee, c.dropped, j);
      OfferAdded(charged, c.id, Offer(c.player, true, c.kind, c.amount, c.price), j);
    }
  }

  lemma {:induction false} CreateBuyKeeps(b: Books, c: Command, j: Kind)
    requires Sound(b) && c.Create? && !c.sells && Possible(b, c) && CanCreate(c.kind, c.amount, c.price)
    ensures Keeps(b, CreateBuy(b, c), 0, j)
  {
    hide Sound, Money, Goods, Pay, Fee;
    var fee := Fee(c.price, c.amount);
    var total := Price(c.price, c.amount) + fee;
    var p := b.purses[c.player];
    if total <= p.cash + p.bank {
      var charged := Charged(b, c.player, total, fee, c.dropped);
      ChargedOff(b, c.player, total, fee, c.dropped, j);
      OfferAdded(charged, c.id, Offer(c.player, false, c.kind, c.amount, c.price), j);
    }
  }

  lemma {:induction false} OfferIsProper(b: Books, id: nat)
    requires SoundOffers(b) && id in b.offers
    ensures Proper(b.offers[id]) && b.offers[id].owner in b.purses
  {
  }

  lemma {:induction false} CancelKeeps(b: Books, i: nat, id: nat, j: Kind)
    requires Sound(b) && SoundOffers(b) && i in b.purses
    ensures Keeps(b, DoCancel(b, i, id), Drift(b, Cancel(i, id, true), j), j)
  {
    hide Sound, SoundOffers, Money, Goods, GiveGoods;
    if id in b.offers && b.offers[id].owner == i {
      OfferIsProper(b, id);
      var o := b.offers[id];
      if o.sells {
        Given(b, i, o.kind, o.amount, j);
        OfferDropped(GiveGoods(b, i, o.kind, o.amount), id, j);
      } else {
        BankSet(b, i, b.purses[i].bank + Price(o.price, o.amount), j);
        OfferDropped(WithBank(b, i, b.purses[i].bank + Price(o.price, o.amount)), id, j);
      }
    }
  }

  lemma {:induction false} FillBuyKeeps(b: Books, c: Command, j: Kind)
    requires Sound(b) && SoundOffers(b) && Possible(b, c) && Supplying(b, c)
    ensures Keeps(b, FillBuy(b, c), Drift(b, c, j), j)
  {
    hide Sound, SoundOffers, Money, Goods, GiveGoods, TakeGoods, Found, Suffices, Removed, Reduced;
    OfferIsProper(b, c.id);
    var o := b.offers[c.id];
    Taken(b, c.player, o.kind, c.amount, c.found, c.fails, j);
    var t := TakeGoods(b, c.player, o.kind, c.amount, c.found, c.fails);
    if t.1 {
      var bank := t.0.purses[c.player].bank + Price(o.price, c.amount);
      BankSet(t.0, c.player, bank, j);
      var sold := WithBank(t.0, c.player, bank);
      Given(sold, o.owner, o.kind, c.amount, j);
      OfferReduced(GiveGoods(sold, o.owner, o.kind, c.amount), c.id, c.amount, j);
    }
  }

  lemma {:induction false} FromBank(b: Books, i: nat, total: nat, dropped: nat, j: Kind)
    requires Sound(b) && i in b.purses && total <= b.purses[i].bank + b.purses[i].cash
    ensures var c := PaidFromBank(b, i, total, dropped);
      Sound(c) && Money(c) == Money(b) - total && Goods(c, j) == Goods(b, j)
  {
    hide Sound, Money, Goods, Charged;
    var bank := b.purses[i].bank;
    if total <= bank {
      BankSet(b, i, bank - total, j);
    } else {
      BankSet(b, i, 0, j);
      ChargedOff(WithBank(b, i, 0), i, total - bank, 0, dropped, j);
    }
  }

  lemma {:induction false} FillSellKeeps(b: Books, c: Command, j: Kind)
    requires Sound(b) && SoundOffers(b) && Possible(b, c) && Buying(b, c)
    ensures Keeps(b, FillSell(b, c), Drift(b, c, j), j)
  {
    hide Sound, SoundOffers, Money, Goods, GiveGoods, Reduced, PaidFromBank, WithBank;
    OfferIsProper(b, c.id);
    var o := b.offers[c.id];
    var total := Price(o.price, c.amount);
    FromBank(b, c.player, total, c.dropped, j);
    var paid := PaidFromBank(b, c.player, total, c.dropped);
    Given(paid, c.player, o.kind, c.amount, j);
    var given := GiveGoods(paid, c.player, o.kind, c.amount);
    var bank := given.purses[o.owner].bank + total;
    BankSet(given, o.owner, bank, j);
    OfferReduced(WithBank(given, o.owner, bank), c.id, c.amount, j);
  }

  /** A command that neither gets as far as taking goods nor gives any leaves the books, or is a buy offer or the end
      of one. */
  lemma {:induction false} OtherwiseNothing(b: Books, c: Command)
    requires SoundOffers(b) && Possible(b, c)
    requires !Selling(b, c) && !Supplying(b, c) && !Buying(b, c)
    ensures Do(b, c) == b || (c.Create? && !c.sells && CanCreate(c.kind, c.amount, c.price)) || c.Cancel?
  {
    hide SoundOffers, TakeGoods, GiveGoods, Fee, Found;
  }

  /** One command: the money stays, and the goods of every kind change as the books before say. */
  lemma {:induction false} DoKeeps(b: Books, c: Command, j: Kind)
    requires Sound(b) && SoundOffers(b) && Possible(b, c)
    ensures Keeps(b, Do(b, c), Drift(b, c, j), j)
  {
    DoSteps(b, c, j);
    hide CreateSell, CreateBuy, DoCancel, FillSell, FillBuy, Sound, SoundOffers, Money, Goods, Found;
    if Selling(b, c) {
      SellKeeps(b, c, j);
    } else if Supplying(b, c) {
      FillBuyKeeps(b, c, j);
    } else if Buying(b, c) {
      FillSellKeeps(b, c, j);
    } else if c.Cancel? && c.allowed {
      CancelKeeps(b, c.player, c.id, j);
    } else {
      OtherwiseNothing(b, c);
      if Do(b, c) != b {
        CreateBuyKeeps(b, c, j);
      }
    }
  }

  lemma {:induction false} DoSteps(b: Books, c: Command, j: Kind)
    requires SoundOffers(b) && Possible(b, c)
    ensures Selling(b, c) ==> Do(b, c) == CreateSell(b, c)
    ensures Supplying(b, c) ==>
      b.offers[c.id].owner in b.purses && Splits(b.offers[c.id].kind) && Do(b, c) == FillBuy(b, c)
    ensures Buying(b, c) ==>
      b.offers[c.id].owner in b.purses && Splits(b.offers[c.id].kind) && Do(b, c) == FillSell(b, c)
    ensures c.Cancel? && c.allowed ==>
      Do(b, c) == DoCancel(b, c.player, c.id) && Drift(b, c, j) == Drift(b, Cancel(c.player, c.id, true), j)
    ensures c.Cancel? && !c.allowed ==> Do(b, c) == b && Drift(b, c, j) == 0
    ensures c.Create? && !c.sells && Do(b, c) != b ==> Do(b, c) == CreateBuy(b, c) && Drift(b, c, j) == 0
  {
    hide TakeGoods, GiveGoods, Fee, Found, CreateSell, CreateBuy, DoCancel, FillSell, FillBuy;
    if c.Accept? && c.id in b.offers {
      OfferIsProper(b, c.id);
    }
    hide SoundOffers;
  }

  // ----- every run -----

  ghost predicate PossibleRun(b: Books, cs: seq<Command>)
    decreases |cs|
  {
    SoundOffers(b) && (cs != [] ==> Possible(b, cs[0]) && PossibleRun(Do(b, cs[0]), cs[1..]))
  }

  ghost function DoAll(b: Books, cs: seq<Command>): Books
    requires PossibleRun(b, cs)
    decreases |cs|
  {
    if cs == [] then b else DoAll(Do(b, cs[0]), cs[1..])
  }

  ghost function DriftRun(b: Books, cs: seq<Command>, j: Kind): int
    requires PossibleRun(b, cs)
    decreases |cs|
  {
    if cs == [] then 0 else Drift(b, cs[0], j) + DriftRun(Do(b, cs[0]), cs[1..], j)
  }

  /** Over every run money is conserved, and the goods of every kind change by exactly the drifts of the commands. */
  lemma {:induction false} RunsKeep(b: Books, cs: seq<Command>, j: Kind)
    requires Sound(b) && PossibleRun(b, cs)
    ensures Sound(DoAll(b, cs)) && Money(DoAll(b, cs)) == Money(b)
    ensures Goods(DoAll(b, cs), j) == Goods(b, j) + DriftRun(b, cs, j)
    decreases |cs|
  {
    hide Do, Sound, Money, Goods, Drift, Possible;
    if cs != [] {
      DoKeeps(b, cs[0], j);
      RunsKeep(Do(b, cs[0]), cs[1..], j);
    }
  }

  // ----- no sum overflows -----

  /** A purse and an offer paid in advance together never exceed all the money there is. */
  lemma {:induction false} MoneyBounds(b: Books, i: nat)
    requires i in b.purses
    ensures Wealth(b.purses[i]) <= Money(b)
    ensures forall id :: id in b.offers ==> Wealth(b.purses[i]) + Escrow(b.offers[id]) <= Money(b)
  {
    SumAtLeast(Wealths(b), i);
    forall id | id in b.offers ensures Wealth(b.purses[i]) + Escrow(b.offers[id]) <= Money(b) {
      SumAtLeast(Escrows(b), id);
    }
  }

  lemma {:induction false} TwoPurses(b: Books, i: nat, j: nat)
    requires i in b.purses && j in b.purses && i != j
    ensures Wealth(b.purses[i]) + Wealth(b.purses[j]) <= Money(b)
  {
    SumAtLeastTwo(Wealths(b), i, j);
  }

  /** The price of a whole offer and its fee fit 64 bits with room to spare. */
  lemma {:induction false} PriceFits(price: nat, amount: nat)
    requires price <= MAX_PRICE && amount <= MAX_STACKABLE
    ensures Price(price, amount) + Fee(price, amount) < 0x1_0000_0000_0000_0000 && 20 <= Fee(price, amount) <= 100000
  {
    assert price * amount <= MAX_PRICE * amount;
  }

  /** Taking the goods leaves the money for the fee. */
  lemma {:induction false} TakenKeepsMoney(b: Books, c: Command)
    requires Sound(b) && c.Create? && c.sells && Possible(b, c) && c.amount < WORD16
    ensures SameMoney(b.purses[c.player], TakeGoods(b, c.player, c.kind, c.amount, c.found, c.fails).0.purses[c.player])
  {
    hide Sound, Money, Goods, TakeGoods, Found;
    Taken(b, c.player, c.kind, c.amount, c.found, c.fails, c.kind);
  }
}
