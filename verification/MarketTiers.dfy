/** When market commands conserve goods, item by item and tier by tier (src/game/game.cpp:
    removeOfferItems, playerCreateMarketOffer, playerAcceptMarketOffer).

    The stash is asked by item alone and an account knows no tiers, so goods can change
    their tier; a removal that fails half way loses what it took. The conditions are
    exact, and can be checked before the command.
  */
module MarketTiers {
  import opened Cylinders
  import opened MarketGoods
  import opened MarketBooks
  import opened MarketRules

  /** What a command is about to take or give; those that move no goods have none. */
  ghost function KindOf(b: Books, c: Command): Kind
    requires SoundOffers(b) && Possible(b, c)
  {
    if c.Create? then c.kind else if c.id in b.offers then b.offers[c.id].kind else COIN
  }

  /** A failed removal took nothing. */
  ghost predicate Untouched(b: Books, i: nat, k: Kind, found: seq<nat>, fails: set<nat>)
    requires i in b.purses && Found(b.purses[i], k, found)
  {
    k.id == STORE_COIN || (Stashed(b.purses[i], Plain(k)) == 0 && Reached(b.purses[i], found, fails) == 0)
  }

  /** The condition: nothing untiered goes into a tiered offer, store coins bear no tier, and failed removals took
      nothing. */
  ghost predicate Even(b: Books, c: Command)
    requires SoundOffers(b) && Possible(b, c)
  {
    var k := KindOf(b, c);
    if Selling(b, c) then
      if Suffices(b, c.player, k, c.amount, c.found, c.fails)
      then k.tier == 0 || (k.id != STORE_COIN && Stashed(b.purses[c.player], Plain(k)) == 0)
      else Untouched(b, c.player, k, c.found, c.fails)
    else if Supplying(b, c) then
      if Suffices(b, c.player, k, c.amount, c.found, c.fails)
      then k.tier == 0 || k.id == STORE_COIN || Stashed(b.purses[c.player], Plain(k)) == 0
      else Untouched(b, c.player, k, c.found, c.fails)
    else if Buying(b, c) || Returning(b, c) then k.tier == 0 || k.id != STORE_COIN
    else true
  }

  lemma {:induction false} PlainDiffers(k: Kind)
    ensures k == Plain(k) <==> k.tier == 0
  {
  }

  /** What is taken, of the kind asked for and of its untiered form. */
  lemma {:induction false} RemovedOfKind(b: Books, i: nat, k: Kind, amount: nat, found: seq<nat>, fails: set<nat>,
      j: Kind)
    requires i in b.purses && Found(b.purses[i], k, found) && k.id != STORE_COIN
    ensures var p := b.purses[i]; var s := StashPart(p, k, amount); var r := Reached(p, found, fails);
      && (Suffices(b, i, k, amount, found, fails) <==> s + r >= amount)
      && Removed(b, i, k, amount, found, fails, j) ==
        (if j == Plain(k) then s else 0) + (if j == k then Min(amount - s, r) else 0)
  {
    hide StashPart, Reached;
  }

  lemma {:induction false} RemovedOfCoins(b: Books, i: nat, k: Kind, amount: nat, found: seq<nat>, fails: set<nat>,
      j: Kind)
    requires i in b.purses && Found(b.purses[i], k, found) && k.id == STORE_COIN
    ensures Removed(b, i, k, amount, found, fails, j) ==
      if j == COIN && Suffices(b, i, k, amount, found, fails) then amount else 0
  {
  }

  lemma {:induction false} SellDrift(b: Books, c: Command, j: Kind)
    requires SoundOffers(b) && Possible(b, c) && Selling(b, c)
    ensures var k := c.kind; var p := b.purses[c.player]; var s := StashPart(p, k, c.amount);
      var enough := Suffices(b, c.player, k, c.amount, c.found, c.fails);
      Drift(b, c, j) ==
        if k.id == STORE_COIN then
            (if enough then (if j == k then c.amount else 0) - (if j == COIN then c.amount else 0) else 0)
        else if enough then (if j == k then s else 0) - (if j == Plain(k) then s else 0)
        else 0 - (if j == Plain(k) then s else 0) - (if j == k then Reached(p, c.found, c.fails) else 0)
  {
    hide SoundOffers, StashPart, Suffices, Removed, Found, Reached;
    if c.kind.id == STORE_COIN {
      RemovedOfCoins(b, c.player, c.kind, c.amount, c.found, c.fails, j);
    } else {
      PartAtMost(b.purses[c.player], c.kind, c.amount);
      RemovedOfKind(b, c.player, c.kind, c.amount, c.found, c.fails, j);
    }
  }

  lemma {:induction false} SupplyDrift(b: Books, c: Command, j: Kind)
    requires SoundOffers(b) && Possible(b, c) && Supplying(b, c)
    ensures var k := b.offers[c.id].kind; var p := b.purses[c.player]; var s := StashPart(p, k, c.amount);
      var enough := Suffices(b, c.player, k, c.amount, c.found, c.fails);
      Drift(b, c, j) ==
        if k.id == STORE_COIN then 0
        else if enough then (if j == k then s else 0) - (if j == Plain(k) then s else 0)
        else 0 - (if j == Plain(k) then s else 0) - (if j == k then Reached(p, c.found, c.fails) else 0)
  {
    hide SoundOffers, StashPart, Suffices, Removed, Found, Reached;
    var k := b.offers[c.id].kind;
    if k.id == STORE_COIN {
      RemovedOfCoins(b, c.player, k, c.amount, c.found, c.fails, j);
    } else {
      PartAtMost(b.purses[c.player], k, c.amount);
      RemovedOfKind(b, c.player, k, c.amount, c.found, c.fails, j);
    }
  }

  lemma {:induction false} PartAtMost(p: Purse, k: Kind, amount: nat)
    ensures StashPart(p, k, amount) <= amount
    ensures amount > 0 ==> (StashPart(p, k, amount) == 0 <==> Stashed(p, Plain(k)) == 0)
  {
  }

  /** Only the kind of the command and its untiered form are concerned, and together they never gain: nothing is
      cloned. */
  lemma {:induction false} NothingCloned(b: Books, c: Command, j: Kind)
    requires SoundOffers(b) && Possible(b, c)
    ensures var k := KindOf(b, c);
      && (j != k && j != Plain(k) ==> Drift(b, c, j) == 0)
      && (if k == Plain(k) then Drift(b, c, k) <= 0 else Drift(b, c, k) + Drift(b, c, Plain(k)) <= 0)
  {
    var k := KindOf(b, c);
    TypedKind(b, c);
    Cases(b, c, j);
    Cases(b, c, k);
    Cases(b, c, Plain(k));
    hide SoundOffers, Possible, Drift, Suffices, Removed, Reached, StashPart, Selling, Supplying, Buying, Returning;
    PlainDiffers(k);
  }

  lemma {:induction false} TypedKind(b: Books, c: Command)
    requires SoundOffers(b) && Possible(b, c)
    ensures KindOf(b, c).id == STORE_COIN ==> Plain(KindOf(b, c)) == COIN
  {
  }

  /** A drift is a shift between the two kinds, or a loss of both. */
  lemma {:induction false} Cases(b: Books, c: Command, j: Kind)
    requires SoundOffers(b) && Possible(b, c)
    ensures var k := KindOf(b, c); var l := Shape(b, c);
      Drift(b, c, j) == (if j == k then l.tiered else 0) + (if j == Plain(k) then l.plain else 0)
  {
    TypedKind(b, c);
    if Selling(b, c) {
      SellDrift(b, c, j);
    } else if Supplying(b, c) {
      SupplyDrift(b, c, j);
    }
    hide SoundOffers, Suffices, Removed, Reached, StashPart;
  }

  /** What the kind of a command and its untiered form gain. */
  datatype Gain = Gain(tiered: int, plain: int)

  ghost function Shape(b: Books, c: Command): (r: Gain)
    requires SoundOffers(b) && Possible(b, c)
    ensures r.tiered + r.plain <= 0
  {
    var k := KindOf(b, c);
    var p := b.purses[c.player];
    if Selling(b, c) || Supplying(b, c) then
      var s := StashPart(p, k, c.amount);
      var enough := Suffices(b, c.player, k, c.amount, c.found, c.fails);
      if k.id == STORE_COIN then (if enough && Selling(b, c) then Gain(c.amount, 0 - c.amount) else Gain(0, 0))
      else if enough then Gain(s, 0 - s) else Gain(0 - Reached(p, c.found, c.fails), 0 - s)
    else if k.id != STORE_COIN then Gain(0, 0)
    else if Buying(b, c) then Gain(0 - c.amount, c.amount)
    else if Returning(b, c) then Gain(0 - b.offers[c.id].amount, b.offers[c.id].amount)
    else Gain(0, 0)
  }

  lemma {:induction false} ShapeEvenIff(b: Books, c: Command)
    requires SoundOffers(b) && Possible(b, c)
    ensures var k := KindOf(b, c); var l := Shape(b, c);
      Even(b, c) <==> if k == Plain(k) then l.tiered + l.plain == 0 else l.tiered == 0 && l.plain == 0
  {
    var k := KindOf(b, c);
    PlainDiffers(k);
    if Selling(b, c) || Supplying(b, c) {
      PartAtMost(b.purses[c.player], k, c.amount);
    }
    if c.id in b.offers && !c.Create? {
      OfferIsProper(b, c.id);
    }
    hide SoundOffers, Suffices, Reached, StashPart, Stashed, Found, Plain;
  }

  /** A command conserves the goods of every item and tier exactly under the stated condition. */
  lemma {:induction false} CommandConservesIff(b: Books, c: Command)
    requires Sound(b) && SoundOffers(b) && Possible(b, c)
    ensures (forall j :: Goods(Do(b, c), j) == Goods(b, j)) <==> Even(b, c)
  {
    hide Sound, SoundOffers, Possible, Goods, Do, Drift, Even, Shape, Plain, KindOf;
    var k := KindOf(b, c);
    ShapeEvenIff(b, c);
    DoKeeps(b, c, k);
    DoKeeps(b, c, Plain(k));
    Cases(b, c, k);
    Cases(b, c, Plain(k));
    if Even(b, c) {
      forall j ensures Goods(Do(b, c), j) == Goods(b, j) {
        DoKeeps(b, c, j);
        Cases(b, c, j);
      }
    }
  }

  ghost predicate EvenRun(b: Books, cs: seq<Command>)
    requires PossibleRun(b, cs)
    decreases |cs|
  {
    cs != [] ==> Even(b, cs[0]) && EvenRun(Do(b, cs[0]), cs[1..])
  }

  /** A run of such commands conserves money and the goods of every item and tier. */
  lemma {:induction false} EvenRunsConserve(b: Books, cs: seq<Command>, j: Kind)
    requires Sound(b) && PossibleRun(b, cs) && EvenRun(b, cs)
    ensures Money(DoAll(b, cs)) == Money(b) && Goods(DoAll(b, cs), j) == Goods(b, j)
    decreases |cs|
  {
    hide Do, Sound, Money, Goods, Drift, Even, Possible;
    if cs != [] {
      DoKeeps(b, cs[0], j);
      CommandConservesIff(b, cs[0]);
      EvenRunsConserve(Do(b, cs[0]), cs[1..], j);
    }
  }

  // ----- inputs that mix tiers -----

  const TIERED: Kind := Kind(7, 1, true, 100)

  function StashOfOne(): Purse
  {
    Purse(1, 20, 0, 0, map[Plain(TIERED) := 1], map[], 0)
  }

  /** A player with one untiered item in the stash, and an offer of another to buy one of the first tier. */
  function TwoPlayers(): Books
  {
    Books(map[1 := StashOfOne(), 2 := Purse(2, 0, 0, 0, map[], map[], 0)], map[1 := 0, 2 := 0],
          map[5 := Offer(2, false, TIERED, 1, 1)], 0)
  }

  lemma {:induction false} TwoPlayersSound()
    ensures Sound(TwoPlayers()) && SoundOffers(TwoPlayers())
    ensures Found(StashOfOne(), TIERED, []) && Enough(StashOfOne(), TIERED, 1, [], {})
    ensures Stashed(StashOfOne(), Plain(TIERED)) == 1 && Fee(1, 1) == 20
  {
  }

  /** One untiered item pays for an offer of the first tier: totals of two tiers change. */
  lemma {:induction false} TieredSaleConverts()
    ensures var b, c := TwoPlayers(), Create(1, true, TIERED, 1, 1, true, true, [], {}, 0, 6);
      Possible(b, c) && SoundOffers(b) && exists j :: Goods(Do(b, c), j) != Goods(b, j)
  {
    var b, c := TwoPlayers(), Create(1, true, TIERED, 1, 1, true, true, [], {}, 0, 6);
    TwoPlayersSound();
    assert Possible(b, c) && Selling(b, c) && !Even(b, c);
    hide Sound, SoundOffers, Goods, Do, Even, Possible;
    CommandConservesIff(b, c);
  }

  /** One untiered item fills an offer to buy the first tier. */
  lemma {:induction false} TieredSupplyConverts()
    ensures var b, c := TwoPlayers(), Accept(1, 5, 1, true, true, [], {}, 0);
      Possible(b, c) && SoundOffers(b) && exists j :: Goods(Do(b, c), j) != Goods(b, j)
  {
    var b, c := TwoPlayers(), Accept(1, 5, 1, true, true, [], {}, 0);
    TwoPlayersSound();
    assert Possible(b, c) && Supplying(b, c) && !Even(b, c);
    hide Sound, SoundOffers, Goods, Do, Even, Possible;
    CommandConservesIff(b, c);
  }
}
