/** What a player gets for what he accepted (src/game/game.cpp: internalStartTrade, playerAcceptTrade).

    An acceptance is not taken back when the partner offers an item afterwards. The exchange hands
    over what is on offer when the second of the two accepts.
  */
module TradeOffers {
  import opened Options
  import opened TradeRules

  /** The acceptance of b stands throughout the commands. */
  ghost predicate Stands(t: Table, cs: seq<Command>, b: PlayerId, inside: Containment)
    decreases cs
  {
    b in t.seats && t.seats[b].state == TradeAccept && (cs != [] ==> Stands(Do(t, cs[0], inside), cs[1..], b, inside))
  }

  /** Player a puts an item on offer. */
  ghost predicate Offers(t: Table, c: Command, a: PlayerId, inside: Containment)
  {
    c.Request? && c.a == a && CanRequest(t, c, inside)
  }

  /** He does so in the course of the commands. */
  ghost predicate AddsOffer(t: Table, cs: seq<Command>, a: PlayerId, inside: Containment)
    decreases cs
  {
    cs != [] && (Offers(t, cs[0], a, inside) || AddsOffer(Do(t, cs[0], inside), cs[1..], a, inside))
  }

  /** b has accepted what a offers. */
  ghost predicate Accepted(t: Table, a: PlayerId, b: PlayerId)
  {
    a in t.seats && b in t.seats && t.seats[b].state == TradeAccept && t.seats[b].partner == Some(a)
  }

  /** The seats of a pair, one of whom has accepted. */
  lemma {:induction false} PairOf(t: Table, a: PlayerId, b: PlayerId, inside: Containment)
    requires Valid(t, inside) && Accepted(t, a, b)
    ensures a != b && t.seats[a].partner == Some(b)
    ensures t.seats[a].state == TradeInitiated || t.seats[a].state == TradeAcknowledge
    ensures t.seats[a].state == TradeInitiated <==> t.seats[a].item != None
  {
    assert Settled(t, a, {}) && Settled(t, b, {}) && Undecided(t, b);
  }

  lemma {:induction false} RequestLeaves(t: Table, c: Command, a: PlayerId, b: PlayerId, inside: Containment)
    requires Valid(t, inside) && Accepted(t, a, b) && c.Request?
    ensures var r := Do(t, c, inside);
      Accepted(r, a, b) && r.seats[b] == t.seats[b] &&
      if Offers(t, c, a, inside) then t.seats[a].item == None && r.seats[a].item == Some(c.item)
      else r.seats[a] == t.seats[a]
  {
    PairOf(t, a, b, inside);
    hide Valid;
  }

  /** Unless the command ends the acceptance, both seats stay, but for an offer that a adds. */
  lemma {:induction false} AcceptedStep(t: Table, c: Command, a: PlayerId, b: PlayerId, inside: Containment)
    requires Valid(t, inside) && Accepted(t, a, b)
    requires var r := Do(t, c, inside); b in r.seats && r.seats[b].state == TradeAccept
    ensures var r := Do(t, c, inside);
      Valid(r, inside) && Accepted(r, a, b) && r.seats[b] == t.seats[b] &&
      if Offers(t, c, a, inside) then t.seats[a].item == None && r.seats[a].item == Some(c.item)
      else r.seats[a] == t.seats[a]
  {
    DoKeeps(t, c, inside);
    if c.Request? {
      RequestLeaves(t, c, a, b, inside);
    } else {
      PairOf(t, a, b, inside);
      OthersLeave(t, c, a, b, inside);
      PairOf(Do(t, c, inside), a, b, inside);
    }
  }

  lemma {:induction false} AcceptShape(t: Table, x: PlayerId, reachable: bool, allowed: bool, nested: seq<PlayerId>)
    requires x in t.seats && KnowsAll(t, nested)
    ensures var r := Accept(t, x, reachable, allowed, nested);
      && r.seats.Keys >= t.seats.Keys && (!Acts(t, x, reachable) ==> r == t)
      && (Acts(t, x, reachable) && t.seats[x].partner != Some(x) &&
          t.seats[t.seats[x].partner.value].state != TradeAccept ==>
            r == t.(seats := t.seats[x := t.seats[x].(state := TradeAccept)]))
  {
    if Acts(t, x, reachable) {
      var accepted := t.(seats := t.seats[x := t.seats[x].(state := TradeAccept)]);
      BeginKeys(accepted, x, t.seats[x].partner.value);
    }
    hide Begin;
  }

  lemma {:induction false} BeginKeys(t: Table, a: PlayerId, b: PlayerId)
    requires a in t.seats && b in t.seats
    ensures Begin(t, a, b).seats.Keys == t.seats.Keys
  {
  }

  lemma {:induction false} NotAlone(t: Table, x: PlayerId, inside: Containment)
    requires Valid(t, inside) && x in t.seats
    ensures t.seats[x].partner != Some(x)
  {
    assert Settled(t, x, {});
  }

  /** An acceptance changes the seat of the player himself, and may empty others. */
  lemma {:induction false} AcceptTouches(t: Table, x: PlayerId, reachable: bool, allowed: bool, nested: seq<PlayerId>,
      inside: Containment)
    requires Valid(t, inside) && x in t.seats && KnowsAll(t, nested)
    ensures var r := Accept(t, x, reachable, allowed, nested);
      && r.seats.Keys >= t.seats.Keys && (!Acts(t, x, reachable) ==> r == t)
      && (forall c :: c in t.seats && c != x ==> r.seats[c] == t.seats[c] || r.seats[c] == EMPTY)
      && (Acts(t, x, reachable) && t.seats[t.seats[x].partner.value].state == TradeAccept ==>
            r.seats[t.seats[x].partner.value] == EMPTY)
  {
    hide Valid, Accept;
    NotAlone(t, x, inside);
    AcceptShape(t, x, reachable, allowed, nested);
    AcceptKeeps(t, x, reachable, allowed, nested, inside);
  }

  lemma {:induction false} OthersLeave(t: Table, c: Command, a: PlayerId, b: PlayerId, inside: Containment)
    requires Valid(t, inside) && Accepted(t, a, b) && !c.Request?
    requires var r := Do(t, c, inside); b in r.seats && r.seats[b].state == TradeAccept
    ensures var r := Do(t, c, inside);
      a in r.seats && r.seats[b] == t.seats[b] && (r.seats[a] == t.seats[a] || r.seats[a] == EMPTY)
  {
    PairOf(t, a, b, inside);
    hide Valid, Accept, Close;
    match c
    case Accepting(x, reachable, allowed, nested) =>
      if x in t.seats && KnowsAll(t, nested) {
        AcceptTouches(t, x, reachable, allowed, nested, inside);
      }
    case Closing(x) =>
      if x in t.seats {
        ValidInv(t, inside);
        CloseKeeps(t, x, {}, inside);
      }
  }

  lemma {:induction false} ValidInv(t: Table, inside: Containment)
    requires Valid(t, inside)
    ensures Inv(t, {}, inside)
  {
  }

  lemma {:induction false} AcceptedStays(t: Table, cs: seq<Command>, a: PlayerId, b: PlayerId, inside: Containment)
    requires Valid(t, inside) && Accepted(t, a, b) && Stands(t, cs, b, inside)
    ensures var r := DoAll(t, cs, inside);
      Valid(r, inside) && Accepted(r, a, b) && r.seats[b] == t.seats[b] &&
      (t.seats[a].item != None ==> r.seats[a].item == t.seats[a].item) &&
      (r.seats[a].item == t.seats[a].item <==> !AddsOffer(t, cs, a, inside))
    decreases cs
  {
    hide Valid, Do, Offers, Accepted;
    if cs != [] {
      AcceptedStep(t, cs[0], a, b, inside);
      AcceptedStays(Do(t, cs[0], inside), cs[1..], a, b, inside);
    }
  }

  /** b accepts first, anything happens that lets the acceptance stand, and a accepts: the exchange gives both exactly
      what was on offer when b accepted, if and only if a added no offer in between. */
  lemma {:induction false} ExchangeAsAcceptedIff(t: Table, b: PlayerId, allowed: bool, nested: seq<PlayerId>,
      cs: seq<Command>, inside: Containment)
    requires Valid(t, inside) && b in t.seats && Acts(t, b, true) && KnowsAll(t, nested)
    requires t.seats[t.seats[b].partner.value].state != TradeAccept
    requires Stands(Do(t, Accepting(b, true, allowed, nested), inside), cs, b, inside)
    ensures var a := t.seats[b].partner.value;
      var first := Do(t, Accepting(b, true, allowed, nested), inside);
      var last := DoAll(first, cs, inside);
      Accepted(last, a, b) && Acts(last, a, true) &&
      (Handed(last, a, b) == Handed(t, a, b) <==> !AddsOffer(first, cs, a, inside))
  {
    var a := t.seats[b].partner.value;
    var first := Do(t, Accepting(b, true, allowed, nested), inside);
    assert Settled(t, b, {});
    DoKeeps(t, Accepting(b, true, allowed, nested), inside);
    assert Accepted(first, a, b) && first.seats[b].item == t.seats[b].item && first.seats[a] == t.seats[a];
    hide Do, Valid;
    AcceptedStays(first, cs, a, b, inside);
    PairOf(DoAll(first, cs, inside), a, b, inside);
  }

  // ----- a whole trade -----

  /** Item i is neither traded nor inside a traded item, nor is one inside it. */
  ghost predicate Free(t: Table, i: Item, inside: Containment)
  {
    forall j :: j in t.items ==> !Overlap(inside, i, j)
  }

  /** Two players without a trade. */
  predicate Idle(t: Table, a: PlayerId, b: PlayerId)
  {
    a != b && a in t.seats && b in t.seats && t.seats[a] == EMPTY && t.seats[b] == EMPTY
  }

  /** a has offered i and b has offered j, in a table that is otherwise t. */
  predicate BothOffer(t: Table, r: Table, a: PlayerId, b: PlayerId, i: Item, j: Item, s: TradeState)
  {
    r.seats == t.seats[a := Seat(s, Some(b), Some(i))][b := Seat(TradeInitiated, Some(a), Some(j))] &&
    r.items == t.items[i := a][j := b]
  }

  lemma {:induction false} OffersMade(t: Table, a: PlayerId, b: PlayerId, i: Item, j: Item, inside: Containment)
    requires Idle(t, a, b) && Free(t, i, inside) && Free(t, j, inside) && !Overlap(inside, j, i)
    ensures var r := DoAll(t, [Request(a, b, i, true), Request(b, a, j, true)], inside);
      BothOffer(t, r, a, b, i, j, TradeInitiated)
  {
    var first, second := Request(a, b, i, true), Request(b, a, j, true);
    assert CanRequest(t, first, inside);
    var r := Do(t, first, inside);
    assert !OverlapsOffer(r, j, inside);
    assert CanRequest(r, second, inside);
    assert [first, second][1..] == [second] && [second][1..] == [];
    assert DoAll(Do(r, second, inside), [], inside) == Do(r, second, inside);
    assert DoAll(r, [second], inside) == Do(r, second, inside);
  }

  lemma {:induction false} FirstAccepts(t: Table, r: Table, a: PlayerId, b: PlayerId, i: Item, j: Item, allowed: bool,
      inside: Containment)
    requires Idle(t, a, b) && BothOffer(t, r, a, b, i, j, TradeInitiated)
    ensures BothOffer(t, Do(r, Accepting(a, true, allowed, []), inside), a, b, i, j, TradeAccept)
  {
    assert Acts(r, a, true);
    var s := Do(r, Accepting(a, true, allowed, []), inside);
    assert s.seats == t.seats[a := Seat(TradeAccept, Some(b), Some(i))][b := Seat(TradeInitiated, Some(a), Some(j))];
  }

  /** From any table: two players without a trade offer items that are free and accept; the items change hands, and
      nothing is left of the trade. */
  lemma {:induction false} TradeCompletes(t: Table, a: PlayerId, b: PlayerId, i: Item, j: Item, allowed: bool,
      transfer: Transfer, inside: Containment)
    requires Idle(t, a, b) && Free(t, i, inside) && Free(t, j, inside) && !Overlap(inside, j, i)
    ensures var offered := DoAll(t, [Request(a, b, i, true), Request(b, a, j, true)], inside);
      var accepted := Do(offered, Accepting(a, true, true, []), inside);
      && (Exchanges(accepted, b, true, allowed, transfer) <==>
            allowed && transfer == Transfer(true, true, true, true, true))
      && a in accepted.seats && b in accepted.seats && Handed(accepted, b, a) == (Some(j), Some(i))
      && Do(accepted, Accepting(b, true, allowed, []), inside) == t
  {
    OffersMade(t, a, b, i, j, inside);
    var offered := DoAll(t, [Request(a, b, i, true), Request(b, a, j, true)], inside);
    hide DoAll;
    FirstAccepts(t, offered, a, b, i, j, true, inside);
    var accepted := Do(offered, Accepting(a, true, true, []), inside);
    SecondAccepts(t, accepted, a, b, i, j, allowed, inside);
  }

  lemma {:induction false} SecondAccepts(t: Table, r: Table, a: PlayerId, b: PlayerId, i: Item, j: Item, allowed: bool,
      inside: Containment)
    requires Idle(t, a, b) && BothOffer(t, r, a, b, i, j, TradeAccept) && i !in t.items && j !in t.items
    ensures Do(r, Accepting(b, true, allowed, []), inside) == t
  {
    assert Acts(r, b, true);
    var s := Do(r, Accepting(b, true, allowed, []), inside);
    assert s.seats == t.seats;
    assert s.items == t.items;
  }

  const NOTHING_INSIDE: Containment := (i, j) => false

  /** Players 1 and 2, once 1 has asked for a trade offering the item 10. */
  function Asked(): Table
  {
    Table(map[1 := Seat(TradeInitiated, Some(2), Some(10)), 2 := Seat(TradeAcknowledge, Some(1), None)], map[10 := 1])
  }

  lemma {:induction false} AskedFrom()
    ensures var t := Table(map[1 := EMPTY, 2 := EMPTY], map[]);
      Valid(t, NOTHING_INSIDE) && Do(t, Request(1, 2, 10, true), NOTHING_INSIDE) == Asked()
  {
    var t := Table(map[1 := EMPTY, 2 := EMPTY], map[]);
    assert CanRequest(t, Request(1, 2, 10, true), NOTHING_INSIDE);
  }

  /** Player 1 accepts while 2 offers nothing; 2 then offers the item 20, and 1 gets it for his own. */
  lemma {:induction false} UnseenOffer()
    ensures var t := Asked();
      var first := Do(t, Accepting(1, true, true, []), NOTHING_INSIDE);
      var last := Do(first, Request(2, 1, 20, true), NOTHING_INSIDE);
      Valid(t, NOTHING_INSIDE) && Accepted(last, 2, 1) && Acts(last, 2, true) &&
      Handed(t, 2, 1) == (None, Some(10)) && Handed(last, 2, 1) == (Some(20), Some(10))
  {
    AskedFrom();
    DoKeeps(Table(map[1 := EMPTY, 2 := EMPTY], map[]), Request(1, 2, 10, true), NOTHING_INSIDE);
    var t := Asked();
    var first := Do(t, Accepting(1, true, true, []), NOTHING_INSIDE);
    assert first == t.(seats := t.seats[1 := Seat(TradeAccept, Some(2), Some(10))]);
    assert !OverlapsOffer(first, 20, NOTHING_INSIDE);
    assert CanRequest(first, Request(2, 1, 20, true), NOTHING_INSIDE);
  }
}
