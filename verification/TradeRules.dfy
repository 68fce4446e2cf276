/** Two-party trades (src/game/game.cpp: playerRequestTrade, internalStartTrade,
    playerAcceptTrade, internalCloseTrade).

    The trade fields of all players and the map of traded items are a table; each
    operation of the game is a function on tables, `Valid` is what all of them keep,
    and `Game` works on player objects and is proved against the functions. While an
    accepted trade is carried out, `Inv(T)` holds for everybody but the two players
    in T, and item movements may call for trades to be closed meanwhile.
  */
module TradeRules {
  import opened Options

  type Item = nat
  type PlayerId = nat

  datatype TradeState = TradeNone | TradeInitiated | TradeAccept | TradeAcknowledge | TradeTransfer

  datatype Seat = Seat(state: TradeState, partner: Option<PlayerId>, item: Option<Item>)

  /** The trade fields of every player, and who offers which item. */
  datatype Table = Table(seats: map<PlayerId, Seat>, items: map<Item, PlayerId>)

  const EMPTY: Seat := Seat(TradeNone, None, None)

  /** isHoldingItem, at any depth: fixed while trades are open. */
  type Containment = (Item, Item) -> bool

  predicate Holds(inside: Containment, container: Item, item: Item)
  {
    inside(container, item)
  }

  predicate Overlap(inside: Containment, a: Item, b: Item)
  {
    a == b || Holds(inside, a, b) || Holds(inside, b, a)
  }

  // ----- what every operation keeps -----

  /** A player who is not in the middle of a transfer. */
  ghost predicate Settled(t: Table, a: PlayerId, busy: set<PlayerId>)
    requires a in t.seats
  {
    var s := t.seats[a];
    s.state != TradeTransfer &&
    (s.state == TradeNone <==> s.partner == None) &&
    (s.state == TradeNone || s.state == TradeAcknowledge ==> s.item == None) &&
    (s.state == TradeInitiated ==> s.item != None) &&
    (s.item != None ==> s.item.value in t.items && t.items[s.item.value] == a) &&
    (s.partner != None ==> Paired(t, a, s.partner.value) && s.partner.value !in busy)
  }

  /** Partner links are mutual, and one of the two offers something. */
  ghost predicate Paired(t: Table, a: PlayerId, b: PlayerId)
    requires a in t.seats
  {
    a != b && b in t.seats && t.seats[b].partner == Some(a) && (t.seats[a].item != None || t.seats[b].item != None)
  }

  ghost predicate Offered(t: Table, i: Item, busy: set<PlayerId>)
    requires i in t.items
  {
    t.items[i] in t.seats && t.items[i] !in busy && t.seats[t.items[i]].item == Some(i)
  }

  ghost predicate Busy(t: Table, a: PlayerId, busy: set<PlayerId>)
  {
    a in t.seats && t.seats[a].state == TradeTransfer && t.seats[a].partner != None && t.seats[a].partner.value in busy
  }

  ghost predicate SeatsHold(t: Table, busy: set<PlayerId>)
  {
    forall a :: a in t.seats && a !in busy ==> Settled(t, a, busy)
  }

  ghost predicate BusyHold(t: Table, busy: set<PlayerId>)
  {
    forall a :: a in busy ==> Busy(t, a, busy)
  }

  ghost predicate OffersHold(t: Table, busy: set<PlayerId>)
  {
    forall i :: i in t.items ==> Offered(t, i, busy)
  }

  /** No traded item is inside another one. */
  ghost predicate Antichain(items: map<Item, PlayerId>, inside: Containment)
  {
    forall i, j :: i in items && j in items && i != j ==> !Holds(inside, i, j)
  }

  ghost predicate Inv(t: Table, busy: set<PlayerId>, inside: Containment)
  {
    SeatsHold(t, busy) && BusyHold(t, busy) && OffersHold(t, busy) && Antichain(t.items, inside)
  }

  /** Partners have not both accepted: an acceptance that completes the pair is carried out at once. */
  ghost predicate Undecided(t: Table, a: PlayerId)
    requires a in t.seats
  {
    var s := t.seats[a];
    s.partner != None && s.partner.value in t.seats ==>
      !(s.state == TradeAccept && t.seats[s.partner.value].state == TradeAccept)
  }

  ghost predicate Valid(t: Table, inside: Containment)
  {
    Inv(t, {}, inside) && forall a :: a in t.seats ==> Undecided(t, a)
  }

  // ----- the operations -----

  predicate CanStart(t: Table, a: PlayerId, b: PlayerId)
    requires a in t.seats && b in t.seats
  {
    (t.seats[a].state == TradeNone || (t.seats[a].state == TradeAcknowledge && t.seats[a].partner == Some(b))) &&
    (t.seats[b].state == TradeNone || t.seats[b].partner == Some(a))
  }

  function Start(t: Table, a: PlayerId, b: PlayerId, i: Item): Table
    requires a in t.seats && b in t.seats
  {
    var seats := t.seats[a := Seat(TradeInitiated, Some(b), Some(i))];
    Table(if seats[b].state == TradeNone then seats[b := seats[b].(state := TradeAcknowledge, partner := Some(a))]
          else seats,
          t.items[i := a])
  }

  function Without(items: map<Item, PlayerId>, offer: Option<Item>): (r: map<Item, PlayerId>)
    ensures forall i :: i in r <==> i in items && offer != Some(i)
    ensures forall i :: i in r ==> r[i] == items[i]
  {
    map i | i in items && offer != Some(i) :: items[i]
  }

  function Close(t: Table, a: PlayerId): Table
    requires a in t.seats
  {
    var s := t.seats[a];
    if s.partner != None && s.partner.value in t.seats then
      var b := s.partner.value;
      if t.seats[b].state == TradeTransfer || s.state == TradeTransfer then t
      else Table(t.seats[a := EMPTY][b := EMPTY], Without(Without(t.items, s.item), t.seats[b].item))
    else if s.state == TradeTransfer then t
    else Table(t.seats[a := EMPTY], Without(t.items, s.item))
  }

  /** Both sides start the transfer: their offers leave the map of traded items. */
  function Begin(t: Table, a: PlayerId, b: PlayerId): Table
    requires a in t.seats && b in t.seats
  {
    Table(t.seats[a := t.seats[a].(state := TradeTransfer)][b := t.seats[b].(state := TradeTransfer)],
          Without(Without(t.items, t.seats[a].item), t.seats[b].item))
  }

  function Finish(t: Table, a: PlayerId, b: PlayerId): Table
  {
    t.(seats := t.seats[a := EMPTY][b := EMPTY])
  }

  /** Trades closed one after the other. */
  function CloseAll(t: Table, who: seq<PlayerId>): (r: Table)
    requires forall k :: 0 <= k < |who| ==> who[k] in t.seats
    ensures r.seats.Keys == t.seats.Keys
    decreases who
  {
    if who == [] then t
    else
      assert Close(t, who[0]).seats.Keys == t.seats.Keys;
      CloseAll(Close(t, who[0]), who[1..])
  }

  /** The acceptance of a; `nested` are the closings that the item movements call for. */
  function Accept(t: Table, a: PlayerId, reachable: bool, allowed: bool, nested: seq<PlayerId>): (r: Table)
    requires a in t.seats && forall k :: 0 <= k < |nested| ==> nested[k] in t.seats
  {
    var s := t.seats[a];
    if !Acts(t, a, reachable) then t
    else
      var b := s.partner.value;
      var accepted := t.(seats := t.seats[a := s.(state := TradeAccept)]);
      if accepted.seats[b].state != TradeAccept then accepted
      else if !allowed then Close(accepted, a)
      else Finish(CloseAll(Begin(accepted, a, b), nested), a, b)
  }

  /** The items that change hands when a accepts as the second of the two: what b gets and what a gets. */
  function Handed(t: Table, a: PlayerId, b: PlayerId): (Option<Item>, Option<Item>)
    requires a in t.seats && b in t.seats
  {
    (t.seats[a].item, t.seats[b].item)
  }

  /** What the code outside the trade fields answers during a transfer: whether the items fit and can be removed,
      and whether the first movement succeeded. */
  datatype Transfer = Transfer(fits1: bool, fits2: bool, removable1: bool, removable2: bool, moved1: bool)

  /** Player a answers the trade, and the partner he trades with has accepted already. */
  predicate Agrees(t: Table, a: PlayerId, reachable: bool)
  {
    a in t.seats && reachable && (t.seats[a].state == TradeInitiated || t.seats[a].state == TradeAcknowledge) &&
    t.seats[a].partner != None && t.seats[a].partner.value in t.seats &&
    t.seats[t.seats[a].partner.value].state == TradeAccept
  }

  /** The acceptance of a ends in an exchange: both agree and offer something, no event stops it, and the items can go
      over. */
  predicate Exchanges(t: Table, a: PlayerId, reachable: bool, allowed: bool, transfer: Transfer)
  {
    Agrees(t, a, reachable) && allowed && t.seats[a].item != None && t.seats[t.seats[a].partner.value].item != None &&
    transfer.fits1 && transfer.fits2 && transfer.removable1 && transfer.removable2 && transfer.moved1
  }

  /** Seats were emptied, nothing else happened to them. */
  ghost predicate Emptied(t: Table, r: Table)
  {
    r.seats.Keys == t.seats.Keys && forall c :: c in t.seats ==> r.seats[c] == t.seats[c] || r.seats[c] == EMPTY
  }

  // ----- every operation keeps the invariant -----

  lemma {:induction false} StartKeeps(t: Table, a: PlayerId, b: PlayerId, i: Item, inside: Containment)
    requires Valid(t, inside) && a in t.seats && b in t.seats && a != b && CanStart(t, a, b)
    requires forall j :: j in t.items ==> !Overlap(inside, i, j)
    ensures Valid(Start(t, a, b, i), inside)
  {
    var r := Start(t, a, b, i);
    assert Settled(t, a, {}) && Settled(t, b, {});
    forall c | c in r.seats
      ensures Settled(r, c, {}) && Undecided(r, c)
    {
      assert Settled(t, c, {}) && Undecided(t, c);
      var p := r.seats[c].partner;
      assert p != None && p.value in t.seats ==> Settled(t, p.value, {});
    }
    forall j | j in r.items
      ensures Offered(r, j, {})
    {
      assert j != i ==> Offered(t, j, {});
    }
    forall j, k | j in r.items && k in r.items && j != k
      ensures !Holds(inside, j, k)
    {
      assert j in t.items ==> !Overlap(inside, i, j);
      assert k in t.items ==> !Overlap(inside, i, k);
    }
  }

  /** A close during a transfer of the player himself changes nothing. */
  lemma {:induction false} CloseDuringTransfer(t: Table, a: PlayerId, busy: set<PlayerId>, inside: Containment)
    requires Inv(t, busy, inside) && a in busy
    ensures a in t.seats && Close(t, a) == t
  {
    assert Busy(t, a, busy);
  }

  /** The table with both seats of a pair emptied and their offers taken back. */
  function Parted(t: Table, a: PlayerId, b: PlayerId): Table
    requires a in t.seats && b in t.seats
  {
    Table(t.seats[a := EMPTY][b := EMPTY], Without(Without(t.items, t.seats[a].item), t.seats[b].item))
  }

  /** Outside a transfer, closing parts the pair; with no partner there is nothing to close. */
  lemma {:induction false} CloseParts(t: Table, a: PlayerId, busy: set<PlayerId>, inside: Containment)
    requires Inv(t, busy, inside) && a in t.seats && a !in busy
    ensures t.seats[a].partner == None ==> t.seats[a] == EMPTY && Close(t, a) == t
    ensures t.seats[a].partner != None ==>
      t.seats[a].partner.value in t.seats && t.seats[a].partner.value !in busy &&
        Close(t, a) == Parted(t, a, t.seats[a].partner.value)
  {
    assert Settled(t, a, busy);
    if t.seats[a].partner != None {
      assert Settled(t, t.seats[a].partner.value, busy);
    } else {
      assert t.seats[a := EMPTY] == t.seats;
      assert Without(t.items, None) == t.items;
    }
  }

  lemma {:induction false} CloseKeeps(t: Table, a: PlayerId, busy: set<PlayerId>, inside: Containment)
    requires Inv(t, busy, inside) && a in t.seats
    ensures Inv(Close(t, a), busy, inside) && Emptied(t, Close(t, a))
  {
    if a in busy {
      CloseDuringTransfer(t, a, busy, inside);
    } else {
      CloseParts(t, a, busy, inside);
      if t.seats[a].partner != None {
        PartedKeeps(t, a, t.seats[a].partner.value, busy, inside);
      }
    }
    assert Emptied(t, t);
    hide Close, Parted, Inv, Emptied;
  }

  lemma {:induction false} PartedKeeps(t: Table, a: PlayerId, b: PlayerId, busy: set<PlayerId>, inside: Containment)
    requires Inv(t, busy, inside) && a in t.seats && b in t.seats && a !in busy && b !in busy &&
      t.seats[a].partner == Some(b)
    ensures Inv(Parted(t, a, b), busy, inside) && Emptied(t, Parted(t, a, b))
  {
    PartedSeats(t, a, b, busy);
    PartedBusy(t, a, b, busy);
    PartedOffers(t, a, b, busy);
    PartedRest(t, a, b, inside);
    hide Parted, SeatsHold, BusyHold, OffersHold, Antichain, Emptied;
  }

  lemma {:induction false} PartedRest(t: Table, a: PlayerId, b: PlayerId, inside: Containment)
    requires Antichain(t.items, inside) && a in t.seats && b in t.seats
    ensures Antichain(Parted(t, a, b).items, inside) && Emptied(t, Parted(t, a, b))
  {
  }

  lemma {:induction false} PartedBusy(t: Table, a: PlayerId, b: PlayerId, busy: set<PlayerId>)
    requires BusyHold(t, busy) && a in t.seats && b in t.seats && a !in busy && b !in busy
    ensures BusyHold(Parted(t, a, b), busy)
  {
    forall c | c in busy
      ensures Busy(Parted(t, a, b), c, busy)
    {
      assert Busy(t, c, busy);
    }
  }

  lemma {:induction false} PartedOffers(t: Table, a: PlayerId, b: PlayerId, busy: set<PlayerId>)
    requires OffersHold(t, busy) && a in t.seats && b in t.seats
    ensures OffersHold(Parted(t, a, b), busy)
  {
    forall j | j in Parted(t, a, b).items
      ensures Offered(Parted(t, a, b), j, busy)
    {
      assert Offered(t, j, busy);
    }
  }

  lemma {:induction false} PartedSeats(t: Table, a: PlayerId, b: PlayerId, busy: set<PlayerId>)
    requires SeatsHold(t, busy) && a in t.seats && b in t.seats && a !in busy && b !in busy &&
      t.seats[a].partner == Some(b)
    ensures SeatsHold(Parted(t, a, b), busy)
  {
    forall c | c in t.seats && c !in busy
      ensures Settled(Parted(t, a, b), c, busy)
    {
      PartedSeat(t, a, b, c, busy);
    }
    hide Settled;
  }

  lemma {:induction false} PartedSeat(t: Table, a: PlayerId, b: PlayerId, c: PlayerId, busy: set<PlayerId>)
    requires SeatsHold(t, busy) && a in t.seats && b in t.seats && a !in busy && b !in busy &&
      t.seats[a].partner == Some(b)
    requires c in t.seats && c !in busy
    ensures Settled(Parted(t, a, b), c, busy)
  {
    assert Settled(t, a, busy) && Settled(t, b, busy) && Settled(t, c, busy);
    if t.seats[c].partner != None {
      assert Settled(t, t.seats[c].partner.value, busy);
    }
  }

  lemma {:induction false} CloseAllKeeps(t: Table, who: seq<PlayerId>, busy: set<PlayerId>, inside: Containment)
    requires Inv(t, busy, inside) && forall k :: 0 <= k < |who| ==> who[k] in t.seats
    ensures Inv(CloseAll(t, who), busy, inside)
    ensures Emptied(t, CloseAll(t, who))
    decreases who
  {
    if who != [] {
      CloseKeeps(t, who[0], busy, inside);
      CloseAllKeeps(Close(t, who[0]), who[1..], busy, inside);
    }
  }

  lemma {:induction false} CloseEmpties(t: Table, a: PlayerId, busy: set<PlayerId>, inside: Containment)
    requires Inv(t, busy, inside) && a in t.seats && a !in busy
    ensures a in Close(t, a).seats && Close(t, a).seats[a] == EMPTY
  {
    CloseParts(t, a, busy, inside);
    hide Inv, Close;
  }

  lemma {:induction false} KnowsRest(t: Table, r: Table, who: seq<PlayerId>)
    requires KnowsAll(t, who) && who != [] && Emptied(t, r)
    ensures who[0] in t.seats && KnowsAll(r, who[1..])
  {
    assert forall i :: 0 <= i < |who| - 1 ==> who[1..][i] == who[i + 1];
  }

  /** Everybody named is without a trade afterwards, unless he is in the middle of a transfer himself. */
  lemma {:induction false} CloseAllCloses(t: Table, who: seq<PlayerId>, k: nat, busy: set<PlayerId>,
      inside: Containment)
    requires Inv(t, busy, inside) && KnowsAll(t, who) && k < |who| && who[k] !in busy
    ensures who[k] in CloseAll(t, who).seats && CloseAll(t, who).seats[who[k]] == EMPTY
    decreases who
  {
    hide Inv, Close;
    CloseKeeps(t, who[0], busy, inside);
    var next := Close(t, who[0]);
    KnowsRest(t, next, who);
    if k > 0 {
      CloseAllCloses(next, who[1..], k - 1, busy, inside);
    } else {
      CloseEmpties(t, who[0], busy, inside);
      CloseAllKeeps(next, who[1..], busy, inside);
    }
  }

  lemma {:induction false} BegunSeat(t: Table, a: PlayerId, b: PlayerId, c: PlayerId)
    requires SeatsHold(t, {}) && a in t.seats && b in t.seats && t.seats[a].partner == Some(b)
    requires c in t.seats && c != a && c != b
    ensures Settled(Begin(t, a, b), c, {a, b})
  {
    assert Settled(t, a, {}) && Settled(t, b, {}) && Settled(t, c, {});
    var p := t.seats[c].partner;
    assert p != None ==> Settled(t, p.value, {});
  }

  lemma {:induction false} BeginKeeps(t: Table, a: PlayerId, b: PlayerId, inside: Containment)
    requires Inv(t, {}, inside) && a in t.seats && t.seats[a].partner == Some(b)
    ensures b in t.seats && Inv(Begin(t, a, b), {a, b}, inside)
  {
    assert Settled(t, a, {}) && Settled(t, b, {});
    var r := Begin(t, a, b);
    forall c | c in r.seats && c !in {a, b}
      ensures Settled(r, c, {a, b})
    {
      BegunSeat(t, a, b, c);
    }
    forall j | j in r.items
      ensures Offered(r, j, {a, b})
    {
      assert Offered(t, j, {});
    }
  }

  lemma {:induction false} FinishKeeps(t: Table, a: PlayerId, b: PlayerId, inside: Containment)
    requires Inv(t, {a, b}, inside)
    ensures Inv(Finish(t, a, b), {}, inside)
  {
    assert Busy(t, a, {a, b}) && Busy(t, b, {a, b});
    var r := Finish(t, a, b);
    forall c | c in r.seats
      ensures Settled(r, c, {})
    {
      if c != a && c != b {
        assert Settled(t, c, {a, b});
      }
    }
    forall j | j in r.items
      ensures Offered(r, j, {})
    {
      assert Offered(t, j, {a, b});
    }
  }

  /** The player on the other side of an acceptance that the code acts on. */
  predicate Acts(t: Table, a: PlayerId, reachable: bool)
    requires a in t.seats
  {
    (t.seats[a].state == TradeAcknowledge || t.seats[a].state == TradeInitiated) && t.seats[a].partner != None &&
    t.seats[a].partner.value in t.seats && reachable
  }

  /** An acceptance keeps the invariant; when it completes the pair both players end up without a trade, whatever the
      transfer does. */
  lemma {:induction false} AcceptKeeps(t: Table, a: PlayerId, reachable: bool, allowed: bool, nested: seq<PlayerId>,
      inside: Containment)
    requires Valid(t, inside) && a in t.seats && forall k :: 0 <= k < |nested| ==> nested[k] in t.seats
    ensures Valid(Accept(t, a, reachable, allowed, nested), inside)
    ensures Acts(t, a, reachable) && t.seats[t.seats[a].partner.value].state == TradeAccept ==>
      var r := Accept(t, a, reachable, allowed, nested);
      r.seats[a] == EMPTY && r.seats[t.seats[a].partner.value] == EMPTY &&
      forall c :: c in t.seats && c != a ==> r.seats[c] == t.seats[c] || r.seats[c] == EMPTY
  {
    if Acts(t, a, reachable) {
      var b := t.seats[a].partner.value;
      assert Settled(t, a, {}) && Settled(t, b, {}) && Undecided(t, a);
      var accepted := t.(seats := t.seats[a := t.seats[a].(state := TradeAccept)]);
      AcceptedKeeps(t, a, inside);
      if accepted.seats[b].state != TradeAccept {
        assert Accept(t, a, reachable, allowed, nested) == accepted;
        AcceptedUndecided(t, a, inside);
      } else {
        DecidedKeeps(accepted, a, b, allowed, nested, inside);
        var r := Accept(t, a, reachable, allowed, nested);
        assert Emptied(accepted, r);
        EmptiedUndecided(t, r, a);
        assert forall c :: c in t.seats && c != a ==> accepted.seats[c] == t.seats[c];
      }
      hide Accept, Inv, Undecided;
    }
  }

  lemma {:induction false} AcceptedUndecided(t: Table, a: PlayerId, inside: Containment)
    requires Valid(t, inside) && a in t.seats && Acts(t, a, true) &&
      t.seats[t.seats[a].partner.value].state != TradeAccept
    ensures var r := t.(seats := t.seats[a := t.seats[a].(state := TradeAccept)]);
      forall c :: c in r.seats ==> Undecided(r, c)
  {
    var r := t.(seats := t.seats[a := t.seats[a].(state := TradeAccept)]);
    forall c | c in r.seats
      ensures Undecided(r, c)
    {
      assert Undecided(t, c) && Settled(t, c, {});
    }
  }

  lemma {:induction false} EmptiedUndecided(t: Table, r: Table, a: PlayerId)
    requires forall c :: c in t.seats ==> Undecided(t, c)
    requires a in t.seats && Emptied(t.(seats := t.seats[a := t.seats[a].(state := TradeAccept)]), r) &&
      r.seats[a] == EMPTY
    ensures forall c :: c in r.seats ==> Undecided(r, c)
  {
    forall c | c in r.seats
      ensures Undecided(r, c)
    {
      assert Undecided(t, c) && (c != a ==> r.seats[c] == t.seats[c] || r.seats[c] == EMPTY);
    }
  }

  /** Both have accepted: cancelled or carried out, the two seats are empty and the others are as before or empty. */
  lemma {:induction false} DecidedKeeps(t: Table, a: PlayerId, b: PlayerId, allowed: bool, nested: seq<PlayerId>,
      inside: Containment)
    requires Inv(t, {}, inside) && a in t.seats && t.seats[a].partner == Some(b) && b in t.seats
    requires forall k :: 0 <= k < |nested| ==> nested[k] in t.seats
    ensures var r := if !allowed then Close(t, a) else Finish(CloseAll(Begin(t, a, b), nested), a, b);
      Inv(r, {}, inside) && Emptied(t, r) && r.seats[a] == EMPTY && r.seats[b] == EMPTY
  {
    if !allowed {
      CloseKeeps(t, a, {}, inside);
      CloseParts(t, a, {}, inside);
    } else {
      BeginKeeps(t, a, b, inside);
      var begun := Begin(t, a, b);
      var closed := CloseAll(begun, nested);
      CloseAllKeeps(begun, nested, {a, b}, inside);
      FinishKeeps(closed, a, b, inside);
      FinishEmpties(t, begun, closed, a, b);
      hide *;
    }
  }

  lemma {:induction false} FinishEmpties(t: Table, begun: Table, closed: Table, a: PlayerId, b: PlayerId)
    requires a in t.seats && b in t.seats && begun == Begin(t, a, b) && Emptied(begun, closed)
    ensures Emptied(t, Finish(closed, a, b)) && Finish(closed, a, b).seats[a] == EMPTY &&
      Finish(closed, a, b).seats[b] == EMPTY
  {
  }

  lemma {:induction false} AcceptedKeeps(t: Table, a: PlayerId, inside: Containment)
    requires Inv(t, {}, inside) && a in t.seats && t.seats[a].partner != None
    ensures Inv(t.(seats := t.seats[a := t.seats[a].(state := TradeAccept)]), {}, inside)
  {
    var r := t.(seats := t.seats[a := t.seats[a].(state := TradeAccept)]);
    forall c | c in r.seats
      ensures Settled(r, c, {})
    {
      assert Settled(t, c, {});
    }
    forall j | j in r.items
      ensures Offered(r, j, {})
    {
      assert Offered(t, j, {});
    }
  }

  // ----- whole runs -----

  /** `passes` and `allowed` stand for reach, sight, the item's own properties and the event hooks. */
  datatype Command =
    | Request(a: PlayerId, b: PlayerId, item: Item, passes: bool)
    | Accepting(a: PlayerId, reachable: bool, allowed: bool, nested: seq<PlayerId>)
    | Closing(a: PlayerId)

  ghost predicate OverlapsOffer(t: Table, i: Item, inside: Containment)
  {
    exists j :: j in t.items && Overlap(inside, i, j)
  }

  ghost predicate CanRequest(t: Table, c: Command, inside: Containment)
    requires c.Request?
  {
    c.a in t.seats && c.b in t.seats && c.a != c.b && c.passes && !OverlapsOffer(t, c.item, inside) &&
      CanStart(t, c.a, c.b)
  }

  ghost predicate KnowsAll(t: Table, who: seq<PlayerId>)
  {
    forall k :: 0 <= k < |who| ==> who[k] in t.seats
  }

  ghost function Do(t: Table, c: Command, inside: Containment): Table
  {
    match c
    case Request(a, b, i, _) => if CanRequest(t, c, inside) then Start(t, a, b, i) else t
    case Accepting(a, reachable, allowed, nested) => if a in t.seats && KnowsAll(t, nested) then
      Accept(t, a, reachable, allowed, nested) else t
    case Closing(a) => if a in t.seats then Close(t, a) else t
  }

  ghost function DoAll(t: Table, cs: seq<Command>, inside: Containment): Table
    decreases cs
  {
    if cs == [] then t else DoAll(Do(t, cs[0], inside), cs[1..], inside)
  }

  lemma {:induction false} DoKeeps(t: Table, c: Command, inside: Containment)
    requires Valid(t, inside)
    ensures Valid(Do(t, c, inside), inside)
  {
    match c
    case Request(a, b, i, _) =>
      if CanRequest(t, c, inside) {
        StartKeeps(t, a, b, i, inside);
      }
    case Accepting(a, reachable, allowed, nested) =>
      if a in t.seats && KnowsAll(t, nested) {
        AcceptKeeps(t, a, reachable, allowed, nested, inside);
      }
    case Closing(a) =>
      if a in t.seats {
        CloseKeeps(t, a, {}, inside);
        assert Valid(Close(t, a), inside) by {
          hide Close, Inv;
          forall d | d in t.seats
            ensures Undecided(Close(t, a), d)
          {
            assert Undecided(t, d);
          }
        }
      }
  }

  /** Any number of players, any sequence of requests, acceptances and closings: the invariant holds, no item is
      offered twice, and no offer is inside another. */
  lemma {:induction false} RunsKeep(t: Table, cs: seq<Command>, inside: Containment)
    requires Valid(t, inside)
    ensures Valid(DoAll(t, cs, inside), inside)
    ensures OffersDisjoint(DoAll(t, cs, inside), inside)
    decreases cs
  {
    if cs == [] {
      ValidOffers(t, inside);
    } else {
      DoKeeps(t, cs[0], inside);
      RunsKeep(Do(t, cs[0], inside), cs[1..], inside);
    }
  }

  /** Different players offer items that are neither the same nor one inside the other. */
  ghost predicate OffersDisjoint(t: Table, inside: Containment)
  {
    forall a, b :: a in t.seats && b in t.seats && a != b && t.seats[a].item != None && t.seats[b].item != None ==>
      !Overlap(inside, t.seats[a].item.value, t.seats[b].item.value)
  }

  lemma {:induction false} ValidOffers(t: Table, inside: Containment)
    requires Valid(t, inside)
    ensures OffersDisjoint(t, inside)
  {
    forall a, b | a in t.seats && b in t.seats && a != b && t.seats[a].item != None && t.seats[b].item != None
      ensures !Overlap(inside, t.seats[a].item.value, t.seats[b].item.value)
    {
      assert Settled(t, a, {}) && Settled(t, b, {});
    }
  }

  lemma {:induction false} NobodyTrades(ids: set<PlayerId>, inside: Containment)
    ensures Valid(Table(map a | a in ids :: EMPTY, map[]), inside)
  {
  }
}
