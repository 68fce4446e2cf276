/** The trade operations on player objects, proved against the rules on tables. */
module Trade {
  import opened Options
  import opened TradeRules

  class Player {
    const id: PlayerId
    var tradeState: TradeState
    var tradePartner: Player?
    var tradeItem: Option<Item>

    constructor (id: PlayerId)
      ensures this.id == id && SeatOf(this) == EMPTY
    {
      this.id := id;
      tradeState, tradePartner, tradeItem := TradeNone, null, None;
    }
  }

  function SeatOf(p: Player): Seat
    reads p
  {
    Seat(p.tradeState, if p.tradePartner == null then None else Some(p.tradePartner.id), p.tradeItem)
  }

  class Game {
    const players: map<PlayerId, Player>
    const isHoldingItem: Containment
    const isContainer: Item -> bool
    var tradeItems: map<Item, PlayerId>

    /** Players are registered under their ids, and so are their trade partners; only containers hold items. */
    ghost predicate Known()
      reads this, players.Values
    {
      (forall k :: k in players ==> players[k].id == k) &&
      (forall k :: k in players && players[k].tradePartner != null ==> Registered(players[k].tradePartner)) &&
      forall a, b :: Holds(isHoldingItem, a, b) ==> isContainer(a)
    }

    ghost predicate Registered(p: Player)
    {
      p.id in players && players[p.id] == p
    }

    ghost function Now(): Table
      reads this, players.Values
    {
      Table(map k | k in players :: SeatOf(players[k]), tradeItems)
    }

    lemma {:induction false} NowIs(t: Table)
      requires t.seats.Keys == players.Keys && t.items == tradeItems
      requires forall k :: k in players ==> SeatOf(players[k]) == t.seats[k]
      ensures Now() == t
    {
    }

    constructor (players: map<PlayerId, Player>, isHoldingItem: Containment, isContainer: Item -> bool)
      requires forall k :: k in players ==> players[k].id == k && SeatOf(players[k]) == EMPTY
      requires forall a, b :: Holds(isHoldingItem, a, b) ==> isContainer(a)
      ensures this.players == players && this.isHoldingItem == isHoldingItem && Known() && Valid(Now(), isHoldingItem)
    {
      this.players, this.isHoldingItem, this.isContainer := players, isHoldingItem, isContainer;
      tradeItems := map[];
      new;
      NowIs(Table(map k | k in players.Keys :: EMPTY, map[]));
      NobodyTrades(players.Keys, isHoldingItem);
    }

    /** The search through the traded items; a plain item can only be inside one of them. */
    method OverlapsTrade(item: Item) returns (found: bool)
      requires Known()
      ensures found == OverlapsOffer(Now(), item, isHoldingItem)
    {
      var rest := tradeItems.Keys;
      while rest != {}
        invariant rest <= tradeItems.Keys
        invariant forall i :: i in tradeItems && i !in rest ==> !Overlap(isHoldingItem, item, i)
      {
        var i :| i in rest;
        if item == i || (isContainer(item) && Holds(isHoldingItem, item, i)) ||
            (isContainer(i) && Holds(isHoldingItem, i, item)) {
          assert Overlap(isHoldingItem, item, i);
          return true;
        }
        rest := rest - {i};
      }
      return false;
    }

    /** `passes` stands for the checks on reach, sight, the item itself and the event hooks. */
    method PlayerRequestTrade(playerId: PlayerId, tradePlayerId: PlayerId, item: Item, passes: bool)
      requires Known()
      modifies this`tradeItems, players.Values
      ensures Known() && Now() == Do(old(Now()), Request(playerId, tradePlayerId, item, passes), isHoldingItem)
    {
      if playerId !in players || tradePlayerId !in players || playerId == tradePlayerId || !passes {
        return;
      }
      var found := OverlapsTrade(item);
      if found {
        return;
      }
      var _ := InternalStartTrade(players[playerId], players[tradePlayerId], item);
    }

    method InternalStartTrade(player: Player, tradePartner: Player, item: Item) returns (started: bool)
      requires Known() && Registered(player) && Registered(tradePartner) && player != tradePartner
      modifies this`tradeItems, player, tradePartner
      ensures Known() && started == CanStart(old(Now()), player.id, tradePartner.id)
      ensures Now() == if started then Start(old(Now()), player.id, tradePartner.id, item) else old(Now())
    {
      assert Now().seats[player.id] == SeatOf(player) && Now().seats[tradePartner.id] == SeatOf(tradePartner);
      if player.tradeState != TradeNone &&
          !(player.tradeState == TradeAcknowledge && player.tradePartner == tradePartner) {
        return false;
      } else if tradePartner.tradeState != TradeNone && tradePartner.tradePartner != player {
        return false;
      }
      Offer(player, tradePartner, item);
      return true;
    }

    method Offer(player: Player, tradePartner: Player, item: Item)
      requires Known() && Registered(player) && Registered(tradePartner) && player != tradePartner
      modifies this`tradeItems, player, tradePartner
      ensures Known() && Now() == Start(old(Now()), player.id, tradePartner.id, item)
    {
      ghost var t := Now();
      assert forall k :: k in players ==> t.seats[k] == SeatOf(players[k]);
      player.tradePartner := tradePartner;
      player.tradeItem := Some(item);
      player.tradeState := TradeInitiated;
      tradeItems := tradeItems[item := player.id];
      if tradePartner.tradeState == TradeNone {
        tradePartner.tradeState := TradeAcknowledge;
        tradePartner.tradePartner := player;
      }
      NowIs(Start(t, player.id, tradePartner.id, item));
    }

    method Withdraw(item: Option<Item>)
      modifies this`tradeItems
      ensures tradeItems == Without(old(tradeItems), item)
    {
      if item != None && item.value in tradeItems {
        tradeItems := tradeItems - {item.value};
      }
      assert tradeItems == Without(old(tradeItems), item);
    }

    /** One side of a trade is over: the offer is taken back and the trade fields are reset. */
    method Leave(p: Player)
      modifies this`tradeItems, p
      ensures SeatOf(p) == EMPTY && p.tradePartner == null && tradeItems == Without(old(tradeItems), old(p.tradeItem))
    {
      Withdraw(p.tradeItem);
      p.tradeItem := None;
      p.tradeState := TradeNone;
      p.tradePartner := null;
    }

    /** Ends the trade of a player and of his partner; during their own transfer it does nothing at all. */
    method InternalCloseTrade(player: Player)
      requires Known() && Registered(player)
      modifies this`tradeItems, players.Values
      ensures Known() && Now() == Close(old(Now()), player.id)
    {
      ghost var t := Now();
      var tradePartner := player.tradePartner;
      if (tradePartner != null && tradePartner.tradeState == TradeTransfer) || player.tradeState == TradeTransfer {
        return;
      }
      assert forall k :: k in players ==> t.seats[k] == SeatOf(players[k]);
      Leave(player);
      if tradePartner != null {
        Leave(tradePartner);
      }
      NowIs(Close(t, player.id));
    }

    /** Accepts; once both have accepted, the items are exchanged or the trade is closed. */
    method PlayerAcceptTrade(playerId: PlayerId, reachable: bool, allowed: bool, transfer: Transfer,
        nested: seq<PlayerId>)
        returns (exchanged: bool, handed: (Option<Item>, Option<Item>))
      requires Known() && Valid(Now(), isHoldingItem) && KnowsAll(Now(), nested)
      modifies this`tradeItems, players.Values
      ensures Known() && Now() == Do(old(Now()), Accepting(playerId, reachable, allowed, nested), isHoldingItem)
      ensures exchanged <==> Exchanges(old(Now()), playerId, reachable, allowed, transfer)
      ensures exchanged ==> var t := old(Now()); handed == Handed(t, playerId, t.seats[playerId].partner.value)
    {
      exchanged, handed := false, (None, None);
      if playerId !in players {
        return;
      }
      var player := players[playerId];
      if !(player.tradeState == TradeAcknowledge || player.tradeState == TradeInitiated) {
        return;
      }
      var tradePartner := player.tradePartner;
      if tradePartner == null || !reachable {
        return;
      }
      ghost var t := Now();
      assert Acts(t, playerId, reachable) && t.seats[playerId].partner == Some(tradePartner.id);
      assert Settled(t, playerId, {});
      SetTradeAccept(player);
      assert tradePartner.tradeState == Now().seats[tradePartner.id].state;
      hide Now, Valid, Known, Settled, Close, CloseAll, Begin, Finish;
      if tradePartner.tradeState == TradeAccept {
        if !allowed {
          InternalCloseTrade(player);
        } else {
          exchanged, handed := Exchange(player, tradePartner, transfer, nested);
        }
      }
    }

    /** The transfer itself. `nested` are the closings that the item movements call for; only the first movement
        decides whether the trade counts as done. */
    method Exchange(player: Player, tradePartner: Player, transfer: Transfer, nested: seq<PlayerId>)
        returns (exchanged: bool, handed: (Option<Item>, Option<Item>))
      requires Known() && Registered(player) && Registered(tradePartner) && player != tradePartner
      requires forall k :: 0 <= k < |nested| ==> nested[k] in players
      modifies this`tradeItems, players.Values
      ensures Known() && forall k :: 0 <= k < |nested| ==>
        nested[k] in Begin(old(Now()), player.id, tradePartner.id).seats
      ensures Now() ==
        Finish(CloseAll(Begin(old(Now()), player.id, tradePartner.id), nested), player.id, tradePartner.id)
      ensures handed == old((player.tradeItem, tradePartner.tradeItem))
      ensures exchanged <==>
        handed.0 != None && handed.1 != None &&
        transfer.fits1 && transfer.fits2 && transfer.removable1 && transfer.removable2 && transfer.moved1
    {
      ghost var t := Now();
      var tradeItem1, tradeItem2 := player.tradeItem, tradePartner.tradeItem;
      StartTransfer(player, tradePartner);
      exchanged, handed := false, (tradeItem1, tradeItem2);
      if tradeItem1 != None && tradeItem2 != None && transfer.fits1 && transfer.fits2 {
        if transfer.removable1 && transfer.removable2 && transfer.moved1 {
          exchanged := true;
        }
      }
      assert Begin(t, player.id, tradePartner.id).seats.Keys == players.Keys;
      CloseNested(nested);
      hide Begin, CloseAll;
      EndTransfer(player, tradePartner);
    }

    method SetTradeAccept(player: Player)
      requires Known() && Registered(player)
      modifies player
      ensures Known() && player.tradePartner == old(player.tradePartner)
      ensures var t := old(Now()); Now() == t.(seats := t.seats[player.id := t.seats[player.id].(state := TradeAccept)])
    {
      ghost var t := Now();
      player.tradeState := TradeAccept;
      NowIs(t.(seats := t.seats[player.id := t.seats[player.id].(state := TradeAccept)]));
    }

    method MarkTransfer(p: Player)
      modifies this`tradeItems, p`tradeState
      ensures SeatOf(p) == old(SeatOf(p)).(state := TradeTransfer) &&
        tradeItems == Without(old(tradeItems), p.tradeItem)
    {
      p.tradeState := TradeTransfer;
      Withdraw(p.tradeItem);
    }

    /** Both sides are marked and their offers leave the traded items. */
    method StartTransfer(player: Player, tradePartner: Player)
      requires Known() && Registered(player) && Registered(tradePartner)
      modifies this`tradeItems, player, tradePartner
      ensures Known() && Now() == Begin(old(Now()), player.id, tradePartner.id)
    {
      ghost var t := Now();
      assert forall k :: k in players ==> t.seats[k] == SeatOf(players[k]);
      MarkTransfer(player);
      MarkTransfer(tradePartner);
      NowIs(Begin(t, player.id, tradePartner.id));
    }

    method EndTransfer(player: Player, tradePartner: Player)
      requires Known() && Registered(player) && Registered(tradePartner)
      modifies player, tradePartner
      ensures Known() && Now() == Finish(old(Now()), player.id, tradePartner.id)
    {
      ghost var t := Now();
      player.tradeState, player.tradeItem, player.tradePartner := TradeNone, None, null;
      tradePartner.tradeState, tradePartner.tradeItem, tradePartner.tradePartner := TradeNone, None, null;
      NowIs(Finish(t, player.id, tradePartner.id));
    }

    method CloseNested(nested: seq<PlayerId>)
      requires Known() && forall k :: 0 <= k < |nested| ==> nested[k] in players
      modifies this`tradeItems, players.Values
      ensures Known() && (forall k :: 0 <= k < |nested| ==> nested[k] in old(Now()).seats) &&
        Now() == CloseAll(old(Now()), nested)
    {
      if nested != [] {
        InternalCloseTrade(players[nested[0]]);
        CloseNested(nested[1..]);
      }
    }
  }
}
