/** Moving items and parts of stacks (src/game/game.cpp: internalMoveItem).

    The queries of the cylinders are unseen code: their answers are parameters, and any
    answers are allowed. `from` is the cylinder after the browse-field lookup and `to`
    the one queryDestination settled on.
  */
module MoveItem {
  import opened Cylinders
  import opened Options

  datatype Answers = Answers(
    movesUp: bool,
    canRemoveOne: Reply,
    canAdd: Reply,
    canAddBack: Reply,
    exchangeMax: Reply,
    exchangeCount: nat,
    canRemoveOther: Reply,
    canAddAfter: Reply,
    max: Reply,
    maxCount: nat,
    canRemove: Reply,
    intoTradeItem: bool,
    equal: bool)

  /** The count asked for: "move up" sends 255 for a whole stack. */
  function Wanted(i: Item, count: nat, a: Answers): nat
  {
    if i.kind.stackable && count == 255 && a.movesUp then i.count else count
  }

  /** Items other than the named ones stay where they are. */
  ghost predicate OthersStay(before: Items, after: Items, named: set<nat>)
  {
    forall x :: x !in named ==> (x in before <==> x in after) && (x in before ==> before[x] == after[x])
  }

  function Named(id: nat, newId: nat, toItem: Option<nat>): set<nat>
  {
    {id, newId} + (if toItem.Some? then {toItem.value} else {})
  }

  /** The stack falls on an equal one. */
  predicate Merges(there: Items, i: Item, toItem: Option<nat>, equal: bool)
  {
    toItem.Some? && toItem.value in there && equal && there[toItem.value].kind == i.kind
  }

  /** How much of m is lost on the stack it falls on. */
  function Spilled(there: Items, i: Item, m: nat, toItem: Option<nat>, equal: bool): nat
  {
    if Merges(there, i, toItem, equal) then Spill(there[toItem.value], m) else 0
  }

  /** The stack it falls on takes what it has room for; the rest is a new stack. */
  ghost predicate Stacked(before: Items, after: Items, i: Item, m: nat, toItem: Option<nat>, equal: bool, newId: nat)
  {
    var merges := Merges(before, i, toItem, equal);
    var n := if merges then Min(Room(before[toItem.value]), m) else 0;
    && (merges ==>
          var on := before[toItem.value];
          toItem.value in after && on.count + n >= Spill(on, m) &&
            after[toItem.value] == on.(count := on.count + n - Spill(on, m)))
    && (if m > n then newId in after && after[newId] == i.(count := m - n) else newId !in after)
  }

  /** What is left of the item where it was. */
  ghost predicate Left(after: Items, id: nat, i: Item, m: nat)
  {
    if m < i.count then id in after && after[id] == i.(count := i.count - m) else id !in after
  }

  /** The item at the destination goes to the source, whole. */
  method Exchange(from: Cylinder, to: Cylinder, other: nat)
    requires other in to.items && Apart(from, to) && BytesBoth(from, to)
    modifies from, to
    ensures other in from.items && from.items[other] == old(to.items)[other] && (from != to ==> other !in to.items)
    ensures Apart(from, to) && BytesBoth(from, to)
    ensures old(NoneOverfullBoth(from, to)) ==> NoneOverfullBoth(from, to)
    ensures OthersStay(old(from.items), from.items, {other}) && OthersStay(old(to.items), to.items, {other})
    ensures forall k :: Held(from, to, k) == old(Held(from, to, k))
    ensures from != to ==> forall k :: Count(to.items, k) == old(Count(to.items, k)) - Of(old(to.items)[other], k)
  {
    var i := to.items[other];
    to.RemoveThing(other, i.count);
    from.AddThing(other, i);
  }

  method PutStack(to: Cylinder, item: Item, m: nat, toItem: Option<nat>, equal: bool, newId: nat)
    requires Bytes(to.items) && item.kind.stackable && m <= item.count && ByteItem(item)
    requires toItem.Some? ==> toItem.value in to.items && toItem.value != newId
    requires newId !in to.items
    modifies to
    ensures Bytes(to.items) && Stacked(old(to.items), to.items, item, m, toItem, equal, newId)
    ensures old(NoneOverfull(to.items)) && !Overfull(item) ==> NoneOverfull(to.items)
    ensures var lost := Spilled(old(to.items), item, m, toItem, equal);
      forall k :: Count(to.items, k) == old(Count(to.items, k)) + Of(item.(count := m), k) - Of(item.(count := lost), k)
    ensures OthersStay(old(to.items), to.items, {newId} + (if toItem.Some? then {toItem.value} else {}))
  {
    var n := 0;
    if toItem.Some? && equal && to.items[toItem.value].kind == item.kind {
      n := to.Fill(toItem.value, m);
    }
    if m - n > 0 {
      to.AddThing(newId, item.(count := m - n));
    }
  }

  /** m of the stack leave the source; they fill the stack they fall on, and what does not fit is a new stack.
      Only an overfull stack loses anything. */
  method TransferStack(from: Cylinder, to: Cylinder, id: nat, m: nat, toItem: Option<nat>, equal: bool, newId: nat)
    requires id in from.items && Apart(from, to) && BytesBoth(from, to)
    requires from.items[id].kind.stackable && 1 <= m <= from.items[id].count
    requires toItem.Some? ==> toItem.value in to.items && toItem.value != id
    requires newId !in from.items && newId !in to.items
    modifies from, to
    ensures Apart(from, to) && BytesBoth(from, to)
    ensures old(NoneOverfullBoth(from, to)) ==> NoneOverfullBoth(from, to)
    ensures var i := old(from.items)[id]; var lost := Spilled(old(to.items), i, m, toItem, equal);
      (forall k :: Held(from, to, k) == old(Held(from, to, k)) - Of(i.(count := lost), k)) &&
      (from != to ==>
        forall k :: Count(to.items, k) == old(Count(to.items, k)) + Of(i.(count := m), k) - Of(i.(count := lost), k))
    ensures Stacked(old(to.items), to.items, old(from.items)[id], m, toItem, equal, newId) &&
      Left(from.items, id, old(from.items)[id], m)
    ensures OthersStay(old(from.items), from.items, Named(id, newId, toItem)) &&
      OthersStay(old(to.items), to.items, Named(id, newId, toItem))
  {
    var item := from.items[id];
    from.RemoveThing(id, m);
    PutStack(to, item, m, toItem, equal, newId);
  }

  /** An item that cannot be stacked goes over whole. */
  method TransferWhole(from: Cylinder, to: Cylinder, id: nat, m: nat)
    requires id in from.items && Apart(from, to) && BytesBoth(from, to) && !from.items[id].kind.stackable
    modifies from, to
    ensures Apart(from, to) && BytesBoth(from, to)
    ensures old(NoneOverfullBoth(from, to)) ==> NoneOverfullBoth(from, to)
    ensures forall k :: Held(from, to, k) == old(Held(from, to, k))
    ensures from != to ==> forall k :: Count(to.items, k) == old(Count(to.items, k)) + Of(old(from.items)[id], k)
    ensures id in to.items && to.items[id] == old(from.items)[id] && (from != to ==> id !in from.items)
    ensures OthersStay(old(from.items), from.items, {id}) && OthersStay(old(to.items), to.items, {id})
  {
    var item := from.items[id];
    from.RemoveThing(id, m);
    to.AddThing(id, item);
  }

  /** What a move loses on the stack it ends on; after an exchange there is none. */
  function Lost(there: Items, i: Item, moved: nat, swapped: bool, toItem: Option<nat>, a: Answers): nat
  {
    if i.kind.stackable && !swapped then Spilled(there, i, moved, toItem, a.equal) else 0
  }

  /** The move ends on an equal stack that is overfull, and both together do not fit a byte. */
  predicate Wasteful(there: Items, i: Item, moved: nat, swapped: bool, toItem: Option<nat>, a: Answers)
  {
    && i.kind.stackable && !swapped && Merges(there, i, toItem, a.equal)
    && there[toItem.value].count > i.kind.stackSize && there[toItem.value].count + moved >= 256
  }

  lemma {:induction false} BytesOf(from: Cylinder, to: Cylinder)
    requires BytesBoth(from, to)
    ensures Bytes(from.items) && Bytes(to.items)
  {
  }

  lemma {:induction false} LostIff(there: Items, i: Item, moved: nat, swapped: bool, toItem: Option<nat>, a: Answers)
    requires Bytes(there)
    ensures Lost(there, i, moved, swapped, toItem, a) == 0 <==> !Wasteful(there, i, moved, swapped, toItem, a)
    ensures moved == 0 || swapped || !i.kind.stackable ==> Lost(there, i, moved, swapped, toItem, a) == 0
    ensures !swapped && i.kind.stackable ==>
      Lost(there, i, moved, swapped, toItem, a) == Spilled(there, i, moved, toItem, a.equal)
  {
  }

  lemma {:induction false} LossShows(i: Item, lost: nat)
    ensures Of(i.(count := lost), i.kind) == lost && (lost == 0 ==> forall k :: Of(i.(count := lost), k) == 0)
  {
  }

  lemma {:induction false} NothingUnder(there: Items, i: Item, m: nat, equal: bool)
    ensures Spilled(there, i, m, None, equal) == 0
  {
  }

  lemma {:induction false} StaysAt(before: Items, after: Items, named: set<nat>, x: nat)
    requires OthersStay(before, after, named) && x !in named
    ensures (x in before <==> x in after) && (x in before ==> before[x] == after[x])
  {
  }

  lemma {:induction false} StaysTwice(a: Items, b: Items, c: Items, first: set<nat>, second: set<nat>)
    requires OthersStay(a, b, first) && OthersStay(b, c, second)
    ensures OthersStay(a, c, first + second)
  {
  }

  lemma {:induction false} StaysMore(a: Items, b: Items, named: set<nat>, id: nat, newId: nat, toItem: Option<nat>)
    requires OthersStay(a, b, named) && named <= Named(id, newId, toItem)
    ensures OthersStay(a, b, Named(id, newId, toItem))
  {
  }

  lemma {:induction false} NothingMoved(from: Items, to: Items, i: Item, id: nat, newId: nat, toItem: Option<nat>)
    ensures OthersStay(from, from, Named(id, newId, toItem)) && OthersStay(to, to, Named(id, newId, toItem))
    ensures forall k :: Of(i.(count := 0), k) == 0
    ensures {id} <= Named(id, newId, toItem)
    ensures toItem.Some? && toItem.value != id && toItem.value != newId ==> toItem.value !in Named(id, newId, None)
    ensures toItem.Some? ==>
      Named(id, newId, toItem) == {toItem.value} + Named(id, newId, None) && {toItem.value} <= Named(id, newId, toItem)
  {
  }

  lemma {:induction false} QueriesAllow(c: Cylinder, id: nat, count: nat, answer: Reply)
    requires c.QueryRemove(id, count, answer) == NoError
    ensures id in c.items && count > 0 && (c.items[id].kind.stackable ==> count <= c.items[id].count)
  {
  }

  /** How much of the item goes over. */
  function Moved(i: Item, m: nat): nat
  {
    if i.kind.stackable then m else i.count
  }

  /** What a move leaves in both cylinders, apart from an exchange before it. */
  ghost predicate Carried(fromBefore: Items, toBefore: Items, from: Items, to: Items, same: bool, id: nat, m: nat,
      target: Option<nat>, equal: bool, newId: nat)
  {
    id in fromBefore &&
    var i := fromBefore[id];
    if i.kind.stackable then Left(from, id, i, m) && Stacked(toBefore, to, i, m, target, equal, newId)
    else id in to && to[id] == i && (!same ==> id !in from)
  }

  lemma {:induction false} CarriedIs(fromBefore: Items, toBefore: Items, from: Items, to: Items, same: bool, id: nat,
      m: nat, target: Option<nat>, equal: bool, newId: nat)
    requires Carried(fromBefore, toBefore, from, to, same, id, m, target, equal, newId)
    ensures id in fromBefore
    ensures fromBefore[id].kind.stackable ==>
      Left(from, id, fromBefore[id], m) && Stacked(toBefore, to, fromBefore[id], m, target, equal, newId)
    ensures !fromBefore[id].kind.stackable ==> id in to && to[id] == fromBefore[id] && (!same ==> id !in from)
    ensures Moved(fromBefore[id], m) == if fromBefore[id].kind.stackable then m else fromBefore[id].count
  {
    hide Left, Stacked;
  }

  /** The last part of a move: m of the item, or all of it, go over. */
  method Carry(from: Cylinder, to: Cylinder, id: nat, m: nat, target: Option<nat>, equal: bool, newId: nat)
    requires id in from.items && Apart(from, to) && BytesBoth(from, to)
    requires from.items[id].kind.stackable ==> 1 <= m <= from.items[id].count
    requires target.Some? ==> target.value in to.items && target.value != id
    requires newId !in from.items && newId !in to.items
    modifies from, to
    ensures Apart(from, to) && BytesBoth(from, to)
    ensures old(NoneOverfullBoth(from, to)) ==> NoneOverfullBoth(from, to)
    ensures var i := old(from.items)[id];
      var lost := if i.kind.stackable then Spilled(old(to.items), i, m, target, equal) else 0;
      (forall k :: Held(from, to, k) == old(Held(from, to, k)) - Of(i.(count := lost), k)) &&
      (from != to ==>
         forall k :: Count(to.items, k) ==
           old(Count(to.items, k)) + Of(i.(count := Moved(i, m)), k) - Of(i.(count := lost), k))
    ensures Carried(old(from.items), old(to.items), from.items, to.items, from == to, id, m, target, equal, newId)
    ensures OthersStay(old(from.items), from.items, Named(id, newId, target)) &&
      OthersStay(old(to.items), to.items, Named(id, newId, target))
  {
    hide Held, Count, Stacked, Left, Spilled, Apart, BytesBoth, NoneOverfullBoth;
    var item := from.items[id];
    assert item.(count := item.count) == item;
    if item.kind.stackable {
      TransferStack(from, to, id, m, target, equal, newId);
    } else {
      TransferWhole(from, to, id, m);
    }
  }

  /** What a cylinder with these items answers when n of an item are to be removed. */
  function Asked(there: Items, id: nat, n: nat, answer: Reply): Reply
  {
    if id in there && n > 0 && (there[id].kind.stackable ==> n <= there[id].count) then answer else Refused(0)
  }

  lemma {:induction false} QueryIs(c: Cylinder, id: nat, n: nat, answer: Reply)
    ensures c.QueryRemove(id, n, answer) == Asked(c.items, id, n, answer)
  {
  }

  lemma {:induction false} AskedSame(before: Items, after: Items, id: nat, n: nat, answer: Reply)
    requires (id in before <==> id in after) && (id in before ==> before[id] == after[id])
    ensures Asked(before, id, n, answer) == Asked(after, id, n, answer)
  {
  }

  /** An exchange is asked for and its checks do not refuse it. */
  predicate MayExchange(a: Answers)
  {
    a.canAdd == NeedExchange && a.canAddBack == NoError && (a.exchangeMax == NoError || a.exchangeCount > 0)
  }

  /** The item in the way can be taken out whole. */
  predicate OtherLeaves(to: Items, toItem: Option<nat>, a: Answers)
  {
    toItem.Some? && toItem.value in to && Asked(to, toItem.value, to[toItem.value].count, a.canRemoveOther) == NoError
  }

  /** Whether the item may be put there: an exchange that is allowed but cannot take the other item out does not
      refuse the move. */
  function Admission(to: Items, toItem: Option<nat>, a: Answers): Reply
  {
    if a.canAdd != NeedExchange then a.canAdd
    else if a.canAddBack != NoError then a.canAddBack
    else if !MayExchange(a) then a.exchangeMax
    else if OtherLeaves(to, toItem, a) then a.canAddAfter
    else NoError
  }

  /** The replies in the order of the queries, for a move of m. */
  function Replies(from: Items, to: Items, id: nat, m: nat, toItem: Option<nat>, a: Answers): (r: seq<Reply>)
    ensures |r| == 5
  {
    [Asked(from, id, 1, a.canRemoveOne),
     Admission(to, toItem, a),
     if a.maxCount == 0 then a.max else NoError,
     Asked(from, id, m, a.canRemove),
     if a.intoTradeItem then Refused(1) else NoError]
  }

  /** Nothing before the n-th reply refuses, and the n-th does. */
  predicate Stops(replies: seq<Reply>, n: nat)
  {
    n < |replies| && replies[n] != NoError && forall i :: 0 <= i < n ==> replies[i] == NoError
  }

  predicate AllAgree(replies: seq<Reply>)
  {
    forall i :: 0 <= i < |replies| ==> replies[i] == NoError
  }

  /** A move goes through exactly if no query refuses; it moves what was asked for, up to the maximum, where a count of
      255 that is moved up stands for the whole stack. Otherwise the first refusal is the answer, and an item moved
      onto itself stays without one. */
  ghost predicate Verdict(from: Items, to: Items, id: nat, item: Item, count: nat, toItem: Option<nat>, a: Answers,
      ret: Reply, moved: nat, swapped: bool)
  {
    var most := if count == 255 && a.movesUp && item.kind.stackable then item.count else count;
    var m: nat := if !item.kind.stackable then a.maxCount else if most <= a.maxCount then most else a.maxCount;
    var replies := Replies(from, to, id, m, toItem, a);
    && (moved > 0 <==> toItem != Some(id) && AllAgree(replies))
    && (moved > 0 && item.kind.stackable ==>
          moved == m && moved <= most && ret == (if a.maxCount < most then a.max else NoError))
    && (moved > 0 && !item.kind.stackable ==> moved == item.count && ret == NoError)
    && (toItem == Some(id) ==> ret == NoError)
    && (forall n: nat :: toItem != Some(id) && Stops(replies, n) ==> ret == replies[n])
    && (swapped <==> toItem != Some(id) && replies[0] == NoError && MayExchange(a) && OtherLeaves(to, toItem, a))
  }

  lemma {:induction false} StopsOnce(replies: seq<Reply>, n: nat, k: nat)
    requires Stops(replies, n) && Stops(replies, k)
    ensures n == k && !AllAgree(replies)
  {
    assert replies[n] != NoError && replies[k] != NoError;
  }

  /** The count that is tried. */
  function Tried(item: Item, count: nat, a: Answers): nat
  {
    if item.kind.stackable then Min(Wanted(item, count, a), a.maxCount) else a.maxCount
  }

  lemma {:induction false} NoMove(from: Items, to: Items, id: nat, item: Item, count: nat, toItem: Option<nat>,
      a: Answers, n: nat, swapped: bool)
    requires toItem != Some(id) && Stops(Replies(from, to, id, Tried(item, count, a), toItem, a), n)
    requires swapped <==> n > 0 && MayExchange(a) && OtherLeaves(to, toItem, a)
    ensures var ret := Replies(from, to, id, Tried(item, count, a), toItem, a)[n];
      Verdict(from, to, id, item, count, toItem, a, ret, 0, swapped)
  {
    var replies := Replies(from, to, id, Tried(item, count, a), toItem, a);
    hide Replies, MayExchange, OtherLeaves;
    StopsOnce(replies, n, n);
    forall k: nat | Stops(replies, k)
      ensures k == n
    {
      StopsOnce(replies, n, k);
    }
    assert n > 0 ==> replies[0] == NoError;
    hide Stops, AllAgree;
  }

  lemma {:induction false} SamePlace(from: Items, to: Items, id: nat, item: Item, count: nat, a: Answers)
    ensures Verdict(from, to, id, item, count, Some(id), a, NoError, 0, false)
  {
  }

  lemma {:induction false} Goes(from: Items, to: Items, id: nat, item: Item, count: nat, toItem: Option<nat>,
      a: Answers, swapped: bool)
    requires toItem != Some(id) && AllAgree(Replies(from, to, id, Tried(item, count, a), toItem, a))
    requires swapped <==> MayExchange(a) && OtherLeaves(to, toItem, a)
    requires !item.kind.stackable ==> item.count > 0
    ensures Tried(item, count, a) > 0
    ensures var ret := if item.kind.stackable && a.maxCount < Wanted(item, count, a) then a.max else NoError;
      Verdict(from, to, id, item, count, toItem, a, ret, Moved(item, Tried(item, count, a)), swapped)
  {
    var replies := Replies(from, to, id, Tried(item, count, a), toItem, a);
    assert replies[3] == NoError && replies[0] == NoError;
    assert replies[3] == Asked(from, id, Tried(item, count, a), a.canRemove);
    hide Replies, MayExchange, OtherLeaves;
    forall n: nat
      ensures !Stops(replies, n)
    {
      assert n < |replies| ==> replies[n] == NoError;
    }
  }

  /** What each way through the move amounts to. */
  lemma {:induction false} Verdicts(from: Items, to: Items, id: nat, item: Item, count: nat, toItem: Option<nat>,
      a: Answers, swapped: bool)
    requires toItem != Some(id) && (!item.kind.stackable && id in from ==> item.count > 0)
    ensures var m := Tried(item, count, a);
      var first, admission := Asked(from, id, 1, a.canRemoveOne), Admission(to, toItem, a);
      var removal := Asked(from, id, m, a.canRemove);
      && (first != NoError && !swapped ==> Verdict(from, to, id, item, count, toItem, a, first, 0, swapped))
      && (first == NoError && (swapped <==> MayExchange(a) && OtherLeaves(to, toItem, a)) ==>
            if admission != NoError then Verdict(from, to, id, item, count, toItem, a, admission, 0, swapped)
            else if a.max != NoError && a.maxCount == 0 then
              Verdict(from, to, id, item, count, toItem, a, a.max, 0, swapped)
            else if removal != NoError then Verdict(from, to, id, item, count, toItem, a, removal, 0, swapped)
            else if a.intoTradeItem then Verdict(from, to, id, item, count, toItem, a, Refused(1), 0, swapped)
            else
              var ret := if item.kind.stackable && a.maxCount < Wanted(item, count, a) then a.max else NoError;
              id in from && Verdict(from, to, id, item, count, toItem, a, ret, Moved(item, m), swapped))
  {
    var replies := Replies(from, to, id, Tried(item, count, a), toItem, a);
    hide Verdict, MayExchange, OtherLeaves, Admission, Tried, Moved, Asked;
    if replies[0] != NoError {
      if !swapped {
        NoMove(from, to, id, item, count, toItem, a, 0, swapped);
      }
    } else if (swapped <==> MayExchange(a) && OtherLeaves(to, toItem, a)) {
      if replies[1] != NoError {
        NoMove(from, to, id, item, count, toItem, a, 1, swapped);
      } else if replies[2] != NoError {
        NoMove(from, to, id, item, count, toItem, a, 2, swapped);
      } else if replies[3] != NoError {
        NoMove(from, to, id, item, count, toItem, a, 3, swapped);
      } else if replies[4] != NoError {
        NoMove(from, to, id, item, count, toItem, a, 4, swapped);
      } else {
        AskedHere(from, id, 1, a.canRemoveOne);
        Goes(from, to, id, item, count, toItem, a, swapped);
      }
    }
  }

  lemma {:induction false} AskedHere(there: Items, id: nat, n: nat, answer: Reply)
    requires Asked(there, id, n, answer) == NoError
    ensures id in there && n > 0 && (there[id].kind.stackable ==> n <= there[id].count)
  {
  }

  lemma {:induction false} AdmissionSteps(to: Items, toItem: Option<nat>, a: Answers)
    ensures a.canAdd != NeedExchange ==> Admission(to, toItem, a) == a.canAdd && !MayExchange(a)
    ensures a.canAdd == NeedExchange && a.canAddBack != NoError ==>
      Admission(to, toItem, a) == a.canAddBack && !MayExchange(a)
    ensures a.canAdd == NeedExchange && a.canAddBack == NoError ==>
      if a.exchangeMax != NoError && a.exchangeCount == 0 then
        Admission(to, toItem, a) == a.exchangeMax && !MayExchange(a)
      else
        MayExchange(a) && (toItem.Some? && toItem.value in to ==>
          var q := Asked(to, toItem.value, to[toItem.value].count, a.canRemoveOther);
          (OtherLeaves(to, toItem, a) <==> q == NoError) &&
          Admission(to, toItem, a) == if q == NoError then a.canAddAfter else NoError)
  {
    hide Asked;
  }

  lemma {:induction false} TriedIs(item: Item, count: nat, a: Answers)
    ensures Tried(item, count, a) == if item.kind.stackable then Min(Wanted(item, count, a), a.maxCount) else a.maxCount
    ensures Moved(item, Tried(item, count, a)) == if item.kind.stackable then Tried(item, count, a) else item.count
  {
  }

  lemma {:induction false} ItemHere(m: Items, id: nat)
    requires Bytes(m)
    ensures id in m && !m[id].kind.stackable ==> m[id].count > 0
  {
  }

  method InternalMoveItem(from: Cylinder, to: Cylinder, id: nat, item: Item, count: nat, toItem: Option<nat>,
      a: Answers, newId: nat)
    returns (ret: Reply, moved: nat, swapped: bool)
    requires Apart(from, to) && BytesBoth(from, to)
    requires id in from.items ==> from.items[id] == item
    requires toItem.Some? ==> toItem.value in to.items
    requires a.canAdd.NeedExchange? ==> toItem.Some?
    requires newId !in from.items && newId !in to.items && newId != id
    modifies from, to
    ensures Apart(from, to) && BytesBoth(from, to)
    ensures old(NoneOverfullBoth(from, to)) ==> NoneOverfullBoth(from, to)
    // the answer, and how much is moved
    ensures Verdict(old(from.items), old(to.items), id, item, count, toItem, a, ret, moved, swapped)
    // what is lost, and when nothing is
    ensures forall k ::
      Held(from, to, k) ==
      old(Held(from, to, k)) - Of(item.(count := Lost(old(to.items), item, moved, swapped, toItem, a)), k)
    ensures (forall k :: Held(from, to, k) == old(Held(from, to, k))) <==>
      !Wasteful(old(to.items), item, moved, swapped, toItem, a)
    ensures moved > 0 && item.kind.stackable ==> id in old(from.items) && Left(from.items, id, item, moved)
    ensures moved > 0 && item.kind.stackable && !swapped ==>
      Stacked(old(to.items), to.items, item, moved, toItem, a.equal, newId)
    ensures moved > 0 && !item.kind.stackable ==>
      id in to.items && to.items[id] == item && (from != to ==> id !in from.items)
    ensures swapped ==>
      toItem.Some? && toItem.value in from.items && from.items[toItem.value] == old(to.items)[toItem.value]
    ensures !swapped && moved == 0 ==> from.items == old(from.items) && to.items == old(to.items)
    ensures from != to ==>
      forall k :: Count(to.items, k) == old(Count(to.items, k)) + Of(item.(count := moved), k) -
        Of(item.(count := Lost(old(to.items), item, moved, swapped, toItem, a)), k) -
        (if swapped then Of(old(to.items)[toItem.value], k) else 0)
    ensures OthersStay(old(from.items), from.items, Named(id, newId, toItem)) &&
      OthersStay(old(to.items), to.items, Named(id, newId, toItem))
  {
    hide *;
    moved, swapped := 0, false;
    BytesOf(from, to);
    LostIff(to.items, item, 0, false, toItem, a);
    LostIff(to.items, item, 0, true, toItem, a);
    LossShows(item, 0);
    NothingMoved(from.items, to.items, item, id, newId, toItem);
    SamePlace(from.items, to.items, id, item, count, a);
    if toItem == Some(id) {
      return NoError, 0, false;
    }
    var wanted := Wanted(item, count, a);
    ItemHere(from.items, id);
    Verdicts(from.items, to.items, id, item, count, toItem, a, false);
    Verdicts(from.items, to.items, id, item, count, toItem, a, true);
    AdmissionSteps(to.items, toItem, a);
    TriedIs(item, count, a);
    QueryIs(from, id, 1, a.canRemoveOne);
    ret := from.QueryRemove(id, 1, a.canRemoveOne);
    if ret != NoError {
      return;
    }
    QueriesAllow(from, id, 1, a.canRemoveOne);
    ret := a.canAdd;
    var target := toItem;
    if ret == NeedExchange {
      var other := toItem.value;
      ret := a.canAddBack;
      if ret == NoError {
        if a.exchangeMax != NoError && a.exchangeCount == 0 {
          return a.exchangeMax, 0, false;
        }
        QueryIs(to, other, to.items[other].count, a.canRemoveOther);
        if to.QueryRemove(other, to.items[other].count, a.canRemoveOther) == NoError {
          Exchange(from, to, other);
          StaysAt(old(from.items), from.items, {other}, id);
          StaysAt(old(from.items), from.items, {other}, newId);
          StaysAt(old(to.items), to.items, {other}, newId);
          StaysMore(old(from.items), from.items, {other}, id, newId, toItem);
          StaysMore(old(to.items), to.items, {other}, id, newId, toItem);
          swapped := true;
          ret := a.canAddAfter;
          target := None;
        }
      }
    }
    if ret != NoError {
      return;
    }
    if a.max != NoError && a.maxCount == 0 {
      return a.max, 0, swapped;
    }
    var m := if item.kind.stackable then Min(wanted, a.maxCount) else a.maxCount;
    QueryIs(from, id, m, a.canRemove);
    AskedSame(old(from.items), from.items, id, m, a.canRemove);
    ret := from.QueryRemove(id, m, a.canRemove);
    if ret != NoError {
      return;
    }
    QueriesAllow(from, id, m, a.canRemove);
    if a.intoTradeItem {
      return Refused(1), 0, swapped;
    }
    ghost var between, there := from.items, to.items;
    BytesOf(from, to);
    ItemHere(from.items, id);
    moved := if item.kind.stackable then m else item.count;
    LostIff(old(to.items), item, moved, swapped, toItem, a);
    LossShows(item, Lost(old(to.items), item, moved, swapped, toItem, a));
    NothingUnder(there, item, m, a.equal);
    Carry(from, to, id, m, target, a.equal, newId);
    CarriedIs(between, there, from.items, to.items, from == to, id, m, target, a.equal, newId);
    if swapped {
      StaysAt(between, from.items, Named(id, newId, target), toItem.value);
      StaysTwice(old(from.items), between, from.items, {toItem.value}, Named(id, newId, target));
      StaysTwice(old(to.items), there, to.items, {toItem.value}, Named(id, newId, target));
    }
    if item.kind.stackable && a.maxCount < wanted {
      ret := a.max;
    }
  }
}
