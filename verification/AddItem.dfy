/** Adding an item (src/game/game.cpp: internalAddItem).

    A stack that falls on an equal stack fills it, and what is left is added again as a
    new item, which may fall on another stack, and so on. The answers of the queries are
    parameters, one record for every call that can happen.
  */
module AddItem {
  import opened Cylinders
  import opened Options
  import opened Sums

  /** What the queries answer in one call: where to, on which stack, and how much. `partial` is set where a full room
      is an error. */
  datatype Answer = Answer(
    to: Cylinder,
    toItem: Option<nat>,
    equal: bool,
    canAdd: Reply,
    max: Reply,
    maxCount: nat,
    partial: bool)

  // ----- what one call did -----

  /** A merge names the stack that is met and how much may be added. */
  datatype Step = Refuse | Place | Merge(on: Item, max: nat)

  datatype Outcome = Outcome(ok: bool, placed: nat, lost: nat, remainder: nat)

  /** The calls made for a stack of c: how much was put down, how much the stacks met lost by it, and how much is
      reported as left over. */
  function Run(t: seq<Step>, c: nat): Outcome
  {
    if t == [] then Outcome(true, 0, 0, 0)
    else
      match t[0]
      case Refuse => Outcome(false, 0, 0, 0)
      case Place => Outcome(true, c, 0, 0)
      case Merge(on, max) =>
        var m := Min(c, max);
        var n := Min(Room(on), m);
        var lost := Spill(on, m);
        if m == n then Outcome(true, n, lost, 0)
        else if m - n == c then Outcome(true, c, lost, 0)
        else
          var nested := Run(t[1..], m - n);
          Outcome(true, n + nested.placed, lost + nested.lost, if nested.ok then 0 else m - n)
  }

  /** The calls go on exactly as long as something new must be added. */
  predicate Complete(t: seq<Step>, c: nat)
  {
    t != [] &&
    match t[0]
    case Refuse => |t| == 1
    case Place => |t| == 1
    case Merge(on, max) =>
      var m := Min(c, max);
      var n := Min(Room(on), m);
      if m == n || m - n == c then |t| == 1 else Complete(t[1..], m - n)
  }

  /** Nothing is created. */
  lemma {:induction false} NeverCreates(t: seq<Step>, c: nat)
    ensures Run(t, c).placed + Run(t, c).remainder <= c
  {
    if t != [] && t[0].Merge? {
      var m := Min(c, t[0].max);
      var n := Min(Room(t[0].on), m);
      if m != n && m - n != c {
        NeverCreates(t[1..], m - n);
      }
    }
  }

  /** Every room query that was followed allowed all that was asked for. */
  predicate Covered(t: seq<Step>, c: nat)
  {
    t != [] && t[0].Merge? ==>
      t[0].max >= c && (0 < Room(t[0].on) < c ==> Covered(t[1..], c - Room(t[0].on)))
  }

  lemma {:induction false} AllPlacedIff(t: seq<Step>, c: nat)
    requires Complete(t, c) && c > 0
    ensures Run(t, c).placed == c <==> Covered(t, c) && !t[|t| - 1].Refuse?
    decreases |t|
  {
    if t[0].Merge? {
      var m := Min(c, t[0].max);
      var n := Min(Room(t[0].on), m);
      if m != n && m - n != c {
        AllPlacedIff(t[1..], m - n);
        NeverCreates(t[1..], m - n);
        assert t[1..][|t[1..]| - 1] == t[|t| - 1];
      }
    }
  }

  /** Everything is accounted for exactly when all rooms were enough and no refusal came later than the second call:
      only the outermost call reports what was left over. */
  lemma {:induction false} AccountedForIff(t: seq<Step>, c: nat)
    requires Complete(t, c) && c > 0 && Run(t, c).ok
    ensures Run(t, c).placed + Run(t, c).remainder == c <==> Covered(t, c) && (t[|t| - 1].Refuse? ==> |t| <= 2)
  {
    AllPlacedIff(t, c);
    if t[0].Merge? {
      var m := Min(c, t[0].max);
      var n := Min(Room(t[0].on), m);
      if m != n && m - n != c {
        AllPlacedIff(t[1..], m - n);
        NeverCreates(t[1..], m - n);
        assert t[1..][|t[1..]| - 1] == t[|t| - 1];
      }
    }
  }

  /** A stack of a hundred coins that has n of them. */
  function Coins(n: nat): Item
  {
    Item(Kind(0, 0, true, 100), n)
  }

  /** Two units fit the first stack, two the second, the rest is refused: three of seven are gone and nothing is
      reported. */
  lemma {:induction false} LateRefusalLoses()
    ensures Run([Merge(Coins(98), 7), Merge(Coins(98), 5), Refuse], 7) == Outcome(true, 4, 0, 0)
  {
    assert Run([Merge(Coins(98), 5), Refuse], 5) == Outcome(true, 2, 0, 3) by {
      assert [Merge(Coins(98), 5), Refuse][1..] == [Refuse];
      assert Run([Refuse], 3) == Outcome(false, 0, 0, 0);
    }
    assert [Merge(Coins(98), 7), Merge(Coins(98), 5), Refuse][1..] == [Merge(Coins(98), 5), Refuse];
  }

  /** The steps meet stacks whose counts fit a byte. */
  predicate ByteSteps(t: seq<Step>)
  {
    forall i :: 0 <= i < |t| && t[i].Merge? ==> t[i].on.kind.stackable && ByteItem(t[i].on)
  }

  /** What is left to add when the last call is made. */
  function LastAmount(t: seq<Step>, c: nat): nat
  {
    if |t| <= 1 || !t[0].Merge? then c
    else
      var m := Min(c, t[0].max);
      LastAmount(t[1..], m - Min(Room(t[0].on), m))
  }

  /** Exactly the last call can lose anything: when it fills an overfull stack beyond its byte. */
  lemma {:induction false} LosesIff(t: seq<Step>, c: nat)
    requires Complete(t, c) && ByteSteps(t) && c < 256
    ensures var last := t[|t| - 1];
      Run(t, c).lost == if last.Merge? then Spill(last.on, Min(LastAmount(t, c), last.max)) else 0
    decreases |t|
  {
    if t[0].Merge? {
      var m := Min(c, t[0].max);
      var n := Min(Room(t[0].on), m);
      FilledCount(t[0].on, m);
      if m != n && m - n != c {
        LosesIff(t[1..], m - n);
        assert t[1..][|t[1..]| - 1] == t[|t| - 1];
      }
    }
  }

  // ----- the cylinders concerned -----

  ghost function Counts(world: set<Cylinder>, k: Kind): map<Cylinder, nat>
    reads world
  {
    map c | c in world :: Count(c.items, k)
  }

  ghost function Stock(world: set<Cylinder>, k: Kind): nat
    reads world
  {
    Sum(Counts(world, k))
  }

  ghost predicate BytesAll(world: set<Cylinder>)
    reads world
  {
    forall c :: c in world ==> Bytes(c.items)
  }

  /** Identities from `next` on are new. */
  ghost predicate Below(world: set<Cylinder>, next: nat)
    reads world
  {
    forall c, id :: c in world && id in c.items ==> id < next
  }

  lemma {:induction false} SumOfOne(before: map<Cylinder, nat>, after: map<Cylinder, nat>, to: Cylinder)
    requires to in before && to in after && after == before[to := after[to]]
    ensures Sum(after) == Sum(before) - before[to] + after[to]
  {
    SumPut(before, to, after[to]);
  }

  /** The stack takes as much of m as it has room for. */
  method FillOne(to: Cylinder, id: nat, m: nat, next: nat, ghost world: set<Cylinder>) returns (n: nat)
    requires to in world && id in to.items && to.items[id].kind.stackable && m < 256 && BytesAll(world) &&
      Below(world, next)
    modifies to
    ensures BytesAll(world) && Below(world, next) && n == Min(Room(old(to.items)[id]), m)
    ensures var on := old(to.items)[id];
      (forall k :: Stock(world, k) ==
        old(Stock(world, k)) + Of(Item(on.kind, n), k) - Of(Item(on.kind, Spill(on, m)), k)) &&
      Brings(old(Contents(world)), Contents(world), to, on.kind, n - Spill(on, m))
  {
    ghost var on := to.items[id];
    hide Room, Spill, Count, Sum, NoneOverfull, ByteItem, Overfull, Amounts;
    n := to.Fill(id, m);
    forall k ensures Stock(world, k) ==
        old(Stock(world, k)) + Of(Item(on.kind, n), k) - Of(Item(on.kind, Spill(on, m)), k) {
      SumOfOne(old(Counts(world, k)), Counts(world, k), to);
    }
  }

  /** The item lies in the cylinder as a new one. */
  method PlaceOne(to: Cylinder, item: Item, next: nat, ghost world: set<Cylinder>)
    requires to in world && ByteItem(item) && BytesAll(world) && Below(world, next)
    modifies to
    ensures BytesAll(world) && Below(world, next + 1) && to.items == old(to.items)[next := item]
    ensures forall k :: Stock(world, k) == old(Stock(world, k)) + Of(item, k)
    ensures Brings(old(Contents(world)), Contents(world), to, item.kind, item.count)
  {
    to.AddThing(next, item);
    forall k ensures Stock(world, k) == old(Stock(world, k)) + Of(item, k) {
      SumOfOne(old(Counts(world, k)), Counts(world, k), to);
    }
  }

  /** What the trace says of the answers. */
  predicate Follows(t: seq<Step>, answers: seq<Answer>)
  {
    && |t| <= |answers|
    && forall i :: 0 <= i < |t| ==>
      (t[i].Refuse? <==> Refuses(answers[i])) && (t[i].Merge? ==> t[i].max == answers[i].maxCount)
  }

  predicate Refuses(a: Answer)
  {
    a.canAdd != NoError || (a.max != NoError && a.partial)
  }

  /** The answer names an equal stack that is there. */
  predicate Meets(a: Answer, there: Items, kind: Kind)
  {
    kind.stackable && a.equal && a.toItem.Some? && a.toItem.value in there && there[a.toItem.value].kind == kind
  }

  /** What a call does with what lies where it is sent. */
  function FirstStep(a: Answer, there: Items, kind: Kind): Step
  {
    if Refuses(a) then Refuse
    else if Meets(a, there, kind) then Merge(there[a.toItem.value], a.maxCount)
    else Place
  }

  /** What the calls for a stack of c bring to one cylinder: each lands where its answer says. */
  function Landed(t: seq<Step>, c: nat, answers: seq<Answer>, there: Cylinder): int
    requires |t| <= |answers|
  {
    if t == [] then 0
    else
      var here := answers[0].to == there;
      match t[0]
      case Refuse => 0
      case Place => if here then c else 0
      case Merge(on, max) =>
        var m := Min(c, max);
        var n := Min(Room(on), m);
        if m == n then (if here then n - Spill(on, m) else 0)
        else if m - n == c then (if here then c - Spill(on, m) else 0)
        else (if here then n - Spill(on, m) else 0) + Landed(t[1..], m - n, answers[1..], there)
  }

  function Net(t: seq<Step>, item: Item, answers: seq<Answer>, there: Cylinder, k: Kind): int
    requires |t| <= |answers|
  {
    if k == item.kind then Landed(t, item.count, answers, there) else 0
  }

  /** What lies in the cylinders. */
  ghost function Contents(world: set<Cylinder>): map<Cylinder, Items>
    reads world
  {
    map c | c in world :: c.items
  }

  /** One cylinder has so many more of the kind, and nothing else changed in number. */
  ghost predicate Brings(before: map<Cylinder, Items>, after: map<Cylinder, Items>, to: Cylinder, kind: Kind, n: int)
  {
    after.Keys == before.Keys &&
    forall c, k :: c in before ==> Count(after[c], k) == Count(before[c], k) + if c == to && k == kind then n else 0
  }

  /** Every cylinder has just what the calls bring to it. */
  ghost predicate Lands(before: map<Cylinder, Items>, after: map<Cylinder, Items>, t: seq<Step>, item: Item,
      answers: seq<Answer>)
  {
    |t| <= |answers| && after.Keys == before.Keys &&
    forall c, k :: c in before ==> Count(after[c], k) == Count(before[c], k) + Net(t, item, answers, c, k)
  }

  lemma {:induction false} NothingLands(before: map<Cylinder, Items>, item: Item, answers: seq<Answer>)
    requires answers != []
    ensures Lands(before, before, [], item, answers) && Lands(before, before, [Refuse], item, answers)
  {
  }

  lemma {:induction false} PlaceLands(before: map<Cylinder, Items>, after: map<Cylinder, Items>, item: Item,
      answers: seq<Answer>)
    requires answers != [] && Brings(before, after, answers[0].to, item.kind, item.count)
    ensures Lands(before, after, [Place], item, answers)
  {
  }

  /** The merge on its own, if nothing is left to add. */
  lemma {:induction false} FillLands(before: map<Cylinder, Items>, after: map<Cylinder, Items>, item: Item,
      answers: seq<Answer>, on: Item)
    requires answers != []
    requires var m := Min(item.count, answers[0].maxCount);
      Brings(before, after, answers[0].to, item.kind, Min(Room(on), m) - Spill(on, m))
    ensures Min(item.count, answers[0].maxCount) <= Room(on) ==>
      Lands(before, after, [Merge(on, answers[0].maxCount)], item, answers)
  {
    hide Room, Spill;
  }

  /** The stack met had no room, and the item is added as it is. */
  lemma {:induction false} AllLands(before: map<Cylinder, Items>, filled: map<Cylinder, Items>,
      after: map<Cylinder, Items>, item: Item, answers: seq<Answer>, on: Item)
    requires answers != [] && Room(on) == 0 && Min(item.count, answers[0].maxCount) == item.count > 0
    requires Brings(before, filled, answers[0].to, item.kind, 0 - Spill(on, item.count))
    requires Brings(filled, after, answers[0].to, item.kind, item.count)
    ensures Lands(before, after, [Merge(on, answers[0].maxCount)], item, answers)
  {
    hide Room, Spill;
  }

  lemma {:induction false} RestLands(before: map<Cylinder, Items>, filled: map<Cylinder, Items>,
      after: map<Cylinder, Items>, item: Item, answers: seq<Answer>, on: Item, rest: seq<Step>)
    requires answers != []
    requires var m := Min(item.count, answers[0].maxCount);
      && Room(on) < m && m - Room(on) != item.count
      && Brings(before, filled, answers[0].to, item.kind, Room(on) - Spill(on, m))
      && Lands(filled, after, rest, item.(count := m - Room(on)), answers[1..])
    ensures Lands(before, after, [Merge(on, answers[0].maxCount)] + rest, item, answers)
  {
    hide Room, Spill, Count;
    var t := [Merge(on, answers[0].maxCount)] + rest;
    assert t[1..] == rest;
  }

  /** A merge that leaves something to add as a new item, followed by the calls for that. */
  lemma {:induction false} ThenTheRest(a: seq<Answer>, on: Item, c: nat, rest: seq<Step>)
    requires a != [] && !Refuses(a[0]) && Follows(rest, a[1..])
    requires var m := Min(c, a[0].maxCount); Room(on) < m && m - Room(on) != c && Complete(rest, m - Room(on))
    ensures var t := [Merge(on, a[0].maxCount)] + rest; var m := Min(c, a[0].maxCount); var left := m - Room(on);
      var nested := Run(rest, left);
      Follows(t, a) && Complete(t, c) &&
      Run(t, c) == Outcome(true, Room(on) + nested.placed, Spill(on, m) + nested.lost, if nested.ok then 0 else left)
  {
    var t := [Merge(on, a[0].maxCount)] + rest;
    assert t[1..] == rest;
    forall i | 0 <= i < |t|
      ensures (t[i].Refuse? <==> Refuses(a[i])) && (t[i].Merge? ==> t[i].max == a[i].maxCount)
    {
      if i > 0 {
        assert t[i] == rest[i - 1] && a[i] == a[1..][i - 1];
      }
    }
  }

  /** The calls that make no further one. */
  lemma {:induction false} LastCall(a: seq<Answer>, on: Item, c: nat)
    requires a != []
    ensures Run([], c) == Outcome(true, 0, 0, 0) && Follows([], a)
    ensures Complete([Refuse], c) && Run([Refuse], c) == Outcome(false, 0, 0, 0) &&
      (Refuses(a[0]) ==> Follows([Refuse], a))
    ensures Complete([Place], c) && Run([Place], c) == Outcome(true, c, 0, 0) &&
      (!Refuses(a[0]) ==> Follows([Place], a))
    ensures var t := [Merge(on, a[0].maxCount)]; var m := Min(c, a[0].maxCount);
      (!Refuses(a[0]) ==> Follows(t, a)) &&
      (m <= Room(on) ==> Complete(t, c) && Run(t, c) == Outcome(true, m, Spill(on, m), 0)) &&
      (Room(on) == 0 && m == c ==> Complete(t, c) && Run(t, c) == Outcome(true, c, Spill(on, m), 0))
  {
    hide Room, Spill;
  }

  lemma {:induction false} ByteStepsMore(s: Step, rest: seq<Step>)
    requires ByteSteps([s]) && ByteSteps(rest)
    ensures ByteSteps([s] + rest)
  {
    assert [s][0] == s;
  }

  lemma {:induction false} BelowMore(world: set<Cylinder>, next: nat)
    requires Below(world, next)
    ensures Below(world, next + 1)
  {
  }

  method InternalAddItem(item: Item, next: nat, answers: seq<Answer>, test: bool, ghost world: set<Cylinder>)
    returns (ret: Reply, remainder: nat, ghost trace: seq<Step>)
    requires |answers| > item.count && forall i :: 0 <= i < |answers| ==> answers[i].to in world
    requires ByteItem(item) && BytesAll(world) && Below(world, next)
    modifies world
    ensures BytesAll(world) && Below(world, next + 1)
    ensures Follows(trace, answers) && ByteSteps(trace) && (!test ==> Complete(trace, item.count))
    ensures !test ==> trace[0] == FirstStep(answers[0], old(answers[0].to.items), item.kind)
    ensures ret == NoError <==> Run(trace, item.count).ok
    // the answer, and what the first call does
    ensures ret == (if answers[0].canAdd != NoError then answers[0].canAdd
                    else if answers[0].max != NoError && answers[0].partial then answers[0].max else NoError)
    ensures !test && ret == NoError ==>
      var there, a := old(answers[0].to.items), answers[0];
      if item.kind.stackable && a.equal && a.toItem.Some? && a.toItem.value in there &&
         there[a.toItem.value].kind == item.kind
      then trace[0] == Merge(there[a.toItem.value], a.maxCount)
      else trace == [Place] && a.to.items == there[next := item]
    ensures remainder == Run(trace, item.count).remainder
    ensures var run := Run(trace, item.count);
      forall k :: Stock(world, k) ==
          old(Stock(world, k)) + Of(item.(count := run.placed), k) - Of(item.(count := run.lost), k)
    ensures Lands(old(Contents(world)), Contents(world), trace, item, answers)
    ensures test || ret != NoError ==> forall c :: c in world ==> c.items == old(c.items)
    decreases item.count, 1
  {
    remainder, trace := 0, [Refuse];
    var a := answers[0];
    LastCall(answers, item, item.count);
    BelowMore(world, next);
    hide Stock, BytesAll, Below, Run, Complete, Follows, Lands, Brings, Contents;
    NothingLands(Contents(world), item, answers);
    var to := a.to;
    if a.canAdd != NoError {
      return a.canAdd, 0, [Refuse];
    }
    if a.max != NoError && a.partial {
      return a.max, 0, [Refuse];
    }
    if test {
      return NoError, 0, [];
    }
    ret := NoError;
    if Meets(a, to.items, item.kind) {
      remainder, trace := MergeItem(item, next, answers, world);
    } else {
      trace := [Place];
      ghost var before := Contents(world);
      PlaceOne(to, item, next, world);
      PlaceLands(before, Contents(world), item, answers);
    }
  }

  lemma {:induction false} BytesIn(world: set<Cylinder>, c: Cylinder)
    requires BytesAll(world) && c in world
    ensures Bytes(c.items)
  {
  }

  lemma {:induction false} LessIs(a: nat, b: nat)
    ensures Min(a, b) == if a <= b then a else b
  {
  }

  lemma {:induction false} SmallerItem(item: Item, n: nat)
    requires ByteItem(item) && n < item.count && item.kind.stackable
    ensures ByteItem(item.(count := n))
  {
  }

  /** Units of the item's kind, counted. */
  lemma {:induction false} OfParts(item: Item, n: nat, m: nat)
    ensures forall k :: Of(item.(count := n), k) == (if k == item.kind then n else 0)
    ensures forall k :: Of(item.(count := m), k) == (if k == item.kind then m else 0)
    ensures forall k :: Of(Item(item.kind, n), k) == (if k == item.kind then n else 0)
    ensures forall k :: Of(Item(item.kind, m), k) == (if k == item.kind then m else 0)
  {
  }

  lemma {:induction false} Meeting(a: Answer, there: Items, item: Item)
    requires !Refuses(a) && Meets(a, there, item.kind) && ByteItem(item) && Bytes(there)
    ensures a.toItem.Some? && a.toItem.value in there && item.kind.stackable && item.count < 256
    ensures var on := there[a.toItem.value];
      on.kind == item.kind && FirstStep(a, there, item.kind) == Merge(on, a.maxCount) &&
      ByteSteps([Merge(on, a.maxCount)])
  {
  }

  /** The half that merges: the equal stack is filled, what is left is added as a new item. */
  method MergeItem(item: Item, next: nat, answers: seq<Answer>, ghost world: set<Cylinder>)
    returns (remainder: nat, ghost trace: seq<Step>)
    requires |answers| > item.count && forall i :: 0 <= i < |answers| ==> answers[i].to in world
    requires ByteItem(item) && BytesAll(world) && Below(world, next)
    requires !Refuses(answers[0]) && Meets(answers[0], answers[0].to.items, item.kind)
    modifies world
    ensures BytesAll(world) && Below(world, next + 1)
    ensures Follows(trace, answers) && ByteSteps(trace) && Complete(trace, item.count) && Run(trace, item.count).ok
    ensures trace[0] == FirstStep(answers[0], old(answers[0].to.items), item.kind)
    ensures remainder == Run(trace, item.count).remainder
    ensures var run := Run(trace, item.count);
      forall k :: Stock(world, k) ==
          old(Stock(world, k)) + Of(item.(count := run.placed), k) - Of(item.(count := run.lost), k)
    ensures Lands(old(Contents(world)), Contents(world), trace, item, answers)
    decreases item.count, 0
  {
    hide *;
    var a := answers[0];
    var to := a.to;
    BytesIn(world, to);
    Meeting(a, to.items, item);
    var toItem := a.toItem.value;
    var m := Min(item.count, a.maxCount);
    LessIs(item.count, a.maxCount);
    ghost var on := to.items[toItem];
    LastCall(answers, on, item.count);
    remainder, trace := 0, [Merge(on, a.maxCount)];
    ghost var before := Contents(world);
    var n := FillOne(to, toItem, m, next, world);
    ghost var filled := Contents(world);
    LessIs(Room(on), m);
    FillLands(before, filled, item, answers, on);
    BelowMore(world, next);
    OfParts(item, n, Spill(on, m));
    var count := m - n;
    if count > 0 {
      if item.count != count {
        ghost var rest;
        var nested, unreported;
        SmallerItem(item, count);
        nested, unreported, rest := InternalAddItem(item.(count := count), next, answers[1..], false, world);
        ThenTheRest(answers, on, item.count, rest);
        RestLands(before, filled, Contents(world), item, answers, on, rest);
        ByteStepsMore(trace[0], rest);
        trace := trace + rest;
        OfParts(item, Run(rest, count).placed, Run(rest, count).lost);
        OfParts(item, Run(trace, item.count).placed, Run(trace, item.count).lost);
        if nested != NoError {
          remainder := count;
        }
      } else {
        PlaceOne(to, item, next, world);
        AllLands(before, filled, Contents(world), item, answers, on);
        OfParts(item, item.count, Spill(on, m));
      }
    }
  }
}
