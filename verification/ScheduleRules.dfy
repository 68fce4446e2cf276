/** The schedule of the creatures on values (src/game/game.cpp: addCreatureCheck, removeCreatureCheck, checkCreatures).

    Ten buckets are visited in turn. Removal from the schedule only clears a flag; the
    slot is dropped, by moving the last element into it, when the bucket is next visited.
    While a bucket is visited, callbacks schedule and unschedule creatures, also in the
    bucket under way; they are given as arbitrary lists of actions.
  */
module ScheduleRules {

  const EVENT_CREATURECOUNT: nat := 10

  class Creature {
    var creatureCheck: bool
    var inCheckCreaturesVector: bool

    constructor ()
      ensures !creatureCheck && !inCheckCreaturesVector
    {
      creatureCheck, inCheckCreaturesVector := false, false;
    }
  }

  /** What a callback does to the schedule; `bucket` is the random choice of addCreatureCheck. */
  datatype Act = Add(c: Creature, bucket: nat) | Remove(c: Creature)

  /** The actions of the n-th callback of a visit. */
  type Plan = nat -> seq<Act>

  function ActsOf(plan: Plan, n: nat): seq<Act>
  {
    plan(n)
  }

  datatype Slot = At(bucket: nat, place: nat)

  /** The buckets, the creatures with a set creatureCheck, and where those in a bucket are. */
  datatype Table = Table(lists: seq<seq<Creature>>, flagged: set<Creature>, slots: map<Creature, Slot>)

  predicate InRange(t: Table, s: Slot)
  {
    s.bucket < |t.lists| && s.place < |t.lists[s.bucket]|
  }

  function Entry(t: Table, b: nat, i: nat): Creature
    requires InRange(t, At(b, i))
  {
    t.lists[b][i]
  }

  /** Every entry is a creature in that slot alone, and only creatures in a slot are flagged. */
  ghost predicate Sound(t: Table)
  {
    |t.lists| == EVENT_CREATURECOUNT && t.flagged <= t.slots.Keys &&
    (forall b, i :: InRange(t, At(b, i)) ==> Entry(t, b, i) in t.slots && t.slots[Entry(t, b, i)] == At(b, i)) &&
    (forall c :: c in t.slots ==> InRange(t, t.slots[c]) && Entry(t, t.slots[c].bucket, t.slots[c].place) == c)
  }

  // ----- the steps -----

  function Added(t: Table, c: Creature, b: nat): (r: Table)
    requires b < |t.lists|
    ensures |r.lists| == |t.lists|
  {
    if c in t.slots then t.(flagged := t.flagged + {c})
    else Table(t.lists[b := t.lists[b] + [c]], t.flagged + {c}, t.slots[c := At(b, |t.lists[b]|)])
  }

  function Removed(t: Table, c: Creature): Table
  {
    if c in t.slots then t.(flagged := t.flagged - {c}) else t
  }

  predicate Proper(a: Act)
  {
    a.Add? ==> a.bucket < EVENT_CREATURECOUNT
  }

  function Step(t: Table, a: Act): (r: Table)
    requires |t.lists| == EVENT_CREATURECOUNT && Proper(a)
    ensures |r.lists| == EVENT_CREATURECOUNT
  {
    match a
    case Add(c, bucket) => Added(t, c, bucket)
    case Remove(c) => Removed(t, c)
  }

  ghost predicate AllProper(acts: seq<Act>)
  {
    forall k :: 0 <= k < |acts| ==> Proper(acts[k])
  }

  ghost predicate ProperPlan(plan: Plan)
  {
    forall n: nat :: AllProper(ActsOf(plan, n))
  }

  ghost function Applied(t: Table, acts: seq<Act>): (r: Table)
    requires |t.lists| == EVENT_CREATURECOUNT && AllProper(acts)
    ensures |r.lists| == EVENT_CREATURECOUNT
  {
    if acts == [] then t else Step(Applied(t, acts[..|acts| - 1]), acts[|acts| - 1])
  }

  /** The last entry of the bucket replaces entry i. */
  function Dropped(t: Table, b: nat, i: nat): (r: Table)
    requires InRange(t, At(b, i))
    ensures |r.lists| == |t.lists|
  {
    var l := t.lists[b];
    var back := l[|l| - 1];
    Table(t.lists[b := l[i := back][..|l| - 1]], t.flagged, t.slots[back := At(b, i)] - {l[i]})
  }

  /** The buckets have at most grown at their ends. */
  ghost predicate Grown(t: Table, r: Table)
  {
    |r.lists| == |t.lists| && forall b :: 0 <= b < |t.lists| ==> t.lists[b] <= r.lists[b]
  }

  // ----- every step keeps the table sound -----

  lemma {:induction false} AddedKeeps(t: Table, c: Creature, b: nat)
    requires Sound(t) && b < EVENT_CREATURECOUNT
    ensures Sound(Added(t, c, b)) && Grown(t, Added(t, c, b))
  {
    var r := Added(t, c, b);
    if c !in t.slots {
      forall b', i | InRange(r, At(b', i))
        ensures Entry(r, b', i) in r.slots && r.slots[Entry(r, b', i)] == At(b', i)
      {
        assert (b' == b && i == |t.lists[b]|) || (InRange(t, At(b', i)) && Entry(r, b', i) == Entry(t, b', i));
      }
      forall d | d in r.slots
        ensures InRange(r, r.slots[d]) && Entry(r, r.slots[d].bucket, r.slots[d].place) == d
      {
        assert d != c ==> d in t.slots && InRange(t, t.slots[d]);
      }
    } else {
      assert forall b', i :: InRange(r, At(b', i)) ==> InRange(t, At(b', i)) && Entry(r, b', i) == Entry(t, b', i);
    }
  }

  lemma {:induction false} RemovedKeeps(t: Table, c: Creature)
    requires Sound(t)
    ensures Sound(Removed(t, c)) && Grown(t, Removed(t, c))
  {
    var r := Removed(t, c);
    assert forall b', i :: InRange(r, At(b', i)) ==> InRange(t, At(b', i)) && Entry(r, b', i) == Entry(t, b', i);
  }

  lemma {:induction false} AppliedKeeps(t: Table, acts: seq<Act>)
    requires Sound(t) && AllProper(acts)
    ensures Sound(Applied(t, acts)) && Grown(t, Applied(t, acts))
    decreases |acts|
  {
    assert |t.lists| == EVENT_CREATURECOUNT;
    hide Sound;
    if acts != [] {
      var a := acts[|acts| - 1];
      var before := Applied(t, acts[..|acts| - 1]);
      AppliedKeeps(t, acts[..|acts| - 1]);
      match a {
        case Add(c, bucket) => AddedKeeps(before, c, bucket);
        case Remove(c) => RemovedKeeps(before, c);
      }
    }
  }

  /** Swap-remove loses no other entry, and every creature stays in at most one place. */
  lemma {:induction false} DroppedKeeps(t: Table, b: nat, i: nat)
    requires Sound(t) && InRange(t, At(b, i)) && Entry(t, b, i) !in t.flagged
    ensures var r := Dropped(t, b, i);
      Sound(r) && r.slots.Keys == t.slots.Keys - {Entry(t, b, i)} && r.flagged == t.flagged &&
      forall b' :: 0 <= b' < |t.lists| && b' != b ==> r.lists[b'] == t.lists[b']
  {
    var r := Dropped(t, b, i);
    var l := t.lists[b];
    assert i < |l| && Entry(t, b, i) == l[i];
    var last: nat := |l| - 1;
    assert InRange(t, At(b, last)) && Entry(t, b, last) == l[last];
    forall b', j | InRange(r, At(b', j))
      ensures Entry(r, b', j) in r.slots && r.slots[Entry(r, b', j)] == At(b', j)
    {
      var j' := if b' == b && j == i then last else j;
      assert InRange(t, At(b', j')) && Entry(r, b', j) == Entry(t, b', j');
    }
    forall d | d in r.slots
      ensures InRange(r, r.slots[d]) && Entry(r, r.slots[d].bucket, r.slots[d].place) == d
    {
      assert d in t.slots && d != l[i] && InRange(t, t.slots[d]);
    }
  }

  lemma {:induction false} SoundShape(t: Table)
    requires Sound(t)
    ensures |t.lists| == EVENT_CREATURECOUNT && t.flagged <= t.slots.Keys
  {
  }

  lemma {:induction false} SlotOf(t: Table, c: Creature)
    requires Sound(t) && c in t.slots
    ensures var s := t.slots[c];
      s.bucket < |t.lists| == EVENT_CREATURECOUNT && s.place < |t.lists[s.bucket]| && t.lists[s.bucket][s.place] == c
  {
  }

  lemma {:induction false} SlotAt(t: Table, b: nat, i: nat)
    requires Sound(t) && b < |t.lists| && i < |t.lists[b]|
    ensures t.lists[b][i] in t.slots && t.slots[t.lists[b][i]] == At(b, i)
  {
    assert InRange(t, At(b, i)) && Entry(t, b, i) == t.lists[b][i];
  }

  lemma {:induction false} EntriesDiffer(t: Table, b: nat, i: nat, j: nat)
    requires Sound(t) && InRange(t, At(b, i)) && InRange(t, At(b, j)) && i != j
    ensures t.lists[b][i] != t.lists[b][j]
  {
    assert Entry(t, b, i) == t.lists[b][i] && Entry(t, b, j) == t.lists[b][j];
  }

  // ----- one visit -----

  /** The table after a visit, the creatures processed, in order, and the stale entries dropped. */
  datatype Visited = Visited(table: Table, done: seq<Creature>, dropped: nat)

  /** The entries from `it` to before `end` of bucket b: a flagged creature has its callbacks run, a stale one loses
      its slot. */
  ghost function Visit(t: Table, b: nat, it: nat, end: nat, plan: Plan): (r: Visited)
    requires |t.lists| == EVENT_CREATURECOUNT && b < EVENT_CREATURECOUNT && it <= end <= |t.lists[b]| &&
      ProperPlan(plan)
    ensures |r.table.lists| == EVENT_CREATURECOUNT
    decreases end - it
  {
    if it == end then Visited(t, [], 0)
    else
      var c := t.lists[b][it];
      if c in t.flagged then
        var next := AfterCallback(t, b, it, end, plan);
        var rest := Visit(next, b, it + 1, end, plan);
        Visited(rest.table, [c] + rest.done, rest.dropped)
      else
        var rest := Visit(Dropped(t, b, it), b, it, end - 1, plan);
        Visited(rest.table, rest.done, rest.dropped + 1)
  }

  /** The table after the callbacks of entry `it`. */
  ghost function AfterCallback(t: Table, b: nat, it: nat, end: nat, plan: Plan): (r: Table)
    requires |t.lists| == EVENT_CREATURECOUNT && b < EVENT_CREATURECOUNT && it < end <= |t.lists[b]| && ProperPlan(plan)
    ensures |r.lists| == EVENT_CREATURECOUNT && end <= |r.lists[b]|
  {
    assert AllProper(ActsOf(plan, it));
    AppliedGrows(t, ActsOf(plan, it));
    Applied(t, ActsOf(plan, it))
  }

  lemma {:induction false} AppliedGrows(t: Table, acts: seq<Act>)
    requires |t.lists| == EVENT_CREATURECOUNT && AllProper(acts)
    ensures Grown(t, Applied(t, acts))
  {
    if acts != [] {
      AppliedGrows(t, acts[..|acts| - 1]);
    }
  }

  /** Sound, and a visit may be under way in bucket b. */
  ghost predicate Under(t: Table, b: nat, it: nat, end: nat, plan: Plan)
  {
    Sound(t) && |t.lists| == EVENT_CREATURECOUNT && b < EVENT_CREATURECOUNT && it <= end <= |t.lists[b]| &&
      ProperPlan(plan)
  }

  /** The turn for a flagged entry. */
  lemma {:induction false} Runs(t: Table, b: nat, it: nat, end: nat, plan: Plan)
    requires Under(t, b, it, end, plan) && it < end && t.lists[b][it] in t.flagged
    ensures var next := AfterCallback(t, b, it, end, plan);
      Under(next, b, it + 1, end, plan) && Grown(t, next) &&
      var rest := Visit(next, b, it + 1, end, plan);
      Visit(t, b, it, end, plan) == Visited(rest.table, [t.lists[b][it]] + rest.done, rest.dropped)
  {
    assert AllProper(ActsOf(plan, it));
    AppliedKeeps(t, ActsOf(plan, it));
    hide Sound;
  }

  /** The turn for a stale entry. */
  lemma {:induction false} Drops(t: Table, b: nat, it: nat, end: nat, plan: Plan)
    requires Under(t, b, it, end, plan) && it < end && t.lists[b][it] !in t.flagged
    ensures InRange(t, At(b, it))
    ensures var next := Dropped(t, b, it);
      Under(next, b, it, end - 1, plan) && next.flagged == t.flagged &&
      next.slots.Keys == t.slots.Keys - {t.lists[b][it]} &&
        next.lists[b] == t.lists[b][it := t.lists[b][|t.lists[b]| - 1]][..|t.lists[b]| - 1] &&
      (forall b' :: 0 <= b' < |t.lists| && b' != b ==> next.lists[b'] == t.lists[b']) &&
      var rest := Visit(next, b, it, end - 1, plan);
      Visit(t, b, it, end, plan) == Visited(rest.table, rest.done, rest.dropped + 1)
  {
    assert InRange(t, At(b, it)) && Entry(t, b, it) == t.lists[b][it];
    DroppedKeeps(t, b, it);
    hide Sound;
  }

  /** Whatever the callbacks do: as many entries are handled as the bucket held at first, those processed stay in
      front, the other buckets only grow. */
  lemma {:induction false} VisitKeeps(t: Table, b: nat, it: nat, end: nat, plan: Plan)
    requires Under(t, b, it, end, plan)
    ensures var r := Visit(t, b, it, end, plan);
      Sound(r.table) && |r.done| + r.dropped == end - it && t.lists[b][..it] + r.done <= r.table.lists[b] &&
      forall b' :: 0 <= b' < |t.lists| && b' != b ==> t.lists[b'] <= r.table.lists[b']
    decreases end - it
  {
    hide Sound, ProperPlan, Visit;
    if it == end {
      NothingLeft(t, b, it, plan);
    } else if t.lists[b][it] in t.flagged {
      Runs(t, b, it, end, plan);
      var next := AfterCallback(t, b, it, end, plan);
      VisitKeeps(next, b, it + 1, end, plan);
      var rest := Visit(next, b, it + 1, end, plan);
      assert t.lists[b][..it] + ([t.lists[b][it]] + rest.done) == next.lists[b][..it + 1] + rest.done;
    } else {
      Drops(t, b, it, end, plan);
      var next := Dropped(t, b, it);
      VisitKeeps(next, b, it, end - 1, plan);
      assert next.lists[b][..it] == t.lists[b][..it];
    }
  }

  lemma {:induction false} NothingLeft(t: Table, b: nat, it: nat, plan: Plan)
    requires Under(t, b, it, it, plan)
    ensures Visit(t, b, it, it, plan) == Visited(t, [], 0)
  {
  }

  // ----- what the callbacks leave alone -----

  /** None of the actions unschedules c. */
  predicate Spares(acts: seq<Act>, c: Creature)
  {
    forall k :: 0 <= k < |acts| ==> acts[k] != Remove(c)
  }

  /** None of the actions schedules c. */
  predicate Shuns(acts: seq<Act>, c: Creature)
  {
    forall k :: 0 <= k < |acts| ==> acts[k].Remove? || acts[k].c != c
  }

  /** None of the actions schedules anybody for bucket b. */
  predicate Avoids(acts: seq<Act>, b: nat)
  {
    forall k :: 0 <= k < |acts| ==> acts[k].Remove? || acts[k].bucket != b
  }

  ghost predicate NeverRemoves(plan: Plan, c: Creature)
  {
    forall n: nat :: Spares(ActsOf(plan, n), c)
  }

  ghost predicate NeverAdds(plan: Plan, c: Creature)
  {
    forall n: nat :: Shuns(ActsOf(plan, n), c)
  }

  ghost predicate NoneInto(plan: Plan, b: nat)
  {
    forall n: nat :: Avoids(ActsOf(plan, n), b)
  }

  lemma {:induction false} AppliedSpares(t: Table, acts: seq<Act>, c: Creature)
    requires |t.lists| == EVENT_CREATURECOUNT && AllProper(acts)
    ensures c in t.flagged && Spares(acts, c) ==> c in Applied(t, acts).flagged
    ensures c !in t.flagged && Shuns(acts, c) ==> c !in Applied(t, acts).flagged
    ensures c !in t.slots && Shuns(acts, c) ==> c !in Applied(t, acts).slots
  {
    if acts != [] {
      AppliedSpares(t, acts[..|acts| - 1], c);
    }
  }

  lemma {:induction false} AppliedAvoids(t: Table, acts: seq<Act>, b: nat)
    requires |t.lists| == EVENT_CREATURECOUNT && AllProper(acts) && b < EVENT_CREATURECOUNT && Avoids(acts, b)
    ensures Applied(t, acts).lists[b] == t.lists[b]
  {
    if acts != [] {
      AppliedAvoids(t, acts[..|acts| - 1], b);
    }
  }

  /** What one callback leaves alone. */
  lemma {:induction false} CallbackSpares(t: Table, b: nat, it: nat, end: nat, plan: Plan, c: Creature)
    requires Under(t, b, it, end, plan) && it < end
    ensures var next := AfterCallback(t, b, it, end, plan);
      (c in t.flagged && NeverRemoves(plan, c) ==> c in next.flagged) &&
      (c !in t.flagged && NeverAdds(plan, c) ==> c !in next.flagged) &&
      (c !in t.slots && NeverAdds(plan, c) ==> c !in next.slots) &&
      (NoneInto(plan, b) ==> next.lists[b] == t.lists[b])
  {
    hide Sound;
    assert AllProper(ActsOf(plan, it));
    AppliedSpares(t, ActsOf(plan, it), c);
    if NoneInto(plan, b) {
      assert Avoids(ActsOf(plan, it), b);
      AppliedAvoids(t, ActsOf(plan, it), b);
    }
  }

  /** A creature left alone keeps its flag, set or not, through a visit. Without its flag it is not processed. */
  lemma {:induction false} VisitSpares(t: Table, b: nat, it: nat, end: nat, plan: Plan, c: Creature)
    requires Under(t, b, it, end, plan)
    ensures var r := Visit(t, b, it, end, plan);
      (c in t.flagged && NeverRemoves(plan, c) ==> c in r.table.flagged) &&
      (c !in t.flagged && NeverAdds(plan, c) ==> c !in r.table.flagged && c !in r.done) &&
      (c !in t.slots && NeverAdds(plan, c) ==> c !in r.table.slots)
    decreases end - it
  {
    hide *;
    Shape(t, b, it, end, plan);
    if it == end {
      NothingLeft(t, b, it, plan);
    } else if t.lists[b][it] in t.flagged {
      Runs(t, b, it, end, plan);
      CallbackSpares(t, b, it, end, plan, c);
      VisitSpares(AfterCallback(t, b, it, end, plan), b, it + 1, end, plan, c);
    } else {
      Drops(t, b, it, end, plan);
      VisitSpares(Dropped(t, b, it), b, it, end - 1, plan, c);
    }
  }

  lemma {:induction false} Shape(t: Table, b: nat, it: nat, end: nat, plan: Plan)
    requires Under(t, b, it, end, plan)
    ensures |t.lists| == EVENT_CREATURECOUNT && b < EVENT_CREATURECOUNT && it <= end <= |t.lists[b]| &&
      ProperPlan(plan) && Sound(t)
    ensures t.flagged <= t.slots.Keys
  {
  }

  // ----- who is processed -----

  /** With nothing added to the bucket under way, a flagged entry that nobody unschedules is processed,
      and a stale one that nobody schedules again loses its slot. */
  lemma {:induction false} VisitReaches(t: Table, b: nat, it: nat, end: nat, plan: Plan, p: nat)
    requires Under(t, b, it, end, plan) && it <= p < end == |t.lists[b]| && NoneInto(plan, b)
    ensures var r := Visit(t, b, it, end, plan); var c := t.lists[b][p];
      (c in t.flagged && NeverRemoves(plan, c) ==> c in r.done) &&
      (c !in t.flagged && NeverAdds(plan, c) ==> c !in r.table.slots)
    decreases end - it
  {
    hide *;
    Shape(t, b, it, end, plan);
    var c := t.lists[b][p];
    if t.lists[b][it] in t.flagged {
      Runs(t, b, it, end, plan);
      CallbackSpares(t, b, it, end, plan, c);
      if it < p {
        VisitReaches(AfterCallback(t, b, it, end, plan), b, it + 1, end, plan, p);
      }
    } else {
      Drops(t, b, it, end, plan);
      var next := Dropped(t, b, it);
      if it == p {
        VisitSpares(next, b, it, end - 1, plan, c);
      } else {
        VisitReaches(next, b, it, end - 1, plan, if p == end - 1 then it else p);
      }
    }
  }

  /** Flagged entries that nobody unschedules are processed in order as long as none is stale before them. */
  lemma {:induction false} VisitPrefix(t: Table, b: nat, it: nat, end: nat, plan: Plan, q: nat)
    requires Under(t, b, it, end, plan) && it <= q <= end
    requires forall p :: it <= p < q ==> t.lists[b][p] in t.flagged && NeverRemoves(plan, t.lists[b][p])
    ensures t.lists[b][it..q] <= Visit(t, b, it, end, plan).done
    decreases end - it
  {
    hide *;
    Shape(t, b, it, end, plan);
    if it < q {
      Runs(t, b, it, end, plan);
      var next := AfterCallback(t, b, it, end, plan);
      GrownAt(t, next, b);
      forall p | it + 1 <= p < q
        ensures next.lists[b][p] == t.lists[b][p] && next.lists[b][p] in next.flagged &&
          NeverRemoves(plan, next.lists[b][p])
      {
        CallbackSpares(t, b, it, end, plan, t.lists[b][p]);
      }
      VisitPrefix(next, b, it + 1, end, plan, q);
      assert t.lists[b][it..q] == [t.lists[b][it]] + next.lists[b][it + 1..q];
    }
  }

  /** With flagged entries only, none of them unscheduled, exactly these are processed, in order. */
  lemma {:induction false} VisitWhole(t: Table, b: nat, it: nat, end: nat, plan: Plan)
    requires Under(t, b, it, end, plan)
    requires forall p :: it <= p < end ==> t.lists[b][p] in t.flagged && NeverRemoves(plan, t.lists[b][p])
    ensures Visit(t, b, it, end, plan).done == t.lists[b][it..end]
  {
    hide *;
    Shape(t, b, it, end, plan);
    VisitPrefix(t, b, it, end, plan, end);
    VisitKeeps(t, b, it, end, plan);
  }

  lemma {:induction false} GrownAt(t: Table, r: Table, b: nat)
    requires Grown(t, r) && b < |t.lists|
    ensures |r.lists| == |t.lists| && t.lists[b] <= r.lists[b]
  {
  }

  /** The entries of bucket b from n on are flagged. */
  ghost predicate FlaggedFrom(t: Table, b: nat, n: nat)
    requires b < |t.lists|
  {
    forall i :: n <= i < |t.lists[b]| ==> t.lists[b][i] in t.flagged
  }

  ghost predicate NoneStale(t: Table, b: nat)
    requires b < |t.lists|
  {
    FlaggedFrom(t, b, 0)
  }

  ghost predicate RemovesNobody(plan: Plan)
  {
    forall n: nat :: OnlyAdds(ActsOf(plan, n))
  }

  predicate OnlyAdds(acts: seq<Act>)
  {
    forall k :: 0 <= k < |acts| ==> acts[k].Add?
  }

  lemma {:induction false} NobodyRemoved(plan: Plan, c: Creature)
    requires RemovesNobody(plan)
    ensures NeverRemoves(plan, c)
  {
    forall n: nat
      ensures Spares(ActsOf(plan, n), c)
    {
      assert OnlyAdds(ActsOf(plan, n));
    }
  }

  ghost function WholeVisit(t: Table, b: nat, plan: Plan): Visited
    requires |t.lists| == EVENT_CREATURECOUNT && b < EVENT_CREATURECOUNT && ProperPlan(plan)
  {
    Visit(t, b, 0, |t.lists[b]|, plan)
  }

  lemma {:induction false} AppliedFresh(t: Table, acts: seq<Act>, b: nat, n: nat)
    requires |t.lists| == EVENT_CREATURECOUNT && AllProper(acts) && OnlyAdds(acts) && b < EVENT_CREATURECOUNT
    requires FlaggedFrom(t, b, n)
    ensures FlaggedFrom(Applied(t, acts), b, n) && t.flagged <= Applied(t, acts).flagged
  {
    if acts != [] {
      AppliedFresh(t, acts[..|acts| - 1], b, n);
    }
  }

  /** What callbacks schedule is flagged. */
  lemma {:induction false} CallbackFresh(t: Table, b: nat, it: nat, end: nat, plan: Plan, other: nat, n: nat)
    requires Under(t, b, it, end, plan) && it < end && RemovesNobody(plan) && other < EVENT_CREATURECOUNT
    requires FlaggedFrom(t, other, n)
    ensures var next := AfterCallback(t, b, it, end, plan); FlaggedFrom(next, other, n) && t.flagged <= next.flagged
  {
    hide Sound;
    assert AllProper(ActsOf(plan, it)) && OnlyAdds(ActsOf(plan, it));
    AppliedFresh(t, ActsOf(plan, it), other, n);
  }
}
