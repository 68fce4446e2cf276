/** The scheduler as the server keeps it: ten lists and two flags in every creature
    (src/game/game.cpp: addCreatureCheck, removeCreatureCheck, checkCreatures).

    The ghost field `table` is the schedule on values; every method changes it the way ScheduleRules says.
  */
module Scheduler {

  import opened ScheduleRules
  import opened ScheduleTours

  ghost predicate ActsIn(acts: seq<Act>, creatures: set<Creature>)
  {
    AllProper(acts) && forall k :: 0 <= k < |acts| ==> acts[k].c in creatures
  }

  lemma {:induction false} ActsAre(acts: seq<Act>, creatures: set<Creature>)
    requires ActsIn(acts, creatures)
    ensures AllProper(acts) && forall k :: 0 <= k < |acts| ==> acts[k].c in creatures
  {
  }

  ghost predicate PlanIn(plan: Plan, creatures: set<Creature>)
  {
    forall n: nat :: ActsIn(ActsOf(plan, n), creatures)
  }

  ghost predicate PlansIn(plans: seq<Plan>, creatures: set<Creature>)
  {
    forall k :: 0 <= k < |plans| ==> PlanIn(plans[k], creatures)
  }

  lemma {:induction false} PlanProper(plan: Plan, creatures: set<Creature>)
    requires PlanIn(plan, creatures)
    ensures ProperPlan(plan)
  {
    assert forall n: nat :: ActsIn(ActsOf(plan, n), creatures);
  }

  lemma {:induction false} PlansProper(plans: seq<Plan>, creatures: set<Creature>)
    requires PlansIn(plans, creatures)
    ensures AllProperPlans(plans)
  {
    forall k | 0 <= k < |plans|
      ensures ProperPlan(plans[k])
    {
      PlanProper(plans[k], creatures);
    }
  }

  lemma {:induction false} ActsSplit(t: Table, acts: seq<Act>, k: nat)
    requires |t.lists| == EVENT_CREATURECOUNT && AllProper(acts) && k <= |acts|
    ensures AllProper(acts[..k]) && Applied(t, []) == t && acts[..0] == []
    ensures k < |acts| ==>
      Proper(acts[k]) && AllProper(acts[..k + 1]) && Applied(t, acts[..k + 1]) == Step(Applied(t, acts[..k]), acts[k])
  {
    if k < |acts| {
      assert acts[..k + 1][..k] == acts[..k];
    }
  }

  /** A visit under way in bucket b: done so far and what is left make up the whole. */
  ghost predicate Halfway(all: Visited, done: seq<Creature>, dropped: nat, t: Table, b: nat, it: nat, end: nat,
      plan: Plan)
  {
    Under(t, b, it, end, plan) &&
    var rest := Visit(t, b, it, end, plan);
    all == Visited(rest.table, done + rest.done, dropped + rest.dropped)
  }

  lemma {:induction false} VisitBegins(t: Table, b: nat, plan: Plan)
    requires Sound(t) && b < EVENT_CREATURECOUNT && ProperPlan(plan)
    ensures |t.lists| == EVENT_CREATURECOUNT && Halfway(WholeVisit(t, b, plan), [], 0, t, b, 0, |t.lists[b]|, plan)
  {
  }

  /** One turn of the visit, of either kind. */
  lemma {:induction false} VisitTurn(all: Visited, done: seq<Creature>, dropped: nat, t: Table, b: nat, it: nat,
      end: nat, plan: Plan)
    requires Halfway(all, done, dropped, t, b, it, end, plan)
    ensures Under(t, b, it, end, plan) && b < |t.lists| && it <= end <= |t.lists[b]|
    ensures it == end ==> all == Visited(t, done, dropped)
    ensures it < end && t.lists[b][it] in t.flagged ==>
      |t.lists| == EVENT_CREATURECOUNT && b < EVENT_CREATURECOUNT && ProperPlan(plan) &&
      Halfway(all, done + [t.lists[b][it]], dropped, AfterCallback(t, b, it, end, plan), b, it + 1, end, plan)
    ensures it < end && t.lists[b][it] !in t.flagged ==>
      InRange(t, At(b, it)) && Halfway(all, done, dropped + 1, Dropped(t, b, it), b, it, end - 1, plan)
  {
    hide Sound, Visit, AfterCallback, Dropped, ProperPlan;
    if it == end {
      NothingLeft(t, b, it, plan);
    } else if t.lists[b][it] in t.flagged {
      Runs(t, b, it, end, plan);
    } else {
      Drops(t, b, it, end, plan);
    }
  }

  lemma {:induction false} TourBegins(t: Table, from: nat, plans: seq<Plan>)
    requires |t.lists| == EVENT_CREATURECOUNT && AllProperPlans(plans)
    ensures Tour(t, from, 0, plans) == Visited(t, [], 0)
  {
  }

  /** One visit more. */
  lemma {:induction false} TourTurn(t: Table, from: nat, k: nat, plans: seq<Plan>)
    requires |t.lists| == EVENT_CREATURECOUNT && k < |plans| && AllProperPlans(plans)
    ensures var b := (from + k) % EVENT_CREATURECOUNT; var before := Tour(t, from, k, plans);
      b < EVENT_CREATURECOUNT && ProperPlan(plans[k]) &&
      var v := WholeVisit(before.table, b, plans[k]);
      Tour(t, from, k + 1, plans) == Visited(v.table, before.done + v.done, before.dropped + v.dropped)
    ensures (from + k + 1) % EVENT_CREATURECOUNT == ((from + k) % EVENT_CREATURECOUNT + 1) % EVENT_CREATURECOUNT
  {
    hide WholeVisit, ProperPlan;
  }

  lemma {:induction false} PlanAt(plans: seq<Plan>, k: nat, creatures: set<Creature>)
    requires PlansIn(plans, creatures) && k < |plans|
    ensures PlanIn(plans[k], creatures)
  {
  }

  class Game {
    const checkCreatureLists: array<seq<Creature>>
    var index: nat
    ghost const creatures: set<Creature>
    ghost var table: Table

    ghost predicate Valid()
      reads this, checkCreatureLists, creatures
    {
      index < EVENT_CREATURECOUNT && Matches() && Sound(table)
    }

    /** The lists and the flags are those of the table. */
    ghost predicate Matches()
      reads this, checkCreatureLists, creatures
    {
      checkCreatureLists.Length == EVENT_CREATURECOUNT && table.lists == checkCreatureLists[..] &&
      table.slots.Keys <= creatures &&
      forall c :: c in creatures ==>
        c.creatureCheck == (c in table.flagged) && c.inCheckCreaturesVector == (c in table.slots)
    }

    lemma {:induction false} Known()
      requires Valid()
      ensures index < EVENT_CREATURECOUNT && Sound(table) &&
        checkCreatureLists.Length == |table.lists| == EVENT_CREATURECOUNT
      ensures table.lists == checkCreatureLists[..]
    {
    }

    constructor (ghost creatures: set<Creature>)
      requires forall c :: c in creatures ==> !c.creatureCheck && !c.inCheckCreaturesVector
      ensures Valid() && this.creatures == creatures && index == 0 && fresh(checkCreatureLists)
      ensures table == Table(seq(EVENT_CREATURECOUNT, b => []), {}, map[])
    {
      this.creatures := creatures;
      checkCreatureLists := new seq<Creature>[EVENT_CREATURECOUNT](i => []);
      index := 0;
      table := Table(seq(EVENT_CREATURECOUNT, b => []), {}, map[]);
    }

    method AddCreatureCheck(c: Creature, bucket: nat)
      requires Valid() && c in creatures && bucket < EVENT_CREATURECOUNT
      modifies this`table, c, checkCreatureLists
      ensures Valid() && table == Added(old(table), c, bucket)
      ensures c.creatureCheck && c.inCheckCreaturesVector
      ensures forall b :: 0 <= b < EVENT_CREATURECOUNT ==>
        checkCreatureLists[b] ==
        old(checkCreatureLists[b]) + if b == bucket && !old(c.inCheckCreaturesVector) then [c] else []
    {
      AddedKeeps(table, c, bucket);
      hide Sound;
      c.creatureCheck := true;
      table := Added(table, c, bucket);
      if c.inCheckCreaturesVector {
        return;
      }
      c.inCheckCreaturesVector := true;
      checkCreatureLists[bucket] := checkCreatureLists[bucket] + [c];
    }

    method RemoveCreatureCheck(c: Creature)
      requires Valid() && c in creatures
      modifies this`table, c`creatureCheck
      ensures Valid() && table == Removed(old(table), c) && !c.creatureCheck
    {
      RemovedKeeps(table, c);
      hide Sound;
      if c.inCheckCreaturesVector {
        c.creatureCheck := false;
      }
      table := Removed(table, c);
    }

    /** One action of a callback. */
    method Perform(a: Act)
      requires Valid() && a.c in creatures && Proper(a)
      modifies this`table, creatures, checkCreatureLists
      ensures Valid() && table == Step(old(table), a)
    {
      hide Sound, Added, Removed;
      match a
      case Add(c, bucket) => AddCreatureCheck(c, bucket);
      case Remove(c) => RemoveCreatureCheck(c);
    }

    /** A think, attack, condition or death callback. */
    method Callback(acts: seq<Act>)
      requires Valid() && ActsIn(acts, creatures)
      modifies this`table, creatures, checkCreatureLists
      ensures Valid() && table == Applied(old(table), acts)
    {
      ActsAre(acts, creatures);
      hide *;
      ghost var was := table;
      Known();
      ActsSplit(table, acts, 0);
      for k := 0 to |acts|
        invariant Valid() && table == Applied(was, acts[..k])
      {
        ActsSplit(was, acts, k);
        Perform(acts[k]);
      }
      assert acts[..|acts|] == acts;
    }

    /** The last element replaces one stale entry. */
    method DropSlot(b: nat, it: nat, creature: Creature)
      requires Valid() && InRange(table, At(b, it)) && Entry(table, b, it) == creature && !creature.creatureCheck
      modifies this`table, checkCreatureLists, creature`inCheckCreaturesVector
      ensures Valid() && table == Dropped(old(table), b, it)
    {
      DroppedKeeps(table, b, it);
      SlotAt(table, b, it);
      hide Sound;
      table := Dropped(table, b, it);
      creature.inCheckCreaturesVector := false;
      checkCreatureLists[b] := checkCreatureLists[b][it := checkCreatureLists[b][|checkCreatureLists[b]| - 1]];
      checkCreatureLists[b] := checkCreatureLists[b][..|checkCreatureLists[b]| - 1];
    }

    /** One entry of a visit: a flagged creature has its callbacks run, a stale one loses its slot. */
    method VisitEntry(b: nat, it: nat, ghost end: nat, plan: Plan) returns (processed: bool)
      requires Valid() && Under(table, b, it, end, plan) && it < end && PlanIn(plan, creatures)
      modifies this`table, creatures, checkCreatureLists
      ensures Valid() && processed == (old(table).lists[b][it] in old(table).flagged)
      ensures if processed then table == AfterCallback(old(table), b, it, end, plan)
              else InRange(old(table), At(b, it)) && table == Dropped(old(table), b, it)
    {
      var creature := checkCreatureLists[b][it];
      SlotAt(table, b, it);
      hide Sound, Dropped, Applied, ProperPlan;
      if creature.creatureCheck {
        assert ActsIn(ActsOf(plan, it), creatures);
        Callback(ActsOf(plan, it));
        processed := true;
      } else {
        DropSlot(b, it, creature);
        processed := false;
      }
    }

    /** The loop over the bucket under way. */
    method VisitBucket(plan: Plan) returns (ghost v: Visited)
      requires Valid() && PlanIn(plan, creatures) && ProperPlan(plan)
      modifies this`table, creatures, checkCreatureLists
      ensures Valid() && table == v.table && v == WholeVisit(old(table), index, plan)
    {
      hide *;
      Known();
      VisitBegins(table, index, plan);
      var b := index;
      var it: nat, end: nat := 0, |checkCreatureLists[b]|;
      ghost var all := WholeVisit(table, b, plan);
      ghost var done, dropped := [], 0;
      while it < end
        invariant Valid() && Halfway(all, done, dropped, table, b, it, end, plan)
        decreases end - it
      {
        ghost var was := table;
        Known();
        VisitTurn(all, done, dropped, table, b, it, end, plan);
        var more := VisitEntry(b, it, end, plan);
        if more {
          done := done + [was.lists[b][it]];
          it := it + 1;
        } else {
          end := end - 1;
          dropped := dropped + 1;
        }
      }
      VisitTurn(all, done, dropped, table, b, it, end, plan);
      v := Visited(table, done, dropped);
    }

    /** One visit: whatever the callbacks schedule and unschedule, exactly the creatures the rules name are processed,
        in their order. */
    method CheckCreatures(plan: Plan) returns (ghost v: Visited)
      requires Valid() && PlanIn(plan, creatures)
      modifies this`index, this`table, creatures, checkCreatureLists
      ensures Valid() && index == (old(index) + 1) % EVENT_CREATURECOUNT && table == v.table
      ensures ProperPlan(plan) && v == WholeVisit(old(table), old(index), plan)
    {
      hide Sound, WholeVisit, ProperPlan, PlanIn;
      PlanProper(plan, creatures);
      v := VisitBucket(plan);
      index := (index + 1) % EVENT_CREATURECOUNT;
    }

    /** Ten consecutive visits. */
    method TenVisits(plans: seq<Plan>) returns (ghost v: Visited)
      requires Valid() && |plans| == EVENT_CREATURECOUNT && PlansIn(plans, creatures)
      modifies this`index, this`table, creatures, checkCreatureLists
      ensures Valid() && index == old(index) && table == v.table
      ensures AllProperPlans(plans) && v == Tour(old(table), old(index), EVENT_CREATURECOUNT, plans)
    {
      hide *;
      PlansProper(plans, creatures);
      Known();
      TourBegins(table, index, plans);
      ghost var from, was := index, table;
      v := Visited(table, [], 0);
      for k := 0 to EVENT_CREATURECOUNT
        invariant Valid() && index == (from + k) % EVENT_CREATURECOUNT && table == v.table
        invariant v == Tour(was, from, k, plans)
      {
        PlanAt(plans, k, creatures);
        ghost var visit := CheckCreatures(plans[k]);
        TourTurn(was, from, k, plans);
        v := Visited(visit.table, v.done + visit.done, v.dropped + visit.dropped);
      }
    }
  }
}
