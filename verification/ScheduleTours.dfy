/** Ten consecutive visits, one of every bucket (src/game/game.cpp: checkCreatures). */
module ScheduleTours {
  import opened ScheduleRules
  import opened ScheduleFairness

  ghost predicate AllProperPlans(plans: seq<Plan>)
  {
    forall k :: 0 <= k < |plans| ==> ProperPlan(plans[k])
  }

  /** The first k visits of a tour that begins at bucket `from`. */
  ghost function Tour(t: Table, from: nat, k: nat, plans: seq<Plan>): (r: Visited)
    requires |t.lists| == EVENT_CREATURECOUNT && k <= |plans| && AllProperPlans(plans)
    ensures |r.table.lists| == EVENT_CREATURECOUNT
  {
    if k == 0 then Visited(t, [], 0)
    else
      var before := Tour(t, from, k - 1, plans);
      var v := WholeVisit(before.table, (from + k - 1) % EVENT_CREATURECOUNT, plans[k - 1]);
      Visited(v.table, before.done + v.done, before.dropped + v.dropped)
  }

  /** Bucket b is among the first k visited from bucket `from` on. */
  predicate Passed(b: int, from: int, k: int)
  {
    (b - from) % EVENT_CREATURECOUNT < k
  }

  lemma {:induction false} PassedStep(from: int, k: int)
    requires 0 <= from < 10 && 0 <= k < 10
    ensures var b := (from + k) % 10;
      !Passed(b, from, k) && forall b' :: 0 <= b' < 10 ==> (Passed(b', from, k + 1) <==> Passed(b', from, k) || b' == b)
  {
    var b := (from + k) % 10;
    assert b == from + k || b == from + k - 10;
    forall b' | 0 <= b' < 10
      ensures Passed(b', from, k + 1) <==> Passed(b', from, k) || b' == b
    {
      assert (b' - from) % 10 == if b' >= from then b' - from else b' - from + 10;
    }
  }

  /** A tour so far: k buckets of a sound table visited from bucket `from` on. */
  ghost predicate OnTour(t: Table, from: nat, k: nat, plans: seq<Plan>)
  {
    Sound(t) && |t.lists| == EVENT_CREATURECOUNT && from < EVENT_CREATURECOUNT &&
      k <= |plans| <= EVENT_CREATURECOUNT && AllProperPlans(plans)
  }

  lemma {:induction false} TourStep(t: Table, from: nat, k: nat, plans: seq<Plan>)
    requires OnTour(t, from, k, plans) && k > 0
    ensures OnTour(t, from, k - 1, plans)
    ensures var b := (from + (k - 1)) % EVENT_CREATURECOUNT; var before := Tour(t, from, k - 1, plans);
      b < EVENT_CREATURECOUNT && ProperPlan(plans[k - 1]) &&
      var v := WholeVisit(before.table, b, plans[k - 1]);
      Tour(t, from, k, plans) == Visited(v.table, before.done + v.done, before.dropped + v.dropped)
  {
    hide Sound, WholeVisit;
  }

  /** What a whole visit keeps: everybody in another bucket stays put, and those processed are in front of theirs. */
  lemma {:induction false} VisitPlaces(t: Table, b: nat, plan: Plan)
    requires Sound(t) && |t.lists| == EVENT_CREATURECOUNT && b < EVENT_CREATURECOUNT && ProperPlan(plan)
    ensures var v := WholeVisit(t, b, plan);
      Sound(v.table) && v.done <= v.table.lists[b] && |v.done| + v.dropped == |t.lists[b]| &&
      (forall c :: c in t.slots && t.slots[c].bucket != b ==> c in v.table.slots && v.table.slots[c] == t.slots[c]) &&
      (forall i :: 0 <= i < |v.done| ==> v.done[i] in v.table.slots && v.table.slots[v.done[i]] == At(b, i))
  {
    hide Visit, ProperPlan, Sound;
    VisitKeeps(t, b, 0, |t.lists[b]|, plan);
    var v := WholeVisit(t, b, plan);
    assert [] + v.done == v.done && t.lists[b][..0] == [];
    forall c | c in t.slots && t.slots[c].bucket != b
      ensures c in v.table.slots && v.table.slots[c] == t.slots[c]
    {
      SlotOf(t, c);
      SlotAt(v.table, t.slots[c].bucket, t.slots[c].place);
    }
    forall i | 0 <= i < |v.done|
      ensures v.done[i] in v.table.slots && v.table.slots[v.done[i]] == At(b, i)
    {
      SlotAt(v.table, b, i);
    }
  }

  ghost predicate Distinct(s: seq<Creature>)
  {
    forall i, j :: 0 <= i < j < |s| ==> s[i] != s[j]
  }

  lemma {:induction false} DistinctAppend(a: seq<Creature>, b: seq<Creature>)
    requires Distinct(a) && Distinct(b) && forall c :: c in a ==> c !in b
    ensures Distinct(a + b)
  {
    var s := a + b;
    forall i, j | 0 <= i < j < |s|
      ensures s[i] != s[j]
    {
      assert i < |a| <= j ==> s[i] in a && s[j] in b;
    }
  }

  /** Whatever the callbacks do, nobody is processed twice within ten visits. */
  lemma {:induction false} TourDistinct(t: Table, from: nat, k: nat, plans: seq<Plan>)
    requires OnTour(t, from, k, plans)
    ensures var r := Tour(t, from, k, plans);
      Sound(r.table) && Distinct(r.done) && forall c :: c in r.done ==>
        c in r.table.slots && Passed(r.table.slots[c].bucket, from, k)
    decreases k
  {
    hide Sound, AllProperPlans, WholeVisit, Passed;
    if k > 0 {
      TourStep(t, from, k, plans);
      TourDistinct(t, from, k - 1, plans);
      PassedStep(from, k - 1);
      var b := (from + (k - 1)) % EVENT_CREATURECOUNT;
      var before := Tour(t, from, k - 1, plans);
      VisitPlaces(before.table, b, plans[k - 1]);
      var v := WholeVisit(before.table, b, plans[k - 1]);
      forall c | c in before.done
        ensures c in v.table.slots && v.table.slots[c] == before.table.slots[c] && c !in v.done
      {
        assert before.table.slots[c].bucket != b;
      }
      forall c | c in before.done
        ensures Passed(v.table.slots[c].bucket, from, k)
      {
        SlotOf(v.table, c);
      }
      assert Distinct(v.done);
      DistinctAppend(before.done, v.done);
    }
  }

  // ----- fairness -----

  ghost predicate NoneRemoves(plans: seq<Plan>, k: nat, c: Creature)
  {
    forall j :: 0 <= j < k && j < |plans| ==> NeverRemoves(plans[j], c)
  }

  ghost predicate NoneAdds(plans: seq<Plan>, k: nat, c: Creature)
  {
    forall j :: 0 <= j < k && j < |plans| ==> NeverAdds(plans[j], c)
  }

  ghost predicate NoneUnschedules(plans: seq<Plan>, k: nat)
  {
    forall j :: 0 <= j < k && j < |plans| ==> RemovesNobody(plans[j])
  }

  /** In visit k nothing is added to the bucket under way, or that bucket is always fair by then and nobody is
      unscheduled. */
  ghost predicate SteadyAt(t: Table, from: nat, plans: seq<Plan>, k: nat)
    requires k < |plans| && |t.lists| == EVENT_CREATURECOUNT && AllProperPlans(plans)
  {
    var b := (from + k) % EVENT_CREATURECOUNT;
    var now := Tour(t, from, k, plans).table;
    NoneInto(plans[k], b) || (AlwaysFair(now.lists[b], now.flagged) && RemovesNobody(plans[k]))
  }

  /** In which visit of the tour the bucket of c is under way. */
  function TurnOf(t: Table, from: nat, c: Creature): (k: nat)
    requires c in t.slots
    ensures k < EVENT_CREATURECOUNT
  {
    (t.slots[c].bucket - from) % EVENT_CREATURECOUNT
  }

  /** A creature left alone keeps its flag, set or not, and until its bucket is visited its slot. */
  lemma {:induction false} TourSpares(t: Table, from: nat, k: nat, plans: seq<Plan>, c: Creature)
    requires OnTour(t, from, k, plans)
    ensures var r := Tour(t, from, k, plans);
      Sound(r.table) &&
      (c in t.flagged && NoneRemoves(plans, k, c) ==> c in r.table.flagged) &&
      (c !in t.flagged && NoneAdds(plans, k, c) ==> c !in r.table.flagged && c !in r.done) &&
      (c !in t.slots && NoneAdds(plans, k, c) ==> c !in r.table.slots) &&
      (c in t.slots && !Passed(t.slots[c].bucket, from, k) ==> c in r.table.slots && r.table.slots[c] == t.slots[c])
    decreases k
  {
    hide Sound, AllProperPlans, Passed, NeverRemoves, NeverAdds, Visit, ProperPlan;
    if k > 0 {
      TourStep(t, from, k, plans);
      TourSpares(t, from, k - 1, plans, c);
      PassedStep(from, k - 1);
      var b := (from + (k - 1)) % EVENT_CREATURECOUNT;
      var before := Tour(t, from, k - 1, plans);
      VisitPlaces(before.table, b, plans[k - 1]);
      VisitSpares(before.table, b, 0, |before.table.lists[b]|, plans[k - 1], c);
      if c in t.slots {
        SlotOf(t, c);
      }
    }
  }

  /** No entry of another bucket becomes stale while nobody is unscheduled. */
  lemma {:induction false} VisitFresh(t: Table, b: nat, it: nat, end: nat, plan: Plan, other: nat)
    requires Under(t, b, it, end, plan) && RemovesNobody(plan) && other != b && other < EVENT_CREATURECOUNT &&
      NoneStale(t, other)
    ensures NoneStale(Visit(t, b, it, end, plan).table, other)
    decreases end - it
  {
    hide Sound, Visit, AfterCallback, ProperPlan, RemovesNobody;
    if it == end {
      NothingLeft(t, b, it, plan);
    } else if t.lists[b][it] in t.flagged {
      Runs(t, b, it, end, plan);
      CallbackFresh(t, b, it, end, plan, other, 0);
      VisitFresh(AfterCallback(t, b, it, end, plan), b, it + 1, end, plan, other);
    } else {
      Drops(t, b, it, end, plan);
      VisitFresh(Dropped(t, b, it), b, it, end - 1, plan, other);
    }
  }

  lemma {:induction false} TourFresh(t: Table, from: nat, k: nat, plans: seq<Plan>, b: nat)
    requires OnTour(t, from, k, plans) && NoneUnschedules(plans, k)
    requires b < EVENT_CREATURECOUNT && !Passed(b, from, k) && NoneStale(t, b)
    ensures Sound(Tour(t, from, k, plans).table) && NoneStale(Tour(t, from, k, plans).table, b)
    decreases k
  {
    hide Sound, AllProperPlans, Passed, RemovesNobody, NoneStale, Visit, ProperPlan;
    if k > 0 {
      TourStep(t, from, k, plans);
      PassedStep(from, k - 1);
      TourFresh(t, from, k - 1, plans, b);
      var before := Tour(t, from, k - 1, plans).table;
      var under := (from + (k - 1)) % EVENT_CREATURECOUNT;
      VisitPlaces(before, under, plans[k - 1]);
      VisitFresh(before, under, 0, |before.lists[under]|, plans[k - 1], b);
    }
  }

  /** A bucket without stale entries at the start is always fair at its turn, if nobody has been unscheduled. */
  lemma {:induction false} SteadyFromStart(t: Table, from: nat, plans: seq<Plan>, k: nat)
    requires OnTour(t, from, k, plans) && k < |plans| && NoneUnschedules(plans, k + 1)
    requires NoneStale(t, (from + k) % EVENT_CREATURECOUNT)
    ensures SteadyAt(t, from, plans, k)
  {
    hide Sound, NoneStale, RemovesNobody, ProperPlan, AlwaysFair, AllProperPlans, Tour;
    var b := (from + k) % EVENT_CREATURECOUNT;
    PassedStep(from, k);
    TourFresh(t, from, k, plans, b);
    NoneStaleIsFair(Tour(t, from, k, plans).table, b);
  }

  /** The visit of its bucket settles what becomes of c. */
  lemma {:induction false} TourVisits(t: Table, from: nat, k: nat, plans: seq<Plan>, c: Creature)
    requires OnTour(t, from, k, plans) && k > 0
    requires c in t.slots && t.slots[c].bucket == (from + (k - 1)) % EVENT_CREATURECOUNT
    ensures var r := Tour(t, from, k, plans);
      (c in t.flagged && NoneRemoves(plans, k, c) && SteadyAt(t, from, plans, k - 1) ==> c in r.done) &&
      (c !in t.flagged && NoneAdds(plans, k, c) && NoneInto(plans[k - 1], t.slots[c].bucket) ==>
         c !in r.table.slots)
  {
    hide Sound, AllProperPlans, Passed, NeverRemoves, NeverAdds, NoneInto, WholeVisit, NoneStale, RemovesNobody,
      ProperPlan, AlwaysFair;
    TourStep(t, from, k, plans);
    PassedStep(from, k - 1);
    TourSpares(t, from, k - 1, plans, c);
    var b := (from + (k - 1)) % EVENT_CREATURECOUNT;
    var before := Tour(t, from, k - 1, plans).table;
    SlotOf(before, c);
    VisitFair(before, b, plans[k - 1], c);
  }

  lemma {:induction false} TurnIs(t: Table, from: nat, k: nat, c: Creature)
    requires from < EVENT_CREATURECOUNT && k < EVENT_CREATURECOUNT && c in t.slots
    requires t.slots[c].bucket < EVENT_CREATURECOUNT
    ensures TurnOf(t, from, c) == k <==> t.slots[c].bucket == (from + k) % EVENT_CREATURECOUNT
    ensures Passed(t.slots[c].bucket, from, k) <==> TurnOf(t, from, c) < k
  {
  }

  lemma {:induction false} TourReaches(t: Table, from: nat, k: nat, plans: seq<Plan>, c: Creature)
    requires OnTour(t, from, k, plans) && c in t.slots && TurnOf(t, from, c) < k
    ensures var r := Tour(t, from, k, plans); var turn := TurnOf(t, from, c);
      (c in t.flagged && NoneRemoves(plans, k, c) && SteadyAt(t, from, plans, turn) ==> c in r.done) &&
      (c !in t.flagged && NoneAdds(plans, k, c) && NoneInto(plans[turn], t.slots[c].bucket) ==> c !in r.table.slots)
    decreases k
  {
    hide Sound, AllProperPlans, SteadyAt, NoneInto, NeverRemoves, NeverAdds, Visit, ProperPlan, Passed, TurnOf;
    SlotOf(t, c);
    TourStep(t, from, k, plans);
    TurnIs(t, from, k - 1, c);
    if TurnOf(t, from, c) < k - 1 {
      TourReaches(t, from, k - 1, plans, c);
      TourSpares(t, from, k - 1, plans, c);
      var before := Tour(t, from, k - 1, plans).table;
      var b := (from + (k - 1)) % EVENT_CREATURECOUNT;
      VisitSpares(before, b, 0, |before.lists[b]|, plans[k - 1], c);
    } else {
      TourVisits(t, from, k, plans, c);
    }
  }

  /** Fairness: ten visits process every flagged creature that nobody unschedules, if the visit of its bucket is
      steady, and drop every stale one that nobody schedules again, if nothing is added to its bucket then;
      nobody is processed twice. */
  lemma {:induction false} TenVisitsFair(t: Table, from: nat, plans: seq<Plan>, c: Creature)
    requires Sound(t) && |t.lists| == EVENT_CREATURECOUNT && from < EVENT_CREATURECOUNT
    requires |plans| == EVENT_CREATURECOUNT && AllProperPlans(plans)
    ensures var r := Tour(t, from, 10, plans);
      Distinct(r.done) &&
      (c in t.flagged && NoneRemoves(plans, 10, c) ==>
         c in t.slots && c in r.table.flagged && (SteadyAt(t, from, plans, TurnOf(t, from, c)) ==> c in r.done)) &&
      (c !in t.flagged && NoneAdds(plans, 10, c) ==>
         c !in r.done &&
         (c !in t.slots || NoneInto(plans[TurnOf(t, from, c)], t.slots[c].bucket) ==> c !in r.table.slots))
  {
    SoundShape(t);
    hide Sound, AllProperPlans, SteadyAt, NoneRemoves, NoneAdds, NoneInto, TurnOf;
    TourDistinct(t, from, 10, plans);
    TourSpares(t, from, 10, plans, c);
    if c in t.slots {
      SlotOf(t, c);
      TourReaches(t, from, 10, plans, c);
    }
  }

  ghost predicate Idle(plan: Plan)
  {
    forall n: nat :: ActsOf(plan, n) == []
  }

  ghost predicate AllIdle(plans: seq<Plan>)
  {
    forall k :: 0 <= k < |plans| ==> Idle(plans[k])
  }

  lemma {:induction false} IdlePlan(plan: Plan, c: Creature, b: nat)
    requires Idle(plan)
    ensures ProperPlan(plan) && NeverRemoves(plan, c) && NeverAdds(plan, c) && NoneInto(plan, b)
  {
  }

  lemma {:induction false} IdlePlans(t: Table, from: nat, plans: seq<Plan>, c: Creature)
    requires |t.lists| == EVENT_CREATURECOUNT && AllIdle(plans)
    ensures AllProperPlans(plans) && NoneRemoves(plans, |plans|, c) && NoneAdds(plans, |plans|, c)
    ensures forall k :: 0 <= k < |plans| ==>
      SteadyAt(t, from, plans, k) && NoneInto(plans[k], (from + k) % EVENT_CREATURECOUNT)
  {
    hide Idle, ProperPlan, NeverRemoves, NeverAdds, NoneInto;
    forall k | 0 <= k < |plans|
      ensures ProperPlan(plans[k]) && NeverRemoves(plans[k], c) && NeverAdds(plans[k], c)
      ensures NoneInto(plans[k], (from + k) % EVENT_CREATURECOUNT)
    {
      IdlePlan(plans[k], c, (from + k) % EVENT_CREATURECOUNT);
    }
  }

  lemma {:induction false} NoPlanActs(plans: seq<Plan>)
    requires AllIdle(plans)
    ensures AllProperPlans(plans)
  {
  }

  /** With idle callbacks exactly the flagged creatures are processed, and they alone stay in the buckets. */
  lemma {:induction false} IdleTour(t: Table, from: nat, plans: seq<Plan>)
    requires Sound(t) && from < EVENT_CREATURECOUNT && |plans| == EVENT_CREATURECOUNT && AllIdle(plans)
    ensures AllProperPlans(plans)
    ensures var r := Tour(t, from, 10, plans);
      Distinct(r.done) && (forall c :: c in r.done <==> c in t.flagged) && r.table.flagged == t.flagged &&
        r.table.slots.Keys == t.flagged
  {
    SoundShape(t);
    NoPlanActs(plans);
    hide *;
    TourDistinct(t, from, 10, plans);
    var r := Tour(t, from, 10, plans);
    SoundShape(r.table);
    forall c: Creature
      ensures c in t.flagged ==> c in r.done && c in r.table.flagged
      ensures c !in t.flagged ==> c !in r.done && c !in r.table.slots
    {
      IdlePlans(t, from, plans, c);
      TenVisitsFair(t, from, plans, c);
      if c in t.slots {
        SlotOf(t, c);
        TurnIs(t, from, TurnOf(t, from, c), c);
      }
    }
  }
}
