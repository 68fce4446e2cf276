/** What scheduling and unscheduling do to flags, slots and buckets, and that who is unscheduled in
    time is not processed (src/game/game.cpp: addCreatureCheck, removeCreatureCheck, checkCreatures).
  */
module ScheduleActs {
  import opened ScheduleRules

  /** Unscheduling clears one flag and changes nothing else. */
  lemma {:induction false} RemoveClears(t: Table, c: Creature)
    requires Sound(t)
    ensures var r := Step(t, Remove(c));
      c !in r.flagged && (forall d :: d != c ==> (d in r.flagged <==> d in t.flagged)) &&
      r.lists == t.lists && r.slots == t.slots
  {
  }

  /** Scheduling sets one flag; who is in no bucket goes to the end of the one named, everybody else stays. */
  lemma {:induction false} AddFlags(t: Table, c: Creature, b: nat)
    requires Sound(t) && b < EVENT_CREATURECOUNT
    ensures var r := Step(t, Add(c, b));
      c in r.flagged && (forall d :: d != c ==> (d in r.flagged <==> d in t.flagged)) &&
      (forall d :: d in t.slots ==> d in r.slots && r.slots[d] == t.slots[d]) &&
      r.slots.Keys == t.slots.Keys + {c} && |r.lists| == EVENT_CREATURECOUNT &&
      forall b' :: 0 <= b' < EVENT_CREATURECOUNT ==>
        r.lists[b'] == t.lists[b'] + if b' == b && c !in t.slots then [c] else []
  {
  }

  /** The last action on c schedules it. */
  predicate LastAdds(acts: seq<Act>, c: Creature)
  {
    exists k :: 0 <= k < |acts| && acts[k].Add? && acts[k].c == c && forall j :: k < j < |acts| ==> acts[j].c != c
  }

  /** The last action on c unschedules it. */
  predicate LastRemoves(acts: seq<Act>, c: Creature)
  {
    exists k :: 0 <= k < |acts| && acts[k] == Remove(c) && forall j :: k < j < |acts| ==> acts[j].c != c
  }

  predicate Mentions(acts: seq<Act>, c: Creature)
  {
    exists k :: 0 <= k < |acts| && acts[k].c == c
  }

  /** The last word on c, one action more. */
  lemma {:induction false} OneActAdds(acts: seq<Act>, a: Act, c: Creature)
    ensures LastAdds(acts + [a], c) <==> if a.c == c then a.Add? else LastAdds(acts, c)
  {
    var all, n := acts + [a], |acts|;
    assert all[n] == a;
    if LastAdds(acts, c) && a.c != c {
      var k :| 0 <= k < n && acts[k].Add? && acts[k].c == c && forall j :: k < j < n ==> acts[j].c != c;
      assert all[k] == acts[k] && forall j :: k < j < |all| ==> all[j].c != c;
    }
    if LastAdds(all, c) && a.c != c {
      var k :| 0 <= k < |all| && all[k].Add? && all[k].c == c && forall j :: k < j < |all| ==> all[j].c != c;
      assert acts[k] == all[k] && forall j :: k < j < n ==> acts[j] == all[j];
    }
  }

  lemma {:induction false} OneActRemoves(acts: seq<Act>, a: Act, c: Creature)
    ensures LastRemoves(acts + [a], c) <==> if a.c == c then a.Remove? else LastRemoves(acts, c)
  {
    var all, n := acts + [a], |acts|;
    assert all[n] == a && (a.Remove? && a.c == c ==> a == Remove(c));
    if LastRemoves(acts, c) && a.c != c {
      var k :| 0 <= k < n && acts[k] == Remove(c) && forall j :: k < j < n ==> acts[j].c != c;
      assert all[k] == Remove(c) && forall j :: k < j < |all| ==> all[j].c != c;
    }
    if LastRemoves(all, c) && a.c != c {
      var k :| 0 <= k < |all| && all[k] == Remove(c) && forall j :: k < j < |all| ==> all[j].c != c;
      assert acts[k] == Remove(c) && forall j :: k < j < n ==> acts[j] == all[j];
    }
  }

  lemma {:induction false} OneActMore(acts: seq<Act>, a: Act, c: Creature)
    ensures Mentions(acts + [a], c) <==> a.c == c || Mentions(acts, c)
    ensures Shuns(acts + [a], c) <==> Shuns(acts, c) && (a.Remove? || a.c != c)
  {
    var all, n := acts + [a], |acts|;
    assert all[n] == a && forall k :: 0 <= k < n ==> all[k] == acts[k];
  }

  /** After any actions c is flagged exactly if the last of them on c schedules it, or there is none and it was; and it
      is in a bucket exactly if it was, in the same place then, or one of them schedules it. */
  lemma {:induction false} LastActDecides(t: Table, acts: seq<Act>, c: Creature)
    requires Sound(t) && |t.lists| == EVENT_CREATURECOUNT && AllProper(acts)
    ensures var r := Applied(t, acts);
      && (c in r.flagged <==> LastAdds(acts, c) || (!Mentions(acts, c) && c in t.flagged))
      && (LastRemoves(acts, c) ==> c !in r.flagged)
      && (c in r.slots <==> c in t.slots || !Shuns(acts, c))
      && (c in t.slots ==> c in r.slots && r.slots[c] == t.slots[c])
    decreases |acts|
  {
    if acts != [] {
      var n := |acts| - 1;
      var a, before := acts[n], acts[..n];
      assert acts == before + [a];
      OneActAdds(before, a, c);
      OneActRemoves(before, a, c);
      OneActMore(before, a, c);
      hide LastAdds, LastRemoves, Mentions, Shuns;
      LastActDecides(t, before, c);
      AppliedKeeps(t, before);
      var s := Applied(t, before);
      hide Sound, Applied;
      assert Proper(a);
      match a {
        case Add(d, b) => AddFlags(s, d, b);
        case Remove(d) => RemoveClears(s, d);
      }
      ActsEnd(t, acts);
    }
  }

  lemma {:induction false} ActsEnd(t: Table, acts: seq<Act>)
    requires |t.lists| == EVENT_CREATURECOUNT && AllProper(acts) && acts != []
    ensures Applied(t, acts) == Step(Applied(t, acts[..|acts| - 1]), acts[|acts| - 1])
  {
  }

  // ----- unscheduled before its turn -----

  /** A creature without its flag that no later callback schedules is not processed. */
  lemma {:induction false} StaysUnflagged(t: Table, b: nat, it: nat, end: nat, plan: Plan, c: Creature)
    requires Under(t, b, it, end, plan) && c !in t.flagged
    requires forall m: nat :: m >= it ==> Shuns(ActsOf(plan, m), c)
    ensures c !in Visit(t, b, it, end, plan).done
    decreases end - it
  {
    hide *;
    Shape(t, b, it, end, plan);
    if it == end {
      NothingLeft(t, b, it, plan);
    } else if t.lists[b][it] in t.flagged {
      Runs(t, b, it, end, plan);
      CallbackIs(t, b, it, end, plan);
      AppliedSpares(t, ActsOf(plan, it), c);
      StaysUnflagged(AfterCallback(t, b, it, end, plan), b, it + 1, end, plan, c);
    } else {
      Drops(t, b, it, end, plan);
      StaysUnflagged(Dropped(t, b, it), b, it, end - 1, plan, c);
    }
  }

  lemma {:induction false} CallbackIs(t: Table, b: nat, it: nat, end: nat, plan: Plan)
    requires Under(t, b, it, end, plan) && it < end
    ensures AllProper(ActsOf(plan, it)) && AfterCallback(t, b, it, end, plan) == Applied(t, ActsOf(plan, it))
  {
    hide Sound;
  }

  /** Callback n of the visit runs, c has not had its turn by then, and the callback unschedules it. */
  ghost predicate Dismissed(v: Visited, it: nat, plan: Plan, c: Creature, n: nat)
  {
    it <= n < it + |v.done| && c !in v.done[..n - it + 1] && LastRemoves(ActsOf(plan, n), c)
  }

  lemma {:induction false} DismissedLater(v: Visited, rest: Visited, it: nat, plan: Plan, c: Creature, n: nat,
      d: Creature)
    requires Dismissed(v, it, plan, c, n) && v.done == [d] + rest.done
    ensures c != d
    ensures n > it ==> Dismissed(rest, it + 1, plan, c, n)
  {
    assert v.done[..n - it + 1][0] == d;
    if n > it {
      assert v.done[..n - it + 1] == [d] + rest.done[..n - it];
    }
  }

  /** A creature unscheduled before its turn, and not scheduled again, is not processed. */
  lemma {:induction false} DismissedInTime(t: Table, b: nat, it: nat, end: nat, plan: Plan, c: Creature, n: nat)
    requires Under(t, b, it, end, plan) && Dismissed(Visit(t, b, it, end, plan), it, plan, c, n)
    requires forall m: nat :: m > n ==> Shuns(ActsOf(plan, m), c)
    ensures c !in Visit(t, b, it, end, plan).done
    decreases end - it
  {
    hide *;
    Shape(t, b, it, end, plan);
    var v := Visit(t, b, it, end, plan);
    if it == end {
      NothingLeft(t, b, it, plan);
    } else if t.lists[b][it] in t.flagged {
      Runs(t, b, it, end, plan);
      var next := AfterCallback(t, b, it, end, plan);
      var rest := Visit(next, b, it + 1, end, plan);
      DismissedLater(v, rest, it, plan, c, n, t.lists[b][it]);
      AtLeast(v, it, plan, c, n);
      if n > it {
        DismissedInTime(next, b, it + 1, end, plan, c, n);
      } else {
        CallbackIs(t, b, it, end, plan);
        LastActDecides(t, ActsOf(plan, it), c);
        StaysUnflagged(next, b, it + 1, end, plan, c);
      }
    } else {
      Drops(t, b, it, end, plan);
      SameDone(v, Visit(Dropped(t, b, it), b, it, end - 1, plan), it, plan, c, n);
      DismissedInTime(Dropped(t, b, it), b, it, end - 1, plan, c, n);
    }
  }

  lemma {:induction false} AtLeast(v: Visited, it: nat, plan: Plan, c: Creature, n: nat)
    requires Dismissed(v, it, plan, c, n)
    ensures n >= it && LastRemoves(ActsOf(plan, n), c)
  {
  }

  lemma {:induction false} SameDone(v: Visited, w: Visited, it: nat, plan: Plan, c: Creature, n: nat)
    requires Dismissed(v, it, plan, c, n) && v.done == w.done
    ensures Dismissed(w, it, plan, c, n)
  {
  }

  /** With nothing added to its bucket it also loses its slot. */
  lemma {:induction false} DismissedDrops(t: Table, b: nat, it: nat, end: nat, plan: Plan, p: nat, n: nat)
    requires Under(t, b, it, end, plan) && it <= p < end == |t.lists[b]| && NoneInto(plan, b)
    requires NeverAdds(plan, t.lists[b][p]) && Dismissed(Visit(t, b, it, end, plan), it, plan, t.lists[b][p], n)
    ensures t.lists[b][p] !in Visit(t, b, it, end, plan).table.slots
    decreases end - it
  {
    hide *;
    Shape(t, b, it, end, plan);
    var c := t.lists[b][p];
    var v := Visit(t, b, it, end, plan);
    if t.lists[b][it] in t.flagged {
      Runs(t, b, it, end, plan);
      var next := AfterCallback(t, b, it, end, plan);
      CallbackSpares(t, b, it, end, plan, c);
      DismissedLater(v, Visit(next, b, it + 1, end, plan), it, plan, c, n, t.lists[b][it]);
      AtLeast(v, it, plan, c, n);
      if n > it {
        DismissedDrops(next, b, it + 1, end, plan, p, n);
      } else {
        CallbackIs(t, b, it, end, plan);
        LastActDecides(t, ActsOf(plan, it), c);
        VisitReaches(next, b, it + 1, end, plan, p);
      }
    } else {
      Drops(t, b, it, end, plan);
      var next := Dropped(t, b, it);
      if it == p {
        VisitSpares(next, b, it, end - 1, plan, c);
      } else {
        SameDone(v, Visit(next, b, it, end - 1, plan), it, plan, c, n);
        DismissedDrops(next, b, it, end - 1, plan, if p == end - 1 then it else p, n);
      }
    }
  }

  /** In a whole visit: a creature of the bucket that a callback unschedules before its turn and none schedules again is
      not processed, and its slot is gone if nothing is added to the bucket. */
  lemma {:induction false} UnscheduledInVisit(t: Table, b: nat, plan: Plan, c: Creature, n: nat)
    requires Sound(t) && |t.lists| == EVENT_CREATURECOUNT && b < EVENT_CREATURECOUNT && ProperPlan(plan)
    requires Dismissed(WholeVisit(t, b, plan), 0, plan, c, n) && forall m: nat :: m > n ==> Shuns(ActsOf(plan, m), c)
    ensures c !in WholeVisit(t, b, plan).done
    ensures c in t.lists[b] && NoneInto(plan, b) && NeverAdds(plan, c) ==> c !in WholeVisit(t, b, plan).table.slots
  {
    hide Visit, Sound, ProperPlan, NoneInto, NeverAdds, Dismissed, Shuns;
    DismissedInTime(t, b, 0, |t.lists[b]|, plan, c, n);
    if c in t.lists[b] && NoneInto(plan, b) && NeverAdds(plan, c) {
      var p: nat :| p < |t.lists[b]| && t.lists[b][p] == c;
      DismissedDrops(t, b, 0, |t.lists[b]|, plan, p, n);
    }
  }

  /** A creature that is scheduled and unscheduled again before the visit is not processed, and its entry is dropped. */
  lemma {:induction false} UnscheduledBefore(t: Table, c: Creature, b: nat, plan: Plan)
    requires Sound(t) && |t.lists| == EVENT_CREATURECOUNT && b < EVENT_CREATURECOUNT && ProperPlan(plan)
    requires c !in t.slots && NoneInto(plan, b) && NeverAdds(plan, c)
    ensures var s := Step(Step(t, Add(c, b)), Remove(c));
      c in s.lists[b] && c !in WholeVisit(s, b, plan).done && c !in WholeVisit(s, b, plan).table.slots
  {
    var first := Step(t, Add(c, b));
    var s := Step(first, Remove(c));
    AddFlags(t, c, b);
    AddedKeeps(t, c, b);
    RemoveClears(first, c);
    RemovedKeeps(first, c);
    hide Step, Sound, Visit, ProperPlan, NoneInto, NeverAdds;
    var p := |s.lists[b]| - 1;
    assert s.lists[b][p] == c;
    VisitReaches(s, b, 0, |s.lists[b]|, plan, p);
    VisitSpares(s, b, 0, |s.lists[b]|, plan, c);
  }
}
