/** Who is processed in a visit during which callbacks schedule others
    (src/game/game.cpp: checkCreatures).

    A stale entry is dropped by moving the last element into its slot. If callbacks have added
    elements by then, one of these takes the slot and the last entry of the visit falls behind
    its end. Which buckets this can harm is read off the bucket before the visit.
  */
module ScheduleFairness {
  import opened ScheduleRules

  // ----- the condition, on the bucket -----

  /** Position of the last flagged entry, or -1. */
  function LastFlagged(l: seq<Creature>, flagged: set<Creature>): (p: int)
    ensures -1 <= p < |l| && (p >= 0 ==> l[p] in flagged)
    ensures forall j :: p < j < |l| ==> l[j] !in flagged
  {
    if l == [] then -1
    else if l[|l| - 1] in flagged then |l| - 1
    else LastFlagged(l[..|l| - 1], flagged)
  }

  function StaleCount(l: seq<Creature>, flagged: set<Creature>): nat
  {
    if l == [] then 0 else (if l[0] in flagged then 0 else 1) + StaleCount(l[1..], flagged)
  }

  /** What is left when the first callback runs: in place of stale entries in front, the last flagged one. */
  function Front(l: seq<Creature>, flagged: set<Creature>): seq<Creature>
  {
    if l == [] || l[0] in flagged then l
    else
      var p := LastFlagged(l, flagged);
      if p < 0 then [] else [l[p]] + l[1..p]
  }

  /** No stale entry lies before the last flagged one, or a single one does and another lies behind. */
  predicate AlwaysFair(l: seq<Creature>, flagged: set<Creature>)
  {
    var r := Front(l, flagged);
    var p := LastFlagged(r, flagged);
    p < 0 ||
    var stale := StaleCount(r[..p], flagged);
    stale == 0 || (stale == 1 && p < |r| - 1)
  }

  lemma {:induction false} StaleSplit(a: seq<Creature>, b: seq<Creature>, flagged: set<Creature>)
    ensures StaleCount(a + b, flagged) == StaleCount(a, flagged) + StaleCount(b, flagged)
  {
    if a == [] {
      assert a + b == b;
    } else {
      assert (a + b)[1..] == a[1..] + b;
      StaleSplit(a[1..], b, flagged);
    }
  }

  lemma {:induction false} StaleAtMost(l: seq<Creature>, flagged: set<Creature>)
    ensures StaleCount(l, flagged) <= |l|
  {
    if l != [] {
      StaleAtMost(l[1..], flagged);
    }
  }

  lemma {:induction false} NoStale(l: seq<Creature>, flagged: set<Creature>)
    ensures StaleCount(l, flagged) == 0 <==> forall i :: 0 <= i < |l| ==> l[i] in flagged
  {
    if l != [] {
      NoStale(l[1..], flagged);
      assert forall i :: 0 < i < |l| ==> l[i] == l[1..][i - 1];
    }
  }

  lemma {:induction false} StaleSame(l: seq<Creature>, f: set<Creature>, g: set<Creature>)
    requires forall i :: 0 <= i < |l| ==> (l[i] in f <==> l[i] in g)
    ensures StaleCount(l, f) == StaleCount(l, g)
  {
    if l != [] {
      StaleSame(l[1..], f, g);
    }
  }

  /** Where the only stale entry is. */
  lemma {:induction false} OnlyStale(l: seq<Creature>, flagged: set<Creature>) returns (s: nat)
    requires StaleCount(l, flagged) == 1
    ensures s < |l| && l[s] !in flagged && forall i :: 0 <= i < |l| && i != s ==> l[i] in flagged
  {
    if l[0] in flagged {
      var r := OnlyStale(l[1..], flagged);
      s := r + 1;
      assert forall i :: 0 < i < |l| ==> l[i] == l[1..][i - 1];
    } else {
      s := 0;
      NoStale(l[1..], flagged);
      assert forall i :: 0 < i < |l| ==> l[i] == l[1..][i - 1];
    }
  }

  lemma {:induction false} FrontHolds(l: seq<Creature>, flagged: set<Creature>, c: Creature)
    requires c in flagged
    ensures c in l <==> c in Front(l, flagged)
  {
    var p := LastFlagged(l, flagged);
    if c in l && l[0] !in flagged {
      var i :| 0 <= i < |l| && l[i] == c;
      assert 0 < i <= p;
      assert i < p ==> l[1..p][i - 1] == c;
    }
  }

  /** A bucket without stale entries is one of these. */
  lemma {:induction false} NoneStaleIsFair(t: Table, b: nat)
    requires b < |t.lists| && NoneStale(t, b)
    ensures AlwaysFair(t.lists[b], t.flagged)
  {
    var p := LastFlagged(t.lists[b], t.flagged);
    if p >= 0 {
      NoStale(t.lists[b][..p], t.flagged);
    }
  }

  // ----- before the first callback -----

  /** The table once the stale entries in front are gone. */
  function Shed(t: Table, b: nat): (r: Table)
    requires b < |t.lists|
    ensures |r.lists| == |t.lists|
    decreases if b < |t.lists| then |t.lists[b]| else 0
  {
    if t.lists[b] == [] || t.lists[b][0] in t.flagged then t
    else
      assert InRange(t, At(b, 0));
      Shed(Dropped(t, b, 0), b)
  }

  lemma {:induction false} FrontStep(l: seq<Creature>, flagged: set<Creature>)
    requires l != [] && l[0] !in flagged
    ensures Front(l, flagged) == Front(l[0 := l[|l| - 1]][..|l| - 1], flagged)
  {
    var n := |l| - 1;
    var r := l[0 := l[n]][..n];
    var p, q := LastFlagged(l, flagged), LastFlagged(r, flagged);
    if n > 0 {
      if l[n] in flagged {
        assert r == [l[n]] + l[1..n];
      } else if p >= 0 {
        assert p > 0 && r[p] == l[p] && q == p;
        assert r[1..p] == l[1..p];
      }
    }
  }

  /** Dropping them runs no callback. */
  lemma {:induction false} ShedVisit(t: Table, b: nat, plan: Plan)
    requires Sound(t) && |t.lists| == EVENT_CREATURECOUNT && b < EVENT_CREATURECOUNT && ProperPlan(plan)
    ensures WholeVisit(Shed(t, b), b, plan).done == WholeVisit(t, b, plan).done
    decreases |t.lists[b]|
  {
    hide Sound, ProperPlan, Visit;
    if t.lists[b] != [] && t.lists[b][0] !in t.flagged {
      Drops(t, b, 0, |t.lists[b]|, plan);
      ShedVisit(Dropped(t, b, 0), b, plan);
    }
  }

  lemma {:induction false} ShedStep(t: Table, b: nat)
    requires Sound(t) && |t.lists| == EVENT_CREATURECOUNT && b < EVENT_CREATURECOUNT
    ensures if t.lists[b] == [] || t.lists[b][0] in t.flagged then
        Shed(t, b) == t && Front(t.lists[b], t.flagged) == t.lists[b]
      else
        InRange(t, At(b, 0)) && Entry(t, b, 0) == t.lists[b][0] && Shed(t, b) == Shed(Dropped(t, b, 0), b) &&
        Dropped(t, b, 0).lists[b] == t.lists[b][0 := t.lists[b][|t.lists[b]| - 1]][..|t.lists[b]| - 1]
  {
    hide Sound, LastFlagged;
  }

  lemma {:induction false} ShedIs(t: Table, b: nat)
    requires Sound(t) && |t.lists| == EVENT_CREATURECOUNT && b < EVENT_CREATURECOUNT
    ensures var r := Shed(t, b);
      Sound(r) && r.lists[b] == Front(t.lists[b], t.flagged) && r.flagged == t.flagged && r.slots.Keys <= t.slots.Keys
    decreases |t.lists[b]|
  {
    hide Sound, Front, Shed, Dropped, InRange, Entry;
    ShedStep(t, b);
    if t.lists[b] != [] && t.lists[b][0] !in t.flagged {
      DroppedKeeps(t, b, 0);
      FrontStep(t.lists[b], t.flagged);
      ShedIs(Dropped(t, b, 0), b);
    }
  }

  // ----- such buckets are fair -----

  lemma {:induction false} PrefixHas(t: Table, b: nat, it: nat, end: nat, plan: Plan, q: nat, p: nat)
    requires Under(t, b, it, end, plan) && RemovesNobody(plan) && it <= p < q <= end
    requires forall j :: it <= j < q ==> t.lists[b][j] in t.flagged
    ensures t.lists[b][p] in Visit(t, b, it, end, plan).done
  {
    hide Sound, ProperPlan, RemovesNobody, NeverRemoves, Visit;
    forall j | it <= j < q
      ensures NeverRemoves(plan, t.lists[b][j])
    {
      NobodyRemoved(plan, t.lists[b][j]);
    }
    VisitPrefix(t, b, it, end, plan, q);
    var done := Visit(t, b, it, end, plan).done;
    assert done[p - it] == t.lists[b][it..q][p - it];
  }

  /** Entry s is stale at most, and the last of the first f + 1 entries is not the last of the visit,
      unless nothing was added and s is next. */
  ghost predicate OneAtMost(t: Table, b: nat, it: nat, end: nat, plan: Plan, s: nat, f: nat)
  {
    Under(t, b, it, end, plan) && RemovesNobody(plan) && it <= s < f < end && FlaggedFrom(t, b, end) &&
    (forall j :: it <= j <= f && j != s ==> t.lists[b][j] in t.flagged) &&
    (end == f + 1 ==> it == s && |t.lists[b]| == end)
  }

  /** An addition takes the place of the stale entry, or else a flagged entry from behind does. */
  lemma {:induction false} OneStale(t: Table, b: nat, it: nat, end: nat, plan: Plan, s: nat, f: nat, p: nat)
    requires OneAtMost(t, b, it, end, plan, s, f) && it <= p <= f && p != s
    ensures t.lists[b][p] in Visit(t, b, it, end, plan).done
    decreases end - it
  {
    hide Sound, ProperPlan, Visit, RemovesNobody, AfterCallback;
    if it < s {
      Runs(t, b, it, end, plan);
      CallbackFresh(t, b, it, end, plan, b, end);
      if it < p {
        OneStale(AfterCallback(t, b, it, end, plan), b, it + 1, end, plan, s, f, p);
      }
    } else if t.lists[b][s] in t.flagged {
      PrefixHas(t, b, it, end, plan, f + 1, p);
    } else {
      Drops(t, b, it, end, plan);
      var next := Dropped(t, b, it);
      if end == f + 1 {
        PrefixHas(next, b, it, end - 1, plan, f, if p == f then s else p);
      } else if next.lists[b][s] in next.flagged {
        PrefixHas(next, b, it, end - 1, plan, f + 1, p);
      } else {
        OneStale(next, b, it, end - 1, plan, s, f, p);
      }
    }
  }

  /** The bucket begins with a flagged entry. */
  lemma {:induction false} FairVisit(t: Table, b: nat, plan: Plan, c: Creature)
    requires Sound(t) && |t.lists| == EVENT_CREATURECOUNT && b < EVENT_CREATURECOUNT && ProperPlan(plan)
    requires RemovesNobody(plan) && c in t.lists[b] && c in t.flagged && t.lists[b][0] in t.flagged
    requires AlwaysFair(t.lists[b], t.flagged)
    ensures c in WholeVisit(t, b, plan).done
  {
    hide Sound, ProperPlan, Visit, RemovesNobody;
    var l := t.lists[b];
    var f := LastFlagged(l, t.flagged);
    var p: nat :| p < |l| && l[p] == c;
    assert p <= f;
    var stale := StaleCount(l[..f], t.flagged);
    if stale == 0 {
      NoStale(l[..f], t.flagged);
      assert forall j :: 0 <= j < f ==> l[j] == l[..f][j];
      PrefixHas(t, b, 0, |l|, plan, f + 1, p);
    } else {
      var s := OnlyStale(l[..f], t.flagged);
      assert forall j :: 0 <= j < f ==> l[j] == l[..f][j];
      OneStale(t, b, 0, |l|, plan, s, f, p);
    }
  }

  /** A visit is fair if nothing is added to its bucket, or the bucket is always fair and nobody is unscheduled.
      Stale entries are sure to go only if nothing is added. */
  lemma {:induction false} VisitFair(t: Table, b: nat, plan: Plan, c: Creature)
    requires Sound(t) && b < EVENT_CREATURECOUNT && ProperPlan(plan) && c in t.lists[b]
    ensures var r := WholeVisit(t, b, plan);
      (NoneInto(plan, b) || (AlwaysFair(t.lists[b], t.flagged) && RemovesNobody(plan)) ==>
         c in t.flagged && NeverRemoves(plan, c) ==> c in r.done) &&
      (NoneInto(plan, b) || NoneStale(t, b) ==> c !in t.flagged && NeverAdds(plan, c) ==> c !in r.table.slots)
  {
    SoundShape(t);
    hide Sound, Visit, ProperPlan, NeverRemoves, NeverAdds, NoneInto, RemovesNobody, AlwaysFair;
    var p: nat :| p < |t.lists[b]| && t.lists[b][p] == c;
    if NoneInto(plan, b) {
      VisitReaches(t, b, 0, |t.lists[b]|, plan, p);
    } else if AlwaysFair(t.lists[b], t.flagged) && RemovesNobody(plan) && c in t.flagged {
      ShedIs(t, b);
      ShedVisit(t, b, plan);
      FrontHolds(t.lists[b], t.flagged, c);
      FrontAgain(t.lists[b], t.flagged);
      FairVisit(Shed(t, b), b, plan, c);
    }
  }

  lemma {:induction false} FrontAgain(l: seq<Creature>, flagged: set<Creature>)
    ensures var r := Front(l, flagged);
      Front(r, flagged) == r && (r != [] ==> r[0] in flagged) && (AlwaysFair(r, flagged) <==> AlwaysFair(l, flagged))
  {
  }

  // ----- all others are not -----

  function Additions(spare: seq<Creature>, b: nat): (r: seq<Act>)
    ensures |r| == |spare| && forall k :: 0 <= k < |r| ==> r[k] == Add(spare[k], b)
  {
    seq(|spare|, k requires 0 <= k < |spare| => Add(spare[k], b))
  }

  /** Only the first callback acts: it schedules the spare creatures for bucket b. */
  function Crowd(spare: seq<Creature>, b: nat): Plan
  {
    n => if n == 0 then Additions(spare, b) else []
  }

  /** Creatures in no bucket, each named once. */
  ghost predicate Spare(t: Table, spare: seq<Creature>)
  {
    forall i :: 0 <= i < |spare| ==> spare[i] !in t.slots && spare[i] !in spare[..i]
  }

  lemma {:induction false} CrowdIs(spare: seq<Creature>, b: nat, n: nat)
    requires b < EVENT_CREATURECOUNT
    ensures ActsOf(Crowd(spare, b), n) == if n == 0 then Additions(spare, b) else []
    ensures ProperPlan(Crowd(spare, b)) && RemovesNobody(Crowd(spare, b))
  {
    hide Additions;
    assert forall k: nat :: ActsOf(Crowd(spare, b), k) == if k == 0 then Additions(spare, b) else [];
  }

  lemma {:induction false} CrowdArrives(t: Table, spare: seq<Creature>, b: nat)
    requires |t.lists| == EVENT_CREATURECOUNT && b < EVENT_CREATURECOUNT && Spare(t, spare)
    ensures var r := Applied(t, Additions(spare, b));
      r.lists[b] == t.lists[b] + spare && forall c :: c in r.slots ==> c in t.slots || c in spare
    decreases |spare|
  {
    hide Added, Additions, Applied, Spare;
    if spare == [] {
      NoAdditions(t, b);
      assert t.lists[b] + spare == t.lists[b];
    } else {
      var n := |spare| - 1;
      SpareSplit(t, spare);
      CrowdArrives(t, spare[..n], b);
      LastAddition(t, spare, b);
      NewEntry(Applied(t, Additions(spare[..n], b)), spare[n], b);
      assert t.lists[b] + spare == t.lists[b] + spare[..n] + [spare[n]];
    }
  }

  lemma {:induction false} NewEntry(t: Table, c: Creature, b: nat)
    requires b < |t.lists| && c !in t.slots
    ensures var r := Added(t, c, b); r.lists[b] == t.lists[b] + [c] && r.slots.Keys == t.slots.Keys + {c}
  {
  }

  lemma {:induction false} NoAdditions(t: Table, b: nat)
    requires |t.lists| == EVENT_CREATURECOUNT && b < EVENT_CREATURECOUNT
    ensures Additions([], b) == [] && Applied(t, []) == t
  {
  }

  lemma {:induction false} SpareSplit(t: Table, spare: seq<Creature>)
    requires Spare(t, spare) && spare != []
    ensures var n := |spare| - 1; Spare(t, spare[..n]) && spare[n] !in t.slots && spare[n] !in spare[..n]
  {
    assert forall i :: 0 <= i < |spare| - 1 ==> spare[..|spare| - 1][..i] == spare[..i];
  }

  lemma {:induction false} LastAddition(t: Table, spare: seq<Creature>, b: nat)
    requires |t.lists| == EVENT_CREATURECOUNT && b < EVENT_CREATURECOUNT && spare != []
    ensures var n := |spare| - 1;
      Applied(t, Additions(spare, b)) == Added(Applied(t, Additions(spare[..n], b)), spare[n], b)
  {
    assert Additions(spare, b)[..|spare| - 1] == Additions(spare[..|spare| - 1], b);
    hide Added;
  }

  lemma {:induction false} IdleCallback(t: Table, b: nat, it: nat, end: nat, plan: Plan)
    requires Under(t, b, it, end, plan) && it < end && ActsOf(plan, it) == []
    ensures AfterCallback(t, b, it, end, plan) == t
  {
    hide Sound, ProperPlan;
  }

  /** Once the bucket is crowded, every stale entry costs the last of the first m entries its turn. */
  lemma {:induction false} PushedOut(t: Table, b: nat, it: nat, end: nat, plan: Plan, m: nat)
    requires Under(t, b, it, end, plan) && 1 <= it <= end <= m && m + end <= |t.lists[b]|
    requires forall n: nat :: n >= 1 ==> ActsOf(plan, n) == []
    requires t.lists[b][m - 1] in t.flagged
    requires end < m || exists s :: it <= s < end && t.lists[b][s] !in t.flagged
    ensures t.lists[b][m - 1] !in Visit(t, b, it, end, plan).done
    decreases end - it
  {
    hide Sound, ProperPlan, Visit, AfterCallback;
    if it == end {
      NothingLeft(t, b, it, plan);
    } else if t.lists[b][it] in t.flagged {
      Runs(t, b, it, end, plan);
      IdleCallback(t, b, it, end, plan);
      PushedOut(t, b, it + 1, end, plan, m);
      EntriesDiffer(t, b, it, m - 1);
    } else {
      Drops(t, b, it, end, plan);
      PushedOut(Dropped(t, b, it), b, it, end - 1, plan, m);
    }
  }

  /** The table once the first callback has crowded the bucket. */
  lemma {:induction false} Crowded(t: Table, b: nat, spare: seq<Creature>)
    requires |t.lists| == EVENT_CREATURECOUNT && b < EVENT_CREATURECOUNT &&
      Under(t, b, 0, |t.lists[b]|, Crowd(spare, b)) && Spare(t, spare)
    requires t.lists[b] != [] && t.lists[b][0] in t.flagged
    ensures var plan, l := Crowd(spare, b), t.lists[b]; var next := AfterCallback(t, b, 0, |l|, plan);
      Under(next, b, 1, |l|, plan) && next.lists[b] == l + spare &&
      (forall i :: 0 <= i < |l| ==> (l[i] in t.flagged <==> l[i] in next.flagged)) &&
      WholeVisit(t, b, plan).done == [l[0]] + Visit(next, b, 1, |l|, plan).done
  {
    hide Visit, Sound, ProperPlan, Additions, Spare;
    CrowdIs(spare, b, 0);
    Runs(t, b, 0, |t.lists[b]|, Crowd(spare, b));
    CrowdArrives(t, spare, b);
    forall i | 0 <= i < |t.lists[b]|
      ensures var c := t.lists[b][i]; c in t.flagged <==> c in Applied(t, Additions(spare, b)).flagged
    {
      EntrySpared(t, b, i, spare);
    }
  }

  /** The last entry is not processed though it is flagged and nobody unschedules it. */
  lemma {:induction false} LastMissed(t: Table, b: nat, s: nat, spare: seq<Creature>)
    requires Sound(t) && b < EVENT_CREATURECOUNT && 0 < s < |t.lists[b]| - 1 && t.lists[b][s] !in t.flagged
    requires t.lists[b][0] in t.flagged && t.lists[b][|t.lists[b]| - 1] in t.flagged
    requires Spare(t, spare) && |spare| >= |t.lists[b]|
    ensures ProperPlan(Crowd(spare, b)) && RemovesNobody(Crowd(spare, b))
    ensures t.lists[b][|t.lists[b]| - 1] !in WholeVisit(t, b, Crowd(spare, b)).done
  {
    hide Sound, Spare, ProperPlan, RemovesNobody, Crowd, Visit, AfterCallback, WholeVisit;
    SoundShape(t);
    var plan, m := Crowd(spare, b), |t.lists[b]|;
    CrowdIs(spare, b, 0);
    Crowded(t, b, spare);
    var next := AfterCallback(t, b, 0, m, plan);
    forall n: nat | n >= 1
      ensures ActsOf(plan, n) == []
    {
      CrowdIs(spare, b, n);
    }
    assert next.lists[b][s] == t.lists[b][s] && next.lists[b][m - 1] == t.lists[b][m - 1];
    PushedOut(next, b, 1, m, plan, m);
    EntriesDiffer(t, b, 0, m - 1);
  }

  /** Nothing acts any more, and there are more elements than the visit goes through. */
  ghost predicate Quiet(t: Table, b: nat, it: nat, end: nat, plan: Plan, f: nat)
  {
    Under(t, b, it, end, plan) && RemovesNobody(plan) && 1 <= it <= end < |t.lists[b]| && it <= f < |t.lists[b]| &&
    t.lists[b][f] in t.flagged && forall n: nat :: n >= 1 ==> ActsOf(plan, n) == []
  }

  /** One of the last two flagged entries is not processed. */
  ghost predicate Misses(t: Table, b: nat, done: seq<Creature>, f: nat)
    requires b < |t.lists| && f < |t.lists[b]|
  {
    t.lists[b][f] !in done || (f > 0 && t.lists[b][f - 1] in t.flagged && t.lists[b][f - 1] !in done)
  }

  /** At the last stale entry the elements from behind are stale too, down to the flagged entry f. It comes
      in at last, but by then the visit ends before f - 1. */
  lemma {:induction false} LastStale(t: Table, b: nat, it: nat, end: nat, plan: Plan, f: nat)
    requires Quiet(t, b, it, end, plan, f) && it < f && t.lists[b][it] !in t.flagged
    requires forall j :: it < j <= f ==> t.lists[b][j] in t.flagged
    requires forall j :: f < j < |t.lists[b]| ==> t.lists[b][j] !in t.flagged
    ensures Misses(t, b, Visit(t, b, it, end, plan).done, f)
    decreases end - it
  {
    hide Sound, ProperPlan, Visit, NeverRemoves, RemovesNobody;
    if it == end {
      NothingLeft(t, b, it, plan);
    } else {
      Drops(t, b, it, end, plan);
      var next := Dropped(t, b, it);
      if |t.lists[b]| - 1 > f {
        LastStale(next, b, it, end - 1, plan, f);
      } else {
        forall j | it <= j < end - 1
          ensures next.lists[b][j] in next.flagged && NeverRemoves(plan, next.lists[b][j])
        {
          NobodyRemoved(plan, next.lists[b][j]);
        }
        VisitWhole(next, b, it, end - 1, plan);
        if it < end - 1 {
          NotAmong(next, b, it, end - 1, f - 1);
        }
      }
    }
  }

  lemma {:induction false} NotAmong(t: Table, b: nat, i: nat, j: nat, p: nat)
    requires Sound(t) && b < |t.lists| && i <= j <= p < |t.lists[b]|
    ensures t.lists[b][p] !in t.lists[b][i..j]
  {
    forall k | i <= k < j
      ensures t.lists[b][k] != t.lists[b][p]
    {
      EntriesDiffer(t, b, k, p);
    }
  }

  /** As many stale entries before the flagged entry f as there are additions left and one more: the additions take
      the slots of all but the last. */
  ghost predicate Starved(t: Table, b: nat, it: nat, f: nat, stale: nat)
    requires b < |t.lists| && it <= f < |t.lists[b]|
  {
    var n := |t.lists[b]| - (stale - 1);
    stale >= 1 && StaleCount(t.lists[b][it..f], t.flagged) == stale && f < n &&
    (forall j :: f < j < n ==> t.lists[b][j] !in t.flagged) && FlaggedFrom(t, b, n)
  }

  lemma {:induction false} StarvedRuns(t: Table, b: nat, it: nat, f: nat, stale: nat)
    requires b < |t.lists| && it <= f < |t.lists[b]| && Starved(t, b, it, f, stale) && t.lists[b][it] in t.flagged
    ensures it + 1 < f && Starved(t, b, it + 1, f, stale)
  {
    var l := t.lists[b][it..f];
    StaleAtMost(l, t.flagged);
    assert l[0] == t.lists[b][it] && l[1..] == t.lists[b][it + 1..f];
    StaleAtMost(l[1..], t.flagged);
  }

  lemma {:induction false} StarvedDrops(t: Table, b: nat, it: nat, f: nat, stale: nat)
    requires b < |t.lists| && it < f < |t.lists[b]| && Starved(t, b, it, f, stale)
    requires InRange(t, At(b, it)) && t.lists[b][it] !in t.flagged
    ensures stale >= 1 && (stale == 1 ==> forall j :: it < j < f ==> t.lists[b][j] in t.flagged)
    ensures var next := Dropped(t, b, it);
      stale > 1 ==>
        it + 1 < f < |next.lists[b]| && Starved(next, b, it, f, stale - 1) &&
        next.lists[b][f] == t.lists[b][f] && next.lists[b][f - 1] == t.lists[b][f - 1]
  {
    var l := t.lists[b];
    assert l[it..f] == [l[it]] + l[it + 1..f];
    if stale == 1 {
      NoStale(l[it + 1..f], t.flagged);
      assert forall j :: it < j < f ==> l[j] == l[it + 1..f][j - it - 1];
    } else {
      var r := Dropped(t, b, it).lists[b];
      assert r[it..f] == [r[it]] + l[it + 1..f];
      assert r[it] in t.flagged;
      StaleAtMost(l[it + 1..f], t.flagged);
    }
  }

  lemma {:induction false} ManyStale(t: Table, b: nat, it: nat, end: nat, plan: Plan, f: nat, stale: nat)
    requires Quiet(t, b, it, end, plan, f) && Starved(t, b, it, f, stale)
    ensures Misses(t, b, Visit(t, b, it, end, plan).done, f)
    decreases end - it
  {
    hide Sound, ProperPlan, Visit, RemovesNobody, AfterCallback, Starved;
    if it == end {
      NothingLeft(t, b, it, plan);
    } else if t.lists[b][it] in t.flagged {
      Runs(t, b, it, end, plan);
      IdleCallback(t, b, it, end, plan);
      StarvedRuns(t, b, it, f, stale);
      ManyStale(t, b, it + 1, end, plan, f, stale);
      EntriesDiffer(t, b, it, f);
      EntriesDiffer(t, b, it, f - 1);
    } else {
      Drops(t, b, it, end, plan);
      StarvedDrops(t, b, it, f, stale);
      if stale == 1 {
        LastOfThem(t, b, it, f);
        LastStale(t, b, it, end, plan, f);
      } else {
        ManyStale(Dropped(t, b, it), b, it, end - 1, plan, f, stale - 1);
      }
    }
  }

  lemma {:induction false} LastOfThem(t: Table, b: nat, it: nat, f: nat)
    requires b < |t.lists| && it < f < |t.lists[b]| && Starved(t, b, it, f, 1)
    ensures forall j :: f < j < |t.lists[b]| ==> t.lists[b][j] !in t.flagged
  {
  }

  lemma {:induction false} StarvedAtFirst(t: Table, next: Table, b: nat, f: nat, spare: seq<Creature>)
    requires b < |t.lists| && b < |next.lists| && f < |t.lists[b]| && t.lists[b][0] in t.flagged
    requires LastFlagged(t.lists[b], t.flagged) == f && |spare| == StaleCount(t.lists[b][..f], t.flagged) - 1 > 0
    requires next.lists[b] == t.lists[b] + spare && FlaggedFrom(next, b, |t.lists[b]|)
    requires forall i :: 0 <= i < |t.lists[b]| ==> (t.lists[b][i] in t.flagged <==> t.lists[b][i] in next.flagged)
    ensures f > 1 && Starved(next, b, 1, f, |spare| + 1)
  {
    var l := t.lists[b];
    StaleAtMost(l[..f], t.flagged);
    assert l[..f] == [l[0]] + l[1..f] && next.lists[b][1..f] == l[1..f];
    StaleSame(l[1..f], t.flagged, next.flagged);
    StaleAtMost(l[1..f], t.flagged);
  }

  /** With two stale entries or more before the last flagged one, one addition less than these is enough. */
  lemma {:induction false} OneMissed(t: Table, b: nat, f: nat, spare: seq<Creature>)
    requires Sound(t) && |t.lists| == EVENT_CREATURECOUNT && b < EVENT_CREATURECOUNT && f < |t.lists[b]|
    requires t.lists[b][0] in t.flagged && LastFlagged(t.lists[b], t.flagged) == f
    requires Spare(t, spare) && |spare| == StaleCount(t.lists[b][..f], t.flagged) - 1 > 0
    ensures ProperPlan(Crowd(spare, b)) && RemovesNobody(Crowd(spare, b))
    ensures Misses(t, b, WholeVisit(t, b, Crowd(spare, b)).done, f)
  {
    hide Sound, Spare, ProperPlan, RemovesNobody, Crowd, Visit, AfterCallback, WholeVisit;
    var plan, l := Crowd(spare, b), t.lists[b];
    CrowdIs(spare, b, 0);
    Crowded(t, b, spare);
    var next := AfterCallback(t, b, 0, |l|, plan);
    CallbackFresh(t, b, 0, |l|, plan, b, |l|);
    forall n: nat | n >= 1
      ensures ActsOf(plan, n) == []
    {
      CrowdIs(spare, b, n);
    }
    StarvedAtFirst(t, next, b, f, spare);
    ManyStale(next, b, 1, |l|, plan, f, |spare| + 1);
    EntriesDiffer(t, b, 0, f);
    EntriesDiffer(t, b, 0, f - 1);
  }

  lemma {:induction false} EntrySpared(t: Table, b: nat, i: nat, spare: seq<Creature>)
    requires Sound(t) && b < EVENT_CREATURECOUNT && i < |t.lists[b]| && Spare(t, spare)
    ensures var c := t.lists[b][i]; c in t.flagged <==> c in Applied(t, Additions(spare, b)).flagged
  {
    assert InRange(t, At(b, i)) && Entry(t, b, i) == t.lists[b][i];
    AppliedSpares(t, Additions(spare, b), t.lists[b][i]);
  }

  ghost predicate ProcessesFlagged(t: Table, b: nat, plan: Plan)
    requires |t.lists| == EVENT_CREATURECOUNT && b < EVENT_CREATURECOUNT && ProperPlan(plan)
  {
    forall c :: c in t.lists[b] && c in t.flagged ==> c in WholeVisit(t, b, plan).done
  }

  lemma {:induction false} SomeStale(l: seq<Creature>, flagged: set<Creature>) returns (s: nat)
    requires StaleCount(l, flagged) > 0
    ensures s < |l| && l[s] !in flagged
  {
    NoStale(l, flagged);
    s :| 0 <= s < |l| && l[s] !in flagged;
  }

  lemma {:induction false} FewerSpare(t: Table, r: Table, spare: seq<Creature>, n: nat)
    requires Spare(t, spare) && r.slots.Keys <= t.slots.Keys && n <= |spare|
    ensures Spare(r, spare[..n])
  {
    assert forall i :: 0 <= i < n ==> spare[..n][..i] == spare[..i];
  }

  lemma {:induction false} FrontLength(l: seq<Creature>, flagged: set<Creature>)
    ensures |Front(l, flagged)| <= |l|
  {
  }

  /** Additions under which a bucket that begins with a flagged entry is not fair. */
  lemma {:induction false} UnfairPlan(t: Table, b: nat, spare: seq<Creature>) returns (plan: Plan)
    requires Sound(t) && |t.lists| == EVENT_CREATURECOUNT && b < EVENT_CREATURECOUNT
    requires t.lists[b] != [] && t.lists[b][0] in t.flagged && Front(t.lists[b], t.flagged) == t.lists[b]
    requires Spare(t, spare) && |spare| >= |t.lists[b]| && !AlwaysFair(t.lists[b], t.flagged)
    ensures ProperPlan(plan) && RemovesNobody(plan) && !ProcessesFlagged(t, b, plan)
  {
    hide Sound, Spare, ProperPlan, RemovesNobody, Crowd, Visit, WholeVisit, Front;
    var l := t.lists[b];
    var f := LastFlagged(l, t.flagged);
    var stale := StaleCount(l[..f], t.flagged);
    StaleAtMost(l[..f], t.flagged);
    if f == |l| - 1 {
      var s := SomeStale(l[..f], t.flagged);
      plan := Crowd(spare, b);
      LastMissed(t, b, s, spare);
    } else {
      FewerSpare(t, t, spare, stale - 1);
      plan := Crowd(spare[..stale - 1], b);
      OneMissed(t, b, f, spare[..stale - 1]);
    }
  }

  lemma {:induction false} ShedProcesses(t: Table, b: nat, plan: Plan)
    requires Sound(t) && |t.lists| == EVENT_CREATURECOUNT && b < EVENT_CREATURECOUNT && ProperPlan(plan)
    ensures ProcessesFlagged(t, b, plan) <==> ProcessesFlagged(Shed(t, b), b, plan)
  {
    hide Sound, WholeVisit, ProperPlan, Front;
    ShedVisit(t, b, plan);
    ShedIs(t, b);
    forall c | c in t.flagged
      ensures c in t.lists[b] <==> c in Shed(t, b).lists[b]
    {
      FrontHolds(t.lists[b], t.flagged, c);
    }
  }

  /** For every bucket: whatever the callbacks schedule, every flagged entry is processed, if and only if no stale
      entry lies before the last flagged one, or a single one does and another lies behind. */
  lemma {:induction false} FairForAllIff(t: Table, b: nat, spare: seq<Creature>)
    requires Sound(t) && b < EVENT_CREATURECOUNT && Spare(t, spare) && |spare| >= |t.lists[b]|
    ensures AlwaysFair(t.lists[b], t.flagged) <==>
      forall plan: Plan :: ProperPlan(plan) && RemovesNobody(plan) ==> ProcessesFlagged(t, b, plan)
  {
    SoundShape(t);
    hide Sound, WholeVisit, ProperPlan, RemovesNobody, Spare, NoneInto, AlwaysFair, Front, Shed;
    if AlwaysFair(t.lists[b], t.flagged) {
      forall plan: Plan | ProperPlan(plan) && RemovesNobody(plan)
        ensures ProcessesFlagged(t, b, plan)
      {
        forall c | c in t.lists[b] && c in t.flagged
          ensures c in WholeVisit(t, b, plan).done
        {
          NobodyRemoved(plan, c);
          VisitFair(t, b, plan, c);
        }
      }
    } else {
      ShedIs(t, b);
      FrontAgain(t.lists[b], t.flagged);
      FrontLength(t.lists[b], t.flagged);
      FewerSpare(t, Shed(t, b), spare, |spare|);
      assert spare[..|spare|] == spare;
      NothingIsFair(t.flagged);
      var plan := UnfairPlan(Shed(t, b), b, spare);
      ShedProcesses(t, b, plan);
    }
  }

  lemma {:induction false} NothingIsFair(flagged: set<Creature>)
    ensures AlwaysFair([], flagged)
  {
  }

  /** Of the entries a, s and c, of which s is stale, c is passed over: the callbacks of a schedule x, which takes the
      slot of s. */
  lemma {:induction false} PassedOver(a: Creature, s: Creature, c: Creature, x: Creature)
    requires a != s && a != c && s != c && x != a && x != s && x != c
    ensures var lists := seq(10, b => if b == 0 then [a, s, c] else []);
      var t := Table(lists, {a, c}, map[a := At(0, 0), s := At(0, 1), c := At(0, 2)]);
      Sound(t) && ProperPlan(Crowd([x], 0)) && WholeVisit(t, 0, Crowd([x], 0)).done == [a, x]
  {
    var lists := seq(10, b => if b == 0 then [a, s, c] else []);
    var t := Table(lists, {a, c}, map[a := At(0, 0), s := At(0, 1), c := At(0, 2)]);
    assert Sound(t);
    var plan := Crowd([x], 0);
    CrowdIs([x], 0, 0);
    CrowdIs([x], 0, 1);
    assert Spare(t, [x]);
    CrowdArrives(t, [x], 0);
    Runs(t, 0, 0, 3, plan);
    var t1 := AfterCallback(t, 0, 0, 3, plan);
    assert t1.lists[0] == [a, s, c, x];
  }
}
