/** Sharing experience (src/creatures/creature.cpp: getDamageRatio, getGainedExperience,
    addDamagePoints and the experience loop of onDeath).

    Ratios are exact: a gain is the floor of damage times lost experience over total
    damage. The total is a 32-bit sum.
  */
module Experience {
  import opened Sums

  const WORD32: nat := 0x1_0000_0000

  type CreatureId = nat

  function Ratio(damage: nat, total: nat, lost: nat): nat
  {
    if total == 0 then 0 else damage * lost / total
  }

  function Wrap(n: nat): (w: nat)
    ensures w < WORD32
  {
    n % WORD32
  }

  function DamageOf(m: map<CreatureId, nat>, id: CreatureId): nat
  {
    if id in m then m[id] else 0
  }

  /** What each attacker gains. */
  function Gains(m: map<CreatureId, nat>, ids: set<CreatureId>, total: nat, lost: nat): map<CreatureId, nat>
  {
    map id | id in ids :: Ratio(DamageOf(m, id), total, lost)
  }

  function DamageBy(m: map<CreatureId, nat>, ids: set<CreatureId>): map<CreatureId, nat>
  {
    map id | id in ids :: DamageOf(m, id)
  }

  /** The gains over the total are at most the lost experience over the damage. */
  predicate Within(total: nat, gains: nat, damage: nat, lost: nat)
  {
    total * gains <= damage * lost
  }

  lemma {:induction false} FloorBelow(damage: nat, total: nat, lost: nat)
    requires total > 0
    ensures Within(total, Ratio(damage, total, lost), damage, lost)
  {
    var x := damage * lost;
    assert x == total * (x / total) + x % total;
  }

  lemma {:induction false} WithinSum(total: nat, g: nat, gains: nat, d: nat, damage: nat, lost: nat)
    requires Within(total, g, d, lost) && Within(total, gains, damage, lost)
    ensures Within(total, g + gains, d + damage, lost)
  {
    assert total * (g + gains) == total * g + total * gains;
    assert (d + damage) * lost == d * lost + damage * lost;
  }

  lemma {:induction false} WithinAll(total: nat, gains: nat, damage: nat, lost: nat)
    requires total > 0 && Within(total, gains, damage, lost) && damage <= total
    ensures gains <= lost
  {
    assert damage * lost <= total * lost;
    CancelFactor(total, gains, lost);
  }

  lemma {:induction false} CancelFactor(a: nat, x: nat, y: nat)
    requires a > 0 && a * x <= a * y
    ensures x <= y
  {
    assert a * (x - y) <= 0;
  }

  lemma {:induction false} WithinNothing(m: map<CreatureId, nat>, total: nat, lost: nat)
    ensures Within(total, Sum(Gains(m, {}, total, lost)), Sum(DamageBy(m, {})), lost)
  {
    assert Gains(m, {}, total, lost) == map[] && DamageBy(m, {}) == map[];
  }

  /** The floors together stay below the exact shares together. */
  lemma {:induction false} GainsBelowShares(m: map<CreatureId, nat>, ids: set<CreatureId>, total: nat, lost: nat)
    requires total > 0
    ensures Within(total, Sum(Gains(m, ids, total, lost)), Sum(DamageBy(m, ids)), lost)
    decreases |ids|
  {
    hide Within, Ratio, Gains, DamageBy, Sum, DamageOf;
    if ids == {} {
      WithinNothing(m, total, lost);
    } else {
      var id :| id in ids;
      var rest := ids - {id};
      GainsBelowShares(m, rest, total, lost);
      TakeOne(m, ids, id, total, lost);
      FloorBelow(DamageOf(m, id), total, lost);
      WithinSum(total, Ratio(DamageOf(m, id), total, lost), Sum(Gains(m, rest, total, lost)), DamageOf(m, id),
        Sum(DamageBy(m, rest)), lost);
    }
  }

  lemma {:induction false} TakeOne(m: map<CreatureId, nat>, ids: set<CreatureId>, id: CreatureId, total: nat, lost: nat)
    requires id in ids
    ensures Sum(Gains(m, ids, total, lost)) ==
      Ratio(DamageOf(m, id), total, lost) + Sum(Gains(m, ids - {id}, total, lost))
    ensures Sum(DamageBy(m, ids)) == DamageOf(m, id) + Sum(DamageBy(m, ids - {id}))
  {
    hide Ratio;
    SumTake(Gains(m, ids, total, lost), id);
    SumTake(DamageBy(m, ids), id);
    assert Gains(m, ids, total, lost) - {id} == Gains(m, ids - {id}, total, lost);
    assert DamageBy(m, ids) - {id} == DamageBy(m, ids - {id});
  }

  /** The gains of n attackers are the exact share of their damage, rounded down once for each of them. */
  predicate Rounded(total: nat, gains: nat, damage: nat, lost: nat, n: nat)
  {
    if total == 0 then gains == 0
    else total * gains <= damage * lost <= total * (gains + n) && (n > 0 ==> damage * lost < total * (gains + n))
  }

  lemma {:induction false} RatioRounds(damage: nat, total: nat, lost: nat)
    ensures Rounded(total, Ratio(damage, total, lost), damage, lost, 1)
  {
    if total > 0 {
      var x := damage * lost;
      assert x == total * (x / total) + x % total;
      assert total * (x / total + 1) == total * (x / total) + total;
    }
  }

  lemma {:induction false} RoundedSum(total: nat, g: nat, gains: nat, d: nat, damage: nat, lost: nat, n: nat)
    requires Rounded(total, g, d, lost, 1) && Rounded(total, gains, damage, lost, n)
    ensures Rounded(total, g + gains, d + damage, lost, n + 1)
  {
    assert total * (g + gains) == total * g + total * gains;
    assert total * (g + gains + (n + 1)) == total * (g + 1) + total * (gains + n);
    assert (d + damage) * lost == d * lost + damage * lost;
  }

  lemma {:induction false} NothingRounded(m: map<CreatureId, nat>, total: nat, lost: nat)
    ensures Rounded(total, Sum(Gains(m, {}, total, lost)), Sum(DamageBy(m, {})), lost, 0)
  {
    assert Gains(m, {}, total, lost) == map[] && DamageBy(m, {}) == map[];
  }

  /** Every floor takes less than one off the exact share. */
  lemma {:induction false} GainsRounded(m: map<CreatureId, nat>, ids: set<CreatureId>, total: nat, lost: nat)
    ensures Rounded(total, Sum(Gains(m, ids, total, lost)), Sum(DamageBy(m, ids)), lost, |ids|)
    decreases |ids|
  {
    hide Rounded, Ratio, Gains, DamageBy, Sum, DamageOf;
    if ids == {} {
      NothingRounded(m, total, lost);
    } else {
      var id :| id in ids;
      var rest := ids - {id};
      GainsRounded(m, rest, total, lost);
      TakeOne(m, ids, id, total, lost);
      RatioRounds(DamageOf(m, id), total, lost);
      RoundedSum(total, Ratio(DamageOf(m, id), total, lost), Sum(Gains(m, rest, total, lost)), DamageOf(m, id),
        Sum(DamageBy(m, rest)), lost, |rest|);
      assert |ids| == |rest| + 1;
    }
  }

  /** A part of the attackers dealt a part of the damage. */
  lemma {:induction false} PartOfDamage(m: map<CreatureId, nat>, ids: set<CreatureId>)
    ensures Sum(DamageBy(m, ids)) <= Sum(m)
    decreases |ids|
  {
    if ids == {} {
      assert DamageBy(m, ids) == map[];
    } else {
      var id :| id in ids;
      var rest := ids - {id};
      SumTake(DamageBy(m, ids), id);
      assert DamageBy(m, ids) - {id} == DamageBy(m, rest);
      if id in m {
        SumTake(m, id);
        PartOfDamage(m - {id}, rest);
        assert DamageBy(m - {id}, rest) == DamageBy(m, rest);
      } else {
        PartOfDamage(m, rest);
      }
    }
  }

  /** While the total damage fits 32 bits, no more is handed out than was lost, whoever is still there. */
  lemma {:induction false} NeverTooMuch(m: map<CreatureId, nat>, ids: set<CreatureId>, lost: nat)
    requires Sum(m) < WORD32
    ensures Sum(Gains(m, ids, Wrap(Sum(m)), lost)) <= lost
  {
    var total := Sum(m);
    assert Wrap(total) == total;
    hide Wrap, Within, Ratio;
    if total == 0 {
      NoGains(m, ids, lost);
    } else {
      GainsBelowShares(m, ids, total, lost);
      PartOfDamage(m, ids);
      WithinAll(total, Sum(Gains(m, ids, total, lost)), Sum(DamageBy(m, ids)), lost);
    }
  }

  lemma {:induction false} NoGains(m: map<CreatureId, nat>, ids: set<CreatureId>, lost: nat)
    ensures Sum(Gains(m, ids, 0, lost)) == 0
    decreases |ids|
  {
    if ids == {} {
      assert Gains(m, ids, 0, lost) == map[];
    } else {
      var id :| id in ids;
      SumTake(Gains(m, ids, 0, lost), id);
      assert Gains(m, ids, 0, lost) - {id} == Gains(m, ids - {id}, 0, lost);
      NoGains(m, ids - {id}, lost);
    }
  }

  lemma {:induction false} WholeRatio(damage: nat, total: nat)
    requires total > 0
    ensures Ratio(damage, total, total) == damage
  {
    var x := damage * total;
    SameQuotient(total, x / total, damage, x % total);
  }

  lemma {:induction false} SameQuotient(total: nat, q: nat, damage: nat, r: nat)
    requires r < total && total * q + r == damage * total
    ensures q == damage
  {
    assert damage * total == total * damage;
    CancelFactor(total, q, damage);
    assert total * (q + 1) == total * q + total;
    CancelStrict(total, damage, q + 1);
  }

  lemma {:induction false} CancelStrict(a: nat, x: nat, y: nat)
    requires a * x < a * y
    ensures x < y
  {
    assert a * (y - x) > 0;
  }

  /** If the lost experience is the total, everyone gains his damage. */
  lemma {:induction false} WholeGains(m: map<CreatureId, nat>, ids: set<CreatureId>, total: nat)
    requires total > 0
    ensures Sum(Gains(m, ids, total, total)) == Sum(DamageBy(m, ids))
    decreases |ids|
  {
    hide Ratio;
    if ids == {} {
      assert Gains(m, ids, total, total) == map[] && DamageBy(m, ids) == map[];
    } else {
      var id :| id in ids;
      WholeGains(m, ids - {id}, total);
      TakeOne(m, ids, id, total, total);
      WholeRatio(DamageOf(m, id), total);
    }
  }

  /** Whoever is still there, the shares stay within any lost experience exactly if the damage counter wrapped to zero
      or to no less than they dealt. */
  lemma {:induction false} NeverTooMuchIff(m: map<CreatureId, nat>, ids: set<CreatureId>)
    ensures (forall lost: nat :: Sum(Gains(m, ids, Wrap(Sum(m)), lost)) <= lost) <==>
      Wrap(Sum(m)) == 0 || Sum(DamageBy(m, ids)) <= Wrap(Sum(m))
  {
    hide Wrap, Ratio, Within, Gains, DamageBy, Sum;
    var total := Wrap(Sum(m));
    if total == 0 {
      forall lost: nat ensures Sum(Gains(m, ids, total, lost)) <= lost {
        NoGains(m, ids, lost);
      }
    } else if Sum(DamageBy(m, ids)) <= total {
      forall lost: nat ensures Sum(Gains(m, ids, total, lost)) <= lost {
        GainsBelowShares(m, ids, total, lost);
        WithinAll(total, Sum(Gains(m, ids, total, lost)), Sum(DamageBy(m, ids)), lost);
      }
    } else {
      WholeGains(m, ids, total);
      assert Sum(Gains(m, ids, total, total)) > total;
    }
  }

  /** Three attackers whose damage wraps to one: the last alone gains three times what was lost. */
  lemma {:induction false} WrapGivesTooMuch()
    ensures var m := map[1 := 0x7FFF_FFFF, 2 := 0x7FFF_FFFF, 3 := 3];
      Wrap(Sum(m)) == 1 && Sum(DamageBy(m, {3})) == 3 &&
        !(forall lost: nat :: Sum(Gains(m, {3}, Wrap(Sum(m)), lost)) <= lost)
  {
    var m := map[1 := 0x7FFF_FFFF, 2 := 0x7FFF_FFFF, 3 := 3];
    SumTake(m, 1);
    SumTake(m - {1}, 2);
    SumTake(m - {1} - {2}, 3);
    assert m - {1} - {2} - {3} == map[];
    SumTake(DamageBy(m, {3}), 3);
    assert DamageBy(m, {3}) - {3} == map[];
    assert Sum(m) == 0x1_0000_0001;
    hide Gains, Sum;
    NeverTooMuchIff(m, {3});
  }

  // ----- the experience map -----

  /** What the attackers in ids credit to one receiver. */
  function Credited(m: map<CreatureId, nat>, ids: set<CreatureId>, total: nat, lost: nat,
      receivers: map<CreatureId, CreatureId>, r: CreatureId): map<CreatureId, nat>
    requires ids <= receivers.Keys
  {
    map id | id in ids && receivers[id] == r :: Ratio(DamageOf(m, id), total, lost)
  }

  class Creature {
    const id: CreatureId
    var damageMap: map<CreatureId, nat>

    /** A hit adds its points to what the attacker dealt. */
    method AddDamagePoints(attacker: CreatureId, damagePoints: int)
      modifies this
      ensures Sum(damageMap) == old(Sum(damageMap)) + (if damagePoints > 0 then damagePoints else 0)
      ensures damageMap ==
        if damagePoints > 0 then old(damageMap)[attacker := DamageOf(old(damageMap), attacker) + damagePoints]
        else old(damageMap)
    {
      if damagePoints <= 0 {
        return;
      }
      var points: nat := damagePoints;
      SumPut(damageMap, attacker, DamageOf(damageMap, attacker) + points);
      if attacker !in damageMap {
        damageMap := damageMap[attacker := points];
      } else {
        damageMap := damageMap[attacker := damageMap[attacker] + points];
      }
    }

    /** The ratio as numerator and denominator, which both wrap at 32 bits. */
    method GetDamageRatio(attacker: CreatureId) returns (attackerDamage: nat, totalDamage: nat)
      ensures attackerDamage == Wrap(DamageOf(damageMap, attacker)) && totalDamage == Wrap(Sum(damageMap))
    {
      attackerDamage, totalDamage := 0, 0;
      assert Wrap(0) == 0 && Sum<CreatureId>(map[]) == 0;
      hide Wrap, Sum;
      var rest := damageMap;
      while rest != map[]
        invariant rest.Keys <= damageMap.Keys && forall i :: i in rest ==> rest[i] == damageMap[i]
        invariant 0 <= totalDamage && Wrap(totalDamage + Sum(rest)) == Wrap(Sum(damageMap)) &&
          Wrap(totalDamage) == totalDamage
        invariant attackerDamage == if attacker in rest then 0 else Wrap(DamageOf(damageMap, attacker))
        decreases |rest|
      {
        var i :| i in rest;
        SumTake(rest, i);
        WrapStep(totalDamage, rest[i], Sum(rest - {i}));
        totalDamage := Wrap(totalDamage + rest[i]);
        if i == attacker {
          assert DamageOf(damageMap, attacker) == rest[i] == attackerDamage + rest[i];
          attackerDamage := Wrap(attackerDamage + rest[i]);
        }
        rest := rest - {i};
      }
      assert rest == map[] && totalDamage + Sum(rest) == totalDamage;
    }

    /** The exact share, rounded down. */
    method GetGainedExperience(attacker: CreatureId, lost: nat) returns (gain: nat)
      ensures var damage := if attacker in damageMap then damageMap[attacker] % 0x1_0000_0000 else 0;
        var total := Sum(damageMap) % 0x1_0000_0000;
        if total == 0 then gain == 0 else total * gain <= damage * lost < total * (gain + 1)
      ensures gain == Ratio(Wrap(DamageOf(damageMap, attacker)), Wrap(Sum(damageMap)), lost)
    {
      var attackerDamage, totalDamage := GetDamageRatio(attacker);
      RatioRounds(attackerDamage, totalDamage, lost);
      return Ratio(attackerDamage, totalDamage, lost);
    }

    /** Counters of single attackers are 32 bits wide and signed. */
    ghost predicate Counted()
      reads this
    {
      forall i :: i in damageMap ==> damageMap[i] < WORD32
    }

    /** One attacker of the loop. */
    method Visit(i: CreatureId, present: set<CreatureId>, receivers: map<CreatureId, CreatureId>, lost: nat,
        experienceMap: map<CreatureId, nat>)
      returns (e: map<CreatureId, nat>)
      requires i in damageMap && damageMap[i] < WORD32 && i in receivers
      ensures e ==
        if i in present && i != id then
            More(experienceMap, receivers[i], Ratio(DamageOf(damageMap, i), Wrap(Sum(damageMap)), lost))
        else experienceMap
    {
      e := experienceMap;
      if i in present && i != id {
        var gainExp := GetGainedExperience(i, lost);
        SmallDamage(damageMap, i);
        hide Ratio, DamageOf, Wrap, Sum;
        var attacker := receivers[i];
        if attacker !in e {
          e := e[attacker := gainExp];
        } else {
          e := e[attacker := e[attacker] + gainExp];
        }
      }
    }

    /** The experience loop of a death. `receivers` names the attacker himself, or the leader of a party sharing
        experience. */
    method ShareExperience(present: set<CreatureId>, receivers: map<CreatureId, CreatureId>, lost: nat)
        returns (experienceMap: map<CreatureId, nat>)
      requires Counted() && damageMap.Keys <= receivers.Keys
      ensures Shares(damageMap, Rewarded(damageMap.Keys, present, id), Wrap(Sum(damageMap)), lost, receivers,
        experienceMap)
      ensures Sum(damageMap) < WORD32 ==> Sum(experienceMap) <= lost
      ensures FairShares(damageMap, present, id, receivers, lost, experienceMap)
    {
      experienceMap := map[];
      var rest := damageMap.Keys;
      NothingShared(damageMap, Wrap(Sum(damageMap)), lost, receivers);
      assert Rewarded({}, present, id) == {} && damageMap.Keys - rest == {};
      while rest != {}
        invariant rest <= damageMap.Keys
        invariant Shares(damageMap, Rewarded(damageMap.Keys - rest, present, id), Wrap(Sum(damageMap)), lost,
          receivers, experienceMap)
        decreases |rest|
      {
        hide Shares, Rewarded, Wrap, Sum, More, Ratio, DamageOf;
        var i :| i in rest;
        ghost var seen := damageMap.Keys - rest;
        RewardedStep(seen, i, present, id);
        if i in present && i != id {
          ShareStep(damageMap, Rewarded(seen, present, id), i, Wrap(Sum(damageMap)), lost, receivers, experienceMap);
        }
        experienceMap := Visit(i, present, receivers, lost, experienceMap);
        assert damageMap.Keys - (rest - {i}) == (damageMap.Keys - rest) + {i};
        rest := rest - {i};
      }
      assert damageMap.Keys - rest == damageMap.Keys;
      hide *;
      if Sum(damageMap) < WORD32 {
        NeverTooMuch(damageMap, Rewarded(damageMap.Keys, present, id), lost);
      }
      SharesRounded(damageMap, present, id, receivers, lost, experienceMap);
    }
  }

  /** The attackers that get something: still there, and not the dying creature itself. */
  ghost function Rewarded(ids: set<CreatureId>, present: set<CreatureId>, self: CreatureId): (r: set<CreatureId>)
    ensures r <= ids
  {
    set i | i in ids && i in present && i != self
  }

  lemma {:induction false} RewardedStep(seen: set<CreatureId>, i: CreatureId, present: set<CreatureId>,
      self: CreatureId)
    requires i !in seen
    ensures i !in Rewarded(seen, present, self)
    ensures Rewarded(seen + {i}, present, self) == if i in present && i != self then
      Rewarded(seen, present, self) + {i} else Rewarded(seen, present, self)
  {
  }

  /** The map holds all gains: in sum, and receiver by receiver. */
  ghost predicate Shares(m: map<CreatureId, nat>, ids: set<CreatureId>, total: nat, lost: nat,
      receivers: map<CreatureId, CreatureId>, e: map<CreatureId, nat>)
    requires ids <= receivers.Keys
  {
    && Sum(e) == Sum(Gains(m, ids, total, lost))
    && e.Keys == (set i | i in ids :: receivers[i])
    && forall r :: r in e ==> e[r] == Sum(Credited(m, ids, total, lost, receivers, r))
  }

  /** Every attacker still there is credited, to the receiver he names; and all of them together, as well as those of
      each receiver, get the exact share of their damage but for less than one each. */
  ghost predicate FairShares(m: map<CreatureId, nat>, present: set<CreatureId>, self: CreatureId,
      receivers: map<CreatureId, CreatureId>, lost: nat, e: map<CreatureId, nat>)
    requires m.Keys <= receivers.Keys
  {
    var total := Sum(m) % 0x1_0000_0000;
    var all := set i | i in m && i in present && i != self;
    && e.Keys == (set i | i in all :: receivers[i])
    && Rounded(total, Sum(e), Sum(DamageBy(m, all)), lost, |all|)
    && forall r :: r in e ==>
      var those := Naming(all, receivers, r);
      Rounded(total, e[r], Sum(DamageBy(m, those)), lost, |those|)
  }

  ghost function Naming(ids: set<CreatureId>, receivers: map<CreatureId, CreatureId>, r: CreatureId): set<CreatureId>
    requires ids <= receivers.Keys
  {
    set i | i in ids && receivers[i] == r
  }

  lemma {:induction false} CreditedIs(m: map<CreatureId, nat>, ids: set<CreatureId>, total: nat, lost: nat,
      receivers: map<CreatureId, CreatureId>, r: CreatureId)
    requires ids <= receivers.Keys
    ensures Credited(m, ids, total, lost, receivers, r) == Gains(m, Naming(ids, receivers, r), total, lost)
  {
  }

  lemma {:induction false} SharesRounded(m: map<CreatureId, nat>, present: set<CreatureId>, self: CreatureId,
      receivers: map<CreatureId, CreatureId>, lost: nat, e: map<CreatureId, nat>)
    requires m.Keys <= receivers.Keys
    requires Shares(m, Rewarded(m.Keys, present, self), Wrap(Sum(m)), lost, receivers, e)
    ensures FairShares(m, present, self, receivers, lost, e)
  {
    var total := Wrap(Sum(m));
    var all := Rewarded(m.Keys, present, self);
    assert total == Sum(m) % 0x1_0000_0000 && all == set i | i in m && i in present && i != self;
    hide Rounded, Ratio, Sum, Wrap, DamageBy, DamageOf, Credited, Gains, Naming, Rewarded;
    GainsRounded(m, all, total, lost);
    forall r | r in e
      ensures var those := Naming(all, receivers, r); Rounded(total, e[r], Sum(DamageBy(m, those)), lost, |those|)
    {
      CreditedIs(m, all, total, lost, receivers, r);
      GainsRounded(m, Naming(all, receivers, r), total, lost);
    }
  }

  function More(e: map<CreatureId, nat>, r: CreatureId, gain: nat): map<CreatureId, nat>
  {
    e[r := (if r in e then e[r] else 0) + gain]
  }

  lemma {:induction false} NothingShared(m: map<CreatureId, nat>, total: nat, lost: nat,
      receivers: map<CreatureId, CreatureId>)
    ensures Shares(m, {}, total, lost, receivers, map[])
  {
    assert Gains(m, {}, total, lost) == map[];
  }

  lemma {:induction false} ShareStep(m: map<CreatureId, nat>, ids: set<CreatureId>, i: CreatureId, total: nat,
      lost: nat, receivers: map<CreatureId, CreatureId>, e: map<CreatureId, nat>)
    requires i !in ids && ids + {i} <= receivers.Keys && Shares(m, ids, total, lost, receivers, e)
    ensures var r := receivers[i];
      Shares(m, ids + {i}, total, lost, receivers, More(e, r, Ratio(DamageOf(m, i), total, lost)))
  {
    hide Ratio, Sum, Gains, Credited, DamageOf;
    var to := receivers[i];
    var gain := Ratio(DamageOf(m, i), total, lost);
    var after := More(e, to, gain);
    SumPut(e, to, after[to]);
    OneMoreGain(m, ids, i, total, lost);
    forall r | r in after ensures after[r] == Sum(Credited(m, ids + {i}, total, lost, receivers, r)) {
      OneMoreCredit(m, ids, i, total, lost, receivers, r);
      if r !in e {
        NobodyCredits(m, ids, total, lost, receivers, r);
      }
    }
  }

  lemma {:induction false} SmallDamage(m: map<CreatureId, nat>, i: CreatureId)
    requires i in m && m[i] < WORD32
    ensures Wrap(DamageOf(m, i)) == DamageOf(m, i)
  {
  }

  lemma {:induction false} WrapStep(a: nat, x: nat, y: nat)
    ensures Wrap(Wrap(a + x) + y) == Wrap(a + (x + y)) && Wrap(Wrap(a + x)) == Wrap(a + x)
  {
  }

  lemma {:induction false} OneMoreGain(m: map<CreatureId, nat>, ids: set<CreatureId>, i: CreatureId, total: nat,
      lost: nat)
    requires i !in ids
    ensures Sum(Gains(m, ids + {i}, total, lost)) ==
      Sum(Gains(m, ids, total, lost)) + Ratio(DamageOf(m, i), total, lost)
  {
    SumTake(Gains(m, ids + {i}, total, lost), i);
    assert Gains(m, ids + {i}, total, lost) - {i} == Gains(m, ids, total, lost);
  }

  lemma {:induction false} OneMoreCredit(m: map<CreatureId, nat>, ids: set<CreatureId>, i: CreatureId, total: nat,
      lost: nat, receivers: map<CreatureId, CreatureId>, r: CreatureId)
    requires i !in ids && ids + {i} <= receivers.Keys
    ensures Sum(Credited(m, ids + {i}, total, lost, receivers, r)) ==
      Sum(Credited(m, ids, total, lost, receivers, r)) +
        (if receivers[i] == r then Ratio(DamageOf(m, i), total, lost) else 0)
  {
    var after := Credited(m, ids + {i}, total, lost, receivers, r);
    if receivers[i] == r {
      SumTake(after, i);
      assert after - {i} == Credited(m, ids, total, lost, receivers, r);
    } else {
      assert after == Credited(m, ids, total, lost, receivers, r);
    }
  }

  lemma {:induction false} NobodyCredits(m: map<CreatureId, nat>, ids: set<CreatureId>, total: nat, lost: nat,
      receivers: map<CreatureId, CreatureId>, r: CreatureId)
    requires ids <= receivers.Keys && forall i :: i in ids ==> receivers[i] != r
    ensures Sum(Credited(m, ids, total, lost, receivers, r)) == 0
  {
    assert Credited(m, ids, total, lost, receivers, r) == map[];
  }
}
