/** Removal of a creature and, through the summon lists, of everything it summoned
    (src/game/game.cpp: removeCreature; src/creatures/creature.cpp: setMaster).
  */
module Removal {

  class Creature {
    var isRemoved: bool
    var master: Creature?
    var summons: seq<Creature>

    constructor ()
      ensures !isRemoved && master == null && summons == []
    {
      isRemoved, master, summons := false, null, [];
    }
  }

  // ----- the summon graph at one moment -----

  /** The live creatures, whom each creature lists, and each creature's master. */
  datatype Graph = Graph(live: set<Creature>, lists: map<Creature, seq<Creature>>, masters: map<Creature, Creature?>)

  predicate Edge(g: Graph, older m: Creature, older s: Creature)
  {
    m in g.lists && s in g.lists[m]
  }

  /** The graph is about these creatures only. */
  ghost predicate Known(g: Graph, all: set<Creature>)
  {
    g.live <= all && g.lists.Keys == all && g.masters.Keys == all &&
    (forall x :: x in all && g.masters[x] != null ==> g.masters[x] in all) &&
    (forall m, s :: Edge(g, m, s) ==> s in all)
  }

  /** Live creatures list exactly the live creatures they are the master of, once each. */
  ghost predicate Linked(g: Graph)
  {
    g.live <= g.lists.Keys && g.live <= g.masters.Keys &&
    (forall m :: m in g.live ==> NoDuplicates(g.lists[m])) &&
    (forall m, s :: Edge(g, m, s) && m in g.live ==> s in g.live && g.masters[s] == m) &&
    (forall s :: s in g.live && g.masters[s] != null && g.masters[s] in g.live ==> Edge(g, g.masters[s], s))
  }

  /** No removed creature lists a live one. */
  ghost predicate Settled(g: Graph)
  {
    forall m, s :: Edge(g, m, s) && m !in g.live ==> s !in g.live
  }

  /** A path through live creatures along the summon lists. */
  ghost predicate LivePath(g: Graph, older path: seq<Creature>)
  {
    path != [] && path[0] in g.live && (|path| > 1 ==> Edge(g, path[0], path[1]) && LivePath(g, path[1..]))
  }

  ghost predicate Reaches(g: Graph, a: Creature, b: Creature)
  {
    exists path :: LivePath(g, path) && path[0] == a && path[|path| - 1] == b
  }

  /** A set that contains a and is closed under live summons contains all that a reaches. */
  lemma {:induction false} ClosedContainsReach(g: Graph, path: seq<Creature>, s: set<Creature>)
    requires LivePath(g, path) && path[0] in s
    requires forall m, x :: m in s && m in g.live && Edge(g, m, x) && x in g.live ==> x in s
    ensures path[|path| - 1] in s
  {
    if |path| > 1 {
      ClosedContainsReach(g, path[1..], s);
    }
  }

  lemma {:induction false} PathExtends(g: Graph, path: seq<Creature>, x: Creature)
    requires LivePath(g, path) && Edge(g, path[|path| - 1], x) && x in g.live
    ensures LivePath(g, path + [x])
    decreases |path|
  {
    var longer := path + [x];
    if |path| > 1 {
      PathExtends(g, path[1..], x);
      assert longer[1..] == path[1..] + [x];
    } else {
      assert longer[1..] == [x];
      assert LivePath(g, [x]);
    }
  }

  /** What a live creature reaches contains it and is closed under live summons. */
  lemma {:induction false} ReachIsClosed(g: Graph, a: Creature, m: Creature, x: Creature)
    requires a in g.live
    ensures Reaches(g, a, a)
    ensures Reaches(g, a, m) && Edge(g, m, x) && x in g.live ==> Reaches(g, a, x)
  {
    assert LivePath(g, [a]);
    assert [a][|[a]| - 1] == a;
    if Reaches(g, a, m) && Edge(g, m, x) && x in g.live {
      var path :| LivePath(g, path) && path[0] == a && path[|path| - 1] == m;
      PathExtends(g, path, x);
      var longer := path + [x];
      assert longer[0] == a && longer[|longer| - 1] == x;
    }
  }

  /** The later graph has fewer live creatures and shorter lists. */
  ghost predicate Shrunk(g: Graph, g': Graph)
  {
    g'.live <= g.live && forall x, y :: Edge(g', x, y) ==> Edge(g, x, y)
  }

  lemma {:induction false} PathInShrunk(g: Graph, g': Graph, path: seq<Creature>)
    requires Shrunk(g, g') && LivePath(g', path)
    ensures LivePath(g, path)
  {
    if |path| > 1 {
      PathInShrunk(g, g', path[1..]);
    }
  }

  /** What a summon reaches later, its live summoner reached before. */
  lemma {:induction false} ReachExtends(g: Graph, g': Graph, m: Creature, a: Creature, b: Creature)
    requires Shrunk(g, g') && m in g.live && Edge(g, m, a) && Reaches(g', a, b)
    ensures Reaches(g, m, b)
  {
    var path :| LivePath(g', path) && path[0] == a && path[|path| - 1] == b;
    PathInShrunk(g, g', path);
    var longer := [m] + path;
    assert longer[1..] == path;
    assert LivePath(g, longer) && longer[|longer| - 1] == b;
  }

  // ----- lists -----

  function EraseFirst(s: seq<Creature>, c: Creature): (r: seq<Creature>)
    ensures forall x :: x in r ==> x in s
    ensures forall x :: x in s && x != c ==> x in r
    ensures c !in s ==> r == s
  {
    if s == [] then [] else if s[0] == c then s[1..] else [s[0]] + EraseFirst(s[1..], c)
  }

  predicate NoDuplicates(s: seq<Creature>)
  {
    forall i, j :: 0 <= i < j < |s| ==> s[i] != s[j]
  }

  lemma {:induction false} EraseFirstRemoves(s: seq<Creature>, c: Creature)
    requires NoDuplicates(s)
    ensures NoDuplicates(EraseFirst(s, c)) && c !in EraseFirst(s, c)
  {
    if s != [] && s[0] != c {
      EraseFirstRemoves(s[1..], c);
      assert s[0] !in s[1..];
    }
  }

  /** The graph after setMaster: self joins the new list, then leaves the old one. */
  function Rehome(g: Graph, self: Creature, newMaster: Creature?): Graph
    requires self in g.masters
    requires newMaster != null ==> newMaster in g.lists
    requires g.masters[self] != null ==> g.masters[self] in g.lists
  {
    var joined := if newMaster == null then g.lists else g.lists[newMaster := g.lists[newMaster] + [self]];
    var oldMaster := g.masters[self];
    Graph(g.live,
          if oldMaster == null then joined else joined[oldMaster := EraseFirst(joined[oldMaster], self)],
          g.masters[self := newMaster])
  }

  /** Rehome, creature by creature. */
  lemma {:induction false} RehomePointwise(g: Graph, self: Creature, newMaster: Creature?, all: set<Creature>)
    requires Known(g, all) && self in all && (newMaster != null ==> newMaster in all)
    ensures var r := Rehome(g, self, newMaster);
      r.live == g.live && r.lists.Keys == all && r.masters == g.masters[self := newMaster] && r.masters.Keys == all &&
      forall x :: x in all ==>
        var joined := if x == newMaster then g.lists[x] + [self] else g.lists[x];
        r.lists[x] == if x == g.masters[self] then EraseFirst(joined, self) else joined
  {
  }

  lemma {:induction false} RelistedLinks(list: seq<Creature>, self: Creature)
    ensures NoDuplicates(list) ==> NoDuplicates(EraseFirst(list, self)) && self !in EraseFirst(list, self)
    ensures NoDuplicates(list) && self in list ==>
      NoDuplicates(EraseFirst(list + [self], self)) && self in EraseFirst(list + [self], self)
  {
    if NoDuplicates(list) {
      EraseFirstRemoves(list, self);
      if self in list {
        EraseBeforeEnd(list, self);
      }
    }
  }

  lemma {:induction false} EraseBeforeEnd(list: seq<Creature>, self: Creature)
    requires self in list
    ensures EraseFirst(list + [self], self) == EraseFirst(list, self) + [self]
  {
    assert (list + [self])[1..] == list[1..] + [self];
    if list[0] != self {
      EraseBeforeEnd(list[1..], self);
    }
  }

  /** Only self moves; under links it leaves its old list altogether. */
  lemma {:induction false} RehomeEdges(g: Graph, self: Creature, newMaster: Creature?, all: set<Creature>)
    requires Known(g, all) && self in all && (newMaster != null ==> newMaster in all)
    ensures var r := Rehome(g, self, newMaster);
      r.lists.Keys == all &&
      (forall m, s :: Edge(r, m, s) ==> Edge(g, m, s) || (m == newMaster && s == self)) &&
      (forall m, s :: Edge(g, m, s) ==> Edge(r, m, s) || (m == g.masters[self] && s == self))
  {
  }

  lemma {:induction false} RehomeKnown(g: Graph, self: Creature, newMaster: Creature?, all: set<Creature>)
    requires Known(g, all) && self in all && (newMaster != null ==> newMaster in all)
    ensures Known(Rehome(g, self, newMaster), all)
  {
    RehomeEdges(g, self, newMaster, all);
    var r := Rehome(g, self, newMaster);
    forall m, s | Edge(r, m, s)
      ensures s in all
    {
      assert Edge(g, m, s) || s == self;
    }
  }

  /** The list of a live creature after a change of masters. */
  lemma {:induction false} RehomedList(g: Graph, self: Creature, newMaster: Creature?, all: set<Creature>, m: Creature)
    requires Known(g, all) && Linked(g) && self in all && m in g.live
    requires newMaster == null || (newMaster in all && self in g.live)
    ensures var r := Rehome(g, self, newMaster);
      NoDuplicates(r.lists[m]) && (self in r.lists[m] <==> m == newMaster)
  {
    RelistedLinks(g.lists[m], self);
    assert Edge(g, m, self) ==> g.masters[self] == m;
    if m == g.masters[self] && self in g.live {
      assert Edge(g, m, self);
    }
  }

  /** Changing masters keeps the links. */
  lemma {:induction false} RehomeKeepsLinks(g: Graph, self: Creature, newMaster: Creature?, all: set<Creature>)
    requires Known(g, all) && Linked(g) && self in all
    requires newMaster == null || (newMaster in all && self in g.live)
    ensures Linked(Rehome(g, self, newMaster))
  {
    var r := Rehome(g, self, newMaster);
    RehomeEdges(g, self, newMaster, all);
    forall m | m in g.live
      ensures NoDuplicates(r.lists[m]) && (Edge(r, m, self) <==> m == newMaster)
    {
      RehomedList(g, self, newMaster, all, m);
    }
    assert r.live == g.live && r.masters == g.masters[self := newMaster];
    hide Rehome;
    forall s | s in r.live && r.masters[s] != null && r.masters[s] in r.live
      ensures Edge(r, r.masters[s], s)
    {
      if s != self {
        assert Edge(g, g.masters[s], s);
      }
    }
  }

  // ----- removal on graphs -----

  /** Creatures were only removed, lists lost only removed creatures, and those removed before kept their links. */
  ghost predicate Lost(g: Graph, g': Graph)
  {
    Shrunk(g, g') && (forall m, s :: Edge(g, m, s) ==> Edge(g', m, s) || s !in g'.live) &&
    forall x :: x in g.lists && x in g.masters && x !in g.live ==>
      x in g'.lists && x in g'.masters && g'.lists[x] == g.lists[x] && g'.masters[x] == g.masters[x]
  }

  /** What was removed was reachable from c, and so were its summons, c's own aside if `open`. */
  ghost predicate Gone(g: Graph, g': Graph, c: Creature, open: bool)
  {
    (forall x :: x in g.live && x !in g'.live ==> Reaches(g, c, x)) &&
    (forall x, s :: x in g.live && x !in g'.live && !(open && x == c) && Edge(g, x, s) ==> s !in g'.live)
  }

  /** The effect of a removal. */
  ghost predicate Removes(g: Graph, g': Graph, c: Creature)
  {
    if c in g.live then c !in g'.live && Lost(g, g') && Gone(g, g', c, false) else g' == g
  }

  /** One summon removed on behalf of c. */
  lemma {:induction false} RemovesMore(g: Graph, g1: Graph, g2: Graph, c: Creature, s: Creature)
    requires c in g.live && Lost(g, g1) && Gone(g, g1, c, true) && Edge(g, c, s) && Removes(g1, g2, s)
    ensures Lost(g, g2) && Gone(g, g2, c, true)
  {
    if s in g1.live {
      forall x | x in g1.live && x !in g2.live
        ensures Reaches(g, c, x)
      {
        ReachExtends(g, g1, c, s, x);
      }
    }
  }

  /** The graph after c is unlinked from a live master. */
  function Unlink(g: Graph, c: Creature): Graph
    requires c in g.masters && (g.masters[c] != null ==> g.masters[c] in g.lists)
  {
    if g.masters[c] != null && g.masters[c] in g.live then Rehome(g, c, null) else g
  }

  lemma {:induction false} UnlinkEdges(g: Graph, c: Creature, all: set<Creature>)
    requires Known(g, all) && c in all
    ensures Known(Unlink(g, c), all) && Unlink(g, c).live == g.live
    ensures forall m, s :: Edge(Unlink(g, c), m, s) ==> Edge(g, m, s)
    ensures forall m, s :: Edge(g, m, s) ==> Edge(Unlink(g, c), m, s) || s == c
    ensures forall x :: x in all && x !in g.live && x != c ==>
      Unlink(g, c).lists[x] == g.lists[x] && Unlink(g, c).masters[x] == g.masters[x]
  {
    RehomeEdges(g, c, null, all);
    RehomeKnown(g, c, null, all);
  }

  lemma {:induction false} UnlinkKeepsLinks(g: Graph, c: Creature, all: set<Creature>)
    requires Known(g, all) && c in g.live && Linked(g)
    ensures Linked(Unlink(g, c)) && forall m :: m in g.live ==> !Edge(Unlink(g, c), m, c)
  {
    RehomeKeepsLinks(g, c, null, all);
    forall m | m in g.live
      ensures !Edge(Unlink(g, c), m, c)
    {
      RehomedList(g, c, null, all, m);
      assert Edge(g, m, c) ==> g.masters[c] == m;
    }
  }

  /** Unlinking c from a live master and marking it removed. */
  lemma {:induction false} RemovesFirst(g: Graph, g1: Graph, c: Creature, all: set<Creature>)
    requires Known(g, all) && c in g.live && g1 == Unlink(g, c).(live := g.live - {c})
    ensures Known(g1, all) && Lost(g, g1) && Gone(g, g1, c, true)
    ensures Linked(g) ==> Linked(g1)
  {
    UnlinkEdges(g, c, all);
    if Linked(g) {
      UnlinkKeepsLinks(g, c, all);
    }
    assert LivePath(g, [c]);
    var u := Unlink(g, c);
    hide Unlink;
    assert g1.lists == u.lists && g1.masters == u.masters;
    assert forall m, s :: Edge(g1, m, s) <==> Edge(u, m, s);
  }

  /** A finished removal takes exactly c and what it reached, and leaves nothing live listed by the removed. */
  lemma {:induction false} RemovesExactly(g: Graph, g': Graph, c: Creature)
    requires Removes(g, g', c) && Settled(g) && c in g.live
    ensures forall x :: x in g.live ==> (x !in g'.live <==> Reaches(g, c, x))
    ensures Settled(g')
  {
    forall x | x in g.live && Reaches(g, c, x)
      ensures x !in g'.live
    {
      var path :| LivePath(g, path) && path[0] == c && path[|path| - 1] == x;
      ClosedContainsReach(g, path, g.live - g'.live);
    }
  }

  // ----- the game -----

  class Game {
    ghost const creatures: set<Creature>

    ghost function Now(): Graph
      reads creatures
    {
      Graph(set x | x in creatures && !x.isRemoved,
            map x | x in creatures :: x.summons,
            map x | x in creatures :: x.master)
    }

    constructor (ghost creatures: set<Creature>)
      ensures this.creatures == creatures
    {
      this.creatures := creatures;
    }

    method SetMaster(self: Creature, newMaster: Creature?) returns (changed: bool)
      requires Known(Now(), creatures) && self in creatures && (newMaster != null ==> newMaster in creatures)
      modifies creatures
      ensures Now() == Rehome(old(Now()), self, newMaster)
      ensures changed == (newMaster != null || old(self.master) != null)
    {
      ghost var g := Now();
      RehomePointwise(g, self, newMaster, creatures);
      assert self.master == g.masters[self];
      changed := Relink(self, newMaster);
      hide Known, Rehome, EraseFirst;
      NowIs(Rehome(g, self, newMaster));
    }

    /** The body of SetMaster, creature by creature. */
    method Relink(self: Creature, newMaster: Creature?) returns (changed: bool)
      requires self in creatures && (newMaster != null ==> newMaster in creatures) &&
        (self.master != null ==> self.master in creatures)
      modifies creatures
      ensures changed == (newMaster != null || old(self.master) != null)
      ensures forall x :: x in creatures ==>
        x.isRemoved == old(x.isRemoved) && x.master == if x == self then newMaster else old(x.master)
      ensures forall x :: x in creatures ==>
        var joined := if x == newMaster then old(x.summons) + [self] else old(x.summons);
        x.summons == if x == old(self.master) then EraseFirst(joined, self) else joined
    {
      var oldMaster := self.master;
      if newMaster == null && oldMaster == null {
        return false;
      }
      if newMaster != null {
        newMaster.summons := newMaster.summons + [self];
      }
      self.master := newMaster;
      if oldMaster != null {
        oldMaster.summons := EraseFirst(oldMaster.summons, self);
      }
      return true;
    }

    lemma {:induction false} NowIs(g: Graph)
      requires g.lists.Keys == creatures && g.masters.Keys == creatures && g.live <= creatures
      requires forall x :: x in creatures ==>
        x.summons == g.lists[x] && x.master == g.masters[x] && (x in g.live <==> !x.isRemoved)
      ensures Now() == g
    {
    }

    /** c leaves the list of a live master and is marked removed. */
    method TakeOff(c: Creature)
      requires Known(Now(), creatures) && c in creatures
      modifies creatures
      ensures c.isRemoved
      ensures Now() == Unlink(old(Now()), c).(live := old(Now()).live - {c})
    {
      ghost var g := Now();
      if c.master != null && !c.master.isRemoved {
        var _ := SetMaster(c, null);
      }
      assert Now() == Unlink(g, c);
      c.isRemoved := true;
      NowIs(Unlink(g, c).(live := g.live - {c}));
    }

    /** Removes c, and through the summon lists all that c reaches; no list is changed while it is walked. */
    method RemoveCreature(c: Creature) returns (removed: bool)
      requires Known(Now(), creatures) && c in creatures
      modifies creatures
      ensures removed == !old(c.isRemoved) && c.isRemoved
      ensures Known(Now(), creatures) && Removes(old(Now()), Now(), c)
      ensures old(Linked(Now())) ==> Linked(Now())
      ensures old(Settled(Now())) ==> Settled(Now())
      ensures old(Settled(Now())) && removed ==>
        forall x :: x in creatures ==> (x.isRemoved <==> old(x.isRemoved) || Reaches(old(Now()), c, x))
      decreases Now().live, 0
    {
      if c.isRemoved {
        return false;
      }
      ghost var g := Now();
      TakeOff(c);
      RemovesFirst(g, Now(), c, creatures);
      RemoveSummons(c, g);
      assert forall x :: x in creatures && x !in g.live ==> x !in Now().live;
      return true;
    }

    /** One turn of the loop. */
    method RemoveSummon(c: Creature, s: Creature, ghost g: Graph)
      requires Known(Now(), creatures) && c in creatures && c.isRemoved && c in g.live && s in creatures
      requires Lost(g, Now()) && Gone(g, Now(), c, true) && (Linked(g) ==> Linked(Now())) && Edge(g, c, s)
      modifies creatures
      ensures Known(Now(), creatures) && c.isRemoved && c.summons == old(c.summons) && s !in Now().live &&
        Now().live <= old(Now().live)
      ensures Lost(g, Now()) && Gone(g, Now(), c, true) && (Linked(g) ==> Linked(Now()))
      decreases Now().live, 1
    {
      ghost var g1 := Now();
      var _ := RemoveCreature(s);
      RemovesMore(g, g1, Now(), c, s);
    }

    /** The loop over the summons of c, which is marked removed already. */
    method RemoveSummons(c: Creature, ghost g: Graph)
      requires Known(Now(), creatures) && c in creatures && c.isRemoved && c in g.live
      requires Lost(g, Now()) && Gone(g, Now(), c, true) && (Linked(g) ==> Linked(Now()))
      modifies creatures
      ensures Known(Now(), creatures) && c.isRemoved && Removes(g, Now(), c)
      ensures Linked(g) ==> Linked(Now())
      ensures Settled(g) ==> Settled(Now()) && forall x :: x in g.live ==> (x !in Now().live <==> Reaches(g, c, x))
      decreases Now().live, 2
    {
      ghost var list := c.summons;
      ghost var first := Now();
      for i := 0 to |c.summons|
        invariant c.summons == list && c.isRemoved && Now().live <= first.live
        invariant Known(Now(), creatures) && Lost(g, Now()) && Gone(g, Now(), c, true)
        invariant forall j :: 0 <= j < i ==> list[j] !in Now().live
        invariant Linked(g) ==> Linked(Now())
      {
        assert Edge(Now(), c, list[i]) && Edge(g, c, list[i]);
        assert Now().live == first.live || Now().live < first.live;
        RemoveSummon(c, c.summons[i], g);
      }
      assert forall s :: Edge(g, c, s) ==> s !in Now().live;
      if Settled(g) {
        RemovesExactly(g, Now(), c);
      }
    }
  }
}
