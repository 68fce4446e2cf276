/** What the walk cache keeps: a slide refines a rebuild in seven of the eight
    directions, and over every run the cache is right from each rebuild up to the
    next diagonal step to the south.
  */
module WalkCacheTheorems {
  import opened WalkCache

  /** The two worlds differ at most at p and q. */
  ghost predicate SameBut(world: World, world': World, p: Position, q: Position)
  {
    forall x, y, z :: (x, y, z) != (p.x, p.y, p.z) && (x, y, z) != (q.x, q.y, q.z) ==>
        Walkable(world, x, y, z) == Walkable(world', x, y, z)
  }

  lemma {:induction false} RebuildAgrees(g: Grid, w: nat, h: nat, p: Position, world: World)
    ensures Agrees(Rebuild(g, w, h, p, world), w, h, p, world)
  {
  }

  /** Two patches cover a change at two places. */
  lemma {:induction false} PatchesAgree(g: Grid, w: nat, h: nat, p: Position, from: Position, to: Position,
      world: World, world': World)
    requires Agrees(g, w, h, p, world) && SameBut(world, world', from, to)
    ensures Agrees(OtherMove(g, w, h, p, from, to, world'), w, h, p, world')
  {
  }

  /** A step that the in-place slide handles under a reading d of the vertical distance: no column moves, or d is the
      signed offset. */
  predicate SlidesWellBy(from: Position, to: Position, d: int)
  {
    Abs(to.x - from.x) <= 1 && Abs(to.y - from.y) <= 1 && (to.x == from.x || d == from.y - to.y)
  }

  /** With the absolute distance these are the steps other than diagonals to the south. */
  predicate SlidesWell(from: Position, to: Position)
  {
    Abs(to.x - from.x) <= 1 && Abs(to.y - from.y) <= 1 && !(to.y == from.y + 1 && to.x != from.x)
  }

  lemma {:induction false} FreshIsCurrent(w: nat, h: nat, p: Position, world: World, i: int, j: int)
    requires OnMap(p.x + j - w, p.y + i - h)
    ensures Fresh(w, h, p, world, i, j) == Walkable(world, p.x + j - w, p.y + i - h, p.z)
  {
  }

  /** The rows after the vertical shift: old rows moved by one, or a fresh one. */
  lemma {:induction false} SlidRow(g: Grid, w: nat, h: nat, from: Position, to: Position, world: World, i: int, j: int)
    requires Abs(to.y - from.y) <= 1 && InWindow(i, j, w, h)
    ensures var i' := i + to.y - from.y;
      Cell(SlideRows(g, w, h, from, to, world), i, j) == if 0 <= i' <= 2 * h then Cell(g, i', j)
        else Fresh(w, h, to, world, i, j)
  {
    var i' := i + to.y - from.y;
    if from.y > to.y {
      assert i' == i - 1;
    } else if from.y < to.y {
      assert i' == i + 1;
    }
  }

  /** The columns after the horizontal shift, where the rows it does not touch stay. */
  lemma {:induction false} SlidColumn(g: Grid, w: nat, h: nat, from: Position, to: Position, world: World, d: int,
      i: int, j: int)
    requires Abs(to.x - from.x) <= 1 && InWindow(i, j, w, h)
    ensures var j' := j + to.x - from.x;
      Cell(SlideColumnsBy(g, w, h, from, to, world, d), i, j) ==
        if !(0 <= j' <= 2 * w) then Fresh(w, h, to, world, i, j)
        else if Touches(d, i, h) then Cell(g, i, j')
        else Cell(g, i, j)
  {
    var j' := j + to.x - from.x;
    if from.x < to.x {
      assert j' == j + 1;
    } else if from.x > to.x {
      assert j' == j - 1;
    }
  }

  /** Which old cell, if any, the slid window shows at (i, j); the column shift leaves a row out exactly when it is
      fresh. */
  lemma {:induction false} SlidCell(g: Grid, w: nat, h: nat, from: Position, to: Position, world: World, d: int,
      i: int, j: int)
    requires SlidesWellBy(from, to, d) && from.z == to.z && Answerable(i, j, w, h, to)
    ensures var i', j' := i + to.y - from.y, j + to.x - from.x;
      Cell(SlideBy(g, w, h, from, to, world, d), i, j) ==
        if i' == h && j' == w then Walkable(world, from.x, from.y, from.z)
        else if InWindow(i', j', w, h) then Cell(g, i', j')
        else Walkable(world, to.x + j - w, to.y + i - h, to.z)
  {
    var j' := j + to.x - from.x;
    var rows := SlideRows(g, w, h, from, to, world);
    var columns := SlideColumnsBy(rows, w, h, from, to, world, d);
    assert Cell(SlideBy(g, w, h, from, to, world, d), i, j) ==
      if i == h + from.y - to.y && j == w + from.x - to.x then Walkable(world, from.x, from.y, from.z)
          else Cell(columns, i, j);
    SlidColumn(rows, w, h, from, to, world, d, i, j);
    SlidRow(g, w, h, from, to, world, i, j);
    if 0 <= j' <= 2 * w {
      SlidRow(g, w, h, from, to, world, i, j');
    }
    FreshIsCurrent(w, h, to, world, i, j);
    if to.x != from.x {
      assert Touches(d, i, h) <==> 0 <= i + to.y - from.y <= 2 * h;
    }
  }

  /** After a step the slid window is right about the new world, whatever the reading of the distance that handles it.
      */
  lemma {:induction false} SlideByAgrees(g: Grid, w: nat, h: nat, from: Position, to: Position, world: World,
      world': World, d: int)
    requires Agrees(g, w, h, from, world) && SameBut(world, world', from, to)
    requires from.z == to.z && SlidesWellBy(from, to, d)
    ensures Agrees(SlideBy(g, w, h, from, to, world', d), w, h, to, world')
  {
    forall i, j | Answerable(i, j, w, h, to)
      ensures Cell(SlideBy(g, w, h, from, to, world', d), i, j) == Walkable(world', to.x + j - w, to.y + i - h, to.z)
    {
      SlidCell(g, w, h, from, to, world', d, i, j);
      var i', j' := i + to.y - from.y, j + to.x - from.x;
      if InWindow(i', j', w, h) && !(i' == h && j' == w) {
        assert Answerable(i', j', w, h, from);
      }
    }
  }

  /** With the signed distance all eight directions slide rightly. */
  lemma {:induction false} SignedDistanceAgrees(g: Grid, w: nat, h: nat, from: Position, to: Position, world: World,
      world': World)
    requires Agrees(g, w, h, from, world) && SameBut(world, world', from, to)
    requires from.z == to.z && Abs(to.x - from.x) <= 1 && Abs(to.y - from.y) <= 1
    ensures Agrees(SlideBy(g, w, h, from, to, world', from.y - to.y), w, h, to, world')
  {
    SlideByAgrees(g, w, h, from, to, world, world', from.y - to.y);
  }

  lemma {:induction false} SlideAgrees(g: Grid, w: nat, h: nat, from: Position, to: Position, world: World,
      world': World)
    requires Agrees(g, w, h, from, world) && SameBut(world, world', from, to)
    requires from.z == to.z && SlidesWell(from, to)
    ensures Agrees(Slide(g, w, h, from, to, world'), w, h, to, world')
  {
    assert SlidesWellBy(from, to, DistanceY(from, to));
    SlideByAgrees(g, w, h, from, to, world, world', DistanceY(from, to));
  }

  /** The slide leaves what a rebuild at the new position would show. */
  lemma {:induction false} SlideRefinesRebuild(g: Grid, w: nat, h: nat, from: Position, to: Position, world: World,
      world': World)
    requires Agrees(g, w, h, from, world) && SameBut(world, world', from, to)
    requires from.z == to.z && SlidesWell(from, to)
    ensures forall i, j :: Answerable(i, j, w, h, to) ==>
      Cell(Slide(g, w, h, from, to, world'), i, j) == Cell(Rebuild(g, w, h, to, world'), i, j)
  {
    SlideAgrees(g, w, h, from, to, world, world');
    RebuildAgrees(g, w, h, to, world');
    var r, q := Slide(g, w, h, from, to, world'), Rebuild(g, w, h, to, world');
    forall i, j | Answerable(i, j, w, h, to)
      ensures Cell(r, i, j) == Cell(q, i, j)
    {
      assert Cell(r, i, j) == Walkable(world', to.x + j - w, to.y + i - h, to.z);
    }
  }

  /** Sliding from one place to another is right whatever the worlds are. */
  ghost predicate AlwaysRight(w: nat, h: nat, from: Position, to: Position)
  {
    forall g: Grid, world: World, world': World ::
      Agrees(g, w, h, from, world) && SameBut(world, world', from, to) ==>
        Agrees(Slide(g, w, h, from, to, world'), w, h, to, world')
  }

  /** A southward diagonal leaves row 0 one column behind. */
  lemma {:induction false} SouthDiagonalFails(w: nat, h: nat, dx: int)
    requires 1 <= w < 0x8000 && 1 <= h < 0x8000 && (dx == 1 || dx == -1)
    ensures !AlwaysRight(w, h, Position(w + 1, h, 0), Position(w + 1 + dx, h + 1, 0))
  {
    var from, to := Position(w + 1, h, 0), Position(w + 1 + dx, h + 1, 0);
    var world: World := (x, y, z) => x == w + 1;
    var g := Rebuild((i, j) => false, w, h, from, world);
    assert Agrees(g, w, h, from, world) && SameBut(world, world, from, to);
    var rows := SlideRows(g, w, h, from, to, world);
    var columns := SlideColumns(rows, w, h, from, to, world);
    SlidColumn(rows, w, h, from, to, world, DistanceY(from, to), 0, w);
    SlidRow(g, w, h, from, to, world, 0, w);
    assert Cell(columns, 0, w) == Cell(g, 1, w);
    assert Cell(g, 1, w) == Walkable(world, from.x + w - w, from.y + 1 - h, 0);
    assert Cell(Slide(g, w, h, from, to, world), 0, w);
    assert Answerable(0, w, w, h, to) && !Walkable(world, to.x, to.y - h, to.z);
    assert !Agrees(Slide(g, w, h, from, to, world), w, h, to, world);
  }

  /** Exactly the southward diagonals break the slide. */
  lemma {:induction false} SlideRightIffNotSouthDiagonal(w: nat, h: nat, dx: int, dy: int)
    requires 1 <= w < 0x8000 && 1 <= h < 0x8000 && Abs(dx) <= 1 && Abs(dy) <= 1
    ensures (forall from: Position, to: Position :: to.z == from.z && to.x == from.x + dx && to.y == from.y + dy ==>
      AlwaysRight(w, h, from, to))
      <==> !(dy == 1 && dx != 0)
  {
    if dy == 1 && dx != 0 {
      SouthDiagonalFails(w, h, dx);
      assert !AlwaysRight(w, h, Position(w + 1, h, 0), Position(w + 1 + dx, h + 1, 0));
    } else {
      forall from: Position, to: Position | to.z == from.z && to.x == from.x + dx && to.y == from.y + dy
        ensures AlwaysRight(w, h, from, to)
      {
        forall g: Grid, world: World, world': World | Agrees(g, w, h, from, world) && SameBut(world, world', from, to)
          ensures Agrees(Slide(g, w, h, from, to, world'), w, h, to, world')
        {
          SlideAgrees(g, w, h, from, to, world, world');
        }
      }
    }
  }

  // ----- whole runs -----

  /** What can happen around a creature whose cache is in use. */
  datatype Event =
    | SelfAppears(at: Position)
    | SelfMoves(to: Position, teleport: bool)
    | OtherAppears(at: Position)
    | OtherLeaves(at: Position)
    | OtherMoves(from: Position, dest: Position)
    | ItemAdded(at: Position)
    | ItemUpdated(at: Position, oldType: ItemFlags, newType: ItemFlags)
    | ItemRemoved(at: Position, iType: ItemFlags)

  /** `stale` remembers a step the slide cannot handle since the last rebuild. */
  datatype State = State(g: Grid, p: Position, loaded: bool, world: World, stale: bool)

  /** The world change an event may bring; skipped item updates do not change walkability. */
  ghost predicate Fits(s: State, e: Event, world': World)
  {
    match e
    case SelfAppears(at) => true
    case SelfMoves(to, _) => SameBut(s.world, world', s.p, to)
    case OtherAppears(at) => SameBut(s.world, world', at, at)
    case OtherLeaves(at) => SameBut(s.world, world', at, at)
    case OtherMoves(from, dest) => SameBut(s.world, world', from, dest)
    case ItemAdded(at) => SameBut(s.world, world', at, at)
    case ItemUpdated(at, o, n) => if UpdateMatters(o, n) then SameBut(s.world, world', at, at) else world' == s.world
    case ItemRemoved(at, t) => if RemovalMatters(t) then SameBut(s.world, world', at, at) else world' == s.world
  }

  /** One notification, as the methods of the creature leave the cache. */
  function Notify(s: State, e: Event, w: nat, h: nat, world': World): State
  {
    match e
    case SelfAppears(at) =>
      State(Rebuild(s.g, w, h, at, world'), at, true, world', false)
    case SelfMoves(to, teleport) =>
      var rebuilt := teleport || s.p.z != to.z;
      State(if s.loaded then OwnMove(s.g, w, h, s.p, to, teleport, world') else s.g, to, s.loaded, world',
            !rebuilt && (s.stale || !SlidesWell(s.p, to)))
    case OtherMoves(from, dest) =>
      s.(g := if s.loaded then OtherMove(s.g, w, h, s.p, from, dest, world') else s.g, world := world')
    case ItemUpdated(at, o, n) =>
      s.(g := if s.loaded && UpdateMatters(o, n) then Patch(s.g, w, h, s.p, at, world') else s.g, world := world')
    case ItemRemoved(at, t) =>
      s.(g := if s.loaded && RemovalMatters(t) then Patch(s.g, w, h, s.p, at, world') else s.g, world := world')
    case _ =>
      s.(g := if s.loaded then Patch(s.g, w, h, s.p, e.at, world') else s.g, world := world')
  }

  ghost predicate Coherent(s: State, w: nat, h: nat)
  {
    s.loaded && !s.stale ==> Agrees(s.g, w, h, s.p, s.world)
  }

  lemma {:induction false} NotifyKeepsCoherence(s: State, e: Event, w: nat, h: nat, world': World)
    requires Coherent(s, w, h) && Fits(s, e, world')
    ensures Coherent(Notify(s, e, w, h, world'), w, h)
  {
    match e
    case SelfAppears(at) =>
      RebuildAgrees(s.g, w, h, at, world');
    case SelfMoves(to, teleport) =>
      RebuildAgrees(s.g, w, h, to, world');
      if s.loaded && !s.stale && !teleport && s.p.z == to.z && SlidesWell(s.p, to) {
        SlideAgrees(s.g, w, h, s.p, to, s.world, world');
      }
    case OtherMoves(from, dest) =>
      if s.loaded && !s.stale {
        PatchesAgree(s.g, w, h, s.p, from, dest, s.world, world');
      }
    case _ =>
  }

  /** The states s[0], s[1], ... arise from the events. */
  ghost predicate IsRun(s: seq<State>, events: seq<Event>, w: nat, h: nat)
  {
    |s| == |events| + 1 &&
    forall k :: 0 <= k < |events| ==>
      Fits(s[k], events[k], s[k + 1].world) && s[k + 1] == Notify(s[k], events[k], w, h, s[k + 1].world)
  }

  /** In every run from an unloaded cache, every query is answered from the current world unless a southward diagonal
      happened since the last rebuild. */
  lemma {:induction false} CoherenceOverRuns(s: seq<State>, events: seq<Event>, w: nat, h: nat, n: nat)
    requires IsRun(s, events, w, h) && n < |s|
    requires !s[0].loaded
    ensures Coherent(s[n], w, h)
  {
    if n > 0 {
      CoherenceOverRuns(s, events, w, h, n - 1);
      NotifyKeepsCoherence(s[n - 1], events[n - 1], w, h, s[n].world);
    }
  }
}
