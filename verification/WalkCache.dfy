/** The walk cache of a creature (src/creatures/creature.cpp, src/creatures/creature.hpp).

    A creature keeps a window of (2h+1) rows by (2w+1) columns of booleans around
    itself. `Agrees` says what the window is for: every cell whose coordinates exist
    on the map, the creature's own cell aside, holds the walkability of its tile.
    The window is rebuilt on teleports and floor changes, slid in place on a step,
    and patched cell by cell when something else changes.
  */
module WalkCache {


  type Coord = c: int | 0 <= c < 0x1_0000
  type Level = c: int | 0 <= c < 256

  datatype Position = Position(x: Coord, y: Coord, z: Level)

  /** Walkability of the tile at (x, y, z); a missing tile is not walkable. */
  type World = (int, int, int) -> bool

  /** The contents of the window, by row and column. */
  type Grid = (int, int) -> bool

  predicate Walkable(world: World, x: int, y: int, z: int)
  {
    world(x, y, z)
  }

  predicate Cell(g: Grid, i: int, j: int)
  {
    g(i, j)
  }

  /** Conversion to uint16_t. */
  function Wrap(c: int): (r: Coord)
  {
    c % 0x1_0000
  }

  function Abs(n: int): nat
  {
    if n < 0 then -n else n
  }

  predicate OnMap(x: int, y: int)
  {
    0 <= x < 0x1_0000 && 0 <= y < 0x1_0000
  }

  predicate InWindow(i: int, j: int, w: nat, h: nat)
  {
    0 <= i <= 2 * h && 0 <= j <= 2 * w
  }

  /** Cell (i, j) of the window is one the cache answers for. */
  predicate Answerable(i: int, j: int, w: nat, h: nat, p: Position)
  {
    InWindow(i, j, w, h) && !(i == h && j == w) && OnMap(p.x + j - w, p.y + i - h)
  }

  /** The window around p is right about the world. */
  ghost predicate Agrees(g: Grid, w: nat, h: nat, p: Position, world: World)
  {
    forall i, j :: Answerable(i, j, w, h, p) ==> Cell(g, i, j) == Walkable(world, p.x + j - w, p.y + i - h, p.z)
  }

  // ----- what the in-place code computes, on contents -----

  /** A cell is written only when the wrapped position is back inside the window. */
  function Rebuild(g: Grid, w: nat, h: nat, p: Position, world: World): Grid
  {
    (i, j) => if OnMap(p.x + j - w, p.y + i - h) then Walkable(world, p.x + j - w, p.y + i - h, p.z) else Cell(g, i, j)
  }

  function PatchCell(g: Grid, w: nat, h: nat, v: bool, dx: int, dy: int): Grid
  {
    (i, j) => if i == h + dy && j == w + dx then v else Cell(g, i, j)
  }

  function Patch(g: Grid, w: nat, h: nat, p: Position, q: Position, world: World): Grid
  {
    (i, j) => if q.z == p.z && i == h + q.y - p.y && j == w + q.x - p.x then Walkable(world, q.x, q.y, q.z)
      else Cell(g, i, j)
  }

  function Fresh(w: nat, h: nat, p: Position, world: World, i: int, j: int): bool
  {
    Walkable(world, Wrap(p.x + j - w), Wrap(p.y + i - h), p.z)
  }

  function RefreshedRow(g: Grid, w: nat, h: nat, p: Position, dy: int, world: World): Grid
  {
    (i, j) => if i == h + dy then Fresh(w, h, p, world, i, j) else Cell(g, i, j)
  }

  function RefreshedColumn(g: Grid, w: nat, h: nat, p: Position, dx: int, world: World): Grid
  {
    (i, j) => if j == w + dx then Fresh(w, h, p, world, i, j) else Cell(g, i, j)
  }

  function SlideRows(g: Grid, w: nat, h: nat, from: Position, to: Position, world: World): Grid
  {
    (i, j) =>
      if from.y > to.y then (if i == 0 then Fresh(w, h, to, world, i, j) else Cell(g, i - 1, j))
      else if from.y < to.y then (if i == 2 * h then Fresh(w, h, to, world, i, j) else Cell(g, i + 1, j))
      else Cell(g, i, j)
  }

  /** The rows a vertical distance lets the column shift touch: it leaves out the fresh row if the distance has the
      right sign. */
  predicate Touches(d: int, i: int, h: nat)
  {
    (if d > 0 then d else 0) <= i <= (if d < 0 then 2 * h + d else 2 * h)
  }

  /** The column shift under a given reading d of the vertical distance. */
  function SlideColumnsBy(g: Grid, w: nat, h: nat, from: Position, to: Position, world: World, d: int): Grid
  {
    (i, j) =>
      if from.x < to.x then
        (if j == 2 * w then Fresh(w, h, to, world, i, j)
         else if Touches(d, i, h) then Cell(g, i, j + 1) else Cell(g, i, j))
      else if from.x > to.x then
        (if j == 0 then Fresh(w, h, to, world, i, j)
         else if Touches(d, i, h) then Cell(g, i, j - 1) else Cell(g, i, j))
      else Cell(g, i, j)
  }

  /** getDistanceY is absolute. */
  function DistanceY(from: Position, to: Position): int
  {
    Abs(from.y - to.y)
  }

  function SlideColumns(g: Grid, w: nat, h: nat, from: Position, to: Position, world: World): Grid
  {
    SlideColumnsBy(g, w, h, from, to, world, DistanceY(from, to))
  }

  function SlideBy(g: Grid, w: nat, h: nat, from: Position, to: Position, world: World, d: int): Grid
  {
    Patch(SlideColumnsBy(SlideRows(g, w, h, from, to, world), w, h, from, to, world, d), w, h, to, from, world)
  }

  function Slide(g: Grid, w: nat, h: nat, from: Position, to: Position, world: World): Grid
  {
    SlideBy(g, w, h, from, to, world, DistanceY(from, to))
  }

  function OwnMove(g: Grid, w: nat, h: nat, from: Position, to: Position, teleport: bool, world: World): Grid
  {
    if teleport || from.z != to.z then Rebuild(g, w, h, to, world) else Slide(g, w, h, from, to, world)
  }

  function OtherMove(g: Grid, w: nat, h: nat, p: Position, from: Position, to: Position, world: World): Grid
  {
    Patch(Patch(g, w, h, p, to, world), w, h, p, from, world)
  }

  datatype ItemFlags = ItemFlags(blockSolid: bool, blockPathFind: bool, isGroundTile: bool)

  predicate UpdateMatters(oldType: ItemFlags, newType: ItemFlags)
  {
    oldType.blockSolid || oldType.blockPathFind || newType.blockPathFind || newType.blockSolid
  }

  predicate RemovalMatters(iType: ItemFlags)
  {
    iType.blockSolid || iType.blockPathFind || iType.isGroundTile
  }

  // ----- the creature -----

  /** Every method takes the contents g of the window on entry as a ghost argument and says what they are on exit. */
  class Creature {
    const maxWalkCacheWidth: nat
    const maxWalkCacheHeight: nat
    const useCacheMap: bool
    const localMapCache: array2<bool>
    var position: Position
    var isMapLoaded: bool

    ghost predicate Valid()
      reads this
    {
      1 <= maxWalkCacheWidth < 0x8000 && 1 <= maxWalkCacheHeight < 0x8000 &&
      localMapCache.Length0 == 2 * maxWalkCacheHeight + 1 && localMapCache.Length1 == 2 * maxWalkCacheWidth + 1 &&
      (isMapLoaded ==> useCacheMap)
    }

    ghost predicate Shows(g: Grid)
      requires Valid()
      reads this, localMapCache
    {
      forall i, j :: InWindow(i, j, maxWalkCacheWidth, maxWalkCacheHeight) ==> localMapCache[i, j] == Cell(g, i, j)
    }

    constructor (w: nat, h: nat, useCacheMap: bool, position: Position)
      requires 1 <= w < 0x8000 && 1 <= h < 0x8000
      ensures Valid() && fresh(localMapCache) && Shows((i, j) => false)
      ensures maxWalkCacheWidth == w && maxWalkCacheHeight == h && this.useCacheMap == useCacheMap
      ensures this.position == position && !isMapLoaded
    {
      maxWalkCacheWidth, maxWalkCacheHeight := w, h;
      this.useCacheMap := useCacheMap;
      this.position, isMapLoaded := position, false;
      localMapCache := new bool[2 * h + 1, 2 * w + 1]((i, j) => false);
    }

    method UpdateTileCacheAt(walkable: bool, dx: int, dy: int, ghost g: Grid)
      requires Valid() && Shows(g)
      modifies localMapCache
      ensures Shows(PatchCell(g, maxWalkCacheWidth, maxWalkCacheHeight, walkable, dx, dy))
    {
      if Abs(dx) <= maxWalkCacheWidth && Abs(dy) <= maxWalkCacheHeight {
        localMapCache[maxWalkCacheHeight + dy, maxWalkCacheWidth + dx] := walkable;
      }
    }

    method UpdateTileCache(world: World, pos: Position, ghost g: Grid)
      requires Valid() && Shows(g)
      modifies localMapCache
      ensures Shows(Patch(g, maxWalkCacheWidth, maxWalkCacheHeight, position, pos, world))
    {
      if pos.z == position.z {
        UpdateTileCacheAt(Walkable(world, pos.x, pos.y, pos.z), pos.x - position.x, pos.y - position.y, g);
      }
    }

    method UpdateMapCache(world: World, ghost g: Grid)
      requires Valid() && Shows(g)
      modifies localMapCache
      ensures Shows(Rebuild(g, maxWalkCacheWidth, maxWalkCacheHeight, position, world))
    {
      var h: int := maxWalkCacheHeight;
      ghost var goal := Rebuild(g, maxWalkCacheWidth, maxWalkCacheHeight, position, world);
      for y: int := -h to h + 1
        invariant Shows((i, j) => if i < h + y then Cell(goal, i, j) else Cell(g, i, j))
      {
        UpdateMapCacheRow(world, y, (i, j) => if i < h + y then Cell(goal, i, j) else Cell(g, i, j));
      }
    }

    method UpdateMapCacheRow(world: World, y: int, ghost g: Grid)
      requires Valid() && Shows(g) && Abs(y) <= maxWalkCacheHeight
      modifies localMapCache
      ensures var goal := Rebuild(g, maxWalkCacheWidth, maxWalkCacheHeight, position, world);
        Shows((i, j) => if i == maxWalkCacheHeight + y then Cell(goal, i, j) else Cell(g, i, j))
    {
      var w: int, h: int := maxWalkCacheWidth, maxWalkCacheHeight;
      ghost var goal := Rebuild(g, maxWalkCacheWidth, maxWalkCacheHeight, position, world);
      for x: int := -w to w + 1
        invariant Shows((i, j) => if i == h + y && j < w + x then Cell(goal, i, j) else Cell(g, i, j))
      {
        UpdateTileCache(world, Position(Wrap(position.x + x), Wrap(position.y + y), position.z),
                        (i, j) => if i == h + y && j < w + x then Cell(goal, i, j) else Cell(g, i, j));
      }
    }

    /** 0 blocked or other floor, 1 walkable or own tile, 2 no answer. */
    method GetWalkCache(pos: Position) returns (r: int)
      requires Valid()
      ensures r ==
        if !useCacheMap then 2
        else if position.z != pos.z then 0
        else if pos == position then 1
        else if Abs(pos.x - position.x) <= maxWalkCacheWidth && Abs(pos.y - position.y) <= maxWalkCacheHeight then
          (if localMapCache[maxWalkCacheHeight + pos.y - position.y, maxWalkCacheWidth + pos.x - position.x] then 1
            else 0)
        else 2
      ensures forall g: Grid, world: World ::
        Shows(g) && Agrees(g, maxWalkCacheWidth, maxWalkCacheHeight, position, world) &&
        useCacheMap && pos != position && pos.z == position.z &&
        Abs(pos.x - position.x) <= maxWalkCacheWidth && Abs(pos.y - position.y) <= maxWalkCacheHeight
        ==> r == if Walkable(world, pos.x, pos.y, pos.z) then 1 else 0
    {
      if !useCacheMap {
        return 2;
      }
      if position.z != pos.z {
        return 0;
      }
      if pos == position {
        return 1;
      }
      var dx := pos.x - position.x;
      if Abs(dx) <= maxWalkCacheWidth {
        var dy := pos.y - position.y;
        if Abs(dy) <= maxWalkCacheHeight {
          assert Answerable(maxWalkCacheHeight + dy, maxWalkCacheWidth + dx, maxWalkCacheWidth, maxWalkCacheHeight,
            position);
          return if localMapCache[maxWalkCacheHeight + dy, maxWalkCacheWidth + dx] then 1 else 0;
        }
      }
      return 2;
    }

    method OnAddTileItem(world: World, pos: Position, ghost g: Grid)
      requires Valid() && Shows(g)
      modifies localMapCache
      ensures Shows(if isMapLoaded then Patch(g, maxWalkCacheWidth, maxWalkCacheHeight, position, pos, world) else g)
    {
      if isMapLoaded && pos.z == position.z {
        UpdateTileCache(world, pos, g);
      }
    }

    method OnUpdateTileItem(world: World, pos: Position, oldType: ItemFlags, newType: ItemFlags, ghost g: Grid)
      requires Valid() && Shows(g)
      modifies localMapCache
      ensures Shows(if isMapLoaded && UpdateMatters(oldType, newType) then
        Patch(g, maxWalkCacheWidth, maxWalkCacheHeight, position, pos, world) else g)
    {
      if !isMapLoaded {
        return;
      }
      if oldType.blockSolid || oldType.blockPathFind || newType.blockPathFind || newType.blockSolid {
        if pos.z == position.z {
          UpdateTileCache(world, pos, g);
        }
      }
    }

    method OnRemoveTileItem(world: World, pos: Position, iType: ItemFlags, ghost g: Grid)
      requires Valid() && Shows(g)
      modifies localMapCache
      ensures Shows(if isMapLoaded && RemovalMatters(iType) then
        Patch(g, maxWalkCacheWidth, maxWalkCacheHeight, position, pos, world) else g)
    {
      if !isMapLoaded {
        return;
      }
      if iType.blockSolid || iType.blockPathFind || iType.isGroundTile {
        if pos.z == position.z {
          UpdateTileCache(world, pos, g);
        }
      }
    }

    method OnCreatureAppear(world: World, isSelf: bool, pos: Position, ghost g: Grid)
      requires Valid() && Shows(g)
      modifies this`isMapLoaded, localMapCache
      ensures Valid() && isMapLoaded == (old(isMapLoaded) || (isSelf && useCacheMap))
      ensures Shows(
        if isSelf then (if useCacheMap then Rebuild(g, maxWalkCacheWidth, maxWalkCacheHeight, position, world) else g)
        else if old(isMapLoaded) then Patch(g, maxWalkCacheWidth, maxWalkCacheHeight, position, pos, world)
        else g)
    {
      if isSelf {
        if useCacheMap {
          isMapLoaded := true;
          UpdateMapCache(world, g);
        }
      } else if isMapLoaded {
        if pos.z == position.z {
          UpdateTileCache(world, pos, g);
        }
      }
    }

    method OnRemoveCreature(world: World, isSelf: bool, pos: Position, ghost g: Grid)
      requires Valid() && Shows(g)
      modifies localMapCache
      ensures Shows(if !isSelf && isMapLoaded then
        Patch(g, maxWalkCacheWidth, maxWalkCacheHeight, position, pos, world) else g)
    {
      if !isSelf && isMapLoaded {
        if pos.z == position.z {
          UpdateTileCache(world, pos, g);
        }
      }
    }

    /** North: shift the rows one down and refresh row 0. */
    method ShiftRowsSouth(world: World, from: Position, ghost g: Grid)
      requires Valid() && Shows(g) && from.y > position.y
      modifies localMapCache
      ensures Shows(SlideRows(g, maxWalkCacheWidth, maxWalkCacheHeight, from, position, world))
    {
      var w: int, h: int := maxWalkCacheWidth, maxWalkCacheHeight;
      var y := 2 * h;
      while y > 0
        invariant 0 <= y <= 2 * h
        invariant Shows((i, j) => if y < i then Cell(g, i - 1, j) else Cell(g, i, j))
      {
        y := y - 1;
        forall x | 0 <= x <= 2 * w {
          localMapCache[y + 1, x] := localMapCache[y, x];
        }
      }
      RefreshRow(world, -h, (i, j) => if 0 < i then Cell(g, i - 1, j) else Cell(g, i, j));
    }

    /** South: shift the rows one up and refresh the last row. */
    method ShiftRowsNorth(world: World, from: Position, ghost g: Grid)
      requires Valid() && Shows(g) && from.y < position.y
      modifies localMapCache
      ensures Shows(SlideRows(g, maxWalkCacheWidth, maxWalkCacheHeight, from, position, world))
    {
      var w: int, h: int := maxWalkCacheWidth, maxWalkCacheHeight;
      for y := 0 to 2 * h
        invariant Shows((i, j) => if i < y then Cell(g, i + 1, j) else Cell(g, i, j))
      {
        forall x | 0 <= x <= 2 * w {
          localMapCache[y, x] := localMapCache[y + 1, x];
        }
      }
      RefreshRow(world, h, (i, j) => if i < 2 * h then Cell(g, i + 1, j) else Cell(g, i, j));
    }

    method RefreshRow(world: World, dy: int, ghost g: Grid)
      requires Valid() && Shows(g) && Abs(dy) <= maxWalkCacheHeight
      modifies localMapCache
      ensures Shows(RefreshedRow(g, maxWalkCacheWidth, maxWalkCacheHeight, position, dy, world))
    {
      var w: int, h: int := maxWalkCacheWidth, maxWalkCacheHeight;
      ghost var goal := RefreshedRow(g, maxWalkCacheWidth, maxWalkCacheHeight, position, dy, world);
      for x: int := -w to w + 1
        invariant Shows((i, j) => if j < w + x then Cell(goal, i, j) else Cell(g, i, j))
      {
        UpdateTileCacheAt(Walkable(world, Wrap(position.x + x), Wrap(position.y + dy), position.z), x, dy,
                          (i, j) => if j < w + x then Cell(goal, i, j) else Cell(g, i, j));
      }
    }

    /** Shift the columns of all rows from the vertical distance on, and refresh the column that came into view. */
    method ShiftColumnsWest(world: World, from: Position, ghost g: Grid)
      requires Valid() && Shows(g) && from.x < position.x
      modifies localMapCache
      ensures Shows(SlideColumns(g, maxWalkCacheWidth, maxWalkCacheHeight, from, position, world))
    {
      var w: int, h: int := maxWalkCacheWidth, maxWalkCacheHeight;
      var starty, endy := 0, 2 * h;
      var dy := DistanceY(from, position);
      if dy < 0 {
        endy := endy + dy;
      } else if dy > 0 {
        starty := dy;
      }
      var y := starty;
      while y <= endy
        invariant starty <= y
        invariant Shows((i, j) => if starty <= i < y && j < 2 * w then Cell(g, i, j + 1) else Cell(g, i, j))
      {
        ShiftRowWest(y, (i, j) => if starty <= i < y && j < 2 * w then Cell(g, i, j + 1) else Cell(g, i, j));
        y := y + 1;
      }
      RefreshColumn(world, w, (i, j) => if starty <= i && j < 2 * w then Cell(g, i, j + 1) else Cell(g, i, j));
    }

    method ShiftColumnsEast(world: World, from: Position, ghost g: Grid)
      requires Valid() && Shows(g) && from.x > position.x
      modifies localMapCache
      ensures Shows(SlideColumns(g, maxWalkCacheWidth, maxWalkCacheHeight, from, position, world))
    {
      var w: int, h: int := maxWalkCacheWidth, maxWalkCacheHeight;
      var starty, endy := 0, 2 * h;
      var dy := DistanceY(from, position);
      if dy < 0 {
        endy := endy + dy;
      } else if dy > 0 {
        starty := dy;
      }
      var y := starty;
      while y <= endy
        invariant starty <= y
        invariant Shows((i, j) => if starty <= i < y && 0 < j then Cell(g, i, j - 1) else Cell(g, i, j))
      {
        ShiftRowEast(y, (i, j) => if starty <= i < y && 0 < j then Cell(g, i, j - 1) else Cell(g, i, j));
        y := y + 1;
      }
      RefreshColumn(world, -w, (i, j) => if starty <= i && 0 < j then Cell(g, i, j - 1) else Cell(g, i, j));
    }

    method ShiftRowWest(y: nat, ghost g: Grid)
      requires Valid() && Shows(g) && y <= 2 * maxWalkCacheHeight
      modifies localMapCache
      ensures Shows((i, j) => if i == y && j < 2 * maxWalkCacheWidth then Cell(g, i, j + 1) else Cell(g, i, j))
    {
      for x := 0 to 2 * maxWalkCacheWidth
        invariant Shows((i, j) => if i == y && j < x then Cell(g, i, j + 1) else Cell(g, i, j))
      {
        localMapCache[y, x] := localMapCache[y, x + 1];
      }
    }

    method ShiftRowEast(y: nat, ghost g: Grid)
      requires Valid() && Shows(g) && y <= 2 * maxWalkCacheHeight
      modifies localMapCache
      ensures Shows((i, j) => if i == y && 0 < j then Cell(g, i, j - 1) else Cell(g, i, j))
    {
      var x := 2 * maxWalkCacheWidth;
      while x > 0
        invariant 0 <= x <= 2 * maxWalkCacheWidth
        invariant Shows((i, j) => if i == y && x < j then Cell(g, i, j - 1) else Cell(g, i, j))
      {
        x := x - 1;
        localMapCache[y, x + 1] := localMapCache[y, x];
      }
    }

    method RefreshColumn(world: World, dx: int, ghost g: Grid)
      requires Valid() && Shows(g) && Abs(dx) <= maxWalkCacheWidth
      modifies localMapCache
      ensures Shows(RefreshedColumn(g, maxWalkCacheWidth, maxWalkCacheHeight, position, dx, world))
    {
      var w: int, h: int := maxWalkCacheWidth, maxWalkCacheHeight;
      ghost var goal := RefreshedColumn(g, maxWalkCacheWidth, maxWalkCacheHeight, position, dx, world);
      for y: int := -h to h + 1
        invariant Shows((i, j) => if i < h + y then Cell(goal, i, j) else Cell(g, i, j))
      {
        UpdateTileCacheAt(Walkable(world, Wrap(position.x + dx), Wrap(position.y + y), position.z), dx, y,
                          (i, j) => if i < h + y then Cell(goal, i, j) else Cell(g, i, j));
      }
    }

    /** The cache part of the notification; the creature already stands on newPos when it is its own move. */
    method OnCreatureMove(world: World, isSelf: bool, newPos: Position, oldPos: Position, teleport: bool, ghost g: Grid)
      requires Valid() && Shows(g) && (isSelf ==> position == newPos)
      modifies localMapCache
      ensures Shows(
        if !isMapLoaded then g
        else if isSelf then OwnMove(g, maxWalkCacheWidth, maxWalkCacheHeight, oldPos, newPos, teleport, world)
        else OtherMove(g, maxWalkCacheWidth, maxWalkCacheHeight, position, oldPos, newPos, world))
    {
      if isSelf {
        if isMapLoaded {
          if teleport || oldPos.z != newPos.z {
            UpdateMapCache(world, g);
          } else {
            if oldPos.y > newPos.y {
              ShiftRowsSouth(world, oldPos, g);
            } else if oldPos.y < newPos.y {
              ShiftRowsNorth(world, oldPos, g);
            }
            ghost var rows := SlideRows(g, maxWalkCacheWidth, maxWalkCacheHeight, oldPos, newPos, world);
            if oldPos.x < newPos.x {
              ShiftColumnsWest(world, oldPos, rows);
            } else if oldPos.x > newPos.x {
              ShiftColumnsEast(world, oldPos, rows);
            }
            UpdateTileCache(world, oldPos,
              SlideColumns(rows, maxWalkCacheWidth, maxWalkCacheHeight, oldPos, newPos, world));
          }
        }
      } else if isMapLoaded {
        if newPos.z == position.z {
          UpdateTileCache(world, newPos, g);
        }
        if oldPos.z == position.z {
          UpdateTileCache(world, oldPos, Patch(g, maxWalkCacheWidth, maxWalkCacheHeight, position, newPos, world));
        }
      }
    }
  }
}
