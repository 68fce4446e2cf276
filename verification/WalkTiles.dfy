/** What an item on a tile means for walking, and which changes the walk cache may skip
    (src/items/tile.cpp: queryAdd, setTileFlags; src/creatures/creature.cpp: onUpdateTileItem, onRemoveTileItem).

    This is the part of queryAdd that looks at items, for a player finding his way; creatures on the
    tile and zones are a condition of their own.
  */
module WalkTiles {
  import opened WalkCache

  /** An item on the tile; `leads` if it is a teleport or changes the floor. */
  datatype TileItem = TileItem(flags: ItemFlags, leads: bool)

  /** An item that keeps path finding off the tile. */
  predicate Obstructs(i: TileItem)
  {
    i.flags.blockSolid || i.flags.blockPathFind || i.leads
  }

  /** There is ground, and no item obstructs. */
  ghost predicate Open(tile: seq<TileItem>)
  {
    (exists k :: 0 <= k < |tile| && tile[k].flags.isGroundTile) && forall k :: 0 <= k < |tile| ==> !Obstructs(tile[k])
  }

  function WithoutItem(tile: seq<TileItem>, k: nat): seq<TileItem>
    requires k < |tile|
  {
    tile[..k] + tile[k + 1..]
  }

  /** The rest of the tile is open, so that this item decides. */
  ghost predicate Decides(tile: seq<TileItem>, k: nat)
    requires k < |tile|
  {
    (exists j :: 0 <= j < |tile| && tile[j].flags.isGroundTile) &&
    forall j :: 0 <= j < |tile| && j != k ==> !Obstructs(tile[j])
  }

  /** A change of an item that the cache skips leaves the tile as walkable as it was, unless all else is open and just
      one of the two items leads elsewhere. */
  lemma {:induction false} SkippedUpdateIff(tile: seq<TileItem>, k: nat, item: TileItem)
    requires k < |tile| && item.flags.isGroundTile == tile[k].flags.isGroundTile
    requires !UpdateMatters(tile[k].flags, item.flags)
    ensures (Open(tile) <==> Open(tile[k := item])) <==> !(Decides(tile, k) && tile[k].leads != item.leads)
  {
    var after := tile[k := item];
    assert forall j :: 0 <= j < |tile| ==> after[j].flags.isGroundTile == tile[j].flags.isGroundTile;
    assert after[k] == item;
    assert forall j :: 0 <= j < |tile| && j != k ==> after[j] == tile[j];
    OpenIff(tile, k);
    OpenIff(after, k);
    SameRest(tile, after, k);
  }

  /** All else being open, the item itself decides. */
  lemma {:induction false} OpenIff(tile: seq<TileItem>, k: nat)
    requires k < |tile|
    ensures Open(tile) <==> Decides(tile, k) && !Obstructs(tile[k])
  {
  }

  lemma {:induction false} SameRest(tile: seq<TileItem>, after: seq<TileItem>, k: nat)
    requires k < |tile| == |after| && forall j :: 0 <= j < |tile| && j != k ==> after[j] == tile[j]
    requires after[k].flags.isGroundTile == tile[k].flags.isGroundTile
    ensures Decides(tile, k) <==> Decides(after, k)
  {
    if Decides(tile, k) {
      var j :| 0 <= j < |tile| && tile[j].flags.isGroundTile;
      assert after[j].flags.isGroundTile;
    }
    if Decides(after, k) {
      var j :| 0 <= j < |tile| && after[j].flags.isGroundTile;
      assert tile[j].flags.isGroundTile;
    }
  }

  /** A removal that the cache skips leaves the tile as walkable as it was, unless all else is open and the item leads
      elsewhere. */
  lemma {:induction false} SkippedRemovalIff(tile: seq<TileItem>, k: nat)
    requires k < |tile| && !RemovalMatters(tile[k].flags)
    ensures (Open(tile) <==> Open(WithoutItem(tile, k))) <==> !(Decides(tile, k) && tile[k].leads)
  {
    OpenIff(tile, k);
    RestIsOpen(tile, k);
  }

  lemma {:induction false} RestIsOpen(tile: seq<TileItem>, k: nat)
    requires k < |tile| && !tile[k].flags.isGroundTile
    ensures Open(WithoutItem(tile, k)) <==> Decides(tile, k)
  {
    var rest := WithoutItem(tile, k);
    assert forall j :: 0 <= j < k ==> rest[j] == tile[j];
    assert forall j :: k < j < |tile| ==> rest[j - 1] == tile[j];
    assert forall j :: k <= j < |rest| ==> rest[j] == tile[j + 1];
    if Decides(tile, k) {
      var j :| 0 <= j < |tile| && tile[j].flags.isGroundTile;
      assert rest[if j < k then j else j - 1].flags.isGroundTile;
    }
    if Open(rest) {
      var j :| 0 <= j < |rest| && rest[j].flags.isGroundTile;
      assert tile[if j < k then j else j + 1].flags.isGroundTile;
    }
  }

  /** The cache acts exactly on the items that close a tile of nothing but ground, and on ground. */
  lemma {:induction false} MattersIff(oldType: ItemFlags, newType: ItemFlags)
    ensures var ground := TileItem(ItemFlags(false, false, true), false);
      && (UpdateMatters(oldType, newType) <==>
            !Open([ground, TileItem(oldType, false)]) || !Open([ground, TileItem(newType, false)]))
      && (RemovalMatters(oldType) <==> oldType.isGroundTile || !Open([ground, TileItem(oldType, false)]))
  {
    var ground := TileItem(ItemFlags(false, false, true), false);
    var a, b := [ground, TileItem(oldType, false)], [ground, TileItem(newType, false)];
    assert a[0] == ground && b[0] == ground && a[1] == TileItem(oldType, false) && b[1] == TileItem(newType, false);
    OpenIff(a, 1);
    OpenIff(b, 1);
  }

  /** A teleport that blocks nothing is removed: the tile opens, and the cache is not told. */
  lemma {:induction false} RemovedTeleport()
    ensures var teleport := TileItem(ItemFlags(false, false, false), true);
      var tile := [TileItem(ItemFlags(false, false, true), false), teleport];
      !RemovalMatters(teleport.flags) && !Open(tile) && Open(WithoutItem(tile, 1))
  {
    var ground := TileItem(ItemFlags(false, false, true), false);
    var tile := [ground, TileItem(ItemFlags(false, false, false), true)];
    assert tile[0] == ground && WithoutItem(tile, 1) == [ground] && [ground][0] == ground;
    OpenIff(tile, 1);
  }
}
