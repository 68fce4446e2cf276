# Canary: walk cache, goods and coins, scheduling, binary maps

A Dafny model of the parts of the Canary game server whose correctness spans many
functions or whole runs, with proofs. Every module names the source files it models.

* **Walk cache** (`WalkCache`, `WalkCacheTheorems`, `WalkTiles`). A creature keeps a window of
  booleans around itself, slides it in place when it steps and patches it when the
  world changes. The in-place loops are proved against a specification on grids, the
  specification against a rebuild, and the answers against the world over all runs;
  `WalkTiles` says which changes of items it may skip.
* **OTB files and map streams** (`OtbFormat`, `OtbLoader`, `OtbTheorems`,
  `FileStream`, `NameBytes`, `MapRecords`, `PropStream`). The encoder is the specification; the
  stack parser on node objects, the cursor with its one-byte steps back and the
  property streams are proved to invert it, and the parser to accept exactly the
  well-formed streams.
* **Creature scheduler and removal** (`ScheduleRules`, `ScheduleActs`,
  `ScheduleFairness`, `ScheduleTours`, `Scheduler`, `Removal`). Ten buckets with lazy deletion, changed by
  callbacks while they are walked, and who is reached nevertheless; and the removal
  cascade along summon lists, with reachability as its specification.
* **Trade** (`TradeRules`, `TradeOffers`, `Trade`). The two-party trade as a state
  machine for any number of players, with closings nested inside a transfer, and what
  an acceptance is worth.
* **Coins** (`Money`, `Minting`, `Payment`). Collecting coins from nested containers,
  minting, making change, and paying exactly.
* **Items** (`Cylinders`, `MoveItem`, `AddItem`). Moving, splitting, merging and
  adding stacks conserves every kind of item, but for an exact set of overfull stacks.
* **Market** (`MarketGoods`, `MarketBooks`, `MarketRules`, `MarketTiers`,
  `MarketPlayers`, `Market`). Offers as escrow: money is conserved over all runs of
  creating, cancelling and accepting, goods under an exact condition, and what every
  player pays and gets is written out.
* **Experience** (`Experience`). What a dying creature hands out.
* **Batched inserts** (`BatchInsert`, `BatchSessions`). Cutting one long text at row
  boundaries, and what a statement sends from its first row to its execution.
* `Sums` holds sums over finite maps, `Options` the optional value.

Code that works by changing objects is modelled by classes whose methods are proved
against specification functions on values; what the source promises is proved about
these functions as lemmas. Code that is not part of the model enters as parameters
that may take any value: the walkability of the world, the answers of cylinder
queries, the acts of callbacks, the events inside a transfer, the order in which a
depot is searched and the removals that fail in it, and the answers of the database.

## What the proofs found

* `Position::getDistanceY` is absolute, so the branches in the column shift that expect
  a negative distance never run. On a southward diagonal step row 0 stays one column
  behind. `SlideRightIffNotSouthDiagonal` shows that exactly these steps are wrong;
  with a signed distance none is (`SignedDistanceAgrees`).
* The tests in `onUpdateTileItem` and `onRemoveTileItem` leave out teleports and floor
  changes, which `queryAdd` refuses to path finding. When one that blocks nothing else
  appears in place of another item or goes away, the window is not told
  (`SkippedUpdateIff`, `SkippedRemovalIff`, `RemovedTeleport`).
* `FileStream::getString` does not unescape, although numbers are unescaped:
  a text is read back exactly if it is shorter than 8192 bytes and holds no byte from
  0xFD on (`TextInvertsIffPlain`). In a town or waypoint the bytes left over may be
  skipped as escapes of the numbers that follow; `PlaceInvertsIff` says exactly when a
  record comes back.
  A failed `startNode` or `endNode` moves the position exactly if it skipped an escape
  byte (`FailedStartStays`, `FailedFinishStays`).
* `PropWriteStream::writeString` writes an empty string for a longer one than 65535
  bytes, and `PropStream::readString` keeps the length consumed when it fails, unless not
  even the length was there (`FailedTextStays`).
* The OTB loader refuses files of seven bytes or less, so a root without properties and
  children cannot be loaded back (`EmptyEncoding`).
* `DBInsert` never resets its counted length and never drops the rows it sent. Once
  the count is over the packet size, every further row sends all rows before it again,
  and `execute` sends them once more. Rows are sent exactly once if and only if there
  is at most one or everything fits the packet size (`SentOnceIff`, `TimesSent`,
  `FirstRowTwice`). A row that contains `),(` is cut in two under some limit
  (`NeverCutIffClean`).
* In `checkCreatures`, a creature scheduled into the bucket under way takes the slot of
  a stale entry and pushes the last entry out of the visit (`PassedOver`). Whatever is
  scheduled, all flagged entries are processed if and only if no stale entry lies before
  the last flagged one, or a single one does and another lies behind it; stale entries
  in front are first replaced by the last flagged one (`FairForAllIff`). Nobody is ever
  processed twice within ten visits (`TourDistinct`).
* A trade can be accepted before the partner has offered anything, and an offer made
  afterwards does not take the acceptance back. An exchange is the one accepted if and
  only if no offer was added since (`ExchangeAsAcceptedIff`, `UnseenOffer`).
* In `internalAddItem` only the outermost call reports what was left over. A refusal
  from the third call on loses items silently (`AccountedForIff`, `LateRefusalLoses`).
* The crystal counter of `addMoney` multiplies in 32 bits. What is minted is worth the
  money exactly if the crystals fit 32 bits and the product does not wrap, or wraps a
  multiple of 25 times and some gold is due (`MintedExactIff`). The first failure is
  at 4294970000 (`BoundIsTight`).
* `removeOfferItems` asks the stash by item alone, and takes what it can before it
  fails, as a comment in the source admits. What a failed removal loses, and which
  goods change their tier, is computed from the books before the command
  (`RemovalTakes`, `DoKeeps`); goods are conserved per item and tier exactly if
  neither happens (`FailureLosesNothingIff`, `CommandConservesIff`).
* The total damage is a 32-bit sum. If it wraps to anything but zero and below the
  damage of those still there, some lost experience is handed out more than once
  (`NeverTooMuchIff`, `WrapGivesTooMuch`).
* A stack above its stack size, as large sums mint them, makes the room of a merge wrap
  around. A move loses 256 exactly if it ends on such a stack and both together do not
  fit a byte (`InternalMoveItem`), and so does an addition (`LosesIff`).

## Model

| member | source | states |
|---|---|---|
| `WalkCache.Creature.constructor` | src/creatures/creature.hpp:714-717 | a new window is (2h+1) by (2w+1), shows nothing walkable and counts as not loaded |
| `WalkCache.Creature.UpdateTileCacheAt` | src/creatures/creature.cpp:290-295 | exactly the cell at the offset changes, and only if the offset lies in the window |
| `WalkCache.Creature.UpdateTileCache` | src/creatures/creature.cpp:297-304 | the cell of a map position on the same floor takes its current walkability; other floors change nothing |
| `WalkCache.Creature.UpdateMapCache` | src/creatures/creature.cpp:274-288 | the loops leave the window a rebuild specifies: every cell but the own tile and those beyond the map edge |
| `WalkCache.Creature.UpdateMapCacheRow` | src/creatures/creature.cpp:276-287 | one row of the rebuild, the others untouched |
| `WalkCache.Creature.GetWalkCache` | src/creatures/creature.cpp:306-331 | answers 2, 0 or 1 as the code does, and answers the walkability of the world whenever the window agrees with it |
| `WalkCache.Creature.OnAddTileItem` | src/creatures/creature.cpp:333-337 | patches the cell if the map is loaded |
| `WalkCache.Creature.OnUpdateTileItem` | src/creatures/creature.cpp:339-349 | patches exactly if the map is loaded and a blocking or path-blocking flag was or is set |
| `WalkCache.Creature.OnRemoveTileItem` | src/creatures/creature.cpp:351-361 | patches exactly if the map is loaded and the item was blocking, path-blocking or ground |
| `WalkTiles.SkippedUpdateIff` | src/creatures/creature.cpp:339-349 | a change of an item that is not patched leaves the tile as walkable as before, exactly unless all else on it is open and just one of the two items is a teleport or floor change |
| `WalkTiles.SkippedRemovalIff` | src/creatures/creature.cpp:351-361 | a removal that is not patched leaves the tile as walkable as before, exactly unless all else is open and the item is a teleport or floor change |
| `WalkTiles.MattersIff` | src/creatures/creature.cpp:344-356 | the flag tests name exactly the items that close a tile of nothing but ground, and ground |
| `WalkTiles.RemovedTeleport` | src/items/tile.cpp:585-591 | a concrete tile that opens while the window is not told |
| `WalkCache.Creature.OnCreatureAppear` | src/creatures/creature.cpp:363-379 | the own appearance rebuilds and loads, that of others patches their cell |
| `WalkCache.Creature.OnRemoveCreature` | src/creatures/creature.cpp:381-389 | patches the cell of another creature that leaves |
| `WalkCache.Creature.OnCreatureMove` | src/creatures/creature.cpp:503-597 | the whole cache part of a move, own or of others, is the move the specification describes: nothing, slide, rebuild or two patches |
| `WalkCache.Creature.ShiftRowsSouth` | src/creatures/creature.cpp:510-520 | in-place copying of rows is the simultaneous shift by one, with row 0 refreshed |
| `WalkCache.Creature.ShiftRowsNorth` | src/creatures/creature.cpp:521-532 | in-place copying of rows is the simultaneous shift by one, with the last row refreshed |
| `WalkCache.Creature.ShiftColumnsWest` | src/creatures/creature.cpp:534-556 | columns shift by one from the row the vertical distance names on, and the column that came into view is fresh |
| `WalkCache.Creature.ShiftColumnsEast` | src/creatures/creature.cpp:557-580 | columns shift by one from the row the vertical distance names on, and the column that came into view is fresh |
| `WalkCache.Creature.ShiftRowWest` | src/creatures/creature.cpp:546-550 | one row moved in place by one cell, no cell read after it was overwritten |
| `WalkCache.Creature.ShiftRowEast` | src/creatures/creature.cpp:569-573 | one row moved in place by one cell, no cell read after it was overwritten |
| `WalkCache.Creature.RefreshRow` | src/creatures/creature.cpp:516-520 | one row takes the current walkability |
| `WalkCache.Creature.RefreshColumn` | src/creatures/creature.cpp:552-556 | one column takes the current walkability |
| `WalkCacheTheorems.RebuildAgrees` | src/creatures/creature.cpp:274-288 | after a rebuild the window agrees with the world |
| `WalkCacheTheorems.PatchesAgree` | src/creatures/creature.cpp:585-597 | if the world changed at two places, patching these two keeps the agreement |
| `WalkCacheTheorems.SlidCell` | src/creatures/creature.cpp:503-583 | which old cell, if any, every cell of the slid window shows, for any vertical distance the column shift might use |
| `WalkCacheTheorems.SignedDistanceAgrees` | src/creatures/creature.cpp:534-580 | with a signed vertical distance, the one word the column shift would need changed, every step in all eight directions leaves a window that agrees with the new world |
| `WalkCacheTheorems.SlideAgrees` | src/creatures/creature.cpp:503-583 | a step that is not a southward diagonal leaves a window that agrees with the new world |
| `WalkCacheTheorems.SlideRefinesRebuild` | src/creatures/creature.cpp:503-583 | unless the step is a southward diagonal, sliding leaves exactly what a rebuild at the new position would build, cell by cell, own tile aside |
| `WalkCacheTheorems.SouthDiagonalFails` | src/game/movement/position.hpp:53-58 | a concrete window and world on which the southward diagonals go wrong, the vertical distance being absolute |
| `WalkCacheTheorems.SlideRightIffNotSouthDiagonal` | src/creatures/creature.cpp:503-583 | a step by (dx, dy) slides rightly from every window and world exactly if it is not a southward diagonal |
| `WalkCacheTheorems.NotifyKeepsCoherence` | src/creatures/creature.cpp:333-389 | every notification keeps the window in agreement with the world, provided skipped updates did not change walkability |
| `WalkCacheTheorems.CoherenceOverRuns` | src/creatures/creature.cpp:274-389 | over every run of events from an unloaded window the agreement holds until a southward diagonal, and again after the next rebuild |
| `OtbFormat.UnescapeInvertsEscape` | src/io/fileloader.cpp:92-106 | reading properties back gives them, whatever bytes they hold |
| `OtbFormat.EscapeIsClosed` | src/io/fileloader.cpp:39-90 | escaped properties hold no bracket and leave no escape open |
| `OtbFormat.DecodeInvertsLayout` | src/io/fileloader.cpp:92-106 | reading every span of an encoded tree gives the tree, types and properties included |
| `OtbLoader.Loader.constructor` | src/io/fileloader.cpp:17-37 | the loader starts with an empty root over the whole file |
| `OtbLoader.Loader.Load` | src/io/fileloader.cpp:17-37 | refuses exactly the files that are too short or have neither the accepted nor the zero identifier |
| `OtbLoader.Loader.ParseTree` | src/io/fileloader.cpp:39-90 | the stack machine on node objects accepts exactly the files the specification accepts, and builds its tree |
| `OtbLoader.Loader.GetProps` | src/io/fileloader.cpp:92-106 | fails exactly on an empty span, and otherwise gives the unescaped bytes of the span |
| `OtbLoader.OpenChild` | src/io/fileloader.cpp:51-64 | START adds a child below the top node and opens it; it fails exactly if no type byte follows |
| `OtbLoader.CloseNode` | src/io/fileloader.cpp:65-72 | END closes the top node and hands it to the node below |
| `OtbTheorems.ParseNode` | src/io/fileloader.cpp:39-90 | an encoded node met inside an open node becomes one more child of it, with the stack as before |
| `OtbTheorems.RoundTrip` | src/io/fileloader.cpp:39-106 | for every tree whose file is long enough, parsing and unescaping the encoding gives the tree back |
| `OtbTheorems.EncodeInjective` | src/io/fileloader.cpp:39-106 | different trees have different encodings |
| `OtbTheorems.EmptyEncoding` | src/io/fileloader.cpp:17-37 | only a root without properties and children is too short to load |
| `OtbTheorems.ParseAccepts` | src/io/fileloader.cpp:44-90 | from any state of the stack, parsing succeeds exactly if the rest of the stream is balanced below the open nodes |
| `OtbTheorems.AcceptsExactlyWellFormed` | src/io/fileloader.cpp:39-90 | a file is accepted exactly if it starts with START, its unescaped brackets balance without a second root, and nothing dangles |
| `OtbTheorems.SpansAreClosed` | src/io/fileloader.cpp:39-90 | every span of an accepted file is in bounds and closed under escapes |
| `PropStream.ReadsWhatWasWritten` | src/io/fileloader.hpp:68-96 | from any position, reading with the shapes that were written gives the fields, oversized strings empty, and stops behind them |
| `PropStream.FieldsRoundTripIff` | src/io/fileloader.hpp:68-144 | a list of fields survives writing and reading exactly if no string is longer than 65535 bytes |
| `PropStream.FieldsThroughFile` | src/io/fileloader.cpp:39-106 | fields written into a node, encoded in a file, parsed and unescaped are read back |
| `PropStream.PropWriteStream.Write` | src/io/fileloader.hpp:129-133 | appends the value in little-endian order |
| `PropStream.PropWriteStream.WriteString` | src/io/fileloader.hpp:135-144 | appends length and text, or the length zero alone when the text is too long |
| `PropStream.PropReadStream.Read` | src/io/fileloader.hpp:68-77 | reads a value if there are bytes enough and otherwise stays where it is |
| `PropStream.PropReadStream.ReadString` | src/io/fileloader.hpp:79-96 | reads a text if it is complete; if it is cut short the length stays consumed |
| `PropStream.FailedTextStays` | src/io/fileloader.hpp:79-96 | a failed read of a string leaves the position exactly if not even two bytes for its length were left |
| `PropStream.ReadTextIff` | src/io/fileloader.hpp:79-96 | a string is read exactly if its length is there and as many bytes behind it |
| `PropStream.PropReadStream.Skip` | src/io/fileloader.hpp:98-105 | moves on exactly if there are bytes enough |
| `FileStream.LittleInverts` | src/io/filestream.cpp:84-100 | little-endian bytes of a number in range give the number back |
| `FileStream.FailedStartStays` | src/io/filestream.cpp:133-145 | a failed attempt to start a node leaves the position exactly if no escape byte was skipped |
| `FileStream.FailedFinishStays` | src/io/filestream.cpp:147-155 | a failed attempt to end a node leaves the position exactly if no escape byte was skipped |
| `FileStream.EscapedInverts` | src/io/filestream.cpp:40-64 | escaped bytes are read back whatever they are, using up exactly the encoding |
| `FileStream.NumberInverts` | src/io/filestream.cpp:40-64 | an escaped number inside a node is read back |
| `FileStream.TextInvertsIffPlain` | src/io/filestream.cpp:102-115 | a text of any length that can be written comes back whole with nothing left over exactly if it is shorter than 8192 bytes and holds no byte from 0xFD on |
| `FileStream.LongTextFails` | src/io/filestream.cpp:102-115 | a text of 8192 bytes or more is refused |
| `FileStream.ReadsEnd` | src/io/filestream.cpp:40-82 | reads at the end of the file fail, and so do numbers cut short by it |
| `FileStream.Stream.GetU8` | src/io/filestream.cpp:66-82 | the cursor moves and answers as specified, escapes inside nodes included |
| `FileStream.Stream.Read` | src/io/filestream.cpp:40-64 | the byte loop reads what the recursive specification reads and stops where it stops |
| `FileStream.Stream.GetString` | src/io/filestream.cpp:102-115 | length, bound and raw bytes as specified |
| `FileStream.Stream.Back` | src/io/filestream.cpp:117-119 | one byte back |
| `FileStream.Stream.StartNode` | src/io/filestream.cpp:133-145 | enters a node of the type, or goes back one byte per byte it looked at |
| `FileStream.Stream.EndNode` | src/io/filestream.cpp:147-155 | leaves a node, or goes back one byte |
| `MapRecords.BracketInverts` | src/io/filestream.cpp:133-155 | entering and leaving an encoded node restores the depth, and between them no other node starts |
| `NameBytes.NamePrefix` | src/io/filestream.cpp:102-115 | the raw bytes read for a name are the name exactly if nothing in it needs escaping but escape bytes at its end |
| `NameBytes.LeftOversIff` | src/io/filestream.cpp:40-64 | the bytes behind are read back, using up exactly their encoding, if and only if nothing of the name is left over, or one escape byte is and the first byte behind that is no escape byte needs none |
| `MapRecords.PlaceInvertsIff` | src/io/iomap.cpp:252-262 | a record is read back, using up exactly its encoding, if and only if its name is short of 8192 bytes and needs no escaping, or only its last byte does, an escape byte, and the coordinates settle it |
| `MapRecords.PlaceInverts` | src/io/iomap.cpp:252-262 | name and coordinates of such a record are read back |
| `MapRecords.EscapeByteName` | src/io/iomap.cpp:252-262 | a name that is one escape byte comes back in front of some coordinates and not of others |
| `MapRecords.TownInverts` | src/io/iomap.cpp:249-273 | one turn of the town loop writes one record |
| `MapRecords.TownsRoundTrip` | src/io/iomap.cpp:249-273 | an encoded list of towns is parsed into its last-write-wins map, using up exactly the encoding and restoring the depth |
| `MapRecords.WaypointsRoundTrip` | src/io/iomap.cpp:275-296 | an encoded list of waypoints is parsed into its last-write-wins map, using up exactly the encoding and restoring the depth |
| `MapRecords.OtherTownsStay` | src/io/iomap.cpp:249-273 | ids without a record keep the town they had |
| `MapRecords.LastTownStays` | src/io/iomap.cpp:249-273 | of several records of an id the last one stays |
| `MapRecords.OtherWaypointsStay` | src/io/iomap.cpp:275-296 | names without a record keep the place they had |
| `MapRecords.LastWaypointStays` | src/io/iomap.cpp:275-296 | of several records of a name the last one stays |
| `MapRecords.SectionsNeedNodes` | src/io/iomap.cpp:249-296 | where no node starts, both parsers refuse |
| `MapRecords.TownsNeedEnd` | src/io/iomap.cpp:249-273 | towns that neither another record nor the end of the section follows are refused |
| `MapRecords.WaypointsNeedEnd` | src/io/iomap.cpp:275-296 | and so are waypoints |
| `MapRecords.Map.ReadPlaceFrom` | src/io/iomap.cpp:252-262 | the reads in their order, or the exception of the first that fails |
| `MapRecords.Map.ParseTowns` | src/io/iomap.cpp:249-273 | the loop on the stream object writes the towns the specification writes and leaves the cursor where it leaves it |
| `MapRecords.Map.ParseWaypoints` | src/io/iomap.cpp:275-296 | the loop on the stream object writes the waypoints the specification writes and leaves the cursor where it leaves it |
| `Scheduler.Game.constructor` | src/game/game.cpp:6315-6362 | ten empty buckets and no creature flagged satisfy the invariant |
| `Scheduler.Game.AddCreatureCheck` | src/game/game.cpp:6315-6325 | flags the creature and appends it to a random bucket exactly if it is in none: the schedule becomes the one the rule names, in lists and flags |
| `Scheduler.Game.RemoveCreatureCheck` | src/game/game.cpp:6327-6332 | the flag is cleared; entries, slots and all other flags stay |
| `Scheduler.Game.Callback` | src/game/game.cpp:6343-6350 | any list of schedulings and unschedulings leaves the lists and flags that the rules give, one action after the other |
| `Scheduler.Game.DropSlot` | src/game/game.cpp:6352-6357 | swap-remove with the element that is last at that moment leaves the lists and flags that the rule gives |
| `Scheduler.Game.VisitEntry` | src/game/game.cpp:6341-6358 | one entry: a flagged creature has its callbacks run, a stale one loses its slot |
| `Scheduler.Game.CheckCreatures` | src/game/game.cpp:6334-6362 | whatever the callbacks do, the creatures processed, their order, the entries dropped and the schedule afterwards are exactly those of the recursive specification |
| `ScheduleRules.AddedKeeps` | src/game/game.cpp:6315-6325 | scheduling keeps every creature in at most one place and only creatures in a place flagged |
| `ScheduleRules.DroppedKeeps` | src/game/game.cpp:6351-6357 | swap-remove takes exactly one creature out of its slot, loses no other and leaves the other buckets |
| `ScheduleActs.AddFlags` | src/game/game.cpp:6315-6325 | scheduling sets the flag of one creature, also of one with a stale entry, and appends it to the bucket exactly if it is in none; nothing else changes |
| `ScheduleActs.RemoveClears` | src/game/game.cpp:6327-6332 | unscheduling clears the flag of one creature and changes no other flag, no list and no slot |
| `ScheduleActs.LastActDecides` | src/game/game.cpp:6315-6332 | after any actions a creature is flagged exactly if the last one on it schedules it, or there is none and it was; slots are never lost |
| `ScheduleActs.UnscheduledInVisit` | src/game/game.cpp:6334-6362 | a creature a callback unschedules before its turn and none schedules again is not processed, and loses its slot if nothing is added to its bucket |
| `ScheduleActs.UnscheduledBefore` | src/game/game.cpp:6327-6362 | a creature scheduled and unscheduled before the visit is not processed, and its entry is dropped |
| `ScheduleRules.VisitKeeps` | src/game/game.cpp:6334-6362 | whatever the callbacks do, a visit handles as many entries as the bucket held at its start, those processed head the bucket afterwards, and the other buckets only grow |
| `ScheduleRules.VisitReaches` | src/game/game.cpp:6339-6359 | with nothing added to the bucket under way, a flagged entry nobody unschedules is processed wherever it lies, and a stale one nobody schedules again is dropped |
| `ScheduleRules.VisitWhole` | src/game/game.cpp:6339-6359 | with flagged entries only, none of them unscheduled, exactly these are processed in order, whatever is added |
| `ScheduleRules.VisitPrefix` | src/game/game.cpp:6339-6359 | as long as no stale entry comes before them, flagged entries nobody unschedules are processed in order, whatever is added and whatever lies behind them |
| `ScheduleFairness.ShedVisit` | src/game/game.cpp:6352-6357 | stale entries in front are gone before the first callback, the last flagged entry in their place, and this changes nothing in who is processed |
| `ScheduleFairness.OneStale` | src/game/game.cpp:6352-6357 | a single stale entry before the last flagged one, with another element behind that one, costs nobody his turn |
| `ScheduleFairness.ManyStale` | src/game/game.cpp:6352-6357 | with one addition less than there are stale entries before the last flagged one, at least two, one of the last two flagged entries is passed over |
| `ScheduleFairness.VisitFair` | src/game/game.cpp:6339-6359 | every flagged entry nobody unschedules is processed if nothing is added to the bucket, or the bucket meets the exact condition and nobody is unscheduled; a stale one nobody schedules again is dropped if nothing is added |
| `ScheduleFairness.FairForAllIff` | src/game/game.cpp:6334-6362 | for every bucket: every flagged entry is processed whatever the callbacks schedule, if and only if, once stale entries in front are replaced by the last flagged one, no stale entry lies before the last flagged one, or a single one does and another lies behind it |
| `ScheduleFairness.PassedOver` | src/game/game.cpp:6352-6357 | a concrete bucket of a flagged, a stale and a flagged creature, the last of which is passed over because the first schedules somebody |
| `ScheduleTours.TourDistinct` | src/game/game.cpp:6334-6362 | whatever the callbacks do, nobody is processed twice within ten visits |
| `ScheduleTours.TenVisitsFair` | src/game/game.cpp:6334-6362 | ten visits process every flagged creature nobody unschedules exactly once, if the visit of its bucket is steady: nothing added to it, or the bucket by then always fair and nobody unscheduled; they drop every stale one nobody schedules again, if nothing is added to its bucket |
| `ScheduleTours.SteadyFromStart` | src/game/game.cpp:6334-6362 | a visit is steady if its bucket held no stale entry at the start of the ten and nobody has been unscheduled |
| `ScheduleTours.IdleTour` | src/game/game.cpp:6334-6362 | with idle callbacks ten visits process exactly the flagged creatures, each once, and drop exactly the stale entries |
| `Scheduler.Game.TenVisits` | src/game/game.cpp:6334-6362 | ten consecutive calls return to the same bucket and do, in lists, flags and order of processing, exactly what the specification of a tour says |
| `Removal.Game.SetMaster` | src/creatures/creature.cpp:1322-1353 | moves the creature from one summon list to another, in the order of the source |
| `Removal.Game.Relink` | src/creatures/creature.cpp:1322-1353 | each creature keeps its list but for the one entry added and the one erased |
| `Removal.RehomeKeepsLinks` | src/creatures/creature.cpp:1322-1353 | a change of masters keeps live masters and their lists in step |
| `Removal.ReachExtends` | src/game/game.cpp:1197-1200 | what a summon reaches when its turn comes, its summoner reached at the start |
| `Removal.ReachIsClosed` | src/game/game.cpp:1197-1200 | what a live creature reaches contains it and is closed under live summons |
| `Removal.ClosedContainsReach` | src/game/game.cpp:1197-1200 | every set that contains it and is closed under live summons contains what it reaches |
| `Removal.RemovesFirst` | src/game/game.cpp:1185-1193 | unlinking and marking a creature starts a removal on its behalf |
| `Removal.RemovesMore` | src/game/game.cpp:1197-1200 | one summon removed keeps the removal on behalf of the creature going |
| `Removal.RemovesExactly` | src/game/game.cpp:1144-1210 | a finished removal has taken exactly the creature and the live ones it reached, and no removed creature lists a live one |
| `Removal.Game.TakeOff` | src/game/game.cpp:1185-1193 | the creature leaves the list of a live master and is marked removed |
| `Removal.Game.RemoveCreature` | src/game/game.cpp:1144-1210 | terminates and removes exactly the creature and the live creatures reachable through summon lists; links and the absence of live creatures in dead lists are kept |
| `Removal.Game.RemoveSummon` | src/game/game.cpp:1197-1200 | one turn of the loop leaves the list being walked as it is |
| `Removal.Game.RemoveSummons` | src/game/game.cpp:1197-1200 | the loop removes everything listed, through a list that does not change while it is walked |
| `TradeRules.StartKeeps` | src/game/game.cpp:4895-4928 | starting or answering a trade keeps the invariant if the item overlaps no offer |
| `TradeRules.CloseDuringTransfer` | src/game/game.cpp:5131-5135 | a close during the own transfer changes nothing at all |
| `TradeRules.CloseParts` | src/game/game.cpp:5131-5170 | otherwise a close empties both seats, or there was nothing to close |
| `TradeRules.CloseKeeps` | src/game/game.cpp:5131-5170 | a close keeps the invariant, during a transfer of others as well |
| `TradeRules.CloseAllCloses` | src/game/game.cpp:5131-5170 | closings one after the other leave everybody named without a trade, unless he is in the middle of a transfer |
| `TradeRules.BeginKeeps` | src/game/game.cpp:4966-4977 | marking a transfer withdraws both offers and keeps the invariant for everybody else |
| `TradeRules.FinishKeeps` | src/game/game.cpp:5020-5028 | the end of a transfer leaves two empty seats and the invariant |
| `TradeRules.AcceptKeeps` | src/game/game.cpp:4930-5030 | an acceptance keeps the invariant; the second of a pair leaves both without a trade, whatever the transfer and the closings inside it do |
| `TradeRules.DoKeeps` | src/game/game.cpp:4756-5170 | every command keeps the invariant: symmetric partners, states that match partner and item, offers registered to their owners |
| `TradeRules.RunsKeep` | src/game/game.cpp:4756-5170 | over every run of any number of players the invariant holds, and no offered item is or contains another |
| `TradeRules.NobodyTrades` | src/game/game.cpp:4756-5170 | the empty table satisfies the invariant |
| `TradeOffers.AcceptedStays` | src/game/game.cpp:4895-4960 | while an acceptance stands, through any commands of any players, both seats stay as they are but for an offer the partner adds |
| `TradeOffers.ExchangeAsAcceptedIff` | src/game/game.cpp:4895-4993 | an exchange gives both exactly what was on offer when the first of them accepted, if and only if his partner added no offer in between |
| `TradeOffers.UnseenOffer` | src/game/game.cpp:4895-4960 | a player accepts while his partner offers nothing and loses his item for one offered afterwards |
| `TradeOffers.TradeCompletes` | src/game/game.cpp:4895-5030 | from any table two players without a trade who offer free items and accept exchange them exactly if the transfer goes well, and leave nothing of the trade behind |
| `Trade.Game.constructor` | src/game/game.cpp:4756-5170 | players without trades satisfy the invariant |
| `Trade.Game.OverlapsTrade` | src/game/game.cpp:4827-4862 | the search finds an overlap exactly if the item is, contains or lies in an offered one |
| `Trade.Game.PlayerRequestTrade` | src/game/game.cpp:4756-4893 | does what the rule does to the whole table |
| `Trade.Game.InternalStartTrade` | src/game/game.cpp:4895-4928 | starts exactly when neither is bound to somebody else, and otherwise changes nothing |
| `Trade.Game.InternalCloseTrade` | src/game/game.cpp:5131-5170 | does what the rule does to the whole table, with both players reset or nothing changed |
| `Trade.Game.PlayerAcceptTrade` | src/game/game.cpp:4930-5030 | does what the rule does to the whole table; it ends in an exchange if and only if the player answers, his partner has accepted, both offer something, no event stops it and all five answers of the transfer are yes, and then hands over what both have on offer |
| `Trade.Game.Exchange` | src/game/game.cpp:4966-5028 | the transfer with the closings inside it leaves both seats empty; it counts as an exchange exactly if both items are there and all five answers are yes |
| `Trade.Game.StartTransfer` | src/game/game.cpp:4966-4977 | marks both sides and withdraws both offers |
| `Trade.Game.EndTransfer` | src/game/game.cpp:5020-5028 | resets both sides |
| `Trade.Game.CloseNested` | src/game/game.cpp:5131-5170 | closings during a transfer do what the rule does one after the other |
| `Money.Emplace` | src/game/game.cpp:2583-2587 | the multimap stays ascending and gains exactly the entry |
| `Money.See` | src/game/game.cpp:2593-2604 | one item goes to the worklist or, if worth something, to the map |
| `Money.Open` | src/game/game.cpp:2592-2604 | the items of one container, none missed and none twice |
| `Money.Collect` | src/game/game.cpp:2567-2605 | the worklist terminates on every finite tree and finds every coin stack exactly once, cheapest first, with the right total |
| `Money.CoveredWealth` | src/game/game.cpp:2567-2605 | the total of the entries is the worth of all stacks owned |
| `Minting.MintedExactIff` | src/game/game.cpp:2641-2685 | the stacks created are worth exactly the money if and only if the crystals fit 32 bits and the 32-bit product does not wrap, or wraps a multiple of 25 times with money not a multiple of 100 |
| `Minting.MintedExactly` | src/game/game.cpp:2641-2685 | under that condition the stacks are worth the money and hold 1 to 100 crystals, or 1 to 99 platinum or gold coins |
| `Minting.ExactBelow` | src/game/game.cpp:2650-2651 | the condition holds for everything below 4294970000 |
| `Minting.BoundIsTight` | src/game/game.cpp:2650-2651 | at 4294970000 it fails: the product wraps and 4096 too much is created |
| `Minting.CrystalsAreStacked` | src/game/game.cpp:2652-2663 | crystals come in stacks of a hundred, but for the last one |
| `Payment.ChangeIsSmall` | src/game/game.cpp:2622-2625 | the coins taken off a dearer stack suffice, are in the stack, and leave change below one of its coins |
| `Payment.Player.AddMoney` | src/game/game.cpp:2641-2685 | player and tile together receive what is minted, which is the money exactly under the stated condition; nothing falls on the tile if the containers of the player take every coin; stacks of dearer coins than the money are untouched |
| `Payment.Player.AddCoins` | src/game/game.cpp:2653-2661 | coins the containers of the player take stay off the tile, and only those they refuse fall on it |
| `Payment.Player.AddCrystals` | src/game/game.cpp:2650-2663 | the crystal loop creates the stacks specified |
| `Payment.Player.AddChange` | src/game/game.cpp:2665-2684 | platinum and gold as specified, with their 16-bit counter |
| `Payment.Player.BreakStack` | src/game/game.cpp:2622-2627 | giving change first and then taking coins off the same stack costs exactly the price, since the change is of a cheaper kind |
| `Payment.Player.PayWithCoins` | src/game/game.cpp:2617-2632 | the loop pays exactly; if something is left to pay no coin is left; a stack is left alone if those before it suffice and hold no dearer coins |
| `Payment.Player.RemoveMoney` | src/game/game.cpp:2559-2639 | success takes exactly the price from coins, tile and bank together, the bank paying just what the coins do not and the tile only gaining; failure changes nothing; barring 64-bit wrap-around it succeeds exactly if coins and usable bank suffice |
| `Cylinders.FilledCount` | src/game/game.cpp:2076-2079 | the count of a filled stack, cut to its byte, is 256 short exactly if the stack was overfull and the sum does not fit the byte |
| `Cylinders.Cylinder.AddThing` | src/items/containers/container.cpp:686-708 | the counts of the kind rise by the item, no other changes |
| `Cylinders.Cylinder.RemoveThing` | src/items/containers/container.cpp:765-797 | part of a stack or the whole item leaves, and the counts fall by it |
| `Cylinders.Cylinder.UpdateThing` | src/items/containers/container.cpp:720-740 | the count is set, cut to a byte |
| `Cylinders.Cylinder.Fill` | src/game/game.cpp:2076-2079 | a stack takes min(room, m), room of an overfull one wrapping around; its count falls short by exactly what is spilled, and stacks within their size stay so |
| `MoveItem.Exchange` | src/game/game.cpp:2007-2010 | the item in the way goes to the source whole, and nothing else moves |
| `MoveItem.PutStack` | src/game/game.cpp:2072-2100 | what arrives fills the stack it falls on, and only the rest is a new stack; the counts rise by it less what is spilled |
| `MoveItem.TransferStack` | src/game/game.cpp:2067-2100 | m leave one cylinder and arrive in the other; every kind is conserved but for what an overfull stack spills |
| `MoveItem.TransferWhole` | src/game/game.cpp:2067-2100 | what cannot be stacked goes over whole, with its identity |
| `MoveItem.Carry` | src/game/game.cpp:2067-2100 | the transfer of either kind, with what it leaves in both cylinders |
| `MoveItem.InternalMoveItem` | src/game/game.cpp:1941-2192 | a move goes through exactly if none of the queries refuses, and otherwise the first refusal is the answer; a stackable move transfers exactly min(count, maximum), where only 255 moved up stands for the whole stack; the counts of every kind over both cylinders stay, exactly unless the move ends on an equal overfull stack and both do not fit a byte, when 256 are lost; stacks within their size stay so; other items stay where they are |
| `MoveItem.Verdicts` | src/game/game.cpp:1976-2190 | each way through the move has the answer, the count and the exchange that the replies in their order call for |
| `AddItem.NeverCreates` | src/game/game.cpp:2194-2284 | placed and reported remainder never exceed the count |
| `AddItem.AllPlacedIff` | src/game/game.cpp:2194-2284 | everything is placed exactly if every room query followed allowed it and no call was refused |
| `AddItem.AccountedForIff` | src/game/game.cpp:2194-2284 | placed and remainder make up the count exactly if the rooms were enough and no refusal came later than the second call |
| `AddItem.LateRefusalLoses` | src/game/game.cpp:2244-2250 | a concrete chain in which three of seven are lost and nothing is reported |
| `AddItem.LosesIff` | src/game/game.cpp:2238-2241 | only the last call of a chain can lose counts already there, and it does exactly if it fills an overfull stack beyond its byte |
| `AddItem.InternalAddItem` | src/game/game.cpp:2199-2284 | terminates for every answer of the queries, since each nested count is smaller; the answer is the first refusal; each cylinder has exactly what the calls bring to it, a merge on the equal stack named or else a new item; the stock of all cylinders rises by exactly what was placed less what overfull stacks lost by it, and refusals and tests change nothing |
| `AddItem.MergeItem` | src/game/game.cpp:2237-2267 | the merging half: the stack is filled, the rest added as a new item |
| `AddItem.FillOne` | src/game/game.cpp:2238-2241 | the stock over all cylinders rises by what the stack took less what it spilled |
| `AddItem.PlaceOne` | src/game/game.cpp:2251-2275 | the stock over all cylinders rises by the item |
| `MarketGoods.StacksTake` | src/game/game.cpp:8773-8788 | the loop over stacks takes only the kind: all that is wanted if that much precedes the first failing removal, otherwise exactly what precedes it |
| `MarketGoods.SinglesTake` | src/game/game.cpp:8789-8801 | the loop over single items takes exactly the same, and its 16-bit counter does not wrap |
| `MarketGoods.BeforeFirstFailure` | src/game/game.cpp:8773-8801 | what precedes the first failing removal is the count of the items before it |
| `MarketGoods.RemovalTakes` | src/game/game.cpp:8742-8810 | a removal succeeds exactly if stash and the items before the first failure suffice; success and failure each take exactly what is stated, from the stash without regard to the tier and the rest of the kind asked for, and never money |
| `MarketGoods.FailureLosesNothingIff` | src/game/game.cpp:8742-8810 | a failed removal loses nothing exactly if the stash holds none of the item and nothing countable precedes the failure |
| `MarketGoods.FailureLosesStash` | src/game/game.cpp:8742-8762 | a concrete failed removal after which the item in the stash is gone |
| `MarketGoods.DeliversExactly` | src/game/game.cpp:8995-9028 | the splitting loop delivers exactly the amount |
| `MarketGoods.DeliversStacks` | src/game/game.cpp:8995-9028 | in as few items as their size allows, beside what was there |
| `MarketBooks.Taken` | src/game/game.cpp:8904-8919 | taking the goods of an offer conserves money, succeeds exactly if there is enough, and lowers the goods of every kind by exactly the amount stated, on success and on failure |
| `MarketBooks.Given` | src/game/game.cpp:9146-9185 | giving goods conserves money and raises the goods by exactly the amount; store coins arrive without a tier |
| `MarketBooks.ChargedOff` | src/game/game.cpp:8921-8932 | a payment with a fee moves the price out of the purse and the fee to the fees, goods untouched |
| `MarketBooks.PayIsAnyPayment` | src/game/game.cpp:2559-2639 | the payments the market makes on totals are exactly the outcomes proved of paying with coin stacks, change on the tile included |
| `MarketBooks.OfferReduced` | src/game/game.cpp:9301-9307 | a shrinking offer releases exactly the price or the goods of what was traded |
| `MarketRules.SellKeeps` | src/game/game.cpp:8892-8922 | a sell offer conserves money, and the goods of every kind change by what the books before the command say: what a failed removal takes, or what changes its tier |
| `MarketRules.CreateBuyKeeps` | src/game/game.cpp:8923-8933 | a buy offer moves exactly its price into escrow |
| `MarketRules.CancelKeeps` | src/game/game.cpp:8961-9041 | a cancelled offer returns exactly what it held, store coins without a tier |
| `MarketRules.FillBuyKeeps` | src/game/game.cpp:9082-9189 | selling to a buy offer conserves money, and the goods of every kind change by what the books before the command say |
| `MarketRules.FillSellKeeps` | src/game/game.cpp:9190-9270 | buying from a sell offer conserves money, and goods but for the tier that store coins lose on arrival |
| `MarketRules.DoKeeps` | src/game/game.cpp:8875-9314 | every command conserves money and changes the goods per item and tier exactly as the books before it say |
| `MarketRules.RunsKeep` | src/game/game.cpp:8742-9314 | over every run the money in purses, escrow and fees is constant, and the goods of every item and tier change by exactly the sum of what the commands are said to |
| `MarketPlayers.EveryCommand` | src/game/game.cpp:8813-9314 | what every command does to each player, offer and account, with the sums written out |
| `MarketPlayers.BoughtOutcome` | src/game/game.cpp:9190-9270 | a paid acceptance takes price times amount from the buyer, bank first, gives exactly that to the bank of the owner and the goods to the buyer |
| `MarketPlayers.SuppliedOutcome` | src/game/game.cpp:9082-9189 | a supplied buy offer pays price times amount into the bank of the supplier and gives the goods to the owner; without enough goods only what the removal took is gone |
| `MarketPlayers.BuyPostedOutcome` | src/game/game.cpp:8923-8958 | a posted buy offer costs price times amount and the fee, coins first |
| `MarketPlayers.SellPostedOutcome` | src/game/game.cpp:8892-8958 | a posted sell offer costs the fee and the goods |
| `MarketPlayers.CancelledOutcome` | src/game/game.cpp:8981-9029 | a cancelled buy offer refunds price times amount to the bank, a cancelled sell offer returns the goods |
| `MarketPlayers.FeeOf` | src/game/game.cpp:8888-8890 | the fee is the rounded hundredth of the price times the amount, kept between 20 and 100000 |
| `MarketTiers.NothingCloned` | src/game/game.cpp:8742-9314 | a command changes the goods of at most one item, in the tier of the offer and without a tier, and never their sum upwards: nothing is cloned |
| `MarketTiers.CommandConservesIff` | src/game/game.cpp:8742-9314 | a command conserves the goods of every item and tier exactly if, where it removes goods, nothing untiered goes into a tiered offer and a failure took nothing, and no tiered store coins arrive |
| `MarketTiers.EvenRunsConserve` | src/game/game.cpp:8742-9314 | a run of such commands conserves money and the goods of every item and tier |
| `MarketTiers.TieredSaleConverts` | src/game/game.cpp:8742-8762 | concrete books on which an untiered item pays for a tiered sell offer |
| `MarketTiers.TieredSupplyConverts` | src/game/game.cpp:9082-9189 | concrete books on which an untiered item fills a tiered buy offer |
| `MarketRules.MoneyBounds` | src/game/game.cpp:8981-8985 | a purse and the escrow of an offer together never exceed all the money there is |
| `MarketRules.PriceFits` | src/game/game.cpp:8834-8853 | price and amount within their limits give a total and a fee far below 64 bits |
| `Market.RefundFits` | src/game/game.cpp:8981-8985 | the 64-bit refund and the balance it is added to do not wrap while all the money fits 64 bits |
| `Market.SellFits` | src/game/game.cpp:9202-9269 | the price of a purchase and the new balance of the seller do not wrap |
| `Market.Player.WithdrawItem` | src/creatures/players/player.hpp:731-744 | takes the amount exactly if there is that much, and removes an emptied entry |
| `Market.Player.RemoveStacks` | src/game/game.cpp:8773-8788 | the loop over stacks computes what the specification computes, failures included |
| `Market.Player.RemoveSingles` | src/game/game.cpp:8789-8801 | the loop over single items computes what the specification computes, failures included |
| `Market.Player.RemoveOfferItems` | src/game/game.cpp:8742-8810 | stash and depot afterwards, and the answer, are those of the specification |
| `Market.Player.Receive` | src/game/game.cpp:8995-9028 | the delivery loop terminates and leaves the delivery specified |
| `Market.Game.constructor` | src/game/game.cpp:8875-9314 | books over registered players, without offers or fees |
| `Market.Game.TakeFrom` | src/game/game.cpp:8904-8919 | the books change by the rule, for store coins and for items |
| `Market.Game.GiveTo` | src/game/game.cpp:9146-9185 | the books change by the rule, for store coins and for items |
| `Market.Game.PlayerCreateMarketOffer` | src/game/game.cpp:8813-8959 | the books afterwards are those of the rule, and every player, offer and account has what the written-out outcome says, with the checks of the source and 64-bit sums |
| `Market.Game.CreateSellOffer` | src/game/game.cpp:8892-8922 | goods and fee leave the player and the offer is posted, or the rule's failure |
| `Market.Game.CreateBuyOffer` | src/game/game.cpp:8923-8933 | price and fee leave the player and the offer is posted, or nothing changes |
| `Market.Game.PlayerCancelMarketOffer` | src/game/game.cpp:8961-9041 | the books afterwards are those of the rule and of the written-out outcome: price times amount, or the goods, come back |
| `Market.Game.GiveBack` | src/game/game.cpp:8981-9029 | price or goods return and the offer is gone |
| `Market.Game.Acceptable` | src/game/game.cpp:9061-9110 | the checks pass exactly if the rule allows the acceptance |
| `Market.Game.PlayerAcceptMarketOffer` | src/game/game.cpp:9043-9314 | the books afterwards are those of the rule and of the written-out outcome: price times amount from one player to the other, the goods the other way |
| `Market.Game.FillBuyOffer` | src/game/game.cpp:9082-9189 | selling to a buy offer, in the order of the source |
| `Market.Game.FillSellOffer` | src/game/game.cpp:9190-9270 | buying from a sell offer, in the order of the source |
| `Market.Game.PayForOffer` | src/game/game.cpp:9206-9214 | the bank pays first and coins the rest |
| `Market.Game.AcceptOffer` | src/game/game.cpp:9301-9307 | the offer shrinks by the amount or is deleted at zero |
| `Experience.GainsBelowShares` | src/creatures/creature.cpp:1159-1180 | the floors of all gains together stay below the exact shares |
| `Experience.GainsRounded` | src/creatures/creature.cpp:1159-1180 | the gains of any attackers are the exact share of their damage, short of it by less than one for each |
| `Experience.NeverTooMuch` | src/creatures/creature.cpp:651-691 | for any damage map and any attackers still there, gains never exceed the lost experience while the total damage fits 32 bits |
| `Experience.NeverTooMuchIff` | src/creatures/creature.cpp:1159-1180 | for any attackers still there this holds for every lost experience exactly if the damage total wrapped to zero or to no less than their damage |
| `Experience.WrapGivesTooMuch` | src/creatures/creature.cpp:1159-1180 | a concrete damage map whose total wraps and of whose attackers one is given more than was lost |
| `Experience.ShareStep` | src/creatures/creature.cpp:684-689 | crediting one attacker keeps the map equal to the gains, in sum and receiver by receiver |
| `Experience.Creature.AddDamagePoints` | src/creatures/creature.cpp:1182-1201 | positive points are added to the attacker, others ignored |
| `Experience.Creature.GetDamageRatio` | src/creatures/creature.cpp:1159-1176 | the loop gives the damage of the attacker and the 32-bit total |
| `Experience.Creature.GetGainedExperience` | src/creatures/creature.cpp:1178-1180 | damage times lost experience over the total, rounded down; zero when nobody did damage |
| `Experience.Creature.ShareExperience` | src/creatures/creature.cpp:651-691 | every attacker still there is credited exactly once, to himself or his party leader; all of them together, and those of each receiver, get the exact share of their damage but for less than one each, and at most the lost experience while the total fits |
| `BatchInsert.SeparatorsAreBoundaries` | src/database/database.cpp:349-358 | if no row holds the separator, every separator of the joined text lies between two rows |
| `BatchInsert.CutsAtRows` | src/database/database.cpp:349-364 | a cut takes whole rows off the front |
| `BatchInsert.BatchesSplitRows` | src/database/database.cpp:327-374 | the batches hold whole rows, in order, none cut, lost or repeated, and all of them if the call succeeds |
| `BatchInsert.BatchSizes` | src/database/database.cpp:349-364 | no batch is longer than the limit and its parenthesis |
| `BatchInsert.SentIffFit` | src/database/database.cpp:327-374 | with a database that takes everything the call succeeds exactly if every row fits on its own |
| `BatchInsert.DirtyRowIsCut` | src/database/database.cpp:349-358 | a row holding the separator is cut in two under some limit |
| `BatchInsert.NeverCutIffClean` | src/database/database.cpp:349-358 | rows are cut under no limit exactly if none holds the separator |
| `BatchInsert.QuerySizes` | src/database/database.cpp:327-374 | if base and upsert text fit, no query exceeds the maximum by more than two bytes |
| `BatchInsert.QueriesAreFull` | src/database/database.cpp:347-364 | what base and upsert text leave of the maximum is used up: no query could have held one row more |
| `BatchInsert.ColumnsListed` | src/database/database.cpp:332-345 | the update clause names every column once, in order |
| `BatchInsert.JoinAppend` | src/database/database.cpp:301-314 | adding a row appends it with its separator |
| `BatchInsert.DBInsert.constructor` | src/database/database.cpp:288-291 | no rows, and the length of the base text counted |
| `BatchInsert.DBInsert.UpsertQuery` | src/database/database.cpp:332-345 | the loop builds the update clause |
| `BatchInsert.DBInsert.NextBatch` | src/database/database.cpp:349-364 | one cut, or the failure when no boundary lies within the limit |
| `BatchInsert.DBInsert.SendOne` | src/database/database.cpp:348-371 | one query sent, and the text left is shorter |
| `BatchInsert.DBInsert.SendAll` | src/database/database.cpp:347-374 | the loop terminates and sends exactly the queries specified |
| `BatchInsert.DBInsert.Execute` | src/database/database.cpp:327-374 | sends exactly the batches of the collected rows, with one attempt for each and at most one that is refused, and keeps the rows |
| `BatchInsert.DBInsert.AddRow` | src/database/database.cpp:293-315 | flushes exactly when the counted length exceeds the packet size, and then all rows collected so far; the row is collected unless the flush failed |
| `BatchSessions.Save` | src/io/iomapserialize.cpp:336-347 | collecting any rows and executing sends exactly the queries of the session specified, and fails exactly when it does |
| `BatchSessions.SessionSends` | src/database/database.cpp:293-374 | what a session sends is the rows in the order of the specification, none cut, and all of them on success |
| `BatchSessions.TimesSent` | src/database/database.cpp:293-315 | row i is sent once at the end and once more for every later row that finds the counted length over the packet size |
| `BatchSessions.FlushesToTheEnd` | src/database/database.cpp:293-299 | once one row is over the packet size, every later row is: the count is never reset |
| `BatchSessions.SentOnceIff` | src/database/database.cpp:293-374 | a successful session sends its rows exactly once if and only if there is at most one, or base text and all rows fit the packet size |
| `BatchSessions.SessionOkIff` | src/database/database.cpp:293-374 | with a database that takes everything, a session succeeds exactly if every row fits whenever it is sent, also as the last one of a flush |
| `BatchSessions.FirstRowTwice` | src/database/database.cpp:293-315 | two rows of one letter and a packet of two bytes: the queries are I (a) and I (a),(b) |

## Left out

- Packets, messages, effects, logging, metrics, Lua events, the database client, configuration and account files: input, output or foreign code.
- Combat formulas, conditions, step speed and player overrides of experience: floating point and tables.
- Path finding, sight lines, the inside of tiles, of the player's inventory and of the dispatcher: their answers are parameters.
- Tile areas of a map file: item deserialisation is not part of this model.
- Walk tiles: the part of queryAdd about creatures, zones and monsters; that removing one teleport or floor change clears the flag of the tile even if another one is left.
- Walk cache: whether monsters use the cache at all; the flag is a parameter, and the monster override returns false (src/creatures/monsters/monster.hpp:469).
- Scheduler: the difference between thinking, attacking and conditions inside a visit; a callback is any list of schedulings. A callback only ever schedules and unschedules; empty entries in a bucket do not occur.
- Removal: spectators, zones, tile notifications and the team finder, which do not touch summon lists.
- Trade: whether the two item movements succeed together; the result of the second is ignored (src/game/game.cpp:4994), so the rules state the reset of both seats and not an atomic swap.
- Item moves: the loop that follows queryDestination to the final cylinder, browse fields, notifications, trash holders and mailboxes, and the order of items within a cylinder. The two cylinders of a move are objects; items inside a cylinder are values with an identity.
- Item equality by attributes is an answer of the environment; items compared equal share type and tier.
- Payment: where coins are put is a function of the coins held; adding a coin item is all or nothing and removing coins succeeds.
- Market: item type and ware id are one; expiry of offers, the history table and the limit on open offers are not modelled; an offer is named by its id, where the server looks it up by creation time and the low 16 bits of the id; inbox additions succeed and never merge with a stack already there; the owner of an offer can always be loaded. Two players never share an account object, as every player makes his own (src/creatures/players/player.cpp:7895-7902), so the comparison of account objects in an acceptance never refuses anybody.
- Experience.Creature.AddDamagePoints: does not model overflow of the signed 32-bit counter of one attacker, which the language leaves undefined.
- Experience: the most-damage bookkeeping and the killers, and rounding of the ratio in floating point; ratios are exact.
- Batched inserts: wrap-around of the machine word that counts lengths, and retries inside the database client (src/database/database.cpp:124-140).
- Bestiary, forge, highscores, titles, wheel of destiny and the light cycle: tables and one-branch facts that would only add easy members.
