/** Towns and waypoints of a map file (src/io/iomap.cpp: parseTowns, parseWaypoints). */
module MapRecords {
  import opened OtbFormat
  import opened FileStream
  import opened NameBytes

  const OTBM_TOWNS: byte := 12
  const OTBM_TOWN: byte := 13
  const OTBM_WAYPOINTS: byte := 15
  const OTBM_WAYPOINT: byte := 16

  /** A name and a position. */
  datatype Place = Place(name: Bytes, x: nat, y: nat, z: byte)

  datatype Town = Town(id: nat, place: Place)

  // ----- what the parsers do, on the cursor -----

  function ReadPlace(data: Bytes, c: Cursor): (r: Step<Place>)
    ensures r.Done? ==> c.pos < r.c.pos
  {
    var (name, c1) :- Text(data, c);
    var (x, c2) :- Number(data, c1, 2);
    var (y, c3) :- Number(data, c2, 2);
    var (z, c4) :- U8(data, c3);
    Done(Place(name, x, y, z), c4)
  }

  /** The node after the last record must end. */
  function Ending<T>(ended: Step<bool>, result: T): Step<T>
  {
    match ended
    case Fail(e) => Fail(e)
    case Done(yes, c) => if yes then Done(result, c) else Fail(NodeNotEnded)
  }

  function TownLoop(data: Bytes, c: Cursor, towns: map<nat, Place>): Step<map<nat, Place>>
    decreases |data| - c.pos
  {
    var (more, c1) :- Start(data, c, OTBM_TOWN);
    if more then
      var (id, c2) :- Number(data, c1, 4);
      var (place, c3) :- ReadPlace(data, c2);
      var (ended, c4) :- Finish(data, c3);
      if ended then TownLoop(data, c4, towns[id := place]) else Fail(NodeNotEnded)
    else
      Ending(Finish(data, c1), towns)
  }

  function Towns(data: Bytes, c: Cursor, towns: map<nat, Place>): Step<map<nat, Place>>
  {
    var (started, c1) :- Start(data, c, OTBM_TOWNS);
    if started then TownLoop(data, c1, towns) else Fail(NodeNotRead)
  }

  function WaypointLoop(data: Bytes, c: Cursor, points: map<Bytes, Place>): Step<map<Bytes, Place>>
    decreases |data| - c.pos
  {
    var (more, c1) :- Start(data, c, OTBM_WAYPOINT);
    if more then
      var (place, c2) :- ReadPlace(data, c1);
      var (ended, c3) :- Finish(data, c2);
      if ended then WaypointLoop(data, c3, points[place.name := place]) else Fail(NodeNotEnded)
    else
      Ending(Finish(data, c1), points)
  }

  function Waypoints(data: Bytes, c: Cursor, points: map<Bytes, Place>): Step<map<Bytes, Place>>
  {
    var (started, c1) :- Start(data, c, OTBM_WAYPOINTS);
    if started then WaypointLoop(data, c1, points) else Fail(NodeNotRead)
  }

  // ----- the encoding -----

  function EncodePlace(p: Place): Bytes
  {
    EncodeText(p.name) + (EncodeNumber(p.x, 2) + (EncodeNumber(p.y, 2) + Escape([p.z])))
  }

  /** START and type, the body, END. */
  function Bracket(ntype: byte, body: Bytes): Bytes
  {
    [START, ntype] + (body + [END])
  }

  function EncodeTown(t: Town): Bytes
  {
    Bracket(OTBM_TOWN, EncodeNumber(t.id, 4) + EncodePlace(t.place))
  }

  function EncodeTownList(ts: seq<Town>): Bytes
  {
    if ts == [] then [] else EncodeTown(ts[0]) + EncodeTownList(ts[1..])
  }

  function EncodeTowns(ts: seq<Town>): Bytes
  {
    Bracket(OTBM_TOWNS, EncodeTownList(ts))
  }

  function EncodeWaypointList(ps: seq<Place>): Bytes
  {
    if ps == [] then [] else Bracket(OTBM_WAYPOINT, EncodePlace(ps[0])) + EncodeWaypointList(ps[1..])
  }

  function EncodeWaypoints(ps: seq<Place>): Bytes
  {
    Bracket(OTBM_WAYPOINTS, EncodeWaypointList(ps))
  }

  function Coordinates(p: Place): (v: Bytes)
    ensures |v| == 5
  {
    LittleBytes(p.x, 2) + LittleBytes(p.y, 2) + [p.z]
  }

  /** The places that come back: those whose name needs no escape, or ends in the one byte that does, with
      coordinates that make up for it. */
  predicate Storable(p: Place)
  {
    |p.name| < STRING_BOUND && p.x < 0x1_0000 && p.y < 0x1_0000 &&
    (Plain(p.name) || (EscapeLast(p.name) && SettlesLow(Coordinates(p))))
  }

  predicate TownsStorable(ts: seq<Town>)
  {
    forall k :: 0 <= k < |ts| ==> Storable(ts[k].place) && ts[k].id < 0x1_0000_0000
  }

  predicate PlacesStorable(ps: seq<Place>)
  {
    forall k :: 0 <= k < |ps| ==> Storable(ps[k])
  }

  /** A later record with the same id replaces an earlier one. */
  function WriteTowns(ts: seq<Town>, towns: map<nat, Place>): map<nat, Place>
  {
    if ts == [] then towns else WriteTowns(ts[1..], towns[ts[0].id := ts[0].place])
  }

  function WritePlaces(ps: seq<Place>, points: map<Bytes, Place>): map<Bytes, Place>
  {
    if ps == [] then points else WritePlaces(ps[1..], points[ps[0].name := ps[0]])
  }

  // ----- round trips -----

  function Ahead(c: Cursor, n: nat): Cursor
  {
    c.(pos := c.pos + n)
  }

  // ----- the places that come back -----

  lemma {:induction false} CoordinatesEncoded(p: Place)
    ensures Escape(Coordinates(p)) == EncodeNumber(p.x, 2) + EncodeNumber(p.y, 2) + Escape([p.z])
  {
    hide Escape, LittleBytes;
    EscapeAppend(LittleBytes(p.x, 2) + LittleBytes(p.y, 2), [p.z]);
    EscapeAppend(LittleBytes(p.x, 2), LittleBytes(p.y, 2));
  }

  lemma {:induction false} PlaceEncoded(p: Place)
    ensures EncodePlace(p) == EncodeNumber(|p.name|, 2) + (Escape(p.name) + Escape(Coordinates(p)))
  {
    hide Escape, EncodeNumber, Coordinates;
    CoordinatesEncoded(p);
    var number, name := EncodeNumber(|p.name|, 2), Escape(p.name);
    var x, y, z := EncodeNumber(p.x, 2), EncodeNumber(p.y, 2), Escape([p.z]);
    assert (number + name) + (x + (y + z)) == number + (name + (x + y + z));
  }

  lemma {:induction false} PlaceSplit(data: Bytes, i: nat, p: Place)
    requires EncodedAt(data, i, EncodePlace(p))
    ensures EncodePlace(p) == EncodeNumber(|p.name|, 2) + (Escape(p.name) + Escape(Coordinates(p)))
    ensures EncodedAt(data, i, EncodeNumber(|p.name|, 2))
    ensures EncodedAt(data, i + |EncodeNumber(|p.name|, 2)|, Escape(p.name) + Escape(Coordinates(p)))
  {
    hide *;
    PlaceEncoded(p);
    EncodedSplit(data, i, EncodeNumber(|p.name|, 2), Escape(p.name) + Escape(Coordinates(p)));
  }

  lemma {:induction false} LittleBytesInvert(bs: Bytes)
    ensures LittleBytes(Little(bs), |bs|) == bs
  {
    if bs != [] {
      LittleBytesInvert(bs[1..]);
      LowByte(bs[0], Little(bs[1..]));
      assert bs == [bs[0]] + bs[1..];
    }
  }

  lemma {:induction false} LowByte(b: byte, rest: nat)
    ensures (b + 0x100 * rest) % 0x100 == b && (b + 0x100 * rest) / 0x100 == rest
  {
  }

  /** A number of two bytes is read exactly if its bytes are. */
  lemma {:induction false} NumberIff(data: Bytes, c: Cursor, v: nat)
    requires c.nodes > 0 && v < 0x1_0000
    ensures var r := Escaped(data, c, 2);
      r.Done? ==>
        Number(data, c, 2) == Done(Little(r.value), r.c) && (Little(r.value) == v <==> r.value == LittleBytes(v, 2))
    ensures Escaped(data, c, 2).Fail? ==> Number(data, c, 2).Fail?
  {
    assert Power(2) == 0x1_0000;
    LittleInverts(v, 2);
    if Escaped(data, c, 2).Done? {
      EscapedBounds(data, c, 2);
      LittleBytesInvert(Escaped(data, c, 2).value);
    }
  }

  lemma {:induction false} ByteIff(data: Bytes, c: Cursor)
    requires c.nodes > 0
    ensures match Escaped(data, c, 1)
      case Fail(_) => U8(data, c).Fail?
      case Done(bs, e) => |bs| == 1 && U8(data, c) == Done(bs[0], e)
  {
    var p := if c.pos < |data| && data[c.pos] == ESCAPE then c.pos + 1 else c.pos;
    assert p < |data| ==> Escaped(data, c.(pos := p + 1), 0) == Done([], c.(pos := p + 1));
  }

  /** Behind the name: two numbers and a byte. */
  function ReadCoordinates(data: Bytes, c: Cursor): Step<(nat, nat, byte)>
  {
    var (x, c1) :- Number(data, c, 2);
    var (y, c2) :- Number(data, c1, 2);
    var (z, c3) :- U8(data, c2);
    Done((x, y, z), c3)
  }

  lemma {:induction false} PlaceRead(data: Bytes, c: Cursor, p: Place, e: Cursor)
    ensures ReadPlace(data, c) == Done(p, e) <==>
      var text := Text(data, c);
      text.Done? && text.value == p.name && ReadCoordinates(data, text.c) == Done((p.x, p.y, p.z), e)
  {
    hide Text, Number, U8;
  }

  lemma {:induction false} CoordinatesIff(data: Bytes, c: Cursor, p: Place, e: Cursor)
    requires c.nodes > 0 && p.x < 0x1_0000 && p.y < 0x1_0000
    ensures ReadCoordinates(data, c) == Done((p.x, p.y, p.z), e) <==> Escaped(data, c, 5) == Done(Coordinates(p), e)
  {
    hide Number, U8, Escaped, LittleBytes;
    EscapedInTwo(data, c, 2, 3);
    NumberIff(data, c, p.x);
    var first := Escaped(data, c, 2);
    if first.Done? {
      EscapedBounds(data, c, 2);
      EscapedInTwo(data, first.c, 2, 1);
      NumberIff(data, first.c, p.y);
      var second := Escaped(data, first.c, 2);
      if second.Done? {
        EscapedBounds(data, first.c, 2);
        ByteIff(data, second.c);
        var third := Escaped(data, second.c, 1);
        if third.Done? {
          ThreeParts(first.value, second.value, third.value, p);
        }
      }
    }
  }

  lemma {:induction false} ThreeParts(a: Bytes, b: Bytes, c: Bytes, p: Place)
    requires |a| == 2 && |b| == 2 && |c| == 1
    ensures a + (b + c) == Coordinates(p) <==> a == LittleBytes(p.x, 2) && b == LittleBytes(p.y, 2) && c[0] == p.z
  {
    var v := Coordinates(p);
    hide LittleBytes;
    assert v[..2] == LittleBytes(p.x, 2) && v[2..4] == LittleBytes(p.y, 2) && v[4] == p.z;
    var w := a + (b + c);
    assert w[..2] == a && w[2..4] == b && w[4] == c[0];
    assert c == [c[0]];
  }

  /** The text is the name exactly if it is short enough and its encoding begins with it. */
  lemma {:induction false} TextIs(data: Bytes, c: Cursor, name: Bytes, rest: Bytes)
    requires c.nodes > 0 && |name| < 0x1_0000 && EncodedAt(data, c.pos, EncodeNumber(|name|, 2))
    requires EncodedAt(data, c.pos + |EncodeNumber(|name|, 2)|, Escape(name) + rest)
    ensures var text := Text(data, c);
      text.Done? && text.value == name <==> |name| < STRING_BOUND && PlainThenEscapes(name)
    ensures Text(data, c).Done? ==> Text(data, c).c == Ahead(c, |EncodeNumber(|name|, 2)| + |name|)
  {
    assert Power(2) == 0x1_0000;
    NumberInverts(data, c, |name|, 2);
    NamePrefix(name);
    var j := c.pos + |EncodeNumber(|name|, 2)|;
    var e := Escape(name) + rest;
    hide EncodeNumber, Escape, Escaped, Number, PlainThenEscapes;
    assert data[j..j + |e|][..|name|] == e[..|name|] == Escape(name)[..|name|];
    assert data[j..j + |name|] == data[j..j + |e|][..|name|];
  }

  /** What is left of the name stands in front of the coordinates. */
  lemma {:induction false} LeftOver(data: Bytes, j: nat, name: Bytes, v: Bytes)
    requires EncodedAt(data, j, Escape(name) + Escape(v)) && PlainThenEscapes(name)
    ensures var k := |Escape(name)| - |name|;
      k >= 0 && EncodedAt(data, j + |name|, Behind(k, v)) && |name| + |Behind(k, v)| == |Escape(name)| + |Escape(v)|
  {
    NamePrefix(name);
    var e := Escape(name);
    assert e == e[..|name|] + e[|name|..];
    assert e + Escape(v) == e[..|name|] + (e[|name|..] + Escape(v));
    EncodedSplit(data, j, e[..|name|], e[|name|..] + Escape(v));
  }

  /** A place is read back, using up exactly its encoding, if and only if it is storable. */
  lemma {:induction false} PlaceInvertsIff(data: Bytes, c: Cursor, p: Place)
    requires c.nodes > 0 && EncodedAt(data, c.pos, EncodePlace(p))
    requires |p.name| < 0x1_0000 && p.x < 0x1_0000 && p.y < 0x1_0000
    ensures ReadPlace(data, c) == Done(p, Ahead(c, |EncodePlace(p)|)) <==> Storable(p)
  {
    hide ReadPlace, Text, Number, U8, Escaped, Escape, EncodedAt, EncodePlace, EncodeNumber, Coordinates, Behind, Plain,
      PlainThenEscapes, EscapeLast, SettlesLow, ReadCoordinates;
    var name, v := p.name, Coordinates(p);
    var j := c.pos + |EncodeNumber(|name|, 2)|;
    PlaceSplit(data, c.pos, p);
    PlaceRead(data, c, p, Ahead(c, |EncodePlace(p)|));
    TextIs(data, c, name, Escape(v));
    EscapeLength(name);
    OneLeft(name);
    var behind := Ahead(c, |EncodeNumber(|name|, 2)| + |name|);
    CoordinatesIff(data, behind, p, Ahead(c, |EncodePlace(p)|));
    if PlainThenEscapes(name) {
      LeftOver(data, j, name, v);
      LeftOversIff(data, behind, |Escape(name)| - |name|, v);
    }
    PlainIsPlain(name);
  }

  lemma {:induction false} PlainIsPlain(name: Bytes)
    ensures Plain(name) ==> PlainThenEscapes(name)
  {
    if name != [] && Plain(name) {
      PlainIsPlain(name[1..]);
    }
  }

  lemma {:induction false} PlaceInverts(data: Bytes, c: Cursor, p: Place)
    requires c.nodes > 0 && Storable(p) && EncodedAt(data, c.pos, EncodePlace(p))
    ensures ReadPlace(data, c) == Done(p, Ahead(c, |EncodePlace(p)|))
  {
    hide ReadPlace, EncodePlace, Plain, EscapeLast, SettlesLow, EncodedAt;
    PlaceInvertsIff(data, c, p);
  }

  /** A name of a single escape byte comes back with coordinates of zero, but not in front of a bracket byte. */
  lemma {:induction false} EscapeByteName()
    ensures Storable(Place([ESCAPE], 0, 0, 0)) && !Storable(Place([ESCAPE], START, 0, 0))
  {
    var name: Bytes := [ESCAPE];
    assert LittleBytes(0, 2) == [0, 0] && LittleBytes(START, 2) == [START, 0];
    assert Coordinates(Place(name, 0, 0, 0)) == [0, 0, 0, 0, 0];
    assert Coordinates(Place(name, START, 0, 0)) == [START, 0, 0, 0, 0];
    assert name[..0] == [] && name[0] == ESCAPE && !Plain(name) && EscapeLast(name);
  }

  /** Entering and leaving an encoded node. */
  lemma {:induction false} BracketInverts(data: Bytes, c: Cursor, ntype: byte, body: Bytes)
    requires 0 < ntype < 0xFD && c.nodes < 0xFFFF_FFFE && EncodedAt(data, c.pos, Bracket(ntype, body))
    ensures var inside := Cursor(c.pos + 2, c.nodes + 1);
      Start(data, c, ntype) == Done(true, inside) && EncodedAt(data, inside.pos, body) &&
      Finish(data, Ahead(inside, |body|)) == Done(true, Ahead(c, |Bracket(ntype, body)|)) &&
      forall other: byte :: other > 0 ==>
          Start(data, Ahead(inside, |body|), other) == Done(false, Ahead(inside, |body|))
  {
    EncodedSplit(data, c.pos, [START, ntype], body + [END]);
    EncodedSplit(data, c.pos + 2, body, [END]);
    assert data[c.pos] == data[c.pos..c.pos + 2][0] && data[c.pos + 1] == data[c.pos..c.pos + 2][1];
    var e := c.pos + 2 + |body|;
    assert data[e] == data[e..e + 1][0];
  }

  /** One turn of the town loop. */
  lemma {:induction false} TownRead(data: Bytes, c: Cursor, t: Town, towns: map<nat, Place>, c1: Cursor, c2: Cursor,
      c3: Cursor, c4: Cursor)
    requires Start(data, c, OTBM_TOWN) == Done(true, c1) && Number(data, c1, 4) == Done(t.id, c2)
    requires ReadPlace(data, c2) == Done(t.place, c3) && Finish(data, c3) == Done(true, c4)
    ensures TownLoop(data, c, towns) == TownLoop(data, c4, towns[t.id := t.place])
  {
    hide Start, Number, ReadPlace, Finish;
  }

  lemma {:induction false} TownIsBracket(t: Town)
    ensures EncodeTown(t) == Bracket(OTBM_TOWN, EncodeNumber(t.id, 4) + EncodePlace(t.place)) &&
      Power(4) == 0x1_0000_0000
  {
    hide EncodeNumber, EncodePlace;
  }

  lemma {:induction false} TownInverts(data: Bytes, c: Cursor, t: Town, towns: map<nat, Place>)
    requires 0 < c.nodes < 0xFFFF_FFFE && Storable(t.place) && t.id < 0x1_0000_0000 &&
      EncodedAt(data, c.pos, EncodeTown(t))
    ensures TownLoop(data, c, towns) == TownLoop(data, Ahead(c, |EncodeTown(t)|), towns[t.id := t.place])
  {
    hide Start, Finish, Number, ReadPlace, EncodeNumber, EncodePlace, EncodedAt, Power, Bracket, TownLoop, EncodeTown,
      Storable;
    TownIsBracket(t);
    var id, place := EncodeNumber(t.id, 4), EncodePlace(t.place);
    BracketInverts(data, c, OTBM_TOWN, id + place);
    var inside := Cursor(c.pos + 2, c.nodes + 1);
    EncodedSplit(data, inside.pos, id, place);
    NumberInverts(data, inside, t.id, 4);
    PlaceInverts(data, Ahead(inside, |id|), t.place);
    TownRead(data, c, t, towns, inside, Ahead(inside, |id|), Ahead(inside, |id + place|), Ahead(c, |EncodeTown(t)|));
  }

  lemma {:induction false} TownListInverts(data: Bytes, c: Cursor, ts: seq<Town>, towns: map<nat, Place>)
    requires 0 < c.nodes < 0xFFFF_FFFE && TownsStorable(ts) && EncodedAt(data, c.pos, EncodeTownList(ts))
    ensures TownLoop(data, c, towns) == TownLoop(data, Ahead(c, |EncodeTownList(ts)|), WriteTowns(ts, towns))
    decreases ts
  {
    hide TownLoop, EncodeTown, EncodedAt;
    if ts != [] {
      EncodedSplit(data, c.pos, EncodeTown(ts[0]), EncodeTownList(ts[1..]));
      TownInverts(data, c, ts[0], towns);
      TownListInverts(data, Ahead(c, |EncodeTown(ts[0])|), ts[1..], towns[ts[0].id := ts[0].place]);
    }
  }

  /** Parsing an encoded towns node writes every record, uses up exactly the encoding and restores the node depth. */
  lemma {:induction false} TownsRoundTrip(data: Bytes, c: Cursor, ts: seq<Town>, towns: map<nat, Place>)
    requires c.nodes < 0xFFFF_FFF0 && TownsStorable(ts) && EncodedAt(data, c.pos, EncodeTowns(ts))
    ensures Towns(data, c, towns) == Done(WriteTowns(ts, towns), Ahead(c, |EncodeTowns(ts)|))
  {
    BracketInverts(data, c, OTBM_TOWNS, EncodeTownList(ts));
    var inside := Cursor(c.pos + 2, c.nodes + 1);
    TownListInverts(data, inside, ts, towns);
    hide Start, Finish, EncodeTownList, WriteTowns, EncodedAt;
  }

  lemma {:induction false} WaypointInverts(data: Bytes, c: Cursor, p: Place, points: map<Bytes, Place>)
    requires 0 < c.nodes < 0xFFFF_FFFE && Storable(p) && EncodedAt(data, c.pos, Bracket(OTBM_WAYPOINT, EncodePlace(p)))
    ensures WaypointLoop(data, c, points) ==
      WaypointLoop(data, Ahead(c, |Bracket(OTBM_WAYPOINT, EncodePlace(p))|), points[p.name := p])
  {
    BracketInverts(data, c, OTBM_WAYPOINT, EncodePlace(p));
    PlaceInverts(data, Cursor(c.pos + 2, c.nodes + 1), p);
    hide Start, Finish, ReadPlace, EncodePlace, EncodedAt;
  }

  lemma {:induction false} WaypointListInverts(data: Bytes, c: Cursor, ps: seq<Place>, points: map<Bytes, Place>)
    requires 0 < c.nodes < 0xFFFF_FFFE && PlacesStorable(ps) && EncodedAt(data, c.pos, EncodeWaypointList(ps))
    ensures WaypointLoop(data, c, points) ==
      WaypointLoop(data, Ahead(c, |EncodeWaypointList(ps)|), WritePlaces(ps, points))
    decreases ps
  {
    hide WaypointLoop, Bracket, EncodePlace, EncodedAt;
    if ps != [] {
      var first := Bracket(OTBM_WAYPOINT, EncodePlace(ps[0]));
      EncodedSplit(data, c.pos, first, EncodeWaypointList(ps[1..]));
      WaypointInverts(data, c, ps[0], points);
      WaypointListInverts(data, Ahead(c, |first|), ps[1..], points[ps[0].name := ps[0]]);
    }
  }

  lemma {:induction false} WaypointsRoundTrip(data: Bytes, c: Cursor, ps: seq<Place>, points: map<Bytes, Place>)
    requires c.nodes < 0xFFFF_FFF0 && PlacesStorable(ps) && EncodedAt(data, c.pos, EncodeWaypoints(ps))
    ensures Waypoints(data, c, points) == Done(WritePlaces(ps, points), Ahead(c, |EncodeWaypoints(ps)|))
  {
    BracketInverts(data, c, OTBM_WAYPOINTS, EncodeWaypointList(ps));
    WaypointListInverts(data, Cursor(c.pos + 2, c.nodes + 1), ps, points);
    hide Start, Finish, EncodeWaypointList, WritePlaces, EncodedAt;
  }

  /** Ids without a record keep what they had. */
  lemma {:induction false} OtherTownsStay(ts: seq<Town>, towns: map<nat, Place>, id: nat)
    requires forall k :: 0 <= k < |ts| ==> ts[k].id != id
    ensures id in WriteTowns(ts, towns) <==> id in towns
    ensures id in towns ==> WriteTowns(ts, towns)[id] == towns[id]
    decreases ts
  {
    if ts != [] {
      OtherTownsStay(ts[1..], towns[ts[0].id := ts[0].place], id);
    }
  }

  /** Names without a record keep what they had. */
  lemma {:induction false} OtherWaypointsStay(ps: seq<Place>, points: map<Bytes, Place>, name: Bytes)
    requires forall k :: 0 <= k < |ps| ==> ps[k].name != name
    ensures name in WritePlaces(ps, points) <==> name in points
    ensures name in points ==> WritePlaces(ps, points)[name] == points[name]
    decreases ps
  {
    if ps != [] {
      OtherWaypointsStay(ps[1..], points[ps[0].name := ps[0]], name);
    }
  }

  /** The last record of a name is the one that stays. */
  lemma {:induction false} LastWaypointStays(ps: seq<Place>, points: map<Bytes, Place>, k: nat)
    requires k < |ps| && forall j :: k < j < |ps| ==> ps[j].name != ps[k].name
    ensures ps[k].name in WritePlaces(ps, points) && WritePlaces(ps, points)[ps[k].name] == ps[k]
    decreases ps
  {
    if k == 0 {
      OtherWaypointsStay(ps[1..], points[ps[0].name := ps[0]], ps[0].name);
    } else {
      LastWaypointStays(ps[1..], points[ps[0].name := ps[0]], k - 1);
    }
  }

  // ----- malformed sections -----

  /** A byte below the bracket bytes starts and ends nothing. */
  lemma {:induction false} NoBracket(data: Bytes, c: Cursor, ntype: byte)
    requires c.pos < |data| && data[c.pos] < 0xFD
    ensures Start(data, c, ntype) == Done(false, c) && Finish(data, c) == Done(false, c)
  {
  }

  /** Where no node starts there are no towns and no waypoints. */
  lemma {:induction false} SectionsNeedNodes(data: Bytes, c: Cursor, towns: map<nat, Place>, points: map<Bytes, Place>)
    requires c.pos < |data| && data[c.pos] < 0xFD
    ensures Towns(data, c, towns) == Fail(NodeNotRead) && Waypoints(data, c, points) == Fail(NodeNotRead)
  {
    NoBracket(data, c, OTBM_TOWNS);
    NoBracket(data, c, OTBM_WAYPOINTS);
    hide Start, TownLoop, WaypointLoop;
  }

  lemma {:induction false} LoopsStop(data: Bytes, c: Cursor, towns: map<nat, Place>, points: map<Bytes, Place>)
    requires c.pos < |data| && data[c.pos] < 0xFD
    ensures TownLoop(data, c, towns) == Fail(NodeNotEnded) && WaypointLoop(data, c, points) == Fail(NodeNotEnded)
  {
    NoBracket(data, c, OTBM_TOWN);
    NoBracket(data, c, OTBM_WAYPOINT);
    hide Start, Finish;
  }

  lemma {:induction false} SectionsAre(data: Bytes, c: Cursor, inside: Cursor, towns: map<nat, Place>,
      points: map<Bytes, Place>)
    ensures Start(data, c, OTBM_TOWNS) == Done(true, inside) ==> Towns(data, c, towns) == TownLoop(data, inside, towns)
    ensures Start(data, c, OTBM_WAYPOINTS) == Done(true, inside) ==>
      Waypoints(data, c, points) == WaypointLoop(data, inside, points)
  {
    hide Start, TownLoop, WaypointLoop;
  }

  /** A section that begins with this list and goes on with one more byte. */
  lemma {:induction false} ListAndByte(data: Bytes, c: Cursor, ntype: byte, list: Bytes, other: byte)
    requires 0 < ntype < 0xFD && c.nodes < 0xFFFF_FFFE && EncodedAt(data, c.pos, [0xFE, ntype] + (list + [other]))
    ensures var inside := Cursor(c.pos + 2, c.nodes + 1); var e := Ahead(inside, |list|);
      Start(data, c, ntype) == Done(true, inside) && EncodedAt(data, inside.pos, list) &&
      e.pos < |data| && data[e.pos] == other
  {
    hide Start, EncodedAt;
    Enter(data, c, ntype, list + [other]);
    EncodedSplit(data, c.pos + 2, list, [other]);
    ByteAt(data, c.pos + 2 + |list|, [other], 0);
  }

  /** Records that neither another record nor the end of the section follows are refused. */
  lemma {:induction false} TownsNeedEnd(data: Bytes, c: Cursor, ts: seq<Town>, towns: map<nat, Place>, other: byte)
    requires c.nodes < 0xFFFF_FFF0 && TownsStorable(ts) && other < 0xFD
    requires EncodedAt(data, c.pos, [0xFE, 12] + (EncodeTownList(ts) + [other]))
    ensures Towns(data, c, towns) == Fail(NodeNotEnded)
  {
    assert OTBM_TOWNS == 12;
    hide *;
    var inside := Cursor(c.pos + 2, c.nodes + 1);
    var list := EncodeTownList(ts);
    ListAndByte(data, c, OTBM_TOWNS, list, other);
    TownListInverts(data, inside, ts, towns);
    LoopsStop(data, Ahead(inside, |list|), WriteTowns(ts, towns), map[]);
    SectionsAre(data, c, inside, towns, map[]);
  }

  lemma {:induction false} WaypointsNeedEnd(data: Bytes, c: Cursor, ps: seq<Place>, points: map<Bytes, Place>,
      other: byte)
    requires c.nodes < 0xFFFF_FFF0 && PlacesStorable(ps) && other < 0xFD
    requires EncodedAt(data, c.pos, [0xFE, 15] + (EncodeWaypointList(ps) + [other]))
    ensures Waypoints(data, c, points) == Fail(NodeNotEnded)
  {
    assert OTBM_WAYPOINTS == 15;
    hide *;
    var inside := Cursor(c.pos + 2, c.nodes + 1);
    var list := EncodeWaypointList(ps);
    ListAndByte(data, c, OTBM_WAYPOINTS, list, other);
    WaypointListInverts(data, inside, ps, points);
    LoopsStop(data, Ahead(inside, |list|), map[], WritePlaces(ps, points));
    SectionsAre(data, c, inside, map[], points);
  }

  lemma {:induction false} ByteAt(data: Bytes, i: nat, code: Bytes, k: nat)
    requires EncodedAt(data, i, code) && k < |code|
    ensures i + k < |data| && data[i + k] == code[k]
  {
    assert data[i..i + |code|][k] == code[k];
  }

  lemma {:induction false} Enter(data: Bytes, c: Cursor, ntype: byte, rest: Bytes)
    requires 0 < ntype < 0xFD && c.nodes < 0xFFFF_FFFE && EncodedAt(data, c.pos, [0xFE, ntype] + rest)
    ensures Start(data, c, ntype) == Done(true, Cursor(c.pos + 2, c.nodes + 1)) && EncodedAt(data, c.pos + 2, rest)
  {
    var code := [0xFE, ntype] + rest;
    ByteAt(data, c.pos, code, 0);
    ByteAt(data, c.pos, code, 1);
    EncodedSplit(data, c.pos, [0xFE, ntype], rest);
  }

  /** The last record of an id is the one that stays. */
  lemma {:induction false} LastTownStays(ts: seq<Town>, towns: map<nat, Place>, k: nat)
    requires k < |ts| && forall j :: k < j < |ts| ==> ts[j].id != ts[k].id
    ensures ts[k].id in WriteTowns(ts, towns) && WriteTowns(ts, towns)[ts[k].id] == ts[k].place
    decreases ts
  {
    if k == 0 {
      OtherTownsStay(ts[1..], towns[ts[0].id := ts[0].place], ts[0].id);
    } else {
      LastTownStays(ts[1..], towns[ts[0].id := ts[0].place], k - 1);
    }
  }

  // ----- the map -----

  class Map {
    var towns: map<nat, Place>
    var waypoints: map<Bytes, Place>

    constructor ()
      ensures towns == map[] && waypoints == map[]
    {
      towns, waypoints := map[], map[];
    }

    method ReadPlaceFrom(stream: Stream) returns (r: Step<Place>)
      modifies stream
      ensures r == ReadPlace(stream.data, old(stream.At())) && (r.Done? ==> stream.At() == r.c)
    {
      var name :- stream.GetString();
      var x :- stream.Read(2);
      var y :- stream.Read(2);
      var z :- stream.GetU8();
      return Done(Place(name.0, x.0, y.0, z.0), stream.At());
    }

    /** A failed step is the exception; what it leaves behind is not specified. */
    method ParseTowns(stream: Stream) returns (r: Step<()>)
      modifies this`towns, stream
      ensures var spec := Towns(stream.data, old(stream.At()), old(towns));
        r.Done? == spec.Done? && (spec.Done? ==> towns == spec.value && stream.At() == spec.c)
    {
      ghost var spec := Towns(stream.data, stream.At(), towns);
      var started :- stream.StartNode(OTBM_TOWNS);
      if !started.0 {
        return Fail(NodeNotRead);
      }
      var more := true;
      while more
        invariant spec == if more then TownLoop(stream.data, stream.At(), towns)
          else Ending(Finish(stream.data, stream.At()), towns)
        decreases more, |stream.data| - stream.pos
      {
        var again :- stream.StartNode(OTBM_TOWN);
        if again.0 {
          var id :- stream.Read(4);
          var place :- ReadPlaceFrom(stream);
          towns := towns[id.0 := place.0];
          var ended :- stream.EndNode();
          if !ended.0 {
            return Fail(NodeNotEnded);
          }
        } else {
          more := false;
        }
      }
      var ended :- stream.EndNode();
      if !ended.0 {
        return Fail(NodeNotEnded);
      }
      return Done((), stream.At());
    }

    method ParseWaypoints(stream: Stream) returns (r: Step<()>)
      modifies this`waypoints, stream
      ensures var spec := Waypoints(stream.data, old(stream.At()), old(waypoints));
        r.Done? == spec.Done? && (spec.Done? ==> waypoints == spec.value && stream.At() == spec.c)
    {
      ghost var spec := Waypoints(stream.data, stream.At(), waypoints);
      var started :- stream.StartNode(OTBM_WAYPOINTS);
      if !started.0 {
        return Fail(NodeNotRead);
      }
      var more := true;
      while more
        invariant spec == if more then WaypointLoop(stream.data, stream.At(), waypoints)
          else Ending(Finish(stream.data, stream.At()), waypoints)
        decreases more, |stream.data| - stream.pos
      {
        var again :- stream.StartNode(OTBM_WAYPOINT);
        if again.0 {
          var place :- ReadPlaceFrom(stream);
          waypoints := waypoints[place.0.name := place.0];
          var ended :- stream.EndNode();
          if !ended.0 {
            return Fail(NodeNotEnded);
          }
        } else {
          more := false;
        }
      }
      var ended :- stream.EndNode();
      if !ended.0 {
        return Fail(NodeNotEnded);
      }
      return Done((), stream.At());
    }
  }
}
