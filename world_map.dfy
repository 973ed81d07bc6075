// The tile bookkeeping of src/world_map.rs: world-to-tile conversion, and the two systems
// that paint the cursor tile and later restore hovered tiles.
//
// The tile entities (MapPos, TileColor, TileIndex, optional Building and HoveredTile markers)
// are a sequence of records; the tilemap's displayed cells are a map from tile position to
// what is shown there. Marker inserts, removals and spawns issued through the engine's
// command queue are applied when the system returns.
module WorldMap {
  import opened Math

  datatype UVec2 = UVec2(x: U32, y: U32)

  /** TILE_SIZE, the same on both axes. */
  const TILE_SIZE: real := 16.0

  /** MAP_SIZE, the same on both axes. */
  const MAP_SIZE: nat := 100

  const BUILDING_TILE_INDEX: nat := 1

  const NORMAL_TILE_INDEX: nat := 1

  /** The named colour constants. */
  datatype Color = BuildingColor | HoverColor | NormalColor

  /** The RGBA value of each named colour. */
  function Rgba(c: Color): (real, real, real, real)
  {
    match c
    case BuildingColor => (0.8, 1.0, 0.8, 0.1)
    case HoverColor => (0.0, 0.0, 0.0, 0.1)
    case NormalColor => (1.0, 1.0, 1.0, 1.0)
  }

  /** The three named colours are told apart on screen: their RGBA values are pairwise distinct. */
  lemma ColorsDistinct(c: Color, d: Color)
    ensures Rgba(c) == Rgba(d) <==> c == d
  {
  }

  datatype BuildingType = Tunnel | QueenChamber | FoodStorage

  datatype Option<T> = None | Some(value: T)

  /** A tile entity: its position, its stored colour and index, and its optional markers. */
  datatype TileRecord = TileRecord(
    pos: UVec2,
    color: Color,
    index: nat,
    building: Option<BuildingType>,
    hovered: bool)

  /** What the tilemap shows in one cell. */
  datatype TileView = TileView(index: nat, color: Color)

  // ---------------------------------------------------------------- coordinates

  /** CursorPos::default: far away from the map. */
  function DefaultCursorPos(): Vec2
  {
    Vec2(-1000.0, -1000.0)
  }

  /** The float-to-u32 cast: rounds toward zero and saturates at both ends of the range. */
  function CastU32(v: real): (r: U32)
    ensures v <= 0.0 ==> r == 0
    ensures 0.0 <= v < 4294967296.0 ==> r as real <= v < r as real + 1.0
    ensures v >= 4294967296.0 ==> r == 0xffff_ffff
  {
    if v <= 0.0 then 0
    else if v >= 4294967296.0 then 0xffff_ffff
    else v.Floor as U32
  }

  function WorldPosToTwoDIndex(pos: Vec2): (r: UVec2)
    ensures pos.x <= 0.0 ==> r.x == 0
    ensures pos.y <= 0.0 ==> r.y == 0
    ensures 0.0 <= pos.x < TILE_SIZE * 4294967296.0 ==> TILE_SIZE * r.x as real <= pos.x < TILE_SIZE * (r.x as real + 1.0)
    ensures 0.0 <= pos.y < TILE_SIZE * 4294967296.0 ==> TILE_SIZE * r.y as real <= pos.y < TILE_SIZE * (r.y as real + 1.0)
  {
    UVec2(CastU32(pos.x / TILE_SIZE), CastU32(pos.y / TILE_SIZE))
  }

  /** On non-negative coordinates the tile index is the floor of the position over the tile size. */
  lemma TileIndexIsFloor(pos: Vec2)
    requires 0.0 <= pos.x < TILE_SIZE * 4294967296.0
    requires 0.0 <= pos.y < TILE_SIZE * 4294967296.0
    ensures var t := WorldPosToTwoDIndex(pos);
      && TILE_SIZE * t.x as real <= pos.x < TILE_SIZE * (t.x as real + 1.0)
      && TILE_SIZE * t.y as real <= pos.y < TILE_SIZE * (t.y as real + 1.0)
  {
  }

  /** Negative coordinates saturate to tile 0; in particular the default cursor sits on tile (0, 0). */
  lemma NegativeCoordinatesSaturate(pos: Vec2)
    ensures pos.x < 0.0 ==> WorldPosToTwoDIndex(pos).x == 0
    ensures pos.y < 0.0 ==> WorldPosToTwoDIndex(pos).y == 0
    ensures WorldPosToTwoDIndex(DefaultCursorPos()) == UVec2(0, 0)
  {
  }

  /** The index is not clipped to the map: a coordinate at or past 1600 lands at index 100 or beyond. */
  lemma IndexNotClippedToMap(pos: Vec2)
    ensures TILE_SIZE * MAP_SIZE as real <= pos.x < TILE_SIZE * 4294967296.0 ==> WorldPosToTwoDIndex(pos).x as int >= MAP_SIZE
    ensures TILE_SIZE * MAP_SIZE as real <= pos.y < TILE_SIZE * 4294967296.0 ==> WorldPosToTwoDIndex(pos).y as int >= MAP_SIZE
  {
  }

  // ---------------------------------------------------------------- the tile table

  /** At most one record per tile position. */
  predicate UniquePositions(tiles: seq<TileRecord>)
  {
    forall i, j :: 0 <= i < j < |tiles| ==> tiles[i].pos != tiles[j].pos
  }

  /** Every built tile stores the building colour and index. */
  predicate BuiltTilesPainted(tiles: seq<TileRecord>)
  {
    forall i :: 0 <= i < |tiles| && tiles[i].building.Some? ==>
      tiles[i].color == BuildingColor && tiles[i].index == BUILDING_TILE_INDEX
  }

  /** The first record at `pos`, if there is one. */
  function IndexOf(tiles: seq<TileRecord>, pos: UVec2): (r: Option<nat>)
    ensures r.Some? ==> r.value < |tiles| && tiles[r.value].pos == pos
    ensures r.Some? ==> forall j :: 0 <= j < r.value ==> tiles[j].pos != pos
    ensures r.None? ==> forall j :: 0 <= j < |tiles| ==> tiles[j].pos != pos
  {
    if |tiles| == 0 then None
    else if tiles[0].pos == pos then Some(0)
    else match IndexOf(tiles[1..], pos)
      case None => None
      case Some(k) => Some(k + 1)
  }

  /** What mouse_button_input paints in the cursor's cell. */
  function CursorView(pressed: bool): TileView
  {
    if pressed then TileView(BUILDING_TILE_INDEX, BuildingColor) else TileView(NORMAL_TILE_INDEX, HoverColor)
  }

  /** An existing record at the cursor: a press builds a tunnel there, otherwise it is marked hovered. */
  function Touched(t: TileRecord, pressed: bool): TileRecord
  {
    if pressed then t.(building := Some(Tunnel), color := BuildingColor, index := BUILDING_TILE_INDEX)
    else t.(hovered := true)
  }

  /** The record spawned when there is none at the cursor. */
  function NewRecord(pos: UVec2, pressed: bool): TileRecord
  {
    if pressed then TileRecord(pos, BuildingColor, BUILDING_TILE_INDEX, Some(Tunnel), false)
    else TileRecord(pos, NormalColor, NORMAL_TILE_INDEX, None, true)
  }

  /** The tile table after mouse_button_input. */
  function MouseTiles(tiles: seq<TileRecord>, cursor: UVec2, pressed: bool): (r: seq<TileRecord>)
    ensures |tiles| <= |r| <= |tiles| + 1
    ensures forall i :: 0 <= i < |tiles| ==> r[i].pos == tiles[i].pos
    ensures forall i :: |tiles| <= i < |r| ==> r[i].pos == cursor
    ensures IndexOf(r, cursor).Some?
  {
    match IndexOf(tiles, cursor)
    case Some(i) =>
      var r := tiles[i := Touched(tiles[i], pressed)];
      assert r[i].pos == cursor;
      r
    case None =>
      var r := tiles + [NewRecord(cursor, pressed)];
      assert r[|tiles|].pos == cursor;
      r
  }

  function View(t: TileRecord): TileView
  {
    TileView(t.index, t.color)
  }

  /** The display after reset_hovered_tiles has written back every hovered record, in order. */
  function ResetDisplay(display: map<UVec2, TileView>, tiles: seq<TileRecord>): (r: map<UVec2, TileView>)
    ensures display.Keys <= r.Keys
    ensures forall i :: 0 <= i < |tiles| && tiles[i].hovered ==> tiles[i].pos in r
    ensures forall p :: p in r && p !in display ==> exists i :: 0 <= i < |tiles| && tiles[i].hovered && tiles[i].pos == p
  {
    if |tiles| == 0 then display
    else
      var last := tiles[|tiles| - 1];
      var before := ResetDisplay(display, tiles[..|tiles| - 1]);
      if last.hovered then before[last.pos := View(last)] else before
  }

  /** The tile table after every HoveredTile marker is removed. */
  function Unhovered(tiles: seq<TileRecord>): seq<TileRecord>
  {
    seq(|tiles|, i requires 0 <= i < |tiles| => tiles[i].(hovered := false))
  }

  /** mouse_button_input keeps one record per position and every built tile painted,
      and afterwards there is a record at the cursor. */
  lemma {:induction false} MouseKeepsInvariants(tiles: seq<TileRecord>, cursor: UVec2, pressed: bool)
    requires UniquePositions(tiles) && BuiltTilesPainted(tiles)
    ensures UniquePositions(MouseTiles(tiles, cursor, pressed))
    ensures BuiltTilesPainted(MouseTiles(tiles, cursor, pressed))
    ensures IndexOf(MouseTiles(tiles, cursor, pressed), cursor).Some?
  {
    var r := MouseTiles(tiles, cursor, pressed);
    match IndexOf(tiles, cursor)
    case Some(i) =>
      assert r[i].pos == cursor;
      assert forall j :: 0 <= j < |r| ==> r[j].pos == tiles[j].pos;
      assert IndexOf(r, cursor) != None;
    case None =>
      assert r[|tiles|].pos == cursor;
      assert forall j :: 0 <= j < |tiles| ==> r[j] == tiles[j];
      assert IndexOf(r, cursor) != None;
  }

  /** Records away from the cursor are never modified, and nothing but the cursor's record is added. */
  lemma MouseTouchesOnlyCursor(tiles: seq<TileRecord>, cursor: UVec2, pressed: bool)
    ensures var r := MouseTiles(tiles, cursor, pressed);
      && |tiles| <= |r| <= |tiles| + 1
      && (forall i :: 0 <= i < |tiles| && tiles[i].pos != cursor ==> r[i] == tiles[i])
      && (forall i :: 0 <= i < |tiles| ==> r[i].pos == tiles[i].pos)
      && (forall i :: |tiles| <= i < |r| ==> r[i].pos == cursor)
  {
  }

  /** At an existing record: no record is created; a press builds a tunnel with the building
      colour and index, a hover only adds the marker and keeps the stored colour and index. */
  lemma MouseAtExistingRecord(tiles: seq<TileRecord>, cursor: UVec2, pressed: bool, i: nat)
    requires i < |tiles| && tiles[i].pos == cursor && UniquePositions(tiles)
    ensures var r := MouseTiles(tiles, cursor, pressed);
      && |r| == |tiles|
      && r[i].pos == cursor
      && (pressed ==> r[i].building == Some(Tunnel) && r[i].color == BuildingColor
                      && r[i].index == BUILDING_TILE_INDEX && r[i].hovered == tiles[i].hovered)
      && (!pressed ==> r[i].hovered && r[i].color == tiles[i].color && r[i].index == tiles[i].index
                       && r[i].building == tiles[i].building)
  {
  }

  /** Without a record at the cursor exactly one is created there: a tunnel with the building
      colour on a press, otherwise a hovered record with the normal colour and index. */
  lemma MouseAtNewTile(tiles: seq<TileRecord>, cursor: UVec2, pressed: bool)
    requires forall j :: 0 <= j < |tiles| ==> tiles[j].pos != cursor
    ensures var r := MouseTiles(tiles, cursor, pressed);
      && r == tiles + [r[|tiles|]]
      && r[|tiles|].pos == cursor
      && (pressed ==> r[|tiles|].building == Some(Tunnel) && r[|tiles|].color == BuildingColor
                      && !r[|tiles|].hovered)
      && (!pressed ==> r[|tiles|].building == None && r[|tiles|].hovered
                       && r[|tiles|].color == NormalColor && r[|tiles|].index == NORMAL_TILE_INDEX)
  {
  }

  /** The cursor cell always shows index 1, with the building colour on a press and the hover colour otherwise. */
  lemma CursorCellIndexIsOne(pressed: bool)
    ensures CursorView(pressed).index == 1
    ensures CursorView(pressed).color == (if pressed then BuildingColor else HoverColor)
  {
  }

  /** A building is never removed, by either system. */
  lemma BuildingNeverRemoved(tiles: seq<TileRecord>, cursor: UVec2, pressed: bool)
    ensures forall i :: 0 <= i < |tiles| && tiles[i].building.Some? ==>
      MouseTiles(tiles, cursor, pressed)[i].building.Some? && Unhovered(tiles)[i].building == tiles[i].building
  {
  }

  /** reset_hovered_tiles writes every hovered record's stored index and colour back to its cell. */
  lemma {:induction false} ResetRestoresHovered(display: map<UVec2, TileView>, tiles: seq<TileRecord>, k: nat)
    requires UniquePositions(tiles)
    requires k < |tiles| && tiles[k].hovered
    ensures tiles[k].pos in ResetDisplay(display, tiles)
    ensures ResetDisplay(display, tiles)[tiles[k].pos] == View(tiles[k])
  {
    var n := |tiles| - 1;
    if k < n {
      assert UniquePositions(tiles[..n]);
      ResetRestoresHovered(display, tiles[..n], k);
      assert tiles[n].pos != tiles[k].pos;
    }
  }

  /** Cells with no hovered record on them are left exactly as they were. */
  lemma {:induction false} ResetKeepsOtherCells(display: map<UVec2, TileView>, tiles: seq<TileRecord>, p: UVec2)
    requires forall i :: 0 <= i < |tiles| && tiles[i].hovered ==> tiles[i].pos != p
    ensures p in ResetDisplay(display, tiles) <==> p in display
    ensures p in display ==> ResetDisplay(display, tiles)[p] == display[p]
  {
    if |tiles| > 0 {
      ResetKeepsOtherCells(display, tiles[..|tiles| - 1], p);
    }
  }

  /** Removing the markers keeps one record per position and every built tile painted. */
  lemma UnhoveredKeepsInvariants(tiles: seq<TileRecord>)
    requires UniquePositions(tiles) && BuiltTilesPainted(tiles)
    ensures UniquePositions(Unhovered(tiles)) && BuiltTilesPainted(Unhovered(tiles))
    ensures forall i :: 0 <= i < |tiles| ==> !Unhovered(tiles)[i].hovered
  {
    assert forall i :: 0 <= i < |tiles| ==> Unhovered(tiles)[i].pos == tiles[i].pos;
  }

  /** Hovering a built tile and then resetting repaints it with the building colour. */
  lemma HoverThenResetShowsBuilding(display: map<UVec2, TileView>, tiles: seq<TileRecord>, cursor: UVec2, i: nat)
    requires UniquePositions(tiles) && BuiltTilesPainted(tiles)
    requires i < |tiles| && tiles[i].pos == cursor && tiles[i].building.Some?
    ensures var r := MouseTiles(tiles, cursor, false);
      && cursor in ResetDisplay(display[cursor := CursorView(false)], r)
      && ResetDisplay(display[cursor := CursorView(false)], r)[cursor] == TileView(BUILDING_TILE_INDEX, BuildingColor)
  {
    var r := MouseTiles(tiles, cursor, false);
    MouseKeepsInvariants(tiles, cursor, false);
    MouseAtExistingRecord(tiles, cursor, false, i);
    ResetRestoresHovered(display[cursor := CursorView(false)], r, i);
  }

  /** Hovering an empty tile and then resetting repaints it with the normal colour. */
  lemma HoverThenResetShowsNormal(display: map<UVec2, TileView>, tiles: seq<TileRecord>, cursor: UVec2)
    requires UniquePositions(tiles) && BuiltTilesPainted(tiles)
    requires forall j :: 0 <= j < |tiles| ==> tiles[j].pos != cursor
    ensures var r := MouseTiles(tiles, cursor, false);
      && cursor in ResetDisplay(display[cursor := CursorView(false)], r)
      && ResetDisplay(display[cursor := CursorView(false)], r)[cursor] == TileView(NORMAL_TILE_INDEX, NormalColor)
  {
    var r := MouseTiles(tiles, cursor, false);
    MouseKeepsInvariants(tiles, cursor, false);
    MouseAtNewTile(tiles, cursor, false);
    ResetRestoresHovered(display[cursor := CursorView(false)], r, |tiles|);
  }

  // ---------------------------------------------------------------- the systems

  class TileWorld {
    var tiles: seq<TileRecord>
    var display: map<UVec2, TileView>

    ghost predicate Valid()
      reads this
    {
      UniquePositions(tiles) && BuiltTilesPainted(tiles)
    }

    /** An empty tile table over a tilemap showing `display0`. */
    constructor (display0: map<UVec2, TileView>)
      ensures Valid() && tiles == [] && display == display0
    {
      tiles := [];
      display := display0;
    }

    /** mouse_button_input */
    method MouseButtonInput(leftPressed: bool, cursorPos: Vec2)
      requires Valid()
      modifies this
      ensures Valid()
      ensures tiles == MouseTiles(old(tiles), WorldPosToTwoDIndex(cursorPos), leftPressed)
      ensures display == old(display)[WorldPosToTwoDIndex(cursorPos) := CursorView(leftPressed)]
    {
      var cursorMapPos := WorldPosToTwoDIndex(cursorPos);

      var newTileState := false;
      var newTileColor := NormalColor;
      var newTileIndex := NORMAL_TILE_INDEX;

      var displayTileColor: Color;
      var displayTileIndex := NORMAL_TILE_INDEX;

      if leftPressed {
        newTileColor := BuildingColor;
        displayTileColor := BuildingColor;
        newTileIndex := BUILDING_TILE_INDEX;
        displayTileIndex := BUILDING_TILE_INDEX;
        newTileState := true;
      } else {
        displayTileColor := HoverColor;
      }

      display := display[cursorMapPos := TileView(displayTileIndex, displayTileColor)];

      MouseKeepsInvariants(tiles, cursorMapPos, leftPressed);
      var i := 0;
      while i < |tiles|
        invariant 0 <= i <= |tiles|
        invariant tiles == old(tiles)
        invariant forall j :: 0 <= j < i ==> tiles[j].pos != cursorMapPos
      {
        if tiles[i].pos == cursorMapPos {
          var t := tiles[i];
          if leftPressed {
            t := t.(building := Some(Tunnel));
          } else {
            t := t.(hovered := true);
          }
          if newTileState {
            t := t.(color := newTileColor, index := newTileIndex);
          }
          tiles := tiles[i := t];
          return;
        }
        i := i + 1;
      }

      if leftPressed {
        tiles := tiles + [TileRecord(cursorMapPos, newTileColor, newTileIndex, Some(Tunnel), false)];
      } else {
        tiles := tiles + [TileRecord(cursorMapPos, newTileColor, newTileIndex, None, true)];
      }
    }

    /** reset_hovered_tiles */
    method ResetHoveredTiles()
      requires Valid()
      modifies this
      ensures Valid()
      ensures tiles == Unhovered(old(tiles))
      ensures display == ResetDisplay(old(display), old(tiles))
    {
      var cleared := tiles;  // the marker removals, applied when the system returns
      var i := 0;
      while i < |tiles|
        invariant 0 <= i <= |tiles|
        invariant tiles == old(tiles)
        invariant display == ResetDisplay(old(display), tiles[..i])
        invariant |cleared| == |tiles|
        invariant forall j :: 0 <= j < i ==> cleared[j] == tiles[j].(hovered := false)
        invariant forall j :: i <= j < |tiles| ==> cleared[j] == tiles[j]
      {
        assert tiles[..i + 1][..i] == tiles[..i];
        var t := tiles[i];
        if t.hovered {
          display := display[t.pos := TileView(t.index, t.color)];
          cleared := cleared[i := t.(hovered := false)];
        }
        i := i + 1;
      }
      assert tiles[..i] == tiles;
      UnhoveredKeepsInvariants(tiles);
      tiles := cleared;
    }
  }
}
