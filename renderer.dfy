/** The live renderer, the class defined at the top of main.cpp: tile address
    resolution with the null-tile fallback, sprite placement with the vertical
    anchor correction and culling, and the isometric cell projection. */
module Renderer {
  import opened Sheet
  import opened Host

  /** A source rectangle in the sheet: position and size in pixels. */
  datatype SpriteSheetPos = SpriteSheetPos(pos: IVec2, size: IVec2)

  /** An address the table resolves directly: an existing row and a column
      below that row's sprite count. A negative column is not rejected. */
  predicate InRange(rows: seq<SpriteSheetRow>, tileRow: int, tileCol: int)
  {
    0 <= tileRow < |rows| && tileCol < rows[tileRow].spriteCount
  }

  /** What a caller of GetSpriteSheetPos must ensure. The row is dereferenced
      before the bounds check, which only guards the top of the table, so the
      row index must not be negative; and an address out of range is resolved
      as (0, 0), which must itself be in range, or the fallback never ends. */
  predicate Resolvable(rows: seq<SpriteSheetRow>, tileRow: int, tileCol: int)
  {
    0 <= tileRow && (InRange(rows, tileRow, tileCol) || InRange(rows, 0, 0))
  }

  /** The source rectangle of tile (tileRow, tileCol). The decreases clause
      shows that the fallback recurses at most once. */
  function GetSpriteSheetPos(rows: seq<SpriteSheetRow>, tileRow: int, tileCol: int): (p: SpriteSheetPos)
    requires Resolvable(rows, tileRow, tileCol)
    ensures InRange(rows, tileRow, tileCol) ==>
      p == SpriteSheetPos(IVec2(tileCol * rows[tileRow].spriteWidth + 1, rows[tileRow].rowVerticalOffset),
                          IVec2(rows[tileRow].spriteWidth, rows[tileRow].spriteHeight))
    ensures !InRange(rows, tileRow, tileCol) ==>
      p == SpriteSheetPos(IVec2(1, rows[0].rowVerticalOffset), IVec2(rows[0].spriteWidth, rows[0].spriteHeight))
    decreases if InRange(rows, tileRow, tileCol) then 0 else 1
  {
    if tileRow >= |rows| || tileCol >= rows[tileRow].spriteCount then
      GetSpriteSheetPos(rows, 0, 0) // the "null" tile
    else
      var row := rows[tileRow];
      var textureY := row.rowVerticalOffset;
      var textureX := tileCol * row.spriteWidth + 1; // column 0 holds the metadata
      SpriteSheetPos(IVec2(textureX, textureY), IVec2(row.spriteWidth, row.spriteHeight))
  }

  /** On a decoded sheet, the rectangle of a resolved address lies in the band
      of the row it resolves to (the requested row, or row 0 on fallback): it
      starts at the cursor the counting pass stopped at for that row, its size is
      what the band's first metadata pixel encodes, it ends where the next band
      starts, and its column is below the band's tile count. */
  lemma ResolvesToBand(column: seq<Pixel>, tileRow: int, tileCol: int)
    requires SecondPixelsInside(column)
    requires Resolvable(Table(column), tileRow, tileCol)
    ensures var t := Table(column);
      var p := GetSpriteSheetPos(t, tileRow, tileCol);
      var r := if InRange(t, tileRow, tileCol) then tileRow else 0;
      var c := if InRange(t, tileRow, tileCol) then tileCol else 0;
      && 0 <= r < |SheetWalk(column).starts|
      && p.pos.y == SheetWalk(column).starts[r]
      && 0 <= p.pos.y < |column|
      && p.size.x == column[p.pos.y].r as int
      && p.size.y == column[p.pos.y].g as int > 0
      && p.pos.x == 1 + c * p.size.x
      && c < column[p.pos.y].b as int
      && (r + 1 < |t| ==> p.pos.y + p.size.y == SheetWalk(column).starts[r + 1])
  {
    TableStartsAtTop(column);
    TableContiguous(column);
    TableRowsInside(column);
    var t := Table(column);
    var r := if InRange(t, tileRow, tileCol) then tileRow else 0;
    TableFields(column, r);
    if r + 1 < |t| {
      assert t[r + 1] == RowAt(column, SheetWalk(column).starts[r + 1]);
    }
  }

  /** Tiles of a row are packed left to right without gaps: the next column
      starts where this one ends, on the same band. */
  lemma TilesAdjacent(rows: seq<SpriteSheetRow>, tileRow: int, tileCol: int)
    requires InRange(rows, tileRow, tileCol) && InRange(rows, tileRow, tileCol + 1)
    ensures var p, q := GetSpriteSheetPos(rows, tileRow, tileCol), GetSpriteSheetPos(rows, tileRow, tileCol + 1);
      q.pos.x == p.pos.x + p.size.x && q.pos.y == p.pos.y && q.size == p.size
  {
    var w := rows[tileRow].spriteWidth;
    assert (tileCol + 1) * w == tileCol * w + w;
  }

  /** A negative column passes the range check and yields a rectangle that
      starts in the metadata column or left of the image. */
  lemma NegativeColumnNotRejected(rows: seq<SpriteSheetRow>, tileRow: int, tileCol: int)
    requires 0 <= tileRow < |rows| && 0 <= rows[tileRow].spriteCount && 0 < rows[tileRow].spriteWidth
    requires tileCol < 0
    ensures InRange(rows, tileRow, tileCol)
    ensures GetSpriteSheetPos(rows, tileRow, tileCol).pos.x <= 0
  {
    var w := rows[tileRow].spriteWidth;
    assert tileCol * w <= -w by {
      assert (-tileCol) * w >= w;
    }
  }

  /** The partial-decal call RenderSprite prepares: the resolved rectangle, drawn
      at screenPos raised by the requested row's vertical offset (in tile
      heights, scaled) and at the given scale. */
  function SpriteDraw(rows: seq<SpriteSheetRow>, tileHeight: int, screenPos: Vec2,
                      tileRow: int, tileCol: int, size: Vec2): (d: DrawCall)
    requires tileRow < |rows| && Resolvable(rows, tileRow, tileCol)
    ensures var p := GetSpriteSheetPos(rows, tileRow, tileCol);
      d.srcPos == ToReal(p.pos) && d.srcSize == ToReal(p.size)
    ensures d.pos.x == screenPos.x && d.scale == size
  {
    var row := rows[tileRow];
    var spriteSheetPos := GetSpriteSheetPos(rows, tileRow, tileCol);
    var textureVerticalOffset := row.spriteVerticalOffset * tileHeight;
    DrawCall(Vec2(screenPos.x, screenPos.y - textureVerticalOffset as real * size.y),
             ToReal(spriteSheetPos.pos), ToReal(spriteSheetPos.size), size)
  }

  /** The culling gate: a prepared call is issued, once, exactly when the view
      reports its destination rectangle (source size times scale) visible. */
  function Culled(isRectVisible: (Vec2, Vec2) -> bool, d: DrawCall): (issued: seq<DrawCall>)
    ensures |issued| <= 1
    ensures issued == [d] <==> isRectVisible(d.pos, Mul(d.srcSize, d.scale))
    ensures issued == [] <==> !isRectVisible(d.pos, Mul(d.srcSize, d.scale))
  {
    if isRectVisible(d.pos, Mul(d.srcSize, d.scale)) then [d] else []
  }

  /** The anchor correction moves the sprite only vertically: the draw keeps the
      x of screenPos, uses the resolved rectangle and the given scale, and
      raising the row's offset by one tile raises the sprite by one scaled tile
      height. */
  lemma AnchorCorrection(rows: seq<SpriteSheetRow>, tileHeight: int, screenPos: Vec2,
                         tileRow: int, tileCol: int, size: Vec2)
    requires tileRow < |rows| && Resolvable(rows, tileRow, tileCol)
    ensures var d := SpriteDraw(rows, tileHeight, screenPos, tileRow, tileCol, size);
      var p := GetSpriteSheetPos(rows, tileRow, tileCol);
      && d.pos.x == screenPos.x
      && d.srcPos == ToReal(p.pos) && d.srcSize == ToReal(p.size) && d.scale == size
      && screenPos.y - d.pos.y == rows[tileRow].spriteVerticalOffset as real * (tileHeight as real * size.y)
  {
    var k := rows[tileRow].spriteVerticalOffset;
    assert (k * tileHeight) as real == k as real * tileHeight as real;
  }

  /** On fallback the source rectangle is the null tile's, but the anchor
      correction still uses the requested row's offset: the draw differs from
      drawing (0, 0) by the difference of the two rows' offsets. */
  lemma FallbackKeepsRequestedAnchor(rows: seq<SpriteSheetRow>, tileHeight: int, screenPos: Vec2,
                                     tileRow: int, tileCol: int, size: Vec2)
    requires 0 <= tileRow < |rows| && !InRange(rows, tileRow, tileCol) && InRange(rows, 0, 0)
    ensures var d := SpriteDraw(rows, tileHeight, screenPos, tileRow, tileCol, size);
      var n := SpriteDraw(rows, tileHeight, screenPos, 0, 0, size);
      && d.srcPos == n.srcPos && d.srcSize == n.srcSize && d.scale == n.scale && d.pos.x == n.pos.x
      && d.pos.y - n.pos.y ==
           ((rows[0].spriteVerticalOffset - rows[tileRow].spriteVerticalOffset) * tileHeight) as real * size.y
  {
    var a, b := rows[0].spriteVerticalOffset * tileHeight, rows[tileRow].spriteVerticalOffset * tileHeight;
    assert (rows[0].spriteVerticalOffset - rows[tileRow].spriteVerticalOffset) * tileHeight == a - b;
    assert (a - b) as real * size.y == a as real * size.y - b as real * size.y;
  }

  /** The isometric projection of a world position (the lambda in
      RenderSpriteIsometric). The cells on the diagonal x = y lie on the
      screen's vertical axis, a cell lies right of it exactly when x > y, and
      below the top corner exactly when x + y > 0. */
  function WorldToScreen(tileWidth: int, tileHeight: int, worldPos: Vec2): (r: Vec2)
    ensures worldPos.x == worldPos.y ==> r.x == 0.0
    ensures tileWidth > 0 ==> (r.x > 0.0 <==> worldPos.x > worldPos.y)
    ensures tileHeight > 0 ==> (r.y > 0.0 <==> worldPos.x + worldPos.y > 0.0)
  {
    Vec2((worldPos.x - worldPos.y) * (tileWidth as real * 0.5),
         (worldPos.x + worldPos.y) * (tileHeight as real * 0.5))
  }

  /** The game's inverse projection of a screen position into world units: the
      world position whose coordinate difference spans the screen x in half
      tile widths, and whose coordinate sum spans the screen y in half tile
      heights. */
  function ScreenToWorld(tileWidth: int, tileHeight: int, screenPos: Vec2): (r: Vec2)
    requires tileWidth != 0 && tileHeight != 0
    ensures (r.x - r.y) * tileWidth as real == 2.0 * screenPos.x
    ensures (r.x + r.y) * tileHeight as real == 2.0 * screenPos.y
  {
    var u := screenPos.x / tileWidth as real;
    var v := screenPos.y / tileHeight as real;
    Vec2(u + v, v - u)
  }

  /** The two projections are mutually inverse for nonzero tile sizes. */
  lemma ProjectionRoundTrip(tileWidth: int, tileHeight: int, worldPos: Vec2, screenPos: Vec2)
    requires tileWidth != 0 && tileHeight != 0
    ensures ScreenToWorld(tileWidth, tileHeight, WorldToScreen(tileWidth, tileHeight, worldPos)) == worldPos
    ensures WorldToScreen(tileWidth, tileHeight, ScreenToWorld(tileWidth, tileHeight, screenPos)) == screenPos
  {
    var tw, th := tileWidth as real, tileHeight as real;
    var x, y := worldPos.x, worldPos.y;
    assert (x - y) * (tw * 0.5) / tw == (x - y) * 0.5;
    assert (x + y) * (th * 0.5) / th == (x + y) * 0.5;
    var u, v := screenPos.x / tw, screenPos.y / th;
    assert (u + v - (v - u)) * (tw * 0.5) == u * tw;
    assert (u + v + (v - u)) * (th * 0.5) == v * th;
  }

  /** A sheet of two bands: 3 tiles of 16 by 10 pixels with offset 0, then one
      tile of 8 by 8 pixels with offset 1. */
  function TwoRowSheet(): seq<Pixel>
  {
    seq(18, i =>
      if i == 0 then Pixel(16, 10, 3, 255)
      else if i == 1 then Pixel(0, 0, 0, 255)
      else if i == 10 then Pixel(8, 8, 1, 255)
      else if i == 11 then Pixel(0, 1, 0, 255)
      else Pixel(0, 0, 0, 0))
  }

  /** Decoding that sheet gives two contiguous rows, and resolution picks the
      third tile of row 0 at x = 33, row 1 at y = 10, and falls back to (1, 0)
      for a row past the table. */
  lemma TwoRowSheetResolves()
    ensures SecondPixelsInside(TwoRowSheet())
    ensures Table(TwoRowSheet()) == [SpriteSheetRow(3, 16, 10, 0, 0, 0), SpriteSheetRow(1, 8, 8, 1, 0, 10)]
    ensures GetSpriteSheetPos(Table(TwoRowSheet()), 0, 2).pos == IVec2(33, 0)
    ensures GetSpriteSheetPos(Table(TwoRowSheet()), 1, 0).pos == IVec2(1, 10)
    ensures GetSpriteSheetPos(Table(TwoRowSheet()), 5, 0) == GetSpriteSheetPos(Table(TwoRowSheet()), 0, 0)
    ensures GetSpriteSheetPos(Table(TwoRowSheet()), 0, 0).pos == IVec2(1, 0)
  {
    var column := TwoRowSheet();
    assert WalkFrom(column, 18) == Walk([], None);
    assert WalkFrom(column, 10) == Walk([10], None);
    assert WalkFrom(column, 0) == Walk([0, 10], None);
  }

  /** A row with offset 2 drawn at (100, 100) with tile height 18 and unit scale
      lands at y = 64; cell (3, 5) with 36 by 18 tiles projects to (-36, 72). */
  lemma PlacementExamples(rows: seq<SpriteSheetRow>, tileRow: int, tileCol: int)
    requires tileRow < |rows| && Resolvable(rows, tileRow, tileCol)
    requires rows[tileRow].spriteVerticalOffset == 2
    ensures SpriteDraw(rows, 18, Vec2(100.0, 100.0), tileRow, tileCol, Vec2(1.0, 1.0)).pos == Vec2(100.0, 64.0)
    ensures WorldToScreen(36, 18, Vec2(3.0, 5.0)) == Vec2(-36.0, 72.0)
  {
  }

  /** The renderer object. The sheet image is modelled by its column 0, the
      only part the renderer reads; the table is built once and never changed. */
  class Renderer {
    const tileWidth: int
    const tileHeight: int
    const spriteSheet: seq<Pixel>
    var rowCount: int
    var rows: array?<SpriteSheetRow>

    ghost predicate Valid()
      reads this, rows
    {
      DecodedFrom(spriteSheet, rowCount, rows)
    }

    /** Loads the table with the counting and extraction passes; a zero height
        leaves rows null and rowCount at the number of rows counted before it. */
    constructor (tileWidth: int, tileHeight: int, spriteSheet: seq<Pixel>)
      requires SecondPixelsInside(spriteSheet)
      ensures this.tileWidth == tileWidth && this.tileHeight == tileHeight
      ensures this.spriteSheet == spriteSheet
      ensures Valid()
      ensures rows != null ==> fresh(rows)
    {
      this.tileWidth := tileWidth;
      this.tileHeight := tileHeight;
      this.spriteSheet := spriteSheet;
      var count, table := Decode(spriteSheet);
      rowCount := count;
      rows := table;
    }

    /** Draws tile (tileRow, tileCol) at screenPos with the given scale, unless
        the view reports the destination invisible. The requested row is read
        before resolution, so it must exist. */
    method RenderSprite(tv: View, screenPos: Vec2, tileRow: int, tileCol: int, size: Vec2)
      requires Valid() && rows != null
      requires tileRow < rowCount && Resolvable(rows[..], tileRow, tileCol)
      modifies tv
      ensures tv.trace == old(tv.trace) +
        Culled(tv.isRectVisible, SpriteDraw(rows[..], tileHeight, screenPos, tileRow, tileCol, size))
    {
      var row := rows[tileRow];
      var spriteSheetPos := GetSpriteSheetPos(rows[..], tileRow, tileCol);
      var textureVerticalOffset := row.spriteVerticalOffset * tileHeight;
      var pos := Vec2(screenPos.x, screenPos.y - textureVerticalOffset as real * size.y);
      // Culling: off-screen tiles never reach the draw call
      ghost var d := SpriteDraw(rows[..], tileHeight, screenPos, tileRow, tileCol, size);
      assert d == DrawCall(pos, ToReal(spriteSheetPos.pos), ToReal(spriteSheetPos.size), size);
      if tv.isRectVisible(pos, Mul(ToReal(spriteSheetPos.size), size)) {
        tv.DrawPartialDecal(pos, ToReal(spriteSheetPos.pos), ToReal(spriteSheetPos.size), size);
      }
    }

    /** Draws tile (tileRow, tileCol) on the isometric cell cellPos, displaced by
        screenSpaceOffset pixels, at unit scale. */
    method RenderSpriteIsometric(tv: View, cellPos: IVec2, tileRow: int, tileCol: int, screenSpaceOffset: IVec2)
      requires Valid() && rows != null
      requires tileRow < rowCount && Resolvable(rows[..], tileRow, tileCol)
      modifies tv
      ensures tv.trace == old(tv.trace) +
        Culled(tv.isRectVisible,
               SpriteDraw(rows[..], tileHeight,
                          Add(WorldToScreen(tileWidth, tileHeight, ToReal(cellPos)), ToReal(screenSpaceOffset)),
                          tileRow, tileCol, Vec2(1.0, 1.0)))
    {
      var screenPos := Add(WorldToScreen(tileWidth, tileHeight, ToReal(cellPos)), ToReal(screenSpaceOffset));
      RenderSprite(tv, screenPos, tileRow, tileCol, Vec2(1.0, 1.0));
    }
  }
}
