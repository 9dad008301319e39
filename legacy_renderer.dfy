/** The older, split renderer of Renderer.cpp. It decodes the sheet the same way
    but draws with integer placement, no scale and no culling, and its null-tile
    fallback recurses into the drawing itself. */
module LegacyRenderer {
  import opened Sheet
  import opened Host
  // Aliased: this module declares a class of the same name as the live module.
  import opened Live = Renderer

  /** The one partial-decal call a legacy RenderSprite issues. An address out of
      range draws exactly what (0, 0) draws. */
  function LegacyDraw(rows: seq<SpriteSheetRow>, tileHeight: int, x: int, y: int,
                      tileRow: int, tileCol: int): (d: DrawCall)
    requires Resolvable(rows, tileRow, tileCol)
    ensures var r := if InRange(rows, tileRow, tileCol) then tileRow else 0;
      var p := GetSpriteSheetPos(rows, tileRow, tileCol);
      && d.pos == Vec2(x as real, (y - rows[r].spriteVerticalOffset * tileHeight) as real)
      && d.srcPos == ToReal(p.pos) && d.srcSize == ToReal(p.size)
      && d.scale == Vec2(1.0, 1.0)
    decreases if InRange(rows, tileRow, tileCol) then 0 else 1
  {
    if tileRow >= |rows| || tileCol >= rows[tileRow].spriteCount then
      LegacyDraw(rows, tileHeight, x, y, 0, 0) // the "null" tile
    else
      var row := rows[tileRow];
      var textureY := row.rowVerticalOffset;
      var textureX := tileCol * row.spriteWidth + 1; // column 0 holds the metadata
      var textureVerticalOffset := row.spriteVerticalOffset * tileHeight;
      DrawCall(Vec2(x as real, (y - textureVerticalOffset) as real),
               Vec2(textureX as real, textureY as real),
               Vec2(row.spriteWidth as real, row.spriteHeight as real),
               Vec2(1.0, 1.0))
  }

  /** Where both renderers accept the address (the live one needs the requested
      row to exist), they issue the same call for an integer position at unit
      scale exactly when the address is in range or the requested row and the
      null row have the same vertical correction. */
  lemma LiveMatchesLegacy(rows: seq<SpriteSheetRow>, tileHeight: int, x: int, y: int,
                          tileRow: int, tileCol: int)
    requires tileRow < |rows| && Resolvable(rows, tileRow, tileCol)
    ensures SpriteDraw(rows, tileHeight, Vec2(x as real, y as real), tileRow, tileCol, Vec2(1.0, 1.0))
              == LegacyDraw(rows, tileHeight, x, y, tileRow, tileCol)
            <==> (InRange(rows, tileRow, tileCol) ||
                  rows[tileRow].spriteVerticalOffset * tileHeight == rows[0].spriteVerticalOffset * tileHeight)
  {
    var live := SpriteDraw(rows, tileHeight, Vec2(x as real, y as real), tileRow, tileCol, Vec2(1.0, 1.0));
    var legacy := LegacyDraw(rows, tileHeight, x, y, tileRow, tileCol);
    var a := rows[tileRow].spriteVerticalOffset * tileHeight;
    var b := rows[if InRange(rows, tileRow, tileCol) then tileRow else 0].spriteVerticalOffset * tileHeight;
    assert live.pos.y == y as real - a as real;
    assert legacy.pos.y == y as real - b as real;
  }

  /** An address out of range draws exactly what (0, 0) draws, the null row's
      own vertical offset included. */
  lemma LegacyFallbackDrawsNullTile(rows: seq<SpriteSheetRow>, tileHeight: int, x: int, y: int,
                                    tileRow: int, tileCol: int)
    requires Resolvable(rows, tileRow, tileCol) && !InRange(rows, tileRow, tileCol)
    ensures LegacyDraw(rows, tileHeight, x, y, tileRow, tileCol) == LegacyDraw(rows, tileHeight, x, y, 0, 0)
  {
  }

  /** The legacy renderer object; it is decoded exactly as the live one. */
  class Renderer {
    const tileWidth: int
    const tileHeight: int
    const spriteSheet: seq<Pixel>
    var rowCount: int
    var rows: array?<SpriteSheetRow>

    ghost predicate Valid()
      reads this, rows
    {
      DecodedFrom(spriteSheet, rowCount, rows)
    }

    constructor (tileWidth: int, tileHeight: int, spriteSheet: seq<Pixel>)
      requires SecondPixelsInside(spriteSheet)
      ensures this.tileWidth == tileWidth && this.tileHeight == tileHeight
      ensures this.spriteSheet == spriteSheet
      ensures Valid()
      ensures rows != null ==> fresh(rows)
    {
      this.tileWidth := tileWidth;
      this.tileHeight := tileHeight;
      this.spriteSheet := spriteSheet;
      var count, table := Decode(spriteSheet);
      rowCount := count;
      rows := table;
    }

    /** Draws tile (tileRow, tileCol) at (x, y), always; an address out of range
        draws the null tile by calling itself once with (0, 0). */
    method RenderSprite(tv: View, x: int, y: int, tileRow: int, tileCol: int)
      requires Valid() && rows != null
      requires Resolvable(rows[..], tileRow, tileCol)
      modifies tv
      ensures tv.trace == old(tv.trace) + [LegacyDraw(rows[..], tileHeight, x, y, tileRow, tileCol)]
      decreases if InRange(rows[..], tileRow, tileCol) then 0 else 1
    {
      if tileRow >= rowCount || tileCol >= rows[tileRow].spriteCount {
        RenderSprite(tv, x, y, 0, 0); // the "null" tile
        return;
      }
      var row := rows[tileRow];
      var textureY := row.rowVerticalOffset;
      var textureX := tileCol * row.spriteWidth + 1; // column 0 holds the metadata
      var textureWidth := row.spriteWidth;
      var textureHeight := row.spriteHeight;
      var textureVerticalOffset := row.spriteVerticalOffset * tileHeight;
      var screenPos := Vec2(x as real, (y - textureVerticalOffset) as real);
      tv.DrawPartialDecal(screenPos, Vec2(textureX as real, textureY as real),
                          Vec2(textureWidth as real, textureHeight as real), Vec2(1.0, 1.0));
    }
  }
}
