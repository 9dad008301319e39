# Sprite-sheet renderer of an isometric tile editor

This project models the sprite-sheet layer of a small isometric tile-map
editor, and the editor's cell-editing rules, and proves properties of the model.

The sheet is one RGBA image. Column 0 carries the layout. A row band starting
at image row `y` is described by two pixels:

- `(0, y)`: red is the tile width, green the band height, blue the tile count.
- `(0, y + 1)`: red is the rendering mode, green the vertical anchor offset in
  tile heights.

The renderer's constructor decodes this column in two passes. The counting pass
walks down from `y = 0` by each band's height, and aborts when a height is 0.
The extraction pass walks again and fills the row table. Rendering then does
three things:

- It resolves a tile address `(row, col)` to a source rectangle. An address out
  of range falls back to the null tile `(0, 0)`.
- It raises the destination by the row's anchor offset.
- It culls against the view before issuing one partial-decal draw.

An isometric helper projects a grid cell to the screen first.

The repository has two versions of the renderer:

- the live class at the top of `main.cpp`;
- an older split class in `Renderer.cpp`, with integer placement, no scale, no
  culling, and a fallback that recurses into the draw itself.

Both decode the sheet with the same code, so one decoder (`Sheet.Decode`) serves
both constructors. Lemmas compare the two draw paths.

Modules:

- `Sheet` (sheet.dfy): the pixel column, the counting walk `WalkFrom` as a
  specification function, `CountRows`, `ExtractRows` over a fresh
  `array<SpriteSheetRow>`, `Decode`, and lemmas about the table.
- `Host` (host.dfy): vectors (floats as reals) and a `View` class. Its
  visibility test is a function supplied from outside. Its `DrawPartialDecal`
  appends the call to a trace.
- `Renderer` (renderer.dfy): `GetSpriteSheetPos` as a function of the
  immutable row table, the draw placement, the culling gate, the isometric
  projection with its inverse, and the `Renderer` class with its constructor,
  `RenderSprite` and `RenderSpriteIsometric`.
- `LegacyRenderer` (legacy_renderer.dfy): the `Renderer.cpp` class and its
  recursive `RenderSprite`.
- `World` (world.dfy): the `Game` class with the flat tile array, the two
  brushes and the two edit handlers. Mouse and key state are passed in as
  booleans.

Details of the code that the model keeps:

- The blue channel of `(0, y)` is stored as `spriteCount` (main.cpp:76, 84).
  The column range check uses it (main.cpp:95).
- Only `GetSpriteSheetPos` and the legacy renderer accept a row past the table.
  The live `RenderSprite` reads `rows[tileRow]` before resolving (main.cpp:131,
  135), so its model requires the requested row to exist.
- On fallback, the live `RenderSprite` still applies the requested row's
  vertical offset to the null tile (main.cpp:131-136,
  `FallbackKeepsRequestedAnchor`). The legacy one uses the null row's own
  offset, because it recurses into the whole draw (Renderer.cpp:57-59,
  `LegacyFallbackDrawsNullTile`). `LiveMatchesLegacy` states exactly when the
  two draws agree.
- `GetSpriteSheetPos` takes the row reference before its bounds check
  (main.cpp:93), and that check only guards the top of the table (main.cpp:95).
  So a negative row is excluded by precondition (`Resolvable`).
- A negative column passes the same check (`NegativeColumnNotRejected`).
- The fallback recursion (main.cpp:96) ends only when `(0, 0)` is itself in
  range. This is also a precondition, and the decreases clause shows the
  recursion depth is at most one.

## Model

| member | source | states |
|---|---|---|
| `Sheet.CountRows` | main.cpp:50-63 | the counting loop returns the number of rows the walk counts before the cursor reaches the image height, and the cursor of the zero height that aborts it, if any |
| `Sheet.WalkInBounds` | main.cpp:53-63 | every counted row starts inside the image, at or below the walk's start, and has a nonzero green height |
| `Sheet.WalkSteps` | main.cpp:53-88 | the counting walk starts at the cursor it is given, and each counted row begins where the previous one ends; this is the cursor arithmetic the extraction loop repeats |
| `Sheet.WalkEnd` | main.cpp:53-63 | the walk stops either at a zero height located exactly where the last counted row ends, or with the cursor at or past the image height |
| `Sheet.ExtractRows` | main.cpp:65-88 | the second loop, with its own cursor and the first pass's row count, fills a fresh table equal to the entries built at the counting pass's cursor positions |
| `Sheet.Decode` | main.cpp:42-90 | both passes together: no table exactly when a zero height was met, otherwise the full table; the row count is the counting pass's result in both cases |
| `Sheet.TableStartsAtTop` | main.cpp:65-69 | the table has one entry per row the counting pass counted, and its first row starts at offset 0 |
| `Sheet.TableContiguous` | main.cpp:69-88 | each row's offset is the previous row's offset plus the previous row's height |
| `Sheet.TableRowsInside` | main.cpp:53-63 | every row of the table is at least one pixel high and starts inside the image |
| `Sheet.TableReachesBottom` | main.cpp:53-63 | without a zero height the last row reaches the image bottom, and an empty table means an empty image |
| `Sheet.RowAt` | main.cpp:73-84 | an entry records the start of its band, and each of its other fields is one 8-bit channel of the band's two metadata pixels, so it lies in 0..255 |
| `Sheet.TableFields` | main.cpp:73-85 | each entry takes width, height and count from the red, green and blue of `(0, y)`, and mode and vertical offset from the red and green of `(0, y + 1)`, where `y` is its rowVerticalOffset |
| `Sheet.MalformedSheetHasNoTable` | main.cpp:43-61 | a sheet with a zero height keeps a null table; the zero lies inside the image, after every counted row |
| `Renderer.GetSpriteSheetPos` | main.cpp:92-108 | an in-range address gives position `(col * width + 1, rowVerticalOffset)` and size `(width, height)` of its row; any other address gives the null tile's rectangle `(1, rowVerticalOffset of row 0)`; the recursion is at most one call deep |
| `Renderer.ResolvesToBand` | main.cpp:99-107 | on a decoded sheet the rectangle lies in the band of the resolved row: it starts at that row's counting-pass cursor, its size is what the band's first metadata pixel encodes, it ends where the next band starts, and its column is below the band's tile count |
| `Renderer.TilesAdjacent` | main.cpp:100 | the tiles of a row are packed left to right: the next column starts where this one ends, on the same band, with the same size |
| `Renderer.NegativeColumnNotRejected` | main.cpp:95 | a negative column passes the range check, and its rectangle starts in the metadata column or left of the image |
| `Renderer.Culled` | main.cpp:140-147 | a prepared draw is issued exactly once if the view reports the destination rectangle (source size times scale) visible, and not at all otherwise |
| `Renderer.SpriteDraw` | main.cpp:131-136 | the prepared draw uses the rectangle `GetSpriteSheetPos` resolves, keeps the requested x and uses the given scale |
| `Renderer.AnchorCorrection` | main.cpp:131-136 | the draw keeps the x of the requested position; it uses the resolved rectangle and the given scale; it lies above the requested y by the requested row's offset times tile height times vertical scale |
| `Renderer.FallbackKeepsRequestedAnchor` | main.cpp:131-136 | on fallback the draw has the null tile's source rectangle, but its y differs from drawing `(0, 0)` by the difference of the two rows' offsets times tile height and scale |
| `Renderer.WorldToScreen` | main.cpp:112-123 | the isometric projection maps the diagonal x = y onto the screen's vertical axis; for positive tile sizes a cell lies right of that axis exactly when x > y, and below the origin exactly when x + y > 0 |
| `Renderer.ScreenToWorld` | main.cpp:247-253 | the inverse projection returns the world position whose coordinate difference times the tile width is twice the screen x, and whose coordinate sum times the tile height is twice the screen y |
| `Renderer.ProjectionRoundTrip` | main.cpp:112-123 | for nonzero tile sizes, the isometric projection `((x - y) * tw / 2, (x + y) * th / 2)` and the game's inverse projection (main.cpp:247-253) undo each other |
| `Renderer.TwoRowSheetResolves` | main.cpp:92-108 | the two-band example sheet decodes to two contiguous rows; tile (0, 2) is at x = 33, row 1 at y = 10, and row 5 falls back to the null tile at (1, 0) |
| `Renderer.PlacementExamples` | main.cpp:112-136 | offset 2 with tile height 18 at (100, 100) and unit scale lands at y = 64; cell (3, 5) with 36 by 18 tiles projects to (-36, 72) |
| `Renderer.Renderer.constructor` | main.cpp:42-90 | the renderer keeps the tile sizes and the sheet, and holds the decoded row count and table (null after a zero height) |
| `Renderer.Renderer.RenderSprite` | main.cpp:130-148 | the view's trace grows by the culled draw: the resolved rectangle, placed with the requested row's anchor correction, at the given scale |
| `Renderer.Renderer.RenderSpriteIsometric` | main.cpp:110-128 | draws as RenderSprite at the projected cell plus the pixel offset, at unit scale |
| `LegacyRenderer.LegacyDraw` | Renderer.cpp:52-85 | the legacy draw uses the rectangle main.cpp's GetSpriteSheetPos resolves, at `(x, y - offset * tileHeight)` of the row it resolves to, at unit scale |
| `LegacyRenderer.LiveMatchesLegacy` | Renderer.cpp:55-82 | for an integer position at unit scale, the live and legacy draws are equal exactly when the address is in range or the requested and null rows have the same vertical correction |
| `LegacyRenderer.LegacyFallbackDrawsNullTile` | Renderer.cpp:55-60 | an out-of-range address draws exactly what `(0, 0)` draws |
| `LegacyRenderer.Renderer.constructor` | Renderer.cpp:3-51 | the legacy constructor decodes the sheet as the live one does |
| `LegacyRenderer.Renderer.RenderSprite` | Renderer.cpp:52-85 | always appends exactly one draw, the legacy draw of the address; an out-of-range address recurses once into `(0, 0)` |
| `World.CellIndex` | main.cpp:383-384 | a cell inside the world indexes inside the flat tile array |
| `World.CellIndexInverse` | main.cpp:384 | the cell is recovered from its index by division and remainder by the world width, so distinct cells touch distinct slots |
| `World.Paint` | main.cpp:398-405 | painting sets the ground and keeps the height; the painted tile never carries an overlay on water or stone; on other ground the overlay is kept |
| `World.Plant` | main.cpp:407-413 | planting keeps ground and height and sets the overlay unless the ground is water or stone; it keeps a tidy tile tidy |
| `World.Cycle` | main.cpp:416-423 | advancing a brush stays in `0 .. modulus - 1`, steps by one, and wraps from the last value to 0 |
| `World.Game.constructor` | main.cpp:182-194 | the game holds the given world of width times height tiles, with both brushes at 0 |
| `World.Game.HandleTerraingHeightEdit` | main.cpp:381-395 | only the selected cell's height changes, by +1 for a left click and -1 for a right click, and only when the cell is inside the world; the no-overlay rule is preserved |
| `World.Game.HandleTileTypeAndOverlayEdit` | main.cpp:397-424 | only the selected cell changes, by the paint rule and then the plant rule, and only inside the world; Q and E cycle the brushes within 0..3 and 0..2; the no-overlay rule is preserved |

## Left out

- Image loading, decals and the transformed view (pan, zoom, `IsRectVisible`, `DrawPartialDecal`) belong to the host engine. The model has a `View` whose visibility test is an arbitrary function and whose draw call appends to a trace.
- Only column 0 of the sheet is modelled, because it is the only part the decoder reads. Tile pixels and the decal itself are not modelled.
- The diagnostic `printf` output of the decoder is left out, because it is output only. The model returns the cursor of a zero height instead.
- Floats are modelled as exact reals, so rounding in the projection and scaling is not modelled.
- C++ `int` overflow is not modelled: the cursor, `tileCol * spriteWidth`, and a cell index or height pushed past 32 bits. Integers are unbounded.
- `SecondPixelsInside`: the source reads pixel `(0, y + 1)` without a bounds check. So a sheet whose last counted band is one pixel high is excluded by precondition instead of modelling the host's out-of-image read.
- The rendering mode is kept as the raw red channel. The host's blend modes are not modelled.
- `Renderer.cpp` leaves its table pointer uninitialised after a zero height. The model uses null there, as `main.cpp` does.
- The unused engine parameter of the legacy `RenderSprite` is dropped.
- Mouse picking is left out, because it needs float truncation: `WorldToCell`, the mouse-to-cell chain in `OnUserUpdate`, and `HandleMultiplicativeZoom`. Only the linear inverse projection is modelled, as the partner of the isometric projection.
- World generation is left out, because it uses `rand` and `sqrtf`. The game constructor takes the generated tiles as a parameter.
- `RenderIsometricWorld` is left out, because it is a loop of `RenderSpriteIsometric` calls and its special branch is dead (`&& false`). The inventory UI, the debug text, the empty `RenderTileUpRight` and the empty map-mode loop are left out too.
- `Renderer.h` holds declarations only.
- Heap ownership and the leaked allocations are not modelled.
