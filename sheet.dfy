/** The sprite-sheet metadata encoding and its two-pass decoder.

    Column 0 of the sheet image carries the layout. A row band starting at
    image row y is described by two pixels: (0, y) holds the tile width (red),
    the band height (green) and the tile count (blue); (0, y + 1) holds the
    rendering mode (red) and the vertical anchor offset in tile heights (green).
    Bands are stacked from y = 0 downwards without gaps. Only column 0 is read
    by the decoder, so an image is modelled by that column, top to bottom. */
module Sheet {

  datatype Option<T> = None | Some(value: T)

  /** One 8-bit colour channel. */
  newtype byte = x: int | 0 <= x < 256

  /** An RGBA pixel. */
  datatype Pixel = Pixel(r: byte, g: byte, b: byte, a: byte)

  /** One decoded row band, with the fields of the source struct. The rendering
      mode keeps the raw red channel; 0 to 3 name NORMAL, MASK, ALPHA, CUSTOM. */
  datatype SpriteSheetRow = SpriteSheetRow(
    spriteCount: int,
    spriteWidth: int,
    spriteHeight: int,
    spriteVerticalOffset: int,
    spriteRenderingMode: byte,
    rowVerticalOffset: int)

  /** The value-initialised entry a fresh row table starts with. */
  const EmptyRow := SpriteSheetRow(0, 0, 0, 0, 0, 0)

  /** The cursor walk of the counting pass: the positions at which a row was
      counted, and the position of a zero height if the walk met one. */
  datatype Walk = Walk(starts: seq<nat>, zeroAt: Option<nat>)

  /** The walk from cursor y: stop once y reaches the image height, abort on a
      zero green channel, otherwise count a row at y and advance by its height. */
  function WalkFrom(column: seq<Pixel>, y: nat): Walk
    decreases |column| - y
  {
    if y >= |column| then Walk([], None)
    else if column[y].g == 0 then Walk([], Some(y))
    else
      var rest := WalkFrom(column, y + column[y].g as int);
      Walk([y] + rest.starts, rest.zeroAt)
  }

  /** The walk from the top of the image, as both passes perform it. */
  function SheetWalk(column: seq<Pixel>): Walk
  {
    WalkFrom(column, 0)
  }

  /** Every counted row has its second metadata pixel inside the image. The
      source reads (0, y + 1) without a bounds check; sheets whose last band is
      one pixel high are outside this model. */
  predicate SecondPixelsInside(column: seq<Pixel>)
  {
    forall i :: 0 <= i < |SheetWalk(column).starts| ==> SheetWalk(column).starts[i] + 1 < |column|
  }

  /** The row entry built from the metadata pixels of the band starting at y.
      Every field but the band's start is one 8-bit channel. */
  function RowAt(column: seq<Pixel>, y: nat): (e: SpriteSheetRow)
    requires y + 1 < |column|
    ensures e.rowVerticalOffset == y
    ensures 0 <= e.spriteWidth < 256 && 0 <= e.spriteHeight < 256 && 0 <= e.spriteCount < 256
    ensures 0 <= e.spriteVerticalOffset < 256
  {
    var firstPixel := column[y];
    var secondPixel := column[y + 1];
    SpriteSheetRow(firstPixel.b as int, firstPixel.r as int, firstPixel.g as int,
                   secondPixel.g as int, secondPixel.r, y)
  }

  /** The row table of a sheet: one entry per counted row, in order. */
  function Table(column: seq<Pixel>): seq<SpriteSheetRow>
    requires SecondPixelsInside(column)
  {
    var s := SheetWalk(column).starts;
    seq(|s|, i requires 0 <= i < |s| => RowAt(column, s[i]))
  }

  /** The decoder's outcome as the renderer keeps it: the row count reached by
      the counting pass, and a table exactly when no zero height was met. */
  ghost predicate DecodedFrom(column: seq<Pixel>, rowCount: int, rows: array?<SpriteSheetRow>)
    reads rows
  {
    && SecondPixelsInside(column)
    && rowCount == |SheetWalk(column).starts|
    && (rows == null <==> SheetWalk(column).zeroAt.Some?)
    && (rows != null ==> rows[..] == Table(column))
  }

  /** Every counted row lies inside the image, at or below y, and has a
      nonzero height. */
  lemma {:induction false} WalkInBounds(column: seq<Pixel>, y: nat)
    ensures forall i :: 0 <= i < |WalkFrom(column, y).starts| ==>
      y <= WalkFrom(column, y).starts[i] < |column| && column[WalkFrom(column, y).starts[i]].g > 0
    decreases |column| - y
  {
    if y < |column| && column[y].g != 0 {
      WalkInBounds(column, y + column[y].g as int);
    }
  }

  /** The counting walk starts at y and each counted row begins where the
      previous one ends: the counting pass advances its cursor exactly as the
      extraction pass does. */
  lemma {:induction false} WalkSteps(column: seq<Pixel>, y: nat)
    ensures var w := WalkFrom(column, y);
      && (|w.starts| > 0 ==> w.starts[0] == y)
      && forall i :: 0 <= i < |w.starts| - 1 ==>
           w.starts[i] < |column| && w.starts[i + 1] == w.starts[i] + column[w.starts[i]].g as int
    decreases |column| - y
  {
    if y < |column| && column[y].g != 0 {
      var next := y + column[y].g as int;
      WalkSteps(column, next);
      var w, rest := WalkFrom(column, y), WalkFrom(column, next);
      assert w.starts == [y] + rest.starts;
      forall i | 0 <= i < |w.starts| - 1
        ensures w.starts[i] < |column| && w.starts[i + 1] == w.starts[i] + column[w.starts[i]].g as int
      {
        if i > 0 {
          assert w.starts[i] == rest.starts[i - 1] && w.starts[i + 1] == rest.starts[i];
        }
      }
    }
  }

  /** Where the walk stops: at a zero height exactly where the last counted row
      ends (or at y if none was counted), or else at or beyond the image height. */
  lemma {:induction false} WalkEnd(column: seq<Pixel>, y: nat)
    ensures var w := WalkFrom(column, y);
      |w.starts| > 0 ==> w.starts[|w.starts| - 1] < |column|
    ensures var w := WalkFrom(column, y);
      var end := if |w.starts| == 0 then y
                 else w.starts[|w.starts| - 1] + column[w.starts[|w.starts| - 1]].g as int;
      && (w.zeroAt.Some? ==> w.zeroAt.value == end && end < |column| && column[end].g == 0)
      && (w.zeroAt.None? ==> end >= |column|)
    decreases |column| - y
  {
    WalkInBounds(column, y);
    if y < |column| && column[y].g != 0 {
      var next := y + column[y].g as int;
      WalkEnd(column, next);
      var rest := WalkFrom(column, next);
      assert WalkFrom(column, y).starts == [y] + rest.starts;
    }
  }

  /** The counting pass. It returns the number of rows counted and, if it met a
      zero height, the cursor at which it stopped. */
  method CountRows(column: seq<Pixel>) returns (rowCount: nat, zeroAt: Option<nat>)
    ensures rowCount == |SheetWalk(column).starts|
    ensures zeroAt == SheetWalk(column).zeroAt
  {
    rowCount := 0;
    zeroAt := None;
    var yReading: nat := 0;
    while yReading < |column|
      invariant |SheetWalk(column).starts| == rowCount + |WalkFrom(column, yReading).starts|
      invariant SheetWalk(column).zeroAt == WalkFrom(column, yReading).zeroAt
      decreases |column| - yReading
    {
      var firstPixel := column[yReading];
      var rowHeight := firstPixel.g as int;
      if rowHeight == 0 {
        zeroAt := Some(yReading);
        return;
      }
      yReading := yReading + rowHeight;
      rowCount := rowCount + 1;
    }
  }

  /** The extraction pass: walks the column again with its own cursor and fills
      one entry per counted row, in a fresh table of rowCount entries. */
  method ExtractRows(column: seq<Pixel>, rowCount: nat) returns (rows: array<SpriteSheetRow>)
    requires SecondPixelsInside(column)
    requires rowCount == |SheetWalk(column).starts|
    ensures fresh(rows)
    ensures rows[..] == Table(column)
  {
    ghost var s := SheetWalk(column).starts;
    WalkInBounds(column, 0);
    WalkSteps(column, 0);
    rows := new SpriteSheetRow[rowCount](_ => EmptyRow);
    var yReading := 0;
    var row := 0;
    while row < rowCount
      invariant 0 <= row <= rowCount
      invariant row < rowCount ==> yReading == s[row]
      invariant forall i :: 0 <= i < row ==> rows[i] == RowAt(column, s[i])
    {
      var firstPixel := column[yReading];
      var width := firstPixel.r as int;
      var height := firstPixel.g as int;
      var length := firstPixel.b as int;
      var secondPixel := column[yReading + 1];
      var transparencyMode := secondPixel.r;
      var offset := secondPixel.g as int;
      rows[row] := SpriteSheetRow(length, width, height, offset, transparencyMode, yReading);
      yReading := yReading + height;
      row := row + 1;
    }
    assert rows[..] == Table(column);
  }

  /** Both passes of the constructor: the counting pass, an early return that
      leaves no table when a zero height was met, otherwise the extraction pass. */
  method Decode(column: seq<Pixel>) returns (rowCount: nat, rows: array?<SpriteSheetRow>)
    requires SecondPixelsInside(column)
    ensures DecodedFrom(column, rowCount, rows)
    ensures rows != null ==> fresh(rows)
  {
    rows := null;
    var zeroAt;
    rowCount, zeroAt := CountRows(column);
    if zeroAt.Some? {
      return;
    }
    rows := ExtractRows(column, rowCount);
  }

  /** The decoded table has one entry per counted row, and its first row starts
      at the top of the image. */
  lemma TableStartsAtTop(column: seq<Pixel>)
    requires SecondPixelsInside(column)
    ensures |Table(column)| == |SheetWalk(column).starts|
    ensures |Table(column)| > 0 ==> Table(column)[0].rowVerticalOffset == 0
  {
    WalkSteps(column, 0);
    var s := SheetWalk(column).starts;
    if |s| > 0 {
      assert Table(column)[0] == RowAt(column, s[0]);
    }
  }

  /** Each row of the decoded table begins where the previous one ends. */
  lemma TableContiguous(column: seq<Pixel>)
    requires SecondPixelsInside(column)
    ensures var t := Table(column);
      forall i :: 0 <= i < |t| - 1 ==>
        t[i + 1].rowVerticalOffset == t[i].rowVerticalOffset + t[i].spriteHeight
  {
    WalkSteps(column, 0);
    var s := SheetWalk(column).starts;
    var t := Table(column);
    forall i | 0 <= i < |t| - 1
      ensures t[i + 1].rowVerticalOffset == t[i].rowVerticalOffset + t[i].spriteHeight
    {
      assert t[i] == RowAt(column, s[i]) && t[i + 1] == RowAt(column, s[i + 1]);
    }
  }

  /** Every row of the decoded table is at least one pixel high and starts
      inside the image. */
  lemma TableRowsInside(column: seq<Pixel>)
    requires SecondPixelsInside(column)
    ensures var t := Table(column);
      forall i :: 0 <= i < |t| ==> t[i].spriteHeight > 0 && 0 <= t[i].rowVerticalOffset < |column|
  {
    WalkInBounds(column, 0);
    var s := SheetWalk(column).starts;
    var t := Table(column);
    forall i | 0 <= i < |t|
      ensures t[i].spriteHeight > 0 && 0 <= t[i].rowVerticalOffset < |column|
    {
      assert t[i] == RowAt(column, s[i]);
    }
  }

  /** When no zero height was met, the last row of the decoded table reaches
      the bottom of the image, and an empty table means an empty image. */
  lemma TableReachesBottom(column: seq<Pixel>)
    requires SecondPixelsInside(column)
    ensures var t := Table(column);
      && (SheetWalk(column).zeroAt.None? && |t| > 0 ==>
            t[|t| - 1].rowVerticalOffset + t[|t| - 1].spriteHeight >= |column|)
      && (SheetWalk(column).zeroAt.None? && |t| == 0 ==> |column| == 0)
  {
    WalkEnd(column, 0);
    var s := SheetWalk(column).starts;
    var t := Table(column);
    if |t| > 0 {
      assert t[|t| - 1] == RowAt(column, s[|s| - 1]);
    }
  }

  /** Every table entry takes its fields from the two metadata pixels of its
      band: width, height and count from (0, y), mode and vertical offset from
      (0, y + 1), where y is the entry's rowVerticalOffset. */
  lemma TableFields(column: seq<Pixel>, i: nat)
    requires SecondPixelsInside(column)
    requires i < |Table(column)|
    ensures var e := Table(column)[i];
      var y := e.rowVerticalOffset;
      && 0 <= y && y + 1 < |column|
      && e.spriteWidth == column[y].r as int
      && e.spriteHeight == column[y].g as int
      && e.spriteCount == column[y].b as int
      && e.spriteRenderingMode == column[y + 1].r
      && e.spriteVerticalOffset == column[y + 1].g as int
  {
  }

  /** A sheet whose walk meets a zero height yields no table, and the counted
      rows are exactly those before the zero. */
  lemma MalformedSheetHasNoTable(column: seq<Pixel>, rowCount: int, rows: array?<SpriteSheetRow>)
    requires DecodedFrom(column, rowCount, rows)
    requires SheetWalk(column).zeroAt.Some?
    ensures rows == null
    ensures var z := SheetWalk(column).zeroAt.value;
      z < |column| && column[z].g == 0 &&
      forall i :: 0 <= i < rowCount ==> SheetWalk(column).starts[i] < z
  {
    WalkInBounds(column, 0);
    WalkSteps(column, 0);
    WalkEnd(column, 0);
    var s := SheetWalk(column).starts;
    var z := SheetWalk(column).zeroAt.value;
    if rowCount > 0 {
      StartsIncrease(column, rowCount - 1);
    }
  }

  /** Counted rows are strictly increasing, so each lies before the end of the last row. */
  lemma {:induction false} StartsIncrease(column: seq<Pixel>, k: nat)
    requires k < |SheetWalk(column).starts|
    ensures forall i :: 0 <= i <= k ==>
      SheetWalk(column).starts[i] <= SheetWalk(column).starts[k]
  {
    if k > 0 {
      StartsIncrease(column, k - 1);
      WalkSteps(column, 0);
    }
  }
}
