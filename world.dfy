/** The world-editing rules of the game: raising and lowering terrain, painting
    ground types and planting overlays on the cell under the mouse, and cycling
    the two brushes. Mouse buttons and keys are passed in as booleans. */
module World {
  import opened Host

  /** One world cell: ground type (0 water, 1 and 2 land, 3 stone), overlay
      type (0 none) and terrain height. */
  datatype Tile = Tile(ground: int, overlay: int, height: int)

  /** Water and stone carry no plants. */
  predicate Bare(ground: int)
  {
    ground == 0 || ground == 3
  }

  /** A tile that keeps the no-plants-on-water-or-stone rule. */
  predicate Tidy(t: Tile)
  {
    Bare(t.ground) ==> t.overlay == 0
  }

  /** The bounds check every edit performs before touching a cell. */
  predicate InWorld(worldSize: IVec2, cell: IVec2)
  {
    0 <= cell.x < worldSize.x && 0 <= cell.y < worldSize.y
  }

  /** The row-major index of a cell in the flat tile array; a cell inside the
      world lands inside the array. */
  function CellIndex(worldSize: IVec2, cell: IVec2): (i: int)
    ensures InWorld(worldSize, cell) ==> 0 <= i < worldSize.x * worldSize.y
  {
    if InWorld(worldSize, cell) then
      MulBelow(cell.y, worldSize.y, worldSize.x);
      cell.y * worldSize.x + cell.x
    else
      cell.y * worldSize.x + cell.x
  }

  /** The cell is recovered from its index, so distinct cells of the world use
      distinct slots of the flat array. */
  lemma CellIndexInverse(worldSize: IVec2, cell: IVec2)
    requires InWorld(worldSize, cell)
    ensures CellIndex(worldSize, cell) / worldSize.x == cell.y
    ensures CellIndex(worldSize, cell) % worldSize.x == cell.x
  {
    DivModUnique(CellIndex(worldSize, cell), worldSize.x, cell.y, cell.x);
  }

  /** A row start of a row inside the grid leaves room for a whole row. */
  lemma MulBelow(y: int, h: int, w: int)
    requires 0 <= y < h && 0 < w
    ensures 0 <= y * w && y * w + w <= h * w
  {
    var k := h - (y + 1);
    assert h * w == y * w + w + k * w;
    assert 0 <= k * w;
  }

  /** Euclidean division is determined by quotient and remainder. */
  lemma DivModUnique(i: int, w: int, q: int, r: int)
    requires 0 < w && 0 <= r < w && i == q * w + r
    ensures i / w == q && i % w == r
  {
    var q', r' := i / w, i % w;
    assert i == q' * w + r' && 0 <= r' < w;
    if q' > q {
      GapAtLeast(q', q, w);
      assert false;
    } else if q' < q {
      GapAtLeast(q, q', w);
      assert false;
    }
  }

  /** Distinct multiples of w are at least w apart. */
  lemma GapAtLeast(a: int, b: int, w: int)
    requires b < a && 0 < w
    ensures a * w >= b * w + w
  {
    assert a * w == (a - b - 1) * w + b * w + w;
    assert (a - b - 1) * w >= 0;
  }

  /** The left-button paint rule: the cell takes the brush's ground type, and
      loses its overlay when that ground is water or stone. */
  function Paint(t: Tile, ground: int): (r: Tile)
    ensures Tidy(r)
    ensures r.ground == ground && r.height == t.height
    ensures !Bare(ground) ==> r.overlay == t.overlay
  {
    var painted := t.(ground := ground);
    if painted.ground == 3 || painted.ground == 0 then painted.(overlay := 0) else painted
  }

  /** The right-button plant rule: the cell takes the brush's overlay unless its
      ground is water or stone, where it is left as it was. */
  function Plant(t: Tile, overlay: int): (r: Tile)
    ensures Tidy(t) ==> Tidy(r)
    ensures r.ground == t.ground && r.height == t.height
    ensures r.overlay == if Bare(t.ground) then t.overlay else overlay
  {
    if t.ground != 3 && t.ground != 0 then t.(overlay := overlay) else t
  }

  /** Advancing a brush: the next value modulo the brush's size, wrapping to 0. */
  function Cycle(value: int, modulus: int): (r: int)
    requires 0 <= value && 0 < modulus
    ensures 0 <= r < modulus
    ensures value < modulus - 1 ==> r == value + 1
    ensures value == modulus - 1 ==> r == 0
  {
    (value + 1) % modulus
  }

  /** The game's world state: the flat tile array and the two brushes. */
  class Game {
    const vWorldSize: IVec2
    var pWorldTiles: array<Tile>
    var currentTile: int
    var currentOverlay: int

    ghost predicate Valid()
      reads this
    {
      && 0 <= vWorldSize.x && 0 <= vWorldSize.y
      && pWorldTiles.Length == vWorldSize.x * vWorldSize.y
      && 0 <= currentTile < 4
      && 0 <= currentOverlay < 3
    }

    /** No water or stone cell carries an overlay. */
    ghost predicate AllTidy()
      reads this, pWorldTiles
    {
      forall i :: 0 <= i < pWorldTiles.Length ==> Tidy(pWorldTiles[i])
    }

    /** Installs a generated world (generation itself is random and not
        modelled) with both brushes at 0. */
    constructor (vWorldSize: IVec2, tiles: seq<Tile>)
      requires 0 <= vWorldSize.x && 0 <= vWorldSize.y
      requires |tiles| == vWorldSize.x * vWorldSize.y
      ensures Valid() && fresh(pWorldTiles)
      ensures this.vWorldSize == vWorldSize && pWorldTiles[..] == tiles
      ensures currentTile == 0 && currentOverlay == 0
    {
      this.vWorldSize := vWorldSize;
      pWorldTiles := new Tile[|tiles|](i requires 0 <= i < |tiles| => tiles[i]);
      currentTile := 0;
      currentOverlay := 0;
    }

    /** A left click raises the selected cell by one, a right click lowers it;
        a cell outside the world is ignored. */
    method HandleTerraingHeightEdit(vSelectedCell: IVec2, leftPressed: bool, rightPressed: bool)
      requires Valid()
      modifies pWorldTiles
      ensures Valid()
      ensures var delta := (if leftPressed then 1 else 0) - (if rightPressed then 1 else 0);
        if InWorld(vWorldSize, vSelectedCell) then
          var i := CellIndex(vWorldSize, vSelectedCell);
          pWorldTiles[..] == old(pWorldTiles[..])[i := old(pWorldTiles[i]).(height := old(pWorldTiles[i]).height + delta)]
        else
          pWorldTiles[..] == old(pWorldTiles[..])
      ensures old(AllTidy()) ==> AllTidy()
    {
      if leftPressed {
        if vSelectedCell.x >= 0 && vSelectedCell.x < vWorldSize.x && vSelectedCell.y >= 0 && vSelectedCell.y < vWorldSize.y {
          var i := CellIndex(vWorldSize, vSelectedCell);
          pWorldTiles[i] := pWorldTiles[i].(height := pWorldTiles[i].height + 1);
        }
      }
      if rightPressed {
        if vSelectedCell.x >= 0 && vSelectedCell.x < vWorldSize.x && vSelectedCell.y >= 0 && vSelectedCell.y < vWorldSize.y {
          var i := CellIndex(vWorldSize, vSelectedCell);
          pWorldTiles[i] := pWorldTiles[i].(height := pWorldTiles[i].height - 1);
        }
      }
    }

    /** While the left button is held the selected cell is painted with the
        ground brush, while the right button is held it is planted with the
        overlay brush (left first); Q and E advance the two brushes. */
    method HandleTileTypeAndOverlayEdit(vSelectedCell: IVec2, leftHeld: bool, rightHeld: bool,
                                        qPressed: bool, ePressed: bool)
      requires Valid()
      modifies pWorldTiles, this`currentTile, this`currentOverlay
      ensures Valid()
      ensures if InWorld(vWorldSize, vSelectedCell) then
          var i := CellIndex(vWorldSize, vSelectedCell);
          var painted := if leftHeld then Paint(old(pWorldTiles[i]), old(currentTile)) else old(pWorldTiles[i]);
          var planted := if rightHeld then Plant(painted, old(currentOverlay)) else painted;
          pWorldTiles[..] == old(pWorldTiles[..])[i := planted]
        else
          pWorldTiles[..] == old(pWorldTiles[..])
      ensures currentTile == if qPressed then Cycle(old(currentTile), 4) else old(currentTile)
      ensures currentOverlay == if ePressed then Cycle(old(currentOverlay), 3) else old(currentOverlay)
      ensures old(AllTidy()) ==> AllTidy()
    {
      if leftHeld {
        if vSelectedCell.x >= 0 && vSelectedCell.x < vWorldSize.x && vSelectedCell.y >= 0 && vSelectedCell.y < vWorldSize.y {
          var i := CellIndex(vWorldSize, vSelectedCell);
          pWorldTiles[i] := pWorldTiles[i].(ground := currentTile);
          if pWorldTiles[i].ground == 3 || pWorldTiles[i].ground == 0 {
            pWorldTiles[i] := pWorldTiles[i].(overlay := 0); // no plants on water and stone
          }
        }
      }
      if rightHeld {
        if vSelectedCell.x >= 0 && vSelectedCell.x < vWorldSize.x && vSelectedCell.y >= 0 && vSelectedCell.y < vWorldSize.y {
          var i := CellIndex(vWorldSize, vSelectedCell);
          if pWorldTiles[i].ground != 3 && pWorldTiles[i].ground != 0 {
            pWorldTiles[i] := pWorldTiles[i].(overlay := currentOverlay);
          }
        }
      }
      if qPressed {
        currentTile := (currentTile + 1) % 4; // increment, then wrap in place
      }
      if ePressed {
        currentOverlay := (currentOverlay + 1) % 3;
      }
    }
  }
}
