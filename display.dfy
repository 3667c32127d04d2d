/** The 64x32 monochrome framebuffer and the semantics of the sprite draw
    (DXYN): XOR drawing with toroidal wrap on both axes and a collision flag.

    The draw is specified in closed form, cell by cell: a cell is hit when
    the sprite pixel that would land on it (found by undoing the wrap) is set.
    The lemmas below connect this with the sprite-bit-by-sprite-bit view of
    the interpreter's nested loop. */
module Display {
  import opened Words

  const Width: nat := 64
  const Height: nat := 32
  /** Number of framebuffer cells, `sizeof(gfx)`. */
  const Cells: nat := 2048

  /** The all-clear framebuffer. */
  function Blank(): (g: seq<byte>)
    ensures |g| == Cells
  {
    seq(Cells, _ => 0)
  }

  /** Pixel `col` (0 = leftmost) of a sprite row: `spriteByte & (0x80 >> col) != 0`. */
  predicate SpriteBit(b: byte, col: nat)
    requires col < 8
  {
    (b as bv8) & ((0x80 as bv8) >> col) != 0
  }

  /** The value of the set pixel `col` of a sprite row: `0x80 >> col`. */
  function PixelWeight(col: nat): (w: nat)
    requires col < 8
  {
    [0x80, 0x40, 0x20, 0x10, 0x08, 0x04, 0x02, 0x01][col]
  }

  /** The mask test agrees with reading bit 7 - col of the row as a number. */
  lemma {:induction false} SpriteBitIsPixel(b: byte, col: nat)
    requires col < 8
    ensures SpriteBit(b, col) <==> (b / PixelWeight(col)) % 2 == 1
  {
  }

  /** `gfx[index] ^= 1` on a `uint8_t` cell: bit 0 flips, the others stay. */
  function Toggle(v: byte): (r: byte)
    ensures r / 2 == v / 2 && r % 2 == 1 - v % 2
  {
    if v % 2 == 0 then v + 1 else v - 1
  }

  /** Row-major cell of sprite pixel (row, col) drawn at (x, y), both axes wrapped. */
  function CellIndex(x: byte, y: byte, row: nat, col: nat): (i: nat)
    ensures i < Cells
  {
    (x + col) % Width + Width * ((y + row) % Height)
  }

  /** The sprite column that lands on cell `i` when drawing at column `x`. */
  function ColOf(x: byte, i: nat): (c: nat)
    ensures c < Width
  {
    (i % Width - x) % Width
  }

  /** The sprite row that lands on cell `i` when drawing at row `y`. */
  function RowOf(y: byte, i: nat): (r: nat)
    ensures r < Height
  {
    (i / Width - y) % Height
  }

  /** Undoing the wrap of a pixel gives back its sprite coordinates. */
  lemma {:induction false} CellCoordinates(x: byte, y: byte, row: nat, col: nat)
    requires row < Height && col < Width
    ensures ColOf(x, CellIndex(x, y, row, col)) == col
    ensures RowOf(y, CellIndex(x, y, row, col)) == row
  {
    var cx, cy := (x + col) % Width, (y + row) % Height;
    var i := cx + Width * cy;
    assert i % Width == cx && i / Width == cy;
    var qx := (x + col) / Width;
    assert cx - x == col - Width * qx;
    assert (col - Width * qx) % Width == col;
    var qy := (y + row) / Height;
    assert cy - y == row - Height * qy;
    assert (row - Height * qy) % Height == row;
  }

  /** Every cell is the image of the sprite coordinates found by undoing the wrap. */
  lemma {:induction false} CellFromCoordinates(x: byte, y: byte, i: nat)
    requires i < Cells
    ensures CellIndex(x, y, RowOf(y, i), ColOf(x, i)) == i
  {
    var cx, cy := i % Width, i / Width;
    assert cy < Height;
    var c := (cx - x) % Width;
    var qc := (cx - x) / Width;
    assert x + c == cx + Width * (-qc);
    assert (x + c) % Width == cx;
    var r := (cy - y) % Height;
    var qr := (cy - y) / Height;
    assert y + r == cy + Height * (-qr);
    assert (y + r) % Height == cy;
  }

  /** Cell `i` is hit by the sprite drawn at (x, y). */
  predicate Hit(x: byte, y: byte, sprite: seq<byte>, i: nat)
  {
    var row, col := RowOf(y, i), ColOf(x, i);
    col < 8 && row < |sprite| && SpriteBit(sprite[row], col)
  }

  /** The framebuffer after XOR-drawing `sprite` at (x, y). */
  function Draw(g: seq<byte>, x: byte, y: byte, sprite: seq<byte>): (r: seq<byte>)
    requires |g| == Cells
    ensures |r| == Cells
  {
    seq(Cells, i requires 0 <= i < Cells => if Hit(x, y, sprite, i) then Toggle(g[i]) else g[i])
  }

  /** Some cell hit by the sprite was set before the draw. */
  predicate Collision(g: seq<byte>, x: byte, y: byte, sprite: seq<byte>)
    requires |g| == Cells
  {
    exists i :: 0 <= i < Cells && Hit(x, y, sprite, i) && g[i] == 1
  }

  /** Every set sprite bit at (row, col) toggles the cell it wraps onto. */
  lemma {:induction false} DrawTogglesSpriteBits(g: seq<byte>, x: byte, y: byte, sprite: seq<byte>, row: nat, col: nat)
    requires |g| == Cells && |sprite| <= Height
    requires row < |sprite| && col < 8 && SpriteBit(sprite[row], col)
    ensures Draw(g, x, y, sprite)[CellIndex(x, y, row, col)] == Toggle(g[CellIndex(x, y, row, col)])
  {
    CellCoordinates(x, y, row, col);
  }

  /** A cell that no set sprite bit wraps onto is left as it was. */
  lemma {:induction false} DrawLeavesUnhitCells(g: seq<byte>, x: byte, y: byte, sprite: seq<byte>, i: nat)
    requires |g| == Cells && i < Cells
    requires forall row, col :: 0 <= row < |sprite| && 0 <= col < 8 && SpriteBit(sprite[row], col) ==> CellIndex(x, y, row, col) != i
    ensures Draw(g, x, y, sprite)[i] == g[i]
  {
    if Hit(x, y, sprite, i) {
      CellFromCoordinates(x, y, i);
      assert false;
    }
  }

  /** A cell is hit exactly when some set sprite bit wraps onto it. */
  lemma {:induction false} HitIff(x: byte, y: byte, sprite: seq<byte>, i: nat)
    requires |sprite| <= Height && i < Cells
    ensures Hit(x, y, sprite, i) <==>
      exists row, col :: 0 <= row < |sprite| && 0 <= col < 8 && SpriteBit(sprite[row], col) && CellIndex(x, y, row, col) == i
  {
    if Hit(x, y, sprite, i) {
      CellFromCoordinates(x, y, i);
      var row, col := RowOf(y, i), ColOf(x, i);
      assert SpriteBit(sprite[row], col) && CellIndex(x, y, row, col) == i;
    }
    if exists row, col :: 0 <= row < |sprite| && 0 <= col < 8 && SpriteBit(sprite[row], col) && CellIndex(x, y, row, col) == i {
      var row, col :| 0 <= row < |sprite| && 0 <= col < 8 && SpriteBit(sprite[row], col) && CellIndex(x, y, row, col) == i;
      CellCoordinates(x, y, row, col);
    }
  }

  /** The collision flag is set exactly when some set sprite bit lands on a cell that was 1. */
  lemma {:induction false} CollisionIff(g: seq<byte>, x: byte, y: byte, sprite: seq<byte>)
    requires |g| == Cells && |sprite| <= Height
    ensures Collision(g, x, y, sprite) <==>
      exists row, col :: 0 <= row < |sprite| && 0 <= col < 8 && SpriteBit(sprite[row], col) && g[CellIndex(x, y, row, col)] == 1
  {
    if Collision(g, x, y, sprite) {
      var i :| 0 <= i < Cells && Hit(x, y, sprite, i) && g[i] == 1;
      CellFromCoordinates(x, y, i);
      var row, col := RowOf(y, i), ColOf(x, i);
      assert SpriteBit(sprite[row], col) && g[CellIndex(x, y, row, col)] == 1;
    }
    if exists row, col :: 0 <= row < |sprite| && 0 <= col < 8 && SpriteBit(sprite[row], col) && g[CellIndex(x, y, row, col)] == 1 {
      var row, col :| 0 <= row < |sprite| && 0 <= col < 8 && SpriteBit(sprite[row], col) && g[CellIndex(x, y, row, col)] == 1;
      CellCoordinates(x, y, row, col);
      assert Hit(x, y, sprite, CellIndex(x, y, row, col));
    }
  }

  /** A framebuffer of 0/1 cells stays a framebuffer of 0/1 cells. */
  lemma {:induction false} DrawKeepsBinary(g: seq<byte>, x: byte, y: byte, sprite: seq<byte>)
    requires |g| == Cells && forall i :: 0 <= i < Cells ==> g[i] <= 1
    ensures forall i :: 0 <= i < Cells ==> Draw(g, x, y, sprite)[i] <= 1
    ensures forall i :: 0 <= i < Cells ==> Draw(g, x, y, sprite)[i] == (if Hit(x, y, sprite, i) then 1 - g[i] else g[i])
  {
  }

  /** Drawing the same sprite twice at the same place restores the framebuffer. */
  lemma {:induction false} DrawTwiceRestores(g: seq<byte>, x: byte, y: byte, sprite: seq<byte>)
    requires |g| == Cells
    ensures Draw(Draw(g, x, y, sprite), x, y, sprite) == g
  {
    var once := Draw(g, x, y, sprite);
    var twice := Draw(once, x, y, sprite);
    forall i | 0 <= i < Cells ensures twice[i] == g[i] {
      if Hit(x, y, sprite, i) {
        assert once[i] == Toggle(g[i]);
      }
    }
  }

  /** Drawing onto an all-clear framebuffer never reports a collision. */
  lemma {:induction false} NoCollisionOnBlank(x: byte, y: byte, sprite: seq<byte>)
    ensures !Collision(Blank(), x, y, sprite)
  {
    assert forall i :: 0 <= i < Cells ==> Blank()[i] == 0;
  }

  /** Redrawing a sprite just drawn onto a clear framebuffer collides exactly
      when the sprite has a set pixel, and clears the framebuffer again. */
  lemma {:induction false} RedrawOnBlank(x: byte, y: byte, sprite: seq<byte>)
    requires |sprite| <= Height
    ensures Collision(Draw(Blank(), x, y, sprite), x, y, sprite) <==>
      exists row, col :: 0 <= row < |sprite| && 0 <= col < 8 && SpriteBit(sprite[row], col)
    ensures Draw(Draw(Blank(), x, y, sprite), x, y, sprite) == Blank()
  {
    var once := Draw(Blank(), x, y, sprite);
    CollisionIff(once, x, y, sprite);
    if exists row, col :: 0 <= row < |sprite| && 0 <= col < 8 && SpriteBit(sprite[row], col) {
      var row, col :| 0 <= row < |sprite| && 0 <= col < 8 && SpriteBit(sprite[row], col);
      DrawTogglesSpriteBits(Blank(), x, y, sprite, row, col);
      assert once[CellIndex(x, y, row, col)] == 1;
    }
    DrawTwiceRestores(Blank(), x, y, sprite);
  }

  /** A full-width sprite row drawn at column 60 wraps: its pixels 4..7 land
      on columns 0..3 of the same row. */
  lemma {:induction false} WrapAtRightEdge(y: byte)
    ensures forall col :: 0 <= col < 8 ==>
      Draw(Blank(), 60, y, [0xFF])[CellIndex(60, y, 0, col)] == 1
    ensures forall col :: 4 <= col < 8 ==> CellIndex(60, y, 0, col) == col - 4 + Width * (y % Height)
  {
    forall col | 0 <= col < 8 ensures Draw(Blank(), 60, y, [0xFF])[CellIndex(60, y, 0, col)] == 1 {
      assert SpriteBit(0xFF, col);
      DrawTogglesSpriteBits(Blank(), 60, y, [0xFF], 0, col);
    }
  }

  // ---- The step-by-step view used by the interpreter's nested loop ----

  /** Cell `i` is hit by a sprite pixel that comes before (row, col) in the
      loop's row-major order. */
  predicate Drawn(x: byte, y: byte, sprite: seq<byte>, i: nat, row: nat, col: nat)
  {
    Hit(x, y, sprite, i) && (RowOf(y, i) < row || (RowOf(y, i) == row && ColOf(x, i) < col))
  }

  /** Some cell hit before (row, col) was set in the original framebuffer. */
  predicate CollidedBefore(g: seq<byte>, x: byte, y: byte, sprite: seq<byte>, row: nat, col: nat)
    requires |g| == Cells
  {
    exists i :: 0 <= i < Cells && Drawn(x, y, sprite, i, row, col) && g[i] == 1
  }

  /** Processing pixel (row, col) adds exactly its own cell, if the pixel is
      set, to the cells drawn so far; that cell was not drawn before. */
  lemma {:induction false} DrawStep(x: byte, y: byte, sprite: seq<byte>, row: nat, col: nat, i: nat)
    requires row < |sprite| <= Height && col < 8 && i < Cells
    ensures Drawn(x, y, sprite, i, row, col + 1) <==>
      Drawn(x, y, sprite, i, row, col) || (i == CellIndex(x, y, row, col) && SpriteBit(sprite[row], col))
    ensures i == CellIndex(x, y, row, col) ==> !Drawn(x, y, sprite, i, row, col)
  {
    CellCoordinates(x, y, row, col);
    if RowOf(y, i) == row && ColOf(x, i) == col {
      CellFromCoordinates(x, y, i);
    }
  }

  /** Finishing a row is starting the next one; after the last row every hit cell is drawn. */
  lemma {:induction false} DrawRowDone(x: byte, y: byte, sprite: seq<byte>, row: nat, i: nat)
    ensures Drawn(x, y, sprite, i, row, 8) <==> Drawn(x, y, sprite, i, row + 1, 0)
    ensures Drawn(x, y, sprite, i, |sprite|, 0) <==> Hit(x, y, sprite, i)
  {
  }
  /** The collision seen so far grows by the cell of pixel (row, col) exactly
      when that pixel is set and its cell was 1. */
  lemma {:induction false} CollidedStep(g: seq<byte>, x: byte, y: byte, sprite: seq<byte>, row: nat, col: nat)
    requires |g| == Cells && row < |sprite| <= Height && col < 8
    ensures CollidedBefore(g, x, y, sprite, row, col + 1) <==>
      CollidedBefore(g, x, y, sprite, row, col) || (SpriteBit(sprite[row], col) && g[CellIndex(x, y, row, col)] == 1)
  {
    var c := CellIndex(x, y, row, col);
    DrawStep(x, y, sprite, row, col, c);
    if CollidedBefore(g, x, y, sprite, row, col + 1) {
      var i :| 0 <= i < Cells && Drawn(x, y, sprite, i, row, col + 1) && g[i] == 1;
      DrawStep(x, y, sprite, row, col, i);
    }
    if CollidedBefore(g, x, y, sprite, row, col) {
      var i :| 0 <= i < Cells && Drawn(x, y, sprite, i, row, col) && g[i] == 1;
      DrawStep(x, y, sprite, row, col, i);
    }
  }

  /** Finishing a row is starting the next one, for the collision seen so far;
      after the last row it is the collision of the whole draw. */
  lemma {:induction false} CollidedRowDone(g: seq<byte>, x: byte, y: byte, sprite: seq<byte>, row: nat)
    requires |g| == Cells
    ensures CollidedBefore(g, x, y, sprite, row, 8) <==> CollidedBefore(g, x, y, sprite, row + 1, 0)
    ensures CollidedBefore(g, x, y, sprite, |sprite|, 0) <==> Collision(g, x, y, sprite)
  {
    if CollidedBefore(g, x, y, sprite, row, 8) {
      var i :| 0 <= i < Cells && Drawn(x, y, sprite, i, row, 8) && g[i] == 1;
      DrawRowDone(x, y, sprite, row, i);
    }
    if CollidedBefore(g, x, y, sprite, row + 1, 0) {
      var i :| 0 <= i < Cells && Drawn(x, y, sprite, i, row + 1, 0) && g[i] == 1;
      DrawRowDone(x, y, sprite, row, i);
    }
    if CollidedBefore(g, x, y, sprite, |sprite|, 0) {
      var i :| 0 <= i < Cells && Drawn(x, y, sprite, i, |sprite|, 0) && g[i] == 1;
      DrawRowDone(x, y, sprite, row, i);
    }
    if Collision(g, x, y, sprite) {
      var i :| 0 <= i < Cells && Hit(x, y, sprite, i) && g[i] == 1;
      DrawRowDone(x, y, sprite, row, i);
    }
  }
}
