/**
 The display buffer and the sprite blit of the draw instruction.

 The buffer is indexed `[x][y]`, as the engine's `bool[Width, Height]` is.
 The blit is a fold over sprite rows and, within a row, over the eight bits
 most significant first. It follows the engine as written: a set bit that
 lands on a lit pixel raises the collision flag and leaves the pixel lit;
 a set bit that lands on a dark pixel toggles it on. No pixel is ever
 turned off, and nothing wraps around an edge.
 */
module Display {
  import opened Base

  type Grid = seq<seq<bool>>

  /** A buffer of exactly Width columns of Height pixels. */
  predicate IsGrid(g: Grid) {
    |g| == Width && forall x | 0 <= x < Width :: |g[x]| == Height
  }

  /** A freshly allocated buffer: every pixel off. */
  function Blank(): (g: Grid)
    ensures IsGrid(g)
    ensures forall x, y | 0 <= x < Width && 0 <= y < Height :: !g[x][y]
  {
    seq(Width, _ => seq(Height, _ => false))
  }

  function SetPixel(g: Grid, x: nat, y: nat, on: bool): (r: Grid)
    requires IsGrid(g) && x < Width && y < Height
    ensures IsGrid(r)
    ensures forall px, py | 0 <= px < Width && 0 <= py < Height ::
      r[px][py] == if px == x && py == y then on else g[px][py]
  {
    g[x := g[x][y := on]]
  }

  /** 2 to the power `k`, for the bit positions of a byte. */
  function BitWeight(k: nat): (w: nat)
    requires k < 8
    ensures w >= 1
  {
    if k == 0 then 1 else 2 * BitWeight(k - 1)
  }

  /** The weights are the eight powers of two, so `SpriteBit(sprite, k)` is
      bit k of the byte, counted from the least significant end. */
  lemma BitWeights(k: nat)
    requires k < 8
    ensures BitWeight(k) == [0x01, 0x02, 0x04, 0x08, 0x10, 0x20, 0x40, 0x80][k]
  {
  }

  /** `((sprite >> bit) & 1) != 0`. */
  predicate SpriteBit(sprite: byte, bit: nat)
    requires bit < 8
  {
    (sprite / BitWeight(bit)) % 2 == 1
  }

  /** (x, y) lies under the sprite `rows` anchored at (x0, y0): eight columns
      wide, one line per row. */
  predicate Covers(rows: seq<byte>, x0: int, y0: int, x: int, y: int) {
    x0 <= x < x0 + 8 && y0 <= y < y0 + |rows|
  }

  /** The sprite bit that lands on (x, y): byte `y - y0`, bit `x - x0` counted
      from the most significant end. */
  predicate SpriteAt(rows: seq<byte>, x0: int, y0: int, x: int, y: int)
    requires Covers(rows, x0, y0, x, y)
  {
    SpriteBit(rows[y - y0], 7 - (x - x0))
  }

  /** Some set sprite bit inside the buffer lands on a lit pixel of `g`. */
  predicate Collides(g: Grid, rows: seq<byte>, x0: int, y0: int)
    requires IsGrid(g)
  {
    exists x, y | 0 <= x < Width && 0 <= y < Height && Covers(rows, x0, y0, x, y) ::
      SpriteAt(rows, x0, y0, x, y) && g[x][y]
  }

  /** Some set sprite bit falls inside the buffer. */
  predicate Visible(rows: seq<byte>, x0: int, y0: int) {
    exists x, y | 0 <= x < Width && 0 <= y < Height && Covers(rows, x0, y0, x, y) ::
      SpriteAt(rows, x0, y0, x, y)
  }

  /** A sprite byte other than zero has a set bit. */
  lemma NonzeroHasSetBit(b: byte)
    requires b != 0
    ensures exists k | 0 <= k < 8 :: SpriteBit(b, k)
  {
    // the most significant set bit
    if b >= 0x80 { assert BitWeight(7) == 0x80 && b / 0x80 == 1 && SpriteBit(b, 7); }
    else if b >= 0x40 { assert BitWeight(6) == 0x40 && b / 0x40 == 1 && SpriteBit(b, 6); }
    else if b >= 0x20 { assert BitWeight(5) == 0x20 && b / 0x20 == 1 && SpriteBit(b, 5); }
    else if b >= 0x10 { assert BitWeight(4) == 0x10 && b / 0x10 == 1 && SpriteBit(b, 4); }
    else if b >= 0x08 { assert BitWeight(3) == 0x08 && b / 0x08 == 1 && SpriteBit(b, 3); }
    else if b >= 0x04 { assert BitWeight(2) == 0x04 && b / 0x04 == 1 && SpriteBit(b, 2); }
    else if b >= 0x02 { assert BitWeight(1) == 0x02 && b / 0x02 == 1 && SpriteBit(b, 1); }
    else { assert BitWeight(0) == 0x01 && b / 0x01 == 1 && SpriteBit(b, 0); }
  }

  /** The buffer and the collision flag as the blit leaves them. */
  datatype Blit = Blit(grid: Grid, collided: bool)

  /** One step of the inner loop: bit `bit` of `sprite` against pixel (x, y).
      A set bit on a lit pixel raises the flag and leaves the pixel lit; a set
      bit on a dark pixel toggles it, which lights it. */
  function PlotBit(g: Grid, sprite: byte, x: nat, y: nat, bit: nat, hit: bool): (r: Blit)
    requires IsGrid(g) && x < Width && y < Height && bit <= 7
    ensures IsGrid(r.grid)
    ensures forall px, py | 0 <= px < Width && 0 <= py < Height ::
      r.grid[px][py] == (g[px][py] || (px == x && py == y && SpriteBit(sprite, bit)))
    ensures r.collided == (hit || (SpriteBit(sprite, bit) && g[x][y]))
  {
    var current := SpriteBit(sprite, bit);
    if current && g[x][y] then Blit(g, true)
    else if current then Blit(SetPixel(g, x, y, !g[x][y]), hit)
    else Blit(g, hit)
  }

  /** The inner loop of the blit: bits `bit` down to 0 of `sprite` go to
      columns `x` onwards of line `y`, stopping at the right edge. */
  function DrawBits(g: Grid, sprite: byte, x: nat, y: nat, bit: int, hit: bool): (r: Blit)
    requires IsGrid(g) && y < Height && -1 <= bit <= 7
    ensures IsGrid(r.grid)
    ensures forall px, py | 0 <= px < Width && 0 <= py < Height ::
      r.grid[px][py] == (g[px][py] || (py == y && x <= px <= x + bit && SpriteBit(sprite, bit - (px - x))))
    ensures r.collided == (hit || exists px | x <= px <= x + bit && px < Width ::
      SpriteBit(sprite, bit - (px - x)) && g[px][y])
    decreases bit + 1
  {
    if bit < 0 || x >= Width then
      Blit(g, hit)
    else
      var step := PlotBit(g, sprite, x, y, bit, hit);
      DrawBits(step.grid, sprite, x + 1, y, bit - 1, step.collided)
  }

  /** The outer loop of the blit: row `k` of `rows` goes to line `y + k`,
      stopping at the bottom edge. */
  function DrawRows(g: Grid, rows: seq<byte>, x: nat, y: nat, hit: bool): (r: Blit)
    requires IsGrid(g)
    ensures IsGrid(r.grid)
    ensures forall px, py | 0 <= px < Width && 0 <= py < Height ::
      r.grid[px][py] == (g[px][py] || (Covers(rows, x, y, px, py) && SpriteAt(rows, x, y, px, py)))
    ensures r.collided == (hit || Collides(g, rows, x, y))
    decreases |rows|
  {
    if |rows| == 0 || y >= Height then
      Blit(g, hit)
    else
      var line := DrawBits(g, rows[0], x, y, 7, hit);
      var r := DrawRows(line.grid, rows[1..], x, y + 1, line.collided);
      RowsPaint(g, line.grid, r.grid, rows, x, y);
      RowsCollide(g, line.grid, rows, x, y);
      r
  }

  /** Painting the first line and then the remaining rows one line lower
      paints the whole sprite. */
  lemma RowsPaint(g: Grid, line: Grid, r: Grid, rows: seq<byte>, x: nat, y: nat)
    requires IsGrid(g) && IsGrid(line) && IsGrid(r) && |rows| > 0 && y < Height
    requires forall px, py | 0 <= px < Width && 0 <= py < Height ::
      line[px][py] == (g[px][py] || (py == y && x <= px <= x + 7 && SpriteBit(rows[0], 7 - (px - x))))
    requires forall px, py | 0 <= px < Width && 0 <= py < Height ::
      r[px][py] == (line[px][py] || (Covers(rows[1..], x, y + 1, px, py) && SpriteAt(rows[1..], x, y + 1, px, py)))
    ensures forall px, py | 0 <= px < Width && 0 <= py < Height ::
      r[px][py] == (g[px][py] || (Covers(rows, x, y, px, py) && SpriteAt(rows, x, y, px, py)))
  {
    forall px, py | 0 <= px < Width && 0 <= py < Height
      ensures r[px][py] == (g[px][py] || (Covers(rows, x, y, px, py) && SpriteAt(rows, x, y, px, py)))
    {
      if py > y && py - y < |rows| {
        assert rows[1..][py - (y + 1)] == rows[py - y];
      }
    }
  }

  /** A collision of the whole sprite is a collision on its first line or
      one of the remaining rows on the buffer the first line leaves, since
      drawing the first line only touches line `y`. */
  lemma RowsCollide(g: Grid, g': Grid, rows: seq<byte>, x: nat, y: nat)
    requires IsGrid(g) && IsGrid(g') && |rows| > 0 && y < Height
    requires forall px, py | 0 <= px < Width && 0 <= py < Height && py != y :: g'[px][py] == g[px][py]
    ensures Collides(g, rows, x, y) <==>
      ((exists px | x <= px <= x + 7 && px < Width :: SpriteBit(rows[0], 7 - (px - x)) && g[px][y])
       || Collides(g', rows[1..], x, y + 1))
  {
    if Collides(g, rows, x, y) {
      var px, py :| 0 <= px < Width && 0 <= py < Height && Covers(rows, x, y, px, py)
        && SpriteAt(rows, x, y, px, py) && g[px][py];
      if py != y {
        assert rows[1..][py - (y + 1)] == rows[py - y];
        assert Covers(rows[1..], x, y + 1, px, py) && SpriteAt(rows[1..], x, y + 1, px, py) && g'[px][py];
      }
    }
    if Collides(g', rows[1..], x, y + 1) {
      var px, py :| 0 <= px < Width && 0 <= py < Height && Covers(rows[1..], x, y + 1, px, py)
        && SpriteAt(rows[1..], x, y + 1, px, py) && g'[px][py];
      assert rows[1..][py - (y + 1)] == rows[py - y];
      assert Covers(rows, x, y, px, py) && SpriteAt(rows, x, y, px, py) && g[px][py];
    }
    if exists px | x <= px <= x + 7 && px < Width :: SpriteBit(rows[0], 7 - (px - x)) && g[px][y] {
      var px :| x <= px <= x + 7 && px < Width && SpriteBit(rows[0], 7 - (px - x)) && g[px][y];
      assert Covers(rows, x, y, px, y) && SpriteAt(rows, x, y, px, y);
    }
  }
}
