/** The flat screen and the packed bitmap read as a grid of marked cells, and what block
    operations on the two do to that grid. */
module CrtView {
  import opened Bytes
  import opened Bitmap
  import opened Blocks
  import opened Screen

  const CELLS: nat := 2000
  const MAP_BYTES: nat := 250

  ghost predicate Sized(s: seq<byte>, b: seq<bv8>) {
    |s| == CELLS && |b| == MAP_BYTES
  }

  ghost function CellAt(s: seq<byte>, b: seq<bv8>, pos: nat): Cell
    requires Sized(s, b) && pos < CELLS
  {
    Cell(s[pos], Mark(b, pos))
  }

  ghost function RowAt(s: seq<byte>, b: seq<bv8>, r: nat): (row: Row)
    requires Sized(s, b) && r < ROWS
    ensures |row| == COLS
  {
    seq(COLS, c requires 0 <= c < COLS => CellAt(s, b, COLS * r + c))
  }

  ghost function Grid(s: seq<byte>, b: seq<bv8>): (g: seq<Row>)
    requires Sized(s, b)
    ensures |g| == ROWS && forall r :: 0 <= r < ROWS ==> |g[r]| == COLS
  {
    seq(ROWS, r requires 0 <= r < ROWS => RowAt(s, b, r))
  }

  /** Two grids are equal when their cells are. */
  lemma GridByRows(s: seq<byte>, b: seq<bv8>, g: seq<Row>)
    requires Sized(s, b) && |g| == ROWS
    requires forall r :: 0 <= r < ROWS ==> RowAt(s, b, r) == g[r]
    ensures Grid(s, b) == g
  {
  }

  lemma MovedAt<T>(a: seq<T>, dst: nat, src: nat, n: nat, i: nat)
    requires dst + n <= |a| && src + n <= |a| && i < |a|
    ensures Moved(a, dst, src, n)[i] == if dst <= i < dst + n then a[i - dst + src] else a[i]
  {
  }

  lemma MovedCell(s: seq<byte>, b: seq<bv8>, dst: nat, src: nat, n: nat, r: nat, c: nat)
    requires Sized(s, b) && dst + n <= ROWS && src + n <= ROWS && r < ROWS && c < COLS
    ensures var s', b' := Moved(s, 80 * dst, 80 * src, 80 * n), Moved(b, 10 * dst, 10 * src, 10 * n);
            var q := if dst <= r < dst + n then r - dst + src else r;
            CellAt(s', b', 80 * r + c) == CellAt(s, b, 80 * q + c)
  {
    hide Moved;
    MovedAt(s, 80 * dst, 80 * src, 80 * n, 80 * r + c);
    MovedAt(b, 10 * dst, 10 * src, 10 * n, 10 * r + c / 8);
    var q := if dst <= r < dst + n then r - dst + src else r;
    assert (80 * r + c) / 8 == 10 * r + c / 8 && (80 * r + c) % 8 == c % 8;
    assert (80 * q + c) / 8 == 10 * q + c / 8 && (80 * q + c) % 8 == c % 8;
  }

  /** Rows that lie in the moved part of both arrays move, the others stay. */
  lemma MovedRow(s: seq<byte>, b: seq<bv8>, dst: nat, src: nat, n: nat, r: nat)
    requires Sized(s, b) && dst + n <= ROWS && src + n <= ROWS && r < ROWS
    ensures var s', b' := Moved(s, 80 * dst, 80 * src, 80 * n), Moved(b, 10 * dst, 10 * src, 10 * n);
            RowAt(s', b', r) == if dst <= r < dst + n then RowAt(s, b, r - dst + src) else RowAt(s, b, r)
  {
    hide Moved, CellAt;
    var s', b' := Moved(s, 80 * dst, 80 * src, 80 * n), Moved(b, 10 * dst, 10 * src, 10 * n);
    var q := if dst <= r < dst + n then r - dst + src else r;
    forall c | 0 <= c < COLS ensures RowAt(s', b', r)[c] == RowAt(s, b, q)[c] {
      MovedCell(s, b, dst, src, n, r, c);
    }
  }

  lemma BlankedRow(s: seq<byte>, b: seq<bv8>, y: nat, r: nat)
    requires Sized(s, b) && y < ROWS && r < ROWS
    ensures var s', b' := Filled(s, 80 * y, 80, SPACE), Filled(b, 10 * y, 10, 0);
            RowAt(s', b', r) == if r == y then BlankRow() else RowAt(s, b, r)
  {
    var s', b' := Filled(s, 80 * y, 80, SPACE), Filled(b, 10 * y, 10, 0);
    forall c | 0 <= c < COLS
      ensures RowAt(s', b', r)[c] == if r == y then BLANK else RowAt(s, b, r)[c]
    {
      assert (80 * r + c) / 8 == 10 * r + c / 8 && (80 * r + c) % 8 == c % 8;
      ZeroHasNone(c % 8);
    }
  }

  /** Moving the rows below `y` up and blanking the last one deletes row `y`. */
  lemma DeleteRow(s: seq<byte>, b: seq<bv8>, y: nat)
    requires Sized(s, b) && y < ROWS
    ensures var n := ROWS - 1 - y;
            var s', b' := Moved(s, 80 * y, 80 * (y + 1), 80 * n), Moved(b, 10 * y, 10 * (y + 1), 10 * n);
            Grid(Filled(s', 1920, 80, SPACE), Filled(b', 240, 10, 0))
            == Grid(s, b)[..y] + Grid(s, b)[y + 1..] + [BlankRow()]
  {
    var n := ROWS - 1 - y;
    var s', b' := Moved(s, 80 * y, 80 * (y + 1), 80 * n), Moved(b, 10 * y, 10 * (y + 1), 10 * n);
    var g := Grid(s, b)[..y] + Grid(s, b)[y + 1..] + [BlankRow()];
    forall r | 0 <= r < ROWS ensures RowAt(Filled(s', 1920, 80, SPACE), Filled(b', 240, 10, 0), r) == g[r] {
      MovedRow(s, b, y, y + 1, n, r);
      BlankedRow(s', b', 24, r);
    }
    GridByRows(Filled(s', 1920, 80, SPACE), Filled(b', 240, 10, 0), g);
  }

  /** Moving the rows from `y` on down and blanking row `y` inserts a row. */
  lemma InsertRow(s: seq<byte>, b: seq<bv8>, y: nat)
    requires Sized(s, b) && y < ROWS
    ensures var n := ROWS - 1 - y;
            var s', b' := Moved(s, 80 * (y + 1), 80 * y, 80 * n), Moved(b, 10 * (y + 1), 10 * y, 10 * n);
            Grid(Filled(s', 80 * y, 80, SPACE), Filled(b', 10 * y, 10, 0))
            == Grid(s, b)[..y] + [BlankRow()] + Grid(s, b)[y..ROWS - 1]
  {
    var n := ROWS - 1 - y;
    var s', b' := Moved(s, 80 * (y + 1), 80 * y, 80 * n), Moved(b, 10 * (y + 1), 10 * y, 10 * n);
    var g := Grid(s, b)[..y] + [BlankRow()] + Grid(s, b)[y..ROWS - 1];
    forall r | 0 <= r < ROWS
      ensures RowAt(Filled(s', 80 * y, 80, SPACE), Filled(b', 10 * y, 10, 0), r) == g[r]
    {
      MovedRow(s, b, y + 1, y, n, r);
      BlankedRow(s', b', y, r);
    }
    GridByRows(Filled(s', 80 * y, 80, SPACE), Filled(b', 10 * y, 10, 0), g);
  }

  /** `b'` is `b` with the marks of positions `from` to `to` cleared. */
  ghost predicate Cleared(b: seq<bv8>, b': seq<bv8>, from: nat, to: nat) {
    |b| == |b'| == MAP_BYTES
    && forall p :: 0 <= p < CELLS ==> Mark(b', p) == (Mark(b, p) && !(from <= p < to))
  }

  /** Filling positions with spaces and clearing their marks blanks exactly those cells. */
  lemma BlankedCells(s: seq<byte>, b: seq<bv8>, b': seq<bv8>, from: nat, n: nat, p: nat)
    requires Sized(s, b) && from + n <= CELLS && Cleared(b, b', from, from + n) && p < CELLS
    ensures CellAt(Filled(s, from, n, SPACE), b', p) == if from <= p < from + n then BLANK else CellAt(s, b, p)
  {
  }

  lemma EraseRow(s: seq<byte>, b: seq<bv8>, b': seq<bv8>, x: nat, y: nat)
    requires Sized(s, b) && x < COLS && y < ROWS
    requires Cleared(b, b', 80 * y + x, 80 * y + 80)
    ensures var g := Grid(s, b);
            Grid(Filled(s, 80 * y + x, 80 - x, SPACE), b') == g[y := g[y][..x] + BlankRow()[x..]]
  {
    var g := Grid(s, b);
    var s' := Filled(s, 80 * y + x, 80 - x, SPACE);
    var h := g[y := g[y][..x] + BlankRow()[x..]];
    forall r | 0 <= r < ROWS ensures RowAt(s', b', r) == h[r] {
      forall c | 0 <= c < COLS ensures RowAt(s', b', r)[c] == h[r][c] {
        BlankedCells(s, b, b', 80 * y + x, 80 - x, 80 * r + c);
      }
    }
    GridByRows(s', b', h);
  }

  lemma EraseRest(s: seq<byte>, b: seq<bv8>, b': seq<bv8>, x: nat, y: nat)
    requires Sized(s, b) && x < COLS && y < ROWS
    requires Cleared(b, b', 80 * y + x, CELLS)
    ensures var g := Grid(s, b);
            Grid(Filled(s, 80 * y + x, CELLS - 80 * y - x, SPACE), b')
            == g[..y] + [g[y][..x] + BlankRow()[x..]] + seq(ROWS - 1 - y, _ => BlankRow())
  {
    var g := Grid(s, b);
    var s' := Filled(s, 80 * y + x, CELLS - 80 * y - x, SPACE);
    var h := g[..y] + [g[y][..x] + BlankRow()[x..]] + seq(ROWS - 1 - y, _ => BlankRow());
    forall r | 0 <= r < ROWS ensures RowAt(s', b', r) == h[r] {
      forall c | 0 <= c < COLS ensures RowAt(s', b', r)[c] == h[r][c] {
        BlankedCells(s, b, b', 80 * y + x, CELLS - 80 * y - x, 80 * r + c);
      }
    }
    GridByRows(s', b', h);
  }

  /** Writing one cell. */
  lemma WriteCell(s: seq<byte>, b: seq<bv8>, b': seq<bv8>, x: nat, y: nat, ch: byte, marking: bool)
    requires Sized(s, b) && |b'| == MAP_BYTES && x < COLS && y < ROWS
    requires forall p :: 0 <= p < CELLS ==> Mark(b', p) == (Mark(b, p) || (marking && p == 80 * y + x))
    ensures var g := Grid(s, b);
            Grid(s[80 * y + x := ch], b') == g[y := g[y][x := Cell(ch, g[y][x].mark || marking)]]
  {
    var g: seq<Row> := Grid(s, b);
    var s' := s[80 * y + x := ch];
    var h := g[y := g[y][x := Cell(ch, g[y][x].mark || marking)]];
    forall r | 0 <= r < ROWS ensures RowAt(s', b', r) == h[r] {
      forall c | 0 <= c < COLS ensures RowAt(s', b', r)[c] == h[r][c] {
        assert g[r][c] == CellAt(s, b, 80 * r + c);
      }
    }
    GridByRows(s', b', h);
  }

  /** A change of every cell in place. */
  lemma MappedCells(s: seq<byte>, b: seq<bv8>, s': seq<byte>, b': seq<bv8>, f: Cell -> Cell)
    requires Sized(s, b) && Sized(s', b')
    requires forall p :: 0 <= p < CELLS ==> CellAt(s', b', p) == f(CellAt(s, b, p))
    ensures Grid(s', b') == MapCells(Grid(s, b), f)
  {
    var g, h := Grid(s, b), MapCells(Grid(s, b), f);
    MapCellsAt(g, f);
    forall r | 0 <= r < ROWS ensures RowAt(s', b', r) == h[r] {
      forall c | 0 <= c < COLS ensures RowAt(s', b', r)[c] == h[r][c] {
        assert g[r][c] == CellAt(s, b, 80 * r + c);
      }
    }
    GridByRows(s', b', h);
  }
}
