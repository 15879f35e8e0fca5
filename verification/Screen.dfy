/** The terminal as its users know it: 25 rows of 80 cells, each a character with a
    background mark, and a cursor. */
module Screen {
  import opened Bytes

  const COLS: nat := 80
  const ROWS: nat := 25
  const SPACE: byte := 32

  datatype Cell = Cell(ch: byte, mark: bool)

  type Row = seq<Cell>

  const BLANK: Cell := Cell(SPACE, false)

  function BlankRow(): (r: Row)
    ensures |r| == COLS
  {
    seq(COLS, _ => BLANK)
  }

  datatype Mode = Off | Foreground | Background

  /** `pending` counts the coordinate bytes still to come after ctrl-F. */
  datatype Terminal = Terminal(
    rows: seq<Row>, x: nat, y: nat, pending: nat, first: byte, graph: bool, mode: Mode)
  {
    ghost predicate WellFormed() {
      && |rows| == ROWS && (forall r :: 0 <= r < ROWS ==> |rows[r]| == COLS)
      && x < COLS && y < ROWS && pending <= 2
    }

    /** No background has been started since the last clear. */
    ghost predicate Unmarked() {
      forall r, c :: 0 <= r < |rows| && 0 <= c < |rows[r]| ==> !rows[r][c].mark
    }

    function At(x: nat, y: nat): Terminal {
      this.(x := x, y := y)
    }

    function ScrollUp(): Terminal
      requires |rows| == ROWS
    {
      this.(rows := rows[1..] + [BlankRow()])
    }

    function Down(): Terminal
      requires |rows| == ROWS
    {
      if y < ROWS - 1 then this.(y := y + 1) else ScrollUp()
    }

    function Right(): Terminal
      requires |rows| == ROWS
    {
      if x < COLS - 1 then this.(x := x + 1) else this.(x := 0).Down()
    }

    function Up(): Terminal {
      if y != 0 then this.(y := y - 1) else this.(y := ROWS - 1)
    }

    function Left(): Terminal {
      if x != 0 then this.(x := x - 1) else this.(x := COLS - 1).Up()
    }

    function Tab(): Terminal
      requires |rows| == ROWS
    {
      Right().Right().Right().Right()
    }

    function Clear(): Terminal {
      At(0, 0).(rows := seq(ROWS, _ => BlankRow()), mode := Off)
    }

    function EraseToEol(): Terminal
      requires WellFormed()
    {
      this.(rows := rows[y := rows[y][..x] + BlankRow()[x..]])
    }

    function EraseToEos(): Terminal
      requires WellFormed()
    {
      this.(rows := rows[..y] + [rows[y][..x] + BlankRow()[x..]] + seq(ROWS - 1 - y, _ => BlankRow()))
    }

    function InsertLine(): Terminal
      requires WellFormed()
    {
      this.(rows := rows[..y] + [BlankRow()] + rows[y..ROWS - 1])
    }

    function DeleteLine(): Terminal
      requires WellFormed()
    {
      this.(rows := rows[..y] + rows[y + 1..] + [BlankRow()])
    }

    /** ctrl-S: forget the old background and mark whatever is written from here on. */
    function StartBackground(): Terminal
      requires WellFormed()
    {
      this.(rows := MapCells(rows, UnmarkCell), mode := Background)
    }

    /** ctrl-U: blank every cell that is not background. */
    function ClearForeground(): Terminal
      requires WellFormed()
    {
      this.(rows := MapCells(rows, BlankUnmarked))
    }

    function Write(ch: byte): Terminal
      requires WellFormed()
    {
      this.(rows := rows[y := rows[y][x := Cell(ch, rows[y][x].mark || mode == Background)]]).Right()
    }
  }

  function MapCells(rows: seq<Row>, f: Cell -> Cell): (r: seq<Row>)
    ensures |r| == |rows|
  {
    seq(|rows|, r requires 0 <= r < |rows| => MapRow(rows[r], f))
  }

  function MapRow(row: Row, f: Cell -> Cell): (r: Row)
    ensures |r| == |row|
  {
    seq(|row|, c requires 0 <= c < |row| => f(row[c]))
  }

  lemma MapCellsAt(rows: seq<Row>, f: Cell -> Cell)
    ensures forall r, c :: 0 <= r < |rows| && 0 <= c < |rows[r]| ==> MapCells(rows, f)[r][c] == f(rows[r][c])
  {
    forall r, c | 0 <= r < |rows| && 0 <= c < |rows[r]| ensures MapCells(rows, f)[r][c] == f(rows[r][c]) {
      assert MapCells(rows, f)[r] == MapRow(rows[r], f);
    }
  }

  function UnmarkCell(c: Cell): Cell { c.(mark := false) }

  function BlankUnmarked(c: Cell): Cell { if c.mark then c else c.(ch := SPACE) }

  /** The installation's output conversion table and coordinate order. */
  datatype Config = Config(outcon: seq<byte>, yFirst: bool)

  /** A coordinate byte: seven bits, offset by a space, in eight-bit arithmetic. */
  function Coordinate(c: byte): byte {
    (c % 128 + 224) % 256
  }

  function Coordinates(cfg: Config, t: Terminal, c: byte): Terminal
    requires t.pending > 0
  {
    var v := Coordinate(c);
    if t.pending > 1 then t.(pending := t.pending - 1, first := v)
    else
      var x := if cfg.yFirst then v else t.first;
      var y := if cfg.yFirst then t.first else v;
      t.(pending := 0).At(x % COLS, y % ROWS)
  }

  /** A printing byte: the upper quarter folds to 0-63, 128-191 switch semigraphics, the rest
      goes through the conversion table. */
  function Printed(cfg: Config, t: Terminal, c: byte): Terminal
    requires t.WellFormed() && |cfg.outcon| == 128
  {
    var ch: byte := if c >= 192 then c - 192 else c;
    if ch >= 128 then t.(graph := ch / 4 % 2 == 1).Write(ch)
    else if t.graph then t.Write(ch)
    else t.Write(cfg.outcon[ch])
  }

  function Control(t: Terminal, c: byte): Terminal
    requires t.WellFormed() && c < 32
  {
    match c
    case 0x01 => t.InsertLine()
    case 0x02 => t.DeleteLine()
    case 0x05 => t.Left()
    case 0x06 => t.At(0, 0).(pending := 2)
    case 0x08 => t.Left()
    case 0x09 => t.Tab()
    case 0x0A => t.Down()
    case 0x0C => t.Clear()
    case 0x0D => t.(x := 0)
    case 0x13 => t.StartBackground()
    case 0x14 => t.(mode := Foreground)
    case 0x15 => t.ClearForeground()
    case 0x18 => t.Right()
    case 0x1A => t.Up()
    case 0x1D => t.At(0, 0)
    case 0x1E => t.EraseToEol()
    case 0x1F => t.EraseToEos()
    case _ => t
  }

  /** One byte of output. */
  function Step(cfg: Config, t: Terminal, c: byte): Terminal
    requires t.WellFormed() && |cfg.outcon| == 128
  {
    if t.pending != 0 then Coordinates(cfg, t, c)
    else if c < 32 then Control(t, c)
    else Printed(cfg, t, c)
  }

  /** `u` is a terminal with a 25 by 80 screen, unmarked if it has no background and `t` was. */
  ghost predicate Kept(t: Terminal, u: Terminal) {
    u.WellFormed() && (u.mode == Off && (t.mode == Off ==> t.Unmarked()) ==> u.Unmarked())
  }

  lemma RightKept(t: Terminal)
    requires t.WellFormed()
    ensures Kept(t, t.Right()) && t.Right().mode == t.mode
  {
  }

  lemma TabKept(t: Terminal)
    requires t.WellFormed()
    ensures Kept(t, t.Tab())
  {
    hide Terminal.Right;
    RightKept(t);
    RightKept(t.Right());
    RightKept(t.Right().Right());
    RightKept(t.Right().Right().Right());
  }

  lemma WriteKept(t: Terminal, ch: byte)
    requires t.WellFormed()
    ensures Kept(t, t.Write(ch))
  {
    var u := t.(rows := t.rows[t.y := t.rows[t.y][t.x := Cell(ch, t.rows[t.y][t.x].mark || t.mode == Background)]]);
    assert Kept(t, u);
    RightKept(u);
  }

  lemma EditKept(t: Terminal)
    requires t.WellFormed()
    ensures Kept(t, t.InsertLine()) && Kept(t, t.DeleteLine())
    ensures Kept(t, t.EraseToEol()) && Kept(t, t.EraseToEos())
    ensures Kept(t, t.StartBackground()) && Kept(t, t.ClearForeground())
  {
    hide *;
    LinesKept(t);
    EraseKept(t);
    MarksKept(t);
  }

  lemma LinesKept(t: Terminal)
    requires t.WellFormed()
    ensures Kept(t, t.InsertLine()) && Kept(t, t.DeleteLine())
  {
  }

  lemma EraseKept(t: Terminal)
    requires t.WellFormed()
    ensures Kept(t, t.EraseToEol()) && Kept(t, t.EraseToEos())
  {
  }

  lemma MarksKept(t: Terminal)
    requires t.WellFormed()
    ensures Kept(t, t.StartBackground()) && Kept(t, t.ClearForeground())
  {
    MapCellsAt(t.rows, BlankUnmarked);
  }

  lemma ControlKept(t: Terminal, c: byte)
    requires t.WellFormed() && c < 32
    ensures Kept(t, Control(t, c))
  {
    TabKept(t);
    EditKept(t);
    RightKept(t);
    MoveKept(t);
    hide *;
    ControlIs(t, c);
  }

  lemma MoveKept(t: Terminal)
    requires t.WellFormed()
    ensures Kept(t, t) && Kept(t, t.Left()) && Kept(t, t.Down()) && Kept(t, t.Up()) && Kept(t, t.Clear())
    ensures Kept(t, t.At(0, 0)) && Kept(t, t.At(0, 0).(pending := 2)) && Kept(t, t.(x := 0)) && Kept(t, t.(mode := Foreground))
  {
  }

  lemma ControlIs(t: Terminal, c: byte)
    requires t.WellFormed() && c < 32
    ensures Control(t, c) in {t, t.InsertLine(), t.DeleteLine(), t.Left(), t.At(0, 0).(pending := 2), t.Tab(), t.Down(),
                              t.Clear(), t.(x := 0), t.StartBackground(), t.(mode := Foreground), t.ClearForeground(),
                              t.Right(), t.Up(), t.At(0, 0), t.EraseToEol(), t.EraseToEos()}
  {
    hide Terminal.InsertLine, Terminal.DeleteLine, Terminal.Left, Terminal.At, Terminal.Tab, Terminal.Down, Terminal.Clear,
      Terminal.StartBackground, Terminal.ClearForeground, Terminal.Right, Terminal.Up, Terminal.EraseToEol, Terminal.EraseToEos;
  }

  /** Every byte keeps the screen 25 by 80 and the cursor on it, and a terminal whose background
      machinery is off has no marks. */
  lemma StepKept(cfg: Config, t: Terminal, c: byte)
    requires t.WellFormed() && |cfg.outcon| == 128
    ensures Kept(t, Step(cfg, t, c))
  {
    hide Control, Terminal.Write;
    if t.pending == 0 {
      if c < 32 {
        ControlKept(t, c);
      } else {
        var ch: byte := if c >= 192 then c - 192 else c;
        if ch >= 128 {
          WriteKept(t.(graph := ch / 4 % 2 == 1), ch);
        } else {
          WriteKept(t, if t.graph then ch else cfg.outcon[ch]);
        }
      }
    }
  }

  function Steps(cfg: Config, t: Terminal, cs: seq<byte>): (r: Terminal)
    requires t.WellFormed() && |cfg.outcon| == 128
    ensures r.WellFormed()
    decreases |cs|
  {
    if cs == [] then t
    else
      StepKept(cfg, t, cs[0]);
      Steps(cfg, Step(cfg, t, cs[0]), cs[1..])
  }

  lemma {:induction false} StepsSnoc(cfg: Config, t: Terminal, cs: seq<byte>, c: byte)
    requires t.WellFormed() && |cfg.outcon| == 128
    ensures Steps(cfg, t, cs + [c]) == Step(cfg, Steps(cfg, t, cs), c)
    decreases |cs|
  {
    if cs == [] {
      StepKept(cfg, t, c);
      assert ([] + [c])[1..] == [];
    } else {
      StepKept(cfg, t, cs[0]);
      assert (cs + [c])[1..] == cs[1..] + [c];
      StepsSnoc(cfg, Step(cfg, t, cs[0]), cs[1..], c);
    }
  }

  // The background is invisible until ctrl-U.

  /** Two terminals that show the same, whatever their marks and mode. */
  ghost predicate SameDisplay(t: Terminal, u: Terminal) {
    && t.(rows := u.rows, mode := u.mode) == u
    && |t.rows| == |u.rows|
    && (forall r :: 0 <= r < |t.rows| ==> SameRow(t.rows[r], u.rows[r]))
  }

  ghost predicate SameRow(a: Row, b: Row) {
    |a| == |b| && forall c :: 0 <= c < |a| ==> a[c].ch == b[c].ch
  }

  lemma RightSame(t: Terminal, u: Terminal)
    requires t.WellFormed() && u.WellFormed() && SameDisplay(t, u)
    ensures SameDisplay(t.Right(), u.Right()) && t.Right().WellFormed() && u.Right().WellFormed()
  {
    RightKept(t);
    RightKept(u);
  }

  lemma TabSame(t: Terminal, u: Terminal)
    requires t.WellFormed() && u.WellFormed() && SameDisplay(t, u)
    ensures SameDisplay(t.Tab(), u.Tab())
  {
    hide Terminal.Right, SameDisplay;
    RightSame(t, u);
    RightSame(t.Right(), u.Right());
    RightSame(t.Right().Right(), u.Right().Right());
    RightSame(t.Right().Right().Right(), u.Right().Right().Right());
  }

  lemma WriteSame(t: Terminal, u: Terminal, ch: byte)
    requires t.WellFormed() && u.WellFormed() && SameDisplay(t, u)
    ensures SameDisplay(t.Write(ch), u.Write(ch))
  {
    var t' := t.(rows := t.rows[t.y := t.rows[t.y][t.x := Cell(ch, t.rows[t.y][t.x].mark || t.mode == Background)]]);
    var u' := u.(rows := u.rows[u.y := u.rows[u.y][u.x := Cell(ch, u.rows[u.y][u.x].mark || u.mode == Background)]]);
    assert SameRow(t.rows[t.y], u.rows[u.y]);
    assert SameDisplay(t', u');
    RightSame(t', u');
  }

  lemma EraseSame(t: Terminal, u: Terminal)
    requires t.WellFormed() && u.WellFormed() && SameDisplay(t, u)
    ensures SameDisplay(t.EraseToEol(), u.EraseToEol()) && SameDisplay(t.EraseToEos(), u.EraseToEos())
  {
    assert SameRow(t.rows[t.y], u.rows[u.y]);
  }

  lemma EditSame(t: Terminal, u: Terminal)
    requires t.WellFormed() && u.WellFormed() && SameDisplay(t, u)
    ensures SameDisplay(t.InsertLine(), u.InsertLine()) && SameDisplay(t.DeleteLine(), u.DeleteLine())
  {
  }

  lemma StartSame(t: Terminal, u: Terminal)
    requires t.WellFormed() && u.WellFormed() && SameDisplay(t, u)
    ensures SameDisplay(t.StartBackground(), u.StartBackground())
  {
    MapCellsAt(t.rows, UnmarkCell);
    MapCellsAt(u.rows, UnmarkCell);
    forall r | 0 <= r < ROWS
      ensures SameRow(t.StartBackground().rows[r], u.StartBackground().rows[r])
    {
      assert SameRow(t.rows[r], u.rows[r]);
    }
  }

  lemma ControlSame(t: Terminal, u: Terminal, c: byte)
    requires t.WellFormed() && u.WellFormed() && SameDisplay(t, u) && c < 32 && c != 0x15
    ensures SameDisplay(Control(t, c), Control(u, c))
  {
    hide Terminal.Tab, Terminal.InsertLine, Terminal.DeleteLine, Terminal.EraseToEol, Terminal.EraseToEos,
      Terminal.StartBackground;
    TabSame(t, u);
    EditSame(t, u);
    EraseSame(t, u);
    StartSame(t, u);
    RightSame(t, u);
  }

  lemma StepSameDisplay(cfg: Config, t: Terminal, u: Terminal, c: byte)
    requires t.WellFormed() && u.WellFormed() && |cfg.outcon| == 128
    requires SameDisplay(t, u) && (c == 0x15 ==> t.pending != 0)
    ensures SameDisplay(Step(cfg, t, c), Step(cfg, u, c))
  {
    hide Control, Terminal.Write;
    if t.pending == 0 {
      if c < 32 {
        ControlSame(t, u, c);
      } else {
        var ch: byte := if c >= 192 then c - 192 else c;
        if ch >= 128 {
          var g := ch / 4 % 2 == 1;
          WriteSame(t.(graph := g), u.(graph := g), ch);
        } else {
          WriteSame(t, u, if t.graph then ch else cfg.outcon[ch]);
        }
      }
    }
  }

  /** No ctrl-U is executed while `cs` is printed. */
  ghost predicate NeverClears(cfg: Config, t: Terminal, cs: seq<byte>)
    requires t.WellFormed() && |cfg.outcon| == 128
    decreases |cs|
  {
    cs == [] ||
    ((cs[0] == 0x15 ==> t.pending != 0)
     && (StepKept(cfg, t, cs[0]); NeverClears(cfg, Step(cfg, t, cs[0]), cs[1..])))
  }

  /** Until the first ctrl-U, what is displayed and where the cursor is do not depend on any
      background drawn before, whatever is printed. */
  lemma {:induction false} BackgroundInvisible(cfg: Config, t: Terminal, u: Terminal, cs: seq<byte>)
    requires t.WellFormed() && u.WellFormed() && |cfg.outcon| == 128
    requires SameDisplay(t, u) && NeverClears(cfg, t, cs)
    ensures SameDisplay(Steps(cfg, t, cs), Steps(cfg, u, cs))
    decreases |cs|
  {
    if cs != [] {
      hide SameDisplay, Step, Terminal.WellFormed;
      StepKept(cfg, t, cs[0]);
      StepKept(cfg, u, cs[0]);
      assert (cs[0] == 0x15 ==> t.pending != 0);
      StepSameDisplay(cfg, t, u, cs[0]);
      BackgroundInvisible(cfg, Step(cfg, t, cs[0]), Step(cfg, u, cs[0]), cs[1..]);
    }
  }
}
