/** What each output byte does to the terminal of `Screen`, told cell by cell and by the cursor's
    place: the promises of the control codes, independently of how the screen carries them out. */
module ControlBytes {
  import opened Bytes
  import opened Screen

  const CELLS: nat := 2000

  /** The cursor's place, counted from the top left cell along the rows. */
  function Place(t: Terminal): nat { COLS * t.y + t.x }

  /** A terminal between two bytes, with no coordinates outstanding. */
  ghost predicate Ready(cfg: Config, t: Terminal) {
    t.WellFormed() && t.pending == 0 && |cfg.outcon| == 128
  }

  /** Nothing but the cells differs. */
  predicate CellsOnly(t: Terminal, u: Terminal) { u == t.(rows := u.rows) }

  /** Nothing but the cursor differs. */
  predicate CursorOnly(t: Terminal, u: Terminal) { u == t.(x := u.x, y := u.y) }

  // Erasing, and moving rows.

  lemma EraseBytes(cfg: Config, t: Terminal)
    requires Ready(cfg, t)
    ensures var u := Step(cfg, t, 0x1E);
      CellsOnly(t, u) && u.WellFormed()
      && forall r, c :: 0 <= r < ROWS && 0 <= c < COLS ==>
           u.rows[r][c] == if r == t.y && c >= t.x then Cell(32, false) else t.rows[r][c]
    ensures var u := Step(cfg, t, 0x1F);
      CellsOnly(t, u) && u.WellFormed()
      && forall r, c :: 0 <= r < ROWS && 0 <= c < COLS ==>
           u.rows[r][c] == if r > t.y || (r == t.y && c >= t.x) then Cell(32, false) else t.rows[r][c]
  {
  }

  lemma ClearByte(cfg: Config, t: Terminal)
    requires Ready(cfg, t)
    ensures var u := Step(cfg, t, 0x0C);
      u == t.(rows := u.rows, x := 0, y := 0, mode := Off) && u.WellFormed()
      && forall r, c :: 0 <= r < ROWS && 0 <= c < COLS ==> u.rows[r][c] == Cell(32, false)
  {
  }

  lemma LineBytes(cfg: Config, t: Terminal)
    requires Ready(cfg, t)
    ensures var u := Step(cfg, t, 0x01);
      CellsOnly(t, u) && u.WellFormed()
      && forall r, c :: 0 <= r < ROWS && 0 <= c < COLS ==>
           u.rows[r][c] == if r < t.y then t.rows[r][c] else if r == t.y then Cell(32, false) else t.rows[r - 1][c]
    ensures var u := Step(cfg, t, 0x02);
      CellsOnly(t, u) && u.WellFormed()
      && forall r, c :: 0 <= r < ROWS && 0 <= c < COLS ==>
           u.rows[r][c] == if r < t.y then t.rows[r][c] else if r < ROWS - 1 then t.rows[r + 1][c] else Cell(32, false)
  {
  }

  // Moving the cursor.

  /** All rows have gone up by one, and the last one is blank. */
  ghost predicate Scrolled(t: Terminal, u: Terminal) {
    && t.WellFormed() && u.WellFormed()
    && forall r, c :: 0 <= r < ROWS && 0 <= c < COLS ==>
         u.rows[r][c] == if r < ROWS - 1 then t.rows[r + 1][c] else Cell(32, false)
  }

  /** The cursor has gone `n` cells on, at most a row; behind the last cell the screen scrolls. */
  ghost predicate Advanced(t: Terminal, u: Terminal, n: nat) {
    if Place(t) + n < CELLS then CursorOnly(t, u) && u.x < COLS && Place(u) == Place(t) + n
    else u == t.(x := u.x, y := u.y, rows := u.rows) && u.x < COLS && Place(u) == Place(t) + n - COLS && Scrolled(t, u)
  }

  lemma RightAdvances(t: Terminal)
    requires t.WellFormed()
    ensures Advanced(t, t.Right(), 1) && t.Right().WellFormed()
  {
  }

  lemma AdvancedOn(t: Terminal, u: Terminal, v: Terminal, n: nat)
    requires t.WellFormed() && u.WellFormed() && n < 4 && Advanced(t, u, n) && Advanced(u, v, 1)
    ensures Advanced(t, v, n + 1)
  {
  }

  lemma RightBytes(cfg: Config, t: Terminal)
    requires Ready(cfg, t)
    ensures Advanced(t, Step(cfg, t, 0x18), 1) && Advanced(t, Step(cfg, t, 0x09), 4)
  {
    var a := t.Right();
    var b := a.Right();
    var c := b.Right();
    RightAdvances(t);
    RightAdvances(a);
    RightAdvances(b);
    RightAdvances(c);
    hide Terminal.Right, Advanced;
    AdvancedOn(t, a, b, 1);
    AdvancedOn(t, b, c, 2);
    AdvancedOn(t, c, c.Right(), 3);
  }

  lemma LeftBytes(cfg: Config, t: Terminal, b: byte)
    requires Ready(cfg, t) && (b == 0x08 || b == 0x05)
    ensures var u := Step(cfg, t, b); CursorOnly(t, u) && u.x < COLS && Place(u) == (Place(t) + CELLS - 1) % CELLS
  {
  }

  lemma UpByte(cfg: Config, t: Terminal)
    requires Ready(cfg, t)
    ensures Step(cfg, t, 0x1A) == t.(y := (t.y + ROWS - 1) % ROWS)
  {
  }

  lemma DownByte(cfg: Config, t: Terminal)
    requires Ready(cfg, t)
    ensures var u := Step(cfg, t, 0x0A);
      if t.y < ROWS - 1 then u == t.(y := t.y + 1) else CellsOnly(t, u) && Scrolled(t, u)
  {
  }

  lemma HomeBytes(cfg: Config, t: Terminal)
    requires Ready(cfg, t)
    ensures Step(cfg, t, 0x0D) == t.(x := 0) && Step(cfg, t, 0x1D) == t.(x := 0, y := 0)
  {
  }

  /** Control codes without a meaning, and the bell, change nothing. */
  lemma OtherBytes(cfg: Config, t: Terminal, b: byte)
    requires Ready(cfg, t) && b < 32
    ensures b !in {0x01, 0x02, 0x05, 0x06, 0x08, 0x09, 0x0A, 0x0C, 0x0D, 0x13, 0x14, 0x15, 0x18, 0x1A, 0x1D, 0x1E, 0x1F} ==>
      Step(cfg, t, b) == t
  {
  }

  /** ctrl-F and two more bytes, of which the top bit is ignored: a cell is addressed by its column and
      row (in the installation's order), each offset by a space; nothing else changes. */
  lemma Addressed(cfg: Config, t: Terminal, x: nat, y: nat, a: byte, b: byte)
    requires Ready(cfg, t) && x < COLS && y < ROWS
    requires a % 128 == 32 + (if cfg.yFirst then y else x) && b % 128 == 32 + (if cfg.yFirst then x else y)
    ensures var u := Steps(cfg, t, [6, a, b]); u.x == x && u.y == y && u == t.(x := x, y := y, first := u.first)
  {
    AddressWraps(cfg, t, a, b);
    hide Steps;
  }

  /** Coordinates off the screen, or below a space, wrap round: first in eight bits, then on the screen. */
  lemma AddressWraps(cfg: Config, t: Terminal, a: byte, b: byte)
    requires Ready(cfg, t)
    ensures var u := Steps(cfg, t, [6, a, b]);
      var (x, y) := if cfg.yFirst then (b, a) else (a, b);
      u == t.(x := (x % 128 + 224) % 256 % COLS, y := (y % 128 + 224) % 256 % ROWS, first := u.first)
  {
    ThreeSteps(cfg, t, 6, a, b);
  }

  lemma ThreeSteps(cfg: Config, t: Terminal, a: byte, b: byte, c: byte)
    requires t.WellFormed() && |cfg.outcon| == 128
    ensures Step(cfg, t, a).WellFormed() && Step(cfg, Step(cfg, t, a), b).WellFormed()
    ensures Steps(cfg, t, [a, b, c]) == Step(cfg, Step(cfg, Step(cfg, t, a), b), c)
  {
    var u := Step(cfg, t, a);
    StepsFirst(cfg, t, a, [b, c]);
    StepsFirst(cfg, u, b, [c]);
    StepsFirst(cfg, Step(cfg, u, b), c, []);
    hide Step;
    assert [a, b, c] == [a] + [b, c] && [b, c] == [b] + [c] && [c] == [c] + [];
  }

  lemma StepsFirst(cfg: Config, t: Terminal, b: byte, cs: seq<byte>)
    requires t.WellFormed() && |cfg.outcon| == 128
    ensures Step(cfg, t, b).WellFormed() && Steps(cfg, t, [b] + cs) == Steps(cfg, Step(cfg, t, b), cs)
  {
    StepKept(cfg, t, b);
    assert ([b] + cs)[0] == b && ([b] + cs)[1..] == cs;
  }

  // The background.

  lemma BackgroundBytes(cfg: Config, t: Terminal)
    requires Ready(cfg, t)
    ensures var u := Step(cfg, t, 0x13);
      u == t.(rows := u.rows, mode := Background) && u.WellFormed()
      && forall r, c :: 0 <= r < ROWS && 0 <= c < COLS ==> u.rows[r][c] == Cell(t.rows[r][c].ch, false)
    ensures Step(cfg, t, 0x14) == t.(mode := Foreground)
    ensures var u := Step(cfg, t, 0x15);
      CellsOnly(t, u) && u.WellFormed()
      && forall r, c :: 0 <= r < ROWS && 0 <= c < COLS ==>
           u.rows[r][c] == if t.rows[r][c].mark then t.rows[r][c] else Cell(32, false)
  {
    MapCellsAt(t.rows, UnmarkCell);
    MapCellsAt(t.rows, BlankUnmarked);
  }

  // Printing.

  /** The character stored for a printing byte. */
  function Glyph(cfg: Config, graph: bool, b: byte): byte
    requires b >= 32 && |cfg.outcon| == 128
  {
    if 128 <= b < 192 then b
    else if graph then b % 64 + (if 64 <= b < 128 then 64 else 0)
    else cfg.outcon[if b < 128 then b else b - 192]
  }

  /** A printing byte is stored under the cursor, which then goes one cell on; bytes from 128 to 191
      also switch semigraphics on or off by their bit 2. */
  lemma PrintingByte(cfg: Config, t: Terminal, b: byte)
    requires Ready(cfg, t) && b >= 32
    ensures exists w: Terminal :: Put(cfg, t, b, w) && Advanced(w, Step(cfg, t, b), 1)
  {
    var g := if 128 <= b < 192 then b / 4 % 2 == 1 else t.graph;
    var cell := Cell(Glyph(cfg, t.graph, b), t.rows[t.y][t.x].mark || t.mode == Background);
    var w := t.(graph := g, rows := t.rows[t.y := t.rows[t.y][t.x := cell]]);
    assert Step(cfg, t, b) == w.Right();
    RightAdvances(w);
    assert Put(cfg, t, b, w);
  }

  /** Before the cursor moves. */
  ghost predicate Put(cfg: Config, t: Terminal, b: byte, w: Terminal)
    requires Ready(cfg, t) && b >= 32
  {
    && w == t.(rows := w.rows, graph := w.graph) && w.WellFormed()
    && w.graph == (if 128 <= b < 192 then b / 4 % 2 == 1 else t.graph)
    && forall r, c :: 0 <= r < ROWS && 0 <= c < COLS ==>
         w.rows[r][c] == if r == t.y && c == t.x then Cell(Glyph(cfg, t.graph, b), t.rows[r][c].mark || t.mode == Background)
                         else t.rows[r][c]
  }

  predicate Plain(text: seq<byte>) { forall i :: 0 <= i < |text| ==> 32 <= text[i] < 128 }

  /** After a clear screen, text that does not fill the screen stands there byte by byte along the rows,
      and the cursor behind it. */
  ghost predicate Shows(cfg: Config, t: Terminal, text: seq<byte>) {
    && Ready(cfg, t) && |text| < CELLS && Plain(text)
    && Place(t) == |text| && t.mode == Off
    && forall r, c :: 0 <= r < ROWS && 0 <= c < COLS ==>
         t.rows[r][c] == Cell(if COLS * r + c < |text| then Glyph(cfg, t.graph, text[COLS * r + c]) else 32, false)
  }

  lemma {:induction false} TextAppears(cfg: Config, t: Terminal, text: seq<byte>)
    requires Ready(cfg, t) && |text| < CELLS && Plain(text)
    ensures Shows(cfg, Steps(cfg, t, [0x0C] + text), text)
    decreases |text|
  {
    if text == [] {
      ClearByte(cfg, t);
      StepsFirst(cfg, t, 0x0C, []);
      hide Step;
      assert [0x0C] + text == [0x0C] + [];
    } else {
      var n := |text| - 1;
      var u := Steps(cfg, t, [0x0C] + text[..n]);
      assert Plain(text[..n]);
      TextAppears(cfg, t, text[..n]);
      StepsSnoc(cfg, t, [0x0C] + text[..n], text[n]);
      assert [0x0C] + text[..n] + [text[n]] == [0x0C] + text;
      hide Step, Steps;
      OneMore(cfg, u, text[..n], text[n]);
      assert text[..n] + [text[n]] == text;
    }
  }

  lemma OneMore(cfg: Config, t: Terminal, text: seq<byte>, b: byte)
    requires Shows(cfg, t, text) && |text| + 1 < CELLS && 32 <= b < 128
    ensures Shows(cfg, Step(cfg, t, b), text + [b])
  {
    PrintingByte(cfg, t, b);
    var u := Step(cfg, t, b);
    hide Step, Glyph;
    var w: Terminal :| Put(cfg, t, b, w) && Advanced(w, u, 1);
  }
}
