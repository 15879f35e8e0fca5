/** The CRT driver of rcbios-in-c/bios.c: a flat 2000-byte screen, a cursor kept as column,
    row and byte offset, and the background bitmap. It implements `Screen.Step`. */
module CrtDriver {
  import opened Bytes
  import opened Bitmap
  import opened Blocks
  import opened CrtView
  import opened Screen

  const ROW24_OFFSET: nat := 1920
  const BG_ROW_BYTES: nat := 10

  class Crt {
    const screen: array<byte>
    const bgstar: array<bv8>
    const outcon: seq<byte>
    const adrmod: byte

    var curx: nat
    var cury: nat
    var cursy: nat
    var xflg: nat
    var adr0: byte
    var usession: byte
    var locad: nat
    var graph: bool
    var bgflg: nat

    ghost predicate Valid()
      reads this, screen, bgstar
    {
      && screen.Length == CELLS && bgstar.Length == MAP_BYTES && |outcon| == 128
      && curx < COLS && cursy < ROWS && cury == 80 * cursy && xflg <= 2 && bgflg <= 2
      && (bgflg == 0 ==> forall i :: 0 <= i < MAP_BYTES ==> bgstar[i] == 0)
    }

    ghost function Cfg(): Config {
      Config(outcon, adrmod != 0)
    }

    ghost function View(): Terminal
      requires Valid()
      reads this, screen, bgstar
    {
      Terminal(Grid(screen[..], bgstar[..]), curx, cursy, xflg, adr0, graph,
               if bgflg == 0 then Off else if bgflg == 1 then Foreground else Background)
    }

    constructor (outcon: seq<byte>, adrmod: byte)
      requires |outcon| == 128
      ensures Valid() && View().WellFormed() && Cfg() == Config(outcon, adrmod != 0) && fresh(screen) && fresh(bgstar)
    {
      screen := new byte[CELLS];
      bgstar := new bv8[MAP_BYTES](_ => 0);
      this.outcon, this.adrmod := outcon, adrmod;
      curx, cury, cursy, xflg, adr0, usession, locad := 0, 0, 0, 0, 0, 0, 0;
      graph, bgflg := false, 0;
    }

    /** With the background off the bitmap is zero, so moving it would change nothing. */
    static lemma ZeroMoves(b: seq<bv8>, dst: nat, src: nat, n: nat, pos: nat)
      requires |b| == MAP_BYTES && forall i :: 0 <= i < MAP_BYTES ==> b[i] == 0
      requires dst + n <= MAP_BYTES && src + n <= MAP_BYTES && pos + 10 <= MAP_BYTES
      ensures Filled(Moved(b, dst, src, n), pos, 10, 0) == b
    {
    }

    /** Delete row `y`: the body of `delete_line`, and with `y` 0 of `scroll`. */
    method RemoveRow(y: nat)
      requires Valid() && y < ROWS
      modifies screen, bgstar
      ensures Valid() && View() == old(View()).(rows := old(View()).rows[..y] + old(View()).rows[y + 1..] + [BlankRow()])
    {
      hide Moved, Filled;
      ghost var s, b := screen[..], bgstar[..];
      DeleteRow(s, b, y);
      CopyUpwards(screen, 80 * y, 80 * y + 80, ROW24_OFFSET - 80 * y);
      Fill(screen, ROW24_OFFSET, 80, SPACE);
      if bgflg != 0 {
        var off := 80 * y / 8;
        CopyUpwards(bgstar, off, off + BG_ROW_BYTES, MAP_BYTES - BG_ROW_BYTES - off);
        Fill(bgstar, MAP_BYTES - BG_ROW_BYTES, BG_ROW_BYTES, 0);
      } else {
        ZeroMoves(b, 10 * y, 10 * (y + 1), 10 * (24 - y), 240);
      }
    }

    /** `scroll`. */
    method Scroll()
      requires Valid()
      modifies screen, bgstar
      ensures Valid() && View() == old(View()).ScrollUp()
    {
      RemoveRow(0);
      assert old(View()).rows[..0] == [];
    }

    /** `delete_line`. */
    method DeleteLine()
      requires Valid()
      modifies screen, bgstar
      ensures Valid() && View().WellFormed() && View() == old(View()).DeleteLine()
    {
      RemoveRow(cury / 80);
    }

    /** `insert_line`: the blocks overlap and move up, so both are copied backwards. */
    method InsertLine()
      requires Valid()
      modifies screen, bgstar
      ensures Valid() && View().WellFormed() && View() == old(View()).InsertLine()
    {
      hide Moved, Filled;
      ghost var s, b := screen[..], bgstar[..];
      InsertRow(s, b, cursy);
      var count := ROW24_OFFSET - cury;
      CopyDownwards(screen, ROW24_OFFSET + 80 - 1, ROW24_OFFSET - 1, count);
      Fill(screen, cury, 80, SPACE);
      if bgflg != 0 {
        var off := cury / 8;
        CopyDownwards(bgstar, MAP_BYTES - 1, MAP_BYTES - BG_ROW_BYTES - 1, MAP_BYTES - BG_ROW_BYTES - off);
        Fill(bgstar, off, BG_ROW_BYTES, 0);
      } else {
        ZeroMoves(b, 10 * (cursy + 1), 10 * cursy, 10 * (24 - cursy), 10 * cursy);
      }
    }

    /** `rowdn`, `rowup`, `cursor_down`, `cursor_up`, `cursor_left`, `cursor_right`, `tab`. */
    method CursorDown()
      requires Valid()
      modifies this, screen, bgstar
      ensures Valid() && View() == old(View()).Down()
    {
      if cury != ROW24_OFFSET {
        cury := cury + 80;
        cursy := cursy + 1;
      } else {
        Scroll();
      }
    }

    method CursorUp()
      requires Valid()
      modifies `cury, `cursy
      ensures Valid() && View() == old(View()).Up()
    {
      if cury != 0 {
        cury := cury - 80;
        cursy := cursy - 1;
      } else {
        cury := ROW24_OFFSET;
        cursy := 24;
      }
    }

    method CursorLeft()
      requires Valid()
      modifies `curx, `cury, `cursy
      ensures Valid() && View() == old(View()).Left()
    {
      if curx != 0 {
        curx := curx - 1;
      } else {
        curx := 79;
        CursorUp();
      }
    }

    method CursorRight()
      requires Valid()
      modifies this, screen, bgstar
      ensures Valid() && View() == old(View()).Right()
    {
      if curx < 79 {
        curx := curx + 1;
      } else {
        curx := 0;
        CursorDown();
      }
    }

    method Tab()
      requires Valid()
      modifies this, screen, bgstar
      ensures Valid() && View() == old(View()).Tab()
    {
      hide Terminal.Right, Grid;
      CursorRight();
      CursorRight();
      CursorRight();
      CursorRight();
    }

    /** `goto00`. */
    method Goto00()
      requires Valid()
      modifies `curx, `cury, `cursy
      ensures Valid() && View() == old(View()).At(0, 0)
    {
      cury := 0;
      curx := 0;
      cursy := 0;
    }

    /** `clear_screen`. */
    method ClearScreen()
      requires Valid()
      modifies this, screen, bgstar
      ensures Valid() && View() == old(View()).Clear()
    {
      Fill(screen, 0, CELLS, SPACE);
      Goto00();
      if bgflg != 0 {
        bgflg := 0;
        Fill(bgstar, 0, MAP_BYTES, 0);
      }
      assert bgstar[..] == seq(MAP_BYTES, _ => 0 as bv8);
      BlankScreen(screen[..], bgstar[..]);
    }

    static lemma BlankScreen(s: seq<byte>, b: seq<bv8>)
      requires Sized(s, b) && s == seq(CELLS, _ => SPACE) && b == seq(MAP_BYTES, _ => 0 as bv8)
      ensures Grid(s, b) == seq(ROWS, _ => BlankRow())
    {
      forall r | 0 <= r < ROWS ensures RowAt(s, b, r) == BlankRow() {
        forall c | 0 <= c < COLS ensures RowAt(s, b, r)[c] == BLANK {
          ZeroHasNone((80 * r + c) % 8);
        }
      }
    }

    static function ClearEnd(pos: nat, count: nat): nat {
      if pos % 8 != 0 && count < 8 - pos % 8 then pos + (8 - pos % 8) else pos + count
    }

    /** `bg_clear_from`: clear the marks of `count` positions from `pos`. When `pos` is inside a
        byte the rest of that byte goes even if `count` ends before it. */
    method BgClearFrom(pos: nat, count: nat)
      requires Valid() && pos + count <= CELLS
      modifies bgstar
      ensures Valid() && Cleared(old(bgstar[..]), bgstar[..], pos, ClearEnd(pos, count))
    {
      hide Cleared, Mark, ClearEnd;
      ghost var b0 := bgstar[..];
      if bgflg == 0 {
        NoMarks();
        UnmarkedCleared(b0, pos, ClearEnd(pos, count));
        return;
      }
      var byteoff, left := ClearLeading(pos, count);
      ghost var b1 := bgstar[..];
      ClearBytes(byteoff, left);
      ClearedOn(b0, b1, bgstar[..], pos, 8 * byteoff, 8 * byteoff + left);
    }

    /** Clear what is left of the first byte, when `pos` is inside it. */
    method ClearLeading(pos: nat, count: nat) returns (byteoff: nat, left: nat)
      requires Valid() && bgflg != 0 && pos + count <= CELLS
      modifies bgstar
      ensures Valid() && 8 * byteoff + left == ClearEnd(pos, count) <= CELLS && pos <= 8 * byteoff
      ensures Cleared(old(bgstar[..]), bgstar[..], pos, 8 * byteoff)
    {
      hide Cleared;
      byteoff, left := pos / 8, count;
      var bitno := pos % 8;
      if bitno != 0 {
        LeadingKept(bgstar[..], byteoff, bitno);
        bgstar[byteoff] := bgstar[byteoff] & !(FULL >> bitno);
        byteoff := byteoff + 1;
        left := if left > 8 - bitno then left - (8 - bitno) else 0;
      } else {
        NothingCleared(bgstar[..], pos);
      }
    }

    /** Clear `left` positions from the start of byte `byteoff`. */
    method ClearBytes(byteoff: nat, left: nat)
      requires Valid() && bgflg != 0 && 8 * byteoff + left <= CELLS
      modifies bgstar
      ensures Valid() && Cleared(old(bgstar[..]), bgstar[..], 8 * byteoff, 8 * byteoff + left)
    {
      hide Cleared, Filled;
      ghost var b1 := bgstar[..];
      var whole, tail := WholeAndTail(left);
      if whole != 0 {
        Fill(bgstar, byteoff, whole, 0);
      }
      FilledNone(b1, byteoff);
      WholeCleared(b1, byteoff, whole);
      if tail != 0 {
        ClearTail(byteoff + whole, tail);
        ClearedOn(b1, Filled(b1, byteoff, whole, 0), bgstar[..], 8 * byteoff, 8 * (byteoff + whole), 8 * byteoff + left);
      }
    }

    static method WholeAndTail(left: nat) returns (whole: nat, tail: nat)
      ensures left == 8 * whole + tail && tail < 8
    {
      whole, tail := left / 8, left % 8;
    }

    /** Clear the first `tail` bits of a byte. */
    method ClearTail(i: nat, tail: nat)
      requires Valid() && bgflg != 0 && i < MAP_BYTES && 0 < tail < 8
      modifies bgstar
      ensures Valid() && Cleared(old(bgstar[..]), bgstar[..], 8 * i, 8 * i + tail)
    {
      hide Cleared;
      LeadingDropped(bgstar[..], i, tail);
      bgstar[i] := bgstar[i] & !(FULL << (8 - tail));
    }

    /** A range that ends on a byte boundary, as the end of a row does, is cleared exactly. */
    static lemma ClearEndExact(pos: nat, count: nat)
      requires (pos + count) % 8 == 0 && count > 0
      ensures ClearEnd(pos, count) == pos + count
    {
    }

    static lemma FilledNone(b: seq<bv8>, pos: nat)
      requires pos <= |b|
      ensures Filled(b, pos, 0, 0) == b
    {
    }

    static lemma NothingCleared(b: seq<bv8>, pos: nat)
      requires |b| == MAP_BYTES
      ensures Cleared(b, b, pos, pos)
    {
    }

    static lemma UnmarkedCleared(b: seq<bv8>, from: nat, to: nat)
      requires |b| == MAP_BYTES && forall p :: 0 <= p < CELLS ==> !Mark(b, p)
      ensures Cleared(b, b, from, to)
    {
    }

    /** Two adjoining clearings make one. */
    static lemma ClearedOn(b0: seq<bv8>, b1: seq<bv8>, b2: seq<bv8>, from: nat, mid: nat, to: nat)
      requires Cleared(b0, b1, from, mid) && Cleared(b1, b2, mid, to) && from <= mid <= to
      ensures Cleared(b0, b2, from, to)
    {
    }

    lemma NoMarks()
      requires Valid() && bgflg == 0
      ensures forall p :: 0 <= p < CELLS ==> !Mark(bgstar[..], p)
    {
      forall p | 0 <= p < CELLS ensures !Mark(bgstar[..], p) {
        ZeroHasNone(p % 8);
      }
    }

    static lemma LeadingKept(b: seq<bv8>, i: nat, k: nat)
      requires |b| == MAP_BYTES && i < MAP_BYTES && k < 8
      ensures Cleared(b, b[i := b[i] & !(FULL >> k)], 8 * i + k, 8 * i + 8)
    {
      forall p | 0 <= p < CELLS
        ensures Mark(b[i := b[i] & !(FULL >> k)], p) == (Mark(b, p) && !(8 * i + k <= p < 8 * i + 8))
      {
        KeepLeading(b[i], k, p % 8);
      }
    }

    static lemma LeadingDropped(b: seq<bv8>, i: nat, t: nat)
      requires |b| == MAP_BYTES && i < MAP_BYTES && 0 < t < 8
      ensures Cleared(b, b[i := b[i] & !(FULL << (8 - t))], 8 * i, 8 * i + t)
    {
      forall p | 0 <= p < CELLS
        ensures Mark(b[i := b[i] & !(FULL << (8 - t))], p) == (Mark(b, p) && !(8 * i <= p < 8 * i + t))
      {
        DropLeading(b[i], t, p % 8);
      }
    }

    static lemma WholeCleared(b: seq<bv8>, i: nat, n: nat)
      requires |b| == MAP_BYTES && i + n <= MAP_BYTES
      ensures Cleared(b, Filled(b, i, n, 0), 8 * i, 8 * (i + n))
    {
      forall p | 0 <= p < CELLS
        ensures Mark(Filled(b, i, n, 0), p) == (Mark(b, p) && !(8 * i <= p < 8 * (i + n)))
      {
        ZeroHasNone(p % 8);
      }
    }

    /** The loop of `erase_to_eol`: spaces from column `x` of the row at `row` on. */
    static method SpaceRow(screen: array<byte>, row: nat, x: nat)
      requires x <= 80 && row + 80 <= screen.Length
      modifies screen
      ensures screen[..] == Filled(old(screen[..]), row + x, 80 - x, SPACE)
    {
      ghost var s := screen[..];
      FilledNoSpaces(s, row + x);
      hide Filled;
      for i := x to 80
        invariant screen[..] == Filled(s, row + x, i - x, SPACE)
      {
        FilledMore(s, row + x, i - x);
        screen[row + i] := SPACE;
      }
    }

    static lemma FilledNoSpaces(s: seq<byte>, pos: nat)
      requires pos <= |s|
      ensures Filled(s, pos, 0, SPACE) == s
    {
    }

    static lemma FilledMore(s: seq<byte>, pos: nat, n: nat)
      requires pos + n < |s|
      ensures Filled(s, pos, n + 1, SPACE) == Filled(s, pos, n, SPACE)[pos + n := SPACE]
    {
    }

    /** `erase_to_eol`. */
    method EraseToEol()
      requires Valid()
      modifies screen, bgstar
      ensures Valid() && View().WellFormed() && View() == old(View()).EraseToEol()
    {
      ghost var s, b := screen[..], bgstar[..];
      hide Filled, Cleared, ClearEnd;
      SpaceRow(screen, cury, curx);
      ClearEndExact(cury + curx, 80 - curx);
      if bgflg != 0 {
        BgClearFrom(cury + curx, 80 - curx);
      } else {
        NoMarks();
        UnmarkedCleared(b, cury + curx, cury + 80);
      }
      EraseRow(s, b, bgstar[..], curx, cursy);
    }

    /** `erase_to_eos`. */
    method EraseToEos()
      requires Valid()
      modifies screen, bgstar
      ensures Valid() && View().WellFormed() && View() == old(View()).EraseToEos()
    {
      ghost var s, b := screen[..], bgstar[..];
      hide Filled, Cleared, ClearEnd;
      var pos := cury + curx;
      var count := CELLS - pos;
      ClearEndExact(pos, count);
      Fill(screen, pos, count, SPACE);
      if bgflg != 0 {
        BgClearFrom(pos, CELLS - pos);
      } else {
        NoMarks();
        UnmarkedCleared(b, pos, CELLS);
      }
      EraseRest(s, b, bgstar[..], curx, cursy);
    }

    /** ctrl-S. */
    method StartBackground()
      requires Valid()
      modifies this, bgstar
      ensures Valid() && old(View()).WellFormed() && View() == old(View()).StartBackground()
    {
      bgflg := 2;
      ghost var b := bgstar[..];
      Fill(bgstar, 0, MAP_BYTES, 0);
      assert bgstar[..] == seq(MAP_BYTES, _ => 0 as bv8);
      forall p | 0 <= p < CELLS
        ensures CellAt(screen[..], bgstar[..], p) == UnmarkCell(CellAt(screen[..], b, p))
      {
        ZeroHasNone(p % 8);
      }
      MappedCells(screen[..], b, screen[..], bgstar[..], UnmarkCell);
    }

    /** `clear_foreground`: walk the bitmap bit by bit beside the screen. */
    method ClearForeground()
      requires Valid()
      modifies screen
      ensures Valid() && old(View()).WellFormed() && View() == old(View()).ClearForeground()
    {
      ghost var s, b := screen[..], bgstar[..];
      var p := 0;
      for i := 0 to MAP_BYTES
        invariant p == 8 * i && Swept(s, b, screen[..], p)
      {
        p := SweepByte(s, p, i);
      }
      MappedCells(s, b, screen[..], b, BlankUnmarked);
    }

    /** The inner loop of `clear_foreground`: the eight positions of one bitmap byte. */
    method SweepByte(ghost s: seq<byte>, p0: nat, i: nat) returns (p: nat)
      requires Valid() && i < MAP_BYTES && p0 == 8 * i && Swept(s, bgstar[..], screen[..], p0)
      modifies screen
      ensures Valid() && p == 8 * i + 8 && Swept(s, bgstar[..], screen[..], p)
    {
      hide Swept, Mark;
      ghost var b, k := bgstar[..], 0;
      p := p0;
      var bits := bgstar[i];
      var mask: bv8 := 0x80;
      ShiftedBit(0);
      while mask != 0
        invariant Valid() && 0 <= k <= 8 && p == 8 * i + k
        invariant mask == if k < 8 then Bit(k) else 0
        invariant Swept(s, b, screen[..], p)
        decreases 8 - k
      {
        SweepStep(s, b, screen[..], i, k);
        if bits & mask == 0 {
          screen[p] := SPACE;
        }
        p := p + 1;
        ShiftedBit(k);
        mask := mask >> 1;
        k := k + 1;
        if k < 8 {
          ShiftedBit(k);
        }
      }
    }

    static lemma SweepStep(s: seq<byte>, b: seq<bv8>, s': seq<byte>, i: nat, k: nat)
      requires i < MAP_BYTES && k < 8 && Swept(s, b, s', 8 * i + k)
      ensures Swept(s, b, if b[i] & Bit(k) == 0 then s'[8 * i + k := SPACE] else s', 8 * i + k + 1)
    {
    }

    /** The positions below `p` have been through ctrl-U. */
    static ghost predicate Swept(s: seq<byte>, b: seq<bv8>, s': seq<byte>, p: nat) {
      Sized(s, b) && |s'| == CELLS && p <= CELLS
      && forall q :: 0 <= q < CELLS ==> s'[q] == if q < p && !Mark(b, q) then SPACE else s[q]
    }

    /** `bg_set_bit`. */
    method BgSetBit(pos: nat)
      requires Valid() && bgflg != 0 && pos < CELLS
      modifies bgstar
      ensures Valid()
      ensures forall p :: 0 <= p < CELLS ==> Mark(bgstar[..], p) == (Mark(old(bgstar[..]), p) || p == pos)
    {
      ghost var b := bgstar[..];
      var byteoff := pos / 8;
      ShiftedBit(pos % 8);
      bgstar[byteoff] := bgstar[byteoff] | ((0x80 as bv8) >> (pos % 8));
      forall p | 0 <= p < CELLS ensures Mark(bgstar[..], p) == (Mark(b, p) || p == pos) {
        SetBit(b[byteoff], pos % 8, p % 8);
      }
    }

    /** `displ`: convert, write, mark, move on. */
    method Displ()
      requires Valid() && 32 <= usession
      modifies this, screen, bgstar
      ensures Valid() && old(View()).WellFormed() && View() == Printed(Cfg(), old(View()), old(usession))
    {
      var ch := usession;
      locad := cury + curx;
      if ch >= 192 {
        ch := ch - 192;
      }
      if ch >= 128 {
        graph := ch / 4 % 2 == 1;
      } else if !graph {
        ch := outcon[ch];
      }
      WriteAt(ch);
      CursorRight();
    }

    /** Store `ch` at `locad`, marking the cell in background mode. */
    method WriteAt(ch: byte)
      requires Valid() && locad == cury + curx
      modifies screen, bgstar
      ensures Valid()
      ensures var g := old(View()).rows;
              View() == old(View()).(rows := g[cursy := g[cursy][curx := Cell(ch, g[cursy][curx].mark || bgflg == 2)]])
    {
      ghost var s, b := screen[..], bgstar[..];
      screen[locad] := ch;
      if bgflg == 2 {
        BgSetBit(locad);
      }
      WriteCell(s, b, bgstar[..], curx, cursy, ch, bgflg == 2);
    }

    static method ReduceColumn(v: nat) returns (r: nat)
      ensures r == v % 80
    {
      r := v;
      while r >= 80
        invariant r % 80 == v % 80
      {
        r := r - 80;
      }
    }

    static method ReduceRow(v: nat) returns (r: nat)
      ensures r == v % 25
    {
      r := v;
      while r >= 25
        invariant r % 25 == v % 25
      {
        r := r - 25;
      }
    }

    /** `xyadd`: a coordinate byte after ctrl-F, reduced by repeated subtraction. */
    method XyAdd()
      requires Valid() && xflg > 0
      modifies `xflg, `adr0, `curx, `cury, `cursy
      ensures Valid() && View() == Coordinates(Cfg(), old(View()), usession)
    {
      var val: byte := (usession % 128 + 224) % 256;
      xflg := xflg - 1;
      if xflg != 0 {
        adr0 := val;
        return;
      }
      var xVal, yVal: nat;
      if adrmod == 0 {
        xVal, yVal := adr0, val;
      } else {
        xVal, yVal := val, adr0;
      }
      xVal := ReduceColumn(xVal);
      yVal := ReduceRow(yVal);
      curx := xVal;
      cursy := yVal;
      cury := yVal * 80;
    }

    /** `specc`: the control bytes. */
    method Specc()
      requires Valid() && usession < 32 && xflg == 0
      modifies this, screen, bgstar
      ensures Valid() && old(View()).WellFormed() && View() == Control(old(View()), old(usession))
    {
      hide Grid;
      xflg := 0;
      if usession == 0x0D { curx := 0; return; }
      if usession == 0x0A { CursorDown(); return; }
      if usession == 0x06 { xflg := 2; Goto00(); return; }
      if usession == 0x08 { CursorLeft(); return; }
      if usession == 0x05 { CursorLeft(); return; }
      if usession == 0x09 { Tab(); return; }
      if usession == 0x18 { CursorRight(); return; }
      if usession == 0x1A { CursorUp(); return; }
      if usession == 0x0C { ClearScreen(); return; }
      if usession == 0x1D { Goto00(); return; }
      if usession == 0x1E { EraseToEol(); return; }
      if usession == 0x1F { EraseToEos(); return; }
      if usession == 0x01 { InsertLine(); return; }
      if usession == 0x02 { DeleteLine(); return; }
      if usession == 0x07 { return; }
      if usession == 0x13 { StartBackground(); return; }
      if usession == 0x14 { bgflg := 1; return; }
      if usession == 0x15 { ClearForeground(); return; }
    }

    /** CONOUT to the CRT: one byte does to the screen what it does to the grid. */
    method ConOut(c: byte)
      requires Valid()
      modifies this, screen, bgstar
      ensures Valid() && old(View()).WellFormed() && View() == Step(Cfg(), old(View()), c)
    {
      hide Grid;
      usession := c;
      if xflg != 0 {
        XyAdd();
      } else if usession < 32 {
        Specc();
      } else {
        Displ();
      }
    }

    /** Whole streams: whatever is printed, the flat screen, bitmap and cursor stay a faithful
        picture of the grid. */
    method Print(cs: seq<byte>)
      requires Valid()
      modifies this, screen, bgstar
      ensures Valid() && old(View()).WellFormed() && View() == Steps(Cfg(), old(View()), cs)
    {
      hide Grid, Step;
      ghost var t := View();
      assert t.WellFormed();
      for i := 0 to |cs|
        invariant Valid() && View() == Steps(Cfg(), t, cs[..i])
      {
        ConOut(cs[i]);
        StepsSnoc(Cfg(), t, cs[..i], cs[i]);
        assert cs[..i + 1] == cs[..i] + [cs[i]];
      }
      assert cs[..|cs|] == cs;
    }
  }
}
