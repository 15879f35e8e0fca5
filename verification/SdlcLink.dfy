/** The SDLC line from the sender's bytes to the receiver's: bit stuffing, flags, NRZI and a line
    that is sampled with less than half a cell of error per run (RFC 1662, sections 5.1 and 5.2). */
module SdlcLink {
  import opened SdlcReceiver
  import Crc

  // The sender.

  predicate Bit(b: bv8, k: nat)
    requires k < 8
  {
    (b >> k) & 1 == 1
  }

  function ByteBits(b: bv8): seq<bool> {
    [Bit(b, 0), Bit(b, 1), Bit(b, 2), Bit(b, 3), Bit(b, 4), Bit(b, 5), Bit(b, 6), Bit(b, 7)]
  }

  /** Least significant bit first. */
  function FrameBits(f: seq<bv8>): (r: seq<bool>)
    ensures |r| == 8 * |f|
  {
    if f == [] then [] else ByteBits(f[0]) + FrameBits(f[1..])
  }

  /** A 0 goes in after every five 1s; `ones` 1s have just been sent. */
  function Stuff(bits: seq<bool>, ones: nat): (r: seq<bool>)
    requires ones <= 5
    ensures |r| >= |bits|
    decreases |bits|, ones
  {
    if ones == 5 then [false] + Stuff(bits, 0)
    else if bits == [] then []
    else [bits[0]] + Stuff(bits[1..], if bits[0] then ones + 1 else 0)
  }

  function Flags(n: nat): (r: seq<bool>)
    ensures |r| == 8 * n
  {
    if n == 0 then [] else FLAG + Flags(n - 1)
  }

  /** A frame and the number of flags sent before it. */
  datatype Sent = Sent(flags: nat, frame: seq<bv8>)

  /** The bits on the line: flags and frames in turn, and `closing` flags at the end. */
  function LineBits(sent: seq<Sent>, closing: nat): seq<bool> {
    if sent == [] then Flags(closing)
    else Flags(sent[0].flags) + (Stuff(FrameBits(sent[0].frame), 0) + LineBits(sent[1..], closing))
  }

  /** At least two flags before each frame; frames of two bytes or more. */
  predicate WellSent(sent: seq<Sent>) {
    forall s <- sent :: s.flags >= 2 && |s.frame| >= 2
  }

  function Frames(sent: seq<Sent>): seq<seq<bv8>> {
    if sent == [] then [] else [sent[0].frame] + Frames(sent[1..])
  }

  /** NRZI: a 0 changes the level, a 1 keeps it. */
  function Encode(level: bool, bits: seq<bool>): (r: seq<bool>)
    ensures |r| == |bits|
    decreases |bits|
  {
    if bits == [] then []
    else
      var next := if bits[0] then level else !level;
      [next] + Encode(next, bits[1..])
  }

  // Runs of equal level.

  predicate Positive(ns: seq<nat>) { forall i :: 0 <= i < |ns| ==> ns[i] > 0 }

  predicate Bounded(ns: seq<nat>, limit: nat) { forall i :: 0 <= i < |ns| ==> ns[i] <= limit }

  /** Alternating runs of the given lengths. */
  function Expand(level: bool, runs: seq<nat>): seq<bool>
    decreases |runs|
  {
    if runs == [] then [] else Repeat(level, runs[0]) + Expand(!level, runs[1..])
  }

  predicate Close(run: nat, cells: nat, sps: real) {
    cells as real * sps - sps / 2.0 < run as real < cells as real * sps + sps / 2.0
  }

  /** The samples of a line that shows runs of `cells` cells: every run but the last is off by less
      than half a cell, the last may go on for any time. */
  predicate Sampled(samples: seq<nat>, cells: seq<nat>, sps: real) {
    |samples| == |cells| && Positive(samples) && Positive(cells)
    && forall i :: 0 <= i < |samples| - 1 ==> Close(samples[i], cells[i], sps)
  }

  /** Idle line at `level` for some samples, perhaps none, and then the runs. */
  function Line(level: bool, idle: nat, samples: seq<nat>): seq<bool> {
    Repeat(level, idle) + Expand(!level, samples)
  }

  // Stage 1: every run but the last comes back with its length in cells.

  lemma RoundNear(x: real, m: int)
    requires m as real - 0.5 < x < m as real + 0.5
    ensures Round(x) == m
  {
  }

  lemma CellsOfClose(run: nat, cells: nat, sps: real)
    requires sps > 0.0 && 1 <= cells <= MAX_RUN_BITS && Close(run, cells, sps)
    ensures Cells(run, sps) == cells
  {
    hide Round;
    Ratio(run as real, cells as real, sps);
    RoundNear(run as real / sps, cells);
  }

  lemma Product(a: real, b: real)
    requires a >= 0.0 && b > 0.0
    ensures a * b >= 0.0
  {
  }

  lemma Ratio(y: real, m: real, sps: real)
    requires sps > 0.0 && m * sps - sps / 2.0 < y < m * sps + sps / 2.0
    ensures m - 0.5 < y / sps < m + 0.5
  {
    var x := y / sps;
    assert x * sps == y;
    if x <= m - 0.5 {
      Product(m - 0.5 - x, sps);
    }
    if x >= m + 0.5 {
      Product(x - m - 0.5, sps);
    }
  }

  lemma {:induction false} QuantizeRun(prev: bool, run: nat, n: nat, rest: seq<bool>, sps: real)
    requires sps > 0.0
    ensures Quantize(prev, run, Repeat(prev, n) + rest, sps) == Quantize(prev, run + n, rest, sps)
    decreases n
  {
    var s := Repeat(prev, n) + rest;
    if n == 0 {
      assert s == rest;
    } else {
      assert s[0] == prev && s[1..] == Repeat(prev, n - 1) + rest;
      QuantizeRun(prev, run + 1, n - 1, rest, sps);
    }
  }

  /** The cells of all runs but the last, `run` samples of the first already counted. */
  function Quantized(samples: seq<nat>, sps: real): (r: seq<nat>)
    requires sps > 0.0
    decreases |samples|
  {
    if |samples| <= 1 then [] else [Cells(samples[0], sps)] + Quantized(samples[1..], sps)
  }

  lemma {:induction false} QuantizeExpand(level: bool, run: nat, samples: seq<nat>, sps: real)
    requires sps > 0.0 && samples != [] && Positive(samples) && run <= samples[0]
    ensures Quantize(level, run, Repeat(level, samples[0] - run) + Expand(!level, samples[1..]), sps)
         == Expand(level, Quantized(samples, sps))
    decreases |samples|
  {
    var rest := Expand(!level, samples[1..]);
    QuantizeRun(level, run, samples[0] - run, rest, sps);
    hide Quantize, Repeat, Cells;
    if |samples| == 1 {
      assert rest == [];
      QuantizeNothing(level, samples[0], sps);
    } else {
      var next := samples[1..];
      assert next[0] == samples[1];
      RepeatFirst(!level, next[0]);
      var more := Repeat(!level, next[0] - 1) + Expand(level, next[1..]);
      assert rest == [!level] + more;
      QuantizeTurn(level, samples[0], more, sps);
      QuantizeExpand(!level, 1, next, sps);
    }
  }

  lemma RepeatFirst(level: bool, n: nat)
    requires n > 0
    ensures Repeat(level, n) == [level] + Repeat(level, n - 1)
  {
  }

  lemma QuantizeNothing(prev: bool, run: nat, sps: real)
    requires sps > 0.0
    ensures Quantize(prev, run, [], sps) == []
  {
  }

  lemma QuantizeTurn(prev: bool, run: nat, rest: seq<bool>, sps: real)
    requires sps > 0.0
    ensures Quantize(prev, run, [!prev] + rest, sps) == Repeat(prev, Cells(run, sps)) + Quantize(!prev, 1, rest, sps)
  {
    hide Cells, Repeat;
    assert ([!prev] + rest)[1..] == rest;
  }

  lemma SampledTail(samples: seq<nat>, cells: seq<nat>, sps: real)
    requires samples != [] && Sampled(samples, cells, sps)
    ensures Sampled(samples[1..], cells[1..], sps)
  {
    hide Close;
    forall i | 0 <= i < |samples[1..]| - 1 ensures Close(samples[1..][i], cells[1..][i], sps) {
      assert Close(samples[i + 1], cells[i + 1], sps);
    }
  }

  lemma {:induction false} QuantizedClose(samples: seq<nat>, cells: seq<nat>, sps: real)
    requires sps > 0.0 && samples != [] && Sampled(samples, cells, sps)
    requires Bounded(cells, MAX_RUN_BITS)
    ensures Quantized(samples, sps) == cells[..|cells| - 1]
    decreases |samples|
  {
    hide Cells;
    if |samples| > 1 {
      SampledTail(samples, cells, sps);
      assert Close(samples[0], cells[0], sps);
      hide Close;
      QuantizedClose(samples[1..], cells[1..], sps);
      CellsOfClose(samples[0], cells[0], sps);
      assert cells[..|cells| - 1] == [cells[0]] + cells[1..][..|cells| - 2];
    }
  }

  /** The cells the receiver sees of a line: some of the idle level, and every run but the last. */
  lemma CellsOfLine(level: bool, idle: nat, samples: seq<nat>, cells: seq<nat>, sps: real) returns (k: nat)
    requires sps > 0.0 && samples != [] && Sampled(samples, cells, sps)
    requires Bounded(cells, MAX_RUN_BITS)
    ensures k <= MAX_RUN_BITS && (k == 0 <==> idle == 0)
    ensures LineCells(Line(level, idle, samples), sps) == Repeat(level, k) + Expand(!level, cells[..|cells| - 1])
  {
    QuantizedClose(samples, cells, sps);
    hide Cells, Quantize, Quantized, Repeat;
    if idle == 0 {
      k := 0;
      NoRepeat(level);
      LineOfRuns(!level, samples, sps);
    } else {
      k := Cells(idle, sps);
      assert ([idle] + samples)[1..] == samples;
      LineOfRuns(level, [idle] + samples, sps);
      QuantizedFirst(idle, samples, sps);
    }
  }

  lemma NoRepeat(level: bool)
    ensures forall s :: Repeat(level, 0) + s == s
  {
  }

  lemma LineOfRuns(first: bool, runs: seq<nat>, sps: real)
    requires sps > 0.0 && runs != [] && Positive(runs)
    ensures LineCells(Expand(first, runs), sps) == Expand(first, Quantized(runs, sps))
  {
    hide Cells, Quantize, Quantized, Repeat;
    RepeatFirst(first, runs[0]);
    assert Expand(first, runs)[0] == first;
    QuantizeExpand(first, 0, runs, sps);
  }

  lemma QuantizedFirst(idle: nat, samples: seq<nat>, sps: real)
    requires sps > 0.0 && samples != []
    ensures Quantized([idle] + samples, sps) == [Cells(idle, sps)] + Quantized(samples, sps)
    ensures forall level :: Expand(level, [Cells(idle, sps)] + Quantized(samples, sps))
                         == Repeat(level, Cells(idle, sps)) + Expand(!level, Quantized(samples, sps))
  {
    hide Cells;
    assert ([idle] + samples)[1..] == samples;
    assert ([Cells(idle, sps)] + Quantized(samples, sps))[1..] == Quantized(samples, sps);
  }

  /** Every line is made of runs: `n` cells at `level`, then the encoded bits. */
  lemma {:induction false} RunsExist(level: bool, n: nat, bits: seq<bool>) returns (cells: seq<nat>)
    requires n > 0
    ensures Positive(cells) && Expand(level, cells) == Repeat(level, n) + Encode(level, bits)
    decreases |bits|
  {
    if bits == [] {
      cells := [n];
      assert Expand(level, cells) == Repeat(level, n) + Expand(!level, cells[1..]);
    } else if bits[0] {
      cells := RunsExist(level, n + 1, bits[1..]);
      RepeatLast(level, n);
      assert Repeat(level, n) + Encode(level, bits) == Repeat(level, n) + [level] + Encode(level, bits[1..]);
    } else {
      var rest := RunsExist(!level, 1, bits[1..]);
      cells := [n] + rest;
      assert cells[1..] == rest;
      assert Repeat(!level, 1) == [!level];
    }
  }

  // Stage 2: decoding the cells gives back the bits, whatever the level the line started at.

  lemma {:induction false} DecodeEncode(level: bool, bits: seq<bool>)
    ensures Decode(level, Encode(level, bits)) == bits
    decreases |bits|
  {
    if bits != [] {
      var next := if bits[0] then level else !level;
      assert Encode(level, bits)[1..] == Encode(next, bits[1..]);
      DecodeEncode(next, bits[1..]);
      assert bits == [bits[0]] + bits[1..];
    }
  }

  lemma {:induction false} DecodeRepeat(prev: bool, level: bool, k: nat, cells: seq<bool>)
    requires k > 0
    ensures Decode(prev, Repeat(level, k) + cells) == [prev == level] + Repeat(true, k - 1) + Decode(level, cells)
    decreases k
  {
    var s := Repeat(level, k) + cells;
    assert s[0] == level && s[1..] == Repeat(level, k - 1) + cells;
    if k == 1 {
      assert s[1..] == cells;
    } else {
      DecodeRepeat(level, level, k - 1, cells);
      assert Repeat(true, k - 1) == [true] + Repeat(true, k - 2);
    }
  }

  /** A run at the level before it is a run of 1s. */
  lemma {:induction false} RunHead(level: bool, m: nat, rest: seq<bool>, bits: seq<bool>)
    requires Repeat(level, m) + rest == Encode(level, bits)
    ensures m <= |bits| && bits[..m] == Repeat(true, m) && rest == Encode(level, bits[m..])
    decreases m
  {
    if m == 0 {
      assert Repeat(level, m) + rest == rest && bits[0..] == bits;
    } else {
      RepeatFirst(level, m);
      RepeatFirst(true, m);
      var cells := Encode(level, bits);
      assert |cells| == |bits| > 0;
      assert cells[0] == level && cells[1..] == Repeat(level, m - 1) + rest;
      assert bits[0] && cells[1..] == Encode(level, bits[1..]);
      RunHead(level, m - 1, rest, bits[1..]);
      assert bits[..m] == [true] + bits[1..][..m - 1];
      assert bits[1..][m - 1..] == bits[m..];
    }
  }

  /** No more than `limit` 1s in a row, `ones` of them before `s`. */
  predicate RunOk(s: seq<bool>, ones: nat, limit: nat)
    decreases |s|
  {
    if s == [] then ones <= limit
    else if s[0] then RunOk(s[1..], ones + 1, limit)
    else ones <= limit && RunOk(s[1..], 0, limit)
  }

  lemma {:induction false} RunOkOnes(m: nat, rest: seq<bool>, ones: nat, limit: nat)
    requires RunOk(Repeat(true, m) + rest, ones, limit)
    ensures RunOk(rest, ones + m, limit) && ones + m <= limit
    decreases m
  {
    if m == 0 {
      assert Repeat(true, m) + rest == rest;
      RunOkNow(rest, ones, limit);
    } else {
      RepeatFirst(true, m);
      assert (Repeat(true, m) + rest)[1..] == Repeat(true, m - 1) + rest;
      RunOkOnes(m - 1, rest, ones + 1, limit);
    }
  }

  lemma {:induction false} RunOkNow(s: seq<bool>, ones: nat, limit: nat)
    requires RunOk(s, ones, limit)
    ensures ones <= limit
    decreases |s|
  {
    if s != [] && s[0] {
      RunOkNow(s[1..], ones + 1, limit);
    }
  }

  /** The runs of an encoded line: a 0 and the 1s after it. */
  lemma FirstRun(level: bool, cells: seq<nat>, bits: seq<bool>)
    requires cells != [] && Positive(cells) && Expand(!level, cells) == Encode(level, bits)
    ensures cells[0] <= |bits| && bits[..cells[0]] == [false] + Repeat(true, cells[0] - 1)
    ensures Expand(level, cells[1..]) == Encode(!level, bits[cells[0]..])
  {
    var m, rest := cells[0], Expand(level, cells[1..]);
    RepeatFirst(!level, m);
    var more := Repeat(!level, m - 1) + rest;
    assert Expand(!level, cells) == [!level] + more;
    hide Repeat, Expand, Encode;
    EncodeTurn(level, bits, more);
    RunHead(!level, m - 1, rest, bits[1..]);
    CutHead(bits, m);
  }

  lemma CutHead(bits: seq<bool>, m: nat)
    requires 0 < m <= |bits|
    ensures bits[..m] == [bits[0]] + bits[1..][..m - 1] && bits[1..][m - 1..] == bits[m..]
  {
  }

  lemma EncodeTurn(level: bool, bits: seq<bool>, more: seq<bool>)
    requires Encode(level, bits) == [!level] + more
    ensures bits != [] && !bits[0] && more == Encode(!level, bits[1..])
  {
    var line := Encode(level, bits);
    assert |line| == |bits| && line[0] == !level && line[1..] == more;
  }

  /** Runs of a line with at most `limit` 1s in a row are at most one cell longer. */
  lemma {:induction false} RunsBounded(level: bool, cells: seq<nat>, bits: seq<bool>, ones: nat, limit: nat)
    requires Positive(cells) && Expand(!level, cells) == Encode(level, bits) && RunOk(bits, ones, limit)
    ensures Bounded(cells, limit + 1)
    decreases |cells|
  {
    if cells != [] {
      FirstRun(level, cells, bits);
      var m := cells[0];
      assert bits == [false] + (Repeat(true, m - 1) + bits[m..]);
      assert bits[1..] == Repeat(true, m - 1) + bits[m..];
      RunOkOnes(m - 1, bits[m..], 0, limit);
      RunsBounded(!level, cells[1..], bits[m..], m - 1, limit);
      assert cells == [cells[0]] + cells[1..];
    }
  }

  /** A line that ends in a 0 ends in a run of one cell. */
  lemma {:induction false} LastRun(level: bool, cells: seq<nat>, bits: seq<bool>)
    requires cells != [] && Positive(cells) && Expand(!level, cells) == Encode(level, bits)
    requires bits != [] && !bits[|bits| - 1]
    ensures Expand(!level, cells[..|cells| - 1]) == Encode(level, bits)[..|bits| - 1]
    decreases |cells|
  {
    FirstRun(level, cells, bits);
    var m := cells[0];
    var line := Encode(level, bits);
    if |cells| == 1 {
      assert Expand(level, cells[1..]) == [];
      assert |bits| == m;
      assert bits == [false] + Repeat(true, m - 1);
      AllSame(true, m - 1);
      assert cells[..0] == [];
    } else {
      var rest := Encode(!level, bits[m..]);
      assert rest != [] by {
        RepeatFirst(level, cells[1]);
        assert cells[1..][0] == cells[1];
      }
      LastRun(!level, cells[1..], bits[m..]);
      assert cells[..|cells| - 1][1..] == cells[1..][..|cells| - 2];
      assert line == Repeat(!level, m) + rest;
      assert line[..|bits| - 1] == Repeat(!level, m) + rest[..|rest| - 1];
    }
  }

  lemma {:induction false} AllSame(level: bool, n: nat)
    ensures forall i :: 0 <= i < n ==> Repeat(level, n)[i] == level
  {
    if n > 0 {
      AllSame(level, n - 1);
    }
  }

  lemma {:induction false} EncodePrefix(level: bool, bits: seq<bool>, n: nat)
    requires n <= |bits|
    ensures Encode(level, bits)[..n] == Encode(level, bits[..n])
    decreases n
  {
    if n > 0 {
      var next := if bits[0] then level else !level;
      EncodePrefix(next, bits[1..], n - 1);
      assert bits[..n][1..] == bits[1..][..n - 1];
      assert Encode(level, bits)[..n] == [next] + Encode(next, bits[1..])[..n - 1];
    }
  }

  /** What is decoded before the bits of the line proper. */
  function Lead(level: bool, k: nat, bits: seq<bool>): seq<bool> {
    if k > 0 then [level] + Repeat(true, k - 1) + bits
    else if level || bits == [] then bits
    else [true] + bits[1..]
  }

  lemma DecodeLine(level: bool, k: nat, bits: seq<bool>)
    requires bits == [] || !bits[0]
    ensures Decode(true, Repeat(level, k) + Encode(level, bits)) == Lead(level, k, bits)
  {
    var cells := Encode(level, bits);
    DecodeEncode(level, bits);
    if k > 0 {
      DecodeRepeat(true, level, k, cells);
      assert (true == level) == level;
    } else {
      assert Repeat(level, k) + cells == cells;
      if !level && bits != [] {
        DecodeEncode(true, bits[1..]);
        assert cells[1..] == Encode(true, bits[1..]);
      }
    }
  }

  // Stage 3: stuffed frames have at most five 1s in a row, lines at most six.

  lemma {:induction false} StuffedOk(bits: seq<bool>, ones: nat)
    requires ones <= 5
    ensures RunOk(Stuff(bits, ones), ones, 5)
    decreases |bits|, ones
  {
    var s := Stuff(bits, ones);
    if ones == 5 {
      StuffedOk(bits, 0);
      assert s[1..] == Stuff(bits, 0);
    } else if bits != [] {
      StuffedOk(bits[1..], if bits[0] then ones + 1 else 0);
      assert s[1..] == Stuff(bits[1..], if bits[0] then ones + 1 else 0);
    }
  }

  /** A 0 starts the count again. */
  lemma {:induction false} RunOkJoin(a: seq<bool>, b: seq<bool>, ones: nat, limit: nat, more: nat)
    requires RunOk(a, ones, limit) && RunOk(b, 0, more) && limit <= more && (b == [] || !b[0])
    ensures RunOk(a + b, ones, more)
    decreases |a|
  {
    if a == [] {
      assert a + b == b;
    } else {
      assert (a + b)[1..] == a[1..] + b;
      RunOkJoin(a[1..], b, if a[0] then ones + 1 else 0, limit, more);
      RunOkNow(a, ones, limit);
    }
  }

  lemma {:induction false} OnesOk(m: nat, rest: seq<bool>, ones: nat, limit: nat)
    requires RunOk(rest, ones + m, limit)
    ensures RunOk(Repeat(true, m) + rest, ones, limit)
    decreases m
  {
    if m == 0 {
      assert Repeat(true, m) + rest == rest;
    } else {
      RepeatFirst(true, m);
      assert (Repeat(true, m) + rest)[1..] == Repeat(true, m - 1) + rest;
      OnesOk(m - 1, rest, ones + 1, limit);
    }
  }

  lemma ZeroOk(s: seq<bool>, ones: nat, limit: nat)
    requires ones <= limit && RunOk(s, 0, limit)
    ensures RunOk([false] + s, ones, limit)
  {
    assert ([false] + s)[1..] == s;
  }

  lemma FlagParts(s: seq<bool>)
    ensures FLAG + s == [false] + (Repeat(true, 6) + ([false] + s))
  {
    assert Repeat(true, 6) == [true, true, true, true, true, true] by {
      assert Repeat(true, 3) == [true, true, true];
      assert Repeat(true, 6) == [true, true, true] + Repeat(true, 3);
    }
  }

  lemma FlagThen(s: seq<bool>)
    requires RunOk(s, 0, 6)
    ensures RunOk(FLAG + s, 0, 6)
  {
    hide RunOk, Repeat;
    ZeroOk(s, 6, 6);
    OnesOk(6, [false] + s, 0, 6);
    ZeroOk(Repeat(true, 6) + ([false] + s), 0, 6);
    FlagParts(s);
  }

  lemma {:induction false} FlagsThen(n: nat, s: seq<bool>)
    requires RunOk(s, 0, 6)
    ensures RunOk(Flags(n) + s, 0, 6)
    ensures n > 0 ==> !(Flags(n) + s)[0]
    decreases n
  {
    hide RunOk;
    if n == 0 {
      assert Flags(n) + s == s;
    } else {
      FlagsThen(n - 1, s);
      FlagThen(Flags(n - 1) + s);
      assert Flags(n) + s == FLAG + (Flags(n - 1) + s);
    }
  }

  lemma {:induction false} LineOk(sent: seq<Sent>, closing: nat)
    requires WellSent(sent)
    ensures RunOk(LineBits(sent, closing), 0, 6)
    ensures LineBits(sent, closing) == [] || !LineBits(sent, closing)[0]
    decreases |sent|
  {
    if sent == [] {
      FlagsThen(closing, []);
      assert Flags(closing) + [] == Flags(closing);
    } else {
      hide RunOk, Stuff;
      var rest := LineBits(sent[1..], closing);
      var body := Stuff(FrameBits(sent[0].frame), 0);
      LineOk(sent[1..], closing);
      StuffedOk(FrameBits(sent[0].frame), 0);
      RunOkJoin(body, rest, 0, 5, 6);
      var n := sent[0].flags;
      FlagsThen(n, body + rest);
    }
  }

  // Stage 4: the hunt finds the frames.

  const FLAG_HEAD: seq<bool> := [false, true, true, true, true, true, true]

  /** Zero deletion undoes stuffing, and the flag after the frame leaves one 0 behind. */
  lemma {:induction false} Destuffed(bits: seq<bool>, ones: nat, frame: seq<bool>, tail: seq<bool>)
    requires ones <= 5 && ones <= |frame|
    ensures Accumulate(Stuff(bits, ones) + FLAG_HEAD + tail, frame, ones) == (frame + bits + [false], [true] + tail)
    decreases |bits|, ones
  {
    var s := Stuff(bits, ones) + FLAG_HEAD + tail;
    if ones == 5 {
      assert s[1..] == Stuff(bits, 0) + FLAG_HEAD + tail;
      Destuffed(bits, 0, frame, tail);
    } else if bits == [] {
      assert s == FLAG_HEAD + tail;
      assert frame + bits + [false] == frame + [false];
      assert s[1..] == Repeat(true, 5) + ([true] + tail) by { FiveOnes(tail); }
      FlagEnds(5, frame + [false], tail);
      assert frame + [false] + Repeat(true, 5 - 5) == frame + [false];
    } else {
      var ones' := if bits[0] then ones + 1 else 0;
      assert s[1..] == Stuff(bits[1..], ones') + FLAG_HEAD + tail;
      Destuffed(bits[1..], ones', frame + [bits[0]], tail);
      assert frame + [bits[0]] + bits[1..] == frame + bits;
    }
  }

  lemma FiveOnes(tail: seq<bool>)
    ensures Repeat(true, 5) == [true, true, true, true, true]
    ensures Repeat(true, 6) == [true, true, true, true, true, true]
    ensures ([false, true, true, true, true, true, true] + tail)[1..] == Repeat(true, 5) + ([true] + tail)
  {
    assert Repeat(true, 2) == [true, true];
    assert Repeat(true, 4) == [true, true] + Repeat(true, 2);
    assert Repeat(true, 5) == [true] + Repeat(true, 4);
    assert Repeat(true, 6) == [true] + Repeat(true, 5);
  }

  /** `5 - n` 1s have been collected, and a sixth will come. */
  lemma {:induction false} FlagEnds(n: nat, frame: seq<bool>, tail: seq<bool>)
    requires n <= 5
    ensures 5 - n <= |frame + Repeat(true, 5 - n)|
    ensures Accumulate(Repeat(true, n) + ([true] + tail), frame + Repeat(true, 5 - n), 5 - n) == (frame, [true] + tail)
    decreases n
  {
    var s := Repeat(true, n) + ([true] + tail);
    if n == 0 {
      assert s == [true] + tail;
      assert (frame + Repeat(true, 5))[..|frame|] == frame;
    } else {
      RepeatFirst(true, n);
      assert s[1..] == Repeat(true, n - 1) + ([true] + tail);
      FlagEnds(n - 1, frame, tail);
      RepeatLast(true, 5 - n);
      assert frame + Repeat(true, 5 - n) + [true] == frame + Repeat(true, 6 - n);
    }
  }

  lemma {:induction false} RepeatLast(level: bool, n: nat)
    ensures Repeat(level, n) + [level] == Repeat(level, n + 1)
  {
    if n > 0 {
      RepeatLast(level, n - 1);
      assert Repeat(level, n) + [level] == [level] + (Repeat(level, n - 1) + [level]);
    }
  }

  /** Stuffed bits are never mistaken for a flag. */
  lemma NoFlagInside(bits: seq<bool>, tail: seq<bool>)
    requires |bits| >= 8
    ensures !AtFlag(Stuff(bits, 0) + tail)
  {
    var s := Stuff(bits, 0);
    StuffedOk(bits, 0);
    if AtFlag(s + tail) {
      hide Stuff, RunOk;
      assert AtFlag(s) by { SameStart(s, tail); }
      hide AtFlag;
      SixOnes(s);
      ZeroDropped(Repeat(true, 6) + s[7..], 5);
      RunOkOnes(6, s[7..], 0, 5);
    }
  }

  lemma SameStart(s: seq<bool>, tail: seq<bool>)
    requires |s| >= 8
    ensures AtFlag(s + tail) <==> AtFlag(s)
  {
  }

  lemma SixOnes(s: seq<bool>)
    requires AtFlag(s)
    ensures s == [false] + (Repeat(true, 6) + s[7..])
  {
    FiveOnes([]);
    assert s == [s[0], s[1], s[2], s[3], s[4], s[5], s[6]] + s[7..];
  }

  lemma ZeroDropped(s: seq<bool>, limit: nat)
    requires RunOk([false] + s, 0, limit)
    ensures RunOk(s, 0, limit)
  {
    assert ([false] + s)[1..] == s;
  }

  lemma {:induction false} SkipAll(n: nat, s: seq<bool>)
    requires !AtFlag(s)
    ensures SkipFlags(Flags(n) + s) == s
  {
    if n == 0 {
      assert Flags(n) + s == s;
    } else {
      SkipAll(n - 1, s);
      assert (Flags(n) + s)[8..] == Flags(n - 1) + s;
    }
  }

  /** One frame is found between its flags. */
  lemma HuntFrame(n: nat, bits: seq<bool>, tail: seq<bool>)
    requires n > 0 && |bits| >= 8
    ensures Hunt(Flags(n) + (Stuff(bits, 0) + FLAG_HEAD + tail)) == [bits + [false]] + Hunt([true] + tail)
  {
    var body := Stuff(bits, 0) + FLAG_HEAD + tail;
    var s := Flags(n) + body;
    NoFlagInside(bits, FLAG_HEAD + tail);
    assert body == Stuff(bits, 0) + (FLAG_HEAD + tail);
    SkipAll(n, body);
    Destuffed(bits, 0, [], tail);
    assert [] + bits + [false] == bits + [false];
    assert AtFlag(s);
    hide Accumulate, SkipFlags, AtFlag, Stuff;
    assert |s| > 8;
  }

  /** The end of a closing flag and the flags behind it lead to the next frame. */
  lemma HuntOn(n: nat, s: seq<bool>)
    requires n > 0
    ensures Hunt([true, false] + (Flags(n) + s)) == Hunt(Flags(n) + s)
  {
    var next := Flags(n) + s;
    var t := [true, false] + next;
    assert t[1..] == [false] + next;
    assert t[1..][1..] == next;
    assert !AtFlag(t) && !AtFlag(t[1..]) by {
      assert t[2] == next[0] == false;
    }
  }

  /** 1s before a flag are passed over. */
  lemma {:induction false} HuntOnes(k: nat, s: seq<bool>)
    requires |s| >= 8
    ensures Hunt(Repeat(true, k) + s) == Hunt(s)
  {
    if k == 0 {
      assert Repeat(true, k) + s == s;
    } else {
      RepeatFirst(true, k);
      HuntOnes(k - 1, s);
      assert (Repeat(true, k) + s)[1..] == Repeat(true, k - 1) + s;
    }
  }

  // Stage 5: the whole line.

  /** The bits of a line up to and including the first seven of the flag behind the last frame, and
      `after` behind those. */
  function Upto(sent: seq<Sent>, after: seq<bool>): seq<bool> {
    if sent == [] then FLAG_HEAD + after
    else Flags(sent[0].flags) + (Stuff(FrameBits(sent[0].frame), 0) + Upto(sent[1..], after))
  }

  /** Nothing of two bytes is found behind the last frame. */
  predicate Quiet(after: seq<bool>) { Messages(Hunt([true] + after)) == [] }

  lemma FlagsHead(n: nat, rest: seq<bool>)
    requires n > 0
    ensures Flags(n) + rest == FLAG_HEAD + ([false] + (Flags(n - 1) + rest))
  {
    var more := Flags(n - 1);
    assert Flags(n) == FLAG + more;
    assert FLAG == FLAG_HEAD + [false];
    hide *;
    assert (FLAG_HEAD + [false]) + more + rest == FLAG_HEAD + ([false] + (more + rest));
  }

  /** A line followed by `rest`. */
  lemma {:induction false} LineIsUpto(sent: seq<Sent>, closing: nat, rest: seq<bool>)
    requires closing > 0
    ensures LineBits(sent, closing) + rest == Upto(sent, [false] + (Flags(closing - 1) + rest))
    decreases |sent|
  {
    hide Flags, Stuff;
    if sent == [] {
      FlagsHead(closing, rest);
    } else {
      LineIsUpto(sent[1..], closing, rest);
      Regroup(Flags(sent[0].flags), Stuff(FrameBits(sent[0].frame), 0), LineBits(sent[1..], closing), rest);
    }
  }

  /** What follows the last frame's first seven flag bits when the last bit of the line is missing. */
  function CutAfter(closing: nat): seq<bool>
    requires closing > 0
  {
    if closing == 1 then [] else [false] + (Flags(closing - 2) + FLAG_HEAD)
  }

  lemma {:induction false} FlagsCut(n: nat)
    ensures Flags(n) + FLAG_HEAD + [false] == Flags(n + 1)
  {
    if n == 0 {
      assert Flags(1) == FLAG + Flags(0);
    } else {
      FlagsCut(n - 1);
      assert FLAG + (Flags(n - 1) + FLAG_HEAD + [false]) == Flags(n) + FLAG_HEAD + [false];
    }
  }

  lemma CutIsHead(closing: nat)
    requires closing > 0
    ensures Flags(closing) == FLAG_HEAD + CutAfter(closing) + [false]
  {
    if closing == 1 {
      FlagsCut(0);
    } else {
      hide Flags;
      FlagsHead(closing - 1, FLAG_HEAD);
      FlagsCut(closing - 1);
    }
  }

  lemma {:induction false} CutIsUpto(sent: seq<Sent>, closing: nat)
    requires closing > 0
    ensures LineBits(sent, closing) == Upto(sent, CutAfter(closing)) + [false]
    decreases |sent|
  {
    hide Flags, Stuff, CutAfter;
    if sent == [] {
      CutIsHead(closing);
    } else {
      CutIsUpto(sent[1..], closing);
      Regroup(Flags(sent[0].flags), Stuff(FrameBits(sent[0].frame), 0), Upto(sent[1..], CutAfter(closing)), [false]);
    }
  }

  lemma Regroup(a: seq<bool>, b: seq<bool>, c: seq<bool>, d: seq<bool>)
    ensures a + (b + (c + d)) == a + (b + c) + d
  {
  }

  /** What follows a frame begins with a flag, whole or cut. */
  function AfterHead(sent: seq<Sent>, after: seq<bool>): seq<bool> {
    if sent == [] then after
    else if sent[0].flags == 0 then []
    else [false] + Upto(Less(sent), after)
  }

  lemma StartsWithHead(sent: seq<Sent>, after: seq<bool>)
    requires sent == [] || sent[0].flags > 0
    ensures Upto(sent, after) == FLAG_HEAD + AfterHead(sent, after)
  {
    if sent != [] {
      var n, rest := sent[0].flags, Stuff(FrameBits(sent[0].frame), 0) + Upto(sent[1..], after);
      UptoLess(sent, after, rest);
      hide *;
      FlagsHead(n, rest);
    }
  }

  lemma UptoLess(sent: seq<Sent>, after: seq<bool>, rest: seq<bool>)
    requires sent != [] && sent[0].flags > 0
    requires rest == Stuff(FrameBits(sent[0].frame), 0) + Upto(sent[1..], after)
    ensures Upto(sent, after) == Flags(sent[0].flags) + rest
    ensures AfterHead(sent, after) == [false] + (Flags(sent[0].flags - 1) + rest)
  {
    hide Stuff, FrameBits, Flags;
    assert Less(sent)[1..] == sent[1..];
  }

  function Weight(on: bool): bv8 { if on then 1 else 0 }

  lemma ByteBack(b: bv8, rest: seq<bool>)
    ensures ByteOf(ByteBits(b) + rest, 8) == b
  {
    var s := ByteBits(b) + rest;
    assert s[0] == Bit(b, 0) && s[1] == Bit(b, 1) && s[2] == Bit(b, 2) && s[3] == Bit(b, 3);
    assert s[4] == Bit(b, 4) && s[5] == Bit(b, 5) && s[6] == Bit(b, 6) && s[7] == Bit(b, 7);
    hide *;
    EightBits(s);
    BitsOfByte(b);
  }

  function Four(a: bool, b: bool, c: bool, d: bool): bv8 {
    Weight(a) | (Weight(b) << 1) | (Weight(c) << 2) | (Weight(d) << 3)
  }

  function Eight(low: bv8, a: bool, b: bool, c: bool, d: bool): bv8 {
    low | (Weight(a) << 4) | (Weight(b) << 5) | (Weight(c) << 6) | (Weight(d) << 7)
  }

  lemma EightBits(s: seq<bool>)
    requires |s| >= 8
    ensures ByteOf(s, 8) == Eight(Four(s[0], s[1], s[2], s[3]), s[4], s[5], s[6], s[7])
  {
    FirstFour(s);
    LastFour(s);
  }

  lemma FirstFour(s: seq<bool>)
    requires |s| >= 8
    ensures ByteOf(s, 4) == Four(s[0], s[1], s[2], s[3])
  {
    assert ByteOf(s, 1) == ByteOf(s, 0) | Weight(s[0]) << 0 == Weight(s[0]);
    assert ByteOf(s, 2) == ByteOf(s, 1) | (Weight(s[1]) << 1);
    assert ByteOf(s, 3) == ByteOf(s, 2) | (Weight(s[2]) << 2);
    assert ByteOf(s, 4) == ByteOf(s, 3) | (Weight(s[3]) << 3);
  }

  lemma LastFour(s: seq<bool>)
    requires |s| >= 8
    ensures ByteOf(s, 8) == Eight(ByteOf(s, 4), s[4], s[5], s[6], s[7])
  {
    assert ByteOf(s, 5) == ByteOf(s, 4) | (Weight(s[4]) << 4);
    assert ByteOf(s, 6) == ByteOf(s, 5) | (Weight(s[5]) << 5);
    assert ByteOf(s, 7) == ByteOf(s, 6) | (Weight(s[6]) << 6);
    assert ByteOf(s, 8) == ByteOf(s, 7) | (Weight(s[7]) << 7);
  }

  lemma BitsOfByte(b: bv8)
    ensures Eight(Four(Bit(b, 0), Bit(b, 1), Bit(b, 2), Bit(b, 3)), Bit(b, 4), Bit(b, 5), Bit(b, 6), Bit(b, 7)) == b
  {
  }

  /** A frame's bits with one more behind them are its bytes. */
  lemma {:induction false} BytesBack(f: seq<bv8>, last: bool)
    ensures Bytes(FrameBits(f) + [last]) == f
  {
    var s := FrameBits(f) + [last];
    if f != [] {
      hide ByteOf, ByteBits;
      BytesBack(f[1..], last);
      assert s == ByteBits(f[0]) + (FrameBits(f[1..]) + [last]);
      ByteBack(f[0], FrameBits(f[1..]) + [last]);
      assert |ByteBits(f[0])| == 8;
      assert s[8..] == FrameBits(f[1..]) + [last];
      assert f == [f[0]] + f[1..];
    }
  }

  /** From the first flag on, the hunt finds the frames and nothing else of two bytes. */
  lemma {:induction false} HuntLine(sent: seq<Sent>, after: seq<bool>)
    requires sent != [] && sent[0].flags > 0 && |sent[0].frame| >= 2 && WellSent(sent[1..]) && Quiet(after)
    ensures Messages(Hunt(Upto(sent, after))) == Frames(sent)
    decreases |sent|
  {
    var n, f, rest := sent[0].flags, sent[0].frame, sent[1..];
    var tail := AfterHead(rest, after);
    var bits := FrameBits(f);
    StartsWithHead(rest, after);
    assert Upto(sent, after) == Flags(n) + (Stuff(bits, 0) + FLAG_HEAD + tail) by {
      hide Stuff, FrameBits, Flags, AfterHead;
      assert Upto(sent, after) == Flags(n) + (Stuff(bits, 0) + Upto(rest, after));
      assert Stuff(bits, 0) + (FLAG_HEAD + tail) == Stuff(bits, 0) + FLAG_HEAD + tail;
    }
    HuntFrame(n, bits, tail);
    if rest != [] {
      HuntNext(rest, after);
      var less := Less(rest);
      assert less[1..] == rest[1..];
      HuntLine(less, after);
      assert Frames(less) == Frames(rest);
    }
    BytesBack(f, false);
    FirstMessage(f, bits + [false], Hunt([true] + tail));
  }

  /** The same frames with one flag fewer in front. */
  function Less(sent: seq<Sent>): seq<Sent>
    requires sent != [] && sent[0].flags > 0
  {
    [Sent(sent[0].flags - 1, sent[0].frame)] + sent[1..]
  }

  lemma FirstMessage(f: seq<bv8>, bits: seq<bool>, more: seq<seq<bool>>)
    requires Bytes(bits) == f && |f| >= 2
    ensures Messages([bits] + more) == [f] + Messages(more)
  {
    hide Bytes;
    assert ([bits] + more)[1..] == more;
  }

  /** Behind a frame's closing flag, when another frame follows. */
  lemma HuntNext(rest: seq<Sent>, after: seq<bool>)
    requires rest != [] && rest[0].flags >= 2
    ensures Hunt([true] + AfterHead(rest, after)) == Hunt(Upto(Less(rest), after))
  {
    var line := Upto(Less(rest), after);
    var n := rest[0].flags - 1;
    var more := Stuff(FrameBits(rest[0].frame), 0) + Upto(rest[1..], after);
    assert line == Flags(n) + more by {
      assert Less(rest)[1..] == rest[1..];
      hide Flags, Stuff, FrameBits;
    }
    assert AfterHead(rest, after) == [false] + line;
    hide *;
    assert [true] + ([false] + line) == [true, false] + line;
    HuntOn(n, more);
  }

  /** Behind the last frame's closing flag, the last bit cut. */
  lemma CutQuiet(closing: nat)
    requires closing > 0
    ensures Quiet(CutAfter(closing))
  {
    if closing > 2 {
      hide Hunt, Flags;
      assert [true] + CutAfter(closing) == [true, false] + (Flags(closing - 2) + FLAG_HEAD);
      HuntOn(closing - 2, FLAG_HEAD);
      OnlyFlags(closing - 2);
    } else if closing == 2 {
      assert Flags(0) + FLAG_HEAD == FLAG_HEAD;
      assert [true] + CutAfter(closing) == [true, false] + FLAG_HEAD;
      TooShort([true, false] + FLAG_HEAD);
    } else {
      assert [true] + CutAfter(closing) == [true];
    }
  }

  /** Flags and then the idle line. */
  lemma IdleQuiet(n: nat, idle: nat)
    ensures Quiet([false] + (Flags(n) + Repeat(true, idle)))
  {
    var ones := Repeat(true, idle);
    hide Hunt, Repeat, AtFlag;
    assert [true] + ([false] + (Flags(n) + ones)) == [true, false] + (Flags(n) + ones);
    if n > 0 {
      HuntOn(n, ones);
      FlagsAndOnes(n, idle);
    } else {
      assert Flags(0) + ones == ones;
      OnesBehindZero(idle);
    }
  }

  lemma {:induction false} HuntAllOnes(idle: nat)
    ensures Hunt(Repeat(true, idle)) == []
  {
    if idle > 0 {
      HuntAllOnes(idle - 1);
      hide AtFlag;
      assert !AtFlag(Repeat(true, idle)) by { OnesNoFlag([], idle); }
      RepeatFirst(true, idle);
    }
  }

  lemma OnesNoFlag(start: seq<bool>, idle: nat)
    requires |start| <= 2
    ensures !AtFlag(start + Repeat(true, idle))
  {
    AllSame(true, idle);
  }

  lemma OnesBehindZero(idle: nat)
    ensures Messages(Hunt([true, false] + Repeat(true, idle))) == []
  {
    var ones := Repeat(true, idle);
    OnesNoFlag([true, false], idle);
    OnesNoFlag([false], idle);
    HuntAllOnes(idle);
    hide AtFlag, Repeat;
    assert ([true, false] + ones)[1..] == [false] + ones && ([false] + ones)[1..] == ones;
  }

  /** At most five 1s are taken for a frame. */
  lemma {:induction false} AccumulateOnes(idle: nat, k: nat) returns (left: nat)
    requires k <= 5
    ensures var (frame, rest) := Accumulate(Repeat(true, idle), Repeat(true, k), k);
      |frame| <= 5 && rest == Repeat(true, left)
    decreases idle
  {
    left := idle;
    if idle > 0 {
      RepeatFirst(true, idle);
      if k < 5 {
        RepeatLast(true, k);
        left := AccumulateOnes(idle - 1, k + 1);
      }
    }
  }

  lemma FlagsAndOnes(n: nat, idle: nat)
    requires n > 0
    ensures Messages(Hunt(Flags(n) + Repeat(true, idle))) == []
  {
    var ones := Repeat(true, idle);
    var s := Flags(n) + ones;
    OnesNoFlag([], idle);
    assert [] + ones == ones;
    SkipAll(n, ones);
    assert AtFlag(s);
    var left := AccumulateOnes(idle, 0);
    HuntAllOnes(left);
    hide Accumulate, SkipFlags, AtFlag;
    var frame := Accumulate(ones, [], 0).0;
    if |s| > 8 && frame != [] {
      assert Hunt(s) == [frame];
      assert Bytes(frame) == [];
      assert Messages([frame]) == Messages([frame][1..]);
    }
  }

  lemma TooShort(s: seq<bool>)
    requires |s| == 9 && s[0]
    ensures Hunt(s) == []
  {
    assert !AtFlag(s) && |s[1..]| == 8;
    hide Accumulate, SkipFlags, AtFlag;
  }

  /** Flags alone, the last one cut, give a candidate of one bit. */
  lemma OnlyFlags(n: nat)
    requires n > 0
    ensures Messages(Hunt(Flags(n) + FLAG_HEAD)) == []
  {
    var s := Flags(n) + FLAG_HEAD;
    SkipAll(n, FLAG_HEAD);
    Destuffed([], 0, [], []);
    assert Stuff([], 0) + FLAG_HEAD + [] == FLAG_HEAD;
    assert Accumulate(FLAG_HEAD, [], 0) == ([false], [true] + []) by {
      assert [] + [] + [false] == [false];
    }
    assert AtFlag(s) && |s| > 8;
    hide Accumulate, SkipFlags, AtFlag;
    assert Hunt([true] + []) == [];
    assert Hunt(s) == [[false]] + [];
    assert Bytes([false]) == [];
    assert Messages([[false]]) == Messages([[false]][1..]);
  }

  /** A 0 that does not begin a flag is passed over. */
  lemma HuntZero(s: seq<bool>)
    requires |s| >= 8 && !AtFlag([false] + s)
    ensures Hunt([false] + s) == Hunt(s)
  {
    hide AtFlag;
    assert ([false] + s)[1..] == s;
  }

  /** A 0 and six 1s in front of a flag look like a flag themselves; the real one is then lost and
      the next one found. */
  lemma HuntFalseFlag(s: seq<bool>)
    ensures Hunt([false] + Repeat(true, 6) + (FLAG + s)) == Hunt([true, false] + s)
  {
    FiveOnes([]);
    var t := [false] + Repeat(true, 6) + (FLAG + s);
    var body := Repeat(true, 6) + ([false] + s);
    assert t[8..] == body;
    assert AtFlag(t) && !AtFlag(body);
    assert SkipFlags(t) == SkipFlags(t[8..]) == body;
    assert body == Repeat(true, 5) + ([true] + ([false] + s));
    assert [] + Repeat(true, 0) == [];
    FlagEnds(5, [], [false] + s);
    assert [true] + ([false] + s) == [true, false] + s;
    hide Accumulate, SkipFlags, AtFlag, Repeat;
    assert |t| > 8;
  }

  /** Whatever is decoded before the first flag, the frames are found. */
  lemma HuntLead(level: bool, k: nat, sent: seq<Sent>, after: seq<bool>)
    requires sent != [] && WellSent(sent) && k <= MAX_RUN_BITS && Quiet(after)
    ensures Messages(Hunt(Lead(level, k, Upto(sent, after)))) == Frames(sent)
  {
    var n, less := sent[0].flags, Less(sent);
    assert less[1..] == sent[1..];
    var more := TwoStarts(sent, after);
    assert Frames(less) == Frames(sent);
    assert less[0].frame == sent[0].frame && less[0].flags == n - 1 && WellSent(sent[1..]);
    hide *;
    HuntLine(sent, after);
    HuntLine(less, after);
    LeadAsLine(level, k, n - 1, more);
  }

  /** With one flag fewer in front the line is the same from the second flag on. */
  lemma TwoStarts(sent: seq<Sent>, after: seq<bool>) returns (more: seq<bool>)
    requires sent != [] && sent[0].flags > 1
    ensures Upto(Less(sent), after) == Flags(sent[0].flags - 1) + more
    ensures Upto(sent, after) == FLAG + (Flags(sent[0].flags - 1) + more)
  {
    var n := sent[0].flags;
    more := Stuff(FrameBits(sent[0].frame), 0) + Upto(sent[1..], after);
    assert Less(sent)[1..] == sent[1..];
    assert Flags(n) == FLAG + Flags(n - 1);
    hide Flags, Stuff, FrameBits;
    assert FLAG + Flags(n - 1) + more == FLAG + (Flags(n - 1) + more);
  }

  lemma LeadAsLine(level: bool, k: nat, n: nat, more: seq<bool>)
    requires n > 0 && k <= MAX_RUN_BITS
    ensures var next := Flags(n) + more;
      Hunt(Lead(level, k, FLAG + next)) == Hunt(FLAG + next) || Hunt(Lead(level, k, FLAG + next)) == Hunt(next)
  {
    var next := Flags(n) + more;
    var line := FLAG + next;
    assert |next| >= 8 && line[0] == false;
    hide Hunt, Flags;
    if k == 0 {
      if !level {
        FirstLost(next);
        HuntOnes(7, [false] + next);
        assert [true, false] + next == [true] + ([false] + next);
        NotTwice(n, more);
        HuntZero(next);
      }
    } else if level {
      RepeatFirst(true, k);
      HuntOnes(k, line);
    } else if k == 7 {
      assert Lead(level, k, line) == [false] + Repeat(true, 6) + (FLAG + next);
      HuntFalseFlag(next);
      HuntOn(n, more);
    } else {
      NotFlag(k - 1, line);
      assert Lead(level, k, line) == [false] + (Repeat(true, k - 1) + line);
      HuntZero(Repeat(true, k - 1) + line);
      HuntOnes(k - 1, line);
    }
  }

  /** The first 0 taken for a 1. */
  lemma FirstLost(next: seq<bool>)
    ensures [true] + (FLAG + next)[1..] == Repeat(true, 7) + ([false] + next)
  {
    FiveOnes([]);
    RepeatFirst(true, 7);
    assert (FLAG + next)[1..] == [true, true, true, true, true, true, false] + next;
  }

  lemma NotTwice(n: nat, more: seq<bool>)
    requires n > 0
    ensures !AtFlag([false] + (Flags(n) + more))
  {
    var s := Flags(n) + more;
    assert s[0] == false;
    assert ([false] + s)[1] == s[0];
  }

  /** A 0, then 1s that are not six, then a flag. */
  lemma NotFlag(k: nat, line: seq<bool>)
    requires k != 6 && k <= 7 && |line| >= 8 && !line[0]
    ensures !AtFlag([false] + (Repeat(true, k) + line))
  {
    var s := [false] + (Repeat(true, k) + line);
    AllSame(true, k);
    if k < 6 {
      assert s[k + 1] == line[0];
    } else {
      assert s[7] == Repeat(true, k)[6];
    }
  }

  /** The receive pipeline delivers exactly the frames sent: for every list of frames of two bytes or
      more, with at least two flags before each and one after the last, whatever the level and the
      time the line idles at before, and for every sampling that shows each run with less than half
      a cell of error. */
  lemma FramesDelivered(sent: seq<Sent>, closing: nat, level: bool, idle: nat,
                        samples: seq<nat>, cells: seq<nat>, sps: real)
    requires sent != [] && WellSent(sent) && closing > 0
    requires Positive(cells) && Expand(!level, cells) == Encode(level, LineBits(sent, closing))
    requires sps > 0.0 && Sampled(samples, cells, sps)
    ensures Received(Line(level, idle, samples), sps) == Frames(sent)
  {
    var bits := LineBits(sent, closing);
    var after := CutAfter(closing);
    var line := Upto(sent, after);
    CutIsUpto(sent, closing);
    CutQuiet(closing);
    LineOk(sent, closing);
    assert bits == line + [false];
    assert line != [] && !line[0] by {
      StartsWithHead(sent, after);
    }
    hide LineBits, Upto, Quiet, CutAfter, Sampled, RunOk, WellSent;
    assert cells != [];
    RunsBounded(level, cells, bits, 0, 6);
    LastRun(level, cells, bits);
    assert bits[..|bits| - 1] == line;
    EncodePrefix(level, bits, |bits| - 1);
    LengthsAgree(samples, cells, sps);
    var k := CellsOfLine(level, idle, samples, cells, sps);
    DecodeLine(level, k, line);
    HuntLead(level, k, sent, after);
  }

  lemma LengthsAgree(samples: seq<nat>, cells: seq<nat>, sps: real)
    requires Sampled(samples, cells, sps)
    ensures |samples| == |cells|
  {
  }

  /** On such a line no level lasts longer than seven cells, one below the receiver's cap. */
  lemma RunsUnderCap(sent: seq<Sent>, closing: nat, level: bool, cells: seq<nat>)
    requires WellSent(sent) && Positive(cells) && Expand(!level, cells) == Encode(level, LineBits(sent, closing))
    ensures Bounded(cells, MAX_RUN_BITS - 1)
  {
    LineOk(sent, closing);
    RunsBounded(level, cells, LineBits(sent, closing), 0, 6);
  }

  // With the check sequence.

  /** The data of the frames whose check sequence is right. */
  function GoodData(frames: seq<seq<bv8>>): seq<seq<bv8>> {
    if frames == [] then []
    else (if Crc.Accepted(frames[0]) then [frames[0][..|frames[0]| - 2]] else []) + GoodData(frames[1..])
  }

  /** Data, each with the number of flags before it, as frames that carry their check sequence. */
  function Checked(data: seq<(nat, seq<bv8>)>): seq<Sent> {
    if data == [] then []
    else [Sent(data[0].0, data[0].1 + Crc.Halves(Crc.Crc(data[0].1)))] + Checked(data[1..])
  }

  function Contents(data: seq<(nat, seq<bv8>)>): seq<seq<bv8>> {
    if data == [] then [] else [data[0].1] + Contents(data[1..])
  }

  lemma {:induction false} CheckedGood(data: seq<(nat, seq<bv8>)>)
    requires forall i :: 0 <= i < |data| ==> data[i].0 >= 2
    ensures WellSent(Checked(data)) && GoodData(Frames(Checked(data))) == Contents(data)
    ensures |Checked(data)| == |data|
    decreases |data|
  {
    if data != [] {
      hide Crc.Accepted, Crc.Crc;
      CheckedGood(data[1..]);
      var d := data[0].1;
      Crc.SentIsAccepted(d);
      var frame := d + Crc.Halves(Crc.Crc(d));
      assert frame[..|frame| - 2] == d;
      assert Checked(data)[1..] == Checked(data[1..]);
      assert Frames(Checked(data))[1..] == Frames(Checked(data[1..]));
    }
  }

  /** Data sent with their check sequence come out of the receiver, checked and in order. */
  lemma DataDelivered(data: seq<(nat, seq<bv8>)>, closing: nat, level: bool, idle: nat,
                      samples: seq<nat>, cells: seq<nat>, sps: real)
    requires data != [] && closing > 0 && forall i :: 0 <= i < |data| ==> data[i].0 >= 2
    requires Positive(cells) && Expand(!level, cells) == Encode(level, LineBits(Checked(data), closing))
    requires sps > 0.0 && Sampled(samples, cells, sps)
    ensures GoodData(Received(Line(level, idle, samples), sps)) == Contents(data)
  {
    CheckedGood(data);
    hide *;
    FramesDelivered(Checked(data), closing, level, idle, samples, cells, sps);
  }

  // What a candidate is, on any line.

  predicate EndsInOnes(frame: seq<bool>, ones: nat) {
    ones <= |frame| && forall i :: |frame| - ones <= i < |frame| ==> frame[i]
  }

  /** What has been collected, `r`, stands in `s` stuffed, but for `frame` which was there before: up to a
      sixth 1, with five 1s that are no part of it, or up to the end. */
  predicate Stands(s: seq<bool>, frame: seq<bool>, ones: nat, more: seq<bool>, r: seq<bool>, rest: seq<bool>)
    requires ones <= 5
  {
    && |rest| <= |s| && s[|s| - |rest|..] == rest
    && (rest != [] ==> rest[0] && r + Repeat(true, 5) == frame + more && Stuff(more, ones) == s[..|s| - |rest|] + [false])
    && (rest == [] ==> r == frame + more && (Stuff(more, ones) == s || Stuff(more, ones) == s + [false]))
  }

  lemma {:induction false} Accumulated(s: seq<bool>, frame: seq<bool>, ones: nat) returns (more: seq<bool>)
    requires ones <= 5 && EndsInOnes(frame, ones)
    ensures Stands(s, frame, ones, more, Accumulate(s, frame, ones).0, Accumulate(s, frame, ones).1)
    decreases |s|
  {
    hide Stands, Stuff, Repeat;
    if s == [] {
      more := [];
      NothingStands(frame, ones);
    } else if ones == 5 {
      if s[0] {
        more := [];
        SixthOne(s, frame);
      } else {
        more := Accumulated(s[1..], frame, 0);
        StuffedZero(s, frame, more, Accumulate(s[1..], frame, 0).0, Accumulate(s[1..], frame, 0).1);
      }
    } else {
      var ones' := if s[0] then ones + 1 else 0;
      var tail := Accumulated(s[1..], frame + [s[0]], ones');
      more := [s[0]] + tail;
      var (r, rest) := Accumulate(s[1..], frame + [s[0]], ones');
      OneBit(s, frame, ones, tail, r, rest);
    }
  }

  lemma NothingStands(frame: seq<bool>, ones: nat)
    requires ones <= 5
    ensures Stands([], frame, ones, [], frame, [])
  {
    assert frame + [] == frame;
  }

  lemma SixthOne(s: seq<bool>, frame: seq<bool>)
    requires s != [] && s[0] && EndsInOnes(frame, 5)
    ensures Stands(s, frame, 5, [], frame[..|frame| - 5], s)
  {
    FiveOnes([]);
    assert frame[..|frame| - 5] + [true, true, true, true, true] == frame + [];
    assert s[..0] + [false] == [false];
  }

  lemma StuffedZero(s: seq<bool>, frame: seq<bool>, more: seq<bool>, r: seq<bool>, rest: seq<bool>)
    requires s != [] && !s[0] && Stands(s[1..], frame, 0, more, r, rest)
    ensures Stands(s, frame, 5, more, r, rest)
  {
    hide Repeat;
    assert Stuff(more, 5) == [false] + Stuff(more, 0);
    Prepended(s, |rest|);
    hide Stuff;
  }

  lemma OneBit(s: seq<bool>, frame: seq<bool>, ones: nat, tail: seq<bool>, r: seq<bool>, rest: seq<bool>)
    requires s != [] && ones < 5 && Stands(s[1..], frame + [s[0]], if s[0] then ones + 1 else 0, tail, r, rest)
    ensures Stands(s, frame, ones, [s[0]] + tail, r, rest)
  {
    hide Repeat;
    var more := [s[0]] + tail;
    assert more[1..] == tail;
    assert Stuff(more, ones) == [s[0]] + Stuff(tail, if s[0] then ones + 1 else 0);
    hide Stuff;
    assert frame + [s[0]] + tail == frame + more;
    Prepended(s, |rest|);
  }

  lemma Prepended(s: seq<bool>, n: nat)
    requires s != [] && n <= |s| - 1
    ensures s[|s| - n..] == s[1..][|s| - 1 - n..]
    ensures s[..|s| - n] + [false] == [s[0]] + (s[1..][..|s| - 1 - n] + [false])
    ensures s == [s[0]] + s[1..] && s + [false] == [s[0]] + (s[1..] + [false])
  {
  }

  /** `f` stands behind a flag of the line, from `i` to `j`, just as the sender would stuff it: up to where a
      sixth 1 follows, or to the end of the line. */
  predicate Between(bits: seq<bool>, f: seq<bool>, i: nat, j: nat) {
    && 8 <= i <= j <= |bits| && bits[i - 8..i] == FLAG && f != []
    && if j < |bits| then bits[j] && Stuff(f + Repeat(true, 5), 0) == bits[i..j] + [false]
       else Stuff(f, 0) == bits[i..] || Stuff(f, 0) == bits[i..] + [false]
  }

  /** Whatever the line, every candidate is between a flag and a sixth 1, or the end. */
  lemma {:induction false} HuntSound(bits: seq<bool>, f: seq<bool>) returns (i: nat, j: nat)
    requires f in Hunt(bits)
    ensures Between(bits, f, i, j)
    decreases |bits|
  {
    hide Accumulate, SkipFlags, AtFlag, Between;
    if !AtFlag(bits) {
      i, j := HuntSound(bits[1..], f);
      Later(bits, f, 1, i, j);
      i, j := i + 1, j + 1;
    } else {
      var (frame, rest) := Accumulate(SkipFlags(bits), [], 0);
      var at := AfterFlag(bits);
      if f == frame && frame != [] {
        i, j := Collected(bits);
      } else {
        i, j := HuntSound(rest, f);
        Later(bits, f, at, i, j);
        i, j := i + at, j + at;
      }
    }
  }

  lemma Collected(bits: seq<bool>) returns (i: nat, j: nat)
    requires AtFlag(bits) && Accumulate(SkipFlags(bits), [], 0).0 != []
    ensures Between(bits, Accumulate(SkipFlags(bits), [], 0).0, i, j)
  {
    hide Accumulate, SkipFlags, AtFlag, Stuff, Repeat;
    i := SkippedFlags(bits);
    var here := SkipFlags(bits);
    var more := Accumulated(here, [], 0);
    var rest := Accumulate(here, [], 0).1;
    j := |bits| - |rest|;
    assert [] + more == more;
    assert here[..|here| - |rest|] == bits[i..j];
    assert rest != [] ==> rest[0] == bits[j];
  }

  lemma AfterFlag(bits: seq<bool>) returns (at: nat)
    requires AtFlag(bits)
    ensures at <= |bits| && Accumulate(SkipFlags(bits), [], 0).1 == bits[at..]
  {
    hide Accumulate, SkipFlags, AtFlag, Stuff, Repeat;
    var k := SkippedFlags(bits);
    var here := SkipFlags(bits);
    var more := Accumulated(here, [], 0);
    at := |bits| - |Accumulate(here, [], 0).1|;
    assert bits[k..][|here| - |Accumulate(here, [], 0).1|..] == bits[at..];
  }

  lemma Later(bits: seq<bool>, f: seq<bool>, at: nat, i: nat, j: nat)
    requires at <= |bits| && Between(bits[at..], f, i, j)
    ensures Between(bits, f, i + at, j + at)
  {
    hide Stuff, Repeat;
    Shifted(bits, at, i + at, j + at);
  }

  lemma Shifted(bits: seq<bool>, at: nat, i: nat, j: nat)
    requires at + 8 <= i <= j <= |bits|
    ensures bits[at..][i - at - 8..i - at] == bits[i - 8..i] && bits[at..][i - at..j - at] == bits[i..j]
    ensures bits[at..][i - at..] == bits[i..] && (j < |bits| ==> bits[at..][j - at] == bits[j])
  {
  }

  /** Behind the flags there is a flag. */
  lemma {:induction false} SkippedFlags(bits: seq<bool>) returns (k: nat)
    requires AtFlag(bits)
    ensures 8 <= k <= |bits| && SkipFlags(bits) == bits[k..] && bits[k - 8..k] == FLAG
    decreases |bits|
  {
    AtFlagIs(bits);
    hide AtFlag;
    if AtFlag(bits[8..]) {
      k := SkippedFlags(bits[8..]);
      k := k + 8;
      assert bits[8..][k - 8..] == bits[k..] && bits[8..][k - 16..k - 8] == bits[k - 8..k];
    } else {
      k := 8;
    }
  }
}
