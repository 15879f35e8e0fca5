/** The receive pipeline of `sdlc_receiver.py`: samples to cells, cells to bits, bits to frames,
    bits to bytes. Each stage is a loop proved against a function on the remaining input. */
module SdlcReceiver {
  // Samples to cells.

  function Repeat(level: bool, n: nat): (r: seq<bool>)
    ensures |r| == n
  {
    if n == 0 then [] else [level] + Repeat(level, n - 1)
  }

  /** Python's `round`: to the nearest integer, ties to the even one. */
  function Round(x: real): int {
    var f := x.Floor;
    var part := x - f as real;
    if part < 0.5 then f else if part > 0.5 then f + 1 else if f % 2 == 0 then f else f + 1
  }

  const MAX_RUN_BITS := 8

  /** The cells a run of samples stands for: at least one, at most eight. */
  function Cells(run: nat, sps: real): (r: nat)
    requires sps > 0.0
    ensures 1 <= r <= MAX_RUN_BITS
  {
    var n := Round(run as real / sps);
    if n < 1 then 1 else if n > MAX_RUN_BITS then MAX_RUN_BITS else n
  }

  /** That number is the nearest one from 1 to 8, and the even one of two that are equally near. */
  lemma CellsNearest(run: nat, sps: real)
    requires sps > 0.0
    ensures var n, low, high := Cells(run, sps), Cells(run, sps) as real - 0.5, Cells(run, sps) as real + 0.5;
      && 1 <= n <= 8 && (2 <= n ==> run as real >= low * sps) && (n <= 7 ==> run as real <= high * sps)
      && (2 <= n <= 7 && (run as real == low * sps || run as real == high * sps) ==> n % 2 == 0)
  {
    var q, n := run as real / sps, Cells(run, sps);
    var near := Round(q);
    RoundNearest(q);
    hide Round;
    assert near <= 0 ==> near as real <= 0.0;
    assert (n <= 7 ==> q <= n as real + 0.5) && (n >= 2 ==> q >= n as real - 0.5) && (2 <= n <= 7 ==> n == near);
    hide Cells;
    Scaled(q, n as real - 0.5, sps, run as real);
    Scaled(q, n as real + 0.5, sps, run as real);
  }

  lemma RoundNearest(x: real)
    ensures Round(x) as real - 0.5 <= x <= Round(x) as real + 0.5
    ensures x == Round(x) as real - 0.5 || x == Round(x) as real + 0.5 ==> Round(x) % 2 == 0
  {
  }

  lemma Scaled(q: real, bound: real, sps: real, x: real)
    requires sps > 0.0 && q == x / sps
    ensures (q >= bound ==> x >= bound * sps) && (q <= bound ==> x <= bound * sps) && (x == bound * sps ==> q == bound)
  {
    assert x == q * sps;
    assert x - bound * sps == (q - bound) * sps;
  }

  /** `run` samples of level `prev` have been counted and `rest` follow. The last run is dropped. */
  function Quantize(prev: bool, run: nat, rest: seq<bool>, sps: real): seq<bool>
    requires sps > 0.0
    decreases |rest|
  {
    if rest == [] then []
    else if rest[0] == prev then Quantize(prev, run + 1, rest[1..], sps)
    else Repeat(prev, Cells(run, sps)) + Quantize(rest[0], 1, rest[1..], sps)
  }

  /** The line levels in a captured sample string. */
  function Levels(samples: seq<bv8>, mask: bv8): (r: seq<bool>)
    ensures |r| == |samples|
  {
    if samples == [] then [] else [samples[0] & mask != 0] + Levels(samples[1..], mask)
  }

  lemma NextLevel(samples: seq<bv8>, mask: bv8, i: nat)
    requires i < |samples|
    ensures var levels := Levels(samples[i..], mask);
      levels[0] == (samples[i] & mask != 0) && levels[1..] == Levels(samples[i + 1..], mask)
  {
    assert samples[i..][1..] == samples[i + 1..];
  }

  function LineCells(levels: seq<bool>, sps: real): seq<bool>
    requires sps > 0.0
  {
    if levels == [] then [] else Quantize(levels[0], 0, levels, sps)
  }

  /** `samples_to_bits`. */
  method SamplesToBits(samples: seq<bv8>, mask: bv8, sps: real) returns (bits: seq<bool>)
    requires sps > 0.0
    ensures bits == LineCells(Levels(samples, mask), sps)
  {
    bits := [];
    if samples == [] {
      return;
    }
    hide Cells, Levels, Repeat;
    NextLevel(samples, mask, 0);
    ghost var all := LineCells(Levels(samples, mask), sps);
    var prev := samples[0] & mask != 0;
    var run := 0;
    assert samples[0..] == samples;
    for i := 0 to |samples|
      invariant all == bits + Quantize(prev, run, Levels(samples[i..], mask), sps)
    {
      var cur := samples[i] & mask != 0;
      NextLevel(samples, mask, i);
      if cur == prev {
        run := run + 1;
        continue;
      }
      var nBits := Cells(run, sps);
      bits := bits + Repeat(prev, nBits);
      prev := cur;
      run := 1;
    }
  }

  // Cells to bits.

  /** A cell at the level of the one before it is a 1. */
  function Decode(prev: bool, cells: seq<bool>): (r: seq<bool>)
    ensures |r| == |cells|
    decreases |cells|
  {
    if cells == [] then [] else [cells[0] == prev] + Decode(cells[0], cells[1..])
  }

  /** `nrzi_decode`. */
  method NrziDecode(bits: seq<bool>) returns (out: seq<bool>)
    ensures out == Decode(true, bits)
  {
    out := [];
    var prev := true;
    assert bits[0..] == bits;
    for i := 0 to |bits|
      invariant Decode(true, bits) == out + Decode(prev, bits[i..])
    {
      assert bits[i..][1..] == bits[i + 1..];
      out := out + [bits[i] == prev];
      prev := bits[i];
    }
  }

  // Bits to frames.

  const FLAG: seq<bool> := [false, true, true, true, true, true, true, false]

  predicate AtFlag(s: seq<bool>) {
    |s| >= 8 && !s[0] && s[1] && s[2] && s[3] && s[4] && s[5] && s[6] && !s[7]
  }

  lemma AtFlagIs(s: seq<bool>)
    requires |s| >= 8
    ensures AtFlag(s) <==> s[..8] == FLAG
  {
    var p := s[..8];
    assert p == [s[0], s[1], s[2], s[3], s[4], s[5], s[6], s[7]];
    if p == FLAG {
      assert p[0] == FLAG[0] && p[1] == FLAG[1] && p[2] == FLAG[2] && p[3] == FLAG[3];
      assert p[4] == FLAG[4] && p[5] == FLAG[5] && p[6] == FLAG[6] && p[7] == FLAG[7];
    }
  }

  function SkipFlags(s: seq<bool>): (r: seq<bool>)
    ensures |r| <= |s| && (AtFlag(s) ==> |r| < |s|)
    decreases |s|
  {
    if AtFlag(s) then SkipFlags(s[8..]) else s
  }

  /** The frame that begins here, with inserted zeros deleted, and what follows it: after five 1s a
      sixth ends the frame, and the five are trimmed off again. */
  function Accumulate(s: seq<bool>, frame: seq<bool>, ones: nat): (r: (seq<bool>, seq<bool>))
    requires ones <= 5 && ones <= |frame|
    ensures |r.1| <= |s|
    decreases |s|
  {
    if s == [] then (frame, [])
    else if ones == 5 then
      if s[0] then (frame[..|frame| - 5], s) else Accumulate(s[1..], frame, 0)
    else Accumulate(s[1..], frame + [s[0]], if s[0] then ones + 1 else 0)
  }

  /** All frame candidates. */
  function Hunt(s: seq<bool>): seq<seq<bool>>
    decreases |s|
  {
    if |s| <= 8 then []
    else if !AtFlag(s) then Hunt(s[1..])
    else
      var (frame, rest) := Accumulate(SkipFlags(s), [], 0);
      (if frame == [] then [] else [frame]) + Hunt(rest)
  }

  /** The scan for the first flag and the flags right behind it: `i` is left after them. */
  method SkipBackToBack(bits: seq<bool>, start: nat) returns (i: nat)
    requires start + 8 <= |bits| && AtFlag(bits[start..])
    ensures start + 8 <= i <= |bits| && bits[i..] == SkipFlags(bits[start..])
  {
    i := start;
    while i + 8 <= |bits| && bits[i..i + 8] == FLAG
      invariant start <= i <= |bits|
      invariant SkipFlags(bits[i..]) == SkipFlags(bits[start..])
      invariant i == start || start + 8 <= i
      decreases |bits| - i
    {
      AtFlagIs(bits[i..]);
      assert bits[i..][..8] == bits[i..i + 8];
      assert bits[i..][8..] == bits[i + 8..];
      i := i + 8;
    }
    if i + 8 <= |bits| {
      AtFlagIs(bits[i..]);
      assert bits[i..][..8] == bits[i..i + 8];
    }
  }

  /** The inner loop that collects one frame. */
  method CollectFrame(bits: seq<bool>, start: nat) returns (frame: seq<bool>, i: nat)
    requires start <= |bits|
    ensures start <= i <= |bits| && (frame, bits[i..]) == Accumulate(bits[start..], [], 0)
  {
    frame := [];
    i := start;
    var ones := 0;
    while i < |bits|
      invariant start <= i <= |bits| && ones <= 5 && ones <= |frame|
      invariant Accumulate(bits[start..], [], 0) == Accumulate(bits[i..], frame, ones)
    {
      assert bits[i..][1..] == bits[i + 1..];
      var b := bits[i];
      i := i + 1;
      if ones == 5 {
        ones := 0;
        if !b {
          continue;
        } else {
          i := i - 1;
          frame := frame[..|frame| - 5];
          break;
        }
      }
      ones := if b then ones + 1 else 0;
      frame := frame + [b];
    }
  }

  /** `find_frames`. */
  method FindFrames(bits: seq<bool>) returns (frames: seq<seq<bool>>)
    ensures frames == Hunt(bits)
  {
    hide Accumulate, SkipFlags, AtFlag;
    frames := [];
    var i := 0;
    assert bits[0..] == bits;
    while i < |bits| - 8
      invariant i <= |bits|
      invariant Hunt(bits) == frames + Hunt(bits[i..])
      decreases |bits| - i
    {
      AtFlagIs(bits[i..]);
      assert bits[i..][..8] == bits[i..i + 8];
      if bits[i..i + 8] != FLAG {
        assert bits[i..][1..] == bits[i + 1..];
        i := i + 1;
        continue;
      }
      ghost var here := bits[i..];
      i := SkipBackToBack(bits, i);
      var frame;
      frame, i := CollectFrame(bits, i);
      if |frame| > 0 {
        frames := frames + [frame];
      }
    }
  }

  // Bits to bytes.

  /** Eight bits as a byte, least significant first. */
  function ByteOf(bits: seq<bool>, n: nat): bv8
    requires n <= 8 && n <= |bits|
  {
    if n == 0 then 0 else ByteOf(bits, n - 1) | ((if bits[n - 1] then 1 else 0) << (n - 1))
  }

  /** A partial byte at the end is dropped. */
  function Bytes(bits: seq<bool>): (r: seq<bv8>)
    decreases |bits|
  {
    if |bits| < 8 then [] else [ByteOf(bits, 8)] + Bytes(bits[8..])
  }

  /** `bits_to_bytes`. */
  method BitsToBytes(bits: seq<bool>) returns (out: seq<bv8>)
    ensures out == Bytes(bits)
  {
    out := [];
    var j := 0;
    assert bits[0..] == bits;
    hide ByteOf, Bytes;
    while j + 7 < |bits|
      invariant j <= |bits|
      invariant Bytes(bits) == out + Bytes(bits[j..])
    {
      NextByte(bits, j, out);
      var v := OneByte(bits, j);
      out := out + [v];
      j := j + 8;
    }
    NoByte(bits[j..]);
  }

  /** The inner loop. */
  method OneByte(bits: seq<bool>, j: nat) returns (v: bv8)
    requires j + 8 <= |bits|
    ensures v == ByteOf(bits[j..], 8)
  {
    v := 0;
    for k := 0 to 8
      invariant v == ByteOf(bits[j..], k)
    {
      v := v | ((if bits[j + k] then 1 else 0) << k);
    }
  }

  lemma NextByte(bits: seq<bool>, j: nat, out: seq<bv8>)
    requires j + 8 <= |bits|
    ensures out + Bytes(bits[j..]) == out + [ByteOf(bits[j..], 8)] + Bytes(bits[j + 8..])
  {
    hide ByteOf;
    assert bits[j..][8..] == bits[j + 8..];
  }

  lemma NoByte(bits: seq<bool>)
    requires |bits| < 8
    ensures Bytes(bits) == []
  {
  }

  /** The candidates of two bytes or more, as bytes. */
  function Messages(candidates: seq<seq<bool>>): seq<seq<bv8>> {
    if candidates == [] then []
    else
      var f := Bytes(candidates[0]);
      (if |f| < 2 then [] else [f]) + Messages(candidates[1..])
  }

  /** What the pipeline delivers from a string of line levels. */
  function Received(levels: seq<bool>, sps: real): seq<seq<bv8>>
    requires sps > 0.0
  {
    Messages(Hunt(Decode(true, LineCells(levels, sps))))
  }

  /** `decode_with` and the loop over its candidates, with `samples_to_bits` and the first polarity. */
  method Receive(samples: seq<bv8>, mask: bv8, sps: real) returns (messages: seq<seq<bv8>>)
    requires sps > 0.0
    ensures messages == Received(Levels(samples, mask), sps)
  {
    var bits := SamplesToBits(samples, mask, sps);
    var data := NrziDecode(bits);
    var frames := FindFrames(data);
    messages := SelectMessages(frames);
  }

  /** The loop over the candidates. */
  method SelectMessages(frames: seq<seq<bool>>) returns (messages: seq<seq<bv8>>)
    ensures messages == Messages(frames)
  {
    messages := [];
    assert frames[0..] == frames;
    hide Messages, Bytes;
    for i := 0 to |frames|
      invariant Messages(frames) == messages + Messages(frames[i..])
    {
      MessagesAt(frames, i);
      var f := BitsToBytes(frames[i]);
      ghost var more := Messages(frames[i + 1..]);
      assert messages + ([f] + more) == messages + [f] + more && [] + more == more;
      if |f| < 2 {
        continue;
      }
      messages := messages + [f];
    }
    NoMessages(frames[|frames|..]);
  }

  lemma MessagesAt(frames: seq<seq<bool>>, i: nat)
    requires i < |frames|
    ensures var f := Bytes(frames[i]);
      Messages(frames[i..]) == (if |f| < 2 then [] else [f]) + Messages(frames[i + 1..])
  {
    hide Bytes;
    assert frames[i..][1..] == frames[i + 1..];
  }

  lemma NoMessages(candidates: seq<seq<bool>>)
    requires candidates == []
    ensures Messages(candidates) == []
  {
  }
}
