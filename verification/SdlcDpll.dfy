/** The phase-locked bit recovery of `sdlc_receiver.py`, which its receive pipeline uses unless told
    otherwise: cells are sampled at their centres, and a transition seen in time moves the next
    centre half a cell behind it. Positions are reals, as the number of samples per cell need not
    be whole. */
module SdlcDpll {
  import opened SdlcReceiver
  import opened SdlcLink

  /** The first position from `j` on, below `stop`, that holds something else than `level`. */
  function NextEdge<T(==)>(levels: seq<T>, j: nat, stop: nat, level: T): (r: nat)
    requires j <= stop <= |levels|
    ensures j <= r <= stop && (r < stop ==> levels[r] != level)
    ensures forall i :: j <= i < r ==> levels[i] == level
    decreases stop - j
  {
    if j == stop || levels[j] != level then j else NextEdge(levels, j + 1, stop, level)
  }

  lemma EdgeIs<T>(levels: seq<T>, j: nat, stop: nat, level: T, r: nat)
    requires j <= r <= stop <= |levels| && (r < stop ==> levels[r] != level)
    requires forall i :: j <= i < r ==> levels[i] == level
    ensures NextEdge(levels, j, stop, level) == r
  {
  }

  /** The end of the samples looked at from the centre `t`: half a cell on. */
  function Lookahead(n: nat, t: real, sps: real): (stop: nat)
    requires sps > 0.0 && 0.0 <= t < n as real
    ensures t.Floor < stop <= n
  {
    var s := (t + sps / 2.0).Floor + 1;
    if s > n then n else s
  }

  /** The centre after `t`. */
  function NextCentre(levels: seq<bool>, t: real, sps: real): (r: real)
    requires sps > 0.0 && 0.0 <= t < |levels| as real
    ensures r >= t + sps / 2.0
  {
    var stop := Lookahead(|levels|, t, sps);
    var j := NextEdge(levels, t.Floor, stop, levels[t.Floor]);
    if j < stop then j as real + sps / 2.0 else t + sps
  }

  /** Half cells up to the end of the samples. */
  function HalfCells(n: nat, t: real, sps: real): real
    requires sps > 0.0
  {
    (n as real - t) / (sps / 2.0)
  }

  lemma StrictProduct(a: real, b: real)
    requires a > 0.0 && b > 0.0
    ensures a * b > 0.0
  {
  }

  lemma Farther(a: real, b: real, h: real)
    requires h > 0.0 && b <= a - h
    ensures b / h <= a / h - 1.0 && (a > 0.0 ==> a / h > 0.0)
  {
    var x, y := a / h, b / h;
    assert x * h == a && y * h == b;
    if x < y + 1.0 {
      StrictProduct(y + 1.0 - x, h);
    }
    if x <= 0.0 {
      Product(-x, h);
    }
  }

  lemma Closer(n: nat, t: real, u: real, sps: real)
    requires sps > 0.0 && u >= t + sps / 2.0
    ensures HalfCells(n, u, sps) <= HalfCells(n, t, sps) - 1.0
    ensures t < n as real ==> HalfCells(n, t, sps) > 0.0
  {
    Farther(n as real - t, n as real - u, sps / 2.0);
  }

  /** The levels at the centres from `t` on. */
  function Centres(levels: seq<bool>, t: real, sps: real): seq<bool>
    requires sps > 0.0 && t >= 0.0
    decreases HalfCells(|levels|, t, sps)
  {
    if t >= |levels| as real then []
    else
      var u := NextCentre(levels, t, sps);
      Closer(|levels|, t, u, sps);
      [levels[t.Floor]] + Centres(levels, u, sps)
  }

  lemma CentresNext(levels: seq<bool>, t: real, sps: real)
    requires sps > 0.0 && 0.0 <= t < |levels| as real
    ensures Centres(levels, t, sps) == [levels[t.Floor]] + Centres(levels, NextCentre(levels, t, sps), sps)
  {
    hide NextCentre, HalfCells;
  }

  lemma NoCentres(levels: seq<bool>, t: real, sps: real)
    requires sps > 0.0 && t >= 0.0 && t >= |levels| as real
    ensures Centres(levels, t, sps) == []
  {
  }

  /** Everything before the first transition is passed over. */
  function DpllCells(levels: seq<bool>, sps: real): seq<bool>
    requires sps > 0.0
  {
    if levels == [] then []
    else
      CellsBehind(levels, NextEdge(levels, 0, |levels|, levels[0]), sps)
  }

  /** The cells behind a transition at `i`, if there is one. */
  function CellsBehind(levels: seq<bool>, i: nat, sps: real): seq<bool>
    requires sps > 0.0
  {
    if i == |levels| then [] else Centres(levels, i as real + sps / 2.0, sps)
  }

  lemma {:induction false} LevelAt(samples: seq<bv8>, mask: bv8, i: nat)
    requires i < |samples|
    ensures Levels(samples, mask)[i] == (samples[i] & mask != 0)
  {
    if i > 0 {
      LevelAt(samples[1..], mask, i - 1);
    }
  }

  lemma LevelsAt(samples: seq<bv8>, mask: bv8)
    ensures forall i :: 0 <= i < |samples| ==> Levels(samples, mask)[i] == (samples[i] & mask != 0)
  {
    forall i | 0 <= i < |samples| ensures Levels(samples, mask)[i] == (samples[i] & mask != 0) {
      LevelAt(samples, mask, i);
    }
  }

  /** The values of the masked pins. */
  function Masked(samples: seq<bv8>, mask: bv8): (r: seq<bv8>)
    ensures |r| == |samples| && forall i :: 0 <= i < |r| ==> r[i] == samples[i] & mask
  {
    seq(|samples|, i requires 0 <= i < |samples| => samples[i] & mask)
  }

  /** The cells recovered from samples: everything before the first change of the masked pins is passed over. */
  function RecoveredCells(samples: seq<bv8>, mask: bv8, sps: real): seq<bool>
    requires sps > 0.0
  {
    if samples == [] then []
    else
      CellsBehind(Levels(samples, mask), NextEdge(Masked(samples, mask), 0, |samples|, samples[0] & mask), sps)
  }

  /** With the mask of one pin those are the cells of its levels. */
  lemma OnePin(samples: seq<bv8>, mask: bv8, sps: real)
    requires sps > 0.0 && mask & (mask - 1) == 0
    ensures RecoveredCells(samples, mask, sps) == DpllCells(Levels(samples, mask), sps)
  {
    hide Levels, CellsBehind, Masked, NextEdge;
    if samples != [] {
      SameChanges(samples, mask);
      SameEdge(Masked(samples, mask), Levels(samples, mask));
    }
  }

  lemma SameChanges(samples: seq<bv8>, mask: bv8)
    requires samples != [] && mask & (mask - 1) == 0
    ensures Masked(samples, mask)[0] == samples[0] & mask
    ensures forall k :: 0 <= k < |samples| ==>
      (Masked(samples, mask)[k] == Masked(samples, mask)[0]) == (Levels(samples, mask)[k] == Levels(samples, mask)[0])
  {
    LevelsAt(samples, mask);
    hide Levels;
    forall k | 0 <= k < |samples|
      ensures (Masked(samples, mask)[k] == Masked(samples, mask)[0]) == (Levels(samples, mask)[k] == Levels(samples, mask)[0]) {
      OnePinValue(samples[k], samples[0], mask);
    }
  }

  lemma SameEdge(masked: seq<bv8>, levels: seq<bool>)
    requires |masked| == |levels| > 0 && forall k :: 0 <= k < |masked| ==> (masked[k] == masked[0]) == (levels[k] == levels[0])
    ensures NextEdge(masked, 0, |masked|, masked[0]) == NextEdge(levels, 0, |levels|, levels[0])
  {
    var i := NextEdge(masked, 0, |masked|, masked[0]);
    hide NextEdge;
    EdgeIs(levels, 0, |levels|, levels[0], i);
  }

  lemma OnePinValue(a: bv8, b: bv8, mask: bv8)
    requires mask & (mask - 1) == 0
    ensures a & mask == b & mask <==> (a & mask != 0) == (b & mask != 0)
  {
  }

  /** The scan for the first transition. */
  method FirstTransition(samples: seq<bv8>, mask: bv8) returns (i: nat)
    requires samples != []
    ensures i == NextEdge(Masked(samples, mask), 0, |samples|, samples[0] & mask)
  {
    var prev := samples[0] & mask;
    i := 0;
    ghost var masked := Masked(samples, mask);
    hide Masked, NextEdge;
    while i < |samples| && samples[i] & mask == prev
      invariant i <= |samples|
      invariant forall k :: 0 <= k < i ==> masked[k] == prev
      decreases |samples| - i
    {
      i := i + 1;
    }
    EdgeIs(masked, 0, |samples|, prev, i);
  }

  /** The look ahead from the centre `t`, whose level is `level`. */
  method Nudged(samples: seq<bv8>, mask: bv8, t: real, sps: real, level: bool) returns (u: real)
    requires sps > 0.0 && 0.0 <= t < |samples| as real && level == Levels(samples, mask)[t.Floor]
    ensures u == NextCentre(Levels(samples, mask), t, sps)
  {
    LevelsAt(samples, mask);
    ghost var levels := Levels(samples, mask);
    hide Levels, NextEdge;
    var idx := t.Floor;
    var stop := (t + sps / 2.0).Floor + 1;
    if stop > |samples| {
      stop := |samples|;
    }
    for j := idx to stop
      invariant forall k :: idx <= k < j ==> levels[k] == level
    {
      var cur := samples[j] & mask != 0;
      if cur != level {
        EdgeIs(levels, idx, stop, level, j);
        return j as real + sps / 2.0;
      }
    }
    EdgeIs(levels, idx, stop, level, stop);
    u := t + sps;
  }

  /** One turn of the loop in `dpll_bits`: the level at the centre `t`, and the next centre. */
  method OneCell(samples: seq<bv8>, mask: bv8, t: real, sps: real) returns (lvl: bool, u: real)
    requires sps > 0.0 && 0.0 <= t < |samples| as real
    ensures u >= t + sps / 2.0
    ensures Centres(Levels(samples, mask), t, sps) == [lvl] + Centres(Levels(samples, mask), u, sps)
  {
    var idx := t.Floor;
    LevelsAt(samples, mask);
    hide Levels, NextEdge, NextCentre, Centres;
    lvl := samples[idx] & mask != 0;
    u := Nudged(samples, mask, t, sps, lvl);
    CentresNext(Levels(samples, mask), t, sps);
  }

  /** `dpll_bits`. */
  method DpllBits(samples: seq<bv8>, mask: bv8, sps: real) returns (bits: seq<bool>)
    requires sps > 0.0
    ensures bits == RecoveredCells(samples, mask, sps)
  {
    hide Levels, Masked, NextEdge, Centres;
    if |samples| == 0 {
      return [];
    }
    var i := FirstTransition(samples, mask);
    if i >= |samples| {
      return [];
    }
    bits := CellsFrom(samples, mask, i as real + sps / 2.0, sps);
  }

  /** The loop of `dpll_bits`. */
  method CellsFrom(samples: seq<bv8>, mask: bv8, start: real, sps: real) returns (bits: seq<bool>)
    requires sps > 0.0 && start >= 0.0
    ensures bits == Centres(Levels(samples, mask), start, sps)
  {
    hide *;
    var t := start;
    bits := [];
    while t < |samples| as real
      invariant t >= 0.0
      invariant Centres(Levels(samples, mask), start, sps) == bits + Centres(Levels(samples, mask), t, sps)
      decreases HalfCells(|samples|, t, sps)
    {
      var lvl, u := OneCell(samples, mask, t, sps);
      Closer(|samples|, t, u, sps);
      bits := bits + [lvl];
      t := u;
    }
    NoCentres(Levels(samples, mask), t, sps);
  }

  // Runs of equal level under the centres.

  /** From position `p` on the samples are the given runs. */
  predicate At(levels: seq<bool>, p: nat, level: bool, samples: seq<nat>) {
    p <= |levels| && levels[p..] == Expand(level, samples)
  }

  lemma RunAt(levels: seq<bool>, p: nat, level: bool, samples: seq<nat>)
    requires At(levels, p, level, samples) && samples != []
    ensures var end := p + samples[0];
      && end <= |levels| && At(levels, end, !level, samples[1..])
      && forall i :: p <= i < end ==> levels[i] == level
  {
    var end := p + samples[0];
    AllSame(level, samples[0]);
    assert levels[p..] == Repeat(level, samples[0]) + Expand(!level, samples[1..]);
    forall i | p <= i < end ensures levels[i] == level {
      assert levels[i] == levels[p..][i - p];
    }
    assert levels[end..] == levels[p..][samples[0]..];
  }

  lemma StartsAt(levels: seq<bool>, p: nat, level: bool, samples: seq<nat>)
    requires At(levels, p, level, samples) && samples != [] && samples[0] > 0
    ensures p < |levels| && levels[p] == level
  {
    RunAt(levels, p, level, samples);
  }

  /** The centre behind a centre before the transition at `end`. */
  function AfterCentre(t: real, sps: real, end: nat): real {
    if end as real <= t + sps / 2.0 then end as real + sps / 2.0 else t + sps
  }

  /** Samples at one level up to a transition at `end`. */
  predicate Steady(levels: seq<bool>, t: real, level: bool, end: nat) {
    && 0.0 <= t && end < |levels| && levels[end] != level
    && forall i :: t.Floor <= i < end ==> levels[i] == level
  }

  lemma Centre(levels: seq<bool>, t: real, sps: real, level: bool, end: nat)
    requires sps > 0.0 && Steady(levels, t, level, end) && t < end as real
    ensures Centres(levels, t, sps) == [level] + Centres(levels, AfterCentre(t, sps, end), sps)
  {
    var stop := Lookahead(|levels|, t, sps);
    EdgeIs(levels, t.Floor, stop, level, if end < stop then end else stop);
    hide NextEdge;
    assert NextCentre(levels, t, sps) == AfterCentre(t, sps, end);
  }

  lemma SteadyOn(levels: seq<bool>, t: real, u: real, level: bool, end: nat)
    requires Steady(levels, t, level, end) && t <= u
    ensures Steady(levels, u, level, end)
  {
  }

  /** The length of `c` cells. */
  function Span(c: nat, sps: real): real { c as real * sps }

  lemma SpanNext(c: nat, sps: real)
    requires sps > 0.0
    ensures Span(0, sps) == 0.0 && Span(c, sps) >= 0.0 && Span(c + 1, sps) == Span(c, sps) + sps
  {
    Product(c as real, sps);
    assert (c + 1) as real == c as real + 1.0;
  }

  /** The centre behind `c` centres at one level. */
  function Behind(t: real, sps: real, end: nat, c: nat): real {
    if end as real - t <= Span(c, sps) - sps / 2.0 then end as real + sps / 2.0 else t + Span(c, sps)
  }

  /** A run whose end lies between `c - 1` and `c` cells from its first centre has `c` centres. */
  lemma {:induction false} RunCentres(levels: seq<bool>, t: real, sps: real, level: bool, end: nat, c: nat)
    requires sps > 0.0 && Steady(levels, t, level, end)
    requires c > 0 && Span(c - 1, sps) < end as real - t <= Span(c, sps)
    ensures Behind(t, sps, end, c) >= 0.0
    ensures Centres(levels, t, sps) == Repeat(level, c) + Centres(levels, Behind(t, sps, end, c), sps)
    decreases c
  {
    hide Centres, Span, Repeat;
    SpanNext(c - 1, sps);
    assert t >= 0.0;
    var u := AfterCentre(t, sps, end);
    Centre(levels, t, sps, level, end);
    RepeatFirst(level, c);
    if c == 1 {
      hide Steady;
      NoRepeat(level);
      assert Repeat(level, 1) == [level];
    } else {
      SpanNext(c - 2, sps);
      SteadyOn(levels, t, u, level, end);
      hide Steady;
      RunCentres(levels, u, sps, level, end, c - 1);
    }
  }

  /** A longer run has more centres. */
  lemma {:induction false} MoreCentres(levels: seq<bool>, t: real, sps: real, level: bool, end: nat, c: nat)
    requires sps > 0.0 && Steady(levels, t, level, end)
    requires end as real - t > Span(c, sps)
    ensures t >= 0.0 && c < |Centres(levels, t, sps)| && Centres(levels, t, sps)[c] == level
    decreases c
  {
    hide Centres, Span;
    SpanNext(c, sps);
    assert t >= 0.0;
    var u := AfterCentre(t, sps, end);
    Centre(levels, t, sps, level, end);
    if c > 0 {
      SpanNext(c - 1, sps);
      SteadyOn(levels, t, u, level, end);
      hide Steady;
      MoreCentres(levels, u, sps, level, end, c - 1);
    }
  }

  /** Behind the last transition the level stays. */
  lemma {:induction false} LastCentres(levels: seq<bool>, t: real, sps: real, level: bool) returns (r: nat)
    requires sps > 0.0 && 0.0 <= t
    requires forall i :: t.Floor <= i < |levels| ==> levels[i] == level
    ensures Centres(levels, t, sps) == Repeat(level, r)
    decreases HalfCells(|levels|, t, sps)
  {
    r := 0;
    if t < |levels| as real {
      var u := NextCentre(levels, t, sps);
      Closer(|levels|, t, u, sps);
      assert u.Floor >= t.Floor;
      var more := LastCentres(levels, u, sps, level);
      r := more + 1;
      RepeatFirst(level, r);
    }
  }

  // How late transitions come.

  /** How far the end of a run lies behind the cells it stands for, counted from the last
      transition that came early; `late` so far. */
  function Lateness(late: real, run: nat, cells: nat, sps: real): real {
    late + run as real - Span(cells, sps)
  }

  function Positively(x: real): real { if x > 0.0 then x else 0.0 }

  function NextLate(samples: seq<nat>, cells: seq<nat>, late: real, sps: real): real
    requires samples != [] && cells != []
  {
    Positively(Lateness(late, samples[0], cells[0], sps))
  }

  /** No transition comes more than half a cell early or late. Early ones put the receiver right
      again; what late ones add up to is only forgotten at the next early one. */
  predicate Tracks(samples: seq<nat>, cells: seq<nat>, late: real, sps: real)
    requires |samples| == |cells|
    decreases |samples|
  {
    |samples| <= 1
    || (var x := Lateness(late, samples[0], cells[0], sps);
        -(sps / 2.0) < x <= sps / 2.0 && Tracks(samples[1..], cells[1..], Positively(x), sps))
  }

  /** The cells of all runs but the last, and some of the last. */
  function Shown(level: bool, cells: seq<nat>, last: nat): seq<bool>
    requires cells != []
  {
    Expand(level, cells[..|cells| - 1] + [last])
  }

  lemma ShownOnce(level: bool, cells: seq<nat>, last: nat)
    requires |cells| == 1
    ensures Shown(level, cells, last) == Repeat(level, last)
  {
    assert cells[..0] + [last] == [last] && [last][1..] == [];
    assert Expand(!level, []) == [];
  }

  lemma ShownNext(level: bool, cells: seq<nat>, last: nat)
    requires |cells| > 1
    ensures Shown(level, cells, last) == Repeat(level, cells[0]) + Shown(!level, cells[1..], last)
  {
    var s := cells[..|cells| - 1] + [last];
    assert s[0] == cells[0] && s[1..] == cells[1..][..|cells| - 2] + [last];
  }

  /** The first centre of a run that begins at `p`, the receiver `late` behind. */
  function FirstCentre(p: nat, late: real, sps: real): real { p as real - late + sps / 2.0 }

  predicate InStep(levels: seq<bool>, p: nat, level: bool, samples: seq<nat>, cells: seq<nat>, late: real, sps: real) {
    && sps > 0.0 && 0.0 <= late <= sps / 2.0
    && |samples| == |cells| && samples != [] && Positive(samples) && Positive(cells)
    && At(levels, p, level, samples)
  }

  lemma FirstSteady(levels: seq<bool>, p: nat, level: bool, samples: seq<nat>, cells: seq<nat>, late: real, sps: real)
    requires InStep(levels, p, level, samples, cells, late, sps) && |samples| > 1
    ensures Steady(levels, FirstCentre(p, late, sps), level, p + samples[0])
    ensures At(levels, p + samples[0], !level, samples[1..])
  {
    RunAt(levels, p, level, samples);
    hide At, Expand;
    assert samples[1..][0] == samples[1];
    StartsAt(levels, p + samples[0], !level, samples[1..]);
    assert FirstCentre(p, late, sps).Floor >= p;
  }

  lemma NextInStep(levels: seq<bool>, p: nat, level: bool, samples: seq<nat>, cells: seq<nat>, late: real, sps: real)
    requires InStep(levels, p, level, samples, cells, late, sps) && |samples| > 1
    requires Lateness(late, samples[0], cells[0], sps) <= sps / 2.0
    ensures InStep(levels, p + samples[0], !level, samples[1..], cells[1..], NextLate(samples, cells, late, sps), sps)
  {
    FirstSteady(levels, p, level, samples, cells, late, sps);
    hide At, Steady, Lateness;
  }

  /** One run in time. */
  lemma OneRun(levels: seq<bool>, p: nat, level: bool, samples: seq<nat>, cells: seq<nat>, late: real, sps: real)
    requires InStep(levels, p, level, samples, cells, late, sps) && |samples| > 1
    requires -(sps / 2.0) < Lateness(late, samples[0], cells[0], sps) <= sps / 2.0
    ensures var x := Positively(Lateness(late, samples[0], cells[0], sps));
      var p' := p + samples[0];
      && InStep(levels, p', !level, samples[1..], cells[1..], x, sps)
      && FirstCentre(p, late, sps) >= 0.0 && FirstCentre(p', x, sps) >= 0.0
      && Centres(levels, FirstCentre(p, late, sps), sps)
         == Repeat(level, cells[0]) + Centres(levels, FirstCentre(p', x, sps), sps)
  {
    FirstSteady(levels, p, level, samples, cells, late, sps);
    NextInStep(levels, p, level, samples, cells, late, sps);
    assert cells[0] > 0 && sps > 0.0;
    SpanNext(cells[0] - 1, sps);
    hide Centres, At, Span, Expand, Steady, Repeat, InStep;
    RunInTime(levels, p, level, samples[0], cells[0], late, sps);
  }

  lemma RunInTime(levels: seq<bool>, p: nat, level: bool, run: nat, c: nat, late: real, sps: real)
    requires sps > 0.0 && c > 0 && Steady(levels, FirstCentre(p, late, sps), level, p + run)
    requires -(sps / 2.0) < Lateness(late, run, c, sps) <= sps / 2.0
    ensures var x := Positively(Lateness(late, run, c, sps));
      && FirstCentre(p, late, sps) >= 0.0 && FirstCentre(p + run, x, sps) >= 0.0
      && Centres(levels, FirstCentre(p, late, sps), sps)
         == Repeat(level, c) + Centres(levels, FirstCentre(p + run, x, sps), sps)
  {
    var t, end := FirstCentre(p, late, sps), p + run;
    assert t >= 0.0;
    SpanNext(c - 1, sps);
    hide Centres, Span, Steady, Repeat;
    assert Span(c - 1, sps) < end as real - t <= Span(c, sps);
    RunCentres(levels, t, sps, level, end, c);
    assert Behind(t, sps, end, c) == FirstCentre(end, Positively(Lateness(late, run, c, sps)), sps);
  }

  predicate ReadAs(levels: seq<bool>, p: nat, level: bool, cells: seq<nat>, late: real, sps: real, last: nat) {
    && sps > 0.0 && cells != [] && FirstCentre(p, late, sps) >= 0.0
    && Centres(levels, FirstCentre(p, late, sps), sps) == Shown(level, cells, last)
  }

  lemma LastRun(levels: seq<bool>, p: nat, level: bool, samples: seq<nat>, cells: seq<nat>, late: real, sps: real)
    returns (last: nat)
    requires InStep(levels, p, level, samples, cells, late, sps) && |samples| == 1
    ensures ReadAs(levels, p, level, cells, late, sps, last)
  {
    RunAt(levels, p, level, samples);
    assert levels[p + samples[0]..] == [];
    hide At, Expand, Centres, Shown, Repeat;
    last := LastCentres(levels, FirstCentre(p, late, sps), sps, level);
    ShownOnce(level, cells, last);
  }

  lemma OneMoreRun(levels: seq<bool>, p: nat, level: bool, samples: seq<nat>, cells: seq<nat>, late: real, sps: real, last: nat)
    requires InStep(levels, p, level, samples, cells, late, sps) && |samples| > 1 && |cells| > 1
    requires -(sps / 2.0) < Lateness(late, samples[0], cells[0], sps) <= sps / 2.0
    requires ReadAs(levels, p + samples[0], !level, cells[1..], NextLate(samples, cells, late, sps), sps, last)
    ensures ReadAs(levels, p, level, cells, late, sps, last)
  {
    OneRun(levels, p, level, samples, cells, late, sps);
    ShownNext(level, cells, last);
    hide Centres, Shown, Repeat, InStep, Lateness, Positively, FirstCentre;
  }

  lemma {:induction false} TrackedCells(levels: seq<bool>, p: nat, level: bool, samples: seq<nat>, cells: seq<nat>,
                                        late: real, sps: real) returns (last: nat)
    requires InStep(levels, p, level, samples, cells, late, sps) && |samples| == |cells| && Tracks(samples, cells, late, sps)
    ensures ReadAs(levels, p, level, cells, late, sps, last)
    decreases |samples|
  {
    if |samples| == 1 {
      hide *;
      last := LastRun(levels, p, level, samples, cells, late, sps);
    } else {
      assert |samples| > 1 && |cells| > 1;
      TracksOn(samples, cells, late, sps);
      hide *;
      NextInStep(levels, p, level, samples, cells, late, sps);
      last := TrackedCells(levels, p + samples[0], !level, samples[1..], cells[1..], NextLate(samples, cells, late, sps), sps);
      OneMoreRun(levels, p, level, samples, cells, late, sps, last);
    }
  }

  lemma TracksOn(samples: seq<nat>, cells: seq<nat>, late: real, sps: real)
    requires |samples| == |cells| && |samples| > 1 && Tracks(samples, cells, late, sps)
    ensures -(sps / 2.0) < Lateness(late, samples[0], cells[0], sps) <= sps / 2.0
    ensures |samples[1..]| == |cells[1..]| && Tracks(samples[1..], cells[1..], NextLate(samples, cells, late, sps), sps)
  {
  }

  /** One run too late: a cell too many is seen. */
  lemma OneRunLate(levels: seq<bool>, p: nat, level: bool, samples: seq<nat>, cells: seq<nat>, late: real, sps: real, last: nat)
    requires InStep(levels, p, level, samples, cells, late, sps) && |samples| > 1
    requires Lateness(late, samples[0], cells[0], sps) > sps / 2.0
    ensures Misread(levels, p, level, cells, late, sps, last)
  {
    var t, end, c := FirstCentre(p, late, sps), p + samples[0], cells[0];
    FirstSteady(levels, p, level, samples, cells, late, sps);
    SpanNext(c, sps);
    hide Centres, At, Span, Expand, Shown, Steady, Repeat;
    MoreCentres(levels, t, sps, level, end, c);
    ShownNext(level, cells, last);
    NotSame(!level, cells[1..], last);
    var rest := Shown(!level, cells[1..], last);
    if rest != [] {
      assert Shown(level, cells, last)[c] == rest[0];
    }
  }

  lemma NotSame(level: bool, cells: seq<nat>, last: nat)
    requires cells != [] && Positive(cells)
    ensures Shown(level, cells, last) == [] || Shown(level, cells, last)[0] == level
  {
    var s := cells[..|cells| - 1] + [last];
    var first := s[0];
    if first > 0 {
      RepeatFirst(level, first);
    } else {
      assert |cells| == 1 && s[1..] == [];
      NoRepeat(level);
      assert Expand(!level, s[1..]) == [];
    }
  }

  predicate EachClose(samples: seq<nat>, cells: seq<nat>, sps: real)
    requires |samples| == |cells|
  {
    forall i :: 0 <= i < |samples| - 1 ==> Close(samples[i], cells[i], sps)
  }

  lemma FirstClose(samples: seq<nat>, cells: seq<nat>, late: real, sps: real)
    requires |samples| == |cells| && |samples| > 1 && EachClose(samples, cells, sps) && late >= 0.0
    ensures Lateness(late, samples[0], cells[0], sps) > -(sps / 2.0)
    ensures |samples[1..]| == |cells[1..]| && EachClose(samples[1..], cells[1..], sps)
  {
    assert Close(samples[0], cells[0], sps);
    forall i | 0 <= i < |samples| - 2 ensures Close(samples[1..][i], cells[1..][i], sps) {
      assert Close(samples[i + 1], cells[i + 1], sps);
    }
  }

  lemma NotYet(samples: seq<nat>, cells: seq<nat>, late: real, sps: real)
    requires |samples| == |cells| && EachClose(samples, cells, sps) && late >= 0.0 && !Tracks(samples, cells, late, sps)
    ensures |samples| > 1 && |samples[1..]| == |cells[1..]|
    ensures var x := Lateness(late, samples[0], cells[0], sps);
      -(sps / 2.0) < x && (x <= sps / 2.0 ==> !Tracks(samples[1..], cells[1..], Positively(x), sps))
    ensures EachClose(samples[1..], cells[1..], sps)
  {
    FirstClose(samples, cells, late, sps);
    hide Lateness, Positively, EachClose;
  }

  /** In step so far, but not to the end. */
  predicate Astray(levels: seq<bool>, p: nat, level: bool, samples: seq<nat>, cells: seq<nat>, late: real, sps: real) {
    && InStep(levels, p, level, samples, cells, late, sps)
    && EachClose(samples, cells, sps) && !Tracks(samples, cells, late, sps)
  }

  predicate Misread(levels: seq<bool>, p: nat, level: bool, cells: seq<nat>, late: real, sps: real, last: nat) {
    && sps > 0.0 && cells != [] && FirstCentre(p, late, sps) >= 0.0
    && Centres(levels, FirstCentre(p, late, sps), sps) != Shown(level, cells, last)
  }

  /** A wrong reading stays wrong with one run more in front. */
  lemma StillWrong(levels: seq<bool>, p: nat, level: bool, samples: seq<nat>, cells: seq<nat>, late: real, sps: real, last: nat)
    requires InStep(levels, p, level, samples, cells, late, sps) && |samples| > 1 && |cells| > 1
    requires -(sps / 2.0) < Lateness(late, samples[0], cells[0], sps) <= sps / 2.0
    requires Misread(levels, p + samples[0], !level, cells[1..], NextLate(samples, cells, late, sps), sps, last)
    ensures Misread(levels, p, level, cells, late, sps, last)
  {
    OneRun(levels, p, level, samples, cells, late, sps);
    ShownNext(level, cells, last);
    var t := FirstCentre(p + samples[0], NextLate(samples, cells, late, sps), sps);
    hide Centres, Shown, Repeat, InStep, Lateness, Positively, FirstCentre;
    Cancel(Repeat(level, cells[0]), Centres(levels, t, sps), Shown(!level, cells[1..], last));
  }

  lemma AstrayNext(levels: seq<bool>, p: nat, level: bool, samples: seq<nat>, cells: seq<nat>, late: real, sps: real)
    requires Astray(levels, p, level, samples, cells, late, sps)
    ensures |samples| > 1 && |cells| > 1 && InStep(levels, p, level, samples, cells, late, sps)
    ensures var x := Lateness(late, samples[0], cells[0], sps);
      && -(sps / 2.0) < x
      && (x <= sps / 2.0 ==>
            Astray(levels, p + samples[0], !level, samples[1..], cells[1..], NextLate(samples, cells, late, sps), sps))
  {
    NotYet(samples, cells, late, sps);
    hide Lateness, Positively, EachClose, Tracks;
    if Lateness(late, samples[0], cells[0], sps) <= sps / 2.0 {
      NextInStep(levels, p, level, samples, cells, late, sps);
    }
  }

  lemma {:induction false} UntrackedCells(levels: seq<bool>, p: nat, level: bool, samples: seq<nat>, cells: seq<nat>,
                                          late: real, sps: real, last: nat)
    requires Astray(levels, p, level, samples, cells, late, sps)
    ensures Misread(levels, p, level, cells, late, sps, last)
    decreases |samples|
  {
    hide *;
    AstrayNext(levels, p, level, samples, cells, late, sps);
    if Lateness(late, samples[0], cells[0], sps) > sps / 2.0 {
      OneRunLate(levels, p, level, samples, cells, late, sps, last);
    } else {
      UntrackedCells(levels, p + samples[0], !level, samples[1..], cells[1..], NextLate(samples, cells, late, sps), sps, last);
      StillWrong(levels, p, level, samples, cells, late, sps, last);
    }
  }

  lemma Cancel(x: seq<bool>, a: seq<bool>, b: seq<bool>)
    requires a != b
    ensures x + a != x + b
  {
    assert (x + a)[|x|..] == a && (x + b)[|x|..] == b;
  }

  /** The centres begin behind the first transition: at the first run, if the line was idle before,
      else at the second. */
  lemma FirstEdge(level: bool, n: nat, samples: seq<nat>, sps: real)
    requires sps > 0.0 && n > 0 && samples != [] && samples[0] > 0
    ensures var levels := Repeat(level, n) + Expand(!level, samples);
      At(levels, n, !level, samples) && DpllCells(levels, sps) == Centres(levels, FirstCentre(n, 0.0, sps), sps)
  {
    var levels := Repeat(level, n) + Expand(!level, samples);
    assert levels[n..] == Expand(!level, samples);
    AllSame(level, n);
    hide Expand, Repeat, Centres, NextEdge;
    StartsAt(levels, n, !level, samples);
    EdgeAt(levels, level, n, sps);
  }

  lemma EdgeAt(levels: seq<bool>, level: bool, n: nat, sps: real)
    requires sps > 0.0 && 0 < n < |levels| && levels[n] != level
    requires forall i :: 0 <= i < n ==> levels[i] == level
    ensures DpllCells(levels, sps) == Centres(levels, FirstCentre(n, 0.0, sps), sps)
  {
    hide Centres, NextEdge;
    EdgeIs(levels, 0, |levels|, level, n);
    assert levels[0] == level;
  }

  lemma FromRun(level: bool, samples: seq<nat>, sps: real)
    requires sps > 0.0 && |samples| > 1 && Positive(samples)
    ensures var levels := Line(level, 0, samples);
      && At(levels, samples[0], level, samples[1..])
      && DpllCells(levels, sps) == Centres(levels, FirstCentre(samples[0], 0.0, sps), sps)
  {
    assert samples[1..][0] == samples[1];
    FirstEdge(!level, samples[0], samples[1..], sps);
    hide *;
    NoRepeat(level);
    assert Line(level, 0, samples) == Repeat(!level, samples[0]) + Expand(level, samples[1..]) by {
      LineFromRun(level, samples);
    }
  }

  lemma LineFromRun(level: bool, samples: seq<nat>)
    requires samples != []
    ensures Line(level, 0, samples) == Repeat(!level, samples[0]) + Expand(level, samples[1..])
  {
    NoRepeat(level);
  }

  /** The first run whose end matters: a line that does not idle first is taken up at its second. */
  predicate Followed(idle: nat, samples: seq<nat>, cells: seq<nat>, sps: real)
    requires |samples| == |cells| > 0
  {
    if idle > 0 then Tracks(samples, cells, 0.0, sps) else Tracks(samples[1..], cells[1..], 0.0, sps)
  }

  /** The recovered cells are the given runs, all of the last one or some. */
  ghost predicate ReadsAs(levels: seq<bool>, level: bool, cells: seq<nat>, sps: real)
    requires sps > 0.0
  {
    if cells == [] then DpllCells(levels, sps) == []
    else exists last: nat :: DpllCells(levels, sps) == Shown(level, cells, last)
  }

  /** The recovered cells of a line are its runs, the first of them left out if the line does not idle before. */
  ghost predicate Recovered(level: bool, idle: nat, samples: seq<nat>, cells: seq<nat>, sps: real)
    requires sps > 0.0 && cells != []
  {
    var levels := Line(level, idle, samples);
    if idle > 0 then ReadsAs(levels, !level, cells, sps) else ReadsAs(levels, level, cells[1..], sps)
  }

  /** Exactly when the phase-locked recovery is right, on lines whose every run is off by less than
      half a cell (as the other recovery needs): when no transition comes more than half a cell
      late, lateness adding up from the last early transition on. */
  lemma RecoveredIffTracks(level: bool, idle: nat, samples: seq<nat>, cells: seq<nat>, sps: real)
    requires sps > 0.0 && samples != [] && Sampled(samples, cells, sps)
    ensures Recovered(level, idle, samples, cells, sps) <==> Followed(idle, samples, cells, sps)
  {
    var levels := Line(level, idle, samples);
    hide Expand, Line, Centres, DpllCells, ReadsAs, At, Tracks;
    if idle > 0 {
      FirstEdge(level, idle, samples, sps);
      LineIs(level, idle, samples);
      ReadsIffTracks(levels, idle, !level, samples, cells, sps);
    } else if |samples| > 1 {
      FromRun(level, samples, sps);
      SampledTail(samples, cells, sps);
      ReadsIffTracks(levels, samples[0], level, samples[1..], cells[1..], sps);
    } else {
      NoEdge(level, samples, sps);
      OneRunTracks(samples[1..], cells[1..], sps);
      NothingRead(levels, level, sps);
      assert cells[1..] == [];
    }
  }

  lemma LineIs(level: bool, idle: nat, samples: seq<nat>)
    ensures Line(level, idle, samples) == Repeat(level, idle) + Expand(!level, samples)
  {
  }

  lemma NoEdge(level: bool, samples: seq<nat>, sps: real)
    requires sps > 0.0 && |samples| == 1 && samples[0] > 0
    ensures DpllCells(Line(level, 0, samples), sps) == []
  {
    var levels := Line(level, 0, samples);
    NoRepeat(level);
    NoRepeat(!level);
    assert Expand(level, samples[1..]) == [];
    assert levels == Repeat(!level, samples[0]) + [] == Repeat(!level, samples[0]);
    AllSame(!level, samples[0]);
    hide NextEdge, Repeat, Expand, Line;
    EdgeIs(levels, 0, |levels|, levels[0], |levels|);
  }

  lemma OneRunTracks(samples: seq<nat>, cells: seq<nat>, sps: real)
    requires |samples| == |cells| <= 1
    ensures Tracks(samples, cells, 0.0, sps)
  {
  }

  lemma NothingRead(levels: seq<bool>, level: bool, sps: real)
    requires sps > 0.0 && DpllCells(levels, sps) == []
    ensures ReadsAs(levels, level, [], sps)
  {
  }

  lemma ReadsIffTracks(levels: seq<bool>, p: nat, level: bool, samples: seq<nat>, cells: seq<nat>, sps: real)
    requires sps > 0.0 && samples != [] && Sampled(samples, cells, sps) && At(levels, p, level, samples)
    requires DpllCells(levels, sps) == Centres(levels, FirstCentre(p, 0.0, sps), sps)
    ensures ReadsAs(levels, level, cells, sps) <==> Tracks(samples, cells, 0.0, sps)
  {
    Steps(levels, p, level, samples, cells, sps);
    hide *;
    if Tracks(samples, cells, 0.0, sps) {
      var last := TrackedCells(levels, p, level, samples, cells, 0.0, sps);
      Witness(levels, p, level, cells, sps, last);
    } else {
      forall last: nat ensures Misread(levels, p, level, cells, 0.0, sps, last) {
        UntrackedCells(levels, p, level, samples, cells, 0.0, sps, last);
      }
      NoWitness(levels, p, level, cells, sps);
    }
  }

  lemma Steps(levels: seq<bool>, p: nat, level: bool, samples: seq<nat>, cells: seq<nat>, sps: real)
    requires sps > 0.0 && samples != [] && Sampled(samples, cells, sps) && At(levels, p, level, samples)
    ensures |samples| == |cells| > 0 && FirstCentre(p, 0.0, sps) >= 0.0
    ensures InStep(levels, p, level, samples, cells, 0.0, sps)
    ensures !Tracks(samples, cells, 0.0, sps) ==> Astray(levels, p, level, samples, cells, 0.0, sps)
  {
    hide Tracks, At;
  }

  lemma Witness(levels: seq<bool>, p: nat, level: bool, cells: seq<nat>, sps: real, last: nat)
    requires ReadAs(levels, p, level, cells, 0.0, sps, last)
    requires DpllCells(levels, sps) == Centres(levels, FirstCentre(p, 0.0, sps), sps)
    ensures ReadsAs(levels, level, cells, sps)
  {
    assert DpllCells(levels, sps) == Shown(level, cells, last);
  }

  lemma NoWitness(levels: seq<bool>, p: nat, level: bool, cells: seq<nat>, sps: real)
    requires sps > 0.0 && cells != [] && FirstCentre(p, 0.0, sps) >= 0.0
    requires DpllCells(levels, sps) == Centres(levels, FirstCentre(p, 0.0, sps), sps)
    requires forall last: nat :: Misread(levels, p, level, cells, 0.0, sps, last)
    ensures !ReadsAs(levels, level, cells, sps)
  {
    forall last: nat ensures DpllCells(levels, sps) != Shown(level, cells, last) {
      assert Misread(levels, p, level, cells, 0.0, sps, last);
    }
  }

  // Which lines are tracked.

  /** Transitions off by less than a quarter of a cell from a sender's regular clock, `off[i]` where
      run `i` begins. */
  predicate Jitters(samples: seq<nat>, cells: seq<nat>, off: seq<real>, sps: real) {
    && |samples| == |cells| == |off|
    && (forall i :: 0 <= i < |off| ==> -(sps / 4.0) < off[i] < sps / 4.0)
    && (forall i :: 0 <= i < |off| - 1 ==> samples[i] as real == Span(cells[i], sps) + off[i + 1] - off[i])
  }

  /** Such jitter never adds up. */
  lemma JitterTolerated(samples: seq<nat>, cells: seq<nat>, off: seq<real>, sps: real)
    requires sps > 0.0 && Jitters(samples, cells, off, sps)
    ensures Tracks(samples, cells, 0.0, sps)
  {
    if |samples| > 0 {
      JitterFrom(samples, cells, off, off[0], sps);
    }
  }

  /** `base` is the offset of the last early transition. */
  lemma {:induction false} JitterFrom(samples: seq<nat>, cells: seq<nat>, off: seq<real>, base: real, sps: real)
    requires sps > 0.0 && Jitters(samples, cells, off, sps) && off != []
    requires -(sps / 4.0) < base < sps / 4.0
    ensures Tracks(samples, cells, off[0] - base, sps)
    decreases |samples|
  {
    hide Span;
    if |samples| > 1 {
      var x := Lateness(off[0] - base, samples[0], cells[0], sps);
      assert x == off[1] - base;
      forall i | 0 <= i < |off| - 2
        ensures samples[1..][i] as real == Span(cells[1..][i], sps) + off[1..][i + 1] - off[1..][i] {
        assert samples[i + 1] as real == Span(cells[i + 1], sps) + off[i + 2] - off[i + 1];
      }
      JitterFrom(samples[1..], cells[1..], off[1..], if x > 0.0 then base else off[1], sps);
    }
  }

  /** Nor do transitions that come early, however often: a fast sender is followed. */
  lemma {:induction false} EarlyTolerated(samples: seq<nat>, cells: seq<nat>, sps: real)
    requires sps > 0.0 && |samples| == |cells|
    requires forall i :: 0 <= i < |samples| - 1 ==> -(sps / 2.0) < Lateness(0.0, samples[i], cells[i], sps) <= 0.0
    ensures Tracks(samples, cells, 0.0, sps)
    decreases |samples|
  {
    hide Lateness;
    if |samples| > 1 {
      forall i | 0 <= i < |samples| - 2 ensures -(sps / 2.0) < Lateness(0.0, samples[1..][i], cells[1..][i], sps) <= 0.0 {
        assert -(sps / 2.0) < Lateness(0.0, samples[i + 1], cells[i + 1], sps) <= 0.0;
      }
      EarlyTolerated(samples[1..], cells[1..], sps);
    }
  }

  /** A slow sender is lost in the end, however little it is slow: runs that are each late by `d` or
      more are misread once those add up to half a cell. */
  lemma {:induction false} SlowSenderLost(samples: seq<nat>, cells: seq<nat>, d: real, late: real, sps: real)
    requires sps > 0.0 && d > 0.0 && late >= 0.0 && |samples| == |cells| && samples != []
    requires forall i :: 0 <= i < |samples| - 1 ==> Lateness(0.0, samples[i], cells[i], sps) >= d
    requires late <= sps / 2.0 < late + Span(|samples| - 1, d)
    ensures !Tracks(samples, cells, late, sps)
    decreases |samples|
  {
    var n := |samples| - 1;
    SpanNext(0, d);
    assert n > 0;
    SpanNext(n - 1, d);
    var x := Lateness(late, samples[0], cells[0], sps);
    assert x == late + Lateness(0.0, samples[0], cells[0], sps);
    hide Span, Lateness;
    if x <= sps / 2.0 {
      forall i | 0 <= i < |samples| - 2 ensures Lateness(0.0, samples[1..][i], cells[1..][i], sps) >= d {
        assert Lateness(0.0, samples[i + 1], cells[i + 1], sps) >= d;
      }
      SlowSenderLost(samples[1..], cells[1..], d, x, sps);
    }
  }

  // The receive pipeline with this recovery.

  function DpllReceived(levels: seq<bool>, sps: real): seq<seq<bv8>>
    requires sps > 0.0
  {
    Messages(Hunt(Decode(true, DpllCells(levels, sps))))
  }

  /** `decode_with` as it runs by default, and the loop over its candidates. */
  method DpllReceive(samples: seq<bv8>, mask: bv8, sps: real) returns (messages: seq<seq<bv8>>)
    requires sps > 0.0
    ensures messages == Messages(Hunt(Decode(true, RecoveredCells(samples, mask, sps))))
    ensures mask & (mask - 1) == 0 ==> messages == DpllReceived(Levels(samples, mask), sps)
  {
    hide Messages, Hunt, Decode, DpllCells, RecoveredCells, Levels;
    if mask & (mask - 1) == 0 {
      OnePin(samples, mask, sps);
    }
    var bits := DpllBits(samples, mask, sps);
    var data := NrziDecode(bits);
    var frames := FindFrames(data);
    messages := SelectMessages(frames);
  }

  lemma {:induction false} EncodeOnesThen(level: bool, n: nat, rest: seq<bool>)
    ensures Encode(level, Repeat(true, n) + rest) == Repeat(level, n) + Encode(level, rest)
  {
    var s := Repeat(true, n) + rest;
    if n == 0 {
      assert s == rest;
    } else {
      assert s[0] && s[1..] == Repeat(true, n - 1) + rest;
      EncodeOnesThen(level, n - 1, rest);
    }
  }

  lemma EncodeRun(level: bool, m: nat, rest: seq<bool>)
    requires m > 0
    ensures Encode(level, [false] + Repeat(true, m - 1) + rest) == Repeat(!level, m) + Encode(!level, rest)
  {
    var s := [false] + Repeat(true, m - 1) + rest;
    assert s[1..] == Repeat(true, m - 1) + rest;
    EncodeOnesThen(!level, m - 1, rest);
    RepeatFirst(!level, m);
  }

  /** The bits of a line whose last run shows `last` cells: one, if the line just ends. */
  function Ended(bits: seq<bool>, last: nat): seq<bool>
    requires bits != []
  {
    if last == 0 then bits[..|bits| - 1] else bits + Repeat(true, last - 1)
  }

  lemma EndedTail(bits: seq<bool>, m: nat, last: nat)
    requires m < |bits|
    ensures Ended(bits, last) == bits[..m] + Ended(bits[m..], last)
  {
    var a, b := bits[..m], bits[m..];
    assert bits == a + b;
    if last == 0 {
      assert bits[..|bits| - 1] == a + b[..|b| - 1];
    } else {
      var more := Repeat(true, last - 1);
      assert Ended(bits, last) == bits + more && Ended(b, last) == b + more;
      hide *;
      assert (a + b) + more == a + (b + more);
    }
  }

  lemma {:induction false} ShownIs(level: bool, cells: seq<nat>, bits: seq<bool>, last: nat)
    requires cells != [] && Positive(cells) && Expand(!level, cells) == Encode(level, bits)
    requires bits != [] && !bits[|bits| - 1]
    ensures Shown(!level, cells, last) == Encode(level, Ended(bits, last))
    decreases |cells|
  {
    FirstRun(level, cells, bits);
    var m := cells[0];
    if |cells| == 1 {
      OnlyRun(level, m, bits, last);
      ShownOnce(!level, cells, last);
    } else {
      MoreBits(level, cells[1..], bits[m..]);
      hide Encode, Expand, Shown, Ended;
      ShownIs(!level, cells[1..], bits[m..], last);
      ShownNext(!level, cells, last);
      EndedTail(bits, m, last);
      EncodeRun(level, m, Ended(bits[m..], last));
    }
  }

  lemma MoreBits(level: bool, cells: seq<nat>, bits: seq<bool>)
    requires cells != [] && cells[0] > 0 && Expand(level, cells) == Encode(!level, bits)
    ensures bits != []
  {
    RepeatFirst(level, cells[0]);
  }

  lemma OnlyRun(level: bool, m: nat, bits: seq<bool>, last: nat)
    requires 0 < m <= |bits| && bits[..m] == [false] + Repeat(true, m - 1) && Encode(!level, bits[m..]) == []
    requires !bits[|bits| - 1]
    ensures Encode(level, Ended(bits, last)) == Repeat(!level, last)
  {
    assert |bits| == m && bits[..m] == bits;
    AllSame(true, m - 1);
    assert m == 1 && Repeat(true, 0) == [];
    if last > 0 {
      EncodeRun(level, last, []);
      assert [false] + Repeat(true, last - 1) + [] == Ended(bits, last);
    }
  }

  /** What follows the last frame's first seven flag bits. */
  function Rest(closing: nat, last: nat): seq<bool>
    requires closing > 0
  {
    if last == 0 then CutAfter(closing) else [false] + (Flags(closing - 1) + Repeat(true, last - 1))
  }

  lemma EndedLine(sent: seq<Sent>, closing: nat, last: nat)
    requires closing > 0
    ensures var bits := LineBits(sent, closing);
      bits != [] && !bits[|bits| - 1] && Ended(bits, last) == Upto(sent, Rest(closing, last))
    ensures Quiet(Rest(closing, last))
  {
    RestQuiet(closing, last);
    CutIsUpto(sent, closing);
    LastCut(LineBits(sent, closing), Upto(sent, CutAfter(closing)));
    hide Upto, LineBits, Quiet, CutAfter, Flags, Repeat;
    if last > 0 {
      LineIsUpto(sent, closing, Repeat(true, last - 1));
    }
  }

  lemma LastCut(bits: seq<bool>, line: seq<bool>)
    requires bits == line + [false]
    ensures bits != [] && !bits[|bits| - 1] && bits[..|bits| - 1] == line
  {
  }

  lemma RestQuiet(closing: nat, last: nat)
    requires closing > 0
    ensures Quiet(Rest(closing, last))
  {
    hide Quiet, CutAfter, Flags, Repeat;
    if last == 0 {
      CutQuiet(closing);
    } else {
      IdleQuiet(closing - 1, last - 1);
    }
  }

  /** The line idles before its first run. */
  lemma DecodedFromIdle(level: bool, cells: seq<nat>, last: nat, sent: seq<Sent>, closing: nat)
    requires sent != [] && WellSent(sent) && closing > 0
    requires cells != [] && Positive(cells) && Expand(!level, cells) == Encode(level, LineBits(sent, closing))
    ensures Messages(Hunt(Decode(true, Shown(!level, cells, last)))) == Frames(sent)
  {
    var bits, after := LineBits(sent, closing), Rest(closing, last);
    EndedLine(sent, closing, last);
    StartsWithHead(sent, after);
    assert Upto(sent, after) != [] && !Upto(sent, after)[0];
    hide *;
    ShownIs(level, cells, bits, last);
    DecodeLine(level, 0, Upto(sent, after));
    NoRepeat(level);
    NoLead(level);
    HuntLead(level, 0, sent, after);
  }

  lemma NoLead(level: bool)
    ensures Repeat(level, 0) == [] && 0 <= MAX_RUN_BITS
  {
  }

  /** Runs of one level have one length. */
  lemma {:induction false} RunsMatch(level: bool, a: nat, x: seq<bool>, b: nat, y: seq<bool>)
    requires Repeat(level, a) + x == Repeat(level, b) + y
    requires (x == [] || x[0] != level) && (y == [] || y[0] != level)
    ensures a == b && x == y
    decreases a
  {
    NoRepeat(level);
    if a > 0 && b > 0 {
      RepeatFirst(level, a);
      RepeatFirst(level, b);
      var s := Repeat(level, a) + x;
      assert s[1..] == Repeat(level, a - 1) + x == Repeat(level, b - 1) + y;
      RunsMatch(level, a - 1, x, b - 1, y);
    }
  }

  lemma ExpandStarts(level: bool, cells: seq<nat>)
    requires Positive(cells)
    ensures cells == [] || (Expand(level, cells) != [] && Expand(level, cells)[0] == level)
  {
    if cells != [] {
      RepeatFirst(level, cells[0]);
    }
  }

  /** The first run of a line is its first flag up to the last bit. */
  lemma FirstRunIsSeven(level: bool, cells: seq<nat>, bits: seq<bool>, rest: seq<bool>)
    requires cells != [] && Positive(cells) && Expand(!level, cells) == Encode(level, bits)
    requires bits == FLAG_HEAD + ([false] + rest)
    ensures |cells| > 1 && Expand(level, cells[1..]) == Encode(!level, [false] + rest)
  {
    FiveOnes([]);
    assert bits == [false] + Repeat(true, 6) + ([false] + rest);
    EncodeRun(level, 7, [false] + rest);
    ExpandStarts(level, cells[1..]);
    var more := Encode(!level, [false] + rest);
    assert more[0] == level;
    assert Expand(!level, cells) == Repeat(!level, cells[0]) + Expand(level, cells[1..]);
    assert cells[1..] == [] ==> Expand(level, cells[1..]) == [];
    hide Encode, Expand, Repeat;
    RunsMatch(!level, cells[0], Expand(level, cells[1..]), 7, more);
  }

  lemma SecondFlag(sent: seq<Sent>, closing: nat) returns (rest: seq<bool>)
    requires sent != [] && sent[0].flags > 0
    ensures LineBits(sent, closing) == FLAG_HEAD + ([false] + rest)
  {
    var more := Stuff(FrameBits(sent[0].frame), 0) + LineBits(sent[1..], closing);
    assert LineBits(sent, closing) == Flags(sent[0].flags) + more;
    rest := Flags(sent[0].flags - 1) + more;
    hide *;
    FlagsHead(sent[0].flags, more);
  }

  lemma SameEnd(a: seq<bool>, x: seq<bool>, y: seq<bool>)
    requires a + x == a + y
    ensures x == y
  {
    assert (a + x)[|a|..] == x && (a + y)[|a|..] == y;
  }

  /** The rest of the line once the first flag has been passed. */
  lemma EndedRest(sent: seq<Sent>, closing: nat, last: nat) returns (tail: seq<bool>)
    requires sent != [] && WellSent(sent) && closing > 0
    ensures LineBits(sent, closing) == FLAG_HEAD + tail && tail != [] && !tail[0] && !tail[|tail| - 1]
    ensures sent[0].flags > 0 && Ended(tail, last) == [false] + Upto(Less(sent), Rest(closing, last))
  {
    var bits, after := LineBits(sent, closing), Rest(closing, last);
    var rest := SecondFlag(sent, closing);
    tail := [false] + rest;
    EndedLine(sent, closing, last);
    StartsWithHead(sent, after);
    assert AfterHead(sent, after) == [false] + Upto(Less(sent), after);
    hide LineBits, Upto, Ended, Rest, AfterHead;
    assert bits[..7] == FLAG_HEAD && bits[7..] == tail && bits[|bits| - 1] == tail[|tail| - 1];
    EndedTail(bits, 7, last);
    SameEnd(FLAG_HEAD, Ended(tail, last), [false] + Upto(Less(sent), after));
  }

  /** What is left of the first flag, read rightly or not, does no harm. */
  lemma HalfFlag(level: bool, sent: seq<Sent>, after: seq<bool>)
    requires sent != [] && sent[0].flags > 0
    ensures var next := Upto(sent, after); Hunt(Lead(level, 0, [false] + next)) == Hunt(next)
  {
    var next := Upto(sent, after);
    StartsWithHead(sent, after);
    assert |next| >= 8 && !next[0] by {
      var more := Stuff(FrameBits(sent[0].frame), 0) + Upto(sent[1..], after);
      assert next == Flags(sent[0].flags) + more;
    }
    hide Upto, Hunt, AtFlag;
    if level {
      assert !AtFlag([false] + next) by {
        NotTwo(next);
      }
      HuntZero(next);
    } else {
      assert ([false] + next)[1..] == next;
      HuntOnes(1, next);
      RepeatFirst(true, 1);
      assert Repeat(true, 1) == [true];
    }
  }

  lemma NotTwo(s: seq<bool>)
    requires s != [] && !s[0]
    ensures !AtFlag([false] + s)
  {
  }

  lemma LessFrames(sent: seq<Sent>)
    requires sent != [] && WellSent(sent)
    ensures sent[0].flags > 0 && Less(sent) != [] && Less(sent)[0].flags > 0 && |Less(sent)[0].frame| >= 2
    ensures WellSent(Less(sent)[1..]) && Frames(Less(sent)) == Frames(sent)
  {
    assert Less(sent)[1..] == sent[1..];
  }

  /** The recovery begins in the middle of the first flag. */
  lemma DecodedFromRun(level: bool, cells: seq<nat>, last: nat, sent: seq<Sent>, closing: nat)
    requires sent != [] && WellSent(sent) && closing > 0
    requires cells != [] && Positive(cells) && Expand(!level, cells) == Encode(level, LineBits(sent, closing))
    ensures |cells| > 1 && Messages(Hunt(Decode(true, Shown(level, cells[1..], last)))) == Frames(sent)
  {
    var tail := EndedRest(sent, closing, last);
    assert tail == [false] + tail[1..];
    FirstRunIsSeven(level, cells, LineBits(sent, closing), tail[1..]);
    EndedLine(sent, closing, last);
    LessFrames(sent);
    assert cells[1..] != [] && Positive(cells[1..]);
    var next, above := Upto(Less(sent), Rest(closing, last)), !level;
    hide *;
    ShownIs(above, cells[1..], tail, last);
    DecodeLine(above, 0, [false] + next);
    NoRepeat(above);
    NoLead(above);
    HalfFlag(above, Less(sent), Rest(closing, last));
    HuntLine(Less(sent), Rest(closing, last));
  }

  /** The receive pipeline as it runs by default delivers exactly the frames sent, whenever the
      recovery can follow the line. */
  lemma FollowedFramesDelivered(sent: seq<Sent>, closing: nat, level: bool, idle: nat,
                                samples: seq<nat>, cells: seq<nat>, sps: real)
    requires sent != [] && WellSent(sent) && closing > 0
    requires |samples| == |cells| > 0 && Positive(samples) && Positive(cells)
    requires Expand(!level, cells) == Encode(level, LineBits(sent, closing))
    requires sps > 0.0 && Followed(idle, samples, cells, sps)
    ensures DpllReceived(Line(level, idle, samples), sps) == Frames(sent)
  {
    hide Expand, Encode, LineBits, Shown, Centres, DpllCells, Tracks;
    if idle > 0 {
      FirstEdge(level, idle, samples, sps);
      var last := Tracked(Line(level, idle, samples), idle, !level, samples, cells, sps);
      DecodedFromIdle(level, cells, last, sent, closing);
    } else {
      DecodedFromRun(level, cells, 0, sent, closing);
      FromRun(level, samples, sps);
      assert Positive(samples[1..]) && Positive(cells[1..]);
      var last := Tracked(Line(level, idle, samples), samples[0], level, samples[1..], cells[1..], sps);
      DecodedFromRun(level, cells, last, sent, closing);
    }
  }

  lemma Tracked(levels: seq<bool>, p: nat, level: bool, samples: seq<nat>, cells: seq<nat>, sps: real) returns (last: nat)
    requires sps > 0.0 && |samples| == |cells| > 0 && Positive(samples) && Positive(cells)
    requires At(levels, p, level, samples) && Tracks(samples, cells, 0.0, sps)
    requires DpllCells(levels, sps) == Centres(levels, FirstCentre(p, 0.0, sps), sps)
    ensures DpllCells(levels, sps) == Shown(level, cells, last)
  {
    hide At, Tracks, DpllCells, Centres, Shown;
    last := TrackedCells(levels, p, level, samples, cells, 0.0, sps);
  }

  lemma JitterTail(samples: seq<nat>, cells: seq<nat>, off: seq<real>, sps: real)
    requires Jitters(samples, cells, off, sps) && off != []
    ensures Jitters(samples[1..], cells[1..], off[1..], sps)
  {
    hide Span;
    forall i | 0 <= i < |off| - 2
      ensures samples[1..][i] as real == Span(cells[1..][i], sps) + off[1..][i + 1] - off[1..][i] {
      assert samples[i + 1] as real == Span(cells[i + 1], sps) + off[i + 2] - off[i + 1];
    }
  }

  /** End to end: data sent with their check sequence come out checked and in order, if no transition
      is off by a quarter of a cell. */
  lemma JitteredDataDelivered(data: seq<(nat, seq<bv8>)>, closing: nat, level: bool, idle: nat,
                              samples: seq<nat>, cells: seq<nat>, off: seq<real>, sps: real)
    requires data != [] && closing > 0 && forall i :: 0 <= i < |data| ==> data[i].0 >= 2
    requires Positive(samples) && Positive(cells) && Expand(!level, cells) == Encode(level, LineBits(Checked(data), closing))
    requires sps > 0.0 && Jitters(samples, cells, off, sps)
    ensures GoodData(DpllReceived(Line(level, idle, samples), sps)) == Contents(data)
  {
    CheckedGood(data);
    EndedLine(Checked(data), closing, 1);
    assert |samples| == |cells| == |off|;
    assert cells != [] by {
      assert |Encode(level, LineBits(Checked(data), closing))| > 0;
    }
    JitterTolerated(samples, cells, off, sps);
    JitterTail(samples, cells, off, sps);
    JitterTolerated(samples[1..], cells[1..], off[1..], sps);
    assert Followed(idle, samples, cells, sps);
    hide *;
    FollowedFramesDelivered(Checked(data), closing, level, idle, samples, cells, sps);
  }
}
