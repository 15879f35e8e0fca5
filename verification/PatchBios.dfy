/** `patch_bios.py`: a BIOS laid over Track 0 of a disk image, and `imd2raw.py`, which reads Track 0
    back out of it. */
module PatchBios {
  import opened Bytes
  import opened Wrappers
  import opened Imd

  // Sectors in ascending order: Python's stable `sorted(..., key=number)`.

  function Insert(s: Sector, l: seq<Sector>): (r: seq<Sector>)
    ensures |r| == |l| + 1
  {
    if l == [] then [s]
    else if s.num < l[0].num then [s] + l
    else [l[0]] + Insert(s, l[1..])
  }

  function Sorted(l: seq<Sector>): (r: seq<Sector>)
    ensures |r| == |l|
  {
    if l == [] then [] else Insert(l[|l| - 1], Sorted(l[..|l| - 1]))
  }

  function Concat(l: seq<Sector>): seq<byte> {
    if l == [] then [] else l[0].data + Concat(l[1..])
  }

  /** The data of a track in sector order. */
  function Content(t: Track): seq<byte> { Concat(Sorted(t.sectors)) }

  // The BIOS over one side.

  /** What a sector holds when the BIOS from `pos` on is laid over it. */
  function NewData(orig: seq<byte>, cim: seq<byte>, pos: nat, size: nat): seq<byte> {
    if pos >= |cim| then orig
    else if |cim| - pos >= size then cim[pos..pos + size]
    else cim[pos..] + Slice(orig, |cim| - pos, |orig|)
  }

  function NextPos(cim: seq<byte>, pos: nat, size: nat): nat {
    if pos < |cim| then pos + size else pos
  }

  function Patched(orig: seq<Sector>, cim: seq<byte>, pos: nat, size: nat): (r: seq<Sector>)
    ensures |r| == |orig|
    decreases |orig|
  {
    if orig == [] then []
    else [Sector(orig[0].num, NewData(orig[0].data, cim, pos, size))] + Patched(orig[1..], cim, NextPos(cim, pos, size), size)
  }

  function PosAfter(orig: seq<Sector>, cim: seq<byte>, pos: nat, size: nat): nat
    decreases |orig|
  {
    if orig == [] then pos else PosAfter(orig[1..], cim, NextPos(cim, pos, size), size)
  }

  /** One turn of the loop over the sectors of a side. */
  method PatchSector(origData: seq<byte>, cim: seq<byte>, pos: nat, size: nat) returns (data: seq<byte>, next: nat)
    ensures data == NewData(origData, cim, pos, size) && next == NextPos(cim, pos, size)
  {
    if pos < |cim| {
      var remaining := |cim| - pos;
      if remaining >= size {
        data := cim[pos..pos + size];
      } else {
        var patched := cim[pos..];
        patched := patched + Slice(origData, remaining, |origData|);
        data := patched;
      }
      next := pos + size;
    } else {
      data, next := origData, pos;
    }
  }

  /** The loop over the sorted sectors of one side. */
  method PatchSide(orig: seq<Sector>, cim: seq<byte>, start: nat, size: nat) returns (new_: seq<Sector>, cimPos: nat)
    ensures new_ == Patched(orig, cim, start, size) && cimPos == PosAfter(orig, cim, start, size)
  {
    new_ := [];
    cimPos := start;
    assert orig[0..] == orig;
    hide *;
    for i := 0 to |orig|
      invariant Patched(orig, cim, start, size) == new_ + Patched(orig[i..], cim, cimPos, size)
      invariant PosAfter(orig, cim, start, size) == PosAfter(orig[i..], cim, cimPos, size)
    {
      PatchedAt(orig, cim, cimPos, size, i);
      var data, next := PatchSector(orig[i].data, cim, cimPos, size);
      new_ := new_ + [Sector(orig[i].num, data)];
      cimPos := next;
    }
    PatchedAt(orig, cim, cimPos, size, |orig|);
  }

  lemma PatchedAt(orig: seq<Sector>, cim: seq<byte>, pos: nat, size: nat, i: nat)
    requires i <= |orig|
    ensures i == |orig| ==> Patched(orig[i..], cim, pos, size) == [] && PosAfter(orig[i..], cim, pos, size) == pos
    ensures i < |orig| ==>
      var next := NextPos(cim, pos, size);
      && Patched(orig[i..], cim, pos, size)
         == [Sector(orig[i].num, NewData(orig[i].data, cim, pos, size))] + Patched(orig[i + 1..], cim, next, size)
      && PosAfter(orig[i..], cim, pos, size) == PosAfter(orig[i + 1..], cim, next, size)
  {
    hide NewData, NextPos;
    if i < |orig| {
      assert orig[i..][1..] == orig[i + 1..];
    }
  }

  // The whole image.

  datatype PatchError = BadImage(error: ImdError) | NoTrack0 | TooLarge | MissingSector

  predicate IsSide(t: Track, head: byte) { t.cyl == 0 && t.Head() == head }

  /** The first track of cylinder 0 under `head`. */
  function FindSide(tracks: seq<Track>, head: byte): Option<Track> {
    if tracks == [] then None
    else if IsSide(tracks[0], head) then Some(tracks[0])
    else FindSide(tracks[1..], head)
  }

  function Capacity(t: Option<Track>): nat {
    match t
    case None => 0
    case Some(s) => |s.secnums| * s.SectorSize()
  }

  /** The record a track becomes: rewritten if it is a side of Track 0 with new data, else copied. */
  function Piece(t: Track, image: seq<byte>, new0: seq<Sector>, new1: Option<seq<Sector>>): Option<seq<byte>> {
    if |t.secnums| >= 256 then None
    else if IsSide(t, 0) then TrackBytes(t, new0)
    else if IsSide(t, 1) && new1.Some? then TrackBytes(t, new1.value)
    else if t.start <= t.end then Some(Slice(image, t.start, t.end - t.start))
    else None
  }

  function Rebuilt(tracks: seq<Track>, image: seq<byte>, new0: seq<Sector>, new1: Option<seq<Sector>>): Option<seq<byte>> {
    if tracks == [] then Some([])
    else
      var first, rest := Piece(tracks[0], image, new0, new1), Rebuilt(tracks[1..], image, new0, new1);
      if first.Some? && rest.Some? then Some(first.value + rest.value) else None
  }

  /** The new sectors of side 0, and of side 1 if the BIOS reaches it. */
  function NewSides(s0: Track, s1: Option<Track>, cim: seq<byte>): (seq<Sector>, Option<seq<Sector>>) {
    var pos := PosAfter(Sorted(s0.sectors), cim, 0, s0.SectorSize());
    (Patched(Sorted(s0.sectors), cim, 0, s0.SectorSize()),
     if s1.Some? && pos < |cim| then Some(Patched(Sorted(s1.value.sectors), cim, pos, s1.value.SectorSize())) else None)
  }

  function PatchedImage(image: seq<byte>, cim: seq<byte>): Result<seq<byte>, PatchError> {
    match Parsed(image)
    case Failure(e) => Failure(BadImage(e))
    case Success((header, tracks)) =>
      var s0, s1 := FindSide(tracks, 0), FindSide(tracks, 1);
      if s0.None? then Failure(NoTrack0)
      else if |cim| > Capacity(s0) + Capacity(s1) then Failure(TooLarge)
      else
        var (new0, new1) := NewSides(s0.value, s1, cim);
        match Rebuilt(tracks, image, new0, new1)
        case None => Failure(MissingSector)
        case Some(body) => Success(header + body)
  }

  method FindFirst(tracks: seq<Track>, head: byte) returns (t: Option<Track>)
    ensures t == FindSide(tracks, head)
  {
    assert tracks[0..] == tracks;
    for i := 0 to |tracks|
      invariant FindSide(tracks, head) == FindSide(tracks[i..], head)
    {
      assert tracks[i..][1..] == tracks[i + 1..];
      if tracks[i].cyl == 0 && tracks[i].Head() == head {
        return Some(tracks[i]);
      }
    }
    return None;
  }

  /** The loop that rebuilds the file. */
  method Rebuild(tracks: seq<Track>, image: seq<byte>, new0: seq<Sector>, new1: Option<seq<Sector>>)
    returns (body: Option<seq<byte>>)
    ensures body == Rebuilt(tracks, image, new0, new1)
  {
    var out: seq<byte> := [];
    assert tracks[0..] == tracks;
    RebuiltNothing(tracks, image, new0, new1);
    hide TrackBytes, Slice, Rebuilt;
    for i := 0 to |tracks|
      invariant Rebuilt(tracks, image, new0, new1) == After(out, Rebuilt(tracks[i..], image, new0, new1))
    {
      assert tracks[i..][1..] == tracks[i + 1..];
      RebuiltNext(out, tracks[i..], image, new0, new1);
      var trk := tracks[i];
      if |trk.secnums| >= 256 {
        return None;
      } else if trk.cyl == 0 && trk.Head() == 0 {
        var record := WriteTrack(trk, new0);
        if record.None? {
          return None;
        }
        out := out + record.value;
      } else if trk.cyl == 0 && trk.Head() == 1 && new1.Some? {
        var record := WriteTrack(trk, new1.value);
        if record.None? {
          return None;
        }
        out := out + record.value;
      } else if trk.start <= trk.end {
        out := out + Slice(image, trk.start, trk.end - trk.start);
      } else {
        return None;
      }
    }
    RebuiltNothing(tracks[|tracks|..], image, new0, new1);
    return Some(out);
  }

  function After(out: seq<byte>, rest: Option<seq<byte>>): Option<seq<byte>> {
    if rest.None? then None else Some(out + rest.value)
  }

  lemma RebuiltNothing(tracks: seq<Track>, image: seq<byte>, new0: seq<Sector>, new1: Option<seq<Sector>>)
    ensures After([], Rebuilt(tracks, image, new0, new1)) == Rebuilt(tracks, image, new0, new1)
    ensures tracks == [] ==> forall out :: After(out, Rebuilt(tracks, image, new0, new1)) == Some(out)
  {
    var r := Rebuilt(tracks, image, new0, new1);
    if r.Some? {
      assert [] + r.value == r.value;
    }
    if tracks == [] {
      assert forall out: seq<byte> :: out + [] == out;
    }
  }

  lemma RebuiltNext(out: seq<byte>, tracks: seq<Track>, image: seq<byte>, new0: seq<Sector>, new1: Option<seq<Sector>>)
    requires tracks != []
    ensures var first := Piece(tracks[0], image, new0, new1);
      After(out, Rebuilt(tracks, image, new0, new1))
      == if first.None? then None else After(out + first.value, Rebuilt(tracks[1..], image, new0, new1))
  {
    hide Piece;
    var first, rest := Piece(tracks[0], image, new0, new1), Rebuilt(tracks[1..], image, new0, new1);
    if first.Some? && rest.Some? {
      assert out + (first.value + rest.value) == out + first.value + rest.value;
    }
  }

  /** `patch`, from file contents to file contents. */
  method Patch(image: seq<byte>, cim: seq<byte>) returns (r: Result<seq<byte>, PatchError>)
    ensures r == PatchedImage(image, cim)
  {
    hide Parsed, FindSide, Capacity, Rebuilt, Patched, PosAfter, Sorted;
    var parsed := ParseImd(image);
    if parsed.Failure? {
      return Failure(BadImage(parsed.error));
    }
    var (header, tracks) := parsed.value;
    var t0s0 := FindFirst(tracks, 0);
    var t0s1 := FindFirst(tracks, 1);
    if t0s0.None? {
      return Failure(NoTrack0);
    }
    if |cim| > Capacity(t0s0) + Capacity(t0s1) {
      return Failure(TooLarge);
    }
    var newS0, cimPos := PatchSide(Sorted(t0s0.value.sectors), cim, 0, t0s0.value.SectorSize());
    var newS1: Option<seq<Sector>> := None;
    if t0s1.Some? && cimPos < |cim| {
      var new_, _ := PatchSide(Sorted(t0s1.value.sectors), cim, cimPos, t0s1.value.SectorSize());
      newS1 := Some(new_);
    }
    var body := Rebuild(tracks, image, newS0, newS1);
    if body.None? {
      return Failure(MissingSector);
    }
    return Success(header + body.value);
  }

  datatype ExtractError = BadFile(error: ImdError) | EmptyTrack

  /** `extract_track0`: the tracks before the first one of another cylinder, each in sector order. The
      line printed for a track names its first sector, so a track without sectors is an error. */
  function Track0(tracks: seq<Track>): Option<seq<byte>> {
    if tracks == [] || tracks[0].cyl != 0 then Some([])
    else if tracks[0].sectors == [] then None
    else Before(Content(tracks[0]), Track0(tracks[1..]))
  }

  function Before(out: seq<byte>, rest: Option<seq<byte>>): Option<seq<byte>> {
    if rest.None? then None else Some(out + rest.value)
  }

  method CollectTrack0(tracks: seq<Track>) returns (r: Option<seq<byte>>)
    ensures r == Track0(tracks)
  {
    var out := [];
    assert tracks[0..] == tracks;
    hide *;
    BeforeNothing(Track0(tracks));
    var i := 0;
    while i < |tracks| && tracks[i].cyl == 0
      invariant i <= |tracks|
      invariant Track0(tracks) == Before(out, Track0(tracks[i..]))
    {
      Track0At(tracks, i);
      if tracks[i].sectors == [] {
        BeforeNone(out);
        return None;
      }
      BeforeBefore(out, Content(tracks[i]), Track0(tracks[i + 1..]));
      out := out + Content(tracks[i]);
      i := i + 1;
    }
    Track0At(tracks, i);
    BeforeEnd(out);
    return Some(out);
  }

  lemma BeforeNothing(rest: Option<seq<byte>>)
    ensures Before([], rest) == rest
  {
    assert rest.Some? ==> [] + rest.value == rest.value;
  }

  lemma BeforeNone(out: seq<byte>)
    ensures Before(out, None) == None
  {
  }

  lemma BeforeEnd(out: seq<byte>)
    ensures Before(out, Some([])) == Some(out)
  {
    assert out + [] == out;
  }

  lemma BeforeBefore(a: seq<byte>, b: seq<byte>, rest: Option<seq<byte>>)
    ensures Before(a, Before(b, rest)) == Before(a + b, rest)
  {
    if rest.Some? {
      assert a + (b + rest.value) == a + b + rest.value;
    }
  }

  lemma Track0At(tracks: seq<Track>, i: nat)
    requires i <= |tracks|
    ensures Track0(tracks[i..])
         == if i == |tracks| || tracks[i].cyl != 0 then Some([])
            else if tracks[i].sectors == [] then None
            else Before(Content(tracks[i]), Track0(tracks[i + 1..]))
  {
    hide Content, Before;
    assert i < |tracks| ==> tracks[i..][1..] == tracks[i + 1..];
  }

  method ExtractTrack0(image: seq<byte>) returns (r: Result<seq<byte>, ExtractError>)
    ensures r == match Parsed(image)
                 case Failure(e) => Failure(BadFile(e))
                 case Success((header, tracks)) =>
                   match Track0(tracks)
                   case None => Failure(EmptyTrack)
                   case Some(out) => Success(out)
  {
    hide Parsed, Track0;
    var parsed := ParseImd(image);
    if parsed.Failure? {
      return Failure(BadFile(parsed.error));
    }
    var out := CollectTrack0(parsed.value.1);
    return if out.None? then Failure(EmptyTrack) else Success(out.value);
  }

  // Sorting.

  predicate Distinct(l: seq<Sector>) { forall i, j :: 0 <= i < j < |l| ==> l[i].num != l[j].num }

  predicate InRange(l: seq<Sector>, n: nat) { forall i :: 0 <= i < |l| ==> 1 <= l[i].num <= n }

  predicate Ascending(l: seq<Sector>) { forall i :: 0 < i < |l| ==> l[i - 1].num < l[i].num }

  lemma {:induction false} InsertKeeps(s: Sector, l: seq<Sector>)
    requires Ascending(l) && forall x <- l :: x.num != s.num
    ensures Ascending(Insert(s, l))
    ensures forall x :: x in Insert(s, l) <==> x == s || x in l
    ensures l != [] ==> Insert(s, l)[0].num == if s.num < l[0].num then s.num else l[0].num
  {
    if l != [] && s.num >= l[0].num {
      InsertKeeps(s, l[1..]);
    }
  }

  lemma {:induction false} SortedKeeps(l: seq<Sector>)
    requires Distinct(l)
    ensures Ascending(Sorted(l))
    ensures forall x :: x in Sorted(l) <==> x in l
  {
    if l != [] {
      var init, last := l[..|l| - 1], l[|l| - 1];
      SortedKeeps(init);
      forall x | x in Sorted(init) ensures x.num != last.num {
        var i :| 0 <= i < |init| && init[i] == x;
        assert l[i] == x;
      }
      InsertKeeps(last, Sorted(init));
      assert l == init + [last];
    }
  }

  /** Sorted numbers out of 1..n, n of them, are 1, 2, 3, ... */
  lemma {:induction false} Numbers(l: seq<Sector>, n: nat, i: nat)
    requires Ascending(l) && InRange(l, n) && |l| == n && i < n
    ensures l[i].num == i + 1
  {
    AtLeast(l, n, i);
    AtMost(l, n, i);
  }

  lemma {:induction false} AtLeast(l: seq<Sector>, n: nat, i: nat)
    requires Ascending(l) && InRange(l, n) && i < |l|
    ensures l[i].num >= i + 1
  {
    if i > 0 {
      AtLeast(l, n, i - 1);
    }
  }

  lemma {:induction false} AtMost(l: seq<Sector>, n: nat, i: nat)
    requires Ascending(l) && InRange(l, n) && i < |l| == n
    ensures l[i].num <= i + 1
    decreases n - i
  {
    if i + 1 < n {
      AtMost(l, n, i + 1);
    }
  }

  /** Sectors numbered 1, 2, 3, ... in order. */
  predicate Counted(l: seq<Sector>) { forall i :: 0 <= i < |l| ==> l[i].num == i + 1 }

  lemma SortedCounts(l: seq<Sector>)
    requires Distinct(l) && InRange(l, |l|)
    ensures Counted(Sorted(l)) && forall x :: x in Sorted(l) <==> x in l
  {
    SortedKeeps(l);
    var s := Sorted(l);
    forall i | 0 <= i < |s| ensures 1 <= s[i].num <= |l| {
      assert s[i] in l;
    }
    forall i | 0 <= i < |s| ensures s[i].num == i + 1 {
      Numbers(s, |l|, i);
    }
  }

  /** In a list without repetitions the dictionary has each entry's data. */
  lemma {:induction false} LookupFinds(l: seq<Sector>, s: Sector)
    requires Distinct(l) && s in l
    ensures Lookup(l, s.num) == Some(s.data)
    decreases |l|
  {
    var last := l[|l| - 1];
    var i :| 0 <= i < |l| && l[i] == s;
    if i < |l| - 1 {
      assert l[..|l| - 1][i] == s;
      LookupFinds(l[..|l| - 1], s);
    }
  }

  // One side: the BIOS, then what was there before.

  predicate Full(l: seq<Sector>, size: nat) { forall i :: 0 <= i < |l| ==> |l[i].data| == size }

  /** `top` over the beginning of `bottom`. */
  function Over(top: seq<byte>, bottom: seq<byte>): (r: seq<byte>)
    ensures |r| == |bottom|
  {
    if |top| <= |bottom| then top + bottom[|top|..] else top[..|bottom|]
  }

  /** What is left of the BIOS at `pos`. */
  function Rest(cim: seq<byte>, pos: nat): seq<byte> {
    if pos < |cim| then cim[pos..] else []
  }

  lemma {:induction false} ConcatSize(l: seq<Sector>, size: nat)
    requires Full(l, size)
    ensures |Concat(l)| == |l| * size
  {
    if l != [] {
      ConcatSize(l[1..], size);
    }
  }

  lemma NewDataIs(orig: seq<byte>, cim: seq<byte>, pos: nat, size: nat)
    requires |orig| == size
    ensures NewData(orig, cim, pos, size) == Over(Rest(cim, pos), orig)
  {
    if pos < |cim| && |cim| - pos < size {
      assert Slice(orig, |cim| - pos, |orig|) == orig[|cim| - pos..];
    } else if pos < |cim| {
      assert cim[pos..pos + size] == cim[pos..][..size];
    }
  }

  lemma OverSplit(top: seq<byte>, a: seq<byte>, b: seq<byte>)
    ensures Over(top, a + b) == Over(top, a) + Over(Beyond(top, |a|), b)
  {
  }

  lemma RestNext(cim: seq<byte>, pos: nat, size: nat)
    ensures Rest(cim, NextPos(cim, pos, size))
         == Beyond(Rest(cim, pos), size)
  {
  }

  /** A patched side, in sector order, is the rest of the BIOS over the old side. */
  lemma {:induction false} PatchedIsOver(orig: seq<Sector>, cim: seq<byte>, pos: nat, size: nat)
    requires Full(orig, size)
    ensures Concat(Patched(orig, cim, pos, size)) == Over(Rest(cim, pos), Concat(orig))
    decreases |orig|
  {
    if orig == [] {
      assert Over(Rest(cim, pos), []) == [];
    } else {
      var next := NextPos(cim, pos, size);
      var first, rest := orig[0], orig[1..];
      assert Full(rest, size);
      PatchedIsOver(rest, cim, next, size);
      NewDataIs(first.data, cim, pos, size);
      RestNext(cim, pos, size);
      hide NewData, Rest, NextPos, Over, Patched, Full;
      OverSplit(Rest(cim, pos), first.data, Concat(rest));
      PatchedFirst(orig, cim, pos, size);
    }
  }

  lemma PatchedFirst(orig: seq<Sector>, cim: seq<byte>, pos: nat, size: nat)
    requires orig != []
    ensures Concat(Patched(orig, cim, pos, size))
         == NewData(orig[0].data, cim, pos, size) + Concat(Patched(orig[1..], cim, NextPos(cim, pos, size), size))
  {
    hide NewData, NextPos;
    var rest := Patched(orig[1..], cim, NextPos(cim, pos, size), size);
    assert Patched(orig, cim, pos, size)[1..] == rest;
  }

  lemma {:induction false} PatchedFull(orig: seq<Sector>, cim: seq<byte>, pos: nat, size: nat)
    requires Full(orig, size)
    ensures Full(Patched(orig, cim, pos, size), size)
    decreases |orig|
  {
    if orig != [] {
      PatchedFull(orig[1..], cim, NextPos(cim, pos, size), size);
      NewDataIs(orig[0].data, cim, pos, size);
    }
  }

  /** What is left of the BIOS after a side. */
  lemma {:induction false} RestAfter(orig: seq<Sector>, cim: seq<byte>, pos: nat, size: nat)
    ensures Rest(cim, PosAfter(orig, cim, pos, size)) == Beyond(Rest(cim, pos), |orig| * size)
    decreases |orig|
  {
    if orig == [] {
      assert |orig| * size == 0;
    } else {
      var next, n := NextPos(cim, pos, size), |orig[1..]| * size;
      assert |orig| * size == size + n;
      RestNext(cim, pos, size);
      assert PosAfter(orig, cim, pos, size) == PosAfter(orig[1..], cim, next, size);
      hide Rest, NextPos, Beyond, PosAfter;
      RestAfter(orig[1..], cim, next, size);
      BeyondTwice(Rest(cim, pos), size, n);
    }
  }

  function Beyond(s: seq<byte>, n: nat): seq<byte> {
    if |s| <= n then [] else s[n..]
  }

  lemma BeyondTwice(s: seq<byte>, a: nat, b: nat)
    ensures Beyond(Beyond(s, a), b) == Beyond(s, a + b)
  {
  }

  lemma {:induction false} PatchedNumbers(orig: seq<Sector>, cim: seq<byte>, pos: nat, size: nat)
    ensures var new_ := Patched(orig, cim, pos, size);
      forall i :: 0 <= i < |orig| ==> new_[i].num == orig[i].num
    decreases |orig|
  {
    if orig != [] {
      PatchedNumbers(orig[1..], cim, NextPos(cim, pos, size), size);
    }
  }

  // Reading the patched image back.

  predicate Rewritten(t: Track, new1: Option<seq<Sector>>) {
    IsSide(t, 0) || (IsSide(t, 1) && new1.Some?)
  }

  function NewFor(t: Track, new0: seq<Sector>, new1: Option<seq<Sector>>): seq<Sector>
    requires Rewritten(t, new1)
  {
    if IsSide(t, 0) then new0 else new1.value
  }

  /** A track of the old image that `Piece` keeps readable: complete, and, if it is rewritten, without
      optional maps and with full-size data for each of its sectors. */
  predicate Sound(t: Track, image: seq<byte>, new0: seq<Sector>, new1: Option<seq<Sector>>) {
    && ReadTrack(image, t.start) == Success(t) && t.end <= |image| && |t.secnums| < 256
    && (Rewritten(t, new1) ==>
          Plain(t)
          && InOrder(t.secnums, NewFor(t, new0, new1)).Some?
          && |InOrder(t.secnums, NewFor(t, new0, new1)).value| == |t.secnums|
          && AllSized(InOrder(t.secnums, NewFor(t, new0, new1)).value, t.SectorSize()))
  }

  /** The track as it is read back, wherever it stands. */
  function Renewed(t: Track, new0: seq<Sector>, new1: Option<seq<Sector>>): Track {
    if Rewritten(t, new1) then
      var datas := InOrder(t.secnums, NewFor(t, new0, new1));
      if datas.Some? && |datas.value| == |t.secnums| then t.(sectors := Numbered(t.secnums, datas.value)) else t
    else t
  }

  lemma PieceReadBack(t: Track, image: seq<byte>, new0: seq<Sector>, new1: Option<seq<Sector>>, pre: seq<byte>, post: seq<byte>)
    requires Sound(t, image, new0, new1)
    ensures var piece := Piece(t, image, new0, new1);
      piece.Some? && piece.value != []
      && ReadTrack(pre + piece.value + post, |pre|)
         == Success(Renewed(t, new0, new1).(start := |pre|, end := |pre| + |piece.value|))
    ensures !Rewritten(t, new1) ==>
      t.start <= t.end <= |image| && Piece(t, image, new0, new1) == Some(image[t.start..t.end])
  {
    if Rewritten(t, new1) {
      hide ReadTrack, Track.SectorSize, InOrder, Lookup, AllSized, Numbered, AllSectorBytes;
      var datas := InOrder(t.secnums, NewFor(t, new0, new1)).value;
      TrackReadBack(pre, t, datas, post);
    } else {
      TrackAdvances(image, t.start);
      hide ReadTrack, Track.SectorSize, InOrder, Lookup, AllSized, Numbered, AllSectorBytes;
      TrackMoves(image, t.start, pre, post);
    }
  }

  predicate AllSound(tracks: seq<Track>, image: seq<byte>, new0: seq<Sector>, new1: Option<seq<Sector>>) {
    forall i :: 0 <= i < |tracks| ==> Sound(tracks[i], image, new0, new1)
  }

  /** The tracks of the rebuilt file, from position `at` on. */
  function Relaid(tracks: seq<Track>, image: seq<byte>, new0: seq<Sector>, new1: Option<seq<Sector>>, at: nat): (r: seq<Track>)
    ensures |r| == |tracks|
    decreases |tracks|
  {
    if tracks == [] then []
    else
      var piece := Piece(tracks[0], image, new0, new1);
      var size := if piece.Some? then |piece.value| else 0;
      [Renewed(tracks[0], new0, new1).(start := at, end := at + size)] + Relaid(tracks[1..], image, new0, new1, at + size)
  }

  lemma {:induction false} RebuiltReadBack(tracks: seq<Track>, image: seq<byte>, new0: seq<Sector>, new1: Option<seq<Sector>>, pre: seq<byte>)
    requires AllSound(tracks, image, new0, new1)
    ensures var body := Rebuilt(tracks, image, new0, new1);
      body.Some? && ReadTracks(pre + body.value, |pre|) == Success(Relaid(tracks, image, new0, new1, |pre|))
    decreases |tracks|
  {
    hide Sound, Piece, Renewed, ReadTrack;
    if tracks == [] {
      assert pre + [] == pre;
    } else {
      assert Sound(tracks[0], image, new0, new1);
      assert AllSound(tracks[1..], image, new0, new1);
      PieceReadBack(tracks[0], image, new0, new1, pre, []);
      var piece := Piece(tracks[0], image, new0, new1).value;
      RebuiltReadBack(tracks[1..], image, new0, new1, pre + piece);
      var rest := Rebuilt(tracks[1..], image, new0, new1).value;
      PieceReadBack(tracks[0], image, new0, new1, pre, rest);
      ReadNext(pre, piece, rest, Renewed(tracks[0], new0, new1));
    }
  }

  lemma ReadNext(pre: seq<byte>, piece: seq<byte>, rest: seq<byte>, t: Track)
    requires piece != []
    requires ReadTrack(pre + piece + rest, |pre|) == Success(t.(start := |pre|, end := |pre| + |piece|))
    requires ReadTracks(pre + piece + rest, |pre + piece|).Success?
    ensures ReadTracks(pre + (piece + rest), |pre|)
         == Success([t.(start := |pre|, end := |pre| + |piece|)] + ReadTracks(pre + piece + rest, |pre + piece|).value)
  {
    hide ReadTrack;
    assert pre + (piece + rest) == pre + piece + rest;
  }

  lemma {:induction false} HeaderEndKept(data: seq<byte>, data': seq<byte>, from: nat, end: nat)
    requires HeaderEnd(data, from) == Some(end) && end < |data'| && data[..end + 1] == data'[..end + 1]
    ensures HeaderEnd(data', from) == Some(end)
    decreases |data| - from
  {
    assert from <= end;
    assert data[from] == data[..end + 1][from] == data'[..end + 1][from] == data'[from];
    if data[from] != 0x1A {
      HeaderEndKept(data, data', from + 1, end);
    }
  }

  lemma {:induction false} TracksAreRead(data: seq<byte>, pos: nat)
    requires ReadTracks(data, pos).Success?
    ensures forall t <- ReadTracks(data, pos).value :: ReadTrack(data, t.start) == Success(t) && |t.secnums| < 256
    decreases |data| - pos
  {
    if pos < |data| {
      TrackAdvances(data, pos);
      var t := ReadTrack(data, pos).value;
      assert |t.secnums| < 256;
      hide ReadTrack;
      TracksAreRead(data, t.end);
    }
  }

  // The sides of Track 0.

  /** A complete side: no optional maps to skip, no sector number twice, all sectors of full size. */
  predicate GoodSide(t: Track) {
    && Plain(t) && Full(t.sectors, t.SectorSize())
    && forall i, j :: 0 <= i < j < |t.secnums| ==> t.secnums[i] != t.secnums[j]
  }

  lemma {:induction false} ReadNumbers(data: seq<byte>, pos: nat, nums: seq<byte>, size: nat)
    requires ReadSectors(data, pos, nums, size).Success?
    ensures var l := ReadSectors(data, pos, nums, size).value.0;
      |l| == |nums| && forall i :: 0 <= i < |l| ==> l[i].num == nums[i]
    decreases |nums|
  {
    if nums != [] {
      var first := ReadSector(data, pos, nums[0], size);
      assert first.Success? && first.value.0.num == nums[0];
      hide ReadSector;
      ReadNumbers(data, first.value.1, nums[1..], size);
    }
  }

  /** The sectors of a good side that has been read from a file. */
  lemma SideSectors(data: seq<byte>, t: Track)
    requires ReadTrack(data, t.start) == Success(t) && t.end <= |data| && GoodSide(t)
    ensures |t.sectors| == |t.secnums| && Distinct(t.sectors)
    ensures forall i :: 0 <= i < |t.sectors| ==> t.sectors[i].num == t.secnums[i]
  {
    var from := TrackParts(data, t.start);
    hide ReadSectors, ReadTrack;
    ReadNumbers(data, from, t.secnums, t.SectorSize());
  }

  function Nums(l: seq<Sector>): (r: seq<byte>)
    ensures |r| == |l| && forall i :: 0 <= i < |l| ==> r[i] == l[i].num
  {
    seq(|l|, i requires 0 <= i < |l| => l[i].num)
  }

  /** New data for a track: a sector of full size for each of its numbers, in ascending order. */
  predicate Suits(l: seq<Sector>, t: Track) {
    && Ascending(l) && Full(l, t.SectorSize()) && |l| == |t.secnums|
    && (forall n <- t.secnums :: n in Nums(l)) && (forall n <- Nums(l) :: n in t.secnums)
  }

  lemma {:induction false} AscendingFrom(l: seq<Sector>, i: nat, j: nat)
    requires Ascending(l) && i < j < |l|
    ensures l[i].num < l[j].num
    decreases j
  {
    if i < j - 1 {
      AscendingFrom(l, i, j - 1);
    }
  }

  lemma AscendingDistinct(l: seq<Sector>)
    requires Ascending(l)
    ensures Distinct(l)
  {
    forall i, j | 0 <= i < j < |l| ensures l[i].num != l[j].num {
      AscendingFrom(l, i, j);
    }
  }

  /** Lists in ascending order with the same elements are equal. */
  lemma {:induction false} AscendingUnique(a: seq<Sector>, b: seq<Sector>)
    requires Ascending(a) && Ascending(b) && forall x :: x in a <==> x in b
    ensures a == b
    decreases |a|
  {
    if b != [] {
      assert b[0] in b;
    }
    if a != [] {
      assert a[0] in a && a[0] in b && b[0] in b;
      FirstIsLeast(a);
      FirstIsLeast(b);
      forall x ensures x in a[1..] <==> x in b[1..] {
        assert x in a[1..] <==> x in a && x != a[0];
        assert x in b[1..] <==> x in b && x != b[0];
      }
      AscendingUnique(a[1..], b[1..]);
    }
  }

  lemma FirstIsLeast(l: seq<Sector>)
    requires Ascending(l) && l != []
    ensures forall x :: x in l && x != l[0] ==> l[0].num < x.num
    ensures l[0] !in l[1..]
  {
    forall i | 0 < i < |l| ensures l[0].num < l[i].num {
      AscendingFrom(l, 0, i);
    }
  }

  lemma {:induction false} InOrderFinds(nums: seq<byte>, l: seq<Sector>)
    requires Distinct(l) && forall n <- nums :: n in Nums(l)
    ensures InOrder(nums, l).Some? && |InOrder(nums, l).value| == |nums|
    ensures forall i :: 0 <= i < |nums| ==> Sector(nums[i], InOrder(nums, l).value[i]) in l
    decreases |nums|
  {
    if nums != [] {
      assert nums[0] in nums;
      var j :| 0 <= j < |l| && Nums(l)[j] == nums[0];
      LookupFinds(l, l[j]);
      hide Distinct, Lookup, Nums;
      InOrderFinds(nums[1..], l);
    }
  }

  lemma {:induction false} NumberedAt(nums: seq<byte>, datas: seq<seq<byte>>)
    requires |nums| == |datas|
    ensures |Numbered(nums, datas)| == |nums|
    ensures forall i :: 0 <= i < |nums| ==> Numbered(nums, datas)[i] == Sector(nums[i], datas[i])
    decreases |nums|
  {
    if nums != [] {
      NumberedAt(nums[1..], datas[1..]);
    }
  }

  /** New data for a good side survive being written in physical order and read back. */
  lemma SideReadBack(t: Track, l: seq<Sector>)
    requires GoodSide(t) && Suits(l, t)
    ensures var datas := InOrder(t.secnums, l);
      && datas.Some? && |datas.value| == |t.secnums| && AllSized(datas.value, t.SectorSize())
      && Sorted(Numbered(t.secnums, datas.value)) == l
  {
    AscendingDistinct(l);
    InOrderFinds(t.secnums, l);
    var datas := InOrder(t.secnums, l).value;
    NumberedAt(t.secnums, datas);
    var s := Numbered(t.secnums, datas);
    hide InOrder, Numbered, Sorted;
    forall i | 0 <= i < |datas| ensures |datas[i]| == t.SectorSize() {
      var j :| 0 <= j < |l| && l[j] == Sector(t.secnums[i], datas[i]);
    }
    assert Distinct(s);
    SameElements(s, l, t.secnums);
    SortedKeeps(s);
    AscendingUnique(Sorted(s), l);
  }

  lemma SameElements(s: seq<Sector>, l: seq<Sector>, nums: seq<byte>)
    requires Distinct(l) && |s| == |nums| && (forall i :: 0 <= i < |s| ==> s[i].num == nums[i] && s[i] in l)
    requires forall n :: n in nums <==> n in Nums(l)
    ensures forall x :: x in s <==> x in l
  {
    forall x | x in l ensures x in s {
      var j :| 0 <= j < |l| && l[j] == x;
      assert Nums(l)[j] == x.num;
      assert x.num in nums;
      var i :| 0 <= i < |nums| && nums[i] == x.num;
      var k :| 0 <= k < |l| && l[k] == s[i];
      assert s[i] == x;
    }
  }

  lemma {:induction false} FindRelaid(tracks: seq<Track>, image: seq<byte>, new0: seq<Sector>, new1: Option<seq<Sector>>, at: nat, head: byte)
    requires FindSide(tracks, head).Some?
    ensures var found := FindSide(Relaid(tracks, image, new0, new1, at), head);
      found.Some? && found.value.(start := 0, end := 0)
                     == Renewed(FindSide(tracks, head).value, new0, new1).(start := 0, end := 0)
    decreases |tracks|
  {
    var piece := Piece(tracks[0], image, new0, new1);
    var size := if piece.Some? then |piece.value| else 0;
    assert Renewed(tracks[0], new0, new1).cyl == tracks[0].cyl && Renewed(tracks[0], new0, new1).Head() == tracks[0].Head();
    hide Piece, Renewed;
    var r := Relaid(tracks, image, new0, new1, at);
    assert r[1..] == Relaid(tracks[1..], image, new0, new1, at + size);
    if !IsSide(tracks[0], head) {
      FindRelaid(tracks[1..], image, new0, new1, at + size, head);
    }
  }

  /** A disk image that boots: it parses, no track is cut short, and cylinder 0 has exactly one track
      under head 0 and one under head 1, both good. */
  predicate BootImage(image: seq<byte>, header: seq<byte>, tracks: seq<Track>, s0: Track, s1: Track) {
    && Parsed(image) == Success((header, tracks))
    && (forall i :: 0 <= i < |tracks| ==> tracks[i].end <= |image|)
    && FindSide(tracks, 0) == Some(s0) && FindSide(tracks, 1) == Some(s1)
    && (forall i :: 0 <= i < |tracks| && IsSide(tracks[i], 0) ==> tracks[i] == s0)
    && (forall i :: 0 <= i < |tracks| && IsSide(tracks[i], 1) ==> tracks[i] == s1)
    && GoodSide(s0) && GoodSide(s1)
  }

  lemma {:induction false} FindSideIs(tracks: seq<Track>, head: byte)
    requires FindSide(tracks, head).Some?
    ensures IsSide(FindSide(tracks, head).value, head) && FindSide(tracks, head).value in tracks
  {
    if !IsSide(tracks[0], head) {
      FindSideIs(tracks[1..], head);
    }
  }

  lemma ParsedTracks(image: seq<byte>, header: seq<byte>, tracks: seq<Track>)
    requires Parsed(image) == Success((header, tracks))
    ensures forall i :: 0 <= i < |tracks| ==> ReadTrack(image, tracks[i].start) == Success(tracks[i]) && |tracks[i].secnums| < 256
    ensures header != [] && HeaderEnd(image, 0) == Some(|header| - 1) && |header| <= |image| && header == image[..|header|]
    ensures ReadTracks(image, |header|) == Success(tracks)
  {
    hide ReadTracks, ReadTrack;
    TracksAreRead(image, HeaderEnd(image, 0).value + 1);
  }

  lemma SortedSuits(s: Track)
    requires |s.sectors| == |s.secnums| && Distinct(s.sectors) && Full(s.sectors, s.SectorSize())
    requires forall i :: 0 <= i < |s.sectors| ==> s.sectors[i].num == s.secnums[i]
    ensures Suits(Sorted(s.sectors), s)
  {
    SortedKeeps(s.sectors);
    var l := Sorted(s.sectors);
    hide Sorted, Track.SectorSize;
    forall i | 0 <= i < |l| ensures |l[i].data| == s.SectorSize() {
      assert l[i] in s.sectors;
    }
    forall n | n in s.secnums ensures n in Nums(l) {
      var i :| 0 <= i < |s.secnums| && s.secnums[i] == n;
      assert s.sectors[i] in s.sectors && s.sectors[i] in l;
      var j :| 0 <= j < |l| && l[j] == s.sectors[i];
      assert Nums(l)[j] == n;
    }
    forall n | n in Nums(l) ensures n in s.secnums {
      var j :| 0 <= j < |l| && Nums(l)[j] == n;
      assert l[j] in s.sectors;
      var i :| 0 <= i < |s.sectors| && s.sectors[i] == l[j];
      assert s.secnums[i] == n;
    }
  }

  lemma SuitsToo(l: seq<Sector>, l': seq<Sector>, t: Track)
    requires Suits(l, t) && |l'| == |l| && Full(l', t.SectorSize()) && forall i :: 0 <= i < |l| ==> l'[i].num == l[i].num
    ensures Suits(l', t)
  {
    assert Nums(l') == Nums(l);
    hide Nums, Full;
  }

  /** One patched side: what is written, and what is read back. */
  lemma PatchedSide(image: seq<byte>, s: Track, cim: seq<byte>, pos: nat) returns (l: seq<Sector>)
    requires ReadTrack(image, s.start) == Success(s) && s.end <= |image| && GoodSide(s)
    ensures l == Patched(Sorted(s.sectors), cim, pos, s.SectorSize())
    ensures Suits(l, s)
    ensures Concat(l) == Over(Rest(cim, pos), Content(s)) && |Content(s)| == |s.secnums| * s.SectorSize()
    ensures Rest(cim, PosAfter(Sorted(s.sectors), cim, pos, s.SectorSize())) == Beyond(Rest(cim, pos), |Content(s)|)
  {
    var size, sorted := s.SectorSize(), Sorted(s.sectors);
    SideSectors(image, s);
    SortedSuits(s);
    l := Patched(sorted, cim, pos, size);
    assert Content(s) == Concat(sorted);
    hide Sorted, Patched, PosAfter, Rest, Concat, Track.SectorSize, ReadTrack;
    PatchedNumbers(sorted, cim, pos, size);
    PatchedFull(sorted, cim, pos, size);
    SuitsToo(sorted, l, s);
    PatchedIsOver(sorted, cim, pos, size);
    ConcatSize(sorted, size);
    RestAfter(sorted, cim, pos, size);
  }

  lemma OverWhole(cim: seq<byte>, a: seq<byte>, b: seq<byte>)
    ensures Over(cim, a + b) == Over(cim, a) + Over(Beyond(cim, |a|), b)
    ensures Over([], b) == b && Rest(cim, 0) == cim
  {
    OverSplit(cim, a, b);
  }

  /** A track renewed with new sectors for its side. */
  lemma RenewedSide(t: Track, new0: seq<Sector>, new1: Option<seq<Sector>>, image: seq<byte>)
    requires GoodSide(t) && ReadTrack(image, t.start) == Success(t) && t.end <= |image| && |t.secnums| < 256
    requires Rewritten(t, new1) ==> Suits(NewFor(t, new0, new1), t)
    ensures Sound(t, image, new0, new1)
    ensures Content(Renewed(t, new0, new1)) == if Rewritten(t, new1) then Concat(NewFor(t, new0, new1)) else Content(t)
    ensures GoodSide(Renewed(t, new0, new1))
  {
    if Rewritten(t, new1) {
      SideReadBack(t, NewFor(t, new0, new1));
      var datas := InOrder(t.secnums, NewFor(t, new0, new1)).value;
      NumberedFull(t.secnums, datas, t.SectorSize());
    }
    hide ReadTrack, InOrder, Sorted, Concat, Numbered, Track.SectorSize, AllSized, Full;
  }

  lemma NumberedFull(nums: seq<byte>, datas: seq<seq<byte>>, size: nat)
    requires |nums| == |datas| && AllSized(datas, size)
    ensures Full(Numbered(nums, datas), size)
  {
    NumberedAt(nums, datas);
  }

  /** The new sides, and Track 0 as it reads afterwards: the BIOS over the old content. */
  lemma NewTrack0(image: seq<byte>, tracks: seq<Track>, s0: Track, s1: Track, cim: seq<byte>)
    returns (new0: seq<Sector>, new1: Option<seq<Sector>>)
    requires ReadTrack(image, s0.start) == Success(s0) && s0.end <= |image| && GoodSide(s0) && |s0.secnums| < 256
    requires ReadTrack(image, s1.start) == Success(s1) && s1.end <= |image| && GoodSide(s1) && |s1.secnums| < 256
    requires IsSide(s0, 0) && IsSide(s1, 1)
    ensures NewSides(s0, Some(s1), cim) == (new0, new1)
    ensures Sound(s0, image, new0, new1) && Sound(s1, image, new0, new1)
    ensures GoodSide(Renewed(s0, new0, new1)) && GoodSide(Renewed(s1, new0, new1))
    ensures Content(Renewed(s0, new0, new1)) + Content(Renewed(s1, new0, new1)) == Over(cim, Content(s0) + Content(s1))
  {
    hide Patched, PosAfter, Sorted, Concat, Content, GoodSide, Sound, Renewed, ReadTrack, Rest, Over, Beyond, Full, Suits,
      NewSides, Track.SectorSize;
    var pos := PosAfter(Sorted(s0.sectors), cim, 0, s0.SectorSize());
    new0 := PatchedSide(image, s0, cim, 0);
    var l := PatchedSide(image, s1, cim, pos);
    new1 := if pos < |cim| then Some(l) else None;
    NewSidesAre(s0, s1, cim, pos, new0, l);
    RenewedSide(s0, new0, new1, image);
    RenewedSide(s1, new0, new1, image);
    OverWhole(cim, Content(s0), Content(s1));
  }

  lemma NewSidesAre(s0: Track, s1: Track, cim: seq<byte>, pos: nat, new0: seq<Sector>, l: seq<Sector>)
    requires pos == PosAfter(Sorted(s0.sectors), cim, 0, s0.SectorSize())
    requires new0 == Patched(Sorted(s0.sectors), cim, 0, s0.SectorSize())
    requires l == Patched(Sorted(s1.sectors), cim, pos, s1.SectorSize())
    ensures NewSides(s0, Some(s1), cim) == (new0, if pos < |cim| then Some(l) else None)
    ensures pos >= |cim| ==> Rest(cim, pos) == []
  {
    hide Patched, PosAfter, Sorted;
  }

  /** A patched boot image parses again into the same header and, track for track, the same headers and
      numbering; tracks that are not sides of Track 0 are copied byte for byte; and Track 0, side 0
      then side 1 in sector order, is the BIOS followed by what was there behind it. */
  lemma PatchCorrect(image: seq<byte>, cim: seq<byte>, header: seq<byte>, tracks: seq<Track>, s0: Track, s1: Track)
    returns (out: seq<byte>, tracks': seq<Track>)
    requires BootImage(image, header, tracks, s0, s1)
    requires |cim| <= Capacity(Some(s0)) + Capacity(Some(s1))
    ensures PatchedImage(image, cim) == Success(out)
    ensures Parsed(out) == Success((header, tracks')) && SameTracks(image, tracks, out, tracks')
    ensures FindSide(tracks', 0).Some? && FindSide(tracks', 1).Some?
    ensures GoodSide(FindSide(tracks', 0).value) && GoodSide(FindSide(tracks', 1).value)
    ensures Content(FindSide(tracks', 0).value) + Content(FindSide(tracks', 1).value)
         == Over(cim, Content(s0) + Content(s1))
  {
    hide *;
    var new0, new1 := Plan(image, cim, header, tracks, s0, s1);
    RebuiltReadBack(tracks, image, new0, new1, header);
    var body := RelaidSame(tracks, image, new0, new1, header);
    out, tracks' := header + body, Relaid(tracks, image, new0, new1, |header|);
    PlanDone(image, cim, header, tracks, s0, s1, new0, new1, body);
    Reparses(image, header, body, tracks');
    BothSides(tracks, image, new0, new1, |header|, s0, s1);
  }

  /** The new sides of a boot image, and what is needed of them. */
  lemma Plan(image: seq<byte>, cim: seq<byte>, header: seq<byte>, tracks: seq<Track>, s0: Track, s1: Track)
    returns (new0: seq<Sector>, new1: Option<seq<Sector>>)
    requires BootImage(image, header, tracks, s0, s1)
    ensures NewSides(s0, Some(s1), cim) == (new0, new1) && AllSound(tracks, image, new0, new1)
    ensures GoodSide(Renewed(s0, new0, new1)) && GoodSide(Renewed(s1, new0, new1))
    ensures Content(Renewed(s0, new0, new1)) + Content(Renewed(s1, new0, new1)) == Over(cim, Content(s0) + Content(s1))
    ensures FindSide(tracks, 0) == Some(s0) && FindSide(tracks, 1) == Some(s1)
    ensures header != [] && |header| <= |image| && header == image[..|header|] && HeaderEnd(image, 0) == Some(|header| - 1)
  {
    ParsedTracks(image, header, tracks);
    FindSideIs(tracks, 0);
    FindSideIs(tracks, 1);
    hide ReadTrack, ReadTracks, GoodSide, Content, Over, HeaderEnd, NewSides, FindSide, Renewed;
    new0, new1 := NewTrack0(image, tracks, s0, s1, cim);
    forall i | 0 <= i < |tracks| ensures Sound(tracks[i], image, new0, new1) {
      if Rewritten(tracks[i], new1) {
        assert tracks[i] == s0 || tracks[i] == s1;
      }
    }
  }

  lemma PlanDone(image: seq<byte>, cim: seq<byte>, header: seq<byte>, tracks: seq<Track>, s0: Track, s1: Track,
                 new0: seq<Sector>, new1: Option<seq<Sector>>, body: seq<byte>)
    requires BootImage(image, header, tracks, s0, s1) && |cim| <= Capacity(Some(s0)) + Capacity(Some(s1))
    requires NewSides(s0, Some(s1), cim) == (new0, new1) && Rebuilt(tracks, image, new0, new1) == Some(body)
    ensures PatchedImage(image, cim) == Success(header + body)
  {
    hide Parsed, FindSide, Capacity, NewSides, Rebuilt, GoodSide;
  }

  lemma BothSides(tracks: seq<Track>, image: seq<byte>, new0: seq<Sector>, new1: Option<seq<Sector>>, at: nat, s0: Track, s1: Track)
    requires FindSide(tracks, 0) == Some(s0) && FindSide(tracks, 1) == Some(s1)
    ensures var tracks' := Relaid(tracks, image, new0, new1, at);
      && FindSide(tracks', 0).Some? && FindSide(tracks', 1).Some?
      && Content(FindSide(tracks', 0).value) == Content(Renewed(s0, new0, new1))
      && Content(FindSide(tracks', 1).value) == Content(Renewed(s1, new0, new1))
      && GoodSide(FindSide(tracks', 0).value) == GoodSide(Renewed(s0, new0, new1))
      && GoodSide(FindSide(tracks', 1).value) == GoodSide(Renewed(s1, new0, new1))
  {
    hide *;
    var tracks' := Relaid(tracks, image, new0, new1, at);
    FindRelaid(tracks, image, new0, new1, at, 0);
    FindRelaid(tracks, image, new0, new1, at, 1);
    SameContent(FindSide(tracks', 0).value, Renewed(s0, new0, new1));
    SameContent(FindSide(tracks', 1).value, Renewed(s1, new0, new1));
  }

  lemma SameContent(t: Track, u: Track)
    requires t.(start := 0, end := 0) == u.(start := 0, end := 0)
    ensures Content(t) == Content(u) && GoodSide(t) == GoodSide(u)
  {
  }

  lemma Reparses(image: seq<byte>, header: seq<byte>, body: seq<byte>, tracks: seq<Track>)
    requires header != [] && |header| <= |image| && header == image[..|header|] && HeaderEnd(image, 0) == Some(|header| - 1)
    requires ReadTracks(header + body, |header|) == Success(tracks)
    ensures Parsed(header + body) == Success((header, tracks))
  {
    hide ReadTracks, HeaderEnd;
    var out := header + body;
    assert out[..|header|] == header;
    HeaderEndKept(image, out, 0, |header| - 1);
  }

  /** A track and the one it has become: same header and numbering, and the same bytes unless it is a
      side of Track 0. */
  predicate SameTrack(image: seq<byte>, t: Track, out: seq<byte>, t': Track) {
    && t'.mode == t.mode && t'.cyl == t.cyl && t'.headByte == t.headByte
    && t'.sizeCode == t.sizeCode && t'.secnums == t.secnums && t'.start <= t'.end <= |out|
    && (!IsSide(t, 0) && !IsSide(t, 1) ==>
          t'.sectors == t.sectors && t.start <= t.end <= |image|
          && out[t'.start..t'.end] == image[t.start..t.end])
  }

  predicate SameTracks(image: seq<byte>, tracks: seq<Track>, out: seq<byte>, tracks': seq<Track>) {
    |tracks| == |tracks'| && forall i :: 0 <= i < |tracks| ==> SameTrack(image, tracks[i], out, tracks'[i])
  }

  lemma {:induction false} RelaidSame(tracks: seq<Track>, image: seq<byte>, new0: seq<Sector>, new1: Option<seq<Sector>>, pre: seq<byte>)
    returns (body: seq<byte>)
    requires AllSound(tracks, image, new0, new1)
    ensures Rebuilt(tracks, image, new0, new1) == Some(body)
    ensures SameTracks(image, tracks, pre + body, Relaid(tracks, image, new0, new1, |pre|))
    decreases |tracks|
  {
    hide *;
    if tracks == [] {
      body := [];
      NothingRelaid(image, new0, new1, pre);
    } else {
      var piece, renewed := FirstRelaid(tracks, image, new0, new1, pre);
      var rest := RelaidSame(tracks[1..], image, new0, new1, pre + piece);
      body := piece + rest;
      assert pre + body == pre + piece + rest;
      FirstSame(tracks[0], image, new0, new1, pre, piece, rest);
      AllSame(tracks, image, pre + piece + rest, renewed, Relaid(tracks[1..], image, new0, new1, |pre + piece|));
    }
  }

  lemma NothingRelaid(image: seq<byte>, new0: seq<Sector>, new1: Option<seq<Sector>>, pre: seq<byte>)
    ensures Rebuilt([], image, new0, new1) == Some([])
    ensures SameTracks(image, [], pre + [], Relaid([], image, new0, new1, |pre|))
  {
  }

  lemma FirstRelaid(tracks: seq<Track>, image: seq<byte>, new0: seq<Sector>, new1: Option<seq<Sector>>, pre: seq<byte>)
    returns (piece: seq<byte>, renewed: Track)
    requires tracks != [] && AllSound(tracks, image, new0, new1)
    ensures Sound(tracks[0], image, new0, new1) && Piece(tracks[0], image, new0, new1) == Some(piece)
    ensures AllSound(tracks[1..], image, new0, new1)
    ensures renewed == Renewed(tracks[0], new0, new1).(start := |pre|, end := |pre| + |piece|)
    ensures Rebuilt(tracks[1..], image, new0, new1).Some? ==>
      Rebuilt(tracks, image, new0, new1) == Some(piece + Rebuilt(tracks[1..], image, new0, new1).value)
    ensures Relaid(tracks, image, new0, new1, |pre|) == [renewed] + Relaid(tracks[1..], image, new0, new1, |pre + piece|)
  {
    hide *;
    SoundTail(tracks, image, new0, new1);
    PieceReadBack(tracks[0], image, new0, new1, [], []);
    piece := Piece(tracks[0], image, new0, new1).value;
    renewed := Renewed(tracks[0], new0, new1).(start := |pre|, end := |pre| + |piece|);
    RebuiltFirst(tracks, image, new0, new1, piece);
    RelaidFirst(tracks, image, new0, new1, |pre|, piece);
  }

  lemma SoundTail(tracks: seq<Track>, image: seq<byte>, new0: seq<Sector>, new1: Option<seq<Sector>>)
    requires tracks != [] && AllSound(tracks, image, new0, new1)
    ensures Sound(tracks[0], image, new0, new1) && AllSound(tracks[1..], image, new0, new1)
  {
    hide Sound;
  }

  lemma RebuiltFirst(tracks: seq<Track>, image: seq<byte>, new0: seq<Sector>, new1: Option<seq<Sector>>, piece: seq<byte>)
    requires tracks != [] && Piece(tracks[0], image, new0, new1) == Some(piece)
    ensures Rebuilt(tracks[1..], image, new0, new1).Some? ==>
      Rebuilt(tracks, image, new0, new1) == Some(piece + Rebuilt(tracks[1..], image, new0, new1).value)
  {
    hide Piece;
  }

  lemma RelaidFirst(tracks: seq<Track>, image: seq<byte>, new0: seq<Sector>, new1: Option<seq<Sector>>, at: nat, piece: seq<byte>)
    requires tracks != [] && Piece(tracks[0], image, new0, new1) == Some(piece)
    ensures Relaid(tracks, image, new0, new1, at)
         == [Renewed(tracks[0], new0, new1).(start := at, end := at + |piece|)]
            + Relaid(tracks[1..], image, new0, new1, at + |piece|)
  {
    hide Piece, Renewed;
  }

  lemma AllSame(tracks: seq<Track>, image: seq<byte>, out: seq<byte>, first: Track, more: seq<Track>)
    requires tracks != [] && SameTrack(image, tracks[0], out, first) && SameTracks(image, tracks[1..], out, more)
    ensures SameTracks(image, tracks, out, [first] + more)
  {
    hide SameTrack;
    forall i | 0 <= i < |tracks| ensures SameTrack(image, tracks[i], out, ([first] + more)[i]) {
      if i > 0 {
        assert SameTrack(image, tracks[1..][i - 1], out, more[i - 1]);
      }
    }
  }

  lemma FirstSame(t: Track, image: seq<byte>, new0: seq<Sector>, new1: Option<seq<Sector>>, pre: seq<byte>, piece: seq<byte>, rest: seq<byte>)
    requires Sound(t, image, new0, new1) && Piece(t, image, new0, new1) == Some(piece)
    ensures SameTrack(image, t, pre + piece + rest, Renewed(t, new0, new1).(start := |pre|, end := |pre| + |piece|))
  {
    PieceReadBack(t, image, new0, new1, pre, rest);
    hide Sound, ReadTrack, Piece;
    assert (pre + piece + rest)[|pre|..|pre| + |piece|] == piece;
  }

  /** On a boot image patching fails exactly if the BIOS is longer than what both sides hold. */
  lemma PatchFits(image: seq<byte>, cim: seq<byte>, header: seq<byte>, tracks: seq<Track>, s0: Track, s1: Track)
    requires BootImage(image, header, tracks, s0, s1)
    ensures PatchedImage(image, cim).Success? <==> |cim| <= |Content(s0)| + |Content(s1)|
    ensures PatchedImage(image, cim).Failure? ==> PatchedImage(image, cim) == Failure(TooLarge)
  {
    ParsedTracks(image, header, tracks);
    FindSideIs(tracks, 0);
    FindSideIs(tracks, 1);
    SideHolds(image, s0);
    SideHolds(image, s1);
    hide ReadTrack, ReadTracks, GoodSide, Content, Parsed, FindSide, NewSides, Rebuilt;
    if |cim| <= Capacity(Some(s0)) + Capacity(Some(s1)) {
      var out, tracks' := PatchCorrect(image, cim, header, tracks, s0, s1);
    }
  }

  lemma SideHolds(image: seq<byte>, s: Track)
    requires ReadTrack(image, s.start) == Success(s) && s.end <= |image| && GoodSide(s)
    ensures |Content(s)| == Capacity(Some(s))
  {
    hide ReadTrack, Content;
    var l := PatchedSide(image, s, [], 0);
  }

  /** What `imd2raw.py` extracts from the patched image: the BIOS, then the old extract behind it; or
      its error again, if it could not extract the old image. */
  lemma ExtractCorrect(image: seq<byte>, cim: seq<byte>, header: seq<byte>, tracks: seq<Track>, s0: Track, s1: Track)
    returns (out: seq<byte>, tracks': seq<Track>)
    requires BootImage(image, header, tracks, s0, s1)
    requires |tracks| >= 2 && tracks[0] == s0 && tracks[1] == s1 && (|tracks| > 2 ==> tracks[2].cyl != 0)
    requires |cim| <= Capacity(Some(s0)) + Capacity(Some(s1))
    ensures PatchedImage(image, cim) == Success(out) && Parsed(out) == Success((header, tracks'))
    ensures Track0(tracks').Some? <==> Track0(tracks).Some?
    ensures Track0(tracks).Some? ==> Track0(tracks').value == Over(cim, Track0(tracks).value)
  {
    hide ReadTrack, ReadTracks, GoodSide, Capacity, Content, Over, PatchedImage, Parsed;
    out, tracks' := PatchCorrect(image, cim, header, tracks, s0, s1);
    FindSideIs(tracks, 0);
    FindSideIs(tracks, 1);
    assert SameTrack(image, tracks[0], out, tracks'[0]) && SameTrack(image, tracks[1], out, tracks'[1]);
    assert |tracks| > 2 ==> SameTrack(image, tracks[2], out, tracks'[2]);
    hide SameTracks;
    TwoSides(tracks);
    TwoSides(tracks');
    AllSectors(image, header, tracks);
    AllSectors(out, header, tracks');
  }

  lemma AllSectors(image: seq<byte>, header: seq<byte>, tracks: seq<Track>)
    requires Parsed(image) == Success((header, tracks))
    ensures forall t <- tracks :: t.sectors == [] <==> t.secnums == []
  {
    ParsedTracks(image, header, tracks);
    forall t | t in tracks ensures |t.sectors| == |t.secnums| {
      hide ReadSectors;
      SectorsAdvance(image, DataStart(image, t.start), t.secnums, t.SectorSize());
    }
  }

  lemma TwoSides(tracks: seq<Track>)
    requires |tracks| >= 2 && IsSide(tracks[0], 0) && IsSide(tracks[1], 1) && (|tracks| > 2 ==> tracks[2].cyl != 0)
    ensures FindSide(tracks, 0) == Some(tracks[0]) && FindSide(tracks, 1) == Some(tracks[1])
    ensures Track0(tracks) == if tracks[0].sectors == [] || tracks[1].sectors == [] then None
                              else Some(Content(tracks[0]) + Content(tracks[1]))
  {
    Track0At(tracks, 0);
    Track0At(tracks, 1);
    Track0At(tracks, 2);
    assert tracks[0..] == tracks && tracks[1..][0] == tracks[1];
    hide Content, Track0;
    BeforeEnd(Content(tracks[1]));
  }
}
