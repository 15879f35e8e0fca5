/** ImageDisk files: the parser shared by `patch_bios.py` and `imd2raw.py`, and `write_track`. */
module Imd {
  import opened Arithmetic
  import opened Bytes
  import opened Wrappers

  datatype Sector = Sector(num: byte, data: seq<byte>)

  /** A track record and where it stands in the file. */
  datatype Track = Track(
    mode: byte, cyl: byte, headByte: byte, sizeCode: byte, secnums: seq<byte>, sectors: seq<Sector>,
    start: nat, end: nat)
  {
    function Head(): byte { headByte % 64 }
    predicate HasMaps() { headByte >= 64 }
    function SectorSize(): nat { Size(sizeCode) }
  }

  datatype ImdError = NoHeaderEnd | Truncated | UnknownType(kind: byte)

  function Size(code: byte): (r: nat)
    ensures r > 0
  {
    128 * Power2(code)
  }

  function Filled(value: byte, n: nat): (r: seq<byte>)
    ensures |r| == n
  {
    seq(n, _ => value)
  }

  /** A slice that stops at the end of the file, as Python's do. */
  function Slice(data: seq<byte>, from: nat, n: nat): seq<byte> {
    if from >= |data| then []
    else if from + n <= |data| then data[from..from + n]
    else data[from..]
  }

  type SectorsRead = Result<(seq<Sector>, nat), ImdError>

  /** One sector at `pos`, and the position behind it. */
  function ReadSector(data: seq<byte>, pos: nat, num: byte, size: nat): Result<(Sector, nat), ImdError> {
    if pos >= |data| then Failure(Truncated)
    else if data[pos] == 0 then Success((Sector(num, Filled(0, size)), pos + 1))
    else if data[pos] > 8 then Failure(UnknownType(data[pos]))
    else if data[pos] % 2 == 1 then Success((Sector(num, Slice(data, pos + 1, size)), pos + 1 + size))
    else if pos + 1 >= |data| then Failure(Truncated)
    else Success((Sector(num, Filled(data[pos + 1], size)), pos + 2))
  }

  function ReadSectors(data: seq<byte>, pos: nat, nums: seq<byte>, size: nat): SectorsRead
    decreases |nums|
  {
    if nums == [] then Success(([], pos))
    else match ReadSector(data, pos, nums[0], size)
      case Failure(e) => Failure(e)
      case Success((sector, next)) =>
        match ReadSectors(data, next, nums[1..], size)
        case Failure(e) => Failure(e)
        case Success((more, end)) => Success(([sector] + more, end))
  }

  /** Where the sector data of the track at `pos` begin: behind the header, the numbering map and the
      optional maps. */
  function DataStart(data: seq<byte>, pos: nat): nat
    requires pos + 5 <= |data|
  {
    var n := data[pos + 3];
    pos + 5 + n + (if data[pos + 2] >= 128 then n else 0) + (if data[pos + 2] % 128 >= 64 then n else 0)
  }

  function ReadTrack(data: seq<byte>, pos: nat): (r: Result<Track, ImdError>)
    ensures r.Success? ==> r.value.start == pos
  {
    if pos + 5 > |data| then Failure(Truncated)
    else
      var n := data[pos + 3];
      if n > 0 && pos + 5 + n > |data| then Failure(Truncated)
      else
        var nums := Slice(data, pos + 5, n);
        match ReadSectors(data, DataStart(data, pos), nums, Size(data[pos + 4]))
        case Failure(e) => Failure(e)
        case Success((sectors, end)) =>
          Success(Track(data[pos], data[pos + 1], data[pos + 2], data[pos + 4], nums, sectors, pos, end))
  }

  lemma {:induction false} SectorsAdvance(data: seq<byte>, pos: nat, nums: seq<byte>, size: nat)
    ensures var r := ReadSectors(data, pos, nums, size); r.Success? ==> r.value.1 >= pos && |r.value.0| == |nums|
    decreases |nums|
  {
    if nums != [] {
      hide Filled, Slice;
      var first := ReadSector(data, pos, nums[0], size);
      if first.Success? {
        SectorsAdvance(data, first.value.1, nums[1..], size);
      }
    }
  }

  lemma TrackAdvances(data: seq<byte>, pos: nat)
    ensures var r := ReadTrack(data, pos); r.Success? ==> r.value.end >= pos + 5
  {
    if pos + 5 <= |data| {
      hide ReadSectors, Slice, Size;
      SectorsAdvance(data, DataStart(data, pos), Slice(data, pos + 5, data[pos + 3]), Size(data[pos + 4]));
    }
  }

  type TracksRead = Result<seq<Track>, ImdError>

  /** All track records from `pos` to the end of the file. */
  function ReadTracks(data: seq<byte>, pos: nat): TracksRead
    decreases |data| - pos
  {
    if pos >= |data| then Success([])
    else
      TrackAdvances(data, pos);
      match ReadTrack(data, pos)
      case Failure(e) => Failure(e)
      case Success(t) =>
        match ReadTracks(data, t.end)
        case Failure(e) => Failure(e)
        case Success(more) => Success([t] + more)
  }

  /** `data.index(0x1a)`. */
  function HeaderEnd(data: seq<byte>, from: nat): (r: Option<nat>)
    ensures r.Some? ==> from <= r.value < |data| && data[r.value] == 0x1A
    ensures r.Some? ==> forall i :: from <= i < r.value ==> data[i] != 0x1A
    ensures r.None? ==> forall i :: from <= i < |data| ==> data[i] != 0x1A
    decreases |data| - from
  {
    if from >= |data| then None
    else if data[from] == 0x1A then Some(from)
    else HeaderEnd(data, from + 1)
  }

  /** The whole file: its header, up to and including the 0x1A, and its tracks. */
  function Parsed(data: seq<byte>): Result<(seq<byte>, seq<Track>), ImdError> {
    match HeaderEnd(data, 0)
    case None => Failure(NoHeaderEnd)
    case Some(i) =>
      match ReadTracks(data, i + 1)
      case Failure(e) => Failure(e)
      case Success(tracks) => Success((data[..i + 1], tracks))
  }

  /** One turn of the loop over a track's sectors. */
  method ParseSector(data: seq<byte>, start: nat, num: byte, size: nat) returns (r: Result<(Sector, nat), ImdError>)
    ensures r == ReadSector(data, start, num, size)
  {
    hide Slice, Filled;
    var pos: nat := start;
    if pos >= |data| {
      return Failure(Truncated);
    }
    var kind := data[pos];
    pos := pos + 1;
    if kind == 0x00 {
      return Success((Sector(num, Filled(0, size)), pos));
    } else if kind in {0x01, 0x03, 0x05, 0x07} {
      return Success((Sector(num, Slice(data, pos, size)), pos + size));
    } else if kind in {0x02, 0x04, 0x06, 0x08} {
      if pos >= |data| {
        return Failure(Truncated);
      }
      return Success((Sector(num, Filled(data[pos], size)), pos + 1));
    } else {
      return Failure(UnknownType(kind));
    }
  }

  /** The loop over a track's sectors. */
  method ParseSectors(data: seq<byte>, start: nat, nums: seq<byte>, size: nat) returns (r: SectorsRead)
    ensures r == ReadSectors(data, start, nums, size)
  {
    var sectors: seq<Sector> := [];
    var pos: nat := start;
    assert nums[0..] == nums;
    JoinedNothing(ReadSectors(data, start, nums, size));
    hide *;
    for i := 0 to |nums|
      invariant ReadSectors(data, start, nums, size) == Joined(sectors, ReadSectors(data, pos, nums[i..], size))
    {
      assert nums[i..][1..] == nums[i + 1..];
      JoinedNext(sectors, ReadSector(data, pos, nums[i], size), data, nums[i..], size, pos);
      var read := ParseSector(data, pos, nums[i], size);
      match read {
        case Failure(e) => return Failure(e);
        case Success((sector, next)) =>
          sectors := sectors + [sector];
          pos := next;
      }
    }
    JoinedEnd(data, sectors, pos, nums[|nums|..], size);
    return Success((sectors, pos));
  }

  lemma JoinedNothing(r: SectorsRead)
    ensures Joined([], r) == r
  {
    if r.Success? {
      assert [] + r.value.0 == r.value.0;
    }
  }

  lemma JoinedEnd(data: seq<byte>, sectors: seq<Sector>, pos: nat, nums: seq<byte>, size: nat)
    requires nums == []
    ensures Joined(sectors, ReadSectors(data, pos, nums, size)) == Success((sectors, pos))
  {
    assert sectors + [] == sectors;
  }

  function Joined(sectors: seq<Sector>, rest: SectorsRead): SectorsRead {
    match rest
    case Failure(e) => Failure(e)
    case Success((more, end)) => Success((sectors + more, end))
  }

  lemma JoinedNext(sectors: seq<Sector>, first: Result<(Sector, nat), ImdError>,
                   data: seq<byte>, nums: seq<byte>, size: nat, pos: nat)
    requires nums != [] && first == ReadSector(data, pos, nums[0], size)
    ensures first.Failure? ==> Joined(sectors, ReadSectors(data, pos, nums, size)) == Failure(first.error)
    ensures first.Success? ==>
      Joined(sectors, ReadSectors(data, pos, nums, size))
      == Joined(sectors + [first.value.0], ReadSectors(data, first.value.1, nums[1..], size))
  {
    hide ReadSector;
    if first.Success? {
      var rest := ReadSectors(data, first.value.1, nums[1..], size);
      if rest.Success? {
        assert sectors + ([first.value.0] + rest.value.0) == sectors + [first.value.0] + rest.value.0;
      }
    }
  }

  /** One turn of the loop in `parse_imd`. */
  method ParseTrack(data: seq<byte>, rawStart: nat) returns (r: Result<Track, ImdError>)
    ensures r == ReadTrack(data, rawStart)
  {
    hide ReadSectors, Size, Slice;
    var pos: nat := rawStart;
    if pos + 4 >= |data| {
      return Failure(Truncated);
    }
    var mode, cyl, headByte, nsect, code := data[pos], data[pos + 1], data[pos + 2], data[pos + 3], data[pos + 4];
    var size := Size(code);
    if nsect > 0 && pos + 5 + nsect > |data| {
      return Failure(Truncated);
    }
    pos := pos + 5;
    var secnums := Slice(data, pos, nsect);
    pos := pos + nsect;
    if headByte >= 128 {
      pos := pos + nsect;
    }
    if headByte % 128 >= 64 {
      pos := pos + nsect;
    }
    var read := ParseSectors(data, pos, secnums, size);
    match read {
      case Failure(e) => return Failure(e);
      case Success((sectors, end)) =>
        return Success(Track(mode, cyl, headByte, code, secnums, sectors, rawStart, end));
    }
  }

  /** `parse_imd`: the scan for the header, then track after track. */
  method ParseImd(data: seq<byte>) returns (r: Result<(seq<byte>, seq<Track>), ImdError>)
    ensures r == Parsed(data)
  {
    var hdrEnd := HeaderEnd(data, 0);
    if hdrEnd.None? {
      return Failure(NoHeaderEnd);
    }
    var first: nat := hdrEnd.value + 1;
    var pos: nat := first;
    var tracks: seq<Track> := [];
    ChainedNothing(ReadTracks(data, first));
    hide ReadTrack, ReadTracks, Chained;
    while pos < |data|
      invariant ReadTracks(data, first) == Chained(tracks, ReadTracks(data, pos))
      decreases |data| - pos
    {
      TrackAdvances(data, pos);
      ChainedNext(tracks, data, pos);
      var read := ParseTrack(data, pos);
      match read {
        case Failure(e) =>
          ChainedFailure(tracks, e);
          return Failure(e);
        case Success(t) =>
          tracks := tracks + [t];
          pos := t.end;
      }
    }
    ChainedEnd(data, tracks, pos);
    return Success((data[..first], tracks));
  }

  lemma ChainedNothing(r: TracksRead)
    ensures Chained([], r) == r
  {
    if r.Success? {
      assert [] + r.value == r.value;
    }
  }

  lemma ChainedFailure(tracks: seq<Track>, e: ImdError)
    ensures Chained(tracks, Failure(e)) == Failure(e)
  {
  }

  lemma ChainedEnd(data: seq<byte>, tracks: seq<Track>, pos: nat)
    requires pos >= |data|
    ensures Chained(tracks, ReadTracks(data, pos)) == Success(tracks)
  {
    assert tracks + [] == tracks;
  }

  function Chained(tracks: seq<Track>, rest: TracksRead): TracksRead {
    match rest
    case Failure(e) => Failure(e)
    case Success(more) => Success(tracks + more)
  }

  lemma ChainedNext(tracks: seq<Track>, data: seq<byte>, pos: nat)
    requires pos < |data|
    ensures var first := ReadTrack(data, pos);
      && (first.Failure? ==> Chained(tracks, ReadTracks(data, pos)) == Failure(first.error))
      && (first.Success? ==> Chained(tracks, ReadTracks(data, pos))
                             == Chained(tracks + [first.value], ReadTracks(data, first.value.end)))
  {
    TrackAdvances(data, pos);
    hide ReadTrack;
    var first := ReadTrack(data, pos);
    if first.Success? {
      var rest := ReadTracks(data, first.value.end);
      if rest.Success? {
        assert tracks + ([first.value] + rest.value) == tracks + [first.value] + rest.value;
      }
    }
  }

  // Writing a track.

  /** All bytes the same, and at least one of them. */
  predicate Uniform(data: seq<byte>) {
    data != [] && forall i :: 0 <= i < |data| ==> data[i] == data[0]
  }

  function SectorBytes(data: seq<byte>): seq<byte> {
    if Uniform(data) then [0x02, data[0]] else [0x01] + data
  }

  function AllSectorBytes(datas: seq<seq<byte>>): seq<byte> {
    if datas == [] then [] else SectorBytes(datas[0]) + AllSectorBytes(datas[1..])
  }

  function HeaderBytes(t: Track): seq<byte>
    requires |t.secnums| < 256
  {
    [t.mode, t.cyl, t.headByte, |t.secnums|, t.sizeCode] + t.secnums
  }

  /** `data_map[num]`: of several entries for a number the dictionary keeps the last. */
  function Lookup(sectors: seq<Sector>, num: byte): Option<seq<byte>>
    decreases |sectors|
  {
    if sectors == [] then None
    else
      var last := sectors[|sectors| - 1];
      if last.num == num then Some(last.data) else Lookup(sectors[..|sectors| - 1], num)
  }

  /** The new data of a track in its physical order; `None` is the `KeyError`. */
  function InOrder(nums: seq<byte>, sectors: seq<Sector>): Option<seq<seq<byte>>> {
    if nums == [] then Some([])
    else
      var first, rest := Lookup(sectors, nums[0]), InOrder(nums[1..], sectors);
      if first.Some? && rest.Some? then Some([first.value] + rest.value) else None
  }

  function TrackBytes(t: Track, sectors: seq<Sector>): Option<seq<byte>>
    requires |t.secnums| < 256
  {
    match InOrder(t.secnums, sectors)
    case None => None
    case Some(datas) => Some(HeaderBytes(t) + AllSectorBytes(datas))
  }

  /** `len(set(data)) == 1`. */
  method IsUniform(data: seq<byte>) returns (b: bool)
    ensures b == Uniform(data)
  {
    if data == [] {
      return false;
    }
    for i := 0 to |data|
      invariant forall k :: 0 <= k < i ==> data[k] == data[0]
    {
      if data[i] != data[0] {
        return false;
      }
    }
    return true;
  }

  /** One turn of the loop in `write_track`. */
  method WriteSector(sdata: seq<byte>) returns (out: seq<byte>)
    ensures out == SectorBytes(sdata)
  {
    var same := IsUniform(sdata);
    if same {
      out := [0x02, sdata[0]];
    } else {
      out := [0x01] + sdata;
    }
  }

  /** `write_track`, as the bytes it appends. */
  method WriteTrack(t: Track, sectors: seq<Sector>) returns (out: Option<seq<byte>>)
    requires |t.secnums| < 256
    ensures out == TrackBytes(t, sectors)
  {
    var order := InOrder(t.secnums, sectors);
    if order.None? {
      return None;
    }
    var datas := order.value;
    assert datas[0..] == datas;
    hide InOrder, SectorBytes;
    var bytes: seq<byte> := [];
    for i := 0 to |datas|
      invariant AllSectorBytes(datas) == bytes + AllSectorBytes(datas[i..])
    {
      assert datas[i..][1..] == datas[i + 1..];
      var record := WriteSector(datas[i]);
      bytes := bytes + record;
    }
    assert AllSectorBytes(datas) == bytes;
    return Some(HeaderBytes(t) + bytes);
  }

  // A written track is read back.

  predicate AllSized(datas: seq<seq<byte>>, size: nat) { forall i :: 0 <= i < |datas| ==> |datas[i]| == size }

  function Numbered(nums: seq<byte>, datas: seq<seq<byte>>): seq<Sector>
    requires |nums| == |datas|
  {
    if nums == [] then [] else [Sector(nums[0], datas[0])] + Numbered(nums[1..], datas[1..])
  }

  lemma SectorReadBack(pre: seq<byte>, num: byte, sdata: seq<byte>, post: seq<byte>)
    requires sdata != []
    ensures ReadSector(pre + SectorBytes(sdata) + post, |pre|, num, |sdata|)
         == Success((Sector(num, sdata), |pre| + |SectorBytes(sdata)|))
  {
    if Uniform(sdata) {
      assert SectorBytes(sdata) == [0x02, sdata[0]];
      assert Filled(sdata[0], |sdata|) == sdata;
      hide Uniform, Filled, SectorBytes, Slice;
      var file := pre + [0x02, sdata[0]] + post;
      assert file[|pre|] == 2 && file[|pre| + 1] == sdata[0];
    } else {
      assert SectorBytes(sdata) == [0x01] + sdata;
      hide Uniform, Filled, SectorBytes;
      var file := pre + ([0x01] + sdata) + post;
      assert file[|pre|] == 1;
      SliceInside(pre + [0x01], sdata, post);
      assert pre + [0x01] + sdata + post == file;
    }
  }

  lemma SliceInside(pre: seq<byte>, s: seq<byte>, post: seq<byte>)
    requires s != []
    ensures Slice(pre + s + post, |pre|, |s|) == s
  {
  }

  lemma Regroup(a: seq<byte>, b: seq<byte>, c: seq<byte>, d: seq<byte>)
    ensures a + (b + c) + d == a + b + (c + d) && a + (b + c) + d == (a + b) + c + d
  {
  }

  lemma {:induction false} SectorsReadBack(pre: seq<byte>, nums: seq<byte>, datas: seq<seq<byte>>, size: nat, post: seq<byte>)
    requires |nums| == |datas| && size > 0 && AllSized(datas, size)
    ensures ReadSectors(pre + AllSectorBytes(datas) + post, |pre|, nums, size)
         == Success((Numbered(nums, datas), |pre| + |AllSectorBytes(datas)|))
    decreases |nums|
  {
    hide *;
    if nums == [] {
      NoSectors(pre, datas, post, size);
    } else {
      var first, rest := SectorBytes(datas[0]), AllSectorBytes(datas[1..]);
      FirstSector(nums, datas, size);
      Regroup(pre, first, rest, post);
      SectorReadBack(pre, nums[0], datas[0], rest + post);
      SectorsReadBack(pre + first, nums[1..], datas[1..], size, post);
      ReadMore(pre + (first + rest) + post, |pre|, nums, size, Sector(nums[0], datas[0]), |pre + first|);
    }
  }

  lemma NoSectors(pre: seq<byte>, datas: seq<seq<byte>>, post: seq<byte>, size: nat)
    requires datas == []
    ensures ReadSectors(pre + AllSectorBytes(datas) + post, |pre|, [], size) == Success(([], |pre|))
    ensures Numbered([], []) == [] && |AllSectorBytes(datas)| == 0
  {
  }

  lemma FirstSector(nums: seq<byte>, datas: seq<seq<byte>>, size: nat)
    requires |nums| == |datas| > 0 && AllSized(datas, size)
    ensures |datas[0]| == size && AllSized(datas[1..], size)
    ensures AllSectorBytes(datas) == SectorBytes(datas[0]) + AllSectorBytes(datas[1..])
    ensures Numbered(nums, datas) == [Sector(nums[0], datas[0])] + Numbered(nums[1..], datas[1..])
  {
    hide SectorBytes;
  }

  lemma ReadMore(file: seq<byte>, pos: nat, nums: seq<byte>, size: nat, first: Sector, next: nat)
    requires nums != [] && ReadSector(file, pos, nums[0], size) == Success((first, next))
    requires ReadSectors(file, next, nums[1..], size).Success?
    ensures ReadSectors(file, pos, nums, size)
         == Success(([first] + ReadSectors(file, next, nums[1..], size).value.0, ReadSectors(file, next, nums[1..], size).value.1))
  {
    hide ReadSector;
  }

  /** No optional maps to skip when the record is read: it announces none, or they would be empty. */
  predicate Plain(t: Track) { !t.HasMaps() || t.secnums == [] }

  lemma HeaderReadBack(pre: seq<byte>, t: Track, rest: seq<byte>)
    requires |t.secnums| < 256 && Plain(t)
    ensures HeaderAt(pre + HeaderBytes(t) + rest, |pre|, t)
    ensures |pre| + 5 <= |pre + HeaderBytes(t) + rest|
    ensures DataStart(pre + HeaderBytes(t) + rest, |pre|) == |pre| + |HeaderBytes(t)|
  {
    var h := HeaderBytes(t);
    var file := pre + h + rest;
    assert forall i :: 0 <= i < |h| ==> file[|pre| + i] == h[i];
    assert h[0] == t.mode && h[1] == t.cyl && h[2] == t.headByte && h[3] == |t.secnums| && h[4] == t.sizeCode;
    assert file[|pre| + 5..|pre| + 5 + |t.secnums|] == h[5..];
  }

  /** The track that `write_track` writes, read back at the place it was written to: the header and the
      numbering as they were, each sector with its new data. */
  lemma TrackReadBack(pre: seq<byte>, t: Track, datas: seq<seq<byte>>, post: seq<byte>)
    requires |t.secnums| < 256 && Plain(t)
    requires |datas| == |t.secnums| && AllSized(datas, t.SectorSize())
    ensures var bytes := HeaderBytes(t) + AllSectorBytes(datas);
      ReadTrack(pre + bytes + post, |pre|)
      == Success(t.(sectors := Numbered(t.secnums, datas), start := |pre|, end := |pre| + |bytes|))
  {
    hide *;
    var h, s := HeaderBytes(t), AllSectorBytes(datas);
    Regroup(pre, h, s, post);
    HeaderReadBack(pre, t, s + post);
    SizeIs(t);
    SectorsReadBack(pre + h, t.secnums, datas, t.SectorSize(), post);
    TrackIs(pre + (h + s) + post, |pre|, t, Numbered(t.secnums, datas), |pre + h| + |s|);
  }

  /** Whatever the new data, the track written reads back with them. */
  ghost predicate ReadsBack(t: Track)
    requires |t.secnums| < 256
  {
    forall pre: seq<byte>, datas: seq<seq<byte>>, post: seq<byte> ::
      |datas| == |t.secnums| && AllSized(datas, t.SectorSize()) ==>
        var bytes := HeaderBytes(t) + AllSectorBytes(datas);
        ReadTrack(pre + bytes + post, |pre|)
        == Success(t.(sectors := Numbered(t.secnums, datas), start := |pre|, end := |pre| + |bytes|))
  }

  /** `write_track` keeps the flags of the optional maps but writes no maps, so it is undone by reading
      exactly for tracks without them (or without sectors). */
  lemma TrackReadsBackIff(t: Track)
    requires |t.secnums| < 256
    ensures ReadsBack(t) <==> Plain(t)
  {
    hide ReadTrack, AllSectorBytes, Numbered, Track.SectorSize, Plain;
    if Plain(t) {
      forall pre: seq<byte>, datas: seq<seq<byte>>, post: seq<byte> | |datas| == |t.secnums| && AllSized(datas, t.SectorSize())
        ensures var bytes := HeaderBytes(t) + AllSectorBytes(datas);
          ReadTrack(pre + bytes + post, |pre|)
          == Success(t.(sectors := Numbered(t.secnums, datas), start := |pre|, end := |pre| + |bytes|))
      {
        TrackReadBack(pre, t, datas, post);
      }
    } else {
      var datas := MapsMislead(t);
      var none: seq<byte> := [];
      assert none + (HeaderBytes(t) + AllSectorBytes(datas)) + none == HeaderBytes(t) + AllSectorBytes(datas);
      assert ReadTrack(none + (HeaderBytes(t) + AllSectorBytes(datas)) + none, |none|).Failure?;
    }
  }

  function Nines(n: nat): (r: seq<byte>)
    ensures |r| == 2 * n
    ensures forall i :: 0 <= i < 2 * n ==> r[i] == if i % 2 == 0 then 2 else 9
  {
    seq(2 * n, i requires i >= 0 => if i % 2 == 0 then 2 else 9)
  }

  /** Sectors filled with 9: the bytes skipped in place of the maps are missing at the end, or 9, which
      no sector type has, is taken for one. */
  lemma MapsMislead(t: Track) returns (datas: seq<seq<byte>>)
    requires |t.secnums| < 256 && !Plain(t)
    ensures |datas| == |t.secnums| && AllSized(datas, t.SectorSize())
    ensures ReadTrack(HeaderBytes(t) + AllSectorBytes(datas), 0).Failure?
  {
    var n := |t.secnums|;
    datas := seq(n, _ => Filled(9, t.SectorSize()));
    SizeIs(t);
    NinesWritten(datas, t.SectorSize());
    NinesMislead(t);
  }

  lemma NinesMislead(t: Track)
    requires |t.secnums| < 256 && !Plain(t)
    ensures ReadTrack(HeaderBytes(t) + Nines(|t.secnums|), 0).Failure?
  {
    var n, h := |t.secnums|, HeaderBytes(t);
    var file := h + Nines(n);
    HeaderOfFile(t, Nines(n));
    hide ReadSectors, Track.SectorSize, Slice, ReadTrack, HeaderBytes;
    NinesFail(file, DataStart(file, 0), t.secnums, t.SectorSize());
    FailedTrack(file, t);
  }

  lemma HeaderOfFile(t: Track, rest: seq<byte>)
    requires |t.secnums| < 256
    ensures HeaderAt(HeaderBytes(t) + rest, 0, t)
  {
    var h := HeaderBytes(t);
    var file := h + rest;
    assert forall i :: 0 <= i < |h| ==> file[i] == h[i];
    assert h[0] == t.mode && h[1] == t.cyl && h[2] == t.headByte && h[3] == |t.secnums| && h[4] == t.sizeCode;
    assert file[5..5 + |t.secnums|] == h[5..];
  }

  lemma FailedTrack(file: seq<byte>, t: Track)
    requires HeaderAt(file, 0, t) && ReadSectors(file, DataStart(file, 0), t.secnums, t.SectorSize()).Failure?
    ensures ReadTrack(file, 0).Failure?
  {
    hide ReadSectors, Slice, Size, DataStart;
  }

  lemma {:induction false} NinesWritten(datas: seq<seq<byte>>, size: nat)
    requires size > 0 && forall i :: 0 <= i < |datas| ==> datas[i] == Filled(9, size)
    ensures AllSectorBytes(datas) == Nines(|datas|)
    decreases |datas|
  {
    if datas != [] {
      NinesWritten(datas[1..], size);
      assert SectorBytes(datas[0]) == [2, 9];
      assert AllSectorBytes(datas) == [2, 9] + Nines(|datas| - 1);
    }
  }

  lemma {:induction false} NinesFail(file: seq<byte>, pos: nat, nums: seq<byte>, size: nat)
    requires nums != [] && |file| < pos + 2 * |nums|
    requires forall i :: pos <= i < |file| ==> file[i] == if (|file| - i) % 2 == 0 then 2 else 9
    ensures ReadSectors(file, pos, nums, size).Failure?
    decreases |nums|
  {
    if pos < |file| && (|file| - pos) % 2 == 0 {
      assert file[pos + 1] == 9;
      NinesFail(file, pos + 2, nums[1..], size);
    }
  }

  lemma SizeIs(t: Track)
    ensures t.SectorSize() == Size(t.sizeCode) > 0
  {
  }

  /** The header of `t` stands at `pos`. */
  predicate HeaderAt(file: seq<byte>, pos: nat, t: Track) {
    && pos + 5 + |t.secnums| <= |file| && |t.secnums| < 256
    && file[pos] == t.mode && file[pos + 1] == t.cyl && file[pos + 2] == t.headByte
    && file[pos + 3] == |t.secnums| && file[pos + 4] == t.sizeCode
    && Slice(file, pos + 5, |t.secnums|) == t.secnums
  }

  lemma TrackIs(file: seq<byte>, pos: nat, t: Track, sectors: seq<Sector>, end: nat)
    requires HeaderAt(file, pos, t)
    requires ReadSectors(file, DataStart(file, pos), t.secnums, t.SectorSize()) == Success((sectors, end))
    ensures ReadTrack(file, pos) == Success(t.(sectors := sectors, start := pos, end := end))
  {
    hide ReadSectors, Slice, Size, DataStart;
  }

  // A record copied elsewhere is read as before.

  /** The bytes from `pos` to `limit` stand at `pos'` in the other file. */
  predicate Same(data: seq<byte>, pos: nat, data': seq<byte>, pos': nat, limit: nat) {
    && pos <= limit <= |data| && pos' + (limit - pos) <= |data'|
    && forall i :: pos <= i < limit ==> data[i] == data'[i - pos + pos']
  }

  lemma SameLater(data: seq<byte>, pos: nat, data': seq<byte>, pos': nat, limit: nat, next: nat)
    requires Same(data, pos, data', pos', limit) && pos <= next <= limit
    ensures Same(data, next, data', next - pos + pos', limit)
  {
    forall i | next <= i < limit ensures data[i] == data'[i - next + (next - pos + pos')] {
      assert data[i] == data'[i - pos + pos'];
    }
  }

  lemma SliceMoves(data: seq<byte>, pos: nat, size: nat, data': seq<byte>, pos': nat, limit: nat)
    requires Same(data, pos, data', pos', limit) && pos + size <= limit
    ensures Slice(data, pos, size) == Slice(data', pos', size)
  {
    if size > 0 {
      assert Slice(data, pos, size) == data[pos..pos + size];
      assert Slice(data', pos', size) == data'[pos'..pos' + size];
      assert data[pos..pos + size] == data'[pos'..pos' + size];
    }
  }

  lemma SectorMoves(data: seq<byte>, pos: nat, num: byte, size: nat, data': seq<byte>, pos': nat, limit: nat)
    requires ReadSector(data, pos, num, size).Success? && ReadSector(data, pos, num, size).value.1 <= limit
    requires Same(data, pos, data', pos', limit)
    ensures ReadSector(data', pos', num, size)
         == Success((ReadSector(data, pos, num, size).value.0, ReadSector(data, pos, num, size).value.1 - pos + pos'))
  {
    assert data[pos] == data'[pos'];
    if data[pos] > 0 && data[pos] % 2 == 1 {
      SameLater(data, pos, data', pos', limit, pos + 1);
      SliceMoves(data, pos + 1, size, data', pos' + 1, limit);
      hide Slice, Filled, Same;
    } else if data[pos] > 0 {
      assert data[pos + 1] == data'[pos' + 1];
      hide Slice, Filled, Same;
    }
  }

  lemma {:induction false} SectorsMove(data: seq<byte>, pos: nat, nums: seq<byte>, size: nat,
                                       data': seq<byte>, pos': nat, limit: nat)
    requires ReadSectors(data, pos, nums, size).Success? && ReadSectors(data, pos, nums, size).value.1 <= limit
    requires Same(data, pos, data', pos', limit)
    ensures ReadSectors(data', pos', nums, size)
         == Success((ReadSectors(data, pos, nums, size).value.0, ReadSectors(data, pos, nums, size).value.1 - pos + pos'))
    decreases |nums|
  {
    if nums != [] {
      var first := ReadSector(data, pos, nums[0], size);
      var next := first.value.1;
      assert next > pos by { hide Filled, Slice; }
      SectorsAdvance(data, next, nums[1..], size);
      hide ReadSector, Same;
      SectorMoves(data, pos, nums[0], size, data', pos', limit);
      SameLater(data, pos, data', pos', limit, next);
      SectorsMove(data, next, nums[1..], size, data', next - pos + pos', limit);
    }
  }

  /** The bytes of a track copied to another place are the same track there. */
  lemma TrackMoves(data: seq<byte>, pos: nat, pre: seq<byte>, post: seq<byte>)
    requires ReadTrack(data, pos).Success? && ReadTrack(data, pos).value.end <= |data|
    ensures var t := ReadTrack(data, pos).value;
      pos <= t.end && ReadTrack(pre + data[pos..t.end] + post, |pre|)
                      == Success(t.(start := |pre|, end := |pre| + (t.end - pos)))
  {
    var t := ReadTrack(data, pos).value;
    TrackAdvances(data, pos);
    hide *;
    SameCopy(data, pos, t.end, pre, post);
    MovedTrack(data, pos, pre + data[pos..t.end] + post, |pre|);
  }

  lemma SameCopy(data: seq<byte>, pos: nat, end: nat, pre: seq<byte>, post: seq<byte>)
    requires pos <= end <= |data|
    ensures Same(data, pos, pre + data[pos..end] + post, |pre|, end)
  {
    var file := pre + data[pos..end] + post;
    forall i | pos <= i < end ensures data[i] == file[i - pos + |pre|] {
      assert file[i - pos + |pre|] == data[pos..end][i - pos];
    }
  }

  lemma TrackParts(data: seq<byte>, pos: nat) returns (from: nat)
    requires ReadTrack(data, pos).Success? && ReadTrack(data, pos).value.end <= |data|
    ensures var t := ReadTrack(data, pos).value;
      && HeaderAt(data, pos, t) && pos + 5 + |t.secnums| <= from == DataStart(data, pos) <= t.end
      && ReadSectors(data, from, t.secnums, t.SectorSize()) == Success((t.sectors, t.end))
  {
    var t := ReadTrack(data, pos).value;
    from := DataStart(data, pos);
    hide ReadSectors, Size;
    SectorsAdvance(data, from, t.secnums, t.SectorSize());
  }

  lemma MovedTrack(data: seq<byte>, pos: nat, data': seq<byte>, pos': nat)
    requires ReadTrack(data, pos).Success? && ReadTrack(data, pos).value.end <= |data|
    requires Same(data, pos, data', pos', ReadTrack(data, pos).value.end)
    ensures var t := ReadTrack(data, pos).value;
      pos <= t.end && ReadTrack(data', pos') == Success(t.(start := pos', end := pos' + (t.end - pos)))
  {
    hide *;
    var t := ReadTrack(data, pos).value;
    var from := TrackParts(data, pos);
    SameHeader(data, pos, data', pos', t);
    SameLater(data, pos, data', pos', t.end, from);
    SectorsMove(data, from, t.secnums, t.SectorSize(), data', from - pos + pos', t.end);
    TrackIs(data', pos', t, t.sectors, t.end - pos + pos');
  }

  lemma SameHeader(data: seq<byte>, pos: nat, data': seq<byte>, pos': nat, t: Track)
    requires Same(data, pos, data', pos', t.end) && HeaderAt(data, pos, t) && pos + 5 + |t.secnums| <= t.end
    ensures HeaderAt(data', pos', t) && pos' + 5 <= |data'| && pos + 5 <= |data|
    ensures DataStart(data', pos') == DataStart(data, pos) - pos + pos'
  {
    var n := |t.secnums|;
    assert data[pos] == data'[pos'] && data[pos + 1] == data'[pos' + 1] && data[pos + 2] == data'[pos' + 2];
    assert data[pos + 3] == data'[pos' + 3] && data[pos + 4] == data'[pos' + 4];
    assert data[pos + 5..pos + 5 + n] == data'[pos' + 5..pos' + 5 + n];
    assert n > 0 ==> Slice(data, pos + 5, n) == data[pos + 5..pos + 5 + n];
    assert n > 0 ==> Slice(data', pos' + 5, n) == data'[pos' + 5..pos' + 5 + n];
  }
}
