/** The boot PROM's floppy reader (`autoload-in-c/rom.c`): format tables, detection, the multi-track
    read and the Track 0 loop, over the tracks of a disk image. */
module BootProm {
  import opened Arithmetic
  import opened Bytes
  import opened Wrappers
  import opened Imd
  import opened PatchBios
  import DiskFormat

  // Geometry.

  /** The last sector number of a track, by disk type, size code and density. */
  function Eot(mini: bool, n: byte, mfm: bool): byte
    requires n < 4
  {
    if !mini then
      if !mfm then (if n == 0 then 0x1A else if n == 1 then 0x0F else if n == 2 then 0x08 else 0x00)
      else (if n == 0 then 0x34 else if n == 1 then 0x1A else if n == 2 then 0x0F else 0x08)
    else
      if !mfm then (if n == 0 then 0x10 else if n == 1 then 0x09 else if n == 2 then 0x05 else 0x00)
      else (if n == 0 then 0x20 else if n == 1 then 0x10 else if n == 2 then 0x09 else 0x05)
  }

  datatype Geometry = Geometry(diskType: byte, eot: byte, n: byte, doubleSided: bool)

  /** The sectors a transfer counts on; under head 1 of a disk type with the top bit set, ten. */
  function Sectors(g: Geometry, head: byte, sector: byte): byte {
    if g.diskType >= 128 && head == 1 then 10 else (g.eot - sector + 1) % 256
  }

  /** `x` shifted left `n` times in 16 bits. */
  function ShiftLeft(x: word, n: nat): word
    decreases n
  {
    if n == 0 then x else ShiftLeft(x * 2 % 65536, n - 1)
  }

  function TrackSize(g: Geometry, head: byte, sector: byte): word {
    ShiftLeft(Sectors(g, head, sector), 7 + g.n)
  }

  function NextHead(g: Geometry, head: byte): byte {
    if head == (if g.doubleSided then 1 else 0) then 0 else (head + 1) % 256
  }

  function NextCyl(g: Geometry, cyl: byte, head: byte): byte {
    if head == (if g.doubleSided then 1 else 0) then (cyl + 1) % 256 else cyl
  }

  // The FDC. A read is one step that delivers sectors or fails.

  function FindTrack(disk: seq<Track>, cyl: byte, head: byte): Option<Track> {
    if disk == [] then None
    else if disk[0].cyl == cyl && disk[0].Head() == head then Some(disk[0])
    else FindTrack(disk[1..], cyl, head)
  }

  predicate IsMfm(t: Track) { t.mode > 2 }

  /** `count` bytes from sector `r` on, up to sector `eot`. */
  function FdcSectors(sectors: seq<Sector>, r: nat, eot: byte, count: nat): (data: Option<seq<byte>>)
    requires r <= 256
    ensures data.Some? ==> |data.value| == count
    decreases 256 - r
  {
    if count == 0 then Some([])
    else if r > eot then None
    else
      var data := Lookup(sectors, r);
      if data.None? then None
      else if count <= |data.value| then Some(data.value[..count])
      else
        var more := FdcSectors(sectors, r + 1, eot, count - |data.value|);
        if more.None? then None else Some(data.value + more.value)
  }

  /** The word count register holds one less than the size, so a size of 0 asks for 65536 bytes. */
  function DmaCount(size: word): nat { if size == 0 then 65536 else size }

  datatype Transfer = Transfer(cyl: byte, head: byte, sector: byte, address: word, size: word)

  function FdcRead(disk: seq<Track>, t: Transfer, mfm: bool, n: byte, eot: byte): (data: Option<seq<byte>>)
    ensures data.Some? ==> |data.value| == DmaCount(t.size)
  {
    match FindTrack(disk, t.cyl, t.head)
    case None => None
    case Some(track) =>
      if IsMfm(track) == mfm && track.sizeCode == n
      then FdcSectors(track.sectors, t.sector, eot, DmaCount(t.size))
      else None
  }

  // The transfers of one multi-track read.

  /** Both sizes the read will use are non-zero and small enough for the signed comparison. */
  predicate Usable(g: Geometry, head: byte, sector: byte) {
    && 0 < TrackSize(g, head, sector) < 32768
    && 0 < TrackSize(g, 0, 1) < 32768 && 0 < TrackSize(g, 1, 1) < 32768
    && head <= (if g.doubleSided then 1 else 0)
  }

  /** A track type without sectors: detection leaves it an empty transfer. */
  predicate Barren(g: Geometry, head: byte, sector: byte) {
    g.eot == 0 && sector == 1 && (g.diskType < 128 || head != 1)
  }

  /** A read of `left` bytes can start under `head` at `sector`. */
  predicate Can(left: nat, head: byte, sector: byte, g: Geometry) {
    left < 32768 && Usable(g, head, sector)
  }

  /** ... or can at least be tried. */
  predicate CanTry(left: nat, head: byte, sector: byte, g: Geometry) {
    left < 32768 && (Usable(g, head, sector) || Barren(g, head, sector))
  }

  function Transfers(left: nat, cyl: byte, head: byte, sector: byte, address: word, g: Geometry): seq<Transfer>
    requires Can(left, head, sector, g)
    decreases left
  {
    var size := TrackSize(g, head, sector);
    if left > size then
      UsableSize(g, head, sector);
      [Transfer(cyl, head, sector, address, size)]
      + Transfers(left - size, NextCyl(g, cyl, head), NextHead(g, head), 1, (address + size) % 65536, g)
    else [Transfer(cyl, head, sector, address, left)]
  }

  /** Memory after the transfers, if none fails. */
  function Loaded(disk: seq<Track>, mem: seq<byte>, ts: seq<Transfer>, mfm: bool, n: byte, eot: byte): (r: Option<seq<byte>>)
    requires |mem| == 65536
    ensures r.Some? ==> |r.value| == 65536
    decreases |ts|
  {
    if ts == [] then Some(mem)
    else
      match FdcRead(disk, ts[0], mfm, n, eot)
      case None => None
      case Some(data) => Loaded(disk, Stored(mem, ts[0].address, data), ts[1..], mfm, n, eot)
  }

  /** `data` from `at` on, round the end of memory. */
  function Stored(mem: seq<byte>, at: word, data: seq<byte>): (r: seq<byte>)
    requires |mem| == 65536 && |data| <= 65536
    ensures |r| == 65536
  {
    seq(65536, k requires 0 <= k < 65536 => if Distance(at, k) < |data| then data[Distance(at, k)] else mem[k])
  }

  /** How far `k` lies behind `at`, round the end of memory. */
  function Distance(at: word, k: word): (d: word)
    ensures (at + d) % 65536 == k
  {
    if k >= at then k - at else k - at + 65536
  }

  /** Where a read has got to: memory, position on the disk, DMA address and bytes still to come. */
  datatype Place = Place(mem: seq<byte>, cyl: byte, head: byte, sector: byte, address: word, left: nat)

  predicate GoesOn(p: Place, g: Geometry) { p.left > TrackSize(g, p.head, p.sector) }

  function NextSize(p: Place, g: Geometry): nat {
    if GoesOn(p, g) then TrackSize(g, p.head, p.sector) else p.left
  }

  /** One transfer; `None` if it fails. */
  function One(disk: seq<Track>, p: Place, g: Geometry, mfm: bool): (next: Option<Place>)
    requires |p.mem| == 65536 && CanTry(p.left, p.head, p.sector, g)
    ensures next.Some? ==> |next.value.mem| == 65536
  {
    var size := NextSize(p, g);
    match FdcRead(disk, Transfer(p.cyl, p.head, p.sector, p.address, size), mfm, g.n, g.eot)
    case None => None
    case Some(data) =>
      Some(Place(Stored(p.mem, p.address, data), NextCyl(g, p.cyl, p.head), NextHead(g, p.head), 1,
                 (p.address + size) % 65536, p.left - size))
  }

  /** Without sectors a transfer fails: the word count register then asks for 65536 bytes. */
  lemma NoSectorNoRead(disk: seq<Track>, p: Place, g: Geometry, mfm: bool)
    requires |p.mem| == 65536 && CanTry(p.left, p.head, p.sector, g) && Barren(g, p.head, p.sector)
    ensures TrackSize(g, p.head, 1) == 0 && One(disk, p, g, mfm) == None
  {
    ShiftZero(7 + g.n);
    hide Stored, FindTrack;
  }

  /** The whole read, transfer after transfer. */
  function Run(disk: seq<Track>, p: Place, g: Geometry, mfm: bool): (end: Option<Place>)
    requires |p.mem| == 65536 && CanTry(p.left, p.head, p.sector, g)
    ensures end.Some? ==> |end.value.mem| == 65536
    decreases p.left
  {
    var next := One(disk, p, g, mfm);
    if next.Some? && GoesOn(p, g) then
      OneUsable(disk, p, g, mfm);
      Run(disk, next.value, g, mfm)
    else next
  }

  lemma OneUsable(disk: seq<Track>, p: Place, g: Geometry, mfm: bool)
    requires |p.mem| == 65536 && CanTry(p.left, p.head, p.sector, g) && One(disk, p, g, mfm).Some?
    ensures Usable(g, p.head, p.sector) && 0 < TrackSize(g, p.head, p.sector) && Usable(g, NextHead(g, p.head), 1)
  {
    if Barren(g, p.head, p.sector) {
      NoSectorNoRead(disk, p, g, mfm);
    }
    hide TrackSize, FdcRead, Stored;
    UsableSize(g, p.head, p.sector);
  }

  lemma RunNext(disk: seq<Track>, p: Place, g: Geometry, mfm: bool)
    requires |p.mem| == 65536 && CanTry(p.left, p.head, p.sector, g)
    ensures var next := One(disk, p, g, mfm);
      && (next.Some? ==> |next.value.mem| == 65536 && next.value.left <= p.left
                         && Can(next.value.left, next.value.head, next.value.sector, g))
      && (next.Some? && GoesOn(p, g) ==> next.value.left < p.left)
      && Run(disk, p, g, mfm) == if next.Some? && GoesOn(p, g) then Run(disk, next.value, g, mfm) else next
  {
    if One(disk, p, g, mfm).Some? {
      OneUsable(disk, p, g, mfm);
    }
    hide TrackSize, FdcRead, Stored, Usable;
  }

  /** `(int16_t) a - (int16_t) b` in 16 bits. */
  function Signed(x: word): int { if x < 32768 then x else x - 65536 }

  function Remaining(a: word, b: word): int { Signed((Signed(a) - Signed(b)) % 65536) }

  lemma RemainingExact(a: word, b: word)
    requires a < 32768 && b < 32768
    ensures Remaining(a, b) == a - b
  {
  }

  class Prom {
    const disk: seq<Track>
    const memory: array<byte>
    const isMini: bool
    var cylinder: byte
    var head: byte
    var sector: byte
    var sizeShift: byte
    var eot: byte
    var isMfm: bool
    var isDoubleSided: bool
    var diskType: byte
    var transferAddress: word
    var transferSize: word
    var bytesLeft: word
    var moreTracks: bool

    /** The state at reset. */
    constructor (disk: seq<Track>, mini: bool, memory: array<byte>)
      ensures this.disk == disk && isMini == mini && this.memory == memory
      ensures cylinder == 0 && head == 0 && diskType == 0 && transferAddress == 0 && !isDoubleSided
    {
      this.disk, this.isMini, this.memory := disk, mini, memory;
      cylinder, head, sector, sizeShift, eot, diskType := 0, 0, 0, 0, 0, 0;
      isMfm, isDoubleSided, moreTracks := false, false, false;
      transferAddress, transferSize, bytesLeft := 0, 0, 0;
    }

    function Shape(): Geometry
      reads this
    {
      Geometry(diskType, eot, sizeShift, isDoubleSided)
    }

    /** `lookup_sectors_and_gap3_for_current_track`. */
    method LookupSectors()
      requires sizeShift < 4
      modifies `eot
      ensures eot == Eot(isMini, sizeShift, isMfm)
    {
      eot := Eot(isMini, sizeShift, isMfm);
    }

    /** `calc_size_of_current_track`. */
    method CalcSize()
      modifies `transferSize
      ensures transferSize == TrackSize(Shape(), head, sector)
    {
      var sectors: byte := if diskType >= 128 && head == 1 then 10 else (eot - sector + 1) % 256;
      var tb: word := sectors;
      var i: nat := 7 + sizeShift;
      while i != 0
        invariant ShiftLeft(sectors, 7 + sizeShift) == ShiftLeft(tb, i)
      {
        tb := tb * 2 % 65536;
        i := i - 1;
      }
      transferSize := tb;
    }

    /** `fdc_detect_sector_size_and_density`, seeks assumed to succeed: FM is tried before MFM. */
    method Detect() returns (ok: bool)
      requires forall i :: 0 <= i < |disk| ==> disk[i].sizeCode < 4
      modifies `isMfm, `sizeShift, `eot, `transferSize
      ensures ok == FindTrack(disk, cylinder, head).Some?
      ensures ok ==> var t := FindTrack(disk, cylinder, head).value;
        isMfm == IsMfm(t) && sizeShift == t.sizeCode && sizeShift < 4
        && eot == Eot(isMini, sizeShift, isMfm) && transferSize == TrackSize(Shape(), head, sector)
    {
      FoundIn(disk, cylinder, head);
      hide FindTrack, TrackSize, Eot;
      var track := FindTrack(disk, cylinder, head);
      isMfm := false;
      transferSize := 4;
      if !(track.Some? && IsMfm(track.value) == isMfm) {
        isMfm := true;
        transferSize := 4;
        if !(track.Some? && IsMfm(track.value) == isMfm) {
          return false;
        }
      }
      sizeShift := track.value.sizeCode % 8;
      LookupSectors();
      CalcSize();
      return true;
    }

    /** The DMA side of a successful transfer. */
    method Store(data: seq<byte>)
      requires memory.Length == 65536 && |data| <= 65536
      modifies memory
      ensures memory[..] == Stored(old(memory[..]), transferAddress, data)
    {
      for i := 0 to |data|
        invariant forall k: word :: memory[k] == if Distance(transferAddress, k) < i then data[Distance(transferAddress, k)] else old(memory[k])
      {
        memory[(transferAddress + i) % 65536] := data[i];
      }
    }

    /** The size of the next transfer, and what is left after it. */
    method Plan()
      requires bytesLeft < 32768 && TrackSize(Shape(), head, sector) < 32768
      modifies `transferSize, `bytesLeft, `moreTracks
      ensures moreTracks == (old(bytesLeft) > TrackSize(Shape(), head, sector))
      ensures transferSize == if moreTracks then TrackSize(Shape(), head, sector) else old(bytesLeft)
      ensures bytesLeft == if moreTracks then old(bytesLeft) - TrackSize(Shape(), head, sector) else 0
    {
      hide TrackSize;
      CalcSize();
      RemainingExact(bytesLeft, transferSize);
      var remaining := Remaining(bytesLeft, transferSize);
      hide Remaining;
      if remaining > 0 {
        moreTracks := true;
        bytesLeft := remaining;
      } else {
        moreTracks := false;
        transferSize := bytesLeft;
        bytesLeft := 0;
      }
    }

    /** On to sector 1 under the next head, or of the next cylinder. */
    method Advance()
      modifies `sector, `head, `cylinder
      ensures sector == 1 && head == NextHead(Shape(), old(head)) && cylinder == NextCyl(Shape(), old(cylinder), old(head))
    {
      sector := 1;
      var maxHead := if isDoubleSided then 1 else 0;
      if maxHead == head {
        head := 0;
        cylinder := (cylinder + 1) % 256;
      } else {
        head := (head + 1) % 256;
      }
    }

    function Now(): Place
      reads this, memory
    {
      Place(memory[..], cylinder, head, sector, transferAddress, bytesLeft)
    }

    /** One turn of the read loop: plan, transfer, advance. */
    method ReadOne() returns (ok: bool)
      requires memory.Length == 65536 && CanTry(bytesLeft, head, sector, Shape())
      modifies this, memory
      ensures isMfm == old(isMfm) && Shape() == old(Shape())
      ensures var r := One(disk, old(Now()), Shape(), isMfm);
        ok == r.Some? && (ok ==> Now() == r.value && moreTracks == GoesOn(old(Now()), Shape()))
    {
      hide TrackSize, FdcRead, NextHead, NextCyl, Stored, Usable, Barren;
      TriedSize(bytesLeft, head, sector, Shape());
      Plan();
      var data := FdcRead(disk, Transfer(cylinder, head, sector, transferAddress, transferSize), isMfm, sizeShift, eot);
      if data.None? {
        return false;
      }
      Store(data.value);
      transferAddress := (transferAddress + transferSize) % 65536;
      transferSize := 0;
      Advance();
      return true;
    }

    /** `fdc_read_data_from_current_location`. On a failed read the PROM halts: the result is false. */
    method ReadData(total: word) returns (ok: bool)
      requires memory.Length == 65536 && CanTry(total, head, sector, Shape())
      modifies this, memory
      ensures isMfm == old(isMfm) && Shape() == old(Shape())
      ensures var r := Run(disk, old(Now().(left := total)), Shape(), isMfm);
        ok == r.Some? && (ok ==> Now() == r.value)
    {
      bytesLeft := total;
      ghost var g, start := Shape(), Now();
      assert start == old(Now().(left := total));
      hide TrackSize, Run, One, Can, CanTry, GoesOn;
      while true
        invariant memory.Length == 65536 && CanTry(bytesLeft, head, sector, g)
        invariant isMfm == old(isMfm) && Shape() == g
        invariant Run(disk, start, g, isMfm) == Run(disk, Now(), g, isMfm)
        decreases bytesLeft
      {
        RunNext(disk, Now(), g, isMfm);
        ok := ReadOne();
        CanMeansTry(bytesLeft, head, sector, g);
        if !ok || !moreTracks {
          return;
        }
      }
    }

    /** A track of 1024-byte FM sectors is detected, and then no read of it succeeds: the PROM halts with an error. */
    method ReadKilobyteFm(total: word) returns (found: bool, ok: bool)
      requires memory.Length == 65536 && total < 32768 && sector == 1 && (diskType < 128 || head != 1)
      requires forall i :: 0 <= i < |disk| ==> disk[i].sizeCode < 4
      requires var t := FindTrack(disk, cylinder, head); t.Some? && !IsMfm(t.value) && t.value.sizeCode == 3
      modifies this, memory
      ensures found && !ok
    {
      hide TrackSize, Run;
      found := Detect();
      NoSectorNoRead(disk, Now().(left := total), Shape(), isMfm);
      RunNext(disk, Now().(left := total), Shape(), isMfm);
      hide CanTry;
      ok := ReadData(total);
    }

    /** The next `k` sides are good, with as many sectors as the first of them has, which is what its kind of
        diskette holds, and 1 to `total` bytes of them are wanted. */
    ghost predicate SidesAhead(total: word, k: nat)
      reads this
    {
      && (diskType < 128 || !isDoubleSided)
      && Wanted(disk, cylinder, head, sector, isMini, isDoubleSided, total, k)
    }

    /** What those sides hold. */
    ghost function Ahead(k: nat): seq<byte>
      reads this
    {
      SidesContent(disk, Turns(isDoubleSided), cylinder, head, k)
    }

    /** Detection and then a read, as the legacy boot does it: side after side is put into memory. */
    method DetectAndRead(total: word, ghost k: nat) returns (found: bool, ok: bool)
      requires memory.Length == 65536 && SidesAhead(total, k)
      modifies this, memory
      ensures diskType == old(diskType) && isDoubleSided == old(isDoubleSided)
      ensures found && ok && total <= |old(Ahead(k))|
      ensures memory[..] == Stored(old(memory[..]), old(transferAddress), old(Ahead(k))[..total])
      ensures transferAddress == (old(transferAddress) + total) % 65536
    {
      ghost var p := Now().(left := total);
      CountedSides(disk, p, isMini, diskType, isDoubleSided, k);
      hide Eot, TrackSize, Run, SidesContent, CanTry, FindTrack, Wanted;
      found := Detect();
      assert Now().(left := total) == p;
      ok := ReadData(total);
    }

    /** A double-sided 5.25 inch diskette whose next cylinder has nine good sectors of 512 bytes on each side. */
    ghost predicate MiniAhead()
      reads this
    {
      && isMini && isDoubleSided && FindTrack(disk, cylinder, 0).Some? && FindTrack(disk, cylinder, 1).Some?
      && PromSide(FindTrack(disk, cylinder, 0).value, true, 2, 9) && PromSide(FindTrack(disk, cylinder, 1).value, true, 2, 9)
    }

    /** `floppy_legacy_boot`, up to the jump: from where the Track 0 loop has left off, `total` bytes (the
        build's INTVEC_ADDR) go to address 0. On 5.25 inch diskettes it asks for ten sectors under head 1
        whatever their number is, so with nine it only succeeds if the second side is to be read in part. */
    method LegacyBoot(total: word, ghost k: nat) returns (ok: bool)
      requires memory.Length == 65536 && diskType == 1 && head == 0 && sector == 1 && 0 < total < 32768
      requires FindTrack(disk, cylinder, 0).Some? && forall i :: 0 <= i < |disk| ==> disk[i].sizeCode < 4
      modifies this, memory
      ensures diskType == 1
      ensures old(SidesAhead(total, k)) && !(isMini && old(isDoubleSided)) ==>
        ok && total <= |old(Ahead(k))| && memory[..] == Overlay(old(memory[..]), 0, old(Ahead(k))[..total])
      ensures old(MiniAhead()) ==> (ok <==> total <= 9216)
    {
      hide SidesContent, Stored, Overlay, Wanted, Run, CanTry, FindTrack, Eot, PromSide, TrackSize;
      ghost var p, doubled := Now().(address := 0, left := total), isDoubleSided;
      LegacyRun(disk, p, isMini, isDoubleSided, k);
      diskType := ((if isMini then 128 else 0) + diskType) % 256;
      diskType := (diskType + 255) % 256;
      var found := Detect();
      transferAddress := 0;
      assert Now().(left := total) == p;
      ok := ReadData(total);
      diskType := 1;
    }

    /** Between two passes of the Track 0 loop: detection has set up the side under `head`. */
    ghost predicate Detected(s0: Track, s1: Track)
      reads this
    {
      && PromDisk(disk, isMini, s0, s1) && head < 2 && cylinder == 0 && sector == 1
      && Shape() == SideGeometry(isMini, head) && isMfm == (head == 1)
      && transferSize == SectorCount(isMini) * Size(head)
    }

    /** Detection on a boot disk. */
    method DetectSide(ghost s0: Track, ghost s1: Track) returns (ok: bool)
      requires PromDisk(disk, isMini, s0, s1) && head < 2 && cylinder == 0 && sector == 1
      requires diskType == 0
      modifies `isMfm, `sizeShift, `eot, `transferSize
      ensures ok && (isDoubleSided ==> Detected(s0, s1))
    {
      hide TrackSize, Size, SectorCount, Eot;
      SideSize(isMini, head);
      SideFacts(s0, false, 0, SectorCount(isMini));
      SideFacts(s1, true, 1, SectorCount(isMini));
      ok := Detect();
    }

    /** One pass of the Track 0 loop. */
    method ReadSide(ghost s0: Track, ghost s1: Track) returns (ok: bool)
      requires memory.Length == 65536 && Detected(s0, s1)
      modifies this, memory
      ensures Shape() == old(Shape())
      ensures var s := if old(head) == 0 then s0 else s1;
        && ok && |Content(s)| == old(transferSize)
        && memory[..] == Stored(old(memory[..]), old(transferAddress), Content(s))
        && transferAddress == (old(transferAddress) + |Content(s)|) % 65536
        && sector == 1 && head == 1 - old(head) && cylinder == old(head)
    {
      SideRead(disk, Now().(left := transferSize), isMini, s0, s1);
      hide PromDisk, Content, Size, Stored, Run, CanTry, SectorCount, SideGeometry;
      ok := ReadData(transferSize);
    }

    /** `boot_from_floppy_or_jump_prom1` from detection to the end of the Track 0 loop, on a MAXI or MINI
        boot disk: memory from address 0 on is side 0 and then side 1, each in sector order. */
    method Boot(ghost s0: Track, ghost s1: Track) returns (ok: bool)
      requires memory.Length == 65536 && PromDisk(disk, isMini, s0, s1)
      requires diskType == 0 && transferAddress == 0
      modifies this, memory
      ensures ok && |Content(s0)| + |Content(s1)| <= 65536
      ensures memory[..] == Overlay(old(memory[..]), 0, Content(s0) + Content(s1))
      ensures transferAddress == |Content(s0)| + |Content(s1)| && cylinder == 1
    {
      hide Content, Overlay, Detected, PromDisk;
      cylinder := 0;
      head := 1;
      sector := 1;
      var found := DetectSide(s0, s1);
      if found {
        isDoubleSided := true;
      }
      head := 0;
      found := DetectSide(s0, s1);
      if !found {
        return false;
      }
      ok := BootLoop(s0, s1);
    }

    /** The Track 0 loop. */
    method BootLoop(ghost s0: Track, ghost s1: Track) returns (ok: bool)
      requires memory.Length == 65536 && Detected(s0, s1) && head == 0 && transferAddress == 0
      modifies this, memory
      ensures ok && |Content(s0)| + |Content(s1)| <= 65536
      ensures memory[..] == Overlay(old(memory[..]), 0, Content(s0) + Content(s1))
      ensures transferAddress == |Content(s0)| + |Content(s1)| && cylinder == 1
    {
      ghost var mem0 := memory[..];
      ghost var c0, c1 := Content(s0), Content(s1);
      BothSizes(isMini);
      hide Content, Stored, SectorCount, Size, TrackSize, Overlay;
      while true
        invariant memory.Length == 65536 && Detected(s0, s1)
        invariant head == 0 ==> transferAddress == 0 && memory[..] == mem0
        invariant head == 1 ==> transferAddress == |c0| <= 3328 && memory[..] == Stored(mem0, 0, c0)
        decreases 2 - head
      {
        ok := ReadSide(s0, s1);
        if !ok {
          return;
        }
        if cylinder != 0 {
          break;
        }
        var found := DetectSide(s0, s1);
      }
      StoredTwice(mem0, 0, c0, c1);
      StoredInside(mem0, 0, c0 + c1);
    }
  }

  // Reading one side of a boot disk.

  lemma {:induction false} ReadFrom(sectors: seq<Sector>, k: nat, size: nat, count: nat)
    requires Distinct(sectors) && InRange(sectors, |sectors|) && Full(sectors, size) && size > 0
    requires k <= |sectors| < 256
    ensures |Concat(Sorted(sectors)[k..])| == (|sectors| - k) * size
    ensures count <= (|sectors| - k) * size ==>
      FdcSectors(sectors, k + 1, |sectors|, count) == Some(Concat(Sorted(sectors)[k..])[..count])
    decreases |sectors| - k
  {
    hide *;
    var n := |sectors|;
    if k == n {
      NothingLeft(sectors, size);
    } else {
      var first := SectorAt(sectors, k, size);
      OneMore(n - k, size);
      var rest := Concat(Sorted(sectors)[k + 1..]);
      ReadFrom(sectors, k + 1, size, if count > size then count - size else 0);
      assert (first + rest)[..size] == first;
      if count <= size {
        FdcFirst(sectors, k + 1, n, count, first);
        assert (first + rest)[..count] == first[..count];
      } else if count <= (n - k) * size {
        FdcStep(sectors, k + 1, n, count - size, first, rest[..count - size]);
        assert (first + rest)[..count] == first + rest[..count - size];
      }
    }
  }

  lemma NothingLeft(sectors: seq<Sector>, size: nat)
    requires |sectors| < 256
    ensures Concat(Sorted(sectors)[|sectors|..]) == [] && (|sectors| - |sectors|) * size == 0
    ensures FdcSectors(sectors, |sectors| + 1, |sectors|, 0) == Some([])
  {
  }

  lemma FdcFirst(sectors: seq<Sector>, r: byte, eot: byte, count: nat, data: seq<byte>)
    requires r <= eot && Lookup(sectors, r) == Some(data) && count <= |data|
    ensures FdcSectors(sectors, r, eot, count) == Some(data[..count])
  {
    hide Lookup;
  }

  lemma SectorAt(sectors: seq<Sector>, k: nat, size: nat) returns (data: seq<byte>)
    requires Distinct(sectors) && InRange(sectors, |sectors|) && Full(sectors, size) && k < |sectors| < 256
    ensures Lookup(sectors, k + 1) == Some(data) && |data| == size
    ensures Concat(Sorted(sectors)[k..]) == data + Concat(Sorted(sectors)[k + 1..])
  {
    var s := Sorted(sectors);
    hide Sorted, Lookup;
    SortedCounts(sectors);
    var first := s[k];
    assert first in s && first.num == k + 1;
    LookupFinds(sectors, first);
    data := first.data;
    hide Distinct, InRange, Counted;
    assert s[k..][0] == first && s[k..][1..] == s[k + 1..];
  }

  lemma FdcStep(sectors: seq<Sector>, r: byte, eot: byte, more: nat, data: seq<byte>, rest: seq<byte>)
    requires r <= eot && data != [] && Lookup(sectors, r) == Some(data) && FdcSectors(sectors, r + 1, eot, more) == Some(rest)
    ensures FdcSectors(sectors, r, eot, |data| + more) == Some(data + rest)
  {
    hide Lookup;
    if more == 0 {
      assert data[..|data|] == data && data + [] == data;
    }
  }

  lemma OneMore(n: nat, size: nat)
    requires n > 0
    ensures n * size == size + (n - 1) * size
  {
  }

  /** A side of a boot disk: `n` good sectors of the given density and size. */
  predicate PromSide(t: Track, mfm: bool, code: byte, n: nat) {
    && IsMfm(t) == mfm && t.sizeCode == code && |t.sectors| == n
    && Distinct(t.sectors) && InRange(t.sectors, n) && Full(t.sectors, t.SectorSize())
  }

  /** The first `count` bytes of a good side. */
  lemma SideIsRead(t: Track, mfm: bool, code: byte, n: byte, count: nat)
    requires PromSide(t, mfm, code, n) && count <= n * Size(code)
    ensures |Content(t)| == n * Size(code) && FdcSectors(t.sectors, 1, n, count) == Some(Content(t)[..count])
  {
    hide Sorted, Size, FdcSectors, Concat;
    ReadFrom(t.sectors, 0, Size(code), count);
    assert Sorted(t.sectors)[0..] == Sorted(t.sectors);
  }

  /** A MAXI or MINI boot disk: FM sectors of 128 bytes under head 0, MFM sectors of 256 under head 1. */
  predicate PromDisk(disk: seq<Track>, mini: bool, s0: Track, s1: Track) {
    && (forall i :: 0 <= i < |disk| ==> disk[i].sizeCode < 4)
    && FindTrack(disk, 0, 0) == Some(s0) && FindTrack(disk, 0, 1) == Some(s1)
    && PromSide(s0, false, 0, SectorCount(mini)) && PromSide(s1, true, 1, SectorCount(mini))
  }

  function SectorCount(mini: bool): byte { if mini then 16 else 26 }

  /** What detection sets for a side. */
  function SideGeometry(mini: bool, head: byte): Geometry
    requires head < 2
  {
    Geometry(0, SectorCount(mini), head, true)
  }

  lemma SideSize(mini: bool, head: byte)
    requires head < 2
    ensures Eot(mini, head, head == 1) == SectorCount(mini)
    ensures TrackSize(SideGeometry(mini, head), head, 1) == SectorCount(mini) * Size(head)
    ensures SectorCount(mini) * Size(head) == if head == 0 then (if mini then 2048 else 3328) else if mini then 4096 else 6656
    ensures Usable(SideGeometry(mini, head), head, 1)
  {
    Powers();
    SmallSizes();
    var n := SectorCount(mini);
    assert Eot(mini, head, head == 1) == n && Sectors(SideGeometry(mini, head), head, 1) == n;
    TableUsable(mini, head, head == 1, 0, true, head);
    hide Power2, ShiftLeft, Usable, Size, Sectors, Eot;
    if head == 0 {
      ShiftIs(n, 7);
    } else {
      ShiftIs(n, 8);
    }
  }

  lemma SmallSizes()
    ensures Size(0) == 128 && Size(1) == 256
  {
    assert Power2(0) == 1 && Power2(1) == 2;
  }

  lemma BothSizes(mini: bool)
    ensures SectorCount(mini) * Size(0) <= 3328 && SectorCount(mini) * Size(1) <= 6656
  {
    SideSize(mini, 0);
    SideSize(mini, 1);
  }

  /** One transfer from the beginning of a good side. */
  lemma SideTransfer(disk: seq<Track>, p: Place, g: Geometry, mfm: bool, t: Track, size: word)
    requires FindTrack(disk, p.cyl, p.head) == Some(t) && PromSide(t, mfm, g.n, g.eot) && p.sector == 1
    requires 0 < size <= g.eot * Size(g.n)
    ensures |Content(t)| == g.eot * Size(g.n)
    ensures FdcRead(disk, Transfer(p.cyl, p.head, p.sector, p.address, size), mfm, g.n, g.eot) == Some(Content(t)[..size])
  {
    SideIsRead(t, mfm, g.n, g.eot, size);
    SideFacts(t, mfm, g.n, g.eot);
    hide PromSide, Content, Size, FdcSectors, FindTrack;
  }

  /** One pass of the Track 0 loop reads exactly one side. */
  lemma SideRead(disk: seq<Track>, p: Place, mini: bool, s0: Track, s1: Track)
    requires PromDisk(disk, mini, s0, s1) && p.cyl == 0 && p.head < 2 && p.sector == 1 && |p.mem| == 65536
    requires p.left == SectorCount(mini) * Size(p.head)
    ensures var g, s := SideGeometry(mini, p.head), if p.head == 0 then s0 else s1;
      && CanTry(p.left, p.head, p.sector, g) && |Content(s)| == p.left <= 65536
      && Run(disk, p, g, p.head == 1)
         == Some(Place(Stored(p.mem, p.address, Content(s)), if p.head == 0 then 0 else 1, if p.head == 0 then 1 else 0, 1,
                       (p.address + p.left) % 65536, 0))
  {
    var g, s := SideGeometry(mini, p.head), if p.head == 0 then s0 else s1;
    SideSize(mini, p.head);
    assert FindTrack(disk, p.cyl, p.head) == Some(s) && PromSide(s, p.head == 1, p.head, SectorCount(mini));
    hide PromDisk, PromSide, TrackSize, Content, Size, FdcRead, Usable, Stored, Run;
    SideTransfer(disk, p, g, p.head == 1, s, p.left);
    assert Content(s)[..p.left] == Content(s) && !GoesOn(p, g);
    RunNext(disk, p, g, p.head == 1);
  }

  lemma SideFacts(t: Track, mfm: bool, code: byte, n: nat)
    requires PromSide(t, mfm, code, n)
    ensures IsMfm(t) == mfm && t.sizeCode == code
  {
  }

  lemma FindTrackIsSide(disk: seq<Track>, head: byte)
    ensures FindTrack(disk, 0, head) == FindSide(disk, head)
  {
    if disk != [] {
      FindTrackIsSide(disk[1..], head);
    }
  }

  function Last(ts: seq<Transfer>): Transfer
    requires ts != []
  {
    ts[|ts| - 1]
  }

  lemma CanMeansTry(left: nat, head: byte, sector: byte, g: Geometry)
    ensures Can(left, head, sector, g) ==> CanTry(left, head, sector, g)
  {
    hide TrackSize;
  }

  lemma TriedSize(left: nat, head: byte, sector: byte, g: Geometry)
    requires CanTry(left, head, sector, g)
    ensures TrackSize(g, head, sector) < 32768
  {
    ShiftZero(7 + g.n);
    hide ShiftLeft;
  }

  lemma UsableSize(g: Geometry, head: byte, sector: byte)
    requires Usable(g, head, sector)
    ensures 0 < TrackSize(g, head, sector) < 32768 && Usable(g, NextHead(g, head), 1)
  {
    hide TrackSize;
  }

  lemma LoadedNext(disk: seq<Track>, mem: seq<byte>, ts: seq<Transfer>, mfm: bool, n: byte, eot: byte)
    requires ts != [] && |mem| == 65536
    ensures var data := FdcRead(disk, ts[0], mfm, n, eot);
      Loaded(disk, mem, ts, mfm, n, eot)
      == if data.None? then None
         else Loaded(disk, Stored(mem, ts[0].address, data.value), ts[1..], mfm, n, eot)
  {
    hide FdcRead, Stored;
  }

  lemma StoredTwice(mem: seq<byte>, at: word, a: seq<byte>, b: seq<byte>)
    requires |mem| == 65536 && |a| + |b| <= 65536
    ensures Stored(Stored(mem, at, a), (at + |a|) % 65536, b) == Stored(mem, at, a + b)
  {
    var twice, once := Stored(Stored(mem, at, a), (at + |a|) % 65536, b), Stored(mem, at, a + b);
    forall k: word ensures twice[k] == once[k] {
      if Distance(at, k) >= |a| {
        assert Distance((at + |a|) % 65536, k) == Distance(at, k) - |a|;
      } else {
        assert Distance((at + |a|) % 65536, k) == Distance(at, k) - |a| + 65536;
      }
    }
  }

  lemma StoredInside(mem: seq<byte>, at: word, data: seq<byte>)
    requires |mem| == 65536 && at + |data| <= 65536
    ensures Stored(mem, at, data) == Overlay(mem, at, data)
  {
  }

  lemma LoadedEnd(disk: seq<Track>, mem: seq<byte>, mfm: bool, n: byte, eot: byte)
    requires |mem| == 65536
    ensures Loaded(disk, mem, [], mfm, n, eot) == Some(mem)
  {
  }

  /** The place behind the last transfer. */
  function Behind(loaded: Option<seq<byte>>, last: Transfer, address: word, g: Geometry): Option<Place> {
    match loaded
    case None => None
    case Some(mem) => Some(Place(mem, NextCyl(g, last.cyl, last.head), NextHead(g, last.head), 1, address, 0))
  }

  lemma BehindIs(mem: seq<byte>, last: Transfer, address: word, g: Geometry)
    ensures Behind(None, last, address, g) == None
    ensures Behind(Some(mem), last, address, g)
         == Some(Place(mem, NextCyl(g, last.cyl, last.head), NextHead(g, last.head), 1, address, 0))
  {
  }

  /** A read is its list of transfers, done in order; it ends behind the last of them. */
  lemma {:induction false} RunIsTransfers(disk: seq<Track>, p: Place, g: Geometry, mfm: bool)
    requires |p.mem| == 65536 && Can(p.left, p.head, p.sector, g)
    ensures CanTry(p.left, p.head, p.sector, g)
    ensures var ts, r := Transfers(p.left, p.cyl, p.head, p.sector, p.address, g), Run(disk, p, g, mfm);
      && ts != []
      && r == Behind(Loaded(disk, p.mem, ts, mfm, g.n, g.eot), Last(ts), (p.address + p.left) % 65536, g)
    decreases p.left
  {
    hide *;
    CanMeansTry(p.left, p.head, p.sector, g);
    RunNext(disk, p, g, mfm);
    TransfersNext(p, g);
    var ts := Transfers(p.left, p.cyl, p.head, p.sector, p.address, g);
    LoadedNext(disk, p.mem, ts, mfm, g.n, g.eot);
    OneIs(disk, p, ts[0], g, mfm);
    var next := One(disk, p, g, mfm);
    if next.None? {
      BehindIs([], Last(ts), (p.address + p.left) % 65536, g);
    } else if GoesOn(p, g) {
      RunIsTransfers(disk, next.value, g, mfm);
      assert (next.value.address + next.value.left) % 65536 == (p.address + p.left) % 65536;
    } else {
      LoadedEnd(disk, next.value.mem, mfm, g.n, g.eot);
      BehindIs(next.value.mem, Last(ts), (p.address + p.left) % 65536, g);
    }
  }

  lemma TransfersNext(p: Place, g: Geometry)
    requires Can(p.left, p.head, p.sector, g)
    ensures var ts := Transfers(p.left, p.cyl, p.head, p.sector, p.address, g);
      && ts != [] && ts[0] == Transfer(p.cyl, p.head, p.sector, p.address, NextSize(p, g))
      && (!GoesOn(p, g) ==> ts[1..] == [] && Last(ts) == ts[0])
      && (GoesOn(p, g) ==>
            var size := NextSize(p, g);
            && 0 < size < p.left && Can(p.left - size, NextHead(g, p.head), 1, g)
            && ts[1..] == Transfers(p.left - size, NextCyl(g, p.cyl, p.head), NextHead(g, p.head), 1, (p.address + size) % 65536, g)
            && ts[1..] != [] && Last(ts) == Last(ts[1..]))
  {
    hide NextHead, NextCyl;
    UsableSize(g, p.head, p.sector);
    hide TrackSize, Usable;
    if GoesOn(p, g) {
      var size := TrackSize(g, p.head, p.sector);
      var rest := Transfers(p.left - size, NextCyl(g, p.cyl, p.head), NextHead(g, p.head), 1, (p.address + size) % 65536, g);
      assert rest != [];
    }
  }

  lemma OneIs(disk: seq<Track>, p: Place, t: Transfer, g: Geometry, mfm: bool)
    requires |p.mem| == 65536 && CanTry(p.left, p.head, p.sector, g)
    requires t == Transfer(p.cyl, p.head, p.sector, p.address, NextSize(p, g))
    ensures var data, one := FdcRead(disk, t, mfm, g.n, g.eot), One(disk, p, g, mfm);
      && one.Some? == data.Some?
      && (one.Some? ==> |data.value| <= 65536
                        && one.value == Place(Stored(p.mem, p.address, data.value), NextCyl(g, t.cyl, t.head), NextHead(g, t.head), 1,
                                              (p.address + t.size) % 65536, p.left - t.size))
    ensures !GoesOn(p, g) ==> t.size == p.left
  {
    hide FdcRead, Stored, NextCyl, NextHead, TrackSize;
  }

  // Several sides in a row.

  /** A geometry whose transfers are whole tracks of `eot` sectors. */
  predicate Uniform(g: Geometry) {
    && 0 < g.eot && g.eot * Size(g.n) < 32768
    && (g.diskType < 128 || (!g.doubleSided && 10 * Size(g.n) < 32768))
  }

  /** The next `k` sides from (`cyl`, `head`) on are good and of that geometry. */
  predicate SidesGood(disk: seq<Track>, g: Geometry, mfm: bool, cyl: byte, head: byte, k: nat)
    decreases k
  {
    k == 0
    || (FindTrack(disk, cyl, head).Some? && PromSide(FindTrack(disk, cyl, head).value, mfm, g.n, g.eot)
        && SidesGood(disk, g, mfm, NextCyl(g, cyl, head), NextHead(g, head), k - 1))
  }

  /** What they hold, one after another, each in sector order. */
  function SidesContent(disk: seq<Track>, g: Geometry, cyl: byte, head: byte, k: nat): seq<byte>
    decreases k
  {
    if k == 0 || FindTrack(disk, cyl, head).None? then []
    else Content(FindTrack(disk, cyl, head).value) + SidesContent(disk, g, NextCyl(g, cyl, head), NextHead(g, head), k - 1)
  }

  lemma UniformSize(g: Geometry, head: byte)
    requires Uniform(g) && head <= (if g.doubleSided then 1 else 0)
    ensures TrackSize(g, head, 1) == g.eot * Size(g.n) < 32768 && Usable(g, head, 1)
  {
    hide Power2, ShiftLeft, Size;
    Shifted(g.eot, g.n);
    if g.diskType >= 128 {
      Shifted(10, g.n);
    }
  }

  /** A small number of sectors in bytes. */
  lemma Shifted(sectors: byte, n: byte)
    requires 0 < sectors && sectors * Size(n) < 32768
    ensures ShiftLeft(sectors, 7 + n) == sectors * Size(n) > 0
  {
    PowerSum(n);
    assert sectors * Power2(7 + n) == sectors * Size(n);
    hide Power2, ShiftLeft, Size;
    ShiftIs(sectors, 7 + n);
    Positive(sectors, n);
  }

  lemma Positive(eot: nat, n: byte)
    requires eot > 0
    ensures eot * Size(n) > 0
  {
  }

  lemma {:induction false} PowerSum(n: nat)
    ensures Power2(7 + n) == 128 * Power2(n)
  {
    if n == 0 {
      Powers();
    } else {
      PowerSum(n - 1);
    }
  }

  /** What is known of the first of the sides, and of the others. */
  lemma NextSides(disk: seq<Track>, p: Place, g: Geometry, mfm: bool, k: nat)
    requires SidesGood(disk, g, mfm, p.cyl, p.head, k) && 0 < |SidesContent(disk, g, p.cyl, p.head, k)|
    ensures k > 0 && FindTrack(disk, p.cyl, p.head).Some?
    ensures var t, cyl', head' := FindTrack(disk, p.cyl, p.head).value, NextCyl(g, p.cyl, p.head), NextHead(g, p.head);
      && PromSide(t, mfm, g.n, g.eot) && |Content(t)| == g.eot * Size(g.n)
      && SidesGood(disk, g, mfm, cyl', head', k - 1)
      && SidesContent(disk, g, p.cyl, p.head, k) == Content(t) + SidesContent(disk, g, cyl', head', k - 1)
  {
    hide PromSide, Content, Size, FindTrack, FdcSectors;
    SideIsRead(FindTrack(disk, p.cyl, p.head).value, mfm, g.n, g.eot, 0);
  }

  /** The size of the next transfer. */
  lemma Planned(p: Place, g: Geometry)
    requires Can(p.left, p.head, p.sector, g) && p.left > 0 && p.sector == 1
    ensures 0 < NextSize(p, g) <= TrackSize(g, p.head, 1) && NextSize(p, g) <= p.left
    ensures NextSize(p, g) == if GoesOn(p, g) then TrackSize(g, p.head, 1) else p.left
    ensures NextHead(g, p.head) <= (if g.doubleSided then 1 else 0)
  {
    hide TrackSize;
  }

  /** A read of at most `k` good sides, from the start of one. */
  predicate CanSides(disk: seq<Track>, p: Place, g: Geometry, mfm: bool, k: nat) {
    && |p.mem| == 65536 && Uniform(g) && p.sector == 1 && p.head <= (if g.doubleSided then 1 else 0)
    && SidesGood(disk, g, mfm, p.cyl, p.head, k)
    && 0 < p.left <= |SidesContent(disk, g, p.cyl, p.head, k)| && p.left < 32768
  }

  /** `end` is where such a read ends. */
  predicate SidesDone(p: Place, content: seq<byte>, end: Place) {
    && |p.mem| == 65536 && p.left <= |content| && p.left <= 65536
    && end.mem == Stored(p.mem, p.address, content[..p.left])
    && end.address == (p.address + p.left) % 65536 && end.left == 0
  }

  /** The first transfer of such a read, and what remains of it. */
  lemma FirstSide(disk: seq<Track>, p: Place, g: Geometry, mfm: bool, k: nat) returns (next: Place, side: seq<byte>)
    requires CanSides(disk, p, g, mfm, k)
    ensures k > 0 && |p.mem| == |next.mem| == 65536 && CanTry(p.left, p.head, p.sector, g)
    ensures GoesOn(p, g) ==> CanTry(next.left, next.head, next.sector, g) && CanSides(disk, next, g, mfm, k - 1)
    ensures GoesOn(p, g) ==> Run(disk, p, g, mfm) == Run(disk, next, g, mfm)
    ensures !GoesOn(p, g) ==> Run(disk, p, g, mfm) == Some(next)
    ensures 0 < |side| <= p.left <= 32767 && next.mem == Stored(p.mem, p.address, side)
    ensures next.address == (p.address + |side|) % 65536 && next.left == p.left - |side| && (!GoesOn(p, g) ==> next.left == 0)
    ensures var rest := SidesContent(disk, g, next.cyl, next.head, k - 1); var all := SidesContent(disk, g, p.cyl, p.head, k);
      if GoesOn(p, g) then all == side + rest else |side| <= |all| && all[..|side|] == side
  {
    UniformSize(g, p.head);
    NextSides(disk, p, g, mfm, k);
    var t := FindTrack(disk, p.cyl, p.head).value;
    var rest := SidesContent(disk, g, NextCyl(g, p.cyl, p.head), NextHead(g, p.head), k - 1);
    hide TrackSize, Size, Stored, Run, One, FdcRead, PromSide, Content, Usable, NextCyl, SidesGood, SidesContent;
    Planned(p, g);
    hide NextHead;
    RunNext(disk, p, g, mfm);
    var now := NextSize(p, g);
    SideTransfer(disk, p, g, mfm, t, now);
    OneIs(disk, p, Transfer(p.cyl, p.head, p.sector, p.address, now), g, mfm);
    next := One(disk, p, g, mfm).value;
    side := Content(t)[..now];
    if GoesOn(p, g) {
      assert side == Content(t);
    } else {
      assert (Content(t) + rest)[..now] == side;
    }
  }

  /** A read from the start of a side puts the content of side after side into memory, as much of it as was
      asked for, however many sides that takes. */
  lemma {:induction false} SidesRead(disk: seq<Track>, p: Place, g: Geometry, mfm: bool, k: nat)
    requires CanSides(disk, p, g, mfm, k)
    ensures |p.mem| == 65536 && CanTry(p.left, p.head, p.sector, g) && Run(disk, p, g, mfm).Some?
    ensures SidesDone(p, SidesContent(disk, g, p.cyl, p.head, k), Run(disk, p, g, mfm).value)
    decreases k
  {
    hide *;
    var next, side := FirstSide(disk, p, g, mfm, k);
    var all := SidesContent(disk, g, p.cyl, p.head, k);
    if GoesOn(p, g) {
      SidesRead(disk, next, g, mfm, k - 1);
      MoreSides(p, side, SidesContent(disk, g, next.cyl, next.head, k - 1), next, Run(disk, next, g, mfm).value);
    } else {
      LastSide(p, side, all, next);
    }
  }

  // Reads of whatever diskette is found.

  /** How many sectors fit a track: on FM tracks by their size, and on an MFM track as many as there are on an
      FM track of half the sector size. */
  function SectorsPerTrack(mini: bool, code: byte, mfm: bool): byte {
    var fm: seq<byte> := if mini then [16, 9, 5] else [26, 15, 8];
    if !mfm then (if code < 3 then fm[code] else 0)
    else if code == 0 then 2 * fm[0] else if code < 4 then fm[code - 1] else 0
  }

  /** That is what the table says, and for the diskettes in use it is the number their formats have. */
  lemma TableCounts(mini: bool, code: byte, mfm: bool)
    requires code < 4
    ensures Eot(mini, code, mfm) == SectorsPerTrack(mini, code, mfm)
    ensures Eot(false, 0, false) as int == DiskFormat.MAXI_128.eot && Eot(false, 2, true) as int == DiskFormat.MAXI_512.eot
    ensures Eot(false, 1, true) as int == DiskFormat.MAXI_256.eot
  {
  }

  lemma TableUniform(mini: bool, code: byte, mfm: bool)
    requires code < 4
    ensures Eot(mini, code, mfm) * Size(code) < 32768 && 10 * Size(code) < 32768
  {
    Powers();
    SmallSizes();
    assert Size(2) == 512 && Size(3) == 1024;
    hide Power2, Size;
  }

  /** A geometry that only says in which order the sides follow each other. */
  function Turns(doubleSided: bool): Geometry { Geometry(0, 0, 0, doubleSided) }

  /** The next `k` sides are good, with as many sectors as the first of them has, which is what its kind of
      diskette holds; `total` bytes of them are wanted. */
  ghost predicate Wanted(disk: seq<Track>, cyl: byte, head: byte, sector: byte, mini: bool, doubleSided: bool, total: nat, k: nat) {
    && (forall i :: 0 <= i < |disk| ==> disk[i].sizeCode < 4)
    && sector == 1 && head <= (if doubleSided then 1 else 0)
    && 0 < total < 32768 && total <= |SidesContent(disk, Turns(doubleSided), cyl, head, k)|
    && FindTrack(disk, cyl, head).Some?
    && var t := FindTrack(disk, cyl, head).value;
       && |t.sectors| == SectorsPerTrack(mini, t.sizeCode, IsMfm(t)) > 0
       && SidesGood(disk, Geometry(0, |t.sectors|, t.sizeCode, doubleSided), IsMfm(t), cyl, head, k)
  }

  /** What detection and the read come to on such a diskette. */
  lemma CountedSides(disk: seq<Track>, p: Place, mini: bool, diskType: byte, doubleSided: bool, k: nat)
    requires |p.mem| == 65536 && (diskType < 128 || !doubleSided)
    requires Wanted(disk, p.cyl, p.head, p.sector, mini, doubleSided, p.left, k)
    ensures FindTrack(disk, p.cyl, p.head).Some?
    ensures var t := FindTrack(disk, p.cyl, p.head).value;
      && t.sizeCode < 4
      && var g := Geometry(diskType, Eot(mini, t.sizeCode, IsMfm(t)), t.sizeCode, doubleSided);
         var all := SidesContent(disk, Turns(doubleSided), p.cyl, p.head, k);
         && CanTry(p.left, p.head, p.sector, g) && Run(disk, p, g, IsMfm(t)).Some? && p.left <= |all|
         && Run(disk, p, g, IsMfm(t)).value.mem == Stored(p.mem, p.address, all[..p.left])
         && Run(disk, p, g, IsMfm(t)).value.address == (p.address + p.left) % 65536
  {
    var t, g := CountedGeometry(disk, p, mini, diskType, doubleSided, k);
    hide *;
    SidesRead(disk, p, g, IsMfm(t), k);
    DoneIs(p, SidesContent(disk, g, p.cyl, p.head, k), Run(disk, p, g, IsMfm(t)).value);
  }

  lemma DoneIs(p: Place, content: seq<byte>, end: Place)
    requires SidesDone(p, content, end)
    ensures |p.mem| == 65536 && p.left <= |content| && p.left <= 65536
    ensures end.mem == Stored(p.mem, p.address, content[..p.left]) && end.address == (p.address + p.left) % 65536
  {
  }

  lemma CountedGeometry(disk: seq<Track>, p: Place, mini: bool, diskType: byte, doubleSided: bool, k: nat) returns (t: Track, g: Geometry)
    requires |p.mem| == 65536 && (diskType < 128 || !doubleSided)
    requires Wanted(disk, p.cyl, p.head, p.sector, mini, doubleSided, p.left, k)
    ensures FindTrack(disk, p.cyl, p.head) == Some(t) && t.sizeCode < 4
    ensures g == Geometry(diskType, Eot(mini, t.sizeCode, IsMfm(t)), t.sizeCode, doubleSided) && CanSides(disk, p, g, IsMfm(t), k)
    ensures SidesContent(disk, g, p.cyl, p.head, k) == SidesContent(disk, Turns(doubleSided), p.cyl, p.head, k)
  {
    t := FindTrack(disk, p.cyl, p.head).value;
    FoundIn(disk, p.cyl, p.head);
    TableCounts(mini, t.sizeCode, IsMfm(t));
    TableUniform(mini, t.sizeCode, IsMfm(t));
    g := Geometry(diskType, Eot(mini, t.sizeCode, IsMfm(t)), t.sizeCode, doubleSided);
    hide Eot, SectorsPerTrack, Size, SidesGood, SidesContent, FindTrack;
    SameTurns(disk, g, Turns(doubleSided), p.cyl, p.head, k);
    SameSides(disk, |t.sectors|, t.sizeCode, IsMfm(t), 0, diskType, doubleSided, p.cyl, p.head, k);
  }

  /** The order of the sides depends on how many there are only. */
  lemma {:induction false} SameTurns(disk: seq<Track>, g: Geometry, g': Geometry, cyl: byte, head: byte, k: nat)
    requires g.doubleSided == g'.doubleSided
    ensures SidesContent(disk, g, cyl, head, k) == SidesContent(disk, g', cyl, head, k)
    decreases k
  {
    hide Content, FindTrack;
    if k > 0 {
      SameTurns(disk, g, g', NextCyl(g, cyl, head), NextHead(g, head), k - 1);
    }
  }

  lemma {:induction false} SameSides(disk: seq<Track>, n: nat, code: byte, mfm: bool, a: byte, b: byte, doubleSided: bool,
                                     cyl: byte, head: byte, k: nat)
    requires n < 256
    ensures SidesGood(disk, Geometry(a, n, code, doubleSided), mfm, cyl, head, k)
         == SidesGood(disk, Geometry(b, n, code, doubleSided), mfm, cyl, head, k)
    decreases k
  {
    hide PromSide, FindTrack;
    if k > 0 {
      var g := Geometry(a, n, code, doubleSided);
      SameSides(disk, n, code, mfm, a, b, doubleSided, NextCyl(g, cyl, head), NextHead(g, head), k - 1);
    }
  }

  /** What the legacy boot's read comes to. */
  lemma LegacyRun(disk: seq<Track>, p: Place, mini: bool, doubleSided: bool, k: nat)
    requires |p.mem| == 65536 && p.head == 0 && p.sector == 1 && p.address == 0 && 0 < p.left < 32768
    requires FindTrack(disk, p.cyl, 0).Some? && forall i :: 0 <= i < |disk| ==> disk[i].sizeCode < 4
    ensures var t := FindTrack(disk, p.cyl, 0).value;
      && t.sizeCode < 4
      && var g, all := LegacyShape(mini, t, doubleSided), SidesContent(disk, Turns(doubleSided), p.cyl, 0, k);
         && CanTry(p.left, p.head, p.sector, g)
         && (Wanted(disk, p.cyl, 0, 1, mini, doubleSided, p.left, k) && !(mini && doubleSided) ==>
               Run(disk, p, g, IsMfm(t)).Some? && p.left <= |all|
               && Run(disk, p, g, IsMfm(t)).value.mem == Overlay(p.mem, 0, all[..p.left]))
         && (mini && doubleSided && PromSide(t, true, 2, 9) && FindTrack(disk, p.cyl, 1).Some?
             && PromSide(FindTrack(disk, p.cyl, 1).value, true, 2, 9) ==>
               (Run(disk, p, g, IsMfm(t)).Some? <==> p.left <= 9216))
  {
    var t := FindTrack(disk, p.cyl, 0).value;
    FoundIn(disk, p.cyl, 0);
    LegacyCan(mini, t, doubleSided, p.left);
    var g := LegacyShape(mini, t, doubleSided);
    if Wanted(disk, p.cyl, 0, 1, mini, doubleSided, p.left, k) && !(mini && doubleSided) {
      hide *;
      CountedSides(disk, p, mini, if mini then 128 else 0, doubleSided, k);
      ShapeIs(mini, t, doubleSided);
      StoredInside(p.mem, 0, SidesContent(disk, Turns(doubleSided), p.cyl, 0, k)[..p.left]);
    }
    if mini && doubleSided && PromSide(t, true, 2, 9) && FindTrack(disk, p.cyl, 1).Some?
       && PromSide(FindTrack(disk, p.cyl, 1).value, true, 2, 9) {
      MiniShape(t);
      hide *;
      TenSectors(disk, p, g, true, t, FindTrack(disk, p.cyl, 1).value);
    }
  }

  /** The geometry it reads with. */
  function LegacyShape(mini: bool, t: Track, doubleSided: bool): Geometry
    requires t.sizeCode < 4
  {
    Geometry(if mini then 128 else 0, Eot(mini, t.sizeCode, IsMfm(t)), t.sizeCode, doubleSided)
  }

  lemma ShapeIs(mini: bool, t: Track, doubleSided: bool)
    requires t.sizeCode < 4
    ensures LegacyShape(mini, t, doubleSided)
         == Geometry(if mini then 128 else 0, Eot(mini, t.sizeCode, IsMfm(t)), t.sizeCode, doubleSided)
  {
  }

  lemma MiniShape(t: Track)
    requires PromSide(t, true, 2, 9)
    ensures IsMfm(t) && t.sizeCode == 2 && LegacyShape(true, t, true) == Geometry(128, 9, 2, true)
    ensures Size(2) == 512
  {
    SmallSizes();
  }

  lemma LegacyCan(mini: bool, t: Track, doubleSided: bool, left: nat)
    requires t.sizeCode < 4 && left < 32768
    ensures CanTry(left, 0, 1, LegacyShape(mini, t, doubleSided))
  {
    var g := LegacyShape(mini, t, doubleSided);
    if g.eot > 0 {
      TableUsable(mini, t.sizeCode, IsMfm(t), g.diskType, doubleSided, 0);
    }
  }

  /** Under head 1 of such a disk type ten sectors are asked for: with nine a read from head 0 on succeeds
      exactly if it ends within the two sides. */
  lemma TenSectors(disk: seq<Track>, p: Place, g: Geometry, mfm: bool, s0: Track, s1: Track)
    requires |p.mem| == 65536 && g == Geometry(128, 9, 2, true) && Size(2) == 512
    requires p.head == 0 && p.sector == 1 && 0 < p.left < 32768 && CanTry(p.left, p.head, p.sector, g)
    requires FindTrack(disk, p.cyl, 0) == Some(s0) && PromSide(s0, mfm, 2, 9)
    requires FindTrack(disk, p.cyl, 1) == Some(s1) && PromSide(s1, mfm, 2, 9)
    ensures Run(disk, p, g, mfm).Some? <==> p.left <= 9216
  {
    TenSizes(g);
    hide TrackSize, Size, Stored, Run, FdcRead, PromSide, Content, FindTrack;
    RunNext(disk, p, g, mfm);
    var size := NextSize(p, g);
    SideTransfer(disk, p, g, mfm, s0, size);
    OneIs(disk, p, Transfer(p.cyl, 0, 1, p.address, size), g, mfm);
    if p.left > 4608 {
      var next := One(disk, p, g, mfm).value;
      RunNext(disk, next, g, mfm);
      var more := NextSize(next, g);
      OneIs(disk, next, Transfer(p.cyl, 1, 1, next.address, more), g, mfm);
      if more <= 4608 {
        SideTransfer(disk, next, g, mfm, s1, more);
      } else {
        TooMany(disk, Transfer(p.cyl, 1, 1, next.address, more), mfm, 2, 9, s1);
      }
    }
  }

  lemma TenSizes(g: Geometry)
    requires g == Geometry(128, 9, 2, true) && Size(2) == 512
    ensures TrackSize(g, 0, 1) == 4608 && TrackSize(g, 1, 1) == 5120
  {
    hide Size, ShiftLeft, Power2;
    assert Sectors(g, 0, 1) == 9 && Sectors(g, 1, 1) == 10;
    hide Sectors;
    Shifted(9, 2);
    Shifted(10, 2);
  }

  /** A transfer of more than a side holds fails. */
  lemma TooMany(disk: seq<Track>, t: Transfer, mfm: bool, code: byte, n: byte, s: Track)
    requires FindTrack(disk, t.cyl, t.head) == Some(s) && PromSide(s, mfm, code, n) && t.sector == 1
    requires t.size > n * Size(code)
    ensures FdcRead(disk, t, mfm, code, n) == None
  {
    hide Size, FdcSectors;
    PastTheEnd(s.sectors, 0, Size(code), t.size);
  }

  lemma {:induction false} PastTheEnd(sectors: seq<Sector>, k: nat, size: nat, count: nat)
    requires Distinct(sectors) && InRange(sectors, |sectors|) && Full(sectors, size) && size > 0
    requires k <= |sectors| < 256 && count > (|sectors| - k) * size
    ensures FdcSectors(sectors, k + 1, |sectors|, count) == None
    decreases |sectors| - k
  {
    var n := |sectors|;
    if k < n {
      var first := SectorAt(sectors, k, size);
      OneMore(n - k, size);
      hide Distinct, InRange, Full, Lookup;
      Within(n - k - 1, size);
      PastTheEnd(sectors, k + 1, size, count - size);
    }
  }

  lemma Within(n: nat, size: nat)
    ensures n * size >= 0
  {
  }

  lemma MoreSides(p: Place, side: seq<byte>, rest: seq<byte>, next: Place, end: Place)
    requires |p.mem| == 65536 && |side| <= p.left < 32768 && SidesDone(next, rest, end)
    requires next.mem == Stored(p.mem, p.address, side)
    requires next.address == (p.address + |side|) % 65536 && next.left == p.left - |side|
    ensures SidesDone(p, side + rest, end)
  {
    StoredTwice(p.mem, p.address, side, rest[..next.left]);
    assert (side + rest)[..p.left] == side + rest[..next.left];
    hide Stored;
  }

  lemma LastSide(p: Place, side: seq<byte>, all: seq<byte>, end: Place)
    requires |p.mem| == 65536 && |side| == p.left <= |all| && p.left < 32768 && all[..p.left] == side
    requires end.mem == Stored(p.mem, p.address, side) && end.address == (p.address + p.left) % 65536 && end.left == 0
    ensures SidesDone(p, all, end)
  {
    hide Stored;
  }

  // What the list of transfers looks like.

  function Total(ts: seq<Transfer>): nat {
    if ts == [] then 0 else ts[0].size + Total(ts[1..])
  }

  /** The number of the side a transfer is on, counted from the start of the disk; the cylinder is a byte. */
  function SideOf(g: Geometry, cyl: byte, head: byte): nat {
    if g.doubleSided then 2 * cyl + head else cyl
  }

  function SideAfter(g: Geometry, side: nat): nat { (side + 1) % (if g.doubleSided then 512 else 256) }

  /** `t` took the whole of its track, and `u` goes on behind it: in memory, and on the next side. */
  predicate Follows(t: Transfer, u: Transfer, g: Geometry) {
    && t.size == TrackSize(g, t.head, t.sector)
    && u.address == (t.address + t.size) % 65536
    && u.sector == 1 && u.head <= (if g.doubleSided then 1 else 0)
    && SideOf(g, u.cyl, u.head) == SideAfter(g, SideOf(g, t.cyl, t.head))
  }

  predicate SideAfterSide(ts: seq<Transfer>, g: Geometry) { forall i :: 0 < i < |ts| ==> Follows(ts[i - 1], ts[i], g) }

  /** The transfers of a read move exactly the requested bytes into consecutive memory, side after side
      in order; every one but the last takes a whole track, and after the first each starts at sector 1.
      Addresses and cylinders wrap round. */
  lemma {:induction false} MultiTrack(left: nat, cyl: byte, head: byte, sector: byte, address: word, g: Geometry)
    requires Can(left, head, sector, g)
    ensures var ts := Transfers(left, cyl, head, sector, address, g);
      && ts != [] && Total(ts) == left
      && ts[0].cyl == cyl && ts[0].head == head && ts[0].sector == sector && ts[0].address == address
      && SideAfterSide(ts, g)
      && Last(ts).size <= TrackSize(g, Last(ts).head, Last(ts).sector)
    decreases left
  {
    hide *;
    var p := Place([], cyl, head, sector, address, left);
    TransfersNext(p, g);
    var ts := Transfers(left, cyl, head, sector, address, g);
    if !GoesOn(p, g) {
      OneTransfer(ts, p, g);
    } else {
      var size := NextSize(p, g);
      var cyl', head' := NextCyl(g, cyl, head), NextHead(g, head);
      var rest := Transfers(left - size, cyl', head', 1, (address + size) % 65536, g);
      NextSide(p, g);
      MultiTrack(left - size, cyl', head', 1, (address + size) % 65536, g);
      MoreTransfers(ts, rest, p, g);
    }
  }

  lemma OneTransfer(ts: seq<Transfer>, p: Place, g: Geometry)
    requires ts != [] && ts[1..] == [] && Last(ts) == ts[0] && !GoesOn(p, g)
    requires ts[0].size == NextSize(p, g) && ts[0].head == p.head && ts[0].sector == p.sector
    ensures Total(ts) == p.left && SideAfterSide(ts, g) && Last(ts).size <= TrackSize(g, Last(ts).head, Last(ts).sector)
  {
    hide TrackSize;
  }

  lemma NextSide(p: Place, g: Geometry)
    requires Can(p.left, p.head, p.sector, g)
    ensures NextHead(g, p.head) <= (if g.doubleSided then 1 else 0)
    ensures SideOf(g, NextCyl(g, p.cyl, p.head), NextHead(g, p.head)) == SideAfter(g, SideOf(g, p.cyl, p.head))
  {
    hide TrackSize;
  }

  lemma MoreTransfers(ts: seq<Transfer>, rest: seq<Transfer>, p: Place, g: Geometry)
    requires ts != [] && rest != [] && ts[1..] == rest && GoesOn(p, g) && NextSize(p, g) <= p.left
    requires ts[0].cyl == p.cyl && ts[0].head == p.head && ts[0].sector == p.sector
    requires ts[0].address == p.address && ts[0].size == NextSize(p, g)
    requires SideAfterSide(rest, g) && Total(rest) == p.left - NextSize(p, g)
    requires rest[0].address == (p.address + NextSize(p, g)) % 65536 && rest[0].sector == 1
    requires rest[0].head <= (if g.doubleSided then 1 else 0)
    requires SideOf(g, rest[0].cyl, rest[0].head) == SideAfter(g, SideOf(g, p.cyl, p.head))
    ensures SideAfterSide(ts, g) && Total(ts) == p.left
  {
    hide TrackSize, SideOf, SideAfter;
    assert Follows(ts[0], rest[0], g);
    hide Follows;
    forall i | 0 < i < |ts| ensures Follows(ts[i - 1], ts[i], g) {
      if i > 1 {
        assert Follows(rest[i - 2], rest[i - 1], g);
      }
    }
  }

  lemma {:induction false} FoundIn(disk: seq<Track>, cyl: byte, head: byte)
    ensures var t := FindTrack(disk, cyl, head);
      t.Some? ==> t.value in disk && t.value.cyl == cyl && t.value.Head() == head
  {
    if disk != [] && !(disk[0].cyl == cyl && disk[0].Head() == head) {
      FoundIn(disk[1..], cyl, head);
    }
  }

  /** Every geometry of the table with sectors in it is usable, whatever the disk type: the signed
      16-bit subtraction is never misled by a track size. */
  lemma TableUsable(mini: bool, n: byte, mfm: bool, diskType: byte, doubleSided: bool, head: byte)
    requires n < 4 && Eot(mini, n, mfm) > 0 && head <= (if doubleSided then 1 else 0)
    ensures Usable(Geometry(diskType, Eot(mini, n, mfm), n, doubleSided), head, 1)
  {
    var g := Geometry(diskType, Eot(mini, n, mfm), n, doubleSided);
    TableSize(g, 0);
    TableSize(g, 1);
    TableSize(g, head);
  }

  lemma {:induction false} ShiftIs(x: nat, n: nat)
    requires x * Power2(n) < 65536
    ensures x < 65536 && ShiftLeft(x, n) == x * Power2(n)
    decreases n
  {
    if n == 0 {
      assert x * Power2(n) == x;
    } else {
      var p := Power2(n - 1);
      Twice(x, p);
      assert Power2(n) == 2 * p;
      Doubles(x * 2, p);
      assert ShiftLeft(x, n) == ShiftLeft(x * 2 % 65536, n - 1);
      hide Power2, ShiftLeft;
      ShiftIs(x * 2, n - 1);
    }
  }

  lemma Twice(x: nat, p: nat)
    ensures x * (2 * p) == (x * 2) * p
  {
  }

  lemma Doubles(x: nat, p: nat)
    requires p > 0 && x * p < 65536
    ensures x < 65536
  {
    assert x * p == x + x * (p - 1);
  }

  lemma TableSize(g: Geometry, head: byte)
    requires 0 < g.eot <= 52 && g.n < 4 && (g.n == 1 ==> g.eot <= 26) && (g.n == 2 ==> g.eot <= 15) && (g.n == 3 ==> g.eot <= 8)
    ensures 0 < TrackSize(g, head, 1) < 32768
  {
    TableSectors(g, head);
    hide Sectors, Power2, ShiftLeft;
    FewShifted(Sectors(g, head, 1), g.n);
  }

  lemma TableSectors(g: Geometry, head: byte)
    requires 0 < g.eot <= 52 && (g.n == 1 ==> g.eot <= 26) && (g.n == 2 ==> g.eot <= 15) && (g.n == 3 ==> g.eot <= 8)
    ensures var s := Sectors(g, head, 1); 0 < s <= 52 && (g.n == 1 ==> s <= 26) && (g.n == 2 ==> s <= 15) && (g.n == 3 ==> s <= 10)
  {
  }

  lemma FewShifted(s: nat, n: nat)
    requires 0 < s <= 52 && n < 4 && (n == 1 ==> s <= 26) && (n == 2 ==> s <= 15) && (n == 3 ==> s <= 10)
    ensures 0 < ShiftLeft(s, 7 + n) < 32768
  {
    Powers();
    hide Power2, ShiftLeft;
    ShiftIs(s, 7 + n);
  }

  lemma Powers()
    ensures Power2(7) == 128 && Power2(8) == 256 && Power2(9) == 512 && Power2(10) == 1024
  {
    assert Power2(3) == 8 && Power2(5) == 4 * Power2(3) && Power2(7) == 4 * Power2(5) && Power2(9) == 4 * Power2(7);
  }

  /** Something can be read from sector 1 of some disk. */
  ghost predicate Readable(g: Geometry, head: byte, mfm: bool) {
    CanTry(1, head, 1, g)
    && exists disk, mem: seq<byte>, left: nat :: Reads(disk, mem, left, g, head, mfm)
  }

  ghost predicate Reads(disk: seq<Track>, mem: seq<byte>, left: nat, g: Geometry, head: byte, mfm: bool) {
    |mem| == 65536 && CanTry(left, head, 1, g) && Run(disk, Place(mem, 0, head, 1, 0, left), g, mfm).Some?
  }

  /** A track type of the table can be read if and only if the table gives it sectors; the FM types of 1024
      bytes per sector have none. (Where the ten-sector rule applies the table is not asked.) */
  lemma ReadableIffSectors(mini: bool, n: byte, mfm: bool, diskType: byte, doubleSided: bool, head: byte)
    requires n < 4 && head <= (if doubleSided then 1 else 0) && (diskType < 128 || head != 1)
    ensures Readable(Geometry(diskType, Eot(mini, n, mfm), n, doubleSided), head, mfm) <==> Eot(mini, n, mfm) > 0
    ensures Eot(mini, n, mfm) > 0 <==> mfm || n != 3
  {
    var g := Geometry(diskType, Eot(mini, n, mfm), n, doubleSided);
    if g.eot > 0 {
      TableUsable(mini, n, mfm, diskType, doubleSided, head);
      var mem := seq(65536, _ => 0);
      var disk := OneSectorDisk(mem, g, head, mfm);
      assert Reads(disk, mem, 1, g, head, mfm);
    } else {
      forall disk, mem: seq<byte>, left: nat | |mem| == 65536 && CanTry(left, head, 1, g)
        ensures !Reads(disk, mem, left, g, head, mfm) {
        NoSectorNoRead(disk, Place(mem, 0, head, 1, 0, left), g, mfm);
      }
    }
  }

  lemma OneSectorDisk(mem: seq<byte>, g: Geometry, head: byte, mfm: bool) returns (disk: seq<Track>)
    requires |mem| == 65536 && Usable(g, head, 1) && g.eot > 0 && head < 64
    ensures CanTry(1, head, 1, g) && Run(disk, Place(mem, 0, head, 1, 0, 1), g, mfm).Some?
  {
    var data := seq(Size(g.n), _ => 0);
    var t := Track(if mfm then 3 else 0, 0, head, g.n, [1], [Sector(1, data)], 0, 0);
    disk := [t];
    var p := Place(mem, 0, head, 1, 0, 1);
    hide Size, TrackSize, Stored;
    assert FdcSectors(t.sectors, 1, g.eot, 1) == Some(data[..1]) by {
      assert Lookup(t.sectors, 1) == Some(data);
    }
    assert FdcRead(disk, Transfer(0, head, 1, 0, 1), mfm, g.n, g.eot).Some?;
    hide FdcRead;
    assert !GoesOn(p, g);
    RunNext(disk, p, g, mfm);
  }

  lemma {:induction false} ShiftZero(n: nat)
    ensures ShiftLeft(0, n) == 0
  {
    if n > 0 {
      ShiftZero(n - 1);
    }
  }

  /** A patched boot image is still a boot disk, and its Track 0 is the BIOS over the old one. */
  lemma PatchedDisk(image: seq<byte>, cim: seq<byte>, header: seq<byte>, tracks: seq<Track>, s0: Track, s1: Track, mini: bool)
    returns (out: seq<byte>, disk: seq<Track>, t0: Track, t1: Track)
    requires BootImage(image, header, tracks, s0, s1) && PromDisk(tracks, mini, s0, s1)
    requires |cim| <= Capacity(Some(s0)) + Capacity(Some(s1))
    ensures PatchedImage(image, cim) == Success(out) && Parsed(out) == Success((header, disk))
    ensures PromDisk(disk, mini, t0, t1)
    ensures Content(t0) + Content(t1) == Over(cim, Content(s0) + Content(s1))
  {
    hide ReadTrack, ReadTracks, GoodSide, Content, Over, PatchedImage, Parsed, PromSide, Capacity;
    out, disk := PatchCorrect(image, cim, header, tracks, s0, s1);
    t0, t1 := FindSide(disk, 0).value, FindSide(disk, 1).value;
    ParsedTracks(image, header, tracks);
    ParsedTracks(out, header, disk);
    SameSide(image, tracks, out, disk, 0);
    SameSide(image, tracks, out, disk, 1);
    PatchedSide(image, s0, out, t0, false, 0, SectorCount(mini));
    PatchedSide(image, s1, out, t1, true, 1, SectorCount(mini));
    FindTrackIsSide(disk, 0);
    FindTrackIsSide(disk, 1);
    forall i | 0 <= i < |disk| ensures disk[i].sizeCode < 4 {
      assert SameTrack(image, tracks[i], out, disk[i]);
    }
  }

  /** The side found in the patched image is the one found before. */
  lemma {:induction false} SameSide(image: seq<byte>, tracks: seq<Track>, out: seq<byte>, disk: seq<Track>, head: byte)
    requires SameTracks(image, tracks, out, disk) && FindSide(tracks, head).Some?
    ensures FindSide(disk, head).Some? && SameTrack(image, FindSide(tracks, head).value, out, FindSide(disk, head).value)
    ensures FindSide(disk, head).value in disk && FindSide(tracks, head).value in tracks
    decreases |tracks|
  {
    assert SameTrack(image, tracks[0], out, disk[0]);
    if !IsSide(tracks[0], head) {
      assert SameTracks(image, tracks[1..], out, disk[1..]) by {
        hide SameTrack;
        forall i | 0 <= i < |tracks| - 1 ensures SameTrack(image, tracks[1..][i], out, disk[1..][i]) {
          assert SameTrack(image, tracks[i + 1], out, disk[i + 1]);
        }
      }
      SameSide(image, tracks[1..], out, disk[1..], head);
    }
  }

  lemma PatchedSide(image: seq<byte>, s: Track, out: seq<byte>, t: Track, mfm: bool, code: byte, n: nat)
    requires ReadTrack(image, s.start) == Success(s) && s.end <= |image| && GoodSide(s) && PromSide(s, mfm, code, n)
    requires ReadTrack(out, t.start) == Success(t) && GoodSide(t) && SameTrack(image, s, out, t)
    ensures PromSide(t, mfm, code, n)
  {
    PatchBios.SideSectors(image, s);
    PatchBios.SideSectors(out, t);
  }

  /** The whole way: patch a BIOS onto a boot image, parse the result and boot from it. Memory from address 0
      on then holds the BIOS followed by the old Track 0 behind it, and is otherwise as it was. */
  method PatchAndBoot(image: seq<byte>, cim: seq<byte>, mini: bool, memory: array<byte>,
                      ghost header: seq<byte>, ghost tracks: seq<Track>, ghost s0: Track, ghost s1: Track) returns (ok: bool)
    requires BootImage(image, header, tracks, s0, s1) && PromDisk(tracks, mini, s0, s1) && memory.Length == 65536
    requires |cim| <= Capacity(Some(s0)) + Capacity(Some(s1))
    modifies memory
    ensures ok && |Content(s0) + Content(s1)| <= 65536
    ensures memory[..] == Overlay(old(memory[..]), 0, Over(cim, Content(s0) + Content(s1)))
  {
    ghost var out, disk, t0, t1 := PatchedDisk(image, cim, header, tracks, s0, s1, mini);
    hide *;
    var patched := Patch(image, cim);
    var parsed := ParseImd(patched.value);
    var prom := new Prom(parsed.value.1, mini, memory);
    ok := prom.Boot(t0, t1);
  }
}
