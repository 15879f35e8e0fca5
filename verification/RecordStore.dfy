/** The specification of the disk BIOS: a flat store of 128-byte records, and what
    it means for the one-sector buffer and the medium to agree with it. */
module RecordStore {
  import opened Bytes
  import opened DiskFormat
  import Floppy

  const WRALL: byte := 0
  const WRDIR: byte := 1
  const WRUAL: byte := 2

  datatype Rec = Rec(disk: nat, track: nat, sector: nat)

  /** The defined records and their values; a record that is absent may read as anything. */
  type Store = map<Rec, seq<byte>>

  type Medium = Floppy.Medium

  /** The formats of the two drives. */
  ghost predicate GoodDrives(fs: seq<Format>) {
    |fs| == 2 && fs[0].Good() && fs[1].Good()
  }

  ghost predicate InRange(fs: seq<Format>, r: Rec)
  {
    r.disk < |fs| && r.track < TRACKS && r.sector < fs[r.disk].cpmSectorsPerTrack
  }

  /** `r` is one of the `count` records from `first` on, the run continuing on the next track. */
  predicate InRun(f: Format, first: Rec, count: nat, r: Rec) {
    && r.disk == first.disk
    && ((r.track == first.track && first.sector <= r.sector < first.sector + count)
        || (r.track == first.track + 1 && r.sector + f.cpmSectorsPerTrack < first.sector + count))
  }

  /** `r` shares a host sector with a record of that run. */
  predicate InHull(f: Format, first: Rec, count: nat, r: Rec) {
    && r.disk == first.disk && count > 0
    && var last := first.sector + count - 1;
       (r.track == first.track && f.HostSector(first.sector) <= f.HostSector(r.sector) <= f.HostSector(last))
       || (r.track == first.track + 1 && last >= f.cpmSectorsPerTrack
           && f.HostSector(r.sector) <= f.HostSector(last - f.cpmSectorsPerTrack))
  }

  lemma AlignedHull(f: Format, first: Rec, r: Rec)
    requires f.Good() && first.sector < f.cpmSectorsPerTrack && r.sector < f.cpmSectorsPerTrack
    requires f.Offset(first.sector) == 0
    ensures InHull(f, first, f.recordsPerAllocBlock, r) <==> InRun(f, first, f.recordsPerAllocBlock, r)
  {
    var last := first.sector + f.recordsPerAllocBlock - 1;
    BlockEnd(f, first.sector, r.sector);
    BlockEnd(f, first.sector, r.sector + f.cpmSectorsPerTrack);
    SpillOver(f, last);
    SpillOver(f, r.sector + f.cpmSectorsPerTrack);
  }

  /** An aligned block ends with its last host sector. */
  lemma BlockEnd(f: Format, first: nat, sector: nat)
    requires f.Good() && f.Offset(first) == 0
    ensures f.HostSector(first) <= f.HostSector(sector) <==> first <= sector
    ensures f.HostSector(sector) <= f.HostSector(first + f.recordsPerAllocBlock - 1)
            <==> sector < first + f.recordsPerAllocBlock
  {
    SplitValue(f, first);
    SplitValue(f, sector);
    SplitValue(f, first + f.recordsPerAllocBlock - 1);
  }

  /** Host sectors past the end of a track count on from `physSpt`. */
  lemma SpillOver(f: Format, sector: nat)
    requires f.Good()
    ensures sector >= f.cpmSectorsPerTrack ==>
              f.HostSector(sector) == f.physSpt + f.HostSector(sector - f.cpmSectorsPerTrack)
  {
    SplitValue(f, sector);
    if sector >= f.cpmSectorsPerTrack {
      SplitValue(f, sector - f.cpmSectorsPerTrack);
    }
  }

  /** Skipping pre-reads loses nothing but the run itself exactly when the run starts on a
      host-sector boundary. */
  lemma HullIsRunIffAligned(f: Format, first: Rec)
    requires f.Good() && first.sector < f.cpmSectorsPerTrack
    ensures (forall r: Rec :: r.sector < f.cpmSectorsPerTrack ==>
               (InHull(f, first, f.recordsPerAllocBlock, r) <==> InRun(f, first, f.recordsPerAllocBlock, r)))
            <==> f.Offset(first.sector) == 0
  {
    if f.Offset(first.sector) == 0 {
      forall r: Rec | r.sector < f.cpmSectorsPerTrack
        ensures InHull(f, first, f.recordsPerAllocBlock, r) <==> InRun(f, first, f.recordsPerAllocBlock, r)
      {
        AlignedHull(f, first, r);
      }
    } else {
      SplitValue(f, first.sector);
      SplitValue(f, first.sector - f.Offset(first.sector));
      SplitValue(f, first.sector + f.recordsPerAllocBlock - 1);
      var before := Rec(first.disk, first.track, first.sector - f.Offset(first.sector));
      assert InHull(f, first, f.recordsPerAllocBlock, before);
      assert !InRun(f, first, f.recordsPerAllocBlock, before);
    }
  }

  /** Declaring a block unallocated: the records of the touched host sectors lose their values. */
  function Declare(fs: seq<Format>, store: Store, r: Rec): Store
    requires r.disk < |fs|
  {
    map q | q in store && !InHull(fs[r.disk], r, fs[r.disk].recordsPerAllocBlock, q) :: store[q]
  }

  /** WRITE on the flat store. */
  function Written(fs: seq<Format>, store: Store, r: Rec, wt: byte, data: seq<byte>): Store
    requires r.disk < |fs|
  {
    (if wt == WRUAL then Declare(fs, store, r) else store)[r := data]
  }

  /** A WRUAL write on a host-sector boundary undefines the rest of its block and nothing else. */
  lemma AlignedWrite(fs: seq<Format>, store: Store, r: Rec, data: seq<byte>, q: Rec)
    requires GoodDrives(fs) && StoreOk(fs, store) && InRange(fs, r)
    requires fs[r.disk].Offset(r.sector) == 0
    ensures var store' := Written(fs, store, r, WRUAL, data);
            q in store' <==> q == r || (q in store && !InRun(fs[r.disk], r, fs[r.disk].recordsPerAllocBlock, q))
    ensures var store' := Written(fs, store, r, WRUAL, data);
            q in store' && q != r ==> store'[q] == store[q]
  {
    HullIsRunIffAligned(fs[r.disk], r);
  }

  // The one-sector buffer.

  datatype Buffer = Buffer(valid: bool, dirty: bool, disk: nat, track: nat, sector: nat, bytes: seq<byte>)

  /** The records a WRUAL write announced and that are still expected, the next one first. */
  datatype Expected = Expected(count: nat, next: Rec)

  function NextRec(f: Format, r: Rec): Rec {
    if r.sector + 1 >= f.cpmSectorsPerTrack then Rec(r.disk, r.track + 1, 0) else Rec(r.disk, r.track, r.sector + 1)
  }

  function Slot(bytes: seq<byte>, k: nat): seq<byte>
    requires RECORD * k + RECORD <= |bytes|
  {
    bytes[RECORD * k..RECORD * k + RECORD]
  }

  /** Both diskettes have a sector of the right length for every host sector. */
  ghost predicate Formatted(fs: seq<Format>, m: Medium)
    requires GoodDrives(fs)
  {
    forall d, t: nat, hs: nat :: 0 <= d < 2 && t < TRACKS && hs < fs[d].physSpt ==>
      var p := Physical(fs[d], d, t, hs);
      p in m && |m[p]| == fs[d].SectorBytes()
  }

  ghost predicate StoreOk(fs: seq<Format>, store: Store)
  {
    forall r :: r in store ==> InRange(fs, r) && |store[r]| == RECORD
  }

  /** The record as the medium has it. */
  ghost function OnMedium(fs: seq<Format>, m: Medium, r: Rec): seq<byte>
    requires GoodDrives(fs) && Formatted(fs, m) && InRange(fs, r)
  {
    var f := fs[r.disk];
    HostSectorBound(f, r.sector);
    Slot(m[Physical(f, r.disk, r.track, f.HostSector(r.sector))], f.Offset(r.sector))
  }

  ghost predicate AtBuffer(fs: seq<Format>, b: Buffer, r: Rec) {
    r.disk < |fs| && b.disk == r.disk && b.track == r.track && b.sector == fs[r.disk].HostSector(r.sector)
  }

  ghost function InBuffer(fs: seq<Format>, b: Buffer, r: Rec): seq<byte>
    requires GoodDrives(fs) && InRange(fs, r) && |b.bytes| == 512
  {
    HostSectorBound(fs[r.disk], r.sector);
    Slot(b.bytes, fs[r.disk].Offset(r.sector))
  }

  /** The buffer holds a host sector of some drive. */
  ghost predicate BufferOk(fs: seq<Format>, b: Buffer)
    requires GoodDrives(fs)
  {
    b.disk < 2 && b.track < TRACKS && b.sector < fs[b.disk].physSpt && |b.bytes| == 512
  }

  /** Every defined record is on the medium, or in the dirty buffer; a valid buffer is current. */
  ghost predicate Agrees(fs: seq<Format>, b: Buffer, m: Medium, store: Store)
    requires GoodDrives(fs) && Formatted(fs, m) && StoreOk(fs, store) && |b.bytes| == 512
  {
    && (b.dirty ==> b.valid)
    && (forall r :: r in store && !(b.dirty && AtBuffer(fs, b, r)) ==> OnMedium(fs, m, r) == store[r])
    && (forall r :: r in store && b.valid && AtBuffer(fs, b, r) ==> InBuffer(fs, b, r) == store[r])
  }

  /** The medium alone holds every defined record. */
  ghost predicate Durable(fs: seq<Format>, m: Medium, store: Store)
    requires GoodDrives(fs) && Formatted(fs, m) && StoreOk(fs, store)
  {
    forall r :: r in store ==> OnMedium(fs, m, r) == store[r]
  }

  /** Whatever is defined among the host sectors of the expected records is in the buffer's
      bytes, valid or not, and in the host sector the run has reached. */
  ghost predicate Fresh(fs: seq<Format>, b: Buffer, store: Store, e: Expected)
    requires GoodDrives(fs) && StoreOk(fs, store) && |b.bytes| == 512
  {
    e.count > 0 ==>
      && e.next.disk < 2 && e.count <= fs[e.next.disk].cpmSectorsPerTrack
      && forall r :: r in store && InHull(fs[e.next.disk], e.next, e.count, r) ==>
           && r.track == e.next.track
           && fs[r.disk].HostSector(r.sector) == fs[r.disk].HostSector(e.next.sector)
           && AtBuffer(fs, b, r) && InBuffer(fs, b, r) == store[r]
  }

  /** The medium after the buffer has been written out. */
  ghost function Flushed(fs: seq<Format>, b: Buffer, m: Medium): Medium
    requires GoodDrives(fs) && BufferOk(fs, b)
  {
    m[Physical(fs[b.disk], b.disk, b.track, b.sector) := b.bytes[..fs[b.disk].SectorBytes()]]
  }

  /** Overwriting a sector with as many bytes keeps the diskettes formatted. */
  lemma StillFormatted(fs: seq<Format>, m: Medium, at: Place, bytes: seq<byte>)
    requires GoodDrives(fs) && Formatted(fs, m) && at in m && |bytes| == |m[at]|
    ensures Formatted(fs, m[at := bytes])
  {
  }

  lemma FlushFormatted(fs: seq<Format>, b: Buffer, m: Medium)
    requires GoodDrives(fs) && Formatted(fs, m) && BufferOk(fs, b)
    ensures Formatted(fs, Flushed(fs, b, m))
  {
    StillFormatted(fs, m, Physical(fs[b.disk], b.disk, b.track, b.sector), b.bytes[..fs[b.disk].SectorBytes()]);
  }

  lemma FlushRecord(fs: seq<Format>, b: Buffer, m: Medium, r: Rec)
    requires GoodDrives(fs) && Formatted(fs, m) && BufferOk(fs, b) && InRange(fs, r)
    ensures Formatted(fs, Flushed(fs, b, m))
    ensures OnMedium(fs, Flushed(fs, b, m), r) == if AtBuffer(fs, b, r) then InBuffer(fs, b, r) else OnMedium(fs, m, r)
  {
    FlushFormatted(fs, b, m);
    var f := fs[r.disk];
    HostSectorBound(f, r.sector);
    var hs := f.HostSector(r.sector);
    var p := Physical(f, r.disk, r.track, hs);
    if AtBuffer(fs, b, r) {
      var k := f.Offset(r.sector);
      assert Slot(b.bytes[..f.SectorBytes()], k) == Slot(b.bytes, k);
    } else if p == Physical(fs[b.disk], b.disk, b.track, b.sector) {
      PhysicalInjective(f, r.disk, r.track, hs, b.disk, b.track, b.sector);
    }
  }

  /** A flushed buffer leaves nothing that only the buffer knows. */
  lemma FlushDurable(fs: seq<Format>, b: Buffer, m: Medium, store: Store)
    requires GoodDrives(fs) && Formatted(fs, m) && StoreOk(fs, store) && BufferOk(fs, b)
    requires Agrees(fs, b, m, store) && b.valid
    ensures Formatted(fs, Flushed(fs, b, m)) && Durable(fs, Flushed(fs, b, m), store)
    ensures Agrees(fs, b, Flushed(fs, b, m), store) && Agrees(fs, b.(dirty := false), Flushed(fs, b, m), store)
  {
    FlushFormatted(fs, b, m);
    forall r | r in store ensures OnMedium(fs, Flushed(fs, b, m), r) == store[r] {
      FlushRecord(fs, b, m, r);
    }
  }

  /** With a clean buffer the medium holds everything. */
  lemma CleanIsDurable(fs: seq<Format>, b: Buffer, m: Medium, store: Store)
    requires GoodDrives(fs) && Formatted(fs, m) && StoreOk(fs, store) && |b.bytes| == 512
    requires Agrees(fs, b, m, store) && !b.dirty
    ensures Durable(fs, m, store)
  {
  }

  /** Pre-reading a host sector makes the buffer current for it. */
  lemma FillAgrees(fs: seq<Format>, b: Buffer, m: Medium, store: Store)
    requires GoodDrives(fs) && Formatted(fs, m) && StoreOk(fs, store) && Durable(fs, m, store)
    requires b.valid && !b.dirty && BufferOk(fs, b)
    requires var f := fs[b.disk]; b.bytes[..f.SectorBytes()] == m[Physical(f, b.disk, b.track, b.sector)]
    ensures Agrees(fs, b, m, store)
  {
    forall r | r in store && AtBuffer(fs, b, r) ensures InBuffer(fs, b, r) == store[r] {
      var f := fs[r.disk];
      HostSectorBound(f, r.sector);
      var k := f.Offset(r.sector);
      assert Slot(b.bytes[..f.SectorBytes()], k) == Slot(b.bytes, k);
      assert OnMedium(fs, m, r) == store[r];
    }
  }

  /** The buffer after a record has been copied into it. */
  function Patched(bytes: seq<byte>, k: nat, data: seq<byte>): (r: seq<byte>)
    requires RECORD * k + RECORD <= |bytes| && |data| == RECORD
    ensures |r| == |bytes|
  {
    bytes[..RECORD * k] + data + bytes[RECORD * k + RECORD..]
  }

  lemma PatchedSlot(bytes: seq<byte>, k: nat, data: seq<byte>, j: nat)
    requires RECORD * k + RECORD <= |bytes| && RECORD * j + RECORD <= |bytes| && |data| == RECORD
    ensures Slot(Patched(bytes, k, data), j) == if j == k then data else Slot(bytes, j)
  {
  }

  ghost function WithRecord(fs: seq<Format>, bytes: seq<byte>, r: Rec, data: seq<byte>): (b: seq<byte>)
    requires GoodDrives(fs) && InRange(fs, r) && |bytes| == 512 && |data| == RECORD
    ensures |b| == 512
  {
    HostSectorBound(fs[r.disk], r.sector);
    Patched(bytes, fs[r.disk].Offset(r.sector), data)
  }

  lemma PatchedRecord(fs: seq<Format>, b: Buffer, r: Rec, data: seq<byte>, b': Buffer, q: Rec)
    requires GoodDrives(fs) && |b.bytes| == 512 && |data| == RECORD
    requires InRange(fs, r) && AtBuffer(fs, b, r) && InRange(fs, q) && AtBuffer(fs, b, q)
    requires b'.bytes == WithRecord(fs, b.bytes, r, data)
    ensures InBuffer(fs, b', q) == if q == r then data else InBuffer(fs, b, q)
  {
    var f := fs[r.disk];
    HostSectorBound(f, r.sector);
    HostSectorBound(f, q.sector);
    if q != r {
      OffsetsDiffer(f, r.sector, q.sector);
    }
    PatchedSlot(b.bytes, f.Offset(r.sector), data, f.Offset(q.sector));
  }

  /** Every defined record but `r` is in the buffer or else on the medium. */
  ghost predicate OthersKept(fs: seq<Format>, b: Buffer, m: Medium, store: Store, r: Rec)
    requires GoodDrives(fs) && Formatted(fs, m) && StoreOk(fs, store) && |b.bytes| == 512
  {
    && (forall q :: q in store && q != r && !AtBuffer(fs, b, q) ==> OnMedium(fs, m, q) == store[q])
    && (forall q :: q in store && q != r && AtBuffer(fs, b, q) ==> InBuffer(fs, b, q) == store[q])
  }

  lemma AgreesKeeps(fs: seq<Format>, b: Buffer, m: Medium, store: Store, r: Rec)
    requires GoodDrives(fs) && Formatted(fs, m) && StoreOk(fs, store) && |b.bytes| == 512
    requires Agrees(fs, b, m, store) && b.valid
    ensures OthersKept(fs, b, m, store, r)
  {
  }

  /** The buffer's bytes serve for the host sector of `r`: every other defined record of it is
      there. */
  ghost predicate Serves(fs: seq<Format>, b: Buffer, store: Store, r: Rec)
    requires GoodDrives(fs) && StoreOk(fs, store) && |b.bytes| == 512 && r.disk < 2
  {
    forall q :: q in store && q != r && q.disk == r.disk && q.track == r.track
                && fs[r.disk].HostSector(q.sector) == fs[r.disk].HostSector(r.sector) ==>
      AtBuffer(fs, b, q) && InBuffer(fs, b, q) == store[q]
  }

  lemma SplitMono(f: Format, a: nat, b: nat)
    requires f.Good() && a <= b
    ensures f.HostSector(a) <= f.HostSector(b)
  {
    SplitValue(f, a);
    SplitValue(f, b);
  }

  lemma FreshServes(fs: seq<Format>, b: Buffer, store: Store, e: Expected)
    requires GoodDrives(fs) && StoreOk(fs, store) && |b.bytes| == 512
    requires e.count > 0 && InRange(fs, e.next) && Fresh(fs, b, store, e)
    ensures Serves(fs, b, store, e.next)
  {
    var f := fs[e.next.disk];
    forall q | q in store && q != e.next && q.disk == e.next.disk && q.track == e.next.track
               && f.HostSector(q.sector) == f.HostSector(e.next.sector)
      ensures AtBuffer(fs, b, q) && InBuffer(fs, b, q) == store[q]
    {
      SplitMono(f, e.next.sector, e.next.sector + e.count - 1);
      assert InHull(f, e.next, e.count, q);
    }
  }

  /** Without deblocking a host sector is one record, and anything serves for the others. */
  lemma ServesAlone(fs: seq<Format>, b: Buffer, store: Store, r: Rec)
    requires GoodDrives(fs) && StoreOk(fs, store) && |b.bytes| == 512 && InRange(fs, r)
    requires fs[r.disk].deblockMask == 0
    ensures Serves(fs, b, store, r)
  {
    var f := fs[r.disk];
    SplitValue(f, r.sector);
    forall q | q in store && q.disk == r.disk ensures f.HostSector(q.sector) == q.sector {
      SplitValue(f, q.sector);
    }
  }

  /** Turning such a buffer over to that host sector without a pre-read loses nothing. */
  lemma ServesKeeps(fs: seq<Format>, b: Buffer, m: Medium, store: Store, r: Rec, b': Buffer)
    requires GoodDrives(fs) && Formatted(fs, m) && StoreOk(fs, store) && |b.bytes| == 512 && InRange(fs, r)
    requires Durable(fs, m, store) && Serves(fs, b, store, r)
    requires b'.bytes == b.bytes && AtBuffer(fs, b', r)
    ensures OthersKept(fs, b', m, store, r)
  {
    forall q | q in store && q != r && AtBuffer(fs, b', q) ensures InBuffer(fs, b', q) == store[q] {
      assert InBuffer(fs, b', q) == InBuffer(fs, b, q);
    }
  }

  /** Copying a record into a buffer whose other defined records are right. */
  lemma WriteAgrees(fs: seq<Format>, b: Buffer, m: Medium, store: Store, r: Rec, data: seq<byte>, b': Buffer)
    requires GoodDrives(fs) && Formatted(fs, m) && StoreOk(fs, store) && |b.bytes| == 512
    requires InRange(fs, r) && |data| == RECORD && AtBuffer(fs, b, r) && OthersKept(fs, b, m, store, r)
    requires b' == b.(valid := true, dirty := true, bytes := WithRecord(fs, b.bytes, r, data))
    ensures StoreOk(fs, store[r := data]) && Agrees(fs, b', m, store[r := data])
  {
    var store' := store[r := data];
    forall q | q in store' && AtBuffer(fs, b', q) ensures InBuffer(fs, b', q) == store'[q] {
      PatchedRecord(fs, b, r, data, b', q);
    }
  }

  /** Moving on to the next expected record after writing this one. */
  lemma FreshStep(fs: seq<Format>, b: Buffer, m: Medium, store: Store, e: Expected, data: seq<byte>, b': Buffer)
    requires GoodDrives(fs) && Formatted(fs, m) && StoreOk(fs, store) && |b.bytes| == |b'.bytes| == 512
    requires e.count > 0 && InRange(fs, e.next) && |data| == RECORD && Fresh(fs, b, store, e)
    requires AtBuffer(fs, b', e.next) && b'.valid
    requires StoreOk(fs, store[e.next := data]) && Agrees(fs, b', m, store[e.next := data])
    ensures Fresh(fs, b', store[e.next := data], Expected(e.count - 1, NextRec(fs[e.next.disk], e.next)))
  {
    var f := fs[e.next.disk];
    var store' := store[e.next := data];
    forall r | e.count > 1 && r in store' && InHull(f, NextRec(f, e.next), e.count - 1, r)
      ensures && r.track == NextRec(f, e.next).track
              && f.HostSector(r.sector) == f.HostSector(NextRec(f, e.next).sector)
              && AtBuffer(fs, b', r)
    {
      FreshRecord(fs, b, store, e, r);
    }
  }

  lemma FreshRecord(fs: seq<Format>, b: Buffer, store: Store, e: Expected, r: Rec)
    requires GoodDrives(fs) && StoreOk(fs, store) && |b.bytes| == 512
    requires e.count > 1 && InRange(fs, e.next) && Fresh(fs, b, store, e)
    requires r in store || r == e.next
    requires InHull(fs[e.next.disk], NextRec(fs[e.next.disk], e.next), e.count - 1, r)
    ensures var f := fs[e.next.disk];
            && r.track == e.next.track == NextRec(f, e.next).track && r.disk == e.next.disk
            && f.HostSector(r.sector) == f.HostSector(e.next.sector) == f.HostSector(NextRec(f, e.next).sector)
  {
    HullStep(fs[e.next.disk], e.next, e.count, r);
  }

  lemma HullStep(f: Format, first: Rec, count: nat, r: Rec)
    requires f.Good() && 1 < count <= f.cpmSectorsPerTrack && first.sector < f.cpmSectorsPerTrack
    requires r.sector < f.cpmSectorsPerTrack && InHull(f, NextRec(f, first), count - 1, r)
    ensures InHull(f, first, count, r)
    ensures r.track == first.track && f.HostSector(r.sector) == f.HostSector(first.sector) ==>
              NextRec(f, first).track == first.track
              && f.HostSector(NextRec(f, first).sector) == f.HostSector(first.sector)
  {
    NextHost(f, first.sector);
    SpillOver(f, first.sector + 1);
    HostSectorBound(f, first.sector);
    HostSectorBound(f, r.sector);
    SpillOver(f, first.sector + count - 1);
    assert f.HostSector(0) == 0;
  }

  lemma NextHost(f: Format, sector: nat)
    requires f.Good()
    ensures f.HostSector(sector) <= f.HostSector(sector + 1) <= f.HostSector(sector) + 1
  {
    SplitValue(f, sector);
    SplitValue(f, sector + 1);
  }

  lemma FreshSame(fs: seq<Format>, b: Buffer, store: Store, e: Expected, b': Buffer)
    requires GoodDrives(fs) && StoreOk(fs, store) && |b.bytes| == 512 && Fresh(fs, b, store, e)
    requires b' == b.(valid := b'.valid, dirty := b'.dirty)
    ensures Fresh(fs, b', store, e)
  {
  }

  /** Nothing expected, nothing promised. */
  lemma FreshNone(fs: seq<Format>, b: Buffer, store: Store, e: Expected)
    requires GoodDrives(fs) && StoreOk(fs, store) && |b.bytes| == 512 && e.count == 0
    ensures Fresh(fs, b, store, e)
  {
  }

  /** A clean buffer may be forgotten. */
  lemma ForgetAgrees(fs: seq<Format>, b: Buffer, m: Medium, store: Store)
    requires GoodDrives(fs) && Formatted(fs, m) && StoreOk(fs, store) && |b.bytes| == 512
    requires Agrees(fs, b, m, store) && !b.dirty
    ensures Agrees(fs, b.(valid := false), m, store) && Durable(fs, m, store)
  {
  }

  /** A WRUAL declaration leaves nothing defined in the run's host sectors. */
  lemma DeclareFresh(fs: seq<Format>, b: Buffer, store: Store, r: Rec)
    requires GoodDrives(fs) && StoreOk(fs, store) && InRange(fs, r) && |b.bytes| == 512
    ensures StoreOk(fs, Declare(fs, store, r))
    ensures Fresh(fs, b, Declare(fs, store, r), Expected(fs[r.disk].recordsPerAllocBlock, r))
  {
  }

  /** Forgetting records keeps the agreement. */
  lemma DeclareAgrees(fs: seq<Format>, b: Buffer, m: Medium, store: Store, r: Rec)
    requires GoodDrives(fs) && Formatted(fs, m) && StoreOk(fs, store) && |b.bytes| == 512 && r.disk < |fs|
    requires Agrees(fs, b, m, store)
    ensures StoreOk(fs, Declare(fs, store, r)) && Agrees(fs, b, m, Declare(fs, store, r))
  {
  }
}
