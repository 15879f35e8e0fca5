/** The blocking/deblocking disk driver of rcbios-in-c/bios.c: one host sector is
    buffered, writes are held back, and pre-reads of unallocated blocks are skipped. */
module DeblockCache {
  import opened Bytes
  import opened DiskFormat
  import opened RecordStore
  import Floppy

  /** The formats of two drives with these format codes. */
  function FormatsOf(codes: seq<byte>): (fs: seq<Format>)
    requires |codes| == 2
    ensures GoodDrives(fs)
  {
    FspaGood();
    [FSPA[IndexOf(codes[0])], FSPA[IndexOf(codes[1])]]
  }

  class DiskBios {
    // Configuration: the format tables and the two drives' format codes.
    const fspa: seq<Format>
    const fd0: seq<byte>
    const maxDriveNum: nat
    const fdc: Floppy.Drives
    /** The drives' formats. */
    ghost const fs: seq<Format>

    // Requested position (SELDSK, SETTRK, SETSEC) and the record buffer SETDMA points to.
    var cpmDisk: nat
    var cpmTrack: nat
    var cpmSector: nat
    const dma: array<byte>

    // What is in the host buffer.
    const hstbuf: array<byte>
    var hostbufDisk: nat
    var hostbufTrack: nat
    var hostbufSector: nat
    var hostbufValid: bool
    var hostbufDirty: bool
    var diskError: bool

    // Last seek position.
    var lastSeekDisk: nat
    var lastSeekTrack: nat

    // Unallocated-write tracking.
    var unallocCount: nat
    var unallocDisk: nat
    var unallocTrack: nat
    var unallocSector: nat
    var unallocMask: bool

    // Operation control and the active format.
    var needPreRead: bool
    var isRead: bool
    var writeType: byte
    var currentFormatIdx: byte
    var format: Format

    // The flat record store this driver implements, and the failed transfers before cold boot.
    ghost var store: Store
    ghost const failuresBefore: nat

    /** No transfer has failed since cold boot. */
    ghost predicate Healthy()
      reads fdc`failures
    {
      fdc.failures == failuresBefore
    }

    /** The commands since `before` are explained by the controller's answers, and there is an error exactly
        if one was pending or a transfer has failed. */
    ghost predicate Reported(before: Floppy.Counts, pending: bool, error: bool)
      reads fdc
    {
      fdc.Ran(before, fdc.Tally()) && (error <==> pending || before.failures < fdc.failures)
    }

    /** What is reported after two steps in a row. */
    lemma ReportedOn(before: Floppy.Counts, pending: bool, mid: Floppy.Counts, error: bool, error': bool)
      requires fdc.Ran(before, mid) && (error <==> pending || before.failures < mid.failures)
      requires Reported(mid, error, error')
      ensures Reported(before, pending, error')
    {
      fdc.RanOn(before, mid, fdc.Tally());
    }

    ghost predicate Configured() {
      && |fspa| == 4 && |fd0| == 2 && maxDriveNum < 2
      && hstbuf.Length == 512 && dma.Length == RECORD && hstbuf != dma
      && GoodDrives(fs)
    }

    /** `fs` lists what the format tables say of the two drives. */
    ghost predicate TablesMatch()
      requires |fspa| == 4 && |fd0| == 2
    {
      fs == [fspa[IndexOf(fd0[0])], fspa[IndexOf(fd0[1])]]
    }

    /** The active format is drive `d`'s. */
    ghost predicate Active(d: nat)
      requires Configured()
      reads `currentFormatIdx, `format
    {
      d < 2 && currentFormatIdx == fd0[d] && format == fs[d]
    }

    /** The buffer as the specification sees it. */
    ghost function Buf(): Buffer
      reads `hostbufValid, `hostbufDirty, `hostbufDisk, `hostbufTrack, `hostbufSector, hstbuf
    {
      Buffer(hostbufValid, hostbufDirty, hostbufDisk, hostbufTrack, hostbufSector, hstbuf[..])
    }

    /** The record SELDSK, SETTRK and SETSEC address. */
    ghost function Current(): Rec
      reads `cpmDisk, `cpmTrack, `cpmSector
    {
      Rec(cpmDisk, cpmTrack, cpmSector)
    }

    ghost function Expecting(): Expected
      reads `unallocCount, `unallocDisk, `unallocTrack, `unallocSector
    {
      Expected(unallocCount, Rec(unallocDisk, unallocTrack, unallocSector))
    }

    /** What holds between calls whatever the drives do: in particular the active format is
        that of a dirty buffer's drive, and the remembered head position is the real one. */
    ghost predicate Sound()
      reads `cpmDisk, `hostbufValid, `hostbufDirty, `hostbufDisk, `hostbufTrack, `hostbufSector, `currentFormatIdx, `format, `lastSeekDisk, `lastSeekTrack, `store, `unallocDisk, `unallocSector, fdc, hstbuf
    {
      && Configured() && cpmDisk < 2
      && BufferOk(fs, Buf())
      && (hostbufDirty ==> Active(hostbufDisk))
      && |fdc.heads| == 2 && lastSeekDisk < 2 && fdc.heads[lastSeekDisk] == lastSeekTrack
      && Formatted(fs, fdc.medium)
      && StoreOk(fs, store) && fdc.failures >= failuresBefore
      && unallocDisk < 2 && unallocSector < fs[unallocDisk].cpmSectorsPerTrack
    }

    lemma Constants()
      requires Sound()
      ensures hstbuf != dma && |fspa| == 4 && |fd0| == 2 && maxDriveNum < 2
    {
    }

    /** The buffer and the medium agree with the record store. */
    ghost predicate Coherent()
      requires Sound()
      reads `diskError, `cpmDisk, `hostbufValid, `hostbufDirty, `hostbufDisk, `hostbufTrack, `hostbufSector, `currentFormatIdx, `format, `lastSeekDisk, `lastSeekTrack, `store, `unallocDisk, `unallocSector, fdc, hstbuf
    {
      !diskError && Agrees(fs, Buf(), fdc.medium, store)
    }

    /** `Sound`, the selected drive's format active, and `Coherent` as long as no transfer has failed. */
    ghost predicate Valid()
      reads this, fdc, hstbuf
    {
      && Sound() && Active(cpmDisk)
      && (Healthy() ==> Coherent() && Fresh(fs, Buf(), store, Expecting()))
    }

    /** The host buffer starts with the bytes of its sector. */
    ghost predicate Loaded()
      requires Sound()
      reads this, fdc, hstbuf
    {
      var f := fs[hostbufDisk];
      hstbuf[..f.SectorBytes()] == fdc.medium[Physical(f, hostbufDisk, hostbufTrack, hostbufSector)]
    }

    /** Cold boot: everything zero, drive A selected and recalibrated. Any part of what the
        diskettes hold may be taken as the initial record store. */
    constructor (codes: seq<byte>, maxDriveNum: nat, fdc: Floppy.Drives, ghost initial: Store)
      requires |codes| == 2 && maxDriveNum < 2 && |fdc.heads| == 2
      requires var fs := FormatsOf(codes);
               && Formatted(fs, fdc.medium) && StoreOk(fs, initial)
               && Durable(fs, fdc.medium, initial)
      modifies fdc`heads, fdc`seeks
      ensures Valid() && TablesMatch() && Healthy() && store == initial && fs == FormatsOf(codes)
      ensures fspa == FSPA && fd0 == codes && this.fdc == fdc
      ensures Current() == Rec(0, 0, 0) && !hostbufValid && !hostbufDirty && hstbuf[..] == seq(512, _ => 0)
      ensures fresh(hstbuf) && fresh(dma)
    {
      fspa, fd0, this.maxDriveNum, this.fdc := FSPA, codes, maxDriveNum, fdc;
      cpmDisk, cpmTrack, cpmSector := 0, 0, 0;
      dma := new byte[RECORD];
      hstbuf := new byte[512](_ => 0);
      hostbufDisk, hostbufTrack, hostbufSector := 0, 0, 0;
      hostbufValid, hostbufDirty, diskError := false, false, false;
      lastSeekDisk, lastSeekTrack := 0, 0;
      unallocCount, unallocDisk, unallocTrack, unallocSector, unallocMask := 0, 0, 0, 0, false;
      needPreRead, isRead, writeType := false, false, 0;
      currentFormatIdx := codes[0];
      format := FSPA[IndexOf(codes[0])];
      store, failuresBefore := initial, fdc.failures;
      fs := FormatsOf(codes);
      new;
      fdc.Seek(0, 0);
    }

    /** `chktrk`: address the buffered host sector, seeking unless the head is known to be there. */
    method ChkTrk() returns (at: Place)
      requires Sound() && Active(hostbufDisk)
      modifies `lastSeekDisk, `lastSeekTrack, fdc`heads, fdc`seeks
      ensures Sound() && fdc.OnTrack(at, format.dmaCount + 1)
      ensures at == Physical(fs[hostbufDisk], hostbufDisk, hostbufTrack, hostbufSector)
      ensures fdc.heads[hostbufDisk] == hostbufTrack
      ensures fdc.seeks == old(fdc.seeks) + if old(lastSeekDisk) == hostbufDisk && old(lastSeekTrack) == hostbufTrack then 0 else 1
    {
      var sec := hostbufSector;
      var ev := format.eot;
      var head := 0;
      if sec >= ev {
        head := 1;
        sec := sec - ev;
      }
      at := Place(hostbufDisk, hostbufTrack % 256, head, format.sectorXlate[sec]);
      assert at == Physical(fs[hostbufDisk], hostbufDisk, hostbufTrack, hostbufSector);
      if hostbufDisk == lastSeekDisk && hostbufTrack == lastSeekTrack {
        return;
      }
      lastSeekDisk := hostbufDisk;
      lastSeekTrack := hostbufTrack;
      fdc.Seek(at.drive, at.cylinder);
    }

    /** `wrthst`: write the host buffer to its sector. */
    method WrtHst()
      requires Sound() && Active(hostbufDisk)
      modifies `lastSeekDisk, `lastSeekTrack, `hostbufValid, `diskError, fdc, hstbuf
      ensures Sound() && hstbuf[..] == old(hstbuf[..])
      ensures fdc.failures == old(fdc.failures) ==> hostbufValid == old(hostbufValid) && diskError == old(diskError)
      ensures fdc.failures == old(fdc.failures) ==> fdc.medium == Flushed(fs, old(Buf()), old(fdc.medium))
      ensures fdc.failures != old(fdc.failures) ==> fdc.failures == old(fdc.failures) + 1 && !hostbufValid && diskError
      ensures Reported(old(fdc.Tally()), old(diskError), diskError)
    {
      var at := ChkTrk();
      var ok := fdc.SecRw(true, at, format.dmaCount + 1, hstbuf);
      StillFormatted(fs, old(fdc.medium), at, fdc.medium[at]);
      if !ok {
        hostbufValid := false;
        diskError := true;
      }
    }

    /** `rdhst`: read the buffered host sector. */
    method RdHst()
      requires Sound() && Active(hostbufDisk)
      modifies `lastSeekDisk, `lastSeekTrack, `hostbufValid, `diskError, `unallocCount, fdc, hstbuf
      ensures Sound() && fdc.medium == old(fdc.medium)
      ensures unallocCount == if unallocMask then old(unallocCount) else 0
      ensures fdc.failures == old(fdc.failures) ==> hostbufValid == old(hostbufValid) && diskError == old(diskError) && Loaded()
      ensures fdc.failures != old(fdc.failures) ==> fdc.failures == old(fdc.failures) + 1 && !hostbufValid && diskError
      ensures Reported(old(fdc.Tally()), old(diskError), diskError)
    {
      hide StoreOk, Formatted, Format.Good, Floppy.Drives.Explained;
      if unallocMask {
      } else {
        unallocCount := 0;
      }
      var ok := FetchSector();
      if !ok {
        hostbufValid := false;
        diskError := true;
      }
    }

    /** The transfer of `rdhst`. */
    method FetchSector() returns (ok: bool)
      requires Sound() && Active(hostbufDisk)
      modifies `lastSeekDisk, `lastSeekTrack, fdc, hstbuf
      ensures Sound() && fdc.medium == old(fdc.medium) && (ok ==> Loaded())
      ensures fdc.failures == old(fdc.failures) + (if ok then 0 else 1) && fdc.Ran(old(fdc.Tally()), fdc.Tally())
    {
      hide StoreOk, Floppy.Drives.Explained;
      var at := ChkTrk();
      ok := fdc.SecRw(false, at, format.dmaCount + 1, hstbuf);
    }

    /** The buffer is set to the addressed record's host sector. */
    ghost predicate OnCurrent()
      requires Configured() && cpmDisk < 2
      reads `cpmDisk, `cpmTrack, `cpmSector, `hostbufDisk, `hostbufTrack, `hostbufSector
    {
      hostbufDisk == cpmDisk && hostbufTrack == cpmTrack && hostbufSector == fs[cpmDisk].HostSector(cpmSector)
    }

    /** The addressed record is in the buffer. */
    ghost predicate Hit()
      requires Configured() && cpmDisk < 2
      reads `cpmDisk, `cpmTrack, `cpmSector, `hostbufValid, `hostbufDisk, `hostbufTrack, `hostbufSector
    {
      hostbufValid && OnCurrent()
    }

    /** `(byte)(cpm_sector >> (deblock_shift - 1))`. */
    static method AsHost(f: Format, sector: nat) returns (hs: nat)
      requires f.Good() && sector < f.cpmSectorsPerTrack
      ensures hs == f.HostSector(sector) < f.physSpt
    {
      RecordSplit(f, sector);
      hs := Shr(sector, f.deblockShift - 1) % 256;
    }

    /** `(cpm_sector & deblock_mask) << 7`. */
    static method ByteOffset(f: Format, sector: nat) returns (offset: nat)
      requires f.Good() && sector < f.cpmSectorsPerTrack
      ensures offset == RECORD * f.Offset(sector) && offset + RECORD <= 512
    {
      RecordSplit(f, sector);
      offset := sector % (f.deblockMask + 1) * 128;
    }

    /** Every other record of the addressed host sector is in the buffer's bytes. */
    ghost predicate Serving()
      requires Sound()
      reads this, fdc, hstbuf
    {
      InRange(fs, Current()) && Serves(fs, Buf(), store, Current())
    }

    /** Every record but the addressed one is in the buffer or else on the medium. */
    ghost predicate Keeping()
      requires Sound()
      reads this, fdc, hstbuf
    {
      InRange(fs, Current()) && OthersKept(fs, Buf(), fdc.medium, store, Current())
    }

    lemma CoherentKeeps()
      requires Sound() && InRange(fs, Current()) && Coherent() && hostbufValid
      ensures Keeping()
    {
      hide Formatted, StoreOk;
      AgreesKeeps(fs, Buf(), fdc.medium, store, Current());
    }

    /** `rwoper`, first step: a buffer that is valid for another host sector is written out. */
    method Evict()
      requires Sound() && (Healthy() ==> Coherent())
      modifies `lastSeekDisk, `lastSeekTrack, `hostbufValid, `diskError, fdc, hstbuf
      ensures Sound() && hstbuf[..] == old(hstbuf[..])
      ensures !old(hostbufValid && hostbufDirty) ==> unchanged(fdc)
      ensures Healthy() ==> !diskError && Durable(fs, fdc.medium, store)
      ensures old(Serving()) ==> Serving()
      ensures Reported(old(fdc.Tally()), old(diskError), diskError)
    {
      if hostbufValid {
        if hostbufDirty {
          if Healthy() {
            FlushDurable(fs, Buf(), fdc.medium, store);
          }
          WrtHst();
        }
      }
    }

    /** Read the buffer's host sector in; the buffer is clean after it. */
    method PreRead()
      requires Sound() && Active(hostbufDisk) && hostbufValid && unallocCount == 0
      requires Healthy() ==> !diskError && Durable(fs, fdc.medium, store)
      modifies this`hostbufValid, this`hostbufDirty, this`diskError
      modifies this`lastSeekDisk, this`lastSeekTrack, this`unallocCount, fdc, hstbuf
      ensures Sound() && unallocCount == 0 && (Healthy() ==> hostbufValid && Coherent())
      ensures Reported(old(fdc.Tally()), old(diskError), diskError)
    {
      RdHst();
      hostbufDirty := false;
      if Healthy() {
        FillAgrees(fs, Buf(), fdc.medium, store);
      }
    }

    /** The buffer is now for the addressed host sector; what it holds is another matter. */
    method Retarget(cpmSectorAsHost: nat)
      requires Sound() && Active(cpmDisk) && InRange(fs, Current()) && cpmSectorAsHost == fs[cpmDisk].HostSector(cpmSector)
      modifies `hostbufDisk, `hostbufTrack, `hostbufSector, `hostbufValid
      ensures Sound() && OnCurrent() && hostbufValid
      ensures old(Serving()) ==> Serving()
    {
      hide Formatted, StoreOk, Format.Good;
      hostbufValid := true;
      hostbufDisk := cpmDisk;
      hostbufTrack := cpmTrack;
      hostbufSector := cpmSectorAsHost;
      HostSectorBound(fs[cpmDisk], cpmSector);
    }

    /** Turn the retargeted buffer over without reading. */
    method Reuse()
      requires Sound() && OnCurrent() && (Healthy() ==> Durable(fs, fdc.medium, store) && Serving())
      modifies `hostbufDirty
      ensures Sound() && OnCurrent() && (Healthy() ==> Keeping())
    {
      hide Formatted, StoreOk, Serves, Durable, OthersKept;
      hostbufDirty := false;
      if Healthy() {
        ServesKeeps(fs, old(Buf()), fdc.medium, store, Current(), Buf());
      }
    }

    /** `rwoper`, second step: turn the buffer over to the addressed host sector. Without a
        pre-read the caller vouches for the other records of that sector. */
    method TurnOver(cpmSectorAsHost: nat)
      requires Sound() && Active(cpmDisk) && InRange(fs, Current()) && cpmSectorAsHost == fs[cpmDisk].HostSector(cpmSector)
      requires Healthy() ==> !diskError && Durable(fs, fdc.medium, store)
      requires needPreRead ==> unallocCount == 0
      requires Healthy() && !needPreRead ==> Serving()
      modifies this`hostbufDisk, this`hostbufTrack, this`hostbufSector, this`hostbufValid, this`hostbufDirty, this`diskError
      modifies this`lastSeekDisk, this`lastSeekTrack, this`unallocCount, fdc, hstbuf
      ensures Sound() && OnCurrent() && unallocCount == old(unallocCount)
      ensures !needPreRead ==> unchanged(fdc) && hstbuf[..] == old(hstbuf[..])
      ensures Healthy() ==> !diskError && hostbufValid && Keeping()
      ensures Healthy() && needPreRead ==> Coherent()
      ensures Reported(old(fdc.Tally()), old(diskError), diskError)
    {
      hide Sound, BufferOk, Agrees, Serves, Formatted, StoreOk, Durable, OthersKept, Format.Good;
      Retarget(cpmSectorAsHost);
      if needPreRead {
        PreRead();
        if Healthy() {
          CoherentKeeps();
        }
      } else {
        Reuse();
      }
    }

    /** `memcpy` of the record at `offset` of the host buffer to the DMA area. */
    static method CopyOut(dst: array<byte>, src: array<byte>, offset: nat, ghost k: nat)
      requires dst != src && dst.Length == RECORD && offset == RECORD * k && offset + RECORD <= src.Length
      modifies dst
      ensures dst[..] == Slot(src[..], k)
    {
      forall i | 0 <= i < 128 {
        dst[i] := src[offset + i];
      }
    }

    /** `memcpy` of a record from the DMA area to `offset` of the host buffer. */
    static method CopyIn(dst: array<byte>, offset: nat, src: array<byte>, ghost k: nat)
      requires dst != src && src.Length == RECORD && offset == RECORD * k && offset + RECORD <= dst.Length
      modifies dst
      ensures dst[..] == Patched(old(dst[..]), k, src[..])
    {
      forall i | 0 <= i < 128 {
        dst[offset + i] := src[i];
      }
    }

    /** `rwoper`, third step, READ. */
    method DeliverRecord()
      requires Sound() && Active(cpmDisk) && InRange(fs, Current()) && OnCurrent()
      requires Healthy() ==> hostbufValid && Coherent()
      modifies dma
      ensures Sound() && dma[..] == InBuffer(fs, Buf(), Current())
      ensures Healthy() ==> Coherent() && (Current() in store ==> dma[..] == store[Current()])
    {
      hide Formatted, Fresh;
      var offset := ByteOffset(format, cpmSector);
      CopyOut(dma, hstbuf, offset, format.Offset(cpmSector));
      assert dma[..] == InBuffer(fs, Buf(), Current());
    }

    /** `rwoper`, third step, WRITE. */
    method AcceptRecord()
      requires Sound() && Active(cpmDisk) && InRange(fs, Current()) && OnCurrent()
      requires Healthy() ==> hostbufValid && Keeping()
      modifies this`hostbufDirty, this`store, hstbuf
      ensures Sound() && OnCurrent() && hstbuf[..] == WithRecord(fs, old(hstbuf[..]), Current(), dma[..])
      ensures store == old(store)[Current() := dma[..]]
      ensures Healthy() ==> Agrees(fs, Buf(), fdc.medium, store)
    {
      hide OthersKept, Agrees, Formatted, Patched;
      hostbufDirty := true;
      var offset := ByteOffset(format, cpmSector);
      CopyIn(hstbuf, offset, dma, format.Offset(cpmSector));
      assert hstbuf[..] == WithRecord(fs, old(hstbuf[..]), Current(), dma[..]);
      if Healthy() {
        WriteAgrees(fs, old(Buf()), fdc.medium, store, Current(), dma[..], Buf());
      }
      store := store[Current() := dma[..]];
    }

    /** `rwoper`, last step: report errors, and flush a directory write at once. */
    method Finish() returns (err: bool)
      requires Sound() && OnCurrent() && Active(hostbufDisk)
      requires Healthy() ==> Coherent() && hostbufValid
      modifies `hostbufValid, `hostbufDirty, `diskError, `lastSeekDisk, `lastSeekTrack, fdc, hstbuf
      ensures Sound() && OnCurrent() && hstbuf[..] == old(hstbuf[..])
      ensures writeType != WRDIR ==> unchanged(fdc)
      ensures Healthy() ==> !err && Coherent() && hostbufValid
      ensures Healthy() && writeType == WRDIR ==> Durable(fs, fdc.medium, store)
      ensures Reported(old(fdc.Tally()), old(diskError), err) && !diskError
      ensures err ==> !hostbufValid
    {
      hide Agrees, Fresh, Serves, Formatted, StoreOk, Durable, Format.Good, Floppy.Drives.Explained;
      if diskError {
        hostbufValid := false;
      }
      if writeType == WRDIR && !diskError {
        if Healthy() {
          FlushDurable(fs, Buf(), fdc.medium, store);
        }
        hostbufDirty := false;
        WrtHst();
      }
      err := diskError;
      diskError := false;
    }

    /** `rwoper`, first half: have the addressed host sector in the buffer. */
    method Fill()
      requires Sound() && Active(cpmDisk) && InRange(fs, Current()) && (Healthy() ==> Coherent())
      requires needPreRead ==> unallocCount == 0
      requires Healthy() && !needPreRead ==> Serving()
      modifies this`hostbufDisk, this`hostbufTrack, this`hostbufSector, this`hostbufValid, this`hostbufDirty, this`diskError
      modifies this`lastSeekDisk, this`lastSeekTrack, this`unallocCount, fdc, hstbuf
      ensures Sound() && OnCurrent() && unallocCount == old(unallocCount)
      ensures old(Hit()) || (!needPreRead && !old(hostbufValid && hostbufDirty)) ==> unchanged(fdc)
      ensures !needPreRead || old(Hit()) ==> hstbuf[..] == old(hstbuf[..])
      ensures Healthy() ==> !diskError && hostbufValid
      ensures Healthy() && needPreRead ==> Coherent()
      ensures Healthy() ==> Keeping()
      ensures Reported(old(fdc.Tally()), old(diskError), diskError)
    {
      hide Agrees, Serves, Formatted, StoreOk, Durable, OthersKept, Serving, Keeping, Floppy.Drives.Explained;
      var cpmSectorAsHost := AsHost(format, cpmSector);
      if hostbufValid && cpmDisk == hostbufDisk && hostbufTrack == cpmTrack && cpmSectorAsHost == hostbufSector {
        if Healthy() {
          CoherentKeeps();
        }
      } else {
        Replace(cpmSectorAsHost);
      }
    }

    /** The two steps for a record that is not in the buffer. */
    method Replace(cpmSectorAsHost: nat)
      requires Sound() && Active(cpmDisk) && InRange(fs, Current()) && cpmSectorAsHost == fs[cpmDisk].HostSector(cpmSector)
      requires Healthy() ==> Coherent()
      requires needPreRead ==> unallocCount == 0
      requires Healthy() && !needPreRead ==> Serving()
      modifies this`hostbufDisk, this`hostbufTrack, this`hostbufSector, this`hostbufValid, this`hostbufDirty, this`diskError
      modifies this`lastSeekDisk, this`lastSeekTrack, this`unallocCount, fdc, hstbuf
      ensures Sound() && OnCurrent() && unallocCount == old(unallocCount)
      ensures !needPreRead && !old(hostbufValid && hostbufDirty) ==> unchanged(fdc)
      ensures !needPreRead ==> hstbuf[..] == old(hstbuf[..])
      ensures Healthy() ==> !diskError && hostbufValid && Keeping() && (needPreRead ==> Coherent())
      ensures Reported(old(fdc.Tally()), old(diskError), diskError)
    {
      hide Sound, BufferOk, Agrees, Serves, Formatted, StoreOk, Durable, OthersKept, Format.Good, Serving, Keeping;
      Evict();
      ghost var mid, error := fdc.Tally(), diskError;
      TurnOver(cpmSectorAsHost);
      ReportedOn(old(fdc.Tally()), old(diskError), mid, error, diskError);
    }

    /** `rwoper`, third step. */
    method MoveRecord()
      requires Sound() && Active(cpmDisk) && InRange(fs, Current()) && OnCurrent()
      requires Healthy() ==> !diskError && hostbufValid && Keeping() && (isRead ==> Coherent())
      modifies this`hostbufDirty, this`store, hstbuf, dma
      ensures Sound() && OnCurrent() && (Healthy() ==> Coherent())
      ensures store == if isRead then old(store) else old(store)[Current() := old(dma[..])]
      ensures if isRead then dma[..] == InBuffer(fs, Buf(), Current()) && hstbuf[..] == old(hstbuf[..])
              else dma[..] == old(dma[..]) && hstbuf[..] == WithRecord(fs, old(hstbuf[..]), Current(), dma[..])
      ensures Healthy() && isRead && Current() in store ==> dma[..] == store[Current()]
    {
      hide Sound, BufferOk, Agrees, Serves, Formatted, StoreOk, Durable, OthersKept, Format.Good, InBuffer, WithRecord;
      Constants();
      if isRead {
        DeliverRecord();
      } else {
        AcceptRecord();
      }
    }

    /** `rwoper`: the blocking and deblocking of one record. */
    method RwOper() returns (err: bool)
      requires Sound() && Active(cpmDisk) && InRange(fs, Current()) && (Healthy() ==> Coherent())
      requires isRead ==> needPreRead
      requires needPreRead ==> unallocCount == 0
      requires Healthy() && !needPreRead ==> Serving()
      modifies this`hostbufDisk, this`hostbufTrack, this`hostbufSector, this`hostbufValid, this`hostbufDirty, this`diskError
      modifies this`lastSeekDisk, this`lastSeekTrack, this`unallocCount, this`store, fdc, hstbuf, dma
      ensures Sound() && OnCurrent() && unallocCount == old(unallocCount)
      ensures writeType != WRDIR && (old(Hit()) || (!needPreRead && !old(hostbufValid && hostbufDirty))) ==> unchanged(fdc)
      ensures store == if isRead then old(store) else old(store)[Current() := old(dma[..])]
      ensures !isRead ==> dma[..] == old(dma[..])
      ensures Healthy() ==> !err && Coherent() && hostbufValid
      ensures Healthy() && isRead && Current() in store ==> dma[..] == store[Current()]
      ensures Healthy() && writeType == WRDIR ==> Durable(fs, fdc.medium, store)
      ensures Reported(old(fdc.Tally()), old(diskError), err) && !diskError
      ensures err ==> !hostbufValid
      ensures isRead ==> dma[..] == InBuffer(fs, Buf(), Current())
      ensures isRead && old(Hit()) ==> hstbuf[..] == old(hstbuf[..])
      ensures !isRead && !needPreRead ==> hstbuf[..] == WithRecord(fs, old(hstbuf[..]), Current(), dma[..])
    {
      hide Sound, BufferOk, Agrees, Fresh, Serves, Formatted, StoreOk, Durable, OthersKept, Format.Good, WithRecord, Keeping, Serving,
        Floppy.Drives.Explained;
      Constants();
      Fill();
      ghost var mid, error := fdc.Tally(), diskError;
      MoveRecord();
      err := Finish();
      ReportedOn(old(fdc.Tally()), old(diskError), mid, error, err);
    }

    /** No unallocated run, and the operation to perform. */
    method SetOperation(read: bool, pre: bool, wt: byte)
      requires Sound()
      modifies `unallocCount, `isRead, `needPreRead, `writeType
      ensures Sound() && unallocCount == 0 && isRead == read && needPreRead == pre && writeType == wt
    {
      hide BufferOk, Formatted, StoreOk, Format.Good;
      unallocCount := 0;
      isRead := read;
      needPreRead := pre;
      writeType := wt;
    }

    lemma NothingExpected()
      requires Sound() && unallocCount == 0
      ensures Fresh(fs, Buf(), store, Expecting())
    {
      FreshNone(fs, Buf(), store, Expecting());
    }

    /** Without deblocking the addressed record is all of its host sector. */
    lemma Alone()
      requires Sound() && Active(cpmDisk) && InRange(fs, Current())
      ensures format.deblockMask == 0 ==> Serving()
    {
      if format.deblockMask == 0 {
        ServesAlone(fs, Buf(), store, Current());
      }
    }

    /** READ (`xread`): a defined record is returned with the value last written to it. */
    method XRead() returns (err: bool)
      requires Valid() && InRange(fs, Current())
      modifies this, fdc, hstbuf, dma
      ensures Valid() && Current() == old(Current()) && store == old(store)
      ensures old(Hit()) ==> unchanged(fdc)
      ensures Healthy() ==> !err && (Current() in store ==> dma[..] == store[Current()])
      ensures Reported(old(fdc.Tally()), old(diskError), err) && !diskError
      ensures err ==> !hostbufValid
      ensures dma[..] == InBuffer(fs, Buf(), Current())
      ensures old(Hit()) ==> hstbuf[..] == old(hstbuf[..])
    {
      hide Sound, BufferOk, Agrees, Fresh, Serves, Formatted, StoreOk, Durable, OthersKept, Format.Good, WithRecord, InBuffer;
      SetOperation(true, true, WRUAL);
      err := RwOper();
      NothingExpected();
    }

    /** WRITE (`xwrite`): the flat store's WRITE, whatever the run of writes before it. */
    method XWrite(wt: byte) returns (err: bool)
      requires Valid() && InRange(fs, Current())
      modifies this, fdc, hstbuf, dma
      ensures Valid() && Current() == old(Current()) && dma[..] == old(dma[..])
      ensures (wt != WRDIR && old(Hit())) || (wt == WRUAL && !old(hostbufValid && hostbufDirty)) ==> unchanged(fdc)
      ensures store == Written(fs, old(store), Current(), wt, dma[..])
      ensures Healthy() ==> !err
      ensures Healthy() && wt == WRDIR ==> Durable(fs, fdc.medium, store)
      ensures Reported(old(fdc.Tally()), old(diskError), err) && !diskError
      ensures err ==> !hostbufValid
      ensures OnCurrent() && (Healthy() ==> hostbufValid)
      ensures wt == WRUAL ==> hstbuf[..] == WithRecord(fs, old(hstbuf[..]), Current(), dma[..])
    {
      hide Sound, BufferOk, Agrees, Fresh, Serves, Formatted, StoreOk, Durable, OthersKept, Format.Good, WithRecord, InBuffer;
      isRead := false;
      writeType := wt;
      if wt == WRUAL {
        AnnounceRun();
      }
      if unallocCount != 0 {
        if !(cpmDisk != unallocDisk || cpmTrack != unallocTrack || cpmSector != unallocSector) {
          err := ContinueRun();
          return;
        }
      }
      err := WriteAllocated();
    }

    /** First write to an unallocated block: expect the block's records, one after another. */
    method AnnounceRun()
      requires Valid() && InRange(fs, Current())
      modifies `unallocCount, `unallocDisk, `unallocTrack, `unallocSector, `store
      ensures Valid() && store == Declare(fs, old(store), Current())
      ensures Expecting() == Expected(format.recordsPerAllocBlock, Current()) && unallocCount > 0
    {
      hide Agrees, Fresh, Formatted, Declare, StoreOk, BufferOk, Format.Good;
      BlockDeclared();
      unallocCount := format.recordsPerAllocBlock;
      unallocDisk := cpmDisk;
      unallocTrack := cpmTrack;
      unallocSector := cpmSector;
      store := Declare(fs, store, Current());
    }

    lemma BlockDeclared()
      requires Valid() && InRange(fs, Current())
      ensures var store' := Declare(fs, store, Current());
        && StoreOk(fs, store') && Fresh(fs, Buf(), store', Expected(format.recordsPerAllocBlock, Current()))
        && (Healthy() ==> Agrees(fs, Buf(), fdc.medium, store'))
      ensures format.recordsPerAllocBlock > 0
    {
      hide Agrees, Fresh, Formatted, Declare;
      DeclareFresh(fs, Buf(), store, Current());
      if Healthy() {
        DeclareAgrees(fs, Buf(), fdc.medium, store, Current());
      }
    }

    /** The arm of `xwrite` for a record of an allocated block: pre-read unless the record is a
        whole host sector. */
    method WriteAllocated() returns (err: bool)
      requires Valid() && InRange(fs, Current()) && !isRead
      modifies this, fdc, hstbuf, dma
      ensures Valid() && Current() == old(Current()) && dma[..] == old(dma[..])
      ensures old(writeType != WRDIR && Hit()) ==> unchanged(fdc)
      ensures store == old(store)[Current() := dma[..]]
      ensures Healthy() ==> !err
      ensures Healthy() && old(writeType) == WRDIR ==> Durable(fs, fdc.medium, store)
      ensures Reported(old(fdc.Tally()), old(diskError), err) && !diskError
      ensures err ==> !hostbufValid
      ensures OnCurrent() && (Healthy() ==> hostbufValid)
    {
      hide Sound, BufferOk, Agrees, Fresh, Serves, Formatted, StoreOk, Durable, OthersKept, Format.Good, WithRecord, InBuffer;
      Alone();
      SetOperation(isRead, format.deblockMask != 0, writeType);
      err := RwOper();
      NothingExpected();
    }

    /** Step the unallocated-run pointer to the next record. */
    method AdvanceRun()
      requires Sound() && unallocCount > 0 && format == fs[unallocDisk]
      modifies `unallocCount, `unallocTrack, `unallocSector
      ensures Sound()
      ensures Expecting() == Expected(old(unallocCount) - 1, NextRec(fs[unallocDisk], old(Expecting().next)))
    {
      unallocCount := unallocCount - 1;
      unallocSector := unallocSector + 1;
      if unallocSector >= format.cpmSectorsPerTrack {
        unallocSector := 0;
        unallocTrack := unallocTrack + 1;
      }
    }

    /** The arm of `xwrite` for the next record of an unallocated run. */
    method ContinueRun() returns (err: bool)
      requires Valid() && InRange(fs, Current()) && !isRead
      requires unallocCount > 0 && Expecting().next == Current()
      modifies this, fdc, hstbuf, dma
      ensures Valid() && Current() == old(Current()) && dma[..] == old(dma[..])
      ensures old(writeType != WRDIR && (Hit() || !(hostbufValid && hostbufDirty))) ==> unchanged(fdc)
      ensures store == old(store)[Current() := dma[..]]
      ensures Healthy() ==> !err
      ensures Healthy() && old(writeType) == WRDIR ==> Durable(fs, fdc.medium, store)
      ensures Reported(old(fdc.Tally()), old(diskError), err) && !diskError
      ensures err ==> !hostbufValid
      ensures OnCurrent() && (Healthy() ==> hostbufValid)
      ensures hstbuf[..] == WithRecord(fs, old(hstbuf[..]), Current(), dma[..])
    {
      hide Agrees, Fresh, Serves, Formatted, StoreOk, Durable, OthersKept, Format.Good, WithRecord, InBuffer;
      ghost var e := Expecting();
      AdvanceRun();
      err := WriteUnread(e);
    }

    /** No pre-read; the mask is set at the last record of a host sector. */
    method SkipPreRead()
      requires Sound() && Active(cpmDisk) && InRange(fs, Current())
      modifies `needPreRead, `unallocMask
      ensures Sound() && !needPreRead
    {
      hide BufferOk, Formatted, StoreOk, Format.Good;
      needPreRead := false;
      unallocMask := IsLastSlot(format, cpmSector);
    }

    lemma Anticipated(e: Expected)
      requires Sound() && Active(cpmDisk) && InRange(fs, Current()) && e.count > 0 && e.next == Current()
      ensures StoreOk(fs, store) && |Buf().bytes| == 512
      ensures Healthy() && Fresh(fs, Buf(), store, e) ==> Serving()
    {
      hide Formatted, StoreOk, Serves, Fresh;
      if Healthy() && Fresh(fs, Buf(), store, e) {
        FreshServes(fs, Buf(), store, e);
      }
    }

    /** The run with its first record written; `b` and `before` were the buffer and the store. */
    lemma OneExpected(b: Buffer, before: Store, e: Expected)
      requires Sound() && InRange(fs, Current()) && OnCurrent() && hostbufValid && Coherent()
      requires |b.bytes| == 512 && StoreOk(fs, before) && e.count > 0 && e.next == Current() && Fresh(fs, b, before, e)
      requires store == before[Current() := dma[..]]
      ensures Fresh(fs, Buf(), store, Expected(e.count - 1, NextRec(fs[cpmDisk], Current())))
    {
      hide Agrees, Fresh, Formatted, StoreOk;
      FreshStep(fs, b, fdc.medium, before, e, dma[..], Buf());
    }

    /** Write the addressed record, the first of the expected ones `e`, without a pre-read. */
    method WriteUnread(ghost e: Expected) returns (err: bool)
      requires Sound() && Active(cpmDisk) && InRange(fs, Current()) && !isRead
      requires e.count > 0 && e.next == Current() && Expecting() == Expected(e.count - 1, NextRec(fs[cpmDisk], Current()))
      requires Healthy() ==> Coherent() && Fresh(fs, Buf(), store, e)
      modifies this`needPreRead, this`unallocMask
      modifies this`hostbufDisk, this`hostbufTrack, this`hostbufSector, this`hostbufValid, this`hostbufDirty, this`diskError
      modifies this`lastSeekDisk, this`lastSeekTrack, this`unallocCount, this`store, fdc, hstbuf, dma
      ensures Valid() && dma[..] == old(dma[..])
      ensures old(writeType != WRDIR && (Hit() || !(hostbufValid && hostbufDirty))) ==> unchanged(fdc)
      ensures store == old(store)[Current() := dma[..]]
      ensures Healthy() ==> !err
      ensures Healthy() && writeType == WRDIR ==> Durable(fs, fdc.medium, store)
      ensures Reported(old(fdc.Tally()), old(diskError), err) && !diskError
      ensures err ==> !hostbufValid
      ensures OnCurrent() && (Healthy() ==> hostbufValid)
      ensures hstbuf[..] == WithRecord(fs, old(hstbuf[..]), Current(), dma[..])
    {
      hide Sound, BufferOk, Agrees, Fresh, Serves, Formatted, StoreOk, Durable, OthersKept, Format.Good, InBuffer, WithRecord, Floppy.Drives.Explained;
      ghost var b := Buf();
      Anticipated(e);
      SkipPreRead();
      err := RwOper();
      if Healthy() {
        OneExpected(b, old(store), e);
      }
    }

    /** `(cpm_sector & deblock_mask) == deblock_mask`. */
    static method IsLastSlot(f: Format, sector: nat) returns (last: bool)
      requires f.Good() && sector < f.cpmSectorsPerTrack
      ensures last == (f.Offset(sector) == f.deblockMask)
    {
      RecordSplit(f, sector);
      last := sector % (f.deblockMask + 1) == f.deblockMask;
    }

    /** Write the dirty buffer out, keeping it. */
    method Flush()
      requires Sound() && hostbufDirty
      requires Healthy() ==> Coherent() && Fresh(fs, Buf(), store, Expecting())
      modifies `hostbufValid, `hostbufDirty, `diskError, `lastSeekDisk, `lastSeekTrack, fdc, hstbuf
      ensures Sound() && hostbufDirty
      ensures Reported(old(fdc.Tally()), old(diskError), diskError)
      ensures Healthy() ==> Coherent() && Fresh(fs, Buf(), store, Expecting())
      ensures Healthy() ==> Durable(fs, fdc.medium, store)
    {
      if Healthy() {
        FlushDurable(fs, Buf(), fdc.medium, store);
      }
      WrtHst();
      if Healthy() {
        assert Buf() == old(Buf());
      }
    }

    /** HOME: flush and recalibrate. */
    method Home()
      requires Valid()
      modifies this, fdc, hstbuf
      ensures Valid() && Current() == old(Current()) && store == old(store)
      ensures Expecting() == old(Expecting())
      ensures Reported(old(fdc.Tally()), old(diskError), diskError)
      ensures Healthy() ==> Durable(fs, fdc.medium, store)
    {
      hide Sound, BufferOk, Agrees, Fresh, Formatted, StoreOk, Durable, Format.Good;
      if hostbufDirty {
        Flush();
      } else {
        Forget();
      }
      Recalibrate();
    }

    /** Invalidate a clean buffer. */
    method Forget()
      requires Sound() && !hostbufDirty
      requires Healthy() ==> Coherent() && Fresh(fs, Buf(), store, Expecting())
      modifies `hostbufValid
      ensures Sound()
      ensures Healthy() ==> Coherent() && Fresh(fs, Buf(), store, Expecting()) && Durable(fs, fdc.medium, store)
    {
      hide Agrees, Fresh, Formatted, StoreOk, Durable, Format.Good;
      if Healthy() {
        ForgetAgrees(fs, Buf(), fdc.medium, store);
      }
      hostbufValid := false;
      if Healthy() {
        FreshSame(fs, old(Buf()), store, Expecting(), Buf());
      }
    }

    /** The addressed drive's head goes to cylinder 0. */
    method Recalibrate()
      requires Sound()
      modifies `lastSeekDisk, `lastSeekTrack, fdc`heads, fdc`seeks
      ensures Sound()
    {
      hide BufferOk, Formatted, StoreOk, Format.Good;
      lastSeekDisk := cpmDisk;
      lastSeekTrack := 0;
      fdc.Seek(cpmDisk, 0);
    }

    /** SELDSK: a drive of another format can only be selected with a clean buffer. */
    method SelDsk(drv: nat) returns (ok: bool)
      requires Valid() && TablesMatch()
      modifies this, fdc, hstbuf
      ensures Valid() && ok == (drv <= maxDriveNum) && store == old(store)
      ensures Expecting() == old(Expecting())
      ensures Reported(old(fdc.Tally()), old(diskError), diskError)
      ensures Current() == if ok then old(Current()).(disk := drv) else old(Current())
      ensures Healthy() && ok && fd0[drv] != old(currentFormatIdx) ==> Durable(fs, fdc.medium, store)
    {
      hide Sound, BufferOk, Agrees, Fresh, Formatted, StoreOk, Durable, Format.Good, Floppy.Drives.Explained;
      Constants();
      if drv > maxDriveNum {
        return false;
      }
      SetDisk(drv);
      var fmt := fd0[drv];
      if fmt != currentFormatIdx {
        LeaveFormat();
      }
      SetFormat(fmt, drv);
      ok := true;
    }

    method SetDisk(drv: nat)
      requires Sound() && drv < 2
      modifies `cpmDisk
      ensures Sound() && cpmDisk == drv
    {
      hide BufferOk, Formatted, StoreOk, Format.Good;
      cpmDisk := drv;
    }

    /** Drive `drv`'s format becomes active. */
    method SetFormat(fmt: byte, ghost drv: nat)
      requires Sound() && TablesMatch() && drv < 2 && fmt == fd0[drv]
      requires hostbufDirty ==> fmt == currentFormatIdx
      modifies `currentFormatIdx, `format
      ensures Sound() && Active(drv)
    {
      hide BufferOk, Formatted, StoreOk, Format.Good;
      currentFormatIdx := fmt;
      format := fspa[IndexOf(fmt)];
    }

    /** Clear the dirty flag of a buffer the medium already agrees with. */
    method Clean()
      requires Sound()
      requires Healthy() ==> Coherent() && Fresh(fs, Buf(), store, Expecting()) && Durable(fs, fdc.medium, store)
      modifies `hostbufDirty
      ensures Sound() && !hostbufDirty
      ensures Healthy() ==> Coherent() && Fresh(fs, Buf(), store, Expecting())
    {
      hostbufDirty := false;
      if Healthy() {
        FreshSame(fs, old(Buf()), store, Expecting(), Buf());
      }
    }

    /** Before another format becomes active, flush a dirty buffer and mark it clean. */
    method LeaveFormat()
      requires Sound()
      requires Healthy() ==> Coherent() && Fresh(fs, Buf(), store, Expecting())
      modifies `hostbufValid, `hostbufDirty, `diskError, `lastSeekDisk, `lastSeekTrack, fdc, hstbuf
      ensures Sound() && !hostbufDirty
      ensures Reported(old(fdc.Tally()), old(diskError), diskError)
      ensures Healthy() ==> Coherent() && Fresh(fs, Buf(), store, Expecting())
      ensures Healthy() ==> Durable(fs, fdc.medium, store)
    {
      hide Agrees, Fresh, Formatted, StoreOk, Durable, Format.Good;
      if hostbufDirty {
        Flush();
        Clean();
      } else if Healthy() {
        CleanIsDurable(fs, Buf(), fdc.medium, store);
      }
    }

    /** SETTRK and SETSEC. */
    method SetTrk(track: nat)
      requires Valid()
      modifies `cpmTrack
      ensures Valid() && Current() == old(Current()).(track := track)
    {
      cpmTrack := track;
    }

    method SetSec(sector: nat)
      requires Valid()
      modifies `cpmSector
      ensures Valid() && Current() == old(Current()).(sector := sector)
    {
      cpmSector := sector;
    }

    /** The disk part of a warm boot, before the system is read back in: select A, forget any
        unallocated run, HOME. */
    method WarmBoot()
      requires Valid() && TablesMatch()
      modifies this, fdc, hstbuf
      ensures Valid() && Current() == old(Current()).(disk := 0) && store == old(store)
      ensures Reported(old(fdc.Tally()), old(diskError), diskError)
      ensures Healthy() ==> Durable(fs, fdc.medium, store)
    {
      var _ := SelDsk(0);
      ghost var mid, error := fdc.Tally(), diskError;
      unallocCount := 0;
      Home();
      ReportedOn(old(fdc.Tally()), old(diskError), mid, error, diskError);
    }

    /** A WRUAL write that does not start on a host-sector boundary loses records outside its run:
        with the buffer on another host sector, an earlier record `q` of the addressed host
        sector reads back as whatever bytes the buffer happened to hold. */
    method UnalignedLoss(q: Rec)
      requires Valid() && Healthy() && InRange(fs, Current()) && InRange(fs, q) && q in store
      requires q.disk == cpmDisk && q.track == cpmTrack && q.sector < cpmSector
      requires fs[q.disk].HostSector(q.sector) == fs[q.disk].HostSector(cpmSector)
      requires InBuffer(fs, Buf(), q) != store[q]
      modifies this, fdc, hstbuf, dma
      ensures Valid() && !InRun(fs[q.disk], old(Current()), fs[q.disk].recordsPerAllocBlock, q)
      ensures !old(hostbufDirty) ==> unchanged(fdc)
      ensures Healthy() ==> Current() == q && dma[..] != old(store[q])
    {
      hide Agrees, Fresh, Formatted, Durable, WithRecord;
      ghost var stale, data, b := InBuffer(fs, Buf(), q), dma[..], Buf();
      ghost var r := Current();
      var _ := XWrite(WRUAL);
      PatchedRecord(fs, Buffer(true, true, r.disk, r.track, fs[r.disk].HostSector(r.sector), b.bytes), r, data, Buf(), q);
      SetSec(q.sector);
      var _ := XRead();
    }
  }

  /** Two diskettes of 512-byte sectors, all bytes 0xE5. */
  function Blank(): (m: Medium)
    ensures forall d, c, h, s :: 0 <= d < 2 && 0 <= c < TRACKS && 0 <= h < 2 && 0 < s <= 15 ==>
      Place(d, c, h, s) in m && m[Place(d, c, h, s)] == seq(512, _ => 0xE5)
  {
    map d: nat, c: nat, h: nat, s: nat | d < 2 && c < TRACKS && h < 2 && s <= 15 :: Place(d, c, h, s) := seq(512, _ => 0xE5)
  }

  lemma BlankFormatted(fs: seq<Format>)
    requires fs == [MAXI_512, MAXI_512]
    ensures GoodDrives(fs) && Formatted(fs, Blank())
  {
    Maxi512Good();
    hide Blank;
    forall d, t: nat, hs: nat | 0 <= d < 2 && t < TRACKS && hs < fs[d].physSpt
      ensures var p := Physical(fs[d], d, t, hs); p in Blank() && |Blank()[p]| == fs[d].SectorBytes()
    {
      var p := Physical(fs[d], d, t, hs);
      assert p == Place(d, t, p.head, p.sector) && 0 <= p.head < 2 && 0 < p.sector <= 15;
    }
  }

  /** What is needed of them below: the first record has a value, it shares its host sector with the second,
      and an empty buffer does not hold it. */
  lemma FirstRecord(fs: seq<Format>, first: seq<byte>)
    requires fs == [MAXI_512, MAXI_512] && first == seq(RECORD, _ => 0xE5)
    ensures GoodDrives(fs) && Formatted(fs, Blank()) && MAXI_512.HostSector(0) == MAXI_512.HostSector(1) == 0
    ensures var store := map[Rec(0, 0, 0) := first]; StoreOk(fs, store) && Durable(fs, Blank(), store)
    ensures InRange(fs, Rec(0, 0, 0)) && InRange(fs, Rec(0, 0, 1))
    ensures Place(0, 0, 0, 1) in Blank() && |Blank()[Place(0, 0, 0, 1)]| == 512 && Slot(Blank()[Place(0, 0, 0, 1)], 0) == first
    ensures forall b: Buffer :: b.bytes == seq(512, _ => 0) ==> InBuffer(fs, b, Rec(0, 0, 0)) != first
  {
    BlankFormatted(fs);
    hide Formatted;
    assert MAXI_512.Offset(0) == 0;
    assert OnMedium(fs, Blank(), Rec(0, 0, 0)) == first;
    forall b: Buffer | b.bytes == seq(512, _ => 0) ensures InBuffer(fs, b, Rec(0, 0, 0)) != first {
      assert InBuffer(fs, b, Rec(0, 0, 0))[0] == 0;
    }
  }

  /** Such a loss on two freshly formatted diskettes: after cold boot the second record is announced as the
      first of a new block, and the first record, never written, then reads differently from what its
      diskette held, though no transfer has failed, whatever the controller would have answered. */
  method LostRecord(answers: nat -> Floppy.Outcome) returns (bios: DiskBios, ghost before: seq<byte>)
    ensures fresh(bios) && bios.Valid() && bios.Healthy() && bios.fdc.failures == 0
    ensures bios.Current() == Rec(0, 0, 0) && before == Slot(Blank()[Place(0, 0, 0, 1)], 0)
    ensures bios.dma[..] != before
  {
    var codes := [8, 8];
    before := seq(RECORD, _ => 0xE5);
    assert FormatsOf(codes) == [MAXI_512, MAXI_512];
    FirstRecord(FormatsOf(codes), before);
    hide *;
    var fdc := new Floppy.Drives([0, 0], Blank(), answers);
    bios := Booted(codes, fdc, before);
    bios.UnalignedLoss(Rec(0, 0, 0));
  }

  /** Cold boot, and SETSEC 1. */
  method Booted(codes: seq<byte>, fdc: Floppy.Drives, ghost first: seq<byte>) returns (bios: DiskBios)
    requires |codes| == 2 && FormatsOf(codes) == [MAXI_512, MAXI_512] && first == seq(RECORD, _ => 0xE5)
    requires fdc.heads == [0, 0] && fdc.medium == Blank()
    modifies fdc`heads, fdc`seeks
    ensures fresh(bios) && bios.fdc == fdc && bios.Valid() && bios.Healthy() && !bios.hostbufDirty
    ensures bios.store == map[Rec(0, 0, 0) := first] && bios.fs == [MAXI_512, MAXI_512]
    ensures bios.Current() == Rec(0, 0, 1) && bios.hstbuf[..] == seq(512, _ => 0)
    ensures fresh(bios.hstbuf) && fresh(bios.dma)
  {
    FirstRecord(FormatsOf(codes), first);
    hide *;
    bios := new DiskBios(codes, 1, fdc, map[Rec(0, 0, 0) := first]);
    bios.SetSec(1);
  }
}
