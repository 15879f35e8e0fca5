/** The disk formats of rcbios-in-c/bios.c: the FSPA and FDF tables, and the map
    from a 128-byte record to a physical sector and an offset in it. */
module DiskFormat {
  import opened Arithmetic
  import opened Bytes
  import Skew

  const RECORD: nat := 128
  const TRACKS: nat := 77

  /** One row of `fspa` joined with the same row of `fdf`; `physSpt` counts both sides. */
  datatype Format = Format(
    recordsPerAllocBlock: nat,
    cpmSectorsPerTrack: nat,
    deblockMask: nat,
    deblockShift: nat,
    sectorXlate: seq<int>,
    physSpt: nat,
    dmaCount: nat,
    eot: nat)
  {
    /** Records per host sector. */
    function Ratio(): nat { deblockMask + 1 }

    /** Bytes in a host sector. */
    function SectorBytes(): nat { RECORD * Ratio() }

    /** The host sector a record is in: how many whole host sectors precede it. */
    function HostSector(sector: nat): nat {
      if sector < Ratio() then 0 else 1 + HostSector(sector - Ratio())
    }

    /** The record's place in its host sector. */
    function Offset(sector: nat): nat {
      if sector < Ratio() then sector else Offset(sector - Ratio())
    }

    /** What the disk code relies on in a row of the tables. */
    ghost predicate Good() {
      && ((deblockMask == 0 && deblockShift == 1 && dmaCount == 127 && cpmSectorsPerTrack == physSpt)
          || (deblockMask == 1 && deblockShift == 2 && dmaCount == 255 && cpmSectorsPerTrack == 2 * physSpt)
          || (deblockMask == 3 && deblockShift == 3 && dmaCount == 511 && cpmSectorsPerTrack == 4 * physSpt))
      && 0 < physSpt <= 2 * eot <= 256 && eot <= |sectorXlate|
      && (recordsPerAllocBlock == 8 || recordsPerAllocBlock == 16) && recordsPerAllocBlock <= cpmSectorsPerTrack
      && Skew.NoRepeats(sectorXlate, eot)
      && (forall i :: 0 <= i < eot ==> 1 <= sectorXlate[i] <= eot)
    }
  }

  const MAXI_128: Format := Format(8, 26, 0, 1, Skew.MAXI_128, 26, 127, 26)
  const MAXI_512: Format := Format(16, 120, 3, 3, Skew.MAXI_512, 30, 511, 15)
  const MINI_512: Format := Format(8, 26, 0, 1, Skew.IDENTITY, 26, 127, 26)
  const MAXI_256: Format := Format(8, 104, 1, 2, Skew.IDENTITY, 52, 255, 26)

  const FSPA: seq<Format> := [MAXI_128, MAXI_512, MINI_512, MAXI_256]

  lemma Maxi128Good()
    ensures MAXI_128.Good()
  {
    Skew.Maxi128IsSkew6();
    RowGood(MAXI_128);
  }

  lemma Maxi512Good()
    ensures MAXI_512.Good()
  {
    Skew.Maxi512IsSkew4();
    RowGood(MAXI_512);
  }

  lemma IdentityGood()
    ensures MINI_512.Good() && MAXI_256.Good()
  {
    Skew.IdentityIsSkew1();
    RowGood(MINI_512);
    RowGood(MAXI_256);
  }

  lemma RowGood(f: Format)
    requires (f.deblockMask, f.deblockShift, f.dmaCount) in {(0, 1, 127), (1, 2, 255), (3, 3, 511)}
    requires f.recordsPerAllocBlock == 8 || f.recordsPerAllocBlock == 16
    requires f.deblockMask == 0 ==> f.cpmSectorsPerTrack == f.physSpt
    requires f.deblockMask == 1 ==> f.cpmSectorsPerTrack == 2 * f.physSpt
    requires f.deblockMask == 3 ==> f.cpmSectorsPerTrack == 4 * f.physSpt
    requires 0 < f.physSpt <= 2 * f.eot && f.recordsPerAllocBlock <= f.cpmSectorsPerTrack
    requires |f.sectorXlate| == f.eot <= 26
    requires Skew.Distinct(f.sectorXlate) && Skew.InRange(f.sectorXlate, f.eot)
    ensures f.Good()
  {
    assert f.sectorXlate == f.sectorXlate[..f.eot];
    Skew.DistinctNoRepeats(f.sectorXlate, f.eot);
  }

  lemma FspaGood()
    ensures forall f :: f in FSPA ==> f.Good()
  {
    Maxi128Good();
    Maxi512Good();
    IdentityGood();
  }

  /** `(fmt >> 3) & 3` of a drive's format code. */
  function IndexOf(code: byte): (i: nat)
    ensures i < 4
  {
    code / 8 % 4
  }

  /** `x >> n`. */
  function Shr(x: nat, n: nat): nat {
    if n == 0 then x else Shr(x / 2, n - 1)
  }

  lemma ShrSmall(x: nat)
    ensures Shr(x, 0) == x && Shr(x, 1) == x / 2 && Shr(x, 2) == x / 4
  {
    assert Shr(x, 1) == Shr(x / 2, 0);
    assert Shr(x, 2) == Shr(x / 2, 1) == Shr(x / 2 / 2, 0);
  }

  /** A physical sector: drive, cylinder, head and sector id. */
  datatype Place = Place(drive: nat, cylinder: nat, head: nat, sector: int)

  /** `chktrk`: a host sector number of a cylinder split over the sides and skewed. */
  function Physical(f: Format, drive: nat, track: nat, hostSector: nat): Place
    requires f.eot <= |f.sectorXlate| && hostSector < 2 * f.eot
  {
    if hostSector >= f.eot
    then Place(drive, track, 1, f.sectorXlate[hostSector - f.eot])
    else Place(drive, track, 0, f.sectorXlate[hostSector])
  }

  lemma {:induction false} SplitValue(f: Format, sector: nat)
    requires f.Good()
    ensures f.deblockMask == 0 ==> f.HostSector(sector) == sector && f.Offset(sector) == 0
    ensures f.deblockMask == 1 ==> f.HostSector(sector) == sector / 2 && f.Offset(sector) == sector % 2
    ensures f.deblockMask == 3 ==> f.HostSector(sector) == sector / 4 && f.Offset(sector) == sector % 4
    ensures f.Offset(sector) < f.Ratio()
  {
    if sector >= f.Ratio() {
      SplitValue(f, sector - f.Ratio());
    }
  }

  lemma HostSectorBound(f: Format, sector: nat)
    requires f.Good() && sector < f.cpmSectorsPerTrack
    ensures f.HostSector(sector) < f.physSpt && f.Offset(sector) < f.Ratio()
  {
    SplitValue(f, sector);
  }

  /** Two records of one host sector have different offsets. */
  lemma OffsetsDiffer(f: Format, sector: nat, sector': nat)
    requires f.Good() && sector != sector' && f.HostSector(sector) == f.HostSector(sector')
    ensures f.Offset(sector) != f.Offset(sector')
  {
    SplitValue(f, sector);
    SplitValue(f, sector');
  }

  /** The shift and mask of the driver compute the host sector and the offset. */
  lemma RecordSplit(f: Format, sector: nat)
    requires f.Good() && sector < f.cpmSectorsPerTrack
    ensures Shr(sector, f.deblockShift - 1) == f.HostSector(sector) < f.physSpt <= 256
    ensures f.Offset(sector) == sector % (f.deblockMask + 1) < f.Ratio()
  {
    ShrSmall(sector);
    SplitValue(f, sector);
  }

  /** Where a record is: its physical sector and the byte offset in it. */
  function Locate(f: Format, drive: nat, track: nat, sector: nat): (Place, nat)
    requires f.Good() && sector < f.cpmSectorsPerTrack
  {
    HostSectorBound(f, sector);
    (Physical(f, drive, track, f.HostSector(sector)), RECORD * f.Offset(sector))
  }

  /** Every host sector has a physical sector of its own. */
  lemma PhysicalInjective(f: Format, drive: nat, track: nat, hs: nat, drive': nat, track': nat, hs': nat)
    requires f.Good() && hs < 2 * f.eot && hs' < 2 * f.eot
    requires Physical(f, drive, track, hs) == Physical(f, drive', track', hs')
    ensures drive == drive' && track == track' && hs == hs'
  {
    Skew.NoRepeatsDistinct(f.sectorXlate, f.eot);
    var t := f.sectorXlate[..f.eot];
    var i, j := if hs >= f.eot then hs - f.eot else hs, if hs' >= f.eot then hs' - f.eot else hs';
    assert t[i] == t[j];
  }

  /** The map from records to sectors and offsets is injective and in range, on any pair of drives. */
  lemma LocateInjective(f: Format, g: Format, drive: nat, track: nat, sector: nat, drive': nat, track': nat, sector': nat)
    requires f.Good() && g.Good() && (drive == drive' ==> f == g)
    requires sector < f.cpmSectorsPerTrack && sector' < g.cpmSectorsPerTrack
    ensures Locate(f, drive, track, sector) == Locate(g, drive', track', sector')
            <==> drive == drive' && track == track' && sector == sector'
    ensures var (p, offset) := Locate(f, drive, track, sector);
            && p.head <= 1 && 1 <= p.sector <= f.eot && offset + RECORD <= f.SectorBytes()
  {
    HostSectorBound(f, sector);
    HostSectorBound(g, sector');
    var hs, hs' := f.HostSector(sector), g.HostSector(sector');
    if drive == drive' && Physical(f, drive, track, hs) == Physical(g, drive', track', hs') {
      PhysicalInjective(f, drive, track, hs, drive', track', hs');
      if sector != sector' {
        OffsetsDiffer(f, sector, sector');
      }
    }
  }

  // The same map, restated by the two host-side checkers.

  /** `compute_track_cksum` of verify_checksums.py: side, physical sector, byte offset. */
  function ChecksumMap(cpmSec: nat, deblockShift: nat, perSide: nat, xlate: seq<int>): (nat, int, nat)
    requires deblockShift >= 1 && perSide <= |xlate| && Shr(cpmSec, deblockShift - 1) < 2 * perSide
  {
    var hostSector := Shr(cpmSec, deblockShift - 1);
    var deblockMask := Power2(deblockShift - 1) - 1;
    var offset := cpmSec % (deblockMask + 1) * 128;
    if hostSector < perSide then (0, xlate[hostSector], offset) else (1, xlate[hostSector - perSide], offset)
  }

  /** `extract_ccp_bdos_from_imd` of verify_against_imd.py, for 512-byte sectors. */
  function ExtractMap(cpm: nat, spt: nat, xlt: seq<int>): (nat, int, nat)
    requires 0 < spt <= |xlt|
  {
    var host := cpm / 4;
    (host / spt, xlt[host % spt], cpm % 4 * 128)
  }

  /** The track checksum walks the BIOS's map in every format. */
  lemma ChecksumAgrees(f: Format, drive: nat, track: nat, sector: nat)
    requires f.Good() && sector < f.cpmSectorsPerTrack
    ensures f.deblockShift >= 1 && Shr(sector, f.deblockShift - 1) < 2 * f.eot
    ensures var (p, offset) := Locate(f, drive, track, sector);
            (p.head, p.sector, offset) == ChecksumMap(sector, f.deblockShift, f.eot, f.sectorXlate)
  {
    RecordSplit(f, sector);
    assert Power2(0) == 1 && Power2(1) == 2 * Power2(0) && Power2(2) == 2 * Power2(1);
  }

  /** ... and so does the CCP extractor on formats of 512-byte sectors. */
  lemma ExtractAgrees(f: Format, drive: nat, track: nat, sector: nat)
    requires f.Good() && f.deblockMask == 3 && sector < f.cpmSectorsPerTrack
    ensures f.eot > 0
    ensures var (p, offset) := Locate(f, drive, track, sector);
            (p.head, p.sector, offset) == ExtractMap(sector, f.eot, f.sectorXlate)
  {
    RecordSplit(f, sector);
    SplitValue(f, sector);
    var host := f.HostSector(sector);
    if host < f.eot {
      DivModUnique(0, host, f.eot);
    } else {
      DivModUnique(1, host - f.eot, f.eot);
    }
  }
}
