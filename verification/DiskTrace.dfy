/** Whole runs of disk BIOS calls: what a READ returns in terms of the calls before it. */
module DiskTrace {
  import opened Bytes
  import opened DeblockCache
  import opened DiskFormat
  import opened RecordStore
  import opened Wrappers
  import Floppy

  datatype Call =
    | SelDsk(drive: nat)
    | SetTrk(track: nat)
    | SetSec(sector: nat)
    | Home
    | WarmBoot
    | Read
    | Write(wt: byte, data: seq<byte>)

  /** The state a caller can see: the addressed record and the record store. */
  datatype Disk = Disk(at: Rec, store: Store)

  /** READ and WRITE are called for records of the diskette, with 128 bytes. */
  ghost predicate Callable(fs: seq<Format>, d: Disk, c: Call) {
    && (c.Read? || c.Write? ==> InRange(fs, d.at))
    && (c.Write? ==> |c.data| == RECORD)
  }

  ghost function Apply(fs: seq<Format>, maxDrive: nat, d: Disk, c: Call): Disk
    requires Callable(fs, d, c)
  {
    match c
    case SelDsk(drive) => if drive <= maxDrive then d.(at := d.at.(disk := drive)) else d
    case SetTrk(track) => d.(at := d.at.(track := track))
    case SetSec(sector) => d.(at := d.at.(sector := sector))
    case Home => d
    case WarmBoot => d.(at := d.at.(disk := 0))
    case Read => d
    case Write(wt, data) => d.(store := Written(fs, d.store, d.at, wt, data))
  }

  ghost predicate AllCallable(fs: seq<Format>, maxDrive: nat, d: Disk, cs: seq<Call>)
    decreases |cs|, 0
  {
    cs == [] ||
    (var n := |cs| - 1;
     AllCallable(fs, maxDrive, d, cs[..n]) && Callable(fs, After(fs, maxDrive, d, cs[..n]), cs[n]))
  }

  /** The disk after a run of calls. */
  ghost function After(fs: seq<Format>, maxDrive: nat, d: Disk, cs: seq<Call>): Disk
    requires AllCallable(fs, maxDrive, d, cs)
    decreases |cs|, 1
  {
    if cs == [] then d
    else
      var n := |cs| - 1;
      Apply(fs, maxDrive, After(fs, maxDrive, d, cs[..n]), cs[n])
  }

  /** Going back from the end of a run to the last call that says what `r` holds: a write of
      `r` itself, or a WRUAL write elsewhere in its block. */
  ghost function LastValue(fs: seq<Format>, maxDrive: nat, d: Disk, cs: seq<Call>, r: Rec): Option<seq<byte>>
    requires AllCallable(fs, maxDrive, d, cs)
  {
    if cs == [] then
      if r in d.store then Some(d.store[r]) else None
    else
      var n := |cs| - 1;
      var at := After(fs, maxDrive, d, cs[..n]).at;
      if cs[n].Write? && at == r then Some(cs[n].data)
      else if cs[n].Write? && cs[n].wt == WRUAL && InHull(fs[at.disk], at, fs[at.disk].recordsPerAllocBlock, r) then None
      else LastValue(fs, maxDrive, d, cs[..n], r)
  }

  /** The record store is that history. */
  lemma {:induction false} StoreIsLastValue(fs: seq<Format>, maxDrive: nat, d: Disk, cs: seq<Call>, r: Rec)
    requires AllCallable(fs, maxDrive, d, cs)
    ensures var store := After(fs, maxDrive, d, cs).store;
            LastValue(fs, maxDrive, d, cs, r) == if r in store then Some(store[r]) else None
  {
    if cs != [] {
      StoreIsLastValue(fs, maxDrive, d, cs[..|cs| - 1], r);
    }
  }

  /** Every WRUAL write of the run starts on a host-sector boundary. */
  ghost predicate Aligned(fs: seq<Format>, maxDrive: nat, d: Disk, cs: seq<Call>)
    requires AllCallable(fs, maxDrive, d, cs)
  {
    cs == [] ||
    (var n := |cs| - 1;
     var at := After(fs, maxDrive, d, cs[..n]).at;
     && Aligned(fs, maxDrive, d, cs[..n])
     && (cs[n].Write? && cs[n].wt == WRUAL ==> fs[at.disk].Offset(at.sector) == 0))
  }

  /** `LastValue` with only the announced run of records undefined by a WRUAL write. */
  ghost function LastValueOfRun(fs: seq<Format>, maxDrive: nat, d: Disk, cs: seq<Call>, r: Rec): Option<seq<byte>>
    requires AllCallable(fs, maxDrive, d, cs)
  {
    if cs == [] then
      if r in d.store then Some(d.store[r]) else None
    else
      var n := |cs| - 1;
      var at := After(fs, maxDrive, d, cs[..n]).at;
      if cs[n].Write? && at == r then Some(cs[n].data)
      else if cs[n].Write? && cs[n].wt == WRUAL && InRun(fs[at.disk], at, fs[at.disk].recordsPerAllocBlock, r) then None
      else LastValueOfRun(fs, maxDrive, d, cs[..n], r)
  }

  /** On such runs a WRUAL write costs the rest of its block and nothing else. */
  lemma {:induction false} AlignedHistory(fs: seq<Format>, maxDrive: nat, d: Disk, cs: seq<Call>, r: Rec)
    requires GoodDrives(fs) && InRange(fs, r)
    requires AllCallable(fs, maxDrive, d, cs) && Aligned(fs, maxDrive, d, cs)
    ensures LastValue(fs, maxDrive, d, cs, r) == LastValueOfRun(fs, maxDrive, d, cs, r)
  {
    if cs != [] {
      var n := |cs| - 1;
      AlignedHistory(fs, maxDrive, d, cs[..n], r);
      var at := After(fs, maxDrive, d, cs[..n]).at;
      if cs[n].Write? && cs[n].wt == WRUAL && at.disk == r.disk {
        AlignedHull(fs[at.disk], at, r);
      }
    }
  }

  lemma {:induction false} CallablePrefix(fs: seq<Format>, maxDrive: nat, d: Disk, cs: seq<Call>, k: nat)
    requires AllCallable(fs, maxDrive, d, cs) && k <= |cs|
    ensures AllCallable(fs, maxDrive, d, cs[..k])
  {
    if k < |cs| {
      CallablePrefix(fs, maxDrive, d, cs[..|cs| - 1], k);
      assert cs[..|cs| - 1][..k] == cs[..k];
    } else {
      assert cs[..k] == cs;
    }
  }

  /** Run the driver through a list of calls, collecting what the READs deliver and the errors that are
      reported. No transfer fails, and no error is reported or left pending, exactly if the controller never
      answers that a drive is not ready nor with ten errors in a row; then every READ delivers the last
      value of its record, when it has one. */
  method Replay(bios: DiskBios, cs: seq<Call>) returns (results: seq<seq<byte>>, errors: seq<bool>)
    requires bios.Valid() && bios.TablesMatch()
    requires AllCallable(bios.fs, bios.maxDriveNum, Disk(bios.Current(), bios.store), cs)
    modifies bios, bios.fdc, bios.hstbuf, bios.dma
    ensures bios.Valid() && |results| == |errors| == |cs|
    ensures Disk(bios.Current(), bios.store)
            == After(bios.fs, bios.maxDriveNum, old(Disk(bios.Current(), bios.store)), cs)
    ensures bios.Healthy() ==> forall i :: 0 <= i < |cs| && cs[i].Read? ==>
      Delivered(bios.fs, bios.maxDriveNum, old(Disk(bios.Current(), bios.store)), cs, i, results[i])
    ensures bios.Reported(old(bios.fdc.Tally()), old(bios.diskError), true in errors || bios.diskError)
    ensures bios.Healthy() <==> old(bios.Healthy()) && !bios.fdc.Broken(old(bios.fdc.commands), bios.fdc.commands)
    ensures bios.Healthy() ==> true !in errors && !bios.diskError
    ensures old(bios.Healthy()) && (forall k: nat | old(bios.fdc.commands) <= k < bios.fdc.commands :: bios.fdc.answers(k).Normal?)
      ==> bios.Healthy()
  {
    hide Agrees, Fresh, Formatted, StoreOk, Format.Good, DiskBios.Sound, DiskBios.Active, DiskBios.Valid, Floppy.Drives.Explained, Floppy.Drives.Broken;
    ghost var before, pending, healthy := bios.fdc.Tally(), bios.diskError, bios.Healthy();
    NoErrorYet(bios);
    ghost var fs, d := bios.fs, Disk(bios.Current(), bios.store);
    results, errors := [], [];
    for i := 0 to |cs|
      invariant bios.Valid() && |results| == |errors| == i
      invariant AllCallable(fs, bios.maxDriveNum, d, cs[..i])
      invariant Disk(bios.Current(), bios.store) == After(fs, bios.maxDriveNum, d, cs[..i])
      invariant bios.Reported(old(bios.fdc.Tally()), old(bios.diskError), true in errors || bios.diskError)
      invariant bios.Healthy() ==> forall k :: 0 <= k < i && cs[k].Read? ==>
        Delivered(fs, bios.maxDriveNum, d, cs, k, results[k])
    {
      CallablePrefix(fs, bios.maxDriveNum, d, cs, i + 1);
      assert cs[..i + 1][..i] == cs[..i];
      ghost var disk := Disk(bios.Current(), bios.store);
      ghost var mid, waiting, failed := bios.fdc.Tally(), bios.diskError, true in errors;
      var err := Perform(bios, cs[i]);
      ReportedAgain(bios, before, pending, mid, failed, waiting, err);
      if cs[i].Read? {
        StoreIsLastValue(fs, bios.maxDriveNum, d, cs[..i], disk.at);
      }
      results, errors := results + [bios.dma[..]], errors + [err];
    }
    assert cs[..|cs|] == cs;
    EndOfRun(bios, before, pending, healthy, true in errors || bios.diskError);
  }

  lemma NoErrorYet(bios: DiskBios)
    requires bios.Valid()
    ensures bios.fdc.failures >= bios.failuresBefore && (bios.Healthy() ==> !bios.diskError)
  {
  }

  lemma ReportedAgain(bios: DiskBios, before: Floppy.Counts, pending: bool, mid: Floppy.Counts, failed: bool, error: bool, err: bool)
    requires bios.fdc.Ran(before, mid) && (failed || error <==> pending || before.failures < mid.failures)
    requires bios.Reported(mid, error, err || bios.diskError)
    ensures bios.Reported(before, pending, failed || err || bios.diskError)
  {
    bios.fdc.RanOn(before, mid, bios.fdc.Tally());
  }

  lemma EndOfRun(bios: DiskBios, before: Floppy.Counts, pending: bool, healthy: bool, error: bool)
    requires bios.Valid() && bios.Reported(before, pending, error) && (bios.Healthy() ==> !pending)
    requires healthy <==> before.failures == bios.failuresBefore
    requires before.failures >= bios.failuresBefore
    ensures bios.Healthy() <==> healthy && !bios.fdc.Broken(before.commands, bios.fdc.commands)
    ensures bios.Healthy() ==> !error
    ensures healthy && (forall k: nat | before.commands <= k < bios.fdc.commands :: bios.fdc.answers(k).Normal?) ==> bios.Healthy()
  {
    hide Agrees, Fresh, Formatted, StoreOk, Format.Good, DiskBios.Sound, DiskBios.Active, DiskBios.Coherent;
    if forall k: nat | before.commands <= k < bios.fdc.commands :: bios.fdc.answers(k).Normal? {
      bios.fdc.AllNormal(before.commands, bios.fdc.commands);
    }
  }

  /** `result` is the last value the calls before the `i`-th give to the record it reads. */
  ghost predicate Delivered(fs: seq<Format>, maxDrive: nat, d: Disk, cs: seq<Call>, i: nat, result: seq<byte>)
    requires AllCallable(fs, maxDrive, d, cs) && i < |cs|
  {
    CallablePrefix(fs, maxDrive, d, cs, i);
    var last := LastValue(fs, maxDrive, d, cs[..i], After(fs, maxDrive, d, cs[..i]).at);
    last.Some? ==> result == last.value
  }

  /** One call of the driver; only READ and WRITE report errors. */
  method Perform(bios: DiskBios, c: Call) returns (err: bool)
    requires bios.Valid() && bios.TablesMatch()
    requires Callable(bios.fs, Disk(bios.Current(), bios.store), c)
    modifies bios, bios.fdc, bios.hstbuf, bios.dma
    ensures bios.Valid()
    ensures Disk(bios.Current(), bios.store)
            == Apply(bios.fs, bios.maxDriveNum, old(Disk(bios.Current(), bios.store)), c)
    ensures bios.Healthy() && c.Read? && bios.Current() in bios.store ==> bios.dma[..] == bios.store[bios.Current()]
    ensures bios.Reported(old(bios.fdc.Tally()), old(bios.diskError), err || bios.diskError)
    ensures if c.Read? || c.Write? then !bios.diskError else !err
  {
    err := false;
    match c
    case SelDsk(drive) => var _ := bios.SelDsk(drive);
    case SetTrk(track) => bios.SetTrk(track);
    case SetSec(sector) => bios.SetSec(sector);
    case Home => bios.Home();
    case WarmBoot => bios.WarmBoot();
    case Read => err := bios.XRead();
    case Write(wt, data) =>
      forall i | 0 <= i < RECORD {
        bios.dma[i] := data[i];
      }
      assert bios.dma[..] == data;
      err := bios.XWrite(wt);
  }
}
