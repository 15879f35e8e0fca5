# RC702 verification models

Dafny models of the parts of the RC702 repository that are hardest to get right by reading, with proofs
that they do what they are for. Code that works step by step is modelled step by step: classes with the
source's fields, arrays changed in place, loops with invariants. Each such method is proved against a
specification function, and the promises are lemmas about those functions. Run `dafny verify
dfyconfig.toml` to check everything.

- **Disk blocking and deblocking** (`rcbios-in-c/bios.c`). `DeblockCache` is the one-sector write-back
  cache with its skipped pre-reads, per-drive formats, skew, side split and remembered head position, over
  the drives of `Floppy`, whose controller may answer each command in any way. `RecordStore` is the flat
  store of 128-byte records it implements; `DiskTrace` states that for whole runs of BIOS calls on two
  drives of any formats. A WRUAL write undefines the host sectors its block touches. That is exactly the
  block if and only if the write starts on a host-sector boundary (`HullIsRunIffAligned`); `UnalignedLoss`
  is what happens otherwise, `LostRecord` an instance. `DiskFormat` is the address map and its two
  restatements in Python, `Skew` the skew tables.
- **Terminal** (`rcbios-in-c/bios.c`). `Screen` specifies a 25 by 80 grid of cells with background marks
  and `ControlBytes` what each byte does to it, cell by cell; `CrtDriver` is the driver on a flat screen
  and a packed bitmap; `Blocks`, `Bitmap` and `CrtView` connect them.
- **Receive rings and RTS flow control** (`rcbios-in-c/bios.c`, `cpnos-rom/isr.c`,
  `cpnos-rom/transport_pio.c`, `cpnos-rom/resident.c`). `ReceiveRing` and `FlowControl`: all interleavings
  of sender, interrupt and reader. Lossless exactly when the margin above the threshold covers the
  sender's delay.
- **Install file with a self-check** (`rcbios-in-c/mk_sysgen_hex.py`, `cpm/apply_hex.py`). `Z80` executes
  the instructions used; `Validator` proves the generated program; `IntelHex` and `Sysgen` carry it from
  BIOS image to verdict. `HexFiles` says what any such text file means.
- **SDLC receiver** (`rcbios-in-c/sdlc_receiver.py`). `SdlcReceiver`, `SdlcLink`, `SdlcDpll` and `Crc`:
  the receive chain inverts a sender after RFC 1662, sections 5.1 and 5.2 and appendix C.2, with either
  way of recovering bits from samples. `SdlcDpll` gives the exact condition under which the phase-locked
  one works: late transitions never re-phase it, so a slow sender is lost in the end, contrary to the
  tolerance its comment names; jitter below a quarter of a cell around a regular clock is tolerated.
- **Disk images and boot PROM** (`rcbios/patch_bios.py`, `rcbios/imd2raw.py`, `autoload-in-c/rom.c`).
  `Imd`, `ImdFiles`, `PatchBios` and `BootProm`: a patched image re-parses with only Track 0 changed, and
  a PROM booting from it loads exactly the BIOS followed by the old tail (`PatchAndBoot`).
- **CP/NET framing** (`cpnet/server.py`, `cpnet/cpnet12_client.py`, `cpnos-rom/cpnet_pio_server.py`,
  `cpnos-rom/transport_pio.c`). `CpnetFrames` and `Scb`.
- **Network boot** (`cpnos-rom/netboot_mpm.c`, `cpnos-rom/netboot_server.py`). `Netboot`: the C loader
  against the Python server.

`Arithmetic`, `Bytes` and `Wrappers` are shared helpers.

Where code and comments disagree the code is followed: the limit of the network boot is 0xEE00 (the
comment says 0xED00), and the ten-sector rule of the PROM hangs on the top bit of the disk type (the
comment speaks of maxi disks). A property that turned out false of the code has its exact condition beside
it: `HullIsRunIffAligned`, `LosslessIffAmple`, `PioSendsFrameIffSmall`, `RecoveredIffTracks`,
`EmptyImage`, `ReadableIffSectors`, `LegacyBoot`, `SplitsIffNonZero`, `TrackReadsBackIff`.

## Model

| member | source | states |
|---|---|---|
| `DeblockCache.DiskBios.constructor` | rcbios-in-c/bios.c:780-817 | after cold boot the driver is valid over any part of what the diskettes hold |
| `DeblockCache.DiskBios.ChkTrk` | rcbios-in-c/bios.c:560-605 | the physical sector of the buffered host sector is addressed and its drive's head is on that track, although the seek is skipped exactly when the remembered position says so |
| `DeblockCache.DiskBios.WrtHst` | rcbios-in-c/bios.c:611-615 | on success exactly the buffered host sector changes on the medium; a failed write clears valid and raises the error; which it is follows from the controller's answers |
| `DeblockCache.DiskBios.RdHst` | rcbios-in-c/bios.c:618-626 | on success the buffer starts with the bytes of its sector and the medium is unchanged; which it is follows from the controller's answers; the run of expected records ends unless the mask is set |
| `Floppy.Drives.SecRw` | rcbios-in-c/bios.c:631-667 | a transfer succeeds exactly if one of at most ten attempts ends normally, with errors only before it, and is given up early only for a drive that is not ready; the fifth error recalibrates; after success buffer and sector agree, and no other sector, and no buffer byte past the transfer, ever changes |
| `Floppy.Drives.TriedIff` | rcbios-in-c/bios.c:637-664 | which answers of the controller make a transfer succeed |
| `Floppy.Drives.RanOn` | rcbios-in-c/bios.c:637-664 | over any stretch of transfers: none has failed if and only if the controller never answered that a drive is not ready, nor with ten errors in a row |
| `DeblockCache.DiskBios.Evict` | rcbios-in-c/bios.c:678-685 | if all goes well the medium alone holds every defined record afterwards |
| `DeblockCache.DiskBios.TurnOver` | rcbios-in-c/bios.c:687-694 | the buffer belongs to the addressed host sector and no other record has been lost, with or without the pre-read |
| `DeblockCache.DiskBios.Fill` | rcbios-in-c/bios.c:676-694 | as `TurnOver`, and a buffer that already matches keeps its bytes without a transfer |
| `DeblockCache.DiskBios.DeliverRecord` | rcbios-in-c/bios.c:701-703 | the record's bytes of the buffer, which are its stored value when it is defined |
| `DeblockCache.DiskBios.AcceptRecord` | rcbios-in-c/bios.c:704-708 | buffer, dirty flag and medium agree with the store in which just this record has changed |
| `DeblockCache.DiskBios.Finish` | rcbios-in-c/bios.c:710-725 | an error is reported once and invalidates the buffer; after a directory write the medium alone holds everything |
| `DeblockCache.DiskBios.RwOper` | rcbios-in-c/bios.c:671-726 | one record read or written in a flat record store, provided the caller vouches for the rest of a host sector it does not pre-read |
| `DeblockCache.DiskBios.XRead` | rcbios-in-c/bios.c:1746-1753 | READ returns the value last written to a defined record; it reports an error exactly if one was pending or a transfer of its own failed |
| `DeblockCache.DiskBios.XWrite` | rcbios-in-c/bios.c:1755-1804 | WRITE does what the flat store's WRITE does for each of the three write types; a directory write is on the medium when it returns |
| `DeblockCache.DiskBios.AnnounceRun` | rcbios-in-c/bios.c:1760-1769 | a WRUAL write undefines just the host sectors its block touches, and nothing is promised about them |
| `DeblockCache.DiskBios.ContinueRun` | rcbios-in-c/bios.c:1771-1798 | a record of an announced run is written without a pre-read and no other defined record is lost |
| `DeblockCache.DiskBios.WriteAllocated` | rcbios-in-c/bios.c:1800-1803 | any other record is written with a pre-read unless it fills its host sector, and ends the run |
| `DeblockCache.DiskBios.Home` | rcbios-in-c/bios.c:1641-1655 | after HOME the medium alone holds every defined record, while no transfer has failed; nothing in the store changes, nor what is known of an announced run; a failed transfer leaves an error pending |
| `DeblockCache.DiskBios.SelDsk` | rcbios-in-c/bios.c:1671-1723 | selecting a drive of another format leaves everything on the medium; the active format is always the selected drive's and a dirty buffer's; an announced run stays as known; a failed transfer leaves an error pending |
| `DeblockCache.DiskBios.WarmBoot` | rcbios-in-c/bios.c:823-830 | a warm boot keeps the record store and leaves it on the medium; a failed transfer leaves an error pending |
| `DeblockCache.DiskBios.UnalignedLoss` | rcbios-in-c/bios.c:1755-1804 | when a WRUAL write starts in the middle of a host sector, an earlier record of that sector, outside the run, reads back changed |
| `DeblockCache.LostRecord` | rcbios-in-c/bios.c:1755-1804 | such a loss from cold boot on freshly formatted diskettes, with no failed transfer |
| `RecordStore.HullIsRunIffAligned` | rcbios-in-c/bios.c:1755-1804 | skipping pre-reads gives up exactly the records of the run if and only if the run starts on a host-sector boundary |
| `RecordStore.AlignedWrite` | rcbios-in-c/bios.c:1755-1804 | an aligned WRUAL write undefines the rest of its run and changes no other record |
| `RecordStore.FlushDurable` | rcbios-in-c/bios.c:683-684 | writing a valid buffer out leaves nothing that only the buffer knows, for either value of the dirty flag |
| `RecordStore.FillAgrees` | rcbios-in-c/bios.c:692-694 | a freshly read, clean buffer agrees with the store |
| `RecordStore.WriteAgrees` | rcbios-in-c/bios.c:704-708 | copying a record in is right for all records that were in the buffer or on the medium |
| `RecordStore.FreshStep` | rcbios-in-c/bios.c:1771-1798 | the knowledge about an announced run survives the step to the next record, also across tracks and out of a host sector |
| `RecordStore.ServesKeeps` | rcbios-in-c/bios.c:687-694 | an invalid or stale buffer whose bytes serve for a host sector can be turned over to it without reading |
| `RecordStore.ForgetAgrees` | rcbios-in-c/bios.c:1645-1647 | a clean buffer may be invalidated |
| `DiskTrace.StoreIsLastValue` | rcbios-in-c/bios.c:1641-1804 | over any run of calls the store holds what looking back through the run gives: the last write, unless a WRUAL write elsewhere in the block came after it |
| `DiskTrace.AlignedHistory` | rcbios-in-c/bios.c:1755-1804 | on runs whose WRUAL writes are aligned a WRUAL write costs the rest of its own run and nothing else |
| `DiskTrace.Perform` | rcbios-in-c/bios.c:1641-1804 | one BIOS call has the effect of the flat store's call; an error is reported by it or left pending exactly if one was pending or a transfer in it failed |
| `DiskTrace.Replay` | rcbios-in-c/bios.c:1641-1804 | on every run of SELDSK, HOME, SETTRK, SETSEC, READ and WRITE over two drives of any formats, every READ delivers the last value of its record, with no error reported or pending, if and while the controller answers no drive as not ready and no ten commands in a row with errors; in particular when it ends every command normally |
| `DiskFormat.FspaGood` | rcbios-in-c/bios.c:149-199 | all four rows of the tables are consistent: skew tables permute the sectors, blocks are whole host sectors, the sides make up the track |
| `DiskFormat.RecordSplit` | rcbios-in-c/bios.c:673-708 | the shift and the mask give host sector and offset, without loss in eight bits |
| `DiskFormat.PhysicalInjective` | rcbios-in-c/bios.c:560-579 | different host sectors have different physical sectors |
| `DiskFormat.LocateInjective` | rcbios-in-c/bios.c:560-579 | record to (drive, cylinder, head, sector, offset) is injective, on drives of any formats, and in range |
| `DiskFormat.ChecksumAgrees` | rcbios-in-c/verify_checksums.py:61-84 | the track checksum walks the driver's own map, in every format |
| `DiskFormat.ExtractAgrees` | cpm/verify_against_imd.py:56-76 | so does the CCP/BDOS extraction on formats with 512-byte sectors |
| `Skew.SkewTable` | rcbios-in-c/verify_skew.py:24-32 | the nested loops terminate and compute the table by nearest free slots |
| `Skew.FreeSlotExists` | rcbios-in-c/verify_skew.py:28-29 | fewer entries than sectors leave a slot free, so the inner search always ends |
| `Skew.FirstFreeIsNearest` | rcbios-in-c/verify_skew.py:28-29 | no free slot is passed over |
| `Skew.TableIsPermutation` | rcbios-in-c/verify_skew.py:24-32 | for all track sizes and skews, 0 included, the table is a permutation of 1..spt |
| `Skew.Maxi128IsSkew6` | rcbios-in-c/bios.c:75-78 | the table of 26 sectors in the BIOS is the one of skew 6 |
| `Skew.Maxi512IsSkew4` | rcbios-in-c/bios.c:79-81 | the table of 15 sectors is the one of skew 4 |
| `Skew.Mini512IsSkew2` | rcbios-in-c/bios.c:82-84 | the table of the mini format is the one of skew 2 |
| `Skew.IdentityIsSkew1` | rcbios-in-c/bios.c:85-88 | the identity table is the one of skew 1 |
| `Skew.SkewOne` | rcbios-in-c/verify_skew.py:24-32 | skew 1 is no skew, for every track size from 1 on |
| `Blocks.CopyUpwards` | rcbios-in-c/bios.c:1047-1093 | copying byte by byte upwards moves overlapping blocks that go down, as if through a temporary |
| `Blocks.CopyDownwards` | rcbios-in-c/bios.c:1282-1329 | copying byte by byte downwards moves overlapping blocks that go up |
| `Bitmap.SetBit` | rcbios-in-c/bios.c:1024-1029 | setting a position's bit sets that mark and no other |
| `Bitmap.KeepLeading` | rcbios-in-c/bios.c:1218-1242 | the mask for a partial first byte clears exactly the marks from the position on |
| `Bitmap.DropLeading` | rcbios-in-c/bios.c:1218-1242 | the mask for a partial last byte clears exactly the leading marks |
| `CrtView.DeleteRow` | rcbios-in-c/bios.c:1245-1259 | moving 80 screen bytes and 10 bitmap bytes per row deletes a grid row, marks included, for every row |
| `CrtView.InsertRow` | rcbios-in-c/bios.c:1282-1329 | the reverse moves insert a blank unmarked row and drop the last one |
| `CrtView.EraseRow` | rcbios-in-c/bios.c:1188-1198 | filling and clearing to the end of a row blanks exactly those cells of the grid |
| `CrtView.EraseRest` | rcbios-in-c/bios.c:1201-1213 | so it does to the end of the screen |
| `CrtView.WriteCell` | rcbios-in-c/bios.c:1359-1382 | one stored byte and one set bit are one written cell |
| `CrtView.MappedCells` | rcbios-in-c/bios.c:1403-1419 | a change of every position in place is that change of every cell |
| `CrtDriver.Crt.RemoveRow` | rcbios-in-c/bios.c:1245-1259 | the grid loses row `cury`, marks travel with their rows |
| `CrtDriver.Crt.Scroll` | rcbios-in-c/bios.c:1047-1093 | the grid loses its top row |
| `CrtDriver.Crt.DeleteLine` | rcbios-in-c/bios.c:1245-1259 | the specification's DELETE LINE |
| `CrtDriver.Crt.InsertLine` | rcbios-in-c/bios.c:1282-1329 | the specification's INSERT LINE |
| `CrtDriver.Crt.ClearScreen` | rcbios-in-c/bios.c:1172-1181 | a blank unmarked grid, cursor home, background off |
| `CrtDriver.Crt.BgClearFrom` | rcbios-in-c/bios.c:1218-1242 | which marks go: those of the range, and the rest of the byte it starts in if the range ends before that |
| `CrtDriver.Crt.ClearEndExact` | rcbios-in-c/bios.c:1218-1242 | ranges that end on a byte boundary, as all of the driver's do, are cleared exactly |
| `CrtDriver.Crt.EraseToEol` | rcbios-in-c/bios.c:1188-1198 | the specification's erase to end of line, with marks |
| `CrtDriver.Crt.EraseToEos` | rcbios-in-c/bios.c:1201-1213 | the specification's erase to end of screen, with marks |
| `CrtDriver.Crt.ClearForeground` | rcbios-in-c/bios.c:1403-1419 | exactly the unmarked cells are blanked, the marked ones keep their characters |
| `CrtDriver.Crt.Displ` | rcbios-in-c/bios.c:1359-1382 | a printing byte: conversion, semigraphics switch, mark, wrap and scroll as specified |
| `CrtDriver.Crt.XyAdd` | rcbios-in-c/bios.c:1332-1356 | cursor addressing: repeated subtraction reduces any pair of coordinate bytes onto the screen |
| `CrtDriver.Crt.Specc` | rcbios-in-c/bios.c:1425-1450 | every control byte does what the specification says, which `ControlBytes` states cell by cell |
| `CrtDriver.Crt.ConOut` | rcbios-in-c/bios.c:1468-1498 | each byte does to flat screen, packed bitmap and cursor what `Screen.Step` does to a 25 by 80 grid; no access leaves the arrays and `cury` is 80 times `cursy` throughout |
| `CrtDriver.Crt.Print` | rcbios-in-c/bios.c:1468-1498 | so does every byte stream |
| `Screen.StepKept` | rcbios-in-c/bios.c:1425-1450 | every byte keeps the grid 25 by 80 and the cursor on it, and without a background there are no marks |
| `Screen.BackgroundInvisible` | rcbios-in-c/bios.c:1359-1382 | until the next ctrl-U, what is shown never depends on which cells are marked, whatever is printed |
| `ControlBytes.EraseBytes` | rcbios-in-c/bios.c:1188-1213 | 0x1E blanks the cells of the cursor's row from the cursor on, 0x1F also all rows below; nothing else changes |
| `ControlBytes.ClearByte` | rcbios-in-c/bios.c:1172-1181 | 0x0C blanks every cell, homes the cursor and ends the background |
| `ControlBytes.LineBytes` | rcbios-in-c/bios.c:1245-1329 | 0x01 and 0x02: which row every cell comes from, and which row is blank |
| `ControlBytes.RightBytes` | rcbios-in-c/bios.c:1156-1162 | 0x18 moves one cell on along the rows, TAB four; behind the last cell everything goes up a row |
| `ControlBytes.LeftBytes` | rcbios-in-c/bios.c:1096-1111 | 0x08 and 0x05 move one cell back, from the first to the last |
| `ControlBytes.UpByte` | rcbios-in-c/bios.c:1131-1141 | 0x1A moves a row up, from the first to the last |
| `ControlBytes.DownByte` | rcbios-in-c/bios.c:1114-1128 | 0x0A moves a row down, and on the last row scrolls |
| `ControlBytes.HomeBytes` | rcbios-in-c/bios.c:1143-1169 | 0x0D and 0x1D go to the start of the row and of the screen |
| `ControlBytes.OtherBytes` | rcbios-in-c/bios.c:1425-1450 | all other control codes change nothing |
| `ControlBytes.Addressed` | rcbios-in-c/bios.c:1332-1356 | ctrl-F with a column and a row, each offset by a space and with any top bit, reaches every cell, in the configured order |
| `ControlBytes.AddressWraps` | rcbios-in-c/bios.c:1332-1356 | other coordinate bytes wrap round in eight bits and then on the screen |
| `ControlBytes.BackgroundBytes` | rcbios-in-c/bios.c:1425-1450 | ctrl-S forgets all marks, ctrl-T only stops marking, ctrl-U blanks exactly the unmarked cells |
| `ControlBytes.PrintingByte` | rcbios-in-c/bios.c:1359-1400 | which character is stored where for each printing byte, the semigraphics switch, the mark, and the cursor's next place |
| `ControlBytes.TextAppears` | rcbios-in-c/bios.c:1359-1400 | text after a clear screen stands on the screen byte by byte, with the cursor behind it |
| `ReceiveRing.PushContents` | rcbios-in-c/bios.c:2370-2376 | a byte is dropped exactly when all slots but one are in use, else it joins the end |
| `ReceiveRing.PopContents` | rcbios-in-c/bios.c:1590-1593 | the oldest byte is taken and the others keep their order |
| `ReceiveRing.RingIsFifo` | cpnos-rom/isr.c:225-330 | in every interleaving the accepted bytes are those taken followed by those waiting |
| `FlowControl.SioChannel.IsrRx` | rcbios-in-c/bios.c:2360-2392 | the interrupt on the real fields is the specification's interrupt step with threshold 248 |
| `FlowControl.SioChannel.Reader` | rcbios-in-c/bios.c:1579-1601 | the reader takes the oldest byte and raises RTS exactly when it leaves the ring empty |
| `FlowControl.PlainRing.Isr` | cpnos-rom/isr.c:225-271 | the ring without flow control drops a byte exactly when it is full |
| `FlowControl.PlainRing.Take` | cpnos-rom/transport_pio.c:279-288 | the oldest byte if there is one, and nothing changes if there is none |
| `FlowControl.EveryRun` | rcbios-in-c/bios.c:2302-2324 | under every interleaving of sender, interrupt and reader no byte is lost, delivery is in order, and RTS is off only while the ring holds a byte or the reader is about to re-test it |
| `FlowControl.NeverSticks` | rcbios-in-c/bios.c:907-919 | from every reachable state a bounded number of reader steps delivers all that was sent and leaves RTS on |
| `FlowControl.FourSteps` | rcbios-in-c/bios.c:1587-1601 | the four reader steps in a row take one byte |
| `FlowControl.LosslessIffAmple` | rcbios-in-c/bios.c:2310-2386 | no run loses a byte if and only if threshold plus the bytes a sender may still emit is below the ring size: 7 bytes for threshold 248 and 256 slots |
| `Z80.ReturnsOnce` | rcbios-in-c/mk_sysgen_hex.py:70-111 | a program run is deterministic, so the verdict below is the only one |
| `Validator.BuildValidator` | rcbios-in-c/mk_sysgen_hex.py:70-111 | the code with both jumps patched to the start of the FAIL part |
| `Validator.LoopSums` | rcbios-in-c/mk_sysgen_hex.py:53-67 | the loop adds as many bytes as BC says to DE modulo 65536, a count of 0 meaning 65536, and wraps round the end of memory |
| `Validator.RegionRuns` | rcbios-in-c/mk_sysgen_hex.py:79-83 | one region's code adds that region |
| `Validator.CompareRuns` | rcbios-in-c/mk_sysgen_hex.py:84-104 | both jumps lead to FAIL unless both bytes match, else to OK |
| `Validator.PrintRuns` | rcbios-in-c/mk_sysgen_hex.py:96-99 | the text is printed and the program returns, whatever the BDOS does to the registers |
| `Validator.ValidatorCorrect` | rcbios-in-c/mk_sysgen_hex.py:70-111 | for every region list, expected sum and placement the code halts, printing OK exactly when the 16-bit sum over the regions is the expected one and FAIL otherwise |
| `IntelHex.IhexData` | rcbios-in-c/mk_sysgen_hex.py:42-50 | one record for each consecutive piece of at most the given length |
| `IntelHex.RecordRoundTrip` | rcbios-in-c/mk_sysgen_hex.py:33-39 | a record read back gives its address and data |
| `IntelHex.OneByteCaught` | cpm/apply_hex.py:39-42 | changing any one byte of a record, length and checksum included, is refused |
| `IntelHex.ParseHex` | cpm/apply_hex.py:24-49 | the chunks of the data records in order up to an end record, or the first error and its line |
| `HexFiles.AsideSkipped` | cpm/apply_hex.py:28-30 | blank lines and lines that do not begin with a colon are passed over |
| `HexFiles.SpelledLine` | cpm/apply_hex.py:28-32 | a colon and digits in either case, with white space round them, are read as the bytes they spell |
| `HexFiles.RecordMeaning` | cpm/apply_hex.py:35-48 | what the bytes of a record mean: too short, wrong sum, data at a big-endian address, end, or another type |
| `HexFiles.GarbageLine` | cpm/apply_hex.py:31-34 | a colon with anything but digits and white space behind it is an error |
| `HexFiles.OddNoBytes` | cpm/apply_hex.py:31-34 | so is an odd number of digits |
| `HexFiles.WholeFile` | cpm/apply_hex.py:24-49 | data records among any other lines, with any line ends: exactly their chunks in order |
| `HexFiles.EndedFile` | cpm/apply_hex.py:45-49 | an end record ends the reading, whatever stands behind it |
| `HexFiles.BrokenFile` | cpm/apply_hex.py:33-42 | the first line that is no proper record is reported with its number |
| `IntelHex.ApplyRecords` | cpm/apply_hex.py:52-63 | the image with the chunks laid over it one after another; a chunk out of range stops it unless it is empty |
| `IntelHex.FileRoundTrip` | rcbios-in-c/mk_sysgen_hex.py:157-162 | a file of records reads back as its chunks, with CR LF as with CR line ends |
| `IntelHex.ApplyChunks` | cpm/apply_hex.py:52-63 | applying the pieces of a block writes the block and nothing else |
| `Sysgen.MakeHex` | rcbios-in-c/mk_sysgen_hex.py:114-165 | fails exactly when the image is too large for the two sides, else both text forms |
| `Sysgen.FileLoads` | rcbios-in-c/mk_sysgen_hex.py:131-162 | the file, read and applied, puts program and both parts of the image into any memory and leaves all else |
| `Sysgen.PayloadTotal` | rcbios-in-c/mk_sysgen_hex.py:127-136 | the sum over the regions is the image's sum however the gap is filled |
| `Sysgen.InstallPrintsOk` | rcbios-in-c/mk_sysgen_hex.py:114-165 | for every image of 1 to 9984 bytes and any memory, loading the file and running it prints OK |
| `Sysgen.OneWrongBytePrintsFail` | rcbios-in-c/mk_sysgen_hex.py:127-137 | with one byte of the image wrong in memory it prints FAIL |
| `Sysgen.EmptyImage` | rcbios-in-c/mk_sysgen_hex.py:131-137 | the empty image is the exception: its program sums all 65536 bytes of memory and prints OK exactly when that sum is a multiple of 65536 |
| `SdlcReceiver.SamplesToBits` | rcbios-in-c/sdlc_receiver.py:110-139 | the loop drops the last run and quantises the others, rounding halves to even |
| `SdlcReceiver.CellsNearest` | rcbios-in-c/sdlc_receiver.py:125-137 | a run stands for the nearest number of cells from 1 to 8, an even one if two are as near |
| `SdlcReceiver.NrziDecode` | rcbios-in-c/sdlc_receiver.py:184-197 | a 1 for each cell at the level of the one before |
| `SdlcReceiver.FindFrames` | rcbios-in-c/sdlc_receiver.py:200-249 | the candidates of `Hunt`, the index loop's recursive form |
| `SdlcReceiver.BitsToBytes` | rcbios-in-c/sdlc_receiver.py:252-260 | bytes least significant bit first, a partial one dropped |
| `SdlcReceiver.Receive` | rcbios-in-c/sdlc_receiver.py:263-309 | the whole chain with run-length recovery |
| `SdlcLink.RunsExist` | rcbios-in-c/sdlc_receiver.py:110-139 | every coded line consists of runs, so the sampling premise below can be met |
| `SdlcLink.CellsOfLine` | rcbios-in-c/sdlc_receiver.py:110-139 | every run but the last comes back with its length in cells when it is off by less than half a cell |
| `SdlcLink.DecodeEncode` | rcbios-in-c/sdlc_receiver.py:184-197 | NRZI decoding inverts coding |
| `SdlcLink.Destuffed` | rcbios-in-c/sdlc_receiver.py:225-246 | zero deletion inverts bit stuffing and leaves one 0 of the closing flag |
| `SdlcLink.NoFlagInside` | rcbios-in-c/sdlc_receiver.py:215-218 | stuffed bits are never taken for a flag |
| `SdlcLink.BytesBack` | rcbios-in-c/sdlc_receiver.py:252-260 | the bits of a frame with that extra one are its bytes |
| `SdlcLink.HuntLine` | rcbios-in-c/sdlc_receiver.py:200-249 | from the first flag on, the hunt finds the frames sent and nothing else of two bytes |
| `SdlcLink.HuntLead` | rcbios-in-c/sdlc_receiver.py:200-249 | whatever an idle line decodes to in front, even a false flag |
| `SdlcLink.HuntSound` | rcbios-in-c/sdlc_receiver.py:200-249 | on any line whatever, each candidate stands behind a flag just as a sender would stuff it, up to a sixth 1 or the end |
| `SdlcLink.RunsUnderCap` | rcbios-in-c/sdlc_receiver.py:127-135 | stuffing and flags keep every run at seven cells or fewer, below the cap |
| `SdlcLink.FramesDelivered` | rcbios-in-c/sdlc_receiver.py:110-260 | for every list of frames and every sampling off by less than half a cell per run, the run-length chain yields exactly the frames sent |
| `SdlcLink.DataDelivered` | rcbios-in-c/sdlc_receiver.py:301-322 | with check sequences: exactly the data sent pass the check, in order |
| `SdlcDpll.DpllBits` | rcbios-in-c/sdlc_receiver.py:142-181 | the levels at the centres of the specification, re-phased at each transition of the masked samples seen in time, whatever the mask; the loop terminates for every real cell width |
| `SdlcDpll.OnePin` | rcbios-in-c/sdlc_receiver.py:142-181 | with the mask of one pin, as all callers pass, only that pin's levels matter |
| `SdlcDpll.RunCentres` | rcbios-in-c/sdlc_receiver.py:163-180 | a run gets `c` centres when its end lies between `c - 1` and `c` cells behind its first one |
| `SdlcDpll.RecoveredIffTracks` | rcbios-in-c/sdlc_receiver.py:142-181 | on lines whose every run is off by less than half a cell, idle before or not, the phase-locked recovery is right if and only if lateness, added up since the last early transition, stays within half a cell |
| `SdlcDpll.JitterTolerated` | rcbios-in-c/sdlc_receiver.py:145-151 | jitter below a quarter of a cell around a regular clock never adds up (the code's comment says about 20 per cent) |
| `SdlcDpll.EarlyTolerated` | rcbios-in-c/sdlc_receiver.py:169-180 | early transitions always re-phase, so a fast sender is followed |
| `SdlcDpll.SlowSenderLost` | rcbios-in-c/sdlc_receiver.py:169-180 | late transitions never re-phase: a sender slow by any fixed amount per run is misread once that adds up to half a cell |
| `SdlcDpll.DpllReceive` | rcbios-in-c/sdlc_receiver.py:263-309 | the whole chain as it runs by default, for any mask |
| `SdlcDpll.FollowedFramesDelivered` | rcbios-in-c/sdlc_receiver.py:142-260 | whenever the recovery can follow the line the default chain yields exactly the frames sent, however the line idles before and after |
| `SdlcDpll.JitteredDataDelivered` | rcbios-in-c/sdlc_receiver.py:142-322 | end to end with check sequences under jitter below a quarter of a cell |
| `Crc.CrcCcitt` | rcbios-in-c/sdlc_receiver.py:361-380 | the loops compute the register's value, complemented |
| `Crc.ShiftInjective` | rcbios-in-c/sdlc_receiver.py:373-379 | one turn of the register loses nothing |
| `Crc.RegisterInjective` | rcbios-in-c/sdlc_receiver.py:371-380 | different registers stay different under any message |
| `Crc.PairChangesCrc` | rcbios-in-c/sdlc_receiver.py:361-380 | messages that differ only within two adjacent bytes have different values, at any length and position |
| `Crc.AcceptedIffResidual` | rcbios-in-c/sdlc_receiver.py:361-380 | a frame is accepted if and only if it leaves the residual 0xF0B8, the value named in the comment |
| `Crc.SentIsAccepted` | rcbios-in-c/sdlc_receiver.py:308-311 | what a sender appends is accepted |
| `Crc.PairDamageRejected` | rcbios-in-c/sdlc_receiver.py:308-311 | damage within two adjacent bytes, trailer included, is never accepted |
| `Imd.ParseSector` | rcbios/patch_bios.py:73-92 | one sector of each type, or the error of an unknown type or missing byte |
| `Imd.ParseTrack` | rcbios/patch_bios.py:45-106 | one track record with its maps skipped |
| `Imd.ParseImd` | rcbios/patch_bios.py:20-108 | header and all tracks, or the error |
| `Imd.WriteTrack` | rcbios/patch_bios.py:111-145 | the record's bytes in physical order, or the error of a number without data |
| `Imd.TrackReadBack` | rcbios/patch_bios.py:111-145 | a written track reads back with the same header and numbering and the new data, wherever it stands |
| `Imd.TrackReadsBackIff` | rcbios/patch_bios.py:120-145 | every written track reads back, whatever the new data, if and only if it has no optional maps or no sectors: their flags are written but they are not |
| `Imd.TrackMoves` | rcbios/patch_bios.py:305-306 | a copied track is the same track at its new place |
| `ImdFiles.RecordRead` | rcbios/patch_bios.py:73-92 | sectors of all nine record types, compressed or not, are read as their data |
| `ImdFiles.LayoutRead` | rcbios/patch_bios.py:45-106 | any track is read back, with cylinder and head maps or without |
| `ImdFiles.ImageRead` | rcbios/patch_bios.py:20-108 | so is any file: a comment up to 0x1A and tracks |
| `PatchBios.PatchSide` | rcbios/patch_bios.py:252-271 | the loop over sorted sectors lays the BIOS over them |
| `PatchBios.PatchedIsOver` | rcbios/patch_bios.py:252-291 | in sector order the result is the BIOS over the old bytes, partial sector included |
| `PatchBios.Patch` | rcbios/patch_bios.py:198-309 | from file contents to file contents, with the three failures |
| `PatchBios.SideReadBack` | rcbios/patch_bios.py:126-145 | new data in sector order survive being written in physical order and sorted again, for any numbering without repetition |
| `PatchBios.PatchCorrect` | rcbios/patch_bios.py:198-309 | patching any BIOS that fits: the result parses to the same header, the same track headers and numbering, other tracks byte for byte the same, and Track 0 in sector order is the BIOS over the old Track 0 |
| `PatchBios.PatchFits` | rcbios/patch_bios.py:216-245 | on a boot image patching fails exactly if the BIOS is longer than what both sides hold |
| `PatchBios.ExtractTrack0` | rcbios/imd2raw.py:103-122 | the data of the leading cylinder-0 tracks in sector order, or the error of a track without sectors |
| `PatchBios.ExtractCorrect` | rcbios/imd2raw.py:103-122 | extracting from the patched image gives the BIOS over the old extract, or the old one's error |
| `BootProm.Prom.CalcSize` | autoload-in-c/rom.c:295-305 | the byte count of the rest of the track, in 16 bits |
| `BootProm.Prom.Detect` | autoload-in-c/rom.c:498-520 | succeeds exactly when the side exists, FM before MFM, and sets the side's geometry |
| `BootProm.TableCounts` | autoload-in-c/rom.c:266-291 | the table's last sectors are the sectors that fit a track: by size on FM, and on MFM as many as of half the size; for the formats in use they are the BIOS's numbers |
| `BootProm.Prom.DetectAndRead` | autoload-in-c/rom.c:498-722 | detection and read of any diskette with that many sectors a track: the bytes of side after side in order, for any byte count |
| `BootProm.Prom.LegacyBoot` | autoload-in-c/rom.c:800-808 | the legacy boot loads its bytes from cylinder 1 on; on a double-sided 5.25 inch diskette with nine sectors a track it succeeds if and only if it asks for no more than two sides |
| `BootProm.Prom.ReadData` | autoload-in-c/rom.c:663-722 | the loop performs the run of transfers, with addresses and cylinder numbers that wrap; it terminates on usable geometries and on those without sectors |
| `BootProm.RemainingExact` | autoload-in-c/rom.c:685-699 | below 32768 the signed 16-bit subtraction is the true difference |
| `BootProm.TableUsable` | autoload-in-c/rom.c:266-283 | every table geometry with sectors has track sizes in that range, for every disk type |
| `BootProm.RunIsTransfers` | autoload-in-c/rom.c:663-722 | the read is its list of transfers done in order and ends behind the last one, modulo 65536 |
| `BootProm.MultiTrack` | autoload-in-c/rom.c:663-722 | the transfers move exactly the requested bytes to consecutive addresses, (cylinder, head) in order, each but the last taking a whole track |
| `BootProm.SidesRead` | autoload-in-c/rom.c:663-722 | reading over several sides puts the content of side after side, in (cylinder, head) order, into memory, as much of it as was asked for |
| `BootProm.ReadableIffSectors` | autoload-in-c/rom.c:266-283 | a track type of the table can be read if and only if the table gives it sectors, and only FM with 1024-byte sectors has none |
| `BootProm.NoSectorNoRead` | autoload-in-c/rom.c:663-722 | with such an entry the first transfer fails: its size comes out as 0, which the word count register takes for 65536 |
| `BootProm.Prom.ReadKilobyteFm` | autoload-in-c/rom.c:276-291 | a disk with such a track is detected and then cannot be read |
| `BootProm.SideRead` | autoload-in-c/rom.c:784-790 | one pass of the Track 0 loop loads exactly one side |
| `BootProm.Prom.Boot` | autoload-in-c/rom.c:748-792 | on a MAXI or MINI boot disk detection and loop leave side 0 then side 1 in memory from address 0, and nothing else changed |
| `BootProm.PatchedDisk` | autoload-in-c/rom.c:784-790 | a patched boot image is still a boot disk, its Track 0 the BIOS over the old one |
| `BootProm.PatchAndBoot` | autoload-in-c/rom.c:748-792 | composed with the patcher: patch an image, parse the result and boot from it, and memory holds the BIOS followed by the old tail from address 0 and is otherwise unchanged |
| `CpnetFrames.Checksum` | cpnet/server.py:80-86 | the byte that brings the sum to zero modulo 256 |
| `CpnetFrames.Connection.RecvFrame` | cpnet/server.py:227-326 | a message is returned exactly when the bytes taken bring the receiver automaton to it, and the replies sent are the automaton's |
| `CpnetFrames.Connection.RecvHeader` | cpnet/server.py:250-277 | SOH to header checksum, acknowledged or refused |
| `CpnetFrames.Connection.RecvData` | cpnet/server.py:279-326 | STX to EOT, acknowledged or refused |
| `CpnetFrames.Connection.RecvAck` | cpnet/cpnet12_client.py:76-88 | the high bit of an answer is ignored |
| `CpnetFrames.Connection.SendFrame` | cpnet/server.py:175-225 | the three blocks go out one after the other's acknowledgement |
| `CpnetFrames.SentBlocks` | cpnet/server.py:175-225 | the blocks go out up to the first answer that is missing or no acknowledgement, and three acknowledgements are success |
| `CpnetFrames.SentDelivered` | cpnet/server.py:175-326 | what is sent on three acknowledgements gives either receiver exactly the message, and three acknowledgements come back |
| `CpnetFrames.SenderIsSendFrame` | cpnet/server.py:175-225 | in every interleaving and whatever the answers, the sender of the theorems below has sent what this one sends, with the same result |
| `CpnetFrames.ExampleFrame` | cpnet/server.py:175-225 | one frame byte by byte |
| `CpnetFrames.FrameOutcome` | cpnet/server.py:227-326 | when a whole frame is accepted, whatever bytes stand in each place |
| `CpnetFrames.HeaderOutcome` | cpnet/server.py:250-277 | what becomes of any seven bytes in header position |
| `CpnetFrames.DataOutcome` | cpnet/cpnet12_client.py:165-205 | what becomes of any bytes in data position, for payloads of 1 to 256 bytes |
| `CpnetFrames.StepKeeps` | cpnet/server.py:175-326 | every step of either side keeps the invariant and brings the end nearer |
| `CpnetFrames.NeverStuck` | cpnet/server.py:175-326 | when neither side can move the message has been delivered and acknowledged |
| `CpnetFrames.EveryRunDelivers` | cpnet/cpnet12_client.py:90-205 | in every interleaving on a clean link only boundedly many steps are possible and they end with exactly the message sent, also behind stray bytes before the server's ENQ |
| `CpnetFrames.HeaderDamaged` | cpnet/server.py:257-274 | one altered byte of a header block never leads to its acceptance |
| `CpnetFrames.DataDamaged` | cpnet/server.py:295-322 | nor does one altered byte of a data block |
| `CpnetFrames.DamageNeverMisleads` | cpnet/server.py:227-326 | with at most one byte of each block altered, whatever part has arrived, the receiver has no other message |
| `Scb.Socket.RecvExact` | cpnos-rom/cpnet_pio_server.py:77-84 | however the stream is cut up, exactly the bytes wanted or the end-of-file error |
| `Scb.Socket.RecvScb` | cpnos-rom/cpnet_pio_server.py:87-120 | the frame and the rest of the stream, or the error |
| `Scb.RequestRead` | cpnos-rom/cpnet_pio_server.py:95-115 | a request is read right with or without any stale byte before it and whatever follows |
| `Scb.StreamSplits` | cpnos-rom/cpnet_pio_server.py:87-120 | every stream of requests, each with or without a stale byte, is split into exactly the requests sent |
| `Scb.ZeroSlaveMisled` | cpnos-rom/cpnet_pio_server.py:96-101 | with slave number 0 it would not be: a request that is misread |
| `Scb.SplitsIffNonZero` | cpnos-rom/cpnet_pio_server.py:95-115 | every stream of requests is split right if and only if the slave's number is not 0 |
| `Scb.SendScb` | cpnos-rom/cpnet_pio_server.py:123-132 | the frame on the wire; an empty payload goes out as one zero byte |
| `Scb.PioSendMsg` | cpnos-rom/transport_pio.c:137-156 | the checksum is stored behind the body as counted in eight bits, and what `otir` sends |
| `Scb.PioSendsFrameIffSmall` | cpnos-rom/transport_pio.c:143-148 | the frame is sent as the receiver expects it if and only if SIZ is at most 249 |
| `Scb.PioToServer` | cpnos-rom/transport_pio.c:137-156 | what the slave sends is what the server reads |
| `Netboot.Server.Dispatch` | cpnos-rom/netboot_server.py:409-554 | reply and open files for LOGIN, OPEN, READ SEQ and CLOSE, short requests, unknown files, the end of the file and the extent overflow included |
| `Netboot.AdvancedStands` | cpnos-rom/netboot_server.py:530-537 | the `cr` to `ex` roll-over steps to the next record, for all 32768 records |
| `Netboot.PaddedIs` | cpnos-rom/netboot_server.py:526-528 | the records are the file followed by fewer than 128 bytes of 0x1A |
| `Netboot.OpenReplyMeans` | cpnos-rom/netboot_server.py:432-456 | the FCB that answers an OPEN, byte by byte |
| `Netboot.ImageName` | cpnos-rom/netboot_mpm.c:84-88 | the file asked for is CPNOS.IMG |
| `Netboot.Closed` | cpnos-rom/netboot_server.py:540-554 | CLOSE takes the file off the open ones |
| `Netboot.ReadsInOrder` | cpnos-rom/netboot_server.py:511-538 | reads in a row give records 0, 1, 2, ... once each, and then the end of the file |
| `Netboot.Opened` | cpnos-rom/netboot_server.py:432-456 | the FCB that OPEN leaves in the client's buffer stands at record 0 of the image |
| `Netboot.Loader.Exchange` | cpnos-rom/netboot_mpm.c:95-106 | request and reply through the shared buffer |
| `Netboot.Loader.ReadImage` | cpnos-rom/netboot_mpm.c:140-163 | the READ SEQ loop |
| `Netboot.Loader.NetbootMpm` | cpnos-rom/netboot_mpm.c:122-180 | login, open, loop and close: entry point, memory and the server's open files |
| `Netboot.LoopLoads` | cpnos-rom/netboot_mpm.c:140-163 | `r` records in, the loop ends with the whole padded image or behind the limit |
| `Netboot.BootLoads` | cpnos-rom/netboot_mpm.c:122-180 | for every image content and base: the padded image is loaded, the file closed and the entry returned exactly when the image ends at or below 0xEE00; else 0, with the records up to the one that passed the limit in memory and the file still open; without the file nothing changes |

## Left out

Disk:

- DeblockCache.DiskBios.XRead: says nothing about the record read once a transfer has failed, because HOME and SELDSK flush a dirty buffer without testing whether it is valid; after a failure only the error result, the cleared valid flag and the structural invariant are promised.
- DeblockCache.DiskBios.ChkTrk: seeks are assumed to succeed; the recalibrating retry is not modelled.
- Floppy.Drives.SecRw: a transfer is one step that copies the sector or, if the controller reports an error, leaves anything in it; command bytes, DMA programming and motor control are not part of the model.
- DeblockCache.DiskBios.WarmBoot: stops before the system is read back in, which is a row of READs.
- Drives other than A and B: the driver's parameter table has two entries.
- The disk parameter blocks handed to the BDOS, SECTRAN and the step that counts `unalloc_count` down on a mismatch, which is dead.

Terminal and rings:

- CrtDriver.Crt.BgClearFrom: is stated with the rest of the first byte going too when the range ends inside it; no caller makes such a call (`ClearEndExact`).
- CrtDriver.Crt.ConOut: the routing by IOBYTE, the serial copy of each byte and the hardware cursor that the display interrupt moves are left out.
- The second terminal, in `cpnos-rom/resident.c`, which has no bitmap and would only repeat the first.
- FlowControl.SioChannel.Reader: the UR1 arm (it does not raise RTS) and the special-condition interrupts (they reset both indices) are left out; the flow-control theorems would not hold with them. The emptiness re-test and the two port writes are one step.
- FlowControl.PlainRing.Take: the keyboard status byte, the input conversion, the timeout and the serial port polled first are left out.

Install file:

- The instructions the generated program does not use, and the flags other than carry and zero. The BDOS is any function of the state that prints the character and returns with arbitrary registers.
- The filling of gaps by LOAD: memory that the file does not name keeps its contents.

SDLC:

- SdlcLink.FramesDelivered: needs two flags before each frame, because the hunt takes a frame's closing flag with the frame; a single shared flag would lose the next frame.
- SdlcDpll.DpllBits: positions are reals, so the rounding of floating point is not modelled.
- The search over sample rates and polarities (`auto_decode`), the inverted polarity and the match by expected text.

Images and PROM:

- PatchBios.PatchCorrect: asks for one track for each side of Track 0, with no sector number twice (of two equal ones only the last one's data would be written), all sectors complete and no optional maps, without which the record does not read back (`TrackReadsBackIff`). Tracks that end behind the end of the file are not covered.
- PatchBios.ExtractCorrect: is about files whose first two tracks are sides 0 and 1; the extractor follows the order of the file, the patcher that of the heads.
- PatchBios.ExtractTrack0: printing is left out, but not the error it raises on a track without sectors.
- BootProm.Prom.Detect: size codes of 4 and more index past the end of the PROM's table and are excluded; seeks are assumed to succeed.
- BootProm.Prom.ReadData: a failed transfer halts the PROM, here the result false.
- BootProm.Prom.Boot: the sensing of the drive and what follows the Track 0 loop (directory check, jump) are left out, but for the read of the legacy boot.

CP/NET and network boot:

- CpnetFrames.EveryRunDelivers: queues are reliable, so timeouts and retries are left out; taking a byte and answering it are one step.
- Scb.PioSendMsg: the port direction switch that produces the stale byte is left out; the stale byte itself is a parameter. `pio_recv_msg` and the upstream proxy are left out.
- Netboot.Server.Dispatch: only the functions the loader uses; random writes, wildcard search, console functions, the writing back of changed files and the host file system are left out.
- Netboot.Loader.NetbootMpm: the link delivers every frame; the progress dots and the build stamp are left out. `cpnos_addrs.h` is not part of this model, so the load address is a parameter, at most the limit. The message buffer is not part of the loaded memory.
