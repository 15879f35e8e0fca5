/** Intel HEX: the records `mk_sysgen_hex.py` writes and `apply_hex.py` reads and applies. */
module IntelHex {
  import opened Bytes
  import opened Wrappers

  // Writing.

  function Digit(n: nat): char
    requires n < 16
  {
    if n < 10 then (n + 48) as char else (n + 55) as char
  }

  function HexByte(b: byte): string { [Digit(b / 16), Digit(b % 16)] }

  function HexBytes(s: seq<byte>): string {
    if s == [] then [] else HexByte(s[0]) + HexBytes(s[1..])
  }

  /** Length, address, type and data of a record, without its checksum. */
  function Body(rtype: byte, addr: nat, data: seq<byte>): seq<byte>
    requires |data| < 256
  {
    [|data|, addr / 256 % 256, addr % 256, rtype] + data
  }

  function Checksum(record: seq<byte>): byte {
    var total: int := Sum(record);
    (-total) % 256
  }

  /** `ihex_record`. */
  function Record(rtype: byte, addr: nat, data: seq<byte>): string
    requires |data| < 256
  {
    ":" + HexBytes(Body(rtype, addr, data)) + HexByte(Checksum(Body(rtype, addr, data)))
  }

  /** The pieces a block of data is cut into, each with its address. */
  datatype Chunk = Chunk(addr: nat, data: seq<byte>)

  function Chunks(addr: nat, data: seq<byte>, maxPerLine: nat): seq<Chunk>
    requires maxPerLine > 0
    decreases |data|
  {
    if data == [] then []
    else if |data| <= maxPerLine then [Chunk(addr, data)]
    else [Chunk(addr, data[..maxPerLine])] + Chunks(addr + maxPerLine, data[maxPerLine..], maxPerLine)
  }

  predicate Short(chunks: seq<Chunk>) { forall c <- chunks :: |c.data| < 256 }

  function Records(chunks: seq<Chunk>): seq<string>
    requires Short(chunks)
  {
    if chunks == [] then [] else [Record(0, chunks[0].addr, chunks[0].data)] + Records(chunks[1..])
  }

  lemma {:induction false} ChunkSizes(addr: nat, data: seq<byte>, maxPerLine: nat)
    requires 0 < maxPerLine < 256
    ensures Short(Chunks(addr, data, maxPerLine))
    decreases |data|
  {
    if |data| > maxPerLine {
      ChunkSizes(addr + maxPerLine, data[maxPerLine..], maxPerLine);
    }
  }

  /** `ihex_data`: the loop over offsets emits one record per chunk. */
  method IhexData(addr: nat, data: seq<byte>, maxPerLine: nat) returns (lines: seq<string>)
    requires 0 < maxPerLine < 256
    ensures Short(Chunks(addr, data, maxPerLine)) && lines == Records(Chunks(addr, data, maxPerLine))
  {
    hide *;
    ghost var left := Start(addr, data, maxPerLine);
    lines := [];
    var offset := 0;
    while offset < |data|
      invariant offset <= |data|
      invariant Short(left) && left == Chunks(addr + offset, data[offset..], maxPerLine)
      invariant Short(Chunks(addr, data, maxPerLine)) && Records(Chunks(addr, data, maxPerLine)) == lines + Records(left)
    {
      var chunk := data[offset..if offset + maxPerLine <= |data| then offset + maxPerLine else |data|];
      left := NextRecord(addr, data, maxPerLine, offset, chunk, left, lines);
      lines := lines + [Record(0, addr + offset, chunk)];
      offset := offset + |chunk|;
    }
    NoChunks(addr + offset, data[offset..], maxPerLine);
  }

  lemma Start(addr: nat, data: seq<byte>, maxPerLine: nat) returns (all: seq<Chunk>)
    requires 0 < maxPerLine < 256
    ensures all == Chunks(addr, data, maxPerLine) && Short(all)
    ensures all == Chunks(addr + 0, data[0..], maxPerLine) && Records(all) == [] + Records(all)
  {
    ChunkSizes(addr, data, maxPerLine);
    assert data[0..] == data;
    all := Chunks(addr, data, maxPerLine);
  }

  lemma NoChunks(addr: nat, data: seq<byte>, maxPerLine: nat)
    requires maxPerLine > 0 && data == []
    ensures Chunks(addr, data, maxPerLine) == [] && Records([]) == []
  {
  }

  lemma NextRecord(addr: nat, data: seq<byte>, maxPerLine: nat, offset: nat, chunk: seq<byte>,
                   left: seq<Chunk>, lines: seq<string>)
    returns (rest: seq<Chunk>)
    requires 0 < maxPerLine < 256 && offset < |data|
    requires chunk == data[offset..if offset + maxPerLine <= |data| then offset + maxPerLine else |data|]
    requires left == Chunks(addr + offset, data[offset..], maxPerLine) && Short(left)
    ensures 0 < |chunk| < 256 && offset + |chunk| <= |data|
    ensures rest == Chunks(addr + (offset + |chunk|), data[offset + |chunk|..], maxPerLine) && Short(rest)
    ensures lines + Records(left) == (lines + [Record(0, addr + offset, chunk)]) + Records(rest)
  {
    rest := NextChunk(addr, data, maxPerLine, offset, chunk);
    RecordsCons(Chunk(addr + offset, chunk), rest);
    hide *;
    assert lines + ([Record(0, addr + offset, chunk)] + Records(rest)) == (lines + [Record(0, addr + offset, chunk)]) + Records(rest);
  }

  lemma NextChunk(addr: nat, data: seq<byte>, maxPerLine: nat, offset: nat, chunk: seq<byte>) returns (rest: seq<Chunk>)
    requires 0 < maxPerLine < 256 && offset < |data|
    requires chunk == data[offset..if offset + maxPerLine <= |data| then offset + maxPerLine else |data|]
    ensures 0 < |chunk| < 256 && offset + |chunk| <= |data|
    ensures rest == Chunks(addr + (offset + |chunk|), data[offset + |chunk|..], maxPerLine) && Short(rest)
    ensures Chunks(addr + offset, data[offset..], maxPerLine) == [Chunk(addr + offset, chunk)] + rest
  {
    var end, tail := offset + |chunk|, data[offset..];
    rest := Chunks(addr + end, data[end..], maxPerLine);
    ChunkSizes(addr + end, data[end..], maxPerLine);
    hide Short;
    if |tail| > maxPerLine {
      assert tail[..maxPerLine] == chunk && tail[maxPerLine..] == data[end..];
    } else {
      assert tail == chunk && data[end..] == [];
    }
  }

  lemma RecordsCons(c: Chunk, rest: seq<Chunk>)
    requires |c.data| < 256 && Short(rest)
    ensures Short([c] + rest) && Records([c] + rest) == [Record(0, c.addr, c.data)] + Records(rest)
  {
    hide Record;
    assert ([c] + rest)[1..] == rest;
  }

  // Reading.

  function DigitValue(c: char): Option<nat> {
    if '0' <= c <= '9' then Some(c as int - 48)
    else if 'A' <= c <= 'F' then Some(c as int - 55)
    else if 'a' <= c <= 'f' then Some(c as int - 87)
    else None
  }

  predicate IsAsciiSpace(c: char) {
    c as int == 32 || 9 <= c as int <= 13
  }

  predicate IsSpace(c: char) { IsSpaceCode(c as int) }

  /** `bytes.fromhex`: pairs of digits, with white space allowed between pairs. */
  function FromHex(s: string): (r: Option<seq<byte>>)
    decreases |s|
  {
    if s == [] then Some([])
    else if IsAsciiSpace(s[0]) then FromHex(s[1..])
    else if |s| < 2 then None
    else
      var high, low, rest := DigitValue(s[0]), DigitValue(s[1]), FromHex(s[2..]);
      if high.Some? && low.Some? && rest.Some? && high.value < 16 && low.value < 16
      then Some([16 * high.value + low.value] + rest.value)
      else None
  }

  datatype HexError = BadHex | TooShort | WrongChecksum

  datatype Line = Skipped | Data(addr: word, data: seq<byte>) | End | Bad(error: HexError)

  function Address(high: byte, low: byte): word { 256 * high + low }

  /** The bytes of one record, checksum included. The data are cut from the record by its length
      field and stop at the end of the record. */
  function ReadRecord(raw: seq<byte>): Line {
    if |raw| < 5 then Bad(TooShort)
    else if raw[|raw| - 1] != Checksum(raw[..|raw| - 1]) then Bad(WrongChecksum)
    else if raw[3] == 0 then
      Data(Address(raw[1], raw[2]), raw[4..if 4 + raw[0] <= |raw| then 4 + raw[0] else |raw|])
    else if raw[3] == 1 then End
    else Skipped
  }

  function StripLeft(s: string): string {
    if s != [] && IsSpace(s[0]) then StripLeft(s[1..]) else s
  }

  function StripRight(s: string): string {
    if s != [] && IsSpace(s[|s| - 1]) then StripRight(s[..|s| - 1]) else s
  }

  function ReadLine(text: string): Line {
    var line := StripRight(StripLeft(text));
    if line == [] || line[0] != ':' then Skipped
    else match FromHex(line[1..])
      case None => Bad(BadHex)
      case Some(raw) => ReadRecord(raw)
  }

  /** Line ends: the universal newlines and the other separators of `str.splitlines`. */
  predicate IsBreak(c: char) {
    10 <= c as int <= 13 || 28 <= c as int <= 30 || c as int == 133 || c as int == 0x2028 || c as int == 0x2029
  }

  function SplitLines(line: string, text: string): seq<string>
    decreases |text|
  {
    if text == [] then (if line == [] then [] else [line])
    else if |text| > 1 && text[0] == '\r' && text[1] == '\n' then [line] + SplitLines([], text[2..])
    else if IsBreak(text[0]) then [line] + SplitLines([], text[1..])
    else SplitLines(line + [text[0]], text[1..])
  }

  function Lines(text: string): seq<string> { SplitLines([], text) }

  type Parsed = Result<seq<Chunk>, (nat, HexError)>

  /** What is read after `chunks`. */
  function Then(chunks: seq<Chunk>, rest: Parsed): Parsed {
    match rest
    case Success(more) => Success(chunks + more)
    case Failure(e) => Failure(e)
  }

  /** The data records in order, up to an end record; the first bad line is an error. */
  function ReadLines(lines: seq<string>, number: nat): Parsed
    decreases |lines|
  {
    if lines == [] then Success([])
    else match ReadLine(lines[0])
      case Skipped => ReadLines(lines[1..], number + 1)
      case Data(addr, data) => Then([Chunk(addr, data)], ReadLines(lines[1..], number + 1))
      case End => Success([])
      case Bad(e) => Failure((number, e))
  }

  /** `parse_hex`. */
  method ParseHex(text: string) returns (r: Parsed)
    ensures r == ReadLines(Lines(text), 1)
  {
    hide ReadLine, Lines;
    var records: seq<Chunk> := [];
    var lines := Lines(text);
    assert lines[0..] == lines;
    ThenThen(records, ReadLines(lines, 1));
    var i := 0;
    while i < |lines|
      invariant i <= |lines|
      invariant ReadLines(lines, 1) == Then(records, ReadLines(lines[i..], i + 1))
      decreases |lines| - i
    {
      assert lines[i..][1..] == lines[i + 1..];
      ThenThen(records, ReadLines(lines[i + 1..], i + 2));
      match ReadLine(lines[i]) {
        case Skipped =>
        case Data(addr, data) => records := records + [Chunk(addr, data)];
        case End => return Success(records);
        case Bad(e) => return Failure((i + 1, e));
      }
      i := i + 1;
    }
    assert lines[i..] == [];
    ThenThen(records, Success([]));
    return Success(records);
  }

  lemma ThenThen(records: seq<Chunk>, rest: Parsed)
    ensures forall c :: Then(records, Then([c], rest)) == Then(records + [c], rest)
    ensures Then(records, Success([])) == Success(records) && Then([], rest) == rest
  {
    forall c ensures Then(records, Then([c], rest)) == Then(records + [c], rest) {
      if rest.Success? {
        assert records + ([c] + rest.value) == records + [c] + rest.value;
      }
    }
    if rest.Success? {
      assert [] + rest.value == rest.value;
    }
    assert records + [] == records;
  }

  // Applying.

  predicate Fits(base: nat, size: nat, c: Chunk) {
    base <= c.addr && c.addr - base + |c.data| <= size
  }

  /** What `apply_records` leaves: the image, and whether every record fitted. A record that does
      not fit stops it, unless it is empty. */
  function Applied(base: nat, image: seq<byte>, records: seq<Chunk>): (r: (bool, seq<byte>))
    ensures |r.1| == |image|
    decreases |records|
  {
    if records == [] then (true, image)
    else if Fits(base, |image|, records[0]) then
      Applied(base, Overlay(image, records[0].addr - base, records[0].data), records[1..])
    else if records[0].data == [] then Applied(base, image, records[1..])
    else (false, image)
  }

  method ApplyRecords(base: nat, data: array<byte>, records: seq<Chunk>) returns (ok: bool)
    modifies data
    ensures (ok, data[..]) == Applied(base, old(data[..]), records)
  {
    var i := 0;
    while i < |records|
      invariant i <= |records|
      invariant Applied(base, old(data[..]), records) == Applied(base, data[..], records[i..])
    {
      assert records[i..][1..] == records[i + 1..];
      var Chunk(addr, chunk) := records[i];
      var at := addr - base;
      if at < 0 || at + |chunk| > data.Length {
        if |chunk| == 0 {
          i := i + 1;
          continue;
        }
        return false;
      }
      WriteSlice(data, at, chunk);
      i := i + 1;
    }
    return true;
  }

  /** `data[at:at + len(chunk)] = chunk`. */
  method WriteSlice(data: array<byte>, at: nat, chunk: seq<byte>)
    requires at + |chunk| <= data.Length
    modifies data
    ensures data[..] == Overlay(old(data[..]), at, chunk)
  {
    var i := 0;
    while i < |chunk|
      invariant i <= |chunk|
      invariant forall k :: 0 <= k < data.Length ==>
        data[k] == if at <= k < at + i then chunk[k - at] else old(data[k])
    {
      data[at + i] := chunk[i];
      i := i + 1;
    }
  }

  // A record is read back as it was written.

  lemma DigitBack(n: nat)
    requires n < 16
    ensures DigitValue(Digit(n)) == Some(n) && !IsSpace(Digit(n)) && !IsBreak(Digit(n))
  {
  }

  lemma {:induction false} HexRoundTrip(s: seq<byte>)
    ensures FromHex(HexBytes(s)) == Some(s)
  {
    if s != [] {
      HexRoundTrip(s[1..]);
      DigitBack(s[0] / 16);
      DigitBack(s[0] % 16);
      var text := HexBytes(s);
      assert text == HexByte(s[0]) + HexBytes(s[1..]);
      assert text[0] == Digit(s[0] / 16) && text[1] == Digit(s[0] % 16) && text[2..] == HexBytes(s[1..]);
      assert s[0] == 16 * (s[0] / 16) + s[0] % 16;
      assert [s[0]] + s[1..] == s;
    }
  }

  lemma {:induction false} HexConcat(a: seq<byte>, b: seq<byte>)
    ensures HexBytes(a + b) == HexBytes(a) + HexBytes(b)
  {
    if a == [] {
      assert a + b == b;
    } else {
      HexConcat(a[1..], b);
      assert (a + b)[1..] == a[1..] + b;
    }
  }

  lemma {:induction false} HexClean(s: seq<byte>)
    ensures forall c <- HexBytes(s) :: !IsSpace(c) && !IsBreak(c)
  {
    if s != [] {
      HexClean(s[1..]);
    }
  }

  /** A record as text: a colon and the digits of its bytes, checksum last. */
  lemma RecordShape(rtype: byte, addr: nat, data: seq<byte>) returns (raw: seq<byte>)
    requires |data| < 256
    ensures raw == Body(rtype, addr, data) + [Checksum(Body(rtype, addr, data))]
    ensures Record(rtype, addr, data) == ":" + HexBytes(raw)
    ensures forall c <- Record(rtype, addr, data) :: !IsSpace(c) && !IsBreak(c)
  {
    var body := Body(rtype, addr, data);
    raw := body + [Checksum(body)];
    HexConcat(body, [Checksum(body)]);
    assert HexBytes([Checksum(body)]) == HexByte(Checksum(body)) + HexBytes([]);
    HexClean(raw);
  }

  lemma RecordRoundTrip(addr: nat, data: seq<byte>)
    requires |data| < 256
    ensures ReadLine(Record(0, addr, data)) == Data(addr % 65536, data)
  {
    var raw := RecordShape(0, addr, data);
    HexRoundTrip(raw);
    var text := Record(0, addr, data);
    assert StripRight(StripLeft(text)) == text;
    assert text[1..] == HexBytes(raw);
    hide HexBytes, FromHex, StripLeft, StripRight, Record;
    assert raw[..|raw| - 1] == Body(0, addr, data);
    assert raw[4..4 + |data|] == data;
    assert 256 * (addr / 256 % 256) + addr % 256 == addr % 65536 by { LowWord(addr); }
  }

  lemma LowWord(addr: nat)
    ensures 256 * (addr / 256 % 256) + addr % 256 == addr % 65536
  {
    var q := addr / 256;
    assert addr == 65536 * (q / 256) + (256 * (q % 256) + addr % 256);
  }

  /** The checksum catches every change of one byte of a record, whichever byte it is. */
  lemma OneByteCaught(raw: seq<byte>, i: nat, b: byte)
    requires |raw| >= 5 && raw[|raw| - 1] == Checksum(raw[..|raw| - 1])
    requires i < |raw| && b != raw[i]
    ensures ReadRecord(raw[i := b]) == Bad(WrongChecksum)
  {
    var last := |raw| - 1;
    var body, body' := raw[..last], raw[i := b][..last];
    if i < last {
      assert body' == body[i := b];
      SumUpdate(body, i, b);
      var s := Sum(body);
      assert (-s) % 256 != (-(s - raw[i] + b)) % 256 by { Opposites(s, b - raw[i]); }
    } else {
      assert body' == body;
    }
  }

  // A file of records is read back as its chunks.

  /** `sep.join(lines) + sep`. */
  function Joined(lines: seq<string>, sep: string): string {
    if lines == [] then []
    else if |lines| == 1 then lines[0]
    else lines[0] + sep + Joined(lines[1..], sep)
  }

  predicate Clean(line: string) { forall c <- line :: !IsBreak(c) }

  lemma {:induction false} SplitClean(done: string, line: string, sep: string, rest: string)
    requires Clean(line) && (sep == "\r\n" || (sep == "\r" && (rest == [] || rest[0] != '\n')))
    ensures SplitLines(done, line + sep + rest) == [done + line] + SplitLines([], rest)
    decreases |line|
  {
    var text := line + sep + rest;
    if line == [] {
      assert text == sep + rest && done + line == done;
      assert text[|sep|..] == rest;
      assert IsBreak('\r');
    } else {
      assert text[0] == line[0] && text[1..] == line[1..] + sep + rest;
      SplitClean(done + [line[0]], line[1..], sep, rest);
      assert done + [line[0]] + line[1..] == done + line;
    }
  }

  lemma {:induction false} SplitJoined(lines: seq<string>, sep: string)
    requires sep == "\r\n" || sep == "\r"
    requires lines != [] && forall i :: 0 <= i < |lines| ==> Clean(lines[i]) && lines[i] != []
    ensures Lines(Joined(lines, sep) + sep) == lines
    ensures lines[0][0] == Joined(lines, sep)[0]
    decreases |lines|
  {
    if |lines| == 1 {
      SplitClean([], lines[0], sep, []);
      assert lines[0] + sep + [] == Joined(lines, sep) + sep;
      assert [] + lines[0] == lines[0];
    } else {
      SplitJoined(lines[1..], sep);
      assert lines[1..][0] == lines[1];
      var rest := Joined(lines[1..], sep) + sep;
      assert rest[0] == lines[1][0] && !IsBreak(lines[1][0]);
      SplitClean([], lines[0], sep, rest);
      assert lines[0] + sep + rest == Joined(lines, sep) + sep;
      assert [] + lines[0] == lines[0];
    }
  }

  predicate Small(chunks: seq<Chunk>) {
    forall c <- chunks :: |c.data| < 256 && c.addr < 65536
  }

  lemma {:induction false} ReadRecords(chunks: seq<Chunk>, number: nat)
    requires Small(chunks)
    ensures ReadLines(Records(chunks), number) == Success(chunks)
    decreases |chunks|
  {
    hide Record, Records, ReadLine, ReadLines;
    if chunks == [] {
      NothingRead(number);
    } else {
      ReadRecords(chunks[1..], number + 1);
      var first, rest := chunks[0], chunks[1..];
      assert chunks == [first] + rest;
      RecordRoundTrip(first.addr, first.data);
      RecordsCons(first, rest);
      ReadFirst(Record(0, first.addr, first.data), Records(rest), number);
    }
  }

  lemma NothingRead(number: nat)
    ensures Records([]) == [] && ReadLines([], number) == Success([])
  {
  }

  lemma ReadFirst(line: string, rest: seq<string>, number: nat)
    requires ReadLine(line).Data?
    ensures ReadLines([line] + rest, number) == Then([Chunk(ReadLine(line).addr, ReadLine(line).data)], ReadLines(rest, number + 1))
  {
    hide ReadLine;
    assert ([line] + rest)[1..] == rest;
  }

  lemma {:induction false} CleanRecords(chunks: seq<Chunk>)
    requires Small(chunks)
    ensures |Records(chunks)| == |chunks|
    ensures forall i :: 0 <= i < |Records(chunks)| ==> Clean(Records(chunks)[i]) && Records(chunks)[i] != []
    decreases |chunks|
  {
    if chunks != [] {
      var line, rest := Record(0, chunks[0].addr, chunks[0].data), Records(chunks[1..]);
      CleanRecord(chunks[0].addr, chunks[0].data);
      CleanRecords(chunks[1..]);
      assert Records(chunks) == [line] + rest;
    }
  }

  lemma CleanRecord(addr: nat, data: seq<byte>)
    requires |data| < 256
    ensures Clean(Record(0, addr, data)) && Record(0, addr, data) != []
  {
    var raw := RecordShape(0, addr, data);
  }

  /** Writing a file of data records and reading it back, with either line ending. */
  lemma FileRoundTrip(chunks: seq<Chunk>, sep: string)
    requires Small(chunks) && chunks != [] && (sep == "\r\n" || sep == "\r")
    ensures ReadLines(Lines(Joined(Records(chunks), sep) + sep), 1) == Success(chunks)
  {
    ReadRecords(chunks, 1);
    CleanRecords(chunks);
    SplitJoined(Records(chunks), sep);
  }

  // The chunks of a block put the block in place.

  lemma {:induction false} AppliedConcat(base: nat, image: seq<byte>, a: seq<Chunk>, b: seq<Chunk>)
    requires Applied(base, image, a).0
    ensures Applied(base, image, a + b) == Applied(base, Applied(base, image, a).1, b)
    decreases |a|
  {
    if a == [] {
      assert a + b == b;
    } else {
      assert (a + b)[1..] == a[1..] + b;
      if Fits(base, |image|, a[0]) {
        AppliedConcat(base, Overlay(image, a[0].addr - base, a[0].data), a[1..], b);
      } else {
        AppliedConcat(base, image, a[1..], b);
      }
    }
  }

  lemma {:induction false} ApplyChunks(base: nat, image: seq<byte>, addr: nat, data: seq<byte>, maxPerLine: nat)
    requires maxPerLine > 0 && base <= addr && addr - base + |data| <= |image|
    ensures Applied(base, image, Chunks(addr, data, maxPerLine)) == (true, Overlay(image, addr - base, data))
    decreases |data|
  {
    if data == [] {
      assert Overlay(image, addr - base, data) == image;
    } else if |data| <= maxPerLine {
      assert [Chunk(addr, data)][1..] == [];
    } else {
      var head, tail := data[..maxPerLine], data[maxPerLine..];
      var image' := Overlay(image, addr - base, head);
      ApplyChunks(base, image', addr + maxPerLine, tail, maxPerLine);
      var chunks := Chunks(addr, data, maxPerLine);
      assert chunks[0] == Chunk(addr, head) && chunks[1..] == Chunks(addr + maxPerLine, tail, maxPerLine);
      OverlayTwice(image, addr - base, head, tail);
      assert head + tail == data;
    }
  }

  lemma {:induction false} ChunkAddresses(addr: nat, data: seq<byte>, maxPerLine: nat)
    requires 0 < maxPerLine < 256 && addr + |data| <= 65536
    ensures Small(Chunks(addr, data, maxPerLine))
    decreases |data|
  {
    if |data| > maxPerLine {
      ChunkAddresses(addr + maxPerLine, data[maxPerLine..], maxPerLine);
    }
  }
}
