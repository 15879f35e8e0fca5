/** What an Intel HEX text means: which lines `apply_hex.py` passes over, which bytes the others spell,
    and where reading ends. Independent of how the reader strips, splits and scans. */
module HexFiles {
  import opened Bytes
  import opened IntelHex
  import opened Wrappers

  // Lines.

  predicate White(s: string) { forall c <- s :: IsSpace(c) && !IsBreak(c) }

  /** A blank line, or one whose first character that is not white space is no colon. */
  predicate Aside(line: string) {
    exists k :: 0 <= k <= |line| && (forall i :: 0 <= i < k ==> IsSpace(line[i]))
             && (k < |line| ==> !IsSpace(line[k]) && line[k] != ':')
  }

  /** A hexadecimal digit, in either case. */
  predicate IsDigitOf(c: char, n: nat)
    requires n < 16
  {
    c == "0123456789ABCDEF"[n] || c == "0123456789abcdef"[n]
  }

  predicate Spelled(s: string, raw: seq<byte>) {
    |s| == 2 * |raw|
    && forall i :: 0 <= i < |raw| ==> IsDigitOf(s[2 * i], raw[i] / 16) && IsDigitOf(s[2 * i + 1], raw[i] % 16)
  }

  lemma {:induction false} SpelledRead(s: string, raw: seq<byte>)
    requires Spelled(s, raw)
    ensures FromHex(s) == Some(raw)
    decreases |raw|
  {
    if raw == [] {
      return;
    }
    FirstPair(s, raw);
    SpelledRest(s, raw);
    hide *;
    SpelledRead(s[2..], raw[1..]);
    assert [raw[0]] + raw[1..] == raw;
    PairRead(s, raw[0] / 16, raw[0] % 16);
  }

  lemma FirstPair(s: string, raw: seq<byte>)
    requires raw != [] && Spelled(s, raw)
    ensures |s| >= 2 && !IsAsciiSpace(s[0]) && DigitValue(s[0]) == Some(raw[0] / 16) && DigitValue(s[1]) == Some(raw[0] % 16)
    ensures raw[0] == 16 * (raw[0] / 16) + raw[0] % 16
  {
    hide DigitValue, IsDigitOf, IsAsciiSpace;
    assert IsDigitOf(s[2 * 0], raw[0] / 16) && IsDigitOf(s[2 * 0 + 1], raw[0] % 16);
    DigitRead(s[0], raw[0] / 16);
    DigitRead(s[1], raw[0] % 16);
  }

  lemma SpelledRest(s: string, raw: seq<byte>)
    requires raw != [] && Spelled(s, raw)
    ensures Spelled(s[2..], raw[1..])
  {
    var t, rest := s[2..], raw[1..];
    hide IsDigitOf;
    forall i | 0 <= i < |rest| ensures IsDigitOf(t[2 * i], rest[i] / 16) && IsDigitOf(t[2 * i + 1], rest[i] % 16) {
      assert t[2 * i] == s[2 * (i + 1)] && t[2 * i + 1] == s[2 * (i + 1) + 1] && rest[i] == raw[i + 1];
    }
  }

  lemma PairRead(s: string, high: nat, low: nat)
    requires |s| >= 2 && high < 16 && low < 16 && !IsAsciiSpace(s[0])
    requires DigitValue(s[0]) == Some(high) && DigitValue(s[1]) == Some(low)
    ensures FromHex(s) == if FromHex(s[2..]).None? then None else Some([16 * high + low] + FromHex(s[2..]).value)
  {
    hide DigitValue, IsAsciiSpace;
  }

  lemma DigitRead(c: char, n: nat)
    requires n < 16 && IsDigitOf(c, n)
    ensures DigitValue(c) == Some(n) && !IsAsciiSpace(c) && !IsSpace(c) && !IsBreak(c)
  {
  }

  lemma {:induction false} SpelledClean(s: string, raw: seq<byte>)
    requires Spelled(s, raw)
    ensures forall c <- s :: !IsSpace(c) && !IsBreak(c)
  {
    forall k | 0 <= k < |s| ensures !IsSpace(s[k]) && !IsBreak(s[k]) {
      var i := k / 2;
      assert IsDigitOf(s[2 * i], raw[i] / 16) && IsDigitOf(s[2 * i + 1], raw[i] % 16);
      DigitRead(s[k], if k % 2 == 0 then raw[i] / 16 else raw[i] % 16);
    }
  }

  lemma {:induction false} LeadStripped(lead: string, s: string)
    requires (forall c <- lead :: IsSpace(c)) && (s != [] ==> !IsSpace(s[0]))
    ensures StripLeft(lead + s) == s
    decreases |lead|
  {
    if lead == [] {
      assert lead + s == s;
    } else {
      assert lead[0] in lead && (lead + s)[1..] == lead[1..] + s;
      LeadStripped(lead[1..], s);
    }
  }

  lemma {:induction false} TrailStripped(s: string, trail: string)
    requires (forall c <- trail :: IsSpace(c)) && (s != [] ==> !IsSpace(s[|s| - 1]))
    ensures StripRight(s + trail) == s
    decreases |trail|
  {
    if trail == [] {
      assert s + trail == s;
    } else {
      var n := |trail| - 1;
      assert trail[n] in trail && (s + trail)[..|s| + n] == s + trail[..n];
      TrailStripped(s, trail[..n]);
    }
  }

  /** Only white space is stripped from the end. */
  lemma {:induction false} StripRightKeeps(s: string)
    ensures |StripRight(s)| <= |s| && StripRight(s) == s[..|StripRight(s)|]
    ensures forall i :: |StripRight(s)| <= i < |s| ==> IsSpace(s[i])
    decreases |s|
  {
    if s != [] && IsSpace(s[|s| - 1]) {
      StripRightKeeps(s[..|s| - 1]);
      forall i | |StripRight(s)| <= i < |s| - 1 ensures IsSpace(s[i]) {
        assert s[i] == s[..|s| - 1][i];
      }
    }
  }

  /** Such lines are passed over. */
  lemma AsideSkipped(line: string)
    requires Aside(line)
    ensures ReadLine(line) == Skipped
  {
    var k :| 0 <= k <= |line| && (forall i :: 0 <= i < k ==> IsSpace(line[i]))
          && (k < |line| ==> !IsSpace(line[k]) && line[k] != ':');
    LeadStripped(line[..k], line[k..]);
    assert line[..k] + line[k..] == line;
    StripRightKeeps(line[k..]);
    hide StripLeft, StripRight;
  }

  /** A colon and the digits of some bytes, with white space round them, is read as those bytes. */
  lemma SpelledLine(lead: string, digits: string, raw: seq<byte>, trail: string)
    requires White(lead) && White(trail) && Spelled(digits, raw)
    ensures ReadLine(lead + ":" + digits + trail) == ReadRecord(raw)
    ensures Clean(lead + ":" + digits + trail)
  {
    SpelledClean(digits, raw);
    SpelledRead(digits, raw);
    var line := ":" + digits;
    assert lead + ":" + digits + trail == lead + (line + trail);
    LeadStripped(lead, line + trail);
    TrailStripped(line, trail);
    assert line[1..] == digits;
    hide StripLeft, StripRight, FromHex, ReadRecord, Spelled;
  }

  /** The bytes of a record, checksum included, must sum to zero; type 0 is data, type 1 the end, and other
      types are passed over. The data are as many bytes as the first one says, or all there are. */
  lemma RecordMeaning(raw: seq<byte>)
    ensures ReadRecord(raw)
         == if |raw| < 5 then Bad(TooShort)
            else if Sum(raw) % 256 != 0 then Bad(WrongChecksum)
            else if raw[3] == 0 then Data(256 * (raw[1] as int) + raw[2] as int, Payload(raw))
            else if raw[3] == 1 then End
            else Skipped
  {
    if |raw| >= 5 {
      var n := |raw| - 1;
      assert raw[..n] + [raw[n]] == raw;
      SumSnoc(raw[..n], raw[n]);
      hide Sum;
      ChecksumIs(Sum(raw[..n]), raw[n]);
    }
  }

  lemma ChecksumIs(total: int, last: byte)
    ensures last == (-total) % 256 <==> (total + last) % 256 == 0
  {
  }

  function Payload(raw: seq<byte>): (data: seq<byte>)
    requires |raw| >= 5
    ensures |data| == if raw[0] <= |raw| - 4 then raw[0] as int else |raw| - 4
    ensures forall k :: 0 <= k < |data| ==> data[k] == raw[4 + k]
  {
    raw[4..if 4 + raw[0] <= |raw| then 4 + raw[0] else |raw|]
  }

  // Text that is no record.

  lemma {:induction false} NoDigitNoBytes(s: string, i: nat)
    requires i < |s| && DigitValue(s[i]).None? && !IsAsciiSpace(s[i])
    ensures FromHex(s) == None
    decreases |s|
  {
    if IsAsciiSpace(s[0]) {
      NoDigitNoBytes(s[1..], i - 1);
    } else if |s| >= 2 && i >= 2 {
      NoDigitNoBytes(s[2..], i - 2);
    }
  }

  function Digits(s: string): nat {
    if s == [] then 0 else (if IsAsciiSpace(s[0]) then 0 else 1) + Digits(s[1..])
  }

  lemma {:induction false} OddNoBytes(s: string)
    requires FromHex(s).Some?
    ensures Digits(s) % 2 == 0
    decreases |s|
  {
    if s != [] {
      if IsAsciiSpace(s[0]) {
        OddNoBytes(s[1..]);
      } else {
        DigitNoSpace(s[1]);
        hide DigitValue, IsAsciiSpace;
        OddNoBytes(s[2..]);
        assert s[1..][1..] == s[2..];
      }
    }
  }

  lemma DigitNoSpace(c: char)
    ensures DigitValue(c).Some? ==> !IsAsciiSpace(c)
  {
  }

  /** A colon and then something other than digits and white space is an error. */
  lemma GarbageLine(lead: string, s: string, i: nat)
    requires White(lead) && i < |s| && DigitValue(s[i]).None? && !IsSpace(s[i]) && !IsAsciiSpace(s[i])
    ensures ReadLine(lead + ":" + s) == Bad(BadHex)
  {
    var line := ":" + s;
    assert lead + ":" + s == lead + line;
    LeadStripped(lead, line);
    StripRightKeeps(line);
    var t := StripRight(line);
    assert line[i + 1] == s[i];
    assert i + 1 < |t| && t[0] == ':' && t[1..][i] == s[i];
    NoDigitNoBytes(t[1..], i);
    hide StripLeft, StripRight, FromHex;
  }

  // Files.

  datatype Item = Note(line: string) | Bytes(lead: string, digits: string, raw: seq<byte>, trail: string)

  function Shown(item: Item): string {
    match item
    case Note(line) => line
    case Bytes(lead, digits, _, trail) => lead + ":" + digits + trail
  }

  /** Bytes that make a record with a right checksum. */
  predicate Sound(raw: seq<byte>) { |raw| >= 5 && Sum(raw) % 256 == 0 }

  predicate Written(item: Item) {
    item.Bytes? && White(item.lead) && White(item.trail) && Spelled(item.digits, item.raw)
  }

  /** A line that neither ends the reading nor is an error. */
  predicate Fine(item: Item) {
    match item
    case Note(line) => Clean(line) && Aside(line)
    case Bytes(_, _, raw, _) => Written(item) && Sound(raw) && raw[3] != 1
  }

  predicate AllFine(items: seq<Item>) { forall i :: 0 <= i < |items| ==> Fine(items[i]) }

  /** A data record's chunk; other lines have none. */
  function ChunkOf(item: Item): seq<Chunk>
    requires Fine(item)
  {
    if item.Bytes? && item.raw[3] == 0 then [Chunk(256 * (item.raw[1] as int) + item.raw[2] as int, Payload(item.raw))] else []
  }

  /** The chunks of the data records, in order. */
  function Pieces(items: seq<Item>): seq<Chunk>
    requires AllFine(items)
  {
    if items == [] then [] else ChunkOf(items[0]) + Pieces(items[1..])
  }

  predicate LineEnd(sep: string) { sep == "\n" || sep == "\r\n" || sep == "\r" }

  function Text(items: seq<Item>, sep: string): string {
    if items == [] then [] else Shown(items[0]) + sep + Text(items[1..], sep)
  }

  lemma {:induction false} SplitOff(done: string, line: string, sep: string, rest: string)
    requires Clean(line) && LineEnd(sep) && (sep == "\r" && rest != [] ==> rest[0] != '\n')
    ensures SplitLines(done, line + sep + rest) == [done + line] + SplitLines([], rest)
    decreases |line|
  {
    var text := line + sep + rest;
    if line == [] {
      assert text == sep + rest && done + line == done;
      assert text[|sep|..] == rest;
      assert IsBreak('\r') && IsBreak('\n');
    } else {
      assert line[0] in line;
      assert text[0] == line[0] && text[1..] == line[1..] + sep + rest;
      SplitOff(done + [line[0]], line[1..], sep, rest);
      assert done + [line[0]] + line[1..] == done + line;
    }
  }

  /** The line is read as data, or passed over. */
  predicate Reads(line: string, chunks: seq<Chunk>) {
    var r := ReadLine(line);
    || (r.Skipped? && chunks == [])
    || (r.Data? && chunks == [Chunk(r.addr, r.data)])
  }

  lemma FineRead(item: Item)
    requires Fine(item)
    ensures Clean(Shown(item))
    ensures Reads(Shown(item), ChunkOf(item))
  {
    hide White, Spelled, ReadRecord, ReadLine, Aside, Sum;
    match item {
      case Note(line) => AsideSkipped(line);
      case Bytes(lead, digits, raw, trail) =>
        SpelledLine(lead, digits, raw, trail);
        RecordMeaning(raw);
    }
  }

  lemma NotBreakFirst(items: seq<Item>, sep: string, tail: string)
    requires AllFine(items) && sep == "\r" && (tail != [] ==> tail[0] != '\n')
    ensures var rest := Text(items, sep) + tail; rest != [] ==> rest[0] != '\n'
  {
    if items != [] {
      FineRead(items[0]);
      hide Fine;
      assert Shown(items[0]) != [] ==> Shown(items[0])[0] in Shown(items[0]);
    }
  }

  lemma {:induction false} FileRead(items: seq<Item>, sep: string, tail: string, number: nat)
    requires AllFine(items) && LineEnd(sep) && (sep == "\r" && tail != [] ==> tail[0] != '\n')
    ensures ReadLines(Lines(Text(items, sep) + tail), number)
         == Then(Pieces(items), ReadLines(Lines(tail), number + |items|))
    decreases |items|
  {
    hide *;
    if items == [] {
      NoItems(sep, tail, ReadLines(Lines(tail), number));
    } else {
      var first, rest := items[0], items[1..];
      FirstFine(items);
      FineRead(first);
      FileRead(rest, sep, tail, number + 1);
      TextSplit(items, sep, tail);
      LineThenRest(Shown(first), ChunkOf(first), Lines(Text(rest, sep) + tail), number, Pieces(rest),
                   ReadLines(Lines(tail), number + |items|));
    }
  }

  lemma NoItems(sep: string, tail: string, end: Parsed)
    ensures AllFine([]) && Text([], sep) + tail == tail && Then(Pieces([]), end) == end
  {
    ThenThen([], end);
  }

  lemma FirstFine(items: seq<Item>)
    requires items != [] && AllFine(items)
    ensures Fine(items[0]) && AllFine(items[1..]) && Pieces(items) == ChunkOf(items[0]) + Pieces(items[1..])
  {
    hide Fine;
  }

  lemma TextSplit(items: seq<Item>, sep: string, tail: string)
    requires items != [] && AllFine(items) && LineEnd(sep) && (sep == "\r" && tail != [] ==> tail[0] != '\n')
    ensures Lines(Text(items, sep) + tail) == [Shown(items[0])] + Lines(Text(items[1..], sep) + tail)
  {
    hide *;
    var line, more := Shown(items[0]), Text(items[1..], sep) + tail;
    FirstFine(items);
    FineRead(items[0]);
    if sep == "\r" {
      NotBreakFirst(items[1..], sep, tail);
    }
    TextCons(items, sep, tail);
    LineOff(line, sep, more);
  }

  lemma TextCons(items: seq<Item>, sep: string, tail: string)
    requires items != []
    ensures Text(items, sep) + tail == Shown(items[0]) + sep + (Text(items[1..], sep) + tail)
  {
    hide Shown;
    var a, b, c := Shown(items[0]), sep, Text(items[1..], sep);
    assert a + b + c + tail == a + b + (c + tail);
  }

  lemma LineOff(line: string, sep: string, rest: string)
    requires Clean(line) && LineEnd(sep) && (sep == "\r" && rest != [] ==> rest[0] != '\n')
    ensures Lines(line + sep + rest) == [line] + Lines(rest)
  {
    SplitOff([], line, sep, rest);
    hide SplitLines, Clean;
    assert [] + line == line;
  }

  lemma LineThenRest(line: string, chunks: seq<Chunk>, more: seq<string>, number: nat, pieces: seq<Chunk>, end: Parsed)
    requires Reads(line, chunks) && ReadLines(more, number + 1) == Then(pieces, end)
    ensures ReadLines([line] + more, number) == Then(chunks + pieces, end)
  {
    hide ReadLine;
    assert ([line] + more)[1..] == more;
    assert [] + pieces == pieces;
    if end.Success? {
      assert chunks + (pieces + end.value) == chunks + pieces + end.value;
    }
  }

  /** Where a text goes on behind its first line. */
  predicate Behind(rest: string) { rest == [] || IsBreak(rest[0]) }

  lemma {:induction false} FirstLine(done: string, line: string, rest: string)
    requires Clean(line) && Behind(rest) && done + line != []
    ensures SplitLines(done, line + rest) != [] && SplitLines(done, line + rest)[0] == done + line
    decreases |line|
  {
    if line == [] {
      assert line + rest == rest && done + line == done;
    } else {
      assert line[0] in line;
      assert (line + rest)[0] == line[0] && (line + rest)[1..] == line[1..] + rest;
      FirstLine(done + [line[0]], line[1..], rest);
      assert done + [line[0]] + line[1..] == done + line;
    }
  }

  /** Data records among any other lines: exactly their chunks, in order. */
  lemma WholeFile(items: seq<Item>, sep: string)
    requires AllFine(items) && LineEnd(sep)
    ensures ReadLines(Lines(Text(items, sep)), 1) == Success(Pieces(items))
  {
    FileRead(items, sep, [], 1);
    hide Text, Pieces;
    assert Text(items, sep) + [] == Text(items, sep) && Lines([]) == [];
    ThenThen(Pieces(items), Success([]));
  }

  /** An end record ends the reading, whatever stands behind its line. */
  lemma EndedFile(items: seq<Item>, sep: string, end: Item, rest: string)
    requires AllFine(items) && LineEnd(sep)
    requires Written(end) && Sound(end.raw) && end.raw[3] == 1 && Behind(rest)
    ensures ReadLines(Lines(Text(items, sep) + (Shown(end) + rest)), 1) == Success(Pieces(items))
  {
    SpelledLine(end.lead, end.digits, end.raw, end.trail);
    RecordMeaning(end.raw);
    Stopped(items, sep, Shown(end), rest);
    hide *;
    ThenThen(Pieces(items), Success([]));
  }

  /** The first line that is no proper record is reported with its number, whatever stands behind it. */
  lemma BrokenFile(items: seq<Item>, sep: string, line: string, error: HexError, rest: string)
    requires AllFine(items) && LineEnd(sep) && Clean(line) && ReadLine(line) == Bad(error) && Behind(rest)
    ensures ReadLines(Lines(Text(items, sep) + (line + rest)), 1) == Failure((|items| + 1, error))
  {
    assert line != [];
    Stopped(items, sep, line, rest);
  }

  lemma Stopped(items: seq<Item>, sep: string, line: string, rest: string)
    requires AllFine(items) && LineEnd(sep) && Clean(line) && line != [] && Behind(rest)
    requires ReadLine(line).End? || ReadLine(line).Bad?
    ensures ReadLines(Lines(Text(items, sep) + (line + rest)), 1)
         == Then(Pieces(items), if ReadLine(line).End? then Success([]) else Failure((|items| + 1, ReadLine(line).error)))
  {
    hide *;
    CleanFirst(line, rest);
    FileRead(items, sep, line + rest, 1);
    LineFirst(line, rest, |items| + 1);
  }

  lemma CleanFirst(line: string, rest: string)
    requires Clean(line) && line != []
    ensures line + rest != [] && (line + rest)[0] != '\n'
  {
    assert line[0] in line;
  }

  lemma LineFirst(line: string, rest: string, number: nat)
    requires Clean(line) && line != [] && Behind(rest)
    requires ReadLine(line).End? || ReadLine(line).Bad?
    ensures ReadLines(Lines(line + rest), number)
         == if ReadLine(line).End? then Success([]) else Failure((number, ReadLine(line).error))
  {
    FirstLine([], line, rest);
    assert [] + line == line;
    hide ReadLine, SplitLines;
  }
}
