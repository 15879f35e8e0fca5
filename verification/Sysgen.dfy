/** The install file of `mk_sysgen_hex.py`, from BIOS image to verdict: written as Intel HEX,
    read back, loaded into memory and run. */
module Sysgen {
  import opened Bytes
  import opened Wrappers
  import opened Z80
  import opened Validator
  import opened IntelHex

  const SIDE0: nat := 3328
  const SIDE1: nat := 6656
  const BASE: nat := 0x0100
  const T0: nat := 0x4500
  const T1: nat := 0x5F00

  /** The part of the image on side 0 and the part on side 1. */
  function First(cim: seq<byte>): (r: seq<byte>) {
    if |cim| <= SIDE0 then cim else cim[..SIDE0]
  }

  function Second(cim: seq<byte>): seq<byte> {
    if |cim| <= SIDE0 then [] else cim[SIDE0..]
  }

  function Regions(cim: seq<byte>): seq<Region> {
    if |cim| <= SIDE0 then [Region(T0, |cim|)] else [Region(T0, SIDE0), Region(T1, |cim| - SIDE0)]
  }

  function Program(cim: seq<byte>): seq<byte> { Code(Sum(cim) % 65536, Regions(cim)) }

  /** The pieces of the file; the last one is the empty data record that ends a CP/M HEX file. */
  function FileChunks(cim: seq<byte>): seq<Chunk> {
    Chunks(BASE, Program(cim), 16) + Chunks(T0, First(cim), 16) + Chunks(T1, Second(cim), 16) + [Chunk(0, [])]
  }

  lemma FileIsSmall(cim: seq<byte>)
    requires |cim| <= SIDE0 + SIDE1
    ensures Small(FileChunks(cim)) && Short(FileChunks(cim))
  {
    ChunkAddresses(BASE, Program(cim), 16);
    ChunkAddresses(T0, First(cim), 16);
    ChunkAddresses(T1, Second(cim), 16);
  }

  ghost function HexText(cim: seq<byte>, sep: string): string
    requires |cim| <= SIDE0 + SIDE1
  {
    FileIsSmall(cim);
    Joined(Records(FileChunks(cim)), sep) + sep
  }

  /** `main`: the file for CR LF lines and the one for CR lines. */
  method MakeHex(cim: seq<byte>) returns (r: Option<(string, string)>)
    ensures r.Some? <==> |cim| <= SIDE0 + SIDE1
    ensures r.Some? ==> r.value == (HexText(cim, "\r\n"), HexText(cim, "\r"))
  {
    hide Record, Records, Chunks, Short, Sum, Code, HexText, Joined, First, Second, Program, Regions;
    if |cim| > SIDE0 + SIDE1 {
      return None;
    }
    var expectedSum := Sum(cim) % 65536;
    var s0Len := if |cim| < SIDE0 then |cim| else SIDE0;
    var s1Len := if |cim| > SIDE0 then |cim| - SIDE0 else 0;
    var regions := [Region(T0, s0Len)];
    if s1Len > 0 {
      regions := regions + [Region(T0 + SIDE0 + SIDE0, s1Len)];
    }
    Layout(cim, s0Len, regions);
    var validator := BuildValidator(expectedSum, regions);
    var lines := IhexData(BASE, validator, 16);
    var more := IhexData(T0, cim[..s0Len], 16);
    lines := lines + more;
    if |cim| > SIDE0 {
      more := IhexData(T0 + SIDE0 + SIDE0, cim[SIDE0..], 16);
      lines := lines + more;
    }
    lines := lines + [Record(0, 0, [])];
    LinesAre(cim);
    return Some((Joined(lines, "\r\n") + "\r\n", Joined(lines, "\r") + "\r"));
  }

  lemma Layout(cim: seq<byte>, s0Len: nat, regions: seq<Region>)
    requires s0Len == if |cim| < SIDE0 then |cim| else SIDE0
    requires regions == if |cim| > SIDE0 then [Region(T0, s0Len)] + [Region(T0 + SIDE0 + SIDE0, |cim| - SIDE0)] else [Region(T0, s0Len)]
    ensures Code(Sum(cim) % 65536, regions) == Program(cim)
    ensures cim[..s0Len] == First(cim) && (|cim| > SIDE0 ==> cim[SIDE0..] == Second(cim))
  {
    hide Code, Sum;
    assert cim[..|cim|] == cim;
    assert regions == Regions(cim);
  }

  lemma {:induction false} RecordsConcat(a: seq<Chunk>, b: seq<Chunk>)
    requires Short(a) && Short(b)
    ensures Short(a + b) && Records(a + b) == Records(a) + Records(b)
    decreases |a|
  {
    hide *;
    if a == [] {
      assert a + b == b;
      NoChunks(0, [], 1);
    } else {
      var first, rest := a[0], a[1..];
      ShortTail(a);
      RecordsConcat(rest, b);
      assert a == [first] + rest && a + b == [first] + (rest + b);
      RecordsCons(first, rest);
      RecordsCons(first, rest + b);
    }
  }

  lemma ShortTail(a: seq<Chunk>)
    requires a != [] && Short(a)
    ensures |a[0].data| < 256 && Short(a[1..])
  {
  }

  lemma LinesAre(cim: seq<byte>)
    requires |cim| <= SIDE0 + SIDE1
    ensures Short(Chunks(BASE, Program(cim), 16)) && Short(Chunks(T0, First(cim), 16)) && Short(Chunks(T1, Second(cim), 16))
    ensures var lines := Records(Chunks(BASE, Program(cim), 16)) + Records(Chunks(T0, First(cim), 16));
      var all := (if |cim| > SIDE0 then lines + Records(Chunks(T1, Second(cim), 16)) else lines) + [Record(0, 0, [])];
      forall sep :: HexText(cim, sep) == Joined(all, sep) + sep
  {
    FileIsSmall(cim);
    ChunkSizes(BASE, Program(cim), 16);
    ChunkSizes(T0, First(cim), 16);
    ChunkSizes(T1, Second(cim), 16);
    var a, b, c := Chunks(BASE, Program(cim), 16), Chunks(T0, First(cim), 16), Chunks(T1, Second(cim), 16);
    var lines := Records(a) + Records(b);
    var all := if |cim| > SIDE0 then lines + Records(c) else lines;
    assert all == lines + Records(c) by {
      if |cim| <= SIDE0 {
        NoChunks(T1, Second(cim), 16);
        hide *;
        assert lines + [] == lines;
      }
    }
    hide Chunks, Record, Records, Program, Short, Joined, First, Second;
    RecordsFour(a, b, c, Chunk(0, []));
  }

  lemma RecordsFour(a: seq<Chunk>, b: seq<Chunk>, c: seq<Chunk>, end: Chunk)
    requires Short(a) && Short(b) && Short(c) && |end.data| < 256
    ensures Short(a + b + c + [end])
    ensures Records(a + b + c + [end]) == Records(a) + Records(b) + Records(c) + [Record(0, end.addr, end.data)]
  {
    RecordOne(end);
    hide Record, Records, Short;
    RecordsConcat(a, b);
    RecordsConcat(a + b, c);
    RecordsConcat(a + b + c, [end]);
  }

  lemma RecordOne(c: Chunk)
    requires |c.data| < 256
    ensures Short([c]) && Records([c]) == [Record(0, c.addr, c.data)]
  {
    assert [c][1..] == [];
    assert Records([]) == [];
  }

  // Reading the file back and loading it.

  /** Memory after loading: the program, the two parts of the image, and all else as it was. */
  function Image(mem: seq<byte>, cim: seq<byte>): (r: seq<byte>)
    requires |mem| == 65536 && |cim| <= SIDE0 + SIDE1
    ensures |r| == 65536
  {
    Overlay(Overlay(Overlay(mem, BASE, Program(cim)), T0, First(cim)), T1, Second(cim))
  }

  lemma Loads(mem: seq<byte>, cim: seq<byte>)
    requires |mem| == 65536 && |cim| <= SIDE0 + SIDE1
    ensures Applied(0, mem, FileChunks(cim)) == (true, Image(mem, cim))
  {
    Sizes(cim);
    hide Chunks, Program, First, Second, Applied, Overlay;
    LoadsThree(mem, BASE, Program(cim), T0, First(cim), T1, Second(cim), 16);
  }

  lemma LoadsThree(mem: seq<byte>, x: nat, p: seq<byte>, y: nat, a: seq<byte>, z: nat, b: seq<byte>, maxPerLine: nat)
    requires maxPerLine > 0 && x + |p| <= |mem| && y + |a| <= |mem| && z + |b| <= |mem|
    ensures Applied(0, mem, Chunks(x, p, maxPerLine) + Chunks(y, a, maxPerLine) + Chunks(z, b, maxPerLine) + [Chunk(0, [])])
         == (true, Overlay(Overlay(Overlay(mem, x, p), y, a), z, b))
  {
    hide *;
    var m1 := Overlay(mem, x, p);
    var m2 := Overlay(m1, y, a);
    ApplyChunks(0, mem, x, p, maxPerLine);
    ApplyChunks(0, m1, y, a, maxPerLine);
    ApplyChunks(0, m2, z, b, maxPerLine);
    ApplyEnd(Overlay(m2, z, b));
    AppliedFour(mem, Chunks(x, p, maxPerLine), Chunks(y, a, maxPerLine), Chunks(z, b, maxPerLine), [Chunk(0, [])]);
  }

  lemma Sizes(cim: seq<byte>)
    requires |cim| <= SIDE0 + SIDE1
    ensures BASE + |Program(cim)| < T0 && T0 + |First(cim)| <= T1 && T1 + |Second(cim)| <= 65536
  {
  }

  lemma AppliedFour(mem: seq<byte>, a: seq<Chunk>, b: seq<Chunk>, c: seq<Chunk>, d: seq<Chunk>)
    requires Applied(0, mem, a).0
    requires Applied(0, Applied(0, mem, a).1, b).0
    requires Applied(0, Applied(0, Applied(0, mem, a).1, b).1, c).0
    ensures Applied(0, mem, a + b + c + d)
         == Applied(0, Applied(0, Applied(0, Applied(0, mem, a).1, b).1, c).1, d)
  {
    hide Applied;
    AppliedConcat(0, mem, a, b);
    AppliedConcat(0, mem, a + b, c);
    AppliedConcat(0, mem, a + b + c, d);
  }

  lemma ApplyEnd(mem: seq<byte>)
    ensures Applied(0, mem, [Chunk(0, [])]) == (true, mem)
  {
    var end := [Chunk(0, [])];
    assert end[1..] == [];
    assert Overlay(mem, 0, []) == mem;
  }

  lemma ImageParts(mem: seq<byte>, cim: seq<byte>)
    requires |mem| == 65536 && |cim| <= SIDE0 + SIDE1
    ensures CodeAt(Image(mem, cim), BASE, Program(cim)) && BASE + |Program(cim)| < T0
    ensures Image(mem, cim)[T0..T0 + |First(cim)|] == First(cim)
    ensures Image(mem, cim)[T1..T1 + |Second(cim)|] == Second(cim)
  {
    var p, a, b := Program(cim), First(cim), Second(cim);
    Sizes(cim);
    var m1 := Overlay(mem, BASE, p);
    var m2 := Overlay(m1, T0, a);
    var m3 := Overlay(m2, T1, b);
    assert Image(mem, cim) == m3;
    hide Overlay, Program, First, Second, Image;
    OverlayInside(mem, BASE, p, BASE, BASE + |p|);
    OverlayInside(m1, T0, a, T0, T0 + |a|);
    OverlayInside(m2, T1, b, T1, T1 + |b|);
    OverlayOutside(m1, T0, a, BASE, BASE + |p|);
    OverlayOutside(m2, T1, b, BASE, BASE + |p|);
    OverlayOutside(m2, T1, b, T0, T0 + |a|);
  }

  // The sum the program takes.

  lemma {:induction false} SumOfSlice(mem: seq<byte>, at: nat, n: nat)
    requires |mem| == 65536 && at + n <= 65536
    ensures SumFrom(mem, Wrap(at), n) == Sum(mem[at..at + n])
    decreases n
  {
    WrapNext(at);
    if n > 0 {
      hide SumFrom, Wrap;
      SumOfSlice(mem, at + 1, n - 1);
      assert Wrap(at) == at by { Small16(at); }
      SumUnfolds(mem, at, n);
      assert mem[at..at + n][1..] == mem[at + 1..at + n];
    }
  }

  lemma RegionIs(mem: seq<byte>, at: nat, part: seq<byte>)
    requires |mem| == 65536 && 0 < |part| < 65536 && at + |part| <= 65536 && mem[at..at + |part|] == part
    ensures RegionSum(mem, Region(at, |part|)) == Sum(part)
  {
    hide SumFrom, Sum;
    SumOfSlice(mem, at, |part|);
  }

  lemma TotalOne(mem: seq<byte>, r: Region)
    requires |mem| == 65536
    ensures Total(mem, [r]) == RegionSum(mem, r)
  {
    assert [r][1..] == [];
  }

  lemma TotalTwo(mem: seq<byte>, r: Region, q: Region)
    requires |mem| == 65536
    ensures Total(mem, [r, q]) == RegionSum(mem, r) + RegionSum(mem, q)
  {
    assert [r, q][1..] == [q];
    TotalOne(mem, q);
  }

  /** Any memory that holds the two parts of a non-empty image has the image's sum in the
      regions of the program. */
  lemma PayloadTotal(mem: seq<byte>, cim: seq<byte>)
    requires |mem| == 65536 && 0 < |cim| <= SIDE0 + SIDE1
    requires mem[T0..T0 + |First(cim)|] == First(cim) && mem[T1..T1 + |Second(cim)|] == Second(cim)
    ensures Total(mem, Regions(cim)) == Sum(cim)
  {
    hide Sum, RegionSum, Total;
    if |cim| <= SIDE0 {
      RegionIs(mem, T0, First(cim));
      TotalOne(mem, Region(T0, |cim|));
    } else {
      RegionIs(mem, T0, First(cim));
      RegionIs(mem, T1, Second(cim));
      TotalTwo(mem, Region(T0, SIDE0), Region(T1, |cim| - SIDE0));
      assert First(cim) + Second(cim) == cim;
      SumConcat(First(cim), Second(cim));
    }
  }

  /** The file read back is its chunks, and loading them gives `Image`. */
  lemma FileLoads(cim: seq<byte>, sep: string, mem: seq<byte>)
    requires |cim| <= SIDE0 + SIDE1 && |mem| == 65536 && (sep == "\r\n" || sep == "\r")
    ensures ReadLines(Lines(HexText(cim, sep)), 1) == Success(FileChunks(cim))
    ensures Applied(0, mem, FileChunks(cim)) == (true, Image(mem, cim))
  {
    FileIsSmall(cim);
    hide ReadLines, Lines, Joined, Records, Chunks, Small;
    FileRoundTrip(FileChunks(cim), sep);
    Loads(mem, cim);
  }

  /** Loading the file made from any image of 1 to 9984 bytes into any memory and running it
      prints `OK`. */
  lemma InstallPrintsOk(cim: seq<byte>, sep: string, mem: seq<byte>, bdos: Bdos, s: Cpu)
    requires 0 < |cim| <= SIDE0 + SIDE1 && |mem| == 65536 && (sep == "\r\n" || sep == "\r") && s.pc == BASE
    ensures var file := ReadLines(Lines(HexText(cim, sep)), 1);
      file.Success? && Applied(0, mem, file.value).0
      && Leads(Applied(0, mem, file.value).1, bdos, s, Returned(s.out + OK))
  {
    hide ReadLines, Lines, HexText, Applied, FileChunks, Image, Leads, Code, Total;
    FileLoads(cim, sep, mem);
    var m := Image(mem, cim);
    ImageParts(mem, cim);
    PayloadTotal(m, cim);
    ValidatorCorrect(m, bdos, s, Sum(cim) % 65536, Regions(cim));
  }

  /** If one byte of the image is wrong in memory when the program runs, it prints `FAIL`. */
  lemma OneWrongBytePrintsFail(cim: seq<byte>, i: nat, x: byte, mem: seq<byte>, bdos: Bdos, s: Cpu)
    requires |cim| <= SIDE0 + SIDE1 && i < |cim| && x != cim[i] && |mem| == 65536 && s.pc == BASE
    requires CodeAt(mem, BASE, Program(cim))
    requires var bad := cim[i := x];
      mem[T0..T0 + |First(bad)|] == First(bad) && mem[T1..T1 + |Second(bad)|] == Second(bad)
    ensures Leads(mem, bdos, s, Returned(s.out + FAIL))
  {
    hide Leads, Code, Total, CodeAt;
    assert |Program(cim)| < 1000;
    PayloadTotal(mem, cim[i := x]);
    SumUpdate(cim, i, x);
    Opposites(Sum(cim), x - cim[i]);
    ValidatorCorrect(mem, bdos, s, Sum(cim) % 65536, Regions(cim));
  }

  /** An empty image makes the program sum all of memory, itself included: it prints `OK`
      exactly when that sum happens to be a multiple of 65536. */
  lemma EmptyImage(sep: string, mem: seq<byte>, bdos: Bdos, s: Cpu)
    requires |mem| == 65536 && (sep == "\r\n" || sep == "\r") && s.pc == BASE
    ensures var m := Overlay(mem, BASE, Program([]));
      ReadLines(Lines(HexText([], sep)), 1) == Success(FileChunks([]))
      && Applied(0, mem, FileChunks([])) == (true, m)
      && Leads(m, bdos, s, Returned(s.out + if Sum(m) % 65536 == 0 then OK else FAIL))
  {
    hide ReadLines, Lines, HexText, Applied, FileChunks, Leads, Code, Total, RegionSum, Overlay;
    FileLoads([], sep, mem);
    var m := Image(mem, []);
    ImageParts(mem, []);
    assert m == Overlay(mem, BASE, Program([])) by {
      OverlayNothing(Overlay(mem, BASE, Program([])), T0);
      OverlayNothing(Overlay(mem, BASE, Program([])), T1);
    }
    TotalOne(m, Region(T0, 0));
    WholeSum(m, T0);
    ValidatorCorrect(m, bdos, s, Sum([]) % 65536, Regions([]));
  }

  lemma Small16(at: nat)
    requires at < 65536
    ensures Wrap(at) == at
  {
  }

  lemma WrapNext(at: nat)
    ensures Wrap(Wrap(at) + 1) == Wrap(at + 1)
  {
  }

  lemma {:induction false} SumFromSplit(mem: seq<byte>, at: nat, m: nat, n: nat)
    requires |mem| == 65536
    ensures SumFrom(mem, Wrap(at), m + n) == SumFrom(mem, Wrap(at), m) + SumFrom(mem, Wrap(at + m), n)
    decreases m
  {
    WrapNext(at);
    if m == 0 {
      assert SumFrom(mem, Wrap(at), 0) == 0;
    } else {
      hide SumFrom, Wrap;
      SumFromSplit(mem, at + 1, m - 1, n);
      SumUnfolds(mem, Wrap(at), m + n);
      SumUnfolds(mem, Wrap(at), m);
    }
  }

  lemma WholeSum(mem: seq<byte>, at: nat)
    requires |mem| == 65536 && at < 65536
    ensures RegionSum(mem, Region(at, 0)) == Sum(mem)
  {
    hide SumFrom, Sum;
    var n := 65536 - at;
    SumFromSplit(mem, at, n, at);
    SumOfSlice(mem, at, n);
    SumOfSlice(mem, 0, at);
    assert Wrap(at) == at && Wrap(at + n) == 0 && n + at == Rounds(0);
    assert mem[0..at] == mem[..at] && mem[at..at + n] == mem[at..];
    assert mem[..at] + mem[at..] == mem;
    SumConcat(mem[..at], mem[at..]);
  }
}
