/** The ImageDisk format from the writer's side: every kind of sector record, the optional maps and
    whole files, and that the parser reads them all back. */
module ImdFiles {
  import opened Bytes
  import opened Imd
  import opened Wrappers

  /** A sector and the type of its record: unavailable, or normal, deleted, with an error or both, each as
      it is or compressed to one byte. */
  datatype Stored = Stored(kind: byte, num: byte, data: seq<byte>)

  predicate Storable(s: Stored, size: nat) {
    && |s.data| == size > 0 && s.kind <= 8
    && (s.kind == 0 ==> forall i :: 0 <= i < size ==> s.data[i] == 0)
    && (s.kind in {2, 4, 6, 8} ==> forall i :: 0 <= i < size ==> s.data[i] == s.data[0])
  }

  function RecordBytes(s: Stored): seq<byte>
    requires s.data != []
  {
    match s.kind
    case 0 => [0]
    case 2 => [2, s.data[0]]
    case 4 => [4, s.data[0]]
    case 6 => [6, s.data[0]]
    case 8 => [8, s.data[0]]
    case kind => [kind] + s.data
  }

  predicate AllStorable(l: seq<Stored>, size: nat) { forall i :: 0 <= i < |l| ==> Storable(l[i], size) }

  function AllRecords(l: seq<Stored>, size: nat): seq<byte>
    requires AllStorable(l, size)
  {
    if l == [] then [] else RecordBytes(l[0]) + AllRecords(l[1..], size)
  }

  function Numbers(l: seq<Stored>): (r: seq<byte>)
    ensures |r| == |l|
  {
    if l == [] then [] else [l[0].num] + Numbers(l[1..])
  }

  function Contents(l: seq<Stored>): seq<Sector> {
    if l == [] then [] else [Sector(l[0].num, l[0].data)] + Contents(l[1..])
  }

  lemma RecordRead(pre: seq<byte>, s: Stored, size: nat, post: seq<byte>)
    requires Storable(s, size)
    ensures ReadSector(pre + RecordBytes(s) + post, |pre|, s.num, size)
         == Success((Sector(s.num, s.data), |pre| + |RecordBytes(s)|))
  {
    var bytes := RecordBytes(s);
    var file := pre + bytes + post;
    assert file[|pre|] == bytes[0] == s.kind;
    if s.kind == 0 {
      assert Filled(0, size) == s.data;
    } else if s.kind % 2 == 0 {
      assert file[|pre| + 1] == bytes[1] == s.data[0];
      assert Filled(s.data[0], size) == s.data;
    } else {
      assert file == (pre + [s.kind]) + s.data + post;
      SliceInside(pre + [s.kind], s.data, post);
    }
  }

  lemma {:induction false} RecordsRead(pre: seq<byte>, l: seq<Stored>, size: nat, post: seq<byte>)
    requires AllStorable(l, size)
    ensures ReadSectors(pre + AllRecords(l, size) + post, |pre|, Numbers(l), size)
         == Success((Contents(l), |pre| + |AllRecords(l, size)|))
    decreases |l|
  {
    hide RecordBytes, ReadSector;
    if l != [] {
      assert l[0].data != [];
      hide Storable;
      var first, rest := RecordBytes(l[0]), AllRecords(l[1..], size);
      RecordRead(pre, l[0], size, rest + post);
      RecordsRead(pre + first, l[1..], size, post);
      var file := pre + AllRecords(l, size) + post;
      assert file == pre + first + (rest + post) && file == (pre + first) + rest + post;
      assert Numbers(l)[0] == l[0].num && Numbers(l)[1..] == Numbers(l[1..]);
      hide ReadSectors, AllRecords, Numbers, Contents;
      ReadMore(file, |pre|, Numbers(l), size, Sector(l[0].num, l[0].data), |pre + first|);
    }
  }

  /** A track as it is to be stored, with a cylinder map and a head map of one byte for each sector, or
      without. */
  datatype Layout = Layout(mode: byte, cyl: byte, head: byte, sizeCode: byte,
                           cylMap: Option<seq<byte>>, headMap: Option<seq<byte>>, sectors: seq<Stored>)

  predicate Proper(t: Layout) {
    && t.head < 64 && |t.sectors| < 256 && AllStorable(t.sectors, Size(t.sizeCode))
    && (t.cylMap.Some? ==> |t.cylMap.value| == |t.sectors|) && (t.headMap.Some? ==> |t.headMap.value| == |t.sectors|)
  }

  function HeadByte(t: Layout): byte
    requires t.head < 64
  {
    t.head + (if t.cylMap.Some? then 128 else 0) + (if t.headMap.Some? then 64 else 0)
  }

  function MapBytes(m: Option<seq<byte>>): seq<byte> { if m.Some? then m.value else [] }

  function Head(t: Layout): seq<byte>
    requires Proper(t)
  {
    [t.mode, t.cyl, HeadByte(t), |t.sectors|, t.sizeCode] + Numbers(t.sectors) + MapBytes(t.cylMap) + MapBytes(t.headMap)
  }

  function LayoutBytes(t: Layout): seq<byte>
    requires Proper(t)
  {
    Head(t) + AllRecords(t.sectors, Size(t.sizeCode))
  }

  /** The track it is read as, at a place in a file. */
  function Parsing(t: Layout, at: nat): Track
    requires Proper(t)
  {
    Track(t.mode, t.cyl, HeadByte(t), t.sizeCode, Numbers(t.sectors), Contents(t.sectors), at, at + |LayoutBytes(t)|)
  }

  lemma HeadRead(pre: seq<byte>, t: Layout, rest: seq<byte>)
    requires Proper(t)
    ensures HeaderAt(pre + Head(t) + rest, |pre|, Parsing(t, |pre|))
    ensures |pre| + 5 <= |pre + Head(t) + rest| && DataStart(pre + Head(t) + rest, |pre|) == |pre| + |Head(t)|
  {
    var h := Head(t);
    hide AllRecords, Contents, Numbers, AllStorable;
    var file := pre + h + rest;
    assert forall i :: 0 <= i < |h| ==> file[|pre| + i] == h[i];
    assert h[0] == t.mode && h[1] == t.cyl && h[2] == HeadByte(t) && h[3] == |t.sectors| && h[4] == t.sizeCode;
    assert file[|pre| + 5..|pre| + 5 + |t.sectors|] == h[5..5 + |t.sectors|] == Numbers(t.sectors);
  }

  /** A track is read back with its sectors of any type, and its maps are passed over. */
  lemma LayoutRead(pre: seq<byte>, t: Layout, post: seq<byte>)
    requires Proper(t)
    ensures ReadTrack(pre + LayoutBytes(t) + post, |pre|) == Success(Parsing(t, |pre|))
  {
    var size, h := Size(t.sizeCode), Head(t);
    var records := AllRecords(t.sectors, size);
    hide *;
    HeadRead(pre, t, records + post);
    RecordsRead(pre + h, t.sectors, size, post);
    Regroup(pre, h, records, post);
    Together(pre, t, post, h, records);
  }

  lemma Together(pre: seq<byte>, t: Layout, post: seq<byte>, h: seq<byte>, records: seq<byte>)
    requires Proper(t) && h == Head(t) && records == AllRecords(t.sectors, Size(t.sizeCode))
    requires pre + (h + records) + post == pre + h + (records + post) && pre + h + records + post == pre + h + (records + post)
    requires HeaderAt(pre + h + (records + post), |pre|, Parsing(t, |pre|)) && |pre| + 5 <= |pre + h + (records + post)|
    requires DataStart(pre + h + (records + post), |pre|) == |pre| + |h|
    requires ReadSectors(pre + h + records + post, |pre + h|, Numbers(t.sectors), Size(t.sizeCode))
          == Success((Contents(t.sectors), |pre + h| + |records|))
    ensures ReadTrack(pre + LayoutBytes(t) + post, |pre|) == Success(Parsing(t, |pre|))
  {
    hide HeaderAt, DataStart, ReadSectors, ReadTrack, Head, Numbers, Contents, AllRecords, Size;
    TrackIs(pre + h + (records + post), |pre|, Parsing(t, |pre|), Contents(t.sectors), |pre + h| + |records|);
  }

  predicate AllProper(ts: seq<Layout>) { forall i :: 0 <= i < |ts| ==> Proper(ts[i]) }

  function Layouts(ts: seq<Layout>): seq<byte>
    requires AllProper(ts)
  {
    if ts == [] then [] else LayoutBytes(ts[0]) + Layouts(ts[1..])
  }

  function Parsings(ts: seq<Layout>, at: nat): seq<Track>
    requires AllProper(ts)
  {
    if ts == [] then [] else [Parsing(ts[0], at)] + Parsings(ts[1..], at + |LayoutBytes(ts[0])|)
  }

  lemma {:induction false} LayoutsRead(pre: seq<byte>, ts: seq<Layout>)
    requires AllProper(ts)
    ensures ReadTracks(pre + Layouts(ts), |pre|) == Success(Parsings(ts, |pre|))
    decreases |ts|
  {
    hide Proper, LayoutBytes, ReadTrack;
    if ts == [] {
      assert pre + [] == pre;
    } else {
      var first, rest := LayoutBytes(ts[0]), Layouts(ts[1..]);
      LayoutRead(pre, ts[0], rest);
      LayoutsRead(pre + first, ts[1..]);
      var file := pre + Layouts(ts);
      assert file == pre + first + rest && file == (pre + first) + rest;
      LayoutLong(ts[0]);
    }
  }

  lemma LayoutLong(t: Layout)
    requires Proper(t)
    ensures |LayoutBytes(t)| >= 5
  {
  }

  /** A file: a comment, the byte 0x1A that ends it, and any number of tracks. */
  lemma ImageRead(comment: seq<byte>, ts: seq<Layout>)
    requires 0x1A !in comment && AllProper(ts)
    ensures var header := comment + [0x1A];
      Parsed(header + Layouts(ts)) == Success((header, Parsings(ts, |header|)))
  {
    var header := comment + [0x1A];
    LayoutsRead(header, ts);
    hide AllProper, Layouts, Parsings, ReadTracks;
    CommentRead(comment, Layouts(ts));
  }

  lemma CommentRead(comment: seq<byte>, rest: seq<byte>)
    requires 0x1A !in comment
    ensures var header := comment + [0x1A]; HeaderEnd(header + rest, 0) == Some(|comment|) && (header + rest)[..|comment| + 1] == header
  {
    var file := comment + [0x1A] + rest;
    assert forall i :: 0 <= i < |comment| ==> file[i] == comment[i] != 0x1A;
    assert file[|comment|] == 0x1A;
  }
}
