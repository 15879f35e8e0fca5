/** Network boot: the loader of `netboot_mpm.c` against the file functions of `netboot_server.py`. */
module Netboot {
  import opened Bytes
  import opened Wrappers

  // File names.

  predicate IsSpace(c: byte) { IsSpaceCode(c) }

  function StripLeft(s: seq<byte>): seq<byte> {
    if s != [] && IsSpace(s[0]) then StripLeft(s[1..]) else s
  }

  function StripRight(s: seq<byte>): seq<byte> {
    if s != [] && IsSpace(s[|s| - 1]) then StripRight(s[..|s| - 1]) else s
  }

  function Upper(c: byte): byte { if 97 <= c <= 122 then c - 32 else c }

  function Capitals(s: seq<byte>): (r: seq<byte>)
    ensures |r| == |s|
  {
    seq(|s|, i requires 0 <= i < |s| => Upper(s[i]))
  }

  function WithoutHighBits(s: seq<byte>): (r: seq<byte>)
    ensures |r| == |s|
  {
    seq(|s|, i requires 0 <= i < |s| => s[i] % 128)
  }

  function Spaces(n: nat): (s: seq<byte>)
    ensures |s| == n
  {
    seq(n, _ => 32)
  }

  /** A name as the server's key has it: high bits off, white space stripped, padded and in capitals. */
  function Canonical(s: seq<byte>, width: nat): seq<byte> {
    var name := StripRight(StripLeft(WithoutHighBits(s)));
    Capitals(name + Spaces(if |name| < width then width - |name| else 0))
  }

  /** A name of capitals and digits, filled up with spaces, is its own key. */
  lemma PlainName(name: seq<byte>, n: nat)
    requires name != [] && forall i :: 0 <= i < |name| ==> 48 <= name[i] < 96
    ensures Canonical(name + Spaces(n), |name| + n) == name + Spaces(n)
  {
    Unchanged(name, n);
    TrailingSpaces(name, n);
    hide *;
    NotStripped(name, n);
  }

  lemma Unchanged(name: seq<byte>, n: nat)
    requires name != [] && forall i :: 0 <= i < |name| ==> 48 <= name[i] < 96
    ensures WithoutHighBits(name + Spaces(n)) == name + Spaces(n) == Capitals(name + Spaces(n))
    ensures StripLeft(name + Spaces(n)) == name + Spaces(n) && !IsSpace(name[|name| - 1])
  {
    var s := name + Spaces(n);
    assert s[0] == name[0] && !IsSpace(name[0]) && !IsSpace(name[|name| - 1]);
    AlreadyPlain(s);
    hide IsSpace, WithoutHighBits, Capitals, Spaces;
    assert StripLeft(s) == s;
  }

  lemma AlreadyPlain(s: seq<byte>)
    requires forall i :: 0 <= i < |s| ==> 32 <= s[i] < 96
    ensures WithoutHighBits(s) == s == Capitals(s)
  {
  }

  lemma NotStripped(name: seq<byte>, n: nat)
    requires WithoutHighBits(name + Spaces(n)) == name + Spaces(n) == Capitals(name + Spaces(n))
    requires StripLeft(name + Spaces(n)) == name + Spaces(n) && StripRight(name + Spaces(n)) == name
    ensures Canonical(name + Spaces(n), |name| + n) == name + Spaces(n)
  {
    hide WithoutHighBits, Capitals, Spaces, StripLeft, StripRight;
  }

  lemma {:induction false} TrailingSpaces(name: seq<byte>, n: nat)
    requires name != [] && !IsSpace(name[|name| - 1])
    ensures StripRight(name + Spaces(n)) == name
    decreases n
  {
    var s := name + Spaces(n);
    if n == 0 {
      assert s == name;
    } else {
      assert s[..|s| - 1] == name + Spaces(n - 1);
      TrailingSpaces(name, n - 1);
    }
  }

  /** `_fcb_key`. */
  function FcbKey(fcb: seq<byte>): seq<byte>
    requires |fcb| == 36
  {
    Canonical(fcb[1..9], 8) + Canonical(fcb[9..12], 3)
  }

  // The server.

  type Files = map<seq<byte>, seq<byte>>

  /** A record of a file, padded with 0x1A. */
  function Record(content: seq<byte>, r: nat): (s: seq<byte>)
    requires 128 * r < |content|
    ensures |s| == 128
  {
    if 128 * r + 128 <= |content| then content[128 * r..128 * r + 128]
    else content[128 * r..] + Filler(128 * r + 128 - |content|)
  }

  function Filler(n: nat): (s: seq<byte>)
    ensures |s| == n
  {
    seq(n, _ => 0x1A)
  }

  function Zeros(n: nat): (s: seq<byte>)
    ensures |s| == n
  {
    seq(n, _ => 0)
  }

  /** The FCB after a read: `cr` counts the records of an extent, `ex` the extents. `None` is the
      `ValueError` of an extent number that does not fit its byte. */
  function Advanced(fcb: seq<byte>): Option<seq<byte>>
    requires |fcb| == 36
  {
    var ex, cr: int := fcb[12] as int, fcb[32] as int;
    if cr + 1 < 128 then Some(fcb[32 := cr + 1])
    else if ex + 1 < 256 then Some(fcb[12 := ex + 1][32 := 0])
    else None
  }

  /** The record an FCB stands at. */
  function Position(fcb: seq<byte>): nat
    requires |fcb| == 36
  {
    128 * (fcb[12] as int) + fcb[32] as int
  }

  /** The FCB in a request; a request that is too short is filled up with zeros, but OPEN then takes
      an FCB of zeros. */
  function RequestFcb(fnc: byte, data: seq<byte>): (fcb: seq<byte>)
    ensures |fcb| == 36
  {
    if |data| >= 37 then data[1..37]
    else if fnc == 15 || data == [] then Zeros(36)
    else data[1..] + Zeros(37 - |data|)
  }

  /** OPEN FILE. A short name makes a short reply; without a drive byte there is an `IndexError`. */
  function OpenReply(data: seq<byte>, content: seq<byte>): Option<seq<byte>> {
    var records := (|content| + 127) / 128;
    if |data| < 2 then None
    else
      var name := WithoutHighBits(data[2..if |data| < 13 then |data| else 13]);
      Some(([0, data[1] % 16] + name + Zeros(21))[16 := if records < 128 then records else 128])
  }

  /** To a whole FCB OPEN answers with it: the drive in four bits, the name without high bits, extent and
      record numbers zero, and in its byte 15 the number of records, 128 at most. */
  lemma OpenReplyMeans(data: seq<byte>, content: seq<byte>)
    requires |data| == 37
    ensures OpenReply(data, content).Some?
    ensures var reply := OpenReply(data, content).value;
      && |reply| == 34 && reply[0] == 0 && reply[1] == data[1] % 16
      && (forall i :: 2 <= i < 13 ==> reply[i] == data[i] % 128)
      && (forall i :: 13 <= i < 34 && i != 16 ==> reply[i] == 0)
      && (reply[16] < 128 ==> 128 * (reply[16] as int) - 128 < |content| <= 128 * (reply[16] as int))
      && reply[16] <= 128 && (reply[16] == 128 ==> |content| > 127 * 128)
  {
  }

  /** READ SEQ. */
  function ReadReply(fcb: seq<byte>, content: Option<seq<byte>>): Option<seq<byte>>
    requires |fcb| == 36
  {
    if content.None? then Some([0xFF] + fcb + Zeros(128))
    else if 128 * Position(fcb) >= |content.value| then Some([1] + fcb + Zeros(128))
    else
      var next := Advanced(fcb);
      if next.None? then None else Some([0] + next.value + Record(content.value, Position(fcb)))
  }

  /** The answer to a request, and the open files afterwards. No answer stands for an exception, and for the
      functions that are not part of this model. */
  function Answer(files: Files, open: Files, fnc: byte, data: seq<byte>): (Option<seq<byte>>, Files) {
    if fnc == 64 then (Some([0]), open)
    else
      var fcb := RequestFcb(fnc, data);
      var key := FcbKey(fcb);
      if fnc == 15 then
        if key in files then (OpenReply(data, files[key]), open[key := files[key]]) else (Some([0xFF]), open)
      else if fnc == 20 then (ReadReply(fcb, if key in open then Some(open[key]) else None), open)
      else if fnc == 16 then (Some([0] + fcb), open - {key})
      else (None, open)
  }

  class Server {
    const files: Files
    var openFiles: Files

    constructor (files: Files)
      ensures this.files == files && openFiles == map[]
    {
      this.files, openFiles := files, map[];
    }

    /** `dispatch_sndmsg`, the functions the loader uses. */
    method Dispatch(hdr: seq<byte>, data: seq<byte>) returns (reply: Option<seq<byte>>)
      requires |hdr| == 5
      modifies this
      ensures (reply, openFiles) == Answer(files, old(openFiles), hdr[3], data)
    {
      hide FcbKey, Record, Advanced, OpenReply, RequestFcb;
      var fnc := hdr[3];
      if fnc == 64 {
        return Some([0]);
      }
      var fcb := RequestFcb(fnc, data);
      var key := FcbKey(fcb);
      if fnc == 15 {
        if key !in files {
          return Some([0xFF]);
        }
        openFiles := openFiles[key := files[key]];
        return OpenReply(data, files[key]);
      }
      if fnc == 20 {
        if key !in openFiles {
          return Some([0xFF] + fcb + Zeros(128));
        }
        var content := openFiles[key];
        var record := Position(fcb);
        var offset := record * 128;
        if offset >= |content| {
          return Some([1] + fcb + Zeros(128));
        }
        var sector := Record(content, record);
        var next := Advanced(fcb);
        if next.None? {
          return None;
        }
        return Some([0] + next.value + sector);
      }
      if fnc == 16 {
        openFiles := openFiles - {key};
        return Some([0] + fcb);
      }
      return None;
    }
  }

  // Reading a file from its beginning to its end.

  /** The number of records of a file. */
  function Records(content: seq<byte>): nat { (|content| + 127) / 128 }

  /** The first `k` records. */
  function FirstRecords(content: seq<byte>, k: nat): (s: seq<byte>)
    requires k <= Records(content)
    ensures |s| == 128 * k
  {
    if k == 0 then [] else FirstRecords(content, k - 1) + Record(content, k - 1)
  }

  function Padded(content: seq<byte>): seq<byte> { FirstRecords(content, Records(content)) }

  lemma {:induction false} FirstRecordsAre(content: seq<byte>, k: nat)
    requires k <= Records(content)
    ensures 128 * k <= |content| ==> FirstRecords(content, k) == content[..128 * k]
    ensures 128 * k > |content| ==> FirstRecords(content, k) == content + Filler(128 * k - |content|)
  {
    hide Records, FirstRecords, Filler, Record;
    FirstRecordsNext(content, k);
    if k == 0 {
      assert content[..0] == [];
    } else {
      FirstRecordsAre(content, k - 1);
      RecordAfter(content, k - 1);
    }
  }

  lemma FirstRecordsNext(content: seq<byte>, k: nat)
    requires k <= Records(content)
    ensures FirstRecords(content, k) == if k == 0 then [] else FirstRecords(content, k - 1) + Record(content, k - 1)
    ensures k > 0 ==> 128 * (k - 1) < |content|
  {
    hide Record;
  }

  lemma RecordAfter(content: seq<byte>, r: nat)
    requires 128 * r < |content|
    ensures content[..128 * r] + Record(content, r)
         == if 128 * (r + 1) <= |content| then content[..128 * (r + 1)] else content + Filler(128 * (r + 1) - |content|)
  {
    hide Filler;
    if 128 * (r + 1) > |content| {
      assert content[..128 * r] + content[128 * r..] == content;
    }
  }

  /** The padded image is the file followed by fewer than 128 bytes of 0x1A. */
  lemma PaddedIs(content: seq<byte>)
    ensures |Padded(content)| == 128 * Records(content) && |content| <= |Padded(content)| < |content| + 128
    ensures Padded(content) == content + Filler(|Padded(content)| - |content|)
  {
    FirstRecordsAre(content, Records(content));
    hide Record;
    if 128 * Records(content) == |content| {
      assert content[..|content|] == content;
    }
  }

  /** `fcb` names the file `key` and stands at record `r`. */
  predicate Standing(fcb: seq<byte>, key: seq<byte>, r: nat) {
    |fcb| == 36 && FcbKey(fcb) == key && Position(fcb) == r && fcb[32] < 128
  }

  /** The roll-over of `cr` into `ex` steps to the next record, for all 32768 records an FCB can count. */
  lemma AdvancedStands(fcb: seq<byte>, key: seq<byte>, r: nat)
    requires Standing(fcb, key, r) && r + 1 < 32768
    ensures Advanced(fcb).Some? && Standing(Advanced(fcb).value, key, r + 1)
  {
    hide Canonical;
    var next := Advanced(fcb).value;
    assert next[1..9] == fcb[1..9] && next[9..12] == fcb[9..12];
  }

  lemma PastEnd(content: seq<byte>, r: nat)
    ensures 128 * r >= |content| <==> r >= Records(content)
  {
  }

  /** `k` reads in a row from `fcb`: the sectors, and the FCB afterwards. */
  function Reads(fcb: seq<byte>, content: seq<byte>, k: nat): Option<(seq<byte>, seq<byte>)>
    requires |fcb| == 36
    decreases k
  {
    if k == 0 then Some(([], fcb))
    else
      match ReadReply(fcb, Some(content))
      case None => None
      case Some(reply) =>
        if reply[0] != 0 || |reply| != 165 then None
        else
          match Reads(reply[1..37], content, k - 1)
          case None => None
          case Some((more, last)) => Some((reply[37..] + more, last))
  }

  lemma GoodReply(fcb: seq<byte>, key: seq<byte>, content: seq<byte>, r: nat)
    requires Standing(fcb, key, r) && r < Records(content) && r + 1 < 32768
    ensures var reply := ReadReply(fcb, Some(content));
      && reply.Some? && |reply.value| == 165 && reply.value[0] == 0
      && Standing(reply.value[1..37], key, r + 1) && reply.value[37..] == Record(content, r)
  {
    PastEnd(content, r);
    AdvancedStands(fcb, key, r);
    hide Standing, Record, Records, Advanced;
    assert Position(fcb) == r by { PositionIs(fcb, key, r); }
    var next := Advanced(fcb).value;
    assert |next| == 36 by { PositionIs(next, key, r + 1); }
    var reply := [0] + next + Record(content, r);
    assert reply[1..37] == next && reply[37..] == Record(content, r);
  }

  lemma PositionIs(fcb: seq<byte>, key: seq<byte>, r: nat)
    requires Standing(fcb, key, r)
    ensures |fcb| == 36 && Position(fcb) == r && FcbKey(fcb) == key
  {
  }

  /** `k` reads from record `r` give the records `r`, `r + 1`, ... and leave the FCB at `r + k`; the next
      read reports the end of the file exactly when there are no more. */
  predicate InOrder(fcb: seq<byte>, key: seq<byte>, content: seq<byte>, r: nat, k: nat)
    requires |fcb| == 36 && r + k <= Records(content)
  {
    var got := Reads(fcb, content, k);
    && got.Some? && FirstRecords(content, r) + got.value.0 == FirstRecords(content, r + k)
    && Standing(got.value.1, key, r + k)
    && var next := ReadReply(got.value.1, Some(content));
       next.Some? && (next.value[0] == 1 <==> r + k == Records(content))
  }

  /** Reads in a row visit the records in order, each once, up to the end of the file. */
  lemma {:induction false} ReadsInOrder(fcb: seq<byte>, key: seq<byte>, content: seq<byte>, r: nat, k: nat)
    requires Standing(fcb, key, r) && r + k <= Records(content) && Records(content) < 32768
    ensures |fcb| == 36 && InOrder(fcb, key, content, r, k)
    decreases k
  {
    hide *;
    PositionIs(fcb, key, r);
    if k == 0 {
      NoReads(fcb, key, content, r);
    } else {
      GoodReply(fcb, key, content, r);
      var reply := ReadReply(fcb, Some(content)).value;
      ReadsInOrder(reply[1..37], key, content, r + 1, k - 1);
      OneMoreRead(fcb, key, content, r, k, reply);
    }
  }

  lemma NoReads(fcb: seq<byte>, key: seq<byte>, content: seq<byte>, r: nat)
    requires |fcb| == 36 && Standing(fcb, key, r) && r <= Records(content) && Records(content) < 32768
    ensures InOrder(fcb, key, content, r, 0)
  {
    PastEnd(content, r);
    PositionIs(fcb, key, r);
    if r < Records(content) {
      GoodReply(fcb, key, content, r);
    }
    hide Standing, Record, Records, Position, FirstRecords;
    assert FirstRecords(content, r) + [] == FirstRecords(content, r);
  }

  lemma ReadsNext(fcb: seq<byte>, content: seq<byte>, k: nat, reply: seq<byte>)
    requires |fcb| == 36 && k > 0 && ReadReply(fcb, Some(content)) == Some(reply) && |reply| == 165 && reply[0] == 0
    requires Reads(reply[1..37], content, k - 1).Some?
    ensures var more := Reads(reply[1..37], content, k - 1).value;
      Reads(fcb, content, k) == Some((reply[37..] + more.0, more.1))
  {
    hide ReadReply;
  }

  lemma OneMoreRead(fcb: seq<byte>, key: seq<byte>, content: seq<byte>, r: nat, k: nat, reply: seq<byte>)
    requires |fcb| == 36 && k > 0 && r + k <= Records(content)
    requires ReadReply(fcb, Some(content)) == Some(reply) && |reply| == 165 && reply[0] == 0
    requires reply[37..] == Record(content, r) && InOrder(reply[1..37], key, content, r + 1, k - 1)
    ensures InOrder(fcb, key, content, r, k)
  {
    PastEnd(content, r);
    hide Standing, Record, Records, ReadReply;
    var more := Reads(reply[1..37], content, k - 1).value.0;
    ReadsNext(fcb, content, k, reply);
    NextRecords(content, r, reply[37..], more);
    hide FirstRecords, Reads;
  }

  lemma NextRecords(content: seq<byte>, r: nat, record: seq<byte>, more: seq<byte>)
    requires r < Records(content) && 128 * r < |content| && record == Record(content, r)
    ensures FirstRecords(content, r) + (record + more) == FirstRecords(content, r + 1) + more
  {
    hide Record, Records;
  }

  // The loader.

  /** The image's file name, as the loader's FCB and the server's key have it. */
  const FCB_HEAD: seq<byte> := [1, 67, 80, 78, 79, 83, 32, 32, 32, 73, 77, 71]

  function ImageKey(): seq<byte> { Canonical(FCB_HEAD[1..9], 8) + Canonical(FCB_HEAD[9..12], 3) }

  /** The name asked for is CPNOS.IMG. */
  lemma ImageName()
    ensures ImageKey() == ([67, 80, 78, 79, 83] + Spaces(3)) + ([73, 77, 71] + Spaces(0))
  {
    assert FCB_HEAD[1..9] == [67, 80, 78, 79, 83] + Spaces(3) && FCB_HEAD[9..12] == [73, 77, 71] + Spaces(0);
    hide Canonical, Spaces;
    PlainName([67, 80, 78, 79, 83], 3);
    PlainName([73, 77, 71], 0);
  }

  const PASSWORD: seq<byte> := [80, 65, 83, 83, 87, 79, 82, 68]

  const LIMIT: nat := 0xEE00

  /** The loader's message buffer and the server's open files. */
  datatype Client = Client(msg: seq<byte>, open: Files)

  /** `cpnet_xact` over a link that delivers every frame: the request is in the buffer, and the reply takes
      its place. */
  function Xact(files: Files, c: Client, fnc: byte, siz: byte): (r: (byte, Client))
    requires |c.msg| >= 262
    ensures |r.1.msg| == |c.msg|
  {
    var sent := Overlay(c.msg, 0, [0, 0, 1, fnc, siz]);
    var (reply, open) := Answer(files, c.open, sent[3], sent[5..6 + sent[4] as int]);
    if reply.None? || reply.value == [] || |reply.value| > 256 then (0xFE, Client(sent, open))
    else (reply.value[0], Client(Overlay(sent, 0, [1, 1, 0, fnc, |reply.value| - 1] + reply.value), open))
  }

  /** The READ SEQ loop from `dma` on: whether the end of the file was reached, memory, and the address. */
  function ReadLoop(files: Files, c: Client, mem: seq<byte>, dma: nat): (r: (bool, seq<byte>, nat, Client))
    requires |c.msg| >= 262 && |mem| == 65536 && dma <= LIMIT
    ensures |r.1| == 65536 && |r.3.msg| == |c.msg|
    decreases LIMIT + 128 - dma
  {
    var (rc, c') := Xact(files, c.(msg := c.msg[5 := 0]), 20, 36);
    if rc == 1 then (true, mem, dma, c')
    else if rc != 0 then (false, mem, dma, c')
    else
      var mem' := Overlay(mem, dma, c'.msg[42..170]);
      if dma + 128 > LIMIT then (false, mem', dma + 128, c')
      else ReadLoop(files, c', mem', dma + 128)
  }

  /** `netboot_mpm`: the entry point or 0, memory, and the files left open at the server. */
  function Boot(files: Files, c: Client, mem: seq<byte>, base: word): (word, seq<byte>, Files)
    requires |c.msg| >= 262 && |mem| == 65536 && base <= LIMIT
  {
    var (rc1, c1) := Xact(files, c.(msg := Overlay(c.msg, 5, PASSWORD)), 64, 7);
    if rc1 != 0 then (0, mem, c1.open)
    else
      var (rc2, c2) := Xact(files, c1.(msg := Overlay(c1.msg, 5, [0] + FCB_HEAD)), 15, 36);
      if rc2 >= 4 then (0, mem, c2.open)
      else
        var (ok, mem', dma, c3) := ReadLoop(files, c2, mem, base);
        if ok then (base, mem', Xact(files, c3.(msg := c3.msg[5 := 0]), 16, 36).1.open) else (0, mem', c3.open)
  }

  class Loader {
    const server: Server
    const msg: array<byte>
    const memory: array<byte>
    const base: word

    constructor (server: Server, msg: array<byte>, memory: array<byte>, base: word)
      ensures this.server == server && this.msg == msg && this.memory == memory && this.base == base
    {
      this.server, this.msg, this.memory, this.base := server, msg, memory, base;
    }

    predicate Valid() { msg.Length == 262 && memory.Length == 65536 && msg != memory && base <= LIMIT }

    function Now(): Client
      reads this, msg, server
    {
      Client(msg[..], server.openFiles)
    }

    method Write(at: nat, s: seq<byte>)
      requires at + |s| <= msg.Length
      modifies msg
      ensures msg[..] == Overlay(old(msg[..]), at, s)
    {
      for i := 0 to |s|
        invariant forall k :: 0 <= k < msg.Length ==> msg[k] == if at <= k < at + i then s[k - at] else old(msg[k])
      {
        msg[at + i] := s[i];
      }
    }

    method Store(at: nat, s: seq<byte>)
      requires at + |s| <= memory.Length
      modifies memory
      ensures memory[..] == Overlay(old(memory[..]), at, s)
    {
      for i := 0 to |s|
        invariant forall k :: 0 <= k < memory.Length ==> memory[k] == if at <= k < at + i then s[k - at] else old(memory[k])
      {
        memory[at + i] := s[i];
      }
    }

    /** `cpnet_xact`. */
    method Exchange(fnc: byte, siz: byte) returns (rc: byte)
      requires Valid()
      modifies msg, server
      ensures (rc, Now()) == Xact(server.files, old(Now()), fnc, siz)
    {
      hide Answer, Overlay;
      Write(0, [0, 0, 1, fnc, siz]);
      var reply := server.Dispatch(msg[..5], msg[5..6 + msg[4] as int]);
      if reply.None? || reply.value == [] || |reply.value| > 256 {
        return 0xFE;
      }
      Write(0, [1, 1, 0, fnc, |reply.value| - 1] + reply.value);
      return reply.value[0];
    }

    /** The READ SEQ loop of `netboot_mpm`. */
    method ReadImage() returns (ok: bool, dma: nat)
      requires Valid()
      modifies msg, memory, server
      ensures (ok, memory[..], dma, Now()) == ReadLoop(server.files, old(Now()), old(memory[..]), base)
    {
      hide Xact, Overlay;
      dma := base;
      ghost var c0, mem0 := Now(), memory[..];
      while true
        invariant dma <= LIMIT
        invariant ReadLoop(server.files, c0, mem0, base) == ReadLoop(server.files, Now(), memory[..], dma)
        decreases LIMIT + 128 - dma
      {
        msg[5] := 0;
        var rc := Exchange(20, 36);
        if rc == 1 {
          return true, dma;
        }
        if rc != 0 {
          return false, dma;
        }
        Store(dma, msg[42..170]);
        dma := dma + 128;
        if dma > LIMIT {
          return false, dma;
        }
      }
    }

    /** `netboot_mpm`, the transport armed. */
    method NetbootMpm() returns (entry: word)
      requires Valid()
      modifies msg, memory, server
      ensures (entry, memory[..], server.openFiles) == Boot(server.files, old(Now()), old(memory[..]), base)
    {
      hide Xact, Overlay, ReadLoop;
      Write(5, PASSWORD);
      var rc := Exchange(64, 7);
      if rc != 0 {
        return 0;
      }
      Write(5, [0] + FCB_HEAD);
      rc := Exchange(15, 36);
      if rc >= 4 {
        return 0;
      }
      var ok, dma := ReadImage();
      if !ok {
        return 0;
      }
      msg[5] := 0;
      rc := Exchange(16, 36);
      return base;
    }
  }

  // What the loader loads.

  /** An answered exchange: the reply stands behind the header. */
  lemma Answered(files: Files, c: Client, fnc: byte, siz: byte, reply: seq<byte>)
    requires |c.msg| >= 262 && siz <= 36 && 0 < |reply| <= 256
    requires Answer(files, c.open, fnc, c.msg[5..6 + siz as int]).0 == Some(reply)
    ensures var r := Xact(files, c, fnc, siz);
      && r.0 == reply[0] && r.1.open == Answer(files, c.open, fnc, c.msg[5..6 + siz as int]).1
      && |r.1.msg| == |c.msg|
      && (forall i :: 0 <= i < |reply| ==> r.1.msg[5 + i] == reply[i])
      && (forall i :: 5 + |reply| <= i < |c.msg| ==> r.1.msg[i] == c.msg[i])
  {
    hide Answer, Overlay, Xact;
    var sent, head := Overlay(c.msg, 0, [0, 0, 1, fnc, siz]), [1, 1, 0, fnc, |reply| - 1];
    Replied(files, c, fnc, siz, reply);
    var none: seq<byte> := [];
    assert [0, 0, 1, fnc, siz] + none == [0, 0, 1, fnc, siz];
    Behind(c.msg, [0, 0, 1, fnc, siz], none);
    Behind(sent, head, reply);
  }

  lemma Replied(files: Files, c: Client, fnc: byte, siz: byte, reply: seq<byte>)
    requires |c.msg| >= 262 && siz <= 36 && 0 < |reply| <= 256
    requires Answer(files, c.open, fnc, c.msg[5..6 + siz as int]).0 == Some(reply)
    ensures Xact(files, c, fnc, siz)
         == (reply[0], Client(Overlay(Overlay(c.msg, 0, [0, 0, 1, fnc, siz]), 0, [1, 1, 0, fnc, |reply| - 1] + reply),
                              Answer(files, c.open, fnc, c.msg[5..6 + siz as int]).1))
  {
    hide Answer, Overlay;
    SentHead(c.msg, fnc, siz);
  }

  /** The request as the server takes it from the buffer. */
  lemma SentHead(msg: seq<byte>, fnc: byte, siz: byte)
    requires |msg| >= 262
    ensures var sent := Overlay(msg, 0, [0, 0, 1, fnc, siz]);
      sent[3] == fnc && sent[4] == siz && sent[5..6 + siz as int] == msg[5..6 + siz as int]
  {
    OverlayOutside(msg, 0, [0, 0, 1, fnc, siz], 5, 6 + siz as int);
  }

  /** A header of five bytes and what follows it, laid over the buffer. */
  lemma Behind(msg: seq<byte>, header: seq<byte>, s: seq<byte>)
    requires |header| == 5 && 5 + |s| <= |msg|
    ensures |Overlay(msg, 0, header + s)| == |msg|
    ensures forall i :: 0 <= i < |s| ==> Overlay(msg, 0, header + s)[5 + i] == s[i]
    ensures forall i :: 5 + |s| <= i < |msg| ==> Overlay(msg, 0, header + s)[i] == msg[i]
  {
  }

  /** The FCB in the message buffer. */
  function Fcb(msg: seq<byte>): (fcb: seq<byte>)
    requires |msg| >= 262
    ensures |fcb| == 36
  {
    msg[6..42]
  }

  /** A read of a record that exists. */
  lemma RecordRead(files: Files, c: Client, key: seq<byte>, content: seq<byte>, r: nat)
    requires |c.msg| >= 262 && Standing(Fcb(c.msg), key, r) && key in c.open && c.open[key] == content
    requires r < Records(content) && r + 1 < 32768
    ensures var x := Xact(files, c.(msg := c.msg[5 := 0]), 20, 36);
      && x.0 == 0 && x.1.open == c.open && |x.1.msg| == |c.msg|
      && Standing(Fcb(x.1.msg), key, r + 1) && x.1.msg[42..170] == Record(content, r)
  {
    var c' := c.(msg := c.msg[5 := 0]);
    PositionIs(Fcb(c.msg), key, r);
    GoodReply(Fcb(c.msg), key, content, r);
    var reply := ReadReply(Fcb(c.msg), Some(content)).value;
    hide *;
    ReadAnswer(files, c, key);
    Answered(files, c', 20, 36, reply);
    ReplyParts(Xact(files, c', 20, 36).1.msg, reply);
  }

  lemma ReadAnswer(files: Files, c: Client, key: seq<byte>)
    requires |c.msg| >= 262 && FcbKey(Fcb(c.msg)) == key && key in c.open
    ensures Answer(files, c.open, 20, c.msg[5 := 0][5..42]) == (ReadReply(Fcb(c.msg), Some(c.open[key])), c.open)
  {
    hide FcbKey, ReadReply;
    assert c.msg[5 := 0][5..42][1..37] == Fcb(c.msg);
  }

  lemma ReplyParts(msg: seq<byte>, reply: seq<byte>)
    requires |msg| >= 262 && |reply| == 165 && forall i :: 0 <= i < |reply| ==> msg[5 + i] == reply[i]
    ensures Fcb(msg) == reply[1..37] && msg[42..170] == reply[37..]
  {
  }

  /** A read behind the last record. */
  lemma EndRead(files: Files, c: Client, key: seq<byte>, content: seq<byte>, r: nat)
    requires |c.msg| >= 262 && Standing(Fcb(c.msg), key, r) && key in c.open && c.open[key] == content
    requires r >= Records(content)
    ensures var x := Xact(files, c.(msg := c.msg[5 := 0]), 20, 36);
      x.0 == 1 && x.1.open == c.open && |x.1.msg| == |c.msg| && FcbKey(Fcb(x.1.msg)) == key
  {
    var c' := c.(msg := c.msg[5 := 0]);
    var data := c'.msg[5..42];
    assert data[1..37] == Fcb(c.msg);
    PositionIs(Fcb(c.msg), key, r);
    PastEnd(content, r);
    hide Standing, FcbKey, Records, Position;
    var reply := [1] + Fcb(c.msg) + Zeros(128);
    Answered(files, c', 20, 36, reply);
    ReplyParts(Xact(files, c', 20, 36).1.msg, reply);
    assert reply[1..37] == Fcb(c.msg);
  }

  /** The records loaded before the address passes the limit. */
  function Fitting(base: nat): nat
    requires base <= LIMIT
  {
    (LIMIT - base) / 128 + 1
  }

  /** The loop's outcome: what is in memory, and, if it has come to the end of the file, that the FCB in the
      buffer is still the file's. */
  predicate LoadedAs(out: (bool, seq<byte>, nat, Client), mem: seq<byte>, base: nat, content: seq<byte>, key: seq<byte>, open: Files)
    requires |mem| == 65536 && base <= LIMIT
  {
    var n := Records(content);
    && out.3.open == open && |out.3.msg| >= 262 && (out.0 ==> FcbKey(Fcb(out.3.msg)) == key)
    && out.0 == (base + 128 * n <= LIMIT)
    && var k := if out.0 then n else Fitting(base);
       k <= n && base + 128 * k <= 65536 && out.1 == Overlay(mem, base, FirstRecords(content, k))
  }

  /** The loop, `r` records in. */
  lemma {:induction false} LoopLoads(files: Files, c: Client, key: seq<byte>, content: seq<byte>, mem: seq<byte>, base: nat, r: nat)
    requires |c.msg| >= 262 && Standing(Fcb(c.msg), key, r) && key in c.open && c.open[key] == content
    requires |mem| == 65536 && Room(base, r) && r <= Records(content)
    ensures base + 128 * r <= LIMIT && base + 128 * r <= 65536
    ensures LoadedAs(ReadLoop(files, c, Overlay(mem, base, FirstRecords(content, r)), base + 128 * r), mem, base, content, key, c.open)
    decreases Records(content) - r
  {
    hide *;
    LimitRoom(base, r);
    if r == Records(content) {
      LoopAtEnd(files, c, key, content, mem, base, r);
    } else {
      var next := LoopStep(files, c, key, content, mem, base, r);
      if Room(base, r + 1) {
        LoopLoads(files, next, key, content, mem, base, r + 1);
      }
    }
  }

  predicate Room(base: nat, r: nat) { base + 128 * r <= LIMIT }

  lemma LoopAtEnd(files: Files, c: Client, key: seq<byte>, content: seq<byte>, mem: seq<byte>, base: nat, r: nat)
    requires |c.msg| >= 262 && Standing(Fcb(c.msg), key, r) && key in c.open && c.open[key] == content
    requires |mem| == 65536 && Room(base, r) && r == Records(content)
    ensures base + 128 * r <= 65536
    ensures LoadedAs(ReadLoop(files, c, Overlay(mem, base, FirstRecords(content, r)), base + 128 * r), mem, base, content, key, c.open)
  {
    LimitRoom(base, r);
    assert base + 128 * Records(content) <= LIMIT;
    hide *;
    var now := Overlay(mem, base, FirstRecords(content, r));
    EndRead(files, c, key, content, r);
    LoopEnds(files, c, now, base + 128 * r);
    AllLoaded(ReadLoop(files, c, now, base + 128 * r), mem, base, content, key, c.open);
  }

  lemma LoopStep(files: Files, c: Client, key: seq<byte>, content: seq<byte>, mem: seq<byte>, base: nat, r: nat) returns (next: Client)
    requires |c.msg| >= 262 && Standing(Fcb(c.msg), key, r) && key in c.open && c.open[key] == content
    requires |mem| == 65536 && Room(base, r) && r < Records(content)
    ensures base + 128 * r + 128 <= 65536 && base + 128 * r <= LIMIT && (Room(base, r + 1) ==> base + 128 * r + 128 <= LIMIT)
    ensures |next.msg| == |c.msg| && Standing(Fcb(next.msg), key, r + 1) && next.open == c.open
    ensures var out := ReadLoop(files, c, Overlay(mem, base, FirstRecords(content, r)), base + 128 * r);
      if Room(base, r + 1) then out == ReadLoop(files, next, Overlay(mem, base, FirstRecords(content, r + 1)), base + 128 * (r + 1))
      else LoadedAs(out, mem, base, content, key, c.open)
  {
    hide *;
    StepRoom(base, r);
    RecordRead(files, c, key, content, r);
    next := Xact(files, c.(msg := c.msg[5 := 0]), 20, 36).1;
    OneMoreRecord(mem, base, content, r);
    LoopGoesOn(files, c, Overlay(mem, base, FirstRecords(content, r)), base + 128 * r);
    if !Room(base, r + 1) {
      LimitPassed(ReadLoop(files, c, Overlay(mem, base, FirstRecords(content, r)), base + 128 * r), mem, base, content, r, key, c.open);
    }
  }

  lemma StepRoom(base: nat, r: nat)
    requires Room(base, r)
    ensures base + 128 * r + 128 <= 65536 && base + 128 * r <= LIMIT && base <= LIMIT && r + 1 < 32768
    ensures Room(base, r + 1) <==> base + 128 * r + 128 <= LIMIT
    ensures base + 128 * r + 128 == base + 128 * (r + 1)
  {
  }

  lemma LimitRoom(base: nat, r: nat)
    requires Room(base, r)
    ensures base + 128 * r + 128 <= 65536 && base + 128 * r <= LIMIT && base <= LIMIT
  {
  }

  lemma LoopEnds(files: Files, c: Client, mem: seq<byte>, dma: nat)
    requires |c.msg| >= 262 && |mem| == 65536 && dma <= LIMIT
    requires Xact(files, c.(msg := c.msg[5 := 0]), 20, 36).0 == 1
    ensures var out := ReadLoop(files, c, mem, dma);
      out.0 && out.1 == mem && out.3 == Xact(files, c.(msg := c.msg[5 := 0]), 20, 36).1
  {
    hide Xact;
  }

  lemma LoopGoesOn(files: Files, c: Client, mem: seq<byte>, dma: nat)
    requires |c.msg| >= 262 && |mem| == 65536 && dma <= LIMIT
    requires Xact(files, c.(msg := c.msg[5 := 0]), 20, 36).0 == 0
    ensures var c' := Xact(files, c.(msg := c.msg[5 := 0]), 20, 36).1;
      var mem', out := Overlay(mem, dma, c'.msg[42..170]), ReadLoop(files, c, mem, dma);
      if dma + 128 > LIMIT then !out.0 && out.1 == mem' && out.3 == c' else out == ReadLoop(files, c', mem', dma + 128)
  {
    hide Xact, Overlay;
  }

  lemma OneMoreRecord(mem: seq<byte>, base: nat, content: seq<byte>, r: nat)
    requires |mem| == 65536 && base + 128 * r <= LIMIT && r < Records(content)
    ensures Overlay(Overlay(mem, base, FirstRecords(content, r)), base + 128 * r, Record(content, r))
         == Overlay(mem, base, FirstRecords(content, r + 1))
  {
    PastEnd(content, r);
    hide Overlay, Record, Records;
    OverlayTwice(mem, base, FirstRecords(content, r), Record(content, r));
  }

  lemma AllLoaded(out: (bool, seq<byte>, nat, Client), mem: seq<byte>, base: nat, content: seq<byte>, key: seq<byte>, open: Files)
    requires |mem| == 65536 && base + 128 * Records(content) <= LIMIT
    requires out.0 && out.1 == Overlay(mem, base, FirstRecords(content, Records(content)))
    requires out.3.open == open && |out.3.msg| >= 262 && FcbKey(Fcb(out.3.msg)) == key
    ensures LoadedAs(out, mem, base, content, key, open)
  {
    hide Overlay, FirstRecords, Records, FcbKey, Fcb;
  }

  lemma LimitPassed(out: (bool, seq<byte>, nat, Client), mem: seq<byte>, base: nat, content: seq<byte>, r: nat, key: seq<byte>, open: Files)
    requires |mem| == 65536 && base + 128 * r <= LIMIT < base + 128 * (r + 1) && r < Records(content)
    requires !out.0 && out.1 == Overlay(mem, base, FirstRecords(content, r + 1))
    requires out.3.open == open && |out.3.msg| >= 262
    ensures LoadedAs(out, mem, base, content, key, open)
  {
    hide Overlay, FirstRecords, Records, FcbKey, Fcb;
    assert Fitting(base) == r + 1;
  }

  /** The FCB that the answer to OPEN leaves in the buffer stands at record 0 of the image. */
  lemma Opened(files: Files, c: Client)
    requires |c.msg| >= 262
    ensures var x := Xact(files, c.(msg := Overlay(c.msg, 5, [0] + FCB_HEAD)), 15, 36);
      if ImageKey() in files then
        x.0 == 0 && |x.1.msg| == |c.msg| && Standing(Fcb(x.1.msg), ImageKey(), 0)
        && x.1.open == c.open[ImageKey() := files[ImageKey()]]
      else x.0 == 0xFF && x.1.open == c.open
  {
    var c' := c.(msg := Overlay(c.msg, 5, [0] + FCB_HEAD));
    OpenRequest(c.msg);
    hide *;
    if ImageKey() in files {
      var reply := OpenedFcb(c'.msg[5..42], files[ImageKey()]);
      OpenAnswer(files, c'.open, c'.msg[5..42]);
      Answered(files, c', 15, 36, reply);
      SameFcb(reply, Xact(files, c', 15, 36).1.msg);
    } else {
      OpenAnswer(files, c'.open, c'.msg[5..42]);
      Answered(files, c', 15, 36, [0xFF]);
    }
  }

  lemma OpenAnswer(files: Files, open: Files, data: seq<byte>)
    requires |data| == 37 && FcbKey(data[1..37]) == ImageKey()
    ensures Answer(files, open, 15, data)
         == if ImageKey() in files then (OpenReply(data, files[ImageKey()]), open[ImageKey() := files[ImageKey()]])
            else (Some([0xFF]), open)
  {
    hide FcbKey, ImageKey, OpenReply;
  }

  lemma OpenRequest(msg0: seq<byte>)
    requires |msg0| >= 262
    ensures |[0] + FCB_HEAD| == 13
    ensures var data := Overlay(msg0, 5, [0] + FCB_HEAD)[5..42];
      data[1..13] == FCB_HEAD && FcbKey(data[1..37]) == ImageKey()
  {
    var head := [0] + FCB_HEAD;
    var msg := Overlay(msg0, 5, head);
    OverlayInside(msg0, 5, head, 6, 18);
    assert head[1..13] == FCB_HEAD;
    hide Overlay, Canonical;
    HeadOf(msg);
  }

  lemma HeadOf(msg: seq<byte>)
    requires |msg| >= 262 && msg[6..18] == FCB_HEAD
    ensures var data := msg[5..42]; data[1..13] == FCB_HEAD && FcbKey(data[1..37]) == ImageKey()
  {
    var data := msg[5..42];
    var fcb := data[1..37];
    assert forall i :: 0 <= i < 12 ==> data[i + 1] == msg[6..18][i];
    assert data[1..13] == FCB_HEAD;
    assert fcb[1..9] == FCB_HEAD[1..9] && fcb[9..12] == FCB_HEAD[9..12];
    hide Canonical;
  }

  lemma OpenedFcb(data: seq<byte>, content: seq<byte>) returns (reply: seq<byte>)
    requires |data| == 37 && data[1..13] == FCB_HEAD
    ensures OpenReply(data, content) == Some(reply)
      && |reply| == 34 && reply[0] == 0 && reply[2..10] == FCB_HEAD[1..9] && reply[10..13] == FCB_HEAD[9..12]
      && reply[13] == 0 && reply[33] == 0
  {
    reply := OpenReply(data, content).value;
    forall i | 2 <= i < 13 ensures reply[i] == FCB_HEAD[i - 1] {
      assert data[i] == data[1..13][i - 1];
    }
  }

  lemma SameFcb(reply: seq<byte>, msg: seq<byte>)
    requires |msg| >= 262 && |reply| == 34 && forall i :: 0 <= i < 34 ==> msg[5 + i] == reply[i]
    requires reply[2..10] == FCB_HEAD[1..9] && reply[10..13] == FCB_HEAD[9..12] && reply[13] == 0 && reply[33] == 0
    ensures Standing(Fcb(msg), ImageKey(), 0)
  {
    hide Canonical;
    var fcb := Fcb(msg);
    assert fcb[1..9] == reply[2..10];
    assert fcb[9..12] == reply[10..13];
    assert fcb[12] == msg[18] == reply[13] && fcb[32] == msg[38] == reply[33];
  }

  /** For every image content: the loader puts the padded image at its base and returns the entry point
      exactly when the padded image ends at or below 0xEE00, and has closed the file; a longer one is given up
      after the record that passes the limit, still open, and a missing one before any is read. */
  lemma BootLoads(files: Files, c: Client, mem: seq<byte>, base: word)
    requires |c.msg| >= 262 && |mem| == 65536 && base <= LIMIT
    ensures ImageKey() !in files ==> Boot(files, c, mem, base) == (0, mem, c.open)
    ensures ImageKey() in files ==>
      var content := files[ImageKey()];
      if base + |Padded(content)| <= LIMIT
      then Boot(files, c, mem, base) == (base, Overlay(mem, base, Padded(content)), c.open - {ImageKey()})
      else Fitting(base) <= Records(content) && base + 128 * Fitting(base) <= 65536
           && Boot(files, c, mem, base)
              == (0, Overlay(mem, base, FirstRecords(content, Fitting(base))), c.open[ImageKey() := content])
  {
    hide *;
    var c1, x := BootOpens(files, c, mem, base);
    if ImageKey() in files {
      var content := files[ImageKey()];
      LoopFromStart(files, x.1, ImageKey(), content, mem, base);
      var out := ReadLoop(files, x.1, mem, base);
      if out.0 {
        Closed(files, out.3, ImageKey());
        Reclosed(c.open, ImageKey(), content);
      }
    }
  }

  lemma Reclosed(open: Files, key: seq<byte>, content: seq<byte>)
    ensures open[key := content] - {key} == open - {key}
  {
  }

  /** Login and OPEN, and what is left to do. */
  lemma BootOpens(files: Files, c: Client, mem: seq<byte>, base: word) returns (c1: Client, x: (byte, Client))
    requires |c.msg| >= 262 && |mem| == 65536 && base <= LIMIT
    ensures |x.1.msg| == |c.msg|
    ensures if ImageKey() in files then
              x.0 == 0 && Standing(Fcb(x.1.msg), ImageKey(), 0) && x.1.open == c.open[ImageKey() := files[ImageKey()]]
            else x.0 == 0xFF && x.1.open == c.open
    ensures Boot(files, c, mem, base)
         == if x.0 >= 4 then (0, mem, x.1.open)
            else
              var out := ReadLoop(files, x.1, mem, base);
              if out.0 then (base, out.1, Xact(files, out.3.(msg := out.3.msg[5 := 0]), 16, 36).1.open) else (0, out.1, out.3.open)
  {
    LoggedIn(files, c);
    c1 := Xact(files, c.(msg := Overlay(c.msg, 5, PASSWORD)), 64, 7).1;
    Opened(files, c1);
    x := Xact(files, c1.(msg := Overlay(c1.msg, 5, [0] + FCB_HEAD)), 15, 36);
    hide Xact, ReadLoop, ImageKey, Standing, Overlay;
  }

  lemma LoopFromStart(files: Files, c: Client, key: seq<byte>, content: seq<byte>, mem: seq<byte>, base: nat)
    requires |c.msg| >= 262 && Standing(Fcb(c.msg), key, 0) && key in c.open && c.open[key] == content
    requires |mem| == 65536 && base <= LIMIT
    ensures ReadLoop(files, c, mem, base).0 <==> base + |Padded(content)| <= LIMIT
    ensures var out := ReadLoop(files, c, mem, base);
      if base + |Padded(content)| <= LIMIT then out.0 && out.1 == Overlay(mem, base, Padded(content))
      else !out.0 && Fitting(base) <= Records(content) && base + 128 * Fitting(base) <= 65536
           && out.1 == Overlay(mem, base, FirstRecords(content, Fitting(base)))
    ensures var out := ReadLoop(files, c, mem, base);
      out.3.open == c.open && |out.3.msg| >= 262 && (out.0 ==> FcbKey(Fcb(out.3.msg)) == key)
  {
    hide *;
    StartRoom(mem, base, content);
    LoopLoads(files, c, key, content, mem, base, 0);
    LoadedMeans(ReadLoop(files, c, mem, base), mem, base, content, key, c.open);
  }

  lemma StartRoom(mem: seq<byte>, base: nat, content: seq<byte>)
    requires |mem| == 65536 && base <= LIMIT
    ensures Room(base, 0) && base + 128 * 0 == base && base <= 65536
    ensures Overlay(mem, base, FirstRecords(content, 0)) == mem
  {
  }

  lemma LoadedMeans(out: (bool, seq<byte>, nat, Client), mem: seq<byte>, base: nat, content: seq<byte>, key: seq<byte>, open: Files)
    requires |mem| == 65536 && base <= LIMIT && LoadedAs(out, mem, base, content, key, open)
    ensures out.3.open == open && |out.3.msg| >= 262 && (out.0 ==> FcbKey(Fcb(out.3.msg)) == key)
    ensures if base + |Padded(content)| <= LIMIT then base + |Padded(content)| <= 65536 && out.0 && out.1 == Overlay(mem, base, Padded(content))
            else !out.0 && Fitting(base) <= Records(content) && base + 128 * Fitting(base) <= 65536
                 && out.1 == Overlay(mem, base, FirstRecords(content, Fitting(base)))
  {
    hide Overlay, FirstRecords, Records, Fitting, FcbKey, Fcb;
  }

  /** CLOSE takes the file off the open ones. */
  lemma Closed(files: Files, c: Client, key: seq<byte>)
    requires |c.msg| >= 262 && FcbKey(Fcb(c.msg)) == key
    ensures Xact(files, c.(msg := c.msg[5 := 0]), 16, 36).1.open == c.open - {key}
  {
    var c' := c.(msg := c.msg[5 := 0]);
    assert c'.msg[5..42][1..37] == Fcb(c.msg);
    hide FcbKey;
    Answered(files, c', 16, 36, [0] + Fcb(c.msg));
  }

  lemma LoggedIn(files: Files, c: Client)
    requires |c.msg| >= 262
    ensures var x := Xact(files, c.(msg := Overlay(c.msg, 5, PASSWORD)), 64, 7);
      x.0 == 0 && x.1.open == c.open && |x.1.msg| == |c.msg|
  {
    Answered(files, c.(msg := Overlay(c.msg, 5, PASSWORD)), 64, 7, [0]);
  }
}
