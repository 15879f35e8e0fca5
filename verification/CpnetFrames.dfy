/** The CP/NET serial frame exchange: `send_frame` and `recv_frame` of `cpnet/server.py`, `send_message` and
    `recv_message` of `cpnet12_client.py`. */
module CpnetFrames {
  import opened Bytes
  import opened Wrappers

  const SOH: byte := 0x01
  const STX: byte := 0x02
  const ETX: byte := 0x03
  const EOT: byte := 0x04
  const ENQ: byte := 0x05
  const ACK: byte := 0x06
  const NAK: byte := 0x15

  /** `checksum`. */
  method Checksum(data: seq<byte>, init: byte) returns (r: byte)
    ensures r == Complement(init + Sum(data))
  {
    var s: int := AddAll(init, data);
    r := (-s) % 256;
    SameComplement(s, init + Sum(data));
  }

  lemma SameComplement(s: byte, total: int)
    requires s == total % 256
    ensures Complement(s) == Complement(total)
  {
  }

  // What is sent.

  datatype Message = Message(hdr: seq<byte>, payload: seq<byte>)

  /** Five header bytes, the last of which is the payload length less one. */
  predicate ValidMessage(m: Message) {
    |m.hdr| == 5 && |m.payload| == PayloadLength(m.hdr)
  }

  function PayloadLength(hdr: seq<byte>): nat
    requires |hdr| == 5
  {
    var siz: int := hdr[4];
    siz + 1
  }

  function HeaderBlock(hdr: seq<byte>): seq<byte> {
    [SOH] + hdr + [Complement(SOH + Sum(hdr))]
  }

  function DataBlock(payload: seq<byte>): seq<byte> {
    [STX] + payload + [ETX] + [Complement(STX + Sum(payload) + ETX)] + [EOT]
  }

  // The receiver, byte by byte.

  /** Which of the two receivers: the server skips everything before an ENQ, the client gives up unless
      the first byte is one, the high bit aside. */
  datatype Kind = Server | Client

  datatype Recv =
    | WaitEnq
    | WaitSoh
    | Header(sum: byte, got: seq<byte>)
    | WaitHcs(sum: byte, hdr: seq<byte>)
    | WaitStx(hdr: seq<byte>)
    | Data(hdr: seq<byte>, sum: byte, got: seq<byte>)
    | WaitEtx(hdr: seq<byte>, sum: byte, payload: seq<byte>)
    | WaitCks(hdr: seq<byte>, sum: byte, payload: seq<byte>)
    | WaitEot(hdr: seq<byte>, sum: byte, payload: seq<byte>)
    | Received(m: Message)
    | Failed

  /** One byte taken by the receiver: its next state and what it sends back. */
  function Take(kind: Kind, r: Recv, b: byte): (Recv, seq<byte>) {
    match r
    case WaitEnq =>
      if kind == Server then (if b == ENQ then (WaitSoh, [ACK]) else (WaitEnq, []))
      else if b % 128 == ENQ then (WaitSoh, [ACK]) else (Failed, [])
    case WaitSoh => if b % 128 == SOH then (Header(SOH, []), []) else (Failed, [])
    case Header(sum, got) =>
      if |got| >= 4 then (WaitHcs((sum + b) % 256, got + [b]), []) else (Header((sum + b) % 256, got + [b]), [])
    case WaitHcs(sum, hdr) => if (sum + b) % 256 == 0 then (WaitStx(hdr), [ACK]) else (Failed, [NAK])
    case WaitStx(hdr) => if b % 128 == STX then (Data(hdr, STX, []), []) else (Failed, [])
    case Data(hdr, sum, got) =>
      if |hdr| == 5 && |got| < hdr[4] then (Data(hdr, (sum + b) % 256, got + [b]), [])
      else (WaitEtx(hdr, (sum + b) % 256, got + [b]), [])
    case WaitEtx(hdr, sum, payload) => if b % 128 == ETX then (WaitCks(hdr, (sum + ETX) % 256, payload), []) else (Failed, [])
    case WaitCks(hdr, sum, payload) => (WaitEot(hdr, (sum + b) % 256, payload), [])
    case WaitEot(hdr, sum, payload) =>
      if b % 128 != EOT then (Failed, [])
      else if sum != 0 then (Failed, [NAK])
      else (Received(Message(hdr, payload)), [ACK])
    case Received(m) => (r, [])
    case Failed => (r, [])
  }

  /** The receiver waits for a control byte. */
  ghost predicate Marks(kind: Kind, from: Recv, mark: byte, to: Recv) {
    forall b: byte :: Take(kind, from, b) == (if b % 128 == mark then to else Failed, [])
  }

  lemma ControlBytes(kind: Kind, hdr: seq<byte>, sum: byte, payload: seq<byte>)
    ensures Marks(kind, WaitSoh, SOH, Header(SOH, []))
    ensures Marks(kind, WaitStx(hdr), STX, Data(hdr, STX, []))
    ensures Marks(kind, WaitEtx(hdr, sum, payload), ETX, WaitCks(hdr, (sum + ETX) % 256, payload))
  {
  }

  predicate Ended(r: Recv) { r.Received? || r.Failed? }

  /** The receiver after a string of bytes, and all it has sent back. */
  function Feed(kind: Kind, r: Recv, s: seq<byte>): (Recv, seq<byte>)
    decreases |s|
  {
    if s == [] then (r, [])
    else
      var (next, reply) := Take(kind, r, s[0]);
      var (last, more) := Feed(kind, next, s[1..]);
      (last, reply + more)
  }

  lemma {:induction false} FeedConcat(kind: Kind, r: Recv, a: seq<byte>, b: seq<byte>)
    ensures Feed(kind, r, a + b)
         == (Feed(kind, Feed(kind, r, a).0, b).0, Feed(kind, r, a).1 + Feed(kind, Feed(kind, r, a).0, b).1)
    decreases |a|
  {
    hide Take;
    if a == [] {
      assert a + b == b;
      assert [] + Feed(kind, r, b).1 == Feed(kind, r, b).1;
    } else {
      assert (a + b)[1..] == a[1..] + b;
      var next := Take(kind, r, a[0]);
      FeedConcat(kind, next.0, a[1..], b);
      var more, last := Feed(kind, next.0, a[1..]), Feed(kind, Feed(kind, next.0, a[1..]).0, b);
      assert next.1 + (more.1 + last.1) == next.1 + more.1 + last.1;
    }
  }

  lemma FeedOne(kind: Kind, r: Recv, b: byte)
    ensures Feed(kind, r, [b]) == Take(kind, r, b)
  {
    hide Take;
    assert [b][1..] == [];
    assert Take(kind, r, b).1 + [] == Take(kind, r, b).1;
  }

  lemma FeedQuiet(kind: Kind, r: Recv, s: seq<byte>)
    requires s != [] && Take(kind, r, s[0]).1 == []
    ensures Feed(kind, r, s) == Feed(kind, Take(kind, r, s[0]).0, s[1..])
  {
    hide Take;
    var more := Feed(kind, Take(kind, r, s[0]).0, s[1..]);
    assert [] + more.1 == more.1;
  }

  lemma SumStep(sum: byte, s: seq<byte>)
    requires s != []
    ensures ((sum + s[0]) % 256 + Sum(s[1..])) % 256 == (sum + Sum(s)) % 256
  {
  }

  /** Header bytes are collected and summed. */
  lemma {:induction false} FeedHeader(kind: Kind, sum: byte, got: seq<byte>, s: seq<byte>)
    requires |got| + |s| <= 5 && |got| < 5
    ensures Feed(kind, Header(sum, got), s)
         == (if |got| + |s| < 5 then Header((sum + Sum(s)) % 256, got + s) else WaitHcs((sum + Sum(s)) % 256, got + s), [])
    decreases |s|
  {
    if s == [] {
      assert got + s == got;
    } else {
      var next := Take(kind, Header(sum, got), s[0]);
      assert next == (if |got| >= 4 then WaitHcs((sum + s[0]) % 256, got + [s[0]]) else Header((sum + s[0]) % 256, got + [s[0]]), []);
      hide Take, Sum;
      assert got + s == got + [s[0]] + s[1..];
      SumStep(sum, s);
      FeedQuiet(kind, Header(sum, got), s);
      if |got| < 4 {
        FeedHeader(kind, (sum + s[0]) % 256, got + [s[0]], s[1..]);
      } else {
        LastByte(s, got);
      }
    }
  }

  lemma LastByte(s: seq<byte>, got: seq<byte>)
    requires |s| == 1
    ensures s[1..] == [] && Sum(s[1..]) == 0 && got + s == got + [s[0]]
  {
  }

  /** So are payload bytes. */
  lemma {:induction false} FeedData(kind: Kind, hdr: seq<byte>, sum: byte, got: seq<byte>, s: seq<byte>)
    requires |hdr| == 5 && |got| < PayloadLength(hdr) && |got| + |s| <= PayloadLength(hdr)
    ensures Feed(kind, Data(hdr, sum, got), s)
         == (if |got| + |s| < PayloadLength(hdr) then Data(hdr, (sum + Sum(s)) % 256, got + s)
             else WaitEtx(hdr, (sum + Sum(s)) % 256, got + s), [])
    decreases |s|
  {
    if s == [] {
      assert got + s == got;
    } else {
      var next := Take(kind, Data(hdr, sum, got), s[0]);
      assert next == (if |got| + 1 < PayloadLength(hdr) then Data(hdr, (sum + s[0]) % 256, got + [s[0]])
                      else WaitEtx(hdr, (sum + s[0]) % 256, got + [s[0]]), []);
      hide Take, Sum, PayloadLength;
      assert got + s == got + [s[0]] + s[1..];
      SumStep(sum, s);
      FeedQuiet(kind, Data(hdr, sum, got), s);
      if |got| + 1 < PayloadLength(hdr) {
        FeedData(kind, hdr, (sum + s[0]) % 256, got + [s[0]], s[1..]);
      } else {
        LastByte(s, got);
      }
    }
  }

  // The receiving program.

  /** One end of a serial connection: the bytes that will arrive and the bytes sent so far. */
  class Connection {
    var input: seq<byte>
    var output: seq<byte>

    constructor (input: seq<byte>)
      ensures this.input == input && output == []
    {
      this.input, output := input, [];
    }

    /** The next byte, or none when no more will come. */
    method RecvByte() returns (b: Option<byte>)
      modifies `input
      ensures old(input) == [] ==> b.None? && input == []
      ensures old(input) != [] ==> b == Some(old(input)[0]) && input == old(input)[1..]
    {
      if input == [] {
        return None;
      }
      b := Some(input[0]);
      input := input[1..];
    }

    method SendByte(b: byte)
      modifies `output
      ensures output == old(output) + [b]
    {
      output := output + [b];
    }

    /** `recv_bytes`: exactly `n` bytes, or none if they do not all come. */
    method RecvBytes(n: nat) returns (r: Option<seq<byte>>, ghost used: seq<byte>)
      modifies `input
      ensures old(input) == used + input && |used| <= n
      ensures r == if |used| == n then Some(used) else None
    {
      var result: seq<byte> := [];
      used := [];
      assert [] + input == input;
      for i := 0 to n
        invariant used == result && |result| == i && old(input) == used + input
      {
        ghost var before := input;
        var b := RecvByte();
        if b.None? {
          return None, used;
        }
        assert used + before == (used + [before[0]]) + before[1..];
        result := result + [b.value];
        used := result;
      }
      return Some(result), used;
    }

    /** Waiting for the ENQ, which is acknowledged. */
    method AwaitEnq(kind: Kind) returns (ok: bool, ghost used: seq<byte>)
      modifies this
      ensures Ran(kind, WaitEnq, used, old(input), input, old(output), output)
      ensures ok == Feed(kind, WaitEnq, used).0.WaitSoh? && (!ok ==> !Feed(kind, WaitEnq, used).0.Received?)
    {
      used := [];
      assert [] + input == input && output + [] == output;
      ghost var input0, output0 := input, output;
      if kind == Client {
        var b := RecvByte();
        if b.None? {
          return false, used;
        }
        used := [b.value];
        FeedOne(kind, WaitEnq, b.value);
        if b.value % 128 != ENQ {
          return false, used;
        }
        SendByte(ACK);
        return true, used;
      }
      while true
        invariant Ran(kind, WaitEnq, used, input0, input, output0, output) && Feed(kind, WaitEnq, used) == (WaitEnq, [])
        decreases |input|
      {
        ghost var before := input;
        var b := RecvByte();
        if b.None? {
          return false, used;
        }
        FeedConcat(kind, WaitEnq, used, [b.value]);
        FeedOne(kind, WaitEnq, b.value);
        assert used + before == (used + [b.value]) + input;
        used := used + [b.value];
        if b.value == ENQ {
          break;
        }
      }
      SendByte(ACK);
      return true, used;
    }

    /** A control byte, its high bit aside. */
    method RecvMark(kind: Kind, mark: byte, from: Recv, to: Recv) returns (ok: bool, ghost used: seq<byte>)
      requires Marks(kind, from, mark, to)
      modifies `input
      ensures old(input) == used + input && Feed(kind, from, used).1 == []
      ensures Feed(kind, from, used).0 == if ok then to else if used == [] then from else Failed
    {
      used := [];
      assert [] + input == input;
      var b := RecvByte();
      if b.None? {
        return false, used;
      }
      used := [b.value];
      FeedOne(kind, from, b.value);
      return b.value % 128 == mark, used;
    }

    /** The header checksum: a header that sums to zero with it is acknowledged, another refused. */
    method RecvHcs(kind: Kind, hdr: seq<byte>) returns (ok: bool, ghost used: seq<byte>)
      modifies this
      ensures Ran(kind, WaitHcs((SOH + Sum(hdr)) % 256, hdr), used, old(input), input, old(output), output)
      ensures var to := Feed(kind, WaitHcs((SOH + Sum(hdr)) % 256, hdr), used).0;
        if ok then to == WaitStx(hdr) else !to.WaitStx? && !to.Received?
    {
      hide Sum;
      used := [];
      assert [] + input == input && output + [] == output;
      var hcs: int := AddAll(SOH, hdr);
      var b := RecvByte();
      if b.None? {
        return false, used;
      }
      FeedOne(kind, WaitHcs(hcs, hdr), b.value);
      used := [b.value];
      hcs := (hcs + b.value) % 256;
      if hcs != 0 {
        SendByte(NAK);
        return false, used;
      }
      SendByte(ACK);
      return true, used;
    }

    /** SOH and the five header bytes. */
    method RecvFive(kind: Kind) returns (hdr: Option<seq<byte>>, ghost used: seq<byte>)
      modifies `input
      ensures old(input) == used + input && Feed(kind, WaitSoh, used).1 == []
      ensures var to := Feed(kind, WaitSoh, used).0;
        if hdr.Some? then |hdr.value| == 5 && to == WaitHcs((SOH + Sum(hdr.value)) % 256, hdr.value)
        else !to.WaitStx? && !to.Received?
    {
      hide Sum, Feed, Take, Marks;
      ghost var input0, s := input, [];
      var ok;
      ControlBytes(kind, [], 0, []);
      ok, used := RecvMark(kind, SOH, WaitSoh, Header(SOH, []));
      if !ok {
        return None, used;
      }
      hdr, s := RecvBytes(5);
      FeedHeader(kind, SOH, [], s);
      Longer(kind, WaitSoh, used, s, input0, input);
      used := used + s;
    }

    /** SOH to HCS. */
    method RecvHeader(kind: Kind) returns (hdr: Option<seq<byte>>, ghost used: seq<byte>)
      modifies this
      ensures Ran(kind, WaitSoh, used, old(input), input, old(output), output)
      ensures var to := Feed(kind, WaitSoh, used).0;
        if hdr.Some? then to == WaitStx(hdr.value) && |hdr.value| == 5 else !to.WaitStx? && !to.Received?
    {
      hide Sum, Feed, Take;
      ghost var input0, more := input, [];
      hdr, used := RecvFive(kind);
      if hdr.None? {
        assert output + [] == output;
        return;
      }
      var ok;
      ok, more := RecvHcs(kind, hdr.value);
      Longer(kind, WaitSoh, used, more, input0, input);
      used := used + more;
      if !ok {
        hdr := None;
      }
    }

    /** STX to EOT. */
    method RecvData(kind: Kind, hdr: seq<byte>) returns (payload: Option<seq<byte>>, ghost used: seq<byte>)
      requires |hdr| == 5
      modifies this
      ensures Ran(kind, WaitStx(hdr), used, old(input), input, old(output), output)
      ensures var to := Feed(kind, WaitStx(hdr), used).0;
        if payload.Some? then to == Received(Message(hdr, payload.value)) else !to.Received?
    {
      hide Sum, Feed, Take, Marks;
      ghost var input0, s, more := input, [], [];
      var ok, got;
      ControlBytes(kind, hdr, 0, []);
      ok, used := RecvMark(kind, STX, WaitStx(hdr), Data(hdr, STX, []));
      if !ok {
        assert output + [] == output;
        return None, used;
      }
      got, s := RecvBytes(PayloadLength(hdr));
      FeedData(kind, hdr, STX, [], s);
      Longer(kind, WaitStx(hdr), used, s, input0, input);
      used := used + s;
      if got.None? {
        assert output + [] == output;
        return None, used;
      }
      var cks := AddAll(STX, got.value);
      ok, more := RecvEnd(kind, hdr, cks, got.value);
      Longer(kind, WaitStx(hdr), used, more, input0, input);
      used := used + more;
      return if ok then got else None, used;
    }

    /** ETX, CKS and EOT. */
    method RecvEnd(kind: Kind, hdr: seq<byte>, sum: byte, payload: seq<byte>) returns (ok: bool, ghost used: seq<byte>)
      modifies this
      ensures Ran(kind, WaitEtx(hdr, sum, payload), used, old(input), input, old(output), output)
      ensures var to := Feed(kind, WaitEtx(hdr, sum, payload), used).0;
        if ok then to == Received(Message(hdr, payload)) else !to.Received?
    {
      hide Feed, Take, Marks;
      var start, cks := WaitEtx(hdr, sum, payload), (sum + ETX) % 256;
      ghost var input0, more := input, [];
      ControlBytes(kind, hdr, sum, payload);
      ok, used := RecvMark(kind, ETX, start, WaitCks(hdr, cks, payload));
      if !ok {
        assert output + [] == output;
        return false, used;
      }
      ok, more := RecvCks(kind, hdr, cks, payload);
      Longer(kind, start, used, more, input0, input);
      used := used + more;
    }

    /** CKS and EOT. */
    method RecvCks(kind: Kind, hdr: seq<byte>, sum: byte, payload: seq<byte>) returns (ok: bool, ghost used: seq<byte>)
      modifies this
      ensures Ran(kind, WaitCks(hdr, sum, payload), used, old(input), input, old(output), output)
      ensures var to := Feed(kind, WaitCks(hdr, sum, payload), used).0;
        if ok then to == Received(Message(hdr, payload)) else !to.Received?
    {
      var start := WaitCks(hdr, sum, payload);
      used := [];
      assert [] + input == input && output + [] == output;
      var b := RecvByte();
      if b.None? {
        return false, used;
      }
      FeedOne(kind, start, b.value);
      used := [b.value];
      var cks: byte := (sum + b.value) % 256;
      var eot := RecvByte();
      if eot.None? {
        return false, used;
      }
      FeedConcat(kind, start, used, [eot.value]);
      FeedOne(kind, WaitEot(hdr, cks, payload), eot.value);
      used := used + [eot.value];
      if eot.value % 128 != EOT {
        return false, used;
      }
      if cks != 0 {
        SendByte(NAK);
        return false, used;
      }
      SendByte(ACK);
      return true, used;
    }

    /** `recv_frame`, and with the other kind `recv_message`: a message is returned exactly when the bytes
        taken bring the receiver to it, and the replies are the receiver's. */
    method RecvFrame(kind: Kind) returns (m: Option<Message>, ghost used: seq<byte>)
      modifies this
      ensures Ran(kind, WaitEnq, used, old(input), input, old(output), output)
      ensures var to := Feed(kind, WaitEnq, used).0;
        if m.Some? then to == Received(m.value) else !to.Received?
    {
      hide Feed;
      ghost var input0, more := input, [];
      var ok;
      ok, used := AwaitEnq(kind);
      if !ok {
        return None, used;
      }
      var hdr;
      hdr, more := RecvHeader(kind);
      Longer(kind, WaitEnq, used, more, input0, input);
      used := used + more;
      if hdr.None? {
        return None, used;
      }
      var payload;
      payload, more := RecvData(kind, hdr.value);
      Longer(kind, WaitEnq, used, more, input0, input);
      used := used + more;
      return if payload.Some? then Some(Message(hdr.value, payload.value)) else None, used;
    }

    /** Is the next byte an acknowledgement, the high bit aside? */
    method RecvAck() returns (ok: bool)
      modifies `input
      ensures ok == Acked(old(input))
      ensures input == if old(input) == [] then [] else old(input)[1..]
    {
      var b := RecvByte();
      return b.Some? && b.value % 128 == ACK;
    }

    method SendBytes(s: seq<byte>)
      modifies `output
      ensures output == old(output) + s
    {
      for i := 0 to |s|
        invariant output == old(output) + s[..i]
      {
        assert s[..i + 1] == s[..i] + [s[i]];
        SendByte(s[i]);
      }
      assert s[..|s|] == s;
    }

    method SendHeader(hdr: seq<byte>)
      modifies `output
      ensures output == old(output) + HeaderBlock(hdr)
    {
      hide Complement, Sum;
      var hcs := Checksum([SOH] + hdr, 0);
      SumOfBlock(SOH, hdr, []);
      assert [SOH] + hdr + [] == [SOH] + hdr;
      SendBytes([SOH] + hdr);
      SendByte(hcs);
    }

    method SendData(payload: seq<byte>)
      modifies `output
      ensures output == old(output) + DataBlock(payload)
    {
      hide Complement, Sum;
      var cks := Checksum([STX] + payload + [ETX], 0);
      SumOfBlock(STX, payload, [ETX]);
      SendBytes([STX] + payload + [ETX]);
      SendByte(cks);
      SendByte(EOT);
    }

    /** `send_frame` and `send_message`: each block goes out after the acknowledgement of the one before. */
    method SendFrame(m: Message) returns (ok: bool)
      requires |m.hdr| <= 5
      modifies this
      ensures output == old(output) + Sent(m, old(input)).0 && ok == Sent(m, old(input)).1
    {
      hide HeaderBlock, DataBlock;
      ghost var output0, acks := output, input;
      SendByte(ENQ);
      ok := RecvAck();
      if !ok {
        return;
      }
      SendHeader(m.hdr);
      assert output == output0 + ([ENQ] + HeaderBlock(m.hdr));
      ok := RecvAck();
      if !ok {
        return;
      }
      assert acks[1..][1..] == acks[2..];
      SendData(m.payload);
      assert output == output0 + ([ENQ] + HeaderBlock(m.hdr) + DataBlock(m.payload));
      ok := RecvAck();
    }
  }

  /** Two stretches in a row. */
  lemma Longer(kind: Kind, from: Recv, a: seq<byte>, b: seq<byte>, input0: seq<byte>, input: seq<byte>)
    requires input0 == a + (b + input)
    ensures input0 == (a + b) + input
    ensures Feed(kind, from, a + b)
         == (Feed(kind, Feed(kind, from, a).0, b).0, Feed(kind, from, a).1 + Feed(kind, Feed(kind, from, a).0, b).1)
    ensures [] + b == b && Feed(kind, from, a).1 + [] == Feed(kind, from, a).1
  {
    FeedConcat(kind, from, a, b);
    hide Feed;
  }

  predicate Acked(s: seq<byte>) { s != [] && s[0] % 128 == ACK }

  /** What is sent, and the result, when `acks` come back. */
  function Sent(m: Message, acks: seq<byte>): (seq<byte>, bool) {
    if !Acked(acks) then ([ENQ], false)
    else if !Acked(acks[1..]) then ([ENQ] + HeaderBlock(m.hdr), false)
    else ([ENQ] + HeaderBlock(m.hdr) + DataBlock(m.payload), Acked(acks[2..]))
  }

  lemma SumOfBlock(first: byte, s: seq<byte>, last: seq<byte>)
    requires |last| <= 1
    ensures Sum([first] + s + last) == first + Sum(s) + if last == [] then 0 else last[0]
  {
    SumConcat([first] + s, last);
    SumConcat([first], s);
    assert Sum([first]) == first + Sum([first][1..]);
    if last != [] {
      assert Sum(last) == last[0] + Sum(last[1..]);
    }
  }

  method AddAll(init: byte, data: seq<byte>) returns (s: byte)
    ensures s == (init + Sum(data)) % 256
  {
    s := init;
    assert data[..0] == [];
    for i := 0 to |data|
      invariant s == (init + Sum(data[..i])) % 256
    {
      SumSnoc(data[..i], data[i]);
      assert data[..i + 1] == data[..i] + [data[i]];
      s := (s + data[i]) % 256;
    }
    assert data[..|data|] == data;
  }

  /** A stretch of receiving: `used` was taken from the input, and the replies to it were sent. */
  ghost predicate Ran(kind: Kind, from: Recv, used: seq<byte>, input0: seq<byte>, input: seq<byte>,
                      output0: seq<byte>, output: seq<byte>) {
    input0 == used + input && output == output0 + Feed(kind, from, used).1
  }

  // One exchange.

  /** A silent stretch and what comes after it. */
  lemma FeedThen(kind: Kind, from: Recv, a: seq<byte>, mid: Recv, b: seq<byte>, to: Recv, reply: seq<byte>)
    requires Feed(kind, from, a) == (mid, []) && Feed(kind, mid, b) == (to, reply)
    ensures Feed(kind, from, a + b) == (to, reply)
  {
    FeedConcat(kind, from, a, b);
    assert [] + reply == reply;
  }

  lemma SumOfThree(total: nat, last: byte)
    ensures ((SOH + total) % 256 + last) % 256 == (SOH + total + last) % 256
  {
  }

  /** What comes of five header bytes between a first byte and a checksum byte. */
  lemma HeaderOutcome(kind: Kind, first: byte, hdr: seq<byte>, last: byte)
    requires |hdr| == 5
    ensures Feed(kind, WaitSoh, [first] + hdr).1 == []
    ensures Feed(kind, WaitSoh, [first] + hdr + [last])
         == if first % 128 != SOH then (Failed, [])
            else if (SOH + Sum(hdr) + last) % 256 != 0 then (Failed, [NAK])
            else (WaitStx(hdr), [ACK])
  {
    var sum := (SOH + Sum(hdr)) % 256;
    FeedOne(kind, WaitSoh, first);
    FeedOne(kind, WaitHcs(sum, hdr), last);
    FeedHeader(kind, SOH, [], hdr);
    assert [] + hdr == hdr;
    SumOfThree(Sum(hdr), last);
    EndedStays(kind, Failed, hdr);
    EndedStays(kind, Failed, [last]);
    assert Take(kind, WaitSoh, first) == (if first % 128 != SOH then Failed else Header(SOH, []), []);
    assert Take(kind, WaitHcs(sum, hdr), last) == if (sum + last) % 256 == 0 then (WaitStx(hdr), [ACK]) else (Failed, [NAK]);
    hide Sum, Feed, Take;
    if first % 128 != SOH {
      FeedThen(kind, WaitSoh, [first], Failed, hdr, Failed, []);
      FeedThen(kind, WaitSoh, [first] + hdr, Failed, [last], Failed, []);
    } else {
      FeedThen(kind, WaitSoh, [first], Header(SOH, []), hdr, WaitHcs(sum, hdr), []);
      var end := Take(kind, WaitHcs(sum, hdr), last);
      FeedThen(kind, WaitSoh, [first] + hdr, WaitHcs(sum, hdr), [last], end.0, end.1);
    }
  }

  lemma HeaderTaken(kind: Kind, hdr: seq<byte>)
    requires |hdr| == 5
    ensures Feed(kind, WaitSoh, [SOH] + hdr).1 == []
    ensures Feed(kind, WaitSoh, HeaderBlock(hdr)) == (WaitStx(hdr), [ACK])
  {
    HeaderOutcome(kind, SOH, hdr, Complement(SOH + Sum(hdr)));
    SumsToZero(SOH + Sum(hdr));
  }

  /** What comes of a payload of the announced length between STX, ETX, a checksum and EOT, each of them
      perhaps damaged. */
  lemma DataOutcome(kind: Kind, hdr: seq<byte>, stx: byte, payload: seq<byte>, etx: byte, cks: byte, eot: byte)
    requires |hdr| == 5 && |payload| == PayloadLength(hdr)
    ensures stx % 128 == STX && etx % 128 == ETX ==> Feed(kind, WaitStx(hdr), [stx] + payload + [etx] + [cks]).1 == []
    ensures Feed(kind, WaitStx(hdr), [stx] + payload + [etx] + [cks] + [eot])
         == if stx % 128 != STX || etx % 128 != ETX || eot % 128 != EOT then (Failed, [])
            else if (STX + Sum(payload) + ETX + cks) % 256 != 0 then (Failed, [NAK])
            else (Received(Message(hdr, payload)), [ACK])
  {
    Regroup(stx, payload, etx, cks, eot);
    SumOfFour(Sum(payload), cks);
    if stx % 128 != STX {
      hide *;
      StxWrong(kind, hdr, stx, payload + [etx] + [cks] + [eot]);
    } else {
      var start, sum := WaitStx(hdr), (STX + Sum(payload)) % 256;
      var mid := WaitEtx(hdr, sum, payload);
      hide Feed, Take, Sum, PayloadLength;
      StxPayload(kind, hdr, stx, payload);
      EndOutcome(kind, hdr, sum, payload, etx, cks, eot);
      var end, near := Feed(kind, mid, [etx] + [cks] + [eot]), Feed(kind, mid, [etx] + [cks]);
      FeedThen(kind, start, [stx] + payload, mid, [etx] + [cks] + [eot], end.0, end.1);
      FeedThen(kind, start, [stx] + payload, mid, [etx] + [cks], near.0, near.1);
    }
  }

  lemma StxWrong(kind: Kind, hdr: seq<byte>, stx: byte, rest: seq<byte>)
    requires stx % 128 != STX
    ensures Feed(kind, WaitStx(hdr), [stx] + rest) == (Failed, [])
  {
    FeedOne(kind, WaitStx(hdr), stx);
    EndedStays(kind, Failed, rest);
    hide Feed;
    FeedThen(kind, WaitStx(hdr), [stx], Failed, rest, Failed, []);
  }

  lemma StxPayload(kind: Kind, hdr: seq<byte>, stx: byte, payload: seq<byte>)
    requires |hdr| == 5 && |payload| == PayloadLength(hdr) && stx % 128 == STX
    ensures Feed(kind, WaitStx(hdr), [stx] + payload) == (WaitEtx(hdr, (STX + Sum(payload)) % 256, payload), [])
  {
    FeedOne(kind, WaitStx(hdr), stx);
    FeedData(kind, hdr, STX, [], payload);
    assert [] + payload == payload;
    hide Feed, Sum;
    FeedThen(kind, WaitStx(hdr), [stx], Data(hdr, STX, []), payload, WaitEtx(hdr, (STX + Sum(payload)) % 256, payload), []);
  }

  lemma SumOfFour(total: nat, cks: byte)
    ensures (((STX + total) % 256 + ETX) % 256 + cks) % 256 == (STX + total + ETX + cks) % 256
  {
  }

  lemma Regroup(stx: byte, payload: seq<byte>, etx: byte, cks: byte, eot: byte)
    ensures [stx] + payload + [etx] + [cks] + [eot] == [stx] + (payload + [etx] + [cks] + [eot])
    ensures [stx] + payload + [etx] + [cks] + [eot] == [stx] + payload + ([etx] + [cks] + [eot])
    ensures [stx] + payload + [etx] + [cks] == [stx] + payload + ([etx] + [cks])
  {
  }

  lemma EndOutcome(kind: Kind, hdr: seq<byte>, sum: byte, payload: seq<byte>, etx: byte, cks: byte, eot: byte)
    ensures etx % 128 == ETX ==> Feed(kind, WaitEtx(hdr, sum, payload), [etx] + [cks]).1 == []
    ensures Feed(kind, WaitEtx(hdr, sum, payload), [etx] + [cks] + [eot])
         == if etx % 128 != ETX || eot % 128 != EOT then (Failed, [])
            else if ((sum + ETX) % 256 + cks) % 256 != 0 then (Failed, [NAK])
            else (Received(Message(hdr, payload)), [ACK])
  {
    var start := WaitEtx(hdr, sum, payload);
    var total := ((sum + ETX) % 256 + cks) % 256;
    FeedOne(kind, start, etx);
    FeedOne(kind, WaitCks(hdr, (sum + ETX) % 256, payload), cks);
    FeedOne(kind, WaitEot(hdr, total, payload), eot);
    EndedStays(kind, Failed, [cks] + [eot]);
    assert [etx] + [cks] + [eot] == [etx] + ([cks] + [eot]);
    hide Feed;
    if etx % 128 != ETX {
      FeedThen(kind, start, [etx], Failed, [cks] + [eot], Failed, []);
    } else {
      FeedThen(kind, start, [etx], WaitCks(hdr, (sum + ETX) % 256, payload), [cks], WaitEot(hdr, total, payload), []);
      var end := Take(kind, WaitEot(hdr, total, payload), eot);
      FeedThen(kind, start, [etx] + [cks], WaitEot(hdr, total, payload), [eot], end.0, end.1);
    }
  }

  lemma DataTaken(kind: Kind, m: Message)
    requires ValidMessage(m)
    ensures var block := DataBlock(m.payload);
      && Feed(kind, WaitStx(m.hdr), block[..|block| - 1]).1 == []
      && Feed(kind, WaitStx(m.hdr), block) == (Received(m), [ACK])
  {
    var total := STX + Sum(m.payload) + ETX;
    DataOutcome(kind, m.hdr, STX, m.payload, ETX, Complement(total), EOT);
    SumsToZero(total);
    var block := DataBlock(m.payload);
    assert block[..|block| - 1] == [STX] + m.payload + [ETX] + [Complement(total)];
  }

  lemma {:induction false} EndedStays(kind: Kind, r: Recv, s: seq<byte>)
    requires Ended(r)
    ensures Feed(kind, r, s) == (r, [])
    decreases |s|
  {
    if s != [] {
      FeedQuiet(kind, r, s);
      EndedStays(kind, r, s[1..]);
    }
  }

  /** A block whose one reply comes at its last byte keeps the receiver waiting until then. */
  lemma QuietBefore(kind: Kind, r: Recv, block: seq<byte>, j: nat)
    requires j < |block| && Feed(kind, r, block[..|block| - 1]).1 == [] && Feed(kind, r, block).1 != []
    ensures Feed(kind, r, block[..j]).1 == [] && !Ended(Feed(kind, r, block[..j]).0)
  {
    var n := |block| - 1;
    FeedConcat(kind, r, block[..j], block[j..n]);
    assert block[..j] + block[j..n] == block[..n];
    FeedConcat(kind, r, block[..j], block[j..]);
    assert block[..j] + block[j..] == block;
    if Ended(Feed(kind, r, block[..j]).0) {
      EndedStays(kind, Feed(kind, r, block[..j]).0, block[j..]);
    }
  }

  /** The three blocks of an exchange. */
  function Block(m: Message, stage: nat): seq<byte> {
    if stage == 0 then [ENQ] else if stage == 1 then HeaderBlock(m.hdr) else DataBlock(m.payload)
  }

  /** The receiver before each block, and at the end. */
  function Before(m: Message, stage: nat): Recv {
    if stage == 0 then WaitEnq else if stage == 1 then WaitSoh else if stage == 2 then WaitStx(m.hdr) else Received(m)
  }

  lemma BlockTaken(kind: Kind, m: Message, stage: nat)
    requires ValidMessage(m) && stage < 3
    ensures var block := Block(m, stage);
      && block != []
      && Feed(kind, Before(m, stage), block[..|block| - 1]).1 == []
      && Feed(kind, Before(m, stage), block) == (Before(m, stage + 1), [ACK])
  {
    if stage == 0 {
      FeedOne(kind, WaitEnq, ENQ);
    } else if stage == 1 {
      HeaderTaken(kind, m.hdr);
      assert HeaderBlock(m.hdr)[..|HeaderBlock(m.hdr)| - 1] == [SOH] + m.hdr;
    } else {
      DataTaken(kind, m);
    }
  }

  // Sender and receiver over two queues, interleaved in any way.

  /** The sender: about to send byte `sent` of its block, or waiting for the acknowledgement after the last
      one; `stage` 3 is success. */
  datatype Sender = Sending(stage: nat, sent: nat) | GaveUp

  datatype System = System(sender: Sender, down: seq<byte>, recv: Recv, up: seq<byte>)

  datatype Move = SenderMoves | ReceiverMoves

  predicate CanMove(m: Message, s: System, who: Move) {
    match who
    case SenderMoves =>
      s.sender.Sending? && s.sender.stage < 3 && (s.sender.sent < |Block(m, s.sender.stage)| || s.up != [])
    case ReceiverMoves => !Ended(s.recv) && s.down != []
  }

  /** One step: the sender sends a byte or takes an answer, the receiver takes a byte and answers. */
  function Next(kind: Kind, m: Message, s: System, who: Move): System
    requires CanMove(m, s, who)
  {
    match who
    case SenderMoves =>
      var stage, sent := s.sender.stage, s.sender.sent;
      if sent < |Block(m, stage)| then s.(sender := Sending(stage, sent + 1), down := s.down + [Block(m, stage)[sent]])
      else s.(sender := if s.up[0] % 128 == ACK then Sending(stage + 1, 0) else GaveUp, up := s.up[1..])
    case ReceiverMoves =>
      var (next, reply) := Take(kind, s.recv, s.down[0]);
      s.(recv := next, down := s.down[1..], up := s.up + reply)
  }

  function Start(noise: seq<byte>): System { System(Sending(0, 0), noise, WaitEnq, []) }

  /** A server may find bytes on the line before the ENQ, any but an ENQ. */
  predicate Harmless(kind: Kind, noise: seq<byte>) {
    if kind == Server then ENQ !in noise else noise == []
  }

  /** The system after a run; steps that are not possible are skipped. */
  function RunAll(kind: Kind, m: Message, s: System, moves: seq<Move>): System
    decreases |moves|
  {
    if moves == [] then s
    else RunAll(kind, m, if CanMove(m, s, moves[0]) then Next(kind, m, s, moves[0]) else s, moves[1..])
  }

  /** What holds in every reachable state: the receiver has taken `taken` bytes of the block the sender is
      at, the rest of what was sent is in the queue, and an answer is on its way exactly when the whole
      block has been taken. Noise can only stand before the first block. */
  predicate Inv(kind: Kind, m: Message, s: System, noise: seq<byte>, taken: nat) {
    && s.sender.Sending? && s.sender.stage <= 3
    && (s.sender.stage == 3 ==> s.sender.sent == 0 && taken == 0 && noise == [] && s == System(Sending(3, 0), [], Received(m), []))
    && (s.sender.stage < 3 ==>
          var block := Block(m, s.sender.stage);
          && taken <= s.sender.sent <= |block|
          && Harmless(kind, noise) && (noise != [] ==> s.sender.stage == 0 && taken == 0)
          && s.down == noise + block[taken..s.sender.sent]
          && s.recv == Feed(kind, Before(m, s.sender.stage), block[..taken]).0
          && s.up == if taken == |block| then [ACK] else [])
  }

  /** Bytes still to be sent, taken or answered. */
  function Measure(m: Message, s: System): nat {
    |s.up| + 3 * |s.down|
    + (if !s.sender.Sending? || s.sender.stage >= 3 then 0
       else 5 * (ToSend(m, s.sender.stage, s.sender.sent)) + (3 - s.sender.stage))
  }

  function ToSend(m: Message, stage: nat, sent: nat): nat {
    (if sent <= |Block(m, stage)| then |Block(m, stage)| - sent else 0)
    + (if stage < 2 then |Block(m, 2)| else 0) + (if stage < 1 then |Block(m, 1)| else 0)
  }

  lemma Absorbed(kind: Kind, m: Message, stage: nat, taken: nat)
    requires ValidMessage(m) && stage < 3 && taken < |Block(m, stage)|
    ensures var block, now := Block(m, stage), Feed(kind, Before(m, stage), Block(m, stage)[..taken]).0;
      && !Ended(now)
      && Take(kind, now, block[taken]).0 == Feed(kind, Before(m, stage), block[..taken + 1]).0
      && Take(kind, now, block[taken]).1 == (if taken + 1 == |block| then [ACK] else [])
  {
    var block, from := Block(m, stage), Before(m, stage);
    BlockTaken(kind, m, stage);
    QuietBefore(kind, from, block, taken);
    var now := Feed(kind, from, block[..taken]).0;
    FeedConcat(kind, from, block[..taken], [block[taken]]);
    FeedOne(kind, now, block[taken]);
    assert block[..taken] + [block[taken]] == block[..taken + 1];
    if taken + 1 < |block| {
      QuietBefore(kind, from, block, taken + 1);
    } else {
      assert block[..taken + 1] == block;
    }
  }

  /** Every step keeps the invariant and brings the end nearer. */
  lemma StepKeeps(kind: Kind, m: Message, s: System, noise: seq<byte>, taken: nat, who: Move) returns (noise': seq<byte>, taken': nat)
    requires ValidMessage(m) && Inv(kind, m, s, noise, taken) && CanMove(m, s, who)
    ensures Inv(kind, m, Next(kind, m, s, who), noise', taken')
    ensures Measure(m, Next(kind, m, s, who)) < Measure(m, s)
  {
    var stage, sent := s.sender.stage, s.sender.sent;
    var block := Block(m, stage);
    noise', taken' := noise, taken;
    if who == SenderMoves {
      hide Block, Feed, Harmless;
      if sent < |block| {
        assert noise + block[taken..sent] + [block[sent]] == noise + block[taken..sent + 1];
      } else {
        noise', taken' := AnswerTaken(kind, m, s, noise, taken);
      }
    } else {
      noise', taken' := ByteTaken(kind, m, s, noise, taken);
    }
  }

  lemma AnswerTaken(kind: Kind, m: Message, s: System, noise: seq<byte>, taken: nat) returns (noise': seq<byte>, taken': nat)
    requires ValidMessage(m) && Inv(kind, m, s, noise, taken) && CanMove(m, s, SenderMoves)
    requires s.sender.sent == |Block(m, s.sender.stage)|
    ensures Inv(kind, m, Next(kind, m, s, SenderMoves), noise', taken')
    ensures Measure(m, Next(kind, m, s, SenderMoves)) < Measure(m, s)
  {
    var stage := s.sender.stage;
    var block := Block(m, stage);
    BlockTaken(kind, m, stage);
    assert block[..|block|] == block;
    assert taken == |block| && noise == [] && s.up == [ACK] && s.down == [];
    assert s.recv == Before(m, stage + 1);
    noise', taken' := [], 0;
    if stage < 2 {
      BlockTaken(kind, m, stage + 1);
    }
    hide HeaderBlock, DataBlock, Take, Feed;
    assert Next(kind, m, s, SenderMoves) == System(Sending(stage + 1, 0), [], Before(m, stage + 1), []);
    StageStarts(kind, m, stage + 1);
  }

  /** The state in which the sender begins a block. */
  lemma StageStarts(kind: Kind, m: Message, stage: nat)
    requires stage <= 3 && (stage < 3 ==> Block(m, stage) != [])
    ensures Inv(kind, m, System(Sending(stage, 0), [], Before(m, stage), []), [], 0)
  {
    hide Block;
  }

  lemma ByteTaken(kind: Kind, m: Message, s: System, noise: seq<byte>, taken: nat) returns (noise': seq<byte>, taken': nat)
    requires ValidMessage(m) && Inv(kind, m, s, noise, taken) && CanMove(m, s, ReceiverMoves)
    ensures Inv(kind, m, Next(kind, m, s, ReceiverMoves), noise', taken')
    ensures Measure(m, Next(kind, m, s, ReceiverMoves)) < Measure(m, s)
  {
    hide *;
    if noise != [] {
      noise', taken' := noise[1..], taken;
      NoiseByte(kind, m, s, noise, taken);
    } else {
      noise', taken' := noise, taken + 1;
      BlockByte(kind, m, s, taken);
    }
  }

  lemma NoiseByte(kind: Kind, m: Message, s: System, noise: seq<byte>, taken: nat)
    requires ValidMessage(m) && Inv(kind, m, s, noise, taken) && CanMove(m, s, ReceiverMoves) && noise != []
    ensures Inv(kind, m, Next(kind, m, s, ReceiverMoves), noise[1..], taken)
    ensures Measure(m, Next(kind, m, s, ReceiverMoves)) < Measure(m, s)
  {
    hide HeaderBlock, DataBlock;
    var sent, block := s.sender.sent, Block(m, s.sender.stage);
    assert kind == Server && s.down[0] == noise[0] != ENQ;
    assert (noise + block[taken..sent])[1..] == noise[1..] + block[taken..sent];
  }

  lemma BlockByte(kind: Kind, m: Message, s: System, taken: nat)
    requires ValidMessage(m) && Inv(kind, m, s, [], taken) && CanMove(m, s, ReceiverMoves)
    ensures Inv(kind, m, Next(kind, m, s, ReceiverMoves), [], taken + 1)
    ensures Measure(m, Next(kind, m, s, ReceiverMoves)) < Measure(m, s)
  {
    var stage, sent := s.sender.stage, s.sender.sent;
    var block := Block(m, stage);
    hide Block, Feed, Take;
    assert [] + block[taken..sent] == block[taken..sent];
    Absorbed(kind, m, stage, taken);
    assert block[taken..sent][1..] == block[taken + 1..sent];
    assert [] + block[taken + 1..sent] == block[taken + 1..sent];
  }

  /** When neither side can move the message has been delivered and acknowledged. */
  lemma NeverStuck(kind: Kind, m: Message, s: System, noise: seq<byte>, taken: nat)
    requires ValidMessage(m) && Inv(kind, m, s, noise, taken)
    requires !CanMove(m, s, SenderMoves) && !CanMove(m, s, ReceiverMoves)
    ensures s == System(Sending(3, 0), [], Received(m), [])
  {
    var stage, sent := s.sender.stage, s.sender.sent;
    if stage < 3 {
      var block := Block(m, stage);
      BlockTaken(kind, m, stage);
      if taken < |block| {
        Absorbed(kind, m, stage, taken);
        assert false;
      }
    }
  }

  /** The number of steps of a run that were possible. */
  function Steps(kind: Kind, m: Message, s: System, moves: seq<Move>): nat
    decreases |moves|
  {
    if moves == [] then 0
    else if CanMove(m, s, moves[0]) then 1 + Steps(kind, m, Next(kind, m, s, moves[0]), moves[1..])
    else Steps(kind, m, s, moves[1..])
  }

  lemma {:induction false} EveryRunFrom(kind: Kind, m: Message, s: System, noise: seq<byte>, taken: nat, moves: seq<Move>)
    returns (noise': seq<byte>, taken': nat)
    requires ValidMessage(m) && Inv(kind, m, s, noise, taken)
    ensures Inv(kind, m, RunAll(kind, m, s, moves), noise', taken')
    ensures Steps(kind, m, s, moves) + Measure(m, RunAll(kind, m, s, moves)) <= Measure(m, s)
    decreases |moves|
  {
    hide Inv, Next, CanMove, Measure;
    noise', taken' := noise, taken;
    if moves != [] {
      var next := s;
      if CanMove(m, s, moves[0]) {
        noise', taken' := StepKeeps(kind, m, s, noise, taken, moves[0]);
        next := Next(kind, m, s, moves[0]);
      }
      noise', taken' := EveryRunFrom(kind, m, next, noise', taken', moves[1..]);
    }
  }

  /** In every interleaving on a clean link: only boundedly many steps are possible, and a state where no
      step is possible is the one where the receiver has exactly the message sent and the sender knows. */
  lemma EveryRunDelivers(kind: Kind, m: Message, noise: seq<byte>, moves: seq<Move>)
    requires ValidMessage(m) && Harmless(kind, noise)
    ensures var s := RunAll(kind, m, Start(noise), moves);
      && (!CanMove(m, s, SenderMoves) && !CanMove(m, s, ReceiverMoves) ==> s == System(Sending(3, 0), [], Received(m), []))
      && (s.recv.Received? ==> s.recv.m == m) && !s.recv.Failed? && s.sender != GaveUp
      && Steps(kind, m, Start(noise), moves) <= Measure(m, Start(noise))
  {
    assert noise + Block(m, 0)[0..0] == noise && Block(m, 0)[..0] == [];
    assert Inv(kind, m, Start(noise), noise, 0);
    var noise', taken' := EveryRunFrom(kind, m, Start(noise), noise, 0, moves);
    var s := RunAll(kind, m, Start(noise), moves);
    if !CanMove(m, s, SenderMoves) && !CanMove(m, s, ReceiverMoves) {
      NeverStuck(kind, m, s, noise', taken');
    }
    ReceiverRight(kind, m, s, noise', taken');
  }

  lemma ReceiverRight(kind: Kind, m: Message, s: System, noise: seq<byte>, taken: nat)
    requires ValidMessage(m) && Inv(kind, m, s, noise, taken)
    ensures (s.recv.Received? ==> s.recv.m == m) && !s.recv.Failed?
  {
    if s.sender.stage < 3 {
      var block := Block(m, s.sender.stage);
      BlockTaken(kind, m, s.sender.stage);
      if taken < |block| {
        Absorbed(kind, m, s.sender.stage, taken);
      } else {
        assert block[..taken] == block;
      }
    }
  }

  // The sending program: what goes out, and that it is the sender above.

  /** The first `n` of the three blocks. */
  function Blocks(m: Message, n: nat): seq<byte> {
    if n == 0 then [] else if n == 1 then [ENQ]
    else if n == 2 then [ENQ] + HeaderBlock(m.hdr)
    else [ENQ] + HeaderBlock(m.hdr) + DataBlock(m.payload)
  }

  /** The first `k` of these answers are acknowledgements, the high bit aside. */
  predicate AllAcked(acks: seq<byte>, k: nat) {
    k <= |acks| && forall i :: 0 <= i < k ==> acks[i] % 128 == ACK
  }

  /** The blocks go out up to the first answer that is missing or no acknowledgement; three are success. */
  lemma SentBlocks(m: Message, acks: seq<byte>, k: nat)
    requires k <= 3 && AllAcked(acks, k) && (k < 3 ==> !AllAcked(acks, k + 1))
    ensures Sent(m, acks) == (Blocks(m, k + 1), k == 3)
  {
    hide HeaderBlock, DataBlock;
    assert k < 3 && k < |acks| ==> acks[k] % 128 != ACK;
    assert Acked(acks) <==> k > 0;
    if k > 0 {
      assert Acked(acks[1..]) <==> k > 1;
      if k > 1 {
        assert Acked(acks[2..]) <==> k > 2;
      }
    }
  }

  /** A receiver that is given what a sender sends on three acknowledgements has the message, and has answered
      with three acknowledgements. */
  lemma SentDelivered(kind: Kind, m: Message, acks: seq<byte>)
    requires ValidMessage(m) && AllAcked(acks, 3)
    ensures Sent(m, acks).1 && Feed(kind, WaitEnq, Sent(m, acks).0) == (Received(m), [ACK, ACK, ACK])
  {
    SentBlocks(m, acks, 3);
    BlockTaken(kind, m, 0);
    BlockTaken(kind, m, 1);
    BlockTaken(kind, m, 2);
    var header, data := HeaderBlock(m.hdr), DataBlock(m.payload);
    hide Feed, HeaderBlock, DataBlock, Sent;
    FeedConcat(kind, WaitEnq, [ENQ], header);
    FeedConcat(kind, WaitEnq, [ENQ] + header, data);
    assert [ACK] + [ACK] + [ACK] == [ACK, ACK, ACK];
  }

  /** The bytes the sender sends in a run, and the answers it takes. */
  function SentInRun(kind: Kind, m: Message, s: System, moves: seq<Move>): (r: (seq<byte>, seq<byte>))
    decreases |moves|
  {
    if moves == [] then ([], [])
    else if !CanMove(m, s, moves[0]) then SentInRun(kind, m, s, moves[1..])
    else
      var more := SentInRun(kind, m, Next(kind, m, s, moves[0]), moves[1..]);
      if moves[0] == ReceiverMoves then more
      else if s.sender.sent < |Block(m, s.sender.stage)| then ([Block(m, s.sender.stage)[s.sender.sent]] + more.0, more.1)
      else (more.0, [s.up[0]] + more.1)
  }

  /** Where a sender stands that has sent `out` and taken the answers `acks`. */
  ghost predicate Stands(m: Message, sender: Sender, out: seq<byte>, acks: seq<byte>) {
    match sender
    case Sending(stage, sent) =>
      && stage == |acks| <= 3 && AllAcked(acks, stage) && (stage == 3 ==> sent == 0)
      && (stage < 3 ==> sent <= |Block(m, stage)| && out == Blocks(m, stage) + Block(m, stage)[..sent])
      && (stage == 3 ==> out == Blocks(m, 3))
    case GaveUp => 0 < |acks| <= 3 && AllAcked(acks, |acks| - 1) && !AllAcked(acks, |acks|) && out == Blocks(m, |acks|)
  }

  lemma StandsOn(m: Message, stage: nat, sent: nat, out: seq<byte>, acks: seq<byte>, answer: byte)
    requires stage < 3 && Stands(m, Sending(stage, sent), out, acks)
    ensures var block := Block(m, stage);
      if sent < |block| then Stands(m, Sending(stage, sent + 1), out + [block[sent]], acks)
      else Stands(m, if answer % 128 == ACK then Sending(stage + 1, 0) else GaveUp, out, acks + [answer])
  {
    var block := Block(m, stage);
    NextBlock(m, stage);
    hide Block, Blocks;
    if sent < |block| {
      assert block[..sent + 1] == block[..sent] + [block[sent]];
    } else {
      assert block[..sent] == block;
      assert stage < 2 ==> Blocks(m, stage + 1) + Block(m, stage + 1)[..0] == Blocks(m, stage + 1);
      assert (acks + [answer])[stage] == answer;
    }
  }

  lemma NextBlock(m: Message, stage: nat)
    requires stage < 3
    ensures Blocks(m, stage + 1) == Blocks(m, stage) + Block(m, stage)
  {
    hide HeaderBlock, DataBlock;
  }

  lemma {:induction false} StandsAfter(kind: Kind, m: Message, s: System, moves: seq<Move>, out: seq<byte>, acks: seq<byte>)
    requires Stands(m, s.sender, out, acks)
    ensures var (more, taken) := SentInRun(kind, m, s, moves);
      Stands(m, RunAll(kind, m, s, moves).sender, out + more, acks + taken)
    decreases |moves|
  {
    hide *;
    if moves == [] {
      NothingSent(kind, m, s, out, acks);
    } else {
      var next, o, a := FirstMove(kind, m, s, moves, out, acks);
      StandsAfter(kind, m, next, moves[1..], o, a);
    }
  }

  lemma NothingSent(kind: Kind, m: Message, s: System, out: seq<byte>, acks: seq<byte>)
    ensures RunAll(kind, m, s, []) == s && SentInRun(kind, m, s, []) == ([], []) && out + [] == out && acks + [] == acks
  {
  }

  lemma FirstMove(kind: Kind, m: Message, s: System, moves: seq<Move>, out: seq<byte>, acks: seq<byte>)
    returns (next: System, o: seq<byte>, a: seq<byte>)
    requires moves != [] && Stands(m, s.sender, out, acks)
    ensures Stands(m, next.sender, o, a) && RunAll(kind, m, s, moves) == RunAll(kind, m, next, moves[1..])
    ensures out + SentInRun(kind, m, s, moves).0 == o + SentInRun(kind, m, next, moves[1..]).0
    ensures acks + SentInRun(kind, m, s, moves).1 == a + SentInRun(kind, m, next, moves[1..]).1
  {
    hide Stands, Block, Take;
    next, o, a := s, out, acks;
    if CanMove(m, s, moves[0]) {
      next := Next(kind, m, s, moves[0]);
      if moves[0] == SenderMoves {
        var stage, sent := s.sender.stage, s.sender.sent;
        var block := Block(m, stage);
        StandsOn(m, stage, sent, out, acks, if s.up == [] then 0 else s.up[0]);
        if sent < |block| {
          o := out + [block[sent]];
        } else {
          a := acks + [s.up[0]];
        }
      }
    }
  }

  /** In every run, whatever the answers, the sender above is `SendFrame`: once it waits, has succeeded or
      has given up it has sent what `SendFrame` sends on the answers taken, with the same result. */
  lemma SenderIsSendFrame(kind: Kind, m: Message, recv: Recv, down: seq<byte>, up: seq<byte>, moves: seq<Move>)
    ensures var s := System(Sending(0, 0), down, recv, up);
      var (out, acks) := SentInRun(kind, m, s, moves);
      var sender := RunAll(kind, m, s, moves).sender;
      && (sender.GaveUp? || sender.stage == 3 || sender.sent == |Block(m, sender.stage)| ==> out == Sent(m, acks).0)
      && (sender == Sending(3, 0) <==> Sent(m, acks).1)
  {
    var s := System(Sending(0, 0), down, recv, up);
    var (out, acks) := SentInRun(kind, m, s, moves);
    assert Blocks(m, 0) + Block(m, 0)[..0] == [];
    StandsAfter(kind, m, s, moves, [], []);
    assert [] + out == out && [] + acks == acks;
    StandsIsSent(m, RunAll(kind, m, s, moves).sender, out, acks);
  }

  lemma StandsIsSent(m: Message, sender: Sender, out: seq<byte>, acks: seq<byte>)
    requires Stands(m, sender, out, acks)
    ensures sender.GaveUp? || sender.stage == 3 || sender.sent == |Block(m, sender.stage)| ==> out == Sent(m, acks).0
    ensures sender == Sending(3, 0) <==> Sent(m, acks).1
  {
    if sender.GaveUp? {
      SentBlocks(m, acks, |acks| - 1);
    } else {
      SentBlocks(m, acks, sender.stage);
      hide HeaderBlock, DataBlock;
      if sender.stage < 3 {
        NextBlock(m, sender.stage);
      }
    }
  }

  /** One frame on the wire, byte by byte. */
  lemma ExampleFrame(acks: seq<byte>)
    requires AllAcked(acks, 3)
    ensures Sent(Message([0, 0, 1, 64, 0], [0]), acks)
         == ([5, 1, 0, 0, 1, 64, 0, 0xBE, 2, 0, 3, 0xFB, 4], true)
  {
    var hdr: seq<byte> := [0, 0, 1, 64, 0];
    assert hdr[1..] == [0, 1, 64, 0] && [0, 1, 64, 0][1..] == [1, 64, 0] && [1, 64, 0][1..] == [64, 0] && [64, 0][1..] == [0];
    assert Sum([0]) == 0 && Sum([64, 0]) == 64 && Sum([1, 64, 0]) == 65;
    assert Sum(hdr) == 65;
    assert HeaderBlock(hdr) == [1, 0, 0, 1, 64, 0, 0xBE];
    assert DataBlock([0]) == [2, 0, 3, 0xFB, 4];
    var m := Message(hdr, [0]);
    hide HeaderBlock, DataBlock, Sent;
    assert Blocks(m, 4) == [5, 1, 0, 0, 1, 64, 0, 0xBE, 2, 0, 3, 0xFB, 4];
    SentBlocks(m, acks, 3);
  }

  /** When a whole frame is accepted, the bytes in each place arbitrary: the control bytes count without their
      high bit (but a server's ENQ), and both blocks must sum to zero. */
  lemma FrameOutcome(kind: Kind, enq: byte, soh: byte, hdr: seq<byte>, hcs: byte,
                     stx: byte, payload: seq<byte>, etx: byte, cks: byte, eot: byte)
    requires |hdr| == 5 && |payload| == hdr[4] as int + 1 && (kind == Server ==> enq == 5)
    ensures Feed(kind, WaitEnq, [enq] + ([soh] + hdr + [hcs]) + ([stx] + payload + [etx] + [cks] + [eot])).0
         == if enq % 128 == 5 && soh % 128 == 1 && (1 + Sum(hdr) + hcs) % 256 == 0
               && stx % 128 == 2 && etx % 128 == 3 && (2 + Sum(payload) + 3 + cks) % 256 == 0 && eot % 128 == 4
            then Received(Message(hdr, payload)) else Failed
  {
    var a, b := [soh] + hdr + [hcs], [stx] + payload + [etx] + [cks] + [eot];
    FeedOne(kind, WaitEnq, enq);
    HeaderOutcome(kind, soh, hdr, hcs);
    DataOutcome(kind, hdr, stx, payload, etx, cks, eot);
    hide Feed, Sum;
    FeedConcat(kind, WaitEnq, [enq], a);
    FeedConcat(kind, WaitEnq, [enq] + a, b);
    EndedStays(kind, Failed, a);
    EndedStays(kind, Failed, b);
  }

  // Damage.

  lemma HeaderDamaged(kind: Kind, hdr: seq<byte>, i: nat, x: byte)
    requires |hdr| == 5 && i < |HeaderBlock(hdr)|
    ensures Feed(kind, WaitSoh, HeaderBlock(hdr)[i := x]).0 in {WaitStx(hdr), Failed}
  {
    var last := Complement(SOH + Sum(hdr));
    SumsToZero(SOH + Sum(hdr));
    var block := HeaderBlock(hdr)[i := x];
    if i == 0 {
      assert block == [x] + hdr + [last];
      HeaderOutcome(kind, x, hdr, last);
    } else if i <= 5 {
      assert block == [SOH] + hdr[i - 1 := x] + [last];
      HeaderOutcome(kind, SOH, hdr[i - 1 := x], last);
      SumUpdate(hdr, i - 1, x);
      DamageShows(SOH + Sum(hdr) + last, x - hdr[i - 1]);
      assert x == hdr[i - 1] ==> hdr[i - 1 := x] == hdr;
    } else {
      assert block == [SOH] + hdr + [x];
      HeaderOutcome(kind, SOH, hdr, x);
    }
  }

  lemma DamageShows(total: nat, d: int)
    requires total % 256 == 0 && -256 < d < 256
    ensures (total + d) % 256 == 0 ==> d == 0
  {
  }

  lemma DataDamaged(kind: Kind, m: Message, i: nat, x: byte)
    requires ValidMessage(m) && i < |DataBlock(m.payload)|
    ensures Feed(kind, WaitStx(m.hdr), DataBlock(m.payload)[i := x]).0 in {Received(m), Failed}
  {
    var hdr, payload, n := m.hdr, m.payload, |m.payload|;
    var cks := Complement(STX + Sum(payload) + ETX);
    SumsToZero(STX + Sum(payload) + ETX);
    var block := DataBlock(payload)[i := x];
    if i == 0 {
      assert block == [x] + payload + [ETX] + [cks] + [EOT];
      DataOutcome(kind, hdr, x, payload, ETX, cks, EOT);
    } else if i <= n {
      assert block == [STX] + payload[i - 1 := x] + [ETX] + [cks] + [EOT];
      DataOutcome(kind, hdr, STX, payload[i - 1 := x], ETX, cks, EOT);
      SumUpdate(payload, i - 1, x);
      DamageShows(STX + Sum(payload) + ETX + cks, x - payload[i - 1]);
      assert x == payload[i - 1] ==> payload[i - 1 := x] == payload;
    } else if i == n + 1 {
      assert block == [STX] + payload + [x] + [cks] + [EOT];
      DataOutcome(kind, hdr, STX, payload, x, cks, EOT);
    } else if i == n + 2 {
      assert block == [STX] + payload + [ETX] + [x] + [EOT];
      DataOutcome(kind, hdr, STX, payload, ETX, x, EOT);
    } else {
      assert block == [STX] + payload + [ETX] + [cks] + [x];
      DataOutcome(kind, hdr, STX, payload, ETX, cks, x);
    }
  }

  /** With at most one byte of each checksummed block altered, whatever part of the stream has arrived, the
      receiver has no message but the one sent. */
  lemma DamageNeverMisleads(kind: Kind, m: Message, noise: seq<byte>, i: nat, x: byte, j: nat, y: byte, n: nat)
    requires ValidMessage(m) && Harmless(kind, noise) && i < |HeaderBlock(m.hdr)| && j < |DataBlock(m.payload)|
    requires n <= |Stream(noise, HeaderBlock(m.hdr)[i := x], DataBlock(m.payload)[j := y])|
    ensures var r := Feed(kind, WaitEnq, Stream(noise, HeaderBlock(m.hdr)[i := x], DataBlock(m.payload)[j := y])[..n]).0;
      r.Received? ==> r.m == m
  {
    HeaderDamaged(kind, m.hdr, i, x);
    DataDamaged(kind, m, j, y);
    var a, b := HeaderBlock(m.hdr)[i := x], DataBlock(m.payload)[j := y];
    var all := Stream(noise, a, b);
    hide HeaderBlock, DataBlock, Feed, Take, Stream;
    StreamEnds(kind, m, noise, a, b);
    FeedConcat(kind, WaitEnq, all[..n], all[n..]);
    assert all[..n] + all[n..] == all;
    var r := Feed(kind, WaitEnq, all[..n]).0;
    if r.Received? {
      EndedStays(kind, r, all[n..]);
    }
  }

  lemma StreamEnds(kind: Kind, m: Message, noise: seq<byte>, a: seq<byte>, b: seq<byte>)
    requires Harmless(kind, noise) && Feed(kind, WaitSoh, a).0 in {WaitStx(m.hdr), Failed}
    requires Feed(kind, WaitStx(m.hdr), b).0 in {Received(m), Failed}
    ensures Feed(kind, WaitEnq, Stream(noise, a, b)).0 in {Received(m), Failed}
  {
    NoiseTaken(kind, noise);
    assert Stream(noise, a, b) == (noise + [ENQ]) + (a + b);
    hide Feed;
    FeedConcat(kind, WaitEnq, noise + [ENQ], a + b);
    FeedConcat(kind, WaitSoh, a, b);
    EndedStays(kind, Failed, b);
  }

  function Stream(noise: seq<byte>, header: seq<byte>, data: seq<byte>): seq<byte> {
    noise + [ENQ] + header + data
  }

  lemma {:induction false} NoiseTaken(kind: Kind, noise: seq<byte>)
    requires Harmless(kind, noise)
    ensures Feed(kind, WaitEnq, noise + [ENQ]).0 == WaitSoh
    decreases |noise|
  {
    if noise == [] {
      assert noise + [ENQ] == [ENQ];
      FeedOne(kind, WaitEnq, ENQ);
    } else {
      assert noise[0] != ENQ && (noise + [ENQ])[1..] == noise[1..] + [ENQ];
      FeedQuiet(kind, WaitEnq, noise + [ENQ]);
      NoiseTaken(kind, noise[1..]);
    }
  }
}
