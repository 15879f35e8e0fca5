/** Raw CP/NET frames over the parallel link: `recv_scb` and `send_scb` of `cpnet_pio_server.py`, and
    `pio_send_msg` of `transport_pio.c`. */
module Scb {
  import opened Bytes
  import opened Wrappers

  /** Five header bytes FMT, DID, SID, FNC, SIZ and a payload of SIZ + 1 bytes. */
  datatype Frame = Frame(hdr: seq<byte>, payload: seq<byte>)

  datatype ScbError = ClosedEarly | BadStructure | BadChecksum

  function Wire(f: Frame): seq<byte> {
    f.hdr + f.payload + [Complement(Sum(f.hdr) + Sum(f.payload))]
  }

  /** A request from the slave: FMT and DID are 0, SID is its number. */
  predicate Request(f: Frame, sid: byte) {
    && |f.hdr| == 5 && f.hdr[0] == 0 && f.hdr[1] == 0 && f.hdr[2] == sid
    && |f.payload| == 1 + f.hdr[4] as int
  }

  /** What the receiver makes of its input: a frame and the rest, or an error. */
  function Split(sid: byte, s: seq<byte>): (r: Result<(Frame, seq<byte>), ScbError>)
    ensures r.Success? ==> |r.value.1| < |s|
  {
    if |s| < 6 then Failure(ClosedEarly)
    else if s[2] == sid then Body(s[0..5], s[5..])
    else if s[3] == sid then Body(s[1..6], s[6..])
    else Failure(BadStructure)
  }

  /** The payload and checksum behind a header. */
  function Body(hdr: seq<byte>, s: seq<byte>): Result<(Frame, seq<byte>), ScbError>
    requires |hdr| == 5
  {
    var n: int := hdr[4] as int + 1;
    if |s| < n + 1 then Failure(ClosedEarly)
    else if (Sum(hdr) + Sum(s[..n]) + s[n]) % 256 != 0 then Failure(BadChecksum)
    else Success((Frame(hdr, s[..n]), s[n + 1..]))
  }

  class Socket {
    var input: seq<byte>

    constructor (input: seq<byte>)
      ensures this.input == input
    {
      this.input := input;
    }

    /** `_recv_exact`: each `recv` delivers some of the bytes still wanted, however many have arrived. */
    method RecvExact(n: nat) returns (r: Option<seq<byte>>)
      modifies this
      ensures n <= |old(input)| ==> r == Some(old(input)[..n]) && input == old(input)[n..]
      ensures n > |old(input)| ==> r.None?
    {
      var buf: seq<byte> := [];
      ghost var input0 := input;
      while |buf| < n
        invariant |buf| <= n && input0 == buf + input
        decreases n - |buf|
      {
        if input == [] {
          return None;
        }
        var limit := if |input| < n - |buf| then |input| else n - |buf|;
        var k: int :| 1 <= k <= limit;
        assert input0 == (buf + input[..k]) + input[k..];
        buf := buf + input[..k];
        input := input[k..];
      }
      return Some(buf);
    }

    /** `recv_scb`. */
    method RecvScb(sid: byte) returns (r: Result<Frame, ScbError>)
      modifies this
      ensures var s := Split(sid, old(input));
        match s
        case Failure(e) => r == Failure(e)
        case Success((f, rest)) => r == Success(f) && input == rest
    {
      ghost var input0 := input;
      var raw := RecvExact(6);
      if raw.None? {
        return Failure(ClosedEarly);
      }
      var hdr, seed: seq<byte>;
      if raw.value[2] == sid {
        hdr, seed := raw.value[0..5], raw.value[5..6];
        assert hdr == input0[0..5] && input0[5..] == seed + input;
      } else if raw.value[3] == sid {
        hdr, seed := raw.value[1..6], [];
        assert hdr == input0[1..6] && input0[6..] == seed + input;
      } else {
        return Failure(BadStructure);
      }
      r := RecvBody(hdr, seed);
    }

    /** The rest of a frame, of which `seed` has been read already. */
    method RecvBody(hdr: seq<byte>, seed: seq<byte>) returns (r: Result<Frame, ScbError>)
      requires |hdr| == 5 && |seed| <= 1
      modifies this
      ensures var s := Body(hdr, seed + old(input));
        match s
        case Failure(e) => r == Failure(e)
        case Success((f, rest)) => r == Success(f) && input == rest
    {
      hide Sum;
      ghost var all := seed + input;
      var siz: int := hdr[4] as int;
      var n := siz + 1;
      var remaining := n + 1 - |seed|;
      var more := RecvExact(remaining);
      if more.None? {
        return Failure(ClosedEarly);
      }
      var body := seed + more.value;
      assert all == body + input;
      var payload, cks := body[0..n], body[n];
      assert all[..n] == payload && all[n] == cks && all[n + 1..] == input;
      var s := (Sum(hdr) + Sum(payload) + cks) % 256;
      if s != 0 {
        return Failure(BadChecksum);
      }
      return Success(Frame(hdr, payload));
    }
  }

  // A stream of requests is split into exactly its frames.

  /** A frame as it arrives: the parallel port may put one stale byte before it. */
  datatype Sent = Sent(stale: Option<byte>, frame: Frame)

  function Prefix(stale: Option<byte>): seq<byte> { if stale.Some? then [stale.value] else [] }

  function Stream(sent: seq<Sent>): seq<byte> {
    if sent == [] then [] else Prefix(sent[0].stale) + Wire(sent[0].frame) + Stream(sent[1..])
  }

  function Frames(sent: seq<Sent>): seq<Frame> {
    if sent == [] then [] else [sent[0].frame] + Frames(sent[1..])
  }

  /** All frames up to the end of the input. */
  function SplitAll(sid: byte, s: seq<byte>): Result<seq<Frame>, ScbError>
    decreases |s|
  {
    if s == [] then Success([])
    else match Split(sid, s)
      case Failure(e) => Failure(e)
      case Success((f, rest)) =>
        match SplitAll(sid, rest)
        case Failure(e) => Failure(e)
        case Success(more) => Success([f] + more)
  }

  lemma BodyRead(f: Frame, rest: seq<byte>)
    requires |f.hdr| == 5 && |f.payload| == 1 + f.hdr[4] as int
    ensures Body(f.hdr, f.payload + [Complement(Sum(f.hdr) + Sum(f.payload))] + rest) == Success((f, rest))
  {
    var cks := Complement(Sum(f.hdr) + Sum(f.payload));
    var s := f.payload + [cks] + rest;
    var n := |f.payload|;
    SumsToZero(Sum(f.hdr) + Sum(f.payload));
    hide Sum, Complement;
    assert s[..n] == f.payload && s[n] == cks && s[n + 1..] == rest;
  }

  /** One request, with or without a stale byte before it, whatever follows. */
  lemma RequestRead(sid: byte, sent: Sent, rest: seq<byte>)
    requires sid != 0 && Request(sent.frame, sid)
    ensures Split(sid, Prefix(sent.stale) + Wire(sent.frame) + rest) == Success((sent.frame, rest))
  {
    var f, cks := sent.frame, Complement(Sum(sent.frame.hdr) + Sum(sent.frame.payload));
    var s := Prefix(sent.stale) + Wire(f) + rest;
    BodyRead(f, rest);
    hide Sum, Complement, Body;
    var tail := f.payload + [cks] + rest;
    if sent.stale.None? {
      assert s == f.hdr + tail;
      assert s[0..5] == f.hdr && s[5..] == tail;
    } else {
      assert s == [sent.stale.value] + f.hdr + tail;
      assert s[2] == f.hdr[1] && s[3] == f.hdr[2];
      assert s[1..6] == f.hdr && s[6..] == tail;
    }
  }

  /** Any list of requests, each with or without one arbitrary stale byte before it, is received as exactly
      those requests. */
  lemma {:induction false} StreamSplits(sid: byte, sent: seq<Sent>)
    requires sid != 0 && AllRequests(sid, sent)
    ensures SplitAll(sid, Stream(sent)) == Success(Frames(sent))
    decreases |sent|
  {
    hide *;
    if sent == [] {
      NothingSplits(sid);
    } else {
      StreamFirst(sid, sent);
      StreamSplits(sid, sent[1..]);
      FirstSplits(sid, sent);
    }
  }

  lemma NothingSplits(sid: byte)
    ensures SplitAll(sid, Stream([])) == Success(Frames([]))
  {
  }

  lemma FirstSplits(sid: byte, sent: seq<Sent>)
    requires sid != 0 && sent != [] && AllRequests(sid, sent)
    requires SplitAll(sid, Stream(sent[1..])) == Success(Frames(sent[1..]))
    ensures SplitAll(sid, Stream(sent)) == Success(Frames(sent))
  {
    hide *;
    StreamFirst(sid, sent);
    RequestRead(sid, sent[0], Stream(sent[1..]));
    SplitNext(sid, Stream(sent), sent[0].frame, Stream(sent[1..]));
  }

  predicate AllRequests(sid: byte, sent: seq<Sent>) {
    forall i :: 0 <= i < |sent| ==> Request(sent[i].frame, sid)
  }

  lemma StreamFirst(sid: byte, sent: seq<Sent>)
    requires sent != [] && AllRequests(sid, sent)
    ensures Request(sent[0].frame, sid) && AllRequests(sid, sent[1..])
    ensures Stream(sent) == Prefix(sent[0].stale) + Wire(sent[0].frame) + Stream(sent[1..]) && Stream(sent) != []
    ensures Frames(sent) == [sent[0].frame] + Frames(sent[1..])
  {
    assert |Wire(sent[0].frame)| > 0;
    hide Wire, Prefix, Request;
  }

  lemma SplitNext(sid: byte, s: seq<byte>, f: Frame, rest: seq<byte>)
    requires s != [] && Split(sid, s) == Success((f, rest)) && SplitAll(sid, rest).Success?
    ensures SplitAll(sid, s) == Success([f] + SplitAll(sid, rest).value)
  {
    hide Split;
  }

  ghost predicate SplitsRight(sid: byte, sent: seq<Sent>) {
    AllRequests(sid, sent) ==> SplitAll(sid, Stream(sent)) == Success(Frames(sent))
  }

  /** Every stream of requests is split right if and only if the slave's number is not 0. */
  lemma SplitsIffNonZero(sid: byte)
    ensures (forall sent :: SplitsRight(sid, sent)) <==> sid != 0
  {
    if sid != 0 {
      forall sent ensures SplitsRight(sid, sent) {
        if AllRequests(sid, sent) {
          StreamSplits(sid, sent);
        }
      }
    } else {
      var sent := [Sent(Some(9), Frame([0, 0, 0, 0, 0], [7]))];
      ZeroSlaveMisled();
      assert !SplitsRight(0, sent);
    }
  }

  /** With slave number 0 the stale byte is not told apart: a request is then taken for another. */
  lemma ZeroSlaveMisled()
    ensures !SplitsRight(0, [Sent(Some(9), Frame([0, 0, 0, 0, 0], [7]))])
  {
    var f := Frame([0, 0, 0, 0, 0], [7]);
    var sent := [Sent(Some(9), f)];
    var s := [9] + Wire(f);
    assert sent[1..] == [] && Stream([]) == [] && Frames([]) == [];
    assert Stream(sent) == s + [] == s && Frames(sent) == [f];
    if SplitAll(0, s).Success? {
      FirstOfAll(0, s);
      assert Split(0, s).value.0.hdr[0] == 9;
    }
  }

  /** The first of the frames is the first one split off. */
  lemma FirstOfAll(sid: byte, s: seq<byte>)
    requires s != [] && SplitAll(sid, s).Success?
    ensures Split(sid, s).Success? && SplitAll(sid, s).value != [] && SplitAll(sid, s).value[0] == Split(sid, s).value.0
  {
    hide Split;
  }

  // The slave's sender, in 8-bit arithmetic.

  /** `otir` with B = 0 moves 256 bytes. */
  function OtirCount(b: byte): nat { if b == 0 then 256 else b }

  /** The 8-bit length of header and payload. */
  function BodyLength(siz: byte): byte { (6 + siz as int) % 256 }

  method SumArray(msg: array<byte>, n: nat) returns (cks: byte)
    requires n <= msg.Length
    ensures cks == Sum(msg[..n]) % 256
  {
    cks := 0;
    assert msg[..0] == [];
    for i := 0 to n
      invariant cks == Sum(msg[..i]) % 256
    {
      assert msg[..i + 1] == msg[..i] + [msg[i]];
      SumSnoc(msg[..i], msg[i]);
      var sum: int := cks as int + msg[i] as int;
      cks := sum % 256;
    }
  }

  /** `pio_send_msg`: the checksum is written behind the body and `otir` sends the buffer. */
  method PioSendMsg(msg: array<byte>) returns (wire: seq<byte>)
    requires msg.Length >= 256
    modifies msg
    ensures var body := BodyLength(old(msg[4]));
      && msg[..] == old(msg[..])[body := Complement(Sum(old(msg[..])[..body]))]
      && wire == PioWire(old(msg[..]), old(msg[4]))
  {
    hide Sum, Complement;
    ghost var before := msg[..];
    var bodyLen := BodyLength(msg[4]);
    var cks := SumArray(msg, bodyLen);
    assert msg[..bodyLen] == before[..bodyLen];
    Negated(Sum(before[..bodyLen]));
    var c: int := cks;
    msg[bodyLen] := (-c) % 256;
    assert msg[..] == before[bodyLen := Complement(Sum(before[..bodyLen]))];
    var b: int := bodyLen;
    wire := msg[..OtirCount((b + 1) % 256)];
  }

  lemma Negated(total: nat)
    ensures (-(total % 256)) % 256 == Complement(total)
  {
  }

  /** What goes out for the frame `f` at the beginning of a buffer. */
  function PioWire(buffer: seq<byte>, siz: byte): seq<byte>
    requires |buffer| >= 256
  {
    var body: int := BodyLength(siz);
    buffer[body := Complement(Sum(buffer[..body]))][..OtirCount((body + 1) % 256)]
  }

  /** The sender puts a frame on the wire as the receiver expects it exactly when SIZ is at most 249:
      above that the 8-bit lengths wrap and a few bytes go out instead. */
  lemma PioSendsFrameIffSmall(buffer: seq<byte>, f: Frame)
    requires |f.hdr| == 5 && |f.payload| == 1 + f.hdr[4] as int
    requires |buffer| >= 262 && buffer[..6 + f.hdr[4] as int] == f.hdr + f.payload
    ensures PioWire(buffer, f.hdr[4]) == Wire(f) <==> f.hdr[4] <= 249
  {
    var siz: int := f.hdr[4] as int;
    if siz <= 249 {
      var body := 6 + siz;
      SumConcat(f.hdr, f.payload);
      hide Sum, Complement;
      var sent := buffer[body := Complement(Sum(buffer[..body]))];
      assert sent[..body + 1] == buffer[..body] + [sent[body]];
    } else {
      assert |PioWire(buffer, f.hdr[4])| <= 6;
    }
  }

  /** What the slave sends is what the server receives, stale byte or not. */
  lemma PioToServer(sid: byte, buffer: seq<byte>, f: Frame, stale: Option<byte>, rest: seq<byte>)
    requires sid != 0 && Request(f, sid) && f.hdr[4] <= 249
    requires |buffer| >= 262 && buffer[..6 + f.hdr[4] as int] == f.hdr + f.payload
    ensures Split(sid, Prefix(stale) + PioWire(buffer, f.hdr[4]) + rest) == Success((f, rest))
  {
    PioSendsFrameIffSmall(buffer, f);
    RequestRead(sid, Sent(stale, f), rest);
  }

  /** `send_scb`: an empty payload goes out as one zero byte. */
  method SendScb(fmt: byte, did: byte, sid: byte, fnc: byte, payload: seq<byte>) returns (wire: seq<byte>)
    requires |payload| <= 256
    ensures var data := if payload == [] then [0] else payload;
      wire == Wire(Frame([fmt, did, sid, fnc, |data| - 1], data))
  {
    var data: seq<byte> := payload;
    if data == [] {
      data := [0];
    }
    var siz: byte := |data| - 1;
    var hdr: seq<byte> := [fmt, did, sid, fnc, siz];
    var body := hdr + data;
    SumConcat(hdr, data);
    var total: int := Sum(body);
    wire := body + [(-total) % 256];
  }
}
