/** The serial receive path of rcbios-in-c/bios.c as interleaved steps of three parties: the
    sender, the receive interrupt and the mainline reader, with RTS flow control. */
module FlowControl {
  import opened Bytes
  import opened ReceiveRing
  import opened Wrappers

  /** RTS drops when `hi` bytes wait; the sender may still emit `credit` bytes after that. */
  datatype Limits = Limits(hi: nat, credit: nat)

  /** Where the reader is in `bios_reader_body`: spinning, past the emptiness test, holding the
      byte and the new tail, or past the tail update with the emptiness re-test to do. */
  datatype Phase = Waiting | Ready | Loaded(newTail: nat, ch: byte) | Advanced(newTail: nat, ch: byte)

  /** `late` counts the bytes sent since RTS dropped; `lost` those the interrupt dropped. */
  datatype Link = Link(ring: Ring, rts: bool, phase: Phase, late: nat, lost: nat, sent: seq<byte>, delivered: seq<byte>)

  datatype Step = Emit(b: byte) | Read

  /** The interrupt: store, and drop RTS when the ring is nearly full or full. */
  function Interrupt(ring: Ring, rts: bool, hi: nat, b: byte): (r: (Ring, bool))
    requires ring.Valid()
    ensures r.0.Valid() && |r.0.buf| == |ring.buf|
  {
    if ring.Next(ring.head) == ring.tail then (ring, false)
    else (ring.Push(b), rts && ring.Push(b).Used() < hi)
  }

  predicate MayEmit(lim: Limits, l: Link) {
    l.rts || l.late < lim.credit
  }

  function Emitted(lim: Limits, l: Link, b: byte): (l': Link)
    requires l.ring.Valid()
    ensures l'.ring.Valid() && |l'.ring.buf| == |l.ring.buf|
  {
    var (ring, rts) := Interrupt(l.ring, l.rts, lim.hi, b);
    l.(ring := ring, rts := rts, late := if l.rts then 0 else l.late + 1, sent := l.sent + [b],
       lost := if l.ring.Next(l.ring.head) == l.ring.tail then l.lost + 1 else l.lost)
  }

  /** One step of the reader; the re-test and the two port writes are one step. */
  function ReaderStep(l: Link): (l': Link)
    requires l.ring.Valid() && (l.phase.Loaded? ==> l.phase.newTail < |l.ring.buf|)
    ensures l'.ring.Valid() && |l'.ring.buf| == |l.ring.buf|
  {
    match l.phase
    case Waiting => if l.ring.tail == l.ring.head then l else l.(phase := Ready)
    case Ready => l.(phase := Loaded(l.ring.Next(l.ring.tail), l.ring.buf[l.ring.tail]))
    case Loaded(newTail, ch) => l.(ring := l.ring.(tail := newTail), phase := Advanced(newTail, ch))
    case Advanced(newTail, ch) =>
      l.(rts := l.rts || newTail == l.ring.head, phase := Waiting, delivered := l.delivered + [ch])
  }

  /** The bytes that have been taken out of the ring but not yet handed to the caller. */
  function InHand(l: Link): seq<byte> {
    if l.phase.Advanced? then [l.phase.ch] else []
  }

  ghost predicate Inv(lim: Limits, l: Link) {
    && l.ring.Valid()
    && l.lost == 0
    && l.sent == l.delivered + InHand(l) + l.ring.Contents()
    && (l.rts ==> l.ring.Used() < lim.hi)
    && (!l.rts ==> l.late <= lim.credit && l.ring.Used() <= lim.hi + l.late)
    && (!l.rts ==> l.ring.Used() > 0 || l.phase.Advanced?)
    && (l.phase.Ready? ==> l.ring.Used() > 0)
    && (l.phase.Loaded? ==> l.ring.Used() > 0 && l.phase.newTail == l.ring.Next(l.ring.tail)
                            && l.phase.ch == l.ring.buf[l.ring.tail])
    && (l.phase.Advanced? ==> l.phase.newTail == l.ring.tail)
  }

  /** The margin between the threshold and the size of the ring covers the sender's delay. */
  predicate Ample(lim: Limits, size: nat) {
    size >= 2 && 0 < lim.hi && lim.hi + lim.credit < size
  }

  lemma EmitInv(lim: Limits, l: Link, b: byte)
    requires Inv(lim, l) && Ample(lim, |l.ring.buf|) && MayEmit(lim, l)
    ensures Inv(lim, Emitted(lim, l, b))
  {
    PushContents(l.ring, b);
    assert l.ring.Used() < |l.ring.buf| - 1;
    var l' := Emitted(lim, l, b);
    assert l'.ring.Used() == l.ring.Used() + 1;
    assert l'.sent == l'.delivered + InHand(l') + l'.ring.Contents();
  }

  lemma TailUpdateInv(lim: Limits, l: Link)
    requires Inv(lim, l) && l.phase.Loaded?
    ensures Inv(lim, ReaderStep(l))
  {
    var l' := ReaderStep(l);
    PopContents(l.ring);
    hide Ring.Contents;
    assert l'.ring == l.ring.Pop() && l'.ring.Used() == l.ring.Used() - 1;
    assert l'.sent == l'.delivered + InHand(l') + l'.ring.Contents();
  }

  lemma ReadInv(lim: Limits, l: Link)
    requires Inv(lim, l) && Ample(lim, |l.ring.buf|)
    ensures Inv(lim, ReaderStep(l))
  {
    hide Ring.Contents;
    var l' := ReaderStep(l);
    match l.phase {
      case Loaded(_, _) =>
        TailUpdateInv(lim, l);
      case Advanced(_, ch) =>
        assert l.delivered + InHand(l) == l'.delivered + InHand(l');
      case _ =>
    }
  }

  /** The steps of a run are legal: the sender respects RTS up to its delay. */
  ghost predicate Legal(lim: Limits, l: Link, ss: seq<Step>)
    requires l.ring.Valid() && (l.phase.Loaded? ==> l.phase.newTail < |l.ring.buf|)
    decreases |ss|
  {
    ss == [] ||
    ((ss[0].Emit? ==> MayEmit(lim, l)) && Legal(lim, Apply(lim, l, ss[0]), ss[1..]))
  }

  function Apply(lim: Limits, l: Link, s: Step): (l': Link)
    requires l.ring.Valid() && (l.phase.Loaded? ==> l.phase.newTail < |l.ring.buf|)
    ensures l'.ring.Valid() && |l'.ring.buf| == |l.ring.buf|
    ensures l'.phase.Loaded? ==> l'.phase.newTail < |l'.ring.buf|
  {
    match s
    case Emit(b) => Emitted(lim, l, b)
    case Read => ReaderStep(l)
  }

  function ApplyAll(lim: Limits, l: Link, ss: seq<Step>): (l': Link)
    requires l.ring.Valid() && (l.phase.Loaded? ==> l.phase.newTail < |l.ring.buf|)
    ensures l'.ring.Valid() && |l'.ring.buf| == |l.ring.buf|
    ensures l'.phase.Loaded? ==> l'.phase.newTail < |l'.ring.buf|
    decreases |ss|
  {
    if ss == [] then l else ApplyAll(lim, Apply(lim, l, ss[0]), ss[1..])
  }

  lemma {:induction false} RunInv(lim: Limits, l: Link, ss: seq<Step>)
    requires Inv(lim, l) && Ample(lim, |l.ring.buf|) && Legal(lim, l, ss)
    ensures Inv(lim, ApplyAll(lim, l, ss))
    decreases |ss|
  {
    if ss != [] {
      match ss[0] {
        case Emit(b) => EmitInv(lim, l, b);
        case Read => ReadInv(lim, l);
      }
      RunInv(lim, Apply(lim, l, ss[0]), ss[1..]);
    }
  }

  /** The link after boot. */
  predicate Start(l: Link) {
    && |l.ring.buf| >= 2 && l.ring.head == l.ring.tail == 0 && l.rts && l.phase == Waiting
    && l.late == l.lost == 0 && l.sent == l.delivered == []
  }

  /** In every interleaving nothing is lost, bytes come out in the order sent, and RTS is only off
      while there is something to read or the reader is about to look again. */
  lemma EveryRun(lim: Limits, l: Link, ss: seq<Step>)
    requires Start(l) && Ample(lim, |l.ring.buf|) && Legal(lim, l, ss)
    ensures var l' := ApplyAll(lim, l, ss);
            && l'.lost == 0
            && l'.sent == l'.delivered + InHand(l') + l'.ring.Contents()
            && (!l'.rts ==> l'.ring.head != l'.ring.tail || l'.phase.Advanced?)
  {
    assert l.ring.Contents() == [];
    RunInv(lim, l, ss);
  }

  // The link never sticks: the reader alone brings RTS back.

  function Reads(n: nat): (ss: seq<Step>)
    ensures |ss| == n
  {
    seq(n, _ => Read)
  }

  /** Reader steps to an empty ring and a reader back at the start. */
  function Work(l: Link): int
    requires l.ring.Valid()
  {
    4 * l.ring.Used() +
    match l.phase case Waiting => 0 case Ready => -1 case Loaded(_, _) => -2 case Advanced(_, _) => 1
  }

  /** From every state of every run, that many steps of the reader alone deliver everything sent
      so far and leave RTS on. */
  lemma {:induction false} NeverSticks(lim: Limits, l: Link)
    requires Inv(lim, l) && Ample(lim, |l.ring.buf|)
    ensures 0 <= Work(l) < 4 * |l.ring.buf|
    ensures var l' := ApplyAll(lim, l, Reads(Work(l)));
            l'.rts && l'.ring.head == l'.ring.tail && l'.delivered == l'.sent == l.sent
    decreases Work(l)
  {
    WorkIs(lim, l);
    if Work(l) != 0 {
      ReadInv(lim, l);
      NeverSticks(lim, ReaderStep(l));
      hide Work, Inv, Ring.Contents, Ring.Used;
      assert Reads(Work(l))[1..] == Reads(Work(l) - 1);
    }
  }

  /** What is left to do, and that a reader step does some of it. */
  lemma WorkIs(lim: Limits, l: Link)
    requires Inv(lim, l) && Ample(lim, |l.ring.buf|)
    ensures 0 <= Work(l) < 4 * |l.ring.buf|
    ensures Work(l) == 0 ==> l.rts && l.ring.head == l.ring.tail && l.delivered == l.sent
    ensures Work(l) > 0 ==> Work(ReaderStep(l)) == Work(l) - 1 && ReaderStep(l).sent == l.sent
  {
    if Work(l) == 0 {
      assert l.ring.Contents() == [];
    }
  }

  /** Four uninterrupted reader steps take the oldest byte and raise RTS if none is left. */
  lemma FourSteps(l: Link)
    requires l.ring.Valid() && l.phase == Waiting && l.ring.head != l.ring.tail
    ensures ReaderStep(ReaderStep(ReaderStep(ReaderStep(l))))
            == l.(ring := l.ring.Pop(), rts := l.rts || l.ring.Pop().Contents() == [],
                  delivered := l.delivered + [l.ring.Contents()[0]])
  {
    PopContents(l.ring);
    assert l.ring.Pop().head == l.ring.Pop().tail <==> l.ring.Pop().Contents() == [];
  }

  // The margin is needed: one byte more and a run drops something.

  function Emits(n: nat): (ss: seq<Step>)
    ensures |ss| == n
  {
    seq(n, _ => Emit(0))
  }

  /** A flood of `n` bytes nobody reads. */
  lemma {:induction false} Flood(lim: Limits, l: Link, n: nat)
    requires l.ring.Valid() && l.phase == Waiting && l.lost == 0 && 0 < lim.hi < |l.ring.buf|
    requires l.ring.Used() + n == |l.ring.buf| && lim.hi + lim.credit >= |l.ring.buf|
    requires l.rts == (l.ring.Used() < lim.hi)
    requires !l.rts ==> l.late == l.ring.Used() - lim.hi
    ensures Legal(lim, l, Emits(n)) && ApplyAll(lim, l, Emits(n)).lost > 0
    decreases n
  {
    PushContents(l.ring, 0);
    var l1 := Emitted(lim, l, 0);
    assert Emits(n)[1..] == Emits(n - 1);
    if n == 1 {
      assert Emits(0) == [];
    } else {
      assert l1.ring.Used() == l.ring.Used() + 1;
      Flood(lim, l1, n - 1);
    }
  }

  /** No legal run from the start loses a byte exactly when the margin covers the sender's delay.
      For the 256-byte ring and threshold 248 that is a delay of at most 7 bytes. */
  lemma LosslessIffAmple(lim: Limits, l: Link)
    requires Start(l) && 0 < lim.hi < |l.ring.buf|
    ensures (forall ss :: Legal(lim, l, ss) ==> ApplyAll(lim, l, ss).lost == 0) <==> Ample(lim, |l.ring.buf|)
  {
    if Ample(lim, |l.ring.buf|) {
      forall ss | Legal(lim, l, ss) ensures ApplyAll(lim, l, ss).lost == 0 {
        EveryRun(lim, l, ss);
      }
    } else {
      Flood(lim, l, |l.ring.buf|);
    }
  }

  /** SIO channel A (and, alike, B): the 256-byte ring in place. */
  class SioChannel {
    const rxbuf: array<byte>
    var rxhead: byte
    var rxtail: byte
    /** The RTS bit last written to WR5. */
    var rts: bool

    ghost predicate Valid()
      reads this
    {
      rxbuf.Length == 256
    }

    ghost function View(): Ring
      requires Valid()
      reads this, rxbuf
    {
      Ring(rxbuf[..], rxhead, rxtail)
    }

    constructor ()
      ensures Valid() && View().Valid() && View().Contents() == [] && rts && fresh(rxbuf)
    {
      rxbuf := new byte[256];
      rxhead, rxtail, rts := 0, 0, true;
    }

    /** `isr_sio_a_rx`. */
    method IsrRx(ch: byte)
      requires Valid()
      modifies `rxhead, `rts, rxbuf
      ensures Valid() && old(View()).Valid()
      ensures (View(), rts) == Interrupt(old(View()), old(rts), 248, ch)
    {
      var newHead: byte := (rxhead + 1) % 256;
      if newHead == rxtail {
        rts := false;
        return;
      }
      rxbuf[rxhead] := ch;
      rxhead := newHead;
      var used: byte := (newHead - rxtail + 256) % 256;
      if used < 248 {
        return;
      }
      rts := false;
    }

    /** `bios_reader_body` (and `serial_conin`) past its wait: the four reader steps in a row. */
    method Reader() returns (ch: byte)
      requires Valid() && rxtail != rxhead
      modifies `rxtail, `rts
      ensures Valid() && old(View()).Valid()
      ensures View() == old(View()).Pop() && ch == old(View()).Contents()[0]
      ensures rts == (old(rts) || View().Contents() == [])
    {
      var newTail: byte := (rxtail + 1) % 256;
      ch := rxbuf[rxtail];
      PopContents(View());
      rxtail := newTail;
      if newTail == rxhead {
        rts := true;
      }
    }
  }

  /** A ring without flow control: the keyboard rings (16 slots) and the PIO receive ring (256). */
  class PlainRing {
    const buf: array<byte>
    var head: byte
    var tail: byte

    ghost predicate Valid()
      reads this
    {
      (buf.Length == 16 || buf.Length == 256) && head < buf.Length && tail < buf.Length
    }

    ghost function View(): Ring
      requires Valid()
      reads this, buf
    {
      Ring(buf[..], head, tail)
    }

    constructor (size: nat)
      requires size == 16 || size == 256
      ensures Valid() && buf.Length == size && View().Valid() && View().Contents() == [] && fresh(buf)
    {
      buf := new byte[size];
      head, tail := 0, 0;
    }

    /** `(i + 1) & MASK`. */
    function Bump(i: byte): byte {
      if buf.Length == 16 then (i + 1) % 16 else (i + 1) % 256
    }

    /** `isr_pio_kbd`, `isr_pio_par`: silently drop when full. */
    method Isr(b: byte)
      requires Valid()
      modifies `head, buf
      ensures Valid() && old(View()).Valid() && View() == old(View()).Push(b)
      ensures View().Contents()
              == if |old(View()).Contents()| == buf.Length - 1 then old(View()).Contents() else old(View()).Contents() + [b]
    {
      hide Ring.Contents;
      PushContents(View(), b);
      var newHead := Bump(head);
      if newHead != tail {
        buf[head] := b;
        head := newHead;
      }
    }

    /** `kbd_dequeue`, `impl_conin`, `transport_pio_recv_byte`: the oldest byte, if there is one. */
    method Take() returns (b: Option<byte>)
      requires Valid()
      modifies `tail
      ensures Valid() && old(View()).Valid()
      ensures b.None? <==> old(View()).Contents() == []
      ensures b.None? ==> View() == old(View())
      ensures b.Some? ==> old(View()).Contents() == [b.value] + View().Contents()
    {
      hide Ring.Contents;
      EmptyContents(View());
      if head == tail {
        return None;
      }
      PopContents(View());
      b := Some(buf[tail]);
      tail := Bump(tail);
    }
  }
}
