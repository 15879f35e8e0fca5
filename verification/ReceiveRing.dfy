/** The receive rings of the BIOS and of CP/NOS: an interrupt routine stores at `head`, the
    mainline takes from `tail`, one slot stays empty. */
module ReceiveRing {
  import opened Bytes

  datatype Ring = Ring(buf: seq<byte>, head: nat, tail: nat)
  {
    ghost predicate Valid() {
      |buf| >= 2 && head < |buf| && tail < |buf|
    }

    /** `(i + 1) & MASK`. */
    function Next(i: nat): nat {
      if i + 1 == |buf| then 0 else i + 1
    }

    /** `(head - tail) & MASK`: how many bytes are waiting. */
    function Used(): nat
      requires head < |buf| && tail < |buf|
    {
      if head >= tail then head - tail else head + |buf| - tail
    }

    /** The slot of the `i`-th waiting byte. */
    function SlotOf(i: nat): nat {
      if tail + i < |buf| then tail + i else tail + i - |buf|
    }

    /** The waiting bytes, oldest first. */
    function Contents(): (s: seq<byte>)
      requires Valid()
      ensures |s| == Used()
    {
      seq(Used(), i requires 0 <= i < Used() => buf[SlotOf(i)])
    }

    /** The interrupt routine: store unless the ring is full. */
    function Push(b: byte): (r: Ring)
      requires Valid()
      ensures r.Valid() && |r.buf| == |buf| && r.tail == tail
    {
      if Next(head) == tail then this else Ring(buf[head := b], Next(head), tail)
    }

    /** The mainline: drop the oldest byte. */
    function Pop(): (r: Ring)
      requires Valid()
      ensures r.Valid()
    {
      this.(tail := Next(tail))
    }
  }

  /** A byte is lost exactly when all slots but one are in use; else it joins the end. */
  lemma PushContents(r: Ring, b: byte)
    requires r.Valid()
    ensures r.Next(r.head) == r.tail <==> r.Used() == |r.buf| - 1
    ensures r.Push(b).Contents() == if r.Used() == |r.buf| - 1 then r.Contents() else r.Contents() + [b]
  {
    if r.Used() != |r.buf| - 1 {
      var p := r.Push(b);
      assert p.Used() == r.Used() + 1;
      forall i | 0 <= i < p.Used() ensures p.Contents()[i] == (r.Contents() + [b])[i] {
      }
    }
  }

  lemma EmptyContents(r: Ring)
    requires r.Valid()
    ensures r.head == r.tail <==> r.Contents() == []
  {
  }

  lemma PopContents(r: Ring)
    requires r.Valid() && r.head != r.tail
    ensures r.Contents()[0] == r.buf[r.tail] && r.Pop().Contents() == r.Contents()[1..]
    ensures r.Contents() == [r.buf[r.tail]] + r.Pop().Contents()
  {
    var p := r.Pop();
    assert p.Used() == r.Used() - 1;
    forall i | 0 <= i < p.Used() ensures p.Contents()[i] == r.Contents()[1..][i] {
    }
  }

  /** What happens to a ring: a byte arrives, or the mainline takes one (nothing if there is none). */
  datatype Event = Arrive(b: byte) | Take

  /** A run: the ring, the bytes it accepted and the bytes taken from it. */
  datatype Run = Run(ring: Ring, accepted: seq<byte>, taken: seq<byte>)

  function Happen(r: Run, e: Event): (r': Run)
    requires r.ring.Valid()
    ensures r'.ring.Valid() && |r'.ring.buf| == |r.ring.buf|
  {
    match e
    case Arrive(b) =>
      Run(r.ring.Push(b),
          if r.ring.Next(r.ring.head) == r.ring.tail then r.accepted else r.accepted + [b], r.taken)
    case Take =>
      if r.ring.head == r.ring.tail then r
      else Run(r.ring.Pop(), r.accepted, r.taken + [r.ring.buf[r.ring.tail]])
  }

  function HappenAll(r: Run, es: seq<Event>): (r': Run)
    requires r.ring.Valid()
    ensures r'.ring.Valid() && |r'.ring.buf| == |r.ring.buf|
    decreases |es|
  {
    if es == [] then r else HappenAll(Happen(r, es[0]), es[1..])
  }

  /** In every interleaving the accepted bytes come out in order, none twice and none missing:
      what has been taken and what waits make up what was accepted. */
  lemma {:induction false} RingIsFifo(r: Run, es: seq<Event>)
    requires r.ring.Valid() && r.accepted == r.taken + r.ring.Contents()
    ensures var r' := HappenAll(r, es);
            r'.accepted == r'.taken + r'.ring.Contents() && r.accepted <= r'.accepted && r.taken <= r'.taken
    decreases |es|
  {
    if es != [] {
      OneEvent(r, es[0]);
      hide Happen, Ring.Contents, Ring.Valid;
      RingIsFifo(Happen(r, es[0]), es[1..]);
    }
  }

  lemma OneEvent(r: Run, e: Event)
    requires r.ring.Valid() && r.accepted == r.taken + r.ring.Contents()
    ensures var r' := Happen(r, e);
            r'.ring.Valid() && r'.accepted == r'.taken + r'.ring.Contents() && r.accepted <= r'.accepted && r.taken <= r'.taken
  {
    match e {
      case Arrive(b) =>
        PushContents(r.ring, b);
      case Take =>
        if r.ring.head != r.ring.tail {
          PopContents(r.ring);
          assert r.ring.Contents() == [r.ring.Contents()[0]] + r.ring.Contents()[1..];
        }
    }
    hide Ring.Contents, Ring.Push, Ring.Pop;
  }
}
