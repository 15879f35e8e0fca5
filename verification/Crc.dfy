/** The frame check sequence of `sdlc_receiver.py`: CRC-CCITT, least significant bit first. */
module Crc {
  function Xor(x: bv16, y: bv16): bv16 { x ^ y }

  function Wide(b: bv8): bv16 { b as bv16 }

  /** One turn of the shift register. */
  function Shift(crc: bv16): bv16 {
    if Odd(crc) then Xor(Half(crc), 0x8408) else Half(crc)
  }

  predicate Odd(x: bv16) { x & 1 == 1 }

  function Half(x: bv16): bv16 { x >> 1 }

  function Shifts(crc: bv16, n: nat): bv16
    decreases n
  {
    if n == 0 then crc else Shifts(Shift(crc), n - 1)
  }

  /** The register after one byte, and after a string of bytes. */
  function Feed(crc: bv16, b: bv8): bv16 { Shifts(Xor(crc, Wide(b)), 8) }

  function Register(crc: bv16, data: seq<bv8>): bv16
    decreases |data|
  {
    if data == [] then crc else Register(Feed(crc, data[0]), data[1..])
  }

  function Crc(data: seq<bv8>): bv16 { Xor(Register(0xFFFF, data), 0xFFFF) }

  /** `crc_ccitt`. */
  method CrcCcitt(data: seq<bv8>) returns (r: bv16)
    ensures r == Crc(data)
  {
    var crc: bv16 := 0xFFFF;
    assert data[0..] == data;
    for i := 0 to |data|
      invariant Register(0xFFFF, data) == Register(crc, data[i..])
    {
      assert data[i..][1..] == data[i + 1..];
      var turned := Xor(crc, Wide(data[i]));
      crc := turned;
      for k := 0 to 8
        invariant Shifts(turned, 8) == Shifts(crc, 8 - k)
      {
        crc := if crc & 1 == 1 then (crc >> 1) ^ 0x8408 else crc >> 1;
      }
    }
    return Xor(crc, 0xFFFF);
  }

  /** The two bytes of a 16-bit value, low byte first. */
  function Halves(crc: bv16): seq<bv8> { [(crc & 0xFF) as bv8, (crc >> 8) as bv8] }

  /** The receiver's test: the last two bytes are the CRC of the others. */
  predicate Accepted(frame: seq<bv8>) {
    |frame| >= 2 && frame[|frame| - 2..] == Halves(Crc(frame[..|frame| - 2]))
  }

  // The register never merges two states.

  lemma ShiftInjective(x: bv16, y: bv16)
    requires Shift(x) == Shift(y)
    ensures x == y
  {
  }

  lemma {:induction false} ShiftsInjective(x: bv16, y: bv16, n: nat)
    requires Shifts(x, n) == Shifts(y, n)
    ensures x == y
    decreases n
  {
    hide Shift;
    if n > 0 {
      ShiftsInjective(Shift(x), Shift(y), n - 1);
      ShiftInjective(x, y);
    }
  }

  lemma XorInjective(x: bv16, y: bv16, z: bv16)
    requires Xor(x, z) == Xor(y, z) || Xor(z, x) == Xor(z, y)
    ensures x == y
  {
  }

  lemma FeedInjective(x: bv16, y: bv16, b: bv8)
    requires Feed(x, b) == Feed(y, b)
    ensures x == y
  {
    hide Shifts, Xor;
    ShiftsInjective(Xor(x, Wide(b)), Xor(y, Wide(b)), 8);
    XorInjective(x, y, Wide(b));
  }

  lemma {:induction false} RegisterInjective(x: bv16, y: bv16, data: seq<bv8>)
    requires Register(x, data) == Register(y, data)
    ensures x == y
    decreases |data|
  {
    hide Feed;
    if data != [] {
      RegisterInjective(Feed(x, data[0]), Feed(y, data[0]), data[1..]);
      FeedInjective(x, y, data[0]);
    }
  }

  lemma {:induction false} RegisterConcat(crc: bv16, a: seq<bv8>, b: seq<bv8>)
    ensures Register(crc, a + b) == Register(Register(crc, a), b)
    decreases |a|
  {
    hide Feed;
    if a == [] {
      assert a + b == b;
    } else {
      RegisterConcat(Feed(crc, a[0]), a[1..], b);
      assert (a + b)[1..] == a[1..] + b;
    }
  }

  // Two bytes in a row are one 16-bit word: the register is linear, and a byte enters it
  // where the upper half of the word has been shifted to.

  lemma HalfLinear(x: bv16, y: bv16)
    ensures Half(Xor(x, y)) == Xor(Half(x), Half(y))
  {
  }

  lemma OddLinear(x: bv16, y: bv16)
    ensures Odd(Xor(x, y)) <==> Odd(x) != Odd(y)
  {
    assert (x ^ y) & 1 == (x & 1) ^ (y & 1);
    assert (x & 1 == 0 || x & 1 == 1) && (y & 1 == 0 || y & 1 == 1);
  }

  lemma XorLeft(x: bv16, y: bv16, p: bv16)
    ensures Xor(Xor(x, p), y) == Xor(Xor(x, y), p)
  {
  }

  lemma XorRight(x: bv16, y: bv16, p: bv16)
    ensures Xor(x, Xor(y, p)) == Xor(Xor(x, y), p)
  {
  }

  lemma XorBack(x: bv16, p: bv16)
    ensures Xor(Xor(x, p), p) == x && Xor(x, Xor(x, p)) == p
  {
  }

  lemma XorTwice(x: bv16, y: bv16, p: bv16)
    ensures Xor(Xor(x, p), Xor(y, p)) == Xor(x, y)
  {
    hide Xor;
    XorRight(Xor(x, p), y, p);
    XorLeft(x, y, p);
    XorBack(Xor(x, y), p);
  }

  lemma ShiftLinear(x: bv16, y: bv16)
    ensures Shift(Xor(x, y)) == Xor(Shift(x), Shift(y))
  {
    hide Xor, Half, Odd;
    HalfLinear(x, y);
    OddLinear(x, y);
    XorTwice(Half(x), Half(y), 0x8408);
    XorLeft(Half(x), Half(y), 0x8408);
    XorRight(Half(x), Half(y), 0x8408);
  }

  lemma {:induction false} ShiftsLinear(x: bv16, y: bv16, n: nat)
    ensures Shifts(Xor(x, y), n) == Xor(Shifts(x, n), Shifts(y, n))
    decreases n
  {
    hide Shift, Xor;
    if n > 0 {
      ShiftLinear(x, y);
      ShiftsLinear(Shift(x), Shift(y), n - 1);
    }
  }

  lemma {:induction false} ShiftsAdd(x: bv16, m: nat, n: nat)
    ensures Shifts(Shifts(x, m), n) == Shifts(x, m + n)
    decreases m
  {
    hide Shift;
    if m > 0 {
      ShiftsAdd(Shift(x), m - 1, n);
    }
  }

  function High(b: bv8): bv16 { Wide(b) << 8 }

  /** Nothing is fed back while the low half is empty. */
  lemma ShiftEven(b: bv8)
    ensures Shift(High(b)) == Wide(b) << 7 && Shift(Wide(b) << 7) == Wide(b) << 6
    ensures Shift(Wide(b) << 6) == Wide(b) << 5 && Shift(Wide(b) << 5) == Wide(b) << 4
    ensures Shift(Wide(b) << 4) == Wide(b) << 3 && Shift(Wide(b) << 3) == Wide(b) << 2
    ensures Shift(Wide(b) << 2) == Wide(b) << 1 && Shift(Wide(b) << 1) == Wide(b)
  {
  }

  lemma ShiftsNext(x: bv16, n: nat)
    requires n > 0
    ensures Shifts(x, n) == Shifts(Shift(x), n - 1) && Shifts(x, 0) == x
  {
  }

  lemma HighByteArrives(b: bv8)
    ensures Shifts(High(b), 8) == Wide(b)
  {
    ShiftEven(b);
    hide Shift, Shifts, High, Wide;
    ShiftsNext(High(b), 8);
    ShiftsNext(Wide(b) << 7, 7);
    ShiftsNext(Wide(b) << 6, 6);
    ShiftsNext(Wide(b) << 5, 5);
    ShiftsNext(Wide(b) << 4, 4);
    ShiftsNext(Wide(b) << 3, 3);
    ShiftsNext(Wide(b) << 2, 2);
    ShiftsNext(Wide(b) << 1, 1);
    ShiftsNext(Wide(b), 1);
  }

  function Word(low: bv8, high: bv8): bv16 { Wide(low) ^ High(high) }

  lemma WordXor(crc: bv16, low: bv8, high: bv8)
    ensures Xor(Xor(crc, Wide(low)), High(high)) == Xor(crc, Word(low, high))
  {
  }

  lemma RegisterPair(crc: bv16, low: bv8, high: bv8)
    ensures Register(crc, [low, high]) == Feed(Feed(crc, low), high)
  {
    hide Feed;
    assert [low, high][1..] == [high] && [high][1..] == [];
    assert Register(Feed(crc, low), [high]) == Register(Feed(Feed(crc, low), high), []);
  }

  lemma PairIsWord(crc: bv16, low: bv8, high: bv8)
    ensures Register(crc, [low, high]) == Shifts(Xor(crc, Word(low, high)), 16)
  {
    hide Shifts, Xor, High, Wide, Word, Feed;
    var x := Xor(crc, Wide(low));
    RegisterPair(crc, low, high);
    assert Feed(crc, low) == Shifts(x, 8) by { FeedIs(crc, low); }
    FeedIs(Shifts(x, 8), high);
    HighByteArrives(high);
    ShiftsLinear(x, High(high), 8);
    ShiftsAdd(Xor(x, High(high)), 8, 8);
    WordXor(crc, low, high);
  }

  lemma FeedIs(crc: bv16, b: bv8)
    ensures Feed(crc, b) == Shifts(Xor(crc, Wide(b)), 8)
  {
    hide Shifts, Xor, Wide;
  }

  lemma HalvesOfWord(low: bv8, high: bv8)
    ensures Halves(Word(low, high)) == [low, high]
  {
  }

  lemma WordOfHalves(x: bv16)
    ensures Word(Halves(x)[0], Halves(x)[1]) == x
  {
  }

  /** Two messages that differ only within one pair of adjacent bytes leave different registers,
      however long they are and wherever the pair stands. */
  lemma PairChangesRegister(crc: bv16, before: seq<bv8>, p: seq<bv8>, q: seq<bv8>, after: seq<bv8>)
    requires |p| == |q| == 2 && p != q
    ensures Register(crc, before + p + after) != Register(crc, before + q + after)
  {
    hide Register, Shifts, Word, Xor, Halves;
    var r := Register(crc, before);
    RegisterConcat(crc, before, p);
    RegisterConcat(crc, before, q);
    RegisterConcat(crc, before + p, after);
    RegisterConcat(crc, before + q, after);
    assert p == [p[0], p[1]] && q == [q[0], q[1]];
    PairIsWord(r, p[0], p[1]);
    PairIsWord(r, q[0], q[1]);
    HalvesOfWord(p[0], p[1]);
    HalvesOfWord(q[0], q[1]);
    if Register(crc, before + p + after) == Register(crc, before + q + after) {
      RegisterInjective(Register(r, p), Register(r, q), after);
      ShiftsInjective(Xor(r, Word(p[0], p[1])), Xor(r, Word(q[0], q[1])), 16);
      XorInjective(Word(p[0], p[1]), Word(q[0], q[1]), r);
    }
  }

  /** Hence different values of `crc_ccitt`. */
  lemma PairChangesCrc(before: seq<bv8>, p: seq<bv8>, q: seq<bv8>, after: seq<bv8>)
    requires |p| == |q| == 2 && p != q
    ensures Crc(before + p + after) != Crc(before + q + after)
  {
    hide Register, Xor;
    PairChangesRegister(0xFFFF, before, p, q, after);
    if Crc(before + p + after) == Crc(before + q + after) {
      XorInjective(Register(0xFFFF, before + p + after), Register(0xFFFF, before + q + after), 0xFFFF);
    }
  }

  // The residual.

  const RESIDUAL: bv16 := 0xF0B8

  lemma AllOnesGiveResidual()
    ensures Shifts(0xFFFF, 16) == RESIDUAL
  {
    var half := Shifts(0xFFFF, 8);
    assert half == 0x0F87;
    ShiftsAdd(0xFFFF, 8, 8);
  }

  lemma Complement(r: bv16, w: bv16)
    ensures Xor(r, w) == 0xFFFF <==> w == Xor(r, 0xFFFF)
  {
    hide Xor;
    XorBack(r, w);
    XorBack(r, 0xFFFF);
  }

  /** A frame is accepted exactly when it leaves the residual in the register. */
  lemma AcceptedIffResidual(frame: seq<bv8>)
    requires |frame| >= 2
    ensures Accepted(frame) <==> Register(0xFFFF, frame) == RESIDUAL
  {
    var n := |frame| - 2;
    var data, x, y := frame[..n], frame[n], frame[n + 1];
    assert frame == data + [x, y] && frame[n..] == [x, y];
    var r := Register(0xFFFF, data);
    hide Register, Shifts, Xor, Word, Halves;
    RegisterConcat(0xFFFF, data, [x, y]);
    PairIsWord(r, x, y);
    AllOnesGiveResidual();
    HalvesOfWord(x, y);
    WordOfHalves(Crc(data));
    Complement(r, Word(x, y));
    if Register(0xFFFF, frame) == RESIDUAL {
      ShiftsInjective(Xor(r, Word(x, y)), 0xFFFF, 16);
    }
  }

  lemma SentIsAccepted(data: seq<bv8>)
    ensures Accepted(data + Halves(Crc(data)))
  {
    hide Crc;
    var frame := data + Halves(Crc(data));
    assert frame[..|data|] == data && frame[|data|..] == Halves(Crc(data));
  }

  /** No accepted frame turns into another accepted frame by a change within two adjacent bytes,
      data or trailer. */
  lemma PairDamageRejected(before: seq<bv8>, p: seq<bv8>, q: seq<bv8>, after: seq<bv8>)
    requires |p| == |q| == 2 && p != q && Accepted(before + p + after)
    ensures !Accepted(before + q + after)
  {
    hide Accepted, Register;
    PairChangesRegister(0xFFFF, before, p, q, after);
    AcceptedIffResidual(before + p + after);
    AcceptedIffResidual(before + q + after);
  }
}
