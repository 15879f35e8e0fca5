/** `bgstar`: one bit per screen cell, most significant bit first. */
module Bitmap {

  const FULL: bv8 := 0xFF

  /** `0x80 >> k`. */
  function Bit(k: nat): bv8
    requires k < 8
  {
    if k == 0 then 0x80 else if k == 1 then 0x40 else if k == 2 then 0x20 else if k == 3 then 0x10
    else if k == 4 then 0x08 else if k == 5 then 0x04 else if k == 6 then 0x02 else 0x01
  }

  predicate Has(v: bv8, k: nat)
    requires k < 8
  {
    v & Bit(k) != 0
  }

  lemma ShiftedBit(k: nat)
    requires k < 8
    ensures (0x80 as bv8) >> k == Bit(k)
    ensures Bit(k) >> 1 == if k < 7 then Bit(k + 1) else 0
    ensures Bit(k) != 0
  {
    if k == 0 {} else if k == 1 {} else if k == 2 {} else if k == 3 {}
    else if k == 4 {} else if k == 5 {} else if k == 6 {} else {}
  }

  lemma SetBit(v: bv8, k: nat, j: nat)
    requires k < 8 && j < 8
    ensures Has(v | Bit(k), j) == (j == k || Has(v, j))
  {
  }

  /** `v & ~(0xFF >> k)` keeps the first `k` bits. */
  lemma KeepLeading(v: bv8, k: nat, j: nat)
    requires k < 8 && j < 8
    ensures Has(v & !(FULL >> k), j) == (j < k && Has(v, j))
  {
    if k == 0 {} else if k == 1 {} else if k == 2 {} else if k == 3 {}
    else if k == 4 {} else if k == 5 {} else if k == 6 {} else {}
  }

  /** `v & ~(0xFF << (8 - t))` drops the first `t` bits. */
  lemma DropLeading(v: bv8, t: nat, j: nat)
    requires 0 < t < 8 && j < 8
    ensures Has(v & !(FULL << (8 - t)), j) == (j >= t && Has(v, j))
  {
    if t == 1 {} else if t == 2 {} else if t == 3 {}
    else if t == 4 {} else if t == 5 {} else if t == 6 {} else {}
  }

  lemma ZeroHasNone(k: nat)
    requires k < 8
    ensures !Has(0, k)
  {
  }

  /** The mark of screen position `pos`. */
  predicate Mark(bits: seq<bv8>, pos: nat)
    requires pos < 8 * |bits|
  {
    Has(bits[pos / 8], pos % 8)
  }
}
