/** Bytes and 16-bit words as ranges of the integers, so that every wrap-around
    of the original is written out. */
module Bytes {

  type byte = x: int | 0 <= x < 256 witness 0
  type word = x: int | 0 <= x < 65536 witness 0

  /** Sum of the values of a byte string, unbounded. */
  function Sum(s: seq<byte>): (r: nat)
  {
    if s == [] then 0 else s[0] + Sum(s[1..])
  }

  lemma {:induction false} SumConcat(a: seq<byte>, b: seq<byte>)
    ensures Sum(a + b) == Sum(a) + Sum(b)
  {
    if a == [] {
      assert a + b == b;
    } else {
      assert (a + b)[1..] == a[1..] + b;
      SumConcat(a[1..], b);
    }
  }

  /** The sum of a string extended by one byte on the right. */
  lemma SumSnoc(a: seq<byte>, x: byte)
    ensures Sum(a + [x]) == Sum(a) + x
  {
    SumConcat(a, [x]);
    assert Sum([x]) == x + Sum([x][1..]);
  }

  /** Sums that differ by less than 256 differ modulo 256. */
  lemma Opposites(s: int, d: int)
    requires -256 < d < 256 && d != 0
    ensures (-s) % 256 != (-(s + d)) % 256
  {
  }

  lemma {:induction false} SumUpdate(s: seq<byte>, i: nat, b: byte)
    requires i < |s|
    ensures Sum(s[i := b]) == Sum(s) - s[i] + b
  {
    if i == 0 {
      assert s[i := b][1..] == s[1..];
    } else {
      SumUpdate(s[1..], i - 1, b);
      assert s[i := b][1..] == s[1..][i - 1 := b];
    }
  }

  /** The checksum byte that brings a sum to zero modulo 256. */
  function Complement(total: int): byte { (-total) % 256 }

  lemma SumsToZero(total: nat)
    ensures (total + Complement(total)) % 256 == 0
  {
  }

  /** White space as `str.strip` sees it, by code point. */
  predicate IsSpaceCode(code: int) {
    || code == 32 || 9 <= code <= 13 || 28 <= code <= 31 || code == 0x85 || code == 0xA0
    || code == 0x1680 || 0x2000 <= code <= 0x200A || code == 0x2028 || code == 0x2029
    || code == 0x202F || code == 0x205F || code == 0x3000
  }

  // Strings of bytes laid over one another.

  /** `s` over `mem` from `at` on. */
  function Overlay(mem: seq<byte>, at: nat, s: seq<byte>): (r: seq<byte>)
    requires at + |s| <= |mem|
    ensures |r| == |mem|
  {
    mem[..at] + s + mem[at + |s|..]
  }

  lemma OverlayInside(mem: seq<byte>, at: nat, s: seq<byte>, lo: nat, hi: nat)
    requires at + |s| <= |mem| && at <= lo <= hi <= at + |s|
    ensures Overlay(mem, at, s)[lo..hi] == s[lo - at..hi - at]
  {
  }

  lemma OverlayOutside(mem: seq<byte>, at: nat, s: seq<byte>, lo: nat, hi: nat)
    requires at + |s| <= |mem| && lo <= hi <= |mem| && (hi <= at || at + |s| <= lo)
    ensures Overlay(mem, at, s)[lo..hi] == mem[lo..hi]
  {
  }

  lemma OverlayTwice(mem: seq<byte>, at: nat, a: seq<byte>, b: seq<byte>)
    requires at + |a| + |b| <= |mem|
    ensures Overlay(Overlay(mem, at, a), at + |a|, b) == Overlay(mem, at, a + b)
  {
  }

  lemma OverlayNothing(mem: seq<byte>, at: nat)
    requires at <= |mem|
    ensures Overlay(mem, at, []) == mem
  {
  }
}
