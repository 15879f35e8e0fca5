/** The block operations of the Z80: forward copy (LDIR), backward copy (LDDR) and fill. */
module Blocks {

  /** `s` with `n` elements from `src` copied to `dst`, as if through a temporary. */
  function Moved<T>(s: seq<T>, dst: nat, src: nat, n: nat): (r: seq<T>)
    requires dst + n <= |s| && src + n <= |s|
    ensures |r| == |s|
  {
    s[..dst] + s[src..src + n] + s[dst + n..]
  }

  function Filled<T>(s: seq<T>, pos: nat, n: nat, v: T): (r: seq<T>)
    requires pos + n <= |s|
    ensures |r| == |s|
  {
    s[..pos] + seq(n, _ => v) + s[pos + n..]
  }

  lemma LdirStep<T>(was: seq<T>, now: seq<T>, dst: nat, src: nat, n: nat)
    requires dst <= src && src + n < |was| && now == Moved(was, dst, src, n)
    ensures now[dst + n := now[src + n]] == Moved(was, dst, src, n + 1)
  {
    assert now[src + n] == was[src + n];
  }

  lemma LddrStep<T>(was: seq<T>, now: seq<T>, dst: nat, src: nat, n: nat)
    requires src <= dst && dst + 1 + n <= |was| && now == Moved(was, dst + 1, src + 1, n)
    ensures now[dst := now[src]] == Moved(was, dst, src, n + 1)
  {
    assert now[src] == was[src];
  }

  lemma NothingMoved<T>(was: seq<T>, dst: nat, src: nat)
    requires dst <= |was| && src <= |was|
    ensures Moved(was, dst, src, 0) == was
  {
  }

  /** LDIR byte by byte; right for overlapping blocks that move down. */
  method CopyUpwards<T>(a: array<T>, dst: nat, src: nat, n: nat)
    requires dst <= src && src + n <= a.Length
    modifies a
    ensures a[..] == Moved(old(a[..]), dst, src, n)
  {
    ghost var was := a[..];
    for i := 0 to n
      invariant a[..] == Moved(was, dst, src, i)
    {
      LdirStep(was, a[..], dst, src, i);
      a[dst + i] := a[src + i];
    }
  }

  /** LDDR: the last bytes of the two blocks are given; right for blocks that move up. */
  method CopyDownwards<T>(a: array<T>, dstLast: int, srcLast: int, n: nat)
    requires srcLast <= dstLast < a.Length && n <= srcLast + 1
    modifies a
    ensures a[..] == Moved(old(a[..]), dstLast + 1 - n, srcLast + 1 - n, n)
  {
    ghost var was := a[..];
    NothingMoved(was, dstLast + 1, srcLast + 1);
    hide Moved;
    var dst, src, i := dstLast + 1, srcLast + 1, 0;
    while i < n
      invariant 0 <= i <= n && dst + i == dstLast + 1 && src + i == srcLast + 1
      invariant a[..] == Moved(was, dst, src, i)
    {
      dst, src := dst - 1, src - 1;
      LddrStep(was, a[..], dst, src, i);
      MoveOne(a, dst, src);
      i := i + 1;
    }
  }

  method MoveOne<T>(a: array<T>, dst: nat, src: nat)
    requires dst < a.Length && src < a.Length
    modifies a
    ensures a[..] == old(a[..])[dst := old(a[..])[src]]
  {
    a[dst] := a[src];
  }

  method Fill<T>(a: array<T>, pos: nat, n: nat, v: T)
    requires pos + n <= a.Length
    modifies a
    ensures a[..] == Filled(old(a[..]), pos, n, v)
  {
    ghost var was := a[..];
    for i := 0 to n
      invariant a[..] == Filled(was, pos, i, v)
    {
      a[pos + i] := v;
      assert Filled(was, pos, i + 1, v) == Filled(was, pos, i, v)[pos + i := v];
    }
  }
}
