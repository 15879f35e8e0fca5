/** The sector-skew generator of rcbios-in-c/verify_skew.py. */
module Skew {

  /** The slot after `cur` on a track of `spt` sectors numbered from 1. */
  function Succ(cur: int, spt: int): int {
    if cur < spt then cur + 1 else 1
  }

  /** `cur` itself when it is free, else the next free slot within `fuel` steps. */
  function FirstFree(table: seq<int>, cur: int, spt: int, fuel: nat): (r: int)
    requires cur >= 1
    ensures r >= 1
    decreases fuel
  {
    if fuel == 0 || cur !in table then cur else FirstFree(table, Succ(cur, spt), spt, fuel - 1)
  }

  /** Where the search for the entry after `prev` starts. */
  function Start(prev: int, skew: nat, spt: int): (r: int)
    requires spt >= 1 && prev >= 1
    ensures 1 <= r <= spt
  {
    (prev - 1 + skew) % spt + 1
  }

  /** The first `k` entries of the skew table. */
  function Prefix(spt: int, skew: nat, k: nat): (t: seq<int>)
    requires spt >= 1
    ensures |t| == k && forall i :: 0 <= i < k ==> t[i] >= 1
  {
    if k == 0 then []
    else
      var t := Prefix(spt, skew, k - 1);
      var start := if k == 1 then 1 else Start(t[k - 2], skew, spt);
      t + [FirstFree(t, start, spt, spt)]
  }

  function Table(spt: int, skew: nat): (t: seq<int>)
    requires spt >= 1
  {
    Prefix(spt, skew, spt)
  }

  ghost predicate Distinct(t: seq<int>) {
    forall i, j :: 0 <= i < j < |t| ==> t[i] != t[j]
  }

  /** `Distinct`, entry by entry. */
  ghost predicate NoRepeats(t: seq<int>, k: nat)
    requires k <= |t|
  {
    k == 0 || (t[k - 1] !in t[..k - 1] && NoRepeats(t, k - 1))
  }

  lemma {:induction false} DistinctNoRepeats(t: seq<int>, k: nat)
    requires k <= |t| && Distinct(t[..k])
    ensures NoRepeats(t, k)
  {
    if k > 0 {
      assert t[..k - 1] == t[..k][..k - 1];
      assert t[k - 1] == t[..k][k - 1];
      DistinctNoRepeats(t, k - 1);
    }
  }

  lemma {:induction false} NoRepeatsDistinct(t: seq<int>, k: nat)
    requires k <= |t| && NoRepeats(t, k)
    ensures Distinct(t[..k])
  {
    if k > 0 {
      NoRepeatsDistinct(t, k - 1);
      assert t[..k] == t[..k - 1] + [t[k - 1]];
    }
  }

  ghost predicate InRange(t: seq<int>, spt: int) {
    forall i :: 0 <= i < |t| ==> 1 <= t[i] <= spt
  }

  ghost function Elements(t: seq<int>): set<int> {
    set x | x in t
  }

  ghost function Slots(spt: nat): (s: set<int>)
    ensures |s| == spt && forall x :: x in s <==> 1 <= x <= spt
  {
    if spt == 0 then {} else
      var s := Slots(spt - 1);
      s + {spt}
  }

  lemma {:induction false} ElementsSize(t: seq<int>)
    ensures |Elements(t)| <= |t|
    ensures Distinct(t) ==> |Elements(t)| == |t|
  {
    if t == [] {
      assert Elements(t) == {};
    } else {
      var n := |t| - 1;
      ElementsSize(t[..n]);
      assert t == t[..n] + [t[n]];
      assert Elements(t) == Elements(t[..n]) + {t[n]};
      if Distinct(t) {
        assert t[n] !in t[..n];
      }
    }
  }

  /** Fewer entries than slots leave a slot free: the inner search always ends. */
  lemma FreeSlotExists(t: seq<int>, spt: nat) returns (v: int)
    requires |t| < spt
    ensures 1 <= v <= spt && v !in t
  {
    ElementsSize(t);
    if forall x :: 1 <= x <= spt ==> x in t {
      assert Slots(spt) <= Elements(t);
      SubsetSize(Slots(spt), Elements(t));
      assert false;
    }
    v :| 1 <= v <= spt && v !in t;
  }

  lemma SubsetSize(a: set<int>, b: set<int>)
    requires a <= b
    ensures |a| <= |b|
  {
    assert b == a + (b - a);
  }

  /** Cyclic distance from `cur` forward to `v`. */
  function Gap(cur: int, v: int, spt: int): int {
    if v >= cur then v - cur else v - cur + spt
  }

  /** With enough fuel to reach some free slot, the search returns the nearest one. */
  lemma {:induction false} FirstFreeIsFree(table: seq<int>, cur: int, spt: int, v: int, fuel: nat)
    requires 1 <= cur <= spt && 1 <= v <= spt && v !in table
    requires fuel >= Gap(cur, v, spt)
    ensures var r := FirstFree(table, cur, spt, fuel);
            r !in table && 1 <= r <= spt && Gap(cur, r, spt) <= Gap(cur, v, spt)
    decreases fuel
  {
    if cur in table {
      var next := Succ(cur, spt);
      FirstFreeIsFree(table, next, spt, v, fuel - 1);
    }
  }

  /** Fuel beyond the distance to a free slot changes nothing. */
  lemma {:induction false} FirstFreeStable(table: seq<int>, cur: int, spt: int, v: int, fuel: nat, more: nat)
    requires 1 <= cur <= spt && 1 <= v <= spt && v !in table
    requires more >= fuel >= Gap(cur, v, spt)
    ensures FirstFree(table, cur, spt, more) == FirstFree(table, cur, spt, fuel)
    decreases fuel
  {
    if cur in table {
      FirstFreeStable(table, Succ(cur, spt), spt, v, fuel - 1, more - 1);
    }
  }

  /** The slot returned is the nearest free one: nothing free is passed over. */
  lemma {:induction false} FirstFreeIsNearest(table: seq<int>, cur: int, spt: int, w: int)
    requires 1 <= cur <= spt && 1 <= w <= spt && w !in table
    ensures Gap(cur, FirstFree(table, cur, spt, spt), spt) <= Gap(cur, w, spt)
  {
    FirstFreeStable(table, cur, spt, w, Gap(cur, w, spt), spt);
    FirstFreeIsFree(table, cur, spt, w, Gap(cur, w, spt));
  }

  /** Every prefix places distinct sectors of the track. */
  lemma {:induction false} PrefixPlaces(spt: nat, skew: nat, k: nat)
    requires k <= spt && spt >= 1
    ensures InRange(Prefix(spt, skew, k), spt) && Distinct(Prefix(spt, skew, k))
  {
    if k > 0 {
      PrefixPlaces(spt, skew, k - 1);
      var t := Prefix(spt, skew, k - 1);
      var start := if k == 1 then 1 else Start(t[k - 2], skew, spt);
      var v := FreeSlotExists(t, spt);
      FirstFreeIsFree(t, start, spt, v, spt);
    }
  }

  /** The skew table is a permutation of 1..spt, for every track size and every skew. */
  lemma TableIsPermutation(spt: nat, skew: nat)
    requires spt >= 1
    ensures var t := Table(spt, skew);
            |t| == spt && Distinct(t) && forall v :: 1 <= v <= spt <==> v in t
  {
    PrefixPlaces(spt, skew, spt);
    var t := Table(spt, skew);
    ElementsSize(t);
    assert Elements(t) <= Slots(spt);
    if Elements(t) != Slots(spt) {
      SubsetSize(Elements(t), Slots(spt));
      var v :| v in Slots(spt) && v !in Elements(t);
      assert Elements(t) <= Slots(spt) - {v};
      SubsetSize(Elements(t), Slots(spt) - {v});
      assert false;
    }
    forall v ensures 1 <= v <= spt <==> v in t {
      assert v in Elements(t) <==> v in Slots(spt);
    }
  }

  /** The nested loops of `skew_table`. */
  method SkewTable(spt: nat, skew: nat) returns (table: seq<int>)
    requires spt >= 1
    ensures table == Table(spt, skew)
  {
    table := [];
    var cur := 1;
    for k := 0 to spt
      invariant table == Prefix(spt, skew, k)
      invariant 1 <= cur <= spt
      invariant cur == if k == 0 then 1 else Start(table[k - 1], skew, spt)
    {
      PrefixPlaces(spt, skew, k);
      ghost var v := FreeSlotExists(table, spt);
      ghost var start := cur;
      FirstFreeIsFree(table, cur, spt, v, spt);
      while cur in table
        invariant 1 <= cur <= spt
        invariant FirstFree(table, cur, spt, spt) == FirstFree(table, start, spt, spt)
        decreases Gap(cur, v, spt)
      {
        FirstFreeStable(table, Succ(cur, spt), spt, v, spt - 1, spt);
        cur := if cur < spt then cur + 1 else 1;
      }
      table := table + [cur];
      cur := (cur - 1 + skew) % spt + 1;
    }
  }

  /** One entry placed: at its start when that is free, else one slot further on. */
  lemma Put(spt: nat, skew: nat, t: seq<int>, x: int)
    requires spt >= 1 && t == Prefix(spt, skew, |t|)
    requires var start := if t == [] then 1 else Start(t[|t| - 1], skew, spt);
             x !in t && (x == start || (start in t && x == Succ(start, spt)))
    ensures t + [x] == Prefix(spt, skew, |t| + 1)
  {
    assert FirstFree(t, x, spt, spt - 1) == x == FirstFree(t, x, spt, spt);
  }

  /** `inv` gives each sector its place in `t`. */
  ghost predicate Inverse(t: seq<int>, inv: seq<int>)
  {
    |inv| == |t| + 1 && forall i :: 0 <= i < |t| ==> 1 <= t[i] <= |t| && inv[t[i]] == i
  }

  ghost predicate Follows(t: seq<int>, inv: seq<int>, i: nat, skew: nat)
    requires 0 < i < |t| && Inverse(t, inv)
  {
    var start := Start(t[i - 1], skew, |t|);
    t[i] == start || (0 <= inv[start] < i && t[inv[start]] == start && t[i] == Succ(start, |t|))
  }

  lemma InverseDistinct(t: seq<int>, inv: seq<int>)
    requires Inverse(t, inv)
    ensures Distinct(t)
  {
    forall i, j | 0 <= i < j < |t| ensures t[i] != t[j] {
      assert inv[t[i]] != inv[t[j]];
    }
  }

  /** A table that follows the search rule and has an inverse is the skew table. */
  lemma {:induction false} FromInverse(spt: nat, skew: nat, t: seq<int>, inv: seq<int>, k: nat)
    requires |t| == spt >= 1 && k <= spt && Inverse(t, inv) && t[0] == 1
    requires forall i :: 0 < i < spt ==> Follows(t, inv, i, skew)
    ensures Prefix(spt, skew, k) == t[..k]
  {
    if k > 0 {
      FromInverse(spt, skew, t, inv, k - 1);
      var x := t[k - 1];
      InverseDistinct(t, inv);
      if k > 1 {
        assert Follows(t, inv, k - 1, skew);
        assert t[..k - 1][k - 2] == t[k - 2];
        var start := Start(t[k - 2], skew, spt);
        if x != start {
          assert t[..k - 1][inv[start]] == start;
        }
      }
      Put(spt, skew, t[..k - 1], x);
      assert t[..k] == t[..k - 1] + [x];
    }
  }

  // The four hand-written tables of bios.c, compared with the generator as verify_skew.py does.

  const MAXI_128: seq<int> := [1, 7, 13, 19, 25, 5, 11, 17, 23, 3, 9, 15, 21,
                               2, 8, 14, 20, 26, 6, 12, 18, 24, 4, 10, 16, 22]
  const MAXI_512: seq<int> := [1, 5, 9, 13, 2, 6, 10, 14, 3, 7, 11, 15, 4, 8, 12]
  const MINI_512: seq<int> := [1, 3, 5, 7, 9, 2, 4, 6, 8]
  const IDENTITY: seq<int> := [1, 2, 3, 4, 5, 6, 7, 8, 9, 10, 11, 12, 13,
                               14, 15, 16, 17, 18, 19, 20, 21, 22, 23, 24, 25, 26]

  const MAXI_128_AT: seq<int> := [0, 0, 13, 9, 22, 5, 18, 1, 14, 10, 23, 6, 19, 2, 15, 11, 24, 7, 20, 3, 16, 12, 25, 8, 21, 4, 17]

  lemma Maxi128Inverse()
    ensures Inverse(MAXI_128, MAXI_128_AT)
  {
    forall i | 0 <= i < 13 ensures 1 <= MAXI_128[i] <= 26 && MAXI_128_AT[MAXI_128[i]] == i { }
    forall i | 13 <= i < 26 ensures 1 <= MAXI_128[i] <= 26 && MAXI_128_AT[MAXI_128[i]] == i { }
  }

  lemma Maxi128Step(i: nat)
    requires 0 < i < 26 && i != 13
    ensures MAXI_128[i] == (MAXI_128[i - 1] + 5) % 26 + 1
  {
  }

  lemma Maxi128IsSkew6()
    ensures Table(26, 6) == MAXI_128
    ensures Distinct(MAXI_128) && InRange(MAXI_128, 26)
  {
    hide Prefix;
    Maxi128Inverse();
    forall i | 0 < i < 26 ensures Follows(MAXI_128, MAXI_128_AT, i, 6) {
      if i != 13 {
        Maxi128Step(i);
      }
    }
    FromInverse(26, 6, MAXI_128, MAXI_128_AT, 26);
    PrefixPlaces(26, 6, 26);
  }

  lemma Maxi512IsSkew4()
    ensures Table(15, 4) == MAXI_512
    ensures Distinct(MAXI_512) && InRange(MAXI_512, 15)
  {
    hide Prefix;
    var inv := [0, 0, 4, 8, 12, 1, 5, 9, 13, 2, 6, 10, 14, 3, 7, 11];
    FromInverse(15, 4, MAXI_512, inv, 15);
    PrefixPlaces(15, 4, 15);
  }

  lemma Mini512IsSkew2()
    ensures Table(9, 2) == MINI_512
    ensures Distinct(MINI_512) && InRange(MINI_512, 9)
  {
    hide Prefix;
    var inv := [0, 0, 5, 1, 6, 2, 7, 3, 8, 4];
    FromInverse(9, 2, MINI_512, inv, 9);
    PrefixPlaces(9, 2, 9);
  }

  /** Skew 1 is no skew, for every track size. */
  lemma {:induction false} SkewOne(spt: nat, k: nat)
    requires k <= spt && spt >= 1
    ensures Prefix(spt, 1, k) == seq(k, i requires 0 <= i => i + 1)
  {
    if k > 0 {
      SkewOne(spt, k - 1);
      var t := Prefix(spt, 1, k - 1);
      assert forall i :: 0 <= i < k - 1 ==> t[i] == i + 1;
      assert k !in t;
      if k > 1 {
        StartSmall(k - 1, spt);
      }
      Put(spt, 1, t, k);
    }
  }

  lemma StartSmall(prev: nat, spt: nat)
    requires 1 <= prev < spt
    ensures Start(prev, 1, spt) == prev + 1
  {
  }

  lemma IdentityIsSkew1()
    ensures Table(26, 1) == IDENTITY
    ensures Distinct(IDENTITY) && InRange(IDENTITY, 26)
  {
    hide Prefix;
    SkewOne(26, 26);
    PrefixPlaces(26, 1, 26);
  }
}
