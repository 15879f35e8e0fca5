/** The checksum program `mk_sysgen_hex.py` generates, and what it does when it runs. */
module Validator {
  import opened Arithmetic
  import opened Bytes
  import opened Z80

  /** Address and length of a stretch of memory, as given to the generator. */
  datatype Region = Region(addr: nat, length: nat)

  const LOOP: seq<byte> := [0x7E, 0x83, 0x5F, 0x30, 0x01, 0x14, 0x23, 0x0B, 0x78, 0xB1, 0x20, 0xF4]

  const CLEAR: seq<byte> := [0x11, 0x00, 0x00]
  const OK: seq<byte> := [0x4F, 0x4B, 0x0D, 0x0A, 0x24]
  const FAIL: seq<byte> := [0x46, 0x41, 0x49, 0x4C, 0x0D, 0x0A, 0x24]

  function Low(x: nat): byte { x % 256 }
  function High(x: nat): byte { x / 256 % 256 }

  function RegionCode(r: Region): seq<byte> {
    [0x21, Low(r.addr), High(r.addr), 0x01, Low(r.length), High(r.length)] + LOOP
  }

  function RegionsCode(rs: seq<Region>): (code: seq<byte>)
    ensures |code| == 18 * |rs|
  {
    if rs == [] then [] else RegionCode(rs[0]) + RegionsCode(rs[1..])
  }

  /** `LD E,ch; LD C,2; CALL 5` for each character. */
  function PrintCode(text: seq<byte>): (code: seq<byte>)
    ensures |code| == 7 * |text|
  {
    if text == [] then [] else [0x1E, text[0], 0x0E, 0x02, 0xCD, 0x05, 0x00] + PrintCode(text[1..])
  }

  /** The whole program. */
  function Code(expected: nat, rs: seq<Region>): (code: seq<byte>)
    ensures |code| == 99 + 18 * |rs|
  {
    CLEAR + (RegionsCode(rs) + (CompareCode(expected) + (Ending(OK) + Ending(FAIL))))
  }

  /** The comparison of DE with the expected sum; both jumps lead to the second ending. */
  function CompareCode(expected: nat): (code: seq<byte>)
    ensures |code| == 10
  {
    [0x7B, 0xFE, Low(expected), 0x20, 41, 0x7A, 0xFE, High(expected), 0x20, 36]
  }

  function Ending(text: seq<byte>): (code: seq<byte>)
    ensures |code| == 7 * |text| + 1
  {
    PrintCode(text) + [0xC9]
  }

  /** `build_validator`: the code is appended piece by piece, then the two jumps are patched. */
  method BuildValidator(expectedSum: nat, regions: seq<Region>) returns (code: seq<byte>)
    ensures code == Code(expectedSum, regions)
  {
    hide RegionsCode, PrintCode;
    code := CLEAR;
    assert RegionsCode(regions[..0]) == [];
    for i := 0 to |regions|
      invariant code == CLEAR + RegionsCode(regions[..i])
    {
      var Region(addr, length) := regions[i];
      RegionsSnoc(regions[..i], regions[i]);
      assert regions[..i + 1] == regions[..i] + [regions[i]];
      code := code + [0x21, addr % 256, addr / 256 % 256];
      code := code + [0x01, length % 256, length / 256 % 256];
      code := code + LOOP;
    }
    assert regions[..|regions|] == regions;
    ghost var head := code;
    code := code + [0x7B, 0xFE, expectedSum % 256];
    code := code + [0x20, 0x00];
    var failJr1Pos := |code| - 1;
    code := code + [0x7A, 0xFE, expectedSum / 256 % 256];
    code := code + [0x20, 0x00];
    var failJr2Pos := |code| - 1;
    var okCode := PrintText(OK);
    code := code + okCode;
    code := code + [0xC9];
    assert code == head + [0x7B, 0xFE, Low(expectedSum), 0x20, 0, 0x7A, 0xFE, High(expectedSum), 0x20, 0] + Ending(OK);
    var failStart := |code|;
    Patched(head, Low(expectedSum), High(expectedSum), Ending(OK));
    code := code[failJr1Pos := (failStart - (failJr1Pos + 1)) % 256];
    code := code[failJr2Pos := (failStart - (failJr2Pos + 1)) % 256];
    var failCode := PrintText(FAIL);
    code := code + failCode;
    code := code + [0xC9];
    Regroup(CLEAR, RegionsCode(regions), CompareCode(expectedSum), Ending(OK), PrintCode(FAIL), [0xC9]);
  }

  lemma Patched(head: seq<byte>, low: byte, high: byte, tail: seq<byte>)
    ensures (head + [0x7B, 0xFE, low, 0x20, 0, 0x7A, 0xFE, high, 0x20, 0] + tail)[|head| + 4 := 41][|head| + 9 := 36]
         == head + [0x7B, 0xFE, low, 0x20, 41, 0x7A, 0xFE, high, 0x20, 36] + tail
  {
  }

  lemma Regroup(a: seq<byte>, b: seq<byte>, c: seq<byte>, d: seq<byte>, e: seq<byte>, f: seq<byte>)
    ensures a + b + c + d + e + f == a + (b + (c + (d + (e + f))))
  {
    assert a + b + c + d + e + f == a + b + c + d + (e + f);
    assert a + b + c + d + (e + f) == a + b + c + (d + (e + f));
    assert a + b + c + (d + (e + f)) == a + b + (c + (d + (e + f)));
  }

  /** The loops `for ch in "...": code += [...]`. */
  method PrintText(text: seq<byte>) returns (code: seq<byte>)
    ensures code == PrintCode(text)
  {
    code := [];
    for i := 0 to |text|
      invariant code == PrintCode(text[..i])
    {
      PrintSnoc(text[..i], text[i]);
      assert text[..i + 1] == text[..i] + [text[i]];
      code := code + [0x1E, text[i], 0x0E, 0x02, 0xCD, 0x05, 0x00];
    }
    assert text[..|text|] == text;
  }

  lemma {:induction false} RegionsSnoc(rs: seq<Region>, r: Region)
    ensures RegionsCode(rs + [r]) == RegionsCode(rs) + RegionCode(r)
  {
    if rs == [] {
      assert RegionsCode([]) == [];
      assert [r][1..] == [];
    } else {
      assert (rs + [r])[1..] == rs[1..] + [r];
      RegionsSnoc(rs[1..], r);
    }
  }

  lemma {:induction false} PrintSnoc(text: seq<byte>, ch: byte)
    ensures PrintCode(text + [ch]) == PrintCode(text) + [0x1E, ch, 0x0E, 0x02, 0xCD, 0x05, 0x00]
  {
    if text == [] {
      assert [ch][1..] == [];
    } else {
      assert (text + [ch])[1..] == text[1..] + [ch];
      PrintSnoc(text[1..], ch);
    }
  }

  // What the program computes.

  /** The sum of `n` bytes from `at`, wrapping round the end of memory. */
  function SumFrom(mem: seq<byte>, at: word, n: nat): nat
    requires |mem| == 65536
    decreases n
  {
    if n == 0 then 0 else mem[at] + SumFrom(mem, Wrap(at + 1), n - 1)
  }

  /** A count of 0 in BC goes round 65536 times. */
  function Rounds(length: nat): (n: nat)
    ensures 1 <= n <= 65536
  {
    if length % 65536 == 0 then 65536 else length % 65536
  }

  function RegionSum(mem: seq<byte>, r: Region): nat
    requires |mem| == 65536
  {
    SumFrom(mem, Wrap(r.addr), Rounds(r.length))
  }

  function Total(mem: seq<byte>, rs: seq<Region>): nat
    requires |mem| == 65536
  {
    if rs == [] then 0 else RegionSum(mem, rs[0]) + Total(mem, rs[1..])
  }

  // The checksum loop.

  lemma CodeByte(mem: seq<byte>, at: nat, code: seq<byte>, i: nat)
    requires CodeAt(mem, at, code) && i < |code|
    ensures mem[at + i] == code[i]
  {
    assert mem[at..at + |code|][i] == mem[at + i];
  }

  lemma LoopBytes(mem: seq<byte>, p: nat)
    requires CodeAt(mem, p, LOOP)
    ensures mem[p] == 0x7E && mem[p + 1] == 0x83 && mem[p + 2] == 0x5F && mem[p + 3] == 0x30 && mem[p + 4] == 0x01
    ensures mem[p + 5] == 0x14 && mem[p + 6] == 0x23 && mem[p + 7] == 0x0B && mem[p + 8] == 0x78 && mem[p + 9] == 0xB1
    ensures mem[p + 10] == 0x20 && mem[p + 11] == 0xF4
  {
    forall i | 0 <= i < 12 ensures mem[p + i] == LOOP[i] {
      CodeByte(mem, p, LOOP, i);
    }
  }

  lemma AddWithCarry(d: byte, e: byte, x: byte)
    ensures 256 * ((if x + e >= 256 then d + 1 else d) % 256) + (x + e) % 256 == (256 * d + e + x) % 65536
  {
    var d' := if x + e >= 256 then d + 1 else d;
    assert 256 * d + e + x == 256 * d' + (x + e) % 256;
    if d' == 256 {
      assert 256 * d + e + x == 65536 + (x + e) % 256;
    }
  }

  /** `LD A,(HL); ADD A,E; LD E,A`. */
  lemma AddLow(mem: seq<byte>, bdos: Bdos, s: Cpu) returns (t: Cpu)
    requires |mem| == 65536 && s.pc + 3 < 65536
    requires mem[s.pc] == 0x7E && mem[s.pc + 1] == 0x83 && mem[s.pc + 2] == 0x5F
    ensures Leads(mem, bdos, s, Running(t))
    ensures t.e == (mem[s.HL()] + s.e) % 256 && t.carry == (mem[s.HL()] + s.e >= 256)
    ensures t == s.(a := t.a, e := t.e, carry := t.carry, zero := t.zero, pc := s.pc + 3)
  {
    hide *;
    var s1 := LdAHL(mem, bdos, s);
    var s2 := AddE(mem, bdos, s1);
    t := LdEA(mem, bdos, s2);
    Leads3(mem, bdos, s, s1, s2, Running(t));
  }

  /** `JR NC,+1; INC D`. */
  lemma AddHigh(mem: seq<byte>, bdos: Bdos, s: Cpu) returns (t: Cpu)
    requires |mem| == 65536 && s.pc + 3 < 65536
    requires mem[s.pc] == 0x30 && mem[s.pc + 1] == 1 && mem[s.pc + 2] == 0x14
    ensures Leads(mem, bdos, s, Running(t))
    ensures t == s.(d := if s.carry then (s.d + 1) % 256 else s.d, zero := t.zero, pc := s.pc + 3)
  {
    hide Leads, Steps, Step;
    var s1 := JrNC(mem, bdos, s);
    if s.carry {
      t := IncD(mem, bdos, s1);
      LeadsTrans(mem, bdos, s, s1, Running(t));
    } else {
      t := s1;
    }
  }

  /** The first half of a round: DE takes up the byte at HL. */
  lemma AddByte(mem: seq<byte>, bdos: Bdos, s: Cpu) returns (t: Cpu)
    requires |mem| == 65536 && CodeAt(mem, s.pc, LOOP)
    ensures Leads(mem, bdos, s, Running(t))
    ensures t.DE() == (s.DE() + mem[s.HL()]) % 65536
    ensures t.b == s.b && t.c == s.c && t.h == s.h && t.l == s.l && t.out == s.out && t.pc == s.pc + 6
  {
    assert s.pc + 12 <= 65536;
    hide Leads, Steps, Step, CodeAt, Cpu.HL;
    LoopBytes(mem, s.pc);
    var s1 := AddLow(mem, bdos, s);
    t := AddHigh(mem, bdos, s1);
    LeadsTrans(mem, bdos, s, s1, Running(t));
    AddWithCarry(s.d, s.e, mem[s.HL()]);
  }

  /** The second half: step HL and BC, and go round again unless BC has reached zero. */
  lemma NextByte(mem: seq<byte>, bdos: Bdos, p: nat, s: Cpu) returns (t: Cpu)
    requires CodeAt(mem, p, LOOP) && s.pc == p + 6
    ensures Leads(mem, bdos, s, Running(t))
    ensures t.HL() == Wrap(s.HL() + 1) && t.BC() == Wrap(s.BC() + 65535)
    ensures t.DE() == s.DE() && t.out == s.out
    ensures t.pc == if t.BC() == 0 then Wrap(p + 12) else p
  {
    hide Leads, Steps, Step, Or;
    LoopBytes(mem, p);
    var s1 := IncHL(mem, bdos, s);
    var s2 := DecBC(mem, bdos, s1);
    var s3 := LdAB(mem, bdos, s2);
    Leads3(mem, bdos, s, s1, s2, Running(s3));
    var s4 := OrC(mem, bdos, s3);
    OrZero(s3.a, s3.c);
    t := JrNZ(mem, bdos, s4);
    Leads3(mem, bdos, s, s3, s4, Running(t));
  }

  lemma WrapSum(x: nat, a: nat, b: nat)
    ensures ((x + a) % 65536 + b) % 65536 == (x + (a + b)) % 65536
  {
  }

  lemma SumUnfolds(mem: seq<byte>, at: word, n: nat)
    requires |mem| == 65536 && n > 0
    ensures SumFrom(mem, at, n) == mem[at] + SumFrom(mem, Wrap(at + 1), n - 1)
    ensures n == 1 ==> SumFrom(mem, at, n) == mem[at]
  {
  }

  /** What one round leaves to do. */
  lemma RoundStep(mem: seq<byte>, at: word, bc: word)
    requires |mem| == 65536
    ensures Wrap(bc + 65535) == 0 ==> SumFrom(mem, at, Rounds(bc)) == mem[at]
    ensures Wrap(bc + 65535) != 0 ==>
      Rounds(Wrap(bc + 65535)) == Rounds(bc) - 1
      && SumFrom(mem, at, Rounds(bc)) == mem[at] + SumFrom(mem, Wrap(at + 1), Rounds(Wrap(bc + 65535)))
  {
    hide SumFrom;
    if bc == 0 {
      assert Wrap(bc + 65535) == 65535;
    } else {
      assert Wrap(bc + 65535) == bc - 1;
    }
    var n := Rounds(bc);
    SumUnfolds(mem, at, n);
  }

  /** The loop adds the bytes of as many rounds as BC says, 0 meaning 65536. */
  lemma {:induction false} LoopSums(mem: seq<byte>, bdos: Bdos, s: Cpu) returns (t: Cpu)
    requires CodeAt(mem, s.pc, LOOP)
    ensures Leads(mem, bdos, s, Running(t))
    ensures t.DE() == (s.DE() + SumFrom(mem, s.HL(), Rounds(s.BC()))) % 65536
    ensures t.pc == Wrap(s.pc + 12) && t.out == s.out
    decreases Rounds(s.BC())
  {
    hide Leads, Steps, Step, SumFrom, Rounds, Wrap, Cpu.DE, Cpu.HL, Cpu.BC;
    var s1 := AddByte(mem, bdos, s);
    assert mem[s.HL()] < 256;
    assert s1.HL() == s.HL() && s1.BC() == s.BC() by { SamePairs(s, s1); }
    t := NextByte(mem, bdos, s.pc, s1);
    LeadsTrans(mem, bdos, s, s1, Running(t));
    RoundStep(mem, s.HL(), s.BC());
    if t.BC() != 0 {
      var s2 := t;
      t := LoopSums(mem, bdos, s2);
      LeadsTrans(mem, bdos, s, s2, Running(t));
      WrapSum(s.DE(), mem[s.HL()], SumFrom(mem, s2.HL(), Rounds(s2.BC())));
    }
  }

  lemma SamePairs(s: Cpu, t: Cpu)
    requires t.b == s.b && t.c == s.c && t.h == s.h && t.l == s.l
    ensures t.HL() == s.HL() && t.BC() == s.BC()
  {
  }

  /** One region's code. */
  lemma RegionRuns(mem: seq<byte>, bdos: Bdos, s: Cpu, r: Region) returns (t: Cpu)
    requires CodeAt(mem, s.pc, RegionCode(r))
    ensures Leads(mem, bdos, s, Running(t))
    ensures t.DE() == (s.DE() + RegionSum(mem, r)) % 65536
    ensures t.pc == Wrap(s.pc + 18) && t.out == s.out
  {
    hide Leads, Steps, Step, SumFrom;
    RegionBytes(mem, s.pc, r);
    var s1 := LdHLNN(mem, bdos, s);
    var s2 := LdBCNN(mem, bdos, s1);
    LowHigh(r.addr);
    LowHigh(r.length);
    t := LoopSums(mem, bdos, s2);
    Leads3(mem, bdos, s, s1, s2, Running(t));
  }

  lemma LowHigh(x: nat)
    ensures 256 * High(x) + Low(x) == Wrap(x) && Rounds(Wrap(x)) == Rounds(x)
  {
    var q := x / 256;
    assert x == 65536 * (q / 256) + (256 * High(x) + Low(x));
    DivModUnique(q / 256, 256 * High(x) + Low(x), 65536);
  }

  lemma RegionBytes(mem: seq<byte>, p: nat, r: Region)
    requires CodeAt(mem, p, RegionCode(r))
    ensures mem[p] == 0x21 && mem[p + 1] == Low(r.addr) && mem[p + 2] == High(r.addr)
    ensures mem[p + 3] == 0x01 && mem[p + 4] == Low(r.length) && mem[p + 5] == High(r.length)
    ensures CodeAt(mem, p + 6, LOOP)
  {
    var code := RegionCode(r);
    CodePart(mem, p, code, 6, 18);
    assert code[6..18] == LOOP;
    forall i | 0 <= i < 6 ensures mem[p + i] == code[i] {
      CodeByte(mem, p, code, i);
    }
  }

  lemma {:induction false} RegionsRun(mem: seq<byte>, bdos: Bdos, s: Cpu, rs: seq<Region>) returns (t: Cpu)
    requires |mem| == 65536 && CodeAt(mem, s.pc, RegionsCode(rs)) && s.pc + 18 * |rs| < 65536
    ensures Leads(mem, bdos, s, Running(t))
    ensures t.DE() == (s.DE() + Total(mem, rs)) % 65536
    ensures t.pc == s.pc + 18 * |rs| && t.out == s.out
    decreases |rs|
  {
    hide Leads, Steps, Step, RegionSum, RegionsCode, RegionCode, CodeAt, Cpu.DE;
    if rs == [] {
      t := s;
      LeadsSelf(mem, bdos, s);
      assert s.DE() % 65536 == s.DE();
    } else {
      RegionsBytes(mem, s.pc, rs);
      var s1 := RegionRuns(mem, bdos, s, rs[0]);
      assert s1.pc == s.pc + 18;
      t := RegionsRun(mem, bdos, s1, rs[1..]);
      LeadsTrans(mem, bdos, s, s1, Running(t));
      WrapSum(s.DE(), RegionSum(mem, rs[0]), Total(mem, rs[1..]));
    }
  }

  lemma RegionsBytes(mem: seq<byte>, p: nat, rs: seq<Region>)
    requires rs != [] && CodeAt(mem, p, RegionsCode(rs))
    ensures CodeAt(mem, p, RegionCode(rs[0])) && CodeAt(mem, p + 18, RegionsCode(rs[1..]))
  {
    var code := RegionsCode(rs);
    CodePart(mem, p, code, 0, 18);
    CodePart(mem, p, code, 18, |code|);
    assert code[0..18] == RegionCode(rs[0]) && code[18..] == RegionsCode(rs[1..]);
  }

  /** Printing appends the text, whatever the BDOS does to the registers. */
  lemma {:induction false} PrintRuns(mem: seq<byte>, bdos: Bdos, s: Cpu, text: seq<byte>)
    requires CodeAt(mem, s.pc, Ending(text))
    ensures Leads(mem, bdos, s, Returned(s.out + text))
    decreases |text|
  {
    hide Leads, Steps, Step;
    if text == [] {
      CodeByte(mem, s.pc, Ending(text), 0);
      Ret(mem, bdos, s);
      assert s.out + text == s.out;
    } else {
      PrintBytes(mem, s.pc, text);
      var s1 := LdEN(mem, bdos, s);
      var s2 := LdCN(mem, bdos, s1);
      var s3 := ConsoleOut(mem, bdos, s2);
      PrintRuns(mem, bdos, s3, text[1..]);
      assert s.out + [text[0]] + text[1..] == s.out + text;
      Leads3(mem, bdos, s, s1, s2, Running(s3));
      LeadsTrans(mem, bdos, s, s3, Returned(s.out + text));
    }
  }

  lemma PrintBytes(mem: seq<byte>, p: nat, text: seq<byte>)
    requires text != [] && CodeAt(mem, p, Ending(text))
    ensures mem[p] == 0x1E && mem[p + 1] == text[0] && mem[p + 2] == 0x0E && mem[p + 3] == 2
    ensures mem[p + 4] == 0xCD && mem[p + 5] == 5 && mem[p + 6] == 0
    ensures CodeAt(mem, p + 7, Ending(text[1..]))
  {
    var first := [0x1E, text[0], 0x0E, 0x02, 0xCD, 0x05, 0x00];
    var rest := Ending(text[1..]);
    EndingUnfolds(text);
    hide Ending;
    CodeConcat(mem, p, first, rest);
    hide CodeAt;
    CodeByte(mem, p, first, 0);
    CodeByte(mem, p, first, 1);
    CodeByte(mem, p, first, 2);
    CodeByte(mem, p, first, 3);
    CodeByte(mem, p, first, 4);
    CodeByte(mem, p, first, 5);
    CodeByte(mem, p, first, 6);
  }

  lemma EndingUnfolds(text: seq<byte>)
    requires text != []
    ensures Ending(text) == [0x1E, text[0], 0x0E, 0x02, 0xCD, 0x05, 0x00] + Ending(text[1..])
  {
    var first := [0x1E, text[0], 0x0E, 0x02, 0xCD, 0x05, 0x00];
    var rest := PrintCode(text[1..]);
    assert PrintCode(text) == first + rest;
    hide PrintCode;
    assert (first + rest) + [0xC9] == first + (rest + [0xC9]);
  }

  /** Code laid out in two parts. */
  lemma CodeConcat(mem: seq<byte>, p: nat, a: seq<byte>, b: seq<byte>)
    requires CodeAt(mem, p, a + b)
    ensures CodeAt(mem, p, a) && CodeAt(mem, p + |a|, b)
  {
    var code := a + b;
    hide CodeAt;
    CodePart(mem, p, code, 0, |a|);
    CodePart(mem, p, code, |a|, |code|);
    assert code[0..|a|] == a && code[|a|..|code|] == b;
  }

  /** Both bytes must match. */
  lemma CompareRuns(mem: seq<byte>, bdos: Bdos, s: Cpu, expected: nat) returns (t: Cpu)
    requires CodeAt(mem, s.pc, CompareCode(expected)) && s.pc + 46 < 65536
    ensures Leads(mem, bdos, s, Running(t)) && t.out == s.out
    ensures t.pc == if s.DE() == expected % 65536 then s.pc + 10 else s.pc + 46
  {
    CompareBytes(mem, s.pc, expected);
    SplitWord(s, expected);
    hide *;
    t := CompareLow(mem, bdos, s, Low(expected));
    if t.pc == s.pc + 5 {
      var u := t;
      t := CompareHigh(mem, bdos, u, High(expected));
      LeadsTrans(mem, bdos, s, u, Running(t));
    }
  }

  lemma CompareLow(mem: seq<byte>, bdos: Bdos, s: Cpu, low: byte) returns (t: Cpu)
    requires |mem| == 65536 && s.pc + 46 < 65536
    requires mem[s.pc] == 0x7B && mem[s.pc + 1] == 0xFE && mem[s.pc + 2] == low && mem[s.pc + 3] == 0x20 && mem[s.pc + 4] == 41
    ensures Leads(mem, bdos, s, Running(t)) && t.out == s.out && t.d == s.d
    ensures t.pc == if s.e == low then s.pc + 5 else s.pc + 46
  {
    hide Leads, Steps, Step;
    var s1 := LdAE(mem, bdos, s);
    var s2 := CpN(mem, bdos, s1);
    t := JrNZ(mem, bdos, s2);
    Leads3(mem, bdos, s, s1, s2, Running(t));
  }

  lemma CompareHigh(mem: seq<byte>, bdos: Bdos, s: Cpu, high: byte) returns (t: Cpu)
    requires |mem| == 65536 && s.pc + 41 < 65536
    requires mem[s.pc] == 0x7A && mem[s.pc + 1] == 0xFE && mem[s.pc + 2] == high && mem[s.pc + 3] == 0x20 && mem[s.pc + 4] == 36
    ensures Leads(mem, bdos, s, Running(t)) && t.out == s.out
    ensures t.pc == if s.d == high then s.pc + 5 else s.pc + 41
  {
    hide Leads, Steps, Step;
    var s1 := LdAD(mem, bdos, s);
    var s2 := CpN(mem, bdos, s1);
    t := JrNZ(mem, bdos, s2);
    Leads3(mem, bdos, s, s1, s2, Running(t));
  }

  lemma SplitWord(s: Cpu, x: nat)
    ensures s.DE() == x % 65536 <==> s.e == Low(x) && s.d == High(x)
  {
    LowHigh(x);
  }

  lemma CompareBytes(mem: seq<byte>, p: nat, expected: nat)
    requires CodeAt(mem, p, CompareCode(expected))
    ensures mem[p] == 0x7B && mem[p + 1] == 0xFE && mem[p + 2] == Low(expected) && mem[p + 3] == 0x20 && mem[p + 4] == 41
    ensures mem[p + 5] == 0x7A && mem[p + 6] == 0xFE && mem[p + 7] == High(expected) && mem[p + 8] == 0x20 && mem[p + 9] == 36
  {
    forall i | 0 <= i < 10 ensures mem[p + i] == CompareCode(expected)[i] {
      CodeByte(mem, p, CompareCode(expected), i);
    }
  }

  /** Where the parts of the program stand: the comparison at `at`, behind the regions. */
  lemma CodeLayout(mem: seq<byte>, p: nat, expected: nat, rs: seq<Region>) returns (at: nat)
    requires CodeAt(mem, p, Code(expected, rs))
    ensures at == p + 3 + 18 * |rs|
    ensures CodeAt(mem, p, CLEAR) && CodeAt(mem, p + 3, RegionsCode(rs))
    ensures CodeAt(mem, at, CompareCode(expected))
    ensures CodeAt(mem, at + 10, Ending(OK)) && CodeAt(mem, at + 46, Ending(FAIL))
  {
    CodeShape(expected, rs);
    hide *;
    at := CodeAtParts(mem, p, CLEAR, RegionsCode(rs), CompareCode(expected), Ending(OK), Ending(FAIL), Code(expected, rs));
  }

  lemma CodeAtParts(mem: seq<byte>, p: nat, a: seq<byte>, b: seq<byte>, c: seq<byte>, d: seq<byte>, e: seq<byte>,
                    code: seq<byte>)
    returns (at: nat)
    requires CodeAt(mem, p, code) && code == a + (b + (c + (d + e)))
    requires |a| == 3 && |c| == 10 && |d| == 36
    ensures at == p + 3 + |b|
    ensures CodeAt(mem, p, a) && CodeAt(mem, p + 3, b) && CodeAt(mem, at, c)
    ensures CodeAt(mem, at + 10, d) && CodeAt(mem, at + 46, e)
  {
    hide *;
    at := p + 3 + |b|;
    CodeParts(mem, p, a, b, c, d, e);
    assert p + |a| == p + 3 && p + |a| + |b| == at && p + |a| + |b| + |c| == at + 10;
    assert p + |a| + |b| + |c| + |d| == at + 46;
  }

  lemma CodeShape(expected: nat, rs: seq<Region>)
    ensures Code(expected, rs) == CLEAR + (RegionsCode(rs) + (CompareCode(expected) + (Ending(OK) + Ending(FAIL))))
    ensures |CLEAR| == 3 && |Ending(OK)| == 36
  {
  }

  lemma CodeParts(mem: seq<byte>, p: nat, a: seq<byte>, b: seq<byte>, c: seq<byte>, d: seq<byte>, e: seq<byte>)
    requires CodeAt(mem, p, a + (b + (c + (d + e))))
    ensures CodeAt(mem, p, a) && CodeAt(mem, p + |a|, b) && CodeAt(mem, p + |a| + |b|, c)
    ensures CodeAt(mem, p + |a| + |b| + |c|, d) && CodeAt(mem, p + |a| + |b| + |c| + |d|, e)
  {
    hide CodeAt;
    CodeConcat(mem, p, a, b + (c + (d + e)));
    CodeConcat(mem, p + |a|, b, c + (d + e));
    CodeConcat(mem, p + |a| + |b|, c, d + e);
    CodeConcat(mem, p + |a| + |b| + |c|, d, e);
  }

  /** What the program prints. */
  function Verdict(mem: seq<byte>, expected: nat, rs: seq<Region>): seq<byte>
    requires |mem| == 65536
  {
    if Total(mem, rs) % 65536 == expected % 65536 then OK else FAIL
  }

  /** The generated program, wherever it stands and whatever the BDOS does to the registers,
      returns after printing `OK` exactly when the 16-bit sum over the regions is the expected
      one, and `FAIL` otherwise. */
  lemma ValidatorCorrect(mem: seq<byte>, bdos: Bdos, s: Cpu, expected: nat, rs: seq<Region>)
    requires CodeAt(mem, s.pc, Code(expected, rs)) && s.pc + |Code(expected, rs)| < 65536
    ensures Leads(mem, bdos, s, Returned(s.out + Verdict(mem, expected, rs)))
  {
    hide Leads, Steps, Step, Total, RegionsCode, PrintCode;
    var at := CodeLayout(mem, s.pc, expected, rs);
    CodeByte(mem, s.pc, CLEAR, 0);
    CodeByte(mem, s.pc, CLEAR, 1);
    CodeByte(mem, s.pc, CLEAR, 2);
    hide CodeAt, Code, CompareCode;
    var s1 := LdDENN(mem, bdos, s);
    var s2 := RegionsRun(mem, bdos, s1, rs);
    assert s2.pc == at;
    var s3 := CompareRuns(mem, bdos, s2, expected);
    Leads3(mem, bdos, s, s1, s2, Running(s3));
    PrintRuns(mem, bdos, s3, Verdict(mem, expected, rs));
    LeadsTrans(mem, bdos, s, s3, Returned(s.out + Verdict(mem, expected, rs)));
  }
}
