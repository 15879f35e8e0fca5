/** The part of the Z80 that the generated checksum programs use: 18 instructions over an
    immutable 64 KiB memory, with the BDOS console-output call as one step. */
module Z80 {
  import opened Arithmetic
  import opened Bytes

  datatype Cpu = Cpu(
    a: byte, b: byte, c: byte, d: byte, e: byte, h: byte, l: byte,
    carry: bool, zero: bool, pc: word, out: seq<byte>)
  {
    function BC(): word { 256 * b + c }
    function DE(): word { 256 * d + e }
    function HL(): word { 256 * h + l }
  }

  /** A program is still running, has returned to its caller with its output, or is doing
      something this model does not cover. */
  datatype State = Running(cpu: Cpu) | Returned(out: seq<byte>) | Stuck

  /** What a BDOS call may do to the registers and flags: anything. */
  type Bdos = Cpu -> Cpu

  function Wrap(x: nat): word { x % 65536 }

  /** The address `JR` leads to: the next instruction plus the signed displacement. */
  function Relative(next: word, displacement: byte): word {
    Wrap(if displacement < 128 then next + displacement else next + displacement + 65536 - 256)
  }

  /** Bitwise or of the low `n` bits. */
  function OrBits(x: nat, y: nat, n: nat): (r: nat) {
    if n == 0 then 0 else (if x % 2 == 1 || y % 2 == 1 then 1 else 0) + 2 * OrBits(x / 2, y / 2, n - 1)
  }

  function Or(x: byte, y: byte): byte {
    OrBits(x, y, 8) % 256
  }

  lemma {:induction false} OrBitsFacts(x: nat, y: nat, n: nat)
    requires x < Power2(n) && y < Power2(n)
    ensures OrBits(x, y, n) < Power2(n) && (OrBits(x, y, n) == 0 <==> x == 0 && y == 0)
  {
    if n > 0 {
      OrBitsFacts(x / 2, y / 2, n - 1);
    }
  }

  /** The flag `OR C` leaves. */
  lemma OrZero(x: byte, y: byte)
    ensures Or(x, y) == 0 <==> x == 0 && y == 0
  {
    assert Power2(8) == 2 * Power2(7) == 4 * Power2(6) == 8 * Power2(5) == 16 * Power2(4)
           == 32 * Power2(3) == 64 * Power2(2) == 128 * Power2(1) == 256 * Power2(0);
    OrBitsFacts(x, y, 8);
  }

  function Fetch(mem: seq<byte>, at: nat): byte
    requires |mem| == 65536
  {
    mem[Wrap(at)]
  }

  /** One instruction. */
  function Step(mem: seq<byte>, bdos: Bdos, s: Cpu): State
    requires |mem| == 65536
  {
    var n1 := Fetch(mem, s.pc + 1);
    var n2 := Fetch(mem, s.pc + 2);
    var s1 := s.(pc := Wrap(s.pc + 1));
    var s2 := s.(pc := Wrap(s.pc + 2));
    var s3 := s.(pc := Wrap(s.pc + 3));
    match mem[s.pc]
    case 0x7E => Running(s1.(a := mem[s.HL()]))
    case 0x83 => Running(s1.(a := (s.a + s.e) % 256, carry := s.a + s.e >= 256, zero := (s.a + s.e) % 256 == 0))
    case 0x5F => Running(s1.(e := s.a))
    case 0x30 => Running(if s.carry then s2 else s.(pc := Relative(Wrap(s.pc + 2), n1)))
    case 0x20 => Running(if s.zero then s2 else s.(pc := Relative(Wrap(s.pc + 2), n1)))
    case 0x14 => Running(s1.(d := (s.d + 1) % 256, zero := (s.d + 1) % 256 == 0))
    case 0x23 => Running(s1.(h := Wrap(s.HL() + 1) / 256, l := Wrap(s.HL() + 1) % 256))
    case 0x0B => Running(s1.(b := Wrap(s.BC() + 65535) / 256, c := Wrap(s.BC() + 65535) % 256))
    case 0x78 => Running(s1.(a := s.b))
    case 0x7B => Running(s1.(a := s.e))
    case 0x7A => Running(s1.(a := s.d))
    case 0xB1 => Running(s1.(a := Or(s.a, s.c), carry := false, zero := Or(s.a, s.c) == 0))
    case 0xFE => Running(s2.(carry := s.a < n1, zero := s.a == n1))
    case 0x1E => Running(s2.(e := n1))
    case 0x0E => Running(s2.(c := n1))
    case 0x01 => Running(s3.(b := n2, c := n1))
    case 0x11 => Running(s3.(d := n2, e := n1))
    case 0x21 => Running(s3.(h := n2, l := n1))
    case 0xCD =>
      if n1 == 5 && n2 == 0 && s.c == 2
      then Running(bdos(s).(pc := Wrap(s.pc + 3), out := s.out + [s.e]))
      else Stuck
    case 0xC9 => Returned(s.out)
    case _ => Stuck
  }

  /** `n` instructions, or fewer if the program stops. */
  function Steps(mem: seq<byte>, bdos: Bdos, s: State, n: nat): State
    requires |mem| == 65536
    decreases n
  {
    if n == 0 || !s.Running? then s else Steps(mem, bdos, Step(mem, bdos, s.cpu), n - 1)
  }

  lemma {:induction false} StepsAdd(mem: seq<byte>, bdos: Bdos, s: State, m: nat, n: nat)
    requires |mem| == 65536
    ensures Steps(mem, bdos, s, m + n) == Steps(mem, bdos, Steps(mem, bdos, s, m), n)
    decreases m
  {
    if m > 0 && s.Running? {
      StepsAdd(mem, bdos, Step(mem, bdos, s.cpu), m - 1, n);
    }
  }

  /** `t` follows `s` after some number of instructions. */
  ghost predicate Leads(mem: seq<byte>, bdos: Bdos, s: Cpu, t: State)
    requires |mem| == 65536
  {
    exists n: nat :: Steps(mem, bdos, Running(s), n) == t
  }

  lemma LeadsStep(mem: seq<byte>, bdos: Bdos, s: Cpu)
    requires |mem| == 65536
    ensures Leads(mem, bdos, s, Step(mem, bdos, s))
  {
    assert Steps(mem, bdos, Running(s), 1) == Steps(mem, bdos, Step(mem, bdos, s), 0);
  }

  lemma LeadsSelf(mem: seq<byte>, bdos: Bdos, s: Cpu)
    requires |mem| == 65536
    ensures Leads(mem, bdos, s, Running(s))
  {
    assert Steps(mem, bdos, Running(s), 0) == Running(s);
  }

  lemma LeadsTrans(mem: seq<byte>, bdos: Bdos, s: Cpu, t: Cpu, u: State)
    requires |mem| == 65536
    requires Leads(mem, bdos, s, Running(t)) && Leads(mem, bdos, t, u)
    ensures Leads(mem, bdos, s, u)
  {
    var m: nat :| Steps(mem, bdos, Running(s), m) == Running(t);
    var n: nat :| Steps(mem, bdos, Running(t), n) == u;
    StepsAdd(mem, bdos, Running(s), m, n);
  }

  /** The machine is deterministic: a program that returns has one output. */
  lemma ReturnsOnce(mem: seq<byte>, bdos: Bdos, s: Cpu, out: seq<byte>, out': seq<byte>)
    requires |mem| == 65536
    requires Leads(mem, bdos, s, Returned(out)) && Leads(mem, bdos, s, Returned(out'))
    ensures out == out'
  {
    var m: nat :| Steps(mem, bdos, Running(s), m) == Returned(out);
    var n: nat :| Steps(mem, bdos, Running(s), n) == Returned(out');
    if m <= n {
      StepsAdd(mem, bdos, Running(s), m, n - m);
    } else {
      StepsAdd(mem, bdos, Running(s), n, m - n);
    }
  }

  /** `code` is in memory from `at` on. */
  ghost predicate CodeAt(mem: seq<byte>, at: nat, code: seq<byte>)
  {
    |mem| == 65536 && at + |code| <= 65536 && mem[at..at + |code|] == code
  }

  lemma CodePart(mem: seq<byte>, at: nat, code: seq<byte>, i: nat, j: nat)
    requires CodeAt(mem, at, code) && i <= j <= |code|
    ensures CodeAt(mem, at + i, code[i..j])
  {
    forall k | i <= k < j ensures mem[at + k] == code[k] {
      assert mem[at..at + |code|][k] == mem[at + k];
    }
    assert mem[at + i..at + j] == code[i..j];
  }

  // One lemma per instruction.

  lemma LdAHL(mem: seq<byte>, bdos: Bdos, s: Cpu) returns (t: Cpu)
    requires |mem| == 65536 && s.pc + 1 < 65536 && mem[s.pc] == 0x7E
    ensures t == s.(a := mem[s.HL()], pc := s.pc + 1)
    ensures Leads(mem, bdos, s, Running(t))
  {
    t := s.(a := mem[s.HL()], pc := s.pc + 1);
    LeadsStep(mem, bdos, s);
  }

  lemma AddE(mem: seq<byte>, bdos: Bdos, s: Cpu) returns (t: Cpu)
    requires |mem| == 65536 && s.pc + 1 < 65536 && mem[s.pc] == 0x83
    ensures t == s.(a := (s.a + s.e) % 256, carry := s.a + s.e >= 256, zero := (s.a + s.e) % 256 == 0, pc := s.pc + 1)
    ensures Leads(mem, bdos, s, Running(t))
  {
    t := s.(a := (s.a + s.e) % 256, carry := s.a + s.e >= 256, zero := (s.a + s.e) % 256 == 0, pc := s.pc + 1);
    LeadsStep(mem, bdos, s);
  }

  lemma LdEA(mem: seq<byte>, bdos: Bdos, s: Cpu) returns (t: Cpu)
    requires |mem| == 65536 && s.pc + 1 < 65536 && mem[s.pc] == 0x5F
    ensures t == s.(e := s.a, pc := s.pc + 1)
    ensures Leads(mem, bdos, s, Running(t))
  {
    t := s.(e := s.a, pc := s.pc + 1);
    LeadsStep(mem, bdos, s);
  }

  lemma IncD(mem: seq<byte>, bdos: Bdos, s: Cpu) returns (t: Cpu)
    requires |mem| == 65536 && s.pc + 1 < 65536 && mem[s.pc] == 0x14
    ensures t == s.(d := (s.d + 1) % 256, zero := (s.d + 1) % 256 == 0, pc := s.pc + 1)
    ensures Leads(mem, bdos, s, Running(t))
  {
    t := s.(d := (s.d + 1) % 256, zero := (s.d + 1) % 256 == 0, pc := s.pc + 1);
    LeadsStep(mem, bdos, s);
  }

  lemma IncHL(mem: seq<byte>, bdos: Bdos, s: Cpu) returns (t: Cpu)
    requires |mem| == 65536 && s.pc + 1 < 65536 && mem[s.pc] == 0x23
    ensures t == s.(h := Wrap(s.HL() + 1) / 256, l := Wrap(s.HL() + 1) % 256, pc := s.pc + 1)
    ensures Leads(mem, bdos, s, Running(t))
  {
    t := s.(h := Wrap(s.HL() + 1) / 256, l := Wrap(s.HL() + 1) % 256, pc := s.pc + 1);
    LeadsStep(mem, bdos, s);
  }

  lemma DecBC(mem: seq<byte>, bdos: Bdos, s: Cpu) returns (t: Cpu)
    requires |mem| == 65536 && s.pc + 1 < 65536 && mem[s.pc] == 0x0B
    ensures t == s.(b := Wrap(s.BC() + 65535) / 256, c := Wrap(s.BC() + 65535) % 256, pc := s.pc + 1)
    ensures Leads(mem, bdos, s, Running(t))
  {
    t := s.(b := Wrap(s.BC() + 65535) / 256, c := Wrap(s.BC() + 65535) % 256, pc := s.pc + 1);
    LeadsStep(mem, bdos, s);
  }

  lemma LdAB(mem: seq<byte>, bdos: Bdos, s: Cpu) returns (t: Cpu)
    requires |mem| == 65536 && s.pc + 1 < 65536 && mem[s.pc] == 0x78
    ensures t == s.(a := s.b, pc := s.pc + 1)
    ensures Leads(mem, bdos, s, Running(t))
  {
    t := s.(a := s.b, pc := s.pc + 1);
    LeadsStep(mem, bdos, s);
  }

  lemma LdAE(mem: seq<byte>, bdos: Bdos, s: Cpu) returns (t: Cpu)
    requires |mem| == 65536 && s.pc + 1 < 65536 && mem[s.pc] == 0x7B
    ensures t == s.(a := s.e, pc := s.pc + 1)
    ensures Leads(mem, bdos, s, Running(t))
  {
    t := s.(a := s.e, pc := s.pc + 1);
    LeadsStep(mem, bdos, s);
  }

  lemma LdAD(mem: seq<byte>, bdos: Bdos, s: Cpu) returns (t: Cpu)
    requires |mem| == 65536 && s.pc + 1 < 65536 && mem[s.pc] == 0x7A
    ensures t == s.(a := s.d, pc := s.pc + 1)
    ensures Leads(mem, bdos, s, Running(t))
  {
    t := s.(a := s.d, pc := s.pc + 1);
    LeadsStep(mem, bdos, s);
  }

  lemma OrC(mem: seq<byte>, bdos: Bdos, s: Cpu) returns (t: Cpu)
    requires |mem| == 65536 && s.pc + 1 < 65536 && mem[s.pc] == 0xB1
    ensures t == s.(a := Or(s.a, s.c), carry := false, zero := Or(s.a, s.c) == 0, pc := s.pc + 1)
    ensures Leads(mem, bdos, s, Running(t))
  {
    t := s.(a := Or(s.a, s.c), carry := false, zero := Or(s.a, s.c) == 0, pc := s.pc + 1);
    LeadsStep(mem, bdos, s);
  }

  lemma CpN(mem: seq<byte>, bdos: Bdos, s: Cpu) returns (t: Cpu)
    requires |mem| == 65536 && s.pc + 2 < 65536 && mem[s.pc] == 0xFE
    ensures t == s.(carry := s.a < mem[s.pc + 1], zero := s.a == mem[s.pc + 1], pc := s.pc + 2)
    ensures Leads(mem, bdos, s, Running(t))
  {
    t := s.(carry := s.a < mem[s.pc + 1], zero := s.a == mem[s.pc + 1], pc := s.pc + 2);
    LeadsStep(mem, bdos, s);
  }

  lemma LdEN(mem: seq<byte>, bdos: Bdos, s: Cpu) returns (t: Cpu)
    requires |mem| == 65536 && s.pc + 2 < 65536 && mem[s.pc] == 0x1E
    ensures t == s.(e := mem[s.pc + 1], pc := s.pc + 2)
    ensures Leads(mem, bdos, s, Running(t))
  {
    t := s.(e := mem[s.pc + 1], pc := s.pc + 2);
    LeadsStep(mem, bdos, s);
  }

  lemma LdCN(mem: seq<byte>, bdos: Bdos, s: Cpu) returns (t: Cpu)
    requires |mem| == 65536 && s.pc + 2 < 65536 && mem[s.pc] == 0x0E
    ensures t == s.(c := mem[s.pc + 1], pc := s.pc + 2)
    ensures Leads(mem, bdos, s, Running(t))
  {
    t := s.(c := mem[s.pc + 1], pc := s.pc + 2);
    LeadsStep(mem, bdos, s);
  }

  lemma LdBCNN(mem: seq<byte>, bdos: Bdos, s: Cpu) returns (t: Cpu)
    requires |mem| == 65536 && s.pc + 3 < 65536 && mem[s.pc] == 0x01
    ensures t == s.(b := mem[s.pc + 2], c := mem[s.pc + 1], pc := s.pc + 3)
    ensures Leads(mem, bdos, s, Running(t))
  {
    t := s.(b := mem[s.pc + 2], c := mem[s.pc + 1], pc := s.pc + 3);
    LeadsStep(mem, bdos, s);
  }

  lemma LdDENN(mem: seq<byte>, bdos: Bdos, s: Cpu) returns (t: Cpu)
    requires |mem| == 65536 && s.pc + 3 < 65536 && mem[s.pc] == 0x11
    ensures t == s.(d := mem[s.pc + 2], e := mem[s.pc + 1], pc := s.pc + 3)
    ensures Leads(mem, bdos, s, Running(t))
  {
    t := s.(d := mem[s.pc + 2], e := mem[s.pc + 1], pc := s.pc + 3);
    LeadsStep(mem, bdos, s);
  }

  lemma LdHLNN(mem: seq<byte>, bdos: Bdos, s: Cpu) returns (t: Cpu)
    requires |mem| == 65536 && s.pc + 3 < 65536 && mem[s.pc] == 0x21
    ensures t == s.(h := mem[s.pc + 2], l := mem[s.pc + 1], pc := s.pc + 3)
    ensures Leads(mem, bdos, s, Running(t))
  {
    t := s.(h := mem[s.pc + 2], l := mem[s.pc + 1], pc := s.pc + 3);
    LeadsStep(mem, bdos, s);
  }

  lemma JrNC(mem: seq<byte>, bdos: Bdos, s: Cpu) returns (t: Cpu)
    requires |mem| == 65536 && s.pc + 2 <= 65536 && mem[s.pc] == 0x30
    ensures t == s.(pc := if s.carry then Wrap(s.pc + 2) else Relative(Wrap(s.pc + 2), mem[s.pc + 1]))
    ensures Leads(mem, bdos, s, Running(t))
  {
    t := s.(pc := if s.carry then Wrap(s.pc + 2) else Relative(Wrap(s.pc + 2), mem[s.pc + 1]));
    LeadsStep(mem, bdos, s);
  }

  lemma JrNZ(mem: seq<byte>, bdos: Bdos, s: Cpu) returns (t: Cpu)
    requires |mem| == 65536 && s.pc + 2 <= 65536 && mem[s.pc] == 0x20
    ensures t == s.(pc := if s.zero then Wrap(s.pc + 2) else Relative(Wrap(s.pc + 2), mem[s.pc + 1]))
    ensures Leads(mem, bdos, s, Running(t))
  {
    t := s.(pc := if s.zero then Wrap(s.pc + 2) else Relative(Wrap(s.pc + 2), mem[s.pc + 1]));
    LeadsStep(mem, bdos, s);
  }

  /** `CALL 5` with function 2: the character in E is printed and the registers are anything. */
  lemma ConsoleOut(mem: seq<byte>, bdos: Bdos, s: Cpu) returns (t: Cpu)
    requires |mem| == 65536 && s.pc + 3 < 65536 && s.c == 2
    requires mem[s.pc] == 0xCD && mem[s.pc + 1] == 5 && mem[s.pc + 2] == 0
    ensures t.pc == s.pc + 3 && t.out == s.out + [s.e]
    ensures Leads(mem, bdos, s, Running(t))
  {
    t := bdos(s).(pc := s.pc + 3, out := s.out + [s.e]);
    LeadsStep(mem, bdos, s);
  }

  lemma Ret(mem: seq<byte>, bdos: Bdos, s: Cpu)
    requires |mem| == 65536 && mem[s.pc] == 0xC9
    ensures Leads(mem, bdos, s, Returned(s.out))
  {
    LeadsStep(mem, bdos, s);
  }

  /** Composition of three. */
  lemma Leads3(mem: seq<byte>, bdos: Bdos, s: Cpu, t: Cpu, u: Cpu, v: State)
    requires |mem| == 65536
    requires Leads(mem, bdos, s, Running(t)) && Leads(mem, bdos, t, Running(u)) && Leads(mem, bdos, u, v)
    ensures Leads(mem, bdos, s, v)
  {
    hide Leads;
    LeadsTrans(mem, bdos, s, t, Running(u));
    LeadsTrans(mem, bdos, s, u, v);
  }
}
