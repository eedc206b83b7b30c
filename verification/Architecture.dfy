/** What the reference machine does, in plain arithmetic: the meaning of every scalar instruction, branch and call. */
module Architecture {
  import opened Words
  import opened Options
  import opened HostOps
  import opened Operators
  import opened Mips
  import opened RegionCode

  function Signed32(x: Word32): int { if x < 0x8000_0000 then x else x - 0x1_0000_0000 }

  /** The immediate as a signed number. */
  function Signed16(imm: nat): int { if imm < 0x8000 then imm else imm - 0x1_0000 }

  lemma AluMeans(f: Fn, a: Word32, b: Word32)
    ensures var n, r := b % 32, Alu(f, a, b);
      match f
      case Add => r == (a + b) % 0x1_0000_0000
      case Sub => r == (a - b) % 0x1_0000_0000
      case And => Bitwisely(BAnd, r, a, b, 32)
      case Or => Bitwisely(BOr, r, a, b, 32)
      case Xor => Bitwisely(BXor, r, a, b, 32)
      case Shl => r == a * Pow2(n) % 0x1_0000_0000
      case ShrU => r == a / Pow2(n)
      case ShrS => Signed32(r) == Signed32(a) / Pow2(n)
      case Lt => r == if Signed32(a) < Signed32(b) then 1 else 0
      case LtU => r == if a < b then 1 else 0
      case _ => true
  {
    hide Eval, Pow2, Bitwisely;
    OperatorMeans(f, a, b, W32);
  }

  /** Shifts by a constant and by a register's low five bits. */
  lemma ShiftMeans(i: Instr, pc: nat, g: Regs)
    requires i.op == 0 && i.rd != 0
    ensures var s: int, t: int, v: int := g[i.rs], g[i.rt], DataStep(i, pc, g)[i.rd];
      match i.funct
      case 0 => v == t * Pow2(i.sa) % 0x1_0000_0000
      case 2 => v == t / Pow2(i.sa)
      case 3 => Signed32(v) == Signed32(t) / Pow2(i.sa)
      case 4 => v == t * Pow2(s % 32) % 0x1_0000_0000
      case 6 => v == t / Pow2(s % 32)
      case 7 => Signed32(v) == Signed32(t) / Pow2(s % 32)
      case _ => true
  {
    hide Alu, Pow2, Bitwisely, Signed32;
    var s, t := g[i.rs], g[i.rt];
    SmallRemainder(i.sa);
    SmallRemainder(Count(s));
    match i.funct
    case 0 => AluMeans(Shl, t, i.sa);
    case 2 => AluMeans(ShrU, t, i.sa);
    case 3 => AluMeans(ShrS, t, i.sa);
    case 4 => AluMeans(Shl, t, Count(s));
    case 6 => AluMeans(ShrU, t, Count(s));
    case 7 => AluMeans(ShrS, t, Count(s));
    case _ =>
  }

  lemma SmallRemainder(n: nat)
    requires n < 32
    ensures n % 32 == n
  {
  }

  /** Sums, differences, bitwise operators and comparisons of two registers. */
  lemma SpecialMeans(i: Instr, pc: nat, g: Regs)
    requires i.op == 0 && i.rd != 0
    ensures var s: int, t: int, v: int := g[i.rs], g[i.rt], DataStep(i, pc, g)[i.rd];
      match i.funct
      case 32 | 33 => v == (s + t) % 0x1_0000_0000
      case 34 | 35 => v == (s - t) % 0x1_0000_0000
      case 36 => Bitwisely(BAnd, v, s, t, 32)
      case 37 => Bitwisely(BOr, v, s, t, 32)
      case 38 => Bitwisely(BXor, v, s, t, 32)
      case 39 => forall k :: 0 <= k < 32 ==> (BitAt(v, k) <==> !BitAt(s, k) && !BitAt(t, k))
      case 42 => v == if Signed32(s) < Signed32(t) then 1 else 0
      case 43 => v == if s < t then 1 else 0
      case _ => true
  {
    hide Alu, Pow2, Bitwisely, Signed32, BitAt, Link;
    var s, t := g[i.rs], g[i.rt];
    match i.funct
    case 32 | 33 => AluMeans(Add, s, t);
    case 34 | 35 => AluMeans(Sub, s, t);
    case 36 => AluMeans(And, s, t);
    case 37 => AluMeans(Or, s, t);
    case 38 => AluMeans(Xor, s, t);
    case 39 => NorMeans(s, t);
    case 42 => AluMeans(Lt, s, t);
    case 43 => AluMeans(LtU, s, t);
    case _ =>
  }

  lemma NorMeans(s: Word32, t: Word32)
    ensures forall k :: 0 <= k < 32 ==>
      (BitAt(0xFFFF_FFFF - Alu(Or, s, t), k) <==> !BitAt(s, k) && !BitAt(t, k))
  {
    hide BitAt, Alu;
    AluMeans(Or, s, t);
    Powers();
    forall k | 0 <= k < 32
      ensures BitAt(0xFFFF_FFFF - Alu(Or, s, t), k) <==> !BitAt(s, k) && !BitAt(t, k)
    {
      FlippedAt(Alu(Or, s, t), 32, k);
      assert BitAt(Alu(Or, s, t), k) <==> BitOf(BOr, BitAt(s, k), BitAt(t, k));
    }
  }

  /** Instructions with an immediate: sums and comparisons extend it by its sign, bitwise operators by zeroes. */
  lemma ImmediateMeans(i: Instr, pc: nat, g: Regs)
    requires 8 <= i.op <= 15 && i.rt != 0
    ensures var s: int, v: int := g[i.rs], DataStep(i, pc, g)[i.rt];
      match i.op
      case 8 | 9 => v == (s + Signed16(i.imm)) % 0x1_0000_0000
      case 10 => v == if Signed32(s) < Signed16(i.imm) then 1 else 0
      case 11 => v == if s < Signed16(i.imm) % 0x1_0000_0000 then 1 else 0
      case 12 => Bitwisely(BAnd, v, s, i.imm, 32)
      case 13 => Bitwisely(BOr, v, s, i.imm, 32)
      case 14 => Bitwisely(BXor, v, s, i.imm, 32)
      case _ => v == i.imm * 0x1_0000
  {
    hide Alu, Pow2, Bitwisely;
    var s := g[i.rs];
    match i.op
    case 8 | 9 =>
      AluMeans(Add, s, SImm(i));
      SameSum(s, SImm(i), Signed16(i.imm));
    case 10 => AluMeans(Lt, s, SImm(i));
    case 11 => AluMeans(LtU, s, SImm(i));
    case 12 => AluMeans(And, s, i.imm);
    case 13 => AluMeans(Or, s, i.imm);
    case 14 => AluMeans(Xor, s, i.imm);
    case 15 =>
  }

  lemma SameSum(s: int, x: int, y: int)
    requires x == y || x == y + 0x1_0000_0000
    ensures (s + x) % 0x1_0000_0000 == (s + y) % 0x1_0000_0000
  {
  }

  /** The register an instruction below the coprocessor range may write; 0 for none. */
  function Target(i: Instr): nat {
    match i.op
    case 0 => if i.funct == 8 || i.funct == 13 then 0 else i.rd
    case 1 => if i.rt == 16 || i.rt == 17 then 31 else 0
    case 3 => 31
    case 8 | 9 | 10 | 11 | 12 | 13 | 14 | 15 => i.rt
    case _ => 0
  }

  /** It changes no other register. */
  lemma OnlyTarget(i: Instr, pc: nat, g: Regs, r: nat)
    requires i.op < 16 && r < 32 && (r == 0 || r != Target(i))
    ensures DataStep(i, pc, g)[r] == g[r]
  {
    hide Alu, Link;
  }

  // ---- branches -----------------------------------------------------------------------------

  /** Where a branch leads, and when: jumps always, to the word address in their low bits or in a register;
      the others by a signed offset from the next instruction, when the comparison holds. */
  lemma BranchMeans<E>(p: Guest<E>, m: Machine<E>)
    requires GuestOk(p) && m.pc < IMEM_WORDS
    ensures var i := p.imem[m.pc];
      var s, t, next := m.g[i.rs], m.g[i.rt], MachineStep(p, m).m.pending;
      var relative := Some((m.pc + 1 + Signed16(i.imm)) % 1024);
      match i.op
      case 0 => next == if i.funct == 8 || i.funct == 9 then Some(s % 4096 / 4) else None
      case 1 =>
        if i.rt == 0 || i.rt == 16 then next == if Signed32(s) < 0 then relative else None
        else if i.rt == 1 || i.rt == 17 then next == if Signed32(s) >= 0 then relative else None
        else next == None
      case 2 | 3 => next == Some(i.imm % 1024)
      case 4 => next == if s == t then relative else None
      case 5 => next == if s != t then relative else None
      case 6 => next == if Signed32(s) <= 0 then relative else None
      case 7 => next == if Signed32(s) > 0 then relative else None
      case _ => next == None
  {
    hide Raw, DataStep, MachineStep;
    var i := p.imem[m.pc];
    PendingIs(p, m);
    TargetMeans(i, m.pc);
    ZeroRegister(m.g);
  }

  lemma ZeroRegister(g: Regs)
    ensures g[0] == 0
  {
  }

  lemma PendingIs<E>(p: Guest<E>, m: Machine<E>)
    requires GuestOk(p) && m.pc < IMEM_WORDS
    ensures var i := p.imem[m.pc];
      MachineStep(p, m).m.pending == if Branches(i) && Taken(i, m.g) then Some(TargetOf(i, m.pc, m.g)) else None
  {
  }

  lemma TargetMeans(i: Instr, w: nat)
    ensures IsJump(i) ==> WordTarget(i, w) == i.imm % 1024
    ensures !IsJump(i) ==> WordTarget(i, w) == (w + 1 + Signed16(i.imm)) % 1024
  {
    var high := i.op * 0x1_0000 + i.rs * 0x800 + i.rt * 0x40;
    assert Raw(i) == i.imm + 1024 * high;
    Whole(i.imm, high);
    Whole(w + 1 + Signed16(i.imm), high + if i.imm < 0x8000 then 0 else 64);
  }

  lemma Whole(x: int, k: int)
    ensures (x + 1024 * k) % 1024 == x % 1024
  {
  }

  /** The state after a step: the instructions below the coprocessor range act on registers alone; a break stops
      the machine, and a move to or from coprocessor 0 may. */
  lemma StepMeans<E>(p: Guest<E>, m: Machine<E>)
    requires GuestOk(p) && m.pc < IMEM_WORDS
    ensures var i, s := p.imem[m.pc], MachineStep(p, m);
      var o := p.other(i, m.g, m.e);
      var breaks := i.op == 0 && i.funct == 13;
      var asks := i.op == 16 && (i.rs == 0 || i.rs == 4) && o.mode != Continue;
      && s.m.pc == (if m.pending.Some? then m.pending.value else (m.pc + 1) % 1024)
      && (if i.op < 16 then s.m.e == m.e && (breaks ==> s.m.g == m.g) else s.m.g == o.g && s.m.e == o.e)
      && (i.op < 16 && !breaks ==> s.m.g == DataStep(i, 4 * m.pc, m.g))
      && (s.Stopped? <==> breaks || asks)
      && (breaks ==> s.mode == Break) && (asks ==> s.mode == o.mode)
  {
    hide DataStep, Raw;
  }

  // ---- calls and returns ----------------------------------------------------------------------

  /** Jumps and branches that leave a return address; a jump through a register only if it names one. */
  predicate Calls(i: Instr) {
    i.op == 3 || (i.op == 1 && (i.rt == 16 || i.rt == 17)) || (i.op == 0 && i.funct == 9 && i.rd != 0)
  }

  /** The return address is that of the instruction behind the delay slot. */
  lemma CallMeans<E>(p: Guest<E>, m: Machine<E>)
    requires GuestOk(p) && m.pc < IMEM_WORDS && Calls(p.imem[m.pc])
    ensures var v := MachineStep(p, m).m.g[Target(p.imem[m.pc])];
      v < 0x1000 && v % 4 == 0 && v / 4 == (m.pc + 2) % IMEM_WORDS
  {
    hide Alu;
    assert 4 * m.pc + 8 == 4 * (m.pc + 2);
    QuadMod(m.pc + 2);
  }

  /** A jump through a register that holds what a call left there leads, behind its own delay slot, to the
      instruction behind the delay slot of the call. */
  lemma ReturnMeans<E>(p: Guest<E>, m: Machine<E>, n: Machine<E>)
    requires GuestOk(p) && m.pc < IMEM_WORDS && n.pc < IMEM_WORDS && Calls(p.imem[m.pc])
    requires p.imem[n.pc].op == 0 && p.imem[n.pc].funct == 8 && n.pending.None?
    requires n.g[p.imem[n.pc].rs] == MachineStep(p, m).m.g[Target(p.imem[m.pc])]
    ensures var d := MachineStep(p, n).m;
      && d.pc == (n.pc + 1) % IMEM_WORDS && d.pending == Some((m.pc + 2) % IMEM_WORDS)
      && MachineStep(p, d).m.pc == (m.pc + 2) % IMEM_WORDS
  {
    hide Raw, WordTarget, DataStep, Signed32, Signed16, Calls, Target;
    CallMeans(p, m);
    BranchMeans(p, n);
  }
}
