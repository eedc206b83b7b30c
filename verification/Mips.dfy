/** The scalar instructions of the RSP: encoding fields, 32-bit semantics and branch conditions. */
module Mips {
  import opened Words
  import opened HostOps

  /** An instruction word by its fields; the immediate overlays rd, sa and funct. */
  datatype Fields = Fields(op: nat, rs: nat, rt: nat, rd: nat, sa: nat, funct: nat, imm: nat)

  predicate WellFormed(i: Fields) {
    && i.op < 64 && i.rs < 32 && i.rt < 32 && i.rd < 32 && i.sa < 32 && i.funct < 64
    && i.imm == 2048 * i.rd + 64 * i.sa + i.funct
  }

  type Instr = i: Fields | WellFormed(i) witness Fields(0, 0, 0, 0, 0, 0, 0)

  type Regs = g: seq<Word32> | |g| == 32 && g[0] == 0 witness seq(32, _ => 0)

  /** The immediate sign-extended to 32 bits. */
  function SImm(i: Instr): Word32 {
    if i.imm < 0x8000 then i.imm else i.imm + 0xFFFF_0000
  }

  function Set(g: Regs, r: nat, v: Word32): Regs
    requires r < 32
  {
    if r == 0 then g else g[r := v]
  }

  /** The return address of a linking branch at byte address pc. */
  function Link(pc: nat): Word32 { (pc + 8) % 0x1000 }

  function Special(i: Instr, pc: nat, g: Regs): Regs {
    var s, t := g[i.rs], g[i.rt];
    match i.funct
    case 0 => Set(g, i.rd, Alu(Shl, t, i.sa))
    case 2 => Set(g, i.rd, Alu(ShrU, t, i.sa))
    case 3 => Set(g, i.rd, Alu(ShrS, t, i.sa))
    case 4 => Set(g, i.rd, Alu(Shl, t, Count(s)))
    case 6 => Set(g, i.rd, Alu(ShrU, t, Count(s)))
    case 7 => Set(g, i.rd, Alu(ShrS, t, Count(s)))
    case 9 => Set(g, i.rd, Link(pc))
    case 32 | 33 => Set(g, i.rd, Alu(Add, s, t))
    case 34 | 35 => Set(g, i.rd, Alu(Sub, s, t))
    case 36 => Set(g, i.rd, Alu(And, s, t))
    case 37 => Set(g, i.rd, Alu(Or, s, t))
    case 38 => Set(g, i.rd, Alu(Xor, s, t))
    case 39 => Set(g, i.rd, TWO_32 - 1 - Alu(Or, s, t))
    case 42 => Set(g, i.rd, Alu(Lt, s, t))
    case 43 => Set(g, i.rd, Alu(LtU, s, t))
    case _ => g
  }

  /** Registers after the instruction at byte address pc, delay slots and branching aside. */
  function DataStep(i: Instr, pc: nat, g: Regs): Regs {
    var s := g[i.rs];
    match i.op
    case 0 => Special(i, pc, g)
    case 1 => if i.rt == 16 || i.rt == 17 then Set(g, 31, Link(pc)) else g
    case 3 => Set(g, 31, Link(pc))
    case 8 | 9 => Set(g, i.rt, Alu(Add, s, SImm(i)))
    case 10 => Set(g, i.rt, Alu(Lt, s, SImm(i)))
    case 11 => Set(g, i.rt, Alu(LtU, s, SImm(i)))
    case 12 => Set(g, i.rt, Alu(And, s, i.imm))
    case 13 => Set(g, i.rt, Alu(Or, s, i.imm))
    case 14 => Set(g, i.rt, Alu(Xor, s, i.imm))
    case 15 => Set(g, i.rt, 0x1_0000 * i.imm)
    case _ => g
  }

  predicate IsIndirect(i: Instr) { i.op == 0 && (i.funct == 8 || i.funct == 9) }

  predicate IsJump(i: Instr) { i.op == 2 || i.op == 3 }

  predicate IsRelative(i: Instr) {
    || (i.op == 1 && (i.rt == 0 || i.rt == 1 || i.rt == 16 || i.rt == 17))
    || 4 <= i.op <= 7
  }

  predicate IsBranch(i: Instr) { IsIndirect(i) || IsJump(i) || IsRelative(i) }

  /** Whether a branch is taken; jumps always are. */
  predicate Taken(i: Instr, g: Regs) {
    var s, t := W32.Read(g[i.rs]), W32.Read(g[i.rt]);
    if !IsRelative(i) then true
    else match i.op
      case 1 => if i.rt == 0 || i.rt == 16 then s < 0 else s >= 0
      case 4 => s == t
      case 5 => s != t
      case 6 => s <= 0
      case _ => s > 0
  }

  /** An instruction with a delay slot; the test for more than zero never branches on register 0. */
  predicate Branches(i: Instr) { IsBranch(i) && !(i.op == 7 && i.rs == 0) }

  /** The test for at most zero always branches on register 0. */
  predicate IsBlezZero(i: Instr) { i.op == 6 && i.rs == 0 }

  /** The branch flag after i: comparisons record whether the branch is taken, jumps whether the flag will be tested. */
  function FlagAfter(i: Instr, g: Regs, flag: nat, next: bool): (r: nat)
    ensures r == flag || r <= 1
  {
    if IsJump(i) || IsIndirect(i) then Truth(next)
    else if Branches(i) && !IsBlezZero(i) then Truth(Taken(i, g))
    else flag
  }
}
