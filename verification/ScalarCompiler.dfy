/** One scalar instruction: the recompiler's switch over the opcode, and what the emitted code does. */
module ScalarCompiler {
  import opened Words
  import opened HostOps
  import opened RegisterCacheModel
  import opened CacheCorrectness
  import opened Mips
  import opened Emitter

  /** How the host sees the 16-bit immediate sign-extended to a machine word. */
  function HostImm(i: Instr): Word64 { SignExtend(SImm(i)) }

  /** The branch-taken flag of a jump: it is only tested when somebody may branch into the delay slot. */
  function JumpFlag(c: Cache, next: bool): Cache { Const(c, COND_BRANCH_TAKEN, if next then 1 else 0) }

  function LinkTo(c: Cache, r: nat, pc: nat): Cache { if r == 0 then c else Const(c, r, Link(pc)) }

  function EmitSpecial(c: Cache, i: Instr, pc: nat, next: bool): Cache {
    match i.funct
    case 8 => JumpFlag(SaveIndirect(c, i.rs), next)
    case 9 => JumpFlag(LinkTo(SaveIndirect(c, i.rs), i.rd, pc), next)
    case _ =>
      if i.rd == 0 then c else
      match i.funct
      case 0 => TwoRegImm(c, Shl, Unknown, i.rd, i.rt, i.sa)
      case 2 => TwoRegImm(c, ShrU, ZExt, i.rd, i.rt, i.sa)
      case 3 => TwoRegImm(c, ShrS, SExt, i.rd, i.rt, i.sa)
      case 4 => ShiftVar(c, Shl, Unknown, i.rd, i.rt, i.rs)
      case 6 => ShiftVar(c, ShrU, ZExt, i.rd, i.rt, i.rs)
      case 7 => ShiftVar(c, ShrS, SExt, i.rd, i.rt, i.rs)
      case 32 | 33 => ThreeReg(c, Add, Unknown, i.rd, i.rs, i.rt)
      case 34 | 35 => ThreeReg(c, Sub, Unknown, i.rd, i.rs, i.rt)
      case 36 => ThreeReg(c, And, Unknown, i.rd, i.rs, i.rt)
      case 37 => ThreeReg(c, Or, Unknown, i.rd, i.rs, i.rt)
      case 38 => ThreeReg(c, Xor, Unknown, i.rd, i.rs, i.rt)
      case 39 => NorReg(c, i.rd, i.rs, i.rt)
      case 42 => ThreeReg(c, Lt, SExt, i.rd, i.rs, i.rt)
      case 43 => ThreeReg(c, LtU, ZExt, i.rd, i.rs, i.rt)
      case _ => c
  }

  function EmitImmediate(c: Cache, i: Instr): Cache {
    if i.rt == 0 then c else
    match i.op
    case 8 | 9 =>
      if i.rs == 0 then Const(c, i.rt, SImm(i)) else TwoRegImm(c, Add, Unknown, i.rt, i.rs, HostImm(i))
    case 10 => TwoRegImm(c, Lt, SExt, i.rt, i.rs, HostImm(i))
    case 11 => TwoRegImm(c, LtU, SExt, i.rt, i.rs, HostImm(i))
    case 12 => TwoRegImm(c, And, Unknown, i.rt, i.rs, i.imm)
    case 13 => if i.rs == 0 then Const(c, i.rt, i.imm) else TwoRegImm(c, Or, Unknown, i.rt, i.rs, i.imm)
    case 14 => TwoRegImm(c, Xor, Unknown, i.rt, i.rs, i.imm)
    case 15 => Const(c, i.rt, 0x1_0000 * i.imm)
    case _ => c
  }

  function EmitBranch(c: Cache, i: Instr, pc: nat, next: bool): Cache {
    match i.op
    case 1 =>
      if i.rt == 0 then TwoRegImm(c, Lt, SExt, COND_BRANCH_TAKEN, i.rs, 0)
      else if i.rt == 1 then TwoRegImm(c, Ge, SExt, COND_BRANCH_TAKEN, i.rs, 0)
      else if i.rt == 16 then LinkTo(TwoRegImm(c, Lt, SExt, COND_BRANCH_TAKEN, i.rs, 0), 31, pc)
      else if i.rt == 17 then LinkTo(TwoRegImm(c, Ge, SExt, COND_BRANCH_TAKEN, i.rs, 0), 31, pc)
      else c
    case 2 => JumpFlag(c, next)
    case 3 => JumpFlag(LinkTo(c, 31, pc), next)
    case 4 => ThreeReg(c, Eq, SExt, COND_BRANCH_TAKEN, i.rs, i.rt)
    case 5 => ThreeReg(c, Ne, SExt, COND_BRANCH_TAKEN, i.rs, i.rt)
    case 6 => if i.rs == 0 then c else TwoRegImm(c, Le, SExt, COND_BRANCH_TAKEN, i.rs, 0)
    case 7 => if i.rs == 0 then c else TwoRegImm(c, Gt, SExt, COND_BRANCH_TAKEN, i.rs, 0)
    case _ => c
  }

  /** The code for instruction i at byte address pc; next says that its delay slot carries a label. */
  function EmitInstr(c: Cache, i: Instr, pc: nat, next: bool): Cache {
    if i.op == 0 then EmitSpecial(c, i, pc, next)
    else if 1 <= i.op <= 7 then EmitBranch(c, i, pc, next)
    else EmitImmediate(c, i)
  }

  // ---- meaning ------------------------------------------------------------------------------

  predicate UsesScratch(i: Instr) {
    i.op == 0 && i.rd != 0 && (i.funct == 4 || i.funct == 6 || i.funct == 7)
  }

  function RegsOf(m: seq<Word32>): Regs
    requires VirtualOk(m)
  {
    m[..32]
  }

  /** The cacheless machine after instruction i. */
  function Effect(i: Instr, pc: nat, next: bool, m: seq<Word32>): seq<Word32>
    requires VirtualOk(m)
  {
    var g := RegsOf(m);
    DataStep(i, pc, g) + [
      FlagAfter(i, g, m[COND_BRANCH_TAKEN], next),
      if UsesScratch(i) then Count(g[i.rs]) else m[SCRATCH_REGISTER0],
      m[SCRATCH_REGISTER1],
      if IsIndirect(i) then g[i.rs] else m[INDIRECT_PC]
    ]
  }

  lemma ImmFacts(i: Instr)
    ensures IsSigned(HostImm(i)) && Low(HostImm(i)) == SImm(i)
    ensures Low(i.imm) == i.imm && Low(i.sa) == i.sa && IsSigned(0) && Low(0) == 0
  {
    ExtendedConst(SImm(i));
  }

  /** The emitted code has the instruction's effect, whatever the cache held before. */
  lemma EmitInstrOk(c: Cache, i: Instr, pc: nat, next: bool, h0: Host, m: seq<Word32>)
    requires VirtualOk(m) && Reached(c, h0, m) && Unlocked(c)
    ensures Unlocked(EmitInstr(c, i, pc, next))
    ensures Reached(EmitInstr(c, i, pc, next), h0, Effect(i, pc, next, m))
  {
    hide Reached, Unlocked, TwoRegImm, ThreeReg, ShiftVar, NorReg, Const, SaveIndirect, Alu;
    if i.op == 0 {
      SpecialOk(c, i, pc, next, h0, m);
    } else if 1 <= i.op <= 7 {
      BranchOk(c, i, pc, next, h0, m);
    } else {
      ImmediateInstrOk(c, i, pc, next, h0, m);
    }
  }

  lemma ImmediateInstrOk(c: Cache, i: Instr, pc: nat, next: bool, h0: Host, m: seq<Word32>)
    requires VirtualOk(m) && Reached(c, h0, m) && Unlocked(c) && i.op > 7
    ensures Unlocked(EmitImmediate(c, i)) && Reached(EmitImmediate(c, i), h0, Effect(i, pc, next, m))
  {
    hide Reached, Unlocked, TwoRegImm, Const, Alu, Low, SignExtend, IsSigned, Special;
    ImmFacts(i);
    var e := Effect(i, pc, next, m);
    if i.rt == 0 || !(8 <= i.op <= 15) {
      assert e == m;
    } else {
      var v := DataStep(i, pc, RegsOf(m))[i.rt];
      assert e == m[i.rt := v];
      match i.op
      case 8 | 9 =>
        if i.rs == 0 {
          AddZero(SImm(i));
          ConstOk(c, i.rt, SImm(i), h0, m);
        } else {
          TwoRegImmOk(c, Add, Unknown, i.rt, i.rs, HostImm(i), h0, m);
        }
      case 10 => TwoRegImmOk(c, Lt, SExt, i.rt, i.rs, HostImm(i), h0, m);
      case 11 => TwoRegImmOk(c, LtU, SExt, i.rt, i.rs, HostImm(i), h0, m);
      case 12 => TwoRegImmOk(c, And, Unknown, i.rt, i.rs, i.imm, h0, m);
      case 13 =>
        if i.rs == 0 {
          OrZero(i.imm);
          ConstOk(c, i.rt, i.imm, h0, m);
        } else {
          TwoRegImmOk(c, Or, Unknown, i.rt, i.rs, i.imm, h0, m);
        }
      case 14 => TwoRegImmOk(c, Xor, Unknown, i.rt, i.rs, i.imm, h0, m);
      case 15 => ConstOk(c, i.rt, 0x1_0000 * i.imm, h0, m);
    }
  }

  lemma AddZero(x: Word32)
    ensures Alu(Add, 0, x) == x
  {
  }

  lemma OrZero(x: Word32)
    ensures Alu(Or, 0, x) == x
  {
    Powers();
    OrZeroBits(x, 32);
  }

  lemma {:induction false} OrZeroBits(x: nat, n: nat)
    requires x < Pow2(n)
    ensures Bits(BOr, 0, x, n) == x
  {
    if n > 0 {
      OrZeroBits(x / 2, n - 1);
    }
  }

  lemma SpecialOk(c: Cache, i: Instr, pc: nat, next: bool, h0: Host, m: seq<Word32>)
    requires VirtualOk(m) && Reached(c, h0, m) && Unlocked(c) && i.op == 0
    ensures Unlocked(EmitSpecial(c, i, pc, next)) && Reached(EmitSpecial(c, i, pc, next), h0, Effect(i, pc, next, m))
  {
    hide Reached, Unlocked, TwoRegImm, ThreeReg, ShiftVar, NorReg, Const, SaveIndirect, Alu, Low, IsSigned;
    ImmFacts(i);
    var e := Effect(i, pc, next, m);
    if IsIndirect(i) {
      IndirectOk(c, i, pc, next, h0, m);
    } else if i.rd == 0 {
      assert e == m;
    } else if UsesScratch(i) {
      var v := DataStep(i, pc, RegsOf(m))[i.rd];
      assert e == m[SCRATCH_REGISTER0 := Count(m[i.rs])][i.rd := v];
      match i.funct
      case 4 => ShiftVarOk(c, Shl, Unknown, i.rd, i.rt, i.rs, h0, m);
      case 6 => ShiftVarOk(c, ShrU, ZExt, i.rd, i.rt, i.rs, h0, m);
      case 7 => ShiftVarOk(c, ShrS, SExt, i.rd, i.rt, i.rs, h0, m);
    } else {
      PlainSpecialOk(c, i, pc, next, h0, m);
    }
  }

  lemma PlainSpecialOk(c: Cache, i: Instr, pc: nat, next: bool, h0: Host, m: seq<Word32>)
    requires VirtualOk(m) && Reached(c, h0, m) && Unlocked(c)
    requires i.op == 0 && !IsIndirect(i) && i.rd != 0 && !UsesScratch(i)
    ensures Unlocked(EmitSpecial(c, i, pc, next)) && Reached(EmitSpecial(c, i, pc, next), h0, Effect(i, pc, next, m))
  {
    hide Reached, Unlocked, TwoRegImm, ThreeReg, NorReg, Alu, Low, IsSigned;
    ImmFacts(i);
    var e := Effect(i, pc, next, m);
    assert e == m[i.rd := DataStep(i, pc, RegsOf(m))[i.rd]];
    match i.funct
    case 0 => TwoRegImmOk(c, Shl, Unknown, i.rd, i.rt, i.sa, h0, m);
    case 2 => TwoRegImmOk(c, ShrU, ZExt, i.rd, i.rt, i.sa, h0, m);
    case 3 => TwoRegImmOk(c, ShrS, SExt, i.rd, i.rt, i.sa, h0, m);
    case 32 | 33 => ThreeRegOk(c, Add, Unknown, i.rd, i.rs, i.rt, h0, m);
    case 34 | 35 => ThreeRegOk(c, Sub, Unknown, i.rd, i.rs, i.rt, h0, m);
    case 36 => ThreeRegOk(c, And, Unknown, i.rd, i.rs, i.rt, h0, m);
    case 37 => ThreeRegOk(c, Or, Unknown, i.rd, i.rs, i.rt, h0, m);
    case 38 => ThreeRegOk(c, Xor, Unknown, i.rd, i.rs, i.rt, h0, m);
    case 39 => NorRegOk(c, i.rd, i.rs, i.rt, h0, m);
    case 42 => ThreeRegOk(c, Lt, SExt, i.rd, i.rs, i.rt, h0, m);
    case 43 => ThreeRegOk(c, LtU, ZExt, i.rd, i.rs, i.rt, h0, m);
    case _ =>
      assert e == m;
  }

  lemma IndirectOk(c: Cache, i: Instr, pc: nat, next: bool, h0: Host, m: seq<Word32>)
    requires VirtualOk(m) && Reached(c, h0, m) && Unlocked(c) && IsIndirect(i)
    ensures Unlocked(EmitSpecial(c, i, pc, next)) && Reached(EmitSpecial(c, i, pc, next), h0, Effect(i, pc, next, m))
  {
    hide Reached, Unlocked, Const, SaveIndirect;
    SaveIndirectOk(c, i.rs, h0, m);
    var c1, m1 := SaveIndirect(c, i.rs), m[INDIRECT_PC := m[i.rs]];
    var c2, m2 := c1, m1;
    if i.funct == 9 && i.rd != 0 {
      ConstOk(c1, i.rd, Link(pc), h0, m1);
      c2, m2 := Const(c1, i.rd, Link(pc)), m1[i.rd := Link(pc)];
    }
    ConstOk(c2, COND_BRANCH_TAKEN, Truth(next), h0, m2);
    assert Effect(i, pc, next, m) == m2[COND_BRANCH_TAKEN := Truth(next)];
  }

  lemma BranchOk(c: Cache, i: Instr, pc: nat, next: bool, h0: Host, m: seq<Word32>)
    requires VirtualOk(m) && Reached(c, h0, m) && Unlocked(c) && 1 <= i.op <= 7
    ensures Unlocked(EmitBranch(c, i, pc, next)) && Reached(EmitBranch(c, i, pc, next), h0, Effect(i, pc, next, m))
  {
    hide Reached, Unlocked, TwoRegImm, ThreeReg, Const, Low, IsSigned;
    if i.op == 1 {
      RegImmOk(c, i, pc, next, h0, m);
    } else if i.op == 2 || i.op == 3 {
      JumpOk(c, i, pc, next, h0, m);
    } else {
      CompareOk(c, i, pc, next, h0, m);
    }
  }

  lemma JumpOk(c: Cache, i: Instr, pc: nat, next: bool, h0: Host, m: seq<Word32>)
    requires VirtualOk(m) && Reached(c, h0, m) && Unlocked(c) && IsJump(i)
    ensures Unlocked(EmitBranch(c, i, pc, next)) && Reached(EmitBranch(c, i, pc, next), h0, Effect(i, pc, next, m))
  {
    hide Reached, Unlocked, Const;
    var c1, m1 := c, m;
    if i.op == 3 {
      ConstOk(c, 31, Link(pc), h0, m);
      c1, m1 := Const(c, 31, Link(pc)), m[31 := Link(pc)];
    }
    ConstOk(c1, COND_BRANCH_TAKEN, Truth(next), h0, m1);
    assert Effect(i, pc, next, m) == m1[COND_BRANCH_TAKEN := Truth(next)];
  }

  lemma CompareOk(c: Cache, i: Instr, pc: nat, next: bool, h0: Host, m: seq<Word32>)
    requires VirtualOk(m) && Reached(c, h0, m) && Unlocked(c) && 4 <= i.op <= 7
    ensures Unlocked(EmitBranch(c, i, pc, next)) && Reached(EmitBranch(c, i, pc, next), h0, Effect(i, pc, next, m))
  {
    hide Reached, Unlocked, TwoRegImm, ThreeReg, Low, IsSigned, Alu, Effect;
    ImmFacts(i);
    CompareEffect(i, pc, next, m);
    match i.op
    case 4 => ThreeRegOk(c, Eq, SExt, COND_BRANCH_TAKEN, i.rs, i.rt, h0, m);
    case 5 => ThreeRegOk(c, Ne, SExt, COND_BRANCH_TAKEN, i.rs, i.rt, h0, m);
    case 6 =>
      if i.rs != 0 {
        TwoRegImmOk(c, Le, SExt, COND_BRANCH_TAKEN, i.rs, 0, h0, m);
      }
    case 7 =>
      if i.rs != 0 {
        TwoRegImmOk(c, Gt, SExt, COND_BRANCH_TAKEN, i.rs, 0, h0, m);
      }
  }

  /** A comparison changes the branch flag only, and not even that when it tests register 0. */
  lemma CompareEffect(i: Instr, pc: nat, next: bool, m: seq<Word32>)
    requires VirtualOk(m) && 4 <= i.op <= 7
    ensures Effect(i, pc, next, m) == match i.op
      case 4 => m[COND_BRANCH_TAKEN := Alu(Eq, m[i.rs], m[i.rt])]
      case 5 => m[COND_BRANCH_TAKEN := Alu(Ne, m[i.rs], m[i.rt])]
      case 6 => if i.rs == 0 then m else m[COND_BRANCH_TAKEN := Alu(Le, m[i.rs], 0)]
      case _ => if i.rs == 0 then m else m[COND_BRANCH_TAKEN := Alu(Gt, m[i.rs], 0)]
  {
    hide Alu;
    CompareMeaning(m[i.rs], m[i.rt]);
    CompareMeaning(m[i.rs], 0);
    var e := Effect(i, pc, next, m);
    assert e == m[COND_BRANCH_TAKEN := e[COND_BRANCH_TAKEN]];
  }

  lemma CompareMeaning(a: Word32, b: Word32)
    ensures Alu(Eq, a, b) == Truth(W32.Read(a) == W32.Read(b))
    ensures Alu(Ne, a, b) == Truth(W32.Read(a) != W32.Read(b))
    ensures Alu(Le, a, b) == Truth(W32.Read(a) <= W32.Read(b))
    ensures Alu(Gt, a, b) == Truth(W32.Read(a) > W32.Read(b))
    ensures W32.Read(0) == 0
  {
  }

  lemma RegImmOk(c: Cache, i: Instr, pc: nat, next: bool, h0: Host, m: seq<Word32>)
    requires VirtualOk(m) && Reached(c, h0, m) && Unlocked(c) && i.op == 1
    ensures Unlocked(EmitBranch(c, i, pc, next)) && Reached(EmitBranch(c, i, pc, next), h0, Effect(i, pc, next, m))
  {
    hide Reached, Unlocked, TwoRegImm, Const, Low, IsSigned;
    ImmFacts(i);
    var e := Effect(i, pc, next, m);
    if IsRelative(i) {
      var f := if i.rt == 0 || i.rt == 16 then Lt else Ge;
      TwoRegImmOk(c, f, SExt, COND_BRANCH_TAKEN, i.rs, 0, h0, m);
      var m1 := m[COND_BRANCH_TAKEN := Alu(f, m[i.rs], 0)];
      if i.rt == 16 || i.rt == 17 {
        ConstOk(TwoRegImm(c, f, SExt, COND_BRANCH_TAKEN, i.rs, 0), 31, Link(pc), h0, m1);
        assert e == m1[31 := Link(pc)];
      } else {
        assert e == m1;
      }
    } else {
      assert e == m;
    }
  }

  // ---- whole programs -----------------------------------------------------------------------

  /** Straight-line code: the recompiler flushes the cache before every instruction; here each may or may not. */
  datatype Step = Step(flush: bool, instr: Instr, pc: nat, next: bool)

  function Before(c: Cache, s: Step): Cache { if s.flush then FlushAll(c) else c }

  function Compile(program: seq<Step>, n: nat): (c: Cache) {
    if program == [] then Cache(seq(n, _ => BLANK), 0, [])
    else
      var last := program[|program| - 1];
      EmitInstr(Before(Compile(program[..|program| - 1], n), last), last.instr, last.pc, last.next)
  }

  /** The finished region: everything modified is written back. */
  function Compiled(program: seq<Step>, n: nat): seq<Op> { FlushAll(Compile(program, n)).code }

  function Interpret(program: seq<Step>, g: Regs): Regs {
    if program == [] then g
    else
      var last := program[|program| - 1];
      DataStep(last.instr, last.pc, Interpret(program[..|program| - 1], g))
  }

  function Start(h0: Host): seq<Word32>
    requires |h0.sr| == 33
  {
    [0] + h0.sr[1..] + [0, 0, Low(h0.ind)]
  }

  lemma {:induction false} CompileOk(program: seq<Step>, n: nat, h0: Host) returns (m: seq<Word32>)
    requires n >= 3 && HostOk(h0, n)
    ensures VirtualOk(m) && Unlocked(Compile(program, n)) && Reached(Compile(program, n), h0, m)
    ensures RegsOf(m) == Interpret(program, RegsOf(Start(h0)))
  {
    if program == [] {
      m := Start(h0);
      StartOk(n, h0);
    } else {
      var last, c := program[|program| - 1], Compile(program[..|program| - 1], n);
      var m0 := CompileOk(program[..|program| - 1], n, h0);
      FlushAllOk(c, h0, m0);
      EmitInstrOk(Before(c, last), last.instr, last.pc, last.next, h0, m0);
      m := Effect(last.instr, last.pc, last.next, m0);
      assert m[..32] == DataStep(last.instr, last.pc, RegsOf(m0));
    }
  }

  lemma StartOk(n: nat, h0: Host)
    requires n >= 3 && HostOk(h0, n)
    ensures Reached(Cache(seq(n, _ => BLANK), 0, []), h0, Start(h0))
  {
  }

  /** Main result: for every program, register count of at least three and initial machine state,
      running the compiled code leaves in memory exactly the registers MIPS interpretation gives. */
  lemma {:induction false} CompiledCodeIsCorrect(program: seq<Step>, n: nat, h0: Host)
    requires n >= 3 && HostOk(h0, n) && h0.sr[0] == 0
    ensures forall r :: 1 <= r < 32 ==> Exec(Compiled(program, n), h0).sr[r] == Interpret(program, h0.sr[..32])[r]
  {
    var m := CompileOk(program, n, h0);
    FlushAllOk(Compile(program, n), h0, m);
    assert RegsOf(Start(h0)) == h0.sr[..32];
    forall r | 1 <= r < 32 ensures Exec(Compiled(program, n), h0).sr[r] == Interpret(program, h0.sr[..32])[r] {
      assert m[..32][r] == m[r];
    }
  }
}
