/** The register cache as the recompiler runs it: an entry array updated in place while code is appended. */
module RegisterCacheClass {
  import opened Words
  import opened HostOps
  import opened RegisterCacheModel
  import opened CacheCorrectness
  import opened Mips
  import opened Emitter
  import opened ScalarCompiler

  class RegisterCache {
    const entries: array<Entry>
    var timestamp: nat
    var code: seq<Op>

    ghost function Model(): Cache
      reads this, entries
    {
      Cache(entries[..], timestamp, code)
    }

    constructor (n: nat)
      ensures fresh(entries) && entries.Length == n
      ensures Model() == Cache(seq(n, _ => BLANK), 0, [])
    {
      entries := new Entry[n](_ => BLANK);
      timestamp, code := 0, [];
      new;
      assert entries[..] == seq(n, _ => BLANK);
    }

    method FindLiveMipsRegister(r: nat) returns (k: nat)
      ensures k == FindLive(entries[..], r)
    {
      k := 0;
      while k < entries.Length && !Holds(entries[k], r)
        invariant k <= entries.Length
        invariant forall j :: 0 <= j < k ==> !Holds(entries[j], r)
      {
        k := k + 1;
      }
      assert FindLive(entries[..], r) >= k;
    }

    method FindFreeRegister() returns (k: nat)
      ensures k == FindFree(entries[..])
    {
      k := 0;
      while k < entries.Length && entries[k].live
        invariant k <= entries.Length
        invariant forall j :: 0 <= j < k ==> entries[j].live
      {
        k := k + 1;
      }
      assert FindFree(entries[..]) >= k;
    }

    method FindOldestUnlockedRegister() returns (best: nat)
      ensures best == FindOldest(entries[..], entries.Length)
    {
      best := entries.Length;
      for i := 0 to entries.Length
        invariant best == FindOldest(entries[..], i)
      {
        if entries[i].live && entries[i].locks == 0 {
          if best == entries.Length || entries[i].timestamp < entries[best].timestamp {
            best := i;
          }
        }
      }
    }

    method FindRegister(r: nat) returns (k: nat)
      ensures k == Find(entries[..], r)
    {
      k := FindLiveMipsRegister(r);
      if k == entries.Length {
        k := FindFreeRegister();
      }
      if k == entries.Length {
        k := FindOldestUnlockedRegister();
      }
    }

    method Append(op: Op)
      modifies this`code
      ensures Model() == Emit(old(Model()), op)
    {
      code := code + [op];
    }

    method Write(k: nat, e: Entry)
      requires k < entries.Length
      modifies entries
      ensures Model() == old(Model()).(entries := old(Model()).entries[k := e])
    {
      entries[k] := e;
    }

    method Evict(k: nat)
      requires k < entries.Length
      modifies this`code, entries
      ensures Model() == Evicted(old(Model()), k)
    {
      if entries[k].live && entries[k].modified {
        if entries[k].mips <= COND_BRANCH_TAKEN {
          Append(Store(entries[k].mips, k));
        }
        Write(k, entries[k].(modified := false));
      }
    }

    method TouchEntry(k: nat)
      requires k < entries.Length
      modifies this`timestamp, entries
      ensures Model() == Touch(old(Model()), k)
    {
      timestamp := Tick(timestamp);
      Write(k, entries[k].(timestamp := timestamp, locks := entries[k].locks + 1));
    }

    // A call that finds no register, which the source asserts away, leaves the cache alone here;
    // CacheCorrectness and Emitter show that the emitters never make one.

    /** The three loads: without extension (Unknown), sign-extended, zero-extended. */
    method LoadMipsRegister(r: nat, ext: Sign) returns (k: nat)
      modifies this, entries
      ensures k == Find(old(entries[..]), r)
      ensures Model() == Take(old(Model()), r, ext)
    {
      k := FindRegister(r);
      if k == entries.Length {
        return;
      }
      var e := entries[k];
      if !Holds(e, r) {
        Evict(k);
        Append(Fetch(k, r, ext));
        Write(k, e.(mips := r, live := true, modified := false, sign := if ext.ZExt? then ZExt else SExt));
      } else if !ext.Unknown? && e.sign != ext {
        if r != 0 {
          Append(if ext.SExt? then ExtendSigned(k) else ExtendUnsigned(k));
        }
        Write(k, e.(sign := ext));
      }
      TouchEntry(k);
    }

    method ModifyMipsRegister(r: nat) returns (k: nat)
      modifies this, entries
      ensures k == Find(old(entries[..]), r)
      ensures Model() == Claim(old(Model()), r)
    {
      k := FindRegister(r);
      if k == entries.Length {
        return;
      }
      var e := entries[k];
      if e.mips != r {
        Evict(k);
      }
      Write(k, e.(mips := r, live := true, sign := Unknown, modified := true));
      TouchEntry(k);
    }

    method ImmediateMipsRegister(r: nat, v: Word64)
      modifies this, entries
      ensures Model() == Put(old(Model()), r, v)
    {
      var k := ModifyMipsRegister(r);
      if k < entries.Length {
        Append(MovI(k, v));
        Write(k, entries[k].(sign := SExt));
      }
    }

    method UnlockMipsRegister(r: nat)
      modifies entries
      ensures Model() == Release(old(Model()), r)
    {
      var k := FindLiveMipsRegister(r);
      if k < entries.Length && entries[k].locks > 0 {
        Write(k, entries[k].(locks := entries[k].locks - 1));
      }
    }

    method FlushRegisterWindow()
      modifies this, entries
      ensures Model() == FlushAll(old(Model()))
    {
      ghost var c := Model();
      var i := 0;
      while i < entries.Length
        invariant i <= entries.Length
        invariant FlushFrom(Model(), i, entries.Length) == FlushFrom(c, 0, entries.Length)
      {
        if entries[i].live {
          Evict(i);
          Write(i, BLANK);
        }
        i := i + 1;
      }
      timestamp := 0;
    }

    method EmitTwoRegImm(f: Fn, ext: Sign, dst: nat, src: nat, imm: Word64)
      modifies this, entries
      ensures Model() == TwoRegImm(old(Model()), f, ext, dst, src, imm)
    {
      hide Take, Claim, Release, Find;
      var a := LoadMipsRegister(src, ext);
      var d := ModifyMipsRegister(dst);
      Append(OpI(f, d, a, imm));
      UnlockMipsRegister(src);
      UnlockMipsRegister(dst);
    }

    method EmitThreeReg(f: Fn, ext: Sign, dst: nat, x: nat, y: nat)
      modifies this, entries
      ensures Model() == ThreeReg(old(Model()), f, ext, dst, x, y)
    {
      hide Take, Claim, Release, Find;
      var a := LoadMipsRegister(x, ext);
      var b := LoadMipsRegister(y, ext);
      var d := ModifyMipsRegister(dst);
      Append(Op3(f, d, a, b));
      UnlockMipsRegister(x);
      UnlockMipsRegister(y);
      UnlockMipsRegister(dst);
    }

    method EmitShiftVar(f: Fn, ext: Sign, rd: nat, rt: nat, rs: nat)
      modifies this, entries
      ensures Model() == ShiftVar(old(Model()), f, ext, rd, rt, rs)
    {
      hide Take, Claim, Release, Find;
      var a := LoadMipsRegister(rt, ext);
      var b := LoadMipsRegister(rs, Unknown);
      var s := ModifyMipsRegister(SCRATCH_REGISTER0);
      Append(OpI(And, s, b, 31));
      UnlockMipsRegister(rs);
      var d := ModifyMipsRegister(rd);
      Append(Op3(f, d, a, s));
      UnlockMipsRegister(rt);
      UnlockMipsRegister(rd);
      UnlockMipsRegister(SCRATCH_REGISTER0);
    }

    method EmitNor(rd: nat, rs: nat, rt: nat)
      modifies this, entries
      ensures Model() == NorReg(old(Model()), rd, rs, rt)
    {
      hide Take, Claim, Release, Find;
      var a := LoadMipsRegister(rt, Unknown);
      var b := LoadMipsRegister(rs, Unknown);
      var d := ModifyMipsRegister(rd);
      Append(Op3(Or, d, a, b));
      Append(OpI(Xor, d, d, TWO_64 - 1));
      UnlockMipsRegister(rt);
      UnlockMipsRegister(rs);
      UnlockMipsRegister(rd);
    }

    method EmitConst(dst: nat, v: Word32)
      modifies this, entries
      ensures Model() == Const(old(Model()), dst, v)
    {
      hide Put, Release, SignExtend;
      ImmediateMipsRegister(dst, SignExtend(v));
      UnlockMipsRegister(dst);
    }

    method SaveIndirectRegister(rs: nat)
      modifies this, entries
      ensures Model() == SaveIndirect(old(Model()), rs)
    {
      hide Take, Release, Find;
      var k := LoadMipsRegister(rs, Unknown);
      Append(MovIndirect(k));
      UnlockMipsRegister(rs);
    }

    /** The recompiler's switch for the scalar instructions. */
    method JitInstruction(i: Instr, pc: nat, next: bool)
      modifies this, entries
      ensures Model() == EmitInstr(old(Model()), i, pc, next)
    {
      hide TwoRegImm, ThreeReg, ShiftVar, NorReg, Const, SaveIndirect;
      match i.op
      case 0 => JitSpecial(i, pc, next);
      case 1 | 2 | 3 | 4 | 5 | 6 | 7 => JitBranch(i, pc, next);
      case _ => JitImmediate(i);
    }

    method JitSpecial(i: Instr, pc: nat, next: bool)
      modifies this, entries
      ensures Model() == EmitSpecial(old(Model()), i, pc, next)
    {
      hide TwoRegImm, ThreeReg, ShiftVar, NorReg, Const, SaveIndirect, Model;
      if i.funct == 8 || i.funct == 9 {
        SaveIndirectRegister(i.rs);
        if i.funct == 9 && i.rd != 0 {
          EmitConst(i.rd, Link(pc));
        }
        EmitConst(COND_BRANCH_TAKEN, if next then 1 else 0);
        return;
      }
      if i.rd == 0 {
        return;
      }
      match i.funct
      case 0 => EmitTwoRegImm(Shl, Unknown, i.rd, i.rt, i.sa);
      case 2 => EmitTwoRegImm(ShrU, ZExt, i.rd, i.rt, i.sa);
      case 3 => EmitTwoRegImm(ShrS, SExt, i.rd, i.rt, i.sa);
      case 4 => EmitShiftVar(Shl, Unknown, i.rd, i.rt, i.rs);
      case 6 => EmitShiftVar(ShrU, ZExt, i.rd, i.rt, i.rs);
      case 7 => EmitShiftVar(ShrS, SExt, i.rd, i.rt, i.rs);
      case 32 | 33 => EmitThreeReg(Add, Unknown, i.rd, i.rs, i.rt);
      case 34 | 35 => EmitThreeReg(Sub, Unknown, i.rd, i.rs, i.rt);
      case 36 => EmitThreeReg(And, Unknown, i.rd, i.rs, i.rt);
      case 37 => EmitThreeReg(Or, Unknown, i.rd, i.rs, i.rt);
      case 38 => EmitThreeReg(Xor, Unknown, i.rd, i.rs, i.rt);
      case 39 => EmitNor(i.rd, i.rs, i.rt);
      case 42 => EmitThreeReg(Lt, SExt, i.rd, i.rs, i.rt);
      case 43 => EmitThreeReg(LtU, ZExt, i.rd, i.rs, i.rt);
      case _ =>
    }

    method JitBranch(i: Instr, pc: nat, next: bool)
      modifies this, entries
      ensures Model() == EmitBranch(old(Model()), i, pc, next)
    {
      hide TwoRegImm, ThreeReg, Const, Model;
      match i.op
      case 1 =>
        if IsRelative(i) {
          EmitTwoRegImm(if i.rt == 0 || i.rt == 16 then Lt else Ge, SExt, COND_BRANCH_TAKEN, i.rs, 0);
          if i.rt >= 16 {
            EmitConst(31, Link(pc));
          }
        }
      case 2 => EmitConst(COND_BRANCH_TAKEN, if next then 1 else 0);
      case 3 =>
        EmitConst(31, Link(pc));
        EmitConst(COND_BRANCH_TAKEN, if next then 1 else 0);
      case 4 => EmitThreeReg(Eq, SExt, COND_BRANCH_TAKEN, i.rs, i.rt);
      case 5 => EmitThreeReg(Ne, SExt, COND_BRANCH_TAKEN, i.rs, i.rt);
      case 6 =>
        if i.rs != 0 {
          EmitTwoRegImm(Le, SExt, COND_BRANCH_TAKEN, i.rs, 0);
        }
      case 7 =>
        if i.rs != 0 {
          EmitTwoRegImm(Gt, SExt, COND_BRANCH_TAKEN, i.rs, 0);
        }
      case _ =>
    }

    method JitImmediate(i: Instr)
      modifies this, entries
      ensures Model() == EmitImmediate(old(Model()), i)
    {
      hide TwoRegImm, Const, Model;
      if i.rt == 0 {
        return;
      }
      match i.op
      case 8 | 9 =>
        if i.rs == 0 {
          EmitConst(i.rt, SImm(i));
        } else {
          EmitTwoRegImm(Add, Unknown, i.rt, i.rs, HostImm(i));
        }
      case 10 => EmitTwoRegImm(Lt, SExt, i.rt, i.rs, HostImm(i));
      case 11 => EmitTwoRegImm(LtU, SExt, i.rt, i.rs, HostImm(i));
      case 12 => EmitTwoRegImm(And, Unknown, i.rt, i.rs, i.imm);
      case 13 =>
        if i.rs == 0 {
          EmitConst(i.rt, i.imm);
        } else {
          EmitTwoRegImm(Or, Unknown, i.rt, i.rs, i.imm);
        }
      case 14 => EmitTwoRegImm(Xor, Unknown, i.rt, i.rs, i.imm);
      case 15 => EmitConst(i.rt, 0x1_0000 * i.imm);
      case _ =>
    }
  }

  /** Compiles straight-line code on a bank of n host registers. The operations returned,
      run from any state, leave in memory the registers MIPS interpretation gives. */
  method CompileProgram(program: seq<Step>, n: nat) returns (code: seq<Op>)
    requires n >= 3
    ensures forall h0: Host, r :: HostOk(h0, n) && h0.sr[0] == 0 && 1 <= r < 32 ==>
      Exec(code, h0).sr[r] == Interpret(program, h0.sr[..32])[r]
  {
    hide EmitInstr, FlushAll, Exec;
    var regs := new RegisterCache(n);
    for k := 0 to |program|
      invariant fresh(regs.entries)
      invariant regs.Model() == Compile(program[..k], n)
    {
      assert program[..k + 1][..k] == program[..k];
      if program[k].flush {
        regs.FlushRegisterWindow();
      }
      regs.JitInstruction(program[k].instr, program[k].pc, program[k].next);
    }
    assert program[..|program|] == program;
    regs.FlushRegisterWindow();
    code := regs.code;
    assert code == Compiled(program, n);
    forall h0: Host, r | HostOk(h0, n) && h0.sr[0] == 0 && 1 <= r < 32
      ensures Exec(code, h0).sr[r] == Interpret(program, h0.sr[..32])[r]
    {
      CompiledCodeIsCorrect(program, n, h0);
    }
  }
}
