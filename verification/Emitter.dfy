/** The code the recompiler emits for each scalar instruction, as calls to the register cache. */
module Emitter {
  import opened Words
  import opened HostOps
  import opened RegisterCacheModel
  import opened CacheCorrectness
  import opened Mips

  /** Calls that need a free register get one when at most two entries are locked. */
  predicate Unlocked(c: Cache) { |c.entries| >= 3 && NoLocks(c.entries) }

  /** A cache call made where no register can be found leaves the cache alone; the emitters never do that. */
  function Take(c: Cache, r: nat, ext: Sign): Cache { if CanFind(c.entries, r) then Load(c, r, ext) else c }
  function Claim(c: Cache, r: nat): Cache { if CanFind(c.entries, r) then Modify(c, r) else c }
  function Put(c: Cache, r: nat, v: Word64): Cache { if CanFind(c.entries, r) then Immediate(c, r, v) else c }
  function Release(c: Cache, r: nat): Cache { if IsLocked(c.entries, r) then Unlock(c, r) else c }

  /** dst := f(src, imm), with src extended as ext. */
  function TwoRegImm(c: Cache, f: Fn, ext: Sign, dst: nat, src: nat, imm: Word64): Cache {
    var a := Find(c.entries, src);
    var c1 := Take(c, src, ext);
    var d := Find(c1.entries, dst);
    var c2 := Claim(c1, dst);
    var c3 := Emit(c2, OpI(f, d, a, imm));
    Release(Release(c3, src), dst)
  }

  /** dst := f(x, y), with both operands extended as ext. */
  function ThreeReg(c: Cache, f: Fn, ext: Sign, dst: nat, x: nat, y: nat): Cache {
    var a := Find(c.entries, x);
    var c1 := Take(c, x, ext);
    var b := Find(c1.entries, y);
    var c2 := Take(c1, y, ext);
    var d := Find(c2.entries, dst);
    var c3 := Claim(c2, dst);
    var c4 := Emit(c3, Op3(f, d, a, b));
    Release(Release(Release(c4, x), y), dst)
  }

  predicate Operand(r: nat) { r <= COND_BRANCH_TAKEN }
  predicate Target(r: nat) { 1 <= r <= COND_BRANCH_TAKEN }

  /** The extension a source operand must be loaded with for operator f to be exact. */
  predicate Suits(f: Fn, ext: Sign) {
    match f
    case Add | Sub | And | Or | Xor | Shl => true
    case ShrU => ext.ZExt?
    case ShrS | Lt | Eq | Ne | Ge | Le | Gt => ext.SExt?
    case LtU => !ext.Unknown?
  }

  /** The immediates an operator is emitted with. */
  predicate SuitsImm(f: Fn, ext: Sign, imm: Word64) {
    && Suits(f, ext)
    && (f.Shl? || f.ShrU? || f.ShrS? ==> imm < 32)
    && (f.Lt? || f.LtU? || f.Eq? || f.Ne? || f.Ge? || f.Le? || f.Gt? ==> ext.SExt? && IsSigned(imm))
  }

  predicate ExtendedAs(ext: Sign, x: Word64) {
    match ext
    case SExt => IsSigned(x)
    case ZExt => IsUnsigned(x)
    case Unknown => true
  }

  /** Host register k is locked for r and holds its value, extended as ext. */
  predicate Held(c: Cache, h0: Host, m: seq<Word32>, k: nat, r: nat, ext: Sign) {
    && k < |c.entries|
    && HostOk(h0, |c.entries|)
    && |m| == VIRTUAL_REGISTERS + 1 && r < VIRTUAL_REGISTERS
    && Holds(c.entries[k], r)
    && c.entries[k].locks > 0
    && Low(Exec(c.code, h0).r[k]) == m[r]
    && ExtendedAs(ext, Exec(c.code, h0).r[k])
  }

  /** Entry k gained a lock for r; no other entry changed. */
  predicate LockedOnly(c: Cache, c': Cache, k: nat, r: nat) {
    && k < |c.entries| == |c'.entries|
    && Holds(c'.entries[k], r)
    && c'.entries[k].locks == c.entries[k].locks + 1
    && (forall i :: 0 <= i < |c.entries| && i != k ==> c'.entries[i] == c.entries[i])
  }

  lemma TakeOk(c: Cache, r: nat, ext: Sign, x: int, y: int, h0: Host, m: seq<Word32>)
    requires Reached(c, h0, m) && |c.entries| >= 3 && LockedAt(c.entries, x, y) && Operand(r)
    ensures var k, c' := Find(c.entries, r), Take(c, r, ext);
      && Reached(c', h0, m)
      && LockedOnly(c, c', k, r)
      && Held(c', h0, m, k, r, ext)
      && (forall i :: 0 <= i < |c.entries| && i != k ==> Exec(c'.code, h0).r[i] == Exec(c.code, h0).r[i])
  {
    FindSucceeds(c.entries, x, y, r);
    LoadOk(c, r, ext, h0, m);
    var k, c' := Find(c.entries, r), Load(c, r, ext);
    var h' := Exec(c'.code, h0);
    assert EntryOk(c'.entries[k], h'.r[k], h'.sr, m);
  }

  lemma ClaimOk(c: Cache, r: nat, x: int, y: int, h0: Host, m: seq<Word32>)
    requires Reached(c, h0, m) && |c.entries| >= 3 && LockedAt(c.entries, x, y) && 1 <= r < VIRTUAL_REGISTERS
    ensures var k, c' := Find(c.entries, r), Claim(c, r);
      && LockedOnly(c, c', k, r)
      && c'.entries[k].modified
      && c'.entries[k].sign.Unknown?
      && Exec(c'.code, h0).r == Exec(c.code, h0).r
      && Reached(c', h0, m[r := Low(Exec(c.code, h0).r[k])])
  {
    FindSucceeds(c.entries, x, y, r);
    ModifyOk(c, r, h0, m);
  }

  /** Writing the claimed register with a 64-bit result whose low half is v gives r the value v. */
  lemma ComputeOk(c: Cache, op: Op, k: nat, r: nat, v: Word32, h0: Host, m: seq<Word32>)
    requires Reached(c, h0, m) && k < |c.entries| && 1 <= r < VIRTUAL_REGISTERS
    requires Holds(c.entries[k], r) && c.entries[k].modified && c.entries[k].sign.Unknown?
    requires var h := Exec(c.code, h0); Exec1(op, h) == h.(r := h.r[k := Exec1(op, h).r[k]])
    requires Low(Exec1(op, Exec(c.code, h0)).r[k]) == v
    ensures Reached(Emit(c, op), h0, m[r := v])
    ensures Exec(Emit(c, op).code, h0) == Exec1(op, Exec(c.code, h0))
  {
    WriteOk(c, op, k, r, Unknown, h0, m);
    assert Emit(c, op).(entries := c.entries[k := c.entries[k].(sign := Unknown)]) == Emit(c, op);
  }

  lemma ReleaseOk(c: Cache, k: nat, r: nat, h0: Host, m: seq<Word32>)
    requires Reached(c, h0, m) && k < |c.entries| && Holds(c.entries[k], r) && c.entries[k].locks > 0
    ensures Reached(Release(c, r), h0, m)
    ensures Release(c, r).code == c.code
    ensures Release(c, r).entries == c.entries[k := c.entries[k].(locks := c.entries[k].locks - 1)]
  {
    UnlockOk(c, k, r, h0, m);
  }

  /** The locks are exactly one each at a, b and d; a negative index stands for no lock. */
  predicate LocksAre(es: seq<Entry>, a: int, b: int, d: int) {
    forall i :: 0 <= i < |es| ==> es[i].locks == Truth(i == a) + Truth(i == b) + Truth(i == d)
  }

  lemma ReleaseThree(c: Cache, a: nat, x: nat, b: nat, y: nat, d: nat, z: nat, h0: Host, m: seq<Word32>)
    requires Reached(c, h0, m) && |c.entries| >= 3 && LocksAre(c.entries, a, b, d)
    requires a < |c.entries| && b < |c.entries| && d < |c.entries|
    requires Holds(c.entries[a], x) && Holds(c.entries[b], y) && Holds(c.entries[d], z)
    ensures var c' := Release(Release(Release(c, x), y), z); Reached(c', h0, m) && Unlocked(c')
  {
    hide Reached, Release;
    ReleaseOk(c, a, x, h0, m);
    ReleaseOk(Release(c, x), b, y, h0, m);
    ReleaseOk(Release(Release(c, x), y), d, z, h0, m);
  }

  lemma TwoRegImmOk(c: Cache, f: Fn, ext: Sign, dst: nat, src: nat, imm: Word64, h0: Host, m: seq<Word32>)
    requires VirtualOk(m) && Reached(c, h0, m) && Unlocked(c) && Operand(src) && Target(dst) && SuitsImm(f, ext, imm)
    ensures Unlocked(TwoRegImm(c, f, ext, dst, src, imm))
    ensures Reached(TwoRegImm(c, f, ext, dst, src, imm), h0, m[dst := Alu(f, m[src], Low(imm))])
  {
    hide Reached, Take, Claim, Release, Find, Exec, Alu, Wide, FindLive, Low, IsSigned, IsUnsigned;
    var a := Find(c.entries, src);
    TakeOk(c, src, ext, -1, -1, h0, m);
    var c1 := Take(c, src, ext);
    var x := Exec(c1.code, h0).r[a];
    var d := Find(c1.entries, dst);
    ClaimOk(c1, dst, a, -1, h0, m);
    var c2 := Claim(c1, dst);
    var m2 := m[dst := Low(Exec(c1.code, h0).r[d])];
    Truncates(f, x, imm);
    var v := Alu(f, m[src], Low(imm));
    ComputeOk(c2, OpI(f, d, a, imm), d, dst, v, h0, m2);
    assert m2[dst := v] == m[dst := v];
    var c3 := Emit(c2, OpI(f, d, a, imm));
    ReleaseOk(c3, a, src, h0, m[dst := v]);
    ReleaseOk(Release(c3, src), d, dst, h0, m[dst := v]);
  }

  /** Both operands of a three-register operation are in place and only they are locked. */
  lemma OperandsOk(c: Cache, ext: Sign, ext': Sign, x: nat, y: nat, h0: Host, m: seq<Word32>)
    requires VirtualOk(m) && Reached(c, h0, m) && Unlocked(c) && Operand(x) && Operand(y)
    requires ext == ext' || ext'.Unknown?
    ensures var a, c1 := Find(c.entries, x), Take(c, x, ext);
            var b, c2 := Find(c1.entries, y), Take(c1, y, ext');
      && Reached(c2, h0, m)
      && |c2.entries| >= 3
      && LocksAre(c2.entries, a, b, -1)
      && Held(c2, h0, m, a, x, ext)
      && Held(c2, h0, m, b, y, ext')
  {
    hide Reached, Take, Find, Exec, FindLive, Low, IsSigned, IsUnsigned;
    var a := Find(c.entries, x);
    TakeOk(c, x, ext, -1, -1, h0, m);
    var c1 := Take(c, x, ext);
    var b := Find(c1.entries, y);
    TakeOk(c1, y, ext', a, -1, h0, m);
    if a == b && ext != ext' {
      KeptExtension(c1, a, x, ext, ext', h0, m);
    }
  }

  /** A second load that asks for no extension keeps the one the register already has. */
  lemma KeptExtension(c: Cache, a: nat, x: nat, ext: Sign, ext': Sign, h0: Host, m: seq<Word32>)
    requires Held(c, h0, m, a, x, ext) && Reached(c, h0, m) && ext'.Unknown? && Find(c.entries, x) == a
    ensures Exec(Take(c, x, ext').code, h0).r[a] == Exec(c.code, h0).r[a]
  {
  }

  lemma ThreeRegOk(c: Cache, f: Fn, ext: Sign, dst: nat, x: nat, y: nat, h0: Host, m: seq<Word32>)
    requires VirtualOk(m) && Reached(c, h0, m) && Unlocked(c) && Operand(x) && Operand(y) && Target(dst)
    requires Suits(f, ext) && !f.Shl? && !f.ShrU? && !f.ShrS?
    ensures Unlocked(ThreeReg(c, f, ext, dst, x, y))
    ensures Reached(ThreeReg(c, f, ext, dst, x, y), h0, m[dst := Alu(f, m[x], m[y])])
  {
    hide Reached, Take, Claim, Release, Find, Exec, Alu, FindLive, Held, LocksAre, Unlocked;
    OperandsOk(c, ext, ext, x, y, h0, m);
    var c1 := Take(c, x, ext);
    ThreeRegResult(Take(c1, y, ext), f, ext, Find(c.entries, x), Find(c1.entries, y), dst, x, y, h0, m);
  }

  lemma ThreeRegResult(c: Cache, f: Fn, ext: Sign, a: nat, b: nat, dst: nat, x: nat, y: nat, h0: Host, m: seq<Word32>)
    requires VirtualOk(m) && Reached(c, h0, m) && |c.entries| >= 3 && LocksAre(c.entries, a, b, -1)
    requires Held(c, h0, m, a, x, ext) && Held(c, h0, m, b, y, ext)
    requires Operand(x) && Operand(y) && Target(dst) && Suits(f, ext) && !f.Shl? && !f.ShrU? && !f.ShrS?
    ensures var c' := Release(Release(Release(Emit(Claim(c, dst), Op3(f, Find(c.entries, dst), a, b)), x), y), dst);
      Unlocked(c') && Reached(c', h0, m[dst := Alu(f, m[x], m[y])])
  {
    hide Reached, Take, Claim, Release, Find, Exec, Alu, Wide, FindLive, Low, IsSigned, IsUnsigned;
    var h2 := Exec(c.code, h0);
    var d := Find(c.entries, dst);
    ClaimOk(c, dst, a, b, h0, m);
    var c3 := Claim(c, dst);
    var m3 := m[dst := Low(h2.r[d])];
    Truncates(f, h2.r[a], h2.r[b]);
    var v := Alu(f, m[x], m[y]);
    ComputeOk(c3, Op3(f, d, a, b), d, dst, v, h0, m3);
    assert m3[dst := v] == m[dst := v];
    ReleaseThree(Emit(c3, Op3(f, d, a, b)), a, x, b, y, d, dst, h0, m[dst := v]);
  }

  /** rd := f(rt, low five bits of rs): a variable shift. */
  function ShiftVar(c: Cache, f: Fn, ext: Sign, rd: nat, rt: nat, rs: nat): Cache {
    var a := Find(c.entries, rt);
    var c1 := Take(c, rt, ext);
    var b := Find(c1.entries, rs);
    var c2 := Take(c1, rs, Unknown);
    var s := Find(c2.entries, SCRATCH_REGISTER0);
    var c3 := Emit(Claim(c2, SCRATCH_REGISTER0), OpI(And, s, b, 31));
    var c4 := Release(c3, rs);
    var d := Find(c4.entries, rd);
    var c5 := Emit(Claim(c4, rd), Op3(f, d, a, s));
    Release(Release(Release(c5, rt), rd), SCRATCH_REGISTER0)
  }

  /** The machine after a variable shift: the count passes through a scratch register. */
  function Shifted(f: Fn, rd: nat, rt: nat, rs: nat, m: seq<Word32>): seq<Word32>
    requires VirtualOk(m) && Operand(rt) && Operand(rs) && Target(rd)
  {
    m[SCRATCH_REGISTER0 := Count(m[rs])][rd := Alu(f, m[rt], Count(m[rs]))]
  }

  lemma MaskCount(x: Word64)
    ensures Wide(And, x, 31) == Count(Low(x))
  {
    hide Bits;
    AndMask(x, 5, 64);
    assert Pow2(5) == 32;
    CountLow(x);
  }

  lemma ShiftVarOk(c: Cache, f: Fn, ext: Sign, rd: nat, rt: nat, rs: nat, h0: Host, m: seq<Word32>)
    requires VirtualOk(m) && Reached(c, h0, m) && Unlocked(c) && Operand(rt) && Operand(rs) && Target(rd)
    requires Suits(f, ext) && (f.Shl? || f.ShrU? || f.ShrS?)
    ensures Unlocked(ShiftVar(c, f, ext, rd, rt, rs))
    ensures Reached(ShiftVar(c, f, ext, rd, rt, rs), h0, Shifted(f, rd, rt, rs, m))
  {
    hide Reached, Take, Claim, Release, Find, Exec, Alu, FindLive, Held, LocksAre, Unlocked;
    OperandsOk(c, ext, Unknown, rt, rs, h0, m);
    var c1 := Take(c, rt, ext);
    ShiftVarCount(Take(c1, rs, Unknown), f, ext, Find(c.entries, rt), Find(c1.entries, rs), rd, rt, rs, h0, m);
  }

  /** The count goes through the scratch register. */
  lemma ShiftVarCount(c: Cache, f: Fn, ext: Sign, a: nat, b: nat, rd: nat, rt: nat, rs: nat, h0: Host, m: seq<Word32>)
    requires VirtualOk(m) && Reached(c, h0, m) && |c.entries| >= 3 && LocksAre(c.entries, a, b, -1)
    requires Held(c, h0, m, a, rt, ext) && Held(c, h0, m, b, rs, Unknown)
    requires Operand(rt) && Operand(rs) && Target(rd) && Suits(f, ext) && (f.Shl? || f.ShrU? || f.ShrS?)
    ensures var s := Find(c.entries, SCRATCH_REGISTER0);
            var c4 := Release(Emit(Claim(c, SCRATCH_REGISTER0), OpI(And, s, b, 31)), rs);
            var d := Find(c4.entries, rd);
            var c' := Release(Release(Release(Emit(Claim(c4, rd), Op3(f, d, a, s)), rt), rd), SCRATCH_REGISTER0);
      Unlocked(c') && Reached(c', h0, Shifted(f, rd, rt, rs, m))
  {
    hide Reached, Take, Claim, Release, Find, Exec, Alu, Wide, FindLive, Low, IsSigned, IsUnsigned, Count, Unlocked;
    var h2 := Exec(c.code, h0);
    var s := Find(c.entries, SCRATCH_REGISTER0);
    ClaimOk(c, SCRATCH_REGISTER0, a, b, h0, m);
    var c3 := Claim(c, SCRATCH_REGISTER0);
    MaskCount(h2.r[b]);
    var n := Count(m[rs]);
    LowSmall(n);
    ComputeOk(c3, OpI(And, s, b, 31), s, SCRATCH_REGISTER0, n, h0, m[SCRATCH_REGISTER0 := Low(h2.r[s])]);
    var m4 := m[SCRATCH_REGISTER0 := n];
    assert m[SCRATCH_REGISTER0 := Low(h2.r[s])][SCRATCH_REGISTER0 := n] == m4;
    var c4 := Emit(c3, OpI(And, s, b, 31));
    ReleaseOk(c4, b, rs, h0, m4);
    ShiftVarTail(Release(c4, rs), f, ext, a, s, rd, rt, n, h0, m4);
  }

  lemma LowSmall(x: Word64)
    requires x < TWO_32
    ensures Low(x) == x
  {
  }

  lemma ShiftVarTail(c: Cache, f: Fn, ext: Sign, a: nat, s: nat, rd: nat, rt: nat, n: Word32, h0: Host, m: seq<Word32>)
    requires Reached(c, h0, m) && |c.entries| >= 3 && LocksAre(c.entries, a, s, -1)
    requires Held(c, h0, m, a, rt, ext) && Held(c, h0, m, s, SCRATCH_REGISTER0, Unknown)
    requires n < 32 && Exec(c.code, h0).r[s] == n
    requires Operand(rt) && Target(rd) && Suits(f, ext) && (f.Shl? || f.ShrU? || f.ShrS?)
    ensures var d := Find(c.entries, rd);
            var c' := Release(Release(Release(Emit(Claim(c, rd), Op3(f, d, a, s)), rt), rd), SCRATCH_REGISTER0);
      Unlocked(c') && Reached(c', h0, m[rd := Alu(f, m[rt], n)])
  {
    hide Reached, Take, Claim, Release, Find, Exec, Alu, Wide, FindLive, Low, IsSigned, IsUnsigned;
    var h := Exec(c.code, h0);
    var d := Find(c.entries, rd);
    ClaimOk(c, rd, a, s, h0, m);
    var c5 := Claim(c, rd);
    Truncates(f, h.r[a], n);
    LowSmall(n);
    var v := Alu(f, m[rt], n);
    ComputeOk(c5, Op3(f, d, a, s), d, rd, v, h0, m[rd := Low(h.r[d])]);
    assert m[rd := Low(h.r[d])][rd := v] == m[rd := v];
    ReleaseThree(Emit(c5, Op3(f, d, a, s)), a, rt, d, rd, s, SCRATCH_REGISTER0, h0, m[rd := v]);
  }

  /** rd := not (rs or rt). */
  function NorReg(c: Cache, rd: nat, rs: nat, rt: nat): Cache {
    var a := Find(c.entries, rt);
    var c1 := Take(c, rt, Unknown);
    var b := Find(c1.entries, rs);
    var c2 := Take(c1, rs, Unknown);
    var d := Find(c2.entries, rd);
    var c3 := Emit(Claim(c2, rd), Op3(Or, d, a, b));
    var c4 := Emit(c3, OpI(Xor, d, d, TWO_64 - 1));
    Release(Release(Release(c4, rt), rs), rd)
  }

  lemma {:induction false} XorOnes(x: nat, n: nat)
    requires x < Pow2(n)
    ensures Bits(BXor, x, Pow2(n) - 1, n) == Pow2(n) - 1 - x
  {
    if n > 0 {
      var ones := Pow2(n) - 1;
      assert ones / 2 == Pow2(n - 1) - 1 && ones % 2 == 1;
      XorOnes(x / 2, n - 1);
    }
  }

  lemma LowOnes()
    ensures Low(TWO_64 - 1) == TWO_32 - 1 && Pow2(32) == TWO_32
  {
    Powers();
  }

  lemma NotLow(x: Word64)
    ensures Low(Wide(Xor, x, TWO_64 - 1)) == TWO_32 - 1 - Low(x)
  {
    hide Bits, Low, Wide;
    Truncates(Xor, x, TWO_64 - 1);
    LowOnes();
    XorOnes(Low(x), 32);
  }

  lemma OrSwap(x: nat, y: nat, n: nat)
    ensures Bits(BOr, x, y, n) == Bits(BOr, y, x, n)
  {
  }

  lemma NorRegOk(c: Cache, rd: nat, rs: nat, rt: nat, h0: Host, m: seq<Word32>)
    requires VirtualOk(m) && Reached(c, h0, m) && Unlocked(c) && Operand(rt) && Operand(rs) && Target(rd)
    ensures Unlocked(NorReg(c, rd, rs, rt))
    ensures Reached(NorReg(c, rd, rs, rt), h0, m[rd := TWO_32 - 1 - Alu(Or, m[rs], m[rt])])
  {
    hide Reached, Take, Claim, Release, Find, Exec, Alu, Wide, FindLive, Low, IsSigned, IsUnsigned;
    OperandsOk(c, Unknown, Unknown, rt, rs, h0, m);
    var a, c1 := Find(c.entries, rt), Take(c, rt, Unknown);
    var b, c2 := Find(c1.entries, rs), Take(c1, rs, Unknown);
    var h2 := Exec(c2.code, h0);
    var d := Find(c2.entries, rd);
    ClaimOk(c2, rd, a, b, h0, m);
    var c3 := Claim(c2, rd);
    Truncates(Or, h2.r[a], h2.r[b]);
    var v := Alu(Or, m[rt], m[rs]);
    ComputeOk(c3, Op3(Or, d, a, b), d, rd, v, h0, m[rd := Low(h2.r[d])]);
    assert m[rd := Low(h2.r[d])][rd := v] == m[rd := v];
    var c4 := Emit(c3, Op3(Or, d, a, b));
    ComplementOk(c4, d, rd, v, h0, m);
    EvalOrSwap(m[rs], m[rt]);
    ReleaseThree(Emit(c4, OpI(Xor, d, d, TWO_64 - 1)), a, rt, b, rs, d, rd, h0, m[rd := TWO_32 - 1 - v]);
  }

  lemma ComplementOk(c: Cache, d: nat, rd: nat, v: Word32, h0: Host, m: seq<Word32>)
    requires Target(rd) && |m| > rd && Reached(c, h0, m[rd := v]) && d < |c.entries|
    requires Holds(c.entries[d], rd) && c.entries[d].modified && c.entries[d].sign.Unknown?
    requires Low(Exec(c.code, h0).r[d]) == v
    ensures Reached(Emit(c, OpI(Xor, d, d, TWO_64 - 1)), h0, m[rd := TWO_32 - 1 - v])
  {
    hide Exec, Alu, Wide, FindLive, Low, Distinct, EntryOk;
    NotLow(Exec(c.code, h0).r[d]);
    ComputeOk(c, OpI(Xor, d, d, TWO_64 - 1), d, rd, TWO_32 - 1 - v, h0, m[rd := v]);
    assert m[rd := v][rd := TWO_32 - 1 - v] == m[rd := TWO_32 - 1 - v];
  }

  lemma EvalOrSwap(x: Word32, y: Word32)
    ensures Alu(Or, x, y) == Alu(Or, y, x)
  {
    OrSwap(x, y, 32);
  }

  /** dst := the constant v, sign-extended. */
  function Const(c: Cache, dst: nat, v: Word32): Cache {
    Release(Put(c, dst, SignExtend(v)), dst)
  }

  lemma ConstOk(c: Cache, dst: nat, v: Word32, h0: Host, m: seq<Word32>)
    requires VirtualOk(m) && Reached(c, h0, m) && Unlocked(c) && Target(dst)
    ensures Unlocked(Const(c, dst, v)) && Reached(Const(c, dst, v), h0, m[dst := v])
  {
    hide Immediate, Release, Exec, Find, Low, SignExtend, IsSigned, FindLive, Distinct, EntryOk;
    FindSucceeds(c.entries, -1, -1, dst);
    ExtendedConst(v);
    ImmediateOk(c, dst, SignExtend(v), h0, m);
    ReleaseOk(Immediate(c, dst, SignExtend(v)), Find(c.entries, dst), dst, h0, m[dst := v]);
  }

  lemma ExtendedConst(v: Word32)
    ensures IsSigned(SignExtend(v)) && Low(SignExtend(v)) == v
  {
  }

  /** Keep rs for an indirect branch. */
  function SaveIndirect(c: Cache, rs: nat): Cache {
    var k := Find(c.entries, rs);
    Release(Emit(Take(c, rs, Unknown), MovIndirect(k)), rs)
  }

  lemma SaveIndirectOk(c: Cache, rs: nat, h0: Host, m: seq<Word32>)
    requires VirtualOk(m) && Reached(c, h0, m) && Unlocked(c) && Operand(rs)
    ensures Unlocked(SaveIndirect(c, rs)) && Reached(SaveIndirect(c, rs), h0, m[INDIRECT_PC := m[rs]])
  {
    hide Take, Release, Exec, Find, FindLive, Low;
    var k, c1 := Find(c.entries, rs), Take(c, rs, Unknown);
    TakeOk(c, rs, Unknown, -1, -1, h0, m);
    ExecSnoc(c1.code, MovIndirect(k), h0);
    ReleaseOk(Emit(c1, MovIndirect(k)), k, rs, h0, m[INDIRECT_PC := m[rs]]);
  }
}
