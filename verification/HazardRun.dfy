/** A run, from the entry of a region on, in which compiled code and machine part: the excluded shape is reached. */
module HazardRun {
  import opened Words
  import opened HostOps
  import opened Options
  import opened Mips
  import opened RegionCode
  import opened RegionSim
  import opened StaticEnd
  import opened RegionCompiler
  import opened RegionRun

  /** 0x18000005 at word 0, 0x08000001 at word 4, 0x1000FFFD at word 6, and 0 in between and at word 7: the test at
      word 0 leads to the branch at word 6, that one to the jump at word 4, and this to the test's delay slot. */
  predicate HazardLoop(imem: seq<Instr>) {
    && |imem| == IMEM_WORDS
    && Encodes(imem[0], 6, 5) && Encodes(imem[4], 2, 1) && Encodes(imem[6], 4, 0xFFFD)
    && Encodes(imem[1], 0, 0) && Encodes(imem[2], 0, 0) && Encodes(imem[3], 0, 0)
    && Encodes(imem[5], 0, 0) && Encodes(imem[7], 0, 0)
  }

  /** Such a memory. */
  function LoopWord(k: nat): Instr {
    if k == 0 then Encoded(6, 5)
    else if k == 4 then Encoded(2, 1)
    else if k == 6 then Encoded(4, 0xFFFD)
    else Encoded(0, 0)
  }

  function Encoded(op: nat, imm: nat): (i: Instr)
    requires op < 64 && imm < 0x1_0000
    ensures Encodes(i, op, imm)
  {
    Fields(op, 0, 0, imm / 2048, imm / 64 % 32, imm % 64, imm)
  }

  function LoopMemory(n: nat): (imem: seq<Instr>)
    ensures |imem| == n && forall k :: 0 <= k < n ==> imem[k] == LoopWord(k)
  {
    seq(n, k requires 0 <= k < n => LoopWord(k))
  }

  lemma LoopExists(n: nat)
    requires n == IMEM_WORDS
    ensures HazardLoop(LoopMemory(n))
  {
    var imem := LoopMemory(n);
    hide LoopMemory, LoopWord;
    forall k: nat | k < 8 ensures imem[k] == LoopWord(k) && LoopWordIs(imem[k], k) {
      LoopWordKind(k);
    }
    assert LoopWordIs(imem[0], 0) && LoopWordIs(imem[4], 4) && LoopWordIs(imem[6], 6);
    assert LoopWordIs(imem[1], 1) && LoopWordIs(imem[2], 2) && LoopWordIs(imem[3], 3);
    assert LoopWordIs(imem[5], 5) && LoopWordIs(imem[7], 7);
  }

  predicate LoopWordIs(i: Instr, k: nat) {
    if k == 0 then Encodes(i, 6, 5)
    else if k == 4 then Encodes(i, 2, 1)
    else if k == 6 then Encodes(i, 4, 0xFFFD)
    else Encodes(i, 0, 0)
  }

  lemma LoopWordKind(k: nat)
    ensures LoopWordIs(LoopWord(k), k)
  {
  }

  /** What those words are, without their encoding. */
  ghost predicate LoopWords(ws: seq<Instr>) {
    && |ws| >= 8
    && IsBlezZero(ws[0]) && WordTarget(ws[0], 0) == 6
    && IsJump(ws[4]) && WordTarget(ws[4], 4) == 1
    && IsRelative(ws[6]) && !IsBlezZero(ws[6]) && Branches(ws[6]) && WordTarget(ws[6], 6) == 4
    && (forall g: Regs :: Taken(ws[6], g))
    && Idle(ws[1]) && Idle(ws[2]) && Idle(ws[3]) && Idle(ws[5]) && Idle(ws[7])
  }

  predicate Idle(i: Instr) {
    !Branches(i) && !IsRelative(i) && !IsJump(i) && !IsIndirect(i) && !IsBreak(i) && !IsCop0(i)
  }

  lemma IdleWord(i: Instr)
    requires Encodes(i, 0, 0)
    ensures Idle(i)
  {
    EncodedFields(i, 0, 0);
  }

  lemma BackwardBranch(i: Instr)
    requires Encodes(i, 4, 0xFFFD)
    ensures IsRelative(i) && !IsBlezZero(i) && Branches(i) && WordTarget(i, 6) == 4
    ensures forall g: Regs :: Taken(i, g)
  {
    QuadResidue(6 + 1 + Raw(i), 0x4_0040, 4);
  }

  lemma LoopWordsOk(imem: seq<Instr>)
    requires HazardLoop(imem)
    ensures LoopWords(imem) && |imem| == IMEM_WORDS
  {
    hide Encodes, Idle, WordTarget, Taken, IsRelative, Branches, IsBlezZero;
    BlezZeroTarget(imem[0]);
    JumpTarget(imem[4]);
    JumpKind(imem[4]);
    BackwardBranch(imem[6]);
    IdleWord(imem[1]);
    IdleWord(imem[2]);
    IdleWord(imem[3]);
    IdleWord(imem[5]);
    IdleWord(imem[7]);
  }

  lemma JumpKind(i: Instr)
    requires Encodes(i, 2, 1)
    ensures IsJump(i)
  {
  }

  // ---- the region ---------------------------------------------------------------------------

  lemma {:induction false} ScanGoesOn(words: seq<Instr>, i: nat, max: nat)
    requires |words| == 128 && LoopWords(words) && i <= 8 && max >= i && (i > 0 ==> max >= 7)
    ensures Scan(words, 0, i, max).0 >= 8
    decreases 8 - i
  {
    hide WordTarget, Taken;
    ScanBounds(words, 0, i, max);
    if i < 8 {
      var v := Judge(words[i], i, i + 1 < max, Bump(i, max), 0, 128);
      assert v.More? && (i == 0 ==> v.max >= 7);
      ScanGoesOn(words, i + 1, v.max);
    }
  }

  /** The region that starts at word 0 holds all of the loop. */
  lemma LoopRegion(imem: seq<Instr>)
    requires HazardLoop(imem)
    ensures var r := RegionAt(imem, 0);
      RegionOk(r) && r.base == 0 && LoopWords(r.words) && forall k :: 0 <= k < |r.words| ==> r.words[k] == imem[k]
  {
    hide HazardLoop, Scan, EndOf, LoopWords;
    LoopWordsOk(imem);
    RegionAtOk(imem, 0);
    FirstRegion(imem);
    var words := imem[0..128];
    LoopPrefix(imem, words);
    ScanGoesOn(words, 0, 0);
    ScanBounds(words, 0, 0, 0);
    EndOfScan(words, 0);
    FirstRegionWords(imem);
    LoopPrefix(imem, RegionAt(imem, 0).words);
  }

  lemma FirstRegionWords(imem: seq<Instr>)
    requires |imem| == IMEM_WORDS
    ensures RegionAt(imem, 0).base == 0 && RegionAt(imem, 0).words <= imem
  {
    hide EndOf;
    WindowOk(0);
    RegionCloses(imem[0..WindowEnd(0)], 0);
  }

  lemma LoopPrefix(imem: seq<Instr>, words: seq<Instr>)
    requires LoopWords(imem) && words <= imem && |words| >= 8
    ensures LoopWords(words)
  {
  }

  // ---- one instruction of the region ----------------------------------------------------------

  /** At the first instruction with no delay slot carried in. */
  lemma FirstStep<E>(p: Guest<E>, r: Region, f: Frame<E>)
    requires RegionOk(r) && |r.words| > 1 && f.hasDelay == 0 && !IsBreak(r.words[0]) && !IsCop0(r.words[0])
    ensures RunAt(p, r, 0, f) == At(1, RunBody(p, r.words[0], r.base, IsEntry(r, 1), f).(scratch := 0))
  {
    hide Run, RunBody, IsEntry, EndOfBlock, LatentCode;
    var i := r.words[0];
    InfoBranches(i, r.base, IsEntry(r, 1));
    var t := [GetHasDelay(Scratch), LatentIfSet(Scratch)];
    var f1 := RunBody(p, i, r.base, IsEntry(r, 1), f);
    BodyKeeps(p, i, r.base, IsEntry(r, 1), f);
    assert Segment(r, 0) == [Body(i, r.base, IsEntry(r, 1))] + t;
    RunOne(p, Body(i, r.base, IsEntry(r, 1)), t, f, f1);
    RunStep(p, t, 0, f1);
    RunStep(p, t, 1, f1.(scratch := 0));
    RunEnds(p, t, |t|, f1.(scratch := 0));
  }

  lemma BodyKeeps<E>(p: Guest<E>, i: Instr, w: nat, next: bool, f: Frame<E>)
    ensures var f1 := RunBody(p, i, w, next, f);
      f1.hasDelay == f.hasDelay && f1.flag == FlagAfter(i, f.g, f.flag, next)
  {
    hide FlagAfter, DataStep;
  }

  /** Outside a delay slot, inside the region. */
  lemma PlainStep<E>(p: Guest<E>, r: Region, k: nat, f: Frame<E>)
    requires RegionOk(r) && 0 < k && k + 1 < |r.words| && !LastInfo(r, k).branch
    requires !IsBreak(r.words[k]) && !IsCop0(r.words[k])
    ensures RunAt(p, r, k, f) == At(k + 1, RunBody(p, r.words[k], r.base + k, IsEntry(r, k + 1), f))
  {
    hide Run, RunBody, IsEntry, EndOfBlock, LatentCode, LastInfo;
    var i := r.words[k];
    var op := Body(i, r.base + k, IsEntry(r, k + 1));
    var f1 := RunBody(p, i, r.base + k, IsEntry(r, k + 1), f);
    assert Segment(r, k) == [op] + [];
    RunOne(p, op, [], f, f1);
    EmptyRuns(p, f1);
  }

  /** In the delay slot of a taken branch to a label of the region. */
  lemma DelayStep<E>(p: Guest<E>, r: Region, k: nat, j: nat, f: Frame<E>)
    requires RegionOk(r) && 0 < k < |r.words| && Idle(r.words[k]) && j < |r.words|
    requires IsDirect(r.words[k - 1]) && Branches(r.words[k - 1])
    requires WordTarget(r.words[k - 1], r.base + k - 1) == r.base + j
    requires LastInfo(r, k).conditional ==> f.flag != 0
    ensures RunAt(p, r, k, f).At? && RunAt(p, r, k, f).k == j
    ensures RunAt(p, r, k, f).f.flag == 0 && RunAt(p, r, k, f).f.hasDelay == f.hasDelay
  {
    hide Raw, WordTarget, ByteTarget, Word, Run, RunBody, IsEntry, EndOfBlock, LatentCode, Segment;
    var last := LastInfo(r, k);
    InfoBranches(r.words[k - 1], r.base + k - 1, IsEntry(r, k));
    DirectInfo(r.words[k - 1], r.base + k - 1, IsEntry(r, k));
    BodyKeeps(p, r.words[k], r.base + k, IsEntry(r, k + 1), f);
    IdleFlag(r.words[k], f.g, f.flag, IsEntry(r, k + 1));
    DelayRuns(p, r, k, f);
    LocalTargetMarked(r, k - 1);
  }

  lemma DirectInfo(i: Instr, w: nat, next: bool)
    requires IsDirect(i)
    ensures !IsIndirect(i) && !InfoOf(i, w, next).indirect
  {
    hide ByteTarget;
  }

  lemma IdleFlag(i: Instr, g: Regs, flag: nat, next: bool)
    requires Idle(i)
    ensures FlagAfter(i, g, flag, next) == flag
  {
  }

  // ---- the run ----------------------------------------------------------------------------------

  /** The branch flag at label k of the loop. */
  function FlagAt(imem: seq<Instr>, k: nat): nat
    requires |imem| == IMEM_WORDS
  {
    if k == 7 then 1 else if k == 5 then Truth(IsEntry(RegionAt(imem, 0), 5)) else 0
  }

  /** Inside the region that starts at word 0, at label k, with no delay slot carried in. */
  ghost predicate HostAt<E>(p: Guest<E>, x: Place<E>, k: nat) {
    && GuestOk(p) && RegionOk(RegionAt(p.imem, 0))
    && x.Inside? && x.c == CompileRegion(RegionAt(p.imem, 0)) && x.k == k
    && x.f.flag == FlagAt(p.imem, k) && x.f.hasDelay == 0
  }

  ghost predicate MachineAt<E>(s: Status<E>, pc: nat, pending: Option<nat>) {
    s.Running? && s.m.pc == pc && s.m.pending == pending
  }

  lemma HostSteps<E>(p: Guest<E>, x: Place<E>, k: nat)
    requires HostAt(p, x, k) && k < |RegionAt(p.imem, 0).words|
    ensures var n := RunAt(p, RegionAt(p.imem, 0), k, x.f);
      n.At? ==> HostStep(p, x) == Inside(x.c, n.k, n.f)
  {
    hide RegionAt, RunAt, RunCode, CompileRegion;
    RunCodeIsRunAt(p, RegionAt(p.imem, 0), k, x.f);
  }

  /** Where the compiled code goes from label k. */
  function NextLabel(k: nat): nat { match k case 0 => 1 case 1 => 6 case 4 => 5 case 5 => 1 case 6 => 7 case _ => 4 }

  lemma HostTurn<E>(p: Guest<E>, x: Place<E>, k: nat)
    requires GuestOk(p) && HazardLoop(p.imem) && HostAt(p, x, k) && (k == 0 || k == 1 || 4 <= k <= 7)
    ensures HostAt(p, HostStep(p, x), NextLabel(k))
  {
    hide RegionAt, RunAt, CompileRegion, HostStep, HazardLoop, IsEntry, WordTarget, Taken, RunBody, LastInfo;
    LoopRegion(p.imem);
    var r, f := RegionAt(p.imem, 0), x.f;
    HostSteps(p, x, k);
    LoopKinds(r);
    if k == 0 {
      FirstStep(p, r, f);
      BodyKeeps(p, r.words[0], 0, IsEntry(r, 1), f);
    } else if k == 4 || k == 6 {
      PlainStep(p, r, k, f);
      BodyKeeps(p, r.words[k], k, IsEntry(r, k + 1), f);
    } else {
      DelayStep(p, r, k, NextLabel(k), f);
    }
  }

  /** What the steps need to know of the instructions. */
  lemma LoopKinds(r: Region)
    requires RegionOk(r) && r.base == 0 && LoopWords(r.words)
    ensures !LastInfo(r, 4).branch && !LastInfo(r, 6).branch
    ensures !LastInfo(r, 1).conditional && LastInfo(r, 5).conditional == IsEntry(r, 5)
    ensures forall k | k == 0 || k == 4 || k == 6 ::
      IsDirect(r.words[k]) && Branches(r.words[k]) && !IsBreak(r.words[k]) && !IsCop0(r.words[k])
    ensures forall g: Regs, flag: nat, next: bool :: FlagAfter(r.words[0], g, flag, next) == flag
    ensures forall g: Regs, flag: nat, next: bool :: FlagAfter(r.words[4], g, flag, next) == Truth(next)
    ensures forall g: Regs, flag: nat, next: bool :: FlagAfter(r.words[6], g, flag, next) == 1
  {
    hide WordTarget, ByteTarget, IsEntry, Taken;
    InfoBranches(r.words[3], 3, IsEntry(r, 4));
    InfoBranches(r.words[5], 5, IsEntry(r, 6));
  }

  /** The word at pc is a branch that is taken to t, or no branch at all. */
  ghost predicate Leads(i: Instr, w: nat, t: Option<nat>) {
    && !IsBreak(i) && !IsCop0(i)
    && (t.None? ==> !Branches(i))
    && (t.Some? ==> Branches(i) && !IsIndirect(i) && WordTarget(i, w) == t.value && forall g: Regs :: Taken(i, g))
  }

  lemma LeadsTo(ws: seq<Instr>, pc: nat)
    requires LoopWords(ws) && (pc == 0 || pc == 1 || 4 <= pc <= 7)
    ensures Leads(ws[pc], pc, match pc case 0 => Some(6) case 4 => Some(1) case 6 => Some(4) case _ => None)
  {
    hide WordTarget;
    forall g: Regs
      ensures pc == 0 || pc == 4 || pc == 6 ==> Taken(ws[pc], g)
    {
      TakenFacts(ws[pc], g);
    }
  }

  lemma MachineTurn<E>(p: Guest<E>, s: Status<E>, pc: nat, pending: Option<nat>, t: Option<nat>)
    requires GuestOk(p) && MachineAt(s, pc, pending) && pc < 8 && Leads(p.imem[pc], pc, t)
    ensures MachineAt(MachineStep(p, s.m), if pending.Some? then pending.value else pc + 1, t)
  {
    hide WordTarget, Taken, DataStep, Branches, IsIndirect;
  }

  /** Where both are after n steps: label and word, and the branch the machine has pending. Only the seventh differs. */
  function Trail(n: nat): (nat, nat, Option<nat>) {
    match n
    case 0 => (0, 0, None)
    case 1 => (1, 1, Some(6))
    case 2 => (6, 6, None)
    case 3 => (7, 7, Some(4))
    case 4 => (4, 4, None)
    case 5 => (5, 5, Some(1))
    case 6 => (1, 1, None)
    case _ => (6, 2, None)
  }

  lemma {:induction false} LoopRuns<E>(p: Guest<E>, f: Frame<E>, m: Machine<E>, n: nat)
    requires GuestOk(p) && HazardLoop(p.imem) && AtEntry(f, m) && m.pc == 0 && m.pending.None? && n <= 7
    ensures HostAt(p, HostRun(p, EnterRegion(p, f), n), Trail(n).0)
    ensures MachineAt(MachineRun(p, Running(m), n), Trail(n).1, Trail(n).2)
  {
    hide RegionAt, CompileRegion, HostStep, MachineStep, HazardLoop, LoopWords, FlagAt, EnterRegion, HostAt, Leads;
    if n == 0 {
      LoopStarts(p, f);
    } else {
      LoopRuns(p, f, m, n - 1);
      LoopWordsOk(p.imem);
      var pc := Trail(n - 1).1;
      HostTurn(p, HostRun(p, EnterRegion(p, f), n - 1), pc);
      LeadsTo(p.imem, pc);
      var t := match pc case 0 => Some(6) case 4 => Some(1) case 6 => Some(4) case _ => None;
      MachineTurn(p, MachineRun(p, Running(m), n - 1), pc, Trail(n - 1).2, t);
    }
  }

  lemma LoopStarts<E>(p: Guest<E>, f: Frame<E>)
    requires GuestOk(p) && Word(f.nextPc) == 0 && f.hasDelay == 0
    ensures HostAt(p, EnterRegion(p, f), 0)
  {
    hide RegionAt, CompileRegion;
    RegionAtOk(p.imem, 0);
  }

  /** Started at word 0 of such a memory, in whatever registers, compiled code and machine agree for six steps and
      part at the seventh: the compiled code is at word 6, the machine at word 2. */
  lemma HazardDiverges<E>(p: Guest<E>, f: Frame<E>, m: Machine<E>)
    requires GuestOk(p) && HazardLoop(p.imem) && AtEntry(f, m) && m.pc == 0 && m.pending.None?
    ensures HostAt(p, HostRun(p, EnterRegion(p, f), 6), 1)
    ensures MachineAt(MachineRun(p, Running(m), 6), 1, None)
    ensures HostAt(p, HostRun(p, EnterRegion(p, f), 7), 6)
    ensures MachineAt(MachineRun(p, Running(m), 7), 2, None)
    ensures !InStep(p, HostRun(p, EnterRegion(p, f), 7), MachineRun(p, Running(m), 7))
  {
    hide RegionAt, CompileRegion, HostRun, MachineRun, HazardLoop, FlagAt, EnterRegion;
    LoopRuns(p, f, m, 6);
    LoopRuns(p, f, m, 7);
    NotInStep(p, HostRun(p, EnterRegion(p, f), 7), MachineRun(p, Running(m), 7));
  }

  lemma NotInStep<E>(p: Guest<E>, x: Place<E>, s: Status<E>)
    requires HostAt(p, x, 6) && MachineAt(s, 2, None)
    ensures !InStep(p, x, s)
  {
    FitsAt(p, 0);
  }
}
