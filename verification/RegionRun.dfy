/** Whole runs: entering regions, running compiled code, crossing between regions, against the machine. */
module RegionRun {
  import opened Options
  import opened Words
  import opened HostOps
  import opened Mips
  import opened RegionCode
  import opened RegionSim
  import opened StaticEnd
  import opened RegionCompiler

  /** Run compiled code from label k to the next instruction boundary. */
  function RunCode<E>(p: Guest<E>, c: Code, k: nat, f: Frame<E>): Next<E> {
    if k >= |c.segments| then Crash else
    match Run(p, c.segments[k], 0, f)
    case Fall(f') => if k + 1 == |c.segments| then Leaving(Run(p, c.end, 0, f')) else At(k + 1, f')
    case Local(j, f') => if j < |c.labels| && c.labels[j] then At(j, f') else Crash
    case Latent(f') => Leaving(Run(p, c.latent, 0, f'))
    case Entering(f') => Out(f')
    case Returning(f') => Halt(f')
    case Stuck => Crash
  }

  lemma RunCodeIsRunAt<E>(p: Guest<E>, r: Region, k: nat, f: Frame<E>)
    requires RegionOk(r) && k < |r.words|
    ensures RunCode(p, CompileRegion(r), k, f) == RunAt(p, r, k, f)
  {
    hide Segment, Run, IsEntry, EndOfBlock, LatentCode;
    NoLabelOutside(r);
  }

  lemma NoLabelOutside(r: Region)
    ensures forall j :: j >= |r.words| ==> !IsEntry(r, j)
  {
  }

  datatype Place<E> = Inside(c: Code, k: nat, f: Frame<E>) | Finished(f: Frame<E>) | Broken

  /** The entry thunk: look the region up by its byte address and clear the branch flag. */
  function EnterRegion<E>(p: Guest<E>, f: Frame<E>): Place<E>
    requires GuestOk(p)
  {
    RegionAtOk(p.imem, Word(f.nextPc));
    Inside(CompileRegion(RegionAt(p.imem, Word(f.nextPc))), 0, f.(flag := 0))
  }

  function HostStep<E>(p: Guest<E>, x: Place<E>): Place<E>
    requires GuestOk(p)
  {
    match x
    case Inside(c, k, f) =>
      (match RunCode(p, c, k, f)
       case At(k', f') => Inside(c, k', f')
       case Out(f') => EnterRegion(p, f')
       case Halt(f') => Finished(f')
       case Crash => Broken)
    case _ => x
  }

  function HostRun<E>(p: Guest<E>, x: Place<E>, n: nat): Place<E>
    requires GuestOk(p)
  {
    if n == 0 then x else HostStep(p, HostRun(p, x, n - 1))
  }

  /** n steps of the machine; once it has stopped it stays stopped. */
  function MachineRun<E>(p: Guest<E>, s: Status<E>, n: nat): Status<E>
    requires GuestOk(p)
  {
    if n == 0 then s
    else
      var s' := MachineRun(p, s, n - 1);
      if s'.Running? && s'.m.pc < IMEM_WORDS then MachineStep(p, s'.m) else s'
  }

  /** The host place and the machine status describe the same moment of the same run. */
  ghost predicate InStep<E>(p: Guest<E>, x: Place<E>, s: Status<E>) {
    match x
    case Inside(c, k, f) =>
      && GuestOk(p)
      && c.base < IMEM_WORDS
      && RegionOk(RegionAt(p.imem, c.base))
      && c == CompileRegion(RegionAt(p.imem, c.base))
      && s.Running?
      && AtInstr(RegionAt(p.imem, c.base), k, f, s.m)
      && MachineOk(p, s.m)
      && (s.m.pending.Some? ==> s.m.pending.value < IMEM_WORDS)
    case Finished(f) => s.Stopped? && s.mode == f.mode && AtEntry(f, s.m)
    case Broken => false
  }

  /** What the programs the recompiler handles exactly have in common. */
  predicate Compilable<E>(p: Guest<E>) {
    && GuestOk(p)
    && NoDoubleBranch(p.imem)
    && forall w :: 0 <= w < IMEM_WORDS ==> NoHazard(RegionAt(p.imem, w))
  }

  /** All programs without an always-taken test of register 0, and without a branch behind a branch, are among them. */
  lemma EasyPrograms<E>(p: Guest<E>)
    requires |p.imem| == 1024
    requires forall w :: 0 <= w < 1024 ==> !(p.imem[w].op == 6 && p.imem[w].rs == 0)
    requires forall v, w :: 0 <= v < 1024 && 0 <= w < 1024 && w == (v + 1) % 1024 ==>
      !(Branches(p.imem[v]) && Branches(p.imem[w]))
    ensures Compilable(p)
  {
    hide Branches, EndOf;
    forall w | 0 <= w < IMEM_WORDS ensures NoHazard(RegionAt(p.imem, w)) {
      var r := RegionAt(p.imem, w);
      FitsAt(p, w);
      forall k | 0 <= k < |r.words| ensures !IsBlezZero(r.words[k]) {
        assert r.words[k] == p.imem[w + k];
      }
    }
  }

  lemma EnterOk<E>(p: Guest<E>, f: Frame<E>, m: Machine<E>)
    requires GuestOk(p) && AtEntry(f, m) && MachineOk(p, m) && (m.pending.Some? ==> m.pending.value < IMEM_WORDS)
    ensures InStep(p, EnterRegion(p, f), Running(m))
  {
    hide Segment, IsEntry, EndOfBlock, LatentCode;
    RegionAtOk(p.imem, Word(f.nextPc));
  }

  lemma FitsAt<E>(p: Guest<E>, w: nat)
    requires GuestOk(p) && w < IMEM_WORDS
    ensures Fits(p, RegionAt(p.imem, w)) && RegionAt(p.imem, w).base == w
  {
    RegionAtOk(p.imem, w);
    WindowOk(w);
    RegionCloses(p.imem[w..WindowEnd(w)], w);
  }

  lemma StepInStep<E>(p: Guest<E>, x: Place<E>, s: Status<E>)
    requires Compilable(p) && x.Inside? && InStep(p, x, s)
    ensures InStep(p, HostStep(p, x), MachineStep(p, s.m))
  {
    hide RegionAt, CompileRegion, RunCode, MachineStep, EnterRegion, AtInstr, AtEntry, NoHazard;
    var r := RegionAt(p.imem, x.c.base);
    FitsAt(p, x.c.base);
    AtInstrIndex(r, x.k, x.f, s.m);
    StepOk(p, r, x.k, x.f, s.m);
    RunCodeIsRunAt(p, r, x.k, x.f);
    MachineOkStep(p, s.m);
    if RunAt(p, r, x.k, x.f).Out? {
      EnterOk(p, RunAt(p, r, x.k, x.f).f, MachineStep(p, s.m).m);
    }
  }

  lemma AtInstrIndex<E>(r: Region, k: nat, f: Frame<E>, m: Machine<E>)
    requires AtInstr(r, k, f, m)
    ensures k < |r.words|
  {
  }

  lemma EntryInStep<E>(p: Guest<E>, f: Frame<E>, m: Machine<E>)
    requires GuestOk(p) && AtEntry(f, m) && m.pending.None?
    ensures InStep(p, EnterRegion(p, f), Running(m))
  {
    hide EnterRegion, InStep;
    EnterOk(p, f, m);
  }

  lemma StepsInStep<E>(p: Guest<E>, x: Place<E>, s: Status<E>)
    requires Compilable(p) && InStep(p, x, s)
    ensures InStep(p, HostStep(p, x), if s.Running? && s.m.pc < IMEM_WORDS then MachineStep(p, s.m) else s)
  {
    hide RegionAt, RunCode, MachineStep, EnterRegion, AtInstr, AtEntry, NoHazard, NoDoubleBranch;
    if x.Inside? {
      StepInStep(p, x, s);
    }
  }

  /** Main result: for every instruction memory without the excluded shapes and every number of steps,
      the compiled code is where the delay-slot machine is. */
  lemma {:induction false} CompiledRunsSimulate<E>(p: Guest<E>, f: Frame<E>, m: Machine<E>, n: nat)
    requires Compilable(p) && AtEntry(f, m) && m.pending.None?
    ensures InStep(p, HostRun(p, EnterRegion(p, f), n), MachineRun(p, Running(m), n))
  {
    hide InStep, HostStep, MachineStep, EnterRegion, NoDoubleBranch, NoHazard, RegionAt, AtEntry;
    if n == 0 {
      EntryInStep(p, f, m);
    } else {
      CompiledRunsSimulate(p, f, m, n - 1);
      StepsInStep(p, HostRun(p, EnterRegion(p, f), n - 1), MachineRun(p, Running(m), n - 1));
    }
  }

  // ---- the excluded shape -------------------------------------------------------------------

  /** In the delay slot of an always-taken test of register 0, reached by a branch rather than from the test:
      the compiled code follows the test's branch all the same, so it is right exactly when that branch
      leads to the next instruction. */
  lemma HazardExact<E>(p: Guest<E>, r: Region, k: nat, f: Frame<E>, m: Machine<E>)
    requires AtHazard(p, r, k, f, m)
    ensures Agrees(r, RunAt(p, r, k, f), MachineStep(p, m)) <==>
            WordTarget(r.words[k - 1], r.base + k - 1) == (r.base + k + 1) % IMEM_WORDS
  {
    hide Raw, WordTarget, ByteTarget, Word, IsEntry, Run, Segment, MachineStep, Delayed, Exited, RunBody;
    var i, last := r.words[k], LastInfo(r, k);
    InfoBranches(r.words[k - 1], r.base + k - 1, IsEntry(r, k));
    HazardMachine(p, r, k, f, m);
    var f1 := AfterInstr(p, i, r.base + k, IsEntry(r, k + 1), f);
    if !LeavesHere(i, f1) {
      HazardRuns(p, r, k, f);
      HazardGoes(r, k, f1, MachineStep(p, m).m);
      if InRegion(r, last.branchTarget) {
        LocalTargetMarked(r, k - 1);
      }
    } else {
      HazardStops(p, r, k, f);
      HazardLeaves(r, k, f1, MachineStep(p, m).m);
    }
  }

  /** At instruction k, the delay slot of such a test and itself no branch, with no branch pending. */
  ghost predicate AtHazard<E>(p: Guest<E>, r: Region, k: nat, f: Frame<E>, m: Machine<E>) {
    && Fits(p, r) && 0 < k < |r.words| && IsBlezZero(r.words[k - 1]) && !Branches(r.words[k])
    && Shows(f, m) && m.pc == r.base + k && m.pending.None? && f.hasDelay == 0
  }

  /** The frame after the instruction itself, whichever kind it is. */
  function AfterInstr<E>(p: Guest<E>, i: Instr, w: nat, next: bool, f: Frame<E>): Frame<E> {
    if IsBreak(i) then f.(mode := Break)
    else if IsCop0(i) then
      var o := p.other(i, f.g, f.e);
      f.(g := o.g, e := o.e, mode := o.mode)
    else RunBody(p, i, w, next, f)
  }

  /** It leaves the region. */
  predicate LeavesHere<E>(i: Instr, f1: Frame<E>) { (IsBreak(i) || IsCop0(i)) && f1.mode != Continue }

  lemma HazardMachine<E>(p: Guest<E>, r: Region, k: nat, f: Frame<E>, m: Machine<E>)
    requires AtHazard(p, r, k, f, m)
    ensures var s, f1 := MachineStep(p, m), AfterInstr(p, r.words[k], r.base + k, IsEntry(r, k + 1), f);
      && (s.Stopped? <==> LeavesHere(r.words[k], f1)) && (s.Stopped? ==> s.mode == f1.mode)
      && s.m.pc == (r.base + k + 1) % IMEM_WORDS && s.m.pending.None? && Shows(f1, s.m) && f1.hasDelay == 0
  {
    assert r.words[k] == p.imem[m.pc];
  }

  /** Leaving by an exit that follows the test's branch. */
  lemma HazardLeaves<E>(r: Region, k: nat, f1: Frame<E>, m': Machine<E>)
    requires RegionOk(r) && 0 < k < |r.words| && IsBlezZero(r.words[k - 1])
    requires m'.pc == (r.base + k + 1) % IMEM_WORDS && m'.pending.None? && Shows(f1, m') && f1.hasDelay == 0
    ensures AtEntry(Exited(r.base + k, LastInfo(r, k), false, f1), m') <==>
            WordTarget(r.words[k - 1], r.base + k - 1) == m'.pc
    ensures Exited(r.base + k, LastInfo(r, k), false, f1).mode == f1.mode
  {
    hide Raw, WordTarget, ByteTarget, Word, IsEntry;
    InfoBranches(r.words[k - 1], r.base + k - 1, IsEntry(r, k));
  }

  lemma BlezZeroInfo(i: Instr, w: nat, next: bool)
    requires IsBlezZero(i)
    ensures var info := InfoOf(i, w, next);
      info.branch && !info.conditional && !info.indirect && Word(info.branchTarget) == WordTarget(i, w)
  {
    hide Raw, WordTarget, ByteTarget, Word;
    InfoBranches(i, w, next);
  }

  lemma HazardGoes<E>(r: Region, k: nat, f1: Frame<E>, m': Machine<E>)
    requires RegionOk(r) && 0 < k < |r.words| && IsBlezZero(r.words[k - 1]) && !Branches(r.words[k])
    requires m'.pc == (r.base + k + 1) % IMEM_WORDS && m'.pending.None? && Shows(f1, m') && f1.hasDelay == 0
    ensures var last, t := LastInfo(r, k), WordTarget(r.words[k - 1], r.base + k - 1);
      match Delayed(r, last, f1)
      case Local(j, f') =>
        InRegion(r, last.branchTarget) && j == LocalIndex(r, last.branchTarget) && j < |r.words| &&
        (AtInstr(r, j, f', m') <==> t == m'.pc)
      case Entering(f') => AtEntry(f', m') <==> t == m'.pc
      case _ => false
  {
    hide InfoOf, IsBlezZero, Branches, WordTarget, Word, IsEntry;
    var last := LastInfo(r, k);
    BlezZeroInfo(r.words[k - 1], r.base + k - 1, IsEntry(r, k));
    InfoBranches(r.words[k], r.base + k, IsEntry(r, k + 1));
    if InRegion(r, last.branchTarget) {
      LocalTargetMarked(r, k - 1);
      NextLabelPending(r, k, Delayed(r, last, f1).f);
      NextWord(r, k);
    }
  }

  lemma HazardRuns<E>(p: Guest<E>, r: Region, k: nat, f: Frame<E>)
    requires Fits(p, r) && 0 < k < |r.words| && IsBlezZero(r.words[k - 1]) && !Branches(r.words[k])
    requires !LeavesHere(r.words[k], AfterInstr(p, r.words[k], r.base + k, IsEntry(r, k + 1), f))
    ensures Run(p, Segment(r, k), 0, f) ==
            Delayed(r, LastInfo(r, k), AfterInstr(p, r.words[k], r.base + k, IsEntry(r, k + 1), f))
  {
    InfoBranches(r.words[k - 1], r.base + k - 1, IsEntry(r, k));
    DelayRuns(p, r, k, f);
  }

  /** In a delay slot: the instruction, then the branch. */
  lemma DelayRuns<E>(p: Guest<E>, r: Region, k: nat, f: Frame<E>)
    requires 0 < k < |r.words| && LastInfo(r, k).branch && !Branches(r.words[k])
    requires !LeavesHere(r.words[k], AfterInstr(p, r.words[k], r.base + k, IsEntry(r, k + 1), f))
    ensures Run(p, Segment(r, k), 0, f) ==
            Delayed(r, LastInfo(r, k), AfterInstr(p, r.words[k], r.base + k, IsEntry(r, k + 1), f))
  {
    hide Raw, WordTarget, ByteTarget, Word, IsEntry, RunBody, DelaySlot, Delayed, ExitDynamic, LastInfo, Run;
    var i, w, last := r.words[k], r.base + k, LastInfo(r, k);
    InfoBranches(i, w, IsEntry(r, k + 1));
    var f1 := AfterInstr(p, i, w, IsEntry(r, k + 1), f);
    DelaySlotRuns(p, r, last, f1);
    InstrRuns(p, i, w, last, IsEntry(r, k + 1), DelaySlot(r, last), f);
    assert Tail(r, k) == DelaySlot(r, last);
  }

  /** The operations of an instruction that does not leave the region go on with what follows them. */
  lemma InstrRuns<E>(p: Guest<E>, i: Instr, w: nat, last: Info, next: bool, tail: seq<HostOp>, f: Frame<E>)
    requires !LeavesHere(i, AfterInstr(p, i, w, next, f))
    ensures Run(p, InstrOps(i, w, last, false, next) + tail, 0, f) == Run(p, tail, 0, AfterInstr(p, i, w, next, f))
  {
    hide RunBody, ExitDynamic, Run;
    var f1 := AfterInstr(p, i, w, next, f);
    if IsCop0(i) {
      var exit := ExitDynamic(w, last, false);
      var a := [CallCop0(i), SkipIfContinue(|exit|)] + exit;
      RunStep(p, a + tail, 0, f);
      RunStep(p, a + tail, 1, f1);
      RunShift(p, a, tail, 0, f1);
    } else {
      RunOne(p, Body(i, w, next), tail, f, f1);
    }
  }

  /** An instruction that leaves the region runs the exit code. */
  lemma HazardStops<E>(p: Guest<E>, r: Region, k: nat, f: Frame<E>)
    requires 0 < k < |r.words|
    requires LeavesHere(r.words[k], AfterInstr(p, r.words[k], r.base + k, IsEntry(r, k + 1), f))
    ensures Run(p, Segment(r, k), 0, f) ==
            Returning(Exited(r.base + k, LastInfo(r, k), false,
                             AfterInstr(p, r.words[k], r.base + k, IsEntry(r, k + 1), f)))
  {
    hide Raw, WordTarget, ByteTarget, Word, IsEntry, RunBody, DelaySlot, ExitDynamic, Exited, LastInfo, Tail, Run;
    var i, w, last := r.words[k], r.base + k, LastInfo(r, k);
    var f1 := AfterInstr(p, i, w, IsEntry(r, k + 1), f);
    var exit, tail := ExitDynamic(w, last, false), Tail(r, k);
    ExitRuns(p, w, last, false, f1);
    RunPrefix(p, exit, tail, 0, f1);
    if IsBreak(i) {
      assert Segment(r, k) == [SetMode(Break)] + (exit + tail);
      RunOne(p, SetMode(Break), exit + tail, f, f1);
    } else {
      var a := [CallCop0(i), SkipIfContinue(|exit|)];
      assert Segment(r, k) == a + (exit + tail);
      RunStep(p, Segment(r, k), 0, f);
      RunStep(p, Segment(r, k), 1, f1);
      RunShift(p, a, exit + tail, 0, f1);
    }
  }

  lemma RunOne<E>(p: Guest<E>, op: HostOp, b: seq<HostOp>, f: Frame<E>, f1: Frame<E>)
    requires Do(p, op, f) == Go(0, f1)
    ensures Run(p, [op] + b, 0, f) == Run(p, b, 0, f1)
  {
    RunShift(p, [op], b, 0, f1);
    assert ([op] + b)[0] == op;
  }

  lemma NextLabelPending<E>(r: Region, k: nat, f: Frame<E>)
    requires k < |r.words| && !InfoAt(r, k).branch
    ensures k + 1 < |r.words| ==> PendingIs(LastInfo(r, k + 1), f, None)
  {
  }

  /** Regions that show it: word 4 jumps to word 1, the delay slot of the test at word 0. The machine
      goes on to word 2, the compiled code to word 6. */
  predicate ShowsHazard(r: Region) {
    && r.base == 0 && |r.words| > 4
    && Encodes(r.words[0], 6, 5)
    && Encodes(r.words[1], 0, 0)
    && Encodes(r.words[4], 2, 1)
  }

  predicate Encodes(i: Instr, op: nat, imm: nat) {
    i.op == op && i.rs == 0 && i.rt == 0 && i.imm == imm
  }

  lemma EncodedFields(i: Instr, op: nat, imm: nat)
    requires Encodes(i, op, imm) && imm < 64
    ensures i.funct == imm && Raw(i) == op * 0x400_0000 + imm
  {
  }

  lemma BlezZeroTarget(i: Instr)
    requires Encodes(i, 6, 5)
    ensures IsBlezZero(i) && WordTarget(i, 0) == 6
  {
    hide Raw;
    EncodedFields(i, 6, 5);
    QuadResidue(0 + 1 + Raw(i), 0x6_0000, 6);
  }

  lemma QuadResidue(x: nat, q: nat, s: nat)
    requires x == 1024 * q + s && s < 1024
    ensures x % 1024 == s
  {
  }

  lemma NopFacts(i: Instr)
    requires Encodes(i, 0, 0)
    ensures !Branches(i) && !IsBreak(i) && !IsCop0(i)
  {
    EncodedFields(i, 0, 0);
  }

  lemma JumpTarget(i: Instr)
    requires Encodes(i, 2, 1)
    ensures IsDirect(i) && WordTarget(i, 4) == 1
  {
    EncodedFields(i, 2, 1);
  }

  lemma HazardFails<E>(p: Guest<E>, r: Region, f: Frame<E>, m: Machine<E>)
    requires Fits(p, r) && ShowsHazard(r)
    requires Shows(f, m) && m.pc == 1 && m.pending.None? && f.hasDelay == 0
    ensures IsEntry(r, 1) && !Agrees(r, RunAt(p, r, 1, f), MachineStep(p, m))
  {
    hide RunAt, MachineStep, Agrees, IsEntry, WordTarget, IsBlezZero, Branches, IsBreak, IsCop0, IsDirect, Encodes;
    BlezZeroTarget(r.words[0]);
    NopFacts(r.words[1]);
    JumpTarget(r.words[4]);
    MarkedBy(r, 4, 1);
    HazardExact(p, r, 1, f, m);
  }

  /** The recompiler makes such a region from every memory with 0x18000005 at word 0, 0 at word 1 and
      0x08000001 at word 4. */
  lemma HazardOccurs<E>(p: Guest<E>)
    requires GuestOk(p) && Encodes(p.imem[0], 6, 5) && Encodes(p.imem[1], 0, 0) && Encodes(p.imem[4], 2, 1)
    ensures Fits(p, RegionAt(p.imem, 0)) && ShowsHazard(RegionAt(p.imem, 0))
  {
    hide EndOf, Scan, WordTarget, Judge, RegionAt, Encodes;
    FitsAt(p, 0);
    FirstRegion(p.imem);
    BlezZeroTarget(p.imem[0]);
    ReachesTarget(p.imem[0..128]);
  }

  lemma FirstRegion(imem: seq<Instr>)
    requires |imem| == IMEM_WORDS
    ensures WindowEnd(0) == 128 && |RegionAt(imem, 0).words| == EndOf(imem[0..128], 0)
  {
    hide EndOf;
    WindowOk(0);
    RegionCloses(imem[0..WindowEnd(0)], 0);
  }

  /** A conditional branch in the first word to word 6 makes the region longer than that. */
  lemma ReachesTarget(words: seq<Instr>)
    requires |words| > 6 && IsRelative(words[0]) && WordTarget(words[0], 0) == 6
    ensures EndOf(words, 0) > 6
  {
    hide WordTarget, Scan;
    ScanStarts(words);
    ScanCovers(words, 0, 0, 0, 0);
    EndOfScan(words, 0);
  }

  lemma ScanStarts(words: seq<Instr>)
    requires |words| > 6 && IsRelative(words[0])
    ensures Scan(words, 0, 0, 0).0 > 0
  {
    hide WordTarget;
    var v := Judge(words[0], 0, false, 1, 0, |words|);
    assert v.More?;
    ScanBounds(words, 0, 1, v.max);
  }
}
