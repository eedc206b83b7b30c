/** A compiled region simulates the delay-slot machine, instruction by instruction. */
module RegionSim {
  import opened Options
  import opened Words
  import opened HostOps
  import opened Mips
  import opened RegionCode

  // ---- what each piece of control code does -------------------------------------------------

  lemma {:induction false} RunShift<E>(p: Guest<E>, a: seq<HostOp>, b: seq<HostOp>, k: nat, f: Frame<E>)
    ensures Run(p, a + b, |a| + k, f) == Run(p, b, k, f)
    decreases |b| - k
  {
    hide Do;
    if k < |b| {
      assert (a + b)[|a| + k] == b[k];
      if Do(p, b[k], f).Go? {
        RunShift(p, a, b, k + 1 + Do(p, b[k], f).jump, Do(p, b[k], f).f);
      }
    }
  }

  lemma RunStep<E>(p: Guest<E>, code: seq<HostOp>, k: nat, f: Frame<E>)
    requires k < |code| && Do(p, code[k], f).Go?
    ensures Run(p, code, k, f) == Run(p, code, k + 1 + Do(p, code[k], f).jump, Do(p, code[k], f).f)
  {
    hide Do;
  }

  lemma RunLeaves<E>(p: Guest<E>, code: seq<HostOp>, k: nat, f: Frame<E>)
    requires k < |code| && Do(p, code[k], f).Gone?
    ensures Run(p, code, k, f) == Do(p, code[k], f).l
  {
    hide Do;
  }

  lemma RunEnds<E>(p: Guest<E>, code: seq<HostOp>, k: nat, f: Frame<E>)
    requires k >= |code|
    ensures Run(p, code, k, f) == Fall(f)
  {
  }

  function BranchAddress<E>(last: Info, f: Frame<E>): nat {
    if last.indirect then f.ind else last.branchTarget
  }

  /** The frame on leaving through ExitDynamic. */
  function Exited<E>(w: nat, last: Info, first: bool, f: Frame<E>): Frame<E> {
    if first then f.(nextPc := if f.hasDelay != 0 then f.branchTarget else PcAfter(w), hasDelay := 0)
    else f.(nextPc := if last.branch && (!last.conditional || f.flag != 0) then BranchAddress(last, f) else PcAfter(w))
  }

  lemma ExitRuns<E>(p: Guest<E>, w: nat, last: Info, first: bool, f: Frame<E>)
    ensures Run(p, ExitDynamic(w, last, first), 0, f) == Returning(Exited(w, last, first, f))
  {
    hide Run, PcAfter, Do, Exited;
    if first {
      if f.hasDelay != 0 {
        CarriedExitRuns(p, w, last, f);
      } else {
        FirstExitRuns(p, w, last, f);
      }
    } else if last.branch && last.conditional {
      if f.flag != 0 {
        TakenExitRuns(p, w, last, f);
      } else {
        UntakenExitRuns(p, w, last, f);
      }
    } else {
      PlainExitRuns(p, w, last, f);
    }
  }

  lemma PlainExitRuns<E>(p: Guest<E>, w: nat, last: Info, f: Frame<E>)
    requires !(last.branch && last.conditional)
    ensures Run(p, ExitDynamic(w, last, false), 0, f) == Returning(Exited(w, last, false, f))
  {
    hide Run, PcAfter;
    var c := ExitDynamic(w, last, false);
    RunStep(p, c, 0, f);
    RunLeaves(p, c, 1, Exited(w, last, false, f));
  }

  /** Leaving from the first instruction, the delay slot carried in. */
  lemma CarriedExitRuns<E>(p: Guest<E>, w: nat, last: Info, f: Frame<E>)
    requires f.hasDelay != 0
    ensures Run(p, ExitDynamic(w, last, true), 0, f) == Returning(Exited(w, last, true, f))
  {
    hide Run, PcAfter;
    var c := ExitDynamic(w, last, true);
    var f1 := f.(nextPc := f.hasDelay);
    RunStep(p, c, 0, f);
    RunStep(p, c, 1, f1);
    RunStep(p, c, 4, f1);
    RunStep(p, c, 5, f1.(hasDelay := 0));
    RunLeaves(p, c, 6, Exited(w, last, true, f));
  }

  lemma FirstExitRuns<E>(p: Guest<E>, w: nat, last: Info, f: Frame<E>)
    requires f.hasDelay == 0
    ensures Run(p, ExitDynamic(w, last, true), 0, f) == Returning(Exited(w, last, true, f))
  {
    hide Run, PcAfter;
    var c := ExitDynamic(w, last, true);
    var f1 := f.(nextPc := f.hasDelay);
    RunStep(p, c, 0, f);
    RunStep(p, c, 1, f1);
    RunStep(p, c, 2, f1);
    RunLeaves(p, c, 3, f1.(nextPc := PcAfter(w)));
  }

  /** Leaving from the delay slot of a branch that is taken, or not. */
  lemma TakenExitRuns<E>(p: Guest<E>, w: nat, last: Info, f: Frame<E>)
    requires last.branch && last.conditional && f.flag != 0
    ensures Run(p, ExitDynamic(w, last, false), 0, f) == Returning(Exited(w, last, false, f))
  {
    hide Run, PcAfter;
    var c := ExitDynamic(w, last, false);
    var f1 := f.(nextPc := f.flag);
    RunStep(p, c, 0, f);
    RunStep(p, c, 1, f1);
    RunStep(p, c, 2, f1);
    RunStep(p, c, 3, f1.(nextPc := BranchAddress(last, f)));
    RunLeaves(p, c, 5, Exited(w, last, false, f));
  }

  lemma UntakenExitRuns<E>(p: Guest<E>, w: nat, last: Info, f: Frame<E>)
    requires last.branch && last.conditional && f.flag == 0
    ensures Run(p, ExitDynamic(w, last, false), 0, f) == Returning(Exited(w, last, false, f))
  {
    hide Run, PcAfter;
    var c := ExitDynamic(w, last, false);
    var f1 := f.(nextPc := f.flag);
    RunStep(p, c, 0, f);
    RunStep(p, c, 1, f1);
    RunStep(p, c, 4, f1);
    RunLeaves(p, c, 5, Exited(w, last, false, f));
  }

  /** Where control goes after a delay slot. */
  function Delayed<E>(r: Region, last: Info, f: Frame<E>): Leave<E> {
    var f1 := (if last.conditional then f.(scratch := f.flag) else f).(flag := 0);
    if last.conditional && f.flag == 0 then Fall(f1)
    else if !last.indirect && InRegion(r, last.branchTarget) then Local(LocalIndex(r, last.branchTarget), f1)
    else Entering(f1.(nextPc := BranchAddress(last, f)))
  }

  lemma DelaySlotRuns<E>(p: Guest<E>, r: Region, last: Info, f: Frame<E>)
    ensures Run(p, DelaySlot(r, last), 0, f) == Delayed(r, last, f)
  {
    hide Run, InRegion, LocalIndex;
    if last.conditional {
      ConditionalSlotRuns(p, r, last, f);
    } else {
      var c := DelaySlot(r, last);
      var f2 := f.(flag := 0);
      RunStep(p, c, 0, f);
      if !last.indirect && InRegion(r, last.branchTarget) {
        RunLeaves(p, c, 1, f2);
      } else {
        RunStep(p, c, 1, f2);
        RunLeaves(p, c, 2, f2.(nextPc := BranchAddress(last, f)));
      }
    }
  }

  lemma ConditionalSlotRuns<E>(p: Guest<E>, r: Region, last: Info, f: Frame<E>)
    requires last.conditional
    ensures Run(p, DelaySlot(r, last), 0, f) == Delayed(r, last, f)
  {
    hide Run, InRegion, LocalIndex;
    if !last.indirect && InRegion(r, last.branchTarget) {
      LocalSlotRuns(p, r, last, f);
    } else {
      var c, f2 := DelaySlot(r, last), f.(scratch := f.flag, flag := 0);
      RunStep(p, c, 0, f);
      RunStep(p, c, 1, f.(scratch := f.flag));
      RunStep(p, c, 2, f2);
      if f.flag == 0 {
        RunEnds(p, c, 5, f2);
      } else {
        RunStep(p, c, 3, f2);
        RunLeaves(p, c, 4, f2.(nextPc := BranchAddress(last, f)));
      }
    }
  }

  lemma LocalSlotRuns<E>(p: Guest<E>, r: Region, last: Info, f: Frame<E>)
    requires last.conditional && !last.indirect && InRegion(r, last.branchTarget)
    ensures Run(p, DelaySlot(r, last), 0, f) == Delayed(r, last, f)
  {
    hide Run, InRegion, LocalIndex;
    var c, f2 := DelaySlot(r, last), f.(scratch := f.flag, flag := 0);
    RunStep(p, c, 0, f);
    RunStep(p, c, 1, f.(scratch := f.flag));
    if f.flag == 0 {
      RunStep(p, c, 2, f2);
      RunEnds(p, c, 3, f2);
    } else {
      RunLeaves(p, c, 2, f2);
    }
  }

  /** The frame on running off the end of the region. */
  function Ended<E>(r: Region, f: Frame<E>): Frame<E> {
    var last := LastInfo(r, |r.words|);
    (if last.branch && (!last.conditional || f.flag != 0)
     then f.(branchTarget := BranchAddress(last, f), hasDelay := 1) else f).(nextPc := 4 * (r.base + |r.words|))
  }

  lemma EndOfBlockRuns<E>(p: Guest<E>, r: Region, f: Frame<E>)
    ensures Run(p, EndOfBlock(r), 0, f) == Entering(Ended(r, f))
  {
    hide Run, InfoAt;
    var c, last := EndOfBlock(r), LastInfo(r, |r.words|);
    var pc := 4 * (r.base + |r.words|);
    if last.branch {
      var s := if last.conditional then 1 else 0;
      if last.conditional {
        RunStep(p, c, 0, f);
      }
      if last.conditional && f.flag == 0 {
        RunStep(p, c, 3, f);
        RunLeaves(p, c, 4, f.(nextPc := pc));
      } else {
        var f1 := f.(branchTarget := BranchAddress(last, f));
        RunStep(p, c, s, f);
        RunStep(p, c, s + 1, f1);
        RunStep(p, c, s + 2, f1.(hasDelay := 1));
        RunLeaves(p, c, s + 3, Ended(r, f));
      }
    } else {
      RunStep(p, c, 0, f);
      RunLeaves(p, c, 1, f.(nextPc := pc));
    }
  }

  /** Operations that never run past a's end behave alike with more code behind them. */
  lemma {:induction false} RunPrefix<E>(p: Guest<E>, a: seq<HostOp>, b: seq<HostOp>, k: nat, f: Frame<E>)
    requires !Run(p, a, k, f).Fall?
    ensures Run(p, a + b, k, f) == Run(p, a, k, f)
    decreases |a| - k
  {
    hide Do;
    assert (a + b)[k] == a[k];
    if Do(p, a[k], f).Go? {
      RunPrefix(p, a, b, k + 1 + Do(p, a[k], f).jump, Do(p, a[k], f).f);
    }
  }

  // ---- one instruction of a region ----------------------------------------------------------

  datatype Next<E> = At(k: nat, f: Frame<E>) | Out(f: Frame<E>) | Halt(f: Frame<E>) | Crash

  function Leaving<E>(l: Leave<E>): Next<E> {
    match l
    case Entering(f) => Out(f)
    case Returning(f) => Halt(f)
    case _ => Crash
  }

  /** Run the code from label k up to the next instruction boundary. A goto to an unmarked index has no label. */
  function RunAt<E>(p: Guest<E>, r: Region, k: nat, f: Frame<E>): Next<E>
    requires k < |r.words|
  {
    Resolved(p, r, k, Run(p, Segment(r, k), 0, f))
  }

  /** Where leaving the code of instruction k leads. */
  function Resolved<E>(p: Guest<E>, r: Region, k: nat, l: Leave<E>): Next<E>
    requires k < |r.words|
  {
    match l
    case Fall(f') => if k + 1 == |r.words| then Leaving(Run(p, EndOfBlock(r), 0, f')) else At(k + 1, f')
    case Local(j, f') => if IsEntry(r, j) then At(j, f') else Crash
    case Latent(f') => Leaving(Run(p, LatentCode(r), 0, f'))
    case Entering(f') => Out(f')
    case Returning(f') => Halt(f')
    case Stuck => Crash
  }

  /** The pending branch of the machine is the one the recompiler knows from the preceding instruction. */
  predicate PendingIs<E>(info: Info, f: Frame<E>, pending: Option<nat>) {
    if !info.branch then pending.None?
    else
      && (pending.Some? ==> pending.value == Word(BranchAddress(info, f)))
      && (pending.Some? <==> (!info.conditional || f.flag != 0))
  }

  /** The pending branch of the machine is the one handed over by the previous region. */
  predicate Carried<E>(f: Frame<E>, pending: Option<nat>) {
    && (pending.Some? <==> f.hasDelay != 0)
    && (pending.Some? ==> pending.value == Word(f.branchTarget))
  }

  ghost predicate Shows<E>(f: Frame<E>, m: Machine<E>) { f.g == m.g && f.e == m.e }

  /** Host at label k of the region and machine m are at the same point of the same program. */
  ghost predicate AtInstr<E>(r: Region, k: nat, f: Frame<E>, m: Machine<E>) {
    && k < |r.words|
    && m.pc == r.base + k
    && Shows(f, m)
    && (if k == 0 then Carried(f, m.pending) else f.hasDelay == 0 && PendingIs(LastInfo(r, k), f, m.pending))
  }

  ghost predicate AtEntry<E>(f: Frame<E>, m: Machine<E>) {
    Shows(f, m) && m.pc == Word(f.nextPc) && Carried(f, m.pending)
  }

  ghost predicate Agrees<E>(r: Region, n: Next<E>, s: Status<E>) {
    match n
    case At(k, f) => s.Running? && AtInstr(r, k, f, s.m)
    case Out(f) => s.Running? && AtEntry(f, s.m)
    case Halt(f) => s.Stopped? && f.mode == s.mode && AtEntry(f, s.m)
    case Crash => false
  }

  /** No branch sits in the delay slot of another. */
  predicate NoDoubleBranch(imem: seq<Instr>)
    requires |imem| == IMEM_WORDS
  {
    forall v, w :: 0 <= v < IMEM_WORDS && 0 <= w < IMEM_WORDS && w == (v + 1) % IMEM_WORDS ==>
      !(Branches(imem[v]) && Branches(imem[w]))
  }

  /** Nobody in the region branches into the delay slot of an always-taken test of register 0. */
  predicate NoHazard(r: Region) {
    forall k :: 0 <= k < |r.words| && IsBlezZero(r.words[k]) ==> !IsEntry(r, k + 1)
  }

  predicate Fits<E>(p: Guest<E>, r: Region) {
    GuestOk(p) && RegionOk(r) && r.words == p.imem[r.base..r.base + |r.words|]
  }

  /** A machine in a delay slot is not at a branch. */
  predicate MachineOk<E>(p: Guest<E>, m: Machine<E>) {
    GuestOk(p) && m.pc < IMEM_WORDS && (m.pending.Some? ==> !Branches(p.imem[m.pc]))
  }

  lemma MachineOkStep<E>(p: Guest<E>, m: Machine<E>)
    requires GuestOk(p) && NoDoubleBranch(p.imem) && MachineOk(p, m)
    requires m.pending.Some? ==> m.pending.value < IMEM_WORDS
    ensures MachineOk(p, MachineStep(p, m).m)
    ensures MachineStep(p, m).m.pending.Some? ==> MachineStep(p, m).m.pending.value < IMEM_WORDS
  {
  }

  /** The frame after the code of the instruction itself, and the machine after its step. */
  ghost predicate BodyDone<E>(r: Region, k: nat, f: Frame<E>, f1: Frame<E>, m: Machine<E>, m': Machine<E>) {
    && k < |r.words|
    && Shows(f1, m')
    && f1.hasDelay == f.hasDelay && f1.branchTarget == f.branchTarget
    && PendingIs(InfoAt(r, k), f1, m'.pending)
    && (!InfoAt(r, k).branch ==> f1.flag == f.flag && f1.ind == f.ind)
    && m'.pc == if m.pending.Some? then m.pending.value else (m.pc + 1) % IMEM_WORDS
  }

  lemma InfoBranches(i: Instr, w: nat, next: bool)
    ensures InfoOf(i, w, next).branch == Branches(i)
    ensures InfoOf(i, w, next).handlesDelaySlot == IsBreak(i)
    ensures Branches(i) && !IsIndirect(i) ==>
      && InfoOf(i, w, next).branchTarget == 4 * WordTarget(i, w)
      && Word(InfoOf(i, w, next).branchTarget) == WordTarget(i, w)
  {
    if Branches(i) && !IsIndirect(i) {
      TargetsAgree(i, w);
      QuadMod(WordTarget(i, w));
    }
  }

  lemma BodyOk<E>(p: Guest<E>, r: Region, k: nat, f: Frame<E>, m: Machine<E>)
    requires Fits(p, r) && AtInstr(r, k, f, m)
    requires !IsBreak(r.words[k]) && !IsCop0(r.words[k])
    ensures MachineStep(p, m).Running?
    ensures BodyDone(r, k, f, RunBody(p, r.words[k], r.base + k, IsEntry(r, k + 1), f), m, MachineStep(p, m).m)
  {
    hide Raw, WordTarget, ByteTarget, Word, DataStep, IsEntry, Taken;
    var i := r.words[k];
    assert i == p.imem[m.pc];
    InfoBranches(i, r.base + k, IsEntry(r, k + 1));
    TakenFacts(i, m.g);
  }

  lemma TakenFacts(i: Instr, g: Regs)
    ensures IsJump(i) || IsIndirect(i) || IsBlezZero(i) ==> Taken(i, g)
  {
  }

  lemma Cop0Ok<E>(p: Guest<E>, r: Region, k: nat, f: Frame<E>, m: Machine<E>)
    requires Fits(p, r) && AtInstr(r, k, f, m) && IsCop0(r.words[k])
    ensures var o := p.other(r.words[k], f.g, f.e);
      if o.mode == Continue then
        && MachineStep(p, m).Running?
        && BodyDone(r, k, f, f.(g := o.g, e := o.e, mode := o.mode), m, MachineStep(p, m).m)
      else
        && MachineStep(p, m).Stopped? && MachineStep(p, m).mode == o.mode
        && BodyDone(r, k, f, f.(g := o.g, e := o.e, mode := o.mode), m, MachineStep(p, m).m)
  {
    var i := r.words[k];
    assert i == p.imem[m.pc];
  }

  // ---- the control code after the instruction -----------------------------------------------

  lemma NextWord(r: Region, k: nat)
    requires RegionOk(r) && k < |r.words|
    ensures k + 1 == |r.words| ==> Word(4 * (r.base + |r.words|)) == (r.base + k + 1) % IMEM_WORDS
    ensures k + 1 < |r.words| ==> (r.base + k + 1) % IMEM_WORDS == r.base + k + 1
    ensures Word(PcAfter(r.base + k)) == (r.base + k + 1) % IMEM_WORDS
  {
    QuadMod(r.base + k + 1);
  }

  /** Falling through to the next instruction, or off the end of the region. */
  lemma FallOk<E>(p: Guest<E>, r: Region, k: nat, f: Frame<E>, m: Machine<E>)
    requires RegionOk(r) && k < |r.words| && m.pc == (r.base + k + 1) % IMEM_WORDS
    requires Shows(f, m) && f.hasDelay == 0 && PendingIs(InfoAt(r, k), f, m.pending)
    ensures Agrees(r, if k + 1 == |r.words| then Leaving(Run(p, EndOfBlock(r), 0, f)) else At(k + 1, f), Running(m))
  {
    hide Run, EndOfBlock, InfoAt, Word, Leaving;
    NextWord(r, k);
    assert LastInfo(r, k + 1) == InfoAt(r, k);
    if k + 1 == |r.words| {
      EndOfBlockRuns(p, r, f);
      LeavingEntering(Ended(r, f));
    }
  }

  lemma LeavingEntering<E>(f: Frame<E>)
    ensures Leaving(Entering(f)) == Out(f)
  {
  }

  lemma FirstTailOk<E>(p: Guest<E>, r: Region, f: Frame<E>, f1: Frame<E>, m: Machine<E>, m': Machine<E>)
    requires Fits(p, r) && AtInstr(r, 0, f, m) && MachineOk(p, m) && BodyDone(r, 0, f, f1, m, m')
    requires !InfoAt(r, 0).handlesDelaySlot
    ensures var l := Run(p, Tail(r, 0), 0, f1);
      && (l.Fall? || l.Latent?)
      && (l.Fall? ==> m.pending.None? && l.f == f1.(scratch := f1.hasDelay))
      && (l.Latent? ==> Agrees(r, Leaving(Run(p, LatentCode(r), 0, l.f)), Running(m')))
  {
    hide InfoOf, Word, IsEntry;
    var t := Tail(r, 0);
    var f2 := f1.(scratch := f1.hasDelay);
    assert Run(p, t, 1, f2) == Run(p, t, 0, f1);
    assert f1.hasDelay == 0 ==> Run(p, t, 2, f2) == Run(p, t, 1, f2);
    if m.pending.Some? {
      assert r.words[0] == p.imem[m.pc];
      InfoBranches(r.words[0], r.base, IsEntry(r, 1));
      var c := LatentCode(r);
      assert Run(p, c, 1, f2.(hasDelay := 0)) == Run(p, c, 0, f2);
      assert Run(p, c, 2, f2.(hasDelay := 0, nextPc := f2.branchTarget)) == Run(p, c, 1, f2.(hasDelay := 0));
    }
  }

  /** A local goto always finds its label. */
  lemma LocalTargetMarked(r: Region, k: nat)
    requires RegionOk(r) && k < |r.words| && InfoAt(r, k).branch && !InfoAt(r, k).indirect
    requires InRegion(r, InfoAt(r, k).branchTarget)
    ensures IsEntry(r, LocalIndex(r, InfoAt(r, k).branchTarget))
    ensures Word(InfoAt(r, k).branchTarget) == r.base + LocalIndex(r, InfoAt(r, k).branchTarget)
  {
    hide Raw, WordTarget, ByteTarget, Word, IsEntry;
    var i := r.words[k];
    InfoBranches(i, r.base + k, IsEntry(r, k + 1));
    MarkedBy(r, k, LocalIndex(r, InfoAt(r, k).branchTarget));
  }

  lemma MarkedBy(r: Region, k: nat, j: nat)
    requires LinksTo(r, k, j) && j < |r.words|
    ensures IsEntry(r, j)
  {
  }

  lemma DelayTailOk<E>(p: Guest<E>, r: Region, k: nat, f: Frame<E>, f1: Frame<E>, m: Machine<E>, m': Machine<E>)
    requires Fits(p, r) && k > 0 && AtInstr(r, k, f, m) && BodyDone(r, k, f, f1, m, m') && NoHazard(r)
    requires LastInfo(r, k).branch && !InfoAt(r, k).branch
    ensures match Delayed(r, LastInfo(r, k), f1)
      case Fall(f') => m.pending.None? && f' == f1.(scratch := f1.flag, flag := 0)
      case Local(j, f') => IsEntry(r, j) && Agrees(r, At(j, f'), Running(m'))
      case Entering(f') => Agrees(r, Out(f'), Running(m'))
      case _ => false
  {
    hide InfoOf, Word, IsEntry;
    var last := LastInfo(r, k);
    if m.pending.Some? && !last.indirect && InRegion(r, last.branchTarget) {
      LocalTargetMarked(r, k - 1);
      var j := LocalIndex(r, last.branchTarget);
      EntryFlag(r, j, Delayed(r, last, f1).f);
    }
  }

  /** Whoever branches to label j with the flag clear finds no branch pending there. */
  lemma EntryFlag<E>(r: Region, j: nat, f: Frame<E>)
    requires NoHazard(r) && IsEntry(r, j) && f.flag == 0
    ensures j > 0 ==> PendingIs(LastInfo(r, j), f, None)
  {
  }

  /** From the end of the instruction's own code to the next boundary. */
  lemma TailOk<E>(p: Guest<E>, r: Region, k: nat, a: seq<HostOp>, f0: Frame<E>, f: Frame<E>, f1: Frame<E>,
                  m: Machine<E>, m': Machine<E>)
    requires Fits(p, r) && AtInstr(r, k, f, m) && MachineOk(p, m) && BodyDone(r, k, f, f1, m, m')
    requires NoHazard(r) && NoDoubleBranch(p.imem) && !InfoAt(r, k).handlesDelaySlot
    requires Segment(r, k) == a + Tail(r, k) && Run(p, Segment(r, k), 0, f) == Run(p, Segment(r, k), |a|, f1)
    ensures Agrees(r, RunAt(p, r, k, f), Running(m'))
  {
    hide Run, InfoAt, IsEntry, Resolved, BodyDone, NoDoubleBranch, NoHazard, MachineOk, Tail, Segment, Agrees,
      Shows, PendingIs;
    RunShift(p, a, Tail(r, k), 0, f1);
    if k == 0 {
      FirstCase(p, r, f, f1, m, m');
    } else if LastInfo(r, k).branch {
      DelayCase(p, r, k, f, f1, m, m');
    } else {
      PlainCase(p, r, k, f, f1, m, m');
    }
  }

  lemma FirstCase<E>(p: Guest<E>, r: Region, f: Frame<E>, f1: Frame<E>, m: Machine<E>, m': Machine<E>)
    requires Fits(p, r) && AtInstr(r, 0, f, m) && MachineOk(p, m) && BodyDone(r, 0, f, f1, m, m')
    requires !InfoAt(r, 0).handlesDelaySlot
    ensures Agrees(r, Resolved(p, r, 0, Run(p, Tail(r, 0), 0, f1)), Running(m'))
  {
    hide Run, InfoAt, Word, IsEntry, EndOfBlock, LatentCode, PendingIs, Tail, MachineOk;
    FirstTailOk(p, r, f, f1, m, m');
    if Run(p, Tail(r, 0), 0, f1).Fall? {
      KeepsPending(InfoAt(r, 0), f1, f1.(scratch := f1.hasDelay), m'.pending);
      FallOk(p, r, 0, f1.(scratch := f1.hasDelay), m');
    }
  }

  lemma DelayCase<E>(p: Guest<E>, r: Region, k: nat, f: Frame<E>, f1: Frame<E>, m: Machine<E>, m': Machine<E>)
    requires Fits(p, r) && k > 0 && AtInstr(r, k, f, m) && BodyDone(r, k, f, f1, m, m')
    requires NoHazard(r) && NoDoubleBranch(p.imem) && !InfoAt(r, k).handlesDelaySlot && LastInfo(r, k).branch
    ensures Agrees(r, Resolved(p, r, k, Run(p, Tail(r, k), 0, f1)), Running(m'))
  {
    hide Run, InfoAt, Word, IsEntry, EndOfBlock, LatentCode, Delayed, PendingIs, NoDoubleBranch, NoHazard, DelaySlot;
    NotBoth(p, r, k);
    DelaySlotRuns(p, r, LastInfo(r, k), f1);
    DelayTailOk(p, r, k, f, f1, m, m');
    if Delayed(r, LastInfo(r, k), f1).Fall? {
      NoPending(InfoAt(r, k), f1.(scratch := f1.flag, flag := 0), f1, m'.pending);
      FallOk(p, r, k, f1.(scratch := f1.flag, flag := 0), m');
    }
  }

  lemma PlainCase<E>(p: Guest<E>, r: Region, k: nat, f: Frame<E>, f1: Frame<E>, m: Machine<E>, m': Machine<E>)
    requires Fits(p, r) && k > 0 && AtInstr(r, k, f, m) && BodyDone(r, k, f, f1, m, m')
    requires !InfoAt(r, k).handlesDelaySlot && !LastInfo(r, k).branch
    ensures Agrees(r, Resolved(p, r, k, Run(p, Tail(r, k), 0, f1)), Running(m'))
  {
    hide Run, InfoAt, Word, IsEntry, EndOfBlock, LatentCode, PendingIs;
    NoneWithoutBranch(LastInfo(r, k), f, m.pending);
    EmptyRuns(p, f1);
    FallOk(p, r, k, f1, m');
  }

  lemma EmptyRuns<E>(p: Guest<E>, f: Frame<E>)
    ensures Run(p, [], 0, f) == Fall(f)
  {
  }

  lemma NoneWithoutBranch<E>(info: Info, f: Frame<E>, pending: Option<nat>)
    requires !info.branch && PendingIs(info, f, pending)
    ensures pending.None?
  {
  }

  lemma KeepsPending<E>(info: Info, f: Frame<E>, f': Frame<E>, pending: Option<nat>)
    requires PendingIs(info, f, pending) && f'.flag == f.flag && f'.ind == f.ind
    ensures PendingIs(info, f', pending)
  {
  }

  lemma NoPending<E>(info: Info, f: Frame<E>, f': Frame<E>, pending: Option<nat>)
    requires !info.branch && PendingIs(info, f', pending)
    ensures PendingIs(info, f, pending)
  {
  }

  lemma NotBoth<E>(p: Guest<E>, r: Region, k: nat)
    requires Fits(p, r) && NoDoubleBranch(p.imem) && 0 < k < |r.words| && LastInfo(r, k).branch
    ensures !InfoAt(r, k).branch
  {
    hide InfoOf, IsEntry;
    InfoBranches(r.words[k - 1], r.base + k - 1, IsEntry(r, k));
    InfoBranches(r.words[k], r.base + k, IsEntry(r, k + 1));
    assert r.words[k - 1] == p.imem[r.base + k - 1];
    assert r.words[k] == p.imem[r.base + k];
    assert (r.base + k - 1 + 1) % IMEM_WORDS == r.base + k;
  }

  /** Leaving through an exit in or outside a delay slot. */
  lemma ExitOk<E>(p: Guest<E>, r: Region, k: nat, f: Frame<E>, f1: Frame<E>, m: Machine<E>, m': Machine<E>)
    requires Fits(p, r) && AtInstr(r, k, f, m) && BodyDone(r, k, f, f1, m, m') && !InfoAt(r, k).branch
    ensures AtEntry(Exited(r.base + k, LastInfo(r, k), k == 0, f1), m')
  {
    hide InfoAt, Word;
    NextWord(r, k);
  }

  /** One instruction of compiled code is one step of the machine. */
  lemma StepOk<E>(p: Guest<E>, r: Region, k: nat, f: Frame<E>, m: Machine<E>)
    requires Fits(p, r) && k < |r.words| && AtInstr(r, k, f, m) && MachineOk(p, m)
    requires NoDoubleBranch(p.imem) && NoHazard(r)
    ensures Agrees(r, RunAt(p, r, k, f), MachineStep(p, m))
  {
    hide InfoOf, Word, IsEntry, Tail, ExitDynamic, MachineStep, EndOfBlock, LatentCode, BodyDone, AtInstr, RunBody;
    var i, w := r.words[k], r.base + k;
    InfoBranches(i, w, IsEntry(r, k + 1));
    if IsBreak(i) {
      BreakOk(p, r, k, f, m);
    } else if IsCop0(i) {
      Cop0StepOk(p, r, k, f, m);
    } else {
      var f1 := RunBody(p, i, w, IsEntry(r, k + 1), f);
      BodyOk(p, r, k, f, m);
      var a := [Body(i, w, IsEntry(r, k + 1))];
      assert Segment(r, k)[0] == a[0];
      TailOk(p, r, k, a, f, f, f1, m, MachineStep(p, m).m);
    }
  }

  lemma BreakOk<E>(p: Guest<E>, r: Region, k: nat, f: Frame<E>, m: Machine<E>)
    requires Fits(p, r) && AtInstr(r, k, f, m) && IsBreak(r.words[k])
    ensures Agrees(r, RunAt(p, r, k, f), MachineStep(p, m))
  {
    hide Run, Word, IsEntry, ExitDynamic, PendingIs, InRegion, BranchAddress, WordTarget, TargetOf;
    var i, w := r.words[k], r.base + k;
    InfoBranches(i, w, IsEntry(r, k + 1));
    assert i == p.imem[m.pc];
    var f1 := f.(mode := Break);
    var exit := ExitDynamic(w, LastInfo(r, k), k == 0);
    assert Segment(r, k) == [SetMode(Break)] + exit;
    RunShift(p, [SetMode(Break)], exit, 0, f1);
    ExitRuns(p, w, LastInfo(r, k), k == 0, f1);
    RunStep(p, Segment(r, k), 0, f);
    var m' := MachineStep(p, m).m;
    NoBranchPending(InfoAt(r, k), f1);
    assert BodyDone(r, k, f, f1, m, m');
    ExitOk(p, r, k, f, f1, m, m');
  }

  lemma NoBranchPending<E>(info: Info, f: Frame<E>)
    requires !info.branch
    ensures PendingIs(info, f, None)
  {
  }

  lemma Cop0StepOk<E>(p: Guest<E>, r: Region, k: nat, f: Frame<E>, m: Machine<E>)
    requires Fits(p, r) && k < |r.words| && AtInstr(r, k, f, m) && MachineOk(p, m) && IsCop0(r.words[k])
    requires NoDoubleBranch(p.imem) && NoHazard(r)
    ensures Agrees(r, RunAt(p, r, k, f), MachineStep(p, m))
  {
    hide Run, InfoOf, Word, IsEntry, Tail, ExitDynamic, MachineStep, EndOfBlock, LatentCode, BodyDone, AtInstr,
      NoDoubleBranch, NoHazard;
    var i, w := r.words[k], r.base + k;
    InfoBranches(i, w, IsEntry(r, k + 1));
    Cop0Ok(p, r, k, f, m);
    var o := p.other(i, f.g, f.e);
    var f1 := f.(g := o.g, e := o.e, mode := o.mode);
    var exit := ExitDynamic(w, LastInfo(r, k), k == 0);
    var a := [CallCop0(i), SkipIfContinue(|exit|)];
    var c := Segment(r, k);
    assert c == a + exit + Tail(r, k);
    assert c[0] == a[0] && c[1] == a[1];
    RunStep(p, c, 0, f);
    RunStep(p, c, 1, f1);
    if o.mode == Continue {
      TailOk(p, r, k, a + exit, f, f, f1, m, MachineStep(p, m).m);
    } else {
      assert c == a + (exit + Tail(r, k));
      RunShift(p, a, exit + Tail(r, k), 0, f1);
      ExitRuns(p, w, LastInfo(r, k), k == 0, f1);
      RunPrefix(p, exit, Tail(r, k), 0, f1);
      ExitOk(p, r, k, f, f1, m, MachineStep(p, m).m);
    }
  }
}
