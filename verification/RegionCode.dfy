/** The control-flow skeleton of a compiled region: labels, delay slots and exits around the code
    of each instruction. */
module RegionCode {
  import opened Options
  import opened Words
  import opened HostOps
  import opened Mips

  const IMEM_WORDS: nat := 1024

  datatype Mode = Continue | Break | Exit(code: nat)

  /** What an instruction outside the scalar set does to the registers and to the rest of the machine. */
  datatype Outcome<E> = Outcome(g: Regs, e: E, mode: Mode)

  /** Instruction memory and the behaviour of vector, memory and coprocessor instructions. */
  datatype Guest<!E> = Guest(imem: seq<Instr>, other: (Instr, Regs, E) -> Outcome<E>)

  predicate GuestOk<E>(p: Guest<E>) { |p.imem| == IMEM_WORDS }

  predicate IsBreak(i: Instr) { i.op == 0 && i.funct == 13 }

  predicate IsCop0(i: Instr) { i.op == 16 && (i.rs == 0 || i.rs == 4) }

  /** The instruction as one 32-bit word. */
  function Raw(i: Instr): nat { i.op * 0x400_0000 + i.rs * 0x20_0000 + i.rt * 0x1_0000 + i.imm }

  /** Branch target as a byte address, from the byte address of the branch. */
  function ByteTarget(i: Instr, pc: nat): nat {
    if IsJump(i) then (Raw(i) % 1024) * 4
    else ((pc + 4 + Raw(i) * 4) % 0x1000) / 4 * 4
  }

  /** Branch target as a word address, from the word address of the branch. */
  function WordTarget(i: Instr, w: nat): nat {
    if IsJump(i) then Raw(i) % 1024 else (w + 1 + Raw(i)) % 1024
  }

  /** The two target formulas agree for every instruction word. */
  lemma TargetsAgree(i: Instr, w: nat)
    ensures ByteTarget(i, 4 * w) == 4 * WordTarget(i, w)
  {
    hide Raw;
    var s := w + 1 + Raw(i);
    assert 4 * w + 4 + Raw(i) * 4 == 4 * s;
    QuadMod(s);
  }

  lemma QuadMod(s: nat)
    ensures (4 * s) % 0x1000 == 4 * (s % 1024)
    ensures ((4 * s) % 0x1000) / 4 == s % 1024
  {
    assert s == 1024 * (s / 1024) + s % 1024;
  }

  /** The word address a byte address is dispatched to. */
  function Word(pc: nat): nat { (pc % 0x1000) / 4 }

  // ---- the reference machine --------------------------------------------------------------

  /** One instruction at a time: pending is the branch target that takes effect after the next instruction. */
  datatype Machine<E> = Machine(g: Regs, e: E, pc: nat, pending: Option<nat>)

  datatype Status<E> = Running(m: Machine<E>) | Stopped(mode: Mode, m: Machine<E>)

  function TargetOf(i: Instr, w: nat, g: Regs): nat {
    if IsIndirect(i) then Word(g[i.rs]) else WordTarget(i, w)
  }

  function Execute<E>(p: Guest<E>, i: Instr, w: nat, g: Regs, e: E): Outcome<E> {
    if IsBreak(i) then Outcome(g, e, Break)
    else if i.op < 16 then Outcome(DataStep(i, 4 * w, g), e, Continue)
    else
      var o := p.other(i, g, e);
      if IsCop0(i) then o else o.(mode := Continue)
  }

  function MachineStep<E>(p: Guest<E>, m: Machine<E>): Status<E>
    requires GuestOk(p) && m.pc < IMEM_WORDS
  {
    var i := p.imem[m.pc];
    var o := Execute(p, i, m.pc, m.g, m.e);
    var next := if m.pending.Some? then m.pending.value else (m.pc + 1) % IMEM_WORDS;
    var pending := if Branches(i) && Taken(i, m.g) then Some(TargetOf(i, m.pc, m.g)) else None;
    var m' := Machine(o.g, o.e, next, pending);
    if o.mode == Continue then Running(m') else Stopped(o.mode, m')
  }

  // ---- host code --------------------------------------------------------------------------

  datatype Cell = Flag | Scratch | NextPc

  /** Host operations around an instruction. Skips count the operations jumped over. */
  datatype HostOp =
    | Body(i: Instr, w: nat, next: bool)
    | CallCop0(i: Instr)
    | SetMode(mode: Mode)
    | Copy(d: Cell, s: Cell)
    | Clear(d: Cell)
    | GetHasDelay(d: Cell)
    | SetHasDelay(v: nat)
    | SetTarget(v: nat)
    | SetTargetIndirect
    | PcImm(v: nat)
    | PcIndirect
    | PcTarget
    | SkipIfZero(c: Cell, n: nat)
    | SkipIfSet(c: Cell, n: nat)
    | SkipIfContinue(n: nat)
    | Skip(n: nat)
    | GotoIfSet(c: Cell, index: nat)
    | Goto(index: nat)
    | LatentIfSet(c: Cell)
    | Enter
    | Return
    | Trap

  /** The host's view: flushed registers, branch flag, indirect target, and the delay slot carried between regions. */
  datatype Frame<E> = Frame(g: Regs, e: E, flag: nat, ind: nat, scratch: nat, nextPc: nat, mode: Mode,
                            hasDelay: nat, branchTarget: nat)

  datatype Leave<E> =
    | Fall(f: Frame<E>)
    | Local(index: nat, f: Frame<E>)
    | Latent(f: Frame<E>)
    | Entering(f: Frame<E>)
    | Returning(f: Frame<E>)
    | Stuck

  function Get<E>(c: Cell, f: Frame<E>): nat {
    match c case Flag => f.flag case Scratch => f.scratch case NextPc => f.nextPc
  }

  function Put<E>(c: Cell, v: nat, f: Frame<E>): Frame<E> {
    match c
    case Flag => f.(flag := v)
    case Scratch => f.(scratch := v)
    case NextPc => f.(nextPc := v)
  }

  function RunBody<E>(p: Guest<E>, i: Instr, w: nat, next: bool, f: Frame<E>): Frame<E> {
    var o := Execute(p, i, w, f.g, f.e);
    f.(g := o.g, e := o.e, flag := FlagAfter(i, f.g, f.flag, next),
       ind := if IsIndirect(i) then f.g[i.rs] else f.ind)
  }

  /** One operation: go on after jumping over some operations, or leave. */
  datatype Move<E> = Go(jump: nat, f: Frame<E>) | Gone(l: Leave<E>)

  function Do<E>(p: Guest<E>, op: HostOp, f: Frame<E>): Move<E> {
    match op
    case Body(i, w, next) => Go(0, RunBody(p, i, w, next, f))
    case CallCop0(i) =>
      var o := p.other(i, f.g, f.e);
      Go(0, f.(g := o.g, e := o.e, mode := o.mode))
    case SetMode(mode) => Go(0, f.(mode := mode))
    case Copy(d, s) => Go(0, Put(d, Get(s, f), f))
    case Clear(d) => Go(0, Put(d, 0, f))
    case GetHasDelay(d) => Go(0, Put(d, f.hasDelay, f))
    case SetHasDelay(v) => Go(0, f.(hasDelay := v))
    case SetTarget(v) => Go(0, f.(branchTarget := v))
    case SetTargetIndirect => Go(0, f.(branchTarget := f.ind))
    case PcImm(v) => Go(0, f.(nextPc := v))
    case PcIndirect => Go(0, f.(nextPc := f.ind))
    case PcTarget => Go(0, f.(nextPc := f.branchTarget))
    case SkipIfZero(c, n) => Go(if Get(c, f) == 0 then n else 0, f)
    case SkipIfSet(c, n) => Go(if Get(c, f) != 0 then n else 0, f)
    case SkipIfContinue(n) => Go(if f.mode == Continue then n else 0, f)
    case Skip(n) => Go(n, f)
    case GotoIfSet(c, index) => if Get(c, f) != 0 then Gone(Local(index, f)) else Go(0, f)
    case Goto(index) => Gone(Local(index, f))
    case LatentIfSet(c) => if Get(c, f) != 0 then Gone(Latent(f)) else Go(0, f)
    case Enter => Gone(Entering(f))
    case Return => Gone(Returning(f))
    case Trap => Gone(Stuck)
  }

  /** Run the operations of one instruction from position k until control leaves them. */
  function Run<E>(p: Guest<E>, code: seq<HostOp>, k: nat, f: Frame<E>): Leave<E>
    decreases |code| - k
  {
    if k >= |code| then Fall(f) else
    match Do(p, code[k], f)
    case Go(n, f') => Run(p, code, k + 1 + n, f')
    case Gone(l) => l
  }

  // ---- code generation --------------------------------------------------------------------

  datatype Info = Info(branchTarget: nat, indirect: bool, branch: bool, conditional: bool, handlesDelaySlot: bool)

  const NO_INFO := Info(0, false, false, false, false)

  /** What the emitter records about an instruction; next says that its delay slot carries a label. */
  function InfoOf(i: Instr, w: nat, next: bool): Info {
    if IsIndirect(i) then Info(0, true, true, next, false)
    else if IsJump(i) then Info(ByteTarget(i, 4 * w), false, true, next, false)
    else if Branches(i) then Info(ByteTarget(i, 4 * w), false, true, !IsBlezZero(i), false)
    else NO_INFO.(handlesDelaySlot := IsBreak(i))
  }

  /** A region: the words [base, base + n) of instruction memory. */
  datatype Region = Region(base: nat, words: seq<Instr>)

  predicate RegionOk(r: Region) { 0 < |r.words| && r.base + |r.words| <= IMEM_WORDS }

  predicate IsDirect(i: Instr) { IsJump(i) || IsRelative(i) }

  /** Instruction k of the region branches to instruction j by a local goto. */
  predicate LinksTo(r: Region, k: nat, j: nat) {
    k < |r.words| && IsDirect(r.words[k]) && WordTarget(r.words[k], r.base + k) == r.base + j
  }

  predicate IsEntry(r: Region, j: nat) { j < |r.words| && exists k :: 0 <= k < |r.words| && LinksTo(r, k, j) }

  function InfoAt(r: Region, k: nat): Info
    requires k < |r.words|
  {
    InfoOf(r.words[k], r.base + k, IsEntry(r, k + 1))
  }

  function LastInfo(r: Region, k: nat): Info
    requires k <= |r.words|
  {
    if k == 0 then NO_INFO else InfoAt(r, k - 1)
  }

  function PcAfter(w: nat): nat { (4 * w + 4) % 0x1000 }

  function BranchPc(last: Info): HostOp { if last.indirect then PcIndirect else PcImm(last.branchTarget) }

  /** Leave the region with the mode already chosen, honouring the delay slot we are in. */
  function ExitDynamic(w: nat, last: Info, first: bool): seq<HostOp> {
    if first then
      [GetHasDelay(NextPc), SkipIfSet(NextPc, 2), PcImm(PcAfter(w)), Return, SetHasDelay(0), PcTarget, Return]
    else if !last.branch then [PcImm(PcAfter(w)), Return]
    else if !last.conditional then [BranchPc(last), Return]
    else [Copy(NextPc, Flag), SkipIfZero(NextPc, 2), BranchPc(last), Skip(1), PcImm(PcAfter(w)), Return]
  }

  function InstrOps(i: Instr, w: nat, last: Info, first: bool, next: bool): seq<HostOp> {
    if IsBreak(i) then [SetMode(Break)] + ExitDynamic(w, last, first)
    else if IsCop0(i) then
      var exit := ExitDynamic(w, last, first);
      [CallCop0(i), SkipIfContinue(|exit|)] + exit
    else [Body(i, w, next)]
  }

  predicate InRegion(r: Region, target: nat) { 4 * r.base <= target < 4 * (r.base + |r.words|) }

  function LocalIndex(r: Region, target: nat): nat
    requires InRegion(r, target)
  {
    (target - 4 * r.base) / 4
  }

  /** After the delay slot of branch last: go to the target, by a local goto when it lies in the region. */
  function DelaySlot(r: Region, last: Info): seq<HostOp> {
    var local := !last.indirect && InRegion(r, last.branchTarget);
    if last.conditional then
      [Copy(Scratch, Flag), Clear(Flag)] +
      if local then [GotoIfSet(Scratch, LocalIndex(r, last.branchTarget))]
      else [SkipIfZero(Scratch, 2), BranchPc(last), Enter]
    else
      [Clear(Flag)] + if local then [Goto(LocalIndex(r, last.branchTarget))] else [BranchPc(last), Enter]
  }

  /** What follows instruction k: the latent delay slot after the first one, else the delay slot of its predecessor. */
  function Tail(r: Region, k: nat): seq<HostOp>
    requires k < |r.words|
  {
    var info, last := InfoAt(r, k), LastInfo(r, k);
    if k == 0 && !info.handlesDelaySlot then [GetHasDelay(Scratch), LatentIfSet(Scratch)]
    else if info.branch && last.branch then [Trap]
    else if !info.handlesDelaySlot && last.branch then DelaySlot(r, last)
    else []
  }

  function Segment(r: Region, k: nat): seq<HostOp>
    requires k < |r.words|
  {
    InstrOps(r.words[k], r.base + k, LastInfo(r, k), k == 0, IsEntry(r, k + 1)) + Tail(r, k)
  }

  /** Running off the end before address pc: a pending branch moves into the state shared between regions. */
  function EndOps(last: Info, pc: nat): seq<HostOp> {
    (if last.branch then
       (if last.conditional then [SkipIfZero(Flag, 2)] else []) +
       [if last.indirect then SetTargetIndirect else SetTarget(last.branchTarget), SetHasDelay(1)]
     else []) +
    [PcImm(pc), Enter]
  }

  function EndOfBlock(r: Region): seq<HostOp> {
    EndOps(LastInfo(r, |r.words|), 4 * (r.base + |r.words|))
  }

  /** The first instruction was the delay slot of the previous region's last branch. */
  function LatentOps(first: Info): seq<HostOp> {
    if first.branch then [Trap] else [SetHasDelay(0), PcTarget, Enter]
  }

  function LatentCode(r: Region): seq<HostOp>
    requires 0 < |r.words|
  {
    LatentOps(InfoAt(r, 0))
  }
}
