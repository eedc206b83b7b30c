/** How far a region extends: the scan for the logical end of the instruction stream. */
module StaticEnd {
  import opened Words
  import opened Decoders
  import opened Mips
  import opened RegionCode

  /** Continue with a new bound, or stop. */
  datatype Verdict = More(max: nat) | Stop(max: nat)

  /** The scan's decision at word address at, inside the window [pc, end). */
  function Judge(i: Instr, at: nat, forward: bool, max: nat, pc: nat, end: nat): Verdict {
    var t := WordTarget(i, at);
    var local := pc <= t < end;
    if IsIndirect(i) then if forward then More(max) else Stop(Max(at + 2, max))
    else if IsBreak(i) then if forward then More(max) else Stop(max)
    else if IsRelative(i) then More(if local then Max(max, t + 1) else max)
    else if IsJump(i) then
      if !forward then Stop(Max(at + 2, max))
      else More(if local then Max(max, t + 1) else max)
    else More(max)
  }

  function Bump(at: nat, max: nat): nat { if at + 1 >= max then at + 1 else max }

  /** The scan from offset i with bound max: the offset where it stopped (or the length) and the final bound. */
  function Scan(words: seq<Instr>, pc: nat, i: nat, max: nat): (nat, nat)
    requires i <= |words|
    decreases |words| - i
  {
    if i == |words| then (i, max)
    else
      match Judge(words[i], pc + i, pc + i + 1 < max, Bump(pc + i, max), pc, pc + |words|)
      case More(m) => Scan(words, pc, i + 1, m)
      case Stop(m) => (i, m)
  }

  /** End of the region that starts at pc, given the words of the window [pc, pc + |words|). */
  function EndOf(words: seq<Instr>, pc: nat): nat {
    Min(Scan(words, pc, 0, pc).1, pc + |words|)
  }

  lemma OneKind(i: Instr)
    ensures IsIndirect(i) || IsBreak(i) || IsJump(i) ==> !IsRelative(i)
    ensures IsIndirect(i) || IsJump(i) ==> !IsBreak(i)
    ensures IsIndirect(i) || IsBreak(i) ==> !IsDirect(i)
  {
  }

  /** The scan stops at most one delay slot short of the region's end, past every target it admitted. */
  lemma {:induction false} ScanBounds(words: seq<Instr>, pc: nat, i: nat, max: nat)
    requires i <= |words| && max >= pc + i
    ensures var (stop, m) := Scan(words, pc, i, max);
      && i <= stop <= |words|
      && m >= max
      && m >= pc + Min(stop + 1, |words|)
      && (stop < |words| ==> m <= pc + stop + 2 && !IsRelative(words[stop]))
    decreases |words| - i
  {
    hide WordTarget, IsIndirect, IsBreak, IsRelative, IsJump;
    if i < |words| {
      OneKind(words[i]);
      var v := Judge(words[i], pc + i, pc + i + 1 < max, Bump(pc + i, max), pc, pc + |words|);
      if v.More? {
        ScanBounds(words, pc, i + 1, v.max);
      }
    }
  }

  /** Every conditional branch scanned before the stop whose target lies in the window has it inside the region. */
  lemma {:induction false} ScanCovers(words: seq<Instr>, pc: nat, i: nat, max: nat, k: nat)
    requires i <= k < |words| && max >= pc + i && IsRelative(words[k])
    requires pc <= WordTarget(words[k], pc + k) < pc + |words|
    requires k < Scan(words, pc, i, max).0
    ensures WordTarget(words[k], pc + k) < Scan(words, pc, i, max).1
    decreases |words| - i
  {
    hide WordTarget;
    var v := Judge(words[i], pc + i, pc + i + 1 < max, Bump(pc + i, max), pc, pc + |words|);
    ScanBounds(words, pc, i + 1, v.max);
    if i < k {
      ScanCovers(words, pc, i + 1, v.max, k);
    }
  }

  /** A conditional branch of the window stays in the region if its target is in the window. */
  predicate Closed(words: seq<Instr>, pc: nat, k: nat)
    requires k < |words|
  {
    IsRelative(words[k]) && pc <= WordTarget(words[k], pc + k) < pc + |words| ==>
    WordTarget(words[k], pc + k) < EndOf(words, pc)
  }

  /** The region is not empty, stays in its window, and contains the target of every conditional
      branch in it, except perhaps one in its last word, that lies in the window. */
  lemma RegionCloses(words: seq<Instr>, pc: nat)
    requires |words| > 0
    ensures pc < EndOf(words, pc) <= pc + |words|
    ensures forall k :: 0 <= k && pc + k + 1 < EndOf(words, pc) ==> Closed(words, pc, k)
  {
    hide WordTarget, Scan, IsRelative;
    ScanBounds(words, pc, 0, pc);
    forall k | 0 <= k && pc + k + 1 < EndOf(words, pc)
      ensures Closed(words, pc, k)
    {
      if IsRelative(words[k]) && pc <= WordTarget(words[k], pc + k) < pc + |words| {
        ScanCovers(words, pc, 0, pc, k);
      }
    }
  }

  // ---- which end that is ------------------------------------------------------------------------

  /** Instruction j branches or jumps to an instruction of the window behind instruction k. */
  predicate Reaches(words: seq<Instr>, pc: nat, j: nat, k: nat) {
    j < |words| && IsDirect(words[j]) && pc + k < WordTarget(words[j], pc + j) < pc + |words|
  }

  /** Execution does not go on behind instruction k: it is a jump or a break, and nothing before it leads behind it. */
  predicate StopsAt(words: seq<Instr>, pc: nat, k: nat) {
    && k < |words| && (IsJump(words[k]) || IsIndirect(words[k]) || IsBreak(words[k]))
    && !Passed(words, pc, k, k)
  }

  /** One of the first i instructions leads behind instruction k. */
  predicate Passed(words: seq<Instr>, pc: nat, i: nat, k: nat) {
    exists j :: 0 <= j < i && Reaches(words, pc, j, k)
  }

  /** The bound of the scan after i instructions says how far they reach. */
  ghost predicate BoundIs(words: seq<Instr>, pc: nat, i: nat, max: nat) {
    forall k :: i <= k < |words| ==> BoundAt(words, pc, i, max, k)
  }

  predicate BoundAt(words: seq<Instr>, pc: nat, i: nat, max: nat, k: nat) {
    max > pc + k + 1 <==> Passed(words, pc, i, k)
  }

  lemma BoundStep(words: seq<Instr>, pc: nat, i: nat, max: nat)
    requires i < |words| && BoundIs(words, pc, i, max) && max >= pc + i
    ensures var v := Judge(words[i], pc + i, pc + i + 1 < max, Bump(pc + i, max), pc, pc + |words|);
      && (v.Stop? <==> StopsAt(words, pc, i))
      && (v.More? ==> BoundIs(words, pc, i + 1, v.max))
      && (v.Stop? ==> v.max == pc + i + if IsBreak(words[i]) then 1 else 2)
  {
    hide WordTarget, IsRelative, IsJump, IsIndirect, IsBreak, Passed;
    OneKind(words[i]);
    var v := Judge(words[i], pc + i, pc + i + 1 < max, Bump(pc + i, max), pc, pc + |words|);
    assert BoundAt(words, pc, i, max, i);
    if v.More? {
      var next := i + 1;
      forall k: nat | next <= k < |words| ensures BoundAt(words, pc, next, v.max, k) {
        assert BoundAt(words, pc, i, max, k);
        PassedStep(words, pc, i, k);
      }
    }
  }

  lemma PassedStep(words: seq<Instr>, pc: nat, i: nat, k: nat)
    ensures Passed(words, pc, i + 1, k) <==> Passed(words, pc, i, k) || Reaches(words, pc, i, k)
  {
    hide Reaches;
  }

  lemma {:induction false} ScanExact(words: seq<Instr>, pc: nat, i: nat, max: nat)
    requires i <= |words| && BoundIs(words, pc, i, max) && max >= pc + i
    requires forall j :: 0 <= j < i ==> !StopsAt(words, pc, j)
    ensures var (stop, m) := Scan(words, pc, i, max);
      && stop <= |words| && (forall j :: 0 <= j < stop ==> !StopsAt(words, pc, j))
      && (stop < |words| ==> StopsAt(words, pc, stop) && m == pc + stop + if IsBreak(words[stop]) then 1 else 2)
    decreases |words| - i
  {
    hide Judge, StopsAt, BoundIs, IsBreak, Passed;
    if i < |words| {
      BoundStep(words, pc, i, max);
      JudgeBound(words, pc, i, max);
      var v := Judge(words[i], pc + i, pc + i + 1 < max, Bump(pc + i, max), pc, pc + |words|);
      if v.More? {
        ScanExact(words, pc, i + 1, v.max);
      }
    }
  }

  lemma JudgeBound(words: seq<Instr>, pc: nat, i: nat, max: nat)
    requires i < |words|
    ensures Judge(words[i], pc + i, pc + i + 1 < max, Bump(pc + i, max), pc, pc + |words|).max >= pc + i + 1
  {
    hide WordTarget;
  }

  lemma NothingPassed(words: seq<Instr>, pc: nat)
    ensures BoundIs(words, pc, 0, pc)
  {
    hide Reaches;
  }

  /** The region ends behind the first instruction where execution stops, its delay slot included if it has one, or
      else with the window. */
  lemma EndExact(words: seq<Instr>, pc: nat, k: nat)
    requires k <= |words| && (forall j :: 0 <= j < k ==> !StopsAt(words, pc, j))
    requires k == |words| || StopsAt(words, pc, k)
    ensures EndOf(words, pc) ==
            if k == |words| then pc + |words| else Min(pc + k + if IsBreak(words[k]) then 1 else 2, pc + |words|)
  {
    hide Scan, StopsAt, IsBreak, Passed;
    ScanBounds(words, pc, 0, pc);
    NothingPassed(words, pc);
    ScanExact(words, pc, 0, pc);
    EndOfScan(words, pc);
  }

  const CODE_BLOCK_WORDS: nat := 64

  /** A region may reach to the end of the code block after the one it starts in. */
  function WindowEnd(w: nat): nat { Min((4 * w + 512) / 256 * 64, IMEM_WORDS) }

  function RegionAt(imem: seq<Instr>, w: nat): Region
    requires |imem| == IMEM_WORDS && w < IMEM_WORDS
  {
    WindowOk(w);
    RegionCloses(imem[w..WindowEnd(w)], w);
    Region(w, imem[w..EndOf(imem[w..WindowEnd(w)], w)])
  }

  lemma WindowOk(w: nat)
    requires w < IMEM_WORDS
    ensures w < WindowEnd(w) <= IMEM_WORDS
    ensures WindowEnd(w) <= (w / CODE_BLOCK_WORDS + 2) * CODE_BLOCK_WORDS
    ensures WindowEnd(w) <= w + 2 * CODE_BLOCK_WORDS
  {
    assert (4 * w + 512) / 256 == w / 64 + 2;
  }

  /** The window is the block of w and the next one, as far as there is one. */
  lemma WindowIs(w: nat)
    requires w < IMEM_WORDS
    ensures WindowEnd(w) == Min((w / 64 + 2) * 64, 1024)
  {
    assert (4 * w + 512) / 256 == w / 64 + 2;
  }

  /** Regions are well formed, at most two code blocks long, and never reach past the next block. */
  lemma RegionAtOk(imem: seq<Instr>, w: nat)
    requires |imem| == IMEM_WORDS && w < IMEM_WORDS
    ensures RegionOk(RegionAt(imem, w)) && |RegionAt(imem, w).words| <= 2 * CODE_BLOCK_WORDS
    ensures w + |RegionAt(imem, w).words| <= (w / CODE_BLOCK_WORDS + 2) * CODE_BLOCK_WORDS
  {
    WindowOk(w);
    RegionCloses(imem[w..WindowEnd(w)], w);
  }

  /** The region depends only on the block it starts in and the block after it. */
  lemma RegionLocal(imem: seq<Instr>, imem': seq<Instr>, w: nat)
    requires |imem| == |imem'| == IMEM_WORDS && w < IMEM_WORDS
    requires imem[w..WindowEnd(w)] == imem'[w..WindowEnd(w)]
    ensures RegionAt(imem, w) == RegionAt(imem', w)
  {
    hide EndOf, WindowEnd;
    WindowOk(w);
    RegionCloses(imem[w..WindowEnd(w)], w);
    var e := EndOf(imem[w..WindowEnd(w)], w);
    SliceOfSlice(imem, w, e, WindowEnd(w));
    SliceOfSlice(imem', w, e, WindowEnd(w));
  }

  lemma SliceOfSlice(words: seq<Instr>, i: nat, j: nat, k: nat)
    requires i <= j <= k <= |words|
    ensures words[i..k][..j - i] == words[i..j]
  {
  }

  /** The decision by what the scan reads in the instruction word. */
  lemma JudgeDecoded(i: Instr, at: nat, forward: bool, max: nat, pc: nat, end: nat)
    ensures Judge(i, at, forward, max, pc, end) ==
      match ScanDecode(Raw(i), at)
      case Terminates => if forward then More(max) else Stop(Max(at + 2, max))
      case Breaks => if forward then More(max) else Stop(max)
      case Relative(t) => More(if pc <= t < end then Max(max, t + 1) else max)
      case Jump(t) =>
        if !forward then Stop(Max(at + 2, max)) else More(if pc <= t < end then Max(max, t + 1) else max)
      case Other => More(max)
  {
    hide Raw, ScanDecode, MarkDecode, EmitDecode, WordTarget;
    DecodeRaw(i, at, false);
  }

  lemma EndOfScan(words: seq<Instr>, pc: nat)
    ensures EndOf(words, pc) == Min(Scan(words, pc, 0, pc).1, pc + |words|)
  {
  }

  /** The recompiler's scan, over its mutable bound. */
  method AnalyzeStaticEnd(imem: array<Instr>, pc: nat, end: nat) returns (ret: nat)
    requires pc < end <= imem.Length
    ensures ret == EndOf(imem[pc..end], pc)
    ensures pc < ret <= end
  {
    hide Judge, WordTarget, EndOf, Raw, ScanDecode;
    ghost var words := imem[pc..end];
    var maxStaticPc: nat := pc;
    var count := end - pc;
    var i := 0;
    while i < count
      invariant i <= count
      invariant Scan(words, pc, i, maxStaticPc) == Scan(words, pc, 0, pc)
    {
      var instr := imem[pc + i];
      assert instr == words[i];
      JudgeDecoded(instr, pc + i, pc + i + 1 < maxStaticPc, Bump(pc + i, maxStaticPc), pc, end);
      var forwardGoto := pc + i + 1 < maxStaticPc;
      if !forwardGoto {
        maxStaticPc := pc + i + 1;
      }
      match ScanDecode(Raw(instr), pc + i) {
        case Terminates =>
          if !forwardGoto {
            maxStaticPc := Max(pc + i + 2, maxStaticPc);
            break;
          }
        case Breaks =>
          if !forwardGoto {
            break;
          }
        case Relative(target) =>
          if pc <= target < end {
            maxStaticPc := Max(maxStaticPc, target + 1);
          }
        case Jump(target) =>
          if pc <= target < end && forwardGoto {
            maxStaticPc := Max(maxStaticPc, target + 1);
          } else if !forwardGoto {
            maxStaticPc := Max(pc + i + 2, maxStaticPc);
            break;
          }
        case Other =>
      }
      i := i + 1;
    }
    RegionCloses(words, pc);
    EndOfScan(words, pc);
    ret := Min(maxStaticPc, end);
  }
}
