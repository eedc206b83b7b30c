/** Compiling a whole region: marking labels, emitting every instruction with its delay-slot code. */
module RegionCompiler {
  import opened Mips
  import opened RegionCode
  import opened Options
  import opened Decoders
  import opened StaticEnd

  /** A compiled region: one list of operations per instruction, the two trailers, and which
      instructions carry a label. */
  datatype Code = Code(base: nat, segments: seq<seq<HostOp>>, end: seq<HostOp>, latent: seq<HostOp>, labels: seq<bool>)

  function CompileRegion(r: Region): Code
    requires RegionOk(r)
  {
    Code(r.base,
         seq(|r.words|, k requires 0 <= k < |r.words| => Segment(r, k)),
         EndOfBlock(r),
         LatentCode(r),
         seq(|r.words|, j requires 0 <= j < |r.words| => IsEntry(r, j)))
  }

  predicate MarkedUpTo(r: Region, i: nat, j: nat) {
    exists k :: 0 <= k < i && LinksTo(r, k, j)
  }

  lemma MarkedStep(r: Region, i: nat, j: nat)
    ensures MarkedUpTo(r, i + 1, j) <==> MarkedUpTo(r, i, j) || LinksTo(r, i, j)
  {
    if MarkedUpTo(r, i + 1, j) {
      var k :| 0 <= k < i + 1 && LinksTo(r, k, j);
      assert k == i || MarkedUpTo(r, i, j);
    }
  }

  /** Finds the instructions that need a label because a branch of the region targets them. */
  method MarkBlockEntries(imem: array<Instr>, pc: nat, end: nat, entries: array<bool>)
    requires pc < end <= imem.Length && end <= IMEM_WORDS && entries.Length >= end - pc
    requires forall j :: 0 <= j < end - pc ==> !entries[j]
    modifies entries
    ensures forall j :: 0 <= j < end - pc ==> entries[j] == IsEntry(Region(pc, imem[pc..end]), j)
  {
    hide MarkedUpTo, WordTarget, Raw, MarkDecode, ScanDecode, EmitDecode;
    ghost var r := Region(pc, imem[pc..end]);
    var count := end - pc;
    forall j | 0 <= j < count ensures !MarkedUpTo(r, 0, j) {
      NothingMarked(r, j);
    }
    for i := 0 to count
      invariant forall j :: 0 <= j < count ==> entries[j] == MarkedUpTo(r, i, j)
    {
      var instr := imem[pc + i];
      assert instr == r.words[i];
      ghost var was := entries[..];
      DecodeRaw(instr, pc + i, false);
      var target := MarkDecode(Raw(instr), pc + i);
      if target.Some? && pc <= target.value < end {
        entries[target.value - pc] := true;
      }
      forall j | 0 <= j < count ensures entries[j] == MarkedUpTo(r, i + 1, j) {
        MarkedStep(r, i, j);
        assert was[j] == MarkedUpTo(r, i, j);
      }
    }
    forall j | 0 <= j < count ensures MarkedUpTo(r, count, j) == IsEntry(r, j) {
      AllMarked(r, j);
    }
  }

  lemma NothingMarked(r: Region, j: nat)
    ensures !MarkedUpTo(r, 0, j)
  {
  }

  lemma AllMarked(r: Region, j: nat)
    requires j < |r.words|
    ensures MarkedUpTo(r, |r.words|, j) == IsEntry(r, j)
  {
  }

  /** The recompiler's main loop over a region. */
  method JitRegion(imem: array<Instr>, pc: nat, count: nat) returns (code: Code)
    requires 0 < count && pc + count <= imem.Length == IMEM_WORDS
    ensures code == CompileRegion(Region(pc, imem[pc..pc + count]))
  {
    hide Segment, InfoOf, Raw, MarkDecode, ScanDecode, EmitDecode, InstrOps, DelaySlot, IsEntry, LinksTo, EndOps,
      LatentOps;
    var r := Region(pc, imem[pc..pc + count]);
    var blockEntry := new bool[count](_ => false);
    MarkBlockEntries(imem, pc, pc + count, blockEntry);
    var labels := blockEntry[..];
    var lastInfo, firstInfo := NO_INFO, NO_INFO;
    var segments: seq<seq<HostOp>> := [];
    var i := 0;
    while i < count
      invariant i <= count && |segments| == i
      invariant forall k :: 0 <= k < i ==> segments[k] == Segment(r, k)
      invariant lastInfo == LastInfo(r, i)
      invariant i > 0 ==> firstInfo == InfoAt(r, 0)
    {
      var next := i + 1 < count && labels[i + 1];
      NoLabelPastEnd(r);
      DecodeRaw(imem[pc + i], pc + i, next);
      var info := EmitDecode(Raw(imem[pc + i]), 4 * (pc + i), next);
      var ops := InstrOps(imem[pc + i], pc + i, lastInfo, i == 0, next);
      if i == 0 && !info.handlesDelaySlot {
        ops := ops + [GetHasDelay(Scratch), LatentIfSet(Scratch)];
      } else if info.branch && lastInfo.branch {
        ops := ops + [Trap];
      } else if !info.handlesDelaySlot && lastInfo.branch {
        ops := ops + DelaySlot(r, lastInfo);
      }
      SegmentIs(r, i, next, ops);
      segments := segments + [ops];
      if i == 0 {
        firstInfo := info;
      }
      lastInfo := info;
      i := i + 1;
    }
    code := Code(pc, segments, EndOps(lastInfo, 4 * (pc + count)), LatentOps(firstInfo), labels);
  }

  lemma SegmentIs(r: Region, i: nat, next: bool, ops: seq<HostOp>)
    requires i < |r.words| && next == IsEntry(r, i + 1)
    requires var info, last := InfoAt(r, i), LastInfo(r, i);
      ops == InstrOps(r.words[i], r.base + i, last, i == 0, next) +
        if i == 0 && !info.handlesDelaySlot then [GetHasDelay(Scratch), LatentIfSet(Scratch)]
        else if info.branch && last.branch then [Trap]
        else if !info.handlesDelaySlot && last.branch then DelaySlot(r, last)
        else []
    ensures ops == Segment(r, i)
  {
  }

  lemma NoLabelPastEnd(r: Region)
    ensures !IsEntry(r, |r.words|)
  {
  }
}
