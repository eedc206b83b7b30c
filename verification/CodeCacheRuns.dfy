/** Runs over the code cache: any mixture of memory writes, notifications and look-ups, and whole programs. */
module CodeCacheRuns {
  import opened Options
  import opened Words
  import opened Mips
  import opened RegionCode
  import opened StaticEnd
  import opened RegionCompiler
  import opened RegionSim
  import opened RegionRun
  import opened CodeCache

  /** What happens to the recompiler: the host or the RSP's DMA writes instruction memory, the host notifies,
      a run begins, a run looks up the code at an address. */
  datatype Event =
    | HostWrite(at: nat, word: Instr)
    | DmaWrite(at: nat, word: Instr)
    | Invalidate
    | StartRun
    | Lookup(pc: nat)

  predicate EventOk(e: Event) { (e.HostWrite? || e.DmaWrite?) ==> e.at < IMEM_WORDS }

  predicate TraceOk(t: seq<Event>) { forall k :: 0 <= k < |t| ==> EventOk(t[k]) }

  function Memory(start: seq<Instr>, t: seq<Event>): (m: seq<Instr>)
    requires |start| == IMEM_WORDS && TraceOk(t)
    ensures |m| == IMEM_WORDS
  {
    if t == [] then start
    else
      var m, e := Memory(start, t[..|t| - 1]), t[|t| - 1];
      if e.HostWrite? || e.DmaWrite? then m[e.at := e.word] else m
  }

  /** How much of the writing the recompiler has been told of. */
  datatype Phase = Misused | Unnoticed | Noticed | Clean

  /** Writes by the host need a notification before the next run, writes by DMA end the run. */
  function PhaseAfter(t: seq<Event>): Phase {
    if t == [] then Unnoticed
    else
      var p := PhaseAfter(t[..|t| - 1]);
      if p.Misused? then p else
      match t[|t| - 1]
      case HostWrite(_, _) => Unnoticed
      case DmaWrite(_, _) => if p.Clean? then Noticed else p
      case Invalidate => if p.Unnoticed? then Noticed else p
      case StartRun => if p.Unnoticed? then Misused else Clean
      case Lookup(_) => if p.Clean? then p else Misused
  }

  /** The code each look-up must get: compiled from instruction memory as it then is. */
  function Dispatched(start: seq<Instr>, t: seq<Event>): seq<Code>
    requires |start| == IMEM_WORDS && TraceOk(t)
  {
    if t == [] then []
    else
      var before, e := t[..|t| - 1], t[|t| - 1];
      Dispatched(start, before) +
      if e.Lookup? then [RegionCodeAt(Memory(start, before), Word(e.pc))] else []
  }

  function Images(start: seq<Instr>, t: seq<Event>): set<seq<Instr>>
    requires |start| == IMEM_WORDS && TraceOk(t)
  {
    set k | 0 <= k <= |t| :: Memory(start, t[..k])
  }

  lemma {:induction false} NeverMisused(t: seq<Event>, k: nat)
    requires !PhaseAfter(t).Misused? && k <= |t|
    ensures !PhaseAfter(t[..k]).Misused?
  {
    if k == |t| {
      assert t[..k] == t;
    } else {
      NeverMisused(t[..|t| - 1], k);
      assert t[..|t| - 1][..k] == t[..k];
    }
  }

  /** The host has notified the recompiler before step k, and not written since. */
  ghost predicate Told(t: seq<Event>, k: nat)
    requires k <= |t|
  {
    exists j: nat :: ToldBy(t, k, j)
  }

  predicate ToldBy(t: seq<Event>, k: nat, j: nat)
    requires k <= |t|
  {
    j < k && t[j].Invalidate? && forall i :: j < i < k ==> !t[i].HostWrite?
  }

  /** A run has begun before step k, and nobody has written since. */
  ghost predicate InRun(t: seq<Event>, k: nat)
    requires k <= |t|
  {
    exists j: nat :: RunningSince(t, k, j)
  }

  predicate RunningSince(t: seq<Event>, k: nat, j: nat)
    requires k <= |t|
  {
    j < k && t[j].StartRun? && forall i :: j < i < k ==> !t[i].HostWrite? && !t[i].DmaWrite?
  }

  /** A run is told of all writing before it, and code is looked up only while running. */
  ghost predicate UsedWell(t: seq<Event>) {
    forall k :: 0 <= k < |t| ==> StepWell(t, k)
  }

  ghost predicate StepWell(t: seq<Event>, k: nat)
    requires k < |t|
  {
    (t[k].StartRun? ==> Told(t, k)) && (t[k].Lookup? ==> InRun(t, k))
  }

  /** Traces that are not misused are exactly those. */
  lemma {:induction false} MisusedIff(t: seq<Event>)
    ensures !PhaseAfter(t).Misused? <==> UsedWell(t)
    ensures !PhaseAfter(t).Misused? ==>
      (PhaseAfter(t).Unnoticed? <==> !Told(t, |t|)) && (PhaseAfter(t).Clean? <==> InRun(t, |t|))
  {
    hide Told, InRun;
    if t == [] {
      NothingTold(t);
    } else {
      var n := |t| - 1;
      MisusedIff(t[..n]);
      WellSnoc(t);
      ToldSnoc(t);
      RunningSnoc(t);
    }
  }

  lemma NothingTold(t: seq<Event>)
    requires t == []
    ensures !Told(t, 0) && !InRun(t, 0)
  {
  }

  lemma ToldSnoc(t: seq<Event>)
    requires t != []
    ensures var n := |t| - 1;
      && (Told(t, n) <==> Told(t[..n], n))
      && (Told(t, |t|) <==> t[n].Invalidate? || (Told(t[..n], n) && !t[n].HostWrite?))
  {
    var n := |t| - 1;
    forall j: nat
      ensures ToldBy(t, n, j) <==> ToldBy(t[..n], n, j)
      ensures ToldBy(t, |t|, j) <==> (j == n && t[n].Invalidate?) || (ToldBy(t[..n], n, j) && !t[n].HostWrite?)
    {
    }
    assert t[n].Invalidate? ==> ToldBy(t, |t|, n);
  }

  lemma RunningSnoc(t: seq<Event>)
    requires t != []
    ensures var n, e := |t| - 1, t[|t| - 1];
      && (InRun(t, n) <==> InRun(t[..n], n))
      && (InRun(t, |t|) <==> e.StartRun? || (InRun(t[..n], n) && !e.HostWrite? && !e.DmaWrite?))
  {
    var n, e := |t| - 1, t[|t| - 1];
    forall j: nat
      ensures RunningSince(t, n, j) <==> RunningSince(t[..n], n, j)
      ensures RunningSince(t, |t|, j) <==>
              (j == n && e.StartRun?) || (RunningSince(t[..n], n, j) && !e.HostWrite? && !e.DmaWrite?)
    {
    }
    assert e.StartRun? ==> RunningSince(t, |t|, n);
  }

  lemma WellSnoc(t: seq<Event>)
    requires t != []
    ensures var n := |t| - 1; UsedWell(t) <==> UsedWell(t[..n]) && StepWell(t, n)
  {
    hide StepWell;
    var n := |t| - 1;
    forall k | 0 <= k < n ensures StepWell(t, k) <==> StepWell(t[..n], k) {
      StepBefore(t, n, k);
    }
  }

  lemma StepBefore(t: seq<Event>, n: nat, k: nat)
    requires k < n <= |t|
    ensures StepWell(t, k) <==> StepWell(t[..n], k)
  {
    forall j: nat
      ensures ToldBy(t, k, j) <==> ToldBy(t[..n], k, j)
      ensures RunningSince(t, k, j) <==> RunningSince(t[..n], k, j)
    {
    }
  }

  /** A word of instruction memory is what was written there last. */
  lemma {:induction false} LastWritten(start: seq<Instr>, t: seq<Event>, w: nat, k: nat)
    requires |start| == IMEM_WORDS && TraceOk(t) && w < IMEM_WORDS && k <= |t|
    requires k == 0 || WritesAt(t[k - 1], w)
    requires forall j :: k <= j < |t| ==> !WritesAt(t[j], w)
    ensures Memory(start, t)[w] == if k == 0 then start[w] else t[k - 1].word
  {
    if k < |t| {
      LastWritten(start, t[..|t| - 1], w, k);
    }
  }

  /** The code a look-up must get is that of the region at its word, in the memory before it. */
  lemma {:induction false} DispatchedMeans(start: seq<Instr>, t: seq<Event>, k: nat)
    requires |start| == IMEM_WORDS && TraceOk(t) && k < |t| && t[k].Lookup?
    ensures var n := |Dispatched(start, t[..k])|;
      n < |Dispatched(start, t)| &&
      Dispatched(start, t)[n] == RegionCodeAt(Memory(start, t[..k]), t[k].pc % 0x1000 / 4)
  {
    hide RegionCodeAt;
    if k + 1 < |t| {
      assert t[..|t| - 1][..k] == t[..k];
      DispatchedMeans(start, t[..|t| - 1], k);
    }
  }

  predicate WritesAt(e: Event, w: nat) { (e.HostWrite? || e.DmaWrite?) && e.at == w }

  lemma FewerImages(hash: (nat, seq<Instr>) -> Word64, images: set<seq<Instr>>, fewer: set<seq<Instr>>)
    requires CollisionFree(hash, images) && fewer <= images
    ensures CollisionFree(hash, fewer)
  {
    hide RegionAt;
  }

  /** Main result: in every run whose writes are notified, with no hash collision among the contents
      instruction memory takes, every look-up returns code compiled from the memory of that moment. */
  method Replay(start: seq<Instr>, zero: Instr, hash: (nat, seq<Instr>) -> Word64, t: seq<Event>)
    returns (dispatched: seq<Code>)
    requires |start| == IMEM_WORDS && TraceOk(t)
    requires !PhaseAfter(t).Misused? && CollisionFree(hash, Images(start, t))
    ensures dispatched == Dispatched(start, t)
  {
    hide CollisionFree, RegionCodeAt, Kept, Coherent, Tracks, Word, Images, BitAt, Concerned;
    var imem := new Instr[IMEM_WORDS](k requires 0 <= k < IMEM_WORDS => start[k]);
    assert imem[..] == start;
    var cpu := new Cpu(imem, zero, hash);
    ghost var images: set<seq<Instr>> := {};
    dispatched := [];
    for k := 0 to |t|
      invariant fresh(cpu) && fresh(cpu.imem) && fresh(cpu.cachedImem) && fresh(cpu.blocks) && cpu.hash == hash
      invariant cpu.Valid(images) && images <= Images(start, t)
      invariant cpu.imem[..] == Memory(start, t[..k])
      invariant dispatched == Dispatched(start, t[..k])
      invariant PhaseAfter(t[..k]).Noticed? || PhaseAfter(t[..k]).Clean? ==> cpu.Noticed()
      invariant PhaseAfter(t[..k]).Clean? ==> cpu.cachedImem[..] == cpu.imem[..]
    {
      assert t[..k + 1][..k] == t[..k];
      NeverMisused(t, k);
      NeverMisused(t, k + 1);
      match t[k]
      case HostWrite(at, word) =>
        cpu.imem[at] := word;
        assert cpu.imem[..] == Memory(start, t[..k])[at := word];
      case DmaWrite(at, word) =>
        var _ := cpu.DmaWrite(at, word);
      case Invalidate =>
        cpu.InvalidateImem();
      case StartRun =>
        cpu.InvalidateCode(images);
        CleanIsNoticed(cpu.dirtyBlocks, cpu.imem[..]);
      case Lookup(pc) =>
        ImageOf(start, t, k);
        FewerImages(hash, Images(start, t), images + {cpu.imem[..]});
        var code := cpu.GetJitBlock(pc, images);
        images := images + {cpu.imem[..]};
        dispatched := dispatched + [code];
    }
    assert t[..|t|] == t;
  }

  lemma CleanIsNoticed(dirty: nat, imem: seq<Instr>)
    requires |imem| == IMEM_WORDS
    ensures Tracks(dirty, imem, imem)
  {
  }

  lemma ImageOf(start: seq<Instr>, t: seq<Event>, k: nat)
    requires |start| == IMEM_WORDS && TraceOk(t) && k <= |t|
    ensures Memory(start, t[..k]) in Images(start, t)
  {
  }

  /** A run of the recompiler, every region found through the code cache: n instructions on,
      it is where the one-instruction-at-a-time machine is. */
  method RunProgram<E>(cpu: Cpu, p: Guest<E>, f: Frame<E>, n: nat, ghost m: Machine<E>, ghost images: set<seq<Instr>>)
    returns (x: Place<E>)
    requires cpu.Valid(images) && cpu.Noticed() && cpu.imem[..] == p.imem
    requires CollisionFree(cpu.hash, images + {p.imem})
    requires Compilable(p) && AtEntry(f, m) && m.pending.None?
    modifies cpu`cachedBlocks, cpu`dirtyBlocks, cpu.blocks, cpu.cachedImem
    ensures cpu.Valid(images + {p.imem})
    ensures InStep(p, x, MachineRun(p, Running(m), n))
  {
    hide CollisionFree, RegionCodeAt, Kept, Coherent, Tracks, Word, RunCode, InStep, MachineRun, Compilable, RegionAt;
    cpu.InvalidateCode(images);
    var code := cpu.GetJitBlock(f.nextPc, images);
    ghost var seen := images + {p.imem};
    EnteredCode(p, f);
    x := Inside(code, 0, f.(flag := 0));
    for k := 0 to n
      invariant cpu.Valid(seen) && cpu.cachedImem[..] == cpu.imem[..] == p.imem
      invariant x == HostRun(p, EnterRegion(p, f), k)
    {
      if x.Inside? {
        match RunCode(p, x.c, x.k, x.f)
        case At(k', f') =>
          x := Inside(x.c, k', f');
        case Out(f') =>
          assert seen + {p.imem} == seen;
          code := cpu.GetJitBlock(f'.nextPc, seen);
          EnteredCode(p, f');
          x := Inside(code, 0, f'.(flag := 0));
        case Halt(f') =>
          x := Finished(f');
        case Crash =>
          x := Broken;
      }
    }
    CompiledRunsSimulate(p, f, m, n);
  }

  lemma EnteredCode<E>(p: Guest<E>, f: Frame<E>)
    requires GuestOk(p)
    ensures EnterRegion(p, f) == Inside(RegionCodeAt(p.imem, Word(f.nextPc)), 0, f.(flag := 0))
  {
    hide RegionAt, CompileRegion;
  }
}
