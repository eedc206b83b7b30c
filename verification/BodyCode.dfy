/** The scalar part of a region's code is the register-cache compiler's output. */
module BodyCode {
  import opened Words
  import opened HostOps
  import opened RegisterCacheModel
  import opened CacheCorrectness
  import opened Mips
  import opened Emitter
  import opened ScalarCompiler
  import RegionCode

  /** The frame of a region shows the values m of the cacheless machine. */
  ghost predicate Mirrors<E>(f: RegionCode.Frame<E>, m: seq<Word32>)
    requires VirtualOk(m)
  {
    f.g == RegsOf(m) && f.flag == m[COND_BRANCH_TAKEN] && f.ind == m[INDIRECT_PC]
  }

  /** The operation Body of a region stands for the code emitted through the register cache, in whatever state
      the cache is: flushed, that code leaves in memory the registers, flag and indirect target Body gives. */
  lemma BodyIsEmitted<E>(p: RegionCode.Guest<E>, i: Instr, w: nat, next: bool, f: RegionCode.Frame<E>,
                         c: Cache, h0: Host, m: seq<Word32>)
    requires VirtualOk(m) && Reached(c, h0, m) && Unlocked(c) && Mirrors(f, m)
    requires i.op < 16 && !RegionCode.IsBreak(i)
    ensures var f' := RegionCode.RunBody(p, i, w, next, f);
      var h := Exec(FlushAll(EmitInstr(c, i, 4 * w, next)).code, h0);
      && f'.e == f.e
      && (forall r :: 1 <= r < 32 ==> h.sr[r] == f'.g[r])
      && h.sr[COND_BRANCH_TAKEN] == f'.flag
      && Low(h.ind) == f'.ind
  {
    hide EmitInstr, FlushAll, Exec, DataStep, FlagAfter, Unlocked;
    EmitInstrOk(c, i, 4 * w, next, h0, m);
    FlushAllOk(EmitInstr(c, i, 4 * w, next), h0, Effect(i, 4 * w, next, m));
  }
}
