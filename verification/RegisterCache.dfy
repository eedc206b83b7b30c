/**
 The register cache of the recompiler: which MIPS register lives in which host register,
 whether it must be written back, and how its upper half is extended.
 Numbers 1 to 31 are the MIPS registers, 32 the branch-taken flag, 33 and 34 scratch.
*/
module RegisterCacheModel {
  import opened Words
  import opened HostOps

  const COND_BRANCH_TAKEN: nat := 32
  const SCRATCH_REGISTER0: nat := 33
  const SCRATCH_REGISTER1: nat := 34
  const VIRTUAL_REGISTERS: nat := 35
  const INDIRECT_PC: nat := 35

  /** Host operations. Registers are indices into the host bank, slots index the guest state's sr array. */
  datatype Op =
    | LoadSigned(d: nat, slot: nat)
    | LoadUnsigned(d: nat, slot: nat)
    | Store(slot: nat, s: nat)
    | MovI(d: nat, imm: Word64)
    | ExtendSigned(d: nat)
    | ExtendUnsigned(d: nat)
    | MovIndirect(s: nat)
    | Op3(f: Fn, d: nat, a: nat, b: nat)
    | OpI(f: Fn, d: nat, a: nat, imm: Word64)

  /** Register bank, the sr array of the guest state, and the register reserved for an indirect branch target. */
  datatype Host = Host(r: seq<Word64>, sr: seq<Word32>, ind: Word64)

  predicate OpFits(op: Op, n: nat) {
    match op
    case LoadSigned(d, slot) => d < n && slot <= COND_BRANCH_TAKEN
    case LoadUnsigned(d, slot) => d < n && slot <= COND_BRANCH_TAKEN
    case Store(slot, s) => s < n && slot <= COND_BRANCH_TAKEN
    case MovI(d, _) => d < n
    case ExtendSigned(d) => d < n
    case ExtendUnsigned(d) => d < n
    case MovIndirect(s) => s < n
    case Op3(_, d, a, b) => d < n && a < n && b < n
    case OpI(_, d, a, _) => d < n && a < n
  }

  predicate HostOk(h: Host, n: nat) {
    |h.r| == n && |h.sr| == 33
  }

  /** One host operation; an operation naming a register outside the bank does nothing. */
  function Exec1(op: Op, h: Host): (h': Host)
    requires |h.sr| == 33
    ensures |h'.r| == |h.r| && |h'.sr| == 33
  {
    if !OpFits(op, |h.r|) then h else
    match op
    case LoadSigned(d, slot) => h.(r := h.r[d := SignExtend(h.sr[slot])])
    case LoadUnsigned(d, slot) => h.(r := h.r[d := h.sr[slot]])
    case Store(slot, s) => h.(sr := h.sr[slot := Low(h.r[s])])
    case MovI(d, imm) => h.(r := h.r[d := imm])
    case ExtendSigned(d) => h.(r := h.r[d := SignExtend(Low(h.r[d]))])
    case ExtendUnsigned(d) => h.(r := h.r[d := Low(h.r[d])])
    case MovIndirect(s) => h.(ind := h.r[s])
    case Op3(f, d, a, b) => h.(r := h.r[d := Wide(f, h.r[a], h.r[b])])
    case OpI(f, d, a, imm) => h.(r := h.r[d := Wide(f, h.r[a], imm)])
  }

  function Exec(code: seq<Op>, h: Host): (h': Host)
    requires |h.sr| == 33
    ensures |h'.r| == |h.r| && |h'.sr| == 33
  {
    if code == [] then h else Exec1(code[|code| - 1], Exec(code[..|code| - 1], h))
  }

  lemma ExecSnoc(code: seq<Op>, op: Op, h: Host)
    requires |h.sr| == 33
    ensures Exec(code + [op], h) == Exec1(op, Exec(code, h))
  {
    assert (code + [op])[..|code|] == code;
  }

  datatype Sign = SExt | ZExt | Unknown

  datatype Entry = Entry(mips: nat, timestamp: nat, locks: nat, sign: Sign, live: bool, modified: bool)

  const BLANK := Entry(0, 0, 0, SExt, false, false)

  /** The cache together with the operations emitted so far. */
  datatype Cache = Cache(entries: seq<Entry>, clock: nat, code: seq<Op>)

  // ---- lookup -----------------------------------------------------------------------------

  function FirstFrom(es: seq<Entry>, p: Entry -> bool, i: nat): (k: nat)
    requires i <= |es|
    ensures i <= k <= |es|
    ensures forall j :: i <= j < k ==> !p(es[j])
    ensures k < |es| ==> p(es[k])
    decreases |es| - i
  {
    if i == |es| || p(es[i]) then i else FirstFrom(es, p, i + 1)
  }

  predicate Holds(e: Entry, r: nat) { e.live && e.mips == r }

  function FindLive(es: seq<Entry>, r: nat): (k: nat)
    ensures k <= |es|
    ensures k < |es| ==> Holds(es[k], r)
    ensures forall j :: 0 <= j < k ==> !Holds(es[j], r)
  {
    FirstFrom(es, e => Holds(e, r), 0)
  }

  function FindFree(es: seq<Entry>): (k: nat)
    ensures k <= |es|
    ensures k < |es| ==> !es[k].live
    ensures forall j :: 0 <= j < k ==> es[j].live
  {
    FirstFrom(es, (e: Entry) => !e.live, 0)
  }

  predicate Evictable(e: Entry) { e.live && e.locks == 0 }

  /** The least recently used unlocked entry, the first one on a tie. */
  function FindOldest(es: seq<Entry>, n: nat): (k: nat)
    requires n <= |es|
    ensures k <= n || k == |es|
    ensures k < |es| ==> k < n && Evictable(es[k])
    ensures k == |es| ==> forall j :: 0 <= j < n ==> !Evictable(es[j])
    ensures k < |es| ==> forall j :: 0 <= j < n && Evictable(es[j]) ==> es[k].timestamp <= es[j].timestamp
    ensures k < |es| ==> forall j :: 0 <= j < k && Evictable(es[j]) ==> es[k].timestamp < es[j].timestamp
  {
    if n == 0 then |es|
    else
      var best := FindOldest(es, n - 1);
      if Evictable(es[n - 1]) && (best == |es| || es[n - 1].timestamp < es[best].timestamp) then n - 1 else best
  }

  /** The register that a request for r gets; |es| when there is none. */
  function Find(es: seq<Entry>, r: nat): (k: nat)
    ensures k <= |es|
    ensures k < |es| ==> Holds(es[k], r) || es[k].locks == 0 || !es[k].live
  {
    var live := FindLive(es, r);
    if live < |es| then live
    else
      var free := FindFree(es);
      if free < |es| then free else FindOldest(es, |es|)
  }

  predicate CanFind(es: seq<Entry>, r: nat) { Find(es, r) < |es| }

  // ---- the cache calls ----------------------------------------------------------------------

  function Emit(c: Cache, op: Op): Cache { c.(code := c.code + [op]) }

  function Tick(clock: nat): nat { (clock + 1) % TWO_32 }

  /** Store a modified register back to the guest state; scratch registers have no slot. */
  function Writeback(c: Cache, k: nat): Cache
    requires k < |c.entries|
  {
    var e := c.entries[k];
    var c1 := if e.mips <= COND_BRANCH_TAKEN then Emit(c, Store(e.mips, k)) else c;
    c1.(entries := c1.entries[k := e.(modified := false)])
  }

  /** Entry k stripped of anything the guest state lacks. */
  function Evicted(c: Cache, k: nat): Cache
    requires k < |c.entries|
  {
    if c.entries[k].live && c.entries[k].modified then Writeback(c, k) else c
  }

  function Fetch(k: nat, r: nat, ext: Sign): Op {
    if r == 0 then MovI(k, 0) else if ext.ZExt? then LoadUnsigned(k, r) else LoadSigned(k, r)
  }

  /** Fill entry k from the guest state with register r. */
  function Refill(c: Cache, k: nat, r: nat, ext: Sign): Cache
    requires k < |c.entries|
  {
    var e := c.entries[k];
    var c1 := Emit(Evicted(c, k), Fetch(k, r, ext));
    c1.(entries := c1.entries[k := e.(mips := r, live := true, modified := false,
                                      sign := if ext.ZExt? then ZExt else SExt)])
  }

  /** Make the upper half of live entry k what the caller asked for. */
  function Extend(c: Cache, k: nat, ext: Sign): Cache
    requires k < |c.entries|
  {
    var e := c.entries[k];
    if ext.Unknown? || e.sign == ext then c
    else
      var c0 := if e.mips == 0 then c else Emit(c, if ext.SExt? then ExtendSigned(k) else ExtendUnsigned(k));
      c0.(entries := c0.entries[k := e.(sign := ext)])
  }

  /** Bring r into a host register, extended as asked (Unknown asks for nothing), and lock it. */
  function Load(c: Cache, r: nat, ext: Sign): Cache
    requires CanFind(c.entries, r)
  {
    var k := Find(c.entries, r);
    Touch(if Holds(c.entries[k], r) then Extend(c, k, ext) else Refill(c, k, r, ext), k)
  }

  function Touch(c: Cache, k: nat): Cache
    requires k < |c.entries|
  {
    var e := c.entries[k];
    Cache(c.entries[k := e.(timestamp := Tick(c.clock), locks := e.locks + 1)], Tick(c.clock), c.code)
  }

  /** Claim a host register for a new value of r, and lock it. */
  function Modify(c: Cache, r: nat): Cache
    requires CanFind(c.entries, r)
  {
    var k := Find(c.entries, r);
    var e := c.entries[k];
    var c0 := if e.mips != r then Evicted(c, k) else c;
    var c1 := c0.(entries := c0.entries[k := e.(mips := r, live := true, sign := Unknown, modified := true)]);
    Touch(c1, k)
  }

  function Immediate(c: Cache, r: nat, v: Word64): Cache
    requires CanFind(c.entries, r)
  {
    var k := Find(c.entries, r);
    var c1 := Emit(Modify(c, r), MovI(k, v));
    c1.(entries := c1.entries[k := c1.entries[k].(sign := SExt)])
  }

  predicate IsLocked(es: seq<Entry>, r: nat) {
    FindLive(es, r) < |es| && es[FindLive(es, r)].locks > 0
  }

  function Unlock(c: Cache, r: nat): Cache
    requires IsLocked(c.entries, r)
  {
    var k := FindLive(c.entries, r);
    c.(entries := c.entries[k := c.entries[k].(locks := c.entries[k].locks - 1)])
  }

  predicate NoLocks(es: seq<Entry>) { forall i :: 0 <= i < |es| ==> es[i].locks == 0 }

  /** Write back and forget the entries with index in [i, n). */
  function FlushFrom(c: Cache, i: nat, n: nat): (c': Cache)
    requires i <= n <= |c.entries|
    ensures |c'.entries| == |c.entries| && c'.clock == c.clock
    decreases n - i
  {
    if i == n then c
    else if c.entries[i].live then
      var c1 := Evicted(c, i);
      FlushFrom(c1.(entries := c1.entries[i := BLANK]), i + 1, n)
    else FlushFrom(c, i + 1, n)
  }

  function FlushAll(c: Cache): Cache { FlushFrom(c, 0, |c.entries|).(clock := 0) }

  // ---- which register is evicted ----------------------------------------------------------------

  /** Nothing is younger than the clock. */
  predicate Stamped(c: Cache) { forall i :: 0 <= i < |c.entries| ==> c.entries[i].timestamp <= c.clock }

  /** Entry k was used by the call that led from c to c': it alone is as young as the clock, which has moved on. */
  predicate JustUsed(c: Cache, c': Cache, k: nat) {
    && k < |c.entries| == |c'.entries| && Stamped(c')
    && c'.clock == c'.entries[k].timestamp == c.clock + 1
    && forall i :: 0 <= i < |c.entries| && i != k ==> c'.entries[i].timestamp == c.entries[i].timestamp < c'.clock
  }

  /** The entries have the time stamps of c. */
  predicate SameStamps(c: Cache, c1: Cache) {
    && c1.clock == c.clock && |c1.entries| == |c.entries|
    && forall i :: 0 <= i < |c.entries| ==> c1.entries[i].timestamp == c.entries[i].timestamp
  }

  lemma TouchIsUse(c: Cache, c1: Cache, k: nat)
    requires Stamped(c) && c.clock + 1 < TWO_32 && SameStamps(c, c1) && k < |c.entries|
    ensures JustUsed(c, Touch(c1, k), k)
  {
  }

  lemma EvictedStamps(c: Cache, k: nat)
    requires k < |c.entries|
    ensures SameStamps(c, Evicted(c, k))
  {
  }

  lemma LoadIsUse(c: Cache, r: nat, ext: Sign)
    requires Stamped(c) && c.clock + 1 < TWO_32 && CanFind(c.entries, r)
    ensures JustUsed(c, Load(c, r, ext), Find(c.entries, r))
  {
    hide Find, JustUsed, Evicted, Touch, Stamped;
    var k := Find(c.entries, r);
    EvictedStamps(c, k);
    var c1 := if Holds(c.entries[k], r) then Extend(c, k, ext) else Refill(c, k, r, ext);
    TouchIsUse(c, c1, k);
  }

  lemma ModifyIsUse(c: Cache, r: nat)
    requires Stamped(c) && c.clock + 1 < TWO_32 && CanFind(c.entries, r)
    ensures JustUsed(c, Modify(c, r), Find(c.entries, r))
  {
    hide Find, JustUsed, Evicted, Touch, Stamped;
    var k := Find(c.entries, r);
    EvictedStamps(c, k);
    var e := c.entries[k];
    var c0 := if e.mips != r then Evicted(c, k) else c;
    TouchIsUse(c, c0.(entries := c0.entries[k := e.(mips := r, live := true, sign := Unknown, modified := true)]), k);
  }

  /** A register that was just used is not the next victim while another one can be evicted, whatever locks are
      given back in between; the victim is one whose last use is longest ago. */
  lemma VictimIsOldest(c: Cache, c': Cache, k: nat, es: seq<Entry>, j: nat)
    requires JustUsed(c, c', k) && |es| == |c'.entries| && j < |es| && j != k && Evictable(es[j])
    requires forall i :: 0 <= i < |es| ==> es[i].timestamp == c'.entries[i].timestamp
    ensures FindOldest(es, |es|) < |es| && FindOldest(es, |es|) != k
    ensures es[FindOldest(es, |es|)].timestamp <= es[j].timestamp
  {
  }
}
