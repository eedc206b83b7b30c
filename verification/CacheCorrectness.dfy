/** The register cache is transparent: every call keeps the emitted code in step with a machine
    that has all registers. */
module CacheCorrectness {
  import opened Words
  import opened HostOps
  import opened RegisterCacheModel

  /** The machine without a cache: 32 MIPS registers, the branch flag, two scratch registers, the indirect target. */
  predicate VirtualOk(m: seq<Word32>) { |m| == VIRTUAL_REGISTERS + 1 && m[0] == 0 }

  predicate Tagged(e: Entry, x: Word64) {
    match e.sign
    case SExt => IsSigned(x)
    case ZExt => IsUnsigned(x)
    case Unknown => true
  }

  predicate EntryOk(e: Entry, x: Word64, sr: seq<Word32>, m: seq<Word32>)
    requires |sr| == 33 && |m| == VIRTUAL_REGISTERS + 1
  {
    if !e.live then e.locks == 0 && !e.modified
    else
      && e.mips < VIRTUAL_REGISTERS
      && Low(x) == m[e.mips]
      && Tagged(e, x)
      && (e.mips == 0 ==> x == 0 && !e.modified)
      && (!e.modified && 1 <= e.mips <= COND_BRANCH_TAKEN ==> sr[e.mips] == m[e.mips])
  }

  predicate Distinct(es: seq<Entry>) {
    forall i, j :: 0 <= i < j < |es| && es[i].live && es[j].live ==> es[i].mips != es[j].mips
  }

  /** Cache entries es, host state h and register values m describe the same machine. */
  predicate Rel(es: seq<Entry>, h: Host, m: seq<Word32>) {
    && HostOk(h, |es|)
    && VirtualOk(m)
    && Low(h.ind) == m[INDIRECT_PC]
    && Distinct(es)
    && (forall i :: 0 <= i < |es| ==> EntryOk(es[i], h.r[i], h.sr, m))
    && (forall r :: 1 <= r <= COND_BRANCH_TAKEN && FindLive(es, r) == |es| ==> h.sr[r] == m[r])
  }

  /** The code emitted so far, run from h0, has reached the values m. */
  predicate Reached(c: Cache, h0: Host, m: seq<Word32>) {
    && HostOk(h0, |c.entries|)
    && Rel(c.entries, Exec(c.code, h0), m)
  }

  lemma LiveIndex(es: seq<Entry>, k: nat, r: nat)
    requires Distinct(es) && k < |es| && Holds(es[k], r)
    ensures FindLive(es, r) == k
  {
  }

  /** At most two entries are locked, at x and y. */
  predicate LockedAt(es: seq<Entry>, x: int, y: int) {
    forall i :: 0 <= i < |es| && es[i].locks > 0 ==> i == x || i == y
  }

  /** With three host registers and two locks a register can always be found. */
  lemma FindSucceeds(es: seq<Entry>, x: int, y: int, r: nat)
    requires |es| >= 3 && LockedAt(es, x, y)
    ensures CanFind(es, r)
  {
    var i := if x != 0 && y != 0 then 0 else if x != 1 && y != 1 then 1 else 2;
    assert es[i].locks == 0;
    assert Evictable(es[i]) || !es[i].live;
  }

  /** Storing a modified register back changes neither the register values nor the bank. */
  lemma EvictedOk(c: Cache, k: nat, h0: Host, m: seq<Word32>)
    requires Reached(c, h0, m) && k < |c.entries|
    ensures var c' := Evicted(c, k);
      && Reached(c', h0, m)
      && Exec(c'.code, h0).r == Exec(c.code, h0).r
      && c'.entries == c.entries[k := c.entries[k].(modified := false)]
      && c'.clock == c.clock
      && (forall r :: FindLive(c'.entries, r) == FindLive(c.entries, r))
  {
    var e, h := c.entries[k], Exec(c.code, h0);
    assert EntryOk(e, h.r[k], h.sr, m);
    var es' := c.entries[k := e.(modified := false)];
    SameHolders(c.entries, es');
    if e.modified {
      if e.mips <= COND_BRANCH_TAKEN {
        ExecSnoc(c.code, Store(e.mips, k), h0);
      }
      CleanOk(c.entries, h, m, k);
    } else {
      assert c.entries == es';
    }
  }

  lemma CleanOk(es: seq<Entry>, h: Host, m: seq<Word32>, k: nat)
    requires Rel(es, h, m) && k < |es| && es[k].live && es[k].modified
    ensures var h' := if es[k].mips <= COND_BRANCH_TAKEN then h.(sr := h.sr[es[k].mips := Low(h.r[k])]) else h;
      Rel(es[k := es[k].(modified := false)], h', m)
  {
    var es' := es[k := es[k].(modified := false)];
    SameHolders(es, es');
    assert EntryOk(es[k], h.r[k], h.sr, m);
    assert Holds(es[k], es[k].mips);
  }

  lemma SameHolders(es: seq<Entry>, es': seq<Entry>)
    requires |es| == |es'|
    requires forall i :: 0 <= i < |es| ==> es[i].live == es'[i].live && es[i].mips == es'[i].mips
    ensures forall r :: FindLive(es, r) == FindLive(es', r)
  {
    forall r ensures FindLive(es, r) == FindLive(es', r) {
      var k, k' := FindLive(es, r), FindLive(es', r);
    }
  }

  /** Entry k, holding nothing that memory lacks, may be given to register r. */
  lemma Install(es: seq<Entry>, h: Host, m: seq<Word32>, k: nat, r: nat, e: Entry, x: Word64, m': seq<Word32>)
    requires Rel(es, h, m) && k < |es| && !es[k].modified && 0 <= r < VIRTUAL_REGISTERS
    requires FindLive(es, r) == |es| || FindLive(es, r) == k
    requires Holds(e, r) && VirtualOk(m')
    requires forall s :: 0 <= s <= VIRTUAL_REGISTERS && s != r ==> m'[s] == m[s]
    requires EntryOk(e, x, h.sr, m')
    ensures Rel(es[k := e], h.(r := h.r[k := x]), m')
  {
    var es', h' := es[k := e], h.(r := h.r[k := x]);
    forall s | 1 <= s <= COND_BRANCH_TAKEN && FindLive(es', s) == |es'|
      ensures h'.sr[s] == m'[s]
    {
      assert forall i :: 0 <= i < |es| && i != k ==> es'[i] == es[i];
      assert !Holds(es'[k], s);
    }
  }

  /** What a load promises: r is in host register k, extended as asked, and nothing else moved. */
  predicate Loaded(c: Cache, c': Cache, h: Host, h': Host, k: nat, r: nat, ext: Sign) {
    && k < |c.entries| == |c'.entries| == |h.r| == |h'.r|
    && (forall i :: 0 <= i < |c.entries| && i != k ==> c'.entries[i] == c.entries[i] && h'.r[i] == h.r[i])
    && Holds(c'.entries[k], r)
    && c'.entries[k].locks == c.entries[k].locks + 1
    && (!ext.Unknown? ==> c'.entries[k].sign == ext)
  }

  lemma RetagSame(es: seq<Entry>, h: Host, m: seq<Word32>, k: nat, e: Entry)
    requires Rel(es, h, m) && k < |es| && es[k].live
    requires e.live && e.mips == es[k].mips && e.modified == es[k].modified && Tagged(e, h.r[k])
    ensures Rel(es[k := e], h, m)
  {
    assert EntryOk(es[k], h.r[k], h.sr, m);
    SameHolders(es, es[k := e]);
  }

  lemma LoadOk(c: Cache, r: nat, ext: Sign, h0: Host, m: seq<Word32>)
    requires Reached(c, h0, m) && r <= COND_BRANCH_TAKEN && CanFind(c.entries, r)
    ensures Reached(Load(c, r, ext), h0, m)
    ensures Loaded(c, Load(c, r, ext), Exec(c.code, h0), Exec(Load(c, r, ext).code, h0), Find(c.entries, r), r, ext)
  {
    hide Reached, Exec, Extend, Refill;
    var k := Find(c.entries, r);
    var c1 := if Holds(c.entries[k], r) then Extend(c, k, ext) else Refill(c, k, r, ext);
    if Holds(c.entries[k], r) {
      ExtendOk(c, k, r, ext, h0, m);
    } else {
      RefillOk(c, k, r, ext, h0, m);
    }
    TouchOk(c1, k, h0, m);
  }

  /** Entry k now holds r with the extension asked for; the other entries and host registers are untouched. */
  predicate Brought(c: Cache, c': Cache, h: Host, h': Host, k: nat, r: nat, ext: Sign) {
    && k < |c.entries| == |c'.entries| == |h.r| == |h'.r|
    && (forall i :: 0 <= i < |c.entries| && i != k ==> c'.entries[i] == c.entries[i] && h'.r[i] == h.r[i])
    && Holds(c'.entries[k], r)
    && c'.entries[k].locks == c.entries[k].locks
    && (!ext.Unknown? ==> c'.entries[k].sign == ext)
  }

  lemma TouchOk(c: Cache, k: nat, h0: Host, m: seq<Word32>)
    requires Reached(c, h0, m) && k < |c.entries| && c.entries[k].live
    ensures Reached(Touch(c, k), h0, m)
  {
    assert EntryOk(c.entries[k], Exec(c.code, h0).r[k], Exec(c.code, h0).sr, m);
    RetagSame(c.entries, Exec(c.code, h0), m, k, Touch(c, k).entries[k]);
  }

  lemma ExtendOk(c: Cache, k: nat, r: nat, ext: Sign, h0: Host, m: seq<Word32>)
    requires Reached(c, h0, m) && k < |c.entries| && Holds(c.entries[k], r)
    ensures Reached(Extend(c, k, ext), h0, m)
    ensures Brought(c, Extend(c, k, ext), Exec(c.code, h0), Exec(Extend(c, k, ext).code, h0), k, r, ext)
  {
    hide Exec, Exec1, Low, SignExtend, FindLive, IsSigned, IsUnsigned, Distinct;
    var e, h := c.entries[k], Exec(c.code, h0);
    assert EntryOk(e, h.r[k], h.sr, m);
    if !ext.Unknown? && e.sign != ext {
      var e' := e.(sign := ext);
      if r == 0 {
        ZeroExtended();
        RetagSame(c.entries, h, m, k, e');
      } else {
        WidenOk(c, k, ext, h0, m);
      }
    }
  }

  lemma WidenOk(c: Cache, k: nat, ext: Sign, h0: Host, m: seq<Word32>)
    requires Reached(c, h0, m) && k < |c.entries| && c.entries[k].live && c.entries[k].mips != 0 && !ext.Unknown?
    ensures var op := if ext.SExt? then ExtendSigned(k) else ExtendUnsigned(k);
            var h, h' := Exec(c.code, h0), Exec(c.code + [op], h0);
      && h' == h.(r := h.r[k := h'.r[k]])
      && Rel(c.entries[k := c.entries[k].(sign := ext)], h', m)
  {
    hide Exec, Low, SignExtend, FindLive, IsSigned, IsUnsigned, Distinct;
    var h := Exec(c.code, h0);
    ExtendedValue(h.r[k]);
    ExecSnoc(c.code, if ext.SExt? then ExtendSigned(k) else ExtendUnsigned(k), h0);
    var x := if ext.SExt? then SignExtend(Low(h.r[k])) else Low(h.r[k]);
    Retag(c.entries, h, m, k, c.entries[k].(sign := ext), x);
  }

  lemma RefillOk(c: Cache, k: nat, r: nat, ext: Sign, h0: Host, m: seq<Word32>)
    requires Reached(c, h0, m) && k < |c.entries| && FindLive(c.entries, r) == |c.entries|
    requires r <= COND_BRANCH_TAKEN
    ensures Reached(Refill(c, k, r, ext), h0, m)
    ensures Brought(c, Refill(c, k, r, ext), Exec(c.code, h0), Exec(Refill(c, k, r, ext).code, h0), k, r, ext)
  {
    var e := c.entries[k];
    assert EntryOk(e, Exec(c.code, h0).r[k], Exec(c.code, h0).sr, m);
    var c0 := Evicted(c, k);
    EvictedOk(c, k, h0, m);
    var e' := Refill(c, k, r, ext).entries[k];
    assert Refill(c, k, r, ext).entries == c0.entries[k := e'];
    FetchOk(c0, k, r, ext, e', h0, m);
  }

  /** An entry may change its lock, age and extension as long as its register keeps its value. */
  lemma Retag(es: seq<Entry>, h: Host, m: seq<Word32>, k: nat, e: Entry, x: Word64)
    requires Rel(es, h, m) && k < |es| && es[k].live
    requires e.live && e.mips == es[k].mips && e.modified == es[k].modified
    requires Low(x) == Low(h.r[k]) && Tagged(e, x) && (e.mips == 0 ==> x == 0)
    ensures Rel(es[k := e], h.(r := h.r[k := x]), m)
  {
    SameHolders(es, es[k := e]);
    assert EntryOk(es[k], h.r[k], h.sr, m);
  }

  lemma FetchOk(c: Cache, k: nat, r: nat, ext: Sign, e: Entry, h0: Host, m: seq<Word32>)
    requires Reached(c, h0, m) && k < |c.entries| && !c.entries[k].modified
    requires r <= COND_BRANCH_TAKEN && FindLive(c.entries, r) == |c.entries|
    requires Holds(e, r) && !e.modified && e.sign == if ext.ZExt? then ZExt else SExt
    ensures Rel(c.entries[k := e], Exec(c.code + [Fetch(k, r, ext)], h0), m)
    ensures forall i :: 0 <= i < |c.entries| && i != k ==>
      Exec(c.code + [Fetch(k, r, ext)], h0).r[i] == Exec(c.code, h0).r[i]
  {
    var h := Exec(c.code, h0);
    ExecSnoc(c.code, Fetch(k, r, ext), h0);
    var h' := Exec(c.code + [Fetch(k, r, ext)], h0);
    var x := h'.r[k];
    assert r != 0 ==> h.sr[r] == m[r];
    assert h' == h.(r := h.r[k := x]);
    Install(c.entries, h, m, k, r, e, x, m);
  }

  /** What a claim promises: r owns host register k, whose content is now r's value. */
  predicate Claimed(c: Cache, c': Cache, h: Host, h': Host, k: nat, r: nat) {
    && k < |c.entries| == |c'.entries| == |h.r|
    && h'.r == h.r
    && (forall i :: 0 <= i < |c.entries| && i != k ==> c'.entries[i] == c.entries[i])
    && Holds(c'.entries[k], r)
    && c'.entries[k].modified
    && c'.entries[k].sign.Unknown?
    && c'.entries[k].locks == c.entries[k].locks + 1
  }

  lemma ModifyOk(c: Cache, r: nat, h0: Host, m: seq<Word32>)
    requires Reached(c, h0, m) && 1 <= r < VIRTUAL_REGISTERS && CanFind(c.entries, r)
    ensures Claimed(c, Modify(c, r), Exec(c.code, h0), Exec(Modify(c, r).code, h0), Find(c.entries, r), r)
    ensures Reached(Modify(c, r), h0, m[r := Low(Exec(c.code, h0).r[Find(c.entries, r)])])
  {
    hide Exec, EntryOk, Low, FindLive;
    var k := Find(c.entries, r);
    var e' := Modify(c, r).entries[k];
    if Holds(c.entries[k], r) {
      ClaimHeldOk(c.entries, Exec(c.code, h0), m, k, r, e');
    } else {
      EvictedOk(c, k, h0, m);
      EvictUnlessHeld(c, k, r, h0, m);
      assert Modify(c, r).entries == Evicted(c, k).entries[k := e'];
      ClaimFreshOk(Evicted(c, k).entries, Exec(Evicted(c, k).code, h0), m, k, r, e');
    }
  }

  /** A claim evicts exactly when the entry holds another register. */
  lemma EvictUnlessHeld(c: Cache, k: nat, r: nat, h0: Host, m: seq<Word32>)
    requires Reached(c, h0, m) && k < |c.entries| && !Holds(c.entries[k], r)
    ensures Evicted(c, k) == if c.entries[k].mips != r then Evicted(c, k) else c
  {
  }

  lemma ClaimHeldOk(es: seq<Entry>, h: Host, m: seq<Word32>, k: nat, r: nat, e: Entry)
    requires Rel(es, h, m) && k < |es| && Holds(es[k], r) && 1 <= r < VIRTUAL_REGISTERS
    requires Holds(e, r) && e.modified && e.sign.Unknown?
    ensures Rel(es[k := e], h, m[r := Low(h.r[k])])
  {
    assert EntryOk(es[k], h.r[k], h.sr, m);
    assert m[r := Low(h.r[k])] == m;
    SameHolders(es, es[k := e]);
  }

  lemma ClaimFreshOk(es: seq<Entry>, h: Host, m: seq<Word32>, k: nat, r: nat, e: Entry)
    requires Rel(es, h, m) && k < |es| && !es[k].modified && FindLive(es, r) == |es| && 1 <= r < VIRTUAL_REGISTERS
    requires Holds(e, r) && e.modified && e.sign.Unknown?
    ensures Rel(es[k := e], h, m[r := Low(h.r[k])])
  {
    assert h.(r := h.r[k := h.r[k]]) == h;
    Install(es, h, m, k, r, e, h.r[k], m[r := Low(h.r[k])]);
  }

  /** An operation writing host register k gives the register claimed there its value. */
  lemma WriteOk(c: Cache, op: Op, k: nat, r: nat, sign: Sign, h0: Host, m: seq<Word32>)
    requires Reached(c, h0, m) && k < |c.entries| && 1 <= r < VIRTUAL_REGISTERS
    requires Holds(c.entries[k], r) && c.entries[k].modified
    requires var h := Exec(c.code, h0); Exec1(op, h) == h.(r := h.r[k := Exec1(op, h).r[k]])
    requires Tagged(c.entries[k].(sign := sign), Exec1(op, Exec(c.code, h0)).r[k])
    ensures var c' := Emit(c, op);
      && Exec(c'.code, h0) == Exec1(op, Exec(c.code, h0))
      && Reached(c'.(entries := c.entries[k := c.entries[k].(sign := sign)]), h0,
                 m[r := Low(Exec(c'.code, h0).r[k])])
  {
    hide Exec, Exec1, Low, FindLive;
    ExecSnoc(c.code, op, h0);
    var h := Exec(c.code, h0);
    var x := Exec1(op, h).r[k];
    var es' := c.entries[k := c.entries[k].(sign := sign)];
    var m' := m[r := Low(x)];
    SameHolders(c.entries, es');
    forall i | 0 <= i < |es'| ensures EntryOk(es'[i], h.r[k := x][i], h.sr, m') {
      assert EntryOk(c.entries[i], h.r[i], h.sr, m);
    }
  }

  lemma ImmediateOk(c: Cache, r: nat, v: Word64, h0: Host, m: seq<Word32>)
    requires Reached(c, h0, m) && 1 <= r < VIRTUAL_REGISTERS && CanFind(c.entries, r) && IsSigned(v)
    ensures Reached(Immediate(c, r, v), h0, m[r := Low(v)])
    ensures var k, c' := Find(c.entries, r), Immediate(c, r, v);
      && k < |c'.entries| == |c.entries|
      && (forall i :: 0 <= i < |c.entries| && i != k ==> c'.entries[i] == c.entries[i])
      && Holds(c'.entries[k], r)
      && c'.entries[k].locks == c.entries[k].locks + 1
  {
    ModifyOk(c, r, h0, m);
    var k, c1 := Find(c.entries, r), Modify(c, r);
    var m1 := m[r := Low(Exec(c.code, h0).r[k])];
    WriteOk(c1, MovI(k, v), k, r, SExt, h0, m1);
    assert m1[r := Low(v)] == m[r := Low(v)];
  }

  lemma UnlockOk(c: Cache, k: nat, r: nat, h0: Host, m: seq<Word32>)
    requires Reached(c, h0, m) && k < |c.entries| && Holds(c.entries[k], r) && c.entries[k].locks > 0
    ensures IsLocked(c.entries, r)
    ensures Reached(Unlock(c, r), h0, m)
    ensures Unlock(c, r).code == c.code
    ensures Unlock(c, r).entries == c.entries[k := c.entries[k].(locks := c.entries[k].locks - 1)]
  {
    LiveIndex(c.entries, k, r);
    SameHolders(c.entries, Unlock(c, r).entries);
  }

  /** Flushing empties the cache and leaves every guest register in memory. */
  lemma {:induction false} FlushFromOk(c: Cache, i: nat, n: nat, h0: Host, m: seq<Word32>)
    requires Reached(c, h0, m) && i <= n <= |c.entries|
    ensures Reached(FlushFrom(c, i, n), h0, m)
    ensures Exec(FlushFrom(c, i, n).code, h0).r == Exec(c.code, h0).r
    ensures forall j :: 0 <= j < |c.entries| ==>
      if i <= j < n then !FlushFrom(c, i, n).entries[j].live else FlushFrom(c, i, n).entries[j] == c.entries[j]
    decreases n - i
  {
    hide Reached, Exec, Evicted, FindLive;
    if i < n {
      if c.entries[i].live {
        EvictedOk(c, i, h0, m);
        var c1 := Evicted(c, i);
        var c2 := c1.(entries := c1.entries[i := BLANK]);
        ForgetOk(c1, i, h0, m);
        FlushFromOk(c2, i + 1, n, h0, m);
      } else {
        FlushFromOk(c, i + 1, n, h0, m);
      }
    }
  }

  lemma ForgetOk(c: Cache, i: nat, h0: Host, m: seq<Word32>)
    requires Reached(c, h0, m) && i < |c.entries| && c.entries[i].live && !c.entries[i].modified
    ensures Reached(c.(entries := c.entries[i := BLANK]), h0, m)
  {
    var es' := c.entries[i := BLANK];
    var h := Exec(c.code, h0);
    forall r | 1 <= r <= COND_BRANCH_TAKEN && FindLive(es', r) == |es'|
      ensures h.sr[r] == m[r]
    {
      assert forall j :: 0 <= j < |es'| && j != i ==> es'[j] == c.entries[j];
    }
  }

  lemma FlushAllOk(c: Cache, h0: Host, m: seq<Word32>)
    requires Reached(c, h0, m)
    ensures Reached(FlushAll(c), h0, m) && NoLocks(FlushAll(c).entries)
    ensures forall r :: 1 <= r <= COND_BRANCH_TAKEN ==> Exec(FlushAll(c).code, h0).sr[r] == m[r]
  {
    FlushFromOk(c, 0, |c.entries|, h0, m);
    var c' := FlushAll(c);
    forall i | 0 <= i < |c'.entries| ensures c'.entries[i].locks == 0 {
      assert EntryOk(c'.entries[i], Exec(c'.code, h0).r[i], Exec(c'.code, h0).sr, m);
    }
    forall r | 1 <= r <= COND_BRANCH_TAKEN ensures Exec(c'.code, h0).sr[r] == m[r] {
      assert FindLive(c'.entries, r) == |c'.entries|;
    }
  }
}
