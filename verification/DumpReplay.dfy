/** What the dump writer records for each call, and a replayer that recovers the calls from the records. */
module DumpReplay {
  import opened Words
  import opened DumpFormat

  const BLOCK_SIZE: nat := 4096

  /** The calls a dump records. */
  datatype Call =
    | FlushMemory(hidden: bool, memory: seq<Byte>)
    | EmitCommand(op: Word32, words: seq<Word32>)
    | SetViRegister(reg: Word32, value: Word32)
    | FrameEnds
    | CommandListEnds

  /** A copy of both memories. */
  datatype Memories = Memories(dram: seq<Byte>, hiddenDram: seq<Byte>) {
    function Of(hidden: bool): seq<Byte> { if hidden then hiddenDram else dram }
    function With(hidden: bool, m: seq<Byte>): Memories { if hidden then this.(hiddenDram := m) else this.(dram := m) }
  }

  function Zeroes(n: nat): seq<Byte> { seq(n, _ => 0) }

  function Start(dramSize: nat, hiddenSize: nat): Memories { Memories(Zeroes(dramSize), Zeroes(hiddenSize)) }

  lemma StartIsZero(dramSize: nat, hiddenSize: nat)
    ensures var m := Start(dramSize, hiddenSize);
      && |m.dram| == dramSize && |m.hiddenDram| == hiddenSize
      && (forall i :: 0 <= i < dramSize ==> m.dram[i] == 0) && forall i :: 0 <= i < hiddenSize ==> m.hiddenDram[i] == 0
  {
  }

  predicate SizeOk(n: nat) { n < TWO_32 && n % BLOCK_SIZE == 0 }

  predicate CallOk(m: Memories, c: Call) {
    && (c.FlushMemory? ==> |c.memory| == |m.Of(c.hidden)|)
    && (c.EmitCommand? ==> |c.words| < TWO_32)
  }

  predicate MemoriesOk(m: Memories) { SizeOk(|m.dram|) && SizeOk(|m.hiddenDram|) }

  // ---- writing --------------------------------------------------------------------------------

  function BlockOf(m: seq<Byte>, i: nat): seq<Byte>
    requires BLOCK_SIZE * (i + 1) <= |m|
  {
    m[BLOCK_SIZE * i..BLOCK_SIZE * (i + 1)]
  }

  /** The first n blocks of memory that differ from the shadow copy. */
  function Updates(hidden: bool, shadow: seq<Byte>, memory: seq<Byte>, n: nat): (rs: seq<Record>)
    requires |shadow| == |memory| < TWO_32 && BLOCK_SIZE * n <= |memory|
    ensures AllOk(rs)
  {
    if n == 0 then []
    else
      Updates(hidden, shadow, memory, n - 1) +
      if BlockOf(shadow, n - 1) != BlockOf(memory, n - 1)
      then [Update(hidden, BLOCK_SIZE * (n - 1), BlockOf(memory, n - 1))] else []
  }

  /** Blocks are recorded in order, only those that changed, each with its place and its new contents. */
  lemma {:induction false} UpdatesMean(hidden: bool, shadow: seq<Byte>, memory: seq<Byte>, n: nat)
    requires |shadow| == |memory| < TWO_32 && BLOCK_SIZE * n <= |memory|
    ensures InOrder(hidden, shadow, memory, n, Updates(hidden, shadow, memory, n))
  {
    if n > 0 {
      var rs := Updates(hidden, shadow, memory, n - 1);
      UpdatesMean(hidden, shadow, memory, n - 1);
      assert forall k :: 0 <= k < |rs| ==> IsChange(hidden, shadow, memory, n, rs[k]);
    }
  }

  predicate InOrder(hidden: bool, shadow: seq<Byte>, memory: seq<Byte>, n: nat, rs: seq<Record>) {
    && (forall k :: 0 <= k < |rs| ==> IsChange(hidden, shadow, memory, n, rs[k]))
    && (forall j, k :: 0 <= j < k < |rs| ==> rs[j].offset < rs[k].offset)
  }

  predicate IsChange(hidden: bool, shadow: seq<Byte>, memory: seq<Byte>, n: nat, r: Record) {
    && r.Update? && r.hidden == hidden && r.offset % 4096 == 0 && r.offset + 4096 <= 4096 * n <= |memory| == |shadow|
    && r.data == memory[r.offset..r.offset + 4096] && r.data != shadow[r.offset..r.offset + 4096]
  }

  function RecordsOf(m: Memories, c: Call): (rs: seq<Record>)
    requires MemoriesOk(m) && CallOk(m, c)
    ensures AllOk(rs)
  {
    match c
    case FlushMemory(hidden, memory) =>
      Updates(hidden, m.Of(hidden), memory, |memory| / BLOCK_SIZE) + [Flushed(hidden)]
    case EmitCommand(op, words) => [Command(op, words)]
    case SetViRegister(reg, value) => [SetVi(reg, value)]
    case FrameEnds => [EndFrame]
    case CommandListEnds => [SignalComplete]
  }

  function ShadowAfter(m: Memories, c: Call): Memories {
    if c.FlushMemory? then m.With(c.hidden, c.memory) else m
  }

  predicate CallsOk(m: Memories, cs: seq<Call>) { forall k :: 0 <= k < |cs| ==> CallOk(m, cs[k]) }

  /** The shadow copies after a series of calls. */
  function Shadow(m: Memories, cs: seq<Call>): (m': Memories)
    requires CallsOk(m, cs)
    ensures |m'.dram| == |m.dram| && |m'.hiddenDram| == |m.hiddenDram|
  {
    if cs == [] then m else ShadowAfter(Shadow(m, cs[..|cs| - 1]), cs[|cs| - 1])
  }

  function Written(m: Memories, cs: seq<Call>): (rs: seq<Record>)
    requires MemoriesOk(m) && CallsOk(m, cs)
    ensures AllOk(rs)
  {
    if cs == [] then []
    else Written(m, cs[..|cs| - 1]) + RecordsOf(Shadow(m, cs[..|cs| - 1]), cs[|cs| - 1])
  }

  // ---- replaying ------------------------------------------------------------------------------

  /** A replayer's copy of the memories, and the calls it has recognised. */
  datatype Replayer = Replayer(m: Memories, seen: seq<Call>)

  function Patched(m: seq<Byte>, offset: nat, data: seq<Byte>): seq<Byte> {
    if offset + |data| <= |m| then m[..offset] + data + m[offset + |data|..] else m
  }

  function Apply(p: Replayer, r: Record): Replayer {
    match r
    case Update(hidden, offset, data) => p.(m := p.m.With(hidden, Patched(p.m.Of(hidden), offset, data)))
    case Flushed(hidden) => p.(seen := p.seen + [FlushMemory(hidden, p.m.Of(hidden))])
    case Command(op, words) => p.(seen := p.seen + [EmitCommand(op, words)])
    case SetVi(reg, value) => p.(seen := p.seen + [SetViRegister(reg, value)])
    case EndFrame => p.(seen := p.seen + [FrameEnds])
    case SignalComplete => p.(seen := p.seen + [CommandListEnds])
    case Eof => p
  }

  function Replay(p: Replayer, rs: seq<Record>): Replayer {
    if rs == [] then p else Apply(Replay(p, rs[..|rs| - 1]), rs[|rs| - 1])
  }

  lemma {:induction false} ReplayConcat(p: Replayer, a: seq<Record>, b: seq<Record>)
    ensures Replay(p, a + b) == Replay(Replay(p, a), b)
  {
    hide Apply;
    if b == [] {
      assert a + b == a;
    } else {
      assert (a + b)[..|a + b| - 1] == a + b[..|b| - 1];
      ReplayConcat(p, a, b[..|b| - 1]);
    }
  }

  lemma ReplayOne(p: Replayer, r: Record)
    ensures Replay(p, [r]) == Apply(p, r)
  {
    assert [r][..0] == [];
  }

  /** The shadow copy after its first n blocks have been brought up to date. */
  function Synced(shadow: seq<Byte>, memory: seq<Byte>, n: nat): seq<Byte>
    requires |shadow| == |memory| && BLOCK_SIZE * n <= |memory|
  {
    memory[..BLOCK_SIZE * n] + shadow[BLOCK_SIZE * n..]
  }

  /** Replaying the first n updates makes the first n blocks what they are in memory. */
  lemma {:induction false} ReplayUpdates(p: Replayer, hidden: bool, shadow: seq<Byte>, memory: seq<Byte>, n: nat)
    requires |shadow| == |memory| < TWO_32 && BLOCK_SIZE * n <= |memory| && p.m.Of(hidden) == shadow
    ensures Replay(p, Updates(hidden, shadow, memory, n)) == p.(m := p.m.With(hidden, Synced(shadow, memory, n)))
  {
    hide Replay, Synced, Patched, BlockOf;
    if n == 0 {
      SyncedEnds(shadow, memory);
      ReplayNothing(p);
    } else {
      ReplayUpdates(p, hidden, shadow, memory, n - 1);
      PatchedBlock(shadow, memory, n - 1);
      if BlockOf(shadow, n - 1) != BlockOf(memory, n - 1) {
        var r := Update(hidden, BLOCK_SIZE * (n - 1), BlockOf(memory, n - 1));
        ReplayConcat(p, Updates(hidden, shadow, memory, n - 1), [r]);
        ReplayOne(p.(m := p.m.With(hidden, Synced(shadow, memory, n - 1))), r);
      } else {
        assert Updates(hidden, shadow, memory, n) == Updates(hidden, shadow, memory, n - 1);
      }
    }
  }

  lemma SyncedEnds(shadow: seq<Byte>, memory: seq<Byte>)
    requires |shadow| == |memory|
    ensures Synced(shadow, memory, 0) == shadow
    ensures forall n :: 0 <= n && BLOCK_SIZE * n == |memory| ==> Synced(shadow, memory, n) == memory
  {
  }

  lemma PatchedBlock(shadow: seq<Byte>, memory: seq<Byte>, i: nat)
    requires |shadow| == |memory| && BLOCK_SIZE * (i + 1) <= |memory|
    ensures var before, after := Synced(shadow, memory, i), Synced(shadow, memory, i + 1);
      && Patched(before, BLOCK_SIZE * i, BlockOf(memory, i)) == after
      && (BlockOf(shadow, i) == BlockOf(memory, i) ==> before == after)
  {
    var before, after := Synced(shadow, memory, i), Synced(shadow, memory, i + 1);
    assert Patched(before, BLOCK_SIZE * i, BlockOf(memory, i)) == after;
    assert before == memory[..BLOCK_SIZE * i] + BlockOf(shadow, i) + shadow[BLOCK_SIZE * (i + 1)..];
    assert after == memory[..BLOCK_SIZE * i] + BlockOf(memory, i) + shadow[BLOCK_SIZE * (i + 1)..];
  }

  /** Replaying the records of one call recognises that call, provided the replayer's memories are the shadow copies. */
  lemma ReplayCall(p: Replayer, c: Call)
    requires MemoriesOk(p.m) && CallOk(p.m, c)
    ensures Replay(p, RecordsOf(p.m, c)) == Replayer(ShadowAfter(p.m, c), p.seen + [c])
  {
    hide Replay, Updates;
    match c
    case FlushMemory(hidden, memory) =>
      var n := |memory| / BLOCK_SIZE;
      assert BLOCK_SIZE * n == |memory|;
      ReplayUpdates(p, hidden, p.m.Of(hidden), memory, n);
      SyncedEnds(p.m.Of(hidden), memory);
      ReplayConcat(p, Updates(hidden, p.m.Of(hidden), memory, n), [Flushed(hidden)]);
      ReplayOne(p.(m := p.m.With(hidden, memory)), Flushed(hidden));
    case EmitCommand(op, words) => ReplayOne(p, Command(op, words));
    case SetViRegister(reg, value) => ReplayOne(p, SetVi(reg, value));
    case FrameEnds => ReplayOne(p, EndFrame);
    case CommandListEnds => ReplayOne(p, SignalComplete);
  }

  /** Main result: replaying what was written recovers every call in order, each memory flush with the full
      contents of the memory at that moment, although only changed blocks were written. */
  lemma {:induction false} ReplayRecovers(m: Memories, cs: seq<Call>)
    requires MemoriesOk(m) && CallsOk(m, cs)
    ensures Replay(Replayer(m, []), Written(m, cs)) == Replayer(Shadow(m, cs), cs)
  {
    hide Replay, RecordsOf, ShadowAfter;
    if cs == [] {
      ReplayNothing(Replayer(m, []));
    } else {
      var before, last := cs[..|cs| - 1], cs[|cs| - 1];
      ReplayRecovers(m, before);
      SizesKept(m, before, last);
      ReplayConcat(Replayer(m, []), Written(m, before), RecordsOf(Shadow(m, before), last));
      ReplayCall(Replayer(Shadow(m, before), before), last);
      assert before + [last] == cs;
    }
  }

  lemma ReplayNothing(p: Replayer)
    ensures Replay(p, []) == p
  {
  }

  lemma SizesKept(m: Memories, before: seq<Call>, last: Call)
    requires MemoriesOk(m) && CallsOk(m, before) && CallOk(m, last)
    ensures MemoriesOk(Shadow(m, before)) && CallOk(Shadow(m, before), last)
  {
  }
}
