/** Recording a running processor: command lists, register writes and frames, dumped with the memories they see. */
module DumpSession {
  import opened Words
  import opened RdpCommands
  import opened DumpFormat
  import opened DumpReplay
  import opened DumpWriter

  /** A call of the processor; commands and frames come with what the memories hold at that moment. */
  datatype Use =
    | Enqueue(words: seq<Word32>, dram: seq<Byte>, hiddenDram: seq<Byte>)
    | WriteVi(reg: Word32, value: Word32)
    | ScanOut(dram: seq<Byte>, hiddenDram: seq<Byte>)

  predicate UseOk(m: Memories, u: Use) {
    && (u.Enqueue? ==> 0 < |u.words| < TWO_32)
    && (u.WriteVi? || (|u.dram| == |m.dram| && |u.hiddenDram| == |m.hiddenDram|))
  }

  predicate UsesOk(m: Memories, us: seq<Use>) { forall k :: 0 <= k < |us| ==> UseOk(m, us[k]) }

  predicate EndsList(u: Use) { u.Enqueue? && u.words != [] && Opcode(u.words[0]) == SYNC_FULL }

  /** The one record of a call besides the memories. */
  function CallOf(u: Use): Call {
    match u
    case Enqueue(words, _, _) =>
      if EndsList(u) then CommandListEnds else EmitCommand(if words == [] then 0 else Opcode(words[0]), words)
    case WriteVi(reg, value) => SetViRegister(reg, value)
    case ScanOut(_, _) => FrameEnds
  }

  /** The first command of a list, and every frame, wherever it comes, flush both memories. */
  predicate Flushes(inList: bool, u: Use) { if u.Enqueue? then !inList else u.ScanOut? }

  function CallsFor(inList: bool, u: Use): seq<Call> {
    (if Flushes(inList, u) then [FlushMemory(false, u.dram), FlushMemory(true, u.hiddenDram)] else []) + [CallOf(u)]
  }

  /** A command list is open after any command but the one that ends it; frames and register writes do not end it. */
  function InList(us: seq<Use>): bool {
    us != [] &&
    var u := us[|us| - 1];
    if u.Enqueue? then !EndsList(u) else InList(us[..|us| - 1])
  }

  function Session(us: seq<Use>): seq<Call> {
    if us == [] then [] else Session(us[..|us| - 1]) + CallsFor(InList(us[..|us| - 1]), us[|us| - 1])
  }

  // ---- what a replayer executes -----------------------------------------------------------------

  /** A call as it is made again, and the memories last restored before it. The command that ends a list is
      recorded without its words. */
  datatype Executed = Executed(call: Call, dram: seq<Byte>, hiddenDram: seq<Byte>)

  function Reexecuted(m: Memories, cs: seq<Call>): seq<Executed>
    requires CallsOk(m, cs)
  {
    if cs == [] then []
    else
      var before, c := cs[..|cs| - 1], cs[|cs| - 1];
      Reexecuted(m, before) +
      if c.FlushMemory? then [] else [Executed(c, Shadow(m, before).dram, Shadow(m, before).hiddenDram)]
  }

  /** The memories as they were when they were last flushed: at the start of the list, or at a later frame. */
  function LastFlush(m: Memories, us: seq<Use>): Memories {
    if us == [] then m
    else
      var before, u := us[..|us| - 1], us[|us| - 1];
      if Flushes(InList(before), u) then Memories(u.dram, u.hiddenDram) else LastFlush(m, before)
  }

  /** Every call, in the memories of the last flush. */
  function Expected(m: Memories, us: seq<Use>): seq<Executed> {
    if us == [] then []
    else
      Expected(m, us[..|us| - 1]) +
      [Executed(CallOf(us[|us| - 1]), LastFlush(m, us).dram, LastFlush(m, us).hiddenDram)]
  }

  lemma ReexecutedSnoc(m: Memories, cs: seq<Call>, c: Call)
    requires CallsOk(m, cs) && CallOk(m, c)
    ensures CallsOk(m, cs + [c]) && Shadow(m, cs + [c]) == ShadowAfter(Shadow(m, cs), c)
    ensures Reexecuted(m, cs + [c]) == Reexecuted(m, cs) +
      if c.FlushMemory? then [] else [Executed(c, Shadow(m, cs).dram, Shadow(m, cs).hiddenDram)]
  {
    assert (cs + [c])[..|cs|] == cs;
  }

  /** Main result: replaying a recorded session makes exactly the calls that were made, in order, each with both
      memories as they were at the last flush before it. */
  lemma {:induction false} SessionReplays(m: Memories, us: seq<Use>)
    requires UsesOk(m, us)
    ensures CallsOk(m, Session(us)) && Shadow(m, Session(us)) == LastFlush(m, us)
    ensures Reexecuted(m, Session(us)) == Expected(m, us)
    ensures Replays(m, us, Reexecuted(m, Session(us)))
  {
    hide Shadow, Reexecuted, CallOf, CallOk, Replays;
    ExpectedReplays(m, us);
    if us == [] {
      NothingDone(m);
    } else {
      var before, u := us[..|us| - 1], us[|us| - 1];
      SessionReplays(m, before);
      var cs, c := Session(before), CallOf(u);
      CallOfOk(m, u);
      if Flushes(InList(before), u) {
        var d, h := FlushMemory(false, u.dram), FlushMemory(true, u.hiddenDram);
        assert Session(us) == ((cs + [d]) + [h]) + [c];
        ReexecutedSnoc(m, cs, d);
        ReexecutedSnoc(m, cs + [d], h);
        ReexecutedSnoc(m, (cs + [d]) + [h], c);
      } else {
        assert Session(us) == cs + [c];
        ReexecutedSnoc(m, cs, c);
      }
    }
  }

  // ---- what that means, call by call -----------------------------------------------------------

  /** The command that ends a list: 0x29 in the six low bits of its first byte. */
  predicate FullSync(u: Use) { u.Enqueue? && u.words != [] && u.words[0] / 0x100_0000 % 64 == 0x29 }

  /** A command is made again with all its words, under the six low bits of its first byte; a full synchronisation
      as the end of its list. */
  predicate SameCall(u: Use, c: Call) {
    match u
    case Enqueue(words, _, _) =>
      words != [] && c == if FullSync(u) then CommandListEnds else EmitCommand(words[0] / 0x100_0000 % 64, words)
    case WriteVi(reg, value) => c == SetViRegister(reg, value)
    case ScanOut(_, _) => c == FrameEnds
  }

  /** Call i is the last command before call j. */
  predicate LastCommand(us: seq<Use>, i: nat, j: nat) {
    && i < j <= |us| && us[i].Enqueue?
    && forall h :: i < h < j ==> !us[h].Enqueue?
  }

  /** Memory is flushed at call j: a frame, or a command that is the first of all or comes next after one that
      ended a list. */
  ghost predicate FlushedAt(us: seq<Use>, j: nat) {
    j < |us| && (us[j].ScanOut? || (us[j].Enqueue? && forall i: nat :: LastCommand(us, i, j) ==> FullSync(us[i])))
  }

  predicate Sees(u: Use, x: Executed) { !u.WriteVi? && x.dram == u.dram && x.hiddenDram == u.hiddenDram }

  /** Call j is the last one up to call k at which memory is flushed. */
  ghost predicate LastFlushed(us: seq<Use>, k: nat, j: nat) {
    j <= k && j < |us| && FlushedAt(us, j) && forall h :: j < h <= k ==> !FlushedAt(us, h)
  }

  /** Call k sees the memories of that call, or those at the start. */
  ghost predicate SeesLastFlush(m: Memories, us: seq<Use>, k: nat, x: Executed) {
    || (exists j: nat :: LastFlushed(us, k, j) && Sees(us[j], x))
    || ((forall j :: 0 <= j <= k ==> !FlushedAt(us, j)) && x.dram == m.dram && x.hiddenDram == m.hiddenDram)
  }

  /** The calls xs are those of us, one for one. */
  ghost predicate Replays(m: Memories, us: seq<Use>, xs: seq<Executed>) {
    |xs| == |us| && forall k :: 0 <= k < |us| ==> SameCall(us[k], xs[k].call) && SeesLastFlush(m, us, k, xs[k])
  }

  lemma {:induction false} ExpectedReplays(m: Memories, us: seq<Use>)
    requires UsesOk(m, us)
    ensures Replays(m, us, Expected(m, us))
  {
    hide SameCall, SeesLastFlush, CallOf, LastFlush;
    if us != [] {
      var n := |us| - 1;
      var before, xs := us[..n], Expected(m, us);
      ExpectedReplays(m, before);
      assert xs[..n] == Expected(m, before);
      CallOfMeans(m, us[n]);
      LastFlushMeans(m, us);
      forall k | 0 <= k < |us| ensures SameCall(us[k], xs[k].call) && SeesLastFlush(m, us, k, xs[k]) {
        if k < n {
          assert us[k] == before[k] && xs[k] == Expected(m, before)[k];
          SeenBefore(m, us, k, xs[k]);
        }
      }
    }
  }

  lemma CallOfMeans(m: Memories, u: Use)
    requires UseOk(m, u)
    ensures SameCall(u, CallOf(u))
  {
  }

  /** Later calls do not matter. */
  lemma LastCommandBefore(us: seq<Use>, n: nat, i: nat, j: nat)
    requires j <= n <= |us|
    ensures LastCommand(us, i, j) <==> LastCommand(us[..n], i, j)
  {
  }

  lemma FlushedBefore(us: seq<Use>, n: nat, j: nat)
    requires j < n <= |us|
    ensures FlushedAt(us, j) <==> FlushedAt(us[..n], j)
  {
    hide LastCommand, FullSync;
    forall i: nat ensures LastCommand(us, i, j) <==> LastCommand(us[..n], i, j) {
      LastCommandBefore(us, n, i, j);
    }
    InRange(us, j);
    InRange(us[..n], j);
  }

  lemma InRange(us: seq<Use>, j: nat)
    ensures forall i: nat :: LastCommand(us, i, j) ==> i < j <= |us|
  {
  }

  lemma SeenBefore(m: Memories, us: seq<Use>, k: nat, x: Executed)
    requires k + 1 < |us| && SeesLastFlush(m, us[..|us| - 1], k, x)
    ensures SeesLastFlush(m, us, k, x)
  {
    hide FlushedAt;
    var before := us[..|us| - 1];
    forall j | 0 <= j <= k ensures (FlushedAt(us, j) <==> FlushedAt(before, j)) && us[j] == before[j] {
      FlushedBefore(us, |us| - 1, j);
    }
    if j: nat :| LastFlushed(before, k, j) && Sees(before[j], x) {
      assert LastFlushed(us, k, j) && Sees(us[j], x);
    }
  }

  lemma {:induction false} InListMeans(us: seq<Use>)
    ensures InList(us) <==> exists i: nat :: LastCommand(us, i, |us|) && !EndsList(us[i])
  {
    hide EndsList;
    if us != [] {
      var n := |us| - 1;
      var before := us[..n];
      InListMeans(before);
      if us[n].Enqueue? {
        assert LastCommand(us, n, |us|);
        assert forall i: nat :: LastCommand(us, i, |us|) ==> i == n;
      } else {
        forall i: nat ensures LastCommand(us, i, |us|) <==> LastCommand(before, i, n) {
        }
        assert forall i: nat :: LastCommand(before, i, n) ==> before[i] == us[i];
      }
    }
  }

  lemma OneLast(us: seq<Use>, i: nat, i': nat, j: nat)
    requires LastCommand(us, i, j) && LastCommand(us, i', j)
    ensures i == i'
  {
  }

  lemma FlushesMeans(us: seq<Use>)
    requires us != []
    ensures Flushes(InList(us[..|us| - 1]), us[|us| - 1]) <==> FlushedAt(us, |us| - 1)
  {
    hide InList, LastCommand;
    var n := |us| - 1;
    var before := us[..n];
    InListMeans(before);
    InRange(us, n);
    InRange(before, n);
    forall i: nat ensures LastCommand(before, i, n) <==> LastCommand(us, i, n) {
      LastCommandBefore(us, n, i, n);
    }
    forall i: nat | LastCommand(us, i, n) ensures before[i] == us[i] && (FullSync(us[i]) <==> EndsList(us[i])) {
    }
    forall i: nat, i': nat | LastCommand(us, i, n) && LastCommand(us, i', n) ensures i == i' {
      OneLast(us, i, i', n);
    }
  }

  lemma SeenNow(m: Memories, us: seq<Use>, k: nat, x: Executed)
    requires FlushedAt(us, k) && x.dram == us[k].dram && x.hiddenDram == us[k].hiddenDram
    ensures SeesLastFlush(m, us, k, x)
  {
    assert LastFlushed(us, k, k) && Sees(us[k], x);
  }

  lemma SeenStill(m: Memories, us: seq<Use>, k: nat, x: Executed, x': Executed)
    requires 0 < k < |us| && SeesLastFlush(m, us, k - 1, x) && !FlushedAt(us, k)
    requires x.dram == x'.dram && x.hiddenDram == x'.hiddenDram
    ensures SeesLastFlush(m, us, k, x')
  {
    hide FlushedAt;
    if j: nat :| LastFlushed(us, k - 1, j) && Sees(us[j], x) {
      assert LastFlushed(us, k, j) && Sees(us[j], x');
    }
  }

  lemma NotSeen(m: Memories, us: seq<Use>, x: Executed)
    requires !FlushedAt(us, 0) && x.dram == m.dram && x.hiddenDram == m.hiddenDram
    ensures SeesLastFlush(m, us, 0, x)
  {
  }

  lemma {:induction false} LastFlushMeans(m: Memories, us: seq<Use>)
    requires us != []
    ensures var x := Executed(CallOf(us[|us| - 1]), LastFlush(m, us).dram, LastFlush(m, us).hiddenDram);
      SeesLastFlush(m, us, |us| - 1, x)
  {
    hide FlushedAt, CallOf, Flushes, InList, SeesLastFlush;
    var n := |us| - 1;
    var before, x := us[..n], Executed(CallOf(us[n]), LastFlush(m, us).dram, LastFlush(m, us).hiddenDram);
    FlushesMeans(us);
    if FlushedAt(us, n) {
      SeenNow(m, us, n, x);
    } else if n == 0 {
      assert before == [] && LastFlush(m, before) == m;
      NotSeen(m, us, x);
    } else {
      LastFlushMeans(m, before);
      var y := x.(call := CallOf(before[n - 1]));
      SeenBefore(m, us, n - 1, y);
      SeenStill(m, us, n, y, x);
    }
  }

  lemma NothingDone(m: Memories)
    ensures CallsOk(m, []) && Shadow(m, []) == m && Reexecuted(m, []) == []
  {
  }

  lemma CallOfOk(m: Memories, u: Use)
    requires UseOk(m, u)
    ensures CallOk(m, CallOf(u)) && !CallOf(u).FlushMemory?
    ensures u.Enqueue? || u.ScanOut? ==>
      CallOk(m, FlushMemory(false, u.dram)) && CallOk(m, FlushMemory(true, u.hiddenDram))
  {
  }

  // ---- a frame inside a list ----------------------------------------------------------------------

  /** The memories as they were when the current list began, or before any list those at the start. */
  function ListStart(m: Memories, us: seq<Use>): Memories {
    if us == [] then m
    else
      var before, u := us[..|us| - 1], us[|us| - 1];
      if u.Enqueue? && !InList(before) then Memories(u.dram, u.hiddenDram) else ListStart(m, before)
  }

  /** A frame has been scanned out since the current list began. */
  predicate FrameInList(us: seq<Use>) {
    us != [] &&
    var before, u := us[..|us| - 1], us[|us| - 1];
    if u.Enqueue? then InList(before) && FrameInList(before) else u.ScanOut? || FrameInList(before)
  }

  /** A command replays in the memories its list began with unless a frame was scanned out since. */
  lemma {:induction false} ListMemories(m: Memories, us: seq<Use>)
    requires !FrameInList(us)
    ensures LastFlush(m, us) == ListStart(m, us)
  {
    if us != [] {
      var before, u := us[..|us| - 1], us[|us| - 1];
      if !u.Enqueue? || InList(before) {
        ListMemories(m, before);
      }
    }
  }

  /** After a frame in an open list, the next command of the list replays in the frame's memories; so it has
      those the list began with exactly when they are the same. */
  lemma FrameMovesMemories(m: Memories, us: seq<Use>, frame: Use, next: Use)
    requires InList(us) && frame.ScanOut? && next.Enqueue?
    ensures InList(us + [frame]) && LastFlush(m, us + [frame] + [next]) == Memories(frame.dram, frame.hiddenDram)
    ensures LastFlush(m, us + [frame] + [next]) == ListStart(m, us + [frame] + [next]) <==>
            Memories(frame.dram, frame.hiddenDram) == ListStart(m, us)
  {
    assert (us + [frame])[..|us|] == us;
    assert (us + [frame] + [next])[..|us| + 1] == us + [frame];
  }

  // ---- the processor's side -----------------------------------------------------------------------

  class Recorder {
    const writer: RDPDumpWriter
    var dumpInCommandList: bool
    ghost var m: Memories
    ghost var calls: seq<Call>

    /** The writer has recorded the calls so far. */
    ghost predicate Valid()
      reads this, writer, writer.dramCache, writer.hiddenDramCache
    {
      && writer.Valid() && writer.isOpen && MemoriesOk(m) && CallsOk(m, calls)
      && writer.records == Written(m, calls) && writer.Caches() == Shadow(m, calls)
    }

    constructor (writer: RDPDumpWriter)
      requires writer.Valid() && writer.isOpen && writer.records == []
      ensures Valid() && this.writer == writer && calls == [] && m == writer.Caches() && !dumpInCommandList
    {
      this.writer := writer;
      dumpInCommandList := false;
      m, calls := writer.Caches(), [];
    }

    method Flush(hidden: bool, memory: array<Byte>)
      requires Valid() && memory.Length == |m.Of(hidden)|
      requires memory != writer.dramCache && memory != writer.hiddenDramCache
      modifies this`calls, writer`file, writer`records, writer.dramCache, writer.hiddenDramCache
      ensures Valid() && calls == old(calls) + [FlushMemory(hidden, memory[..])]
    {
      hide RecordsOf, MemoriesOk, Written, Shadow, CallsOk, EncodeAll, Header;
      ghost var c := FlushMemory(hidden, memory[..]);
      WrittenSnoc(m, calls, c);
      if hidden {
        writer.FlushHiddenDram(memory);
      } else {
        writer.FlushDram(memory);
      }
      calls := calls + [c];
    }

    method Emit(c: Call)
      requires Valid() && CallOk(m, c) && !c.FlushMemory?
      modifies this`calls, writer`file, writer`records
      ensures Valid() && calls == old(calls) + [c]
    {
      hide RecordsOf, MemoriesOk;
      WrittenSnoc(m, calls, c);
      writer.EmitCall(c);
      calls := calls + [c];
    }

    method FlushBoth(dram: array<Byte>, hiddenDram: array<Byte>)
      requires Valid() && dram.Length == |m.dram| && hiddenDram.Length == |m.hiddenDram|
      requires dram != writer.dramCache && dram != writer.hiddenDramCache
      requires hiddenDram != writer.dramCache && hiddenDram != writer.hiddenDramCache
      modifies this`calls, writer`file, writer`records, writer.dramCache, writer.hiddenDramCache
      ensures Valid() && calls == old(calls) + [FlushMemory(false, dram[..]), FlushMemory(true, hiddenDram[..])]
    {
      hide Written, Shadow, MemoriesOk, CallOk, EncodeAll, Header;
      Flush(false, dram);
      Flush(true, hiddenDram);
    }

    /** Records a command, flushing the memories at the start of a list. */
    method EnqueueCommand(words: seq<Word32>, dram: array<Byte>, hiddenDram: array<Byte>)
      requires Valid() && 0 < |words| < TWO_32 && dram.Length == |m.dram| && hiddenDram.Length == |m.hiddenDram|
      requires dram != writer.dramCache && dram != writer.hiddenDramCache
      requires hiddenDram != writer.dramCache && hiddenDram != writer.hiddenDramCache
      modifies this`calls, this`dumpInCommandList, writer`file, writer`records, writer.dramCache, writer.hiddenDramCache
      ensures Valid()
      ensures calls == old(calls) + CallsFor(old(dumpInCommandList), Enqueue(words, dram[..], hiddenDram[..]))
      ensures dumpInCommandList == (words[0] / 0x100_0000 % 64 != 0x29)
      ensures SameCall(Enqueue(words, dram[..], hiddenDram[..]), calls[|calls| - 1])
    {
      hide Written, Shadow, MemoriesOk, CallOk, EncodeAll, Header;
      CommandOk(m, words);
      if !dumpInCommandList {
        FlushBoth(dram, hiddenDram);
        dumpInCommandList := true;
      }
      var cmdId := Opcode(words[0]);
      if cmdId == SYNC_FULL {
        Emit(CommandListEnds);
        dumpInCommandList := false;
      } else {
        Emit(EmitCommand(cmdId, words));
      }
    }

    method SetVi(reg: Word32, value: Word32)
      requires Valid()
      modifies this`calls, writer`file, writer`records
      ensures Valid() && calls == old(calls) + CallsFor(dumpInCommandList, WriteVi(reg, value))
    {
      Emit(SetViRegister(reg, value));
    }

    /** Records a frame behind the memories it is read from, whether or not a list is open. */
    method Scanout(dram: array<Byte>, hiddenDram: array<Byte>)
      requires Valid() && dram.Length == |m.dram| && hiddenDram.Length == |m.hiddenDram|
      requires dram != writer.dramCache && dram != writer.hiddenDramCache
      requires hiddenDram != writer.dramCache && hiddenDram != writer.hiddenDramCache
      modifies this`calls, writer`file, writer`records, writer.dramCache, writer.hiddenDramCache
      ensures Valid() && calls == old(calls) + CallsFor(dumpInCommandList, ScanOut(dram[..], hiddenDram[..]))
    {
      hide Written, Shadow, MemoriesOk, CallOk, EncodeAll, Header;
      FlushBoth(dram, hiddenDram);
      EndFrame();
    }

    method EndFrame()
      requires Valid()
      modifies this`calls, writer`file, writer`records
      ensures Valid() && calls == old(calls) + [FrameEnds]
    {
      Emit(FrameEnds);
    }
  }

  lemma CommandOk(m: Memories, words: seq<Word32>)
    requires 0 < |words| < TWO_32
    ensures CallOk(m, CommandListEnds) && CallOk(m, EmitCommand(Opcode(words[0]), words))
  {
  }

  lemma WrittenSnoc(m: Memories, cs: seq<Call>, c: Call)
    requires MemoriesOk(m) && CallsOk(m, cs) && CallOk(m, c)
    ensures CallsOk(m, cs + [c])
    ensures MemoriesOk(Shadow(m, cs)) && CallOk(Shadow(m, cs), c)
    ensures Written(m, cs + [c]) == Written(m, cs) + RecordsOf(Shadow(m, cs), c)
    ensures Shadow(m, cs + [c]) == ShadowAfter(Shadow(m, cs), c)
  {
    hide RecordsOf, ShadowAfter;
    SizesKept(m, cs, c);
    assert (cs + [c])[..|cs|] == cs;
  }

  /** One call of the processor while it is being recorded. */
  method RecordUse(r: Recorder, u: Use)
    requires r.Valid() && UseOk(r.m, u)
    modifies r`calls, r`dumpInCommandList, r.writer`file, r.writer`records, r.writer.dramCache, r.writer.hiddenDramCache
    ensures r.Valid() && r.calls == old(r.calls) + CallsFor(old(r.dumpInCommandList), u)
    ensures r.dumpInCommandList == if u.Enqueue? then !EndsList(u) else old(r.dumpInCommandList)
  {
    hide Written, Shadow, MemoriesOk, CallOk, EncodeAll, Header, CallsFor;
    match u
    case WriteVi(reg, value) => r.SetVi(reg, value);
    case Enqueue(words, _, _) =>
      var dram := ArrayOf(u.dram);
      var hiddenDram := ArrayOf(u.hiddenDram);
      r.EnqueueCommand(words, dram, hiddenDram);
    case ScanOut(_, _) =>
      var dram := ArrayOf(u.dram);
      var hiddenDram := ArrayOf(u.hiddenDram);
      r.Scanout(dram, hiddenDram);
  }

  method ArrayOf(bytes: seq<Byte>) returns (memory: array<Byte>)
    ensures fresh(memory) && memory[..] == bytes
  {
    memory := new Byte[|bytes|](i requires 0 <= i < |bytes| => bytes[i]);
    assert memory[..] == bytes;
  }

  /** Main result, for the file: a session recorded from the first byte to the last, read back and replayed. */
  method RecordSession(dramSize: Word32, hiddenDramSize: Word32, us: seq<Use>) returns (file: seq<Byte>)
    requires SizeOk(dramSize) && SizeOk(hiddenDramSize) && UsesOk(Start(dramSize, hiddenDramSize), us)
    ensures DecodeFile(file).Some?
    ensures var f, m := DecodeFile(file).value, Start(dramSize, hiddenDramSize);
      var seen := Replay(Replayer(Start(f.dramSize, f.hiddenSize), []), f.records).seen;
      && f.dramSize == dramSize && f.hiddenSize == hiddenDramSize
      && CallsOk(m, seen) && Reexecuted(m, seen) == Expected(m, us) && Replays(m, us, Reexecuted(m, seen))
  {
    hide Written, Shadow, EncodeAll, Header, Replay, DecodeFile, Reexecuted, Expected, CallsOk, CallsFor, UseOk,
      Replays;
    ghost var m := Start(dramSize, hiddenDramSize);
    var w := new RDPDumpWriter();
    var ok := w.Init(true, dramSize, hiddenDramSize);
    var r := new Recorder(w);
    for k := 0 to |us|
      invariant fresh(r) && r.writer == w && fresh(w) && fresh(w.dramCache) && fresh(w.hiddenDramCache)
      invariant r.Valid() && r.m == m && w.sizes == (dramSize, hiddenDramSize)
      invariant r.calls == Session(us[..k]) && r.dumpInCommandList == InList(us[..k])
    {
      assert us[..k + 1][..k] == us[..k];
      RecordUse(r, us[k]);
    }
    assert us[..|us|] == us;
    SessionReplays(m, us);
    ghost var rs := w.records;
    w.End();
    file := w.file;
    DecodeFileOk(File(dramSize, hiddenDramSize, rs + [Eof]));
    ReplayRecovers(m, Session(us));
    ReplayEof(Replayer(m, []), rs);
  }
}
