/** The incremental parser of the display processor's command stream. */
module CommandParser {
  import opened Words
  import opened RdpCommands
  import opened CommandRing
  import opened Timeline

  /** Commands are made of 64-bit units. */
  type Unit = (Word32, Word32)

  const CAPACITY: nat := 0x8000

  /** Length of a command in units, by its operation code. */
  function CmdLen(op: nat): (n: nat)
    ensures 1 <= n <= 22
  {
    if 8 <= op < 16 then [4, 6, 12, 14, 12, 14, 20, 22][op - 8]
    else if op == 0x24 || op == 0x25 then 2
    else 1
  }

  /** Triangles take four units, eight more if shaded, eight more if textured and two more with depth; textured
      rectangles take two, everything else one. */
  lemma CmdLenMeans(op: nat, shade: bool, texture: bool, depth: bool)
    ensures CmdLen(8 + (if shade then 4 else 0) + (if texture then 2 else 0) + (if depth then 1 else 0)) ==
            4 + (if shade then 8 else 0) + (if texture then 8 else 0) + (if depth then 2 else 0)
    ensures op < 8 || op >= 16 ==> (CmdLen(op) == 2 <==> op == 0x24 || op == 0x25) && CmdLen(op) <= 2
  {
  }

  function Flat(us: seq<Unit>): seq<Word32> {
    if us == [] then [] else [us[0].0, us[0].1] + Flat(us[1..])
  }

  /** The first command of a stream, if all of it is there. */
  predicate Complete(s: seq<Unit>) { s != [] && CmdLen(Opcode(s[0].0)) <= |s| }

  /** The complete commands at the front of a stream. */
  function Commands(s: seq<Unit>): seq<seq<Unit>>
    decreases |s|
  {
    if !Complete(s) then [] else [s[..CmdLen(Opcode(s[0].0))]] + Commands(s[CmdLen(Opcode(s[0].0))..])
  }

  /** What is left behind them. */
  function Tail(s: seq<Unit>): seq<Unit>
    decreases |s|
  {
    if !Complete(s) then s else Tail(s[CmdLen(Opcode(s[0].0))..])
  }

  /** Only operation codes from 8 up reach the processor. */
  function Forwarded(cs: seq<seq<Unit>>): seq<seq<Word32>> {
    if cs == [] then []
    else (if cs[0] != [] && Opcode(cs[0][0].0) >= 8 then [Flat(cs[0])] else []) + Forwarded(cs[1..])
  }

  /** Commands below 8 stay with the parser; the number is in the first byte of the command. */
  predicate GoesOn(c: seq<Unit>) { c != [] && c[0].0 / 0x100_0000 % 64 >= 8 }

  function GoingOn(cs: seq<seq<Unit>>, k: nat): (n: nat)
    requires k <= |cs|
    ensures n <= k
  {
    if k == 0 then 0 else GoingOn(cs, k - 1) + if GoesOn(cs[k - 1]) then 1 else 0
  }

  /** Each of the others is forwarded, whole and in its place. */
  lemma {:induction false} ForwardedMeans(cs: seq<seq<Unit>>, k: nat)
    requires k <= |cs|
    ensures |Forwarded(cs[..k])| == GoingOn(cs, k)
    ensures k < |cs| && GoesOn(cs[k]) ==>
      GoingOn(cs, k) < |Forwarded(cs)| && Forwarded(cs)[GoingOn(cs, k)] == Flat(cs[k])
  {
    hide Forwarded, Flat, GoesOn;
    if k == 0 {
      assert cs[..0] == [];
      ForwardedNone();
    } else {
      ForwardedMeans(cs, k - 1);
      ForwardedSnoc(cs, k - 1);
    }
    if k < |cs| {
      ForwardedSnoc(cs, k);
      ForwardedConcat(cs[..k + 1], cs[k + 1..]);
      assert cs == cs[..k + 1] + cs[k + 1..];
    }
  }

  lemma ForwardedNone()
    ensures Forwarded([]) == []
  {
  }

  lemma ForwardedSnoc(cs: seq<seq<Unit>>, k: nat)
    requires k < |cs|
    ensures Forwarded(cs[..k + 1]) == Forwarded(cs[..k]) + if GoesOn(cs[k]) then [Flat(cs[k])] else []
  {
    hide Forwarded, Flat, GoesOn;
    assert cs[..k + 1] == cs[..k] + [cs[k]];
    ForwardedConcat(cs[..k], [cs[k]]);
    ForwardedOne(cs[k]);
  }

  lemma ForwardedOne(c: seq<Unit>)
    ensures Forwarded([c]) == if GoesOn(c) then [Flat(c)] else []
  {
    assert Forwarded([c][1..]) == [];
  }

  /** What the processor is given for a stream. */
  function Parsed(s: seq<Unit>): seq<seq<Word32>> { Forwarded(Commands(s)) }

  function Concat(cs: seq<seq<Unit>>): seq<Unit> { if cs == [] then [] else cs[0] + Concat(cs[1..]) }

  /** Nothing is lost or invented: the commands and the tail make up the stream, and the tail is
      empty or the beginning of one command. */
  lemma {:induction false} CommandsAndTail(s: seq<Unit>)
    ensures Concat(Commands(s)) + Tail(s) == s
    ensures !Complete(Tail(s)) && |Tail(s)| < 22
    ensures forall k :: 0 <= k < |Commands(s)| ==>
      Commands(s)[k] != [] && |Commands(s)[k]| == CmdLen(Opcode(Commands(s)[k][0].0))
    decreases |s|
  {
    hide Commands, Tail, CmdLen, Opcode;
    ParseStep(s);
    if Complete(s) {
      var n := CmdLen(Opcode(s[0].0));
      CommandsAndTail(s[n..]);
      assert s == s[..n] + s[n..];
      assert s[..n] + Concat(Commands(s[n..])) + Tail(s[n..]) == s[..n] + (Concat(Commands(s[n..])) + Tail(s[n..]));
    }
  }

  lemma ParseStep(s: seq<Unit>)
    ensures !Complete(s) ==> Commands(s) == [] && Tail(s) == s
    ensures Complete(s) ==> Commands(s) == [s[..CmdLen(Opcode(s[0].0))]] + Commands(s[CmdLen(Opcode(s[0].0))..])
    ensures Complete(s) ==> Tail(s) == Tail(s[CmdLen(Opcode(s[0].0))..])
  {
  }

  /** Parsing may stop anywhere in a stream and go on later. */
  lemma {:induction false} ParseResumes(a: seq<Unit>, b: seq<Unit>)
    ensures Commands(a + b) == Commands(a) + Commands(Tail(a) + b)
    ensures Tail(a + b) == Tail(Tail(a) + b)
    decreases |a|
  {
    hide Commands, Tail, CmdLen, Opcode;
    ParseStep(a);
    if Complete(a) {
      var n := CmdLen(Opcode(a[0].0));
      ParseResumes(a[n..], b);
      ParseStep(a + b);
      assert (a + b)[..n] == a[..n] && (a + b)[n..] == a[n..] + b;
    }
  }

  lemma {:induction false} ForwardedConcat(cs: seq<seq<Unit>>, ds: seq<seq<Unit>>)
    ensures Forwarded(cs + ds) == Forwarded(cs) + Forwarded(ds)
  {
    if cs == [] {
      assert cs + ds == ds;
    } else {
      assert (cs + ds)[0] == cs[0] && (cs + ds)[1..] == cs[1..] + ds;
      ForwardedConcat(cs[1..], ds);
    }
  }

  /** What the processor is given, and what is retained, when the stream arrives in chunks. */
  function Fed(chunks: seq<seq<Unit>>): (seq<seq<Word32>>, seq<Unit>) {
    if chunks == [] then ([], [])
    else
      var (given, tail) := Fed(chunks[..|chunks| - 1]);
      var s := tail + chunks[|chunks| - 1];
      (given + Parsed(s), Tail(s))
  }

  /** Main result: how the stream is cut into transfers makes no difference. */
  lemma {:induction false} ChunksDoNotMatter(chunks: seq<seq<Unit>>)
    ensures Fed(chunks) == (Parsed(Concat(chunks)), Tail(Concat(chunks)))
  {
    if chunks != [] {
      var before, last := chunks[..|chunks| - 1], chunks[|chunks| - 1];
      ChunksDoNotMatter(before);
      ConcatSnoc(before, last);
      assert before + [last] == chunks;
      ParseResumes(Concat(before), last);
      ForwardedConcat(Commands(Concat(before)), Commands(Tail(Concat(before)) + last));
    }
  }

  lemma {:induction false} ConcatSnoc(cs: seq<seq<Unit>>, c: seq<Unit>)
    ensures Concat(cs + [c]) == Concat(cs) + c
  {
    if cs == [] {
      assert Concat([c]) == c + Concat([c][1..]);
    } else {
      assert (cs + [c])[0] == cs[0] && (cs + [c])[1..] == cs[1..] + [c];
      ConcatSnoc(cs[1..], c);
    }
  }

  lemma {:induction false} FlatLength(us: seq<Unit>)
    ensures |Flat(us)| == 2 * |us|
    ensures forall k :: 0 <= k < |us| ==> Flat(us)[2 * k] == us[k].0 && Flat(us)[2 * k + 1] == us[k].1
  {
    if us != [] {
      FlatLength(us[1..]);
      forall k | 0 <= k < |us| ensures Flat(us)[2 * k] == us[k].0 && Flat(us)[2 * k + 1] == us[k].1 {
        assert k > 0 ==>
          Flat(us)[2 * k] == Flat(us[1..])[2 * (k - 1)] && Flat(us)[2 * k + 1] == Flat(us[1..])[2 * (k - 1) + 1];
      }
    }
  }

  /** No command of the guest can pass for one of the processor's own: every message forwarded may be enqueued. */
  lemma {:induction false} OnlyGuestCommands(s: seq<Unit>)
    ensures forall m: seq<Word32> :: m in Parsed(s) ==> 2 <= |m| <= 44 && OpOf(m) >= 8
    decreases |s|
  {
    if Complete(s) {
      var n := CmdLen(Opcode(s[0].0));
      OnlyGuestCommands(s[n..]);
      FlatLength(s[..n]);
      assert Commands(s)[0] == s[..n] && Commands(s)[1..] == Commands(s[n..]);
    }
  }

  /** The ring takes every forwarded command as soon as it has room, and the processor's ring of 4096 words
      has room for each of them once it is empty. */
  lemma ForwardedMayBeEnqueued(s: seq<Unit>, m: seq<Word32>, p: Pipe, size: nat)
    requires m in Parsed(s)
    ensures |m| < TWO_32 && (Enabled(p, size, Enqueue(m)) <==> Room(p, size, |m|))
    ensures size >= 4096 && p.queue == [] ==> Enabled(p, size, Enqueue(m))
  {
    hide Commands, Forwarded, OpOf;
    OnlyGuestCommands(s);
  }

  /** The unit read from a word array at a byte offset. */
  function UnitAt(memory: seq<Word32>, offset: nat): Unit
    requires offset / 4 + 1 < |memory|
  {
    (memory[offset / 4], memory[offset / 4 + 1])
  }

  /** The n units a transfer reads from byte address from on; addresses wrap at the size of the memory. */
  function Transfer(memory: seq<Word32>, from: nat, n: nat): (us: seq<Unit>)
    requires |memory| > 0 && |memory| % 2 == 0 && from % 8 == 0
    ensures |us| == n
  {
    seq(n, k requires 0 <= k < n =>
      WrapOk(|memory|, from + 8 * k);
      UnitAt(memory, Wrap(from + 8 * k, |memory|)))
  }

  /** A byte address within a memory of the given number of words. */
  function Wrap(at: nat, words: nat): nat
    requires words > 0
  {
    at % (4 * words)
  }

  lemma WrapOk(words: nat, at: nat)
    requires words > 0 && words % 2 == 0 && at % 8 == 0
    ensures Wrap(at, words) / 4 + 1 < words
    ensures Wrap(at, words) % 8 == 0
  {
    ModEights(4 * words, at);
  }

  lemma ModEights(m: nat, at: nat)
    requires m > 0 && m % 8 == 0 && at % 8 == 0
    ensures at % m % 8 == 0 && at % m < m
  {
    var h, a := m / 8, at / 8;
    Eights(h, a, a / h, a % h);
    ModUnique(at, m, a / h, 8 * (a % h));
  }

  lemma Eights(h: nat, a: nat, q: nat, r: nat)
    requires a == h * q + r
    ensures 8 * a == 8 * h * q + 8 * r
  {
  }

  lemma TransferAt(memory: seq<Word32>, from: nat, n: nat, k: nat)
    requires |memory| > 0 && |memory| % 2 == 0 && from % 8 == 0 && k < n
    ensures var at := Wrap(from + 8 * k, |memory|);
      at / 4 + 1 < |memory| && Transfer(memory, from, n)[k] == (memory[at / 4], memory[at / 4 + 1])
  {
    hide Wrap;
    WrapOk(|memory|, from + 8 * k);
  }

  const DMEM_WORDS: nat := 0x400
  const DRAM_WORDS: nat := 0x40_0000

  /** A transfer reads consecutive words from its address on, around the end of the memory. */
  lemma TransferMeans(memory: seq<Word32>, from: nat, n: nat, k: nat)
    requires (|memory| == DMEM_WORDS || |memory| == DRAM_WORDS) && from % 8 == 0 && k < n
    ensures Transfer(memory, from, n)[k] ==
            (memory[(from / 4 + 2 * k) % |memory|], memory[(from / 4 + 2 * k + 1) % |memory|])
  {
    hide Transfer, Wrap;
    TransferAt(memory, from, n, k);
    WordsAt(from + 8 * k, |memory|);
  }

  lemma WordsAt(at: nat, words: nat)
    requires (words == DMEM_WORDS || words == DRAM_WORDS) && at % 8 == 0
    ensures Wrap(at, words) / 4 == at / 4 % words && Wrap(at, words) / 4 + 1 == (at / 4 + 1) % words
  {
    var m := 4 * words;
    var q, r := at / m, at % m;
    if words == DMEM_WORDS {
      Parts(at, 0x1000);
    } else {
      Parts(at, 0x100_0000);
    }
    ModUnique(at / 4, words, q, r / 4);
    ModUnique(at / 4 + 1, words, q, r / 4 + 1);
  }

  lemma Parts(at: nat, m: nat)
    requires at % 8 == 0 && (m == 0x1000 || m == 0x100_0000)
    ensures at / 4 == m / 4 * (at / m) + at % m / 4 && at % m / 4 + 1 < m / 4
  {
    var q, r := at / m, at % m;
    ModEights(m, at);
    assert at == m * q + r;
    Quarters(m / 8, q, r / 8);
  }

  lemma Quarters(h: nat, q: nat, e: nat)
    ensures (8 * h * q + 8 * e) / 4 == 2 * h * q + 2 * e
  {
    assert 8 * h * q + 8 * e == 4 * (2 * h * q + 2 * e);
  }

  /** Register values are cut to multiples of 8 below 2^24. */
  function DpAddress(x: Word32): (a: nat)
    ensures a % 8 == 0 && a < 0x100_0000
    ensures a <= x % 0x100_0000 < a + 8
  {
    (x % 0x100_0000) / 8 * 8
  }

  /** The display processor's registers and the parser's buffer. */
  class Parser {
    const cmdData: array<Word32>
    var cmdPtr: nat
    var cmdCur: nat
    var dpcStart: Word32
    var dpcCurrent: Word32
    var dpcEnd: Word32
    var enqueued: seq<seq<Word32>>

    ghost predicate Shape()
      reads this
    {
      cmdData.Length == 2 * CAPACITY && cmdCur <= cmdPtr < CAPACITY
    }

    /** The units received and not yet passed on. */
    ghost function Pending(): seq<Unit>
      requires Shape()
      reads this, cmdData
    {
      Buffered(cmdData[..], cmdCur, cmdPtr)
    }

    ghost predicate Valid()
      reads this, cmdData
    {
      Shape() && !Complete(Pending()) && (cmdCur == cmdPtr ==> cmdPtr == 0)
    }

    constructor ()
      ensures Valid() && Pending() == [] && enqueued == [] && fresh(cmdData)
    {
      cmdData := new Word32[2 * CAPACITY](_ => 0);
      cmdPtr, cmdCur := 0, 0;
      dpcStart, dpcCurrent, dpcEnd := 0, 0, 0;
      enqueued := [];
    }

    /** Appends what a transfer reads to the buffer. */
    method Receive(memory: array<Word32>, from: nat, length: nat)
      requires Shape() && cmdPtr + length < CAPACITY && length > 0
      requires memory.Length > 0 && memory.Length % 2 == 0 && from % 8 == 0 && memory != cmdData
      modifies cmdData, this`cmdPtr
      ensures Shape() && Pending() == old(Pending()) + Transfer(memory[..], from, length)
      ensures cmdPtr == old(cmdPtr) + length
    {
      hide Wrap, Complete, Buffered, Transfer, UnitAt;
      var offset := from;
      ghost var begin, all := cmdPtr, Transfer(memory[..], from, length);
      var k := 0;
      while k < length
        invariant k <= length && cmdPtr == begin + k
        invariant Wrap(offset, memory.Length) == Wrap(from + 8 * k, memory.Length)
        invariant Buffered(cmdData[..], cmdCur, cmdPtr) == old(Pending()) + all[..k]
      {
        ghost var was := cmdData[..];
        TransferAt(memory[..], from, length, k);
        offset := Wrap(offset, memory.Length);
        cmdData[2 * cmdPtr] := memory[offset / 4];
        cmdData[2 * cmdPtr + 1] := memory[offset / 4 + 1];
        BufferedSnoc(was, cmdData[..], cmdCur, cmdPtr);
        assert all[..k + 1] == all[..k] + [all[k]];
        WrapNext(offset, from + 8 * k, memory.Length);
        offset := offset + 8;
        cmdPtr := cmdPtr + 1;
        k := k + 1;
      }
      assert all[..length] == all;
    }

    /** Passes on every complete command in the buffer. An incomplete one stays; an empty buffer starts afresh. */
    method ParseBuffer()
      requires Shape()
      modifies this`cmdPtr, this`cmdCur, this`dpcStart, this`dpcCurrent, this`enqueued
      ensures Valid()
      ensures enqueued == old(enqueued) + Parsed(old(Pending())) && Pending() == Tail(old(Pending()))
      ensures dpcCurrent == dpcEnd && dpcStart == if Tail(old(Pending())) == [] then old(dpcStart) else dpcEnd
      ensures cmdPtr == if Tail(old(Pending())) == [] then 0 else old(cmdPtr)
    {
      hide Complete, Commands, Tail, Buffered, Parsed, Flat, Opcode, CmdLen;
      ghost var s := Pending();
      ghost var given: seq<seq<Word32>> := [];
      while cmdCur < cmdPtr
        invariant Shape() && dpcStart == old(dpcStart) && cmdPtr == old(cmdPtr)
        invariant enqueued == old(enqueued) + given && Parsed(s) == given + Parsed(Pending())
        invariant Tail(s) == Tail(Pending())
        decreases cmdPtr - cmdCur
      {
        ghost var p := Pending();
        BufferedHead(cmdData[..], cmdCur, cmdPtr);
        ParseStep(p);
        CompleteIff(p);
        var command := Opcode(cmdData[2 * cmdCur]);
        var cmdLength := CmdLen(command);
        if cmdPtr - cmdCur - cmdLength < 0 {
          dpcStart, dpcCurrent := dpcEnd, dpcEnd;
          IncompleteParsed(p);
          return;
        }
        ForwardStep(p);
        BufferedTake(cmdData[..], cmdCur, cmdPtr, cmdLength);
        if command >= 8 {
          enqueued := enqueued + [cmdData[2 * cmdCur..2 * (cmdCur + cmdLength)]];
          given := given + [cmdData[2 * cmdCur..2 * (cmdCur + cmdLength)]];
        }
        cmdCur := cmdCur + cmdLength;
      }
      NothingPending(cmdData[..], cmdPtr);
      cmdPtr, cmdCur := 0, 0;
      NothingPending(cmdData[..], 0);
      dpcCurrent := dpcEnd;
    }

    /** One transfer of the command stream. A transfer that would overflow the buffer is dropped. */
    method ProcessCommands(xbus: bool, dmem: array<Word32>, dram: array<Word32>)
      requires Valid() && dmem.Length == DMEM_WORDS && dram.Length == DRAM_WORDS && cmdData != dmem && cmdData != dram
      modifies this, cmdData
      ensures Valid()
      ensures var n := (DpAddress(old(dpcEnd)) - DpAddress(old(dpcCurrent))) / 8;
        if n <= 0 || old(cmdPtr) + n >= CAPACITY then
          && enqueued == old(enqueued) && Pending() == old(Pending())
          && dpcCurrent == old(dpcCurrent) && dpcStart == old(dpcStart) && cmdPtr == old(cmdPtr)
        else
          var s := old(Pending()) + Transfer(if xbus then dmem[..] else dram[..], DpAddress(old(dpcCurrent)), n);
          && enqueued == old(enqueued) + Parsed(s) && Pending() == Tail(s)
          && dpcCurrent == dpcEnd && dpcStart == (if Tail(s) == [] then old(dpcStart) else dpcEnd)
          && cmdPtr == if Tail(s) == [] then 0 else old(cmdPtr) + n
      ensures dpcEnd == old(dpcEnd)
    {
      hide Complete, Commands, Tail, Buffered, Transfer, Parsed;
      var current: int, end: int := DpAddress(dpcCurrent), DpAddress(dpcEnd);
      var length: int := (end - current) / 8;
      if length <= 0 || cmdPtr + length >= CAPACITY {
        return;
      }
      Receive(if xbus then dmem else dram, current, length);
      ParseBuffer();
    }
  }

  lemma IncompleteParsed(s: seq<Unit>)
    requires !Complete(s)
    ensures Parsed(s) == [] && Tail(s) == s && s == Tail(s)
  {
  }

  /** Units i to j of the buffer. */
  ghost function Buffered(data: seq<Word32>, i: nat, j: nat): (us: seq<Unit>)
    requires i <= j && 2 * j <= |data|
    ensures |us| == j - i
  {
    seq(j - i, k requires 0 <= k < j - i => (data[2 * (i + k)], data[2 * (i + k) + 1]))
  }

  lemma BufferedSnoc(data: seq<Word32>, data': seq<Word32>, i: nat, j: nat)
    requires i <= j && 2 * j + 1 < |data| == |data'|
    requires forall k :: 0 <= k < 2 * j ==> data'[k] == data[k]
    ensures Buffered(data', i, j + 1) == Buffered(data, i, j) + [(data'[2 * j], data'[2 * j + 1])]
  {
  }

  lemma WrapNext(offset: nat, at: nat, words: nat)
    requires words > 0 && offset == Wrap(at, words)
    ensures Wrap(offset + 8, words) == Wrap(at + 8, words)
  {
    var m := 4 * words;
    var q, x := at / m, offset + 8;
    assert at + 8 == x + m * q;
    assert x == m * (x / m) + x % m;
    assert m * (x / m) + m * q == m * (x / m + q);
    ModUnique(at + 8, m, x / m + q, x % m);
  }

  lemma BufferedHead(data: seq<Word32>, i: nat, j: nat)
    requires i < j && 2 * j <= |data|
    ensures |Buffered(data, i, j)| == j - i && Buffered(data, i, j)[0] == (data[2 * i], data[2 * i + 1])
  {
  }

  lemma CompleteIff(s: seq<Unit>)
    requires s != []
    ensures Complete(s) <==> CmdLen(Opcode(s[0].0)) <= |s|
  {
  }

  lemma ForwardStep(s: seq<Unit>)
    requires Complete(s)
    ensures var n := CmdLen(Opcode(s[0].0));
      Parsed(s) == (if Opcode(s[0].0) >= 8 then [Flat(s[..n])] else []) + Parsed(s[n..])
  {
  }

  lemma BufferedTake(data: seq<Word32>, i: nat, j: nat, n: nat)
    requires i + n <= j && 2 * j <= |data|
    ensures Buffered(data, i, j)[n..] == Buffered(data, i + n, j)
    ensures Flat(Buffered(data, i, j)[..n]) == data[2 * i..2 * (i + n)]
  {
    assert Buffered(data, i, j)[..n] == Buffered(data, i, i + n);
    FlatBuffered(data, i, i + n);
  }

  lemma {:induction false} FlatBuffered(data: seq<Word32>, i: nat, j: nat)
    requires i <= j && 2 * j <= |data|
    ensures Flat(Buffered(data, i, j)) == data[2 * i..2 * j]
    decreases j - i
  {
    if i < j {
      FlatBuffered(data, i + 1, j);
      assert Buffered(data, i, j)[1..] == Buffered(data, i + 1, j);
      assert data[2 * i..2 * j] == [data[2 * i], data[2 * i + 1]] + data[2 * (i + 1)..2 * j];
    }
  }

  lemma NothingPending(data: seq<Word32>, i: nat)
    requires 2 * i <= |data|
    ensures Buffered(data, i, i) == [] && Parsed([]) == [] && Tail([]) == [] && !Complete([])
  {
  }

  // ---- series of transfers ------------------------------------------------------------------------

  /** A transfer the guest asks for: which memory, what it holds, and the addresses written to the registers. */
  datatype Delivery = Delivery(xbus: bool, memory: seq<Word32>, current: Word32, end: Word32)

  predicate DeliveryOk(t: Delivery) { |t.memory| == if t.xbus then DMEM_WORDS else DRAM_WORDS }

  /** The units it carries. */
  function Chunk(t: Delivery): seq<Unit>
    requires DeliveryOk(t)
  {
    var n := (DpAddress(t.end) - DpAddress(t.current)) / 8;
    if n <= 0 then [] else Transfer(t.memory, DpAddress(t.current), n)
  }

  function Chunks(ts: seq<Delivery>): (cs: seq<seq<Unit>>)
    requires forall k :: 0 <= k < |ts| ==> DeliveryOk(ts[k])
    ensures |cs| == |ts|
  {
    if ts == [] then [] else Chunks(ts[..|ts| - 1]) + [Chunk(ts[|ts| - 1])]
  }

  /** How much of the buffer is used up, and the transfers that were not dropped. The space comes back only when
      a transfer ends with a command. */
  datatype Intake = Intake(used: nat, accepted: seq<seq<Unit>>)

  predicate Taken(s: Intake, c: seq<Unit>) { s.used + |c| < CAPACITY }

  function TakeIn(s: Intake, c: seq<Unit>): Intake {
    if c == [] || !Taken(s, c) then s
    else Intake(if Tail(Concat(s.accepted + [c])) == [] then 0 else s.used + |c|, s.accepted + [c])
  }

  function Delivered(cs: seq<seq<Unit>>): (s: Intake)
    ensures s.used < CAPACITY
  {
    if cs == [] then Intake(0, []) else TakeIn(Delivered(cs[..|cs| - 1]), cs[|cs| - 1])
  }

  /** Every transfer fits in the buffer when it comes. */
  predicate AllTaken(cs: seq<seq<Unit>>) { forall k :: 0 <= k < |cs| ==> Taken(Delivered(cs[..k]), cs[k]) }

  /** The accepted transfers are the whole stream exactly when each one fits; otherwise they are shorter. */
  lemma {:induction false} NothingDroppedIff(cs: seq<seq<Unit>>)
    ensures |Concat(Delivered(cs).accepted)| <= |Concat(cs)|
    ensures AllTaken(cs) <==> Concat(Delivered(cs).accepted) == Concat(cs)
    ensures AllTaken(cs) <==> |Concat(Delivered(cs).accepted)| == |Concat(cs)|
  {
    hide Concat, Tail;
    if cs != [] {
      var before, c := cs[..|cs| - 1], cs[|cs| - 1];
      NothingDroppedIff(before);
      assert before + [c] == cs;
      ConcatSnoc(before, c);
      ConcatSnoc(Delivered(before).accepted, c);
      AllTakenSnoc(before, c);
    }
  }

  lemma AllTakenSnoc(cs: seq<seq<Unit>>, c: seq<Unit>)
    ensures AllTaken(cs + [c]) <==> AllTaken(cs) && Taken(Delivered(cs), c)
  {
    hide Delivered, Taken;
    assert forall k :: 0 <= k < |cs| ==> (cs + [c])[..k] == cs[..k];
    assert (cs + [c])[..|cs|] == cs && (cs + [c])[|cs|] == c;
    if AllTaken(cs + [c]) {
      assert forall k :: 0 <= k < |cs| ==> cs[k] == (cs + [c])[k];
    }
  }

  /** Who ends every transfer with a command, and sends fewer units at a time than the buffer holds, loses nothing. */
  lemma {:induction false} WholeCommandsFit(cs: seq<seq<Unit>>)
    requires forall c :: c in cs ==> |c| < CAPACITY
    requires forall n :: 0 <= n <= |cs| ==> Tail(Concat(cs[..n])) == []
    ensures AllTaken(cs) && Delivered(cs).used == 0
  {
    hide Tail, Concat;
    if cs != [] {
      var before, c := cs[..|cs| - 1], cs[|cs| - 1];
      assert before + [c] == cs && cs[..|cs|] == cs;
      assert forall n :: 0 <= n <= |before| ==> before[..n] == cs[..n];
      WholeCommandsFit(before);
      AllTakenSnoc(before, c);
      NothingDroppedIff(before);
      ConcatSnoc(before, c);
      ConcatSnoc(Delivered(before).accepted, c);
    }
  }

  /** Once the buffer is used up in the middle of a command, every later transfer is dropped. */
  lemma {:induction false} FullForever(cs: seq<seq<Unit>>, more: seq<seq<Unit>>)
    requires Delivered(cs).used == CAPACITY - 1
    ensures Delivered(cs + more) == Delivered(cs)
  {
    hide Concat, Tail;
    if more == [] {
      assert cs + more == cs;
    } else {
      FullForever(cs, more[..|more| - 1]);
      assert (cs + more)[..|cs + more| - 1] == cs + more[..|more| - 1];
    }
  }

  /** n units that each look like the beginning of a triangle of four. */
  function Triangles(n: nat): seq<Unit> { seq(n, _ => (0x800_0000, 0)) }

  /** One transfer of such units does it. */
  lemma FullAtOnce()
    ensures Delivered([Triangles(CAPACITY - 1)]).used == CAPACITY - 1
  {
    hide Tail, Triangles;
    TrianglesTail(CAPACITY - 1);
    FirstTransfer(Triangles(CAPACITY - 1));
  }

  lemma FirstTransfer(c: seq<Unit>)
    requires 0 < |c| < CAPACITY && Tail(c) != []
    ensures Delivered([c]).used == |c|
  {
    hide Tail;
    var cs: seq<seq<Unit>> := [c];
    assert Concat(cs) == c + Concat(cs[1..]) == c;
    assert cs[..0] == [] && Intake(0, []).accepted + [c] == cs;
    assert Delivered(cs) == TakeIn(Intake(0, []), c);
  }

  lemma {:induction false} TrianglesTail(n: nat)
    ensures |Triangles(n)| == n && |Tail(Triangles(n))| == n % 4
  {
    hide Commands, Tail, CmdLen;
    var s := Triangles(n);
    assert CmdLen(8) == 4 by {
      LengthOfTriangle();
    }
    ParseStep(s);
    if n >= 4 {
      assert s[4..] == Triangles(n - 4);
      TrianglesTail(n - 4);
    } else if n > 0 {
      CompleteIff(s);
      IncompleteParsed(s);
    }
  }

  lemma LengthOfTriangle()
    ensures CmdLen(8) == 4
  {
  }

  /** Main result for series of transfers: the processor is given the commands of the accepted transfers as one
      stream, whatever the cuts, and of all of them exactly when each one fits. */
  method ParseRun(ts: seq<Delivery>) returns (given: seq<seq<Word32>>, retained: seq<Word32>)
    requires forall k :: 0 <= k < |ts| ==> DeliveryOk(ts[k])
    ensures var s := Concat(Delivered(Chunks(ts)).accepted); given == Parsed(s) && retained == Flat(Tail(s))
    ensures AllTaken(Chunks(ts)) ==>
      given == Parsed(Concat(Chunks(ts))) && retained == Flat(Tail(Concat(Chunks(ts))))
  {
    hide Concat, Tail, Parsed, Chunk, Complete, Flat, Buffered;
    var parser := new Parser();
    NothingYet();
    for n := 0 to |ts|
      invariant fresh(parser) && fresh(parser.cmdData) && parser.Valid()
      invariant var s := Delivered(Chunks(ts[..n]));
        && parser.cmdPtr == s.used
        && parser.enqueued == Parsed(Concat(s.accepted)) && parser.Pending() == Tail(Concat(s.accepted))
    {
      assert ts[..n + 1][..n] == ts[..n];
      ghost var s := Delivered(Chunks(ts[..n]));
      Deliver(parser, ts[n], s);
    }
    assert ts[..|ts|] == ts;
    NothingDroppedIff(Chunks(ts));
    FlatBuffered(parser.cmdData[..], parser.cmdCur, parser.cmdPtr);
    given, retained := parser.enqueued, parser.cmdData[2 * parser.cmdCur..2 * parser.cmdPtr];
  }

  lemma NothingYet()
    ensures Parsed(Concat([])) == [] && Tail(Concat([])) == []
  {
  }

  method Deliver(parser: Parser, t: Delivery, ghost s: Intake)
    requires parser.Valid() && DeliveryOk(t) && parser.cmdPtr == s.used
    requires parser.enqueued == Parsed(Concat(s.accepted)) && parser.Pending() == Tail(Concat(s.accepted))
    modifies parser, parser.cmdData
    ensures parser.Valid() && parser.cmdPtr == TakeIn(s, Chunk(t)).used
    ensures parser.enqueued == Parsed(Concat(TakeIn(s, Chunk(t)).accepted))
    ensures parser.Pending() == Tail(Concat(TakeIn(s, Chunk(t)).accepted))
  {
    hide Concat, Tail, Parsed, Complete, Buffered, Transfer;
    var memory := new Word32[|t.memory|](i requires 0 <= i < |t.memory| => t.memory[i]);
    var other := new Word32[if t.xbus then DRAM_WORDS else DMEM_WORDS](_ => 0);
    assert memory[..] == t.memory;
    parser.dpcCurrent, parser.dpcEnd := t.current, t.end;
    parser.ProcessCommands(t.xbus, if t.xbus then memory else other, if t.xbus then other else memory);
    ConcatSnoc(s.accepted, Chunk(t));
    ParsedResumes(Concat(s.accepted), Chunk(t));
  }

  lemma ParsedResumes(s: seq<Unit>, c: seq<Unit>)
    ensures Parsed(s + c) == Parsed(s) + Parsed(Tail(s) + c) && Tail(s + c) == Tail(Tail(s) + c)
  {
    ParseResumes(s, c);
    ForwardedConcat(Commands(s), Commands(Tail(s) + c));
  }
}
