/** The ring buffer between the client and the command thread. Each method is one critical section of the source. */
module CommandRing {
  import opened Words

  type Message = m: seq<Word32> | |m| < TWO_32

  /** A message is stored behind its length. */
  function Encode(m: Message): seq<Word32> { [|m|] + m }

  function Flatten(q: seq<Message>): seq<Word32> {
    if q == [] then [] else Encode(q[0]) + Flatten(q[1..])
  }

  /** Words a queue of messages takes up. */
  function Size(q: seq<Message>): nat {
    if q == [] then 0 else |q[0]| + 1 + Size(q[1..])
  }

  lemma {:induction false} FlattenSize(q: seq<Message>)
    ensures |Flatten(q)| == Size(q) && Size(q) >= |q|
  {
    if q != [] {
      FlattenSize(q[1..]);
    }
  }

  lemma {:induction false} FlattenSnoc(q: seq<Message>, m: Message)
    ensures Flatten(q + [m]) == Flatten(q) + Encode(m)
    ensures Size(q + [m]) == Size(q) + |m| + 1
  {
    if q == [] {
      assert [m][1..] == [];
      assert q + [m] == [m];
    } else {
      assert (q + [m])[0] == q[0] && (q + [m])[1..] == q[1..] + [m];
      FlattenSnoc(q[1..], m);
    }
  }

  /** Positions less than a ring's length apart have different slots. */
  lemma FlattenHead(q: seq<Message>)
    requires q != []
    ensures Flatten(q) != [] && Flatten(q)[0] == |q[0]| && Flatten(q)[1..] == q[0] + Flatten(q[1..])
  {
    assert Flatten(q) == Encode(q[0]) + Flatten(q[1..]);
    hide Flatten;
    EncodedHead(q[0], Flatten(q[1..]));
  }

  lemma EncodedHead(m: Message, rest: seq<Word32>)
    ensures var all := Encode(m) + rest; all != [] && all[0] == |m| && all[1..] == m + rest
  {
  }

  lemma NextWord(m: Message, rest: seq<Word32>, i: nat)
    requires i < |m|
    ensures m[i..] + rest != [] && (m[i..] + rest)[0] == m[i] && (m[i..] + rest)[1..] == m[i + 1..] + rest
  {
  }

  lemma SlotsDiffer(i: nat, j: nat, n: nat)
    requires i < j < i + n
    ensures i % n != j % n
  {
    var a, b := i / n, j / n;
    assert i == n * a + i % n && j == n * b + j % n;
    if i % n == j % n {
      assert j - i == n * (b - a);
      MulMonotone(n, b - a);
    }
  }

  class CommandRing {
    const ring: array<Word32>
    const log2: nat
    var writeCount: nat
    var readCount: nat
    var completedCount: nat
    ghost var queue: seq<Message>

    ghost predicate Shape()
      reads this
    {
      ring.Length == Pow2(log2) && log2 <= 64 && completedCount <= readCount <= writeCount <= readCount + ring.Length
    }

    /** The words between positions i and j. */
    ghost function Window(i: nat, j: nat): (w: seq<Word32>)
      requires i <= j && ring.Length > 0
      reads ring
      ensures |w| == j - i
    {
      seq(j - i, k requires 0 <= k < j - i reads ring => ring[(i + k) % ring.Length])
    }

    /** What has been written and not yet read is exactly the queue. */
    ghost predicate Valid()
      reads this, ring
    {
      Shape() && Window(readCount, writeCount) == Flatten(queue)
    }

    predicate CanEnqueue(numWords: nat)
      reads this
    {
      writeCount + numWords + 1 <= readCount + ring.Length
    }

    predicate CanDequeue()
      reads this
    {
      writeCount > readCount
    }

    predicate Drained()
      reads this
    {
      writeCount == completedCount
    }

    constructor (log2: nat)
      requires log2 <= 64
      ensures Valid() && queue == [] && ring.Length == Pow2(log2) && fresh(ring)
      ensures writeCount == readCount == completedCount == 0
    {
      this.log2 := log2;
      ring := new Word32[Pow2(log2)](_ => 0);
      writeCount, readCount, completedCount, queue := 0, 0, 0, [];
    }

    method Slot(at: nat) returns (k: nat)
      requires Shape()
      ensures k == at % ring.Length < ring.Length
    {
      k := Bits(BAnd, at, ring.Length - 1, 64);
      AndMask(at, log2, 64);
    }

    method WriteWord(x: Word32)
      requires Shape() && writeCount < readCount + ring.Length
      modifies ring, this`writeCount
      ensures Shape() && writeCount == old(writeCount) + 1
      ensures Window(readCount, writeCount) == old(Window(readCount, writeCount)) + [x]
    {
      var k := Slot(writeCount);
      ghost var w := writeCount;
      forall i | readCount <= i < w ensures i % ring.Length != k {
        SlotsDiffer(i, w, ring.Length);
      }
      ring[k] := x;
      writeCount := writeCount + 1;
      assert Window(readCount, writeCount)[..w - readCount] == old(Window(readCount, writeCount));
    }

    method ReadWord() returns (x: Word32)
      requires Shape() && readCount < writeCount
      modifies this`readCount
      ensures readCount == old(readCount) + 1 && completedCount <= readCount <= writeCount <= readCount + ring.Length
      ensures [x] + Window(readCount, writeCount) == old(Window(readCount, writeCount))
    {
      var k := Slot(readCount);
      x := ring[k];
      ghost var all := Window(readCount, writeCount);
      readCount := readCount + 1;
      assert all[1..] == Window(readCount, writeCount);
    }

    method Enqueue(words: Message)
      requires Valid() && CanEnqueue(|words|)
      modifies ring, this`writeCount, this`queue
      ensures Valid() && queue == old(queue) + [words]
      ensures writeCount == old(writeCount) + |words| + 1
    {
      ghost var before := Flatten(queue);
      WriteWord(|words|);
      for i := 0 to |words|
        invariant Shape() && writeCount == old(writeCount) + 1 + i && queue == old(queue)
        invariant Window(readCount, writeCount) == before + [|words|] + words[..i]
      {
        WriteWord(words[i]);
        assert words[..i + 1] == words[..i] + [words[i]];
        assert before + [|words|] + words[..i] + [words[i]] == before + [|words|] + words[..i + 1];
      }
      assert words[..|words|] == words;
      assert before + [|words|] + words == before + Encode(words);
      FlattenSnoc(queue, words);
      queue := queue + [words];
    }

    /** Takes the oldest message, whole. */
    method Dequeue() returns (words: Message)
      requires Valid() && CanDequeue()
      modifies this`readCount, this`queue
      ensures Valid() && old(queue) == [words] + queue
      ensures readCount == old(readCount) + |words| + 1
    {
      assert queue != [];
      hide Flatten, Window;
      ghost var first, rest := queue[0], Flatten(queue[1..]);
      FlattenHead(queue);
      var numWords := ReadWord();
      words := [];
      for i := 0 to numWords
        invariant Shape() && queue == old(queue) && readCount == old(readCount) + 1 + i
        invariant numWords == |first| && words == first[..i]
        invariant Window(readCount, writeCount) == first[i..] + rest
      {
        NextWord(first, rest, i);
        var x := ReadWord();
        words := words + [x];
      }
      assert words == first;
      assert first[numWords..] + rest == rest;
      queue := queue[1..];
    }

    method Complete()
      requires Valid()
      modifies this`completedCount
      ensures Valid() && completedCount == readCount
    {
      completedCount := readCount;
    }
  }

  /** A producer that waits although its message fits the ring leaves the consumer something to take. */
  lemma BlockedProducerFeedsConsumer(r: CommandRing, numWords: nat)
    requires r.Valid() && !r.CanEnqueue(numWords) && numWords + 1 <= r.ring.Length
    ensures r.CanDequeue() && r.queue != []
  {
  }

  /** Drained means that nothing waits in the ring and that everything taken has been completed. */
  lemma DrainedIff(r: CommandRing)
    requires r.Valid()
    ensures r.Drained() <==> r.queue == [] && r.completedCount == r.readCount
  {
    FlattenSize(r.queue);
  }
}
