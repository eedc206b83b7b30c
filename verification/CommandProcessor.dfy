/** The command processor over its ring and its timeline worker, run under any schedule of its three threads. */
module CommandProcessor {
  import opened Words
  import opened Options
  import opened CommandRing
  import opened Timeline

  class CommandProcessor {
    const ring: CommandRing
    var timelineValue: nat
    var threadTimelineValue: nat
    var workQueue: seq<CoherencyOp>
    var tmpBuffer: Option<Message>
    var signalled: bool
    var value: Option<CoherencyOp>
    var waited: bool
    var executedCount: nat
    ghost var rendered: seq<nat>
    var renderedCount: nat
    var handed: nat
    ghost var enqueued: seq<Message>
    ghost var executed: seq<Message>
    ghost var pushed: seq<CoherencyOp>
    ghost var performed: seq<CoherencyOp>

    ghost function P(): Pipe
      reads this, ring
    {
      Pipe(ring.queue, tmpBuffer, signalled, timelineValue, workQueue, value, waited, threadTimelineValue,
           rendered, handed, enqueued, executed, pushed, performed)
    }

    ghost predicate Valid()
      reads this, ring, ring.ring
    {
      && ring.Valid()
      && executedCount == |executed| && renderedCount == |rendered|
      && ring.completedCount == Size(executed)
      && ring.readCount == Size(executed) + (if tmpBuffer.Some? then |tmpBuffer.value| + 1 else 0)
    }

    constructor (log2: nat)
      requires log2 <= 64
      ensures Valid() && P() == START && ring.ring.Length == Pow2(log2) && fresh(ring) && fresh(ring.ring)
    {
      ring := new CommandRing(log2);
      timelineValue, threadTimelineValue, executedCount, renderedCount, handed, rendered := 0, 0, 0, 0, 0, [];
      workQueue, tmpBuffer, signalled, value, waited := [], None, false, None, false;
      enqueued, executed, pushed, performed := [], [], [], [];
    }

    /** Appends to the ring once it has room. */
    method EnqueueCommandInner(words: Message)
      requires Valid() && ring.CanEnqueue(|words|)
      modifies this`enqueued, ring, ring.ring
      ensures Valid() && P() == Send(old(P()), words)
    {
      ring.Enqueue(words);
      enqueued := enqueued + [words];
    }

    method SignalTimeline() returns (v: Word64)
      requires Valid() && ring.CanEnqueue(3) && timelineValue + 1 < TWO_64
      modifies this`enqueued, this`timelineValue, ring, ring.ring
      ensures Valid() && P() == Send(old(P()), SignalWords(v)).(timeline := v) && v == old(timelineValue) + 1
    {
      timelineValue := timelineValue + 1;
      EnqueueCommandInner(SignalWords(timelineValue));
      v := timelineValue;
    }

    /** The command thread takes the next message. */
    method TakeCommand()
      requires Valid() && ring.CanDequeue() && tmpBuffer.None?
      modifies this`tmpBuffer, this`signalled, ring
      ensures Valid() && old(ring.queue) != []
      ensures P() == old(P()).(queue := old(ring.queue)[1..], current := Some(old(ring.queue)[0]), signalled := false)
    {
      var words := ring.Dequeue();
      tmpBuffer, signalled := Some(words), false;
    }

    method PushWork(op: CoherencyOp)
      requires Valid()
      modifies this`workQueue, this`pushed
      ensures Valid() && P() == Push(old(P()), op)
    {
      workQueue := workQueue + [op];
      pushed := pushed + [op];
    }

    method FinishCommand()
      requires Valid() && tmpBuffer.Some?
      modifies this`tmpBuffer, this`signalled, this`executed, this`executedCount, ring
      ensures Valid()
      ensures P() == old(P()).(current := None, signalled := false, executed := old(executed) + [old(tmpBuffer.value)])
    {
      ring.Complete();
      FlattenSnoc(executed, tmpBuffer.value);
      executed := executed + [tmpBuffer.value];
      executedCount := executedCount + 1;
      tmpBuffer, signalled := None, false;
    }

    /** The client's turn. Every turn of a thread that has to wait does nothing. */
    method ClientTurn(a: Action)
      requires Valid() && (a.Enqueue? || a.Signal?)
      modifies this, ring, ring.ring
      ensures Valid() && P() == Step(old(P()), ring.ring.Length, a)
    {
      hide Flatten, SignalWords, OpOf, SignalValue;
      RoomIff(ring);
      if a.Enqueue? {
        if a.words != [] && OpOf(a.words) != META_SIGNAL_TIMELINE && ring.CanEnqueue(|a.words|) {
          EnqueueCommandInner(a.words);
        }
      } else if timelineValue + 1 < TWO_64 && ring.CanEnqueue(3) {
        var _ := SignalTimeline();
      }
    }

    /** The command thread's turn, and the renderer's on its behalf. */
    method CommandTurn(a: Action)
      requires Valid() && (a.Take? || a.Render? || a.PushFence? || a.PushSignal? || a.Finish?)
      modifies this, ring
      ensures Valid() && P() == Step(old(P()), ring.ring.Length, a)
    {
      hide CommandRing.Valid, Valid, Flatten, SignalWords, OpOf, SignalValue;
      TurnFacts();
      match a
      case Take =>
        if tmpBuffer.None? && ring.CanDequeue() {
          TakeCommand();
        }
      case Render =>
        if tmpBuffer.Some? {
          RenderBatch();
        }
      case PushFence =>
        PushFenceWork();
      case PushSignal =>
        if tmpBuffer.Some? && IsSignal(tmpBuffer.value) && !signalled && handed == renderedCount {
          PushSignalWork();
        }
      case Finish =>
        if tmpBuffer.Some? && (IsSignal(tmpBuffer.value) ==> signalled) {
          FinishCommand();
        }
    }

    lemma TurnFacts()
      requires Valid()
      ensures ring.Valid() && renderedCount == |rendered| && executedCount == |executed|
      ensures ring.CanDequeue() <==> ring.queue != []
    {
      RoomIff(ring);
    }

    method RenderBatch()
      requires Valid()
      modifies this`rendered, this`renderedCount
      ensures Valid() && P() == old(P()).(rendered := old(rendered) + [|executed|])
    {
      rendered := rendered + [executedCount];
      renderedCount := renderedCount + 1;
    }

    /** Submits the batches and hands over a fence behind them. */
    method PushFenceWork()
      requires Valid()
      modifies this`workQueue, this`pushed, this`handed
      ensures Valid()
      ensures P() == Push(old(P()), CoherencyOp(true, 0, |executed|, |rendered|)).(handed := |rendered|)
    {
      PushWork(CoherencyOp(true, 0, executedCount, renderedCount));
      handed := renderedCount;
    }

    method PushSignalWork()
      requires Valid() && tmpBuffer.Some? && IsSignal(tmpBuffer.value)
      modifies this`workQueue, this`pushed, this`signalled
      ensures Valid() && P() == Push(old(P()), SignalOp(old(P()))).(signalled := true)
    {
      PushWork(CoherencyOp(false, SignalValue(tmpBuffer.value), executedCount, renderedCount));
      signalled := true;
    }

    /** The timeline thread's turn. */
    method WorkerTurn(a: Action)
      requires Valid() && (a.Pop? || a.Perform? || a.Notify?)
      modifies this
      ensures Valid() && P() == Step(old(P()), ring.ring.Length, a)
    {
      hide CommandRing.Valid, Flatten, SignalWords, OpOf, SignalValue, Size, Valid;
      match a
      case Pop =>
        if value.None? && workQueue != [] {
          PopWork();
        }
      case Perform =>
        if value.Some? && !waited {
          PerformWork();
        }
      case Notify =>
        if value.Some? && waited {
          NotifyWork();
        }
    }

    method PopWork()
      requires Valid() && value.None? && workQueue != []
      modifies this`value, this`waited, this`workQueue
      ensures Valid()
      ensures P() == old(P()).(work := old(workQueue)[1..], popped := Some(old(workQueue)[0]), waited := false)
    {
      value, waited := Some(workQueue[0]), false;
      workQueue := workQueue[1..];
    }

    method PerformWork()
      requires Valid() && value.Some?
      modifies this`performed, this`waited
      ensures Valid() && P() == old(P()).(performed := old(performed) + [value.value], waited := true)
    {
      performed := performed + [value.value];
      waited := true;
    }

    /** Publishes the value of the work at hand, if it has one. */
    method NotifyWork()
      requires Valid() && value.Some?
      modifies this`value, this`waited, this`threadTimelineValue
      ensures Valid()
      ensures var v := old(value.value).value;
        P() == old(P()).(popped := None, waited := false, published := if v != 0 then v else old(P()).published)
    {
      if value.value.value != 0 {
        threadTimelineValue := value.value.value;
      }
      value, waited := None, false;
    }

    /** One turn of whichever thread the schedule picks. */
    method Turn(a: Action)
      requires Valid()
      modifies this, ring, ring.ring
      ensures Valid() && P() == Step(old(P()), ring.ring.Length, a)
    {
      hide Flatten, Step, Size;
      if a.Enqueue? || a.Signal? {
        ClientTurn(a);
      } else if a.Pop? || a.Perform? || a.Notify? {
        WorkerTurn(a);
      } else {
        CommandTurn(a);
      }
    }
  }

  /** The ring's counters tell exactly whether there is room, and whether there is something to take. */
  lemma RoomIff(r: CommandRing)
    requires r.Valid()
    ensures forall n :: 0 <= n ==> (r.CanEnqueue(n) <==> Size(r.queue) + n + 1 <= r.ring.Length)
    ensures r.CanDequeue() <==> r.queue != []
  {
    FlattenSize(r.queue);
  }

  /** Any schedule of the three threads on the real ring and queue: the value waiters see is the one of the step
      system, and drain returns exactly when everything enqueued has been executed. */
  method RunSchedule(log2: nat, schedule: seq<Action>) returns (published: nat, drained: bool)
    requires log2 <= 64
    ensures var p := Run(Pow2(log2), schedule);
      published == p.published && (drained <==> p.executed == p.enqueued)
  {
    hide Step, Pow2;
    var c := new CommandProcessor(log2);
    for k := 0 to |schedule|
      invariant fresh(c) && fresh(c.ring) && fresh(c.ring.ring)
      invariant c.Valid() && c.ring.ring.Length == Pow2(log2) && c.P() == Run(Pow2(log2), schedule[..k])
    {
      assert schedule[..k + 1][..k] == schedule[..k];
      c.Turn(schedule[k]);
    }
    assert schedule[..|schedule|] == schedule;
    published := c.threadTimelineValue;
    drained := c.ring.writeCount == c.ring.completedCount;
    RunKeeps(Pow2(log2), schedule);
    DrainedIff(c.ring);
    QueueEmpty(c.P());
  }

  lemma QueueEmpty(p: Pipe)
    requires Inv(p)
    ensures p.executed == p.enqueued <==> p.queue == [] && p.current.None?
  {
    hide OpOf, Signals, Values, Numbered, Origins;
  }
}
