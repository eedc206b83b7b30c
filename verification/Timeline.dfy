/** Client, command thread and timeline thread as one step system: what a published timeline value promises. */
module Timeline {
  import opened Words
  import opened RdpCommands
  import opened Options
  import opened CommandRing

  const META_SIGNAL_TIMELINE: nat := 1

  /** The operation code of a message: six bits of its first word. */
  function OpOf(m: Message): nat { if m == [] then 0 else Opcode(m[0]) }

  predicate IsSignal(m: Message) { |m| == 3 && OpOf(m) == META_SIGNAL_TIMELINE }

  /** A 64-bit value travels as two words. */
  function SignalWords(v: Word64): Message { [META_SIGNAL_TIMELINE * 0x100_0000, v % TWO_32, v / TWO_32] }

  function SignalValue(m: Message): Word64
    requires IsSignal(m)
  {
    m[1] + TWO_32 * m[2]
  }

  lemma SignalRoundTrip(v: Word64)
    ensures IsSignal(SignalWords(v)) && SignalValue(SignalWords(v)) == v
    ensures var op: int, low: int, high: int := SignalWords(v)[0], SignalWords(v)[1], SignalWords(v)[2];
      op == 0x100_0000 && low + 0x1_0000_0000 * high == v
  {
  }

  /** Work for the timeline thread: a fence to wait for with the copies behind it, or a value to publish.
      The origin counts the messages completed when the work was handed over, covers the batches rendered by then. */
  datatype CoherencyOp = CoherencyOp(fence: bool, value: nat, origin: nat, covers: nat)

  predicate IsSentinel(op: CoherencyOp) { !op.fence && op.value == 0 }

  /** Everything the three threads share, and what they have done so far. */
  datatype Pipe = Pipe(
    queue: seq<Message>,              // in the ring
    current: Option<Message>,         // being executed by the command thread
    signalled: bool,                  // its timeline value has been handed over
    timeline: nat,                    // last value the client asked for
    work: seq<CoherencyOp>,           // waiting for the timeline thread
    popped: Option<CoherencyOp>,      // taken by the timeline thread
    waited: bool,                     // and performed
    published: nat,                   // the value waiters see
    rendered: seq<nat>,               // batches of rendering, each by the message that caused it
    handed: nat,                      // how many of them have been handed over behind a fence
    enqueued: seq<Message>,
    executed: seq<Message>,
    pushed: seq<CoherencyOp>,
    performed: seq<CoherencyOp>)

  const START := Pipe([], None, false, 0, [], None, false, 0, [], 0, [], [], [], [])

  datatype Action =
    | Enqueue(words: Message)    // client: any other message
    | Signal                     // client: signal_timeline
    | Take                       // command thread: next message from the ring
    | Render                     // renderer: batch work of the current message
    | PushFence                  // renderer: submit all batches, and hand over a fence with its copies
    | PushSignal                 // command thread: hand over the value of the current message
    | Finish                     // command thread: message executed
    | Pop                        // timeline thread: next work
    | Perform                    // timeline thread: wait for the fence and copy
    | Notify                     // timeline thread: publish

  function Room(p: Pipe, size: nat, n: nat): bool { Size(p.queue) + n + 1 <= size }

  predicate Enabled(p: Pipe, size: nat, a: Action) {
    match a
    case Enqueue(words) => words != [] && OpOf(words) != META_SIGNAL_TIMELINE && Room(p, size, |words|)
    case Signal => p.timeline + 1 < TWO_64 && Room(p, size, 3)
    case Take => p.current.None? && p.queue != []
    case Render => p.current.Some?
    case PushFence => true
    case PushSignal =>
      p.current.Some? && IsSignal(p.current.value) && !p.signalled && p.handed == |p.rendered|
    case Finish => p.current.Some? && (IsSignal(p.current.value) ==> p.signalled)
    case Pop => p.popped.None? && p.work != []
    case Perform => p.popped.Some? && !p.waited
    case Notify => p.popped.Some? && p.waited
  }

  function Send(p: Pipe, m: Message): Pipe { p.(queue := p.queue + [m], enqueued := p.enqueued + [m]) }

  function Push(p: Pipe, op: CoherencyOp): Pipe { p.(work := p.work + [op], pushed := p.pushed + [op]) }

  /** The work that publishes the value of the current message. */
  function SignalOp(p: Pipe): CoherencyOp
    requires p.current.Some? && IsSignal(p.current.value)
  {
    CoherencyOp(false, SignalValue(p.current.value), |p.executed|, |p.rendered|)
  }

  /** A thread that is not ready waits. The renderer submits its batches before a value is handed over. */
  function Step(p: Pipe, size: nat, a: Action): Pipe {
    if !Enabled(p, size, a) then p else
    match a
    case Enqueue(words) => Send(p, words)
    case Signal => Send(p, SignalWords(p.timeline + 1)).(timeline := p.timeline + 1)
    case Take => p.(queue := p.queue[1..], current := Some(p.queue[0]), signalled := false)
    case Render => p.(rendered := p.rendered + [|p.executed|])
    case PushFence => Push(p, CoherencyOp(true, 0, |p.executed|, |p.rendered|)).(handed := |p.rendered|)
    case PushSignal => Push(p, SignalOp(p)).(signalled := true)
    case Finish => p.(current := None, signalled := false, executed := p.executed + [p.current.value])
    case Pop => p.(work := p.work[1..], popped := Some(p.work[0]), waited := false)
    case Perform => p.(performed := p.performed + [p.popped.value], waited := true)
    case Notify =>
      p.(popped := None, waited := false,
         published := if p.popped.value.value != 0 then p.popped.value.value else p.published)
  }

  function Run(size: nat, schedule: seq<Action>): Pipe {
    if schedule == [] then START
    else Step(Run(size, schedule[..|schedule| - 1]), size, schedule[|schedule| - 1])
  }

  // ---- invariant ------------------------------------------------------------------------------

  /** The values of the signals among messages, in order. */
  function Signals(ms: seq<Message>): seq<nat> {
    if ms == [] then []
    else
      var last := ms[|ms| - 1];
      Signals(ms[..|ms| - 1]) + if IsSignal(last) then [SignalValue(last)] else []
  }

  function Values(ops: seq<CoherencyOp>): seq<nat> {
    if ops == [] then []
    else
      var last := ops[|ops| - 1];
      Values(ops[..|ops| - 1]) + if last.value != 0 then [last.value] else []
  }

  /** 1, 2, ..., n */
  function Upto(n: nat): seq<nat> { seq(n, i => i + 1) }

  function AsList<T>(o: Option<T>): seq<T> { if o.Some? then [o.value] else [] }

  /** The work whose value has been published. */
  function Notified(p: Pipe): seq<CoherencyOp>
    requires p.popped.Some? && p.waited ==> p.performed != []
  {
    if p.popped.Some? && p.waited then p.performed[..|p.performed| - 1] else p.performed
  }

  ghost predicate Fifo(p: Pipe) {
    && p.enqueued == p.executed + AsList(p.current) + p.queue
    && p.pushed == p.performed + (if p.waited then [] else AsList(p.popped)) + p.work
    && (p.popped.Some? && p.waited ==> p.performed != [] && p.performed[|p.performed| - 1] == p.popped.value)
    && (p.waited ==> p.popped.Some?)
    && (p.signalled ==> p.current.Some? && IsSignal(p.current.value))
  }

  ghost predicate Numbered(p: Pipe)
    requires Fifo(p)
  {
    && Signals(p.enqueued) == Upto(p.timeline)
    && p.timeline < TWO_64
    && Values(p.pushed) == Signals(p.executed) + (if p.signalled then [SignalValue(p.current.value)] else [])
    && Values(Notified(p)) == Upto(p.published)
  }

  /** Work is handed over in the order of the messages it comes from, and a value comes from its signal. */
  ghost predicate Origins(p: Pipe) {
    && (forall i, j :: 0 <= i < j < |p.pushed| ==> p.pushed[i].origin <= p.pushed[j].origin)
    && (forall i :: 0 <= i < |p.pushed| ==> p.pushed[i].origin <= |p.executed| && !IsSentinel(p.pushed[i]))
    && (forall i :: 0 <= i < |p.pushed| && p.pushed[i].value != 0 ==>
          p.pushed[i].origin < |p.enqueued| && IsSignal(p.enqueued[p.pushed[i].origin]) &&
          SignalValue(p.enqueued[p.pushed[i].origin]) == p.pushed[i].value)
  }

  ghost predicate Inv(p: Pipe) { Fifo(p) && Numbered(p) && Origins(p) }

  /** Among the first n works there is a fence for exactly the first c batches, if there are any. */
  ghost predicate Fenced(ops: seq<CoherencyOp>, n: nat, c: nat) {
    c > 0 ==> exists i :: 0 <= i < n && i < |ops| && ops[i].fence && ops[i].covers == c
  }

  /** A value is handed over behind a fence for all batches rendered so far; later batches come from later messages. */
  ghost predicate Covered(p: Pipe) {
    && p.handed <= |p.rendered| && Fenced(p.pushed, |p.pushed|, p.handed)
    && (forall a :: 0 <= a < |p.rendered| ==> p.rendered[a] < |p.executed| + if p.current.Some? then 1 else 0)
    && (forall j :: 0 <= j < |p.pushed| && p.pushed[j].value != 0 ==> Fenced(p.pushed, j, p.pushed[j].covers))
    && (forall j, a :: 0 <= j < |p.pushed| && p.pushed[j].value != 0 && p.pushed[j].covers <= a < |p.rendered| ==>
          p.rendered[a] >= p.pushed[j].origin)
  }

  lemma {:induction false} SignalsConcat(a: seq<Message>, b: seq<Message>)
    ensures Signals(a + b) == Signals(a) + Signals(b)
  {
    if b == [] {
      assert a + b == a;
    } else {
      assert (a + b)[..|a + b| - 1] == a + b[..|b| - 1];
      SignalsConcat(a, b[..|b| - 1]);
    }
  }

  lemma {:induction false} ValuesConcat(a: seq<CoherencyOp>, b: seq<CoherencyOp>)
    ensures Values(a + b) == Values(a) + Values(b)
  {
    if b == [] {
      assert a + b == a;
    } else {
      assert (a + b)[..|a + b| - 1] == a + b[..|b| - 1];
      ValuesConcat(a, b[..|b| - 1]);
    }
  }

  lemma OneSignal(m: Message)
    ensures Signals([m]) == if IsSignal(m) then [SignalValue(m)] else []
  {
    assert Signals([m][..0]) == [];
  }

  lemma OneValue(op: CoherencyOp)
    ensures Values([op]) == if op.value != 0 then [op.value] else []
  {
    assert Values([op][..0]) == [];
  }

  /** The parts of an initial stretch of the naturals are what their position says. */
  lemma UptoPrefix(a: seq<nat>, b: seq<nat>, n: nat)
    requires a + b == Upto(n)
    ensures a == Upto(|a|) && (b != [] ==> b[0] == |a| + 1)
  {
    assert forall i :: 0 <= i < |a| ==> a[i] == (a + b)[i];
    if b != [] {
      assert (a + b)[|a|] == b[0];
    }
  }

  lemma UptoSnoc(n: nat)
    ensures Upto(n) + [n + 1] == Upto(n + 1)
  {
  }

  lemma SentFifo(p: Pipe, m: Message)
    requires Fifo(p)
    ensures Fifo(Send(p, m)) && Notified(Send(p, m)) == Notified(p)
  {
    hide OpOf;
    assert p.executed + AsList(p.current) + p.queue + [m] == p.executed + AsList(p.current) + (p.queue + [m]);
  }

  lemma SentOrigins(p: Pipe, m: Message)
    requires Origins(p)
    ensures Origins(Send(p, m))
  {
    hide OpOf;
  }

  lemma SentKeeps(p: Pipe, m: Message)
    requires Inv(p)
    ensures Fifo(Send(p, m)) && Origins(Send(p, m)) && Notified(Send(p, m)) == Notified(p)
    ensures Signals(Send(p, m).enqueued) == Signals(p.enqueued) + if IsSignal(m) then [SignalValue(m)] else []
  {
    hide Fifo, Origins, Numbered, Signals, IsSignal, SignalValue, Notified;
    SentFifo(p, m);
    SentOrigins(p, m);
    SignalsConcat(p.enqueued, [m]);
    OneSignal(m);
  }

  lemma EnqueueKeeps(p: Pipe, m: Message)
    requires Inv(p) && OpOf(m) != META_SIGNAL_TIMELINE
    ensures Inv(Send(p, m))
  {
    hide Fifo, Origins, Signals, Values, Upto, OpOf, SignalValue, Notified;
    SentKeeps(p, m);
  }

  lemma SignalKeeps(p: Pipe)
    requires Inv(p) && p.timeline + 1 < TWO_64
    ensures Inv(Send(p, SignalWords(p.timeline + 1)).(timeline := p.timeline + 1))
  {
    hide Fifo, Origins, Signals, Values, Upto, OpOf, SignalValue, SignalWords, IsSignal, Notified;
    SentKeeps(p, SignalWords(p.timeline + 1));
    SignalRoundTrip(p.timeline + 1);
    UptoSnoc(p.timeline);
    Retimed(Send(p, SignalWords(p.timeline + 1)), p.timeline + 1);
  }

  lemma Retimed(p: Pipe, t: nat)
    requires Fifo(p) && Origins(p)
    ensures Fifo(p.(timeline := t)) && Origins(p.(timeline := t)) && Notified(p.(timeline := t)) == Notified(p)
  {
    hide OpOf, SignalValue;
  }

  lemma PushedKeeps(p: Pipe, op: CoherencyOp)
    requires Inv(p) && op.origin == |p.executed| && !IsSentinel(op)
    requires op.value != 0 ==>
      op.origin < |p.enqueued| && IsSignal(p.enqueued[op.origin]) && SignalValue(p.enqueued[op.origin]) == op.value
    ensures Fifo(Push(p, op)) && Origins(Push(p, op)) && Notified(Push(p, op)) == Notified(p)
    ensures Values(Push(p, op).pushed) == Values(p.pushed) + if op.value != 0 then [op.value] else []
  {
    hide Numbered, Values, OpOf, SignalValue, IsSignal;
    ValuesConcat(p.pushed, [op]);
    OneValue(op);
    var before := p.performed + (if p.waited then [] else AsList(p.popped));
    assert before + p.work + [op] == before + (p.work + [op]);
  }

  /** What is batched concerns only the coverage of fences. */
  lemma Rebatched(p: Pipe, rendered: seq<nat>, handed: nat)
    requires Fifo(p) && Origins(p)
    ensures var q := p.(rendered := rendered, handed := handed);
      Fifo(q) && Origins(q) && Notified(q) == Notified(p)
  {
    hide OpOf, SignalValue;
  }

  lemma RenderKeeps(p: Pipe)
    requires Inv(p)
    ensures Inv(p.(rendered := p.rendered + [|p.executed|]))
  {
    hide Fifo, Origins, Signals, Values, Upto, OpOf, SignalValue, IsSignal, Notified;
    Rebatched(p, p.rendered + [|p.executed|], p.handed);
  }

  lemma PushFenceKeeps(p: Pipe)
    requires Inv(p)
    ensures Inv(Push(p, CoherencyOp(true, 0, |p.executed|, |p.rendered|)).(handed := |p.rendered|))
  {
    hide Fifo, Origins, Signals, Values, Upto, OpOf, SignalValue, IsSignal, Notified;
    var op := CoherencyOp(true, 0, |p.executed|, |p.rendered|);
    PushedKeeps(p, op);
    Rebatched(Push(p, op), p.rendered, |p.rendered|);
  }

  /** The current message's signal is the next one to hand over. */
  lemma NextSignal(p: Pipe)
    requires Inv(p) && p.current.Some? && IsSignal(p.current.value)
    ensures SignalValue(p.current.value) == |Signals(p.executed)| + 1
    ensures |p.executed| < |p.enqueued| && p.enqueued[|p.executed|] == p.current.value
  {
    hide OpOf, SignalValue, Signals, Values, Upto, Origins;
    var m := p.current.value;
    assert p.enqueued == p.executed + ([m] + p.queue);
    SignalsConcat(p.executed, [m] + p.queue);
    SignalsConcat([m], p.queue);
    OneSignal(m);
    UptoPrefix(Signals(p.executed), Signals([m] + p.queue), p.timeline);
  }

  lemma PushSignalKeeps(p: Pipe)
    requires Inv(p) && p.current.Some? && IsSignal(p.current.value) && !p.signalled
    ensures Inv(Push(p, SignalOp(p)).(signalled := true))
  {
    hide Fifo, Origins, Signals, Values, Upto, OpOf, SignalValue, IsSignal, Notified;
    NextSignal(p);
    PushedKeeps(p, SignalOp(p));
    Marked(Push(p, SignalOp(p)));
  }

  lemma Marked(p: Pipe)
    requires Fifo(p) && Origins(p) && p.current.Some? && IsSignal(p.current.value)
    ensures Fifo(p.(signalled := true)) && Origins(p.(signalled := true))
    ensures Notified(p.(signalled := true)) == Notified(p)
  {
    hide OpOf, SignalValue, IsSignal;
  }

  lemma TakeKeeps(p: Pipe)
    requires Inv(p) && p.current.None? && p.queue != []
    ensures Inv(p.(queue := p.queue[1..], current := Some(p.queue[0]), signalled := false))
  {
    hide OpOf, SignalValue, IsSignal, Signals, Values, Upto;
    assert p.executed + p.queue == p.executed + [p.queue[0]] + p.queue[1..];
  }

  lemma PopKeeps(p: Pipe)
    requires Inv(p) && p.popped.None? && p.work != []
    ensures Inv(p.(work := p.work[1..], popped := Some(p.work[0]), waited := false))
  {
    hide OpOf, SignalValue, IsSignal, Signals, Values, Upto;
    assert p.performed + p.work == p.performed + [p.work[0]] + p.work[1..];
  }

  lemma PerformKeeps(p: Pipe)
    requires Inv(p) && p.popped.Some? && !p.waited
    ensures Inv(p.(performed := p.performed + [p.popped.value], waited := true))
  {
    hide OpOf, SignalValue, IsSignal, Signals, Values, Upto;
    assert (p.performed + [p.popped.value])[..|p.performed|] == p.performed;
  }

  lemma FinishKeeps(p: Pipe)
    requires Inv(p) && p.current.Some? && (IsSignal(p.current.value) ==> p.signalled)
    ensures Inv(p.(current := None, signalled := false, executed := p.executed + [p.current.value]))
  {
    hide OpOf, SignalValue, IsSignal, Signals, Values, Upto;
    SignalsConcat(p.executed, [p.current.value]);
    OneSignal(p.current.value);
  }

  lemma NotifyKeeps(p: Pipe)
    requires Inv(p) && p.popped.Some? && p.waited
    ensures Inv(p.(popped := None, waited := false,
                   published := if p.popped.value.value != 0 then p.popped.value.value else p.published))
    ensures p.popped.value.value != 0 ==> p.popped.value.value == p.published + 1
  {
    hide OpOf, SignalValue, IsSignal, Signals, Values, Upto;
    var op, before := p.popped.value, Notified(p);
    assert p.performed == before + [op];
    ValuesConcat(before, [op]);
    OneValue(op);
    PerformedValues(p);
    if op.value != 0 {
      UptoPrefix(Values(before), [op.value], |Values(p.performed)|);
      UptoSnoc(p.published);
      UptoLength(p.published);
    }
  }

  lemma UptoLength(n: nat)
    ensures |Upto(n)| == n
  {
  }

  /** Values are handed over in the order in which the client asked for them. */
  lemma PushedAreSignals(p: Pipe)
    requires Inv(p)
    ensures Values(p.pushed) == Upto(|Values(p.pushed)|)
  {
    hide OpOf, SignalValue, IsSignal, Signals, Values, Upto, Origins;
    var cur := AsList(p.current);
    assert p.enqueued == p.executed + (cur + p.queue);
    SignalsConcat(p.executed, cur + p.queue);
    SignalsConcat(cur, p.queue);
    if p.signalled {
      OneSignal(p.current.value);
      assert Signals(p.enqueued) == Values(p.pushed) + Signals(p.queue);
      UptoPrefix(Values(p.pushed), Signals(p.queue), p.timeline);
    } else {
      assert Signals(p.enqueued) == Values(p.pushed) + Signals(cur + p.queue);
      UptoPrefix(Values(p.pushed), Signals(cur + p.queue), p.timeline);
    }
  }

  lemma PerformedValues(p: Pipe)
    requires Inv(p)
    ensures Values(p.performed) == Upto(|Values(p.performed)|)
  {
    hide OpOf, SignalValue, IsSignal, Signals, Values, Upto, Origins, Numbered;
    PushedAreSignals(p);
    var rest := (if p.waited then [] else AsList(p.popped)) + p.work;
    assert p.pushed == p.performed + rest;
    ValuesConcat(p.performed, rest);
    UptoPrefix(Values(p.performed), Values(rest), |Values(p.pushed)|);
  }

  lemma StepKeeps(p: Pipe, size: nat, a: Action)
    requires Inv(p)
    ensures Inv(Step(p, size, a)) && Step(p, size, a).published >= p.published
    ensures p.enqueued <= Step(p, size, a).enqueued && p.executed <= Step(p, size, a).executed
    ensures p.performed <= Step(p, size, a).performed
    ensures p.pushed <= Step(p, size, a).pushed && p.rendered <= Step(p, size, a).rendered
  {
    hide Signals, Values, Upto, Inv, OpOf, IsSignal, SignalValue, SignalWords, Size;
    if Enabled(p, size, a) {
      match a
      case Enqueue(words) => EnqueueKeeps(p, words);
      case Signal => SignalKeeps(p);
      case Take => TakeKeeps(p);
      case Render => RenderKeeps(p);
      case PushFence => PushFenceKeeps(p);
      case PushSignal => PushSignalKeeps(p);
      case Finish => FinishKeeps(p);
      case Pop => PopKeeps(p);
      case Perform => PerformKeeps(p);
      case Notify => NotifyKeeps(p);
    }
  }

  lemma CoveredStep(p: Pipe, size: nat, a: Action)
    requires Origins(p) && Covered(p)
    ensures Covered(Step(p, size, a))
  {
    hide OpOf, IsSignal, SignalValue, SignalWords, Size, Fenced, Origins;
    if Enabled(p, size, a) {
      if a.PushFence? {
        CoveredFence(p);
      } else if a.PushSignal? {
        CoveredSignal(p);
      } else if a.Render? {
        assert forall j :: 0 <= j < |p.pushed| ==> p.pushed[j].origin <= |p.executed| by {
          OriginsPast(p);
        }
      }
    }
  }

  lemma OriginsPast(p: Pipe)
    requires Origins(p)
    ensures forall j :: 0 <= j < |p.pushed| ==> p.pushed[j].origin <= |p.executed|
  {
    hide OpOf, SignalValue;
  }

  lemma FencedGrows(ops: seq<CoherencyOp>, op: CoherencyOp, n: nat, c: nat)
    requires Fenced(ops, n, c) && n <= |ops|
    ensures Fenced(ops + [op], n, c) && Fenced(ops + [op], n + 1, c)
  {
    if c > 0 {
      var i :| 0 <= i < n && ops[i].fence && ops[i].covers == c;
      assert (ops + [op])[i] == ops[i];
    }
  }

  lemma CoveredFence(p: Pipe)
    requires Covered(p)
    ensures Covered(Push(p, CoherencyOp(true, 0, |p.executed|, |p.rendered|)).(handed := |p.rendered|))
  {
    var op := CoherencyOp(true, 0, |p.executed|, |p.rendered|);
    var ops := p.pushed + [op];
    assert ops[|p.pushed|] == op;
    assert Fenced(ops, |ops|, |p.rendered|);
    forall j | 0 <= j < |ops| && ops[j].value != 0 ensures Fenced(ops, j, ops[j].covers) {
      FencedGrows(p.pushed, op, j, p.pushed[j].covers);
    }
  }

  lemma CoveredSignal(p: Pipe)
    requires Covered(p) && p.current.Some? && IsSignal(p.current.value) && p.handed == |p.rendered|
    ensures Covered(Push(p, SignalOp(p)).(signalled := true))
  {
    hide OpOf, SignalValue, Fenced;
    var op := SignalOp(p);
    var ops := p.pushed + [op];
    FencedGrows(p.pushed, op, |p.pushed|, p.handed);
    forall j | 0 <= j < |ops| && ops[j].value != 0 ensures Fenced(ops, j, ops[j].covers) {
      if j < |p.pushed| {
        FencedGrows(p.pushed, op, j, p.pushed[j].covers);
      }
    }
  }

  lemma {:induction false} RunKeeps(size: nat, schedule: seq<Action>)
    ensures Inv(Run(size, schedule)) && Covered(Run(size, schedule))
  {
    hide Inv, Covered, Step;
    if schedule == [] {
      StartOk();
    } else {
      var before := Run(size, schedule[..|schedule| - 1]);
      RunKeeps(size, schedule[..|schedule| - 1]);
      StepKeeps(before, size, schedule[|schedule| - 1]);
      InOrder(before);
      CoveredStep(before, size, schedule[|schedule| - 1]);
    }
  }

  lemma InOrder(p: Pipe)
    requires Inv(p)
    ensures Origins(p)
  {
  }

  lemma StartOk()
    ensures Inv(START) && Covered(START)
  {
  }

  // ---- what a published value means -----------------------------------------------------------

  lemma {:induction false} SignalsAt(ms: seq<Message>, k: nat)
    requires k < |ms| && IsSignal(ms[k])
    ensures |Signals(ms[..k])| < |Signals(ms)| && Signals(ms)[|Signals(ms[..k])|] == SignalValue(ms[k])
  {
    assert ms == ms[..k] + ([ms[k]] + ms[k + 1..]);
    SignalsConcat(ms[..k], [ms[k]] + ms[k + 1..]);
    SignalsConcat([ms[k]], ms[k + 1..]);
    OneSignal(ms[k]);
  }

  /** The k-th message being the signal for v, v - 1 signals precede it. */
  lemma SignalPosition(p: Pipe, k: nat)
    requires Inv(p) && k < |p.enqueued| && IsSignal(p.enqueued[k])
    ensures SignalValue(p.enqueued[k]) == |Signals(p.enqueued[..k])| + 1
  {
    hide OpOf, SignalValue, IsSignal, Signals, Values, Origins;
    SignalsAt(p.enqueued, k);
  }

  /** When a value has been published, every message before its signal has been executed. */
  lemma ExecutedBefore(p: Pipe, k: nat)
    requires Inv(p) && k < |p.enqueued| && IsSignal(p.enqueued[k]) && SignalValue(p.enqueued[k]) <= p.published
    ensures k <= |p.executed|
  {
    hide OpOf, SignalValue, Signals, Values, Upto, Origins;
    SignalPosition(p, k);
    PublishedAtMost(p);
    if k > |p.executed| {
      var n := |p.executed|;
      assert p.enqueued[..k] == p.executed + p.enqueued[n..k];
      SignalsConcat(p.executed, p.enqueued[n..k]);
      if p.signalled {
        assert p.enqueued[n..k] == [p.current.value] + p.enqueued[n + 1..k];
        SignalsConcat([p.current.value], p.enqueued[n + 1..k]);
        OneSignal(p.current.value);
      }
    }
  }

  lemma PublishedAtMost(p: Pipe)
    requires Inv(p)
    ensures p.published <= |Signals(p.executed)| + (if p.signalled then 1 else 0)
    ensures p.published <= |Values(p.performed)|
  {
    hide OpOf, SignalValue, IsSignal, Signals, Values, Origins;
    assert p.pushed == Notified(p) + p.pushed[|Notified(p)|..];
    ValuesConcat(Notified(p), p.pushed[|Notified(p)|..]);
    assert p.performed == Notified(p) + p.performed[|Notified(p)|..];
    ValuesConcat(Notified(p), p.performed[|Notified(p)|..]);
  }

  lemma {:induction false} ValueAt(ops: seq<CoherencyOp>, n: nat) returns (j: nat)
    requires n < |Values(ops)|
    ensures j < |ops| && ops[j].value != 0 && ops[j].value == Values(ops)[n]
  {
    var last := ops[|ops| - 1];
    if last.value != 0 && n == |Values(ops)| - 1 {
      j := |ops| - 1;
    } else {
      j := ValueAt(ops[..|ops| - 1], n);
    }
  }

  /** The value of signal k has been handed over and published: where, and that everything up to it is performed. */
  ghost predicate DoneAt(p: Pipe, k: nat, j: nat) {
    && k < |p.enqueued| && IsSignal(p.enqueued[k])
    && j < |p.performed| <= |p.pushed|
    && p.pushed[j].origin == k && p.pushed[j].value == SignalValue(p.enqueued[k])
    && forall i :: 0 <= i <= j ==> p.performed[i] == p.pushed[i]
  }

  /** Main result. In every interleaving, once the value of a signal is published, every message enqueued before
      the signal has been executed, everything handed over up to the value itself has been performed, and the
      rendering of those messages has been waited for. */
  lemma PublishedMeansDone(size: nat, schedule: seq<Action>, k: nat)
    requires var p := Run(size, schedule);
      k < |p.enqueued| && IsSignal(p.enqueued[k]) && SignalValue(p.enqueued[k]) <= p.published
    ensures var p := Run(size, schedule);
      && p.executed <= p.enqueued && k <= |p.executed|
      && p.performed <= p.pushed
      && (exists j :: DoneAt(p, k, j))
      && (forall i :: 0 <= i < |p.pushed| && p.pushed[i].origin < k ==> i < |p.performed|)
      && (forall a :: 0 <= a < |p.rendered| && p.rendered[a] < k ==> Waited(p, a))
  {
    hide Run, Signals, Values, Upto, OpOf, Covered;
    var p := Run(size, schedule);
    RunKeeps(size, schedule);
    ExecutedBefore(p, k);
    var j := SignalDone(p, k);
    forall i | 0 <= i < |p.pushed| && p.pushed[i].origin < k ensures i < |p.performed| {
      EarlierOrigin(p, i, j);
    }
    forall a | 0 <= a < |p.rendered| && p.rendered[a] < k ensures Waited(p, a) {
      RenderingWaited(p, k, j, a);
    }
  }

  /** Batch a has been submitted behind a fence that has been waited for. */
  ghost predicate Waited(p: Pipe, a: nat) {
    exists i :: 0 <= i < |p.performed| && p.performed[i].fence && a < p.performed[i].covers
  }

  lemma RenderingWaited(p: Pipe, k: nat, j: nat, a: nat)
    requires Covered(p) && DoneAt(p, k, j) && p.pushed[j].value != 0 && a < |p.rendered| && p.rendered[a] < k
    ensures Waited(p, a)
  {
    hide OpOf, SignalValue;
    assert a < p.pushed[j].covers;
    var i :| 0 <= i < j && p.pushed[i].fence && p.pushed[i].covers == p.pushed[j].covers;
    assert p.performed[i] == p.pushed[i];
  }

  lemma EarlierOrigin(p: Pipe, i: nat, j: nat)
    requires Origins(p) && i < |p.pushed| && j < |p.pushed| && p.pushed[i].origin < p.pushed[j].origin
    ensures i < j
  {
  }

  /** The work that publishes the value of signal k has been performed, and all work before it. */
  lemma SignalDone(p: Pipe, k: nat) returns (j: nat)
    requires Inv(p) && k < |p.enqueued| && IsSignal(p.enqueued[k]) && SignalValue(p.enqueued[k]) <= p.published
    ensures DoneAt(p, k, j) && p.pushed[j].value != 0
  {
    hide OpOf, SignalValue, Signals, Values, Upto;
    var v := SignalValue(p.enqueued[k]);
    PublishedAtMost(p);
    SignalPosition(p, k);
    PerformedValues(p);
    j := ValueAt(p.performed, v - 1);
    UptoAt(|Values(p.performed)|, v - 1);
    assert forall i :: 0 <= i < |p.performed| ==> p.pushed[i] == p.performed[i];
    var o := p.pushed[j].origin;
    SignalPosition(p, o);
    if o < k {
      SignalsBetween(p.enqueued, o, k);
    } else if k < o {
      SignalsBetween(p.enqueued, k, o);
    }
  }

  lemma UptoAt(n: nat, i: nat)
    requires i < n
    ensures Upto(n)[i] == i + 1
  {
  }

  lemma SignalsBetween(ms: seq<Message>, a: nat, b: nat)
    requires a < b <= |ms| && IsSignal(ms[a])
    ensures |Signals(ms[..a])| < |Signals(ms[..b])|
  {
    SignalsAt(ms[..b], a);
    assert ms[..b][..a] == ms[..a];
  }

  lemma {:induction false} RunGrows(size: nat, before: seq<Action>, rest: seq<Action>)
    ensures var p, q := Run(size, before), Run(size, before + rest);
      && p.enqueued <= q.enqueued && p.executed <= q.executed && p.performed <= q.performed
      && p.pushed <= q.pushed && p.rendered <= q.rendered && p.published <= q.published
  {
    hide Inv, Step;
    if rest == [] {
      assert before + rest == before;
    } else {
      var earlier := before + rest[..|rest| - 1];
      assert (before + rest)[..|before + rest| - 1] == earlier;
      RunGrows(size, before, rest[..|rest| - 1]);
      RunKeeps(size, earlier);
      StepKeeps(Run(size, earlier), size, rest[|rest| - 1]);
    }
  }

  /** A client that asks for a timeline value and later sees it published knows that everything it had enqueued
      before has been executed, that everything handed over before it asked has been performed, and that all
      rendering batched before it asked has been waited for, whatever the threads did in between. */
  lemma WaitedMeansDone(size: nat, before: seq<Action>, rest: seq<Action>)
    requires Enabled(Run(size, before), size, Signal)
    requires Run(size, before + [Signal] + rest).published >= Run(size, before).timeline + 1
    ensures var p, q := Run(size, before), Run(size, before + [Signal] + rest);
      && p.enqueued <= q.executed
      && p.pushed <= q.performed
      && p.rendered <= q.rendered
      && (exists j :: DoneAt(q, |p.enqueued|, j))
      && (forall a :: 0 <= a < |p.rendered| ==> Waited(q, a))
  {
    hide Run, Step, Inv, Covered, Enabled, OpOf, IsSignal, SignalWords, SignalValue;
    var p, asked := Run(size, before), before + [Signal];
    var k := |p.enqueued|;
    Asked(size, before);
    RunGrows(size, asked, rest);
    RunKeeps(size, before);
    var q := Run(size, asked + rest);
    PublishedMeansDone(size, asked + rest, k);
    var j :| DoneAt(q, k, j);
    InOrder(p);
    HandedOverBefore(p, q, j);
    RenderedBefore(p);
    assert forall a :: 0 <= a < |p.rendered| ==> q.rendered[a] == p.rendered[a] < k;
  }

  /** Asking enqueues the signal and changes nothing else a client could wait for. */
  lemma Asked(size: nat, before: seq<Action>)
    requires Enabled(Run(size, before), size, Signal)
    ensures var p, q, m := Run(size, before), Run(size, before + [Signal]), SignalWords(Run(size, before).timeline + 1);
      && q.enqueued == p.enqueued + [m] && IsSignal(m) && SignalValue(m) == p.timeline + 1
      && q.pushed == p.pushed && q.rendered == p.rendered
  {
    hide Inv, OpOf, SignalWords, SignalValue;
    assert (before + [Signal])[..|before|] == before;
    SignalRoundTrip(Run(size, before).timeline + 1);
  }

  /** What had been handed over when the client asked lies before the work that publishes its value. */
  lemma HandedOverBefore(p: Pipe, q: Pipe, j: nat)
    requires Origins(p) && p.pushed <= q.pushed && DoneAt(q, |p.enqueued|, j) && q.pushed[j].value != 0
    ensures p.pushed <= q.performed
  {
    hide OpOf, SignalValue, IsSignal;
    forall i | 0 <= i < |p.pushed| && q.pushed[i].value != 0 ensures q.pushed[i].origin < |p.enqueued| {
      assert p.pushed[i] == q.pushed[i];
    }
  }

  lemma RenderedBefore(p: Pipe)
    requires Inv(p) && Covered(p)
    ensures forall a :: 0 <= a < |p.rendered| ==> p.rendered[a] < |p.enqueued|
  {
    hide OpOf, SignalValue, Signals, Values, Upto, Origins, Numbered, Fenced;
  }

  /** The timeline thread never takes work for the request to stop, so it keeps going. */
  lemma WorkerKeepsGoing(size: nat, schedule: seq<Action>)
    ensures var p := Run(size, schedule); p.popped.Some? ==> !IsSentinel(p.popped.value)
  {
    hide Run;
    var p := Run(size, schedule);
    RunKeeps(size, schedule);
    if p.popped.Some? {
      var i := if p.waited then |p.performed| - 1 else |p.performed|;
      assert p.pushed[i] == p.popped.value;
    }
  }

  /** The renderer submits what it has batched. */
  function Flushed(p: Pipe, size: nat): Pipe { if p.handed < |p.rendered| then Step(p, size, PushFence) else p }

  /** No deadlock: while a message is unexecuted or a value unpublished, the command thread or the
      timeline thread can go on by itself, at most after submitting what is batched. */
  lemma NeverStuck(size: nat, schedule: seq<Action>)
    requires var p := Run(size, schedule); p.executed != p.enqueued || p.published < p.timeline
    ensures var p := Flushed(Run(size, schedule), size);
      Enabled(p, size, Take) || Enabled(p, size, PushSignal) || Enabled(p, size, Finish) ||
      Enabled(p, size, Pop) || Enabled(p, size, Perform) || Enabled(p, size, Notify)
  {
    hide Run, Signals, Values, OpOf, SignalValue;
    var p := Run(size, schedule);
    RunKeeps(size, schedule);
    if p.current.None? && p.queue == [] && p.popped.None? {
      assert p.executed == p.enqueued;
      assert |Upto(p.timeline)| > |Upto(p.published)|;
      assert p.performed + p.work != p.performed;
    }
  }
}
