/** The video interface: registers latched per scanline, and the decoding that bounds every later access. */
module Video {
  import opened Words

  const V_SYNC_NTSC: int := 525
  const H_OFFSET_NTSC: int := 108
  const H_OFFSET_PAL: int := 128
  const V_OFFSET_NTSC: int := 34
  const V_OFFSET_PAL: int := 44
  const V_END_NTSC: int := 515
  const V_END_PAL: int := 621
  const V_END_MAX: int := 621
  const SCANOUT_WIDTH: int := 640
  const MAX_OUTPUT_SCANLINES: int := 288

  // ---- latching, on values ----------------------------------------------------------------------

  /** A latch that was accepted: from this line on, the registers have these values. */
  datatype Entry = Entry(line: nat, hStart: Word32, xScale: Word32)

  datatype Event =
    | WriteHStart(value: Word32)
    | WriteXScale(value: Word32)
    | Begin(h: bool, x: bool)
    | SetHStart(value: Word32)
    | SetXScale(value: Word32)
    | LatchAt(line: nat)
    | End
    | Scanout

  /** The global registers, the values waiting to be latched, which registers are flagged, the latches accepted
      since the beginning, and how many of them there were when latching ended. */
  datatype Latching = Latching(hReg: Word32, xReg: Word32, hStart: Word32, xScale: Word32, hFlag: bool, xFlag: bool,
                               ended: bool, accepted: seq<Entry>, atEnd: nat)

  /** Everything zero; line 0 counts as latched. */
  const IDLE := Latching(0, 0, 0, 0, false, false, false, [Entry(0, 0, 0)], 0)

  function LastLine(es: seq<Entry>): nat { if es == [] then 0 else es[|es| - 1].line }

  /** Unflagged registers cannot be set; a latch that does not move forward is ignored; only the first end after
      a beginning that flags something counts. A latch after the end is accepted. */
  function Happens(s: Latching, e: Event): Latching {
    match e
    case WriteHStart(v) => s.(hReg := v)
    case WriteXScale(v) => s.(xReg := v)
    case Begin(h, x) =>
      s.(hStart := s.hReg, xScale := s.xReg, hFlag := h, xFlag := x, ended := false,
         accepted := [Entry(0, s.hReg, s.xReg)])
    case SetHStart(v) => if s.hFlag then s.(hStart := v) else s
    case SetXScale(v) => if s.xFlag then s.(xScale := v) else s
    case LatchAt(line) =>
      var at := Min(line, V_END_MAX - 1);
      if at <= LastLine(s.accepted) then s else s.(accepted := s.accepted + [Entry(at, s.hStart, s.xScale)])
    case End => if (s.hFlag || s.xFlag) && !s.ended then s.(ended := true, atEnd := |s.accepted|) else s
    case Scanout => s.(hFlag := false, xFlag := false, ended := false)
  }

  function After(es: seq<Event>): Latching {
    if es == [] then IDLE else Happens(After(es[..|es| - 1]), es[|es| - 1])
  }

  ghost predicate Increasing(es: seq<Entry>) {
    && es != [] && es[0].line == 0
    && forall i, j :: 0 <= i < j < |es| ==> es[i].line < es[j].line
  }

  /** The accepted latch in force at line k. */
  function InForce(es: seq<Entry>, k: nat): (e: Entry)
    requires es != []
    ensures e in es
  {
    var last := es[|es| - 1];
    if |es| == 1 || last.line <= k then last else InForce(es[..|es| - 1], k)
  }

  /** It is the one with the greatest line not above k. */
  lemma {:induction false} InForceIsGreatest(es: seq<Entry>, k: nat)
    requires Increasing(es)
    ensures InForce(es, k).line <= k
    ensures forall e :: e in es && e.line <= k ==> e.line <= InForce(es, k).line
  {
    if |es| > 1 && es[|es| - 1].line > k {
      InForceIsGreatest(es[..|es| - 1], k);
    }
  }

  lemma IncreasingSnoc(es: seq<Entry>, e: Entry)
    requires es != [] && Increasing(es) && LastLine(es) < e.line
    ensures Increasing(es + [e]) && LastLine(es + [e]) == e.line
  {
  }

  lemma InForceSnoc(es: seq<Entry>, e: Entry, k: nat)
    requires es != []
    ensures InForce(es + [e], k) == if e.line <= k then e else InForce(es, k)
  {
    assert (es + [e])[..|es|] == es;
  }

  /** What the code keeps: latches move forward, inside the frame. */
  ghost predicate Reached(s: Latching) {
    && s.accepted != [] && Increasing(s.accepted) && LastLine(s.accepted) < V_END_MAX
    && (s.ended ==> 1 <= s.atEnd <= |s.accepted|)
  }

  lemma {:induction false} AfterReached(es: seq<Event>)
    ensures Reached(After(es))
  {
    if es != [] {
      AfterReached(es[..|es| - 1]);
      HappensReached(After(es[..|es| - 1]), es[|es| - 1]);
    }
  }

  lemma HappensReached(s: Latching, e: Event)
    requires Reached(s)
    ensures Reached(Happens(s, e))
  {
    hide Increasing;
    if e.LatchAt? && Min(e.line, V_END_MAX - 1) > LastLine(s.accepted) {
      IncreasingSnoc(s.accepted, Entry(Min(e.line, V_END_MAX - 1), s.hStart, s.xScale));
    } else if e.Begin? {
      IncreasingOne(Entry(0, s.hReg, s.xReg));
    }
  }

  lemma IncreasingOne(e: Entry)
    requires e.line == 0
    ensures Increasing([e])
  {
  }

  /** Once latching has ended, line k has the values of this entry: below the last latch, those of the last latch
      before the end. */
  function Held(s: Latching, k: nat): Entry
    requires 1 <= s.atEnd <= |s.accepted|
  {
    if k <= LastLine(s.accepted) then InForce(s.accepted, k) else s.accepted[s.atEnd - 1]
  }

  predicate SameValues(a: Entry, b: Entry) { a.hStart == b.hStart && a.xScale == b.xScale }

  /** The last accepted latch reaches the end of the frame, or changes nothing since latching ended. */
  predicate NothingLate(s: Latching)
    requires 1 <= s.atEnd <= |s.accepted|
  {
    LastLine(s.accepted) == V_END_MAX - 1 || SameValues(s.accepted[|s.accepted| - 1], s.accepted[s.atEnd - 1])
  }

  /** Every line has the values of the accepted latch in force there exactly when nothing came late. */
  lemma HeldIff(s: Latching)
    requires Reached(s) && s.ended
    ensures (forall k :: 0 <= k < V_END_MAX ==> SameValues(Held(s, k), InForce(s.accepted, k))) <==> NothingLate(s)
  {
    var last := s.accepted[|s.accepted| - 1];
    assert forall k :: k >= last.line ==> InForce(s.accepted, k) == last;
    if !NothingLate(s) {
      assert !SameValues(Held(s, V_END_MAX - 1), InForce(s.accepted, V_END_MAX - 1));
    }
  }

  /** Who never latches after the end, before beginning anew, has every line right. */
  lemma {:induction false} NoneLate(es: seq<Event>)
    requires forall n :: 0 <= n < |es| && es[n].LatchAt? ==> !After(es[..n]).ended
    ensures Reached(After(es))
    ensures After(es).ended ==> After(es).atEnd == |After(es).accepted| && NothingLate(After(es))
  {
    hide Happens, Increasing;
    AfterReached(es);
    if es != [] {
      var most := es[..|es| - 1];
      assert forall n :: 0 <= n < |most| ==> most[..n] == es[..n];
      NoneLate(most);
      NoneLateStep(After(most), es[|es| - 1]);
    }
  }

  /** A latch after the end is taken, but the lines below it keep the values from before. */
  lemma LateLatch(v: Word32)
    requires v != 0
    ensures var s := After([Begin(true, false), LatchAt(10), End, SetHStart(v), LatchAt(20), End]);
      && s.ended && s.atEnd == 2 && s.accepted == [Entry(0, 0, 0), Entry(10, 0, 0), Entry(20, v, 0)]
      && !NothingLate(s) && Held(s, 30).hStart == 0 && InForce(s.accepted, 30).hStart == v
  {
    hide After;
    var e3 := [Begin(true, false)] + [LatchAt(10)] + [End];
    var es := e3 + [SetHStart(v)] + [LatchAt(20)] + [End];
    assert After(e3) ==
      IDLE.(hFlag := true, ended := true, accepted := [Entry(0, 0, 0), Entry(10, 0, 0)], atEnd := 2) by {
      AfterNone();
      AfterSnoc([], Begin(true, false));
      assert [] + [Begin(true, false)] == [Begin(true, false)];
      AfterSnoc([Begin(true, false)], LatchAt(10));
      AfterSnoc([Begin(true, false)] + [LatchAt(10)], End);
    }
    AfterSnoc(e3, SetHStart(v));
    AfterSnoc(e3 + [SetHStart(v)], LatchAt(20));
    AfterSnoc(e3 + [SetHStart(v)] + [LatchAt(20)], End);
    assert es == [Begin(true, false), LatchAt(10), End, SetHStart(v), LatchAt(20), End];
  }

  /** A latch goes to the line it names, or the last one, and is ignored if that line is not below all earlier ones;
      a frame ends latching, and only a new beginning makes another end count. */
  lemma CallsMean(s: Latching, line: nat)
    requires Reached(s)
    ensures var l, s' := Happens(s, LatchAt(line)), Happens(s, Scanout);
      && (line > LastLine(s.accepted) && LastLine(s.accepted) < 620 ==>
            l.accepted == s.accepted + [Entry(if line < 620 then line else 620, s.hStart, s.xScale)])
      && (line <= LastLine(s.accepted) || LastLine(s.accepted) == 620 ==> l == s)
      && !s'.ended && !Happens(s', End).ended && s'.accepted == s.accepted
  {
    hide Increasing;
  }

  /** The intended use: the global value up to line a, the first latched value up to line b, the second from there
      on. A register that is not flagged keeps its global value throughout. */
  lemma IntendedUse(h: bool, v0: Word32, v1: Word32, v2: Word32, w: Word32, a: nat, b: nat, k: nat)
    requires 0 < a < b < V_END_MAX && k < V_END_MAX
    ensures var s := After(Intended(h, v0, v1, v2, w, a, b));
      var v := if k < a then v0 else if k < b then v1 else v2;
      && Reached(s) && s.ended && NothingLate(s)
      && Held(s, k).hStart == (if h then v else w) && Held(s, k).xScale == if h then w else v
  {
    hide After, Happens, Intended, Increasing;
    AfterReached(Intended(h, v0, v1, v2, w, a, b));
    IntendedState(h, v0, v1, v2, w, a, b);
    var e0, e1, e2 := Latch(h, 0, v0, w), Latch(h, a, v1, w), Latch(h, b, v2, w);
    InForceSnoc([e0] + [e1], e2, k);
    InForceSnoc([e0], e1, k);
  }

  function Latch(h: bool, line: nat, v: Word32, w: Word32): Entry {
    Entry(line, if h then v else w, if h then w else v)
  }

  lemma IntendedState(h: bool, v0: Word32, v1: Word32, v2: Word32, w: Word32, a: nat, b: nat)
    requires 0 < a < b < V_END_MAX
    ensures var s := After(Intended(h, v0, v1, v2, w, a, b));
      && s.ended && s.atEnd == 3
      && s.accepted == [Latch(h, 0, v0, w)] + [Latch(h, a, v1, w)] + [Latch(h, b, v2, w)]
  {
    hide After;
    var es := Intended(h, v0, v1, v2, w, a, b);
    AfterNone();
    StepTo(es, 0);
    StepTo(es, 1);
    StepTo(es, 2);
    StepTo(es, 3);
    StepTo(es, 4);
    StepTo(es, 5);
    StepTo(es, 6);
    StepTo(es, 7);
    StepTo(es, 8);
    StepTo(es, 9);
    assert es[..0] == [] && es[..10] == es;
  }

  /** Register h is latched per scanline: H start, or else X scale; the other one is set in vain. */
  function Intended(h: bool, v0: Word32, v1: Word32, v2: Word32, w: Word32, a: nat, b: nat): seq<Event> {
    [WriteHStart(if h then v0 else w), WriteXScale(if h then w else v0), Begin(h, !h),
     SetHStart(v1), SetXScale(v1), LatchAt(a), SetHStart(v2), SetXScale(v2), LatchAt(b), End]
  }

  lemma StepTo(es: seq<Event>, n: nat)
    requires n < |es|
    ensures After(es[..n + 1]) == Happens(After(es[..n]), es[n])
  {
    AfterSnoc(es[..n], es[n]);
    assert es[..n + 1] == es[..n] + [es[n]];
  }

  lemma AfterSnoc(es: seq<Event>, e: Event)
    ensures After(es + [e]) == Happens(After(es), e)
  {
    assert (es + [e])[..|es|] == es;
  }

  // ---- the arrays of line values --------------------------------------------------------------------

  /** Line k has the values of the accepted latch in force there. */
  predicate LineShows(h: seq<Word32>, x: seq<Word32>, k: nat, es: seq<Entry>)
    requires |h| == |x| == V_END_MAX && k < V_END_MAX && es != []
  {
    h[k] == InForce(es, k).hStart && x[k] == InForce(es, k).xScale
  }

  function HStartOf(e: Entry): Word32 { e.hStart }
  function XScaleOf(e: Entry): Word32 { e.xScale }

  /** Up to the last latch, every line does; once latching has ended, the lines below it have what they were
      given then. */
  ghost predicate Fit(h: seq<Word32>, x: seq<Word32>, s: Latching)
    requires Reached(s) && |h| == |x| == V_END_MAX
  {
    ColumnFits(h, HStartOf, s) && ColumnFits(x, XScaleOf, s)
  }

  ghost predicate ColumnFits(vs: seq<Word32>, value: Entry -> Word32, s: Latching)
    requires Reached(s) && |vs| == V_END_MAX
  {
    && (forall k :: 0 <= k <= LastLine(s.accepted) ==> vs[k] == value(InForce(s.accepted, k)))
    && (s.ended ==> forall k :: LastLine(s.accepted) < k < V_END_MAX ==> vs[k] == value(s.accepted[s.atEnd - 1]))
  }

  /** The value of line from repeated up to line to, exclusive. */
  function Repeated(vs: seq<Word32>, from: nat, to: nat): (r: seq<Word32>)
    requires from < to <= |vs|
  {
    seq(|vs|, k requires 0 <= k < |vs| => if from < k < to then vs[from] else vs[k])
  }

  lemma LatchFits(h: seq<Word32>, x: seq<Word32>, s: Latching, at: nat)
    requires Reached(s) && |h| == |x| == V_END_MAX && Fit(h, x, s) && LastLine(s.accepted) < at < V_END_MAX
    ensures Reached(Happens(s, LatchAt(at)))
    ensures Fit(Repeated(h, LastLine(s.accepted), at)[at := s.hStart],
                Repeated(x, LastLine(s.accepted), at)[at := s.xScale], Happens(s, LatchAt(at)))
  {
    hide Increasing, ColumnFits, Happens, Repeated;
    ColumnLatched(h, HStartOf, s, at);
    ColumnLatched(x, XScaleOf, s, at);
  }

  lemma ColumnLatched(vs: seq<Word32>, value: Entry -> Word32, s: Latching, at: nat)
    requires Reached(s) && |vs| == V_END_MAX && ColumnFits(vs, value, s) && LastLine(s.accepted) < at < V_END_MAX
    ensures Reached(Happens(s, LatchAt(at)))
    ensures ColumnFits(Repeated(vs, LastLine(s.accepted), at)[at := value(Entry(at, s.hStart, s.xScale))], value,
                       Happens(s, LatchAt(at)))
  {
    hide Increasing;
    var e, last := Entry(at, s.hStart, s.xScale), s.accepted[|s.accepted| - 1];
    HappensReached(s, LatchAt(at));
    forall k: nat
      ensures InForce(s.accepted + [e], k) == if at <= k then e else InForce(s.accepted, k)
      ensures k >= last.line ==> InForce(s.accepted, k) == last
    {
      InForceSnoc(s.accepted, e, k);
    }
  }

  lemma NoneLateStep(s: Latching, e: Event)
    requires Reached(s) && (s.ended ==> s.atEnd == |s.accepted|) && (e.LatchAt? ==> !s.ended)
    ensures Happens(s, e).ended ==> Happens(s, e).atEnd == |Happens(s, e).accepted|
  {
  }

  lemma BeginFits(h: seq<Word32>, x: seq<Word32>, s: Latching)
    requires |h| == |x| == V_END_MAX && s.accepted == [Entry(0, h[0], x[0])] && !s.ended
    ensures Reached(s) && Fit(h, x, s)
  {
    IncreasingOne(s.accepted[0]);
  }

  lemma EndFits(h: seq<Word32>, x: seq<Word32>, s: Latching)
    requires Reached(s) && |h| == |x| == V_END_MAX && Fit(h, x, s) && !s.ended
    ensures Reached(s.(ended := true, atEnd := |s.accepted|))
    ensures Fit(Repeated(h, LastLine(s.accepted), V_END_MAX), Repeated(x, LastLine(s.accepted), V_END_MAX),
                s.(ended := true, atEnd := |s.accepted|))
  {
    hide Increasing;
    assert InForce(s.accepted, LastLine(s.accepted)) == s.accepted[|s.accepted| - 1];
  }

  // ---- decoding one line --------------------------------------------------------------------------

  datatype HorizontalInfo = HorizontalInfo(hStart: int, hStartClamp: int, hEndClamp: int, xStart: int, xAdd: int,
                                           yStart: int, yAdd: int, yBase: int)

  const CLEARED := HorizontalInfo(0, 0, 0, 0, 0, 0, 0, 0)

  function High12(x: Word32): int { (x / 0x1_0000) % 0x1000 }
  function Low12(x: Word32): int { x % 0x1000 }
  function High10(x: Word32): int { (x / 0x1_0000) % 0x400 }
  function Low10(x: Word32): int { x % 0x400 }

  /** What one line contributes: its entry and its part of the bounding boxes. */
  datatype Line = Line(info: HorizontalInfo, hEnd: int, maxX: int)

  function AnalyzeLine(isPal: bool, xScale: Word32, hStartReg: Word32, yStart: int, yAdd: int): (l: Line)
    ensures 0 <= l.info.hStart && l.hEnd <= SCANOUT_WIDTH
  {
    var offset := if isPal then H_OFFSET_PAL else H_OFFSET_NTSC;
    var h0, end0 := High10(hStartReg) - offset, Low10(hStartReg) - offset;
    var xAdd := Low12(xScale);
    var left, right := h0 < 0, end0 > SCANOUT_WIDTH;
    var xStart := if left then High12(xScale) - xAdd * h0 else High12(xScale);
    var hStart := if left then 0 else h0;
    var hEnd := if right then SCANOUT_WIDTH else end0;
    Line(HorizontalInfo(hStart, hStart + if left then 0 else 8, hEnd - if right then 0 else 7,
                        xStart, xAdd, yStart, yAdd, 0),
         hEnd, (xStart + (hEnd - hStart) * xAdd) / 1024)
  }

  /** Where pixel p of a line is sampled, in units of 1/1024 of a texel. */
  function SampleAt(info: HorizontalInfo, p: int): int { info.xStart + (p - info.hStart) * info.xAdd }

  /** A line begins and ends where its register says, cut to the picture, and cutting it does not move what its pixels
      sample. Sides that are not cut are shrunk by 8 and 7 pixels. */
  lemma LineMeans(isPal: bool, xScale: Word32, hStartReg: Word32, yStart: int, yAdd: int)
    ensures var l, o := AnalyzeLine(isPal, xScale, hStartReg, yStart, yAdd), if isPal then 128 else 108;
      var h: int, e: int := hStartReg / 0x1_0000 % 0x400 - o, hStartReg % 0x400 - o;
      var i := l.info;
      && i.hStart == (if h < 0 then 0 else h) && l.hEnd == (if e > 640 then 640 else e)
      && i.xAdd == xScale % 0x1000
      && (forall p :: SampleAt(i, p) == xScale / 0x1_0000 % 0x1000 + (p - h) * i.xAdd)
      && i.hStartClamp == i.hStart + (if h < 0 then 0 else 8) && i.hEndClamp == l.hEnd - (if e > 640 then 0 else 7)
      && 1024 * l.maxX <= SampleAt(i, l.hEnd) < 1024 * l.maxX + 1024
      && i.yStart == yStart && i.yAdd == yAdd && i.yBase == 0
  {
    hide AnalyzeLine;
    var l, o := AnalyzeLine(isPal, xScale, hStartReg, yStart, yAdd), if isPal then 128 else 108;
    var h: int, first: int := hStartReg / 0x1_0000 % 0x400 - o, xScale / 0x1_0000 % 0x1000;
    LineEdges(isPal, xScale, hStartReg, yStart, yAdd);
    LineOrigin(isPal, xScale, hStartReg, yStart, yAdd);
    LineReach(isPal, xScale, hStartReg, yStart, yAdd);
    forall p ensures SampleAt(l.info, p) == first + (p - h) * l.info.xAdd {
      Moved(p, h, l.info.hStart, l.info.xAdd);
    }
  }

  lemma LineEdges(isPal: bool, xScale: Word32, hStartReg: Word32, yStart: int, yAdd: int)
    ensures var l, o := AnalyzeLine(isPal, xScale, hStartReg, yStart, yAdd), if isPal then 128 else 108;
      var h: int, e: int := hStartReg / 0x1_0000 % 0x400 - o, hStartReg % 0x400 - o;
      var i := l.info;
      && i.hStart == (if h < 0 then 0 else h) && l.hEnd == (if e > 640 then 640 else e)
      && i.xAdd == xScale % 0x1000
      && i.hStartClamp == i.hStart + (if h < 0 then 0 else 8) && i.hEndClamp == l.hEnd - (if e > 640 then 0 else 7)
      && i.yStart == yStart && i.yAdd == yAdd && i.yBase == 0
  {
  }

  lemma LineOrigin(isPal: bool, xScale: Word32, hStartReg: Word32, yStart: int, yAdd: int)
    ensures var i, o := AnalyzeLine(isPal, xScale, hStartReg, yStart, yAdd).info, if isPal then 128 else 108;
      var h: int := hStartReg / 0x1_0000 % 0x400 - o;
      i.xStart == xScale / 0x1_0000 % 0x1000 + if h < 0 then -h * i.xAdd else 0
  {
    var h: int := hStartReg / 0x1_0000 % 0x400 - if isPal then 128 else 108;
    Negated(-h, xScale % 0x1000);
  }

  lemma LineReach(isPal: bool, xScale: Word32, hStartReg: Word32, yStart: int, yAdd: int)
    ensures var l := AnalyzeLine(isPal, xScale, hStartReg, yStart, yAdd);
      l.maxX == (l.info.xStart + (l.hEnd - l.info.hStart) * l.info.xAdd) / 1024
  {
  }

  lemma Moved(p: int, h: int, s: int, a: int)
    ensures (p - h) * a == (p - s) * a + (s - h) * a
  {
  }

  /** Division by two as C does it, towards zero. */
  function HalfTowardsZero(x: int): int { if x >= 0 then x / 2 else -((-x) / 2) }

  /** The vertical range, clamped, and the start of sampling that goes with it. */
  datatype Vertical = Vertical(isPal: bool, vStart: int, vRes: int, yStart: int, yAdd: int, offset: int)

  function DecodeVertical(vSync: Word32, vStartReg: Word32, yScale: Word32): (v: Vertical)
    ensures 0 <= v.vStart <= MAX_OUTPUT_SCANLINES && v.vStart + v.vRes <= MAX_OUTPUT_SCANLINES
  {
    var isPal := Low10(vSync) > V_SYNC_NTSC + 25;
    var max := if isPal then V_END_PAL else V_END_NTSC;
    var end, start := Min(Low10(vStartReg), max), Min(High10(vStartReg), max);
    var offset := if isPal then V_OFFSET_PAL else V_OFFSET_NTSC;
    var res, first := (end - start) / 2, HalfTowardsZero(start - offset);
    var yStart := if first < 0 then High12(yScale) - Low12(yScale) * first else High12(yScale);
    var vStart := Max(first, 0);
    Vertical(isPal, vStart, Min(res, MAX_OUTPUT_SCANLINES - vStart), yStart, Low12(yScale), offset)
  }

  /** The scanline whose latched registers an output line uses. */
  function EffectiveLine(v: Vertical, currentLine: int, line: int): int {
    2 * line + v.offset + if currentLine == 0 then 1 else 0
  }

  /** The vertical range begins and ends where the register says, cut to the standard's last line; lines above the
      picture are cut off, and cutting them does not move what the first line left samples. */
  lemma VerticalMeans(vSync: Word32, vStartReg: Word32, yScale: Word32)
    ensures var v, top := DecodeVertical(vSync, vStartReg, yScale), if vSync % 0x400 > 550 then 621 else 515;
      var s: int, e: int := Min(vStartReg / 0x1_0000 % 0x400, top), Min(vStartReg % 0x400, top);
      var o, first: int := if v.isPal then 44 else 34, yScale / 0x1_0000 % 0x1000;
      && (v.isPal <==> vSync % 0x400 > 550) && v.offset == o
      && v.yAdd == yScale % 0x1000
      && (s >= o ==> s - 1 <= o + 2 * v.vStart <= s && v.yStart == first)
      && (s < o ==> v.vStart == 0 && v.yStart == first + (o - s) / 2 * v.yAdd)
      && v.vRes == Min((e - s) / 2, 288 - v.vStart)
  {
    var top, pal := if vSync % 0x400 > 550 then 621 else 515, vSync % 0x400 > 550;
    var s, o := Min(vStartReg / 0x1_0000 % 0x400, top), if pal then 44 else 34;
    if s < o {
      Negated((o - s) / 2, yScale % 0x1000);
    }
  }

  lemma Negated(n: int, a: int)
    ensures a * -n == -(n * a) == -n * a
  {
  }

  /** The two fields read neighbouring scanlines, every second one, from the one the register names on. */
  lemma FieldsInterleave(vSync: Word32, vStartReg: Word32, yScale: Word32, line: int)
    ensures var v := DecodeVertical(vSync, vStartReg, yScale);
      var s := Min(vStartReg / 0x1_0000 % 0x400, if v.isPal then 621 else 515);
      && EffectiveLine(v, 0, line) == EffectiveLine(v, 1, line) + 1
      && EffectiveLine(v, 1, line + 1) == EffectiveLine(v, 1, line) + 2
      && (s >= v.offset ==> s - 1 <= EffectiveLine(v, 1, v.vStart) <= s)
      && (s < v.offset ==> EffectiveLine(v, 1, v.vStart) == v.offset)
  {
    hide DecodeVertical;
    VerticalMeans(vSync, vStartReg, yScale);
  }

  /** For all register contents, both standards and both fields, the per-scanline arrays are read within bounds. */
  lemma EffectiveLineBounded(vSync: Word32, vStartReg: Word32, yScale: Word32, currentLine: int, line: int)
    requires var v := DecodeVertical(vSync, vStartReg, yScale); v.vStart <= line < v.vStart + v.vRes
    ensures 0 <= EffectiveLine(DecodeVertical(vSync, vStartReg, yScale), currentLine, line) < V_END_MAX
  {
    var max := if Low10(vSync) > V_SYNC_NTSC + 25 then V_END_PAL else V_END_NTSC;
    var end, start := Min(Low10(vStartReg), max), Min(High10(vStartReg), max);
    var v := DecodeVertical(vSync, vStartReg, yScale);
    assert v.vRes <= (end - start) / 2;
  }

  /** The bounding boxes over all lines. */
  datatype Box = Box(maxX: int, hLo: int, hHi: int, clampLo: int, clampHi: int)

  const EMPTY_BOX := Box(0, 0x7FFF_FFFF, 0, 0x7FFF_FFFF, 0)

  function Extended(b: Box, l: Line): Box {
    Box(Max(b.maxX, l.maxX), Min(b.hLo, l.info.hStart), Max(b.hHi, l.hEnd),
        Min(b.clampLo, l.info.hStartClamp), Max(b.clampHi, l.info.hEndClamp))
  }

  predicate Boxes(b: Box, l: Line) {
    && b.hLo <= l.info.hStart && l.hEnd <= b.hHi && l.maxX <= b.maxX
    && b.clampLo <= l.info.hStartClamp && l.info.hEndClamp <= b.clampHi
  }

  predicate Inside(b: Box, b': Box) {
    b.maxX <= b'.maxX && b'.hLo <= b.hLo && b.hHi <= b'.hHi && b'.clampLo <= b.clampLo && b.clampHi <= b'.clampHi
  }

  predicate InPicture(b: Box) { 0 <= b.hLo && b.hHi <= SCANOUT_WIDTH && Inside(EMPTY_BOX, b) }

  /** Extending a box by a line gives the least box around both. */
  lemma ExtendedLeast(b: Box, l: Line)
    ensures Boxes(Extended(b, l), l)
    ensures forall l': Line :: Boxes(b, l') ==> Boxes(Extended(b, l), l')
    ensures forall b': Box :: Inside(b, b') && Boxes(b', l) ==> Inside(Extended(b, l), b')
    ensures InPicture(b) && 0 <= l.info.hStart && l.hEnd <= SCANOUT_WIDTH ==> InPicture(Extended(b, l))
  {
  }

  lemma EmptyInPicture()
    ensures InPicture(EMPTY_BOX) && Inside(EMPTY_BOX, EMPTY_BOX)
  {
  }

  predicate Active(v: Vertical, k: int) { v.vStart <= k < v.vStart + v.vRes }

  datatype Registers = Registers(vertical: Vertical, maxY: int, box: Box)

  // ---- the interface ------------------------------------------------------------------------------

  class VideoInterface {
    var vCurrentLine: Word32
    var vStart: Word32
    var vSync: Word32
    var hStart: Word32
    var xScale: Word32
    var yScale: Word32
    const hLines: array<Word32>
    const xLines: array<Word32>
    var hLatched: Word32
    var xLatched: Word32
    var hFlag: bool
    var xFlag: bool
    var line: nat
    var ended: bool
    ghost var accepted: seq<Entry>
    ghost var atEnd: nat

    ghost predicate Sizes()
      reads this
    {
      hLines.Length == xLines.Length == V_END_MAX && hLines != xLines
    }

    ghost function State(): Latching
      reads this
    {
      Latching(hStart, xScale, hLatched, xLatched, hFlag, xFlag, ended, accepted, atEnd)
    }

    ghost predicate Latches()
      reads this, hLines, xLines
    {
      && Sizes() && Reached(State()) && line == LastLine(accepted) && Fit(hLines[..], xLines[..], State())
    }

    constructor ()
      ensures Latches() && fresh(hLines) && fresh(xLines) && State() == IDLE
    {
      hLines := new Word32[V_END_MAX](_ => 0);
      xLines := new Word32[V_END_MAX](_ => 0);
      vCurrentLine, vStart, vSync, hStart, xScale, yScale := 0, 0, 0, 0, 0, 0;
      hLatched, xLatched, hFlag, xFlag, line, ended, accepted := 0, 0, false, false, 0, false, [Entry(0, 0, 0)];
      atEnd := 0;
    }

    method WriteRegister(e: Event)
      requires Latches() && (e.WriteHStart? || e.WriteXScale?)
      modifies this`hStart, this`xScale
      ensures Latches() && State() == Happens(old(State()), e)
    {
      hide Increasing, InForce;
      match e
      case WriteHStart(v) => hStart := v;
      case WriteXScale(v) => xScale := v;
    }

    method BeginPerScanline(h: bool, x: bool)
      requires Latches()
      modifies this, hLines, xLines
      ensures Latches() && State() == Happens(old(State()), Begin(h, x))
    {
      hide Reached, Fit;
      hFlag, xFlag := h, x;
      hLatched, xLatched := hStart, xScale;
      hLines[0] := hStart;
      xLines[0] := xScale;
      line, ended := 0, false;
      accepted := [Entry(0, hStart, xScale)];
      BeginFits(hLines[..], xLines[..], State());
    }

    method SetForScanline(e: Event)
      requires Latches() && (e.SetHStart? || e.SetXScale?)
      modifies this`hLatched, this`xLatched
      ensures Latches() && State() == Happens(old(State()), e)
    {
      hide Increasing, InForce;
      match e
      case SetHStart(v) =>
        if hFlag {
          hLatched := v;
        }
      case SetXScale(v) =>
        if xFlag {
          xLatched := v;
        }
    }

    /** Repeats the values of the current line up to line to, exclusive. */
    method Repeat(to: nat)
      requires Sizes() && line < to <= V_END_MAX
      modifies hLines, xLines
      ensures hLines[..] == Repeated(old(hLines[..]), line, to) && xLines[..] == Repeated(old(xLines[..]), line, to)
    {
      var newCounter := line + 1;
      while newCounter < to
        invariant line < newCounter <= to
        invariant hLines[..] == Repeated(old(hLines[..]), line, newCounter)
        invariant xLines[..] == Repeated(old(xLines[..]), line, newCounter)
      {
        hLines[newCounter] := hLines[line];
        xLines[newCounter] := xLines[line];
        newCounter := newCounter + 1;
      }
    }

    method LatchForScanline(viLine: nat)
      requires Latches()
      modifies this`line, this`accepted, hLines, xLines
      ensures Latches() && State() == Happens(old(State()), LatchAt(viLine))
    {
      hide Reached, Fit, Repeated;
      var at := Min(viLine, V_END_MAX - 1);
      if at <= line {
        return;
      }
      LatchFits(hLines[..], xLines[..], State(), at);
      Repeat(at);
      hLines[at] := hLatched;
      xLines[at] := xLatched;
      accepted := accepted + [Entry(at, hLatched, xLatched)];
      line := at;
    }

    /** Fills the lines after the last latch, once, if anything is latched per scanline at all. */
    method EndPerScanline()
      requires Latches()
      modifies this`ended, this`atEnd, hLines, xLines
      ensures Latches() && State() == Happens(old(State()), End)
    {
      hide Increasing, Fit, Repeated;
      if (!hFlag && !xFlag) || ended {
        return;
      }
      EndFits(hLines[..], xLines[..], State());
      Repeat(V_END_MAX);
      ended, atEnd := true, |accepted|;
    }

    /** After a frame is scanned out, nothing is latched per scanline until the next beginning. */
    method ClearPerScanline()
      requires Latches()
      modifies this`hFlag, this`xFlag, this`ended
      ensures Latches() && State() == Happens(old(State()), Scanout)
    {
      hFlag, xFlag, ended := false, false, false;
    }

    /** One call of the interface. */
    method Take(e: Event)
      requires Latches()
      modifies this, hLines, xLines
      ensures Latches() && State() == Happens(old(State()), e)
    {
      hide Reached, Fit, Happens;
      match e
      case Begin(h, x) => BeginPerScanline(h, x);
      case LatchAt(viLine) => LatchForScanline(viLine);
      case End => EndPerScanline();
      case Scanout => ClearPerScanline();
      case WriteHStart(_) => WriteRegister(e);
      case WriteXScale(_) => WriteRegister(e);
      case _ => SetForScanline(e);
    }

    /** Clears the entries outside the active range. */
    method ClearLines(lines: array<HorizontalInfo>, v: Vertical)
      requires lines.Length == MAX_OUTPUT_SCANLINES
      modifies lines
      ensures forall k :: 0 <= k < MAX_OUTPUT_SCANLINES ==>
        lines[k] == if Active(v, k) then old(lines[k]) else CLEARED
    {
      var k := 0;
      while k < MAX_OUTPUT_SCANLINES
        invariant 0 <= k <= MAX_OUTPUT_SCANLINES
        invariant forall j :: 0 <= j < MAX_OUTPUT_SCANLINES ==>
          lines[j] == if j >= k || Active(v, j) then old(lines[j]) else CLEARED
      {
        if !Active(v, k) {
          lines[k] := CLEARED;
        }
        k := k + 1;
      }
    }

    /** One set of registers for the whole frame. */
    method FillLines(lines: array<HorizontalInfo>, v: Vertical, info: HorizontalInfo)
      requires lines.Length == MAX_OUTPUT_SCANLINES && 0 <= v.vStart && v.vStart + v.vRes <= MAX_OUTPUT_SCANLINES
      modifies lines
      ensures forall k :: 0 <= k < MAX_OUTPUT_SCANLINES ==> lines[k] == if Active(v, k) then info else old(lines[k])
    {
      var k := v.vStart;
      while k < v.vStart + v.vRes
        invariant v.vStart <= k
        invariant forall j :: 0 <= j < MAX_OUTPUT_SCANLINES ==>
          lines[j] == if j < k && Active(v, j) then info else old(lines[j])
      {
        lines[k] := info;
        k := k + 1;
      }
    }

    /** The registers latched for each scanline. */
    method AnalyzeLines(lines: array?<HorizontalInfo>, v: Vertical) returns (box: Box)
      requires Sizes() && (lines != null ==> lines.Length == MAX_OUTPUT_SCANLINES)
      requires v == DecodeVertical(vSync, vStart, yScale) && ended && v.vRes > 0
      modifies lines
      ensures lines != null ==> forall k :: 0 <= k < MAX_OUTPUT_SCANLINES ==>
        lines[k] == if Active(v, k) then LineAt(v, k).info else old(lines[k])
      ensures forall k :: Active(v, k) ==> Boxes(box, LineAt(v, k))
      ensures forall b :: Inside(EMPTY_BOX, b) && HoldsActive(b, v) ==> Inside(box, b)
      ensures InPicture(box)
    {
      hide DecodeVertical, AnalyzeLine, Extended, Boxes, Inside;
      EmptyInPicture();
      box := EMPTY_BOX;
      var k := v.vStart;
      while k < v.vStart + v.vRes
        invariant v.vStart <= k <= v.vStart + v.vRes
        invariant lines != null ==> forall j :: 0 <= j < MAX_OUTPUT_SCANLINES ==>
          lines[j] == if j < k && Active(v, j) then LineAt(v, j).info else old(lines[j])
        invariant InPicture(box)
        invariant forall j :: Active(v, j) && j < k ==> Boxes(box, LineAt(v, j))
        invariant forall b :: Inside(EMPTY_BOX, b) && HoldsActive(b, v) ==> Inside(box, b)
      {
        EffectiveLineBounded(vSync, vStart, yScale, vCurrentLine % 2, k);
        var at := EffectiveLine(v, vCurrentLine % 2, k);
        var l := AnalyzeLine(v.isPal, xLines[at], hLines[at], v.yStart, v.yAdd);
        assert l == LineAt(v, k);
        ExtendedLeast(box, l);
        box := Extended(box, l);
        if lines != null {
          lines[k] := l.info;
        }
        k := k + 1;
      }
    }

    /** Decodes the registers; fills lines, if given, one entry per output line. */
    method DecodeViRegisters(lines: array?<HorizontalInfo>) returns (reg: Registers)
      requires Sizes() && (lines != null ==> lines.Length == MAX_OUTPUT_SCANLINES)
      modifies lines
      ensures reg.vertical == DecodeVertical(vSync, vStart, yScale)
      ensures lines != null ==> forall k :: 0 <= k < MAX_OUTPUT_SCANLINES ==>
        lines[k] == if Active(reg.vertical, k) then LineAt(reg.vertical, k).info else CLEARED
      ensures Encloses(reg.box, reg.vertical) && forall b :: Encloses(b, reg.vertical) ==> Inside(reg.box, b)
      ensures 1024 * reg.maxY <= reg.vertical.yStart + reg.vertical.vRes * reg.vertical.yAdd < 1024 * reg.maxY + 1024
      ensures 0 <= reg.box.hLo && 0 <= reg.box.maxX && reg.box.hHi <= SCANOUT_WIDTH
    {
      hide DecodeVertical, AnalyzeLine;
      var v := DecodeVertical(vSync, vStart, yScale);
      if lines != null {
        ClearLines(lines, v);
      }
      var box;
      if v.vRes <= 0 || !ended {
        var l := AnalyzeLine(v.isPal, xScale, hStart, v.yStart, v.yAdd);
        box := Extended(EMPTY_BOX, l);
        assert v.vRes > 0 ==> Active(v, v.vStart) && LineAt(v, v.vStart) == l;
        if lines != null {
          FillLines(lines, v, l.info);
        }
      } else {
        box := AnalyzeLines(lines, v);
      }
      reg := Registers(v, (v.yStart + v.vRes * v.yAdd) / 1024, box);
    }

    ghost predicate HoldsActive(b: Box, v: Vertical)
      requires Sizes()
      reads this, hLines, xLines
    {
      forall k :: Active(v, k) ==> Boxes(b, LineAt(v, k))
    }

    /** A box that holds every active line, or the line of the global registers when there is none. */
    ghost predicate Encloses(b: Box, v: Vertical)
      requires Sizes()
      reads this, hLines, xLines
    {
      && Inside(EMPTY_BOX, b)
      && HoldsActive(b, v)
      && (v.vRes <= 0 ==> Boxes(b, AnalyzeLine(v.isPal, xScale, hStart, v.yStart, v.yAdd)))
    }

    /** The registers an output line is decoded from: those latched for its scanline once latching has ended. */
    ghost function LineAt(v: Vertical, k: int): Line
      requires Sizes()
      reads this, hLines, xLines
    {
      var at := EffectiveLine(v, vCurrentLine % 2, k);
      if ended && 0 <= at < V_END_MAX then AnalyzeLine(v.isPal, xLines[at], hLines[at], v.yStart, v.yAdd)
      else AnalyzeLine(v.isPal, xScale, hStart, v.yStart, v.yAdd)
    }
  }

  /** Main result: any sequence of register writes, beginnings, settings, latches, ends and frames. The lines up to
      the last latch have the values of the greatest accepted latch not above them; once latching has ended, all
      lines have, exactly when nothing came late. */
  method LatchRun(es: seq<Event>) returns (ended: bool, h: seq<Word32>, x: seq<Word32>)
    ensures Reached(After(es)) && ended == After(es).ended && |h| == |x| == V_END_MAX
    ensures forall k :: 0 <= k <= LastLine(After(es).accepted) ==> LineShows(h, x, k, After(es).accepted)
    ensures ended ==> forall k :: 0 <= k < V_END_MAX ==>
      h[k] == Held(After(es), k).hStart && x[k] == Held(After(es), k).xScale
    ensures ended ==>
      ((forall k :: 0 <= k < V_END_MAX ==> LineShows(h, x, k, After(es).accepted)) <==> NothingLate(After(es)))
  {
    hide After, Happens, Increasing;
    var vi := new VideoInterface();
    AfterNone();
    for n := 0 to |es|
      invariant fresh(vi) && fresh(vi.hLines) && fresh(vi.xLines) && vi.Latches() && vi.State() == After(es[..n])
    {
      AfterSnoc(es[..n], es[n]);
      assert es[..n + 1] == es[..n] + [es[n]];
      vi.Take(es[n]);
    }
    assert es[..|es|] == es;
    ended, h, x := vi.ended, vi.hLines[..], vi.xLines[..];
    FitShows(h, x, After(es));
  }

  lemma AfterNone()
    ensures After([]) == IDLE
  {
  }

  lemma FitShows(h: seq<Word32>, x: seq<Word32>, s: Latching)
    requires Reached(s) && |h| == |x| == V_END_MAX && Fit(h, x, s)
    ensures forall k :: 0 <= k <= LastLine(s.accepted) ==> LineShows(h, x, k, s.accepted)
    ensures s.ended ==> forall k :: 0 <= k < V_END_MAX ==> h[k] == Held(s, k).hStart && x[k] == Held(s, k).xScale
    ensures s.ended ==> ((forall k :: 0 <= k < V_END_MAX ==> LineShows(h, x, k, s.accepted)) <==> NothingLate(s))
  {
    hide Increasing, InForce;
    if s.ended {
      HeldIff(s);
      assert forall k :: 0 <= k < V_END_MAX ==>
        (LineShows(h, x, k, s.accepted) <==> SameValues(Held(s, k), InForce(s.accepted, k)));
    }
  }
}
