/** The frequency-response sweep (code/dbg/sfra_core.c). */
module SfraSweep {

  // An interrupt pushes samples into a ring, a background loop pops them, feeds two
  // DFTs and walks the sweep.  The loop is cut into its single memory accesses so
  // that an interrupt may fall between any two of them.

  import opened Circular
  import opened Machine
  import RealArith

  const RING: nat := 384
  const BUDGET: nat := 128
  const TABLE: nat := 300

  /** One excitation and one response sample. */
  datatype Pair = Pair(inject: real, collect: real)

  datatype Phase = Idle | Prepare | Settle | Collect | Calc | Done

  /** `valid` says whether both DFTs are complete after the given samples. */
  datatype Config = Config(
    length: nat, start: real, end: real, mul: real, period: real, isrFrequency: real, amplitude: real,
    settleCycles: real, collectCycles: real, valid: seq<Pair> -> bool)

  predicate IsConfig(c: Config) {
    && 1 <= c.length <= TABLE && c.end >= c.start > 0.0 && c.mul >= 1.0 && c.period > 0.0
    && c.isrFrequency > 0.0 && c.amplitude > 0.0 && c.settleCycles > 0.0 && c.collectCycles > 0.0
  }

  // ----- Sweep frequencies -----

  function FreqAt(start: real, mul: real, index: nat): (f: real)
    requires start > 0.0 && mul >= 1.0
    ensures f >= start
  {
    if index == 0 then start else Scaled(FreqAt(start, mul, index - 1), mul)
  }

  function Scaled(f: real, mul: real): (r: real)
    requires f > 0.0 && mul >= 1.0
    ensures r >= f
  {
    f * mul
  }

  /** Samples covering `cycles` periods, rounded, at least one. */
  function SampleSize(cycles: real, freq: real, period: real): (n: nat)
    requires freq > 0.0 && period > 0.0 && cycles > 0.0
    ensures n >= 1
  {
    RealArith.ProductPositive(freq, period);
    Rounded(cycles / (freq * period))
  }

  function Rounded(count: real): (n: nat)
    ensures n >= 1
  {
    if count < 1.0 then 1 else (count + 0.5).Floor
  }

  function SettleSize(c: Config, index: nat): nat
    requires IsConfig(c)
  {
    SampleSize(c.settleCycles, FreqAt(c.start, c.mul, index), c.period)
  }

  function Power(x: real, n: nat): real {
    if n == 0 then 1.0 else x * Power(x, n - 1)
  }

  /** The frequency of a point is the start times the multiplier to the power of its index. */
  lemma {:induction false} FrequencyIsGeometric(start: real, mul: real, index: nat)
    requires start > 0.0 && mul >= 1.0
    ensures FreqAt(start, mul, index) == start * Power(mul, index)
    decreases index
  {
    if index > 0 {
      FrequencyIsGeometric(start, mul, index - 1);
      Regroup(start, mul, Power(mul, index - 1));
    }
  }

  lemma Regroup(a: real, b: real, c: real)
    ensures a * c * b == a * (b * c)
  {
  }

  lemma RoundedIsNearest(cycles: real, count: real, step: real)
    requires step > 0.0 && count * step == cycles
    ensures if cycles < step then Rounded(count) == 1
            else -0.5 * step <= Rounded(count) as real * step - cycles <= 0.5 * step
  {
    var z := Rounded(count) as real;
    var e := z - count;
    BelowOne(count, step);
    if count >= 1.0 {
      RealArith.ProductNonnegative(0.5 - e, step);
      RealArith.ProductNonnegative(0.5 + e, step);
      ErrorTimes(z, count, e, step);
    }
  }

  /** The samples cover the cycles to half a sample, and are at least one. */
  lemma SampleSizeIsNearest(cycles: real, freq: real, period: real)
    requires freq > 0.0 && period > 0.0 && cycles > 0.0
    ensures var n, step := SampleSize(cycles, freq, period), freq * period;
            if cycles < step then n == 1
            else -0.5 * step <= n as real * step - cycles <= 0.5 * step
  {
    var step := freq * period;
    RealArith.ProductPositive(freq, period);
    RoundedIsNearest(cycles, cycles / step, step);
  }

  lemma BelowOne(count: real, step: real)
    requires step > 0.0
    ensures count < 1.0 <==> count * step < step
  {
    if count < 1.0 {
      RealArith.ProductPositive(1.0 - count, step);
    } else {
      RealArith.ProductNonnegative(count - 1.0, step);
    }
  }

  lemma ErrorTimes(n: real, count: real, e: real, step: real)
    requires e == n - count
    ensures (0.5 - e) * step == 0.5 * step - (n * step - count * step)
    ensures (0.5 + e) * step == 0.5 * step + (n * step - count * step)
  {
  }

  // ----- The ring -----

  datatype Ring = Ring(buf: seq<Pair>, write: nat, read: nat, overflow: bool)

  ghost predicate RingSized(r: Ring) {
    |r.buf| == RING && r.write < RING && r.read < RING
  }

  function Next(i: nat): (r: nat)
    requires i < RING
    ensures r < RING
  {
    (i + 1) % RING
  }

  function Cleared(r: Ring): Ring {
    r.(write := 0, read := 0, overflow := false)
  }

  /** The interrupt's push; a full ring latches the overflow flag. */
  function Push(r: Ring, x: Pair): (t: Ring)
    requires RingSized(r)
    ensures RingSized(t)
  {
    if r.overflow then r
    else if Next(r.write) == r.read then r.(overflow := true)
    else r.(buf := r.buf[r.write := x], write := Next(r.write))
  }

  // ----- The sweep state and the task's single steps -----

  /** `dft` is the list of samples the two DFTs have consumed since their reset. */
  datatype Core = Core(
    ring: Ring, phase: Phase, settled: nat, settleSize: nat, ready: bool, dft: seq<Pair>,
    index: nat, pointDone: bool, pointIndex: nat, pointCount: nat, active: bool, done: bool)

  /** Where the task stands inside one call; `n` counts the samples handled. */
  datatype Pc =
    | Rest
    | Head(n: nat)
    | Ask(n: nat)
    | Loaded(n: nat, read: nat)
    | Copied(n: nat, read: nat, x: Pair)
    | Stored(n: nat, x: Pair)
    | Exit
    | Finish

  datatype State = State(core: Core, pc: Pc)

  function Prepared(c: Config, k: Core): Core
    requires IsConfig(c)
  {
    k.(ring := Cleared(k.ring), settled := 0, settleSize := SettleSize(c, k.index), ready := false, dft := [],
       phase := Settle)
  }

  function Latched(c: Config, k: Core): Core {
    k.(pointIndex := k.index, pointCount := k.index + 1, pointDone := true, index := k.index + 1,
       phase := if k.index + 1 >= c.length then Done else Prepare)
  }

  /** The first step of a call: dispatch on the phase. */
  function Dispatch(c: Config, k: Core): State
    requires IsConfig(c)
  {
    match k.phase
    case Idle => State(k, Rest)
    case Prepare => State(if k.pointDone then k else Prepared(c, k), Rest)
    case Settle => State(if k.settled >= k.settleSize then k.(phase := Collect) else k, Rest)
    case Collect => if k.ring.overflow then State(k.(phase := Prepare), Finish) else State(k, Head(0))
    case Calc => State(Latched(c, k), Rest)
    case Done => State(k.(active := false, done := true), Rest)
  }

  function TaskStep(c: Config, s: State): (t: State)
    requires IsConfig(c) && RingSized(s.core.ring) && (s.pc.Loaded? || s.pc.Copied? ==> s.pc.read < RING)
  {
    var k := s.core;
    match s.pc
    case Rest => Dispatch(c, k)
    case Head(n) => State(k, if !k.ready && !k.ring.overflow && n < BUDGET then Ask(n) else Exit)
    case Ask(n) => State(k, if k.ring.read == k.ring.write then Exit else Loaded(n, k.ring.read))
    case Loaded(n, read) => State(k, Copied(n, read, k.ring.buf[read]))
    case Copied(n, read, x) => State(k.(ring := k.ring.(read := Next(read))), Stored(n, x))
    case Stored(n, x) =>
      State(k.(dft := k.dft + [x], ready := k.ready || c.valid(k.dft + [x])), Head(n + 1))
    case Exit => State(if k.ring.overflow then k.(phase := Prepare) else k, Finish)
    case Finish => State(if k.ready then k.(phase := Calc) else k, Rest)
  }

  /** The sampling interrupt. */
  function Interrupt(k: Core, x: Pair): Core
    requires RingSized(k.ring)
  {
    if k.phase.Settle? then if k.settled < k.settleSize then k.(settled := k.settled + 1) else k
    else if k.phase.Collect? && !k.ready then k.(ring := Push(k.ring, x))
    else k
  }

  /** The state a start leaves behind. */
  function Started(k: Core): Core {
    k.(ring := Cleared(k.ring), phase := Prepare, ready := false, index := 0,
       pointDone := false, pointIndex := 0, pointCount := 0, active := true, done := false)
  }

  // ----- What really happened -----

  /** A latched point: its index, the samples it was computed from, everything the
      interrupt had offered for it, and the interrupts spent settling before. */
  datatype Point = Point(index: nat, samples: seq<Pair>, offered: seq<Pair>, settled: nat)

  /** For the current point: samples offered, pushed and popped, interrupts spent settling. */
  datatype Log = Log(
    offered: seq<Pair>, pushed: seq<Pair>, popped: seq<Pair>, settled: nat, points: seq<Point>, overwritten: bool)

  const NOTHING := Log([], [], [], 0, [], false)

  datatype Event = Sample(x: Pair) | Task | Consume

  predicate Steppable(s: State) {
    |s.core.ring.buf| == RING && s.core.ring.write < RING && s.core.ring.read < RING
    && (s.pc.Loaded? || s.pc.Copied? ==> s.pc.read < RING)
  }

  function Step(c: Config, s: State, e: Event): (t: State)
    requires IsConfig(c) && Steppable(s)
    ensures Steppable(t)
  {
    match e
    case Sample(x) => s.(core := Interrupt(s.core, x))
    case Task => TaskStep(c, s)
    case Consume => s.(core := s.core.(pointDone := false))
  }

  predicate Accepts(k: Core) {
    |k.ring.buf| == RING && k.ring.write < RING && k.ring.read < RING
    && k.phase.Collect? && !k.ready && !k.ring.overflow && Next(k.ring.write) != k.ring.read
  }

  function Follow(s: State, l: Log, e: Event): Log {
    match e
    case Sample(x) =>
      if s.core.phase.Settle? then l.(settled := l.settled + 1)
      else if s.core.phase.Collect? && !s.core.ready then
        l.(offered := l.offered + [x], pushed := if Accepts(s.core) then l.pushed + [x] else l.pushed)
      else l
    case Consume => l
    case Task =>
      if s.pc.Copied? then l.(popped := l.popped + [s.pc.x])
      else if s.pc.Rest? && s.core.phase.Prepare? && !s.core.pointDone then
        l.(offered := [], pushed := [], popped := [], settled := 0)
      else if s.pc.Rest? && s.core.phase.Calc? then
        l.(points := l.points + [Point(s.core.index, s.core.dft, l.offered, l.settled)],
           overwritten := l.overwritten || s.core.pointDone)
      else l
  }

  // ----- The ring invariant -----

  /** The ring holds exactly what was pushed and not yet popped; what was popped
      is a gap-free prefix of what was pushed. */
  ghost predicate RingHolds(r: Ring, pushed: seq<Pair>, popped: seq<Pair>) {
    && RingSized(r) && r.read == Slot(|popped|, RING) && r.write == Slot(|pushed|, RING)
    && |popped| <= |pushed| < |popped| + RING && popped == pushed[..|popped|]
    && forall k :: |popped| <= k < |pushed| ==> r.buf[Slot(k, RING)] == pushed[k]
  }

  lemma NextIsSlot(n: nat)
    ensures Next(Slot(n, RING)) == Slot(n + 1, RING)
  {
    SlotNext(n, RING);
  }

  /** A push is refused exactly when 383 samples wait. */
  lemma FullIsExact(r: Ring, pushed: seq<Pair>, popped: seq<Pair>)
    requires RingHolds(r, pushed, popped)
    ensures Next(r.write) == r.read <==> |pushed| == |popped| + RING - 1
  {
    NextIsSlot(|pushed|);
    if |pushed| < |popped| + RING - 1 {
      SlotsDiffer(|popped|, |pushed| + 1, RING);
    } else {
      assert Slot(|popped| + RING, RING) == Slot(|popped|, RING);
    }
  }

  lemma PushHolds(r: Ring, pushed: seq<Pair>, popped: seq<Pair>, x: Pair)
    requires RingHolds(r, pushed, popped)
    ensures RingHolds(Push(r, x), if r.overflow || Next(r.write) == r.read then pushed else pushed + [x], popped)
  {
    if !r.overflow && Next(r.write) != r.read {
      FullIsExact(r, pushed, popped);
      NextIsSlot(|pushed|);
      forall k | |popped| <= k < |pushed|
        ensures Slot(k, RING) != Slot(|pushed|, RING)
      {
        SlotsDiffer(k, |pushed|, RING);
      }
    }
  }

  lemma PopHolds(r: Ring, pushed: seq<Pair>, popped: seq<Pair>)
    requires RingHolds(r, pushed, popped) && |popped| < |pushed|
    ensures r.buf[r.read] == pushed[|popped|]
    ensures RingHolds(r.(read := Next(r.read)), pushed, popped + [pushed[|popped|]])
  {
    NextIsSlot(|popped|);
    assert pushed[..|popped| + 1] == pushed[..|popped|] + [pushed[|popped|]];
  }

  /** Empty and only empty when the indices meet. */
  lemma EmptyIsExact(r: Ring, pushed: seq<Pair>, popped: seq<Pair>)
    requires RingHolds(r, pushed, popped)
    ensures r.read == r.write <==> |popped| == |pushed|
  {
    if |popped| < |pushed| {
      SlotsDiffer(|popped|, |pushed|, RING);
    }
  }

  // ----- The invariant of the whole machine -----

  /** The point is complete after `s` and was not after any shorter prefix. */
  ghost predicate JustValid(c: Config, s: seq<Pair>) {
    s != [] && c.valid(s) && NeverValid(c, s[..|s| - 1])
  }

  ghost predicate NeverValid(c: Config, s: seq<Pair>) {
    forall k :: 1 <= k <= |s| ==> !c.valid(s[..k])
  }

  /** What the task's position says about the samples on their way to the DFTs. */
  ghost predicate InFlight(s: State, l: Log) {
    && (s.pc.Loaded? || s.pc.Copied? ==> s.pc.read == s.core.ring.read && |l.popped| < |l.pushed|)
    && (s.pc.Copied? ==> s.pc.x == l.pushed[|l.popped|])
    && if s.pc.Stored? then l.popped == s.core.dft + [s.pc.x] else s.core.dft == l.popped
  }

  /** Where the task may stand in each phase. */
  ghost predicate InPhase(c: Config, s: State) {
    var k := s.core;
    && !k.phase.Idle?
    && (!s.pc.Rest? ==> k.phase.Collect? || (s.pc.Finish? && k.phase.Prepare?))
    && (s.pc.Rest? && k.phase.Collect? ==> !k.ready)
    && (s.pc.Ask? || s.pc.Loaded? || s.pc.Copied? || s.pc.Stored? ==> !k.ready && s.pc.n < BUDGET)
    && (k.phase.Settle? ==> !k.ready && !k.ring.overflow)
    && (k.phase.Calc? ==> k.ready)
  }

  /** How far the sweep is; a finished point is only in the way before a preparation. */
  ghost predicate Progress(c: Config, s: State, l: Log) {
    var k := s.core;
    && k.index == |l.points| <= c.length && (k.index == c.length <==> k.phase.Done?)
    && (k.pointDone ==> s.pc.Rest? && (k.phase.Prepare? || k.phase.Done?) && k.index > 0 && k.pointIndex == k.index - 1)
    && k.pointCount == k.index && !l.overwritten
  }

  /** Each latched point carries its own index and just enough of its samples. */
  ghost predicate PointsGood(c: Config, points: seq<Point>) {
    forall i :: 0 <= i < |points| ==> PointGood(c, points[i], i)
  }

  ghost predicate PointGood(c: Config, p: Point, i: nat) {
    IsConfig(c) && p.index == i && p.samples <= p.offered && JustValid(c, p.samples) && p.settled >= SettleSize(c, i)
  }

  ghost predicate Sampling(s: State) {
    s.core.phase.Settle? || s.core.phase.Collect? || s.core.phase.Calc? || !s.pc.Rest?
  }

  /** Nothing is collected before the settle time of the point has passed. */
  ghost predicate Settled(c: Config, s: State, l: Log)
    requires IsConfig(c)
  {
    var k := s.core;
    && (k.phase.Settle? ==> k.settleSize == SettleSize(c, k.index) && k.settled <= l.settled)
    && (k.phase.Collect? || k.phase.Calc? || !s.pc.Rest? ==> l.settled >= SettleSize(c, k.index))
  }

  /** What was pushed is what was offered, up to an overflow. */
  ghost predicate Gapless(s: State, l: Log) {
    l.popped <= l.pushed <= l.offered && (Sampling(s) && !s.core.ring.overflow ==> l.pushed == l.offered)
  }

  ghost predicate Collected(c: Config, k: Core) {
    if k.ready then JustValid(c, k.dft) else NeverValid(c, k.dft)
  }

  ghost predicate Inv(c: Config, s: State, l: Log) {
    && IsConfig(c) && Steppable(s) && Gapless(s, l) && Settled(c, s, l)
    && InPhase(c, s) && Progress(c, s, l) && PointsGood(c, l.points)
    && (Sampling(s) ==> RingHolds(s.core.ring, l.pushed, l.popped) && InFlight(s, l) && Collected(c, s.core))
  }

  // ----- Every step keeps it -----

  lemma InterruptKeeps(c: Config, s: State, l: Log, x: Pair)
    requires Inv(c, s, l)
    ensures Inv(c, Step(c, s, Sample(x)), Follow(s, l, Sample(x)))
  {
    if s.core.phase.Collect? && !s.core.ready {
      PushHolds(s.core.ring, l.pushed, l.popped, x);
    }
  }

  lemma ConsumeKeeps(c: Config, s: State, l: Log)
    requires Inv(c, s, l)
    ensures Inv(c, Step(c, s, Consume), Follow(s, l, Consume))
  {
  }

  lemma StoreKeeps(c: Config, s: State, l: Log)
    requires Inv(c, s, l) && s.pc.Stored?
    ensures Inv(c, Step(c, s, Task), Follow(s, l, Task))
  {
    var dft := s.core.dft + [s.pc.x];
    assert dft[..|dft|] == dft && dft[..|dft| - 1] == s.core.dft;
    forall k | 1 <= k <= |s.core.dft|
      ensures dft[..k] == s.core.dft[..k]
    {
    }
  }

  lemma AdvanceKeeps(c: Config, s: State, l: Log)
    requires Inv(c, s, l) && (s.pc.Ask? || s.pc.Loaded? || s.pc.Copied?)
    ensures Inv(c, Step(c, s, Task), Follow(s, l, Task))
  {
    EmptyIsExact(s.core.ring, l.pushed, l.popped);
    if |l.popped| < |l.pushed| {
      PopHolds(s.core.ring, l.pushed, l.popped);
    }
  }

  lemma DispatchKeeps(c: Config, s: State, l: Log)
    requires Inv(c, s, l) && s.pc.Rest?
    ensures Inv(c, Step(c, s, Task), Follow(s, l, Task))
  {
    if s.core.phase.Calc? {
      assert l.popped <= l.pushed;
      assert PointGood(c, Point(s.core.index, s.core.dft, l.offered, l.settled), s.core.index);
    }
  }

  lemma StepKeeps(c: Config, s: State, l: Log, e: Event)
    requires Inv(c, s, l)
    ensures Inv(c, Step(c, s, e), Follow(s, l, e))
  {
    match e
    case Sample(x) => InterruptKeeps(c, s, l, x);
    case Consume => ConsumeKeeps(c, s, l);
    case Task =>
      if s.pc.Rest? {
        DispatchKeeps(c, s, l);
      } else if s.pc.Stored? {
        StoreKeeps(c, s, l);
      } else if s.pc.Ask? || s.pc.Loaded? || s.pc.Copied? {
        AdvanceKeeps(c, s, l);
      }
  }

  function StepAll(c: Config, s: State, events: seq<Event>): (t: State)
    requires IsConfig(c) && Steppable(s)
    ensures Steppable(t)
  {
    if events == [] then s else Step(c, StepAll(c, s, events[..|events| - 1]), events[|events| - 1])
  }

  function FollowAll(c: Config, s: State, l: Log, events: seq<Event>): Log
    requires IsConfig(c) && Steppable(s)
  {
    if events == [] then l
    else
      var before := events[..|events| - 1];
      Follow(StepAll(c, s, before), FollowAll(c, s, l, before), events[|events| - 1])
  }

  /** Every interleaving of interrupts, task steps and consumer keeps the invariant. */
  lemma {:induction false} RunKeeps(c: Config, s: State, l: Log, events: seq<Event>)
    requires Inv(c, s, l)
    ensures Inv(c, StepAll(c, s, events), FollowAll(c, s, l, events))
  {
    if events != [] {
      var before := events[..|events| - 1];
      RunKeeps(c, s, l, before);
      StepKeeps(c, StepAll(c, s, before), FollowAll(c, s, l, before), events[|events| - 1]);
    }
  }

  lemma StartEstablishes(c: Config, k: Core)
    requires IsConfig(c) && |k.ring.buf| == RING
    ensures Inv(c, State(Started(k), Rest), NOTHING)
  {
  }

  /** In every run from a start, the points are latched once each with indices
      0, 1, 2, ..., no unread point is overwritten, each point is computed from the
      shortest complete prefix of its own samples, and a finished sweep has all. */
  lemma {:induction false} SweepIsExact(c: Config, k: Core, events: seq<Event>)
    requires IsConfig(c) && |k.ring.buf| == RING
    ensures var start := State(Started(k), Rest);
            var s, l := StepAll(c, start, events), FollowAll(c, start, NOTHING, events);
            && !l.overwritten && |l.points| <= c.length
            && (forall i :: 0 <= i < |l.points| ==> PointGood(c, l.points[i], i))
            && (s.core.phase.Done? <==> |l.points| == c.length)
            && (s.core.phase.Collect? || s.core.phase.Calc? ==> l.settled >= SettleSize(c, s.core.index))
            && (s.core.pointDone ==> l.points != [] && s.core.pointIndex == l.points[|l.points| - 1].index)
  {
    StartEstablishes(c, k);
    RunKeeps(c, State(Started(k), Rest), NOTHING, events);
  }

  /** In every run from a start, what was popped for the current point is a gap-free
      prefix of what was pushed for it, and while it is sampled the ring holds the rest. */
  lemma {:induction false} PoppedIsPrefix(c: Config, k: Core, events: seq<Event>)
    requires IsConfig(c) && |k.ring.buf| == RING
    ensures var start := State(Started(k), Rest);
            var s, l := StepAll(c, start, events), FollowAll(c, start, NOTHING, events);
            && l.popped <= l.pushed <= l.offered && (Sampling(s) && !s.core.ring.overflow ==> l.pushed == l.offered)
            && (Sampling(s) ==> RingHolds(s.core.ring, l.pushed, l.popped))
  {
    StartEstablishes(c, k);
    RunKeeps(c, State(Started(k), Rest), NOTHING, events);
  }

  /** `n` undisturbed steps of the loop. */
  function TaskSteps(c: Config, s: State, n: nat): (t: State)
    requires IsConfig(c) && Steppable(s)
    ensures Steppable(t)
    decreases n
  {
    if n == 0 then s else TaskSteps(c, Step(c, s, Task), n - 1)
  }

  // ----- Overflow -----

  /** How many of the events are steps of the background loop. */
  function TasksIn(events: seq<Event>): nat {
    if events == [] then 0 else (if events[0].Task? then 1 else 0) + TasksIn(events[1..])
  }

  lemma {:induction false} StepAllFront(c: Config, s: State, events: seq<Event>)
    requires IsConfig(c) && Steppable(s) && events != []
    ensures StepAll(c, s, events) == StepAll(c, Step(c, s, events[0]), events[1..])
    decreases |events|
  {
    if |events| == 1 {
      assert events[..0] == events[1..] == [];
    } else {
      assert events[1..][..|events| - 2] == events[..|events| - 1][1..];
      StepAllFront(c, s, events[..|events| - 1]);
    }
  }

  /** Steps left before an overflow is acted on. */
  function Rank(s: State): nat {
    match s.pc
    case Rest => 2
    case Head(_) => 5
    case Ask(_) => 9
    case Loaded(_, _) => 8
    case Copied(_, _, _) => 7
    case Stored(_, _) => 6
    case Exit => 4
    case Finish => if s.core.phase.Collect? && !s.core.ready then 3 else 1
  }

  /** The loop is back at rest: it starts the point over, or goes on to latch it. */
  ghost predicate Resolved(c: Config, s: State, index: nat) {
    && s.pc.Rest? && s.core.index == index
    && (if s.core.ready then s.core.phase.Calc? && JustValid(c, s.core.dft) else s.core.phase.Prepare?)
  }

  /** An overflow that the loop has not yet acted on. */
  predicate Overflowed(s: State) {
    s.core.ring.overflow && (s.core.phase.Collect? || s.pc.Finish?)
  }

  /** Neither the interrupt nor the consumer touches an overflowed point. */
  lemma OverflowIsLeftAlone(c: Config, s: State, l: Log, e: Event)
    requires Inv(c, s, l) && Overflowed(s) && !e.Task?
    ensures Step(c, s, e) == s
  {
  }

  /** One step of the loop resolves it or comes closer to that. */
  lemma OverflowAdvances(c: Config, s: State, l: Log)
    requires Inv(c, s, l) && Overflowed(s)
    ensures var t := Step(c, s, Task);
            Resolved(c, t, s.core.index) || (Overflowed(t) && Rank(t) < Rank(s) && t.core.index == s.core.index)
  {
    StepKeeps(c, s, l, Task);
  }

  /** Some prefix of the events resolves the overflow. */
  ghost predicate Resolves(c: Config, s: State, events: seq<Event>, index: nat)
    requires IsConfig(c) && Steppable(s)
  {
    exists n :: 0 <= n <= |events| && Resolved(c, StepAll(c, s, events[..n]), index)
  }

  lemma ResolvesLater(c: Config, s: State, events: seq<Event>, index: nat)
    requires IsConfig(c) && Steppable(s) && events != []
    requires Resolves(c, Step(c, s, events[0]), events[1..], index)
    ensures Resolves(c, s, events, index)
  {
    var n :| 0 <= n <= |events| - 1 && Resolved(c, StepAll(c, Step(c, s, events[0]), events[1..][..n]), index);
    assert events[..n + 1][1..] == events[1..][..n];
    StepAllFront(c, s, events[..n + 1]);
  }

  lemma {:induction false} OverflowResolvesBy(c: Config, s: State, l: Log, events: seq<Event>)
    requires Inv(c, s, l) && Overflowed(s) && TasksIn(events) >= Rank(s)
    ensures Resolves(c, s, events, s.core.index)
    decreases |events|
  {
    var t, e := Step(c, s, events[0]), events[0];
    StepKeeps(c, s, l, e);
    if !e.Task? {
      OverflowIsLeftAlone(c, s, l, e);
      OverflowResolvesBy(c, t, Follow(s, l, e), events[1..]);
    } else {
      OverflowAdvances(c, s, l);
      if Resolved(c, t, s.core.index) {
        assert events[1..][..0] == [];
      } else {
        OverflowResolvesBy(c, t, Follow(s, l, e), events[1..]);
      }
    }
    ResolvesLater(c, s, events, s.core.index);
  }

  /** In every interleaving that holds nine steps of the loop, an overflow either restarts
      the same index or leaves a point that was already complete intact. */
  lemma OverflowResolves(c: Config, s: State, l: Log, events: seq<Event>)
    requires Inv(c, s, l) && Overflowed(s) && TasksIn(events) >= 9
    ensures Resolves(c, s, events, s.core.index)
  {
    OverflowResolvesBy(c, s, l, events);
  }
}
