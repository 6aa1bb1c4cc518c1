/** The triggered scope and its reader. */
module ScopeCore {

  // A circular sample buffer with an idle / running / triggered state machine
  // (code/dbg/scope_core.c) and the reader that maps a logical index to a buffer
  // slot (code/dbg/scope_service.c).  The circular machine refines a recorder that
  // simply keeps every sample in a list.

  import opened Circular
  import opened Machine

  /** A float array of this size fills a 32-bit address space. */
  const MAX_SIZE: nat := 0x4000_0000

  type Sample = seq<real>

  datatype RunState = Idle | Running | Triggered

  datatype Config = Config(size: nat, post: nat)

  predicate IsConfig(c: Config) {
    1 <= c.size <= MAX_SIZE && c.post < WORD
  }

  /** `slots[k]` holds the values of all variables written at buffer position `k`. */
  datatype State = State(
    slots: seq<Sample>, writeIndex: nat, triggerIndex: nat, triggerCounter: nat,
    isTriggered: bool, isRunning: bool, inTrigger: bool, state: RunState)

  datatype Op = Run(sample: Sample) | Start | Stop | Trigger | Reset

  ghost predicate WellFormed(c: Config, s: State) {
    IsConfig(c) && |s.slots| == c.size && s.writeIndex < c.size && s.triggerIndex < c.size
  }

  /** The state a run works on: a pending start rewinds the buffer. */
  function Entered(s: State): State {
    if s.state.Idle? then s.(state := Running, writeIndex := 0, triggerCounter := 0) else s
  }

  function Transitioned(c: Config, s: State): (t: State)
    requires WellFormed(c, s)
    ensures WellFormed(c, t)
  {
    if s.state.Running? && s.isTriggered then
      s.(triggerIndex := s.writeIndex, isTriggered := false, inTrigger := true, state := Triggered)
    else if s.state.Triggered? then
      if s.triggerCounter + 1 >= c.post then
        s.(triggerCounter := 0, isRunning := false, inTrigger := false, state := Idle)
      else s.(triggerCounter := s.triggerCounter + 1)
    else s
  }

  function Sampled(c: Config, s: State, x: Sample): (t: State)
    requires WellFormed(c, s)
    ensures WellFormed(c, t)
  {
    var w := s.writeIndex;
    var next := if w + 1 >= c.size then 0 else w + 1;
    Transitioned(c, s.(slots := s.slots[w := x])).(writeIndex := next)
  }

  function Apply(c: Config, s: State, op: Op): (t: State)
    requires WellFormed(c, s)
    ensures WellFormed(c, t)
  {
    match op
    case Run(x) => if s.state.Idle? && !s.isRunning then s else Sampled(c, Entered(s), x)
    case Start =>
      if !s.state.Idle? then s
      else s.(isRunning := true, writeIndex := 0, triggerCounter := 0, inTrigger := false, isTriggered := false)
    case Stop => s.(isRunning := false, state := Idle, inTrigger := false)
    case Trigger => if s.state.Running? then s.(isTriggered := true) else s
    case Reset =>
      s.(writeIndex := 0, triggerCounter := 0, isTriggered := false, isRunning := false,
         inTrigger := false, state := Idle)
  }

  // ----- The reference recorder -----

  datatype Phase = Off | Armed | Sampling(pending: bool) | Capturing | Done

  /** Every sample since the last start, and which of them is the trigger sample. */
  datatype Recorder = Recorder(phase: Phase, samples: seq<Sample>, trigger: nat)

  /** Samples taken after the trigger sample; a requested count of zero still takes one. */
  function PostSamples(c: Config): nat {
    if c.post == 0 then 1 else c.post
  }

  function Record(c: Config, r: Recorder, op: Op): Recorder {
    match op
    case Run(x) => (
      var n := |r.samples|;
      match r.phase
      case Off => r
      case Done => r
      case Armed => Recorder(Sampling(false), [x], r.trigger)
      case Sampling(pending) =>
        if pending then Recorder(Capturing, r.samples + [x], n)
        else r.(samples := r.samples + [x])
      case Capturing =>
        Recorder(if n == r.trigger + PostSamples(c) then Done else Capturing, r.samples + [x], r.trigger))
    case Start => if r.phase.Sampling? || r.phase.Capturing? then r else Recorder(Armed, [], r.trigger)
    case Stop => if r.phase.Done? then r else r.(phase := Off)
    case Trigger => if r.phase.Sampling? then r.(phase := Sampling(true)) else r
    case Reset => if r.phase.Done? then r else r.(phase := Off)
  }

  // ----- Refinement -----

  /** The buffer holds the last `size` samples, each at its own slot. */
  ghost predicate Mirrors(slots: seq<Sample>, samples: seq<Sample>)
    requires |slots| > 0
  {
    forall k :: 0 <= k < |samples| <= k + |slots| ==> slots[Slot(k, |slots|)] == samples[k]
  }

  lemma MirrorsAppend(slots: seq<Sample>, samples: seq<Sample>, x: Sample)
    requires |slots| > 0 && Mirrors(slots, samples)
    ensures Mirrors(slots[Slot(|samples|, |slots|) := x], samples + [x])
  {
    var n, size := |samples|, |slots|;
    forall k | 0 <= k < n && n + 1 <= k + size
      ensures Slot(k, size) != Slot(n, size) && slots[Slot(k, size)] == samples[k]
    {
      SlotsDiffer(k, n, size);
    }
  }

  lemma MirrorsFirst(slots: seq<Sample>, x: Sample)
    requires |slots| > 0
    ensures Mirrors(slots[0 := x], [x])
  {
  }

  ghost predicate Refines(c: Config, s: State, r: Recorder) {
    && WellFormed(c, s)
    && var n := |r.samples|;
       match r.phase
       case Off => s.state.Idle? && !s.isRunning
       case Armed => s.state.Idle? && s.isRunning && !s.isTriggered && !s.inTrigger
       case Sampling(pending) =>
         && s.state.Running? && s.isRunning && s.isTriggered == pending && !s.inTrigger && s.triggerCounter == 0
         && s.writeIndex == Slot(n, c.size) && Mirrors(s.slots, r.samples)
       case Capturing =>
         && s.state.Triggered? && r.trigger < n <= r.trigger + PostSamples(c)
         && s.triggerIndex == Slot(r.trigger, c.size) && s.triggerCounter == n - 1 - r.trigger
         && s.writeIndex == Slot(n, c.size) && Mirrors(s.slots, r.samples)
       case Done =>
         && s.state.Idle? && !s.isRunning && n == r.trigger + 1 + PostSamples(c)
         && s.triggerIndex == Slot(r.trigger, c.size) && Mirrors(s.slots, r.samples)
  }

  lemma RefinesFirst(c: Config, s: State, r: Recorder, x: Sample)
    requires Refines(c, s, r) && r.phase.Armed?
    ensures Refines(c, Apply(c, s, Run(x)), Record(c, r, Run(x)))
  {
    MirrorsFirst(s.slots, x);
    SlotNext(0, c.size);
  }

  lemma RefinesNext(c: Config, s: State, r: Recorder, x: Sample)
    requires Refines(c, s, r) && (r.phase.Sampling? || r.phase.Capturing?)
    ensures Refines(c, Apply(c, s, Run(x)), Record(c, r, Run(x)))
  {
    MirrorsAppend(s.slots, r.samples, x);
    SlotNext(|r.samples|, c.size);
  }

  /** Every operation of the circular machine is the recorder's operation. */
  lemma RefinesStep(c: Config, s: State, r: Recorder, op: Op)
    requires Refines(c, s, r)
    ensures Refines(c, Apply(c, s, op), Record(c, r, op))
  {
    if op.Run? {
      if r.phase.Armed? {
        RefinesFirst(c, s, r, op.sample);
      } else if r.phase.Sampling? || r.phase.Capturing? {
        RefinesNext(c, s, r, op.sample);
      }
    }
  }

  function ApplyAll(c: Config, s: State, ops: seq<Op>): (t: State)
    requires WellFormed(c, s)
    ensures WellFormed(c, t)
  {
    if ops == [] then s else Apply(c, ApplyAll(c, s, ops[..|ops| - 1]), ops[|ops| - 1])
  }

  function RecordAll(c: Config, r: Recorder, ops: seq<Op>): Recorder {
    if ops == [] then r else Record(c, RecordAll(c, r, ops[..|ops| - 1]), ops[|ops| - 1])
  }

  lemma {:induction false} RefinesAll(c: Config, s: State, r: Recorder, ops: seq<Op>)
    requires Refines(c, s, r)
    ensures Refines(c, ApplyAll(c, s, ops), RecordAll(c, r, ops))
  {
    if ops != [] {
      RefinesAll(c, s, r, ops[..|ops| - 1]);
      RefinesStep(c, ApplyAll(c, s, ops[..|ops| - 1]), RecordAll(c, r, ops[..|ops| - 1]), ops[|ops| - 1]);
    }
  }

  // ----- The reader -----

  datatype ReadMode = Normal | Force

  function TriggerDisplayIndex(c: Config): nat {
    if c.size == 0 || c.post >= c.size then 0 else c.size - c.post - 1
  }

  /** A 32-bit sum reduced to a buffer position. */
  function Position(sum: nat, size: nat): (r: nat)
    requires size > 0
    ensures r < size
  {
    (sum % WORD) % size
  }

  lemma PositionIsSlot(sum: nat, size: nat)
    requires 0 < size && sum < WORD
    ensures Position(sum, size) == Slot(sum, size)
  {
    SlotIsMod(sum, size);
  }

  function LogicalStart(c: Config, s: State, mode: ReadMode): nat {
    if c.size == 0 then 0
    else if mode.Force? && s.state.Running? && !s.inTrigger then Position(s.writeIndex, c.size)
    else Position(s.triggerIndex + c.post + 1, c.size)
  }

  function LogicalToPhysical(c: Config, s: State, mode: ReadMode, i: nat): nat {
    if c.size == 0 then 0 else Position(LogicalStart(c, s, mode) + i, c.size)
  }

  /** Logical index `i` reads the `i`-th oldest of the last `size` samples. */
  ghost predicate ReadsInOrder(c: Config, s: State, samples: seq<Sample>, mode: ReadMode)
    requires WellFormed(c, s) && |samples| >= c.size
  {
    forall i :: 0 <= i < c.size ==> s.slots[LogicalToPhysical(c, s, mode, i)] == samples[|samples| - c.size + i]
  }

  ghost predicate Distinct(samples: seq<Sample>) {
    forall j, k :: 0 <= j < k < |samples| ==> samples[j] != samples[k]
  }

  /** The 32-bit sum of the reader wraps, and 2^32 is no multiple of the buffer size. */
  predicate StartMissed(c: Config, s: State)
    requires IsConfig(c)
  {
    s.triggerIndex + c.post + 1 >= WORD && Slot(WORD, c.size) != 0
  }

  /** Reducing a wrapped sum gives the same position exactly if 2^32 is a multiple. */
  lemma WrappedPosition(sum: nat, size: nat)
    requires 0 < size && sum < 2 * WORD
    ensures Position(sum, size) == Slot(sum, size) <==> sum < WORD || Slot(WORD, size) == 0
  {
    if sum < WORD {
      PositionIsSlot(sum, size);
    } else {
      var d, w := sum - WORD, Slot(WORD, size);
      SlotIsMod(d, size);
      SlotAdds(WORD, d, size);
      if w != 0 {
        SlotsDiffer(d, w + d, size);
      }
    }
  }

  /** A capture has triggered, whether or not it has completed. */
  predicate Triggering(r: Recorder) {
    r.phase.Capturing? || r.phase.Done?
  }

  /** Where reading starts once a capture has triggered, forced or not. */
  lemma StartIsExact(c: Config, s: State, r: Recorder, mode: ReadMode)
    requires Refines(c, s, r) && Triggering(r)
    ensures LogicalStart(c, s, mode) == Slot(r.trigger + c.post + 1, c.size) <==> !StartMissed(c, s)
  {
    WrappedPosition(s.triggerIndex + c.post + 1, c.size);
    SlotAdds(r.trigger, c.post + 1, c.size);
  }

  /** The slot read for logical index `i`. */
  lemma PhysicalSlot(c: Config, s: State, r: Recorder, mode: ReadMode, i: nat)
    requires Refines(c, s, r) && Triggering(r) && i < c.size && !StartMissed(c, s)
    ensures LogicalToPhysical(c, s, mode, i) == Slot(r.trigger + c.post + 1 + i, c.size)
  {
    StartIsExact(c, s, r, mode);
    StartThen(LogicalStart(c, s, mode), r.trigger + c.post + 1, c.size, i);
  }

  lemma StartThen(start: nat, sum: nat, size: nat, i: nat)
    requires i < size <= MAX_SIZE && start == Slot(sum, size)
    ensures Position(start + i, size) == Slot(sum + i, size)
  {
    PositionIsSlot(start + i, size);
    SlotAdds(sum, i, size);
  }

  lemma CaptureReadsOne(c: Config, s: State, r: Recorder, mode: ReadMode, i: nat)
    requires Refines(c, s, r) && r.phase.Done? && |r.samples| >= c.size && i < c.size
    requires c.post >= 1 && !StartMissed(c, s)
    ensures s.slots[LogicalToPhysical(c, s, mode, i)] == r.samples[|r.samples| - c.size + i]
  {
    var k := |r.samples| - c.size + i;
    PhysicalSlot(c, s, r, mode, i);
    assert Slot(k + c.size, c.size) == Slot(k, c.size);
    assert s.slots[Slot(k, c.size)] == r.samples[k];
  }

  /** A completed capture is displayed in time order, whatever was recorded before it. */
  lemma CaptureReadsInOrder(c: Config, s: State, r: Recorder, mode: ReadMode)
    requires Refines(c, s, r) && r.phase.Done? && |r.samples| >= c.size && c.post >= 1 && !StartMissed(c, s)
    ensures ReadsInOrder(c, s, r.samples, mode)
  {
    forall i | 0 <= i < c.size
      ensures s.slots[LogicalToPhysical(c, s, mode, i)] == r.samples[|r.samples| - c.size + i]
    {
      CaptureReadsOne(c, s, r, mode, i);
    }
  }

  /** The index of the sample that slot `p` holds among the last `size` of `n`. */
  function Holder(n: nat, size: nat, p: nat): (k: nat)
    requires p < size <= n
    ensures n - size <= k < n
  {
    var q := Slot(n - size, size);
    if p >= q then n - size + (p - q) else n + p - q
  }

  lemma HolderIs(n: nat, size: nat, p: nat)
    requires p < size <= n
    ensures Slot(Holder(n, size, p), size) == p
  {
    SlotAdds(n - size, Holder(n, size, p) - (n - size), size);
    assert Slot(p + size, size) == Slot(p, size);
  }

  /** Every slot read holds one of the last `size` samples. */
  lemma ReadsRecent(c: Config, s: State, r: Recorder, p: nat)
    requires Refines(c, s, r) && r.phase.Done? && |r.samples| >= c.size && p < c.size
    ensures s.slots[p] == r.samples[Holder(|r.samples|, c.size, p)]
  {
    HolderIs(|r.samples|, c.size, p);
  }

  /** From the trigger on the trigger sample is displayed at the reported index when the
      post samples leave it in the buffer. */
  lemma TriggerIsDisplayed(c: Config, s: State, r: Recorder, mode: ReadMode)
    requires Refines(c, s, r) && Triggering(r) && PostSamples(c) < c.size
    ensures s.slots[LogicalToPhysical(c, s, mode, TriggerDisplayIndex(c))] == r.samples[r.trigger]
  {
    PhysicalSlot(c, s, r, mode, TriggerDisplayIndex(c));
    assert Slot(r.trigger + c.size, c.size) == Slot(r.trigger, c.size);
    assert s.slots[Slot(r.trigger, c.size)] == r.samples[r.trigger];
  }

  /** Otherwise the trigger sample is gone and a later one is displayed. */
  lemma TriggerDisplayNeedsRoom(c: Config, s: State, r: Recorder, mode: ReadMode)
    requires Refines(c, s, r) && r.phase.Done? && |r.samples| >= c.size && Distinct(r.samples)
    ensures s.slots[LogicalToPhysical(c, s, mode, TriggerDisplayIndex(c))] == r.samples[r.trigger]
        <==> PostSamples(c) < c.size
  {
    if PostSamples(c) < c.size {
      TriggerIsDisplayed(c, s, r, mode);
    } else {
      ReadsRecent(c, s, r, LogicalToPhysical(c, s, mode, TriggerDisplayIndex(c)));
    }
  }

  /** With a post count of zero one post sample is taken but the reader starts one
      slot early: the newest sample is shown first.  So time order needs a post
      count of at least one, or a one-slot buffer. */
  lemma ZeroPostShowsNewestFirst(c: Config, s: State, r: Recorder, mode: ReadMode)
    requires Refines(c, s, r) && r.phase.Done? && |r.samples| >= c.size && c.post == 0
    ensures s.slots[LogicalToPhysical(c, s, mode, 0)] == r.samples[|r.samples| - 1]
  {
    PhysicalSlot(c, s, r, mode, 0);
  }

  /** A start position missed by the wrap shows some later sample first. */
  lemma MissedStartShowsAnother(c: Config, s: State, r: Recorder, mode: ReadMode)
    requires Refines(c, s, r) && r.phase.Done? && |r.samples| >= c.size && c.post >= 1 && StartMissed(c, s)
    requires Distinct(r.samples)
    ensures s.slots[LogicalToPhysical(c, s, mode, 0)] != r.samples[|r.samples| - c.size]
  {
    var n, p := |r.samples|, LogicalToPhysical(c, s, mode, 0);
    StartIsExact(c, s, r, mode);
    PositionIsSlot(LogicalStart(c, s, mode), c.size);
    ReadsRecent(c, s, r, p);
    HolderIs(n, c.size, p);
    assert Slot(n, c.size) == Slot(n - c.size, c.size);
  }

  /** Time order on every capture is exactly a positive post count whose wrapped sum does
      not miss the start, or a one-slot buffer. */
  lemma TimeOrderIsExact(c: Config, s: State, r: Recorder, mode: ReadMode)
    requires Refines(c, s, r) && r.phase.Done? && |r.samples| >= c.size && Distinct(r.samples)
    ensures ReadsInOrder(c, s, r.samples, mode) <==> (c.post >= 1 && !StartMissed(c, s)) || c.size == 1
  {
    if c.post == 0 {
      ZeroPostShowsNewestFirst(c, s, r, mode);
    } else if StartMissed(c, s) {
      MissedStartShowsAnother(c, s, r, mode);
    } else {
      CaptureReadsInOrder(c, s, r, mode);
    }
  }

  /** What a reader sees: a completed capture of the whole buffer in time order unless the
      start is missed; the trigger sample where it is reported from the trigger on; and,
      forced before the trigger, the newest samples of a full buffer in time order. */
  ghost predicate Displayed(c: Config, s: State, r: Recorder, mode: ReadMode)
    requires WellFormed(c, s)
  {
    && (r.phase.Done? && |r.samples| >= c.size && c.post >= 1 && !StartMissed(c, s) ==>
          ReadsInOrder(c, s, r.samples, mode))
    && (Triggering(r) && PostSamples(c) < c.size ==>
          && r.trigger < |r.samples|
          && s.slots[LogicalToPhysical(c, s, mode, TriggerDisplayIndex(c))] == r.samples[r.trigger])
    && (r.phase.Sampling? && |r.samples| >= c.size ==> ReadsInOrder(c, s, r.samples, Force))
  }

  lemma RefinedDisplays(c: Config, s: State, r: Recorder, mode: ReadMode)
    requires Refines(c, s, r)
    ensures Displayed(c, s, r, mode)
  {
    if r.phase.Done? && |r.samples| >= c.size && c.post >= 1 && !StartMissed(c, s) {
      CaptureReadsInOrder(c, s, r, mode);
    }
    if Triggering(r) && PostSamples(c) < c.size {
      TriggerIsDisplayed(c, s, r, mode);
    }
    if r.phase.Sampling? && |r.samples| >= c.size {
      ForcedReadInOrder(c, s, r);
    }
  }

  /** So it is after every run of operations from an idle scope. */
  lemma {:induction false} EveryCaptureDisplays(c: Config, s: State, ops: seq<Op>, mode: ReadMode)
    requires Refines(c, s, Recorder(Off, [], 0))
    ensures Displayed(c, ApplyAll(c, s, ops), RecordAll(c, Recorder(Off, [], 0), ops), mode)
  {
    RefinesAll(c, s, Recorder(Off, [], 0), ops);
    RefinedDisplays(c, ApplyAll(c, s, ops), RecordAll(c, Recorder(Off, [], 0), ops), mode);
  }

  lemma ForcedReadsOne(c: Config, s: State, r: Recorder, i: nat)
    requires Refines(c, s, r) && r.phase.Sampling? && |r.samples| >= c.size && i < c.size
    ensures s.slots[LogicalToPhysical(c, s, Force, i)] == r.samples[|r.samples| - c.size + i]
  {
    var n := |r.samples|;
    var k := n - c.size + i;
    assert LogicalToPhysical(c, s, Force, i) == Slot(n + i, c.size) by {
      PositionIsSlot(s.writeIndex, c.size);
      SlotAdds(n, i, c.size);
      PositionIsSlot(s.writeIndex + i, c.size);
    }
    assert Slot(k + c.size, c.size) == Slot(k, c.size);
    assert s.slots[Slot(k, c.size)] == r.samples[k];
  }

  /** A forced read while running shows the newest `size` samples in time order. */
  lemma ForcedReadInOrder(c: Config, s: State, r: Recorder)
    requires Refines(c, s, r) && r.phase.Sampling? && |r.samples| >= c.size
    ensures ReadsInOrder(c, s, r.samples, Force)
  {
    forall i | 0 <= i < c.size
      ensures s.slots[LogicalToPhysical(c, s, Force, i)] == r.samples[|r.samples| - c.size + i]
    {
      ForcedReadsOne(c, s, r, i);
    }
  }

  // ----- The scope object -----

  class Scope {
    const size: nat
    const post: nat
    /** One row of `size` values per variable. */
    const buffer: array2<real>
    /** The variables the scope was registered with. */
    const vars: array<real>
    var writeIndex: nat
    var triggerIndex: nat
    var triggerCounter: nat
    var isTriggered: bool
    var isRunning: bool
    var inTrigger: bool
    var state: RunState

    ghost predicate Valid()
      reads this, buffer
    {
      buffer.Length0 == vars.Length && buffer.Length1 == size && WellFormed(Configured(), Value())
    }

    ghost function Configured(): Config {
      Config(size, post)
    }

    ghost function Column(k: nat): Sample
      requires k < buffer.Length1
      reads buffer
    {
      seq(buffer.Length0, i requires 0 <= i < buffer.Length0 reads buffer => buffer[i, k])
    }

    ghost function Value(): State
      reads this, buffer
    {
      State(seq(buffer.Length1, k requires 0 <= k < buffer.Length1 reads buffer => Column(k)),
            writeIndex, triggerIndex, triggerCounter, isTriggered, isRunning, inTrigger, state)
    }

    constructor (size: nat, post: nat, vars: array<real>)
      requires IsConfig(Config(size, post))
      ensures Valid() && fresh(buffer) && this.vars == vars && Configured() == Config(size, post)
      ensures Refines(Configured(), Value(), Recorder(Off, [], 0))
    {
      this.size, this.post, this.vars := size, post, vars;
      buffer := new real[vars.Length, size];
      writeIndex, triggerIndex, triggerCounter := 0, 0, 0;
      isTriggered, isRunning, inTrigger := false, false, false;
      state := Idle;
    }

    method Store(w: nat)
      requires Valid() && w < size
      modifies buffer
      ensures Column(w) == vars[..]
      ensures forall k :: 0 <= k < size && k != w ==> Column(k) == old(Column(k))
    {
      for i := 0 to vars.Length
        invariant forall j :: 0 <= j < i ==> buffer[j, w] == vars[j]
        invariant forall j, k :: 0 <= j < vars.Length && 0 <= k < size && k != w ==> buffer[j, k] == old(buffer[j, k])
      {
        buffer[i, w] := vars[i];
      }
    }

    /** The trigger part of a sampling interrupt. */
    method Transition()
      requires Valid()
      modifies this`triggerIndex, this`triggerCounter, this`isTriggered, this`isRunning, this`inTrigger, this`state
      ensures Valid()
      ensures Value() == Transitioned(Configured(), old(Value()))
    {
      if state.Running? && isTriggered {
        triggerIndex := writeIndex;
        isTriggered := false;
        inTrigger := true;
        state := Triggered;
      } else if state.Triggered? {
        triggerCounter := triggerCounter + 1;
        if triggerCounter >= post {
          triggerCounter := 0;
          isRunning := false;
          inTrigger := false;
          state := Idle;
        }
      }
    }

    /** Store one sample of every variable. */
    method StoreSample()
      requires Valid()
      modifies buffer
      ensures Valid()
      ensures Value().slots == old(Value().slots)[writeIndex := vars[..]]
    {
      Store(writeIndex);
    }

    /** One sampling interrupt. */
    method RunOnce()
      requires Valid()
      modifies this, buffer
      ensures Valid()
      ensures Value() == Apply(Configured(), old(Value()), Run(vars[..]))
    {
      if state.Idle? {
        if isRunning {
          state := Running;
          writeIndex := 0;
          triggerCounter := 0;
        } else {
          return;
        }
      }
      assert Value().slots == old(Value().slots);
      StoreSample();
      Transition();
      writeIndex := writeIndex + 1;
      if writeIndex >= size {
        writeIndex := 0;
      }
    }

    method Begin()
      requires Valid()
      modifies this
      ensures Valid()
      ensures Value() == Apply(Configured(), old(Value()), Start)
    {
      if state.Idle? {
        isRunning := true;
        writeIndex := 0;
        triggerCounter := 0;
        inTrigger := false;
        isTriggered := false;
      }
    }

    method Halt()
      requires Valid()
      modifies this
      ensures Valid()
      ensures Value() == Apply(Configured(), old(Value()), Stop)
    {
      isRunning := false;
      state := Idle;
      inTrigger := false;
    }

    method Fire()
      requires Valid()
      modifies this
      ensures Valid()
      ensures Value() == Apply(Configured(), old(Value()), Trigger)
    {
      if state.Running? {
        isTriggered := true;
      }
    }

    method Clear()
      requires Valid()
      modifies this
      ensures Valid()
      ensures Value() == Apply(Configured(), old(Value()), Reset)
    {
      writeIndex := 0;
      triggerCounter := 0;
      isTriggered := false;
      isRunning := false;
      inTrigger := false;
      state := Idle;
    }
  }
}
