/**
  One acquisition of the real-time scope as a queue of whole frames, and what
  every run of operations keeps.
*/
module RealtimeSession {

  import opened Machine
  import opened RealtimeFrame

  type Values = s: seq<byte> | |s| <= 256

  datatype Session = Session(
    running: bool, queue: seq<seq<byte>>, index: byte, samples: U32, overflows: U32,
    highWater: nat, dequeued: U32, slots: nat)

  /** One sampling interrupt. */
  function SampleStep(s: Session, values: Values): Session {
    if !s.running then s
    else if |s.queue| >= s.slots then s.(overflows := Up(s.overflows), running := false)
    else
      s.(queue := s.queue + [Frame(s.index, values)], index := (s.index + 1) % 256,
         highWater := if |s.queue| + 1 > s.highWater then |s.queue| + 1 else s.highWater,
         samples := Up(s.samples))
  }

  /** Take the oldest frame, if there is one. */
  function PopStep(s: Session): Session {
    if s.queue == [] then s else s.(queue := s.queue[1..], dequeued := Up(s.dequeued))
  }

  predicate CanStart(s: Session) {
    !s.running && s.queue == []
  }

  function StartStep(slots: nat): Session {
    Session(true, [], 0, 0, 0, 0, 0, slots)
  }

  function StopStep(s: Session): Session {
    s.(running := false)
  }

  /** The service drops whatever is still queued. */
  function AbandonStep(s: Session): Session {
    s.(running := false, queue := [])
  }

  // ----- Runs -----

  datatype Event = Sample(values: Values) | Pop | Start(slots: nat) | Stop | Abandon

  function Step(s: Session, e: Event): Session {
    match e
    case Sample(v) => SampleStep(s, v)
    case Pop => PopStep(s)
    case Start(n) => if CanStart(s) then StartStep(n) else s
    case Stop => StopStep(s)
    case Abandon => AbandonStep(s)
  }

  /** What really happened since the last start: the values sampled, the frames
      taken out, whether the service has dropped the rest and whether a sample found no room. */
  datatype Log = Log(sampled: seq<Values>, popped: seq<seq<byte>>, dropped: bool, overflowed: bool)

  const NOTHING := Log([], [], false, false)

  function Follow(s: Session, l: Log, e: Event): Log {
    match e
    case Sample(v) =>
      if !s.running then l
      else if |s.queue| < s.slots then l.(sampled := l.sampled + [v]) else l.(overflowed := true)
    case Pop => if s.queue == [] then l else l.(popped := l.popped + [s.queue[0]])
    case Start(_) => if CanStart(s) then NOTHING else l
    case Stop => l
    case Abandon => l.(dropped := true)
  }

  /** The frames of all samples, with consecutive indices modulo 256. */
  function FramesOf(sampled: seq<Values>): (r: seq<seq<byte>>)
    ensures |r| == |sampled|
  {
    seq(|sampled|, k requires 0 <= k < |sampled| => Frame(k % 256, sampled[k]))
  }

  /** `FramesOf` folded behind three empty recursive steps, so that proofs about the
      queue see the frames as atoms. */
  function FoldedFrames(sampled: seq<Values>, folds: nat): (r: seq<seq<byte>>)
    ensures |r| == |sampled|
    decreases folds, |sampled|
  {
    if folds == 0 then FramesOf(sampled) else FoldedFrames(sampled, folds - 1)
  }

  function Frames(sampled: seq<Values>): (r: seq<seq<byte>>)
    ensures |r| == |sampled|
  {
    FoldedFrames(sampled, 3)
  }

  lemma FramesIs(sampled: seq<Values>)
    ensures Frames(sampled) == FramesOf(sampled)
  {
    assert FoldedFrames(sampled, 1) == FramesOf(sampled);
    assert FoldedFrames(sampled, 2) == FoldedFrames(sampled, 1);
  }

  ghost predicate Consistent(s: Session, l: Log) {
    && |l.popped| <= |l.sampled| && l.popped == Frames(l.sampled)[..|l.popped|]
    && (if l.dropped then s.queue == [] && !s.running else s.queue == Frames(l.sampled)[|l.popped|..])
    && s.index == |l.sampled| % 256 && s.samples == |l.sampled| % WORD && s.dequeued == |l.popped| % WORD
    && |s.queue| <= s.slots
    && s.overflows == (if l.overflowed then 1 else 0) && (l.overflowed ==> !s.running)
  }

  lemma UpWraps(n: nat, c: U32)
    requires c == n % WORD
    ensures Up(c) == (n + 1) % WORD
  {
  }

  lemma FramesAppend(sampled: seq<Values>, v: Values)
    ensures Frames(sampled + [v]) == Frames(sampled) + [Frame(|sampled| % 256, v)]
  {
    FramesIs(sampled);
    FramesIs(sampled + [v]);
  }

  lemma AppendSplit(f: seq<seq<byte>>, x: seq<byte>, n: nat)
    requires n <= |f|
    ensures (f + [x])[..n] == f[..n] && (f + [x])[n..] == f[n..] + [x]
  {
  }

  lemma SampleKeeps(s: Session, l: Log, v: Values)
    requires Consistent(s, l) && s.running && |s.queue| < s.slots
    ensures Consistent(SampleStep(s, v), Follow(s, l, Sample(v)))
  {
    FramesAppend(l.sampled, v);
    UpWraps(|l.sampled|, s.samples);
    AppendSplit(Frames(l.sampled), Frame(s.index, v), |l.popped|);
  }

  lemma PopKeeps(s: Session, l: Log)
    requires Consistent(s, l) && s.queue != []
    ensures Consistent(PopStep(s), Follow(s, l, Pop))
  {
    var f := Frames(l.sampled);
    var n := |l.popped|;
    assert f[n..][0] == f[n] && f[n..][1..] == f[n + 1..];
    assert f[..n + 1] == f[..n] + [f[n]];
    UpWraps(n, s.dequeued);
  }

  lemma StepKeeps(s: Session, l: Log, e: Event)
    requires Consistent(s, l)
    ensures Consistent(Step(s, e), Follow(s, l, e))
  {
    if e.Sample? {
      if s.running && |s.queue| < s.slots {
        SampleKeeps(s, l, e.values);
      }
    } else if e.Pop? {
      if s.queue != [] {
        PopKeeps(s, l);
      }
    }
  }

  function StepAll(s: Session, events: seq<Event>): Session {
    if events == [] then s else Step(StepAll(s, events[..|events| - 1]), events[|events| - 1])
  }

  function FollowAll(s: Session, l: Log, events: seq<Event>): Log {
    if events == [] then l
    else
      var before := events[..|events| - 1];
      Follow(StepAll(s, before), FollowAll(s, l, before), events[|events| - 1])
  }

  /** Every run keeps the queue a window of the sampled frames: what was popped and
      what is queued are the sampled frames in order, nothing lost, none repeated. */
  lemma {:induction false} RunKeeps(s: Session, l: Log, events: seq<Event>)
    requires Consistent(s, l)
    ensures Consistent(StepAll(s, events), FollowAll(s, l, events))
  {
    if events != [] {
      var before := events[..|events| - 1];
      RunKeeps(s, l, before);
      StepKeeps(StepAll(s, before), FollowAll(s, l, before), events[|events| - 1]);
    }
  }

  /** Before the first start. */
  predicate Fresh(s: Session) {
    !s.running && s.queue == [] && s.index == 0 && s.samples == 0 && s.dequeued == 0 && s.overflows == 0
  }

  lemma FreshIsConsistent(s: Session)
    requires Fresh(s)
    ensures Consistent(s, NOTHING)
  {
    FramesIs([]);
  }

  /** Unless the service dropped frames: the frames popped and those queued are all the
      sampled ones in order, and the counters agree. */
  ghost predicate Balances(s: Session, l: Log) {
    !l.dropped ==>
      && l.popped + s.queue == FramesOf(l.sampled)
      && s.samples == (s.dequeued + |s.queue|) % WORD
  }

  lemma ConsistentBalances(s: Session, l: Log)
    requires Consistent(s, l)
    ensures Balances(s, l)
  {
    FramesIs(l.sampled);
  }

  /** The frames and the counters balance after every run. */
  lemma {:induction false} CountersBalance(s: Session, events: seq<Event>)
    requires Fresh(s)
    ensures Balances(StepAll(s, events), FollowAll(s, NOTHING, events))
  {
    FreshIsConsistent(s);
    RunKeeps(s, NOTHING, events);
    ConsistentBalances(StepAll(s, events), FollowAll(s, NOTHING, events));
  }

  /** Events that belong to one acquisition. */
  predicate WithinSession(events: seq<Event>) {
    forall i :: 0 <= i < |events| ==> !events[i].Start?
  }

  lemma {:induction false} LogGrows(s: Session, l: Log, events: seq<Event>)
    requires WithinSession(events)
    ensures l.popped <= FollowAll(s, l, events).popped && l.sampled <= FollowAll(s, l, events).sampled
  {
    if events != [] {
      LogGrows(s, l, events[..|events| - 1]);
    }
  }

  /** The frames read by any pops with interrupts between them are sampled frames that
      follow one another, from the oldest not yet read. */
  lemma {:induction false} ReadsAreConsecutive(s: Session, l: Log, events: seq<Event>)
    requires Consistent(s, l) && WithinSession(events)
    ensures var m := FollowAll(s, l, events);
            && |l.popped| <= |m.popped| <= |m.sampled|
            && m.popped[|l.popped|..] == FramesOf(m.sampled)[|l.popped|..|m.popped|]
  {
    LogGrows(s, l, events);
    RunKeeps(s, l, events);
    FramesIs(FollowAll(s, l, events).sampled);
  }

  /** A running acquisition is stopped by an interrupt exactly if the queue is full. */
  lemma StopsWhenFull(s: Session, v: Values)
    requires s.running
    ensures !SampleStep(s, v).running <==> |s.queue| >= s.slots
    ensures |s.queue| >= s.slots <==> SampleStep(s, v).queue == s.queue
  {
  }

  /** `high` is the deepest the queue has been. */
  ghost predicate IsPeak(s: Session, events: seq<Event>, high: nat) {
    && (forall n :: 0 <= n <= |events| ==> |StepAll(s, events[..n]).queue| <= high)
    && (exists n :: 0 <= n <= |events| && |StepAll(s, events[..n]).queue| == high)
  }

  /** What one more event does to the peak. */
  lemma PeakNext(s: Session, events: seq<Event>, e: Event, high: nat)
    requires IsPeak(s, events, high)
    ensures var depth := |StepAll(s, events + [e]).queue|;
            IsPeak(s, events + [e], if depth > high then depth else high)
  {
    var more := events + [e];
    var depth := |StepAll(s, more).queue|;
    assert more[..|more|] == more;
    forall n | 0 <= n <= |events|
      ensures more[..n] == events[..n]
    {
    }
    var m :| 0 <= m <= |events| && |StepAll(s, events[..m]).queue| == high;
    assert |StepAll(s, more[..m]).queue| == high;
    assert |StepAll(s, more[..|more|]).queue| == depth;
  }

  lemma HighWaterStep(s: Session, e: Event)
    requires !e.Start? && |s.queue| <= s.highWater
    ensures var t := Step(s, e); t.highWater == if |t.queue| > s.highWater then |t.queue| else s.highWater
  {
  }

  lemma PeakHolds(s: Session, events: seq<Event>, high: nat)
    requires IsPeak(s, events, high)
    ensures |StepAll(s, events).queue| <= high
  {
    assert events[..|events|] == events;
  }

  lemma PeakStarts(s: Session)
    ensures IsPeak(s, [], |s.queue|)
  {
    assert |StepAll(s, [][..0]).queue| == |s.queue|;
  }

  lemma {:induction false} HighWaterFollows(s: Session, events: seq<Event>)
    requires s.highWater == |s.queue| && WithinSession(events)
    ensures IsPeak(s, events, StepAll(s, events).highWater)
  {
    if events == [] {
      PeakStarts(s);
    } else {
      var before, e := events[..|events| - 1], events[|events| - 1];
      var t := StepAll(s, before);
      assert events == before + [e];
      HighWaterFollows(s, before);
      PeakHolds(s, before, t.highWater);
      HighWaterStep(t, e);
      PeakNext(s, before, e, t.highWater);
    }
  }

  /** Since the start of an acquisition the high-water mark is the deepest the queue was. */
  lemma HighWaterIsPeak(slots: nat, events: seq<Event>)
    requires WithinSession(events)
    ensures IsPeak(StartStep(slots), events, StepAll(StartStep(slots), events).highWater)
  {
    HighWaterFollows(StartStep(slots), events);
  }

  // ----- Across acquisitions -----

  /** Every frame ever sampled, over all acquisitions of a run. */
  function AllSampled(s: Session, events: seq<Event>): seq<seq<byte>> {
    if events == [] then s.queue
    else
      var before := events[..|events| - 1];
      var t, e := StepAll(s, before), events[|events| - 1];
      AllSampled(s, before)
      + (if e.Sample? && t.running && |t.queue| < t.slots then [Frame(t.index, e.values)] else [])
  }

  /** Every frame ever popped. */
  function AllPopped(s: Session, events: seq<Event>): seq<seq<byte>> {
    if events == [] then []
    else
      var before := events[..|events| - 1];
      var t, e := StepAll(s, before), events[|events| - 1];
      AllPopped(s, before) + (if e.Pop? && t.queue != [] then [t.queue[0]] else [])
  }

  predicate NoneAbandoned(events: seq<Event>) {
    forall i :: 0 <= i < |events| ==> !events[i].Abandon?
  }

  /** No frame is lost between acquisitions either: whatever is started, stopped and
      started again, the frames popped and those queued are all ever sampled, in order. */
  lemma {:induction false} StartsLoseNothing(s: Session, events: seq<Event>)
    requires NoneAbandoned(events)
    ensures AllPopped(s, events) + StepAll(s, events).queue == AllSampled(s, events)
  {
    if events != [] {
      var before, e := events[..|events| - 1], events[|events| - 1];
      StartsLoseNothing(s, before);
      var t := StepAll(s, before);
      if e.Pop? && t.queue != [] {
        assert [t.queue[0]] + t.queue[1..] == t.queue;
      }
    }
  }

  /** The values of the sampling interrupts among the events. */
  function ValuesOf(events: seq<Event>): seq<Values> {
    if events == [] then []
    else
      var e := events[|events| - 1];
      ValuesOf(events[..|events| - 1]) + (if e.Sample? then [e.values] else [])
  }

  ghost predicate KeepsRunning(s: Session, events: seq<Event>) {
    forall n :: 0 <= n <= |events| ==> StepAll(s, events[..n]).running
  }

  /** While an acquisition runs every interrupt is sampled; a start request changes nothing. */
  lemma {:induction false} RunningSamplesAll(s: Session, l: Log, events: seq<Event>)
    requires KeepsRunning(s, events)
    ensures FollowAll(s, l, events).sampled == l.sampled + ValuesOf(events)
  {
    if events != [] {
      var before := events[..|events| - 1];
      forall n | 0 <= n <= |before|
        ensures StepAll(s, before[..n]).running
      {
        assert before[..n] == events[..n];
      }
      RunningSamplesAll(s, l, before);
      assert events[..|events|] == events && before[..|before|] == before;
    }
  }

  predicate Quiet(e: Event) {
    !e.Start? && !e.Abandon?
  }

  /** Once stopped, nothing is sampled until the next start. */
  lemma {:induction false} StoppedSamplesNothing(s: Session, l: Log, events: seq<Event>)
    requires !s.running && forall i :: 0 <= i < |events| ==> Quiet(events[i])
    ensures !StepAll(s, events).running
    ensures FollowAll(s, l, events).sampled == l.sampled && FollowAll(s, l, events).dropped == l.dropped
  {
    if events != [] {
      StoppedSamplesNothing(s, l, events[..|events| - 1]);
    }
  }

  /** A sample that finds the queue full stops the acquisition; however pops, stops
      and further interrupts follow, no frame sampled before is ever lost. */
  lemma OverflowLosesNothing(s: Session, l: Log, v: Values, events: seq<Event>)
    requires Consistent(s, l) && !l.dropped && s.running && |s.queue| == s.slots
    requires forall i :: 0 <= i < |events| ==> Quiet(events[i])
    ensures var t := StepAll(SampleStep(s, v), events);
            var m := FollowAll(SampleStep(s, v), Follow(s, l, Sample(v)), events);
            !t.running && m.sampled == l.sampled && m.popped + t.queue == Frames(l.sampled)
  {
    var u, m := SampleStep(s, v), Follow(s, l, Sample(v));
    StepKeeps(s, l, Sample(v));
    StoppedSamplesNothing(u, m, events);
    RunKeeps(u, m, events);
    ConsistentBalances(StepAll(u, events), FollowAll(u, m, events));
    FramesIs(l.sampled);
  }
}
