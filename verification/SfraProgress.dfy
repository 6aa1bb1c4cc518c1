/**
  What whole task calls achieve: how much one call collects, when settling ends, and
  that a sweep whose calls keep pace with the interrupt finishes (code/dbg/sfra_core.c).
*/
module SfraProgress {

  import opened Machine
  import opened SfraSweep
  import opened SfraCore

  // ----- Settling -----

  /** The task's count of settling interrupts is the real one, up to the settle time. */
  ghost predicate CountsSettling(c: Config, s: State, l: Log)
    requires IsConfig(c)
  {
    s.core.phase.Settle? ==>
      s.core.settled == if l.settled < SettleSize(c, s.core.index) then l.settled else SettleSize(c, s.core.index)
  }

  lemma StepCounts(c: Config, s: State, l: Log, e: Event)
    requires Inv(c, s, l) && CountsSettling(c, s, l)
    ensures CountsSettling(c, Step(c, s, e), Follow(s, l, e))
  {
  }

  lemma {:induction false} RunCounts(c: Config, s: State, l: Log, events: seq<Event>)
    requires Inv(c, s, l) && CountsSettling(c, s, l)
    ensures CountsSettling(c, StepAll(c, s, events), FollowAll(c, s, l, events))
  {
    if events != [] {
      var before := events[..|events| - 1];
      RunCounts(c, s, l, before);
      RunKeeps(c, s, l, before);
      StepCounts(c, StepAll(c, s, before), FollowAll(c, s, l, before), events[|events| - 1]);
    }
  }

  /** In every run from a start, a task step of a settling point begins to collect exactly
      when the interrupts since its preparation have reached the settle time. */
  lemma {:induction false} SettlingIsExact(c: Config, k: Core, events: seq<Event>)
    requires IsConfig(c) && |k.ring.buf| == RING
    ensures var start := State(Started(k), Rest);
            var s, l := StepAll(c, start, events), FollowAll(c, start, NOTHING, events);
            s.core.phase.Settle? ==>
              && s.pc.Rest?
              && (Step(c, s, Task).core.phase.Collect? <==> l.settled >= SettleSize(c, s.core.index))
  {
    StartEstablishes(c, k);
    RunKeeps(c, State(Started(k), Rest), NOTHING, events);
    RunCounts(c, State(Started(k), Rest), NOTHING, events);
  }

  // ----- One call -----

  /** `t` is `k` after `m` more of the waiting samples, at most `room` of them: all the
      room, all that wait, or just enough to complete the point. */
  ghost predicate Drained(c: Config, k: Core, t: Core, pushed: seq<Pair>, popped: seq<Pair>, m: int, room: nat) {
    && 0 <= m <= room && |popped| + m <= |pushed|
    && t.dft == k.dft + pushed[|popped|..|popped| + m]
    && RingHolds(t.ring, pushed, pushed[..|popped| + m])
    && t.phase == (if t.ready then Calc else Collect) && !t.ring.overflow
    && t.index == k.index && t.pointCount == k.pointCount
    && (!t.ready ==> m == room || |popped| + m == |pushed|)
    && Collected(c, t)
  }

  ghost predicate Draining(c: Config, k: Core, pushed: seq<Pair>, popped: seq<Pair>) {
    && IsConfig(c) && RingHolds(k.ring, pushed, popped) && !k.ring.overflow && k.phase.Collect? && Collected(c, k)
  }

  lemma TurnDrains(c: Config, k: Core, pushed: seq<Pair>, popped: seq<Pair>)
    requires Draining(c, k, pushed, popped) && !k.ready && |popped| < |pushed|
    ensures var next := popped + [pushed[|popped|]];
            Draining(c, Turned(c, k), pushed, next) && Turned(c, k).dft == k.dft + [pushed[|popped|]]
  {
    PopHolds(k.ring, pushed, popped);
    var dft := k.dft + [pushed[|popped|]];
    assert dft[..|dft|] == dft && dft[..|dft| - 1] == k.dft;
    forall j | 1 <= j <= |k.dft|
      ensures dft[..j] == k.dft[..j]
    {
    }
  }

  lemma FinishDrains(c: Config, k: Core, n: nat, pushed: seq<Pair>, popped: seq<Pair>)
    requires Draining(c, k, pushed, popped) && n <= BUDGET
    requires k.ready || n == BUDGET || |popped| == |pushed|
    ensures Drained(c, k, Complete(c, State(k, Head(n))).core, pushed, popped, 0, BUDGET - n)
  {
    EmptyIsExact(k.ring, pushed, popped);
    LoopEnds(c, k, n);
    var t := TaskStep(c, State(k, Finish));
    assert Complete(c, State(k, Finish)) == t;
  }

  lemma SliceMore(base: seq<Pair>, s: seq<Pair>, at: nat, m: nat)
    requires at + 1 + m <= |s|
    ensures base + [s[at]] + s[at + 1..at + 1 + m] == base + s[at..at + 1 + m]
  {
  }

  lemma OneMore(c: Config, k: Core, t: Core, pushed: seq<Pair>, popped: seq<Pair>, m: int, room: nat)
    requires |popped| < |pushed| && RingSized(k.ring) && Turned(c, k).dft == k.dft + [pushed[|popped|]]
    requires Drained(c, Turned(c, k), t, pushed, popped + [pushed[|popped|]], m, room)
    ensures Drained(c, k, t, pushed, popped, m + 1, room + 1)
  {
    SliceMore(k.dft, pushed, |popped|, m);
  }

  lemma {:induction false} LoopDrains(c: Config, k: Core, n: nat, pushed: seq<Pair>, popped: seq<Pair>) returns (m: nat)
    requires Draining(c, k, pushed, popped) && n <= BUDGET
    ensures Drained(c, k, Complete(c, State(k, Head(n))).core, pushed, popped, m, BUDGET - n)
    decreases BUDGET - n
  {
    EmptyIsExact(k.ring, pushed, popped);
    if k.ready || n == BUDGET || |popped| == |pushed| {
      FinishDrains(c, k, n, pushed, popped);
      m := 0;
    } else {
      TurnDrains(c, k, pushed, popped);
      TurnCompletes(c, k, n);
      m := LoopDrains(c, Turned(c, k), n + 1, pushed, popped + [pushed[|popped|]]);
      OneMore(c, k, Complete(c, State(k, Head(n))).core, pushed, popped, m, BUDGET - n - 1);
      m := m + 1;
    }
  }

  /** One undisturbed call of a collecting task takes the waiting samples in order: 128 of
      them, all, or just enough to complete the point. */
  lemma CallCollects(c: Config, k: Core, pushed: seq<Pair>, popped: seq<Pair>) returns (m: nat)
    requires Draining(c, k, pushed, popped)
    ensures Drained(c, k, TaskCall(c, k), pushed, popped, m, 128)
  {
    m := LoopDrains(c, k, 0, pushed, popped);
  }

  // ----- A whole sweep -----

  /** The consumer takes what is finished, one interrupt arrives, and the task is called. */
  function Round(c: Config, k: Core, x: Pair): Core
    requires IsConfig(c) && RingSized(k.ring)
  {
    TaskCall(c, Interrupt(k.(pointDone := false), x))
  }

  function Rounds(c: Config, k: Core, xs: seq<Pair>): (t: Core)
    requires IsConfig(c) && RingSized(k.ring)
    ensures RingSized(t.ring)
    decreases |xs|
  {
    if xs == [] then k else Rounds(c, Round(c, k, xs[0]), xs[1..])
  }

  /** `most` samples always complete a point, and no settle time is above `settle`. */
  ghost predicate Completes(c: Config, settle: nat, most: nat) {
    && IsConfig(c) && most > 0
    && (forall s: seq<Pair> :: |s| == most ==> !NeverValid(c, s))
    && (forall i :: 0 <= i < c.length ==> SettleSize(c, i) <= settle)
  }

  ghost predicate Empty(k: Core) {
    RingSized(k.ring) && k.ring.read == k.ring.write && !k.ring.overflow
  }

  /** The states between rounds. */
  ghost predicate Paced(c: Config, k: Core, most: nat) {
    && IsConfig(c) && RingSized(k.ring) && !k.phase.Idle? && k.index <= c.length && k.pointCount == k.index
    && (k.index == c.length <==> k.phase.Done?)
    && (k.phase.Settle? ==> k.settleSize == SettleSize(c, k.index) && k.settled < k.settleSize && k.dft == [])
    && (k.phase.Settle? || k.phase.Collect? ==> Empty(k) && !k.ready && NeverValid(c, k.dft) && |k.dft| < most)
  }

  /** Rounds that the points from `index` on may take. */
  function PointRounds(c: Config, index: nat, settle: nat, most: nat): nat
    requires index <= c.length
    decreases c.length - index
  {
    if index == c.length then 0 else settle + most + 2 + PointRounds(c, index + 1, settle, most)
  }

  /** Rounds left at most. */
  ghost function RoundsLeft(c: Config, k: Core, settle: nat, most: nat): int
    requires Paced(c, k, most)
  {
    var all := PointRounds(c, k.index, settle, most);
    match k.phase
    case Settle => all - 1 - k.settled
    case Collect => all - settle - 1 - |k.dft|
    case Calc => all - settle - most - 1
    case _ => all
  }

  lemma EmptyHolds(k: Core, x: Pair)
    requires Empty(k)
    ensures var popped := seq(k.ring.read, _ => x); RingHolds(Push(k.ring, x), popped + [x], popped)
    ensures !Push(k.ring, x).overflow
  {
    var popped := seq(k.ring.read, _ => x);
    FullIsExact(k.ring, popped, popped);
    PushHolds(k.ring, popped, popped, x);
  }

  lemma DrainedIsPaced(c: Config, k: Core, t: Core, pushed: seq<Pair>, popped: seq<Pair>, m: int, most: nat)
    requires Paced(c, k, most) && k.phase.Collect? && |pushed| == |popped| + 1
    requires Drained(c, k, t, pushed, popped, m, BUDGET)
    requires |t.dft| == most ==> !NeverValid(c, t.dft)
    ensures Paced(c, t, most) && t.index == k.index && (t.phase.Calc? || (t.phase.Collect? && |t.dft| == |k.dft| + 1))
  {
    EmptyIsExact(t.ring, pushed, pushed[..|popped| + m]);
  }

  lemma CollectRound(c: Config, k: Core, x: Pair, settle: nat, most: nat)
    requires Completes(c, settle, most) && Paced(c, k, most) && k.phase.Collect?
    ensures Paced(c, Round(c, k, x), most)
    ensures RoundsLeft(c, Round(c, k, x), settle, most) < RoundsLeft(c, k, settle, most)
  {
    var popped, pushing := seq(k.ring.read, _ => x), Interrupt(k.(pointDone := false), x);
    EmptyHolds(k, x);
    var m := CallCollects(c, pushing, popped + [x], popped);
    DrainedIsPaced(c, k, Round(c, k, x), popped + [x], popped, m, most);
  }

  /** A call that only dispatches. */
  lemma RoundIs(c: Config, k: Core, x: Pair)
    requires IsConfig(c) && RingSized(k.ring) && !k.phase.Collect?
    ensures Round(c, k, x) == Dispatch(c, Interrupt(k.(pointDone := false), x)).core
  {
    var s := Dispatch(c, Interrupt(k.(pointDone := false), x));
    assert Complete(c, s) == s;
  }

  lemma SettleRound(c: Config, k: Core, x: Pair, settle: nat, most: nat)
    requires Completes(c, settle, most) && Paced(c, k, most) && k.phase.Settle?
    ensures Paced(c, Round(c, k, x), most)
    ensures RoundsLeft(c, Round(c, k, x), settle, most) < RoundsLeft(c, k, settle, most)
  {
    RoundIs(c, k, x);
  }

  lemma OtherRound(c: Config, k: Core, x: Pair, settle: nat, most: nat)
    requires Completes(c, settle, most) && Paced(c, k, most) && (k.phase.Prepare? || k.phase.Calc?)
    ensures Paced(c, Round(c, k, x), most)
    ensures RoundsLeft(c, Round(c, k, x), settle, most) < RoundsLeft(c, k, settle, most)
  {
    RoundIs(c, k, x);
  }

  lemma DoneRound(c: Config, k: Core, x: Pair, most: nat)
    requires Paced(c, k, most) && k.phase.Done?
    ensures Paced(c, Round(c, k, x), most) && Round(c, k, x).phase.Done?
  {
    RoundIs(c, k, x);
  }

  /** A sweep whose task is called after every interrupt and whose points are taken in time
      finishes, with every point latched. */
  lemma {:induction false} RoundsFinish(c: Config, k: Core, xs: seq<Pair>, settle: nat, most: nat)
    requires Completes(c, settle, most) && Paced(c, k, most) && |xs| >= RoundsLeft(c, k, settle, most)
    ensures Rounds(c, k, xs).phase.Done? && Rounds(c, k, xs).pointCount == c.length
    decreases |xs|
  {
    if xs != [] {
      if k.phase.Done? {
        DoneRound(c, k, xs[0], most);
      } else if k.phase.Collect? {
        CollectRound(c, k, xs[0], settle, most);
      } else if k.phase.Settle? {
        SettleRound(c, k, xs[0], settle, most);
      } else {
        OtherRound(c, k, xs[0], settle, most);
      }
      RoundsFinish(c, Round(c, k, xs[0]), xs[1..], settle, most);
    }
  }

  lemma {:induction false} AllRounds(c: Config, index: nat, settle: nat, most: nat)
    requires index <= c.length
    ensures PointRounds(c, index, settle, most) == (c.length - index) * (settle + most + 2)
    decreases c.length - index
  {
    if index < c.length {
      AllRounds(c, index + 1, settle, most);
    }
  }

  /** From a start: after at most `settle + most + 2` rounds for each point. */
  lemma PacedSweepFinishes(c: Config, k: Core, xs: seq<Pair>, settle: nat, most: nat)
    requires Completes(c, settle, most) && |k.ring.buf| == RING && |xs| >= c.length * (settle + most + 2)
    ensures Rounds(c, Started(k), xs).phase.Done? && Rounds(c, Started(k), xs).pointCount == c.length
  {
    AllRounds(c, 0, settle, most);
    RoundsFinish(c, Started(k), xs, settle, most);
  }
}
