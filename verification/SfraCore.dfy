/**
  The analyzer object of code/dbg/sfra_core.c: each call of the interrupt or of the
  task, undisturbed, is the corresponding run of single steps of `SfraSweep`.
*/
module SfraCore {

  import opened Machine
  import opened SfraSweep

  // ----- A whole task call -----

  ghost predicate Bounded(s: State) {
    && Steppable(s)
    && (s.pc.Head? ==> s.pc.n <= BUDGET)
    && (s.pc.Ask? || s.pc.Loaded? || s.pc.Copied? || s.pc.Stored? ==> s.pc.n < BUDGET)
  }

  function StepsLeft(s: State): nat
    requires Bounded(s)
  {
    match s.pc
    case Rest => 0
    case Finish => 1
    case Exit => 2
    case Head(n) => 8 * (BUDGET - n) + 8
    case Ask(n) => 8 * (BUDGET - n) + 7
    case Loaded(n, _) => 8 * (BUDGET - n) + 6
    case Copied(n, _, _) => 8 * (BUDGET - n) + 5
    case Stored(n, _) => 8 * (BUDGET - n) + 4
  }

  /** Run the task from inside a call until it is back at rest. */
  function Complete(c: Config, s: State): (t: State)
    requires IsConfig(c) && Bounded(s)
    ensures Steppable(t) && t.pc.Rest?
    decreases StepsLeft(s)
  {
    if s.pc.Rest? then s else Complete(c, TaskStep(c, s))
  }

  function TaskCall(c: Config, k: Core): Core
    requires IsConfig(c) && RingSized(k.ring)
  {
    Complete(c, Dispatch(c, k)).core
  }

  lemma {:induction false} CompleteIsSteps(c: Config, s: State)
    requires IsConfig(c) && Bounded(s)
    ensures exists n :: 0 <= n <= StepsLeft(s) && TaskSteps(c, s, n) == Complete(c, s)
    decreases StepsLeft(s)
  {
    if s.pc.Rest? {
      assert TaskSteps(c, s, 0) == s;
    } else {
      var t := TaskStep(c, s);
      CompleteIsSteps(c, t);
      var n :| 0 <= n <= StepsLeft(t) && TaskSteps(c, t, n) == Complete(c, t);
      assert TaskSteps(c, s, n + 1) == TaskSteps(c, t, n);
    }
  }

  /** An undisturbed call is one run of the interleaved machine, at most 1033 steps long. */
  lemma CallIsSteps(c: Config, k: Core)
    requires IsConfig(c) && RingSized(k.ring)
    ensures exists n :: 1 <= n <= 8 * BUDGET + 9 && TaskSteps(c, State(k, Rest), n) == State(TaskCall(c, k), Rest)
  {
    var s := Dispatch(c, k);
    CompleteIsSteps(c, s);
    var n :| 0 <= n <= StepsLeft(s) && TaskSteps(c, s, n) == Complete(c, s);
    assert TaskSteps(c, State(k, Rest), n + 1) == TaskSteps(c, s, n);
  }

  /** The machine after the three memory accesses of one pop. */
  function PopDone(k: Core, n: nat): (s: State)
    requires RingSized(k.ring)
  {
    if k.ring.read == k.ring.write then State(k, Exit)
    else State(k.(ring := k.ring.(read := Next(k.ring.read))), Stored(n, k.ring.buf[k.ring.read]))
  }

  lemma PopSteps(c: Config, k: Core, n: nat)
    requires IsConfig(c) && RingSized(k.ring) && n < BUDGET && k.ring.read != k.ring.write
    ensures Complete(c, State(k, Loaded(n, k.ring.read))) == Complete(c, PopDone(k, n))
  {
    var x := k.ring.buf[k.ring.read];
    assert TaskStep(c, State(k, Loaded(n, k.ring.read))) == State(k, Copied(n, k.ring.read, x));
    assert TaskStep(c, State(k, Copied(n, k.ring.read, x))) == PopDone(k, n);
  }

  lemma PopCompletes(c: Config, k: Core, n: nat)
    requires IsConfig(c) && RingSized(k.ring) && n < BUDGET
    ensures Complete(c, State(k, Ask(n))) == Complete(c, PopDone(k, n))
  {
    if k.ring.read != k.ring.write {
      PopSteps(c, k, n);
      assert TaskStep(c, State(k, Ask(n))) == State(k, Loaded(n, k.ring.read));
    } else {
      assert TaskStep(c, State(k, Ask(n))) == State(k, Exit);
    }
  }

  /** The state after one turn of the loop that finds a sample. */
  function Turned(c: Config, k: Core): Core
    requires RingSized(k.ring)
  {
    var dft := k.dft + [k.ring.buf[k.ring.read]];
    k.(ring := k.ring.(read := Next(k.ring.read)), dft := dft, ready := k.ready || c.valid(dft))
  }

  lemma TurnCompletes(c: Config, k: Core, n: nat)
    requires IsConfig(c) && RingSized(k.ring) && n < BUDGET && !k.ready && !k.ring.overflow
    requires k.ring.read != k.ring.write
    ensures Complete(c, State(k, Head(n))) == Complete(c, State(Turned(c, k), Head(n + 1)))
  {
    assert TaskStep(c, State(k, Head(n))) == State(k, Ask(n));
    PopCompletes(c, k, n);
    var x := k.ring.buf[k.ring.read];
    assert PopDone(k, n).pc == Stored(n, x);
  }

  /** The loop ends: nothing to pop, the point ready, an overflow or the budget. */
  lemma LoopEnds(c: Config, k: Core, n: nat)
    requires IsConfig(c) && RingSized(k.ring) && n <= BUDGET
    requires k.ready || k.ring.overflow || n == BUDGET || k.ring.read == k.ring.write
    ensures Complete(c, State(k, Head(n)))
         == Complete(c, State(if k.ring.overflow then k.(phase := Prepare) else k, Finish))
  {
    if !k.ready && !k.ring.overflow && n < BUDGET {
      assert TaskStep(c, State(k, Head(n))) == State(k, Ask(n));
      PopCompletes(c, k, n);
    } else {
      assert TaskStep(c, State(k, Head(n))) == State(k, Exit);
    }
  }

  datatype Status = Ok | InvalidParam | Busy | Finished

  function StatusOf(phase: Phase): Status {
    match phase
    case Idle => Ok
    case Done => Finished
    case _ => Busy
  }

  // ----- The object -----

  class Analyzer {
    const config: Config
    const injectBuf: array<real>
    const collectBuf: array<real>
    var write: nat
    var read: nat
    var overflow: bool
    var phase: Phase
    var settled: nat
    var settleSize: nat
    var currentFreq: real
    var ready: bool
    var dft: seq<Pair>
    var index: nat
    var pointDone: bool
    var pointIndex: nat
    var pointCount: nat
    var active: bool
    var done: bool

    ghost predicate Valid()
      reads this
    {
      injectBuf != collectBuf && injectBuf.Length == collectBuf.Length == RING && write < RING && read < RING
    }

    ghost function Value(): (k: Core)
      requires Valid()
      reads this, injectBuf, collectBuf
      ensures RingSized(k.ring)
    {
      var buf := seq(RING, i requires 0 <= i < RING && Valid() reads this, injectBuf, collectBuf =>
        Pair(injectBuf[i], collectBuf[i]));
      Core(Ring(buf, write, read, overflow),
           phase, settled, settleSize, ready, dft, index, pointDone, pointIndex, pointCount, active, done)
    }

    /** An idle analyzer with an empty ring. */
    constructor (config: Config)
      ensures Valid() && this.config == config
      ensures phase.Idle? && !active && !done && !pointDone && index == 0 && !overflow && write == read == 0
    {
      this.config := config;
      injectBuf := new real[RING];
      collectBuf := new real[RING];
      write, read, overflow := 0, 0, false;
      phase, settled, settleSize, currentFreq := Idle, 0, 0, 0.0;
      ready, dft, index := false, [], 0;
      pointDone, pointIndex, pointCount, active, done := false, 0, 0, false, false;
    }

    method Clear()
      requires Valid()
      modifies this`write, this`read, this`overflow
      ensures Valid() && Value() == old(Value()).(ring := Cleared(old(Value()).ring))
    {
      write, read, overflow := 0, 0, false;
    }

    method PushSample(inject: real, collect: real)
      requires Valid()
      modifies this`write, this`overflow, injectBuf, collectBuf
      ensures Valid() && Value() == old(Value()).(ring := Push(old(Value()).ring, Pair(inject, collect)))
    {
      if overflow {
        return;
      }
      var next := (write + 1) % RING;
      if next == read {
        overflow := true;
        return;
      }
      ghost var was := Value().ring;
      injectBuf[write] := inject;
      collectBuf[write] := collect;
      assert Value().ring.buf == was.buf[write := Pair(inject, collect)];
      write := next;
    }

    method PopSample() returns (x: Option<Pair>)
      requires Valid()
      modifies this`read
      ensures Valid()
      ensures x.None? <==> old(read) == write
      ensures x.None? ==> Value() == old(Value())
      ensures x.Some? ==> x.value == old(Value()).ring.buf[old(read)]
      ensures x.Some? ==> Value() == old(Value()).(ring := old(Value()).ring.(read := Next(old(read))))
    {
      if read == write {
        return None;
      }
      x := Some(Pair(injectBuf[read], collectBuf[read]));
      read := (read + 1) % RING;
    }

    /** The post-sample interrupt. */
    method PostSample(inject: real, collect: real)
      requires Valid()
      modifies this`write, this`overflow, this`settled, injectBuf, collectBuf
      ensures Valid() && Value() == Interrupt(old(Value()), Pair(inject, collect))
    {
      if phase.Settle? {
        if settled < settleSize {
          settled := settled + 1;
        }
      } else if phase.Collect? && !ready {
        PushSample(inject, collect);
      }
    }

    method SetFrequency()
      requires Valid() && IsConfig(config)
      modifies this`currentFreq, this`settleSize
      ensures currentFreq == FreqAt(config.start, config.mul, index)
      ensures settleSize == SettleSize(config, index)
    {
      var freq := config.start;
      for i := 0 to index
        invariant freq == FreqAt(config.start, config.mul, i)
      {
        freq := Scaled(freq, config.mul);
      }
      currentFreq := freq;
      settleSize := SampleSize(config.settleCycles, freq, config.period);
    }

    /** Set up the current sweep point: its frequency by repeated multiplication. */
    method PrepareCurrent()
      requires Valid() && IsConfig(config)
      modifies this`currentFreq, this`settleSize, this`settled, this`ready, this`dft
      modifies this`write, this`read, this`overflow, this`phase
      ensures Valid() && Value() == Prepared(config, old(Value()))
      ensures currentFreq == FreqAt(config.start, config.mul, index)
    {
      SetFrequency();
      settled, ready, dft := 0, false, [];
      phase := Settle;
      Clear();
    }

    /** Feed one popped sample to both DFTs. */
    method Analyze(x: Pair)
      requires Valid()
      modifies this`dft, this`ready
      ensures Valid()
      ensures Value() == old(Value()).(dft := old(dft) + [x], ready := old(ready) || config.valid(old(dft) + [x]))
    {
      dft := dft + [x];
      if config.valid(dft) {
        ready := true;
      }
    }

    /** Pop one sample, if there is one, and feed it to the DFTs. */
    method Turn() returns (found: bool)
      requires Valid()
      modifies this`read, this`dft, this`ready
      ensures Valid()
      ensures found <==> old(read) != write
      ensures Value() == if found then Turned(config, old(Value())) else old(Value())
    {
      var x := PopSample();
      if x.None? {
        return false;
      }
      Analyze(x.value);
      found := true;
    }

    /** One turn of the loop, as a stretch of the interleaved machine. */
    method CountedTurn(n: nat) returns (found: bool)
      requires Valid() && IsConfig(config) && n < BUDGET && !ready && !overflow
      modifies this`read, this`dft, this`ready
      ensures Valid()
      ensures found <==> old(read) != write
      ensures !found ==> Value() == old(Value())
      ensures found ==> Complete(config, State(Value(), Head(n + 1))) == Complete(config, State(old(Value()), Head(n)))
    {
      if read != write {
        TurnCompletes(config, Value(), n);
      }
      found := Turn();
    }

    /** Drain up to 128 buffered samples; an overflow sends the sweep back to prepare.
        The source looks at the overflow flag again afterwards, which matters only
        when an interrupt falls inside the loop: that is the machine's Exit step. */
    method CollectSamples()
      requires Valid() && IsConfig(config) && phase.Collect?
      modifies this`read, this`phase, this`dft, this`ready
      ensures Valid()
      ensures Complete(config, State(Value(), Finish)) == Complete(config, Dispatch(config, old(Value())))
    {
      if overflow {
        phase := Prepare;
        return;
      }
      var n := 0;
      while !ready && !overflow && n < BUDGET
        invariant Valid() && n <= BUDGET && !overflow && phase.Collect?
        invariant Complete(config, State(Value(), Head(n))) == Complete(config, State(old(Value()), Head(0)))
        decreases BUDGET - n
      {
        var found := CountedTurn(n);
        if !found {
          break;
        }
        n := n + 1;
      }
      LoopEnds(config, Value(), n);
    }

    /** Publish the finished point. */
    method Latch()
      requires Valid() && phase.Calc?
      modifies this`index, this`phase, this`pointIndex, this`pointCount, this`pointDone
      ensures Valid() && Value() == Latched(config, old(Value()))
    {
      pointIndex, pointCount, pointDone := index, index + 1, true;
      index := index + 1;
      if index >= config.length {
        phase := Done;
      } else {
        phase := Prepare;
      }
    }

    /** One background call. */
    method Task() returns (status: Status)
      requires Valid()
      modifies this
      ensures Valid()
      ensures !IsConfig(config) ==> status == InvalidParam && Value() == old(Value())
      ensures IsConfig(config) ==> status == StatusOf(old(phase)) && Value() == TaskCall(config, old(Value()))
    {
      if !IsConfig(config) {
        return InvalidParam;
      }
      status := StatusOf(phase);
      match phase {
        case Idle =>
        case Prepare =>
          if !pointDone {
            PrepareCurrent();
          }
        case Settle =>
          if settled >= settleSize {
            phase := Collect;
          }
        case Collect =>
          CollectSamples();
          if ready {
            phase := Calc;
          }
        case Calc =>
          Latch();
        case Done =>
          active, done := false, true;
      }
    }

    method ClearOutput()
      requires Valid()
      modifies this`pointDone, this`pointIndex, this`pointCount
      ensures Valid() && Value() == old(Value()).(pointDone := false, pointIndex := 0, pointCount := 0)
    {
      pointIndex, pointCount, pointDone := 0, 0, false;
    }

    method Start() returns (status: Status)
      requires Valid()
      modifies this`phase, this`index, this`active, this`done, this`ready
      modifies this`write, this`read, this`overflow, this`pointDone, this`pointIndex, this`pointCount
      ensures Valid()
      ensures !IsConfig(config) ==> status == InvalidParam && Value() == old(Value())
      ensures IsConfig(config) ==> status == Busy && Value() == Started(old(Value()))
    {
      if !IsConfig(config) {
        return InvalidParam;
      }
      phase, index := Prepare, 0;
      active, done, ready := true, false, false;
      Clear();
      ClearOutput();
      status := Busy;
    }
  }
}
