/**
  The real-time scope object (code/dbg/realtime_scope.c): two banks that swap
  roles, and a byte buffer used as a ring of whole frames.
*/
module RealtimeScope {

  import opened Machine
  import opened Circular
  import opened RealtimeBank
  import opened RealtimeFrame
  import opened RealtimeSession
  import CodecCommon

  const CAPACITY_MAX: nat := (WORD - 1) / 2

  predicate CanInit(capacity: nat) {
    FRAME_MAX <= capacity <= CAPACITY_MAX
  }

  // ----- Frames in a byte buffer -----

  /** The next ring position. */
  function Advance(slot: nat, slots: nat): (r: nat)
    requires slot < slots
    ensures r < slots
  {
    if slot + 1 == slots then 0 else slot + 1
  }

  lemma {:induction false} SlotFits(slot: nat, slots: nat, size: nat)
    requires slot < slots
    ensures slot * size + size <= slots * size
    decreases slots
  {
    if slot + 1 < slots {
      SlotFits(slot, slots - 1, size);
    }
  }

  function FrameIn(bytes: seq<byte>, slot: nat, size: nat): seq<byte> {
    if slot * size + size <= |bytes| then bytes[slot * size..slot * size + size] else []
  }

  /** The `count` frames from ring position `head` on. */
  function QueueIn(bytes: seq<byte>, head: nat, count: nat, slots: nat, size: nat): (r: seq<seq<byte>>)
    requires head < slots
    ensures |r| == count
    decreases count
  {
    if count == 0 then []
    else [FrameIn(bytes, head, size)] + QueueIn(bytes, Advance(head, slots), count - 1, slots, size)
  }

  /** The ring position `count` places after `head`. */
  function TailOf(head: nat, count: nat, slots: nat): (r: nat)
    requires head < slots
    ensures r < slots
    decreases count
  {
    if count == 0 then head else TailOf(Advance(head, slots), count - 1, slots)
  }

  lemma {:induction false} TailIs(head: nat, count: nat, slots: nat)
    requires head < slots && count <= slots
    ensures TailOf(head, count, slots) == if head + count < slots then head + count else head + count - slots
    decreases count
  {
    if count > 0 {
      TailIs(Advance(head, slots), count - 1, slots);
    }
  }

  lemma {:induction false} TailAdvances(head: nat, count: nat, slots: nat)
    requires head < slots
    ensures TailOf(head, count + 1, slots) == Advance(TailOf(head, count, slots), slots)
    decreases count
  {
    if count > 0 {
      TailAdvances(Advance(head, slots), count - 1, slots);
    }
  }

  /** Writing one slot leaves every other slot alone. */
  lemma WriteElsewhere(bytes: seq<byte>, slot: nat, other: nat, slots: nat, size: nat, f: seq<byte>)
    requires slot < slots && other < slots && slot != other && |f| == size && slots * size <= |bytes|
    ensures slot * size + size <= |bytes|
    ensures FrameIn(Overlay(bytes, slot * size, f), other, size) == FrameIn(bytes, other, size)
  {
    SlotFits(slot, slots, size);
    SlotFits(other, slots, size);
    if slot < other {
      SlotFits(slot, other, size);
    } else {
      SlotFits(other, slot, size);
    }
  }

  /** Writing a frame at the tail appends it to the queue. */
  lemma {:induction false} PushFrame(bytes: seq<byte>, head: nat, count: nat, slots: nat, size: nat, f: seq<byte>)
    requires head < slots && count < slots && |f| == size && slots * size <= |bytes|
    ensures TailOf(head, count, slots) * size + size <= |bytes|
    ensures QueueIn(Overlay(bytes, TailOf(head, count, slots) * size, f), head, count + 1, slots, size)
         == QueueIn(bytes, head, count, slots, size) + [f]
    decreases count
  {
    var tail := TailOf(head, count, slots);
    SlotFits(tail, slots, size);
    var after := Overlay(bytes, tail * size, f);
    if count == 0 {
      assert FrameIn(after, tail, size) == f;
      assert QueueIn(after, head, 1, slots, size) == [f];
    } else {
      TailIs(head, count, slots);
      WriteElsewhere(bytes, tail, head, slots, size, f);
      PushFrame(bytes, Advance(head, slots), count - 1, slots, size, f);
    }
  }

  lemma OffsetAdvances(slot: nat, slots: nat, size: nat)
    requires slot < slots && size > 0
    ensures slot * size + size == slots * size <==> slot + 1 == slots
    ensures Advance(slot, slots) * size == if slot * size + size == slots * size then 0 else slot * size + size
  {
    assert slot * size + size == (slot + 1) * size;
    if slot + 1 < slots {
      SlotFits(slot + 1, slots, size);
    }
  }

  // ----- The ring bookkeeping -----

  datatype Geometry = Geometry(size: nat, slots: nat, limit: nat, head: nat, tail: nat, count: nat)

  /** Head and tail are the byte offsets of ring positions `slot` and `count` further. */
  ghost predicate RingOk(g: Geometry, slot: nat, length: nat) {
    && 5 < g.size <= FRAME_MAX && g.limit == g.slots * g.size <= length
    && slot < g.slots && g.count <= g.slots
    && g.head == slot * g.size && g.tail == TailOf(slot, g.count, g.slots) * g.size
  }

  function Popped(g: Geometry): Geometry
    requires g.count > 0
  {
    g.(head := if g.head + g.size == g.limit then 0 else g.head + g.size, count := g.count - 1)
  }

  lemma PopRing(g: Geometry, slot: nat, bytes: seq<byte>)
    requires RingOk(g, slot, |bytes|) && g.count > 0
    ensures RingOk(Popped(g), Advance(slot, g.slots), |bytes|)
    ensures g.head + g.size <= |bytes|
    ensures QueueIn(bytes, slot, g.count, g.slots, g.size)
         == [bytes[g.head..g.head + g.size]] + QueueIn(bytes, Advance(slot, g.slots), g.count - 1, g.slots, g.size)
  {
    SlotFits(slot, g.slots, g.size);
    OffsetAdvances(slot, g.slots, g.size);
  }

  function Pushed(g: Geometry): Geometry {
    g.(tail := if g.tail + g.size == g.limit then 0 else g.tail + g.size, count := g.count + 1)
  }

  lemma PushRing(g: Geometry, slot: nat, bytes: seq<byte>, f: seq<byte>)
    requires RingOk(g, slot, |bytes|) && g.count < g.slots && |f| == g.size
    ensures RingOk(Pushed(g), slot, |bytes|)
    ensures g.tail + g.size <= |bytes|
    ensures QueueIn(Overlay(bytes, g.tail, f), slot, g.count + 1, g.slots, g.size)
         == QueueIn(bytes, slot, g.count, g.slots, g.size) + [f]
  {
    var at := TailOf(slot, g.count, g.slots);
    SlotFits(at, g.slots, g.size);
    PushFrame(bytes, slot, g.count, g.slots, g.size, f);
    OffsetAdvances(at, g.slots, g.size);
    TailAdvances(slot, g.count, g.slots);
  }

  /** As many whole frames as fit. */
  lemma WholeFrames(capacity: nat, size: nat)
    requires 5 < size <= capacity && size <= FRAME_MAX
    ensures 0 < capacity / size
    ensures RingOk(Geometry(size, capacity / size, capacity / size * size, 0, 0, 0), 0, capacity)
  {
    var q := capacity / size;
    assert capacity == size * q + capacity % size;
    if q == 0 {
      assert false;
    }
  }

  // ----- The object -----

  class Sampler {
    var active: BankObject
    var config: BankObject
    const queue: array<byte>
    var frameSize: nat
    var queueFrames: nat
    var queueLimit: nat
    var head: nat
    var tail: nat
    var count: nat
    var samples: U32
    var overflows: U32
    var highWater: nat
    var dequeued: U32
    var index: byte
    var running: bool
    /** The ring position `head` stands for. */
    ghost var headSlot: nat

    /** Sampling, or frames still to be taken out. */
    predicate Live()
      reads this
    {
      running || count > 0
    }

    ghost function Layout(): Geometry
      reads this
    {
      Geometry(frameSize, queueFrames, queueLimit, head, tail, count)
    }

    /** The ring as set up by the last start; only meaningful while live. */
    ghost predicate Ring()
      reads this, active
    {
      frameSize == active.payloadSize + 5 && RingOk(Layout(), headSlot, queue.Length)
    }

    ghost predicate Valid()
      reads this, active, config
    {
      && active != config && active.Valid() && config.Valid() && CanInit(queue.Length)
      && (Live() ==> Ring())
    }

    ghost function Queued(): seq<seq<byte>>
      reads this, active, config, queue
      requires Valid()
    {
      if count == 0 then [] else QueueIn(queue[..], headSlot, count, queueFrames, frameSize)
    }

    ghost function Value(): Session
      reads this, active, config, queue
      requires Valid()
    {
      Session(running, Queued(), index, samples, overflows, highWater, dequeued, queueFrames)
    }

    constructor (queue: array<byte>)
      requires CanInit(queue.Length)
      ensures Valid() && fresh(active) && fresh(config) && this.queue == queue
      ensures CanStart(Value()) && Fresh(Value())
      ensures forall i :: 0 <= i < CHANNELS ==> Channels(active.Value())[i] == Channels(config.Value())[i] == None
    {
      this.queue := queue;
      active := new BankObject();
      config := new BankObject();
      frameSize, queueFrames, queueLimit, head, tail, count := 0, 0, 0, 0, 0, 0;
      samples, overflows, highWater, dequeued, index, running := 0, 0, 0, 0, 0, false;
      headSlot := 0;
    }

    method Clear()
      requires Valid()
      modifies config
      ensures Valid() && Value() == old(Value()) && active.Value() == old(active.Value())
      ensures forall i :: 0 <= i < CHANNELS ==> Channels(config.Value())[i] == None
    {
      config.Clear();
    }

    method SetChannel(channel: nat, address: Option<nat>, kind: nat) returns (ok: bool)
      requires Valid()
      modifies config
      ensures Valid() && Value() == old(Value()) && active.Value() == old(active.Value())
      ensures ok <==> Accepts(channel, address, kind)
      ensures !ok ==> config.Value() == old(config.Value())
      ensures ok ==> Channels(config.Value()) == Configured(old(Channels(config.Value())), channel, address, kind)
    {
      ok := config.Set(channel, address, kind);
    }

    /** Exchange the banks; refused while anything is sampled or queued. */
    method Swap() returns (ok: bool)
      requires Valid()
      modifies this`active, this`config
      ensures Valid() && Value() == old(Value())
      ensures ok <==> old(CanStart(Value())) && true in old(config.enabled)
      ensures active == old(if ok then config else active) && config == old(if ok then active else config)
    {
      if running || count != 0 || true !in config.enabled {
        return false;
      }
      active, config := config, active;
      ok := true;
    }

    /** Lay out an empty ring of whole frames for the active bank. */
    method Rewind()
      requires active.Valid() && CanInit(queue.Length) && true in active.enabled
      modifies this`frameSize, this`queueFrames, this`queueLimit, this`head, this`tail, this`count, this`headSlot
      ensures Ring() && count == 0 && queueFrames == queue.Length / (active.payloadSize + 5) > 0
    {
      PayloadBound(active.Value());
      frameSize := active.payloadSize + 5;
      WholeFrames(queue.Length, frameSize);
      queueFrames := queue.Length / frameSize;
      queueLimit := queueFrames * frameSize;
      head, tail, count := 0, 0, 0;
      headSlot := 0;
    }

    method ResetCounters()
      modifies this`index, this`samples, this`overflows, this`highWater, this`dequeued
      ensures index == samples == overflows == highWater == dequeued == 0
    {
      index, samples, overflows, highWater, dequeued := 0, 0, 0, 0, 0;
    }

    method Start() returns (ok: bool)
      requires Valid()
      modifies this
      ensures Valid() && active == old(active) && config == old(config)
      ensures ok <==> old(CanStart(Value())) && true in active.enabled
      ensures ok ==> Value() == StartStep(queueFrames) && queueFrames == queue.Length / (active.payloadSize + 5) > 0
      ensures !ok ==> Value() == old(Value())
    {
      if running || count != 0 || true !in active.enabled {
        return false;
      }
      Restart();
      ok := true;
    }

    method Restart()
      requires Valid() && CanStart(Value()) && true in active.enabled
      modifies this`index, this`samples, this`overflows, this`highWater, this`dequeued, this`running
      modifies this`frameSize, this`queueFrames, this`queueLimit, this`head, this`tail, this`count, this`headSlot
      ensures Valid() && Value() == StartStep(queueFrames)
      ensures queueFrames == queue.Length / (active.payloadSize + 5) > 0
    {
      ResetCounters();
      Rewind();
      running := true;
    }

    method Stop()
      requires Valid()
      modifies this`running
      ensures Valid() && Value() == StopStep(old(Value()))
    {
      running := false;
    }

    /** One sampling interrupt with memory contents `mem`. */
    method Sample(mem: Memory)
      requires Valid()
      modifies this, queue
      ensures Valid() && active == old(active) && config == old(config)
      ensures |Payload(mem, Channels(active.Value()), CHANNELS)| <= 256
      ensures Value() == SampleStep(old(Value()), Payload(mem, Channels(active.Value()), CHANNELS))
    {
      PayloadFits(mem, active.Value(), CHANNELS);
      if !running {
        return;
      }
      if count >= queueFrames {
        Overflow();
      } else {
        Take(mem, Payload(mem, Channels(active.Value()), CHANNELS));
      }
    }

    /** A full queue stops the acquisition. */
    method Overflow()
      requires Valid() && running
      modifies this`overflows, this`running
      ensures Valid() && overflows == Up(old(overflows)) && !running && Queued() == old(Queued())
    {
      overflows := Up(overflows);
      running := false;
    }

    method Take(mem: Memory, ghost values: Values)
      requires Valid() && running && count < queueFrames
      requires values == Payload(mem, Channels(active.Value()), CHANNELS)
      modifies this`tail, this`count, this`index, this`highWater, this`samples, queue
      ensures Valid() && |Queued()| == count == old(count) + 1
      ensures Value() == SampleStep(old(Value()), values)
    {
      Store(mem, values);
      CountSample();
    }

    method CountSample()
      modifies this`index, this`highWater, this`samples
      ensures index == (old(index) + 1) % 256 && samples == Up(old(samples))
      ensures highWater == if count > old(highWater) then count else old(highWater)
    {
      index := (index + 1) % 256;
      if count > highWater {
        highWater := count;
      }
      samples := Up(samples);
    }

    /** Write one frame at the tail and publish it. */
    method Store(mem: Memory, ghost values: Values)
      requires Valid() && running && count < queueFrames
      requires values == Payload(mem, Channels(active.Value()), CHANNELS)
      modifies this`tail, this`count, queue
      ensures Valid() && count == old(count) + 1
      ensures Queued() == old(Queued()) + [Frame(index, values)]
    {
      ghost var was, g := queue[..], Layout();
      PayloadFits(mem, active.Value(), CHANNELS);
      PushRing(g, headSlot, was, Frame(index, values));
      WriteFrame(mem, active, queue, tail, index);
      tail := tail + frameSize;
      if tail == queueLimit {
        tail := 0;
      }
      count := count + 1;
      assert Layout() == Pushed(g);
    }

    /** Release the oldest frame. */
    method Drop()
      requires Valid() && count > 0
      modifies this`head, this`count, this`headSlot
      ensures Valid() && count == old(count) - 1
      ensures old(Queued()) != [] && Queued() == old(Queued())[1..]
    {
      ghost var g := Layout();
      PopRing(g, headSlot, queue[..]);
      head := head + frameSize;
      if head == queueLimit {
        head := 0;
      }
      headSlot := Advance(headSlot, queueFrames);
      count := count - 1;
      assert Layout() == Popped(g);
    }

    method CopyOldest(frame: array<byte>)
      requires Valid() && count > 0 && frame.Length == FRAME_MAX && frame != queue
      modifies frame
      ensures frameSize <= FRAME_MAX && frame[..frameSize] == Queued()[0]
    {
      PopRing(Layout(), headSlot, queue[..]);
      CodecCommon.CopyInto(frame, 0, queue[head..head + frameSize]);
      assert frame[..frameSize] == frame[0..0 + frameSize];
    }

    /** Copy the oldest frame out, whole. */
    method Pop(frame: array<byte>) returns (size: Option<nat>)
      requires Valid() && frame.Length == FRAME_MAX && frame != queue
      modifies this`head, this`count, this`headSlot, this`dequeued, frame
      ensures Valid() && Value() == PopStep(old(Value()))
      ensures size.None? <==> old(Value()).queue == []
      ensures size.Some? ==> size.value == frameSize <= FRAME_MAX && frame[..size.value] == old(Value()).queue[0]
    {
      if count == 0 {
        return None;
      }
      CopyOldest(frame);
      Drop();
      dequeued := Up(dequeued);
      size := Some(frameSize);
    }

    /** The service's stop: queued frames are dropped by resetting head and count.
        The tail keeps its stale value; it is not read again before a start. */
    method Abandon()
      requires Valid()
      modifies this`running, this`head, this`count
      ensures Valid() && Value() == AbandonStep(old(Value())) && tail == old(tail)
    {
      Stop();
      head := 0;
      count := 0;
    }
  }
}
