/**
  The task side of the real-time scope (code/dbg/realtime_scope_service.c): the
  request queue, the transport reader and the stop on a lost connection.
*/
module RealtimeService {

  import opened Machine
  import opened RealtimeFrame
  import opened RealtimeSession
  import opened RealtimeScope
  import CodecCommon

  const REQUEST_DEPTH: nat := 4

  // ----- Requests -----

  /** Control requests wait in a four-slot ring and are handled first come, first served. */
  class RequestQueue<T(0)> {
    const requests: array<T>
    var first: nat
    var count: nat

    ghost predicate Valid()
      reads this
    {
      requests.Length == REQUEST_DEPTH && first < REQUEST_DEPTH && count <= REQUEST_DEPTH
    }

    function Place(k: nat): (r: nat)
      requires Valid() && k <= count
      reads this
      ensures r < REQUEST_DEPTH
    {
      (first + k) % REQUEST_DEPTH
    }

    ghost function Contents(): (s: seq<T>)
      requires Valid()
      reads this, requests
      ensures |s| == count
    {
      seq(count, k requires 0 <= k < count && Valid() reads this, requests => requests[Place(k)])
    }

    constructor ()
      ensures Valid() && Contents() == [] && fresh(requests)
    {
      requests := new T[REQUEST_DEPTH];
      first, count := 0, 0;
    }

    /** Refused exactly when four requests are waiting. */
    method Submit(request: T) returns (queued: bool)
      requires Valid()
      modifies this, requests
      ensures Valid()
      ensures queued <==> |old(Contents())| < REQUEST_DEPTH
      ensures Contents() == old(Contents()) + if queued then [request] else []
    {
      if count >= REQUEST_DEPTH {
        return false;
      }
      ghost var was := Contents();
      requests[Place(count)] := request;
      count := count + 1;
      assert forall k :: 0 <= k < |was| ==> Contents()[k] == was[k];
      queued := true;
    }

    method Take() returns (request: Option<T>)
      requires Valid()
      modifies this
      ensures Valid()
      ensures request == if old(Contents()) == [] then None else Some(old(Contents())[0])
      ensures Contents() == if old(Contents()) == [] then [] else old(Contents())[1..]
    {
      if count == 0 {
        return None;
      }
      ghost var was := Contents();
      request := Some(requests[first]);
      first := (first + 1) % REQUEST_DEPTH;
      count := count - 1;
      assert forall k :: 0 <= k < count ==> Contents()[k] == was[k + 1];
    }

    /** One management pass hands over every waiting request, in order of arrival. */
    method TakeAll() returns (taken: seq<T>)
      requires Valid()
      modifies this
      ensures Valid() && Contents() == [] && taken == old(Contents())
    {
      taken := [];
      for i := 0 to REQUEST_DEPTH
        invariant Valid() && |taken| == i && taken + Contents() == old(Contents())
      {
        var request := Take();
        if request.None? {
          return;
        }
        taken := taken + [request.value];
      }
    }
  }

  // ----- Reading -----

  function PopAll(s: Session, n: nat): Session {
    if n == 0 then s else PopStep(PopAll(s, n - 1))
  }

  lemma {:induction false} PopAllQueue(s: Session, n: nat)
    requires n <= |s.queue|
    ensures PopAll(s, n).queue == s.queue[n..]
  {
    if n > 0 {
      PopAllQueue(s, n - 1);
    }
  }

  function Concat(frames: seq<seq<byte>>): seq<byte> {
    if frames == [] then [] else Concat(frames[..|frames| - 1]) + frames[|frames| - 1]
  }

  /** `bytes` are the first `frames` frames of the queue, and they have been taken out. */
  ghost predicate Delivered(was: Session, now: Session, frames: nat, bytes: seq<byte>) {
    frames <= |was.queue| && now == PopAll(was, frames) && bytes == Concat(was.queue[..frames])
  }

  lemma DeliverOne(was: Session, now: Session, frames: nat, bytes: seq<byte>)
    requires Delivered(was, now, frames, bytes)
    ensures now.queue == [] <==> frames == |was.queue|
    ensures now.queue != [] ==> Delivered(was, PopStep(now), frames + 1, bytes + now.queue[0])
  {
    PopAllQueue(was, frames);
    if frames < |was.queue| {
      assert was.queue[..frames + 1][..frames] == was.queue[..frames];
    }
  }

  class Service {
    const sampler: Sampler
    var session: nat

    ghost predicate Valid()
      reads this, sampler, sampler.active, sampler.config
    {
      sampler.Valid()
    }

    constructor (sampler: Sampler, session: nat)
      requires sampler.Valid()
      ensures Valid() && this.sampler == sampler && this.session == session
    {
      this.sampler := sampler;
      this.session := session;
    }

    /** The connection part of a management pass: a lost or replaced data session
        stops the acquisition and drops the queue. */
    method CheckConnection(connected: bool, current: nat)
      requires Valid()
      modifies this, sampler`running, sampler`head, sampler`count
      ensures Valid() && session == current
      ensures sampler.Value()
           == if connected && current == old(session) then old(sampler.Value()) else AbandonStep(old(sampler.Value()))
    {
      if !connected || current != session {
        sampler.Abandon();
      }
      session := current;
    }

    /** Move one frame into the transport buffer. */
    method MoveFrame(frame: array<byte>, data: array<byte>, size: nat, capacity: nat) returns (moved: Option<nat>)
      requires Valid() && frame.Length == FRAME_MAX && capacity <= data.Length && frame != data
      requires sampler.queue != frame && sampler.queue != data
      requires size + sampler.active.payloadSize + 5 <= capacity
      modifies sampler`head, sampler`count, sampler`headSlot, sampler`dequeued, frame, data
      ensures Valid() && sampler.Value() == PopStep(old(sampler.Value()))
      ensures moved.None? <==> old(sampler.Value()).queue == []
      ensures moved.None? ==> data[..size] == old(data[..size])
      ensures moved.Some? ==> moved.value == sampler.active.payloadSize + 5 > 5
      ensures moved.Some? ==> data[..size + moved.value] == old(data[..size]) + old(sampler.Value()).queue[0]
    {
      moved := sampler.Pop(frame);
      if moved.Some? {
        CodecCommon.CopyInto(data, size, frame[..moved.value]);
      }
    }

    /** One more frame delivered, or none left. */
    method DeliverFrame(frame: array<byte>, data: array<byte>, size: nat, capacity: nat,
                        ghost was: Session, ghost frames: nat) returns (moved: Option<nat>)
      requires Valid() && frame.Length == FRAME_MAX && capacity <= data.Length && frame != data
      requires sampler.queue != frame && sampler.queue != data
      requires size + sampler.active.payloadSize + 5 <= capacity
      requires Delivered(was, sampler.Value(), frames, data[..size])
      modifies sampler`head, sampler`count, sampler`headSlot, sampler`dequeued, frame, data
      ensures Valid()
      ensures moved.None? ==> frames == |was.queue| && Delivered(was, sampler.Value(), frames, data[..size])
      ensures moved.Some? ==> 0 < moved.value == sampler.active.payloadSize + 5
      ensures moved.Some? ==> Delivered(was, sampler.Value(), frames + 1, data[..size + moved.value])
    {
      DeliverOne(was, sampler.Value(), frames, data[..size]);
      moved := MoveFrame(frame, data, size, capacity);
    }

    /** One turn of the read loop; it is done when the next frame would not fit or is not there. */
    method DrainTurn(frame: array<byte>, data: array<byte>, size: nat, capacity: nat, ghost was: Session,
        ghost frames: nat) returns (done: bool, size': nat, ghost frames': nat)
      requires Valid() && frame.Length == FRAME_MAX && size <= capacity <= data.Length && frame != data
      requires sampler.queue != frame && sampler.queue != data && Delivered(was, sampler.Value(), frames, data[..size])
      modifies sampler`head, sampler`count, sampler`headSlot, sampler`dequeued, frame, data
      ensures Valid() && size' <= capacity && Delivered(was, sampler.Value(), frames', data[..size'])
      ensures !done ==> size < size'
      ensures done ==> frames' == |was.queue| || capacity - size' < sampler.active.payloadSize + 5
    {
      done, size', frames' := true, size, frames;
      if capacity - size < sampler.active.payloadSize + 5 {
        return;
      }
      var moved := DeliverFrame(frame, data, size, capacity, was, frames);
      if moved.Some? {
        done, size', frames' := false, size + moved.value, frames + 1;
      }
    }

    /** Copy out as many whole frames as are queued and fit, oldest first. */
    method Drain(data: array<byte>, capacity: nat) returns (size: nat, ghost frames: nat)
      requires Valid() && capacity <= data.Length && sampler.queue != data
      modifies sampler`head, sampler`count, sampler`headSlot, sampler`dequeued, data
      ensures Valid() && size <= capacity && Delivered(old(sampler.Value()), sampler.Value(), frames, data[..size])
      ensures frames == |old(sampler.Value()).queue| || capacity - size < sampler.active.payloadSize + 5
    {
      size, frames := 0, 0;
      var frame := new byte[FRAME_MAX];
      ghost var was := sampler.Value();
      while capacity - size >= 6
        invariant Valid() && size <= capacity && fresh(frame)
        invariant Delivered(was, sampler.Value(), frames, data[..size])
        decreases capacity - size
      {
        var done;
        done, size, frames := DrainTurn(frame, data, size, capacity, was, frames);
        if done {
          return;
        }
      }
      DrainEnds(was, frames, data[..size], capacity - size);
    }

    /** Less room than any frame needs is less than this acquisition's frames need. */
    lemma DrainEnds(was: Session, frames: nat, bytes: seq<byte>, room: nat)
      requires Valid() && Delivered(was, sampler.Value(), frames, bytes) && room < 6
      ensures frames == |was.queue| || room < sampler.active.payloadSize + 5
    {
      DeliverOne(was, sampler.Value(), frames, bytes);
    }

    /** The transport callback: nothing without the session the acquisition belongs to. */
    method Read(data: array<byte>, capacity: nat, connected: bool, current: nat) returns (size: nat, ghost frames: nat)
      requires Valid() && capacity <= data.Length && sampler.queue != data
      modifies sampler`head, sampler`count, sampler`headSlot, sampler`dequeued, data
      ensures Valid() && size <= capacity && Delivered(old(sampler.Value()), sampler.Value(), frames, data[..size])
      ensures !connected || current != session ==> size == 0 && frames == 0
      ensures connected && current == session ==>
                frames == |old(sampler.Value()).queue| || capacity - size < sampler.active.payloadSize + 5
    {
      if !connected || current != session {
        return 0, 0;
      }
      size, frames := Drain(data, capacity);
    }
  }
}
