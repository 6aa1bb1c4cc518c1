/**
  The wire frame of the real-time scope (code/dbg/realtime_scope.c): a marker, a
  running index, the channel values, the payload size and an additive checksum.
*/
module RealtimeFrame {

  import opened Machine
  import opened RealtimeBank

  const FRAME_MAX: nat := 261

  // ----- The frame as a value -----

  function ValueBytes(mem: Memory, address: nat, width: nat): (r: seq<byte>)
    ensures |r| == width
  {
    seq<byte>(width, j requires 0 <= j < width => mem(address + j))
  }

  /** The bytes of one channel; none for a disabled one. */
  function ChannelBytes(mem: Memory, c: Option<Channel>): seq<byte> {
    match c
    case None => []
    case Some(ch) => ValueBytes(mem, ch.address, TypeSize(ch.kind))
  }

  /** The values of the first `n` channels, in channel order. */
  function Payload(mem: Memory, channels: seq<Option<Channel>>, n: nat): seq<byte>
    requires n <= |channels|
  {
    if n == 0 then [] else Payload(mem, channels, n - 1) + ChannelBytes(mem, channels[n - 1])
  }

  function SumFrom(s: seq<byte>): nat {
    if s == [] then 0 else SumFrom(s[..|s| - 1]) + s[|s| - 1]
  }

  /** `SumFrom` behind three empty recursive steps, so that proofs see sums as atoms. */
  function FoldedSum(s: seq<byte>, folds: nat): nat
    decreases folds, |s|
  {
    if folds == 0 then SumFrom(s) else FoldedSum(s, folds - 1)
  }

  function Sum(s: seq<byte>): nat {
    FoldedSum(s, 3)
  }

  lemma SumIs(s: seq<byte>)
    ensures Sum(s) == SumFrom(s)
  {
    assert FoldedSum(s, 1) == FoldedSum(s, 0);
    assert FoldedSum(s, 2) == FoldedSum(s, 1);
  }

  /** The sum, byte by byte. */
  lemma SumSnoc(s: seq<byte>)
    ensures Sum(s) == if s == [] then 0 else Sum(s[..|s| - 1]) + s[|s| - 1]
  {
    SumIs(s);
    if s != [] {
      SumIs(s[..|s| - 1]);
    }
  }

  /** Everything but the checksum. */
  function Body(index: byte, payload: seq<byte>): (r: seq<byte>)
    requires |payload| <= 256
    ensures |r| == |payload| + 4
  {
    [0xEA, index] + payload + [|payload| % 256, |payload| / 256]
  }

  function Frame(index: byte, payload: seq<byte>): (r: seq<byte>)
    requires |payload| <= 256
    ensures |r| == |payload| + 5
  {
    Body(index, payload) + [Sum(Body(index, payload)) % 256]
  }

  /** What a receiver checks: the last byte is the sum of all preceding ones. */
  predicate ChecksumHolds(frame: seq<byte>) {
    |frame| > 0 && frame[|frame| - 1] == Sum(frame[..|frame| - 1]) % 256
  }

  lemma FrameChecks(index: byte, payload: seq<byte>)
    requires |payload| <= 256
    ensures ChecksumHolds(Frame(index, payload))
    ensures Frame(index, payload)[0] == 0xEA && Frame(index, payload)[1] == index
    ensures Frame(index, payload)[2..|payload| + 2] == payload
  {
    var f := Frame(index, payload);
    assert f[..|f| - 1] == Body(index, payload);
    assert f[2..|payload| + 2] == payload;
  }

  lemma {:induction false} SumAppend(s: seq<byte>, t: seq<byte>)
    ensures Sum(s + t) == Sum(s) + Sum(t)
    decreases |t|
  {
    SumSnoc(t);
    SumSnoc(s + t);
    if t == [] {
      assert s + t == s;
    } else {
      SumAppend(s, t[..|t| - 1]);
      assert (s + t)[..|s + t| - 1] == s + t[..|t| - 1];
    }
  }

  lemma SumChanged(s: seq<byte>, i: nat, x: byte)
    requires i < |s|
    ensures Sum(s[i := x]) == Sum(s) - s[i] + x
  {
    assert s == s[..i] + [s[i]] + s[i + 1..] && s[i := x] == s[..i] + [x] + s[i + 1..];
    SumAppend(s[..i] + [s[i]], s[i + 1..]);
    SumAppend(s[..i] + [x], s[i + 1..]);
    SumAppend(s[..i], [s[i]]);
    SumAppend(s[..i], [x]);
    SumOne(s[i]);
    SumOne(x);
  }

  /** The checksum notices every single changed byte, its own included. */
  lemma OneChangeIsNoticed(frame: seq<byte>, i: nat, x: byte)
    requires ChecksumHolds(frame) && i < |frame| && x != frame[i]
    ensures !ChecksumHolds(frame[i := x])
  {
    var body := frame[..|frame| - 1];
    if i < |body| {
      SumChanged(body, i, x);
      assert frame[i := x][..|frame| - 1] == body[i := x];
    } else {
      assert frame[i := x][..|frame| - 1] == body;
    }
  }

  lemma SumOne(b: byte)
    ensures Sum([b]) == b
  {
    assert [b][..0] == [];
    SumSnoc([b]);
    SumSnoc([]);
  }

  lemma SumTwo(a: byte, b: byte)
    ensures Sum([a, b]) == a + b
  {
    SumOne(a);
    assert [a, b][..1] == [a];
    SumSnoc([a, b]);
  }

  /** The checksum counts the payload size after the payload but the source adds
      it before: the order does not matter. */
  lemma SumOfBody(index: byte, payload: seq<byte>)
    requires |payload| <= 256
    ensures Sum(Body(index, payload)) == 0xEA + index + |payload| % 256 + |payload| / 256 + Sum(payload)
  {
    SumTwo(0xEA, index);
    SumTwo(|payload| % 256, |payload| / 256);
    SumAppend([0xEA, index], payload);
    SumAppend([0xEA, index] + payload, [|payload| % 256, |payload| / 256]);
  }

  // ----- Payload and the linked list -----

  /** Following the list from channel `i`, the next node is the next channel with bytes. */
  lemma {:induction false} PayloadSkips(mem: Memory, b: Bank, i: nat, j: nat)
    requires Good(b) && i <= j <= CHANNELS && (forall k :: i <= k < j ==> !b.enabled[k])
    ensures Payload(mem, Channels(b), j) == Payload(mem, Channels(b), i)
    decreases j
  {
    if i < j {
      PayloadSkips(mem, b, i, j - 1);
    }
  }

  lemma {:induction false} NextSkips(enabled: seq<bool>, i: nat, k: nat)
    requires i <= k < |enabled| && (NextEnabled(enabled, i).Some? ==> k < NextEnabled(enabled, i).value)
    ensures !enabled[k]
    decreases k - i
  {
    if i < k && !enabled[i] {
      NextSkips(enabled, i + 1, k);
    }
  }

  lemma {:induction false} PayloadSize(mem: Memory, b: Bank, n: nat)
    requires Good(b) && n <= CHANNELS
    ensures |Payload(mem, Channels(b), n)| == Total(b, n)
  {
    if n > 0 {
      PayloadSize(mem, b, n - 1);
    }
  }

  /** Byte `k` of the payload is byte `j` of channel `i`, read from memory in order. */
  ghost predicate ByteAt(mem: Memory, payload: seq<byte>, k: nat, address: nat) {
    k < |payload| && payload[k] == mem(address)
  }

  lemma AppendedByte(mem: Memory, before: seq<byte>, address: nat, width: nat, j: nat)
    requires j < width
    ensures ByteAt(mem, before + ValueBytes(mem, address, width), |before| + j, address + j)
  {
  }

  lemma KeptByte(mem: Memory, payload: seq<byte>, more: seq<byte>, k: nat, address: nat)
    requires ByteAt(mem, payload, k, address)
    ensures ByteAt(mem, payload + more, k, address)
  {
  }

  /** The bytes of a channel stand behind those of the channels before it, in the order
      in which they lie in memory. */
  lemma {:induction false} ChannelByte(mem: Memory, channels: seq<Option<Channel>>, n: nat, i: nat, ch: Channel,
      j: nat, at: nat)
    requires i < n <= |channels| && channels[i] == Some(ch) && j < TypeSize(ch.kind)
    requires |Payload(mem, channels, i)| == at
    ensures ByteAt(mem, Payload(mem, channels, n), at + j, ch.address + j)
    decreases n
  {
    var before := Payload(mem, channels, n - 1);
    assert Payload(mem, channels, n) == before + ChannelBytes(mem, channels[n - 1]);
    if i == n - 1 {
      AppendedByte(mem, before, ch.address, TypeSize(ch.kind), j);
    } else {
      ChannelByte(mem, channels, n - 1, i, ch, j, at);
      KeptByte(mem, before, ChannelBytes(mem, channels[n - 1]), at + j, ch.address + j);
    }
  }

  /** What an enabled channel is configured as, and where its bytes begin. */
  lemma ChannelIs(mem: Memory, b: Bank, i: nat)
    requires Good(b) && i < CHANNELS && b.enabled[i]
    ensures b.nodes[i].address.Some?
    ensures Channels(b)[i] == Some(Channel(b.nodes[i].address.value, b.nodes[i].kind))
    ensures |Payload(mem, Channels(b), i)| == Total(b, i)
  {
    assert LinkedAt(b, i);
    PayloadSize(mem, b, i);
  }

  // ----- Copying -----

  method SampleByte(mem: Memory, source: nat, target: array<byte>, at: nat) returns (value: nat)
    requires at < target.Length
    modifies target
    ensures value == mem(source)
    ensures target[..] == old(target[..])[at := mem(source)]
  {
    target[at] := mem(source);
    value := target[at];
  }

  /** `target` with `s` written at `at`. */
  function Overlay(target: seq<byte>, at: nat, s: seq<byte>): (r: seq<byte>)
    requires at + |s| <= |target|
    ensures |r| == |target|
  {
    seq<byte>(|target|, k requires 0 <= k < |target| => if at <= k < at + |s| then s[k - at] else target[k])
  }

  lemma OverlayTwice(target: seq<byte>, at: nat, s: seq<byte>, t: seq<byte>)
    requires at + |s| + |t| <= |target|
    ensures Overlay(Overlay(target, at, s), at + |s|, t) == Overlay(target, at, s + t)
  {
  }

  method SampleFour(mem: Memory, source: nat, target: array<byte>, at: nat) returns (sum: nat)
    requires at + 4 <= target.Length
    modifies target
    ensures sum == Sum(ValueBytes(mem, source, 4))
    ensures target[..] == Overlay(old(target[..]), at, ValueBytes(mem, source, 4))
  {
    sum := SampleByte(mem, source, target, at);
    var b := SampleByte(mem, source + 1, target, at + 1);
    var c := SampleByte(mem, source + 2, target, at + 2);
    var d := SampleByte(mem, source + 3, target, at + 3);
    sum := sum + b + c + d;
    SumTwo(mem(source), mem(source + 1));
    SumTwo(mem(source + 2), mem(source + 3));
    SumAppend([mem(source), mem(source + 1)], [mem(source + 2), mem(source + 3)]);
    assert ValueBytes(mem, source, 4) == [mem(source), mem(source + 1)] + [mem(source + 2), mem(source + 3)];
  }

  /** Copy one value of width one, two, four or eight. */
  method SampleValue(mem: Memory, source: nat, width: nat, target: array<byte>, at: nat) returns (sum: nat)
    requires width in {1, 2, 4, 8} && at + width <= target.Length
    modifies target
    ensures sum == Sum(ValueBytes(mem, source, width))
    ensures target[..] == Overlay(old(target[..]), at, ValueBytes(mem, source, width))
  {
    if width == 1 {
      sum := SampleByte(mem, source, target, at);
      SumOne(mem(source));
      assert ValueBytes(mem, source, 1) == [mem(source)];
    } else if width == 2 {
      sum := SampleByte(mem, source, target, at);
      var b := SampleByte(mem, source + 1, target, at + 1);
      sum := sum + b;
      SumTwo(mem(source), mem(source + 1));
      assert ValueBytes(mem, source, 2) == [mem(source), mem(source + 1)];
    } else if width == 4 {
      sum := SampleFour(mem, source, target, at);
    } else {
      sum := SampleFour(mem, source, target, at);
      var b := SampleFour(mem, source + 4, target, at + 4);
      sum := sum + b;
      var s, t := ValueBytes(mem, source, 4), ValueBytes(mem, source + 4, 4);
      assert ValueBytes(mem, source, 8) == s + t;
      SumAppend(s, t);
      OverlayTwice(old(target[..]), at, s, t);
    }
  }

  /** Visiting the next node adds that channel's bytes. */
  lemma NextNode(mem: Memory, b: Bank, i: nat)
    requires Good(b) && i <= CHANNELS && NextEnabled(b.enabled, i).Some?
    ensures var v := NextEnabled(b.enabled, i).value;
            && Usable(b.nodes[v]) && b.nodes[v].next == NextEnabled(b.enabled, v + 1)
            && Payload(mem, Channels(b), v + 1)
            == Payload(mem, Channels(b), i) + ValueBytes(mem, b.nodes[v].address.value, TypeSize(b.nodes[v].kind))
  {
    var v := NextEnabled(b.enabled, i).value;
    assert LinkedAt(b, v);
    forall k | i <= k < v
      ensures !b.enabled[k]
    {
      NextSkips(b.enabled, i, k);
    }
    PayloadSkips(mem, b, i, v);
  }

  /** At the end of the list nothing is left. */
  lemma LastNode(mem: Memory, b: Bank, i: nat)
    requires Good(b) && i <= CHANNELS && NextEnabled(b.enabled, i).None?
    ensures Payload(mem, Channels(b), CHANNELS) == Payload(mem, Channels(b), i)
  {
    forall k | i <= k < CHANNELS
      ensures !b.enabled[k]
    {
      NextSkips(b.enabled, i, k);
    }
    PayloadSkips(mem, b, i, CHANNELS);
  }

  lemma PayloadFits(mem: Memory, b: Bank, n: nat)
    requires Good(b) && n <= CHANNELS
    ensures |Payload(mem, Channels(b), n)| <= b.payloadSize <= 256
    ensures n == CHANNELS ==> |Payload(mem, Channels(b), n)| == b.payloadSize
  {
    PayloadSize(mem, b, n);
    TotalGrows(b, n, CHANNELS);
    PayloadBound(b);
  }

  /** `now` is `was` with `bytes` written from `start` to `end`, and `sum` is their sum. */
  ghost predicate Holds(bytes: seq<byte>, was: seq<byte>, start: nat, now: seq<byte>, sum: nat, end: nat) {
    end == start + |bytes| <= |was| && now == Overlay(was, start, bytes) && sum == Sum(bytes)
  }

  lemma HoldsAppend(s: seq<byte>, t: seq<byte>, was: seq<byte>, start: nat, now: seq<byte>, sum: nat, end: nat)
    requires Holds(s, was, start, now, sum, end) && end + |t| <= |was|
    ensures Holds(s + t, was, start, Overlay(now, end, t), sum + Sum(t), end + |t|)
  {
    assert Overlay(now, end, t) == Overlay(was, start, s + t) by {
      OverlayTwice(was, start, s, t);
    }
    assert Sum(s + t) == sum + Sum(t) by {
      SumAppend(s, t);
    }
  }

  /** The bytes of the channels below `i` are written. */
  ghost predicate Written(mem: Memory, b: Bank, i: nat, was: seq<byte>, start: nat, now: seq<byte>, sum: nat, end: nat)
    requires Good(b) && i <= CHANNELS
  {
    Holds(Payload(mem, Channels(b), i), was, start, now, sum, end)
  }

  lemma WrittenNext(mem: Memory, b: Bank, i: nat, was: seq<byte>, start: nat, now: seq<byte>, sum: nat, end: nat)
    requires Good(b) && i <= CHANNELS && NextEnabled(b.enabled, i).Some? && start + b.payloadSize <= |was|
    requires Written(mem, b, i, was, start, now, sum, end)
    ensures var v := NextEnabled(b.enabled, i).value;
            && Usable(b.nodes[v])
            && var value := ValueBytes(mem, b.nodes[v].address.value, TypeSize(b.nodes[v].kind));
               && end + |value| <= |now|
               && Written(mem, b, v + 1, was, start, Overlay(now, end, value), sum + Sum(value), end + |value|)
  {
    var v := NextEnabled(b.enabled, i).value;
    NextNode(mem, b, i);
    PayloadFits(mem, b, v + 1);
    var value := ValueBytes(mem, b.nodes[v].address.value, TypeSize(b.nodes[v].kind));
    HoldsAppend(Payload(mem, Channels(b), i), value, was, start, now, sum, end);
  }

  /** Copy the value of node `v`, the first enabled channel from `i` on. */
  method WriteNode(mem: Memory, bank: BankObject, ghost i: nat, v: nat, ghost was: seq<byte>, start: nat,
                   target: array<byte>, sum: nat, end: nat) returns (sum': nat, end': nat)
    requires bank.Valid() && i <= CHANNELS && NextEnabled(bank.enabled, i) == Some(v)
    requires |was| == target.Length && start + bank.payloadSize <= target.Length
    requires Written(mem, bank.Value(), i, was, start, target[..], sum, end)
    modifies target
    ensures Written(mem, bank.Value(), v + 1, was, start, target[..], sum', end')
  {
    WrittenNext(mem, bank.Value(), i, was, start, target[..], sum, end);
    var address, size := bank.nodes[v].address.value, TypeSize(bank.nodes[v].kind);
    var added := SampleValue(mem, address, size, target, end);
    sum', end' := sum + added, end + size;
  }

  /** The channel values, in list order; the sum of their bytes is returned. */
  method WriteValues(mem: Memory, bank: BankObject, target: array<byte>, start: nat) returns (sum: nat, end: nat)
    requires bank.Valid() && start + bank.payloadSize <= target.Length
    modifies target
    ensures |Payload(mem, Channels(bank.Value()), CHANNELS)| == bank.payloadSize <= 256
    ensures Written(mem, bank.Value(), CHANNELS, old(target[..]), start, target[..], sum, end)
  {
    ghost var i := 0;
    var node := bank.head;
    sum, end := 0, start;
    SumSnoc([]);
    while node.Some?
      invariant i <= CHANNELS && node == NextEnabled(bank.enabled, i)
      invariant Written(mem, bank.Value(), i, old(target[..]), start, target[..], sum, end)
      decreases CHANNELS - i
    {
      var v := node.value;
      NextNode(mem, bank.Value(), i);
      sum, end := WriteNode(mem, bank, i, v, old(target[..]), start, target, sum, end);
      i := v + 1;
      node := bank.nodes[v].next;
    }
    LastNode(mem, bank.Value(), i);
    PayloadFits(mem, bank.Value(), CHANNELS);
  }

  method WriteOne(target: array<byte>, at: nat, a: byte)
    requires at < target.Length
    modifies target
    ensures target[..] == Overlay(old(target[..]), at, [a])
  {
    target[at] := a;
  }

  method WritePair(target: array<byte>, at: nat, a: byte, b: byte)
    requires at + 2 <= target.Length
    modifies target
    ensures target[..] == Overlay(old(target[..]), at, [a, b])
  {
    target[at] := a;
    target[at + 1] := b;
  }

  lemma FrameIs(index: byte, payload: seq<byte>, low: byte, high: byte, check: byte)
    requires |payload| <= 256 && low == |payload| % 256 && high == |payload| / 256
    requires check == (0xEA + index + low + high + Sum(payload)) % 256
    ensures [0xEA, index] + payload + [low, high] + [check] == Frame(index, payload)
  {
    SumOfBody(index, payload);
  }

  lemma OverlayFour(was: seq<byte>, at: nat, a: seq<byte>, b: seq<byte>, c: seq<byte>, d: seq<byte>)
    requires at + |a| + |b| + |c| + |d| <= |was|
    ensures var w := Overlay(Overlay(was, at, a), at + |a|, b);
            Overlay(Overlay(w, at + |a + b|, c), at + |a + b + c|, d) == Overlay(was, at, a + b + c + d)
  {
    OverlayTwice(was, at, a, b);
    OverlayTwice(was, at, a + b, c);
    OverlayTwice(was, at, a + b + c, d);
  }

  /** The length and the checksum behind the payload. */
  method WriteTail(target: array<byte>, at: nat, low: byte, high: byte, check: byte)
    requires at + 3 <= target.Length
    modifies target
    ensures target[..] == Overlay(Overlay(old(target[..]), at, [low, high]), at + 2, [check])
  {
    WritePair(target, at, low, high);
    WriteOne(target, at + 2, check);
  }

  /** The four parts written one behind the other are the frame. */
  lemma FrameWritten(was: seq<byte>, at: nat, index: byte, payload: seq<byte>, low: byte, high: byte, check: byte)
    requires at + |payload| + 5 <= |was| && |payload| <= 256 && low == |payload| % 256 && high == |payload| / 256
    requires check == (0xEA + index + low + high + Sum(payload)) % 256
    ensures var w := Overlay(Overlay(was, at, [0xEA, index]), at + 2, payload);
            Overlay(Overlay(w, at + 2 + |payload|, [low, high]), at + 4 + |payload|, [check])
            == Overlay(was, at, Frame(index, payload))
  {
    FrameIs(index, payload, low, high, check);
    OverlayFour(was, at, [0xEA, index], payload, [low, high], [check]);
  }

  /** The slot written holds a frame whose last byte is the sum of all before it. */
  lemma WrittenChecks(was: seq<byte>, at: nat, index: byte, payload: seq<byte>)
    requires at + |payload| + 5 <= |was| && |payload| <= 256
    ensures ChecksumHolds(Overlay(was, at, Frame(index, payload))[at..at + |payload| + 5])
  {
    FrameChecks(index, payload);
    assert Overlay(was, at, Frame(index, payload))[at..at + |payload| + 5] == Frame(index, payload);
  }

  /** Byte `j` of channel `i` stands in the frame at `at` as it lies in memory. */
  ghost predicate CarriesByte(mem: Memory, b: Bank, slots: seq<byte>, at: nat, i: nat, j: nat)
    requires Sized(b) && i < CHANNELS
  {
    b.enabled[i] && j < TypeSize(b.nodes[i].kind) ==>
      && b.nodes[i].address.Some? && at + 2 + Total(b, i) + j < |slots|
      && slots[at + 2 + Total(b, i) + j] == mem(b.nodes[i].address.value + j)
  }

  /** So do all bytes of all enabled channels. */
  ghost predicate Carries(mem: Memory, b: Bank, slots: seq<byte>, at: nat)
    requires Sized(b)
  {
    forall i, j :: 0 <= i < CHANNELS && 0 <= j < 8 ==> CarriesByte(mem, b, slots, at, i, j)
  }

  lemma FrameByte(was: seq<byte>, at: nat, index: byte, payload: seq<byte>, k: nat)
    requires |payload| <= 256 && k < |payload| && at + |payload| + 5 <= |was|
    ensures Overlay(was, at, Frame(index, payload))[at + 2 + k] == payload[k]
  {
  }

  lemma FrameCarriesByte(mem: Memory, b: Bank, payload: seq<byte>, was: seq<byte>, at: nat, index: byte,
      i: nat, j: nat)
    requires Sized(b) && i < CHANNELS && b.nodes[i].address.Some? && |payload| <= 256 && at + |payload| + 5 <= |was|
    requires ByteAt(mem, payload, Total(b, i) + j, b.nodes[i].address.value + j)
    ensures CarriesByte(mem, b, Overlay(was, at, Frame(index, payload)), at, i, j)
  {
    FrameByte(was, at, index, payload, Total(b, i) + j);
  }

  lemma ChannelCarried(mem: Memory, b: Bank, payload: seq<byte>, was: seq<byte>, at: nat, index: byte, i: nat, j: nat)
    requires Good(b) && payload == Payload(mem, Channels(b), CHANNELS) && |payload| <= 256
    requires at + |payload| + 5 <= |was| && i < CHANNELS && b.enabled[i] && j < TypeSize(b.nodes[i].kind)
    ensures CarriesByte(mem, b, Overlay(was, at, Frame(index, payload)), at, i, j)
  {
    ChannelIs(mem, b, i);
    ChannelByte(mem, Channels(b), CHANNELS, i, Channel(b.nodes[i].address.value, b.nodes[i].kind), j, Total(b, i));
    FrameCarriesByte(mem, b, payload, was, at, index, i, j);
  }

  lemma FrameCarries(mem: Memory, b: Bank, payload: seq<byte>, was: seq<byte>, at: nat, index: byte)
    requires Good(b) && payload == Payload(mem, Channels(b), CHANNELS) && |payload| <= 256
    requires at + |payload| + 5 <= |was|
    ensures Carries(mem, b, Overlay(was, at, Frame(index, payload)), at)
  {
    forall i, j | 0 <= i < CHANNELS && 0 <= j < 8
      ensures CarriesByte(mem, b, Overlay(was, at, Frame(index, payload)), at, i, j)
    {
      if b.enabled[i] && j < TypeSize(b.nodes[i].kind) {
        ChannelCarried(mem, b, payload, was, at, index, i, j);
      }
    }
  }

  /** Write one frame: every channel's bytes as they lie in memory, framed and summed. */
  method WriteFrame(mem: Memory, bank: BankObject, target: array<byte>, tail: nat, index: byte)
    requires bank.Valid() && tail + bank.payloadSize + 5 <= target.Length
    modifies target
    ensures |Payload(mem, Channels(bank.Value()), CHANNELS)| == bank.payloadSize <= 256
    ensures target[..] == Overlay(old(target[..]), tail, Frame(index, Payload(mem, Channels(bank.Value()), CHANNELS)))
    ensures ChecksumHolds(target[tail..tail + bank.payloadSize + 5])
    ensures Carries(mem, bank.Value(), target[..], tail)
  {
    ghost var was := target[..];
    PayloadBound(bank.Value());
    var low, high: byte := bank.payloadSize % 256, bank.payloadSize / 256;
    WritePair(target, tail, 0xEA, index);
    var sum, at := WriteValues(mem, bank, target, tail + 2);
    var check: byte := (0xEA + index + low + high + sum) % 256;
    WriteTail(target, at, low, high, check);
    FrameWritten(was, tail, index, Payload(mem, Channels(bank.Value()), CHANNELS), low, high, check);
    WrittenChecks(was, tail, index, Payload(mem, Channels(bank.Value()), CHANNELS));
    FrameCarries(mem, bank.Value(), Payload(mem, Channels(bank.Value()), CHANNELS), was, tail, index);
  }
}
