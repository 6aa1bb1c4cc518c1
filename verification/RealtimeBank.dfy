/**
  The channel banks of the real-time scope (code/dbg/realtime_scope.c): thirty-two
  nodes in a fixed array, the enabled ones linked in ascending channel order.
  A node reference is the node's position; a missing one stands for NULL.
*/
module RealtimeBank {

  import opened Machine

  const CHANNELS: nat := 32
  const SIZES: seq<nat> := [0, 1, 1, 2, 2, 4, 4, 8, 8, 4, 8, 1]

  type Memory = nat -> byte

  /** Width in bytes of a wire type; zero for an unknown one. */
  function TypeSize(kind: nat): (r: nat)
    ensures r in {0, 1, 2, 4, 8}
  {
    if kind < |SIZES| then SIZES[kind] else 0
  }

  /** Kinds 1 to 11: signed and unsigned integers of 8, 16, 32 and 64 bits, the two
      floating-point kinds, and truth values; everything else is unknown. */
  lemma WidthsAre(kind: nat)
    ensures kind in {1, 2, 11} <==> TypeSize(kind) == 1
    ensures kind in {3, 4} <==> TypeSize(kind) == 2
    ensures kind in {5, 6, 9} <==> TypeSize(kind) == 4
    ensures kind in {7, 8, 10} <==> TypeSize(kind) == 8
    ensures kind == 0 || kind > 11 <==> TypeSize(kind) == 0
  {
  }

  datatype Node = Node(address: Option<nat>, kind: nat, next: Option<nat>)
  datatype Channel = Channel(address: nat, kind: nat)
  datatype Bank = Bank(nodes: seq<Node>, head: Option<nat>, enabled: seq<bool>, payloadSize: nat)

  // ----- What a bank means -----

  /** The first enabled channel at or after `i`. */
  function NextEnabled(enabled: seq<bool>, i: nat): (r: Option<nat>)
    requires i <= |enabled|
    ensures r.Some? ==> i <= r.value < |enabled| && enabled[r.value]
    decreases |enabled| - i
  {
    if i == |enabled| then None else if enabled[i] then Some(i) else NextEnabled(enabled, i + 1)
  }

  function Width(b: Bank, i: nat): (r: nat)
    requires i < |b.nodes| == |b.enabled|
    ensures r <= 8
  {
    if b.enabled[i] then TypeSize(b.nodes[i].kind) else 0
  }

  /** The widths of the enabled channels below `n`. */
  function Total(b: Bank, n: nat): (r: nat)
    requires n <= |b.nodes| == |b.enabled|
    ensures r <= 8 * n
  {
    if n == 0 then 0 else Total(b, n - 1) + Width(b, n - 1)
  }

  predicate Usable(n: Node) {
    n.address.Some? && TypeSize(n.kind) > 0
  }

  ghost predicate Sized(b: Bank) {
    |b.nodes| == |b.enabled| == CHANNELS
  }

  /** Channel `i`, when enabled, is readable and points to the next enabled channel. */
  ghost predicate LinkedAt(b: Bank, i: nat)
    requires Sized(b) && i < CHANNELS
  {
    b.enabled[i] ==> Usable(b.nodes[i]) && b.nodes[i].next == NextEnabled(b.enabled, i + 1)
  }

  ghost predicate Good(b: Bank) {
    && Sized(b)
    && b.head == NextEnabled(b.enabled, 0)
    && (forall i :: 0 <= i < CHANNELS ==> LinkedAt(b, i))
    && b.payloadSize == Total(b, CHANNELS)
  }

  /** The configuration a bank stands for. */
  function Channels(b: Bank): (r: seq<Option<Channel>>)
    requires Good(b)
    ensures |r| == CHANNELS
  {
    seq<Option<Channel>>(CHANNELS, i requires 0 <= i < CHANNELS =>
      assert LinkedAt(b, i);
      if b.enabled[i] then Some(Channel(b.nodes[i].address.value, b.nodes[i].kind)) else None)
  }

  // ----- The list -----

  /** The channels met when following the list from `p`. */
  function Walk(b: Bank, p: Option<nat>, steps: nat): seq<nat>
    requires Sized(b)
    decreases steps
  {
    if p.None? || steps == 0 || p.value >= CHANNELS then [] else [p.value] + Walk(b, b.nodes[p.value].next, steps - 1)
  }

  /** The enabled channels from `i` on, ascending. */
  function EnabledFrom(enabled: seq<bool>, i: nat): seq<nat>
    requires i <= |enabled|
    decreases |enabled| - i
  {
    if i == |enabled| then []
    else if enabled[i] then [i] + EnabledFrom(enabled, i + 1)
    else EnabledFrom(enabled, i + 1)
  }

  lemma {:induction false} EnabledFromNext(enabled: seq<bool>, i: nat)
    requires i <= |enabled|
    ensures NextEnabled(enabled, i).None? ==> EnabledFrom(enabled, i) == []
    ensures NextEnabled(enabled, i).Some? ==>
              var v := NextEnabled(enabled, i).value; EnabledFrom(enabled, i) == [v] + EnabledFrom(enabled, v + 1)
    decreases |enabled| - i
  {
    if i < |enabled| && !enabled[i] {
      EnabledFromNext(enabled, i + 1);
    }
  }

  /** Following the list visits exactly the enabled channels, in ascending order. */
  lemma {:induction false} WalkVisitsEnabled(b: Bank, i: nat, steps: nat)
    requires Good(b) && i <= CHANNELS && CHANNELS - i <= steps
    ensures Walk(b, NextEnabled(b.enabled, i), steps) == EnabledFrom(b.enabled, i)
    decreases steps
  {
    EnabledFromNext(b.enabled, i);
    var p := NextEnabled(b.enabled, i);
    if p.Some? {
      assert LinkedAt(b, p.value);
      WalkVisitsEnabled(b, p.value + 1, steps - 1);
    }
  }

  /** The list holds exactly the enabled channels... */
  lemma {:induction false} EnabledFromIsExact(enabled: seq<bool>, i: nat, c: nat)
    requires i <= |enabled|
    ensures c in EnabledFrom(enabled, i) <==> i <= c < |enabled| && enabled[c]
    decreases |enabled| - i
  {
    if i < |enabled| {
      EnabledFromIsExact(enabled, i + 1, c);
    }
  }

  /** ... in strictly ascending order. */
  lemma {:induction false} EnabledFromAscends(enabled: seq<bool>, i: nat, j: nat, k: nat)
    requires i <= |enabled| && j < k < |EnabledFrom(enabled, i)|
    ensures EnabledFrom(enabled, i)[j] < EnabledFrom(enabled, i)[k]
    decreases |enabled| - i
  {
    var rest := EnabledFrom(enabled, i + 1);
    if !enabled[i] {
      EnabledFromAscends(enabled, i + 1, j, k);
    } else if j == 0 {
      EnabledFromIsExact(enabled, i + 1, rest[k - 1]);
      assert rest[k - 1] in rest;
    } else {
      EnabledFromAscends(enabled, i + 1, j - 1, k - 1);
    }
  }

  lemma {:induction false} NextEnabledIs(enabled: seq<bool>, i: nat, j: nat)
    requires i <= j <= |enabled| && (forall k :: i <= k < j ==> !enabled[k]) && (j < |enabled| ==> enabled[j])
    ensures NextEnabled(enabled, i) == if j < |enabled| then Some(j) else None
    decreases j - i
  {
    if i < j {
      NextEnabledIs(enabled, i + 1, j);
    }
  }

  /** The payload never exceeds 256 bytes. */
  lemma PayloadBound(b: Bank)
    requires Good(b)
    ensures b.payloadSize <= 256
    ensures b.payloadSize == 0 <==> forall i :: 0 <= i < CHANNELS ==> !b.enabled[i]
  {
    if forall i :: 0 <= i < CHANNELS ==> !b.enabled[i] {
      TotalOfNone(b, CHANNELS);
    } else {
      var i :| 0 <= i < CHANNELS && b.enabled[i];
      assert LinkedAt(b, i);
      TotalGrows(b, i + 1, CHANNELS);
    }
  }

  lemma {:induction false} TotalOfNone(b: Bank, n: nat)
    requires Sized(b) && n <= CHANNELS && forall i :: 0 <= i < n ==> !b.enabled[i]
    ensures Total(b, n) == 0
  {
    if n > 0 {
      TotalOfNone(b, n - 1);
    }
  }

  lemma {:induction false} TotalGrows(b: Bank, m: nat, n: nat)
    requires Sized(b) && m <= n <= CHANNELS
    ensures Total(b, m) <= Total(b, n)
    decreases n
  {
    if m < n {
      TotalGrows(b, m, n - 1);
    }
  }

  lemma {:induction false} TotalSame(a: Bank, b: Bank, n: nat)
    requires Sized(a) && Sized(b) && n <= CHANNELS && a.enabled == b.enabled
    requires SameNodes(a.nodes, b.nodes)
    ensures Total(a, n) == Total(b, n)
  {
    if n > 0 {
      TotalSame(a, b, n - 1);
    }
  }

  // ----- The bank object -----

  predicate Accepts(channel: nat, address: Option<nat>, kind: nat) {
    1 <= channel <= CHANNELS && (address.Some? ==> TypeSize(kind) > 0)
  }

  /** Channels 1 to 32; anything may be disabled, kinds 1 to 11 may be enabled. */
  lemma AcceptsIsExact(channel: nat, address: Option<nat>, kind: nat)
    ensures Accepts(channel, address, kind) <==> 1 <= channel <= 32 && (address.None? || 1 <= kind <= 11)
  {
    WidthsAre(kind);
  }

  /** The configuration after one accepted request. */
  function Configured(channels: seq<Option<Channel>>, channel: nat, address: Option<nat>,
      kind: nat): seq<Option<Channel>>
    requires |channels| == CHANNELS && 1 <= channel <= CHANNELS
  {
    channels[channel - 1 := match address case None => None case Some(a) => Some(Channel(a, kind))]
  }

  /** Everything before the link at `tail` is in place, and nothing lies between it and `i`. */
  ghost predicate LinkedUpTo(b: Bank, tail: Option<nat>, i: nat)
    requires Sized(b) && i <= CHANNELS
  {
    match tail
    case None => forall k :: 0 <= k < i ==> !b.enabled[k]
    case Some(t) =>
      && t < i && b.enabled[t] && b.head == NextEnabled(b.enabled, 0)
      && (forall k :: t < k < i ==> !b.enabled[k])
      && (forall k :: 0 <= k < t && b.enabled[k] ==> b.nodes[k].next == NextEnabled(b.enabled, k + 1))
  }

  /** Store through the tail link: the list head, or the last node's next field. */
  function Linked(b: Bank, tail: Option<nat>, target: Option<nat>): Bank
    requires tail.Some? ==> tail.value < |b.nodes|
  {
    match tail
    case None => b.(head := target)
    case Some(t) => b.(nodes := b.nodes[t := b.nodes[t].(next := target)])
  }

  lemma LinkNext(b: Bank, tail: Option<nat>, i: nat)
    requires Sized(b) && i < CHANNELS && b.enabled[i] && LinkedUpTo(b, tail, i)
    ensures LinkedUpTo(Linked(b, tail, Some(i)), Some(i), i + 1)
  {
    NextEnabledIs(b.enabled, if tail.Some? then tail.value + 1 else 0, i);
  }

  lemma LinkLast(b: Bank, tail: Option<nat>)
    requires Sized(b) && LinkedUpTo(b, tail, CHANNELS)
    ensures var l := Linked(b, tail, None);
            && l.head == NextEnabled(l.enabled, 0)
            && forall i :: 0 <= i < CHANNELS && l.enabled[i] ==> l.nodes[i].next == NextEnabled(l.enabled, i + 1)
  {
    NextEnabledIs(b.enabled, if tail.Some? then tail.value + 1 else 0, CHANNELS);
  }

  lemma LinksMakeGood(was: Bank, b: Bank)
    requires Sized(was) && Sized(b) && SameNodes(was.nodes, b.nodes) && was.enabled == b.enabled
    requires forall i :: 0 <= i < CHANNELS && was.enabled[i] ==> Usable(was.nodes[i])
    requires b.head == NextEnabled(b.enabled, 0) && b.payloadSize == Total(b, CHANNELS)
    requires forall i :: 0 <= i < CHANNELS && b.enabled[i] ==> b.nodes[i].next == NextEnabled(b.enabled, i + 1)
    ensures Good(b)
  {
  }

  /** Same channels apart from the links. */
  ghost predicate SameNodes(a: seq<Node>, b: seq<Node>) {
    |a| == |b| && forall k :: 0 <= k < |a| ==> a[k].address == b[k].address && a[k].kind == b[k].kind
  }

  class BankObject {
    var nodes: seq<Node>
    var head: Option<nat>
    var enabled: seq<bool>
    var payloadSize: nat

    ghost predicate Valid()
      reads this
    {
      Good(Value())
    }

    function Value(): Bank
      reads this
    {
      Bank(nodes, head, enabled, payloadSize)
    }

    constructor ()
      ensures Valid() && forall i :: 0 <= i < CHANNELS ==> Channels(Value())[i] == None
    {
      nodes := seq<Node>(CHANNELS, _ => Node(None, 0, None));
      enabled := seq<bool>(CHANNELS, _ => false);
      head, payloadSize := None, 0;
      new;
      NextEnabledIs(enabled, 0, CHANNELS);
      TotalOfNone(Value(), CHANNELS);
    }

    method Clear()
      modifies this
      ensures Valid() && forall i :: 0 <= i < CHANNELS ==> Channels(Value())[i] == None
    {
      nodes := seq<Node>(CHANNELS, _ => Node(None, 0, None));
      enabled := seq<bool>(CHANNELS, _ => false);
      head, payloadSize := None, 0;
      NextEnabledIs(enabled, 0, CHANNELS);
      TotalOfNone(Value(), CHANNELS);
    }

    method Link(tail: Option<nat>, target: Option<nat>)
      requires tail.Some? ==> tail.value < |nodes|
      modifies this`head, this`nodes
      ensures Value() == Linked(old(Value()), tail, target)
    {
      match tail
      case None => head := target;
      case Some(t) => nodes := nodes[t := nodes[t].(next := target)];
    }

    /** Visit channel `i`: an enabled one is linked in and becomes the tail. */
    method Visit(tail: Option<nat>, i: nat) returns (last: Option<nat>)
      requires Sized(Value()) && i < CHANNELS && LinkedUpTo(Value(), tail, i)
      modifies this`head, this`nodes, this`payloadSize
      ensures Sized(Value()) && LinkedUpTo(Value(), last, i + 1) && SameNodes(nodes, old(nodes))
      ensures payloadSize == old(payloadSize) + Width(old(Value()), i)
    {
      last := tail;
      if enabled[i] {
        LinkNext(Value(), tail, i);
        Link(tail, Some(i));
        last := Some(i);
        payloadSize := payloadSize + TypeSize(nodes[i].kind);
      }
    }

    /** Rebuild the whole list and the payload size from the enabled set. */
    method Relink()
      requires Sized(Value()) && forall i :: 0 <= i < CHANNELS && enabled[i] ==> Usable(nodes[i])
      modifies this`head, this`nodes, this`payloadSize
      ensures Valid() && SameNodes(nodes, old(nodes))
    {
      ghost var was := Value();
      var tail: Option<nat> := None;
      payloadSize := 0;
      for i := 0 to CHANNELS
        invariant Sized(Value()) && LinkedUpTo(Value(), tail, i) && SameNodes(nodes, was.nodes)
        invariant payloadSize == Total(was, i)
      {
        tail := Visit(tail, i);
      }
      ghost var b := Value();
      LinkLast(b, tail);
      Link(tail, None);
      TotalSame(was, Value(), CHANNELS);
      LinksMakeGood(was, Value());
    }

    /** Assign one channel; a missing address disables it. */
    method Set(channel: nat, address: Option<nat>, kind: nat) returns (ok: bool)
      requires Valid()
      modifies this
      ensures Valid()
      ensures ok <==> Accepts(channel, address, kind)
      ensures !ok ==> Value() == old(Value())
      ensures ok ==> Channels(Value()) == Configured(old(Channels(Value())), channel, address, kind)
    {
      if channel == 0 || channel > CHANNELS || (address.Some? && TypeSize(kind) == 0) {
        return false;
      }
      ghost var was := Value();
      forall i | 0 <= i < CHANNELS && was.enabled[i]
        ensures Usable(was.nodes[i])
      {
        assert LinkedAt(was, i);
      }
      nodes := nodes[channel - 1 := nodes[channel - 1].(address := address, kind := kind)];
      enabled := enabled[channel - 1 := address.Some?];
      Relink();
      assert Channels(Value()) == Configured(Channels(was), channel, address, kind);
      ok := true;
    }
  }
}
