/** The cooperative dispatcher (code/lib/time_share.c). */
module TimeShare {

  // Every call advances all counters; at most every tenth call runs the next due
  // callback in round-robin order.  Counters are 32-bit and wrap.

  import opened Machine
  import Circular

  /** Counters, the last table position visited, and the idle countdown. */
  datatype State = State(cnt: seq<U32>, index: nat, idle: nat)

  /** An empty table is allowed; its position stays at zero. */
  ghost predicate WellFormed(p: seq<nat>, s: State) {
    |s.cnt| == |p| && (s.index < |p| || |p| == s.index == 0) && s.idle <= 9
  }

  function Next(i: nat, n: nat): (r: nat)
    requires i < n
    ensures r < n
  {
    if i + 1 == n then 0 else i + 1
  }

  lemma NextIsMod(i: nat, n: nat)
    requires i < n
    ensures (i + 1) % n == Next(i, n)
  {
    Circular.ModUnique(i + 1, n, if i + 1 == n then 1 else 0, Next(i, n));
  }

  predicate Due(p: seq<nat>, cnt: seq<U32>, i: nat)
    requires |cnt| == |p| && i < |p|
  {
    cnt[i] >= p[i]
  }

  /** The first due entry among the `k` positions after `index`. */
  function Scan(p: seq<nat>, cnt: seq<U32>, index: nat, k: nat): (r: Option<nat>)
    requires |cnt| == |p| && (index < |p| || k == 0)
    ensures r.Some? ==> r.value < |p| && Due(p, cnt, r.value)
    decreases k
  {
    if k == 0 then None
    else
      var j := Next(index, |p|);
      if Due(p, cnt, j) then Some(j) else Scan(p, cnt, j, k - 1)
  }

  function Tick(cnt: seq<U32>): (r: seq<U32>)
    ensures |r| == |cnt|
  {
    seq<U32>(|cnt|, i requires 0 <= i < |cnt| => Up(cnt[i]))
  }

  /** The entry run by one call, if any. */
  function Runs(p: seq<nat>, s: State): (r: Option<nat>)
    requires WellFormed(p, s)
    ensures r.Some? ==> r.value < |p|
  {
    if s.idle == 0 then Scan(p, Tick(s.cnt), s.index, |p|) else None
  }

  /** The state after one call. */
  function Step(p: seq<nat>, s: State): (t: State)
    requires WellFormed(p, s)
    ensures WellFormed(p, t)
  {
    var cnt := Tick(s.cnt);
    var r := Runs(p, s);
    if r.Some? then State(cnt[r.value := 0], r.value, 9)
    else State(cnt, s.index, if s.idle == 0 then 0 else s.idle - 1)
  }

  /** Calls one after the other. */
  function Iterate(p: seq<nat>, s: State, n: nat): (t: State)
    requires WellFormed(p, s)
    ensures WellFormed(p, t)
    decreases n
  {
    if n == 0 then s else Step(p, Iterate(p, s, n - 1))
  }

  /** `Iterate` behind three empty recursive steps, so that proofs see states as atoms. */
  function FoldedAfter(p: seq<nat>, s: State, n: nat, folds: nat): (t: State)
    requires WellFormed(p, s)
    ensures WellFormed(p, t)
    decreases folds, n
  {
    if folds == 0 then Iterate(p, s, n) else FoldedAfter(p, s, n, folds - 1)
  }

  /** The state after `n` calls. */
  function After(p: seq<nat>, s: State, n: nat): (t: State)
    requires WellFormed(p, s)
    ensures WellFormed(p, t)
  {
    FoldedAfter(p, s, n, 3)
  }

  lemma AfterIs(p: seq<nat>, s: State, n: nat)
    requires WellFormed(p, s)
    ensures After(p, s, n) == Iterate(p, s, n)
  {
    assert FoldedAfter(p, s, n, 1) == Iterate(p, s, n);
    assert FoldedAfter(p, s, n, 2) == FoldedAfter(p, s, n, 1);
  }

  lemma AfterNext(p: seq<nat>, s: State, n: nat)
    requires WellFormed(p, s)
    ensures After(p, s, n + 1) == Step(p, After(p, s, n)) && After(p, s, 0) == s
  {
    AfterIs(p, s, n);
    AfterIs(p, s, n + 1);
    AfterIs(p, s, 0);
  }

  /** The entry run by call `n`, counted from zero. */
  function RunAt(p: seq<nat>, s: State, n: nat): Option<nat>
    requires WellFormed(p, s)
  {
    Runs(p, After(p, s, n))
  }

  // ----- Round-robin distance -----

  /** How many positions the scan visits before reaching `e`. */
  function Ahead(index: nat, e: nat, n: nat): (d: nat)
    requires index < n && e < n
    ensures d < n
  {
    if e > index then e - index - 1 else e + n - index - 1
  }

  /** While `e` is due, the scan stops at `e` or strictly closer to it. */
  lemma {:induction false} ScanApproaches(p: seq<nat>, cnt: seq<U32>, index: nat, k: nat, e: nat)
    requires |cnt| == |p| && index < |p| && e < |p| && Due(p, cnt, e) && Ahead(index, e, |p|) < k
    ensures Scan(p, cnt, index, k).Some?
    ensures var j := Scan(p, cnt, index, k).value; j == e || Ahead(j, e, |p|) < Ahead(index, e, |p|)
    decreases k
  {
    var j := Next(index, |p|);
    if !Due(p, cnt, j) {
      ScanApproaches(p, cnt, j, k - 1, e);
    }
  }

  // ----- The deadline invariant -----

  /** Calls since its last run before an entry is due; a zero period means every call. */
  function Wait(period: nat): nat {
    if period == 0 then 1 else period
  }

  /** What `time_share_init` leaves: position and countdown cleared, the counters kept. */
  function Started(c: seq<U32>): State {
    State(c, 0, 0)
  }

  /** A countdown runs since the entry at the table position was cleared. */
  ghost predicate Paced(p: seq<nat>, s: State)
    requires WellFormed(p, s)
  {
    s.idle > 0 ==> s.index < |p| && s.cnt[s.index] == 9 - s.idle
  }

  lemma PacedStep(p: seq<nat>, s: State)
    requires WellFormed(p, s) && Paced(p, s)
    ensures Paced(p, Step(p, s))
  {
  }

  /** So it is after every call from a start. */
  lemma {:induction false} PacedAfter(p: seq<nat>, c: seq<U32>, n: nat)
    requires |c| == |p|
    ensures Paced(p, After(p, Started(c), n))
    decreases n
  {
    AfterNext(p, Started(c), 0);
    if n > 0 {
      PacedAfter(p, c, n - 1);
      PacedStep(p, After(p, Started(c), n - 1));
      AfterNext(p, Started(c), n - 1);
    }
  }

  /** The deadline, in calls, of an entry in a run from a start: ten for each other entry,
      one for its own, and what is left of the countdown its own last run set off. */
  function Latest(p: seq<nat>, e: nat): nat
    requires e < |p|
  {
    10 * (|p| - 1) + 1 + if Wait(p[e]) < 10 then 10 - Wait(p[e]) else 0
  }

  /** The deadline `b` that holds in a state: ten calls per entry, or less after a start. */
  ghost predicate Deadline(p: seq<nat>, s: State, e: nat, b: nat)
    requires WellFormed(p, s) && e < |p|
  {
    b == 10 * |p| || (b == Latest(p, e) && Paced(p, s))
  }

  /** An overdue entry still meets its deadline: calls already waited, the idle
      countdown and ten calls per entry ahead stay within the budget. */
  ghost predicate OnTime(p: seq<nat>, s: State, e: nat, b: nat)
    requires WellFormed(p, s) && e < |p|
  {
    s.cnt[e] >= Wait(p[e]) ==> (s.cnt[e] - Wait(p[e])) + s.idle + 10 * Ahead(s.index, e, |p|) + 2 <= b
  }

  /** Waiting out the deadline does not wrap the 32-bit counter of entry `e`. */
  predicate FitsWord(p: seq<nat>, e: nat, b: nat)
    requires e < |p|
  {
    Wait(p[e]) + b <= WORD
  }

  lemma TickExact(p: seq<nat>, s: State, e: nat, b: nat)
    requires WellFormed(p, s) && e < |p| && OnTime(p, s, e, b) && FitsWord(p, e, b) && b > 0
    ensures Tick(s.cnt)[e] == s.cnt[e] + 1
  {
  }

  lemma OnTimeStep(p: seq<nat>, s: State, e: nat, b: nat)
    requires WellFormed(p, s) && e < |p| && Deadline(p, s, e, b) && OnTime(p, s, e, b) && FitsWord(p, e, b)
    ensures OnTime(p, Step(p, s), e, b) && Deadline(p, Step(p, s), e, b)
  {
    TickExact(p, s, e, b);
    if b != 10 * |p| {
      PacedStep(p, s);
    }
    if s.idle == 0 && s.cnt[e] + 1 >= Wait(p[e]) {
      ScanApproaches(p, Tick(s.cnt), s.index, |p|, e);
    }
  }

  /** Once it holds, the deadline invariant holds after every further call. */
  lemma {:induction false} OnTimeAfter(p: seq<nat>, s: State, m: nat, k: nat, e: nat, b: nat)
    requires WellFormed(p, s) && e < |p| && FitsWord(p, e, b)
    requires Deadline(p, After(p, s, m), e, b) && OnTime(p, After(p, s, m), e, b)
    ensures Deadline(p, After(p, s, m + k), e, b) && OnTime(p, After(p, s, m + k), e, b)
    decreases k
  {
    if k > 0 {
      OnTimeAfter(p, s, m, k - 1, e, b);
      AfterNext(p, s, m + (k - 1));
      OnTimeStep(p, After(p, s, m + (k - 1)), e, b);
    }
  }

  // ----- Latency -----

  /** What one call does to one counter. */
  lemma CounterStep(p: seq<nat>, s: State, e: nat)
    requires WellFormed(p, s) && e < |p|
    ensures Step(p, s).cnt[e] == if Runs(p, s) == Some(e) then 0 else Tick(s.cnt)[e]
  {
  }

  lemma CounterCountsOne(p: seq<nat>, s: State, e: nat, b: nat)
    requires WellFormed(p, s) && e < |p| && OnTime(p, s, e, b) && FitsWord(p, e, b) && b > 0
    requires Runs(p, s) != Some(e)
    ensures Step(p, s).cnt[e] == s.cnt[e] + 1
  {
    TickExact(p, s, e, b);
    CounterStep(p, s, e);
  }

  /** Without a run in calls m .. m+k-1 the counter just counts. */
  lemma {:induction false} CounterCounts(p: seq<nat>, s: State, e: nat, m: nat, k: nat, b: nat)
    requires WellFormed(p, s) && e < |p| && FitsWord(p, e, b) && b > 0
    requires Deadline(p, After(p, s, m), e, b) && OnTime(p, After(p, s, m), e, b)
    requires forall n :: m <= n < m + k ==> RunAt(p, s, n) != Some(e)
    ensures After(p, s, m + k).cnt[e] == After(p, s, m).cnt[e] + k
    decreases k
  {
    if k > 0 {
      var t := After(p, s, m + (k - 1));
      CounterCounts(p, s, e, m, k - 1, b);
      OnTimeAfter(p, s, m, k - 1, e, b);
      assert RunAt(p, s, m + (k - 1)) != Some(e);
      CounterCountsOne(p, t, e, b);
      AfterNext(p, s, m + (k - 1));
    }
  }

  /** The call at which an entry becomes due: its counter then reaches the period. */
  ghost predicate BecomesDue(p: seq<nat>, s: State, e: nat, m: nat)
    requires WellFormed(p, s) && e < |p|
  {
    After(p, s, m).cnt[e] as nat + 1 == Wait(p[e])
  }

  /** Some call in m .. m+k-1 runs `e`. */
  ghost predicate RunsWithin(p: seq<nat>, s: State, e: nat, m: nat, k: nat)
    requires WellFormed(p, s)
  {
    exists n :: m <= n < m + k && RunAt(p, s, n) == Some(e)
  }

  lemma RunsByDeadline(p: seq<nat>, s: State, e: nat, m: nat, b: nat)
    requires WellFormed(p, s) && e < |p| && FitsWord(p, e, b) && BecomesDue(p, s, e, m)
    requires Deadline(p, After(p, s, m), e, b)
    ensures RunsWithin(p, s, e, m, b)
  {
    OnTimeAfter(p, s, m, b, e, b);
    if !RunsWithin(p, s, e, m, b) {
      CounterCounts(p, s, e, m, b, b);
    }
  }

  /** Whatever the state, a callback that becomes due runs within 10 * table_size calls, the
      one making it due included, if its counter cannot wrap in that time. */
  lemma RunsInTime(p: seq<nat>, s: State, e: nat, m: nat)
    requires WellFormed(p, s) && e < |p| && FitsWord(p, e, 10 * |p|) && BecomesDue(p, s, e, m)
    ensures RunsWithin(p, s, e, m, 10 * |p|)
  {
    RunsByDeadline(p, s, e, m, 10 * |p|);
  }

  /** In every run from a start it runs earlier, and less room suffices. */
  lemma {:induction false} StartedRunsInTime(p: seq<nat>, c: seq<U32>, e: nat, m: nat)
    requires InWords(p) && |c| == |p| && e < |p| && HasRoom(|p|, p[e]) && BecomesDue(p, Started(c), e, m)
    ensures RunsWithin(p, Started(c), e, m, Latest(p, e)) && Latest(p, e) <= 10 * |p|
  {
    PacedAfter(p, c, m);
    RunsByDeadline(p, Started(c), e, m, Latest(p, e));
  }

  /** Waiting its period and one turn of every other entry does not wrap a counter. */
  predicate HasRoom(n: nat, period: nat) {
    Wait(period) + 10 * (n - 1) < WORD
  }

  /** Every period is a 32-bit number, and so is the deadline. */
  ghost predicate InWords(p: seq<nat>) {
    10 * |p| < WORD && forall i :: 0 <= i < |p| ==> p[i] < WORD
  }

  // ----- When the deadline fails -----

  /** Where `j` round-robin turns lead from `e`. */
  function Turn(e: nat, j: nat, n: nat): (i: nat)
    requires e < n && j <= n
    ensures i < n
    ensures 0 < j ==> Ahead(e, i, n) == j - 1
  {
    if e + j < n then e + j else e + j - n
  }

  /** What a counter shows after `v` increments from zero, fewer than two rounds. */
  function Wrapped(v: nat): (r: U32)
    requires v < 2 * WORD
  {
    if v < WORD then v else v - WORD
  }

  /** Every other entry is due exactly when its turn after `e` comes; nobody else ran
      since `k` calls but those whose turn it was. */
  ghost predicate Rotating(p: seq<nat>, s: State, e: nat, base: nat, k: nat)
    requires InWords(p) && e < |p| && base < WORD && k <= 10 * (|p| - 1)
  {
    && WellFormed(p, s) && s.idle == (if k == 0 then 0 else 9 - (k - 1) % 10)
    && (k > 0 ==> s.index == Turn(e, (k - 1) / 10 + 1, |p|))
    && s.cnt[e] == Wrapped(base + k)
    && forall i :: 0 <= i < |p| && i != e && 10 * Ahead(e, i, |p|) >= k ==>
         s.cnt[i] == WORD - 2 - 10 * Ahead(e, i, |p|) + k
  }

  /** First every other entry takes its turn; after that the counter of `e` has wrapped. */
  ghost predicate Starved(p: seq<nat>, s: State, e: nat, base: nat, k: nat)
    requires InWords(p) && e < |p| && base < WORD && k <= 10 * |p| + 1
  {
    if k <= 10 * (|p| - 1) then Rotating(p, s, e, base, k) else WellFormed(p, s) && s.cnt[e] == Wrapped(base + k)
  }

  /** The counter of `e`, at `base` before the first turn, wraps before its own turn. */
  predicate WrapsFirst(p: seq<nat>, e: nat, base: nat)
    requires e < |p|
  {
    base < p[e] && base + 10 * (|p| - 1) + 1 >= WORD
  }

  /** When the countdown has ended the next entry in turn is due. */
  lemma TurnIsDue(p: seq<nat>, s: State, e: nat, base: nat, k: nat)
    requires InWords(p) && e < |p| && base < WORD
    requires 0 < k < 10 * (|p| - 1) && Rotating(p, s, e, base, k) && s.idle == 0
    ensures var i := Next(s.index, |p|); i == Turn(e, k / 10 + 1, |p|) && Due(p, Tick(s.cnt), i)
  {
    var i := Next(s.index, |p|);
    assert i == Turn(e, k / 10 + 1, |p|) && i != e;
    assert Tick(s.cnt)[i] == WORD - 1;
  }

  lemma RotatingStep(p: seq<nat>, s: State, e: nat, base: nat, k: nat)
    requires InWords(p) && e < |p| && base < WORD && WrapsFirst(p, e, base)
    requires k < 10 * (|p| - 1) && Rotating(p, s, e, base, k)
    requires k == 0 ==> Runs(p, s) == Some(Turn(e, 1, |p|))
    ensures Runs(p, s) != Some(e)
    ensures Rotating(p, Step(p, s), e, base, k + 1)
  {
    if s.idle == 0 {
      if k > 0 {
        TurnIsDue(p, s, e, base, k);
      }
      assert Runs(p, s) == Some(Turn(e, k / 10 + 1, |p|));
    }
  }

  lemma WrappedStep(p: seq<nat>, s: State, e: nat, base: nat, k: nat)
    requires InWords(p) && e < |p| && base < WORD && WrapsFirst(p, e, base)
    requires 10 * (|p| - 1) <= k <= 10 * |p| && WellFormed(p, s) && s.cnt[e] == Wrapped(base + k)
    ensures Runs(p, s) != Some(e)
    ensures Step(p, s).cnt[e] == Wrapped(base + k + 1)
  {
    assert !Due(p, Tick(s.cnt), e);
    CounterStep(p, s, e);
  }

  lemma {:induction false} StarvedAfter(p: seq<nat>, s: State, e: nat, base: nat, k: nat)
    requires InWords(p) && e < |p| && base < WORD && WrapsFirst(p, e, base) && k <= 10 * |p|
    requires Rotating(p, s, e, base, 0) && Runs(p, s) == Some(Turn(e, 1, |p|))
    ensures Starved(p, After(p, s, k), e, base, k) && RunAt(p, s, k) != Some(e)
    decreases k
  {
    AfterNext(p, s, 0);
    if k > 0 {
      StarvedAfter(p, s, e, base, k - 1);
      AfterNext(p, s, k - 1);
      StarvedOnce(p, s, After(p, s, k - 1), e, base, k - 1);
    }
    StarvedOnce(p, s, After(p, s, k), e, base, k);
  }

  lemma StarvedOnce(p: seq<nat>, s: State, t: State, e: nat, base: nat, k: nat)
    requires InWords(p) && e < |p| && base < WORD && WrapsFirst(p, e, base) && k <= 10 * |p|
    requires Starved(p, t, e, base, k) && (k == 0 ==> Runs(p, t) == Some(Turn(e, 1, |p|)))
    ensures Runs(p, t) != Some(e) && Starved(p, Step(p, t), e, base, k + 1)
  {
    if k < 10 * (|p| - 1) {
      RotatingStep(p, t, e, base, k);
    } else {
      WrappedStep(p, t, e, base, k);
    }
  }

  /** The other entries' counters before call `k`, the turn of the entry after `e` first. */
  function Waiting(n: nat, e: nat, own: U32): (c: seq<U32>)
    requires e < n && 10 * n < WORD
    ensures |c| == n
  {
    seq<U32>(n, i requires 0 <= i < n => if i == e then own else WORD - 2 - 10 * Ahead(e, i, n))
  }

  /** A run that begins in such a rotation starves `e`. */
  lemma Starves(p: seq<nat>, s: State, e: nat, base: nat, first: nat)
    requires InWords(p) && e < |p| && base < WORD && WrapsFirst(p, e, base) && first <= 1
    requires Rotating(p, s, e, base, 0) && Runs(p, s) == Some(Turn(e, 1, |p|))
    ensures !RunsWithin(p, s, e, first, 10 * |p|)
  {
    forall k | first <= k < first + 10 * |p|
      ensures RunAt(p, s, k) != Some(e)
    {
      StarvedAfter(p, s, e, base, k);
    }
  }

  /** When the turn is at `e` itself, the rotation begins whether `e` is due or not. */
  lemma RotationBeginsAt(p: seq<nat>, s: State, e: nat, base: U32)
    requires InWords(p) && 2 <= |p| && e < |p|
    requires s == State(Waiting(|p|, e, base), e, 0)
    ensures Rotating(p, s, e, base, 0) && Runs(p, s) == Some(Turn(e, 1, |p|))
  {
    assert Due(p, Tick(s.cnt), Next(e, |p|));
  }

  /** Entry 0: it is about to become due at the start itself. */
  lemma FirstStarves(p: seq<nat>)
    requires InWords(p) && p != [] && !HasRoom(|p|, p[0])
    ensures var s := Started(Waiting(|p|, 0, Wait(p[0]) - 1));
            BecomesDue(p, s, 0, 0) && !RunsWithin(p, s, 0, 0, 10 * |p|)
  {
    var s := Started(Waiting(|p|, 0, Wait(p[0]) - 1));
    RotationBeginsAt(p, s, 0, Wait(p[0]) - 1);
    Starves(p, s, 0, Wait(p[0]) - 1, 0);
    AfterNext(p, s, 0);
  }

  /** For the first entry the deadline is met in every run from every start exactly if
      that room exists, whatever the other periods. */
  lemma {:induction false} FirstDeadlineIsExact(p: seq<nat>)
    requires InWords(p) && p != []
    ensures (forall c: seq<U32>, m: nat :: |c| == |p| && BecomesDue(p, Started(c), 0, m) ==>
               RunsWithin(p, Started(c), 0, m, 10 * |p|))
       <==> HasRoom(|p|, p[0])
  {
    if HasRoom(|p|, p[0]) {
      forall c: seq<U32>, m: nat | |c| == |p| && BecomesDue(p, Started(c), 0, m)
        ensures RunsWithin(p, Started(c), 0, m, 10 * |p|)
      {
        StartedRunsInTime(p, c, 0, m);
      }
    } else {
      FirstStarves(p);
    }
  }

  // ----- Every entry, over every table -----

  /** A table in which every other period is the longest. */
  function Crowded(n: nat, e: nat, period: nat): (p: seq<nat>)
    requires e < n
    ensures |p| == n && p[e] == period
  {
    seq(n, i requires 0 <= i < n => if i == e then period else WORD - 1)
  }

  lemma {:induction false} ScanFinds(p: seq<nat>, cnt: seq<U32>, index: nat, k: nat, j: nat)
    requires |cnt| == |p| && index < |p| && j < |p| && Due(p, cnt, j) && Ahead(index, j, |p|) < k
    requires forall i :: 0 <= i < |p| && i != j ==> !Due(p, cnt, i)
    ensures Scan(p, cnt, index, k) == Some(j)
    decreases k
  {
    var i := Next(index, |p|);
    if i != j {
      ScanFinds(p, cnt, i, k - 1, j);
    }
  }

  /** In a crowded table the rotation begins when the table is idle. */
  lemma RotationBegins(n: nat, e: nat, period: nat, s: State, base: nat)
    requires 10 * n < WORD && 2 <= n && e < n && period < WORD && base + 1 < Wait(period)
    requires s == State(Waiting(n, e, base), s.index, 0) && s.index < n
    ensures var p := Crowded(n, e, period);
            InWords(p) && Rotating(p, s, e, base, 0) && Runs(p, s) == Some(Turn(e, 1, n))
  {
    var p, j := Crowded(n, e, period), Turn(e, 1, n);
    var cnt := Tick(s.cnt);
    assert j != e && Due(p, cnt, j);
    forall i | 0 <= i < n && i != j
      ensures !Due(p, cnt, i)
    {
      assert i != e ==> Ahead(e, i, n) > 0;
    }
    ScanFinds(p, cnt, s.index, n, j);
  }

  /** One call before it becomes due, a crowded table starves an entry that has less
      than one call to spare. */
  lemma {:induction false} OtherStarves(n: nat, e: nat, period: nat)
    requires 10 * n < WORD && e < n && period < WORD && Wait(period) + 10 * (n - 1) > WORD
    ensures var p, s := Crowded(n, e, period), Started(Waiting(n, e, Wait(period) - 2));
            BecomesDue(p, s, e, 1) && !RunsWithin(p, s, e, 1, 10 * n)
  {
    var p, s := Crowded(n, e, period), Started(Waiting(n, e, Wait(period) - 2));
    RotationBegins(n, e, period, s, Wait(period) - 2);
    Starves(p, s, e, Wait(period) - 2, 1);
    AfterNext(p, s, 0);
    CounterStep(p, s, e);
  }

  lemma {:induction false} ScanFails(p: seq<nat>, cnt: seq<U32>, index: nat, k: nat)
    requires |cnt| == |p| && index < |p| && forall i :: 0 <= i < |p| ==> !Due(p, cnt, i)
    ensures Scan(p, cnt, index, k) == None
    decreases k
  {
    if k > 0 {
      ScanFails(p, cnt, Next(index, |p|), k - 1);
    }
  }

  lemma {:induction false} AfterAdds(p: seq<nat>, s: State, m: nat, k: nat)
    requires WellFormed(p, s)
    ensures After(p, s, m + k) == After(p, After(p, s, m), k)
    decreases k
  {
    AfterNext(p, After(p, s, m), 0);
    if k > 0 {
      AfterAdds(p, s, m, k - 1);
      AfterNext(p, s, m + (k - 1));
      AfterNext(p, After(p, s, m), k - 1);
    }
  }

  /** `k` calls after a start in which `e` ran first and nothing else has become due. */
  function Quiet(n: nat, e: nat, k: nat): (s: State)
    requires 10 * n < WORD && e < n && 1 <= k <= WORD - 10 * (n - 1)
    ensures |s.cnt| == n
  {
    State(seq<U32>(n, i requires 0 <= i < n => if i == e then k - 1 else 10 * (n - 1) - 2 - 10 * Ahead(e, i, n) + k),
          e, if k < 10 then 10 - k else 0)
  }

  /** The counters of that start: `e` about to become due, every other entry far from it. */
  function Ready(n: nat, e: nat): (c: seq<U32>)
    requires 10 * n < WORD && e < n
    ensures |c| == n
  {
    seq<U32>(n, i requires 0 <= i < n =>
               if i == e then WORD - 10 * (n - 1) - 1 else 10 * (n - 1) - 2 - 10 * Ahead(e, i, n))
  }

  lemma OnlyOneReady(n: nat, e: nat)
    requires 10 * n < WORD && 2 <= n && e < n
    ensures var p, cnt := Crowded(n, e, WORD - 10 * (n - 1)), Tick(Ready(n, e));
            Due(p, cnt, e) && forall i :: 0 <= i < n && i != e ==> !Due(p, cnt, i) && cnt[i] == Quiet(n, e, 1).cnt[i]
  {
  }

  lemma QuietStart(n: nat, e: nat)
    requires 10 * n < WORD && 2 <= n && e < n
    ensures Step(Crowded(n, e, WORD - 10 * (n - 1)), Started(Ready(n, e))) == Quiet(n, e, 1)
  {
    var p, c := Crowded(n, e, WORD - 10 * (n - 1)), Ready(n, e);
    OnlyOneReady(n, e);
    ScanFinds(p, Tick(c), 0, n, e);
    assert Tick(c)[e := 0] == Quiet(n, e, 1).cnt;
  }

  lemma QuietStep(n: nat, e: nat, k: nat)
    requires 10 * n < WORD && 2 <= n && e < n && 1 <= k < WORD - 10 * (n - 1)
    ensures Step(Crowded(n, e, WORD - 10 * (n - 1)), Quiet(n, e, k)) == Quiet(n, e, k + 1)
  {
    var p, s := Crowded(n, e, WORD - 10 * (n - 1)), Quiet(n, e, k);
    ScanFails(p, Tick(s.cnt), e, n);
    assert Step(p, s).cnt == Quiet(n, e, k + 1).cnt;
  }

  lemma {:induction false} QuietAfter(n: nat, e: nat, s: State, k: nat)
    requires 10 * n < WORD && 2 <= n && e < n && 1 <= k <= WORD - 10 * (n - 1)
    requires WellFormed(Crowded(n, e, WORD - 10 * (n - 1)), s)
    requires Step(Crowded(n, e, WORD - 10 * (n - 1)), s) == Quiet(n, e, 1)
    ensures After(Crowded(n, e, WORD - 10 * (n - 1)), s, k) == Quiet(n, e, k)
    decreases k
  {
    var p := Crowded(n, e, WORD - 10 * (n - 1));
    AfterNext(p, s, k - 1);
    if k > 1 {
      QuietAfter(n, e, s, k - 1);
      QuietStep(n, e, k - 1);
    }
  }

  lemma StarvesFrom(p: seq<nat>, s: State, m: nat, e: nat, base: nat)
    requires InWords(p) && WellFormed(p, s) && e < |p| && base < WORD && WrapsFirst(p, e, base)
    requires Rotating(p, After(p, s, m), e, base, 0) && Runs(p, After(p, s, m)) == Some(Turn(e, 1, |p|))
    ensures !RunsWithin(p, s, e, m, 10 * |p|)
  {
    forall k | m <= k < m + 10 * |p|
      ensures RunAt(p, s, k) != Some(e)
    {
      AfterAdds(p, s, m, k - m);
      StarvedAfter(p, After(p, s, m), e, base, k - m);
    }
  }

  /** With one call to spare too few, `e` runs once, waits out its period undisturbed
      and is starved then. */
  lemma {:induction false} LastCallStarves(n: nat, e: nat, period: nat)
    requires 10 * n < WORD && 2 <= n && e < n && period == WORD - 10 * (n - 1)
    ensures var p, s := Crowded(n, e, period), Started(Ready(n, e));
            BecomesDue(p, s, e, period) && !RunsWithin(p, s, e, period, 10 * n)
  {
    var p, s := Crowded(n, e, period), Started(Ready(n, e));
    QuietStart(n, e);
    QuietAfter(n, e, s, period);
    QuietEnds(n, e);
    RotationBeginsAt(p, After(p, s, period), e, period - 1);
    StarvesFrom(p, s, period, e, period - 1);
  }

  lemma QuietEnds(n: nat, e: nat)
    requires 10 * n < WORD && e < n
    ensures Quiet(n, e, WORD - 10 * (n - 1)) == State(Waiting(n, e, WORD - 10 * (n - 1) - 1), e, 0)
  {
    assert Quiet(n, e, WORD - 10 * (n - 1)).cnt == Waiting(n, e, WORD - 10 * (n - 1) - 1);
  }

  /** Whatever the other periods may be: an entry of a table of `n` meets its deadline in
      every run from every start of every table exactly if that room exists. */
  lemma {:induction false} DeadlineIsExact(n: nat, e: nat, period: nat)
    requires 10 * n < WORD && e < n && period < WORD
    ensures (forall p: seq<nat>, c: seq<U32>, m: nat ::
               InWords(p) && |p| == |c| == n && p[e] == period && BecomesDue(p, Started(c), e, m) ==>
               RunsWithin(p, Started(c), e, m, 10 * n))
       <==> HasRoom(n, period)
  {
    if HasRoom(n, period) {
      forall p: seq<nat>, c: seq<U32>, m: nat |
        InWords(p) && |p| == |c| == n && p[e] == period && BecomesDue(p, Started(c), e, m)
        ensures RunsWithin(p, Started(c), e, m, 10 * n)
      {
        StartedRunsInTime(p, c, e, m);
      }
    } else {
      assert InWords(Crowded(n, e, period));
      if Wait(period) + 10 * (n - 1) > WORD {
        OtherStarves(n, e, period);
        assert BecomesDue(Crowded(n, e, period), Started(Waiting(n, e, Wait(period) - 2)), e, 1);
      } else {
        LastCallStarves(n, e, period);
        assert BecomesDue(Crowded(n, e, period), Started(Ready(n, e)), e, period);
      }
    }
  }

  // ----- Spacing -----

  /** For nine calls after a run the countdown keeps everything idle. */
  lemma {:induction false} IdleAfterRun(p: seq<nat>, s: State, m: nat, k: nat)
    requires WellFormed(p, s) && RunAt(p, s, m).Some? && 1 <= k <= 10
    ensures After(p, s, m + k).idle == 10 - k
    decreases k
  {
    AfterNext(p, s, m);
    if k > 1 {
      IdleAfterRun(p, s, m, k - 1);
      AfterNext(p, s, m + (k - 1));
    }
  }

  /** Any two runs are at least ten calls apart. */
  lemma RunsAreSpaced(p: seq<nat>, s: State, m: nat, n: nat)
    requires WellFormed(p, s) && m < n && RunAt(p, s, m).Some? && RunAt(p, s, n).Some?
    ensures n - m >= 10
  {
    if n - m < 10 {
      IdleAfterRun(p, s, m, n - m);
    }
  }

  /** `k` calls later a counter has grown by at most `k`. */
  lemma {:induction false} CounterBound(p: seq<nat>, s: State, e: nat, m: nat, k: nat)
    requires WellFormed(p, s) && e < |p|
    ensures After(p, s, m + k).cnt[e] <= After(p, s, m).cnt[e] + k
    decreases k
  {
    if k > 0 {
      CounterBound(p, s, e, m, k - 1);
      AfterNext(p, s, m + (k - 1));
      CounterStep(p, After(p, s, m + (k - 1)), e);
    }
  }

  /** An entry runs only when its advanced counter has reached its period. */
  lemma RunsOnlyWhenDue(p: seq<nat>, s: State, e: nat)
    requires WellFormed(p, s) && e < |p| && Runs(p, s) == Some(e)
    ensures s.cnt[e] as nat + 1 >= p[e]
  {
    assert Due(p, Tick(s.cnt), e);
  }

  /** No callback runs again before `period` further calls, wrapping or not. */
  lemma RerunsRespectPeriod(p: seq<nat>, s: State, e: nat, m: nat, n: nat)
    requires WellFormed(p, s) && e < |p| && m < n && RunAt(p, s, m) == Some(e) && RunAt(p, s, n) == Some(e)
    ensures n - m >= p[e]
  {
    AfterNext(p, s, m);
    CounterStep(p, After(p, s, m), e);
    CounterBound(p, s, e, m + 1, n - m - 1);
    RunsOnlyWhenDue(p, After(p, s, n), e);
  }

  /** From cleared counters nothing runs before its period has passed. */
  lemma FirstRunRespectsPeriod(p: seq<nat>, s: State, e: nat, n: nat)
    requires WellFormed(p, s) && e < |p| && s.cnt[e] == 0 && RunAt(p, s, n) == Some(e)
    ensures n + 1 >= p[e]
  {
    AfterNext(p, s, 0);
    CounterBound(p, s, e, 0, n);
    RunsOnlyWhenDue(p, After(p, s, n), e);
  }

  // ----- The dispatcher object -----

  class Dispatcher {
    const period: array<nat>
    const cnt: array<U32>
    var tableIndex: nat
    var idleCount: nat

    ghost predicate Valid()
      reads this, period, cnt
    {
      period.Length == cnt.Length && WellFormed(period[..], Value())
    }

    ghost function Value(): State
      reads this, cnt
    {
      State(cnt[..], tableIndex, idleCount)
    }

    /** The table keeps its counters; only position and countdown are cleared. */
    constructor (period: array<nat>, cnt: array<U32>)
      requires period.Length == cnt.Length
      ensures Valid() && this.period == period && this.cnt == cnt
      ensures Value() == Started(cnt[..])
    {
      this.period := period;
      this.cnt := cnt;
      tableIndex, idleCount := 0, 0;
    }

    method Advance()
      requires Valid()
      modifies cnt
      ensures cnt[..] == Tick(old(cnt[..]))
    {
      for i := 0 to cnt.Length
        invariant forall j :: 0 <= j < i ==> cnt[j] == Up(old(cnt[j]))
        invariant forall j :: i <= j < cnt.Length ==> cnt[j] == old(cnt[j])
      {
        cnt[i] := Up(cnt[i]);
      }
    }

    /** The round-robin search; the counter of the entry found restarts. */
    method Search() returns (ran: Option<nat>)
      requires Valid() && (period as object) != cnt && idleCount == 0
      modifies this, cnt
      ensures ran == Scan(period[..], old(cnt[..]), old(tableIndex), cnt.Length)
      ensures ran.Some? ==> Value() == State(old(cnt[..])[ran.value := 0], ran.value, 9)
      ensures ran.None? ==> Value() == old(Value())
    {
      ghost var p, was := period[..], cnt[..];
      ran := None;
      for i := 0 to cnt.Length
        invariant cnt[..] == was && idleCount == 0
        invariant tableIndex
               == if old(tableIndex) + i < cnt.Length then old(tableIndex) + i else old(tableIndex) + i - cnt.Length
        invariant Scan(p, was, old(tableIndex), cnt.Length) == Scan(p, was, tableIndex, cnt.Length - i)
      {
        NextIsMod(tableIndex, cnt.Length);
        tableIndex := (tableIndex + 1) % cnt.Length;
        if cnt[tableIndex] >= period[tableIndex] {
          cnt[tableIndex] := 0;
          idleCount := 9;
          return Some(tableIndex);
        }
      }
    }

    /** One periodic call; the callback to run is reported to the caller. */
    method Call() returns (ran: Option<nat>)
      requires Valid() && (period as object) != cnt
      modifies this, cnt
      ensures Valid()
      ensures ran == Runs(period[..], old(Value()))
      ensures Value() == Step(period[..], old(Value()))
    {
      ran := None;
      Advance();
      if idleCount == 0 {
        ran := Search();
      } else {
        idleCount := idleCount - 1;
      }
    }
  }
}
