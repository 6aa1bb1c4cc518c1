/**
  Run-length coding (code/lib/codec_rle.c): repeat tokens for runs of 3..130
  equal bytes, literal tokens of 1..128 bytes otherwise.

  `EncodeFrom` is the token stream as a function of the input, `DecodeFrom` the
  meaning of a token stream; the encoder and decoder methods are the source's
  loops over an output buffer, proved against them.
*/
module CodecRle {
  import opened Machine
  import opened CodecCommon

  const LITERAL_MAX: nat := 128
  const REPEAT_MAX: nat := 130
  const REPEAT_MIN: nat := 3

  // ----- Runs -----

  /** Length of the run at `index`, from `k` on, capped. */
  function Run(input: seq<byte>, index: nat, k: nat): (r: nat)
    requires 1 <= k <= REPEAT_MAX && index + k <= |input|
    ensures k <= r <= REPEAT_MAX && index + r <= |input|
    ensures r < REPEAT_MAX && index + r < |input| ==> input[index + r] != input[index]
    decreases REPEAT_MAX - k
  {
    if index + k < |input| && input[index + k] == input[index] && k < REPEAT_MAX then Run(input, index, k + 1) else k
  }

  /** The run at `index`, folded behind three empty recursive steps so that proofs about
      tokens see its length as an atom. */
  function FoldedRun(input: seq<byte>, index: nat, folds: nat): (r: nat)
    requires index < |input|
    ensures 1 <= r <= REPEAT_MAX && index + r <= |input|
    ensures r < REPEAT_MAX && index + r < |input| ==> input[index + r] != input[index]
    decreases folds, index
  {
    if folds == 0 then Run(input, index, 1) else FoldedRun(input, index, folds - 1)
  }

  function RunAt(input: seq<byte>, index: nat): (r: nat)
    requires index < |input|
    ensures 1 <= r <= REPEAT_MAX && index + r <= |input|
    ensures r < REPEAT_MAX && index + r < |input| ==> input[index + r] != input[index]
  {
    FoldedRun(input, index, 3)
  }

  lemma RunAtIs(input: seq<byte>, index: nat)
    requires index < |input|
    ensures RunAt(input, index) == Run(input, index, 1)
  {
    assert FoldedRun(input, index, 1) == Run(input, index, 1);
    assert FoldedRun(input, index, 2) == FoldedRun(input, index, 1);
  }

  function Filled(b: byte, n: nat): (s: seq<byte>)
    ensures |s| == n && forall i :: 0 <= i < n ==> s[i] == b
  {
    seq(n, i => b)
  }

  lemma {:induction false} RunIsConstant(input: seq<byte>, index: nat, k: nat)
    requires 1 <= k <= REPEAT_MAX && index + k <= |input|
    requires input[index..index + k] == Filled(input[index], k)
    ensures var r := Run(input, index, k); input[index..index + r] == Filled(input[index], r)
    decreases REPEAT_MAX - k
  {
    if index + k < |input| && input[index + k] == input[index] && k < REPEAT_MAX {
      assert input[index..index + k + 1] == input[index..index + k] + [input[index]];
      RunIsConstant(input, index, k + 1);
    }
  }

  /** The run taken is at least as long as every run of up to 130 equal bytes. */
  lemma RunIsMaximal(input: seq<byte>, index: nat, n: nat)
    requires 1 <= n <= 130 && index + n <= |input| && forall p :: index <= p < index + n ==> input[p] == input[index]
    ensures n <= RunAt(input, index)
  {
  }

  /** Where the literal token that started `len` bytes before `index` ends. */
  function LiteralEnd(input: seq<byte>, index: nat, len: nat): (e: nat)
    requires index <= |input| && len <= LITERAL_MAX
    ensures index <= e <= |input| && e - index + len <= LITERAL_MAX
    decreases |input| - index
  {
    if index < |input| && len < LITERAL_MAX then
      var ahead := RunAt(input, index);
      if ahead >= REPEAT_MIN || len + ahead > LITERAL_MAX then index else LiteralEnd(input, index + ahead, len + ahead)
    else index
  }

  /** `LiteralEnd` folded behind three empty recursive steps. */
  function FoldedEnd(input: seq<byte>, index: nat, len: nat, folds: nat): (e: nat)
    requires index <= |input| && len <= LITERAL_MAX
    ensures index <= e <= |input| && e - index + len <= LITERAL_MAX
    decreases folds, index
  {
    if folds == 0 then LiteralEnd(input, index, len) else FoldedEnd(input, index, len, folds - 1)
  }

  function LiteralAt(input: seq<byte>, index: nat, len: nat): (e: nat)
    requires index <= |input| && len <= LITERAL_MAX
    ensures index <= e <= |input| && e - index + len <= LITERAL_MAX
  {
    FoldedEnd(input, index, len, 3)
  }

  lemma LiteralAtIs(input: seq<byte>, index: nat, len: nat)
    requires index <= |input| && len <= LITERAL_MAX
    ensures LiteralAt(input, index, len) == LiteralEnd(input, index, len)
  {
    assert FoldedEnd(input, index, len, 1) == FoldedEnd(input, index, len, 0);
    assert FoldedEnd(input, index, len, 2) == FoldedEnd(input, index, len, 1);
  }

  /** How the scan for the end of a literal goes on. */
  lemma LiteralAtNext(input: seq<byte>, index: nat, len: nat)
    requires index <= |input| && len <= LITERAL_MAX
    ensures LiteralAt(input, index, len)
         == if index < |input| && len < LITERAL_MAX && RunAt(input, index) < REPEAT_MIN
               && len + RunAt(input, index) <= LITERAL_MAX
            then LiteralAt(input, index + RunAt(input, index), len + RunAt(input, index))
            else index
  {
    LiteralAtIs(input, index, len);
    if index < |input| && len + RunAt(input, index) <= LITERAL_MAX {
      LiteralAtIs(input, index + RunAt(input, index), len + RunAt(input, index));
    }
  }

  function LiteralToken(input: seq<byte>, index: nat): (e: nat)
    requires index < |input| && RunAt(input, index) < REPEAT_MIN
    ensures index < e <= |input| && e - index <= LITERAL_MAX
  {
    LiteralAtNext(input, index, 0);
    LiteralAt(input, index, 0)
  }

  // ----- The token stream -----

  function Literal(bytes: seq<byte>): (s: seq<byte>)
    requires 1 <= |bytes| <= LITERAL_MAX
    ensures |s| == |bytes| + 1
  {
    [|bytes| - 1] + bytes
  }

  function Repeat(b: byte, n: nat): (s: seq<byte>)
    requires REPEAT_MIN <= n <= REPEAT_MAX
    ensures |s| == 2
  {
    [0x80 + (n - REPEAT_MIN), b]
  }

  function EncodeFrom(input: seq<byte>, index: nat): seq<byte>
    requires index <= |input|
    decreases |input| - index
  {
    if index == |input| then []
    else
      var run := RunAt(input, index);
      if run >= REPEAT_MIN then Repeat(input[index], run) + EncodeFrom(input, index + run)
      else
        var e := LiteralToken(input, index);
        Literal(input[index..e]) + EncodeFrom(input, e)
  }

  function EncodeSpec(input: seq<byte>): seq<byte> {
    EncodeFrom(input, 0)
  }

  lemma FirstRepeat(input: seq<byte>, index: nat)
    requires index < |input| && RunAt(input, index) >= REPEAT_MIN
    ensures var run := RunAt(input, index);
      EncodeFrom(input, index) == Repeat(input[index], run) + EncodeFrom(input, index + run)
  {
  }

  lemma FirstLiteral(input: seq<byte>, index: nat)
    requires index < |input| && RunAt(input, index) < REPEAT_MIN
    ensures var e := LiteralToken(input, index);
      EncodeFrom(input, index) == Literal(input[index..e]) + EncodeFrom(input, e)
  {
  }

  // ----- Literal tokens never hide a run -----

  ghost predicate TripleAt(input: seq<byte>, i: nat)
    requires i + 2 < |input|
  {
    input[i] == input[i + 1] == input[i + 2]
  }

  /** No three equal consecutive bytes in input[from..to]. */
  ghost predicate NoTriple(input: seq<byte>, from: nat, to: nat) {
    to <= |input| && forall i :: from <= i < to - 2 ==> !TripleAt(input, i)
  }

  /** `index` starts a fresh run within the token starting at `from`. */
  ghost predicate FreshRun(input: seq<byte>, from: nat, index: nat) {
    index == from || index >= |input| || (0 < index && input[index - 1] != input[index])
  }

  lemma ChunkHasNoTriple(input: seq<byte>, from: nat, index: nat, ahead: nat)
    requires from <= index && 1 <= ahead < REPEAT_MIN && index + ahead <= |input|
    requires NoTriple(input, from, index) && (index == from || input[index - 1] != input[index])
    requires index + ahead < |input| ==> input[index + ahead] != input[index]
    requires ahead == 2 ==> input[index + 1] == input[index]
    ensures NoTriple(input, from, index + ahead) && FreshRun(input, from, index + ahead)
  {
    forall i | from <= i < index + ahead - 2
      ensures !TripleAt(input, i)
    {
      assert i >= index - 2 ==> i + 1 == index - 1 || i + 1 == index;
    }
  }

  lemma {:induction false} LiteralHasNoTriple(input: seq<byte>, from: nat, index: nat, len: nat)
    requires from + len == index <= |input| && len <= LITERAL_MAX
    requires NoTriple(input, from, index) && FreshRun(input, from, index)
    ensures NoTriple(input, from, LiteralEnd(input, index, len))
    decreases |input| - index
  {
    if index < |input| && len < LITERAL_MAX {
      var ahead := RunAt(input, index);
      if ahead < REPEAT_MIN && len + ahead <= LITERAL_MAX {
        RunAtIs(input, index);
        ChunkHasNoTriple(input, from, index, ahead);
        LiteralHasNoTriple(input, from, index + ahead, len + ahead);
      }
    }
  }

  /** No literal token of the encoder holds three equal consecutive bytes. */
  lemma LiteralTokensAreRunFree(input: seq<byte>, index: nat)
    requires index < |input| && RunAt(input, index) < REPEAT_MIN
    ensures NoTriple(input, index, LiteralToken(input, index))
  {
    LiteralAtIs(input, index, 0);
    LiteralHasNoTriple(input, index, index, 0);
  }

  // ----- Expansion -----

  ghost predicate EndsWell(input: seq<byte>, e: nat, len: nat)
    requires e <= |input|
  {
    e == |input| || RunAt(input, e) >= REPEAT_MIN || len >= LITERAL_MAX - 1
  }

  /** Why a literal token ended: the input did, a long run follows, or it is full. */
  lemma {:induction false} LiteralEndReason(input: seq<byte>, index: nat, len: nat)
    requires index <= |input| && len <= LITERAL_MAX
    ensures var e := LiteralEnd(input, index, len); EndsWell(input, e, e - index + len)
    decreases |input| - index
  {
    if index < |input| && len < LITERAL_MAX {
      var ahead := RunAt(input, index);
      if ahead < REPEAT_MIN && len + ahead <= LITERAL_MAX {
        LiteralEndReason(input, index + ahead, len + ahead);
      }
    }
  }

  ghost predicate WithinBound(streamLen: nat, inputLen: nat) {
    streamLen <= inputLen + (inputLen + 126) / 127
  }

  lemma BoundSteps(len: nat, run: nat, streamLen: nat, inputLen: nat)
    requires 1 <= len && run >= REPEAT_MIN && WithinBound(streamLen, inputLen)
    ensures WithinBound(2 + streamLen, run + inputLen)
    ensures WithinBound(1 + len + (2 + streamLen), len + (run + inputLen))
    ensures len >= LITERAL_MAX - 1 || streamLen == inputLen == 0 ==> WithinBound(1 + len + streamLen, len + inputLen)
  {
  }

  ghost predicate Bounded(input: seq<byte>, index: nat)
    requires index <= |input|
  {
    WithinBound(|EncodeFrom(input, index)|, |input| - index)
  }

  lemma BoundedRepeat(input: seq<byte>, index: nat)
    requires index < |input| && RunAt(input, index) >= REPEAT_MIN
    requires Bounded(input, index + RunAt(input, index))
    ensures Bounded(input, index)
    ensures |EncodeFrom(input, index)| == 2 + |EncodeFrom(input, index + RunAt(input, index))|
  {
    var run := RunAt(input, index);
    var rest := EncodeFrom(input, index + run);
    BoundSteps(1, run, |rest|, |input| - index - run);
    FirstRepeat(input, index);
  }

  /** Both facts a literal token needs about what follows it. */
  ghost predicate BoundedAfter(input: seq<byte>, e: nat)
    requires e <= |input|
  {
    Bounded(input, e) && (e < |input| && RunAt(input, e) >= REPEAT_MIN ==> Bounded(input, e + RunAt(input, e)))
  }

  /** A literal of `len` bytes in front of position `e`. */
  lemma BoundedInFront(input: seq<byte>, e: nat, len: nat)
    requires e <= |input| && len >= 1 && BoundedAfter(input, e) && EndsWell(input, e, len)
    ensures WithinBound(1 + len + |EncodeFrom(input, e)|, len + (|input| - e))
  {
    if e < |input| && RunAt(input, e) >= REPEAT_MIN {
      var next := e + RunAt(input, e);
      BoundedRepeat(input, e);
      BoundSteps(len, next - e, |EncodeFrom(input, next)|, |input| - next);
    } else {
      BoundSteps(len, REPEAT_MIN, |EncodeFrom(input, e)|, |input| - e);
    }
  }

  lemma BoundedLiteral(input: seq<byte>, index: nat)
    requires index < |input| && RunAt(input, index) < REPEAT_MIN
    requires BoundedAfter(input, LiteralToken(input, index))
    ensures Bounded(input, index)
  {
    var e := LiteralToken(input, index);
    LiteralAtIs(input, index, 0);
    LiteralEndReason(input, index, 0);
    BoundedInFront(input, e, e - index);
    FirstLiteral(input, index);
  }

  /** At most one extra byte per 127 input bytes, here and after a following run. */
  lemma {:induction false} BoundedFrom(input: seq<byte>, index: nat)
    requires index <= |input|
    ensures BoundedAfter(input, index)
    decreases |input| - index
  {
    if index < |input| {
      var run := RunAt(input, index);
      if run >= REPEAT_MIN {
        BoundedFrom(input, index + run);
        BoundedRepeat(input, index);
      } else {
        BoundedFrom(input, LiteralToken(input, index));
        BoundedLiteral(input, index);
      }
    }
  }

  /** At most one extra byte per 127 input bytes. */
  lemma ExpansionBound(input: seq<byte>)
    ensures WithinBound(|EncodeSpec(input)|, |input|)
  {
    BoundedFrom(input, 0);
  }

  // ----- The meaning of a token stream -----

  function DecodeFrom(stream: seq<byte>, out: seq<byte>): (r: Option<seq<byte>>)
    ensures r.Some? ==> out <= r.value
    ensures r.Some? && stream != [] ==> |out| < |r.value|
    decreases |stream|
  {
    if stream == [] then Some(out)
    else if stream[0] <= 0x7F then
      var len: nat := stream[0] as int + 1;
      if len > |stream| - 1 then None else DecodeFrom(stream[1 + len..], out + stream[1..1 + len])
    else if |stream| < 2 then None
    else DecodeFrom(stream[2..], out + Filled(stream[1], stream[0] as int - 0x80 + REPEAT_MIN))
  }

  function DecodeSpec(stream: seq<byte>): Option<seq<byte>> {
    DecodeFrom(stream, [])
  }

  lemma DecodeLiteral(bytes: seq<byte>, rest: seq<byte>, out: seq<byte>)
    requires 1 <= |bytes| <= LITERAL_MAX
    ensures DecodeFrom(Literal(bytes) + rest, out) == DecodeFrom(rest, out + bytes)
  {
    var stream := Literal(bytes) + rest;
    assert stream[1..1 + |bytes|] == bytes;
    assert stream[1 + |bytes|..] == rest;
  }

  lemma DecodeRepeat(b: byte, n: nat, rest: seq<byte>, out: seq<byte>)
    requires REPEAT_MIN <= n <= REPEAT_MAX
    ensures DecodeFrom(Repeat(b, n) + rest, out) == DecodeFrom(rest, out + Filled(b, n))
  {
    var stream := Repeat(b, n) + rest;
    assert stream[2..] == rest;
  }

  /** The tokens on the wire: 00..7F, a run of token + 1 bytes; 80..FF, one byte to be
      repeated (token and 7F) + 3 times. */
  lemma TokensAre(token: byte, bytes: seq<byte>, rest: seq<byte>, out: seq<byte>)
    ensures token <= 0x7F && |bytes| == token + 1 ==>
              DecodeFrom([token] + bytes + rest, out) == DecodeFrom(rest, out + bytes)
    ensures token >= 0x80 && |bytes| == 1 ==>
              DecodeFrom([token] + bytes + rest, out) == DecodeFrom(rest, out + seq(token - 0x80 + 3, k => bytes[0]))
  {
    var stream := [token] + bytes + rest;
    assert stream[1..1 + |bytes|] == bytes && stream[1 + |bytes|..] == rest;
    if token >= 0x80 && |bytes| == 1 {
      assert seq<byte>(token - 0x80 + 3, k => bytes[0]) == Filled(stream[1], stream[0] as int - 0x80 + REPEAT_MIN);
    }
  }

  ghost predicate Restores(input: seq<byte>, index: nat)
    requires index <= |input|
  {
    DecodeFrom(EncodeFrom(input, index), input[..index]) == Some(input)
  }

  lemma RunRestores(input: seq<byte>, index: nat)
    requires index < |input|
    ensures var run := RunAt(input, index); input[..index] + Filled(input[index], run) == input[..index + run]
  {
    var run := RunAt(input, index);
    assert input[index..index + 1] == Filled(input[index], 1);
    RunAtIs(input, index);
    RunIsConstant(input, index, 1);
    assert input[..index] + input[index..index + run] == input[..index + run];
  }

  lemma RestoresRepeat(input: seq<byte>, index: nat)
    requires index < |input| && RunAt(input, index) >= REPEAT_MIN
    requires Restores(input, index + RunAt(input, index))
    ensures Restores(input, index)
  {
    var run := RunAt(input, index);
    var rest := EncodeFrom(input, index + run);
    FirstRepeat(input, index);
    RunRestores(input, index);
    DecodeRepeat(input[index], run, rest, input[..index]);
    assert EncodeFrom(input, index) == Repeat(input[index], run) + rest;
  }

  lemma RestoresLiteral(input: seq<byte>, index: nat)
    requires index < |input| && RunAt(input, index) < REPEAT_MIN
    requires Restores(input, LiteralToken(input, index))
    ensures Restores(input, index)
  {
    var e := LiteralToken(input, index);
    assert input[..index] + input[index..e] == input[..e];
    FirstLiteral(input, index);
    DecodeLiteral(input[index..e], EncodeFrom(input, e), input[..index]);
  }

  /** Decoding the encoder's stream rebuilds the input. */
  lemma {:induction false} RoundTripFrom(input: seq<byte>, index: nat)
    requires index <= |input|
    ensures Restores(input, index)
    decreases |input| - index
  {
    if index == |input| {
      assert input[..index] == input;
    } else {
      var run := RunAt(input, index);
      if run >= REPEAT_MIN {
        RoundTripFrom(input, index + run);
        RestoresRepeat(input, index);
      } else {
        RoundTripFrom(input, LiteralToken(input, index));
        RestoresLiteral(input, index);
      }
    }
  }

  lemma RoundTrip(input: seq<byte>)
    ensures DecodeSpec(EncodeSpec(input)) == Some(input)
  {
    RoundTripFrom(input, 0);
    assert input[..0] == [];
  }

  // ----- The encoder -----

  method MeasureRun(input: seq<byte>, index: nat) returns (run: nat)
    requires index < |input|
    ensures run == RunAt(input, index)
  {
    run := 1;
    RunAtIs(input, index);
    while index + run < |input| && input[index + run] == input[index] && run < REPEAT_MAX
      invariant 1 <= run <= REPEAT_MAX && index + run <= |input|
      invariant Run(input, index, run) == Run(input, index, 1)
      decreases |input| - run
    {
      run := run + 1;
    }
  }

  method CollectLiteral(input: seq<byte>, start: nat) returns (index: nat)
    requires start < |input| && RunAt(input, start) < REPEAT_MIN
    ensures index == LiteralToken(input, start)
  {
    index := start;
    var len := 0;
    while index < |input| && len < LITERAL_MAX
      invariant start <= index <= |input| && len <= LITERAL_MAX && len == index - start
      invariant LiteralAt(input, index, len) == LiteralAt(input, start, 0)
      decreases |input| - index
    {
      LiteralAtNext(input, index, len);
      var ahead := MeasureRun(input, index);
      if ahead >= REPEAT_MIN {
        break;
      }
      if len + ahead > LITERAL_MAX {
        break;
      }
      len := len + ahead;
      index := index + ahead;
    }
    LiteralAtNext(input, index, len);
  }

  /** What is written plus what is still to come is the whole stream. */
  ghost predicate Progress(input: seq<byte>, written: seq<byte>, index: nat) {
    index <= |input| && EncodeSpec(input) == written + EncodeFrom(input, index)
  }

  lemma ProgressToken(input: seq<byte>, written: seq<byte>, index: nat, token: seq<byte>, next: nat)
    requires Progress(input, written, index) && next <= |input|
    requires EncodeFrom(input, index) == token + EncodeFrom(input, next)
    ensures Progress(input, written + token, next)
  {
    assert written + (token + EncodeFrom(input, next)) == (written + token) + EncodeFrom(input, next);
  }

  lemma ProgressRepeat(input: seq<byte>, written: seq<byte>, index: nat)
    requires index < |input| && RunAt(input, index) >= REPEAT_MIN && Progress(input, written, index)
    ensures Progress(input, written + Repeat(input[index], RunAt(input, index)), index + RunAt(input, index))
  {
    FirstRepeat(input, index);
    ProgressToken(input, written, index, Repeat(input[index], RunAt(input, index)), index + RunAt(input, index));
  }

  lemma ProgressLiteral(input: seq<byte>, written: seq<byte>, index: nat)
    requires index < |input| && RunAt(input, index) < REPEAT_MIN && Progress(input, written, index)
    ensures var e := LiteralToken(input, index); Progress(input, written + Literal(input[index..e]), e)
  {
    FirstLiteral(input, index);
    ProgressToken(input, written, index, Literal(input[index..LiteralToken(input, index)]), LiteralToken(input, index));
  }

  /** The token at `index` and the position after it. */
  method NextToken(input: seq<byte>, index: nat, ghost written: seq<byte>) returns (token: seq<byte>, next: nat)
    requires index < |input| && Progress(input, written, index)
    ensures index < next <= |input| && token != [] && Progress(input, written + token, next)
  {
    var run := MeasureRun(input, index);
    if run >= REPEAT_MIN {
      token, next := Repeat(input[index], run), index + run;
      ProgressRepeat(input, written, index);
    } else {
      next := CollectLiteral(input, index);
      token := Literal(input[index..next]);
      ProgressLiteral(input, written, index);
    }
  }

  method Encode(input: seq<byte>, output: array<byte>, capacity: nat, limit: nat) returns (ok: bool, outLen: nat)
    requires |input| < U16 && capacity < U16 && limit < U16 && capacity <= output.Length
    modifies output
    ensures ok <==> input != [] && Fits(|EncodeSpec(input)|, capacity, limit)
    ensures ok ==> outLen == |EncodeSpec(input)| && output[..outLen] == EncodeSpec(input)
    ensures !ok ==> outLen == 0
  {
    if |input| == 0 || limit == 0 || capacity == 0 {
      return false, 0;
    }
    var total: nat, index: nat, fine := 0, 0, true;
    while index < |input|
      invariant total <= capacity && total < limit
      invariant index > 0 ==> total > 0
      invariant Progress(input, output[..total], index)
      decreases |input| - index
    {
      var token, next := NextToken(input, index, output[..total]);
      fine, total := Emit(output, total, token, capacity, limit);
      if !fine {
        return false, 0;
      }
      index := next;
    }
    if total == 0 || total >= limit {
      assert false;
    }
    return true, total;
  }

  // ----- The decoder -----

  /** The decoder can no longer succeed within the capacity and below the limit. */
  ghost predicate Hopeless(stream: seq<byte>, out: seq<byte>, capacity: nat, limit: nat) {
    var r := DecodeFrom(stream, out); r.None? || !Fits(|r.value|, capacity, limit)
  }

  lemma NoRoom(stream: seq<byte>, out: seq<byte>, capacity: nat, limit: nat)
    requires !Fits(|out|, capacity, limit)
    ensures Hopeless(stream, out, capacity, limit)
  {
  }

  /** What one input token expands to, if it is complete. */
  method ReadToken(input: seq<byte>, index: nat, ghost out: seq<byte>) returns (ok: bool, bytes: seq<byte>, next: nat)
    requires index < |input|
    ensures ok ==> index < next <= |input| && bytes != []
    ensures ok ==> DecodeFrom(input[index..], out) == DecodeFrom(input[next..], out + bytes)
    ensures !ok ==> DecodeFrom(input[index..], out).None?
  {
    ghost var stream := input[index..];
    var token := input[index];
    next := index + 1;
    if token <= 0x7F {
      var len: nat := token as int + 1;
      if len > |input| - next {
        return false, [], next;
      }
      assert stream[1..1 + len] == input[next..next + len];
      assert stream[1 + len..] == input[next + len..];
      return true, input[next..next + len], next + len;
    } else {
      if next >= |input| {
        return false, [], next;
      }
      assert stream[2..] == input[next + 1..];
      return true, Filled(input[next], token as int - 0x80 + REPEAT_MIN), next + 1;
    }
  }

  method Decode(input: seq<byte>, output: array<byte>, capacity: nat, limit: nat) returns (ok: bool, outLen: nat)
    requires |input| < U16 && capacity < U16 && limit < U16 && capacity <= output.Length
    modifies output
    ensures ok <==> input != [] && DecodeSpec(input).Some? && Fits(|DecodeSpec(input).value|, capacity, limit)
    ensures ok ==> outLen == |DecodeSpec(input).value| && output[..outLen] == DecodeSpec(input).value
    ensures !ok ==> outLen == 0
  {
    if |input| == 0 || limit == 0 || capacity == 0 {
      return false, 0;
    }
    var total: nat, index: nat, fine := 0, 0, true;
    assert input[0..] == input;
    while index < |input|
      invariant index <= |input| && total <= capacity && total < limit
      invariant index > 0 ==> total > 0
      invariant DecodeSpec(input) == DecodeFrom(input[index..], output[..total])
      decreases |input| - index
    {
      ghost var out := output[..total];
      var bytes, next;
      fine, bytes, next := ReadToken(input, index, out);
      if !fine {
        return false, 0;
      }
      fine, total := Emit(output, total, bytes, capacity, limit);
      if !fine {
        NoRoom(input[next..], out + bytes, capacity, limit);
        return false, 0;
      }
      index := next;
    }
    if total == 0 || total >= limit {
      assert false;
    }
    return true, total;
  }

  /** What one side encodes, the other side decodes, given room for the original. */
  method EncodeThenDecode(input: seq<byte>, wire: array<byte>, limit: nat, back: array<byte>, backLimit: nat)
    returns (sent: bool, received: bool, len: nat)
    requires |input| < U16 && limit < U16 && backLimit < U16 && wire != back
    requires wire.Length < U16 && back.Length < U16
    modifies wire, back
    ensures sent <==> input != [] && Fits(|EncodeSpec(input)|, wire.Length, limit)
    ensures sent && Fits(|input|, back.Length, backLimit) ==> received && len == |input| && back[..len] == input
  {
    var wireLen: nat;
    sent, wireLen := Encode(input, wire, wire.Length, limit);
    received, len := false, 0;
    if sent {
      received, len := Decode(wire[..wireLen], back, back.Length, backLimit);
      RoundTrip(input);
    }
  }
}
