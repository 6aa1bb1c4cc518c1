/** LZSS with a 256-byte window (code/lib/codec_lzss.c). */
module CodecLzss {

  // `EncodeFrom` is the greedy token stream as a function of the input, `DecodeOnto`
  // the meaning of a token stream; the encoder and decoder methods are the source's
  // loops over an output buffer.

  import opened Machine
  import opened CodecCommon

  const LITERAL_MAX: nat := 128
  const REF_LEN_MAX: nat := 130
  const REF_LEN_MIN: nat := 3
  const WINDOW: nat := 256

  // ----- Matches -----

  /** How far the bytes at `index` agree with those `offset` earlier, from `k` on, capped. */
  function MatchLen(input: seq<byte>, index: nat, offset: nat, k: nat): (len: nat)
    requires 1 <= offset <= index && index + k <= |input| && k <= REF_LEN_MAX
    ensures k <= len <= REF_LEN_MAX && index + len <= |input|
    decreases REF_LEN_MAX - k
  {
    if k < REF_LEN_MAX && index + k < |input| && input[index + k] == input[index - offset + k]
    then MatchLen(input, index, offset, k + 1)
    else k
  }

  /** The whole agreement, folded behind three empty recursive steps so that proofs
      about the search see it as an atom. */
  function FoldedLen(input: seq<byte>, index: nat, offset: nat, folds: nat): (len: nat)
    requires 1 <= offset <= index <= |input|
    ensures len <= REF_LEN_MAX && index + len <= |input|
    decreases folds, index
  {
    if folds == 0 then MatchLen(input, index, offset, 0) else FoldedLen(input, index, offset, folds - 1)
  }

  function Len(input: seq<byte>, index: nat, offset: nat): (len: nat)
    requires 1 <= offset <= index <= |input|
    ensures len <= REF_LEN_MAX && index + len <= |input|
  {
    FoldedLen(input, index, offset, 3)
  }

  lemma LenIs(input: seq<byte>, index: nat, offset: nat)
    requires 1 <= offset <= index <= |input|
    ensures Len(input, index, offset) == MatchLen(input, index, offset, 0)
  {
    assert FoldedLen(input, index, offset, 1) == FoldedLen(input, index, offset, 0);
    assert FoldedLen(input, index, offset, 2) == FoldedLen(input, index, offset, 1);
  }

  ghost predicate RepeatsAt(input: seq<byte>, p: nat, offset: nat) {
    1 <= offset <= p < |input| && input[p] == input[p - offset]
  }

  /** input[from..to] repeats the bytes `offset` earlier. */
  ghost predicate Repeats(input: seq<byte>, from: nat, to: nat, offset: nat) {
    && 1 <= offset <= from <= to <= |input|
    && forall p :: from <= p < to ==> RepeatsAt(input, p, offset)
  }

  lemma {:induction false} MatchAgrees(input: seq<byte>, index: nat, offset: nat, k: nat)
    requires 1 <= offset <= index && index + k <= |input| && k <= REF_LEN_MAX
    ensures Repeats(input, index + k, index + MatchLen(input, index, offset, k), offset)
    decreases REF_LEN_MAX - k
  {
    if k < REF_LEN_MAX && index + k < |input| && input[index + k] == input[index - offset + k] {
      MatchAgrees(input, index, offset, k + 1);
    }
  }

  function MaxOffset(index: nat): nat {
    if index < WINDOW then index else WINDOW
  }

  datatype Match = Match(len: nat, offset: nat)

  /** The nearest longest match among offsets 1..n. */
  function BestUpTo(input: seq<byte>, index: nat, n: nat): (m: Match)
    requires index <= |input| && n <= MaxOffset(index)
    ensures m.len <= REF_LEN_MAX && index + m.len <= |input|
    ensures m.len > 0 ==> 1 <= m.offset <= n
  {
    if n == 0 then Match(0, 0)
    else
      var best, len := BestUpTo(input, index, n - 1), Len(input, index, n);
      if len > best.len then Match(len, n) else best
  }

  /** The search over the whole window, folded behind three empty recursive steps so
      that proofs about tokens see the match as an atom. */
  function FoldedBest(input: seq<byte>, index: nat, folds: nat): (m: Match)
    requires index <= |input|
    ensures m.len <= REF_LEN_MAX && index + m.len <= |input|
    ensures m.len > 0 ==> 1 <= m.offset <= WINDOW
    decreases folds, index
  {
    if folds == 0 then BestUpTo(input, index, MaxOffset(index)) else FoldedBest(input, index, folds - 1)
  }

  function Best(input: seq<byte>, index: nat): (m: Match)
    requires index <= |input|
    ensures m.len <= REF_LEN_MAX && index + m.len <= |input|
    ensures m.len > 0 ==> 1 <= m.offset <= WINDOW
  {
    FoldedBest(input, index, 3)
  }

  lemma BestIs(input: seq<byte>, index: nat)
    requires index <= |input|
    ensures Best(input, index) == BestUpTo(input, index, MaxOffset(index))
  {
    assert FoldedBest(input, index, 1) == FoldedBest(input, index, 0);
    assert FoldedBest(input, index, 2) == FoldedBest(input, index, 1);
  }

  /** Longest, and nearest among the longest. */
  lemma {:induction false} BestIsLongestNearest(input: seq<byte>, index: nat, n: nat)
    requires index <= |input| && n <= MaxOffset(index)
    ensures var m := BestUpTo(input, index, n);
      && (forall o :: 1 <= o <= n ==> Len(input, index, o) <= m.len)
      && (m.len > 0 ==> Len(input, index, m.offset) == m.len)
      && (m.len > 0 ==> forall o :: 1 <= o < m.offset ==> Len(input, index, o) < m.len)
    decreases n
  {
    if n > 0 {
      BestIsLongestNearest(input, index, n - 1);
    }
  }

  lemma {:induction false} MatchIsMaximal(input: seq<byte>, index: nat, offset: nat, k: nat, n: nat)
    requires 1 <= offset <= index && k <= n <= 130 && index + n <= |input|
    requires Repeats(input, index + k, index + n, offset)
    ensures n <= MatchLen(input, index, offset, k)
    decreases n - k
  {
    if k < n {
      assert RepeatsAt(input, index + k, offset);
      MatchIsMaximal(input, index, offset, k + 1, n);
    }
  }

  /** The match taken is at least as long as every repetition of up to 130 bytes from up to
      256 bytes back. */
  lemma BestIsMaximal(input: seq<byte>, index: nat, offset: nat, n: nat)
    requires 1 <= offset <= index && offset <= 256 && n <= 130 && index + n <= |input|
    requires Repeats(input, index, index + n, offset)
    ensures n <= Best(input, index).len
  {
    BestIs(input, index);
    BestIsLongestNearest(input, index, MaxOffset(index));
    MatchIsMaximal(input, index, offset, 0, n);
    LenIs(input, index, offset);
  }

  // ----- The greedy token stream -----

  function Literal(input: seq<byte>, start: nat, index: nat): (s: seq<byte>)
    requires start <= index <= |input| && index - start <= LITERAL_MAX
    ensures |s| == if index == start then 0 else 1 + index - start
  {
    if index == start then [] else [index - start - 1] + input[start..index]
  }

  function Reference(m: Match): (s: seq<byte>)
    requires REF_LEN_MIN <= m.len <= REF_LEN_MAX && 1 <= m.offset <= WINDOW
    ensures |s| == 2
  {
    [0x80 + (m.len - REF_LEN_MIN), m.offset - 1]
  }

  /** The pending literal run, flushed, and the reference that ends it. */
  function LiteralReference(input: seq<byte>, start: nat, index: nat, m: Match): (s: seq<byte>)
    requires start <= index <= |input| && index - start <= LITERAL_MAX
    requires REF_LEN_MIN <= m.len <= REF_LEN_MAX && 1 <= m.offset <= WINDOW
    ensures |s| == (if index == start then 0 else 1 + index - start) + 2
  {
    Literal(input, start, index) + Reference(m)
  }

  /** Tokens for input[start..], of which input[start..index] is a pending literal run. */
  function EncodeFrom(input: seq<byte>, start: nat, index: nat): seq<byte>
    requires start <= index <= |input| && index - start < LITERAL_MAX
    decreases |input| - index
  {
    if index == |input| then Literal(input, start, index)
    else
      var m := Best(input, index);
      if m.len >= REF_LEN_MIN then
        LiteralReference(input, start, index, m) + EncodeFrom(input, index + m.len, index + m.len)
      else if index + 1 - start == LITERAL_MAX then
        Literal(input, start, index + 1) + EncodeFrom(input, index + 1, index + 1)
      else
        EncodeFrom(input, start, index + 1)
  }

  function EncodeSpec(input: seq<byte>): seq<byte> {
    EncodeFrom(input, 0, 0)
  }

  ghost predicate WithinBound(streamLen: nat, inputLen: nat) {
    streamLen <= inputLen + (inputLen + 127) / 128
  }

  lemma BoundSteps(run: nat, streamLen: nat, inputLen: nat, refLen: nat)
    requires run < LITERAL_MAX && refLen >= REF_LEN_MIN && WithinBound(streamLen, inputLen)
    ensures WithinBound((if run == 0 then 0 else 1 + run) + 2 + streamLen, run + refLen + inputLen)
    ensures WithinBound(1 + LITERAL_MAX + streamLen, LITERAL_MAX + inputLen)
  {
  }

  /** At most one extra byte per 128 input bytes. */
  lemma {:induction false} ExpansionBound(input: seq<byte>, start: nat, index: nat)
    requires start <= index <= |input| && index - start < LITERAL_MAX
    ensures WithinBound(|EncodeFrom(input, start, index)|, |input| - start)
    decreases |input| - index
  {
    if index < |input| {
      var m := Best(input, index);
      if m.len >= REF_LEN_MIN {
        var next := index + m.len;
        ExpansionBound(input, next, next);
        var rest := EncodeFrom(input, next, next);
        BoundSteps(index - start, |rest|, |input| - next, m.len);
      } else if index + 1 - start == LITERAL_MAX {
        ExpansionBound(input, index + 1, index + 1);
        BoundSteps(0, |EncodeFrom(input, index + 1, index + 1)|, |input| - index - 1, REF_LEN_MIN);
      } else {
        ExpansionBound(input, start, index + 1);
      }
    }
  }

  lemma {:induction false} NonEmpty(input: seq<byte>, start: nat, index: nat)
    requires start <= index <= |input| && index - start < LITERAL_MAX
    ensures EncodeFrom(input, start, index) == [] <==> start == |input|
    decreases |input| - index
  {
    if index < |input| && Best(input, index).len < REF_LEN_MIN && index + 1 - start < LITERAL_MAX {
      NonEmpty(input, start, index + 1);
    }
  }

  // ----- The meaning of a token stream -----

  /** Append `n` bytes, each copied from `offset` before the current end. */
  function CopyBack(out: seq<byte>, offset: nat, n: nat): (r: seq<byte>)
    requires 1 <= offset <= |out|
    ensures |r| == |out| + n && out <= r
    decreases n
  {
    if n == 0 then out else CopyBack(out + [out[|out| - offset]], offset, n - 1)
  }

  /** Decode `stream` onto the already decoded `out`. */
  function DecodeFrom(stream: seq<byte>, out: seq<byte>): (r: Option<seq<byte>>)
    ensures r.Some? ==> out <= r.value
    ensures r.Some? && stream != [] ==> |out| < |r.value|
    decreases |stream|
  {
    if stream == [] then Some(out)
    else if stream[0] <= 0x7F then
      var len: nat := stream[0] + 1;
      if len > |stream| - 1 then None else DecodeFrom(stream[1 + len..], out + stream[1..1 + len])
    else if |stream| < 2 then None
    else
      var len: nat, offset: nat := stream[0] as int - 0x80 + REF_LEN_MIN, stream[1] as int + 1;
      if offset > |out| then None else DecodeFrom(stream[2..], CopyBack(out, offset, len))
  }

  /** `DecodeFrom`, folded like `Best`. */
  function FoldedDecode(stream: seq<byte>, out: seq<byte>, folds: nat): Option<seq<byte>>
    decreases folds, |stream|
  {
    if folds == 0 then DecodeFrom(stream, out) else FoldedDecode(stream, out, folds - 1)
  }

  function DecodeOnto(stream: seq<byte>, out: seq<byte>): Option<seq<byte>> {
    FoldedDecode(stream, out, 3)
  }

  lemma DecodeOntoIs(stream: seq<byte>, out: seq<byte>)
    ensures DecodeOnto(stream, out) == DecodeFrom(stream, out)
  {
    assert FoldedDecode(stream, out, 1) == DecodeFrom(stream, out);
    assert FoldedDecode(stream, out, 2) == FoldedDecode(stream, out, 1);
  }

  /** The tokens on the wire: 00..7F, a run of token + 1 bytes; 80..FF and an offset byte,
      (token and 7F) + 3 bytes from offset byte + 1 back. */
  lemma TokensAre(token: byte, bytes: seq<byte>, rest: seq<byte>, out: seq<byte>)
    ensures token <= 0x7F && |bytes| == token + 1 ==>
              DecodeFrom([token] + bytes + rest, out) == DecodeFrom(rest, out + bytes)
    ensures token >= 0x80 && |bytes| == 1 ==>
              DecodeFrom([token] + bytes + rest, out)
              == if bytes[0] as int + 1 > |out| then None
                 else DecodeFrom(rest, CopyBack(out, bytes[0] as int + 1, token as int - 0x80 + 3))
  {
    var stream := [token] + bytes + rest;
    assert stream[1..1 + |bytes|] == bytes && stream[1 + |bytes|..] == rest;
  }

  /** Every byte copied is the one `offset` before it, itself copied or not. */
  lemma {:induction false} CopyBackRepeats(out: seq<byte>, offset: nat, n: nat, p: nat)
    requires 1 <= offset <= |out| <= p < |out| + n
    ensures CopyBack(out, offset, n)[p] == CopyBack(out, offset, n)[p - offset]
    decreases n
  {
    var next := out + [out[|out| - offset]];
    var r := CopyBack(out, offset, n);
    assert r == CopyBack(next, offset, n - 1) && next <= r;
    if p > |out| {
      CopyBackRepeats(next, offset, n - 1, p);
    } else {
      assert r[p] == next[p] && r[p - offset] == next[p - offset];
    }
  }

  // ----- Round trip -----

  lemma {:induction false} CopyBackRestores(input: seq<byte>, index: nat, offset: nat, n: nat)
    requires Repeats(input, index, index + n, offset)
    ensures CopyBack(input[..index], offset, n) == input[..index + n]
    decreases n
  {
    if n > 0 {
      assert RepeatsAt(input, index, offset);
      assert input[..index] + [input[index - offset]] == input[..index + 1];
      CopyBackRestores(input, index + 1, offset, n - 1);
    }
  }

  lemma DecodeBytes(bytes: seq<byte>, rest: seq<byte>, out: seq<byte>)
    requires 1 <= |bytes| <= LITERAL_MAX
    ensures DecodeOnto([|bytes| - 1] + bytes + rest, out) == DecodeOnto(rest, out + bytes)
  {
    var stream: seq<byte> := [|bytes| - 1] + bytes + rest;
    DecodeOntoIs(stream, out);
    DecodeOntoIs(rest, out + bytes);
    assert stream[1..1 + |bytes|] == bytes;
    assert stream[1 + |bytes|..] == rest;
  }

  lemma DecodeLiteral(input: seq<byte>, start: nat, index: nat, rest: seq<byte>)
    requires start <= index <= |input| && index - start <= LITERAL_MAX
    ensures DecodeOnto(Literal(input, start, index) + rest, input[..start]) == DecodeOnto(rest, input[..index])
  {
    if index == start {
      assert Literal(input, start, index) + rest == rest;
    } else {
      DecodeBytes(input[start..index], rest, input[..start]);
      assert input[..start] + input[start..index] == input[..index];
    }
  }

  lemma BestRepeats(input: seq<byte>, index: nat)
    requires index <= |input| && Best(input, index).len > 0
    ensures var m := Best(input, index); Repeats(input, index, index + m.len, m.offset)
  {
    BestIs(input, index);
    BestIsLongestNearest(input, index, MaxOffset(index));
    LenIs(input, index, Best(input, index).offset);
    MatchAgrees(input, index, Best(input, index).offset, 0);
  }

  lemma DecodeReference(input: seq<byte>, index: nat, m: Match, rest: seq<byte>)
    requires REF_LEN_MIN <= m.len <= REF_LEN_MAX && m.offset <= WINDOW
    requires Repeats(input, index, index + m.len, m.offset)
    ensures DecodeOnto(Reference(m) + rest, input[..index]) == DecodeOnto(rest, input[..index + m.len])
  {
    var stream := Reference(m) + rest;
    DecodeOntoIs(stream, input[..index]);
    DecodeOntoIs(rest, input[..index + m.len]);
    CopyBackRestores(input, index, m.offset, m.len);
    assert stream[2..] == rest;
  }

  lemma DecodeLiteralReference(input: seq<byte>, start: nat, index: nat, m: Match, rest: seq<byte>)
    requires start <= index <= |input| && index - start <= LITERAL_MAX
    requires REF_LEN_MIN <= m.len <= REF_LEN_MAX && m.offset <= WINDOW
    requires Repeats(input, index, index + m.len, m.offset)
    ensures DecodeOnto(LiteralReference(input, start, index, m) + rest, input[..start])
         == DecodeOnto(rest, input[..index + m.len])
  {
    var l, r := Literal(input, start, index), Reference(m);
    assert l + r + rest == l + (r + rest);
    DecodeLiteral(input, start, index, r + rest);
    DecodeReference(input, index, m, rest);
  }

  lemma DecodeLastLiteral(input: seq<byte>, start: nat)
    requires start <= |input| && |input| - start <= LITERAL_MAX
    ensures DecodeOnto(Literal(input, start, |input|), input[..start]) == Some(input)
  {
    var l := Literal(input, start, |input|);
    assert l + [] == l;
    DecodeLiteral(input, start, |input|, []);
    assert input[..|input|] == input;
    DecodeOntoIs([], input);
  }

  ghost predicate Restores(input: seq<byte>, start: nat, index: nat)
    requires start <= index <= |input| && index - start < LITERAL_MAX
  {
    DecodeOnto(EncodeFrom(input, start, index), input[..start]) == Some(input)
  }

  lemma RestoresReference(input: seq<byte>, start: nat, index: nat)
    requires start <= index < |input| && index - start < LITERAL_MAX
    requires Best(input, index).len >= REF_LEN_MIN
    requires var next := index + Best(input, index).len; Restores(input, next, next)
    ensures Restores(input, start, index)
  {
    var m := Best(input, index);
    BestRepeats(input, index);
    var rest := EncodeFrom(input, index + m.len, index + m.len);
    DecodeLiteralReference(input, start, index, m, rest);
    assert EncodeFrom(input, start, index) == LiteralReference(input, start, index, m) + rest;
  }

  lemma RestoresFullLiteral(input: seq<byte>, start: nat, index: nat)
    requires start <= index < |input| && index + 1 - start == LITERAL_MAX
    requires Best(input, index).len < REF_LEN_MIN
    requires Restores(input, index + 1, index + 1)
    ensures Restores(input, start, index)
  {
    DecodeLiteral(input, start, index + 1, EncodeFrom(input, index + 1, index + 1));
  }

  /** Decoding the greedy stream rebuilds the input. */
  lemma {:induction false} RoundTripFrom(input: seq<byte>, start: nat, index: nat)
    requires start <= index <= |input| && index - start < LITERAL_MAX
    ensures Restores(input, start, index)
    decreases |input| - index
  {
    if index == |input| {
      DecodeLastLiteral(input, start);
    } else {
      var m := Best(input, index);
      if m.len >= REF_LEN_MIN {
        RoundTripFrom(input, index + m.len, index + m.len);
        RestoresReference(input, start, index);
      } else if index + 1 - start == LITERAL_MAX {
        RoundTripFrom(input, index + 1, index + 1);
        RestoresFullLiteral(input, start, index);
      } else {
        RoundTripFrom(input, start, index + 1);
      }
    }
  }

  lemma RoundTrip(input: seq<byte>)
    ensures DecodeFrom(EncodeSpec(input), []) == Some(input)
  {
    RoundTripFrom(input, 0, 0);
    DecodeOntoIs(EncodeSpec(input), []);
  }

  // ----- The encoder -----

  method Matching(input: seq<byte>, index: nat, offset: nat) returns (len: nat)
    requires 1 <= offset <= index <= |input|
    ensures len == Len(input, index, offset)
  {
    LenIs(input, index, offset);
    len := 0;
    while len < REF_LEN_MAX && index + len < |input| && input[index + len] == input[index - offset + len]
      invariant len <= REF_LEN_MAX && index + len <= |input|
      invariant MatchLen(input, index, offset, len) == MatchLen(input, index, offset, 0)
      decreases |input| - len
    {
      len := len + 1;
    }
  }

  /** Once the cap is reached no later offset can win. */
  lemma {:induction false} CapIsFinal(input: seq<byte>, index: nat, n: nat, k: nat)
    requires index <= |input| && n <= k <= MaxOffset(index)
    requires BestUpTo(input, index, n).len == REF_LEN_MAX
    ensures BestUpTo(input, index, k) == BestUpTo(input, index, n)
    decreases k
  {
    if n < k {
      CapIsFinal(input, index, n, k - 1);
    }
  }

  method FindMatch(input: seq<byte>, index: nat) returns (bestLen: nat, bestOffset: nat)
    requires index <= |input|
    ensures Match(bestLen, bestOffset) == Best(input, index)
  {
    BestIs(input, index);
    bestLen, bestOffset := 0, 0;
    var maxOffset := if index < WINDOW then index else WINDOW;
    var offset := 1;
    while offset <= maxOffset
      invariant 1 <= offset <= maxOffset + 1
      invariant Match(bestLen, bestOffset) == BestUpTo(input, index, offset - 1)
    {
      var matchLen := Matching(input, index, offset);
      if matchLen > bestLen {
        bestLen, bestOffset := matchLen, offset;
        if matchLen == REF_LEN_MAX {
          CapIsFinal(input, index, offset, maxOffset);
          break;
        }
      }
      offset := offset + 1;
    }
  }

  /** The loop's bookkeeping: what is written plus what is pending is the whole stream. */
  ghost predicate Progress(input: seq<byte>, written: seq<byte>, start: nat, index: nat) {
    && start <= index <= |input| && index - start < LITERAL_MAX
    && EncodeSpec(input) == written + EncodeFrom(input, start, index)
  }

  lemma EncodesReference(input: seq<byte>, start: nat, index: nat, m: Match)
    requires start <= index < |input| && index - start < LITERAL_MAX
    requires m == Best(input, index) && m.len >= REF_LEN_MIN
    ensures EncodeFrom(input, start, index)
         == LiteralReference(input, start, index, m) + EncodeFrom(input, index + m.len, index + m.len)
  {
  }

  lemma ProgressReference(input: seq<byte>, written: seq<byte>, start: nat, index: nat, m: Match)
    requires Progress(input, written, start, index) && index < |input|
    requires m == Best(input, index) && m.len >= REF_LEN_MIN
    ensures Progress(input, written + LiteralReference(input, start, index, m), index + m.len, index + m.len)
  {
    var l, rest := LiteralReference(input, start, index, m), EncodeFrom(input, index + m.len, index + m.len);
    EncodesReference(input, start, index, m);
    assert written + (l + rest) == (written + l) + rest;
  }

  lemma ProgressLiteral(input: seq<byte>, written: seq<byte>, start: nat, index: nat)
    requires Progress(input, written, start, index) && index < |input|
    requires Best(input, index).len < REF_LEN_MIN && index + 1 - start == LITERAL_MAX
    ensures Progress(input, written + Literal(input, start, index + 1), index + 1, index + 1)
  {
    var l, rest := Literal(input, start, index + 1), EncodeFrom(input, index + 1, index + 1);
    assert EncodeFrom(input, start, index) == l + rest;
    assert written + (l + rest) == (written + l) + rest;
  }

  lemma ProgressBound(input: seq<byte>, written: seq<byte>, start: nat, index: nat)
    requires Progress(input, written, start, index)
    ensures |written| <= |EncodeSpec(input)|
    ensures index == |input| ==> EncodeSpec(input) == written + Literal(input, start, index)
  {
  }

  method EmitLiteralReference(input: seq<byte>, start: nat, index: nat, m: Match, output: array<byte>, total: nat,
      capacity: nat, limit: nat)
    returns (ok: bool, next: nat)
    requires start <= index <= |input| && index - start <= LITERAL_MAX
    requires REF_LEN_MIN <= m.len <= REF_LEN_MAX && 1 <= m.offset <= WINDOW
    requires total <= capacity <= output.Length
    modifies output
    ensures ok <==> Fits(total + |LiteralReference(input, start, index, m)|, capacity, limit)
    ensures ok ==> next == total + |LiteralReference(input, start, index, m)| <= capacity
    ensures ok ==> output[..next] == old(output[..total]) + LiteralReference(input, start, index, m)
  {
    ok, next := true, total;
    if index > start {
      ok, next := Emit(output, total, Literal(input, start, index), capacity, limit);
      if !ok {
        return;
      }
    }
    ok, next := Emit(output, next, Reference(m), capacity, limit);
  }

  /** Flush the pending run and write the reference found at `index`. */
  method EncodeMatch(input: seq<byte>, output: array<byte>, start: nat, index: nat, m: Match, total: nat,
      capacity: nat, limit: nat)
    returns (ok: bool, total': nat)
    requires total <= capacity <= output.Length && index < |input|
    requires Progress(input, output[..total], start, index) && m == Best(input, index) && m.len >= REF_LEN_MIN
    modifies output
    ensures ok ==> total' <= capacity && total' < limit
    ensures ok ==> Progress(input, output[..total'], index + m.len, index + m.len)
    ensures !ok ==> !Fits(|EncodeSpec(input)|, capacity, limit)
  {
    ghost var written := output[..total];
    ProgressReference(input, written, start, index, m);
    ProgressBound(input, written + LiteralReference(input, start, index, m), index + m.len, index + m.len);
    ok, total' := EmitLiteralReference(input, start, index, m, output, total, capacity, limit);
  }

  lemma ProgressByte(input: seq<byte>, written: seq<byte>, start: nat, index: nat)
    requires Progress(input, written, start, index) && index < |input|
    requires Best(input, index).len < REF_LEN_MIN && index + 1 - start < LITERAL_MAX
    ensures Progress(input, written, start, index + 1)
  {
  }

  /** Take one byte into the pending run, flushing the run when it is full. */
  method EncodeByte(input: seq<byte>, output: array<byte>, start: nat, index: nat, total: nat, capacity: nat,
      limit: nat)
    returns (ok: bool, total': nat, start': nat)
    requires total <= capacity <= output.Length && total < limit && index < |input|
    requires Progress(input, output[..total], start, index) && Best(input, index).len < REF_LEN_MIN
    modifies output
    ensures ok ==> total' <= capacity && total' < limit && Progress(input, output[..total'], start', index + 1)
    ensures !ok ==> !Fits(|EncodeSpec(input)|, capacity, limit)
  {
    ok, total', start' := true, total, start;
    ghost var written := output[..total];
    if index + 1 - start == LITERAL_MAX {
      ProgressLiteral(input, written, start, index);
      ProgressBound(input, written + Literal(input, start, index + 1), index + 1, index + 1);
      ok, total' := Emit(output, total, Literal(input, start, index + 1), capacity, limit);
      start' := index + 1;
    } else {
      ProgressByte(input, written, start, index);
    }
  }

  /** The run still pending at the end. */
  method EncodeRest(input: seq<byte>, output: array<byte>, start: nat, total: nat, capacity: nat, limit: nat)
    returns (ok: bool, total': nat)
    requires total <= capacity <= output.Length && total < limit
    requires Progress(input, output[..total], start, |input|)
    modifies output
    ensures ok <==> Fits(|EncodeSpec(input)|, capacity, limit)
    ensures ok ==> total' == |EncodeSpec(input)| && output[..total'] == EncodeSpec(input)
  {
    ok, total' := true, total;
    ProgressBound(input, output[..total], start, |input|);
    if |input| > start {
      ok, total' := Emit(output, total, Literal(input, start, |input|), capacity, limit);
    }
  }

  /** One turn of the encoder: a reference, or one more literal byte. */
  method EncodeTurn(input: seq<byte>, output: array<byte>, start: nat, index: nat, total: nat, capacity: nat,
      limit: nat)
    returns (ok: bool, total': nat, start': nat, index': nat)
    requires total <= capacity <= output.Length && total < limit && index < |input|
    requires Progress(input, output[..total], start, index)
    modifies output
    ensures ok ==> total' <= capacity && total' < limit && Progress(input, output[..total'], start', index')
    ensures index < index'
    ensures !ok ==> !Fits(|EncodeSpec(input)|, capacity, limit)
  {
    var bestLen, bestOffset := FindMatch(input, index);
    if bestLen >= REF_LEN_MIN {
      ok, total' := EncodeMatch(input, output, start, index, Match(bestLen, bestOffset), total, capacity, limit);
      index' := index + bestLen;
      start' := index';
    } else {
      ok, total', start' := EncodeByte(input, output, start, index, total, capacity, limit);
      index' := index + 1;
    }
  }

  method Encode(input: seq<byte>, output: array<byte>, capacity: nat, limit: nat) returns (ok: bool, outLen: nat)
    requires |input| < U16 && capacity < U16 && limit < U16 && capacity <= output.Length
    modifies output
    ensures ok <==> input != [] && Fits(|EncodeSpec(input)|, capacity, limit)
    ensures ok ==> outLen == |EncodeSpec(input)| && output[..outLen] == EncodeSpec(input)
    ensures !ok ==> outLen == 0
  {
    NonEmpty(input, 0, 0);
    if |input| == 0 || limit == 0 || capacity == 0 {
      return false, 0;
    }
    var total: nat, index: nat, start: nat, fine := 0, 0, 0, true;
    while index < |input|
      invariant total <= capacity && total < limit
      invariant Progress(input, output[..total], start, index)
      decreases |input| - index
    {
      fine, total, start, index := EncodeTurn(input, output, start, index, total, capacity, limit);
      if !fine {
        return false, 0;
      }
    }
    fine, total := EncodeRest(input, output, start, total, capacity, limit);
    if !fine {
      return false, 0;
    }
    if total == 0 || total >= limit {
      assert false;
    }
    return true, total;
  }

  // ----- The decoder -----

  function DecodeSpec(stream: seq<byte>): Option<seq<byte>> {
    DecodeFrom(stream, [])
  }

  lemma {:induction false} CopyBackStep(out: seq<byte>, offset: nat, n: nat)
    requires 1 <= offset <= |out|
    ensures var r := CopyBack(out, offset, n); CopyBack(out, offset, n + 1) == r + [r[|r| - offset]]
    decreases n
  {
    if n > 0 {
      CopyBackStep(out + [out[|out| - offset]], offset, n - 1);
    }
  }

  method CopyReference(output: array<byte>, outLen: nat, offset: nat, len: nat)
    requires 1 <= offset <= outLen && outLen + len <= output.Length
    modifies output
    ensures output[..outLen + len] == CopyBack(old(output[..outLen]), offset, len)
  {
    ghost var out := output[..outLen];
    for i := 0 to len
      invariant output[..outLen + i] == CopyBack(out, offset, i)
    {
      CopyBackStep(out, offset, i);
      output[outLen + i] := output[outLen + i - offset];
      assert output[..outLen + (i + 1)] == CopyBack(out, offset, i) + [output[outLen + i]];
    }
  }

  /** The decoder can no longer succeed within the capacity and below the limit. */
  ghost predicate Hopeless(stream: seq<byte>, out: seq<byte>, capacity: nat, limit: nat) {
    var r := DecodeOnto(stream, out); r.None? || !Fits(|r.value|, capacity, limit)
  }

  lemma NoRoom(stream: seq<byte>, out: seq<byte>, capacity: nat, limit: nat)
    requires !Fits(|out|, capacity, limit)
    ensures Hopeless(stream, out, capacity, limit)
  {
    DecodeOntoIs(stream, out);
  }

  lemma LiteralToken(input: seq<byte>, index: nat, out: seq<byte>, len: nat)
    requires index < |input| && input[index] <= 0x7F && len == input[index] as int + 1 && index + 1 + len <= |input|
    ensures DecodeOnto(input[index..], out)
         == DecodeOnto(input[index + 1 + len..], out + input[index + 1..index + 1 + len])
  {
    var stream := input[index..];
    DecodeOntoIs(stream, out);
    DecodeOntoIs(input[index + 1 + len..], out + input[index + 1..index + 1 + len]);
    assert stream[1..1 + len] == input[index + 1..index + 1 + len];
    assert stream[1 + len..] == input[index + 1 + len..];
  }

  /** A token that the stream ends within. */
  lemma TruncatedToken(input: seq<byte>, index: nat, out: seq<byte>)
    requires index < |input|
    requires if input[index] <= 0x7F then index + 1 + input[index] as int + 1 > |input| else index + 1 == |input|
    ensures DecodeOnto(input[index..], out) == None
  {
    DecodeOntoIs(input[index..], out);
  }

  method DecodeLiteralToken(input: seq<byte>, index: nat, output: array<byte>, total: nat, capacity: nat, limit: nat)
    returns (ok: bool, index': nat, total': nat)
    requires index < |input| && input[index] <= 0x7F
    requires total <= capacity <= output.Length
    modifies output
    ensures ok ==> index < index' <= |input| && total < total' <= capacity && total' < limit
    ensures ok ==> DecodeOnto(input[index..], old(output[..total])) == DecodeOnto(input[index'..], output[..total'])
    ensures !ok ==> Hopeless(input[index..], old(output[..total]), capacity, limit)
  {
    ghost var out := output[..total];
    var len: nat := input[index] as int + 1;
    index', total' := index + 1, total;
    if len > |input| - index' {
      TruncatedToken(input, index, out);
      return false, index', total';
    }
    LiteralToken(input, index, out, len);
    ok, total' := Emit(output, total, input[index'..index' + len], capacity, limit);
    if !ok {
      NoRoom(input[index' + len..], out + input[index'..index' + len], capacity, limit);
    }
    index' := index' + len;
  }

  /** What a reference token at `index` means. */
  lemma ReferenceToken(input: seq<byte>, index: nat, out: seq<byte>, len: nat, offset: nat)
    requires index + 1 < |input| && input[index] > 0x7F
    requires len == input[index] as int - 0x80 + REF_LEN_MIN && offset == input[index + 1] as int + 1
    ensures DecodeOnto(input[index..], out)
         == if offset > |out| then None else DecodeOnto(input[index + 2..], CopyBack(out, offset, len))
  {
    var stream := input[index..];
    DecodeOntoIs(stream, out);
    if offset <= |out| {
      DecodeOntoIs(input[index + 2..], CopyBack(out, offset, len));
    }
    assert stream[0] == input[index] && stream[1] == input[index + 1] && stream[2..] == input[index + 2..];
  }

  method DecodeReferenceToken(input: seq<byte>, index: nat, output: array<byte>, total: nat, capacity: nat, limit: nat)
    returns (ok: bool, index': nat, total': nat)
    requires index < |input| && input[index] > 0x7F
    requires total <= capacity <= output.Length
    modifies output
    ensures ok ==> index < index' <= |input| && total < total' <= capacity && total' < limit
    ensures ok ==> DecodeOnto(input[index..], old(output[..total])) == DecodeOnto(input[index'..], output[..total'])
    ensures !ok ==> Hopeless(input[index..], old(output[..total]), capacity, limit)
  {
    ghost var out := output[..total];
    var len: nat := input[index] as int - 0x80 + REF_LEN_MIN;
    index', total' := index + 1, total;
    if index' >= |input| {
      TruncatedToken(input, index, out);
      return false, index', total';
    }
    var offset: nat := input[index'] as int + 1;
    index' := index' + 1;
    ReferenceToken(input, index, out, len, offset);
    if offset > total {
      return false, index', total';
    }
    if total + len > capacity || total + len >= limit {
      NoRoom(input[index'..], CopyBack(out, offset, len), capacity, limit);
      return false, index', total';
    }
    CopyReference(output, total, offset, len);
    ok, total' := true, total + len;
  }

  method Decode(input: seq<byte>, output: array<byte>, capacity: nat, limit: nat) returns (ok: bool, outLen: nat)
    requires |input| < U16 && capacity < U16 && limit < U16 && capacity <= output.Length
    modifies output
    ensures ok <==> input != [] && DecodeSpec(input).Some? && Fits(|DecodeSpec(input).value|, capacity, limit)
    ensures ok ==> outLen == |DecodeSpec(input).value| && output[..outLen] == DecodeSpec(input).value
    ensures !ok ==> outLen == 0
  {
    if |input| == 0 || limit == 0 || capacity == 0 {
      return false, 0;
    }
    var total: nat, index: nat, fine := 0, 0, true;
    assert input[0..] == input;
    DecodeOntoIs(input, []);
    while index < |input|
      invariant index <= |input| && total <= capacity && total < limit
      invariant index > 0 ==> total > 0
      invariant DecodeSpec(input) == DecodeOnto(input[index..], output[..total])
      decreases |input| - index
    {
      if input[index] <= 0x7F {
        fine, index, total := DecodeLiteralToken(input, index, output, total, capacity, limit);
      } else {
        fine, index, total := DecodeReferenceToken(input, index, output, total, capacity, limit);
      }
      if !fine {
        return false, 0;
      }
    }
    DecodeOntoIs(input[index..], output[..total]);
    if total == 0 || total >= limit {
      assert false;
    }
    return true, total;
  }

  /** What one side encodes, the other side decodes, given room for the original. */
  method EncodeThenDecode(input: seq<byte>, wire: array<byte>, limit: nat, back: array<byte>, backLimit: nat)
    returns (sent: bool, received: bool, len: nat)
    requires |input| < U16 && limit < U16 && backLimit < U16 && wire != back
    requires wire.Length < U16 && back.Length < U16
    modifies wire, back
    ensures sent <==> input != [] && Fits(|EncodeSpec(input)|, wire.Length, limit)
    ensures sent && Fits(|input|, back.Length, backLimit) ==> received && len == |input| && back[..len] == input
  {
    var wireLen: nat;
    sent, wireLen := Encode(input, wire, wire.Length, limit);
    received, len := false, 0;
    if sent {
      received, len := Decode(wire[..wireLen], back, back.Length, backLimit);
      RoundTrip(input);
    }
  }
}
