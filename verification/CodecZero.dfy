/**
  Nibble zero-count coding (code/lib/codec_zero.c): nibble n becomes
  1^(n/4) 0^(n%4+1) 1, packed most significant bit first and padded with ones.
*/
module CodecZero {
  import opened Machine
  import opened CodecCommon

  // ----- The code -----

  function Repeated(b: bool, n: nat): (s: seq<bool>)
    ensures |s| == n
  {
    seq(n, i => b)
  }

  function NibbleCode(n: nat): (s: seq<bool>)
    requires n < 16
    ensures |s| == n / 4 + n % 4 + 2 <= 8
  {
    Repeated(true, n / 4) + Repeated(false, n % 4 + 1) + [true]
  }

  /** The sixteen codes as they are documented. */
  const TABLE: seq<string> :=
    ["01", "001", "0001", "00001", "101", "1001", "10001", "100001",
     "1101", "11001", "110001", "1100001", "11101", "111001", "1110001", "11100001"]

  /** The code of `n` is spelled in ones and zeros. */
  ghost predicate IsSpelled(n: nat, spelling: string)
    requires n < 16
  {
    |NibbleCode(n)| == |spelling| && forall i :: 0 <= i < |spelling| ==> NibbleCode(n)[i] == (spelling[i] == '1')
  }

  lemma CodeTableRow(k: nat, m: nat, spelling: string)
    requires k < 4 && m < 4 && |spelling| == k + m + 2
    requires forall i :: 0 <= i < |spelling| ==> (spelling[i] == '1') == (i < k || i == k + m + 1)
    ensures IsSpelled(4 * k + m, spelling)
  {
  }

  lemma CodeTable(n: nat)
    requires n < 16
    ensures IsSpelled(n, TABLE[n])
  {
    CodeTableRow(n / 4, n % 4, TABLE[n]);
  }

  function ByteCode(b: byte): (s: seq<bool>)
    ensures 4 <= |s| <= 16
  {
    NibbleCode(b / 16) + NibbleCode(b % 16)
  }

  function Code(input: seq<byte>): seq<bool> {
    if input == [] then [] else ByteCode(input[0]) + Code(input[1..])
  }

  lemma {:induction false} CodeConcat(a: seq<byte>, b: seq<byte>)
    ensures Code(a + b) == Code(a) + Code(b)
    decreases |a|
  {
    if a == [] {
      assert a + b == b;
    } else {
      assert (a + b)[1..] == a[1..] + b;
      CodeConcat(a[1..], b);
      assert ByteCode(a[0]) + (Code(a[1..]) + Code(b)) == ByteCode(a[0]) + Code(a[1..]) + Code(b);
    }
  }

  lemma CodeOfOne(b: byte)
    ensures Code([b]) == ByteCode(b)
  {
    assert [b][1..] == [];
  }

  lemma CodeOfSnoc(a: seq<byte>, b: byte)
    ensures Code(a + [b]) == Code(a) + ByteCode(b)
  {
    CodeConcat(a, [b]);
    CodeOfOne(b);
  }

  lemma CodeOfPrefix(input: seq<byte>, i: nat)
    requires i <= |input|
    ensures Code(input[..i]) <= Code(input)
  {
    assert input == input[..i] + input[i..];
    CodeConcat(input[..i], input[i..]);
  }

  /** Where the code of input[i] sits within the whole code. */
  lemma CodeAt(input: seq<byte>, i: nat)
    requires i < |input|
    ensures Code(input[..i + 1]) == Code(input[..i]) + ByteCode(input[i])
  {
    assert input[..i + 1] == input[..i] + [input[i]];
    CodeOfSnoc(input[..i], input[i]);
  }

  // ----- Decoding a bit stream -----

  /** Length of the run of `b` that starts at bit `i`. */
  function RunLength(bits: seq<bool>, i: nat, b: bool): (n: nat)
    requires i <= |bits|
    ensures i + n <= |bits|
    decreases |bits| - i
  {
    if i == |bits| || bits[i] != b then 0 else 1 + RunLength(bits, i + 1, b)
  }

  /** The source counts runs in 8-bit variables, modulo 256. */
  function Wrap(n: nat): (r: nat)
    ensures r < 256
    decreases n
  {
    if n < 256 then n else Wrap(n - 256)
  }

  lemma {:induction false} WrapCounts(n: nat)
    ensures Wrap(n + 1) == (Wrap(n) + 1) % 256
    decreases n
  {
    if n >= 256 {
      WrapCounts(n - 256);
    }
  }

  datatype Parsed = Padding | Corrupt | Nibble(value: nat, next: nat)

  /** Read one nibble at bit `i`; trailing ones are padding. */
  function ParseNibble(bits: seq<bool>, i: nat): (p: Parsed)
    requires i <= |bits|
    ensures p.Nibble? ==> p.value < 16 && i < p.next <= |bits|
  {
    var ones := RunLength(bits, i, true);
    if i + ones == |bits| then Padding
    else if Wrap(ones) > 3 then Corrupt
    else
      var zeros := RunLength(bits, i + ones, false);
      if i + ones + zeros == |bits| || Wrap(zeros) == 0 || Wrap(zeros) > 4 then Corrupt
      else Nibble(4 * Wrap(ones) + (Wrap(zeros) - 1), i + ones + zeros + 1)
  }

  /** The nibble grammar as documented, with runs of any length counted exactly. */
  function ParseStrict(bits: seq<bool>, i: nat): (p: Parsed)
    requires i <= |bits|
    ensures p.Nibble? ==> p.value < 16 && i < p.next <= |bits|
  {
    var ones := RunLength(bits, i, true);
    if i + ones == |bits| then Padding
    else if ones > 3 then Corrupt
    else
      var zeros := RunLength(bits, i + ones, false);
      if i + ones + zeros == |bits| || zeros > 4 then Corrupt
      else Nibble(4 * ones + (zeros - 1), i + ones + zeros + 1)
  }

  /** A run of 256 or more equal bits that wraps to an acceptable count, in a nibble
      whose other run is acceptable too. */
  predicate WrapsToNibble(bits: seq<bool>, i: nat)
    requires i <= |bits|
  {
    var ones := RunLength(bits, i, true);
    var zeros := RunLength(bits, i + ones, false);
    && i + ones < |bits| && i + ones + zeros < |bits|
    && Wrap(ones) <= 3 && 1 <= Wrap(zeros) <= 4 && (ones >= 256 || zeros >= 256)
  }

  /** The decoder follows the documented grammar exactly unless an 8-bit counter wraps. */
  lemma StrictUnlessWrapped(bits: seq<bool>, i: nat)
    requires i <= |bits|
    ensures ParseNibble(bits, i) == ParseStrict(bits, i) <==> !WrapsToNibble(bits, i)
  {
    var ones := RunLength(bits, i, true);
    if i + ones < |bits| {
      RunStops(bits, i, true);
      RunStep(bits, i + ones, false, 0);
    }
  }

  lemma {:induction false} RunStops(bits: seq<bool>, i: nat, b: bool)
    requires i <= |bits| && i + RunLength(bits, i, b) < |bits|
    ensures bits[i + RunLength(bits, i, b)] != b
    decreases |bits| - i
  {
    if bits[i] == b {
      RunStops(bits, i + 1, b);
    }
  }

  /** Decode from bit `i` on; nibbles pair up high first, an odd count is an error. */
  function DecodeBits(bits: seq<bool>, i: nat, pending: Option<nat>, out: seq<byte>): (r: Option<seq<byte>>)
    requires i <= |bits| && (pending.Some? ==> pending.value < 16)
    ensures r.Some? ==> |out| <= |r.value|
    decreases |bits| - i
  {
    match ParseNibble(bits, i)
    case Padding => if pending.None? then Some(out) else None
    case Corrupt => None
    case Nibble(v, next) =>
      if pending.None? then DecodeBits(bits, next, Some(v), out)
      else DecodeBits(bits, next, None, out + [16 * pending.value + v])
  }

  // ----- The documented grammar on whole streams -----

  /** Decoding by the documented grammar. */
  function StrictDecode(bits: seq<bool>, i: nat, pending: Option<nat>, out: seq<byte>): Option<seq<byte>>
    requires i <= |bits| && (pending.Some? ==> pending.value < 16)
    decreases |bits| - i
  {
    match ParseStrict(bits, i)
    case Padding => if pending.None? then Some(out) else None
    case Corrupt => None
    case Nibble(v, next) =>
      if pending.None? then StrictDecode(bits, next, Some(v), out)
      else StrictDecode(bits, next, None, out + [16 * pending.value + v])
  }

  /** The decoder, started at bit `i`, comes to a nibble in which a counter wraps. */
  predicate MeetsWrap(bits: seq<bool>, i: nat)
    requires i <= |bits|
    decreases |bits| - i
  {
    WrapsToNibble(bits, i) || (var p := ParseNibble(bits, i); p.Nibble? && MeetsWrap(bits, p.next))
  }

  /** The decoder gives what the grammar gives unless it meets such a nibble; then the
      grammar rejects the stream. */
  lemma {:induction false} StrictDecodeIs(bits: seq<bool>, i: nat, pending: Option<nat>, out: seq<byte>)
    requires i <= |bits| && (pending.Some? ==> pending.value < 16)
    ensures StrictDecode(bits, i, pending, out)
         == if MeetsWrap(bits, i) then None else DecodeBits(bits, i, pending, out)
    decreases |bits| - i
  {
    StrictUnlessWrapped(bits, i);
    if WrapsToNibble(bits, i) {
      assert ParseStrict(bits, i).Corrupt?;
    } else if ParseNibble(bits, i).Nibble? {
      var p := ParseNibble(bits, i);
      if pending.None? {
        StrictDecodeIs(bits, p.next, Some(p.value), out);
      } else {
        StrictDecodeIs(bits, p.next, None, out + [16 * pending.value + p.value]);
      }
    }
  }

  /** So the decoder accepts a stream that the grammar rejects exactly if it meets one on
      a stream it accepts, and it never gives a different result otherwise. */
  lemma AcceptsBeyondGrammar(bits: seq<bool>)
    ensures var r, strict := DecodeBits(bits, 0, None, []), StrictDecode(bits, 0, None, []);
            && (r != strict <==> r.Some? && MeetsWrap(bits, 0))
            && (strict.Some? ==> r == strict)
  {
    StrictDecodeIs(bits, 0, None, []);
  }

  // ----- Unique decodability -----

  /** A maximal stretch of equal bits is a run. */
  lemma {:induction false} RunIs(bits: seq<bool>, i: nat, b: bool, n: nat)
    requires i + n <= |bits| && forall k :: i <= k < i + n ==> bits[k] == b
    requires i + n < |bits| ==> bits[i + n] != b
    ensures RunLength(bits, i, b) == n
    decreases n
  {
    if n > 0 {
      RunIs(bits, i + 1, b, n - 1);
    }
  }

  lemma ParseCode(bits: seq<bool>, i: nat, n: nat)
    requires n < 16 && i + |NibbleCode(n)| <= |bits|
    requires bits[i..i + |NibbleCode(n)|] == NibbleCode(n)
    ensures ParseNibble(bits, i) == Nibble(n, i + |NibbleCode(n)|)
  {
    var code := NibbleCode(n);
    var k, z := n / 4, n % 4 + 1;
    assert forall j :: 0 <= j < |code| ==> code[j] == bits[i..i + |code|][j] == bits[i + j];
    forall j | i <= j < i + k + z + 1
      ensures bits[j] == (j < i + k || j == i + k + z)
    {
      assert bits[j] == code[j - i];
    }
    RunIs(bits, i, true, k);
    RunIs(bits, i + k, false, z);
  }

  /** `DecodeBits` folded behind three empty recursive steps, so that proofs about whole
      codes see it as an atom. */
  function FoldedDecode(bits: seq<bool>, i: nat, pending: Option<nat>, out: seq<byte>, folds: nat): Option<seq<byte>>
    requires i <= |bits| && (pending.Some? ==> pending.value < 16)
    decreases folds, i
  {
    if folds == 0 then DecodeBits(bits, i, pending, out) else FoldedDecode(bits, i, pending, out, folds - 1)
  }

  function DecodeAt(bits: seq<bool>, i: nat, pending: Option<nat>, out: seq<byte>): Option<seq<byte>>
    requires i <= |bits| && (pending.Some? ==> pending.value < 16)
  {
    FoldedDecode(bits, i, pending, out, 3)
  }

  lemma DecodeAtIs(bits: seq<bool>, i: nat, pending: Option<nat>, out: seq<byte>)
    requires i <= |bits| && (pending.Some? ==> pending.value < 16)
    ensures DecodeAt(bits, i, pending, out) == DecodeBits(bits, i, pending, out)
  {
    assert FoldedDecode(bits, i, pending, out, 1) == FoldedDecode(bits, i, pending, out, 0);
    assert FoldedDecode(bits, i, pending, out, 2) == FoldedDecode(bits, i, pending, out, 1);
  }

  lemma DecodeCode(bits: seq<bool>, i: nat, n: nat, pending: Option<nat>, out: seq<byte>)
    requires n < 16 && i + |NibbleCode(n)| <= |bits| && (pending.Some? ==> pending.value < 16)
    requires bits[i..i + |NibbleCode(n)|] == NibbleCode(n)
    ensures var next := i + |NibbleCode(n)|;
      DecodeAt(bits, i, pending, out)
      == if pending.None? then DecodeAt(bits, next, Some(n), out)
         else DecodeAt(bits, next, None, out + [16 * pending.value + n])
  {
    ParseCode(bits, i, n);
    var next := i + |NibbleCode(n)|;
    DecodeAtIs(bits, i, pending, out);
    if pending.None? {
      DecodeAtIs(bits, next, Some(n), out);
    } else {
      DecodeAtIs(bits, next, None, out + [16 * pending.value + n]);
    }
  }

  /** Two adjacent slices of a concatenation. */
  lemma SplitSlice(bits: seq<bool>, i: nat, a: seq<bool>, b: seq<bool>)
    requires i + |a| + |b| <= |bits| && bits[i..i + |a| + |b|] == a + b
    ensures bits[i..i + |a|] == a && bits[i + |a|..i + |a| + |b|] == b
  {
    var s := bits[i..i + |a| + |b|];
    assert bits[i..i + |a|] == s[..|a|];
    assert bits[i + |a|..i + |a| + |b|] == s[|a|..];
  }

  lemma DecodePair(bits: seq<bool>, i: nat, high: nat, low: nat, out: seq<byte>)
    requires high < 16 && low < 16
    requires var m := i + |NibbleCode(high)|;
      && m + |NibbleCode(low)| <= |bits|
      && bits[i..m] == NibbleCode(high) && bits[m..m + |NibbleCode(low)|] == NibbleCode(low)
    ensures DecodeAt(bits, i, None, out)
         == DecodeAt(bits, i + |NibbleCode(high)| + |NibbleCode(low)|, None, out + [16 * high + low])
  {
    DecodeCode(bits, i, high, None, out);
    DecodeCode(bits, i + |NibbleCode(high)|, low, Some(high), out);
  }

  lemma DecodeByte(bits: seq<bool>, i: nat, b: byte, out: seq<byte>)
    requires i + |ByteCode(b)| <= |bits| && bits[i..i + |ByteCode(b)|] == ByteCode(b)
    ensures DecodeAt(bits, i, None, out) == DecodeAt(bits, i + |ByteCode(b)|, None, out + [b])
  {
    var high, low := b / 16, b % 16;
    assert 16 * high + low == b;
    SplitSlice(bits, i, NibbleCode(high), NibbleCode(low));
    DecodePair(bits, i, high, low, out);
  }

  lemma DecodePadding(bits: seq<bool>, i: nat, out: seq<byte>)
    requires i <= |bits| && forall k :: i <= k < |bits| ==> bits[k]
    ensures DecodeAt(bits, i, None, out) == Some(out)
  {
    DecodeAtIs(bits, i, None, out);
    RunIs(bits, i, true, |bits| - i);
  }

  /** `bits` is the code of `input` followed by ones only. */
  ghost predicate IsCodeWithPadding(bits: seq<bool>, input: seq<byte>) {
    Code(input) <= bits && forall k :: |Code(input)| <= k < |bits| ==> bits[k]
  }

  lemma SliceOfPrefix(bits: seq<bool>, a: seq<bool>, b: seq<bool>)
    requires a + b <= bits
    ensures |a| + |b| <= |bits| && bits[|a|..|a| + |b|] == b
  {
    assert bits[|a|..|a| + |b|] == (a + b)[|a|..];
  }

  /** From the code of byte `i` on, decoding completes the input. */
  ghost predicate Restores(bits: seq<bool>, input: seq<byte>, i: nat)
    requires i <= |input|
  {
    |Code(input[..i])| <= |bits| && DecodeAt(bits, |Code(input[..i])|, None, input[..i]) == Some(input)
  }

  lemma NextByteCode(bits: seq<bool>, input: seq<byte>, i: nat)
    requires IsCodeWithPadding(bits, input) && i < |input|
    ensures var at, code := |Code(input[..i])|, ByteCode(input[i]);
      at + |code| == |Code(input[..i + 1])| <= |bits| && bits[at..at + |code|] == code
  {
    CodeAt(input, i);
    CodeOfPrefix(input, i + 1);
    SliceOfPrefix(bits, Code(input[..i]), ByteCode(input[i]));
  }

  lemma RestoresByte(bits: seq<bool>, input: seq<byte>, i: nat)
    requires IsCodeWithPadding(bits, input) && i < |input| && Restores(bits, input, i + 1)
    ensures Restores(bits, input, i)
  {
    var at := |Code(input[..i])|;
    NextByteCode(bits, input, i);
    DecodeByte(bits, at, input[i], input[..i]);
    assert input[..i] + [input[i]] == input[..i + 1];
  }

  lemma {:induction false} RoundTripFrom(bits: seq<bool>, input: seq<byte>, i: nat)
    requires IsCodeWithPadding(bits, input) && i <= |input|
    ensures Restores(bits, input, i)
    decreases |input| - i
  {
    if i == |input| {
      assert input[..i] == input;
      DecodePadding(bits, |Code(input)|, input);
    } else {
      RoundTripFrom(bits, input, i + 1);
      RestoresByte(bits, input, i);
    }
  }

  /** Decoding the padded code gives back the input, however many ones follow. */
  lemma RoundTrip(bits: seq<bool>, input: seq<byte>)
    requires IsCodeWithPadding(bits, input)
    ensures DecodeBits(bits, 0, None, []) == Some(input)
  {
    RoundTripFrom(bits, input, 0);
    assert input[..0] == [];
    DecodeAtIs(bits, 0, None, []);
  }

  /** Distinct inputs never share a padded code. */
  lemma UniquelyDecodable(bits: seq<bool>, a: seq<byte>, b: seq<byte>)
    requires IsCodeWithPadding(bits, a) && IsCodeWithPadding(bits, b)
    ensures a == b
  {
    RoundTrip(bits, a);
    RoundTrip(bits, b);
  }

  // ----- Packed bits -----

  function StreamBit(stream: seq<bv8>, i: nat): bool
    requires i < 8 * |stream|
  {
    (stream[i / 8] >> (7 - i % 8)) & 1 == 1
  }

  function Bits(stream: seq<bv8>): (bits: seq<bool>)
    ensures |bits| == 8 * |stream|
  {
    seq(8 * |stream|, i requires 0 <= i < 8 * |stream| => StreamBit(stream, i))
  }

  function SetBit(b: bv8, k: nat): bv8
    requires k < 8
  {
    b | (1 << (7 - k))
  }

  lemma SetBitEffect(b: bv8, k: nat, j: nat)
    requires k < 8 && j < 8
    ensures ((SetBit(b, k) >> (7 - j)) & 1 == 1) <==> ((b >> (7 - j)) & 1 == 1) || j == k
  {
  }

  lemma ZeroBits(j: nat)
    requires j < 8
    ensures ((0 as bv8) >> (7 - j)) & 1 != 1
  {
  }

  /** 256 ones, then zero one zero one and padding ones. */
  const LONG_RUN: seq<bv8> := seq(33, i => if i < 32 then 0xFF else 0x5F)

  lemma LongRunBits(i: nat)
    requires i < 264
    ensures Bits(LONG_RUN)[i] <==> i != 256 && i != 258
  {
    assert LONG_RUN[i / 8] == if i < 256 then 0xFF else 0x5F;
    BitIs(LONG_RUN, i);
    LastBits(i % 8);
  }

  lemma LastBits(j: nat)
    requires j < 8
    ensures ((0xFF as bv8) >> (7 - j)) & 1 == 1
    ensures (((0x5F as bv8) >> (7 - j)) & 1 == 1) <==> j != 0 && j != 2
  {
  }

  lemma LongRunParses()
    ensures var bits := Bits(LONG_RUN);
      && ParseNibble(bits, 0) == Nibble(0, 258) && ParseStrict(bits, 0) == Corrupt
      && ParseNibble(bits, 258) == Nibble(0, 260) && ParseNibble(bits, 260) == Padding
  {
    var bits := Bits(LONG_RUN);
    forall i | 0 <= i < 264
      ensures bits[i] <==> i != 256 && i != 258
    {
      LongRunBits(i);
    }
    RunIs(bits, 0, true, 256);
    RunIs(bits, 256, false, 1);
    RunIs(bits, 258, true, 0);
    RunIs(bits, 258, false, 1);
    RunIs(bits, 260, true, 4);
  }

  lemma DecodeTwo(bits: seq<bool>, i: nat, high: Parsed, low: Parsed, out: seq<byte>)
    requires i <= |bits| && high == ParseNibble(bits, i) && high.Nibble?
    requires low == ParseNibble(bits, high.next) && low.Nibble?
    ensures DecodeBits(bits, i, None, out) == DecodeBits(bits, low.next, None, out + [16 * high.value + low.value])
  {
    assert DecodeBits(bits, i, None, out) == DecodeBits(bits, high.next, Some(high.value), out);
  }

  /** And it does: these 33 bytes decode to one zero byte, though the grammar rejects them. */
  lemma LongRunIsAccepted()
    ensures DecodeBits(Bits(LONG_RUN), 0, None, []) == Some([0])
    ensures StrictDecode(Bits(LONG_RUN), 0, None, []) == None
  {
    LongRunParses();
    var bits := Bits(LONG_RUN);
    var high: Parsed, low: Parsed := Nibble(0, 258), Nibble(0, 260);
    var out: seq<byte> := [] + [16 * high.value + low.value];
    DecodeTwo(bits, 0, high, low, []);
    assert out == [0];
    assert DecodeBits(bits, 260, None, out) == Some(out);
  }

  /** Bytes needed for `n` bits. */
  function PackedLen(n: nat): nat {
    (n + 7) / 8
  }

  /** The packed stream: the code followed by ones up to the byte boundary. */
  function Padded(bits: seq<bool>): (s: seq<bool>)
    ensures |s| == 8 * PackedLen(|bits|)
  {
    bits + Repeated(true, 8 * PackedLen(|bits|) - |bits|)
  }

  // ----- The encoder -----

  /** Within the first `bytes` bytes the stream holds `bits` followed by zeros. */
  ghost predicate Holds(stream: seq<bv8>, bits: seq<bool>, bytes: nat) {
    bytes <= |stream| && forall i :: 0 <= i < 8 * bytes ==> StreamBit(stream, i) == (i < |bits| && bits[i])
  }

  lemma HoldsZeros(stream: seq<bv8>, bits: seq<bool>, bytes: nat, n: nat)
    requires Holds(stream, bits, bytes)
    ensures Holds(stream, bits + Repeated(false, n), bytes)
  {
  }

  lemma SetStreamBit(stream: seq<bv8>, at: nat, i: nat)
    requires at < 8 * |stream| && i < 8 * |stream|
    ensures StreamBit(stream[at / 8 := SetBit(stream[at / 8], at % 8)], i) <==> StreamBit(stream, i) || i == at
  {
    if i / 8 == at / 8 {
      SetBitEffect(stream[at / 8], at % 8, i % 8);
    }
  }

  /** From `was` the encoder has written `bits`: they stand in the cleared first `bytes`
      bytes, the last of them is set wherever it lies, and nothing behind it changed. */
  ghost predicate Written(was: seq<bv8>, stream: seq<bv8>, bits: seq<bool>, bytes: nat) {
    && |stream| == |was| && Holds(stream, bits, bytes)
    && (bits != [] && bits[|bits| - 1] ==> |bits| <= 8 * |stream| && StreamBit(stream, |bits| - 1))
    && forall k :: PackedLen(|bits|) <= k < |stream| ==> stream[k] == was[k]
  }

  /** `Written` folded behind three empty recursive steps. */
  ghost predicate FoldedWritten(was: seq<bv8>, stream: seq<bv8>, bits: seq<bool>, bytes: nat, folds: nat)
    decreases folds, |bits|
  {
    if folds == 0 then Written(was, stream, bits, bytes) else FoldedWritten(was, stream, bits, bytes, folds - 1)
  }

  ghost predicate Wrote(was: seq<bv8>, stream: seq<bv8>, bits: seq<bool>, bytes: nat) {
    FoldedWritten(was, stream, bits, bytes, 3)
  }

  lemma WroteIs(was: seq<bv8>, stream: seq<bv8>, bits: seq<bool>, bytes: nat)
    ensures Wrote(was, stream, bits, bytes) == Written(was, stream, bits, bytes)
  {
    assert FoldedWritten(was, stream, bits, bytes, 1) == Written(was, stream, bits, bytes);
    assert FoldedWritten(was, stream, bits, bytes, 2) == FoldedWritten(was, stream, bits, bytes, 1);
  }

  lemma WroteZeros(was: seq<bv8>, stream: seq<bv8>, bits: seq<bool>, bytes: nat, n: nat)
    requires Wrote(was, stream, bits, bytes) && n > 0
    ensures Wrote(was, stream, bits + Repeated(false, n), bytes)
  {
    WroteIs(was, stream, bits, bytes);
    WroteIs(was, stream, bits + Repeated(false, n), bytes);
    HoldsZeros(stream, bits, bytes, n);
  }

  lemma WroteOne(was: seq<bv8>, stream: seq<bv8>, bits: seq<bool>, bytes: nat)
    requires |bits| < 8 * |stream| && Wrote(was, stream, bits, bytes)
    ensures var at := |bits|;
      Wrote(was, stream[at / 8 := SetBit(stream[at / 8], at % 8)], bits + [true], bytes)
  {
    var at := |bits|;
    var next := stream[at / 8 := SetBit(stream[at / 8], at % 8)];
    WroteIs(was, stream, bits, bytes);
    WroteIs(was, next, bits + [true], bytes);
    SetStreamBit(stream, at, at);
    forall i | 0 <= i < 8 * bytes
      ensures StreamBit(next, i) == (i < at + 1 && (bits + [true])[i])
    {
      SetStreamBit(stream, at, i);
    }
  }

  lemma OneMore(bits: seq<bool>, i: nat)
    ensures bits + Repeated(true, i) + [true] == bits + Repeated(true, i + 1)
    ensures bits + Repeated(true, 0) == bits
  {
  }

  lemma NibbleCodeIs(bits: seq<bool>, n: nat)
    requires n < 16
    ensures bits + Repeated(true, n / 4) + Repeated(false, n % 4 + 1) + [true] == bits + NibbleCode(n)
  {
  }

  method PutOne(output: array<bv8>, at: nat, ghost was: seq<bv8>, ghost bits: seq<bool>, ghost bytes: nat)
    requires at == |bits| && at < 8 * output.Length && Wrote(was, output[..], bits, bytes)
    modifies output
    ensures Wrote(was, output[..], bits + [true], bytes)
  {
    WroteOne(was, output[..], bits, bytes);
    ghost var next := output[..][at / 8 := SetBit(output[at / 8], at % 8)];
    output[at / 8] := SetBit(output[at / 8], at % 8);
    assert output[..] == next;
  }

  method PutNibble(output: array<bv8>, at: nat, nibble: nat, ghost was: seq<bv8>, ghost bits: seq<bool>,
      ghost bytes: nat) returns (next: nat)
    requires nibble < 16 && at == |bits| && at + |NibbleCode(nibble)| <= 8 * output.Length
    requires Wrote(was, output[..], bits, bytes)
    modifies output
    ensures Wrote(was, output[..], bits + NibbleCode(nibble), bytes)
    ensures next == at + |NibbleCode(nibble)|
  {
    var segment, offset := nibble / 4, nibble % 4;
    next := at;
    OneMore(bits, 0);
    for i := 0 to segment
      invariant next == at + i
      invariant Wrote(was, output[..], bits + Repeated(true, i), bytes)
    {
      PutOne(output, next, was, bits + Repeated(true, i), bytes);
      OneMore(bits, i);
      next := next + 1;
    }
    next := next + (offset + 1);
    WroteZeros(was, output[..], bits + Repeated(true, segment), bytes, offset + 1);
    PutOne(output, next, was, bits + Repeated(true, segment) + Repeated(false, offset + 1), bytes);
    next := next + 1;
    NibbleCodeIs(bits, nibble);
  }

  // ----- How far the encoder writes -----

  /** Where encoding one byte from bit `at` leaves off: the first limit test may stop it. */
  function ByteReach(b: byte, at: nat, limit: nat): (r: nat)
    ensures at < r <= at + |ByteCode(b)|
  {
    var middle := at + |NibbleCode(b / 16)|;
    if PackedLen(middle) >= limit then middle else middle + |NibbleCode(b % 16)|
  }

  /** The bit behind the last one set when the rest of the input is encoded from bit `at`:
      where a limit test stops the loop, or the end of the padding. */
  function Reach(input: seq<byte>, at: nat, limit: nat): (r: nat)
    ensures r >= at
    decreases |input|
  {
    if input == [] then 8 * PackedLen(at)
    else
      var next := ByteReach(input[0], at, limit);
      if PackedLen(next) >= limit then next else Reach(input[1..], next, limit)
  }

  /** The encoder stays within `room` bytes. */
  predicate Stays(input: seq<byte>, limit: nat, room: nat) {
    limit <= room || PackedLen(|Code(input)|) <= room
  }

  lemma {:induction false} ReachFrom(input: seq<byte>, at: nat, limit: nat, room: nat)
    requires PackedLen(at) < limit
    ensures Reach(input, at, limit) <= 8 * room <==> limit <= room || at + |Code(input)| <= 8 * room
    decreases |input|
  {
    if input != [] {
      var next := ByteReach(input[0], at, limit);
      assert |Code(input)| == |ByteCode(input[0])| + |Code(input[1..])|;
      if PackedLen(next) < limit {
        ReachFrom(input[1..], next, limit, room);
      }
    }
  }

  /** The capacity is tested only at the end: a bit at or beyond it is set exactly if
      neither the limit nor the whole code keeps the encoder inside. */
  lemma OverrunIsExact(input: seq<byte>, limit: nat, capacity: nat)
    requires limit > 0
    ensures Reach(input, 0, limit) > 8 * capacity <==> !Stays(input, limit, capacity)
  {
    ReachFrom(input, 0, limit, capacity);
  }

  /** What the encoder has written when a limit test stops it. */
  ghost predicate Stopped(was: seq<bv8>, stream: seq<bv8>, reach: nat) {
    && |stream| == |was| && 0 < reach <= 8 * |stream| && StreamBit(stream, reach - 1)
    && forall k :: PackedLen(reach) <= k < |stream| ==> stream[k] == was[k]
  }

  /** A written code ends in a set bit. */
  lemma WroteStops(was: seq<bv8>, stream: seq<bv8>, bits: seq<bool>, bytes: nat, n: nat)
    requires n < 16 && Wrote(was, stream, bits + NibbleCode(n), bytes)
    ensures Stopped(was, stream, |bits| + |NibbleCode(n)|)
  {
    var all := bits + NibbleCode(n);
    WroteIs(was, stream, all, bytes);
    assert all[|all| - 1] == NibbleCode(n)[|NibbleCode(n)| - 1] == true;
  }

  lemma ByteCodeIs(bits: seq<bool>, b: byte)
    ensures bits + NibbleCode(b / 16) + NibbleCode(b % 16) == bits + ByteCode(b)
  {
  }

  /** Both nibbles of one byte, with the limit test after each. */
  method PutByte(output: array<bv8>, at: nat, b: byte, limit: nat, ghost was: seq<bv8>, ghost bits: seq<bool>,
      ghost bytes: nat) returns (ok: bool, next: nat)
    requires at == |bits| && PackedLen(at) < limit
    requires ByteReach(b, at, limit) <= 8 * output.Length && Wrote(was, output[..], bits, bytes)
    modifies output
    ensures next == ByteReach(b, at, limit) && (ok <==> PackedLen(next) < limit)
    ensures if ok then Wrote(was, output[..], bits + ByteCode(b), bytes) else Stopped(was, output[..], next)
  {
    ok := true;
    next := PutNibble(output, at, b / 16, was, bits, bytes);
    if (next + 7) / 8 >= limit {
      WroteStops(was, output[..], bits, bytes, b / 16);
      return false, next;
    }
    next := PutNibble(output, next, b % 16, was, bits + NibbleCode(b / 16), bytes);
    if (next + 7) / 8 >= limit {
      WroteStops(was, output[..], bits + NibbleCode(b / 16), bytes, b % 16);
      return false, next;
    }
    ByteCodeIs(bits, b);
  }

  function Zeroed(stream: seq<bv8>, bytes: nat): (r: seq<bv8>)
    requires bytes <= |stream|
    ensures |r| == |stream|
  {
    seq(|stream|, i requires 0 <= i < |stream| => if i < bytes then 0 else stream[i])
  }

  lemma ZeroedHolds(stream: seq<bv8>, bytes: nat)
    requires bytes <= |stream|
    ensures Wrote(Zeroed(stream, bytes), Zeroed(stream, bytes), [], bytes)
  {
    WroteIs(Zeroed(stream, bytes), Zeroed(stream, bytes), [], bytes);
    forall i | 0 <= i < 8 * bytes
      ensures !StreamBit(Zeroed(stream, bytes), i)
    {
      ZeroBits(i % 8);
    }
  }

  method Clear(output: array<bv8>, bytes: nat)
    requires bytes <= output.Length
    modifies output
    ensures output[..] == Zeroed(old(output[..]), bytes)
    ensures Wrote(output[..], output[..], [], bytes)
  {
    for i := 0 to bytes
      invariant forall j :: 0 <= j < i ==> output[j] == 0
      invariant forall j :: i <= j < output.Length ==> output[j] == old(output[j])
    {
      output[i] := 0;
    }
    ZeroedHolds(old(output[..]), bytes);
  }

  lemma PaddedEnds(bits: seq<bool>)
    requires bits != [] && bits[|bits| - 1]
    ensures Padded(bits) != [] && Padded(bits)[|Padded(bits)| - 1]
  {
  }

  /** Every code ends in a set bit. */
  lemma {:induction false} CodeEnds(input: seq<byte>)
    requires input != []
    ensures Code(input) != [] && Code(input)[|Code(input)| - 1]
    decreases |input|
  {
    if |input| == 1 {
      assert Code(input[1..]) == [];
    } else {
      CodeEnds(input[1..]);
    }
  }

  /** Pad a complete code to whole bytes. */
  method Finish(output: array<bv8>, bitCount: nat, ghost was: seq<bv8>, ghost bits: seq<bool>, ghost bytes: nat)
    returns (outLen: nat)
    requires bits != [] && bitCount == |bits| && PackedLen(bitCount) <= output.Length
    requires Wrote(was, output[..], bits, bytes) && bits[|bits| - 1]
    modifies output
    ensures outLen == PackedLen(bitCount) && Stopped(was, output[..], 8 * outLen)
    ensures outLen <= bytes ==> Bits(output[..outLen]) == Padded(bits)
  {
    var next := PadOnes(output, bitCount, was, bits, bytes);
    outLen := next / 8;
    WroteIs(was, output[..], Padded(bits), bytes);
    PaddedEnds(bits);
  }

  method PadOnes(output: array<bv8>, at: nat, ghost was: seq<bv8>, ghost bits: seq<bool>, ghost bytes: nat)
    returns (next: nat)
    requires at == |bits| && PackedLen(at) <= output.Length && Wrote(was, output[..], bits, bytes)
    modifies output
    ensures next == 8 * PackedLen(at)
    ensures Wrote(was, output[..], Padded(bits), bytes)
  {
    next := at;
    OneMore(bits, 0);
    while next % 8 != 0
      invariant at <= next <= 8 * PackedLen(at)
      invariant Wrote(was, output[..], bits + Repeated(true, next - at), bytes)
      decreases 8 * PackedLen(at) - next
    {
      PutOne(output, next, was, bits + Repeated(true, next - at), bytes);
      OneMore(bits, next - at);
      next := next + 1;
    }
  }

  lemma ReachNext(input: seq<byte>, index: nat, at: nat, limit: nat)
    requires index < |input|
    ensures var next := ByteReach(input[index], at, limit);
      Reach(input[index..], at, limit)
      == if PackedLen(next) >= limit then next else Reach(input[index + 1..], next, limit)
  {
    assert input[index..][1..] == input[index + 1..];
  }

  lemma ByteReachFull(b: byte, at: nat, limit: nat)
    ensures PackedLen(ByteReach(b, at, limit)) < limit <==> PackedLen(at + |ByteCode(b)|) < limit
    ensures PackedLen(ByteReach(b, at, limit)) < limit ==> ByteReach(b, at, limit) == at + |ByteCode(b)|
  {
  }

  /** What is written after `index` bytes. */
  ghost predicate Sent(input: seq<byte>, index: nat, bitCount: nat, limit: nat, was: seq<bv8>, stream: seq<bv8>,
      bytes: nat)
    requires index <= |input|
  {
    && bitCount == |Code(input[..index])| <= |Code(input)| && PackedLen(bitCount) < limit
    && Reach(input, 0, limit) == Reach(input[index..], bitCount, limit)
    && Wrote(was, stream, Code(input[..index]), bytes)
  }

  lemma SentNothing(input: seq<byte>, limit: nat, was: seq<bv8>, stream: seq<bv8>, bytes: nat)
    requires limit > 0 && Wrote(was, stream, [], bytes)
    ensures Sent(input, 0, 0, limit, was, stream, bytes)
  {
    assert input[..0] == [] && input[0..] == input;
  }

  lemma SentAll(input: seq<byte>, bitCount: nat, limit: nat, was: seq<bv8>, stream: seq<bv8>, bytes: nat)
    requires Sent(input, |input|, bitCount, limit, was, stream, bytes)
    ensures bitCount == |Code(input)| && Wrote(was, stream, Code(input), bytes)
    ensures PackedLen(bitCount) < limit && Reach(input, 0, limit) == 8 * PackedLen(bitCount)
  {
    assert input[..|input|] == input && input[|input|..] == [];
  }

  /** One byte more, or the limit test that stops the loop. */
  method PutNext(input: seq<byte>, index: nat, output: array<bv8>, bitCount: nat, limit: nat, ghost was: seq<bv8>,
      ghost bytes: nat) returns (fine: bool, next: nat)
    requires index < |input| && Sent(input, index, bitCount, limit, was, output[..], bytes)
    requires Reach(input, 0, limit) <= 8 * output.Length
    modifies output
    ensures fine ==> Sent(input, index + 1, next, limit, was, output[..], bytes)
    ensures !fine ==> PackedLen(|Code(input)|) >= limit && Reach(input, 0, limit) == next
    ensures !fine ==> Stopped(was, output[..], next)
  {
    CodeAt(input, index);
    CodeOfPrefix(input, index + 1);
    ReachNext(input, index, bitCount, limit);
    ByteReachFull(input[index], bitCount, limit);
    fine, next := PutByte(output, bitCount, input[index], limit, was, Code(input[..index]), bytes);
  }

  /** The loop over the input; `fine` says whether every limit test passed. */
  method PutAll(input: seq<byte>, output: array<bv8>, limit: nat, ghost was: seq<bv8>, ghost bytes: nat)
    returns (fine: bool, bitCount: nat)
    requires input != [] && limit > 0 && Reach(input, 0, limit) <= 8 * output.Length
    requires Wrote(was, output[..], [], bytes)
    modifies output
    ensures fine <==> PackedLen(|Code(input)|) < limit
    ensures fine ==> bitCount == |Code(input)|
    ensures if fine then Wrote(was, output[..], Code(input), bytes) else Stopped(was, output[..], bitCount)
    ensures Reach(input, 0, limit) == if fine then 8 * PackedLen(bitCount) else bitCount
  {
    fine, bitCount := true, 0;
    SentNothing(input, limit, was, output[..], bytes);
    for index := 0 to |input|
      invariant Sent(input, index, bitCount, limit, was, output[..], bytes)
    {
      fine, bitCount := PutNext(input, index, output, bitCount, limit, was, bytes);
      if !fine {
        return;
      }
    }
    SentAll(input, bitCount, limit, was, output[..], bytes);
    fine := true;
  }

  /** The buffer must reach as far as the encoder writes, which may be beyond `capacity`;
      the last bit written is set, and behind it only the clearing touches anything. */
  method Encode(input: seq<byte>, output: array<bv8>, capacity: nat, limit: nat) returns (ok: bool, outLen: nat)
    requires |input| < U16 && capacity < U16 && limit < U16
    requires capacity <= output.Length && Stays(input, limit, output.Length)
    modifies output
    ensures ok <==> input != [] && Fits(PackedLen(|Code(input)|), capacity, limit)
    ensures ok ==> outLen == PackedLen(|Code(input)|) && Bits(output[..outLen]) == Padded(Code(input))
    ensures !ok ==> outLen == 0
    ensures input != [] && limit > 0 && capacity > 0 ==>
      Stopped(Zeroed(old(output[..]), capacity), output[..], Reach(input, 0, limit))
  {
    if |input| == 0 || limit == 0 || capacity == 0 {
      return false, 0;
    }
    OverrunIsExact(input, limit, output.Length);
    Clear(output, capacity);
    ghost var was := output[..];
    var fine, bitCount := PutAll(input, output, limit, was, capacity);
    if !fine {
      return false, 0;
    }
    CodeEnds(input);
    outLen := Finish(output, bitCount, was, Code(input), capacity);
    if outLen == 0 || outLen > capacity || outLen >= limit {
      return false, 0;
    }
    ok := true;
  }

  // ----- The decoder -----

  lemma BitIs(stream: seq<bv8>, i: nat)
    requires i < 8 * |stream|
    ensures Bits(stream)[i] == StreamBit(stream, i)
  {
  }

  /** One more bit of a run, counted in eight bits. */
  lemma RunStep(bits: seq<bool>, i: nat, b: bool, n: nat)
    requires i < |bits|
    ensures RunLength(bits, i, b) == if bits[i] == b then 1 + RunLength(bits, i + 1, b) else 0
    ensures (Wrap(n) + 1) % 256 == Wrap(n + 1)
  {
    WrapCounts(n);
  }

  /** Count a run with an 8-bit counter. */
  method CountRun(input: seq<bv8>, bitIndex: nat, b: bool) returns (count: nat, next: nat)
    requires bitIndex <= 8 * |input|
    ensures next == bitIndex + RunLength(Bits(input), bitIndex, b)
    ensures count == Wrap(RunLength(Bits(input), bitIndex, b))
  {
    count, next := 0, bitIndex;
    ghost var bits := Bits(input);
    while next < 8 * |input| && StreamBit(input, next) == b
      invariant bitIndex <= next <= |bits| == 8 * |input|
      invariant RunLength(bits, bitIndex, b) == next - bitIndex + RunLength(bits, next, b)
      invariant count == Wrap(next - bitIndex)
      decreases 8 * |input| - next
    {
      BitIs(input, next);
      RunStep(bits, next, b, next - bitIndex);
      count := (count + 1) % 256;
      next := next + 1;
    }
    if next < 8 * |input| {
      BitIs(input, next);
      RunStep(bits, next, b, 0);
    }
  }

  method ReadNibble(input: seq<bv8>, bitIndex: nat) returns (parsed: Parsed)
    requires bitIndex < 8 * |input|
    ensures parsed == ParseNibble(Bits(input), bitIndex)
  {
    var segment: nat, next: nat := CountRun(input, bitIndex, true);
    if next >= 8 * |input| {
      return Padding;
    }
    if segment > 3 {
      return Corrupt;
    }
    var offsetCount: nat;
    offsetCount, next := CountRun(input, next, false);
    if next >= 8 * |input| {
      return Corrupt;
    }
    if offsetCount == 0 || offsetCount > 4 {
      return Corrupt;
    }
    parsed := Nibble(4 * segment + (offsetCount - 1), next + 1);
  }

  /** Store a completed byte if it fits. */
  method StoreByte(output: array<byte>, total: nat, high: nat, low: nat, capacity: nat, limit: nat) returns (ok: bool)
    requires high < 16 && low < 16 && total <= capacity <= output.Length
    modifies output
    ensures ok <==> Fits(total + 1, capacity, limit)
    ensures ok ==> output[..total + 1] == old(output[..total]) + [16 * high + low]
  {
    if total >= capacity {
      return false;
    }
    if total + 1 >= limit {
      return false;
    }
    output[total] := 16 * high + low;
    ok := true;
  }

  /** The decoder can no longer succeed within the capacity and below the limit. */
  ghost predicate Hopeless(r: Option<seq<byte>>, capacity: nat, limit: nat) {
    r.None? || !Fits(|r.value|, capacity, limit)
  }

  /** A nibble waits for its partner or completes a byte. */
  method TakeNibble(parsed: Parsed, pending: Option<nat>, output: array<byte>, total: nat, capacity: nat, limit: nat,
                    ghost bits: seq<bool>, ghost bitIndex: nat)
    returns (ok: bool, pending': Option<nat>, total': nat)
    requires bitIndex <= |bits| && parsed == ParseNibble(bits, bitIndex) && parsed.Nibble?
    requires pending.Some? ==> pending.value < 16
    requires total <= capacity <= output.Length && total < limit
    modifies output
    ensures ok ==> total' <= capacity && total' < limit && (pending'.Some? ==> pending'.value < 16)
    ensures ok ==> (DecodeBits(bits, bitIndex, pending, old(output[..total]))
                    == DecodeBits(bits, parsed.next, pending', output[..total']))
    ensures !ok ==> Hopeless(DecodeBits(bits, bitIndex, pending, old(output[..total])), capacity, limit)
  {
    ok, pending', total' := true, None, total;
    if pending.None? {
      pending' := Some(parsed.value);
    } else {
      ok := StoreByte(output, total, pending.value, parsed.value, capacity, limit);
      total' := total + 1;
    }
  }

  method Decode(input: seq<bv8>, output: array<byte>, capacity: nat, limit: nat) returns (ok: bool, outLen: nat)
    requires |input| < U16 && capacity < U16 && limit < U16 && capacity <= output.Length
    modifies output
    ensures var r := DecodeBits(Bits(input), 0, None, []);
      ok <==> (input != [] && r != Some([]) && !Hopeless(r, capacity, limit))
    ensures ok ==> outLen <= output.Length && Some(output[..outLen]) == DecodeBits(Bits(input), 0, None, [])
    ensures !ok ==> outLen == 0
  {
    if |input| == 0 || limit == 0 || capacity == 0 {
      return false, 0;
    }
    var bitIndex: nat, total: nat, done, fine := 0, 0, false, true;
    var pending: Option<nat> := None;
    ghost var bits := Bits(input);
    ghost var r := DecodeBits(bits, 0, None, []);
    while !done && bitIndex < 8 * |input|
      invariant bitIndex <= 8 * |input| && total <= capacity && total < limit
      invariant pending.Some? ==> pending.value < 16
      invariant r == if done then (if pending.None? then Some(output[..total]) else None)
                     else DecodeBits(bits, bitIndex, pending, output[..total])
      decreases if done then 0 else 1 + 8 * |input| - bitIndex
    {
      var parsed := ReadNibble(input, bitIndex);
      if parsed.Padding? {
        done := true;
      } else if parsed.Corrupt? {
        return false, 0;
      } else {
        fine, pending, total := TakeNibble(parsed, pending, output, total, capacity, limit, bits, bitIndex);
        if !fine {
          return false, 0;
        }
        bitIndex := parsed.next;
      }
    }
    if pending.Some? {
      return false, 0;
    }
    if total == 0 || total >= limit {
      return false, 0;
    }
    return true, total;
  }

  /** What one side encodes, the other side decodes, given room for the original. */
  method EncodeThenDecode(input: seq<byte>, wire: array<bv8>, limit: nat, back: array<byte>, backLimit: nat)
    returns (sent: bool, received: bool, len: nat)
    requires |input| < U16 && limit < U16 && backLimit < U16 && Stays(input, limit, wire.Length)
    requires wire.Length < U16 && back.Length < U16
    modifies wire, back
    ensures sent <==> input != [] && Fits(PackedLen(|Code(input)|), wire.Length, limit)
    ensures sent && Fits(|input|, back.Length, backLimit) ==> received && len == |input| && back[..len] == input
  {
    var wireLen: nat;
    sent, wireLen := Encode(input, wire, wire.Length, limit);
    received, len := false, 0;
    if sent {
      RoundTrip(Bits(wire[..wireLen]), input);
      received, len := Decode(wire[..wireLen], back, back.Length, backLimit);
    }
  }
}
