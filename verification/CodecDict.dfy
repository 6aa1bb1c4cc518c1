/**
  Static-dictionary coding (code/lib/codec_dict.c): the longest codebook entry at
  each position becomes a one-byte reference, everything else literal runs.
  Candidate entries are preselected by their first byte; the preselection finds
  what a scan of the whole codebook would.
*/
module CodecDict {
  import opened Machine
  import opened CodecCommon
  import FlashIntegrity

  const LITERAL_MAX: nat := 128
  const REF_TOKEN_MAX: int := 0xBF
  const INDEX_COUNT: int := 0x40

  type Book = seq<seq<byte>>

  // ----- The codebook -----

  const BLOB: string := "counter\0led_mask\0temperature\0voltage\0current\0power\0frequency\0status\0error\0"
    + "scope\0sfra\0perf\0trace\0ok\0fail\0version"

  datatype Entry = Entry(offset: nat, length: nat)

  const ENTRIES: seq<Entry> := [
    Entry(0, 7), Entry(8, 8), Entry(17, 11), Entry(29, 7), Entry(37, 7), Entry(45, 5), Entry(51, 9), Entry(61, 6),
    Entry(68, 5), Entry(74, 5), Entry(80, 4), Entry(85, 4), Entry(90, 5), Entry(96, 2), Entry(99, 4), Entry(104, 7)
  ]

  function CharByte(c: char): byte {
    c as int % 256
  }

  function EntryBytes(e: Entry): (s: seq<byte>)
    requires e.offset + e.length <= |BLOB|
    ensures |s| == e.length
  {
    seq<byte>(e.length, i requires 0 <= i < e.length => CharByte(BLOB[e.offset + i]))
  }

  lemma BlobLength()
    ensures |BLOB| == 111
  {
  }

  /** A bucket word has a bit per entry; every entry is longer than its reference. */
  ghost predicate GoodBook(book: Book) {
    && |book| <= 16
    && forall i :: 0 <= i < |book| ==> 2 <= |book[i]| <= 256
  }

  function Codebook(): (book: Book)
    ensures |book| == 16 && GoodBook(book)
  {
    BlobLength();
    seq<seq<byte>>(16, i requires 0 <= i < 16 => EntryBytes(ENTRIES[i]))
  }

  // ----- Longest match -----

  predicate Matches(book: Book, input: seq<byte>, index: nat, i: nat)
    requires index <= |input| && i < |book|
  {
    |book[i]| <= |input| - index && input[index..index + |book[i]|] == book[i]
  }

  datatype Match = Match(len: nat, entry: nat)

  /** The full scan over entries 0..n: longest match, smallest index on ties. */
  function BestUpTo(book: Book, input: seq<byte>, index: nat, n: nat): (m: Match)
    requires index <= |input| && n <= |book|
    ensures index + m.len <= |input|
    ensures m.len > 0 ==> m.entry < n && Matches(book, input, index, m.entry) && m.len == |book[m.entry]|
  {
    if n == 0 then Match(0, 0)
    else
      var best := BestUpTo(book, input, index, n - 1);
      if Matches(book, input, index, n - 1) && |book[n - 1]| > best.len then Match(|book[n - 1]|, n - 1) else best
  }

  /** The full scan, folded behind three empty recursive steps so that proofs about
      tokens see the match as an atom. */
  function FoldedBest(book: Book, input: seq<byte>, index: nat, folds: nat): (m: Match)
    requires index <= |input|
    ensures index + m.len <= |input|
    ensures m.len > 0 ==> m.entry < |book| && Matches(book, input, index, m.entry) && m.len == |book[m.entry]|
    decreases folds, index
  {
    if folds == 0 then BestUpTo(book, input, index, |book|) else FoldedBest(book, input, index, folds - 1)
  }

  function Best(book: Book, input: seq<byte>, index: nat): (m: Match)
    requires index <= |input|
    ensures index + m.len <= |input|
    ensures m.len > 0 ==> m.entry < |book| && Matches(book, input, index, m.entry) && m.len == |book[m.entry]|
  {
    FoldedBest(book, input, index, 3)
  }

  lemma BestIs(book: Book, input: seq<byte>, index: nat)
    requires index <= |input|
    ensures Best(book, input, index) == BestUpTo(book, input, index, |book|)
  {
    assert FoldedBest(book, input, index, 1) == FoldedBest(book, input, index, 0);
    assert FoldedBest(book, input, index, 2) == FoldedBest(book, input, index, 1);
  }

  lemma {:induction false} BestIsLongestFirst(book: Book, input: seq<byte>, index: nat, n: nat)
    requires index <= |input| && n <= |book|
    ensures forall i :: 0 <= i < n && Matches(book, input, index, i) ==>
      |book[i]| <= BestUpTo(book, input, index, n).len
    ensures BestUpTo(book, input, index, n).len > 0 ==>
      forall i :: 0 <= i < BestUpTo(book, input, index, n).entry && Matches(book, input, index, i) ==>
        |book[i]| < BestUpTo(book, input, index, n).len
    decreases n
  {
    if n > 0 {
      BestIsLongestFirst(book, input, index, n - 1);
    }
  }

  // ----- The greedy token stream -----

  function Literal(input: seq<byte>, start: nat, index: nat): (s: seq<byte>)
    requires start <= index <= |input| && index - start <= LITERAL_MAX
    ensures |s| == if index == start then 0 else 1 + index - start
  {
    if index == start then [] else [index - start - 1] + input[start..index]
  }

  function LiteralReference(input: seq<byte>, start: nat, index: nat, entry: nat): (s: seq<byte>)
    requires start <= index <= |input| && index - start <= LITERAL_MAX && entry < 16
    ensures |s| == (if index == start then 0 else 1 + index - start) + 1
  {
    Literal(input, start, index) + [0x80 + entry]
  }

  /** Tokens for input[start..], of which input[start..index] is a pending literal run. */
  function EncodeFrom(book: Book, input: seq<byte>, start: nat, index: nat): seq<byte>
    requires GoodBook(book) && start <= index <= |input| && index - start < LITERAL_MAX
    decreases |input| - index
  {
    if index == |input| then Literal(input, start, index)
    else
      var m := Best(book, input, index);
      if m.len > 0 then
        LiteralReference(input, start, index, m.entry) + EncodeFrom(book, input, index + m.len, index + m.len)
      else if index + 1 - start == LITERAL_MAX then
        Literal(input, start, index + 1) + EncodeFrom(book, input, index + 1, index + 1)
      else
        EncodeFrom(book, input, start, index + 1)
  }

  function EncodeSpec(book: Book, input: seq<byte>): seq<byte>
    requires GoodBook(book)
  {
    EncodeFrom(book, input, 0, 0)
  }

  lemma {:induction false} NonEmpty(book: Book, input: seq<byte>, start: nat, index: nat)
    requires GoodBook(book) && start <= index <= |input| && index - start < LITERAL_MAX
    ensures EncodeFrom(book, input, start, index) == [] <==> start == |input|
    decreases |input| - index
  {
    if index < |input| && Best(book, input, index).len == 0 && index + 1 - start < LITERAL_MAX {
      NonEmpty(book, input, start, index + 1);
    }
  }

  ghost predicate WithinBound(streamLen: nat, inputLen: nat) {
    streamLen <= inputLen + (inputLen + 127) / 128
  }

  lemma BoundSteps(run: nat, streamLen: nat, inputLen: nat, refLen: nat)
    requires run < LITERAL_MAX && refLen >= 2 && WithinBound(streamLen, inputLen)
    ensures WithinBound((if run == 0 then 0 else 1 + run) + 1 + streamLen, run + refLen + inputLen)
    ensures WithinBound(1 + LITERAL_MAX + streamLen, LITERAL_MAX + inputLen)
  {
  }

  ghost predicate Bounded(book: Book, input: seq<byte>, start: nat, index: nat)
    requires GoodBook(book) && start <= index <= |input| && index - start < LITERAL_MAX
  {
    WithinBound(|EncodeFrom(book, input, start, index)|, |input| - start)
  }

  lemma BoundedReference(book: Book, input: seq<byte>, start: nat, index: nat)
    requires GoodBook(book) && start <= index < |input| && index - start < LITERAL_MAX
    requires Best(book, input, index).len > 0
    requires var next := index + Best(book, input, index).len; Bounded(book, input, next, next)
    ensures Bounded(book, input, start, index)
  {
    var m := Best(book, input, index);
    var next := index + m.len;
    assert m.len == |book[m.entry]| >= 2;
    BoundSteps(index - start, |EncodeFrom(book, input, next, next)|, |input| - next, m.len);
    assert EncodeFrom(book, input, start, index)
        == LiteralReference(input, start, index, m.entry) + EncodeFrom(book, input, next, next);
  }

  lemma BoundedFullLiteral(book: Book, input: seq<byte>, start: nat, index: nat)
    requires GoodBook(book) && start <= index < |input| && index + 1 - start == LITERAL_MAX
    requires Best(book, input, index).len == 0 && Bounded(book, input, index + 1, index + 1)
    ensures Bounded(book, input, start, index)
  {
    var rest := EncodeFrom(book, input, index + 1, index + 1);
    BoundSteps(0, |rest|, |input| - index - 1, 2);
    assert EncodeFrom(book, input, start, index) == Literal(input, start, index + 1) + rest;
  }

  /** At most one extra byte per 128 input bytes. */
  lemma {:induction false} ExpansionBound(book: Book, input: seq<byte>, start: nat, index: nat)
    requires GoodBook(book) && start <= index <= |input| && index - start < LITERAL_MAX
    ensures Bounded(book, input, start, index)
    decreases |input| - index
  {
    if index < |input| {
      var m := Best(book, input, index);
      if m.len > 0 {
        ExpansionBound(book, input, index + m.len, index + m.len);
        BoundedReference(book, input, start, index);
      } else if index + 1 - start == LITERAL_MAX {
        ExpansionBound(book, input, index + 1, index + 1);
        BoundedFullLiteral(book, input, start, index);
      } else {
        ExpansionBound(book, input, start, index + 1);
      }
    }
  }

  // ----- The meaning of a token stream -----

  function DecodeFrom(book: Book, stream: seq<byte>, out: seq<byte>): (r: Option<seq<byte>>)
    requires GoodBook(book)
    ensures r.Some? ==> out <= r.value
    ensures r.Some? && stream != [] ==> |out| < |r.value|
    decreases |stream|
  {
    if stream == [] then Some(out)
    else if stream[0] <= 0x7F then
      var len: nat := stream[0] as int + 1;
      if len > |stream| - 1 then None else DecodeFrom(book, stream[1 + len..], out + stream[1..1 + len])
    else if stream[0] <= REF_TOKEN_MAX then
      var entry: nat := stream[0] as int % INDEX_COUNT;
      if entry >= |book| then None else DecodeFrom(book, stream[1..], out + book[entry])
    else None
  }

  function DecodeSpec(book: Book, stream: seq<byte>): Option<seq<byte>>
    requires GoodBook(book)
  {
    DecodeFrom(book, stream, [])
  }

  /** `DecodeFrom`, folded like `Best`. */
  function FoldedDecode(book: Book, stream: seq<byte>, out: seq<byte>, folds: nat): Option<seq<byte>>
    requires GoodBook(book)
    decreases folds, |stream|
  {
    if folds == 0 then DecodeFrom(book, stream, out) else FoldedDecode(book, stream, out, folds - 1)
  }

  function DecodeOnto(book: Book, stream: seq<byte>, out: seq<byte>): Option<seq<byte>>
    requires GoodBook(book)
  {
    FoldedDecode(book, stream, out, 3)
  }

  lemma DecodeOntoIs(book: Book, stream: seq<byte>, out: seq<byte>)
    requires GoodBook(book)
    ensures DecodeOnto(book, stream, out) == DecodeFrom(book, stream, out)
  {
    assert FoldedDecode(book, stream, out, 1) == DecodeFrom(book, stream, out);
    assert FoldedDecode(book, stream, out, 2) == FoldedDecode(book, stream, out, 1);
  }

  /** The tokens on the wire: 00..7F, a run of token + 1 bytes; 80..BF, the entry of that
      index; nothing else. */
  lemma TokensAre(book: Book, token: byte, bytes: seq<byte>, rest: seq<byte>, out: seq<byte>)
    requires GoodBook(book)
    ensures token <= 0x7F && |bytes| == token + 1 ==>
              DecodeFrom(book, [token] + bytes + rest, out) == DecodeFrom(book, rest, out + bytes)
    ensures token >= 0x80 ==>
              DecodeFrom(book, [token] + rest, out)
              == if token <= 0xBF && token - 0x80 < |book| then DecodeFrom(book, rest, out + book[token - 0x80])
                 else None
  {
    var stream := [token] + bytes + rest;
    assert stream[1..1 + |bytes|] == bytes && stream[1 + |bytes|..] == rest;
    assert ([token] + rest)[1..] == rest;
  }

  lemma DecodeBytes(book: Book, bytes: seq<byte>, rest: seq<byte>, out: seq<byte>)
    requires GoodBook(book) && 1 <= |bytes| <= LITERAL_MAX
    ensures DecodeOnto(book, [|bytes| - 1] + bytes + rest, out) == DecodeOnto(book, rest, out + bytes)
  {
    var stream: seq<byte> := [|bytes| - 1] + bytes + rest;
    DecodeOntoIs(book, stream, out);
    DecodeOntoIs(book, rest, out + bytes);
    assert stream[1..1 + |bytes|] == bytes;
    assert stream[1 + |bytes|..] == rest;
  }

  lemma DecodeLiteral(book: Book, input: seq<byte>, start: nat, index: nat, rest: seq<byte>)
    requires GoodBook(book) && start <= index <= |input| && index - start <= LITERAL_MAX
    ensures DecodeOnto(book, Literal(input, start, index) + rest, input[..start])
         == DecodeOnto(book, rest, input[..index])
  {
    if index == start {
      assert Literal(input, start, index) + rest == rest;
    } else {
      DecodeBytes(book, input[start..index], rest, input[..start]);
      assert input[..start] + input[start..index] == input[..index];
    }
  }

  lemma DecodeReference(book: Book, entry: nat, rest: seq<byte>, out: seq<byte>)
    requires GoodBook(book) && entry < |book|
    ensures DecodeOnto(book, [0x80 + entry] + rest, out) == DecodeOnto(book, rest, out + book[entry])
  {
    var stream := [0x80 + entry] + rest;
    DecodeOntoIs(book, stream, out);
    DecodeOntoIs(book, rest, out + book[entry]);
    assert stream[1..] == rest;
  }

  lemma DecodeLiteralReference(book: Book, input: seq<byte>, start: nat, index: nat, entry: nat, rest: seq<byte>)
    requires GoodBook(book) && start <= index <= |input| && index - start <= LITERAL_MAX
    requires entry < |book| && Matches(book, input, index, entry)
    ensures DecodeOnto(book, LiteralReference(input, start, index, entry) + rest, input[..start])
         == DecodeOnto(book, rest, input[..index + |book[entry]|])
  {
    var l, r := Literal(input, start, index), [0x80 + entry];
    assert l + r + rest == l + (r + rest);
    DecodeLiteral(book, input, start, index, r + rest);
    DecodeReference(book, entry, rest, input[..index]);
    assert input[..index] + book[entry] == input[..index + |book[entry]|];
  }

  ghost predicate Restores(book: Book, input: seq<byte>, start: nat, index: nat)
    requires GoodBook(book) && start <= index <= |input| && index - start < LITERAL_MAX
  {
    DecodeOnto(book, EncodeFrom(book, input, start, index), input[..start]) == Some(input)
  }

  lemma ReferenceFirst(book: Book, input: seq<byte>, start: nat, index: nat, entry: nat, len: nat, rest: seq<byte>)
    requires GoodBook(book) && start <= index <= |input| && index - start <= LITERAL_MAX
    requires entry < |book| && Matches(book, input, index, entry) && len == |book[entry]|
    requires DecodeOnto(book, rest, input[..index + len]) == Some(input)
    ensures DecodeOnto(book, LiteralReference(input, start, index, entry) + rest, input[..start]) == Some(input)
  {
    DecodeLiteralReference(book, input, start, index, entry, rest);
  }

  lemma RestoresReference(book: Book, input: seq<byte>, start: nat, index: nat)
    requires GoodBook(book) && start <= index < |input| && index - start < LITERAL_MAX
    requires Best(book, input, index).len > 0
    requires var next := index + Best(book, input, index).len; Restores(book, input, next, next)
    ensures Restores(book, input, start, index)
  {
    var m := Best(book, input, index);
    var rest := EncodeFrom(book, input, index + m.len, index + m.len);
    ReferenceFirst(book, input, start, index, m.entry, m.len, rest);
    assert EncodeFrom(book, input, start, index) == LiteralReference(input, start, index, m.entry) + rest;
  }

  lemma RestoresEnd(book: Book, input: seq<byte>, start: nat)
    requires GoodBook(book) && start <= |input| && |input| - start < LITERAL_MAX
    ensures Restores(book, input, start, |input|)
  {
    var l := Literal(input, start, |input|);
    assert l + [] == l;
    DecodeLiteral(book, input, start, |input|, []);
    assert input[..|input|] == input;
    DecodeOntoIs(book, [], input);
  }

  /** Decoding the greedy stream rebuilds the input. */
  lemma {:induction false} RoundTripFrom(book: Book, input: seq<byte>, start: nat, index: nat)
    requires GoodBook(book) && start <= index <= |input| && index - start < LITERAL_MAX
    ensures Restores(book, input, start, index)
    decreases |input| - index
  {
    if index == |input| {
      RestoresEnd(book, input, start);
    } else {
      var m := Best(book, input, index);
      if m.len > 0 {
        RoundTripFrom(book, input, index + m.len, index + m.len);
        RestoresReference(book, input, start, index);
      } else if index + 1 - start == LITERAL_MAX {
        RoundTripFrom(book, input, index + 1, index + 1);
        DecodeLiteral(book, input, start, index + 1, EncodeFrom(book, input, index + 1, index + 1));
      } else {
        RoundTripFrom(book, input, start, index + 1);
      }
    }
  }

  lemma RoundTrip(book: Book, input: seq<byte>)
    requires GoodBook(book)
    ensures DecodeSpec(book, EncodeSpec(book, input)) == Some(input)
  {
    RoundTripFrom(book, input, 0, 0);
    DecodeOntoIs(book, EncodeSpec(book, input), []);
  }

  // ----- First-byte buckets -----

  function EntryBit(i: nat): bv64
    requires i < 16
  {
    1 << i
  }

  predicate Overlaps(x: bv64, mask: bv64) {
    x & mask != 0
  }

  function Join(x: bv64, y: bv64): bv64 {
    x | y
  }

  predicate HasBit(x: bv64, i: nat)
    requires i < 16
  {
    Overlaps(x, EntryBit(i))
  }

  function WithBit(x: bv64, i: nat): bv64
    requires i < 16
  {
    Join(x, EntryBit(i))
  }

  lemma OrMasked(x: bv64, y: bv64, mask: bv64)
    ensures (x | y) & mask == (x & mask) | (y & mask)
  {
  }

  lemma OrNonzero(x: bv64, y: bv64)
    ensures x | y != 0 <==> x != 0 || y != 0
  {
  }

  lemma OrOverlaps(x: bv64, y: bv64, mask: bv64)
    ensures (x | y) & mask != 0 <==> x & mask != 0 || y & mask != 0
  {
    OrMasked(x, y, mask);
    OrNonzero(x & mask, y & mask);
  }

  lemma SumOverlaps(x: bv64, y: bv64, z: bv64, mask: bv64)
    requires z == x | y
    ensures Overlaps(z, mask) <==> Overlaps(x, mask) || Overlaps(y, mask)
  {
    OrOverlaps(x, y, mask);
  }

  lemma JoinOverlaps(x: bv64, y: bv64, mask: bv64)
    ensures Overlaps(Join(x, y), mask) <==> Overlaps(x, mask) || Overlaps(y, mask)
  {
    SumOverlaps(x, y, Join(x, y), mask);
  }

  lemma DistinctBits(i: nat, j: nat)
    requires i < 16 && j < 16
    ensures Overlaps(EntryBit(i), EntryBit(j)) <==> i == j
  {
    assert EntryBit(i) & EntryBit(j) != 0 <==> i == j;
  }

  lemma SetEntryBit(x: bv64, i: nat, j: nat)
    requires i < 16 && j < 16
    ensures HasBit(WithBit(x, i), j) <==> HasBit(x, j) || i == j
  {
    JoinOverlaps(x, EntryBit(i), EntryBit(j));
    DistinctBits(i, j);
  }

  /** Bucket `b` selects exactly the entries below `n` that start with byte `b`. */
  ghost predicate BucketsFor(book: Book, buckets: seq<bv64>, n: nat)
    requires GoodBook(book)
  {
    && |buckets| == 256
    && forall b: byte, i: nat :: i < |book| ==> (HasBit(buckets[b], i) <==> (i < n && book[i][0] == b))
  }

  lemma NextBucket(book: Book, buckets: seq<bv64>, n: nat)
    requires GoodBook(book) && n < |book| && BucketsFor(book, buckets, n)
    ensures var f := book[n][0]; BucketsFor(book, buckets[f := WithBit(buckets[f], n)], n + 1)
  {
    var f := book[n][0];
    var next := buckets[f := WithBit(buckets[f], n)];
    forall b: byte, i: nat | i < |book|
      ensures HasBit(next[b], i) <==> (i < n + 1 && book[i][0] == b)
    {
      SetEntryBit(buckets[f], n, i);
    }
  }

  lemma MatchStartsAlike(book: Book, input: seq<byte>, index: nat, i: nat)
    requires GoodBook(book) && index < |input| && i < |book| && Matches(book, input, index, i)
    ensures input[index] == book[i][0]
  {
    assert input[index..index + |book[i]|][0] == book[i][0];
  }

  /** A full scan gains nothing outside the first byte's bucket. */
  lemma OutsideBucketNeverMatches(book: Book, buckets: seq<bv64>, input: seq<byte>, index: nat, i: nat)
    requires GoodBook(book) && BucketsFor(book, buckets, |book|) && index < |input| && i < |book|
    requires !HasBit(buckets[input[index]], i)
    ensures !Matches(book, input, index, i)
  {
    if Matches(book, input, index, i) {
      MatchStartsAlike(book, input, index, i);
    }
  }

  // ----- The codec with its lazily built lookup table -----

  /** The loop's bookkeeping: what is written plus what is pending is the whole stream. */
  ghost predicate Progress(book: Book, input: seq<byte>, written: seq<byte>, start: nat, index: nat)
    requires GoodBook(book)
  {
    && start <= index <= |input| && index - start < LITERAL_MAX
    && EncodeSpec(book, input) == written + EncodeFrom(book, input, start, index)
  }

  /** Moving a token from "pending" to "written" changes nothing. */
  lemma ProgressBy(book: Book, input: seq<byte>, written: seq<byte>, start: nat, index: nat, token: seq<byte>,
      next: nat)
    requires GoodBook(book) && Progress(book, input, written, start, index) && next <= |input|
    requires EncodeFrom(book, input, start, index) == token + EncodeFrom(book, input, next, next)
    ensures Progress(book, input, written + token, next, next)
  {
    var rest := EncodeFrom(book, input, next, next);
    assert written + (token + rest) == (written + token) + rest;
  }

  lemma EncodesReference(book: Book, input: seq<byte>, start: nat, index: nat, m: Match)
    requires GoodBook(book) && start <= index < |input| && index - start < LITERAL_MAX
    requires m == Best(book, input, index) && m.len > 0
    ensures EncodeFrom(book, input, start, index)
         == LiteralReference(input, start, index, m.entry) + EncodeFrom(book, input, index + m.len, index + m.len)
  {
  }

  lemma ProgressReference(book: Book, input: seq<byte>, written: seq<byte>, start: nat, index: nat, m: Match)
    requires GoodBook(book) && Progress(book, input, written, start, index) && index < |input|
    requires m == Best(book, input, index) && m.len > 0
    ensures Progress(book, input, written + LiteralReference(input, start, index, m.entry),
                     index + m.len, index + m.len)
  {
    EncodesReference(book, input, start, index, m);
    ProgressBy(book, input, written, start, index, LiteralReference(input, start, index, m.entry), index + m.len);
  }

  lemma ProgressLiteral(book: Book, input: seq<byte>, written: seq<byte>, start: nat, index: nat)
    requires GoodBook(book) && Progress(book, input, written, start, index) && index < |input|
    requires Best(book, input, index).len == 0 && index + 1 - start == LITERAL_MAX
    ensures Progress(book, input, written + Literal(input, start, index + 1), index + 1, index + 1)
  {
    ProgressBy(book, input, written, start, index, Literal(input, start, index + 1), index + 1);
  }

  lemma ProgressBound(book: Book, input: seq<byte>, written: seq<byte>, start: nat, index: nat)
    requires GoodBook(book) && Progress(book, input, written, start, index)
    ensures |written| <= |EncodeSpec(book, input)|
    ensures index == |input| ==> EncodeSpec(book, input) == written + Literal(input, start, index)
  {
  }

  lemma ReferenceNext(book: Book, input: seq<byte>, written: seq<byte>, start: nat, index: nat, m: Match)
    requires GoodBook(book) && Progress(book, input, written, start, index) && index < |input|
    requires m == Best(book, input, index) && m.len > 0
    ensures var next := written + LiteralReference(input, start, index, m.entry);
            Progress(book, input, next, index + m.len, index + m.len) && |next| <= |EncodeSpec(book, input)|
  {
    ProgressReference(book, input, written, start, index, m);
    ProgressBound(book, input, written + LiteralReference(input, start, index, m.entry), index + m.len, index + m.len);
  }

  /** The decoder can no longer succeed within the capacity and below the limit. */
  ghost predicate Hopeless(book: Book, stream: seq<byte>, out: seq<byte>, capacity: nat, limit: nat)
    requires GoodBook(book)
  {
    var r := DecodeFrom(book, stream, out); r.None? || !Fits(|r.value|, capacity, limit)
  }

  lemma NoRoom(book: Book, stream: seq<byte>, out: seq<byte>, capacity: nat, limit: nat)
    requires GoodBook(book) && !Fits(|out|, capacity, limit)
    ensures Hopeless(book, stream, out, capacity, limit)
  {
  }

  class Codec {
    const buckets: array<bv64>
    const book: Book
    var ready: bool

    /** Either not built yet, or built completely. */
    ghost predicate Valid()
      reads this, buckets
    {
      && GoodBook(book)
      && buckets.Length == 256
      && (ready ==> BucketsFor(book, buckets[..], |book|))
    }

    constructor ()
      ensures Valid() && !ready && book == Codebook() && fresh(buckets)
    {
      buckets := new bv64[256](i => 0);
      book := Codebook();
      ready := false;
    }

    method Init()
      requires Valid()
      modifies this, buckets
      ensures Valid() && ready
    {
      for b := 0 to 256
        invariant forall k :: 0 <= k < b ==> buckets[k] == 0
      {
        buckets[b] := 0;
      }
      NoBits();
      for entry := 0 to |book|
        invariant BucketsFor(book, buckets[..], entry)
      {
        var first := book[entry][0];
        NextBucket(book, buckets[..], entry);
        ghost var next := buckets[..][first := WithBit(buckets[first], entry)];
        buckets[first] := WithBit(buckets[first], entry);
        assert buckets[..] == next;
      }
      ready := true;
    }

    /** Bucket-filtered search: the same entry as the full longest-match scan. */
    method FindEntry(input: seq<byte>, index: nat) returns (bestLen: nat, bestIndex: nat)
      requires Valid() && ready && index < |input|
      ensures Match(bestLen, bestIndex) == Best(book, input, index)
    {
      var candidates := buckets[input[index]];
      BestIs(book, input, index);
      bestLen, bestIndex := 0, 0;
      for entry := 0 to |book|
        invariant Match(bestLen, bestIndex) == BestUpTo(book, input, index, entry)
      {
        if !HasBit(candidates, entry) {
          OutsideBucketNeverMatches(book, buckets[..], input, index, entry);
        } else {
          var entryLen := |book[entry]|;
          if entryLen <= |input| - index && input[index..index + entryLen] == book[entry] {
            if entryLen > bestLen || (entryLen == bestLen && entry < bestIndex) {
              bestLen, bestIndex := entryLen, entry;
            }
          }
        }
      }
    }

    method EmitLiteralReference(input: seq<byte>, start: nat, index: nat, entry: nat, output: array<byte>,
        total: nat, capacity: nat, limit: nat)
      returns (ok: bool, next: nat)
      requires start <= index <= |input| && index - start <= LITERAL_MAX && entry < 16
      requires total <= capacity <= output.Length
      modifies output
      ensures ok <==> Fits(total + |LiteralReference(input, start, index, entry)|, capacity, limit)
      ensures ok ==> next == total + |LiteralReference(input, start, index, entry)| <= capacity
      ensures ok ==> output[..next] == old(output[..total]) + LiteralReference(input, start, index, entry)
    {
      ok, next := true, total;
      if index > start {
        ok, next := Emit(output, total, Literal(input, start, index), capacity, limit);
        if !ok {
          return;
        }
      }
      ok, next := Emit(output, next, [0x80 + entry], capacity, limit);
    }

    /** The pending literal and a reference to the entry found. */
    method EncodeEntry(input: seq<byte>, start: nat, index: nat, m: Match, output: array<byte>, total: nat,
        capacity: nat, limit: nat)
      returns (ok: bool, total': nat)
      requires Valid() && ready && output as object != buckets
      requires index < |input| && total <= capacity <= output.Length && total < limit
      requires Progress(book, input, output[..total], start, index) && m == Best(book, input, index) && m.len > 0
      modifies output
      ensures Valid() && ready
      ensures ok ==> total' <= capacity && total' < limit
      ensures ok ==> Progress(book, input, output[..total'], index + m.len, index + m.len)
      ensures !ok ==> !Fits(|EncodeSpec(book, input)|, capacity, limit)
    {
      ReferenceNext(book, input, output[..total], start, index, m);
      ok, total' := EmitLiteralReference(input, start, index, m.entry, output, total, capacity, limit);
    }

    /** One turn of the encoder's loop. */
    method EncodeOne(input: seq<byte>, start: nat, index: nat, output: array<byte>, total: nat, capacity: nat,
        limit: nat)
      returns (ok: bool, start': nat, index': nat, total': nat)
      requires Valid() && ready && output as object != buckets
      requires index < |input| && total <= capacity <= output.Length && total < limit
      requires Progress(book, input, output[..total], start, index)
      modifies output
      ensures Valid() && ready
      ensures ok ==> index < index' && total' <= capacity && total' < limit
      ensures ok ==> Progress(book, input, output[..total'], start', index')
      ensures !ok ==> !Fits(|EncodeSpec(book, input)|, capacity, limit)
    {
      ok, start', index', total' := true, start, index + 1, total;
      var bestLen, bestIndex := FindEntry(input, index);
      ghost var written := output[..total];
      if bestLen == 0 {
        if index' - start == LITERAL_MAX {
          ProgressLiteral(book, input, written, start, index);
          ProgressBound(book, input, written + Literal(input, start, index'), index', index');
          ok, total' := Emit(output, total, Literal(input, start, index'), capacity, limit);
          start' := index';
        }
      } else {
        index' := index + bestLen;
        start' := index';
        ok, total' := EncodeEntry(input, start, index, Match(bestLen, bestIndex), output, total, capacity, limit);
      }
    }

    method Encode(input: seq<byte>, output: array<byte>, capacity: nat, limit: nat) returns (ok: bool, outLen: nat)
      requires |input| < U16 && capacity < U16 && limit < U16 && capacity <= output.Length
      requires Valid() && output as object != buckets
      modifies output, this, buckets
      ensures Valid()
      ensures ok <==> input != [] && Fits(|EncodeSpec(book, input)|, capacity, limit)
      ensures ok ==> outLen == |EncodeSpec(book, input)| && output[..outLen] == EncodeSpec(book, input)
      ensures !ok ==> outLen == 0
    {
      NonEmpty(book, input, 0, 0);
      if |input| == 0 || limit == 0 || capacity == 0 {
        return false, 0;
      }
      if !ready {
        Init();
      }
      var total: nat, index: nat, start: nat, fine := 0, 0, 0, true;
      while index < |input|
        invariant Valid() && ready
        invariant total <= capacity && total < limit
        invariant Progress(book, input, output[..total], start, index)
        decreases |input| - index
      {
        fine, start, index, total := EncodeOne(input, start, index, output, total, capacity, limit);
        if !fine {
          return false, 0;
        }
      }
      ProgressBound(book, input, output[..total], start, index);
      if index > start {
        fine, total := Emit(output, total, Literal(input, start, index), capacity, limit);
        if !fine {
          return false, 0;
        }
      }
      if total == 0 || total >= limit {
        assert false;
      }
      return true, total;
    }

    /** What one input token expands to, if it is complete and valid. */
    method ReadToken(input: seq<byte>, index: nat, ghost out: seq<byte>) returns (ok: bool, bytes: seq<byte>, next: nat)
      requires GoodBook(book) && index < |input|
      ensures ok ==> index < next <= |input| && bytes != []
      ensures ok ==> DecodeFrom(book, input[index..], out) == DecodeFrom(book, input[next..], out + bytes)
      ensures !ok ==> DecodeFrom(book, input[index..], out).None?
    {
      ghost var stream := input[index..];
      var token := input[index];
      next := index + 1;
      assert stream[1..] == input[next..];
      if token <= 0x7F {
        var len: nat := token as int + 1;
        if len > |input| - next {
          return false, [], next;
        }
        assert stream[1..1 + len] == input[next..next + len];
        assert stream[1 + len..] == input[next + len..];
        return true, input[next..next + len], next + len;
      } else if token <= REF_TOKEN_MAX {
        var entry: nat := token as int % INDEX_COUNT;
        if entry >= |book| {
          return false, [], next;
        }
        return true, book[entry], next;
      } else {
        return false, [], next;
      }
    }

    method Decode(input: seq<byte>, output: array<byte>, capacity: nat, limit: nat) returns (ok: bool, outLen: nat)
      requires |input| < U16 && capacity < U16 && limit < U16 && capacity <= output.Length
      requires GoodBook(book)
      modifies output
      ensures var r := DecodeSpec(book, input); ok <==> input != [] && r.Some? && Fits(|r.value|, capacity, limit)
      ensures ok ==> outLen == |DecodeSpec(book, input).value| && output[..outLen] == DecodeSpec(book, input).value
      ensures !ok ==> outLen == 0
    {
      if |input| == 0 || limit == 0 || capacity == 0 {
        return false, 0;
      }
      var total: nat, index: nat, fine := 0, 0, true;
      assert input[0..] == input;
      while index < |input|
        invariant index <= |input| && total <= capacity && total < limit
        invariant index > 0 ==> total > 0
        invariant DecodeSpec(book, input) == DecodeFrom(book, input[index..], output[..total])
        decreases |input| - index
      {
        ghost var out := output[..total];
        var bytes, next;
        fine, bytes, next := ReadToken(input, index, out);
        if !fine {
          return false, 0;
        }
        fine, total := Emit(output, total, bytes, capacity, limit);
        if !fine {
          NoRoom(book, input[next..], out + bytes, capacity, limit);
          return false, 0;
        }
        index := next;
      }
      if total == 0 || total >= limit {
        assert false;
      }
      return true, total;
    }

    /** What one side encodes, the other side decodes, given room for the original. */
    method EncodeThenDecode(input: seq<byte>, wire: array<byte>, limit: nat, back: array<byte>, backLimit: nat)
      returns (sent: bool, received: bool, len: nat)
      requires |input| < U16 && limit < U16 && backLimit < U16 && wire != back
      requires wire.Length < U16 && back.Length < U16
      requires Valid() && wire as object != buckets && back as object != buckets
      modifies wire, back, this, buckets
      ensures Valid()
      ensures sent <==> input != [] && Fits(|EncodeSpec(book, input)|, wire.Length, limit)
      ensures sent && Fits(|input|, back.Length, backLimit) ==> received && len == |input| && back[..len] == input
    {
      var wireLen: nat;
      sent, wireLen := Encode(input, wire, wire.Length, limit);
      received, len := false, 0;
      if sent {
        received, len := Decode(wire[..wireLen], back, back.Length, backLimit);
        RoundTrip(book, input);
      }
    }
  }

  lemma NoBits()
    ensures forall i: nat :: i < 16 ==> !HasBit(0, i)
  {
  }

  // ----- Codebook fingerprint -----

  function AsBv(bytes: seq<byte>): (r: seq<bv8>)
    ensures |r| == |bytes|
  {
    seq(|bytes|, i requires 0 <= i < |bytes| => bytes[i] as bv8)
  }

  /** All entries, one after the other, without separators. */
  function Concatenated(book: Book): seq<bv8> {
    if book == [] then [] else Concatenated(book[..|book| - 1]) + AsBv(book[|book| - 1])
  }

  lemma AsBvStep(bytes: seq<byte>, i: nat)
    requires i < |bytes|
    ensures AsBv(bytes)[..i + 1] == AsBv(bytes)[..i] + [bytes[i] as bv8]
  {
  }

  method FeedEntry(crc: bv32, entry: seq<byte>) returns (next: bv32)
    ensures next == FlashIntegrity.Register(crc, AsBv(entry))
  {
    ghost var data := AsBv(entry);
    next := crc;
    assert data[..0] == [];
    for i := 0 to |entry|
      invariant next == FlashIntegrity.Register(crc, data[..i])
    {
      AsBvStep(entry, i);
      FlashIntegrity.RegisterConcat(crc, data[..i], [entry[i] as bv8]);
      FlashIntegrity.RegisterOne(next, entry[i] as bv8);
      next := FlashIntegrity.FeedByte(next, entry[i] as bv8);
    }
    assert data[..|entry|] == data;
  }

  /** The codebook checksum is the ordinary CRC-32 of the concatenated entries. */
  method CodebookCrc32(book: Book) returns (result: bv32)
    ensures result == FlashIntegrity.Crc32(Concatenated(book))
  {
    var crc: bv32 := 0xFFFFFFFF;
    assert book[..0] == [];
    for entry := 0 to |book|
      invariant crc == FlashIntegrity.Register(0xFFFFFFFF, Concatenated(book[..entry]))
    {
      assert book[..entry + 1][..entry] == book[..entry];
      FlashIntegrity.RegisterConcat(0xFFFFFFFF, Concatenated(book[..entry]), AsBv(book[entry]));
      crc := FeedEntry(crc, book[entry]);
    }
    assert book[..|book|] == book;
    result := FlashIntegrity.Xor32(crc, 0xFFFFFFFF);
  }
}
