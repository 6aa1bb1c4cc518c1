# ATOMAN cores, modelled and proved

ATOMAN is an embedded C library for digital power. This project models its
allocation-free cores in Dafny and proves what they are for. `dafny verify
dfyconfig.toml` checks all of it.

| file | part of the library |
|---|---|
| `Gf13.dfy`, `BchTheory.dfy`, `BchWords.dfy`, `BchEncoder.dfy`, `Bch4.dfy` | the BCH(8191,8139) sector code that corrects four bits |
| `CodecLzss.dfy`, `CodecRle.dfy`, `CodecDict.dfy`, `CodecZero.dfy`, `CodecCommon.dfy` | the four byte codecs |
| `FlashIntegrity.dfy`, `CrcPolynomial.dfy` | CRC-32/ISO-HDLC, the CRC of section 8 of RFC 1952 |
| `RealtimeBank.dfy`, `RealtimeFrame.dfy`, `RealtimeSession.dfy`, `RealtimeScope.dfy`, `RealtimeService.dfy` | the real-time scope and the task side of its service |
| `ScopeCore.dfy` | the triggered scope and its reader |
| `SfraSweep.dfy`, `SfraCore.dfy`, `SfraProgress.dfy` | the frequency-response sweep |
| `TimeShare.dfy` | the cooperative dispatcher |
| `FixedPoint.dfy`, `ApfI32.dfy`, `ResonantI32.dfy` | the integer filters |
| `Msogi.dfy` | the coupled harmonic observer |
| `SvpwmSector.dfy`, `SvpwmSearch.dfy`, `Svpwm3Level.dfy`, `SvpwmBalance.dfy` | the three-level modulator |
| `Machine.dfy`, `Circular.dfy`, `RealArith.dfy` | bytes and counters, circular positions, products of reals |

Code that updates state is a method or a class with the source's fields, proved
against a specification function; the laws are lemmas about those functions.

- **BCH.** Field elements are 13-bit vectors. The field laws are proved from the
  shift-and-reduce multiplier. `BchTheory.Massey` is the invariant of the
  Berlekamp-Massey loop; the Vandermonde argument bounds the locator length by the
  number of errors and turns enough vanishing discrepancies into a locator with
  exactly the error positions as roots. Together with the distance bound this gives
  the corrector's contract: every pattern of at most four flips is undone and
  counted, and any non-negative result leaves a code word at exactly that distance.
- **Codecs.** For each codec `EncodeSpec` (or `Code`) is the greedy stream as a
  function of the input and `DecodeFrom` (or `DecodeBits`) the meaning of a stream.
  The methods succeed exactly when the stream fits the capacity and lies strictly
  below the limit. The zero decoder counts runs in 8 bits: it follows the grammar of
  section 9.3 of docs/comm_v1_protocol.md exactly unless it meets a wrapped counter;
  `AcceptsBeyondGrammar` says which streams it then accepts that the grammar rejects,
  and `LongRunIsAccepted` is one of 33 bytes. The `TokensAre` lemmas and
  `CodecZero.CodeTable` fix the wire formats token by token.
- **Checksum.** `Crc32IsRemainder` ties the reflected register to the remainder of
  polynomial division, with the polynomial written by its exponents.
- **Sampling and scheduling.** The real-time scope refines a queue of whole frames,
  the triggered scope an unbounded recorder. The sweep machine cuts the background
  task into its single memory accesses so that the interrupt may fall anywhere; no
  point is computed from samples taken before its settle time, and a sweep whose task
  keeps pace with the interrupt finishes.
- **Arithmetic.** The fixed-point recurrences have exact drift identities over every
  run, saturating or not, and the exact coefficients that cannot overflow 64 bits. The
  observer obeys an exact power balance. The modulator's pole voltages are the radially
  limited request plus one common mode, and what balancing adds to it moves the drawn
  midpoint current toward the reference, which opposes the bus difference.

Two helpers recur. Where proofs need it, a function `FoldedX` with three empty
recursive steps is `X` kept folded so that proofs see it as an atom; the lemma `XIs`
opens it. `Slot` is the circular position of a running count.

## Model

| member | source | states |
|---|---|---|
| Bch4.Multiply | code/lib/bch4.c:30-51 | the shift-and-reduce loop returns the field product |
| Gf13.MulComm | code/lib/bch4.c:30-51 | the product is commutative |
| Gf13.MulAssoc | code/lib/bch4.c:30-51 | the product is associative |
| Gf13.MulAdd | code/lib/bch4.c:30-51 | the product distributes over xor on both sides |
| Gf13.TimesAlpha | code/lib/bch4.c:98-106 | one shift and conditional reduction is multiplication by alpha |
| Gf13.SqAdd | code/lib/bch4.c:111-114 | squaring is additive |
| Gf13.FermatAll | code/lib/bch4.c:53-69 | a^8192 = a for every element |
| Gf13.IdempotentIsTrivial | code/lib/bch4.c:26-28 | only 0 and 1 equal their own square, so the polynomial gives a field |
| Gf13.NoZeroDivisors | code/lib/bch4.c:30-51 | a product is zero only if a factor is |
| Gf13.InverseLaw | code/lib/bch4.c:53-69 | a^8190 is the inverse of every nonzero a |
| Gf13.OrderIsPrime | code/lib/bch4.c:27 | 8191 has no divisor but 1 and itself |
| Gf13.AlphaDistinct | code/lib/bch4.c:27 | the first 8191 powers of alpha are pairwise distinct |
| Bch4.Inverse | code/lib/bch4.c:53-69 | square-and-multiply returns the multiplicative inverse of every nonzero value |
| BchTheory.Vandermonde | code/lib/bch4.c:179-215 | if as many consecutive weighted power sums of distinct locators vanish as there are locators, all weights are zero |
| BchTheory.RootBound | code/lib/bch4.c:217-260 | a polynomial with more nonzero roots than its degree has a zero constant term |
| BchTheory.DiscrepancyIsWeighted | code/lib/bch4.c:181-186 | a discrepancy is a power sum of the error locators weighted by the locator polynomial's values |
| BchTheory.EnoughEquations | code/lib/bch4.c:179-215 | as many vanishing discrepancies as errors make every error locator a root |
| BchTheory.MasseyBound | code/lib/bch4.c:203-208 | a nonzero discrepancy forces at least n + 1 - L errors |
| BchTheory.MasseyKeep | code/lib/bch4.c:188-191 | a zero discrepancy keeps the loop invariant with a longer shift |
| BchTheory.MasseyUpdate | code/lib/bch4.c:192-214 | the update cancels the discrepancy and keeps the invariant in both length branches |
| BchTheory.RootsAreLocators | code/lib/bch4.c:217-260 | a locator no longer than the error count, vanishing on all error locators, has exactly them as nonzero roots and exactly that degree |
| BchWords.EvenSyndrome | code/lib/bch4.c:111-114 | syndrome 2k is the square of syndrome k |
| BchWords.SyndromeOfError | code/lib/bch4.c:81-121 | the syndrome of a word is that of any other word plus the power sum over the differing positions |
| BchWords.MinimumDistance | code/lib/bch4.c:81-121 | two distinct words with zero syndromes differ in at least nine bits |
| BchWords.NearestIsUnique | code/lib/bch4.c:157-268 | at most one code word lies within four flips of a word |
| BchWords.MiscorrectionIsFar | code/lib/bch4.h:31-33 | a code word within four flips of a word that came from another by e > 4 flips lies at least 9 - e flips away |
| BchWords.WordDeterminesBuffers | code/lib/bch4.c:71-79 | equal code bits and equal spare bits mean equal buffers |
| BchWords.FlipDataWord | code/lib/bch4.c:239-243 | flipping a payload bit in place inverts exactly that code bit |
| BchWords.FlipEccWord | code/lib/bch4.c:235-238 | flipping a parity bit in place inverts exactly that code bit |
| BchEncoder.GeneratorRoots | code/lib/bch4.c:28 | the generator vanishes at alpha, alpha^3, alpha^5 and alpha^7 |
| BchEncoder.RegisterStep | code/lib/bch4.c:142-147 | one turn of the 64-bit register is one step of polynomial division and keeps 52 bits |
| BchEncoder.DivisionIdentity | code/lib/bch4.c:133-148 | dividend equals quotient times generator plus register, coefficient by coefficient |
| BchEncoder.SystematicIsMultiple | code/lib/bch4.c:133-155 | the systematic word is a multiple of the generator |
| BchEncoder.SystematicIsCodeword | code/lib/bch4.c:123-155 | every systematic word has eight zero syndromes |
| BchEncoder.Divide | code/lib/bch4.c:133-148 | the loop leaves data(x)*x^52 modulo the generator in the register |
| BchEncoder.Encode | code/lib/bch4.c:123-155 | data and parity form the systematic code word and the spare bits are set |
| Bch4.ComputeSyndromes | code/lib/bch4.c:81-121 | all eight syndromes are computed and the flag says whether the word is not a code word |
| Bch4.Discrepancy | code/lib/bch4.c:181-186 | the inner loop computes the discrepancy of the current locator |
| Bch4.LengthStaysBounded | code/lib/bch4.c:203-208 | the locator length never exceeds the number of errors |
| Bch4.LocatorIsFound | code/lib/bch4.c:179-222 | after eight turns, with at most four errors, the locator has degree the error count and exactly the error locators as roots |
| Bch4.FindLocator | code/lib/bch4.c:179-215 | the Berlekamp-Massey loop finds the locator of every set of at most four errors explaining the syndromes |
| Bch4.RootTest | code/lib/bch4.c:226-233 | the sum of the advanced terms vanishes exactly at roots of the locator |
| Bch4.AdvanceTerms | code/lib/bch4.c:247-259 | the shift-back loops move every term to the next bit position |
| Bch4.FlipLocated | code/lib/bch4.c:224-260 | exactly the located bits are flipped and counted |
| Bch4.LocatorMembership | code/lib/bch4.c:224-260 | a bit position's power of alpha is an error locator exactly if that bit differs |
| Bch4.CorrectedIsCodeword | code/lib/bch4.c:224-260 | flipping exactly the roots of the true locator gives the code word |
| Bch4.Correct | code/lib/bch4.c:157-268 | a result k >= 0 leaves a code word at distance k, at most 4; every code word within four flips is restored with its distance as result; with e > 4 flips the result is -1 or at least 9 - e; spare bits are kept |
| Bch4.EncodeCorruptCorrect | code/lib/bch4.h:29-33 | encoding, inverting any up to four code bits and correcting restores data and parity and returns the number inverted |
| CodecLzss.MatchAgrees | code/lib/codec_lzss.c:98-107 | the measured match really repeats the earlier bytes, overlapping or not |
| CodecLzss.TokensAre | docs/comm_v1_protocol.md:294-318 | what each token of a stream means, in its bytes: literal runs, and the length and distance of references, refused beyond the output |
| CodecLzss.CopyBackRepeats | code/lib/codec_lzss.c:313-319 | every byte a reference copies is the one that stands its distance before it |
| CodecLzss.BestIsLongestNearest | code/lib/codec_lzss.c:98-120 | the chosen match is the longest in the window and the nearest among the longest |
| CodecLzss.BestIsMaximal | docs/comm_v1_protocol.md:294-318 | the match taken is at least as long as every repetition of up to 130 bytes from up to 256 bytes back |
| CodecLzss.FindMatch | code/lib/codec_lzss.c:92-120 | the search loop, early exit included, returns that match |
| CodecLzss.ExpansionBound | code/lib/codec_lzss.c:90-208 | the stream for n bytes is at most n + ceil(n/128) long |
| CodecLzss.RoundTrip | code/lib/codec_lzss.c:90-332 | decoding the greedy stream of any input gives that input |
| CodecLzss.CopyReference | code/lib/codec_lzss.c:313-319 | the byte-wise copy expands self-overlapping references |
| CodecLzss.Encode | code/lib/codec_lzss.c:57-220 | succeeds exactly when the greedy stream fits the capacity and lies below the limit, and then outputs it |
| CodecLzss.Decode | code/lib/codec_lzss.c:222-333 | succeeds exactly on well-formed streams whose output fits, and then outputs their meaning |
| CodecLzss.EncodeThenDecode | code/lib/codec_lzss.c:57-333 | what is encoded is decoded to the same bytes whenever the receiver has room |
| CodecRle.LiteralTokensAreRunFree | code/lib/codec_rle.c:113-145 | no literal token holds three equal consecutive bytes |
| CodecRle.RunIsMaximal | docs/comm_v1_protocol.md:274-293 | the run taken is at least as long as every run of up to 130 equal bytes |
| CodecRle.TokensAre | docs/comm_v1_protocol.md:274-293 | what each token of a stream means, in its bytes: literal runs and repeats |
| CodecRle.ExpansionBound | code/lib/codec_rle.c:82-162 | the stream for n bytes is at most n + ceil(n/127) long |
| CodecRle.RoundTrip | code/lib/codec_rle.c:82-272 | decoding the stream of any input gives that input |
| CodecRle.Encode | code/lib/codec_rle.c:51-174 | succeeds exactly when the stream fits the capacity and lies below the limit, and then outputs it |
| CodecRle.Decode | code/lib/codec_rle.c:176-272 | succeeds exactly on well-formed streams whose output fits, and then outputs their meaning |
| CodecRle.EncodeThenDecode | code/lib/codec_rle.c:51-272 | what is encoded is decoded to the same bytes whenever the receiver has room |
| CodecDict.BestIsLongestFirst | code/lib/codec_dict.c:169-209 | the full scan picks the longest match and the smallest index among the longest |
| CodecDict.TokensAre | docs/comm_v1_protocol.md:234-255 | what each token of a stream means, in its bytes: literal runs, entries, and the tokens refused |
| CodecDict.OutsideBucketNeverMatches | code/lib/codec_dict.c:179-185 | an entry missing from the first byte's bucket cannot match |
| CodecDict.Codec.FindEntry | code/lib/codec_dict.c:169-209 | the bucket search picks the same entry as the full scan |
| CodecDict.ExpansionBound | code/lib/codec_dict.c:169-295 | the stream for n bytes is at most n + ceil(n/128) long |
| CodecDict.RoundTrip | code/lib/codec_dict.c:129-414 | decoding the stream of any input gives that input, for every usable codebook |
| CodecDict.Codec.Init | code/lib/codec_dict.c:102-119 | every bucket selects exactly the entries starting with its byte |
| CodecDict.Codec.Encode | code/lib/codec_dict.c:129-307 | succeeds exactly when the stream fits the capacity and lies below the limit, and then outputs it |
| CodecDict.Codec.Decode | code/lib/codec_dict.c:309-414 | succeeds exactly on valid streams whose output fits, and then outputs their meaning |
| CodecDict.Codec.EncodeThenDecode | code/lib/codec_dict.c:129-414 | what is encoded is decoded to the same bytes whenever the receiver has room |
| CodecDict.CodebookCrc32 | code/lib/codec_dict.c:426-453 | the codebook CRC is the CRC-32 of the concatenated entries |
| CodecZero.RoundTrip | code/lib/codec_zero.c:184-274 | the code of an input followed by any number of ones decodes to that input |
| CodecZero.UniquelyDecodable | code/lib/codec_zero.c:88-132 | no two inputs share a padded code |
| CodecZero.CodeTable | docs/comm_v1_protocol.md:323-350 | the bits of each of the sixteen nibble codes |
| CodecZero.StrictUnlessWrapped | code/lib/codec_zero.c:186-235 | the decoder reads a nibble by the documented grammar exactly unless an 8-bit run counter wraps to an acceptable value |
| CodecZero.StrictDecodeIs | code/lib/codec_zero.c:186-274 | decoding a whole stream by the documented grammar gives the decoder's result unless the decoder meets a wrapped nibble, and a rejection then |
| CodecZero.AcceptsBeyondGrammar | code/lib/codec_zero.c:186-274 | decoder and grammar differ exactly on the streams the decoder accepts after meeting a wrapped nibble |
| CodecZero.LongRunIsAccepted | code/lib/codec_zero.c:186-274 | 32 bytes 0xFF and one 0x5F decode to one zero byte although the grammar rejects them |
| CodecZero.OverrunIsExact | code/lib/codec_zero.c:88-145 | the encoder sets a bit at or beyond the capacity exactly if the limit exceeds it and the code does not fit it |
| CodecZero.Encode | code/lib/codec_zero.c:54-146 | succeeds exactly when the padded code fits the capacity and lies below the limit, and then outputs it; in every case the last bit written is set and nothing behind it but the cleared capacity changes |
| CodecZero.Decode | code/lib/codec_zero.c:148-275 | succeeds exactly on decodable nonempty streams whose output fits, and then outputs their meaning |
| CodecZero.EncodeThenDecode | code/lib/codec_zero.c:54-275 | what is encoded is decoded to the same bytes whenever the receiver has room |
| FlashIntegrity.BitStepLinear | code/lib/flash_integrity.c:38-42 | one bit step is linear over xor |
| FlashIntegrity.UnStepUndoes | code/lib/flash_integrity.c:38-42 | one bit step can be undone |
| FlashIntegrity.MeetingRegisters | code/lib/flash_integrity.c:34-43 | registers that meet after up to four bytes differed before by exactly those bytes' difference |
| FlashIntegrity.DetectsBurst | code/lib/flash_integrity.c:25-45 | messages differing only inside four consecutive bytes have different CRCs, whatever surrounds them |
| FlashIntegrity.ComputeCrc32 | code/lib/flash_integrity.c:25-45 | the masked loops compute the CRC-32 of the data |
| FlashIntegrity.PutU32 | code/lib/flash_integrity.c:55-66 | a stored word reads back and nothing behind it changes |
| FlashIntegrity.GetU32Bytes | code/lib/flash_integrity.c:46-54 | the four bytes are the little-endian digits of the word read |
| CrcPolynomial.ConstantIsPolynomial | code/lib/flash_integrity.c:41 | the reflected constant holds exactly the exponents of the ISO-HDLC polynomial |
| CrcPolynomial.Crc32IsRemainder | code/lib/flash_integrity.c:25-45 | the message times x^32, complemented in its first 32 bits, equals a multiple of that polynomial plus the complemented checksum, coefficient by coefficient |
| CrcPolynomial.CheckValue | code/lib/flash_integrity.c:25-45 | the CRC of the nine bytes "123456789" is 0xCBF43926 |
| RealtimeBank.WalkVisitsEnabled | code/dbg/realtime_scope.c:68-79 | following the list visits the enabled channels in ascending order |
| RealtimeBank.EnabledFromIsExact | code/dbg/realtime_scope.c:70-78 | the visited list holds a channel exactly if it is enabled |
| RealtimeBank.EnabledFromAscends | code/dbg/realtime_scope.c:70-78 | the visited channels are strictly ascending |
| RealtimeBank.WidthsAre | code/dbg/realtime_scope.c:19-23 | the width of each of the eleven value types |
| RealtimeBank.AcceptsIsExact | code/dbg/realtime_scope.c:54-58 | the valid requests are those for channels 1 to 32 that disable, or name one of the eleven types |
| RealtimeBank.PayloadBound | code/dbg/realtime_scope.c:68-78 | the payload size is at most 256 and zero exactly if nothing is enabled |
| RealtimeBank.BankObject.Set | code/dbg/realtime_scope.c:45-81 | a request is accepted exactly if valid, changes exactly that channel, and leaves a well-linked list with the right payload size |
| RealtimeBank.BankObject.Clear | code/dbg/realtime_scope.c:40-43 | all channels are disabled and the bank is well formed |
| RealtimeFrame.OneChangeIsNoticed | code/dbg/realtime_scope.c:147-186 | changing any single byte of a frame, its checksum included, breaks the checksum |
| RealtimeFrame.SumOfBody | code/dbg/realtime_scope.c:152-183 | adding the payload size before the payload, as the source does, gives the same checksum |
| RealtimeFrame.ChannelByte | code/dbg/realtime_scope.c:154-180 | each byte of each channel stands in the payload behind the channels before it |
| RealtimeFrame.FrameCarries | code/dbg/realtime_scope.c:147-186 | in a written frame every byte of every enabled channel is the one at its address in memory, in memory order |
| RealtimeFrame.WriteValues | code/dbg/realtime_scope.c:154-180 | walking the list writes the channel values in channel order and sums their bytes |
| RealtimeFrame.WriteFrame | code/dbg/realtime_scope.c:127-186 | one whole frame is written and nothing else changes; every byte of every enabled channel is the one at its address in memory, and the last byte of the slot is the sum of all before it |
| RealtimeSession.RunKeeps | code/dbg/realtime_scope.c:95-209 | in every run popped and queued frames are the sampled frames in order, with consecutive indices modulo 256 |
| RealtimeSession.CountersBalance | code/dbg/realtime_scope.c:83-209 | in every run from a fresh sampler, popped and queued frames are all the sampled ones in order and samples equal dequeued plus count, unless the service dropped frames |
| RealtimeSession.ReadsAreConsecutive | code/dbg/realtime_scope_service.c:181-210 | pops with any interrupts between them take sampled frames that follow one another, from the oldest not yet read |
| RealtimeSession.StartsLoseNothing | code/dbg/realtime_scope.c:83-209 | over any number of acquisitions, popped and queued frames are all frames ever sampled, in order, unless the service dropped some |
| RealtimeSession.RunningSamplesAll | code/dbg/realtime_scope.c:95-113 | while an acquisition runs every interrupt is sampled, whatever start requests come |
| RealtimeSession.HighWaterIsPeak | code/dbg/realtime_scope.c:190-193 | from a start on the high-water mark is the deepest the queue has been |
| RealtimeSession.StopsWhenFull | code/dbg/realtime_scope.c:141-146 | a running acquisition is stopped by an interrupt exactly if the queue is full, and samples otherwise |
| RealtimeSession.OverflowLosesNothing | code/dbg/realtime_scope.c:141-146 | an overflow stops sampling and no frame sampled before is lost, whatever follows until the next start |
| RealtimeScope.PushRing | code/dbg/realtime_scope.c:184-189 | writing a frame at the tail appends it to the ring's queue |
| RealtimeScope.PopRing | code/dbg/realtime_scope.c:200-206 | the bytes at the head are the oldest frame, and moving the head removes exactly that frame |
| RealtimeScope.Sampler.Swap | code/dbg/realtime_scope.c:83-93 | the banks are exchanged exactly when idle, drained and something is configured |
| RealtimeScope.Sampler.Start | code/dbg/realtime_scope.c:95-113 | an empty acquisition begins exactly when idle, drained and something is enabled |
| RealtimeScope.Sampler.Sample | code/dbg/realtime_scope.c:136-194 | one interrupt is one sampling step of the frame queue |
| RealtimeScope.Sampler.Pop | code/dbg/realtime_scope.c:196-209 | the oldest frame is copied whole and removed, or nothing happens |
| RealtimeScope.Sampler.Abandon | code/dbg/realtime_scope_service.c:103-110 | resetting head and count with a stale tail drops the queue and leaves a state from which only a start samples |
| RealtimeService.RequestQueue.Submit | code/dbg/realtime_scope_service.c:82-93 | a request is appended, or refused exactly when four wait |
| RealtimeService.RequestQueue.TakeAll | code/dbg/realtime_scope_service.c:122-139 | one management pass takes every waiting request in order of arrival |
| RealtimeService.Service.CheckConnection | code/dbg/realtime_scope_service.c:111-120 | a lost or replaced session, and nothing else, drops the acquisition |
| RealtimeService.Service.Read | code/dbg/realtime_scope_service.c:181-210 | whole frames only, oldest first, as many as are queued and fit; nothing without the right session |
| ScopeCore.RefinesStep | code/dbg/scope_core.c:33-137 | every operation of the circular capture is that of a recorder keeping all samples |
| ScopeCore.RefinesAll | code/dbg/scope_core.c:33-137 | so is every sequence of operations |
| ScopeCore.EveryCaptureDisplays | code/dbg/scope_service.c:164-202 | after every sequence of operations from an idle scope: a completed capture of the whole buffer is shown in time order unless the start is missed, with the trigger sample at the reported index, and a forced read while running shows the newest samples in time order |
| ScopeCore.CaptureReadsInOrder | code/dbg/scope_service.c:175-202 | with a positive post count and no missed start a completed capture shows its last samples in time order |
| ScopeCore.StartIsExact | code/dbg/scope_service.c:190 | the reader starts behind the last post sample exactly unless its 32-bit sum wraps and 2^32 is no multiple of the buffer size |
| ScopeCore.TimeOrderIsExact | code/dbg/scope_service.c:190 | time order holds exactly if the post count is positive and the start not missed, or the buffer has one slot |
| ScopeCore.ZeroPostShowsNewestFirst | code/dbg/scope_service.c:190 | with a zero post count the newest sample is shown first |
| ScopeCore.TriggerIsDisplayed | code/dbg/scope_service.c:164-202 | from the trigger on, once the buffer has been filled, the trigger sample stands at the reported display index, in forced reads too |
| ScopeCore.TriggerDisplayNeedsRoom | code/dbg/scope_service.c:164-202 | it does so, for every post count, exactly if the post samples taken leave it in the buffer |
| ScopeCore.ForcedReadInOrder | code/dbg/scope_service.c:183-188 | a forced read while running shows the newest samples in time order |
| ScopeCore.Scope.RunOnce | code/dbg/scope_core.c:33-92 | one sampling interrupt on the fields and the buffer is one capture step |
| ScopeCore.Scope.Begin | code/dbg/scope_core.c:94-105 | a start takes effect only when idle and rewinds the capture |
| ScopeCore.Scope.Fire | code/dbg/scope_core.c:117-124 | a trigger takes effect only while running |
| SfraSweep.FullIsExact | code/dbg/sfra_core.c:152-160 | a push finds the ring full exactly when 383 samples wait |
| SfraSweep.EmptyIsExact | code/dbg/sfra_core.c:186-190 | the ring indices meet exactly when it is empty |
| SfraSweep.RunKeeps | code/dbg/sfra_core.c:500-673 | the machine invariant holds under every interleaving of interrupts, single task steps and the consumer |
| SfraSweep.FrequencyIsGeometric | code/dbg/sfra_core.c:201-212 | the frequency of a point is the start times the multiplier to the power of its index |
| SfraSweep.SampleSizeIsNearest | code/dbg/sfra_core.c:74-85 | the samples cover the wanted cycles to half a sample, or are one |
| SfraSweep.PoppedIsPrefix | code/dbg/sfra_core.c:134-199 | in every run from a start the popped samples are a prefix of the pushed ones and these of all the interrupt offered, the same ones until an overflow; while a point is sampled the ring holds the rest |
| SfraSweep.SweepIsExact | code/dbg/sfra_core.c:372-402 | every run from a start latches points 0, 1, 2, ... once each, overwrites no unread point, computes each from the shortest complete prefix of what the interrupt offered after its settle time had passed, and is done exactly when all are latched |
| SfraSweep.OverflowResolves | code/dbg/sfra_core.c:551-582 | in every interleaving that holds nine loop steps an overflow restarts the same index or leads to latching a point that was already complete |
| SfraCore.CallIsSteps | code/dbg/sfra_core.c:585-673 | an undisturbed task call is one run of the interleaved machine |
| SfraProgress.SettlingIsExact | code/dbg/sfra_core.c:507-513 | in every run from a start, a task step of a settling point begins to collect exactly when the interrupts since its preparation reach the settle time |
| SfraProgress.CallCollects | code/dbg/sfra_core.c:540-583 | one undisturbed call takes the waiting samples in order: 128 of them, all, or just enough to complete the point |
| SfraProgress.PacedSweepFinishes | code/dbg/sfra_core.c:585-673 | a sweep whose task is called after every interrupt and whose points are taken in time latches all its points within a fixed number of rounds for each |
| SfraCore.Analyzer.PushSample | code/dbg/sfra_core.c:134-166 | the push stores one sample pair or latches the overflow |
| SfraCore.Analyzer.PopSample | code/dbg/sfra_core.c:168-199 | the pop returns the oldest sample pair or reports an empty ring |
| SfraCore.Analyzer.CollectSamples | code/dbg/sfra_core.c:540-583 | the budgeted loop does exactly the steps of an undisturbed collection |
| SfraCore.Analyzer.PrepareCurrent | code/dbg/sfra_core.c:201-245 | the point's frequency is the start times the multiplier to the index, the settle time follows, and ring and DFT are reset |
| SfraCore.Analyzer.Task | code/dbg/sfra_core.c:585-673 | one call of the background task on the fields, or nothing for an invalid configuration |
| SfraCore.Analyzer.PostSample | code/dbg/sfra_core.c:500-534 | one post-sample interrupt on the fields |
| TimeShare.ScanApproaches | code/lib/time_share.c:60-73 | while an entry is due the round-robin scan runs it or stops strictly closer to it |
| TimeShare.OnTimeAfter | code/lib/time_share.c:42-77 | once it holds, the deadline budget of an entry holds after every number of calls |
| TimeShare.RunsInTime | code/lib/time_share.c:42-77 | from any state a callback that becomes due runs within 10 * table_size calls, that one included, if its period plus that wait is at most 2^32 |
| TimeShare.PacedAfter | code/lib/time_share.c:33-41 | after every call from a start, a running countdown counts the calls since the entry at the table position was cleared |
| TimeShare.StartedRunsInTime | code/lib/time_share.c:42-77 | in every run from a start it runs within ten calls per other entry and its own call (plus the rest of its own countdown for periods below ten), if its period and ten calls per other entry stay below 2^32 |
| TimeShare.StarvedAfter | code/lib/time_share.c:47-75 | without that room, once the turn is at its successor every other entry runs exactly when its turn comes while the counter of this one wraps |
| TimeShare.FirstDeadlineIsExact | code/lib/time_share.c:33-77 | for entry 0 of any table: it meets 10 * table_size calls in every run from every start exactly if its period, zero counting as one, plus ten calls per other entry is below 2^32 |
| TimeShare.DeadlineIsExact | code/lib/time_share.c:33-77 | for every entry, over all tables of a size in which it has a given period: it meets that deadline in every run from every start exactly under the same condition |
| TimeShare.RunsAreSpaced | code/lib/time_share.c:67-75 | any two dispatches are at least ten calls apart |
| TimeShare.RerunsRespectPeriod | code/lib/time_share.c:64-67 | no callback runs again before `period` further calls, wrapping or not |
| TimeShare.FirstRunRespectsPeriod | code/lib/time_share.c:64-67 | from a cleared counter the first run waits for the period as well |
| TimeShare.Dispatcher.Call | code/lib/time_share.c:42-77 | one call advances all counters and runs the first due entry when the countdown allows |
| ApfI32.Design | code/lib/apf_i32.c:64-82 | accepted exactly for positive arguments; designed coefficients are one, and equal with magnitude at most one |
| ApfI32.DesignIsBilinear | code/lib/apf_i32.c:76-78 | the coefficient is the bilinear transform's, in Q30, to half a unit |
| ApfI32.OutputIsNearest | code/lib/apf_i32.c:50-62 | the output is the 32-bit number nearest to the scaled accumulator |
| ApfI32.ClippedSign | code/lib/apf_i32.c:132-141 | what saturation loses has the sign of the overflow, and a saturated step carries nothing over |
| ApfI32.ResidualRange | code/lib/apf_i32.c:134-141 | the carried residual is a fraction in [0, 2^30) |
| ApfI32.Drift | code/lib/apf_i32.c:118-145 | for every run length the summed outputs and inputs differ by the last state, the residual and what saturation lost |
| ApfI32.DriftExact | code/lib/apf_i32.c:118-145 | without saturation by the last sample and residual alone |
| ApfI32.DriftBounded | code/lib/apf_i32.c:118-145 | so the drift stays below one bound however long the run |
| ApfI32.DesignedIsSafe | code/lib/apf_i32.c:64-82 | designed coefficients meet the no-overflow condition |
| ApfI32.SafeIsExact | code/lib/apf_i32.c:129-130 | no partial sum of a step leaves 64 bits, whatever state and input, exactly if the extreme accumulators fit |
| ApfI32.EveryStateIsReached | code/lib/apf_i32.c:94-145 | every state is reached from reset in two safe steps between which the coefficients are exchanged |
| ApfI32.Filter.Cal | code/lib/apf_i32.c:118-145 | one step of the recurrence, with no 64-bit overflow |
| ResonantI32.Design | code/lib/resonant_i32.c:64-99 | accepted exactly for arguments that make sense; designed coefficients have opposed input taps, unit a2 and feedback within two |
| ResonantI32.DesignIsBilinear | code/lib/resonant_i32.c:89-98 | feedback and input coefficient are the bilinear transform's at the angle ts * order * omega and with the gain converted from input to output codes, in Q29, to half a unit; a larger input coefficient saturates |
| ResonantI32.OutputIsNearest | code/lib/resonant_i32.c:50-62 | the output is the 32-bit number nearest to the scaled accumulator |
| ResonantI32.ClippedSign | code/lib/resonant_i32.c:154-163 | what saturation loses has the sign of the overflow, and a saturated step carries nothing over |
| ResonantI32.ResidualRange | code/lib/resonant_i32.c:156-163 | the carried residual is a fraction in [0, 2^29) |
| ResonantI32.Drift | code/lib/resonant_i32.c:138-169 | for every run length the summed output is fixed by the last two inputs and outputs, the residual and what saturation lost |
| ResonantI32.DriftExact | code/lib/resonant_i32.c:138-169 | without saturation nothing is lost |
| ResonantI32.OutputSumBounded | code/lib/resonant_i32.c:138-169 | so the summed output stays below one bound however long the run |
| ResonantI32.SafeIsExact | code/lib/resonant_i32.c:149-153 | no partial sum of a step leaves 64 bits, whatever state and input, exactly if the extreme accumulators fit |
| ResonantI32.EveryStateIsReached | code/lib/resonant_i32.c:113-169 | every state is reached from reset in four safe steps between which the coefficients are exchanged |
| ResonantI32.ShapedIsSafe | code/lib/resonant_i32.c:89-98 | for every design that is exactly a bound on the input coefficient |
| ResonantI32.DesignedIsSafe | code/lib/resonant_i32.c:89-98 | which an input gain of at most two meets |
| ResonantI32.Controller.Cal | code/lib/resonant_i32.c:138-169 | one step of the recurrence, with no 64-bit overflow |
| Msogi.DivisorPositive | code/lib/msogi.c:65-77 | for a valid tuning the residual equation can be solved |
| Msogi.CoefficientsAre | code/lib/msogi.c:65-77 | the gain of channel n is the damping over 2n+1, through the bilinear transform, and decay and cross coupling are those of a rotation by the harmonic's angle |
| Msogi.StepBalances | code/lib/msogi.c:89-106 | after every sample the residual is the input minus all channel estimates and DC |
| Msogi.ChannelPower | code/lib/msogi.c:92-103 | one channel is a lossless rotation plus the power of the injected residuals |
| Msogi.EnergyStep | code/lib/msogi.c:89-106 | the weighted energy changes by s * (u - s), s and u the sums of old and new residuals and inputs |
| Msogi.RunEnergy | code/lib/msogi.c:80-107 | over every run the energy grows by at most what the inputs supply |
| Msogi.ZeroInputLoss | code/lib/msogi.c:80-107 | with zero input a step loses exactly s^2 |
| Msogi.ZeroInputDecays | code/lib/msogi.c:80-107 | with zero input the energy never rises, for any length of run |
| Msogi.Observer.Retune | code/lib/msogi.c:57-78 | all coefficients follow from the tangents and the dynamic state is kept |
| Msogi.Observer.RetunedIsTuned | code/lib/msogi.c:57-78 | positive damping, frequency and tangents give a tuning the energy laws apply to |
| Msogi.Observer.Cal | code/lib/msogi.c:80-107 | one sample of the coupled update on the arrays |
| SvpwmSector.LimitIsRadial | code/lib/svpwm_3level.c:260-284 | limiting keeps the direction of the request and shrinks it by exactly the factor the total bus demands |
| SvpwmSector.LimitFits | code/lib/svpwm_3level.c:275-278 | the limited phases sum to zero, span at most the total bus, and fill it whenever shrunk |
| SvpwmSearch.SectorRealizes | code/lib/svpwm_3level.c:64-154 | every feasible mapping gives valid duties realizing the limited phases plus one offset within half the tolerance |
| SvpwmSearch.MidAffine | code/lib/svpwm_3level.c:106-120 | within a mapping the midpoint current is affine in the offset |
| SvpwmSearch.OffsetOptimal | code/lib/svpwm_3level.c:104-128 | the chosen offset tracks the wanted midpoint current at least as well as any other of the mapping |
| SvpwmSearch.FallbackRealizes | code/lib/svpwm_3level.c:410-431 | the direct realization always exists and is exact |
| SvpwmSearch.ModulateRealizes | code/lib/svpwm_3level.c:325-431 | for every limited request and bus split the instantaneous mode gives valid duties realizing it |
| SvpwmSearch.SignSectorFeasible | code/lib/svpwm_3level.c:325-343 | with equal half buses the sign sector is feasible |
| SvpwmSearch.EqualBusesUseSignSector | code/lib/svpwm_3level.c:345-361 | so without balancing neither search nor fallback is reached |
| SvpwmSearch.IdleIsZero | code/lib/svpwm_3level.c:325-333 | no phase is positive exactly at the zero reference |
| SvpwmSearch.FallbackIsLast | code/lib/svpwm_3level.c:345-431 | the direct realization is used exactly when none of the six mappings is feasible |
| SvpwmSearch.SignSectorIsKept | code/lib/svpwm_3level.c:345-407 | a feasible sign sector is left only when balancing, for one that tracks better by more than the tie |
| SvpwmSearch.FirstFeasibleIsTaken | code/lib/svpwm_3level.c:366-401 | without balancing an infeasible sign sector gives way to the first feasible one |
| SvpwmSearch.OffsetIsMidway | code/lib/svpwm_3level.c:104-128 | without balancing the offset is midway in its interval, as is that of the direct realization between the rails |
| SvpwmSearch.ModulateBalancesBest | code/lib/svpwm_3level.c:364-408 | with balancing and a nonzero reference no offset of any of the six mappings tracks the midpoint current better by more than the tie tolerance |
| SvpwmSearch.RestingIsEveryMapping | code/lib/svpwm_3level.c:333-343 | at the zero reference the only offset of each mapping is zero and draws what resting draws |
| SvpwmSearch.BalancesBest | code/lib/svpwm_3level.c:325-408 | so with balancing the result is best up to the tie tolerance for every reference |
| Svpwm3Level.CalculateSector | code/lib/svpwm_3level.c:64-154 | the loops compute exactly the realization of one mapping, or report it infeasible |
| Svpwm3Level.RealizationDelivers | code/lib/svpwm_3level.c:300-407 | a normalized realization delivers the limited request in volts |
| Svpwm3Level.LineVoltages | code/lib/svpwm_3level.h:32-40 | the differences of pole voltages are those of the limited request within twice the pole tolerance |
| Svpwm3Level.IntegralMoves | code/lib/svpwm_3level.c:215-222 | one period moves the uncut correction by the integrated bus difference and by ts * kaw of what it falls short of the applied one |
| Svpwm3Level.IntegralTracksLimit | code/lib/svpwm_3level.c:215-222 | for ts * kaw in (0, 1], apart from the newly integrated bus difference, the shortfall shrinks by that share, strictly whenever the correction was cut |
| Svpwm3Level.Modulator.BalanceOffset | code/lib/svpwm_3level.c:180-222 | the averaged controller's new state and an offset inside the physical limits |
| Svpwm3Level.Modulator.AverageBalance | code/lib/svpwm_3level.c:164-239 | the averaged mode realizes the limited request exactly; the correction is the limited authority times request, and references, filters and integral are those of the controller |
| Svpwm3Level.Modulator.Cal | code/lib/svpwm_3level.c:286-432 | in both modes valid duties whose pole voltages are the radially limited request plus the reported common mode; the averaged mode applies and reports the controller, the instantaneous mode its search |
| SvpwmBalance.DrawnMoves | code/lib/svpwm_3level.c:195-202 | as long as every pole keeps its rails, moving the offset moves the drawn midpoint current by minus the sensitivity |
| SvpwmBalance.CorrectionServes | code/lib/svpwm_3level.c:203-213 | uncut, the correction moves the drawn midpoint current toward the reference by the share s^2 / (s^2 + f^2) of it |
| SvpwmBalance.AveragedModeServes | code/lib/svpwm_3level.c:164-239 | the averaged mode draws the midpoint current of the centered offset plus that share of the reference it reports |
| SvpwmBalance.InstantaneousModeServes | code/lib/svpwm_3level.c:305-407 | with a positive gain the output draws the reference against the bus difference, and no offset of any mapping comes closer by more than the tie |
| SvpwmBalance.WithoutGainUsesSigns | code/lib/svpwm_3level.c:345-361 | without a gain and with equal half buses the output is that of the sign sector |
| SvpwmBalance.ReferenceOpposes | code/lib/svpwm_3level.c:305-311 | the instantaneous reference opposes the bus difference, strictly with a positive gain |
| SvpwmBalance.RequestOpposes | code/lib/svpwm_3level.c:203-206 | without integral the averaged reference opposes the filtered bus difference |
| SvpwmBalance.FiltersApproach | code/lib/svpwm_3level.c:189-191 | both filters close the share filterCoeff of their distance to the bus difference and to the sum of current magnitudes |
| SvpwmBalance.IntegralFollows | code/lib/svpwm_3level.c:215-222 | uncut the integral follows the filtered bus difference; without authority it stands still, without gain it is cleared |
| SvpwmBalance.FloorIs | code/lib/svpwm_3level.c:197-202 | the floor times the mean half bus is the least current given or a part of the filtered one |
| SvpwmBalance.CenteredIsMidway | code/lib/svpwm_3level.c:180-195 | the centered offset leaves the same room to both rails |
| SvpwmBalance.CorrectionIsLimited | code/lib/svpwm_3level.c:207-213 | the correction respects its limit and the physical room, and is cut by nothing else |

## Left out

- CodecZero.Encode: requires the buffer to reach as far as `OverrunIsExact` says the encoder writes; what memory behind a shorter buffer holds is not modelled.
- SfraCore.Analyzer.CollectSamples: is the undisturbed call, so the overflow check after the loop is not reached in it; that check is the `Exit` step of `SfraSweep`.
- Svpwm3Level.Modulator.Cal: is over the reals with tolerances as in the source; float rounding, and the overflow ratio mentioned beside the gain limit, are not modelled.
- Msogi.Observer.Cal: is over the reals; rounding and the tangent function are not modelled, tangents are given.
- ApfI32.Design: is over the reals; the float rounding of the scaled coefficient is that of the nearest integer.
- ResonantI32.Design: is over the reals; the float rounding of the scaled coefficients is that of the nearest integer.
- TimeShare.FirstDeadlineIsExact: is for one table; for other entries the boundary within one table depends on the other periods, so `DeadlineIsExact` ranges over the tables.
- TimeShare.DeadlineIsExact: is for tables of fewer than 2^32 / 10 entries; longer ones do not fit a 32-bit address space.
- FlashIntegrity.GetU32Bytes: a null pointer and its zero result are not modelled.
- NULL-pointer guards and their return codes: buffers and objects are never null in the model.
- Aliased buffers: a codec's input is a value and its output an array; the two BCH buffers are distinct arrays.
- The DFT, its output and the complex division: a predicate says when a list of samples completes both DFTs.
- `sample_count` of the sweep ring (it is written but never read), the injected sine and the injection delay line: the sample pair pushed is an input.
- `powf` in the sweep's frequency step and `expm1f` in the modulator's filter: their results are configuration.
- The codebook identifiers, registration macros and callbacks' bodies: constants and plumbing; the dispatcher reports which entry it runs.
- The scope's variable pointers: one array holds the current values of all variables; the sample buffer is a two-dimensional array as it is declared.
- Addresses and memory of the real-time scope: an address is a number and memory a function that does not change during one sample.
- Commands of the real-time service other than stop, and its packets, identities and rate checks: each forwards to one sampler operation.
- RealtimeService.Service.Read: is one undisturbed call; `RealtimeSession.ReadsAreConsecutive` covers its pops with interrupts between them.
- Float controllers and filters, the phase-locked loop, the shell, trace, alarms and packet routing: outside the cores chosen.
