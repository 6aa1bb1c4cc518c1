/** What the four byte codecs share: limits, block copies and bounded output. */
module CodecCommon {

  import opened Machine

  /** Lengths and limits are 16-bit in the source. */
  const U16: nat := 65536

  /** Copy a run of input bytes into the output buffer. */
  method CopyInto(output: array<byte>, at: nat, source: seq<byte>)
    requires at + |source| <= output.Length
    modifies output
    ensures output[..at] == old(output[..at])
    ensures output[at..at + |source|] == source
    ensures output[..at + |source|] == old(output[..at]) + source
  {
    for i := 0 to |source|
      invariant output[..at] == old(output[..at])
      invariant forall k :: 0 <= k < i ==> output[at + k] == source[k]
    {
      output[at + i] := source[i];
    }
    assert output[..at + |source|] == output[..at] + output[at..at + |source|];
  }

  /** Within the capacity and strictly below the exclusive limit. */
  predicate Fits(total: nat, capacity: nat, limit: nat) {
    total <= capacity && total < limit
  }

  /** Append one token to output[..at] if it fits. */
  method Emit(output: array<byte>, at: nat, token: seq<byte>, capacity: nat, limit: nat) returns (ok: bool, next: nat)
    requires at <= capacity <= output.Length
    modifies output
    ensures ok <==> Fits(at + |token|, capacity, limit)
    ensures ok ==> next == at + |token|
    ensures ok ==> next <= capacity && output[..next] == old(output[..at]) + token
  {
    next := at;
    if at + |token| > capacity {
      return false, next;
    }
    if at + |token| >= limit {
      return false, next;
    }
    CopyInto(output, at, token);
    next := at + |token|;
    ok := true;
  }
}
