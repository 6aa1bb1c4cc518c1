/**
  CRC-32/ISO-HDLC over bytes, least significant bit first, and little-endian
  words (code/lib/flash_integrity.c); the checksum of section 8 of RFC 1952.

  One bit step is an invertible linear map of the register, which is
  why a burst of errors within four bytes never goes unnoticed.
*/
module FlashIntegrity {

  const REFLECTED: bv32 := 0xEDB88320

  function Xor32(a: bv32, b: bv32): bv32 {
    a ^ b
  }

  /** One bit of the register. */
  function BitStep(c: bv32): bv32 {
    if Odd(c) then Xor32(c >> 1, REFLECTED) else c >> 1
  }

  function BitSteps(c: bv32, n: nat): bv32
    decreases n, c
  {
    if n == 0 then c else BitSteps(BitStep(c), n - 1)
  }

  function ByteStep(c: bv32, b: bv8): bv32 {
    BitSteps(Xor32(c, b as bv32), 8)
  }

  function Register(c: bv32, data: seq<bv8>): bv32
    decreases data
  {
    if data == [] then c else Register(ByteStep(c, data[0]), data[1..])
  }

  function Crc32(data: seq<bv8>): bv32 {
    Xor32(Register(0xFFFFFFFF, data), 0xFFFFFFFF)
  }

  // ----- Exclusive-or -----

  lemma XorAssoc(a: bv32, b: bv32, c: bv32)
    ensures Xor32(Xor32(a, b), c) == Xor32(a, Xor32(b, c))
  {
  }

  lemma XorComm(a: bv32, b: bv32)
    ensures Xor32(a, b) == Xor32(b, a)
  {
  }

  lemma XorZero(a: bv32)
    ensures Xor32(a, 0) == a && Xor32(0, a) == a && Xor32(a, a) == 0
  {
  }

  lemma XorSwap(a: bv32, b: bv32, c: bv32, d: bv32)
    ensures Xor32(Xor32(a, b), Xor32(c, d)) == Xor32(Xor32(a, c), Xor32(b, d))
  {
    XorAssoc(a, b, Xor32(c, d));
    XorAssoc(b, c, d);
    XorComm(b, c);
    XorAssoc(c, b, d);
    XorAssoc(a, c, Xor32(b, d));
  }

  lemma XorUndo(a: bv32, b: bv32)
    ensures Xor32(Xor32(a, b), b) == a
  {
  }

  lemma XorSelf(a: bv32)
    ensures Xor32(a, a) == 0 && Xor32(0, a) == a
  {
  }

  lemma XorCancel(a: bv32, b: bv32)
    ensures Xor32(Xor32(a, b), b) == a
    ensures Xor32(a, b) == 0 <==> a == b
  {
    XorUndo(a, b);
    XorSelf(b);
  }

  // ----- Each bit step is linear and invertible -----

  predicate Odd(a: bv32) {
    a & 1 != 0
  }

  lemma OddXor(a: bv32, b: bv32)
    ensures Odd(Xor32(a, b)) <==> Odd(a) != Odd(b)
  {
    var sa, sb, sc := a & 1, b & 1, (a ^ b) & 1;
    assert sc == sa ^ sb;
    if sa == 0 {
      if sb == 0 { assert sc == 0; } else { assert sb == 1; assert sc == 1; }
    } else {
      assert sa == 1;
      if sb == 0 { assert sc == 1; } else { assert sb == 1; assert sc == 0; }
    }
  }

  lemma BitStepLinear(a: bv32, b: bv32)
    ensures BitStep(Xor32(a, b)) == Xor32(BitStep(a), BitStep(b))
  {
    var ha, hb := a >> 1, b >> 1;
    calc {
      Xor32(a, b) >> 1;
      (a ^ b) >> 1;
      (a >> 1) ^ (b >> 1);
      Xor32(ha, hb);
    }
    OddXor(a, b);
    XorSwap(ha, REFLECTED, hb, REFLECTED);
    XorZero(REFLECTED);
    XorZero(Xor32(ha, hb));
    XorAssoc(ha, hb, REFLECTED);
    XorAssoc(ha, REFLECTED, hb);
    XorComm(hb, REFLECTED);
  }

  function UnStep(c: bv32): bv32 {
    if c & 0x80000000 != 0 then ((c ^ REFLECTED) << 1) | 1 else c << 1
  }

  lemma UnStepUndoes(c: bv32)
    ensures UnStep(BitStep(c)) == c
  {
  }

  lemma {:induction false} BitStepsInjective(a: bv32, b: bv32, n: nat)
    requires BitSteps(a, n) == BitSteps(b, n)
    ensures a == b
    decreases n
  {
    if n > 0 {
      BitStepsInjective(BitStep(a), BitStep(b), n - 1);
      UnStepUndoes(a);
      UnStepUndoes(b);
    }
  }

  lemma {:induction false} BitStepsLinear(a: bv32, b: bv32, n: nat)
    ensures BitSteps(Xor32(a, b), n) == Xor32(BitSteps(a, n), BitSteps(b, n))
    decreases n
  {
    if n > 0 {
      BitStepLinear(a, b);
      BitStepsLinear(BitStep(a), BitStep(b), n - 1);
    }
  }

  predicate TopFree(x: bv32) {
    x & 0xFF000000 == 0
  }

  function Up8(x: bv32): bv32 {
    x << 8
  }

  predicate IsHalf(c: bv32, h: bv32) {
    c & 1 == 0 && c >> 1 == h
  }

  lemma EvenStep(c: bv32, d: bv32, n: nat)
    requires IsHalf(c, d)
    ensures BitSteps(c, n + 1) == BitSteps(d, n)
  {
    assert !Odd(c);
  }

  lemma HalvingChain(c8: bv32, c7: bv32, c6: bv32, c5: bv32, c4: bv32, c3: bv32, c2: bv32, c1: bv32, c0: bv32)
    requires IsHalf(c8, c7) && IsHalf(c7, c6) && IsHalf(c6, c5) && IsHalf(c5, c4)
    requires IsHalf(c4, c3) && IsHalf(c3, c2) && IsHalf(c2, c1) && IsHalf(c1, c0)
    ensures BitSteps(c8, 8) == c0
  {
    EvenStep(c8, c7, 7);
    EvenStep(c7, c6, 6);
    EvenStep(c6, c5, 5);
    EvenStep(c5, c4, 4);
    EvenStep(c4, c3, 3);
    EvenStep(c3, c2, 2);
    EvenStep(c2, c1, 1);
    EvenStep(c1, c0, 0);
  }

  lemma ShiftsAreHalves(d: bv32)
    requires d & 0xFF000000 == 0
    ensures IsHalf(d << 8, d << 7) && IsHalf(d << 7, d << 6) && IsHalf(d << 6, d << 5) && IsHalf(d << 5, d << 4)
    ensures IsHalf(d << 4, d << 3) && IsHalf(d << 3, d << 2) && IsHalf(d << 2, d << 1) && IsHalf(d << 1, d)
  {
  }

  /** Bits that have not reached the bottom are only shifted. */
  lemma ShiftedByte(d: bv32)
    requires TopFree(d)
    ensures BitSteps(Up8(d), 8) == d
  {
    ShiftsAreHalves(d);
    HalvingChain(d << 8, d << 7, d << 6, d << 5, d << 4, d << 3, d << 2, d << 1, d);
  }

  // ----- Burst detection -----

  /** Up to four bytes as one little-endian word. */
  function Pack(data: seq<bv8>): bv32
    requires |data| <= 4
    decreases data
  {
    if data == [] then 0 else Xor32(data[0] as bv32, Up8(Pack(data[1..])))
  }

  /** `x` has no bit at or above byte `k`. */
  predicate Below(x: bv32, k: nat)
    requires k <= 4
  {
    x & (if k == 0 then 0xFFFFFFFF else if k == 1 then 0xFFFFFF00 else if k == 2 then 0xFFFF0000
         else if k == 3 then 0xFF000000 else 0) == 0
  }

  lemma BelowStep(b: bv8, x: bv32, k: nat)
    requires k < 4 && Below(x, k)
    ensures Below(Xor32(b as bv32, Up8(x)), k + 1)
  {
  }

  lemma {:induction false} PackBelow(data: seq<bv8>)
    requires |data| <= 4
    ensures Below(Pack(data), |data|)
    decreases data
  {
    if data != [] {
      PackBelow(data[1..]);
      BelowStep(data[0], Pack(data[1..]), |data| - 1);
    }
  }

  lemma UpXor(a: bv32, b: bv32)
    ensures Up8(Xor32(a, b)) == Xor32(Up8(a), Up8(b))
  {
    assert (a ^ b) << 8 == (a << 8) ^ (b << 8);
  }

  lemma TopFreeXor(a: bv32, b: bv32)
    requires TopFree(a) && TopFree(b)
    ensures TopFree(Xor32(a, b))
  {
    assert (a ^ b) & 0xFF000000 == (a & 0xFF000000) ^ (b & 0xFF000000);
  }

  lemma PackTopFree(data: seq<bv8>)
    requires |data| <= 3
    ensures TopFree(Pack(data))
  {
    PackBelow(data);
    BelowTop(Pack(data), |data|);
  }

  lemma BelowTop(x: bv32, k: nat)
    requires k <= 3 && Below(x, k)
    ensures TopFree(x)
  {
  }

  /** Running one byte backwards from a difference that leaves the top byte free. */
  lemma OneByteBack(x: bv32, y: bv32, p: bv32, q: bv32)
    requires Xor32(BitSteps(x, 8), BitSteps(y, 8)) == Xor32(p, q)
    requires TopFree(p) && TopFree(q)
    ensures Xor32(x, y) == Xor32(Up8(p), Up8(q))
  {
    var d := Xor32(p, q);
    TopFreeXor(p, q);
    ShiftedByte(d);
    BitStepsLinear(x, y, 8);
    BitStepsInjective(Xor32(x, y), Up8(d), 8);
    UpXor(p, q);
  }

  /** Registers that meet after at most four bytes differed exactly by the packed bytes. */
  lemma {:induction false} MeetingRegisters(a: bv32, b: bv32, m: seq<bv8>, n: seq<bv8>)
    requires |m| == |n| <= 4 && Register(a, m) == Register(b, n)
    ensures Xor32(a, b) == Xor32(Pack(m), Pack(n))
    decreases |m|
  {
    if m == [] {
      XorZero(a);
      XorZero(0);
    } else {
      var s, t := m[0] as bv32, n[0] as bv32;
      var p, q := Pack(m[1..]), Pack(n[1..]);
      MeetingRegisters(ByteStep(a, m[0]), ByteStep(b, n[0]), m[1..], n[1..]);
      PackTopFree(m[1..]);
      PackTopFree(n[1..]);
      OneByteBack(Xor32(a, s), Xor32(b, t), p, q);
      UnmixFirst(a, b, s, t, Up8(p), Up8(q));
    }
  }

  lemma UnmixFirst(a: bv32, b: bv32, s: bv32, t: bv32, p: bv32, q: bv32)
    requires Xor32(Xor32(a, s), Xor32(b, t)) == Xor32(p, q)
    ensures Xor32(a, b) == Xor32(Xor32(s, p), Xor32(t, q))
  {
    XorSwap(a, s, b, t);
    XorCancel(Xor32(a, b), Xor32(s, t));
    XorSwap(s, p, t, q);
    XorComm(Xor32(p, q), Xor32(s, t));
  }

  lemma PackFirst(b: bv8, c: bv8, x: bv32, y: bv32)
    requires TopFree(x) && TopFree(y)
    requires Xor32(b as bv32, Up8(x)) == Xor32(c as bv32, Up8(y))
    ensures b == c && x == y
  {
  }

  lemma PackFirstBytes(m: seq<bv8>, n: seq<bv8>)
    requires 0 < |m| == |n| <= 4 && Pack(m) == Pack(n)
    ensures m[0] == n[0] && Pack(m[1..]) == Pack(n[1..])
  {
    PackTopFree(m[1..]);
    PackTopFree(n[1..]);
    PackFirst(m[0], n[0], Pack(m[1..]), Pack(n[1..]));
  }

  lemma {:induction false} PackInjective(m: seq<bv8>, n: seq<bv8>)
    requires |m| == |n| <= 4 && Pack(m) == Pack(n)
    ensures m == n
    decreases |m|
  {
    if m != [] {
      PackFirstBytes(m, n);
      PackInjective(m[1..], n[1..]);
      assert m == [m[0]] + m[1..] && n == [n[0]] + n[1..];
    }
  }

  lemma {:induction false} RegisterConcat(c: bv32, a: seq<bv8>, b: seq<bv8>)
    ensures Register(c, a + b) == Register(Register(c, a), b)
    decreases |a|
  {
    if a == [] {
      assert a + b == b;
    } else {
      assert (a + b)[1..] == a[1..] + b;
      RegisterConcat(ByteStep(c, a[0]), a[1..], b);
    }
  }

  /** Different registers stay different over a common tail. */
  lemma {:induction false} RegisterInjective(a: bv32, b: bv32, data: seq<bv8>)
    requires Register(a, data) == Register(b, data)
    ensures a == b
    decreases |data|
  {
    if data != [] {
      var d := data[0] as bv32;
      RegisterInjective(ByteStep(a, data[0]), ByteStep(b, data[0]), data[1..]);
      BitStepsInjective(Xor32(a, d), Xor32(b, d), 8);
      XorCancel(a, d);
      XorCancel(b, d);
    }
  }

  /** Messages that differ only within at most four consecutive bytes have different checksums. */
  lemma DetectsBurst(prefix: seq<bv8>, m: seq<bv8>, n: seq<bv8>, suffix: seq<bv8>)
    requires |m| == |n| <= 4 && m != n
    ensures Crc32(prefix + m + suffix) != Crc32(prefix + n + suffix)
  {
    var init: bv32 := 0xFFFFFFFF;
    var c := Register(init, prefix);
    RegisterConcat(init, prefix, m);
    RegisterConcat(init, prefix, n);
    RegisterConcat(init, prefix + m, suffix);
    RegisterConcat(init, prefix + n, suffix);
    if Crc32(prefix + m + suffix) == Crc32(prefix + n + suffix) {
      XorCancel(Register(init, prefix + m + suffix), init);
      XorCancel(Register(init, prefix + n + suffix), init);
      RegisterInjective(Register(c, m), Register(c, n), suffix);
      MeetingRegisters(c, c, m, n);
      XorZero(c);
      XorCancel(Pack(m), Pack(n));
      PackInjective(m, n);
    }
  }

  // ----- The source's loops -----

  /** One byte through the register, bit by bit. */
  method FeedByte(crc: bv32, b: bv8) returns (next: bv32)
    ensures next == ByteStep(crc, b)
  {
    next := Xor32(crc, b as bv32);
    for bit := 0 to 8
      invariant BitSteps(next, 8 - bit) == ByteStep(crc, b)
    {
      var mask: bv32 := if Odd(next) then 0xFFFFFFFF else 0;
      MaskedStep(next, mask);
      next := Xor32(next >> 1, REFLECTED & mask);
    }
  }

  lemma MaskedStep(c: bv32, mask: bv32)
    requires mask == if Odd(c) then 0xFFFFFFFF else 0
    ensures Xor32(c >> 1, REFLECTED & mask) == BitStep(c)
  {
    XorZero(c >> 1);
    assert REFLECTED & 0xFFFFFFFF == REFLECTED;
    assert REFLECTED & 0 == 0;
  }

  method ComputeCrc32(data: seq<bv8>) returns (result: bv32)
    ensures result == Crc32(data)
  {
    var crc: bv32 := 0xFFFFFFFF;
    assert data[..0] == [];
    for i := 0 to |data|
      invariant crc == Register(0xFFFFFFFF, data[..i])
    {
      assert data[..i + 1] == data[..i] + [data[i]];
      RegisterConcat(0xFFFFFFFF, data[..i], [data[i]]);
      RegisterOne(crc, data[i]);
      crc := FeedByte(crc, data[i]);
    }
    assert data[..|data|] == data;
    result := Xor32(crc, 0xFFFFFFFF);
  }

  lemma RegisterOne(c: bv32, b: bv8)
    ensures Register(c, [b]) == ByteStep(c, b)
  {
    assert [b][1..] == [];
  }

  // ----- Little-endian words -----

  function GetU32(p: seq<bv8>): bv32
    requires |p| >= 4
  {
    (p[0] as bv32) | ((p[1] as bv32) << 8) | ((p[2] as bv32) << 16) | ((p[3] as bv32) << 24)
  }

  method PutU32(p: array<bv8>, value: bv32)
    requires p.Length >= 4
    modifies p
    ensures GetU32(p[..]) == value
    ensures p[4..] == old(p[4..])
  {
    p[0] := (value & 0xFF) as bv8;
    p[1] := ((value >> 8) & 0xFF) as bv8;
    p[2] := ((value >> 16) & 0xFF) as bv8;
    p[3] := ((value >> 24) & 0xFF) as bv8;
    BytesJoin(value, p[0], p[1], p[2], p[3]);
  }

  lemma BytesJoin(value: bv32, a: bv8, b: bv8, c: bv8, d: bv8)
    requires a == (value & 0xFF) as bv8 && b == ((value >> 8) & 0xFF) as bv8
    requires c == ((value >> 16) & 0xFF) as bv8 && d == ((value >> 24) & 0xFF) as bv8
    ensures (a as bv32) | ((b as bv32) << 8) | ((c as bv32) << 16) | ((d as bv32) << 24) == value
  {
  }

  /** What `PutU32` stores of a word that was read is what was read. */
  lemma GetU32Bytes(p: seq<bv8>)
    requires |p| >= 4
    ensures var v := GetU32(p);
      && p[0] == (v & 0xFF) as bv8
      && p[1] == ((v >> 8) & 0xFF) as bv8
      && p[2] == ((v >> 16) & 0xFF) as bv8
      && p[3] == ((v >> 24) & 0xFF) as bv8
  {
  }
}
