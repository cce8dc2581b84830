/** LEB128 integers: the recursive uN/sN grammars of the WebAssembly Core Specification
    (section 5.2.2) as the specification. */
module LebSpec {
  import opened Syntax
  import opened Eval

  /** uN: the value and the number of bytes read, or nothing when no encoding matches. */
  function UnsignedN(n: nat, bs: Bytes): (r: Option<(nat, nat)>)
    ensures r.Some? ==> 1 <= r.value.1 <= |bs|
  {
    if n == 0 || bs == [] then None
    else if bs[0] < 128 then (if bs[0] < Pow2(n) then Some((bs[0], 1)) else None)
    else if n <= 7 then None
    else
      var m := UnsignedN(n - 7, bs[1..]);
      if m.None? then None else Some((128 * m.value.0 + (bs[0] - 128), m.value.1 + 1))
  }

  /** sN, likewise. */
  function SignedN(n: nat, bs: Bytes): (r: Option<(int, nat)>)
    ensures r.Some? ==> 1 <= r.value.1 <= |bs|
  {
    if n == 0 || bs == [] then None
    else if bs[0] < 64 then (if bs[0] < Pow2(n - 1) then Some((bs[0], 1)) else None)
    else if bs[0] < 128 then (if bs[0] >= 128 - Pow2(n - 1) then Some((bs[0] as int - 128, 1)) else None)
    else if n <= 7 then None
    else
      var m := SignedN(n - 7, bs[1..]);
      if m.None? then None else Some((128 * m.value.0 + (bs[0] - 128), m.value.1 + 1))
  }

  lemma Pow2Seven(n: nat)
    ensures Pow2(n + 7) == 128 * Pow2(n)
  {
    assert Pow2(n + 7) == 2 * Pow2(n + 6) == 4 * Pow2(n + 5) == 8 * Pow2(n + 4);
    assert Pow2(n + 4) == 2 * Pow2(n + 3) == 4 * Pow2(n + 2) == 8 * Pow2(n + 1);
  }

  lemma {:induction false} Pow2Mono(a: nat, b: nat)
    requires a <= b
    ensures Pow2(a) <= Pow2(b)
  {
    if a < b { Pow2Mono(a, b - 1); }
  }

  lemma Pow2Small()
    ensures Pow2(0) == 1 && Pow2(1) == 2 && Pow2(2) == 4 && Pow2(3) == 8 && Pow2(4) == 16 && Pow2(5) == 32 && Pow2(6) == 64
    ensures Pow2(7) == 128 && Pow2(8) == 256
  {}

  // ── What the grammars promise ─────────────────────────────────────────

  /** Values lie in the N-bit range and at most ceil(N/7) bytes are read. */
  lemma {:induction false} UnsignedRange(n: nat, bs: Bytes)
    ensures var r := UnsignedN(n, bs); r.Some? ==> r.value.0 < Pow2(n) && r.value.1 <= (n + 6) / 7
  {
    if n > 7 && bs != [] && bs[0] >= 128 {
      UnsignedRange(n - 7, bs[1..]);
      Pow2Seven(n - 7);
    }
  }

  lemma {:induction false} SignedRange(n: nat, bs: Bytes)
    requires n > 0
    ensures var r := SignedN(n, bs); r.Some? ==> -(Pow2(n - 1) as int) <= r.value.0 < Pow2(n - 1) && r.value.1 <= (n + 6) / 7
  {
    if n > 7 && bs != [] && bs[0] >= 128 {
      SignedRange(n - 7, bs[1..]);
      Pow2Seven(n - 8);
    } else if bs != [] {
      Pow2Small();
      if n > 7 { Pow2Mono(7, n - 1); }
    }
  }

  /** The result depends on the bytes read and on nothing after them. */
  lemma {:induction false} UnsignedLocal(n: nat, bs: Bytes, rest: Bytes)
    requires UnsignedN(n, bs).Some?
    ensures UnsignedN(n, bs[..UnsignedN(n, bs).value.1] + rest) == UnsignedN(n, bs)
  {
    var k := UnsignedN(n, bs).value.1;
    var cut := bs[..k] + rest;
    if bs[0] >= 128 {
      UnsignedLocal(n - 7, bs[1..], rest);
      assert cut[1..] == bs[1..][..k - 1] + rest;
    }
  }

  lemma {:induction false} SignedLocal(n: nat, bs: Bytes, rest: Bytes)
    requires SignedN(n, bs).Some?
    ensures SignedN(n, bs[..SignedN(n, bs).value.1] + rest) == SignedN(n, bs)
  {
    var k := SignedN(n, bs).value.1;
    var cut := bs[..k] + rest;
    if bs[0] >= 128 {
      SignedLocal(n - 7, bs[1..], rest);
      assert cut[1..] == bs[1..][..k - 1] + rest;
    }
  }

  /** A non-minimal form within the width is accepted and means the same: the last byte
      continued by a zero byte. */
  lemma {:induction false} UnsignedPadded(n: nat, bs: Bytes)
    requires UnsignedN(n, bs).Some? && 7 * UnsignedN(n, bs).value.1 < n
    ensures var (v, k) := UnsignedN(n, bs).value;
            bs[k - 1] < 128 && UnsignedN(n, bs[..k - 1] + [bs[k - 1] + 128, 0]) == Some((v, k + 1))
  {
    var (v, k) := UnsignedN(n, bs).value;
    var p: Bytes := bs[..k - 1] + [if bs[k - 1] < 128 then bs[k - 1] + 128 else bs[k - 1], 0];
    if bs[0] >= 128 {
      UnsignedPadded(n - 7, bs[1..]);
      assert bs[1..][..k - 2] == bs[1..k - 1];
      assert p[1..] == bs[1..][..k - 2] + [bs[k - 1] + 128, 0];
    } else {
      assert p == [bs[0] + 128, 0] && p[1..] == [0];
      assert UnsignedN(n - 7, p[1..]) == Some((0, 1));
    }
  }

  /** So too for a signed value: the last byte continued by its sign. */
  lemma {:induction false} SignedPadded(n: nat, bs: Bytes)
    requires SignedN(n, bs).Some? && 7 * SignedN(n, bs).value.1 < n
    ensures var (v, k) := SignedN(n, bs).value;
            && bs[k - 1] < 128
            && SignedN(n, bs[..k - 1] + [bs[k - 1] + 128, if bs[k - 1] < 64 then 0 else 127]) == Some((v, k + 1))
  {
    var (v, k) := SignedN(n, bs).value;
    if bs[0] >= 128 {
      SignedPadded(n - 7, bs[1..]);
      var last := bs[k - 1];
      var p: Bytes := bs[..k - 1] + [last + 128, if last < 64 then 0 else 127];
      assert bs[1..][..k - 2] == bs[1..k - 1] && bs[1..][k - 2] == last;
      assert p[1..] == bs[1..][..k - 2] + [last + 128, if last < 64 then 0 else 127];
    } else {
      var sign: nat := if bs[0] < 64 then 0 else 127;
      var p: Bytes := bs[..k - 1] + [bs[0] + 128, sign];
      assert p == [bs[0] + 128, sign] && p[1..] == [sign];
      assert SignedN(n - 7, [sign]) == Some((if sign == 0 then 0 else -1, 1));
    }
  }
}

/** The machine's accumulator loops, proved against the grammars. */
module LebLoops {
  import opened Syntax
  import opened Eval
  import opened LebSpec
  import opened Arith

  const TWO64: nat := 0x1_0000_0000_0000_0000
  const TWO63: nat := 0x8000_0000_0000_0000

  lemma {:induction false} Pow2Times(a: nat, b: nat)
    ensures Pow2(a + b) == Pow2(a) * Pow2(b)
  {
    if a > 0 { Pow2Times(a - 1, b); }
  }

  lemma Pow2Word()
    ensures Pow2(63) == TWO63 && Pow2(64) == TWO64
  {
    assert Pow2(8) == 256;
    Pow2Times(8, 8); Pow2Times(16, 16); Pow2Times(32, 31); Pow2Times(16, 15); Pow2Times(8, 7);
    assert Pow2(64) == 2 * Pow2(63);
  }

  /** The grammar's answer, given the value gathered from i continuation bytes before. */
  function Joined(result: nat, i: nat, rest: Option<(int, nat)>): Option<(int, nat)> {
    if rest.None? then None else Some((result + Pow2(7 * i) * rest.value.0, i + rest.value.1))
  }

  /** A continuation byte in front of a decoded rest. */
  function Behind(b: nat, rest: Option<(int, nat)>): Option<(int, nat)> {
    if rest.None? then None else Some((128 * rest.value.0 + (b - 128), rest.value.1 + 1))
  }

  lemma JoinedStart(rest: Option<(int, nat)>)
    ensures Joined(0, 0, rest) == rest
  {}

  lemma JoinedStep(result: nat, i: nat, b: nat, rest: Option<(int, nat)>)
    requires b >= 128
    ensures Joined(result, i, Behind(b, rest)) == Joined(result + (b - 128) * Pow2(7 * i), i + 1, rest)
  {
    Pow2Seven(7 * i);
    if rest.Some? {
      var p, v := Pow2(7 * i), rest.value.0;
      assert Pow2(7 * (i + 1)) == 128 * p;
      assert p * (128 * v + (b - 128)) == 128 * p * v + p * (b - 128);
    }
  }

  function Widen(r: Option<(nat, nat)>): Option<(int, nat)> {
    if r.None? then None else Some((r.value.0, r.value.1))
  }

  /** One unfolding of the grammar, i bytes in. */
  function UnsignedAt(bits: nat, bs: Bytes, i: nat): (r: Option<(int, nat)>)
    requires i <= |bs|
  {
    if bits == 0 || i == |bs| then None
    else if bs[i] < 128 then (if bs[i] < Pow2(bits) then Some((bs[i], 1)) else None)
    else if bits <= 7 then None
    else Behind(bs[i], Widen(UnsignedN(bits - 7, bs[i + 1..])))
  }

  lemma UnsignedFrom(bits: nat, bs: Bytes, i: nat)
    requires i <= |bs|
    ensures Widen(UnsignedN(bits, bs[i..])) == UnsignedAt(bits, bs, i)
  {
    hide Pow2;
    if i < |bs| { assert bs[i..][1..] == bs[i + 1..]; }
  }

  // ── Words ─────────────────────────────────────────────────────────────

  /** result | (uint64)b << shift. */
  function OrShifted(result: nat, b: nat, shift: nat): int {
    Bitwise(Either, result, b * Pow2(shift) % TWO64, 64)
  }

  lemma {:induction false} OrZero(b: nat, w: nat)
    requires b < Pow2(w)
    ensures Bitwise(Either, 0, b, w) == b
  {
    if w > 0 { OrZero(b / 2, w - 1); }
  }

  /** Or adds when every bit of one side lies above every bit of the other. */
  lemma {:induction false} OrAdds(a: nat, b: nat, s: nat, w: nat)
    requires a < Pow2(s) && a + b * Pow2(s) < Pow2(w)
    ensures Bitwise(Either, a, b * Pow2(s), w) == a + b * Pow2(s)
    decreases s
  {
    if s == 0 {
      OrZero(b, w);
    } else {
      var high := b * Pow2(s - 1);
      assert b * Pow2(s) == 2 * high;
      if w == 0 {
        assert high == 0;
      } else {
        OrAdds(a / 2, b, s - 1, w - 1);
      }
    }
  }

  lemma OrShiftedAdds(result: nat, b: nat, shift: nat)
    requires result < Pow2(shift) && result + b * Pow2(shift) < TWO64
    ensures OrShifted(result, b, shift) == result + b * Pow2(shift)
  {
    Pow2Word();
    hide Pow2, Bitwise;
    OrAdds(result, b, shift, 64);
    var x := b * Pow2(shift);
    assert x % TWO64 == x;
  }

  lemma {:induction false} AndAll(b: nat, k: nat, w: nat)
    requires b < Pow2(k) && k <= w
    ensures Bitwise(Both, b, Pow2(k) - 1, w) == b
  {
    if k > 0 {
      AndAll(b / 2, k - 1, w - 1);
    } else {
      AndZero(b, w);
    }
  }

  lemma {:induction false} AndZero(b: nat, w: nat)
    ensures Bitwise(Both, b, 0, w) == 0
  {
    if w > 0 { AndZero(b / 2, w - 1); }
  }

  /** decode_uleb128 accepts exactly the uN encodings. */
  method DecodeUleb128(data: Bytes, pos: nat, len: nat, bits: nat) returns (ok: bool, out: nat, consumed: nat)
    requires len <= |data| && pos <= len && 1 <= bits <= 64
    ensures ok <==> UnsignedN(bits, data[pos..len]).Some?
    ensures ok ==> UnsignedN(bits, data[pos..len]) == Some((out, consumed))
  {
    hide Pow2, UnsignedN, OrShifted;
    ghost var bs := data[pos..len];
    var result: nat, shift: nat, i: nat := 0, 0, 0;
    var maxbytes := (bits + 6) / 7;
    out, consumed := 0, 0;
    JoinedStart(Widen(UnsignedN(bits, bs)));
    assert bs[0..] == bs;
    while i < maxbytes
      invariant 0 <= i <= maxbytes && shift == 7 * i && i <= |bs|
      invariant i == maxbytes ==> UnsignedN(bits, bs).None?
      invariant i < maxbytes ==> Widen(UnsignedN(bits, bs)) == Joined(result, i, Widen(UnsignedN(bits - 7 * i, bs[i..])))
      invariant result < Pow2(shift)
    {
      if pos + i >= len { return false, 0, 0; }
      var byte := data[pos + i];
      assert byte == bs[i];
      UnsignedFrom(bits - 7 * i, bs, i);
      Pow2Small();
      if i == maxbytes - 1 {
        if byte >= 128 { return false, 0, 0; }
        var avail := bits - shift;
        TopByte(byte, avail);
        if avail < 7 && byte / Pow2(avail) != 0 { return false, 0, 0; }
      } else {
        Pow2Mono(7, bits - 7 * i);
      }
      ghost var before := result;
      Accumulates(result, byte % 128, shift, bits);
      result := OrShifted(result, byte % 128, shift);
      if byte < 128 {
        LastByte(before, byte, i);
        return true, result, i + 1;
      }
      JoinedStep(before, i, byte, Widen(UnsignedN(bits - 7 * (i + 1), bs[i + 1..])));
      shift := shift + 7;
      i := i + 1;
    }
    return false, 0, 0;
  }

  lemma ShiftedOut(b: nat, p: nat)
    requires p > 0
    ensures b / p == 0 <==> b < p
  {}

  lemma TopByte(b: nat, avail: nat)
    requires 1 <= avail <= 7 && b < 128
    ensures (avail < 7 && b / Pow2(avail) != 0) <==> b >= Pow2(avail)
  {
    Pow2Small();
    hide Pow2;
    ShiftedOut(b, Pow2(avail));
  }

  lemma LastByte(result: nat, v: int, i: nat)
    ensures Joined(result, i, Some((v, 1))) == Some((result + v * Pow2(7 * i), i + 1))
  {}

  /** A byte's seven bits land above what has been gathered, and nothing overflows before
      the top byte has been checked to fit. */
  lemma Accumulates(result: nat, b: nat, shift: nat, bits: nat)
    requires result < Pow2(shift) && b < 128 && shift < bits <= 64
    requires shift + 7 <= bits || b < Pow2(bits - shift)
    ensures b * Pow2(shift) <= result + b * Pow2(shift) < Pow2(shift + 7)
    ensures OrShifted(result, b, shift) == result + b * Pow2(shift) < TWO64
  {
    Pow2Seven(shift);
    Pow2Word();
    hide Pow2, OrShifted;
    Spread(result, b, Pow2(shift), 128);
    if shift + 7 <= bits {
      Pow2Mono(shift + 7, 64);
    } else {
      Pow2Times(bits - shift, shift);
      assert bits - shift + shift == bits;
      Spread(result, b, Pow2(shift), Pow2(bits - shift));
      Pow2Mono(bits, 64);
    }
    OrShiftedAdds(result, b, shift);
  }

  // ── The signed loop ───────────────────────────────────────────────────

  function SignedAt(bits: nat, bs: Bytes, i: nat): (r: Option<(int, nat)>)
    requires i <= |bs|
  {
    if bits == 0 || i == |bs| then None
    else if bs[i] < 128 then (if SignedTop(bs[i], bits) then Some((SevenBits(bs[i]), 1)) else None)
    else if bits <= 7 then None
    else Behind(bs[i], SignedN(bits - 7, bs[i + 1..]))
  }

  predicate SignedTop(b: nat, n: nat)
    requires n > 0
  {
    if b < 64 then b < Pow2(n - 1) else b >= 128 - Pow2(n - 1)
  }

  /** A last byte read as a seven-bit two's-complement number. */
  function SevenBits(b: nat): int { if b < 64 then b else b - 128 }

  lemma SignedFrom(bits: nat, bs: Bytes, i: nat)
    requires i <= |bs|
    ensures SignedN(bits, bs[i..]) == SignedAt(bits, bs, i)
  {
    hide Pow2;
    if i < |bs| { assert bs[i..][1..] == bs[i + 1..]; }
  }

  /** x & ~low_mask, on the seven payload bits. */
  function AboveMask(x: nat, mask: nat): int
    requires mask < 256
  {
    Bitwise(Both, x, 255 - mask, 8)
  }

  lemma {:induction false} AndHigh(x: nat, a: nat, k: nat, w: nat)
    requires x < Pow2(a + k) && a + k <= w
    ensures Bitwise(Both, x, (Pow2(k) - 1) * Pow2(a), w) == x / Pow2(a) * Pow2(a)
    decreases a
  {
    if a == 0 {
      AndAll(x, k, w);
    } else {
      var m := (Pow2(k) - 1) * Pow2(a - 1);
      assert (Pow2(k) - 1) * Pow2(a) == 2 * m;
      AndHigh(x / 2, a - 1, k, w - 1);
      HalfThenShift(x, Pow2(a - 1));
    }
  }

  lemma HalfThenShift(x: nat, p: nat)
    requires p > 0
    ensures 2 * (x / 2 / p * p) == x / (2 * p) * (2 * p)
  {
    var q := x / 2 / p;
    assert x / 2 == q * p + x / 2 % p;
    assert x == 2 * (q * p) + (2 * (x / 2 % p) + x % 2);
    assert x / (2 * p) == q by { QuotientIs(x, 2 * p, q, 2 * (x / 2 % p) + x % 2); }
  }

  /** The final byte's unused high bits: what they hold is what they should exactly when the byte is in
      the grammar's range. */
  lemma SignedTopByte(b: nat, avail: nat)
    requires 1 <= avail <= 7 && b < 128
    ensures var mask := 127 / Pow2(7 - avail);
            && mask < 128
            && ((AboveMask(b, mask) == if b / Pow2(avail - 1) % 2 == 1 then AboveMask(127, mask) else 0)
                <==> SignedTop(b, avail))
  {
    MaskIs(avail);
    AboveIs(b, avail);
    AboveIs(127, avail);
    Pow2Small();
    hide Pow2, AboveMask;
    TopByteTable(b, avail, Pow2(avail), Pow2(avail - 1));
  }

  lemma TopByteTable(b: nat, avail: nat, p: nat, h: nat)
    requires b < 128
    requires (p, h) in {(2, 1), (4, 2), (8, 4), (16, 8), (32, 16), (64, 32), (128, 64)}
    ensures (b / p * p == if b / h % 2 == 1 then 127 / p * p else 0) <==> if b < 64 then b < h else b >= 128 - h
  {
    if h == 1 { assert (b / 2 * 2 == if b / 1 % 2 == 1 then 126 else 0) <==> if b < 64 then b < 1 else b >= 127; }
    if h == 2 { assert (b / 4 * 4 == if b / 2 % 2 == 1 then 124 else 0) <==> if b < 64 then b < 2 else b >= 126; }
    if h == 4 { assert (b / 8 * 8 == if b / 4 % 2 == 1 then 120 else 0) <==> if b < 64 then b < 4 else b >= 124; }
    if h == 8 { assert (b / 16 * 16 == if b / 8 % 2 == 1 then 112 else 0) <==> if b < 64 then b < 8 else b >= 120; }
    if h == 16 { assert (b / 32 * 32 == if b / 16 % 2 == 1 then 96 else 0) <==> if b < 64 then b < 16 else b >= 112; }
    if h == 32 { assert (b / 64 * 64 == if b / 32 % 2 == 1 then 64 else 0) <==> if b < 64 then b < 32 else b >= 96; }
    if h == 64 { assert (b / 128 * 128 == if b / 64 % 2 == 1 then 0 else 0) <==> if b < 64 then b < 64 else b >= 64; }
  }

  lemma MaskIs(avail: nat)
    requires 1 <= avail <= 7
    ensures 127 / Pow2(7 - avail) == Pow2(avail) - 1 < 128
  {
    Pow2Small();
    hide Pow2;
  }

  lemma AboveIs(b: nat, avail: nat)
    requires 1 <= avail <= 7 && b < 128
    ensures Pow2(avail) <= 128 && AboveMask(b, Pow2(avail) - 1) == b / Pow2(avail) * Pow2(avail)
  {
    Pow2Small();
    hide Pow2, Bitwise;
    HighMask(avail);
    assert avail + (8 - avail) == 8;
    AndHigh(b, avail, 8 - avail, 8);
  }

  lemma HighMask(avail: nat)
    requires 1 <= avail <= 7
    ensures Pow2(avail) <= 128 && 255 - (Pow2(avail) - 1) == (Pow2(8 - avail) - 1) * Pow2(avail)
  {
    Pow2Small();
    hide Pow2;
    if avail == 1 {} else if avail == 2 {} else if avail == 3 {} else if avail == 4 {} else if avail == 5 {} else if avail == 6 {}
  }

  function AsInt64(w: int): int { if w >= TWO63 then w - TWO64 else w }

  /** `if (shift < 64 && (byte & 0x40)) result |= ~0 << shift`, and the cast. */
  function Finished(result: int, b: nat, shift: nat): int {
    AsInt64(if shift < 64 && b >= 64 then Bitwise(Either, result, TWO64 - Pow2(shift), 64) else result)
  }

  lemma Extends(result: nat, shift: nat)
    requires result < Pow2(shift) && shift < 64
    ensures Pow2(shift) <= TWO63 && Bitwise(Either, result, TWO64 - Pow2(shift), 64) == result + TWO64 - Pow2(shift)
  {
    Pow2Word();
    hide Pow2, Bitwise;
    Pow2Mono(shift, 63);
    Pow2Times(64 - shift, shift);
    assert (Pow2(64 - shift) - 1) * Pow2(shift) == TWO64 - Pow2(shift);
    OrAdds(result, Pow2(64 - shift) - 1, shift, 64);
  }

  lemma FinishesLow(result: nat, b: nat, shift: nat)
    requires result < Pow2(shift) && b < 128 && shift <= 56
    ensures Finished(OrShifted(result, b, shift), b, shift + 7) == result + SevenBits(b) * Pow2(shift)
  {
    Pow2Word();
    hide Pow2, Bitwise, OrShifted;
    Pow2Seven(shift);
    Pow2Mono(shift + 7, 63);
    Spread(result, b, Pow2(shift), 128);
    OrShiftedAdds(result, b, shift);
    Extends(result + b * Pow2(shift), shift + 7);
    if b < 64 {} else {
      assert (b - 128) * Pow2(shift) == b * Pow2(shift) - 128 * Pow2(shift);
      Spread(0, b - 64, Pow2(shift), 64);
      assert (b - 64) * Pow2(shift) == b * Pow2(shift) - 64 * Pow2(shift);
    }
  }

  /** The tenth byte of a 64-bit form carries one bit, and it is the sign. */
  lemma FinishesTop(result: nat, b: nat)
    requires result < Pow2(63) && (b == 0 || b == 127)
    ensures Finished(OrShifted(result, b, 63), b, 70) == result + SevenBits(b) * Pow2(63)
  {
    Pow2Word();
    hide Pow2, Bitwise;
    if b == 0 {
      OrAdds(result, 0, 63, 64);
    } else {
      assert 127 * TWO63 % TWO64 == 1 * TWO63;
      OrAdds(result, 1, 63, 64);
    }
  }

  lemma Finishes(result: nat, b: nat, shift: nat, bits: nat, i: nat)
    requires result < Pow2(shift) && b < 128 && shift == 7 * i < bits <= 64
    requires bits - shift <= 7 ==> SignedTop(b, bits - shift)
    ensures Finished(OrShifted(result, b, shift), b, shift + 7) == result + SevenBits(b) * Pow2(shift)
  {
    hide Finished, OrShifted;
    if shift <= 56 {
      FinishesLow(result, b, shift);
    } else {
      assert shift == 63 && bits == 64;
      Pow2Small();
      hide Pow2;
      FinishesTop(result, b);
    }
  }

  /** The check of the last permitted byte, as decode_sleb128 spells it. */
  method TopByteInRange(byte: nat, avail: nat) returns (ok: bool)
    requires 1 <= avail <= 7 && byte < 128
    ensures ok <==> SignedTop(byte, avail)
  {
    SignedTopByte(byte, avail);
    hide AboveMask, SignedTop;
    var mask := 127 / Pow2(7 - avail);
    var high := AboveMask(byte, mask);
    var wanted := if byte / Pow2(avail - 1) % 2 == 1 then AboveMask(127, mask) else 0;
    ok := high == wanted;
  }

  /** What i continuation bytes have gathered, and what is left to decode. */
  ghost predicate Gathered(bits: nat, bs: Bytes, result: nat, i: nat) {
    && i <= |bs| && 7 * i < bits <= 64 && result < Pow2(7 * i)
    && SignedN(bits, bs) == Joined(result, i, SignedN(bits - 7 * i, bs[i..]))
  }

  lemma GatheredStart(bits: nat, bs: Bytes)
    requires 1 <= bits <= 64
    ensures Gathered(bits, bs, 0, 0)
  {
    hide SignedN;
    JoinedStart(SignedN(bits, bs));
    assert bs[0..] == bs;
  }

  lemma RunsOut(bits: nat, bs: Bytes, result: nat, i: nat)
    requires Gathered(bits, bs, result, i) && i == |bs|
    ensures SignedN(bits, bs).None?
  {
    hide Pow2, SignedN;
    SignedFrom(bits - 7 * i, bs, i);
  }

  /** The last permitted byte may not continue, and must fit. */
  lemma TopRejects(bits: nat, bs: Bytes, result: nat, i: nat)
    requires Gathered(bits, bs, result, i) && i < |bs| && bits - 7 * i <= 7
    requires bs[i] < 128 ==> !SignedTop(bs[i], bits - 7 * i)
    ensures SignedN(bits, bs).None?
  {
    hide Pow2, SignedN, SignedTop;
    SignedFrom(bits - 7 * i, bs, i);
  }

  /** A terminating byte ends the decoding with its sign spread above it. */
  lemma Terminates(bits: nat, bs: Bytes, result: nat, i: nat)
    requires Gathered(bits, bs, result, i) && i < |bs| && bs[i] < 128
    requires bits - 7 * i <= 7 ==> SignedTop(bs[i], bits - 7 * i)
    ensures SignedN(bits, bs) == Some((Finished(OrShifted(result, bs[i], 7 * i), bs[i], 7 * i + 7), i + 1))
  {
    hide Pow2, SignedN, SignedTop, OrShifted, Finished, SevenBits, Joined;
    SignedFrom(bits - 7 * i, bs, i);
    if bits - 7 * i > 7 { RoomAbove(bs[i], bits - 7 * i); }
    Finishes(result, bs[i], 7 * i, bits, i);
    LastByte(result, SevenBits(bs[i]), i);
  }

  /** A continuation byte lands above what has been gathered. */
  lemma Continues(bits: nat, bs: Bytes, result: nat, i: nat)
    requires Gathered(bits, bs, result, i) && i < |bs| && bs[i] >= 128 && bits - 7 * i > 7
    ensures OrShifted(result, bs[i] % 128, 7 * i) >= 0
    ensures Gathered(bits, bs, OrShifted(result, bs[i] % 128, 7 * i), i + 1)
  {
    hide Pow2, SignedN, OrShifted, Joined;
    SignedFrom(bits - 7 * i, bs, i);
    Accumulates(result, bs[i] % 128, 7 * i, bits);
    JoinedStep(result, i, bs[i], SignedN(bits - 7 * (i + 1), bs[i + 1..]));
  }

  /** decode_sleb128 accepts exactly the sN encodings. */
  method DecodeSleb128(data: Bytes, pos: nat, len: nat, bits: nat) returns (ok: bool, out: int, consumed: nat)
    requires len <= |data| && pos <= len && 1 <= bits <= 64
    ensures ok <==> SignedN(bits, data[pos..len]).Some?
    ensures ok ==> SignedN(bits, data[pos..len]) == Some((out, consumed))
  {
    hide Pow2, SignedN, OrShifted, Finished, SignedTop, Gathered;
    ghost var bs := data[pos..len];
    var result: nat, shift: nat, i: nat := 0, 0, 0;
    var maxbytes := (bits + 6) / 7;
    out, consumed := 0, 0;
    GatheredStart(bits, bs);
    while i < maxbytes
      invariant 0 <= i <= maxbytes && shift == 7 * i && i <= |bs|
      invariant if i < maxbytes then Gathered(bits, bs, result, i) else SignedN(bits, bs).None?
    {
      if pos + i >= len {
        RunsOut(bits, bs, result, i);
        return false, 0, 0;
      }
      var byte := data[pos + i];
      assert byte == bs[i];
      if i == maxbytes - 1 {
        var inRange := byte < 128;
        if inRange { inRange := TopByteInRange(byte, bits - shift); }
        if !inRange {
          TopRejects(bits, bs, result, i);
          return false, 0, 0;
        }
      }
      var gathered := OrShifted(result, byte % 128, shift);
      if byte < 128 {
        Terminates(bits, bs, result, i);
        return true, Finished(gathered, byte, shift + 7), i + 1;
      }
      Continues(bits, bs, result, i);
      result := gathered;
      shift := shift + 7;
      i := i + 1;
    }
    return false, 0, 0;
  }

  lemma RoomAbove(b: nat, n: nat)
    requires n > 7
    ensures b < 128 ==> SignedTop(b, n)
  {
    Pow2Small();
    Pow2Mono(7, n - 1);
  }
}
