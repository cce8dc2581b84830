/** Which bytes a value is read from: integers byte by byte in either order, and bitfield
    members by their place in the container. */
module WireLaws {
  import opened Syntax
  import opened Eval
  import opened Wire
  import opened LebSpec
  import opened LebLoops
  import opened Arith
  import opened Tiling

  /** The byte of weight 256^k of an integer, in two's complement. */
  function ByteOf(v: int, k: nat): (b: int)
    ensures 0 <= b < 256
  {
    v / Pow2(8 * k) % 256
  }

  lemma EightBits()
    ensures Pow2(8) == 256 && Pow2(0) == 1
  {
    assert Pow2(4) == 16;
  }

  lemma ByteNext(v: nat, k: nat)
    requires k > 0
    ensures ByteOf(v, k) == ByteOf(v / 256, k - 1)
  {
    EightBits();
    Pow2Times(8, 8 * (k - 1));
    hide Pow2;
    DivStep(v, Pow2(8), Pow2(8 * (k - 1)));
  }

  lemma {:induction false} LittleBytes(bs: Bytes, i: nat)
    requires i < |bs|
    ensures ByteOf(LittleEndian(bs), i) == bs[i]
  {
    EightBits();
    hide Pow2;
    var v := LittleEndian(bs);
    assert v == bs[0] + 256 * LittleEndian(bs[1..]);
    LowByte(bs[0], LittleEndian(bs[1..]));
    if i > 0 {
      ByteNext(v, i);
      LittleBytes(bs[1..], i - 1);
    } else {
      NoShift(v);
    }
  }

  lemma LowByte(b: nat, rest: nat)
    requires b < 256
    ensures (b + 256 * rest) / 256 == rest && (b + 256 * rest) % 256 == b
  {}

  lemma {:induction false} BigBytes(bs: Bytes, i: nat)
    requires i < |bs|
    ensures ByteOf(BigEndian(bs), |bs| - 1 - i) == bs[i]
  {
    EightBits();
    hide Pow2;
    var n := |bs| - 1;
    LowByte(bs[n], BigEndian(bs[..n]));
    if i < n {
      ByteNext(BigEndian(bs), n - i);
      BigBytes(bs[..n], i);
    } else {
      NoShift(BigEndian(bs));
    }
  }

  /** A multiple of the range does not reach the bytes below it. */
  lemma BytesWrap(v: int, m: int, k: nat, w: nat)
    requires k < w
    ensures ByteOf(v + m * Pow2(8 * w), k) == ByteOf(v, k)
  {
    EightBits();
    hide Pow2;
    ResidueWraps(v, m, 8 * k, 8, 8 * w);
  }

  predicate BigFirst(e: PrimEndian, le: bool) { e.BigE? || (e.NativeE? && !le) }

  /** Where an integer's i-th byte of w has its weight. */
  function PlaceOf(e: PrimEndian, le: bool, w: nat, i: nat): int {
    match e
    case LittleE => i
    case BigE => w - 1 - i
    case NativeE => if le then i else w - 1 - i
  }

  /** A fixed-width integer is read from exactly its bytes: least significant first when it
      is little-endian, most significant first when it is big-endian, and as the parse stands
      when it is native. It fails when the window is too short. */
  lemma IntegerBytes(p: PrimInfo, input: Bytes, pos: nat, hi: nat, le: bool, i: nat)
    requires hi <= |input| && p.IntP? && i < p.width
    ensures var r := ReadPrim(p, input, pos, hi, le);
            && (r.None? <==> pos + p.width > hi)
            && (r.Some? ==> r.value.val.IntV? && r.value.start == pos && r.value.end == pos + p.width)
            && (r.Some? ==> var k := PlaceOf(p.endian, le, p.width, i); 0 <= k && input[pos + i] == ByteOf(r.value.val.i, k))
            && (r.Some? ==> r.value.ty.TInt? && r.value.ty.width == p.width && r.value.ty.signed == p.signed && r.value.note == Plain
                            && (r.value.ty.le <==> p.width == 1 || !BigFirst(p.endian, le)))
  {
    hide LittleEndian, BigEndian, Pow2, ReadInt;
    var r := ReadPrim(p, input, pos, hi, le);
    if r.Some? {
      var bs := input[pos..pos + p.width];
      var want := p.endian.LittleE? || (p.endian.NativeE? && le);
      var k := if want then i else p.width - 1 - i;
      var m := RawIs(bs, p.signed, want);
      BytesWrap(Unsigned(bs, want), m, k, p.width);
      if want { LittleBytes(bs, i); } else { BigBytes(bs, i); }
      assert input[pos + i] == bs[i];
      assert r.value.val == IntV(ReadInt(bs, p.signed, want));
    }
  }

  /** Its range: signed and 64-bit integers in two's complement, all others from zero. */
  lemma IntegerRange(p: PrimInfo, input: Bytes, pos: nat, hi: nat, le: bool)
    requires hi <= |input| && p.IntP? && p.width > 0
    ensures var r := ReadPrim(p, input, pos, hi, le);
            r.Some? ==>
              if p.signed || p.width == 8 then 0 <= r.value.val.i + Pow2(8 * p.width - 1) && r.value.val.i < Pow2(8 * p.width - 1)
              else 0 <= r.value.val.i < Pow2(8 * p.width)
  {
    var r := ReadPrim(p, input, pos, hi, le);
    if r.Some? {
      var want := WantLittle(p.endian, le);
      var bs := input[pos..pos + p.width];
      UnsignedBound(bs, want);
      assert Pow2(8 * p.width) == 2 * Pow2(8 * p.width - 1);
      hide Pow2, Unsigned;
    }
  }

  /** A boolean is a byte: zero is false. */
  lemma BooleanByte(input: Bytes, pos: nat, hi: nat, le: bool)
    requires hi <= |input|
    ensures var r := ReadPrim(BoolP, input, pos, hi, le);
            && (r.None? <==> pos + 1 > hi)
            && (r.Some? ==> r.value.end == pos + 1 && r.value.val.BoolV? && (r.value.val.b <==> input[pos] > 0))
  {}

  /** A varint takes the bytes of its encoding, and a 64-bit unsigned one comes back as the
      signed integer of the same bits. */
  lemma VarintBytes(p: PrimInfo, input: Bytes, pos: nat, hi: nat, le: bool)
    requires pos <= hi <= |input| && (p.UlebP? || p.SlebP?)
    ensures var r := ReadPrim(p, input, pos, hi, le);
            var u := if p.UlebP? then UnsignedN(p.bits, input[pos..hi]) else SignedN(p.bits, input[pos..hi]);
            && (r.None? <==> u.None?)
            && (r.Some? ==> r.value.start == pos && r.value.end == pos + u.value.1 && r.value.val.IntV?
                            && r.value.note == Varint(p.SlebP?))
            && (r.Some? && p.SlebP? ==> r.value.val.i == u.value.0)
            && (r.Some? && p.UlebP? ==> (r.value.val.i == u.value.0 || r.value.val.i == u.value.0 - Pow2(64))
                                        && r.value.val.i + (if p.bits == 64 then Pow2(63) else 0) >= 0
                                        && (p.bits == 64 ==> r.value.val.i < Pow2(63))
                                        && (p.bits != 64 ==> r.value.val.i == u.value.0))
  {
    hide UnsignedN, SignedN;
    if p.UlebP? { UnsignedRange(p.bits, input[pos..hi]); }
    assert Pow2(64) == 2 * Pow2(63);
    hide Pow2;
  }

  // ── Bitfield members ──────────────────────────────────────────────────

  /** The w bytes at pos are x's, the most significant first or last. */
  predicate Spells(input: Bytes, pos: nat, w: nat, x: nat, bigFirst: bool) {
    pos + w <= |input| && forall i :: 0 <= i < w ==> SpellsAt(input, pos, w, x, bigFirst, i)
  }

  predicate SpellsAt(input: Bytes, pos: nat, w: nat, x: nat, bigFirst: bool, i: nat)
    requires pos + w <= |input| && i < w
  {
    input[pos + i] == ByteOf(x, if bigFirst then w - 1 - i else i)
  }

  /** The weight of a member's lowest bit, `off` being the widths declared before it. */
  function FirstBit(p: PrimInfo, width: nat, off: nat, le: bool): (r: nat)
    requires p.IntP? && off + width <= 8 * p.width
  {
    if BigFirst(p.endian, le) then 8 * p.width - off - width else off
  }

  /** A member is its own bits of the container, counted from the top of a big-endian
      container and from the bottom of a little-endian one; the container's bytes are the
      input's. */
  lemma MemberBits(p: PrimInfo, width: nat, off: nat, signed: bool, input: Bytes, pos: nat, hi: nat, le: bool)
    returns (x: nat, v: int)
    requires hi <= |input| && p.IntP? && 0 < width && off + width <= 8 * p.width <= 64 && pos + p.width <= hi
    ensures var r := ReadMember(p, width, off, signed, input, pos, hi, le);
            r.Some? && r.value.val == IntV(v) && r.value.start == pos && r.value.end == pos + p.width
            && r.value.note == Bits(FirstBit(p, width, off, le), FirstBit(p, width, off, le) + width, signed)
    ensures x < Pow2(8 * p.width)
    ensures Spells(input, pos, p.width, x, BigFirst(p.endian, le))
    ensures v % Pow2(width)
            == x / Pow2(FirstBit(p, width, off, le)) % Pow2(width)
  {
    hide Pow2, ReadInt, Unsigned, MemberValue, Spells;
    var bs := input[pos..pos + p.width];
    var want := WantLittle(p.endian, le);
    assert want == !BigFirst(p.endian, le);
    x := Unsigned(bs, want);
    UnsignedBound(bs, want);
    var s := MemberShift(8 * p.width, MsbFirst(p, le), off, width);
    v := MemberValue(ReadInt(bs, p.signed, want), s, width, signed);
    MemberModulo(bs, p, le, s, width, signed, 8 * p.width);
    UnsignedSpells(input, pos, p.width, want);
  }

  lemma UnsignedAt(input: Bytes, pos: nat, w: nat, little: bool, i: nat)
    requires pos + w <= |input| && i < w
    ensures SpellsAt(input, pos, w, Unsigned(input[pos..pos + w], little), !little, i)
  {
    hide LittleEndian, BigEndian, ByteOf;
    var bs := input[pos..pos + w];
    assert input[pos + i] == bs[i];
    if little { LittleBytes(bs, i); } else { BigBytes(bs, i); }
  }

  lemma UnsignedSpells(input: Bytes, pos: nat, w: nat, little: bool)
    requires pos + w <= |input|
    ensures Spells(input, pos, w, Unsigned(input[pos..pos + w], little), !little)
  {
    hide Unsigned, SpellsAt;
    var x, big := Unsigned(input[pos..pos + w], little), !little;
    forall i | 0 <= i < w ensures SpellsAt(input, pos, w, x, big, i) {
      UnsignedAt(input, pos, w, little, i);
    }
  }

  /** So the first declared member is the top bits of a big-endian container and the bottom
      bits of a little-endian one. */
  lemma FirstDeclared(p: PrimInfo, width: nat, signed: bool, input: Bytes, pos: nat, hi: nat, le: bool)
    returns (x: nat, v: int)
    requires hi <= |input| && p.IntP? && 0 < width <= 8 * p.width <= 64 && pos + p.width <= hi
    ensures ReadMember(p, width, 0, signed, input, pos, hi, le).Some? && ReadMember(p, width, 0, signed, input, pos, hi, le).value.val == IntV(v)
    ensures x < Pow2(8 * p.width)
    ensures Spells(input, pos, p.width, x, BigFirst(p.endian, le))
    ensures v % Pow2(width) == if BigFirst(p.endian, le) then x / Pow2(8 * p.width - width) else x % Pow2(width)
  {
    hide ReadMember, Spells, Pow2, BigFirst;
    x, v := MemberBits(p, width, 0, signed, input, pos, hi, le);
    EightBits();
    TopBits(x, 8 * p.width, width);
    NoShift(x);
  }

  lemma TopBits(x: nat, total: nat, width: nat)
    requires width <= total && x < Pow2(total)
    ensures x / Pow2(total - width) < Pow2(width)
    ensures x / Pow2(total - width) % Pow2(width) == x / Pow2(total - width)
  {
    Pow2Times(total - width, width);
    hide Pow2;
    var d, pw := Pow2(total - width), Pow2(width);
    DivStep(x, d, pw);
    ModSmall(x, d * pw);
    Whole(x / d, pw);
  }

  lemma NoShift(x: int)
    ensures x / 1 == x
  {}

  lemma Whole(q: nat, d: nat)
    requires d > 0 && q / d == 0
    ensures q < d && q % d == q
  {}
}
