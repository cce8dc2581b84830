/** Reading fixed-width integers, booleans, varints and bitfield members off the input.
    These leaf reads are shared by the machine's steps and the grammar's denotation. */
module Wire {
  import opened Syntax
  import opened Eval
  import opened LebSpec

  /** Unsigned value of a byte string, least significant byte first. */
  function LittleEndian(bs: Bytes): (v: nat) {
    if bs == [] then 0 else bs[0] + 256 * LittleEndian(bs[1..])
  }

  /** Unsigned value of a byte string, most significant byte first. */
  function BigEndian(bs: Bytes): (v: nat) {
    if bs == [] then 0 else 256 * BigEndian(bs[..|bs| - 1]) + bs[|bs| - 1]
  }

  function Unsigned(bs: Bytes, le: bool): nat {
    if le then LittleEndian(bs) else BigEndian(bs)
  }

  /** Two's-complement reading of the low `bits` bits of v. */
  function SignExtend(v: nat, bits: nat): int {
    if bits > 0 && v >= Pow2(bits - 1) then v - Pow2(bits) else v
  }

  predicate WantLittle(e: PrimEndian, le: bool) {
    match e case LittleE => true case BigE => false case NativeE => le
  }

  /** read_primitive on an integer: 64-bit values always come back as int64. */
  function ReadInt(bs: Bytes, signed: bool, le: bool): int {
    if signed || |bs| == 8 then SignExtend(Unsigned(bs, le), 8 * |bs|) else Unsigned(bs, le)
  }

  function ByteCount(p: PrimInfo): nat {
    match p case BoolP => 1 case IntP(w, _, _) => w case UlebP(b) => b / 8 case SlebP(b) => b / 8
  }

  /** Read one primitive at pos without passing hi: the carrier, spanning what was read. */
  function ReadPrim(p: PrimInfo, input: Bytes, pos: nat, hi: nat, le: bool): (r: Option<Carrier>)
    requires hi <= |input|
    ensures r.Some? ==> r.value.start == pos && pos <= r.value.end <= hi
    ensures r.Some? && (p.IntP? ==> p.width > 0) ==> pos < r.value.end
  {
    match p
    case BoolP =>
      if pos + 1 > hi then None
      else Some(Carrier(pos, pos + 1, TBool, BoolV(input[pos] != 0), Plain))
    case IntP(w, s, e) =>
      if pos + w > hi then None
      else
        var want := WantLittle(e, le);
        Some(Carrier(pos, pos + w, TInt(w, s, w == 1 || want),
                     IntV(ReadInt(input[pos..pos + w], s, want)), Plain))
    case UlebP(bits) =>
      if pos > hi then None else
      var u := UnsignedN(bits, input[pos..hi]);
      if u.None? then None
      else Some(Carrier(pos, pos + u.value.1, TComputed,
                        IntV(if bits == 64 then SignExtend(u.value.0, 64) else u.value.0), Varint(false)))
    case SlebP(bits) =>
      if pos > hi then None else
      var u := SignedN(bits, input[pos..hi]);
      if u.None? then None
      else Some(Carrier(pos, pos + u.value.1, TComputed, IntV(u.value.0), Varint(true)))
  }

  // ── Bitfields ─────────────────────────────────────────────────────────

  predicate MsbFirst(p: PrimInfo, le: bool) {
    p.IntP? && (p.endian.BigE? || (p.endian.NativeE? && !le))
  }

  function MemberShift(total: int, msb: bool, off: nat, width: nat): int {
    if msb then total - off - width else off
  }

  /** The bits [shift, shift + width) of a container's raw value, as an unsigned number.
      The raw value may be negative (a 64-bit or signed container): `/` floors, as the
      arithmetic shift does, and `%` masks. */
  function Residue(raw: int, shift: int, width: nat): int {
    if shift < 0 then raw % Pow2(width) else (raw / Pow2(shift)) % Pow2(width)
  }

  function MemberValue(raw: int, shift: int, width: nat, signed: bool): int {
    var u := Residue(raw, shift, width);
    if width >= 64 then raw
    else if signed && width > 0 && u >= Pow2(width - 1) then u - Pow2(width) else u
  }

  /** One bitfield member at pos: the container is read in place, pos does not move. */
  function ReadMember(p: PrimInfo, width: nat, off: nat, signed: bool,
                      input: Bytes, pos: nat, hi: nat, le: bool): (r: Option<Carrier>)
    requires hi <= |input|
    ensures r.Some? ==> r.value.start == pos && r.value.end == pos + ByteCount(p) <= hi
  {
    var nb := ByteCount(p);
    if pos + nb > hi then None
    else
      var raw := if p.IntP? then ReadInt(input[pos..pos + nb], p.signed, WantLittle(p.endian, le)) else 0;
      var shift := MemberShift(8 * nb, MsbFirst(p, le), off, width);
      Some(Carrier(pos, pos + nb, TComputed, IntV(MemberValue(raw, shift, width, signed)),
                   Bits(shift, shift + width, signed)))
  }
}
