/** Accepted bitfields tile their container: in both bit orders the members, weighted by
    their positions, add back up to the container's unsigned value. */
module Tiling {
  import opened Syntax
  import opened Eval
  import opened Wire
  import opened LebSpec
  import opened LebLoops
  import opened Arith
  import opened Machine
  import opened Denote

  // ── What the static check accepts (Sema.cpp) ──────────────────────────

  function WidthSum(es: seq<Entry>): nat {
    if es == [] then 0 else es[0].width + WidthSum(es[1..])
  }

  predicate DistinctNames(es: seq<Entry>) {
    forall i, j :: 0 <= i < j < |es| ==> es[i].name != es[j].name
  }

  predicate Accepted(p: PrimInfo, es: seq<Entry>) {
    && p.IntP? && FixedWidth(p.width)
    && (forall i :: 0 <= i < |es| ==> es[i].width > 0)
    && DistinctNames(es)
    && WidthSum(es) == 8 * p.width
  }

  lemma {:induction false} WidthSumSnoc(es: seq<Entry>, e: Entry)
    ensures WidthSum(es + [e]) == WidthSum(es) + e.width
  {
    if es == [] {
      assert ([] + [e])[1..] == [];
    } else {
      assert (es + [e])[1..] == es[1..] + [e];
      WidthSumSnoc(es[1..], e);
    }
  }

  /** The bitfield case of validate_type: one pass that counts bits and collects names. */
  method CheckBitfield(p: PrimInfo, es: seq<Entry>) returns (ok: bool)
    requires p.IntP? ==> FixedWidth(p.width)
    ensures ok <==> Accepted(p, es)
  {
    if !p.IntP? { return false; }
    var expected := 8 * p.width;
    var total, names: set<Name>, errors := 0, {}, 0;
    for i := 0 to |es|
      invariant total == WidthSum(es[..i]) && errors >= 0
      invariant names == set k | 0 <= k < i :: es[k].name
      invariant errors == 0 <==> DistinctNames(es[..i]) && forall k :: 0 <= k < i ==> es[k].width > 0
    {
      var e := es[i];
      assert es[..i + 1] == es[..i] + [e];
      WidthSumSnoc(es[..i], e);
      if e.width <= 0 { errors := errors + 1; }
      if e.name in names { errors := errors + 1; }
      names := names + {e.name};
      total := total + e.width;
    }
    assert es[..|es|] == es;
    ok := errors == 0 && total == expected;
  }

  // ── Arithmetic of shifts and masks ────────────────────────────────────

  lemma PowStep(x: nat, s: nat, w: nat)
    ensures x / Pow2(s) / Pow2(w) == x / Pow2(s + w)
    ensures x / Pow2(s) % Pow2(w) * Pow2(s) + x % Pow2(s) == x % Pow2(s + w)
  {
    Pow2Times(s, w);
    DivStep(x, Pow2(s), Pow2(w));
  }

  /** A multiple of the container's range does not reach the bits of a member. */
  lemma ResidueWraps(x: int, k: int, s: nat, w: nat, total: nat)
    requires s + w <= total
    ensures Residue(x + k * Pow2(total), s, w) == Residue(x, s, w)
  {
    hide Pow2;
    var above := total - s - w;
    Pow2Times(s, w + above);
    Pow2Times(w, above);
    assert total == s + (w + above);
    var ps, pw, pa := Pow2(s), Pow2(w), Pow2(above);
    assert k * (ps * (pw * pa)) == (k * (pw * pa)) * ps;
    FloorShift(x, k * (pw * pa), ps);
    assert k * (pw * pa) == (k * pa) * pw;
    FloorShift(x / ps, k * pa, pw);
  }

  // ── The tiling ────────────────────────────────────────────────────────

  /** The members' residues, each weighted by 2 to its shift. */
  function Weighted(x: int, es: seq<Entry>, off: nat, total: nat, msb: bool): int
    requires off + WidthSum(es) == total
  {
    if es == [] then 0
    else
      var s := MemberShift(total, msb, off, es[0].width);
      Residue(x, s, es[0].width) * Pow2(s) + Weighted(x, es[1..], off + es[0].width, total, msb)
  }

  lemma {:induction false} WeightedFrom(x: nat, es: seq<Entry>, off: nat, total: nat, msb: bool)
    requires off + WidthSum(es) == total && x < Pow2(total)
    ensures Weighted(x, es, off, total, msb) == if msb then x % Pow2(total - off) else x - x % Pow2(off)
    decreases |es|
  {
    if es == [] {
      assert Pow2(0) == 1;
      hide Pow2;
      ModSmall(x, Pow2(total));
    } else {
      hide Pow2;
      var w := es[0].width;
      var s := MemberShift(total, msb, off, w);
      assert s >= 0;
      WeightedFrom(x, es[1..], off + w, total, msb);
      PowStep(x, s, w);
      assert total - off == total - off - w + w;
    }
  }

  /** In both bit orders the residues add up to the container. */
  lemma Tiles(x: nat, es: seq<Entry>, total: nat, msb: bool)
    requires WidthSum(es) == total && x < Pow2(total)
    ensures Weighted(x, es, 0, total, msb) == x
  {
    assert Pow2(0) == 1;
    hide Pow2, Weighted;
    WeightedFrom(x, es, 0, total, msb);
    ModSmall(x, Pow2(total));
  }

  // ── Packing is the inverse ────────────────────────────────────────────

  function Pack(vs: seq<nat>, es: seq<Entry>, off: nat, total: nat, msb: bool): nat
    requires |vs| == |es| && off + WidthSum(es) == total
  {
    if es == [] then 0
    else vs[0] * Pow2(MemberShift(total, msb, off, es[0].width))
         + Pack(vs[1..], es[1..], off + es[0].width, total, msb)
  }

  /** The widths declared before member i. */
  function OffsetBefore(es: seq<Entry>, i: nat): nat
    requires i <= |es|
  {
    WidthSum(es[..i])
  }

  predicate Fits(vs: seq<nat>, es: seq<Entry>) {
    |vs| == |es| && forall i :: 0 <= i < |es| ==> vs[i] < Pow2(es[i].width)
  }

  /** Most significant first: members from offset `off` on fill the bits below total - off. */
  lemma {:induction false} PackedBelow(vs: seq<nat>, es: seq<Entry>, off: nat, total: nat)
    requires Fits(vs, es) && off + WidthSum(es) == total
    ensures Pack(vs, es, off, total, true) < Pow2(total - off)
    decreases |es|
  {
    if es == [] {
      assert Pow2(0) == 1;
    } else {
      hide Pow2;
      var w := es[0].width;
      var low := total - off - w;
      var rest := Pack(vs[1..], es[1..], off + w, total, true);
      PackedBelow(vs[1..], es[1..], off + w, total);
      Spread(rest, vs[0], Pow2(low), Pow2(w));
      Pow2Times(w, low);
      assert w + low == total - off;
    }
  }

  /** Least significant first: they fill whole multiples of 2 to the offset. */
  lemma {:induction false} PackedAbove(vs: seq<nat>, es: seq<Entry>, off: nat, total: nat) returns (q: nat)
    requires Fits(vs, es) && off + WidthSum(es) == total
    ensures Pack(vs, es, off, total, false) == q * Pow2(off) && q < Pow2(total - off)
    decreases |es|
  {
    if es == [] {
      assert Pow2(0) == 1;
      q := 0;
    } else {
      hide Pow2;
      var w := es[0].width;
      var above := total - off - w;
      var q1 := PackedAbove(vs[1..], es[1..], off + w, total);
      q := vs[0] + q1 * Pow2(w);
      Pow2Times(w, off);
      assert w + off == off + w;
      Regroup(vs[0], q1, Pow2(w), Pow2(off));
      Spread(vs[0], q1, Pow2(w), Pow2(above));
      Pow2Times(above, w);
      assert above + w == total - off;
    }
  }

  /** A digit between lower bits and a multiple of what lies above it is read back. */
  lemma DigitBetween(low: nat, v: nat, high: nat, s: nat, w: nat)
    requires low < Pow2(s) && v < Pow2(w)
    ensures Residue(low + v * Pow2(s) + high * Pow2(s + w), s, w) == v
  {
    hide Pow2;
    Pow2Times(w, s);
    assert w + s == s + w;
    Regroup(v, high, Pow2(w), Pow2(s));
    var q := v + high * Pow2(w);
    QuotientIs(low + q * Pow2(s), Pow2(s), q, low);
    QuotientIs(q, Pow2(w), high, v);
  }

  lemma {:induction false} OffsetFits(es: seq<Entry>, i: nat)
    requires i < |es|
    ensures OffsetBefore(es, i) + es[i].width <= WidthSum(es)
    ensures i > 0 ==> OffsetBefore(es, i) == es[0].width + OffsetBefore(es[1..], i - 1)
  {
    if i > 0 {
      assert es[..i][1..] == es[1..][..i - 1];
      OffsetFits(es[1..], i - 1);
    }
  }

  /** Whatever lies in the bits already packed, member i's digit is where extraction
      looks for it. */
  lemma {:induction false} UnpackLsb(vs: seq<nat>, es: seq<Entry>, off: nat, total: nat, before: nat, i: nat)
    requires Fits(vs, es) && off + WidthSum(es) == total && i < |es| && before < Pow2(off)
    ensures Residue(before + Pack(vs, es, off, total, false), off + OffsetBefore(es, i), es[i].width) == vs[i]
    decreases |es|
  {
    hide Pow2, Residue;
    var w := es[0].width;
    var rest := Pack(vs[1..], es[1..], off + w, total, false);
    OffsetFits(es, i);
    if i == 0 {
      var q := PackedAbove(vs[1..], es[1..], off + w, total);
      DigitBetween(before, vs[0], q, off, w);
    } else {
      var first := vs[0] * Pow2(off);
      Spread(before, vs[0], Pow2(off), Pow2(w));
      Pow2Times(w, off);
      assert w + off == off + w;
      UnpackLsb(vs[1..], es[1..], off + w, total, before + first, i - 1);
      assert before + Pack(vs, es, off, total, false) == before + first + rest;
    }
  }

  lemma {:induction false} UnpackMsb(vs: seq<nat>, es: seq<Entry>, off: nat, total: nat, before: nat, i: nat)
    requires Fits(vs, es) && off + WidthSum(es) == total && i < |es|
    ensures off + OffsetBefore(es, i) + es[i].width <= total
    ensures Residue(before * Pow2(total - off) + Pack(vs, es, off, total, true),
                    total - (off + OffsetBefore(es, i)) - es[i].width, es[i].width) == vs[i]
    decreases |es|
  {
    hide Pow2, Residue;
    var w := es[0].width;
    var low := total - off - w;
    var rest := Pack(vs[1..], es[1..], off + w, total, true);
    OffsetFits(es, i);
    assert low + w == w + low == total - off;
    if i == 0 {
      PackedBelow(vs[1..], es[1..], off + w, total);
      DigitBetween(rest, vs[0], before, low, w);
    } else {
      Pow2Times(w, low);
      Regroup(vs[0], before, Pow2(w), Pow2(low));
      UnpackMsb(vs[1..], es[1..], off + w, total, vs[0] + before * Pow2(w), i - 1);
      assert before * Pow2(total - off) + Pack(vs, es, off, total, true)
             == (vs[0] + before * Pow2(w)) * Pow2(low) + rest;
    }
  }

  /** Extracting from a packed container gives every member back. */
  lemma PackThenExtract(vs: seq<nat>, es: seq<Entry>, msb: bool, i: nat)
    requires Fits(vs, es) && i < |es|
    ensures var total := WidthSum(es);
            Pack(vs, es, 0, total, msb) < Pow2(total)
            && Residue(Pack(vs, es, 0, total, msb), MemberShift(total, msb, OffsetBefore(es, i), es[i].width), es[i].width) == vs[i]
  {
    assert Pow2(0) == 1;
    hide Pow2, Pack, Residue;
    if msb {
      PackedBelow(vs, es, 0, WidthSum(es));
      UnpackMsb(vs, es, 0, WidthSum(es), 0, i);
    } else {
      var q := PackedAbove(vs, es, 0, WidthSum(es));
      UnpackLsb(vs, es, 0, WidthSum(es), 0, i);
    }
  }

  // ── What a parse binds ────────────────────────────────────────────────

  lemma {:induction false} UnsignedBound(bs: Bytes, le: bool)
    ensures Unsigned(bs, le) < Pow2(8 * |bs|)
  {
    if bs == [] {
      assert Pow2(0) == 1;
    } else {
      var n := |bs| - 1;
      if le { UnsignedBound(bs[1..], le); } else { UnsignedBound(bs[..n], le); }
      Pow2Seven(8 * n);
      assert 8 * |bs| == 8 * n + 7 + 1 && Pow2(8 * n + 8) == 2 * Pow2(8 * n + 7);
    }
  }

  /** The raw container may be negative, but it is the unsigned value modulo its range. */
  lemma RawIs(bs: Bytes, signed: bool, le: bool) returns (k: int)
    ensures ReadInt(bs, signed, le) == Unsigned(bs, le) + k * Pow2(8 * |bs|)
  {
    hide Pow2, Unsigned;
    k := if ReadInt(bs, signed, le) == Unsigned(bs, le) then 0 else -1;
  }

  /** A signed member is the two's-complement reading of its own bits; any other is the
      unsigned reading. Only a 64-bit entry is bound as the container's own raw value. */
  lemma MemberReading(raw: int, s: nat, w: nat, signed: bool)
    requires 0 < w < 64
    ensures var v := MemberValue(raw, s, w, signed);
            v % Pow2(w) == Residue(raw, s, w)
            && (if signed then -(Pow2(w - 1) as int) <= v < Pow2(w - 1) else 0 <= v < Pow2(w))
  {
    assert Pow2(w) == 2 * Pow2(w - 1);
    hide Pow2;
    var u := Residue(raw, s, w);
    var p := Pow2(w);
    assert 0 <= u < p;
    ModSmall(u, p);
    FloorShift(u, -1, p);
  }

  function IntIn(env: Env, nm: Name): int {
    var v := Lookup(env, nm);
    if v.Some? && v.value.IntV? then v.value.i else 0
  }

  /** The values bound under the members' names, read modulo 2 to their widths and put
      back at their places. */
  function Rebuilt(env: Env, es: seq<Entry>, off: nat, total: nat, msb: bool): int
    requires off + WidthSum(es) == total
  {
    if es == [] then 0
    else
      IntIn(env, es[0].name) % Pow2(es[0].width) * Pow2(MemberShift(total, msb, off, es[0].width))
      + Rebuilt(env, es[1..], off + es[0].width, total, msb)
  }

  lemma {:induction false} OthersKept(input: Bytes, p: PrimInfo, es: seq<Entry>, off: nat, c: Core, loop: Option<int>, nm: Name)
    requires forall i :: 0 <= i < |es| ==> es[i].name != nm
    ensures var r := ParseEntries(input, p, es, off, c, loop);
            r.Ok? ==> Lookup(r.c.env, nm) == Lookup(c.env, nm)
    decreases |es|
  {
    hide ReadMember, ValueOf, MsbFirst;
    if es != [] && CoreHi(input, c) <= |input| {
      var r := ReadMember(p, es[0].width, off, es[0].signed, input, c.pos, CoreHi(input, c), c.le);
      if r.Some? {
        OthersKept(input, p, es[1..], off + es[0].width,
                   Place(Logged(c, BitsRun(MsbFirst(p, c.le))), es[0].name, r.value), loop, nm);
      }
    }
  }

  lemma {:induction false} EntriesRebuild(input: Bytes, p: PrimInfo, es: seq<Entry>, off: nat, c: Core, loop: Option<int>,
                                          total: nat, x: nat)
    requires p.IntP? && total == 8 * p.width <= 64 && off + WidthSum(es) == total
    requires DistinctNames(es) && forall i :: 0 <= i < |es| ==> es[i].width > 0
    requires c.pos + p.width <= |input| && x == Unsigned(input[c.pos..c.pos + p.width], WantLittle(p.endian, c.le))
    ensures var r := ParseEntries(input, p, es, off, c, loop);
            r.Ok? ==> Rebuilt(r.c.env, es, off, total, MsbFirst(p, c.le)) == Weighted(x, es, off, total, MsbFirst(p, c.le))
    decreases |es|
  {
    hide ValueOf, MsbFirst, Pow2, Residue, MemberValue, ReadInt, Unsigned, WantLittle, ParseEntries;
    var r := ParseEntries(input, p, es, off, c, loop);
    if es != [] && r.Ok? {
      var e := es[0];
      var c1 := FirstMember(input, p, es, off, c, loop);
      OthersKept(input, p, es[1..], off + e.width, c1, loop, e.name);
      EntriesRebuild(input, p, es[1..], off + e.width, c1, loop, total, x);
      MemberModulo(input[c.pos..c.pos + p.width], p, c.le, MemberShift(total, MsbFirst(p, c.le), off, e.width),
                   e.width, e.signed, total);
    }
  }

  /** The first member's value is bound, and the rest is parsed from there. */
  lemma FirstMember(input: Bytes, p: PrimInfo, es: seq<Entry>, off: nat, c: Core, loop: Option<int>) returns (c1: Core)
    requires es != [] && p.IntP? && ParseEntries(input, p, es, off, c, loop).Ok?
    requires c.pos + p.width <= |input|
    ensures ParseEntries(input, p, es, off, c, loop) == ParseEntries(input, p, es[1..], off + es[0].width, c1, loop)
    ensures c1.pos == c.pos && c1.le == c.le
    ensures IntIn(c1.env, es[0].name)
            == MemberValue(ReadInt(input[c.pos..c.pos + p.width], p.signed, WantLittle(p.endian, c.le)),
                           MemberShift(8 * p.width, MsbFirst(p, c.le), off, es[0].width), es[0].width, es[0].signed)
  {
    hide ValueOf, MsbFirst, MemberValue, ReadInt, WantLittle;
    var r := ReadMember(p, es[0].width, off, es[0].signed, input, c.pos, CoreHi(input, c), c.le);
    c1 := Place(Logged(c, BitsRun(MsbFirst(p, c.le))), es[0].name, r.value);
  }

  lemma MemberModulo(bs: Bytes, p: PrimInfo, le: bool, s: nat, w: nat, signed: bool, total: nat)
    requires p.IntP? && |bs| == p.width && total == 8 * p.width <= 64 && 0 < w && s + w <= total
    ensures MemberValue(ReadInt(bs, p.signed, WantLittle(p.endian, le)), s, w, signed) % Pow2(w)
            == Residue(Unsigned(bs, WantLittle(p.endian, le)), s, w)
  {
    assert Pow2(0) == 1;
    hide Pow2, ReadInt, Unsigned, WantLittle;
    var want := WantLittle(p.endian, le);
    var raw := ReadInt(bs, p.signed, want);
    var k := RawIs(bs, p.signed, want);
    ResidueWraps(Unsigned(bs, want), k, s, w, total);
    assert Residue(raw, s, w) == Residue(Unsigned(bs, want), s, w);
    if w < 64 {
      MemberReading(raw, s, w, signed);
    } else {
      assert raw / 1 == raw;
    }
  }

  /** Parsing an accepted bitfield binds member values that tile the container it stands
      on, whichever bit order the container has. */
  lemma BitfieldTiles(input: Bytes, p: PrimInfo, es: seq<Entry>, c: Core, loop: Option<int>)
    requires Accepted(p, es)
    ensures var r := ParseBitfield(input, p, es, c, loop);
            r.Ok? ==>
              && c.pos + p.width <= |input|
              && Rebuilt(r.c.env, es, 0, 8 * p.width, MsbFirst(p, c.le))
                 == Unsigned(input[c.pos..c.pos + p.width], WantLittle(p.endian, c.le))
  {
    hide ValueOf, MsbFirst, Unsigned, Rebuilt, Weighted, Pow2, MemberValue, ReadInt;
    var r := ParseBitfield(input, p, es, c, loop);
    if r.Ok? {
      assert es != [];
      var bs := input[c.pos..c.pos + p.width];
      var x := Unsigned(bs, WantLittle(p.endian, c.le));
      UnsignedBound(bs, WantLittle(p.endian, c.le));
      EntriesRebuild(input, p, es, 0, c, loop, 8 * p.width, x);
      Tiles(x, es, 8 * p.width, MsbFirst(p, c.le));
    }
  }
}
