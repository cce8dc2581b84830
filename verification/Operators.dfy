/** What expressions compute, stated through the evaluator: each operator by the laws that
    determine its result, names by the bindings in force, and the context by the scopes and
    windows that are open. */
module Operators {
  import opened Syntax
  import opened Eval
  import opened Arith
  import opened Machine
  import opened Compile
  import opened Denote

  predicate Gives(e: Expr, x: EvalCtx, v: int) { EvalExpr(e, x) == Some(IntV(v)) }
  predicate Says(e: Expr, x: EvalCtx, b: bool) { EvalExpr(e, x) == Some(BoolV(b)) }

  lemma OpIs(op: BinOp, l: Expr, r: Expr, x: EvalCtx)
    ensures EvalExpr(Bin(op, l, r), x) ==
            var lv, rv := EvalExpr(l, x), EvalExpr(r, x);
            if lv.Some? && rv.Some? then ApplyBin(op, lv.value, rv.value) else None
  {
    hide ApplyBin;
  }

  lemma BinIs(op: BinOp, l: Expr, r: Expr, x: EvalCtx, a: int, b: int)
    requires Gives(l, x, a) && Gives(r, x, b)
    ensures EvalExpr(Bin(op, l, r), x) == IntOp(op, a, b)
  {
    hide IntOp;
  }

  lemma LiteralIs(n: int, x: EvalCtx)
    ensures Gives(IntLit(n), x, n)
  {}

  lemma NegIs(e: Expr, x: EvalCtx, a: int)
    requires Gives(e, x, a)
    ensures Gives(Un(Neg, e), x, -a)
  {}

  // ── Arithmetic ────────────────────────────────────────────────────────

  /** Addition counts on by ones; subtraction and negation undo it. */
  lemma Sums(l: Expr, r: Expr, x: EvalCtx, a: int, b: int)
    requires Gives(l, x, a) && Gives(r, x, b)
    ensures Gives(Bin(Add, l, IntLit(0)), x, a) && Gives(Bin(Add, l, IntLit(1)), x, a + 1)
    ensures EvalExpr(Bin(Add, l, Bin(Add, r, IntLit(1))), x) == EvalExpr(Bin(Add, Bin(Add, l, r), IntLit(1)), x)
    ensures Gives(Bin(Add, Bin(Sub, l, r), r), x, a) && Gives(Bin(Add, Un(Neg, l), l), x, 0)
  {
    hide EvalExpr;
    LiteralIs(0, x);
    LiteralIs(1, x);
    BinIs(Add, l, IntLit(0), x, a, 0);
    BinIs(Add, l, IntLit(1), x, a, 1);
    BinIs(Add, r, IntLit(1), x, b, 1);
    BinIs(Add, l, r, x, a, b);
    BinIs(Add, l, Bin(Add, r, IntLit(1)), x, a, b + 1);
    BinIs(Add, Bin(Add, l, r), IntLit(1), x, a + b, 1);
    BinIs(Sub, l, r, x, a, b);
    BinIs(Add, Bin(Sub, l, r), r, x, a - b, b);
    NegIs(l, x, a);
    BinIs(Add, Un(Neg, l), l, x, -a, a);
  }

  /** Multiplication is repeated addition. */
  lemma Products(l: Expr, r: Expr, x: EvalCtx, a: int, b: int)
    requires Gives(l, x, a) && Gives(r, x, b)
    ensures Gives(Bin(Mul, l, IntLit(0)), x, 0)
    ensures EvalExpr(Bin(Mul, l, Bin(Add, r, IntLit(1))), x) == EvalExpr(Bin(Add, Bin(Mul, l, r), l), x)
  {
    hide EvalExpr;
    LiteralIs(0, x);
    LiteralIs(1, x);
    BinIs(Mul, l, IntLit(0), x, a, 0);
    BinIs(Add, r, IntLit(1), x, b, 1);
    BinIs(Mul, l, Bin(Add, r, IntLit(1)), x, a, b + 1);
    BinIs(Mul, l, r, x, a, b);
    BinIs(Add, Bin(Mul, l, r), l, x, a * b, a);
    assert a * (b + 1) == a * b + a;
  }

  function Abs(a: int): nat { if a < 0 then -a else a }

  lemma TruncIs(a: int, b: int)
    requires b != 0
    ensures TruncDiv(a, b) == if a >= 0 <==> b > 0 then Abs(a) / Abs(b) else 0 - Abs(a) / Abs(b)
  {}

  lemma DivSigns(a: int, b: int) returns (p: nat)
    requires b != 0
    ensures TruncDiv(a, b) == if a >= 0 <==> b > 0 then p else 0 - p
    ensures 0 <= Abs(a) - Abs(b) * p < Abs(b) && Abs(b) * p >= 0
  {
    hide TruncDiv, Abs;
    TruncIs(a, b);
    NotNothing(b);
    p := Remainder(Abs(a), Abs(b));
  }

  lemma NotNothing(b: int)
    requires b != 0
    ensures Abs(b) > 0
  {}

  /** b * q has a's sign and the size of d * p. */
  lemma DivProduct(a: int, b: int, q: int, p: nat)
    requires b != 0 && q == if a >= 0 <==> b > 0 then p else 0 - p
    ensures b * q == if a >= 0 then Abs(b) * p else 0 - Abs(b) * p
    ensures b * q == q * b
  {}

  lemma DivRule(a: int, b: int) returns (q: int, m: int)
    requires b != 0
    ensures q == TruncDiv(a, b) && m == TruncMod(a, b)
    ensures a == q * b + m && Abs(m) < Abs(b) && (m != 0 ==> (m > 0 <==> a > 0))
  {
    hide TruncDiv, Abs;
    q, m := TruncDiv(a, b), TruncMod(a, b);
    var p := DivSigns(a, b);
    DivProduct(a, b, q, p);
    DivEnd(a, b, m, Abs(b) * p, b * q);
  }

  lemma DivEnd(a: int, b: int, m: int, t: int, prod: int)
    requires m == a - prod && prod == (if a >= 0 then t else -t) && t >= 0 && 0 <= Abs(a) - t < Abs(b)
    ensures Abs(m) < Abs(b) && (m != 0 ==> (m > 0 <==> a > 0))
  {}

  lemma Remainder(n: nat, d: nat) returns (p: nat)
    requires d > 0
    ensures p == n / d && 0 <= n - d * p < d && d * p >= 0
  {
    p := n / d;
  }

  /** Division truncates toward zero: quotient and remainder rebuild the dividend, and the
      remainder is smaller than the divisor and has the dividend's sign. A zero divisor
      errs. */
  lemma Division(l: Expr, r: Expr, x: EvalCtx, a: int, b: int) returns (q: int, m: int)
    requires Gives(l, x, a) && Gives(r, x, b)
    ensures b == 0 ==> EvalExpr(Bin(Div, l, r), x).None? && EvalExpr(Bin(Mod, l, r), x).None?
    ensures b != 0 ==> Gives(Bin(Div, l, r), x, q) && Gives(Bin(Mod, l, r), x, m)
    ensures b != 0 ==> a == q * b + m && Abs(m) < Abs(b) && (m != 0 ==> (m > 0 <==> a > 0))
  {
    hide TruncDiv, TruncMod;
    q, m := 0, 0;
    if b != 0 { q, m := DivRule(a, b); }
  }

  // ── Bits ──────────────────────────────────────────────────────────────

  /** Bit k of a two's-complement integer of any width. */
  predicate Bit(v: int, k: nat) { v / Pow2(k) % 2 == 1 }

  lemma HalfThen(v: int, d: nat)
    requires d > 0
    ensures v / (2 * d) == v / 2 / d
  {
    var h := v / 2;
    assert v == 2 * h + v % 2 && h == h / d * d + h % d;
    var rest := 2 * (h % d) + v % 2;
    assert 2 * (h / d * d) == h / d * (2 * d);
    assert v == h / d * (2 * d) + rest && 0 <= rest < 2 * d;
    Quotient(v, 2 * d, h / d, rest);
  }

  lemma Quotient(v: int, d: nat, q: int, rest: nat)
    requires d > 0 && v == q * d + rest && rest < d
    ensures v / d == q && v % d == rest
  {
    QuotientIs(v, d, q, rest);
  }

  lemma BitNext(v: int, k: nat)
    requires k > 0
    ensures Bit(v, k) == Bit(v / 2, k - 1) && Bit(v, 0) == (v % 2 == 1)
  {
    HalfThen(v, Pow2(k - 1));
  }

  /** Beyond the width of a value every bit is its sign. */
  lemma {:induction false} SignBit(v: int, k: nat)
    requires 0 <= v + Pow2(k) && v < Pow2(k)
    ensures Bit(v, k) == (v < 0)
  {
    if v >= 0 { Quotient(v, Pow2(k), 0, v); } else { Quotient(v, Pow2(k), -1, v + Pow2(k)); }
  }

  lemma {:induction false} Wider(j: nat, k: nat)
    requires j <= k
    ensures Pow2(j) <= Pow2(k)
  {
    if j < k { Wider(j, k - 1); }
  }

  lemma {:induction false} BitwiseBit(f: (bool, bool) -> bool, a: int, b: int, width: nat, k: nat)
    ensures Bit(Bitwise(f, a, b, width), k) == if k < width then f(Bit(a, k), Bit(b, k)) else f(a < 0, b < 0)
    decreases width
  {
    hide Pow2, Bit;
    var v := Bitwise(f, a, b, width);
    if width == 0 {
      ConstantBits(k);
    } else {
      var w := Bitwise(f, a / 2, b / 2, width - 1);
      assert v / 2 == w && (v % 2 == 1 <==> f(a % 2 == 1, b % 2 == 1));
      if k == 0 {
        BitNext(v, 1);
        BitNext(a, 1);
        BitNext(b, 1);
      } else {
        BitNext(v, k);
        BitNext(a, k);
        BitNext(b, k);
        BitwiseBit(f, a / 2, b / 2, width - 1, k - 1);
      }
    }
  }

  lemma ConstantBits(k: nat)
    ensures Bit(-1, k) && !Bit(0, k)
  {
    Wider(0, k);
    SignBit(-1, k);
    SignBit(0, k);
  }

  predicate Word(a: int) { 0 <= a + Pow2(64) && a < Pow2(64) }

  lemma BitsOf(f: (bool, bool) -> bool, a: int, b: int, k: nat)
    requires k < 64 || (Word(a) && Word(b))
    ensures Bit(Bitwise(f, a, b, 64), k) == f(Bit(a, k), Bit(b, k))
  {
    BitwiseBit(f, a, b, 64, k);
    if k >= 64 {
      Wider(64, k);
      hide Pow2;
      SignBit(a, k);
      SignBit(b, k);
    }
  }

  /** The bitwise operators work bit by bit, on words at every bit. */
  lemma Bits(l: Expr, r: Expr, x: EvalCtx, a: int, b: int, k: nat) returns (both: int, either: int, differ: int, flipped: int)
    requires Gives(l, x, a) && Gives(r, x, b) && (k < 64 || (Word(a) && Word(b)))
    ensures Gives(Bin(BitAnd, l, r), x, both) && Bit(both, k) == (Bit(a, k) && Bit(b, k))
    ensures Gives(Bin(BitOr, l, r), x, either) && Bit(either, k) == (Bit(a, k) || Bit(b, k))
    ensures Gives(Bin(BitXor, l, r), x, differ) && Bit(differ, k) == (Bit(a, k) != Bit(b, k))
    ensures Gives(Un(BitNot, l), x, flipped) && Bit(flipped, k) == !Bit(a, k)
  {
    hide Bitwise, Bit, Word;
    both, either, differ, flipped := Bitwise(Both, a, b, 64), Bitwise(Either, a, b, 64), Bitwise(Differ, a, b, 64), -a - 1;
    BitsOf(Both, a, b, k);
    BitsOf(Either, a, b, k);
    BitsOf(Differ, a, b, k);
    Flipped(a, k);
  }

  lemma {:induction false} Flipped(a: int, k: nat)
    ensures Bit(-a - 1, k) == !Bit(a, k)
    decreases k
  {
    hide Bit;
    if k == 0 {
      BitNext(a, 1);
      BitNext(-a - 1, 1);
    } else {
      BitNext(a, k);
      BitNext(-a - 1, k);
      assert (-a - 1) / 2 == -(a / 2) - 1;
      Flipped(a / 2, k - 1);
    }
  }

  /** A left shift puts `b` zeros below, a right shift drops the `b` lowest bits; a negative
      distance errs. */
  lemma Shifts(l: Expr, r: Expr, x: EvalCtx, a: int, b: int) returns (up: int, down: int)
    requires Gives(l, x, a) && Gives(r, x, b)
    ensures b < 0 ==> EvalExpr(Bin(Shl, l, r), x).None? && EvalExpr(Bin(Shr, l, r), x).None?
    ensures b >= 0 ==> Gives(Bin(Shl, l, r), x, up) && up % Pow2(b) == 0 && up / Pow2(b) == a
    ensures b >= 0 ==> Gives(Bin(Shr, l, r), x, down) && down * Pow2(b) <= a < (down + 1) * Pow2(b)
  {
    hide Pow2;
    up, down := 0, 0;
    if b >= 0 {
      up, down := a * Pow2(b), a / Pow2(b);
      Quotient(up, Pow2(b), a, 0);
      FloorOf(a, Pow2(b));
    }
  }

  lemma FloorOf(a: int, d: nat)
    requires d > 0
    ensures a / d * d <= a < (a / d + 1) * d
  {
    assert a == a / d * d + a % d;
  }

  // ── Comparisons ───────────────────────────────────────────────────────

  /** Integers compare as their difference has a sign. */
  lemma Comparisons(l: Expr, r: Expr, x: EvalCtx, a: int, b: int) returns (d: int)
    requires Gives(l, x, a) && Gives(r, x, b)
    ensures Gives(Bin(Sub, r, l), x, d)
    ensures Says(Bin(Lt, l, r), x, d > 0) && Says(Bin(Gt, l, r), x, d < 0) && Says(Bin(Eq, l, r), x, d == 0)
    ensures Says(Bin(Ge, l, r), x, !(d > 0)) && Says(Bin(Le, l, r), x, !(d < 0)) && Says(Bin(Ne, l, r), x, !(d == 0))
  {
    hide EvalExpr;
    d := b - a;
    BinIs(Sub, r, l, x, b, a);
    BinIs(Lt, l, r, x, a, b);
    BinIs(Gt, l, r, x, a, b);
    BinIs(Eq, l, r, x, a, b);
    BinIs(Ge, l, r, x, a, b);
    BinIs(Le, l, r, x, a, b);
    BinIs(Ne, l, r, x, a, b);
  }

  /** s comes before t: they agree up to the end of s, or up to a smaller character. */
  predicate Before(s: string, t: string) { exists i :: 0 <= i <= |s| && Parts(s, t, i) }

  predicate Parts(s: string, t: string, i: nat)
    requires i <= |s|
  {
    i < |t| && s[..i] == t[..i] && (i == |s| || s[i] < t[i])
  }

  lemma FirstShared(s: string, t: string, i: nat)
    requires 0 < i <= |s| && Parts(s, t, i)
    ensures s[0] == t[0]
  {
    assert s[..i][0] == s[0] && t[..i][0] == t[0];
  }

  lemma {:induction false} StrLessIs(s: string, t: string)
    ensures StrLess(s, t) <==> Before(s, t)
  {
    if t == "" || s == "" {
      if s == "" && t != "" { assert Parts(s, t, 0); }
    } else if s[0] != t[0] {
      if s[0] < t[0] { assert Parts(s, t, 0); }
      if i :| 0 <= i <= |s| && Parts(s, t, i) {
        if i > 0 { FirstShared(s, t, i); }
      }
    } else {
      StrLessIs(s[1..], t[1..]);
      if i :| 0 <= i <= |s[1..]| && Parts(s[1..], t[1..], i) {
        assert s[..i + 1] == [s[0]] + s[1..][..i] && t[..i + 1] == [t[0]] + t[1..][..i];
        assert Parts(s, t, i + 1);
      }
      if i :| 0 <= i <= |s| && Parts(s, t, i) {
        assert i > 0;
        assert s[1..][..i - 1] == s[..i][1..] && t[1..][..i - 1] == t[..i][1..];
        assert Parts(s[1..], t[1..], i - 1);
      }
    }
  }

  lemma {:induction false} BeforeOne(s: string, t: string)
    ensures (if s == t then 1 else 0) + (if StrLess(s, t) then 1 else 0) + (if StrLess(t, s) then 1 else 0) == 1
  {
    if s != "" && t != "" && s[0] == t[0] {
      BeforeOne(s[1..], t[1..]);
      assert s == [s[0]] + s[1..] && t == [t[0]] + t[1..];
    }
  }

  /** Strings compare in lexicographic order, a total one. */
  lemma Strings(l: Expr, r: Expr, x: EvalCtx, s: string, t: string)
    requires EvalExpr(l, x) == Some(StrV(s)) && EvalExpr(r, x) == Some(StrV(t))
    ensures Says(Bin(Lt, l, r), x, Before(s, t)) && Says(Bin(Gt, l, r), x, Before(t, s))
    ensures Says(Bin(Le, l, r), x, !Before(t, s)) && Says(Bin(Ge, l, r), x, !Before(s, t))
    ensures Says(Bin(Eq, l, r), x, s == t) && Says(Bin(Ne, l, r), x, s != t)
    ensures (if s == t then 1 else 0) + (if Before(s, t) then 1 else 0) + (if Before(t, s) then 1 else 0) == 1
  {
    hide EvalExpr, StrLess, Before;
    OpIs(Lt, l, r, x);
    OpIs(Gt, l, r, x);
    OpIs(Le, l, r, x);
    OpIs(Ge, l, r, x);
    OpIs(Eq, l, r, x);
    OpIs(Ne, l, r, x);
    StrLessIs(s, t);
    StrLessIs(t, s);
    BeforeOne(s, t);
  }

  predicate Arithmetic(op: BinOp) {
    op.Add? || op.Sub? || op.Mul? || op.Div? || op.Mod? || op.BitAnd? || op.BitOr? || op.BitXor? || op.Shl? || op.Shr?
  }

  predicate Present(v: Option<Value>) { v.Some? && v.value != Null }

  /** Which operands an operator takes: integers for arithmetic, two integers or two strings
      for an order, and any two values for equality, which holds between equal scalars of
      one kind only. */
  lemma Operands(op: BinOp, l: Expr, r: Expr, x: EvalCtx)
    ensures var lv, rv := EvalExpr(l, x), EvalExpr(r, x);
            var v := EvalExpr(Bin(op, l, r), x);
            && (!Present(lv) || !Present(rv) ==> v.None?)
            && (v.Some? && Arithmetic(op) ==> lv.value.IntV? && rv.value.IntV?)
            && (Present(lv) && Present(rv) && (op.Lt? || op.Le? || op.Gt? || op.Ge?) ==>
                  (v.Some? <==> (lv.value.IntV? && rv.value.IntV?) || (lv.value.StrV? && rv.value.StrV?)))
            && (Present(lv) && Present(rv) && op.Eq? ==> v == Some(BoolV(lv == rv && !lv.value.CapV?)))
            && (Present(lv) && Present(rv) && op.Ne? ==> v == Some(BoolV(lv != rv || lv.value.CapV?)))
  {
    hide EvalExpr, TruncDiv, TruncMod, Bitwise, StrLess;
    OpIs(op, l, r, x);
  }

  // ── Truth ─────────────────────────────────────────────────────────────

  /** What counts as true, read off `not`, `and`, `or`, the ternary and `where`. */
  lemma Truths(e: Expr, thn: Expr, els: Expr, input: Bytes, c: Core, loop: Option<int>)
    ensures var x := CoreCtx(input, c, loop);
            var v := EvalExpr(e, x);
            && (v.Some? && v.value.BoolV? ==> Holds(e, thn, els, input, c, loop, v.value.b))
            && (v.Some? && v.value.IntV? ==> Holds(e, thn, els, input, c, loop, v.value.i != 0))
            && (v.None? || !(v.value.BoolV? || v.value.IntV?) ==>
                  && EvalExpr(Un(Not, e), x).None? && EvalExpr(AndE(e, thn), x).None? && EvalExpr(OrE(e, thn), x).None?
                  && EvalExpr(Ternary(e, thn, els), x).None? && Check(input, Some(e), c, loop).Failed?)
  {
    hide EvalExpr;
    var x := CoreCtx(input, c, loop);
    NotIs(e, x);
    AndIs(e, thn, x);
    AndIs(e, BoolLit(true), x);
    OrIs(e, thn, x);
    OrIs(e, BoolLit(false), x);
    TernaryIs(e, thn, els, x);
    BoolIs(true, x);
    BoolIs(false, x);
  }

  /** The truth of an expression, if it has one. */
  function TruthOf(e: Expr, x: EvalCtx): Option<bool> {
    var v := EvalExpr(e, x); if v.None? then None else Truth(v.value)
  }

  lemma BoolIs(b: bool, x: EvalCtx)
    ensures EvalExpr(BoolLit(b), x) == Some(BoolV(b))
  {}

  lemma NotIs(e: Expr, x: EvalCtx)
    ensures EvalExpr(Un(Not, e), x) == var t := TruthOf(e, x); if t.None? then None else Some(BoolV(!t.value))
  {
    hide Truth;
  }

  lemma AndIs(l: Expr, r: Expr, x: EvalCtx)
    ensures EvalExpr(AndE(l, r), x) ==
            var t, u := TruthOf(l, x), TruthOf(r, x);
            if t == Some(false) then Some(BoolV(false)) else if t.None? || u.None? then None else Some(BoolV(u.value))
  {
    hide Truth;
  }

  lemma OrIs(l: Expr, r: Expr, x: EvalCtx)
    ensures EvalExpr(OrE(l, r), x) ==
            var t, u := TruthOf(l, x), TruthOf(r, x);
            if t == Some(true) then Some(BoolV(true)) else if t.None? || u.None? then None else Some(BoolV(u.value))
  {
    hide Truth;
  }

  lemma TernaryIs(e: Expr, thn: Expr, els: Expr, x: EvalCtx)
    ensures EvalExpr(Ternary(e, thn, els), x) ==
            var t := TruthOf(e, x); if t.None? then None else if t.value then EvalExpr(thn, x) else EvalExpr(els, x)
  {
    hide Truth;
  }

  /** The condition e counts as b. */
  predicate Holds(e: Expr, thn: Expr, els: Expr, input: Bytes, c: Core, loop: Option<int>, b: bool) {
    var x := CoreCtx(input, c, loop);
    && Says(Un(Not, e), x, !b) && Says(AndE(e, BoolLit(true)), x, b) && Says(OrE(e, BoolLit(false)), x, b)
    && EvalExpr(Ternary(e, thn, els), x) == (if b then EvalExpr(thn, x) else EvalExpr(els, x))
    && Check(input, Some(e), c, loop) == if b then Ok(c) else Failed
  }

  // ── Builtins ──────────────────────────────────────────────────────────

  lemma OneArg(e: Expr, x: EvalCtx)
    requires EvalExpr(e, x).Some?
    ensures EvalArgs([e], x) == Some([EvalExpr(e, x).value])
  {
    hide EvalExpr;
    assert EvalArgs([], x) == Some([]);
    assert [e][1..] == [] && [EvalExpr(e, x).value] + [] == [EvalExpr(e, x).value];
  }

  lemma MoreArgs(e: Expr, es: seq<Expr>, x: EvalCtx)
    requires EvalExpr(e, x).Some? && EvalArgs(es, x).Some?
    ensures EvalArgs([e] + es, x) == Some([EvalExpr(e, x).value] + EvalArgs(es, x).value)
  {
    hide EvalExpr;
    assert ([e] + es)[1..] == es;
  }

  /** The two bounds of two integers, one of them each; a value held between two bounds; and
      a distance from zero. */
  lemma Bounds(e: Expr, l: Expr, r: Expr, x: EvalCtx, v: int, a: int, b: int) returns (lo: int, hi: int, held: int, n: int)
    requires Gives(e, x, v) && Gives(l, x, a) && Gives(r, x, b)
    ensures Gives(Call("min", [l, r]), x, lo) && lo in {a, b} && lo <= a && lo <= b
    ensures Gives(Call("max", [l, r]), x, hi) && hi in {a, b} && hi >= a && hi >= b
    ensures Gives(Call("clamp", [e, l, r]), x, held) && (a <= v <= b ==> held == v) && (v < a ==> held == a) && (v >= a && v > b ==> held == b)
    ensures Gives(Call("abs", [l]), x, n) && n >= 0 && n in {a, -a}
  {
    hide EvalExpr;
    lo, hi := Min(a, b), Max(a, b);
    held := if v < a then a else if v > b then b else v;
    n := if a < 0 then -a else a;
    OneArg(l, x);
    OneArg(r, x);
    MoreArgs(l, [r], x);
    MoreArgs(e, [l] + [r], x);
    assert [l] + [r] == [l, r] && [e] + [l, r] == [e, l, r];
    Called("min", [l, r], x);
    Called("max", [l, r], x);
    Called("clamp", [e, l, r], x);
    Called("abs", [l], x);
  }

  lemma Called(f: Name, args: seq<Expr>, x: EvalCtx)
    ensures EvalExpr(Call(f, args), x) == var vs := EvalArgs(args, x); if vs.None? then None else ApplyCall(f, vs.value, x)
  {
    hide ApplyCall;
  }

  /** Which calls have a value: the builtins, on integers, with the arguments they take. */
  lemma Calls(f: Name, args: seq<Expr>, x: EvalCtx)
    requires EvalExpr(Call(f, args), x).Some?
    ensures (f == "abs" && |args| == 1) || (f in {"min", "max"} && |args| == 2) || (f == "clamp" && |args| == 3) || (f == "peek" && args == [])
    ensures EvalArgs(args, x).Some? && forall v :: v in EvalArgs(args, x).value ==> v.IntV?
  {
    Called(f, args, x);
  }

  /** The byte at the cursor, where the window has one. */
  lemma Peek(input: Bytes, c: Core, loop: Option<int>)
    ensures var v := ValueOf(input, Call("peek", []), c, loop);
            if c.pos < CoreHi(input, c) && c.pos < |input| then v == Some(IntV(input[c.pos])) else v.None?
  {}

  // ── Names and context ─────────────────────────────────────────────────

  /** A name is its newest binding. */
  lemma {:induction false} Newest(n: Name, x: EvalCtx)
    ensures EvalExpr(Ref(n), x).None? <==> forall i :: 0 <= i < |x.env| ==> x.env[i].name != n
    ensures forall i :: 0 <= i < |x.env| && x.env[i].name == n && (forall j :: 0 <= j < i ==> x.env[j].name != n) ==>
              EvalExpr(Ref(n), x) == Some(x.env[i].value)
    decreases |x.env|
  {
    if x.env != [] && x.env[0].name != n {
      var y := x.(env := x.env[1..]);
      Newest(n, y);
      assert EvalExpr(Ref(n), x) == EvalExpr(Ref(n), y);
      forall i | 0 <= i < |x.env| && x.env[i].name == n && (forall j :: 0 <= j < i ==> x.env[j].name != n)
        ensures EvalExpr(Ref(n), x) == Some(x.env[i].value)
      {
        assert y.env[i - 1] == x.env[i] && forall j :: 0 <= j < i - 1 ==> y.env[j].name != n;
      }
      forall i | 1 <= i < |x.env| && EvalExpr(Ref(n), x).None? ensures x.env[i].name != n { assert y.env[i - 1].name != n; }
      if forall i :: 0 <= i < |x.env| ==> x.env[i].name != n { forall i | 0 <= i < |y.env| ensures y.env[i].name != n { assert y.env[i] == x.env[i + 1]; } }
    }
  }

  /** The start offsets of the scopes a log leaves open, outermost first. */
  function OpenScopes(log: Log): seq<nat> {
    if log == [] then []
    else
      var open := OpenScopes(log[..|log| - 1]);
      match log[|log| - 1]
      case OpenStruct(_, p) => open + [p]
      case OpenVariant(_, p, _) => open + [p]
      case OpenArray(_, p) => open + [p]
      case CloseStruct(_) => if open == [] then [] else open[..|open| - 1]
      case CloseArray(_) => if open == [] then [] else open[..|open| - 1]
      case _ => open
  }

  lemma {:induction false} ScopeStartIs(log: Log, closed: nat)
    ensures var open := OpenScopes(log);
            ScopeStart(log, closed) == if closed < |open| then open[|open| - 1 - closed] else 0
    decreases |log|
  {
    if log != [] {
      var rest := log[..|log| - 1];
      ScopeStartIs(rest, closed);
      ScopeStartIs(rest, closed + 1);
      if closed > 0 { ScopeStartIs(rest, closed - 1); }
    }
  }

  /** The context an expression reads: the cursor, the start of the innermost open scope, the
      end of the innermost window, what is left of it, and the index of the element. */
  lemma ContextIs(input: Bytes, c: Core, loop: Option<int>)
    ensures var x := CoreCtx(input, c, loop);
            var open := OpenScopes(c.log);
            var end := if c.wins == [] then |input| else c.wins[|c.wins| - 1].hi;
            && Gives(Context(AtPos), x, c.pos) && Gives(Eoi, x, |input|) && Gives(Context(AtEnd), x, end)
            && Gives(Context(AtStart), x, if open == [] then 0 else open[|open| - 1])
            && Gives(Bin(Add, Context(AtPos), Context(AtRemaining)), x, end)
            && (match loop case Some(i) => Gives(Context(AtIndex), x, i) case None => EvalExpr(Context(AtIndex), x).None?)
            && EvalExpr(Context(AtBuffer), x)
               == Some(CapV(Carrier(if open == [] then 0 else open[|open| - 1], c.pos, TBytes, Null, Plain)))
  {
    ScopeStartIs(c.log, 0);
  }

  // ── Computed values and runs ──────────────────────────────────────────

  /** A computed field is bound to its value; a capture has none of its own and counts as 0. */
  lemma ComputeBinds(input: Bytes, e: Expr, nm: Name, c: Core, loop: Option<int>)
    ensures var r := ParseCompute(input, e, nm, c, loop);
            var v := ValueOf(input, e, c, loop);
            && (r.Ok? <==> Present(v)) && (r.Ok? || r.Failed?)
            && (r.Ok? ==> r.c.env == [Binding(nm, if v.value.CapV? then IntV(0) else v.value)] + c.env && r.c.pos == c.pos)
  {
    hide EvalExpr;
  }

  /** A run without a width fills its window, one with a width takes exactly that many bytes. */
  lemma RunWidth(input: Bytes, len: Option<Expr>, isString: bool, nm: Name, c: Core, loop: Option<int>)
    requires c.pos <= CoreHi(input, c)
    ensures var r := ParseRun(input, len, isString, None, nm, c, loop);
            && (len.None? ==> r.Ok? && r.c.pos == CoreHi(input, c))
            && (len.Some? && r.Ok? ==> Gives(len.value, CoreCtx(input, c, loop), r.c.pos - c.pos))
            && (len.Some? && !r.Ok? ==> forall n :: 0 <= n && c.pos + n <= CoreHi(input, c) ==> !Gives(len.value, CoreCtx(input, c, loop), n))
  {}
}
