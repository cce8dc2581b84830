/** The recursive evaluator: what an expression means, independently of the machine that
    runs its lowering. The operators are shared with the machine's apply steps, over
    mathematical integers. */
module Eval {
  import opened Syntax

  // ── Scalar operators ──────────────────────────────────────────────────

  function TruncDiv(a: int, b: int): int
    requires b != 0
  {
    if a >= 0 then (if b > 0 then a / b else -(a / -b))
    else (if b > 0 then -((-a) / b) else (-a) / (-b))
  }

  function TruncMod(a: int, b: int): int
    requires b != 0
  {
    a - b * TruncDiv(a, b)
  }

  function Pow2(n: nat): (r: nat)
    ensures r > 0
  {
    if n == 0 then 1 else 2 * Pow2(n - 1)
  }

  predicate Both(p: bool, q: bool) { p && q }
  predicate Either(p: bool, q: bool) { p || q }
  predicate Differ(p: bool, q: bool) { p != q }

  /** Bitwise combination of two's-complement integers, bit by bit from the bottom. */
  function Bitwise(f: (bool, bool) -> bool, a: int, b: int, width: nat): int
    decreases width
  {
    if width == 0 then (if f(a < 0, b < 0) then -1 else 0)
    else (if f(a % 2 == 1, b % 2 == 1) then 1 else 0) + 2 * Bitwise(f, a / 2, b / 2, width - 1)
  }

  predicate StrLess(a: string, b: string) {
    if b == "" then false
    else if a == "" then true
    else if a[0] != b[0] then a[0] < b[0]
    else StrLess(a[1..], b[1..])
  }

  function IntOp(op: BinOp, a: int, b: int): Option<Value> {
    match op
    case Add => Some(IntV(a + b))
    case Sub => Some(IntV(a - b))
    case Mul => Some(IntV(a * b))
    case Div => if b == 0 then None else Some(IntV(TruncDiv(a, b)))
    case Mod => if b == 0 then None else Some(IntV(TruncMod(a, b)))
    case BitAnd => Some(IntV(Bitwise(Both, a, b, 64)))
    case BitOr => Some(IntV(Bitwise(Either, a, b, 64)))
    case BitXor => Some(IntV(Bitwise(Differ, a, b, 64)))
    case Shl => if b < 0 then None else Some(IntV(a * Pow2(b)))
    case Shr => if b < 0 then None else Some(IntV(a / Pow2(b)))
    case Eq => Some(BoolV(a == b))
    case Ne => Some(BoolV(a != b))
    case Lt => Some(BoolV(a < b))
    case Le => Some(BoolV(a <= b))
    case Gt => Some(BoolV(a > b))
    case Ge => Some(BoolV(a >= b))
  }

  /** Equality of two operands: different tags are unequal, and two captures are two
      separate allocations, so they are unequal too. */
  predicate SameValue(l: Value, r: Value) {
    match (l, r)
    case (IntV(a), IntV(b)) => a == b
    case (BoolV(a), BoolV(b)) => a == b
    case (StrV(a), StrV(b)) => a == b
    case _ => false
  }

  function ApplyBin(op: BinOp, l: Value, r: Value): Option<Value> {
    if l == Null || r == Null then None
    else if l.IntV? && r.IntV? then IntOp(op, l.i, r.i)
    else match op
      case Eq => Some(BoolV(SameValue(l, r)))
      case Ne => Some(BoolV(!SameValue(l, r)))
      case Lt => if l.StrV? && r.StrV? then Some(BoolV(StrLess(l.s, r.s))) else None
      case Le => if l.StrV? && r.StrV? then Some(BoolV(!StrLess(r.s, l.s))) else None
      case Gt => if l.StrV? && r.StrV? then Some(BoolV(StrLess(r.s, l.s))) else None
      case Ge => if l.StrV? && r.StrV? then Some(BoolV(!StrLess(l.s, r.s))) else None
      case _ => None
  }

  /** Bool, or an integer read as "nonzero"; nothing else has a truth value. */
  function Truth(v: Value): Option<bool> {
    match v
    case BoolV(b) => Some(b)
    case IntV(i) => Some(i != 0)
    case _ => None
  }

  function ApplyUn(op: UnOp, v: Value): Option<Value> {
    match op
    case Neg => if v.IntV? then Some(IntV(-v.i)) else None
    case BitNot => if v.IntV? then Some(IntV(-v.i - 1)) else None
    case Not => if Truth(v).Some? then Some(BoolV(!Truth(v).value)) else None
  }

  // ── Context ───────────────────────────────────────────────────────────

  /** Everything an expression can observe: the input, the cursor, the active window
      [lo, hi), the environment, the innermost loop counter, the open scope's start. */
  datatype EvalCtx = EvalCtx(input: Bytes, pos: nat, hi: nat, env: Env,
                             loop: Option<int>, scope: nat)

  function EvalContext(w: Builtin, x: EvalCtx): Option<Value> {
    match w
    case AtPos => Some(IntV(x.pos))
    case AtStart => Some(IntV(x.scope))
    case AtEnd => Some(IntV(x.hi))
    case AtRemaining => Some(IntV(x.hi - x.pos))
    case AtIndex => if x.loop.Some? then Some(IntV(x.loop.value)) else None
    case AtBuffer => Some(CapV(Carrier(x.scope, x.pos, TBytes, Null, Plain)))
  }

  function Min(a: int, b: int): int { if a < b then a else b }
  function Max(a: int, b: int): int { if a > b then a else b }

  function ApplyCall(f: Name, vs: seq<Value>, x: EvalCtx): Option<Value> {
    if f == "abs" && |vs| == 1 then
      if vs[0].IntV? then Some(IntV(if vs[0].i < 0 then -vs[0].i else vs[0].i)) else None
    else if f == "min" && |vs| == 2 then
      if vs[0].IntV? && vs[1].IntV? then Some(IntV(Min(vs[0].i, vs[1].i))) else None
    else if f == "max" && |vs| == 2 then
      if vs[0].IntV? && vs[1].IntV? then Some(IntV(Max(vs[0].i, vs[1].i))) else None
    else if f == "clamp" && |vs| == 3 then
      if vs[0].IntV? && vs[1].IntV? && vs[2].IntV? then
        Some(IntV(if vs[0].i < vs[1].i then vs[1].i else if vs[0].i > vs[2].i then vs[2].i else vs[0].i))
      else None
    else if f == "peek" && |vs| == 0 then
      if x.pos < x.hi && x.pos < |x.input| then Some(IntV(x.input[x.pos])) else None
    else None
  }

  // ── The evaluator ─────────────────────────────────────────────────────

  function EvalExpr(e: Expr, x: EvalCtx): Option<Value>
    decreases e, 1
  {
    match e
    case IntLit(n) => Some(IntV(n))
    case BoolLit(b) => Some(BoolV(b))
    case StrLit(s) => Some(StrV(s))
    case EndianLit(le) => Some(BoolV(le))
    case Eoi => Some(IntV(|x.input|))
    case Context(w) => EvalContext(w, x)
    case Ref(n) => Lookup(x.env, n)
    case Bin(op, l, r) =>
      var lv := EvalExpr(l, x);
      var rv := EvalExpr(r, x);
      if lv.Some? && rv.Some? then ApplyBin(op, lv.value, rv.value) else None
    case AndE(l, r) =>
      var lv := EvalExpr(l, x);
      if lv.None? || Truth(lv.value).None? then None
      else if !Truth(lv.value).value then Some(BoolV(false))
      else
        var rv := EvalExpr(r, x);
        if rv.None? || Truth(rv.value).None? then None else Some(BoolV(Truth(rv.value).value))
    case OrE(l, r) =>
      var lv := EvalExpr(l, x);
      if lv.None? || Truth(lv.value).None? then None
      else if Truth(lv.value).value then Some(BoolV(true))
      else
        var rv := EvalExpr(r, x);
        if rv.None? || Truth(rv.value).None? then None else Some(BoolV(Truth(rv.value).value))
    case Un(op, a) =>
      var v := EvalExpr(a, x);
      if v.None? then None else ApplyUn(op, v.value)
    case Ternary(c, t, f) =>
      var v := EvalExpr(c, x);
      if v.None? || Truth(v.value).None? then None
      else if Truth(v.value).value then EvalExpr(t, x) else EvalExpr(f, x)
    case Call(f, args) =>
      var vs := EvalArgs(args, x);
      if vs.None? then None else ApplyCall(f, vs.value, x)
  }

  /** Arguments left to right; the first that errs stops the call. */
  function EvalArgs(args: seq<Expr>, x: EvalCtx): (r: Option<seq<Value>>)
    ensures r.Some? ==> |r.value| == |args|
    decreases args, 0
  {
    if args == [] then Some([])
    else
      var v := EvalExpr(args[0], x);
      if v.None? then None
      else
        var rest := EvalArgs(args[1..], x);
        if rest.None? then None else Some([v.value] + rest.value)
  }

  // ── Sizes, for step bounds ────────────────────────────────────────────

  function ExprSize(e: Expr): (n: nat)
    ensures n >= 1
    decreases e, 1
  {
    match e
    case Bin(_, l, r) => 1 + ExprSize(l) + ExprSize(r)
    case AndE(l, r) => 1 + ExprSize(l) + ExprSize(r)
    case OrE(l, r) => 1 + ExprSize(l) + ExprSize(r)
    case Un(_, a) => 1 + ExprSize(a)
    case Ternary(c, t, f) => 1 + ExprSize(c) + ExprSize(t) + ExprSize(f)
    case Call(_, args) => 1 + ArgsSize(args)
    case _ => 1
  }

  function ArgsSize(args: seq<Expr>): (n: nat)
    ensures n >= |args|
    decreases args, 0
  {
    if args == [] then 0 else ExprSize(args[0]) + ArgsSize(args[1..])
  }
}
