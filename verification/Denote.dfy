/** What a grammar means: a recursive, PEG-style parser over the observable state. It has
    no frames, no kont stack and no savepoints; a failed alternative simply did not happen.
    Fuel bounds rule calls and loop iterations, since a grammar need not terminate. */
module Denote {
  import opened Syntax
  import opened Eval
  import opened Wire
  import opened Machine
  import opened Compile

  /** The observable parser state. `wins` are the live windows, innermost last. */
  datatype Core = Core(pos: nat, env: Env, le: bool, wins: seq<Win>, log: Log)

  datatype Res = Ok(c: Core) | Failed | Out

  function CoreHi(input: Bytes, c: Core): nat {
    if c.wins == [] then |input| else c.wins[|c.wins| - 1].hi
  }

  function CoreLo(c: Core): nat {
    if c.wins == [] then 0 else c.wins[|c.wins| - 1].lo
  }

  function CoreCtx(input: Bytes, c: Core, loop: Option<int>): EvalCtx {
    EvalCtx(input, c.pos, CoreHi(input, c), c.env, loop, ScopeStart(c.log, 0))
  }

  function ValueOf(input: Bytes, e: Expr, c: Core, loop: Option<int>): Option<Value> {
    EvalExpr(e, CoreCtx(input, c, loop))
  }

  function Logged(c: Core, e: Event): Core { c.(log := c.log + [e]) }

  /** Record a produced value under a name: `_` is bound but not recorded. */
  function Place(c: Core, nm: Name, car: Carrier): Core {
    var c1 := if nm == "_" then c
              else Logged(c, FieldAt(nm, car, if car.ty.TComputed? then car.val else Null));
    c1.(env := [Binding(nm, car.val)] + c1.env)
  }

  /** A `where`: absent or true continues, anything else fails. */
  function Check(input: Bytes, w: Option<Expr>, c: Core, loop: Option<int>): Res {
    if w.None? then Ok(c)
    else
      var v := ValueOf(input, w.value, c, loop);
      if v.Some? && Truth(v.value) == Some(true) then Ok(c) else Failed
  }

  // ── Windows ───────────────────────────────────────────────────────────

  /** Open [pos, end) if it narrows the active window. */
  function OpenWindow(input: Bytes, c: Core, end: nat): Res {
    if c.pos > end || c.pos < CoreLo(c) || end > CoreHi(input, c) then Failed
    else Ok(c.(wins := c.wins + [Win(c.pos, end)]))
  }

  function OpenRelative(input: Bytes, c: Core, e: Expr, loop: Option<int>): Res {
    var c1 := if e.Ref? then Logged(c, DeterminesRest(e.name)) else c;
    var v := ValueOf(input, e, c1, loop);
    if v.None? || !v.value.IntV? then Failed else OpenWindow(input, c1, c1.pos + NonNeg(v.value.i))
  }

  function OpenInterval(input: Bytes, c: Core, iv: Interval, loop: Option<int>): Res {
    match iv
    case Length(len) => OpenRelative(input, c, len, loop)
    case StartEnd(st, en) =>
      var v := ValueOf(input, st, c, loop);
      if v.None? || !v.value.IntV? || v.value.i < 0 || v.value.i > |input| then Failed
      else
        var c1 := c.(pos := v.value.i);
        var w := ValueOf(input, en, c1, loop);
        if w.None? || !w.value.IntV? then Failed else OpenWindow(input, c1, NonNeg(w.value.i))
  }

  /** Close the innermost window; a checked close demands that it was consumed exactly. */
  function CloseWindow(input: Bytes, c: Core, checked: bool): Res {
    if c.wins == [] then Ok(c)
    else if checked && c.pos != CoreHi(input, c) then Failed
    else Ok(c.(wins := c.wins[..|c.wins| - 1]))
  }

  // ── Leaves ────────────────────────────────────────────────────────────

  function ParsePrim(input: Bytes, p: PrimInfo, w: Option<Expr>, nm: Name, c: Core, loop: Option<int>): Res {
    var r := if CoreHi(input, c) <= |input| then ReadPrim(p, input, c.pos, CoreHi(input, c), c.le) else None;
    if r.None? then Failed
    else Check(input, w, Place(c.(pos := r.value.end), nm, r.value), loop)
  }

  function ParseRun(input: Bytes, len: Option<Expr>, isString: bool, w: Option<Expr>, nm: Name, c: Core, loop: Option<int>): Res {
    var v := ValueOf(input, RunLength(len), c, loop);
    if v.None? || !v.value.IntV? || v.value.i < 0 || c.pos + v.value.i > CoreHi(input, c) then Failed
    else
      var e := c.pos + v.value.i;
      Check(input, w, Place(c.(pos := e), nm,
            Carrier(c.pos, e, if isString then TString else TBytes, Null, Plain)), loop)
  }

  /** One member of a bitfield: read in place, bind, check. */
  function ParseEntry(input: Bytes, p: PrimInfo, e: Entry, off: nat, c: Core, loop: Option<int>): Res {
    var r := if CoreHi(input, c) <= |input| then ReadMember(p, e.width, off, e.signed, input, c.pos, CoreHi(input, c), c.le) else None;
    if r.None? then Failed
    else Check(input, e.where, Place(Logged(c, BitsRun(MsbFirst(p, c.le))), e.name, r.value), loop)
  }

  function ParseEntries(input: Bytes, p: PrimInfo, es: seq<Entry>, off: nat, c: Core, loop: Option<int>): Res
    decreases |es|
  {
    if es == [] then Ok(c)
    else
      var r := ParseEntry(input, p, es[0], off, c, loop);
      if !r.Ok? then r else ParseEntries(input, p, es[1..], off + es[0].width, r.c, loop)
  }

  lemma CheckKeeps(input: Bytes, w: Option<Expr>, c: Core, loop: Option<int>)
    ensures !Check(input, w, c, loop).Out?
    ensures Check(input, w, c, loop).Ok? ==> Check(input, w, c, loop).c == c
  {
    hide EvalExpr;
  }

  /** Members leave the cursor and the windows alone, and have checked the container fits. */
  lemma {:induction false} EntriesFit(input: Bytes, p: PrimInfo, es: seq<Entry>, off: nat, c: Core, loop: Option<int>)
    ensures var r := ParseEntries(input, p, es, off, c, loop);
            !r.Out? && (r.Ok? ==> r.c.pos == c.pos && r.c.wins == c.wins && c.log <= r.c.log
                                  && (es != [] ==> c.pos + ByteCount(p) <= CoreHi(input, c) <= |input|))
    decreases |es|
  {
    hide EvalExpr, ReadInt, MemberValue, MsbFirst, Check;
    if es != [] && CoreHi(input, c) <= |input| {
      var r := ReadMember(p, es[0].width, off, es[0].signed, input, c.pos, CoreHi(input, c), c.le);
      if r.Some? {
        var c1 := Place(Logged(c, BitsRun(MsbFirst(p, c.le))), es[0].name, r.value);
        CheckKeeps(input, es[0].where, c1, loop);
        EntriesFit(input, p, es[1..], off + es[0].width, c1, loop);
      }
    }
  }

  function ParseBitfield(input: Bytes, p: PrimInfo, es: seq<Entry>, c: Core, loop: Option<int>): Res {
    var r := ParseEntries(input, p, es, 0, c, loop);
    if r.Ok? then Ok(r.c.(pos := r.c.pos + ByteCount(p))) else r
  }

  function ParseCompute(input: Bytes, e: Expr, nm: Name, c: Core, loop: Option<int>): Res {
    var v := ValueOf(input, e, c, loop);
    if v.None? || v.value == Null then Failed
    else Ok(Place(c, nm, Carrier(c.pos, c.pos, TComputed, Lower(v.value), Plain)))
  }

  function ParseEndian(input: Bytes, e: Expr, c: Core, loop: Option<int>): Res {
    var v := ValueOf(input, e, c, loop);
    if v.None? || Truth(v.value).None? then Failed else Ok(c.(le := Truth(v.value).value))
  }

  // ── Switch ────────────────────────────────────────────────────────────

  predicate CaseMatches(cv: CaseValue, v: Value) {
    match cv
    case IntCase(n) => v == IntV(n)
    case StrCase(s) => v == StrV(s)
    case RangeCase(lo, hi) => v.IntV? && lo <= v.i <= hi
  }

  /** The first case that matches, or |cases|. */
  function SelectCase(cases: seq<Case>, v: Value): (r: nat)
    ensures r <= |cases|
  {
    if cases == [] then 0
    else if CaseMatches(cases[0].value, v) then 0
    else 1 + SelectCase(cases[1..], v)
  }

  predicate CaseInhabited(cv: CaseValue) { cv.RangeCase? ==> cv.lo <= cv.hi }

  /** One past the last case that can match at all: the default arm's tag. */
  function DefaultOrdinal(cases: seq<Case>): nat {
    if cases == [] then 0
    else
      var d := DefaultOrdinal(cases[1..]);
      if d > 0 then d + 1 else if CaseInhabited(cases[0].value) then 1 else 0
  }

  // ── Types ─────────────────────────────────────────────────────────────

  function ParseType(g: Grammar, input: Bytes, fuel: nat, t: Type, nm: Name, c: Core, loop: Option<int>): Res
    decreases fuel, t, 4
  {
    match t
    case Prim(p, w) => ParsePrim(input, p, w, nm, c, loop)
    case ByteRun(len, isString, w) => ParseRun(input, len, isString, w, nm, c, loop)
    case Struct(fields, w) =>
      var r := ParseRecord(g, input, fuel, t, Logged(c, OpenStruct(nm, c.pos)), loop);
      if r.Ok? then Ok(Logged(r.c, CloseStruct(r.c.pos))) else r
    case RuleRef(n) =>
      var r := ParseRule(g, input, fuel, n, Logged(c, OpenStruct(nm, c.pos)), loop);
      if r.Ok? then Ok(Logged(r.c, CloseStruct(r.c.pos))) else r
    case Compute(e) => ParseCompute(input, e, nm, c, loop)
    case EndianSwitch(e) => ParseEndian(input, e, c, loop)
    case Bitfield(p, es) =>
      var r := ParseBitfield(input, p, es, Logged(c, OpenStruct(nm, c.pos)), loop);
      if r.Ok? then Ok(Logged(r.c, CloseStruct(r.c.pos))) else r
    case Optional(elem, pred) =>
      if pred.Some? then
        var v := ValueOf(input, pred.value, c, loop);
        if v.None? || Truth(v.value).None? then Failed
        else if Truth(v.value).value then ParseType(g, input, fuel, elem, nm, c, loop)
        else Ok(c)
      else
        var r := ParseType(g, input, fuel, elem, nm, c, loop);
        if r.Failed? then Ok(c) else r
    case Switch(disc, cases, dflt) =>
      var v := ValueOf(input, disc, c, loop);
      if v.None? || v.value == Null then Failed
      else
        var i := SelectCase(cases, v.value);
        if i < |cases| then ParseCase(g, input, fuel, cases[i], nm, Logged(c, PendingTag(i)), loop)
        else ParseDefault(g, input, fuel, dflt, nm, Logged(c, PendingTag(DefaultOrdinal(cases))), loop)
    case Choice(arms) =>
      if arms == [] then Ok(c) else ParseArms(g, input, fuel, arms, 0, nm, c, loop)
    case Array(_, _, _, _, _, _, _) =>
      var r := ParseArray(g, input, fuel, t, nm, c, loop);
      if r.Ok? then Check(input, t.where, r.c, loop) else r
  }

  function ParseCase(g: Grammar, input: Bytes, fuel: nat, k: Case, nm: Name, c: Core, loop: Option<int>): Res
    decreases fuel, k, 0
  {
    ParseType(g, input, fuel, k.target, nm, c, loop)
  }

  function ParseDefault(g: Grammar, input: Bytes, fuel: nat, d: Default, nm: Name, c: Core, loop: Option<int>): Res
    decreases fuel, d, 0
  {
    if d.DefaultTo? then ParseType(g, input, fuel, d.target, nm, c, loop) else Failed
  }

  /** Ordered choice over arms i..: the first that succeeds, from the same state. */
  function ParseArms(g: Grammar, input: Bytes, fuel: nat, arms: seq<Arm>, i: nat, nm: Name, c: Core, loop: Option<int>): Res
    decreases fuel, arms, 0
  {
    if arms == [] then Failed
    else
      var r := ParseArm(g, input, fuel, arms[0], i, nm, c, loop);
      if r.Failed? then ParseArms(g, input, fuel, arms[1..], i + 1, nm, c, loop) else r
  }

  function ParseArm(g: Grammar, input: Bytes, fuel: nat, a: Arm, tag: nat, nm: Name, c: Core, loop: Option<int>): Res
    decreases fuel, a, 0
  {
    var c1 := Logged(c, OpenVariant(a.name, c.pos, tag));
    var r := if a.body.RuleRef? then ParseRule(g, input, fuel, a.body.rule, c1, loop)
             else ParseType(g, input, fuel, a.body, nm, c1, loop);
    if r.Ok? then Ok(Logged(r.c, CloseStruct(r.c.pos))) else r
  }

  // ── Structs ───────────────────────────────────────────────────────────

  /** Fields and struct-level `where`, without the enclosing scope. */
  function ParseRecord(g: Grammar, input: Bytes, fuel: nat, t: Type, c: Core, loop: Option<int>): Res
    requires t.Struct?
    decreases fuel, t, 1
  {
    var r := ParseFields(g, input, fuel, t.fields, c, loop);
    if !r.Ok? then r else Check(input, t.where, r.c, loop)
  }

  function ParseFields(g: Grammar, input: Bytes, fuel: nat, fields: seq<Field>, c: Core, loop: Option<int>): Res
    decreases fuel, fields, 1
  {
    var r := ParseChain(g, input, fuel, fields, c, loop);
    if r.Ok? && HasRest(fields) then CloseWindow(input, r.c, true) else r
  }

  function ParseChain(g: Grammar, input: Bytes, fuel: nat, fields: seq<Field>, c: Core, loop: Option<int>): Res
    decreases fuel, fields, 0
  {
    if fields == [] then Ok(c)
    else
      var r := ParseField(g, input, fuel, fields[0], c, loop);
      if !r.Ok? then r else ParseChain(g, input, fuel, fields[1..], r.c, loop)
  }

  function ParseField(g: Grammar, input: Bytes, fuel: nat, f: Field, c: Core, loop: Option<int>): Res
    decreases fuel, f, 0
  {
    if f.rest then
      var r := ParseType(g, input, fuel, f.body, f.name, c, loop);
      if !r.Ok? then r else OpenRelative(input, r.c, Ref(f.name), loop)
    else if f.interval.Some? then
      var o := OpenInterval(input, c, f.interval.value, loop);
      if !o.Ok? then o
      else
        var r := ParseType(g, input, fuel, f.body, f.name, o.c, loop);
        if !r.Ok? then r else CloseWindow(input, r.c, false)
    else ParseType(g, input, fuel, f.body, f.name, c, loop)
  }

  // ── Rules ─────────────────────────────────────────────────────────────

  function ParseBody(g: Grammar, input: Bytes, fuel: nat, t: Type, c: Core, loop: Option<int>): Res
    decreases fuel, t, 5
  {
    match t
    case Struct(_, _) => ParseRecord(g, input, fuel, t, c, loop)
    case Bitfield(p, es) => ParseBitfield(input, p, es, c, loop)
    case _ => ParseType(g, input, fuel, t, "", c, loop)
  }

  /** A call: the callee sees the caller's bindings, and its own do not escape. */
  function ParseRule(g: Grammar, input: Bytes, fuel: nat, n: Name, c: Core, loop: Option<int>): Res
    decreases fuel, RuleRef(n), 0
  {
    var i := RuleIndex(g, n);
    if i.None? then Failed
    else if fuel == 0 then Out
    else
      RuleIndexBound(g, n);
      var r := ParseBody(g, input, fuel - 1, g[i.value].body, c, loop);
      if r.Ok? then Ok(r.c.(env := c.env)) else r
  }

  // ── Arrays ────────────────────────────────────────────────────────────

  /** Outcome of a loop: the state after it and how many elements it completed. */
  datatype LoopRes = Done(c: Core, count: nat) | LoopFailed | LoopOut

  /** One iteration's body: the separator (not before the first element), then the element,
      in its own window if the array gives it one. */
  function ParseElem(g: Grammar, input: Bytes, fuel: nat, t: Type, withSep: bool, i: nat, c: Core): Res
    requires t.Array?
    decreases fuel, t, 0
  {
    var r := if withSep && t.sep.Some? then ParseType(g, input, fuel, t.sep.value, "_", c, Some(i)) else Ok(c);
    if !r.Ok? then r
    else if t.elemInterval.Some? then
      var o := OpenInterval(input, r.c, t.elemInterval.value, Some(i));
      if !o.Ok? then o
      else
        var b := ParseType(g, input, fuel, t.elem, "", o.c, Some(i));
        if !b.Ok? then b else CloseWindow(input, b.c, false)
    else ParseType(g, input, fuel, t.elem, "", r.c, Some(i))
  }

  /** Whether the loop stops with i elements done: Some(stop), or None if the test errs. */
  function StopTest(input: Bytes, t: Type, limit: int, i: nat, c: Core): Option<bool>
    requires t.Array?
  {
    match t.mode
    case FixedCount => Some(i >= limit)
    case UntilEof => Some(c.pos >= CoreHi(input, c))
    case CountTerm =>
      var v := ValueOf(input, t.bound, c, Some(i));
      if v.None? || !v.value.IntV? then None else Some(i >= v.value.i)
    case UntilTerm =>
      var v := ValueOf(input, t.bound, c, Some(i));
      if v.None? then None else Truth(v.value)
  }

  /** Elements from the i-th on, the state at c. In resync mode a failed element is retried
      one byte further on, until the window ends. */
  function ParseLoop(g: Grammar, input: Bytes, fuel: nat, t: Type, limit: int, withSep: bool, i: nat, c: Core): LoopRes
    requires t.Array?
    decreases fuel, t, 1
  {
    match ParseElem(g, input, fuel, t, withSep, i, c)
    case Out => LoopOut
    case Failed =>
      if !t.resync then LoopFailed
      else if c.pos >= CoreHi(input, c) then
        if limit >= 0 && i < limit then LoopFailed else Done(c, i)
      else if fuel == 0 then LoopOut
      else ParseLoop(g, input, fuel - 1, t, limit, true, i, c.(pos := c.pos + 1))
    case Ok(c1) =>
      var stop := StopTest(input, t, limit, i + 1, c1);
      if stop.None? then LoopFailed
      else if stop.value then Done(c1, i + 1)
      else if fuel == 0 then LoopOut
      else ParseLoop(g, input, fuel - 1, t, limit, true, i + 1, c1)
  }

  /** The loop with its bound evaluated and its pre-test made. */
  function ParseItems(g: Grammar, input: Bytes, fuel: nat, t: Type, nm: Name, c: Core, loop: Option<int>): LoopRes
    requires t.Array?
    decreases fuel, t, 2
  {
    if t.mode.FixedCount? || t.mode.CountTerm? then
      var c1 := if t.bound.Ref? then Logged(c, PendingCount(t.bound.name)) else c;
      var v := ValueOf(input, t.bound, c1, loop);
      if v.None? || !v.value.IntV? then LoopFailed
      else
        var c2 := Logged(c1, OpenArray(nm, c1.pos));
        if v.value.i <= 0 then Done(c2, 0)
        else ParseLoop(g, input, fuel, t, v.value.i, false, 0, c2)
    else
      var c2 := Logged(c, OpenArray(nm, c.pos));
      var stop := StopTest(input, t, -1, 0, c2);
      if stop.None? then LoopFailed
      else if stop.value then Done(c2, 0)
      else ParseLoop(g, input, fuel, t, -1, false, 0, c2)
  }

  /** Element bindings do not escape the array. */
  function ParseArray(g: Grammar, input: Bytes, fuel: nat, t: Type, nm: Name, c: Core, loop: Option<int>): Res
    requires t.Array?
    decreases fuel, t, 3
  {
    match ParseItems(g, input, fuel, t, nm, c, loop)
    case Done(c1, _) => Ok(Logged(c1, CloseArray(c1.pos)).(env := c.env))
    case LoopFailed => Failed
    case LoopOut => Out
  }
}
