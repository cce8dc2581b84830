/** The lowering: grammar to kont graph. Code is an arena that only grows; a construct's
    own placeholders (the array loop-back, the resync handler) are patched in place once
    its element has been compiled, and rule entries are patched after every rule is in. */
module Compile {
  import opened Syntax
  import opened Eval
  import opened Wire
  import opened Machine

  // ── Expressions ───────────────────────────────────────────────────────

  function CompileExpr(e: Expr): EKont
    decreases e, 1
  {
    match e
    case IntLit(n) => LitK(IntV(n))
    case BoolLit(b) => LitK(BoolV(b))
    case StrLit(s) => LitK(StrV(s))
    case EndianLit(le) => LitK(BoolV(le))
    case Eoi => EoiK
    case Context(w) => ContextK(w)
    case Ref(n) => RefK(n)
    case Bin(op, l, r) => BinK(op, CompileExpr(l), CompileExpr(r))
    case AndE(l, r) => AndK(CompileExpr(l), CompileExpr(r))
    case OrE(l, r) => OrK(CompileExpr(l), CompileExpr(r))
    case Un(op, a) => UnK(op, CompileExpr(a))
    case Ternary(c, t, f) => TernaryK(CompileExpr(c), CompileExpr(t), CompileExpr(f))
    case Call(f, args) => CallK(f, CompileArgs(args))
  }

  function CompileArgs(args: seq<Expr>): (ks: seq<EKont>)
    ensures |ks| == |args|
    ensures forall i :: 0 <= i < |args| ==> ks[i] == CompileExpr(args[i])
    decreases args, 0
  {
    if args == [] then [] else [CompileExpr(args[0])] + CompileArgs(args[1..])
  }

  // ── The lexical-scope chain ───────────────────────────────────────────

  datatype Rho =
    | Root
    | InField(name: Name, parent: Rho)
    | InAlt(nextArm: Label, parent: Rho)
    | InOptional(skip: Label, parent: Rho)
    | InArrayElem(resync: Option<Label>, parent: Rho)

  /** intern_field_or_anon. */
  function FieldName(r: Rho): Name {
    match r
    case InField(n, _) => n
    case Root | InArrayElem(_, _) => ""
    case InAlt(_, p) => FieldName(p)
    case InOptional(_, p) => FieldName(p)
  }

  /** find_backtrack_target. */
  function BacktrackTarget(r: Rho): Option<Label> {
    match r
    case Root => None
    case InAlt(l, _) => Some(l)
    case InOptional(l, _) => Some(l)
    case InArrayElem(l, p) => if l.Some? then l else BacktrackTarget(p)
    case InField(_, p) => BacktrackTarget(p)
  }

  // ── Building blocks ───────────────────────────────────────────────────

  /** Code so far, and the label of the construct just compiled. */
  datatype Built = Built(code: seq<Node>, entry: Label)

  function Emit(code: seq<Node>, n: Node): (b: Built)
    ensures code <= b.code && b.entry == |code| && |b.code| == |code| + 1 && b.code[b.entry] == n
  {
    Built(code + [n], |code|)
  }

  function FieldDest(code: seq<Node>, nm: Name, tail: Label): (b: Built)
    ensures code <= b.code
  {
    var st := Emit(code, StoreEnv(nm, tail));
    if nm == "_" then st else Emit(st.code, Capture(nm, st.entry))
  }

  function WrapWhere(code: seq<Node>, w: Option<Expr>, r: Rho, next: Label): (b: Built)
    ensures code <= b.code
  {
    if w.None? then Built(code, next)
    else
      var bt := BacktrackTarget(r);
      if bt.Some? then Emit(code, EvalConstraint(CompileExpr(w.value), bt.value, next))
      else
        var ab := Emit(code, AbortRule);
        Emit(ab.code, EvalConstraint(CompileExpr(w.value), ab.entry, next))
  }

  /** A run states its width, or fills its window. */
  function RunLength(len: Option<Expr>): Expr {
    if len.Some? then len.value else Context(AtRemaining)
  }

  function IntervalEntry(code: seq<Node>, iv: Interval, body: Label): (b: Built)
    ensures code <= b.code
  {
    match iv
    case StartEnd(st, en) =>
      var push := Emit(code, PushInterval(false, CompileExpr(en), body));
      Emit(push.code, Seek(CompileExpr(st), push.entry))
    case Length(len) => Emit(code, PushInterval(true, CompileExpr(len), body))
  }

  // ── Bitfields ─────────────────────────────────────────────────────────

  /** One member of a bitfield in front of the ones after it. */
  function CompileEntry(code: seq<Node>, p: PrimInfo, e: Entry, off: nat, r: Rho, next: Label): (b: Built)
    ensures code <= b.code
  {
    var wh := WrapWhere(code, e.where, r, next);
    var dest := FieldDest(wh.code, e.name, wh.entry);
    Emit(dest.code, ExtractBits(p, e.width, off, e.signed, dest.entry))
  }

  /** Members i.. of a bitfield, chained to `next`; `off` is the widths before member i. */
  function CompileEntries(code: seq<Node>, p: PrimInfo, es: seq<Entry>, off: nat, r: Rho, next: Label): (b: Built)
    ensures code <= b.code
    decreases |es|
  {
    if es == [] then Built(code, next)
    else
      var rest := CompileEntries(code, p, es[1..], off + es[0].width, r, next);
      CompileEntry(rest.code, p, es[0], off, r, rest.entry)
  }

  function CompileBitfield(code: seq<Node>, p: PrimInfo, es: seq<Entry>, r: Rho, next: Label): (b: Built)
    ensures code <= b.code
  {
    var adv := Emit(code, AdvancePos(ByteCount(p), next));
    CompileEntries(adv.code, p, es, 0, r, adv.entry)
  }

  // ── Switch case expansion ─────────────────────────────────────────────

  function RangeCases(lo: int, hi: int, target: Label, ordinal: nat): seq<SwitchCase>
    decreases hi - lo
  {
    if lo > hi then [] else [SwitchCase(IntV(lo), target, ordinal)] + RangeCases(lo + 1, hi, target, ordinal)
  }

  function CaseEntries(v: CaseValue, target: Label, ordinal: nat): seq<SwitchCase> {
    match v
    case IntCase(n) => [SwitchCase(IntV(n), target, ordinal)]
    case StrCase(s) => [SwitchCase(StrV(s), target, ordinal)]
    case RangeCase(lo, hi) => RangeCases(lo, hi, target, ordinal)
  }

  // ── The fixed part of an array ────────────────────────────────────────

  /** Labels of the nodes around an array's element: EndArray, ArrayNext, the resync
      handler if any, and where the element body continues. */
  datatype BuiltHead = BuiltHead(code: seq<Node>, end: Label, back: Label, resync: Option<Label>, tail: Label)

  /** The nodes around the element; the loop-back and the resync handler have no body yet. */
  function ArrayHead(code: seq<Node>, t: Type, r: Rho, next: Label): (h: BuiltHead)
    requires t.Array?
    ensures code <= h.code
    ensures |code| <= h.end < h.back < |h.code|
    ensures h.resync.Some? <==> t.resync
    ensures h.resync.Some? ==> h.back < h.resync.value < |h.code|
  {
    var wh := WrapWhere(code, t.where, r, next);
    var end := Emit(wh.code, EndArray(t.resync, wh.entry));
    var nxt := Emit(end.code, ArrayNext(t.mode, CompileExpr(t.bound), end.entry, 0, t.resync));
    var rk := if t.resync then Emit(nxt.code, Resync(0, end.entry)) else nxt;
    var res := if t.resync then Some(rk.entry) else None;
    if t.elemInterval.Some? then
      var pop := Emit(rk.code, PopInterval(false, nxt.entry));
      BuiltHead(pop.code, end.entry, nxt.entry, res, pop.entry)
    else BuiltHead(rk.code, end.entry, nxt.entry, res, nxt.entry)
  }

  /** Patch the loop-back and the resync handler, now that the loop entry exists. */
  function ArrayPatch(code: seq<Node>, ghost base: nat, t: Type, h: BuiltHead, loop: Label): (c: seq<Node>)
    requires t.Array?
    requires base <= h.back < |code|
    requires h.resync.Some? ==> base <= h.resync.value < |code|
    ensures |c| == |code| && forall i :: 0 <= i < base ==> c[i] == code[i]
  {
    var c1 := code[h.back := ArrayNext(t.mode, CompileExpr(t.bound), h.end, loop, t.resync)];
    if h.resync.Some? then c1[h.resync.value := Resync(loop, h.end)] else c1
  }

  // ── Types ─────────────────────────────────────────────────────────────

  /** Arms i.. of a choice: arm i's entry, and the link installed while arm i runs. */
  datatype BuiltArms = BuiltArms(code: seq<Node>, entry: Label, link: Label)
  datatype BuiltIteration = BuiltIteration(code: seq<Node>, head: Label, loop: Label)
  datatype BuiltCases = BuiltCases(code: seq<Node>, cases: seq<SwitchCase>)
  datatype BuiltDefault = BuiltDefault(code: seq<Node>, target: Option<Label>)

  function CompileType(code: seq<Node>, t: Type, r: Rho, next: Label): (b: Built)
    ensures code <= b.code
    decreases t, 2
  {
    match t
    case Struct(_, _) => CompileStruct(code, t, r, next)
    case Optional(_, _) => CompileOptional(code, t, r, next)
    case Switch(_, _, _) => CompileSwitch(code, t, r, next)
    case Choice(_) => CompileChoice(code, t, r, next)
    case Array(_, _, _, _, _, _, _) => CompileArray(code, t, r, next)
    case _ => CompileLeaf(code, t, r, next)
  }

  predicate IsLeaf(t: Type) {
    t.Prim? || t.ByteRun? || t.RuleRef? || t.Compute? || t.EndianSwitch? || t.Bitfield?
  }

  /** Types with no type inside. */
  function CompileLeaf(code: seq<Node>, t: Type, r: Rho, next: Label): (b: Built)
    requires IsLeaf(t)
    ensures code <= b.code
  {
    match t
    case Prim(prim, w) =>
      var wh := WrapWhere(code, w, r, next);
      var dest := FieldDest(wh.code, FieldName(r), wh.entry);
      Emit(dest.code, MatchPrim(prim, dest.entry))
    case ByteRun(len, isString, w) =>
      var wh := WrapWhere(code, w, r, next);
      var dest := FieldDest(wh.code, FieldName(r), wh.entry);
      Emit(dest.code, MatchBytes(CompileExpr(RunLength(len)), isString, dest.entry))
    case RuleRef(n) =>
      var end := Emit(code, EndStruct(next));
      var inv := Emit(end.code, InvokeRule(n, 0, BacktrackTarget(r), end.entry));
      Emit(inv.code, BeginStruct(FieldName(r), inv.entry))
    case Compute(e) =>
      var dest := FieldDest(code, FieldName(r), next);
      Emit(dest.code, BindCompute(CompileExpr(e), dest.entry))
    case EndianSwitch(e) => Emit(code, SetEndian(CompileExpr(e), next))
    case Bitfield(p, es) =>
      var end := Emit(code, EndStruct(next));
      var bf := CompileBitfield(end.code, p, es, r, end.entry);
      Emit(bf.code, BeginStruct(FieldName(r), bf.entry))
  }

  function CompileStruct(code: seq<Node>, t: Type, r: Rho, next: Label): (b: Built)
    requires t.Struct?
    ensures code <= b.code
    decreases t, 1
  {
    var end := Emit(code, EndStruct(next));
    var rec := CompileRecord(end.code, t, r, end.entry);
    Emit(rec.code, BeginStruct(FieldName(r), rec.entry))
  }

  /** Fields, then the struct-level `where`. */
  function CompileRecord(code: seq<Node>, t: Type, r: Rho, next: Label): (b: Built)
    requires t.Struct?
    ensures code <= b.code
    decreases t, 0
  {
    var wh := WrapWhere(code, t.where, r, next);
    CompileFields(wh.code, t.fields, r, wh.entry)
  }

  function CompileOptional(code: seq<Node>, t: Type, r: Rho, next: Label): (b: Built)
    requires t.Optional?
    ensures code <= b.code
    decreases t, 1
  {
    if t.pred.Some? then
      var inner := CompileType(code, t.elem, r, next);
      Emit(inner.code, EvalConstraint(CompileExpr(t.pred.value), next, inner.entry))
    else
      var end := Emit(code, EndOptional(next));
      var skip := Emit(end.code, OnFail(Some(next), None, true));
      var inner := CompileType(skip.code, t.elem, InOptional(skip.entry, r), end.entry);
      Emit(inner.code, BeginOptional(skip.entry, inner.entry))
  }

  function CompileSwitch(code: seq<Node>, t: Type, r: Rho, next: Label): (b: Built)
    requires t.Switch?
    ensures code <= b.code
    decreases t, 1
  {
    var cs := CompileCases(code, t.cases, 0, r, next);
    var d := CompileDefault(cs.code, t.dflt, r, next);
    Emit(d.code, SwitchDispatch(CompileExpr(t.disc), cs.cases, d.target))
  }

  function CompileChoice(code: seq<Node>, t: Type, r: Rho, next: Label): (b: Built)
    requires t.Choice?
    ensures code <= b.code
    decreases t, 1
  {
    if t.arms == [] then Built(code, next)
    else if |t.arms| == 1 then CompileArm(code, t.arms[0], 0, r, next)
    else
      var commit := Emit(code, CommitChoice(next));
      var exh := Emit(commit.code, OnFail(None, None, true));
      var arms := CompileArms(exh.code, t.arms, 0, r, commit.entry, exh.entry);
      Emit(arms.code, BeginChoice(arms.link, arms.entry))
  }

  /** compile_array: the fixed part, the iteration body, then the patches. */
  function CompileArray(code: seq<Node>, t: Type, r: Rho, next: Label): (b: Built)
    requires t.Array?
    ensures code <= b.code
    decreases t, 1
  {
    var h := ArrayHead(code, t, r, next);
    var it := CompileIteration(h.code, t, InArrayElem(h.resync, r), h.tail);
    Emit(ArrayPatch(it.code, |code|, t, h, it.loop),
         BeginArray(FieldName(r), t.mode, CompileExpr(t.bound), h.end, h.resync, it.head))
  }

  /** The element in its window, and the loop-back entry that puts a separator first. */
  function CompileIteration(code: seq<Node>, t: Type, r: Rho, tail: Label): (b: BuiltIteration)
    requires t.Array?
    ensures code <= b.code
    decreases t, 0
  {
    var body := CompileType(code, t.elem, r, tail);
    var head := if t.elemInterval.Some? then IntervalEntry(body.code, t.elemInterval.value, body.entry) else body;
    if t.sep.None? then BuiltIteration(head.code, head.entry, head.entry)
    else
      var loop := CompileType(head.code, t.sep.value, InField("_", r), head.entry);
      BuiltIteration(loop.code, head.entry, loop.entry)
  }

  /** One field, continuing at `chain`. */
  function CompileField(code: seq<Node>, f: Field, r: Rho, chain: Label): (b: Built)
    ensures code <= b.code
    decreases f, 0
  {
    if f.rest then
      var push := Emit(code, PushInterval(true, RefK(f.name), chain));
      CompileType(push.code, f.body, InField(f.name, r), push.entry)
    else if f.interval.Some? then
      var pop := Emit(code, PopInterval(false, chain));
      var body := CompileType(pop.code, f.body, InField(f.name, r), pop.entry);
      IntervalEntry(body.code, f.interval.value, body.entry)
    else CompileType(code, f.body, InField(f.name, r), chain)
  }

  /** Fields last to first, each chaining to the ones after it. */
  function CompileChain(code: seq<Node>, fields: seq<Field>, r: Rho, chain: Label): (b: Built)
    ensures code <= b.code
    decreases fields, 0
  {
    if fields == [] then Built(code, chain)
    else
      var rest := CompileChain(code, fields[1..], r, chain);
      CompileField(rest.code, fields[0], r, rest.entry)
  }

  predicate HasRest(fields: seq<Field>) { exists i :: 0 <= i < |fields| && fields[i].rest }

  lemma RestSplit(fields: seq<Field>)
    requires fields != []
    ensures HasRest(fields) <==> fields[0].rest || HasRest(fields[1..])
  {
    if HasRest(fields) && !fields[0].rest {
      var i :| 0 <= i < |fields| && fields[i].rest;
      assert fields[1..][i - 1].rest;
    }
    if HasRest(fields[1..]) {
      var i :| 0 <= i < |fields[1..]| && fields[1..][i].rest;
      assert fields[i + 1].rest;
    }
  }

  function CompileFields(code: seq<Node>, fields: seq<Field>, r: Rho, tail: Label): (b: Built)
    ensures code <= b.code
    decreases fields, 1
  {
    if HasRest(fields) then
      var pop := Emit(code, PopInterval(true, tail));
      CompileChain(pop.code, fields, r, pop.entry)
    else CompileChain(code, fields, r, tail)
  }

  /** build_variant_arm. */
  function CompileArm(code: seq<Node>, a: Arm, tag: nat, r: Rho, success: Label): (b: Built)
    ensures code <= b.code
    decreases a, 0
  {
    var end := Emit(code, EndStruct(success));
    var inner :=
      if a.body.RuleRef? then Emit(end.code, InvokeRule(a.body.rule, 0, BacktrackTarget(r), end.entry))
      else CompileType(end.code, a.body, r, end.entry);
    Emit(inner.code, BeginVariant(a.name, tag, inner.entry))
  }

  /** The last arm is compiled under the enclosing scope; every other arm under the link
      that dispatches to its successor. */
  function CompileArms(code: seq<Node>, arms: seq<Arm>, i: nat, r: Rho, commit: Label, exhausted: Label): (b: BuiltArms)
    requires arms != []
    ensures code <= b.code
    decreases arms, 0
  {
    if |arms| == 1 then
      var last := CompileArm(code, arms[0], i, r, commit);
      BuiltArms(last.code, last.entry, exhausted)
    else
      var rest := CompileArms(code, arms[1..], i + 1, r, commit, exhausted);
      var link := Emit(rest.code, OnFail(Some(rest.entry), Some(rest.link), false));
      var arm := CompileArm(link.code, arms[0], i, InAlt(link.entry, r), commit);
      BuiltArms(arm.code, arm.entry, link.entry)
  }

  function CompileCase(code: seq<Node>, c: Case, r: Rho, next: Label): (b: Built)
    ensures code <= b.code
    decreases c, 0
  {
    CompileType(code, c.target, r, next)
  }

  function CompileCases(code: seq<Node>, cases: seq<Case>, i: nat, r: Rho, next: Label): (b: BuiltCases)
    ensures code <= b.code
    decreases cases, 0
  {
    if cases == [] then BuiltCases(code, [])
    else
      var target := CompileCase(code, cases[0], r, next);
      var rest := CompileCases(target.code, cases[1..], i + 1, r, next);
      BuiltCases(rest.code, CaseEntries(cases[0].value, target.entry, i) + rest.cases)
  }

  function CompileDefault(code: seq<Node>, d: Default, r: Rho, next: Label): (b: BuiltDefault)
    ensures code <= b.code
    decreases d, 0
  {
    if d.DefaultTo? then
      var t := CompileType(code, d.target, r, next);
      BuiltDefault(t.code, Some(t.entry))
    else BuiltDefault(code, None)
  }

  // ── Rules and grammars ────────────────────────────────────────────────

  /** A rule body: top-level structs and bitfields are inlined, with no scope of their own. */
  function CompileBody(code: seq<Node>, t: Type, exit: Label): (b: Built)
    ensures code <= b.code
  {
    match t
    case Struct(_, _) => CompileRecord(code, t, Root, exit)
    case Bitfield(p, es) => CompileBitfield(code, p, es, Root, exit)
    case _ => CompileType(code, t, Root, exit)
  }

  /** One rule: its exit is ReturnRule, then Halt. */
  function CompileRule(code: seq<Node>, t: Type): (b: Built)
    ensures code <= b.code
  {
    var halt := Emit(code, Halt);
    var exit := Emit(halt.code, ReturnRule(halt.entry));
    CompileBody(exit.code, t, exit.entry)
  }

  datatype BuiltRules = BuiltRules(code: seq<Node>, entries: seq<Label>)

  function CompileRules(g: Grammar, n: nat): (b: BuiltRules)
    requires n <= |g|
    ensures |b.entries| == n
  {
    if n == 0 then BuiltRules([], [])
    else
      var before := CompileRules(g, n - 1);
      var rule := CompileRule(before.code, g[n - 1].body);
      BuiltRules(rule.code, before.entries + [rule.entry])
  }

  /** The final patch of one node: a rule call learns its callee's entry. */
  function PatchNode(n: Node, g: Grammar, entries: seq<Label>): Node
    requires |entries| == |g|
  {
    if n.InvokeRule? && RuleIndex(g, n.rule).Some? then
      RuleIndexBound(g, n.rule);
      n.(entry := entries[RuleIndex(g, n.rule).value])
    else n
  }

  function Patch(code: seq<Node>, g: Grammar, entries: seq<Label>): (r: seq<Node>)
    requires |entries| == |g|
    ensures |r| == |code|
    ensures forall i :: 0 <= i < |code| ==> r[i] == PatchNode(code[i], g, entries)
  {
    seq(|code|, i requires 0 <= i < |code| => PatchNode(code[i], g, entries))
  }

  function CompileGrammar(g: Grammar): (code: seq<Node>) {
    var b := CompileRules(g, |g|);
    Patch(b.code, g, b.entries)
  }
}
