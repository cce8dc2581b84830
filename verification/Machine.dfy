/** The CEK machine as a transition function. The spine is a graph of nodes addressed by
    label; expression konts are immutable trees; the K stack holds spine labels,
    expression konts and the dynamic konts a run allocates. */
module Machine {
  import opened Syntax
  import opened Eval
  import opened Wire

  // ── Code ──────────────────────────────────────────────────────────────

  /** Expression konts, as compile_expr emits them. */
  datatype EKont =
    | LitK(v: Value)
    | EoiK
    | ContextK(which: Builtin)
    | RefK(name: Name)
    | BinK(op: BinOp, left: EKont, right: EKont)
    | AndK(left: EKont, right: EKont)
    | OrK(left: EKont, right: EKont)
    | UnK(uop: UnOp, operand: EKont)
    | TernaryK(cond: EKont, thn: EKont, els: EKont)
    | CallK(func: Name, args: seq<EKont>)

  datatype SwitchCase = SwitchCase(value: Value, target: Label, ordinal: nat)

  /** Spine konts. `next` and every other Label points into the code. */
  datatype Node =
    | Halt
    | MatchPrim(prim: PrimInfo, next: Label)
    | Capture(name: Name, next: Label)
    | StoreEnv(name: Name, next: Label)
    | BeginStruct(name: Name, next: Label)
    | BeginVariant(name: Name, tag: nat, next: Label)
    | EndStruct(next: Label)
    | Seek(expr: EKont, next: Label)
    | PushInterval(relative: bool, expr: EKont, next: Label)
    | PopInterval(checked: bool, next: Label)
    | EvalConstraint(expr: EKont, onFalse: Label, next: Label)
    | BindCompute(expr: EKont, next: Label)
    | SetEndian(expr: EKont, next: Label)
    | MatchBytes(expr: EKont, isString: bool, next: Label)
    | SwitchDispatch(expr: EKont, cases: seq<SwitchCase>, dflt: Option<Label>)
    | BeginArray(name: Name, mode: ArrayMode, bound: EKont, endNode: Label,
                 resyncTo: Option<Label>, next: Label)
    | ArrayNext(mode: ArrayMode, bound: EKont, endNode: Label, body: Label, resync: bool)
    | EndArray(resync: bool, next: Label)
    | Resync(body: Label, endNode: Label)
    | ExtractBits(prim: PrimInfo, width: nat, off: nat, signed: bool, next: Label)
    | AdvancePos(amount: nat, next: Label)
    | InvokeRule(rule: Name, entry: Label, failTarget: Option<Label>, next: Label)
    | ReturnRule(next: Label)
    | AbortRule
    | BeginChoice(onFail: Label, next: Label)
    | CommitChoice(next: Label)
    | BeginOptional(onFail: Label, inner: Label)
    | EndOptional(next: Label)
    | OnFail(target: Option<Label>, nextOnFail: Option<Label>, pop: bool)

  /** Dynamic konts. Slots are arena cells allocated by the activation that pushed them. */
  datatype DKont =
    | EvalLeft(slot: nat, left: EKont)
    | ApplyBinK(op: BinOp, slot: nat)
    | ApplyUnK(uop: UnOp)
    | AndCheck(right: EKont)
    | OrCheck(right: EKont)
    | Normalize
    | TernaryDispatch(thn: EKont, els: EKont)
    | ArgStore(slot: nat)
    | CallApply(func: Name, base: nat, count: nat)
    | ConstraintCheck(onFalse: Label, next: Label)
    | BindStore(next: Label)
    | SetEndianApply(next: Label)
    | BytesApply(isString: bool, next: Label)
    | SwitchSelect(cases: seq<SwitchCase>, dflt: Option<Label>)
    | BeginArrayLimit(name: Name, endNode: Label, resyncTo: Option<Label>, next: Label)
    | CountCheck(endNode: Label, body: Label)
    | UntilCheck(endNode: Label, body: Label)
    | SeekApply(next: Label)
    | PushApply(relative: bool, next: Label)

  datatype Kont = Sp(l: Label) | Ex(e: EKont) | Dyn(d: DKont)

  // ── State ─────────────────────────────────────────────────────────────

  datatype Frame =
    | ReturnF(returnTo: Label, env: Env, failTarget: Option<Label>)
    | LoopF(counter: int, limit: int, outerEnv: Env)
    | SaveF(env: Env, pos: nat, le: bool, ksize: nat, depth: nat, mark: nat, onFail: Option<Label>)

  datatype Win = Win(lo: nat, hi: nat)

  /** `frames[0]` is frame_top. `wins` is the backing store of the interval vectors and
      `depth` the live height: slots at or above it are stale. */
  datatype State = State(
    k: seq<Kont>, ac: Value, slots: seq<Value>,
    pos: nat, env: Env, le: bool, frames: seq<Frame>,
    wins: seq<Win>, depth: nat, log: Log, failed: bool, best: nat)

  datatype Program = Program(code: seq<Node>, input: Bytes)

  function EffLo(s: State): nat {
    if 0 < s.depth <= |s.wins| then s.wins[s.depth - 1].lo else 0
  }

  function EffHi(p: Program, s: State): nat {
    if 0 < s.depth <= |s.wins| then s.wins[s.depth - 1].hi else |p.input|
  }

  /** LoopVarKont's walk to the innermost loop frame. */
  function LoopVar(fs: seq<Frame>): Option<int> {
    if fs == [] then None
    else if fs[0].LoopF? then Some(fs[0].counter)
    else LoopVar(fs[1..])
  }

  function CtxOf(p: Program, s: State): EvalCtx {
    EvalCtx(p.input, s.pos, EffHi(p, s), s.env, LoopVar(s.frames), ScopeStart(s.log, 0))
  }

  function Push(s: State, k: Kont): State { s.(k := s.k + [k]) }
  function Go(s: State, l: Label): State { s.(k := s.k + [Sp(l)]) }
  function SetAc(s: State, v: Value): State { s.(ac := v) }
  function Note(s: State, e: Event): State { s.(log := s.log + [e]) }

  // ── fail() ────────────────────────────────────────────────────────────

  predicate Armed(f: Frame) { f.SaveF? && f.onFail.Some? }

  /** Drop frames down to the innermost savepoint that still has a fail target. */
  function Unwind(fs: seq<Frame>): (r: seq<Frame>)
    ensures r == [] || Armed(r[0])
  {
    if fs == [] || Armed(fs[0]) then fs else Unwind(fs[1..])
  }

  function Fail(s: State): State {
    var s1 := s.(frames := Unwind(s.frames), best := if s.pos >= s.best then s.pos else s.best);
    if s1.frames == [] then s1.(failed := true) else Go(s1, s1.frames[0].onFail.value)
  }

  /** Continue with a value, or fail. */
  function Deliver(s: State, v: Option<Value>): State {
    if v.Some? then SetAc(s, v.value) else Fail(s)
  }

  // ── Expression konts ──────────────────────────────────────────────────

  /** K entries CallKont pushes for arguments i.. : the first argument ends on top. */
  function ArgKonts(args: seq<EKont>, base: nat, i: nat): seq<Kont>
    requires i <= |args|
    decreases |args| - i
  {
    if i == |args| then []
    else ArgKonts(args, base, i + 1) + [Dyn(ArgStore(base + i)), Ex(args[i])]
  }

  function Nulls(n: nat): (r: seq<Value>)
    ensures |r| == n
  {
    seq(n, i => Null)
  }

  function StepEx(p: Program, s: State, e: EKont): State {
    match e
    case LitK(v) => SetAc(s, v)
    case EoiK => SetAc(s, IntV(|p.input|))
    case ContextK(w) => Deliver(s, EvalContext(w, CtxOf(p, s)))
    case RefK(n) => Deliver(s, Lookup(s.env, n))
    case BinK(op, l, r) =>
      s.(slots := s.slots + [Null],
         k := s.k + [Dyn(ApplyBinK(op, |s.slots|)), Dyn(EvalLeft(|s.slots|, l)), Ex(r)])
    case AndK(l, r) => s.(k := s.k + [Dyn(AndCheck(r)), Ex(l)])
    case OrK(l, r) => s.(k := s.k + [Dyn(OrCheck(r)), Ex(l)])
    case UnK(op, a) => s.(k := s.k + [Dyn(ApplyUnK(op)), Ex(a)])
    case TernaryK(c, t, f) => s.(k := s.k + [Dyn(TernaryDispatch(t, f)), Ex(c)])
    case CallK(f, args) =>
      s.(slots := s.slots + Nulls(|args|),
         k := s.k + [Dyn(CallApply(f, |s.slots|, |args|))] + ArgKonts(args, |s.slots|, 0))
  }

  function SlotAt(s: State, i: nat): Value { if i < |s.slots| then s.slots[i] else Null }

  function SetSlot(s: State, i: nat, v: Value): State {
    if i < |s.slots| then s.(slots := s.slots[i := v]) else s
  }

  function StepExprDyn(p: Program, s: State, d: DKont): State {
    match d
    case EvalLeft(slot, l) => Push(SetSlot(s, slot, s.ac), Ex(l))
    case ApplyBinK(op, slot) => Deliver(s, ApplyBin(op, s.ac, SlotAt(s, slot)))
    case ApplyUnK(op) => Deliver(s, ApplyUn(op, s.ac))
    case AndCheck(r) =>
      if Truth(s.ac).None? then Fail(s)
      else if !Truth(s.ac).value then SetAc(s, BoolV(false))
      else s.(k := s.k + [Dyn(Normalize), Ex(r)])
    case OrCheck(r) =>
      if Truth(s.ac).None? then Fail(s)
      else if Truth(s.ac).value then SetAc(s, BoolV(true))
      else s.(k := s.k + [Dyn(Normalize), Ex(r)])
    case Normalize => if Truth(s.ac).None? then Fail(s) else SetAc(s, BoolV(Truth(s.ac).value))
    case TernaryDispatch(t, f) =>
      if Truth(s.ac).None? then Fail(s) else Push(s, Ex(if Truth(s.ac).value then t else f))
    case ArgStore(slot) => SetSlot(s, slot, s.ac)
    case CallApply(f, base, n) =>
      if base + n <= |s.slots| then Deliver(s, ApplyCall(f, s.slots[base..base + n], CtxOf(p, s))) else Fail(s)
    case _ => s
  }

  predicate IsExprDyn(d: DKont) {
    d.EvalLeft? || d.ApplyBinK? || d.ApplyUnK? || d.AndCheck? || d.OrCheck? || d.Normalize?
    || d.TernaryDispatch? || d.ArgStore? || d.CallApply?
  }

  // ── Site consumers ────────────────────────────────────────────────────

  function Savepoint(s: State, onFail: Label): Frame {
    SaveF(s.env, s.pos, s.le, |s.k|, s.depth, |s.log|, Some(onFail))
  }

  function PushFrame(s: State, f: Frame): State { s.(frames := [f] + s.frames) }

  /** push_resync_savepoint: nothing outside resync mode. */
  function PushResync(s: State, to: Option<Label>): State {
    if to.None? then s else PushFrame(s, Savepoint(s, to.value))
  }

  /** Index of the first entry a discriminator selects, or |cases|. */
  function FindCase(cases: seq<SwitchCase>, v: Value): (r: nat)
    ensures r <= |cases|
  {
    if cases == [] then 0
    else if SameValue(v, cases[0].value) then 0
    else 1 + FindCase(cases[1..], v)
  }

  function MaxOrdinal(cases: seq<SwitchCase>): int {
    if cases == [] then -1
    else
      var m := MaxOrdinal(cases[1..]);
      if cases[0].ordinal > m then cases[0].ordinal else m
  }

  function DefaultTag(cases: seq<SwitchCase>): nat {
    var m := MaxOrdinal(cases) + 1; if m < 0 then 0 else m
  }

  function NonNeg(v: int): nat { if v < 0 then 0 else v }

  function StepSiteDyn(p: Program, s: State, d: DKont): State {
    match d
    case ConstraintCheck(onFalse, next) =>
      if Truth(s.ac).None? then Fail(s) else Go(s, if Truth(s.ac).value then next else onFalse)
    case BindStore(next) =>
      if s.ac == Null then Fail(s)
      else Go(SetAc(s, CapV(Carrier(s.pos, s.pos, TComputed, Lower(s.ac), Plain))), next)
    case SetEndianApply(next) =>
      if Truth(s.ac).None? then Fail(s) else Go(s.(le := Truth(s.ac).value), next)
    case BytesApply(isString, next) =>
      if !s.ac.IntV? || s.ac.i < 0 || s.pos + s.ac.i > EffHi(p, s) then Fail(s)
      else
        var e := s.pos + s.ac.i;
        Go(SetAc(s.(pos := e), CapV(Carrier(s.pos, e, if isString then TString else TBytes, Null, Plain))), next)
    case SwitchSelect(cases, dflt) =>
      if s.ac == Null then Fail(s)
      else
        var i := FindCase(cases, s.ac);
        if i < |cases| then Go(Note(s, PendingTag(cases[i].ordinal)), cases[i].target)
        else if dflt.Some? then Go(Note(s, PendingTag(DefaultTag(cases))), dflt.value)
        else Fail(s)
    case BeginArrayLimit(name, endNode, resyncTo, next) =>
      if !s.ac.IntV? then Fail(s)
      else
        var s1 := PushFrame(Note(s, OpenArray(name, s.pos)), LoopF(0, s.ac.i, s.env));
        if s.ac.i <= 0 then Go(s1, endNode) else Go(PushResync(s1, resyncTo), next)
    case CountCheck(endNode, body) =>
      if !s.ac.IntV? || s.frames == [] || !s.frames[0].LoopF? then Fail(s)
      else Go(s, if s.frames[0].counter >= s.ac.i then endNode else body)
    case UntilCheck(endNode, body) =>
      if Truth(s.ac).None? then Fail(s) else Go(s, if Truth(s.ac).value then endNode else body)
    case SeekApply(next) =>
      if !s.ac.IntV? || s.ac.i < 0 || s.ac.i > |p.input| then Fail(s)
      else Go(s.(pos := s.ac.i), next)
    case PushApply(relative, next) =>
      if !s.ac.IntV? then Fail(s)
      else
        var end := if relative then s.pos + NonNeg(s.ac.i) else NonNeg(s.ac.i);
        if s.pos > end || s.pos < EffLo(s) || end > EffHi(p, s) || s.depth > |s.wins| then Fail(s)
        else
          var w := Win(s.pos, end);
          Go(s.(wins := if s.depth == |s.wins| then s.wins + [w] else s.wins[s.depth := w],
                depth := s.depth + 1), next)
    case _ => s
  }

  // ── Spine konts ───────────────────────────────────────────────────────

  /** The field a bound names when it is nothing but a reference. */
  function PlainRef(e: EKont): Option<Name> { if e.RefK? then Some(e.name) else None }

  /** Position of the innermost savepoint, armed or not. */
  function FindSave(fs: seq<Frame>): (i: nat)
    ensures i <= |fs|
    ensures i < |fs| ==> fs[i].SaveF?
  {
    if fs == [] || fs[0].SaveF? then 0 else 1 + FindSave(fs[1..])
  }

  /** State put back from a savepoint: everything but ac, the error position and stale slots. */
  function Restore(s: State, f: Frame): State
    requires f.SaveF?
  {
    s.(pos := f.pos, depth := f.depth, env := f.env, le := f.le,
       log := if f.mark <= |s.log| then s.log[..f.mark] else s.log,
       k := if f.ksize <= |s.k| then s.k[..f.ksize] else s.k)
  }

  function StepOnFail(s: State, target: Option<Label>, nextOnFail: Option<Label>, pop: bool): State {
    var i := FindSave(s.frames);
    if i == |s.frames| then Fail(s)
    else
      var f := s.frames[i];
      var s1 := Restore(s, f);
      if target.None? then Fail(s1.(frames := s.frames[i + 1..]))
      else if pop then Go(s1.(frames := s.frames[i + 1..]), target.value)
      else Go(s1.(frames := s.frames[i := f.(onFail := nextOnFail)]), target.value)
  }

  /** No byte is left to retry from: a counted loop that is short fails, any other ends. */
  function ResyncEnd(s: State, below: seq<Frame>, endNode: Label): State {
    if below != [] && below[0].LoopF? && below[0].limit >= 0 && below[0].counter < below[0].limit
    then Fail(s.(frames := below))
    else Go(s.(frames := below), endNode)
  }

  function StepResync(p: Program, s: State, body: Label, endNode: Label): State {
    var i := FindSave(s.frames);
    if i == |s.frames| then Fail(s)
    else
      var f := s.frames[i];
      var s1 := Restore(s, f);
      if s1.pos >= EffHi(p, s1) then ResyncEnd(s1, s.frames[i + 1..], endNode)
      else
        var s2 := s1.(pos := s1.pos + 1);
        Go(s2.(frames := s.frames[i := Savepoint(s2, 0).(onFail := f.onFail)]), body)
  }

  /** AbortRuleKont's walk: index of the first return frame with a caller fail target. */
  function FindAbort(fs: seq<Frame>): (i: nat)
    ensures i <= |fs|
    ensures i < |fs| ==> fs[i].ReturnF? && fs[i].failTarget.Some?
  {
    if fs == [] || (fs[0].ReturnF? && fs[0].failTarget.Some?) then 0 else 1 + FindAbort(fs[1..])
  }

  function StepArrayNext(p: Program, s: State, mode: ArrayMode, bound: EKont, endNode: Label,
                         body: Label, resync: bool): State {
    if resync && (s.frames == [] || !s.frames[0].SaveF?) then Fail(s)
    else
      var s1 := if resync then s.(frames := s.frames[0 := Savepoint(s, 0).(onFail := s.frames[0].onFail)]) else s;
      var i := if resync then 1 else 0;
      if |s1.frames| <= i || !s1.frames[i].LoopF? then Fail(s1)
      else
        var lf := s1.frames[i].(counter := s1.frames[i].counter + 1);
        var s2 := s1.(frames := s1.frames[i := lf]);
        match mode
        case FixedCount => Go(s2, if lf.counter >= lf.limit then endNode else body)
        case UntilEof => Go(s2, if s2.pos >= EffHi(p, s2) then endNode else body)
        case CountTerm => s2.(k := s2.k + [Dyn(CountCheck(endNode, body)), Ex(bound)])
        case UntilTerm => s2.(k := s2.k + [Dyn(UntilCheck(endNode, body)), Ex(bound)])
  }

  function StepBeginArray(p: Program, s: State, name: Name, mode: ArrayMode, bound: EKont,
                          endNode: Label, resyncTo: Option<Label>, next: Label): State {
    if mode.FixedCount? || mode.CountTerm? then
      var s1 := if PlainRef(bound).Some? then Note(s, PendingCount(PlainRef(bound).value)) else s;
      s1.(k := s1.k + [Dyn(BeginArrayLimit(name, endNode, resyncTo, next)), Ex(bound)])
    else
      var s1 := PushResync(PushFrame(Note(s, OpenArray(name, s.pos)), LoopF(0, -1, s.env)), resyncTo);
      if mode.UntilEof? && s.pos >= EffHi(p, s) then Go(s1, endNode)
      else if mode.UntilTerm? then s1.(k := s1.k + [Dyn(UntilCheck(endNode, next)), Ex(bound)])
      else Go(s1, next)
  }

  function StepEndArray(s: State, resync: bool, next: Label): State {
    var s1 := if resync && s.frames != [] && s.frames[0].SaveF? then s.(frames := s.frames[1..]) else s;
    if s1.frames == [] || !s1.frames[0].LoopF? then Fail(s1)
    else Go(Note(s1, CloseArray(s1.pos)).(frames := s1.frames[1..], env := s1.frames[0].outerEnv), next)
  }

  function StepNode(p: Program, s: State, n: Node): State {
    match n
    case Halt => s
    case MatchPrim(prim, next) =>
      var r := if EffHi(p, s) <= |p.input| then ReadPrim(prim, p.input, s.pos, EffHi(p, s), s.le) else None;
      if r.None? then Fail(s) else Go(SetAc(s.(pos := r.value.end), CapV(r.value)), next)
    case Capture(name, next) =>
      if !s.ac.CapV? then Fail(s)
      else Go(Note(s, FieldAt(name, s.ac.c, if s.ac.c.ty.TComputed? then s.ac.c.val else Null)), next)
    case StoreEnv(name, next) =>
      if !s.ac.CapV? then Fail(s) else Go(s.(env := [Binding(name, s.ac.c.val)] + s.env), next)
    case BeginStruct(name, next) => Go(Note(s, OpenStruct(name, s.pos)), next)
    case BeginVariant(name, tag, next) => Go(Note(s, OpenVariant(name, s.pos, tag)), next)
    case EndStruct(next) => Go(Note(s, CloseStruct(s.pos)), next)
    case Seek(e, next) => s.(k := s.k + [Dyn(SeekApply(next)), Ex(e)])
    case PushInterval(rel, e, next) =>
      var s1 := if rel && PlainRef(e).Some? then Note(s, DeterminesRest(PlainRef(e).value)) else s;
      s1.(k := s1.k + [Dyn(PushApply(rel, next)), Ex(e)])
    case PopInterval(checked, next) =>
      if s.depth == 0 then Go(s, next)
      else if checked && s.pos != EffHi(p, s) then Fail(s)
      else Go(s.(depth := s.depth - 1), next)
    case EvalConstraint(e, onFalse, next) => s.(k := s.k + [Dyn(ConstraintCheck(onFalse, next)), Ex(e)])
    case BindCompute(e, next) => s.(k := s.k + [Dyn(BindStore(next)), Ex(e)])
    case SetEndian(e, next) => s.(k := s.k + [Dyn(SetEndianApply(next)), Ex(e)])
    case MatchBytes(e, isString, next) => s.(k := s.k + [Dyn(BytesApply(isString, next)), Ex(e)])
    case SwitchDispatch(e, cases, dflt) => s.(k := s.k + [Dyn(SwitchSelect(cases, dflt)), Ex(e)])
    case BeginArray(name, mode, bound, endNode, resyncTo, next) =>
      StepBeginArray(p, s, name, mode, bound, endNode, resyncTo, next)
    case ArrayNext(mode, bound, endNode, body, resync) => StepArrayNext(p, s, mode, bound, endNode, body, resync)
    case EndArray(resync, next) => StepEndArray(s, resync, next)
    case Resync(body, endNode) => StepResync(p, s, body, endNode)
    case ExtractBits(prim, width, off, signed, next) =>
      var r := if EffHi(p, s) <= |p.input|
               then ReadMember(prim, width, off, signed, p.input, s.pos, EffHi(p, s), s.le) else None;
      if r.None? then Fail(s)
      else Go(Note(SetAc(s, CapV(r.value)), BitsRun(MsbFirst(prim, s.le))), next)
    case AdvancePos(amount, next) => Go(s.(pos := s.pos + amount), next)
    case InvokeRule(_, entry, failTarget, next) => Go(PushFrame(s, ReturnF(next, s.env, failTarget)), entry)
    case ReturnRule(next) =>
      if s.frames != [] && s.frames[0].ReturnF?
      then Go(s.(frames := s.frames[1..], env := s.frames[0].env), s.frames[0].returnTo)
      else Go(s, next)
    case AbortRule =>
      var i := FindAbort(s.frames);
      if i == |s.frames| then Fail(s)
      else Go(s.(frames := s.frames[i + 1..]), s.frames[i].failTarget.value)
    case BeginChoice(onFail, next) => Go(PushFrame(s, Savepoint(s, onFail)), next)
    case BeginOptional(onFail, inner) => Go(PushFrame(s, Savepoint(s, onFail)), inner)
    case CommitChoice(next) =>
      Go(if s.frames != [] && s.frames[0].SaveF? then s.(frames := s.frames[1..]) else s, next)
    case EndOptional(next) =>
      Go(if s.frames != [] && s.frames[0].SaveF? then s.(frames := s.frames[1..]) else s, next)
    case OnFail(target, nextOnFail, pop) => StepOnFail(s, target, nextOnFail, pop)
  }

  // ── The trampoline ────────────────────────────────────────────────────

  predicate Running(s: State) { !s.failed && s.k != [] }

  /** Invoke one kont, already popped. A label outside the code is never produced by the
      lowering; it fails here so that the function is total. */
  function Invoke(p: Program, s: State, k: Kont): State {
    match k
    case Ex(e) => StepEx(p, s, e)
    case Dyn(d) => if IsExprDyn(d) then StepExprDyn(p, s, d) else StepSiteDyn(p, s, d)
    case Sp(l) => if l < |p.code| then StepNode(p, s, p.code[l]) else Fail(s)
  }

  /** One iteration: pop K, invoke. A halted machine stays as it is. */
  function Step(p: Program, s: State): State {
    if !Running(s) then s else Invoke(p, s.(k := s.k[..|s.k| - 1]), s.k[|s.k| - 1])
  }

  function Steps(p: Program, s: State, n: nat): State
    decreases n
  {
    if n == 0 then s else Steps(p, Step(p, s), n - 1)
  }

  /** execute_from's initial state. */
  function Initial(entry: Label, le: bool): State {
    State([Sp(entry)], Null, [], 0, [], le, [], [], 0, [], false, 0)
  }
}
