/** The machine as an object: its fields, the konts' updates of them, and the trampoline. */
module CekMachine {
  import opened Syntax
  import opened Eval
  import opened Wire
  import opened Machine
  import opened Compile
  import opened Denote
  import opened Runs
  import opened World
  import opened Theorems
  import opened LebSpec
  import LebLoops

  function Zip(starts: seq<nat>, ends: seq<nat>): seq<Win>
    requires |starts| == |ends|
  {
    seq(|starts|, i requires 0 <= i < |starts| => Win(starts[i], ends[i]))
  }

  class Cek {
    const program: Program
    // CEK state
    var kontStack: seq<Kont>
    var env: Env
    var frames: seq<Frame>
    // the accumulator, and the arena cells activations allocate
    var result: Value
    var slots: seq<Value>
    // input position and interval bounds
    var pos: nat
    var intervalStarts: seq<nat>
    var intervalEnds: seq<nat>
    var intervalDepth: nat
    var littleEndian: bool
    // the document builder and the error state
    var builder: Log
    var failed: bool
    var bestErrorPos: nat

    ghost predicate Valid()
      reads this
    {
      |intervalStarts| == |intervalEnds|
    }

    /** The state the transition function speaks of. */
    ghost function View(): State
      requires Valid()
      reads this
    {
      State(kontStack, result, slots, pos, env, littleEndian, frames, Zip(intervalStarts, intervalEnds), intervalDepth,
            builder, failed, bestErrorPos)
    }

    constructor (program: Program)
      ensures Valid() && this.program == program && env == [] && frames == []
    {
      this.program := program;
      kontStack, env, frames := [], [], [];
      result, slots, pos := Null, [], 0;
      intervalStarts, intervalEnds, intervalDepth := [], [], 0;
      littleEndian, builder, failed, bestErrorPos := true, [], false, 0;
    }

    function EffectiveStart(): (r: nat)
      requires Valid()
      reads this
      ensures r == EffLo(View())
    {
      if 0 < intervalDepth <= |intervalStarts| then intervalStarts[intervalDepth - 1] else 0
    }

    function EffectiveEnd(): (r: nat)
      requires Valid()
      reads this
      ensures r == EffHi(program, View())
    {
      if 0 < intervalDepth <= |intervalEnds| then intervalEnds[intervalDepth - 1] else |program.input|
    }

    function Context(): (r: EvalCtx)
      requires Valid()
      reads this
      ensures r == CtxOf(program, View())
    {
      EvalCtx(program.input, pos, EffectiveEnd(), env, LoopVar(frames), ScopeStart(builder, 0))
    }

    method PushKont(k: Kont)
      requires Valid()
      modifies this`kontStack
      ensures Valid() && View() == Push(old(View()), k)
    {
      kontStack := kontStack + [k];
    }

    method TruncateKontStack(n: nat)
      requires Valid()
      modifies this`kontStack
      ensures Valid() && kontStack == if n <= |old(kontStack)| then old(kontStack)[..n] else old(kontStack)
    {
      if n <= |kontStack| { kontStack := kontStack[..n]; }
    }

    /** fail(): frames are dropped down to the innermost savepoint with a target left. */
    method FailWith()
      requires Valid()
      modifies this`frames, this`kontStack, this`failed, this`bestErrorPos
      ensures Valid() && View() == Fail(old(View()))
    {
      if pos >= bestErrorPos { bestErrorPos := pos; }
      while frames != []
        invariant Valid() && Unwind(frames) == Unwind(old(frames))
        invariant View() == old(View()).(frames := frames, best := if pos >= old(bestErrorPos) then pos else old(bestErrorPos))
        decreases |frames|
      {
        if frames[0].SaveF? && frames[0].onFail.Some? {
          PushKont(Sp(frames[0].onFail.value));
          return;
        }
        frames := frames[1..];
      }
      failed := true;
    }

    method DeliverValue(v: Option<Value>)
      requires Valid()
      modifies this
      ensures Valid() && View() == Deliver(old(View()), v)
    {
      if v.Some? { result := v.value; } else { FailWith(); }
    }

    // ── Expression konts ────────────────────────────────────────────────

    method InvokeExpr(e: EKont)
      requires Valid()
      modifies this
      ensures Valid() && View() == StepEx(program, old(View()), e)
    {
      hide Unwind, EvalContext, ScopeStart, LoopVar, Lookup;
      match e
      case LitK(v) => result := v;
      case EoiK => result := IntV(|program.input|);
      case ContextK(w) => DeliverValue(EvalContext(w, Context()));
      case RefK(n) => DeliverValue(Lookup(env, n));
      case BinK(op, l, r) =>
        var slot := |slots|;
        slots := slots + [Null];
        kontStack := kontStack + [Dyn(ApplyBinK(op, slot)), Dyn(EvalLeft(slot, l)), Ex(r)];
      case AndK(l, r) => kontStack := kontStack + [Dyn(AndCheck(r)), Ex(l)];
      case OrK(l, r) => kontStack := kontStack + [Dyn(OrCheck(r)), Ex(l)];
      case UnK(op, a) => kontStack := kontStack + [Dyn(ApplyUnK(op)), Ex(a)];
      case TernaryK(c, t, f) => kontStack := kontStack + [Dyn(TernaryDispatch(t, f)), Ex(c)];
      case CallK(f, args) => BeginCall(f, args);
    }

    /** A call's argument slots and evaluations, pushed last to first. */
    method BeginCall(f: Name, args: seq<EKont>)
      requires Valid()
      modifies this`slots, this`kontStack
      ensures Valid() && View() == StepEx(program, old(View()), CallK(f, args))
    {
      var base := |slots|;
      slots := slots + Nulls(|args|);
      kontStack := kontStack + [Dyn(CallApply(f, base, |args|))];
      ghost var below := kontStack;
      var i := |args|;
      assert kontStack == below + ArgKonts(args, base, i);
      while i > 0
        invariant 0 <= i <= |args| && Valid() && slots == old(slots) + Nulls(|args|)
        invariant kontStack == below + ArgKonts(args, base, i)
      {
        i := i - 1;
        kontStack := kontStack + [Dyn(ArgStore(base + i)), Ex(args[i])];
      }
    }

    method SetSlotTo(i: nat, v: Value)
      requires Valid()
      modifies this`slots
      ensures Valid() && View() == SetSlot(old(View()), i, v)
    {
      if i < |slots| { slots := slots[i := v]; }
    }

    method InvokeExprDyn(d: DKont)
      requires Valid() && IsExprDyn(d)
      modifies this
      ensures Valid() && View() == StepExprDyn(program, old(View()), d)
    {
      hide Unwind, EvalContext, ScopeStart, LoopVar, Lookup, ApplyBin, ApplyUn, ApplyCall;
      match d
      case EvalLeft(slot, l) =>
        SetSlotTo(slot, result);
        PushKont(Ex(l));
      case ApplyBinK(op, slot) =>
        var left := if slot < |slots| then slots[slot] else Null;
        DeliverValue(ApplyBin(op, result, left));
      case ApplyUnK(op) => DeliverValue(ApplyUn(op, result));
      case AndCheck(r) =>
        var t := Truth(result);
        if t.None? {
          FailWith();
        } else if !t.value {
          result := BoolV(false);
        } else {
          kontStack := kontStack + [Dyn(Normalize), Ex(r)];
        }
      case OrCheck(r) =>
        var t := Truth(result);
        if t.None? {
          FailWith();
        } else if t.value {
          result := BoolV(true);
        } else {
          kontStack := kontStack + [Dyn(Normalize), Ex(r)];
        }
      case Normalize =>
        var t := Truth(result);
        if t.None? { FailWith(); } else { result := BoolV(t.value); }
      case TernaryDispatch(t, f) =>
        var c := Truth(result);
        if c.None? { FailWith(); } else { PushKont(Ex(if c.value then t else f)); }
      case ArgStore(slot) => SetSlotTo(slot, result);
      case CallApply(f, base, n) =>
        if base + n <= |slots| { DeliverValue(ApplyCall(f, slots[base..base + n], Context())); } else { FailWith(); }
    }

    // ── Site consumers ──────────────────────────────────────────────────

    function SavepointHere(onFail: Label): (f: Frame)
      requires Valid()
      reads this
      ensures f == Savepoint(View(), onFail)
    {
      SaveF(env, pos, littleEndian, |kontStack|, intervalDepth, |builder|, Some(onFail))
    }

    method PushResyncSavepoint(to: Option<Label>)
      requires Valid()
      modifies this`frames
      ensures Valid() && View() == PushResync(old(View()), to)
    {
      if to.Some? { frames := [SavepointHere(to.value)] + frames; }
    }

    /** The window [pos, end) becomes the innermost, its slot reused or appended. */
    method OpenWindow(end: nat)
      requires Valid() && intervalDepth <= |intervalStarts|
      modifies this`intervalStarts, this`intervalEnds, this`intervalDepth
      ensures Valid()
      ensures View() == old(View()).(
                wins := if old(intervalDepth) == |old(View()).wins| then old(View()).wins + [Win(pos, end)]
                        else old(View()).wins[old(intervalDepth) := Win(pos, end)],
                depth := old(intervalDepth) + 1)
    {
      if intervalDepth == |intervalStarts| {
        intervalStarts := intervalStarts + [pos];
        intervalEnds := intervalEnds + [end];
      } else {
        intervalStarts := intervalStarts[intervalDepth := pos];
        intervalEnds := intervalEnds[intervalDepth := end];
      }
      intervalDepth := intervalDepth + 1;
    }

    /** A linear search for the first entry the discriminator selects. */
    method SelectCase(cases: seq<SwitchCase>, v: Value) returns (i: nat)
      ensures i == FindCase(cases, v)
    {
      i := 0;
      while i < |cases| && !SameValue(v, cases[i].value)
        invariant i <= |cases| && FindCase(cases, v) == i + FindCase(cases[i..], v)
      {
        assert cases[i..][1..] == cases[i + 1..];
        i := i + 1;
      }
    }

    method InvokeSiteDyn(d: DKont)
      requires Valid() && !IsExprDyn(d)
      modifies this
      ensures Valid() && View() == StepSiteDyn(program, old(View()), d)
    {
      hide Unwind, EvalContext, ScopeStart, LoopVar, Lookup, Zip, FindCase, MaxOrdinal;
      match d
      case ConstraintCheck(onFalse, next) =>
        var t := Truth(result);
        if t.None? { FailWith(); } else { PushKont(Sp(if t.value then next else onFalse)); }
      case BindStore(next) =>
        if result == Null {
          FailWith();
        } else {
          result := CapV(Carrier(pos, pos, TComputed, Lower(result), Plain));
          PushKont(Sp(next));
        }
      case SetEndianApply(next) =>
        var t := Truth(result);
        if t.None? {
          FailWith();
        } else {
          littleEndian := t.value;
          PushKont(Sp(next));
        }
      case BytesApply(isString, next) => ApplyBytes(isString, next);
      case SwitchSelect(cases, dflt) => Select(cases, dflt);
      case BeginArrayLimit(name, endNode, resyncTo, next) => BeginCounted(name, endNode, resyncTo, next);
      case CountCheck(endNode, body) =>
        if !result.IntV? || frames == [] || !frames[0].LoopF? {
          FailWith();
        } else {
          PushKont(Sp(if frames[0].counter >= result.i then endNode else body));
        }
      case UntilCheck(endNode, body) =>
        var t := Truth(result);
        if t.None? { FailWith(); } else { PushKont(Sp(if t.value then endNode else body)); }
      case SeekApply(next) =>
        if !result.IntV? || result.i < 0 || result.i > |program.input| {
          FailWith();
        } else {
          pos := result.i;
          PushKont(Sp(next));
        }
      case PushApply(relative, next) => ApplyPush(relative, next);
    }

    method ApplyBytes(isString: bool, next: Label)
      requires Valid()
      modifies this
      ensures Valid() && View() == StepSiteDyn(program, old(View()), BytesApply(isString, next))
    {
      hide Unwind, Zip;
      if !result.IntV? || result.i < 0 || pos + result.i > EffectiveEnd() {
        FailWith();
        return;
      }
      var end := pos + result.i;
      result := CapV(Carrier(pos, end, if isString then TString else TBytes, Null, Plain));
      pos := end;
      PushKont(Sp(next));
    }

    /** A counted array whose bound has been evaluated. */
    method BeginCounted(name: Name, endNode: Label, resyncTo: Option<Label>, next: Label)
      requires Valid()
      modifies this
      ensures Valid() && View() == StepSiteDyn(program, old(View()), BeginArrayLimit(name, endNode, resyncTo, next))
    {
      hide Unwind, Zip;
      if !result.IntV? {
        FailWith();
        return;
      }
      builder := builder + [OpenArray(name, pos)];
      frames := [LoopF(0, result.i, env)] + frames;
      if result.i <= 0 {
        PushKont(Sp(endNode));
        return;
      }
      PushResyncSavepoint(resyncTo);
      PushKont(Sp(next));
    }

    method Select(cases: seq<SwitchCase>, dflt: Option<Label>)
      requires Valid()
      modifies this
      ensures Valid() && View() == StepSiteDyn(program, old(View()), SwitchSelect(cases, dflt))
    {
      hide Unwind, Zip, FindCase, MaxOrdinal;
      if result == Null {
        FailWith();
        return;
      }
      var i := SelectCase(cases, result);
      if i < |cases| {
        builder := builder + [PendingTag(cases[i].ordinal)];
        PushKont(Sp(cases[i].target));
      } else if dflt.Some? {
        builder := builder + [PendingTag(DefaultTag(cases))];
        PushKont(Sp(dflt.value));
      } else {
        FailWith();
      }
    }

    /** A window may only narrow the active one. */
    method ApplyPush(relative: bool, next: Label)
      requires Valid()
      modifies this
      ensures Valid() && View() == StepSiteDyn(program, old(View()), PushApply(relative, next))
    {
      hide Unwind;
      if !result.IntV? {
        FailWith();
        return;
      }
      var length := if result.i < 0 then 0 else result.i;
      var end := if relative then pos + length else length;
      if pos > end || pos < EffectiveStart() || end > EffectiveEnd() || intervalDepth > |intervalStarts| {
        FailWith();
        return;
      }
      OpenWindow(end);
      PushKont(Sp(next));
    }

    // ── Backtracking ────────────────────────────────────────────────────

    /** The walk to the innermost savepoint, armed or not. */
    method InnermostSavepoint() returns (i: nat)
      ensures i == FindSave(frames)
    {
      i := 0;
      while i < |frames| && !frames[i].SaveF?
        invariant i <= |frames| && FindSave(frames) == i + FindSave(frames[i..])
      {
        assert frames[i..][1..] == frames[i + 1..];
        i := i + 1;
      }
    }

    /** Everything a savepoint saved is put back. */
    method RestoreFrom(f: Frame)
      requires Valid() && f.SaveF?
      modifies this
      ensures Valid() && View() == Restore(old(View()), f) && frames == old(frames)
    {
      pos, intervalDepth, env, littleEndian := f.pos, f.depth, f.env, f.le;
      if f.mark <= |builder| { builder := builder[..f.mark]; }
      TruncateKontStack(f.ksize);
    }

    /** OnFailKont: restore, then the next alternative; exhausted, the failure goes on. */
    method InvokeOnFail(target: Option<Label>, nextOnFail: Option<Label>, pop: bool)
      requires Valid()
      modifies this
      ensures Valid() && View() == StepOnFail(old(View()), target, nextOnFail, pop)
    {
      hide Unwind, FindSave, Zip;
      var i := InnermostSavepoint();
      if i == |frames| {
        FailWith();
        return;
      }
      var f := frames[i];
      RestoreFrom(f);
      if target.None? {
        frames := frames[i + 1..];
        FailWith();
        return;
      }
      if pop { frames := frames[i + 1..]; } else { frames := frames[i := f.(onFail := nextOnFail)]; }
      PushKont(Sp(target.value));
    }

    /** Resync at the end of the window: the savepoint at i and the frames above it go. */
    method EndResync(i: nat, endNode: Label)
      requires Valid() && i < |frames|
      modifies this
      ensures Valid() && View() == ResyncEnd(old(View()), old(frames)[i + 1..], endNode)
    {
      hide Fail, Zip;
      frames := frames[i + 1..];
      if frames != [] && frames[0].LoopF? && frames[0].limit >= 0 && frames[0].counter < frames[0].limit {
        FailWith();
      } else {
        PushKont(Sp(endNode));
      }
    }

    /** Resync: one byte further from the element's start, or the end of the window. */
    method InvokeResync(body: Label, endNode: Label)
      requires Valid()
      modifies this
      ensures Valid() && View() == StepResync(program, old(View()), body, endNode)
    {
      hide Fail, FindSave, Zip, Restore, EffHi, ResyncEnd;
      var i := InnermostSavepoint();
      if i == |frames| {
        FailWith();
        return;
      }
      var f := frames[i];
      RestoreFrom(f);
      if pos >= EffectiveEnd() {
        EndResync(i, endNode);
        return;
      }
      pos := pos + 1;
      frames := frames[i := SaveF(env, pos, littleEndian, |kontStack|, intervalDepth, |builder|, f.onFail)];
      PushKont(Sp(body));
    }

    /** AbortRule: unwind to the first return frame whose caller can take a failure. */
    method InvokeAbort()
      requires Valid()
      modifies this
      ensures Valid() && View() == StepNode(program, old(View()), AbortRule)
    {
      hide Unwind, Zip;
      var i := 0;
      while i < |frames| && !(frames[i].ReturnF? && frames[i].failTarget.Some?)
        invariant 0 <= i <= |frames| && FindAbort(frames) == i + FindAbort(frames[i..])
        modifies {}
      {
        assert frames[i..][1..] == frames[i + 1..];
        i := i + 1;
      }
      if i == |frames| {
        FailWith();
        return;
      }
      var to := frames[i].failTarget.value;
      frames := frames[i + 1..];
      PushKont(Sp(to));
    }

    // ── Arrays ──────────────────────────────────────────────────────────

    method InvokeBeginArray(name: Name, mode: ArrayMode, bound: EKont, endNode: Label, resyncTo: Option<Label>, next: Label)
      requires Valid()
      modifies this
      ensures Valid() && View() == StepBeginArray(program, old(View()), name, mode, bound, endNode, resyncTo, next)
    {
      hide Zip;
      if mode.FixedCount? || mode.CountTerm? {
        if bound.RefK? { builder := builder + [PendingCount(bound.name)]; }
        kontStack := kontStack + [Dyn(BeginArrayLimit(name, endNode, resyncTo, next)), Ex(bound)];
        return;
      }
      builder := builder + [OpenArray(name, pos)];
      frames := [LoopF(0, -1, env)] + frames;
      PushResyncSavepoint(resyncTo);
      if mode.UntilEof? && pos >= EffectiveEnd() {
        PushKont(Sp(endNode));
      } else if mode.UntilTerm? {
        kontStack := kontStack + [Dyn(UntilCheck(endNode, next)), Ex(bound)];
      } else {
        PushKont(Sp(next));
      }
    }

    /** ArrayNext: in resync mode the savepoint on top is rewritten to here, then the loop
        frame below it counts the element. */
    method InvokeArrayNext(mode: ArrayMode, bound: EKont, endNode: Label, body: Label, resync: bool)
      requires Valid()
      modifies this
      ensures Valid() && View() == StepArrayNext(program, old(View()), mode, bound, endNode, body, resync)
    {
      hide Unwind, Zip;
      if resync {
        if frames == [] || !frames[0].SaveF? {
          FailWith();
          return;
        }
        frames := frames[0 := SaveF(env, pos, littleEndian, |kontStack|, intervalDepth, |builder|, frames[0].onFail)];
      }
      var i := if resync then 1 else 0;
      if |frames| <= i || !frames[i].LoopF? {
        FailWith();
        return;
      }
      var lf := frames[i].(counter := frames[i].counter + 1);
      frames := frames[i := lf];
      match mode
      case FixedCount => PushKont(Sp(if lf.counter >= lf.limit then endNode else body));
      case UntilEof => PushKont(Sp(if pos >= EffectiveEnd() then endNode else body));
      case CountTerm => kontStack := kontStack + [Dyn(CountCheck(endNode, body)), Ex(bound)];
      case UntilTerm => kontStack := kontStack + [Dyn(UntilCheck(endNode, body)), Ex(bound)];
    }

    method InvokeEndArray(resync: bool, next: Label)
      requires Valid()
      modifies this
      ensures Valid() && View() == StepEndArray(old(View()), resync, next)
    {
      hide Unwind, Zip;
      if resync && frames != [] && frames[0].SaveF? { frames := frames[1..]; }
      if frames == [] || !frames[0].LoopF? {
        FailWith();
        return;
      }
      env := frames[0].outerEnv;
      frames := frames[1..];
      builder := builder + [CloseArray(pos)];
      PushKont(Sp(next));
    }

    // ── Leaves, scopes, windows ─────────────────────────────────────────

    /** read_prim: a varint goes through the decoding loops. */
    method ReadPrimitive(prim: PrimInfo, end: nat) returns (r: Option<Carrier>)
      requires Valid() && end <= |program.input|
      ensures r == ReadPrim(prim, program.input, pos, end, littleEndian)
    {
      hide UnsignedN, SignedN, ReadInt;
      if (prim.UlebP? || prim.SlebP?) && pos > end { return None; }
      match prim
      case BoolP =>
        if pos + 1 > end { return None; }
        return Some(Carrier(pos, pos + 1, TBool, BoolV(program.input[pos] != 0), Plain));
      case IntP(width, signed, endian) =>
        if pos + width > end { return None; }
        var want := WantLittle(endian, littleEndian);
        return Some(Carrier(pos, pos + width, TInt(width, signed, width == 1 || want),
                            IntV(ReadInt(program.input[pos..pos + width], signed, want)), Plain));
      case UlebP(bits) =>
        var ok, v, n := LebLoops.DecodeUleb128(program.input, pos, end, bits);
        if !ok { return None; }
        return Some(Carrier(pos, pos + n, TComputed, IntV(if bits == 64 then SignExtend(v, 64) else v), Varint(false)));
      case SlebP(bits) =>
        var ok, v, n := LebLoops.DecodeSleb128(program.input, pos, end, bits);
        if !ok { return None; }
        return Some(Carrier(pos, pos + n, TComputed, IntV(v), Varint(true)));
    }

    method InvokeMatchPrim(prim: PrimInfo, next: Label)
      requires Valid()
      modifies this
      ensures Valid() && View() == StepNode(program, old(View()), MatchPrim(prim, next))
    {
      hide StepNode, Unwind, Zip, ReadPrim;
      ReadParts(program, View(), MatchPrim(prim, next));
      var end := EffectiveEnd();
      var r := None;
      if end <= |program.input| { r := ReadPrimitive(prim, end); }
      if r.None? {
        FailWith();
        return;
      }
      pos := r.value.end;
      result := CapV(r.value);
      PushKont(Sp(next));
    }

    method InvokeExtractBits(prim: PrimInfo, width: nat, off: nat, signed: bool, next: Label)
      requires Valid()
      modifies this
      ensures Valid() && View() == StepNode(program, old(View()), ExtractBits(prim, width, off, signed, next))
    {
      hide StepNode, Unwind, Zip, ReadMember, MsbFirst;
      ReadParts(program, View(), ExtractBits(prim, width, off, signed, next));
      var end := EffectiveEnd();
      var r := if end <= |program.input|
               then ReadMember(prim, width, off, signed, program.input, pos, end, littleEndian) else None;
      if r.None? {
        FailWith();
        return;
      }
      result := CapV(r.value);
      builder := builder + [BitsRun(MsbFirst(prim, littleEndian))];
      PushKont(Sp(next));
    }

    method InvokePopInterval(checked: bool, next: Label)
      requires Valid()
      modifies this
      ensures Valid() && View() == StepNode(program, old(View()), PopInterval(checked, next))
    {
      hide Unwind, Zip;
      if intervalDepth == 0 {
        PushKont(Sp(next));
        return;
      }
      if checked && pos != EffectiveEnd() {
        FailWith();
        return;
      }
      intervalDepth := intervalDepth - 1;
      PushKont(Sp(next));
    }

    method InvokeStores(n: Node)
      requires Valid() && (n.Capture? || n.StoreEnv?)
      modifies this
      ensures Valid() && View() == StepNode(program, old(View()), n)
    {
      hide Unwind, Zip;
      if !result.CapV? {
        FailWith();
        return;
      }
      if n.Capture? {
        builder := builder + [FieldAt(n.name, result.c, if result.c.ty.TComputed? then result.c.val else Null)];
      } else {
        env := [Binding(n.name, result.c.val)] + env;
      }
      PushKont(Sp(n.next));
    }

    method InvokeReturn(next: Label)
      requires Valid()
      modifies this
      ensures Valid() && View() == StepNode(program, old(View()), ReturnRule(next))
    {
      hide Zip;
      if frames != [] && frames[0].ReturnF? {
        var f := frames[0];
        frames, env := frames[1..], f.env;
        PushKont(Sp(f.returnTo));
        return;
      }
      PushKont(Sp(next));
    }

    /** A new frame on top: a rule's return frame, an alternative's savepoint. */
    method Enter(f: Frame, next: Label)
      requires Valid()
      modifies this`frames, this`kontStack
      ensures Valid() && View() == Go(PushFrame(old(View()), f), next)
    {
      frames := [f] + frames;
      PushKont(Sp(next));
    }

    /** The savepoint of a finished alternative goes. */
    method Commit(next: Label)
      requires Valid()
      modifies this`frames, this`kontStack
      ensures Valid()
      ensures View() == Go(if old(frames) != [] && old(frames)[0].SaveF? then old(View()).(frames := old(frames)[1..]) else old(View()), next)
    {
      if frames != [] && frames[0].SaveF? { frames := frames[1..]; }
      PushKont(Sp(next));
    }

    /** An expression to evaluate, and the kont that will consume its value. */
    method Consume(d: DKont, e: EKont)
      requires Valid()
      modifies this`kontStack
      ensures Valid() && View() == old(View()).(k := old(View()).k + [Dyn(d), Ex(e)])
    {
      kontStack := kontStack + [Dyn(d), Ex(e)];
    }

    method Record(event: Event, next: Label)
      requires Valid()
      modifies this`builder, this`kontStack
      ensures Valid() && View() == Go(Machine.Note(old(View()), event), next)
    {
      builder := builder + [event];
      PushKont(Sp(next));
    }

    /** Nodes that evaluate an expression for a consumer. */
    method InvokeSite(n: Node)
      requires Valid()
      requires n.Seek? || n.PushInterval? || n.EvalConstraint? || n.BindCompute? || n.SetEndian? || n.MatchBytes? || n.SwitchDispatch?
      modifies this
      ensures Valid() && View() == StepNode(program, old(View()), n)
    {
      hide StepNode, Unwind, Zip;
      match n
      case Seek(e, next) =>
        SeekSite(program, View(), e, next);
        Consume(SeekApply(next), e);
      case PushInterval(rel, e, next) =>
        PushSite(program, View(), rel, e, next);
        if rel && e.RefK? { builder := builder + [DeterminesRest(e.name)]; }
        Consume(PushApply(rel, next), e);
      case EvalConstraint(e, onFalse, next) =>
        CheckSite(program, View(), e, onFalse, next);
        Consume(ConstraintCheck(onFalse, next), e);
      case BindCompute(e, next) =>
        BindSite(program, View(), e, next);
        Consume(BindStore(next), e);
      case SetEndian(e, next) =>
        EndianSite(program, View(), e, next);
        Consume(SetEndianApply(next), e);
      case MatchBytes(e, isString, next) =>
        BytesSite(program, View(), e, isString, next);
        Consume(BytesApply(isString, next), e);
      case SwitchDispatch(e, cases, dflt) =>
        SwitchSite(program, View(), e, cases, dflt);
        Consume(SwitchSelect(cases, dflt), e);
      case _ => assert false;
    }

    /** Nodes that only tell the builder, or move the cursor. */
    method InvokeScope(n: Node)
      requires Valid() && (n.BeginStruct? || n.BeginVariant? || n.EndStruct? || n.AdvancePos? || n.Halt?)
      modifies this
      ensures Valid() && View() == StepNode(program, old(View()), n)
    {
      hide Zip;
      match n
      case Halt =>
      case BeginStruct(name, next) => Record(OpenStruct(name, pos), next);
      case BeginVariant(name, tag, next) => Record(OpenVariant(name, pos, tag), next);
      case EndStruct(next) => Record(CloseStruct(pos), next);
      case AdvancePos(amount, next) =>
        pos := pos + amount;
        PushKont(Sp(next));
      case _ => assert false;
    }

    /** Alternatives and calls. */
    method InvokeFrames(n: Node)
      requires Valid()
      requires n.InvokeRule? || n.BeginChoice? || n.BeginOptional? || n.CommitChoice? || n.EndOptional?
      modifies this
      ensures Valid() && View() == StepNode(program, old(View()), n)
    {
      hide StepNode, Zip, Unwind;
      NodeParts(program, View(), n);
      match n
      case InvokeRule(rule, entry, failTarget, next) => Enter(ReturnF(next, env, failTarget), entry);
      case BeginChoice(onFail, next) => Enter(SavepointHere(onFail), next);
      case BeginOptional(onFail, inner) => Enter(SavepointHere(onFail), inner);
      case CommitChoice(next) => Commit(next);
      case EndOptional(next) => Commit(next);
      case _ => assert false;
    }

    method InvokeNode(n: Node)
      requires Valid()
      modifies this
      ensures Valid() && View() == StepNode(program, old(View()), n)
    {
      hide StepNode, Zip, StepArrayNext, StepBeginArray, StepEndArray, StepResync, StepOnFail, Unwind, PushFrame, Savepoint;
      NodeParts(program, View(), n);
      match n
      case Halt | BeginStruct(_, _) | BeginVariant(_, _, _) | EndStruct(_) | AdvancePos(_, _) => InvokeScope(n);
      case Seek(_, _) | PushInterval(_, _, _) | EvalConstraint(_, _, _) | BindCompute(_, _) | SetEndian(_, _)
        | MatchBytes(_, _, _) | SwitchDispatch(_, _, _) => InvokeSite(n);
      case InvokeRule(_, _, _, _) | BeginChoice(_, _) | BeginOptional(_, _) | CommitChoice(_) | EndOptional(_) => InvokeFrames(n);
      case Capture(_, _) | StoreEnv(_, _) => InvokeStores(n);
      case MatchPrim(prim, next) => InvokeMatchPrim(prim, next);
      case PopInterval(checked, next) => InvokePopInterval(checked, next);
      case BeginArray(name, mode, bound, endNode, resyncTo, next) =>
        InvokeBeginArray(name, mode, bound, endNode, resyncTo, next);
      case ArrayNext(mode, bound, endNode, body, resync) => InvokeArrayNext(mode, bound, endNode, body, resync);
      case EndArray(resync, next) => InvokeEndArray(resync, next);
      case ExtractBits(prim, width, off, signed, next) => InvokeExtractBits(prim, width, off, signed, next);
      case ReturnRule(next) => InvokeReturn(next);
      case AbortRule => InvokeAbort();
      case OnFail(target, nextOnFail, pop) => InvokeOnFail(target, nextOnFail, pop);
      case Resync(body, endNode) => InvokeResync(body, endNode);
    }

    // ── The trampoline ──────────────────────────────────────────────────

    method InvokeKont(control: Kont)
      requires Valid()
      modifies this
      ensures Valid() && View() == Invoke(program, old(View()), control)
    {
      hide StepEx, StepExprDyn, StepSiteDyn, StepNode, Unwind, Zip;
      match control
      case Ex(e) => InvokeExpr(e);
      case Dyn(d) => if IsExprDyn(d) { InvokeExprDyn(d); } else { InvokeSiteDyn(d); }
      case Sp(l) => if l < |program.code| { InvokeNode(program.code[l]); } else { FailWith(); }
    }

    /** A fresh parse: environment and frames are the caller's, everything else is reset. */
    method Start(entry: Label, defaultLittleEndian: bool)
      requires env == [] && frames == []
      modifies this
      ensures Valid() && View() == Initial(entry, defaultLittleEndian)
    {
      hide Zip, Initial;
      NoWindows();
      InitialIs(entry, defaultLittleEndian);
      pos, intervalDepth, littleEndian := 0, 0, defaultLittleEndian;
      intervalStarts, intervalEnds := [], [];
      result, slots, failed, bestErrorPos := Null, [], false, 0;
      kontStack, builder := [Sp(entry)], [];
    }

    /** execute_from: a parse ends when the stack is empty or a failure found no handler.
        `bound` is a number of steps after which it is known to have ended. */
    method ExecuteFrom(entry: Label, defaultLittleEndian: bool, ghost bound: nat) returns (ok: bool)
      requires env == [] && frames == []
      requires !Running(Steps(program, Initial(entry, defaultLittleEndian), bound))
      modifies this
      ensures Valid() && View() == Steps(program, Initial(entry, defaultLittleEndian), bound)
      ensures ok <==> !View().failed
    {
      hide Invoke, Zip;
      Start(entry, defaultLittleEndian);
      ghost var left := bound;
      while !failed && kontStack != []
        invariant Valid() && Steps(program, View(), left) == Steps(program, Initial(entry, defaultLittleEndian), bound)
        decreases left
      {
        ghost var before := View();
        var control := kontStack[|kontStack| - 1];
        kontStack := kontStack[..|kontStack| - 1];
        InvokeKont(control);
        assert View() == Step(program, before);
        left := left - 1;
      }
      HaltedStays(program, View(), left);
      return !failed;
    }
  }

  lemma InitialIs(entry: Label, le: bool)
    ensures var s := Initial(entry, le);
            && s.k == [Sp(entry)] && s.ac == Null && s.slots == [] && s.pos == 0 && s.env == [] && s.le == le && s.frames == []
            && s.wins == [] && s.depth == 0 && s.log == [] && !s.failed && s.best == 0
  {}

  lemma NoWindows()
    ensures Zip([], []) == []
  {}

  lemma ReadParts(p: Program, s: State, n: Node)
    ensures n.ExtractBits? ==>
              var r := if EffHi(p, s) <= |p.input|
                       then ReadMember(n.prim, n.width, n.off, n.signed, p.input, s.pos, EffHi(p, s), s.le) else None;
              StepNode(p, s, n)
              == if r.None? then Fail(s) else Go(Machine.Note(SetAc(s, CapV(r.value)), BitsRun(MsbFirst(n.prim, s.le))), n.next)
    ensures n.MatchPrim? ==>
              var r := if EffHi(p, s) <= |p.input| then ReadPrim(n.prim, p.input, s.pos, EffHi(p, s), s.le) else None;
              StepNode(p, s, n) == if r.None? then Fail(s) else Go(SetAc(s.(pos := r.value.end), CapV(r.value)), n.next)
  {
    hide StepArrayNext, StepBeginArray, StepEndArray, StepResync, StepOnFail, ReadPrim, ReadMember, Fail;
  }

  /** The nodes whose steps have a name of their own. */
  lemma NodeParts(p: Program, s: State, n: Node)
    ensures n.ArrayNext? ==> StepNode(p, s, n) == StepArrayNext(p, s, n.mode, n.bound, n.endNode, n.body, n.resync)
    ensures n.BeginArray? ==>
              StepNode(p, s, n) == StepBeginArray(p, s, n.name, n.mode, n.bound, n.endNode, n.resyncTo, n.next)
    ensures n.EndArray? ==> StepNode(p, s, n) == StepEndArray(s, n.resync, n.next)
    ensures n.Resync? ==> StepNode(p, s, n) == StepResync(p, s, n.body, n.endNode)
    ensures n.OnFail? ==> StepNode(p, s, n) == StepOnFail(s, n.target, n.nextOnFail, n.pop)
    ensures n.InvokeRule? ==> StepNode(p, s, n) == Go(PushFrame(s, ReturnF(n.next, s.env, n.failTarget)), n.entry)
    ensures n.BeginChoice? ==> StepNode(p, s, n) == Go(PushFrame(s, Savepoint(s, n.onFail)), n.next)
    ensures n.BeginOptional? ==> StepNode(p, s, n) == Go(PushFrame(s, Savepoint(s, n.onFail)), n.inner)
    ensures n.CommitChoice? || n.EndOptional? ==>
              StepNode(p, s, n) == Go(if s.frames != [] && s.frames[0].SaveF? then s.(frames := s.frames[1..]) else s, n.next)
  {
    hide StepArrayNext, StepBeginArray, StepEndArray, StepResync, StepOnFail;
  }

  /** Compiling a grammar and running the machine on an input decides the grammar's meaning:
      the parse succeeds exactly when the denotation does, and in the same state. `fuel` is
      any at which the denotation is defined. */
  method ParseRule(g: Grammar, ghost dm: set<Name>, input: Bytes, i: nat, le: bool, ghost fuel: nat)
    returns (m: Cek, ok: bool)
    requires Accepted(g, dm) && i < |g| && !Meaning(g, input, i, le, fuel).Out?
    ensures m.Valid()
    ensures ok <==> Meaning(g, input, i, le, fuel).Ok?
    ensures ok ==> Finished(m.View(), Meaning(g, input, i, le, fuel).c)
  {
    hide Accepted, Loaded, Meaning, CompileGrammar, CompileRules, Step, Steps;
    ghost var w := Load(g, input, dm);
    GrammarLoads(g, input, dm);
    ghost var n := Parse(w, i, le, fuel);
    EntriesAre(g, input, dm);
    m := new Cek(Program(CompileGrammar(g), input));
    HaltsWhenDone(w, i, le, fuel, n);
    ok := m.ExecuteFrom(CompileRules(g, |g|).entries[i], le, n);
  }

  lemma EntriesAre(g: Grammar, input: Bytes, dm: set<Name>)
    requires Loaded(Load(g, input, dm))
    ensures |CompileRules(g, |g|).entries| == |g|
  {
    hide CompileGrammar, CompileRules;
  }

  lemma HaltsWhenDone(w: World, i: nat, le: bool, fuel: nat, n: nat)
    requires i < |w.entries| == |w.g|
    requires var r := Meaning(w.g, w.p.input, i, le, fuel); !r.Out? && Matches(w, StartState(w, i, le), r, fuel, n)
    ensures !Running(Steps(w.p, Initial(w.entries[i], le), n))
  {
    hide Meaning, Steps;
  }
}
