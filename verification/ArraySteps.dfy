/** The loop machinery of arrays, one machine step or consumer at a time: begin, next, the
    stop tests, end, and recovery from a failed element. */
module ArraySteps {
  import opened Syntax
  import opened Eval
  import opened Wire
  import opened Machine
  import opened Compile
  import opened Denote
  import opened Runs
  import opened World
  import opened Leaves
  import opened Bitfields
  import opened Attempts

  // ── Layout ────────────────────────────────────────────────────────────

  /** Where the parts of a compiled array ended up in the program. */
  ghost predicate ArrayAt(w: World, t: Type, h: BuiltHead, it: BuiltIteration, out: Label)
    requires t.Array?
  {
    h.end < |w.p.code| && h.back < |w.p.code|
    && w.p.code[h.end] == EndArray(t.resync, out)
    && w.p.code[h.back] == ArrayNext(t.mode, CompileExpr(t.bound), h.end, it.loop, t.resync)
    && (h.resync.Some? <==> t.resync)
    && (h.resync.Some? ==> h.resync.value < |w.p.code| && w.p.code[h.resync.value] == Resync(it.loop, h.end))
    && (t.resync ==> t.mode.FixedCount? || t.mode.UntilEof?)
  }

  lemma HeadNodes(code: seq<Node>, t: Type, r: Rho, next: Label)
    requires t.Array?
    ensures var h := ArrayHead(code, t, r, next);
            var wh := WrapWhere(code, t.where, r, next);
            |wh.code| <= h.end && wh.code <= h.code && h.code[h.end] == EndArray(t.resync, wh.entry)
            && (t.elemInterval.Some? ==>
                  && h.tail == |h.code| - 1 && h.tail > h.back && h.code[h.tail] == PopInterval(false, h.back)
                  && (h.resync.Some? ==> h.tail > h.resync.value))
            && (t.elemInterval.None? ==> h.tail == h.back)
  {
    hide CompileExpr, WrapWhere;
  }

  /** From the compiled array in the program, the layout of its parts. */
  lemma ArrayParts(w: World, code: seq<Node>, t: Type, r: Rho, next: Label)
    requires |w.entries| == |w.g| && t.Array? && Holds(w, |code|, CompileArray(code, t, r, next).code)
    requires t.resync ==> t.mode.FixedCount? || t.mode.UntilEof?
    ensures var h := ArrayHead(code, t, r, next);
            var it := CompileIteration(h.code, t, InArrayElem(h.resync, r), h.tail);
            var wh := WrapWhere(code, t.where, r, next);
            var b := CompileArray(code, t, r, next);
            ArrayAt(w, t, h, it, wh.entry) && Holds(w, |code|, wh.code) && Holds(w, |h.code|, it.code)
            && (t.elemInterval.Some? ==>
                  && h.tail == |h.code| - 1 && Holds(w, |h.code| - 1, it.code)
                  && h.code[h.tail] == PopInterval(false, h.back))
            && (t.elemInterval.None? ==> h.tail == h.back)
            && b.entry < |w.p.code|
            && w.p.code[b.entry] == BeginArray(FieldName(r), t.mode, CompileExpr(t.bound), h.end, h.resync, it.head)
  {
    hide CompileExpr, WrapWhere, CompileIteration, ArrayHead, FieldName;
    HeadNodes(code, t, r, next);
    var h := ArrayHead(code, t, r, next);
    var it := CompileIteration(h.code, t, InArrayElem(h.resync, r), h.tail);
    var wh := WrapWhere(code, t.where, r, next);
    var b := CompileArray(code, t, r, next);
    var pc := ArrayPatch(it.code, |code|, t, h, it.loop);
    assert b.code == pc + [BeginArray(FieldName(r), t.mode, CompileExpr(t.bound), h.end, h.resync, it.head)];
    assert forall i :: 0 <= i < |pc| ==> b.code[i] == pc[i];
    assert forall i :: 0 <= i < |it.code| && i != h.back && (h.resync.Some? ==> i != h.resync.value) ==> pc[i] == it.code[i];
    assert forall i :: 0 <= i < |h.code| ==> it.code[i] == h.code[i];
    assert it.code[h.end] == h.code[h.end];
    assert pc[h.end] == h.code[h.end];
    assert pc[h.back] == ArrayNext(t.mode, CompileExpr(t.bound), h.end, it.loop, t.resync);
    HeadHolds(w, code, b.code, pc, it.code, h, wh.code);
  }

  lemma HeadHolds(w: World, code: seq<Node>, bc: seq<Node>, pc: seq<Node>, ic: seq<Node>, h: BuiltHead, wc: seq<Node>)
    requires |w.entries| == |w.g| && Holds(w, |code|, bc)
    requires |pc| == |ic| < |bc| && forall i :: 0 <= i < |pc| ==> bc[i] == pc[i]
    requires forall i :: 0 <= i < |ic| && i != h.back && (h.resync.Some? ==> i != h.resync.value) ==> pc[i] == ic[i]
    requires |code| <= |wc| <= h.end < h.back < |h.code| <= |ic| && wc <= h.code && h.code <= ic
    requires h.resync.Some? ==> h.back < h.resync.value < |h.code|
    ensures Holds(w, |code|, wc) && Holds(w, |h.code|, ic)
    ensures h.back < |h.code| - 1 && (h.resync.Some? ==> h.resync.value < |h.code| - 1) ==> Holds(w, |h.code| - 1, ic)
  {}

  // ── Loop states ───────────────────────────────────────────────────────

  /** s is inside the loop of an array entered from b: the loop frame, under the resync
      savepoint if there is one, over b's frames. */
  predicate InLoop(b: State, s: State, rk: Option<Label>, i: int, limit: int) {
    Keeps(b, s) && b.depth <= s.depth <= |s.wins|
    && s.frames != []
    && if rk.None? then s.frames == [LoopF(i, limit, b.env)] + b.frames
       else Saves(s.frames[0], s) && s.frames[0].onFail == rk && s.frames[1..] == [LoopF(i, limit, b.env)] + b.frames
  }

  /** As InLoop, but the savepoint may be stale or already gone. */
  predicate Closing(b: State, s: State) {
    Keeps(b, s) && b.depth <= s.depth <= |s.wins| && s.frames != []
    && ((s.frames[0].LoopF? && s.frames[0].outerEnv == b.env && s.frames[1..] == b.frames)
        || (s.frames[0].SaveF? && |s.frames| > 1 && s.frames[1].LoopF? && s.frames[1].outerEnv == b.env && s.frames[2..] == b.frames))
  }

  lemma InLoopFacts(b: State, s: State, rk: Option<Label>, i: int, limit: int)
    requires InLoop(b, s, rk, i, limit)
    ensures LoopVar(s.frames) == Some(i) && s.frames != []
    ensures rk.None? ==> s.frames[0].LoopF? && Unwind(s.frames) == Unwind(b.frames)
    ensures rk.Some? ==> Unwind(s.frames) == s.frames && s.frames[0].onFail == rk && s.frames[0].SaveF?
    ensures Closing(b, s)
  {
    if rk.None? {
      assert s.frames[1..] == b.frames;
    } else {
      assert s.frames[1..][1..] == b.frames == s.frames[2..];
      assert s.frames[1] == LoopF(i, limit, b.env);
    }
  }

  // ── End ───────────────────────────────────────────────────────────────

  lemma RunEndArray(w: World, b: State, s: State, l: Label, resync: bool, next: Label) returns (t: State)
    requires Spine(w.p, s, l) && l < |w.p.code| && w.p.code[l] == EndArray(resync, next)
    requires Closing(b, s) && (s.frames[0].SaveF? ==> resync)
    ensures Run(w.p, s, 1, t) && Spine(w.p, t, next) && Follows(b, t)
    ensures CoreOf(t) == Logged(CoreOf(s), CloseArray(s.pos)).(env := b.env)
  {
    hide Step, Run, Chain;
    t := s.(k := [Sp(next)], frames := b.frames, env := b.env, log := s.log + [CloseArray(s.pos)]);
    LeaveHandlers(w.p, s.frames);
    if s.frames[0].SaveF? {
      LeaveHandlers(w.p, s.frames[1..]);
      assert s.frames[1..][1..] == s.frames[2..];
    }
    RunSp(w.p, s, l, t, next);
  }

  // ── Next ──────────────────────────────────────────────────────────────

  /** ArrayNext's bookkeeping: one more element counted, the savepoint refreshed. */
  function Counted(s: State, resync: bool): State
    requires if resync then |s.frames| > 1 && s.frames[0].SaveF? && s.frames[1].LoopF? else s.frames != [] && s.frames[0].LoopF?
  {
    if resync then
      s.(frames := [Savepoint(s, 0).(onFail := s.frames[0].onFail)] + [s.frames[1].(counter := s.frames[1].counter + 1)] + s.frames[2..])
    else s.(frames := [s.frames[0].(counter := s.frames[0].counter + 1)] + s.frames[1..])
  }

  lemma NextNode(p: Program, s: State, mode: ArrayMode, bound: EKont, end: Label, body: Label, resync: bool)
    ensures StepNode(p, s, ArrayNext(mode, bound, end, body, resync)) == StepArrayNext(p, s, mode, bound, end, body, resync)
  {
    hide StepArrayNext;
  }

  lemma StepNext(p: Program, s: State, mode: ArrayMode, bound: EKont, end: Label, body: Label, resync: bool)
    requires if resync then |s.frames| > 1 && s.frames[0].SaveF? && s.frames[1].LoopF? else s.frames != [] && s.frames[0].LoopF?
    ensures var s2 := Counted(s, resync);
            var lf := s2.frames[if resync then 1 else 0];
            StepArrayNext(p, s, mode, bound, end, body, resync) ==
            match mode
            case FixedCount => Go(s2, if lf.counter >= lf.limit then end else body)
            case UntilEof => Go(s2, if s2.pos >= EffHi(p, s2) then end else body)
            case CountTerm => s2.(k := s2.k + [Dyn(CountCheck(end, body)), Ex(bound)])
            case UntilTerm => s2.(k := s2.k + [Dyn(UntilCheck(end, body)), Ex(bound)])
  {
    var s1 := if resync then s.(frames := s.frames[0 := Savepoint(s, 0).(onFail := s.frames[0].onFail)]) else s;
    var i := if resync then 1 else 0;
    var lf := s1.frames[i].(counter := s1.frames[i].counter + 1);
    assert s1.frames[i := lf] == Counted(s, resync).frames;
  }

  /** The counted state is in the loop again, one element further. t is in the loop of b at
      element i with s's savepoint still under the frames. */
  lemma CountedInLoop(p: Program, b: State, s: State, t: State, rk: Option<Label>, i: int, limit: int)
    requires InLoop(b, s, rk, i, limit) && Follows(s, t) && Chained(p, t) && t.k == [] && !t.failed
    ensures if rk.Some? then |t.frames| > 1 && t.frames[0].SaveF? && t.frames[1].LoopF? else t.frames != [] && t.frames[0].LoopF?
    ensures var u := Counted(t, rk.Some?);
            InLoop(b, u, rk, i + 1, limit) && Chained(p, u) && u == t.(frames := u.frames)
            && u.frames[if rk.Some? then 1 else 0] == LoopF(i + 1, limit, b.env)
  {
    hide Chain;
    InLoopFacts(b, s, rk, i, limit);
    assert t.frames == s.frames;
    assert t.wins[..b.depth] == t.wins[..s.depth][..b.depth];
    assert s.wins[..s.depth][..b.depth] == s.wins[..b.depth];
    var u := Counted(t, rk.Some?);
    if rk.None? {
      assert t.frames[1..] == b.frames;
      assert u.frames == [LoopF(i + 1, limit, b.env)] + b.frames;
    } else {
      assert t.frames[2..] == t.frames[1..][1..] == b.frames;
      assert u.frames[1..] == [LoopF(i + 1, limit, b.env)] + b.frames;
    }
    CountedHandlers(p, t, rk.Some?);
  }

  lemma CountedHandlers(p: Program, t: State, resync: bool)
    requires if resync then |t.frames| > 1 && t.frames[0].SaveF? && t.frames[1].LoopF? else t.frames != [] && t.frames[0].LoopF?
    requires HandlersOk(p, t.frames)
    ensures HandlersOk(p, Counted(t, resync).frames)
  {
    var fs := Counted(t, resync).frames;
    forall i | 0 <= i < |fs| && Armed(fs[i]) ensures IsHandler(p, fs[i].onFail.value) {
      if resync {
        if i >= 2 { assert fs[i] == t.frames[i]; }
      } else {
        if i >= 1 { assert fs[i] == t.frames[i]; }
      }
    }
  }

  lemma BackNode(w: World, ty: Type, h: BuiltHead, it: BuiltIteration, out: Label)
    requires ty.Array? && ArrayAt(w, ty, h, it, out)
    ensures h.back < |w.p.code| && w.p.code[h.back] == ArrayNext(ty.mode, CompileExpr(ty.bound), h.end, it.loop, ty.resync)
    ensures (h.resync.Some? <==> ty.resync) && (ty.resync ==> ty.mode.FixedCount? || ty.mode.UntilEof?)
  {
    hide CompileExpr;
  }

  lemma PlainStop(input: Bytes, t: Type, limit: int, i: nat, c: Core)
    requires t.Array?
    ensures t.mode.FixedCount? ==> StopTest(input, t, limit, i, c) == Some(i >= limit)
    ensures t.mode.UntilEof? ==> StopTest(input, t, limit, i, c) == Some(c.pos >= CoreHi(input, c))
  {
    hide EvalExpr;
  }

  /** After an element: count it, test, and go on to the end or to another element. */
  lemma {:induction false} RunNext(w: World, ty: Type, h: BuiltHead, it: BuiltIteration, out: Label, b: State, s: State, s0: State, i: nat, limit: int)
    returns (n: nat, t: State, stop: Option<bool>)
    requires ty.Array? && ArrayAt(w, ty, h, it, out) && Spine(w.p, s, h.back)
    requires InLoop(b, s0, h.resync, i, limit) && Follows(s0, s)
    ensures Run(w.p, s, n, t) && n >= 1 && stop == StopTest(w.p.input, ty, limit, i + 1, CoreOf(s))
    ensures if stop.None? then AtFail(w.p, b, t)
            else Spine(w.p, t, if stop.value then h.end else it.loop) && InLoop(b, t, h.resync, i + 1, limit) && CoreOf(t) == CoreOf(s)
  {
    hide Run, Step, StepNode, CompileExpr, EvalExpr, Chain, HandlersOk, Unwind, StepArrayNext, Counted, InLoop, ArrayAt, StopTest, AtFail;
    BackNode(w, ty, h, it, out);
    CountedInLoop(w.p, b, s0, s.(k := []), h.resync, i, limit);
    NextNode(w.p, s.(k := []), ty.mode, CompileExpr(ty.bound), h.end, it.loop, ty.resync);
    StepNext(w.p, s.(k := []), ty.mode, CompileExpr(ty.bound), h.end, it.loop, ty.resync);
    var u := Counted(s.(k := []), ty.resync);
    InLoopFacts(b, u, h.resync, i + 1, limit);
    CtxSame(w.p, u);
    PlainStop(w.p.input, ty, limit, i + 1, CoreOf(s));
    stop := StopTest(w.p.input, ty, limit, i + 1, CoreOf(s));
    if ty.mode.FixedCount? || ty.mode.UntilEof? {
      t := u.(k := [Sp(if stop.value then h.end else it.loop)]);
      LoopAgain(b, u, t, h.resync, i + 1, limit);
      RunSp(w.p, s, h.back, t, if stop.value then h.end else it.loop);
      n := 1;
    } else {
      n, t, stop := RunStopTest(w, ty, b, s, h.back, u, h.end, it.loop, i + 1, limit);
    }
  }

  /** InLoop looks at neither K nor ac nor cells. */
  lemma LoopAgain(b: State, u: State, t: State, rk: Option<Label>, i: int, limit: int)
    requires InLoop(b, u, rk, i, limit) && t == u.(k := t.k, ac := t.ac, slots := t.slots)
    ensures InLoop(b, t, rk, i, limit)
  {}

  /** The evaluated stop tests: `count` against the counter, `until` as a condition. */
  lemma {:induction false} RunStopTest(w: World, ty: Type, b: State, s: State, l: Label, u: State, end: Label, body: Label, i: nat, limit: int)
    returns (n: nat, t: State, stop: Option<bool>)
    requires ty.Array? && (ty.mode.CountTerm? || ty.mode.UntilTerm?)
    requires Spine(w.p, s, l) && l < |w.p.code|
    requires u.k == [] && !u.failed && Chained(w.p, u) && InWindow(w.p, u) && InLoop(b, u, None, i, limit)
    requires StepNode(w.p, s.(k := []), w.p.code[l]) ==
             u.(k := [Dyn(if ty.mode.CountTerm? then CountCheck(end, body) else UntilCheck(end, body)), Ex(CompileExpr(ty.bound))])
    ensures Run(w.p, s, n, t) && n >= 1 && stop == StopTest(w.p.input, ty, limit, i, CoreOf(u))
    ensures if stop.None? then AtFail(w.p, b, t)
            else Spine(w.p, t, if stop.value then end else body) && InLoop(b, t, None, i, limit) && CoreOf(t) == CoreOf(u)
  {
    hide Run, CompileExpr, EvalExpr, Chain, HandlersOk, Unwind, StepNode, AtFail, Truth;
    var dk := if ty.mode.CountTerm? then CountCheck(end, body) else UntilCheck(end, body);
    var u1 := u.(k := [Dyn(dk), Ex(CompileExpr(ty.bound))]);
    StepSp(w.p, s, l);
    SpineSafe(w.p, s, l);
    assert u1 == Step(w.p, s);
    hide Step;
    Shifted(w.p, u, u1);
    RunOne(w.p, s);
    InLoopFacts(b, u, None, i, limit);
    CtxSame(w.p, u);
    stop := StopTest(w.p.input, ty, limit, i, CoreOf(u));
    var n1, t1 := RunSite(w.p, u1, dk, ty.bound);
    RunTrans(w.p, s, 1, u1, n1, t1);
    n, t := 1 + n1, t1;
    if EvalExpr(ty.bound, CtxOf(w.p, u1)).None? {
      LoopFail(w.p, b, u1, t1, i, limit);
    } else {
      t := FinishStop(w, ty, b, s, n, t1, u, end, body, i, limit, stop);
      n := n + 1;
    }
  }

  /** The stop test's consumer. */
  lemma FinishStop(w: World, ty: Type, b: State, s: State, n: nat, t1: State, u: State, end: Label, body: Label, i: nat, limit: int,
                   stop: Option<bool>) returns (t: State)
    requires ty.Array? && (ty.mode.CountTerm? || ty.mode.UntilTerm?)
    requires Run(w.p, s, n, t1) && Running(t1)
    requires Chained(w.p, u) && InWindow(w.p, u) && !u.failed && InLoop(b, u, None, i, limit)
    requires t1 == u.(k := t1.k, ac := t1.ac, slots := t1.slots)
    requires Step(w.p, t1) == StepSiteDyn(w.p, t1.(k := []), if ty.mode.CountTerm? then CountCheck(end, body) else UntilCheck(end, body))
    requires stop == if ty.mode.UntilTerm? then Truth(t1.ac)
                     else if t1.ac.IntV? then Some(i >= t1.ac.i) else None
    ensures Run(w.p, s, n + 1, t)
    ensures if stop.None? then AtFail(w.p, b, t)
            else Spine(w.p, t, if stop.value then end else body) && InLoop(b, t, None, i, limit) && CoreOf(t) == CoreOf(u)
  {
    hide Run, Step, Chain, HandlersOk, Unwind;
    Shifted(w.p, u, t1.(k := []));
    InLoopFacts(b, u, None, i, limit);
    if stop.None? {
      SiteFail(w.p, b, s, n, t1, t1.(k := []));
      t := Fail(t1.(k := []));
    } else {
      t := t1.(k := [Sp(if stop.value then end else body)]);
      Shifted(w.p, u, t);
      SiteGo(w.p, s, n, t1, t, if stop.value then end else body);
      LoopAgain(b, u, t, None, i, limit);
    }
  }

  lemma LoopFail(p: Program, b: State, u: State, t: State, i: int, limit: int)
    requires InLoop(b, u, None, i, limit) && AtFail(p, u, t)
    ensures AtFail(p, b, t)
  {
    InLoopFacts(b, u, None, i, limit);
    hide Unwind, Lands;
    assert u.frames[1..] == b.frames;
    assert t.wins[..b.depth] == t.wins[..u.depth][..b.depth];
    assert u.wins[..u.depth][..b.depth] == u.wins[..b.depth];
  }

  // ── Recovery ──────────────────────────────────────────────────────────

  /** A failed element in resync mode: back to where the attempt started, then one byte on;
      or, with no byte left, out of the loop or out of the array's declared count. */
  lemma RunResync(w: World, ty: Type, h: BuiltHead, it: BuiltIteration, out: Label, b: State, s: State, t: State, i: nat, limit: int)
    returns (t2: State)
    requires ty.Array? && ty.resync && ArrayAt(w, ty, h, it, out)
    requires InLoop(b, s, h.resync, i, limit) && Chained(w.p, s) && InWindow(w.p, s) && !s.failed
    requires AtFail(w.p, s, t) && Safe(w.p, t)
    ensures Run(w.p, t, 1, t2)
    ensures if s.pos < EffHi(w.p, s) then
              Spine(w.p, t2, it.loop) && InLoop(b, t2, h.resync, i, limit) && CoreOf(t2) == CoreOf(s).(pos := s.pos + 1)
            else if limit >= 0 && i < limit then AtFail(w.p, b, t2)
            else Spine(w.p, t2, h.end) && Closing(b, t2) && CoreOf(t2) == CoreOf(s)
  {
    hide Run, Chain, CompileExpr, Step, StepNode, StepResync, Falls, Lands, Unwind, HandlersOk;
    InLoopFacts(b, s, h.resync, i, limit);
    var rk := h.resync.value;
    AtTop(w.p, s, t, rk);
    var k0 := t.k[..|t.k| - 1];
    assert t.k == k0 + [Sp(rk)];
    HandlerStep(w.p, t, k0, rk);
    t2 := Step(w.p, t);
    var back := s.(k := [], ac := t.ac, slots := t.slots, wins := t.wins, best := t.best);
    Rewound(w.p, b, s, t, back, rk, i, limit);
    if s.pos < EffHi(w.p, s) {
      ResyncRetries(w, b, s, t, k0, back, t2, it.loop, h.end, rk, i, limit);
    } else {
      ResyncStops(w, b, s, t, k0, back, t2, it.loop, h.end, rk, i, limit);
    }
    RunOne(w.p, t);
  }

  /** The state a resync handler goes back to: the attempt's, but for what no core shows. */
  lemma Rewound(p: Program, b: State, s: State, t: State, back: State, rk: Label, i: int, limit: int)
    requires InLoop(b, s, Some(rk), i, limit) && Keeps(s, t) && s.depth <= |s.wins| && Chained(p, s) && InWindow(p, s)
    requires back == s.(k := [], ac := t.ac, slots := t.slots, wins := t.wins, best := t.best)
    ensures Keeps(b, back) && b.depth <= back.depth <= |back.wins| && CoreOf(back) == CoreOf(s)
    ensures Chained(p, back) && InWindow(p, back) && EffHi(p, back) == EffHi(p, s) <= |p.input|
    ensures s.frames != [] && Saves(s.frames[0], s) && s.frames[1..] == [LoopF(i, limit, b.env)] + b.frames
  {
    hide Chain, HandlersOk;
    assert t.wins[..b.depth] == t.wins[..s.depth][..b.depth];
    assert s.wins[..s.depth][..b.depth] == s.wins[..b.depth];
    EffHiBound(p, s);
  }

  lemma Restored(s: State, t: State, k0: seq<Kont>, f: Frame)
    requires Saves(f, s) && Keeps(s, t) && s.depth <= |s.wins| && !s.failed && !t.failed
    ensures Restore(t.(k := k0), f) == s.(k := [], ac := t.ac, slots := t.slots, wins := t.wins, best := t.best, frames := t.frames)
  {
    assert k0[..0] == [];
    assert t.log[..|s.log|] == s.log;
  }

  lemma ResyncRetries(w: World, b: State, s: State, t: State, k0: seq<Kont>, back: State, t2: State, loop: Label, end: Label, rk: Label, i: nat, limit: int)
    requires s.frames != [] && Saves(s.frames[0], s) && s.frames[0].onFail == Some(rk) && s.frames[1..] == [LoopF(i, limit, b.env)] + b.frames
    requires Keeps(s, t) && s.depth <= |s.wins| && t.frames == s.frames && !s.failed && !t.failed
    requires back == s.(k := [], ac := t.ac, slots := t.slots, wins := t.wins, best := t.best)
    requires Keeps(b, back) && b.depth <= back.depth <= |back.wins| && CoreOf(back) == CoreOf(s)
    requires Chained(w.p, back) && InWindow(w.p, back) && s.pos < EffHi(w.p, back) <= |w.p.input|
    requires t2 == StepResync(w.p, t.(k := k0), loop, end)
    ensures Spine(w.p, t2, loop) && InLoop(b, t2, Some(rk), i, limit) && CoreOf(t2) == CoreOf(s).(pos := s.pos + 1) && Safe(w.p, t2)
  {
    hide Chain, ResyncEnd, Restore;
    Restored(s, t, k0, s.frames[0]);
    var f := Savepoint(back.(pos := s.pos + 1), 0).(onFail := Some(rk));
    var below := s.frames[1..];
    assert FindSave(t.frames) == 0 && t.frames[0 := f] == [f] + below;
    assert t2 == Go(back.(pos := s.pos + 1, frames := [f] + below), loop);
    assert ([f] + below)[1..] == below;
    hide HandlersOk;
    HandlersTop(w.p, s.frames, f);
  }

  lemma ResyncStops(w: World, b: State, s: State, t: State, k0: seq<Kont>, back: State, t2: State, loop: Label, end: Label, rk: Label, i: nat, limit: int)
    requires s.frames != [] && Saves(s.frames[0], s) && s.frames[0].onFail == Some(rk) && s.frames[1..] == [LoopF(i, limit, b.env)] + b.frames
    requires Keeps(s, t) && s.depth <= |s.wins| && t.frames == s.frames && !s.failed && !t.failed
    requires back == s.(k := [], ac := t.ac, slots := t.slots, wins := t.wins, best := t.best)
    requires Keeps(b, back) && b.depth <= back.depth <= |back.wins| && CoreOf(back) == CoreOf(s)
    requires Chained(w.p, back) && InWindow(w.p, back) && s.pos >= EffHi(w.p, back)
    requires t2 == StepResync(w.p, t.(k := k0), loop, end)
    ensures Safe(w.p, t2)
    ensures if limit >= 0 && i < limit then AtFail(w.p, b, t2) else Spine(w.p, t2, end) && Closing(b, t2) && CoreOf(t2) == CoreOf(s)
  {
    hide Chain, Restore, Falls, Lands, Unwind, Fail;
    Restored(s, t, k0, s.frames[0]);
    var below := s.frames[1..];
    assert FindSave(t.frames) == 0 && t.frames[0 + 1..] == below && below[1..] == b.frames;
    var x := back.(frames := below);
    hide HandlersOk;
    LeaveHandlers(w.p, s.frames);
    UnwindLoop(below, b.frames);
    if limit >= 0 && i < limit {
      assert t2 == Fail(x);
      FailSafe(w.p, x);
      FailIs(w.p, b, x);
    } else {
      assert t2 == Go(x, end);
    }
  }

  lemma UnwindLoop(fs: seq<Frame>, outer: seq<Frame>)
    requires fs != [] && fs[0].LoopF? && fs[1..] == outer
    ensures Unwind(fs) == Unwind(outer)
  {}

  // ── Begin ─────────────────────────────────────────────────────────────

  /** What entering an array leads to: a failure, no elements, or a loop with a limit. */
  datatype Begun = BeginFails | NoItems(c: Core) | Items(limit: int, c: Core)

  function BeginSpec(input: Bytes, t: Type, nm: Name, c: Core, loop: Option<int>): Begun
    requires t.Array?
  {
    if t.mode.FixedCount? || t.mode.CountTerm? then
      var c1 := if t.bound.Ref? then Logged(c, PendingCount(t.bound.name)) else c;
      var v := ValueOf(input, t.bound, c1, loop);
      if v.None? || !v.value.IntV? then BeginFails
      else
        var c2 := Logged(c1, OpenArray(nm, c1.pos));
        if v.value.i <= 0 then NoItems(c2) else Items(v.value.i, c2)
    else
      var c2 := Logged(c, OpenArray(nm, c.pos));
      var stop := StopTest(input, t, -1, 0, c2);
      if stop.None? then BeginFails else if stop.value then NoItems(c2) else Items(-1, c2)
  }

  function FromBegun(g: Grammar, input: Bytes, fuel: nat, t: Type, b: Begun): LoopRes
    requires t.Array?
  {
    match b
    case BeginFails => LoopFailed
    case NoItems(c) => Done(c, 0)
    case Items(limit, c) => ParseLoop(g, input, fuel, t, limit, false, 0, c)
  }

  lemma ItemsMeans(g: Grammar, input: Bytes, fuel: nat, t: Type, nm: Name, c: Core, loop: Option<int>)
    requires t.Array?
    ensures ParseItems(g, input, fuel, t, nm, c, loop) == FromBegun(g, input, fuel, t, BeginSpec(input, t, nm, c, loop))
  {
    hide ParseLoop, EvalExpr;
  }

  predicate BegunAt(w: World, s: State, t: State, r: Begun, h: BuiltHead, it: BuiltIteration) {
    match r
    case BeginFails => AtFail(w.p, s, t)
    case NoItems(c) => Spine(w.p, t, h.end) && Closing(s, t) && CoreOf(t) == c
                       && (t.frames != [] && t.frames[0].SaveF? ==> h.resync.Some?)
    case Items(limit, c) => Spine(w.p, t, it.head) && InLoop(s, t, h.resync, 0, limit) && CoreOf(t) == c
  }

  /** The state just inside the loop. */
  function Entered(s: State, nm: Name, limit: int, rk: Option<Label>): State {
    var s1 := s.(log := s.log + [OpenArray(nm, s.pos)], frames := [LoopF(0, limit, s.env)] + s.frames, k := []);
    if rk.None? then s1 else s1.(frames := [SaveF(s.env, s.pos, s.le, 0, s.depth, |s1.log|, rk)] + s1.frames)
  }

  lemma EnteredInLoop(p: Program, s: State, nm: Name, limit: int, rk: Option<Label>)
    requires Chained(p, s) && (rk.Some? ==> IsHandler(p, rk.value))
    ensures InLoop(s, Entered(s, nm, limit, rk), rk, 0, limit) && Chained(p, Entered(s, nm, limit, rk))
    ensures CoreOf(Entered(s, nm, limit, rk)) == Logged(CoreOf(s), OpenArray(nm, s.pos))
    ensures InWindow(p, s) ==> InWindow(p, Entered(s, nm, limit, rk))
    ensures Entered(s, nm, limit, rk).failed == s.failed
  {
    hide Chain;
    var e := Entered(s, nm, limit, rk);
    if rk.Some? { assert e.frames[1..] == [LoopF(0, limit, s.env)] + s.frames; }
  }

  /** `eof` arrays: push the frames, then test for the window's end. */
  lemma {:induction false} RunBeginEof(w: World, ty: Type, nm: Name, h: BuiltHead, it: BuiltIteration, out: Label, s: State, l: Label)
    returns (n: nat, t: State)
    requires ty.Array? && ty.mode.UntilEof? && ArrayAt(w, ty, h, it, out) && Spine(w.p, s, l)
    requires l < |w.p.code| && w.p.code[l] == BeginArray(nm, ty.mode, CompileExpr(ty.bound), h.end, h.resync, it.head)
    ensures Run(w.p, s, n, t) && n >= 1 && BegunAt(w, s, t, BeginSpec(w.p.input, ty, nm, CoreOf(s), LoopVar(s.frames)), h, it)
  {
    hide Run, Step, StepNode, CompileExpr, EvalExpr, Chain, HandlersOk, Unwind, InLoop, Entered, StopTest, BeginSpec;
    var e := Entered(s, nm, -1, h.resync);
    UnSpine(w.p, s, l);
    EnteredInLoop(w.p, s, nm, -1, h.resync);
    BeginEofStep(w, ty, nm, h, it, s, l, e);
    var stop := s.pos >= EffHi(w.p, s);
    n, t := 1, e.(k := [Sp(if stop then h.end else it.head)]);
    LoopAgain(s, e, t, h.resync, 0, -1);
    InLoopFacts(s, t, h.resync, 0, -1);
    RunSp(w.p, s, l, t, if stop then h.end else it.head);
  }

  lemma BeginEofStep(w: World, ty: Type, nm: Name, h: BuiltHead, it: BuiltIteration, s: State, l: Label, e: State)
    requires ty.Array? && ty.mode.UntilEof? && e == Entered(s, nm, -1, h.resync) && Chained(w.p, s)
    requires l < |w.p.code| && w.p.code[l] == BeginArray(nm, ty.mode, CompileExpr(ty.bound), h.end, h.resync, it.head)
    ensures var stop := s.pos >= EffHi(w.p, s);
            var c := Logged(CoreOf(s), OpenArray(nm, s.pos));
            && StepNode(w.p, s.(k := []), w.p.code[l]) == e.(k := [Sp(if stop then h.end else it.head)])
            && BeginSpec(w.p.input, ty, nm, CoreOf(s), LoopVar(s.frames)) == if stop then NoItems(c) else Items(-1, c)
  {
    hide StepNode, CompileExpr, Chain, HandlersOk, EvalExpr, BeginSpec, LoopVar, CtxOf, ScopeStart;
    BeginNode(w.p, s.(k := []), nm, ty.mode, CompileExpr(ty.bound), h.end, h.resync, it.head);
    CtxSame(w.p, s);
    EofSpec(w.p.input, ty, nm, CoreOf(s), LoopVar(s.frames));
  }

  lemma BeginNode(p: Program, s: State, nm: Name, mode: ArrayMode, bound: EKont, end: Label, rk: Option<Label>, next: Label)
    ensures StepNode(p, s, BeginArray(nm, mode, bound, end, rk, next)) == StepBeginArray(p, s, nm, mode, bound, end, rk, next)
  {
    hide StepBeginArray, StepArrayNext, StepEndArray, StepResync, StepOnFail;
  }

  lemma EofSpec(input: Bytes, ty: Type, nm: Name, c: Core, loop: Option<int>)
    requires ty.Array? && ty.mode.UntilEof?
    ensures var c2 := Logged(c, OpenArray(nm, c.pos));
            BeginSpec(input, ty, nm, c, loop) == if c.pos >= CoreHi(input, c) then NoItems(c2) else Items(-1, c2)
  {
    hide EvalExpr;
  }

  lemma UntilSpec(input: Bytes, ty: Type, nm: Name, c: Core, loop: Option<int>)
    requires ty.Array? && ty.mode.UntilTerm?
    ensures var c2 := Logged(c, OpenArray(nm, c.pos));
            var stop := StopTest(input, ty, -1, 0, c2);
            BeginSpec(input, ty, nm, c, loop) == if stop.None? then BeginFails else if stop.value then NoItems(c2) else Items(-1, c2)
  {
    hide StopTest;
  }

  /** `until` arrays: push the frame, then evaluate the predicate once before any element. */
  lemma {:induction false} RunBeginUntil(w: World, ty: Type, nm: Name, h: BuiltHead, it: BuiltIteration, out: Label, s: State, l: Label)
    returns (n: nat, t: State)
    requires ty.Array? && ty.mode.UntilTerm? && ArrayAt(w, ty, h, it, out) && Spine(w.p, s, l)
    requires l < |w.p.code| && w.p.code[l] == BeginArray(nm, ty.mode, CompileExpr(ty.bound), h.end, h.resync, it.head)
    ensures Run(w.p, s, n, t) && n >= 1 && BegunAt(w, s, t, BeginSpec(w.p.input, ty, nm, CoreOf(s), LoopVar(s.frames)), h, it)
  {
    hide Run, Step, StepNode, CompileExpr, EvalExpr, Chain, HandlersOk, InLoop, Truth, AtFail, CtxOf, ScopeStart, Spine, Entered,
         BeginSpec, StopTest, ArrayAt, BegunAt, LoopVar, Keeps;
    var e := Entered(s, nm, -1, None);
    UnSpine(w.p, s, l);
    NoResync(w, ty, h, it, out);
    EnteredInLoop(w.p, s, nm, -1, None);
    BeginStep(w, ty, nm, h, it, s, l, e);
    var stop;
    n, t, stop := RunStopTest(w, ty, s, s, l, e, h.end, it.head, 0, -1);
    UntilSpec(w.p.input, ty, nm, CoreOf(s), LoopVar(s.frames));
    if stop.Some? { SpineDepth(w.p, t, if stop.value then h.end else it.head); }
    BegunUntil(w, s, t, stop, Logged(CoreOf(s), OpenArray(nm, s.pos)), h, it);
  }

  lemma NoResync(w: World, ty: Type, h: BuiltHead, it: BuiltIteration, out: Label)
    requires ty.Array? && ty.mode.UntilTerm? && ArrayAt(w, ty, h, it, out)
    ensures h.resync.None?
  {
    hide CompileExpr;
  }

  lemma BegunUntil(w: World, s: State, t: State, stop: Option<bool>, c: Core, h: BuiltHead, it: BuiltIteration)
    requires h.resync.None?
    requires if stop.None? then AtFail(w.p, s, t)
             else Spine(w.p, t, if stop.value then h.end else it.head) && InLoop(s, t, None, 0, -1) && t.depth <= |t.wins| && CoreOf(t) == c
    ensures BegunAt(w, s, t, if stop.None? then BeginFails else if stop.value then NoItems(c) else Items(-1, c), h, it)
  {
    hide Spine, AtFail, InLoop, Closing;
    if stop.Some? { InLoopFacts(s, t, None, 0, -1); }
  }

  lemma SpineDepth(p: Program, t: State, l: Label)
    requires Spine(p, t, l)
    ensures t.depth <= |t.wins|
  {
    hide Chain, HandlersOk;
  }

  lemma UnSpine(p: Program, s: State, l: Label)
    requires Spine(p, s, l)
    ensures s.k == [Sp(l)] && !s.failed && Chained(p, s) && InWindow(p, s)
  {}

  lemma BeginStep(w: World, ty: Type, nm: Name, h: BuiltHead, it: BuiltIteration, s: State, l: Label, e: State)
    requires ty.Array? && ty.mode.UntilTerm? && h.resync.None? && e == Entered(s, nm, -1, None)
    requires l < |w.p.code| && w.p.code[l] == BeginArray(nm, ty.mode, CompileExpr(ty.bound), h.end, h.resync, it.head)
    ensures StepNode(w.p, s.(k := []), w.p.code[l]) == e.(k := [Dyn(UntilCheck(h.end, it.head)), Ex(CompileExpr(ty.bound))])
    ensures e.k == [] && e.depth == s.depth && e.wins == s.wins
  {
    hide StepNode, CompileExpr;
    BeginNode(w.p, s.(k := []), nm, ty.mode, CompileExpr(ty.bound), h.end, h.resync, it.head);
  }

  /** Counted arrays: evaluate the bound, then push the frames. */
  lemma {:induction false} RunBeginCounted(w: World, ty: Type, nm: Name, h: BuiltHead, it: BuiltIteration, out: Label, s: State, l: Label)
    returns (n: nat, t: State)
    requires ty.Array? && (ty.mode.FixedCount? || ty.mode.CountTerm?) && ArrayAt(w, ty, h, it, out) && Spine(w.p, s, l)
    requires l < |w.p.code| && w.p.code[l] == BeginArray(nm, ty.mode, CompileExpr(ty.bound), h.end, h.resync, it.head)
    ensures Run(w.p, s, n, t) && n >= 1 && BegunAt(w, s, t, BeginSpec(w.p.input, ty, nm, CoreOf(s), LoopVar(s.frames)), h, it)
  {
    hide Run, Step, StepNode, StepSiteDyn, EvalExpr, Chain, HandlersOk, Unwind, InLoop, Closing, Entered, BeginSpec, CompileExpr, PlainRef;
    var dk := BeginArrayLimit(nm, h.end, h.resync, it.head);
    var s1 := s.(k := [Dyn(dk), Ex(CompileExpr(ty.bound))], log := if ty.bound.Ref? then s.log + [PendingCount(ty.bound.name)] else s.log);
    BeginCountedStep(w, ty, nm, h, it, s, l, s1);
    n, t := SiteOpen(w.p, s, l, s1, dk, ty.bound);
    if EvalExpr(ty.bound, CtxOf(w.p, s1)).Some? {
      var t2 := FinishBegin(w, s, n, t, nm, h, it);
      n, t := n + 1, t2;
    }
  }

  lemma BeginCountedStep(w: World, ty: Type, nm: Name, h: BuiltHead, it: BuiltIteration, s: State, l: Label, s1: State)
    requires ty.Array? && (ty.mode.FixedCount? || ty.mode.CountTerm?) && s.depth <= |s.wins|
    requires l < |w.p.code| && w.p.code[l] == BeginArray(nm, ty.mode, CompileExpr(ty.bound), h.end, h.resync, it.head) && s.k == [Sp(l)]
    requires s1 == s.(k := [Dyn(BeginArrayLimit(nm, h.end, h.resync, it.head)), Ex(CompileExpr(ty.bound))],
                      log := if ty.bound.Ref? then s.log + [PendingCount(ty.bound.name)] else s.log)
    ensures StepNode(w.p, s.(k := []), w.p.code[l]) == s1
    ensures var v := EvalExpr(ty.bound, CtxOf(w.p, s1));
            BeginSpec(w.p.input, ty, nm, CoreOf(s), LoopVar(s.frames))
            == if v.None? || !v.value.IntV? then BeginFails
               else if v.value.i <= 0 then NoItems(Logged(CoreOf(s1), OpenArray(nm, s1.pos)))
               else Items(v.value.i, Logged(CoreOf(s1), OpenArray(nm, s1.pos)))
  {
    hide EvalExpr, Chain;
    BoundRef(ty.bound);
    hide CompileExpr, PlainRef;
    CtxSame(w.p, s1);
  }

  lemma BoundRef(e: Expr)
    ensures PlainRef(CompileExpr(e)) == if e.Ref? then Some(e.name) else None
  {}

  /** The evaluated bound: no element, or the loop with its frames pushed. */
  lemma LimitStep(p: Program, s: State, nm: Name, end: Label, rk: Option<Label>, head: Label)
    requires s.k == [] && s.depth <= |s.wins|
    ensures StepSiteDyn(p, s, BeginArrayLimit(nm, end, rk, head))
            == if !s.ac.IntV? then Fail(s)
               else if s.ac.i <= 0 then Entered(s, nm, s.ac.i, None).(k := [Sp(end)])
               else Entered(s, nm, s.ac.i, rk).(k := [Sp(head)])
  {
    hide Fail;
  }

  lemma BegunLoop(w: World, s: State, t: State, limit: int, c: Core, h: BuiltHead, it: BuiltIteration)
    requires Spine(w.p, t, if limit <= 0 then h.end else it.head) && InLoop(s, t, if limit <= 0 then None else h.resync, 0, limit)
    requires t.depth <= |t.wins| && CoreOf(t) == c
    ensures BegunAt(w, s, t, if limit <= 0 then NoItems(c) else Items(limit, c), h, it)
  {
    hide Spine, InLoop, Closing;
    InLoopFacts(s, t, if limit <= 0 then None else h.resync, 0, limit);
  }

  lemma BegunFailed(w: World, s: State, t: State, h: BuiltHead, it: BuiltIteration)
    requires AtFail(w.p, s, t)
    ensures BegunAt(w, s, t, BeginFails, h, it)
  {}

  lemma FinishBegin(w: World, s: State, n: nat, t1: State, nm: Name, h: BuiltHead, it: BuiltIteration) returns (t: State)
    requires Run(w.p, s, n, t1) && Running(t1)
    requires Step(w.p, t1) == StepSiteDyn(w.p, t1.(k := []), BeginArrayLimit(nm, h.end, h.resync, it.head))
    requires Chained(w.p, s) && InWindow(w.p, s) && !s.failed && (h.resync.Some? ==> IsHandler(w.p, h.resync.value))
    requires t1 == s.(k := t1.k, ac := t1.ac, slots := t1.slots, log := t1.log) && s.log <= t1.log
    ensures Run(w.p, s, n + 1, t)
    ensures BegunAt(w, s, t, if !t1.ac.IntV? then BeginFails
                             else if t1.ac.i <= 0 then NoItems(Logged(CoreOf(t1), OpenArray(nm, t1.pos)))
                             else Items(t1.ac.i, Logged(CoreOf(t1), OpenArray(nm, t1.pos))), h, it)
  {
    hide Run, Step, StepSiteDyn, Chain, HandlersOk, Unwind, InLoop, Falls, Lands, Entered, BegunAt, AtFail, Fail;
    var t0 := t1.(k := []);
    LimitStep(w.p, t0, nm, h.end, h.resync, it.head);
    Shifted(w.p, s, t0);
    if !t1.ac.IntV? {
      SiteFail(w.p, s, s, n, t1, t0);
      t := Fail(t0);
      BegunFailed(w, s, t, h, it);
    } else {
      var rk := if t1.ac.i <= 0 then None else h.resync;
      var e := Entered(t0, nm, t1.ac.i, rk);
      EnteredInLoop(w.p, t0, nm, t1.ac.i, rk);
      t := e.(k := [Sp(if t1.ac.i <= 0 then h.end else it.head)]);
      LoopAgain(t0, e, t, rk, 0, t1.ac.i);
      LoopFrom(s, t0, t, rk, 0, t1.ac.i);
      BegunLoop(w, s, t, t1.ac.i, CoreOf(t), h, it);
      SiteGo(w.p, s, n, t1, t, if t1.ac.i <= 0 then h.end else it.head);
    }
  }

  lemma LoopFrom(s: State, t0: State, t: State, rk: Option<Label>, i: int, limit: int)
    requires InLoop(t0, t, rk, i, limit) && Follows(s, t0) && t0.env == s.env
    ensures InLoop(s, t, rk, i, limit)
  {
    assert t.wins[..s.depth] == t.wins[..t0.depth][..s.depth];
    assert t0.wins[..t0.depth][..s.depth] == t0.wins[..s.depth];
  }
}
