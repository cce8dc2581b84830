/** The lowering of the leaf constructs refines their denotation. */
module Leaves {
  import opened Syntax
  import opened Eval
  import opened Wire
  import opened Machine
  import opened Compile
  import opened Denote
  import opened Runs
  import opened World

  lemma CtxSame(p: Program, s: State)
    requires s.depth <= |s.wins|
    ensures CtxOf(p, s) == CoreCtx(p.input, CoreOf(s), LoopVar(s.frames))
    ensures EffHi(p, s) == CoreHi(p.input, CoreOf(s)) && EffLo(s) == CoreLo(CoreOf(s))
  {}

  /** Safety of a state that differs from a spine state in K, ac, cells, env, endianness
      and the log, with the cursor still in the window. */
  lemma Shifted(p: Program, s: State, t: State)
    requires Chained(p, s)
    requires t.frames == s.frames && t.wins == s.wins && t.depth == s.depth
    requires EffLo(s) <= t.pos <= EffHi(p, s)
    ensures Chained(p, t) && InWindow(p, t)
  {
    EffHiBound(p, s);
  }

  // ── Placing a value ───────────────────────────────────────────────────

  lemma RunStoreEnv(w: World, s: State, l: Label, nm: Name, next: Label, car: Carrier) returns (t: State)
    requires Spine(w.p, s, l) && s.ac == CapV(car)
    requires l < |w.p.code| && w.p.code[l] == StoreEnv(nm, next)
    ensures Run(w.p, s, 1, t) && Spine(w.p, t, next) && Follows(s, t)
    ensures CoreOf(t) == CoreOf(s).(env := [Binding(nm, car.val)] + s.env)
  {
    hide Step, Run;
    t := s.(k := [Sp(next)], env := [Binding(nm, car.val)] + s.env);
    Shifted(w.p, s, t);
    RunSp(w.p, s, l, t, next);
  }

  lemma RunCapture(w: World, s: State, l: Label, nm: Name, next: Label, car: Carrier) returns (t: State)
    requires Spine(w.p, s, l) && s.ac == CapV(car)
    requires l < |w.p.code| && w.p.code[l] == Capture(nm, next)
    ensures Run(w.p, s, 1, t) && Spine(w.p, t, next) && Follows(s, t) && t.ac == s.ac && t.env == s.env
    ensures CoreOf(t) == Logged(CoreOf(s), FieldAt(nm, car, if car.ty.TComputed? then car.val else Null))
  {
    hide Step, Run;
    t := s.(k := [Sp(next)], log := s.log + [FieldAt(nm, car, if car.ty.TComputed? then car.val else Null)]);
    Shifted(w.p, s, t);
    RunSp(w.p, s, l, t, next);
  }

  lemma RunDest(w: World, code: seq<Node>, nm: Name, tail: Label, s: State, car: Carrier, fuel: nat)
    returns (n: nat, t: State)
    requires |w.entries| == |w.g|
    requires Holds(w, |code|, FieldDest(code, nm, tail).code)
    requires Spine(w.p, s, FieldDest(code, nm, tail).entry) && s.ac == CapV(car)
    ensures Outcome(w, s, s, tail, Ok(Place(CoreOf(s), nm, car)), fuel, n, t)
  {
    hide Step, Run, Spine;
    var b := FieldDest(code, nm, tail);
    assert b.code[|code|] == StoreEnv(nm, tail);
    if nm == "_" {
      t := RunStoreEnv(w, s, |code|, nm, tail, car);
      n := 1;
    } else {
      assert b.code[|code| + 1] == Capture(nm, |code|);
      var t1 := RunCapture(w, s, |code| + 1, nm, |code|, car);
      t := RunStoreEnv(w, t1, |code|, nm, tail, car);
      RunTrans(w.p, s, 1, t1, 1, t);
      n := 2;
    }
  }

  // ── where ─────────────────────────────────────────────────────────────

  /** Where AbortRule's walk stops, the failure falls to. */
  lemma {:induction false} AbortFalls(p: Program, fs: seq<Frame>)
    requires AbortOk(p, fs) && FindAbort(fs) < |fs|
    ensures var i := FindAbort(fs);
            Lands(p, fs[i].failTarget.value, fs[i + 1..]) && Falls(p, fs, Unwind(fs[i + 1..]))
  {
    if FindAbort(fs) == 0 {
      FallsHere(p, fs[1..]);
    } else {
      AbortFalls(p, fs[1..]);
      assert fs[1..][FindAbort(fs[1..]) + 1..] == fs[FindAbort(fs) + 1..];
    }
  }

  /** A jump that lands is a failure under way. */
  lemma JumpIs(p: Program, b: State, t: State, l: Label)
    requires Keeps(b, t) && !t.failed && t.k == [Sp(l)] && Lands(p, l, t.frames) && Falls(p, b.frames, Unwind(t.frames))
    requires Chained(p, t)
    ensures AtFail(p, b, t) && Safe(p, t)
  {
    hide Chain, Falls;
    LandsUnwind(p, l, t.frames);
    UnwindHandlers(p, t.frames);
    assert Armed(Unwind(t.frames)[0]);
  }

  /** AbortRule does what fail() does, where the fragment allows it. */
  lemma RunAbort(w: World, b: State, s: State, l: Label) returns (n: nat, t: State)
    requires s.k == [Sp(l)] && !s.failed && Chained(w.p, s) && l < |w.p.code| && w.p.code[l] == AbortRule
    requires Keeps(b, s) && s.frames == b.frames && AbortOk(w.p, s.frames)
    ensures Run(w.p, s, n, t) && AtFail(w.p, b, t)
  {
    hide Run, Chain, StepNode, Falls, Lands, AbortOk;
    HandlerStep(w.p, s, [], l);
    n, t := 1, Step(w.p, s);
    hide Step;
    var i := FindAbort(s.frames);
    assert Failing(w.p, s.k);
    if i == |s.frames| {
      FailSafe(w.p, s.(k := []));
      FailIs(w.p, b, s.(k := []));
    } else {
      AbortFalls(w.p, s.frames);
      DropHandlers(w.p, s.frames, i + 1);
      JumpIs(w.p, b, t, s.frames[i].failTarget.value);
    }
    RunOne(w.p, s);
  }

  lemma DropHandlers(p: Program, fs: seq<Frame>, i: nat)
    requires HandlersOk(p, fs) && i <= |fs|
    ensures HandlersOk(p, fs[i..])
  {}

  lemma WhereCode(w: World, code: seq<Node>, wo: Option<Expr>, r: Rho, next: Label)
    requires |w.entries| == |w.g| && Holds(w, |code|, WrapWhere(code, wo, r, next).code)
    ensures var b := WrapWhere(code, wo, r, next);
            var onFalse := if BacktrackTarget(r).Some? then BacktrackTarget(r).value else |code|;
            && (wo.None? ==> b.entry == next)
            && (wo.Some? ==> b.entry < |w.p.code| && w.p.code[b.entry] == EvalConstraint(CompileExpr(wo.value), onFalse, next))
            && (wo.Some? && BacktrackTarget(r).None? ==> onFalse < |w.p.code| && w.p.code[onFalse] == AbortRule)
  {
    hide CompileExpr;
  }

  /** A `where` refines the denotation's check; its static jump agrees with fail(). */
  lemma {:induction false} RunWhere(w: World, code: seq<Node>, wo: Option<Expr>, r: Rho, next: Label, s: State, d: Standing, fuel: nat)
    returns (n: nat, t: State)
    requires |w.entries| == |w.g|
    requires Holds(w, |code|, WrapWhere(code, wo, r, next).code)
    requires Spine(w.p, s, WrapWhere(code, wo, r, next).entry)
    requires wo.Some? ==> Sound(d)
    requires FrameOk(w.p, d, r, s.frames)
    ensures Outcome(w, s, s, next, Check(w.p.input, wo, CoreOf(s), LoopVar(s.frames)), fuel, n, t)
  {
    hide Run, Chain, CompileExpr, EvalExpr, Step, StepNode, StepSiteDyn, Safe, HandlersOk, WrapWhere, Holds, FrameOk, Falls, Lands, AbortOk, Unwind;
    WhereCode(w, code, wo, r, next);
    var b := WrapWhere(code, wo, r, next);
    SpineSafe(w.p, s, b.entry);
    if wo.None? {
      n, t := 0, s;
    } else {
      var onFalse := if BacktrackTarget(r).Some? then BacktrackTarget(r).value else |code|;
      var dk := ConstraintCheck(onFalse, next);
      var s1 := s.(k := [Dyn(dk), Ex(CompileExpr(wo.value))]);
      CtxSame(w.p, s);
      CheckSite(w.p, s.(k := []), CompileExpr(wo.value), onFalse, next);
      var n1, t1 := SiteOpen(w.p, s, b.entry, s1, dk, wo.value);
      n, t := n1, t1;
      var v := EvalExpr(wo.value, CtxOf(w.p, s1));
      if v.Some? {
        n, t := FinishWhere(w, s, n1, t1, onFalse, next, r, d);
      }
    }
  }

  /** The check consumer: on, or to the static target, or fail(). */
  lemma FinishWhere(w: World, s: State, n1: nat, t1: State, onFalse: Label, next: Label, r: Rho, d: Standing)
    returns (n: nat, t: State)
    requires Run(w.p, s, n1, t1) && Running(t1) && t1 == s.(k := t1.k, ac := t1.ac, slots := t1.slots)
    requires Step(w.p, t1) == StepSiteDyn(w.p, t1.(k := []), ConstraintCheck(onFalse, next))
    requires Chained(w.p, s) && InWindow(w.p, s)
    requires Sound(d) && FrameOk(w.p, d, r, s.frames)
    requires match BacktrackTarget(r)
             case Some(l) => l == onFalse
             case None => onFalse < |w.p.code| && w.p.code[onFalse] == AbortRule
    ensures Run(w.p, s, n, t)
    ensures if Truth(t1.ac) == Some(true) then Spine(w.p, t, next) && Follows(s, t) && CoreOf(t) == CoreOf(s)
            else AtFail(w.p, s, t)
  {
    hide Run, Chain, Step, HandlersOk;
    var t2 := Step(w.p, t1);
    n, t := n1 + 1, t2;
    Shifted(w.p, s, t1.(k := []));
    if Truth(t1.ac).None? {
      SiteFail(w.p, s, s, n1, t1, t1.(k := []));
    } else if Truth(t1.ac).value {
      Shifted(w.p, s, t2);
      SiteGo(w.p, s, n1, t1, t2, next);
    } else {
      RunJump(w, s, n1, t1, t2);
      if BacktrackTarget(r).Some? {
        FallsHere(w.p, s.frames);
        JumpIs(w.p, s, t2, onFalse);
      } else {
        var n3, t3 := RunAbort(w, s, t2, onFalse);
        RunTrans(w.p, s, n1 + 1, t2, n3, t3);
        n, t := n1 + 1 + n3, t3;
      }
    }
  }

  lemma RunJump(w: World, s: State, n1: nat, t1: State, t2: State)
    requires Run(w.p, s, n1, t1) && Running(t1) && t2 == Step(w.p, t1)
    requires Chained(w.p, s) && InWindow(w.p, s) && t2 == s.(k := t2.k, ac := t2.ac, slots := t2.slots)
    ensures Run(w.p, s, n1 + 1, t2)
  {
    hide Step;
    RunSteps(w.p, s, n1, t1);
    Shifted(w.p, s, t2);
    RunOne(w.p, t1);
    RunTrans(w.p, s, n1, t1, 1, t2);
  }

  // ── Producers ─────────────────────────────────────────────────────────

  lemma FollowsTrans(s: State, t: State, u: State)
    requires Follows(s, t) && Follows(t, u)
    ensures Follows(s, u)
  {
    assert u.wins[..s.depth] == u.wins[..t.depth][..s.depth];
    assert t.wins[..t.depth][..s.depth] == t.wins[..s.depth];
  }

  /** A produced value is stored, then checked. */
  lemma {:induction false} RunStore(w: World, code: seq<Node>, nm: Name, wo: Option<Expr>, r: Rho, next: Label,
                 b: State, s: State, car: Carrier, d: Standing, fuel: nat)
    returns (n: nat, t: State)
    requires |w.entries| == |w.g|
    requires var wh := WrapWhere(code, wo, r, next); var ds := FieldDest(wh.code, nm, wh.entry);
             Holds(w, |code|, ds.code) && Spine(w.p, s, ds.entry)
    requires s.ac == CapV(car) && Follows(b, s)
    requires wo.Some? ==> Sound(d)
    requires FrameOk(w.p, d, r, s.frames)
    ensures Outcome(w, b, s, next, Check(w.p.input, wo, Place(CoreOf(s), nm, car), LoopVar(s.frames)), fuel, n, t)
  {
    hide Run, Spine, Check, Place, FieldDest, WrapWhere, FrameOk, Holds, Follows, Keeps;
    var wh := WrapWhere(code, wo, r, next);
    var ds := FieldDest(wh.code, nm, wh.entry);
    HoldsPart(w, |code|, ds.code, |code|, wh.code);
    HoldsPart(w, |code|, ds.code, |wh.code|, ds.code);
    var n1, t1 := RunDest(w, wh.code, nm, wh.entry, s, car, fuel);
    FollowsSame(s, t1);
    var n2, t2 := RunWhere(w, code, wo, r, next, t1, d, fuel);
    FollowsTrans(b, s, t1);
    FollowsRebase(w, b, t1, t1, next, Check(w.p.input, wo, CoreOf(t1), LoopVar(t1.frames)), fuel, n2, t2);
    Prepend(w, b, s, n1, t1, next, Check(w.p.input, wo, CoreOf(t1), LoopVar(t1.frames)), fuel, n2, t2);
    n, t := n1 + n2, t2;
  }

  lemma FollowsSame(s: State, t: State)
    requires Follows(s, t)
    ensures t.frames == s.frames && s.depth <= |s.wins| && t.depth <= |t.wins|
  {}

  lemma FollowsRebase(w: World, b: State, b1: State, s: State, next: Label, r: Res, fuel: nat, n: nat, t: State)
    requires Outcome(w, b1, s, next, r, fuel, n, t) && Follows(b, b1)
    ensures Outcome(w, b, s, next, r, fuel, n, t)
  {
    hide Outcome;
    Rebase(w, b, b1, s, next, r, fuel, n, t);
  }

  // ── The code of the leaves ────────────────────────────────────────────

  lemma PrimCode(w: World, code: seq<Node>, ty: Type, r: Rho, next: Label)
    requires |w.entries| == |w.g| && ty.Prim? && Holds(w, |code|, CompileLeaf(code, ty, r, next).code)
    ensures var wh := WrapWhere(code, ty.where, r, next);
            var ds := FieldDest(wh.code, FieldName(r), wh.entry);
            && Holds(w, |code|, ds.code) && CompileLeaf(code, ty, r, next).entry == |ds.code| < |w.p.code|
            && w.p.code[|ds.code|] == MatchPrim(ty.prim, ds.entry)
  {
    hide WrapWhere, FieldDest, FieldName;
  }

  lemma ByteRunCode(w: World, code: seq<Node>, ty: Type, r: Rho, next: Label)
    requires |w.entries| == |w.g| && ty.ByteRun? && Holds(w, |code|, CompileLeaf(code, ty, r, next).code)
    ensures var wh := WrapWhere(code, ty.where, r, next);
            var ds := FieldDest(wh.code, FieldName(r), wh.entry);
            && Holds(w, |code|, ds.code) && CompileLeaf(code, ty, r, next).entry == |ds.code| < |w.p.code|
            && w.p.code[|ds.code|] == MatchBytes(CompileExpr(RunLength(ty.len)), ty.isString, ds.entry)
  {
    hide WrapWhere, FieldDest, FieldName, CompileExpr, RunLength;
  }

  lemma ComputeCode(w: World, code: seq<Node>, ty: Type, r: Rho, next: Label)
    requires |w.entries| == |w.g| && ty.Compute? && Holds(w, |code|, CompileLeaf(code, ty, r, next).code)
    ensures var ds := FieldDest(code, FieldName(r), next);
            && Holds(w, |code|, ds.code) && CompileLeaf(code, ty, r, next).entry == |ds.code| < |w.p.code|
            && w.p.code[|ds.code|] == BindCompute(CompileExpr(ty.e), ds.entry)
  {
    hide FieldDest, FieldName, CompileExpr;
  }

  lemma EndianCode(w: World, code: seq<Node>, ty: Type, r: Rho, next: Label)
    requires |w.entries| == |w.g| && ty.EndianSwitch? && Holds(w, |code|, CompileLeaf(code, ty, r, next).code)
    ensures CompileLeaf(code, ty, r, next).entry == |code| < |w.p.code|
    ensures w.p.code[|code|] == SetEndian(CompileExpr(ty.e), next)
  {
    hide CompileExpr;
  }

  lemma {:induction false} RunPrim(w: World, code: seq<Node>, ty: Type, r: Rho, next: Label, s: State, d: Standing, fuel: nat)
    returns (n: nat, t: State)
    requires |w.entries| == |w.g| && ty.Prim?
    requires Holds(w, |code|, CompileLeaf(code, ty, r, next).code) && Spine(w.p, s, CompileLeaf(code, ty, r, next).entry)
    requires Fragment(w.g, ty, d, w.dm) && FrameOk(w.p, d, r, s.frames)
    ensures Outcome(w, s, s, next, ParsePrim(w.p.input, ty.prim, ty.where, FieldName(r), CoreOf(s), LoopVar(s.frames)), fuel, n, t)
  {
    hide Run, Check, Place, ReadPrim, FieldDest, WrapWhere, FrameOk, Chain, CompileLeaf, Holds, FieldName, Step, HandlersOk;
    PrimCode(w, code, ty, r, next);
    var wh := WrapWhere(code, ty.where, r, next);
    var ds := FieldDest(wh.code, FieldName(r), wh.entry);
    var l := |ds.code|;
    EffHiBound(w.p, s);
    CtxSame(w.p, s);
    var v := ReadPrim(ty.prim, w.p.input, s.pos, EffHi(w.p, s), s.le);
    if v.None? {
      FailSp(w.p, s, l, s.(k := []));
      n, t := 1, Fail(s.(k := []));
    } else {
      var t1 := s.(k := [Sp(ds.entry)], pos := v.value.end, ac := CapV(v.value));
      Shifted(w.p, s, t1);
      RunSp(w.p, s, l, t1, ds.entry);
      var n2, t2 := RunStore(w, code, FieldName(r), ty.where, r, next, s, t1, v.value, d, fuel);
      Prepend(w, s, s, 1, t1, next, Check(w.p.input, ty.where, Place(CoreOf(t1), FieldName(r), v.value), LoopVar(s.frames)), fuel, n2, t2);
      n, t := 1 + n2, t2;
    }
  }

  lemma {:induction false} RunByteRun(w: World, code: seq<Node>, ty: Type, r: Rho, next: Label, s: State, d: Standing, fuel: nat)
    returns (n: nat, t: State)
    requires |w.entries| == |w.g| && ty.ByteRun?
    requires Holds(w, |code|, CompileLeaf(code, ty, r, next).code) && Spine(w.p, s, CompileLeaf(code, ty, r, next).entry)
    requires Fragment(w.g, ty, d, w.dm) && FrameOk(w.p, d, r, s.frames)
    ensures Outcome(w, s, s, next, ParseRun(w.p.input, ty.len, ty.isString, ty.where, FieldName(r), CoreOf(s), LoopVar(s.frames)), fuel, n, t)
  {
    hide Run, Check, Place, FieldDest, WrapWhere, FrameOk, Chain, Step, StepNode, StepSiteDyn, EvalExpr, CompileExpr, RunLength,
         CompileLeaf, Holds, FieldName, HandlersOk;
    ByteRunCode(w, code, ty, r, next);
    var wh := WrapWhere(code, ty.where, r, next);
    var ds := FieldDest(wh.code, FieldName(r), wh.entry);
    var l, e := |ds.code|, RunLength(ty.len);
    var dk := BytesApply(ty.isString, ds.entry);
    CtxSame(w.p, s);
    var s1 := s.(k := [Dyn(dk), Ex(CompileExpr(e))]);
    BytesSite(w.p, s.(k := []), CompileExpr(e), ty.isString, ds.entry);
    var n1, t1 := SiteOpen(w.p, s, l, s1, dk, e);
    n, t := n1, t1;
    if EvalExpr(e, CtxOf(w.p, s1)).Some? {
      var ok, t2 := FinishBytes(w, s, n1, t1, ty.isString, ds.entry);
      n, t := n1 + 1, t2;
      if ok {
        var n3, t3 := RunStore(w, code, FieldName(r), ty.where, r, next, s, t2, t2.ac.c, d, fuel);
        Prepend(w, s, s, n1 + 1, t2, next, Check(w.p.input, ty.where, Place(CoreOf(t2), FieldName(r), t2.ac.c), LoopVar(s.frames)), fuel, n3, t3);
        n, t := n1 + 1 + n3, t3;
      }
    }
  }

  /** A consumer that goes on, having moved no frame or window. */
  lemma SiteGoes(w: World, s: State, n1: nat, t1: State, t2: State, next: Label)
    requires Run(w.p, s, n1, t1) && Running(t1) && t1 == s.(k := t1.k, ac := t1.ac, slots := t1.slots) && Step(w.p, t1) == t2
    requires Chained(w.p, s) && !s.failed && s.log <= t2.log && EffLo(s) <= t2.pos <= EffHi(w.p, s)
    requires t2 == s.(k := [Sp(next)], ac := t2.ac, slots := t1.slots, pos := t2.pos, le := t2.le, log := t2.log)
    ensures Run(w.p, s, n1 + 1, t2) && Spine(w.p, t2, next) && Follows(s, t2)
  {
    hide Run, Chain, Step, HandlersOk;
    EffHiBound(w.p, s);
    Shifted(w.p, s, t2);
    SiteGo(w.p, s, n1, t1, t2, next);
  }

  /** A consumer that fails. */
  lemma SiteFails(w: World, s: State, n1: nat, t1: State)
    requires Run(w.p, s, n1, t1) && Running(t1) && t1 == s.(k := t1.k, ac := t1.ac, slots := t1.slots)
    requires Chained(w.p, s) && !s.failed && Step(w.p, t1) == Fail(t1.(k := []))
    ensures Run(w.p, s, n1 + 1, Fail(t1.(k := []))) && AtFail(w.p, s, Fail(t1.(k := [])))
  {
    hide Run, Chain, Step, HandlersOk, Unwind;
    SiteFail(w.p, s, s, n1, t1, t1.(k := []));
  }

  /** The byte-run consumer: the span taken, or fail(). */
  lemma FinishBytes(w: World, s: State, n1: nat, t1: State, isString: bool, next: Label) returns (ok: bool, t2: State)
    requires Run(w.p, s, n1, t1) && Running(t1) && t1 == s.(k := t1.k, ac := t1.ac, slots := t1.slots)
    requires Step(w.p, t1) == StepSiteDyn(w.p, t1.(k := []), BytesApply(isString, next))
    requires Chained(w.p, s) && InWindow(w.p, s) && !s.failed
    ensures Run(w.p, s, n1 + 1, t2)
    ensures ok <==> t1.ac.IntV? && t1.ac.i >= 0 && s.pos + t1.ac.i <= EffHi(w.p, s)
    ensures if !ok then AtFail(w.p, s, t2)
            else Spine(w.p, t2, next) && Follows(s, t2)
                 && t2.ac == CapV(Carrier(s.pos, s.pos + t1.ac.i, if isString then TString else TBytes, Null, Plain))
                 && CoreOf(t2) == CoreOf(s).(pos := s.pos + t1.ac.i)
  {
    hide Run, Chain, Step, HandlersOk;
    EffHiBound(w.p, s);
    ok := t1.ac.IntV? && t1.ac.i >= 0 && s.pos + t1.ac.i <= EffHi(w.p, s);
    t2 := Step(w.p, t1);
    if ok {
      Shifted(w.p, s, t2);
      SiteGo(w.p, s, n1, t1, t2, next);
    } else {
      SiteFail(w.p, s, s, n1, t1, t1.(k := []));
    }
  }

  lemma {:induction false} RunCompute(w: World, code: seq<Node>, ty: Type, r: Rho, next: Label, s: State, fuel: nat)
    returns (n: nat, t: State)
    requires |w.entries| == |w.g| && ty.Compute?
    requires Holds(w, |code|, CompileLeaf(code, ty, r, next).code) && Spine(w.p, s, CompileLeaf(code, ty, r, next).entry)
    ensures Outcome(w, s, s, next, ParseCompute(w.p.input, ty.e, FieldName(r), CoreOf(s), LoopVar(s.frames)), fuel, n, t)
  {
    hide Run, Place, FieldDest, Chain, Step, StepNode, EvalExpr, CompileExpr, CompileLeaf, Holds, FieldName, HandlersOk, AtFail, Unwind, Fail;
    ComputeCode(w, code, ty, r, next);
    var ds := FieldDest(code, FieldName(r), next);
    var l := |ds.code|;
    var dk := BindStore(ds.entry);
    CtxSame(w.p, s);
    var s1 := s.(k := [Dyn(dk), Ex(CompileExpr(ty.e))]);
    BindSite(w.p, s.(k := []), CompileExpr(ty.e), ds.entry);
    var n1, t1 := SiteOpen(w.p, s, l, s1, dk, ty.e);
    n, t := n1, t1;
    if EvalExpr(ty.e, CtxOf(w.p, s1)).Some? {
      if t1.ac == Null {
        SiteFails(w, s, n1, t1);
        n, t := n1 + 1, Fail(t1.(k := []));
      } else {
        var car := Carrier(s.pos, s.pos, TComputed, Lower(t1.ac), Plain);
        var t2 := t1.(k := [Sp(ds.entry)], ac := CapV(car));
        SiteGoes(w, s, n1, t1, t2, ds.entry);
        var n3, t3 := RunDest(w, code, FieldName(r), next, t2, car, fuel);
        FollowsRebase(w, s, t2, t2, next, Ok(Place(CoreOf(t2), FieldName(r), car)), fuel, n3, t3);
        Prepend(w, s, s, n1 + 1, t2, next, Ok(Place(CoreOf(t2), FieldName(r), car)), fuel, n3, t3);
        n, t := n1 + 1 + n3, t3;
      }
    }
  }

  lemma {:induction false} RunEndian(w: World, code: seq<Node>, ty: Type, r: Rho, next: Label, s: State, fuel: nat)
    returns (n: nat, t: State)
    requires |w.entries| == |w.g| && ty.EndianSwitch?
    requires Holds(w, |code|, CompileLeaf(code, ty, r, next).code) && Spine(w.p, s, CompileLeaf(code, ty, r, next).entry)
    ensures Outcome(w, s, s, next, ParseEndian(w.p.input, ty.e, CoreOf(s), LoopVar(s.frames)), fuel, n, t)
  {
    hide Run, Chain, Step, StepNode, EvalExpr, CompileExpr, CompileLeaf, Holds, HandlersOk, AtFail, Unwind, Fail;
    EndianCode(w, code, ty, r, next);
    var dk := SetEndianApply(next);
    CtxSame(w.p, s);
    var s1 := s.(k := [Dyn(dk), Ex(CompileExpr(ty.e))]);
    EndianSite(w.p, s.(k := []), CompileExpr(ty.e), next);
    var n1, t1 := SiteOpen(w.p, s, |code|, s1, dk, ty.e);
    n, t := n1, t1;
    if EvalExpr(ty.e, CtxOf(w.p, s1)).Some? {
      if Truth(t1.ac).None? {
        SiteFails(w, s, n1, t1);
        n, t := n1 + 1, Fail(t1.(k := []));
      } else {
        var t2 := t1.(k := [Sp(next)], le := Truth(t1.ac).value);
        SiteGoes(w, s, n1, t1, t2, next);
        n, t := n1 + 1, t2;
      }
    }
  }
}
