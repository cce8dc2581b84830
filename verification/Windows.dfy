/** Opening and closing byte windows on the machine refines the window stack of the
    denotation; the backing store below a construct's own windows is never touched. */
module Windows {
  import opened Syntax
  import opened Eval
  import opened Wire
  import opened Machine
  import opened Compile
  import opened Denote
  import opened Runs
  import opened World
  import opened Leaves

  /** The push consumer: the new window narrows the active one, or fail(). */
  lemma FinishPush(w: World, b: State, s: State, n1: nat, t1: State, rel: bool, next: Label) returns (r: Res, t2: State)
    requires Run(w.p, s, n1, t1) && Running(t1)
    requires Step(w.p, t1) == StepSiteDyn(w.p, t1.(k := []), PushApply(rel, next))
    requires Chained(w.p, t1) && Follows(b, t1)
    ensures Run(w.p, s, n1 + 1, t2)
    ensures r == if !t1.ac.IntV? then Failed
                 else OpenWindow(w.p.input, CoreOf(t1), if rel then t1.pos + NonNeg(t1.ac.i) else NonNeg(t1.ac.i))
    ensures if r.Ok? then Spine(w.p, t2, next) && Follows(b, t2) && CoreOf(t2) == r.c && t2.depth == t1.depth + 1
            else AtFail(w.p, b, t2)
  {
    hide Run, Chain, Step, HandlersOk, Unwind;
    t2 := Step(w.p, t1);
    r := if !t1.ac.IntV? then Failed
         else OpenWindow(w.p.input, CoreOf(t1), if rel then t1.pos + NonNeg(t1.ac.i) else NonNeg(t1.ac.i));
    if r.Ok? {
      var win := Win(t1.pos, if rel then t1.pos + NonNeg(t1.ac.i) else NonNeg(t1.ac.i));
      PushedWindow(w, b, t1, win, t2, next);
      SiteGo(w.p, s, n1, t1, t2, next);
    } else {
      SiteFail(w.p, b, s, n1, t1, t1.(k := []));
    }
  }

  lemma PushedWindow(w: World, b: State, t1: State, win: Win, t2: State, next: Label)
    requires Chained(w.p, t1) && Follows(b, t1)
    requires win.lo == t1.pos <= win.hi && EffLo(t1) <= t1.pos && win.hi <= EffHi(w.p, t1)
    requires t2 == t1.(k := [Sp(next)], depth := t1.depth + 1,
                       wins := if t1.depth == |t1.wins| then t1.wins + [win] else t1.wins[t1.depth := win])
    requires !t1.failed
    ensures Spine(w.p, t2, next) && Follows(b, t2) && t2.wins[..t2.depth] == t1.wins[..t1.depth] + [win]
  {
    hide HandlersOk;
    assert t2.wins[..t2.depth] == t1.wins[..t1.depth] + [win];
    ChainPush(t1.wins[..t1.depth], win, |w.p.input|);
    assert t2.wins[..b.depth] == t1.wins[..b.depth];
  }

  lemma PlainRefIff(e: Expr)
    ensures PlainRef(CompileExpr(e)) == if e.Ref? then Some(e.name) else None
  {}

  /** The core a relative push is evaluated in: a plain reference is noted first. */
  function Noted(c: Core, e: Expr): Core { if e.Ref? then Logged(c, DeterminesRest(e.name)) else c }

  lemma {:induction false} EnterPushRel(w: World, s: State, l: Label, e: Expr, next: Label) returns (n: nat, t: State)
    requires Spine(w.p, s, l) && l < |w.p.code| && w.p.code[l] == PushInterval(true, CompileExpr(e), next)
    ensures Run(w.p, s, n, t)
    ensures match ValueOf(w.p.input, e, Noted(CoreOf(s), e), LoopVar(s.frames))
            case None => AtFail(w.p, s, t)
            case Some(v) => Running(t) && Step(w.p, t) == StepSiteDyn(w.p, t.(k := []), PushApply(true, next))
                            && Chained(w.p, t) && Follows(s, t) && CoreOf(t) == Noted(CoreOf(s), e) && t.ac == v
                            && t.depth == s.depth
  {
    hide Run, Chain, Step, StepNode, EvalExpr, HandlersOk, Unwind;
    var dk := PushApply(true, next);
    PushSite(w.p, s.(k := []), true, CompileExpr(e), next);
    var s1 := s.(k := [Dyn(dk), Ex(CompileExpr(e))], log := Noted(CoreOf(s), e).log);
    PlainRefIff(e);
    hide CompileExpr, PlainRef;
    CtxSame(w.p, s1);
    assert CoreOf(s1) == Noted(CoreOf(s), e);
    n, t := SiteOpen(w.p, s, l, s1, dk, e);
    if EvalExpr(e, CtxOf(w.p, s1)).Some? { Shifted(w.p, s, t); }
  }

  lemma {:induction false} RunPushRel(w: World, s: State, l: Label, e: Expr, next: Label, fuel: nat) returns (n: nat, t: State)
    requires Spine(w.p, s, l) && l < |w.p.code| && w.p.code[l] == PushInterval(true, CompileExpr(e), next)
    ensures var r := OpenRelative(w.p.input, CoreOf(s), e, LoopVar(s.frames));
            Outcome(w, s, s, next, r, fuel, n, t) && (r.Ok? ==> t.depth == s.depth + 1)
  {
    hide Run, Chained, Step, StepSiteDyn, EvalExpr, Unwind, CompileExpr;
    n, t := EnterPushRel(w, s, l, e, next);
    if ValueOf(w.p.input, e, Noted(CoreOf(s), e), LoopVar(s.frames)).Some? {
      var r, t2 := FinishPush(w, s, s, n, t, true, next);
      n, t := n + 1, t2;
    }
  }

  /** An absolute push after a seek: the cursor may be outside the active window meanwhile. */
  lemma {:induction false} RunPushAbs(w: World, b: State, s: State, l: Label, e: Expr, next: Label, fuel: nat) returns (n: nat, t: State)
    requires s.k == [Sp(l)] && !s.failed && Chained(w.p, s) && Follows(b, s)
    requires l < |w.p.code| && w.p.code[l] == PushInterval(false, CompileExpr(e), next)
    ensures var v := ValueOf(w.p.input, e, CoreOf(s), LoopVar(s.frames));
            var r := if v.None? || !v.value.IntV? then Failed else OpenWindow(w.p.input, CoreOf(s), NonNeg(v.value.i));
            Outcome(w, b, s, next, r, fuel, n, t) && (r.Ok? ==> t.depth == s.depth + 1)
  {
    hide Run, Chain, Step, StepNode, StepSiteDyn, EvalExpr, HandlersOk, Unwind, Falls, Lands;
    var dk := PushApply(false, next);
    var s1 := s.(k := [Dyn(dk), Ex(CompileExpr(e))]);
    CtxSame(w.p, s1);
    StepSp(w.p, s, l);
    PushSite(w.p, s.(k := []), false, CompileExpr(e), next);
    assert s1 == Step(w.p, s);
    assert Seeking(w.p, s.k) && Seeking(w.p, s1.k) && Seeking(w.p, [Dyn(dk)]);
    RunOne(w.p, s);
    var n1, t1 := RunSite(w.p, s1, dk, e);
    RunTrans(w.p, s, 1, s1, n1, t1);
    n, t := 1 + n1, t1;
    if EvalExpr(e, CtxOf(w.p, s1)).Some? {
      var r, t2 := FinishPush(w, b, s, 1 + n1, t1, false, next);
      n, t := n1 + 2, t2;
    } else {
      FailRebase(w.p, b, s1, t1);
    }
  }

  lemma FailRebase(p: Program, b: State, s: State, t: State)
    requires AtFail(p, s, t) && Follows(b, s)
    ensures AtFail(p, b, t)
  {
    hide Unwind;
    assert t.wins[..b.depth] == t.wins[..s.depth][..b.depth];
    assert s.wins[..s.depth][..b.depth] == s.wins[..b.depth];
  }

  /** Seek to an evaluated offset. */
  lemma {:induction false} RunSeek(w: World, s: State, l: Label, e: Expr, next: Label) returns (n: nat, t: State)
    requires Spine(w.p, s, l) && l < |w.p.code| && w.p.code[l] == Seek(CompileExpr(e), next)
    requires AbsPush(w.p, Sp(next))
    ensures Run(w.p, s, n, t)
    ensures var v := ValueOf(w.p.input, e, CoreOf(s), LoopVar(s.frames));
            if v.None? || !v.value.IntV? || v.value.i < 0 || v.value.i > |w.p.input| then AtFail(w.p, s, t)
            else t.k == [Sp(next)] && !t.failed && Chained(w.p, t) && Follows(s, t) && t.depth == s.depth
                 && CoreOf(t) == CoreOf(s).(pos := v.value.i)
  {
    hide Run, Chain, Step, StepNode, EvalExpr, CompileExpr, HandlersOk, Unwind;
    var dk := SeekApply(next);
    var s1 := s.(k := [Dyn(dk), Ex(CompileExpr(e))]);
    CtxSame(w.p, s1);
    SeekSite(w.p, s.(k := []), CompileExpr(e), next);
    var n1, t1 := SiteOpen(w.p, s, l, s1, dk, e);
    n, t := n1, t1;
    if EvalExpr(e, CtxOf(w.p, s1)).Some? {
      n, t := n1 + 1, Step(w.p, t1);
      if !t1.ac.IntV? || t1.ac.i < 0 || t1.ac.i > |w.p.input| {
        SiteFail(w.p, s, s, n1, t1, t1.(k := []));
      } else {
        SoughtRun(w, s, n1, t1, t, next);
      }
    }
  }

  lemma SoughtRun(w: World, s: State, n1: nat, t1: State, t: State, next: Label)
    requires Run(w.p, s, n1, t1) && Running(t1) && t == Step(w.p, t1)
    requires t.k == [Sp(next)] && AbsPush(w.p, Sp(next)) && Chained(w.p, t)
    ensures Run(w.p, s, n1 + 1, t)
  {
    hide Step, Chain;
    RunSteps(w.p, s, n1, t1);
    RunOne(w.p, t1);
    RunTrans(w.p, s, n1, t1, 1, t);
  }

  /** An interval entry refines opening the interval; it adds exactly one window. */
  lemma {:induction false} RunInterval(w: World, code: seq<Node>, iv: Interval, body: Label, s: State, fuel: nat)
    returns (n: nat, t: State)
    requires |w.entries| == |w.g|
    requires Holds(w, |code|, IntervalEntry(code, iv, body).code) && Spine(w.p, s, IntervalEntry(code, iv, body).entry)
    ensures var r := OpenInterval(w.p.input, CoreOf(s), iv, LoopVar(s.frames));
            Outcome(w, s, s, body, r, fuel, n, t) && (r.Ok? ==> t.depth == s.depth + 1)
  {
    hide Run, Chain, EvalExpr, CompileExpr, Step, HandlersOk, Unwind, OpenRelative, OpenWindow;
    match iv
    case Length(len) => n, t := RunPushRel(w, s, |code|, len, body, fuel);
    case StartEnd(st, en) =>
      assert w.p.code[|code|] == PushInterval(false, CompileExpr(en), body);
      assert w.p.code[|code| + 1] == Seek(CompileExpr(st), |code|);
      var n1, t1 := RunSeek(w, s, |code| + 1, st, |code|);
      n, t := n1, t1;
      var v := ValueOf(w.p.input, st, CoreOf(s), LoopVar(s.frames));
      if v.Some? && v.value.IntV? && 0 <= v.value.i <= |w.p.input| {
        var n2, t2 := RunPushAbs(w, s, t1, |code|, en, body, fuel);
        RunTrans(w.p, s, n1, t1, n2, t2);
        n, t := n1 + n2, t2;
      }
  }

  /** Closing the window a construct opened leaves the ones below it as they were. */
  lemma RunPop(w: World, b: State, s: State, l: Label, checked: bool, next: Label, fuel: nat) returns (n: nat, t: State)
    requires Spine(w.p, s, l) && l < |w.p.code| && w.p.code[l] == PopInterval(checked, next)
    requires Follows(b, s) && b.depth < s.depth
    ensures var r := CloseWindow(w.p.input, CoreOf(s), checked);
            Outcome(w, b, s, next, r, fuel, n, t) && (r.Ok? ==> t.depth == s.depth - 1)
  {
    hide Run, Step, HandlersOk, Unwind, Falls, Lands;
    CtxSame(w.p, s);
    if checked && s.pos != EffHi(w.p, s) {
      FailSp(w.p, s, l, s.(k := []));
      n, t := 1, Fail(s.(k := []));
      FailIs(w.p, b, s.(k := []));
    } else {
      var top := s.wins[..s.depth];
      assert top[..s.depth - 1] == s.wins[..s.depth - 1];
      n, t := 1, s.(k := [Sp(next)], depth := s.depth - 1);
      ChainTop(t.wins[..t.depth], |w.p.input|);
      RunSp(w.p, s, l, t, next);
    }
  }
}
