/** Runs of the machine: finite step sequences through states that are all window-safe. */
module Runs {
  import opened Syntax
  import opened Eval
  import opened Machine

  // ── Window safety of one state ────────────────────────────────────────

  predicate Inside(w: Win, ws: seq<Win>, n: nat) {
    w.lo <= w.hi
    && if ws == [] then w.hi <= n else ws[|ws| - 1].lo <= w.lo && w.hi <= ws[|ws| - 1].hi
  }

  /** Each window lies inside the one below it, and all inside the input. */
  predicate Chain(ws: seq<Win>, n: nat) {
    ws == [] || (Chain(ws[..|ws| - 1], n) && Inside(ws[|ws| - 1], ws[..|ws| - 1], n))
  }

  predicate IsHandler(p: Program, l: Label) {
    l < |p.code| && (p.code[l].OnFail? || p.code[l].Resync? || p.code[l].AbortRule?)
  }

  /** A pending absolute window push: the interval's end expression is still to be used. */
  predicate AbsPush(p: Program, k: Kont) {
    (k.Dyn? && k.d.PushApply? && !k.d.relative)
    || (k.Sp? && k.l < |p.code| && p.code[k.l].PushInterval? && !p.code[k.l].relative)
  }

  predicate Seeking(p: Program, k: seq<Kont>) { k != [] && AbsPush(p, k[0]) }

  predicate Failing(p: Program, k: seq<Kont>) {
    k != [] && k[|k| - 1].Sp? && IsHandler(p, k[|k| - 1].l)
  }

  predicate InWindow(p: Program, s: State) { EffLo(s) <= s.pos <= EffHi(p, s) }

  predicate HandlersOk(p: Program, fs: seq<Frame>) {
    forall i :: 0 <= i < |fs| && Armed(fs[i]) ==> IsHandler(p, fs[i].onFail.value)
  }

  /** The live windows form a chain inside the input and every armed savepoint names a
      failure handler. */
  predicate Chained(p: Program, s: State) {
    s.depth <= |s.wins| && Chain(s.wins[..s.depth], |p.input|) && s.pos <= |p.input| && HandlersOk(p, s.frames)
  }

  /** The cursor is in the innermost window, unless the parse has failed, a failure handler
      is about to run, or an interval's end is being evaluated after its seek. */
  predicate Safe(p: Program, s: State) {
    Chained(p, s) && (s.failed || Failing(p, s.k) || Seeking(p, s.k) || InWindow(p, s))
  }

  /** Safety that survives while an expression runs above K0. */
  predicate SafeAbove(p: Program, s: State, k0: seq<Kont>) {
    Chained(p, s) && (InWindow(p, s) || Seeking(p, k0))
  }

  lemma {:induction false} ChainTop(ws: seq<Win>, n: nat)
    requires Chain(ws, n)
    ensures ws != [] ==> ws[|ws| - 1].lo <= ws[|ws| - 1].hi <= n
  {
    if ws != [] { ChainTop(ws[..|ws| - 1], n); }
  }

  lemma ChainPush(ws: seq<Win>, w: Win, n: nat)
    requires Chain(ws, n) && Inside(w, ws, n)
    ensures Chain(ws + [w], n)
  {
    assert (ws + [w])[..|ws|] == ws;
  }

  lemma EffHiBound(p: Program, s: State)
    requires Chained(p, s)
    ensures EffHi(p, s) <= |p.input|
    ensures EffLo(s) <= EffHi(p, s)
  {
    ChainTop(s.wins[..s.depth], |p.input|);
  }

  // ── Runs ──────────────────────────────────────────────────────────────

  /** n real steps lead from s to t, through safe states only. */
  ghost predicate Run(p: Program, s: State, n: nat, t: State)
    decreases n
  {
    Safe(p, s) && if n == 0 then s == t else Running(s) && Run(p, Step(p, s), n - 1, t)
  }

  lemma {:induction false} RunTrans(p: Program, s: State, n: nat, t: State, m: nat, u: State)
    requires Run(p, s, n, t) && Run(p, t, m, u)
    ensures Run(p, s, n + m, u)
    decreases n
  {
    hide Step, Safe;
    if n > 0 { RunTrans(p, Step(p, s), n - 1, t, m, u); }
  }

  lemma RunOne(p: Program, s: State)
    requires Running(s) && Safe(p, s) && Safe(p, Step(p, s))
    ensures Run(p, s, 1, Step(p, s))
  {
    assert Run(p, Step(p, s), 0, Step(p, s));
  }

  lemma {:induction false} RunSteps(p: Program, s: State, n: nat, t: State)
    requires Run(p, s, n, t)
    ensures Steps(p, s, n) == t && Safe(p, t)
    decreases n
  {
    hide Step, Safe;
    if n > 0 { RunSteps(p, Step(p, s), n - 1, t); }
  }

  /** Every state a run passes through is safe. */
  lemma {:induction false} RunSafe(p: Program, s: State, n: nat, t: State, i: nat)
    requires Run(p, s, n, t) && i <= n
    ensures Safe(p, Steps(p, s, i))
    decreases n
  {
    hide Step, Safe;
    if i > 0 { RunSafe(p, Step(p, s), n - 1, t, i - 1); }
  }

  lemma Popped(p: Program, s: State, k0: seq<Kont>, k: Kont)
    requires s.k == k0 + [k] && !s.failed
    ensures Running(s) && Step(p, s) == Invoke(p, s.(k := k0), k)
  {
    assert s.k[..|s.k| - 1] == k0;
  }

  /** One spine step, from a kont in the program. */
  lemma StepSp(p: Program, s: State, l: Label)
    requires s.k == [Sp(l)] && !s.failed && l < |p.code|
    ensures Running(s) && Step(p, s) == StepNode(p, s.(k := []), p.code[l])
  {
    hide StepNode, StepEx, StepExprDyn, StepSiteDyn;
    Popped(p, s, [], Sp(l));
  }

  // The nodes that evaluate an expression for a consumer.

  lemma SeekSite(p: Program, s: State, e: EKont, next: Label)
    ensures StepNode(p, s, Seek(e, next)) == s.(k := s.k + [Dyn(SeekApply(next)), Ex(e)])
  {
    hide StepArrayNext, StepBeginArray, StepEndArray, StepResync, StepOnFail;
  }

  lemma CheckSite(p: Program, s: State, e: EKont, onFalse: Label, next: Label)
    ensures StepNode(p, s, EvalConstraint(e, onFalse, next)) == s.(k := s.k + [Dyn(ConstraintCheck(onFalse, next)), Ex(e)])
  {
    hide StepArrayNext, StepBeginArray, StepEndArray, StepResync, StepOnFail;
  }

  lemma BindSite(p: Program, s: State, e: EKont, next: Label)
    ensures StepNode(p, s, BindCompute(e, next)) == s.(k := s.k + [Dyn(BindStore(next)), Ex(e)])
  {
    hide StepArrayNext, StepBeginArray, StepEndArray, StepResync, StepOnFail;
  }

  lemma EndianSite(p: Program, s: State, e: EKont, next: Label)
    ensures StepNode(p, s, SetEndian(e, next)) == s.(k := s.k + [Dyn(SetEndianApply(next)), Ex(e)])
  {
    hide StepArrayNext, StepBeginArray, StepEndArray, StepResync, StepOnFail;
  }

  lemma BytesSite(p: Program, s: State, e: EKont, isString: bool, next: Label)
    ensures StepNode(p, s, MatchBytes(e, isString, next)) == s.(k := s.k + [Dyn(BytesApply(isString, next)), Ex(e)])
  {
    hide StepArrayNext, StepBeginArray, StepEndArray, StepResync, StepOnFail;
  }

  lemma SwitchSite(p: Program, s: State, e: EKont, cases: seq<SwitchCase>, dflt: Option<Label>)
    ensures StepNode(p, s, SwitchDispatch(e, cases, dflt)) == s.(k := s.k + [Dyn(SwitchSelect(cases, dflt)), Ex(e)])
  {
    hide StepArrayNext, StepBeginArray, StepEndArray, StepResync, StepOnFail;
  }

  lemma PushSite(p: Program, s: State, rel: bool, e: EKont, next: Label)
    ensures var s1 := if rel && e.RefK? then Machine.Note(s, DeterminesRest(e.name)) else s;
            StepNode(p, s, PushInterval(rel, e, next)) == s1.(k := s1.k + [Dyn(PushApply(rel, next)), Ex(e)])
  {
    hide StepArrayNext, StepBeginArray, StepEndArray, StepResync, StepOnFail;
  }

  /** A failure handler on top of K. */
  lemma HandlerStep(p: Program, s: State, k0: seq<Kont>, l: Label)
    requires s.k == k0 + [Sp(l)] && !s.failed && l < |p.code|
    ensures Running(s)
    ensures p.code[l].OnFail? ==> Step(p, s) == StepOnFail(s.(k := k0), p.code[l].target, p.code[l].nextOnFail, p.code[l].pop)
    ensures p.code[l].Resync? ==> Step(p, s) == StepResync(p, s.(k := k0), p.code[l].body, p.code[l].endNode)
    ensures p.code[l].AbortRule? ==>
              var i := FindAbort(s.frames);
              Step(p, s) == if i == |s.frames| then Fail(s.(k := k0))
                            else Go(s.(k := k0, frames := s.frames[i + 1..]), s.frames[i].failTarget.value)
  {
    hide StepEx, StepExprDyn, StepSiteDyn, StepOnFail, StepResync, StepBeginArray, StepArrayNext, StepEndArray;
    Popped(p, s, k0, Sp(l));
    hide Step;
  }

  lemma {:induction false} StepsAdd(p: Program, s: State, n: nat, m: nat)
    ensures Steps(p, s, n + m) == Steps(p, Steps(p, s, n), m)
    decreases n
  {
    hide Step;
    if n > 0 { StepsAdd(p, Step(p, s), n - 1, m); }
  }

  // ── fail() ────────────────────────────────────────────────────────────

  lemma {:induction false} UnwindHandlers(p: Program, fs: seq<Frame>)
    requires HandlersOk(p, fs)
    ensures HandlersOk(p, Unwind(fs))
  {
    if fs != [] && !Armed(fs[0]) {
      assert HandlersOk(p, fs[1..]);
      UnwindHandlers(p, fs[1..]);
    }
  }

  lemma FailSafe(p: Program, s: State)
    requires Chained(p, s) && !s.failed
    ensures Safe(p, Fail(s))
  {
    UnwindHandlers(p, s.frames);
    var r := Unwind(s.frames);
    if r != [] { assert Armed(r[0]); }
  }
}
