/** Savepoints: entering a try, committing it, and what a failure handler restores. */
module Attempts {
  import opened Syntax
  import opened Eval
  import opened Machine
  import opened Compile
  import opened Denote
  import opened Runs
  import opened World

  // ── Savepoints ────────────────────────────────────────────────────────

  /** f was taken in a state with s's observable part and an empty K. */
  predicate Saves(f: Frame, s: State) {
    f.SaveF? && f == SaveF(s.env, s.pos, s.le, 0, s.depth, |s.log|, f.onFail)
  }

  /** A failure handler restores exactly the state its savepoint was taken in. */
  lemma RunHandler(w: World, s1: State, t1: State, l: Label, target: Label, nextOnFail: Option<Label>, pop: bool)
    returns (t: State)
    requires s1.frames != [] && Saves(s1.frames[0], s1) && s1.frames[0].onFail == Some(l)
    requires AtFail(w.p, s1, t1) && Safe(w.p, t1) && Chained(w.p, s1) && InWindow(w.p, s1) && !s1.failed
    requires l < |w.p.code| && w.p.code[l] == OnFail(Some(target), nextOnFail, pop)
    requires nextOnFail.Some? ==> IsHandler(w.p, nextOnFail.value)
    ensures Run(w.p, t1, 1, t) && Spine(w.p, t, target) && CoreOf(t) == CoreOf(s1)
    ensures Keeps(s1, t) && t.depth == s1.depth
    ensures t.frames == if pop then s1.frames[1..] else [s1.frames[0].(onFail := nextOnFail)] + s1.frames[1..]
  {
    hide Run, Chain, Step, StepNode, HandlersOk;
    var f := s1.frames[0];
    t := Step(w.p, t1);
    HandlerRestores(w.p, s1, t1, l, target, nextOnFail, pop);
    if !pop { HandlersTop(w.p, s1.frames, f.(onFail := nextOnFail)); } else { HandlersTail(w.p, s1.frames); }
    RunOne(w.p, t1);
  }

  lemma HandlersTop(p: Program, fs: seq<Frame>, f: Frame)
    requires HandlersOk(p, fs) && fs != [] && f.SaveF? && (f.onFail.Some? ==> IsHandler(p, f.onFail.value))
    ensures HandlersOk(p, [f] + fs[1..])
  {}

  lemma HandlersTail(p: Program, fs: seq<Frame>)
    requires HandlersOk(p, fs) && fs != []
    ensures HandlersOk(p, fs[1..])
  {}

  /** The handler's one step, from the failure's state: back to the savepoint, then on. */
  lemma HandlerRestores(p: Program, s1: State, t1: State, l: Label, target: Label, nextOnFail: Option<Label>, pop: bool)
    requires s1.frames != [] && Saves(s1.frames[0], s1) && s1.frames[0].onFail == Some(l)
    requires AtFail(p, s1, t1) && s1.depth <= |s1.wins| && !s1.failed
    requires l < |p.code| && p.code[l] == OnFail(Some(target), nextOnFail, pop)
    ensures var t := Step(p, t1);
            t == s1.(k := [Sp(target)], ac := t.ac, slots := t.slots, wins := t1.wins, best := t.best,
                     frames := if pop then s1.frames[1..] else [s1.frames[0].(onFail := nextOnFail)] + s1.frames[1..])
  {
    hide Step, StepNode, Lands, Falls, Unwind;
    var f := s1.frames[0];
    AtTop(p, s1, t1, l);
    if !pop { assert t1.frames[0 := f.(onFail := nextOnFail)] == [f.(onFail := nextOnFail)] + s1.frames[1..]; }
    assert t1.frames[FindSave(t1.frames)..][0] == f;
    assert t1.k[..0] == [];
    assert t1.log[..|s1.log|] == s1.log;
    assert t1.k == t1.k[..|t1.k| - 1] + [Sp(l)];
    HandlerStep(p, t1, t1.k[..|t1.k| - 1], l);
  }

  /** A failure in the last arm is one of the whole choice: the exhausted link drops the
      savepoint and fails outward, if the failure has not passed it already. */
  lemma RunExhausted(w: World, b: State, s1: State, t1: State, l: Label, nextOnFail: Option<Label>, pop: bool) returns (n: nat, t: State)
    requires s1.frames != [] && Saves(s1.frames[0], s1) && s1.frames[0].onFail == Some(l)
    requires AtFail(w.p, s1, t1) && Safe(w.p, t1) && Chained(w.p, s1) && InWindow(w.p, s1) && !s1.failed
    requires l < |w.p.code| && w.p.code[l] == OnFail(None, nextOnFail, pop)
    requires Keeps(b, s1) && b.depth <= s1.depth && b.frames == s1.frames[1..]
    ensures Run(w.p, t1, n, t) && AtFail(w.p, b, t)
  {
    hide Run, Chain, Step, StepNode, HandlersOk;
    assert t1.wins[..b.depth] == t1.wins[..s1.depth][..b.depth];
    assert s1.wins[..s1.depth][..b.depth] == s1.wins[..b.depth];
    n, t := 0, t1;
    if Unwind(t1.frames) == s1.frames {
      n, t := 1, Step(w.p, t1);
      LandsUnwind(w.p, l, t1.frames);
      ExhaustedStep(w, b, s1, t1, l, nextOnFail, pop);
      RunOne(w.p, t1);
    } else {
      assert Run(w.p, t1, 0, t1) by { RunNone(w.p, t1); }
    }
  }

  lemma RunNone(p: Program, s: State)
    requires Safe(p, s)
    ensures Run(p, s, 0, s)
  {
    hide Safe;
  }

  lemma ExhaustedStep(w: World, b: State, s1: State, t1: State, l: Label, nextOnFail: Option<Label>, pop: bool)
    requires s1.frames != [] && Saves(s1.frames[0], s1) && s1.frames[0].onFail == Some(l)
    requires t1.frames == s1.frames && !t1.failed && t1.k != [] && t1.k[|t1.k| - 1] == Sp(l) && Keeps(s1, t1)
    requires Chained(w.p, s1) && InWindow(w.p, s1) && !s1.failed
    requires l < |w.p.code| && w.p.code[l] == OnFail(None, nextOnFail, pop)
    requires Keeps(b, s1) && Keeps(b, t1) && b.frames == s1.frames[1..]
    ensures Safe(w.p, Step(w.p, t1)) && AtFail(w.p, b, Step(w.p, t1)) && Running(t1)
  {
    hide Chain, Step, StepNode, Falls, Lands;
    assert FindSave(t1.frames) == 0 && t1.frames[0 + 1..] == s1.frames[1..];
    assert t1.k[..0] == [];
    assert t1.log[..|s1.log|] == s1.log;
    assert t1.k == t1.k[..|t1.k| - 1] + [Sp(l)];
    HandlerStep(w.p, t1, t1.k[..|t1.k| - 1], l);
    var x := s1.(k := [], ac := t1.ac, slots := t1.slots, wins := t1.wins, best := t1.best, frames := s1.frames[1..]);
    assert Step(w.p, t1) == Fail(x);
    FailSafe(w.p, x);
    FailIs(w.p, b, x);
  }

  lemma TryFrame(p: Program, skip: Label, r: Rho, fs: seq<Frame>)
    requires fs != [] && fs[0].SaveF? && fs[0].onFail == Some(skip)
    ensures FrameOk(p, Direct, InAlt(skip, r), fs) && (Pops(p, skip) ==> FrameOk(p, ToOption, InOptional(skip, r), fs))
    ensures FieldName(InOptional(skip, r)) == FieldName(r) && FieldName(InAlt(skip, r)) == FieldName(r)
  {}

  /** Enter a try: the savepoint goes on top. */
  lemma BeginTry(w: World, s: State, l: Label, onFail: Label, inner: Label) returns (s1: State)
    requires Spine(w.p, s, l) && l < |w.p.code|
    requires w.p.code[l] == BeginOptional(onFail, inner) || w.p.code[l] == BeginChoice(onFail, inner)
    requires IsHandler(w.p, onFail)
    ensures Run(w.p, s, 1, s1) && Spine(w.p, s1, inner) && CoreOf(s1) == CoreOf(s)
    ensures s1.frames != [] && s1.frames[1..] == s.frames && Saves(s1.frames[0], s1) && s1.frames[0].onFail == Some(onFail)
    ensures LoopVar(s1.frames) == LoopVar(s.frames) && Keeps(s, s1) && s1.depth == s.depth
  {
    hide Step, Run, Chain;
    s1 := s.(k := [Sp(inner)], frames := [SaveF(s.env, s.pos, s.le, 0, s.depth, |s.log|, Some(onFail))] + s.frames);
    assert s1.frames[1..] == s.frames;
    RunSp(w.p, s, l, s1, inner);
  }

  /** Leave a try on success: the savepoint goes, whatever link it had reached. */
  lemma CommitTry(w: World, s: State, t1: State, l: Label, next: Label) returns (t: State)
    requires Spine(w.p, t1, l) && l < |w.p.code|
    requires w.p.code[l] == EndOptional(next) || w.p.code[l] == CommitChoice(next)
    requires t1.frames != [] && t1.frames[0].SaveF? && t1.frames[1..] == s.frames
    requires Keeps(s, t1) && s.depth <= t1.depth
    ensures Run(w.p, t1, 1, t) && Spine(w.p, t, next) && CoreOf(t) == CoreOf(t1) && Follows(s, t)
  {
    hide Step, Run, Chain;
    t := t1.(k := [Sp(next)], frames := t1.frames[1..]);
    LeaveHandlers(w.p, t1.frames);
    RunSp(w.p, t1, l, t, next);
  }

  lemma LeaveHandlers(p: Program, fs: seq<Frame>)
    requires HandlersOk(p, fs) && fs != []
    ensures HandlersOk(p, fs[1..])
  {}
}
