/** A compiled grammar loaded for a parse, and the shape of a run's outcome. */
module World {
  import opened Syntax
  import opened Eval
  import opened Machine
  import opened Compile
  import opened Denote
  import opened Runs
  import opened ExprProof

  // ── The fragment ──────────────────────────────────────────────────────

  /** Where a `where` stands, as far as its static jump is concerned. `Free`: nothing in its
      rule can be jumped to, and `ok` says whether every call of the rule stands where a check
      agrees. `Direct`: the target's savepoint is on top of the frames. `ToOption`: the target
      is an optional body's, under plain elements only. `Astray`: neither. */
  datatype Standing = Free(ok: bool) | Direct | ToOption | Astray

  /** The static jump of a check in this place ends where fail() would. */
  predicate Sound(d: Standing) { (d.Free? && d.ok) || d.Direct? || d.ToOption? }

  function InElement(d: Standing, resync: bool): Standing {
    if resync then Direct else if d.Free? || d.ToOption? then d else Astray
  }

  /** The last of several arms is compiled under the enclosing scope, but has a savepoint. */
  function InLastArm(d: Standing): Standing { if d.Free? then d else Astray }

  function ArmPlace(d: Standing, arms: nat, i: nat): Standing {
    if arms == 1 then d else if i + 1 < arms then Direct else InLastArm(d)
  }

  /** Types whose every `where` stands in a sound place: `d` is the place of the type, and
      `dm` lists the rules whose calls all stand in sound places. Rule names resolve,
      bitfields have members, and `resync` goes with a fixed count or `eof`: the front end
      refuses it with `until`, and with `count` the machine fails. */
  predicate Fragment(g: Grammar, t: Type, d: Standing, dm: set<Name>)
    decreases t, 0
  {
    match t
    case Prim(_, w) => w.Some? ==> Sound(d)
    case ByteRun(_, _, w) => w.Some? ==> Sound(d)
    case Struct(fields, w) =>
      (w.Some? ==> Sound(d)) && forall i :: 0 <= i < |fields| ==> FieldIn(g, fields[i], d, dm)
    case RuleRef(n) => RuleIndex(g, n).Some? && (n in dm ==> Sound(d))
    case Compute(_) => true
    case EndianSwitch(_) => true
    case Bitfield(_, es) => es != [] && forall i :: 0 <= i < |es| ==> es[i].where.Some? ==> Sound(d)
    case Optional(elem, pred) => Fragment(g, elem, if pred.None? then ToOption else d, dm)
    case Switch(_, cases, dflt) =>
      (forall i :: 0 <= i < |cases| ==> CaseIn(g, cases[i], d, dm)) && DefaultIn(g, dflt, d, dm)
    case Choice(arms) => forall i :: 0 <= i < |arms| ==> ArmIn(g, arms[i], ArmPlace(d, |arms|, i), dm)
    case Array(elem, mode, _, sep, _, resync, w) =>
      (w.Some? ==> Sound(d)) && (resync ==> mode.FixedCount? || mode.UntilEof?)
      && Fragment(g, elem, InElement(d, resync), dm) && (sep.Some? ==> Fragment(g, sep.value, InElement(d, resync), dm))
  }

  predicate FieldIn(g: Grammar, f: Field, d: Standing, dm: set<Name>) decreases f, 0 { Fragment(g, f.body, d, dm) }
  predicate CaseIn(g: Grammar, c: Case, d: Standing, dm: set<Name>) decreases c, 0 { Fragment(g, c.target, d, dm) }
  predicate ArmIn(g: Grammar, a: Arm, d: Standing, dm: set<Name>) decreases a, 0 { Fragment(g, a.body, d, dm) }
  predicate DefaultIn(g: Grammar, x: Default, d: Standing, dm: set<Name>) decreases x, 0 {
    x.DefaultTo? ==> Fragment(g, x.target, d, dm)
  }

  /** Every rule is in the fragment, the checks of the rules in `dm` relying on their calls. */
  predicate Accepted(g: Grammar, dm: set<Name>) {
    forall i :: 0 <= i < |g| ==> Fragment(g, g[i].body, Free(g[i].name in dm), dm)
  }

  // ── Loaded code ───────────────────────────────────────────────────────

  datatype World = World(p: Program, g: Grammar, entries: seq<Label>, dm: set<Name>)

  /** The program holds the nodes code[lo..], rule entries patched in. */
  predicate Holds(w: World, lo: nat, code: seq<Node>)
    requires |w.entries| == |w.g|
  {
    lo <= |code| <= |w.p.code|
    && forall i :: lo <= i < |code| ==> w.p.code[i] == PatchNode(code[i], w.g, w.entries)
  }

  predicate RuleIn(w: World, i: nat, code: seq<Node>)
    requires |w.entries| == |w.g| && i < |w.g|
  {
    var b := CompileRule(code, w.g[i].body);
    Holds(w, |code|, b.code) && w.entries[i] == b.entry
  }

  ghost predicate Loaded(w: World) {
    |w.entries| == |w.g| && Accepted(w.g, w.dm)
    && forall i :: 0 <= i < |w.g| ==> RuleLoaded(w, i)
  }

  ghost predicate RuleLoaded(w: World, i: nat)
    requires |w.entries| == |w.g| && i < |w.g|
  {
    exists code :: RuleIn(w, i, code)
  }

  lemma HoldsPart(w: World, lo: nat, code: seq<Node>, lo2: nat, part: seq<Node>)
    requires |w.entries| == |w.g|
    requires Holds(w, lo, code) && lo <= lo2 <= |part| && part <= code
    ensures Holds(w, lo2, part)
  {}

  // ── Spine states ──────────────────────────────────────────────────────

  function CoreOf(s: State): Core
    requires s.depth <= |s.wins|
  {
    Core(s.pos, s.env, s.le, s.wins[..s.depth], s.log)
  }

  /** K holds nothing but the next spine kont, and the cursor is in its window. */
  predicate Spine(p: Program, s: State, l: Label) {
    s.k == [Sp(l)] && !s.failed && Chained(p, s) && InWindow(p, s)
  }

  /** t is later than s under the same frames: windows and captures only added. */
  predicate Keeps(s: State, t: State) {
    s.depth <= |s.wins| && s.depth <= |t.wins| && t.wins[..s.depth] == s.wins[..s.depth] && s.log <= t.log
  }

  predicate Follows(s: State, t: State) {
    Keeps(s, t) && s.depth <= t.depth <= |t.wins| && t.frames == s.frames
  }

  /** A handler that gives up: the link after the last arm of a choice. */
  predicate Exhausted(p: Program, l: Label) { l < |p.code| && p.code[l].OnFail? && p.code[l].target.None? }

  /** A handler that takes its savepoint, and all frames above it, off: an optional body's. */
  predicate Pops(p: Program, l: Label) { l < |p.code| && p.code[l].OnFail? && p.code[l].target.Some? && p.code[l].pop }

  /** A failure under the frames fs goes on to `rest`: frames that fail() passes are gone, and
      so may be savepoints whose handlers give up. */
  predicate Falls(p: Program, fs: seq<Frame>, rest: seq<Frame>) {
    if fs == [] then rest == []
    else if !Armed(fs[0]) then Falls(p, fs[1..], rest)
    else rest == fs || (Exhausted(p, fs[0].onFail.value) && Falls(p, fs[1..], rest))
  }

  /** A jump to handler l from under fs finds the savepoint the handler belongs to. */
  predicate Lands(p: Program, l: Label, fs: seq<Frame>) {
    fs != []
    && if fs[0].SaveF? then fs[0].onFail == Some(l)
       else fs[0].LoopF? && Pops(p, l) && Lands(p, l, fs[1..])
  }

  /** A failure from under s's frames is under way at t: the handler of a savepoint it falls
      to is next, or the parse has failed. */
  predicate AtFail(p: Program, s: State, t: State) {
    Keeps(s, t) && Falls(p, s.frames, Unwind(t.frames))
    && if Unwind(t.frames) == [] then t.failed
       else !t.failed && t.k != [] && t.k[|t.k| - 1] == Sp(Unwind(t.frames)[0].onFail.value)
            && Lands(p, Unwind(t.frames)[0].onFail.value, t.frames)
  }

  /** What n steps from s must lead to, seen from under b's frames, when the denotation is r. */
  ghost predicate Outcome(w: World, b: State, s: State, next: Label, r: Res, fuel: nat, n: nat, t: State) {
    Run(w.p, s, n, t)
    && match r
       case Ok(c) => Spine(w.p, t, next) && Follows(b, t) && CoreOf(t) == c
       case Failed => AtFail(w.p, b, t)
       case Out => Running(t) && n >= fuel
  }

  /** The frames a place stands for, with what find_backtrack_target names there. */
  predicate FrameOk(p: Program, d: Standing, r: Rho, fs: seq<Frame>) {
    match d
    case Free(ok) => BacktrackTarget(r).None? && (ok ==> AbortOk(p, fs))
    case Direct => BacktrackTarget(r).Some? && fs != [] && fs[0].SaveF? && fs[0].onFail == BacktrackTarget(r)
    case ToOption => BacktrackTarget(r).Some? && Pops(p, BacktrackTarget(r).value) && Lands(p, BacktrackTarget(r).value, fs)
    case Astray => true
  }

  /** Frames under which AbortRule's walk ends up where fail()'s does: loops, last arms and
      calls that cannot be jumped to, down to nothing or to a call whose jump lands. */
  predicate AbortOk(p: Program, fs: seq<Frame>) {
    fs == []
    || match fs[0]
       case LoopF(_, _, _) => AbortOk(p, fs[1..])
       case ReturnF(_, _, to) => if to.Some? then Lands(p, to.value, fs[1..]) else AbortOk(p, fs[1..])
       case SaveF(_, _, _, _, _, _, onFail) => onFail.Some? && Exhausted(p, onFail.value) && AbortOk(p, fs[1..])
  }

  // ── Glue ──────────────────────────────────────────────────────────────

  lemma {:induction false} FallsUnwind(p: Program, fs: seq<Frame>, rest: seq<Frame>)
    ensures Falls(p, fs, rest) <==> Falls(p, Unwind(fs), rest)
  {
    if fs != [] && !Armed(fs[0]) { FallsUnwind(p, fs[1..], rest); }
  }

  lemma {:induction false} FallsHere(p: Program, fs: seq<Frame>)
    ensures Falls(p, fs, Unwind(fs))
  {
    if fs != [] && !Armed(fs[0]) { FallsHere(p, fs[1..]); }
  }

  /** Where a jump lands is where fail() goes first. */
  lemma {:induction false} LandsUnwind(p: Program, l: Label, fs: seq<Frame>)
    requires Lands(p, l, fs)
    ensures Unwind(fs) != [] && Unwind(fs)[0].onFail == Some(l)
    ensures FindSave(fs) < |fs| && fs[FindSave(fs)..] == Unwind(fs)
    ensures !Pops(p, l) ==> fs == Unwind(fs)
  {
    if fs[0].SaveF? {
      assert fs[0..] == fs;
    } else {
      LandsUnwind(p, l, fs[1..]);
      assert fs[1..][FindSave(fs[1..])..] == fs[FindSave(fs)..];
    }
  }

  /** A failure under a savepoint whose handler does not give up is at that handler. */
  lemma AtTop(p: Program, s: State, t: State, l: Label)
    requires AtFail(p, s, t) && s.frames != [] && s.frames[0].SaveF? && s.frames[0].onFail == Some(l) && !Exhausted(p, l)
    ensures !t.failed && t.k != [] && t.k[|t.k| - 1] == Sp(l)
    ensures FindSave(t.frames) < |t.frames| && t.frames[FindSave(t.frames)..] == s.frames
    ensures t.frames[FindSave(t.frames) + 1..] == s.frames[1..]
    ensures !Pops(p, l) ==> t.frames == s.frames && FindSave(t.frames) == 0
  {
    assert Unwind(t.frames) == s.frames;
    LandsUnwind(p, l, t.frames);
    assert t.frames[FindSave(t.frames)..][1..] == t.frames[FindSave(t.frames) + 1..];
  }

  /** A run followed by an outcome is an outcome. */
  lemma Prepend(w: World, b: State, s: State, n1: nat, t1: State, next: Label, r: Res, fuel: nat, n2: nat, t2: State)
    requires Run(w.p, s, n1, t1)
    requires Outcome(w, b, t1, next, r, fuel, n2, t2)
    ensures Outcome(w, b, s, next, r, fuel, n1 + n2, t2)
  {
    hide Step, Safe, AtFail, Spine, Follows;
    RunTrans(w.p, s, n1, t1, n2, t2);
  }

  /** An outcome seen from a later state is one seen from an earlier state. */
  lemma Rebase(w: World, b: State, b1: State, s: State, next: Label, r: Res, fuel: nat, n: nat, t: State)
    requires Outcome(w, b1, s, next, r, fuel, n, t)
    requires Keeps(b, b1) && b.depth <= b1.depth && Unwind(b1.frames) == Unwind(b.frames)
    requires r.Ok? ==> b1.frames == b.frames
    ensures Outcome(w, b, s, next, r, fuel, n, t)
  {
    hide Step, Safe, Spine, Run, Running, Unwind, Falls, Lands;
    FallsUnwind(w.p, b.frames, Unwind(t.frames));
    FallsUnwind(w.p, b1.frames, Unwind(t.frames));
    if !r.Out? {
      assert t.wins[..b.depth] == t.wins[..b1.depth][..b.depth];
      assert b1.wins[..b1.depth][..b.depth] == b1.wins[..b.depth];
    }
  }

  lemma SpineSafe(p: Program, s: State, l: Label)
    requires Spine(p, s, l)
    ensures Safe(p, s) && Running(s) && Run(p, s, 0, s)
  {}

  /** A spine step that stays on the spine. */
  lemma RunSp(p: Program, s: State, l: Label, t: State, next: Label)
    requires Spine(p, s, l) && l < |p.code| && t == StepNode(p, s.(k := []), p.code[l])
    requires Spine(p, t, next)
    ensures Run(p, s, 1, t)
  {
    hide StepNode, Step;
    StepSp(p, s, l);
    SpineSafe(p, s, l);
    SpineSafe(p, t, next);
    RunOne(p, s);
  }

  lemma FailIs(p: Program, s: State, x: State)
    requires Keeps(s, x) && Unwind(x.frames) == Unwind(s.frames) && !x.failed
    ensures AtFail(p, s, Fail(x))
  {
    FallsHere(p, s.frames);
  }

  /** A spine step that fails. */
  lemma FailSp(p: Program, s: State, l: Label, x: State)
    requires Spine(p, s, l) && l < |p.code| && StepNode(p, s.(k := []), p.code[l]) == Fail(x)
    requires Keeps(s, x) && Unwind(x.frames) == Unwind(s.frames) && !x.failed && Chained(p, x)
    ensures Run(p, s, 1, Fail(x)) && AtFail(p, s, Fail(x))
  {
    hide StepNode, Step;
    StepSp(p, s, l);
    SpineSafe(p, s, l);
    FailSafe(p, x);
    FailIs(p, s, x);
    RunOne(p, s);
  }

  // ── Sites: an expression, then its consumer ───────────────────────────

  /** The expression of a site, run above its consumer. */
  lemma {:induction false} RunSite(p: Program, s: State, d: DKont, e: Expr) returns (n: nat, t: State)
    requires s.k == [Dyn(d), Ex(CompileExpr(e))] && !s.failed && SafeAbove(p, s, [Dyn(d)]) && s.depth <= |s.wins|
    requires !IsExprDyn(d)
    ensures Run(p, s, n, t) && n >= 1
    ensures match EvalExpr(e, CtxOf(p, s))
      case Some(v) => t == s.(k := [Dyn(d)], ac := v, slots := t.slots)
                      && Running(t) && Step(p, t) == StepSiteDyn(p, t.(k := []), d)
      case None => AtFail(p, s, t)
  {
    hide Step, Safe, Run, Chained, SafeAbove, CtxOf, EvalExpr;
    assert s.k == [Dyn(d)] + [Ex(CompileExpr(e))];
    var x;
    n, t, x := RunExpr(p, s, [Dyn(d)], e);
    if EvalExpr(e, CtxOf(p, s)).Some? {
      assert t.k == [] + [Dyn(d)];
      hide StepNode, StepEx, StepExprDyn, StepSiteDyn;
      Popped(p, t, [], Dyn(d));
    } else {
      FailIs(p, s, x);
    }
  }

  /** From the spine into a site: step to [consumer, expression], run the expression. */
  lemma {:induction false} SiteOpen(p: Program, s: State, l: Label, s1: State, d: DKont, e: Expr) returns (n: nat, t: State)
    requires Spine(p, s, l) && l < |p.code| && StepNode(p, s.(k := []), p.code[l]) == s1
    requires s1 == s.(k := [Dyn(d), Ex(CompileExpr(e))], log := s1.log) && s.log <= s1.log && !IsExprDyn(d)
    ensures Run(p, s, n, t) && n >= 1
    ensures match EvalExpr(e, CtxOf(p, s1))
      case Some(v) => t == s1.(k := [Dyn(d)], ac := v, slots := t.slots)
                      && Running(t) && Step(p, t) == StepSiteDyn(p, t.(k := []), d)
      case None => AtFail(p, s, t)
  {
    hide StepNode, Step, EvalExpr, CompileExpr, Run, StepSiteDyn, Chain, HandlersOk;
    StepSp(p, s, l);
    SpineSafe(p, s, l);
    assert EffHi(p, s1) == EffHi(p, s);
    RunOne(p, s);
    var n1, t1 := RunSite(p, s1, d, e);
    RunTrans(p, s, 1, s1, n1, t1);
    n, t := n1 + 1, t1;
  }

  /** The consumer goes back to the spine. */
  lemma SiteGo(p: Program, s: State, n: nat, t: State, t2: State, next: Label)
    requires Run(p, s, n, t) && Running(t) && Step(p, t) == t2 && Spine(p, t2, next)
    ensures Run(p, s, n + 1, t2)
  {
    hide Step, Safe;
    RunSteps(p, s, n, t);
    SpineSafe(p, t2, next);
    RunOne(p, t);
    RunTrans(p, s, n, t, 1, t2);
  }

  /** The consumer fails. */
  lemma SiteFail(p: Program, b: State, s: State, n: nat, t: State, x: State)
    requires Run(p, s, n, t) && Running(t) && Step(p, t) == Fail(x)
    requires Keeps(b, x) && Unwind(x.frames) == Unwind(b.frames) && !x.failed && Chained(p, x)
    ensures Run(p, s, n + 1, Fail(x)) && AtFail(p, b, Fail(x))
  {
    hide Step, Safe, Unwind, Run;
    RunSteps(p, s, n, t);
    FailSafe(p, x);
    FailIs(p, b, x);
    RunOne(p, t);
    RunTrans(p, s, n, t, 1, Fail(x));
  }
}
