/** Main theorems about whole parses: a compiled grammar halts exactly when its denotation
    is defined, with the denotation's result, and every state on the way is window-safe. */
module Theorems {
  import opened Syntax
  import opened Eval
  import opened Machine
  import opened Compile
  import opened Denote
  import opened Runs
  import opened World
  import opened Leaves
  import opened Bitfields
  import opened Refine

  // ── Loading a compiled grammar ────────────────────────────────────────

  /** Rules are compiled one after another into a growing arena. */
  lemma {:induction false} RulesGrow(g: Grammar, i: nat, n: nat)
    requires i <= n <= |g|
    ensures CompileRules(g, i).code <= CompileRules(g, n).code
    ensures CompileRules(g, i).entries == CompileRules(g, n).entries[..i]
    decreases n
  {
    hide CompileRule;
    if i < n {
      RulesGrow(g, i, n - 1);
      assert CompileRules(g, n).entries[..i] == CompileRules(g, n - 1).entries[..i];
    } else {
      assert CompileRules(g, n).entries[..n] == CompileRules(g, n).entries;
    }
  }

  function Load(g: Grammar, input: Bytes, dm: set<Name>): World {
    World(Program(CompileGrammar(g), input), g, CompileRules(g, |g|).entries, dm)
  }

  /** After the final patch every rule's code is in the program, each call node knowing its
      callee's entry, forward and recursive references included. */
  lemma RulesLoad(g: Grammar, input: Bytes, dm: set<Name>)
    ensures var w := Load(g, input, dm); |w.entries| == |g| && forall i :: 0 <= i < |g| ==> RuleLoaded(w, i)
  {
    hide CompileRule, PatchNode;
    var w := Load(g, input, dm);
    forall i | 0 <= i < |g| ensures RuleLoaded(w, i) {
      RulesGrow(g, i, |g|);
      RulesGrow(g, i + 1, |g|);
      var code := CompileRules(g, i).code;
      var b := CompileRule(code, g[i].body);
      assert CompileRules(g, i + 1) == BuiltRules(b.code, CompileRules(g, i).entries + [b.entry]);
      assert w.entries[i] == w.entries[..i + 1][i] == b.entry;
      assert RuleIn(w, i, code);
    }
  }

  lemma GrammarLoads(g: Grammar, input: Bytes, dm: set<Name>)
    requires Accepted(g, dm)
    ensures Loaded(Load(g, input, dm))
  {
    hide Accepted, RuleLoaded, CompileGrammar, CompileRules;
    RulesLoad(g, input, dm);
  }

  // ── Whole parses ──────────────────────────────────────────────────────

  function StartCore(le: bool): Core { Core(0, [], le, [], []) }

  /** The denotation of a parse of rule i on the whole input. */
  function Meaning(g: Grammar, input: Bytes, i: nat, le: bool, fuel: nat): Res
    requires i < |g|
  {
    ParseBody(g, input, fuel, g[i].body, StartCore(le), None)
  }

  function StartState(w: World, i: nat, le: bool): State
    requires i < |w.entries|
  {
    Initial(w.entries[i], le)
  }

  /** A parse that is over: K is empty, no frame is left, and the rest is the core. */
  predicate Finished(s: State, c: Core) {
    s.k == [] && !s.failed && s.frames == [] && s.depth <= |s.wins| && CoreOf(s) == c
  }

  /** What the machine has done when the denotation of fuel `fuel` is r. */
  ghost predicate Matches(w: World, s0: State, r: Res, fuel: nat, n: nat) {
    match r
    case Ok(c) => Finished(Steps(w.p, s0, n), c)
    case Failed => Steps(w.p, s0, n).failed
    case Out => Running(Steps(w.p, s0, n)) && n >= fuel
  }

  /** A whole parse refines the denotation, through safe states only. */
  lemma {:induction false} Parse(w: World, i: nat, le: bool, fuel: nat) returns (n: nat)
    requires Loaded(w) && i < |w.g|
    ensures Matches(w, StartState(w, i, le), Meaning(w.g, w.p.input, i, le, fuel), fuel, n)
    ensures Run(w.p, StartState(w, i, le), n, Steps(w.p, StartState(w, i, le), n))
  {
    hide Step, RuleIn, Accepted, CompileBody, ParseBody, Holds, Chain, Run, Fragment, Safe;
    var s0 := StartState(w, i, le);
    var code := RuleCode(w, i);
    RuleParts(w, i, code);
    var exit := |code| + 1;
    assert CoreOf(s0) == StartCore(le);
    StartSpine(w, i, le);
    assert code + [Halt] + [ReturnRule(|code|)] == Emit(Emit(code, Halt).code, ReturnRule(|code|)).code;
    DirectStart(w, i);
    var t;
    n, t := RunBody(w, code + [Halt] + [ReturnRule(|code|)], w.g[i].body, exit, s0, fuel, Free(w.g[i].name in w.dm));
    var r := Meaning(w.g, w.p.input, i, le, fuel);
    if r.Ok? {
      var t2 := HaltRun(w, t, exit, |code|);
      RunTrans(w.p, s0, n, t, 2, t2);
      n, t := n + 2, t2;
    }
    RunSteps(w.p, s0, n, t);
  }

  lemma StartSpine(w: World, i: nat, le: bool)
    requires i < |w.entries|
    ensures Spine(w.p, StartState(w, i, le), w.entries[i])
  {}

  lemma DirectStart(w: World, i: nat)
    requires Loaded(w) && i < |w.g|
    ensures Fragment(w.g, w.g[i].body, Free(w.g[i].name in w.dm), w.dm) && FrameOk(w.p, Free(w.g[i].name in w.dm), Root, [])
  {}

  /** The exit of a top-level rule: ReturnRule with no frame, then Halt. */
  lemma EndSites(p: Program, s: State, halt: Label)
    ensures s.frames == [] ==> StepNode(p, s.(k := []), ReturnRule(halt)) == s.(k := [Sp(halt)])
    ensures StepNode(p, s.(k := []), Halt) == s.(k := [])
  {
    hide StepArrayNext, StepBeginArray, StepEndArray, StepResync, StepOnFail;
  }

  lemma HaltRun(w: World, s: State, exit: Label, halt: Label) returns (t: State)
    requires Spine(w.p, s, exit) && s.frames == []
    requires exit < |w.p.code| && halt < |w.p.code| && w.p.code[exit] == ReturnRule(halt) && w.p.code[halt] == Halt
    ensures Run(w.p, s, 2, t) && t == s.(k := [])
  {
    hide Step, Chain, Run;
    var t1 := s.(k := [Sp(halt)]);
    RunSp(w.p, s, exit, t1, halt);
    t := s.(k := []);
    EndSites(w.p, t1, halt);
    StepSp(w.p, t1, halt);
    SpineSafe(w.p, t1, halt);
    RunOne(w.p, t1);
    RunTrans(w.p, s, 1, t1, 1, t);
  }

  // ── Halting ───────────────────────────────────────────────────────────

  lemma {:induction false} HaltedStays(p: Program, s: State, m: nat)
    requires !Running(s)
    ensures Steps(p, s, m) == s
    decreases m
  {
    assert Step(p, s) == s;
    hide Step;
    if m > 0 { HaltedStays(p, s, m - 1); }
  }

  /** Two halted points of one run are the same state. */
  lemma SameHalt(p: Program, s: State, n: nat, m: nat)
    requires !Running(Steps(p, s, n)) && !Running(Steps(p, s, m))
    ensures Steps(p, s, n) == Steps(p, s, m)
  {
    hide Step;
    if n <= m {
      StepsAdd(p, s, n, m - n);
      HaltedStays(p, Steps(p, s, n), m - n);
    } else {
      StepsAdd(p, s, m, n - m);
      HaltedStays(p, Steps(p, s, m), n - m);
    }
  }

  lemma NoHaltBefore(p: Program, s: State, n: nat, m: nat)
    requires Running(Steps(p, s, m)) && n <= m
    ensures Running(Steps(p, s, n))
  {
    hide Step;
    if !Running(Steps(p, s, n)) {
      StepsAdd(p, s, n, m - n);
      HaltedStays(p, Steps(p, s, n), m - n);
    }
  }

  /** The parse halts successfully in core c exactly when some fuel gives the denotation c. */
  lemma AcceptsIff(g: Grammar, dm: set<Name>, input: Bytes, i: nat, le: bool, c: Core)
    requires Accepted(g, dm) && i < |g|
    ensures var w := Load(g, input, dm);
            (exists n: nat :: Finished(Steps(w.p, StartState(w, i, le), n), c))
            <==> (exists fuel: nat :: Meaning(g, input, i, le, fuel) == Ok(c))
  {
    hide Step, Accepted, Loaded, ParseBody, Meaning, CompileGrammar, CompileRules;
    var w := Load(g, input, dm);
    GrammarLoads(g, input, dm);
    var s0 := StartState(w, i, le);
    if fuel: nat :| Meaning(g, input, i, le, fuel) == Ok(c) {
      var n := Parse(w, i, le, fuel);
      assert Finished(Steps(w.p, s0, n), c);
    }
    if n: nat :| Finished(Steps(w.p, s0, n), c) {
      var m := Parse(w, i, le, n + 1);
      HaltedMeaning(w, i, le, n, m);
    }
  }

  /** A run that has halted after n steps fixes the denotation at fuel n + 1. */
  lemma HaltedMeaning(w: World, i: nat, le: bool, n: nat, m: nat)
    requires i < |w.entries| == |w.g|
    requires !Running(Steps(w.p, StartState(w, i, le), n))
    requires Matches(w, StartState(w, i, le), Meaning(w.g, w.p.input, i, le, n + 1), n + 1, m)
    ensures var r := Meaning(w.g, w.p.input, i, le, n + 1);
            var t := Steps(w.p, StartState(w, i, le), n);
            !r.Out? && (r.Ok? ==> Finished(t, r.c)) && (r.Failed? ==> t.failed)
  {
    hide Step, Meaning;
    var s0 := StartState(w, i, le);
    var r := Meaning(w.g, w.p.input, i, le, n + 1);
    if r.Out? {
      NoHaltBefore(w.p, s0, n, m);
    } else {
      SameHalt(w.p, s0, n, m);
    }
  }

  /** The parse fails exactly when some fuel gives the denotation a failure. */
  lemma RejectsIff(g: Grammar, dm: set<Name>, input: Bytes, i: nat, le: bool)
    requires Accepted(g, dm) && i < |g|
    ensures var w := Load(g, input, dm);
            (exists n: nat :: Steps(w.p, StartState(w, i, le), n).failed)
            <==> (exists fuel: nat :: Meaning(g, input, i, le, fuel) == Failed)
  {
    hide Step, Accepted, Loaded, ParseBody, Meaning, CompileGrammar, CompileRules;
    var w := Load(g, input, dm);
    GrammarLoads(g, input, dm);
    var s0 := StartState(w, i, le);
    if fuel: nat :| Meaning(g, input, i, le, fuel) == Failed {
      var n := Parse(w, i, le, fuel);
      assert Steps(w.p, s0, n).failed;
    }
    if n: nat :| Steps(w.p, s0, n).failed {
      var m := Parse(w, i, le, n + 1);
      HaltedMeaning(w, i, le, n, m);
      assert Meaning(g, input, i, le, n + 1) == Failed;
    }
  }

  // ── Window confinement over whole runs ────────────────────────────────

  /** The parse never ends exactly when every fuel runs out. */
  lemma NeverEndsIff(g: Grammar, dm: set<Name>, input: Bytes, i: nat, le: bool)
    requires Accepted(g, dm) && i < |g|
    ensures var w := Load(g, input, dm);
            (forall n: nat :: Running(Steps(w.p, StartState(w, i, le), n)))
            <==> (forall fuel: nat :: Meaning(g, input, i, le, fuel).Out?)
  {
    hide Step, Accepted, Loaded, ParseBody, Meaning, CompileGrammar, CompileRules;
    var w := Load(g, input, dm);
    GrammarLoads(g, input, dm);
    var s0 := StartState(w, i, le);
    if fuel: nat :| !Meaning(g, input, i, le, fuel).Out? {
      var n := Parse(w, i, le, fuel);
      assert !Running(Steps(w.p, s0, n));
    }
    if n: nat :| !Running(Steps(w.p, s0, n)) {
      var m := Parse(w, i, le, n + 1);
      HaltedMeaning(w, i, le, n, m);
      assert !Meaning(g, input, i, le, n + 1).Out?;
    }
  }

  /** Every state a parse ever reaches is safe: the live windows form a chain inside the
      input, and the cursor is in the innermost one except while a failure is being handled
      or an interval's end is evaluated after its seek. Terminating or not. */
  lemma EveryStateSafe(g: Grammar, dm: set<Name>, input: Bytes, i: nat, le: bool, k: nat)
    requires Accepted(g, dm) && i < |g|
    ensures var w := Load(g, input, dm); Safe(w.p, Steps(w.p, StartState(w, i, le), k))
  {
    hide Step, Accepted, Loaded, ParseBody, Meaning, CompileGrammar, CompileRules, Safe;
    var w := Load(g, input, dm);
    GrammarLoads(g, input, dm);
    var s0 := StartState(w, i, le);
    var n := Parse(w, i, le, k);
    if k <= n {
      RunSafe(w.p, s0, n, Steps(w.p, s0, n), k);
    } else {
      StepsAdd(w.p, s0, n, k - n);
      HaltedStays(w.p, Steps(w.p, s0, n), k - n);
      RunSafe(w.p, s0, n, Steps(w.p, s0, n), n);
    }
  }
}
