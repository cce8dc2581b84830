/** Where the front end's termination check is exact: a type it refuses has an input and a
    state from which it succeeds without moving. */
module Exact {
  import opened Syntax
  import opened Eval
  import opened Wire
  import opened Machine
  import opened Compile
  import opened Denote
  import opened Runs
  import opened Confine
  import opened Progress

  // ── The fragment ──────────────────────────────────────────────────────

  /** A grammar, the type that each name decides the course of, and for the rules that may be
      called a rank above that of every rule they call. */
  datatype Setting = Setting(g: Grammar, deciding: map<Name, Type>, rank: map<Name, nat>)

  /** Types calling rules below rank k, whose outcome where no byte is left turns on the
      deciding names alone: a switch selects by such a name, a predicate and an end condition
      are such a name, a width and a count such a name or a literal. Computed values are
      literals. There are no windows; a constraint stands only behind a scalar or a bitfield. */
  ghost predicate Simple(s: Setting, t: Type, k: nat)
    decreases t, 0
  {
    match t
    case Prim(p, _) => Scalar(p)
    case Bitfield(p, es) => p.IntP? && p.width > 0 && es != []
    case ByteRun(len, _, w) => w.None? && (len.Some? ==> Literal(len.value) || Decides(s, len.value, t))
    case Compute(e) => e.IntLit?
    case EndianSwitch(e) => e.EndianLit?
    case Struct(fields, w) => w.None? && forall i :: 0 <= i < |fields| ==> SimpleField(s, fields[i], k)
    case RuleRef(n) => n in s.rank && s.rank[n] < k && RuleIndex(s.g, n).Some?
    case Optional(e, pred) => Simple(s, e, k) && (pred.Some? ==> Decides(s, pred.value, t))
    case Switch(disc, cases, d) =>
      Decides(s, disc, t) && (forall i :: 0 <= i < |cases| ==> SimpleCase(s, cases[i], k)) && SimpleDefault(s, d, k)
    case Choice(arms) => forall i :: 0 <= i < |arms| ==> SimpleArm(s, arms[i], k)
    case Array(e, mode, bound, sep, iv, resync, w) =>
      w.None? && iv.None? && Simple(s, e, k) && (sep.Some? ==> Simple(s, sep.value, k))
      && (mode.UntilEof? || Decides(s, bound, t)
          || (mode.FixedCount? && bound.IntLit? && !resync && (bound.n <= 1 || sep.None? || May(s, sep.value))))
  }

  predicate Literal(e: Expr) { e.IntLit? && e.n >= 0 }
  predicate Decides(s: Setting, e: Expr, t: Type) { e.Ref? && e.name in s.deciding && s.deciding[e.name] == t }

  ghost predicate SimpleField(s: Setting, f: Field, k: nat) decreases f, 0 {
    !f.rest && f.interval.None? && f.name !in s.deciding && Simple(s, f.body, k)
  }
  ghost predicate SimpleArm(s: Setting, a: Arm, k: nat) decreases a, 0 { Simple(s, a.body, k) }
  ghost predicate SimpleCase(s: Setting, c: Case, k: nat) decreases c, 0 { Simple(s, c.target, k) }
  ghost predicate SimpleDefault(s: Setting, d: Default, k: nat) decreases d, 0 { d.DefaultTo? ==> Simple(s, d.target, k) }

  /** Every case has a value that takes it: it is not empty and no earlier one hides it. */
  ghost predicate Selectable(t: Type) { t.Switch? ==> forall i :: 0 <= i < |t.cases| ==> Taken(t.cases, i) }

  ghost predicate Taken(cases: seq<Case>, i: nat) { exists v :: v != Null && SelectCase(cases, v) == i }

  /** The ranks are as said; a switch can take any of its cases, and a deciding name is not
      one the parser binds by itself. */
  ghost predicate Ranked(s: Setting) {
    "" !in s.deciding && "_" !in s.deciding && (forall n :: n in s.deciding ==> Selectable(s.deciding[n]))
    && forall i :: 0 <= i < |s.g| && s.g[i].name in s.rank ==> Simple(s, s.g[i].body, s.rank[s.g[i].name])
  }

  predicate May(s: Setting, t: Type) { MayReadNothing(s.g, t, {}, true) }

  function Rules(s: Setting): Cursor { Forward(s.rank.Keys) }

  lemma {:induction false} SimpleTame(s: Setting, t: Type, k: nat)
    requires Simple(s, t, k)
    ensures Tame(t, Rules(s))
    decreases t
  {
    hide May;
    match t
    case Struct(fields, _) =>
      forall i | 0 <= i < |fields| ensures TameField(fields[i], Rules(s)) && !fields[i].rest {
        assert SimpleField(s, fields[i], k);
        SimpleTame(s, fields[i].body, k);
      }
    case Choice(arms) =>
      forall i | 0 <= i < |arms| ensures TameArm(arms[i], Rules(s)) {
        assert SimpleArm(s, arms[i], k);
        SimpleTame(s, arms[i].body, k);
      }
    case Switch(_, cases, d) =>
      forall i | 0 <= i < |cases| ensures TameCase(cases[i], Rules(s)) {
        assert SimpleCase(s, cases[i], k);
        SimpleTame(s, cases[i].target, k);
      }
      if d.DefaultTo? { SimpleTame(s, d.target, k); }
    case Optional(e, _) => SimpleTame(s, e, k);
    case Array(e, _, _, sep, _, _, _) =>
      SimpleTame(s, e, k);
      if sep.Some? { SimpleTame(s, sep.value, k); }
    case _ =>
  }

  lemma RulesTame(s: Setting)
    requires Ranked(s)
    ensures TameGrammar(s.g, Rules(s))
  {
    hide Simple, Tame;
    forall i | 0 <= i < |s.g| && s.g[i].name in s.rank ensures Tame(s.g[i].body, Rules(s)) {
      SimpleTame(s, s.g[i].body, s.rank[s.g[i].name]);
    }
  }

  // ── The rules being visited make no difference ────────────────────────

  ghost predicate Above(s: Setting, v: set<Name>, k: nat) { forall n :: n in v && n in s.rank ==> s.rank[n] >= k }

  lemma {:induction false} Visited(s: Setting, t: Type, k: nat, v: set<Name>)
    requires Simple(s, t, k) && Ranked(s) && Above(s, v, k)
    ensures MayReadNothing(s.g, t, v, true) == May(s, t)
    decreases k, t, 1
  {
    hide Ranked, AllFieldsMay, SomeArmMay, SomeCaseMay, DefaultMay, SimpleField, SimpleArm, SimpleCase, SimpleDefault;
    match t
    case Struct(fields, _) => FieldsVisited(s, fields, k, v);
    case Choice(arms) => ArmsVisited(s, arms, k, v);
    case Switch(_, cases, d) => CasesVisited(s, cases, k, v); DefaultVisited(s, d, k, v);
    case Array(e, _, _, _, _, _, _) => Visited(s, e, k, v);
    case RuleRef(n) =>
      RuleSimple(s, n);
      var body := s.g[RuleIndex(s.g, n).value].body;
      Visited(s, body, s.rank[n], v + {n});
      Visited(s, body, s.rank[n], {} + {n});
    case _ =>
  }

  lemma RuleSimple(s: Setting, n: Name)
    requires Ranked(s) && n in s.rank && RuleIndex(s.g, n).Some?
    ensures var i := RuleIndex(s.g, n).value; i < |s.g| && s.g[i].name == n && Simple(s, s.g[i].body, s.rank[n])
  {
    RuleIndexBound(s.g, n);
    hide Simple, RuleIndex;
  }

  /** What the check says of a rule is what it says of its body. */
  lemma RuleMay(s: Setting, n: Name, k: nat)
    requires Ranked(s) && Simple(s, RuleRef(n), k)
    ensures RuleIndex(s.g, n).value < |s.g| && May(s, RuleRef(n)) == May(s, s.g[RuleIndex(s.g, n).value].body)
  {
    hide Ranked;
    RuleSimple(s, n);
    Visited(s, s.g[RuleIndex(s.g, n).value].body, s.rank[n], {} + {n});
  }

  lemma {:induction false} FieldsVisited(s: Setting, fields: seq<Field>, k: nat, v: set<Name>)
    requires (forall i :: 0 <= i < |fields| ==> SimpleField(s, fields[i], k)) && Ranked(s) && Above(s, v, k)
    ensures AllFieldsMay(s.g, fields, v, true) == AllFieldsMay(s.g, fields, {}, true)
    decreases k, fields, 0
  {
    hide Ranked, Simple, MayReadNothing;
    if fields != [] {
      Visited(s, fields[0].body, k, v);
      FieldsVisited(s, fields[1..], k, v);
    }
  }

  lemma {:induction false} ArmsVisited(s: Setting, arms: seq<Arm>, k: nat, v: set<Name>)
    requires (forall i :: 0 <= i < |arms| ==> SimpleArm(s, arms[i], k)) && Ranked(s) && Above(s, v, k)
    ensures SomeArmMay(s.g, arms, v, true) == SomeArmMay(s.g, arms, {}, true)
    decreases k, arms, 0
  {
    hide Ranked, Simple, MayReadNothing;
    if arms != [] {
      Visited(s, arms[0].body, k, v);
      ArmsVisited(s, arms[1..], k, v);
    }
  }

  lemma {:induction false} CasesVisited(s: Setting, cases: seq<Case>, k: nat, v: set<Name>)
    requires (forall i :: 0 <= i < |cases| ==> SimpleCase(s, cases[i], k)) && Ranked(s) && Above(s, v, k)
    ensures SomeCaseMay(s.g, cases, v, true) == SomeCaseMay(s.g, cases, {}, true)
    decreases k, cases, 0
  {
    hide Ranked, Simple, MayReadNothing;
    if cases != [] {
      CaseVisited(s, cases[0], k, v);
      CasesVisited(s, cases[1..], k, v);
    }
  }

  lemma {:induction false} CaseVisited(s: Setting, c: Case, k: nat, v: set<Name>)
    requires SimpleCase(s, c, k) && Ranked(s) && Above(s, v, k)
    ensures CaseMay(s.g, c, v, true) == CaseMay(s.g, c, {}, true)
    decreases k, c, 0
  {
    hide Ranked, Simple, MayReadNothing;
    Visited(s, c.target, k, v);
  }

  lemma {:induction false} DefaultVisited(s: Setting, d: Default, k: nat, v: set<Name>)
    requires SimpleDefault(s, d, k) && Ranked(s) && Above(s, v, k)
    ensures DefaultMay(s.g, d, v, true) == DefaultMay(s.g, d, {}, true)
    decreases k, d, 0
  {
    hide Ranked, Simple, MayReadNothing;
    if d.DefaultTo? { Visited(s, d.target, k, v); }
  }

  // ── States that steer the switches ────────────────────────────────────

  /** Whether the branch a switch takes for v may read nothing. */
  predicate BranchMay(s: Setting, t: Type, v: Value)
    requires t.Switch?
  {
    var i := SelectCase(t.cases, v);
    if i < |t.cases| then May(s, t.cases[i].target) else t.dflt.DefaultTo? && May(s, t.dflt.target)
  }

  /** The name has a value, one that makes its type read nothing if any can: zero for a width
      or a count, absence, an end reached, a branch that may read nothing. */
  predicate Steers(s: Setting, n: Name, env: Env)
    requires n in s.deciding
  {
    var v := Lookup(env, n);
    v.Some? && SteersTo(s, s.deciding[n], v.value)
  }

  predicate SteersTo(s: Setting, t: Type, v: Value) {
    match t
    case Switch(_, _, _) => v != Null && (May(s, t) ==> BranchMay(s, t, v))
    case Optional(_, _) => v == BoolV(false)
    case Array(_, mode, _, _, _, _, _) => v == if mode.UntilTerm? then BoolV(true) else IntV(0)
    case _ => v == IntV(0)
  }

  ghost predicate Aimed(s: Setting, env: Env) { forall n :: n in s.deciding ==> Steers(s, n, env) }

  lemma AimedBound(s: Setting, env: Env, b: Binding)
    requires Aimed(s, env) && b.name !in s.deciding
    ensures Aimed(s, [b] + env)
  {
    hide May, BranchMay;
    forall n | n in s.deciding ensures Steers(s, n, [b] + env) {
      assert Steers(s, n, env);
      assert ([b] + env)[1..] == env;
    }
  }

  /** Such a value exists: a switch that may read nothing has a branch that may. */
  lemma {:induction false} SomeBranch(s: Setting, t: Type) returns (v: Value)
    requires Selectable(t)
    ensures SteersTo(s, t, v)
  {
    hide MayReadNothing, SelectCase;
    v := if t.Optional? then BoolV(false) else if t.Switch? || (t.Array? && t.mode.UntilTerm?) then BoolV(true) else IntV(0);
    if t.Switch? {
      NoCaseTaken(t.cases);
      if SomeCaseMay(s.g, t.cases, {}, true) {
        var i := MayCase(s.g, t.cases);
        assert Taken(t.cases, i);
        v :| v != Null && SelectCase(t.cases, v) == i;
      }
      SwitchMay(s, t);
    }
  }

  lemma SwitchMay(s: Setting, t: Type)
    requires t.Switch?
    ensures May(s, t) == (SomeCaseMay(s.g, t.cases, {}, true) || DefaultMay(s.g, t.dflt, {}, true))
  {
    hide SomeCaseMay, DefaultMay;
  }

  lemma {:induction false} MayCase(g: Grammar, cases: seq<Case>) returns (i: nat)
    requires SomeCaseMay(g, cases, {}, true)
    ensures i < |cases| && MayReadNothing(g, cases[i].target, {}, true)
    decreases |cases|
  {
    hide MayReadNothing;
    i := 0;
    if !CaseMay(g, cases[0], {}, true) {
      var j := MayCase(g, cases[1..]);
      i := j + 1;
    }
  }

  lemma {:induction false} NoCaseTaken(cases: seq<Case>)
    ensures SelectCase(cases, BoolV(true)) == |cases|
  {
    if cases != [] { NoCaseTaken(cases[1..]); }
  }

  /** Every discriminator can be steered at once. */
  lemma {:induction false} Steered(s: Setting, names: set<Name>) returns (env: Env)
    requires names <= s.deciding.Keys && forall n :: n in names ==> Selectable(s.deciding[n])
    ensures forall n :: n in names ==> Steers(s, n, env)
    decreases |names|
  {
    hide SteersTo, Selectable;
    env := [];
    if names != {} {
      var n :| n in names;
      var rest := Steered(s, names - {n});
      var v := SomeBranch(s, s.deciding[n]);
      env := [Binding(n, v)] + rest;
      forall m | m in names ensures Steers(s, m, env) {
        assert env[1..] == rest;
        if m != n { assert Steers(s, m, rest); }
      }
    }
  }

  // ── Where nothing is left to read ─────────────────────────────────────

  /** Fuel for the calls and the literal counts of a type of the fragment. */
  function Need(s: Setting, t: Type, k: nat): nat
    decreases k, t, 1
  {
    match t
    case Struct(fields, _) => FieldsNeed(s, fields, k)
    case Choice(arms) => ArmsNeed(s, arms, k)
    case Switch(_, cases, d) => CasesNeed(s, cases, k) + DefaultNeed(s, d, k)
    case Optional(e, _) => Need(s, e, k)
    case RuleRef(n) =>
      var i := RuleIndex(s.g, n);
      if i.Some? && i.value < |s.g| && n in s.rank && s.rank[n] < k then 1 + Need(s, s.g[i.value].body, s.rank[n]) else 0
    case Array(e, _, bound, sep, _, _, _) =>
      Need(s, e, k) + (if sep.Some? then Need(s, sep.value, k) else 0) + if bound.IntLit? && bound.n > 0 then bound.n else 0
    case _ => 0
  }

  function FieldsNeed(s: Setting, fields: seq<Field>, k: nat): nat
    decreases k, fields, 0
  {
    if fields == [] then 0 else FieldNeed(s, fields[0], k) + FieldsNeed(s, fields[1..], k)
  }

  function FieldNeed(s: Setting, f: Field, k: nat): nat decreases k, f, 0 { Need(s, f.body, k) }

  function ArmsNeed(s: Setting, arms: seq<Arm>, k: nat): nat
    decreases k, arms, 0
  {
    if arms == [] then 0 else ArmNeed(s, arms[0], k) + ArmsNeed(s, arms[1..], k)
  }

  function ArmNeed(s: Setting, a: Arm, k: nat): nat decreases k, a, 0 { Need(s, a.body, k) }

  function CasesNeed(s: Setting, cases: seq<Case>, k: nat): nat
    decreases k, cases, 0
  {
    if cases == [] then 0 else CaseNeed(s, cases[0], k) + CasesNeed(s, cases[1..], k)
  }

  function CaseNeed(s: Setting, c: Case, k: nat): nat decreases k, c, 0 { Need(s, c.target, k) }
  function DefaultNeed(s: Setting, d: Default, k: nat): nat decreases k, d, 0 { if d.DefaultTo? then Need(s, d.target, k) else 0 }

  lemma {:induction false} CaseNeeds(s: Setting, cases: seq<Case>, k: nat, i: nat)
    requires i < |cases|
    ensures Need(s, cases[i].target, k) <= CasesNeed(s, cases, k)
    decreases |cases|
  {
    hide Need;
    if i > 0 { CaseNeeds(s, cases[1..], k, i - 1); }
  }

  /** With no byte left, and every switch steered. */
  ghost predicate Dry(s: Setting, input: Bytes, c: Core) { Confined(input, c) && c.pos == CoreHi(input, c) && Aimed(s, c.env) }

  /** What a parse may come to where nothing can be read: success where it is and if `may`,
      or failure. */
  ghost predicate Settles(s: Setting, c: Core, r: Res, may: bool) {
    if may then r.Ok? && r.c.pos == c.pos && r.c.wins == c.wins && Aimed(s, r.c.env) else r.Failed?
  }

  /** Where no byte is left, a type of the fragment succeeds exactly when the strict check
      says it may. */
  lemma {:induction false} DryParse(s: Setting, input: Bytes, fuel: nat, t: Type, nm: Name, c: Core, loop: Option<int>, k: nat)
    requires Dry(s, input, c) && Simple(s, t, k) && Ranked(s) && nm !in s.deciding && fuel >= Need(s, t, k)
    ensures Settles(s, c, ParseType(s.g, input, fuel, t, nm, c, loop), May(s, t))
    decreases k, t, 1
  {
    hide EvalExpr, ParseRule, ParseRecord, ParseArms, ParseCase, ParseDefault, ParseArray, ParseEntries, Chain, AllFieldsMay, SomeArmMay, SomeCaseMay, DefaultMay,
         SimpleField, SimpleArm, SimpleCase, SimpleDefault, Ranked, FieldsNeed, ArmsNeed, CasesNeed, DefaultNeed, Aimed, Place, SelectCase;
    match t
    case Prim(_, _) => SimpleTame(s, t, k); DryLeaf(s, input, fuel, t, nm, c, loop);
    case Bitfield(_, _) => SimpleTame(s, t, k); DryLeaf(s, input, fuel, t, nm, c, loop);
    case ByteRun(_, _, _) => DryRun(s, input, fuel, t, nm, c, loop, k);
    case Struct(_, _) => DryRecord(s, input, fuel, t, Logged(c, OpenStruct(nm, c.pos)), loop, k);
    case RuleRef(n) => DryRule(s, input, fuel, n, Logged(c, OpenStruct(nm, c.pos)), loop, k);
    case Compute(_) => DryBinding(s, input, fuel, t, nm, c, loop, k);
    case EndianSwitch(_) => DryBinding(s, input, fuel, t, nm, c, loop, k);
    case Optional(e, pred) =>
      if pred.None? {
        DryParse(s, input, fuel, e, nm, c, loop, k);
      } else {
        NamedValue(s, input, pred.value, t, c, loop);
      }
    case Switch(_, _, _) => DrySwitch(s, input, fuel, t, nm, c, loop, k);
    case Choice(arms) => DryArms(s, input, fuel, arms, 0, nm, c, loop, k);
    case Array(_, _, _, _, _, _, _) => DryArray(s, input, fuel, t, nm, c, loop, k);
  }

  lemma DryLeaf(s: Setting, input: Bytes, fuel: nat, t: Type, nm: Name, c: Core, loop: Option<int>)
    requires Dry(s, input, c) && (t.Prim? || t.Bitfield?) && Tame(t, Rules(s))
    ensures ParseType(s.g, input, fuel, t, nm, c, loop).Failed?
  {
    hide EvalExpr, Chain, Place, ParseEntries, Aimed;
    LeafAfter(s.g, input, fuel, t, nm, c, loop, Rules(s));
    LeafEnds(s.g, input, fuel, t, nm, c, loop);
  }

  lemma LeafEnds(g: Grammar, input: Bytes, fuel: nat, t: Type, nm: Name, c: Core, loop: Option<int>)
    requires t.Prim? || (t.Bitfield? && t.entries != [])
    ensures !ParseType(g, input, fuel, t, nm, c, loop).Out?
  {
    hide EvalExpr, Chain, Place, ReadPrim, ParseEntries, ReadMember;
    if t.Bitfield? { EntriesEnd(input, t.container, t.entries, 0, Logged(c, OpenStruct(nm, c.pos)), loop); }
  }

  lemma {:induction false} EntriesEnd(input: Bytes, p: PrimInfo, es: seq<Entry>, off: nat, c: Core, loop: Option<int>)
    ensures !ParseEntries(input, p, es, off, c, loop).Out?
    decreases |es|
  {
    hide EvalExpr, ReadMember, Place;
    if es != [] {
      var r := ParseEntry(input, p, es[0], off, c, loop);
      if r.Ok? { EntriesEnd(input, p, es[1..], off + es[0].width, r.c, loop); }
    }
  }

  lemma DryRun(s: Setting, input: Bytes, fuel: nat, t: Type, nm: Name, c: Core, loop: Option<int>, k: nat)
    requires Dry(s, input, c) && t.ByteRun? && Simple(s, t, k) && nm !in s.deciding
    ensures Settles(s, c, ParseType(s.g, input, fuel, t, nm, c, loop), t.len.None? || !t.len.value.IntLit? || t.len.value.n <= 0)
  {
    hide Chain, Aimed, May, EvalExpr, ValueOf, BranchMay;
    HiBound(input, c);
    AimedBound(s, c.env, Binding(nm, Null));
    var e := RunLength(t.len);
    if t.len.None? {
      RemainingValue(input, c, loop);
    } else if e.IntLit? {
      LiteralValue(input, e, c, loop);
    } else {
      NamedValue(s, input, e, t, c, loop);
    }
    assert ValueOf(input, e, c, loop) == Some(IntV(if e.IntLit? then e.n else 0));
  }

  lemma RemainingValue(input: Bytes, c: Core, loop: Option<int>)
    ensures ValueOf(input, Context(AtRemaining), c, loop) == Some(IntV(CoreHi(input, c) - c.pos))
  {}

  lemma DryBinding(s: Setting, input: Bytes, fuel: nat, t: Type, nm: Name, c: Core, loop: Option<int>, k: nat)
    requires Dry(s, input, c) && (t.Compute? || t.EndianSwitch?) && Simple(s, t, k) && nm !in s.deciding
    ensures Settles(s, c, ParseType(s.g, input, fuel, t, nm, c, loop), true)
  {
    hide Chain, Aimed;
    if t.Compute? { AimedBound(s, c.env, Binding(nm, IntV(t.e.n))); }
  }

  /** A deciding name's value where its type is parsed. */
  lemma NamedValue(s: Setting, input: Bytes, e: Expr, t: Type, c: Core, loop: Option<int>)
    requires Aimed(s, c.env) && Decides(s, e, t)
    ensures var v := ValueOf(input, e, c, loop); v.Some? && SteersTo(s, t, v.value)
  {
    hide SteersTo;
    Steering(s, e.name, c.env);
  }

  lemma {:induction false} DryRecord(s: Setting, input: Bytes, fuel: nat, t: Type, c: Core, loop: Option<int>, k: nat)
    requires Dry(s, input, c) && t.Struct? && Simple(s, t, k) && Ranked(s) && fuel >= FieldsNeed(s, t.fields, k)
    ensures Settles(s, c, ParseRecord(s.g, input, fuel, t, c, loop), AllFieldsMay(s.g, t.fields, {}, true))
    decreases k, t, 0
  {
    hide ParseChain, Chain, AllFieldsMay, SimpleField, HasRest, Ranked, Aimed;
    DryChain(s, input, fuel, t.fields, c, loop, k);
  }

  lemma {:induction false} DryChain(s: Setting, input: Bytes, fuel: nat, fields: seq<Field>, c: Core, loop: Option<int>, k: nat)
    requires Dry(s, input, c) && (forall i :: 0 <= i < |fields| ==> SimpleField(s, fields[i], k)) && Ranked(s) && fuel >= FieldsNeed(s, fields, k)
    ensures Settles(s, c, ParseChain(s.g, input, fuel, fields, c, loop), AllFieldsMay(s.g, fields, {}, true)) && !HasRest(fields)
    decreases k, fields, 0
  {
    hide ParseType, Simple, MayReadNothing, Chain, Ranked, Aimed, Need;
    if fields != [] {
      DryParse(s, input, fuel, fields[0].body, fields[0].name, c, loop, k);
      var r := ParseField(s.g, input, fuel, fields[0], c, loop);
      if r.Ok? { DryChain(s, input, fuel, fields[1..], r.c, loop, k); }
      RestSplit(fields);
    }
  }

  /** A call keeps its caller's bindings, so the switches stay steered. */
  lemma {:induction false} DryRule(s: Setting, input: Bytes, fuel: nat, n: Name, c: Core, loop: Option<int>, k: nat)
    requires Dry(s, input, c) && Simple(s, RuleRef(n), k) && Ranked(s) && fuel >= Need(s, RuleRef(n), k)
    ensures Settles(s, c, ParseRule(s.g, input, fuel, n, c, loop), May(s, RuleRef(n)))
    decreases k, RuleRef(n), 0
  {
    hide ParseBody, Chain, Ranked, Aimed, May;
    RuleMay(s, n, k);
    RuleSimple(s, n);
    DryBody(s, input, fuel - 1, s.g[RuleIndex(s.g, n).value].body, c, loop, s.rank[n]);
  }

  lemma {:induction false} DryBody(s: Setting, input: Bytes, fuel: nat, t: Type, c: Core, loop: Option<int>, k: nat)
    requires Dry(s, input, c) && Simple(s, t, k) && Ranked(s) && fuel >= Need(s, t, k)
    ensures Settles(s, c, ParseBody(s.g, input, fuel, t, c, loop), May(s, t))
    decreases k, t, 2
  {
    hide Ranked, ParseRecord, ParseEntries, Chain, Aimed, AllFieldsMay, FieldsNeed, SimpleField;
    if t.Struct? {
      DryRecord(s, input, fuel, t, c, loop, k);
    } else if t.Bitfield? {
      BitsAfter(input, t.container, t.entries, c, loop);
      EntriesEnd(input, t.container, t.entries, 0, c, loop);
    } else {
      FreeName(s);
      DryParse(s, input, fuel, t, "", c, loop, k);
    }
  }

  lemma {:induction false} DrySwitch(s: Setting, input: Bytes, fuel: nat, t: Type, nm: Name, c: Core, loop: Option<int>, k: nat)
    requires Dry(s, input, c) && t.Switch? && Simple(s, t, k) && Ranked(s) && nm !in s.deciding && fuel >= Need(s, t, k)
    ensures Settles(s, c, ParseType(s.g, input, fuel, t, nm, c, loop), May(s, t))
    decreases k, t, 0
  {
    hide Chain, Ranked, Aimed, MayReadNothing, ParseCase, ParseDefault, SelectCase, CasesNeed, DefaultNeed;
    var v := ValueOf(input, t.disc, c, loop);
    NamedValue(s, input, t.disc, t, c, loop);
    var i := SelectCase(t.cases, v.value);
    if i < |t.cases| {
      CaseNeeds(s, t.cases, k, i);
      assert SimpleCase(s, t.cases[i], k);
      DryCase(s, input, fuel, t.cases[i], nm, Logged(c, PendingTag(i)), loop, k);
    } else {
      DryDefault(s, input, fuel, t.dflt, nm, Logged(c, PendingTag(DefaultOrdinal(t.cases))), loop, k);
    }
    if BranchMay(s, t, v.value) { BranchOnly(s, t, v.value); }
  }

  lemma Steering(s: Setting, n: Name, env: Env)
    requires Aimed(s, env) && n in s.deciding
    ensures Steers(s, n, env)
  {}

  /** A switch that reads whatever it selects has no branch that may read nothing. */
  lemma BranchOnly(s: Setting, t: Type, v: Value)
    requires t.Switch? && BranchMay(s, t, v)
    ensures May(s, t)
  {
    hide SelectCase;
    SwitchMay(s, t);
    hide MayReadNothing;
    var i := SelectCase(t.cases, v);
    if i < |t.cases| { CaseThenSome(s, t.cases, i); }
  }

  lemma {:induction false} CaseThenSome(s: Setting, cases: seq<Case>, i: nat)
    requires i < |cases| && May(s, cases[i].target)
    ensures SomeCaseMay(s.g, cases, {}, true)
    decreases |cases|
  {
    hide MayReadNothing;
    if i > 0 { CaseThenSome(s, cases[1..], i - 1); }
  }

  lemma {:induction false} DryCase(s: Setting, input: Bytes, fuel: nat, a: Case, nm: Name, c: Core, loop: Option<int>, k: nat)
    requires Dry(s, input, c) && SimpleCase(s, a, k) && Ranked(s) && nm !in s.deciding && fuel >= Need(s, a.target, k)
    ensures Settles(s, c, ParseCase(s.g, input, fuel, a, nm, c, loop), May(s, a.target))
    decreases k, a, 0
  {
    hide ParseType, Simple, MayReadNothing, Chain, Ranked, Aimed, Need;
    DryParse(s, input, fuel, a.target, nm, c, loop, k);
  }

  lemma {:induction false} DryDefault(s: Setting, input: Bytes, fuel: nat, d: Default, nm: Name, c: Core, loop: Option<int>, k: nat)
    requires Dry(s, input, c) && SimpleDefault(s, d, k) && Ranked(s) && nm !in s.deciding && fuel >= DefaultNeed(s, d, k)
    ensures Settles(s, c, ParseDefault(s.g, input, fuel, d, nm, c, loop), d.DefaultTo? && May(s, d.target))
    decreases k, d, 0
  {
    hide ParseType, Simple, MayReadNothing, Chain, Ranked, Aimed, Need;
    if d.DefaultTo? { DryParse(s, input, fuel, d.target, nm, c, loop, k); }
  }

  lemma {:induction false} DryArms(s: Setting, input: Bytes, fuel: nat, arms: seq<Arm>, i: nat, nm: Name, c: Core, loop: Option<int>, k: nat)
    requires Dry(s, input, c) && (forall j :: 0 <= j < |arms| ==> SimpleArm(s, arms[j], k)) && Ranked(s) && nm !in s.deciding && fuel >= ArmsNeed(s, arms, k)
    ensures Settles(s, c, ParseArms(s.g, input, fuel, arms, i, nm, c, loop), SomeArmMay(s.g, arms, {}, true))
    decreases k, arms, 0
  {
    hide ParseArm, SimpleArm, ArmMay, Chain, Ranked, Aimed, ArmNeed;
    if arms != [] {
      DryArm(s, input, fuel, arms[0], i, nm, c, loop, k);
      DryArms(s, input, fuel, arms[1..], i + 1, nm, c, loop, k);
    }
  }

  lemma {:induction false} DryArm(s: Setting, input: Bytes, fuel: nat, a: Arm, i: nat, nm: Name, c: Core, loop: Option<int>, k: nat)
    requires Dry(s, input, c) && SimpleArm(s, a, k) && Ranked(s) && nm !in s.deciding && fuel >= ArmNeed(s, a, k)
    ensures Settles(s, c, ParseArm(s.g, input, fuel, a, i, nm, c, loop), ArmMay(s.g, a, {}, true))
    decreases k, a, 0
  {
    hide ParseType, ParseRule, Simple, MayReadNothing, Chain, Ranked, Aimed, Need;
    var c1 := Logged(c, OpenVariant(a.name, c.pos, i));
    if a.body.RuleRef? { DryRule(s, input, fuel, a.body.rule, c1, loop, k); } else { DryParse(s, input, fuel, a.body, nm, c1, loop, k); }
  }

  lemma {:induction false} DryArray(s: Setting, input: Bytes, fuel: nat, t: Type, nm: Name, c: Core, loop: Option<int>, k: nat)
    requires Dry(s, input, c) && t.Array? && Simple(s, t, k) && Ranked(s) && fuel >= Need(s, t, k)
    ensures Settles(s, c, ParseArray(s.g, input, fuel, t, nm, c, loop), May(s, t))
    decreases k, t, 0
  {
    hide ParseLoop, Chain, Ranked, Aimed, Simple, Need;
    var c2 := Logged(c, OpenArray(nm, c.pos));
    ArrayParts(s, t, k);
    if !t.mode.UntilEof? && Decides(s, t.bound, t) {
      DryNamed(s, input, fuel, t, nm, c, loop);
    } else if t.mode.FixedCount? {
      LiteralValue(input, t.bound, c, loop);
      if t.bound.n > 0 { DryLoop(s, input, fuel, t, t.bound.n, false, 0, c2, k); }
    }
  }

  /** A named count of zero, or an end that is reached at once. */
  lemma DryNamed(s: Setting, input: Bytes, fuel: nat, t: Type, nm: Name, c: Core, loop: Option<int>)
    requires Dry(s, input, c) && t.Array? && !t.mode.UntilEof? && Decides(s, t.bound, t)
    ensures Settles(s, c, ParseArray(s.g, input, fuel, t, nm, c, loop), true)
  {
    hide ParseLoop, Chain, Aimed, EvalExpr, ValueOf;
    if t.mode.UntilTerm? {
      NamedValue(s, input, t.bound, t, Logged(c, OpenArray(nm, c.pos)), Some(0));
    } else {
      NamedValue(s, input, t.bound, t, Logged(c, PendingCount(t.bound.name)), loop);
    }
  }

  lemma ArrayParts(s: Setting, t: Type, k: nat)
    requires t.Array? && Simple(s, t, k)
    ensures t.elemInterval.None? && t.where.None? && Simple(s, t.elem, k) && (t.sep.Some? ==> Simple(s, t.sep.value, k))
    ensures !t.mode.UntilEof? && !Decides(s, t.bound, t) ==> t.mode.FixedCount? && t.bound.IntLit? && !t.resync && (t.bound.n <= 1 || t.sep.None? || May(s, t.sep.value))
    ensures Need(s, t, k) >= Need(s, t.elem, k) + (if t.sep.Some? then Need(s, t.sep.value, k) else 0)
                             + (if t.bound.IntLit? && t.bound.n > 0 then t.bound.n else 0)
  {}

  lemma LiteralValue(input: Bytes, e: Expr, c: Core, loop: Option<int>)
    requires e.IntLit?
    ensures ValueOf(input, e, c, loop) == Some(IntV(e.n))
  {}

  /** One repeat: the separator if there is one, then the element. */
  predicate RepeatMay(s: Setting, t: Type, withSep: bool)
    requires t.Array?
  {
    (withSep && t.sep.Some? ==> May(s, t.sep.value)) && May(s, t.elem)
  }

  ghost predicate SimpleParts(s: Setting, t: Type, k: nat)
    requires t.Array?
  {
    t.elemInterval.None? && Simple(s, t.elem, k) && (t.sep.Some? ==> Simple(s, t.sep.value, k))
  }

  function PartsNeed(s: Setting, t: Type, k: nat): nat
    requires t.Array?
  {
    Need(s, t.elem, k) + (if t.sep.Some? then Need(s, t.sep.value, k) else 0)
  }

  lemma {:induction false} DryElem(s: Setting, input: Bytes, fuel: nat, t: Type, withSep: bool, i: nat, c: Core, k: nat)
    requires Dry(s, input, c) && t.Array? && SimpleParts(s, t, k) && Ranked(s) && fuel >= PartsNeed(s, t, k)
    ensures Settles(s, c, ParseElem(s.g, input, fuel, t, withSep, i, c), RepeatMay(s, t, withSep))
    decreases k, t, 0, 0
  {
    hide ParseType, Simple, MayReadNothing, Chain, Aimed, Need;
    if withSep && t.sep.Some? {
      DryParse(s, input, fuel, t.sep.value, "_", c, Some(i), k);
      var r := ParseType(s.g, input, fuel, t.sep.value, "_", c, Some(i));
      if r.Ok? { DryParse(s, input, fuel, t.elem, "", r.c, Some(i), k); }
    } else {
      DryParse(s, input, fuel, t.elem, "", c, Some(i), k);
    }
  }

  lemma {:induction false} DryLoop(s: Setting, input: Bytes, fuel: nat, t: Type, limit: int, withSep: bool, i: nat, c: Core, k: nat)
    requires Dry(s, input, c) && t.Array? && SimpleParts(s, t, k) && Ranked(s) && t.mode.FixedCount? && !t.resync && i < limit
    requires fuel >= PartsNeed(s, t, k) + (limit - i)
    requires withSep <==> i > 0
    requires limit <= 1 || t.sep.None? || May(s, t.sep.value)
    ensures var r := ParseLoop(s.g, input, fuel, t, limit, withSep, i, c);
            if May(s, t.elem) then r.Done? && r.c.pos == c.pos && r.c.wins == c.wins else r.LoopFailed?
    decreases k, t, 0, limit - i
  {
    hide ParseElem, May, Chain, Ranked, Aimed, SimpleParts, PartsNeed;
    DryElem(s, input, fuel, t, withSep, i, c, k);
    var r := ParseElem(s.g, input, fuel, t, withSep, i, c);
    if r.Ok? && i + 1 < limit { DryLoop(s, input, fuel - 1, t, limit, true, i + 1, r.c, k); }
  }

  // ── The theorems ──────────────────────────────────────────────────────

  lemma DryCore(s: Setting) returns (c: Core)
    requires Ranked(s)
    ensures Dry(s, [], c)
  {
    hide Simple, Steers, Selectable;
    var env := Steered(s, s.deciding.Keys);
    c := Core(0, env, true, [], []);
  }

  /** A type of the fragment consumes on every success, whatever the input and wherever it is
      tried, if and only if the strict check clears it. */
  lemma ConsumesIff(s: Setting, t: Type, k: nat)
    requires Simple(s, t, k) && Ranked(s)
    ensures (forall input: Bytes, fuel: nat, nm: Name, c: Core, loop: Option<int> :: Confined(input, c) ==>
               Reads(c, ParseType(s.g, input, fuel, t, nm, c, loop)))
            <==> !MayReadNothing(s.g, t, {}, true)
  {
    hide ParseType, MayReadNothing, Chain, Simple, Tame, TameGrammar, Ranked, Need, Aimed;
    if !MayReadNothing(s.g, t, {}, true) {
      SimpleTame(s, t, k);
      RulesTame(s);
      forall input: Bytes, fuel: nat, nm: Name, c: Core, loop: Option<int> | Confined(input, c)
        ensures Reads(c, ParseType(s.g, input, fuel, t, nm, c, loop))
      {
        Consumes(s.g, input, fuel, t, nm, c, loop, {}, Rules(s));
      }
    } else {
      var c := DryCore(s);
      FreeName(s);
      DryParse(s, [], Need(s, t, k), t, "", c, None, k);
      assert Confined([], c) && !Reads(c, ParseType(s.g, [], Need(s, t, k), t, "", c, None));
    }
  }

  lemma FreeName(s: Setting)
    requires Ranked(s)
    ensures "" !in s.deciding
  {}

  /** Every repeat of an `eof` or `until` array consumes, if and only if the array passes the
      check: a repeat is its separator and its element. */
  lemma RepeatsIff(s: Setting, t: Type, k: nat)
    requires t.Array? && SimpleParts(s, t, k) && Ranked(s)
    ensures (forall input: Bytes, fuel: nat, i: nat, c: Core :: Confined(input, c) ==> Reads(c, ParseElem(s.g, input, fuel, t, true, i, c)))
            <==> UnboundedOk(s.g, t, true)
  {
    hide ParseElem, MayReadNothing, Chain, Simple, Tame, TameGrammar, Ranked, PartsNeed, Aimed;
    if UnboundedOk(s.g, t, true) {
      SimpleTame(s, t.elem, k);
      if t.sep.Some? { SimpleTame(s, t.sep.value, k); }
      RulesTame(s);
      TameParts(s, t);
      forall input: Bytes, fuel: nat, i: nat, c: Core | Confined(input, c) ensures Reads(c, ParseElem(s.g, input, fuel, t, true, i, c)) {
        ElemConsumesIf(s.g, input, fuel, t, true, i, c, Rules(s));
      }
    } else {
      var c := DryCore(s);
      DryElem(s, [], PartsNeed(s, t, k), t, true, 0, c, k);
      assert Confined([], c) && !Reads(c, ParseElem(s.g, [], PartsNeed(s, t, k), t, true, 0, c));
    }
  }

  lemma TameParts(s: Setting, t: Type)
    requires t.Array? && t.elemInterval.None? && Tame(t.elem, Rules(s)) && (t.sep.Some? ==> Tame(t.sep.value, Rules(s)))
    ensures Tame(t, Rules(s))
  {}
}
