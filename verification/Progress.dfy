/** The front end's termination check, and what it buys: a type it clears always consumes,
    so unbounded arrays run out of input. */
module Progress {
  import opened Syntax
  import opened Eval
  import opened Wire
  import opened Machine
  import opened Compile
  import opened Denote
  import opened Runs
  import opened Confine

  // ── may_read_nothing ──────────────────────────────────────────────────

  function RuleNames(g: Grammar): set<Name> { set i | 0 <= i < |g| :: g[i].name }

  lemma {:induction false} RuleNamed(g: Grammar, n: Name)
    ensures RuleIndex(g, n).Some? ==> RuleIndex(g, n).value < |g| && n in RuleNames(g)
  {
    RuleIndexBound(g, n);
  }

  /** The check, with the set of rules being visited. It terminates because every rule
      entered leaves one fewer to visit. As it stands in the source it is not `strict`: it
      takes a union without variants, which is lowered to nothing, for one that reads. */
  function MayReadNothing(g: Grammar, t: Type, visiting: set<Name>, strict: bool): bool
    decreases RuleNames(g) - visiting, t, 1
  {
    match t
    case Struct(fields, _) => AllFieldsMay(g, fields, visiting, strict)
    case Choice(arms) => (strict && arms == []) || SomeArmMay(g, arms, visiting, strict)
    case Switch(_, cases, dflt) => SomeCaseMay(g, cases, visiting, strict) || DefaultMay(g, dflt, visiting, strict)
    case Array(elem, mode, bound, _, _, _, _) =>
      !mode.FixedCount? || !bound.IntLit? || bound.n <= 0 || MayReadNothing(g, elem, visiting, strict)
    case RuleRef(n) =>
      var i := RuleIndex(g, n);
      if i.None? || n in visiting then true
      else
        RuleNamed(g, n);
        MayReadNothing(g, g[i.value].body, visiting + {n}, strict)
    case Prim(_, _) => false
    case ByteRun(len, _, _) => len.None? || !len.value.IntLit? || len.value.n <= 0
    case Bitfield(_, _) => false
    case _ => true
  }

  function AllFieldsMay(g: Grammar, fields: seq<Field>, visiting: set<Name>, strict: bool): bool
    decreases RuleNames(g) - visiting, fields, 0
  {
    fields == [] || (FieldMay(g, fields[0], visiting, strict) && AllFieldsMay(g, fields[1..], visiting, strict))
  }

  function FieldMay(g: Grammar, f: Field, visiting: set<Name>, strict: bool): bool
    decreases RuleNames(g) - visiting, f, 0
  {
    MayReadNothing(g, f.body, visiting, strict)
  }

  function SomeArmMay(g: Grammar, arms: seq<Arm>, visiting: set<Name>, strict: bool): bool
    decreases RuleNames(g) - visiting, arms, 0
  {
    arms != [] && (ArmMay(g, arms[0], visiting, strict) || SomeArmMay(g, arms[1..], visiting, strict))
  }

  function ArmMay(g: Grammar, a: Arm, visiting: set<Name>, strict: bool): bool
    decreases RuleNames(g) - visiting, a, 0
  {
    MayReadNothing(g, a.body, visiting, strict)
  }

  function SomeCaseMay(g: Grammar, cases: seq<Case>, visiting: set<Name>, strict: bool): bool
    decreases RuleNames(g) - visiting, cases, 0
  {
    cases != [] && (CaseMay(g, cases[0], visiting, strict) || SomeCaseMay(g, cases[1..], visiting, strict))
  }

  function CaseMay(g: Grammar, c: Case, visiting: set<Name>, strict: bool): bool
    decreases RuleNames(g) - visiting, c, 0
  {
    MayReadNothing(g, c.target, visiting, strict)
  }

  function DefaultMay(g: Grammar, d: Default, visiting: set<Name>, strict: bool): bool
    decreases RuleNames(g) - visiting, d, 0
  {
    d.DefaultTo? && MayReadNothing(g, d.target, visiting, strict)
  }

  /** The check an `eof` or `until` array must pass: a separator that reads, or an element. */
  predicate UnboundedOk(g: Grammar, t: Type, strict: bool)
    requires t.Array?
  {
    (t.sep.Some? && !MayReadNothing(g, t.sep.value, {}, strict)) || !MayReadNothing(g, t.elem, {}, strict)
  }

  // ── Soundness ─────────────────────────────────────────────────────────

  /** Success means at least one byte was consumed. */
  predicate Reads(c: Core, r: Res) { r.Ok? ==> r.c.pos > c.pos }

  /** The check is sound: a type it clears consumes input on every success, in the fragment
      without seeks and without choices that have no arm. */
  lemma {:induction false} Consumes(g: Grammar, input: Bytes, fuel: nat, t: Type, nm: Name, c: Core, loop: Option<int>, v: set<Name>, m: Cursor)
    requires Confined(input, c) && m.Forward? && Tame(t, m) && TameGrammar(g, m)
    requires !MayReadNothing(g, t, v, true)
    ensures Reads(c, ParseType(g, input, fuel, t, nm, c, loop))
    decreases fuel, t, 4
  {
    hide EvalExpr, ParseRecord, ParseRule, ParseArms, ParseCase, ParseDefault, ParseArray, SelectCase, TameField, TameGrammar, TameCase,
         TameDefault, TameArm, Chain, ParsePrim, ParseRun, ParseBitfield, ParseCompute, Check, AllFieldsMay, SomeArmMay, SomeCaseMay, DefaultMay;
    match t
    case Struct(fields, w) => RecordConsumes(g, input, fuel, t, Logged(c, OpenStruct(nm, c.pos)), loop, v, m);
    case RuleRef(n) => RuleConsumes(g, input, fuel, n, Logged(c, OpenStruct(nm, c.pos)), loop, v, m);
    case Switch(disc, cases, dflt) =>
      var val := ValueOf(input, disc, c, loop);
      if val.Some? {
        var i := SelectCase(cases, val.value);
        if i < |cases| {
          CaseCleared(g, cases, i, v);
          CaseConsumes(g, input, fuel, cases[i], nm, Logged(c, PendingTag(i)), loop, v, m);
        }
        DefaultConsumes(g, input, fuel, dflt, nm, Logged(c, PendingTag(DefaultOrdinal(cases))), loop, v, m);
      }
    case Choice(arms) => ArmsConsume(g, input, fuel, arms, 0, nm, c, loop, v, m);
    case Array(_, _, _, _, _, _, _) => CountedConsumes(g, input, fuel, t, nm, c, loop, v, m);
    case ByteRun(_, _, _) => RunAfter(input, t, nm, c, loop); LiteralRun(input, t, c, loop);
    case Prim(_, _) => LeafAfter(g, input, fuel, t, nm, c, loop, m);
    case Bitfield(_, _) => LeafAfter(g, input, fuel, t, nm, c, loop, m);
  }

  lemma LiteralRun(input: Bytes, t: Type, c: Core, loop: Option<int>)
    requires t.ByteRun? && t.len.Some? && t.len.value.IntLit?
    ensures ValueOf(input, RunLength(t.len), c, loop) == Some(IntV(t.len.value.n))
  {}

  lemma {:induction false} CaseCleared(g: Grammar, cases: seq<Case>, i: nat, v: set<Name>)
    requires i < |cases| && !SomeCaseMay(g, cases, v, true)
    ensures !CaseMay(g, cases[i], v, true)
  {
    hide CaseMay;
    if i > 0 { CaseCleared(g, cases[1..], i - 1, v); }
  }

  lemma {:induction false} CaseConsumes(g: Grammar, input: Bytes, fuel: nat, k: Case, nm: Name, c: Core, loop: Option<int>, v: set<Name>, m: Cursor)
    requires Confined(input, c) && TameCase(k, m) && m.Forward? && TameGrammar(g, m) && !CaseMay(g, k, v, true)
    ensures Reads(c, ParseCase(g, input, fuel, k, nm, c, loop))
    decreases fuel, k, 0
  {
    hide ParseType, Tame, TameGrammar, MayReadNothing;
    Consumes(g, input, fuel, k.target, nm, c, loop, v, m);
  }

  lemma {:induction false} DefaultConsumes(g: Grammar, input: Bytes, fuel: nat, d: Default, nm: Name, c: Core, loop: Option<int>, v: set<Name>, m: Cursor)
    requires Confined(input, c) && TameDefault(d, m) && m.Forward? && TameGrammar(g, m) && !DefaultMay(g, d, v, true)
    ensures Reads(c, ParseDefault(g, input, fuel, d, nm, c, loop))
    decreases fuel, d, 0
  {
    hide ParseType, Tame, TameGrammar, MayReadNothing;
    if d.DefaultTo? { Consumes(g, input, fuel, d.target, nm, c, loop, v, m); }
  }

  lemma {:induction false} ArmsConsume(g: Grammar, input: Bytes, fuel: nat, arms: seq<Arm>, i: nat, nm: Name, c: Core, loop: Option<int>, v: set<Name>, m: Cursor)
    requires Confined(input, c) && (forall j :: 0 <= j < |arms| ==> TameArm(arms[j], m)) && m.Forward? && TameGrammar(g, m) && !SomeArmMay(g, arms, v, true)
    ensures Reads(c, ParseArms(g, input, fuel, arms, i, nm, c, loop))
    decreases fuel, arms, 0
  {
    hide ParseArm, TameArm, TameGrammar, ArmMay;
    if arms != [] {
      ArmConsumes(g, input, fuel, arms[0], i, nm, c, loop, v, m);
      ArmsConsume(g, input, fuel, arms[1..], i + 1, nm, c, loop, v, m);
    }
  }

  lemma {:induction false} ArmConsumes(g: Grammar, input: Bytes, fuel: nat, a: Arm, tag: nat, nm: Name, c: Core, loop: Option<int>, v: set<Name>, m: Cursor)
    requires Confined(input, c) && TameArm(a, m) && m.Forward? && TameGrammar(g, m) && !ArmMay(g, a, v, true)
    ensures Reads(c, ParseArm(g, input, fuel, a, tag, nm, c, loop))
    decreases fuel, a, 0
  {
    hide ParseType, ParseRule, TameGrammar, Chain;
    var c1 := Logged(c, OpenVariant(a.name, c.pos, tag));
    if a.body.RuleRef? {
      RuleConsumes(g, input, fuel, a.body.rule, c1, loop, v, m);
    } else {
      Consumes(g, input, fuel, a.body, nm, c1, loop, v, m);
    }
  }

  /** A struct consumes if one of its fields must: the others do not move back. */
  lemma {:induction false} RecordConsumes(g: Grammar, input: Bytes, fuel: nat, t: Type, c: Core, loop: Option<int>, v: set<Name>, m: Cursor)
    requires Confined(input, c) && t.Struct? && m.Forward? && Tame(t, m) && TameGrammar(g, m) && !AllFieldsMay(g, t.fields, v, true)
    ensures Reads(c, ParseRecord(g, input, fuel, t, c, loop))
    decreases fuel, t, 1
  {
    hide ParseChain, TameField, TameGrammar, Chain, Check, AllFieldsMay;
    ChainConsumes(g, input, fuel, t.fields, c, loop, v, m);
    ChainAfter(g, input, fuel, t.fields, c, loop, m);
    var r := ParseChain(g, input, fuel, t.fields, c, loop);
    if r.Ok? && HasRest(t.fields) { CloseConfined(input, c, r.c, true); }
    var r2 := ParseFields(g, input, fuel, t.fields, c, loop);
    if r2.Ok? { CheckAfter(input, t.where, r2.c, loop); }
  }

  lemma {:induction false} ChainConsumes(g: Grammar, input: Bytes, fuel: nat, fields: seq<Field>, c: Core, loop: Option<int>, v: set<Name>, m: Cursor)
    requires Confined(input, c) && RestOnce(fields) && (forall i :: 0 <= i < |fields| ==> TameField(fields[i], m))
    requires m.Forward? && TameGrammar(g, m) && !AllFieldsMay(g, fields, v, true)
    ensures Reads(c, ParseChain(g, input, fuel, fields, c, loop))
    decreases fuel, fields, 0
  {
    hide ParseField, TameField, TameGrammar, Chain, HasRest, FieldMay;
    RestOnceSplit(fields);
    FieldAfter(g, input, fuel, fields[0], c, loop, m);
    var r := ParseField(g, input, fuel, fields[0], c, loop);
    if r.Ok? {
      ChainAfter(g, input, fuel, fields[1..], r.c, loop, m);
      if FieldMay(g, fields[0], v, true) {
        ChainConsumes(g, input, fuel, fields[1..], r.c, loop, v, m);
      } else {
        FieldConsumes(g, input, fuel, fields[0], c, loop, v, m);
      }
    }
  }

  lemma {:induction false} FieldConsumes(g: Grammar, input: Bytes, fuel: nat, f: Field, c: Core, loop: Option<int>, v: set<Name>, m: Cursor)
    requires Confined(input, c) && TameField(f, m) && m.Forward? && TameGrammar(g, m) && !FieldMay(g, f, v, true)
    ensures Reads(c, ParseField(g, input, fuel, f, c, loop))
    decreases fuel, f, 0
  {
    hide ParseType, Tame, TameGrammar, Chain, OpenInterval, OpenRelative, CloseWindow, MayReadNothing;
    if f.rest {
      Consumes(g, input, fuel, f.body, f.name, c, loop, v, m);
      TypeAfter(g, input, fuel, f.body, f.name, c, loop, m);
      var r := ParseType(g, input, fuel, f.body, f.name, c, loop);
      if r.Ok? { RelativeConfined(input, r.c, Ref(f.name), loop); }
    } else if f.interval.Some? {
      WindowedConsumes(g, input, fuel, f.body, f.interval.value, f.name, c, loop, v, m);
    } else {
      Consumes(g, input, fuel, f.body, f.name, c, loop, v, m);
    }
  }

  lemma {:induction false} WindowedConsumes(g: Grammar, input: Bytes, fuel: nat, t: Type, iv: Interval, nm: Name, c: Core, loop: Option<int>, v: set<Name>, m: Cursor)
    requires Confined(input, c) && m.Forward? && Tame(t, m) && TameGrammar(g, m) && iv.Length? && !MayReadNothing(g, t, v, true)
    ensures var o := OpenInterval(input, c, iv, loop);
            o.Ok? ==> var b := ParseType(g, input, fuel, t, nm, o.c, loop);
                      b.Ok? ==> Reads(c, CloseWindow(input, b.c, false))
    decreases fuel, t, 5
  {
    hide ParseType, Tame, TameGrammar, Chain, OpenInterval, MayReadNothing;
    IntervalConfined(input, c, iv, loop, true);
    var o := OpenInterval(input, c, iv, loop);
    if o.Ok? {
      Consumes(g, input, fuel, t, nm, o.c, loop, v, m);
    }
  }

  lemma {:induction false} RuleConsumes(g: Grammar, input: Bytes, fuel: nat, n: Name, c: Core, loop: Option<int>, v: set<Name>, m: Cursor)
    requires Confined(input, c) && m.Forward? && TameGrammar(g, m) && n in m.rules && !MayReadNothing(g, RuleRef(n), v, true)
    ensures Reads(c, ParseRule(g, input, fuel, n, c, loop))
    decreases fuel, RuleRef(n), 0
  {
    hide ParseBody, Tame, Chain;
    if fuel > 0 {
      RuleNamed(g, n);
      RuleIndexBound(g, n);
      BodyConsumes(g, input, fuel - 1, g[RuleIndex(g, n).value].body, c, loop, v + {n}, m);
    }
  }

  lemma {:induction false} BodyConsumes(g: Grammar, input: Bytes, fuel: nat, t: Type, c: Core, loop: Option<int>, v: set<Name>, m: Cursor)
    requires Confined(input, c) && m.Forward? && Tame(t, m) && TameGrammar(g, m) && !MayReadNothing(g, t, v, true)
    ensures Reads(c, ParseBody(g, input, fuel, t, c, loop))
    decreases fuel, t, 5
  {
    hide ParseType, ParseRecord, ParseBitfield, TameGrammar, Chain;
    if t.Struct? {
      RecordConsumes(g, input, fuel, t, c, loop, v, m);
    } else if t.Bitfield? {
      BitsAfter(input, t.container, t.entries, c, loop);
    } else {
      Consumes(g, input, fuel, t, "", c, loop, v, m);
    }
  }

  /** A positive literal count of an element that consumes. */
  lemma {:induction false} CountedConsumes(g: Grammar, input: Bytes, fuel: nat, t: Type, nm: Name, c: Core, loop: Option<int>, v: set<Name>, m: Cursor)
    requires Confined(input, c) && t.Array? && m.Forward? && Tame(t, m) && TameGrammar(g, m) && !MayReadNothing(g, t, v, true)
    ensures Reads(c, ParseType(g, input, fuel, t, nm, c, loop))
    decreases fuel, t, 3
  {
    hide ParseElem, ParseLoop, TameGrammar, Chain, Check, MayReadNothing, Tame;
    ArrayCleared(g, t, v);
    var c2 := Logged(c, OpenArray(nm, c.pos));
    LoopConsumes(g, input, fuel, t, t.bound.n, false, 0, c2, v, m);
    assert ValueOf(input, t.bound, c, loop) == Some(IntV(t.bound.n));
    assert ParseItems(g, input, fuel, t, nm, c, loop) == ParseLoop(g, input, fuel, t, t.bound.n, false, 0, c2);
    var r := ParseArray(g, input, fuel, t, nm, c, loop);
    if r.Ok? { CheckAfter(input, t.where, r.c, loop); }
  }

  lemma ArrayCleared(g: Grammar, t: Type, v: set<Name>)
    requires t.Array? && !MayReadNothing(g, t, v, true)
    ensures t.mode.FixedCount? && t.bound.IntLit? && t.bound.n > 0 && !MayReadNothing(g, t.elem, v, true)
  {}

  lemma {:induction false} LoopConsumes(g: Grammar, input: Bytes, fuel: nat, t: Type, limit: int, withSep: bool, i: nat, c: Core, v: set<Name>, m: Cursor)
    requires Confined(input, c) && t.Array? && t.mode.FixedCount? && m.Forward? && Tame(t, m) && TameGrammar(g, m) && !MayReadNothing(g, t.elem, v, true)
    requires i < limit
    ensures var r := ParseLoop(g, input, fuel, t, limit, withSep, i, c); r.Done? ==> r.c.pos > c.pos
    decreases fuel, t, 1
  {
    hide ParseElem, Tame, TameGrammar, Chain, MayReadNothing;
    ElemAfter(g, input, fuel, t, withSep, i, c, m);
    ElemConsumes(g, input, fuel, t, withSep, i, c, v, m);
    var r := ParseElem(g, input, fuel, t, withSep, i, c);
    if r.Ok? && fuel > 0 && i + 1 < limit {
      LoopConsumes(g, input, fuel - 1, t, limit, true, i + 1, r.c, v, m);
    }
    if r.Failed? && fuel > 0 && c.pos < CoreHi(input, c) {
      LoopConsumes(g, input, fuel - 1, t, limit, true, i, c.(pos := c.pos + 1), v, m);
    }
  }

  lemma {:induction false} ElemConsumes(g: Grammar, input: Bytes, fuel: nat, t: Type, withSep: bool, i: nat, c: Core, v: set<Name>, m: Cursor)
    requires Confined(input, c) && t.Array? && m.Forward? && Tame(t, m) && TameGrammar(g, m)
    requires !MayReadNothing(g, t.elem, v, true) || (withSep && t.sep.Some? && !MayReadNothing(g, t.sep.value, v, true))
    ensures Reads(c, ParseElem(g, input, fuel, t, withSep, i, c))
    decreases fuel, t, 0
  {
    hide ParseType, TameGrammar, Chain, OpenInterval, CloseWindow, MayReadNothing;
    var r := if withSep && t.sep.Some? then ParseType(g, input, fuel, t.sep.value, "_", c, Some(i)) else Ok(c);
    if withSep && t.sep.Some? {
      TypeAfter(g, input, fuel, t.sep.value, "_", c, Some(i), m);
      if !MayReadNothing(g, t.sep.value, v, true) { Consumes(g, input, fuel, t.sep.value, "_", c, Some(i), v, m); }
    }
    if r.Ok? {
      if t.elemInterval.Some? {
        WindowedAfter(g, input, fuel, t.elem, t.elemInterval.value, "", r.c, Some(i), m);
        if !MayReadNothing(g, t.elem, v, true) { WindowedConsumes(g, input, fuel, t.elem, t.elemInterval.value, "", r.c, Some(i), v, m); }
      } else {
        TypeAfter(g, input, fuel, t.elem, "", r.c, Some(i), m);
        if !MayReadNothing(g, t.elem, v, true) { Consumes(g, input, fuel, t.elem, "", r.c, Some(i), v, m); }
      }
    }
  }

  // ── Unbounded arrays ──────────────────────────────────────────────────

  /** An accepted `eof` or `until` array completes at most one element more than the bytes
      left in its window. */
  lemma {:induction false} UnboundedCount(g: Grammar, input: Bytes, fuel: nat, t: Type, limit: int, withSep: bool, i: nat, c: Core, m: Cursor)
    requires Confined(input, c) && t.Array? && !t.mode.FixedCount? && m.Forward? && Tame(t, m) && TameGrammar(g, m) && UnboundedOk(g, t, true)
    ensures var r := ParseLoop(g, input, fuel, t, limit, withSep, i, c);
            r.Done? ==> r.count - i <= CoreHi(input, c) - c.pos + (if withSep then 0 else 1)
    decreases fuel
  {
    hide ParseElem, Tame, TameGrammar, Chain, MayReadNothing, StopTest;
    ElemAfter(g, input, fuel, t, withSep, i, c, m);
    ElemConsumesIf(g, input, fuel, t, withSep, i, c, m);
    var r := ParseElem(g, input, fuel, t, withSep, i, c);
    if r.Ok? && fuel > 0 {
      UnboundedCount(g, input, fuel - 1, t, limit, true, i + 1, r.c, m);
    }
    if r.Failed? && fuel > 0 && c.pos < CoreHi(input, c) {
      UnboundedCount(g, input, fuel - 1, t, limit, true, i, c.(pos := c.pos + 1), m);
    }
  }

  lemma ElemConsumesIf(g: Grammar, input: Bytes, fuel: nat, t: Type, withSep: bool, i: nat, c: Core, m: Cursor)
    requires Confined(input, c) && t.Array? && m.Forward? && Tame(t, m) && TameGrammar(g, m) && UnboundedOk(g, t, true)
    ensures withSep ==> Reads(c, ParseElem(g, input, fuel, t, withSep, i, c))
  {
    hide ParseElem, Tame, TameGrammar, Chain, MayReadNothing;
    if withSep { ElemConsumes(g, input, fuel, t, withSep, i, c, {}, m); }
  }

  // ── The two checks ────────────────────────────────────────────────────

  /** No union without variants, here or in a rule called. */
  predicate Populated(t: Type, us: set<Name>)
    decreases t, 0
  {
    match t
    case Struct(fields, _) => forall i :: 0 <= i < |fields| ==> PopulatedField(fields[i], us)
    case RuleRef(n) => n in us
    case Optional(e, _) => Populated(e, us)
    case Switch(_, cases, d) =>
      (forall i :: 0 <= i < |cases| ==> PopulatedCase(cases[i], us)) && PopulatedDefault(d, us)
    case Choice(arms) => arms != [] && forall i :: 0 <= i < |arms| ==> PopulatedArm(arms[i], us)
    case Array(e, _, _, sep, _, _, _) => Populated(e, us) && (sep.Some? ==> Populated(sep.value, us))
    case _ => true
  }

  predicate PopulatedField(f: Field, us: set<Name>) decreases f, 0 { Populated(f.body, us) }
  predicate PopulatedCase(c: Case, us: set<Name>) decreases c, 0 { Populated(c.target, us) }
  predicate PopulatedArm(a: Arm, us: set<Name>) decreases a, 0 { Populated(a.body, us) }
  predicate PopulatedDefault(d: Default, us: set<Name>) decreases d, 0 { d.DefaultTo? ==> Populated(d.target, us) }

  predicate PopulatedGrammar(g: Grammar, us: set<Name>) {
    forall i :: 0 <= i < |g| && g[i].name in us ==> Populated(g[i].body, us)
  }

  /** Whatever the strict check clears the check clears, and the two are one where no union
      without variants can be reached. */
  lemma {:induction false} Checks(g: Grammar, t: Type, v: set<Name>, us: set<Name>)
    ensures MayReadNothing(g, t, v, false) ==> MayReadNothing(g, t, v, true)
    ensures Populated(t, us) && PopulatedGrammar(g, us) ==> MayReadNothing(g, t, v, true) == MayReadNothing(g, t, v, false)
    decreases RuleNames(g) - v, t, 1
  {
    hide PopulatedGrammar, AllFieldsMay, SomeArmMay, SomeCaseMay, DefaultMay, PopulatedField, PopulatedCase, PopulatedArm, PopulatedDefault;
    match t
    case Struct(fields, _) => FieldChecks(g, fields, v, us);
    case Choice(arms) => ArmChecks(g, arms, v, us);
    case Switch(_, cases, dflt) => CaseChecks(g, cases, v, us); DefaultChecks(g, dflt, v, us);
    case Array(elem, _, _, _, _, _, _) => Checks(g, elem, v, us);
    case RuleRef(n) =>
      var i := RuleIndex(g, n);
      if i.Some? && n !in v {
        RuleNamed(g, n);
        RuleIndexBound(g, n);
        Checks(g, g[i.value].body, v + {n}, us);
        PopulatedRule(g, i.value, us);
      }
    case _ =>
  }

  lemma PopulatedRule(g: Grammar, i: nat, us: set<Name>)
    requires i < |g|
    ensures PopulatedGrammar(g, us) && g[i].name in us ==> Populated(g[i].body, us)
  {}

  lemma {:induction false} FieldChecks(g: Grammar, fields: seq<Field>, v: set<Name>, us: set<Name>)
    ensures AllFieldsMay(g, fields, v, false) ==> AllFieldsMay(g, fields, v, true)
    ensures (forall i :: 0 <= i < |fields| ==> PopulatedField(fields[i], us)) && PopulatedGrammar(g, us)
            ==> AllFieldsMay(g, fields, v, true) == AllFieldsMay(g, fields, v, false)
    decreases RuleNames(g) - v, fields, 0
  {
    hide PopulatedGrammar, MayReadNothing, Populated;
    if fields != [] {
      Checks(g, fields[0].body, v, us);
      FieldChecks(g, fields[1..], v, us);
      if forall i :: 0 <= i < |fields| ==> PopulatedField(fields[i], us) {
        forall i | 0 <= i < |fields[1..]| ensures PopulatedField(fields[1..][i], us) { assert fields[1..][i] == fields[i + 1]; }
      }
    }
  }

  lemma {:induction false} ArmChecks(g: Grammar, arms: seq<Arm>, v: set<Name>, us: set<Name>)
    ensures SomeArmMay(g, arms, v, false) ==> SomeArmMay(g, arms, v, true)
    ensures (forall i :: 0 <= i < |arms| ==> PopulatedArm(arms[i], us)) && PopulatedGrammar(g, us)
            ==> SomeArmMay(g, arms, v, true) == SomeArmMay(g, arms, v, false)
    decreases RuleNames(g) - v, arms, 0
  {
    hide PopulatedGrammar, MayReadNothing, Populated;
    if arms != [] {
      Checks(g, arms[0].body, v, us);
      ArmChecks(g, arms[1..], v, us);
      if forall i :: 0 <= i < |arms| ==> PopulatedArm(arms[i], us) {
        forall i | 0 <= i < |arms[1..]| ensures PopulatedArm(arms[1..][i], us) { assert arms[1..][i] == arms[i + 1]; }
      }
    }
  }

  lemma {:induction false} CaseChecks(g: Grammar, cases: seq<Case>, v: set<Name>, us: set<Name>)
    ensures SomeCaseMay(g, cases, v, false) ==> SomeCaseMay(g, cases, v, true)
    ensures (forall i :: 0 <= i < |cases| ==> PopulatedCase(cases[i], us)) && PopulatedGrammar(g, us)
            ==> SomeCaseMay(g, cases, v, true) == SomeCaseMay(g, cases, v, false)
    decreases RuleNames(g) - v, cases, 0
  {
    hide PopulatedGrammar, MayReadNothing, Populated;
    if cases != [] {
      CaseCheck(g, cases[0], v, us);
      CaseChecks(g, cases[1..], v, us);
      if forall i :: 0 <= i < |cases| ==> PopulatedCase(cases[i], us) {
        forall i | 0 <= i < |cases[1..]| ensures PopulatedCase(cases[1..][i], us) { assert cases[1..][i] == cases[i + 1]; }
      }
    }
  }

  lemma {:induction false} CaseCheck(g: Grammar, c: Case, v: set<Name>, us: set<Name>)
    ensures CaseMay(g, c, v, false) ==> CaseMay(g, c, v, true)
    ensures PopulatedCase(c, us) && PopulatedGrammar(g, us) ==> CaseMay(g, c, v, true) == CaseMay(g, c, v, false)
    decreases RuleNames(g) - v, c, 0
  {
    hide PopulatedGrammar, MayReadNothing, Populated;
    Checks(g, c.target, v, us);
  }

  lemma {:induction false} DefaultChecks(g: Grammar, d: Default, v: set<Name>, us: set<Name>)
    ensures DefaultMay(g, d, v, false) ==> DefaultMay(g, d, v, true)
    ensures PopulatedDefault(d, us) && PopulatedGrammar(g, us) ==> DefaultMay(g, d, v, true) == DefaultMay(g, d, v, false)
    decreases RuleNames(g) - v, d, 0
  {
    hide PopulatedGrammar, MayReadNothing, Populated;
    if d.DefaultTo? { Checks(g, d.target, v, us); }
  }
}
