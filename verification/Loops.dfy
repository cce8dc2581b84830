/** Exactness and termination of array loops, and exact sizing of @rest structs. */
module Loops {
  import opened Syntax
  import opened Eval
  import opened Wire
  import opened Machine
  import opened Compile
  import opened Denote
  import opened Runs
  import opened Confine
  import opened Progress

  // ── Fuel ──────────────────────────────────────────────────────────────

  /** An answer reached with some fuel is the answer with any more. */
  lemma {:induction false} TypeFuel(g: Grammar, input: Bytes, f: nat, f': nat, t: Type, nm: Name, c: Core, loop: Option<int>)
    requires f <= f' && !ParseType(g, input, f, t, nm, c, loop).Out?
    ensures ParseType(g, input, f', t, nm, c, loop) == ParseType(g, input, f, t, nm, c, loop)
    decreases f, t, 4
  {
    hide EvalExpr, ParseRecord, ParseRule, ParseArms, ParseCase, ParseDefault, ParseArray, SelectCase, ParsePrim, ParseRun, ParseBitfield,
         ParseCompute, Check;
    match t
    case Struct(_, _) => RecordFuel(g, input, f, f', t, Logged(c, OpenStruct(nm, c.pos)), loop);
    case RuleRef(n) => RuleFuel(g, input, f, f', n, Logged(c, OpenStruct(nm, c.pos)), loop);
    case Optional(elem, pred) =>
      if !ParseType(g, input, f, elem, nm, c, loop).Out? { TypeFuel(g, input, f, f', elem, nm, c, loop); }
    case Switch(disc, cases, dflt) =>
      var v := ValueOf(input, disc, c, loop);
      if v.Some? && v.value != Null {
        var i := SelectCase(cases, v.value);
        if i < |cases| {
          CaseFuel(g, input, f, f', cases[i], nm, Logged(c, PendingTag(i)), loop);
        } else {
          DefaultFuel(g, input, f, f', dflt, nm, Logged(c, PendingTag(DefaultOrdinal(cases))), loop);
        }
      }
    case Choice(arms) => if arms != [] { ArmsFuel(g, input, f, f', arms, 0, nm, c, loop); }
    case Array(_, _, _, _, _, _, _) => ArrayFuel(g, input, f, f', t, nm, c, loop);
    case _ =>
  }

  lemma {:induction false} CaseFuel(g: Grammar, input: Bytes, f: nat, f': nat, k: Case, nm: Name, c: Core, loop: Option<int>)
    requires f <= f' && !ParseCase(g, input, f, k, nm, c, loop).Out?
    ensures ParseCase(g, input, f', k, nm, c, loop) == ParseCase(g, input, f, k, nm, c, loop)
    decreases f, k, 0
  {
    hide ParseType;
    TypeFuel(g, input, f, f', k.target, nm, c, loop);
  }

  lemma {:induction false} DefaultFuel(g: Grammar, input: Bytes, f: nat, f': nat, d: Default, nm: Name, c: Core, loop: Option<int>)
    requires f <= f' && !ParseDefault(g, input, f, d, nm, c, loop).Out?
    ensures ParseDefault(g, input, f', d, nm, c, loop) == ParseDefault(g, input, f, d, nm, c, loop)
    decreases f, d, 0
  {
    hide ParseType;
    if d.DefaultTo? { TypeFuel(g, input, f, f', d.target, nm, c, loop); }
  }

  lemma {:induction false} ArmsFuel(g: Grammar, input: Bytes, f: nat, f': nat, arms: seq<Arm>, i: nat, nm: Name, c: Core, loop: Option<int>)
    requires f <= f' && !ParseArms(g, input, f, arms, i, nm, c, loop).Out?
    ensures ParseArms(g, input, f', arms, i, nm, c, loop) == ParseArms(g, input, f, arms, i, nm, c, loop)
    decreases f, arms, 0
  {
    hide ParseArm;
    if arms != [] {
      ArmFuel(g, input, f, f', arms[0], i, nm, c, loop);
      if ParseArm(g, input, f, arms[0], i, nm, c, loop).Failed? {
        ArmsFuel(g, input, f, f', arms[1..], i + 1, nm, c, loop);
      }
    }
  }

  lemma {:induction false} ArmFuel(g: Grammar, input: Bytes, f: nat, f': nat, a: Arm, tag: nat, nm: Name, c: Core, loop: Option<int>)
    requires f <= f' && !ParseArm(g, input, f, a, tag, nm, c, loop).Out?
    ensures ParseArm(g, input, f', a, tag, nm, c, loop) == ParseArm(g, input, f, a, tag, nm, c, loop)
    decreases f, a, 0
  {
    hide ParseType, ParseRule;
    var c1 := Logged(c, OpenVariant(a.name, c.pos, tag));
    if a.body.RuleRef? {
      RuleFuel(g, input, f, f', a.body.rule, c1, loop);
    } else {
      TypeFuel(g, input, f, f', a.body, nm, c1, loop);
    }
  }

  lemma {:induction false} RecordFuel(g: Grammar, input: Bytes, f: nat, f': nat, t: Type, c: Core, loop: Option<int>)
    requires t.Struct? && f <= f' && !ParseRecord(g, input, f, t, c, loop).Out?
    ensures ParseRecord(g, input, f', t, c, loop) == ParseRecord(g, input, f, t, c, loop)
    decreases f, t, 1
  {
    hide ParseChain, Check, HasRest, CloseWindow;
    ChainFuel(g, input, f, f', t.fields, c, loop);
  }

  lemma {:induction false} ChainFuel(g: Grammar, input: Bytes, f: nat, f': nat, fields: seq<Field>, c: Core, loop: Option<int>)
    requires f <= f' && !ParseChain(g, input, f, fields, c, loop).Out?
    ensures ParseChain(g, input, f', fields, c, loop) == ParseChain(g, input, f, fields, c, loop)
    decreases f, fields, 0
  {
    hide ParseField;
    if fields != [] {
      FieldFuel(g, input, f, f', fields[0], c, loop);
      var r := ParseField(g, input, f, fields[0], c, loop);
      if r.Ok? { ChainFuel(g, input, f, f', fields[1..], r.c, loop); }
    }
  }

  lemma {:induction false} FieldFuel(g: Grammar, input: Bytes, f: nat, f': nat, x: Field, c: Core, loop: Option<int>)
    requires f <= f' && !ParseField(g, input, f, x, c, loop).Out?
    ensures ParseField(g, input, f', x, c, loop) == ParseField(g, input, f, x, c, loop)
    decreases f, x, 0
  {
    hide ParseType, OpenInterval, OpenRelative, CloseWindow;
    var o := if !x.rest && x.interval.Some? then OpenInterval(input, c, x.interval.value, loop) else Ok(c);
    if o.Ok? { TypeFuel(g, input, f, f', x.body, x.name, o.c, loop); }
  }

  lemma {:induction false} RuleFuel(g: Grammar, input: Bytes, f: nat, f': nat, n: Name, c: Core, loop: Option<int>)
    requires f <= f' && !ParseRule(g, input, f, n, c, loop).Out?
    ensures ParseRule(g, input, f', n, c, loop) == ParseRule(g, input, f, n, c, loop)
    decreases f, RuleRef(n), 0
  {
    hide ParseBody;
    RuleIndexBound(g, n);
    if RuleIndex(g, n).Some? { BodyFuel(g, input, f - 1, f' - 1, g[RuleIndex(g, n).value].body, c, loop); }
  }

  lemma {:induction false} BodyFuel(g: Grammar, input: Bytes, f: nat, f': nat, t: Type, c: Core, loop: Option<int>)
    requires f <= f' && !ParseBody(g, input, f, t, c, loop).Out?
    ensures ParseBody(g, input, f', t, c, loop) == ParseBody(g, input, f, t, c, loop)
    decreases f, t, 5
  {
    hide ParseType, ParseRecord, ParseBitfield;
    match t
    case Struct(_, _) => RecordFuel(g, input, f, f', t, c, loop);
    case Bitfield(_, _) =>
    case _ => TypeFuel(g, input, f, f', t, "", c, loop);
  }

  lemma {:induction false} ElemFuel(g: Grammar, input: Bytes, f: nat, f': nat, t: Type, withSep: bool, i: nat, c: Core)
    requires t.Array? && f <= f' && !ParseElem(g, input, f, t, withSep, i, c).Out?
    ensures ParseElem(g, input, f', t, withSep, i, c) == ParseElem(g, input, f, t, withSep, i, c)
    decreases f, t, 0
  {
    hide ParseType, OpenInterval, CloseWindow;
    var sep := withSep && t.sep.Some?;
    if sep { TypeFuel(g, input, f, f', t.sep.value, "_", c, Some(i)); }
    var r := if sep then ParseType(g, input, f, t.sep.value, "_", c, Some(i)) else Ok(c);
    if r.Ok? {
      var o := if t.elemInterval.Some? then OpenInterval(input, r.c, t.elemInterval.value, Some(i)) else r;
      if o.Ok? { TypeFuel(g, input, f, f', t.elem, "", o.c, Some(i)); }
    }
  }

  lemma {:induction false} LoopFuel(g: Grammar, input: Bytes, f: nat, f': nat, t: Type, limit: int, withSep: bool, i: nat, c: Core)
    requires t.Array? && f <= f' && !ParseLoop(g, input, f, t, limit, withSep, i, c).LoopOut?
    ensures ParseLoop(g, input, f', t, limit, withSep, i, c) == ParseLoop(g, input, f, t, limit, withSep, i, c)
    decreases f, t, 1
  {
    hide ParseElem, StopTest;
    ElemFuel(g, input, f, f', t, withSep, i, c);
    var r := ParseElem(g, input, f, t, withSep, i, c);
    if r.Ok? && f > 0 && StopTest(input, t, limit, i + 1, r.c) == Some(false) {
      LoopFuel(g, input, f - 1, f' - 1, t, limit, true, i + 1, r.c);
    }
    if r.Failed? && f > 0 && t.resync && c.pos < CoreHi(input, c) {
      LoopFuel(g, input, f - 1, f' - 1, t, limit, true, i, c.(pos := c.pos + 1));
    }
  }

  lemma {:induction false} ArrayFuel(g: Grammar, input: Bytes, f: nat, f': nat, t: Type, nm: Name, c: Core, loop: Option<int>)
    requires t.Array? && f <= f' && !ParseArray(g, input, f, t, nm, c, loop).Out?
    ensures ParseArray(g, input, f', t, nm, c, loop) == ParseArray(g, input, f, t, nm, c, loop)
    decreases f, t, 3
  {
    hide ParseLoop, StopTest, EvalExpr;
    if t.mode.FixedCount? || t.mode.CountTerm? {
      var c1 := if t.bound.Ref? then Logged(c, PendingCount(t.bound.name)) else c;
      var v := ValueOf(input, t.bound, c1, loop);
      if v.Some? && v.value.IntV? && v.value.i > 0 {
        LoopFuel(g, input, f, f', t, v.value.i, false, 0, Logged(c1, OpenArray(nm, c1.pos)));
      }
    } else {
      var c2 := Logged(c, OpenArray(nm, c.pos));
      if StopTest(input, t, -1, 0, c2) == Some(false) { LoopFuel(g, input, f, f', t, -1, false, 0, c2); }
    }
  }

  // ── Fixed counts are exact ────────────────────────────────────────────

  lemma {:induction false} FixedLoopExact(g: Grammar, input: Bytes, fuel: nat, t: Type, limit: int, withSep: bool, i: nat, c: Core)
    requires t.Array? && t.mode.FixedCount? && i < limit
    ensures var r := ParseLoop(g, input, fuel, t, limit, withSep, i, c); r.Done? ==> r.count == limit
    decreases fuel
  {
    hide ParseElem;
    var r := ParseElem(g, input, fuel, t, withSep, i, c);
    if r.Ok? && fuel > 0 && i + 1 < limit {
      FixedLoopExact(g, input, fuel - 1, t, limit, true, i + 1, r.c);
    }
    if r.Failed? && fuel > 0 {
      FixedLoopExact(g, input, fuel - 1, t, limit, true, i, c.(pos := c.pos + 1));
    }
  }

  /** A fixed-count array that completes has completed exactly max(0, n) elements, with or
      without resync: running out of input with fewer is a failure, never a short array. */
  lemma FixedCountExact(g: Grammar, input: Bytes, fuel: nat, t: Type, nm: Name, c: Core, loop: Option<int>)
    requires t.Array? && t.mode.FixedCount?
    ensures var r := ParseItems(g, input, fuel, t, nm, c, loop);
            r.Done? ==> exists n :: ValueOf(input, t.bound, if t.bound.Ref? then Logged(c, PendingCount(t.bound.name)) else c, loop) == Some(IntV(n))
                                    && r.count == (if n < 0 then 0 else n)
  {
    hide ParseLoop, EvalExpr;
    var c1 := if t.bound.Ref? then Logged(c, PendingCount(t.bound.name)) else c;
    var v := ValueOf(input, t.bound, c1, loop);
    if v.Some? && v.value.IntV? && v.value.i > 0 {
      FixedLoopExact(g, input, fuel, t, v.value.i, false, 0, Logged(c1, OpenArray(nm, c1.pos)));
    }
  }

  // ── Loops end ─────────────────────────────────────────────────────────

  /** Within a window, every iteration body has an answer with fuel f. */
  ghost predicate BodiesAnswer(g: Grammar, input: Bytes, t: Type, f: nat, wins: seq<Win>)
    requires t.Array?
  {
    forall withSep: bool, i: nat, c: Core :: c.wins == wins && Confined(input, c) ==> !ParseElem(g, input, f, t, withSep, i, c).Out?
  }

  /** What is left for a loop to do: elements still due, or bytes that can still be read. */
  function Work(input: Bytes, t: Type, limit: int, withSep: bool, i: nat, c: Core): int
    requires t.Array?
  {
    if t.mode.FixedCount? then limit - i + (if t.resync then CoreHi(input, c) - c.pos else 0)
    else CoreHi(input, c) - c.pos + (if withSep then 0 else 1)
  }

  /** The number of attempts is bounded by the work: given answers for each body at fuel f,
      the loop has one at f plus its work. A counted loop needs nothing of its element; an
      `eof` or `until` loop needs the termination check. */
  lemma {:induction false} LoopEnds(g: Grammar, input: Bytes, f: nat, k: nat, t: Type, limit: int, withSep: bool, i: nat, c: Core, m: Cursor)
    requires Confined(input, c) && t.Array? && Tame(t, m) && TameGrammar(g, m) && (m.Forward? || (t.mode.FixedCount? && !t.resync))
    requires t.mode.FixedCount? || ((t.mode.UntilEof? || t.mode.UntilTerm?) && UnboundedOk(g, t, true))
    requires BodiesAnswer(g, input, t, f, c.wins) && Work(input, t, limit, withSep, i, c) <= k
    requires t.mode.FixedCount? ==> i < limit
    ensures !ParseLoop(g, input, f + k, t, limit, withSep, i, c).LoopOut?
    decreases k
  {
    hide ParseElem, Tame, TameGrammar, Chain, MayReadNothing, EvalExpr, UnboundedOk;
    ElemFuel(g, input, f, f + k, t, withSep, i, c);
    ElemAfter(g, input, f + k, t, withSep, i, c, m);
    if !t.mode.FixedCount? { ElemConsumesIf(g, input, f + k, t, withSep, i, c, m); }
    var r := ParseElem(g, input, f + k, t, withSep, i, c);
    if r.Ok? && StopTest(input, t, limit, i + 1, r.c) == Some(false) {
      assert k > 0;
      LoopEnds(g, input, f, k - 1, t, limit, true, i + 1, r.c, m);
      assert f + k - 1 == f + (k - 1);
    }
    if r.Failed? && t.resync && c.pos < CoreHi(input, c) {
      LoopEnds(g, input, f, k - 1, t, limit, true, i, c.(pos := c.pos + 1), m);
      assert f + k - 1 == f + (k - 1);
    }
  }

  // ── @rest ─────────────────────────────────────────────────────────────

  lemma {:induction false} ChainConcat(g: Grammar, input: Bytes, fuel: nat, xs: seq<Field>, ys: seq<Field>, c: Core, loop: Option<int>)
    ensures ParseChain(g, input, fuel, xs + ys, c, loop) ==
            var r := ParseChain(g, input, fuel, xs, c, loop);
            if r.Ok? then ParseChain(g, input, fuel, ys, r.c, loop) else r
    decreases |xs|
  {
    hide ParseField;
    if xs == [] {
      assert xs + ys == ys;
    } else {
      assert (xs + ys)[1..] == xs[1..] + ys && (xs + ys)[0] == xs[0];
      var r := ParseField(g, input, fuel, xs[0], c, loop);
      if r.Ok? { ChainConcat(g, input, fuel, xs[1..], ys, r.c, loop); }
    }
  }

  lemma TameParts(pre: seq<Field>, f: Field, post: seq<Field>, m: Cursor)
    requires !HasRest(pre) && f.rest && !HasRest(post)
    requires forall i :: 0 <= i < |pre + [f] + post| ==> TameField((pre + [f] + post)[i], m)
    ensures HasRest(pre + [f] + post) && RestOnce(pre) && RestOnce(post)
    ensures (forall i :: 0 <= i < |pre| ==> TameField(pre[i], m)) && TameField(f, m)
    ensures forall i :: 0 <= i < |post| ==> TameField(post[i], m)
  {
    hide TameField;
    var all := pre + [f] + post;
    assert all[|pre|] == f;
    forall i | 0 <= i < |pre| ensures TameField(pre[i], m) { assert all[i] == pre[i]; }
    forall i | 0 <= i < |post| ensures TameField(post[i], m) { assert all[|pre| + 1 + i] == post[i]; }
  }

  /** A struct with an @rest field ends exactly max(0, v) bytes after that field, v being the
      value it was read with, and puts the windows back. */
  lemma RestExact(g: Grammar, input: Bytes, fuel: nat, pre: seq<Field>, f: Field, post: seq<Field>, c: Core, loop: Option<int>)
    requires Confined(input, c) && TameGrammar(g, Anywhere) && !HasRest(pre) && f.rest && !HasRest(post)
    requires forall i :: 0 <= i < |pre + [f] + post| ==> TameField((pre + [f] + post)[i], Anywhere)
    ensures var whole := ParseFields(g, input, fuel, pre + [f] + post, c, loop);
            whole.Ok? ==>
              var a := ParseChain(g, input, fuel, pre, c, loop);
              a.Ok? && var b := ParseType(g, input, fuel, f.body, f.name, a.c, loop);
              b.Ok? && exists v :: Lookup(b.c.env, f.name) == Some(IntV(v))
                                   && whole.c.pos == b.c.pos + (if v < 0 then 0 else v) && whole.c.wins == c.wins
  {
    hide ParseField, ParseType, TameField, TameGrammar, Chain, HasRest, CloseWindow;
    TameParts(pre, f, post, Anywhere);
    var whole := ParseFields(g, input, fuel, pre + [f] + post, c, loop);
    if whole.Ok? {
      ChainConcat(g, input, fuel, pre + [f], post, c, loop);
      ChainConcat(g, input, fuel, pre, [f], c, loop);
      ChainAfter(g, input, fuel, pre, c, loop, Anywhere);
      var a := ParseChain(g, input, fuel, pre, c, loop).c;
      SingleChain(g, input, fuel, f, a, loop);
      RestField(g, input, fuel, f, a, loop);
      var o := ParseField(g, input, fuel, f, a, loop).c;
      ChainAfter(g, input, fuel, post, o, loop, Anywhere);
      var z := ParseChain(g, input, fuel, post, o, loop).c;
      ClosedExactly(input, c, z);
    }
  }

  lemma SingleChain(g: Grammar, input: Bytes, fuel: nat, f: Field, c: Core, loop: Option<int>)
    ensures ParseChain(g, input, fuel, [f], c, loop) == ParseField(g, input, fuel, f, c, loop)
  {
    hide ParseField;
    var r := ParseField(g, input, fuel, f, c, loop);
    assert [f][1..] == [];
    assert r.Ok? ==> ParseChain(g, input, fuel, [], r.c, loop) == r;
  }

  lemma ClosedExactly(input: Bytes, c: Core, z: Core)
    requires Confined(input, z) && z.wins != [] && z.wins[..|z.wins| - 1] == c.wins
    ensures var r := CloseWindow(input, z, true); r.Ok? ==> r.c.pos == CoreHi(input, z) && r.c.wins == c.wins
  {}

  /** The size field opens a window that ends max(0, v) after it. */
  lemma RestField(g: Grammar, input: Bytes, fuel: nat, f: Field, c: Core, loop: Option<int>)
    requires Confined(input, c) && f.rest && TameField(f, Anywhere) && TameGrammar(g, Anywhere)
    ensures var r := ParseField(g, input, fuel, f, c, loop);
            r.Ok? ==>
              var b := ParseType(g, input, fuel, f.body, f.name, c, loop);
              b.Ok? && Confined(input, r.c) && r.c.wins != [] && r.c.wins[..|r.c.wins| - 1] == c.wins
              && exists v :: Lookup(b.c.env, f.name) == Some(IntV(v)) && CoreHi(input, r.c) == b.c.pos + NonNeg(v)
  {
    hide ParseType, TameGrammar, Chain, OpenRelative, Tame;
    var b := ParseType(g, input, fuel, f.body, f.name, c, loop);
    TypeAfter(g, input, fuel, f.body, f.name, c, loop, Anywhere);
    if b.Ok? && ParseField(g, input, fuel, f, c, loop).Ok? {
      RelativeConfined(input, b.c, Ref(f.name), loop);
      var o := OpenRelative(input, b.c, Ref(f.name), loop);
      var v :| Lookup2(input, b.c, Ref(f.name), loop, v) && CoreHi(input, o.c) == b.c.pos + NonNeg(v);
    }
  }
}
