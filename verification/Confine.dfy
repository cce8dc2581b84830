/** What a successful parse does to the cursor and the windows: balanced windows, a cursor
    inside the active one, and, without seeks, a cursor that never moves back. */
module Confine {
  import opened Syntax
  import opened Eval
  import opened Wire
  import opened Machine
  import opened Compile
  import opened Denote
  import opened Runs

  // ── The fragment ──────────────────────────────────────────────────────

  predicate RestOnce(fields: seq<Field>) {
    forall i, j :: 0 <= i < j < |fields| ==> !(fields[i].rest && fields[j].rest)
  }

  predicate Scalar(p: PrimInfo) { p.IntP? ==> p.width > 0 }

  /** Where the cursor may go: anywhere, or only forward as long as calls stay within a set
      of rules. */
  datatype Cursor = Anywhere | Forward(rules: set<Name>)

  /** At most one @rest field per struct, containers and integers of some width; and to move
      forward, no [start, end] interval here or in a rule called. */
  predicate Tame(t: Type, m: Cursor)
    decreases t, 0
  {
    match t
    case Prim(p, _) => Scalar(p)
    case Struct(fields, _) => RestOnce(fields) && forall i :: 0 <= i < |fields| ==> TameField(fields[i], m)
    case RuleRef(n) => Enters(m, n)
    case Bitfield(p, es) => p.IntP? && p.width > 0 && es != []
    case Optional(e, _) => Tame(e, m)
    case Switch(_, cases, d) =>
      (forall i :: 0 <= i < |cases| ==> TameCase(cases[i], m)) && TameDefault(d, m)
    case Choice(arms) => forall i :: 0 <= i < |arms| ==> TameArm(arms[i], m)
    case Array(e, _, _, sep, iv, _, _) =>
      Tame(e, m) && (sep.Some? ==> Tame(sep.value, m)) && (m.Forward? && iv.Some? ==> iv.value.Length?)
    case _ => true
  }

  predicate Enters(m: Cursor, n: Name) { m.Forward? ==> n in m.rules }

  predicate TameField(f: Field, m: Cursor) decreases f, 0 {
    Tame(f.body, m) && (m.Forward? && f.interval.Some? ==> f.interval.value.Length?)
  }
  predicate TameCase(c: Case, m: Cursor) decreases c, 0 { Tame(c.target, m) }
  predicate TameArm(a: Arm, m: Cursor) decreases a, 0 { Tame(a.body, m) }
  predicate TameDefault(d: Default, m: Cursor) decreases d, 0 { d.DefaultTo? ==> Tame(d.target, m) }

  /** The rules that may be entered are tame. */
  predicate TameGrammar(g: Grammar, m: Cursor) {
    forall i :: 0 <= i < |g| && Enters(m, g[i].name) ==> Tame(g[i].body, m)
  }

  // ── Confined cores ────────────────────────────────────────────────────

  predicate Confined(input: Bytes, c: Core) {
    Chain(c.wins, |input|) && CoreLo(c) <= c.pos <= CoreHi(input, c)
  }

  /** c' may follow c: same windows, cursor inside, log extended, and forward if plain. */
  predicate After(input: Bytes, c: Core, c': Core, plain: bool) {
    c'.wins == c.wins && Confined(input, c') && c.log <= c'.log && (plain ==> c.pos <= c'.pos)
  }

  predicate ResAfter(input: Bytes, c: Core, r: Res, plain: bool) {
    r.Ok? ==> After(input, c, r.c, plain)
  }

  lemma HiBound(input: Bytes, c: Core)
    requires Confined(input, c)
    ensures CoreHi(input, c) <= |input|
  {
    ChainTop(c.wins, |input|);
  }

  lemma OpenConfined(input: Bytes, c: Core, end: nat)
    requires Confined(input, c) || (Chain(c.wins, |input|) && c.pos <= |input|)
    ensures var r := OpenWindow(input, c, end);
            r.Ok? ==> r.c == c.(wins := c.wins + [Win(c.pos, end)]) && Confined(input, r.c) && c.pos <= end <= CoreHi(input, c)
                      && CoreLo(c) <= c.pos
  {
    if OpenWindow(input, c, end).Ok? { ChainPush(c.wins, Win(c.pos, end), |input|); }
  }

  /** Opening an interval adds one window that starts at the cursor. */
  lemma IntervalConfined(input: Bytes, c: Core, iv: Interval, loop: Option<int>, plain: bool)
    requires Confined(input, c) && (plain ==> iv.Length?)
    ensures var r := OpenInterval(input, c, iv, loop);
            r.Ok? ==> Confined(input, r.c) && r.c.wins != [] && r.c.wins[..|r.c.wins| - 1] == c.wins && c.log <= r.c.log
                      && (plain ==> r.c.pos == c.pos)
  {
    hide EvalExpr, OpenWindow;
    match iv
    case Length(len) => RelativeConfined(input, c, len, loop);
    case StartEnd(st, en) =>
      var v := ValueOf(input, st, c, loop);
      if v.Some? && v.value.IntV? && 0 <= v.value.i <= |input| {
        var c1 := c.(pos := v.value.i);
        var w := ValueOf(input, en, c1, loop);
        if w.Some? && w.value.IntV? { OpenConfined(input, c1, NonNeg(w.value.i)); }
      }
  }

  lemma RelativeConfined(input: Bytes, c: Core, e: Expr, loop: Option<int>)
    requires Confined(input, c)
    ensures var r := OpenRelative(input, c, e, loop);
            r.Ok? ==> Confined(input, r.c) && r.c.wins != [] && r.c.wins[..|r.c.wins| - 1] == c.wins && c.log <= r.c.log
                      && r.c.pos == c.pos && r.c.env == c.env && r.c.wins[|r.c.wins| - 1].lo == c.pos
                      && exists v :: Lookup2(input, c, e, loop, v) && CoreHi(input, r.c) == c.pos + NonNeg(v)
  {
    hide EvalExpr, OpenWindow, ValueOf, Chain;
    var c1 := if e.Ref? then Logged(c, DeterminesRest(e.name)) else c;
    var v := ValueOf(input, e, c1, loop);
    if v.Some? && v.value.IntV? {
      OpenConfined(input, c1, c1.pos + NonNeg(v.value.i));
      assert Lookup2(input, c, e, loop, v.value.i);
    }
  }

  /** e evaluates to the integer v where a relative window is opened. */
  predicate Lookup2(input: Bytes, c: Core, e: Expr, loop: Option<int>, v: int) {
    ValueOf(input, e, if e.Ref? then Logged(c, DeterminesRest(e.name)) else c, loop) == Some(IntV(v))
  }

  /** Closing the window opened from c puts c's windows back. */
  lemma CloseConfined(input: Bytes, c: Core, c': Core, checked: bool)
    requires Confined(input, c') && c'.wins != [] && c'.wins[..|c'.wins| - 1] == c.wins && Confined(input, c)
    ensures var r := CloseWindow(input, c', checked);
            r.Ok? ==> r.c == c'.(wins := c.wins) && Confined(input, r.c)
  {}

  lemma CheckAfter(input: Bytes, w: Option<Expr>, c: Core, loop: Option<int>)
    ensures var r := Check(input, w, c, loop); r.Ok? ==> r.c == c
  {
    hide EvalExpr;
  }

  lemma PlaceAfter(c: Core, nm: Name, car: Carrier)
    ensures var r := Place(c, nm, car); r.pos == c.pos && r.wins == c.wins && r.le == c.le && c.log <= r.log
  {}

  // ── Leaves ────────────────────────────────────────────────────────────

  lemma LeafAfter(g: Grammar, input: Bytes, fuel: nat, t: Type, nm: Name, c: Core, loop: Option<int>, m: Cursor)
    requires Confined(input, c) && Tame(t, m) && IsLeaf(t) && !t.RuleRef?
    ensures ResAfter(input, c, ParseType(g, input, fuel, t, nm, c, loop), m.Forward?)
    ensures t.Prim? || t.Bitfield? ==> var r := ParseType(g, input, fuel, t, nm, c, loop); r.Ok? ==> r.c.pos > c.pos
  {
    hide EvalExpr, Place, ReadPrim, ParseEntries, ReadMember, Check;
    HiBound(input, c);
    match t
    case Prim(p, w) =>
      var r := ReadPrim(p, input, c.pos, CoreHi(input, c), c.le);
      if r.Some? {
        PlaceAfter(c.(pos := r.value.end), nm, r.value);
        CheckAfter(input, w, Place(c.(pos := r.value.end), nm, r.value), loop);
      }
    case ByteRun(len, isString, w) => RunAfter(input, t, nm, c, loop);
    case Compute(e) =>
      var v := ValueOf(input, e, c, loop);
      if v.Some? { PlaceAfter(c, nm, Carrier(c.pos, c.pos, TComputed, Lower(v.value), Plain)); }
    case EndianSwitch(_) =>
    case Bitfield(p, es) => BitsAfter(input, p, es, Logged(c, OpenStruct(nm, c.pos)), loop);
  }

  lemma RunAfter(input: Bytes, t: Type, nm: Name, c: Core, loop: Option<int>)
    requires Confined(input, c) && t.ByteRun?
    ensures var r := ParseRun(input, t.len, t.isString, t.where, nm, c, loop);
            r.Ok? ==> After(input, c, r.c, true)
                      && exists n :: ValueOf(input, RunLength(t.len), c, loop) == Some(IntV(n)) && r.c.pos == c.pos + n && n >= 0
  {
    hide EvalExpr, Place, Check;
    HiBound(input, c);
    var v := ValueOf(input, RunLength(t.len), c, loop);
    if v.Some? && v.value.IntV? && v.value.i >= 0 {
      var e := c.pos + v.value.i;
      var car := Carrier(c.pos, e, if t.isString then TString else TBytes, Null, Plain);
      PlaceAfter(c.(pos := e), nm, car);
      CheckAfter(input, t.where, Place(c.(pos := e), nm, car), loop);
    }
  }

  /** A bitfield consumes exactly its container, and never passes the window. */
  lemma BitsAfter(input: Bytes, p: PrimInfo, es: seq<Entry>, c: Core, loop: Option<int>)
    requires Confined(input, c) && es != []
    ensures var r := ParseBitfield(input, p, es, c, loop);
            r.Ok? ==> After(input, c, r.c, true) && r.c.pos == c.pos + ByteCount(p) <= CoreHi(input, c)
  {
    hide ParseEntries;
    EntriesFit(input, p, es, 0, c, loop);
  }

  // ── The induction ─────────────────────────────────────────────────────

  /** Every successful parse leaves the windows as it found them and the cursor inside the
      active one; without seeks the cursor has not moved back. */
  lemma {:induction false} TypeAfter(g: Grammar, input: Bytes, fuel: nat, t: Type, nm: Name, c: Core, loop: Option<int>, m: Cursor)
    requires Confined(input, c) && Tame(t, m) && TameGrammar(g, m)
    ensures ResAfter(input, c, ParseType(g, input, fuel, t, nm, c, loop), m.Forward?)
    decreases fuel, t, 4
  {
    hide EvalExpr, ParseRecord, ParseRule, ParseArms, ParseCase, ParseDefault, ParseArray, SelectCase, TameField, TameGrammar, TameCase,
         TameDefault, TameArm, Chain, ParsePrim, ParseRun, ParseBitfield, ParseCompute, Check;
    match t
    case Struct(fields, w) => RecordAfter(g, input, fuel, t, Logged(c, OpenStruct(nm, c.pos)), loop, m);
    case RuleRef(n) => RuleAfter(g, input, fuel, n, Logged(c, OpenStruct(nm, c.pos)), loop, m);
    case Optional(elem, pred) => TypeAfter(g, input, fuel, elem, nm, c, loop, m);
    case Switch(disc, cases, dflt) =>
      var v := ValueOf(input, disc, c, loop);
      if v.Some? {
        var i := SelectCase(cases, v.value);
        if i < |cases| { CaseAfter(g, input, fuel, cases[i], nm, Logged(c, PendingTag(i)), loop, m); }
        DefaultAfter(g, input, fuel, dflt, nm, Logged(c, PendingTag(DefaultOrdinal(cases))), loop, m);
      }
    case Choice(arms) => ArmsAfter(g, input, fuel, arms, 0, nm, c, loop, m);
    case Array(_, _, _, _, _, _, _) =>
      ArrayAfter(g, input, fuel, t, nm, c, loop, m);
      var r := ParseArray(g, input, fuel, t, nm, c, loop);
      if r.Ok? { CheckAfter(input, t.where, r.c, loop); }
    case _ => LeafAfter(g, input, fuel, t, nm, c, loop, m);
  }

  lemma {:induction false} CaseAfter(g: Grammar, input: Bytes, fuel: nat, k: Case, nm: Name, c: Core, loop: Option<int>, m: Cursor)
    requires Confined(input, c) && TameCase(k, m) && TameGrammar(g, m)
    ensures ResAfter(input, c, ParseCase(g, input, fuel, k, nm, c, loop), m.Forward?)
    decreases fuel, k, 0
  {
    hide ParseType, Tame, TameGrammar;
    TypeAfter(g, input, fuel, k.target, nm, c, loop, m);
  }

  lemma {:induction false} DefaultAfter(g: Grammar, input: Bytes, fuel: nat, d: Default, nm: Name, c: Core, loop: Option<int>, m: Cursor)
    requires Confined(input, c) && TameDefault(d, m) && TameGrammar(g, m)
    ensures ResAfter(input, c, ParseDefault(g, input, fuel, d, nm, c, loop), m.Forward?)
    decreases fuel, d, 0
  {
    hide ParseType, Tame, TameGrammar;
    if d.DefaultTo? { TypeAfter(g, input, fuel, d.target, nm, c, loop, m); }
  }

  lemma {:induction false} ArmsAfter(g: Grammar, input: Bytes, fuel: nat, arms: seq<Arm>, i: nat, nm: Name, c: Core, loop: Option<int>, m: Cursor)
    requires Confined(input, c) && (forall j :: 0 <= j < |arms| ==> TameArm(arms[j], m)) && TameGrammar(g, m)
    ensures ResAfter(input, c, ParseArms(g, input, fuel, arms, i, nm, c, loop), m.Forward?)
    decreases fuel, arms, 0
  {
    hide ParseArm, TameArm, TameGrammar;
    if arms != [] {
      ArmAfter(g, input, fuel, arms[0], i, nm, c, loop, m);
      ArmsAfter(g, input, fuel, arms[1..], i + 1, nm, c, loop, m);
    }
  }

  lemma {:induction false} ArmAfter(g: Grammar, input: Bytes, fuel: nat, a: Arm, tag: nat, nm: Name, c: Core, loop: Option<int>, m: Cursor)
    requires Confined(input, c) && TameArm(a, m) && TameGrammar(g, m)
    ensures ResAfter(input, c, ParseArm(g, input, fuel, a, tag, nm, c, loop), m.Forward?)
    decreases fuel, a, 0
  {
    hide ParseType, ParseRule, Tame, TameGrammar, Chain;
    var c1 := Logged(c, OpenVariant(a.name, c.pos, tag));
    if a.body.RuleRef? {
      ArmEnters(a, m);
      RuleAfter(g, input, fuel, a.body.rule, c1, loop, m);
    } else {
      TypeAfter(g, input, fuel, a.body, nm, c1, loop, m);
    }
  }

  lemma ArmEnters(a: Arm, m: Cursor)
    requires TameArm(a, m) && a.body.RuleRef?
    ensures Enters(m, a.body.rule)
  {}

  lemma {:induction false} RecordAfter(g: Grammar, input: Bytes, fuel: nat, t: Type, c: Core, loop: Option<int>, m: Cursor)
    requires Confined(input, c) && t.Struct? && Tame(t, m) && TameGrammar(g, m)
    ensures ResAfter(input, c, ParseRecord(g, input, fuel, t, c, loop), m.Forward?)
    decreases fuel, t, 1
  {
    hide ParseFields, TameField, TameGrammar, Chain, Check;
    FieldsAfter(g, input, fuel, t.fields, c, loop, m);
    var r := ParseFields(g, input, fuel, t.fields, c, loop);
    if r.Ok? { CheckAfter(input, t.where, r.c, loop); }
  }

  /** One @rest field opens one window and the end of the struct closes it. */
  lemma {:induction false} FieldsAfter(g: Grammar, input: Bytes, fuel: nat, fields: seq<Field>, c: Core, loop: Option<int>, m: Cursor)
    requires Confined(input, c) && RestOnce(fields) && (forall i :: 0 <= i < |fields| ==> TameField(fields[i], m)) && TameGrammar(g, m)
    ensures ResAfter(input, c, ParseFields(g, input, fuel, fields, c, loop), m.Forward?)
    decreases fuel, fields, 1
  {
    hide ParseChain, TameField, TameGrammar, Chain, RestOnce;
    ChainAfter(g, input, fuel, fields, c, loop, m);
    var r := ParseChain(g, input, fuel, fields, c, loop);
    if r.Ok? && HasRest(fields) { CloseConfined(input, c, r.c, true); }
  }

  /** c' follows c with one more window open. */
  predicate Opened(input: Bytes, c: Core, c': Core, plain: bool) {
    Confined(input, c') && c'.wins != [] && c'.wins[..|c'.wins| - 1] == c.wins && c.log <= c'.log && (plain ==> c.pos <= c'.pos)
  }

  lemma {:induction false} ChainAfter(g: Grammar, input: Bytes, fuel: nat, fields: seq<Field>, c: Core, loop: Option<int>, m: Cursor)
    requires Confined(input, c) && RestOnce(fields) && (forall i :: 0 <= i < |fields| ==> TameField(fields[i], m)) && TameGrammar(g, m)
    ensures var r := ParseChain(g, input, fuel, fields, c, loop);
            r.Ok? ==> if HasRest(fields) then Opened(input, c, r.c, m.Forward?) else After(input, c, r.c, m.Forward?)
    decreases fuel, fields, 0
  {
    hide ParseField, TameField, TameGrammar, Chain, HasRest;
    RestOnceSplit(fields);
    if fields != [] {
      FieldAfter(g, input, fuel, fields[0], c, loop, m);
      var r := ParseField(g, input, fuel, fields[0], c, loop);
      if r.Ok? {
        ChainAfter(g, input, fuel, fields[1..], r.c, loop, m);
      }
    }
  }

  lemma RestOnceSplit(fields: seq<Field>)
    ensures fields == [] ==> !HasRest(fields)
    ensures fields != [] ==> (HasRest(fields) <==> fields[0].rest || HasRest(fields[1..]))
    ensures fields != [] && RestOnce(fields) ==> RestOnce(fields[1..]) && (fields[0].rest ==> !HasRest(fields[1..]))
  {
    if fields != [] { RestSplit(fields); }
  }

  lemma {:induction false} FieldAfter(g: Grammar, input: Bytes, fuel: nat, f: Field, c: Core, loop: Option<int>, m: Cursor)
    requires Confined(input, c) && TameField(f, m) && TameGrammar(g, m)
    ensures var r := ParseField(g, input, fuel, f, c, loop);
            r.Ok? ==> if f.rest then Opened(input, c, r.c, m.Forward?) else After(input, c, r.c, m.Forward?)
    decreases fuel, f, 0
  {
    hide ParseType, Tame, TameGrammar, Chain, OpenInterval, OpenRelative, CloseWindow;
    if f.rest {
      TypeAfter(g, input, fuel, f.body, f.name, c, loop, m);
      var r := ParseType(g, input, fuel, f.body, f.name, c, loop);
      if r.Ok? { RelativeConfined(input, r.c, Ref(f.name), loop); }
    } else if f.interval.Some? {
      WindowedAfter(g, input, fuel, f.body, f.interval.value, f.name, c, loop, m);
    } else {
      TypeAfter(g, input, fuel, f.body, f.name, c, loop, m);
    }
  }

  lemma {:induction false} WindowedAfter(g: Grammar, input: Bytes, fuel: nat, t: Type, iv: Interval, nm: Name, c: Core, loop: Option<int>, m: Cursor)
    requires Confined(input, c) && Tame(t, m) && TameGrammar(g, m) && (m.Forward? ==> iv.Length?)
    ensures var o := OpenInterval(input, c, iv, loop);
            o.Ok? ==> var b := ParseType(g, input, fuel, t, nm, o.c, loop);
                      b.Ok? ==> ResAfter(input, c, CloseWindow(input, b.c, false), m.Forward?)
    decreases fuel, t, 5
  {
    hide ParseType, Tame, TameGrammar, Chain, OpenInterval, CloseWindow;
    IntervalConfined(input, c, iv, loop, m.Forward?);
    var o := OpenInterval(input, c, iv, loop);
    if o.Ok? {
      TypeAfter(g, input, fuel, t, nm, o.c, loop, m);
      var b := ParseType(g, input, fuel, t, nm, o.c, loop);
      if b.Ok? { CloseConfined(input, c, b.c, false); }
    }
  }

  lemma {:induction false} RuleAfter(g: Grammar, input: Bytes, fuel: nat, n: Name, c: Core, loop: Option<int>, m: Cursor)
    requires Confined(input, c) && TameGrammar(g, m) && Enters(m, n)
    ensures ResAfter(input, c, ParseRule(g, input, fuel, n, c, loop), m.Forward?)
    decreases fuel, RuleRef(n), 0
  {
    hide ParseBody, Tame, Chain;
    if RuleIndex(g, n).Some? && fuel > 0 {
      RuleIndexBound(g, n);
      BodyAfter(g, input, fuel - 1, g[RuleIndex(g, n).value].body, c, loop, m);
    }
  }

  lemma {:induction false} BodyAfter(g: Grammar, input: Bytes, fuel: nat, t: Type, c: Core, loop: Option<int>, m: Cursor)
    requires Confined(input, c) && Tame(t, m) && TameGrammar(g, m)
    ensures ResAfter(input, c, ParseBody(g, input, fuel, t, c, loop), m.Forward?)
    decreases fuel, t, 5
  {
    hide ParseType, ParseRecord, ParseBitfield, TameGrammar, Chain;
    match t
    case Struct(_, _) => RecordAfter(g, input, fuel, t, c, loop, m);
    case Bitfield(p, es) => BitsAfter(input, p, es, c, loop);
    case _ => TypeAfter(g, input, fuel, t, "", c, loop, m);
  }

  lemma {:induction false} ElemAfter(g: Grammar, input: Bytes, fuel: nat, t: Type, withSep: bool, i: nat, c: Core, m: Cursor)
    requires Confined(input, c) && t.Array? && Tame(t, m) && TameGrammar(g, m)
    ensures ResAfter(input, c, ParseElem(g, input, fuel, t, withSep, i, c), m.Forward?)
    decreases fuel, t, 0
  {
    hide ParseType, TameGrammar, Chain, OpenInterval, CloseWindow;
    var r := if withSep && t.sep.Some? then ParseType(g, input, fuel, t.sep.value, "_", c, Some(i)) else Ok(c);
    if withSep && t.sep.Some? { TypeAfter(g, input, fuel, t.sep.value, "_", c, Some(i), m); }
    if r.Ok? {
      if t.elemInterval.Some? {
        WindowedAfter(g, input, fuel, t.elem, t.elemInterval.value, "", r.c, Some(i), m);
      } else {
        TypeAfter(g, input, fuel, t.elem, "", r.c, Some(i), m);
      }
    }
  }

  predicate LoopAfter(input: Bytes, c: Core, r: LoopRes, i: nat, plain: bool) {
    r.Done? ==> After(input, c, r.c, plain) && r.count >= i
  }

  lemma {:induction false} ItemsLoopAfter(g: Grammar, input: Bytes, fuel: nat, t: Type, limit: int, withSep: bool, i: nat, c: Core, m: Cursor)
    requires Confined(input, c) && t.Array? && Tame(t, m) && TameGrammar(g, m)
    ensures LoopAfter(input, c, ParseLoop(g, input, fuel, t, limit, withSep, i, c), i, m.Forward?)
    decreases fuel, t, 1
  {
    hide ParseElem, Tame, TameGrammar, StopTest, Chain;
    ElemAfter(g, input, fuel, t, withSep, i, c, m);
    var r := ParseElem(g, input, fuel, t, withSep, i, c);
    if r.Ok? && fuel > 0 {
      ItemsLoopAfter(g, input, fuel - 1, t, limit, true, i + 1, r.c, m);
    }
    if r.Failed? && fuel > 0 && c.pos < CoreHi(input, c) {
      ItemsLoopAfter(g, input, fuel - 1, t, limit, true, i, c.(pos := c.pos + 1), m);
    }
  }

  lemma {:induction false} ArrayAfter(g: Grammar, input: Bytes, fuel: nat, t: Type, nm: Name, c: Core, loop: Option<int>, m: Cursor)
    requires Confined(input, c) && t.Array? && Tame(t, m) && TameGrammar(g, m)
    ensures ResAfter(input, c, ParseArray(g, input, fuel, t, nm, c, loop), m.Forward?)
    decreases fuel, t, 3
  {
    hide ParseItems, Tame, TameGrammar, Chain;
    ItemsAfter(g, input, fuel, t, nm, c, loop, m);
  }

  lemma {:induction false} ItemsAfter(g: Grammar, input: Bytes, fuel: nat, t: Type, nm: Name, c: Core, loop: Option<int>, m: Cursor)
    requires Confined(input, c) && t.Array? && Tame(t, m) && TameGrammar(g, m)
    ensures LoopAfter(input, c, ParseItems(g, input, fuel, t, nm, c, loop), 0, m.Forward?)
    decreases fuel, t, 2
  {
    hide ParseLoop, Tame, TameGrammar, StopTest, Chain, EvalExpr, ValueOf;
    if t.mode.FixedCount? || t.mode.CountTerm? {
      var c1 := if t.bound.Ref? then Logged(c, PendingCount(t.bound.name)) else c;
      var v := ValueOf(input, t.bound, c1, loop);
      if v.Some? && v.value.IntV? {
        ItemsLoopAfter(g, input, fuel, t, v.value.i, false, 0, Logged(c1, OpenArray(nm, c1.pos)), m);
      }
    } else {
      ItemsLoopAfter(g, input, fuel, t, -1, false, 0, Logged(c, OpenArray(nm, c.pos)), m);
    }
  }
}
