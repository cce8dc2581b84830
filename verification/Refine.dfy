/** The lowering of types refines their denotation: structs, fields, rule calls, options,
    switches and choices, at any nesting. */
module Refine {
  import opened Syntax
  import opened Eval
  import opened Wire
  import opened Machine
  import opened Compile
  import opened Denote
  import opened Runs
  import opened World
  import opened Leaves
  import opened Bitfields
  import opened Windows
  import opened Switches
  import opened Attempts
  import opened ArraySteps

  /** A construct's code is in the program and the machine is at its entry. */
  predicate Here(w: World, code: seq<Node>, b: Built, s: State) {
    |w.entries| == |w.g| && Holds(w, |code|, b.code) && Spine(w.p, s, b.entry)
  }

  // ── Scopes ────────────────────────────────────────────────────────────

  /** A spine step that only records an event. */
  lemma RunLog(w: World, s: State, l: Label, ev: Event, next: Label) returns (t: State)
    requires Spine(w.p, s, l) && l < |w.p.code|
    requires StepNode(w.p, s.(k := []), w.p.code[l]) == s.(k := [Sp(next)], log := s.log + [ev])
    ensures Run(w.p, s, 1, t) && Spine(w.p, t, next) && Follows(s, t) && CoreOf(t) == Logged(CoreOf(s), ev)
    ensures t == s.(k := [Sp(next)], log := s.log + [ev])
  {
    hide Step, Run, StepNode, Chain, HandlersOk;
    t := s.(k := [Sp(next)], log := s.log + [ev]);
    Shifted(w.p, s, t);
    RunSp(w.p, s, l, t, next);
  }

  lemma StepEndStruct(w: World, s: State, l: Label, next: Label)
    requires Spine(w.p, s, l) && l < |w.p.code| && w.p.code[l] == EndStruct(next)
    ensures StepNode(w.p, s.(k := []), w.p.code[l]) == s.(k := [Sp(next)], log := s.log + [CloseStruct(s.pos)])
  {}

  /** s opened a scope and reached s1; what runs inside up to `end` is closed there. */
  lemma CloseScope(w: World, s: State, s1: State, end: Label, next: Label, r: Res, fuel: nat, n1: nat, t1: State)
    returns (n: nat, t: State)
    requires Run(w.p, s, 1, s1) && Follows(s, s1) && Outcome(w, s1, s1, end, r, fuel, n1, t1)
    requires end < |w.p.code| && w.p.code[end] == EndStruct(next)
    ensures Outcome(w, s, s, next, if r.Ok? then Ok(Logged(r.c, CloseStruct(r.c.pos))) else r, fuel, n, t)
  {
    hide Step, Run, StepNode, Chain, HandlersOk, Unwind;
    FollowsRebase(w, s, s1, s1, end, r, fuel, n1, t1);
    Prepend(w, s, s, 1, s1, end, r, fuel, n1, t1);
    n, t := 1 + n1, t1;
    if r.Ok? {
      StepEndStruct(w, t1, end, next);
      var t2 := RunLog(w, t1, end, CloseStruct(t1.pos), next);
      RunTrans(w.p, s, n, t1, 1, t2);
      FollowsTrans(s, t1, t2);
      n, t := n + 1, t2;
    }
  }

  // ── Types ─────────────────────────────────────────────────────────────

  /** The main induction: from the entry of a compiled type, the machine does exactly what
      the type's denotation says, for every state, and reaches `next`, or fail(), or keeps
      running for at least as many steps as the fuel that ran out. */
  lemma {:induction false} RunType(w: World, code: seq<Node>, ty: Type, r: Rho, next: Label, s: State, fuel: nat, d: Standing)
    returns (n: nat, t: State)
    requires Loaded(w) && Here(w, code, CompileType(code, ty, r, next), s)
    requires Fragment(w.g, ty, d, w.dm) && FrameOk(w.p, d, r, s.frames)
    ensures Outcome(w, s, s, next, ParseType(w.g, w.p.input, fuel, ty, FieldName(r), CoreOf(s), LoopVar(s.frames)), fuel, n, t)
    decreases fuel, ty, 4
  {
    hide Outcome, Spine, Holds, FrameOk, FieldName, LoopVar, Fragment, RuleIn, CompileLeaf, CompileStruct, CompileOptional,
         CompileSwitch, CompileChoice, CompileArray;
    match ty
    case Struct(_, _) => n, t := RunStruct(w, code, ty, r, next, s, fuel, d);
    case Optional(_, _) => n, t := RunOptional(w, code, ty, r, next, s, fuel, d);
    case Switch(_, _, _) => n, t := RunSwitch(w, code, ty, r, next, s, fuel, d);
    case Choice(_) => n, t := RunChoice(w, code, ty, r, next, s, fuel, d);
    case Array(_, _, _, _, _, _, _) => n, t := RunArray(w, code, ty, r, next, s, fuel, d);
    case RuleRef(_) => n, t := RunRef(w, code, ty, r, next, s, fuel, d);
    case Prim(_, _) => n, t := RunPrim(w, code, ty, r, next, s, d, fuel);
    case ByteRun(_, _, _) => n, t := RunByteRun(w, code, ty, r, next, s, d, fuel);
    case Compute(_) => n, t := RunCompute(w, code, ty, r, next, s, fuel);
    case EndianSwitch(_) => n, t := RunEndian(w, code, ty, r, next, s, fuel);
    case Bitfield(_, _) => n, t := RunBits(w, code, ty, r, next, s, fuel, d);
  }

  /** The nodes of a bitfield in a scope of its own. */
  lemma BitsHeld(w: World, code: seq<Node>, ty: Type, r: Rho, next: Label)
    requires ty.Bitfield? && |w.entries| == |w.g| && Holds(w, |code|, CompileLeaf(code, ty, r, next).code)
    ensures var b := CompileLeaf(code, ty, r, next);
            var ec := code + [EndStruct(next)];
            var bf := CompileBitfield(ec, ty.container, ty.entries, r, |code|);
            && |code| < |w.p.code| && w.p.code[|code|] == EndStruct(next) && Holds(w, |ec|, bf.code)
            && b.entry < |w.p.code| && w.p.code[b.entry] == BeginStruct(FieldName(r), bf.entry)
  {
    hide CompileBitfield, PatchNode, Holds, FieldName;
    var b := CompileLeaf(code, ty, r, next);
    var ec := code + [EndStruct(next)];
    HoldsNode(w, |code|, b.code, |code|);
    HoldsNode(w, |code|, b.code, b.entry);
    HoldsPart(w, |code|, b.code, |ec|, CompileBitfield(ec, ty.container, ty.entries, r, |code|).code);
  }

  lemma BitsMean(g: Grammar, input: Bytes, fuel: nat, ty: Type, nm: Name, c: Core, loop: Option<int>)
    requires ty.Bitfield?
    ensures var r := ParseBitfield(input, ty.container, ty.entries, Logged(c, OpenStruct(nm, c.pos)), loop);
            ParseType(g, input, fuel, ty, nm, c, loop) == if r.Ok? then Ok(Logged(r.c, CloseStruct(r.c.pos))) else r
  {
    hide ParseBitfield;
  }

  lemma BitsIn(g: Grammar, ty: Type, d: Standing, dm: set<Name>)
    requires ty.Bitfield? && Fragment(g, ty, d, dm)
    ensures ty.entries != [] && forall i :: 0 <= i < |ty.entries| ==> ty.entries[i].where.Some? ==> Sound(d)
  {}

  lemma {:induction false} RunBits(w: World, code: seq<Node>, ty: Type, r: Rho, next: Label, s: State, fuel: nat, d: Standing)
    returns (n: nat, t: State)
    requires ty.Bitfield? && Here(w, code, CompileLeaf(code, ty, r, next), s)
    requires Fragment(w.g, ty, d, w.dm) && FrameOk(w.p, d, r, s.frames)
    ensures Outcome(w, s, s, next, ParseType(w.g, w.p.input, fuel, ty, FieldName(r), CoreOf(s), LoopVar(s.frames)), fuel, n, t)
  {
    hide Run, Step, StepNode, ParseType, ParseBitfield, CompileLeaf, CompileBitfield, FrameOk, Chain, HandlersOk, Outcome, Holds, PatchNode,
         LoopVar, FieldName, Fragment, Falls, Lands, AbortOk, Unwind;
    var b := CompileLeaf(code, ty, r, next);
    var ec := code + [EndStruct(next)];
    var bf := CompileBitfield(ec, ty.container, ty.entries, r, |code|);
    BitsHeld(w, code, ty, r, next);
    BitsIn(w.g, ty, d, w.dm);
    BitsMean(w.g, w.p.input, fuel, ty, FieldName(r), CoreOf(s), LoopVar(s.frames));
    OpenStep(w.p, s, FieldName(r), 0, bf.entry);
    var s1 := RunLog(w, s, b.entry, OpenStruct(FieldName(r), s.pos), bf.entry);
    var n1, t1 := RunBitfield(w, ec, ty.container, ty.entries, r, |code|, s1, d, fuel);
    n, t := CloseScope(w, s, s1, |code|, next, ParseBitfield(w.p.input, ty.container, ty.entries, CoreOf(s1), LoopVar(s1.frames)), fuel, n1, t1);
  }

  lemma {:induction false} RunStruct(w: World, code: seq<Node>, ty: Type, r: Rho, next: Label, s: State, fuel: nat, d: Standing)
    returns (n: nat, t: State)
    requires Loaded(w) && ty.Struct? && Here(w, code, CompileStruct(code, ty, r, next), s)
    requires Fragment(w.g, ty, d, w.dm) && FrameOk(w.p, d, r, s.frames)
    ensures Outcome(w, s, s, next, ParseType(w.g, w.p.input, fuel, ty, FieldName(r), CoreOf(s), LoopVar(s.frames)), fuel, n, t)
    decreases fuel, ty, 3
  {
    hide Run, Step, ParseRecord, CompileRecord, FrameOk, Chain, HandlersOk, Outcome, RuleIn, Accepted;
    var b := CompileStruct(code, ty, r, next);
    var end := Emit(code, EndStruct(next));
    var rec := CompileRecord(end.code, ty, r, end.entry);
    HoldsPart(w, |code|, b.code, |end.code|, rec.code);
    assert w.p.code[b.entry] == BeginStruct(FieldName(r), rec.entry);
    assert w.p.code[|code|] == EndStruct(next);
    var s1 := RunLog(w, s, b.entry, OpenStruct(FieldName(r), s.pos), rec.entry);
    var n1, t1 := RunRecord(w, end.code, ty, r, end.entry, s1, fuel, d);
    n, t := CloseScope(w, s, s1, |code|, next, ParseRecord(w.g, w.p.input, fuel, ty, CoreOf(s1), LoopVar(s1.frames)), fuel, n1, t1);
  }

  /** Continue an outcome that reached `mid` with a second one from there. */
  lemma Continue(w: World, s: State, mid: Label, next: Label, r1: Res, r2: Res, fuel: nat, n1: nat, t1: State, n2: nat, t2: State)
    requires Outcome(w, s, s, mid, r1, fuel, n1, t1) && r1.Ok?
    requires Outcome(w, t1, t1, next, r2, fuel, n2, t2)
    ensures Outcome(w, s, s, next, r2, fuel, n1 + n2, t2)
  {
    assert Run(w.p, s, n1, t1) && Follows(s, t1);
    hide Outcome, Run, Follows;
    FollowsRebase(w, s, t1, t1, next, r2, fuel, n2, t2);
    Prepend(w, s, s, n1, t1, next, r2, fuel, n2, t2);
  }

  /** What a successful outcome provides to whatever runs next. */
  lemma Reached(w: World, s: State, next: Label, r: Res, fuel: nat, n: nat, t: State)
    requires Outcome(w, s, s, next, r, fuel, n, t) && r.Ok?
    ensures Spine(w.p, t, next) && t.frames == s.frames && CoreOf(t) == r.c && Follows(s, t) && Run(w.p, s, n, t)
  {
    hide Run;
  }

  lemma {:induction false} RunRecord(w: World, code: seq<Node>, ty: Type, r: Rho, next: Label, s: State, fuel: nat, d: Standing)
    returns (n: nat, t: State)
    requires Loaded(w) && ty.Struct? && Here(w, code, CompileRecord(code, ty, r, next), s)
    requires (ty.where.Some? ==> Sound(d)) && (forall i :: 0 <= i < |ty.fields| ==> FieldIn(w.g, ty.fields[i], d, w.dm))
    requires FrameOk(w.p, d, r, s.frames)
    ensures Outcome(w, s, s, next, ParseRecord(w.g, w.p.input, fuel, ty, CoreOf(s), LoopVar(s.frames)), fuel, n, t)
    decreases fuel, ty, 2
  {
    hide Run, Step, Spine, ParseFields, CompileFields, WrapWhere, FrameOk, Outcome, Check, Holds, RuleIn, Accepted;
    var b := CompileRecord(code, ty, r, next);
    var wh := WrapWhere(code, ty.where, r, next);
    HoldsPart(w, |code|, b.code, |code|, wh.code);
    HoldsPart(w, |code|, b.code, |wh.code|, b.code);
    SpineCore(w.p, s, b.entry);
    n, t := RunFields(w, wh.code, ty.fields, r, wh.entry, s, fuel, d);
    var r1 := ParseFields(w.g, w.p.input, fuel, ty.fields, CoreOf(s), LoopVar(s.frames));
    if r1.Ok? {
      Reached(w, s, wh.entry, r1, fuel, n, t);
      var n2, t2 := RunWhere(w, code, ty.where, r, next, t, d, fuel);
      Continue(w, s, wh.entry, next, r1, Check(w.p.input, ty.where, CoreOf(t), LoopVar(t.frames)), fuel, n, t, n2, t2);
      n, t := n + n2, t2;
    } else {
      OutcomeNext(w, s, wh.entry, next, r1, fuel, n, t);
    }
  }

  /** An outcome that is not a success does not depend on where it was heading. */
  lemma OutcomeNext(w: World, s: State, l1: Label, l2: Label, r: Res, fuel: nat, n: nat, t: State)
    requires Outcome(w, s, s, l1, r, fuel, n, t) && !r.Ok?
    ensures Outcome(w, s, s, l2, r, fuel, n, t)
  {}

  // ── Fields ────────────────────────────────────────────────────────────

  /** The fields of a struct; with an @rest field among them, the window it opened is
      closed, checked, at the end. */
  lemma {:induction false} RunFields(w: World, code: seq<Node>, fields: seq<Field>, r: Rho, next: Label, s: State, fuel: nat, d: Standing)
    returns (n: nat, t: State)
    requires Loaded(w) && Here(w, code, CompileFields(code, fields, r, next), s)
    requires (forall i :: 0 <= i < |fields| ==> FieldIn(w.g, fields[i], d, w.dm)) && FrameOk(w.p, d, r, s.frames)
    ensures Outcome(w, s, s, next, ParseFields(w.g, w.p.input, fuel, fields, CoreOf(s), LoopVar(s.frames)), fuel, n, t)
    decreases fuel, fields, 2
  {
    hide Run, Step, Spine, ParseChain, CompileChain, FrameOk, Outcome, CloseWindow, Holds, RuleIn, Accepted, HasRest, FieldIn;
    var b := CompileFields(code, fields, r, next);
    SpineCore(w.p, s, b.entry);
    var loop := LoopVar(s.frames);
    if HasRest(fields) {
      var pop := Emit(code, PopInterval(true, next));
      HoldsPart(w, |code|, b.code, |pop.code|, b.code);
      HoldsNode(w, |code|, b.code, |code|);
      n, t := RunChain(w, pop.code, fields, r, |code|, s, fuel, d);
      var r1 := ParseChain(w.g, w.p.input, fuel, fields, CoreOf(s), loop);
      if r1.Ok? {
        Reached(w, s, |code|, r1, fuel, n, t);
        var n2, t2 := RunPop(w, s, t, |code|, true, next, fuel);
        Prepend(w, s, s, n, t, next, CloseWindow(w.p.input, CoreOf(t), true), fuel, n2, t2);
        n, t := n + n2, t2;
      } else {
        OutcomeNext(w, s, |code|, next, r1, fuel, n, t);
      }
    } else {
      n, t := RunChain(w, code, fields, r, next, s, fuel, d);
    }
  }

  lemma HoldsNode(w: World, lo: nat, code: seq<Node>, l: Label)
    requires |w.entries| == |w.g| && Holds(w, lo, code) && lo <= l < |code|
    ensures l < |w.p.code| && (!code[l].InvokeRule? ==> w.p.code[l] == code[l])
    ensures code[l].InvokeRule? ==> w.p.code[l] == PatchNode(code[l], w.g, w.entries)
  {}

  lemma {:induction false} RunChain(w: World, code: seq<Node>, fields: seq<Field>, r: Rho, next: Label, s: State, fuel: nat, d: Standing)
    returns (n: nat, t: State)
    requires Loaded(w) && Here(w, code, CompileChain(code, fields, r, next), s)
    requires (forall i :: 0 <= i < |fields| ==> FieldIn(w.g, fields[i], d, w.dm)) && FrameOk(w.p, d, r, s.frames)
    ensures var res := ParseChain(w.g, w.p.input, fuel, fields, CoreOf(s), LoopVar(s.frames));
            Outcome(w, s, s, next, res, fuel, n, t) && (res.Ok? && HasRest(fields) ==> t.depth > s.depth)
    decreases fuel, fields, 1
  {
    hide Run, Step, Spine, CompileField, FrameOk, Outcome, Holds, RuleIn, Accepted, ParseField, FieldIn, LoopVar;
    var b := CompileChain(code, fields, r, next);
    SpineCore(w.p, s, b.entry);
    var loop := LoopVar(s.frames);
    if fields == [] {
      n, t := 0, s;
      Stay(w, s, next, fuel);
    } else {
      var rest := CompileChain(code, fields[1..], r, next);
      HoldsPart(w, |code|, b.code, |code|, rest.code);
      HoldsPart(w, |code|, b.code, |rest.code|, b.code);
      n, t := RunField(w, rest.code, fields[0], r, rest.entry, s, fuel, d);
      var r1 := ParseField(w.g, w.p.input, fuel, fields[0], CoreOf(s), loop);
      RestSplit(fields);
      if r1.Ok? {
        Reached(w, s, rest.entry, r1, fuel, n, t);
        var n2, t2 := RunChain(w, code, fields[1..], r, next, t, fuel, d);
        var r2 := ParseChain(w.g, w.p.input, fuel, fields[1..], r1.c, loop);
        if r2.Ok? { Reached(w, t, next, r2, fuel, n2, t2); }
        Continue(w, s, rest.entry, next, r1, r2, fuel, n, t, n2, t2);
        n, t := n + n2, t2;
      } else {
        OutcomeNext(w, s, rest.entry, next, r1, fuel, n, t);
      }
    }
  }

  lemma Stay(w: World, s: State, next: Label, fuel: nat)
    requires Spine(w.p, s, next)
    ensures s.depth <= |s.wins| && Outcome(w, s, s, next, Ok(CoreOf(s)), fuel, 0, s)
  {
    SpineSafe(w.p, s, next);
  }

  lemma {:induction false} RunField(w: World, code: seq<Node>, f: Field, r: Rho, next: Label, s: State, fuel: nat, d: Standing)
    returns (n: nat, t: State)
    requires Loaded(w) && Here(w, code, CompileField(code, f, r, next), s)
    requires FieldIn(w.g, f, d, w.dm) && FrameOk(w.p, d, r, s.frames)
    ensures var res := ParseField(w.g, w.p.input, fuel, f, CoreOf(s), LoopVar(s.frames));
            Outcome(w, s, s, next, res, fuel, n, t) && (res.Ok? && f.rest ==> t.depth > s.depth)
    decreases fuel, f, 1
  {
    hide Run, Step, Spine, FrameOk, Outcome, Holds, RuleIn, Accepted, CompileType, Fragment, LoopVar, OpenInterval,
         CloseWindow, OpenRelative, IntervalEntry, Keeps;
    var b := CompileField(code, f, r, next);
    SpineCore(w.p, s, b.entry);
    var loop := LoopVar(s.frames);
    var fr := InField(f.name, r);
    FieldFrame(w.p, d, f.name, r, s.frames);
    if f.rest {
      var push := Emit(code, PushInterval(true, RefK(f.name), next));
      HoldsPart(w, |code|, b.code, |push.code|, b.code);
      HoldsNode(w, |code|, b.code, |code|);
      n, t := RunType(w, push.code, f.body, fr, |code|, s, fuel, d);
      var r1 := ParseType(w.g, w.p.input, fuel, f.body, f.name, CoreOf(s), loop);
      if r1.Ok? {
        Reached(w, s, |code|, r1, fuel, n, t);
        assert CompileExpr(Ref(f.name)) == RefK(f.name);
        var n2, t2 := RunPushRel(w, t, |code|, Ref(f.name), next, fuel);
        Continue(w, s, |code|, next, r1, OpenRelative(w.p.input, r1.c, Ref(f.name), loop), fuel, n, t, n2, t2);
        n, t := n + n2, t2;
      } else {
        OutcomeNext(w, s, |code|, next, r1, fuel, n, t);
      }
    } else if f.interval.Some? {
      n, t := RunWindowed(w, code, f.body, f.interval.value, fr, next, s, fuel, d);
    } else {
      n, t := RunType(w, code, f.body, fr, next, s, fuel, d);
    }
  }

  lemma FieldFrame(p: Program, d: Standing, nm: Name, r: Rho, fs: seq<Frame>)
    requires FrameOk(p, d, r, fs)
    ensures FrameOk(p, d, InField(nm, r), fs) && FieldName(InField(nm, r)) == nm
  {}

  /** A type inside its own window: open, parse, close unchecked. */
  lemma {:induction false} RunWindowed(w: World, code: seq<Node>, ty: Type, iv: Interval, r: Rho, next: Label, s: State, fuel: nat, d: Standing)
    returns (n: nat, t: State)
    requires Loaded(w) && |w.entries| == |w.g|
    requires var pop := Emit(code, PopInterval(false, next));
             var body := CompileType(pop.code, ty, r, pop.entry);
             Here(w, code, IntervalEntry(body.code, iv, body.entry), s)
    requires Fragment(w.g, ty, d, w.dm) && FrameOk(w.p, d, r, s.frames)
    ensures var o := OpenInterval(w.p.input, CoreOf(s), iv, LoopVar(s.frames));
            Outcome(w, s, s, next,
              if !o.Ok? then o
              else var b := ParseType(w.g, w.p.input, fuel, ty, FieldName(r), o.c, LoopVar(s.frames));
                   if !b.Ok? then b else CloseWindow(w.p.input, b.c, false),
              fuel, n, t)
    decreases fuel, ty, 5
  {
    hide Run, Step, Spine, FrameOk, Outcome, Holds, RuleIn, Accepted, CompileType, Fragment, LoopVar, OpenInterval,
         CloseWindow, IntervalEntry, FieldName;
    var pop := Emit(code, PopInterval(false, next));
    var body := CompileType(pop.code, ty, r, pop.entry);
    var iv_ := IntervalEntry(body.code, iv, body.entry);
    SpineCore(w.p, s, iv_.entry);
    var loop := LoopVar(s.frames);
    HoldsPart(w, |code|, iv_.code, |body.code|, iv_.code);
    HoldsPart(w, |code|, iv_.code, |pop.code|, body.code);
    HoldsNode(w, |code|, iv_.code, |code|);
    n, t := RunInterval(w, body.code, iv, body.entry, s, fuel);
    var o := OpenInterval(w.p.input, CoreOf(s), iv, loop);
    if o.Ok? {
      Reached(w, s, body.entry, o, fuel, n, t);
      var n2, t2 := RunType(w, pop.code, ty, r, |code|, t, fuel, d);
      var r2 := ParseType(w.g, w.p.input, fuel, ty, FieldName(r), o.c, loop);
      if r2.Ok? {
        Reached(w, t, |code|, r2, fuel, n2, t2);
        FollowsTrans(s, t, t2);
        var n3, t3 := RunPop(w, s, t2, |code|, false, next, fuel);
        Prepend(w, s, t, n2, t2, next, CloseWindow(w.p.input, CoreOf(t2), false), fuel, n3, t3);
        Prepend(w, s, s, n, t, next, CloseWindow(w.p.input, CoreOf(t2), false), fuel, n2 + n3, t3);
        n, t := n + (n2 + n3), t3;
      } else {
        OutcomeNext(w, t, |code|, next, r2, fuel, n2, t2);
        Continue(w, s, body.entry, next, o, r2, fuel, n, t, n2, t2);
        n, t := n + n2, t2;
      }
    } else {
      OutcomeNext(w, s, body.entry, next, o, fuel, n, t);
    }
  }

  // ── Options ───────────────────────────────────────────────────────────

  lemma {:induction false} RunOptional(w: World, code: seq<Node>, ty: Type, r: Rho, next: Label, s: State, fuel: nat, d: Standing)
    returns (n: nat, t: State)
    requires Loaded(w) && ty.Optional? && Here(w, code, CompileOptional(code, ty, r, next), s)
    requires Fragment(w.g, ty, d, w.dm) && FrameOk(w.p, d, r, s.frames)
    ensures Outcome(w, s, s, next, ParseType(w.g, w.p.input, fuel, ty, FieldName(r), CoreOf(s), LoopVar(s.frames)), fuel, n, t)
    decreases fuel, ty, 3
  {
    hide Run, Step, FrameOk, Outcome, Holds, RuleIn, Accepted, CompileType, LoopVar, Spine, PatchNode;
    var b := CompileOptional(code, ty, r, next);
    SpineCore(w.p, s, b.entry);
    if ty.pred.Some? {
      n, t := RunPredicated(w, code, ty, r, next, s, fuel, d);
    } else {
      var skip, end := |code| + 1, |code|;
      var c2 := Emit(Emit(code, EndOptional(next)).code, OnFail(Some(next), None, true)).code;
      var inner := CompileType(c2, ty.elem, InOptional(skip, r), end);
      HoldsPart(w, |code|, b.code, |c2|, inner.code);
      HoldsNode(w, |code|, b.code, end);
      HoldsNode(w, |code|, b.code, skip);
      HoldsNode(w, |code|, b.code, b.entry);
      var s1 := BeginTry(w, s, b.entry, skip, inner.entry);
      SpineCore(w.p, s1, inner.entry);
      TryFrame(w.p, skip, r, s1.frames);
      var n1, t1 := RunType(w, c2, ty.elem, InOptional(skip, r), end, s1, fuel, ToOption);
      var res := ParseType(w.g, w.p.input, fuel, ty.elem, FieldName(r), CoreOf(s), LoopVar(s.frames));
      n, t := EndTry(w, s, s1, end, skip, next, res, fuel, n1, t1);
    }
  }

  lemma EndTry(w: World, s: State, s1: State, end: Label, skip: Label, next: Label, res: Res, fuel: nat, n1: nat, t1: State)
    returns (n: nat, t: State)
    requires Run(w.p, s, 1, s1) && Chained(w.p, s1) && InWindow(w.p, s1) && !s1.failed && Keeps(s, s1) && s.depth == s1.depth && CoreOf(s1) == CoreOf(s)
    requires s1.frames != [] && s1.frames[1..] == s.frames && Saves(s1.frames[0], s1) && s1.frames[0].onFail == Some(skip)
    requires end < |w.p.code| && w.p.code[end] == EndOptional(next)
    requires skip < |w.p.code| && w.p.code[skip] == OnFail(Some(next), None, true)
    requires Outcome(w, s1, s1, end, res, fuel, n1, t1)
    ensures Outcome(w, s, s, next, if res.Failed? then Ok(CoreOf(s)) else res, fuel, n, t)
  {
    hide Step, Chain, HandlersOk, Run, Unwind;
    RunTrans(w.p, s, 1, s1, n1, t1);
    RunSteps(w.p, s1, n1, t1);
    n, t := 1 + n1, t1;
    match res
    case Ok(c) =>
      var t2 := CommitTry(w, s, t1, end, next);
      RunTrans(w.p, s, n, t1, 1, t2);
      n, t := n + 1, t2;
    case Failed =>
      var t2 := RunHandler(w, s1, t1, skip, next, None, true);
      RunTrans(w.p, s, n, t1, 1, t2);
      n, t := n + 1, t2;
    case Out =>
  }

  /** A predicated optional: no savepoint, the condition decides presence. */
  lemma {:induction false} RunPredicated(w: World, code: seq<Node>, ty: Type, r: Rho, next: Label, s: State, fuel: nat, d: Standing)
    returns (n: nat, t: State)
    requires Loaded(w) && ty.Optional? && ty.pred.Some? && Here(w, code, CompileOptional(code, ty, r, next), s)
    requires Fragment(w.g, ty, d, w.dm) && FrameOk(w.p, d, r, s.frames)
    ensures Outcome(w, s, s, next, ParseType(w.g, w.p.input, fuel, ty, FieldName(r), CoreOf(s), LoopVar(s.frames)), fuel, n, t)
    decreases fuel, ty, 2
  {
    hide Run, Step, FrameOk, Outcome, Holds, RuleIn, Accepted, CompileType, CompileExpr, EvalExpr, Chain, HandlersOk, Fragment;
    var b := CompileOptional(code, ty, r, next);
    var inner := CompileType(code, ty.elem, r, next);
    HoldsPart(w, |code|, b.code, |code|, inner.code);
    HoldsNode(w, |code|, b.code, b.entry);
    CtxSame(w.p, s);
    var ok, n1, t1, yes := RunBranch(w, s, b.entry, ty.pred.value, next, inner.entry);
    n, t := n1, t1;
    FragmentOptional(w.g, ty, d, w.dm);
    if ok && yes {
      var n2, t2 := RunType(w, code, ty.elem, r, next, t1, fuel, d);
      var res := ParseType(w.g, w.p.input, fuel, ty.elem, FieldName(r), CoreOf(s), LoopVar(s.frames));
      FollowsRebase(w, s, t1, t1, next, res, fuel, n2, t2);
      Prepend(w, s, s, n1, t1, next, res, fuel, n2, t2);
      n, t := n1 + n2, t2;
    } else {
      Landed(w, s, next, ok, fuel, n, t);
    }
  }

  lemma FragmentOptional(g: Grammar, ty: Type, d: Standing, dm: set<Name>)
    requires ty.Optional? && Fragment(g, ty, d, dm)
    ensures Fragment(g, ty.elem, if ty.pred.None? then ToOption else d, dm)
  {}

  lemma Landed(w: World, s: State, next: Label, ok: bool, fuel: nat, n: nat, t: State)
    requires Run(w.p, s, n, t)
    requires if ok then Spine(w.p, t, next) && Follows(s, t) && CoreOf(t) == CoreOf(s) else AtFail(w.p, s, t)
    ensures s.depth <= |s.wins| && Outcome(w, s, s, next, if ok then Ok(CoreOf(s)) else Failed, fuel, n, t)
  {
    hide Run;
  }

  /** A boolean branch on the spine. */
  lemma {:induction false} RunBranch(w: World, s: State, l: Label, e: Expr, no: Label, yesL: Label)
    returns (ok: bool, n: nat, t: State, yes: bool)
    requires Spine(w.p, s, l) && l < |w.p.code| && w.p.code[l] == EvalConstraint(CompileExpr(e), no, yesL)
    ensures var v := ValueOf(w.p.input, e, CoreOf(s), LoopVar(s.frames));
            (ok <==> v.Some? && Truth(v.value).Some?) && (ok ==> yes == Truth(v.value).value)
    ensures Run(w.p, s, n, t)
    ensures if ok then Spine(w.p, t, if yes then yesL else no) && Follows(s, t) && CoreOf(t) == CoreOf(s) else AtFail(w.p, s, t)
  {
    hide Run, Step, StepNode, CompileExpr, EvalExpr, Chain, HandlersOk, Unwind, AtFail, Follows, Fail;
    var dk := ConstraintCheck(no, yesL);
    CtxSame(w.p, s);
    var s1 := s.(k := [Dyn(dk), Ex(CompileExpr(e))]);
    CheckSite(w.p, s.(k := []), CompileExpr(e), no, yesL);
    n, t := SiteOpen(w.p, s, l, s1, dk, e);
    var v := EvalExpr(e, CtxOf(w.p, s1));
    ok := v.Some? && Truth(v.value).Some?;
    yes := ok && Truth(v.value).value;
    if v.Some? {
      if ok {
        var t2 := t.(k := [Sp(if yes then yesL else no)]);
        SiteGoes(w, s, n, t, t2, if yes then yesL else no);
        n, t := n + 1, t2;
      } else {
        SiteFails(w, s, n, t);
        n, t := n + 1, Fail(t.(k := []));
      }
    }
  }

  // ── Ordered choice ────────────────────────────────────────────────────

  lemma {:induction false} RunChoice(w: World, code: seq<Node>, ty: Type, r: Rho, next: Label, s: State, fuel: nat, d: Standing)
    returns (n: nat, t: State)
    requires Loaded(w) && ty.Choice? && Here(w, code, CompileChoice(code, ty, r, next), s)
    requires Fragment(w.g, ty, d, w.dm) && FrameOk(w.p, d, r, s.frames)
    ensures Outcome(w, s, s, next, ParseType(w.g, w.p.input, fuel, ty, FieldName(r), CoreOf(s), LoopVar(s.frames)), fuel, n, t)
    decreases fuel, ty, 3
  {
    hide Run, Step, FrameOk, Outcome, Holds, Fragment, RuleIn, Accepted, CompileChoice, CompileArm, CompileArms, ParseType, LoopVar, Spine, ArmIn, ArmsIn, ParseArm;
    var b := CompileChoice(code, ty, r, next);
    ChoiceCode(code, ty, r, next);
    ChoiceIn(w.g, ty, d, w.dm);
    SpineCore(w.p, s, b.entry);
    var loop := LoopVar(s.frames);
    ChoiceMeans(w.g, w.p.input, fuel, ty, FieldName(r), CoreOf(s), loop);
    if ty.arms == [] {
      n, t := 0, s;
      Stay(w, s, next, fuel);
    } else if |ty.arms| == 1 {
      n, t := RunArm(w, code, ty.arms[0], 0, r, next, s, fuel, d);
      ArmsMean(w.g, w.p.input, fuel, ty.arms, 0, FieldName(r), CoreOf(s), loop);
    } else {
      n, t := RunChoices(w, code, ty, r, next, s, fuel, d);
    }
  }

  /** Two arms or more, tried under one savepoint. */
  lemma {:induction false} RunChoices(w: World, code: seq<Node>, ty: Type, r: Rho, next: Label, s: State, fuel: nat, d: Standing)
    returns (n: nat, t: State)
    requires Loaded(w) && ty.Choice? && |ty.arms| > 1 && Here(w, code, CompileChoice(code, ty, r, next), s)
    requires FrameOk(w.p, d, r, s.frames) && ArmsIn(w.g, ty.arms, d, w.dm)
    ensures Outcome(w, s, s, next, ParseArms(w.g, w.p.input, fuel, ty.arms, 0, FieldName(r), CoreOf(s), LoopVar(s.frames)), fuel, n, t)
    decreases fuel, ty, 2
  {
    hide Run, Step, Outcome, Holds, RuleIn, Accepted, CompileChoice, CompileArm, CompileArms, ParseArms, LoopVar, Spine, ArmsIn, FrameOk,
         ParseArm, Saves, Keeps, Chain, HandlersOk, PatchNode;
    var b := CompileChoice(code, ty, r, next);
    var commit, exh := |code|, |code| + 1;
    var c2 := code + [CommitChoice(next), OnFail(None, None, true)];
    var arms := CompileArms(c2, ty.arms, 0, r, commit, exh);
    ChoiceHeld(w, code, ty, r, next);
    SpineCore(w.p, s, b.entry);
    var s1 := BeginTry(w, s, b.entry, arms.link, arms.entry);
    SpineCore(w.p, s1, arms.entry);
    var n1, t1 := RunArms(w, c2, ty.arms, 0, r, commit, exh, next, s, s1, fuel, d);
    var res := ParseArms(w.g, w.p.input, fuel, ty.arms, 0, FieldName(r), CoreOf(s), LoopVar(s.frames));
    Prepend(w, s, s, 1, s1, next, res, fuel, n1, t1);
    n, t := 1 + n1, t1;
  }

  /** What a choice is lowered to, and what it means. */
  lemma ChoiceCode(code: seq<Node>, ty: Type, r: Rho, next: Label)
    requires ty.Choice?
    ensures ty.arms == [] ==> CompileChoice(code, ty, r, next) == Built(code, next)
    ensures |ty.arms| == 1 ==> CompileChoice(code, ty, r, next) == CompileArm(code, ty.arms[0], 0, r, next)
    ensures |ty.arms| > 1 ==>
              var c2 := code + [CommitChoice(next), OnFail(None, None, true)];
              var arms := CompileArms(c2, ty.arms, 0, r, |code|, |code| + 1);
              CompileChoice(code, ty, r, next) == Emit(arms.code, BeginChoice(arms.link, arms.entry))
  {
    hide CompileArm, CompileArms;
    assert (code + [CommitChoice(next)]) + [OnFail(None, None, true)] == code + [CommitChoice(next), OnFail(None, None, true)];
  }

  /** The nodes of a loaded choice. */
  lemma ChoiceHeld(w: World, code: seq<Node>, ty: Type, r: Rho, next: Label)
    requires ty.Choice? && |ty.arms| > 1 && |w.entries| == |w.g|
    requires Holds(w, |code|, CompileChoice(code, ty, r, next).code)
    ensures var c2 := code + [CommitChoice(next), OnFail(None, None, true)];
            var arms := CompileArms(c2, ty.arms, 0, r, |code|, |code| + 1);
            var b := CompileChoice(code, ty, r, next);
            && |code| + 1 < b.entry < |w.p.code| && Holds(w, |c2|, arms.code) && IsHandler(w.p, arms.link)
            && w.p.code[|code|] == CommitChoice(next) && w.p.code[|code| + 1] == OnFail(None, None, true)
            && w.p.code[b.entry] == BeginChoice(arms.link, arms.entry)
  {
    hide Holds, CompileChoice, CompileArms;
    var b := CompileChoice(code, ty, r, next);
    var commit, exh := |code|, |code| + 1;
    var c2 := code + [CommitChoice(next), OnFail(None, None, true)];
    var arms := CompileArms(c2, ty.arms, 0, r, commit, exh);
    ChoiceCode(code, ty, r, next);
    HoldsPart(w, |code|, b.code, |c2|, arms.code);
    HoldsNode(w, |code|, b.code, commit);
    HoldsNode(w, |code|, b.code, exh);
    HoldsNode(w, |code|, b.code, b.entry);
    LinkIs(w, c2, ty.arms, 0, r, commit, exh);
  }

  lemma ChoiceMeans(g: Grammar, input: Bytes, fuel: nat, ty: Type, nm: Name, c: Core, loop: Option<int>)
    requires ty.Choice?
    ensures ParseType(g, input, fuel, ty, nm, c, loop)
            == if ty.arms == [] then Ok(c) else ParseArms(g, input, fuel, ty.arms, 0, nm, c, loop)
  {
    hide ParseArms;
  }

  lemma ChoiceIn(g: Grammar, ty: Type, d: Standing, dm: set<Name>)
    requires ty.Choice? && Fragment(g, ty, d, dm)
    ensures |ty.arms| == 1 ==> ArmIn(g, ty.arms[0], d, dm)
    ensures |ty.arms| > 1 ==> ArmsIn(g, ty.arms, d, dm)
  {
    hide ArmIn;
  }

  /** The link of the first of several arms dispatches to the second; of the last, nowhere. */
  lemma LinkIs(w: World, code: seq<Node>, arms: seq<Arm>, i: nat, r: Rho, commit: Label, exh: Label)
    requires arms != [] && |w.entries| == |w.g|
    requires var b := CompileArms(code, arms, i, r, commit, exh); Holds(w, |code|, b.code)
    requires exh < |w.p.code| && w.p.code[exh] == OnFail(None, None, true)
    ensures var b := CompileArms(code, arms, i, r, commit, exh);
            IsHandler(w.p, b.link)
            && if |arms| == 1 then b.link == exh
               else var rest := CompileArms(code, arms[1..], i + 1, r, commit, exh);
                    w.p.code[b.link] == OnFail(Some(rest.entry), Some(rest.link), false) && b.link == |rest.code|
  {
    hide PatchNode, CompileType;
    if |arms| > 1 {
      var b := CompileArms(code, arms, i, r, commit, exh);
      var rest := CompileArms(code, arms[1..], i + 1, r, commit, exh);
      var link := Emit(rest.code, OnFail(Some(rest.entry), Some(rest.link), false));
      hide CompileArms, CompileArm;
      assert link.code <= b.code;
      HoldsNode(w, |code|, b.code, |rest.code|);
    }
  }

  /** The code of several arms: the first under its link, then the others. */
  lemma ArmsHeld(w: World, code: seq<Node>, arms: seq<Arm>, i: nat, r: Rho, commit: Label, exh: Label)
    requires |arms| > 1 && |w.entries| == |w.g|
    requires Holds(w, |code|, CompileArms(code, arms, i, r, commit, exh).code)
    requires exh < |w.p.code| && w.p.code[exh] == OnFail(None, None, true)
    ensures var b := CompileArms(code, arms, i, r, commit, exh);
            var rest := CompileArms(code, arms[1..], i + 1, r, commit, exh);
            var link := Emit(rest.code, OnFail(Some(rest.entry), Some(rest.link), false));
            var arm := CompileArm(link.code, arms[0], i, InAlt(b.link, r), commit);
            && b.code == arm.code && b.entry == arm.entry
            && Holds(w, |code|, rest.code) && Holds(w, |link.code|, arm.code)
            && b.link < |w.p.code| && w.p.code[b.link] == OnFail(Some(rest.entry), Some(rest.link), false) && IsHandler(w.p, rest.link)
  {
    hide CompileArm, Holds, PatchNode;
    var b := CompileArms(code, arms, i, r, commit, exh);
    var rest := CompileArms(code, arms[1..], i + 1, r, commit, exh);
    var link := Emit(rest.code, OnFail(Some(rest.entry), Some(rest.link), false));
    assert link.code <= b.code;
    hide CompileArms;
    LinkIs(w, code, arms, i, r, commit, exh);
    HoldsPart(w, |code|, b.code, |code|, rest.code);
    HoldsPart(w, |code|, b.code, |link.code|, b.code);
    LinkIs(w, code, arms[1..], i + 1, r, commit, exh);
  }

  lemma ArmsMean(g: Grammar, input: Bytes, fuel: nat, arms: seq<Arm>, i: nat, nm: Name, c: Core, loop: Option<int>)
    requires arms != []
    ensures var res := ParseArm(g, input, fuel, arms[0], i, nm, c, loop);
            ParseArms(g, input, fuel, arms, i, nm, c, loop)
            == if res.Failed? && |arms| > 1 then ParseArms(g, input, fuel, arms[1..], i + 1, nm, c, loop) else res
  {
    hide ParseArm;
  }

  /** The arms that are left of a choice of several are in the fragment. */
  predicate ArmsIn(g: Grammar, arms: seq<Arm>, d: Standing, dm: set<Name>) {
    forall j :: 0 <= j < |arms| ==> ArmIn(g, arms[j], if j + 1 < |arms| then Direct else InLastArm(d), dm)
  }

  lemma ArmsInFirst(g: Grammar, arms: seq<Arm>, d: Standing, dm: set<Name>)
    requires arms != [] && ArmsIn(g, arms, d, dm)
    ensures ArmIn(g, arms[0], if |arms| > 1 then Direct else InLastArm(d), dm) && ArmsIn(g, arms[1..], d, dm)
  {
    hide ArmIn;
    forall j | 0 <= j < |arms[1..]|
      ensures ArmIn(g, arms[1..][j], if j + 1 < |arms[1..]| then Direct else InLastArm(d), dm)
    {
      assert ArmIn(g, arms[j + 1], if j + 2 < |arms| then Direct else InLastArm(d), dm);
    }
  }

  /** Arms i.. under the choice's savepoint, seen from the state s before the choice: the
      first that succeeds commits; a failed one leaves no trace; when none is left the
      savepoint is gone and the failure goes on. */
  lemma {:induction false} RunArms(w: World, code: seq<Node>, arms: seq<Arm>, i: nat, r: Rho, commit: Label, exh: Label, next: Label,
                s: State, s1: State, fuel: nat, d: Standing)
    returns (n: nat, t: State)
    requires Loaded(w) && arms != [] && FrameOk(w.p, d, r, s.frames)
    requires var b := CompileArms(code, arms, i, r, commit, exh);
             Here(w, code, Built(b.code, b.entry), s1)
             && s1.frames != [] && s1.frames[1..] == s.frames && Saves(s1.frames[0], s1) && s1.frames[0].onFail == Some(b.link)
    requires Chained(w.p, s) && CoreOf(s1) == CoreOf(s) && Keeps(s, s1) && s1.depth == s.depth && LoopVar(s1.frames) == LoopVar(s.frames)
    requires commit < |w.p.code| && w.p.code[commit] == CommitChoice(next)
    requires exh < |w.p.code| && w.p.code[exh] == OnFail(None, None, true)
    requires ArmsIn(w.g, arms, d, w.dm)
    ensures Outcome(w, s, s1, next, ParseArms(w.g, w.p.input, fuel, arms, i, FieldName(r), CoreOf(s), LoopVar(s.frames)), fuel, n, t)
    decreases fuel, arms, 1
  {
    hide Run, Step, FrameOk, Outcome, Holds, RuleIn, Accepted, CompileArm, CompileArms, LoopVar, Spine, ArmIn, ArmsIn, ParseArm, ParseArms,
         Saves, Keeps, Chain, HandlersOk, Fragment, PatchNode;
    var b := CompileArms(code, arms, i, r, commit, exh);
    var loop, nm := LoopVar(s.frames), FieldName(r);
    var res := ParseArm(w.g, w.p.input, fuel, arms[0], i, nm, CoreOf(s), loop);
    ArmsInFirst(w.g, arms, d, w.dm);
    ArmsMean(w.g, w.p.input, fuel, arms, i, nm, CoreOf(s), loop);
    SpineCore(w.p, s1, b.entry);
    SaveShape(s1);
    if |arms| == 1 {
      LastArmCode(code, arms, i, r, commit, exh);
      LastFrame(w.p, d, r, s1.frames, exh);
      n, t := RunArm(w, code, arms[0], i, r, commit, s1, fuel, InLastArm(d));
      n, t := EndLastArm(w, s, s1, commit, exh, next, res, fuel, n, t);
    } else {
      var rest := CompileArms(code, arms[1..], i + 1, r, commit, exh);
      var link := Emit(rest.code, OnFail(Some(rest.entry), Some(rest.link), false));
      ArmsHeld(w, code, arms, i, r, commit, exh);
      TryFrame(w.p, b.link, r, s1.frames);
      n, t := RunArm(w, link.code, arms[0], i, InAlt(b.link, r), commit, s1, fuel, Direct);
      if res.Failed? {
        var s2 := NextArm(w, s, s1, b.link, rest.entry, rest.link, commit, fuel, n, t);
        var n2, t2 := RunArms(w, code, arms[1..], i + 1, r, commit, exh, next, s, s2, fuel, d);
        Prepend(w, s, s1, n + 1, s2, next, ParseArms(w.g, w.p.input, fuel, arms[1..], i + 1, nm, CoreOf(s), loop), fuel, n2, t2);
        n, t := n + 1 + n2, t2;
      } else {
        n, t := EndArm(w, s, s1, commit, next, res, fuel, n, t);
      }
    }
  }

  lemma LastArmCode(code: seq<Node>, arms: seq<Arm>, i: nat, r: Rho, commit: Label, exh: Label)
    requires |arms| == 1
    ensures var a := CompileArm(code, arms[0], i, r, commit);
            CompileArms(code, arms, i, r, commit, exh) == BuiltArms(a.code, a.entry, exh)
  {
    hide CompileArm;
  }

  /** The last arm's savepoint, whose handler gives up, over the frames of the choice. */
  lemma LastFrame(p: Program, d: Standing, r: Rho, fs: seq<Frame>, exh: Label)
    requires fs != [] && fs[0].SaveF? && fs[0].onFail == Some(exh) && Exhausted(p, exh) && FrameOk(p, d, r, fs[1..])
    ensures FrameOk(p, InLastArm(d), r, fs)
  {}

  lemma SaveShape(s: State)
    requires s.frames != [] && Saves(s.frames[0], s)
    ensures s.frames[0].SaveF?
  {}

  /** An arm that failed hands over to the next one, in the state the choice started from. */
  lemma NextArm(w: World, s: State, s1: State, link: Label, entry: Label, nextLink: Label, commit: Label, fuel: nat, n: nat, t: State)
    returns (s2: State)
    requires Outcome(w, s1, s1, commit, Failed, fuel, n, t)
    requires Chained(w.p, s1) && InWindow(w.p, s1) && !s1.failed && s1.depth == s.depth
    requires s1.frames != [] && s1.frames[1..] == s.frames && Saves(s1.frames[0], s1) && s1.frames[0].onFail == Some(link)
    requires link < |w.p.code| && w.p.code[link] == OnFail(Some(entry), Some(nextLink), false) && IsHandler(w.p, nextLink)
    requires Keeps(s, s1) && LoopVar(s1.frames) == LoopVar(s.frames)
    ensures Run(w.p, s1, n + 1, s2) && Spine(w.p, s2, entry) && CoreOf(s2) == CoreOf(s1)
    ensures s2.frames != [] && s2.frames[1..] == s.frames && Saves(s2.frames[0], s2) && s2.frames[0].onFail == Some(nextLink)
    ensures Keeps(s, s2) && s2.depth == s.depth && LoopVar(s2.frames) == LoopVar(s.frames)
  {
    hide Step, Run, Chain, HandlersOk;
    RunSteps(w.p, s1, n, t);
    s2 := RunHandler(w, s1, t, link, entry, Some(nextLink), false);
    RunTrans(w.p, s1, n, t, 1, s2);
    assert s2.wins[..s.depth] == s1.wins[..s.depth];
    assert s2.frames[1..] == s1.frames[1..];
    assert s2.log == s1.log && s2.env == s1.env && s2.pos == s1.pos && s2.le == s1.le;
  }

  lemma EndArm(w: World, s: State, s1: State, commit: Label, next: Label, res: Res, fuel: nat, n1: nat, t1: State)
    returns (n: nat, t: State)
    requires Outcome(w, s1, s1, commit, res, fuel, n1, t1) && !res.Failed?
    requires s1.frames != [] && s1.frames[0].SaveF? && s1.frames[1..] == s.frames && Keeps(s, s1) && s1.depth == s.depth
    requires commit < |w.p.code| && w.p.code[commit] == CommitChoice(next)
    ensures Outcome(w, s, s1, next, res, fuel, n, t)
  {
    hide Step, Run, Chain, HandlersOk;
    n, t := n1, t1;
    if res.Ok? {
      assert t1.wins[..s.depth] == s1.wins[..s.depth];
      var t2 := CommitTry(w, s, t1, commit, next);
      RunTrans(w.p, s1, n1, t1, 1, t2);
      n, t := n1 + 1, t2;
    }
  }

  lemma EndLastArm(w: World, s: State, s1: State, commit: Label, exh: Label, next: Label, res: Res, fuel: nat, n1: nat, t1: State)
    returns (n: nat, t: State)
    requires Outcome(w, s1, s1, commit, res, fuel, n1, t1)
    requires Chained(w.p, s1) && InWindow(w.p, s1) && !s1.failed && s1.depth == s.depth
    requires s1.frames != [] && s1.frames[1..] == s.frames && Saves(s1.frames[0], s1) && s1.frames[0].onFail == Some(exh)
    requires Keeps(s, s1)
    requires commit < |w.p.code| && w.p.code[commit] == CommitChoice(next)
    requires exh < |w.p.code| && w.p.code[exh] == OnFail(None, None, true)
    ensures Outcome(w, s, s1, next, res, fuel, n, t)
  {
    hide Step, Run, Chain, HandlersOk, Unwind;
    if res.Failed? {
      RunSteps(w.p, s1, n1, t1);
      var n2, t2 := RunExhausted(w, s, s1, t1, exh, None, true);
      RunTrans(w.p, s1, n1, t1, n2, t2);
      n, t := n1 + n2, t2;
    } else {
      n, t := EndArm(w, s, s1, commit, next, res, fuel, n1, t1);
    }
  }

  /** The nodes of an arm in the program. */
  lemma ArmHeld(w: World, code: seq<Node>, a: Arm, tag: nat, r: Rho, success: Label)
    requires |w.entries| == |w.g| && Holds(w, |code|, CompileArm(code, a, tag, r, success).code)
    ensures var b := CompileArm(code, a, tag, r, success);
            var ec := code + [EndStruct(success)];
            && |code| < |w.p.code| && w.p.code[|code|] == EndStruct(success) && b.entry < |w.p.code|
            && if a.body.RuleRef? then
                 w.p.code[b.entry] == BeginVariant(a.name, tag, |code| + 1) && CallNode(w, |code| + 1, a.body.rule, r, |code|)
               else
                 var body := CompileType(ec, a.body, r, |code|);
                 Holds(w, |ec|, body.code) && w.p.code[b.entry] == BeginVariant(a.name, tag, body.entry)
  {
    hide CompileType, PatchNode, Holds, BacktrackTarget;
    var b := CompileArm(code, a, tag, r, success);
    HoldsNode(w, |code|, b.code, |code|);
    HoldsNode(w, |code|, b.code, b.entry);
    if a.body.RuleRef? {
      HoldsNode(w, |code|, b.code, |code| + 1);
    } else {
      HoldsPart(w, |code|, b.code, |code| + 1, CompileType(code + [EndStruct(success)], a.body, r, |code|).code);
    }
  }

  lemma ArmMeans(g: Grammar, input: Bytes, fuel: nat, a: Arm, tag: nat, nm: Name, c: Core, loop: Option<int>)
    ensures var c1 := Logged(c, OpenVariant(a.name, c.pos, tag));
            var r := if a.body.RuleRef? then ParseRule(g, input, fuel, a.body.rule, c1, loop)
                     else ParseType(g, input, fuel, a.body, nm, c1, loop);
            ParseArm(g, input, fuel, a, tag, nm, c, loop) == if r.Ok? then Ok(Logged(r.c, CloseStruct(r.c.pos))) else r
  {
    hide ParseType, ParseRule;
  }

  lemma ArmBody(g: Grammar, a: Arm, d: Standing, dm: set<Name>)
    requires ArmIn(g, a, d, dm)
    ensures Fragment(g, a.body, d, dm)
    ensures a.body.RuleRef? ==> RuleIndex(g, a.body.rule).Some? && (a.body.rule in dm ==> Sound(d))
  {}

  lemma OpenStep(p: Program, s: State, nm: Name, tag: nat, next: Label)
    ensures StepNode(p, s.(k := []), BeginVariant(nm, tag, next)) == s.(k := [Sp(next)], log := s.log + [OpenVariant(nm, s.pos, tag)])
    ensures StepNode(p, s.(k := []), BeginStruct(nm, next)) == s.(k := [Sp(next)], log := s.log + [OpenStruct(nm, s.pos)])
  {
    hide StepArrayNext, StepBeginArray, StepEndArray, StepResync, StepOnFail;
  }

  /** One arm: its variant scope around its body. */
  lemma {:induction false} RunArm(w: World, code: seq<Node>, a: Arm, tag: nat, r: Rho, success: Label, s: State, fuel: nat, d: Standing)
    returns (n: nat, t: State)
    requires Loaded(w) && Here(w, code, CompileArm(code, a, tag, r, success), s)
    requires ArmIn(w.g, a, d, w.dm) && FrameOk(w.p, d, r, s.frames)
    ensures Outcome(w, s, s, success, ParseArm(w.g, w.p.input, fuel, a, tag, FieldName(r), CoreOf(s), LoopVar(s.frames)), fuel, n, t)
    decreases fuel, a, 1
  {
    hide Run, Step, StepNode, FrameOk, Outcome, RuleIn, Accepted, CompileType, CompileArm, ParseType, ParseRule, ParseArm, LoopVar, Holds,
         Chain, HandlersOk, CallNode, PatchNode, Fragment, ArmIn, Falls, Lands, AbortOk, Unwind;
    var b := CompileArm(code, a, tag, r, success);
    var end := |code|;
    var ec := code + [EndStruct(success)];
    ArmHeld(w, code, a, tag, r, success);
    ArmMeans(w.g, w.p.input, fuel, a, tag, FieldName(r), CoreOf(s), LoopVar(s.frames));
    ArmBody(w.g, a, d, w.dm);
    var inner := w.p.code[b.entry].next;
    OpenStep(w.p, s, a.name, tag, inner);
    var s1 := RunLog(w, s, b.entry, OpenVariant(a.name, s.pos, tag), inner);
    var loop := LoopVar(s.frames);
    if a.body.RuleRef? {
      var n1, t1 := RunRule(w, s1, inner, a.body.rule, r, end, fuel, d);
      n, t := CloseScope(w, s, s1, end, success, ParseRule(w.g, w.p.input, fuel, a.body.rule, CoreOf(s1), loop), fuel, n1, t1);
    } else {
      var n1, t1 := RunType(w, ec, a.body, r, end, s1, fuel, d);
      n, t := CloseScope(w, s, s1, end, success, ParseType(w.g, w.p.input, fuel, a.body, FieldName(r), CoreOf(s1), loop), fuel, n1, t1);
    }
  }

  // ── Switches ──────────────────────────────────────────────────────────

  /** The nodes of a switch in the program. */
  lemma SwitchHeld(w: World, code: seq<Node>, ty: Type, r: Rho, next: Label)
    requires ty.Switch? && |w.entries| == |w.g| && Holds(w, |code|, CompileSwitch(code, ty, r, next).code)
    ensures var b := CompileSwitch(code, ty, r, next);
            var cs := CompileCases(code, ty.cases, 0, r, next);
            var df := CompileDefault(cs.code, ty.dflt, r, next);
            && Holds(w, |code|, cs.code) && Holds(w, |cs.code|, df.code)
            && b.entry < |w.p.code| && w.p.code[b.entry] == SwitchDispatch(CompileExpr(ty.disc), cs.cases, df.target)
  {
    hide Holds, PatchNode, CompileCases, CompileDefault, CompileExpr;
    var b := CompileSwitch(code, ty, r, next);
    var cs := CompileCases(code, ty.cases, 0, r, next);
    var df := CompileDefault(cs.code, ty.dflt, r, next);
    HoldsPart(w, |code|, b.code, |code|, cs.code);
    HoldsPart(w, |code|, b.code, |cs.code|, df.code);
    HoldsNode(w, |code|, b.code, b.entry);
  }

  lemma SwitchIn(g: Grammar, ty: Type, d: Standing, dm: set<Name>, k: nat)
    requires ty.Switch? && Fragment(g, ty, d, dm)
    ensures (k < |ty.cases| ==> CaseIn(g, ty.cases[k], d, dm)) && DefaultIn(g, ty.dflt, d, dm)
  {
    hide CaseIn, DefaultIn;
  }

  lemma {:induction false} RunSwitch(w: World, code: seq<Node>, ty: Type, r: Rho, next: Label, s: State, fuel: nat, d: Standing)
    returns (n: nat, t: State)
    requires Loaded(w) && ty.Switch? && Here(w, code, CompileSwitch(code, ty, r, next), s)
    requires Fragment(w.g, ty, d, w.dm) && FrameOk(w.p, d, r, s.frames)
    ensures Outcome(w, s, s, next, ParseType(w.g, w.p.input, fuel, ty, FieldName(r), CoreOf(s), LoopVar(s.frames)), fuel, n, t)
    decreases fuel, ty, 3
  {
    hide Run, Step, FrameOk, Outcome, Holds, RuleIn, Accepted, CompileCases, CompileCase, CompileDefault, CompileExpr, EvalExpr,
         Chain, HandlersOk, ParseType, ParseCase, ParseDefault, FindCase, SelectCase, CaseIn, DefaultIn, DefaultTag, LoopVar, Falls, Lands, AbortOk,
         Unwind, Fragment, CompileSwitch, PatchNode, FieldName, Keeps;
    var b := CompileSwitch(code, ty, r, next);
    var cs := CompileCases(code, ty.cases, 0, r, next);
    var df := CompileDefault(cs.code, ty.dflt, r, next);
    SwitchHeld(w, code, ty, r, next);
    SpineCore(w.p, s, b.entry);
    var loop, nm := LoopVar(s.frames), FieldName(r);
    var ok, v, i, n1, t1 := RunSelect(w, s, b.entry, ty.disc, cs.cases, df.target);
    SwitchMeans(w.g, w.p.input, fuel, ty, nm, CoreOf(s), loop, v);
    var k := SelectCase(ty.cases, v);
    SwitchIn(w.g, ty, d, w.dm, k);
    DefaultTarget(cs.code, ty.dflt, r, next);
    if !ok {
      n, t := n1, t1;
      if v != Null { var before := CasesFind(code, ty.cases, 0, r, next, v); }
      NoDefaultFails(w.g, w.p.input, fuel, ty.dflt, nm, Logged(CoreOf(s), PendingTag(DefaultOrdinal(ty.cases))), loop);
      Landed(w, s, next, false, fuel, n, t);
    } else if k < |ty.cases| {
      var before := CasesFind(code, ty.cases, 0, r, next, v);
      HoldsPart(w, |code|, cs.code, |before|, CompileCase(before, ty.cases[k], r, next).code);
      var n2, t2 := RunCase(w, before, ty.cases[k], r, next, t1, fuel, d);
      n, t := Continued(w, s, n1, t1, next, ParseCase(w.g, w.p.input, fuel, ty.cases[k], nm, CoreOf(t1), loop), fuel, n2, t2);
    } else {
      var before := CasesFind(code, ty.cases, 0, r, next, v);
      CasesMax(code, ty.cases, 0, r, next);
      DefaultTagIs(cs.cases);
      var n2, t2 := RunDefault(w, cs.code, ty.dflt, r, next, t1, fuel, d);
      n, t := Continued(w, s, n1, t1, next, ParseDefault(w.g, w.p.input, fuel, ty.dflt, nm, CoreOf(t1), loop), fuel, n2, t2);
    }
  }

  /** What a later state leads to, seen from the one it followed. */
  lemma Continued(w: World, s: State, n1: nat, t1: State, next: Label, res: Res, fuel: nat, n2: nat, t2: State)
    returns (n: nat, t: State)
    requires Run(w.p, s, n1, t1) && Follows(s, t1) && Outcome(w, t1, t1, next, res, fuel, n2, t2)
    ensures Outcome(w, s, s, next, res, fuel, n, t)
  {
    hide Run, Outcome;
    FollowsRebase(w, s, t1, t1, next, res, fuel, n2, t2);
    Prepend(w, s, s, n1, t1, next, res, fuel, n2, t2);
    n, t := n1 + n2, t2;
  }

  lemma DefaultTagIs(cases: seq<SwitchCase>)
    ensures MaxOrdinal(cases) >= -1 ==> DefaultTag(cases) == MaxOrdinal(cases) + 1
  {
    hide MaxOrdinal;
  }

  lemma DefaultTarget(code: seq<Node>, x: Default, r: Rho, next: Label)
    ensures CompileDefault(code, x, r, next).target.Some? <==> x.DefaultTo?
    ensures x.DefaultTo? ==>
              CompileDefault(code, x, r, next)
              == BuiltDefault(CompileType(code, x.target, r, next).code, Some(CompileType(code, x.target, r, next).entry))
  {
    hide CompileType;
  }

  lemma NoDefaultFails(g: Grammar, input: Bytes, fuel: nat, x: Default, nm: Name, c: Core, loop: Option<int>)
    ensures !x.DefaultTo? ==> ParseDefault(g, input, fuel, x, nm, c, loop) == Failed
  {
    hide ParseType;
  }

  /** v is what the discriminator evaluates to, Null when it fails. */
  lemma SwitchMeans(g: Grammar, input: Bytes, fuel: nat, ty: Type, nm: Name, c: Core, loop: Option<int>, v: Value)
    requires ty.Switch?
    requires var ov := ValueOf(input, ty.disc, c, loop); if ov.Some? then v == ov.value else v == Null
    ensures v == Null ==> ParseType(g, input, fuel, ty, nm, c, loop) == Failed
    ensures v != Null ==>
              var i := SelectCase(ty.cases, v);
              ParseType(g, input, fuel, ty, nm, c, loop) ==
              if i < |ty.cases| then ParseCase(g, input, fuel, ty.cases[i], nm, Logged(c, PendingTag(i)), loop)
              else ParseDefault(g, input, fuel, ty.dflt, nm, Logged(c, PendingTag(DefaultOrdinal(ty.cases))), loop)
  {
    hide ParseCase, ParseDefault, EvalExpr, SelectCase, DefaultOrdinal, ValueOf;
  }

  lemma SelectIs(p: Program, s: State, cases: seq<SwitchCase>, dflt: Option<Label>)
    ensures var i := FindCase(cases, s.ac);
            StepSiteDyn(p, s, SwitchSelect(cases, dflt)) ==
            if s.ac == Null then Fail(s)
            else if i < |cases| then Go(Machine.Note(s, PendingTag(cases[i].ordinal)), cases[i].target)
            else if dflt.Some? then Go(Machine.Note(s, PendingTag(DefaultTag(cases))), dflt.value)
            else Fail(s)
  {
    hide Fail, FindCase, DefaultTag, Go, Machine.Note, SetAc, EffHi, EffLo, Truth, Lower, PushResync, PushFrame, NonNeg;
  }

  lemma SelectStep(p: Program, s: State, cases: seq<SwitchCase>, dflt: Option<Label>)
    ensures var i := FindCase(cases, s.ac);
            StepSiteDyn(p, s.(k := []), SwitchSelect(cases, dflt)) ==
            if s.ac == Null || (i == |cases| && dflt.None?) then Fail(s.(k := []))
            else s.(k := [Sp(if i < |cases| then cases[i].target else dflt.value)],
                    log := s.log + [PendingTag(if i < |cases| then cases[i].ordinal else DefaultTag(cases))])
  {
    hide Fail, FindCase, DefaultTag, StepSiteDyn;
    SelectIs(p, s.(k := []), cases, dflt);
  }

  /** Evaluate the discriminator and dispatch on the table. */
  lemma {:induction false} RunSelect(w: World, s: State, l: Label, e: Expr, cases: seq<SwitchCase>, dflt: Option<Label>)
    returns (ok: bool, v: Value, i: nat, n: nat, t: State)
    requires Spine(w.p, s, l) && l < |w.p.code| && w.p.code[l] == SwitchDispatch(CompileExpr(e), cases, dflt)
    ensures var ov := ValueOf(w.p.input, e, CoreOf(s), LoopVar(s.frames));
            (ov.Some? ==> ov.value == v) && (ov.None? ==> v == Null)
    ensures i == FindCase(cases, v) && (ok <==> v != Null && (i < |cases| || dflt.Some?))
    ensures Run(w.p, s, n, t)
    ensures if !ok then AtFail(w.p, s, t)
            else Spine(w.p, t, if i < |cases| then cases[i].target else dflt.value) && Follows(s, t)
                 && CoreOf(t) == Logged(CoreOf(s), PendingTag(if i < |cases| then cases[i].ordinal else DefaultTag(cases)))
  {
    hide Run, Step, StepNode, StepSiteDyn, LoopVar, CompileExpr, EvalExpr, Chain, HandlersOk, Unwind, AtFail, Follows, Fail, FindCase, DefaultTag;
    var dk := SwitchSelect(cases, dflt);
    CtxSame(w.p, s);
    SwitchSite(w.p, s.(k := []), CompileExpr(e), cases, dflt);
    var s1 := s.(k := [Dyn(dk), Ex(CompileExpr(e))]);
    n, t := SiteOpen(w.p, s, l, s1, dk, e);
    var ov := EvalExpr(e, CtxOf(w.p, s1));
    v := if ov.Some? then ov.value else Null;
    i := FindCase(cases, v);
    ok := v != Null && (i < |cases| || dflt.Some?);
    if ov.Some? {
      SelectStep(w.p, t, cases, dflt);
      if ok {
        var target := if i < |cases| then cases[i].target else dflt.value;
        var t2 := t.(k := [Sp(target)], log := s.log + [PendingTag(if i < |cases| then cases[i].ordinal else DefaultTag(cases))]);
        SiteGoes(w, s, n, t, t2, target);
        n, t := n + 1, t2;
      } else {
        SiteFails(w, s, n, t);
        n, t := n + 1, Fail(t.(k := []));
      }
    }
  }

  lemma {:induction false} RunCase(w: World, code: seq<Node>, c: Case, r: Rho, next: Label, s: State, fuel: nat, d: Standing)
    returns (n: nat, t: State)
    requires Loaded(w) && Here(w, code, CompileCase(code, c, r, next), s)
    requires CaseIn(w.g, c, d, w.dm) && FrameOk(w.p, d, r, s.frames)
    ensures Outcome(w, s, s, next, ParseCase(w.g, w.p.input, fuel, c, FieldName(r), CoreOf(s), LoopVar(s.frames)), fuel, n, t)
    decreases fuel, c, 1
  {
    hide Outcome, Spine, Holds, FrameOk, LoopVar, RuleIn, CompileType, ParseType, Accepted, Fragment;
    n, t := RunType(w, code, c.target, r, next, s, fuel, d);
  }

  lemma {:induction false} RunDefault(w: World, code: seq<Node>, x: Default, r: Rho, next: Label, s: State, fuel: nat, d: Standing)
    returns (n: nat, t: State)
    requires Loaded(w) && x.DefaultTo? && Here(w, code, CompileType(code, x.target, r, next), s)
    requires DefaultIn(w.g, x, d, w.dm) && FrameOk(w.p, d, r, s.frames)
    ensures Outcome(w, s, s, next, ParseDefault(w.g, w.p.input, fuel, x, FieldName(r), CoreOf(s), LoopVar(s.frames)), fuel, n, t)
    decreases fuel, x, 1
  {
    hide Outcome, Spine, Holds, FrameOk, LoopVar, RuleIn, CompileType, ParseType, Accepted, Fragment;
    n, t := RunType(w, code, x.target, r, next, s, fuel, d);
  }

  // ── Arrays ────────────────────────────────────────────────────────────

  lemma {:induction false} RunArray(w: World, code: seq<Node>, ty: Type, r: Rho, next: Label, s: State, fuel: nat, d: Standing)
    returns (n: nat, t: State)
    requires Loaded(w) && ty.Array? && Here(w, code, CompileArray(code, ty, r, next), s)
    requires Fragment(w.g, ty, d, w.dm) && FrameOk(w.p, d, r, s.frames)
    ensures Outcome(w, s, s, next, ParseType(w.g, w.p.input, fuel, ty, FieldName(r), CoreOf(s), LoopVar(s.frames)), fuel, n, t)
    decreases fuel, ty, 3
  {
    hide Run, Step, FrameOk, Outcome, Holds, RuleIn, Accepted, CompileArray, ArrayHead, CompileIteration, WrapWhere, LoopVar, Spine,
         ArrayAt, ParseArray, Check, CompileExpr;
    SpineCore(w.p, s, CompileArray(code, ty, r, next).entry);
    ArrayParts(w, code, ty, r, next);
    var wh := WrapWhere(code, ty.where, r, next);
    n, t := RunItems(w, code, ty, r, next, s, fuel, d);
    var r1 := ParseArray(w.g, w.p.input, fuel, ty, FieldName(r), CoreOf(s), LoopVar(s.frames));
    if r1.Ok? {
      Reached(w, s, wh.entry, r1, fuel, n, t);
      var n2, t2 := RunWhere(w, code, ty.where, r, next, t, d, fuel);
      Continue(w, s, wh.entry, next, r1, Check(w.p.input, ty.where, CoreOf(t), LoopVar(t.frames)), fuel, n, t, n2, t2);
      n, t := n + n2, t2;
    } else {
      OutcomeNext(w, s, wh.entry, next, r1, fuel, n, t);
    }
  }

  lemma ArrayIn(g: Grammar, ty: Type, d: Standing, dm: set<Name>)
    requires ty.Array? && Fragment(g, ty, d, dm)
    ensures (ty.where.Some? ==> Sound(d)) && (ty.resync ==> ty.mode.FixedCount? || ty.mode.UntilEof?)
    ensures Fragment(g, ty.elem, InElement(d, ty.resync), dm) && (ty.sep.Some? ==> Fragment(g, ty.sep.value, InElement(d, ty.resync), dm))
  {}

  lemma LoopMeans(g: Grammar, input: Bytes, fuel: nat, t: Type, limit: int, withSep: bool, i: nat, c: Core)
    requires t.Array?
    ensures var loop := ParseLoop(g, input, fuel, t, limit, withSep, i, c);
            match ParseElem(g, input, fuel, t, withSep, i, c)
            case Out => loop == LoopOut
            case Failed =>
              loop == if !t.resync then LoopFailed
                      else if c.pos >= CoreHi(input, c) then if limit >= 0 && i < limit then LoopFailed else Done(c, i)
                      else if fuel == 0 then LoopOut
                      else ParseLoop(g, input, fuel - 1, t, limit, true, i, c.(pos := c.pos + 1))
            case Ok(c1) =>
              var stop := StopTest(input, t, limit, i + 1, c1);
              loop == if stop.None? then LoopFailed
                      else if stop.value then Done(c1, i + 1)
                      else if fuel == 0 then LoopOut
                      else ParseLoop(g, input, fuel - 1, t, limit, true, i + 1, c1)
  {
    hide ParseElem, StopTest;
  }

  /** How a loop's outcome reads once the array is closed. */
  function Closed(r: LoopRes, env: Env): Res {
    match r
    case Done(c, _) => Ok(Logged(c, CloseArray(c.pos)).(env := env))
    case LoopFailed => Failed
    case LoopOut => Out
  }

  lemma ArrayMeans(g: Grammar, input: Bytes, fuel: nat, t: Type, nm: Name, c: Core, loop: Option<int>)
    requires t.Array?
    ensures ParseArray(g, input, fuel, t, nm, c, loop) == Closed(FromBegun(g, input, fuel, t, BeginSpec(input, t, nm, c, loop)), c.env)
  {
    hide ParseItems, BeginSpec, FromBegun;
    ItemsMeans(g, input, fuel, t, nm, c, loop);
  }

  /** The array without its `where`, up to where EndArray continues. */
  lemma {:induction false} RunItems(w: World, code: seq<Node>, ty: Type, r: Rho, next: Label, s: State, fuel: nat, d: Standing)
    returns (n: nat, t: State)
    requires Loaded(w) && ty.Array? && Here(w, code, CompileArray(code, ty, r, next), s)
    requires Fragment(w.g, ty, d, w.dm) && FrameOk(w.p, d, r, s.frames)
    ensures Outcome(w, s, s, WrapWhere(code, ty.where, r, next).entry,
                    ParseArray(w.g, w.p.input, fuel, ty, FieldName(r), CoreOf(s), LoopVar(s.frames)), fuel, n, t)
    decreases fuel, ty, 2
  {
    hide Run, Step, FrameOk, Outcome, Holds, RuleIn, Accepted, CompileArray, ArrayHead, CompileIteration, WrapWhere, LoopVar, Spine,
         ArrayAt, ParseArray, CompileExpr, BeginSpec, InLoop, AtFail, ParseLoop;
    var b := CompileArray(code, ty, r, next);
    var h := ArrayHead(code, ty, r, next);
    var it := CompileIteration(h.code, ty, InArrayElem(h.resync, r), h.tail);
    var out := WrapWhere(code, ty.where, r, next).entry;
    var nm, loop := FieldName(r), LoopVar(s.frames);
    ArrayParts(w, code, ty, r, next);
    SpineCore(w.p, s, b.entry);
    ArrayMeans(w.g, w.p.input, fuel, ty, nm, CoreOf(s), loop);
    if ty.mode.UntilEof? {
      n, t := RunBeginEof(w, ty, nm, h, it, out, s, b.entry);
    } else if ty.mode.UntilTerm? {
      n, t := RunBeginUntil(w, ty, nm, h, it, out, s, b.entry);
    } else {
      n, t := RunBeginCounted(w, ty, nm, h, it, out, s, b.entry);
    }
    match BeginSpec(w.p.input, ty, nm, CoreOf(s), loop)
    case BeginFails => Landed(w, s, out, false, fuel, n, t);
    case NoItems(c) =>
      EndNode(w, ty, h, it, out);
      var t2 := RunEndArray(w, s, t, h.end, ty.resync, out);
      RunTrans(w.p, s, n, t, 1, t2);
      n, t := n + 1, t2;
      LandedAt(w, s, out, Logged(c, CloseArray(c.pos)).(env := s.env), fuel, n, t);
    case Items(limit, c) =>
      var n2, t2 := RunLoop(w, code, ty, r, next, s, t, fuel, limit, false, 0, d);
      Prepend(w, s, s, n, t, out, Closed(ParseLoop(w.g, w.p.input, fuel, ty, limit, false, 0, c), s.env), fuel, n2, t2);
      n, t := n + n2, t2;
  }

  lemma EndNode(w: World, ty: Type, h: BuiltHead, it: BuiltIteration, out: Label)
    requires ty.Array? && ArrayAt(w, ty, h, it, out)
    ensures h.end < |w.p.code| && w.p.code[h.end] == EndArray(ty.resync, out)
    ensures h.resync.Some? <==> ty.resync
  {
    hide CompileExpr;
  }

  lemma LandedAt(w: World, s: State, next: Label, c: Core, fuel: nat, n: nat, t: State)
    requires Run(w.p, s, n, t) && Spine(w.p, t, next) && Follows(s, t) && CoreOf(t) == c
    ensures Outcome(w, s, s, next, Ok(c), fuel, n, t)
  {
    hide Run;
  }

  lemma LandedFrom(w: World, b: State, s: State, next: Label, c: Core, fuel: nat, n: nat, t: State)
    requires Run(w.p, s, n, t) && Spine(w.p, t, next) && Follows(b, t) && CoreOf(t) == c
    ensures Outcome(w, b, s, next, Ok(c), fuel, n, t)
  {
    hide Run;
  }

  lemma FailedFrom(w: World, b: State, s: State, next: Label, fuel: nat, n: nat, t: State)
    requires Run(w.p, s, n, t) && AtFail(w.p, b, t)
    ensures Outcome(w, b, s, next, Failed, fuel, n, t)
  {
    hide Run;
  }

  /** The loop, from the entry of an iteration: element after element until the stop test
      says so, with recovery in resync mode. b is the state the array was entered from. */
  lemma {:induction false} RunLoop(w: World, code: seq<Node>, ty: Type, r: Rho, next: Label, b: State, s: State, fuel: nat,
                limit: int, withSep: bool, i: nat, d: Standing)
    returns (n: nat, t: State)
    requires Loaded(w) && ty.Array? && Holds(w, |code|, CompileArray(code, ty, r, next).code)
    requires Fragment(w.g, ty, d, w.dm) && FrameOk(w.p, d, r, b.frames)
    requires var h := ArrayHead(code, ty, r, next);
             var it := CompileIteration(h.code, ty, InArrayElem(h.resync, r), h.tail);
             Spine(w.p, s, if withSep then it.loop else it.head) && InLoop(b, s, h.resync, i, limit)
    ensures Outcome(w, b, s, WrapWhere(code, ty.where, r, next).entry,
                    Closed(ParseLoop(w.g, w.p.input, fuel, ty, limit, withSep, i, CoreOf(s)), b.env), fuel, n, t)
    decreases fuel, ty, 1
  {
    hide Run, Step, FrameOk, Outcome, Holds, RuleIn, Accepted, CompileArray, ArrayHead, CompileIteration, WrapWhere, LoopVar, Spine,
         ArrayAt, CompileExpr, InLoop, Closing, AtFail, ParseElem, ParseLoop, StopTest, EvalExpr, Fragment, Outcome, Keeps;
    var h := ArrayHead(code, ty, r, next);
    var it := CompileIteration(h.code, ty, InArrayElem(h.resync, r), h.tail);
    var out := WrapWhere(code, ty.where, r, next).entry;
    ArrayIn(w.g, ty, d, w.dm);
    ArrayParts(w, code, ty, r, next);
    EndNode(w, ty, h, it, out);
    SpineCore(w.p, s, if withSep then it.loop else it.head);
    LoopMeans(w.g, w.p.input, fuel, ty, limit, withSep, i, CoreOf(s));
    InLoopFacts(b, s, h.resync, i, limit);
    var res := ParseElem(w.g, w.p.input, fuel, ty, withSep, i, CoreOf(s));
    n, t := RunElem(w, code, ty, r, next, b, s, fuel, limit, withSep, i, d);
    match res
    case Out => OutFrom(w, b, s, h.back, out, fuel, n, t);
    case Failed =>
      if !ty.resync {
        ElementFailed(w, b, s, h.back, out, fuel, n, t, i, limit);
      } else {
        n, t := RunRetry(w, code, ty, r, next, b, s, fuel, limit, withSep, i, d, n, t);
      }
    case Ok(c1) =>
      n, t := RunOnward(w, code, ty, r, next, b, s, fuel, limit, withSep, i, d, n, t);
  }

  lemma OutFrom(w: World, b: State, s: State, l: Label, out: Label, fuel: nat, n: nat, t: State)
    requires Outcome(w, s, s, l, Out, fuel, n, t)
    ensures Outcome(w, b, s, out, Out, fuel, n, t)
  {}

  lemma ElementFailed(w: World, b: State, s: State, l: Label, out: Label, fuel: nat, n: nat, t: State, i: nat, limit: int)
    requires Outcome(w, s, s, l, Failed, fuel, n, t) && InLoop(b, s, None, i, limit)
    ensures Outcome(w, b, s, out, Failed, fuel, n, t)
  {
    hide Run, InLoop, AtFail;
    LoopFail(w.p, b, s, t, i, limit);
  }

  /** After a failed element in resync mode. */
  lemma {:induction false} RunRetry(w: World, code: seq<Node>, ty: Type, r: Rho, next: Label, b: State, s: State, fuel: nat,
                limit: int, withSep: bool, i: nat, d: Standing, n0: nat, t0: State)
    returns (n: nat, t: State)
    requires Loaded(w) && ty.Array? && ty.resync && Holds(w, |code|, CompileArray(code, ty, r, next).code)
    requires Fragment(w.g, ty, d, w.dm) && FrameOk(w.p, d, r, b.frames)
    requires var h := ArrayHead(code, ty, r, next);
             var it := CompileIteration(h.code, ty, InArrayElem(h.resync, r), h.tail);
             Spine(w.p, s, if withSep then it.loop else it.head) && InLoop(b, s, h.resync, i, limit)
             && Outcome(w, s, s, h.back, Failed, fuel, n0, t0)
    requires ParseElem(w.g, w.p.input, fuel, ty, withSep, i, CoreOf(s)).Failed?
    ensures Outcome(w, b, s, WrapWhere(code, ty.where, r, next).entry,
                    Closed(ParseLoop(w.g, w.p.input, fuel, ty, limit, withSep, i, CoreOf(s)), b.env), fuel, n, t)
    decreases fuel, ty, 0
  {
    hide Step, FrameOk, Holds, RuleIn, Accepted, CompileArray, ArrayHead, CompileIteration, WrapWhere, LoopVar, Spine,
         ArrayAt, CompileExpr, InLoop, Closing, AtFail, ParseElem, ParseLoop, StopTest, EvalExpr, Safe, Keeps, Fragment;
    var h := ArrayHead(code, ty, r, next);
    var it := CompileIteration(h.code, ty, InArrayElem(h.resync, r), h.tail);
    var out := WrapWhere(code, ty.where, r, next).entry;
    assert Run(w.p, s, n0, t0) && AtFail(w.p, s, t0);
    hide Outcome, Run;
    ArrayIn(w.g, ty, d, w.dm);
    ArrayParts(w, code, ty, r, next);
    EndNode(w, ty, h, it, out);
    SpineCore(w.p, s, if withSep then it.loop else it.head);
    LoopMeans(w.g, w.p.input, fuel, ty, limit, withSep, i, CoreOf(s));
    RunSteps(w.p, s, n0, t0);
    var t1 := RunResync(w, ty, h, it, out, b, s, t0, i, limit);
    RunTrans(w.p, s, n0, t0, 1, t1);
    n, t := n0 + 1, t1;
    if s.pos >= EffHi(w.p, s) {
      if limit >= 0 && i < limit {
        FailedFrom(w, b, s, out, fuel, n, t);
      } else {
        var t2 := RunEndArray(w, b, t1, h.end, ty.resync, out);
        RunTrans(w.p, s, n, t1, 1, t2);
        n, t := n + 1, t2;
        LandedFrom(w, b, s, out, Logged(CoreOf(s), CloseArray(s.pos)).(env := b.env), fuel, n, t);
      }
    } else if fuel == 0 {
      StillRunning(w, b, s, it.loop, out, n, t1);
    } else {
      SpineCore(w.p, t1, it.loop);
      var n2, t2 := RunLoop(w, code, ty, r, next, b, t1, fuel - 1, limit, true, i, d);
      Bump(w, b, s, t1, out, Closed(ParseLoop(w.g, w.p.input, fuel - 1, ty, limit, true, i, CoreOf(t1)), b.env), fuel, n, n2, t2);
      n, t := n + n2, t2;
    }
  }

  lemma StillRunning(w: World, b: State, s: State, l: Label, out: Label, n: nat, t: State)
    requires Run(w.p, s, n, t) && Spine(w.p, t, l)
    ensures Outcome(w, b, s, out, Out, 0, n, t)
  {
    hide Run;
  }

  /** A step paid for by one unit of fuel. */
  lemma Bump(w: World, b: State, s: State, t1: State, out: Label, r: Res, fuel: nat, n1: nat, n2: nat, t2: State)
    requires fuel > 0 && n1 >= 1 && Run(w.p, s, n1, t1) && Outcome(w, b, t1, out, r, fuel - 1, n2, t2)
    ensures Outcome(w, b, s, out, r, fuel, n1 + n2, t2)
  {
    hide Run, AtFail, Spine, Follows;
    RunTrans(w.p, s, n1, t1, n2, t2);
  }

  /** After a completed element. */
  lemma {:induction false} RunOnward(w: World, code: seq<Node>, ty: Type, r: Rho, next: Label, b: State, s: State, fuel: nat,
                limit: int, withSep: bool, i: nat, d: Standing, n0: nat, t0: State)
    returns (n: nat, t: State)
    requires Loaded(w) && ty.Array? && Holds(w, |code|, CompileArray(code, ty, r, next).code)
    requires Fragment(w.g, ty, d, w.dm) && FrameOk(w.p, d, r, b.frames)
    requires var h := ArrayHead(code, ty, r, next);
             var it := CompileIteration(h.code, ty, InArrayElem(h.resync, r), h.tail);
             Spine(w.p, s, if withSep then it.loop else it.head) && InLoop(b, s, h.resync, i, limit)
             && ParseElem(w.g, w.p.input, fuel, ty, withSep, i, CoreOf(s)).Ok?
             && Outcome(w, s, s, h.back, ParseElem(w.g, w.p.input, fuel, ty, withSep, i, CoreOf(s)), fuel, n0, t0)
    ensures Outcome(w, b, s, WrapWhere(code, ty.where, r, next).entry,
                    Closed(ParseLoop(w.g, w.p.input, fuel, ty, limit, withSep, i, CoreOf(s)), b.env), fuel, n, t)
    decreases fuel, ty, 0
  {
    hide Run, Step, FrameOk, Holds, RuleIn, Accepted, CompileArray, ArrayHead, CompileIteration, WrapWhere, LoopVar, Spine,
         ArrayAt, CompileExpr, InLoop, Closing, AtFail, ParseElem, ParseLoop, StopTest, EvalExpr, Outcome, Fragment, Keeps;
    var h := ArrayHead(code, ty, r, next);
    var it := CompileIteration(h.code, ty, InArrayElem(h.resync, r), h.tail);
    var out := WrapWhere(code, ty.where, r, next).entry;
    ArrayIn(w.g, ty, d, w.dm);
    ArrayParts(w, code, ty, r, next);
    EndNode(w, ty, h, it, out);
    SpineCore(w.p, s, if withSep then it.loop else it.head);
    LoopMeans(w.g, w.p.input, fuel, ty, limit, withSep, i, CoreOf(s));
    var c1 := ParseElem(w.g, w.p.input, fuel, ty, withSep, i, CoreOf(s));
    Reached(w, s, h.back, c1, fuel, n0, t0);
    SpineCore(w.p, t0, h.back);
    var n1, t1, stop := RunNext(w, ty, h, it, out, b, t0, s, i, limit);
    RunTrans(w.p, s, n0, t0, n1, t1);
    n, t := n0 + n1, t1;
    if stop.None? {
      FailedFrom(w, b, s, out, fuel, n, t);
    } else if stop.value {
      InLoopFacts(b, t1, h.resync, i + 1, limit);
      var t2 := RunEndArray(w, b, t1, h.end, ty.resync, out);
      RunTrans(w.p, s, n, t1, 1, t2);
      n, t := n + 1, t2;
      LandedFrom(w, b, s, out, Logged(c1.c, CloseArray(c1.c.pos)).(env := b.env), fuel, n, t);
    } else if fuel == 0 {
      StillRunning(w, b, s, it.loop, out, n, t1);
    } else {
      var n2, t2 := RunLoop(w, code, ty, r, next, b, t1, fuel - 1, limit, true, i + 1, d);
      Bump(w, b, s, t1, out, Closed(ParseLoop(w.g, w.p.input, fuel - 1, ty, limit, true, i + 1, c1.c), b.env), fuel, n, n2, t2);
      n, t := n + n2, t2;
    }
  }

  /** One iteration's body: separator if due, then the element in its window. */
  lemma {:induction false} RunElem(w: World, code: seq<Node>, ty: Type, r: Rho, next: Label, b: State, s: State, fuel: nat,
                limit: int, withSep: bool, i: nat, d: Standing)
    returns (n: nat, t: State)
    requires Loaded(w) && ty.Array? && Holds(w, |code|, CompileArray(code, ty, r, next).code)
    requires Fragment(w.g, ty, d, w.dm) && FrameOk(w.p, d, r, b.frames)
    requires var h := ArrayHead(code, ty, r, next);
             var it := CompileIteration(h.code, ty, InArrayElem(h.resync, r), h.tail);
             Spine(w.p, s, if withSep then it.loop else it.head) && InLoop(b, s, h.resync, i, limit)
    ensures Outcome(w, s, s, ArrayHead(code, ty, r, next).back,
                    ParseElem(w.g, w.p.input, fuel, ty, withSep, i, CoreOf(s)), fuel, n, t)
    decreases fuel, ty, 0, 1
  {
    hide Run, Step, FrameOk, Outcome, Holds, RuleIn, Accepted, CompileArray, ArrayHead, WrapWhere, LoopVar, Spine,
         ArrayAt, CompileExpr, InLoop, ParseElem, CompileType, ParseType, IntervalEntry, Falls, Lands, AbortOk, Unwind, Keeps, Fragment, InElement, FieldName;
    var h := ArrayHead(code, ty, r, next);
    var er := InArrayElem(h.resync, r);
    var it := CompileIteration(h.code, ty, er, h.tail);
    ArrayIn(w.g, ty, d, w.dm);
    ArrayParts(w, code, ty, r, next);
    SpineCore(w.p, s, if withSep then it.loop else it.head);
    InLoopFacts(b, s, h.resync, i, limit);
    ElemFrame(w.p, d, h.resync, r, b, s, i, limit);
    ElemMeans(w.g, w.p.input, fuel, ty, withSep, i, CoreOf(s));
    var body := CompileType(h.code, ty.elem, er, h.tail);
    var head := if ty.elemInterval.Some? then IntervalEntry(body.code, ty.elemInterval.value, body.entry) else body;
    if withSep && ty.sep.Some? {
      var sep := CompileType(head.code, ty.sep.value, InField("_", er), head.entry);
      HoldsPart(w, |h.code|, it.code, |head.code|, it.code);
      HoldsPart(w, |h.code|, it.code, |h.code|, head.code);
      n, t := RunType(w, head.code, ty.sep.value, InField("_", er), head.entry, s, fuel, InElement(d, ty.resync));
      var r1 := ParseType(w.g, w.p.input, fuel, ty.sep.value, "_", CoreOf(s), Some(i));
      if r1.Ok? {
        Reached(w, s, head.entry, r1, fuel, n, t);
        var n2, t2 := RunBare(w, code, ty, r, next, t, fuel, i, d);
        Continue(w, s, head.entry, h.back, r1, BareElem(w.g, w.p.input, fuel, ty, i, r1.c), fuel, n, t, n2, t2);
        n, t := n + n2, t2;
      } else {
        OutcomeNext(w, s, head.entry, h.back, r1, fuel, n, t);
      }
    } else {
      n, t := RunBare(w, code, ty, r, next, s, fuel, i, d);
    }
  }

  lemma ElemFrame(p: Program, d: Standing, rk: Option<Label>, r: Rho, b: State, s: State, i: int, limit: int)
    requires InLoop(b, s, rk, i, limit) && FrameOk(p, d, r, b.frames)
    ensures FrameOk(p, InElement(d, rk.Some?), InArrayElem(rk, r), s.frames)
            && FrameOk(p, InElement(d, rk.Some?), InField("_", InArrayElem(rk, r)), s.frames)
    ensures FieldName(InArrayElem(rk, r)) == "" && FieldName(InField("_", InArrayElem(rk, r))) == "_"
  {
    InLoopFacts(b, s, rk, i, limit);
    if rk.None? { assert s.frames[1..] == b.frames; }
  }

  /** The element of an iteration without its separator. */
  function BareElem(g: Grammar, input: Bytes, fuel: nat, t: Type, i: nat, c: Core): Res
    requires t.Array?
  {
    ParseElem(g, input, fuel, t, false, i, c)
  }

  lemma ElemMeans(g: Grammar, input: Bytes, fuel: nat, t: Type, withSep: bool, i: nat, c: Core)
    requires t.Array?
    ensures ParseElem(g, input, fuel, t, withSep, i, c) ==
      if withSep && t.sep.Some? then
        var r := ParseType(g, input, fuel, t.sep.value, "_", c, Some(i));
        if !r.Ok? then r else BareElem(g, input, fuel, t, i, r.c)
      else BareElem(g, input, fuel, t, i, c)
    ensures BareElem(g, input, fuel, t, i, c) ==
      if t.elemInterval.Some? then
        var o := OpenInterval(input, c, t.elemInterval.value, Some(i));
        if !o.Ok? then o
        else
          var b := ParseType(g, input, fuel, t.elem, "", o.c, Some(i));
          if !b.Ok? then b else CloseWindow(input, b.c, false)
      else ParseType(g, input, fuel, t.elem, "", c, Some(i))
  {
    hide ParseType, OpenInterval, CloseWindow;
  }

  /** The element, in its window if it has one, from the iteration's head. */
  lemma {:induction false} RunBare(w: World, code: seq<Node>, ty: Type, r: Rho, next: Label, s: State, fuel: nat, i: nat, d: Standing)
    returns (n: nat, t: State)
    requires Loaded(w) && ty.Array? && Holds(w, |code|, CompileArray(code, ty, r, next).code)
    requires Fragment(w.g, ty, d, w.dm) && LoopVar(s.frames) == Some(i)
    requires var h := ArrayHead(code, ty, r, next);
             var it := CompileIteration(h.code, ty, InArrayElem(h.resync, r), h.tail);
             Spine(w.p, s, it.head) && FrameOk(w.p, InElement(d, ty.resync), InArrayElem(h.resync, r), s.frames)
    ensures Outcome(w, s, s, ArrayHead(code, ty, r, next).back, BareElem(w.g, w.p.input, fuel, ty, i, CoreOf(s)), fuel, n, t)
    decreases fuel, ty, 0, 0
  {
    hide Run, Step, FrameOk, Outcome, Holds, RuleIn, Accepted, CompileArray, ArrayHead, WrapWhere, LoopVar, Spine,
         ArrayAt, CompileExpr, BareElem, CompileType, ParseType, IntervalEntry, OpenInterval, CloseWindow, Fragment, InElement, Falls, Lands, AbortOk, Unwind, Keeps;
    var h := ArrayHead(code, ty, r, next);
    var er := InArrayElem(h.resync, r);
    var it := CompileIteration(h.code, ty, er, h.tail);
    ArrayIn(w.g, ty, d, w.dm);
    ArrayParts(w, code, ty, r, next);
    SpineCore(w.p, s, it.head);
    ElemMeans(w.g, w.p.input, fuel, ty, false, i, CoreOf(s));
    var body := CompileType(h.code, ty.elem, er, h.tail);
    ElemName(h.resync, r);
    if ty.elemInterval.Some? {
      var head := IntervalEntry(body.code, ty.elemInterval.value, body.entry);
      var pre := h.code[..|h.code| - 1];
      assert Emit(pre, PopInterval(false, h.back)) == Built(h.code, h.tail);
      HoldsPart(w, |h.code| - 1, it.code, |pre|, head.code);
      n, t := RunWindowed(w, pre, ty.elem, ty.elemInterval.value, er, h.back, s, fuel, InElement(d, ty.resync));
    } else {
      HoldsPart(w, |h.code|, it.code, |h.code|, body.code);
      n, t := RunType(w, h.code, ty.elem, er, h.tail, s, fuel, InElement(d, ty.resync));
    }
  }

  lemma ElemName(rk: Option<Label>, r: Rho)
    ensures FieldName(InArrayElem(rk, r)) == ""
  {}

  // ── Rule calls ────────────────────────────────────────────────────────

  /** The nodes of a rule reference: the call in a scope of its own. */
  lemma RefHeld(w: World, code: seq<Node>, nm: Name, r: Rho, next: Label)
    requires |w.entries| == |w.g| && Holds(w, |code|, CompileLeaf(code, RuleRef(nm), r, next).code)
    ensures var b := CompileLeaf(code, RuleRef(nm), r, next);
            && |code| < |w.p.code| && w.p.code[|code|] == EndStruct(next)
            && b.entry < |w.p.code| && w.p.code[b.entry] == BeginStruct(FieldName(r), |code| + 1)
            && CallNode(w, |code| + 1, nm, r, |code|)
  {
    hide PatchNode, Holds, BacktrackTarget, FieldName;
    var b := CompileLeaf(code, RuleRef(nm), r, next);
    HoldsNode(w, |code|, b.code, |code|);
    HoldsNode(w, |code|, b.code, |code| + 1);
    HoldsNode(w, |code|, b.code, |code| + 2);
  }

  lemma RefMeans(g: Grammar, input: Bytes, fuel: nat, n: Name, nm: Name, c: Core, loop: Option<int>)
    ensures var r := ParseRule(g, input, fuel, n, Logged(c, OpenStruct(nm, c.pos)), loop);
            ParseType(g, input, fuel, RuleRef(n), nm, c, loop) == if r.Ok? then Ok(Logged(r.c, CloseStruct(r.c.pos))) else r
  {
    hide ParseRule;
  }

  lemma {:induction false} RunRef(w: World, code: seq<Node>, ty: Type, r: Rho, next: Label, s: State, fuel: nat, d: Standing)
    returns (n: nat, t: State)
    requires Loaded(w) && ty.RuleRef? && Here(w, code, CompileLeaf(code, ty, r, next), s)
    requires Fragment(w.g, ty, d, w.dm) && FrameOk(w.p, d, r, s.frames)
    ensures Outcome(w, s, s, next, ParseType(w.g, w.p.input, fuel, ty, FieldName(r), CoreOf(s), LoopVar(s.frames)), fuel, n, t)
    decreases fuel, ty, 3
  {
    hide Run, Step, StepNode, ParseRule, ParseType, CompileLeaf, FrameOk, Chain, HandlersOk, Outcome, RuleIn, Accepted, Holds, CallNode,
         PatchNode, LoopVar, FieldName, Falls, Lands, AbortOk, Unwind;
    var b := CompileLeaf(code, ty, r, next);
    var inv := |code| + 1;
    RefHeld(w, code, ty.rule, r, next);
    RefMeans(w.g, w.p.input, fuel, ty.rule, FieldName(r), CoreOf(s), LoopVar(s.frames));
    OpenStep(w.p, s, FieldName(r), 0, inv);
    var s1 := RunLog(w, s, b.entry, OpenStruct(FieldName(r), s.pos), inv);
    var n1, t1 := RunRule(w, s1, inv, ty.rule, r, |code|, fuel, d);
    n, t := CloseScope(w, s, s1, |code|, next, ParseRule(w.g, w.p.input, fuel, ty.rule, CoreOf(s1), LoopVar(s1.frames)), fuel, n1, t1);
  }

  /** The patched call node of rule nm, whose caller fails to find_backtrack_target(r). */
  predicate CallNode(w: World, l: Label, nm: Name, r: Rho, next: Label)
    requires |w.entries| == |w.g|
  {
    l < |w.p.code| && w.p.code[l] == PatchNode(InvokeRule(nm, 0, BacktrackTarget(r), next), w.g, w.entries)
  }

  /** A rule call: the callee runs under a return frame and its bindings do not escape. */
  lemma {:induction false} RunRule(w: World, s: State, l: Label, nm: Name, r: Rho, next: Label, fuel: nat, d: Standing)
    returns (n: nat, t: State)
    requires Loaded(w) && Spine(w.p, s, l) && CallNode(w, l, nm, r, next)
    requires RuleIndex(w.g, nm).Some? && (nm in w.dm ==> Sound(d)) && FrameOk(w.p, d, r, s.frames)
    ensures Outcome(w, s, s, next, ParseRule(w.g, w.p.input, fuel, nm, CoreOf(s), LoopVar(s.frames)), fuel, n, t)
    decreases fuel, RuleRef(nm), 0
  {
    hide Run, Step, FrameOk, Chain, Outcome, RuleIn, Holds, ParseBody, CompileBody, Fragment, HandlersOk, LoopVar, CallNode, Keeps;
    if fuel == 0 {
      n, t := 0, s;
      StayOut(w, s, l, next);
    } else {
      RuleIndexBound(w.g, nm);
      var i := RuleIndex(w.g, nm).value;
      var code := RuleCode(w, i);
      var exit := |code| + 1;
      var s1 := EnterRule(w, s, l, nm, r, next, d);
      RuleParts(w, i, code);
      var body := w.g[i].body;
      assert code + [Halt] + [ReturnRule(|code|)] == Emit(Emit(code, Halt).code, ReturnRule(|code|)).code;
      CallFrame(w, s, s1, nm, r, next, d);
      var n1, t1 := RunBody(w, code + [Halt] + [ReturnRule(|code|)], body, exit, s1, fuel - 1, Free(nm in w.dm));
      var res := ParseBody(w.g, w.p.input, fuel - 1, body, CoreOf(s1), LoopVar(s1.frames));
      n, t := LeaveRule(w, s, s1, exit, |code|, next, res, fuel, n1, t1);
    }
  }

  lemma StayOut(w: World, s: State, l: Label, next: Label)
    requires Spine(w.p, s, l)
    ensures Outcome(w, s, s, next, Out, 0, 0, s)
  {
    SpineSafe(w.p, s, l);
  }

  lemma RuleCode(w: World, i: nat) returns (code: seq<Node>)
    requires Loaded(w) && i < |w.g|
    ensures RuleIn(w, i, code)
  {
    hide RuleIn;
    assert RuleLoaded(w, i);
    code :| RuleIn(w, i, code);
  }

  lemma RuleParts(w: World, i: nat, code: seq<Node>)
    requires |w.entries| == |w.g| && i < |w.g| && RuleIn(w, i, code)
    ensures var exit := Emit(Emit(code, Halt).code, ReturnRule(|code|));
            var b := CompileBody(exit.code, w.g[i].body, |code| + 1);
            Holds(w, |exit.code|, b.code) && w.entries[i] == b.entry
    ensures |code| + 1 < |w.p.code| && w.p.code[|code|] == Halt && w.p.code[|code| + 1] == ReturnRule(|code|)
  {
    hide CompileBody;
    var b := CompileRule(code, w.g[i].body);
    HoldsNode(w, |code|, b.code, |code|);
    HoldsNode(w, |code|, b.code, |code| + 1);
  }

  lemma EnterRule(w: World, s: State, l: Label, nm: Name, r: Rho, next: Label, d: Standing) returns (s1: State)
    requires |w.entries| == |w.g| && Spine(w.p, s, l) && CallNode(w, l, nm, r, next)
    requires RuleIndex(w.g, nm).Some? && RuleIndex(w.g, nm).value < |w.g|
    ensures s1 == s.(k := [Sp(w.entries[RuleIndex(w.g, nm).value])], frames := [ReturnF(next, s.env, BacktrackTarget(r))] + s.frames)
    ensures Run(w.p, s, 1, s1) && Spine(w.p, s1, w.entries[RuleIndex(w.g, nm).value])
    ensures CoreOf(s1) == CoreOf(s) && LoopVar(s1.frames) == LoopVar(s.frames) && Unwind(s1.frames) == Unwind(s.frames)
  {
    hide Step, Run, Chain;
    var e := w.entries[RuleIndex(w.g, nm).value];
    assert w.p.code[l] == InvokeRule(nm, e, BacktrackTarget(r), next);
    s1 := s.(k := [Sp(e)], frames := [ReturnF(next, s.env, BacktrackTarget(r))] + s.frames);
    assert s1.frames[1..] == s.frames;
    RunSp(w.p, s, l, s1, e);
  }

  lemma CallFrame(w: World, s: State, s1: State, nm: Name, r: Rho, next: Label, d: Standing)
    requires FrameOk(w.p, d, r, s.frames) && (nm in w.dm ==> Sound(d))
    requires s1.frames == [ReturnF(next, s.env, BacktrackTarget(r))] + s.frames
    ensures FrameOk(w.p, Free(nm in w.dm), Root, s1.frames)
  {
    assert s1.frames[1..] == s.frames;
  }

  /** Back from the callee: the return frame goes, the caller's environment comes back. */
  lemma LeaveRule(w: World, s: State, s1: State, exit: Label, halt: Label, next: Label, res: Res, fuel: nat, n1: nat, t1: State)
    returns (n: nat, t: State)
    requires Run(w.p, s, 1, s1) && Chained(w.p, s) && fuel > 0
    requires s1.frames != [] && s1.frames[0].ReturnF? && s1.frames[0].returnTo == next && s1.frames[0].env == s.env
    requires s1.frames[1..] == s.frames && s1.wins == s.wins && s1.depth == s.depth && s1.log == s.log
    requires Outcome(w, s1, s1, exit, res, fuel - 1, n1, t1)
    requires exit < |w.p.code| && w.p.code[exit] == ReturnRule(halt)
    ensures Outcome(w, s, s, next, if res.Ok? then Ok(res.c.(env := s.env)) else res, fuel, n, t)
  {
    hide Step, Run, Chain;
    assert Run(w.p, s1, n1, t1);
    RunTrans(w.p, s, 1, s1, n1, t1);
    n, t := 1 + n1, t1;
    match res
    case Ok(c) =>
      t := t1.(k := [Sp(next)], frames := s.frames, env := s.env);
      LeaveHandlers(w.p, t1.frames);
      RunSp(w.p, t1, exit, t, next);
      RunTrans(w.p, s, 1 + n1, t1, 1, t);
      n := 2 + n1;
    case Failed => assert Unwind(s1.frames) == Unwind(s.frames);
    case Out =>
  }

  lemma {:induction false} RunBody(w: World, code: seq<Node>, ty: Type, exit: Label, s: State, fuel: nat, d: Standing)
    returns (n: nat, t: State)
    requires Loaded(w) && Here(w, code, CompileBody(code, ty, exit), s)
    requires Fragment(w.g, ty, d, w.dm) && FrameOk(w.p, d, Root, s.frames)
    ensures Outcome(w, s, s, exit, ParseBody(w.g, w.p.input, fuel, ty, CoreOf(s), LoopVar(s.frames)), fuel, n, t)
    decreases fuel, ty, 5
  {
    hide Outcome, Spine, Holds, FrameOk, LoopVar, RuleIn, CompileType, CompileRecord, CompileBitfield, ParseType, ParseRecord, ParseBitfield, Accepted;
    match ty
    case Struct(_, _) => n, t := RunRecord(w, code, ty, Root, exit, s, fuel, d);
    case Bitfield(_, _) => n, t := RunBitfield(w, code, ty.container, ty.entries, Root, exit, s, d, fuel);
    case _ => n, t := RunType(w, code, ty, Root, exit, s, fuel, d);
  }
}
