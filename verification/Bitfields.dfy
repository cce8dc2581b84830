/** The lowering of bitfields: every member reads the container in place, then one advance
    moves past it without a check of its own. */
module Bitfields {
  import opened Syntax
  import opened Eval
  import opened Wire
  import opened Machine
  import opened Compile
  import opened Denote
  import opened Runs
  import opened World
  import opened Leaves

  lemma EntryHeld(w: World, code: seq<Node>, p: PrimInfo, e: Entry, off: nat, r: Rho, next: Label)
    requires |w.entries| == |w.g| && Holds(w, |code|, CompileEntry(code, p, e, off, r, next).code)
    ensures var wh := WrapWhere(code, e.where, r, next);
            var ds := FieldDest(wh.code, e.name, wh.entry);
            var b := CompileEntry(code, p, e, off, r, next);
            && Holds(w, |code|, ds.code) && b.entry < |w.p.code|
            && w.p.code[b.entry] == ExtractBits(p, e.width, off, e.signed, ds.entry)
  {
    hide WrapWhere, FieldDest;
    var wh := WrapWhere(code, e.where, r, next);
    var ds := FieldDest(wh.code, e.name, wh.entry);
    HoldsPart(w, |code|, CompileEntry(code, p, e, off, r, next).code, |code|, ds.code);
  }

  lemma ExtractStep(pr: Program, s: State, p: PrimInfo, width: nat, off: nat, signed: bool, next: Label)
    requires EffHi(pr, s) <= |pr.input|
    ensures var r := ReadMember(p, width, off, signed, pr.input, s.pos, EffHi(pr, s), s.le);
            StepNode(pr, s.(k := []), ExtractBits(p, width, off, signed, next))
            == if r.None? then Fail(s.(k := []))
               else s.(k := [Sp(next)], ac := CapV(r.value), log := s.log + [BitsRun(MsbFirst(p, s.le))])
  {
    hide ReadMember, MsbFirst, Fail, StepArrayNext, StepBeginArray, StepEndArray, StepResync, StepOnFail;
  }

  /** One member: extract, store, check. */
  lemma {:induction false} RunEntry(w: World, code: seq<Node>, p: PrimInfo, e: Entry, off: nat, r: Rho, next: Label,
                 s: State, d: Standing, fuel: nat)
    returns (n: nat, t: State)
    requires |w.entries| == |w.g|
    requires var b := CompileEntry(code, p, e, off, r, next); Holds(w, |code|, b.code) && Spine(w.p, s, b.entry)
    requires e.where.Some? ==> Sound(d)
    requires FrameOk(w.p, d, r, s.frames) && EffHi(w.p, s) <= |w.p.input|
    ensures Outcome(w, s, s, next, ParseEntry(w.p.input, p, e, off, CoreOf(s), LoopVar(s.frames)), fuel, n, t)
  {
    hide Run, Step, StepNode, Check, Place, ReadMember, MsbFirst, CompileEntry, FieldDest, WrapWhere, Holds, FrameOk, Chain, HandlersOk,
         Falls, Lands, Unwind, Fail, LoopVar;
    var wh := WrapWhere(code, e.where, r, next);
    var ds := FieldDest(wh.code, e.name, wh.entry);
    var b := CompileEntry(code, p, e, off, r, next);
    EntryHeld(w, code, p, e, off, r, next);
    EffHiBound(w.p, s);
    CtxSame(w.p, s);
    ExtractStep(w.p, s, p, e.width, off, e.signed, ds.entry);
    var v := ReadMember(p, e.width, off, e.signed, w.p.input, s.pos, EffHi(w.p, s), s.le);
    if v.None? {
      FailSp(w.p, s, b.entry, s.(k := []));
      n, t := 1, Fail(s.(k := []));
    } else {
      var t1 := s.(k := [Sp(ds.entry)], ac := CapV(v.value), log := s.log + [BitsRun(MsbFirst(p, s.le))]);
      Shifted(w.p, s, t1);
      RunSp(w.p, s, b.entry, t1, ds.entry);
      var n2, t2 := RunStore(w, code, e.name, e.where, r, next, s, t1, v.value, d, fuel);
      Prepend(w, s, s, 1, t1, next, Check(w.p.input, e.where, Place(CoreOf(t1), e.name, v.value), LoopVar(s.frames)), fuel, n2, t2);
      n, t := 1 + n2, t2;
    }
  }

  lemma {:induction false} RunEntries(w: World, code: seq<Node>, p: PrimInfo, es: seq<Entry>, off: nat, r: Rho, next: Label,
                   s: State, d: Standing, fuel: nat)
    returns (n: nat, t: State)
    requires |w.entries| == |w.g|
    requires Holds(w, |code|, CompileEntries(code, p, es, off, r, next).code)
    requires Spine(w.p, s, CompileEntries(code, p, es, off, r, next).entry)
    requires forall i :: 0 <= i < |es| ==> es[i].where.Some? ==> Sound(d)
    requires FrameOk(w.p, d, r, s.frames)
    ensures Outcome(w, s, s, next, ParseEntries(w.p.input, p, es, off, CoreOf(s), LoopVar(s.frames)), fuel, n, t)
    decreases |es|
  {
    hide Run, ParseEntry, CompileEntry, FrameOk, Spine;
    var loop := LoopVar(s.frames);
    if es == [] {
      n, t := 0, s;
      SpineSafe(w.p, s, next);
      SpineCore(w.p, s, next);
    } else {
      var b := CompileEntries(code, p, es, off, r, next);
      var rest := CompileEntries(code, p, es[1..], off + es[0].width, r, next);
      HoldsPart(w, |code|, b.code, |code|, rest.code);
      HoldsPart(w, |code|, b.code, |rest.code|, b.code);
      SpineCore(w.p, s, b.entry);
      n, t := RunEntry(w, rest.code, p, es[0], off, r, rest.entry, s, d, fuel);
      var c1 := ParseEntry(w.p.input, p, es[0], off, CoreOf(s), loop);
      if c1.Ok? {
        var n2, t2 := RunEntries(w, code, p, es[1..], off + es[0].width, r, next, t, d, fuel);
        var res := ParseEntries(w.p.input, p, es[1..], off + es[0].width, c1.c, loop);
        FollowsRebase(w, s, t, t, next, res, fuel, n2, t2);
        Prepend(w, s, s, n, t, next, res, fuel, n2, t2);
        n, t := n + n2, t2;
      }
    }
  }

  lemma SpineCore(p: Program, s: State, l: Label)
    requires Spine(p, s, l)
    ensures Chained(p, s) && InWindow(p, s) && !s.failed && s.depth <= |s.wins| && Follows(s, s) && EffHi(p, s) <= |p.input| && EffHi(p, s) == CoreHi(p.input, CoreOf(s))
  {
    EffHiBound(p, s);
  }

  lemma AdvanceStep(p: Program, s: State, amount: nat, next: Label)
    ensures StepNode(p, s.(k := []), AdvancePos(amount, next)) == s.(k := [Sp(next)], pos := s.pos + amount)
  {}

  lemma {:induction false} RunBitfield(w: World, code: seq<Node>, p: PrimInfo, es: seq<Entry>, r: Rho, next: Label,
                    s: State, d: Standing, fuel: nat)
    returns (n: nat, t: State)
    requires |w.entries| == |w.g| && es != []
    requires Holds(w, |code|, CompileBitfield(code, p, es, r, next).code)
    requires Spine(w.p, s, CompileBitfield(code, p, es, r, next).entry)
    requires forall i :: 0 <= i < |es| ==> es[i].where.Some? ==> Sound(d)
    requires FrameOk(w.p, d, r, s.frames)
    ensures Outcome(w, s, s, next, ParseBitfield(w.p.input, p, es, CoreOf(s), LoopVar(s.frames)), fuel, n, t)
  {
    hide Run, Step, StepNode, ParseEntries, CompileEntries, FrameOk, Chain, HandlersOk;
    var b := CompileBitfield(code, p, es, r, next);
    var adv := Emit(code, AdvancePos(ByteCount(p), next));
    assert w.p.code[|code|] == AdvancePos(ByteCount(p), next);
    HoldsPart(w, |code|, b.code, |adv.code|, b.code);
    var n1, t1 := RunEntries(w, adv.code, p, es, 0, r, |code|, s, d, fuel);
    n, t := n1, t1;
    var res := ParseEntries(w.p.input, p, es, 0, CoreOf(s), LoopVar(s.frames));
    if res.Ok? {
      EntriesFit(w.p.input, p, es, 0, CoreOf(s), LoopVar(s.frames));
      var t2 := t1.(k := [Sp(next)], pos := t1.pos + ByteCount(p));
      CtxSame(w.p, t1);
      CtxSame(w.p, s);
      Shifted(w.p, t1, t2);
      AdvanceStep(w.p, t1, ByteCount(p), next);
      RunSp(w.p, t1, |code|, t2, next);
      RunTrans(w.p, s, n1, t1, 1, t2);
      n, t := n1 + 1, t2;
    }
  }
}
