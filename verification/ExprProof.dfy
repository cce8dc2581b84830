/** Expression lowering preserves meaning: above any K, the compiled expression delivers the
    evaluator's value and touches nothing else, or calls fail() exactly when it errs. */
module ExprProof {
  import opened Syntax
  import opened Eval
  import opened Machine
  import opened Compile
  import opened Runs

  /** t is s with K, the accumulator and fresh arena cells changed, and nothing else. */
  predicate Quiet(s: State, t: State) {
    t == s.(k := t.k, ac := t.ac, slots := t.slots) && s.slots <= t.slots
  }

  /** As Quiet, but arena cells may have been written too. */
  predicate Calm(s: State, t: State) {
    t == s.(k := t.k, ac := t.ac, slots := t.slots)
  }

  /** Outcome of running an expression above k0: a value on k0, or fail() called from a
      state that still has k0 at the bottom of K. */
  ghost predicate Delivers(p: Program, s: State, k0: seq<Kont>, v: Option<Value>, n: nat, t: State, x: State) {
    Run(p, s, n, t) && n >= 1 && Quiet(s, x) && k0 <= x.k
    && (if v.Some? then t == x && x.k == k0 && x.ac == v.value else t == Fail(x))
  }

  lemma CalmSafe(p: Program, s: State, t: State, k0: seq<Kont>)
    requires Calm(s, t) && SafeAbove(p, s, k0)
    ensures SafeAbove(p, t, k0) && CtxOf(p, t) == CtxOf(p, s)
  {
    hide Chain, HandlersOk, Seeking;
  }

  /** Glue: a sub-expression that delivered, then the rest. */
  lemma ThenRun(p: Program, s: State, k0: seq<Kont>, n1: nat, s1: State, k1: seq<Kont>, v: Option<Value>, n: nat, t: State, x: State)
    requires Run(p, s, n1, s1) && Quiet(s, s1) && k0 <= k1
    requires Delivers(p, s1, k1, v, n, t, x)
    requires v.None? || k0 == k1
    ensures Delivers(p, s, k0, v, n1 + n, t, x)
  {
    hide Step, Safe;
    RunTrans(p, s, n1, s1, n, t);
  }

  /** A kont that finishes in one step: deliver a value or fail. */
  lemma LastStep(p: Program, s: State, k0: seq<Kont>, k: Kont, v: Option<Value>)
    returns (n: nat, t: State, x: State)
    requires s.k == k0 + [k] && !s.failed && SafeAbove(p, s, k0)
    requires Invoke(p, s.(k := k0), k) == Deliver(s.(k := k0), v)
    ensures Delivers(p, s, k0, v, n, t, x) && n == 1
  {
    hide Invoke, Step;
    Popped(p, s, k0, k);
    n, t := 1, Step(p, s);
    x := if v.Some? then t else s.(k := k0);
    assert Seeking(p, k0) ==> Seeking(p, s.k);
    if v.None? { FailSafe(p, s.(k := k0)); }
    RunOne(p, s);
  }

  /** A kont that pushes and continues. */
  lemma PushStep(p: Program, s: State, k0: seq<Kont>, k: Kont, s1: State)
    requires s.k == k0 + [k] && !s.failed && SafeAbove(p, s, k0)
    requires s1 == Invoke(p, s.(k := k0), k) && Calm(s, s1) && k0 <= s1.k
    ensures SafeAbove(p, s1, k0) && Run(p, s, 1, s1) && CtxOf(p, s1) == CtxOf(p, s)
  {
    hide Invoke, Step;
    Popped(p, s, k0, k);
    CalmSafe(p, s, s1, k0);
    assert Seeking(p, k0) ==> Seeking(p, s.k) && Seeking(p, s1.k);
    RunOne(p, s);
  }

  lemma SafeDeeper(p: Program, s: State, k0: seq<Kont>, k1: seq<Kont>)
    requires SafeAbove(p, s, k0) && k0 <= k1
    ensures SafeAbove(p, s, k1)
  {}

  // What single konts do, so that longer proofs need not look inside the machine.

  lemma InvokeEx(p: Program, s: State, e: EKont)
    ensures Invoke(p, s, Ex(e)) == StepEx(p, s, e)
  {}

  lemma InvokeDyn(p: Program, s: State, d: DKont)
    requires IsExprDyn(d)
    ensures Invoke(p, s, Dyn(d)) == StepExprDyn(p, s, d)
  {}

  /** Glue: an operand run above [d]; if it delivered, d finishes the expression. */
  lemma {:induction false} OperandThen(p: Program, s: State, k0: seq<Kont>, n0: nat, s1: State, d: DKont,
                    v1: Option<Value>, n1: nat, t1: State, x1: State, v: Option<Value>)
    returns (n: nat, t: State, x: State)
    requires Run(p, s, n0, s1) && SafeAbove(p, s1, k0) && Quiet(s, s1) && !s.failed
    requires Delivers(p, s1, k0 + [Dyn(d)], v1, n1, t1, x1)
    requires IsExprDyn(d)
    requires v1.Some? ==> StepExprDyn(p, t1.(k := k0), d) == Deliver(t1.(k := k0), v)
    requires v1.None? ==> v.None?
    ensures Delivers(p, s, k0, v, n, t, x)
    ensures n <= n0 + n1 + 1
  {
    hide Step, Invoke, Safe, StepExprDyn, Run, Chained;
    if v1.None? {
      ThenRun(p, s, k0, n0, s1, k0 + [Dyn(d)], None, n1, t1, x1);
      n, t, x := n0 + n1, t1, x1;
    } else {
      InvokeDyn(p, t1.(k := k0), d);
      CalmSafe(p, s1, t1, k0);
      var m, t2, x2 := LastStep(p, t1, k0, Dyn(d), v);
      ThenRun(p, s1, k0, n1, t1, k0, v, m, t2, x2);
      ThenRun(p, s, k0, n0, s1, k0, v, n1 + m, t2, x2);
      n, t, x := n0 + n1 + m, t2, x2;
    }
  }

  // ── The cases ─────────────────────────────────────────────────────────

  /** The expression theorem, at any depth of K. The steps taken are bounded by the size. */
  lemma {:induction false} RunExpr(p: Program, s: State, k0: seq<Kont>, e: Expr)
    returns (n: nat, t: State, x: State)
    requires s.k == k0 + [Ex(CompileExpr(e))] && !s.failed && SafeAbove(p, s, k0)
    ensures Delivers(p, s, k0, EvalExpr(e, CtxOf(p, s)), n, t, x)
    ensures n <= 3 * ExprSize(e) - 1
    decreases e, 3
  {
    match e
    case Bin(_, _, _) => n, t, x := RunBin(p, s, k0, e);
    case AndE(_, _) => n, t, x := RunLogic(p, s, k0, e);
    case OrE(_, _) => n, t, x := RunLogic(p, s, k0, e);
    case Un(_, _) => n, t, x := RunUn(p, s, k0, e);
    case Ternary(_, _, _) => n, t, x := RunTernary(p, s, k0, e);
    case Call(_, _) => n, t, x := RunCall(p, s, k0, e);
    case _ => n, t, x := RunAtom(p, s, k0, e);
  }

  predicate IsAtom(e: Expr) {
    e.IntLit? || e.BoolLit? || e.StrLit? || e.EndianLit? || e.Eoi? || e.Context? || e.Ref?
  }

  lemma RunAtom(p: Program, s: State, k0: seq<Kont>, e: Expr) returns (n: nat, t: State, x: State)
    requires IsAtom(e)
    requires s.k == k0 + [Ex(CompileExpr(e))] && !s.failed && SafeAbove(p, s, k0)
    ensures Delivers(p, s, k0, EvalExpr(e, CtxOf(p, s)), n, t, x)
    ensures n == 1
  {
    hide Step, Invoke, Safe, Run, Chained;
    InvokeEx(p, s.(k := k0), CompileExpr(e));
    n, t, x := LastStep(p, s, k0, Ex(CompileExpr(e)), EvalExpr(e, CtxOf(p, s)));
  }

  lemma {:induction false} RunUn(p: Program, s: State, k0: seq<Kont>, e: Expr) returns (n: nat, t: State, x: State)
    requires e.Un?
    requires s.k == k0 + [Ex(CompileExpr(e))] && !s.failed && SafeAbove(p, s, k0)
    ensures Delivers(p, s, k0, EvalExpr(e, CtxOf(p, s)), n, t, x)
    ensures n <= 3 * ExprSize(e) - 1
    decreases e, 2
  {
    hide Step, Invoke, Safe, Run, Chained, SafeAbove, Fail, CtxOf, ApplyBin, ApplyUn, ApplyCall;
    var d := ApplyUnK(e.uop);
    var s1 := s.(k := k0 + [Dyn(d)] + [Ex(CompileExpr(e.e))]);
    assert k0 + [Dyn(d), Ex(CompileExpr(e.e))] == s1.k;
    InvokeEx(p, s.(k := k0), CompileExpr(e));
    PushStep(p, s, k0, Ex(CompileExpr(e)), s1);
    SafeDeeper(p, s1, k0, k0 + [Dyn(d)]);
    var n1, t1, x1 := RunExpr(p, s1, k0 + [Dyn(d)], e.e);
    n, t, x := OperandThen(p, s, k0, 1, s1, d, EvalExpr(e.e, CtxOf(p, s)), n1, t1, x1, EvalExpr(e, CtxOf(p, s)));
  }

  /** Right operand first, into a fresh cell; then the left one; then the operator. */
  lemma {:induction false} RunBin(p: Program, s: State, k0: seq<Kont>, e: Expr) returns (n: nat, t: State, x: State)
    requires e.Bin?
    requires s.k == k0 + [Ex(CompileExpr(e))] && !s.failed && SafeAbove(p, s, k0)
    ensures Delivers(p, s, k0, EvalExpr(e, CtxOf(p, s)), n, t, x)
    ensures n <= 3 * ExprSize(e) - 1
    decreases e, 2
  {
    hide Step, Invoke, Safe, Run, Chained, SafeAbove, Fail, CtxOf, ApplyBin, ApplyUn, ApplyCall;
    var j := |s.slots|;
    var d, el := ApplyBinK(e.op, j), EvalLeft(j, CompileExpr(e.l));
    var k1 := k0 + [Dyn(d)];
    var s1 := s.(slots := s.slots + [Null], k := k1 + [Dyn(el)] + [Ex(CompileExpr(e.r))]);
    assert k0 + [Dyn(d), Dyn(el), Ex(CompileExpr(e.r))] == s1.k;
    InvokeEx(p, s.(k := k0), CompileExpr(e));
    PushStep(p, s, k0, Ex(CompileExpr(e)), s1);
    var rv := EvalExpr(e.r, CtxOf(p, s));
    SafeDeeper(p, s1, k0, k1);
    SafeDeeper(p, s1, k0, k1 + [Dyn(el)]);
    var n1, t1, x1 := RunExpr(p, s1, k1 + [Dyn(el)], e.r);
    if rv.None? {
      ThenRun(p, s, k0, 1, s1, k1 + [Dyn(el)], None, n1, t1, x1);
      n, t, x := n1 + 1, t1, x1;
    } else {
      RunTrans(p, s, 1, s1, n1, t1);
      CalmSafe(p, s1, t1, k1);
      InvokeDyn(p, t1.(k := k1), el);
      var s2 := t1.(slots := t1.slots[j := rv.value], k := k1 + [Ex(CompileExpr(e.l))]);
      PushStep(p, t1, k1, Dyn(el), s2);
      RunTrans(p, s, 1 + n1, t1, 1, s2);
      var n2, t2, x2 := RunExpr(p, s2, k1, e.l);
      assert x2.slots[j] == s2.slots[j];
      CalmSafe(p, s, s2, k0);
      n, t, x := OperandThen(p, s, k0, 2 + n1, s2, d, EvalExpr(e.l, CtxOf(p, s)), n2, t2, x2, EvalExpr(e, CtxOf(p, s)));
    }
  }

  /** The dynamic kont that decides a short-circuit operator. */
  function LogicKont(e: Expr): DKont
    requires e.AndE? || e.OrE?
  {
    if e.AndE? then AndCheck(CompileExpr(e.r)) else OrCheck(CompileExpr(e.r))
  }

  /** Short circuit: the right operand runs only when the left one does not decide. */
  lemma {:induction false} RunLogic(p: Program, s: State, k0: seq<Kont>, e: Expr) returns (n: nat, t: State, x: State)
    requires e.AndE? || e.OrE?
    requires s.k == k0 + [Ex(CompileExpr(e))] && !s.failed && SafeAbove(p, s, k0)
    ensures Delivers(p, s, k0, EvalExpr(e, CtxOf(p, s)), n, t, x)
    ensures n <= 3 * ExprSize(e) - 1
    decreases e, 2
  {
    hide Step, Invoke, Safe, Run, Chained, SafeAbove, Fail, CtxOf, ApplyBin, ApplyUn, ApplyCall;
    var d := LogicKont(e);
    var s1 := s.(k := k0 + [Dyn(d)] + [Ex(CompileExpr(e.l))]);
    assert k0 + [Dyn(d), Ex(CompileExpr(e.l))] == s1.k;
    InvokeEx(p, s.(k := k0), CompileExpr(e));
    PushStep(p, s, k0, Ex(CompileExpr(e)), s1);
    var lv, ev := EvalExpr(e.l, CtxOf(p, s)), EvalExpr(e, CtxOf(p, s));
    SafeDeeper(p, s1, k0, k0 + [Dyn(d)]);
    var n1, t1, x1 := RunExpr(p, s1, k0 + [Dyn(d)], e.l);
    if lv.None? || Truth(lv.value) != Some(e.AndE?) {
      n, t, x := OperandThen(p, s, k0, 1, s1, d, lv, n1, t1, x1, ev);
    } else {
      RunTrans(p, s, 1, s1, n1, t1);
      CalmSafe(p, s1, t1, k0);
      InvokeDyn(p, t1.(k := k0), d);
      var s2 := t1.(k := k0 + [Dyn(Normalize)] + [Ex(CompileExpr(e.r))]);
      assert k0 + [Dyn(Normalize), Ex(CompileExpr(e.r))] == s2.k;
      PushStep(p, t1, k0, Dyn(d), s2);
      RunTrans(p, s, 1 + n1, t1, 1, s2);
      SafeDeeper(p, s2, k0, k0 + [Dyn(Normalize)]);
      var n2, t2, x2 := RunExpr(p, s2, k0 + [Dyn(Normalize)], e.r);
      n, t, x := OperandThen(p, s, k0, 2 + n1, s2, Normalize, EvalExpr(e.r, CtxOf(p, s)), n2, t2, x2, ev);
    }
  }

  lemma {:induction false} RunTernary(p: Program, s: State, k0: seq<Kont>, e: Expr) returns (n: nat, t: State, x: State)
    requires e.Ternary?
    requires s.k == k0 + [Ex(CompileExpr(e))] && !s.failed && SafeAbove(p, s, k0)
    ensures Delivers(p, s, k0, EvalExpr(e, CtxOf(p, s)), n, t, x)
    ensures n <= 3 * ExprSize(e) - 1
    decreases e, 2
  {
    hide Step, Invoke, Safe, Run, Chained, SafeAbove, Fail, CtxOf, ApplyBin, ApplyUn, ApplyCall;
    var d := TernaryDispatch(CompileExpr(e.thn), CompileExpr(e.els));
    var s1 := s.(k := k0 + [Dyn(d)] + [Ex(CompileExpr(e.cond))]);
    assert k0 + [Dyn(d), Ex(CompileExpr(e.cond))] == s1.k;
    InvokeEx(p, s.(k := k0), CompileExpr(e));
    PushStep(p, s, k0, Ex(CompileExpr(e)), s1);
    var cv := EvalExpr(e.cond, CtxOf(p, s));
    SafeDeeper(p, s1, k0, k0 + [Dyn(d)]);
    var n1, t1, x1 := RunExpr(p, s1, k0 + [Dyn(d)], e.cond);
    if cv.None? || Truth(cv.value).None? {
      n, t, x := OperandThen(p, s, k0, 1, s1, d, cv, n1, t1, x1, None);
    } else {
      RunTrans(p, s, 1, s1, n1, t1);
      CalmSafe(p, s1, t1, k0);
      InvokeDyn(p, t1.(k := k0), d);
      var b := if Truth(cv.value).value then e.thn else e.els;
      var s2 := t1.(k := k0 + [Ex(CompileExpr(b))]);
      PushStep(p, t1, k0, Dyn(d), s2);
      RunTrans(p, s, 1 + n1, t1, 1, s2);
      var n2, t2, x2 := RunExpr(p, s2, k0, b);
      ThenRun(p, s, k0, 2 + n1, s2, k0, EvalExpr(b, CtxOf(p, s)), n2, t2, x2);
      n, t, x := 2 + n1 + n2, t2, x2;
    }
  }

  /** One argument, evaluated and stored in its cell. */
  lemma {:induction false} RunArg(p: Program, s: State, k1: seq<Kont>, e: Expr, slot: nat)
    returns (n: nat, t: State, x: State)
    requires slot < |s.slots|
    requires s.k == k1 + [Dyn(ArgStore(slot)), Ex(CompileExpr(e))] && !s.failed && SafeAbove(p, s, k1)
    ensures Run(p, s, n, t) && k1 <= x.k && Calm(s, x) && n <= 3 * ExprSize(e)
    ensures |s.slots| <= |x.slots| && forall q :: 0 <= q < slot ==> x.slots[q] == s.slots[q]
    ensures match EvalExpr(e, CtxOf(p, s))
      case Some(v) => t == x && t.k == k1 && t.slots[slot] == v
      case None => t == Fail(x)
    decreases e, 4
  {
    hide Step, Invoke, Safe, Run, Chained, SafeAbove, Fail, CtxOf, ApplyBin, ApplyUn, ApplyCall;
    var d := ArgStore(slot);
    assert s.k == k1 + [Dyn(d)] + [Ex(CompileExpr(e))];
    SafeDeeper(p, s, k1, k1 + [Dyn(d)]);
    n, t, x := RunExpr(p, s, k1 + [Dyn(d)], e);
    var v := EvalExpr(e, CtxOf(p, s));
    if v.Some? {
      CalmSafe(p, s, t, k1);
      InvokeDyn(p, t.(k := k1), d);
      var s2 := t.(slots := t.slots[slot := v.value], k := k1);
      PushStep(p, t, k1, Dyn(d), s2);
      RunTrans(p, s, n, t, 1, s2);
      n, t, x := n + 1, s2, s2;
    }
  }

  /** Arguments i.. left to right, each into its own cell of the call's block. */
  lemma {:induction false} RunArgs(p: Program, s: State, k0: seq<Kont>, args: seq<Expr>, ks: seq<EKont>, base: nat, i: nat)
    returns (n: nat, t: State, x: State)
    requires i <= |args| && base + |args| <= |s.slots| && ks == CompileArgs(args)
    requires s.k == k0 + ArgKonts(ks, base, i) && !s.failed && SafeAbove(p, s, k0)
    ensures Run(p, s, n, t) && k0 <= x.k && Calm(s, x)
    ensures |s.slots| <= |x.slots| && forall q :: 0 <= q < base + i ==> x.slots[q] == s.slots[q]
    ensures n <= 3 * ArgsSize(args[i..])
    ensures match EvalArgs(args[i..], CtxOf(p, s))
      case Some(vs) => t == x && t.k == k0
        && forall q :: base + i <= q < base + |args| ==> t.slots[q] == vs[q - base - i]
      case None => t == Fail(x)
    decreases args[i..], 0
  {
    hide Step, Invoke, Safe, Run, Chained, SafeAbove, Fail, CtxOf, EvalExpr, CompileExpr, CompileArgs, EffHi;
    var rest := args[i..];
    if i == |args| {
      assert s.k == k0;
      n, t, x := 0, s, s;
      RunZero(p, s, k0);
    } else {
      assert rest[0] == args[i] && rest[1..] == args[i + 1..];
      var k1 := k0 + ArgKonts(ks, base, i + 1);
      assert s.k == k1 + [Dyn(ArgStore(base + i)), Ex(ks[i])];
      SafeDeeper(p, s, k0, k1);
      n, t, x := RunArg(p, s, k1, args[i], base + i);
      if EvalExpr(args[i], CtxOf(p, s)).Some? {
        CalmSafe(p, s, t, k0);
        var n2, t2, x2 := RunArgs(p, t, k0, args, ks, base, i + 1);
        RunTrans(p, s, n, t, n2, t2);
        n, t, x := n + n2, t2, x2;
      }
    }
  }

  lemma RunZero(p: Program, s: State, k0: seq<Kont>)
    requires SafeAbove(p, s, k0) && k0 <= s.k
    ensures Run(p, s, 0, s)
  {
    assert Seeking(p, k0) ==> Seeking(p, s.k);
  }

  lemma {:induction false} RunCall(p: Program, s: State, k0: seq<Kont>, e: Expr) returns (n: nat, t: State, x: State)
    requires e.Call?
    requires s.k == k0 + [Ex(CompileExpr(e))] && !s.failed && SafeAbove(p, s, k0)
    ensures Delivers(p, s, k0, EvalExpr(e, CtxOf(p, s)), n, t, x)
    ensures n <= 3 * ExprSize(e) - 1
    decreases e, 2
  {
    hide Step, Invoke, Safe, Run, Chained, SafeAbove, Fail, CtxOf, ApplyBin, ApplyUn, ApplyCall;
    var base, m := |s.slots|, |e.args|;
    var d := CallApply(e.func, base, m);
    var s1 := s.(slots := s.slots + Nulls(m), k := k0 + [Dyn(d)] + ArgKonts(CompileArgs(e.args), base, 0));
    InvokeEx(p, s.(k := k0), CompileExpr(e));
    PushStep(p, s, k0, Ex(CompileExpr(e)), s1);
    SafeDeeper(p, s1, k0, k0 + [Dyn(d)]);
    assert e.args[0..] == e.args;
    var n1, t1, x1 := RunArgs(p, s1, k0 + [Dyn(d)], e.args, CompileArgs(e.args), base, 0);
    RunTrans(p, s, 1, s1, n1, t1);
    var vs := EvalArgs(e.args, CtxOf(p, s));
    if vs.None? {
      n, t, x := 1 + n1, t1, x1;
    } else {
      CalmSafe(p, s, t1, k0);
      InvokeDyn(p, t1.(k := k0), d);
      assert t1.slots[base..base + m] == vs.value;
      CalmSafe(p, s, t1.(k := k0), k0);
      var n2, t2, x2 := LastStep(p, t1, k0, Dyn(d), ApplyCall(e.func, vs.value, CtxOf(p, s)));
      ThenRun(p, s, k0, 1 + n1, t1, k0, ApplyCall(e.func, vs.value, CtxOf(p, s)), n2, t2, x2);
      n, t, x := 1 + n1 + n2, t2, x2;
    }
  }
}
