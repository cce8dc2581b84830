/** A grammar and an input on which the jump of a failed `where` changes what is accepted: the
    machine halts early where the denotation, like fail(), reads on. */
module WhereJump {
  import opened Syntax
  import opened Eval
  import opened Wire
  import opened Machine
  import opened Compile
  import opened Denote
  import opened Runs
  import opened World
  import opened Theorems
  import opened StaleCase
  import opened StaleRun
  import opened WhereScope

  // ── A grammar on which the two differ ─────────────────────────────────

  /** A record of two plain fields, last to first. */
  lemma TwoFields(c: seq<Node>, f0: Field, f1: Field, r: Rho, next: Label)
    requires !f0.rest && !f1.rest && f0.interval.None? && f1.interval.None?
    ensures CompileRecord(c, Struct([f0, f1], None), r, next)
            == var b := CompileType(c, f1.body, InField(f1.name, r), next);
               CompileType(b.code, f0.body, InField(f0.name, r), b.entry)
  {
    hide CompileType;
    var fs := [f0, f1];
    assert !HasRest(fs) && fs[1..] == [f1] && [f1][1..] == [];
    var b := CompileField(c, f1, r, next);
    assert CompileChain(c, [], r, next) == Built(c, next);
    assert CompileChain(c, [f1], r, next) == b;
    assert CompileChain(c, fs, r, next) == CompileField(b.code, f0, r, b.entry);
  }

  lemma PlainPrim(c: seq<Node>, nm: Name, r: Rho, next: Label)
    requires nm != "_" && FieldName(r) == nm
    ensures CompileType(c, Prim(BoolP, None), r, next)
            == Built(c + [StoreEnv(nm, next), Capture(nm, |c|), MatchPrim(BoolP, |c| + 1)], |c| + 2)
  {
    hide FieldDest, FieldName;
    PlainDest(c, nm, next);
    assert c + [StoreEnv(nm, next), Capture(nm, |c|)] + [MatchPrim(BoolP, |c| + 1)]
           == c + [StoreEnv(nm, next), Capture(nm, |c|), MatchPrim(BoolP, |c| + 1)];
  }

  lemma PlainCall(c: seq<Node>, n: Name, r: Rho, next: Label)
    ensures CompileType(c, RuleRef(n), r, next)
            == Built(c + [EndStruct(next), InvokeRule(n, 0, BacktrackTarget(r), |c|), BeginStruct(FieldName(r), |c| + 1)], |c| + 2)
  {
    hide BacktrackTarget, FieldName;
    var c1 := c + [EndStruct(next)];
    var c2 := c1 + [InvokeRule(n, 0, BacktrackTarget(r), |c|)];
    assert c2 == c + [EndStruct(next), InvokeRule(n, 0, BacktrackTarget(r), |c|)];
    assert c2 + [BeginStruct(FieldName(r), |c| + 1)]
           == c + [EndStruct(next), InvokeRule(n, 0, BacktrackTarget(r), |c|), BeginStruct(FieldName(r), |c| + 1)];
  }

  lemma MainScopes()
    ensures FieldName(InField("y", Root)) == "y" && FieldName(InField("x", Root)) == "x" && BacktrackTarget(InField("x", Root)) == None
  {}

  lemma MainCompiles()
    ensures CompileRule([], Main) == Built(MainCode, 7)
  {
    hide CompileType, CompileRecord, FieldName, BacktrackTarget;
    var c0 := [Halt, ReturnRule(0)];
    MainScopes();
    assert [] + [Halt] + [ReturnRule(0)] == c0;
    TwoFields(c0, Main.fields[0], Main.fields[1], Root, 1);
    PlainPrim(c0, "y", InField("y", Root), 1);
    assert c0 + [StoreEnv("y", 1), Capture("y", 2), MatchPrim(BoolP, 3)] == MainCode[..5];
    PlainCall(MainCode[..5], "r", InField("x", Root), 4);
    assert MainCode[..5] + [EndStruct(4), InvokeRule("r", 0, None, 5), BeginStruct("x", 6)] == MainCode;
  }

  /** The array of one element whose `where` is false, compiled where a failure goes to l. */
  function ManyCode(at: nat, l: Label, next: Label): (c: seq<Node>)
    ensures |c| == 7
  {
    [EndArray(false, next), ArrayNext(FixedCount, LitK(IntV(1)), at, at + 5, false),
     EvalConstraint(LitK(BoolV(false)), l, at + 1), StoreEnv("", at + 2), Capture("", at + 3), MatchPrim(BoolP, at + 4),
     BeginArray("", FixedCount, LitK(IntV(1)), at, None, at + 5)]
  }

  /** A value's destination, in front of the node that consumes it. */
  lemma PlainDest(c: seq<Node>, nm: Name, next: Label)
    requires nm != "_"
    ensures FieldDest(c, nm, next) == Built(c + [StoreEnv(nm, next), Capture(nm, |c|)], |c| + 1)
  {
    assert (c + [StoreEnv(nm, next)]) + [Capture(nm, |c|)] == c + [StoreEnv(nm, next), Capture(nm, |c|)];
  }

  lemma ElemCompiles(c: seq<Node>, r: Rho, l: Label, next: Label)
    requires BacktrackTarget(r) == Some(l) && FieldName(r) == ""
    ensures CompileType(c, Elem, r, next)
            == Built(c + [EvalConstraint(LitK(BoolV(false)), l, next), StoreEnv("", |c|), Capture("", |c| + 1), MatchPrim(BoolP, |c| + 2)], |c| + 3)
  {
    hide BacktrackTarget, FieldName, FieldDest;
    var n := |c|;
    var c1 := c + [EvalConstraint(LitK(BoolV(false)), l, next)];
    PlainDest(c1, "", n);
    assert c1 + [StoreEnv("", n), Capture("", n + 1)] + [MatchPrim(BoolP, n + 2)]
           == c + [EvalConstraint(LitK(BoolV(false)), l, next), StoreEnv("", n), Capture("", n + 1), MatchPrim(BoolP, n + 2)];
  }

  lemma ManyCompiles(c: seq<Node>, l: Label, next: Label)
    ensures CompileType(c, Many, InAlt(l, Root), next) == Built(c + ManyCode(|c|, l, next), |c| + 6)
  {
    hide CompileType, CompileArray, ManyCode;
    ManyArray(c, l, next);
    ManyIsArray(c, l, next);
  }

  lemma ManyArray(c: seq<Node>, l: Label, next: Label)
    ensures CompileArray(c, Many, InAlt(l, Root), next) == Built(c + ManyCode(|c|, l, next), |c| + 6)
  {
    hide CompileType;
    var n, er := |c|, InArrayElem(None, InAlt(l, Root));
    var end, nxt := EndArray(false, next), ArrayNext(FixedCount, LitK(IntV(1)), n, 0, false);
    var h := ArrayHead(c, Many, InAlt(l, Root), next);
    assert (c + [end]) + [nxt] == c + [end, nxt];
    assert h == BuiltHead(c + [end, nxt], n, n + 1, None, n + 1);
    ElemCompiles(h.code, er, l, n + 1);
    var it := CompileIteration(h.code, Many, er, h.tail);
    assert it.loop == it.head == n + 5;
    assert ArrayPatch(it.code, n, Many, h, n + 5)
           == c + [end, ArrayNext(FixedCount, LitK(IntV(1)), n, n + 5, false), EvalConstraint(LitK(BoolV(false)), l, n + 1),
                   StoreEnv("", n + 2), Capture("", n + 3), MatchPrim(BoolP, n + 4)];
    assert c + ManyCode(n, l, next)
           == ArrayPatch(it.code, n, Many, h, n + 5) + [BeginArray("", FixedCount, LitK(IntV(1)), n, None, n + 5)];
    assert FieldName(InAlt(l, Root)) == "" && CompileExpr(Many.bound) == LitK(IntV(1));
    hide ArrayHead, CompileIteration, ArrayPatch, FieldName, CompileExpr, ManyCode;
    assert CompileArray(c, Many, InAlt(l, Root), next)
           == Emit(ArrayPatch(it.code, n, Many, h, n + 5), BeginArray("", FixedCount, LitK(IntV(1)), n, None, n + 5));
  }

  lemma ManyIsArray(c: seq<Node>, l: Label, next: Label)
    ensures CompileType(c, Many, InAlt(l, Root), next) == CompileArray(c, Many, InAlt(l, Root), next)
  {
    hide CompileArray;
  }

  const Arms := [Arm("a", Many), Arm("b", Compute(IntLit(0)))]

  lemma FirstArmCompiles(c: seq<Node>, l: Label, success: Label)
    ensures CompileArm(c, Arms[0], 0, InAlt(l, Root), success)
            == Built(c + [EndStruct(success)] + ManyCode(|c| + 1, l, |c|) + [BeginVariant("a", 0, |c| + 7)], |c| + 8)
  {
    hide CompileType, ManyCode;
    ManyCompiles(c + [EndStruct(success)], l, |c|);
  }

  lemma SecondArmCompiles(c: seq<Node>, success: Label)
    ensures CompileArm(c, Arms[1], 1, Root, success)
            == Built(c + [EndStruct(success), StoreEnv("", |c|), Capture("", |c| + 1), BindCompute(LitK(IntV(0)), |c| + 2),
                          BeginVariant("b", 1, |c| + 3)], |c| + 4)
  {
    hide FieldDest;
    var n, c1 := |c|, c + [EndStruct(success)];
    PlainDest(c1, "", n);
    var c4 := c1 + [StoreEnv("", n), Capture("", n + 1)] + [BindCompute(LitK(IntV(0)), n + 2)];
    assert CompileType(c1, Arms[1].body, Root, n) == Built(c4, n + 3);
    assert c4 + [BeginVariant("b", 1, n + 3)]
           == c + [EndStruct(success), StoreEnv("", n), Capture("", n + 1), BindCompute(LitK(IntV(0)), n + 2), BeginVariant("b", 1, n + 3)];
  }

  lemma LastArmCompiles(c: seq<Node>)
    requires |c| == 12
    ensures CompileArms(c, [Arms[1]], 1, Root, 10, 11) == BuiltArms(c + ArmBCode[..5], 16, 11)
  {
    hide CompileArm;
    SecondArmCompiles(c, 10);
    assert c + [EndStruct(10), StoreEnv("", 12), Capture("", 13), BindCompute(LitK(IntV(0)), 14), BeginVariant("b", 1, 15)] == c + ArmBCode[..5];
  }

  lemma ArmsCompile(c: seq<Node>)
    requires |c| == 12
    ensures CompileArms(c, Arms, 0, Root, 10, 11) == BuiltArms(c + ArmBCode + ArmACode, 26, 17)
  {
    hide CompileArm, ManyCode;
    assert Arms[1..] == [Arms[1]];
    LastArmCompiles(c);
    var c2 := c + ArmBCode;
    assert c + ArmBCode[..5] + [OnFail(Some(16), Some(11), false)] == c2;
    FirstArmCompiles(c2, 17, 10);
    ArmAIs(c2);
    assert CompileArms(c, Arms, 0, Root, 10, 11) == BuiltArms(c2 + ArmACode, 26, 17);
  }

  lemma ArmAIs(c: seq<Node>)
    ensures c + [EndStruct(10)] + ManyCode(19, 17, 18) + [BeginVariant("a", 0, 25)] == c + ArmACode
  {}

  lemma AOrBCompiles()
    ensures CompileRule(MainCode, AOrB) == Built(MainCode + AOrBCode, 27)
  {
    hide CompileType, CompileLeaf, CompileArm, CompileArms;
    var c0 := MainCode + ChoiceCode;
    assert c0 == MainCode + [Halt] + [ReturnRule(8)] + [CommitChoice(9)] + [OnFail(None, None, true)];
    ArmsCompile(c0);
    assert c0 + ArmBCode + ArmACode + [BeginChoice(17, 26)] == MainCode + AOrBCode;
    AOrBIsChoice(MainCode + [Halt] + [ReturnRule(8)]);
  }

  lemma AOrBIsChoice(c: seq<Node>)
    ensures CompileBody(c, AOrB, 9) == CompileChoice(c, AOrB, Root, 9)
  {
    hide CompileChoice, CompileRecord, CompileBitfield, CompileLeaf;
  }

  lemma CallPatched()
    ensures Patch(MainCode + AOrBCode, G, [7, 27]) == Code
  {
    assert RuleIndex(G, "r") == Some(1) by { assert G[1..] == [G[1]]; }
    assert PatchNode(MainCode[6], G, [7, 27]) == CallNode;
    assert forall i :: 0 <= i < 8 && i != 6 ==> !MainCode[i].InvokeRule?;
    assert forall i :: 0 <= i < |AOrBCode| ==> !AOrBCode[i].InvokeRule?;
    var all := MainCode + AOrBCode;
    forall i | 0 <= i < |all| ensures PatchNode(all[i], G, [7, 27]) == Code[i] {
      if i < 8 {
        assert all[i] == MainCode[i];
      } else {
        assert all[i] == AOrBCode[i - 8] == Code[i];
      }
    }
  }

  /** The lowering of G, rule entries patched in. */
  lemma GCompiles()
    ensures CompileGrammar(G) == Code && CompileRules(G, 2).entries == [7, 27]
  {
    hide CompileRule, Patch;
    MainCompiles();
    AOrBCompiles();
    assert CompileRules(G, 1) == BuiltRules(MainCode, [7]);
    assert CompileRules(G, 2) == BuiltRules(MainCode + AOrBCode, [7, 27]);
    CallPatched();
  }

  /** The machine accepts G on the one byte 0 without reading the second field: a loop frame,
      a savepoint and a return frame are left standing when it halts. */
  lemma MachineHaltsEarly()
    ensures var w := Load(G, [0], {});
            var t := Steps(w.p, StartState(w, 0, true), 24);
            !Running(t) && !t.failed && t.pos == 0 && |t.frames| == 3
  {
    hide Step, CompileGrammar, CompileRules;
    GCompiles();
    var p, s0 := Program(Code, [0]), Initial(7, true);
    CodeNodes();
    RunToArray(p);
    RunElement(p);
    RunJumpBack(p);
    RunArmB(p);
    RunOut(p);
    StepsAdd(p, s0, 4, 6);
    StepsAdd(p, s0, 10, 5);
    StepsAdd(p, s0, 15, 5);
    StepsAdd(p, s0, 20, 4);
  }

  /** Where its check stands: in a plain element under an earlier alternative, in a called
      rule. The scopes do not agree. */
  lemma ScopesDisagree(c: State)
    ensures var p, scs := Program(Code, [0]), [Element, EarlierArm(17), WhereScope.Called];
            Stack(p, scs, [Loop1, Save, Ret], |LogB|) && Onto(p, scs, 17) && !Agrees(p, c, scs, [Loop1, Save, Ret])
  {
    var p := Program(Code, [0]);
    assert |p.code| == 28 && p.code[17] == OnFail(Some(16), Some(11), false) by { CodeNodes(); }
    var scs: seq<Scope>, fs: seq<Frame> := [Element, EarlierArm(17), WhereScope.Called], [Loop1, Save, Ret];
    assert scs[1..] == [EarlierArm(17), WhereScope.Called] && fs[1..] == [Save, Ret];
    assert scs[1..][1..] == [WhereScope.Called] && fs[1..][1..] == [Ret];
    assert [WhereScope.Called][1..] == [] && [Ret][1..] == [];
    assert FindSave(fs) == 1 && Target(scs[1..]) == Some(17);
    assert Target([]) == None && Stack(p, [], [], Save.mark);
    assert Stack(p, scs[1..][1..], fs[1..][1..], Save.mark);
    assert Stack(p, scs[1..], fs[1..], |LogB|);
    assert Stack(p, scs, fs, |LogB|);
  }

  lemma ManyFails(c: Core, fuel: nat)
    requires c.pos == 0 && c.wins == []
    ensures ParseType(G, [0], fuel, Many, "", c, None).Failed?
  {
    var c2 := Logged(c, OpenArray("", 0));
    assert ParsePrim([0], BoolP, Some(BoolLit(false)), "", c2, Some(0)) == Failed by { hide ParseType; }
    assert ParseElem(G, [0], fuel, Many, false, 0, c2) == Failed;
    hide ParseElem;
    assert ParseLoop(G, [0], fuel, Many, 1, false, 0, c2) == LoopFailed;
    hide ParseLoop;
    assert ParseItems(G, [0], fuel, Many, "", c, None) == LoopFailed;
  }

  lemma AOrBMeans(c: Core, fuel: nat)
    requires c.pos == 0 && c.wins == []
    ensures var r := ParseType(G, [0], fuel, AOrB, "", c, None);
            r.Ok? && r.c.pos == 0 && r.c.wins == []
  {
    var c1 := Logged(c, OpenVariant("a", 0, 0));
    ManyFails(c1, fuel);
    assert Arms[1..] == [Arms[1]];
    assert ParseArm(G, [0], fuel, Arms[0], 0, "", c, None) == Failed;
    var c2 := Logged(c, OpenVariant("b", 0, 1));
    var d := Place(c2, "", Carrier(0, 0, TComputed, IntV(0), Plain));
    assert ParseType(G, [0], fuel, Compute(IntLit(0)), "", c2, None) == Ok(d);
    assert ParseArm(G, [0], fuel, Arms[1], 1, "", c, None) == Ok(Logged(d, CloseStruct(0)));
    hide ParseArm;
    assert ParseArms(G, [0], fuel, Arms[1..], 1, "", c, None) == ParseArm(G, [0], fuel, Arms[1], 1, "", c, None);
  }

  /** The denotation reads it: the failed `where` fails the array, the second alternative
      succeeds, and the second field consumes the byte. */
  lemma DenotationReads(fuel: nat)
    requires fuel >= 1
    ensures var r := Meaning(G, [0], 0, true, fuel); r.Ok? && r.c.pos == 1
  {
    var c1 := Logged(StartCore(true), OpenStruct("x", 0));
    AOrBMeans(c1, fuel - 1);
    var e := ParseType(G, [0], fuel - 1, AOrB, "", c1, None).c;
    assert ParseBody(G, [0], fuel - 1, AOrB, c1, None) == Ok(e);
    var c2 := Logged(e.(env := []), CloseStruct(0));
    assert ParseRule(G, [0], fuel, "r", c1, None) == Ok(e.(env := []));
    assert ParseType(G, [0], fuel, RuleRef("r"), "x", StartCore(true), None) == Ok(c2);
    var y := ParseType(G, [0], fuel, Prim(BoolP, None), "y", c2, None);
    assert y.Ok? && y.c.pos == 1;
    hide ParseType;
    assert Main.fields[1..][1..] == [];
    assert ParseField(G, [0], fuel, Main.fields[0], StartCore(true), None) == Ok(c2);
    assert ParseField(G, [0], fuel, Main.fields[1..][0], c2, None) == y;
    hide ParseField;
    assert ParseChain(G, [0], fuel, Main.fields[1..][1..], y.c, None) == Ok(y.c);
    assert ParseChain(G, [0], fuel, Main.fields[1..], c2, None) == y;
    assert ParseChain(G, [0], fuel, Main.fields, StartCore(true), None) == y;
    assert !HasRest(Main.fields);
    hide ParseChain;
    assert ParseRecord(G, [0], fuel, Main, StartCore(true), None) == y;
  }
}
