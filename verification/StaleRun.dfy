/** The run of that code on the one byte 0, a few steps at a time. */
module StaleRun {
  import opened Syntax
  import opened Eval
  import opened Wire
  import opened Machine
  import opened Runs
  import opened StaleCase

  /** The nodes the run passes, by label. */
  ghost predicate Nodes(p: Program) {
    && p.input == [0] && |p.code| == 28
    && p.code[7] == BeginStruct("x", 6) && p.code[6] == InvokeRule("r", 27, None, 5)
    && p.code[8] == Halt && p.code[9] == ReturnRule(8) && p.code[10] == CommitChoice(9)
    && p.code[16] == BeginVariant("b", 1, 15) && p.code[17] == OnFail(Some(16), Some(11), false)
    && p.code[27] == BeginChoice(17, 26)
  }

  ghost predicate ArmBNodes(p: Program) {
    && |p.code| == 28 && p.code[12] == EndStruct(10) && p.code[13] == StoreEnv("", 12) && p.code[14] == Capture("", 13)
    && p.code[15] == BindCompute(LitK(IntV(0)), 14)
  }

  ghost predicate ArmANodes(p: Program) {
    && |p.code| == 28 && p.code[21] == EvalConstraint(LitK(BoolV(false)), 17, 20)
    && p.code[22] == StoreEnv("", 21) && p.code[23] == Capture("", 22) && p.code[24] == MatchPrim(BoolP, 23)
    && p.code[25] == BeginArray("", FixedCount, LitK(IntV(1)), 19, None, 24) && p.code[26] == BeginVariant("a", 0, 25)
  }

  lemma CodeNodes()
    ensures var p := Program(Code, [0]); Nodes(p) && ArmBNodes(p) && ArmANodes(p)
  {
    hide Nodes, ArmBNodes, ArmANodes;
    var p := Program(Code, [0]);
    Parts(p);
    PartNodes(p);
    PartNodesA(p);
    PartNodesB(p);
  }

  ghost predicate InParts(p: Program) {
    && p.input == [0] && |p.code| == 28
    && p.code[7] == BeginStruct("x", 6) && p.code[6] == CallNode && p.code[27] == BeginChoice(17, 26)
    && (forall i :: 8 <= i < 12 ==> p.code[i] == ChoiceCode[i - 8])
    && (forall i :: 12 <= i < 18 ==> p.code[i] == ArmBCode[i - 12])
    && (forall i :: 18 <= i < 27 ==> p.code[i] == ArmACode[i - 18])
  }

  lemma Joined(a: seq<Node>, b: seq<Node>, c: seq<Node>, d: seq<Node>, e: Node)
    requires |a| == 8 && |b| == 4 && |c| == 6 && |d| == 9
    ensures var all := a + (b + c + d + [e]);
            && |all| == 28 && all[27] == e && all[6] == a[6] && all[7] == a[7]
            && (forall i :: 8 <= i < 12 ==> all[i] == b[i - 8])
            && (forall i :: 12 <= i < 18 ==> all[i] == c[i - 12])
            && (forall i :: 18 <= i < 27 ==> all[i] == d[i - 18])
  {}

  lemma Parts(p: Program)
    requires p == Program(Code, [0])
    ensures InParts(p)
  {
    Joined(MainCode[6 := CallNode], ChoiceCode, ArmBCode, ArmACode, BeginChoice(17, 26));
  }

  lemma PartNodes(p: Program)
    requires InParts(p)
    ensures Nodes(p)
  {
    hide ArmANodes, ArmBNodes;
  }

  lemma PartNodesB(p: Program)
    requires InParts(p)
    ensures ArmBNodes(p)
  {
    hide Nodes, ArmANodes;
  }

  lemma PartNodesA(p: Program)
    requires InParts(p)
    ensures ArmANodes(p)
  {
    hide Nodes, ArmBNodes;
  }

  const Log1: Log := [OpenStruct("x", 0)]
  const Log2: Log := Log1 + [OpenVariant("a", 0, 0)]
  const LogA: Log := Log2 + [OpenArray("", 0)]
  const Ret := ReturnF(5, [], None)
  const Save := SaveF([], 0, true, 0, 0, 1, Some(17))
  const Loop1 := LoopF(0, 1, [])
  const Car := Carrier(0, 1, TBool, BoolV(false), Plain)

  function At(l: Label, ac: Value, pos: nat, env: Env, frames: seq<Frame>, log: Log): State {
    State([Sp(l)], ac, [], pos, env, true, frames, [], 0, log, false, 0)
  }

  lemma At1(p: Program, s: State, l: Label, t: State)
    requires s.k == [Sp(l)] && !s.failed && l < |p.code| && t == StepNode(p, s.(k := []), p.code[l])
    ensures Step(p, s) == t
  {
    hide StepNode;
    StepSp(p, s, l);
  }

  lemma OpensStruct(p: Program, s: State, l: Label, nm: Name, next: Label)
    requires s.k == [Sp(l)] && !s.failed && l < |p.code| && p.code[l] == BeginStruct(nm, next)
    ensures Step(p, s) == s.(k := [Sp(next)], log := s.log + [OpenStruct(nm, s.pos)])
  {
    At1(p, s, l, s.(k := [Sp(next)], log := s.log + [OpenStruct(nm, s.pos)]));
  }

  lemma CallsRule(p: Program, s: State, l: Label, n: Name, entry: Label, next: Label)
    requires s.k == [Sp(l)] && !s.failed && l < |p.code| && p.code[l] == InvokeRule(n, entry, None, next)
    ensures Step(p, s) == s.(k := [Sp(entry)], frames := [ReturnF(next, s.env, None)] + s.frames)
  {
    At1(p, s, l, s.(k := [Sp(entry)], frames := [ReturnF(next, s.env, None)] + s.frames));
  }

  lemma RunToRule(p: Program)
    requires |p.code| == 28 && p.code[7] == BeginStruct("x", 6) && p.code[6] == InvokeRule("r", 27, None, 5)
    ensures Steps(p, Initial(7, true), 2) == At(27, Null, 0, [], [Ret], Log1)
  {
    hide Step, StepNode, StepEx, StepExprDyn, StepSiteDyn;
    var s0, s1, s2 := Initial(7, true), At(6, Null, 0, [], [], Log1), At(27, Null, 0, [], [Ret], Log1);
    OpensStruct(p, s0, 7, "x", 6);
    assert Step(p, s0) == s1;
    CallsRule(p, s1, 6, "r", 27, 5);
    assert Step(p, s1) == s2;
    assert Steps(p, s0, 2) == Steps(p, s1, 1);
  }

  lemma RunToArray(p: Program)
    requires |p.code| == 28 && p.code[7] == BeginStruct("x", 6) && p.code[6] == InvokeRule("r", 27, None, 5)
    requires p.code[27] == BeginChoice(17, 26) && p.code[26] == BeginVariant("a", 0, 25)
    ensures Steps(p, Initial(7, true), 4) == At(25, Null, 0, [], [Save, Ret], Log2)
  {
    hide Step;
    RunToRule(p);
    var s2, s3 := At(27, Null, 0, [], [Ret], Log1), At(26, Null, 0, [], [Save, Ret], Log1);
    var s4 := At(25, Null, 0, [], [Save, Ret], Log2);
    At1(p, s2, 27, s3);
    At1(p, s3, 26, s4);
    StepsAdd(p, Initial(7, true), 2, 2);
    assert Steps(p, s2, 2) == Steps(p, s3, 1);
  }

  /** A site whose expression is a literal: three steps. */
  lemma Site3(p: Program, s: State, l: Label, d: DKont, v: Value, t: State)
    requires s.k == [Sp(l)] && !s.failed && l < |p.code| && !IsExprDyn(d)
    requires StepNode(p, s.(k := []), p.code[l]) == s.(k := [Dyn(d), Ex(LitK(v))])
    requires t == StepSiteDyn(p, s.(k := [], ac := v), d)
    ensures Steps(p, s, 3) == t
  {
    hide StepNode, StepSiteDyn;
    StepSp(p, s, l);
    var s1 := s.(k := [Dyn(d), Ex(LitK(v))]);
    assert s1.k == [Dyn(d)] + [Ex(LitK(v))];
    Popped(p, s1, [Dyn(d)], Ex(LitK(v)));
    var s2 := s.(k := [Dyn(d)], ac := v);
    assert s2.k == [] + [Dyn(d)];
    Popped(p, s2, [], Dyn(d));
    hide Step;
    assert Steps(p, s, 3) == Steps(p, s1, 2) == Steps(p, s2, 1);
  }

  const Bound := [Binding("", BoolV(false))]
  const LogB: Log := LogA + [FieldAt("", Car, Null)]
  const Save2 := SaveF([], 0, true, 0, 0, 1, Some(11))
  const LogC: Log := Log1 + [OpenVariant("b", 0, 1)]

  lemma RunElement(p: Program)
    requires p.input == [0] && ArmANodes(p)
    ensures Steps(p, At(25, Null, 0, [], [Save, Ret], Log2), 6) == At(21, CapV(Car), 1, Bound, [Loop1, Save, Ret], LogB)
  {
    hide Step;
    var s0, s1 := At(25, Null, 0, [], [Save, Ret], Log2), At(24, IntV(1), 0, [], [Loop1, Save, Ret], LogA);
    Site3(p, s0, 25, BeginArrayLimit("", 19, None, 24), IntV(1), s1);
    var s2, s3 := At(23, CapV(Car), 1, [], [Loop1, Save, Ret], LogA), At(22, CapV(Car), 1, [], [Loop1, Save, Ret], LogB);
    var s4 := At(21, CapV(Car), 1, Bound, [Loop1, Save, Ret], LogB);
    At1(p, s1, 24, s2);
    At1(p, s2, 23, s3);
    At1(p, s3, 22, s4);
    StepsAdd(p, s0, 3, 3);
    assert Steps(p, s1, 3) == Steps(p, s2, 2) == Steps(p, s3, 1);
  }

  /** The handler finds the savepoint below the loop frame, and leaves the loop frame on top. */
  lemma HandlerKeepsLoop(p: Program)
    requires |p.code| == 28 && p.code[17] == OnFail(Some(16), Some(11), false)
    ensures Step(p, At(17, BoolV(false), 1, Bound, [Loop1, Save, Ret], LogB)) == At(16, BoolV(false), 0, [], [Loop1, Save2, Ret], Log1)
  {
    var s := At(17, BoolV(false), 1, Bound, [Loop1, Save, Ret], LogB);
    assert LogB[..1] == Log1;
    assert s.frames[1 := Save2] == [Loop1, Save2, Ret];
    assert s.frames[1..] == [Save, Ret] && FindSave([Save, Ret]) == 0;
    At1(p, s, 17, At(16, BoolV(false), 0, [], [Loop1, Save2, Ret], Log1));
  }

  lemma RunJumpBack(p: Program)
    requires |p.code| == 28 && p.code[21] == EvalConstraint(LitK(BoolV(false)), 17, 20)
    requires p.code[17] == OnFail(Some(16), Some(11), false) && p.code[16] == BeginVariant("b", 1, 15)
    ensures Steps(p, At(21, CapV(Car), 1, Bound, [Loop1, Save, Ret], LogB), 5) == At(15, BoolV(false), 0, [], [Loop1, Save2, Ret], LogC)
  {
    hide Step, StepOnFail, Restore, FindSave;
    var s0, s1 := At(21, CapV(Car), 1, Bound, [Loop1, Save, Ret], LogB), At(17, BoolV(false), 1, Bound, [Loop1, Save, Ret], LogB);
    Site3(p, s0, 21, ConstraintCheck(17, 20), BoolV(false), s1);
    var s2 := At(16, BoolV(false), 0, [], [Loop1, Save2, Ret], Log1);
    HandlerKeepsLoop(p);
    At1(p, s2, 16, At(15, BoolV(false), 0, [], [Loop1, Save2, Ret], LogC));
    StepsAdd(p, s0, 3, 2);
    assert Steps(p, s1, 2) == Steps(p, s2, 1);
  }

  const Car0 := Carrier(0, 0, TComputed, IntV(0), Plain)
  const Bound0 := [Binding("", IntV(0))]
  const LogD: Log := LogC + [FieldAt("", Car0, IntV(0))]

  lemma RunArmB(p: Program)
    requires ArmBNodes(p)
    ensures Steps(p, At(15, BoolV(false), 0, [], [Loop1, Save2, Ret], LogC), 5)
            == At(12, CapV(Car0), 0, Bound0, [Loop1, Save2, Ret], LogD)
  {
    hide Step, Steps;
    var s0, s1 := At(15, BoolV(false), 0, [], [Loop1, Save2, Ret], LogC), At(14, CapV(Car0), 0, [], [Loop1, Save2, Ret], LogC);
    Site3(p, s0, 15, BindStore(14), IntV(0), s1);
    ArmBStores(p);
    StepsAdd(p, s0, 3, 2);
  }

  lemma ArmBStores(p: Program)
    requires ArmBNodes(p)
    ensures Steps(p, At(14, CapV(Car0), 0, [], [Loop1, Save2, Ret], LogC), 2) == At(12, CapV(Car0), 0, Bound0, [Loop1, Save2, Ret], LogD)
  {
    hide Step;
    var s1, s2 := At(14, CapV(Car0), 0, [], [Loop1, Save2, Ret], LogC), At(13, CapV(Car0), 0, [], [Loop1, Save2, Ret], LogD);
    At1(p, s1, 14, s2);
    At1(p, s2, 13, At(12, CapV(Car0), 0, Bound0, [Loop1, Save2, Ret], LogD));
    assert Steps(p, s1, 2) == Steps(p, s2, 1);
  }

  lemma RunOut(p: Program)
    requires |p.code| == 28 && p.code[12] == EndStruct(10) && p.code[10] == CommitChoice(9)
    requires p.code[9] == ReturnRule(8) && p.code[8] == Halt
    ensures Steps(p, At(12, CapV(Car0), 0, Bound0, [Loop1, Save2, Ret], LogD), 4)
            == At(8, CapV(Car0), 0, Bound0, [Loop1, Save2, Ret], LogD + [CloseStruct(0)]).(k := [])
  {
    hide Step;
    var l := LogD + [CloseStruct(0)];
    var s1 := At(12, CapV(Car0), 0, Bound0, [Loop1, Save2, Ret], LogD);
    var s2, s3 := At(10, CapV(Car0), 0, Bound0, [Loop1, Save2, Ret], l), At(9, CapV(Car0), 0, Bound0, [Loop1, Save2, Ret], l);
    var s4 := At(8, CapV(Car0), 0, Bound0, [Loop1, Save2, Ret], l);
    At1(p, s1, 12, s2);
    At1(p, s2, 10, s3);
    At1(p, s3, 9, s4);
    At1(p, s4, 8, s4.(k := []));
    assert Steps(p, s1, 4) == Steps(p, s2, 3) == Steps(p, s3, 2) == Steps(p, s4, 1);
  }
}
