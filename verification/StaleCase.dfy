/** A grammar on which the two ways out of a failed `where` differ, and the code it is
    lowered to. */
module StaleCase {
  import opened Syntax
  import opened Wire
  import opened Machine

  const Elem := Prim(BoolP, Some(BoolLit(false)))
  const Many := Array(Elem, FixedCount, IntLit(1), None, None, false, None)
  const AOrB := Choice([Arm("a", Many), Arm("b", Compute(IntLit(0)))])
  const Main := Struct([Field("x", RuleRef("r"), None, false), Field("y", Prim(BoolP, None), None, false)], None)
  const G: Grammar := [Rule("main", Main), Rule("r", AOrB)]

  // Its code, part by part, before the one call in it learns its callee's entry.

  const MainCode: seq<Node> := [
    Halt, ReturnRule(0), StoreEnv("y", 1), Capture("y", 2), MatchPrim(BoolP, 3),
    EndStruct(4), InvokeRule("r", 0, None, 5), BeginStruct("x", 6)]

  const ChoiceCode: seq<Node> := [Halt, ReturnRule(8), CommitChoice(9), OnFail(None, None, true)]

  const ArmBCode: seq<Node> := [
    EndStruct(10), StoreEnv("", 12), Capture("", 13), BindCompute(LitK(IntV(0)), 14), BeginVariant("b", 1, 15),
    OnFail(Some(16), Some(11), false)]

  const ArmACode: seq<Node> := [
    EndStruct(10), EndArray(false, 18), ArrayNext(FixedCount, LitK(IntV(1)), 19, 24, false),
    EvalConstraint(LitK(BoolV(false)), 17, 20), StoreEnv("", 21), Capture("", 22), MatchPrim(BoolP, 23),
    BeginArray("", FixedCount, LitK(IntV(1)), 19, None, 24), BeginVariant("a", 0, 25)]

  const CallNode: Node := InvokeRule("r", 27, None, 5)
  const AOrBCode: seq<Node> := ChoiceCode + ArmBCode + ArmACode + [BeginChoice(17, 26)]
  const Code: seq<Node> := MainCode[6 := CallNode] + AOrBCode
}
