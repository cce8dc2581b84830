/** Two families of arrays the termination check accepts and the machine need not finish, and
    the inputs on which it does not. */
module Endless {
  import opened Syntax
  import opened Eval
  import opened Wire
  import opened Machine
  import opened Compile
  import opened Denote
  import opened World
  import opened Theorems
  import opened Progress
  import opened Loops

  /** main = array(eof) of elem */
  function Each(elem: Type): Grammar { [Rule("main", Eof(elem))] }

  function Eof(elem: Type): Type { Array(elem, UntilEof, IntLit(0), None, None, false, None) }

  /** union {} */
  const Nothing := Choice([])

  /** struct { x: bool @[a, b] } */
  function Rewind(a: nat, b: nat): Type {
    Struct([Field("x", Prim(BoolP, None), Some(StartEnd(IntLit(a), IntLit(b))), false)], None)
  }

  // ── Loops that get nowhere ────────────────────────────────────────────

  /** Tried before the end of the input, the element succeeds before the end of the input. */
  ghost predicate Spinning(g: Grammar, input: Bytes, elem: Type) {
    forall fuel: nat, i: int, c: Core :: c.wins == [] && c.pos < |input| ==>
      StopsShort(input, ParseType(g, input, fuel, elem, "", c, Some(i)))
  }

  predicate StopsShort(input: Bytes, r: Res) { r.Ok? && r.c.wins == [] && r.c.pos < |input| }

  lemma {:induction false} LoopSpins(g: Grammar, input: Bytes, fuel: nat, elem: Type, withSep: bool, i: nat, c: Core)
    requires Spinning(g, input, elem) && c.wins == [] && c.pos < |input|
    ensures ParseLoop(g, input, fuel, Eof(elem), -1, withSep, i, c).LoopOut?
    decreases fuel
  {
    hide ParseType;
    var r := ParseElem(g, input, fuel, Eof(elem), withSep, i, c);
    assert r == ParseType(g, input, fuel, elem, "", c, Some(i));
    assert StopsShort(input, r);
    if fuel > 0 { LoopSpins(g, input, fuel - 1, elem, true, i + 1, r.c); }
  }

  /** The meaning of such an array, by its first element. */
  lemma EachMeans(input: Bytes, elem: Type, le: bool, fuel: nat)
    ensures var c := Logged(StartCore(le), OpenArray("", 0));
            var m := Meaning(Each(elem), input, 0, le, fuel);
            && (input == [] ==> m.Ok?)
            && (input != [] ==>
                  var l := ParseLoop(Each(elem), input, fuel, Eof(elem), -1, false, 0, c);
                  (m.Out? <==> l.LoopOut?))
  {
    hide ParseLoop;
    var c := Logged(StartCore(le), OpenArray("", 0));
    var t := Eof(elem);
    assert StopTest(input, t, -1, 0, c) == Some(input == []);
    var items := ParseItems(Each(elem), input, fuel, t, "", StartCore(le), None);
    assert items == if input == [] then Done(c, 0) else ParseLoop(Each(elem), input, fuel, t, -1, false, 0, c);
    hide ParseItems;
    assert ParseType(Each(elem), input, fuel, t, "", StartCore(le), None)
           == match items case Done(c1, _) => Ok(Logged(c1, CloseArray(c1.pos)).(env := []))
                          case LoopFailed => Failed
                          case LoopOut => Out;
  }

  lemma SpinsForever(input: Bytes, elem: Type, le: bool)
    requires Fragment(Each(elem), elem, Free(false), {}) && input != [] && Spinning(Each(elem), input, elem)
    ensures var w := Load(Each(elem), input, {}); forall n: nat :: Running(Steps(w.p, StartState(w, 0, le), n))
  {
    hide Meaning, CompileGrammar, CompileRules, Step, Spinning, ParseLoop;
    forall fuel: nat ensures Meaning(Each(elem), input, 0, le, fuel).Out? {
      EachMeans(input, elem, le, fuel);
      LoopSpins(Each(elem), input, fuel, elem, false, 0, Logged(StartCore(le), OpenArray("", 0)));
    }
    NeverEndsIff(Each(elem), {}, input, 0, le);
  }

  lemma EndsOnce(input: Bytes, elem: Type, le: bool)
    requires Fragment(Each(elem), elem, Free(false), {}) && !Meaning(Each(elem), input, 0, le, 0).Out?
    ensures var w := Load(Each(elem), input, {}); !(forall n: nat :: Running(Steps(w.p, StartState(w, 0, le), n)))
  {
    hide Meaning, CompileGrammar, CompileRules, Step;
    NeverEndsIff(Each(elem), {}, input, 0, le);
  }

  // ── The two families ──────────────────────────────────────────────────

  /** A union without variants: the check takes it for one that reads, and the machine is
      still running after every n steps on any input with a byte in it. */
  lemma EmptyUnionSpins(input: Bytes, le: bool)
    ensures UnboundedOk(Each(Nothing), Eof(Nothing), false) && !UnboundedOk(Each(Nothing), Eof(Nothing), true)
    ensures var w := Load(Each(Nothing), input, {});
            (forall n: nat :: Running(Steps(w.p, StartState(w, 0, le), n))) <==> input != []
  {
    hide Meaning, CompileGrammar, CompileRules, Step;
    if input != [] {
      assert Spinning(Each(Nothing), input, Nothing);
      SpinsForever(input, Nothing, le);
    } else {
      EachMeans(input, Nothing, le, 0);
      EndsOnce(input, Nothing, le);
    }
  }

  lemma RewindField(input: Bytes, fuel: nat, a: nat, b: nat, c: Core, loop: Option<int>)
    requires a < b && c.wins == []
    ensures var r := ParseField(Each(Rewind(a, b)), input, fuel, Rewind(a, b).fields[0], c, loop);
            if b <= |input| then StopsAt(r, a + 1) else r.Failed?
  {
    var f := Rewind(a, b).fields[0];
    var o := OpenInterval(input, c, f.interval.value, loop);
    assert o == if b <= |input| then Ok(c.(pos := a, wins := [Win(a, b)])) else Failed;
    if o.Ok? {
      var r := ParseType(Each(Rewind(a, b)), input, fuel, f.body, "x", o.c, loop);
      assert r.Ok? && r.c.pos == a + 1 && r.c.wins == [Win(a, b)];
      assert CloseWindow(input, r.c, false) == Ok(r.c.(wins := []));
    }
  }

  predicate StopsAt(r: Res, pos: nat) { r.Ok? && r.c.wins == [] && r.c.pos == pos }

  lemma RewindMeans(input: Bytes, fuel: nat, a: nat, b: nat, nm: Name, c: Core, loop: Option<int>)
    requires a < b && c.wins == []
    ensures var r := ParseType(Each(Rewind(a, b)), input, fuel, Rewind(a, b), nm, c, loop);
            if b <= |input| then StopsAt(r, a + 1) else r.Failed?
  {
    hide ParseField, ParseChain;
    var g, t := Each(Rewind(a, b)), Rewind(a, b);
    var c0 := Logged(c, OpenStruct(nm, c.pos));
    RewindField(input, fuel, a, b, c0, loop);
    SingleChain(g, input, fuel, t.fields[0], c0, loop);
    assert !HasRest(t.fields);
    assert ParseFields(g, input, fuel, t.fields, c0, loop) == ParseField(g, input, fuel, t.fields[0], c0, loop);
    hide ParseFields;
    assert ParseRecord(g, input, fuel, t, c0, loop) == ParseField(g, input, fuel, t.fields[0], c0, loop);
  }

  /** A seek to a fixed place: the check does not look at intervals, and the machine never
      ends exactly when the window fits the input and bytes are left after it reads. */
  lemma RewindSpins(a: nat, b: nat, input: Bytes, le: bool)
    requires a < b
    ensures UnboundedOk(Each(Rewind(a, b)), Eof(Rewind(a, b)), false)
    ensures var w := Load(Each(Rewind(a, b)), input, {});
            (forall n: nat :: Running(Steps(w.p, StartState(w, 0, le), n))) <==> b <= |input| && a + 1 < |input|
  {
    hide Meaning, CompileGrammar, CompileRules, Step, ParseType;
    var t := Rewind(a, b);
    var g := Each(t);
    assert Fragment(g, t, Free(false), {}) by { assert FieldIn(g, t.fields[0], Free(false), {}); }
    assert !FieldMay(g, t.fields[0], {}, false);
    assert !MayReadNothing(g, t, {}, false);
    if b <= |input| && a + 1 < |input| {
      forall fuel: nat, i: int, c: Core | c.wins == [] && c.pos < |input|
        ensures StopsShort(input, ParseType(g, input, fuel, t, "", c, Some(i)))
      {
        RewindMeans(input, fuel, a, b, "", c, Some(i));
      }
      SpinsForever(input, t, le);
    } else {
      RewindEnds(a, b, input, le);
      EndsOnce(input, t, le);
    }
  }

  lemma RewindEnds(a: nat, b: nat, input: Bytes, le: bool)
    requires a < b && !(b <= |input| && a + 1 < |input|)
    ensures !Meaning(Each(Rewind(a, b)), input, 0, le, 0).Out?
  {
    hide Meaning, ParseType;
    var t := Rewind(a, b);
    EachMeans(input, t, le, 0);
    if input != [] {
      var c := Logged(StartCore(le), OpenArray("", 0));
      RewindMeans(input, 0, a, b, "", c, Some(0));
      var r := ParseElem(Each(t), input, 0, Eof(t), false, 0, c);
      assert r == ParseType(Each(t), input, 0, t, "", c, Some(0));
    }
  }
}
