/** The expanded case table of a switch selects the same arm, with the same ordinal, as the
    cases written in the grammar. */
module Switches {
  import opened Syntax
  import opened Eval
  import opened Machine
  import opened Compile
  import opened Denote

  lemma {:induction false} FindConcat(a: seq<SwitchCase>, b: seq<SwitchCase>, v: Value)
    ensures FindCase(a + b, v) == if FindCase(a, v) < |a| then FindCase(a, v) else |a| + FindCase(b, v)
  {
    if a == [] {
      assert a + b == b;
    } else {
      assert (a + b)[1..] == a[1..] + b;
      FindConcat(a[1..], b, v);
    }
  }

  lemma {:induction false} MaxConcat(a: seq<SwitchCase>, b: seq<SwitchCase>)
    ensures MaxOrdinal(a + b) == Max(MaxOrdinal(a), MaxOrdinal(b)) && MaxOrdinal(b) >= -1
  {
    MaxLow(b);
    if a == [] {
      assert a + b == b;
    } else {
      assert (a + b)[1..] == a[1..] + b;
      MaxConcat(a[1..], b);
    }
  }

  lemma {:induction false} MaxLow(a: seq<SwitchCase>)
    ensures MaxOrdinal(a) >= -1
  {
    if a != [] { MaxLow(a[1..]); }
  }

  lemma {:induction false} RangeFind(lo: int, hi: int, target: Label, ordinal: nat, v: Value)
    ensures var cs := RangeCases(lo, hi, target, ordinal);
            FindCase(cs, v) < |cs| <==> v.IntV? && lo <= v.i <= hi
    ensures forall j :: 0 <= j < |RangeCases(lo, hi, target, ordinal)| ==>
              RangeCases(lo, hi, target, ordinal)[j].target == target && RangeCases(lo, hi, target, ordinal)[j].ordinal == ordinal
    ensures MaxOrdinal(RangeCases(lo, hi, target, ordinal)) == if lo <= hi then ordinal else -1
    decreases hi - lo
  {
    if lo <= hi { RangeFind(lo + 1, hi, target, ordinal, v); }
  }

  /** One case's entries: matched exactly when the case matches, all with its target. */
  lemma EntriesFind(cv: CaseValue, target: Label, ordinal: nat, v: Value)
    ensures var cs := CaseEntries(cv, target, ordinal);
            (FindCase(cs, v) < |cs| <==> CaseMatches(cv, v))
            && (forall j :: 0 <= j < |cs| ==> cs[j].target == target && cs[j].ordinal == ordinal)
            && MaxOrdinal(cs) == if CaseInhabited(cv) then ordinal else -1
  {
    if cv.RangeCase? { RangeFind(cv.lo, cv.hi, target, ordinal, v); }
  }

  /** The selected entry is the selected case's, and leads to that case's code. */
  lemma {:induction false} CasesFind(code: seq<Node>, cases: seq<Case>, i: nat, r: Rho, next: Label, v: Value)
    returns (before: seq<Node>)
    ensures var b := CompileCases(code, cases, i, r, next);
            var j := FindCase(b.cases, v);
            var k := SelectCase(cases, v);
            if k < |cases| then
              j < |b.cases| && b.cases[j].ordinal == i + k && code <= before
              && CompileCase(before, cases[k], r, next).code <= b.code
              && b.cases[j].target == CompileCase(before, cases[k], r, next).entry
            else j == |b.cases|
    decreases |cases|
  {
    hide CompileType, CompileCase, CaseEntries, CaseMatches, FindCase;
    before := code;
    if cases != [] {
      var target := CompileCase(code, cases[0], r, next);
      var rest := CompileCases(target.code, cases[1..], i + 1, r, next);
      var es := CaseEntries(cases[0].value, target.entry, i);
      EntriesFind(cases[0].value, target.entry, i, v);
      FindConcat(es, rest.cases, v);
      if !CaseMatches(cases[0].value, v) {
        before := CasesFind(target.code, cases[1..], i + 1, r, next, v);
      }
    }
  }

  lemma {:induction false} CasesMax(code: seq<Node>, cases: seq<Case>, i: nat, r: Rho, next: Label)
    ensures MaxOrdinal(CompileCases(code, cases, i, r, next).cases) + 1
            == if DefaultOrdinal(cases) == 0 then 0 else i + DefaultOrdinal(cases)
    decreases |cases|
  {
    hide CompileType, CompileCase;
    if cases != [] {
      var target := CompileCase(code, cases[0], r, next);
      var rest := CompileCases(target.code, cases[1..], i + 1, r, next);
      EntriesFind(cases[0].value, target.entry, i, Null);
      MaxConcat(CaseEntries(cases[0].value, target.entry, i), rest.cases);
      CasesMax(target.code, cases[1..], i + 1, r, next);
    }
  }
}
