/** The loops of the lowering: chains are built last to first, and calls are patched once
    every rule has an entry. */
module Lowering {
  import opened Syntax
  import opened Wire
  import opened Machine
  import opened Compile
  import opened Tiling
  import opened World
  import opened Theorems

  lemma EntriesFrom(code: seq<Node>, p: PrimInfo, es: seq<Entry>, i: nat, r: Rho, next: Label)
    requires i < |es|
    ensures var rest := CompileEntries(code, p, es[i + 1..], OffsetBefore(es, i + 1), r, next);
            CompileEntries(code, p, es[i..], OffsetBefore(es, i), r, next)
            == CompileEntry(rest.code, p, es[i], OffsetBefore(es, i), r, rest.entry)
  {
    hide CompileEntry, OffsetBefore;
    OffsetMore(es, i);
    assert es[i..][1..] == es[i + 1..];
  }

  lemma OffsetMore(es: seq<Entry>, i: nat)
    requires i < |es|
    ensures OffsetBefore(es, i + 1) == OffsetBefore(es, i) + es[i].width && OffsetBefore(es, 0) == 0
  {
    assert es[..i + 1] == es[..i] + [es[i]];
    WidthSumSnoc(es[..i], es[i]);
  }

  /** offset_before: the widths declared before each member. */
  method Offsets(es: seq<Entry>) returns (before: seq<nat>)
    ensures |before| == |es| && forall k :: 0 <= k < |es| ==> before[k] == OffsetBefore(es, k)
  {
    var cum := 0;
    before := [];
    for i := 0 to |es|
      invariant |before| == i && cum == OffsetBefore(es, i)
      invariant forall k :: 0 <= k < i ==> before[k] == OffsetBefore(es, k)
    {
      OffsetMore(es, i);
      before := before + [cum];
      cum := cum + es[i].width;
    }
  }

  /** compile_bitfield: offsets first, then one extract per member in reverse. */
  method LowerBitfield(code: seq<Node>, p: PrimInfo, es: seq<Entry>, r: Rho, next: Label) returns (b: Built)
    ensures b == CompileBitfield(code, p, es, r, next)
  {
    hide CompileEntry, OffsetBefore;
    var adv := Emit(code, AdvancePos(ByteCount(p), next));
    var before := Offsets(es);
    b := adv;
    var i := |es|;
    assert es[|es|..] == [] && es[0..] == es;
    while i > 0
      invariant 0 <= i <= |es|
      invariant b == CompileEntries(adv.code, p, es[i..], OffsetBefore(es, i), r, adv.entry)
    {
      i := i - 1;
      EntriesFrom(adv.code, p, es, i, r, adv.entry);
      b := CompileEntry(b.code, p, es[i], before[i], r, b.entry);
    }
    NoneBefore(es);
  }

  lemma NoneBefore(es: seq<Entry>)
    ensures OffsetBefore(es, 0) == 0
  {}

  /** compile_fields: each field chains to the one after it; an `@rest` field's window is
      closed after the last. */
  method LowerFields(code: seq<Node>, fields: seq<Field>, r: Rho, tail: Label) returns (b: Built)
    ensures b == CompileFields(code, fields, r, tail)
  {
    hide CompileField;
    b := Built(code, tail);
    if HasRest(fields) { b := Emit(code, PopInterval(true, tail)); }
    ghost var end := b;
    var i := |fields|;
    assert fields[|fields|..] == [];
    while i > 0
      invariant 0 <= i <= |fields|
      invariant b == CompileChain(end.code, fields[i..], r, end.entry)
    {
      i := i - 1;
      assert fields[i..][1..] == fields[i + 1..];
      b := CompileField(b.code, fields[i], r, b.entry);
    }
    assert fields[0..] == fields;
  }

  /** compile_choice: arms right to left, so that each link knows the arm it dispatches to. */
  method LowerChoice(code: seq<Node>, arms: seq<Arm>, r: Rho, next: Label) returns (b: Built)
    ensures b == CompileChoice(code, Choice(arms), r, next)
  {
    hide CompileArm;
    if arms == [] { return Built(code, next); }
    if |arms| == 1 { return CompileArm(code, arms[0], 0, r, next); }
    var commit := Emit(code, CommitChoice(next));
    var exhausted := Emit(commit.code, OnFail(None, None, true));
    var last := |arms| - 1;
    b := CompileArm(exhausted.code, arms[last], last, r, commit.entry);
    var link := exhausted.entry;
    var i := last;
    while i > 0
      invariant 0 <= i <= last
      invariant BuiltArms(b.code, b.entry, link) == CompileArms(exhausted.code, arms[i..], i, r, commit.entry, exhausted.entry)
    {
      i := i - 1;
      assert arms[i..][1..] == arms[i + 1..];
      var l := Emit(b.code, OnFail(Some(b.entry), Some(link), false));
      b := CompileArm(l.code, arms[i], i, InAlt(l.entry, r), commit.entry);
      link := l.entry;
    }
    assert arms[0..] == arms;
    b := Emit(b.code, BeginChoice(link, b.entry));
  }

  /** Where each rule name's body starts; a later rule of the same name overwrites. */
  ghost predicate EntriesOf(g: Grammar, n: nat, entries: seq<Label>, byName: map<Name, Label>)
    requires n <= |g| && |entries| == n
  {
    forall nm :: (nm in byName <==> RuleIndex(g[..n], nm).Some?)
                 && (nm in byName ==> RuleIndex(g[..n], nm).value < n && byName[nm] == entries[RuleIndex(g[..n], nm).value])
  }

  lemma EntriesMore(g: Grammar, n: nat, entries: seq<Label>, byName: map<Name, Label>, l: Label)
    requires n < |g| && |entries| == n && EntriesOf(g, n, entries, byName)
    ensures EntriesOf(g, n + 1, entries + [l], byName[g[n].name := l])
  {
    assert g[..n + 1][..n] == g[..n];
  }

  /** A call goes to the body of the rule its name resolves to. */
  predicate CallBound(g: Grammar, n: Node, entries: seq<Label>) {
    n.InvokeRule? && RuleIndex(g, n.rule).Some? ==>
      var i := RuleIndex(g, n.rule).value;
      i < |g| == |entries| && g[i].name == n.rule && n.entry == entries[i]
  }

  lemma PatchBinds(g: Grammar, n: Node, entries: seq<Label>)
    requires |entries| == |g|
    ensures CallBound(g, PatchNode(n, g, entries), entries)
  {
    if n.InvokeRule? { RuleIndexBound(g, n.rule); }
  }

  /** compile_grammar: every rule in turn, then every call's slot is filled in. */
  method LowerGrammar(g: Grammar) returns (code: seq<Node>, entries: seq<Label>)
    ensures code == CompileGrammar(g) && entries == CompileRules(g, |g|).entries && |entries| == |g|
    ensures forall l :: 0 <= l < |code| ==> CallBound(g, code[l], entries)
    ensures forall i :: 0 <= i < |g| ==> RuleLoaded(World(Program(code, []), g, entries, {}), i)
  {
    hide CompileRule, RuleLoaded, CallBound, Patch;
    code, entries := [], [];
    var byName: map<Name, Label> := map[];
    for i := 0 to |g|
      invariant BuiltRules(code, entries) == CompileRules(g, i) && EntriesOf(g, i, entries, byName)
    {
      EntriesMore(g, i, entries, byName, CompileRule(code, g[i].body).entry);
      var rule := CompileRule(code, g[i].body);
      code, entries := rule.code, entries + [rule.entry];
      byName := byName[g[i].name := rule.entry];
    }
    ghost var built := code;
    assert g[..|g|] == g;
    for i := 0 to |code|
      invariant |code| == |built|
      invariant forall k :: 0 <= k < i ==> code[k] == PatchNode(built[k], g, entries)
      invariant forall k :: i <= k < |code| ==> code[k] == built[k]
    {
      if code[i].InvokeRule? && code[i].rule in byName {
        code := code[i := code[i].(entry := byName[code[i].rule])];
      }
    }
    assert code == Patch(built, g, entries);
    forall l | 0 <= l < |code| ensures CallBound(g, code[l], entries) { PatchBinds(g, built[l], entries); }
    RulesLoad(g, [], {});
  }
}
