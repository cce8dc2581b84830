/** What path the fold gives each op it keeps, from the op list alone: the segments of the
    scopes open around it, outermost first, and then its own leaf. */
module PathPlaces {
  import opened Syntax
  import opened PathFold

  // ── Open scopes ───────────────────────────────────────────────────────

  /** How many scopes of any kind, or how many arrays, are open before op n. */
  function Height(ops: seq<Op>, n: nat, arrays: bool): int
    requires n <= |ops|
  {
    if arrays then ArrayDepth(ops, n) else Depth(ops, n)
  }

  function Rise(k: Kind, arrays: bool): int { if arrays then ArrayOpens(k) else Opens(k) }

  ghost predicate Over(ops: seq<Op>, j: nat, i: nat, arrays: bool)
    requires i <= |ops|
  {
    forall m :: j < m <= i ==> Height(ops, m, arrays) > Height(ops, j, arrays)
  }

  /** The op at j begins a scope that nothing before i has ended. */
  ghost predicate StillOpen(ops: seq<Op>, j: nat, i: nat, arrays: bool)
    requires i <= |ops|
  {
    j < i && Rise(ops[j].kind, arrays) == 1 && Over(ops, j, i, arrays)
  }

  lemma HeightStep(ops: seq<Op>, n: nat, arrays: bool)
    requires n < |ops|
    ensures Height(ops, n + 1, arrays) == Height(ops, n, arrays) + Rise(ops[n].kind, arrays)
  {}

  /** An op that ends nothing leaves open what was open, and adds the scope it begins. */
  lemma OpenKept(ops: seq<Op>, i: nat, arrays: bool)
    requires i < |ops| && Rise(ops[i].kind, arrays) >= 0
    ensures forall j :: 0 <= j < i ==> (StillOpen(ops, j, i + 1, arrays) <==> StillOpen(ops, j, i, arrays))
    ensures StillOpen(ops, i, i + 1, arrays) <==> Rise(ops[i].kind, arrays) == 1
  {
    hide Height, Rise;
    HeightStep(ops, i, arrays);
    forall j | 0 <= j < i ensures StillOpen(ops, j, i + 1, arrays) <==> StillOpen(ops, j, i, arrays) {
      if StillOpen(ops, j, i, arrays) { assert Height(ops, i, arrays) > Height(ops, j, arrays); }
    }
  }

  lemma {:induction false} FindBegin(ops: seq<Op>, n: nat, i: nat, arrays: bool) returns (j: nat)
    requires n < i <= |ops| && Height(ops, i, arrays) > 0
    requires forall m :: n < m <= i ==> Height(ops, m, arrays) >= Height(ops, i, arrays)
    ensures j <= n && Height(ops, j, arrays) == Height(ops, i, arrays) - 1 && StillOpen(ops, j, i, arrays)
  {
    hide Height, Rise;
    HeightStep(ops, n, arrays);
    RiseIs(ops[n].kind, arrays);
    if Height(ops, n, arrays) < Height(ops, i, arrays) {
      j := n;
    } else {
      HeightNone(ops, arrays);
      j := FindBegin(ops, n - 1, i, arrays);
    }
  }

  lemma HeightNone(ops: seq<Op>, arrays: bool)
    ensures Height(ops, 0, arrays) == 0
  {}

  lemma RiseIs(k: Kind, arrays: bool)
    ensures -1 <= Rise(k, arrays) <= 1
  {}

  lemma NotOver(ops: seq<Op>, k: nat, i: nat, arrays: bool)
    requires k < i <= |ops| && Height(ops, i, arrays) <= Height(ops, k, arrays)
    ensures !Over(ops, k, i, arrays)
  {}

  /** An end closes the innermost open scope: what is open after it is what was open before
      that scope began. */
  lemma OpenClosed(ops: seq<Op>, i: nat, arrays: bool) returns (j: nat)
    requires i < |ops| && Rise(ops[i].kind, arrays) == -1 && Height(ops, i, arrays) > 0
    ensures j < i && StillOpen(ops, j, i, arrays) && Height(ops, i + 1, arrays) == Height(ops, j, arrays)
    ensures SameOpen(ops, j, i + 1, arrays)
  {
    hide Rise;
    if i == 0 { HeightNone(ops, arrays); }
    hide Height;
    j := FindBegin(ops, i - 1, i, arrays);
    HeightStep(ops, i, arrays);
    forall k | 0 <= k <= i ensures if k < j then StillOpen(ops, k, i + 1, arrays) <==> StillOpen(ops, k, j, arrays) else !StillOpen(ops, k, i + 1, arrays) {
      if k >= j {
        assert Height(ops, k, arrays) >= Height(ops, j, arrays);
        NotOver(ops, k, i + 1, arrays);
      } else {
        if StillOpen(ops, k, j, arrays) { assert Height(ops, j, arrays) > Height(ops, k, arrays); }
      }
    }
  }

  /** The scopes open before i are those open before j. */
  ghost predicate SameOpen(ops: seq<Op>, j: nat, i: nat, arrays: bool)
    requires j <= i <= |ops|
  {
    && (forall k :: 0 <= k < j ==> (StillOpen(ops, k, i, arrays) <==> StillOpen(ops, k, j, arrays)))
    && (forall k :: j <= k < i ==> !StillOpen(ops, k, i, arrays))
  }

  // ── Paths ─────────────────────────────────────────────────────────────

  function Dotted(s: string): string { if s == "" then "" else s + "." }

  /** The op named is the one an optional reads its value with. */
  ghost predicate ReadsValue(ops: seq<Op>, id: int) {
    exists j :: 0 <= j < |ops| && ValueAt(ops[j], id)
  }

  predicate ValueAt(op: Op, id: int) {
    (op.kind.OptionalLeaf? && Present in op.succs && op.succs[Present] == id)
    || (op.kind.BeginOptional? && Inner in op.succs && op.succs[Inner] == id)
  }

  /** A leaf's own name; in an optional, that of the value inside. */
  ghost function Leaf(ops: seq<Op>, id: int, name: string): string {
    if ReadsValue(ops, id) then Dotted(name) + "value" else name
  }

  /** What a begin adds to the paths of the ops inside: a field's name, a union member under
      its switch, an optional's value, or an array's slot, indexed at its nesting level. */
  ghost function Segment(ops: seq<Op>, j: nat, index: nat -> string): string
    requires j < |ops|
  {
    var op := ops[j];
    if op.kind.BeginArray? then
      Leaf(ops, op.id, if op.field.Some? then op.field.value else "")
      + ".items[" + index(if ArrayDepth(ops, j) < 0 then 0 else ArrayDepth(ops, j)) + "]"
    else if op.member.Some? then Dotted(op.member.value.0) + "u." + op.member.value.1 + "."
    else if op.optValue then Dotted(op.name) + "value."
    else Dotted(op.name)
  }

  /** The segments of those of the first n ops that are still open before i, in order. */
  ghost function Segments(ops: seq<Op>, n: nat, i: nat, index: nat -> string): string
    requires n <= i <= |ops|
  {
    if n == 0 then ""
    else Segments(ops, n - 1, i, index) + (if StillOpen(ops, n - 1, i, false) then Segment(ops, n - 1, index) else "")
  }

  ghost function Path(ops: seq<Op>, i: nat, index: nat -> string): string
    requires i <= |ops|
  {
    Segments(ops, i, i, index)
  }

  /** Where references resolve: just inside the innermost struct still open, whatever arrays
      have begun since. */
  ghost function RefPath(ops: seq<Op>, n: nat, i: nat, index: nat -> string): string
    requires n <= i <= |ops|
  {
    if n == 0 then ""
    else if ops[n - 1].kind.BeginStruct? && StillOpen(ops, n - 1, i, false) then Path(ops, n, index)
    else RefPath(ops, n - 1, i, index)
  }

  /** The innermost array still open. */
  ghost function ArrayPath(ops: seq<Op>, n: nat, i: nat, index: nat -> string): string
    requires n <= i <= |ops|
  {
    if n == 0 then ""
    else if StillOpen(ops, n - 1, i, true) then
      Path(ops, n - 1, index) + Leaf(ops, ops[n - 1].id, if ops[n - 1].field.Some? then ops[n - 1].field.value else "")
    else ArrayPath(ops, n - 1, i, index)
  }

  // ── Paths along the list ──────────────────────────────────────────────

  lemma {:induction false} SegmentsAgree(ops: seq<Op>, n: nat, i: nat, j: nat, index: nat -> string)
    requires n <= i <= |ops| && n <= j <= |ops|
    requires forall k :: 0 <= k < n ==> (StillOpen(ops, k, i, false) <==> StillOpen(ops, k, j, false))
    ensures Segments(ops, n, i, index) == Segments(ops, n, j, index)
  {
    hide StillOpen, Segment;
    if n > 0 { SegmentsAgree(ops, n - 1, i, j, index); }
  }

  lemma {:induction false} SegmentsStop(ops: seq<Op>, n: nat, m: nat, i: nat, index: nat -> string)
    requires m <= n <= i <= |ops| && forall k :: m <= k < n ==> !StillOpen(ops, k, i, false)
    ensures Segments(ops, n, i, index) == Segments(ops, m, i, index)
  {
    hide StillOpen, Segment;
    if n > m { SegmentsStop(ops, n - 1, m, i, index); }
  }

  lemma PathSame(ops: seq<Op>, j: nat, i: nat, index: nat -> string)
    requires j <= i <= |ops| && SameOpen(ops, j, i, false)
    ensures Path(ops, i, index) == Path(ops, j, index) && RefPath(ops, i, i, index) == RefPath(ops, j, j, index)
  {
    hide StillOpen, Segments;
    SegmentsStop(ops, i, j, i, index);
    SegmentsAgree(ops, j, i, j, index);
    RefStop(ops, i, j, i, index);
    RefAgree(ops, j, i, j, index);
  }

  lemma {:induction false} RefAgree(ops: seq<Op>, n: nat, i: nat, j: nat, index: nat -> string)
    requires n <= i <= |ops| && n <= j <= |ops|
    requires forall k :: 0 <= k < n ==> (StillOpen(ops, k, i, false) <==> StillOpen(ops, k, j, false))
    ensures RefPath(ops, n, i, index) == RefPath(ops, n, j, index)
  {
    hide StillOpen, Path;
    if n > 0 { RefAgree(ops, n - 1, i, j, index); }
  }

  lemma {:induction false} RefStop(ops: seq<Op>, n: nat, m: nat, i: nat, index: nat -> string)
    requires m <= n <= i <= |ops| && forall k :: m <= k < n ==> !StillOpen(ops, k, i, false)
    ensures RefPath(ops, n, i, index) == RefPath(ops, m, i, index)
  {
    hide StillOpen, Path;
    if n > m { RefStop(ops, n - 1, m, i, index); }
  }

  lemma {:induction false} ArrayAgree(ops: seq<Op>, n: nat, i: nat, j: nat, index: nat -> string)
    requires n <= i <= |ops| && n <= j <= |ops|
    requires forall k :: 0 <= k < n ==> (StillOpen(ops, k, i, true) <==> StillOpen(ops, k, j, true))
    ensures ArrayPath(ops, n, i, index) == ArrayPath(ops, n, j, index)
  {
    hide StillOpen, Path, Leaf;
    if n > 0 { ArrayAgree(ops, n - 1, i, j, index); }
  }

  lemma {:induction false} ArrayStop(ops: seq<Op>, n: nat, m: nat, i: nat, index: nat -> string)
    requires m <= n <= i <= |ops| && forall k :: m <= k < n ==> !StillOpen(ops, k, i, true)
    ensures ArrayPath(ops, n, i, index) == ArrayPath(ops, m, i, index)
  {
    hide StillOpen, Path, Leaf;
    if n > m { ArrayStop(ops, n - 1, m, i, index); }
  }

  lemma ArraySame(ops: seq<Op>, j: nat, i: nat, index: nat -> string)
    requires j <= i <= |ops| && SameOpen(ops, j, i, true)
    ensures ArrayPath(ops, i, i, index) == ArrayPath(ops, j, j, index)
  {
    hide StillOpen, ArrayPath;
    ArrayStop(ops, i, j, i, index);
    ArrayAgree(ops, j, i, j, index);
  }

  /** Entering a scope adds its segment; any other op but an end changes nothing. */
  lemma PathStep(ops: seq<Op>, i: nat, index: nat -> string)
    requires i < |ops| && Opens(ops[i].kind) >= 0
    ensures Path(ops, i + 1, index) == Path(ops, i, index) + if Opens(ops[i].kind) == 1 then Segment(ops, i, index) else ""
    ensures RefPath(ops, i + 1, i + 1, index) == if ops[i].kind.BeginStruct? then Path(ops, i + 1, index) else RefPath(ops, i, i, index)
  {
    OpenKept(ops, i, false);
    hide StillOpen, Segment;
    SegmentsAgree(ops, i, i + 1, i, index);
    RefAgree(ops, i, i + 1, i, index);
  }

  lemma ArrayStep(ops: seq<Op>, i: nat, index: nat -> string)
    requires i < |ops| && ArrayOpens(ops[i].kind) >= 0
    ensures ArrayPath(ops, i + 1, i + 1, index)
            == if ops[i].kind.BeginArray? then Path(ops, i, index) + Leaf(ops, ops[i].id, if ops[i].field.Some? then ops[i].field.value else "")
               else ArrayPath(ops, i, i, index)
  {
    OpenKept(ops, i, true);
    hide StillOpen, Path, Leaf;
    ArrayAgree(ops, i, i + 1, i, index);
  }

  // ── The walk follows the paths ────────────────────────────────────────

  lemma {:induction false} OptionalIs(ops: seq<Op>, id: int)
    ensures id in OptionalReads(ops) <==> ReadsValue(ops, id)
  {
    if ops != [] {
      var n := |ops| - 1;
      OptionalIs(ops[..n], id);
      if ReadsValue(ops[..n], id) {
        var j :| 0 <= j < n && ValueAt(ops[..n][j], id);
        assert ValueAt(ops[j], id);
      }
      if ReadsValue(ops, id) {
        var j :| 0 <= j < |ops| && ValueAt(ops[j], id);
        if j < n { assert ValueAt(ops[..n][j], id); }
      }
    }
  }

  lemma LeafIs(ops: seq<Op>, op: Op, leaf: string)
    ensures LeafName(op, leaf, OptionalReads(ops)) == Leaf(ops, op.id, leaf)
  {
    hide OptionalReads, ReadsValue;
    OptionalIs(ops, op.id);
    assert "." + "value" == ".value";
    assert leaf + "." + "value" == leaf + ("." + "value");
  }

  lemma SegmentIs(ops: seq<Op>, j: nat, w: Walk, index: nat -> string)
    requires j < |ops| && Opens(ops[j].kind) == 1 && w.level == ArrayDepth(ops, j)
    requires Enter(w, ops[j], OptionalReads(ops), index).Some?
    ensures var u := Enter(w, ops[j], OptionalReads(ops), index).value;
            && u.prefix == w.prefix + Segment(ops, j, index)
            && u.inner == (if ops[j].kind.BeginStruct? then u.prefix else w.inner)
  {
    hide OptionalReads, LeafName, Leaf, ArrayDepth, StructSegment, Dotted;
    var op := ops[j];
    if op.kind.BeginArray? {
      LeafIs(ops, op, op.field.value);
      Joined(w.prefix, Leaf(ops, op.id, op.field.value), ".items[" + index(w.level) + "]");
    } else {
      StructSegmentIs(op);
    }
  }

  lemma Joined(a: string, b: string, c: string)
    ensures a + b + c == a + (b + c)
  {}

  lemma StructSegmentIs(op: Op)
    ensures StructSegment(op) ==
            if op.member.Some? then Dotted(op.member.value.0) + "u." + op.member.value.1 + "."
            else if op.optValue then Dotted(op.name) + "value." else Dotted(op.name)
  {
    if op.member.Some? {
      assert "" + "u." + op.member.value.1 + "." == "u." + op.member.value.1 + ".";
    } else {
      assert "." + "value." == ".value.";
      Joined(op.name, ".", "value.");
    }
  }

  /** The walk's prefixes are the paths. */
  lemma {:induction false} PathIs(ops: seq<Op>, i: nat, index: nat -> string)
    requires i <= |ops| && WalkTo(ops, i, OptionalReads(ops), index).Some?
    ensures var w := WalkTo(ops, i, OptionalReads(ops), index).value;
            w.prefix == Path(ops, i, index) && w.inner == RefPath(ops, i, i, index)
  {
    hide Enter, Path, RefPath, OptionalReads, StillOpen, Segment, SameOpen;
    if i == 0 {
      PathNone(ops, index);
    } else {
      var opts := OptionalReads(ops);
      var w := WalkTo(ops, i - 1, opts, index).value;
      Stacks(ops, i - 1, opts, index);
      EnterPaths(w, ops[i - 1], opts, index);
      if Opens(ops[i - 1].kind) == -1 {
        var j := OpenClosed(ops, i - 1, false);
        OpenMatches(ops, j, i - 1);
        PrefixReturns(ops, j, i - 1, opts, index);
        PathIs(ops, j, index);
        PathSame(ops, j, i, index);
      } else {
        PathIs(ops, i - 1, index);
        PathStep(ops, i - 1, index);
        if Opens(ops[i - 1].kind) == 1 { SegmentIs(ops, i - 1, w, index); }
      }
    }
  }

  lemma PathNone(ops: seq<Op>, index: nat -> string)
    ensures Path(ops, 0, index) == RefPath(ops, 0, 0, index) == ArrayPath(ops, 0, 0, index) == ""
  {}

  lemma OpenMatches(ops: seq<Op>, j: nat, i: nat)
    requires i < |ops| && StillOpen(ops, j, i, false) && Height(ops, i + 1, false) == Height(ops, j, false)
    ensures Matched(ops, j, i)
  {
    forall k | j < k <= i ensures Depth(ops, k) > Depth(ops, j) { assert Height(ops, k, false) > Height(ops, j, false); }
  }

  /** Its innermost array is the innermost open one. */
  lemma {:induction false} ArrayIs(ops: seq<Op>, i: nat, index: nat -> string)
    requires i <= |ops| && WalkTo(ops, i, OptionalReads(ops), index).Some?
    ensures var w := WalkTo(ops, i, OptionalReads(ops), index).value;
            w.arrays != [] ==> w.arrays[|w.arrays| - 1] == ArrayPath(ops, i, i, index)
  {
    hide Enter, Path, ArrayPath, OptionalReads, StillOpen, SameOpen, Leaf;
    if i > 0 {
      var opts := OptionalReads(ops);
      var w := WalkTo(ops, i - 1, opts, index).value;
      Stacks(ops, i - 1, opts, index);
      EnterCounts(w, ops[i - 1], opts, index);
      if ArrayOpens(ops[i - 1].kind) == -1 {
        var j := OpenClosed(ops, i - 1, true);
        ArrayOver(ops, j, i - 1);
        ArraysReturn(ops, j, i, opts, index);
        ArrayIs(ops, j, index);
        ArraySame(ops, j, i, index);
      } else {
        ArrayIs(ops, i - 1, index);
        PathIs(ops, i - 1, index);
        ArrayStep(ops, i - 1, index);
        ArrayTop(ops, w, i - 1, index);
      }
    }
  }

  lemma ArrayOver(ops: seq<Op>, j: nat, i: nat)
    requires i < |ops| && StillOpen(ops, j, i, true) && Height(ops, i + 1, true) == Height(ops, j, true)
    ensures ArrayDepth(ops, i + 1) == ArrayDepth(ops, j) && forall m :: j <= m <= i + 1 ==> ArrayDepth(ops, m) >= ArrayDepth(ops, j)
  {
    forall m | j <= m <= i + 1 ensures ArrayDepth(ops, m) >= ArrayDepth(ops, j) {
      if j < m <= i { assert Height(ops, m, true) > Height(ops, j, true); }
    }
  }

  lemma ArrayTop(ops: seq<Op>, w: Walk, j: nat, index: nat -> string)
    requires j < |ops| && ArrayOpens(ops[j].kind) >= 0 && Enter(w, ops[j], OptionalReads(ops), index).Some?
    ensures Enter(w, ops[j], OptionalReads(ops), index).value.arrays
            == if ops[j].kind.BeginArray? then w.arrays + [w.prefix + Leaf(ops, ops[j].id, if ops[j].field.Some? then ops[j].field.value else "")]
               else w.arrays
  {
    hide OptionalReads, LeafName, Leaf, StructSegment;
    if ops[j].kind.BeginArray? { LeafIs(ops, ops[j], ops[j].field.value); }
  }

  // ── Switch arms ───────────────────────────────────────────────────────

  predicate ToDefault(op: Op, id: int) { op.falls && DefaultTarget in op.succs && op.succs[DefaultTarget] == id }
  predicate ToCase(op: Op, k: nat, id: int) { CaseTarget(k) in op.succs && op.succs[CaseTarget(k)] == id }

  /** The last of the first n cases that selects the op named. */
  function CaseMember(op: Op, n: nat, id: int): Option<string>
    requires n <= |op.ordinals|
  {
    if n == 0 then None
    else if ToCase(op, n - 1, id) then Some("case_" + Decimal(op.ordinals[n - 1]))
    else CaseMember(op, n - 1, id)
  }

  /** The union member a switch stores the op named under: that of a default that reads,
      before that of its cases. */
  function Member(op: Op, id: int): Option<string> {
    if !op.kind.Switch? then None
    else if ToDefault(op, id) then Some("default_val")
    else CaseMember(op, |op.ordinals|, id)
  }

  /** The slot the last switch that selects the op named gives it. */
  function ArmSlot(ops: seq<Op>, id: int): Option<string> {
    if ops == [] then None
    else
      var op := ops[|ops| - 1];
      if Member(op, id).Some? then Some(Dotted(if op.tag.Some? then op.tag.value else "") + "u." + Member(op, id).value)
      else ArmSlot(ops[..|ops| - 1], id)
  }

  function Slotted(p: (string, string)): string { Dotted(p.0) + "u." + p.1 }

  lemma {:induction false} CaseArmsAre(op: Op, n: nat, id: int)
    requires n <= |op.ordinals|
    ensures id in CaseArms(op, n) <==> CaseMember(op, n, id).Some?
    ensures id in CaseArms(op, n) ==> CaseArms(op, n)[id] == (TagOf(op), CaseMember(op, n, id).value)
  {
    hide Decimal;
    if n > 0 { CaseArmsAre(op, n - 1, id); }
  }

  lemma {:induction false} ArmsAre(ops: seq<Op>, id: int)
    ensures id in SwitchArms(ops) <==> ArmSlot(ops, id).Some?
    ensures id in SwitchArms(ops) ==> ArmSlot(ops, id) == Some(Slotted(SwitchArms(ops)[id]))
  {
    hide CaseArms, CaseMember, Dotted;
    if ops != [] {
      var op := ops[|ops| - 1];
      ArmsAre(ops[..|ops| - 1], id);
      CaseArmsAre(op, |op.ordinals|, id);
    }
  }

  lemma SlotIs(ops: seq<Op>, op: Op, leaf: string)
    ensures SlotName(op, leaf, SwitchArms(ops)) == if ArmSlot(ops, op.id).Some? then ArmSlot(ops, op.id).value else leaf
  {
    hide SwitchArms, ArmSlot;
    ArmsAre(ops, op.id);
    if op.id in SwitchArms(ops) {
      var p := SwitchArms(ops)[op.id];
      assert "" + "u." + p.1 == "u." + p.1;
    }
  }

  function Numeral(s: string): int {
    if s == "" then 0 else 10 * Numeral(s[..|s| - 1]) + (s[|s| - 1] as int - '0' as int)
  }

  /** A case's ordinal is spelled in decimal, without leading zeros. */
  lemma {:induction false} DecimalIs(n: nat)
    ensures Decimal(n) != "" && Numeral(Decimal(n)) == n && (Decimal(n)[0] == '0' ==> n == 0)
  {
    var d := n % 10;
    assert DIGITS[d] as int - '0' as int == d by { DigitIs(d); }
    hide DIGITS;
    if n >= 10 {
      DecimalIs(n / 10);
      assert Decimal(n)[..|Decimal(n)| - 1] == Decimal(n / 10);
    } else {
      assert Decimal(n)[..0] == "";
      DigitIs(n);
    }
  }

  lemma DigitIs(d: nat)
    requires d < 10
    ensures DIGITS[d] as int - '0' as int == d
  {}

  // ── What each kept op is given ────────────────────────────────────────

  lemma {:induction false} KeptAt(ops: seq<Op>, n: nat, i: nat, opts: set<int>, arms: Arms, scope: bool, index: nat -> string)
    requires i < n <= |ops| && WalkTo(ops, n, opts, index).Some? && !Boundary(ops[i].kind)
    ensures WalkTo(ops, i, opts, index).Some?
    ensures var at := |WithoutBoundaries(ops[..i])|; var kept := KeptTo(ops, n, opts, arms, scope, index);
            at < |kept| && kept[at] == Placed(WalkTo(ops, i, opts, index).value, ops[i], opts, arms, scope)
  {
    hide Enter, Placed;
    if i == n - 1 {
      KeptCount(ops, i, opts, arms, scope, index);
    } else {
      KeptAt(ops, n - 1, i, opts, arms, scope, index);
    }
  }

  lemma {:induction false} KeptCount(ops: seq<Op>, n: nat, opts: set<int>, arms: Arms, scope: bool, index: nat -> string)
    requires n <= |ops| && WalkTo(ops, n, opts, index).Some?
    ensures |KeptTo(ops, n, opts, arms, scope, index)| == |WithoutBoundaries(ops[..n])|
  {
    hide Enter, Placed;
    if n > 0 {
      KeptCount(ops, n - 1, opts, arms, scope, index);
      assert ops[..n] == ops[..n - 1] + [ops[n - 1]];
      WithoutMore(ops[..n - 1], ops[n - 1]);
    } else {
      assert ops[..0] == [];
    }
  }

  lemma {:induction false} RemapAt(g: Graph, ops: seq<Op>, k: nat)
    requires k < |ops|
    ensures |RemapAll(g, ops)| == |ops| && RemapAll(g, ops)[k] == Remapped(g, ops[k])
  {
    hide Remapped;
    RemapSize(g, ops);
    RemapSize(g, ops[..|ops| - 1]);
    if k < |ops| - 1 { RemapAt(g, ops[..|ops| - 1], k); }
  }

  lemma {:induction false} RemapSize(g: Graph, ops: seq<Op>)
    ensures |RemapAll(g, ops)| == |ops|
  {
    if ops != [] { RemapSize(g, ops[..|ops| - 1]); }
  }

  /** Each name with the path in front. */
  ghost predicate Under(p: string, names: seq<string>, placed: seq<string>) {
    |placed| == |names| && forall k :: 0 <= k < |names| ==> placed[k] == p + names[k]
  }

  /** The place a call stores to is its path without the dot at its end. */
  predicate Undotted(p: string, t: string) {
    if p != "" && p[|p| - 1] == '.' then t + "." == p else t == p
  }

  ghost function LeafField(op: Op): string { if op.field.Some? then op.field.value else "" }

  /** What q, the op kept for the i-th of the list, is given beyond what that op says. */
  ghost predicate PlacedAt(ops: seq<Op>, i: nat, scope: bool, index: nat -> string, q: Op)
    requires i < |ops|
  {
    var op, p := ops[i], Path(ops, i, index);
    match op.kind
    case BeginArray => q == op.(field := Some(p + Leaf(ops, op.id, LeafField(op))), succs := q.succs)
    case NextArray => q == op.(field := Some(ArrayPath(ops, i, i, index)), succs := q.succs)
    case Invoke => q.target.Some? && Undotted(p, q.target.value) && q == op.(target := q.target, scope := scope, succs := q.succs)
    case _ => LeafAt(ops, op, p, RefPath(ops, i, i, index), q)
  }

  /** Any other op: a read that is a switch's arm goes to its slot in the union, one that
      fills an optional to its value, all names under the path, and references under the
      struct they stand in. */
  ghost predicate LeafAt(ops: seq<Op>, op: Op, p: string, r: string, q: Op) {
    && q.target == (if op.target.None? then None else
                    var own := if ArmSlot(ops, op.id).Some? then ArmSlot(ops, op.id).value else op.target.value;
                    Some(p + Leaf(ops, op.id, own)))
    && q.field == (if op.field.Some? then Some(p + op.field.value) else None)
    && q.tag == (if op.tag.Some? then Some(p + op.tag.value) else None)
    && Under(p, op.members, q.members) && Under(r, op.refs, q.refs)
    && q == op.(target := q.target, field := q.field, tag := q.tag, members := q.members, refs := q.refs, succs := q.succs)
  }

  lemma RewrittenIs(ops: seq<Op>, op: Op, w: Walk)
    ensures LeafAt(ops, op, w.prefix, w.inner, Rewritten(w, op, OptionalReads(ops), SwitchArms(ops)))
  {
    hide LeafName, SlotName, Leaf, ArmSlot, OptionalReads, SwitchArms;
    if op.target.Some? {
      SlotIs(ops, op, op.target.value);
      LeafIs(ops, op, SlotName(op, op.target.value, SwitchArms(ops)));
    }
  }

  lemma PlacedIs(ops: seq<Op>, i: nat, scope: bool, w: Walk, index: nat -> string)
    requires i < |ops| && WalkTo(ops, i, OptionalReads(ops), index) == Some(w) && !Unmatched(ops, i) && !Boundary(ops[i].kind)
    ensures PlacedAt(ops, i, scope, index, Placed(w, ops[i], OptionalReads(ops), SwitchArms(ops), scope))
  {
    hide LeafName, Leaf, OptionalReads, SwitchArms, Path, RefPath, ArrayPath, WalkTo, LeafAt, Rewritten, Depth, ArrayDepth;
    var op := ops[i];
    PathIs(ops, i, index);
    ArrayIs(ops, i, index);
    Stacks(ops, i, OptionalReads(ops), index);
    LeafIs(ops, op, LeafField(op));
    RewrittenIs(ops, op, w);
    ContainerIs(w.prefix);
  }

  lemma ContainerIs(p: string)
    ensures Undotted(p, Container(p))
  {}

  lemma LeafRemapped(ops: seq<Op>, op: Op, p: string, r: string, g: Graph, q: Op)
    requires LeafAt(ops, op, p, r, q) && q.succs == op.succs
    ensures LeafAt(ops, op, p, r, Remapped(g, q))
  {
    hide Leaf, ArmSlot, Resolve;
  }

  lemma PlacedRemapped(ops: seq<Op>, i: nat, scope: bool, index: nat -> string, g: Graph, q: Op)
    requires i < |ops| && PlacedAt(ops, i, scope, index, q) && q.succs == ops[i].succs
    ensures PlacedAt(ops, i, scope, index, Remapped(g, q))
  {
    hide Leaf, Path, RefPath, ArrayPath, LeafAt, Resolve;
    if LeafAt(ops, ops[i], Path(ops, i, index), RefPath(ops, i, i, index), q) {
      LeafRemapped(ops, ops[i], Path(ops, i, index), RefPath(ops, i, i, index), g, q);
    }
  }

  /** Ops that only begin or end a scope; the begin of an array is also its loop's. */
  predicate ScopeOnly(k: Kind) { k.BeginStruct? || k.EndStruct? || k.EndArray? }

  /** Nothing else is kept. */
  lemma OnlyKept(ops: seq<Op>, scope: bool, index: nat -> string, at: nat)
    requires forall k :: 0 <= k < |ops| ==> !Unmatched(ops, k)
    requires at < |FoldedList(ops, scope, index)|
    ensures !ScopeOnly(FoldedList(ops, scope, index)[at].kind) && |FoldedList(ops, scope, index)| == |WithoutBoundaries(ops)|
  {
    hide Placed, Unmatched, Remapped, OptionalReads, SwitchArms, RemapAll, WalkTo, KeptTo, WithoutBoundaries;
    RefusedIff(ops, |ops|, OptionalReads(ops), index);
    KeptFolds(Indexed(ops), ops, |ops|, OptionalReads(ops), SwitchArms(ops), scope, index);
    assert ops[..|ops|] == ops;
    NoneLeft(ops, at);
  }

  lemma {:induction false} NoneLeft(ops: seq<Op>, at: nat)
    requires at < |WithoutBoundaries(ops)|
    ensures !ScopeOnly(WithoutBoundaries(ops)[at].kind)
  {
    var before := WithoutBoundaries(ops[..|ops| - 1]);
    if at < |before| { NoneLeft(ops[..|ops| - 1], at); }
  }

  /** In a list without unmatched ends every op but those is kept, in order, under the
      path of the scopes open around it, its successors resolved. */
  lemma KeptPath(ops: seq<Op>, i: nat, scope: bool, index: nat -> string)
    requires i < |ops| && !ScopeOnly(ops[i].kind) && forall k :: 0 <= k < |ops| ==> !Unmatched(ops, k)
    ensures var f, at := FoldedList(ops, scope, index), |WithoutBoundaries(ops[..i])|;
            at < |f| && PlacedAt(ops, i, scope, index, f[at]) && f[at].succs == Remapped(Indexed(ops), ops[i]).succs
  {
    hide Placed, PlacedAt, Unmatched, Remapped, OptionalReads, SwitchArms, Indexed, RemapAll, WalkTo, KeptTo, Path;
    var g, opts, arms := Indexed(ops), OptionalReads(ops), SwitchArms(ops);
    RefusedIff(ops, |ops|, opts, index);
    KeptAt(ops, |ops|, i, opts, arms, scope, index);
    var w, at := WalkTo(ops, i, opts, index).value, |WithoutBoundaries(ops[..i])|;
    var q := Placed(w, ops[i], opts, arms, scope);
    PlacedIs(ops, i, scope, w, index);
    PlacedKeeps(w, ops[i], opts, arms, scope);
    PlacedRemapped(ops, i, scope, index, g, q);
    RemapAt(g, KeptTo(ops, |ops|, opts, arms, scope, index), at);
    RemappedOnly(g, q, ops[i]);
  }
}
