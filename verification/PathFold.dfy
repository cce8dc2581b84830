/** The owning-path fold: scope-boundary ops are dropped from a function's op list, every
    successor is forwarded past them, and each kept op is given the path of the scopes it
    stands in. */
module PathFold {
  import opened Syntax

  datatype Kind = BeginStruct | EndStruct | EndArray | BeginArray | NextArray | Invoke | OptionalLeaf | BeginOptional | Switch | Other
  datatype Succ = Next | Body | End | Inner | Present | Absent | DefaultTarget | CaseTarget(nth: nat)

  /** One op of the list. `member` is the switch field and union member of a struct arm;
      `ordinals` are a switch's cases in order and `falls` says that its default reads;
      `members` are the targets of a bitfield's members or a choice's arms, and `refs` the
      names its expressions read from the scope the op stands in. */
  datatype Op = Op(id: int, kind: Kind, name: string, member: Option<(string, string)>, optValue: bool,
                   field: Option<string>, target: Option<string>, tag: Option<string>, members: seq<string>,
                   refs: seq<string>, ordinals: seq<nat>, falls: bool, scope: bool, succs: map<Succ, int>)

  predicate Boundary(k: Kind) { k.BeginStruct? || k.EndStruct? || k.EndArray? }

  // ── The successor graph ───────────────────────────────────────────────

  type Graph = map<int, Op>

  predicate AtBoundary(g: Graph, id: int) { id >= 0 && id in g && Boundary(g[id].kind) }

  function NextOf(g: Graph, id: int): int
    requires id in g
  {
    if Next in g[id].succs then g[id].succs[Next] else -1
  }

  /** Where a successor lands once boundaries are gone: forwarded along `next` to the first
      op that is none, or stopped where a chain of boundaries closes on itself. */
  function Resolve(g: Graph, id: int, seen: set<int>): int
    decreases g.Keys - seen
  {
    if !AtBoundary(g, id) || id in seen then id else Resolve(g, NextOf(g, id), seen + {id})
  }

  /** Ids linked by `next`, all but the last of them boundaries. */
  ghost predicate Slides(g: Graph, c: seq<int>) {
    && c != []
    && forall i :: 0 <= i < |c| - 1 ==> AtBoundary(g, c[i]) && NextOf(g, c[i]) == c[i + 1]
  }

  /** Boundaries whose `next` chain comes back to where it began. */
  ghost predicate BoundaryCycle(g: Graph, c: seq<int>) {
    Slides(g, c) && AtBoundary(g, c[|c| - 1]) && NextOf(g, c[|c| - 1]) == c[0]
  }

  ghost predicate NoBoundaryCycle(g: Graph) {
    forall c :: !BoundaryCycle(g, c)
  }

  lemma {:induction false} ResolveSlides(g: Graph, id: int, seen: set<int>) returns (c: seq<int>)
    ensures Slides(g, c) && c[0] == id && c[|c| - 1] == Resolve(g, id, seen)
    ensures AtBoundary(g, Resolve(g, id, seen)) ==>
              Resolve(g, id, seen) in seen || exists i :: 0 <= i < |c| - 1 && c[i] == Resolve(g, id, seen)
    decreases g.Keys - seen
  {
    if !AtBoundary(g, id) || id in seen {
      c := [id];
    } else {
      var rest := ResolveSlides(g, NextOf(g, id), seen + {id});
      c := [id] + rest;
      assert forall i :: 0 <= i < |rest| ==> c[i + 1] == rest[i];
      forall i | 0 <= i < |c| - 1 ensures AtBoundary(g, c[i]) && NextOf(g, c[i]) == c[i + 1] {
        if i > 0 { assert c[i] == rest[i - 1]; }
      }
      var r := Resolve(g, id, seen);
      if AtBoundary(g, r) && r !in seen {
        if r == id { assert c[0] == r; } else {
          var i :| 0 <= i < |rest| - 1 && rest[i] == r;
          assert c[i + 1] == r;
        }
      }
    }
  }

  lemma {:induction false} SlideEnds(g: Graph, c: seq<int>, d: seq<int>)
    requires Slides(g, c) && Slides(g, d) && c[0] == d[0]
    requires !AtBoundary(g, c[|c| - 1]) && !AtBoundary(g, d[|d| - 1])
    ensures c == d
  {
    if |c| > 1 && |d| > 1 {
      SlideEnds(g, c[1..], d[1..]);
      assert c == [c[0]] + c[1..] && d == [d[0]] + d[1..];
    } else {
      assert |c| == 1 && |d| == 1;
    }
  }

  /** Successors resolve to kept ops whatever their target exactly when no chain of
      boundaries closes on itself. */
  lemma ResolveEscapes(g: Graph)
    ensures (forall id :: !AtBoundary(g, Resolve(g, id, {}))) <==> NoBoundaryCycle(g)
  {
    if !NoBoundaryCycle(g) {
      var c :| BoundaryCycle(g, c);
      CycleTraps(g, c, 0, {});
      assert AtBoundary(g, Resolve(g, c[0], {}));
    }
    if id :| AtBoundary(g, Resolve(g, id, {})) {
      var c := ResolveSlides(g, id, {});
      var last := |c| - 1;
      var i :| 0 <= i < last && c[i] == c[last];
      assert BoundaryCycle(g, c[i..last]);
    }
  }

  lemma {:induction false} CycleTraps(g: Graph, c: seq<int>, i: nat, seen: set<int>)
    requires BoundaryCycle(g, c) && i < |c|
    ensures AtBoundary(g, Resolve(g, c[i], seen))
    decreases g.Keys - seen
  {
    if c[i] !in seen { CycleTraps(g, c, if i + 1 < |c| then i + 1 else 0, seen + {c[i]}); }
  }

  lemma EscapesAt(g: Graph, id: int)
    requires NoBoundaryCycle(g)
    ensures !AtBoundary(g, Resolve(g, id, {}))
  {
    ResolveEscapes(g);
  }

  lemma SlideMore(g: Graph, id: int, d: seq<int>)
    requires AtBoundary(g, id) && Slides(g, d) && NextOf(g, id) == d[0]
    ensures Slides(g, [id] + d)
  {
    var e := [id] + d;
    forall i | 0 <= i < |e| - 1 ensures AtBoundary(g, e[i]) && NextOf(g, e[i]) == e[i + 1] {
      if i > 0 { assert e[i] == d[i - 1]; }
    }
  }

  /** Without such cycles a boundary resolves as its `next` does. */
  lemma ResolveNext(g: Graph, id: int)
    requires NoBoundaryCycle(g) && AtBoundary(g, id)
    ensures Resolve(g, id, {}) == Resolve(g, NextOf(g, id), {})
  {
    hide Resolve, NoBoundaryCycle, Slides;
    EscapesAt(g, id);
    EscapesAt(g, NextOf(g, id));
    var c := ResolveSlides(g, id, {});
    var d := ResolveSlides(g, NextOf(g, id), {});
    SlideNonEmpty(g, c);
    SlideNonEmpty(g, d);
    SlideMore(g, id, d);
    SlideEnds(g, c, [id] + d);
  }

  lemma SlideNonEmpty(g: Graph, c: seq<int>)
    requires Slides(g, c)
    ensures c != []
  {}

  // ── Runs ──────────────────────────────────────────────────────────────

  /** A run from op to op along chosen successors; a boundary has only its `next`. */
  ghost predicate Run(g: Graph, p: seq<int>, ls: seq<Succ>) {
    && |p| == |ls| + 1 && (forall i :: 0 <= i < |p| ==> p[i] >= 0 && p[i] in g)
    && forall i :: 0 <= i < |ls| ==> Goes(g, p[i], ls[i], p[i + 1])
  }

  ghost predicate Goes(g: Graph, x: int, l: Succ, y: int)
    requires x in g
  {
    l in g[x].succs && g[x].succs[l] == y && (Boundary(g[x].kind) ==> l == Next)
  }

  /** The ops of a run that are kept, in order, and the choices made at them. */
  function KeptOps(g: Graph, p: seq<int>): seq<int> {
    if p == [] then []
    else (if AtBoundary(g, p[0]) then [] else [p[0]]) + KeptOps(g, p[1..])
  }

  function KeptChoices(g: Graph, p: seq<int>, ls: seq<Succ>): seq<Succ>
    requires |p| == |ls| + 1
    decreases |p|
  {
    if ls == [] then []
    else (if AtBoundary(g, p[0]) then [] else [ls[0]]) + KeptChoices(g, p[1..], ls[1..])
  }

  /** The graph after the fold: boundaries gone, every successor resolved. */
  function Folded(g: Graph): Graph {
    map id | id in g && !Boundary(g[id].kind) :: Remapped(g, g[id])
  }

  function Remapped(g: Graph, op: Op): Op {
    op.(succs := map l | l in op.succs :: Resolve(g, op.succs[l], {}))
  }

  /** Every run, less its boundaries, is a run of the folded graph with the same choices. */
  lemma {:induction false} RunsFold(g: Graph, p: seq<int>, ls: seq<Succ>)
    requires NoBoundaryCycle(g) && Run(g, p, ls) && !AtBoundary(g, p[|p| - 1])
    ensures Run(Folded(g), KeptOps(g, p), KeptChoices(g, p, ls))
    ensures KeptOps(g, p)[0] == Resolve(g, p[0], {})
    decreases |p|
  {
    if |p| == 1 {
      assert p[1..] == [];
    } else {
      assert Run(g, p[1..], ls[1..]) by {
        forall i | 0 <= i < |ls| - 1 ensures Goes(g, p[1..][i], ls[1..][i], p[1..][i + 1]) {
          assert Goes(g, p[i + 1], ls[i + 1], p[i + 2]);
        }
      }
      RunsFold(g, p[1..], ls[1..]);
      assert Goes(g, p[0], ls[0], p[1]);
      if AtBoundary(g, p[0]) {
        ResolveNext(g, p[0]);
      } else {
        Prefixed(g, p[0], ls[0], KeptOps(g, p[1..]), KeptChoices(g, p[1..], ls[1..]));
      }
    }
  }

  /** One kept op in front of a run of the folded graph. */
  lemma Prefixed(g: Graph, x: int, l: Succ, q: seq<int>, ms: seq<Succ>)
    requires x >= 0 && x in g && !Boundary(g[x].kind) && l in g[x].succs
    requires Run(Folded(g), q, ms) && q[0] == Resolve(g, g[x].succs[l], {})
    ensures Run(Folded(g), [x] + q, [l] + ms)
  {
    var p, ls := [x] + q, [l] + ms;
    forall i | 0 <= i < |ls| ensures Goes(Folded(g), p[i], ls[i], p[i + 1]) {
      if i > 0 { assert Goes(Folded(g), q[i - 1], ms[i - 1], q[i]); }
    }
  }

  /** And every run of the folded graph comes from a run of the original. */
  lemma {:induction false} RunsUnfold(g: Graph, q: seq<int>, ms: seq<Succ>, start: int) returns (p: seq<int>, ls: seq<Succ>)
    requires NoBoundaryCycle(g) && Run(Folded(g), q, ms) && Resolve(g, start, {}) == q[0]
    ensures Run(g, p, ls) && p[0] == start && p[|p| - 1] == q[|q| - 1] && KeptOps(g, p) == q && KeptChoices(g, p, ls) == ms
    decreases |q|
  {
    var c := ResolveSlides(g, start, {});
    if |q| == 1 {
      p, ls := Along(g, c, [q[0]], []);
    } else {
      assert Goes(Folded(g), q[0], ms[0], q[1]);
      assert Run(Folded(g), q[1..], ms[1..]) by {
        forall i | 0 <= i < |ms| - 1 ensures Goes(Folded(g), q[1..][i], ms[1..][i], q[1..][i + 1]) {
          assert Goes(Folded(g), q[i + 1], ms[i + 1], q[i + 2]);
        }
      }
      var p1, ls1 := RunsUnfold(g, q[1..], ms[1..], g[q[0]].succs[ms[0]]);
      var p2, ls2 := [q[0]] + p1, [ms[0]] + ls1;
      forall i | 0 <= i < |ls2| ensures Goes(g, p2[i], ls2[i], p2[i + 1]) {
        if i > 0 { assert Goes(g, p1[i - 1], ls1[i - 1], p1[i]); }
      }
      assert p2[1..] == p1 && ls2[1..] == ls1;
      assert q == [q[0]] + q[1..] && ms == [ms[0]] + ms[1..];
      p, ls := Along(g, c, p2, ls2);
    }
  }

  /** A run entered through a slide of boundaries keeps the same ops. */
  lemma {:induction false} Along(g: Graph, c: seq<int>, q: seq<int>, ms: seq<Succ>) returns (p: seq<int>, ls: seq<Succ>)
    requires Slides(g, c) && Run(g, q, ms) && c[|c| - 1] == q[0]
    ensures Run(g, p, ls) && p[0] == c[0] && p[|p| - 1] == q[|q| - 1]
    ensures KeptOps(g, p) == KeptOps(g, q) && KeptChoices(g, p, ls) == KeptChoices(g, q, ms)
    decreases |c|
  {
    if |c| == 1 {
      p, ls := q, ms;
    } else {
      var p1, ls1 := Along(g, c[1..], q, ms);
      p, ls := [c[0]] + p1, [Next] + ls1;
      assert p[1..] == p1 && ls[1..] == ls1;
      assert AtBoundary(g, c[0]) && NextOf(g, c[0]) == c[1];
      forall i | 0 <= i < |ls| ensures Goes(g, p[i], ls[i], p[i + 1]) {
        if i > 0 { assert Goes(g, p1[i - 1], ls1[i - 1], p1[i]); }
      }
    }
  }

  /** No kept op's successor names a dropped op. */
  lemma NoSuccessorDropped(g: Graph, id: int, l: Succ)
    requires NoBoundaryCycle(g) && id in Folded(g) && l in Folded(g)[id].succs
    ensures !AtBoundary(g, Folded(g)[id].succs[l])
  {
    EscapesAt(g, g[id].succs[l]);
  }

  // ── The walk that rebuilds paths ──────────────────────────────────────

  /** Where the walk stands: the target prefix, the prefix references resolve under, the
      saved prefixes of the open scopes, and the open arrays. */
  datatype Walk = Walk(prefix: string, inner: string, scope: seq<string>, inners: seq<string>, arrays: seq<string>, level: nat)

  const START: Walk := Walk("", "", [], [], [], 0)

  /** What a struct's begin adds to the path. */
  function StructSegment(op: Op): string {
    if op.member.Some? then
      (if op.member.value.0 == "" then "" else op.member.value.0 + ".") + "u." + op.member.value.1 + "."
    else if op.optValue then (if op.name == "" then "value." else op.name + ".value.")
    else if op.name == "" then "" else op.name + "."
  }

  /** An element read by an optional lives in the optional's value. */
  function LeafName(op: Op, leaf: string, opts: set<int>): string {
    if op.id in opts then (if leaf == "" then "value" else leaf + ".value") else leaf
  }

  /** One op of the walk, or nothing where the list is malformed. */
  function Enter(w: Walk, op: Op, opts: set<int>, index: nat -> string): Option<Walk> {
    match op.kind
    case BeginStruct =>
      var p := w.prefix + StructSegment(op);
      Some(Walk(p, p, w.scope + [w.prefix], w.inners + [w.inner], w.arrays, w.level))
    case EndStruct => Unwind(w)
    case EndArray =>
      var u := Unwind(w);
      if u.None? || w.arrays == [] || w.level == 0 then None
      else Some(u.value.(arrays := w.arrays[..|w.arrays| - 1], level := w.level - 1))
    case BeginArray =>
      if op.field.None? then None
      else
        var full := w.prefix + LeafName(op, op.field.value, opts);
        Some(Walk(full + ".items[" + index(w.level) + "]", w.inner, w.scope + [w.prefix], w.inners + [w.inner],
                  w.arrays + [full], w.level + 1))
    case NextArray => if w.arrays == [] then None else Some(w)
    case _ => Some(w)
  }

  function Unwind(w: Walk): Option<Walk> {
    if w.scope == [] || w.inners == [] then None
    else Some(w.(prefix := w.scope[|w.scope| - 1], scope := w.scope[..|w.scope| - 1],
                 inner := w.inners[|w.inners| - 1], inners := w.inners[..|w.inners| - 1]))
  }

  function Prefixes(p: string, names: seq<string>): seq<string> {
    seq(|names|, i requires 0 <= i < |names| => p + names[i])
  }

  /** The union slot of a scalar read that is a switch's arm. */
  type Arms = map<int, (string, string)>

  function SlotName(op: Op, leaf: string, arms: Arms): string {
    if op.id in arms then (if arms[op.id].0 == "" then "" else arms[op.id].0 + ".") + "u." + arms[op.id].1 else leaf
  }

  /** The op as kept, with its place in the document written in. */
  function Placed(w: Walk, op: Op, opts: set<int>, arms: Arms, scope: bool): Op {
    match op.kind
    case BeginArray => op.(field := Some(w.prefix + LeafName(op, if op.field.Some? then op.field.value else "", opts)))
    case NextArray => op.(field := if w.arrays == [] then op.field else Some(w.arrays[|w.arrays| - 1]))
    case Invoke => op.(target := Some(Container(w.prefix)), scope := scope)
    case _ => Rewritten(w, op, opts, arms)
  }

  function Rewritten(w: Walk, op: Op, opts: set<int>, arms: Arms): Op {
    op.(target := if op.target.Some? then Some(w.prefix + LeafName(op, SlotName(op, op.target.value, arms), opts)) else None,
        field := if op.field.Some? then Some(w.prefix + op.field.value) else None,
        tag := if op.tag.Some? then Some(w.prefix + op.tag.value) else None,
        members := Prefixes(w.prefix, op.members),
        refs := Prefixes(w.inner, op.refs))
  }

  function Container(p: string): string {
    if p != "" && p[|p| - 1] == '.' then p[..|p| - 1] else p
  }

  /** The walk over the first n ops. */
  function WalkTo(ops: seq<Op>, n: nat, opts: set<int>, index: nat -> string): Option<Walk>
    requires n <= |ops|
  {
    if n == 0 then Some(START)
    else
      var w := WalkTo(ops, n - 1, opts, index);
      if w.None? then None else Enter(w.value, ops[n - 1], opts, index)
  }

  // ── Nesting ───────────────────────────────────────────────────────────

  function Opens(k: Kind): int {
    match k
    case BeginStruct | BeginArray => 1
    case EndStruct | EndArray => -1
    case _ => 0
  }

  function ArrayOpens(k: Kind): int {
    match k
    case BeginArray => 1
    case EndArray => -1
    case _ => 0
  }

  /** How many scopes, and how many arrays, are open before op n. */
  function Depth(ops: seq<Op>, n: nat): int
    requires n <= |ops|
  {
    if n == 0 then 0 else Depth(ops, n - 1) + Opens(ops[n - 1].kind)
  }

  function ArrayDepth(ops: seq<Op>, n: nat): int
    requires n <= |ops|
  {
    if n == 0 then 0 else ArrayDepth(ops, n - 1) + ArrayOpens(ops[n - 1].kind)
  }

  /** What one op does to the stacks, strings apart. */
  lemma EnterCounts(w: Walk, op: Op, opts: set<int>, index: nat -> string)
    requires |w.scope| == |w.inners| && |w.arrays| == w.level
    ensures var u := Enter(w, op, opts, index);
            && (u.Some? ==> |u.value.scope| == |u.value.inners| == |w.scope| + Opens(op.kind)
                            && |u.value.arrays| == u.value.level == w.level + ArrayOpens(op.kind))
            && (u.None? <==> (match op.kind
                              case EndStruct => w.scope == []
                              case EndArray => w.scope == [] || w.arrays == []
                              case NextArray => w.arrays == []
                              case BeginArray => op.field.None?
                              case _ => false))
  {
    hide StructSegment, LeafName;
  }

  /** A begin saves the paths; an end takes them back off. */
  lemma EnterPaths(w: Walk, op: Op, opts: set<int>, index: nat -> string)
    requires Enter(w, op, opts, index).Some? && |w.scope| == |w.inners|
    ensures var u := Enter(w, op, opts, index).value;
            && (Opens(op.kind) == 1 ==> u.scope == w.scope + [w.prefix] && u.inners == w.inners + [w.inner])
            && (Opens(op.kind) == 0 ==> u == w)
            && (Opens(op.kind) == -1 ==>
                  w.scope != [] && u.scope + [u.prefix] == w.scope && u.inners + [u.inner] == w.inners)
  {
    hide StructSegment, LeafName;
  }

  lemma {:induction false} Stacks(ops: seq<Op>, n: nat, opts: set<int>, index: nat -> string)
    requires n <= |ops|
    ensures var w := WalkTo(ops, n, opts, index);
            w.Some? ==> |w.value.scope| == |w.value.inners| == Depth(ops, n)
                        && |w.value.arrays| == w.value.level == ArrayDepth(ops, n)
  {
    hide Enter;
    if n > 0 {
      Stacks(ops, n - 1, opts, index);
      var w := WalkTo(ops, n - 1, opts, index);
      if w.Some? { EnterCounts(w.value, ops[n - 1], opts, index); }
    }
  }

  /** An op that ends, or asks for, a scope that is not open. */
  predicate Unmatched(ops: seq<Op>, k: nat)
    requires k < |ops|
  {
    match ops[k].kind
    case EndStruct => Depth(ops, k) <= 0
    case EndArray => Depth(ops, k) <= 0 || ArrayDepth(ops, k) <= 0
    case NextArray => ArrayDepth(ops, k) <= 0
    case BeginArray => ops[k].field.None?
    case _ => false
  }

  lemma UnmatchedIs(ops: seq<Op>, k: nat, w: Walk)
    requires k < |ops| && |w.scope| == Depth(ops, k) && |w.arrays| == ArrayDepth(ops, k)
    ensures Unmatched(ops, k) <==> (match ops[k].kind
                                    case EndStruct => w.scope == []
                                    case EndArray => w.scope == [] || w.arrays == []
                                    case NextArray => w.arrays == []
                                    case BeginArray => ops[k].field.None?
                                    case _ => false)
  {}

  /** The walk is refused exactly on lists with an unmatched op. */
  lemma {:induction false} RefusedIff(ops: seq<Op>, n: nat, opts: set<int>, index: nat -> string)
    requires n <= |ops|
    ensures WalkTo(ops, n, opts, index).None? <==> exists k :: 0 <= k < n && Unmatched(ops, k)
  {
    hide Enter, Unmatched;
    if n > 0 {
      RefusedIff(ops, n - 1, opts, index);
      Stacks(ops, n - 1, opts, index);
      var w := WalkTo(ops, n - 1, opts, index);
      if w.Some? {
        EnterCounts(w.value, ops[n - 1], opts, index);
        UnmatchedIs(ops, n - 1, w.value);
      }
    }
  }

  /** The op at i opens a scope that the op at j closes. */
  ghost predicate Matched(ops: seq<Op>, i: nat, j: nat) {
    && i < j < |ops| && Depth(ops, j + 1) == Depth(ops, i)
    && forall k :: i < k <= j ==> Depth(ops, k) > Depth(ops, i)
  }

  /** While a scope stays open, what was saved when it opened stays saved. */
  lemma {:induction false} Saved(ops: seq<Op>, i: nat, k: nat, opts: set<int>, index: nat -> string)
    requires i < k <= |ops| && WalkTo(ops, k, opts, index).Some?
    requires forall m :: i < m <= k ==> Depth(ops, m) > Depth(ops, i)
    ensures WalkTo(ops, i, opts, index).Some?
    ensures var w0, w := WalkTo(ops, i, opts, index).value, WalkTo(ops, k, opts, index).value;
            w0.scope + [w0.prefix] <= w.scope && w0.inners + [w0.inner] <= w.inners
  {
    hide Enter;
    Stacks(ops, k - 1, opts, index);
    EnterPaths(WalkTo(ops, k - 1, opts, index).value, ops[k - 1], opts, index);
    Stacks(ops, k, opts, index);
    Stacks(ops, i, opts, index);
    if k > i + 1 { Saved(ops, i, k - 1, opts, index); }
  }

  /** After each end the paths and the saved scopes are as before the matching begin. */
  lemma PrefixReturns(ops: seq<Op>, i: nat, j: nat, opts: set<int>, index: nat -> string)
    requires Matched(ops, i, j) && WalkTo(ops, j + 1, opts, index).Some?
    ensures WalkTo(ops, i, opts, index).Some?
    ensures var w0, w := WalkTo(ops, i, opts, index).value, WalkTo(ops, j + 1, opts, index).value;
            w.prefix == w0.prefix && w.inner == w0.inner && w.scope == w0.scope && w.inners == w0.inners
  {
    hide Enter;
    Saved(ops, i, j, opts, index);
    Stacks(ops, i, opts, index);
    Stacks(ops, j, opts, index);
    Stacks(ops, j + 1, opts, index);
    var w0, wj := WalkTo(ops, i, opts, index).value, WalkTo(ops, j, opts, index).value;
    var w := WalkTo(ops, j + 1, opts, index).value;
    EnterPaths(wj, ops[j], opts, index);
    assert wj.scope == w0.scope + [w0.prefix] && wj.inners == w0.inners + [w0.inner];
    SameSnoc(w0.scope, w0.prefix, w.scope, w.prefix);
    SameSnoc(w0.inners, w0.inner, w.inners, w.inner);
  }

  lemma SameSnoc(s: seq<string>, x: string, r: seq<string>, y: string)
    requires s + [x] == r + [y]
    ensures s == r && x == y
  {
    assert s == (s + [x])[..|s|] && r == (r + [y])[..|r|];
    assert x == (s + [x])[|s|] && y == (r + [y])[|r|];
  }

  /** Likewise for the open arrays, between an array's begin and its end. */
  lemma {:induction false} ArraysReturn(ops: seq<Op>, i: nat, k: nat, opts: set<int>, index: nat -> string)
    requires i <= k <= |ops| && WalkTo(ops, k, opts, index).Some?
    requires forall m :: i <= m <= k ==> ArrayDepth(ops, m) >= ArrayDepth(ops, i)
    ensures WalkTo(ops, i, opts, index).Some?
    ensures var w0, w := WalkTo(ops, i, opts, index).value, WalkTo(ops, k, opts, index).value;
            w0.arrays <= w.arrays && (ArrayDepth(ops, k) == ArrayDepth(ops, i) ==> w.arrays == w0.arrays && w.level == w0.level)
  {
    hide Enter;
    Stacks(ops, k, opts, index);
    Stacks(ops, i, opts, index);
    if k > i {
      Stacks(ops, k - 1, opts, index);
      ArraysReturn(ops, i, k - 1, opts, index);
      EnterArrays(WalkTo(ops, k - 1, opts, index).value, ops[k - 1], opts, index);
    }
  }

  lemma EnterArrays(w: Walk, op: Op, opts: set<int>, index: nat -> string)
    requires Enter(w, op, opts, index).Some?
    ensures var u := Enter(w, op, opts, index).value;
            && (ArrayOpens(op.kind) == 1 ==> w.arrays <= u.arrays && |u.arrays| == |w.arrays| + 1)
            && (ArrayOpens(op.kind) == 0 ==> u.arrays == w.arrays && u.level == w.level)
            && (ArrayOpens(op.kind) == -1 ==> w.arrays != [] && u.arrays == w.arrays[..|w.arrays| - 1])
  {
    hide StructSegment, LeafName;
  }

  // ── The fold itself ───────────────────────────────────────────────────

  function Indexed(ops: seq<Op>): Graph {
    if ops == [] then map[]
    else Indexed(ops[..|ops| - 1])[ops[|ops| - 1].id := ops[|ops| - 1]]
  }

  /** The reads that fill an optional's value. */
  function OptionalReads(ops: seq<Op>): set<int> {
    if ops == [] then {}
    else
      var op := ops[|ops| - 1];
      OptionalReads(ops[..|ops| - 1])
      + (if op.kind.OptionalLeaf? && Present in op.succs then {op.succs[Present]}
         else if op.kind.BeginOptional? && Inner in op.succs then {op.succs[Inner]}
         else {})
  }

  function Decimal(n: nat): string {
    if n < 10 then [DIGITS[n]] else Decimal(n / 10) + [DIGITS[n % 10]]
  }

  const DIGITS: string := "0123456789"

  /** The slots the first n cases of a switch give to the reads they select. */
  function CaseArms(op: Op, n: nat): Arms
    requires n <= |op.ordinals|
  {
    if n == 0 then map[]
    else
      var before := CaseArms(op, n - 1);
      if CaseTarget(n - 1) in op.succs
      then before[op.succs[CaseTarget(n - 1)] := (TagOf(op), "case_" + Decimal(op.ordinals[n - 1]))] else before
  }

  function TagOf(op: Op): string { if op.tag.Some? then op.tag.value else "" }

  function DefaultArms(op: Op): Arms {
    if op.falls && DefaultTarget in op.succs then map[op.succs[DefaultTarget] := (TagOf(op), "default_val")] else map[]
  }

  /** The slots of all switches; a later one overwrites. */
  function SwitchArms(ops: seq<Op>): Arms {
    if ops == [] then map[]
    else
      var op := ops[|ops| - 1];
      var before := SwitchArms(ops[..|ops| - 1]);
      if op.kind.Switch? then before + CaseArms(op, |op.ordinals|) + DefaultArms(op) else before
  }

  /** The kept ops of the first n, each placed where the walk stood. */
  function KeptTo(ops: seq<Op>, n: nat, opts: set<int>, arms: Arms, scope: bool, index: nat -> string): seq<Op>
    requires n <= |ops|
  {
    if n == 0 then []
    else
      var w := WalkTo(ops, n - 1, opts, index);
      KeptTo(ops, n - 1, opts, arms, scope, index)
      + (if Boundary(ops[n - 1].kind) || w.None? then [] else [Placed(w.value, ops[n - 1], opts, arms, scope)])
  }

  function RemapAll(g: Graph, ops: seq<Op>): seq<Op> {
    if ops == [] then [] else RemapAll(g, ops[..|ops| - 1]) + [Remapped(g, ops[|ops| - 1])]
  }

  method ResolveLoop(g: Graph, start: int) returns (id: int)
    ensures id == Resolve(g, start, {})
  {
    id := start;
    var seen: set<int> := {};
    while id >= 0
      invariant Resolve(g, start, {}) == Resolve(g, id, seen)
      decreases g.Keys - seen, if id >= 0 then 1 else 0
    {
      if id !in g || !Boundary(g[id].kind) { break; }
      if id in seen { break; }
      seen := seen + {id};
      id := NextOf(g, id);
    }
  }

  /** Pass 1: the ops by id, the reads that fill an optional's value, and those that are a
      switch's arms. */
  method IndexOps(ops: seq<Op>) returns (byId: Graph, opts: set<int>, arms: Arms)
    ensures byId == Indexed(ops) && opts == OptionalReads(ops) && arms == SwitchArms(ops)
  {
    byId, opts, arms := map[], {}, map[];
    for i := 0 to |ops|
      invariant byId == Indexed(ops[..i]) && opts == OptionalReads(ops[..i]) && arms == SwitchArms(ops[..i])
    {
      assert ops[..i + 1][..i] == ops[..i];
      var op := ops[i];
      byId := byId[op.id := op];
      if op.kind.OptionalLeaf? && Present in op.succs {
        opts := opts + {op.succs[Present]};
      } else if op.kind.BeginOptional? && Inner in op.succs {
        opts := opts + {op.succs[Inner]};
      } else if op.kind.Switch? {
        arms := AddArms(op, arms);
      }
    }
    assert ops[..|ops|] == ops;
  }

  method AddArms(op: Op, before: Arms) returns (arms: Arms)
    ensures arms == before + CaseArms(op, |op.ordinals|) + DefaultArms(op)
  {
    arms := before;
    for n := 0 to |op.ordinals|
      invariant arms == before + CaseArms(op, n)
    {
      if CaseTarget(n) in op.succs {
        arms := arms[op.succs[CaseTarget(n)] := (TagOf(op), "case_" + Decimal(op.ordinals[n]))];
      }
    }
    if op.falls && DefaultTarget in op.succs {
      arms := arms[op.succs[DefaultTarget] := (TagOf(op), "default_val")];
    }
  }

  /** Pass 2: the walk in program order, dropping the boundaries. */
  method WalkOps(ops: seq<Op>, opts: set<int>, arms: Arms, scope: bool, index: nat -> string) returns (ok: bool, kept: seq<Op>)
    ensures ok <==> forall k :: 0 <= k < |ops| ==> !Unmatched(ops, k)
    ensures ok ==> kept == KeptTo(ops, |ops|, opts, arms, scope, index)
  {
    hide Enter, Unmatched, Placed;
    RefusedIff(ops, |ops|, opts, index);
    var w := START;
    kept := [];
    for i := 0 to |ops|
      invariant WalkTo(ops, i, opts, index) == Some(w) && kept == KeptTo(ops, i, opts, arms, scope, index)
    {
      var next := Enter(w, ops[i], opts, index);
      if next.None? {
        RefusedIff(ops, i + 1, opts, index);
        return false, [];
      }
      if !Boundary(ops[i].kind) { kept := kept + [Placed(w, ops[i], opts, arms, scope)]; }
      w := next.value;
    }
    ok := true;
  }

  /** Pass 3: every successor remapped. */
  method RemapOps(g: Graph, kept: seq<Op>) returns (r: seq<Op>)
    ensures r == RemapAll(g, kept)
  {
    r := [];
    for i := 0 to |kept|
      invariant r == RemapAll(g, kept[..i])
    {
      assert kept[..i + 1][..i] == kept[..i];
      var op := Remap(g, kept[i]);
      r := r + [op];
    }
    assert kept[..|kept|] == kept;
  }

  /** What the fold makes of an op list. */
  function FoldedList(ops: seq<Op>, scope: bool, index: nat -> string): seq<Op> {
    RemapAll(Indexed(ops), KeptTo(ops, |ops|, OptionalReads(ops), SwitchArms(ops), scope, index))
  }

  /** fold_owning_paths on one function. Nothing comes back where the list is malformed. */
  method FoldOwningPaths(ops: seq<Op>, entry: int, scope: bool, index: nat -> string) returns (r: Option<(seq<Op>, int)>)
    ensures r.Some? <==> forall k :: 0 <= k < |ops| ==> !Unmatched(ops, k)
    ensures r.Some? ==> r.value == (FoldedList(ops, scope, index), Resolve(Indexed(ops), entry, {}))
  {
    var byId, opts, arms := IndexOps(ops);
    var ok, kept := WalkOps(ops, opts, arms, scope, index);
    if !ok { return None; }
    var folded := RemapOps(byId, kept);
    var first := ResolveLoop(byId, entry);
    r := Some((folded, first));
  }

  /** Every successor of an op, resolved. */
  method Remap(g: Graph, op: Op) returns (r: Op)
    ensures r == Remapped(g, op)
  {
    var todo, done: map<Succ, int> := op.succs.Keys, map[];
    while todo != {}
      invariant todo <= op.succs.Keys && done.Keys == op.succs.Keys - todo
      invariant forall l :: l in done ==> done[l] == Resolve(g, op.succs[l], {})
      decreases |todo|
    {
      var l :| l in todo;
      todo := todo - {l};
      var id := ResolveLoop(g, op.succs[l]);
      done := done[l := id];
    }
    assert done == map l | l in op.succs :: Resolve(g, op.succs[l], {});
    r := op.(succs := done);
  }

  // ── The folded list and the folded graph ──────────────────────────────

  ghost predicate UniqueIds(ops: seq<Op>) {
    forall i, j :: 0 <= i < j < |ops| ==> ops[i].id != ops[j].id
  }

  lemma {:induction false} IndexedHas(ops: seq<Op>)
    requires UniqueIds(ops)
    ensures forall i :: 0 <= i < |ops| ==> ops[i].id in Indexed(ops) && Indexed(ops)[ops[i].id] == ops[i]
    ensures forall id :: id in Indexed(ops) ==> exists i :: 0 <= i < |ops| && ops[i].id == id
  {
    if ops != [] {
      var n := |ops| - 1;
      IndexedHas(ops[..n]);
      forall id | id in Indexed(ops) ensures exists i :: 0 <= i < |ops| && ops[i].id == id {
        if id == ops[n].id { assert ops[n].id == id; } else {
          var i :| 0 <= i < n && ops[..n][i].id == id;
          assert ops[i].id == id;
        }
      }
    }
  }

  function WithoutBoundaries(ops: seq<Op>): seq<Op> {
    if ops == [] then []
    else
      var last := ops[|ops| - 1];
      WithoutBoundaries(ops[..|ops| - 1]) + (if Boundary(last.kind) then [] else [last])
  }

  /** One for one, the folded list is the list without its boundaries: same ids, same kinds,
      successors resolved. */
  ghost predicate FoldsTo(g: Graph, kept: seq<Op>, folded: seq<Op>) {
    |folded| == |kept|
    && forall i :: 0 <= i < |kept| ==>
         folded[i].id == kept[i].id && folded[i].kind == kept[i].kind && folded[i].succs == Remapped(g, kept[i]).succs
  }

  lemma {:induction false} KeptFolds(g: Graph, ops: seq<Op>, n: nat, opts: set<int>, arms: Arms, scope: bool, index: nat -> string)
    requires n <= |ops| && WalkTo(ops, n, opts, index).Some?
    ensures FoldsTo(g, WithoutBoundaries(ops[..n]), RemapAll(g, KeptTo(ops, n, opts, arms, scope, index)))
  {
    hide Enter, Placed, Remapped, FoldsTo, RemapAll, WithoutBoundaries;
    if n == 0 {
      assert ops[..0] == [];
      FoldsNothing(g);
    } else {
      KeptFolds(g, ops, n - 1, opts, arms, scope, index);
      assert ops[..n] == ops[..n - 1] + [ops[n - 1]];
      WithoutMore(ops[..n - 1], ops[n - 1]);
      var w := WalkTo(ops, n - 1, opts, index).value;
      PlacedKeeps(w, ops[n - 1], opts, arms, scope);
      RemappedOnly(g, Placed(w, ops[n - 1], opts, arms, scope), ops[n - 1]);
      var kept := KeptTo(ops, n - 1, opts, arms, scope, index);
      RemapMore(g, kept, Placed(w, ops[n - 1], opts, arms, scope));
      if Boundary(ops[n - 1].kind) {
        assert KeptTo(ops, n, opts, arms, scope, index) == kept;
      } else {
        FoldsMore(g, WithoutBoundaries(ops[..n - 1]), RemapAll(g, kept), ops[n - 1], Remapped(g, Placed(w, ops[n - 1], opts, arms, scope)));
      }
    }
  }

  lemma FoldsNothing(g: Graph)
    ensures FoldsTo(g, WithoutBoundaries([]), RemapAll(g, []))
  {}

  lemma FoldsMore(g: Graph, kept: seq<Op>, folded: seq<Op>, op: Op, f: Op)
    requires FoldsTo(g, kept, folded) && f.id == op.id && f.kind == op.kind && f.succs == Remapped(g, op).succs
    ensures FoldsTo(g, kept + [op], folded + [f])
  {}

  lemma WithoutMore(ops: seq<Op>, op: Op)
    ensures WithoutBoundaries(ops + [op]) == if Boundary(op.kind) then WithoutBoundaries(ops) else WithoutBoundaries(ops) + [op]
  {
    assert (ops + [op])[..|ops|] == ops;
  }

  /** Remapping reads an op's successors and nothing else of it. */
  lemma RemappedOnly(g: Graph, op: Op, kept: Op)
    requires op.succs == kept.succs
    ensures Remapped(g, op).succs == Remapped(g, kept).succs
    ensures Remapped(g, op).id == op.id && Remapped(g, op).kind == op.kind
  {}

  lemma PlacedKeeps(w: Walk, op: Op, opts: set<int>, arms: Arms, scope: bool)
    ensures var q := Placed(w, op, opts, arms, scope); q.id == op.id && q.kind == op.kind && q.succs == op.succs
  {
    hide LeafName, Container, Rewritten;
    RewrittenKeeps(w, op, opts, arms);
  }

  lemma RewrittenKeeps(w: Walk, op: Op, opts: set<int>, arms: Arms)
    ensures var q := Rewritten(w, op, opts, arms); q.id == op.id && q.kind == op.kind && q.succs == op.succs
  {
    hide LeafName, SlotName, Prefixes;
  }

  lemma RemapMore(g: Graph, ops: seq<Op>, op: Op)
    ensures RemapAll(g, ops + [op]) == RemapAll(g, ops) + [Remapped(g, op)]
  {
    assert (ops + [op])[..|ops|] == ops;
  }

  /** b is a without its boundaries, successors resolved in g. */
  ghost predicate KeptOf(g: Graph, a: Graph, b: Graph) {
    && b.Keys == (set id | id in a && !Boundary(a[id].kind))
    && forall id :: id in b ==> b[id].kind == a[id].kind && b[id].succs == Remapped(g, a[id]).succs
  }

  lemma KeptOfMore(g: Graph, a: Graph, b: Graph, op: Op, f: Op)
    requires KeptOf(g, a, b) && op.id !in a && f.id == op.id && f.kind == op.kind && f.succs == Remapped(g, op).succs
    ensures KeptOf(g, a[op.id := op], if Boundary(op.kind) then b else b[f.id := f])
  {
    hide Remapped;
  }

  lemma {:induction false} IndexedKept(ops: seq<Op>, folded: seq<Op>, g: Graph)
    requires UniqueIds(ops) && FoldsTo(g, WithoutBoundaries(ops), folded)
    ensures KeptOf(g, Indexed(ops), Indexed(folded))
    decreases |ops|
  {
    hide Remapped, UniqueIds;
    if ops != [] {
      var n := |ops| - 1;
      FreshId(ops);
      if Boundary(ops[n].kind) {
        IndexedKept(ops[..n], folded, g);
        RemappedOnly(g, ops[n], ops[n]);
        KeptOfMore(g, Indexed(ops[..n]), Indexed(folded), ops[n], Remapped(g, ops[n]));
      } else {
        var m := |folded| - 1;
        IndexedKept(ops[..n], folded[..m], g);
        KeptOfMore(g, Indexed(ops[..n]), Indexed(folded[..m]), ops[n], folded[m]);
      }
    }
  }

  lemma FreshId(ops: seq<Op>)
    requires ops != [] && UniqueIds(ops)
    ensures UniqueIds(ops[..|ops| - 1]) && ops[|ops| - 1].id !in Indexed(ops[..|ops| - 1])
  {
    var n := |ops| - 1;
    IndexedHas(ops[..n]);
    forall id | id in Indexed(ops[..n]) ensures id != ops[n].id {
      var i :| 0 <= i < n && ops[..n][i].id == id;
      assert ops[i].id == id;
    }
  }

  /** The runs of the folded list are the runs of the folded graph. */
  lemma ListRuns(ops: seq<Op>, scope: bool, index: nat -> string, p: seq<int>, ls: seq<Succ>)
    requires UniqueIds(ops) && WalkTo(ops, |ops|, OptionalReads(ops), index).Some?
    ensures Run(Indexed(FoldedList(ops, scope, index)), p, ls) <==> Run(Folded(Indexed(ops)), p, ls)
  {
    hide WalkTo, KeptTo, RemapAll, Resolve;
    var g, h, f := Indexed(ops), Indexed(FoldedList(ops, scope, index)), Folded(Indexed(ops));
    assert ops[..|ops|] == ops;
    KeptFolds(g, ops, |ops|, OptionalReads(ops), SwitchArms(ops), scope, index);
    IndexedKept(ops, FoldedList(ops, scope, index), g);
    SameRuns(h, f, p, ls);
    SameRuns(f, h, p, ls);
  }

  lemma SameRuns(g: Graph, h: Graph, p: seq<int>, ls: seq<Succ>)
    requires g.Keys == h.Keys && forall id :: id in g ==> g[id].kind == h[id].kind && g[id].succs == h[id].succs
    ensures Run(g, p, ls) ==> Run(h, p, ls)
  {
    if Run(g, p, ls) {
      forall i | 0 <= i < |ls| ensures Goes(h, p[i], ls[i], p[i + 1]) { assert Goes(g, p[i], ls[i], p[i + 1]); }
    }
  }
}
