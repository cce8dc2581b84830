/** Kahn's sort of the rules by their unguarded dependencies: it succeeds exactly on acyclic
    grammars, and what it cannot sort is exactly what runs into a cycle. */
module RuleSort {
  import opened Syntax

  /** The rules each rule must come after. */
  type Deps = map<Name, set<Name>>

  /** Every dependency is itself a rule: undefined references stop the analysis earlier. */
  ghost predicate Closed(deps: Deps) {
    forall n :: n in deps ==> deps[n] <= deps.Keys
  }

  // ── Cycles ────────────────────────────────────────────────────────────

  ghost predicate Chain(deps: Deps, p: seq<Name>) {
    && p != [] && (forall i :: 0 <= i < |p| ==> p[i] in deps)
    && forall i :: 0 <= i < |p| - 1 ==> p[i + 1] in deps[p[i]]
  }

  ghost predicate Cycle(deps: Deps, p: seq<Name>) {
    Chain(deps, p) && p[0] in deps[p[|p| - 1]]
  }

  ghost predicate Acyclic(deps: Deps) {
    forall p :: !Cycle(deps, p)
  }

  /** A chain whose last rule depends on one already on it. */
  ghost predicate Lasso(deps: Deps, p: seq<Name>, i: nat) {
    Chain(deps, p) && i < |p| && p[i] in deps[p[|p| - 1]]
  }

  ghost predicate EntersCycle(deps: Deps, n: Name) {
    exists p, i :: Lasso(deps, p, i) && p[0] == n
  }

  lemma LassoHasCycle(deps: Deps, p: seq<Name>, i: nat)
    requires Lasso(deps, p, i)
    ensures Cycle(deps, p[i..])
  {}

  lemma CycleIsLasso(deps: Deps, p: seq<Name>)
    requires Cycle(deps, p)
    ensures EntersCycle(deps, p[0])
  {
    assert Lasso(deps, p, 0);
  }

  // ── What a finished sort means ────────────────────────────────────────

  ghost predicate Distinct(s: seq<Name>) {
    forall i, j :: 0 <= i < j < |s| ==> s[i] != s[j]
  }

  /** Each rule comes after everything it depends on. */
  ghost predicate Ordered(deps: Deps, s: seq<Name>) {
    && Distinct(s) && (forall i :: 0 <= i < |s| ==> s[i] in deps)
    && forall i, d :: 0 <= i < |s| && d in deps[s[i]] ==> d in s[..i]
  }

  /** Along a chain of dependencies from a sorted rule, positions only fall. */
  lemma {:induction false} ChainFalls(deps: Deps, s: seq<Name>, p: seq<Name>) returns (at: seq<nat>)
    requires Ordered(deps, s) && Chain(deps, p) && p[0] in s
    ensures |at| == |p| && forall j :: 0 <= j < |p| ==> at[j] < |s| && s[at[j]] == p[j]
    ensures forall j, k :: 0 <= j < k < |p| ==> at[k] < at[j]
    decreases |p|
  {
    if |p| == 1 {
      var k :| 0 <= k < |s| && s[k] == p[0];
      at := [k];
    } else {
      var n := |p| - 1;
      var front := ChainFalls(deps, s, p[..n]);
      assert p[n] in deps[p[n - 1]];
      assert p[n] in s[..front[n - 1]];
      var k :| 0 <= k < front[n - 1] && s[k] == p[n];
      at := front + [k];
    }
  }

  lemma NotEarlier(s: seq<Name>, k: nat, n: nat)
    requires Distinct(s) && n <= k < |s|
    ensures s[k] !in s[..n]
  {}

  /** Nothing sorted runs into a cycle. */
  lemma SortedIsSafe(deps: Deps, s: seq<Name>, n: Name)
    requires Ordered(deps, s) && n in s
    ensures !EntersCycle(deps, n)
  {
    forall p: seq<Name>, i: nat | Chain(deps, p) && i < |p| && p[0] == n ensures !Lasso(deps, p, i) {
      var at := ChainFalls(deps, s, p);
      var last := |p| - 1;
      assert at[last] <= at[i] && s[at[i]] == p[i];
      NotEarlier(s, at[i], at[last]);
      assert forall d :: d in deps[s[at[last]]] ==> d in s[..at[last]];
    }
  }

  // ── What a stuck sort means ───────────────────────────────────────────

  /** Every rule left over waits for another one left over. */
  ghost predicate AllWait(deps: Deps, left: set<Name>) {
    left <= deps.Keys && forall n :: n in left ==> Waits(deps, left, n)
  }

  ghost predicate Waits(deps: Deps, left: set<Name>, n: Name)
    requires n in deps
  {
    exists d :: d in left && d in deps[n]
  }

  /** From any of them a chain can be followed until it meets itself. */
  lemma {:induction false} StuckEnters(deps: Deps, left: set<Name>, p: seq<Name>) returns (q: seq<Name>, i: nat)
    requires AllWait(deps, left) && Chain(deps, p) && Distinct(p) && forall k :: 0 <= k < |p| ==> p[k] in left
    ensures Lasso(deps, q, i) && q[0] == p[0]
    decreases |left| - |p|
  {
    DistinctFits(p, left);
    var last := p[|p| - 1];
    assert Waits(deps, left, last);
    var d :| d in left && d in deps[last];
    if d in p {
      i :| 0 <= i < |p| && p[i] == d;
      q := p;
    } else {
      DistinctFits(p + [d], left);
      q, i := StuckEnters(deps, left, p + [d]);
    }
  }

  lemma {:induction false} DistinctFits(p: seq<Name>, s: set<Name>)
    requires Distinct(p) && forall k :: 0 <= k < |p| ==> p[k] in s
    ensures |p| <= |s|
  {
    if p != [] {
      var n := |p| - 1;
      DistinctFits(p[..n], s - {p[n]});
    }
  }

  lemma StuckIsUnsafe(deps: Deps, left: set<Name>, n: Name)
    requires AllWait(deps, left) && n in left
    ensures EntersCycle(deps, n)
  {
    var p, i := StuckEnters(deps, left, [n]);
  }

  // ── The sort ──────────────────────────────────────────────────────────

  function Elements(s: seq<Name>): set<Name> {
    set n | n in s
  }

  ghost predicate Degrees(deps: Deps, degree: map<Name, int>, done: set<Name>) {
    degree.Keys == deps.Keys && forall n :: n in deps ==> degree[n] == |deps[n] - done|
  }

  /** One rule finished for the rules not in `todo` but not yet for those in it. */
  ghost predicate DegreesMidway(deps: Deps, degree: map<Name, int>, done: set<Name>, name: Name, todo: set<Name>) {
    && degree.Keys == deps.Keys
    && forall n :: n in deps ==> degree[n] == |deps[n] - (if n in todo then done - {name} else done)|
  }

  lemma OneFewer(s: set<Name>, done: set<Name>, name: Name)
    requires name in done
    ensures |s - (done - {name})| == |s - done| + (if name in s then 1 else 0)
  {
    if name in s {
      assert s - (done - {name}) == (s - done) + {name};
    } else {
      assert s - (done - {name}) == s - done;
    }
  }

  lemma ZeroMeansDone(s: set<Name>, done: set<Name>)
    ensures |s - done| == 0 <==> s <= done
  {
    if !(s <= done) {
      var x :| x in s && x !in done;
      assert x in s - done;
    }
    if s <= done { assert s - done == {}; }
  }

  /** The queue and the sorted rules are together exactly the rules with no dependency
      outstanding. */
  ghost predicate Frontier(deps: Deps, degree: map<Name, int>, queue: seq<Name>, sorted: seq<Name>) {
    && degree.Keys == deps.Keys && Distinct(sorted + queue)
    && forall n :: n in deps ==> (degree[n] == 0 <==> n in sorted + queue)
  }

  /** The front of the queue waits for nothing, so it may come next. */
  lemma OrderedMore(deps: Deps, sorted: seq<Name>, name: Name)
    requires Ordered(deps, sorted) && name in deps && name !in sorted && deps[name] <= Elements(sorted)
    ensures Ordered(deps, sorted + [name])
  {
    var s := sorted + [name];
    forall i, d | 0 <= i < |s| && d in deps[s[i]] ensures d in s[..i] {
      if i < |sorted| { assert s[..i] == sorted[..i]; } else { assert s[..i] == sorted && d in Elements(sorted); }
    }
  }

  lemma FrontNotSorted(sorted: seq<Name>, queue: seq<Name>)
    requires Distinct(sorted + queue) && queue != []
    ensures queue[0] !in sorted
  {
    var all := sorted + queue;
    assert all[|sorted|] == queue[0];
    forall i | 0 <= i < |sorted| ensures sorted[i] != queue[0] { assert all[i] == sorted[i]; }
  }

  lemma FrontierMore(deps: Deps, degree: map<Name, int>, queue: seq<Name>, sorted: seq<Name>)
    requires Ordered(deps, sorted) && Elements(sorted + queue) <= deps.Keys && queue != []
    requires Degrees(deps, degree, Elements(sorted)) && Frontier(deps, degree, queue, sorted)
    ensures Ordered(deps, sorted + [queue[0]]) && |sorted| < |deps|
    ensures Frontier(deps, degree, queue[1..], sorted + [queue[0]])
    ensures Elements(sorted + [queue[0]]) - {queue[0]} == Elements(sorted)
    ensures Elements(sorted + [queue[0]] + queue[1..]) <= deps.Keys
  {
    var name, all := queue[0], sorted + queue;
    assert all == sorted + [name] + queue[1..];
    assert all[|sorted|] == name && name in Elements(all);
    FrontNotSorted(sorted, queue);
    ZeroMeansDone(deps[name], Elements(sorted));
    OrderedMore(deps, sorted, name);
    SortedFits(deps, sorted + [name]);
  }

  lemma SortedFits(deps: Deps, sorted: seq<Name>)
    requires Ordered(deps, sorted)
    ensures |sorted| <= |deps|
  {
    DistinctFits(sorted, deps.Keys);
    assert |deps| == |deps.Keys|;
  }

  lemma MidwayStep(deps: Deps, degree: map<Name, int>, done: set<Name>, name: Name, todo: set<Name>, other: Name)
    requires DegreesMidway(deps, degree, done, name, todo) && other in todo && todo <= deps.Keys && name in done
    ensures name in deps[other] ==> DegreesMidway(deps, degree[other := degree[other] - 1], done, name, todo - {other})
    ensures name !in deps[other] ==> DegreesMidway(deps, degree, done, name, todo - {other})
    ensures name in deps[other] ==> degree[other] > 0
  {
    OneFewer(deps[other], done, name);
  }

  /** The rules that wait for nothing, in no particular order. */
  method ReadyRules(deps: Deps, degree: map<Name, int>) returns (queue: seq<Name>)
    requires degree.Keys == deps.Keys
    ensures Frontier(deps, degree, queue, []) && Elements(queue) <= deps.Keys
  {
    queue := [];
    var todo := degree.Keys;
    while todo != {}
      invariant todo <= deps.Keys && Distinct(queue)
      invariant forall n :: n in queue <==> n in deps && n !in todo && degree[n] == 0
      decreases |todo|
    {
      var name :| name in todo;
      todo := todo - {name};
      if degree[name] == 0 { queue := queue + [name]; }
    }
    assert [] + queue == queue;
  }

  /** The inner loop: every rule that depends on `name` has one dependency fewer to wait
      for, and joins the queue when it was the last. */
  method Finish(deps: Deps, degree0: map<Name, int>, queue0: seq<Name>, sorted: seq<Name>, name: Name)
    returns (degree: map<Name, int>, queue: seq<Name>)
    requires name in sorted && Elements(sorted + queue0) <= deps.Keys
    requires Degrees(deps, degree0, Elements(sorted) - {name}) && Frontier(deps, degree0, queue0, sorted)
    ensures Degrees(deps, degree, Elements(sorted)) && Frontier(deps, degree, queue, sorted)
    ensures Elements(sorted + queue) <= deps.Keys
  {
    degree, queue := degree0, queue0;
    hide DegreesMidway, Frontier, Degrees;
    ghost var done := Elements(sorted);
    var todo := deps.Keys;
    MidwayEnds(deps, degree, done, name);
    while todo != {}
      invariant todo <= deps.Keys && DegreesMidway(deps, degree, done, name, todo)
      invariant Frontier(deps, degree, queue, sorted) && Elements(sorted + queue) <= deps.Keys
      decreases |todo|
    {
      var other :| other in todo;
      MidwayStep(deps, degree, done, name, todo, other);
      todo := todo - {other};
      if name in deps[other] {
        Fewer(deps, degree, queue, sorted, other);
        degree := degree[other := degree[other] - 1];
        if degree[other] == 0 { queue := queue + [other]; }
      }
    }
  }

  lemma MidwayEnds(deps: Deps, degree: map<Name, int>, done: set<Name>, name: Name)
    ensures Degrees(deps, degree, done - {name}) ==> DegreesMidway(deps, degree, done, name, deps.Keys)
    ensures forall later: map<Name, int> :: DegreesMidway(deps, later, done, name, {}) ==> Degrees(deps, later, done)
  {}

  /** A degree that falls to nothing is the moment its rule joins the queue. */
  lemma Fewer(deps: Deps, degree: map<Name, int>, queue: seq<Name>, sorted: seq<Name>, other: Name)
    requires Frontier(deps, degree, queue, sorted) && other in deps && degree[other] > 0
    requires Elements(sorted + queue) <= deps.Keys
    ensures var less := degree[other := degree[other] - 1];
            && other in degree
            && (less[other] != 0 ==> Frontier(deps, less, queue, sorted))
            && (less[other] == 0 ==> Frontier(deps, less, queue + [other], sorted)
                                     && Elements(sorted + (queue + [other])) <= deps.Keys)
  {
    var all := sorted + queue;
    assert sorted + (queue + [other]) == all + [other];
    assert other !in all;
    var less := degree[other := degree[other] - 1];
    forall n | n in deps && n != other ensures less[n] == degree[n] {}
  }

  /** A rule that still waits has a dependency not sorted yet. */
  lemma OneLeft(deps: Deps, degree: map<Name, int>, done: set<Name>, n: Name)
    requires Degrees(deps, degree, done) && n in deps
    ensures degree[n] >= 0
    ensures degree[n] > 0 ==> exists d :: d in deps[n] && d !in done
  {
    ZeroMeansDone(deps[n], done);
  }

  lemma SortedWaitNot(deps: Deps, degree: map<Name, int>, sorted: seq<Name>, n: Name)
    requires Frontier(deps, degree, [], sorted) && n in deps
    ensures n in degree && (degree[n] == 0 <==> n in sorted)
  {
    assert sorted + [] == sorted;
  }

  lemma LeftWait(deps: Deps, degree: map<Name, int>, sorted: seq<Name>, stuck: set<Name>)
    requires Closed(deps) && Degrees(deps, degree, Elements(sorted)) && Frontier(deps, degree, [], sorted)
    requires forall n :: n in stuck <==> n in deps && degree[n] > 0
    ensures stuck == deps.Keys - Elements(sorted) && AllWait(deps, stuck)
  {
    hide Degrees, Frontier;
    forall n | n in deps ensures n in stuck <==> n !in Elements(sorted) {
      OneLeft(deps, degree, Elements(sorted), n);
      SortedWaitNot(deps, degree, sorted, n);
    }
    forall n | n in stuck ensures Waits(deps, stuck, n) {
      OneLeft(deps, degree, Elements(sorted), n);
      var d :| d in deps[n] && d !in Elements(sorted);
      assert d in stuck;
    }
  }

  lemma SortedDistinct(deps: Deps, sorted: seq<Name>)
    requires Ordered(deps, sorted)
    ensures Distinct(sorted)
  {}

  lemma SortEnds(deps: Deps, degree: map<Name, int>, sorted: seq<Name>, stuck: set<Name>)
    requires Closed(deps) && Ordered(deps, sorted) && Elements(sorted) <= deps.Keys
    requires Degrees(deps, degree, Elements(sorted)) && Frontier(deps, degree, [], sorted)
    requires forall n :: n in stuck <==> n in deps && degree[n] > 0
    ensures |sorted| == |deps| <==> Acyclic(deps)
    ensures |sorted| == |deps| ==> Elements(sorted) == deps.Keys
    ensures forall n :: n in stuck <==> n in deps && EntersCycle(deps, n)
    ensures |sorted| == |deps| <==> stuck == {}
  {
    hide EntersCycle, Acyclic, AllWait, Ordered, Degrees, Frontier;
    LeftWait(deps, degree, sorted, stuck);
    SortedDistinct(deps, sorted);
    forall n | n in deps ensures n in stuck <==> EntersCycle(deps, n) {
      if n in stuck { StuckIsUnsafe(deps, stuck, n); } else { SortedIsSafe(deps, sorted, n); }
    }
    ElementCount(sorted);
    assert |deps| == |deps.Keys|;
    SameSize(Elements(sorted), deps.Keys);
    CyclesShow(deps, stuck);
  }

  lemma CyclesShow(deps: Deps, stuck: set<Name>)
    requires forall n :: n in stuck <==> n in deps && EntersCycle(deps, n)
    ensures Acyclic(deps) <==> stuck == {}
  {
    if stuck != {} {
      var n :| n in stuck;
      var p: seq<Name>, i: nat :| Lasso(deps, p, i) && p[0] == n;
      LassoHasCycle(deps, p, i);
    }
    if !Acyclic(deps) {
      var p :| Cycle(deps, p);
      CycleIsLasso(deps, p);
      assert p[0] in stuck;
    }
  }

  lemma {:induction false} ElementCount(s: seq<Name>)
    requires Distinct(s)
    ensures |Elements(s)| == |s|
  {
    if s != [] {
      var n := |s| - 1;
      ElementCount(s[..n]);
      assert s == s[..n] + [s[n]];
      assert Elements(s) == Elements(s[..n]) + {s[n]};
    }
  }

  lemma SameSize(s: set<Name>, r: set<Name>)
    requires s <= r
    ensures |s| == |r| <==> s == r
  {
    assert r == s + (r - s);
    assert |r| == |s| + |r - s|;
    if s != r {
      var x :| x in r && x !in s;
      assert x in r - s;
    }
  }

  lemma NothingDone(deps: Deps, degree: map<Name, int>, queue: seq<Name>)
    requires degree == map n | n in deps :: |deps[n]|
    ensures Degrees(deps, degree, Elements([])) && [] + queue == queue
  {
    forall n | n in deps ensures deps[n] - Elements([]) == deps[n] {}
  }

  /** topological_sort. `stuck` are the rules reported as involved in a cycle. */
  method TopologicalSort(deps: Deps) returns (ok: bool, sorted: seq<Name>, stuck: set<Name>)
    requires Closed(deps)
    ensures ok <==> Acyclic(deps)
    ensures ok ==> Ordered(deps, sorted) && Elements(sorted) == deps.Keys
    ensures forall n :: n in stuck <==> n in deps && EntersCycle(deps, n)
    ensures ok <==> stuck == {}
  {
    var degree: map<Name, int> := map n | n in deps :: |deps[n]|;
    var queue := ReadyRules(deps, degree);
    sorted := [];
    NothingDone(deps, degree, queue);
    while queue != []
      invariant Elements(sorted + queue) <= deps.Keys && Ordered(deps, sorted)
      invariant Degrees(deps, degree, Elements(sorted)) && Frontier(deps, degree, queue, sorted)
      decreases |deps| - |sorted|
    {
      var name := queue[0];
      FrontierMore(deps, degree, queue, sorted);
      queue, sorted := queue[1..], sorted + [name];
      degree, queue := Finish(deps, degree, queue, sorted, name);
    }
    stuck := set n | n in deps && degree[n] > 0;
    ok := |sorted| == |deps|;
    SortEnds(deps, degree, sorted, stuck);
  }
}
