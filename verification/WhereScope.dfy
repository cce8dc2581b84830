/** A failing `where` jumps straight to a handler fixed at compile time, past whatever frames
    stand in between. Exactly when that ends where fail() would have ended, for every kind of
    handler and across rule calls. */
module WhereScope {
  import opened Syntax
  import opened Machine
  import opened Compile
  import opened Runs
  import opened World

  // ── What a `where` stands inside of ───────────────────────────────────

  /** One construct around the `where`, or the call of the rule it stands in, innermost
      first. Each has one frame while the `where` runs. */
  datatype Scope =
    | Called
    | EarlierArm(link: Label)
    | LastArm(exhausted: Label)
    | OptionalBody(skip: Label)
    | Element
    | Resynced(handler: Label)

  /** The lexical scope the `where` is compiled in. The last arm leaves no trace in it. */
  function RhoOf(scs: seq<Scope>): Rho {
    if scs == [] then Root
    else
      match scs[0]
      case Called => Root
      case EarlierArm(l) => InAlt(l, RhoOf(scs[1..]))
      case LastArm(_) => RhoOf(scs[1..])
      case OptionalBody(l) => InOptional(l, RhoOf(scs[1..]))
      case Element => InArrayElem(None, RhoOf(scs[1..]))
      case Resynced(l) => InArrayElem(Some(l), if |scs| > 1 then RhoOf(scs[2..]) else Root)
  }

  function Target(scs: seq<Scope>): Option<Label> {
    if scs == [] then None
    else
      match scs[0]
      case Called => None
      case EarlierArm(l) => Some(l)
      case OptionalBody(l) => Some(l)
      case Resynced(l) => Some(l)
      case LastArm(_) => Target(scs[1..])
      case Element => Target(scs[1..])
  }

  lemma {:induction false} BacktrackTargetIs(scs: seq<Scope>)
    ensures BacktrackTarget(RhoOf(scs)) == Target(scs)
  {
    if scs != [] {
      if scs[0].LastArm? || scs[0].Element? { BacktrackTargetIs(scs[1..]); }
    }
  }

  /** A savepoint taken on the spine, at a log no longer than `mark`. */
  predicate SavedAt(p: Program, f: Frame, l: Label, mark: nat) {
    f.SaveF? && f.onFail == Some(l) && f.ksize == 0 && f.mark <= mark && l < |p.code|
  }

  /** The frames that stand while a `where` in these scopes runs, and their handlers. */
  predicate Stack(p: Program, scs: seq<Scope>, fs: seq<Frame>, mark: nat) {
    |fs| == |scs|
    && (scs != [] ==>
          match scs[0]
          case Called => fs[0].ReturnF? && fs[0].failTarget == Target(scs[1..]) && Stack(p, scs[1..], fs[1..], mark)
          case Element => fs[0].LoopF? && Stack(p, scs[1..], fs[1..], mark)
          case EarlierArm(l) =>
            SavedAt(p, fs[0], l, mark) && p.code[l].OnFail? && p.code[l].target.Some? && !p.code[l].pop
            && Stack(p, scs[1..], fs[1..], fs[0].mark)
          case LastArm(l) =>
            SavedAt(p, fs[0], l, mark) && p.code[l].OnFail? && p.code[l].target.None? && Stack(p, scs[1..], fs[1..], fs[0].mark)
          case OptionalBody(l) =>
            SavedAt(p, fs[0], l, mark) && p.code[l].OnFail? && p.code[l].target.Some? && p.code[l].pop
            && Stack(p, scs[1..], fs[1..], fs[0].mark)
          case Resynced(l) =>
            SavedAt(p, fs[0], l, mark) && p.code[l].Resync? && p.code[l].body != p.code[l].endNode
            && Stack(p, scs[1..], fs[1..], fs[0].mark))
  }

  /** The label a false check goes to: the static target, or the rule's abort node. */
  predicate Onto(p: Program, scs: seq<Scope>, l: Label) {
    l < |p.code| && if Target(scs).Some? then l == Target(scs).value else p.code[l].AbortRule?
  }

  // ── Where the two routes end ──────────────────────────────────────────

  function Clean(s: State): State { s.(k := [], frames := [], best := 0) }

  /** A counted loop that has not had all its elements. */
  predicate Short(fs: seq<Frame>) {
    fs != [] && fs[0].LoopF? && fs[0].limit >= 0 && fs[0].counter < fs[0].limit
  }

  predicate AtEnd(p: Program, c: State, f: Frame)
    requires f.SaveF?
  {
    var r := Restore(c, f);
    r.pos >= EffHi(p, r)
  }

  /** What the handler n makes of the state c under frames fs: it acts on the innermost
      savepoint, whosever that is. Nothing when the failure reaches the bottom. */
  function Handle(p: Program, c: State, n: Node, fs: seq<Frame>): Option<State>
    decreases |fs|, 0
  {
    var i := FindSave(fs);
    if i == |fs| then None
    else
      var f, below := fs[i], fs[i + 1..];
      var r := Restore(c, f);
      match n
      case OnFail(target, nextOnFail, pop) =>
        if target.None? then Land(p, c, below)
        else Some(Go(r.(frames := if pop then below else fs[i := f.(onFail := nextOnFail)]), target.value))
      case Resync(body, endNode) =>
        if AtEnd(p, c, f) then
          if Short(below) then Land(p, c, below) else Some(Go(r.(frames := below), endNode))
        else
          var r2 := r.(pos := r.pos + 1);
          Some(Go(r2.(frames := fs[i := Savepoint(r2, 0).(onFail := f.onFail)]), body))
      case _ => None
  }

  /** fail(): the handlers of the armed savepoints, innermost first, until one resumes. */
  function Land(p: Program, c: State, fs: seq<Frame>): Option<State>
    decreases |fs|, 1
  {
    if fs == [] then None
    else if !Armed(fs[0]) || fs[0].onFail.value >= |p.code| then Land(p, c, fs[1..])
    else Handle(p, c, p.code[fs[0].onFail.value], fs)
  }

  /** The jump: the handler at once, or first the walk to the caller's fail target. */
  function AfterJump(p: Program, c: State, l: Label, fs: seq<Frame>): Option<State>
    requires l < |p.code|
  {
    if p.code[l].AbortRule? then
      var i := FindAbort(fs);
      if i == |fs| then Land(p, c, fs)
      else if fs[i].failTarget.value >= |p.code| then None
      else Handle(p, c, p.code[fs[i].failTarget.value], fs[i + 1..])
    else Handle(p, c, p.code[l], fs)
  }

  // ── When they agree ───────────────────────────────────────────────────

  /** The `where`'s own scopes decide, or its caller's when none of them can be jumped to.
      Under an earlier arm, an optional body or a resynced element the routes agree. Through
      a plain element they agree when the target is an optional body; under a last arm or
      towards a resync handler only by accident of where the savepoint stood. */
  predicate Agrees(p: Program, c: State, scs: seq<Scope>, fs: seq<Frame>)
    requires |fs| == |scs|
    decreases |scs|
  {
    if scs == [] then true
    else if scs[0].Called? then Agrees(p, c, scs[1..], fs[1..])
    else if !scs[0].Element? && !scs[0].LastArm? then true
    else if Target(scs).None? then Agrees(p, c, scs[1..], fs[1..])
    else
      var i := FindSave(fs);
      i < |fs|
      && match scs[i]
         case OptionalBody(_) => true
         case Resynced(_) => AtEnd(p, c, fs[i])
         case LastArm(_) => Target(scs).value < |p.code| && p.code[Target(scs).value].Resync? && AtEnd(p, c, fs[i]) && Short(fs[i + 1..])
         case _ => false
  }

  // ── The proof ─────────────────────────────────────────────────────────

  /** A handler resumes with no more frames than it found. */
  lemma {:induction false} LandShorter(p: Program, c: State, fs: seq<Frame>)
    ensures Land(p, c, fs).Some? ==> |Land(p, c, fs).value.frames| <= |fs|
    decreases |fs|, 1
  {
    if fs != [] {
      if !Armed(fs[0]) || fs[0].onFail.value >= |p.code| {
        LandShorter(p, c, fs[1..]);
      } else {
        HandleShorter(p, c, p.code[fs[0].onFail.value], fs);
      }
    }
  }

  lemma {:induction false} HandleShorter(p: Program, c: State, n: Node, fs: seq<Frame>)
    ensures Handle(p, c, n, fs).Some? ==> |Handle(p, c, n, fs).value.frames| <= |fs|
    decreases |fs|, 0
  {
    hide Restore, AtEnd;
    var i := FindSave(fs);
    if i < |fs| { LandShorter(p, c, fs[i + 1..]); }
  }

  lemma {:induction false} TargetIsHandler(p: Program, scs: seq<Scope>, fs: seq<Frame>, mark: nat)
    requires Stack(p, scs, fs, mark) && Target(scs).Some?
    ensures Target(scs).value < |p.code|
    ensures var n := p.code[Target(scs).value]; (n.OnFail? && n.target.Some?) || (n.Resync? && n.body != n.endNode)
  {
    if scs[0].Element? { TargetIsHandler(p, scs[1..], fs[1..], mark); }
    if scs[0].LastArm? { TargetIsHandler(p, scs[1..], fs[1..], fs[0].mark); }
  }

  /** With a target in reach, every frame above its savepoint lets the failure through. */
  lemma {:induction false} LandsAtTarget(p: Program, c: State, scs: seq<Scope>, fs: seq<Frame>, mark: nat) returns (m: nat)
    requires Stack(p, scs, fs, mark) && Target(scs).Some?
    ensures m < |fs| && fs[m].SaveF? && fs[m].onFail == Target(scs) && Target(scs).value < |p.code|
    ensures m == 0 <==> !scs[0].Element? && !scs[0].LastArm?
    ensures Land(p, c, fs) == Handle(p, c, p.code[Target(scs).value], fs[m..])
  {
    hide Restore, AtEnd;
    if scs[0].Element? || scs[0].LastArm? {
      var under := if scs[0].LastArm? then fs[0].mark else mark;
      var m1 := LandsAtTarget(p, c, scs[1..], fs[1..], under);
      m := m1 + 1;
      assert fs[1..][m1..] == fs[m..];
      assert fs[0 + 1..] == fs[1..];
    } else {
      m := 0;
      assert fs[0..] == fs;
    }
  }

  /** The innermost savepoint, below the plain elements. */
  lemma {:induction false} FirstSave(p: Program, c: State, scs: seq<Scope>, fs: seq<Frame>, mark: nat)
    requires Stack(p, scs, fs, mark) && Target(scs).Some?
    ensures var i := FindSave(fs);
            && i < |fs| && Stack(p, scs[i..], fs[i..], mark) && Target(scs[i..]) == Target(scs) && Land(p, c, fs) == Land(p, c, fs[i..])
            && !scs[i].Element? && !scs[i].Called? && (i > 0 <==> scs[0].Element?)
  {
    hide Handle;
    if scs[0].Element? {
      FirstSave(p, c, scs[1..], fs[1..], mark);
      var i := FindSave(fs[1..]);
      assert scs[1..][i..] == scs[i + 1..] && fs[1..][i..] == fs[i + 1..];
    } else {
      assert scs[0..] == scs && fs[0..] == fs;
    }
  }

  /** The jump to the target of an own savepoint, with elements in between. */
  lemma OwnSave(p: Program, c: State, scs: seq<Scope>, fs: seq<Frame>, mark: nat, i: nat)
    requires Stack(p, scs, fs, mark) && Target(scs).Some? && i == FindSave(fs) && 0 < i < |fs|
    requires Stack(p, scs[i..], fs[i..], mark) && Target(scs[i..]) == Target(scs)
    requires !scs[i].Element? && !scs[i].Called? && !scs[i].LastArm?
    ensures Target(scs).value < |p.code|
    ensures Handle(p, c, p.code[Target(scs).value], fs) == Land(p, c, fs[i..])
            <==> scs[i].OptionalBody? || (scs[i].Resynced? && AtEnd(p, c, fs[i]))
  {
    hide Restore, AtEnd;
    assert fs[i..][0] == fs[i] && scs[i..][0] == scs[i] && fs[i..][1..] == fs[i + 1..];
    assert FindSave(fs[i..]) == 0 && fs[i..][0 + 1..] == fs[i + 1..];
    var n := p.code[Target(scs).value];
    var a, b := Handle(p, c, n, fs), Handle(p, c, n, fs[i..]);
    assert Land(p, c, fs[i..]) == b;
    hide Land;
    if scs[i].EarlierArm? {
      assert |a.value.frames| == |fs| && |b.value.frames| == |fs[i..]|;
    } else if scs[i].Resynced? && !AtEnd(p, c, fs[i]) {
      assert |a.value.frames| == |fs| && |b.value.frames| == |fs[i..]|;
    }
  }

  /** The jump past a last arm: its savepoint is taken for the target's. */
  lemma ForeignSave(p: Program, c: State, scs: seq<Scope>, fs: seq<Frame>, mark: nat, i: nat)
    requires |scs| == |fs| && Stack(p, scs, fs, mark) && Target(scs).Some? && i == FindSave(fs) < |fs|
    requires Stack(p, scs[i..], fs[i..], mark) && Target(scs[i..]) == Target(scs) && scs[i].LastArm?
    ensures Target(scs).value < |p.code|
    ensures Handle(p, c, p.code[Target(scs).value], fs) == Land(p, c, fs[i..])
            <==> p.code[Target(scs).value].Resync? && AtEnd(p, c, fs[i]) && Short(fs[i + 1..])
  {
    hide Restore, AtEnd, Stack, Land, Handle;
    assert fs[i..][0] == fs[i] && scs[i..][0] == scs[i] && fs[i..][1..] == fs[i + 1..] && scs[i..][1..] == scs[i + 1..];
    TargetIsHandler(p, scs, fs, mark);
    LastArmPasses(p, c, scs[i..], fs[i..], mark);
    var m := LandsAtTarget(p, c, scs[i + 1..], fs[i + 1..], fs[i].mark);
    assert fs[i + 1..][m..] == fs[i + 1 + m..];
    TargetHandles(p, c, p.code[Target(scs).value], fs, i, i + 1 + m);
  }

  lemma LastArmPasses(p: Program, c: State, scs: seq<Scope>, fs: seq<Frame>, mark: nat)
    requires Stack(p, scs, fs, mark) && scs != [] && scs[0].LastArm?
    ensures Land(p, c, fs) == Land(p, c, fs[1..]) && Stack(p, scs[1..], fs[1..], fs[0].mark) && Target(scs) == Target(scs[1..])
  {
    assert fs[0 + 1..] == fs[1..];
  }

  lemma TargetHandles(p: Program, c: State, n: Node, fs: seq<Frame>, i: nat, m: nat)
    requires i == FindSave(fs) < m < |fs| && fs[m].SaveF?
    requires (n.OnFail? && n.target.Some?) || (n.Resync? && n.body != n.endNode)
    ensures n.Resync? && AtEnd(p, c, fs[i]) && Short(fs[i + 1..]) ==> Handle(p, c, n, fs) == Land(p, c, fs[i + 1..])
    ensures Handle(p, c, n, fs) == Handle(p, c, n, fs[m..]) ==> n.Resync? && AtEnd(p, c, fs[i]) && Short(fs[i + 1..])
  {
    hide Restore, AtEnd;
    HandleShorter(p, c, n, fs[m..]);
    assert FindSave(fs[m..]) == 0 && fs[m..][0 + 1..] == fs[m + 1..];
    LandShorter(p, c, fs[m + 1..]);
    var a, b := Handle(p, c, n, fs), Handle(p, c, n, fs[m..]);
    hide Land;
    if n.Resync? && AtEnd(p, c, fs[i]) && !Short(fs[i + 1..]) {
      assert a.Some? && |a.value.frames| == |fs| - i - 1;
      assert a.value.k[|a.value.k| - 1] == Sp(n.endNode);
      if !AtEnd(p, c, fs[m]) {
        assert b.Some? && b.value.k[|b.value.k| - 1] == Sp(n.body);
      }
    }
  }

  /** A false `where` ends where fail() would have exactly when its scopes agree. */
  lemma {:induction false} JumpAgreesIff(p: Program, c: State, scs: seq<Scope>, fs: seq<Frame>, mark: nat, l: Label)
    requires Stack(p, scs, fs, mark) && Onto(p, scs, l)
    ensures AfterJump(p, c, l, fs) == Land(p, c, fs) <==> Agrees(p, c, scs, fs)
  {
    hide Restore, AtEnd, Handle;
    if scs != [] {
      if Target(scs).None? {
        AbortOn(p, c, scs, fs, mark, l);
        var next := if Target(scs[1..]).Some? then Target(scs[1..]).value else l;
        JumpAgreesIff(p, c, scs[1..], fs[1..], if scs[0].LastArm? then fs[0].mark else mark, if scs[0].Called? then next else l);
      } else if scs[0].Element? || scs[0].LastArm? {
        TargetIsHandler(p, scs, fs, mark);
        FirstSave(p, c, scs, fs, mark);
        var i := FindSave(fs);
        if scs[i].LastArm? { ForeignSave(p, c, scs, fs, mark, i); } else { OwnSave(p, c, scs, fs, mark, i); }
      }
    }
  }

  /** With nothing to jump to, the abort leaves the innermost frame behind as fail() does. */
  lemma AbortOn(p: Program, c: State, scs: seq<Scope>, fs: seq<Frame>, mark: nat, l: Label)
    requires Stack(p, scs, fs, mark) && Onto(p, scs, l) && scs != [] && Target(scs).None?
    ensures Land(p, c, fs) == Land(p, c, fs[1..])
    ensures var next := if Target(scs[1..]).Some? then Target(scs[1..]).value else l;
            && Onto(p, scs[1..], if scs[0].Called? then next else l)
            && AfterJump(p, c, l, fs) == AfterJump(p, c, if scs[0].Called? then next else l, fs[1..])
  {
    hide Restore, AtEnd;
    assert fs[0 + 1..] == fs[1..];
    if scs[0].Called? && Target(scs[1..]).Some? { TargetIsHandler(p, scs[1..], fs[1..], mark); }
    if scs[0].LastArm? { LastArmPasses(p, c, scs, fs, mark); }
    hide Handle, Land, Stack;
    AbortSkips(fs);
  }

  lemma AbortSkips(fs: seq<Frame>)
    requires fs != []
    ensures fs[0].ReturnF? && fs[0].failTarget.Some? ==> FindAbort(fs) == 0
    ensures !(fs[0].ReturnF? && fs[0].failTarget.Some?) ==> FindAbort(fs) == 1 + FindAbort(fs[1..])
    ensures FindAbort(fs) < |fs| && FindAbort(fs) > 0 ==> fs[FindAbort(fs) + 1..] == fs[1..][FindAbort(fs)..]
  {}

  // ── The machine gets there ────────────────────────────────────────────

  /** t is the state o, but for the recorded error position; or the parse has failed. */
  predicate Arrives(t: State, o: Option<State>) {
    if o.None? then t.failed else t.(best := 0) == o.value
  }

  lemma {:induction false} BelowSave(p: Program, scs: seq<Scope>, fs: seq<Frame>, mark: nat)
    requires Stack(p, scs, fs, mark)
    ensures |fs| == |scs|
    ensures var i := FindSave(fs);
            && (i == |fs| ==> Unwind(fs) == [])
            && (i < |fs| ==> Armed(fs[i]) && SavedAt(p, fs[i], fs[i].onFail.value, mark) && Stack(p, scs[i + 1..], fs[i + 1..], fs[i].mark)
                             && Unwind(fs) == fs[i..] && (p.code[fs[i].onFail.value].OnFail? || p.code[fs[i].onFail.value].Resync?))
  {
    if scs != [] {
      if scs[0].Called? || scs[0].Element? {
        BelowSave(p, scs[1..], fs[1..], mark);
        var i := FindSave(fs[1..]);
        if i < |fs[1..]| { assert scs[1..][i + 1..] == scs[i + 2..] && fs[1..][i + 1..] == fs[i + 2..] && fs[1..][i..] == fs[i + 1..]; }
      } else {
        assert fs[0..] == fs;
      }
    }
  }

  /** A savepoint restored first leaves what an outer one restores. */
  lemma {:induction false} LandRestored(p: Program, c: State, f: Frame, scs: seq<Scope>, fs: seq<Frame>)
    requires f.SaveF? && f.ksize == 0 && f.mark <= |c.log| && c.k == [] && Stack(p, scs, fs, f.mark)
    ensures Land(p, Restore(c, f), fs) == Land(p, c, fs)
    decreases |fs|
  {
    hide Handle;
    if fs != [] {
      if !fs[0].SaveF? {
        LandRestored(p, c, f, scs[1..], fs[1..]);
      } else {
        HandleRestored(p, c, f, p.code[fs[0].onFail.value], scs, fs);
      }
    }
  }

  lemma {:induction false} HandleRestored(p: Program, c: State, f: Frame, n: Node, scs: seq<Scope>, fs: seq<Frame>)
    requires f.SaveF? && f.ksize == 0 && f.mark <= |c.log| && c.k == [] && Stack(p, scs, fs, f.mark) && fs != [] && fs[0].SaveF?
    ensures Handle(p, Restore(c, f), n, fs) == Handle(p, c, n, fs)
    decreases |fs|, 0
  {
    BelowSave(p, scs, fs, f.mark);
    assert fs[0 + 1..] == fs[1..];
    assert Restore(Restore(c, f), fs[0]) == Restore(c, fs[0]) by { assert c.log[..f.mark][..fs[0].mark] == c.log[..fs[0].mark]; }
    assert AtEnd(p, Restore(c, f), fs[0]) == AtEnd(p, c, fs[0]);
    Relaxed(p, scs[1..], fs[1..], fs[0].mark, f.mark);
    LandRestored(p, c, f, scs[1..], fs[1..]);
    hide Land, Restore, AtEnd, Stack;
  }

  lemma {:induction false} Relaxed(p: Program, scs: seq<Scope>, fs: seq<Frame>, mark: nat, more: nat)
    requires Stack(p, scs, fs, mark) && mark <= more
    ensures Stack(p, scs, fs, more)
  {
    if scs != [] && (scs[0].Called? || scs[0].Element?) { Relaxed(p, scs[1..], fs[1..], mark, more); }
  }

  lemma {:induction false} FailReaches(p: Program, s: State, scs: seq<Scope>, mark: nat) returns (n: nat)
    requires s.k == [] && !s.failed && Stack(p, scs, s.frames, mark) && mark <= |s.log|
    ensures Arrives(Steps(p, Fail(s), n), Land(p, Clean(s), s.frames))
    decreases |s.frames|, 1
  {
    hide Step, Handle, Stack, Restore;
    BelowSave(p, scs, s.frames, mark);
    var i := FindSave(s.frames);
    LandSkips(p, Clean(s), s.frames);
    n := 0;
    if i < |s.frames| {
      var s1 := Fail(s).(k := []);
      FromSave(p, scs, s.frames, mark, i);
      n := HandleReaches(p, s1, scs[i..], mark, s.frames[i].onFail.value);
    }
  }

  lemma {:induction false} FromSave(p: Program, scs: seq<Scope>, fs: seq<Frame>, mark: nat, i: nat)
    requires Stack(p, scs, fs, mark) && i == FindSave(fs) < |fs|
    ensures Stack(p, scs[i..], fs[i..], mark)
  {
    if i > 0 {
      FromSave(p, scs[1..], fs[1..], mark, i - 1);
      assert scs[1..][i - 1..] == scs[i..] && fs[1..][i - 1..] == fs[i..];
    } else {
      assert scs[0..] == scs && fs[0..] == fs;
    }
  }

  lemma {:induction false} LandSkips(p: Program, c: State, fs: seq<Frame>)
    ensures var i := FindSave(fs);
            && (i == |fs| ==> Land(p, c, fs) == None)
            && (i < |fs| && Armed(fs[i]) && fs[i].onFail.value < |p.code| ==> Land(p, c, fs) == Handle(p, c, p.code[fs[i].onFail.value], fs[i..]))
  {
    hide Handle;
    if fs != [] {
      if fs[0].SaveF? {
        assert fs[0..] == fs;
      } else {
        LandSkips(p, c, fs[1..]);
        var i := FindSave(fs[1..]);
        if i < |fs[1..]| { assert fs[1..][i..] == fs[i + 1..]; }
      }
    }
  }

  /** A handler run by the machine. */
  lemma {:induction false} HandleReaches(p: Program, s: State, scs: seq<Scope>, mark: nat, l: Label) returns (n: nat)
    requires s.k == [] && !s.failed && Stack(p, scs, s.frames, mark) && mark <= |s.log|
    requires l < |p.code| && (p.code[l].OnFail? || p.code[l].Resync?)
    ensures Arrives(Steps(p, Go(s, l), n), Handle(p, Clean(s), p.code[l], s.frames))
    decreases |s.frames|, 0
  {
    hide Step, StepNode, StepOnFail, StepResync, Land, Stack, Handle, Restore, AtEnd, Short;
    HandlerStep(p, Go(s, l), [], l);
    assert Go(s, l).(k := []) == s;
    BelowSave(p, scs, s.frames, mark);
    n := 1;
    var i := FindSave(s.frames);
    HandlerActs(p, s, p.code[l], i);
    if i < |s.frames| && PassesOn(p, s, p.code[l], i) {
      var f, below := s.frames[i], s.frames[i + 1..];
      RestoredClean(s, f, below);
      var n1 := FailReaches(p, Restore(s, f).(frames := below), scs[i + 1..], f.mark);
      LandRestored(p, Clean(s), f, scs[i + 1..], below);
      n := 1 + n1;
    }
  }

  /** The handler of the savepoint at i has nothing left to try. */
  predicate PassesOn(p: Program, s: State, n: Node, i: nat)
    requires i < |s.frames| && s.frames[i].SaveF? && (n.OnFail? || n.Resync?)
  {
    if n.OnFail? then n.target.None? else AtEnd(p, Clean(s), s.frames[i]) && Short(s.frames[i + 1..])
  }

  lemma RestoredClean(s: State, f: Frame, below: seq<Frame>)
    requires f.SaveF? && f.ksize == 0 && f.mark <= |s.log|
    ensures var r := Restore(s, f).(frames := below);
            Clean(r) == Restore(Clean(s), f) && r.k == [] && f.mark <= |r.log| && r.failed == s.failed
  {}

  lemma OnFailActs(p: Program, s: State, n: Node, i: nat)
    requires s.k == [] && !s.failed && n.OnFail? && i == FindSave(s.frames) < |s.frames| && s.frames[i].ksize == 0
    ensures var t := StepOnFail(s, n.target, n.nextOnFail, n.pop);
            if n.target.None?
            then t == Fail(Restore(s, s.frames[i]).(frames := s.frames[i + 1..]))
                 && Handle(p, Clean(s), n, s.frames) == Land(p, Clean(s), s.frames[i + 1..])
            else Arrives(t, Handle(p, Clean(s), n, s.frames))
  {
    hide Land, Fail;
  }

  lemma ResyncActs(p: Program, s: State, n: Node, i: nat)
    requires s.k == [] && !s.failed && n.Resync? && i == FindSave(s.frames) < |s.frames| && s.frames[i].ksize == 0
    ensures var t := StepResync(p, s, n.body, n.endNode);
            if PassesOn(p, s, n, i)
            then t == Fail(Restore(s, s.frames[i]).(frames := s.frames[i + 1..]))
                 && Handle(p, Clean(s), n, s.frames) == Land(p, Clean(s), s.frames[i + 1..])
            else Arrives(t, Handle(p, Clean(s), n, s.frames))
  {
    hide Land, Fail;
    assert EffHi(p, Restore(Clean(s), s.frames[i])) == EffHi(p, Restore(s, s.frames[i]));
  }

  lemma HandlerActs(p: Program, s: State, n: Node, i: nat)
    requires s.k == [] && !s.failed && (n.OnFail? || n.Resync?) && i == FindSave(s.frames) && (i == |s.frames| ==> Unwind(s.frames) == [])
    requires i < |s.frames| ==> s.frames[i].ksize == 0
    ensures var t := if n.OnFail? then StepOnFail(s, n.target, n.nextOnFail, n.pop) else StepResync(p, s, n.body, n.endNode);
            if i < |s.frames| && PassesOn(p, s, n, i)
            then t == Fail(Restore(s, s.frames[i]).(frames := s.frames[i + 1..]))
                 && Handle(p, Clean(s), n, s.frames) == Land(p, Clean(s), s.frames[i + 1..])
            else Arrives(t, Handle(p, Clean(s), n, s.frames))
  {
    hide Land, Restore, AtEnd, Short, ResyncEnd;
    if i < |s.frames| {
      if n.OnFail? { OnFailActs(p, s, n, i); } else { ResyncActs(p, s, n, i); }
    }
  }

  lemma {:induction false} AbortMark(p: Program, scs: seq<Scope>, fs: seq<Frame>, mark: nat) returns (under: nat)
    requires Stack(p, scs, fs, mark) && FindAbort(fs) < |fs|
    ensures |fs| == |scs|
    ensures var i := FindAbort(fs);
            && under <= mark && Stack(p, scs[i + 1..], fs[i + 1..], under) && fs[i].failTarget.value < |p.code|
            && var n := p.code[fs[i].failTarget.value]; n.OnFail? || n.Resync?
  {
    if FindAbort(fs) == 0 {
      under := mark;
      TargetIsHandler(p, scs[1..], fs[1..], mark);
    } else {
      var i := FindAbort(fs[1..]);
      under := AbortMark(p, scs[1..], fs[1..], if scs[0].Called? || scs[0].Element? then mark else fs[0].mark);
      assert scs[1..][i + 1..] == scs[i + 2..] && fs[1..][i + 1..] == fs[i + 2..];
    }
  }

  /** The jump run by the machine. */
  lemma {:induction false} JumpReaches(p: Program, s: State, scs: seq<Scope>, mark: nat, l: Label) returns (n: nat)
    requires s.k == [] && !s.failed && Stack(p, scs, s.frames, mark) && mark <= |s.log| && Onto(p, scs, l)
    ensures Arrives(Steps(p, Go(s, l), n), AfterJump(p, Clean(s), l, s.frames))
  {
    hide Step, StepNode, Land, Stack, Handle;
    HandlerStep(p, Go(s, l), [], l);
    assert Go(s, l).(k := []) == s;
    if p.code[l].AbortRule? {
      var i := FindAbort(s.frames);
      if i == |s.frames| {
        var n1 := FailReaches(p, s, scs, mark);
        n := 1 + n1;
      } else {
        var under := AbortMark(p, scs, s.frames, mark);
        var s1 := s.(frames := s.frames[i + 1..]);
        var n1 := HandleReaches(p, s1, scs[i + 1..], under, s.frames[i].failTarget.value);
        n := 1 + n1;
      }
    } else {
      TargetIsHandler(p, scs, s.frames, mark);
      n := HandleReaches(p, s, scs, mark, l);
    }
  }

  // ── What the grammar decides ──────────────────────────────────────────

  /** The standing of a `where` in these scopes, in the terms of the machine theorems. */
  function StandingOf(scs: seq<Scope>): Standing {
    if scs == [] then Free(true)
    else
      match scs[0]
      case Called => Free(Sound(StandingOf(scs[1..])))
      case EarlierArm(_) => Direct
      case Resynced(_) => Direct
      case OptionalBody(_) => ToOption
      case LastArm(_) => InLastArm(StandingOf(scs[1..]))
      case Element => InElement(StandingOf(scs[1..]), false)
  }

  lemma {:induction false} StandingTarget(scs: seq<Scope>)
    ensures StandingOf(scs).Free? <==> Target(scs).None?
  {
    if scs != [] && (scs[0].LastArm? || scs[0].Element?) { StandingTarget(scs[1..]); }
  }

  /** The innermost savepoint under plain elements is the target's own exactly when it is an
      optional body's. */
  lemma {:induction false} OptionFirst(p: Program, scs: seq<Scope>, fs: seq<Frame>, mark: nat)
    requires Stack(p, scs, fs, mark) && Target(scs).Some?
    ensures |fs| == |scs|
    ensures StandingOf(scs).ToOption? <==> FindSave(fs) < |fs| && scs[FindSave(fs)].OptionalBody?
  {
    if scs[0].Element? {
      OptionFirst(p, scs[1..], fs[1..], mark);
    }
  }

  /** No savepoint of these frames was taken at the end of its window. */
  ghost predicate RoomLeft(p: Program, c: State, fs: seq<Frame>) {
    forall i :: 0 <= i < |fs| && fs[i].SaveF? ==> !AtEnd(p, c, fs[i])
  }

  /** The machine theorems admit a check exactly where its scopes alone make the two routes
      agree: in a sound standing they do, whatever the state, and in any other they do not,
      unless a savepoint happens to stand at the end of its window. */
  lemma {:induction false} StandingDecides(p: Program, c: State, scs: seq<Scope>, fs: seq<Frame>, mark: nat)
    requires Stack(p, scs, fs, mark)
    ensures |fs| == |scs|
    ensures Sound(StandingOf(scs)) ==> Agrees(p, c, scs, fs)
    ensures RoomLeft(p, c, fs) && Agrees(p, c, scs, fs) ==> Sound(StandingOf(scs))
  {
    hide AtEnd;
    if scs != [] {
      StandingTarget(scs);
      if scs[0].Called? || Target(scs).None? {
        StandingDecides(p, c, scs[1..], fs[1..], if scs[0].LastArm? then fs[0].mark else mark);
        RoomBelow(p, c, fs);
      } else if scs[0].Element? || scs[0].LastArm? {
        OptionFirst(p, scs, fs, mark);
      }
    }
  }

  lemma RoomBelow(p: Program, c: State, fs: seq<Frame>)
    requires fs != []
    ensures RoomLeft(p, c, fs) ==> RoomLeft(p, c, fs[1..])
  {
    hide AtEnd;
  }
}
