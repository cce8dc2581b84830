/** Iterating a trie, and cloning by iteration. */
module TrieIter {
  import opened Syntax
  import opened Alloc
  import opened Trie
  import opened TrieOps
  import opened TrieStore
  import opened HTreeClass

  type Item = (Key, Addr)

  // ── The order of a walk ───────────────────────────────────────────────

  function Items(t: Tree): seq<Item> {
    match t
    case Empty => []
    case Leaf(_, k, v) => [(k, v)]
    case Node(_, kids) => ItemsFrom(kids, 0)
  }

  function ItemsFrom(kids: seq<Tree>, i: nat): seq<Item>
    decreases kids, |kids| - i
  {
    if i >= |kids| then [] else Items(kids[i]) + ItemsFrom(kids, i + 1)
  }

  ghost predicate Ascending(s: seq<Item>) {
    forall i, j :: 0 <= i < j < |s| ==> s[i].0 < s[j].0
  }

  ghost predicate Lists(s: seq<Item>, m: map<Key, Addr>) {
    && (forall i :: 0 <= i < |s| ==> s[i].0 in m && m[s[i].0] == s[i].1)
    && (forall k :: k in m ==> (k, m[k]) in s)
  }

  lemma PrefixOrder(a: Key, b: Key, level: nat)
    requires level <= NIBBLES && Prefix(a, level) < Prefix(b, level)
    ensures a < b
  {
    hide Pow16;
    DivApart(a, b, Pow16(16 - level));
  }

  lemma DivApart(a: nat, b: nat, d: nat)
    requires d > 0 && a / d < b / d
    ensures a < b
  {
    var q, r := a / d, b / d;
    assert a < q * d + d && r * d <= b;
    assert (r - q - 1) * d >= 0;
  }

  /** A walk lists every entry exactly once, in strictly ascending key order. */
  lemma {:induction false} ItemsAre(t: Tree, level: nat, p: nat)
    requires Shaped(t, level, p)
    ensures Ascending(Items(t)) && Lists(Items(t), Entries(t))
    decreases t, 18
  {
    if t.Node? {
      ItemsFromAre(t, level, p, 0);
      forall k | k in Entries(t) ensures (k, Entries(t)[k]) in Items(t) {
        var i := KidWith(t.kids, k);
      }
    }
  }

  lemma {:induction false} ItemsFromAre(t: Tree, level: nat, p: nat, i: nat)
    requires t.Node? && Shaped(t, level, p) && i <= 16
    ensures var s := ItemsFrom(t.kids, i);
            && Ascending(s)
            && (forall n :: 0 <= n < |s| ==> s[n].0 in Entries(t) && Entries(t)[s[n].0] == s[n].1)
            && (forall n :: 0 <= n < |s| ==> Prefix(s[n].0, level + 1) >= 16 * p + i)
            && (forall j, k :: i <= j < 16 && k in Entries(t.kids[j]) ==> (k, Entries(t.kids[j])[k]) in s)
    decreases t, 17 - i
  {
    hide Prefix, Nibble, Entries;
    if i < 16 {
      var here, rest := Items(t.kids[i]), ItemsFrom(t.kids, i + 1);
      ItemsAre(t.kids[i], level + 1, 16 * p + i);
      ItemsFromAre(t, level, p, i + 1);
      forall n | 0 <= n < |here|
        ensures Prefix(here[n].0, level + 1) == 16 * p + i
        ensures here[n].0 in Entries(t) && Entries(t)[here[n].0] == here[n].1
      {
        KeysBelow(t.kids[i], level + 1, 16 * p + i, here[n].0);
        NibbleDecides(t, level, p, here[n].0);
      }
      forall n, m | 0 <= n < |here| && 0 <= m < |rest| ensures here[n].0 < rest[m].0 {
        PrefixOrder(here[n].0, rest[m].0, level + 1);
      }
    }
  }

  // ── What an iterator still has to yield ───────────────────────────────

  function FrameItems(t: Tree, i: nat): seq<Item> {
    if t.Node? then ItemsFrom(t.kids, i) else Items(t)
  }

  /** The items below the frames of a stack, innermost frame first. */
  function Pending(stack: seq<Tree>, idx: seq<nat>): seq<Item>
    requires |stack| == |idx|
  {
    if stack == [] then []
    else
      var n := |stack| - 1;
      FrameItems(stack[n], idx[n]) + Pending(stack[..n], idx[..n])
  }

  function Work(t: Tree): nat {
    match t
    case Empty => 0
    case Leaf(_, _, _) => 2
    case Node(_, kids) => 2 + WorkFrom(kids, 0)
  }

  function WorkFrom(kids: seq<Tree>, i: nat): nat
    decreases kids, |kids| - i
  {
    if i >= |kids| then 0 else Work(kids[i]) + WorkFrom(kids, i + 1)
  }

  /** Steps a walk can still take: it decreases with each push and each pop. */
  function WorkLeft(stack: seq<Tree>, idx: seq<nat>): nat
    requires |stack| == |idx|
  {
    if stack == [] then 0
    else
      var n := |stack| - 1;
      1 + (if stack[n].Node? then WorkFrom(stack[n].kids, idx[n]) else 0) + WorkLeft(stack[..n], idx[..n])
  }

  /** Hanging at a level: an interior node still has a nibble to spend. */
  predicate Hangs(t: Tree, level: nat) {
    t.Node? ==> level < NIBBLES && |t.kids| == 16 && forall i :: 0 <= i < 16 ==> Hangs(t.kids[i], level + 1)
  }

  lemma {:induction false} ShapedHangs(t: Tree, level: nat, p: nat)
    requires Shaped(t, level, p)
    ensures Hangs(t, level)
  {
    if t.Node? {
      forall i | 0 <= i < 16 ensures Hangs(t.kids[i], level + 1) { ShapedHangs(t.kids[i], level + 1, 16 * p + i); }
    }
  }

  // ── Moves of the iterator's stack ─────────────────────────────────────

  lemma {:induction false} SkipEmpty(kids: seq<Tree>, i: nat, j: nat)
    requires i <= j <= |kids| && forall n :: i <= n < j ==> kids[n] == Empty
    ensures ItemsFrom(kids, i) == ItemsFrom(kids, j) && WorkFrom(kids, i) == WorkFrom(kids, j)
    decreases j - i
  {
    if i < j { SkipEmpty(kids, i + 1, j); }
  }

  lemma NodeKids(t: Tree, level: nat)
    requires Hangs(t, level)
    ensures t.Node? ==> |t.kids| == 16
  {}

  lemma PopLeaf(stack: seq<Tree>, idx: seq<nat>)
    requires |stack| == |idx| > 0 && stack[|stack| - 1].Leaf?
    ensures var n := |stack| - 1;
            Pending(stack, idx) == [(stack[n].key, stack[n].value)] + Pending(stack[..n], idx[..n])
  {}

  lemma PopNode(stack: seq<Tree>, idx: seq<nat>)
    requires |stack| == |idx| > 0
    requires var n := |stack| - 1;
             stack[n].Node? && idx[n] <= |stack[n].kids| && forall j :: idx[n] <= j < |stack[n].kids| ==> stack[n].kids[j] == Empty
    ensures var n := |stack| - 1;
            && Pending(stack, idx) == Pending(stack[..n], idx[..n])
            && WorkLeft(stack, idx) > WorkLeft(stack[..n], idx[..n])
  {
    var n := |stack| - 1;
    SkipEmpty(stack[n].kids, idx[n], |stack[n].kids|);
  }

  lemma Push(stack: seq<Tree>, idx: seq<nat>, i: nat, stack1: seq<Tree>, idx1: seq<nat>)
    requires |stack| == |idx| > 0
    requires var n := |stack| - 1;
             && stack[n].Node? && idx[n] <= i < |stack[n].kids| && stack[n].kids[i] != Empty
             && (forall j :: idx[n] <= j < i ==> stack[n].kids[j] == Empty)
             && stack1 == stack + [stack[n].kids[i]] && idx1 == idx[..n] + [i + 1, 0]
    ensures Pending(stack1, idx1) == Pending(stack, idx) && WorkLeft(stack1, idx1) < WorkLeft(stack, idx)
  {
    var n := |stack| - 1;
    var cur := stack[n];
    SkipEmpty(cur.kids, idx[n], i);
    TopOf(stack1, idx1);
    assert stack1[..n + 1] == stack && idx1[..n + 1] == idx[..n] + [i + 1];
    TopOf(stack, idx[..n] + [i + 1]);
    assert (idx[..n] + [i + 1])[..n] == idx[..n];
    TopOf(stack, idx);
    hide Pending, WorkLeft;
    var kid := cur.kids[i];
    assert FrameItems(kid, 0) == Items(kid);
    assert Items(kid) + ItemsFrom(cur.kids, i + 1) == ItemsFrom(cur.kids, i);
    var below := Pending(stack[..n], idx[..n]);
    assert Items(kid) + (ItemsFrom(cur.kids, i + 1) + below) == ItemsFrom(cur.kids, i) + below;
  }

  lemma TopOf(stack: seq<Tree>, idx: seq<nat>)
    requires |stack| == |idx| > 0
    ensures var n := |stack| - 1;
            && Pending(stack, idx) == FrameItems(stack[n], idx[n]) + Pending(stack[..n], idx[..n])
            && WorkLeft(stack, idx) == 1 + (if stack[n].Node? then WorkFrom(stack[n].kids, idx[n]) else 0)
                                         + WorkLeft(stack[..n], idx[..n])
  {}

  lemma NoItems()
    ensures Items(Empty) == [] && Hangs(Empty, 0)
  {}

  lemma OneFrame(t: Tree)
    ensures Pending([t], [0]) == Items(t) && Pending([], []) == []
  {
    assert [t][..0] == [] && [0][..0] == [];
  }

  /** bbq_htree_iter: one slot per nibble plus the leaf, and no allocation. */
  class Iter {
    const t: HTree
    var gen: nat
    const stack: array<Tree>
    const idx: array<nat>
    var depth: int

    ghost predicate Valid()
      reads this, stack, idx
    {
      && stack.Length == idx.Length == NIBBLES + 1
      && -1 <= depth < NIBBLES + 1
      && forall d :: 0 <= d <= depth ==> Hangs(stack[d], d) && stack[d] != Empty && idx[d] <= 16
    }

    /** What the coming calls of Next yield while the tree is not changed. */
    ghost function Left(): seq<Item>
      requires Valid()
      reads this, stack, idx
    {
      Pending(stack[..depth + 1], idx[..depth + 1])
    }

    constructor (t: HTree)
      requires Shaped(t.root, 0, 0)
      ensures Valid() && this.t == t && gen == t.gen && Left() == Items(t.root)
      ensures fresh(this) && fresh(stack) && fresh(idx)
    {
      hide Shaped, Pending, Items;
      this.t := t;
      gen := t.gen;
      stack := new Tree[NIBBLES + 1](_ => Empty);
      idx := new nat[NIBBLES + 1](_ => 0);
      depth := -1;
      new;
      if t.root != Empty {
        ShapedHangs(t.root, 0, 0);
        depth := 0;
        stack[0] := t.root;
        idx[0] := 0;
      }
      OneFrame(t.root);
      assert t.root != Empty ==> stack[..1] == [t.root] && idx[..1] == [0];
      NoItems();
    }

    /** The child i of the top frame becomes the top frame; the frame remembers where to
        go on. A seventeenth slot is never asked for more. */
    method PushChild(i: nat)
      requires Valid() && depth >= 0 && stack[depth].Node? && i < 16 && stack[depth].kids[i] != Empty
      modifies this`depth, stack, idx
      ensures Valid() && depth == old(depth) + 1
      ensures stack[..depth + 1] == old(stack[..depth + 1]) + [old(stack[depth]).kids[i]]
      ensures idx[..depth + 1] == old(idx[..depth]) + [i + 1, 0]
    {
      var cur := stack[depth];
      idx[depth] := i + 1;
      depth := depth + 1;
      stack[depth] := cur.kids[i];
      idx[depth] := 0;
    }

    /** bbq_htree_next: the next item, or nothing at the end or once the tree has changed. */
    method Next() returns (r: Option<Item>)
      requires Valid()
      modifies this, stack, idx
      ensures Valid() && gen == old(gen)
      ensures gen != t.gen ==> r == None
      ensures gen == t.gen && old(Left()) == [] ==> r == None && Left() == []
      ensures gen == t.gen && old(Left()) != [] ==> r == Some(old(Left())[0]) && Left() == old(Left())[1..]
    {
      hide Pending, Items, ItemsFrom, FrameItems, WorkLeft, Work, WorkFrom, Hangs;
      OneFrame(Empty);
      if depth < 0 { return None; }
      if gen != t.gen {
        depth := -1;
        return None;
      }
      ghost var left := Left();
      while depth >= 0
        invariant Valid() && gen == old(gen) && Left() == left
        decreases WorkLeft(stack[..depth + 1], idx[..depth + 1])
      {
        var cur := stack[depth];
        NodeKids(cur, depth);
        ghost var frames, marks := stack[..depth + 1], idx[..depth + 1];
        assert frames[..depth] == stack[..depth] && marks[..depth] == idx[..depth];
        if cur.Leaf? {
          PopLeaf(frames, marks);
          depth := depth - 1;
          return Some((cur.key, cur.value));
        }
        var i := idx[depth];
        while i < 16 && cur.kids[i] == Empty
          invariant idx[depth] <= i <= 16 && forall j :: idx[depth] <= j < i ==> cur.kids[j] == Empty
        {
          i := i + 1;
        }
        if i < 16 {
          PushChild(i);
          Push(frames, marks, i, stack[..depth + 1], idx[..depth + 1]);
        } else {
          PopNode(frames, marks);
          depth := depth - 1;
        }
      }
      return None;
    }
  }

  // ── Walking the whole tree ────────────────────────────────────────────

  /** The walk has handed out the items before n, and `leaf` is what Next gave last. */
  ghost predicate Walking(it: Iter, items: seq<Item>, n: nat, leaf: Option<Item>)
    requires it.Valid()
    reads it, it.stack, it.idx
  {
    if leaf.Some? then n < |items| && leaf.value == items[n] && it.Left() == items[n + 1..] else n == |items|
  }

  method Advance(it: Iter, ghost items: seq<Item>, ghost n: nat) returns (leaf: Option<Item>)
    requires it.Valid() && it.gen == it.t.gen && n <= |items| && it.Left() == items[n..]
    modifies it, it.stack, it.idx
    ensures it.Valid() && it.gen == old(it.gen) && Walking(it, items, n, leaf)
  {
    hide Iter.Valid, Iter.Left;
    leaf := it.Next();
    if n < |items| { assert items[n..][0] == items[n] && items[n..][1..] == items[n + 1..]; }
  }

  // ── Clone ─────────────────────────────────────────────────────────────

  function Merged(m: map<Key, Addr>, items: seq<Item>): map<Key, Addr> {
    if items == [] then m
    else
      var n := |items| - 1;
      Merged(m, items[..n])[items[n].0 := items[n].1]
  }

  lemma {:induction false} MergedHolds(m: map<Key, Addr>, items: seq<Item>, whole: map<Key, Addr>)
    requires forall i :: 0 <= i < |items| ==> items[i].0 in whole && whole[items[i].0] == items[i].1
    ensures forall k :: k in Merged(m, items) <==> k in m || exists i :: 0 <= i < |items| && items[i].0 == k
    ensures forall i :: 0 <= i < |items| ==> Merged(m, items)[items[i].0] == items[i].1
    ensures forall k :: k in m && (forall i :: 0 <= i < |items| ==> items[i].0 != k) ==> Merged(m, items)[k] == m[k]
  {
    if items != [] {
      var n := |items| - 1;
      MergedHolds(m, items[..n], whole);
      assert forall i :: 0 <= i < n ==> items[..n][i] == items[i];
    }
  }

  lemma MergedIs(m: map<Key, Addr>, items: seq<Item>, whole: map<Key, Addr>)
    requires Lists(items, whole)
    ensures Merged(m, items) == m + whole
    ensures m == map[] ==> Merged(m, items) == whole
  {
    hide Merged;
    MergedHolds(m, items, whole);
    forall k | k in whole ensures exists i :: 0 <= i < |items| && items[i].0 == k {
      var i :| 0 <= i < |items| && items[i] == (k, whole[k]);
      assert items[i].0 == k;
    }
  }

  /** Where a clone stands after the first n entries. */
  ghost predicate Merging(m: map<Key, Addr>, items: seq<Item>, n: nat, live0: Ledger, held0: Ledger, dst: HTree)
    reads dst, dst.a
  {
    n <= |items| && dst.Contents() == Merged(m, items[..n]) && Balanced(live0, held0, dst.a.live, dst.Held())
  }

  lemma MergingStart(dst: HTree, items: seq<Item>)
    requires dst.Valid()
    ensures Merging(dst.Contents(), items, 0, dst.a.live, dst.Held(), dst)
  {
    Unbalanced(dst.a.live, dst.root);
    MergedStart(dst.Contents(), items);
  }

  lemma MergingIs(m: map<Key, Addr>, items: seq<Item>, n: nat, live0: Ledger, held0: Ledger, dst: HTree)
    requires Merging(m, items, n, live0, held0, dst)
    ensures n <= |items| && dst.Contents() == Merged(m, items[..n]) && Balanced(live0, held0, dst.a.live, dst.Held())
  {}

  lemma MergingEnds(m: map<Key, Addr>, items: seq<Item>, live0: Ledger, held0: Ledger, dst: HTree)
    requires Merging(m, items, |items|, live0, held0, dst)
    ensures dst.Contents() == Merged(m, items) == Merged(m, items[..|items|]) && Balanced(live0, held0, dst.a.live, dst.Held())
  {
    assert items[..|items|] == items;
  }

  lemma TreeShaped(t: HTree)
    requires t.Valid()
    ensures Shaped(t.root, 0, 0) && t.Contents() == Entries(t.root)
  {}

  /** One entry more. */
  method PutNext(dst: HTree, ghost m: map<Key, Addr>, ghost items: seq<Item>, ghost n: nat, ghost live0: Ledger,
                 ghost held0: Ledger, item: Item) returns (ok: bool)
    requires dst.Valid() && Merging(m, items, n, live0, held0, dst) && n < |items| && items[n] == item
    modifies dst, dst.a, dst.a.under
    ensures dst.Valid() && (!ok ==> dst.oom) && dst.a.denials == old(dst.a.denials) + (if ok then 0 else 1)
    ensures Merging(m, items, if ok then n + 1 else n, live0, held0, dst)
  {
    hide HTree.Valid, Entries, Merged, Balanced, Total, Inserted, Supplies, Owned, Shaped;
    ghost var live, held, blocks := dst.a.live, dst.Held(), [];
    ok, blocks := dst.Insert(item.0, item.1);
    BalancedTrans(live0, held0, live, held, dst.a.live, dst.Held());
    MergedMore(m, items, n);
  }

  /** bbq_htree_clone: every entry is put into `dst`; on a refusal dst holds what the walk
      had reached. */
  method Clone(dst: HTree, src: HTree) returns (ok: bool, ghost n: nat)
    requires dst != src && dst.Valid() && src.Valid()
    modifies dst, dst.a, dst.a.under
    ensures dst.Valid()
    ensures n <= |Items(src.root)| && dst.Contents() == Merged(old(dst.Contents()), Items(src.root)[..n])
    ensures ok ==> dst.Contents() == old(dst.Contents()) + src.Contents()
    ensures ok && old(dst.Contents()) == map[] ==> Same(dst.root, src.root)
    ensures !ok ==> dst.oom && n < |Items(src.root)|
    ensures dst.a.denials == old(dst.a.denials) + (if ok then 0 else 1)
    ensures Balanced(old(dst.a.live), old(dst.Held()), dst.a.live, dst.Held())
  {
    hide Shaped, Items, Entries, Merged, Balanced, Same, Lists, Ascending, Merging, Iter.Valid, Iter.Left, HTree.Valid;
    ghost var items := Items(src.root);
    TreeShaped(dst);
    TreeShaped(src);
    ItemsAre(src.root, 0, 0);
    MergingStart(dst, items);
    var it := new Iter(src);
    n := 0;
    assert items[0..] == items;
    var leaf := Advance(it, items, n);
    while leaf.Some?
      invariant it.Valid() && it.gen == src.gen && dst.Valid() && n <= |items| && Walking(it, items, n, leaf)
      invariant dst.a.denials == old(dst.a.denials)
      invariant Merging(old(dst.Contents()), items, n, old(dst.a.live), old(dst.Held()), dst)
      decreases |items| - n
    {
      ok := PutNext(dst, old(dst.Contents()), items, n, old(dst.a.live), old(dst.Held()), leaf.value);
      MergingIs(old(dst.Contents()), items, if ok then n + 1 else n, old(dst.a.live), old(dst.Held()), dst);
      if !ok { return; }
      n := n + 1;
      leaf := Advance(it, items, n);
    }
    MergingEnds(old(dst.Contents()), items, old(dst.a.live), old(dst.Held()), dst);
    MergedIs(old(dst.Contents()), items, src.Contents());
    ok := true;
    TreeShaped(dst);
    if old(dst.Contents()) == map[] { Canonical(dst.root, src.root, 0, 0); }
  }

  lemma MergedStart(m: map<Key, Addr>, items: seq<Item>)
    ensures Merged(m, items[..0]) == m
  {}

  lemma MergedMore(m: map<Key, Addr>, items: seq<Item>, n: nat)
    requires n < |items|
    ensures Merged(m, items[..n + 1]) == Merged(m, items[..n])[items[n].0 := items[n].1]
  {
    assert items[..n + 1][..n] == items[..n];
  }
}
