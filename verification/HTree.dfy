/** bbq_htree: the trie as its callers use it, over an allocator that may refuse. */
module HTreeClass {
  import opened Syntax
  import opened Alloc
  import opened Trie
  import opened TrieOps
  import opened TrieStore

  // ── Ledger bookkeeping ────────────────────────────────────────────────

  /** Node blocks taken one after another on top of a ledger. */
  ghost predicate Taken(live0: Ledger, blocks: seq<Addr>, live1: Ledger) {
    && (forall p :: p in live0 ==> Times(blocks, p) == 0 && p in live1 && live1[p] == live0[p])
    && (forall p :: p in live1 ==> p in live0 || Times(blocks, p) == 1)
    && (forall p :: Times(blocks, p) <= 1 && (Times(blocks, p) == 1 ==> p != NULL && p in live1 && live1[p] == NODE_BYTES))
  }

  lemma {:induction false} TimesMore(blocks: seq<Addr>, b: Addr, p: Addr)
    ensures Times(blocks + [b], p) == Times(blocks, p) + (if b == p then 1 else 0)
  {
    if blocks != [] {
      assert (blocks + [b])[1..] == blocks[1..] + [b];
      TimesMore(blocks[1..], b, p);
    } else {
      assert ([] + [b])[1..] == [];
    }
  }

  lemma {:induction false} TimesIn(blocks: seq<Addr>, p: Addr)
    ensures p in blocks <==> Times(blocks, p) > 0
  {
    if blocks != [] { TimesIn(blocks[1..], p); }
  }

  lemma TakenMore(live0: Ledger, blocks: seq<Addr>, live1: Ledger, b: Addr)
    requires Taken(live0, blocks, live1) && b !in live1 && b != NULL
    ensures Taken(live0, blocks + [b], live1[b := NODE_BYTES])
  {
    hide Times;
    forall p ensures Times(blocks + [b], p) == Times(blocks, p) + (if b == p then 1 else 0) {
      TimesMore(blocks, b, p);
    }
  }

  lemma TakenNoNull(live0: Ledger, blocks: seq<Addr>, live1: Ledger)
    requires Taken(live0, blocks, live1)
    ensures NULL !in blocks
  {
    TimesIn(blocks, NULL);
  }

  lemma {:induction false} CountPart(kids: seq<Tree>, i: nat, p: Addr)
    requires i < |kids|
    ensures CountAll(kids[..i], p) + Count(kids[i], p) <= CountAll(kids, p)
    ensures CountAll(kids[..i + 1], p) == CountAll(kids[..i], p) + Count(kids[i], p)
  {
    var n := |kids| - 1;
    assert kids[..i + 1][..i] == kids[..i];
    if i < n {
      CountPart(kids[..n], i, p);
      assert kids[..n][..i] == kids[..i];
    }
  }

  /** node_free_all. */
  method NodeFreeAll(a: Budget, t: Tree)
    requires a.Valid() && Stored(t, a.live)
    modifies a, a.under
    ensures a.Valid() && a.live == old(a.live) - Owned(t) && a.denials == old(a.denials)
    decreases t
  {
    hide Count, CountAll, Owned, OwnedAll, Total;
    match t
    case Empty => FreeNothing();
    case Leaf(at, _, _) =>
      FreeLeaf(t, at);
      a.MemRelease(at, NODE_BYTES);
    case Node(at, kids) =>
      FreeNode(t);
      for i := 0 to |kids|
        invariant a.Valid() && a.denials == old(a.denials)
        invariant a.live == old(a.live) - OwnedAll(kids[..i])
      {
        KidStored(t, i, old(a.live));
        NodeFreeAll(a, kids[i]);
        MinusMinus(old(a.live), OwnedAll(kids[..i]), Owned(kids[i]));
      }
      assert kids[..|kids|] == kids;
      a.MemRelease(at, NODE_BYTES);
      MinusMinus(old(a.live), OwnedAll(kids), {at});
      assert Owned(t) == OwnedAll(kids) + {at};
  }

  lemma MinusMinus(live: Ledger, s: set<Addr>, r: set<Addr>)
    ensures live - s - r == live - (s + r)
  {}

  lemma FreeNothing()
    ensures Owned(Empty) == {} && forall live: Ledger :: live - Owned(Empty) == live
  {}

  lemma FreeLeaf(t: Tree, at: Addr)
    requires t.Leaf? && t.at == at
    ensures Owned(t) == {at} && Count(t, at) == 1
  {}

  lemma FreeNode(t: Tree)
    requires t.Node? && forall p: Addr :: Count(t, p) <= 1
    ensures Owned(t) == {t.at} + OwnedAll(t.kids) && Count(t, t.at) == 1 && t.at !in OwnedAll(t.kids)
    ensures OwnedAll(t.kids[..0]) == {}
  {
    assert Count(t, t.at) <= 1;
    OwnedCountAll(t.kids, t.at);
  }

  lemma KidStored(t: Tree, i: nat, live: Ledger)
    requires t.Node? && i < |t.kids| && Stored(t, live)
    ensures Stored(t.kids[i], live - OwnedAll(t.kids[..i]))
    ensures OwnedAll(t.kids[..i + 1]) == OwnedAll(t.kids[..i]) + Owned(t.kids[i])
  {
    assert t.kids[..i + 1][..i] == t.kids[..i];
    forall p: Addr
      ensures Count(t.kids[i], p) <= 1
      ensures Count(t.kids[i], p) == 1 ==> p in live - OwnedAll(t.kids[..i]) && live[p] == NODE_BYTES
    {
      CountPart(t.kids, i, p);
      OwnedCountAll(t.kids[..i], p);
      assert Count(t, p) <= 1;
    }
  }

  lemma ChainGrows(key: Key, level: nat, mids: seq<Addr>, mid: Addr)
    requires level + |mids| < NIBBLES
    ensures var head := Chained(key, level, mids, Empty);
            var tail := Spelled(key, level, |mids|);
            && HasSlot(head, tail)
            && Put(head, tail, Node(mid, Blank())) == Chained(key, level, mids + [mid], Empty)
            && tail + [Nibble(key, level + |mids|)] == Spelled(key, level, |mids| + 1)
  {
    hide Nibble;
    ChainedTail(key, level, mids, Empty, Node(mid, Blank()));
    ChainedMore(key, level, mids, mid, Empty);
    assert Blank()[Nibble(key, level + |mids|) := Empty] == Blank();
  }

  /** The half-built chain can be freed, and freeing it undoes what was taken for it. */
  lemma ChainFrees(key: Key, level: nat, mids: seq<Addr>, live0: Ledger, live1: Ledger)
    requires level + |mids| <= NIBBLES && Taken(live0, mids, live1)
    ensures var head := Chained(key, level, mids, Empty);
            Stored(head, live1) && live1 - Owned(head) == live0
  {
    var head := Chained(key, level, mids, Empty);
    hide Chained, Times, Count, Owned;
    forall p ensures Count(head, p) == Times(mids, p) && (p in Owned(head) <==> Times(mids, p) > 0) {
      CountChained(key, level, mids, Empty, p);
      CountNothing(p);
      OwnedCount(head, p);
    }
  }

  lemma CountNothing(p: Addr)
    ensures Count(Empty, p) == 0
  {}

  /** What publishing a tree with more nodes in a slot does to the node counts. */
  lemma Published(t: Tree, s: Slot, x: Tree, blocks: seq<Addr>, live0: Ledger, live1: Ledger)
    requires HasSlot(t, s) && Stored(t, live0) && Taken(live0, blocks, live1)
    requires forall p :: Count(x, p) == Count(At(t, s), p) + Times(blocks, p)
    ensures Stored(Put(t, s, x), live1)
    ensures Balanced(live0, Blocks(t), live1, Blocks(Put(t, s, x)))
    ensures forall p :: p in Owned(Put(t, s, x)) <==> p in Owned(t) || p in blocks
  {
    hide Times, Count, Owned;
    var u := Put(t, s, x);
    forall p: Addr ensures Count(u, p) == Count(t, p) + Times(blocks, p)
      ensures p in Owned(u) <==> Count(u, p) > 0 
      ensures p in Owned(t) <==> Count(t, p) > 0
      ensures p in blocks <==> Times(blocks, p) > 0
    {
      CountPut(t, s, x, p);
      OwnedCount(u, p);
      OwnedCount(t, p);
      TimesIn(blocks, p);
    }
  }

  lemma CountSplit(leaf: Tree, level: nat, key: Key, value: Addr, mids: seq<Addr>, fork: Addr, last: Addr, p: Addr)
    requires leaf.Leaf? && level + |mids| < NIBBLES && |mids| == Shared(leaf.key, key, level)
    requires Nibble(leaf.key, level + |mids|) != Nibble(key, level + |mids|)
    ensures Count(Split(leaf, level, key, value, mids + [fork, last]), p)
            == Count(leaf, p) + Times(mids + [fork, last], p)
  {
    hide Nibble, Count, Split, Fork, Chained;
    var d := level + |mids|;
    SplitIsChain(leaf, level, key, value, mids, fork, last);
    CountChained(key, level, mids, Fork(leaf, key, value, d, fork, last), p);
    CountFork(leaf, key, value, d, fork, last, p);
    TimesMore(mids, fork, p);
    TimesMore(mids + [fork], last, p);
    assert mids + [fork] + [last] == mids + [fork, last];
  }

  lemma {:induction false} SharedStops(x: Key, y: Key, level: nat)
    requires level <= NIBBLES
    ensures var d := level + Shared(x, y, level); d < NIBBLES ==> Nibble(x, d) != Nibble(y, d)
    decreases NIBBLES - level
  {
    hide Nibble;
    if level < NIBBLES && Nibble(x, level) == Nibble(y, level) { SharedStops(x, y, level + 1); }
  }

  // ── What the operations do to the map ─────────────────────────────────

  lemma InsertedMap(t: Tree, key: Key, value: Addr, blocks: seq<Addr>)
    requires Shaped(t, 0, 0) && Supplies(t, 0, key, blocks) && NULL !in blocks
    ensures var u := Inserted(t, 0, key, value, blocks);
            && Shaped(u, 0, 0) && Entries(u) == Entries(t)[key := value]
            && Size(u) == Size(t) + (if key in Entries(t) then 0 else 1)
  {
    hide Nibble, Prefix, Shaped, Inserted, Supplies, Trie.Search, Entries;
    PrefixEnds(key);
    InsertedIs(t, 0, 0, key, value, blocks);
    SearchIs(t, 0, 0, key);
    forall k: Key ensures Prefix(k, 0) == 0
      ensures Trie.Search(t, 0, k) == if k in Entries(t) then Some(Entries(t)[k]) else None
    {
      PrefixEnds(k);
      SearchIs(t, 0, 0, k);
    }
    SearchDetermines(Inserted(t, 0, key, value, blocks), 0, 0, Entries(t)[key := value]);
  }

  lemma DeletedMap(t: Tree, key: Key)
    requires Shaped(t, 0, 0)
    ensures var u := Deleted(t, 0, key);
            && Shaped(u, 0, 0) && Entries(u) == Entries(t) - {key}
            && Size(t) == Size(u) + (if key in Entries(t) then 1 else 0)
  {
    hide Nibble, Prefix, Shaped, Deleted, Trie.Search, Entries;
    PrefixEnds(key);
    DeletedIs(t, 0, 0, key);
    SearchIs(t, 0, 0, key);
    forall k: Key ensures Prefix(k, 0) == 0
      ensures Trie.Search(t, 0, k) == if k in Entries(t) then Some(Entries(t)[k]) else None
    {
      PrefixEnds(k);
      SearchIs(t, 0, 0, k);
    }
    SearchDetermines(Deleted(t, 0, key), 0, 0, Entries(t) - {key});
  }

  // ── What the walk back up does ────────────────────────────────────────

  lemma {:induction false} CountEmpty(kids: seq<Tree>, p: Addr)
    requires forall j :: 0 <= j < |kids| ==> kids[j] == Empty
    ensures CountAll(kids, p) == 0
  {
    if kids != [] { CountEmpty(kids[..|kids| - 1], p); }
  }

  /** Collapsing a node gives up its own block and nothing else. */
  lemma CollapseCount(t: Tree, p: Addr)
    requires t.Node? && Collapse(t) != t
    ensures Count(t, p) == Count(Collapse(t), p) + (if t.at == p then 1 else 0)
  {
    hide Survivors;
    SurvivorsAre(t.kids, 0);
    var (n, only) := Survivors(t.kids, 0);
    if n == 0 {
      CountEmpty(t.kids, p);
    } else {
      var j :| 0 <= j < |t.kids| && t.kids[j] == only && only != Empty;
      CountAt(t.kids, j, Empty, p);
      CountEmpty(t.kids[j := Empty], p);
    }
  }

  /** A node released from its slot. */
  lemma Released(t: Tree, s: Slot, x: Tree, at: Addr, live: Ledger)
    requires HasSlot(t, s) && Stored(t, live)
    requires forall p :: Count(At(t, s), p) == Count(x, p) + (if p == at then 1 else 0)
    ensures at in live && live[at] == NODE_BYTES && Stored(Put(t, s, x), live - {at})
    ensures Balanced(live, Blocks(t), live - {at}, Blocks(Put(t, s, x)))
  {
    hide Count, Owned;
    var u := Put(t, s, x);
    forall p: Addr ensures Count(t, p) == Count(u, p) + (if p == at then 1 else 0)
      ensures p in Owned(u) <==> Count(u, p) > 0
      ensures p in Owned(t) <==> Count(t, p) > 0
    {
      CountPut(t, s, x, p);
      OwnedCount(u, p);
      OwnedCount(t, p);
    }
    assert Count(t, at) == 1;
  }

  /** Where the walk stands: everything from `depth` down is as deletion leaves it. */
  ghost predicate Walked(t0: Tree, slot: Slot, depth: nat, key: Key, t: Tree) {
    && depth <= |slot| <= NIBBLES && HasSlot(t0, slot[..depth])
    && t == Put(t0, slot[..depth], Deleted(At(t0, slot[..depth]), depth, key))
  }

  lemma {:induction false} SlotPart(t: Tree, s: Slot, n: nat)
    requires HasSlot(t, s) && n <= |s|
    ensures HasSlot(t, s[..n])
    ensures n < |s| ==> At(t, s[..n]).Node? && |At(t, s[..n]).kids| == 16 && s[n] < 16
  {
    if n > 0 {
      SlotPart(t.kids[s[0]], s[1..], n - 1);
      assert s[..n][1..] == s[1..][..n - 1];
    }
  }

  /** One level up: the node found there is the one deletion would collapse. */
  lemma WalkStep(t0: Tree, slot: Slot, depth: nat, key: Key, t: Tree)
    requires Shaped(t0, 0, 0) && HasSlot(t0, slot) && Leads(slot, key, 0) && depth < |slot|
    requires Trie.Search(At(t0, slot), |slot|, key).Some?
    requires Walked(t0, slot, depth + 1, key, t)
    ensures HasSlot(t, slot[..depth]) && At(t, slot[..depth]).Node?
    ensures var p := At(t, slot[..depth]);
            && Walked(t0, slot, depth, key, Put(t, slot[..depth], Collapse(p)))
            && (Collapse(p) == p ==> t == Deleted(t0, 0, key))
  {
    hide Nibble, Prefix, Collapse, Trie.Search;
    var s, i := slot[..depth], slot[depth];
    assert i == Nibble(key, 0 + depth);
    PrefixEnds(key);
    SlotPart(t0, slot, depth);
    SlotPart(t0, slot, depth + 1);
    SlotShaped(t0, s, 0, 0, key);
    SlotStep(t0, s, i);
    assert slot[..depth + 1] == s + [i];
    SlotShaped(t0, slot, 0, 0, key);
    SlotShaped(t0, s + [i], 0, 0, key);
    var node0 := At(t0, s);
    var x := Deleted(At(t0, s + [i]), depth + 1, key);
    var p := Node(node0.at, node0.kids[i := x]);
    PutPut(t0, s, p, Collapse(p));
    SearchDeeper(node0, depth, key);
    assert Deleted(node0, depth, key) == Collapse(p);
    if Collapse(p) == p {
      DeletedAtSlot(t0, s, 0, 0, key);
    }
  }

  lemma SearchDeeper(t: Tree, level: nat, key: Key)
    requires t.Node? && level < NIBBLES && |t.kids| == 16
    ensures Trie.Search(t, level, key) == Trie.Search(t.kids[Nibble(key, level)], level + 1, key)
  {}

  class HTree {
    var root: Tree
    var count: nat
    var gen: nat
    var oom: bool
    const a: Budget

    ghost predicate Valid()
      reads this, a, a.under
    {
      a.Valid() && Shaped(root, 0, 0) && count == Size(root) && Stored(root, a.live)
    }

    /** The map the tree stands for. */
    ghost function Contents(): map<Key, Addr>
      reads this
    {
      Entries(root)
    }

    /** The blocks the tree holds. */
    ghost function Held(): Ledger
      reads this
    {
      Blocks(root)
    }

    constructor (a: Budget)
      requires a.Valid()
      ensures Valid() && this.a == a && root == Empty && !oom && Contents() == map[] && Held() == map[]
    {
      this.a := a;
      root := Empty;
      count, gen, oom := 0, 0, false;
    }

    method NodeNew() returns (p: Addr)
      requires a.Valid()
      modifies this`oom, a, a.under
      ensures a.Valid() && a.denials == old(a.denials) + (if p == NULL then 1 else 0)
      ensures p == NULL ==> oom && a.live == old(a.live)
      ensures p != NULL ==> oom == old(oom) && p !in old(a.live) && a.live == old(a.live)[p := NODE_BYTES]
    {
      p := a.MemAlloc(NODE_BYTES);
      if p == NULL { oom := true; }
    }

    /** find_leaf, search and contains. */
    method Search(key: Key) returns (v: Addr, found: bool)
      requires Valid()
      ensures found <==> key in Contents()
      ensures v == if found then Contents()[key] else NULL
    {
      hide Prefix, Nibble;
      PrefixEnds(key);
      SearchIs(root, 0, 0, key);
      var n, level := root, 0;
      while n != Empty && level < NIBBLES
        invariant 0 <= level <= NIBBLES
        invariant Trie.Search(root, 0, key) == Trie.Search(n, level, key)
        invariant Shaped(n, level, Prefix(key, level))
        decreases NIBBLES - level
      {
        if n.Leaf? {
          if n.key == key { return n.value, true; }
          return NULL, false;
        }
        PrefixStep(key, level);
        n := n.kids[Nibble(key, level)];
        level := level + 1;
      }
      if n.Leaf? && n.key == key { return n.value, true; }
      return NULL, false;
    }

    /** bbq_htree_size: the count kept is the number of entries. */
    method EntryCount() returns (n: nat)
      requires Valid()
      ensures n == |Contents()|
    {
      SizeIs(root, 0, 0);
      n := count;
    }

    /** divergence: the first nibble from `from` on where the two keys differ. */
    static method Divergence(a: Key, b: Key, from: nat) returns (d: nat)
      requires from <= NIBBLES
      ensures d == from + Shared(a, b, from)
    {
      hide Nibble;
      d := from;
      while d < NIBBLES && Nibble(a, d) == Nibble(b, d)
        invariant from <= d <= NIBBLES && from + Shared(a, b, from) == d + Shared(a, b, d)
      {
        d := d + 1;
      }
    }

    /** split_leaf: the whole chain is built aside and published only when every block it
        needs has been had. */
    method SplitLeaf(slot: Slot, level: nat, key: Key, value: Addr) returns (ok: bool, ghost blocks: seq<Addr>)
      requires Valid() && HasSlot(root, slot) && level == |slot| && Leads(slot, key, 0) && level < NIBBLES
      requires At(root, slot).Leaf? && At(root, slot).key != key
      requires Prefix(At(root, slot).key, level) == Prefix(key, level)
      modifies this`root, this`oom, a, a.under
      ensures a.Valid() && a.denials == old(a.denials) + (if ok then 0 else 1)
      ensures !ok ==> root == old(root) && oom && a.live == old(a.live)
      ensures ok ==> oom == old(oom) && Supplies(At(old(root), slot), level, key, blocks)
      ensures ok ==> root == Put(old(root), slot, Split(At(old(root), slot), level, key, value, blocks))
      ensures ok ==> Taken(old(a.live), blocks, a.live) && Stored(root, a.live)
      ensures ok ==> Balanced(old(a.live), old(Held()), a.live, Held())
    {
      hide Nibble, Prefix, Shaped, Chained, Spelled, Stored, Taken, Count, Owned, Blocks, Split, Shared, Total;
      ghost var live0 := a.live;
      var leaf := At(root, slot);
      var head, tail: Slot := Empty, [];
      ghost var mids: seq<Addr> := [];
      blocks := [];
      var d := Divergence(leaf.key, key, level);
      SharedDiffer(leaf.key, key, level);
      SharedStops(leaf.key, key, level);
      NothingTaken(key, level, live0);
      for l := level to d
        invariant a.Valid() && a.denials == old(a.denials) && root == old(root) && oom == old(oom) && |mids| == l - level
        invariant head == Chained(key, level, mids, Empty) && tail == Spelled(key, level, |mids|)
        invariant Taken(live0, mids, a.live)
      {
        ChainFrees(key, level, mids, live0, a.live);
        ghost var before := a.live;
        var mid := NodeNew();
        if mid == NULL {
          NodeFreeAll(a, head);
          return false, [];
        }
        ChainGrows(key, level, mids, mid);
        TakenMore(live0, mids, before, mid);
        head := Put(head, tail, Node(mid, Blank()));
        tail := tail + [Nibble(key, l)];
        mids := mids + [mid];
      }
      ChainFrees(key, level, mids, live0, a.live);
      ghost var live1 := a.live;
      var fork := NodeNew();
      if fork == NULL {
        NodeFreeAll(a, head);
        return false, [];
      }
      TakenMore(live0, mids, live1, fork);
      ghost var live2 := a.live;
      var last := NodeNew();
      if last == NULL {
        StoredMore(head, live1, fork);
        NodeFreeAll(a, head);
        MinusMinus(a.live, {}, {fork});
        a.MemRelease(fork, NODE_BYTES);
        return false, [];
      }
      TakenMore(live0, mids + [fork], live2, last);
      blocks := mids + [fork, last];
      assert mids + [fork] + [last] == blocks;
      forall p ensures Count(Split(leaf, level, key, value, blocks), p) == Count(leaf, p) + Times(blocks, p) {
        CountSplit(leaf, level, key, value, mids, fork, last, p);
      }
      Published(root, slot, Split(leaf, level, key, value, blocks), blocks, live0, a.live);
      SplitIsChain(leaf, level, key, value, mids, fork, last);
      ChainedTail(key, level, mids, Empty, Fork(leaf, key, value, d, fork, last));

      var kids := Blank();
      kids := kids[Nibble(leaf.key, d) := leaf];
      kids := kids[Nibble(key, d) := Leaf(last, key, value)];
      head := Put(head, tail, Node(fork, kids));
      root := Put(root, slot, head);
      ok := true;
    }

    /** The slot where a key's descent stops: free, or holding a leaf. An interior node
        with every nibble spent cannot be met. */
    method Descend(key: Key) returns (slot: Slot)
      requires Valid()
      ensures HasSlot(root, slot) && Leads(slot, key, 0) && !At(root, slot).Node?
      ensures Shaped(At(root, slot), |slot|, Prefix(key, |slot|))
      ensures key in Contents() <==> At(root, slot).Leaf? && At(root, slot).key == key
      ensures key in Contents() ==> Contents()[key] == At(root, slot).value
      ensures At(root, slot).Leaf? && At(root, slot).key != key ==> |slot| < NIBBLES
    {
      hide Nibble, Prefix, Stored, Total, Trie.Search, Entries;
      PrefixEnds(key);
      slot := [];
      var level := 0;
      while At(root, slot).Node?
        invariant 0 <= level == |slot| && HasSlot(root, slot) && Leads(slot, key, 0)
        decreases NIBBLES - level
      {
        SlotShaped(root, slot, 0, 0, key);
        if level >= NIBBLES { assert false; return; }
        SlotStep(root, slot, Nibble(key, level));
        slot := slot + [Nibble(key, level)];
        level := level + 1;
      }
      SlotShaped(root, slot, 0, 0, key);
      SearchIs(root, 0, 0, key);
      SearchLeaf(At(root, slot), level, key);
      if At(root, slot).Leaf? && level == NIBBLES { PrefixEnds(At(root, slot).key); }
    }

    /** bbq_htree_insert. A refusal at any allocation leaves the tree, its count and its
        generation as they were; and only a refused allocation refuses a key. */
    method Insert(key: Key, value: Addr) returns (ok: bool, ghost blocks: seq<Addr>)
      requires Valid()
      modifies this, a, a.under
      ensures Valid()
      ensures a.denials == old(a.denials) + (if ok then 0 else 1)
      ensures !ok ==> root == old(root) && count == old(count) && gen == old(gen) && oom && a.live == old(a.live)
      ensures ok ==> Contents() == old(Contents())[key := value] && gen == old(gen) + 1 && oom == old(oom)
      ensures ok ==> Supplies(old(root), 0, key, blocks) && NULL !in blocks
                     && root == Inserted(old(root), 0, key, value, blocks)
      ensures key in old(Contents()) ==> ok && a.live == old(a.live) && Owned(root) == old(Owned(root))
      ensures Balanced(old(a.live), old(Held()), a.live, Held())
    {
      hide Nibble, Prefix, Inserted, Supplies, Stored, Taken, Count, Owned, Total, Trie.Search, Entries, Shaped, Balanced, Blocks;
      Unbalanced(a.live, root);
      var slot := Descend(key);
      var here, level := At(root, slot), |slot|;
      if here == Empty {
        var n := NodeNew();
        if n == NULL { return false, []; }
        blocks := [n];
        LeafTaken(root, slot, key, value, n, old(a.live), a.live);
        root := Put(root, slot, Leaf(n, key, value));
        count := count + 1;
      } else if here.key == key {
        blocks := [];
        Overwritten(root, slot, key, value, a.live);
        root := Put(root, slot, here.(value := value));
      } else {
        LeafPrefix(here, level, Prefix(key, level));
        ok, blocks := SplitLeaf(slot, level, key, value);
        if !ok { return false, []; }
        TakenNoNull(old(a.live), blocks, a.live);
        SplitInserts(here, level, key, value, blocks);
        count := count + 1;
      }
      InsertedAtSlot(old(root), slot, 0, key, value, blocks);
      InsertedMap(old(root), key, value, blocks);
      gen := gen + 1;
      ok := true;
    }

    /** The children left in a node, counted up to two. */
    static method CountKids(kids: seq<Tree>) returns (n: nat, only: Tree)
      ensures var s := Survivors(kids, 0); n == (if s.0 < 2 then s.0 else 2) && (n == 1 ==> only == s.1)
    {
      n, only := 0, Empty;
      var i := 0;
      while i < |kids| && n < 2
        invariant 0 <= i <= |kids| && n <= 2
        invariant n < 2 ==> n + Survivors(kids, i).0 == Survivors(kids, 0).0
        invariant n == 2 ==> Survivors(kids, 0).0 >= 2
        invariant n == 1 && Survivors(kids, i).0 == 0 ==> only == Survivors(kids, 0).1
        invariant n == 0 ==> Survivors(kids, i) == Survivors(kids, 0)
      {
        if kids[i] != Empty {
          only := kids[i];
          n := n + 1;
        }
        i := i + 1;
      }
    }

    /** bbq_htree_delete. */
    method Delete(key: Key) returns (v: Addr, found: bool)
      requires Valid()
      modifies this, a, a.under
      ensures Valid()
      ensures found <==> key in old(Contents())
      ensures v == if found then old(Contents())[key] else NULL
      ensures Contents() == old(Contents()) - {key} && root == Deleted(old(root), 0, key) && oom == old(oom)
      ensures a.denials == old(a.denials)
      ensures gen == old(gen) + (if found then 1 else 0) && (!found ==> a.live == old(a.live))
      ensures Balanced(old(a.live), old(Held()), a.live, Held())
    {
      hide Nibble, Prefix, Deleted, Stored, Count, Owned, Total, Trie.Search, Entries, Walked, Collapse, Survivors, Blocks,
           Balanced, Shaped;
      Unbalanced(a.live, root);
      DeletedMap(root, key);
      var slot := Descend(key);
      var leaf, depth := At(root, slot), |slot|;
      SearchLeaf(leaf, depth, key);
      if leaf == Empty || leaf.key != key {
        PrefixEnds(key);
        SearchIs(root, 0, 0, key);
        DeletedAbsent(root, 0, key);
        return NULL, false;
      }
      v, found := leaf.value, true;
      LeafReleased(root, slot, a.live);
      WalkStarts(root, slot, key);
      a.MemRelease(leaf.at, NODE_BYTES);
      root := Put(root, slot, Empty);
      count := count - 1;
      gen := gen + 1;
      ghost var live1, held1 := a.live, Held();
      WalkBack(slot, key, old(root));
      BalancedTrans(old(a.live), old(Held()), live1, held1, a.live, Held());
    }

    /** Walk back up. An interior node with nothing left goes; one with a single remaining
        leaf is replaced by that leaf. */
    method WalkBack(slot: Slot, key: Key, ghost t0: Tree)
      requires a.Valid() && Stored(root, a.live)
      requires Shaped(t0, 0, 0) && HasSlot(t0, slot) && Leads(slot, key, 0)
      requires Trie.Search(At(t0, slot), |slot|, key).Some?
      requires Walked(t0, slot, |slot|, key, root)
      modifies this`root, a, a.under
      ensures a.Valid() && Stored(root, a.live) && root == Deleted(t0, 0, key) && a.denials == old(a.denials)
      ensures Balanced(old(a.live), old(Held()), a.live, Held())
    {
      hide Nibble, Prefix, Deleted, Stored, Count, Owned, Total, Trie.Search, Walked, Collapse, Survivors, Blocks, Balanced,
           Shaped;
      Unbalanced(a.live, root);
      var depth := |slot|;
      while depth > 0
        invariant 0 <= depth <= |slot|
        invariant a.Valid() && a.denials == old(a.denials) && Walked(t0, slot, depth, key, root) && Stored(root, a.live)
        invariant Balanced(old(a.live), old(Held()), a.live, Blocks(root))
      {
        depth := depth - 1;
        WalkStep(t0, slot, depth, key, root);
        var pslot := slot[..depth];
        var p := At(root, pslot);
        var n, only := CountKids(p.kids);
        CollapseSpelled(p);
        if n == 0 {
          NodeReleased(root, pslot, a.live);
          BalancedTrans(old(a.live), old(Held()), a.live, Blocks(root), a.live - {p.at}, Blocks(Put(root, pslot, Empty)));
          a.MemRelease(p.at, NODE_BYTES);
          root := Put(root, pslot, Empty);
        } else if n == 1 && only.Leaf? {
          NodeReleased(root, pslot, a.live);
          BalancedTrans(old(a.live), old(Held()), a.live, Blocks(root), a.live - {p.at}, Blocks(Put(root, pslot, only)));
          a.MemRelease(p.at, NODE_BYTES);
          root := Put(root, pslot, only);
        } else {
          return;
        }
      }
      WalkEnds(t0, slot, key, root);
    }

    /** bbq_htree_clear: every block goes back, and the tree stays usable. */
    method Clear()
      requires Valid()
      modifies this, a, a.under
      ensures Valid() && root == Empty && Contents() == map[] && gen == old(gen) + 1 && oom == old(oom)
      ensures a.live == old(a.live) - old(Held()).Keys && Held() == map[] && a.denials == old(a.denials)
    {
      hide Stored, Owned, Count, Total, Shaped, Size, Entries, Prefix;
      NodeFreeAll(a, root);
      root := Empty;
      count := 0;
      gen := gen + 1;
      EmptyStored(a.live);
    }

    /** bbq_htree_free. */
    method Free()
      requires Valid()
      modifies this, a, a.under
      ensures Valid() && root == Empty && Contents() == map[] && gen == old(gen) + 1 && !oom
      ensures a.live == old(a.live) - old(Held()).Keys && Held() == map[] && a.denials == old(a.denials)
    {
      Clear();
      oom := false;
    }
  }

  lemma Unbalanced(live: Ledger, t: Tree)
    requires Stored(t, live)
    ensures Balanced(live, Blocks(t), live, Blocks(t))
  {
    forall p: Addr | p in Owned(t) ensures Count(t, p) == 1 {
      OwnedCount(t, p);
    }
  }

  lemma EmptyStored(live: Ledger)
    ensures Stored(Empty, live) && Blocks(Empty) == map[]
    ensures Shaped(Empty, 0, 0) && Size(Empty) == 0 && Entries(Empty) == map[]
  {}

  lemma LeafTaken(t: Tree, s: Slot, key: Key, value: Addr, n: Addr, live0: Ledger, live1: Ledger)
    requires HasSlot(t, s) && At(t, s) == Empty && |s| <= NIBBLES && Stored(t, live0)
    requires n !in live0 && n != NULL && live1 == live0[n := NODE_BYTES]
    ensures Supplies(Empty, |s|, key, [n]) && Inserted(Empty, |s|, key, value, [n]) == Leaf(n, key, value)
    ensures Stored(Put(t, s, Leaf(n, key, value)), live1)
    ensures Balanced(live0, Blocks(t), live1, Blocks(Put(t, s, Leaf(n, key, value))))
  {
    forall p ensures Times([n], p) == if n == p then 1 else 0 { assert [n][1..] == []; }
    assert Taken(live0, [n], live1);
    Published(t, s, Leaf(n, key, value), [n], live0, live1);
  }

  lemma Overwritten(t: Tree, s: Slot, key: Key, value: Addr, live: Ledger)
    requires HasSlot(t, s) && At(t, s).Leaf? && At(t, s).key == key && |s| <= NIBBLES && Stored(t, live)
    ensures var x := At(t, s).(value := value);
            && Supplies(At(t, s), |s|, key, []) && Inserted(At(t, s), |s|, key, value, []) == x
            && Stored(Put(t, s, x), live) && Balanced(live, Blocks(t), live, Blocks(Put(t, s, x)))
            && Owned(Put(t, s, x)) == Owned(t)
  {
    assert Taken(live, [], live);
    Published(t, s, At(t, s).(value := value), [], live, live);
  }

  lemma SplitInserts(leaf: Tree, level: nat, key: Key, value: Addr, blocks: seq<Addr>)
    requires leaf.Leaf? && level < NIBBLES && leaf.key != key && Supplies(leaf, level, key, blocks)
    ensures Inserted(leaf, level, key, value, blocks) == Split(leaf, level, key, value, blocks)
  {}

  lemma LeafPrefix(t: Tree, level: nat, p: nat)
    requires t.Leaf? && Shaped(t, level, p)
    ensures Prefix(t.key, level) == p
  {}

  lemma SearchLeaf(t: Tree, level: nat, key: Key)
    requires level <= NIBBLES && !t.Node?
    ensures Trie.Search(t, level, key) == if t.Leaf? && t.key == key then Some(t.value) else None
  {}

  lemma LeafReleased(t: Tree, s: Slot, live: Ledger)
    requires HasSlot(t, s) && At(t, s).Leaf? && Stored(t, live)
    ensures var at := At(t, s).at;
            && at in live && live[at] == NODE_BYTES && Stored(Put(t, s, Empty), live - {at})
            && Balanced(live, Blocks(t), live - {at}, Blocks(Put(t, s, Empty)))
  {
    Released(t, s, Empty, At(t, s).at, live);
  }

  lemma WalkStarts(t: Tree, slot: Slot, key: Key)
    requires HasSlot(t, slot) && |slot| <= NIBBLES && At(t, slot).Leaf? && At(t, slot).key == key
    ensures Walked(t, slot, |slot|, key, Put(t, slot, Empty))
  {
    assert slot[..|slot|] == slot;
  }

  lemma WalkEnds(t0: Tree, slot: Slot, key: Key, t: Tree)
    requires Walked(t0, slot, 0, key, t)
    ensures t == Deleted(t0, 0, key)
  {}

  lemma CollapseSpelled(p: Tree)
    requires p.Node?
    ensures var (n, only) := Survivors(p.kids, 0);
            && (n == 0 ==> Collapse(p) == Empty) && (n == 1 && only.Leaf? ==> Collapse(p) == only)
            && (n != 0 && !(n == 1 && only.Leaf?) ==> Collapse(p) == p)
  {}

  lemma NodeReleased(t: Tree, s: Slot, live: Ledger)
    requires HasSlot(t, s) && At(t, s).Node? && Collapse(At(t, s)) != At(t, s) && Stored(t, live)
    ensures var p := At(t, s);
            && p.at in live && live[p.at] == NODE_BYTES && Stored(Put(t, s, Collapse(p)), live - {p.at})
            && Balanced(live, Blocks(t), live - {p.at}, Blocks(Put(t, s, Collapse(p))))
  {
    hide Count, Collapse;
    forall p ensures Count(At(t, s), p) == Count(Collapse(At(t, s)), p) + (if p == At(t, s).at then 1 else 0) {
      CollapseCount(At(t, s), p);
    }
    Released(t, s, Collapse(At(t, s)), At(t, s).at, live);
  }

  lemma NothingTaken(key: Key, level: nat, live: Ledger)
    requires level <= NIBBLES
    ensures Taken(live, [], live) && Chained(key, level, [], Empty) == Empty && Spelled(key, level, 0) == []
  {}

  /** Another block taken leaves a stored tree stored, and freeing the tree leaves just it. */
  lemma StoredMore(t: Tree, live: Ledger, b: Addr)
    requires Stored(t, live) && b !in live
    ensures Stored(t, live[b := NODE_BYTES])
    ensures b !in Owned(t) && live[b := NODE_BYTES] - Owned(t) == (live - Owned(t))[b := NODE_BYTES]
    ensures b !in live - Owned(t) && (live - Owned(t))[b := NODE_BYTES] - {b} == live - Owned(t)
  {
    OwnedCount(t, b);
  }
}
