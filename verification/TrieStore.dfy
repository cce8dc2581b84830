/** Slots and blocks of a trie: a slot is the path of nibbles that leads to it, and every
    node is one block of one size. */
module TrieStore {
  import opened Syntax
  import opened Alloc
  import opened Trie
  import opened TrieOps

  // ── Slots ─────────────────────────────────────────────────────────────

  type Slot = seq<nat>

  predicate HasSlot(t: Tree, s: Slot) {
    s == [] || (t.Node? && |t.kids| == 16 && s[0] < 16 && HasSlot(t.kids[s[0]], s[1..]))
  }

  /** What the slot holds. */
  function At(t: Tree, s: Slot): Tree
    requires HasSlot(t, s)
  {
    if s == [] then t else At(t.kids[s[0]], s[1..])
  }

  /** The tree after the slot is assigned. */
  function Put(t: Tree, s: Slot, x: Tree): Tree
    requires HasSlot(t, s)
  {
    if s == [] then x else Node(t.at, t.kids[s[0] := Put(t.kids[s[0]], s[1..], x)])
  }

  /** A slot is on the way to a key when it spells the key's first nibbles. */
  predicate Leads(s: Slot, key: Key, level: nat) {
    level + |s| <= NIBBLES && forall i :: 0 <= i < |s| ==> s[i] == Nibble(key, level + i)
  }

  lemma {:induction false} SlotStep(t: Tree, s: Slot, i: nat)
    requires HasSlot(t, s) && At(t, s).Node? && |At(t, s).kids| == 16 && i < 16
    ensures HasSlot(t, s + [i]) && At(t, s + [i]) == At(t, s).kids[i]
    ensures forall x :: Put(t, s + [i], x) == Put(t, s, Node(At(t, s).at, At(t, s).kids[i := x]))
  {
    if s != [] {
      SlotStep(t.kids[s[0]], s[1..], i);
      assert (s + [i])[1..] == s[1..] + [i];
      assert (s + [i])[0] == s[0];
    } else {
      assert ([] + [i]) == [i];
      assert [i][1..] == [];
    }
  }

  lemma {:induction false} PutPut(t: Tree, s: Slot, x: Tree, y: Tree)
    requires HasSlot(t, s)
    ensures HasSlot(Put(t, s, x), s) && At(Put(t, s, x), s) == x && Put(Put(t, s, x), s, y) == Put(t, s, y)
    ensures Put(t, s, At(t, s)) == t
  {
    if s != [] {
      PutPut(t.kids[s[0]], s[1..], x, y);
      var kids := t.kids;
      assert kids[s[0] := Put(kids[s[0]], s[1..], x)][s[0] := Put(kids[s[0]], s[1..], y)] == kids[s[0] := Put(kids[s[0]], s[1..], y)];
      assert kids[s[0] := kids[s[0]]] == kids;
    }
  }

  /** Below a shaped tree, a slot on the way to a key holds a shaped tree. */
  lemma {:induction false} SlotShaped(t: Tree, s: Slot, level: nat, p: nat, key: Key)
    requires Shaped(t, level, p) && Prefix(key, level) == p && HasSlot(t, s) && Leads(s, key, level)
    ensures Shaped(At(t, s), level + |s|, Prefix(key, level + |s|))
    ensures Search(t, level, key) == Search(At(t, s), level + |s|, key)
  {
    hide Prefix, Nibble;
    if s != [] {
      PrefixStep(key, level);
      assert s[0] == Nibble(key, level + 0);
      assert forall i :: 0 <= i < |s[1..]| ==> s[1..][i] == s[1 + i];
      SlotShaped(t.kids[s[0]], s[1..], level + 1, 16 * p + s[0], key);
    }
  }

  /** Inserting happens at the slot where the descent stops. */
  lemma {:induction false} InsertedAtSlot(t: Tree, s: Slot, level: nat, key: Key, value: Addr, blocks: seq<Addr>)
    requires level <= NIBBLES && HasSlot(t, s) && Leads(s, key, level)
    requires Supplies(At(t, s), level + |s|, key, blocks)
    ensures Supplies(t, level, key, blocks)
    ensures Inserted(t, level, key, value, blocks) == Put(t, s, Inserted(At(t, s), level + |s|, key, value, blocks))
  {
    hide Nibble;
    if s != [] {
      assert s[0] == Nibble(key, level + 0);
      assert forall i :: 0 <= i < |s[1..]| ==> s[1..][i] == s[1 + i];
      InsertedAtSlot(t.kids[s[0]], s[1..], level + 1, key, value, blocks);
    }
  }

  /** Deleting needs no work above a slot that still holds an interior node. */
  lemma {:induction false} DeletedAtSlot(t: Tree, s: Slot, level: nat, p: nat, key: Key)
    requires Shaped(t, level, p) && Prefix(key, level) == p && HasSlot(t, s) && Leads(s, key, level)
    requires Search(At(t, s), level + |s|, key).Some?
    requires s == [] || Deleted(At(t, s), level + |s|, key).Node?
    ensures Deleted(t, level, key) == Put(t, s, Deleted(At(t, s), level + |s|, key))
  {
    hide Prefix, Nibble, Collapse;
    if s != [] {
      var i := s[0];
      assert i == Nibble(key, level + 0);
      assert forall i :: 0 <= i < |s[1..]| ==> s[1..][i] == s[1 + i];
      PrefixStep(key, level);
      SlotShaped(t.kids[i], s[1..], level + 1, 16 * p + i, key);
      DeletedAtSlot(t.kids[i], s[1..], level + 1, 16 * p + i, key);
      var x := Put(t.kids[i], s[1..], Deleted(At(t, s), level + |s|, key));
      assert x == Deleted(t.kids[i], level + 1, key) && x.Node?;
      DeletedIs(t.kids[i], level + 1, 16 * p + i, key);
      NodeStands(Node(t.at, t.kids[i := x]), i);
    }
  }

  lemma NodeStands(t: Tree, i: nat)
    requires t.Node? && i < |t.kids| && t.kids[i].Node?
    ensures Collapse(t) == t
  {
    hide Survivors;
    SurvivorsAre(t.kids, 0);
    assert t.kids[i] != Empty;
  }

  // ── Blocks ────────────────────────────────────────────────────────────

  /** How many nodes of the tree live at an address. */
  function Count(t: Tree, p: Addr): nat {
    match t
    case Empty => 0
    case Leaf(at, _, _) => if at == p then 1 else 0
    case Node(at, kids) => (if at == p then 1 else 0) + CountAll(kids, p)
  }

  function CountAll(kids: seq<Tree>, p: Addr): nat {
    if kids == [] then 0 else CountAll(kids[..|kids| - 1], p) + Count(kids[|kids| - 1], p)
  }

  function Owned(t: Tree): set<Addr> {
    match t
    case Empty => {}
    case Leaf(at, _, _) => {at}
    case Node(at, kids) => {at} + OwnedAll(kids)
  }

  function OwnedAll(kids: seq<Tree>): set<Addr> {
    if kids == [] then {} else OwnedAll(kids[..|kids| - 1]) + Owned(kids[|kids| - 1])
  }

  lemma {:induction false} OwnedCount(t: Tree, p: Addr)
    ensures p in Owned(t) <==> Count(t, p) > 0
    decreases t, 0
  {
    if t.Node? { OwnedCountAll(t.kids, p); }
  }

  lemma {:induction false} OwnedCountAll(kids: seq<Tree>, p: Addr)
    ensures p in OwnedAll(kids) <==> CountAll(kids, p) > 0
    decreases kids, 1
  {
    if kids != [] {
      OwnedCountAll(kids[..|kids| - 1], p);
      OwnedCount(kids[|kids| - 1], p);
    }
  }

  /** The tree's blocks as a ledger. */
  function Blocks(t: Tree): Ledger {
    map p | p in Owned(t) :: NODE_BYTES
  }

  /** No two nodes share a block, and every node's block is live. */
  ghost predicate Stored(t: Tree, live: Ledger) {
    forall p: Addr :: Count(t, p) <= 1 && (Count(t, p) == 1 ==> p in live && live[p] == NODE_BYTES)
  }

  lemma {:induction false} CountAt(kids: seq<Tree>, i: nat, x: Tree, p: Addr)
    requires i < |kids|
    ensures CountAll(kids[i := x], p) + Count(kids[i], p) == CountAll(kids, p) + Count(x, p)
  {
    var n := |kids| - 1;
    if i < n {
      CountAt(kids[..n], i, x, p);
      assert kids[i := x][..n] == kids[..n][i := x];
    } else {
      assert kids[i := x][..n] == kids[..n];
    }
  }

  lemma {:induction false} CountBlank(n: nat, p: Addr)
    requires n <= 16
    ensures CountAll(Blank()[..n], p) == 0 && Blank()[..16] == Blank()
  {
    if n > 0 {
      assert Blank()[..n][..n - 1] == Blank()[..n - 1];
      CountBlank(n - 1, p);
    }
  }

  lemma {:induction false} CountPut(t: Tree, s: Slot, x: Tree, p: Addr)
    requires HasSlot(t, s)
    ensures Count(Put(t, s, x), p) + Count(At(t, s), p) == Count(t, p) + Count(x, p)
  {
    if s != [] {
      CountPut(t.kids[s[0]], s[1..], x, p);
      CountAt(t.kids, s[0], Put(t.kids[s[0]], s[1..], x), p);
    }
  }

  // ── The chain a split builds ──────────────────────────────────────────

  /** Interior nodes along a key's nibbles from `level`, one per block, ending in x. */
  function Chained(key: Key, level: nat, blocks: seq<Addr>, x: Tree): Tree
    requires level + |blocks| <= NIBBLES
    decreases |blocks|
  {
    if blocks == [] then x
    else Node(blocks[0], Blank()[Nibble(key, level) := Chained(key, level + 1, blocks[1..], x)])
  }

  function Spelled(key: Key, level: nat, n: nat): (s: Slot)
    requires level + n <= NIBBLES
    ensures |s| == n && forall i :: 0 <= i < n ==> s[i] == Nibble(key, level + i)
    decreases n
  {
    if n == 0 then [] else [Nibble(key, level)] + Spelled(key, level + 1, n - 1)
  }

  lemma {:induction false} ChainedTail(key: Key, level: nat, blocks: seq<Addr>, x: Tree, y: Tree)
    requires level + |blocks| <= NIBBLES
    ensures var c := Chained(key, level, blocks, x);
            var s := Spelled(key, level, |blocks|);
            HasSlot(c, s) && At(c, s) == x && Put(c, s, y) == Chained(key, level, blocks, y)
    decreases |blocks|
  {
    hide Nibble;
    var s := Spelled(key, level, |blocks|);
    if blocks != [] {
      assert s[1..] == Spelled(key, level + 1, |blocks| - 1);
      ChainedTail(key, level + 1, blocks[1..], x, y);
    }
  }

  lemma {:induction false} ChainedMore(key: Key, level: nat, blocks: seq<Addr>, b: Addr, x: Tree)
    requires level + |blocks| < NIBBLES
    ensures Chained(key, level, blocks, Node(b, Blank()[Nibble(key, level + |blocks|) := x]))
            == Chained(key, level, blocks + [b], x)
    decreases |blocks|
  {
    hide Nibble;
    if blocks != [] {
      ChainedMore(key, level + 1, blocks[1..], b, x);
      assert (blocks + [b])[1..] == blocks[1..] + [b];
    } else {
      assert ([] + [b])[1..] == [];
    }
  }

  function Fork(leaf: Tree, key: Key, value: Addr, d: nat, fork: Addr, last: Addr): Tree
    requires leaf.Leaf? && d < NIBBLES
  {
    Node(fork, Blank()[Nibble(leaf.key, d) := leaf][Nibble(key, d) := Leaf(last, key, value)])
  }

  lemma {:induction false} SplitIsChain(leaf: Tree, level: nat, key: Key, value: Addr, mids: seq<Addr>, fork: Addr, last: Addr)
    requires leaf.Leaf? && level + |mids| < NIBBLES && |mids| == Shared(leaf.key, key, level)
    ensures Split(leaf, level, key, value, mids + [fork, last])
            == Chained(key, level, mids, Fork(leaf, key, value, level + |mids|, fork, last))
    decreases |mids|
  {
    hide Nibble;
    var blocks := mids + [fork, last];
    if mids != [] {
      assert blocks[1..] == mids[1..] + [fork, last];
      SplitIsChain(leaf, level + 1, key, value, mids[1..], fork, last);
    }
  }

  function Times(blocks: seq<Addr>, p: Addr): nat {
    if blocks == [] then 0 else (if blocks[0] == p then 1 else 0) + Times(blocks[1..], p)
  }

  lemma {:induction false} CountChained(key: Key, level: nat, blocks: seq<Addr>, x: Tree, p: Addr)
    requires level + |blocks| <= NIBBLES
    ensures Count(Chained(key, level, blocks, x), p) == Times(blocks, p) + Count(x, p)
    decreases |blocks|
  {
    hide Nibble;
    if blocks != [] {
      CountChained(key, level + 1, blocks[1..], x, p);
      CountBlank(16, p);
      CountAt(Blank(), Nibble(key, level), Chained(key, level + 1, blocks[1..], x), p);
    }
  }

  lemma CountFork(leaf: Tree, key: Key, value: Addr, d: nat, fork: Addr, last: Addr, p: Addr)
    requires leaf.Leaf? && d < NIBBLES && Nibble(leaf.key, d) != Nibble(key, d)
    ensures Count(Fork(leaf, key, value, d, fork, last), p)
            == Count(leaf, p) + (if p == fork then 1 else 0) + (if p == last then 1 else 0)
  {
    hide Nibble;
    CountBlank(16, p);
    CountAt(Blank(), Nibble(leaf.key, d), leaf, p);
    CountAt(Blank()[Nibble(leaf.key, d) := leaf], Nibble(key, d), Leaf(last, key, value), p);
  }
}
