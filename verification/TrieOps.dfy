/** Insertion and deletion on the trie, as functions of the tree: what they do to the map,
    that they keep the shape, and that the shape leaves no freedom. */
module TrieOps {
  import opened Syntax
  import opened Alloc
  import opened Trie

  // ── Insertion ─────────────────────────────────────────────────────────

  /** The leaf `leaf` and a new key under a chain of interior nodes down to the first nibble
      where the two differ. The blocks of the chain are the first of `blocks`; the new leaf's
      is the last. */
  function Split(leaf: Tree, level: nat, key: Key, value: Addr, blocks: seq<Addr>): (t: Tree)
    requires leaf.Leaf? && level < NIBBLES && |blocks| >= 2
    decreases |blocks|
  {
    var there, here := Nibble(leaf.key, level), Nibble(key, level);
    if there == here && level < NIBBLES - 1 && |blocks| > 2 then
      Node(blocks[0], Blank()[here := Split(leaf, level + 1, key, value, blocks[1..])])
    else
      Node(blocks[0], Blank()[there := leaf][here := Leaf(blocks[|blocks| - 1], key, value)])
  }

  /** The number of nibbles the two keys share from `level` on. */
  function Shared(a: Key, b: Key, level: nat): (n: nat)
    requires level <= NIBBLES
    ensures level + n <= NIBBLES
    decreases NIBBLES - level
  {
    if level == NIBBLES || Nibble(a, level) != Nibble(b, level) then 0 else 1 + Shared(a, b, level + 1)
  }

  function Inserted(t: Tree, level: nat, key: Key, value: Addr, blocks: seq<Addr>): Tree
    requires level <= NIBBLES && Supplies(t, level, key, blocks)
  {
    match t
    case Empty => Leaf(blocks[0], key, value)
    case Leaf(at, k, _) =>
      if k == key then Leaf(at, k, value)
      else if level == NIBBLES then t
      else Split(t, level, key, value, blocks)
    case Node(at, kids) =>
      if level == NIBBLES || |kids| != 16 then t
      else Node(at, kids[Nibble(key, level) := Inserted(kids[Nibble(key, level)], level + 1, key, value, blocks)])
  }

  /** The blocks an insertion takes: none to replace a value, one for a leaf in a free
      position, and a chain, a fork and a leaf for a split. */
  predicate Supplies(t: Tree, level: nat, key: Key, blocks: seq<Addr>)
    requires level <= NIBBLES
  {
    match t
    case Empty => |blocks| == 1
    case Leaf(_, k, _) => if k == key then |blocks| == 0 else |blocks| == Shared(k, key, level) + 2
    case Node(_, kids) =>
      level < NIBBLES && |kids| == 16 ==> Supplies(kids[Nibble(key, level)], level + 1, key, blocks)
  }

  lemma {:induction false} SharedDiffer(a: Key, b: Key, level: nat)
    requires level <= NIBBLES && Prefix(a, level) == Prefix(b, level) && a != b
    ensures level + Shared(a, b, level) < NIBBLES
    decreases NIBBLES - level
  {
    hide Prefix, Nibble;
    if level == NIBBLES {
      PrefixEnds(a);
      PrefixEnds(b);
    } else if Nibble(a, level) == Nibble(b, level) {
      PrefixStep(a, level);
      PrefixStep(b, level);
      SharedDiffer(a, b, level + 1);
    }
  }

  lemma {:induction false} SizeAt(kids: seq<Tree>, i: nat, x: Tree)
    requires i < |kids|
    ensures SizeAll(kids[i := x]) + Size(kids[i]) == SizeAll(kids) + Size(x)
  {
    var n := |kids| - 1;
    if i < n {
      SizeAt(kids[..n], i, x);
      assert kids[i := x][..n] == kids[..n][i := x];
    } else {
      assert kids[i := x][..n] == kids[..n];
    }
  }

  lemma {:induction false} SizeBlank(n: nat)
    requires n <= 16
    ensures SizeAll(Blank()[..n]) == 0 && Blank()[..16] == Blank()
  {
    if n > 0 {
      assert Blank()[..n][..n - 1] == Blank()[..n - 1];
      SizeBlank(n - 1);
    }
  }

  /** A split keeps the shape, answers for the two keys, and for nothing else. */
  lemma {:induction false} SplitIs(leaf: Tree, level: nat, p: nat, key: Key, value: Addr, blocks: seq<Addr>)
    requires leaf.Leaf? && Shaped(leaf, level, p) && level < NIBBLES && Prefix(key, level) == p && leaf.key != key
    requires |blocks| == Shared(leaf.key, key, level) + 2 && NULL !in blocks
    ensures var t := Split(leaf, level, key, value, blocks);
            && Shaped(t, level, p) && Size(t) == 2
            && forall k: Key :: Search(t, level, k) == if k == key then Some(value) else Search(leaf, level, k)
    decreases NIBBLES - level
  {
    hide Prefix, Nibble;
    var t := Split(leaf, level, key, value, blocks);
    var there, here := Nibble(leaf.key, level), Nibble(key, level);
    PrefixStep(leaf.key, level);
    PrefixStep(key, level);
    SharedDiffer(leaf.key, key, level);
    SizeBlank(16);
    if there == here {
      var sub := Split(leaf, level + 1, key, value, blocks[1..]);
      SplitIs(leaf, level + 1, 16 * p + here, key, value, blocks[1..]);
      SizeAt(Blank(), here, sub);
      forall k: Key ensures Search(t, level, k) == if k == key then Some(value) else Search(leaf, level, k) {
        if Nibble(k, level) == here {
          assert Search(t, level, k) == Search(sub, level + 1, k);
        }
      }
    } else {
      SizeAt(Blank(), there, leaf);
      SizeAt(Blank()[there := leaf], here, Leaf(blocks[|blocks| - 1], key, value));
    }
  }

  /** Insertion keeps the shape, adds one leaf for a new key, and answers for the new value
      at its key and as before everywhere else. */
  lemma {:induction false} InsertedIs(t: Tree, level: nat, p: nat, key: Key, value: Addr, blocks: seq<Addr>)
    requires Shaped(t, level, p) && Prefix(key, level) == p && Supplies(t, level, key, blocks) && NULL !in blocks
    ensures var u := Inserted(t, level, key, value, blocks);
            && Shaped(u, level, p)
            && Size(u) == Size(t) + (if Search(t, level, key).None? then 1 else 0)
            && forall k: Key :: Search(u, level, k) == if k == key then Some(value) else Search(t, level, k)
  {
    hide Prefix, Nibble;
    match t
    case Empty =>
    case Leaf(at, k, _) =>
      if k != key {
        if level == NIBBLES {
          PrefixEnds(k);
          PrefixEnds(key);
        } else {
          SplitIs(t, level, p, key, value, blocks);
        }
      }
    case Node(at, kids) =>
      var i := Nibble(key, level);
      PrefixStep(key, level);
      InsertedIs(kids[i], level + 1, 16 * p + i, key, value, blocks);
      SizeAt(kids, i, Inserted(kids[i], level + 1, key, value, blocks));
  }

  // ── Deletion ──────────────────────────────────────────────────────────

  /** The children that are not empty, counted up to two, and the last one seen. */
  function Survivors(kids: seq<Tree>, i: nat): (r: (nat, Tree))
    requires i <= |kids|
    decreases |kids| - i
  {
    if i == |kids| then (0, Empty)
    else
      var rest := Survivors(kids, i + 1);
      if kids[i] == Empty then rest
      else (rest.0 + 1, kids[i])
  }

  /** An interior node with nothing left goes; one left with a single leaf is that leaf. */
  function Collapse(t: Tree): Tree
    requires t.Node?
  {
    var s := Survivors(t.kids, 0);
    if s.0 == 0 then Empty
    else if s.0 == 1 && s.1.Leaf? then s.1
    else t
  }

  function Deleted(t: Tree, level: nat, key: Key): Tree
    requires level <= NIBBLES
  {
    match t
    case Empty => Empty
    case Leaf(_, k, _) => if k == key then Empty else t
    case Node(at, kids) =>
      if level == NIBBLES || |kids| != 16 then t
      else
        var i := Nibble(key, level);
        if Search(kids[i], level + 1, key).None? then t
        else Collapse(Node(at, kids[i := Deleted(kids[i], level + 1, key)]))
  }

  lemma {:induction false} SurvivorsAre(kids: seq<Tree>, i: nat)
    requires i <= |kids|
    ensures var (n, only) := Survivors(kids, i);
            && (n == 0 <==> forall j :: i <= j < |kids| ==> kids[j] == Empty)
            && (n > 0 ==> exists j :: i <= j < |kids| && kids[j] == only && only != Empty)
            && (n == 1 ==> forall j, k :: i <= j < k < |kids| ==> kids[j] == Empty || kids[k] == Empty)
            && (n >= 2 ==> exists j, k :: i <= j < k < |kids| && kids[j] != Empty && kids[k] != Empty)
    decreases |kids| - i
  {
    if i < |kids| {
      SurvivorsAre(kids, i + 1);
      var (m, last) := Survivors(kids, i + 1);
      if m > 0 && kids[i] != Empty {
        var j :| i < j < |kids| && kids[j] == last && last != Empty;
        assert kids[i] != Empty && kids[j] != Empty;
      }
    }
  }

  lemma {:induction false} SizeEmpty(kids: seq<Tree>)
    requires forall j :: 0 <= j < |kids| ==> kids[j] == Empty
    ensures SizeAll(kids) == 0
  {
    if kids != [] { SizeEmpty(kids[..|kids| - 1]); }
  }

  lemma SizeOf(kids: seq<Tree>, j: nat)
    requires j < |kids|
    ensures SizeAll(kids) == Size(kids[j]) + SizeAll(kids[j := Empty])
  {
    SizeAt(kids, j, Empty);
  }

  ghost predicate KidsShaped(kids: seq<Tree>, level: nat, p: nat) {
    |kids| == 16 && level < NIBBLES && forall i :: 0 <= i < 16 ==> Shaped(kids[i], level + 1, 16 * p + i)
  }

  lemma SizePositive(t: Tree, level: nat, p: nat)
    requires Shaped(t, level, p)
    ensures t != Empty ==> Size(t) >= 1
    ensures t.Node? ==> Size(t) >= 2
  {}

  /** Fewer than two keys below exactly when the walk back up would replace the node. */
  lemma SurvivorSizes(kids: seq<Tree>, level: nat, p: nat)
    requires KidsShaped(kids, level, p)
    ensures var (n, only) := Survivors(kids, 0);
            && (n == 0 ==> SizeAll(kids) == 0)
            && (n == 1 ==> SizeAll(kids) == Size(only))
            && (n == 1 && !only.Leaf? ==> SizeAll(kids) >= 2)
            && (n >= 2 ==> SizeAll(kids) >= 2)
  {
    hide Survivors, Shaped;
    SurvivorsAre(kids, 0);
    var (n, only) := Survivors(kids, 0);
    if n == 0 {
      SizeEmpty(kids);
    } else if n == 1 {
      var j :| 0 <= j < 16 && kids[j] == only && only != Empty;
      SizeOf(kids, j);
      SizeEmpty(kids[j := Empty]);
      SizePositive(only, level + 1, 16 * p + j);
    } else {
      var j, k :| 0 <= j < k < 16 && kids[j] != Empty && kids[k] != Empty;
      SizeOf(kids, j);
      SizeOf(kids[j := Empty], k);
      SizePositive(kids[j], level + 1, 16 * p + j);
      SizePositive(kids[k], level + 1, 16 * p + k);
    }
  }

  lemma CollapseIs(t: Tree, level: nat, p: nat)
    requires t.Node? && t.at != NULL && KidsShaped(t.kids, level, p)
    ensures Shaped(Collapse(t), level, p) && Size(Collapse(t)) == SizeAll(t.kids)
    ensures forall k: Key :: Search(Collapse(t), level, k) == Search(t, level, k)
  {
    hide Prefix, Nibble, Survivors;
    SurvivorSizes(t.kids, level, p);
    SurvivorsAre(t.kids, 0);
    var (n, only) := Survivors(t.kids, 0);
    if n == 1 && only.Leaf? {
      var j :| 0 <= j < 16 && t.kids[j] == only;
      PrefixStep(only.key, level);
      forall k: Key ensures Search(only, level, k) == Search(t, level, k) {}
    }
  }

  /** Deletion keeps the shape, forgets the key and nothing else. */
  lemma {:induction false} DeletedIs(t: Tree, level: nat, p: nat, key: Key)
    requires Shaped(t, level, p) && Prefix(key, level) == p
    ensures var u := Deleted(t, level, key);
            && Shaped(u, level, p)
            && Size(t) == Size(u) + (if Search(t, level, key).Some? then 1 else 0)
            && forall k: Key :: Search(u, level, k) == if k == key then None else Search(t, level, k)
  {
    hide Prefix, Nibble, Collapse;
    if t.Node? {
      var i := Nibble(key, level);
      PrefixStep(key, level);
      if Search(t.kids[i], level + 1, key).Some? {
        var x := Deleted(t.kids[i], level + 1, key);
        DeletedIs(t.kids[i], level + 1, 16 * p + i, key);
        SizeAt(t.kids, i, x);
        CollapseIs(Node(t.at, t.kids[i := x]), level, p);
      }
    }
  }

  /** Deleting an absent key changes nothing. */
  lemma DeletedAbsent(t: Tree, level: nat, key: Key)
    requires level <= NIBBLES && Search(t, level, key).None?
    ensures Deleted(t, level, key) == t
  {}

  /** Inserting a new key and deleting it again gives back the very tree, blocks and all. */
  lemma {:induction false} InsertThenDelete(t: Tree, level: nat, p: nat, key: Key, value: Addr, blocks: seq<Addr>)
    requires Shaped(t, level, p) && Prefix(key, level) == p && Search(t, level, key).None?
    requires Supplies(t, level, key, blocks) && NULL !in blocks
    ensures Deleted(Inserted(t, level, key, value, blocks), level, key) == t
  {
    hide Prefix, Nibble;
    match t
    case Empty =>
    case Leaf(_, k, _) =>
      if level == NIBBLES {
        PrefixEnds(k);
        PrefixEnds(key);
      } else {
        SplitThenDelete(t, level, p, key, value, blocks);
      }
    case Node(at, kids) =>
      hide Collapse;
      var i := Nibble(key, level);
      PrefixStep(key, level);
      InsertedIs(kids[i], level + 1, 16 * p + i, key, value, blocks);
      InsertThenDelete(kids[i], level + 1, 16 * p + i, key, value, blocks);
      var u := Inserted(t, level, key, value, blocks);
      assert u.kids[i := kids[i]] == kids;
      ShapedStands(t, level, p);
  }

  lemma ShapedStands(t: Tree, level: nat, p: nat)
    requires t.Node? && Shaped(t, level, p)
    ensures Collapse(t) == t
  {
    hide Prefix;
    SurvivorSizes(t.kids, level, p);
    SurvivorsAre(t.kids, 0);
  }

  lemma OnlySurvivor(kids: seq<Tree>, i: nat, x: Tree)
    requires |kids| == 16 && i < 16 && kids[i] == x && x != Empty && forall j :: 0 <= j < 16 && j != i ==> kids[j] == Empty
    ensures Survivors(kids, 0) == (1, x)
  {
    hide Survivors;
    SurvivorsAre(kids, 0);
    var (n, only) := Survivors(kids, 0);
    assert kids[i] != Empty;
  }

  lemma {:induction false} SplitThenDelete(leaf: Tree, level: nat, p: nat, key: Key, value: Addr, blocks: seq<Addr>)
    requires leaf.Leaf? && Shaped(leaf, level, p) && level < NIBBLES && Prefix(key, level) == p && leaf.key != key
    requires |blocks| == Shared(leaf.key, key, level) + 2 && NULL !in blocks
    ensures Deleted(Split(leaf, level, key, value, blocks), level, key) == leaf
    decreases NIBBLES - level
  {
    hide Prefix, Nibble, Survivors;
    var t := Split(leaf, level, key, value, blocks);
    var there, here := Nibble(leaf.key, level), Nibble(key, level);
    PrefixStep(leaf.key, level);
    PrefixStep(key, level);
    SharedDiffer(leaf.key, key, level);
    if there == here {
      SplitIs(leaf, level + 1, 16 * p + here, key, value, blocks[1..]);
      SplitThenDelete(leaf, level + 1, 16 * p + here, key, value, blocks[1..]);
      OnlySurvivor(t.kids[here := leaf], here, leaf);
    } else {
      OnlySurvivor(t.kids[here := Empty], there, leaf);
    }
  }

  // ── Canonical form ────────────────────────────────────────────────────

  /** The same tree but for where its blocks live. */
  ghost predicate Same(t: Tree, u: Tree) {
    match (t, u)
    case (Empty, Empty) => true
    case (Leaf(_, k, v), Leaf(_, l, w)) => k == l && v == w
    case (Node(_, kids), Node(_, lids)) =>
      |kids| == |lids| && forall i :: 0 <= i < |kids| ==> Same(kids[i], lids[i])
    case _ => false
  }

  /** Equal maps have one tree, whatever was done to arrive at it. */
  lemma {:induction false} Canonical(t: Tree, u: Tree, level: nat, p: nat)
    requires Shaped(t, level, p) && Shaped(u, level, p) && Entries(t) == Entries(u)
    ensures Same(t, u)
  {
    hide Prefix, Nibble, SizeAll;
    SizeIs(t, level, p);
    SizeIs(u, level, p);
    SizePositive(t, level, p);
    SizePositive(u, level, p);
    if t.Leaf? {
      assert t.key in Entries(u);
    } else if t.Node? {
      forall i | 0 <= i < 16 ensures Same(t.kids[i], u.kids[i]) {
        SameBelow(t, u, level, p, i);
        Canonical(t.kids[i], u.kids[i], level + 1, 16 * p + i);
      }
    }
  }

  lemma SameBelow(t: Tree, u: Tree, level: nat, p: nat, i: nat)
    requires t.Node? && u.Node? && Shaped(t, level, p) && Shaped(u, level, p) && Entries(t) == Entries(u) && i < 16
    ensures Entries(t.kids[i]) == Entries(u.kids[i])
  {
    hide Prefix, Nibble, Entries;
    forall k: Key
      ensures k in Entries(t.kids[i]) <==> k in Entries(u.kids[i])
      ensures k in Entries(t.kids[i]) ==> Entries(t.kids[i])[k] == Entries(u.kids[i])[k]
    {
      NibbleDecides(t, level, p, k);
      NibbleDecides(u, level, p, k);
    }
  }

  /** How deep the leaf of a key hangs. */
  function Depth(t: Tree, level: nat, key: Key): nat
    requires level <= NIBBLES
  {
    if t.Node? && level < NIBBLES && |t.kids| == 16 then 1 + Depth(t.kids[Nibble(key, level)], level + 1, key) else 0
  }

  /** A leaf sits at the shallowest depth that tells its key from every other: no other key
      shares that many nibbles, some other key shares one fewer. */
  lemma {:induction false} Shallowest(t: Tree, level: nat, p: nat, key: Key)
    requires Shaped(t, level, p) && key in Entries(t) && Prefix(key, level) == p
    ensures var d := level + Depth(t, level, key);
            && d <= NIBBLES
            && (forall k :: k in Entries(t) && k != key ==> Prefix(k, d) != Prefix(key, d))
            && (d > level ==> exists k :: k in Entries(t) && k != key && Prefix(k, d - 1) == Prefix(key, d - 1))
  {
    hide Prefix, Nibble;
    if t.Node? {
      var i := Nibble(key, level);
      var d := level + Depth(t, level, key);
      NibbleDecides(t, level, p, key);
      PrefixStep(key, level);
      Shallowest(t.kids[i], level + 1, 16 * p + i, key);
      forall k | k in Entries(t) && k != key ensures Prefix(k, d) != Prefix(key, d) {
        NibbleDecides(t, level, p, k);
        KeysBelow(t, level, p, k);
        if k !in Entries(t.kids[i]) {
          PrefixStep(k, level);
          PrefixApart(k, key, level + 1, d);
        }
      }
      if d == level + 1 {
        SizeIs(t, level, p);
        var k := Another(Entries(t), key);
        KeysBelow(t, level, p, k);
      } else {
        var k :| k in Entries(t.kids[i]) && k != key && Prefix(k, d - 1) == Prefix(key, d - 1);
        NibbleDecides(t, level, p, k);
      }
    }
  }

  lemma Another<V>(m: map<Key, V>, key: Key) returns (k: Key)
    requires |m| >= 2
    ensures k in m && k != key
  {
    var rest := m.Keys - {key};
    assert |m| == |m.Keys| && |rest| >= |m.Keys| - 1;
    k :| k in rest;
  }

  lemma {:induction false} PrefixApart(a: Key, b: Key, c: nat, d: nat)
    requires c <= d <= NIBBLES && Prefix(a, c) != Prefix(b, c)
    ensures Prefix(a, d) != Prefix(b, d)
    decreases d
  {
    hide Prefix, Nibble;
    if c < d {
      PrefixApart(a, b, c, d - 1);
      PrefixStep(a, d - 1);
      PrefixStep(b, d - 1);
    }
  }
}
