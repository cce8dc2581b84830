/** The lazily expanded 16-way trie, as a value: its shape invariant, the map it stands
    for, and what insertion and deletion do to it. */
module Trie {
  import opened Syntax
  import opened Alloc
  import opened Arith

  const NIBBLES: nat := 16
  const NODE_BYTES: nat := 136
  const KEYS: nat := 0x1_0000_0000_0000_0000

  type Key = k: nat | k < KEYS

  /** Nodes carry the address of their block; a NULL child is Empty. */
  datatype Tree = Empty | Leaf(at: Addr, key: Key, value: Addr) | Node(at: Addr, kids: seq<Tree>)

  // ── Nibbles and prefixes ──────────────────────────────────────────────

  function Pow16(n: nat): (r: nat)
    ensures r > 0
  {
    if n == 0 then 1 else 16 * Pow16(n - 1)
  }

  /** Nibble `level`, counted from the most significant. */
  function Nibble(key: Key, level: nat): (r: nat)
    requires level < NIBBLES
    ensures r < 16
  {
    key / Pow16(15 - level) % 16
  }

  /** The number written by the first `level` nibbles. */
  function Prefix(key: Key, level: nat): nat
    requires level <= NIBBLES
  {
    key / Pow16(16 - level)
  }

  lemma PrefixStep(key: Key, level: nat)
    requires level < NIBBLES
    ensures Prefix(key, level + 1) == 16 * Prefix(key, level) + Nibble(key, level)
  {
    var p := Pow16(15 - level);
    assert Pow16(16 - level) == 16 * p;
    DivStep(key, p, 16);
  }

  lemma PrefixEnds(key: Key)
    ensures Prefix(key, 0) == 0 && Prefix(key, 16) == key
  {
    assert Pow16(0) == 1;
    assert Pow16(4) == 0x1_0000;
    assert Pow16(8) == 0x1_0000_0000;
    assert Pow16(12) == 0x1_0000_0000_0000;
    assert Pow16(16) == KEYS;
  }

  // ── Shape ─────────────────────────────────────────────────────────────

  function Blank(): (kids: seq<Tree>)
    ensures |kids| == 16 && forall i :: 0 <= i < 16 ==> kids[i] == Empty
  {
    seq(16, i => Empty)
  }

  function Size(t: Tree): nat {
    match t
    case Empty => 0
    case Leaf(_, _, _) => 1
    case Node(_, kids) => SizeAll(kids)
  }

  function SizeAll(kids: seq<Tree>): nat {
    if kids == [] then 0 else SizeAll(kids[..|kids| - 1]) + Size(kids[|kids| - 1])
  }

  /** A tree hanging at `level` under prefix p. Every interior node has at least two keys
      below it, so each leaf sits as shallow as it can. */
  ghost predicate Shaped(t: Tree, level: nat, p: nat) {
    && level <= NIBBLES
    && match t
       case Empty => true
       case Leaf(at, key, _) => at != NULL && Prefix(key, level) == p
       case Node(at, kids) =>
         && at != NULL && level < NIBBLES && |kids| == 16 && SizeAll(kids) >= 2
         && forall i :: 0 <= i < 16 ==> Shaped(kids[i], level + 1, 16 * p + i)
  }

  // ── The map it stands for ─────────────────────────────────────────────

  function Search(t: Tree, level: nat, key: Key): Option<Addr>
    requires level <= NIBBLES
  {
    match t
    case Empty => None
    case Leaf(_, k, v) => if k == key then Some(v) else None
    case Node(_, kids) =>
      if level == NIBBLES || |kids| != 16 then None else Search(kids[Nibble(key, level)], level + 1, key)
  }

  function Entries(t: Tree): map<Key, Addr> {
    match t
    case Empty => map[]
    case Leaf(_, key, value) => map[key := value]
    case Node(_, kids) => EntriesAll(kids)
  }

  function EntriesAll(kids: seq<Tree>): map<Key, Addr> {
    if kids == [] then map[] else EntriesAll(kids[..|kids| - 1]) + Entries(kids[|kids| - 1])
  }

  lemma {:induction false} KeysBelow(t: Tree, level: nat, p: nat, key: Key)
    requires Shaped(t, level, p) && key in Entries(t)
    ensures Prefix(key, level) == p
    decreases t, 0
  {
    hide Prefix, Nibble;
    if t.Node? {
      var i := KidWith(t.kids, key);
      KeysBelow(t.kids[i], level + 1, 16 * p + i, key);
      PrefixStep(key, level);
    }
  }

  lemma {:induction false} KidWith(kids: seq<Tree>, key: Key) returns (i: nat)
    requires key in EntriesAll(kids)
    ensures i < |kids| && key in Entries(kids[i]) && EntriesAll(kids)[key] == Entries(kids[i])[key]
  {
    var last := |kids| - 1;
    if key in Entries(kids[last]) {
      i := last;
    } else {
      i := KidWith(kids[..last], key);
    }
  }

  lemma {:induction false} InKids(kids: seq<Tree>, i: nat, key: Key)
    requires i < |kids| && key in Entries(kids[i])
    ensures key in EntriesAll(kids)
  {
    if i < |kids| - 1 { InKids(kids[..|kids| - 1], i, key); }
  }

  /** A key of a node's map lies under its own nibble, and nowhere else. */
  lemma NibbleDecides(t: Tree, level: nat, p: nat, key: Key)
    requires t.Node? && Shaped(t, level, p)
    ensures Prefix(key, level) == p ==>
              var below := Entries(t.kids[Nibble(key, level)]);
              && (key in Entries(t) <==> key in below)
              && (key in below ==> Entries(t)[key] == below[key])
    ensures forall i :: 0 <= i < 16 && key in Entries(t.kids[i]) ==> i == Nibble(key, level) && Prefix(key, level) == p
  {
    hide Prefix, Nibble;
    PrefixStep(key, level);
    forall i | 0 <= i < 16 && key in Entries(t.kids[i]) ensures i == Nibble(key, level) && Prefix(key, level) == p {
      KeysBelow(t.kids[i], level + 1, 16 * p + i, key);
    }
    var n := Nibble(key, level);
    if key in Entries(t) { var i := KidWith(t.kids, key); }
    if key in Entries(t.kids[n]) { InKids(t.kids, n, key); }
  }

  /** Descending by nibbles finds exactly what the map holds. */
  lemma {:induction false} SearchIs(t: Tree, level: nat, p: nat, key: Key)
    requires Shaped(t, level, p) && Prefix(key, level) == p
    ensures Search(t, level, key) == if key in Entries(t) then Some(Entries(t)[key]) else None
  {
    hide Prefix, Nibble;
    if t.Node? {
      var i := Nibble(key, level);
      NibbleDecides(t, level, p, key);
      PrefixStep(key, level);
      SearchIs(t.kids[i], level + 1, 16 * p + i, key);
    }
  }

  /** A shaped tree holds the one map that answers as its searches do. */
  lemma SearchDetermines(t: Tree, level: nat, p: nat, m: map<Key, Addr>)
    requires Shaped(t, level, p)
    requires forall k :: k in m ==> Prefix(k, level) == p
    requires forall k: Key :: Prefix(k, level) == p ==> Search(t, level, k) == if k in m then Some(m[k]) else None
    ensures Entries(t) == m
  {
    hide Prefix, Search;
    forall k: Key ensures k in Entries(t) <==> k in m
      ensures k in m ==> k in Entries(t) && Entries(t)[k] == m[k]
    {
      if k in Entries(t) { KeysBelow(t, level, p, k); }
      if Prefix(k, level) == p { SearchIs(t, level, p, k); }
    }
  }

  // ── Sizes ─────────────────────────────────────────────────────────────

  lemma DisjointSum<K, V>(a: map<K, V>, b: map<K, V>)
    requires a.Keys !! b.Keys
    ensures |a + b| == |a| + |b|
  {
    assert (a + b).Keys == a.Keys + b.Keys;
    assert |(a + b).Keys| == |a.Keys| + |b.Keys|;
  }

  /** The entry count is the number of leaves. */
  lemma {:induction false} SizeIs(t: Tree, level: nat, p: nat)
    requires Shaped(t, level, p)
    ensures |Entries(t)| == Size(t)
    decreases t, 0
  {
    if t.Node? { SizeIsAll(t, level, p, 16); }
  }

  lemma KidsApart(t: Tree, level: nat, p: nat, n: nat)
    requires t.Node? && Shaped(t, level, p) && n < 16
    ensures EntriesAll(t.kids[..n]).Keys !! Entries(t.kids[n]).Keys
  {
    hide Prefix, EntriesAll, Entries, Nibble;
    forall k | k in EntriesAll(t.kids[..n]) ensures k !in Entries(t.kids[n]) {
      var i := KidWith(t.kids[..n], k);
      NibbleDecides(t, level, p, k);
      assert k in Entries(t.kids[i]);
    }
  }

  lemma KidShaped(t: Tree, level: nat, p: nat, i: nat)
    requires t.Node? && Shaped(t, level, p) && i < 16
    ensures |t.kids| == 16 && Shaped(t.kids[i], level + 1, 16 * p + i)
  {}

  lemma {:induction false} SizeIsAll(t: Tree, level: nat, p: nat, n: nat)
    requires t.Node? && Shaped(t, level, p) && n <= 16 == |t.kids|
    ensures |EntriesAll(t.kids[..n])| == SizeAll(t.kids[..n])
    ensures n == 16 ==> t.kids[..n] == t.kids
    decreases t, 0, n
  {
    hide Prefix, Entries, Size, EntriesAll, SizeAll, Shaped;
    if n > 0 {
      KidShaped(t, level, p, n - 1);
      SizeIsAll(t, level, p, n - 1);
      SizeIs(t.kids[n - 1], level + 1, 16 * p + (n - 1));
      KidsApart(t, level, p, n - 1);
      KidCounted(t.kids, n - 1);
    } else {
      OneMore(t.kids, 0);
    }
  }

  lemma KidCounted(kids: seq<Tree>, n: nat)
    requires n < |kids| && EntriesAll(kids[..n]).Keys !! Entries(kids[n]).Keys
    requires |EntriesAll(kids[..n])| == SizeAll(kids[..n]) && |Entries(kids[n])| == Size(kids[n])
    ensures |EntriesAll(kids[..n + 1])| == SizeAll(kids[..n + 1])
  {
    hide EntriesAll, SizeAll, Entries, Size;
    OneMore(kids, n);
    DisjointSum(EntriesAll(kids[..n]), Entries(kids[n]));
  }

  lemma OneMore(kids: seq<Tree>, n: nat)
    requires n < |kids|
    ensures EntriesAll(kids[..n + 1]) == EntriesAll(kids[..n]) + Entries(kids[n])
    ensures SizeAll(kids[..n + 1]) == SizeAll(kids[..n]) + Size(kids[n])
    ensures |EntriesAll(kids[..0])| == 0 == SizeAll(kids[..0])
  {
    assert kids[..n + 1][..n] == kids[..n];
  }
}
