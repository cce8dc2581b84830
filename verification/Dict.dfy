/** bbq_dict: a dictionary of byte strings over the trie, for any hash function. The trie
    maps a hash to the head of a chain of nodes; every read compares the full key. */
module DictClass {
  import opened Syntax
  import opened Alloc
  import opened Trie
  import opened TrieOps
  import opened TrieStore
  import opened HTreeClass
  import opened TrieIter

  const NODE_HEADER: nat := 32

  /** A node, as it lies in its block. */
  datatype DNode = DNode(next: Addr, value: Addr, key: Bytes, hash: Key)
  type Memory = map<Addr, DNode>
  type Chains = map<Key, seq<Addr>>

  function NodeBytes(len: nat): nat { NODE_HEADER + len }

  // ── Chains ────────────────────────────────────────────────────────────

  /** The nodes of one hash, linked in this order and ending in NULL. */
  ghost predicate Linked(mem: Memory, chain: seq<Addr>, h: Key) {
    && chain != []
    && (forall i :: 0 <= i < |chain| ==> chain[i] in mem && mem[chain[i]].hash == h
                                         && mem[chain[i]].next == After(chain, i))
    && (forall i, j :: 0 <= i < j < |chain| ==> chain[i] != chain[j])
  }

  function After(chain: seq<Addr>, i: nat): Addr {
    if i + 1 < |chain| then chain[i + 1] else NULL
  }

  /** The memory holds the map m: every node is on the chain of its hash, and `at` names
      the one node of each key. */
  ghost predicate Stores(hash: Bytes -> Key, mem: Memory, chains: Chains, m: map<Bytes, Addr>, at: map<Bytes, Addr>) {
    && NULL !in mem && m.Keys == at.Keys
    && (forall h :: h in chains ==> Linked(mem, chains[h], h))
    && (forall p :: p in mem ==> Placed(hash, mem, chains, at, p))
    && (forall k :: k in m ==> at[k] in mem && mem[at[k]].key == k && mem[at[k]].value == m[k])
  }

  ghost predicate Placed(hash: Bytes -> Key, mem: Memory, chains: Chains, at: map<Bytes, Addr>, p: Addr)
    requires p in mem
  {
    var n := mem[p];
    hash(n.key) == n.hash && n.hash in chains && p in chains[n.hash] && n.key in at && at[n.key] == p
  }

  /** The trie holds the head of every chain. */
  ghost predicate Heads(chains: Chains, index: map<Key, Addr>) {
    index.Keys == chains.Keys && forall h :: h in chains ==> chains[h] != [] && index[h] == chains[h][0]
  }

  function ChainOf(chains: Chains, h: Key): seq<Addr> { if h in chains then chains[h] else [] }

  function HeadOf(chain: seq<Addr>): Addr { if chain == [] then NULL else chain[0] }

  /** Chains of nodes that were not relinked stay linked. */
  lemma LinkedSame(mem: Memory, mem1: Memory, chain: seq<Addr>, h: Key)
    requires Linked(mem, chain, h)
    requires forall q :: q in mem && mem[q].hash == h ==> q in mem1 && mem1[q].hash == h && mem1[q].next == mem[q].next
    ensures Linked(mem1, chain, h)
  {}

  /** A chain grows at its front. */
  lemma LinkedPush(mem: Memory, chain: seq<Addr>, p: Addr, n: DNode)
    requires chain != [] ==> Linked(mem, chain, n.hash)
    requires p !in mem && n.next == HeadOf(chain)
    ensures Linked(mem[p := n], [p] + chain, n.hash)
  {
    var chain1 := [p] + chain;
    forall i | 0 <= i < |chain1| ensures chain1[i] in mem[p := n] && mem[p := n][chain1[i]].hash == n.hash
      && mem[p := n][chain1[i]].next == After(chain1, i)
    {
      if i > 0 { assert chain1[i] == chain[i - 1] && After(chain1, i) == After(chain, i - 1); }
    }
  }

  /** Pushing a node for a new key onto the front of its chain. */
  lemma Pushes(hash: Bytes -> Key, mem: Memory, chains: Chains, m: map<Bytes, Addr>, at: map<Bytes, Addr>,
               p: Addr, key: Bytes, value: Addr)
    requires Stores(hash, mem, chains, m, at) && p !in mem && p != NULL && key !in m
    ensures var h := hash(key);
            var chain := ChainOf(chains, h);
            Stores(hash, mem[p := DNode(HeadOf(chain), value, key, h)], chains[h := [p] + chain], m[key := value], at[key := p])
  {
    hide Linked, HeadOf;
    var h := hash(key);
    var chain := ChainOf(chains, h);
    var n := DNode(HeadOf(chain), value, key, h);
    var mem1, chain1, at1 := mem[p := n], [p] + chain, at[key := p];
    LinkedPush(mem, chain, p, n);
    forall g | g in chains && g != h ensures Linked(mem1, chains[g], g) { LinkedSame(mem, mem1, chains[g], g); }
    forall q | q in mem1 ensures Placed(hash, mem1, chains[h := chain1], at1, q) {
      if q == p {
        assert chain1[0] == p;
      } else {
        assert Placed(hash, mem, chains, at, q);
        if mem[q].hash == h { assert q in chain1; }
      }
    }
  }

  /** Overwriting the value in a node. */
  lemma Overwrites(hash: Bytes -> Key, mem: Memory, chains: Chains, m: map<Bytes, Addr>, at: map<Bytes, Addr>,
                   p: Addr, value: Addr)
    requires Stores(hash, mem, chains, m, at) && p in mem
    ensures Stores(hash, mem[p := mem[p].(value := value)], chains, m[mem[p].key := value], at)
  {
    hide Linked;
    var mem1 := mem[p := mem[p].(value := value)];
    assert Placed(hash, mem, chains, at, p);
    forall q | q in mem1 ensures Placed(hash, mem1, chains, at, q) { assert Placed(hash, mem, chains, at, q); }
    forall h | h in chains ensures Linked(mem1, chains[h], h) { LinkedSame(mem, mem1, chains[h], h); }
  }

  function Without<T>(s: seq<T>, i: nat): seq<T>
    requires i < |s|
  {
    s[..i] + s[i + 1..]
  }

  /** The memory once node i of a chain is unlinked and released. */
  function Unlinked(mem: Memory, chain: seq<Addr>, i: nat): Memory
    requires i < |chain| && chain[i] in mem && (i > 0 ==> chain[i - 1] in mem)
  {
    Relinked(mem, chain, i) - {chain[i]}
  }

  /** The link past node i, written into its predecessor if it has one. */
  function Relinked(mem: Memory, chain: seq<Addr>, i: nat): Memory
    requires i < |chain| && chain[i] in mem && (i > 0 ==> chain[i - 1] in mem)
  {
    if i > 0 then mem[chain[i - 1] := mem[chain[i - 1]].(next := mem[chain[i]].next)] else mem
  }

  /** The chains left: an emptied chain goes. */
  function Shortened(chains: Chains, h: Key, i: nat): Chains
    requires h in chains && i < |chains[h]|
  {
    if |chains[h]| == 1 then chains - {h} else chains[h := Without(chains[h], i)]
  }

  /** Unlinking touches one node besides the one it releases, and only its link. */
  lemma UnlinkedIs(mem: Memory, chain: seq<Addr>, h: Key, i: nat)
    requires Linked(mem, chain, h) && i < |chain|
    ensures var mem1 := Unlinked(mem, chain, i);
            && mem1.Keys == mem.Keys - {chain[i]}
            && (forall q :: q in mem1 ==> mem1[q].key == mem[q].key && mem1[q].value == mem[q].value && mem1[q].hash == mem[q].hash)
            && (forall q :: q in mem1 && mem[q].hash != h ==> mem1[q] == mem[q])
  {}

  /** All three unlink cases keep every other entry reachable. */
  lemma Unlinks(hash: Bytes -> Key, mem: Memory, chains: Chains, m: map<Bytes, Addr>, at: map<Bytes, Addr>, h: Key, i: nat)
    requires Stores(hash, mem, chains, m, at) && h in chains && i < |chains[h]|
    ensures Linked(mem, chains[h], h)
    ensures var chain := chains[h];
            var key := mem[chain[i]].key;
            && key in m
            && Stores(hash, Unlinked(mem, chain, i), Shortened(chains, h, i), m - {key}, at - {key})
  {
    var chain := chains[h];
    assert Linked(mem, chain, h);
    var n := chain[i];
    assert n in mem && mem[n].hash == h && (i > 0 ==> chain[i - 1] in mem);
    UnlinkedIs(mem, chain, h, i);
    if |chain| > 1 { UnlinkedChain(mem, chain, h, i); }
    UnlinksTo(hash, mem, Unlinked(mem, chain, i), chains, m, at, h, i);
  }

  /** The same for any memory that differs as an unlinking does. */
  lemma UnlinksTo(hash: Bytes -> Key, mem: Memory, mem1: Memory, chains: Chains, m: map<Bytes, Addr>, at: map<Bytes, Addr>,
                  h: Key, i: nat)
    requires Stores(hash, mem, chains, m, at) && h in chains && i < |chains[h]|
    requires var n := chains[h][i]; n in mem && mem[n].hash == h && mem1.Keys == mem.Keys - {n}
    requires forall q :: q in mem1 ==> mem1[q].key == mem[q].key && mem1[q].value == mem[q].value && mem1[q].hash == mem[q].hash
    requires forall q :: q in mem1 && mem[q].hash != h ==> mem1[q] == mem[q]
    requires |chains[h]| > 1 ==> Linked(mem1, Without(chains[h], i), h)
    ensures var key := mem[chains[h][i]].key;
            key in m && Stores(hash, mem1, Shortened(chains, h, i), m - {key}, at - {key})
  {
    hide Linked, Without;
    var n := chains[h][i];
    assert Placed(hash, mem, chains, at, n);
    var chains1, at1 := Shortened(chains, h, i), at - {mem[n].key};
    forall g | g in chains1 && g != h ensures Linked(mem1, chains1[g], g) {
      StayLinked(mem, mem1, chains[g], g, h, n);
    }
    forall q | q in mem1 ensures Placed(hash, mem1, chains1, at1, q) {
      assert Placed(hash, mem, chains, at, q);
      StayPlaced(hash, mem, mem1, chains, at, h, i, q);
    }
  }

  lemma StayPlaced(hash: Bytes -> Key, mem: Memory, mem1: Memory, chains: Chains, at: map<Bytes, Addr>, h: Key, i: nat, q: Addr)
    requires h in chains && i < |chains[h]| && q in mem && q in mem1 && q != chains[h][i]
    requires Placed(hash, mem, chains, at, q) && mem1[q].key == mem[q].key && mem1[q].hash == mem[q].hash
    requires chains[h][i] in mem && mem[chains[h][i]].key in at && at[mem[chains[h][i]].key] == chains[h][i]
    ensures Placed(hash, mem1, Shortened(chains, h, i), at - {mem[chains[h][i]].key}, q)
  {
    if mem[q].hash == h { InWithout(chains[h], i, q); }
  }

  lemma StayLinked(mem: Memory, mem1: Memory, chain: seq<Addr>, g: Key, h: Key, n: Addr)
    requires Linked(mem, chain, g) && g != h && n in mem && mem[n].hash == h && mem1.Keys == mem.Keys - {n}
    requires forall q :: q in mem1 && mem[q].hash != h ==> mem1[q] == mem[q]
    ensures Linked(mem1, chain, g)
  {
    LinkedSame(mem, mem1, chain, g);
  }

  lemma InWithout(chain: seq<Addr>, i: nat, q: Addr)
    requires i < |chain| && q in chain && q != chain[i]
    ensures |chain| > 1 && q in Without(chain, i)
  {
    var j :| 0 <= j < |chain| && chain[j] == q;
    if j < i { assert Without(chain, i)[j] == q; } else { assert Without(chain, i)[j - 1] == q; }
  }

  /** Where the elements of the shortened chain come from. */
  lemma WithoutAt(chain: seq<Addr>, i: nat, j: nat)
    requires i < |chain| && j < |chain| - 1
    ensures var o := if j < i then j else j + 1;
            && |Without(chain, i)| == |chain| - 1 && Without(chain, i)[j] == chain[o]
            && After(Without(chain, i), j) == if o + 1 == i then After(chain, i) else After(chain, o)
  {}

  lemma ChainAt(mem: Memory, chain: seq<Addr>, h: Key, j: nat)
    requires Linked(mem, chain, h) && j < |chain|
    ensures chain[j] in mem && mem[chain[j]].hash == h && mem[chain[j]].next == After(chain, j)
    ensures forall k :: 0 <= k < |chain| && k != j ==> chain[k] != chain[j]
  {}

  lemma LinkWithout(mem: Memory, chain: seq<Addr>, h: Key, i: nat, j: nat)
    requires Linked(mem, chain, h) && i < |chain| && j < |chain| - 1
    ensures chain[i] in mem && (i > 0 ==> chain[i - 1] in mem)
    ensures var rest, mem1 := Without(chain, i), Unlinked(mem, chain, i);
            |rest| == |chain| - 1 && rest[j] in mem1 && mem1[rest[j]].hash == h && mem1[rest[j]].next == After(rest, j)
  {
    hide Linked, Without, After;
    WithoutAt(chain, i, j);
    ChainAt(mem, chain, h, i);
    ChainAt(mem, chain, h, if j < i then j else j + 1);
    if i > 0 { ChainAt(mem, chain, h, i - 1); }
  }

  lemma UnlinkedChain(mem: Memory, chain: seq<Addr>, h: Key, i: nat)
    requires Linked(mem, chain, h) && i < |chain| && |chain| > 1
    ensures Linked(Unlinked(mem, chain, i), Without(chain, i), h)
  {
    var rest, mem1 := Without(chain, i), Unlinked(mem, chain, i);
    UnlinkedIs(mem, chain, h, i);
    WithoutAt(chain, i, 0);
    forall j | 0 <= j < |rest|
      ensures rest[j] in mem1 && mem1[rest[j]].hash == h && mem1[rest[j]].next == After(rest, j)
    {
      LinkWithout(mem, chain, h, i, j);
    }
    forall j, k | 0 <= j < k < |rest| ensures rest[j] != rest[k] {
      WithoutAt(chain, i, j);
      WithoutAt(chain, i, k);
    }
  }

  // ── The node blocks ───────────────────────────────────────────────────

  function NodesHeld(mem: Memory): Ledger {
    map p | p in mem :: NodeBytes(|mem[p].key|)
  }

  /** Index and nodes hold different blocks, all of them live. */
  ghost predicate Housed(index: Ledger, mem: Memory, live: Ledger) {
    && Within(index, live)
    && forall p :: p in mem ==> p !in index && p in live && live[p] == NodeBytes(|mem[p].key|)
  }

  /** The trie moving its blocks about leaves the nodes housed and the whole in balance. */
  lemma IndexMoves(index0: Ledger, mem: Memory, live0: Ledger, index1: Ledger, live1: Ledger)
    requires Housed(index0, mem, live0) && Balanced(live0, index0, live1, index1)
    ensures Housed(index1, mem, live1)
    ensures Balanced(live0, index0 + NodesHeld(mem), live1, index1 + NodesHeld(mem))
  {}

  lemma NodeTaken(index: Ledger, mem: Memory, live: Ledger, p: Addr, n: DNode)
    requires Housed(index, mem, live) && p !in live
    ensures var live1 := live[p := NodeBytes(|n.key|)];
            p !in mem && Housed(index, mem[p := n], live1)
            && Balanced(live, index + NodesHeld(mem), live1, index + NodesHeld(mem[p := n]))
  {}

  lemma NodeGiven(index: Ledger, mem: Memory, live: Ledger, p: Addr, mem1: Memory)
    requires Housed(index, mem, live) && p in mem && mem1.Keys == mem.Keys - {p}
    requires forall q :: q in mem1 ==> mem1[q].key == mem[q].key
    ensures p in live && live[p] == NodeBytes(|mem[p].key|) && Housed(index, mem1, live - {p})
    ensures Balanced(live, index + NodesHeld(mem), live - {p}, index + NodesHeld(mem1))
  {
    NodesLess(mem, p, mem1);
    hide NodesHeld;
  }

  lemma NodesLess(mem: Memory, p: Addr, mem1: Memory)
    requires p in mem && mem1.Keys == mem.Keys - {p}
    requires forall q :: q in mem1 ==> mem1[q].key == mem[q].key
    ensures NodesHeld(mem1) == NodesHeld(mem) - {p} && NodesHeld(mem).Keys == mem.Keys
    ensures forall q :: q in mem ==> NodesHeld(mem)[q] == NodeBytes(|mem[q].key|)
  {}

  lemma NodeRewritten(index: Ledger, mem: Memory, live: Ledger, mem1: Memory)
    requires Housed(index, mem, live) && mem1.Keys == mem.Keys
    requires forall q :: q in mem1 ==> mem1[q].key == mem[q].key
    ensures Housed(index, mem1, live) && NodesHeld(mem1) == NodesHeld(mem)
    ensures Balanced(live, index + NodesHeld(mem), live, index + NodesHeld(mem1))
  {}

  lemma HeadPushed(chains: Chains, index: map<Key, Addr>, h: Key, p: Addr)
    requires Heads(chains, index)
    ensures Heads(chains[h := [p] + ChainOf(chains, h)], index[h := p])
    ensures HeadOf(ChainOf(chains, h)) == if h in index then index[h] else NULL
  {}

  lemma HeadShortened(chains: Chains, index: map<Key, Addr>, h: Key, i: nat)
    requires Heads(chains, index) && h in chains && i < |chains[h]|
    ensures h in index
    ensures i > 0 ==> Heads(Shortened(chains, h, i), index)
    ensures i == 0 && |chains[h]| > 1 ==> Heads(Shortened(chains, h, i), index[h := chains[h][1]])
    ensures |chains[h]| == 1 ==> Heads(Shortened(chains, h, i), index - {h})
  {}

  lemma HousedWithin(index: Ledger, mem: Memory, live: Ledger)
    requires Housed(index, mem, live)
    ensures Within(index, live)
  {}

  lemma HousedGrows(index: Ledger, mem: Memory, live: Ledger, n: Addr, size: nat)
    requires Housed(index, mem, live) && n !in live
    ensures Within(index, live[n := size]) && n !in mem
  {}

  /** A trie stays stored in any ledger that still has its blocks. */
  lemma StoredWithin(t: Tree, live0: Ledger, live1: Ledger)
    requires Stored(t, live0) && Within(Blocks(t), live1)
    ensures Stored(t, live1)
  {
    forall p: Addr | Count(t, p) == 1 ensures p in live1 && live1[p] == NODE_BYTES {
      OwnedCount(t, p);
      assert p in Blocks(t);
    }
  }

  lemma Ungrown(live: Ledger, n: Addr, size: nat)
    requires n !in live
    ensures live[n := size] - {n} == live
  {}

  /** What delete reads off the chain: the link past node i, and who comes before. */
  lemma LinkedNext(mem: Memory, chain: seq<Addr>, h: Key, i: nat)
    requires Linked(mem, chain, h) && i < |chain| && NULL !in mem
    ensures chain[i] in mem
    ensures i == 0 ==> Relinked(mem, chain, i) == mem && mem[chain[0]].next == if |chain| > 1 then chain[1] else NULL
    ensures |chain| > 1 ==> chain[1] != NULL
    ensures i > 0 ==> chain[i - 1] != NULL && chain[i - 1] in mem && chain[i - 1] != chain[i]
                      && Relinked(mem, chain, i) == mem[chain[i - 1] := mem[chain[i - 1]].(next := mem[chain[i]].next)]
  {}

  lemma CountMore(m: map<Bytes, Addr>, k: Bytes, v: Addr)
    ensures |m[k := v]| == |m| + (if k in m then 0 else 1)
    ensures k in m ==> |m - {k}| == |m| - 1
  {
    assert |m| == |m.Keys|;
    assert m[k := v].Keys == m.Keys + {k} && |m[k := v]| == |m[k := v].Keys|;
    assert (m - {k}).Keys == m.Keys - {k} && |m - {k}| == |(m - {k}).Keys|;
  }

  class Dict {
    const a: Budget
    const index: HTree
    const hash: Bytes -> Key
    var mem: Memory
    var count: nat
    var oom: bool
    var gen: nat

    /** The dictionary's map, the node of each key, and the chains. */
    ghost var contents: map<Bytes, Addr>
    ghost var at: map<Bytes, Addr>
    ghost var chains: Chains

    ghost predicate Valid()
      reads this, index, a, a.under
    {
      && index.a == a && index.Valid() && Housed(index.Held(), mem, a.live)
      && Stores(hash, mem, chains, contents, at) && Heads(chains, index.Contents())
      && count == |contents|
    }

    /** The blocks the dictionary holds: the trie's and the nodes'. */
    ghost function Held(): Ledger
      reads this, index
    {
      index.Held() + NodesHeld(mem)
    }

    constructor (a: Budget, hash: Bytes -> Key)
      requires a.Valid()
      ensures Valid() && this.a == a && this.hash == hash && contents == map[] && !oom && Held() == map[]
      ensures fresh(this) && fresh(index)
    {
      this.a := a;
      this.hash := hash;
      index := new HTree(a);
      mem := map[];
      count, oom, gen := 0, false, 0;
      contents, at, chains := map[], map[], map[];
    }

    /** The chain walk of a lookup: to the node with this key, or off the end. */
    static method Walk(mem: Memory, head: Addr, key: Bytes, ghost chain: seq<Addr>) returns (n: Addr, prev: Addr, ghost i: nat)
      requires forall j :: 0 <= j < |chain| ==> chain[j] in mem && chain[j] != NULL && mem[chain[j]].next == After(chain, j)
      requires head == HeadOf(chain)
      ensures i <= |chain| && n == (if i < |chain| then chain[i] else NULL) && prev == if i == 0 then NULL else chain[i - 1]
      ensures n != NULL ==> n in mem && mem[n].key == key
      ensures i < |chain| ==> n != NULL
      ensures forall j :: 0 <= j < i ==> mem[chain[j]].key != key
    {
      n, prev, i := head, NULL, 0;
      while n != NULL && mem[n].key != key
        invariant i <= |chain| && n == (if i < |chain| then chain[i] else NULL)
        invariant prev == if i == 0 then NULL else chain[i - 1]
        invariant forall j :: 0 <= j < i ==> mem[chain[j]].key != key
        decreases |chain| - i
      {
        prev := n;
        n := mem[n].next;
        i := i + 1;
      }
    }

    /** The one lookup every read goes through: the chain by hash, then the node by its full
        key. `prev` is for delete, which needs to unlink. */
    method Find(key: Bytes, h: Key) returns (n: Addr, prev: Addr, ghost i: nat)
      requires Valid() && h == hash(key)
      ensures n == NULL ==> key !in contents
      ensures n != NULL ==> key in contents && at[key] == n && n in mem && mem[n].key == key && mem[n].value == contents[key]
      ensures n != NULL ==> h in chains && i < |chains[h]| && chains[h][i] == n
                            && prev == if i == 0 then NULL else chains[h][i - 1]
    {
      hide Stores, Heads, Linked, Placed, Housed, HTree.Valid, Budget.Valid, HTree.Contents, After, HeadOf;
      WalkFacts(hash, mem, chains, contents, at, key);
      HeadPushed(chains, index.Contents(), h, NULL);
      var head, found := index.Search(h);
      n, prev, i := Walk(mem, head, key, ChainOf(chains, h));
      WalkEnded(hash, mem, chains, contents, at, key, i);
    }

    /** bbq_dict_get and bbq_dict_contains. */
    method Get(key: Bytes) returns (v: Addr, found: bool)
      requires Valid()
      ensures found <==> key in contents
      ensures v == if found then contents[key] else NULL
    {
      var n, prev, i := Find(key, hash(key));
      found := n != NULL;
      v := if found then mem[n].value else NULL;
    }

    /** bbq_dict_put: overwrite in place, or push a node onto the front of its chain. A
        refused put changes no entry; a key in the dictionary is never refused, a new one
        only when it is too long for any block or an allocation is denied. */
    method Put(key: Bytes, value: Addr) returns (ok: bool)
      requires Valid()
      modifies this, index, a, a.under
      ensures Valid()
      ensures a.denials >= old(a.denials)
      ensures ok <==> a.denials == old(a.denials) && (key in old(contents) || |key| <= SIZE_MAX - NODE_HEADER)
      ensures ok ==> contents == old(contents)[key := value] && gen == old(gen) + 1 && oom == old(oom)
      ensures !ok ==> oom && contents == old(contents) && mem == old(mem) && chains == old(chains) && gen == old(gen)
                      && index.root == old(index.root) && index.gen == old(index.gen) && a.live == old(a.live)
      ensures key in old(contents) ==> ok && a.live == old(a.live)
      ensures Balanced(old(a.live), old(Held()), a.live, Held())
    {
      hide Valid, Held, Balanced;
      var h := hash(key);
      var hit, prev, i := Find(key, h);
      if hit != NULL {
        Overwrite(hit, key, value);
        ok := true;
      } else {
        ok := PutFresh(key, value, h);
      }
    }

    /** The node found gets the new value. */
    method Overwrite(n: Addr, key: Bytes, value: Addr)
      requires Valid() && key in contents && n in mem && mem[n].key == key
      modifies this
      ensures Valid() && contents == old(contents)[key := value] && gen == old(gen) + 1 && oom == old(oom)
      ensures Balanced(a.live, old(Held()), a.live, Held())
    {
      hide Stores, Heads, Linked, Placed, Housed, Within, Balanced, NodesHeld, HTree.Valid, Budget.Valid, Blocks, Entries;
      NodeRewritten(index.Held(), mem, a.live, mem);
      HousedWithin(index.Held(), mem, a.live);
      Overwrites(hash, mem, chains, contents, at, n, value);
      CountMore(contents, key, value);
      NodeRewritten(index.Held(), mem, a.live, mem[n := mem[n].(value := value)]);
      mem := mem[n := mem[n].(value := value)];
      contents := contents[key := value];
      gen := gen + 1;
    }

    /** The first half of a put under a new key: the node's memory is taken, or refused. */
    method PutFresh(key: Bytes, value: Addr, h: Key) returns (ok: bool)
      requires Valid() && key !in contents && h == hash(key)
      modifies this, index, a, a.under
      ensures Valid()
      ensures a.denials >= old(a.denials)
      ensures ok <==> a.denials == old(a.denials) && |key| <= SIZE_MAX - NODE_HEADER
      ensures ok ==> contents == old(contents)[key := value] && gen == old(gen) + 1 && oom == old(oom)
      ensures !ok ==> oom && contents == old(contents) && mem == old(mem) && chains == old(chains) && gen == old(gen)
                      && index.root == old(index.root) && index.gen == old(index.gen) && a.live == old(a.live)
      ensures Balanced(old(a.live), old(Held()), a.live, Held())
    {
      hide Stores, Heads, Linked, Placed, Housed, Within, Balanced, NodesHeld, HTree.Valid, Budget.Valid, Blocks, Entries;
      NodeRewritten(index.Held(), mem, a.live, mem);
      HousedWithin(index.Held(), mem, a.live);
      if |key| > SIZE_MAX - NODE_HEADER {
        oom := true;
        return false;
      }
      IndexStands(index, a.live);
      var n := a.MemAlloc(NodeBytes(|key|));
      if n == NULL {
        IndexAgain(index);
        oom := true;
        return false;
      }
      HousedGrows(index.Held(), mem, old(a.live), n, NodeBytes(|key|));
      StoredWithin(index.root, old(a.live), a.live);
      IndexAgain(index);
      ok := Link(n, key, value, h, old(a.live));
    }

    /** A node that could not be published goes back. */
    method GiveBack(n: Addr, size: nat, ghost live0: Ledger)
      requires index.a == a && index.Valid() && Stored(index.root, live0)
      requires n != NULL && n !in live0 && a.live == live0[n := size]
      modifies a, a.under
      ensures index.Valid() && a.live == live0 && a.denials == old(a.denials)
    {
      hide Stored, Shaped, Budget.Valid, Size;
      Ungrown(live0, n, size);
      a.MemRelease(n, size);
    }

    /** The second half of put: the fresh node is written, linked in front of its chain and
        published in the trie, or given back. */
    method Link(n: Addr, key: Bytes, value: Addr, h: Key, ghost live0: Ledger) returns (ok: bool)
      requires index.a == a && index.Valid() && Housed(index.Held(), mem, live0)
      requires Stores(hash, mem, chains, contents, at) && Heads(chains, index.Contents()) && count == |contents|
      requires n != NULL && n !in live0 && a.live == live0[n := NodeBytes(|key|)] && h == hash(key) && key !in contents
      modifies this, index, a, a.under
      ensures Valid()
      ensures a.denials == old(a.denials) + (if ok then 0 else 1)
      ensures ok ==> contents == old(contents)[key := value] && gen == old(gen) + 1 && oom == old(oom)
      ensures !ok ==> oom && contents == old(contents) && mem == old(mem) && chains == old(chains) && gen == old(gen)
                      && index.root == old(index.root) && index.gen == old(index.gen) && a.live == live0
      ensures Balanced(live0, old(Held()), a.live, Held())
    {
      hide Stores, Heads, Linked, Placed, Housed, Within, Balanced, NodesHeld, HTree.Valid, Budget.Valid, Blocks, Entries;
      HeadPushed(chains, index.Contents(), h, n);
      HousedGrows(index.Held(), mem, live0, n, NodeBytes(|key|));
      Pushes(hash, mem, chains, contents, at, n, key, value);
      Ungrown(live0, n, NodeBytes(|key|));
      NodeRewritten(index.Held(), mem, live0, mem);
      HousedWithin(index.Held(), mem, live0);
      IndexStands(index, live0);
      ghost var index0 := index.Held();
      var next, found := index.Search(h);
      var node := DNode(next, value, key, h);
      ghost var blocks;
      ok, blocks := index.Insert(h, n);
      if !ok {
        GiveBack(n, NodeBytes(|key|), live0);
        oom := true;
        return;
      }
      PutBooks(index0, mem, live0, n, node, index.Held(), a.live);
      Publish(n, node, key, value, h);
    }

    /** A written node on the front of its chain is the key's entry. */
    method Publish(n: Addr, node: DNode, key: Bytes, value: Addr, h: Key)
      requires index.a == a && index.Valid() && Housed(index.Held(), mem[n := node], a.live)
      requires var chains1 := chains[h := [n] + ChainOf(chains, h)];
               && Heads(chains1, index.Contents())
               && Stores(hash, mem[n := node], chains1, contents[key := value], at[key := n])
      requires key !in contents && count == |contents|
      modifies this
      ensures Valid() && contents == old(contents)[key := value] && gen == old(gen) + 1 && oom == old(oom)
      ensures mem == old(mem)[n := node]
    {
      hide Stores, Heads, Linked, Placed, Housed, HTree.Valid, HTree.Contents, HTree.Held, Budget.Valid;
      CountMore(contents, key, value);
      mem := mem[n := node];
      chains := chains[h := [n] + ChainOf(chains, h)];
      contents := contents[key := value];
      at := at[key := n];
      count := count + 1;
      gen := gen + 1;
    }

    /** bbq_dict_delete. Putting a new head under a hash already in the trie rewrites a leaf
        and so cannot be refused. */
    method Delete(key: Bytes) returns (v: Addr, found: bool)
      requires Valid()
      modifies this, index, a, a.under
      ensures Valid()
      ensures found <==> key in old(contents)
      ensures v == if found then old(contents)[key] else NULL
      ensures contents == old(contents) - {key} && oom == old(oom) && a.denials == old(a.denials)
      ensures gen == old(gen) + (if found then 1 else 0)
      ensures Balanced(old(a.live), old(Held()), a.live, Held())
    {
      hide Stores, Heads, Linked, Placed, Housed, Within, Balanced, NodesHeld, HTree.Valid, HTree.Contents, HTree.Held, Budget.Valid;
      NodeRewritten(index.Held(), mem, a.live, mem);
      var h := hash(key);
      var n, prev, i := Find(key, h);
      if n == NULL {
        AbsentKey(contents, at, key);
        return NULL, false;
      }
      v, found := mem[n].value, true;
      Remove(n, prev, key, h, i);
    }

    /** A found entry goes: its node is unlinked, then given back. */
    method Remove(n: Addr, prev: Addr, key: Bytes, h: Key, ghost i: nat)
      requires Valid() && h in chains && i < |chains[h]| && chains[h][i] == n && prev == if i == 0 then NULL else chains[h][i - 1]
      requires n in mem && mem[n].key == key && key in contents
      modifies this, index, a, a.under
      ensures Valid() && contents == old(contents) - {key} && oom == old(oom) && gen == old(gen) + 1 && a.denials == old(a.denials)
      ensures Balanced(old(a.live), old(Held()), a.live, Held())
    {
      hide Stores, Heads, Linked, Placed, Housed, Within, Balanced, NodesHeld, Unlinked, Relinked, Shortened, HTree.Valid,
           HTree.Contents, HTree.Held, Budget.Valid;
      ghost var live0, index0 := a.live, index.Held();
      Unlinks(hash, mem, chains, contents, at, h, i);
      ChainIsLinked(hash, mem, chains, contents, at, h);
      ChainAt(mem, chains[h], h, i);
      if i > 0 { ChainAt(mem, chains[h], h, i - 1); }
      Unlink(n, prev, h, chains[h], i);
      DeleteBooks(index0, old(mem), live0, index.Held(), a.live, chains[h], h, i);
      UnlinkedKeeps(old(mem), chains[h], i);
      Drop(n, key, Unlinked(old(mem), chains[h], i), Shortened(chains, h, i));
    }

    /** An unlinked node goes back, and its entry with it. */
    method Drop(n: Addr, key: Bytes, ghost mem1: Memory, ghost chains1: Chains)
      requires index.a == a && index.Valid() && Heads(chains1, index.Contents())
      requires Stores(hash, mem1, chains1, contents - {key}, at - {key})
      requires n in mem && mem[n].key == key && mem - {n} == mem1
      requires Housed(index.Held(), mem1, a.live - {n}) && n in a.live && a.live[n] == NodeBytes(|key|)
      requires key in contents && count == |contents|
      modifies this, a, a.under
      ensures Valid() && contents == old(contents) - {key} && gen == old(gen) + 1 && oom == old(oom)
      ensures a.live == old(a.live) - {n} && mem == mem1 && a.denials == old(a.denials)
    {
      hide Stores, Heads, Linked, Placed, Housed, Within, Balanced, NodesHeld, HTree.Valid, HTree.Contents, HTree.Held,
           Budget.Valid;
      HousedWithin(index.Held(), mem1, a.live - {n});
      IndexStands(index, a.live - {n});
      a.MemRelease(n, NodeBytes(|mem[n].key|));
      IndexAgain(index);
      Unpublish(n, key, mem1, chains1);
    }

    /** A released node leaves the dictionary's books. */
    method Unpublish(n: Addr, key: Bytes, ghost mem1: Memory, ghost chains1: Chains)
      requires index.a == a && index.Valid() && Housed(index.Held(), mem1, a.live) && Heads(chains1, index.Contents())
      requires Stores(hash, mem1, chains1, contents - {key}, at - {key}) && mem - {n} == mem1
      requires key in contents && count == |contents|
      modifies this
      ensures Valid() && contents == old(contents) - {key} && gen == old(gen) + 1 && oom == old(oom) && mem == mem1
    {
      hide Stores, Heads, Linked, Placed, Housed, HTree.Valid, HTree.Contents, HTree.Held, Budget.Valid, Within;
      CountMore(contents, key, NULL);
      mem, count, gen := mem - {n}, count - 1, gen + 1;
      chains, contents, at := chains1, contents - {key}, at - {key};
    }

    /** The three unlink cases: past a predecessor, a new head, or the last of its hash. */
    method Unlink(n: Addr, prev: Addr, h: Key, ghost chain: seq<Addr>, ghost i: nat)
      requires index.a == a && index.Valid() && Heads(chains, index.Contents()) && Linked(mem, chain, h) && NULL !in mem
      requires h in chains && chains[h] == chain && i < |chain| && chain[i] == n
      requires n in mem && (i > 0 ==> chain[i - 1] in mem) && prev == if i == 0 then NULL else chain[i - 1]
      modifies this`mem, index, a, a.under
      ensures index.Valid() && Heads(Shortened(chains, h, i), index.Contents())
      ensures mem == Relinked(old(mem), chain, i) && a.denials == old(a.denials)
      ensures Balanced(old(a.live), old(index.Held()), a.live, index.Held())
    {
      hide Stores, Heads, Linked, Placed, Housed, Balanced, HTree.Valid, HTree.Contents, HTree.Held, Budget.Valid, Relinked,
           Shortened, Within;
      HeadShortened(chains, index.Contents(), h, i);
      LinkedNext(mem, chain, h, i);
      Unchanged(index);
      if prev != NULL {
        mem := mem[prev := mem[prev].(next := mem[n].next)];
        return;
      }
      if mem[n].next != NULL {
        ghost var blocks;
        var ok;
        ok, blocks := index.Insert(h, mem[n].next);
        if !ok { assert false; }
        return;
      }
      var w, was := index.Delete(h);
    }

    /** chain_free: every node of a chain goes back. */
    method ChainFree(head: Addr, ghost chain: seq<Addr>, ghost h: Key)
      requires a.Valid() && Linked(mem, chain, h) && head == chain[0] && NULL !in mem
      requires forall p :: p in mem ==> p in a.live && a.live[p] == NodeBytes(|mem[p].key|)
      modifies this`mem, a, a.under
      ensures a.Valid() && a.denials == old(a.denials)
      ensures mem == old(mem) - Members(chain) && a.live == old(a.live) - Members(chain)
    {
      hide Total;
      var n := head;
      ghost var i := 0;
      assert Members(chain[..0]) == {};
      while n != NULL
        invariant 0 <= i <= |chain| && n == (if i < |chain| then chain[i] else NULL)
        invariant a.Valid() && a.denials == old(a.denials) && mem == old(mem) - Members(chain[..i]) && a.live == old(a.live) - Members(chain[..i])
        decreases |chain| - i
      {
        var next := mem[n].next;
        MembersMore(chain, i);
        a.MemRelease(n, NodeBytes(|mem[n].key|));
        mem := mem - {n};
        n := next;
        i := i + 1;
      }
      assert chain[..i] == chain;
    }

    /** Where a clearing walk stands after k items of the index. */
    ghost predicate WalkedTo(mem0: Memory, live0: Ledger, items: seq<Item>, k: nat)
      requires k <= |items|
      reads this, index, a
    {
      && Remaining(mem0, mem, items, k) && Housed(index.Held(), mem, a.live)
      && a.live == live0 - (mem0.Keys - mem.Keys)
    }

    lemma WalkStarts(items: seq<Item>)
      requires Valid()
      ensures WalkedTo(mem, a.live, items, 0) && index.a == a && Stores(hash, mem, chains, contents, at)
      ensures Heads(chains, index.Contents()) && index.Valid() && Shaped(index.root, 0, 0) && index.Contents() == Entries(index.root)
    {
      hide Stores, Heads, Housed, Remaining;
      Unvisited(mem, items);
      Unreleased(a.live, mem, mem);
    }

    lemma WalkEnds(mem0: Memory, live0: Ledger, items: seq<Item>)
      requires WalkedTo(mem0, live0, items, |items|) && Stores(hash, mem0, chains, contents, at)
      requires Heads(chains, index.Contents()) && Lists(items, index.Contents())
      ensures mem == map[] && a.live == live0 - mem0.Keys
    {
      hide Stores, Heads, Housed, Remaining, Lists;
      AllVisited(hash, mem0, mem, chains, contents, at, index.Contents(), items);
      assert mem0.Keys - mem.Keys == mem0.Keys;
    }

    method ClearOne(head: Addr, ghost mem0: Memory, ghost live0: Ledger, ghost items: seq<Item>, ghost k: nat)
      requires index.a == a && index.Valid() && k < |items| && head == items[k].1
      requires Stores(hash, mem0, chains, contents, at) && Heads(chains, index.Contents())
      requires Lists(items, index.Contents()) && Ascending(items)
      requires WalkedTo(mem0, live0, items, k)
      modifies this`mem, a, a.under
      ensures index.Valid() && WalkedTo(mem0, live0, items, k + 1) && a.denials == old(a.denials)
    {
      hide Stores, Heads, Linked, Housed, Within, HTree.Valid, Budget.Valid, Blocks, Entries, Lists, Ascending, Remaining, Members;
      ghost var h := items[k].0;
      ghost var live1, mem1 := a.live, mem;
      VisitStep(hash, mem0, mem, chains, contents, at, index.Contents(), items, k, index.Held(), a.live);
      RemainingPart(mem0, mem, items, k);
      HousedWithin(index.Held(), mem - Members(chains[h]), a.live - Members(chains[h]));
      IndexStands(index, a.live - Members(chains[h]));
      ChainFree(head, chains[h], h);
      IndexAgain(index);
      LiveGone(live0, mem0, mem1, Members(chains[h]));
    }

    /** bbq_dict_clear: the index is walked, every chain freed, and the index cleared. */
    method Clear()
      requires Valid()
      modifies this, index, a, a.under
      ensures Valid() && contents == map[] && gen == old(gen) + 1 && oom == old(oom)
      ensures mem == map[] && chains == map[] && at == map[]
      ensures a.live == old(a.live) - old(Held()).Keys && Held() == map[] && a.denials == old(a.denials)
    {
      hide Valid, Stores, Heads, WalkedTo, HTree.Valid, HTree.Contents, HTree.Held, Items, Lists, Ascending, Shaped,
           Iter.Valid, Iter.Left;
      ghost var items, denied := Items(index.root), a.denials;
      WalkStarts(items);
      ItemsAre(index.root, 0, 0);
      var it := new Iter(index);
      ghost var k := 0;
      assert items[0..] == items;
      var l := Advance(it, items, k);
      while l.Some?
        invariant it.Valid() && it.gen == index.gen && index.Valid() && k <= |items| && Walking(it, items, k, l)
        invariant WalkedTo(old(mem), old(a.live), items, k) && a.denials == denied
        decreases |items| - k
        modifies this`mem, a, a.under, it, it.stack, it.idx
      {
        ClearOne(l.value.1, old(mem), old(a.live), items, k);
        k := k + 1;
        l := Advance(it, items, k);
      }
      WalkEnds(old(mem), old(a.live), items);
      Emptied(old(a.live), old(index.Held()), old(mem));
    }

    /** With every node gone the index goes too. */
    method Emptied(ghost live0: Ledger, ghost held0: Ledger, ghost mem0: Memory)
      requires index.a == a && index.Valid() && held0 == index.Held() && mem == map[] && a.live == live0 - mem0.Keys
      modifies this, index, a, a.under
      ensures Valid() && contents == map[] && gen == old(gen) + 1 && oom == old(oom)
      ensures mem == map[] && chains == map[] && at == map[]
      ensures a.live == live0 - (held0 + NodesHeld(mem0)).Keys && Held() == map[] && a.denials == old(a.denials)
    {
      hide Stores, Heads, Housed, HTree.Valid, Blocks, Entries;
      index.Clear();
      Cleared(live0, held0, mem0);
      contents, at, chains := map[], map[], map[];
      count := 0;
      gen := gen + 1;
      NothingStored(hash, index.Contents(), a.live);
    }

    /** bbq_dict_free. */
    method Free()
      requires Valid()
      modifies this, index, a, a.under
      ensures Valid() && contents == map[] && !oom
      ensures a.live == old(a.live) - old(Held()).Keys && Held() == map[] && a.denials == old(a.denials)
    {
      hide Stores, Heads, Housed, Valid, HTree.Valid, HTree.Held, HTree.Contents, Blocks, Entries;
      Clear();
      Forget();
    }

    /** What is left of a cleared dictionary to give up: the refusal it remembers. */
    method Forget()
      requires Valid() && contents == map[] && mem == map[] && chains == map[] && at == map[] && Held() == map[]
      modifies this`oom, index, a, a.under
      ensures Valid() && !oom && a.live == old(a.live) && Held() == map[] && a.denials == old(a.denials)
    {
      hide Stores, Heads, Housed, HTree.Valid, Blocks, Entries;
      index.Free();
      oom := false;
      NothingStored(hash, index.Contents(), a.live);
    }
  }

  /** The books of a deletion: the trie moves its blocks, then one node goes back. */
  lemma DeleteBooks(index0: Ledger, mem: Memory, live0: Ledger, index1: Ledger, live1: Ledger, chain: seq<Addr>, h: Key, i: nat)
    requires Housed(index0, mem, live0) && Balanced(live0, index0, live1, index1)
    requires Linked(mem, chain, h) && i < |chain|
    ensures var n, mem1 := chain[i], Unlinked(mem, chain, i);
            && n in live1 && live1[n] == NodeBytes(|mem[n].key|)
            && Housed(index1, mem1, live1 - {n}) && Within(index1, live1 - {n})
            && Balanced(live0, index0 + NodesHeld(mem), live1 - {n}, index1 + NodesHeld(mem1))
  {
    var n, mem1 := chain[i], Unlinked(mem, chain, i);
    assert n in mem && (i > 0 ==> chain[i - 1] in mem);
    UnlinkedIs(mem, chain, h, i);
    hide Linked, Unlinked, Housed, Balanced, Within, NodesHeld;
    IndexMoves(index0, mem, live0, index1, live1);
    NodeGiven(index1, mem, live1, n, mem1);
    BalancedTrans(live0, index0 + NodesHeld(mem), live1, index1 + NodesHeld(mem), live1 - {n}, index1 + NodesHeld(mem1));
    HousedWithin(index1, mem1, live1 - {n});
  }

  /** The books of an insertion: one node is taken, then the trie takes what it needs. */
  lemma PutBooks(index0: Ledger, mem: Memory, live0: Ledger, n: Addr, node: DNode, index1: Ledger, live2: Ledger)
    requires Housed(index0, mem, live0) && n !in live0
    requires Balanced(live0[n := NodeBytes(|node.key|)], index0, live2, index1)
    ensures n !in mem && Housed(index1, mem[n := node], live2)
    ensures Balanced(live0, index0 + NodesHeld(mem), live2, index1 + NodesHeld(mem[n := node]))
  {
    hide Housed, Balanced, NodesHeld;
    var live1 := live0[n := NodeBytes(|node.key|)];
    NodeTaken(index0, mem, live0, n, node);
    IndexMoves(index0, mem[n := node], live1, index1, live2);
    BalancedTrans(live0, index0 + NodesHeld(mem), live1, index0 + NodesHeld(mem[n := node]), live2, index1 + NodesHeld(mem[n := node]));
  }

  lemma UnlinkedKeeps(mem: Memory, chain: seq<Addr>, i: nat)
    requires i < |chain| && chain[i] in mem && (i > 0 ==> chain[i - 1] in mem)
    ensures var mem1 := Relinked(mem, chain, i);
            chain[i] in mem1 && mem1[chain[i]].key == mem[chain[i]].key && mem1 - {chain[i]} == Unlinked(mem, chain, i)
  {}

  /** The trie does not mind other owners' blocks coming and going. */
  lemma IndexStands(t: HTree, live: Ledger)
    requires t.Valid() && Within(t.Held(), live)
    ensures t.a.Valid() && Shaped(t.root, 0, 0) && t.count == Size(t.root) && Stored(t.root, live)
  {
    StoredWithin(t.root, t.a.live, live);
  }

  lemma IndexAgain(t: HTree)
    requires t.a.Valid() && Shaped(t.root, 0, 0) && t.count == Size(t.root) && Stored(t.root, t.a.live)
    ensures t.Valid()
  {}

  lemma Unchanged(t: HTree)
    requires t.Valid()
    ensures Balanced(t.a.live, t.Held(), t.a.live, t.Held())
  {
    Unbalanced(t.a.live, t.root);
  }

  // ── Clearing ──────────────────────────────────────────────────────────

  function Members(chain: seq<Addr>): set<Addr> {
    set p | p in chain
  }

  lemma MembersMore(chain: seq<Addr>, i: nat)
    requires i < |chain|
    ensures Members(chain[..i + 1]) == Members(chain[..i]) + {chain[i]}
    ensures (forall j, k :: 0 <= j < k < |chain| ==> chain[j] != chain[k]) ==> chain[i] !in Members(chain[..i])
  {
    assert chain[..i + 1] == chain[..i] + [chain[i]];
  }

  /** What is left once the chains of the first k items are gone. */
  ghost predicate Remaining(mem0: Memory, mem: Memory, items: seq<Item>, k: nat)
    requires k <= |items|
  {
    && (forall p :: p in mem <==> p in mem0 && forall j :: 0 <= j < k ==> items[j].0 != mem0[p].hash)
    && (forall p :: p in mem ==> mem[p] == mem0[p])
  }

  lemma Unvisited(mem: Memory, items: seq<Item>)
    ensures Remaining(mem, mem, items, 0)
  {}

  lemma Unreleased(live: Ledger, mem0: Memory, mem: Memory)
    requires mem0 == mem
    ensures live == live - (mem0.Keys - mem.Keys)
  {}

  /** A chain holds exactly the nodes of its hash. */
  lemma ChainIsHash(hash: Bytes -> Key, mem: Memory, chains: Chains, m: map<Bytes, Addr>, at: map<Bytes, Addr>, h: Key)
    requires Stores(hash, mem, chains, m, at) && h in chains
    ensures Linked(mem, chains[h], h) && NULL !in mem
    ensures forall q :: q in Members(chains[h]) <==> q in mem && mem[q].hash == h
  {
    forall q | q in mem && mem[q].hash == h ensures q in chains[h] { assert Placed(hash, mem, chains, at, q); }
  }

  lemma RemainingMore(mem0: Memory, mem: Memory, items: seq<Item>, k: nat, gone: set<Addr>)
    requires k < |items| && Remaining(mem0, mem, items, k)
    requires forall q :: q in gone <==> q in mem0 && mem0[q].hash == items[k].0
    ensures Remaining(mem0, mem - gone, items, k + 1)
  {
    var mem1 := mem - gone;
    forall p ensures p in mem1 <==> p in mem0 && forall j :: 0 <= j < k + 1 ==> items[j].0 != mem0[p].hash {
      if p in mem1 {
        forall j | 0 <= j < k + 1 ensures items[j].0 != mem0[p].hash { if j == k { assert p !in gone; } }
      } else if p in mem0 && forall j :: 0 <= j < k + 1 ==> items[j].0 != mem0[p].hash {
        assert items[k].0 != mem0[p].hash;
      }
    }
  }

  lemma StillThere(mem0: Memory, mem: Memory, items: seq<Item>, k: nat, chain: seq<Addr>)
    requires k < |items| && Ascending(items) && Remaining(mem0, mem, items, k) && Linked(mem0, chain, items[k].0)
    ensures Linked(mem, chain, items[k].0)
  {
    forall q | q in mem0 && mem0[q].hash == items[k].0 ensures q in mem && mem[q] == mem0[q] {
      forall j | 0 <= j < k ensures items[j].0 != items[k].0 {}
    }
    LinkedSame(mem0, mem, chain, items[k].0);
  }

  lemma HousedLess(held: Ledger, mem: Memory, live: Ledger, gone: set<Addr>)
    requires Housed(held, mem, live) && gone <= mem.Keys
    ensures Housed(held, mem - gone, live - gone)
    ensures forall p :: p in mem ==> p in live && live[p] == NodeBytes(|mem[p].key|)
  {}

  /** The next chain is still whole, and freeing it is one step of the walk. */
  lemma VisitStep(hash: Bytes -> Key, mem0: Memory, mem: Memory, chains: Chains, m: map<Bytes, Addr>, at: map<Bytes, Addr>,
                  index: map<Key, Addr>, items: seq<Item>, k: nat, held: Ledger, live: Ledger)
    requires Stores(hash, mem0, chains, m, at) && Heads(chains, index) && Lists(items, index) && Ascending(items)
    requires k < |items| && Remaining(mem0, mem, items, k) && Housed(held, mem, live)
    ensures var h := items[k].0;
            && h in chains && Linked(mem, chains[h], h) && items[k].1 == chains[h][0] && NULL !in mem
            && Members(chains[h]) <= mem.Keys
            && Remaining(mem0, mem - Members(chains[h]), items, k + 1)
            && Housed(held, mem - Members(chains[h]), live - Members(chains[h]))
            && (forall p :: p in mem ==> p in live && live[p] == NodeBytes(|mem[p].key|))
  {
    hide Stores, Linked, Housed, Remaining, Ascending;
    var h := items[k].0;
    ChainIsHash(hash, mem0, chains, m, at, h);
    StillThere(mem0, mem, items, k, chains[h]);
    LinkedIn(mem, chains[h], h);
    RemainingMore(mem0, mem, items, k, Members(chains[h]));
    RemainingPart(mem0, mem, items, k);
    HousedLess(held, mem, live, Members(chains[h]));
  }

  lemma LinkedIn(mem: Memory, chain: seq<Addr>, h: Key)
    requires Linked(mem, chain, h)
    ensures chain != [] && Members(chain) <= mem.Keys
  {}

  lemma RemainingPart(mem0: Memory, mem: Memory, items: seq<Item>, k: nat)
    requires k <= |items| && Remaining(mem0, mem, items, k)
    ensures mem.Keys <= mem0.Keys
  {}

  lemma LiveGone(live: Ledger, mem0: Memory, mem: Memory, gone: set<Addr>)
    requires gone <= mem.Keys <= mem0.Keys
    ensures live - (mem0.Keys - mem.Keys) - gone == live - (mem0.Keys - (mem - gone).Keys)
  {}

  /** After the last item nothing is left. */
  lemma AllVisited(hash: Bytes -> Key, mem0: Memory, mem: Memory, chains: Chains, m: map<Bytes, Addr>, at: map<Bytes, Addr>,
                   index: map<Key, Addr>, items: seq<Item>)
    requires Stores(hash, mem0, chains, m, at) && Heads(chains, index) && Lists(items, index)
    requires Remaining(mem0, mem, items, |items|)
    ensures mem == map[]
  {
    forall p | p in mem0 ensures p !in mem {
      assert Placed(hash, mem0, chains, at, p);
      var h := mem0[p].hash;
      assert h in index && (h, index[h]) in items;
      var j :| 0 <= j < |items| && items[j] == (h, index[h]);
      assert items[j].0 == mem0[p].hash;
    }
  }

  lemma Cleared(live: Ledger, held: Ledger, mem: Memory)
    ensures live - mem.Keys - held.Keys == live - (held + NodesHeld(mem)).Keys
    ensures var none: Memory := map[]; mem.Keys - none.Keys == mem.Keys
  {}

  lemma NothingStored(hash: Bytes -> Key, index: map<Key, Addr>, live: Ledger)
    ensures Stores(hash, map[], map[], map[], map[])
    ensures index == map[] ==> Heads(map[], index)
    ensures Housed(map[], map[], live)
    ensures var none: Memory := map[]; NodesHeld(none) == map[]
  {}

  lemma AbsentKey(m: map<Bytes, Addr>, at: map<Bytes, Addr>, key: Bytes)
    requires key !in m
    ensures m - {key} == m
  {}

  lemma ChainIsLinked(hash: Bytes -> Key, mem: Memory, chains: Chains, m: map<Bytes, Addr>, at: map<Bytes, Addr>, h: Key)
    requires Stores(hash, mem, chains, m, at) && h in chains
    ensures Linked(mem, chains[h], h) && NULL !in mem
  {}

  lemma WalkFacts(hash: Bytes -> Key, mem: Memory, chains: Chains, m: map<Bytes, Addr>, at: map<Bytes, Addr>, key: Bytes)
    requires Stores(hash, mem, chains, m, at)
    ensures var chain := ChainOf(chains, hash(key));
            forall j :: 0 <= j < |chain| ==> chain[j] in mem && chain[j] != NULL && mem[chain[j]].next == After(chain, j)
  {
    var chain := ChainOf(chains, hash(key));
    if chain != [] { assert Linked(mem, chain, hash(key)); }
  }

  /** A walk past other keys stops at the key's own node, or the key is nowhere. */
  lemma WalkEnded(hash: Bytes -> Key, mem: Memory, chains: Chains, m: map<Bytes, Addr>, at: map<Bytes, Addr>, key: Bytes, i: nat)
    requires Stores(hash, mem, chains, m, at)
    requires var chain := ChainOf(chains, hash(key));
             && i <= |chain| && (forall j :: 0 <= j < |chain| ==> chain[j] in mem)
             && (forall j :: 0 <= j < i ==> mem[chain[j]].key != key)
    ensures var chain := ChainOf(chains, hash(key));
            && (i == |chain| ==> key !in m)
            && (i < |chain| && mem[chain[i]].key == key ==> key in m && at[key] == chain[i] && m[key] == mem[chain[i]].value)
  {
    var chain := ChainOf(chains, hash(key));
    if key in m { assert Placed(hash, mem, chains, at, at[key]); }
    if i < |chain| { assert Placed(hash, mem, chains, at, chain[i]); }
  }
}
