/** Iteration over a dictionary: the trie's walk, and each hash's chain in turn. */
module DictWalk {
  import opened Syntax
  import opened Alloc
  import opened Trie
  import opened TrieIter
  import opened HTreeClass
  import opened DictClass

  /** The nodes of the chains the items name, in order. */
  ghost function NodesOf(chains: Chains, items: seq<Item>): seq<Addr> {
    if items == [] then [] else ChainOf(chains, items[0].0) + NodesOf(chains, items[1..])
  }

  /** A rest of a chain: its nodes are linked to its end. */
  ghost predicate RestOf(mem: Memory, rest: seq<Addr>) {
    forall j :: 0 <= j < |rest| ==> rest[j] in mem && rest[j] != NULL && mem[rest[j]].next == After(rest, j)
  }

  /** Items still to be walked are heads of chains that can be walked to their end. */
  ghost predicate HeadsAhead(mem: Memory, chains: Chains, items: seq<Item>) {
    forall i :: 0 <= i < |items| ==>
      items[i].0 in chains && chains[items[i].0] != [] && items[i].1 == chains[items[i].0][0] && RestOf(mem, chains[items[i].0])
  }

  lemma RestMore(mem: Memory, rest: seq<Addr>)
    requires RestOf(mem, rest) && rest != []
    ensures rest[0] in mem && rest[0] != NULL && mem[rest[0]].next == HeadOf(rest[1..]) && RestOf(mem, rest[1..])
  {
    forall j | 0 <= j < |rest[1..]| ensures mem[rest[1..][j]].next == After(rest[1..], j) {
      assert rest[1..][j] == rest[j + 1];
    }
  }

  lemma AheadMore(mem: Memory, chains: Chains, items: seq<Item>)
    requires HeadsAhead(mem, chains, items) && items != []
    ensures var chain := ChainOf(chains, items[0].0);
            && chain != [] && items[0].1 == HeadOf(chain) && items[0].1 != NULL && RestOf(mem, chain)
            && HeadsAhead(mem, chains, items[1..]) && NodesOf(chains, items) == chain + NodesOf(chains, items[1..])
  {
    forall i | 0 <= i < |items[1..]| ensures items[1..][i] == items[i + 1] {}
  }

  lemma AllAhead(d: Dict)
    requires d.Valid()
    ensures HeadsAhead(d.mem, d.chains, Items(d.index.root)) && Shaped(d.index.root, 0, 0)
  {
    hide Stores, Linked, Placed;
    var items := Items(d.index.root);
    ItemsAre(d.index.root, 0, 0);
    forall i | 0 <= i < |items|
      ensures items[i].0 in d.chains && items[i].1 == d.chains[items[i].0][0] && RestOf(d.mem, d.chains[items[i].0])
    {
      ChainIsLinked(d.hash, d.mem, d.chains, d.contents, d.at, items[i].0);
      LinkedRest(d.mem, d.chains[items[i].0], items[i].0);
    }
  }

  lemma LinkedRest(mem: Memory, chain: seq<Addr>, h: Key)
    requires Linked(mem, chain, h) && NULL !in mem
    ensures RestOf(mem, chain)
  {}

  // ── What an iteration lists ───────────────────────────────────────────

  lemma {:induction false} InNodes(chains: Chains, items: seq<Item>, p: Addr)
    ensures p in NodesOf(chains, items) <==> exists i :: 0 <= i < |items| && p in ChainOf(chains, items[i].0)
  {
    if items != [] {
      InNodes(chains, items[1..], p);
      if i :| 0 <= i < |items| && p in ChainOf(chains, items[i].0) {
        if i > 0 { assert items[1..][i - 1] == items[i]; }
      }
      if i :| 0 <= i < |items[1..]| && p in ChainOf(chains, items[1..][i].0) { assert items[i + 1] == items[1..][i]; }
    }
  }

  ghost predicate NoTwice(s: seq<Addr>) {
    forall i, j :: 0 <= i < j < |s| ==> s[i] != s[j]
  }

  lemma JoinNoTwice(a: seq<Addr>, b: seq<Addr>)
    requires NoTwice(a) && NoTwice(b) && forall p :: p in a ==> p !in b
    ensures NoTwice(a + b)
  {
    var ab := a + b;
    forall i, j | 0 <= i < j < |ab| ensures ab[i] != ab[j] {
      if |a| <= i {
        assert b[i - |a|] != b[j - |a|];
      } else if |a| <= j {
        assert a[i] in a && b[j - |a|] in b;
      }
    }
  }

  /** Chains of different hashes share no node. */
  lemma {:induction false} NodesNoTwice(mem: Memory, chains: Chains, items: seq<Item>)
    requires Ascending(items) && forall h :: h in chains ==> Linked(mem, chains[h], h)
    ensures NoTwice(NodesOf(chains, items))
  {
    hide Linked;
    if items != [] {
      var h, rest := items[0].0, items[1..];
      NodesNoTwice(mem, chains, rest);
      if h in chains { LinkedNodes(mem, chains[h], h); }
      forall p | p in ChainOf(chains, h) ensures p !in NodesOf(chains, rest) {
        InNodes(chains, rest, p);
        forall i | 0 <= i < |rest| ensures p !in ChainOf(chains, rest[i].0) {
          assert rest[i] == items[i + 1];
          if rest[i].0 in chains { LinkedNodes(mem, chains[rest[i].0], rest[i].0); }
        }
      }
      JoinNoTwice(ChainOf(chains, h), NodesOf(chains, rest));
    }
  }

  lemma LinkedNodes(mem: Memory, chain: seq<Addr>, h: Key)
    requires Linked(mem, chain, h)
    ensures NoTwice(chain) && forall p :: p in chain ==> p in mem && mem[p].hash == h
  {}

  /** On an unchanged dictionary an iteration lists every node once, and the nodes are the
      entries: each key is met exactly once, with its value. */
  lemma EveryEntryOnce(d: Dict)
    requires d.Valid()
    ensures var ns := NodesOf(d.chains, Items(d.index.root));
            && NoTwice(ns)
            && (forall j :: 0 <= j < |ns| ==>
                  ns[j] in d.mem && d.mem[ns[j]].key in d.contents && d.mem[ns[j]].value == d.contents[d.mem[ns[j]].key])
            && (forall j, k :: 0 <= j < k < |ns| ==> d.mem[ns[j]].key != d.mem[ns[k]].key)
            && (forall key :: key in d.contents ==> exists j :: 0 <= j < |ns| && d.mem[ns[j]].key == key)
  {
    hide Linked, Placed, Lists, Ascending, HTree.Valid, Housed;
    var items := Items(d.index.root);
    AllAhead(d);
    ItemsAre(d.index.root, 0, 0);
    NodesNoTwice(d.mem, d.chains, items);
    var ns := NodesOf(d.chains, items);
    forall j | 0 <= j < |ns|
      ensures ns[j] in d.mem && d.mem[ns[j]].key in d.contents && d.mem[ns[j]].value == d.contents[d.mem[ns[j]].key]
      ensures d.at[d.mem[ns[j]].key] == ns[j]
    {
      InNodes(d.chains, items, ns[j]);
      var i :| 0 <= i < |items| && ns[j] in ChainOf(d.chains, items[i].0);
      LinkedNodes(d.mem, d.chains[items[i].0], items[i].0);
      NodeIsEntry(d, ns[j]);
    }
    forall key | key in d.contents ensures exists j :: 0 <= j < |ns| && d.mem[ns[j]].key == key {
      EntryListed(d, items, key);
    }
  }

  lemma NodeIsEntry(d: Dict, p: Addr)
    requires d.Valid() && p in d.mem
    ensures var n := d.mem[p]; n.key in d.contents && d.at[n.key] == p && n.value == d.contents[n.key]
    ensures var n := d.mem[p]; n.hash in d.chains && p in d.chains[n.hash]
  {
    hide Linked, HTree.Valid, Housed, Heads;
    assert Placed(d.hash, d.mem, d.chains, d.at, p);
  }

  lemma EntryListed(d: Dict, items: seq<Item>, key: Bytes)
    requires d.Valid() && Lists(items, d.index.Contents()) && key in d.contents
    ensures d.at[key] in NodesOf(d.chains, items) && d.at[key] in d.mem && d.mem[d.at[key]].key == key
  {
    hide Linked, Placed, HTree.Valid, Housed;
    var p := d.at[key];
    NodeIsEntry(d, p);
    var h := d.mem[p].hash;
    assert h in d.index.Contents();
    var i :| 0 <= i < |items| && items[i] == (h, d.index.Contents()[h]);
    assert items[i].0 == h;
    InNodes(d.chains, items, p);
  }

  // ── The iterator ──────────────────────────────────────────────────────

  /** bbq_dict_iter: a value that allocates nothing of its own. */
  class DictIter {
    const d: Dict
    const tit: Iter
    var cur: Addr
    var gen: nat

    /** The rest of the chain that cur starts. */
    ghost var rest: seq<Addr>

    ghost predicate Valid()
      reads this, d, tit, tit.stack, tit.idx, d.index
    {
      && tit.Valid() && tit.t == d.index
      && (gen == d.gen ==>
            && tit.gen == d.index.gen && cur == HeadOf(rest)
            && RestOf(d.mem, rest) && HeadsAhead(d.mem, d.chains, tit.Left()))
    }

    /** The nodes the coming calls of Next yield while the dictionary is not changed. */
    ghost function Left(): seq<Addr>
      requires Valid()
      reads this, d, tit, tit.stack, tit.idx, d.index
    {
      rest + NodesOf(d.chains, tit.Left())
    }

    /** bbq_dict_iter_init. */
    constructor (d: Dict)
      requires d.Valid()
      ensures Valid() && this.d == d && gen == d.gen && Left() == NodesOf(d.chains, Items(d.index.root))
      ensures fresh(this) && fresh(tit) && fresh(tit.stack) && fresh(tit.idx)
    {
      hide Dict.Valid, Shaped, Items, NodesOf, HeadsAhead, Iter.Valid, Iter.Left;
      AllAhead(d);
      this.d := d;
      cur, rest := NULL, [];
      gen := d.gen;
      tit := new Iter(d.index);
    }

    /** bbq_dict_next: the next entry, or nothing at the end or once the dictionary has changed. */
    method Next() returns (r: Option<(Bytes, Addr)>)
      requires Valid()
      modifies this, tit, tit.stack, tit.idx
      ensures Valid() && gen == old(gen)
      ensures gen != d.gen ==> r == None
      ensures gen == d.gen && old(Left()) == [] ==> r == None && Left() == []
      ensures gen == d.gen && old(Left()) != [] ==>
                && old(Left())[0] in d.mem && Left() == old(Left())[1..]
                && r == Some((d.mem[old(Left())[0]].key, d.mem[old(Left())[0]].value))
    {
      hide RestOf, HeadsAhead, NodesOf, Iter.Valid, Iter.Left;
      if gen != d.gen { return None; }
      var n := cur;
      NoNodes(d.chains);
      while n == NULL
        invariant tit.Valid() && tit.gen == d.index.gen && n == HeadOf(rest) && RestOf(d.mem, rest) && gen == old(gen)
        invariant HeadsAhead(d.mem, d.chains, tit.Left()) && rest + NodesOf(d.chains, tit.Left()) == old(Left())
        decreases |tit.Left()|
      {
        NullEnds(d.mem, rest);
        ghost var items := tit.Left();
        if items != [] { AheadMore(d.mem, d.chains, items); }
        var l := tit.Next();
        if l.None? {
          cur, rest := NULL, [];
          return None;
        }
        n := l.value.1;
        rest := ChainOf(d.chains, l.value.0);
      }
      NullEnds(d.mem, rest);
      RestMore(d.mem, rest);
      assert rest[0] == n && (rest + NodesOf(d.chains, tit.Left()))[1..] == rest[1..] + NodesOf(d.chains, tit.Left());
      rest := rest[1..];
      cur := d.mem[n].next;
      return Some((d.mem[n].key, d.mem[n].value));
    }
  }

  /** An iteration goes on undisturbed after a put that was refused. */
  twostate lemma SurvivesRefusal(it: DictIter)
    requires old(it.Valid()) && unchanged(it, it.tit, it.tit.stack, it.tit.idx)
    requires it.d.mem == old(it.d.mem) && it.d.chains == old(it.d.chains) && it.d.gen == old(it.d.gen)
    requires it.d.index.gen == old(it.d.index.gen)
    ensures it.Valid() && it.Left() == old(it.Left())
  {}

  lemma NoNodes(chains: Chains)
    ensures NodesOf(chains, []) == []
  {}

  lemma NullEnds(mem: Memory, rest: seq<Addr>)
    requires RestOf(mem, rest)
    ensures HeadOf(rest) == NULL <==> rest == []
  {}
}
