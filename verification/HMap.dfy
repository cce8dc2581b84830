/** bbq_hmap: an open-addressed map, linear probing, for any mix function. */
module HMapClass {
  import opened Syntax
  import opened Eval
  import opened Arith
  import opened LebSpec
  import opened LebLoops
  import opened Alloc
  import opened Trie

  const DEFAULT_CAP: nat := 16

  // ── Probing ───────────────────────────────────────────────────────────

  /** The slot d steps along the probe path of a home slot. */
  function Probe(home: nat, d: nat, cap: nat): (i: nat)
    requires cap > 0
    ensures i < cap
  {
    (home + d) % cap
  }

  lemma ProbeStep(home: nat, d: nat, cap: nat)
    requires cap > 0
    ensures Probe(home, d + 1, cap) == (Probe(home, d, cap) + 1) % cap
  {
    var x := home + d;
    var q := x / cap;
    assert x + 1 == (x % cap + 1) + q * cap by { assert x == q * cap + x % cap; }
    FloorShift(x % cap + 1, q, cap);
  }

  /** Within one turn, the probe path reaches every slot. */
  lemma ProbeReaches(home: nat, slot: nat, cap: nat) returns (d: nat)
    requires home < cap && slot < cap
    ensures d < cap && Probe(home, d, cap) == slot
  {
    if slot >= home {
      d := slot - home;
      ModSmall(slot, cap);
    } else {
      d := slot + cap - home;
      FloorShift(slot, 1, cap);
      ModSmall(slot, cap);
      assert home + d == slot + 1 * cap;
    }
  }

  /** Masking with cap - 1 takes the remainder, because capacities are powers of two. */
  lemma HalfMask(x: nat, p: nat)
    requires p > 0
    ensures x % (2 * p) == x % 2 + 2 * (x / 2 % p)
  {
    DivStep(x, 2, p);
  }

  lemma {:induction false} MaskIsMod(x: nat, k: nat, w: nat)
    requires x < Pow2(w) && k <= w
    ensures Bitwise(Both, x, Pow2(k) - 1, w) == x % Pow2(k)
  {
    if k == 0 {
      AndZero(x, w);
    } else {
      MaskIsMod(x / 2, k - 1, w - 1);
      HalfMask(x, Pow2(k - 1));
    }
  }

  /** Where a key's probe path starts. */
  function Home(mix: Key -> Key, key: Key, cap: nat): (i: nat)
    requires cap > 0
    ensures i < cap
  {
    mix(key) % cap
  }

  // ── Tables ────────────────────────────────────────────────────────────

  /** The arrays hold the map m, and `at` says in which slot each key sits. Every key is
      reached from its home slot through used slots. */
  ghost predicate Table(mix: Key -> Key, keys: seq<Key>, vals: seq<Addr>, used: seq<bool>,
                        m: map<Key, Addr>, at: map<Key, nat>) {
    && |keys| == |vals| == |used| > 0 && at.Keys == m.Keys
    && (forall i :: 0 <= i < |used| && used[i] ==> keys[i] in m && at[keys[i]] == i && m[keys[i]] == vals[i])
    && (forall k :: k in m ==> at[k] < |used| && used[at[k]] && keys[at[k]] == k)
    && (forall k :: k in m ==> Reached(mix, used, k, at[k]))
  }

  ghost predicate Reached(mix: Key -> Key, used: seq<bool>, k: Key, slot: nat)
    requires |used| > 0
  {
    exists d :: 0 <= d < |used| && OnPath(Home(mix, k, |used|), used, d, slot)
  }

  ghost predicate OnPath(home: nat, used: seq<bool>, d: nat, slot: nat)
    requires |used| > 0
  {
    Probe(home, d, |used|) == slot && forall e :: 0 <= e < d ==> used[Probe(home, e, |used|)]
  }

  lemma {:induction false} AtLeast(keys: seq<Key>, at: map<Key, nat>, n: nat)
    requires n <= |keys| && forall i :: 0 <= i < n ==> keys[i] in at && at[keys[i]] == i
    ensures |at| >= n
  {
    if n > 0 {
      var k := keys[n - 1];
      var rest := at - {k};
      AtLeast(keys, rest, n - 1);
      assert at.Keys == rest.Keys + {k};
      assert |at| == |at.Keys| && |rest| == |rest.Keys|;
    }
  }

  lemma FullIsMany(keys: seq<Key>, used: seq<bool>, at: map<Key, nat>)
    requires |keys| == |used| && forall i :: 0 <= i < |used| && used[i] ==> keys[i] in at && at[keys[i]] == i
    ensures (forall i :: 0 <= i < |used| ==> used[i]) ==> |at| >= |used|
  {
    if forall i :: 0 <= i < |used| ==> used[i] { AtLeast(keys, at, |keys|); }
  }

  /** A table with fewer entries than slots has a free slot. */
  lemma FreeSlot(mix: Key -> Key, keys: seq<Key>, vals: seq<Addr>, used: seq<bool>, m: map<Key, Addr>, at: map<Key, nat>)
    returns (f: nat)
    requires Table(mix, keys, vals, used, m, at) && |m| < |used|
    ensures f < |used| && !used[f]
  {
    assert |at| == |at.Keys| == |m.Keys| == |m|;
    FullIsMany(keys, used, at);
    f :| 0 <= f < |used| && !used[f];
  }

  /** The walk along a probe path that has only met other keys has not passed the key. */
  ghost predicate Walking(mix: Key -> Key, keys: seq<Key>, used: seq<bool>, key: Key, d: nat)
    requires |keys| == |used| > 0
  {
    forall e :: 0 <= e < d ==>
      used[Probe(Home(mix, key, |used|), e, |used|)] && keys[Probe(Home(mix, key, |used|), e, |used|)] != key
  }

  /** Where the walk stops decides whether the key is in the map. */
  lemma WalkDecides(mix: Key -> Key, keys: seq<Key>, vals: seq<Addr>, used: seq<bool>, m: map<Key, Addr>, at: map<Key, nat>,
                    key: Key, d: nat)
    requires Table(mix, keys, vals, used, m, at) && Walking(mix, keys, used, key, d)
    ensures var s := Probe(Home(mix, key, |used|), d, |used|);
            && (used[s] && keys[s] == key ==> key in m && at[key] == s && m[key] == vals[s])
            && (!used[s] ==> key !in m)
  {
    var s := Probe(Home(mix, key, |used|), d, |used|);
    if key in m {
      assert Reached(mix, used, key, at[key]);
      var c :| 0 <= c < |used| && OnPath(Home(mix, key, |used|), used, c, at[key]);
      assert keys[Probe(Home(mix, key, |used|), c, |used|)] == key;
      assert d <= c;
      if d < c { assert used[Probe(Home(mix, key, |used|), d, |used|)]; }
    }
  }

  /** Storing at the slot the walk stopped at keeps the table. */
  lemma NoBlocks(live: Ledger)
    ensures Within(map[], live)
  {}

  lemma Stores(mix: Key -> Key, keys: seq<Key>, vals: seq<Addr>, used: seq<bool>, m: map<Key, Addr>, at: map<Key, nat>,
               key: Key, val: Addr, d: nat)
    requires Table(mix, keys, vals, used, m, at) && Walking(mix, keys, used, key, d) && d < |used|
    requires var s := Probe(Home(mix, key, |used|), d, |used|); used[s] ==> keys[s] == key
    ensures var s := Probe(Home(mix, key, |used|), d, |used|);
            Table(mix, keys[s := key], vals[s := val], used[s := true], m[key := val], at[key := s])
  {
    hide PowerOfTwo;
    var home := Home(mix, key, |used|);
    var s := Probe(home, d, |used|);
    var used1 := used[s := true];
    WalkDecides(mix, keys, vals, used, m, at, key, d);
    assert OnPath(home, used1, d, s);
    forall k | k in m && k != key ensures Reached(mix, used1, k, at[k]) {
      var c :| 0 <= c < |used| && OnPath(Home(mix, k, |used|), used, c, at[k]);
      assert OnPath(Home(mix, k, |used|), used1, c, at[k]);
    }
  }

  // ── Sizes ─────────────────────────────────────────────────────────────

  ghost predicate PowerOfTwo(c: nat) {
    exists k: nat :: k < 64 && c == Pow2(k)
  }

  /** round_pow2: the least power of two at or above n, or 0 when there is none. */
  method RoundPow2(n: nat) returns (c: nat)
    requires n <= SIZE_MAX
    ensures c == 0 <==> n > Pow2(63)
    ensures c != 0 ==> PowerOfTwo(c) && n <= c && (c == 1 || c / 2 < n)
  {
    Pow2Word();
    hide Pow2;
    c := 1;
    ghost var k: nat := 0;
    assert Pow2(0) == 1 by { Pow2Small(); }
    while c < n
      invariant k < 64 && c == Pow2(k) && (c == 1 || c / 2 < n)
      decreases 64 - k
    {
      if c > SIZE_MAX / 2 {
        if k < 63 { Pow2Mono(k + 1, 63); TwicePow2(k); }
        return 0;
      }
      TwicePow2(k);
      if k == 63 { assert false; }
      c := c * 2;
      k := k + 1;
    }
    Pow2Mono(k, 63);
  }

  lemma TwicePow2(k: nat)
    ensures Pow2(k + 1) == 2 * Pow2(k)
  {}

  function KBytes(cap: nat): nat { ArrayBytes(cap, 8) }
  function VBytes(cap: nat): nat { ArrayBytes(cap, 8) }
  function UBytes(cap: nat): nat { ArrayBytes(cap, 1) }

  /** The three blocks of a table of cap slots. */
  function TableBlocks(ks: Addr, vs: Addr, us: Addr, cap: nat): Ledger {
    Three(ks, vs, us, KBytes(cap), VBytes(cap), UBytes(cap))
  }

  lemma MaskMod(x: nat, cap: nat)
    requires PowerOfTwo(cap) && (x < KEYS || x <= cap)
    ensures cap > 0 && Bitwise(Both, x, cap - 1, 64) == x % cap
  {
    var k: nat :| k < 64 && cap == Pow2(k);
    Pow2Word();
    hide Pow2, Bitwise;
    Pow2Mono(k, 63);
    MaskIsMod(x, k, 64);
  }

  // ── Rehashing ─────────────────────────────────────────────────────────

  /** The part of a map whose keys sat in slots below i. */
  ghost predicate PartBelow(m: map<Key, Addr>, at: map<Key, nat>, i: nat, part: map<Key, Addr>)
    requires at.Keys == m.Keys
  {
    forall k :: (k in part <==> k in m && at[k] < i) && (k in part ==> part[k] == m[k])
  }

  /** Fewer entries than slots. */
  ghost predicate Roomy(m: map<Key, Addr>, cap: nat) {
    |m| < cap
  }

  lemma PartFits(m: map<Key, Addr>, at: map<Key, nat>, i: nat, part: map<Key, Addr>, cap: nat)
    requires at.Keys == m.Keys && PartBelow(m, at, i, part) && Roomy(m, cap)
    ensures Roomy(part, cap)
  {
    forall k | k in part.Keys ensures k in m.Keys {}
    SubsetSize(part.Keys, m.Keys);
    assert |part| == |part.Keys| && |m| == |m.Keys|;
  }

  lemma {:induction false} SubsetSize<T>(s: set<T>, r: set<T>)
    requires s <= r
    ensures |s| <= |r|
  {
    assert r == s + (r - s);
    assert |s + (r - s)| == |s| + |r - s|;
  }

  lemma PartMore(mix: Key -> Key, keys: seq<Key>, vals: seq<Addr>, used: seq<bool>, m: map<Key, Addr>, at: map<Key, nat>,
                 i: nat, part: map<Key, Addr>)
    requires Table(mix, keys, vals, used, m, at) && i < |used| && PartBelow(m, at, i, part)
    ensures !used[i] ==> PartBelow(m, at, i + 1, part)
    ensures used[i] ==> PartBelow(m, at, i + 1, part[keys[i] := vals[i]])
    ensures |keys| == |vals| == |used|
    ensures used[i] ==> keys[i] in m && keys[i] !in part
  {
    hide Reached;
  }

  lemma PartWhole(mix: Key -> Key, keys: seq<Key>, vals: seq<Addr>, used: seq<bool>, m: map<Key, Addr>, at: map<Key, nat>,
                  part: map<Key, Addr>)
    requires Table(mix, keys, vals, used, m, at) && PartBelow(m, at, |used|, part)
    ensures part == m
  {}

  class HMap {
    const mix: Key -> Key
    const a: Budget
    var keys: seq<Key>
    var vals: seq<Addr>
    var used: seq<bool>
    var keysAt: Addr
    var valsAt: Addr
    var usedAt: Addr
    var cap: nat
    var len: nat
    var oom: bool

    /** The map the table stands for, and where each key sits. */
    ghost var contents: map<Key, Addr>
    ghost var at: map<Key, nat>

    /** The blocks the map holds. */
    ghost function Held(): Ledger
      reads this
    {
      TableBlocks(keysAt, valsAt, usedAt, cap)
    }

    ghost predicate TableOk()
      reads this
    {
      |keys| == |vals| == |used| == cap > 0 && PowerOfTwo(cap) && Table(mix, keys, vals, used, contents, at)
    }

    ghost predicate Zeroed()
      reads this
    {
      |keys| == |vals| == |used| == cap && AllFree(used)
    }

    /** Three parallel arrays, each its own block. */
    ghost predicate BlocksOk()
      reads this, a
    {
      && |keys| == |vals| == |used| == cap
      && (if cap == 0 then keysAt == valsAt == usedAt == NULL else Apart(keysAt, valsAt, usedAt))
      && Within(Held(), a.live)
    }

    /** The load stays under three quarters, so a free slot always ends a probe. */
    ghost predicate Valid()
      reads this, a, a.under
    {
      a.Valid() && BlocksOk() && EntriesOk()
    }

    ghost predicate EntriesOk()
      reads this
    {
      && len == |contents|
      && (cap == 0 ==> contents == map[])
      && (cap > 0 ==> TableOk() && len * 4 < cap * 3)
    }

    /** hmap_alloc: three zeroed arrays or none. */
    method AllocTables(n: nat) returns (ok: bool)
      requires a.Valid()
      modifies this`keys, this`vals, this`used, this`keysAt, this`valsAt, this`usedAt, this`cap, a, a.under
      ensures a.Valid() && a.denials >= old(a.denials)
      ensures ok <==> n > 0 && n * 8 <= SIZE_MAX && a.denials == old(a.denials)
      ensures !ok ==> a.live == old(a.live) && unchanged(this)
      ensures ok ==> cap == n > 0 && Apart(keysAt, valsAt, usedAt)
      ensures ok ==> Zeroed()
      ensures ok ==> Balanced(old(a.live), map[], a.live, Held()) && Within(Held(), a.live)
    {
      hide Total, ArrayBytes, Three;
      if n == 0 || KBytes(n) == 0 || VBytes(n) == 0 || UBytes(n) == 0 { return false; }
      var ks, vs, us;
      ok, ks, vs, us := TakeThree(a, KBytes(n), VBytes(n), UBytes(n));
      if !ok { return; }
      keysAt, valsAt, usedAt := ks, vs, us;
      keys := seq(n, _ => 0);
      vals := seq(n, _ => NULL);
      used := seq(n, _ => false);
      cap := n;
    }

    /** hmap_slot: the slot the key occupies, or the first free slot on its probe path. */
    method Slot(key: Key) returns (i: nat, ghost d: nat)
      requires TableOk() && Roomy(contents, cap)
      ensures d < cap && i == Probe(Home(mix, key, cap), d, cap) && Walking(mix, keys, used, key, d)
      ensures used[i] ==> keys[i] == key
    {
      hide Pow2, Table, Bitwise, PowerOfTwo;
      ghost var f := FreeSlot(mix, keys, vals, used, contents, at);
      ghost var e := ProbeReaches(Home(mix, key, cap), f, cap);
      MaskMod(mix(key), cap);
      i := Bitwise(Both, mix(key), cap - 1, 64);
      d := 0;
      ModSmall(i, cap);
      while used[i] && keys[i] != key
        invariant d <= e && i == Probe(Home(mix, key, cap), d, cap) && Walking(mix, keys, used, key, d)
        decreases e - d
      {
        ProbeStep(Home(mix, key, cap), d, cap);
        MaskMod(i + 1, cap);
        i := Bitwise(Both, i + 1, cap - 1, 64);
        d := d + 1;
      }
    }

    /** An entry put in the slot its walk stopped at: a new key claims the slot. */
    method StoreAt(i: nat, key: Key, val: Addr, ghost d: nat) returns (added: bool)
      requires TableOk() && d < cap && i == Probe(Home(mix, key, cap), d, cap) && Walking(mix, keys, used, key, d)
      requires used[i] ==> keys[i] == key
      modifies `keys, `vals, `used, `contents, `at
      ensures TableOk() && contents == old(contents)[key := val]
      ensures added <==> key !in old(contents)
    {
      WalkDecides(mix, keys, vals, used, contents, at, key, d);
      Stores(mix, keys, vals, used, contents, at, key, val, d);
      hide Table, PowerOfTwo, Walking, Probe;
      at := at[key := i];
      contents := contents[key := val];
      added := !used[i];
      if !used[i] {
        used := used[i := true];
        keys := keys[i := key];
      } else {
        assert keys[i := key] == keys && used[i := true] == used;
      }
      vals := vals[i := val];
    }

    /** bbq_hmap_init_seeded: a refused table leaves the map empty but valid. */
    constructor (initialCap: nat, a: Budget, mix: Key -> Key)
      requires a.Valid() && initialCap <= SIZE_MAX
      modifies a, a.under
      ensures Valid() && this.a == a && this.mix == mix && contents == map[]
      ensures oom <==> cap == 0
      ensures oom <==> a.denials > old(a.denials) || initialCap > Pow2(60)
      ensures Balanced(old(a.live), map[], a.live, Held())
    {
      this.a := a;
      this.mix := mix;
      keys, vals, used := [], [], [];
      keysAt, valsAt, usedAt := NULL, NULL, NULL;
      cap, len, oom := 0, 0, false;
      contents, at := map[], map[];
      new;
      FirstTable(initialCap);
    }

    method FirstTable(initialCap: nat)
      requires initialCap <= SIZE_MAX && Valid() && cap == 0 && !oom && at == map[]
      modifies this, a, a.under
      ensures Valid() && contents == map[] && (oom <==> cap == 0)
      ensures oom <==> a.denials > old(a.denials) || initialCap > Pow2(60)
      ensures Balanced(old(a.live), map[], a.live, Held())
    {
      hide Total, Pow2, PowerOfTwo, Table, ArrayBytes, Three, TableBlocks, Balanced, Within;
      NothingHeld(a.live);
      NothingMoves(a.live, map[]);
      var c := RoundPow2(if initialCap != 0 then initialCap else DEFAULT_CAP);
      CapFits(c, initialCap);
      if c == 0 {
        oom := true;
        return;
      }
      var ok := AllocTables(c);
      if !ok {
        oom := true;
        return;
      }
      BlankTable(mix, keys, vals, used);
    }

    /** hmap_grow: double the table and place every entry again; a refusal changes nothing. */
    method Grow() returns (ok: bool)
      requires Valid()
      modifies this, a, a.under
      ensures Valid() && contents == old(contents) && len == old(len) && oom == old(oom)
      ensures a.denials >= old(a.denials)
      ensures ok <==> old(cap) * 16 <= SIZE_MAX && a.denials == old(a.denials)
      ensures !ok ==> a.live == old(a.live) && unchanged(this)
      ensures ok ==> cap == (if old(cap) == 0 then DEFAULT_CAP else 2 * old(cap)) && (len + 1) * 4 < cap * 3
      ensures Balanced(old(a.live), old(Held()), a.live, Held())
    {
      hide Total, Pow2, PowerOfTwo, Table, PartBelow, Bitwise, Three, ArrayBytes, Balanced, Within;
      NothingMoves(a.live, Held());
      var oldCap, oldKeys, oldVals, oldUsed := cap, keys, vals, used;
      var oldKeysAt, oldValsAt, oldUsedAt := keysAt, valsAt, usedAt;
      ghost var live0, held0 := a.live, Held();
      var newCap := if oldCap != 0 then oldCap * 2 else DEFAULT_CAP;
      if oldCap > SIZE_MAX / 2 { return false; }
      Doubled(oldCap);
      ok := AllocTables(newCap);
      if !ok { return false; }
      Swapped(live0, held0, a.live, Held());
      assert Roomy(contents, newCap) && (oldCap > 0 ==> |oldUsed| == oldCap);
      Rehash(oldCap, oldKeys, oldVals, oldUsed);
      ReleaseThree(a, oldKeysAt, oldValsAt, oldUsedAt, KBytes(oldCap), VBytes(oldCap), UBytes(oldCap));
    }

    method PlaceAgain(key: Key, val: Addr)
      requires TableOk() && Roomy(contents, cap)
      modifies this`keys, this`vals, this`used, this`contents, this`at
      ensures TableOk() && contents == old(contents)[key := val]
    {
      var s, d := Slot(key);
      var added := StoreAt(s, key, val, d);
    }

    /** The rehash loop of hmap_grow, into the fresh arrays. */
    method Rehash(oldCap: nat, oldKeys: seq<Key>, oldVals: seq<Addr>, oldUsed: seq<bool>)
      requires Zeroed() && Roomy(contents, cap) && PowerOfTwo(cap)
      requires |oldUsed| == oldCap
      requires if oldCap == 0 then contents == map[] else Table(mix, oldKeys, oldVals, oldUsed, contents, at)
      modifies this`keys, this`vals, this`used, this`contents, this`at
      ensures TableOk() && contents == old(contents)
    {
      assert cap > 0;
      ghost var whole, where := contents, at;
      contents, at := map[], map[];
      BlankTable(mix, keys, vals, used);
      if oldCap == 0 { return; }
      TableKeys(mix, oldKeys, oldVals, oldUsed, whole, where);
      NoneBelow(whole, where, mix, oldKeys, oldVals, oldUsed);
      PartFits(whole, where, 0, contents, cap);
      for i := 0 to oldCap
        invariant TableOk() && PartBelow(whole, where, i, contents) && Roomy(contents, cap)
      {
        PartMore(mix, oldKeys, oldVals, oldUsed, whole, where, i, contents);
        if oldUsed[i] {
          PartFits(whole, where, i + 1, contents[oldKeys[i] := oldVals[i]], cap);
          PlaceAgain(oldKeys[i], oldVals[i]);
        }
      }
      PartWhole(mix, oldKeys, oldVals, oldUsed, whole, where, contents);
    }

    /** bbq_hmap_put: insert or replace. A refused put stores nothing; it is refused when the
        table must grow and cannot: an allocation was denied, or no size says how large. */
    method Put(key: Key, val: Addr) returns (ok: bool)
      requires Valid()
      modifies this, a, a.under
      ensures Valid()
      ensures a.denials >= old(a.denials)
      ensures ok <==> a.denials == old(a.denials) && ((old(len) + 1) * 4 < old(cap) * 3 || old(cap) * 16 <= SIZE_MAX)
      ensures ok ==> contents == old(contents)[key := val] && oom == old(oom)
      ensures !ok ==> oom && contents == old(contents) && a.live == old(a.live)
                      && unchanged(`keys, `vals, `used, `cap, `len, `keysAt, `valsAt, `usedAt)
      ensures Balanced(old(a.live), old(Held()), a.live, Held())
    {
      hide Total, Pow2, PowerOfTwo, Table, Three, TableBlocks, ArrayBytes, Balanced, Within, Probe, Walking, Home;
      NothingMoves(a.live, Held());
      if (len + 1) * 4 >= cap * 3 {
        ok := Grow();
        if !ok {
          oom := true;
          return;
        }
      }
      var i, d := Slot(key);
      SizeMore(contents, key, val);
      var added := StoreAt(i, key, val, d);
      if added { len := len + 1; }
      ok := true;
    }

    /** bbq_hmap_get and bbq_hmap_contains. */
    method Get(key: Key) returns (v: Addr, found: bool)
      requires Valid()
      ensures found <==> key in contents
      ensures v == if found then contents[key] else NULL
    {
      if cap == 0 { return NULL, false; }
      var i, d := Slot(key);
      WalkDecides(mix, keys, vals, used, contents, at, key, d);
      found := used[i];
      v := if found then vals[i] else NULL;
    }

    /** bbq_hmap_free: every block goes back; the map stays valid and reusable. */
    method Free()
      requires Valid()
      modifies this, a, a.under
      ensures Valid() && contents == map[] && cap == 0 && !oom && Held() == map[]
      ensures a.live == old(a.live) - old(Held()).Keys && a.denials == old(a.denials)
    {
      ReleaseThree(a, keysAt, valsAt, usedAt, KBytes(cap), VBytes(cap), UBytes(cap));
      Reset();
    }

    method Reset()
      requires a.Valid()
      modifies this
      ensures Valid() && contents == map[] && cap == 0 && !oom && Held() == map[]
    {
      hide Total, Budget.Valid, Table, TableOk, Within, Apart;
      NoBlocks(a.live);
      keys, vals, used := [], [], [];
      keysAt, valsAt, usedAt := NULL, NULL, NULL;
      cap, len, oom := 0, 0, false;
      contents, at := map[], map[];
    }
  }

  /** The largest table whose arrays have a size. */
  lemma CapFits(c: nat, n: nat)
    requires var m := if n != 0 then n else DEFAULT_CAP;
             if c == 0 then m > Pow2(63) else PowerOfTwo(c) && m <= c && (c == 1 || c / 2 < m)
    ensures c == 0 || c * 8 > SIZE_MAX <==> n > Pow2(60)
  {
    Pow2Word();
    assert Pow2(64) == 16 * Pow2(60);
    if c == 0 {
      Pow2Mono(60, 63);
    } else {
      var k: nat :| k < 64 && c == Pow2(k);
      if k <= 60 { Pow2Mono(k, 60); } else { Pow2Mono(61, k); assert Pow2(61) == 2 * Pow2(60); }
      hide Pow2;
    }
  }

  lemma NothingHeld(live: Ledger)
    ensures TableBlocks(NULL, NULL, NULL, 0) == map[] && Within(map[], live)
  {}

  lemma TableKeys(mix: Key -> Key, keys: seq<Key>, vals: seq<Addr>, used: seq<bool>, m: map<Key, Addr>, at: map<Key, nat>)
    requires Table(mix, keys, vals, used, m, at)
    ensures |keys| == |vals| == |used| > 0 && at.Keys == m.Keys
  {}

  lemma SizeMore(m: map<Key, Addr>, key: Key, val: Addr)
    ensures |m[key := val]| == |m| + (if key in m then 0 else 1)
  {
    assert m[key := val].Keys == m.Keys + {key};
    assert |m| == |m.Keys| && |m[key := val]| == |m[key := val].Keys|;
  }

  ghost predicate AllFree(used: seq<bool>) {
    forall i :: 0 <= i < |used| ==> !used[i]
  }

  lemma BlankTable(mix: Key -> Key, keys: seq<Key>, vals: seq<Addr>, used: seq<bool>)
    requires |keys| == |vals| == |used| > 0 && AllFree(used)
    ensures Table(mix, keys, vals, used, map[], map[])
  {}

  /** The old arrays are still held beside the new; giving them back balances the books. */
  lemma Swapped(live0: Ledger, held0: Ledger, live1: Ledger, held1: Ledger)
    requires Within(held0, live0) && Balanced(live0, map[], live1, held1)
    ensures Within(held0, live1) && Balanced(live0, held0, live1 - held0.Keys, held1)
  {}

  lemma NothingMoves(live: Ledger, held: Ledger)
    requires Within(held, live)
    ensures Balanced(live, held, live, held)
  {}

  lemma Doubled(cap: nat)
    requires cap == 0 || PowerOfTwo(cap)
    requires cap <= SIZE_MAX / 2
    ensures PowerOfTwo(if cap != 0 then cap * 2 else DEFAULT_CAP)
  {
    if cap == 0 {
      Pow2Small();
      assert DEFAULT_CAP == Pow2(4);
    } else {
      var k: nat :| k < 64 && cap == Pow2(k);
      Pow2Word();
      hide Pow2;
      TwicePow2(k);
      assert k + 1 < 64;
    }
  }

  lemma NoneBelow(m: map<Key, Addr>, at: map<Key, nat>, mix: Key -> Key, keys: seq<Key>, vals: seq<Addr>, used: seq<bool>)
    requires Table(mix, keys, vals, used, m, at)
    ensures PartBelow(m, at, 0, map[])
  {}
}
