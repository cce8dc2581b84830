/** Where every container's memory comes from: an allocator that may refuse any request,
    and the budget that wraps it with a ceiling. The ledger of live blocks, by address, is
    what makes "given back exactly as taken" a statement. */
module Alloc {
  type Addr = nat
  const NULL: Addr := 0

  /** Live blocks and the sizes they were taken at. */
  type Ledger = map<Addr, nat>

  ghost function Total(live: Ledger): nat {
    if |live| == 0 then 0
    else
      var p :| p in live;
      live[p] + Total(live - {p})
  }

  lemma {:induction false} TotalLess(live: Ledger, p: Addr)
    requires p in live
    ensures Total(live) == live[p] + Total(live - {p})
    decreases |live|
  {
    var q := Picked(live);
    if q != p {
      hide Total;
      TotalLess(live - {q}, p);
      TotalLess(live - {p}, q);
      assert live - {q} - {p} == live - {p} - {q};
    }
  }

  lemma Picked(live: Ledger) returns (p: Addr)
    requires |live| > 0
    ensures p in live && Total(live) == live[p] + Total(live - {p})
  {
    p :| p in live && Total(live) == live[p] + Total(live - {p});
  }

  lemma TotalMore(live: Ledger, p: Addr, n: nat)
    requires p !in live
    ensures Total(live[p := n]) == Total(live) + n
  {
    TotalLess(live[p := n], p);
    assert live[p := n] - {p} == live;
  }

  /** Every block of the first ledger is in the second, at the same size. */
  ghost predicate Within(part: Ledger, live: Ledger) {
    forall p :: p in part ==> p in live && live[p] == part[p]
  }

  /** What an owner of blocks may do to a ledger: the blocks it held are replaced by the
      blocks it holds now, and no one else's block is touched. */
  ghost predicate Balanced(live0: Ledger, held0: Ledger, live1: Ledger, held1: Ledger) {
    && Within(held1, live1)
    && (forall p :: p in live0 && p !in held0 ==> p in live1 && live1[p] == live0[p] && p !in held1)
    && (forall p :: p in live1 ==> p in held1 || (p in live0 && p !in held0))
  }

  lemma BalancedIs(live0: Ledger, held0: Ledger, live1: Ledger, held1: Ledger)
    ensures Balanced(live0, held0, live1, held1)
            <==> (live0 - held0.Keys).Keys !! held1.Keys && live1 == (live0 - held0.Keys) + held1
  {
    if (live0 - held0.Keys).Keys !! held1.Keys && live1 == (live0 - held0.Keys) + held1 {
      forall p | p in live0 && p !in held0 ensures p in live1 && live1[p] == live0[p] && p !in held1 {
        assert p in live0 - held0.Keys;
      }
    }
  }

  lemma {:induction false} TotalUnion(a: Ledger, b: Ledger)
    requires a.Keys !! b.Keys
    ensures Total(a + b) == Total(a) + Total(b)
    decreases b.Keys
  {
    hide Total;
    if b.Keys == {} {
      assert a + b == a && b == map[];
      TotalNone();
    } else {
      var p :| p in b.Keys;
      UnionLess(a, b, p);
      TotalLess(b, p);
      TotalLess(a + b, p);
      TotalUnion(a, b - {p});
    }
  }

  lemma UnionLess(a: Ledger, b: Ledger, p: Addr)
    requires a.Keys !! b.Keys && p in b
    ensures p in a + b && (a + b)[p] == b[p] && (a + b) - {p} == a + (b - {p}) && a.Keys !! (b - {p}).Keys
    ensures (b - {p}).Keys == b.Keys - {p}
  {}

  lemma TotalNone()
    ensures Total(map[]) == 0
  {}

  /** What balance means for a budget: its bytes move by exactly what the owner's do. */
  lemma BalancedTotals(live0: Ledger, held0: Ledger, live1: Ledger, held1: Ledger)
    requires Within(held0, live0) && Balanced(live0, held0, live1, held1)
    ensures Total(live1) - Total(held1) == Total(live0) - Total(held0)
  {
    hide Total;
    BalancedIs(live0, held0, live1, held1);
    var others := live0 - held0.Keys;
    assert live0 == others + held0;
    TotalUnion(others, held0);
    TotalUnion(others, held1);
  }

  lemma BalancedTrans(live0: Ledger, held0: Ledger, live1: Ledger, held1: Ledger, live2: Ledger, held2: Ledger)
    requires Balanced(live0, held0, live1, held1) && Balanced(live1, held1, live2, held2)
    ensures Balanced(live0, held0, live2, held2)
  {}

  /** The allocator underneath. Which requests it refuses is not known to its callers; the
      refusals are counted. */
  class Heap {
    ghost var live: Ledger
    ghost var refusals: nat
    var next: Addr

    ghost predicate Valid()
      reads this
    {
      next != NULL && NULL !in live && forall p :: p in live ==> p < next
    }

    constructor ()
      ensures Valid() && live == map[] && refusals == 0
    {
      live := map[];
      refusals := 0;
      next := 1;
    }

    method Alloc(n: nat) returns (p: Addr)
      requires Valid()
      modifies this
      ensures Valid()
      ensures p == NULL ==> live == old(live) && refusals == old(refusals) + 1
      ensures p != NULL ==> p !in old(live) && live == old(live)[p := n] && refusals == old(refusals)
    {
      var refused: bool := *;
      if refused {
        refusals := refusals + 1;
        return NULL;
      }
      p := next;
      next := next + 1;
      live := live[p := n];
    }

    /** Resizing may move the block. */
    method Resize(p: Addr, was: nat, n: nat) returns (q: Addr)
      requires Valid() && p in live && live[p] == was
      modifies this
      ensures Valid()
      ensures q == NULL ==> live == old(live) && refusals == old(refusals) + 1
      ensures q != NULL ==> q !in old(live) - {p} && live == (old(live) - {p})[q := n] && refusals == old(refusals)
    {
      var refused: bool, moves: bool := *, *;
      if refused {
        refusals := refusals + 1;
        return NULL;
      }
      live := live - {p};
      if moves {
        q := next;
        next := next + 1;
      } else {
        q := p;
      }
      live := live[q := n];
    }

    method Release(p: Addr, n: nat)
      requires Valid() && p in live && live[p] == n
      modifies this
      ensures Valid() && live == old(live) - {p} && refusals == old(refusals)
    {
      live := live - {p};
    }
  }

  /** Subtraction that stops at nothing. */
  function LessAtMost(a: nat, b: nat): nat { if b > a then 0 else a - b }

  /** bbq_budget, and the four entry points every container allocates through. `live` is
      the ledger of blocks taken through this budget and not yet given back. */
  class Budget {
    const limit: nat
    const under: Heap
    var used: nat
    var peak: nat
    var denials: nat
    ghost var live: Ledger

    ghost predicate Valid()
      reads this, under
    {
      under.Valid() && Within(live, under.live) && used == Total(live) && used <= peak <= limit
    }

    constructor (limit: nat, under: Heap)
      requires under.Valid()
      ensures Valid() && this.limit == limit && this.under == under
      ensures live == map[] && used == peak == denials == 0
    {
      this.limit := limit;
      this.under := under;
      used, peak, denials := 0, 0, 0;
      live := map[];
    }

    method Note(added: nat)
      modifies this`used, this`peak
      ensures used == old(used) + added && peak == if used > old(peak) then used else old(peak)
    {
      used := used + added;
      if used > peak { peak := used; }
    }

    /** Refuses what would pass the ceiling, and whatever the allocator underneath refuses,
        and nothing else; and counts the refusal. */
    method BudgetAlloc(n: nat) returns (p: Addr)
      requires Valid() && n > 0
      modifies this, under
      ensures Valid()
      ensures p == NULL <==> n > limit - old(used) || under.refusals > old(under.refusals)
      ensures p == NULL ==> live == old(live) && used == old(used) && peak == old(peak) && denials == old(denials) + 1
      ensures p != NULL ==> p !in old(live) && live == old(live)[p := n] && denials == old(denials)
      ensures p != NULL ==> used == old(used) + n && peak == if used > old(peak) then used else old(peak)
    {
      hide Total;
      if used > limit || n > limit - used {
        denials := denials + 1;
        return NULL;
      }
      p := under.Alloc(n);
      if p == NULL {
        denials := denials + 1;
        return NULL;
      }
      TotalMore(live, p, n);
      live := live[p := n];
      Note(n);
    }

    /** Charged only on success: a refused resize leaves the old block live and charged. */
    method BudgetResize(p: Addr, was: nat, n: nat) returns (q: Addr)
      requires Valid() && p in live && live[p] == was && n > 0
      modifies this, under
      ensures Valid()
      ensures q == NULL <==> n - was > limit - old(used) || under.refusals > old(under.refusals)
      ensures q == NULL ==> live == old(live) && used == old(used) && peak == old(peak) && denials == old(denials) + 1
      ensures q != NULL ==> q !in old(live) - {p} && live == (old(live) - {p})[q := n] && denials == old(denials)
      ensures q != NULL ==> used == old(used) - was + n && peak == if used > old(peak) then used else old(peak)
    {
      hide Total;
      if n > was {
        var grow := n - was;
        if used > limit || grow > limit - used {
          denials := denials + 1;
          return NULL;
        }
      }
      q := under.Resize(p, was, n);
      if q == NULL {
        denials := denials + 1;
        return NULL;
      }
      TotalLess(live, p);
      TotalMore(live - {p}, q, n);
      live := (live - {p})[q := n];
      used := used - was;
      Note(n);
    }

    method BudgetRelease(p: Addr, n: nat)
      requires Valid() && p in live && live[p] == n
      modifies this, under
      ensures Valid() && live == old(live) - {p}
      ensures used == old(used) - n && peak == old(peak) && denials == old(denials) && under.refusals == old(under.refusals)
    {
      hide Total;
      TotalLess(live, p);
      under.Release(p, n);
      live := live - {p};
      used := LessAtMost(used, n);
    }

    // ── The entry points ────────────────────────────────────────────────

    /** bbq_mem_alloc and bbq_mem_zalloc: a zero-sized request is NULL, unasked. */
    method MemAlloc(n: nat) returns (p: Addr)
      requires Valid()
      modifies this, under
      ensures Valid()
      ensures n == 0 ==> p == NULL
      ensures denials == old(denials) + (if n > 0 && p == NULL then 1 else 0)
      ensures p == NULL ==> live == old(live) && used == old(used)
      ensures p != NULL ==> p !in old(live) && live == old(live)[p := n]
    {
      if n == 0 { return NULL; }
      p := BudgetAlloc(n);
    }

    method MemResize(p: Addr, was: nat, n: nat) returns (q: Addr)
      requires Valid() && (p != NULL ==> p in live && live[p] == was)
      modifies this, under
      ensures Valid()
      ensures n == 0 ==> q == NULL && live == old(live) - {p}
      ensures denials == old(denials) + (if n > 0 && q == NULL then 1 else 0)
      ensures n > 0 && q == NULL ==> live == old(live) && used == old(used)
      ensures q != NULL ==> q !in old(live) - {p} && live == (old(live) - {p})[q := n]
    {
      NullNotLive();
      if n == 0 {
        MemRelease(p, was);
        return NULL;
      }
      if p != NULL { q := BudgetResize(p, was, n); } else { q := BudgetAlloc(n); }
    }

    method MemRelease(p: Addr, n: nat)
      requires Valid() && (p != NULL ==> p in live && live[p] == n)
      modifies this, under
      ensures Valid() && live == old(live) - {p} && denials == old(denials)
    {
      NullNotLive();
      if p == NULL { return; }
      BudgetRelease(p, n);
    }

    lemma NullNotLive()
      requires Valid()
      ensures NULL !in live && live - {NULL} == live
    {}
  }

  // ── Three parallel arrays ─────────────────────────────────────────────

  /** Three blocks held together, or none. */
  function Three(x: Addr, y: Addr, z: Addr, nx: nat, ny: nat, nz: nat): Ledger {
    if x == NULL then map[]
    else
      var none: Ledger := map[];
      none[x := nx][y := ny][z := nz]
  }

  predicate Apart(x: Addr, y: Addr, z: Addr) {
    x != NULL && y != NULL && z != NULL && x != y && y != z && x != z
  }

  function Grown(live: Ledger, p: Addr, n: nat): Ledger { if p == NULL then live else live[p := n] }

  lemma UndoThree(live: Ledger, x: Addr, y: Addr, z: Addr, nx: nat, ny: nat, nz: nat)
    requires NULL !in live && x !in live && y !in Grown(live, x, nx) && z !in Grown(Grown(live, x, nx), y, ny)
    ensures Grown(Grown(Grown(live, x, nx), y, ny), z, nz) - {x} - {y} - {z} == live
  {}

  /** All or nothing: on a partial failure the survivors go back. */
  method TakeThree(a: Budget, nx: nat, ny: nat, nz: nat) returns (ok: bool, x: Addr, y: Addr, z: Addr)
    requires a.Valid() && nx > 0 && ny > 0 && nz > 0
    modifies a, a.under
    ensures a.Valid()
    ensures ok <==> a.denials == old(a.denials)
    ensures a.denials >= old(a.denials)
    ensures !ok ==> a.live == old(a.live)
    ensures ok ==> Apart(x, y, z) && Balanced(old(a.live), map[], a.live, Three(x, y, z, nx, ny, nz))
  {
    hide Total;
    a.NullNotLive();
    ok := false;
    x := a.MemAlloc(nx);
    y := a.MemAlloc(ny);
    z := a.MemAlloc(nz);
    UndoThree(old(a.live), x, y, z, nx, ny, nz);
    if x == NULL || y == NULL || z == NULL {
      a.MemRelease(x, nx);
      a.MemRelease(y, ny);
      a.MemRelease(z, nz);
      return;
    }
    ok := true;
  }

  method ReleaseThree(a: Budget, x: Addr, y: Addr, z: Addr, nx: nat, ny: nat, nz: nat)
    requires a.Valid() && (x == y == z == NULL || Apart(x, y, z))
    requires Within(Three(x, y, z, nx, ny, nz), a.live)
    modifies a, a.under
    ensures a.Valid() && a.live == old(a.live) - Three(x, y, z, nx, ny, nz).Keys && a.denials == old(a.denials)
  {
    hide Total;
    a.NullNotLive();
    a.MemRelease(x, nx);
    a.MemRelease(y, ny);
    a.MemRelease(z, nz);
  }

  // ── Sizes ─────────────────────────────────────────────────────────────

  const SIZE_MAX: nat := 0xFFFF_FFFF_FFFF_FFFF

  /** n * size, or 0 when the product is not representable. */
  function ArrayBytes(n: nat, size: nat): (r: nat)
    ensures r <= SIZE_MAX
    ensures r != 0 <==> n * size != 0 && n * size <= SIZE_MAX
    ensures r != 0 ==> r == n * size
  {
    if n == 0 || size == 0 then 0
    else
      ProductFits(n, size);
      if n > SIZE_MAX / size then 0 else n * size
  }

  lemma ProductFits(n: nat, size: nat)
    requires n > 0 && size > 0
    ensures n > SIZE_MAX / size <==> n * size > SIZE_MAX
    ensures n * size > 0
  {
    ProductMore(1, n, size);
    QuotientOf(SIZE_MAX, size);
    ProductOver(SIZE_MAX, SIZE_MAX / size, size, n);
  }

  lemma ProductOver(x: nat, q: nat, d: nat, n: nat)
    requires q * d <= x < q * d + d
    ensures n > q <==> n * d > x
  {
    if n > q { ProductMore(q + 1, n, d); } else { ProductMore(n, q, d); }
    assert (q + 1) * d == q * d + d;
  }

  lemma ProductMore(a: nat, b: nat, d: nat)
    requires a <= b
    ensures a * d <= b * d
  {}

  lemma QuotientOf(x: nat, d: nat)
    requires d > 0
    ensures x / d * d <= x < x / d * d + d
  {}
}
