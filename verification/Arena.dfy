/** bbq_arena: a page-based bump allocator whose every page stays a candidate. */
module ArenaClass {
  import opened Syntax
  import opened Alloc

  const DEFAULT_PAGE: nat := 4096
  const ALIGN: nat := 8
  const INIT_PAGES: nat := 4

  // ── Alignment ─────────────────────────────────────────────────────────

  /** The size rounded up to the alignment, refused where that is not representable. */
  function AlignUp(v: nat): (r: Option<nat>)
    ensures r.None? <==> v > SIZE_MAX - 7
    ensures r.Some? ==> v <= r.value < v + 8 && r.value % 8 == 0
  {
    if v > SIZE_MAX - (ALIGN - 1) then None else Some((v + ALIGN - 1) / ALIGN * ALIGN)
  }

  // ── Blocks handed out ─────────────────────────────────────────────────

  /** A block: its page, where in the page it starts, and the size asked for. */
  datatype Given = Given(page: nat, off: nat, size: nat)

  /** Where the block's room ends: its size, aligned. */
  function EndOf(g: Given): nat {
    g.off + (g.size + 7) / 8 * 8
  }

  predicate Overlap(g: Given, h: Given) {
    g.page == h.page && g.off < EndOf(h) && h.off < EndOf(g)
  }

  /** Some page has room for one more block. */
  ghost predicate FitsSomewhere(size: nat, used: seq<nat>, sizes: seq<nat>)
    requires |used| == |sizes|
  {
    exists i :: 0 <= i < |used| && EndOf(Given(i, used[i], size)) <= sizes[i]
  }

  /** Handed-out blocks are aligned, inside what their page has spent, and pairwise disjoint. */
  ghost predicate AllApart(given: seq<Given>, used: seq<nat>) {
    && (forall i :: 0 <= i < |given| ==>
          given[i].page < |used| && given[i].off % 8 == 0 && given[i].size > 0 && EndOf(given[i]) <= used[given[i].page])
    && (forall i, j :: 0 <= i < j < |given| ==> !Overlap(given[i], given[j]))
  }

  /** One more block, bumped off the end of a page. */
  lemma Bumped(given: seq<Given>, used: seq<nat>, page: nat, size: nat, need: nat)
    requires AllApart(given, used) && page < |used| && used[page] % 8 == 0 && size > 0 && AlignUp(size) == Some(need)
    ensures AllApart(given + [Given(page, used[page], size)], used[page := used[page] + need])
  {}

  lemma FitIs(size: nat, need: nat, used: seq<nat>, sizes: seq<nat>, found: nat)
    requires |used| == |sizes| && (forall i :: 0 <= i < |used| ==> used[i] <= sizes[i]) && AlignUp(size) == Some(need) && found <= |used|
    requires if found < |used| then need <= sizes[found] - used[found] else forall i :: 0 <= i < |used| ==> need > sizes[i] - used[i]
    ensures FitsSomewhere(size, used, sizes) <==> found < |used|
    ensures found == |used| ==> forall i :: 0 <= i < |used| ==> EndOf(Given(i, used[i], size)) > sizes[i]
  {
    if found < |used| { assert EndOf(Given(found, used[found], size)) <= sizes[found]; }
  }

  lemma PageAdded(given: seq<Given>, used: seq<nat>)
    requires AllApart(given, used)
    ensures AllApart(given, used + [0])
  {}

  // ── Ledgers ───────────────────────────────────────────────────────────

  function PageBlocks(pages: seq<Addr>, sizes: seq<nat>): Ledger
    requires |pages| == |sizes|
  {
    if pages == [] then map[]
    else
      var n := |pages| - 1;
      PageBlocks(pages[..n], sizes[..n])[pages[n] := sizes[n]]
  }

  ghost predicate NoRepeat(pages: seq<Addr>) {
    forall i, j :: 0 <= i < j < |pages| ==> pages[i] != pages[j]
  }

  lemma {:induction false} PageBlocksAre(pages: seq<Addr>, sizes: seq<nat>)
    requires |pages| == |sizes| && NoRepeat(pages)
    ensures forall p :: p in PageBlocks(pages, sizes) <==> p in pages
    ensures forall i :: 0 <= i < |pages| ==> PageBlocks(pages, sizes)[pages[i]] == sizes[i]
  {
    if pages != [] { PageBlocksAre(pages[..|pages| - 1], sizes[..|pages| - 1]); }
  }

  lemma PageBlocksMore(pages: seq<Addr>, sizes: seq<nat>, p: Addr, n: nat)
    requires |pages| == |sizes|
    ensures PageBlocks(pages + [p], sizes + [n]) == PageBlocks(pages, sizes)[p := n]
  {
    assert (pages + [p])[..|pages|] == pages && (sizes + [n])[..|sizes|] == sizes;
  }

  class Arena {
    const a: Budget
    const pageSize: nat
    var pages: seq<Addr>
    var sizes: seq<nat>
    var used: seq<nat>
    var pagesAt: Addr
    var sizesAt: Addr
    var usedAt: Addr
    var pageCap: nat
    var curPage: nat
    var oom: bool

    /** The blocks handed out since the last reset. */
    ghost var given: seq<Given>

    ghost function TableHeld(): Ledger
      reads this
    {
      Three(pagesAt, sizesAt, usedAt, ArrayBytes(pageCap, 8), ArrayBytes(pageCap, 8), ArrayBytes(pageCap, 8))
    }

    ghost function Held(): Ledger
      requires |pages| == |sizes|
      reads this
    {
      TableHeld() + PageBlocks(pages, sizes)
    }

    ghost predicate PagesOk()
      reads this
    {
      && |pages| == |sizes| == |used| <= pageCap
      && (forall i :: 0 <= i < |used| ==> used[i] <= sizes[i] && used[i] % 8 == 0)
      && AllApart(given, used)
      && pageSize % 8 == 0 && pageSize > 0
    }

    ghost predicate BlocksOk()
      requires |pages| == |sizes|
      reads this, a
    {
      && NoRepeat(pages)
      && (if pageCap == 0 then pagesAt == sizesAt == usedAt == NULL
          else Apart(pagesAt, sizesAt, usedAt) && ArrayBytes(pageCap, 8) > 0)
      && TableHeld().Keys !! PageBlocks(pages, sizes).Keys
      && Within(TableHeld(), a.live) && Within(PageBlocks(pages, sizes), a.live)
    }

    ghost predicate Valid()
      reads this, a, a.under
    {
      a.Valid() && PagesOk() && BlocksOk()
    }

    /** bbq_arena_init_a. */
    constructor (pageSize: nat, a: Budget)
      requires a.Valid() && pageSize <= SIZE_MAX
      ensures Valid() && this.a == a && !oom && given == [] && pages == [] && Held() == map[]
    {
      hide Total, Within, Three, PageBlocks, AllApart, NoRepeat, ArrayBytes;
      this.a := a;
      var ps := AlignUp(pageSize);
      this.pageSize := if pageSize == 0 || ps.None? then DEFAULT_PAGE else ps.value;
      pages, sizes, used := [], [], [];
      pagesAt, sizesAt, usedAt := NULL, NULL, NULL;
      pageCap, curPage, oom := 0, 0, false;
      given := [];
      new;
      NothingHeld(a.live);
    }

    /** grow_page_table: room for one more page record in all three arrays, or in none. */
    method GrowPageTable() returns (ok: bool)
      requires Valid()
      modifies this`pagesAt, this`sizesAt, this`usedAt, this`pageCap, a, a.under
      ensures Valid()
      ensures a.denials >= old(a.denials)
      ensures ok <==> a.denials == old(a.denials) && (|pages| < old(pageCap) || old(pageCap) * 16 <= SIZE_MAX)
      ensures !ok ==> a.live == old(a.live) && unchanged(this)
      ensures ok ==> |pages| < pageCap
      ensures ok ==> pageCap == if |pages| < old(pageCap) then old(pageCap) else if old(pageCap) == 0 then INIT_PAGES else 2 * old(pageCap)
      ensures Balanced(old(a.live), old(Held()), a.live, Held())
    {
      hide Total, AllApart, PageBlocks, ArrayBytes, Balanced, Budget.Valid, Within;
      AsBefore(a.live, TableHeld(), PageBlocks(pages, sizes));
      if |pages| < pageCap { return true; }
      var was := pageCap;
      var newCap := if was != 0 then was * 2 % (SIZE_MAX + 1) else INIT_PAGES;
      assert was * 2 <= SIZE_MAX;
      if newCap < was { return false; }
      var bytes := ArrayBytes(newCap, 8);
      if bytes == 0 { return false; }
      ghost var live0, table0 := a.live, TableHeld();
      var np, ns, nu;
      ok, np, ns, nu := TakeThree(a, bytes, bytes, bytes);
      if !ok { return false; }
      Republished(live0, table0, PageBlocks(pages, sizes), a.live, Three(np, ns, nu, bytes, bytes, bytes));
      ReleaseThree(a, pagesAt, sizesAt, usedAt, ArrayBytes(was, 8), ArrayBytes(was, 8), ArrayBytes(was, 8));
      pagesAt, sizesAt, usedAt := np, ns, nu;
      pageCap := newCap;
    }

    /** bbq_arena_alloc: where the block lies, or nothing. A refusal leaves earlier blocks
        intact and sticks; a page is taken only when no page has room. What is refused: no
        bytes, more than can be aligned, anything after a refusal, and what no page has room
        for when an allocation is denied or the full page table cannot be doubled. */
    method Alloc(size: nat) returns (r: Option<(Addr, nat)>)
      requires Valid() && size <= SIZE_MAX
      modifies this, a, a.under
      ensures Valid()
      ensures r.None? ==> given == old(given) && used == old(used) && pages == old(pages) && sizes == old(sizes)
      ensures r.None? ==> size == 0 || oom
      ensures a.denials >= old(a.denials)
      ensures r.None? <==> size == 0 || old(oom) || size > SIZE_MAX - 7 || a.denials > old(a.denials)
                           || (!FitsSomewhere(size, old(used), old(sizes)) && |old(pages)| == old(pageCap) && old(pageCap) * 16 > SIZE_MAX)
      ensures old(oom) ==> r.None? && oom
      ensures size == 0 ==> oom == old(oom) && a.live == old(a.live)
      ensures r.Some? ==> !oom && size > 0
      ensures r.Some? ==>
                && old(pages) <= pages && old(sizes) <= sizes && curPage < |pages|
                && given == old(given) + [Given(curPage, r.value.1, size)]
                && r.value.0 == pages[curPage] && EndOf(Given(curPage, r.value.1, size)) <= sizes[curPage]
      ensures |pages| > |old(pages)| ==>
                forall i :: 0 <= i < |old(pages)| ==> EndOf(Given(i, old(used)[i], size)) > old(sizes)[i]
      ensures Balanced(old(a.live), old(Held()), a.live, Held())
    {
      hide FitsSomewhere, Total, AllApart, PageBlocks, ArrayBytes, Balanced, Within, NoRepeat, Three, Budget.Valid;
      AsBefore(a.live, TableHeld(), PageBlocks(pages, sizes));
      if size == 0 { return None; }
      if oom { return None; }
      var need := AlignUp(size);
      if need.None? {
        oom := true;
        return None;
      }
      var found := FirstFit(need.value);
      FitIs(size, need.value, used, sizes, found);
      if found == |pages| {
        var ok := NewPage(need.value);
        if !ok { return None; }
      }
      curPage := found;
      Bumped(given, used, curPage, size, need.value);
      r := Some((pages[curPage], used[curPage]));
      given := given + [Given(curPage, used[curPage], size)];
      used := used[curPage := used[curPage] + need.value];
    }

    /** The page used last if it has room, else the first page that has. */
    method FirstFit(need: nat) returns (found: nat)
      requires |pages| == |sizes| == |used|
      requires forall i :: 0 <= i < |used| ==> used[i] <= sizes[i]
      ensures found <= |pages|
      ensures found < |pages| ==> need <= sizes[found] - used[found]
      ensures found == |pages| ==> forall i :: 0 <= i < |pages| ==> need > sizes[i] - used[i]
    {
      if curPage < |pages| && need <= sizes[curPage] - used[curPage] { return curPage; }
      for i := 0 to |pages|
        invariant forall k :: 0 <= k < i ==> need > sizes[k] - used[k]
      {
        if need <= sizes[i] - used[i] { return i; }
      }
      found := |pages|;
    }

    /** A page of its own for a request no page has room for. */
    method NewPage(need: nat) returns (ok: bool)
      requires Valid() && !oom && need > 0
      modifies this, a, a.under
      ensures Valid() && given == old(given) && curPage == old(curPage)
      ensures a.denials >= old(a.denials)
      ensures ok <==> a.denials == old(a.denials) && (|old(pages)| < old(pageCap) || old(pageCap) * 16 <= SIZE_MAX)
      ensures !ok ==> oom && used == old(used) && pages == old(pages) && sizes == old(sizes)
      ensures ok ==> !oom && |pages| == |old(pages)| + 1 && old(pages) <= pages && old(sizes) <= sizes
                     && used == old(used) + [0] && sizes == old(sizes) + [if need > pageSize then need else pageSize]
      ensures Balanced(old(a.live), old(Held()), a.live, Held())
    {
      hide Total, AllApart, PageBlocks, ArrayBytes, Balanced, Within, NoRepeat, Three, Budget.Valid;
      var allocSize := if need > pageSize then need else pageSize;
      var grown := GrowPageTable();
      if !grown {
        oom := true;
        return false;
      }
      ghost var live1, held1 := a.live, Held();
      var page := a.MemAlloc(allocSize);
      if page == NULL {
        oom := true;
        return false;
      }
      PageTaken(live1, TableHeld(), pages, sizes, page, allocSize);
      BalancedTrans(old(a.live), old(Held()), live1, held1, a.live, TableHeld() + PageBlocks(pages + [page], sizes + [allocSize]));
      PageAdded(given, used);
      sizes := sizes + [allocSize];
      used := used + [0];
      pages := pages + [page];
      ok := true;
    }

    /** bbq_arena_reset: every page is kept and none is spent. */
    method Reset()
      requires Valid()
      modifies this
      ensures Valid() && given == [] && !oom && pages == old(pages) && sizes == old(sizes) && Held() == old(Held())
      ensures forall i :: 0 <= i < |used| ==> used[i] == 0
    {
      hide Total, PageBlocks, ArrayBytes, Within, NoRepeat, Three, AllApart, Apart, Budget.Valid;
      Unspend();
      NoneApart(used);
      given := [];
      curPage := 0;
      oom := false;
    }

    method Unspend()
      modifies this`used
      ensures |used| == old(|used|) && forall k :: 0 <= k < |used| ==> used[k] == 0
    {
      for i := 0 to |used|
        invariant |used| == old(|used|) && forall k :: 0 <= k < i ==> used[k] == 0
      {
        used := used[i := 0];
      }
    }

    /** bbq_arena_free. */
    method Free()
      requires Valid()
      modifies this, a, a.under
      ensures Valid() && given == [] && pages == [] && !oom && Held() == map[]
      ensures a.live == old(a.live) - old(Held()).Keys && a.denials == old(a.denials)
    {
      hide Total, AllApart, Balanced, Within, Three, ArrayBytes, Apart;
      PageBlocksAre(pages, sizes);
      NothingFreed(a.live, pages);
      PagesLive(a.live, pages, sizes);
      for i := 0 to |pages|
        invariant a.Valid() && a.denials == old(a.denials) && a.live == old(a.live) - Names(pages[..i])
        modifies a, a.under
      {
        NamesMore(pages, i);
        a.MemRelease(pages[i], sizes[i]);
      }
      assert pages[..|pages|] == pages;
      TableLeft(old(a.live), TableHeld(), pages, sizes);
      ReleaseThree(a, pagesAt, sizesAt, usedAt, ArrayBytes(pageCap, 8), ArrayBytes(pageCap, 8), ArrayBytes(pageCap, 8));
      Forget();
    }

    method Forget()
      requires a.Valid() && pageSize % 8 == 0 && pageSize > 0
      modifies this
      ensures Valid() && given == [] && pages == [] && !oom && Held() == map[]
    {
      hide Total, Within, Three, PageBlocks, AllApart, NoRepeat, ArrayBytes, Budget.Valid;
      NothingHeld(a.live);
      pages, sizes, used := [], [], [];
      pagesAt, sizesAt, usedAt := NULL, NULL, NULL;
      pageCap, curPage, oom := 0, 0, false;
      given := [];
    }
  }

  lemma NoneApart(used: seq<nat>)
    ensures AllApart([], used)
  {}

  lemma AsBefore(live: Ledger, table: Ledger, rest: Ledger)
    requires Within(table, live) && Within(rest, live)
    ensures Balanced(live, table + rest, live, table + rest)
  {}

  lemma PageTaken(live: Ledger, table: Ledger, pages: seq<Addr>, sizes: seq<nat>, p: Addr, n: nat)
    requires |pages| == |sizes| && NoRepeat(pages) && table.Keys !! PageBlocks(pages, sizes).Keys
    requires Within(table, live) && Within(PageBlocks(pages, sizes), live) && p !in live
    ensures var rest := PageBlocks(pages + [p], sizes + [n]);
            && NoRepeat(pages + [p]) && table.Keys !! rest.Keys
            && Within(table, live[p := n]) && Within(rest, live[p := n])
            && Balanced(live, table + PageBlocks(pages, sizes), live[p := n], table + rest)
  {
    hide PageBlocks;
    PageBlocksAre(pages, sizes);
    PageBlocksMore(pages, sizes, p, n);
    forall q | q in pages ensures q != p { assert q in PageBlocks(pages, sizes); }
  }

  function Names(pages: seq<Addr>): set<Addr> {
    set p | p in pages
  }

  lemma NothingFreed(live: Ledger, pages: seq<Addr>)
    ensures live - Names(pages[..0]) == live
  {}

  lemma NamesMore(pages: seq<Addr>, i: nat)
    requires i < |pages|
    ensures Names(pages[..i + 1]) == Names(pages[..i]) + {pages[i]}
    ensures NoRepeat(pages) ==> pages[i] !in Names(pages[..i])
  {
    assert pages[..i + 1] == pages[..i] + [pages[i]];
  }

  lemma PagesLive(live: Ledger, pages: seq<Addr>, sizes: seq<nat>)
    requires |pages| == |sizes| && NoRepeat(pages) && Within(PageBlocks(pages, sizes), live)
    ensures forall i :: 0 <= i < |pages| ==> pages[i] in live && live[pages[i]] == sizes[i]
  {
    PageBlocksAre(pages, sizes);
    forall i | 0 <= i < |pages| ensures pages[i] in live && live[pages[i]] == sizes[i] {
      assert pages[i] in PageBlocks(pages, sizes);
    }
  }

  /** With the pages gone only the tables are left to give back. */
  lemma TableLeft(live: Ledger, table: Ledger, pages: seq<Addr>, sizes: seq<nat>)
    requires |pages| == |sizes| && NoRepeat(pages) && table.Keys !! PageBlocks(pages, sizes).Keys && Within(table, live)
    ensures Within(table, live - Names(pages))
    ensures live - Names(pages) - table.Keys == live - (table + PageBlocks(pages, sizes)).Keys
  {
    PageBlocksAre(pages, sizes);
  }

  lemma NothingHeld(live: Ledger)
    ensures PageBlocks([], []) == map[] && Three(NULL, NULL, NULL, 0, 0, 0) == map[] && Within(map[], live)
    ensures AllApart([], []) && NoRepeat([])
  {}

  lemma Republished(live0: Ledger, table0: Ledger, rest: Ledger, live1: Ledger, table1: Ledger)
    requires Within(table0, live0) && Within(rest, live0) && Balanced(live0, map[], live1, table1)
    requires table0.Keys !! rest.Keys
    ensures Within(table0, live1) && Within(rest, live1 - table0.Keys) && Within(table1, live1 - table0.Keys)
    ensures table1.Keys !! rest.Keys && Balanced(live0, table0 + rest, live1 - table0.Keys, table1 + rest)
  {}
}
