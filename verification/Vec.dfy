/** bbq_vec: the growable array behind a bare pointer. A vector that could not grow is
    poisoned by negating its capacity; one that never had a block becomes the sentinel. */
module VecClass {
  import opened Syntax
  import opened Alloc

  const HEADER: nat := 16
  const MAX_CAP: nat := 0x3FFF_FFFF

  /** The bytes of a block of n elements, or 0 where that is not representable. */
  function BlockBytes(n: nat, elemSize: nat): nat {
    var body := ArrayBytes(n, elemSize);
    if body == 0 || body > SIZE_MAX - HEADER then 0 else HEADER + body
  }

  /** A block of n elements has no size. */
  predicate Unsized(n: nat, elemSize: nat) { n * elemSize > SIZE_MAX - HEADER }

  /** The capacity after this one: doubled, up to the ceiling. */
  function NextCap(cap: nat): nat { if cap == 0 then 8 else if 2 * cap > MAX_CAP then MAX_CAP else 2 * cap }

  /** What the caller's pointer may be: NULL (unborn), the one sentinel, or a block. */
  datatype Handle = Unborn | Sentinel | At(block: Addr)

  class Vec<T> {
    const a: Budget
    const elemSize: nat
    var v: Handle
    var elems: seq<T>
    var cap: int   // below zero when poisoned: the real capacity is then -1 - cap

    function RealCap(): nat
      reads this
    {
      if cap >= 0 then cap else -1 - cap
    }

    predicate Poisoned()
      reads this
    {
      cap < 0
    }

    /** The block the vector holds, at the size of its real capacity. */
    ghost function Held(): Ledger
      reads this
    {
      if v.At? then map[v.block := BlockBytes(RealCap(), elemSize)] else map[]
    }

    ghost predicate Valid()
      reads this, a, a.under
    {
      && a.Valid() && elemSize > 0
      && (v.Unborn? ==> elems == [] && cap == 0)
      && (v.Sentinel? ==> elems == [] && cap == -1)
      && (v.At? ==> v.block != NULL && |elems| <= RealCap() <= MAX_CAP && RealCap() > 0
                    && BlockBytes(RealCap(), elemSize) > 0 && Within(Held(), a.live))
    }

    constructor (a: Budget, elemSize: nat)
      requires a.Valid() && elemSize > 0
      ensures Valid() && this.a == a && elems == [] && !Poisoned() && Held() == map[]
    {
      this.a := a;
      this.elemSize := elemSize;
      v, elems, cap := Unborn, [], 0;
    }

    /** Sticky, and reversible to read: the elements and the real capacity stay. */
    method Poison()
      requires Valid()
      modifies this`v, this`cap
      ensures Valid() && Poisoned() && elems == old(elems) && Held() == old(Held())
    {
      if v.Unborn? {
        v, cap := Sentinel, -1;
      } else if cap >= 0 {
        cap := -1 - cap;
      }
    }

    /** bbq__vec_resize: room for `want` elements, or a poisoned vector. */
    method Resize(want: nat)
      requires Valid() && want > 0
      modifies this, a, a.under
      ensures Valid() && elems == old(elems)
      ensures a.denials >= old(a.denials)
      ensures Poisoned() <==> old(Poisoned()) || a.denials > old(a.denials)
                              || (want > old(cap) && (want > MAX_CAP || Unsized(want, elemSize)))
      ensures !Poisoned() ==> v.At? && cap == if want > old(cap) then want else old(cap)
      ensures Poisoned() ==> a.live == old(a.live) && Held() == old(Held())
      ensures Balanced(old(a.live), old(Held()), a.live, Held())
    {
      hide Total, ArrayBytes;
      if cap < 0 { return; }
      if v.At? && want <= cap { return; }
      if want > MAX_CAP {
        Poison();
        return;
      }
      var bytes := BlockBytes(want, elemSize);
      if bytes == 0 {
        Poison();
        return;
      }
      a.NullNotLive();
      var p := if v.At? then v.block else NULL;
      var oldBytes := if v.At? then BlockBytes(RealCap(), elemSize) else 0;
      var h := a.MemResize(p, oldBytes, bytes);
      if h == NULL {
        Poison();
        return;
      }
      v, cap := At(h), want;
    }

    /** bbq__vec_grow: doubled, up to the ceiling. */
    method Grow()
      requires Valid()
      modifies this, a, a.under
      ensures Valid() && elems == old(elems)
      ensures a.denials >= old(a.denials)
      ensures Poisoned() <==> old(Poisoned()) || a.denials > old(a.denials)
                              || old(cap) == MAX_CAP || Unsized(NextCap(old(cap)), elemSize)
      ensures !Poisoned() ==> cap > old(cap) && v.At? && cap <= MAX_CAP && cap == NextCap(old(cap))
      ensures Poisoned() ==> a.live == old(a.live) && Held() == old(Held())
      ensures Balanced(old(a.live), old(Held()), a.live, Held())
    {
      hide Total, ArrayBytes;
      if cap < 0 { return; }
      var want := if cap != 0 then cap * 2 else 8;
      if want > MAX_CAP { want := MAX_CAP; }
      if want <= cap {
        Poison();
        return;
      }
      Resize(want);
    }

    /** bbq_vec_push: the element is appended, or nothing is stored and the vector is
        poisoned for good: when it is full and the allocation is denied, the capacity has
        reached its ceiling, or the next one has no size. */
    method Push(x: T)
      requires Valid()
      modifies this, a, a.under
      ensures Valid()
      ensures elems == old(elems) + (if Poisoned() then [] else [x])
      ensures !Poisoned() ==> cap == if |old(elems)| == old(cap) then NextCap(old(cap)) else old(cap)
      ensures a.denials >= old(a.denials)
      ensures Poisoned() <==> old(Poisoned()) || a.denials > old(a.denials)
                              || (|old(elems)| == old(cap) && (old(cap) == MAX_CAP || Unsized(NextCap(old(cap)), elemSize)))
      ensures Balanced(old(a.live), old(Held()), a.live, Held())
    {
      hide Total, ArrayBytes, Unsized, NextCap;
      if |elems| >= (if cap > 0 then cap else 0) { Grow(); }
      if cap >= 0 { elems := elems + [x]; }
    }

    /** bbq__vec_truncate: shrink only, clamped at zero. */
    method Truncate(n: int)
      requires Valid()
      modifies this`elems
      ensures Valid() && Held() == old(Held())
      ensures elems == if n >= |old(elems)| then old(elems) else if n < 0 then [] else old(elems)[..n]
    {
      if !v.At? { return; }
      var m := if n < 0 then 0 else n;
      if m < |elems| { elems := elems[..m]; }
    }

    /** bbq_vec_pop. */
    method Pop() returns (x: T)
      requires Valid() && elems != []
      modifies this`elems
      ensures Valid() && old(elems) == elems + [x] && Held() == old(Held())
    {
      x := elems[|elems| - 1];
      elems := elems[..|elems| - 1];
    }

    /** bbq_vec_free: poisoned or not, the block goes back at its real size; the sentinel is
        no one's to free. */
    method Free()
      requires Valid()
      modifies this, a, a.under
      ensures Valid() && elems == [] && v == Unborn && Held() == map[]
      ensures a.live == old(a.live) - old(Held()).Keys && a.denials == old(a.denials)
    {
      hide Total, ArrayBytes;
      if v.At? { a.MemRelease(v.block, BlockBytes(RealCap(), elemSize)); }
      v, elems, cap := Unborn, [], 0;
    }
  }
}
