/** bbq_buf: a growable byte buffer that poisons rather than losing bytes. */
module BufClass {
  import opened Syntax
  import opened Alloc

  const MIN_CAP: nat := 64

  class Buf {
    const a: Budget
    var dataAt: Addr
    var data: Bytes   // the first len bytes of the block
    var cap: nat
    var oom: bool

    ghost function Held(): Ledger
      reads this
    {
      if dataAt == NULL then map[]
      else
        var none: Ledger := map[];
        none[dataAt := cap]
    }

    ghost predicate Valid()
      reads this, a, a.under
    {
      && a.Valid() && |data| <= cap <= SIZE_MAX
      && (dataAt == NULL <==> cap == 0)
      && (dataAt != NULL ==> dataAt in a.live && a.live[dataAt] == cap)
    }

    constructor (a: Budget)
      requires a.Valid()
      ensures Valid() && this.a == a && data == [] && !oom && Held() == map[]
    {
      this.a := a;
      dataAt, data, cap, oom := NULL, [], 0, false;
    }

    /** bbq_buf_reserve: capacity for `total` bytes, by a doubling that cannot wrap. */
    method Reserve(total: nat) returns (ok: bool)
      requires Valid() && total <= SIZE_MAX
      modifies this, a, a.under
      ensures Valid() && data == old(data)
      ensures a.denials >= old(a.denials)
      ensures ok <==> !old(oom) && a.denials == old(a.denials)
      ensures ok ==> cap >= total && !oom && !old(oom)
      ensures !ok ==> oom && cap == old(cap) && dataAt == old(dataAt) && a.live == old(a.live)
      ensures ok ==> if total > old(cap) then cap < 2 * total || cap == MIN_CAP else cap == old(cap)
      ensures Balanced(old(a.live), old(Held()), a.live, Held())
    {
      hide Total;
      if oom { return false; }
      if total <= cap { return true; }
      var newCap := if cap != 0 then cap else MIN_CAP;
      while newCap < total
        invariant 0 < newCap <= SIZE_MAX && (newCap < 2 * total || newCap == MIN_CAP)
        decreases total - newCap
      {
        if newCap > SIZE_MAX / 2 {
          newCap := total;
          break;
        }
        newCap := newCap * 2;
      }
      var moved := a.MemResize(dataAt, cap, newCap);
      if moved == NULL {
        oom := true;
        return false;
      }
      dataAt := moved;
      cap := newCap;
      ok := true;
    }

    /** bbq_buf_append: all of the bytes, or none and a poisoned buffer: when it was poisoned
        before, the new length is past the largest size, or the allocation is denied. */
    method Append(src: Bytes) returns (ok: bool)
      requires Valid() && |src| <= SIZE_MAX
      modifies this, a, a.under
      ensures Valid()
      ensures ok ==> data == old(data) + src && !oom
      ensures !ok ==> data == old(data) && oom
      ensures a.denials >= old(a.denials)
      ensures ok <==> !old(oom) && |old(data)| + |src| <= SIZE_MAX && a.denials == old(a.denials)
      ensures src == [] ==> a.live == old(a.live) && (ok <==> !old(oom))
      ensures Balanced(old(a.live), old(Held()), a.live, Held())
    {
      hide Total;
      if |src| == 0 { return !oom; }
      if oom { return false; }
      if |src| > SIZE_MAX - |data| {
        oom := true;
        return false;
      }
      ok := Reserve(|data| + |src|);
      if !ok { return false; }
      data := data + src;
    }

    /** bbq_buf_clear keeps the capacity, and does not forgive a refusal. */
    method Clear()
      requires Valid()
      modifies this`data
      ensures Valid() && data == [] && Held() == old(Held())
    {
      data := [];
    }

    /** bbq_buf_free: the block goes back at the size it was taken at. */
    method Free()
      requires Valid()
      modifies this, a, a.under
      ensures Valid() && data == [] && !oom && Held() == map[]
      ensures a.live == old(a.live) - old(Held()).Keys && a.denials == old(a.denials)
    {
      hide Total;
      a.NullNotLive();
      a.MemRelease(dataAt, cap);
      dataAt, data, cap, oom := NULL, [], 0, false;
    }
  }
}
