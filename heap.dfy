/** The free store that heap-backed payloads live in: `new T(...)` and `delete`,
    with the bookkeeping needed to state ownership and freedom from double frees. */
module Memory {
  import opened TypeDescriptors

  /** A `T*` kept in the inline buffer: null, or the address of a heap block. */
  datatype Ptr = Null | Addr(addr: nat)

  /** The blocks a pointer refers to: none for null. */
  function Blocks(p: Ptr): (s: set<nat>)
    ensures p.Null? <==> s == {}
    ensures p.Addr? ==> p.addr in s && |s| == 1
  {
    if p.Addr? then {p.addr} else {}
  }

  /** `m` with the block `p` points to (if any) now mapped to `v`. */
  ghost function Put<V>(m: map<nat, V>, p: Ptr, v: V): (m': map<nat, V>)
    ensures p.Addr? ==> m' == m[p.addr := v]
    ensures p.Null? ==> m' == m
  {
    if p.Addr? then m[p.addr := v] else m
  }

  /** A second update of the same block overrides the first. */
  lemma PutTwice<V>(m: map<nat, V>, p: Ptr, v: V, w: V)
    ensures Put(Put(m, p, v), p, w) == Put(m, p, w)
  {
  }

  /** Updating a block and then freeing it is just freeing it. */
  lemma PutThenFree<V>(m: map<nat, V>, p: Ptr, v: V)
    ensures Put(m, p, v) - Blocks(p) == m - Blocks(p)
  {
  }

  class Heap {
    /** The live blocks and the object each one holds. */
    var cells: map<nat, Callable>
    /** Where the allocator places the next block. */
    var next: nat
    /** The one storage that owns each live block. */
    ghost var owner: map<nat, object>
    /** How many blocks have ever been allocated and freed. */
    ghost var allocs: nat
    ghost var frees: nat

    ghost predicate Valid()
      reads this
    {
      owner.Keys == cells.Keys
      && (forall a :: a in cells ==> a < next)
      && allocs == frees + |cells|
    }

    constructor ()
      ensures Valid()
      ensures cells == map[] && owner == map[] && allocs == 0 && frees == 0
    {
      cells, next := map[], 0;
      owner, allocs, frees := map[], 0, 0;
    }

    /** `new T(v)`: a block that was not live before now holds `v`, owned by `who`. */
    method New(v: Callable, ghost who: object) returns (p: Ptr)
      requires Valid()
      modifies this
      ensures Valid()
      ensures p.Addr? && p.addr !in old(cells)
      ensures cells == old(cells)[p.addr := v] && owner == old(owner)[p.addr := who]
      ensures allocs == old(allocs) + 1 && frees == old(frees)
    {
      p := Addr(next);
      cells := cells[next := v];
      owner := owner[next := who];
      next := next + 1;
      allocs := allocs + 1;
    }

    /** `delete p`: frees the block `p` points to, and does nothing for null.
        Only a live block may be freed, which rules out double frees. */
    method Delete(p: Ptr)
      requires Valid()
      requires p.Addr? ==> p.addr in cells
      modifies this
      ensures Valid()
      ensures cells == old(cells) - Blocks(p) && owner == old(owner) - Blocks(p)
      ensures frees == old(frees) + |Blocks(p)| && allocs == old(allocs)
    {
      if p.Addr? {
        assert (cells - {p.addr}).Keys == cells.Keys - {p.addr};
        cells := cells - {p.addr};
        owner := owner - {p.addr};
        frees := frees + 1;
      }
    }

    /** `*p = v`: what a caller does through a pointer it obtained from `target`. */
    method Write(p: Ptr, v: Callable)
      requires Valid() && p.Addr? && p.addr in cells
      modifies this`cells
      ensures Valid()
      ensures cells == old(cells)[p.addr := v]
    {
      cells := cells[p.addr := v];
    }

    /** Ownership of the block `p` points to passes to `who`; nothing is
        allocated or freed. */
    ghost method Transfer(p: Ptr, who: object)
      requires Valid() && (p.Addr? ==> p.addr in cells)
      modifies this`owner
      ensures Valid()
      ensures owner == Put(old(owner), p, who)
    {
      owner := Put(owner, p, who);
    }
  }
}
