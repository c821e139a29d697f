/** `function<R(Args...)>`: the public container. Its only state is one storage;
    its copy and move operations, assignments and destructor are the storage's,
    and its queries read the storage's table and buffer. */
module Functions {
  import opened TypeDescriptors
  import opened Memory
  import opened Storages

  class Function {
    /** The storage that holds the callable; no other container shares it. */
    const stg: Storage

    ghost predicate Valid(h: Heap)
      reads this, stg, h
    {
      stg.Valid(h)
    }

    /** `function()`: holds nothing. */
    constructor ()
      ensures fresh(stg) && stg.buf == Raw && stg.desc == Empty
      ensures !ToBool()
      ensures forall t :: Target(t) == Nullptr
    {
      stg := new Storage();
    }

    /** `function(T val)`: the storage is built from `val`, in the buffer or in
        one fresh heap block, by the placement rule. Afterwards `target<T>()`
        finds the object and `target<U>()` finds nothing for every other U. */
    constructor FromValue(v: Callable, h: Heap)
      requires h.Valid()
      modifies h
      ensures fresh(stg) && h.Valid() && Valid(h)
      ensures ToBool() && stg.Payload(h) == Some(v)
      ensures Target(v.ty) != Nullptr && Deref(Target(v.ty), h) == Some(v)
      ensures forall u :: u != v.ty ==> Target(u) == Nullptr
      ensures FitsSmallStorage(v.ty) ==> Target(v.ty) == BufferOf(stg) && h.allocs == old(h.allocs)
      ensures !FitsSmallStorage(v.ty) ==>
        Target(v.ty).HeapBlock? && Target(v.ty).addr !in old(h.cells) && h.allocs == old(h.allocs) + 1
      ensures h.cells == Put(old(h.cells), stg.OwnedPtr(), v) && h.frees == old(h.frees)
      ensures h.owner == Put(old(h.owner), stg.OwnedPtr(), stg)
    {
      stg := new Storage.FromValue(v, h);
    }

    /** `function(function const&)`, defaulted: the storage's copy constructor.
        The copy holds an equal callable of the same type, in a block of its own. */
    constructor Copy(other: Function, h: Heap)
      requires h.Valid() && other.Valid(h) && other.stg.HasPointee()
      modifies h
      ensures fresh(stg) && h.Valid() && Valid(h) && other.Valid(h)
      ensures stg.desc == other.stg.desc && stg.Payload(h) == old(other.stg.Payload(h))
      ensures other.stg.Payload(h) == old(other.stg.Payload(h))
      ensures ToBool() == other.ToBool()
      ensures forall t :: (Target(t) == Nullptr) == (other.Target(t) == Nullptr)
      ensures stg.OwnedPtr().Addr? <==> stg.desc.Big?
      ensures stg.OwnedPtr().Addr? ==>
        stg.OwnedPtr().addr !in old(h.cells)
        && h.cells == old(h.cells)[stg.OwnedPtr().addr := old(other.stg.Payload(h)).value]
        && h.allocs == old(h.allocs) + 1
      ensures stg.OwnedPtr().Null? ==> h.cells == old(h.cells) && h.allocs == old(h.allocs)
      ensures h.owner == Put(old(h.owner), stg.OwnedPtr(), stg) && h.frees == old(h.frees)
    {
      stg := new Storage.Copy(other.stg, h);
    }

    /** `function(function&&)`, defaulted: the storage's move constructor. The
        source keeps its table, so it still converts to true; a heap source's
        `target<T>()` is then the null pointer it was left with. */
    constructor Move(other: Function, h: Heap)
      requires h.Valid() && other.Valid(h)
      modifies other.stg, h`owner
      ensures fresh(stg) && h.Valid() && Valid(h) && other.Valid(h)
      ensures stg.desc == old(other.stg.desc) && stg.Payload(h) == old(other.stg.Payload(h))
      ensures other.stg.desc == old(other.stg.desc) && ToBool() == other.ToBool()
      ensures forall t :: (Target(t) == Nullptr) == old(other.Target(t) == Nullptr)
      ensures old(other.stg.desc).Big? ==>
        stg.buf == old(other.stg.buf) && other.stg.buf == Indirect(Null)
        && other.Target(old(other.stg.desc).ty) == Nullptr
      ensures stg.OwnedPtr() == old(other.stg.OwnedPtr()) && other.stg.Owned() == {}
      ensures h.owner == Put(old(h.owner), stg.OwnedPtr(), stg)
    {
      stg := new Storage.Move(other.stg, h);
    }

    /** `operator=(function const&)`, defaulted: the storage's copy assignment.
        Self-assignment changes nothing. Otherwise this container then holds
        what `rhs` held, a heap payload in a fresh block, and its old block is
        freed once. */
    method CopyAssign(rhs: Function, h: Heap)
      requires h.Valid() && Valid(h) && rhs.Valid(h) && (stg != rhs.stg ==> rhs.stg.HasPointee())
      modifies stg, h
      ensures h.Valid() && Valid(h) && rhs.Valid(h)
      ensures stg.desc == rhs.stg.desc
      ensures forall t :: (Target(t) == Nullptr) == (rhs.Target(t) == Nullptr)
      ensures stg == rhs.stg ==>
        stg.buf == old(stg.buf) && stg.desc == old(stg.desc)
        && h.cells == old(h.cells) && h.owner == old(h.owner)
        && h.allocs == old(h.allocs) && h.frees == old(h.frees)
      ensures stg != rhs.stg ==>
        stg.desc == rhs.stg.desc && stg.Payload(h) == old(rhs.stg.Payload(h))
        && rhs.stg.Payload(h) == old(rhs.stg.Payload(h))
        && (stg.OwnedPtr().Addr? <==> stg.desc.Big?)
        && h.frees == old(h.frees) + |old(stg.Owned())|
      ensures stg != rhs.stg && stg.OwnedPtr().Addr? ==>
        stg.OwnedPtr().addr !in old(h.cells)
        && h.cells == old(h.cells)[stg.OwnedPtr().addr := old(rhs.stg.Payload(h)).value] - old(stg.Owned())
        && h.allocs == old(h.allocs) + 1
      ensures stg != rhs.stg && stg.OwnedPtr().Null? ==>
        h.cells == old(h.cells) - old(stg.Owned()) && h.allocs == old(h.allocs)
      ensures stg != rhs.stg ==> h.owner == Put(old(h.owner), stg.OwnedPtr(), stg) - old(stg.Owned())
    {
      stg.CopyAssign(rhs.stg, h);
    }

    /** `operator=(function&&)`, defaulted: the storage's move assignment.
        Self-assignment changes nothing. Otherwise this container takes over
        what `rhs` held, `rhs` keeps its table with a nulled heap pointer,
        nothing is allocated and the old block is freed once. */
    method MoveAssign(rhs: Function, h: Heap)
      requires h.Valid() && Valid(h) && rhs.Valid(h)
      modifies stg, rhs.stg, h
      ensures h.Valid() && Valid(h) && rhs.Valid(h)
      ensures stg.desc == old(rhs.stg.desc) && rhs.ToBool() == old(rhs.ToBool())
      ensures stg == rhs.stg ==>
        stg.buf == old(stg.buf) && stg.desc == old(stg.desc)
        && h.cells == old(h.cells) && h.owner == old(h.owner)
        && h.allocs == old(h.allocs) && h.frees == old(h.frees)
      ensures stg != rhs.stg ==>
        stg.desc == old(rhs.stg.desc) && stg.Payload(h) == old(rhs.stg.Payload(h))
        && rhs.stg.desc == old(rhs.stg.desc)
        && (old(rhs.stg.desc).Big? ==> stg.buf == old(rhs.stg.buf) && rhs.stg.buf == Indirect(Null))
        && stg.OwnedPtr() == old(rhs.stg.OwnedPtr()) && rhs.stg.Owned() == {}
        && h.cells == old(h.cells) - old(stg.Owned())
        && h.owner == Put(old(h.owner), stg.OwnedPtr(), stg) - old(stg.Owned())
        && h.allocs == old(h.allocs)
        && h.frees == old(h.frees) + |old(stg.Owned())|
    {
      stg.MoveAssign(rhs.stg, h);
    }

    /** `~function()`, defaulted: the storage's destructor. */
    method Destroy(h: Heap)
      requires h.Valid() && Valid(h)
      modifies h
      ensures h.Valid()
      ensures h.cells == old(h.cells) - stg.Owned() && h.owner == old(h.owner) - stg.Owned()
      ensures h.allocs == old(h.allocs) && h.frees == old(h.frees) + |stg.Owned()|
    {
      stg.Destroy(h);
    }

    /** `explicit operator bool`: the table is not the empty one. */
    predicate ToBool()
      reads this, stg
    {
      stg.desc != Empty
    }

    /** `operator()`: forwards to the storage's `invoke`, which throws
        `bad_function_call` exactly when the container is empty. */
    function Call<A, R>(h: Heap, apply: (Callable, A) -> R, args: A): (r: Outcome<R>)
      reads this, stg, h
      requires Valid(h) && stg.HasPointee()
      ensures r.Threw? <==> !ToBool()
      ensures r.Threw? ==> r.error.What() == "bad function call"
      ensures r.Returned? ==> stg.Payload(h).Some? && r.value == apply(stg.Payload(h).value, args)
    {
      stg.Invoke(h, apply, args)
    }

    /** `target<T>()`: null unless the container is non-empty and holds a T;
        otherwise the placement's accessor. */
    function Target(t: TypeInfo): (p: Address)
      reads this, stg
      requires stg.WellFormed()
      ensures p != Nullptr ==> ToBool() && stg.CheckType(t)
    {
      if ToBool() && stg.CheckType(t) then GetTarget(stg, t) else Nullptr
    }
  }

  /** A container converts to true exactly when its table is the table of
      some type. */
  lemma ToBoolIffSomeType(f: Function)
    requires f.stg.WellFormed()
    ensures f.ToBool() <==> exists t :: f.stg.CheckType(t)
  {
    if f.ToBool() {
      assert f.stg.CheckType(f.stg.desc.ty);
    }
  }

  /** A container converts to true exactly when it holds a callable, or is a
      heap container whose pointer was moved away. */
  lemma ToBoolMeansHolding(f: Function, h: Heap)
    requires f.Valid(h)
    ensures f.ToBool() <==> f.stg.Payload(h).Some? || !f.stg.HasPointee()
  {
    AccessorsReachPayload(f.stg, h);
  }

  /** `target<T>()` is non-null exactly when the container holds a T, and then
      it designates that very object: the container's own buffer for an inline
      T, the block the container owns for a heap T. */
  lemma TargetIsPayload(f: Function, t: TypeInfo, h: Heap)
    requires f.Valid(h)
    ensures f.Target(t) != Nullptr <==> f.stg.Payload(h).Some? && f.stg.Payload(h).value.ty == t
    ensures f.Target(t) != Nullptr ==> Deref(f.Target(t), h) == f.stg.Payload(h)
    ensures f.Target(t).BufferOf? ==> FitsSmallStorage(t) && f.Target(t).host == f.stg
    ensures f.Target(t).HeapBlock? ==> !FitsSmallStorage(t) && f.stg.Owned() == {f.Target(t).addr}
  {
    AccessorsReachPayload(f.stg, h);
  }

  /** Two containers holding the same callable behave the same when called;
      this is what makes a moved-to or copied container equivalent to its source. */
  lemma SamePayloadSameCalls<A, R>(f: Function, g: Function, h: Heap, apply: (Callable, A) -> R, args: A)
    requires f.Valid(h) && f.stg.HasPointee() && g.Valid(h) && g.stg.HasPointee()
    requires f.stg.Payload(h) == g.stg.Payload(h)
    ensures f.Call(h, apply, args) == g.Call(h, apply, args)
  {
    AccessorsReachPayload(f.stg, h);
    AccessorsReachPayload(g.stg, h);
  }

  /** At most one type's `target` is non-null. */
  lemma TargetOfOneType(f: Function, t: TypeInfo, u: TypeInfo)
    requires f.stg.WellFormed()
    requires f.Target(t) != Nullptr && f.Target(u) != Nullptr
    ensures t == u
  {
  }
}
