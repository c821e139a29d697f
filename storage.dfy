/** `storage<R, Args...>`: a one-word buffer plus a pointer to the dispatch
    table that governs it, and the entries of the three kinds of dispatch table
    (empty, inline, heap). The table entries are written as the module-level
    members `EmptyCopy` ... `HeapDestroy`; they take the storages they act on
    as arguments, as the table's function pointers do. */
module Storages {
  import opened TypeDescriptors
  import opened Memory

  /** The bytes of the inline buffer, as the active table reads them. */
  datatype Buffer =
    | Raw                    // value-initialised bytes that hold no object
    | Inline(obj: Callable)  // a T constructed in place
    | Indirect(ptr: Ptr)     // a T* to a heap block (null once moved from)

  /** A `T*` as handed out by the accessors and by `target<T>()`. */
  datatype Address = Nullptr | BufferOf(host: Storage) | HeapBlock(addr: nat)

  function FromPtr(p: Ptr): (a: Address)
    ensures a.Nullptr? <==> p.Null?
    ensures p.Addr? ==> a == HeapBlock(p.addr)
  {
    if p.Addr? then HeapBlock(p.addr) else Nullptr
  }

  /** The object an address designates, if any. */
  ghost function Deref(p: Address, h: Heap): Option<Callable>
    reads (if p.BufferOf? then {p.host} else {}), h
  {
    match p
    case Nullptr => None
    case BufferOf(s) => if s.buf.Inline? then Some(s.buf.obj) else None
    case HeapBlock(a) => if a in h.cells then Some(h.cells[a]) else None
  }

  class Storage {
    var buf: Buffer
    var desc: Descriptor

    /** The table is the empty one or a type's canonical one, and the buffer
        has the shape that table expects. */
    predicate WellFormed()
      reads this
    {
      Canonical(desc)
      && (desc.Small? ==> buf.Inline? && buf.obj.ty == desc.ty)
      && (desc.Big? ==> buf.Indirect?)
    }

    /** Well formed, and a non-null heap pointer refers to a live block holding
        a T that this storage, and no other, owns. */
    ghost predicate ValidIn(cells: map<nat, Callable>, owner: map<nat, object>)
      reads this
    {
      WellFormed()
      && (desc.Big? && buf.ptr.Addr? ==>
            buf.ptr.addr in cells && cells[buf.ptr.addr].ty == desc.ty
            && buf.ptr.addr in owner && owner[buf.ptr.addr] == this)
    }

    ghost predicate Valid(h: Heap)
      reads this, h
    {
      ValidIn(h.cells, h.owner)
    }

    /** The heap pointer this storage is responsible for freeing (null if none). */
    ghost function OwnedPtr(): Ptr
      reads this
    {
      if desc.Big? && buf.Indirect? then buf.ptr else Null
    }

    /** The heap blocks this storage is responsible for freeing: at most one. */
    ghost function Owned(): set<nat>
      reads this
    {
      Blocks(OwnedPtr())
    }

    /** The callable this storage holds, given the live heap blocks: none when
        empty, none for a heap storage that was moved from. */
    ghost function PayloadIn(cells: map<nat, Callable>): Option<Callable>
      reads this
    {
      match desc
      case Empty => None
      case Small(_) => if buf.Inline? then Some(buf.obj) else None
      case Big(_) =>
        if buf.Indirect? && buf.ptr.Addr? && buf.ptr.addr in cells then Some(cells[buf.ptr.addr]) else None
    }

    ghost function Payload(h: Heap): Option<Callable>
      reads this, h
    {
      PayloadIn(h.cells)
    }

    /** Dereferencing the payload is defined: not a moved-from heap storage. */
    predicate HasPointee()
      reads this
    {
      !(desc.Big? && buf == Indirect(Null))
    }

    /** `storage()`: the empty table and a value-initialised buffer. */
    constructor ()
      ensures buf == Raw && desc == Empty
      ensures Owned() == {}
    {
      buf := Raw;
      desc := Empty;
    }

    /** `storage(storage const&)`: start empty, then run the source table's copy. */
    constructor Copy(other: Storage, h: Heap)
      requires h.Valid() && other.Valid(h) && other.HasPointee()
      modifies h
      ensures h.Valid() && Valid(h) && other.Valid(h)
      ensures desc == other.desc && Payload(h) == old(other.Payload(h))
      ensures other.Payload(h) == old(other.Payload(h))
      ensures OwnedPtr().Addr? <==> desc.Big?
      ensures OwnedPtr().Addr? ==>
        OwnedPtr().addr !in old(h.cells)
        && h.cells == old(h.cells)[OwnedPtr().addr := old(other.Payload(h)).value]
        && h.allocs == old(h.allocs) + 1
      ensures OwnedPtr().Null? ==> h.cells == old(h.cells) && h.allocs == old(h.allocs)
      ensures h.owner == Put(old(h.owner), OwnedPtr(), this)
      ensures h.frees == old(h.frees)
    {
      buf := Raw;
      desc := Empty;
      new;
      match other.desc
      case Empty => EmptyCopy(other, this);
      case Small(_) => InlineCopy(other, this);
      case Big(_) => HeapCopy(other, this, h);
    }

    /** `storage(storage&&)`: start empty, then run the source table's move. The
        source keeps its table; a heap source keeps a null pointer. */
    constructor Move(other: Storage, h: Heap)
      requires h.Valid() && other.Valid(h)
      modifies other, h`owner
      ensures h.Valid() && Valid(h) && other.Valid(h)
      ensures desc == old(other.desc) && Payload(h) == old(other.Payload(h))
      ensures other.desc == old(other.desc)
      ensures old(other.desc).Big? ==> buf == old(other.buf) && other.buf == Indirect(Null)
      ensures OwnedPtr() == old(other.OwnedPtr()) && other.OwnedPtr().Null?
      ensures h.owner == Put(old(h.owner), OwnedPtr(), this)
    {
      buf := Raw;
      desc := Empty;
      new;
      match other.desc
      case Empty => EmptyMove(other, this);
      case Small(_) => InlineMove(other, this);
      case Big(_) => HeapMove(other, this, h);
    }

    /** `storage(T&&)`: initialise the buffer as T's placement dictates, then
        install T's table. */
    constructor FromValue(v: Callable, h: Heap)
      requires h.Valid()
      modifies h
      ensures h.Valid() && Valid(h)
      ensures desc == DescriptorOf(v.ty) && Payload(h) == Some(v)
      ensures FitsSmallStorage(v.ty) ==> buf == Inline(v)
      ensures OwnedPtr().Null? <==> FitsSmallStorage(v.ty)
      ensures OwnedPtr().Addr? ==> OwnedPtr().addr !in old(h.cells)
      ensures h.cells == Put(old(h.cells), OwnedPtr(), v) && h.owner == Put(old(h.owner), OwnedPtr(), this)
      ensures h.allocs == old(h.allocs) + |Owned()| && h.frees == old(h.frees)
    {
      buf := Raw;
      desc := Empty;
      new;
      if FitsSmallStorage(v.ty) {
        InitializeInline(this, v);
      } else {
        InitializeHeap(this, v, h);
      }
      desc := DescriptorOf(v.ty);
    }

    /** `operator=(storage const&)`: nothing on self-assignment; otherwise copy
        `other` into a temporary, swap it in, and destroy the temporary, which
        now holds the old payload. */
    method CopyAssign(other: Storage, h: Heap)
      requires h.Valid() && Valid(h) && other.Valid(h) && (this != other ==> other.HasPointee())
      modifies this, h
      ensures h.Valid() && Valid(h) && other.Valid(h)
      ensures this == other ==>
        buf == old(buf) && desc == old(desc)
        && h.cells == old(h.cells) && h.owner == old(h.owner)
        && h.allocs == old(h.allocs) && h.frees == old(h.frees)
      ensures this != other ==>
        desc == other.desc && Payload(h) == old(other.Payload(h))
        && other.Payload(h) == old(other.Payload(h))
        && (OwnedPtr().Addr? <==> desc.Big?)
        && h.frees == old(h.frees) + |old(Owned())|
      ensures this != other && OwnedPtr().Addr? ==>
        OwnedPtr().addr !in old(h.cells)
        && h.cells == old(h.cells)[OwnedPtr().addr := old(other.Payload(h)).value] - old(Owned())
        && h.allocs == old(h.allocs) + 1
      ensures this != other && OwnedPtr().Null? ==>
        h.cells == old(h.cells) - old(Owned()) && h.allocs == old(h.allocs)
      ensures this != other ==> h.owner == Put(old(h.owner), OwnedPtr(), this) - old(Owned())
    {
      if this != other {
        ExclusiveOwnership(this, other, h);
        ghost var cells0, owner0, theirs := h.cells, h.owner, other.OwnedPtr();
        ghost var ob, od := other.buf, other.desc;
        var tmp := new Storage.Copy(other, h);
        assert other.buf == ob && other.desc == od;
        ghost var made := tmp.OwnedPtr();
        assert theirs.Addr? ==> theirs != made && theirs != OwnedPtr();
        AdoptTemporary(tmp, h);
        PutTwice(owner0, made, tmp, this);
        assert other.buf == ob && other.desc == od;
        assert theirs.Addr? ==> theirs.addr in h.cells && h.cells[theirs.addr] == cells0[theirs.addr];
        PayloadKept(other, cells0, h.cells);
      }
    }

    /** `operator=(storage&&)`: nothing on self-assignment; otherwise move `other`
        into a temporary, swap it in, and destroy the temporary. */
    method MoveAssign(other: Storage, h: Heap)
      requires h.Valid() && Valid(h) && other.Valid(h)
      modifies this, other, h
      ensures h.Valid() && Valid(h) && other.Valid(h)
      ensures this == other ==>
        buf == old(buf) && desc == old(desc)
        && h.cells == old(h.cells) && h.owner == old(h.owner)
        && h.allocs == old(h.allocs) && h.frees == old(h.frees)
      ensures this != other ==>
        desc == old(other.desc) && Payload(h) == old(other.Payload(h))
        && other.desc == old(other.desc)
        && (old(other.desc).Big? ==> buf == old(other.buf) && other.buf == Indirect(Null))
        && OwnedPtr() == old(other.OwnedPtr()) && other.OwnedPtr().Null?
        && h.cells == old(h.cells) - old(Owned())
        && h.owner == Put(old(h.owner), OwnedPtr(), this) - old(Owned())
        && h.allocs == old(h.allocs)
        && h.frees == old(h.frees) + |old(Owned())|
    {
      if this != other {
        ExclusiveOwnership(this, other, h);
        ghost var owner0, theirs := h.owner, other.OwnedPtr();
        var tmp := new Storage.Move(other, h);
        ghost var ob, od := other.buf, other.desc;
        AdoptTemporary(tmp, h);
        assert other.buf == ob && other.desc == od;
        PutTwice(owner0, theirs, tmp, this);
      }
    }

    /** The tail of both assignments, `tmp.swap(*this)` followed by the end of the
        temporary's lifetime: this storage takes over the temporary's contents,
        and its old payload is destroyed, exactly once, as the temporary's. */
    method AdoptTemporary(tmp: Storage, h: Heap)
      requires h.Valid() && Valid(h) && tmp.Valid(h) && tmp != this
      modifies this, tmp, h
      ensures h.Valid() && Valid(h)
      ensures buf == old(tmp.buf) && desc == old(tmp.desc)
      ensures Payload(h) == old(tmp.Payload(h))
      ensures h.cells == old(h.cells) - old(Owned())
      ensures h.owner == Put(old(h.owner), OwnedPtr(), this) - old(Owned())
      ensures h.allocs == old(h.allocs) && h.frees == old(h.frees) + |old(Owned())|
    {
      ExclusiveOwnership(this, tmp, h);
      ghost var mine, made, owner0 := OwnedPtr(), tmp.OwnedPtr(), h.owner;
      tmp.Swap(this, h);
      assert OwnedPtr() == made && tmp.OwnedPtr() == mine;
      tmp.Destroy(h);
      PutThenFree(Put(owner0, made, this), mine, tmp);
    }

    /** `~storage()`: always run the active table's destroy. */
    method Destroy(h: Heap)
      requires h.Valid() && Valid(h)
      modifies h
      ensures h.Valid()
      ensures h.cells == old(h.cells) - Owned() && h.owner == old(h.owner) - Owned()
      ensures h.allocs == old(h.allocs) && h.frees == old(h.frees) + |Owned()|
    {
      match desc
      case Empty =>
        // the empty table's destroy does nothing
      case Small(_) =>
        // the inline table runs ~T() on the buffer, which frees no heap block
      case Big(_) =>
        HeapDestroy(this, h);
    }

    /** `invoke(args...)`: call through the active table. */
    function Invoke<A, R>(h: Heap, apply: (Callable, A) -> R, args: A): (r: Outcome<R>)
      reads this, h
      requires Valid(h) && HasPointee()
      ensures r.Threw? <==> desc == Empty
      ensures r.Threw? ==> r.error.What() == "bad function call"
      ensures r.Returned? ==> Payload(h).Some? && r.value == apply(Payload(h).value, args)
    {
      match desc
      case Empty => EmptyInvoke(this, args)
      case Small(_) => InlineInvoke(this, h, apply, args)
      case Big(_) => HeapInvoke(this, h, apply, args)
    }

    /** `get_static<T>()`: the address of the buffer, read as a T*. */
    function GetStatic(): Address
    {
      BufferOf(this)
    }

    /** `get_dynamic<T>()`: the T* stored in the buffer. */
    function GetDynamic(): Ptr
      reads this
      requires buf.Indirect?
    {
      buf.ptr
    }

    /** `set_static(obj)`: construct `obj` in place in the buffer. */
    method SetStatic(obj: Callable)
      modifies this`buf
      ensures buf == Inline(obj)
    {
      buf := Inline(obj);
    }

    /** `set_dynamic(p)`: store the pointer `p` in the buffer. */
    method SetDynamic(p: Ptr)
      modifies this`buf
      ensures buf == Indirect(p)
    {
      buf := Indirect(p);
    }

    /** `check_type<T>()`: is the active table T's canonical table? */
    predicate CheckType(t: TypeInfo)
      reads this
      ensures WellFormed() ==> (CheckType(t) <==> desc != Empty && desc.ty == t)
    {
      DescriptorOf(t) == desc
    }

    /** `swap(rhs)`: exchange buffers and tables, and with them the ownership of
        the heap blocks they point to; nothing is allocated or freed. */
    method Swap(rhs: Storage, h: Heap)
      requires h.Valid() && Valid(h) && rhs.Valid(h)
      modifies this, rhs, h`owner
      ensures buf == old(rhs.buf) && desc == old(rhs.desc)
      ensures rhs.buf == old(buf) && rhs.desc == old(desc)
      ensures h.Valid() && Valid(h) && rhs.Valid(h)
      ensures h.owner == Put(Put(old(h.owner), rhs.OwnedPtr(), rhs), OwnedPtr(), this)
    {
      ghost var mine, theirs := OwnedPtr(), rhs.OwnedPtr();
      if this != rhs {
        ExclusiveOwnership(this, rhs, h);
      }
      var b := buf;
      buf := rhs.buf;
      rhs.buf := b;
      var d := desc;
      desc := rhs.desc;
      rhs.desc := d;
      h.Transfer(mine, rhs);
      h.Transfer(theirs, this);
    }
  }

  /** Two distinct valid storages never own the same heap block. */
  lemma ExclusiveOwnership(s1: Storage, s2: Storage, h: Heap)
    requires s1.Valid(h) && s2.Valid(h) && s1 != s2
    ensures s1.Owned() !! s2.Owned()
  {
  }

  /** What a storage holds depends only on the block it owns. */
  lemma PayloadKept(s: Storage, cells0: map<nat, Callable>, cells1: map<nat, Callable>)
    requires s.OwnedPtr().Addr? ==>
      var a := s.OwnedPtr().addr; a in cells0 && a in cells1 && cells0[a] == cells1[a]
    ensures s.PayloadIn(cells0) == s.PayloadIn(cells1)
  {
  }

  /** A storage whose own block keeps its contents and its owner is unaffected
      by whatever happens to the other blocks: it stays valid and holds the same
      payload. */
  lemma UnaffectedElsewhere(s: Storage, cells0: map<nat, Callable>, owner0: map<nat, object>,
                            cells1: map<nat, Callable>, owner1: map<nat, object>)
    requires s.ValidIn(cells0, owner0)
    requires forall a :: a in s.Owned() ==>
      a in cells1 && cells1[a] == cells0[a] && a in owner1 && owner1[a] == owner0[a]
    ensures s.ValidIn(cells1, owner1)
    ensures s.PayloadIn(cells1) == s.PayloadIn(cells0)
  {
    if s.OwnedPtr().Addr? {
      assert s.OwnedPtr().addr in s.Owned();
    }
  }

  /** Reading the buffer as the active table does reaches the payload. */
  lemma AccessorsReachPayload(s: Storage, h: Heap)
    requires s.Valid(h)
    ensures s.desc.Small? ==> Deref(s.GetStatic(), h) == s.Payload(h)
    ensures s.desc.Big? ==> Deref(FromPtr(s.GetDynamic()), h) == s.Payload(h)
    ensures s.Payload(h).Some? ==> s.desc != Empty && s.Payload(h).value.ty == s.desc.ty
    ensures s.desc != Empty && s.HasPointee() ==> s.Payload(h).Some?
  {
  }

  /** `function_traits<T>::get_target`: the buffer's own address for an inline T,
      the stored T* for a heap T. */
  function GetTarget(s: Storage, t: TypeInfo): Address
    reads s
    requires FitsSmallStorage(t) || s.buf.Indirect?
  {
    if FitsSmallStorage(t) then s.GetStatic() else FromPtr(s.GetDynamic())
  }

  // ---- initialize_storage, one per placement ----

  /** Inline placement: construct the object in the buffer; nothing is allocated. */
  method InitializeInline(s: Storage, v: Callable)
    modifies s`buf
    ensures s.buf == Inline(v)
  {
    s.SetStatic(v);
  }

  /** Heap placement: exactly one `new T`, whose pointer goes in the buffer. */
  method InitializeHeap(s: Storage, v: Callable, h: Heap)
    requires h.Valid()
    modifies s`buf, h
    ensures h.Valid()
    ensures s.buf.Indirect? && s.buf.ptr.Addr? && s.buf.ptr.addr !in old(h.cells)
    ensures h.cells == old(h.cells)[s.buf.ptr.addr := v]
    ensures h.owner == old(h.owner)[s.buf.ptr.addr := s]
    ensures h.allocs == old(h.allocs) + 1 && h.frees == old(h.frees)
  {
    var p := h.New(v, s);
    s.SetDynamic(p);
  }

  // ---- the empty table ----

  /** Empty table, copy: only the table pointer is propagated. */
  method EmptyCopy(src: Storage, dest: Storage)
    requires src.desc == Empty && src != dest
    modifies dest`desc
    ensures dest.desc == Empty
  {
    dest.desc := src.desc;
  }

  /** Empty table, move: only the table pointer is propagated. */
  method EmptyMove(src: Storage, dest: Storage)
    requires src.desc == Empty && src != dest
    modifies dest`desc
    ensures dest.desc == Empty
  {
    dest.desc := src.desc;
  }

  /** Empty table, invoke: always throws `bad_function_call`. */
  function EmptyInvoke<A, R>(src: Storage, args: A): (r: Outcome<R>)
    ensures r.Threw? && r.error.What() == "bad function call"
  {
    Threw(BadFunctionCall)
  }

  // ---- the inline table of a type ----

  /** Inline copy: copy-construct the source's T into the destination buffer. */
  method InlineCopy(src: Storage, dest: Storage)
    requires src.desc.Small? && src.buf.Inline? && src != dest
    modifies dest
    ensures dest.buf == src.buf && dest.desc == src.desc
  {
    dest.SetStatic(src.buf.obj);
    dest.desc := src.desc;
  }

  /** Inline move: move-construct the source's T into the destination buffer.
      The source keeps its table and a T in an unspecified state. */
  method InlineMove(src: Storage, dest: Storage)
    requires src.desc.Small? && src.buf.Inline? && src != dest
    modifies src, dest
    ensures dest.buf == old(src.buf) && dest.desc == old(src.desc)
    ensures src.desc == old(src.desc) && src.buf.Inline? && src.buf.obj.ty == old(src.buf.obj.ty)
  {
    dest.SetStatic(src.buf.obj);
    dest.desc := src.desc;
  }

  /** Inline invoke: call the T in the buffer. */
  function InlineInvoke<A, R>(src: Storage, h: Heap, apply: (Callable, A) -> R, args: A): (r: Outcome<R>)
    reads src, h
    requires src.Valid(h) && src.desc.Small?
    ensures src.Payload(h).Some? && r == Returned(apply(src.Payload(h).value, args))
  {
    Returned(apply(src.buf.obj, args))
  }

  // ---- the heap table of a type ----

  /** Heap copy: allocate a fresh T copied from the source's pointee, so the two
      storages never share a block. */
  method HeapCopy(src: Storage, dest: Storage, h: Heap)
    requires h.Valid() && src.Valid(h) && src.desc.Big? && src.HasPointee() && src != dest
    modifies dest, h
    ensures h.Valid()
    ensures dest.desc == src.desc
    ensures dest.buf.Indirect? && dest.buf.ptr.Addr? && dest.buf.ptr.addr !in old(h.cells)
    ensures h.cells == old(h.cells)[dest.buf.ptr.addr := old(h.cells)[src.buf.ptr.addr]]
    ensures h.owner == old(h.owner)[dest.buf.ptr.addr := dest]
    ensures h.allocs == old(h.allocs) + 1 && h.frees == old(h.frees)
  {
    var p := h.New(h.cells[src.GetDynamic().addr], dest);
    dest.SetDynamic(p);
    dest.desc := src.desc;
  }

  /** Heap move: hand the pointer over, null the source's pointer, allocate nothing. */
  method HeapMove(src: Storage, dest: Storage, h: Heap)
    requires h.Valid() && src.Valid(h) && src.desc.Big? && src != dest
    modifies src, dest, h`owner
    ensures h.Valid()
    ensures dest.buf == old(src.buf) && dest.desc == old(src.desc)
    ensures src.buf == Indirect(Null) && src.desc == old(src.desc)
    ensures h.owner == Put(old(h.owner), old(src.buf.ptr), dest)
  {
    ghost var moved := src.buf.ptr;
    dest.SetDynamic(src.GetDynamic());
    src.SetDynamic(Null);
    dest.desc := src.desc;
    h.Transfer(moved, dest);
  }

  /** Heap invoke: call the pointee of the stored pointer. */
  function HeapInvoke<A, R>(src: Storage, h: Heap, apply: (Callable, A) -> R, args: A): (r: Outcome<R>)
    reads src, h
    requires src.Valid(h) && src.desc.Big? && src.HasPointee()
    ensures src.Payload(h).Some? && r == Returned(apply(src.Payload(h).value, args))
  {
    Returned(apply(h.cells[src.GetDynamic().addr], args))
  }

  /** Heap destroy: delete the stored pointer; deleting a null pointer frees nothing. */
  method HeapDestroy(src: Storage, h: Heap)
    requires h.Valid() && src.Valid(h) && src.desc.Big?
    modifies h
    ensures h.Valid()
    ensures h.cells == old(h.cells) - src.Owned() && h.owner == old(h.owner) - src.Owned()
    ensures h.allocs == old(h.allocs) && h.frees == old(h.frees) + |src.Owned()|
  {
    h.Delete(src.GetDynamic());
  }
}
