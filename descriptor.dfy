/** The compile-time part of the container: what a contained type looks like to
    the placement rule, which dispatch table a type gets, the identity test on
    tables, and the error an empty container raises when called. */
module TypeDescriptors {

  datatype Option<+T> = None | Some(value: T)

  /** Size of the inline buffer: one pointer (`sizeof(void*)`), on a 64-bit target. */
  const InplaceBufferSize: nat := 8
  /** Alignment of the inline buffer (`alignof(void*)`), on a 64-bit target. */
  const InplaceBufferAlignment: nat := 8

  /** An alignment requirement is never zero. */
  type Alignment = n: nat | 0 < n witness 1

  /** What the container can know about a concrete callable type T: a unique
      identity, `sizeof(T)`, `alignof(T)` and whether T's move constructor is
      `noexcept`. Two types are the same type exactly when their TypeInfo is equal. */
  datatype TypeInfo = TypeInfo(id: nat, size: nat, align: Alignment, nothrowMove: bool)

  /** A callable object of some type: the container never looks inside `state`,
      which stands for whatever the object captures. */
  datatype Callable = Callable(ty: TypeInfo, state: int)

  /** The placement rule: T goes in the inline buffer when it is no larger than
      the buffer, its alignment divides the buffer's, and moving it cannot throw. */
  predicate FitsSmallStorage(t: TypeInfo)
  {
    t.size <= InplaceBufferSize
    && InplaceBufferAlignment % t.align == 0
    && t.nothrowMove
  }

  /** A dispatch table, identified by what it was generated for: the one empty
      table, the inline variant for a type, or the heap variant for a type. */
  datatype Descriptor = Empty | Small(ty: TypeInfo) | Big(ty: TypeInfo)

  /** The canonical table of a type, chosen once per type by the placement rule. */
  function DescriptorOf(t: TypeInfo): (d: Descriptor)
    ensures d != Empty && d.ty == t
    ensures d.Small? <==> FitsSmallStorage(t)
  {
    if FitsSmallStorage(t) then Small(t) else Big(t)
  }

  /** A table that can actually occur: the empty one or some type's canonical one. */
  predicate Canonical(d: Descriptor)
  {
    d == Empty || d == DescriptorOf(d.ty)
  }

  /** Tables are unique per type, so comparing tables compares types. */
  lemma DescriptorOfInjective(t: TypeInfo, u: TypeInfo)
    ensures DescriptorOf(t) == DescriptorOf(u) <==> t == u
  {
  }

  /** Every table that can occur other than the empty one is the canonical
      table of some type. */
  lemma NonEmptyIsSomeTypesTable(d: Descriptor)
    requires Canonical(d)
    ensures d != Empty <==> exists t :: DescriptorOf(t) == d
  {
    if d != Empty {
      assert DescriptorOf(d.ty) == d;
    }
  }

  /** The exception raised by calling an empty container. */
  datatype BadFunctionCall = BadFunctionCall
  {
    /** `what()`: the diagnostic message. */
    function What(): (msg: string)
      ensures msg == "bad function call"
    {
      "bad function call"
    }
  }

  /** The outcome of a call: the callable's result, or the empty-call exception. */
  datatype Outcome<+R> = Returned(value: R) | Threw(error: BadFunctionCall)
}
