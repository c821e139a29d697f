# A type-erased callable with small-buffer optimisation, in Dafny

This project models `function<R(Args...)>`, a small reimplementation of
`std::function`, and the `storage<R, Args...>` it is built on. A storage is one
pointer-sized buffer plus a pointer `desc` to a dispatch table (a
`type_descriptor`: copy, move, invoke, destroy). There is one empty table, which
throws `bad_function_call` on invoke. Every callable type T has one canonical
table. T is constructed in the buffer itself when it fits the buffer, its
alignment divides the buffer's, and its move constructor cannot throw
(`fits_small_storage`). Otherwise T lives in a heap block, and the buffer holds
a `T*`. `function` adds `operator bool`, `operator()` and the typed accessor
`target<T>()`. Its copy and move operations, assignments and destructor are
the storage's.

The model is imperative where the source is:

- `Storages.Storage` is a class with the two fields `buf` and `desc`.
- The free store is an explicit `Memory.Heap`. `new` and `delete` act on its
  map of live blocks. Ghost bookkeeping records which storage owns each block
  and how many blocks were ever allocated and freed.
- Storage validity (`Valid(h)`) says that a heap storage's non-null pointer
  designates a live block of the right type, and that this storage is the
  block's only owner. Every constructor, assignment, `swap` and destructor
  preserves it.
- The three kinds of dispatch table are the module-level members
  `EmptyCopy` … `HeapDestroy`.
- A table is identified by the datatype `Descriptor`, so `check_type` compares
  descriptors, as the source compares table addresses.

Files:

- `descriptor.dfy`: types, the placement rule, tables, `bad_function_call`.
- `heap.dfy`: the free store.
- `storage.dfy`: `storage` and the three kinds of table.
- `function.dfy`: `function`.
- `usage.dfy`: client code. An inline adder over 5 is called and then reset
  by moving in an empty function. A heap closure is copied and stays
  independent of its original. A heap function is moved from and stays true.
  Self-assignment keeps an empty function empty. An assignment frees one
  block and leaves a third function's payload intact.

## Model

| member | source | states |
|---|---|---|
| TypeDescriptors.BadFunctionCall.What | storage.h:9-13 | the exception's message is exactly "bad function call" |
| TypeDescriptors.DescriptorOf | storage.h:24-28 | a type's table is never the empty one and belongs to that type; it is the inline variant if and only if the type fits the buffer (size at most 8, alignment dividing 8, no-throw move) |
| TypeDescriptors.DescriptorOfInjective | storage.h:195-205 | two types have equal tables if and only if they are the same type, so comparing tables is a type test |
| TypeDescriptors.NonEmptyIsSomeTypesTable | storage.h:89-108 | a table that can occur is either the empty table or the canonical table of some type |
| Memory.Heap.New | storage.h:277-279 | `new T` returns a block that was not live before; only that block is added, the allocation count rises by one, and the block is owned by the caller |
| Memory.Heap.Delete | storage.h:313-315 | `delete` frees exactly the block pointed to and is a no-op for null; freeing a block that is not live is excluded, which rules out double frees |
| Storages.Storage.constructor | storage.h:110-111 | a default storage has a raw buffer and the empty table, and owns no block |
| Storages.Storage.Copy | storage.h:113-116 | the copy has the same table and an equal payload; a heap source gets exactly one fresh block, an inline or empty source allocates nothing; the source is unchanged |
| Storages.Storage.Move | storage.h:118-121 | the destination takes over the table and the payload, without allocating; the source keeps its table; a heap source's pointer is nulled and its block now belongs to the destination |
| Storages.Storage.FromValue | storage.h:144-149 | the table is T's canonical table and the payload is the value; inline placement puts T in the buffer and allocates nothing; heap placement allocates exactly one fresh block holding the value |
| Storages.Storage.CopyAssign | storage.h:123-129 | self-assignment changes nothing, even for a moved-from heap storage; otherwise the target gets the source's table and payload and the source's payload is unchanged; a heap source gets one fresh block; the target's old block is freed, exactly once |
| Storages.Storage.MoveAssign | storage.h:131-137 | self-assignment changes nothing; otherwise the target takes over the source's table, payload and block, and the source keeps its table with a nulled heap pointer; nothing is allocated, and the target's old block is freed, exactly once |
| Storages.Storage.AdoptTemporary | storage.h:126 | the swap with the temporary and the temporary's destruction together: this storage ends with the temporary's contents, and its own old block is freed once |
| Storages.Storage.Destroy | storage.h:139-142 | destruction frees exactly the block the storage owns: one for a heap storage with a live pointer, none otherwise, so a moved-from heap storage frees nothing |
| Storages.Storage.Invoke | storage.h:151-158 | invoke throws `bad_function_call` exactly when the table is empty; otherwise it returns the stored callable applied to the arguments |
| Storages.Storage.SetStatic | storage.h:172-176 | the buffer then holds the object inline |
| Storages.Storage.SetDynamic | storage.h:178-181 | the buffer then holds the pointer |
| Storages.Storage.CheckType | storage.h:195-205 | `check_type<T>` holds exactly when the table is not empty and belongs to T |
| Storages.Storage.Swap | storage.h:207-212 | swap exchanges exactly the buffers and the tables; both storages stay valid, and each heap block changes owner along with its pointer |
| Storages.ExclusiveOwnership | storage.h:85-86 | two distinct valid storages never own the same heap block |
| Storages.UnaffectedElsewhere | storage.h:85-86 | a storage whose own block keeps its contents and owner stays valid and holds the same payload, whatever happens to other blocks |
| Storages.AccessorsReachPayload | storage.h:160-193 | reading the buffer as the active table does reaches the payload: `get_static` for an inline table, `get_dynamic` for a heap table; a non-empty storage with a pointee holds an object of the table's type |
| Storages.InitializeInline | storage.h:230-232 | inline placement constructs the object in the buffer |
| Storages.InitializeHeap | storage.h:277-279 | heap placement stores the pointer to exactly one fresh block holding the value |
| Storages.EmptyCopy | storage.h:95-97 | copying an empty storage yields an empty storage |
| Storages.EmptyMove | storage.h:98-100 | moving an empty storage yields an empty storage |
| Storages.EmptyInvoke | storage.h:101-103 | invoking through the empty table always throws `bad_function_call` |
| Storages.InlineCopy | storage.h:251-254 | the destination holds an equal T in its own buffer, under the same table |
| Storages.InlineMove | storage.h:256-259 | the destination holds the moved T in its own buffer, under the same table; the source keeps its table and still holds some object of type T |
| Storages.InlineInvoke | storage.h:261-263 | calls the object in the buffer |
| Storages.HeapCopy | storage.h:298-301 | the destination points to a fresh block holding a copy of the source's object; the source's block is untouched |
| Storages.HeapMove | storage.h:303-307 | the destination takes the pointer and its block, the source's pointer becomes null, and nothing is allocated |
| Storages.HeapInvoke | storage.h:309-311 | calls the object the pointer designates |
| Storages.HeapDestroy | storage.h:313-315 | deletes the pointed-to block, or nothing if the pointer is null |
| Functions.Function.constructor | function.h:15 | a default function is false, and `target<T>()` is null for every T |
| Functions.Function.FromValue | function.h:43-45 | the function is true and holds the value; `target<T>()` designates it, the buffer for an inline T or the fresh heap block for a heap T, and `target<U>()` is null for every other U; one allocation for a heap T, none for an inline T |
| Functions.Function.Copy | function.h:17 | exactly the storage's copy: the copy has the same table and an equal callable, converts to bool the same way, and finds the same types through `target`; a heap copy gets one fresh block holding the callable, the source is unchanged, and every other block keeps its contents and owner |
| Functions.Function.Move | function.h:18 | exactly the storage's move: the destination has the source's table, callable and `target` successes; the source keeps its table; a heap source's pointer becomes null, so its `target<T>()` is null, and its block passes to the destination; nothing is allocated and every other block keeps its owner |
| Functions.Function.CopyAssign | function.h:23 | exactly the storage's copy assignment: self-assignment changes nothing, even for a moved-from heap function; otherwise the target holds what the right-hand side held, with the same `target` successes, a heap payload in one fresh block, and its old block is freed once; every other block keeps its contents and owner |
| Functions.Function.MoveAssign | function.h:24 | exactly the storage's move assignment: self-assignment changes nothing; otherwise the target takes over the right-hand side's table, callable and block, the right-hand side keeps its table with a nulled heap pointer, nothing is allocated, its old block is freed once, and every other block keeps its contents and owner |
| Functions.Function.Destroy | function.h:26 | destruction frees exactly the block the function owns |
| Functions.Function.Call | function.h:52-60 | a call throws `bad_function_call` exactly when the function is false; otherwise it returns the stored callable applied to the arguments |
| Functions.Function.Target | function.h:62-80 | a non-null `target<T>()` implies the function is true and holds a T |
| Functions.ToBoolIffSomeType | function.h:47-50 | `operator bool` holds exactly when the table is some type's table |
| Functions.ToBoolMeansHolding | function.h:47-50 | `operator bool` holds exactly when the function holds a callable or is a heap function that was moved from |
| Functions.TargetIsPayload | function.h:62-70 | `target<T>()` is non-null exactly when the function holds a T, and it then designates that very object: the function's own buffer for an inline T, the block the function owns for a heap T |
| Functions.SamePayloadSameCalls | function.h:52-60 | two functions holding the same callable give the same result for every call |
| Functions.TargetOfOneType | function.h:62-70 | at most one type's `target` is non-null |
| Usage.AdderThenReset | function.h:15-60 | an inline adder over 5 returns 15 for 10; after an empty function is moved into it, calling it throws `bad_function_call` |
| Usage.CopyIsIndependent | function.h:17-70 | once a heap closure over 7 is copied, writing a new capture through the original's `target` changes the original's result (1010) but not the copy's (17) |
| Usage.SelfAssignmentKeepsEmpty | function.h:23 | copy-assigning an empty function to itself leaves it false |
| Usage.AssignmentLeavesOthersAlone | function.h:23 | assigning an empty function over a heap function leaves a third heap function returning 13 |
| Usage.MoveLeavesSourceTrue | function.h:18-70 | after moving a heap function, the source still converts to true with a null `target`, and the destination returns what the source would have (17) |

## Left out

- Threads, exceptions thrown by the callable itself, and `bad_alloc` from `new`. Calls into the callable cannot fail in the model.
- What a callable computes is opaque. A call is given by the `apply` parameter of `Invoke` and `Call`, and a callable's state is an uninterpreted integer.
- The C++ type machinery: templates, `enable_if`, the `friend` declarations, and the const overloads of `invoke`, `get_static`, `get_dynamic`, `check_type`, `target` and `operator()`. Each pair has one model, because the two bodies are identical.
- The buffer size and alignment are fixed at 8, the values of `sizeof(void*)` and `alignof(void*)` on a 64-bit target.
- A type's size, alignment and no-throw move are given as data (`TypeInfo`). Type identity is equality of that data.
- Copying a T is modelled as producing an equal object. A user-defined copy constructor with other effects is not modelled.
- Storages.InlineMove: the moved-from inline object is only promised to be some object of type T, because the source leaves its contents unspecified.
- Storages.Storage.Copy: the source must not be a moved-from heap storage. The source's copy would dereference its null pointer, which is undefined behaviour.
- Storages.Storage.Invoke: calling a moved-from heap storage is undefined behaviour in the source (a null dereference), so it is a precondition.
- Functions.Function.Call: as for `Storages.Storage.Invoke`, a moved-from heap function must not be called.
- Functions.Function.Copy: as for `Storages.Storage.Copy`, a moved-from heap function must not be copied.
- Functions.Function.CopyAssign: as for `Storages.Storage.Copy`, a right-hand side distinct from the target must not be a moved-from heap function. Self-assignment is allowed for every function.
- Storages.Storage.CopyAssign: as for `Storages.Storage.Copy`, a source distinct from the target must not be a moved-from heap storage. Self-assignment is allowed for every storage.
- Functions.Function.Target: its contract gives only the necessary condition. `Functions.TargetIsPayload` states when the result is non-null and which object and address it gives.
- Functions.Function.ToBool (`operator bool`) has no contract of its own. `Functions.ToBoolIffSomeType` and `Functions.ToBoolMeansHolding` state what it means.
- An inline T's destructor is not modelled, because the model cannot observe it. Destroying an inline or empty storage changes nothing in the model.
- `get_static` and `get_dynamic` (`Storages.Storage.GetStatic`, `Storages.Storage.GetDynamic`) and `get_target` (`Storages.GetTarget`) have no contracts of their own. What they reach is stated by `Storages.AccessorsReachPayload` and `Functions.TargetIsPayload`.
- The heap allocates from an increasing counter and never reuses an address. The contracts promise only that a new block was not live before.
- Writes through `target<T>()` are modelled by `Memory.Heap.Write` for heap objects only. Mutating an inline object through the buffer's address, including by calling a mutable callable, is not modelled.
