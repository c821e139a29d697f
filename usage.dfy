/** A client of the container over the signature `int(int)`: the life of a few
    containers from construction to destruction, with the results of their calls. */
module Usage {
  import opened TypeDescriptors
  import opened Memory
  import opened Storages
  import opened Functions

  /** What calling one of these closures does: add the captured value to the argument. */
  function AddCapture(c: Callable, x: int): int
  {
    c.state + x
  }

  /** A lambda capturing one `int`: four bytes, moved without throwing, so inline. */
  const IntAdder := TypeInfo(1, 4, 4, true)
  /** A closure capturing a 64-byte buffer: too large for the buffer, so on the heap. */
  const BufferAdder := TypeInfo(2, 64, 8, true)

  /** The adder over 5 returns 15 for 10; once an empty container is moved
      into it, calling it throws, and no block was ever allocated. */
  method AdderThenReset() returns (first: Outcome<int>, afterReset: Outcome<int>)
    ensures first == Returned(15)
    ensures afterReset.Threw? && afterReset.error.What() == "bad function call"
  {
    var h := new Heap();
    var f := new Function.FromValue(Callable(IntAdder, 5), h);
    assert h.cells == map[];
    first := f.Call(h, AddCapture, 10);

    var e := new Function();
    f.MoveAssign(e, h);
    afterReset := f.Call(h, AddCapture, 10);
    f.Destroy(h);
    e.Destroy(h);
    assert h.allocs == 0 && h.frees == 0;
  }

  /** A heap closure over 7 is copied, and the original's capture is then
      overwritten through `target`: the copy still returns 17, the original 1010. */
  method CopyIsIndependent() returns (original: Outcome<int>, copied: Outcome<int>)
    ensures original == Returned(1010)
    ensures copied == Returned(17)
  {
    var h := new Heap();
    var g := new Function.FromValue(Callable(BufferAdder, 7), h);
    ghost var mine := g.stg.OwnedPtr();
    var gCopy := new Function.Copy(g, h);
    ghost var theirs := gCopy.stg.OwnedPtr();
    assert mine.Addr? && theirs.Addr? && mine != theirs;
    var p := g.Target(BufferAdder);
    assert p == HeapBlock(mine.addr);
    ghost var cells0 := h.cells;
    h.Write(Addr(p.addr), Callable(BufferAdder, 1000));
    PayloadKept(gCopy.stg, cells0, h.cells);
    assert gCopy.stg.Payload(h) == Some(Callable(BufferAdder, 7));
    assert g.stg.Payload(h) == Some(Callable(BufferAdder, 1000));
    original := g.Call(h, AddCapture, 10);
    copied := gCopy.Call(h, AddCapture, 10);
  }

  /** The source of a heap move still converts to true and has a null target,
      and the destination calls the closure the source held. */
  method MoveLeavesSourceTrue() returns (sourceTrue: bool, sourceTarget: Address, moved: Outcome<int>)
    ensures sourceTrue && sourceTarget == Nullptr
    ensures moved == Returned(17)
  {
    var h := new Heap();
    var g := new Function.FromValue(Callable(BufferAdder, 7), h);
    var gMoved := new Function.Move(g, h);
    sourceTrue, sourceTarget := g.ToBool(), g.Target(BufferAdder);
    moved := gMoved.Call(h, AddCapture, 10);
  }

  /** Destroying both the source and the destination of a heap move frees the
      one block exactly once. */
  method DestroyAfterMove()
  {
    var h := new Heap();
    var g := new Function.FromValue(Callable(BufferAdder, 7), h);
    var gMoved := new Function.Move(g, h);
    assert h.cells.Keys == gMoved.stg.Owned();
    gMoved.Destroy(h);
    assert h.cells == map[];
    g.Destroy(h);
    assert h.allocs == h.frees;
  }

  /** Copy-assigning an empty container to itself leaves it empty. */
  method SelfAssignmentKeepsEmpty() returns (selfAssigned: bool)
    ensures !selfAssigned
  {
    var h := new Heap();
    var e := new Function();
    e.CopyAssign(e, h);
    selfAssigned := e.ToBool();
  }

  /** Assigning an empty container over a heap function frees that function's
      block without disturbing a third function, which still returns 13. */
  method AssignmentLeavesOthersAlone() returns (third: Outcome<int>)
    ensures third == Returned(13)
  {
    var h := new Heap();
    var k := new Function.FromValue(Callable(BufferAdder, 3), h);
    var f := new Function.FromValue(Callable(BufferAdder, 7), h);
    ExclusiveOwnership(k.stg, f.stg, h);
    var e := new Function();
    ghost var cells0, owner0 := h.cells, h.owner;
    f.CopyAssign(e, h);
    UnaffectedElsewhere(k.stg, cells0, owner0, h.cells, h.owner);
    third := k.Call(h, AddCapture, 10);
  }
}
