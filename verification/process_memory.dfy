/** What a process does with its address space: the heap break and where user stacks go. */
module ProcessMemory {
  import opened Sv39
  import opened PageTables
  import opened AddressSpace
  import opened MemorySpaces

  const USER_STACK_SIZE := 8 * 1024 * 1024

  /** A break above the start of the heap asks for at least one page. */
  lemma BreakPages(start: nat, newBrk: nat)
    requires start < newBrk <= LOW_END
    ensures VpnFloor(start) < VpnCeil(newBrk) <= LOW_VPN
  {
  }

  class ProcessHeap {
    const space: MemorySpace
    var heapStart: nat
    var heapEnd: nat

    constructor (space: MemorySpace, brk: nat)
      ensures this.space == space && heapStart == brk && heapEnd == brk
    {
      this.space, heapStart, heapEnd := space, brk, brk;
    }

    /** Set the break. A break not above the heap's start, or above the user half, changes nothing and
        answers the old one; any other answers the new one, with every page of the heap mapped. */
    method SetUserBrk(newBrk: nat) returns (r: nat)
      requires space.Valid()
      requires VpnFloor(heapStart) in space.areas ==> space.areas[VpnFloor(heapStart)].kind == Lazy
      modifies this, space, space.mem, space.pt
      ensures heapStart == old(heapStart) && r == heapEnd
      ensures newBrk <= heapStart || newBrk > LOW_END ==> heapEnd == old(heapEnd) && space.View() == old(space.View())
      ensures heapStart < newBrk <= LOW_END ==>
                && heapEnd == newBrk && space.Consistent()
                && space.View() == Brk(old(space.View()), VpnFloor(heapStart), VpnCeil(newBrk))
      ensures heapStart < newBrk <= LOW_END ==>
                (space.Valid() <==>
                   (VpnFloor(heapStart) in old(space.areas) && VpnCeil(newBrk) <= old(space.areas)[VpnFloor(heapStart)].end) ||
                   BrkRangeFree(old(space.areas), VpnFloor(heapStart), VpnCeil(newBrk)))
    {
      if newBrk <= heapStart || newBrk > LOW_END {
        return heapEnd;
      }
      BreakPages(heapStart, newBrk);
      space.SetUserBrk(VpnFloor(heapStart), VpnCeil(newBrk));
      heapEnd := newBrk;
      r := newBrk;
    }
  }

  /** The page above the stack of a thread, and its lowest page. */
  function UserStackHigh(tid: nat): nat
    requires tid * (USER_STACK_SIZE + PAGE_SIZE) <= LOW_END
  {
    VpnFloor(LOW_END - tid * (USER_STACK_SIZE + PAGE_SIZE))
  }

  function UserStackLow(tid: nat): int
    requires tid * (USER_STACK_SIZE + PAGE_SIZE) <= LOW_END
  {
    UserStackHigh(tid) - VpnFloor(USER_STACK_SIZE)
  }

  /** Stacks of different threads lie apart, with an unmapped page between them, in the user half. */
  lemma StacksApart(a: nat, b: nat)
    requires a < b && (b + 1) * (USER_STACK_SIZE + PAGE_SIZE) <= LOW_END
    ensures a * (USER_STACK_SIZE + PAGE_SIZE) <= LOW_END && b * (USER_STACK_SIZE + PAGE_SIZE) <= LOW_END
    ensures 0 < UserStackLow(b) < UserStackHigh(b) < UserStackLow(a) < UserStackHigh(a) <= LOW_VPN
  {
    assert UserStackHigh(a) == LOW_VPN - a * 2049;
    assert UserStackHigh(b) == LOW_VPN - b * 2049;
  }
}
