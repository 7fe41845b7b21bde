/**
 The system call my_get_physical_addresses around the walk.

 copy_from_user and copy_to_user are kernel I/O and become inputs: the value
 copied in (None when the copy fails) and whether the copy out succeeds.
 The current process's address space becomes an explicit parameter.
 */
module Syscall {
  import opened Paging
  import opened Masks
  import opened Walker

  /** Bad address: the only error code the call returns. */
  const EFAULT: int := 14

  datatype Option<T> = None | Some(value: T)

  /**
   What one call does: its return value, the table entries it read, and the
   value it handed to copy_to_user (None when it never got that far).
   */
  datatype Call = Call(ret: int, visited: seq<Read>, copiedOut: Option<bv64>)

  /**
   The call: copy the virtual address in, walk, compose, copy the physical
   address out. Every failure returns -EFAULT; only a complete success
   returns 0.
   */
  function GetPhysicalAddresses(pg: Paging, mem: Memory, mm: AddressSpace,
                                copiedIn: Option<bv64>, copyOutSucceeds: bool): (c: Call)
    ensures c.ret == 0 || c.ret == -EFAULT
    // a failed copy-in returns before any table entry is read
    ensures copiedIn.None? ==> c.ret == -EFAULT && c.visited == [] && c.copiedOut.None?
    ensures copiedIn.Some? ==> c.visited == WalkAsWritten(pg, mem, mm, copiedIn.value).visited
    // the result is handed out only after a fully successful walk, and it is the walk's address
    ensures c.copiedOut.Some? <==> copiedIn.Some? && WalkAsWritten(pg, mem, mm, copiedIn.value).outcome.Resolved?
    ensures c.copiedOut.Some? ==> c.copiedOut.value == WalkAsWritten(pg, mem, mm, copiedIn.value).outcome.paddr
    // success needs every step, including the copy-out
    ensures c.ret == 0 <==> c.copiedOut.Some? && copyOutSucceeds
  {
    match copiedIn
    case None => Call(-EFAULT, [], None)
    case Some(vaddr) =>
      var w := WalkAsWritten(pg, mem, mm, vaddr);
      match w.outcome
      case Failed(_) => Call(-EFAULT, w.visited, None)
      case Resolved(paddr) =>
        if copyOutSucceeds then Call(0, w.visited, Some(paddr))
        else Call(-EFAULT, w.visited, Some(paddr))
  }

  /**
   A successful call hands out the leaf entry's frame bits combined with the
   copied-in address's page offset, with no flag bits of the entry.
   */
  lemma SuccessMeansTranslated(pg: Paging, mem: Memory, mm: AddressSpace, vaddr: bv64, copyOutSucceeds: bool)
    requires GetPhysicalAddresses(pg, mem, mm, Some(vaddr), copyOutSucceeds).ret == 0
    ensures var c := GetPhysicalAddresses(pg, mem, mm, Some(vaddr), copyOutSucceeds);
            && |c.visited| == 5
            && c.visited[4].level == PTE
            && pg.present(c.visited[4].entry)
            && c.copiedOut.Some?
            && c.copiedOut.value & PTE_PFN_MASK == c.visited[4].entry & PTE_PFN_MASK
            && c.copiedOut.value & !PAGE_MASK == vaddr & !PAGE_MASK
  {
    WalkResolvedAddress(pg, mem, mm, vaddr);
    WalkStopsAtFirstFailure(pg, mem, mm, vaddr);
  }

  /**
   Calls on tables that agree on the entries the first call read return the
   same value and hand out the same address.
   */
  lemma CallRepeatable(pg: Paging, m1: Memory, m2: Memory, mm: AddressSpace,
                       copiedIn: Option<bv64>, copyOutSucceeds: bool)
    requires forall k :: 0 <= k < |GetPhysicalAddresses(pg, m1, mm, copiedIn, copyOutSucceeds).visited| ==>
               m2(GetPhysicalAddresses(pg, m1, mm, copiedIn, copyOutSucceeds).visited[k].slot) ==
               m1(GetPhysicalAddresses(pg, m1, mm, copiedIn, copyOutSucceeds).visited[k].slot)
    ensures GetPhysicalAddresses(pg, m2, mm, copiedIn, copyOutSucceeds) ==
            GetPhysicalAddresses(pg, m1, mm, copiedIn, copyOutSucceeds)
  {
    if copiedIn.Some? {
      var v := WalkAsWritten(pg, m1, mm, copiedIn.value).visited;
      assert GetPhysicalAddresses(pg, m1, mm, copiedIn, copyOutSucceeds).visited == v;
      WalkReadsOnlyVisited(pg, m1, m2, mm, copiedIn.value);
    }
  }
}
