/**
 Physical-address composition: the frame bits of the leaf entry OR'd with the
 in-page offset bits of the virtual address.

 The mask constants are the x86-64 kernel header values for 4 KiB pages and a
 52-bit physical address width. The composition is also given for any pair of
 masks whose frame mask lies inside the page mask (the frame bits and the
 offset bits are disjoint), which is all the masking properties rely on.
 */
module Masks {

  /** log2 of the page size */
  const PAGE_SHIFT: bv64 := 12
  /** 4096 */
  const PAGE_SIZE: bv64 := 1 << PAGE_SHIFT
  /** All bits at and above the page size: ~(PAGE_SIZE - 1) */
  const PAGE_MASK: bv64 := !(PAGE_SIZE - 1)
  /** Width of a physical address in bits */
  const PHYSICAL_MASK_SHIFT: bv64 := 52
  /** The low PHYSICAL_MASK_SHIFT bits */
  const PHYSICAL_MASK: bv64 := (1 << PHYSICAL_MASK_SHIFT) - 1
  /** Page-frame bits of a page-table entry: page-aligned and inside the physical width */
  const PTE_PFN_MASK: bv64 := PAGE_MASK & PHYSICAL_MASK

  /** The frame mask selects no bit of the in-page offset. */
  predicate MasksDisjoint(pfnMask: bv64, pageMask: bv64) {
    pfnMask & !pageMask == 0
  }

  /**
   The composition formula of the source for a pair of disjoint masks: the
   result has exactly the offset bits of the virtual address and exactly the
   frame bits of the entry.
   */
  function ComposeWith(pfnMask: bv64, pageMask: bv64, pte: bv64, vaddr: bv64): (paddr: bv64)
    requires MasksDisjoint(pfnMask, pageMask)
    ensures paddr & !pageMask == vaddr & !pageMask
    ensures paddr & pfnMask == pte & pfnMask
  {
    (pte & pfnMask) | (vaddr & !pageMask)
  }

  /** No bit outside the frame mask and the offset mask is ever set. */
  lemma ComposeWithNoStrayBits(pfnMask: bv64, pageMask: bv64, pte: bv64, vaddr: bv64)
    requires MasksDisjoint(pfnMask, pageMask)
    ensures ComposeWith(pfnMask, pageMask, pte, vaddr) & !(pfnMask | !pageMask) == 0
  {
  }

  /** A word with the entry's frame, the address's offset and no other bit is the composition. */
  lemma FrameAndOffsetDetermineWord(pfnMask: bv64, pageMask: bv64, pte: bv64, vaddr: bv64, x: bv64)
    requires MasksDisjoint(pfnMask, pageMask)
    requires x & !pageMask == vaddr & !pageMask
    requires x & pfnMask == pte & pfnMask
    requires x & !(pfnMask | !pageMask) == 0
    ensures x == ComposeWith(pfnMask, pageMask, pte, vaddr)
  {
  }

  /** The x86-64 kernel masks: 4 KiB pages, 52-bit physical addresses, frame and offset disjoint. */
  lemma X86MasksDisjoint()
    ensures MasksDisjoint(PTE_PFN_MASK, PAGE_MASK)
    ensures PTE_PFN_MASK == 0x000F_FFFF_FFFF_F000
  {
  }

  /**
   The source's composition with the x86-64 masks: the offset is the low
   PAGE_SHIFT bits of the virtual address, the frame is exactly the entry's
   frame bits, and neither the entry's flag bits nor anything above the
   physical width reaches the result.
   */
  function Compose(pte: bv64, vaddr: bv64): (paddr: bv64)
    ensures paddr & !PAGE_MASK == vaddr & !PAGE_MASK
    ensures paddr & PTE_PFN_MASK == pte & PTE_PFN_MASK
    ensures paddr <= PHYSICAL_MASK
  {
    X86MasksDisjoint();
    ComposeWith(PTE_PFN_MASK, PAGE_MASK, pte, vaddr)
  }

  /**
   Conversely to Compose's contract, the composition is the only word with the
   entry's frame bits, the address's offset bits and nothing at or above the
   physical width.
   */
  lemma ComposeUnique(pte: bv64, vaddr: bv64, x: bv64)
    requires x & !PAGE_MASK == vaddr & !PAGE_MASK
    requires x & PTE_PFN_MASK == pte & PTE_PFN_MASK
    requires x <= PHYSICAL_MASK
    ensures x == Compose(pte, vaddr)
  {
  }

  /**
   Frame 0x12345 and offset 0x067: the entry's flag bits (present, writable,
   user, accessed, dirty in the low bits and no-execute in bit 63) and the
   high bits of the virtual address do not reach the result.
   */
  lemma ComposeExample()
    ensures Compose(0x8000_0000_1234_5067, 0x0000_7F12_3456_7067) == 0x1234_5067
  {
  }
}
