/**
 Concrete walks over a small synthetic page table. The table is not the
 kernel's: its macros are chosen only to make the walk's behaviour visible.
 An entry with bit 0 clear is none at a directory level and not present at
 the leaf, no entry is bad, and each table holds a single entry at the frame
 address of the entry above it.
 */
module Scenarios {
  import opened Paging
  import opened Masks
  import opened Walker

  const Synthetic := Paging(
    (pgd: bv64, vaddr: bv64) => pgd,
    (l: Level, parent: bv64, e: bv64, vaddr: bv64) => e & PTE_PFN_MASK,
    (l: Level, e: bv64) => e & 1 == 0,
    (l: Level, e: bv64) => false,
    (e: bv64) => e & 1 == 1
  )

  const Root := AddressSpace(0x1000)

  /** PGD at 0x1000, P4D at 0x2000, PUD at 0x3000, PMD at 0x4000, PTE at 0x5000 mapping frame 0x12345. */
  function Tables(pudEntry: bv64, pteEntry: bv64): Memory {
    (slot: bv64) =>
      if slot == 0x1000 then 0x2067
      else if slot == 0x2000 then 0x3067
      else if slot == 0x3000 then pudEntry
      else if slot == 0x4000 then 0x5067
      else if slot == 0x5000 then pteEntry
      else 0
  }

  /** A fully populated chain: leaf frame 0x12345 and offset 0x067 give 0x12345067. */
  lemma PopulatedChainResolves()
    ensures WalkAsWritten(Synthetic, Tables(0x4067, 0x8000_0000_1234_5067), Root, 0x7F00_0000_0067).outcome
            == Resolved(0x1234_5067)
  {
    ComposeExample();
  }

  /** The same chain with a PUD entry the synthetic none test rejects (bit 0 clear) fails at the PUD after three reads. */
  lemma AbsentPudFails()
    ensures var w := WalkAsWritten(Synthetic, Tables(0x4066, 0x8000_0000_1234_5067), Root, 0x7F00_0000_0067);
            w.outcome == Failed(PUD) && |w.visited| == 3
  {
  }

  /** The same chain with the leaf not present fails at the PTE after all five reads. */
  lemma SwappedOutPageFails()
    ensures var w := WalkAsWritten(Synthetic, Tables(0x4067, 0x8000_0000_1234_5066), Root, 0x7F00_0000_0067);
            w.outcome == Failed(PTE) && |w.visited| == 5
  {
  }
}
