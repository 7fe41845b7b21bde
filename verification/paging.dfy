/**
 The page-table vocabulary the walk is written against.

 The kernel's per-level macros (pgd_offset, p4d_offset, pud_offset,
 pmd_offset, pte_offset_kernel, the *_none and *_bad tests and pte_present)
 are kept abstract: a `Paging` value supplies them as functions, and table
 memory is a read-only map from slot address to entry. Nothing here fixes
 their bit-level definitions.
 */
module Paging {

  /** The five levels, root first: PGD, P4D, PUD, PMD, then the leaf PTE. */
  datatype Level = PGD | P4D | PUD | PMD | PTE

  /** Position of a level in the descent, 0 for the root. */
  function Depth(l: Level): (d: nat)
    ensures d < 5
    ensures d == 4 <==> l == PTE
  {
    match l
    case PGD => 0
    case P4D => 1
    case PUD => 2
    case PMD => 3
    case PTE => 4
  }

  /** The level visited at step i of the descent. */
  function LevelAt(i: nat): (l: Level)
    requires i < 5
    ensures Depth(l) == i
  {
    if i == 0 then PGD
    else if i == 1 then P4D
    else if i == 2 then PUD
    else if i == 3 then PMD
    else PTE
  }

  /** Every level is visited at exactly one step: LevelAt inverts Depth. */
  lemma LevelAtDepth(l: Level)
    ensures LevelAt(Depth(l)) == l
  {
  }

  /** Table memory: the entry stored at a slot address. The walk only reads it. */
  type Memory = bv64 -> bv64

  /** The part of a process's address space the walk uses: the root table (mm->pgd). */
  datatype AddressSpace = AddressSpace(pgd: bv64)

  /**
   The architecture's page-table macros.
   - rootOffset(pgd, vaddr): slot of the PGD entry for vaddr (pgd_offset).
   - offset(level, parentSlot, parentEntry, vaddr): slot of the entry at a
     lower level (p4d_offset, pud_offset, pmd_offset, pte_offset_kernel).
     The macro receives the parent slot; it may return it unchanged (a folded
     level) or use the parent entry stored there, so both are supplied.
   - none(level, entry), bad(level, entry): the directory-level tests.
   - present(entry): pte_present.
   */
  datatype Paging = Paging(
    rootOffset: (bv64, bv64) -> bv64,
    offset: (Level, bv64, bv64, bv64) -> bv64,
    none: (Level, bv64) -> bool,
    bad: (Level, bv64) -> bool,
    present: bv64 -> bool
  )

  /** One entry read by the walk: its level, the slot it was read from and its value. */
  datatype Read = Read(level: Level, slot: bv64, entry: bv64)

  /**
   Whether the walk may continue past an entry: a directory entry must be
   neither none nor bad; the leaf entry must be present, and the bad test is
   not applied to it.
   */
  predicate Passes(pg: Paging, l: Level, e: bv64) {
    if l == PTE then pg.present(e) else !(pg.none(l, e) || pg.bad(l, e))
  }
}
