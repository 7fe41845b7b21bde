# Page-table walk of `my_get_physical_addresses`, in Dafny

This project models the system call `my_get_physical_addresses`. The call
translates a process's virtual address into a physical address by walking the
x86-64 page tables by hand. These are the 4-level and 5-level paging schemes
of section 4.5 of the Intel 64 and IA-32 Architectures Software Developer's
Manual, Volume 3A.

The walk descends through five levels in a fixed order: PGD, P4D, PUD, PMD,
then the leaf PTE.

- Each directory level stops the walk when its entry is "none" or "bad".
- The leaf stops it when its entry is not present.
- On success, the physical address is `(pte & PTE_PFN_MASK) | (vaddr & ~PAGE_MASK)`.
- Every failure returns `-EFAULT`. Only full success returns 0.

Modules:

- `Masks` (masks.dfy): the address composition and the mask constants.
  `PAGE_MASK` is `~0xFFF`. `PTE_PFN_MASK` is `0x000F_FFFF_FFFF_F000`. These
  are the x86-64 kernel values for 4 KiB pages and a 52-bit physical address
  width. The composition is also stated for any pair of masks whose frame
  mask is disjoint from the offset bits, since the masking properties rest
  only on that.
- `Paging` (paging.dfy): the five levels, and the kernel's per-level macros
  as abstract functions in a `Paging` value. Those macros are `pgd_offset`,
  `p4d_offset` … `pte_offset_kernel`, `*_none`, `*_bad` and `pte_present`.
  Table memory is a read-only map from slot address to entry. A lower-level
  offset macro receives the parent slot and the entry stored there. This
  covers both a real lower table and a folded level that returns the parent
  slot. The model does not fix their bit-level definitions.
- `Walker` (walk.dfy) holds four views of the walk:
  - `WalkAsWritten` is the walk line by line as the source writes it.
  - `Descend`/`Translate` is the same walk as a forward-only state machine
    over the level index. Its terminals are `Resolved(paddr)` and
    `Failed(level)`.
  - `IsWalk` (the predicates `Chain` and `Settles`) describes a correct walk
    declaratively.
  - The lemmas prove that `IsWalk` accepts exactly one walk and that the
    three definitions agree.

  Every walk records the entries it read, in order. This makes "no entry
  below a failing level is read" a provable statement.
- `Syscall` (syscall.dfy): the call around the walk. The copy-in result, the
  copy-out success and the address space are parameters. The module proves
  the `-EFAULT`/0 return discipline and the order of the side effects.
- `Scenarios` (scenarios.dfy): concrete walks over a small synthetic table.
  Its macros are invented for illustration and are not the kernel's.

## Model

| member | source | states |
|---|---|---|
| Masks.ComposeWith | PageTableWalk.c:64-66 | for any frame mask disjoint from the offset bits, the composed address has exactly the offset bits of the virtual address and exactly the frame bits of the entry |
| Masks.ComposeWithNoStrayBits | PageTableWalk.c:64-66 | no bit outside the frame mask and the offset bits is ever set in the composed address |
| Masks.FrameAndOffsetDetermineWord | PageTableWalk.c:64-66 | a word with the entry's frame bits, the address's offset bits and no other bit is the composed address (the converse of `ComposeWith` and `ComposeWithNoStrayBits`) |
| Masks.X86MasksDisjoint | PageTableWalk.c:64-65 | the x86-64 masks are disjoint, and `PTE_PFN_MASK` is `0x000F_FFFF_FFFF_F000` |
| Masks.Compose | PageTableWalk.c:64-66 | with the x86-64 masks the result keeps the address's low 12 bits, carries the entry's frame bits, and has nothing at or above bit 52, so no flag bits of the entry |
| Masks.ComposeUnique | PageTableWalk.c:64-66 | conversely, only the composition has those frame bits, those offset bits and nothing above the physical width |
| Masks.ComposeExample | PageTableWalk.c:64-66 | frame 0x12345 with offset 0x067 gives 0x12345067; the entry's flag and no-execute bits and the address's high bits are dropped |
| Paging.LevelAt | PageTableWalk.c:29-61 | the step index and the level correspond one to one: PGD, P4D, PUD, PMD, PTE |
| Walker.WalkAsWritten | PageTableWalk.c:29-66 | the source's walk reads between one and five entries, level k at step k; a failure at a level has read exactly that level and the ones above it; a success has read all five |
| Walker.Descend | PageTableWalk.c:29-66 | the state machine from step i reads a chain of entries from the given slot on and settles: every entry before the last passed its test, and the terminal state agrees with the last entry |
| Walker.Translate | PageTableWalk.c:29-66 | the state machine from the address space's root slot is a correct walk in the sense of `IsWalk` |
| Walker.DescentUnique | PageTableWalk.c:29-66 | two settled descents from the same slot read the same entries and reach the same terminal state |
| Walker.IsWalkUnique | PageTableWalk.c:29-66 | the declarative description of a walk accepts exactly one walk per tables and address |
| Walker.WalkAsWrittenIsStateMachine | PageTableWalk.c:29-66 | the source's straight-line walk equals the level-indexed state machine on every input |
| Walker.ChainIndexed | PageTableWalk.c:30-57 | in a chain, entry k is at level k after the start and is the memory content of its slot, and each later slot comes from the previous slot and entry alone |
| Walker.SettlesIndexed | PageTableWalk.c:31-61 | in a settled walk every entry before the last passed, the walk fails exactly when the last entry fails and at its level, and success ends at the leaf with the composed address |
| Walker.WalkVisitsInOrder | PageTableWalk.c:30-57 | the source's walk starts at the PGD slot of the address space and reads PGD, P4D, PUD, PMD, PTE in order; each later slot is derived only from the previous level's slot and validated entry |
| Walker.WalkStopsAtFirstFailure | PageTableWalk.c:30-61 | the source's walk returns at the first failing level: all earlier levels passed, it fails exactly when the last entry read fails and at that level, and it reads nothing below it |
| Walker.WalkResolvedAddress | PageTableWalk.c:57-66 | a resolved walk ends at the leaf and its address has the leaf's frame bits, the virtual address's offset, and nothing above the physical width |
| Walker.StopCondition | PageTableWalk.c:31-61 | on the source's walk, every directory entry read before the last was neither none nor bad; when the last entry read is a directory entry the walk fails at its level exactly when it is none or bad; when it is the leaf the walk fails exactly when the leaf is not present |
| Walker.DescendReadsOnlyVisited | PageTableWalk.c:30-61 | the state machine depends on table memory only through the slots it reads |
| Walker.WalkReadsOnlyVisited | PageTableWalk.c:30-61 | the source's walk gives the same result on any memory that agrees on the entries it read; so repeated calls on unchanged tables agree, and entries below a failing level are never consulted |
| Walker.LeafIgnoresNoneAndBad | PageTableWalk.c:57-61 | no none or bad test is applied at the leaf: changing those tests at the PTE level does not change the walk |
| Syscall.GetPhysicalAddresses | PageTableWalk.c:13-74 | the call returns 0 or -EFAULT; a failed copy-in returns -EFAULT before reading any entry; the output is handed to copy-out exactly when the walk resolved, and it is the walk's address; 0 is returned exactly when the copy-in, the walk and the copy-out all succeed |
| Syscall.SuccessMeansTranslated | PageTableWalk.c:57-74 | a call returning 0 read all five levels, found a present leaf, and handed out an address with the leaf's frame bits and the input's offset |
| Syscall.CallRepeatable | PageTableWalk.c:24-74 | calls on tables that agree on the entries read give the same return value, reads and output |
| Scenarios.PopulatedChainResolves | PageTableWalk.c:30-66 | on a fully populated synthetic chain with leaf frame 0x12345 and offset 0x067, the walk resolves to 0x12345067 |
| Scenarios.AbsentPudFails | PageTableWalk.c:43-47 | a PUD entry that the synthetic none test rejects makes the walk fail at the PUD after three reads |
| Scenarios.SwappedOutPageFails | PageTableWalk.c:57-61 | a leaf entry that is not present makes the walk fail at the PTE after all five reads |

## Left out

- `copy_from_user` and `copy_to_user` are kernel I/O. They become inputs:
  the value copied in (None on failure) and whether the copy out succeeds.
  A partial copy-out is not modelled; the call reports it as a failure.
- `current->mm` is ambient context. It becomes an explicit `AddressSpace`
  parameter holding the root table.
- The `printk` diagnostics do not affect the result and are not modelled.
- The macro definitions of `pgd_offset`, `p4d_offset`, `pud_offset`,
  `pmd_offset`, `pte_offset_kernel`, `*_none`, `*_bad` and `pte_present` live
  in kernel headers that are not part of this model. They stay abstract. As a
  result, the per-level index extraction and its bound (512 entries per
  table) are not modelled.
- Huge-page leaves at the PUD or PMD level, P4D folding on 4-level systems,
  and swapped-out pages are not modelled beyond what the abstract macros
  answer. The source gives them no special treatment.
- The source does not validate non-canonical addresses, and neither does the
  model.
- Concurrency and table lifetime are left out. The source takes no lock and
  performs no `pte_unmap`; the model treats table memory as unchanging
  during one walk.
- The source returns the same `-EFAULT` for every failure: copy-in, a none or
  bad directory entry, a non-present leaf, copy-out. Only the `printk` text
  names the failing level. The walk records that level, and the call returns
  -EFAULT for all of these.
- `pte_val` (line 64) is taken as the identity on the stored entry, which is
  its native x86-64 definition. A paravirtualised `pte_val` (the Xen PV
  machine-to-physical frame translation) is not modelled.
- `PTE_PFN_MASK` is fixed at the value for a 52-bit physical mask. A kernel
  built with a dynamic physical mask (memory encryption) uses a different
  value. `ComposeWith` and its lemmas cover any disjoint pair of masks.
