/**
 The five-level page-table walk of my_get_physical_addresses.

 `WalkAsWritten` follows the source line by line: PGD, P4D, PUD, PMD, PTE,
 returning at the first entry that fails its level's test. `Descend` is the
 same walk as a forward-only state machine over the level index, and
 `IsWalk` is a declarative description of a correct walk: which entries are
 read, from which slots, and what the outcome must be. Every walk records the
 entries it read, in order, so "no deeper entry is read" is a statement about
 that record.
 */
module Walker {
  import opened Paging
  import opened Masks

  /** The terminal states: a physical address, or the level whose entry failed. */
  datatype Translation = Resolved(paddr: bv64) | Failed(at: Level)

  /** The outcome of a walk together with every entry it read, in reading order. */
  datatype Walk = Walk(outcome: Translation, visited: seq<Read>)

  /**
   The entries in `visited` form the descent from step i: the first is the
   entry of level LevelAt(i) read from `slot`, and each later one is read from
   the slot that the level's offset macro derives from the previous slot and
   entry alone. At most the five levels are visited.
   */
  predicate Chain(pg: Paging, mem: Memory, vaddr: bv64, i: nat, slot: bv64, visited: seq<Read>)
    decreases |visited|
  {
    && 1 <= |visited|
    && i < 5
    && visited[0] == Read(LevelAt(i), slot, mem(slot))
    && (|visited| > 1 ==>
          && i + 1 < 5
          && Chain(pg, mem, vaddr, i + 1, pg.offset(LevelAt(i + 1), slot, mem(slot), vaddr), visited[1..]))
  }

  /**
   The outcome agrees with the entries read: every entry but the last passed
   its level's test; the walk failed at the last entry's level exactly when
   that entry failed; and a successful walk ends with a present leaf entry
   whose frame, combined with the offset of vaddr, is the physical address.
   */
  predicate Settles(pg: Paging, vaddr: bv64, visited: seq<Read>, t: Translation)
    requires 1 <= |visited|
    decreases |visited|
  {
    var first := visited[0];
    if |visited| == 1 then
      match t
      case Failed(l) => l == first.level && !Passes(pg, first.level, first.entry)
      case Resolved(p) => first.level == PTE && Passes(pg, PTE, first.entry) && p == Compose(first.entry, vaddr)
    else
      Passes(pg, first.level, first.entry) && Settles(pg, vaddr, visited[1..], t)
  }

  /** A correct walk of the address space for vaddr, starting at the PGD slot. */
  predicate IsWalk(pg: Paging, mem: Memory, mm: AddressSpace, vaddr: bv64, w: Walk) {
    && Chain(pg, mem, vaddr, 0, pg.rootOffset(mm.pgd, vaddr), w.visited)
    && Settles(pg, vaddr, w.visited, w.outcome)
  }

  /**
   The walk as the source writes it: five steps in a fixed order, each
   returning at once when its entry fails, the leaf checked only for presence.
   */
  function WalkAsWritten(pg: Paging, mem: Memory, mm: AddressSpace, vaddr: bv64): (w: Walk)
    ensures 1 <= |w.visited| <= 5
    ensures forall k :: 0 <= k < |w.visited| ==> w.visited[k].level == LevelAt(k)
    ensures w.outcome.Failed? ==> |w.visited| == Depth(w.outcome.at) + 1
    ensures w.outcome.Resolved? ==> |w.visited| == 5
  {
    var pgd := pg.rootOffset(mm.pgd, vaddr);
    var pgdE := mem(pgd);
    var r0 := Read(PGD, pgd, pgdE);
    if pg.none(PGD, pgdE) || pg.bad(PGD, pgdE) then Walk(Failed(PGD), [r0])
    else
      var p4d := pg.offset(P4D, pgd, pgdE, vaddr);
      var p4dE := mem(p4d);
      var r1 := Read(P4D, p4d, p4dE);
      if pg.none(P4D, p4dE) || pg.bad(P4D, p4dE) then Walk(Failed(P4D), [r0, r1])
      else
        var pud := pg.offset(PUD, p4d, p4dE, vaddr);
        var pudE := mem(pud);
        var r2 := Read(PUD, pud, pudE);
        if pg.none(PUD, pudE) || pg.bad(PUD, pudE) then Walk(Failed(PUD), [r0, r1, r2])
        else
          var pmd := pg.offset(PMD, pud, pudE, vaddr);
          var pmdE := mem(pmd);
          var r3 := Read(PMD, pmd, pmdE);
          if pg.none(PMD, pmdE) || pg.bad(PMD, pmdE) then Walk(Failed(PMD), [r0, r1, r2, r3])
          else
            var pte := pg.offset(PTE, pmd, pmdE, vaddr);
            var pteE := mem(pte);
            var r4 := Read(PTE, pte, pteE);
            if !pg.present(pteE) then Walk(Failed(PTE), [r0, r1, r2, r3, r4])
            else Walk(Resolved(Compose(pteE, vaddr)), [r0, r1, r2, r3, r4])
  }

  /**
   The walk as a state machine: in state i the entry at `slot` is read and
   checked; failure is terminal, success at the leaf is terminal, and any
   other success moves forward to state i + 1 at the slot derived from this
   entry. There is no backward transition.
   */
  function Descend(pg: Paging, mem: Memory, vaddr: bv64, i: nat, slot: bv64): (w: Walk)
    requires i < 5
    ensures Chain(pg, mem, vaddr, i, slot, w.visited)
    ensures Settles(pg, vaddr, w.visited, w.outcome)
    decreases 5 - i
  {
    var l := LevelAt(i);
    var e := mem(slot);
    var here := Read(l, slot, e);
    if !Passes(pg, l, e) then Walk(Failed(l), [here])
    else if i == 4 then Walk(Resolved(Compose(e, vaddr)), [here])
    else
      var rest := Descend(pg, mem, vaddr, i + 1, pg.offset(LevelAt(i + 1), slot, e, vaddr));
      assert ([here] + rest.visited)[1..] == rest.visited;
      Walk(rest.outcome, [here] + rest.visited)
  }

  /** The state machine started at the root slot of the address space. */
  function Translate(pg: Paging, mem: Memory, mm: AddressSpace, vaddr: bv64): (w: Walk)
    ensures IsWalk(pg, mem, mm, vaddr, w)
  {
    Descend(pg, mem, vaddr, 0, pg.rootOffset(mm.pgd, vaddr))
  }

  /**
   A chain and outcome that settle are determined by where they start: two
   descents from the same slot at the same step read the same entries and
   reach the same terminal state.
   */
  lemma {:induction false} DescentUnique(pg: Paging, mem: Memory, vaddr: bv64, i: nat, slot: bv64,
                                         r1: seq<Read>, t1: Translation, r2: seq<Read>, t2: Translation)
    requires Chain(pg, mem, vaddr, i, slot, r1) && Settles(pg, vaddr, r1, t1)
    requires Chain(pg, mem, vaddr, i, slot, r2) && Settles(pg, vaddr, r2, t2)
    ensures r1 == r2 && t1 == t2
    decreases |r1|
  {
    if |r1| > 1 && |r2| > 1 {
      DescentUnique(pg, mem, vaddr, i + 1, pg.offset(LevelAt(i + 1), slot, mem(slot), vaddr), r1[1..], t1, r2[1..], t2);
      assert r1 == [r1[0]] + r1[1..];
      assert r2 == [r2[0]] + r2[1..];
    }
  }

  /**
   IsWalk describes exactly one walk: any two walks it accepts for the same
   tables and address are equal.
   */
  lemma IsWalkUnique(pg: Paging, mem: Memory, mm: AddressSpace, vaddr: bv64, w1: Walk, w2: Walk)
    requires IsWalk(pg, mem, mm, vaddr, w1)
    requires IsWalk(pg, mem, mm, vaddr, w2)
    ensures w1 == w2
  {
    DescentUnique(pg, mem, vaddr, 0, pg.rootOffset(mm.pgd, vaddr), w1.visited, w1.outcome, w2.visited, w2.outcome);
  }

  /** The straight-line walk of the source and the state machine agree on every input. */
  lemma WalkAsWrittenIsStateMachine(pg: Paging, mem: Memory, mm: AddressSpace, vaddr: bv64)
    ensures WalkAsWritten(pg, mem, mm, vaddr) == Translate(pg, mem, mm, vaddr)
  {
    var s0 := pg.rootOffset(mm.pgd, vaddr);
    var s1 := pg.offset(P4D, s0, mem(s0), vaddr);
    var s2 := pg.offset(PUD, s1, mem(s1), vaddr);
    var s3 := pg.offset(PMD, s2, mem(s2), vaddr);
    if !Passes(pg, PGD, mem(s0)) {
    } else if !Passes(pg, P4D, mem(s1)) {
      SameWhenStopsAtP4D(pg, mem, mm, vaddr);
    } else if !Passes(pg, PUD, mem(s2)) {
      SameWhenStopsAtPUD(pg, mem, mm, vaddr);
    } else if !Passes(pg, PMD, mem(s3)) {
      SameWhenStopsAtPMD(pg, mem, mm, vaddr);
    } else {
      SameWhenReachesPTE(pg, mem, mm, vaddr);
    }
  }

  // The four cases of WalkAsWrittenIsStateMachine by the first level that fails
  // (none, for SameWhenReachesPTE); each is one proof obligation of modest size.

  lemma SameWhenStopsAtP4D(pg: Paging, mem: Memory, mm: AddressSpace, vaddr: bv64)
    requires Passes(pg, PGD, mem(pg.rootOffset(mm.pgd, vaddr)))
    requires !Passes(pg, P4D, mem(pg.offset(P4D, pg.rootOffset(mm.pgd, vaddr), mem(pg.rootOffset(mm.pgd, vaddr)), vaddr)))
    ensures WalkAsWritten(pg, mem, mm, vaddr) == Translate(pg, mem, mm, vaddr)
  {
    var s0 := pg.rootOffset(mm.pgd, vaddr);
    var r0 := Read(PGD, s0, mem(s0));
    var s1 := pg.offset(P4D, s0, mem(s0), vaddr);
    var r1 := Read(P4D, s1, mem(s1));
    StepForward(pg, mem, vaddr, 0, s0);
    assert [r0] + [r1] == [r0, r1];
  }

  lemma SameWhenStopsAtPUD(pg: Paging, mem: Memory, mm: AddressSpace, vaddr: bv64)
    requires Passes(pg, PGD, mem(pg.rootOffset(mm.pgd, vaddr)))
    requires var s1 := pg.offset(P4D, pg.rootOffset(mm.pgd, vaddr), mem(pg.rootOffset(mm.pgd, vaddr)), vaddr);
             && Passes(pg, P4D, mem(s1))
             && !Passes(pg, PUD, mem(pg.offset(PUD, s1, mem(s1), vaddr)))
    ensures WalkAsWritten(pg, mem, mm, vaddr) == Translate(pg, mem, mm, vaddr)
  {
    var s0 := pg.rootOffset(mm.pgd, vaddr);
    var r0 := Read(PGD, s0, mem(s0));
    var s1 := pg.offset(P4D, s0, mem(s0), vaddr);
    var r1 := Read(P4D, s1, mem(s1));
    var s2 := pg.offset(PUD, s1, mem(s1), vaddr);
    var r2 := Read(PUD, s2, mem(s2));
    StepForward(pg, mem, vaddr, 0, s0);
    StepForward(pg, mem, vaddr, 1, s1);
    assert [r0] + ([r1] + [r2]) == [r0, r1, r2];
  }

  lemma SameWhenStopsAtPMD(pg: Paging, mem: Memory, mm: AddressSpace, vaddr: bv64)
    requires Passes(pg, PGD, mem(pg.rootOffset(mm.pgd, vaddr)))
    requires var s1 := pg.offset(P4D, pg.rootOffset(mm.pgd, vaddr), mem(pg.rootOffset(mm.pgd, vaddr)), vaddr);
             var s2 := pg.offset(PUD, s1, mem(s1), vaddr);
             && Passes(pg, P4D, mem(s1))
             && Passes(pg, PUD, mem(s2))
             && !Passes(pg, PMD, mem(pg.offset(PMD, s2, mem(s2), vaddr)))
    ensures WalkAsWritten(pg, mem, mm, vaddr) == Translate(pg, mem, mm, vaddr)
  {
    var s0 := pg.rootOffset(mm.pgd, vaddr);
    var r0 := Read(PGD, s0, mem(s0));
    var s1 := pg.offset(P4D, s0, mem(s0), vaddr);
    var r1 := Read(P4D, s1, mem(s1));
    var s2 := pg.offset(PUD, s1, mem(s1), vaddr);
    var r2 := Read(PUD, s2, mem(s2));
    var s3 := pg.offset(PMD, s2, mem(s2), vaddr);
    var r3 := Read(PMD, s3, mem(s3));
    StepForward(pg, mem, vaddr, 0, s0);
    StepForward(pg, mem, vaddr, 1, s1);
    StepForward(pg, mem, vaddr, 2, s2);
    assert [r0] + ([r1] + ([r2] + [r3])) == [r0, r1, r2, r3];
  }

  lemma SameWhenReachesPTE(pg: Paging, mem: Memory, mm: AddressSpace, vaddr: bv64)
    requires Passes(pg, PGD, mem(pg.rootOffset(mm.pgd, vaddr)))
    requires var s1 := pg.offset(P4D, pg.rootOffset(mm.pgd, vaddr), mem(pg.rootOffset(mm.pgd, vaddr)), vaddr);
             var s2 := pg.offset(PUD, s1, mem(s1), vaddr);
             && Passes(pg, P4D, mem(s1))
             && Passes(pg, PUD, mem(s2))
             && Passes(pg, PMD, mem(pg.offset(PMD, s2, mem(s2), vaddr)))
    ensures WalkAsWritten(pg, mem, mm, vaddr) == Translate(pg, mem, mm, vaddr)
  {
    var s0 := pg.rootOffset(mm.pgd, vaddr);
    var r0 := Read(PGD, s0, mem(s0));
    var s1 := pg.offset(P4D, s0, mem(s0), vaddr);
    var r1 := Read(P4D, s1, mem(s1));
    var s2 := pg.offset(PUD, s1, mem(s1), vaddr);
    var r2 := Read(PUD, s2, mem(s2));
    var s3 := pg.offset(PMD, s2, mem(s2), vaddr);
    var r3 := Read(PMD, s3, mem(s3));
    var s4 := pg.offset(PTE, s3, mem(s3), vaddr);
    var r4 := Read(PTE, s4, mem(s4));
    StepForward(pg, mem, vaddr, 0, s0);
    StepForward(pg, mem, vaddr, 1, s1);
    StepForward(pg, mem, vaddr, 2, s2);
    StepForward(pg, mem, vaddr, 3, s3);
    assert [r0] + ([r1] + ([r2] + ([r3] + [r4]))) == [r0, r1, r2, r3, r4];
  }

  /** One transition of the state machine after an entry that passes below the leaf. */
  lemma StepForward(pg: Paging, mem: Memory, vaddr: bv64, i: nat, slot: bv64)
    requires i < 4
    requires Passes(pg, LevelAt(i), mem(slot))
    ensures Descend(pg, mem, vaddr, i, slot) ==
              var rest := Descend(pg, mem, vaddr, i + 1, pg.offset(LevelAt(i + 1), slot, mem(slot), vaddr));
              Walk(rest.outcome, [Read(LevelAt(i), slot, mem(slot))] + rest.visited)
  {
  }

  /**
   The chain read positionally: entry k is at level LevelAt(i + k), holds the
   memory content of its slot, and (after the first) sits at the slot derived
   from entry k - 1.
   */
  lemma {:induction false} ChainIndexed(pg: Paging, mem: Memory, vaddr: bv64, i: nat, slot: bv64, visited: seq<Read>)
    requires Chain(pg, mem, vaddr, i, slot, visited)
    ensures i + |visited| <= 5
    ensures visited[0].slot == slot
    ensures forall k :: 0 <= k < |visited| ==>
              visited[k].level == LevelAt(i + k) && visited[k].entry == mem(visited[k].slot)
    ensures forall k :: 0 < k < |visited| ==>
              visited[k].slot == pg.offset(visited[k].level, visited[k - 1].slot, visited[k - 1].entry, vaddr)
    decreases |visited|
  {
    if |visited| > 1 {
      var tail := visited[1..];
      ChainIndexed(pg, mem, vaddr, i + 1, pg.offset(LevelAt(i + 1), slot, mem(slot), vaddr), tail);
      assert forall k :: 0 < k < |visited| ==> visited[k] == tail[k - 1];
    }
  }

  /**
   The outcome read positionally: every entry before the last passed its
   level's test, the walk failed exactly when the last entry failed, and then
   at that entry's level; success ends at a present leaf.
   */
  lemma {:induction false} SettlesIndexed(pg: Paging, vaddr: bv64, visited: seq<Read>, t: Translation)
    requires 1 <= |visited|
    requires Settles(pg, vaddr, visited, t)
    ensures forall k :: 0 <= k < |visited| - 1 ==> Passes(pg, visited[k].level, visited[k].entry)
    ensures var last := visited[|visited| - 1];
            && (t.Failed? <==> !Passes(pg, last.level, last.entry))
            && (t.Failed? ==> t.at == last.level)
            && (t.Resolved? ==> last.level == PTE && t.paddr == Compose(last.entry, vaddr))
    decreases |visited|
  {
    if |visited| > 1 {
      var tail := visited[1..];
      SettlesIndexed(pg, vaddr, tail, t);
      assert forall k :: 0 < k < |visited| ==> visited[k] == tail[k - 1];
    }
  }

  /**
   The source's walk reads the levels in the order PGD, P4D, PUD, PMD, PTE,
   starting at the root slot of the address space; every entry is the memory
   content of its slot, and each slot after the first comes from the previous
   level's slot and entry alone.
   */
  lemma WalkVisitsInOrder(pg: Paging, mem: Memory, mm: AddressSpace, vaddr: bv64)
    ensures var v := WalkAsWritten(pg, mem, mm, vaddr).visited;
            && 1 <= |v| <= 5
            && v[0].slot == pg.rootOffset(mm.pgd, vaddr)
            && (forall k :: 0 <= k < |v| ==> v[k].level == LevelAt(k) && v[k].entry == mem(v[k].slot))
            && (forall k :: 0 < k < |v| ==> v[k].slot == pg.offset(v[k].level, v[k - 1].slot, v[k - 1].entry, vaddr))
  {
    WalkAsWrittenIsStateMachine(pg, mem, mm, vaddr);
    ChainIndexed(pg, mem, vaddr, 0, pg.rootOffset(mm.pgd, vaddr), WalkAsWritten(pg, mem, mm, vaddr).visited);
  }

  /**
   The source's walk stops at the first failing level: every level before the
   last one read passed its test, and the walk fails exactly when the last
   entry read fails, at that entry's level, so no entry below a failing level
   is read. On success the last entry read is the leaf.
   */
  lemma WalkStopsAtFirstFailure(pg: Paging, mem: Memory, mm: AddressSpace, vaddr: bv64)
    ensures var w := WalkAsWritten(pg, mem, mm, vaddr);
            var last := w.visited[|w.visited| - 1];
            && (forall k :: 0 <= k < |w.visited| - 1 ==> Passes(pg, w.visited[k].level, w.visited[k].entry))
            && (w.outcome.Failed? <==> !Passes(pg, last.level, last.entry))
            && (w.outcome.Failed? ==> w.outcome.at == last.level)
            && (w.outcome.Resolved? ==> last.level == PTE && w.outcome.paddr == Compose(last.entry, vaddr))
  {
    WalkAsWrittenIsStateMachine(pg, mem, mm, vaddr);
    SettlesIndexed(pg, vaddr, WalkAsWritten(pg, mem, mm, vaddr).visited, WalkAsWritten(pg, mem, mm, vaddr).outcome);
  }

  /**
   A resolved walk yields the leaf entry's frame bits and the virtual
   address's in-page offset, and no bit at or above the physical width.
   */
  lemma WalkResolvedAddress(pg: Paging, mem: Memory, mm: AddressSpace, vaddr: bv64)
    requires WalkAsWritten(pg, mem, mm, vaddr).outcome.Resolved?
    ensures var w := WalkAsWritten(pg, mem, mm, vaddr);
            var leaf := w.visited[4];
            && leaf.level == PTE
            && w.outcome.paddr & PTE_PFN_MASK == leaf.entry & PTE_PFN_MASK
            && w.outcome.paddr & !PAGE_MASK == vaddr & !PAGE_MASK
            && w.outcome.paddr <= PHYSICAL_MASK
  {
  }

  /**
   The stop condition of each level, stated on the source's walk: every
   directory entry read before the last was neither none nor bad; when the
   last entry read is a directory entry, the walk fails at its level exactly
   when that entry is none or bad; when it is the leaf, the walk fails exactly
   when the leaf is not present.
   */
  lemma StopCondition(pg: Paging, mem: Memory, mm: AddressSpace, vaddr: bv64)
    ensures var w := WalkAsWritten(pg, mem, mm, vaddr);
            var last := w.visited[|w.visited| - 1];
            && (forall k :: 0 <= k < |w.visited| - 1 ==>
                  !pg.none(w.visited[k].level, w.visited[k].entry) && !pg.bad(w.visited[k].level, w.visited[k].entry))
            && (last.level != PTE ==>
                  (w.outcome == Failed(last.level) <==> pg.none(last.level, last.entry) || pg.bad(last.level, last.entry)))
            && (last.level == PTE ==> (w.outcome.Failed? <==> !pg.present(last.entry)))
  {
    var w := WalkAsWritten(pg, mem, mm, vaddr);
    WalkStopsAtFirstFailure(pg, mem, mm, vaddr);
    assert forall k :: 0 <= k < |w.visited| - 1 ==> w.visited[k].level != PTE;
  }

  /**
   The state machine depends on table memory only through the slots it reads:
   a memory that agrees on those slots gives the same walk.
   */
  lemma {:induction false} DescendReadsOnlyVisited(pg: Paging, m1: Memory, m2: Memory, vaddr: bv64, i: nat, slot: bv64)
    requires i < 5
    requires forall k :: 0 <= k < |Descend(pg, m1, vaddr, i, slot).visited| ==>
               m2(Descend(pg, m1, vaddr, i, slot).visited[k].slot) == m1(Descend(pg, m1, vaddr, i, slot).visited[k].slot)
    ensures Descend(pg, m2, vaddr, i, slot) == Descend(pg, m1, vaddr, i, slot)
    decreases 5 - i
  {
    var w1 := Descend(pg, m1, vaddr, i, slot);
    assert w1.visited[0].slot == slot;
    assert m2(slot) == m1(slot);
    var e := m1(slot);
    if Passes(pg, LevelAt(i), e) && i < 4 {
      var next := pg.offset(LevelAt(i + 1), slot, e, vaddr);
      var rest := Descend(pg, m1, vaddr, i + 1, next);
      assert w1.visited == [Read(LevelAt(i), slot, e)] + rest.visited;
      assert forall k :: 0 <= k < |rest.visited| ==> rest.visited[k] == w1.visited[k + 1];
      DescendReadsOnlyVisited(pg, m1, m2, vaddr, i + 1, next);
    }
  }

  /**
   The walk reads table memory and nothing else: repeating it on a memory that
   agrees with the first on the slots it read (in particular on unchanged
   tables) gives the same outcome and the same reads, whatever the entries
   below a failing level hold.
   */
  lemma WalkReadsOnlyVisited(pg: Paging, m1: Memory, m2: Memory, mm: AddressSpace, vaddr: bv64)
    requires forall k :: 0 <= k < |WalkAsWritten(pg, m1, mm, vaddr).visited| ==>
               m2(WalkAsWritten(pg, m1, mm, vaddr).visited[k].slot) == m1(WalkAsWritten(pg, m1, mm, vaddr).visited[k].slot)
    ensures WalkAsWritten(pg, m2, mm, vaddr) == WalkAsWritten(pg, m1, mm, vaddr)
  {
    WalkAsWrittenIsStateMachine(pg, m1, mm, vaddr);
    WalkAsWrittenIsStateMachine(pg, m2, mm, vaddr);
    DescendReadsOnlyVisited(pg, m1, m2, vaddr, 0, pg.rootOffset(mm.pgd, vaddr));
  }

  /**
   No none or bad test is applied to the leaf: replacing the leaf-level
   answers of those tests by anything leaves the walk unchanged.
   */
  lemma LeafIgnoresNoneAndBad(pg: Paging, mem: Memory, mm: AddressSpace, vaddr: bv64,
                              leafNone: bv64 -> bool, leafBad: bv64 -> bool)
    ensures var pg' := pg.(none := (l: Level, e: bv64) => if l == PTE then leafNone(e) else pg.none(l, e),
                           bad := (l: Level, e: bv64) => if l == PTE then leafBad(e) else pg.bad(l, e));
            WalkAsWritten(pg', mem, mm, vaddr) == WalkAsWritten(pg, mem, mm, vaddr)
  {
  }
}
