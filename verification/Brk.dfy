/**
  `restore_brk`: the program break, whose pages are unmapped or mapped back before the sweep runs.
 */
module Brk {
  import opened Basics
  import opened Kernel
  import opened SweepSpec
  import opened SweepTheorems

  function PageAlign(a: nat): nat {
    (a + PAGE_SIZE - 1) / PAGE_SIZE * PAGE_SIZE
  }

  // ---- restore_brk ------------------------------------------------------------------------------------------

  /** An area in the way of growing the break back: found at or above the break, within a page of the new one. */
  ghost predicate InTheWay(areas: seq<Area>, brk: nat, oldbrk: nat) {
    exists i :: 0 <= i < |areas| && brk < areas[i].end && areas[i].start < oldbrk + PAGE_SIZE
  }

  /** When `restore_brk` succeeds. */
  ghost predicate Restorable(areas: seq<Area>, brk: nat, oldbrk: nat) {
    || PageAlign(brk) == PageAlign(oldbrk)
    || (oldbrk <= brk && PageAligned(oldbrk))
    || (brk < oldbrk && PageAligned(brk) && !InTheWay(areas, brk, oldbrk))
  }

  /** What is mapped afterwards: below the break again what the break covered, above it no longer. */
  ghost predicate BrkMapped(areas: seq<Area>, brk: nat, oldbrk: nat, a: nat) {
    if PageAlign(brk) == PageAlign(oldbrk) then InAreas(areas, a)
    else if oldbrk <= brk then InAreas(areas, a) && !(oldbrk <= a < PageAlign(brk))
    else InAreas(areas, a) || brk <= a < PageAlign(oldbrk)
  }

  lemma AlignFacts(a: nat, b: nat)
    ensures a <= PageAlign(a) < a + PAGE_SIZE
    ensures PageAligned(a) ==> PageAlign(a) == a
    ensures PageAligned(a) && a <= b ==> a + PageAlign(b - a) == PageAlign(b)
    ensures PageAligned(a) && a < b ==> PageAlign(b) > a
  {
    if PageAligned(a) && a <= b {
      var k := a / PAGE_SIZE;
      assert a == k * PAGE_SIZE;
      assert (b + PAGE_SIZE - 1) / PAGE_SIZE == k + (b - a + PAGE_SIZE - 1) / PAGE_SIZE;
    }
  }

  /** A break inside a page is not restored, whatever the areas: neither back to it, nor from it. */
  lemma UnalignedBreakStays(areas: seq<Area>, brk: nat, oldbrk: nat)
    requires PageAlign(brk) != PageAlign(oldbrk)
    requires if oldbrk <= brk then !PageAligned(oldbrk) else !PageAligned(brk)
    ensures !Restorable(areas, brk, oldbrk)
  {
  }

  /** Such breaks: saved in the middle of a page and since grown over a page's end, and the other way round. */
  lemma UnalignedBreaks(areas: seq<Area>, page: nat, into: nat)
    requires PageAligned(page) && 0 < into < PAGE_SIZE
    ensures !Restorable(areas, page + PAGE_SIZE + into, page + into)
    ensures !Restorable(areas, page + into, page + PAGE_SIZE + into)
  {
    var k := page / PAGE_SIZE;
    assert page == k * PAGE_SIZE;
    assert PageAlign(page + into) == (k + 1) * PAGE_SIZE && PageAlign(page + PAGE_SIZE + into) == (k + 2) * PAGE_SIZE;
    UnalignedBreakStays(areas, page + PAGE_SIZE + into, page + into);
    UnalignedBreakStays(areas, page + into, page + PAGE_SIZE + into);
  }

  /** When the break is restored, in terms of the addresses that are mapped. */
  lemma RestorableIff(areas: seq<Area>, brk: nat, oldbrk: nat)
    requires Sorted(areas)
    ensures Restorable(areas, brk, oldbrk)
            <==> || PageAlign(brk) == PageAlign(oldbrk)
                 || (oldbrk < brk && oldbrk % PAGE_SIZE == 0)
                 || (brk < oldbrk && brk % PAGE_SIZE == 0
                     && forall a: nat :: brk <= a < oldbrk + PAGE_SIZE ==> !InAreas(areas, a))
  {
    if brk < oldbrk && InTheWay(areas, brk, oldbrk) {
      var i :| 0 <= i < |areas| && brk < areas[i].end && areas[i].start < oldbrk + PAGE_SIZE;
      var a := if areas[i].start < brk then brk else areas[i].start;
      assert Contains(areas[i], a) && InAreas(areas, a) && brk <= a < oldbrk + PAGE_SIZE;
    }
    if a: nat :| brk <= a < oldbrk + PAGE_SIZE && InAreas(areas, a) {
      var i :| 0 <= i < |areas| && Contains(areas[i], a);
      assert brk < areas[i].end && areas[i].start < oldbrk + PAGE_SIZE;
    }
  }

  /**
    What restoring it does: of the addresses between the two breaks, in whole pages, exactly those below the
    restored one are mapped, and all others are as they were.
   */
  lemma BrkMappedIff(areas: seq<Area>, brk: nat, oldbrk: nat, a: nat)
    requires Restorable(areas, brk, oldbrk)
    ensures BrkMapped(areas, brk, oldbrk, a)
            <==> if PageAlign(oldbrk) <= a < PageAlign(brk) then false
                 else if PageAlign(brk) <= a < PageAlign(oldbrk) then true
                 else InAreas(areas, a)
  {
    AlignFacts(brk, brk);
    AlignFacts(oldbrk, oldbrk);
  }

  /**
    The two ways in which a process moves its break, from a page boundary to another: whatever it has made of
    the heap, the break comes back, and the heap, from any address `heap` on, is mapped as far as it was.
   */
  lemma AlignedBreakComesBack(areas: seq<Area>, heap: nat, brk: nat, oldbrk: nat)
    requires Sorted(areas) && brk % PAGE_SIZE == 0 && oldbrk % PAGE_SIZE == 0 && heap <= brk && heap <= oldbrk
    requires forall a: nat :: heap <= a < brk ==> InAreas(areas, a)
    requires forall a: nat :: brk <= a < oldbrk + PAGE_SIZE ==> !InAreas(areas, a)
    ensures Restorable(areas, brk, oldbrk)
    ensures forall a: nat :: heap <= a < oldbrk ==> BrkMapped(areas, brk, oldbrk, a)
    ensures forall a: nat :: oldbrk <= a < brk || brk <= oldbrk <= a < oldbrk + PAGE_SIZE ==> !BrkMapped(areas, brk, oldbrk, a)
    ensures forall a: nat :: a < heap || (a >= brk && a >= oldbrk + PAGE_SIZE) ==>
              (BrkMapped(areas, brk, oldbrk, a) <==> InAreas(areas, a))
  {
    AlignFacts(brk, brk);
    AlignFacts(oldbrk, oldbrk);
    RestorableIff(areas, brk, oldbrk);
    forall a: nat ensures BrkMapped(areas, brk, oldbrk, a)
      <==> if oldbrk <= a < brk then false else if brk <= a < oldbrk then true else InAreas(areas, a)
    {
      BrkMappedIff(areas, brk, oldbrk, a);
    }
    hide BrkMapped, Restorable, PageAlign, InAreas;
  }

  // ---- The break, then the sweep ------------------------------------------------------------------------------

  /** Every lost address was anonymous private memory of the snapshot. */
  ghost predicate LostIsAnonymous(cur: seq<Area>, ss: seq<SnapVma>) {
    forall a: nat :: InVmas(ss, a) && !InAreas(cur, a) ==> InAnonVmas(ss, a)
  }

  /**
    After the break is restored, the sweep yields exactly the snapshot's mapped set, provided that what
    the run lost was anonymous, that nothing of the snapshot lay where the break had grown, and that no
    area fills a gap.
   */
  lemma BrkThenSweep(cur: seq<Area>, brk: nat, oldbrk: nat, after: seq<Area>, ss: seq<SnapVma>)
    requires Restorable(cur, brk, oldbrk)
    requires forall a: nat :: InAreas(after, a) <==> BrkMapped(cur, brk, oldbrk, a)
    requires SweepInput(after, ss) && NoRefill(after, ss)
    requires LostIsAnonymous(cur, ss)
    requires forall a: nat :: oldbrk <= a < PageAlign(brk) && InVmas(ss, a) ==> InAnonVmas(ss, a)
    ensures forall a: nat :: InAreas(Sweep(after, ss).done, a) <==> InVmas(ss, a)
  {
    SweepRestoresIff(after, ss);
    forall a: nat ensures InAreas(Sweep(after, ss).done, a) <==> InVmas(ss, a) {
      assert InAreas(Sweep(after, ss).done, a) <==> Wanted(after, ss, a);
      assert InAreas(after, a) <==> BrkMapped(cur, brk, oldbrk, a);
      assert InVmas(ss, a) && !InAreas(cur, a) ==> InAnonVmas(ss, a);
    }
  }
}
