/**
  `exclude_vmrange` and `include_vmrange`: the doubly linked lists of ranges, and what the call
  `list_add(&list, &n->node)` does to them with its arguments in that order.
 */
module Ranges {
  import opened Basics

  class ListHead {
    var next: ListHead
    var prev: ListHead
    const range: Area

    /** INIT_LIST_HEAD: a list of its own. */
    constructor (range: Area)
      ensures next == this && prev == this && this.range == range
    {
      this.range := range;
      next := this;
      prev := this;
    }
  }

  /** `list_add(entry, head)`: `entry` goes right behind `head`. */
  method ListAdd(entry: ListHead, head: ListHead)
    requires entry != head && head.next != entry
    modifies entry, head, head.next
    ensures head.next == entry && entry.prev == head
    ensures entry.next == old(head.next) && old(head.next).prev == entry
  {
    var next := head.next;
    next.prev := entry;
    entry.next := next;
    entry.prev := head;
    head.next := entry;
  }

  /** The list of `head` holds exactly one element, with this range. */
  ghost predicate HoldsOnly(head: ListHead, range: Area)
    reads head, head.next
  {
    && head.next != head && head.next.range == range
    && head.next.next == head && head.next.prev == head && head.prev == head.next
  }

  /** Whatever ranges were added before, the list afterwards holds the new one alone. */
  method AddRange(list: ListHead, start: nat, end: nat)
    modifies list
    ensures HoldsOnly(list, Area(start, end)) && fresh(list.next)
  {
    var n := new ListHead(Area(start, end));
    ListAdd(list, n);
  }

  // ---- What a search of the list finds ----------------------------------------------------------

  /** `list_for_each_entry` from `node` on passes elements with these ranges and ends at `head`. */
  ghost predicate Passes(node: ListHead, head: ListHead, ranges: seq<Area>)
    reads *
    decreases |ranges|
  {
    if ranges == [] then node == head
    else node != head && node.range == ranges[0] && Passes(node.next, head, ranges[1..])
  }

  /** The ranges that `intersect_blocklist` and `intersect_allowlist` get to see. */
  ghost predicate Reaches(head: ListHead, ranges: seq<Area>)
    reads *
  {
    Passes(head.next, head, ranges)
  }

  lemma HoldsOnlyReaches(head: ListHead, range: Area, ranges: seq<Area>)
    requires HoldsOnly(head, range)
    ensures Reaches(head, ranges) <==> ranges == [range]
  {
    if ranges != [] {
      assert Passes(head.next, head, ranges) <==> ranges[0] == range && Passes(head, head, ranges[1..]);
      assert Passes(head, head, ranges[1..]) <==> ranges[1..] == [];
    }
  }

  /** Every range added is among those reached. */
  predicate AllReached(added: seq<Area>, reached: seq<Area>) {
    forall i :: 0 <= i < |added| ==> added[i] in reached
  }

  predicate AllEqual(added: seq<Area>) {
    forall i :: 0 <= i < |added| ==> added[i] == added[|added| - 1]
  }

  /**
    After any number of calls a search reaches the newest range alone; so every range that was added can
    be reached iff they all equal the newest.
   */
  method AddRanges(list: ListHead, ranges: seq<Area>)
    requires ranges != []
    modifies list
    ensures HoldsOnly(list, ranges[|ranges| - 1])
    ensures Reaches(list, [ranges[|ranges| - 1]])
    ensures forall reached :: Reaches(list, reached) ==> (AllReached(ranges, reached) <==> AllEqual(ranges))
  {
    for i := 0 to |ranges|
      invariant i > 0 ==> HoldsOnly(list, ranges[i - 1])
    {
      AddRange(list, ranges[i].start, ranges[i].end);
    }
    ghost var last := ranges[|ranges| - 1];
    HoldsOnlyReaches(list, last, [last]);
    forall reached | Reaches(list, reached) ensures AllReached(ranges, reached) <==> AllEqual(ranges) {
      HoldsOnlyReaches(list, last, reached);
      assert forall r :: r in [last] <==> r == last;
    }
  }

  /** Excluding two ranges, one after the other, loses the first: none of its addresses is in a range reached. */
  method AddTwoRanges(list: ListHead, first: Area, second: Area)
    requires first.start < first.end <= second.start
    modifies list
    ensures Reaches(list, [second])
    ensures forall reached, a :: Reaches(list, reached) && Contains(first, a) ==> !InAreas(reached, a)
  {
    AddRanges(list, [first, second]);
    forall reached, a | Reaches(list, reached) && Contains(first, a) ensures !InAreas(reached, a) {
      HoldsOnlyReaches(list, second, reached);
    }
  }
}
