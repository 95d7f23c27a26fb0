/**
  The process' areas as objects.  `restore_vmas` in its own form: an unmap shrinks or splits an area under
  the loop's feet, and the loop re-reads the one its iterator points to.  And `restore_brk`.
 */
module Sweep {
  import opened Basics
  import opened Kernel
  import opened SweepSpec
  import opened SweepLoop
  import opened SweepTheorems
  import opened Brk

  /** One `struct vm_area_struct`. */
  class VmArea {
    var vmStart: nat
    var vmEnd: nat

    constructor (start: nat, end: nat)
      ensures vmStart == start && vmEnd == end
    {
      vmStart, vmEnd := start, end;
    }

    function Value(): Area
      reads this
    {
      Area(vmStart, vmEnd)
    }
  }

  /**
    The list of a process' areas, in the order of their addresses, and its break; `values` is what the nodes
    hold, and every node is in `nodes`.
   */
  class Mm {
    var brk: nat
    var list: seq<VmArea>
    ghost var values: seq<Area>
    ghost var nodes: set<VmArea>

    ghost predicate Tied()
      reads this`list, this`values, this`nodes, nodes
    {
      && NoDup(list) && |values| == |list|
      && (forall i :: 0 <= i < |list| ==> list[i] in nodes)
      && (forall i :: 0 <= i < |list| ==> values[i] == list[i].Value())
    }

    ghost predicate Valid()
      reads this`list, this`values, this`nodes, nodes
    {
      Tied() && Sorted(values)
    }

    /** `vm_next`. */
    method Next(v: VmArea, ghost i: nat) returns (n: VmArea?)
      requires Valid() && i < |list| && list[i] == v
      ensures n == if i + 1 < |list| then list[i + 1] else null
    {
      var k := 0;
      while list[k] != v
        invariant 0 <= k <= i
        decreases i - k
      {
        k := k + 1;
      }
      n := if k + 1 < |list| then list[k + 1] else null;
    }

    /** `find_vma`: the first area that ends above an address. */
    method FindVma(addr: nat) returns (i: nat)
      requires Tied()
      ensures i <= |list|
      ensures forall k :: 0 <= k < i ==> values[k].end <= addr
      ensures i < |list| ==> addr < values[i].end
    {
      i := 0;
      while i < |list| && list[i].vmEnd <= addr
        invariant 0 <= i <= |list|
        invariant forall k :: 0 <= k < i ==> values[k].end <= addr
      {
        i := i + 1;
      }
    }

    method SetNode(i: nat, start: nat, end: nat)
      requires Tied() && i < |list|
      modifies this`values, nodes
      ensures Tied() && values == old(values)[i := Area(start, end)]
    {
      list[i].vmStart, list[i].vmEnd := start, end;
      values := values[i := Area(start, end)];
    }

    method Insert(i: nat, start: nat, end: nat) returns (v: VmArea)
      requires Tied() && i <= |list|
      modifies this`list, this`values, this`nodes
      ensures Tied() && fresh(v) && nodes == old(nodes) + {v} && list == old(list[..i]) + [v] + old(list[i..])
      ensures values == old(values[..i]) + [Area(start, end)] + old(values[i..])
    {
      v := new VmArea(start, end);
      nodes := nodes + {v};
      list := list[..i] + [v] + list[i..];
      values := values[..i] + [Area(start, end)] + values[i..];
    }

    method Remove(i: nat)
      requires Tied() && i < |list|
      modifies this`list, this`values
      ensures Tied() && list == old(list[..i]) + old(list[i + 1..])
      ensures values == old(values[..i]) + old(values[i + 1..])
    {
      list := list[..i] + list[i + 1..];
      values := values[..i] + values[i + 1..];
    }

    lemma FoundAt(lo: nat, i: nat, at: nat)
      requires Valid() && at < |list| && values[at].start <= lo < values[at].end
      requires i <= |list| && (forall k :: 0 <= k < i ==> values[k].end <= lo) && (i < |list| ==> lo < values[i].end)
      ensures i == at
    {
      assert forall k :: 0 <= k < at ==> values[k].end <= values[at].start;
    }

    /**
      Unmapping a piece of one area.  The node that is there stays on the lower part if there is
      one, and otherwise on the upper part; an upper part beside a lower one is a new node.
     */
    method UnmapWithin(lo: nat, hi: nat, ghost at: nat) returns (ghost parts: seq<VmArea>)
      requires Valid() && at < |list| && values[at].start <= lo < hi <= values[at].end
      modifies this`list, this`values, this`nodes, nodes
      ensures Valid()
      ensures values == old(values[..at]) + Punch(old(values[at]), lo, hi) + old(values[at + 1..])
      ensures list == old(list[..at]) + parts + old(list[at + 1..])
      ensures |parts| == |Punch(old(values[at]), lo, hi)| && (parts != [] ==> parts[0] == old(list[at]))
      ensures old(nodes) <= nodes && fresh(nodes - old(nodes))
    {
      var i := FindVma(lo);
      FoundAt(lo, i, at);
      assert values == values[..i] + [values[i]] + values[i + 1..];
      PunchSorted(values[..i], values[i], values[i + 1..], lo, hi);
      parts := MunmapAt(i, lo, hi);
    }

    /** `__split_vma`: the node keeps the part below the hole, a new one takes the part above. */
    method SplitAt(i: nat, lo: nat, hi: nat) returns (ghost parts: seq<VmArea>)
      requires Tied() && i < |list| && values[i].start < lo < hi < values[i].end
      modifies this`list, this`values, this`nodes, nodes
      ensures Tied() && |parts| == 2 && parts[0] == old(list[i])
      ensures values == old(values[..i]) + [Area(old(values[i].start), lo), Area(hi, old(values[i].end))] + old(values[i + 1..])
      ensures list == old(list[..i]) + parts + old(list[i + 1..])
      ensures old(nodes) <= nodes && fresh(nodes - old(nodes))
    {
      var v, start, end := list[i], list[i].vmStart, list[i].vmEnd;
      SetNode(i, start, lo);
      var upper := Insert(i + 1, hi, end);
      parts := [v, upper];
    }

    method MunmapAt(i: nat, lo: nat, hi: nat) returns (ghost parts: seq<VmArea>)
      requires Tied() && i < |list| && values[i].start <= lo < hi <= values[i].end
      modifies this`list, this`values, this`nodes, nodes
      ensures Tied()
      ensures values == old(values[..i]) + Punch(old(values[i]), lo, hi) + old(values[i + 1..])
      ensures list == old(list[..i]) + parts + old(list[i + 1..])
      ensures |parts| == |Punch(old(values[i]), lo, hi)| && (parts != [] ==> parts[0] == old(list[i]))
      ensures old(nodes) <= nodes && fresh(nodes - old(nodes))
    {
      ghost var below, above := values[..i], values[i + 1..];
      var v, start, end := list[i], list[i].vmStart, list[i].vmEnd;
      if start < lo && hi < end {
        parts := SplitAt(i, lo, hi);
      } else if start < lo {
        SetNode(i, start, lo);
        parts := [v];
        assert values == below + [Area(start, lo)] + above;
      } else if hi < end {
        SetNode(i, hi, end);
        parts := [v];
        assert values == below + [Area(hi, end)] + above;
      } else {
        Remove(i);
        parts := [];
      }
    }

    /** Whether a range is free, judged by the first area that ends above its start. */
    lemma FreeIff(lo: nat, hi: nat, i: nat)
      requires Valid() && lo < hi && i <= |list|
      requires (forall k :: 0 <= k < i ==> values[k].end <= lo) && (i < |list| ==> lo < values[i].end)
      ensures (i < |list| && values[i].start < hi) <==> exists a :: lo <= a < hi && InAreas(values, a)
    {
      if i < |list| && values[i].start < hi {
        var a := if lo < values[i].start then values[i].start else lo;
        assert Contains(values[i], a);
        assert lo <= a < hi && InAreas(values, a);
      } else {
        forall a | lo <= a < hi ensures !InAreas(values, a) { BetweenAreas(values, i, a); }
      }
    }

    /** `vm_mmap` with MAP_FIXED_NOREPLACE: it fails exactly when part of the range is taken. */
    method VmMmap(lo: nat, hi: nat) returns (ok: bool, ghost at: nat)
      requires Valid() && lo < hi
      modifies this`list, this`values, this`nodes
      ensures Valid()
      ensures !ok <==> exists a :: lo <= a < hi && InAreas(old(values), a)
      ensures !ok ==> list == old(list) && values == old(values)
      ensures old(nodes) <= nodes && fresh(nodes - old(nodes))
      ensures ok ==>
                && at <= |old(list)| && |list| == |old(list)| + 1
                && list == old(list[..at]) + [list[at]] + old(list[at..])
                && values == old(values[..at]) + [Area(lo, hi)] + old(values[at..])
                && (forall k :: 0 <= k < at ==> old(values)[k].end <= lo)
                && (at < |old(list)| ==> hi <= old(values)[at].start)
    {
      var i := FindVma(lo);
      at := i;
      FreeIff(lo, hi, i);
      if i < |list| && list[i].vmStart < hi {
        ok := false;
      } else {
        ok := true;
        assert values == values[..i] + values[i..];
        InsertSorted(values[..i], values[i..], lo, hi);
        var v := Insert(i, lo, hi);
      }
    }

    /** Unmapping the piece of the area that starts the second part of the list. */
    method UnmapPiece(lo: nat, hi: nat, ghost done: seq<Area>, ghost rest: seq<Area>) returns (ghost parts: seq<VmArea>)
      requires Valid() && values == done + rest
      requires rest != [] && rest[0].start <= lo < hi <= rest[0].end
      modifies this`list, this`values, this`nodes, nodes
      ensures Valid() && values == done + Punch(rest[0], lo, hi) + rest[1..]
      ensures list == old(list[..|done|]) + parts + old(list[|done| + 1..])
      ensures |parts| == |Punch(rest[0], lo, hi)| && (parts != [] ==> parts[0] == old(list[|done|]))
      ensures old(nodes) <= nodes && fresh(nodes - old(nodes))
    {
      assert values[..|done|] == done && values[|done|] == rest[0] && values[|done| + 1..] == rest[1..];
      parts := UnmapWithin(lo, hi, |done|);
    }

    /** Mapping a piece between the two parts of the list: it never meets an area, so it does not fail. */
    method MapPiece(lo: nat, hi: nat, ghost done: seq<Area>, ghost rest: seq<Area>) returns (ok: bool, ghost v: VmArea)
      requires Valid() && values == done + rest && lo < hi
      requires forall i :: 0 <= i < |done| ==> done[i].end <= lo
      requires rest != [] ==> hi <= rest[0].start
      modifies this`list, this`values, this`nodes
      ensures ok && Valid() && values == done + [Area(lo, hi)] + rest
      ensures list == old(list[..|done|]) + [v] + old(list[|done|..])
      ensures old(nodes) <= nodes && fresh(nodes - old(nodes))
    {
      ghost var d := |done|;
      assert values[..d] == done && values[d..] == rest;
      forall a | lo <= a < hi ensures !InAreas(values, a) { GapIsFree(done, rest, lo, hi, a); }
      ghost var at;
      ok, at := VmMmap(lo, hi);
      OneGap(done, rest, lo, hi, at);
      v := list[at];
    }

    static lemma GapIsFree(done: seq<Area>, rest: seq<Area>, lo: nat, hi: nat, a: nat)
      requires Sorted(done + rest) && lo <= a < hi
      requires forall i :: 0 <= i < |done| ==> done[i].end <= lo
      requires rest != [] ==> hi <= rest[0].start
      ensures !InAreas(done + rest, a)
    {
      var areas := done + rest;
      BetweenAreas(areas, |done|, a);
    }

    /** A gap lies at one place of the list only. */
    static lemma OneGap(done: seq<Area>, rest: seq<Area>, lo: nat, hi: nat, at: nat)
      requires Sorted(done + rest) && lo < hi && at <= |done + rest|
      requires forall i :: 0 <= i < |done| ==> done[i].end <= lo
      requires rest != [] ==> hi <= rest[0].start
      requires forall k :: 0 <= k < at ==> (done + rest)[k].end <= lo
      requires at < |done + rest| ==> hi <= (done + rest)[at].start
      ensures at == |done|
    {
      var areas := done + rest;
      assert forall i :: 0 <= i < |done| ==> areas[i] == done[i] && areas[i].start < areas[i].end;
      assert rest != [] ==> areas[|done|] == rest[0] && areas[|done|].start < areas[|done|].end;
    }

    /** The operation of one iteration; the node under the iterator stays in front of what follows it. */
    method DoPiece(next: nat, ghost st: Live, anon: bool, cursor: nat, inVmas: bool, inSs: bool)
      returns (ok: bool, ops: seq<Op>)
      requires Valid() && values == st.done + st.rest
      requires cursor == st.cursor && next == NextCursor(st) && inVmas == st.inVma && inSs == st.inSs
      requires (inVmas ==> st.rest != []) && (inSs ==> st.ss != [] && anon == st.ss[0].isAnonymousPrivate)
      requires Unmaps(st) ==> st.rest[0].start <= cursor < next <= st.rest[0].end
      requires Maps(st) ==> cursor < next && (forall i :: 0 <= i < |st.done| ==> st.done[i].end <= cursor)
      requires Maps(st) && st.rest != [] ==> next <= st.rest[0].start
      modifies this`list, this`values, this`nodes, nodes
      ensures ok && ops == OpOf(st)
      ensures Valid() && values == Step(st).done + Step(st).rest && |values| == |list|
      ensures old(nodes) <= nodes && fresh(nodes - old(nodes))
      ensures st.rest != [] && !LeavesVma(st) ==> list[|Step(st).done|] == old(list[|st.done|])
      ensures LeavesVma(st) && |st.rest| > 1 ==> list[|Step(st).done|] == old(list[|st.done| + 1])
    {
      hide Tied, Sorted;
      ok, ops := true, [];
      StepList(st);
      Lengths();
      if next != cursor && inVmas && !inSs {
        ghost var parts := UnmapPiece(cursor, next, st.done, st.rest);
        ops := [Unmap(cursor, next)];
      } else if next != cursor && !inVmas && inSs {
        if anon {
          ghost var v;
          ok, v := MapPiece(cursor, next, st.done, st.rest);
          ops := [Map(cursor, next)];
        } else {
          ops := [Missing(cursor, next)];
        }
      }
      Lengths();
    }

    lemma Lengths()
      requires Tied()
      ensures |values| == |list|
      ensures forall i :: 0 <= i < |list| ==> list[i].Value() == values[i]
    {
    }

    /** The conditions of DoPiece, wherever in the loop, and what an iteration keeps. */
    lemma Iteration(st: Live, cur: seq<Area>, ss: seq<SnapVma>, ph: Phase)
      requires LoopInv(st, cur, ss, ph) && Running(st)
      ensures (st.inVma ==> st.rest != []) && (st.inSs ==> st.ss != []) && NextCursor(st) < ULONG_MAX
      ensures Unmaps(st) ==> st.rest[0].start <= st.cursor < NextCursor(st) <= st.rest[0].end
      ensures Maps(st) ==> st.cursor < NextCursor(st) && (forall i :: 0 <= i < |st.done| ==> st.done[i].end <= st.cursor)
      ensures Maps(st) && st.rest != [] ==> NextCursor(st) <= st.rest[0].start
      ensures st.rest != [] && !LeavesVma(st) ==> Step(st).rest != []
      ensures LoopInv(Step(st), cur, ss, NextPhase(st, ph))
      ensures SweepFrom(Step(st), cur, ss, NextPhase(st, ph)) == SweepFrom(st, cur, ss, ph)
      ensures 0 <= SsLeft(Step(st)) && 0 <= VmasLeft(Step(st))
      ensures SsLeft(Step(st)) < SsLeft(st) || (SsLeft(Step(st)) == SsLeft(st) && VmasLeft(Step(st)) < VmasLeft(st))
    {
      StepBounds(st, cur, ss, ph);
      StepInv(st, cur, ss, ph);
      StepTerminates(st, cur, ss, ph);
    }

    /** The node after the iterator, saved before anything is unmapped, and the iterator's next position. */
    method VmaPositions(vmaIter: VmArea?, inVmas: bool, ghost st: Live) returns (nextIter: VmArea?, pos: nat)
      requires Valid() && values == st.done + st.rest && inVmas == st.inVma
      requires if st.rest == [] then vmaIter == null else |st.done| < |list| && vmaIter == list[|st.done|]
      ensures pos == NextVmaPos(st)
      ensures |st.rest| <= 1 ==> nextIter == null
      ensures |st.rest| > 1 ==> |st.done| + 1 < |list| && nextIter == list[|st.done| + 1]
    {
      nextIter, pos := null, ULONG_MAX;
      if vmaIter != null {
        assert values[|st.done|] == st.rest[0];
        nextIter := Next(vmaIter, |st.done|);
        pos := if inVmas then vmaIter.vmEnd else vmaIter.vmStart;
      }
    }

    /** `restore_vmas` never fails, and does what Sweep says to the list. */
    method RestoreVmas(allVmas: seq<SnapVma>) returns (ok: bool, log: seq<Op>)
      requires Valid() && SweepInput(values, allVmas)
      modifies this`list, this`values, this`nodes, nodes
      ensures ok && Valid()
      ensures values == SweepTheorems.Sweep(old(values), allVmas).done
      ensures log == SweepTheorems.Sweep(old(values), allVmas).log
    {
      hide LoopInv, Tied, Sorted, SweepTheorems.Sweep, SweepFrom, NextPhase, Kept, Inserted, OpOf, Unmaps, Maps;
      hide SsLeft, VmasLeft, NextVmaPos;
      ghost var cur, st, ph := values, Start(values, allVmas), InSync(0);
      SweepStarts(cur, allVmas);
      Lengths();
      var vmaIter: VmArea? := if list == [] then null else list[0];
      var ssIter := 0;
      var cursor, inVmas, inSs := 0, false, false;
      ok, log := true, [];
      while vmaIter != null || ssIter < |allVmas|
        invariant Valid() && LoopInv(st, cur, allVmas, ph)
        invariant values == st.done + st.rest && |values| == |list|
        invariant if st.rest == [] then vmaIter == null else vmaIter == list[|st.done|]
        invariant ssIter <= |allVmas| && st.ss == allVmas[ssIter..]
        invariant ok && log == st.log && cursor == st.cursor && inVmas == st.inVma && inSs == st.inSs
        invariant SweepFrom(st, cur, allVmas, ph) == SweepTheorems.Sweep(cur, allVmas)
        invariant old(nodes) <= nodes && fresh(nodes - old(nodes))
        decreases SsLeft(st), VmasLeft(st)
      {
        Iteration(st, cur, allVmas, ph);
        var nextVmaIter, nextVmaPos := VmaPositions(vmaIter, inVmas, st);
        var nextSsPos := ULONG_MAX;
        if ssIter < |allVmas| {
          nextSsPos := if inSs then allVmas[ssIter].area.end else allVmas[ssIter].area.start;
        }
        var nextCursor := if nextVmaPos <= nextSsPos then nextVmaPos else nextSsPos;
        var ops;
        ok, ops := DoPiece(nextCursor, st, ssIter < |allVmas| && allVmas[ssIter].isAnonymousPrivate, cursor, inVmas, inSs);
        if nextCursor == nextVmaPos {
          inVmas := !inVmas;
          if !inVmas { vmaIter := nextVmaIter; }
        }
        if nextCursor == nextSsPos {
          inSs := !inSs;
          if !inSs { ssIter := ssIter + 1; }
        }
        log, cursor := log + ops, nextCursor;
        st, ph := Step(st), NextPhase(st, ph);
      }
      SweepEnds(st, cur, allVmas, ph);
    }

    // ---- The break ------------------------------------------------------------------------------

    /** Unmaps whatever lies in a range, area by area. */
    method UnmapRange(lo: nat, hi: nat)
      requires Valid()
      modifies this`list, this`values, this`nodes, nodes
      ensures Valid() && old(nodes) <= nodes && fresh(nodes - old(nodes))
      ensures forall a: nat :: InAreas(values, a) <==> InAreas(old(values), a) && !(lo <= a < hi)
    {
      var at := lo;
      var i := FindVma(lo);
      while at < hi && i < |list| && list[i].vmStart < hi
        invariant Valid() && old(nodes) <= nodes && fresh(nodes - old(nodes))
        invariant lo <= at && (at <= hi || at == lo) && 0 <= i <= |list|
        invariant (forall k :: 0 <= k < i ==> values[k].end <= at) && (i < |list| ==> at < values[i].end)
        invariant forall a: nat :: InAreas(values, a) <==> InAreas(old(values), a) && !(lo <= a < at)
        decreases hi - at
      {
        var start := if list[i].vmStart < at then at else list[i].vmStart;
        var end := if list[i].vmEnd < hi then list[i].vmEnd else hi;
        UnmapPart(i, at, start, end);
        at := end;
        i := FindVma(end);
      }
    }

    method UnmapPart(i: nat, at: nat, lo: nat, hi: nat)
      requires Valid() && i < |list| && values[i].start <= lo < hi <= values[i].end && at <= lo
      requires (forall k :: 0 <= k < i ==> values[k].end <= at) && (at < lo ==> lo == values[i].start)
      modifies this`list, this`values, this`nodes, nodes
      ensures Valid() && old(nodes) <= nodes && fresh(nodes - old(nodes))
      ensures forall a: nat :: InAreas(values, a) <==> InAreas(old(values), a) && !(at <= a < hi)
    {
      ghost var below, v, above := values[..i], values[i], values[i + 1..];
      assert values == below + [v] + above;
      forall a: nat ensures InAreas(below + Punch(v, lo, hi) + above, a) <==> InAreas(values, a) && !(at <= a < hi) {
        PunchMapped(below, v, above, lo, hi, a);
        if at <= a < lo { BetweenAreas(values, i, a); }
      }
      ghost var parts := UnmapWithin(lo, hi, i);
    }

    /** `vm_munmap`: refuses a start inside a page, and otherwise unmaps whole pages. */
    method VmMunmap(start: nat, len: nat) returns (ret: int)
      requires Valid()
      modifies this`list, this`values, this`nodes, nodes
      ensures Valid() && old(nodes) <= nodes && fresh(nodes - old(nodes))
      ensures ret == if PageAligned(start) then 0 else -22
      ensures ret < 0 ==> values == old(values)
      ensures ret == 0 ==>
                forall a: nat :: InAreas(values, a) <==> InAreas(old(values), a) && !(start <= a < start + PageAlign(len))
    {
      if !PageAligned(start) { return -22; }
      UnmapRange(start, start + PageAlign(len));
      return 0;
    }

    /** `vm_brk`: refuses a start inside a page, and otherwise maps whole pages, which here are free. */
    method VmBrk(start: nat, len: nat) returns (ret: int)
      requires Valid() && len > 0
      requires PageAligned(start) ==> forall a :: start <= a < start + PageAlign(len) ==> !InAreas(values, a)
      modifies this`list, this`values, this`nodes
      ensures Valid() && old(nodes) <= nodes && fresh(nodes - old(nodes))
      ensures ret == if PageAligned(start) then 0 else -22
      ensures ret < 0 ==> values == old(values)
      ensures ret == 0 ==>
                forall a: nat :: InAreas(values, a) <==> InAreas(old(values), a) || start <= a < start + PageAlign(len)
    {
      if !PageAligned(start) { return -22; }
      AlignFacts(len, len);
      ghost var before := values;
      ghost var at;
      var ok;
      ok, at := VmMmap(start, start + PageAlign(len));
      assert before == before[..at] + before[at..];
      forall a: nat ensures InAreas(values, a) <==> InAreas(before, a) || start <= a < start + PageAlign(len) {
        InsertMapped(before[..at], before[at..], start, start + PageAlign(len), a);
      }
      return 0;
    }

    lemma NothingInTheWay(next: nat, current: nat, saved: nat)
      requires Valid() && next <= |values| && forall k :: 0 <= k < next ==> values[k].end <= current
      requires next < |values| ==> current < values[next].end
      ensures InTheWay(values, current, saved) <==> next < |values| && values[next].start < saved + PAGE_SIZE
      ensures !InTheWay(values, current, saved) ==> forall a: nat :: current <= a < saved + PAGE_SIZE ==> !InAreas(values, a)
    {
      assert forall i :: next < i < |values| ==> values[next].start < values[i].start;
    }

    /** It succeeds exactly when the break is restorable; if not, it leaves the break and the areas alone. */
    method RestoreBrk(snapshottedBrk: nat) returns (ret: int)
      requires Valid()
      modifies this, nodes
      ensures Valid() && old(nodes) <= nodes && fresh(nodes - old(nodes))
      ensures ret == if Restorable(old(values), old(brk), snapshottedBrk) then 0 else -1
      ensures ret == 0 ==>
                && brk == snapshottedBrk
                && forall a: nat :: InAreas(values, a) <==> BrkMapped(old(values), old(brk), snapshottedBrk, a)
      ensures ret != 0 ==> brk == old(brk) && values == old(values)
    {
      hide Tied, Sorted;
      var currentBrk := brk;
      if PageAlign(currentBrk) != PageAlign(snapshottedBrk) {
        if snapshottedBrk <= currentBrk {
          AlignFacts(snapshottedBrk, currentBrk);
          var r := VmMunmap(snapshottedBrk, currentBrk - snapshottedBrk);
          if r < 0 { return -1; }
        } else {
          AlignFacts(currentBrk, snapshottedBrk);
          AlignFacts(snapshottedBrk, snapshottedBrk);
          Lengths();
          var next := FindVma(currentBrk);
          NothingInTheWay(next, currentBrk, snapshottedBrk);
          if next < |list| && snapshottedBrk + PAGE_SIZE > list[next].vmStart { return -1; }
          var r := VmBrk(currentBrk, snapshottedBrk - currentBrk);
          if r < 0 { return -1; }
        }
      }
      brk := snapshottedBrk;
      return 0;
    }
  }
}
