/**
  The sweep on values, from start to end: it terminates, every operation in it is legal, and it
  leaves exactly the addresses mapped that SweepSpec describes.
 */
module SweepTheorems {
  import opened Basics
  import opened SweepSpec
  import opened SweepLoop

  // ---- What an operation does to the set of mapped addresses ------------------------------------------

  predicate InOp(op: Op, a: nat) {
    op.lo <= a < op.hi
  }

  /** The addresses mapped after a sequence of operations on the areas `cur`. */
  ghost predicate Replay(cur: seq<Area>, log: seq<Op>, a: nat)
    decreases |log|
  {
    if log == [] then InAreas(cur, a)
    else
      var op, before := log[|log| - 1], Replay(cur, log[..|log| - 1], a);
      match op
      case Unmap(_, _) => before && !InOp(op, a)
      case Map(_, _) => before || InOp(op, a)
      case Missing(_, _) => before
  }

  /** Unmapped addresses were mapped and belong to no snapshot area; mapped ones were free. */
  ghost predicate OpOk(cur: seq<Area>, all: seq<SnapVma>, before: seq<Op>, op: Op) {
    && op.lo < op.hi
    && (op.Unmap? ==> forall a :: InOp(op, a) ==> Replay(cur, before, a) && !InVmas(all, a))
    && (op.Map? ==> forall a :: InOp(op, a) ==> !Replay(cur, before, a))
  }

  ghost predicate LogOk(cur: seq<Area>, all: seq<SnapVma>, log: seq<Op>) {
    forall i :: 0 <= i < |log| ==> OpOk(cur, all, log[..i], log[i])
  }

  ghost predicate Unmapped(log: seq<Op>, a: nat) {
    exists i :: 0 <= i < |log| && log[i].Unmap? && InOp(log[i], a)
  }

  lemma AppendOp(cur: seq<Area>, all: seq<SnapVma>, log: seq<Op>, op: Op)
    requires LogOk(cur, all, log) && OpOk(cur, all, log, op)
    ensures LogOk(cur, all, log + [op])
    ensures forall a :: Unmapped(log + [op], a) <==> Unmapped(log, a) || (op.Unmap? && InOp(op, a))
  {
    var log' := log + [op];
    forall i | 0 <= i < |log'| ensures OpOk(cur, all, log'[..i], log'[i]) {
      assert log'[..i] == log[..i];
    }
    forall a ensures Unmapped(log', a) <==> Unmapped(log, a) || (op.Unmap? && InOp(op, a)) {
      if Unmapped(log, a) {
        var i :| 0 <= i < |log| && log[i].Unmap? && InOp(log[i], a);
        assert log'[i] == log[i];
      }
      if op.Unmap? && InOp(op, a) { assert log'[|log|] == op; }
    }
  }

  lemma ReplayAppend(cur: seq<Area>, log: seq<Op>, op: Op, a: nat)
    ensures Replay(cur, log + [op], a) <==>
            (match op
             case Unmap(_, _) => Replay(cur, log, a) && !InOp(op, a)
             case Map(_, _) => Replay(cur, log, a) || InOp(op, a)
             case Missing(_, _) => Replay(cur, log, a))
  {
    assert (log + [op])[..|log|] == log;
  }

  lemma InAreasConcat(x: seq<Area>, y: seq<Area>, a: nat)
    ensures InAreas(x + y, a) <==> InAreas(x, a) || InAreas(y, a)
  {
    if InAreas(x, a) {
      var i :| 0 <= i < |x| && Contains(x[i], a);
      assert (x + y)[i] == x[i];
    }
    if InAreas(y, a) {
      var i :| 0 <= i < |y| && Contains(y[i], a);
      assert (x + y)[|x| + i] == y[i];
    }
  }

  ghost predicate IsMapped(s: Live, a: nat) {
    InAreas(s.done + s.rest, a)
  }

  lemma PunchMapped(done: seq<Area>, v: Area, tail: seq<Area>, lo: nat, hi: nat, a: nat)
    requires Sorted(done + [v] + tail) && v.start <= lo < hi <= v.end
    ensures InAreas(done + Punch(v, lo, hi) + tail, a) <==> InAreas(done + [v] + tail, a) && !(lo <= a < hi)
  {
    var p := Punch(v, lo, hi);
    SortedParts(done + [v], tail);
    SortedParts(done, [v]);
    InAreasConcat(done + p, tail, a);
    InAreasConcat(done, p, a);
    InAreasConcat(done + [v], tail, a);
    InAreasConcat(done, [v], a);
    assert (done + [v])[|done|] == v;
    assert InAreas([v], a) <==> Contains(v, a) by { assert [v][0] == v; }
    assert InAreas(p, a) <==> Contains(v, a) && !(lo <= a < hi) by {
      if v.start < lo && hi < v.end { assert p[0] == Area(v.start, lo) && p[1] == Area(hi, v.end); }
      else if v.start < lo { assert p == [Area(v.start, lo)] && p[0] == Area(v.start, lo); }
      else if hi < v.end { assert p == [Area(hi, v.end)] && p[0] == Area(hi, v.end); }
    }
  }

  lemma InsertMapped(done: seq<Area>, rest: seq<Area>, lo: nat, hi: nat, a: nat)
    ensures InAreas(done + [Area(lo, hi)] + rest, a) <==> InAreas(done + rest, a) || lo <= a < hi
  {
    var piece := [Area(lo, hi)];
    InAreasConcat(done + piece, rest, a);
    InAreasConcat(done, piece, a);
    InAreasConcat(done, rest, a);
    assert piece[0] == Area(lo, hi);
  }

  /** One step maps or unmaps the piece between the old and the new cursor, or nothing. */
  lemma StepMapped(s: Live, a: nat)
    requires Sorted(s.done + s.rest) && (s.inVma ==> s.rest != [])
    requires Unmaps(s) ==> s.rest[0].start <= s.cursor < NextCursor(s) <= s.rest[0].end
    ensures IsMapped(Step(s), a) <==>
            if Unmaps(s) then IsMapped(s, a) && !(s.cursor <= a < NextCursor(s))
            else IsMapped(s, a) || (Maps(s) && s.cursor <= a < NextCursor(s))
  {
    hide InAreas, Sorted;
    StepList(s);
    if Unmaps(s) {
      assert s.done + s.rest == s.done + [s.rest[0]] + s.rest[1..];
      PunchMapped(s.done, s.rest[0], s.rest[1..], s.cursor, NextCursor(s), a);
    } else if Maps(s) {
      InsertMapped(s.done, s.rest, s.cursor, NextCursor(s), a);
    }
  }

  // ---- The flags, address by address --------------------------------------------------------------------

  lemma BetweenAreas(cur: seq<Area>, k: nat, a: nat)
    requires Sorted(cur) && k <= |cur|
    requires (k > 0 ==> cur[k - 1].end <= a) && (k < |cur| ==> a < cur[k].start)
    ensures !InAreas(cur, a)
  {
    forall i | 0 <= i < |cur| ensures !Contains(cur[i], a) {
      if i < k - 1 { assert cur[i].end <= cur[k - 1].start; }
      if k < i { assert cur[k].end <= cur[i].start; }
    }
  }

  lemma BetweenVmas(all: seq<SnapVma>, j: nat, a: nat)
    requires SortedVmas(all) && j <= |all|
    requires (j > 0 ==> all[j - 1].area.end <= a) && (j < |all| ==> a < all[j].area.start)
    ensures !InVmas(all, a)
  {
    forall i | 0 <= i < |all| ensures !Contains(all[i].area, a) {
      if i < j - 1 { assert all[i].area.end <= all[j - 1].area.start; }
      if j < i { assert all[j].area.end <= all[i].area.start; }
    }
  }

  lemma OneVma(all: seq<SnapVma>, j: nat, a: nat)
    requires SortedVmas(all) && j < |all| && Contains(all[j].area, a)
    ensures InVmas(all, a) && (InAnonVmas(all, a) <==> all[j].isAnonymousPrivate)
  {
    assert forall i :: 0 <= i < j ==> all[i].area.end <= all[j].area.start;
    assert forall i :: j < i < |all| ==> all[j].area.end <= all[i].area.start;
    assert forall i :: 0 <= i < |all| && i != j ==> !Contains(all[i].area, a);
  }

  /** On all of [cursor, next_cursor) the two flags say whether an address is in a current, or a snapshot area. */
  lemma FlagsDescribe(s: Live, cur: seq<Area>, all: seq<SnapVma>, k: nat, a: nat)
    requires Sync(s, cur, all, k) && s.cursor <= a < NextCursor(s) < ULONG_MAX
    ensures InAreas(cur, a) <==> s.inVma
    ensures InVmas(all, a) <==> s.inSs
    ensures InAnonVmas(all, a) <==> s.inSs && s.ss[0].isAnonymousPrivate
  {
    var j := SsIndex(s, all);
    if s.ss != [] { SsHead(s, all); }
    if s.inVma { assert Contains(cur[k], a); } else { BetweenAreas(cur, k, a); }
    if s.inSs { OneVma(all, j, a); } else { BetweenVmas(all, j, a); }
  }

  lemma RefilledHere(cur: seq<Area>, all: seq<SnapVma>, k: nat, j: nat, a: nat)
    requires Sorted(cur) && SortedVmas(all) && k < |cur| && Contains(cur[k], a) && j <= |all|
    requires (j > 0 ==> all[j - 1].area.end <= a) && (j < |all| ==> a < all[j].area.start)
    ensures Refilled(cur, all, a) <==>
              0 < j < |all| && Straddles(cur[k], all[j - 1], all[j]) && all[j].isAnonymousPrivate
  {
    assert forall i :: 0 <= i < k ==> cur[i].end <= cur[k].start;
    assert forall i :: k < i < |cur| ==> cur[k].end <= cur[i].start;
    assert forall i :: 0 <= i < j - 1 ==> all[i].area.end <= all[j - 1].area.start;
    assert forall i :: j < i < |all| ==> all[j].area.end <= all[i].area.start;
    assert forall i :: 0 <= i < |cur| && Contains(cur[i], a) ==> i == k;
    assert forall i :: 0 <= i < |all| - 1 && all[i].area.end <= a < all[i + 1].area.start ==> i == j - 1;
    if 0 < j < |all| && Straddles(cur[k], all[j - 1], all[j]) && all[j].isAnonymousPrivate {
      var i := j - 1;
      assert Straddles(cur[k], all[i], all[i + 1]);
    }
  }

  /** A piece about to be unmapped comes back exactly when the step splits the area before an anonymous one. */
  lemma RefilledIffSplits(s: Live, cur: seq<Area>, all: seq<SnapVma>, k: nat, a: nat)
    requires Sync(s, cur, all, k) && s.cursor <= a < NextCursor(s) < ULONG_MAX && s.inVma && !s.inSs
    ensures Refilled(cur, all, a) <==> Splits(s) && s.ss[0].isAnonymousPrivate
  {
    if s.ss != [] { SsHead(s, all); }
    RefilledHere(cur, all, k, SsIndex(s, all), a);
  }

  // ---- The loop -------------------------------------------------------------------------------------------

  /** Where the loop is; `k` counts the current areas left behind, `c` is where the gap just cut starts. */
  datatype Phase = InSync(k: nat) | IsBehind(k: nat, c: nat) | IsBack(k: nat, c: nat)

  ghost predicate At(s: Live, cur: seq<Area>, all: seq<SnapVma>, ph: Phase) {
    match ph
    case InSync(k) => Sync(s, cur, all, k)
    case IsBehind(k, c) => Behind(s, cur, all, k, c)
    case IsBack(k, c) => SteppedBack(s, cur, all, k, c)
  }

  /** Below this address the outcome is settled, but for the gap [`SettledTo`, `Frontier`) of a split. */
  ghost function Frontier(s: Live, ph: Phase): nat {
    if ph.InSync? || s.ss == [] then s.cursor else s.ss[0].area.start
  }

  ghost function SettledTo(s: Live, ph: Phase): nat {
    if ph.InSync? then s.cursor else ph.c
  }

  ghost predicate Covers(s: Live, cur: seq<Area>, all: seq<SnapVma>, ph: Phase, a: nat) {
    && (IsMapped(s, a) <==>
          if a < SettledTo(s, ph) then Swept(cur, all, a) else a >= Frontier(s, ph) && InAreas(cur, a))
    && (Unmapped(s.log, a) <==> a < Frontier(s, ph) && InAreas(cur, a) && !InVmas(all, a))
  }

  ghost predicate LoopInv(s: Live, cur: seq<Area>, all: seq<SnapVma>, ph: Phase) {
    && At(s, cur, all, ph)
    && LogOk(cur, all, s.log)
    && (forall a :: Covers(s, cur, all, ph, a))
    && (forall a :: IsMapped(s, a) <==> Replay(cur, s.log, a))
  }

  predicate Running(s: Live) {
    s.rest != [] || s.ss != []
  }

  ghost function NextPhase(s: Live, ph: Phase): Phase {
    match ph
    case InSync(k) => if Splits(s) then IsBehind(k, s.cursor) else InSync(if LeavesVma(s) then k + 1 else k)
    case IsBehind(k, c) => IsBack(k, c)
    case IsBack(k, _) => InSync(k)
  }

  lemma PhaseStep(s: Live, cur: seq<Area>, all: seq<SnapVma>, ph: Phase)
    requires At(s, cur, all, ph) && Running(s)
    ensures At(Step(s), cur, all, NextPhase(s, ph))
  {
    hide Sync, Behind, SteppedBack, Step, Splits, LeavesVma;
    match ph
    case InSync(k) => if Splits(s) { SplitStep(s, cur, all, k); } else { SyncStep(s, cur, all, k); }
    case IsBehind(k, c) => BehindStep(s, cur, all, k, c);
    case IsBack(k, c) => SteppedBackStep(s, cur, all, k, c);
  }

  /** What the operation of a step acts on, in each phase. */
  lemma StepBounds(s: Live, cur: seq<Area>, all: seq<SnapVma>, ph: Phase)
    requires At(s, cur, all, ph) && Running(s)
    ensures Sorted(s.done + s.rest) && (s.inVma ==> s.rest != [])
    ensures NextCursor(s) < ULONG_MAX
    ensures Unmaps(s) ==> ph.InSync? && s.rest[0].start <= s.cursor < NextCursor(s) <= s.rest[0].end
    ensures Maps(s) ==> s.cursor < NextCursor(s)
    ensures Misses(s) ==> s.cursor < NextCursor(s)
    ensures ph.InSync? ==> s.cursor <= NextCursor(s)
    ensures ph.IsBehind? ==> NextCursor(s) == ph.c && !Maps(s) && !Misses(s) && !Splits(s)
    ensures ph.IsBack? ==> s.cursor == ph.c && NextCursor(s) == s.ss[0].area.start
  {
    match ph
    case InSync(k) => SyncAdvances(s, cur, all, k);
    case IsBehind(k, c) => BehindStep(s, cur, all, k, c);
    case IsBack(k, c) => SteppedBackStep(s, cur, all, k, c); SsHead(s, all);
  }

  lemma SyncCovers(s: Live, cur: seq<Area>, all: seq<SnapVma>, ph: Phase, a: nat)
    requires At(s, cur, all, ph) && Running(s) && ph.InSync? && Covers(s, cur, all, ph, a)
    requires Unmapped(Step(s).log, a) <==> Unmapped(s.log, a) || (Unmaps(s) && s.cursor <= a < NextCursor(s))
    ensures Covers(Step(s), cur, all, NextPhase(s, ph), a)
  {
    StepBounds(s, cur, all, ph);
    StepMapped(s, a);
    if s.cursor <= a < NextCursor(s) {
      FlagsDescribe(s, cur, all, ph.k, a);
      if s.inVma && !s.inSs { RefilledIffSplits(s, cur, all, ph.k, a); }
      RefilledIsCurrent(cur, all, a);
    }
    if Splits(s) { SplitStep(s, cur, all, ph.k); }
  }

  lemma RefilledIsCurrent(cur: seq<Area>, all: seq<SnapVma>, a: nat)
    requires SortedVmas(all)
    ensures Refilled(cur, all, a) ==> InAreas(cur, a) && !InVmas(all, a)
  {
    if Refilled(cur, all, a) {
      RefilledIsOutside(cur, all, a);
      var k, j :| 0 <= k < |cur| && 0 <= j < |all| - 1 && Straddles(cur[k], all[j], all[j + 1])
        && all[j].area.end <= a < all[j + 1].area.start;
      assert Contains(cur[k], a);
    }
  }

  /** While a split is caught up with, only the gap is still to be settled. */
  lemma SplitFrontiers(s: Live, cur: seq<Area>, all: seq<SnapVma>, ph: Phase)
    requires At(s, cur, all, ph) && Running(s) && !ph.InSync?
    ensures s.ss != [] && !Unmaps(s) && Frontier(s, ph) == s.ss[0].area.start && SettledTo(s, ph) == ph.c
    ensures Frontier(Step(s), NextPhase(s, ph)) == Frontier(s, ph)
    ensures ph.IsBehind? ==> !Maps(s) && SettledTo(Step(s), NextPhase(s, ph)) == ph.c
    ensures ph.IsBack? ==> SettledTo(Step(s), NextPhase(s, ph)) == NextCursor(s) == Frontier(s, ph) && s.cursor == ph.c
    ensures ph.IsBack? ==> (Maps(s) <==> s.ss[0].isAnonymousPrivate)
  {
    StepBounds(s, cur, all, ph);
    PhaseStep(s, cur, all, ph);
    SsHead(s, all);
    hide Sorted, SortedVmas, Kept, Inserted, OpOf, Shape;
  }

  lemma SplitGap(s: Live, cur: seq<Area>, all: seq<SnapVma>, ph: Phase, a: nat)
    requires At(s, cur, all, ph) && !ph.InSync? && s.ss != [] && ph.c <= a < s.ss[0].area.start
    ensures InAreas(cur, a) && !InVmas(all, a) && (Refilled(cur, all, a) <==> s.ss[0].isAnonymousPrivate)
  {
    var j := SsIndex(s, all);
    SsHead(s, all);
    assert Contains(cur[ph.k], a);
    RefilledHere(cur, all, ph.k, j, a);
    GapIsOutside(all, j - 1, a);
  }

  /** The gap that was cut is mapped again when the area after it is anonymous: the sweep's own undoing. */
  lemma SplitCovers(s: Live, cur: seq<Area>, all: seq<SnapVma>, ph: Phase, a: nat)
    requires At(s, cur, all, ph) && Running(s) && !ph.InSync? && Covers(s, cur, all, ph, a)
    requires Unmapped(Step(s).log, a) <==> Unmapped(s.log, a)
    ensures Covers(Step(s), cur, all, NextPhase(s, ph), a)
  {
    StepBounds(s, cur, all, ph);
    StepMapped(s, a);
    SplitFrontiers(s, cur, all, ph);
    if ph.c <= a < s.ss[0].area.start { SplitGap(s, cur, all, ph, a); }
    hide At, Frontier, SettledTo, NextPhase, Step, NextCursor, Maps, Unmaps, Running, IsMapped, Unmapped;
    hide InAreas, InVmas, InAnonVmas, Refilled, Sorted;
  }

  lemma ReplayStep(s: Live, cur: seq<Area>, all: seq<SnapVma>, ph: Phase, a: nat)
    requires At(s, cur, all, ph) && Running(s) && (IsMapped(s, a) <==> Replay(cur, s.log, a))
    ensures IsMapped(Step(s), a) <==> Replay(cur, Step(s).log, a)
  {
    hide IsMapped;
    StepBounds(s, cur, all, ph);
    StepMapped(s, a);
    if OpOf(s) == [] {
      assert s.log + [] == s.log;
    } else {
      ReplayAppend(cur, s.log, OpOf(s)[0], a);
    }
  }

  lemma LogStep(s: Live, cur: seq<Area>, all: seq<SnapVma>, ph: Phase)
    requires LoopInv(s, cur, all, ph) && Running(s)
    ensures LogOk(cur, all, Step(s).log)
    ensures forall a: nat :: Unmapped(Step(s).log, a) <==> Unmapped(s.log, a) || (Unmaps(s) && s.cursor <= a < NextCursor(s))
    ensures forall a :: IsMapped(Step(s), a) <==> Replay(cur, Step(s).log, a)
  {
    forall a ensures IsMapped(Step(s), a) <==> Replay(cur, Step(s).log, a) {
      ReplayStep(s, cur, all, ph, a);
    }
    if OpOf(s) == [] {
      assert s.log + [] == s.log;
    } else {
      PieceOk(s, cur, all, ph);
      hide LogOk, Unmapped;
      AppendOp(cur, all, s.log, OpOf(s)[0]);
    }
  }

  /** Every piece is legal: what is unmapped is mapped and no snapshot area's, what is mapped is free. */
  lemma PieceOk(s: Live, cur: seq<Area>, all: seq<SnapVma>, ph: Phase)
    requires LoopInv(s, cur, all, ph) && Running(s) && OpOf(s) != []
    ensures OpOk(cur, all, s.log, OpOf(s)[0])
  {
    StepBounds(s, cur, all, ph);
    var op := OpOf(s)[0];
    forall a | InOp(op, a)
      ensures op.Unmap? ==> Replay(cur, s.log, a) && !InVmas(all, a)
      ensures op.Map? ==> !Replay(cur, s.log, a)
    {
      assert Covers(s, cur, all, ph, a);
      if ph.InSync? { FlagsDescribe(s, cur, all, ph.k, a); }
    }
  }

  lemma StepInv(s: Live, cur: seq<Area>, all: seq<SnapVma>, ph: Phase)
    requires LoopInv(s, cur, all, ph) && Running(s)
    ensures LoopInv(Step(s), cur, all, NextPhase(s, ph))
  {
    PhaseStep(s, cur, all, ph);
    LogStep(s, cur, all, ph);
    forall a ensures Covers(Step(s), cur, all, NextPhase(s, ph), a) {
      assert Covers(s, cur, all, ph, a);
      if ph.InSync? { SyncCovers(s, cur, all, ph, a); } else { SplitCovers(s, cur, all, ph, a); }
    }
  }

  // ---- Termination ----------------------------------------------------------------------------------------

  function SsLeft(s: Live): int {
    2 * |s.ss| - (if s.inSs then 1 else 0)
  }

  function VmasLeft(s: Live): int {
    2 * |s.rest| - (if s.inVma then 1 else 0)
  }

  /**
    Each iteration, even an empty one where areas touch, gets further in the snapshot's list or, without
    moving in it, further in the current list, although a split lengthens the current list.
   */
  lemma StepTerminates(s: Live, cur: seq<Area>, all: seq<SnapVma>, ph: Phase)
    requires At(s, cur, all, ph) && Running(s)
    ensures 0 <= SsLeft(Step(s)) && 0 <= VmasLeft(Step(s))
    ensures SsLeft(Step(s)) < SsLeft(s) || (SsLeft(Step(s)) == SsLeft(s) && VmasLeft(Step(s)) < VmasLeft(s))
  {
    PhaseStep(s, cur, all, ph);
    StepBounds(s, cur, all, ph);
  }

  // ---- The whole sweep --------------------------------------------------------------------------------------

  function Start(cur: seq<Area>, ss: seq<SnapVma>): Live {
    Live([], cur, ss, false, false, 0, [])
  }

  ghost function SweepFrom(s: Live, cur: seq<Area>, all: seq<SnapVma>, ph: Phase): Live
    requires LoopInv(s, cur, all, ph)
    decreases SsLeft(s), VmasLeft(s)
  {
    if !Running(s) then s
    else
      StepInv(s, cur, all, ph);
      StepTerminates(s, cur, all, ph);
      SweepFrom(Step(s), cur, all, NextPhase(s, ph))
  }

  ghost predicate SweepInput(cur: seq<Area>, ss: seq<SnapVma>) {
    Sorted(cur) && SortedVmas(ss) && Bounded(cur, ss)
  }

  lemma StartInv(cur: seq<Area>, ss: seq<SnapVma>)
    requires SweepInput(cur, ss)
    ensures LoopInv(Start(cur, ss), cur, ss, InSync(0))
  {
    var s := Start(cur, ss);
    assert s.done + s.rest == cur;
    assert ss[|ss| - |s.ss|..] == ss && cur[0..] == cur;
  }

  /** `restore_vmas`: the areas it leaves and the operations it makes. */
  ghost function Sweep(cur: seq<Area>, ss: seq<SnapVma>): Live
    requires SweepInput(cur, ss)
  {
    StartInv(cur, ss);
    SweepFrom(Start(cur, ss), cur, ss, InSync(0))
  }

  lemma SweepStarts(cur: seq<Area>, ss: seq<SnapVma>)
    requires SweepInput(cur, ss)
    ensures LoopInv(Start(cur, ss), cur, ss, InSync(0))
    ensures Sweep(cur, ss) == SweepFrom(Start(cur, ss), cur, ss, InSync(0))
  {
    StartInv(cur, ss);
  }

  lemma SweepEnds(s: Live, cur: seq<Area>, all: seq<SnapVma>, ph: Phase)
    requires LoopInv(s, cur, all, ph) && !Running(s)
    ensures SweepFrom(s, cur, all, ph) == s && s.done + s.rest == s.done
  {
  }

  /** When the loop ends everything is settled. */
  lemma EndIsSettled(s: Live, cur: seq<Area>, all: seq<SnapVma>, ph: Phase, a: nat)
    requires LoopInv(s, cur, all, ph) && !Running(s)
    ensures ph.InSync? && s.done + s.rest == s.done
    ensures InAreas(s.done, a) <==> Swept(cur, all, a)
    ensures Unmapped(s.log, a) <==> InAreas(cur, a) && !InVmas(all, a)
  {
    assert Covers(s, cur, all, ph, a);
    assert s.done + s.rest == s.done;
    if a >= s.cursor {
      BetweenAreas(cur, |cur|, a);
      BetweenVmas(all, |all|, a);
      RefilledIsCurrent(cur, all, a);
    }
  }

  lemma {:induction false} SweepFromIsExact(s: Live, cur: seq<Area>, all: seq<SnapVma>, ph: Phase)
    requires LoopInv(s, cur, all, ph)
    ensures var end := SweepFrom(s, cur, all, ph);
            && Sorted(end.done) && LogOk(cur, all, end.log)
            && (forall a :: InAreas(end.done, a) <==> Swept(cur, all, a))
            && (forall a :: InAreas(end.done, a) <==> Replay(cur, end.log, a))
            && (forall a :: Unmapped(end.log, a) <==> InAreas(cur, a) && !InVmas(all, a))
    decreases SsLeft(s), VmasLeft(s)
  {
    if Running(s) {
      StepInv(s, cur, all, ph);
      StepTerminates(s, cur, all, ph);
      SweepFromIsExact(Step(s), cur, all, NextPhase(s, ph));
    } else {
      EndIsSettled(s, cur, all, ph, 0);
      forall a ensures (InAreas(s.done, a) <==> Swept(cur, all, a)) && (InAreas(s.done, a) <==> Replay(cur, s.log, a))
        ensures Unmapped(s.log, a) <==> InAreas(cur, a) && !InVmas(all, a)
      {
        EndIsSettled(s, cur, all, ph, a);
      }
    }
  }

  /**
    For any two sorted lists of disjoint areas, touching or not: the sweep ends; it unmaps exactly what is
    mapped outside the snapshot's areas, maps only free addresses, and leaves mapped exactly what Swept says.
   */
  lemma SweepIsExact(cur: seq<Area>, ss: seq<SnapVma>)
    requires SweepInput(cur, ss)
    ensures var end := Sweep(cur, ss);
            && Sorted(end.done) && LogOk(cur, ss, end.log)
            && (forall a :: InAreas(end.done, a) <==> Swept(cur, ss, a))
            && (forall a :: InAreas(end.done, a) <==> Replay(cur, end.log, a))
            && (forall a :: Unmapped(end.log, a) <==> InAreas(cur, a) && !InVmas(ss, a))
  {
    StartInv(cur, ss);
    SweepFromIsExact(Start(cur, ss), cur, ss, InSync(0));
  }

  /** The sweep yields the wanted set iff no current area fills a gap, reaching past it on both sides, before an anonymous area. */
  lemma SweepRestoresIff(cur: seq<Area>, ss: seq<SnapVma>)
    requires SweepInput(cur, ss)
    ensures (forall a: nat :: InAreas(Sweep(cur, ss).done, a) <==> Wanted(cur, ss, a)) <==> NoRefill(cur, ss)
  {
    SweepIsExact(cur, ss);
    SweptIsWantedIff(cur, ss);
    var end := Sweep(cur, ss).done;
    assert (forall a: nat :: Swept(cur, ss, a) <==> Wanted(cur, ss, a))
           <==> (forall a: nat :: InAreas(end, a) <==> Wanted(cur, ss, a));
  }

  /** A filled gap: two anonymous areas of the snapshot, and one current area over both and the gap between. */
  lemma FilledGapStaysMapped(lo: nat, a: nat, b: nat, hi: nat)
    requires lo < a < b < hi < ULONG_MAX
    ensures var cur, ss := [Area(lo, hi)], [SnapVma(Area(lo, a), true), SnapVma(Area(b, hi), true)];
            && SweepInput(cur, ss) && !NoRefill(cur, ss)
            && forall x :: a <= x < b ==> InAreas(Sweep(cur, ss).done, x) && !InVmas(ss, x)
  {
    var cur, ss := [Area(lo, hi)], [SnapVma(Area(lo, a), true), SnapVma(Area(b, hi), true)];
    assert Straddles(cur[0], ss[0], ss[1]);
    SweepIsExact(cur, ss);
    forall x | a <= x < b ensures InAreas(Sweep(cur, ss).done, x) && !InVmas(ss, x) {
      assert Refilled(cur, ss, x) by { var j := 0; assert Straddles(cur[0], ss[j], ss[j + 1]); }
      RefilledIsOutside(cur, ss, x);
    }
  }

  // ---- The pieces --------------------------------------------------------------------------------------------

  /** The pieces mapped and unmapped come in the order of their addresses, without overlap, up to `end`. */
  ghost predicate Ordered(log: seq<Op>, end: nat) {
    && (forall i :: 0 <= i < |log| && !log[i].Missing? ==> log[i].hi <= end)
    && (forall i, j :: 0 <= i < j < |log| && !log[i].Missing? && !log[j].Missing? ==> log[i].hi <= log[j].lo)
  }

  lemma OrderedAppend(log: seq<Op>, end: nat, op: Op, end': nat)
    requires Ordered(log, end) && end <= op.lo && op.hi <= end' && op.lo < op.hi
    ensures Ordered(log + [op], end')
  {
  }

  lemma OrderedMissing(log: seq<Op>, end: nat, op: Op, end': nat)
    requires Ordered(log, end) && end <= end' && op.Missing?
    ensures Ordered(log + [op], end')
  {
  }

  /** The operation of a step lies between the frontiers before and after it. */
  lemma FrontierStep(s: Live, cur: seq<Area>, all: seq<SnapVma>, ph: Phase)
    requires At(s, cur, all, ph) && Running(s) && NoRefill(cur, all)
    ensures Frontier(s, ph) <= Frontier(Step(s), NextPhase(s, ph))
    ensures Maps(s) || Unmaps(s) ==>
              Frontier(s, ph) <= s.cursor < NextCursor(s) <= Frontier(Step(s), NextPhase(s, ph))
  {
    hide Sorted, SortedVmas, OpOf, Kept, Inserted;
    StepBounds(s, cur, all, ph);
    PhaseStep(s, cur, all, ph);
    if !ph.InSync? { NotAnonymousBehind(s, cur, all, ph); }
  }

  /** Where a split is caught up with and nothing is refilled, the next area is not anonymous. */
  lemma NotAnonymousBehind(s: Live, cur: seq<Area>, all: seq<SnapVma>, ph: Phase)
    requires At(s, cur, all, ph) && NoRefill(cur, all) && !ph.InSync?
    ensures s.ss != [] && !s.ss[0].isAnonymousPrivate
  {
    SsHead(s, all);
    var j := SsIndex(s, all) - 1;
    assert Straddles(cur[ph.k], all[j], all[j + 1]);
  }

  lemma OrderedStep(s: Live, cur: seq<Area>, all: seq<SnapVma>, ph: Phase)
    requires At(s, cur, all, ph) && Running(s) && NoRefill(cur, all) && Ordered(s.log, Frontier(s, ph))
    ensures Ordered(Step(s).log, Frontier(Step(s), NextPhase(s, ph)))
  {
    FrontierStep(s, cur, all, ph);
    StepBounds(s, cur, all, ph);
    StepLog(s);
    var front, front' := Frontier(s, ph), Frontier(Step(s), NextPhase(s, ph));
    hide At, NoRefill, Step, NextPhase, Frontier, Ordered, NextCursor, Sorted;
    if OpOf(s) == [] {
      assert s.log + [] == s.log;
      OrderedWiden(s.log, front, front');
    } else if Misses(s) {
      OrderedMissing(s.log, front, OpOf(s)[0], front');
    } else {
      OrderedAppend(s.log, front, OpOf(s)[0], front');
    }
  }

  lemma StepLog(s: Live)
    ensures Step(s).log == s.log + OpOf(s)
    ensures OpOf(s) != [] ==> OpOf(s) == [OpOf(s)[0]]
  {
  }

  lemma OrderedWiden(log: seq<Op>, end: nat, end': nat)
    requires Ordered(log, end) && end <= end'
    ensures Ordered(log, end')
  {
  }

  lemma {:induction false} OrderedSweep(s: Live, cur: seq<Area>, all: seq<SnapVma>, ph: Phase)
    requires LoopInv(s, cur, all, ph) && NoRefill(cur, all) && Ordered(s.log, Frontier(s, ph))
    ensures Ordered(SweepFrom(s, cur, all, ph).log, ULONG_MAX)
    decreases SsLeft(s), VmasLeft(s)
  {
    if Running(s) {
      StepInv(s, cur, all, ph);
      StepTerminates(s, cur, all, ph);
      OrderedStep(s, cur, all, ph);
      OrderedSweep(Step(s), cur, all, NextPhase(s, ph));
    } else {
      EndIsSettled(s, cur, all, ph, 0);
    }
  }

  /** An address that was unmapped and is mapped at the end lies in two pieces. */
  lemma {:induction false} RemappedTwice(cur: seq<Area>, log: seq<Op>, a: nat)
    requires Unmapped(log, a) && Replay(cur, log, a)
    ensures exists i, j :: 0 <= i < j < |log| && log[i].Unmap? && log[j].Map? && InOp(log[i], a) && InOp(log[j], a)
    decreases |log|
  {
    var n := |log| - 1;
    var front := log[..n];
    var i :| 0 <= i < |log| && log[i].Unmap? && InOp(log[i], a);
    assert i < n && front[i] == log[i];
    if !(log[n].Map? && InOp(log[n], a)) {
      RemappedTwice(cur, front, a);
      var k, j :| 0 <= k < j < n && front[k].Unmap? && front[j].Map? && InOp(front[k], a) && InOp(front[j], a);
      assert log[k] == front[k] && log[j] == front[j];
    }
  }

  /** A filled gap is unmapped and mapped again: two pieces that overlap. */
  lemma FilledGapOverlaps(cur: seq<Area>, ss: seq<SnapVma>, end: Live, k: nat, j: nat)
    requires SweepInput(cur, ss) && end == Sweep(cur, ss)
    requires k < |cur| && j < |ss| - 1 && Straddles(cur[k], ss[j], ss[j + 1]) && ss[j + 1].isAnonymousPrivate
    ensures !Ordered(end.log, ULONG_MAX)
  {
    hide Sweep;
    var a := ss[j].area.end;
    SweepIsExact(cur, ss);
    RefilledIsCurrent(cur, ss, a);
    assert InAreas(end.done, a) <==> Swept(cur, ss, a);
    RemappedTwice(cur, end.log, a);
  }

  /** The pieces are pairwise disjoint and in order iff no filled gap is mapped again. */
  lemma PiecesDisjointIff(cur: seq<Area>, ss: seq<SnapVma>)
    requires SweepInput(cur, ss)
    ensures Ordered(Sweep(cur, ss).log, ULONG_MAX) <==> NoRefill(cur, ss)
  {
    hide LoopInv, SweepFrom, Sweep, Straddles;
    if NoRefill(cur, ss) {
      SweepStarts(cur, ss);
      OrderedSweep(Start(cur, ss), cur, ss, InSync(0));
    } else {
      var k, j :| 0 <= k < |cur| && 0 <= j < |ss| - 1 && Straddles(cur[k], ss[j], ss[j + 1]) && ss[j + 1].isAnonymousPrivate;
      FilledGapOverlaps(cur, ss, Sweep(cur, ss), k, j);
    }
  }
}
