/**
  The operations of a sweep carried out on the page table, unmap hook and all: they leave every
  record as it was, and come to exactly the page-level sweep that the restore theorems use.
 */
module SweepPages {
  import opened Basics
  import opened Kernel
  import opened PageSpec
  import opened PageInvariant
  import opened PageRuns
  import opened SweepSpec
  import opened SweepLoop
  import opened SweepTheorems

  /** One operation; `visited` are the entries that the hook's page walk meets. */
  function ApplyOp(st: State, op: Op, visited: seq<nat>): State {
    match op
    case Unmap(lo, hi) => Munmap(st, lo, hi, visited)
    case Map(lo, hi) => Mmap(st, lo, hi, map[])
    case Missing(_, _) => st
  }

  function ApplyOps(st: State, log: seq<Op>, visits: seq<seq<nat>>): State
    requires |visits| == |log|
  {
    if log == [] then st
    else
      var n := |log| - 1;
      ApplyOp(ApplyOps(st, log[..n], visits[..n]), log[n], visits[n])
  }

  /** A page walk over a range meets nothing outside the range. */
  ghost predicate VisitsOk(log: seq<Op>, visits: seq<seq<nat>>) {
    && |visits| == |log|
    && (forall i, p :: 0 <= i < |log| && p in visits[i] ==> InOp(log[i], p))
  }

  lemma {:induction false} UnrecordedUnmapHook(st: State, visited: seq<nat>)
    requires forall p :: p in visited ==> p !in st.snap.records
    ensures UnmapHook(st, visited) == st
    decreases |visited|
  {
    if visited != [] {
      assert visited[0] in visited;
      assert forall p :: p in visited[1..] ==> p in visited;
      UnrecordedUnmapHook(st, visited[1..]);
    }
  }

  /** The state after some of the operations. */
  ghost predicate PagesAfter(st: State, st': State, cur: seq<Area>, log: seq<Op>) {
    && st'.snap == st.snap && st'.mem.frames == st.mem.frames && st'.mem.foreign == st.mem.foreign
    && (forall p: nat :: p in st'.mem.mapped <==> Replay(cur, log, p))
    && (forall p :: p in st'.mem.ptes <==> p in st.mem.ptes && !Unmapped(log, p))
    && (forall p :: p in st'.mem.ptes ==> st'.mem.ptes[p] == st.mem.ptes[p])
    && (forall p :: p in st'.mem.files <==> p in st.mem.files && !Unmapped(log, p))
    && (forall p :: p in st'.mem.files ==> st'.mem.files[p] == st.mem.files[p])
  }

  lemma OpOnPages(st: State, st': State, cur: seq<Area>, ss: seq<SnapVma>, log: seq<Op>, op: Op, visited: seq<nat>)
    requires PagesAfter(st, st', cur, log) && LogOk(cur, ss, log) && OpOk(cur, ss, log, op)
    requires forall p :: p in st.snap.records ==> InVmas(ss, p)
    requires forall p :: p in visited ==> InOp(op, p)
    ensures PagesAfter(st, ApplyOp(st', op, visited), cur, log + [op])
  {
    var after := ApplyOp(st', op, visited);
    AppendOp(cur, ss, log, op);
    if op.Unmap? { UnrecordedUnmapHook(st', visited); }
    forall p: nat ensures p in after.mem.mapped <==> Replay(cur, log + [op], p) {
      ReplayAppend(cur, log, op, p);
      if !op.Missing? { assert p in Range(op.lo, op.hi) <==> InOp(op, p); }
    }
    if op.Unmap? { assert forall p: nat :: p in Range(op.lo, op.hi) <==> InOp(op, p); }
  }

  lemma {:induction false} OpsOnPages(st: State, cur: seq<Area>, ss: seq<SnapVma>, log: seq<Op>, visits: seq<seq<nat>>)
    requires Describes(cur, st.mem) && LogOk(cur, ss, log) && VisitsOk(log, visits)
    requires forall p :: p in st.snap.records ==> InVmas(ss, p)
    ensures PagesAfter(st, ApplyOps(st, log, visits), cur, log)
    decreases |log|
  {
    if log != [] {
      var n := |log| - 1;
      var front := log[..n];
      assert log == front + [log[n]];
      forall i | 0 <= i < |front| ensures OpOk(cur, ss, front[..i], front[i]) {
        assert front[..i] == log[..i];
      }
      OpsOnPages(st, cur, ss, front, visits[..n]);
      OpOnPages(st, ApplyOps(st, front, visits[..n]), cur, ss, front, log[n], visits[n]);
    }
  }

  /** The whole sweep, operation by operation, on the pages of a process under a snapshot. */
  lemma SweepOnPages(st: State, o: Origin, cur: seq<Area>, ss: seq<SnapVma>, visits: seq<seq<nat>>)
    requires Inv(st, o) && Describes(cur, st.mem) && SelectedFrom(st.snap.areas, ss) && SweepInput(cur, ss)
    requires VisitsOk(Sweep(cur, ss).log, visits)
    ensures ApplyOps(st, Sweep(cur, ss).log, visits) == State(SweepMem(st.mem, cur, ss), st.snap)
  {
    var end := Sweep(cur, ss);
    SweepIsExact(cur, ss);
    forall p | p in st.snap.records ensures InVmas(ss, p) {
      assert RecOk(st, o, p) && InVmas(ss, p);
    }
    OpsOnPages(st, cur, ss, end.log, visits);
    OpsAreSweep(st, ApplyOps(st, end.log, visits), cur, ss);
  }

  lemma OpsAreSweepAt(st: State, st': State, cur: seq<Area>, ss: seq<SnapVma>, p: nat)
    requires WellFormed(st.mem) && Describes(cur, st.mem) && SweepInput(cur, ss)
    requires PagesAfter(st, st', cur, Sweep(cur, ss).log)
    ensures var m := SweepMem(st.mem, cur, ss);
            && (p in st'.mem.mapped <==> p in m.mapped)
            && (p in st'.mem.ptes <==> p in m.ptes)
            && (p in st'.mem.files <==> p in m.files)
  {
    var end := Sweep(cur, ss);
    SweepIsExact(cur, ss);
    RefilledIsCurrent(cur, ss, p);
    hide Sweep, SweepInput;
    assert InAreas(end.done, p) <==> Swept(cur, ss, p);
    assert InAreas(end.done, p) <==> Replay(cur, end.log, p);
    assert Unmapped(end.log, p) <==> InAreas(cur, p) && !InVmas(ss, p);
    assert p in st.mem.ptes || p in st.mem.files ==> InAreas(cur, p);
    if Swept(cur, ss, p) { SweptBelow(cur, ss, p); }
    hide Swept, Unmapped, Replay, InAreas, InVmas, LogOk;
  }

  lemma SweptBelow(cur: seq<Area>, ss: seq<SnapVma>, p: nat)
    requires SweepInput(cur, ss) && Swept(cur, ss, p)
    ensures p < ULONG_MAX
  {
  }

  /** The state after all the operations, set by set. */
  lemma OpsAreSweep(st: State, st': State, cur: seq<Area>, ss: seq<SnapVma>)
    requires WellFormed(st.mem) && Describes(cur, st.mem) && SweepInput(cur, ss)
    requires PagesAfter(st, st', cur, Sweep(cur, ss).log)
    ensures st' == State(SweepMem(st.mem, cur, ss), st.snap)
  {
    hide Sweep, SweepInput, Describes, WellFormed, Replay, Unmapped, Swept, InVmas;
    var m := SweepMem(st.mem, cur, ss);
    forall p: nat
      ensures p in st'.mem.mapped <==> p in m.mapped
      ensures p in st'.mem.ptes <==> p in m.ptes
      ensures p in st'.mem.files <==> p in m.files
    {
      OpsAreSweepAt(st, st', cur, ss, p);
    }
    assert st'.mem.mapped == m.mapped && st'.mem.ptes == m.ptes && st'.mem.files == m.files;
  }
}
