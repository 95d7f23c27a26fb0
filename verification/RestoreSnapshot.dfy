/**
  `restore_snapshot` on the live objects: the threads, the break, the list of areas with the page table,
  and the open files, in that order.
 */
module RestoreSnapshot {
  import opened Basics
  import opened Kernel
  import opened PageSpec
  import opened PageInvariant
  import opened PageRuns
  import opened PageLoss
  import opened PageTheorems
  import opened PageTable
  import opened PageEngine
  import opened SweepSpec
  import opened SweepLoop
  import opened SweepTheorems
  import opened SweepPages
  import opened Sweep
  import opened Brk
  import Threads
  import Files
  import FilesSpec
  import FilesTheorems
  import TasksSpec

  /** The entries that a page walk over the range of an operation meets, out of all there are. */
  function Met(entries: seq<nat>, op: Op): (met: seq<nat>)
    ensures forall p :: p in met ==> InOp(op, p)
  {
    if entries == [] then [] else (if InOp(op, entries[0]) then [entries[0]] else []) + Met(entries[1..], op)
  }

  function VisitsOf(entries: seq<nat>, log: seq<Op>): (visits: seq<seq<nat>>)
    ensures |visits| == |log| && forall i :: 0 <= i < |log| ==> visits[i] == Met(entries, log[i])
  {
    seq(|log|, i requires 0 <= i < |log| => Met(entries, log[i]))
  }

  /** The operations of the sweep on the page table, each through the unmap hook. */
  method SweepPageTable(engine: Engine, log: seq<Op>, entries: seq<nat>)
    requires engine.Valid()
    modifies engine`mem, engine`dirtyPages, engine`records, engine.pages
    ensures engine.Valid() && engine.areas == old(engine.areas)
    ensures engine.Abs() == ApplyOps(old(engine.Abs()), log, VisitsOf(entries, log))
  {
    hide Engine.RecordsOk, Table.Valid;
    ghost var start := engine.Abs();
    for i := 0 to |log|
      invariant engine.Valid()
      invariant engine.Abs() == ApplyOps(start, log[..i], VisitsOf(entries, log[..i]))
    {
      match log[i] {
        case Unmap(lo, hi) =>
          engine.DoMunmapHook(Met(entries, log[i]));
          engine.mem := UnmapRange(engine.mem, lo, hi);
        case Map(lo, hi) =>
          engine.mem := MapPages(engine.mem, Range(lo, hi), map[]);
        case Missing(_, _) =>
      }
      assert log[..i + 1][..i] == log[..i];
      assert VisitsOf(entries, log[..i + 1])[..i] == VisitsOf(entries, log[..i]);
    }
    assert log[..|log|] == log;
  }

  /** After the sweep the list of areas again describes the mapped pages. */
  lemma SweptDescribes(cur: seq<Area>, ss: seq<SnapVma>, m: Mem)
    requires SweepInput(cur, ss)
    ensures Describes(SweepTheorems.Sweep(cur, ss).done, SweepMem(m, cur, ss))
  {
    SweepIsExact(cur, ss);
    var done := SweepTheorems.Sweep(cur, ss).done;
    forall p: nat ensures InAreas(done, p) <==> p in SweepMem(m, cur, ss).mapped {
      assert InAreas(done, p) <==> Swept(cur, ss, p);
      RefilledIsCurrent(cur, ss, p);
    }
  }

  /** The sweep on the list of areas and on the page table. */
  method SweepProcess(allVmas: seq<SnapVma>, mm: Mm, engine: Engine, entries: seq<nat>, ghost o: Origin)
    requires mm.Valid() && engine.Valid() && Inv(engine.Abs(), o)
    requires Describes(mm.values, engine.mem) && SweepInput(mm.values, allVmas) && SelectedFrom(engine.areas, allVmas)
    modifies mm`list, mm`values, mm`nodes, mm.nodes, engine`mem, engine`dirtyPages, engine`records, engine.pages
    ensures mm.Valid() && engine.Valid()
    ensures engine.Abs() == State(SweepMem(old(engine.mem), old(mm.values), allVmas), old(engine.Snapshot()))
    ensures mm.values == SweepTheorems.Sweep(old(mm.values), allVmas).done
    ensures Describes(mm.values, engine.mem)
  {
    hide Engine.RecordsOk, Table.Valid, Mm.Tied, SweepTheorems.Sweep, Inv, SelectedFrom, ApplyOps, SweepMem, SweepInput;
    ghost var cur, start := mm.values, engine.Abs();
    var ok, log := mm.RestoreVmas(allVmas);
    SweepPageTable(engine, log, entries);
    SweepOnPages(start, o, cur, allVmas, VisitsOf(entries, log));
    SweptDescribes(cur, allVmas, start.mem);
  }

  /**
    `recover_memory_snapshot` on the live objects: it comes to the Recover of the run theorems, keeps the
    process' list of areas in agreement with its pages, leaves every tracked page that is mapped as it was
    taken, and on the dirty list exactly the stranded pages, clean.
   */
  method RecoverMemorySnapshot(traceMmap: bool, allVmas: seq<SnapVma>, mm: Mm, engine: Engine,
                               entries: seq<nat>, choices: Choices, ghost o: Origin)
    requires mm.Valid() && engine.Valid() && Inv(engine.Abs(), o)
    requires Describes(mm.values, engine.mem) && SweepInput(mm.values, allVmas)
    requires SelectedFrom(engine.areas, allVmas)
    modifies mm`list, mm`values, mm`nodes, mm.nodes, engine, engine.table, engine.table.buckets, engine.pages
    ensures mm.Valid() && engine.Valid()
    ensures engine.Abs() == Recover(old(engine.Abs()), Session(traceMmap, allVmas), old(mm.values), choices)
    ensures BackToOrigin(engine.Abs(), o) && Describes(mm.values, engine.mem)
    ensures forall p :: p in engine.Snapshot().dirtyList
              <==> Stranded(SweptState(old(engine.Abs()), Session(traceMmap, allVmas), old(mm.values)), p, choices)
    ensures DirtyMapped(SweptState(old(engine.Abs()), Session(traceMmap, allVmas), old(mm.values))) ==>
              Inv(engine.Abs(), o)
    ensures mm.values == if traceMmap then SweepTheorems.Sweep(old(mm.values), allVmas).done else old(mm.values)
  {
    hide Engine.RecordsOk, Table.Valid, Mm.Tied, SweepTheorems.Sweep, Inv, RecoverPages, SweepMem, ListStable;
    ghost var cur, start, s := mm.values, engine.Abs(), Session(traceMmap, allVmas);
    SweptStateInv(start, o, s, cur);
    RestoreIsExact(start, o, s, cur, choices);
    if DirtyMapped(SweptState(start, s, cur)) { RecoverPagesInv(SweptState(start, s, cur), o, choices); }
    if traceMmap {
      SweepProcess(allVmas, mm, engine, entries, o);
    }
    InvIsStable(engine.Abs(), o);
    engine.RecoverDirtyPages(choices);
  }

  // ---- The break ----------------------------------------------------------------------------------

  /** What restoring a break does to the address space, as one operation or none. */
  function BrkOps(brk: nat, saved: nat): seq<Op> {
    if PageAlign(brk) == PageAlign(saved) then []
    else if saved <= brk then [Unmap(saved, PageAlign(brk))]
    else [Map(brk, PageAlign(saved))]
  }

  /** An operation as a step of a run. */
  function StepsOf(op: Op, entries: seq<nat>): seq<Step> {
    match op
    case Unmap(lo, hi) => [DoMunmap(lo, hi, Met(entries, op))]
    case Map(lo, hi) => [DoMmap(lo, hi, map[])]
    case Missing(_, _) => []
  }

  function BrkSteps(brk: nat, saved: nat, entries: seq<nat>): seq<Step> {
    if BrkOps(brk, saved) == [] then [] else StepsOf(BrkOps(brk, saved)[0], entries)
  }

  lemma {:induction false} MetAll(entries: seq<nat>, op: Op)
    ensures forall p :: p in Met(entries, op) <==> p in entries && InOp(op, p)
  {
    if entries != [] { MetAll(entries[1..], op); }
  }

  lemma BrkRange(areas: seq<Area>, brk: nat, saved: nat)
    requires PageAlign(brk) != PageAlign(saved) && Restorable(areas, brk, saved)
    ensures PageAligned(PageAlign(brk)) && PageAligned(PageAlign(saved))
    ensures saved <= brk ==> PageAligned(saved)
    ensures brk < saved ==> PageAligned(brk) && forall a: nat :: brk <= a < PageAlign(saved) ==> !InAreas(areas, a)
  {
    AlignFacts(saved, saved);
    forall a: nat | brk < saved && brk <= a < PageAlign(saved) ensures !InAreas(areas, a) {
      forall i | 0 <= i < |areas| ensures !Contains(areas[i], a) {
        assert brk < areas[i].end && areas[i].start < saved + PAGE_SIZE ==> InTheWay(areas, brk, saved);
      }
    }
  }

  lemma OneOp(st: State, op: Op, entries: seq<nat>)
    ensures ApplyOps(st, [op], VisitsOf(entries, [op])) == ApplyOp(st, op, Met(entries, op))
  {
    assert [op][..0] == [] && VisitsOf(entries, [op])[..0] == [];
    assert ApplyOps(st, [], []) == st;
  }

  /** A restorable break is restored by a step that the run theorems know. */
  lemma BrkStepOk(st: State, s: Session, areas: seq<Area>, brk: nat, saved: nat, entries: seq<nat>)
    requires Describes(areas, st.mem) && Restorable(areas, brk, saved)
    requires forall p :: p in st.mem.ptes ==> p in entries
    ensures var steps, ops := BrkSteps(brk, saved, entries), BrkOps(brk, saved);
            && ValidRun(st, s, steps) && Run(st, s, steps) == ApplyOps(st, ops, VisitsOf(entries, ops))
            && (forall a: nat :: a in Run(st, s, steps).mem.mapped <==> BrkMapped(areas, brk, saved, a))
  {
    var steps, ops := BrkSteps(brk, saved, entries), BrkOps(brk, saved);
    if steps != [] {
      BrkRange(areas, brk, saved);
      MetAll(entries, ops[0]);
      OneOp(st, ops[0], entries);
      assert steps[1..] == [] && ops == [ops[0]];
      assert ApplyOp(st, ops[0], Met(entries, ops[0])) == Exec(st, s, steps[0]);
      assert Run(Exec(st, s, steps[0]), s, []) == Exec(st, s, steps[0]);
      if saved <= brk { UnmapHookMem(st, Met(entries, ops[0])); }
    }
  }

  lemma BoundedIff(areas: seq<Area>)
    requires Sorted(areas)
    ensures (forall k :: 0 <= k < |areas| ==> areas[k].end < ULONG_MAX)
            <==> forall a: nat :: InAreas(areas, a) ==> a + 1 < ULONG_MAX
  {
    if forall a: nat :: InAreas(areas, a) ==> a + 1 < ULONG_MAX {
      forall k | 0 <= k < |areas| ensures areas[k].end < ULONG_MAX {
        var last: nat := areas[k].end - 1;
        assert Contains(areas[k], last) && InAreas(areas, last);
      }
    }
  }

  lemma BrkBounded(areas: seq<Area>, brk: nat, saved: nat, after: seq<Area>, ss: seq<SnapVma>)
    requires SweepInput(areas, ss) && Sorted(after) && PageAlign(saved) < ULONG_MAX
    requires forall a: nat :: InAreas(after, a) ==> InAreas(areas, a) || BrkMapped(areas, brk, saved, a)
    ensures SweepInput(after, ss)
  {
    BoundedIff(areas);
    BoundedIff(after);
  }

  /** The part of `recover_state` that concerns the address space, on the list of areas and on the page table. */
  method RecoverBrk(saved: nat, mm: Mm, engine: Engine, entries: seq<nat>, ghost s: Session) returns (ret: int)
    requires mm.Valid() && engine.Valid() && Describes(mm.values, engine.mem)
    requires forall p :: p in engine.mem.ptes ==> p in entries
    modifies mm, mm.nodes, engine`mem, engine`dirtyPages, engine`records, engine.pages
    ensures mm.Valid() && engine.Valid() && Describes(mm.values, engine.mem) && engine.areas == old(engine.areas)
    ensures ret == if Restorable(old(mm.values), old(mm.brk), saved) then 0 else -1
    ensures ret == 0 ==>
              && mm.brk == saved
              && (forall a: nat :: InAreas(mm.values, a) <==> BrkMapped(old(mm.values), old(mm.brk), saved, a))
              && ValidRun(old(engine.Abs()), s, BrkSteps(old(mm.brk), saved, entries))
              && engine.Abs() == Run(old(engine.Abs()), s, BrkSteps(old(mm.brk), saved, entries))
    ensures ret != 0 ==> mm.brk == old(mm.brk) && mm.values == old(mm.values) && engine.Abs() == old(engine.Abs())
    ensures old(mm.nodes) <= mm.nodes && fresh(mm.nodes - old(mm.nodes))
  {
    hide Engine.RecordsOk, Table.Valid, Mm.Tied, ApplyOps, Restorable, Run, ValidRun;
    ghost var start, areas := engine.Abs(), mm.values;
    var ops := BrkOps(mm.brk, saved);
    ghost var brk := mm.brk;
    ret := mm.RestoreBrk(saved);
    if ret == 0 {
      SweepPageTable(engine, ops, entries);
      BrkStepOk(start, s, areas, brk, saved, entries);
    }
  }

  // ---- restore_snapshot ---------------------------------------------------------------------------

  /** After the break, and after the sweep if there is one. */
  ghost predicate AreasRestored(cur: seq<Area>, brk: nat, saved: nat, between: seq<Area>, after: seq<Area>, s: Session) {
    && (if Restorable(cur, brk, saved) then forall a: nat :: InAreas(between, a) <==> BrkMapped(cur, brk, saved, a)
        else between == cur)
    && (after == if s.traceMmap && SweepInput(between, s.allVmas) then SweepTheorems.Sweep(between, s.allVmas).done
                 else between)
  }

  /** What restoring the break leaves for the recovery of the memory. */
  lemma AfterBreak(st: State, o: Origin, s: Session, cur: seq<Area>, brk: nat, saved: nat, between: seq<Area>,
                   steps: seq<Step>, st': State, ok: bool)
    requires Inv(st, o) && SelectedFrom(st.snap.areas, s.allVmas) && SweepInput(cur, s.allVmas) && PageAlign(saved) < ULONG_MAX
    requires Sorted(between) && (!ok ==> between == cur && st' == st && steps == [])
    requires ok ==> forall a: nat :: InAreas(between, a) <==> BrkMapped(cur, brk, saved, a)
    requires ok ==> ValidRun(st, s, steps) && st' == Run(st, s, steps)
    ensures Inv(st', o) && SweepInput(between, s.allVmas) && st'.snap.areas == st.snap.areas
    ensures ValidRun(st, s, steps) && st' == Run(st, s, steps)
  {
    if ok {
      RunInv(st, o, s, steps);
      BrkBounded(cur, brk, saved, between, s.allVmas);
    }
  }

  /** The break, the sweep and the dirty pages. */
  method RestoreMemory(s: Session, saved: nat, mm: Mm, engine: Engine, entries: seq<nat>, choices: Choices,
                       ghost o: Origin)
    returns (brkRet: int, ghost between: seq<Area>)
    requires mm.Valid() && engine.Valid() && Inv(engine.Abs(), o) && Describes(mm.values, engine.mem)
    requires SweepInput(mm.values, s.allVmas) && SelectedFrom(engine.areas, s.allVmas) && PageAlign(saved) < ULONG_MAX
    requires forall p :: p in engine.mem.ptes ==> p in entries
    modifies mm, mm.nodes, engine, engine.table, engine.table.buckets, engine.pages
    ensures brkRet == if Restorable(old(mm.values), old(mm.brk), saved) then 0 else -1
    ensures mm.brk == if brkRet == 0 then saved else old(mm.brk)
    ensures mm.Valid() && AreasRestored(old(mm.values), old(mm.brk), saved, between, mm.values, s)
    ensures var steps := if brkRet == 0 then BrkSteps(old(mm.brk), saved, entries) else [];
            && ValidRun(old(engine.Abs()), s, steps)
            && engine.Abs() == Recover(Run(old(engine.Abs()), s, steps), s, between, choices)
            && (forall p :: p in engine.Snapshot().dirtyList
                  <==> Stranded(SweptState(Run(old(engine.Abs()), s, steps), s, between), p, choices))
            && (DirtyMapped(SweptState(Run(old(engine.Abs()), s, steps), s, between)) ==> Inv(engine.Abs(), o))
    ensures engine.Valid() && BackToOrigin(engine.Abs(), o) && Describes(mm.values, engine.mem)
  {
    hide Engine.RecordsOk, Table.Valid, Mm.Tied, Inv, Run, ValidRun, Restorable, Recover, BackToOrigin, SelectedFrom;
    hide SweepInput, Describes, BrkMapped, SweepTheorems.Sweep, SweptState, DirtyMapped, BrkSteps;
    ghost var start, cur, brk := engine.Abs(), mm.values, mm.brk;
    brkRet := RecoverBrk(saved, mm, engine, entries, s);
    between := mm.values;
    ghost var steps := if brkRet == 0 then BrkSteps(brk, saved, entries) else [];
    AfterBreak(start, o, s, cur, brk, saved, between, steps, engine.Abs(), brkRet == 0);
    RecoverMemorySnapshot(s.traceMmap, s.allVmas, mm, engine, entries, choices, o);
  }

  /**
    All of it.  Every visited thread but the owner is signalled; the break is restored if it can be; list of
    areas and page table go through break and sweep together; every tracked page that is mapped holds what it
    held at the take; and the files are as their own theorems say, whatever became of the rest.  The break is
    one more step of the run, so that the theorems about runs cover the next restore as well.
   */
  method RestoreSnapshot(owner: nat, s: Session, saved: nat, config: nat, group: Threads.Group, mm: Mm,
                         engine: Engine, files: Files.OpenFiles, entries: seq<nat>, choices: Choices,
                         k: FilesTheorems.Choice, ghost o: Origin)
    returns (brkRet: int, filesRet: int, ghost between: seq<Area>)
    requires group.Valid() && s.traceMmap == TasksSpec.HasFlag(config, TasksSpec.AFL_SNAPSHOT_MMAP)
    requires mm.Valid() && engine.Valid() && Inv(engine.Abs(), o) && Describes(mm.values, engine.mem)
    requires SweepInput(mm.values, s.allVmas) && SelectedFrom(engine.areas, s.allVmas) && PageAlign(saved) < ULONG_MAX
    requires forall p :: p in engine.mem.ptes ==> p in entries
    requires FilesSpec.Inv(files.Abs(), files.Snapshot())
    requires files.Snapshot().Files? ==> FilesTheorems.ChoiceOk(files.Abs(), k, files.Snapshot().table)
    modifies group`refs, group`killed, mm, mm.nodes, engine, engine.table, engine.table.buckets, engine.pages
    modifies files`tables, files`threads, files`files
    ensures group.killed == old(group.killed) + Threads.Others(owner, Threads.Visited(group.alive))
    ensures group.Valid() && group.refs == old(group.refs)
    ensures brkRet == if Restorable(old(mm.values), old(mm.brk), saved) then 0 else -1
    ensures mm.brk == if brkRet == 0 then saved else old(mm.brk)
    ensures mm.Valid() && AreasRestored(old(mm.values), old(mm.brk), saved, between, mm.values, s)
    ensures var steps := if brkRet == 0 then BrkSteps(old(mm.brk), saved, entries) else [];
            && ValidRun(old(engine.Abs()), s, steps)
            && engine.Abs() == Recover(Run(old(engine.Abs()), s, steps), s, between, choices)
            && (forall p :: p in engine.Snapshot().dirtyList
                  <==> Stranded(SweptState(Run(old(engine.Abs()), s, steps), s, between), p, choices))
            && (DirtyMapped(SweptState(Run(old(engine.Abs()), s, steps), s, between)) ==> Inv(engine.Abs(), o))
    ensures engine.Valid() && BackToOrigin(engine.Abs(), o) && Describes(mm.values, engine.mem)
    ensures (files.Abs(), filesRet)
            == FilesTheorems.RecoverFiles(old(files.Abs()), old(files.Snapshot()),
                                          TasksSpec.HasFlag(config, TasksSpec.AFL_SNAPSHOT_FDS), k)
    ensures files.Snapshot() == old(files.Snapshot())
  {
    hide Engine.RecordsOk, Table.Valid, Mm.Tied, Inv, Run, ValidRun, Restorable, Recover, BackToOrigin, SelectedFrom;
    hide SweepInput, Describes, BrkMapped, BrkSteps, AreasRestored;
    hide FilesSpec.Inv, FilesTheorems.RecoverFiles, FilesTheorems.ChoiceOk, TasksSpec.HasFlag;
    var fdsOption := TasksSpec.HasFlag(config, TasksSpec.AFL_SNAPSHOT_FDS);
    group.RecoverThreads(owner);
    brkRet, between := RestoreMemory(s, saved, mm, engine, entries, choices, o);
    filesRet := files.RecoverFilesSnapshot(fdsOption, k);
  }

  /**
    With the break restorable, MMAP on, what the run lost anonymous, nothing of the snapshot where the break
    had grown, and no area over a gap: the areas afterwards are exactly the snapshot's.
   */
  lemma AreasComeBack(cur: seq<Area>, brk: nat, saved: nat, between: seq<Area>, after: seq<Area>, s: Session)
    requires AreasRestored(cur, brk, saved, between, after, s) && Restorable(cur, brk, saved) && s.traceMmap
    requires SweepInput(between, s.allVmas) && NoRefill(between, s.allVmas) && LostIsAnonymous(cur, s.allVmas)
    requires forall a: nat :: saved <= a < PageAlign(brk) && InVmas(s.allVmas, a) ==> InAnonVmas(s.allVmas, a)
    ensures forall a: nat :: InAreas(after, a) <==> InVmas(s.allVmas, a)
  {
    BrkThenSweep(cur, brk, saved, between, s.allVmas);
  }
}
