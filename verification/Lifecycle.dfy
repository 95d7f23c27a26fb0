/**
  `take_snapshot` and `clean_snapshot` with all their stages: the record of the task, its memory, and its
  open files.  (`restore_snapshot` is in RestoreSnapshot.)
 */
module Lifecycle {
  import opened Basics
  import opened Kernel
  import opened PageSpec
  import opened PageInvariant
  import opened PageRuns
  import opened PageTable
  import opened PageEngine
  import opened SweepSpec
  import opened WalkSpec
  import opened WalkTheorems
  import opened TakeSpec
  import opened TakeWalk
  import Clean
  import Files
  import FilesSpec
  import FilesTheorems
  import Tasks
  import TasksSpec
  import TasksTheorems

  /** The walk goes by the options of the take. */
  predicate RuleAsks(rule: Rule, config: nat) {
    && rule.filter.blockOthers == TasksSpec.HasFlag(config, TasksSpec.AFL_SNAPSHOT_BLOCK)
    && rule.noStack == TasksSpec.HasFlag(config, TasksSpec.AFL_SNAPSHOT_NOSTACK)
  }

  /** The options that reach the walk are the ones asked for. */
  lemma RuleAsksIff(rule: Rule, o: TasksSpec.Options, more: nat)
    ensures RuleAsks(rule, TasksSpec.ConfigOf(o, more)) <==> rule.filter.blockOthers == o.block && rule.noStack == o.nostack
  {
    TasksSpec.OptionsRead(o, more);
    hide TasksSpec.HasFlag, TasksSpec.ConfigOf;
  }

  /** What the take asks of an address space in order to answer for it. */
  ghost predicate Answerable(rule: Rule, vmas: seq<Vma>, m: Mem) {
    && FilterAligned(rule.filter) && !Clashes(rule.filter)
    && WellFormed(m) && TablesComplete(m, Selected(rule, vmas))
  }

  /** A take leaves what the theorems about runs and the restore of a snapshot start from. */
  lemma TakeIsStart(rule: Rule, vmas: seq<Vma>, m: Mem)
    requires VmasOk(vmas) && Answerable(rule, vmas, m)
    ensures var areas, pages := AreasOf(Selected(rule, vmas)), PagesTaken(rule, vmas);
            Inv(Take(m, areas, pages), OriginOf(m, pages)) && SelectedFrom(areas, AllVmas(vmas))
  {
    TakeIsFlat(rule, vmas, m);
    SelectedFromAll(rule, vmas);
    TakeStartsInv(m, AreasOf(Selected(rule, vmas)), PagesTaken(rule, vmas));
  }

  /** What a take of an address space with memory `m` leaves. */
  ghost predicate MemoryTaken(st: State, allVmas: seq<SnapVma>, m: Mem, rule: Rule, vmas: seq<Vma>) {
    && st == Take(m, AreasOf(Selected(rule, vmas)), PagesTaken(rule, vmas)) && allVmas == AllVmas(vmas)
    && st.snap.areas == AreasOf(Selected(rule, vmas))
    && (Answerable(rule, vmas, m) ==>
          Inv(st, OriginOf(m, PagesTaken(rule, vmas))) && SelectedFrom(st.snap.areas, allVmas))
  }

  /** The memory stage of a take. */
  method TakeMemory(walker: Walker, rule: Rule, vmas: seq<Vma>) returns (allVmas: seq<SnapVma>)
    requires walker.engine.Valid() && walker.engine.Snapshot() == Snap(map[], [], []) && walker.Remembered() == NO_MEMO
    requires VmasOk(vmas) && rule.filter == walker.filter
    modifies walker, walker.engine, walker.engine.table, walker.engine.table.buckets, walker.engine.pages
    ensures walker.engine.Valid() && MemoryTaken(walker.engine.Abs(), allVmas, old(walker.engine.mem), rule, vmas)
  {
    hide Engine.RecordsOk, Table.Valid, VmasOk, Answerable, Inv, SelectedFrom, Take;
    if Answerable(rule, vmas, walker.engine.mem) { TakeIsStart(rule, vmas, walker.engine.mem); }
    allVmas := walker.TakeMemorySnapshot(rule, vmas);
  }

  /** The memory and the files as a take of `config` finds them, and what it leaves of the files. */
  ghost predicate ReadyToTake(walker: Walker, files: Files.OpenFiles, k: FilesTheorems.Choice)
    reads walker, walker.engine, walker.engine.table, walker.engine.table.buckets, walker.engine.pages
    reads files, files.offsets
  {
    && walker.engine.Valid() && walker.engine.Snapshot() == Snap(map[], [], []) && walker.Remembered() == NO_MEMO
    && FilesSpec.Inv(files.Abs(), FilesSpec.NoFiles) && files.Snapshot() == FilesSpec.NoFiles
    && FilesTheorems.ChoiceOk(files.Abs(), k, FilesTheorems.CurrentTable(files.Abs()))
  }

  ghost predicate FilesTaken(p: FilesSpec.Process, snap: FilesSpec.FilesSnap, error: int, before: FilesSpec.Process,
                             fdsOption: bool, k: FilesTheorems.Choice)
  {
    && before.current < |before.threads| && FilesTheorems.CurrentTable(before) in before.tables
    && (p, snap, error) == FilesTheorems.TakeFiles(before, FilesSpec.NoFiles, fdsOption, k)
  }

  /** The memory and file stages of a take. */
  method TakeStages(walker: Walker, rule: Rule, vmas: seq<Vma>, files: Files.OpenFiles,
                    fdsOption: bool, k: FilesTheorems.Choice)
    returns (allVmas: seq<SnapVma>, filesRet: int)
    requires ReadyToTake(walker, files, k) && VmasOk(vmas) && rule.filter == walker.filter
    modifies walker, walker.engine, walker.engine.table, walker.engine.table.buckets, walker.engine.pages, files
    ensures walker.engine.Valid() && MemoryTaken(walker.engine.Abs(), allVmas, old(walker.engine.mem), rule, vmas)
    ensures FilesTaken(files.Abs(), files.Snapshot(), filesRet, old(files.Abs()), fdsOption, k)
  {
    hide Engine.Valid, MemoryTaken, VmasOk;
    ghost var before := files.Abs();
    assert before.current < |before.threads| && before.threads[before.current] in before.tables;
    hide FilesSpec.Inv, FilesTheorems.ChoiceOk, FilesTheorems.TakeFiles;
    allVmas := TakeMemory(walker, rule, vmas);
    filesRet := files.TakeFilesSnapshot(fdsOption, k);
  }

  /** Returns 1 iff no snapshot was held, and then has taken all of it; otherwise changes neither memory nor files. */
  method TakeSnapshot(tasks: Tasks.TaskTable, t: nat, config: nat, regs: nat, brk: nat, walker: Walker,
                      rule: Rule, vmas: seq<Vma>, files: Files.OpenFiles, k: FilesTheorems.Choice)
    returns (made: int, allVmas: seq<SnapVma>, filesRet: int)
    requires tasks.Valid() && t != 0 && VmasOk(vmas)
    requires RuleAsks(rule, config) && rule.filter == walker.filter
    requires !TasksTheorems.Held(tasks.Abs(), t) ==> ReadyToTake(walker, files, k)
    modifies tasks, tasks.nodes, tasks.lastTask, tasks.lastTaskData
    modifies walker, walker.engine, walker.engine.table, walker.engine.table.buckets, walker.engine.pages, files
    ensures tasks.Valid() && (made, tasks.Abs()) == TasksSpec.TakeSnapshot(old(tasks.Abs()), t, config, regs, brk)
    ensures made == if TasksTheorems.Held(old(tasks.Abs()), t) then 0 else 1
    ensures made == 0 ==>
              && walker.engine.Abs() == old(walker.engine.Abs())
              && files.Abs() == old(files.Abs()) && files.Snapshot() == old(files.Snapshot())
    ensures made == 1 ==>
              && walker.engine.Valid()
              && MemoryTaken(walker.engine.Abs(), allVmas, old(walker.engine.mem), rule, vmas)
              && FilesTaken(files.Abs(), files.Snapshot(), filesRet, old(files.Abs()),
                            TasksSpec.HasFlag(config, TasksSpec.AFL_SNAPSHOT_FDS), k)
  {
    hide Engine.Valid, Tasks.TaskTable.Valid, MemoryTaken, FilesTaken, ReadyToTake;
    hide VmasOk, RuleAsks, TasksSpec.TakeSnapshot, TasksTheorems.Held, TasksSpec.HasFlag, TasksSpec.Inv;
    var fdsOption := TasksSpec.HasFlag(config, TasksSpec.AFL_SNAPSHOT_FDS);
    allVmas, filesRet := [], 0;
    made := tasks.TakeSnapshot(t, config, regs, brk);
    if made == 1 {
      allVmas, filesRet := TakeStages(walker, rule, vmas, files, fdsOption, k);
    }
  }

  /** The memory and file stages: areas, page records with their copies, and the table of files go, each once. */
  method CleanStages(lists: Clean.VmaLists, table: Table, files: Files.OpenFiles)
    returns (vmas: seq<Clean.SnapshotVma>, pages: seq<SnapshotPage>)
    requires lists.Valid() && table.Valid() && FilesSpec.Inv(files.Abs(), files.Snapshot())
    modifies lists, table, table.buckets, files
    ensures lists.allVmas == [] && lists.snapshottedVmas == [] && table.index == map[]
    ensures NoDup(vmas) && forall v :: v in vmas <==> v in old(lists.allVmas)
    ensures NoDup(pages) && forall sp :: sp in pages <==> Table.Holds(old(table.index), sp)
    ensures files.Snapshot() == FilesSpec.NoFiles
    ensures old(files.Snapshot()).Files? ==> files.Abs() == FilesTheorems.CleanFiles(old(files.Abs()), old(files.Snapshot()))
  {
    hide Table.Valid, FilesSpec.Inv, FilesTheorems.CleanFiles, NoDup;
    vmas, pages := lists.CleanMemorySnapshot(table);
    files.CleanFilesSnapshot();
  }

  /**
    With no record of the task nothing happens.  Otherwise both stages above run, and the record goes, which
    no cache holds any more.
   */
  method CleanSnapshot(tasks: Tasks.TaskTable, t: nat, lists: Clean.VmaLists, table: Table, files: Files.OpenFiles)
    returns (vmas: seq<Clean.SnapshotVma>, pages: seq<SnapshotPage>)
    requires tasks.Valid() && t != 0 && lists.Valid() && table.Valid() && FilesSpec.Inv(files.Abs(), files.Snapshot())
    modifies tasks`list, tasks`values, tasks`cpus, tasks.lastTask, tasks.lastTaskData
    modifies lists, table, table.buckets, files
    ensures tasks.Valid() && tasks.Abs() == TasksSpec.CleanSnapshot(old(tasks.Abs()), t)
    ensures TasksSpec.Find(tasks.values, t).None?
    ensures TasksSpec.Find(old(tasks.values), t).None? ==>
              && lists.allVmas == old(lists.allVmas) && table.index == old(table.index) && files.Abs() == old(files.Abs())
              && files.Snapshot() == old(files.Snapshot()) && vmas == [] && pages == []
    ensures TasksSpec.Find(old(tasks.values), t).Some? ==>
              && lists.allVmas == [] && lists.snapshottedVmas == [] && table.index == map[]
              && (forall v :: v in vmas <==> v in old(lists.allVmas))
              && (forall sp :: sp in pages <==> Table.Holds(old(table.index), sp))
              && NoDup(vmas) && NoDup(pages) && files.Snapshot() == FilesSpec.NoFiles
              && (old(files.Snapshot()).Files? ==>
                    files.Abs() == FilesTheorems.CleanFiles(old(files.Abs()), old(files.Snapshot())))
  {
    TasksTheorems.CleanInv(tasks.Abs(), t);
    hide Table.Valid, Table.Holds, Tasks.TaskTable.CacheTied, Tasks.TaskTable.ListTied, TasksSpec.Inv, FilesSpec.Inv;
    hide FilesTheorems.CleanFiles, TasksSpec.CleanSnapshot, TasksSpec.Find, NoDup;
    vmas, pages := [], [];
    var data, i := tasks.GetTaskData(t);
    if data != null {
      vmas, pages := CleanStages(lists, table, files);
    }
    tasks.CleanSnapshot(t);
  }
}
