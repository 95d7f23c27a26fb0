/**
  Taking, recovering and cleaning the open-file snapshot, over whole runs of a process.
 */
module FilesTheorems {
  import opened FilesSpec

  // ---- Taking ---------------------------------------------------------------------------------------------

  function CurrentTable(p: Process): nat
    requires p.current < |p.threads|
  {
    p.threads[p.current]
  }

  /** `dup_fd` of table `id` into a new table. */
  function DupInto(p: Process, id: nat, newId: nat, maxFds: nat): Process
    requires id in p.tables
  {
    Process(p.tables[newId := DupTable(p.tables[id], maxFds)], p.threads, p.current, p.files)
  }

  function Put(p: Process, id: nat): Process {
    Process(PutTable(p.tables, id), p.threads, p.current, p.files)
  }

  /** What the kernel decides in a call: whether its allocations succeed, and the table `dup_fd` makes. */
  datatype Choice = Choice(dupOk: bool, allocOk: bool, newId: nat, maxFds: nat)

  /** A table of `dup_fd` is new, and has room for every descriptor that is open in its model. */
  ghost predicate ChoiceOk(p: Process, k: Choice, id: nat) {
    && k.newId !in p.tables && k.newId !in p.threads
    && (id in p.tables ==> forall fd :: fd in p.tables[id].fds ==> fd < k.maxFds)
  }

  /** `take_files_snapshot`: the process and the snapshot afterwards, and the result. */
  function TakeFiles(p: Process, snap: FilesSnap, fdsOption: bool, k: Choice): (Process, FilesSnap, int)
    requires p.current < |p.threads| && CurrentTable(p) in p.tables
  {
    if !fdsOption then (p, NoFiles, 0)
    else if !k.dupOk then (p, snap, ENOMEM)
    else
      var dup := DupInto(p, CurrentTable(p), k.newId, k.maxFds);
      if !k.allocOk then (Put(dup, k.newId), snap, ENOMEM)
      else (dup, Files(k.newId, SavedOffsets(p.tables[CurrentTable(p)].fds, p.files, k.maxFds)), 0)
  }

  /** The position of each open file, as a seek would tell it. */
  ghost function Positions(p: Process): map<nat, int> {
    map f | f in p.files :: Tell(p.files[f])
  }

  /** The offsets are the files' own positions, or negative where there is none. */
  ghost predicate PositionsSaved(fds: map<nat, nat>, files: map<nat, File>, offsets: seq<int>) {
    forall fd :: fd in fds && fds[fd] in files && fd < |offsets| ==>
      if files[fds[fd]].kind.NoSeek? then offsets[fd] < 0 else offsets[fd] == files[fds[fd]].pos
  }

  lemma SavedPositions(fds: map<nat, nat>, files: map<nat, File>, n: nat)
    ensures PositionsSaved(fds, files, SavedOffsets(fds, files, n))
  {
    forall fd | fd in fds && fds[fd] in files && fd < n
      ensures var saved := SavedOffsets(fds, files, n)[fd];
              if files[fds[fd]].kind.NoSeek? then saved < 0 else saved == files[fds[fd]].pos
    {
      SavedPosition(fds, files, n, fd);
    }
  }

  lemma DupCounted(p: Process, snap: FilesSnap, id: nat, newId: nat, maxFds: nat)
    requires Counted(p, snap, multiset{}) && id in p.tables && newId !in p.tables
    requires snap.Files? ==> snap.table != newId
    ensures Counted(DupInto(p, id, newId, maxFds), snap, multiset{newId})
  {
    assert newId !in p.threads;
  }

  /**
    Taking keeps every count right, on success and on failure; on success the snapshot has the caller's
    descriptors and, of every file that can be sought, the position.
   */
  lemma TakeFilesOk(p: Process, snap: FilesSnap, fdsOption: bool, k: Choice)
    requires Inv(p, snap) && snap == NoFiles && ChoiceOk(p, k, CurrentTable(p))
    ensures var (p', snap', error) := TakeFiles(p, snap, fdsOption, k);
            && Inv(p', snap') && p'.threads == p.threads && p'.files == p.files
            && (snap'.Files? <==> fdsOption && error == 0)
            && (error != 0 ==> p' == p)
            && (snap'.Files? ==>
                  && p'.tables[snap'.table].fds == p.tables[CurrentTable(p)].fds
                  && OffsetsAgree(p.tables[CurrentTable(p)].fds, snap'.offsets, Positions(p))
                  && PositionsSaved(p.tables[CurrentTable(p)].fds, p.files, snap'.offsets))
  {
    if fdsOption && k.dupOk {
      var dup := DupInto(p, CurrentTable(p), k.newId, k.maxFds);
      DupCounted(p, snap, CurrentTable(p), k.newId, k.maxFds);
      if k.allocOk {
        var fds := p.tables[CurrentTable(p)].fds;
        forall fd | fd in fds
          ensures fds[fd] in p.files && SavedOffsets(fds, p.files, k.maxFds)[fd] == Tell(p.files[fds[fd]])
        {
          SavedAt(fds, p.files, k.maxFds, fd);
        }
        SavedPositions(fds, p.files, k.maxFds);
      } else {
        assert PutTable(dup.tables, k.newId) == p.tables;
      }
    }
  }

  // ---- Recovering --------------------------------------------------------------------------------------------

  /**
    The loop over the threads from the `i`-th on, replacing `from` by `to`; the reference of `dup_fd` goes
    to the current thread.
   */
  function SwitchThreads(p: Process, from: nat, to: nat, i: nat): Process
    decreases |p.threads| - i
  {
    if i >= |p.threads| then p
    else if p.threads[i] != from then SwitchThreads(p, from, to, i + 1)
    else
      SwitchThreads(SwitchOne(p, from, to, i), from, to, i + 1)
  }

  /** `recover_files_snapshot`. */
  function RecoverFiles(p: Process, snap: FilesSnap, fdsOption: bool, k: Choice): (Process, int)
    requires p.current < |p.threads| && (snap.Files? ==> snap.table in p.tables)
  {
    if !fdsOption then (p, 0)
    else if snap.NoFiles? then (p, EINVAL)
    else if !k.dupOk then (p, ENOMEM)
    else
      var dup := DupInto(p, snap.table, k.newId, k.maxFds);
      var (error, files) := SeekAll(p.tables[snap.table].fds, snap.offsets, p.files, 0, k.maxFds);
      var sought := Process(dup.tables, p.threads, p.current, files);
      if error != 0 then (Put(sought, k.newId), error)
      else (SwitchThreads(sought, CurrentTable(p), k.newId, 0), 0)
  }

  /** Whether the local reference of `dup_fd` is still to be handed over at the `i`-th thread. */
  function LocalRef(current: nat, i: nat, to: nat): multiset<nat> {
    if i <= current then multiset{to} else multiset{}
  }

  lemma LocalRefStep(current: nat, i: nat, to: nat)
    ensures forall id :: LocalRef(current, i, to)[id] == if id == to && i <= current then 1 else 0
    ensures forall id :: LocalRef(current, i + 1, to)[id]
                         == LocalRef(current, i, to)[id] - (if id == to && i == current then 1 else 0)
  {
  }

  function SwitchOne(p: Process, from: nat, to: nat, i: nat): Process
    requires i < |p.threads|
  {
    var got := if i != p.current then GetTable(p.tables, to) else p.tables;
    Process(PutTable(got, from), p.threads[i := to], p.current, p.files)
  }

  lemma SwitchOneTables(p: Process, from: nat, to: nat, i: nat)
    requires i < |p.threads| && from != to && to in p.tables && from in p.tables && p.tables[from].count > 0
    ensures var p' := SwitchOne(p, from, to, i);
            && (forall id :: id in p'.tables <==> id in p.tables && (id == from ==> p.tables[from].count > 1))
            && (forall id :: id in p'.tables ==> SameTable(p.tables[id], p'.tables[id]))
            && p'.threads == p.threads[i := to] && p'.current == p.current && p'.files == p.files
            && (forall id :: id in p'.tables ==>
                  p'.tables[id].count
                  == p.tables[id].count - (if id == from then 1 else 0) + (if id == to && i != p.current then 1 else 0))
  {
  }

  /** The same table, up to its count. */
  predicate SameTable(t: Table, t': Table) {
    t'.fds == t.fds && t'.maxFds == t.maxFds && t'.external == t.external
  }

  /** Another thread with the old table keeps it alive. */
  lemma SwitchedHeld(threads: seq<nat>, from: nat, to: nat, i: nat, j: nat)
    requires i < |threads| && j < |threads| && threads[i] == from && from != to
    ensures threads[i := to][j] == from ==> multiset(threads)[from] > 1
  {
    if threads[i := to][j] == from {
      ThreadHolds(threads[i := to], j);
      SwitchThread(threads, i, to);
    }
  }

  /** The counts of the tables that are left, as references. */
  lemma CountsAfter(p: Process, p': Process, snap: FilesSnap, from: nat, to: nat, i: nat)
    requires i < |p.threads| && p.threads[i] == from && from != to
    requires forall id :: id in p.tables ==>
      p.tables[id].count == multiset(p.threads)[id] + SnapRefs(snap)[id] + LocalRef(p.current, i, to)[id] + p.tables[id].external
    requires p'.threads == p.threads[i := to]
    requires forall id :: id in p'.tables ==> id in p.tables && SameTable(p.tables[id], p'.tables[id])
    requires forall id :: id in p'.tables ==>
      p'.tables[id].count
      == p.tables[id].count - (if id == from then 1 else 0) + (if id == to && i != p.current then 1 else 0)
    ensures forall id :: id in p'.tables ==>
      p'.tables[id].count
      == multiset(p'.threads)[id] + SnapRefs(snap)[id] + LocalRef(p.current, i + 1, to)[id] + p'.tables[id].external
  {
    hide LocalRef, SnapRefs;
    SwitchThread(p.threads, i, to);
    LocalRefStep(p.current, i, to);
  }

  lemma SwitchOneHeld(p: Process, snap: FilesSnap, from: nat, to: nat, i: nat)
    requires i < |p.threads| && p.threads[i] == from && from != to && to in p.tables
    requires snap.Files? ==> snap.table != from && snap.table != to
    requires Counted(p, snap, LocalRef(p.current, i, to))
    ensures Held(SwitchOne(p, from, to, i), snap, LocalRef(p.current, i + 1, to))
  {
    hide SwitchOne, PutTable, GetTable;
    var p' := SwitchOne(p, from, to, i);
    ThreadHolds(p.threads, i);
    SwitchOneTables(p, from, to, i);
    forall j | 0 <= j < |p'.threads| ensures p'.threads[j] in p'.tables {
      SwitchedHeld(p.threads, from, to, i, j);
      assert p.threads[j] in p.tables;
    }
  }

  /** One thread switched: one reference more to the new table unless it was handed over, one less to the old. */
  lemma SwitchOneOk(p: Process, snap: FilesSnap, from: nat, to: nat, i: nat)
    requires i < |p.threads| && p.threads[i] == from && from != to && to in p.tables
    requires snap.Files? ==> snap.table != from && snap.table != to
    requires Counted(p, snap, LocalRef(p.current, i, to))
    ensures Counted(SwitchOne(p, from, to, i), snap, LocalRef(p.current, i + 1, to))
  {
    hide SwitchOne, PutTable, GetTable;
    SwitchOneHeld(p, snap, from, to, i);
    ThreadHolds(p.threads, i);
    SwitchOneTables(p, from, to, i);
    CountsAfter(p, SwitchOne(p, from, to, i), snap, from, to, i);
  }

  lemma CountedThread(p: Process, snap: FilesSnap, local: multiset<nat>, i: nat)
    requires Counted(p, snap, local) && i < |p.threads|
    ensures p.threads[i] in p.tables && p.tables[p.threads[i]].count > 0
  {
  }

  lemma {:induction false} SwitchThreadsOk(p: Process, snap: FilesSnap, from: nat, to: nat, i: nat)
    requires i <= |p.threads| && from != to && to in p.tables
    requires snap.Files? ==> snap.table != from && snap.table != to && snap.table in p.tables
    requires i <= p.current < |p.threads| ==> p.threads[p.current] == from
    requires Counted(p, snap, LocalRef(p.current, i, to)) && p.current < |p.threads|
    ensures var p' := SwitchThreads(p, from, to, i);
            && Counted(p', snap, multiset{})
            && |p'.threads| == |p.threads| && p'.current == p.current && p'.files == p.files
            && (forall j :: 0 <= j < |p.threads| ==>
                  p'.threads[j] == if i <= j && p.threads[j] == from then to else p.threads[j])
            && (forall id :: id in p'.tables ==> id in p.tables && SameTable(p.tables[id], p'.tables[id]))
            && to in p'.tables && (snap.Files? ==> snap.table in p'.tables)
    decreases |p.threads| - i
  {
    hide SwitchOne, PutTable, GetTable, Counted;
    if i < |p.threads| {
      if p.threads[i] != from {
        assert LocalRef(p.current, i, to) == LocalRef(p.current, i + 1, to);
        SwitchThreadsOk(p, snap, from, to, i + 1);
      } else {
        CountedThread(p, snap, LocalRef(p.current, i, to), i);
        SwitchOneOk(p, snap, from, to, i);
        SwitchOneTables(p, from, to, i);
        SwitchThreadsOk(SwitchOne(p, from, to, i), snap, from, to, i + 1);
      }
    }
  }

  /** What the snapshot stands for: its descriptors, and one position for each of their files. */
  ghost predicate Stands(p: Process, snap: FilesSnap, fds: map<nat, nat>, at: map<nat, int>) {
    snap.Files? && snap.table in p.tables && p.tables[snap.table].fds == fds && OffsetsAgree(fds, snap.offsets, at)
  }

  /** The caller has the snapshot's descriptors, and each of their seekable files is at its take-time position. */
  ghost predicate FilesRestored(p: Process, fds: map<nat, nat>, at: map<nat, int>) {
    && p.current < |p.threads| && CurrentTable(p) in p.tables
    && p.tables[CurrentTable(p)].fds == fds
    && (forall fd :: fd in fds ==>
          fds[fd] in p.files && fds[fd] in at && (at[fds[fd]] >= 0 ==> p.files[fds[fd]].pos == at[fds[fd]]))
  }

  lemma SoughtOk(p: Process, snap: FilesSnap, k: Choice, at: map<nat, int>)
    requires Inv(p, snap) && snap.Files? && ChoiceOk(p, k, snap.table)
    requires OffsetsAgree(p.tables[snap.table].fds, snap.offsets, at)
    ensures var (error, files) := SeekAll(p.tables[snap.table].fds, snap.offsets, p.files, 0, k.maxFds);
            var sought := Process(DupInto(p, snap.table, k.newId, k.maxFds).tables, p.threads, p.current, files);
            && Counted(sought, snap, multiset{k.newId}) && TablesOk(sought) && SnapOwn(sought, snap)
            && Put(sought, k.newId).tables == p.tables
  {
    SeekAllOk(p.tables[snap.table].fds, snap.offsets, p.files, at, 0, k.maxFds);
    DupCounted(p, snap, snap.table, k.newId, k.maxFds);
    assert PutTable(DupInto(p, snap.table, k.newId, k.maxFds).tables, k.newId) == p.tables;
  }

  lemma CurrentIsNotSnap(p: Process, snap: FilesSnap)
    requires Inv(p, snap) && snap.Files?
    ensures CurrentTable(p) != snap.table && CurrentTable(p) in p.tables
  {
    assert CurrentTable(p) in p.threads;
  }

  /**
    A recover succeeds iff its allocation does and every saved position can be reached.  Then exactly the
    threads that shared the caller's table have the new one, with the snapshot's descriptors and positions;
    if not, no thread and no table has changed.  Either way every count is right and the snapshot stands.
   */
  lemma RecoverFilesOk(p: Process, snap: FilesSnap, k: Choice, fds: map<nat, nat>, at: map<nat, int>)
    requires Inv(p, snap) && Stands(p, snap, fds, at) && ChoiceOk(p, k, snap.table)
    ensures var (p', error) := RecoverFiles(p, snap, true, k);
            && Inv(p', snap) && Stands(p', snap, fds, at)
            && (error == 0 <==> k.dupOk && Seekable(fds, snap.offsets, p.files, 0, k.maxFds))
            && (error == 0 ==>
                  && FilesRestored(p', fds, at) && |p'.threads| == |p.threads|
                  && forall j :: 0 <= j < |p.threads| ==>
                       p'.threads[j] == if p.threads[j] == CurrentTable(p) then k.newId else p.threads[j])
            && (error != 0 ==> p'.threads == p.threads && p'.tables == p.tables)
  {
    if k.dupOk {
      var (error, files) := SeekAll(fds, snap.offsets, p.files, 0, k.maxFds);
      var sought := Process(DupInto(p, snap.table, k.newId, k.maxFds).tables, p.threads, p.current, files);
      SeekAllOk(fds, snap.offsets, p.files, at, 0, k.maxFds);
      SoughtOk(p, snap, k, at);
      if error == 0 {
        CurrentIsNotSnap(p, snap);
        SwitchThreadsOk(sought, snap, CurrentTable(p), k.newId, 0);
        SwitchedInv(p, sought, snap, k, fds, at);
      }
    }
  }

  /**
    Without the option FDS neither a take nor a restore touches the files, and both succeed; with it, but
    without a snapshot of the files, a restore fails and changes nothing.
   */
  lemma FilesAreLeftAlone(p: Process, snap: FilesSnap, fdsOption: bool, k: Choice)
    requires Inv(p, snap)
    ensures CurrentTable(p) in p.tables && TakeFiles(p, snap, false, k).0 == p
    ensures TakeFiles(p, snap, false, k).1 == NoFiles && TakeFiles(p, snap, false, k).2 == 0
    ensures var (p', error) := RecoverFiles(p, snap, fdsOption, k);
            !fdsOption || snap == NoFiles ==> p' == p && (error == 0 <==> !fdsOption) && (fdsOption ==> error == -22)
  {
    assert p.threads[p.current] in p.tables;
  }

  lemma SwitchedInv(p: Process, sought: Process, snap: FilesSnap, k: Choice, fds: map<nat, nat>, at: map<nat, int>)
    requires Inv(p, snap) && Stands(p, snap, fds, at) && ChoiceOk(p, k, snap.table)
    requires sought.tables == p.tables[k.newId := DupTable(p.tables[snap.table], k.maxFds)]
    requires sought.threads == p.threads && sought.current == p.current && sought.files.Keys == p.files.Keys
    requires forall d :: d in fds && fds[d] in p.files && snap.offsets[d] >= 0 ==> sought.files[fds[d]].pos == snap.offsets[d]
    requires Counted(sought, snap, multiset{k.newId}) && TablesOk(sought)
    requires CurrentTable(p) != snap.table
    ensures var p' := SwitchThreads(sought, CurrentTable(p), k.newId, 0);
            Inv(p', snap) && Stands(p', snap, fds, at) && FilesRestored(p', fds, at)
  {
    assert k.newId != CurrentTable(p) by { assert CurrentTable(p) in p.threads; }
    SwitchThreadsOk(sought, snap, CurrentTable(p), k.newId, 0);
    hide SwitchThreads, CountsMatch, Held;
    AfterSwitch(p, sought, SwitchThreads(sought, CurrentTable(p), k.newId, 0), snap, k.newId, fds, at);
  }

  /** What follows for the tables that are left and for the current thread. */
  lemma AfterSwitch(p: Process, sought: Process, p': Process, snap: FilesSnap, to: nat, fds: map<nat, nat>, at: map<nat, int>)
    requires p.current < |p.threads| && TablesOk(p) && SnapOwn(p, snap) && Stands(p, snap, fds, at)
    requires to !in p.tables && sought.tables.Keys == p.tables.Keys + {to} && sought.tables[to].fds == fds
    requires forall id :: id in p.tables ==> sought.tables[id] == p.tables[id]
    requires sought.files.Keys == p.files.Keys && TablesOk(sought)
    requires forall d :: d in fds && fds[d] in p.files && snap.offsets[d] >= 0 ==> sought.files[fds[d]].pos == snap.offsets[d]
    requires |p'.threads| == |p.threads| && p'.current == p.current && p'.files == sought.files
    requires forall j :: 0 <= j < |p.threads| ==>
               p'.threads[j] == if p.threads[j] == CurrentTable(p) then to else p.threads[j]
    requires forall id :: id in p'.tables ==> id in sought.tables && SameTable(sought.tables[id], p'.tables[id])
    requires to in p'.tables && snap.table in p'.tables
    ensures TablesOk(p') && SnapOwn(p', snap) && Stands(p', snap, fds, at) && FilesRestored(p', fds, at)
  {
    assert SameTable(sought.tables[snap.table], p'.tables[snap.table]);
    assert SameTable(sought.tables[to], p'.tables[to]);
    forall j | 0 <= j < |p'.threads| ensures p'.threads[j] != snap.table {
      assert p.threads[j] in p.threads;
    }
    forall id, fd | id in p'.tables && fd in p'.tables[id].fds
      ensures fd < p'.tables[id].maxFds && p'.tables[id].fds[fd] in p'.files
    {
      assert SameTable(sought.tables[id], p'.tables[id]);
    }
  }

  // ---- Cleaning, and whole runs -------------------------------------------------------------------------------

  lemma NotHeld(threads: seq<nat>, id: nat)
    requires id !in threads
    ensures multiset(threads)[id] == 0
  {
  }

  function CleanFiles(p: Process, snap: FilesSnap): Process {
    if snap.Files? then Put(p, snap.table) else p
  }

  /** Cleaning drops the snapshot's table, and no other. */
  lemma CleanFilesOk(p: Process, snap: FilesSnap)
    requires Inv(p, snap)
    ensures Inv(CleanFiles(p, snap), NoFiles)
    ensures snap.Files? ==> CleanFiles(p, snap).tables == p.tables - {snap.table}
  {
    if snap.Files? {
      NotHeld(p.threads, snap.table);
    }
  }

  /** What the process does between two restores. */
  datatype Step =
    | UseTable(thread: nat, fds: map<nat, nat>, maxFds: nat)
    | UseFile(file: nat, to: File)
    | CloneThread(parent: nat)
    | ExitThread
    | DoRecover(choice: Choice)

  ghost predicate Enabled(p: Process, snap: FilesSnap, step: Step) {
    match step
    case UseTable(i, fds, maxFds) => i < |p.threads| && forall fd :: fd in fds ==> fd < maxFds && fds[fd] in p.files
    case UseFile(_, _) => true
    case CloneThread(i) => i < |p.threads|
    case ExitThread => p.current < |p.threads| - 1
    case DoRecover(k) => snap.Files? && ChoiceOk(p, k, snap.table)
  }

  ghost function Exec(p: Process, snap: FilesSnap, step: Step): Process
    requires Enabled(p, snap, step)
  {
    match step
    case UseTable(i, fds, maxFds) =>
      if p.threads[i] !in p.tables then p
      else
        var t := p.tables[p.threads[i]];
        Process(p.tables[p.threads[i] := Table(fds, maxFds, t.count, t.external)], p.threads, p.current, p.files)
    case UseFile(f, to) => Process(p.tables, p.threads, p.current, p.files[f := to])
    case CloneThread(i) => Process(GetTable(p.tables, p.threads[i]), p.threads + [p.threads[i]], p.current, p.files)
    case ExitThread =>
      var n := |p.threads| - 1;
      Process(PutTable(p.tables, p.threads[n]), p.threads[..n], p.current, p.files)
    case DoRecover(k) => if p.current < |p.threads| && snap.table in p.tables then RecoverFiles(p, snap, true, k).0 else p
  }

  lemma CloneOk(p: Process, snap: FilesSnap, i: nat)
    requires Inv(p, snap) && i < |p.threads|
    ensures Inv(Exec(p, snap, CloneThread(i)), snap)
  {
    assert p.threads[i] in p.threads;
    assert multiset(p.threads + [p.threads[i]]) == multiset(p.threads) + multiset{p.threads[i]};
  }

  lemma LastThread(p: Process, snap: FilesSnap)
    requires Inv(p, snap) && p.current < |p.threads| - 1
    ensures var n := |p.threads| - 1;
            && p.threads[n] in p.tables && (snap.Files? ==> snap.table != p.threads[n])
            && (forall t :: multiset(p.threads)[t] == multiset(p.threads[..n])[t] + if t == p.threads[n] then 1 else 0)
            && (forall j :: 0 <= j < n ==> p.threads[j] in p.tables && multiset(p.threads[..n])[p.threads[j]] > 0)
  {
    var n := |p.threads| - 1;
    assert p.threads == p.threads[..n] + [p.threads[n]];
    assert multiset(p.threads) == multiset(p.threads[..n]) + multiset{p.threads[n]};
    assert p.threads[n] in p.threads;
    forall j | 0 <= j < n ensures multiset(p.threads[..n])[p.threads[j]] > 0 {
      ThreadHolds(p.threads[..n], j);
    }
  }

  lemma ExitTables(p: Process, snap: FilesSnap)
    requires p.current < |p.threads| - 1
    ensures var p', n := Exec(p, snap, ExitThread), |p.threads| - 1;
            && p'.threads == p.threads[..n]
            && forall id :: id in p'.tables ==>
                 && id in p.tables && p'.tables[id].external == p.tables[id].external
                 && p'.tables[id].count == p.tables[id].count - if id == p.threads[n] then 1 else 0
  {
  }

  lemma ExitCounts(p: Process, snap: FilesSnap)
    requires Inv(p, snap) && p.current < |p.threads| - 1
    ensures CountsMatch(Exec(p, snap, ExitThread), snap, multiset{})
  {
    LastThread(p, snap);
    ExitTables(p, snap);
    hide Held, TablesOk, SnapOwn, Exec, PutTable, SnapRefs;
  }

  lemma ExitShared(p: Process, snap: FilesSnap, j: nat)
    requires Inv(p, snap) && p.current < |p.threads| - 1 && j < |p.threads| - 1
    ensures p.threads[j] == p.threads[|p.threads| - 1] ==> p.tables[p.threads[j]].count > 1
  {
    LastThread(p, snap);
    assert p.threads[j] in p.tables;
  }

  lemma ExitHeld(p: Process, snap: FilesSnap)
    requires Inv(p, snap) && p.current < |p.threads| - 1
    ensures Held(Exec(p, snap, ExitThread), snap, multiset{})
  {
    hide CountsMatch, TablesOk;
    var p' := Exec(p, snap, ExitThread);
    assert p.threads[|p.threads| - 1] in p.threads;
    forall j | 0 <= j < |p'.threads| ensures p'.threads[j] in p'.tables {
      ExitShared(p, snap, j);
      assert p.threads[j] in p.tables;
    }
  }

  lemma ExitOk(p: Process, snap: FilesSnap)
    requires Inv(p, snap) && p.current < |p.threads| - 1
    ensures Inv(Exec(p, snap, ExitThread), snap)
    ensures snap.Files? ==> snap.table in Exec(p, snap, ExitThread).tables
  {
    ExitCounts(p, snap);
    ExitHeld(p, snap);
    hide CountsMatch, Held;
    assert p.threads[|p.threads| - 1] in p.threads;
  }

  lemma UseTableOk(p: Process, snap: FilesSnap, i: nat, fds: map<nat, nat>, maxFds: nat)
    requires Inv(p, snap) && Enabled(p, snap, UseTable(i, fds, maxFds))
    ensures Inv(Exec(p, snap, UseTable(i, fds, maxFds)), snap)
    ensures snap.Files? ==> snap.table != p.threads[i]
  {
    assert p.threads[i] in p.threads;
  }

  lemma ExecOk(p: Process, snap: FilesSnap, step: Step, fds: map<nat, nat>, at: map<nat, int>)
    requires Inv(p, snap) && Stands(p, snap, fds, at) && Enabled(p, snap, step)
    ensures Inv(Exec(p, snap, step), snap) && Stands(Exec(p, snap, step), snap, fds, at)
  {
    hide CountsMatch;
    match step
    case UseTable(i, used, maxFds) => UseTableOk(p, snap, i, used, maxFds);
    case UseFile(f, to) => UseFileOk(p, snap, f, to);
    case CloneThread(i) =>
      CloneOk(p, snap, i);
      assert p.threads[i] in p.threads;
    case ExitThread =>
      ExitOk(p, snap);
      assert p.threads[|p.threads| - 1] in p.threads;
    case DoRecover(k) => RecoverFilesOk(p, snap, k, fds, at);
  }

  lemma UseFileOk(p: Process, snap: FilesSnap, f: nat, to: File)
    requires Inv(p, snap)
    ensures Inv(Exec(p, snap, UseFile(f, to)), snap)
  {
  }

  ghost predicate ValidRun(p: Process, snap: FilesSnap, steps: seq<Step>)
    decreases |steps|
  {
    steps == [] || (Enabled(p, snap, steps[0]) && ValidRun(Exec(p, snap, steps[0]), snap, steps[1..]))
  }

  ghost function Run(p: Process, snap: FilesSnap, steps: seq<Step>): Process
    requires ValidRun(p, snap, steps)
    decreases |steps|
  {
    if steps == [] then p else Run(Exec(p, snap, steps[0]), snap, steps[1..])
  }

  lemma {:induction false} RunOk(p: Process, snap: FilesSnap, steps: seq<Step>, fds: map<nat, nat>, at: map<nat, int>)
    requires Inv(p, snap) && Stands(p, snap, fds, at) && ValidRun(p, snap, steps)
    ensures Inv(Run(p, snap, steps), snap) && Stands(Run(p, snap, steps), snap, fds, at)
    decreases |steps|
  {
    if steps != [] {
      ExecOk(p, snap, steps[0], fds, at);
      RunOk(Exec(p, snap, steps[0]), snap, steps[1..], fds, at);
    }
  }

  /** The caller has the descriptors it had in `was`, and each file that could be sought then is where it was. */
  ghost predicate FilesAreBack(was: Process, now: Process) {
    && was.current < |was.threads| && CurrentTable(was) in was.tables
    && now.current < |now.threads| && CurrentTable(now) in now.tables
    && var fds := was.tables[CurrentTable(was)].fds;
       && now.tables[CurrentTable(now)].fds == fds
       && forall fd :: fd in fds && fds[fd] in was.files && !was.files[fds[fd]].kind.NoSeek? ==>
            fds[fd] in now.files && now.files[fds[fd]].pos == was.files[fds[fd]].pos
  }

  lemma BackAtPositions(was: Process, now: Process)
    requires was.current < |was.threads| && CurrentTable(was) in was.tables
    requires FilesRestored(now, was.tables[CurrentTable(was)].fds, Positions(was))
    ensures FilesAreBack(was, now)
  {
  }

  /** A file that could be sought at the take can be brought back to where it was. */
  predicate Reachable(was: File, now: File) {
    !now.kind.NoSeek? && was.pos <= now.kind.max
  }

  /** Whether the saved positions can be reached, and where the seeks bring the files, in terms of the files themselves. */
  lemma SeekableIff(p: Process, snap: FilesSnap, end: Process, k: Choice)
    requires Inv(p, NoFiles) && p.current < |p.threads| && CurrentTable(p) in p.tables
    requires var fds := p.tables[CurrentTable(p)].fds;
             && snap.Files? && Stands(end, snap, fds, Positions(p)) && PositionsSaved(fds, p.files, snap.offsets)
             && Inv(end, snap) && ChoiceOk(end, k, snap.table)
    ensures var fds := p.tables[CurrentTable(p)].fds;
            && (forall fd :: fd in fds ==> fds[fd] in p.files && fds[fd] in end.files)
            && (Seekable(fds, snap.offsets, end.files, 0, k.maxFds) <==>
                  forall fd :: fd in fds && !p.files[fds[fd]].kind.NoSeek? ==>
                    Reachable(p.files[fds[fd]], end.files[fds[fd]]))
  {
    var fds := p.tables[CurrentTable(p)].fds;
    assert end.tables[snap.table].fds == fds;
    hide Counted;
    forall fd | fd in fds ensures fd < k.maxFds && fd < |snap.offsets| && fds[fd] in p.files && fds[fd] in end.files {
    }
    hide Inv, Stands;
    assert Seekable(fds, snap.offsets, end.files, 0, k.maxFds) <==>
      forall fd :: fd in fds && snap.offsets[fd] >= 0 ==>
        !end.files[fds[fd]].kind.NoSeek? && snap.offsets[fd] <= end.files[fds[fd]].kind.max;
  }

  /**
    Over a take, any run of descriptor, position and thread changes and of earlier restores, and then a
    restore: it succeeds iff its allocation does and every file that could be sought at the take still can,
    as far as to where it was; a file that could not be sought then never makes it fail.  If it succeeds, the
    caller has the descriptors it had at the take, and every file that could be sought is where it was,
    however many descriptors share it.
   */
  lemma RestoreAfterAnyRun(p: Process, k: Choice, steps: seq<Step>, last: Choice)
    requires Inv(p, NoFiles) && ChoiceOk(p, k, CurrentTable(p)) && k.dupOk && k.allocOk
    requires var (p1, snap, _) := TakeFiles(p, NoFiles, true, k);
             ValidRun(p1, snap, steps) && Enabled(Run(p1, snap, steps), snap, DoRecover(last))
    ensures var (p1, snap, _) := TakeFiles(p, NoFiles, true, k);
            var end, fds := Run(p1, snap, steps), p.tables[CurrentTable(p)].fds;
            && end.current < |end.threads| && snap.Files? && snap.table in end.tables
            && (forall fd :: fd in fds ==> fds[fd] in p.files && fds[fd] in end.files)
            && var (p2, error) := RecoverFiles(end, snap, true, last);
               && (error == 0 <==> last.dupOk && forall fd :: fd in fds && !p.files[fds[fd]].kind.NoSeek? ==>
                                                  Reachable(p.files[fds[fd]], end.files[fds[fd]]))
               && (error == 0 ==> FilesAreBack(p, p2))
  {
    TakeFilesOk(p, NoFiles, true, k);
    var (p1, snap, _) := TakeFiles(p, NoFiles, true, k);
    var fds, at := p.tables[CurrentTable(p)].fds, Positions(p);
    RunOk(p1, snap, steps, fds, at);
    var end := Run(p1, snap, steps);
    RecoverFilesOk(end, snap, last, fds, at);
    SeekableIff(p, snap, end, last);
    assert end.current < |end.threads| && CurrentTable(p) in p.tables;
    hide *;
    var (p2, error) := RecoverFiles(end, snap, true, last);
    if error == 0 { BackAtPositions(p, p2); }
  }
}
